/** What a prepared release holds, and when a component can be copied, said of the repository and the source trees alone. */
module ReleaseContents {
  import opened Text
  import opened ReleasePaths
  import opened ReleaseModel
  import opened ReleaseProofs
  import opened ReleaseManifestProofs
  import opened ReleaseVerifyProofs

  // ---- Normal paths

  lemma {:induction false} NamedMembers(parts: seq<string>, part: string)
    ensures part in Named(parts) <==> part in parts && part != "" && part != "."
  {
    if parts != [] {
      NamedMembers(parts[..|parts| - 1], part);
      LastMembers(parts);
    }
  }

  lemma PartsMembers(value: string)
    ensures forall part :: part in Parts(value) <==> part in Split(value, '/') && part != "" && part != "."
  {
    forall part ensures part in Parts(value) <==> part in Split(value, '/') && part != "" && part != "." {
      NamedMembers(Split(value, '/'), part);
    }
  }

  lemma ManifestParts()
    ensures Show(["release-manifest.json"]) == "release-manifest.json"
  {
  }

  /** Only the empty path shows as a dot, and only the manifest's as the manifest's. */
  lemma ShowReserved(parts: seq<string>)
    requires ProperParts(parts)
    ensures Show(parts) == "." <==> parts == []
    ensures Show(parts) == MANIFEST <==> parts == ["release-manifest.json"]
  {
    PartsShow(parts);
    PartsShow([]);
    ManifestParts();
    PartsShow(["release-manifest.json"]);
  }

  /** Some part is neither empty nor a single dot. */
  predicate SomeNamed(parts: seq<string>) {
    exists part :: part in parts && part != "" && part != "."
  }

  lemma {:induction false} NamedSome(parts: seq<string>)
    ensures Named(parts) != [] <==> SomeNamed(parts)
  {
    if parts != [] {
      var before, last := parts[..|parts| - 1], parts[|parts| - 1];
      NamedSome(before);
      LastMembers(parts);
      if SomeNamed(before) {
        var part :| part in before && part != "" && part != ".";
        assert part in parts;
      } else if last != "" && last != "." {
        assert last in parts;
      }
    }
  }

  /** A path is accepted unless it is empty or absolute, climbs, names nothing, or names the manifest; it keeps its parts. */
  lemma RelativeExactly(value: string)
    ensures Relative(value).Success?
            <==> && value != "" && value[0] != '/' && ".." !in Split(value, '/')
                 && SomeNamed(Split(value, '/')) && Parts(value) != ["release-manifest.json"]
    ensures Relative(value).Success? ==> Parts(Relative(value).value) == Parts(value)
    ensures Relative(value).Failure? ==>
              Relative(value).error == (if value == "" || value[0] == '/' || ".." in Split(value, '/') then NotRelative else ReservedPath)
  {
    PartsMembers(value);
    NamedSome(Split(value, '/'));
    PartsProper(value);
    PartsShow(Parts(value));
    ShowReserved(Parts(value));
  }

  // ---- What a component provides

  /** The values in normal form, one by one. */
  ghost predicate AllRelative(values: seq<string>, normal: seq<string>) {
    |normal| == |values| && forall i :: 0 <= i < |values| ==> Relative(values[i]) == Success(normal[i])
  }

  lemma AllRelativeMore(values: seq<string>, before: seq<string>, last: string)
    requires values != [] && AllRelative(values[..|values| - 1], before) && Relative(values[|values| - 1]) == Success(last)
    ensures AllRelative(values, before + [last])
  {
    forall i | 0 <= i < |values| ensures Relative(values[i]) == Success((before + [last])[i]) {
      if i < |values| - 1 {
        assert values[..|values| - 1][i] == values[i];
      }
    }
  }

  lemma {:induction false} RelativeAllIff(values: seq<string>)
    ensures RelativeAll(values).Success? <==> forall i :: 0 <= i < |values| ==> Relative(values[i]).Success?
    ensures RelativeAll(values).Success? ==> AllRelative(values, RelativeAll(values).value)
  {
    if values != [] {
      var n := |values| - 1;
      RelativeAllIff(values[..n]);
      assert forall i :: 0 <= i < n ==> values[..n][i] == values[i];
      if RelativeAll(values).Success? {
        AllRelativeMore(values, RelativeAll(values[..n]).value, Relative(values[n]).value);
      }
    }
  }

  /** The path of an entry below the source; the source itself, when it is a file, by its name. */
  predicate BelowSource(path: string, source: string, relative: string) {
    if path == source then relative == (if Parts(path) == [] then "" else Parts(path)[|Parts(path)| - 1])
    else !(path != "" && path[0] == '/') && Parts(source) <= Parts(path) && relative == Show(Parts(path)[|Parts(source)|..])
  }

  /** A file of the commit, or of the snapshot, is copied to the path with its bytes, executable or not. */
  predicate CopiedTo(w: World, target: string, patterns: seq<string>, relative: string, content: Bytes, executable: bool, path: string, node: Node) {
    && Matched(w, relative, patterns) && path == Below(target, relative)
    && node == File(content, if executable then 0x16D else 0x124)
  }

  /** The git component c has the file: a blob of the commit below its source that is selected. */
  ghost predicate GitGives(w: World, commit: string, c: Component, path: string, node: Node) {
    && c.kind == "git" && c.source.Some? && c.target.Some? && c.patterns.Some?
    && exists source, target, patterns, i, relative ::
         && Relative(c.source.value) == Success(source) && Relative(c.target.value) == Success(target)
         && AllRelative(c.patterns.value, patterns)
         && GitEntryGives(w, w.list(commit, source), source, target, patterns, i, relative, path, node)
  }

  predicate GitEntryGives(
      w: World, entries: seq<GitEntry>, source: string, target: string, patterns: seq<string>, i: int, relative: string,
      path: string, node: Node)
  {
    && 0 <= i < |entries| && entries[i].objectType == "blob" && entries[i].mode != "120000"
    && BelowSource(entries[i].path, source, relative)
    && CopiedTo(w, target, patterns, relative, entries[i].content, entries[i].mode == "100755", path, node)
  }

  /** The other component c has the file: a regular file of its source tree that is selected. */
  ghost predicate SnapshotGives(w: World, roots: map<string, string>, c: Component, path: string, node: Node) {
    && c.kind != "git" && c.kind != "external" && c.sourceKey.Some? && c.sourceKey.value in roots
    && w.resolve(roots[c.sourceKey.value]).Some? && c.target.Some? && c.patterns.Some?
    && exists target, patterns, i ::
         && Relative(c.target.value) == Success(target) && AllRelative(c.patterns.value, patterns)
         && SnapshotEntryGives(w, w.entries(w.resolve(roots[c.sourceKey.value]).value), target, patterns, i, path, node)
  }

  predicate SnapshotEntryGives(
      w: World, entries: seq<SourceEntry>, target: string, patterns: seq<string>, i: int, path: string, node: Node)
  {
    && 0 <= i < |entries| && entries[i].node.SourceFile?
    && CopiedTo(w, target, patterns, entries[i].relative, entries[i].node.content, entries[i].node.executable, path, node)
  }

  lemma OneRelativeAll(values: seq<string>, a: seq<string>, b: seq<string>)
    requires AllRelative(values, a) && AllRelative(values, b)
    ensures a == b
  {
  }

  lemma PatternsIff(c: Component)
    ensures Patterns(c).Success? <==> c.patterns.Some? && exists patterns :: AllRelative(c.patterns.value, patterns)
    ensures forall patterns :: c.patterns.Some? && AllRelative(c.patterns.value, patterns) ==> Patterns(c) == Success(patterns)
    ensures Patterns(c).Success? ==> AllRelative(c.patterns.value, Patterns(c).value)
  {
    if c.patterns.Some? {
      RelativeAllIff(c.patterns.value);
      forall patterns | AllRelative(c.patterns.value, patterns) ensures Patterns(c) == Success(patterns) {
        OneRelativeAll(c.patterns.value, patterns, RelativeAll(c.patterns.value).value);
      }
    }
  }

  lemma BelowSourceIff(path: string, source: string, relative: string)
    ensures GitRelative(path, source) == Success(relative) <==> BelowSource(path, source, relative)
  {
  }

  lemma PickGitGives(
      w: World, entries: seq<GitEntry>, source: string, target: string, patterns: seq<string>, i: int, path: string, node: Node)
    requires 0 <= i < |entries|
    ensures var picked := PickGit(w, source, patterns, entries[i]);
            (Puts(target, picked, path) && node == NodeOf(picked.value.value))
            <==> exists relative :: GitEntryGives(w, entries, source, target, patterns, i, relative, path, node)
  {
    var e := entries[i];
    if GitRelative(e.path, source).Success? {
      var relative := GitRelative(e.path, source).value;
      BelowSourceIff(e.path, source, relative);
      MatchedIsSelected(w, relative, patterns);
      assert GitEntryGives(w, entries, source, target, patterns, i, relative, path, node)
        <==> Puts(target, PickGit(w, source, patterns, e), path) && node == NodeOf(PickGit(w, source, patterns, e).value.value);
    }
    forall relative ensures GitRelative(e.path, source) == Success(relative) <==> BelowSource(e.path, source, relative) {
      BelowSourceIff(e.path, source, relative);
    }
  }

  lemma PickSnapshotGives(
      w: World, entries: seq<SourceEntry>, target: string, patterns: seq<string>, i: int, path: string, node: Node)
    requires 0 <= i < |entries|
    ensures var picked := PickSnapshot(w, patterns, entries[i]);
            (Puts(target, picked, path) && node == NodeOf(picked.value.value))
            <==> SnapshotEntryGives(w, entries, target, patterns, i, path, node)
  {
    MatchedIsSelected(w, entries[i].relative, patterns);
  }

  /** The texts of the component are normal, and these are their normal forms. */
  ghost predicate GitTexts(c: Component, source: string, target: string, patterns: seq<string>) {
    && c.source.Some? && c.target.Some? && c.patterns.Some?
    && Relative(c.source.value) == Success(source) && Relative(c.target.value) == Success(target)
    && AllRelative(c.patterns.value, patterns)
  }

  /** The i-th entry puts the node at the path. */
  predicate PutsAt(target: string, picks: seq<Picked>, i: int, path: string, node: Node) {
    PicksAt(target, picks, i, path) && node == NodeOf(picks[i].value.value)
  }

  lemma ProvidesPuts(w: World, commit: string, roots: map<string, string>, c: Component, target: string, path: string, node: Node)
    requires c.kind != "external" && RelativeKey(c.target) == Success(target)
    ensures Provides(w, commit, roots, c, path, node) <==> exists i :: PutsAt(target, PicksOf(w, commit, roots, c), i, path, node)
  {
    var picks := PicksOf(w, commit, roots, c);
    if i :| PutsAt(target, picks, i, path, node) {
      assert PicksAt(target, picks, i, path);
    }
    if i :| PicksAt(target, picks, i, path) && node == NodeOf(picks[i].value.value) {
      assert PutsAt(target, picks, i, path, node);
    }
  }

  lemma GitPutsAt(
      w: World, entries: seq<GitEntry>, source: string, target: string, patterns: seq<string>, i: int, path: string, node: Node)
    ensures PutsAt(target, GitPicks(w, source, patterns, entries), i, path, node)
            <==> exists relative :: GitEntryGives(w, entries, source, target, patterns, i, relative, path, node)
  {
    var picks := GitPicks(w, source, patterns, entries);
    if 0 <= i < |entries| {
      PickGitGives(w, entries, source, target, patterns, i, path, node);
      assert PicksAt(target, picks, i, path) <==> Puts(target, picks[i], path);
    }
  }

  lemma GitProvidesWith(
      w: World, commit: string, roots: map<string, string>, c: Component, source: string, target: string,
      patterns: seq<string>, path: string, node: Node)
    requires c.kind == "git" && GitTexts(c, source, target, patterns)
    ensures Provides(w, commit, roots, c, path, node)
            <==> exists i, relative :: GitEntryGives(w, w.list(commit, source), source, target, patterns, i, relative, path, node)
  {
    PatternsIff(c);
    var entries := w.list(commit, source);
    ProvidesPuts(w, commit, roots, c, target, path, node);
    assert PicksOf(w, commit, roots, c) == GitPicks(w, source, patterns, entries);
    var picks := GitPicks(w, source, patterns, entries);
    if i :| PutsAt(target, picks, i, path, node) {
      GitPutsAt(w, entries, source, target, patterns, i, path, node);
      var relative :| GitEntryGives(w, entries, source, target, patterns, i, relative, path, node);
    }
    if i, relative :| GitEntryGives(w, entries, source, target, patterns, i, relative, path, node) {
      GitPutsAt(w, entries, source, target, patterns, i, path, node);
      assert PutsAt(target, picks, i, path, node);
    }
  }

  lemma GitGivesWith(w: World, commit: string, c: Component, source: string, target: string, patterns: seq<string>, path: string, node: Node)
    requires c.kind == "git" && GitTexts(c, source, target, patterns)
    ensures GitGives(w, commit, c, path, node)
            <==> exists i, relative :: GitEntryGives(w, w.list(commit, source), source, target, patterns, i, relative, path, node)
  {
    forall other | AllRelative(c.patterns.value, other) ensures other == patterns {
      OneRelativeAll(c.patterns.value, patterns, other);
    }
  }

  lemma GitProvides(w: World, commit: string, roots: map<string, string>, c: Component, path: string, node: Node)
    requires c.kind == "git"
    ensures Provides(w, commit, roots, c, path, node) <==> GitGives(w, commit, c, path, node)
  {
    PatternsIff(c);
    if RelativeKey(c.source).Success? && RelativeKey(c.target).Success? && Patterns(c).Success? {
      var source, target, patterns := RelativeKey(c.source).value, RelativeKey(c.target).value, Patterns(c).value;
      GitProvidesWith(w, commit, roots, c, source, target, patterns, path, node);
      GitGivesWith(w, commit, c, source, target, patterns, path, node);
    }
  }

  lemma SnapshotProvides(w: World, commit: string, roots: map<string, string>, c: Component, path: string, node: Node)
    requires c.kind != "git"
    ensures Provides(w, commit, roots, c, path, node) <==> SnapshotGives(w, roots, c, path, node)
  {
    PatternsIff(c);
    if c.kind != "external" && SourceRoot(w, roots, c.sourceKey).Success? && RelativeKey(c.target).Success? && Patterns(c).Success? {
      var target, patterns := RelativeKey(c.target).value, Patterns(c).value;
      var entries := w.entries(SourceRoot(w, roots, c.sourceKey).value);
      var picks := PicksOf(w, commit, roots, c);
      assert picks == SnapshotPicks(w, patterns, entries);
      forall i | 0 <= i < |entries|
        ensures (PicksAt(target, picks, i, path) && node == NodeOf(picks[i].value.value))
                <==> SnapshotEntryGives(w, entries, target, patterns, i, path, node)
      {
        PickSnapshotGives(w, entries, target, patterns, i, path, node);
        assert PicksAt(target, picks, i, path) <==> Puts(target, picks[i], path);
      }
    }
  }

  /** Some component of the bundle has the file. */
  ghost predicate SomeGives(w: World, commit: string, roots: map<string, string>, cs: seq<Component>, path: string, node: Node) {
    exists i :: 0 <= i < |cs| && (GitGives(w, commit, cs[i], path, node) || SnapshotGives(w, roots, cs[i], path, node))
  }

  /** A prepared release holds, outside its manifest, exactly the selected files, with their bytes and modes. */
  lemma PreparedContents(w: World, request: Request, path: string, node: Node)
    requires Lawful(w) && Prepared(w, request).Success? && path != "release-manifest.json"
    ensures BundleComponents(w, request).Success? && w.commit(request.revision).Some?
    ensures var tree := Prepared(w, request).value.tree;
            path in tree && tree[path] == node
            <==> SomeGives(w, w.commit(request.revision).value, request.roots, BundleComponents(w, request).value, path, node)
  {
    PreparedHoldsExactly(w, request, path, node);
    var cs, commit := BundleComponents(w, request).value, w.commit(request.revision).value;
    forall c | c in cs
      ensures Provides(w, commit, request.roots, c, path, node)
              <==> GitGives(w, commit, c, path, node) || SnapshotGives(w, request.roots, c, path, node)
    {
      if c.kind == "git" {
        GitProvides(w, commit, request.roots, c, path, node);
      } else {
        SnapshotProvides(w, commit, request.roots, c, path, node);
      }
    }
    if SomeProvides(w, commit, request.roots, cs, path, node) {
      var c :| c in cs && Provides(w, commit, request.roots, c, path, node);
      var i :| 0 <= i < |cs| && cs[i] == c;
    }
  }

  // ---- When a component can be copied

  /** One of the paths is the other, or lies below it. */
  predicate Conflict(p: string, q: string) {
    Parts(p) <= Parts(q) || Parts(q) <= Parts(p)
  }

  /** The entry is picked. */
  predicate IsPick(picked: Picked) {
    picked.Success? && picked.value.Some?
  }

  function Destination(target: string, picked: Picked): string
    requires IsPick(picked)
  {
    Below(target, picked.value.value.relative)
  }

  /** The destination is a path that can be written, in conflict with no file of the tree and no earlier destination. */
  predicate Writable(tree: Tree, target: string, picked: seq<Picked>, i: nat)
    requires i < |picked| && IsPick(picked[i])
  {
    var destination := Destination(target, picked[i]);
    && Relative(destination).Success?
    && (forall q :: q in tree ==> !Conflict(q, destination))
    && forall j :: 0 <= j < i && IsPick(picked[j]) ==> !Conflict(Destination(target, picked[j]), destination)
  }

  predicate Placeable(tree: Tree, target: string, picked: seq<Picked>) {
    forall i :: 0 <= i < |picked| ==> picked[i].Success? && (IsPick(picked[i]) ==> Writable(tree, target, picked, i))
  }

  lemma PlaceableMore(tree: Tree, target: string, picked: seq<Picked>)
    requires picked != []
    ensures var n := |picked| - 1;
            Placeable(tree, target, picked)
            <==> Placeable(tree, target, picked[..n]) && picked[n].Success? && (IsPick(picked[n]) ==> Writable(tree, target, picked, n))
  {
    var n := |picked| - 1;
    var rest := picked[..n];
    forall i | 0 <= i < n
      ensures rest[i] == picked[i] && (IsPick(picked[i]) ==> (Writable(tree, target, rest, i) <==> Writable(tree, target, picked, i)))
    {
      assert forall j :: 0 <= j <= i ==> rest[j] == picked[j];
    }
  }

  /** Of a tree to which the picks before n were copied: the n-th can be written exactly when nothing is in its way. */
  lemma TakenIff(tree: Tree, target: string, picked: seq<Picked>, after: Tree)
    requires picked != [] && IsPick(picked[|picked| - 1]) && Copied(target, tree, picked[..|picked| - 1], after)
    requires Relative(Destination(target, picked[|picked| - 1])).Success?
    ensures var n := |picked| - 1;
            !Taken(after, Destination(target, picked[n])) <==> Writable(tree, target, picked, n)
  {
    var n := |picked| - 1;
    var rest, destination := picked[..n], Destination(target, picked[n]);
    if Taken(after, destination) {
      var q :| q in after && Conflict(q, destination);
      if q !in tree {
        var i :| PicksAt(target, rest, i, q);
        assert IsPick(picked[i]) && Destination(target, picked[i]) == q;
      }
    } else {
      forall j | 0 <= j < n && IsPick(picked[j]) ensures !Conflict(Destination(target, picked[j]), destination) {
        assert rest[j] == picked[j] && PicksAt(target, rest, j, Destination(target, picked[j]));
      }
    }
  }

  /** Copying succeeds exactly when every entry is fine and every destination can be written. */
  lemma {:induction false} TakeAllIff(target: string, tree: Tree, picked: seq<Picked>)
    requires Staged(tree)
    ensures TakeAll(target, tree, picked).Success? <==> Placeable(tree, target, picked)
  {
    if picked != [] {
      var n := |picked| - 1;
      TakeAllIff(target, tree, picked[..n]);
      PlaceableMore(tree, target, picked);
      if TakeAll(target, tree, picked[..n]).Success? {
        TakeAllCopies(target, tree, picked[..n]);
        TakeIff(target, tree, picked, TakeAll(target, tree, picked[..n]).value);
      }
    }
  }

  lemma TakeIff(target: string, tree: Tree, picked: seq<Picked>, s: Progress)
    requires picked != [] && Copied(target, tree, picked[..|picked| - 1], s.tree)
    ensures var n := |picked| - 1;
            Take(target, s, picked[n]).Success?
            <==> picked[n].Success? && (IsPick(picked[n]) ==> Writable(tree, target, picked, n))
  {
    var n := |picked| - 1;
    if IsPick(picked[n]) && Relative(Destination(target, picked[n])).Success? {
      BelowNormal(target, picked[n].value.value.relative);
      TakenIff(tree, target, picked, s.tree);
    }
  }

  /** Some picked entry has this relative path. */
  predicate PickedAt(picked: seq<Picked>, relative: string) {
    exists j :: 0 <= j < |picked| && IsPick(picked[j]) && picked[j].value.value.relative == relative
  }

  /** The component names required files, as exact paths, and each of them is picked. */
  predicate RequiredPicked(c: Component, picked: seq<Picked>) {
    && c.requiredFiles != []
    && forall i :: 0 <= i < |c.requiredFiles| ==>
         && Relative(c.requiredFiles[i]).Success?
         && (forall mark :: mark in "*?[" ==> mark !in Relative(c.requiredFiles[i]).value)
         && PickedAt(picked, Relative(c.requiredFiles[i]).value)
  }

  lemma PickedLast(picked: seq<Picked>, n: nat, relative: string)
    requires n + 1 == |picked|
    ensures PickedAt(picked, relative)
            <==> PickedAt(picked[..n], relative) || (IsPick(picked[n]) && picked[n].value.value.relative == relative)
  {
    assert forall j :: 0 <= j < n ==> picked[..n][j] == picked[j];
  }

  lemma {:induction false} TakeAllSources(target: string, tree: Tree, picked: seq<Picked>, relative: string)
    requires TakeAll(target, tree, picked).Success?
    ensures relative in TakeAll(target, tree, picked).value.sources <==> PickedAt(picked, relative)
    ensures TakeAll(target, tree, picked).value.selected == [] <==> forall j :: 0 <= j < |picked| ==> !IsPick(picked[j])
  {
    if picked != [] {
      var n := |picked| - 1;
      TakeAllSources(target, tree, picked[..n], relative);
      PickedLast(picked, n, relative);
      TakeSources(target, TakeAll(target, tree, picked[..n]).value, picked[n], relative);
      assert forall j :: 0 <= j < n ==> picked[..n][j] == picked[j];
    }
  }

  lemma TakeSources(target: string, s: Progress, picked: Picked, relative: string)
    requires Take(target, s, picked).Success?
    ensures var after := Take(target, s, picked).value;
            && (relative in after.sources <==> relative in s.sources || (IsPick(picked) && picked.value.value.relative == relative))
            && (after.selected == [] <==> s.selected == [] && !IsPick(picked))
  {
    if IsPick(picked) {
      var after := Take(target, s, picked).value;
      assert after.sources == s.sources + [picked.value.value.relative] && |after.selected| == |s.selected| + 1;
    }
  }

  lemma RequiredIff(c: Component, selected: set<string>)
    ensures CheckRequired(c, selected).Success?
            <==> c.requiredFiles != [] && forall i :: 0 <= i < |c.requiredFiles| ==>
                   Relative(c.requiredFiles[i]).Success? && Exact(Relative(c.requiredFiles[i]).value)
                   && Relative(c.requiredFiles[i]).value in selected
  {
    RelativeAllIff(c.requiredFiles);
    if RelativeAll(c.requiredFiles).Success? {
      CheckedRequired(c, RelativeAll(c.requiredFiles).value, selected);
    }
  }

  lemma CheckedRequired(c: Component, values: seq<string>, selected: set<string>)
    requires RelativeAll(c.requiredFiles) == Success(values)
    ensures CheckRequired(c, selected).Success?
            <==> values != [] && forall i :: 0 <= i < |values| ==> Exact(values[i]) && values[i] in selected
  {
    assert forall i :: 0 <= i < |values| ==> values[i] in values;
  }

  /** A component is copied exactly when its entries can be placed, some are picked, and the required are among them. */
  lemma CopyIff(c: Component, tree: Tree, target: string, picked: seq<Picked>)
    requires Staged(tree)
    ensures Copy(c, tree, target, picked).Success?
            <==> Placeable(tree, target, picked) && (exists i :: 0 <= i < |picked| && IsPick(picked[i])) && RequiredPicked(c, picked)
  {
    TakeAllIff(target, tree, picked);
    if TakeAll(target, tree, picked).Success? {
      var s := TakeAll(target, tree, picked).value;
      TakeAllSources(target, tree, picked, "");
      RequiredIff(c, Members(s.sources));
      forall i | 0 <= i < |c.requiredFiles| && Relative(c.requiredFiles[i]).Success?
        ensures var value := Relative(c.requiredFiles[i]).value;
                && (Exact(value) <==> forall mark :: mark in "*?[" ==> mark !in value)
                && (value in Members(s.sources)
                    <==> exists j :: 0 <= j < |picked| && IsPick(picked[j]) && picked[j].value.value.relative == value)
      {
        TakeAllSources(target, tree, picked, Relative(c.requiredFiles[i]).value);
        ExactMarks(Relative(c.requiredFiles[i]).value);
      }
    }
  }

  lemma ExactMarks(value: string)
    ensures Exact(value) <==> forall mark :: mark in "*?[" ==> mark !in value
  {
    assert '*' in "*?[" && '?' in "*?[" && '[' in "*?[";
  }

  // ---- When a whole release can be prepared

  /** A git entry ends the component when it is no blob, is a link, or does not lie below the source. */
  lemma PickGitFaults(w: World, source: string, patterns: seq<string>, e: GitEntry)
    ensures PickGit(w, source, patterns, e).Failure?
            <==> e.objectType != "blob" || e.mode == "120000" || !exists relative :: BelowSource(e.path, source, relative)
  {
    if GitRelative(e.path, source).Success? {
      BelowSourceIff(e.path, source, GitRelative(e.path, source).value);
    }
    if relative :| BelowSource(e.path, source, relative) {
      BelowSourceIff(e.path, source, relative);
    }
  }

  /** A snapshot entry ends the component when it is a link that is selected. */
  lemma PickSnapshotFaults(w: World, patterns: seq<string>, e: SourceEntry)
    ensures PickSnapshot(w, patterns, e).Failure? <==> e.node.SourceLink? && Matched(w, e.relative, patterns)
  {
    MatchedIsSelected(w, e.relative, patterns);
  }

  /** The picked entries can be copied into the tree. */
  predicate CanCopy(c: Component, tree: Tree, target: string, picked: seq<Picked>) {
    Placeable(tree, target, picked) && (exists i :: 0 <= i < |picked| && IsPick(picked[i])) && RequiredPicked(c, picked)
  }

  ghost predicate CanCopyGit(w: World, commit: string, tree: Tree, c: Component) {
    exists source, target, patterns ::
      GitTexts(c, source, target, patterns) && CanCopy(c, tree, target, GitPicks(w, source, patterns, w.list(commit, source)))
  }

  /** The source root of the component is known and there. */
  predicate HasRoot(w: World, roots: map<string, string>, c: Component) {
    c.sourceKey.Some? && c.sourceKey.value in roots && w.resolve(roots[c.sourceKey.value]).Some?
  }

  ghost predicate CanCopySnapshot(w: World, roots: map<string, string>, tree: Tree, c: Component) {
    && HasRoot(w, roots, c) && c.target.Some? && c.patterns.Some?
    && exists target, patterns ::
         && Relative(c.target.value) == Success(target) && AllRelative(c.patterns.value, patterns)
         && CanCopy(c, tree, target, SnapshotPicks(w, patterns, w.entries(w.resolve(roots[c.sourceKey.value]).value)))
  }

  /** The external tree is the expected one, its selected entries hold no link and some file, and the required are among them. */
  ghost predicate CanRecord(w: World, roots: map<string, string>, c: Component) {
    && HasRoot(w, roots, c) && c.expectedRoot.Some? && c.patterns.Some?
    && w.resolve(c.expectedRoot.value) == w.resolve(roots[c.sourceKey.value])
    && exists patterns ::
         && AllRelative(c.patterns.value, patterns)
         && var entries := w.entries(w.resolve(roots[c.sourceKey.value]).value);
            && !LinkSelected(w, patterns, entries) && (exists i :: FileAt(w, patterns, entries, i))
            && RequiredFound(w, c, patterns, entries)
  }

  /** The component names required files, as exact paths, and each of them is a selected file. */
  ghost predicate RequiredFound(w: World, c: Component, patterns: seq<string>, entries: seq<SourceEntry>) {
    && c.requiredFiles != []
    && forall i :: 0 <= i < |c.requiredFiles| ==>
         && Relative(c.requiredFiles[i]).Success?
         && (forall mark :: mark in "*?[" ==> mark !in Relative(c.requiredFiles[i]).value)
         && exists j :: FileAt(w, patterns, entries, j) && entries[j].relative == Relative(c.requiredFiles[i]).value
  }

  lemma GitIff(w: World, commit: string, tree: Tree, c: Component)
    requires Staged(tree)
    ensures CopyGit(w, commit, tree, c).Success? <==> CanCopyGit(w, commit, tree, c)
  {
    PatternsIff(c);
    if RelativeKey(c.source).Success? && RelativeKey(c.target).Success? && Patterns(c).Success? {
      var source, target, patterns := RelativeKey(c.source).value, RelativeKey(c.target).value, Patterns(c).value;
      assert GitTexts(c, source, target, patterns);
      CopyIff(c, tree, target, GitPicks(w, source, patterns, w.list(commit, source)));
    }
  }

  lemma SnapshotIff(w: World, roots: map<string, string>, tree: Tree, c: Component)
    requires Staged(tree)
    ensures CopySnapshot(w, roots, tree, c).Success? <==> CanCopySnapshot(w, roots, tree, c)
  {
    PatternsIff(c);
    if HasRoot(w, roots, c) && RelativeKey(c.target).Success? && Patterns(c).Success? {
      var root := w.resolve(roots[c.sourceKey.value]).value;
      CopyIff(c, tree, RelativeKey(c.target).value, SnapshotPicks(w, Patterns(c).value, w.entries(root)));
    }
  }

  lemma LastFile(w: World, patterns: seq<string>, entries: seq<SourceEntry>, i: int) returns (j: int)
    requires FileAt(w, patterns, entries, i)
    ensures FileAt(w, patterns, entries, j) && entries[j].relative == entries[i].relative
    ensures forall k :: j < k < |entries| ==> !(FileAt(w, patterns, entries, k) && entries[k].relative == entries[j].relative)
  {
    j := |entries| - 1;
    while !(FileAt(w, patterns, entries, j) && entries[j].relative == entries[i].relative)
      invariant i <= j < |entries|
      invariant forall k :: j < k < |entries| ==> !(FileAt(w, patterns, entries, k) && entries[k].relative == entries[i].relative)
      decreases j
    {
      j := j - 1;
    }
  }

  lemma RecordedPaths(w: World, patterns: seq<string>, entries: seq<SourceEntry>, records: Records, path: string)
    requires RecordsOf(w, patterns, entries, records)
    ensures path in records <==> exists i :: FileAt(w, patterns, entries, i) && entries[i].relative == path
  {
    if path in records {
      assert Found(w, patterns, entries, path, records[path]);
    }
    if i :| FileAt(w, patterns, entries, i) && entries[i].relative == path {
      var j := LastFile(w, patterns, entries, i);
      assert Found(w, patterns, entries, path, FileRecord(w.digest(entries[j].node.content), entries[j].node.mode));
    }
  }

  lemma SomeRecorded(w: World, patterns: seq<string>, entries: seq<SourceEntry>, records: Records)
    requires RecordsOf(w, patterns, entries, records)
    ensures records != map[] <==> exists i :: FileAt(w, patterns, entries, i)
  {
    if path :| path in records {
      RecordedPaths(w, patterns, entries, records, path);
    }
    if i :| FileAt(w, patterns, entries, i) {
      RecordedPaths(w, patterns, entries, records, entries[i].relative);
      assert entries[i].relative in records;
    }
  }

  lemma RequiredFoundIff(w: World, c: Component, patterns: seq<string>, entries: seq<SourceEntry>, records: Records)
    requires RecordsOf(w, patterns, entries, records)
    ensures CheckRequired(c, records.Keys).Success? <==> RequiredFound(w, c, patterns, entries)
  {
    RequiredIff(c, records.Keys);
    forall i | 0 <= i < |c.requiredFiles| && Relative(c.requiredFiles[i]).Success?
      ensures var value := Relative(c.requiredFiles[i]).value;
              && (Exact(value) <==> forall mark :: mark in "*?[" ==> mark !in value)
              && (value in records.Keys <==> exists j :: FileAt(w, patterns, entries, j) && entries[j].relative == value)
    {
      RecordedPaths(w, patterns, entries, records, Relative(c.requiredFiles[i]).value);
      ExactMarks(Relative(c.requiredFiles[i]).value);
    }
  }

  lemma RecordIff(w: World, roots: map<string, string>, c: Component)
    ensures RecordExternal(w, roots, c).Success? <==> c.name.Some? && CanRecord(w, roots, c)
  {
    PatternsIff(c);
    if HasRoot(w, roots, c) && c.expectedRoot.Some? && w.resolve(c.expectedRoot.value) == w.resolve(roots[c.sourceKey.value])
       && Patterns(c).Success? {
      var patterns, entries := Patterns(c).value, w.entries(w.resolve(roots[c.sourceKey.value]).value);
      ExternalFilesExactly(w, patterns, entries);
      if ExternalFiles(w, patterns, entries).Success? {
        var records := ExternalFiles(w, patterns, entries).value;
        SomeRecorded(w, patterns, entries, records);
        RequiredFoundIff(w, c, patterns, entries, records);
      }
      RecordWith(w, roots, c, patterns);
    }
  }

  lemma RecordWith(w: World, roots: map<string, string>, c: Component, patterns: seq<string>)
    requires HasRoot(w, roots, c) && c.expectedRoot.Some? && c.patterns.Some? && AllRelative(c.patterns.value, patterns)
    requires w.resolve(c.expectedRoot.value) == w.resolve(roots[c.sourceKey.value])
    ensures var entries := w.entries(w.resolve(roots[c.sourceKey.value]).value);
            CanRecord(w, roots, c)
            <==> !LinkSelected(w, patterns, entries) && (exists i :: FileAt(w, patterns, entries, i)) && RequiredFound(w, c, patterns, entries)
  {
    forall other | AllRelative(c.patterns.value, other) ensures other == patterns {
      OneRelativeAll(c.patterns.value, patterns, other);
    }
  }

  /** The component can be added to the staged tree. */
  ghost predicate CanAdd(w: World, commit: string, roots: map<string, string>, tree: Tree, c: Component) {
    && c.name.Some?
    && if c.kind == "external" then CanRecord(w, roots, c)
       else if c.kind == "git" then CanCopyGit(w, commit, tree, c)
       else c.kind == "snapshot" && CanCopySnapshot(w, roots, tree, c)
  }

  /** A component is added exactly when it has a name and a kind, and can be copied or recorded. */
  lemma AddComponentIff(w: World, commit: string, roots: map<string, string>, b: Build, c: Component)
    requires Staged(b.tree)
    ensures AddComponent(w, commit, roots, b, c).Success? <==> CanAdd(w, commit, roots, b.tree, c)
  {
    if c.kind == "external" {
      RecordIff(w, roots, c);
    } else {
      GitIff(w, commit, b.tree, c);
      SnapshotIff(w, roots, b.tree, c);
      if CopyComponent(w, commit, roots, b.tree, c).Success? {
        CopyStands(w, commit, roots, b.tree, c);
      }
    }
  }

  /** Each component can be added to what those before it staged. */
  ghost predicate CanAddAll(w: World, commit: string, roots: map<string, string>, cs: seq<Component>) {
    cs == []
    || (CanAddAll(w, commit, roots, cs[..|cs| - 1])
        && match AddComponents(w, commit, roots, cs[..|cs| - 1])
           case Success(b) => CanAdd(w, commit, roots, b.tree, cs[|cs| - 1])
           case Failure(_) => false)
  }

  lemma {:induction false} AddComponentsIff(w: World, commit: string, roots: map<string, string>, cs: seq<Component>)
    requires Lawful(w)
    ensures AddComponents(w, commit, roots, cs).Success? <==> CanAddAll(w, commit, roots, cs)
  {
    if cs != [] {
      var before := cs[..|cs| - 1];
      AddComponentsIff(w, commit, roots, before);
      if AddComponents(w, commit, roots, before).Success? {
        AddComponentsBuild(w, commit, roots, before);
        AddComponentIff(w, commit, roots, AddComponents(w, commit, roots, before).value, cs[|cs| - 1]);
      }
    }
  }

  lemma BundleIff(w: World, request: Request)
    ensures BundleComponents(w, request).Success?
            <==> var profiles := w.profiles(request.profiles);
                 profiles.Some? && profiles.value.schemaVersion == Some(1) && request.bundle in profiles.value.bundles
    ensures BundleComponents(w, request).Success? ==>
              BundleComponents(w, request).value == w.profiles(request.profiles).value.bundles[request.bundle]
  {
  }

  /** The tree leaves the manifest's path free. */
  predicate ManifestFree(tree: Tree) {
    forall path :: path in tree ==> !Conflict(path, "release-manifest.json")
  }

  lemma ManifestFreeIff(tree: Tree)
    ensures ManifestFree(tree) <==> !Taken(tree, MANIFEST)
  {
    if Taken(tree, MANIFEST) {
      var path :| path in tree && (Parts(path) <= Parts(MANIFEST) || Parts(MANIFEST) <= Parts(path));
      assert Conflict(path, "release-manifest.json");
    }
  }

  lemma PreparedWith(w: World, request: Request, cs: seq<Component>, commit: string)
    requires Lawful(w) && BundleComponents(w, request) == Success(cs) && w.commit(request.revision) == Some(commit)
    ensures var build := AddComponents(w, commit, request.roots, cs);
            Prepared(w, request).Success? <==> build.Success? && ManifestFree(build.value.tree)
  {
    var build := AddComponents(w, commit, request.roots, cs);
    if build.Success? {
      AddComponentsBuild(w, commit, request.roots, cs);
      NoManifest(build.value.tree);
      ManifestFreeIff(build.value.tree);
    }
  }

  /** The components can be added one after the other, and leave the manifest's path free. */
  ghost predicate CanStage(w: World, commit: string, roots: map<string, string>, cs: seq<Component>) {
    && CanAddAll(w, commit, roots, cs)
    && AddComponents(w, commit, roots, cs).Success? && ManifestFree(AddComponents(w, commit, roots, cs).value.tree)
  }

  /** A release is prepared exactly when its bundle and commit are known and every component can be added to those before. */
  lemma PreparedIff(w: World, request: Request)
    requires Lawful(w)
    ensures Prepared(w, request).Success?
            <==> && (var profiles := w.profiles(request.profiles);
                     profiles.Some? && profiles.value.schemaVersion == Some(1) && request.bundle in profiles.value.bundles)
                 && w.commit(request.revision).Some?
                 && CanStage(w, w.commit(request.revision).value, request.roots,
                             w.profiles(request.profiles).value.bundles[request.bundle])
  {
    BundleIff(w, request);
    if BundleComponents(w, request).Success? && w.commit(request.revision).Some? {
      var cs, commit := BundleComponents(w, request).value, w.commit(request.revision).value;
      AddComponentsIff(w, commit, request.roots, cs);
      PreparedWith(w, request, cs, commit);
    }
  }

  // ---- What is recorded of an external component

  /** The record has the normal patterns of the component and the files its tree had. */
  lemma ExternalRecorded(w: World, roots: map<string, string>, c: Component)
    requires RecordExternal(w, roots, c).Success?
    ensures RecordExternal(w, roots, c).value.external.Some? && HasRoot(w, roots, c) && c.patterns.Some?
    ensures var e := RecordExternal(w, roots, c).value.external.value;
            && w.resolve(roots[c.sourceKey.value]) == Some(e.sourceRoot) && e.expectedRoot == e.sourceRoot
            && AllRelative(c.patterns.value, e.patterns)
            && forall path, r :: path in e.files && e.files[path] == r <==> Found(w, e.patterns, w.entries(e.sourceRoot), path, r)
    ensures AllRelative(c.requiredFiles, RecordExternal(w, roots, c).value.requiredFiles)
  {
    PatternsIff(c);
    RelativeAllIff(c.requiredFiles);
    ExternalFilesExactly(w, Patterns(c).value, w.entries(SourceRoot(w, roots, c.sourceKey).value));
  }
}
