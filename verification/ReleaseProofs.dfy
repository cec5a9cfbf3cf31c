/** A prepared release verifies, holds exactly the selected files, and is pinned by its digest. */
module ReleaseProofs {
  import opened Text
  import opened ReleasePaths
  import opened ReleaseModel

  // ---- The staged tree

  /** Regular files under normal paths, none at the manifest's place. */
  ghost predicate Staged(tree: Tree) {
    forall path :: path in tree ==> tree[path].File? && Relative(path) == Success(path)
  }

  /** Nothing that was there is lost or changed. */
  ghost predicate Grows(before: Tree, after: Tree) {
    forall path :: path in before ==> path in after && after[path] == before[path]
  }

  lemma TakeKeeps(target: string, s: Progress, picked: Picked)
    requires Staged(s.tree) && Take(target, s, picked).Success?
    ensures Staged(Take(target, s, picked).value.tree) && Grows(s.tree, Take(target, s, picked).value.tree)
  {
    if picked.value.Some? {
      var destination := Below(target, picked.value.value.relative);
      BelowNormal(target, picked.value.value.relative);
      RelativeStable(destination);
    }
  }

  /** What a copied file becomes. */
  function NodeOf(pick: Pick): Node {
    File(pick.content, if pick.executable then EXECUTABLE else READABLE)
  }

  /** The i-th entry was picked, and goes to this path. */
  predicate PicksAt(target: string, picked: seq<Picked>, i: int, path: string) {
    0 <= i < |picked| && picked[i].Success? && picked[i].value.Some? && Below(target, picked[i].value.value.relative) == path
  }

  /**
   * The tree after copying: what was there, and every picked file at its destination with its bytes and
   * mode; no destination was there before, and no two files share one.
   */
  ghost predicate Copied(target: string, before: Tree, picked: seq<Picked>, after: Tree) {
    && Grows(before, after)
    && (forall i, path :: PicksAt(target, picked, i, path) ==>
          path !in before && path in after && after[path] == NodeOf(picked[i].value.value))
    && (forall path :: path in after && path !in before ==> exists i :: PicksAt(target, picked, i, path))
    && (forall i, j, path :: PicksAt(target, picked, i, path) && PicksAt(target, picked, j, path) ==> i == j)
  }

  /** The entry goes to this path. */
  predicate Puts(target: string, picked: Picked, path: string) {
    picked.Success? && picked.value.Some? && Below(target, picked.value.value.relative) == path
  }

  lemma PicksMore(target: string, picked: seq<Picked>, last: Picked, i: int, path: string)
    ensures PicksAt(target, picked + [last], i, path)
            <==> PicksAt(target, picked, i, path) || (i == |picked| && Puts(target, last, path))
  {
  }

  /** One entry more: the tree is as it was, or has one new file. */
  ghost predicate Took(target: string, tree: Tree, last: Picked, after: Tree) {
    && last.Success?
    && (last.value.None? ==> after == tree)
    && (last.value.Some? ==>
          var path := Below(target, last.value.value.relative);
          path !in tree && after == tree[path := NodeOf(last.value.value)])
  }

  lemma TakeTakes(target: string, s: Progress, last: Picked)
    requires Staged(s.tree) && Take(target, s, last).Success?
    ensures Took(target, s.tree, last, Take(target, s, last).value.tree)
  {
    if last.value.Some? {
      BelowNormal(target, last.value.value.relative);
      var path := Below(target, last.value.value.relative);
      assert path in s.tree ==> Taken(s.tree, path);
    }
  }

  lemma PickedThere(target: string, before: Tree, picked: seq<Picked>, tree: Tree, last: Picked, after: Tree, i: int, path: string)
    requires Copied(target, before, picked, tree) && Took(target, tree, last, after)
    requires PicksAt(target, picked + [last], i, path)
    ensures path !in before && path in after && after[path] == NodeOf((picked + [last])[i].value.value)
  {
    PicksMore(target, picked, last, i, path);
  }

  lemma ThereIsPicked(target: string, before: Tree, picked: seq<Picked>, tree: Tree, last: Picked, after: Tree, path: string)
    requires Copied(target, before, picked, tree) && Took(target, tree, last, after)
    requires path in after && path !in before
    ensures exists i :: PicksAt(target, picked + [last], i, path)
  {
    if path in tree {
      var i :| PicksAt(target, picked, i, path);
      PicksMore(target, picked, last, i, path);
    } else {
      PicksMore(target, picked, last, |picked|, path);
    }
  }

  lemma PickedOnce(target: string, before: Tree, picked: seq<Picked>, tree: Tree, last: Picked, after: Tree, i: int, j: int, path: string)
    requires Copied(target, before, picked, tree) && Took(target, tree, last, after)
    requires PicksAt(target, picked + [last], i, path) && PicksAt(target, picked + [last], j, path)
    ensures i == j
  {
    PicksMore(target, picked, last, i, path);
    PicksMore(target, picked, last, j, path);
  }

  lemma TakeCopies(target: string, before: Tree, picked: seq<Picked>, s: Progress, last: Picked)
    requires Staged(s.tree) && Copied(target, before, picked, s.tree) && Take(target, s, last).Success?
    ensures Copied(target, before, picked + [last], Take(target, s, last).value.tree)
  {
    var after := Take(target, s, last).value.tree;
    TakeTakes(target, s, last);
    forall i, path | PicksAt(target, picked + [last], i, path)
      ensures path !in before && path in after && after[path] == NodeOf((picked + [last])[i].value.value)
    {
      PickedThere(target, before, picked, s.tree, last, after, i, path);
    }
    forall path | path in after && path !in before ensures exists i :: PicksAt(target, picked + [last], i, path) {
      ThereIsPicked(target, before, picked, s.tree, last, after, path);
    }
    forall i, j, path | PicksAt(target, picked + [last], i, path) && PicksAt(target, picked + [last], j, path) ensures i == j {
      PickedOnce(target, before, picked, s.tree, last, after, i, j, path);
    }
  }

  /** The selection names every source once: the i-th destination is the i-th source below the target. */
  ghost predicate Aligned(target: string, s: Progress) {
    && |s.selected| == |s.sources|
    && forall i :: 0 <= i < |s.sources| ==> s.selected[i] == Below(target, s.sources[i]) && s.selected[i] in s.tree
  }

  lemma TakeAligned(target: string, s: Progress, picked: Picked)
    requires Staged(s.tree) && Aligned(target, s) && Take(target, s, picked).Success?
    ensures Aligned(target, Take(target, s, picked).value)
  {
    TakeKeeps(target, s, picked);
    if picked.value.Some? {
      BelowNormal(target, picked.value.value.relative);
    }
  }

  lemma {:induction false} TakeAllCopies(target: string, tree: Tree, picked: seq<Picked>)
    requires Staged(tree) && TakeAll(target, tree, picked).Success?
    ensures var s := TakeAll(target, tree, picked).value;
            Staged(s.tree) && Copied(target, tree, picked, s.tree) && Aligned(target, s)
  {
    if picked == [] {
      assert forall i, path :: !PicksAt(target, picked, i, path);
    } else {
      var before, last := picked[..|picked| - 1], picked[|picked| - 1];
      TakeAllCopies(target, tree, before);
      var s := TakeAll(target, tree, before).value;
      TakeKeeps(target, s, last);
      TakeCopies(target, tree, before, s, last);
      TakeAligned(target, s, last);
      assert before + [last] == picked;
    }
  }

  // ---- One component

  /** What the entries of a git or snapshot component give. */
  function PicksOf(w: World, commit: string, roots: map<string, string>, c: Component): seq<Picked> {
    if Patterns(c).Failure? then []
    else if c.kind == "git" then
      if RelativeKey(c.source).Failure? then []
      else GitPicks(w, RelativeKey(c.source).value, Patterns(c).value, w.list(commit, RelativeKey(c.source).value))
    else
      if SourceRoot(w, roots, c.sourceKey).Failure? then []
      else SnapshotPicks(w, Patterns(c).value, w.entries(SourceRoot(w, roots, c.sourceKey).value))
  }

  lemma CopyTakes(w: World, commit: string, roots: map<string, string>, tree: Tree, c: Component)
    requires CopyComponent(w, commit, roots, tree, c).Success?
    ensures RelativeKey(c.target).Success?
    ensures var s := CopyComponent(w, commit, roots, tree, c).value;
            && TakeAll(RelativeKey(c.target).value, tree, PicksOf(w, commit, roots, c)) == Success(s)
            && s.selected != [] && CheckRequired(c, Members(s.sources)).Success?
  {
  }

  /** The required files of a copied component are in the tree, at their places below the target. */
  lemma RequiredCopied(c: Component, target: string, s: Progress, required: seq<string>)
    requires Aligned(target, s) && CheckRequired(c, Members(s.sources)) == Success(required)
    ensures forall path :: path in Destinations(target, required) ==> path in s.tree
  {
    forall path | path in Destinations(target, required)
      ensures path in s.tree
    {
      var i :| 0 <= i < |required| && Destinations(target, required)[i] == path;
      assert required[i] in Members(s.sources);
      var j :| 0 <= j < |s.sources| && s.sources[j] == required[i];
      assert s.selected[j] == path;
    }
  }

  /** A recorded component stands: its required files are there, or its external tree is as recorded. */
  ghost predicate Stands(w: World, tree: Tree, r: ComponentRecord) {
    match r.external
    case None => forall path :: path in r.requiredFiles ==> path in tree
    case Some(_) => ExternalFault(w, r) == None
  }

  lemma StandsGrows(w: World, before: Tree, after: Tree, r: ComponentRecord)
    requires Stands(w, before, r) && Grows(before, after)
    ensures Stands(w, after, r)
  {
  }

  lemma ExternalStands(w: World, roots: map<string, string>, c: Component, tree: Tree)
    requires Lawful(w) && RecordExternal(w, roots, c).Success?
    ensures Stands(w, tree, RecordExternal(w, roots, c).value)
  {
    var root, patterns := SourceRoot(w, roots, c.sourceKey).value, Patterns(c).value;
    var files := ExternalFiles(w, patterns, w.entries(root)).value;
    var r := RecordExternal(w, roots, c).value;
    assert w.resolve(root) == Some(root);
    assert r.external == Some(External(root, root, patterns, files));
    assert CheckRequired(c, files.Keys) == Success(r.requiredFiles);
  }

  /** The component puts the node at the path. */
  ghost predicate Provides(w: World, commit: string, roots: map<string, string>, c: Component, path: string, node: Node) {
    && c.kind != "external" && RelativeKey(c.target).Success?
    && exists i :: PicksAt(RelativeKey(c.target).value, PicksOf(w, commit, roots, c), i, path)
                   && node == NodeOf(PicksOf(w, commit, roots, c)[i].value.value)
  }

  /** The tree gains exactly what the component provides. */
  ghost predicate Gains(w: World, commit: string, roots: map<string, string>, c: Component, before: Tree, after: Tree) {
    && Staged(after) && Grows(before, after)
    && (forall path, node :: Provides(w, commit, roots, c, path, node) ==>
          path !in before && path in after && after[path] == node)
    && (forall path :: path in after && path !in before ==> Provides(w, commit, roots, c, path, after[path]))
  }

  lemma CopyGains(w: World, commit: string, roots: map<string, string>, c: Component, tree: Tree)
    requires Staged(tree) && c.kind != "external" && CopyComponent(w, commit, roots, tree, c).Success?
    ensures Gains(w, commit, roots, c, tree, CopyComponent(w, commit, roots, tree, c).value.tree)
  {
    CopyTakes(w, commit, roots, tree, c);
    TakeAllCopies(RelativeKey(c.target).value, tree, PicksOf(w, commit, roots, c));
  }

  /** What adding a component does to the tree and to the records. */
  ghost predicate Added(w: World, commit: string, roots: map<string, string>, c: Component, before: Build, after: Build) {
    && Gains(w, commit, roots, c, before.tree, after.tree)
    && |after.records| == |before.records| + 1 && before.records <= after.records
    && Stands(w, after.tree, after.records[|before.records|])
    && (after.records[|before.records|].external.Some? <==> c.kind == "external")
    && Some(after.records[|before.records|].name) == c.name
  }

  lemma CopyStands(w: World, commit: string, roots: map<string, string>, tree: Tree, c: Component)
    requires Staged(tree) && CopyComponent(w, commit, roots, tree, c).Success?
    ensures RelativeKey(c.target).Success? && Required(c).Success?
    ensures forall path :: path in Destinations(RelativeKey(c.target).value, Required(c).value) ==>
              path in CopyComponent(w, commit, roots, tree, c).value.tree
  {
    var s, target := CopyComponent(w, commit, roots, tree, c).value, RelativeKey(c.target).value;
    CopyTakes(w, commit, roots, tree, c);
    TakeAllCopies(target, tree, PicksOf(w, commit, roots, c));
    RequiredCopied(c, target, s, Required(c).value);
  }

  lemma AddComponentAdds(w: World, commit: string, roots: map<string, string>, b: Build, c: Component)
    requires Lawful(w) && Staged(b.tree) && AddComponent(w, commit, roots, b, c).Success?
    ensures Added(w, commit, roots, c, b, AddComponent(w, commit, roots, b, c).value)
  {
    if c.kind == "external" {
      ExternalStands(w, roots, c, b.tree);
    } else {
      CopyGains(w, commit, roots, c, b.tree);
      CopyStands(w, commit, roots, b.tree, c);
    }
  }

  // ---- All components

  /** Some component provides the node at the path. */
  ghost predicate SomeProvides(w: World, commit: string, roots: map<string, string>, cs: seq<Component>, path: string, node: Node) {
    exists c :: c in cs && Provides(w, commit, roots, c, path, node)
  }

  /** The tree holds exactly what the components provide. */
  ghost predicate HoldsExactly(w: World, commit: string, roots: map<string, string>, cs: seq<Component>, tree: Tree) {
    forall path, node :: SomeProvides(w, commit, roots, cs, path, node) <==> path in tree && tree[path] == node
  }

  lemma GainsHolds(w: World, commit: string, roots: map<string, string>, cs: seq<Component>, c: Component, before: Tree, after: Tree)
    requires HoldsExactly(w, commit, roots, cs, before) && Gains(w, commit, roots, c, before, after)
    ensures HoldsExactly(w, commit, roots, cs + [c], after)
  {
    forall path, node
      ensures SomeProvides(w, commit, roots, cs + [c], path, node) <==> path in after && after[path] == node
    {
      assert forall x :: x in cs + [c] <==> x in cs || x == c;
      assert SomeProvides(w, commit, roots, cs + [c], path, node)
             <==> SomeProvides(w, commit, roots, cs, path, node) || Provides(w, commit, roots, c, path, node);
    }
  }

  ghost predicate AllStand(w: World, tree: Tree, records: seq<ComponentRecord>) {
    forall i :: 0 <= i < |records| ==> Stands(w, tree, records[i])
  }

  /** The names of the external components of a bundle, and of no others, are external records. */
  ghost predicate NamesKept(cs: seq<Component>, records: seq<ComponentRecord>) {
    && |records| == |cs|
    && forall i :: 0 <= i < |cs| ==>
         Some(records[i].name) == cs[i].name && (records[i].external.Some? <==> cs[i].kind == "external")
  }

  lemma AllStandMore(w: World, before: Build, after: Build)
    requires AllStand(w, before.tree, before.records) && Grows(before.tree, after.tree)
    requires |after.records| == |before.records| + 1 && before.records <= after.records
    requires Stands(w, after.tree, after.records[|before.records|])
    ensures AllStand(w, after.tree, after.records)
  {
    forall i | 0 <= i < |after.records| ensures Stands(w, after.tree, after.records[i]) {
      if i < |before.records| {
        assert after.records[i] == before.records[i];
        StandsGrows(w, before.tree, after.tree, before.records[i]);
      }
    }
  }

  lemma NamesMore(cs: seq<Component>, c: Component, before: seq<ComponentRecord>, after: seq<ComponentRecord>)
    requires NamesKept(cs, before) && |after| == |before| + 1 && before <= after
    requires Some(after[|before|].name) == c.name && (after[|before|].external.Some? <==> c.kind == "external")
    ensures NamesKept(cs + [c], after)
  {
    forall i | 0 <= i < |cs|
      ensures Some(after[i].name) == (cs + [c])[i].name && (after[i].external.Some? <==> (cs + [c])[i].kind == "external")
    {
      assert after[i] == before[i];
    }
  }

  lemma {:induction false} AddComponentsBuild(w: World, commit: string, roots: map<string, string>, cs: seq<Component>)
    requires Lawful(w) && AddComponents(w, commit, roots, cs).Success?
    ensures var b := AddComponents(w, commit, roots, cs).value;
            && Staged(b.tree) && HoldsExactly(w, commit, roots, cs, b.tree)
            && AllStand(w, b.tree, b.records) && NamesKept(cs, b.records)
  {
    if cs != [] {
      var before, c := cs[..|cs| - 1], cs[|cs| - 1];
      AddComponentsBuild(w, commit, roots, before);
      var b := AddComponents(w, commit, roots, before).value;
      AddComponentAdds(w, commit, roots, b, c);
      var after := AddComponent(w, commit, roots, b, c).value;
      SplitLast(cs);
      GainsHolds(w, commit, roots, before, c, b.tree, after.tree);
      AllStandMore(w, b, after);
      NamesMore(before, c, b.records, after.records);
    }
  }

  /** No path is provided by two components. */
  lemma {:induction false} OneProvider(
      w: World, commit: string, roots: map<string, string>, cs: seq<Component>, i: nat, j: nat, path: string, n: Node, m: Node)
    requires Lawful(w) && AddComponents(w, commit, roots, cs).Success? && i < j < |cs|
    requires Provides(w, commit, roots, cs[i], path, n)
    ensures !Provides(w, commit, roots, cs[j], path, m)
  {
    var before, c := cs[..|cs| - 1], cs[|cs| - 1];
    AddComponentsBuild(w, commit, roots, before);
    if j < |cs| - 1 {
      OneProvider(w, commit, roots, before, i, j, path, n, m);
    } else {
      AddComponentAdds(w, commit, roots, AddComponents(w, commit, roots, before).value, c);
      assert before[i] in before;
      assert SomeProvides(w, commit, roots, before, path, n);
    }
  }

  // ---- The manifest

  lemma NoManifest(tree: Tree)
    requires Staged(tree)
    ensures MANIFEST !in tree && !HasLink(tree)
  {
    assert Relative(MANIFEST) != Success(MANIFEST);
  }

  lemma RecordsIgnoreManifest(w: World, tree: Tree, manifest: Node)
    requires Staged(tree) && manifest.File?
    ensures FileRecords(w, tree).Success? && FileRecords(w, tree[MANIFEST := manifest]) == FileRecords(w, tree)
    ensures FileRecords(w, tree).value.Keys == tree.Keys
  {
    NoManifest(tree);
    var after := tree[MANIFEST := manifest];
    assert !HasLink(after);
    assert FileRecords(w, after).value == FileRecords(w, tree).value;
  }

  lemma RecordsHaveNoFault(w: World, tree: Tree)
    requires Staged(tree) && FileRecords(w, tree).Success?
    ensures FilesFault(FileRecords(w, tree).value, FileRecords(w, tree).value) == None
  {
  }

  lemma StandPresent(w: World, tree: Tree, records: seq<ComponentRecord>, files: Records)
    requires AllStand(w, tree, records) && files.Keys == tree.Keys
    ensures RequiredPresent(records, files)
  {
    forall i | 0 <= i < |records| && records[i].external.None?
      ensures forall path :: path in records[i].requiredFiles ==> path in files
    {
      assert Stands(w, tree, records[i]);
    }
  }

  lemma {:induction false} ExternalListed(records: seq<ComponentRecord>, i: nat)
    requires i < |records| && records[i].external.Some?
    ensures records[i].name in Externals(records)
  {
    if i < |records| - 1 {
      ExternalListed(records[..|records| - 1], i);
    }
  }

  lemma {:induction false} NoExternalFault(w: World, tree: Tree, records: seq<ComponentRecord>, names: seq<string>)
    requires AllStand(w, tree, records)
    requires forall n :: n in names ==> n in Externals(records) && Externals(records)[n].external.Some?
    ensures ExternalsFault(w, Externals(records), names) == None
  {
    if names != [] {
      var last := names[|names| - 1];
      NoExternalFault(w, tree, records, names[..|names| - 1]);
      ExternalsMeaning(records, last);
      var i :| 0 <= i < |records| && records[i] == Externals(records)[last];
      assert Stands(w, tree, records[i]);
    }
  }

  /** The names that may be asked for: those of the bundle's external components. */
  ghost predicate ExternalNames(cs: seq<Component>, requested: seq<string>) {
    forall n :: n in requested ==> exists c :: c in cs && c.kind == "external" && c.name == Some(n)
  }

  lemma RequestedListed(cs: seq<Component>, records: seq<ComponentRecord>, requested: seq<string>)
    requires NamesKept(cs, records) && ExternalNames(cs, requested)
    ensures forall n :: n in requested ==> n in Externals(records) && Externals(records)[n].external.Some?
  {
    forall n | n in requested
      ensures n in Externals(records) && Externals(records)[n].external.Some?
    {
      var c :| c in cs && c.kind == "external" && c.name == Some(n);
      var i :| 0 <= i < |cs| && cs[i] == c;
      ExternalListed(records, i);
      ExternalsMeaning(records, n);
    }
  }

  /** What verification needs of a staged tree and its manifest. */
  lemma StagedVerifies(w: World, tree: Tree, m: Manifest, requested: seq<string>)
    requires Lawful(w) && Staged(tree) && AllStand(w, tree, m.identity.components)
    requires FileRecords(w, tree) == Success(m.identity.files) && m.sha256 == w.digest(w.canonical(m.identity))
    requires var available := Externals(m.identity.components);
             forall n :: n in requested ==> n in available && available[n].external.Some?
    ensures Verified(w, tree[MANIFEST := File(w.encode(m), READABLE)], requested)
            == Success(Report(m.identity.commit, m.sha256, Names(m.identity.components), |tree|, requested))
  {
    var manifest := File(w.encode(m), READABLE);
    var release := tree[MANIFEST := manifest];
    RecordsIgnoreManifest(w, tree, manifest);
    RecordsHaveNoFault(w, tree);
    StandPresent(w, tree, m.identity.components, m.identity.files);
    NoExternalFault(w, tree, m.identity.components, requested);
    assert w.decode(w.encode(m)) == Some(DocumentOf(m));
    assert ReadManifest(w, release) == Success(DocumentOf(m));
    assert IdentityOf(DocumentOf(m)) == Success(m.identity);
    assert |m.identity.files| == |m.identity.files.Keys| == |tree.Keys| == |tree|;
  }

  /** The parts of a prepared release. */
  ghost predicate MadeOf(w: World, request: Request, r: Release, commit: string, cs: seq<Component>, b: Build, files: Records) {
    && BundleComponents(w, request) == Success(cs) && w.commit(request.revision) == Some(commit)
    && AddComponents(w, commit, request.roots, cs) == Success(b) && FileRecords(w, b.tree) == Success(files)
    && r.manifest == ManifestOf(w, request, commit, b.records, files)
    && r.tree == b.tree[MANIFEST := File(w.encode(r.manifest), READABLE)]
  }

  lemma PreparedParts(w: World, request: Request) returns (commit: string, cs: seq<Component>, b: Build, files: Records)
    requires Prepared(w, request).Success?
    ensures MadeOf(w, request, Prepared(w, request).value, commit, cs, b, files)
  {
    cs, commit := BundleComponents(w, request).value, w.commit(request.revision).value;
    b := AddComponents(w, commit, request.roots, cs).value;
    files := FileRecords(w, b.tree).value;
  }

  /**
   * Every release that is prepared is accepted by verification, with any of its external components
   * asked for while their trees are what they were.
   */
  lemma PreparedVerifies(w: World, request: Request, requested: seq<string>)
    requires Lawful(w) && Prepared(w, request).Success?
    requires BundleComponents(w, request).Success? && ExternalNames(BundleComponents(w, request).value, requested)
    ensures var r := Prepared(w, request).value;
            && Verified(w, r.tree, requested).Success?
            && var report := Verified(w, r.tree, requested).value;
               && report.commit == r.manifest.identity.commit && report.sha256 == r.manifest.sha256
               && Some(report.commit) == w.commit(request.revision)
               && report.fileCount == |r.tree| - 1 && report.externals == requested
  {
    var commit, cs, build, files := PreparedParts(w, request);
    var m := Prepared(w, request).value.manifest;
    AddComponentsBuild(w, commit, request.roots, cs);
    NoManifest(build.tree);
    RequestedListed(cs, build.records, requested);
    StagedVerifies(w, build.tree, m, requested);
  }

  /** A prepared release is its manifest and exactly the files its components provide. */
  lemma PreparedHoldsExactly(w: World, request: Request, path: string, node: Node)
    requires Lawful(w) && Prepared(w, request).Success? && path != MANIFEST
    ensures BundleComponents(w, request).Success? && w.commit(request.revision).Some?
    ensures var tree := Prepared(w, request).value.tree;
            SomeProvides(w, w.commit(request.revision).value, request.roots, BundleComponents(w, request).value, path, node)
            <==> path in tree && tree[path] == node
  {
    var commit, cs, build, files := PreparedParts(w, request);
    AddComponentsBuild(w, commit, request.roots, cs);
  }

  // ---- The digest pins the release

  /** Hashing and encoding lose nothing. */
  ghost predicate Injective(w: World) {
    && (forall a, b :: w.digest(a) == w.digest(b) ==> a == b)
    && (forall a, b :: w.canonical(a) == w.canonical(b) ==> a == b)
  }

  /** The two trees hold the same files outside their manifests. */
  ghost predicate SameFiles(a: Tree, b: Tree) {
    forall path :: path != MANIFEST ==> (path in a <==> path in b) && (path in a ==> a[path] == b[path])
  }

  lemma RecordsPinFiles(w: World, a: Tree, b: Tree)
    requires Injective(w) && FileRecords(w, a).Success? && FileRecords(w, a) == FileRecords(w, b)
    ensures SameFiles(a, b)
  {
    var ra, rb := FileRecords(w, a).value, FileRecords(w, b).value;
    forall path | path != MANIFEST
      ensures (path in a <==> path in b) && (path in a ==> a[path] == b[path])
    {
      assert path in a <==> path in ra;
      assert path in b <==> path in rb;
      if path in a {
        assert ra[path] == RecordOf(w, a[path]) && rb[path] == RecordOf(w, b[path]);
      }
    }
  }

  /** What a report says of the tree it was made from. */
  lemma VerifiedMeans(w: World, tree: Tree, requested: seq<string>)
    requires Verified(w, tree, requested).Success?
    ensures ReadManifest(w, tree).Success? && FileRecords(w, tree).Success?
    ensures IdentityOf(ReadManifest(w, tree).value).Success?
    ensures var identity := IdentityOf(ReadManifest(w, tree).value).value;
            && FileRecords(w, tree).value == identity.files
            && Verified(w, tree, requested).value.sha256 == w.digest(w.canonical(identity))
            && forall path :: path in identity.files ==> Relative(path).Success?
  {
    var expected, actual := ReadManifest(w, tree).value.files.value, FileRecords(w, tree).value;
    assert FilesFault(expected, actual) == None;
    assert actual == expected;
  }

  /** Two trees that verify with one digest have the same components and the same files, bytes and modes. */
  lemma DigestPinsRelease(w: World, a: Tree, b: Tree, requestedA: seq<string>, requestedB: seq<string>)
    requires Injective(w)
    requires Verified(w, a, requestedA).Success? && Verified(w, b, requestedB).Success?
    requires Verified(w, a, requestedA).value.sha256 == Verified(w, b, requestedB).value.sha256
    ensures SameFiles(a, b)
    ensures ReadManifest(w, a).Success? && ReadManifest(w, b).Success?
    ensures IdentityOf(ReadManifest(w, a).value) == IdentityOf(ReadManifest(w, b).value)
  {
    VerifiedMeans(w, a, requestedA);
    VerifiedMeans(w, b, requestedB);
    RecordsPinFiles(w, a, b);
  }

  /** Once a file of a prepared release is changed, added or taken away, the release no longer verifies. */
  lemma TamperedRefused(w: World, request: Request, tampered: Tree, requested: seq<string>)
    requires Lawful(w) && Injective(w) && Prepared(w, request).Success?
    requires MANIFEST in tampered && tampered[MANIFEST] == Prepared(w, request).value.tree[MANIFEST]
    requires !SameFiles(tampered, Prepared(w, request).value.tree)
    ensures Verified(w, tampered, requested).Failure?
  {
    var r, cs, commit := Prepared(w, request).value, BundleComponents(w, request).value, w.commit(request.revision).value;
    var build := AddComponents(w, commit, request.roots, cs).value;
    AddComponentsBuild(w, commit, request.roots, cs);
    RecordsIgnoreManifest(w, build.tree, r.tree[MANIFEST]);
    if Verified(w, tampered, requested).Success? {
      VerifiedMeans(w, tampered, requested);
      RecordsPinFiles(w, tampered, r.tree);
    }
  }
}
