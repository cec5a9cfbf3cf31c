/** The manifest of a prepared release describes its components, one record each, in the bundle's order. */
module ReleaseManifestProofs {
  import opened Text
  import opened ReleaseModel
  import opened ReleaseProofs

  /** The selection lists the destination of every picked entry, and nothing else. */
  ghost predicate Lists(target: string, picked: seq<Picked>, selected: seq<string>) {
    forall path :: path in selected <==> exists i :: PicksAt(target, picked, i, path)
  }

  lemma TakeLists(target: string, picked: seq<Picked>, s: Progress, last: Picked)
    requires Lists(target, picked, s.selected) && Take(target, s, last).Success?
    ensures Lists(target, picked + [last], Take(target, s, last).value.selected)
  {
    var all, after := picked + [last], Take(target, s, last).value.selected;
    forall path
      ensures path in after <==> exists i :: PicksAt(target, all, i, path)
    {
      assert forall i :: 0 <= i < |picked| ==> (PicksAt(target, all, i, path) <==> PicksAt(target, picked, i, path));
      if path in s.selected {
        var i :| PicksAt(target, picked, i, path);
        assert PicksAt(target, all, i, path);
      } else if path in after {
        assert PicksAt(target, all, |picked|, path);
      }
    }
  }

  lemma {:induction false} TakeAllLists(target: string, tree: Tree, picked: seq<Picked>)
    requires TakeAll(target, tree, picked).Success?
    ensures Lists(target, picked, TakeAll(target, tree, picked).value.selected)
  {
    if picked == [] {
      assert forall i, path :: !PicksAt(target, picked, i, path);
    } else {
      TakeAllLists(target, tree, picked[..|picked| - 1]);
      TakeLists(target, picked[..|picked| - 1], TakeAll(target, tree, picked[..|picked| - 1]).value, picked[|picked| - 1]);
      assert picked[..|picked| - 1] + [picked[|picked| - 1]] == picked;
    }
  }

  /** The record of a copied component: its name and commit, all its files, and its required files among them. */
  ghost predicate DescribesCopied(w: World, commit: string, roots: map<string, string>, c: Component, r: ComponentRecord) {
    && RelativeKey(c.target).Success? && r.external == None
    && r.snapshot == (c.kind == "snapshot") && r.sourceCommit == (if r.snapshot then None else Some(commit))
    && Lists(RelativeKey(c.target).value, PicksOf(w, commit, roots, c), r.files)
    && r.requiredFiles != [] && forall path :: path in r.requiredFiles ==> path in r.files
  }

  /** The record of an external component: the tree it was read from, whose files are recorded and the required among them. */
  ghost predicate DescribesExternal(w: World, roots: map<string, string>, c: Component, r: ComponentRecord) {
    && r.external.Some? && r.files == []
    && c.sourceKey.Some? && c.sourceKey.value in roots && w.resolve(roots[c.sourceKey.value]) == Some(r.external.value.sourceRoot)
    && r.external.value.expectedRoot == r.external.value.sourceRoot
    && ExternalFiles(w, r.external.value.patterns, w.entries(r.external.value.sourceRoot)) == Success(r.external.value.files)
    && r.external.value.files != map[] && r.requiredFiles != []
    && forall path :: path in r.requiredFiles ==> path in r.external.value.files
  }

  ghost predicate Describes(w: World, commit: string, roots: map<string, string>, c: Component, r: ComponentRecord) {
    && Some(r.name) == c.name
    && if c.kind == "external" then DescribesExternal(w, roots, c, r) else DescribesCopied(w, commit, roots, c, r)
  }

  lemma RequiredListed(c: Component, target: string, s: Progress, required: seq<string>)
    requires Aligned(target, s) && CheckRequired(c, Members(s.sources)) == Success(required)
    ensures required != [] && forall path :: path in Destinations(target, required) ==> path in s.selected
  {
    forall path | path in Destinations(target, required)
      ensures path in s.selected
    {
      var i :| 0 <= i < |required| && Destinations(target, required)[i] == path;
      assert required[i] in Members(s.sources);
      var j :| 0 <= j < |s.sources| && s.sources[j] == required[i];
      assert s.selected[j] == path;
    }
  }

  /** What is recorded of a copied component, from its selection. */
  lemma CopiedRecord(w: World, commit: string, roots: map<string, string>, tree: Tree, c: Component, r: ComponentRecord)
    requires Lawful(w) && Staged(tree) && CopyComponent(w, commit, roots, tree, c).Success?
    requires RelativeKey(c.target).Success? && Required(c).Success?
    requires r.external == None && r.snapshot == (c.kind == "snapshot")
    requires r.sourceCommit == if r.snapshot then None else Some(commit)
    requires r.files == w.ordered(CopyComponent(w, commit, roots, tree, c).value.selected)
    requires r.requiredFiles == Destinations(RelativeKey(c.target).value, Required(c).value)
    ensures DescribesCopied(w, commit, roots, c, r)
  {
    var s, target, picked := CopyComponent(w, commit, roots, tree, c).value, RelativeKey(c.target).value, PicksOf(w, commit, roots, c);
    CopyTakes(w, commit, roots, tree, c);
    TakeAllCopies(target, tree, picked);
    TakeAllLists(target, tree, picked);
    RequiredListed(c, target, s, Required(c).value);
    OrderedLists(w, target, picked, s.selected);
  }

  lemma OrderedLists(w: World, target: string, picked: seq<Picked>, selected: seq<string>)
    requires Lawful(w) && Lists(target, picked, selected)
    ensures Lists(target, picked, w.ordered(selected))
    ensures forall path :: path in selected ==> path in w.ordered(selected)
  {
  }

  lemma AddComponentDescribes(w: World, commit: string, roots: map<string, string>, b: Build, c: Component)
    requires Lawful(w) && Staged(b.tree) && AddComponent(w, commit, roots, b, c).Success?
    ensures var after := AddComponent(w, commit, roots, b, c).value;
            |after.records| == |b.records| + 1 && after.records[..|b.records|] == b.records
            && Describes(w, commit, roots, c, after.records[|b.records|])
  {
    var r := AddComponent(w, commit, roots, b, c).value.records[|b.records|];
    if c.kind == "external" {
      assert RecordExternal(w, roots, c) == Success(r);
      ExternalRecord(w, roots, c);
    } else {
      CopiedRecord(w, commit, roots, b.tree, c, r);
    }
  }

  lemma ExternalRecord(w: World, roots: map<string, string>, c: Component)
    requires RecordExternal(w, roots, c).Success?
    ensures DescribesExternal(w, roots, c, RecordExternal(w, roots, c).value)
    ensures Some(RecordExternal(w, roots, c).value.name) == c.name
  {
  }

  ghost predicate AllDescribe(
      w: World, commit: string, roots: map<string, string>, cs: seq<Component>, records: seq<ComponentRecord>)
  {
    |records| == |cs| && forall i :: 0 <= i < |cs| ==> Describes(w, commit, roots, cs[i], records[i])
  }

  lemma DescribesOneMore(
      w: World, commit: string, roots: map<string, string>, cs: seq<Component>, records: seq<ComponentRecord>)
    requires cs != [] && |records| == |cs|
    requires AllDescribe(w, commit, roots, cs[..|cs| - 1], records[..|cs| - 1])
    requires Describes(w, commit, roots, cs[|cs| - 1], records[|cs| - 1])
    ensures AllDescribe(w, commit, roots, cs, records)
  {
    forall i | 0 <= i < |cs|
      ensures Describes(w, commit, roots, cs[i], records[i])
    {
      if i < |cs| - 1 {
        assert cs[i] == cs[..|cs| - 1][i] && records[i] == records[..|cs| - 1][i];
      }
    }
  }

  lemma {:induction false} RecordsDescribe(w: World, commit: string, roots: map<string, string>, cs: seq<Component>)
    requires Lawful(w) && AddComponents(w, commit, roots, cs).Success?
    ensures AllDescribe(w, commit, roots, cs, AddComponents(w, commit, roots, cs).value.records)
  {
    if cs != [] {
      var before, c := cs[..|cs| - 1], cs[|cs| - 1];
      RecordsDescribe(w, commit, roots, before);
      AddComponentsBuild(w, commit, roots, before);
      AddComponentDescribes(w, commit, roots, AddComponents(w, commit, roots, before).value, c);
      DescribesOneMore(w, commit, roots, cs, AddComponents(w, commit, roots, cs).value.records);
    }
  }

  /** The manifest names the request it was made for and describes every component of its bundle, in order. */
  lemma ManifestDescribes(w: World, request: Request)
    requires Lawful(w) && Prepared(w, request).Success?
    ensures BundleComponents(w, request).Success? && w.commit(request.revision).Some?
    ensures var m, cs, commit := Prepared(w, request).value.manifest.identity, BundleComponents(w, request).value,
                                 w.commit(request.revision).value;
            && m.bundle == request.bundle && m.commit == commit && m.profilesSha256 == w.digest(request.profiles)
            && AllDescribe(w, commit, request.roots, cs, m.components)
  {
    var commit, cs, build, files := PreparedParts(w, request);
    RecordsDescribe(w, commit, request.roots, cs);
  }
}
