/** The release builder and verifier as they run, file by file, proved against what they compute. */
module ReleaseBuilder {
  import opened Text
  import opened ReleasePaths
  import opened ReleaseModel

  /** The staging directory. */
  class Staging {
    var files: Tree

    constructor ()
      ensures files == map[]
    {
      files := map[];
    }

    method Write(relative: string, content: Bytes, executable: bool) returns (error: Option<ReleaseError>)
      modifies this
      ensures match WriteFile(old(files), relative, content, executable)
              case Failure(e) => error == Some(e) && files == old(files)
              case Success(after) => error == None && files == after
    {
      var path := Relative(relative);
      if path.Failure? {
        return Some(path.error);
      }
      if Taken(files, path.value) {
        return Some(Collision);
      }
      files := files[path.value := File(content, if executable then EXECUTABLE else READABLE)];
      error := None;
    }

    /** Writes one picked entry below the target and notes it. */
    method TakeOne(target: string, picked: Picked, selected: seq<string>, sources: seq<string>)
      returns (result: Result<(seq<string>, seq<string>), ReleaseError>)
      modifies this
      ensures match Take(target, Progress(old(files), selected, sources), picked)
              case Failure(e) => result == Failure(e)
              case Success(s) => result == Success((s.selected, s.sources)) && files == s.tree
    {
      if picked.Failure? {
        return Failure(picked.error);
      }
      if picked.value.None? {
        return Success((selected, sources));
      }
      var pick := picked.value.value;
      var destination := Below(target, pick.relative);
      var error := Write(destination, pick.content, pick.executable);
      if error.Some? {
        return Failure(error.value);
      }
      result := Success((selected + [destination], sources + [pick.relative]));
    }

    /** The checks after the loop over the entries. */
    method Finish(c: Component, selected: seq<string>, sources: seq<string>) returns (result: Result<seq<string>, ReleaseError>)
      ensures result == if selected == [] then Failure(NothingSelected)
                        else match CheckRequired(c, Members(sources))
                             case Failure(e) => Failure(e)
                             case Success(_) => Success(selected)
    {
      if selected == [] {
        return Failure(NothingSelected);
      }
      var required := CheckRequired(c, Members(sources));
      result := if required.Failure? then Failure(required.error) else Success(selected);
    }

    method GitComponent(w: World, commit: string, c: Component) returns (result: Result<seq<string>, ReleaseError>)
      modifies this
      ensures Agrees(CopyGit(w, commit, old(files), c), result, files)
    {
      var source := RelativeKey(c.source);
      if source.Failure? {
        return Failure(source.error);
      }
      var target := RelativeKey(c.target);
      if target.Failure? {
        return Failure(target.error);
      }
      var patterns := Patterns(c);
      if patterns.Failure? {
        return Failure(patterns.error);
      }
      var entries := w.list(commit, source.value);
      ghost var picks := GitPicks(w, source.value, patterns.value, entries);
      var selected, sources := [], [];
      for i := 0 to |entries|
        invariant TakeAll(target.value, old(files), picks[..i]) == Success(Progress(files, selected, sources))
      {
        assert picks[..i + 1][..i] == picks[..i];
        var taken := TakeOne(target.value, PickGit(w, source.value, patterns.value, entries[i]), selected, sources);
        if taken.Failure? {
          TakeAllFails(target.value, old(files), picks, i + 1, taken.error);
          return Failure(taken.error);
        }
        selected, sources := taken.value.0, taken.value.1;
      }
      assert picks[..|entries|] == picks;
      result := Finish(c, selected, sources);
    }

    method SnapshotComponent(w: World, roots: map<string, string>, c: Component)
      returns (result: Result<seq<string>, ReleaseError>)
      modifies this
      ensures Agrees(CopySnapshot(w, roots, old(files), c), result, files)
    {
      var root := SourceRoot(w, roots, c.sourceKey);
      if root.Failure? {
        return Failure(root.error);
      }
      var target := RelativeKey(c.target);
      if target.Failure? {
        return Failure(target.error);
      }
      var patterns := Patterns(c);
      if patterns.Failure? {
        return Failure(patterns.error);
      }
      var entries := w.entries(root.value);
      ghost var picks := SnapshotPicks(w, patterns.value, entries);
      var selected, sources := [], [];
      for i := 0 to |entries|
        invariant TakeAll(target.value, old(files), picks[..i]) == Success(Progress(files, selected, sources))
      {
        assert picks[..i + 1][..i] == picks[..i];
        var taken := TakeOne(target.value, PickSnapshot(w, patterns.value, entries[i]), selected, sources);
        if taken.Failure? {
          TakeAllFails(target.value, old(files), picks, i + 1, taken.error);
          return Failure(taken.error);
        }
        selected, sources := taken.value.0, taken.value.1;
      }
      assert picks[..|entries|] == picks;
      result := Finish(c, selected, sources);
    }
  }

  /** The files a copying method returns and leaves behind are those of the copy it stands for. */
  predicate Agrees(copy: Result<Progress, ReleaseError>, result: Result<seq<string>, ReleaseError>, files: Tree) {
    match copy
    case Failure(e) => result == Failure(e)
    case Success(s) => result == Success(s.selected) && files == s.tree
  }

  lemma {:induction false} TakeAllFails(target: string, tree: Tree, picked: seq<Picked>, i: nat, e: ReleaseError)
    requires i <= |picked| && TakeAll(target, tree, picked[..i]) == Failure(e)
    ensures TakeAll(target, tree, picked) == Failure(e)
  {
    if i == |picked| {
      assert picked[..i] == picked;
    } else {
      assert picked[..|picked| - 1][..i] == picked[..i];
      TakeAllFails(target, tree, picked[..|picked| - 1], i, e);
    }
  }

  lemma {:induction false} AddComponentsFails(
      w: World, commit: string, roots: map<string, string>, cs: seq<Component>, i: nat, e: ReleaseError)
    requires i <= |cs| && AddComponents(w, commit, roots, cs[..i]) == Failure(e)
    ensures AddComponents(w, commit, roots, cs) == Failure(e)
  {
    if i == |cs| {
      assert cs[..i] == cs;
    } else {
      assert cs[..|cs| - 1][..i] == cs[..i];
      AddComponentsFails(w, commit, roots, cs[..|cs| - 1], i, e);
    }
  }

  /** The published releases by output path. */
  class Releases {
    var published: map<string, Tree>

    constructor ()
      ensures published == map[]
    {
      published := map[];
    }

    /** One component: files to copy, or an external tree to record. */
    method AddOne(w: World, commit: string, roots: map<string, string>, staging: Staging, c: Component)
      returns (result: Result<ComponentRecord, ReleaseError>)
      modifies staging
      ensures forall records :: match AddComponent(w, commit, roots, Build(old(staging.files), records), c)
                                case Failure(e) => result == Failure(e)
                                case Success(b) => result.Success? && b == Build(staging.files, records + [result.value])
    {
      if c.kind == "external" {
        result := RecordExternal(w, roots, c);
        return;
      }
      var files: Result<seq<string>, ReleaseError>;
      if c.kind == "git" {
        files := staging.GitComponent(w, commit, c);
      } else if c.kind == "snapshot" {
        files := staging.SnapshotComponent(w, roots, c);
      } else {
        files := Failure(UnsupportedKind);
      }
      if files.Failure? {
        return Failure(files.error);
      }
      var target := RelativeKey(c.target);
      if target.Failure? {
        return Failure(target.error);
      }
      var required := Required(c);
      if required.Failure? {
        return Failure(required.error);
      }
      if c.name.None? {
        return Failure(MissingKey);
      }
      var snapshot := c.kind == "snapshot";
      result := Success(ComponentRecord(c.name.value, if snapshot then None else Some(commit), snapshot,
                                        w.ordered(files.value), Destinations(target.value, required.value), None));
    }

    method AddAll(w: World, commit: string, roots: map<string, string>, staging: Staging, components: seq<Component>)
      returns (result: Result<seq<ComponentRecord>, ReleaseError>)
      requires staging.files == map[]
      modifies staging
      ensures match AddComponents(w, commit, roots, components)
              case Failure(e) => result == Failure(e)
              case Success(b) => result == Success(b.records) && staging.files == b.tree
    {
      var records := [];
      for i := 0 to |components|
        invariant AddComponents(w, commit, roots, components[..i]) == Success(Build(staging.files, records))
      {
        assert components[..i + 1][..i] == components[..i];
        var record := AddOne(w, commit, roots, staging, components[i]);
        if record.Failure? {
          AddComponentsFails(w, commit, roots, components, i + 1, record.error);
          return Failure(record.error);
        }
        records := records + [record.value];
      }
      assert components[..|components|] == components;
      result := Success(records);
    }

    /** A release is published whole at a free output path, or nothing is. */
    method Prepare(w: World, request: Request) returns (result: Result<Manifest, ReleaseError>)
      modifies this
      ensures request.output in old(published) ==> result == Failure(OutputExists) && published == old(published)
      ensures request.output !in old(published) ==>
                match Prepared(w, request)
                case Failure(e) => result == Failure(e) && published == old(published)
                case Success(r) => result == Success(r.manifest) && published == old(published)[request.output := r.tree]
    {
      if request.output in published {
        return Failure(OutputExists);
      }
      var components := BundleComponents(w, request);
      if components.Failure? {
        return Failure(components.error);
      }
      var commit := w.commit(request.revision);
      if commit.None? {
        return Failure(UnknownCommit);
      }
      var staging := new Staging();
      var records := AddAll(w, commit.value, request.roots, staging, components.value);
      if records.Failure? {
        return Failure(records.error);
      }
      var files := FileRecords(w, staging.files);
      if files.Failure? {
        return Failure(files.error);
      }
      var manifest := ManifestOf(w, request, commit.value, records.value, files.value);
      if Taken(staging.files, MANIFEST) {
        return Failure(ManifestBlocked);
      }
      staging.files := staging.files[MANIFEST := File(w.encode(manifest), READABLE)];
      published := published[request.output := staging.files];
      result := Success(manifest);
    }
  }

  // ---- Verifying

  method CheckFiles(expected: Records, actual: Records) returns (fault: Option<ReleaseError>)
    ensures fault == FilesFault(expected, actual)
  {
    if actual.Keys != expected.Keys {
      return Some(FileSetDrift);
    }
    var remaining := expected.Keys;
    while remaining != {}
      invariant remaining <= expected.Keys
      invariant forall path :: path in expected && path !in remaining ==> Relative(path).Success? && actual[path] == expected[path]
      decreases |remaining|
    {
      var path :| path in remaining;
      if Relative(path).Failure? || actual[path] != expected[path] {
        return Some(FileDrift);
      }
      remaining := remaining - {path};
    }
    fault := None;
  }

  method CheckRequiredFiles(components: seq<ComponentRecord>, expected: Records) returns (present: bool)
    ensures present == RequiredPresent(components, expected)
  {
    for i := 0 to |components|
      invariant RequiredPresent(components[..i], expected)
    {
      if components[i].external.None? && exists path :: path in components[i].requiredFiles && path !in expected {
        return false;
      }
    }
    assert components[..|components|] == components;
    present := true;
  }

  method CheckExternals(w: World, available: map<string, ComponentRecord>, names: seq<string>)
    returns (fault: Option<ReleaseError>)
    requires forall n :: n in names ==> n in available && available[n].external.Some?
    ensures fault == ExternalsFault(w, available, names)
  {
    fault := None;
    for i := 0 to |names|
      invariant fault == ExternalsFault(w, available, names[..i]) == None
    {
      assert names[..i + 1][..i] == names[..i];
      fault := ExternalFault(w, available[names[i]]);
      if fault.Some? {
        ExternalsFaultStays(w, available, names, i + 1);
        return;
      }
    }
    assert names[..|names|] == names;
  }

  lemma {:induction false} ExternalsFaultStays(w: World, available: map<string, ComponentRecord>, names: seq<string>, i: nat)
    requires forall n :: n in names ==> n in available && available[n].external.Some?
    requires i <= |names| && ExternalsFault(w, available, names[..i]).Some?
    ensures ExternalsFault(w, available, names) == ExternalsFault(w, available, names[..i])
  {
    if i == |names| {
      assert names[..i] == names;
    } else {
      assert names[..|names| - 1][..i] == names[..i];
      ExternalsFaultStays(w, available, names[..|names| - 1], i);
    }
  }

  method IndexExternals(components: seq<ComponentRecord>) returns (available: map<string, ComponentRecord>)
    ensures available == Externals(components)
  {
    available := map[];
    for i := 0 to |components|
      invariant available == Externals(components[..i])
    {
      assert components[..i + 1][..i] == components[..i];
      if components[i].external.Some? {
        available := available[components[i].name := components[i]];
      }
    }
    assert components[..|components|] == components;
  }

  method Verify(w: World, tree: Tree, requested: seq<string>) returns (result: Result<Report, ReleaseError>)
    ensures result == Verified(w, tree, requested)
  {
    var document := ReadManifest(w, tree);
    if document.Failure? {
      return Failure(document.error);
    }
    var actual := FileRecords(w, tree);
    if actual.Failure? {
      return Failure(actual.error);
    }
    var expected := document.value.files.value;
    var fault := CheckFiles(expected, actual.value);
    if fault.Some? {
      return Failure(fault.value);
    }
    var components := if document.value.components.None? then [] else document.value.components.value;
    var present := CheckRequiredFiles(components, expected);
    if !present {
      return Failure(Incomplete);
    }
    var identity := IdentityOf(document.value);
    if identity.Failure? {
      return Failure(identity.error);
    }
    var sha256 := w.digest(w.canonical(identity.value));
    if document.value.sha256 != Some(sha256) {
      return Failure(IdentityMismatch);
    }
    var available := IndexExternals(components);
    if exists n :: n in requested && n !in available {
      return Failure(UnknownExternal);
    }
    forall n | n in requested
      ensures n in available && available[n].external.Some?
    {
      ExternalsMeaning(components, n);
    }
    fault := CheckExternals(w, available, requested);
    if fault.Some? {
      return Failure(fault.value);
    }
    result := Success(Report(identity.value.commit, sha256, Names(components), |actual.value|, requested));
  }
}
