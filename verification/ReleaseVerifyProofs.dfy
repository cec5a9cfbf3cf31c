/** Exactly which trees verification accepts, said of the files and the manifest alone, and that drift is refused. */
module ReleaseVerifyProofs {
  import opened Text
  import opened ReleasePaths
  import opened ReleaseModel
  import opened ReleaseProofs

  // ---- The selected files of an external tree

  /** The path matches one of the patterns. */
  predicate Matched(w: World, path: string, patterns: seq<string>) {
    exists i :: 0 <= i < |patterns| && w.matches(path, patterns[i])
  }

  /** The i-th entry is a regular file that is selected. */
  predicate FileAt(w: World, patterns: seq<string>, entries: seq<SourceEntry>, i: int) {
    0 <= i < |entries| && entries[i].node.SourceFile? && Matched(w, entries[i].relative, patterns)
  }

  /** The path is recorded with the digest and mode of its file; of two entries at one path the last counts. */
  predicate Found(w: World, patterns: seq<string>, entries: seq<SourceEntry>, path: string, r: FileRecord) {
    exists i :: 0 <= i < |entries| && FileAt(w, patterns, entries, i) && entries[i].relative == path
                && r == FileRecord(w.digest(entries[i].node.content), entries[i].node.mode)
                && forall j :: i < j < |entries| ==> !(FileAt(w, patterns, entries, j) && entries[j].relative == path)
  }

  predicate LinkSelected(w: World, patterns: seq<string>, entries: seq<SourceEntry>) {
    exists i :: 0 <= i < |entries| && entries[i].node.SourceLink? && Matched(w, entries[i].relative, patterns)
  }

  lemma MatchedIsSelected(w: World, path: string, patterns: seq<string>)
    ensures Selected(w, path, patterns) <==> Matched(w, path, patterns)
  {
    if p :| p in patterns && w.matches(path, p) {
      var i :| 0 <= i < |patterns| && patterns[i] == p;
    }
  }

  lemma FoundMore(w: World, patterns: seq<string>, entries: seq<SourceEntry>, path: string, r: FileRecord)
    requires entries != []
    ensures var n := |entries| - 1;
            Found(w, patterns, entries, path, r)
            <==> if FileAt(w, patterns, entries, n) && entries[n].relative == path
                 then r == FileRecord(w.digest(entries[n].node.content), entries[n].node.mode)
                 else Found(w, patterns, entries[..n], path, r)
  {
    var n := |entries| - 1;
    var rest := entries[..n];
    assert forall i :: 0 <= i < n ==> rest[i] == entries[i] && (FileAt(w, patterns, entries, i) <==> FileAt(w, patterns, rest, i));
    if FileAt(w, patterns, entries, n) && entries[n].relative == path {
    } else if Found(w, patterns, entries, path, r) {
      var i :| 0 <= i < |entries| && FileAt(w, patterns, entries, i) && entries[i].relative == path
               && r == FileRecord(w.digest(entries[i].node.content), entries[i].node.mode)
               && forall j :: i < j < |entries| ==> !(FileAt(w, patterns, entries, j) && entries[j].relative == path);
      assert rest[i] == entries[i];
    }
  }

  /** The records are those of the selected files. */
  ghost predicate RecordsOf(w: World, patterns: seq<string>, entries: seq<SourceEntry>, records: Records) {
    forall path, r :: path in records && records[path] == r <==> Found(w, patterns, entries, path, r)
  }

  lemma RecordsMore(w: World, patterns: seq<string>, entries: seq<SourceEntry>, before: Records, after: Records)
    requires entries != [] && RecordsOf(w, patterns, entries[..|entries| - 1], before)
    requires var last := entries[|entries| - 1];
             after == if FileAt(w, patterns, entries, |entries| - 1)
                      then before[last.relative := FileRecord(w.digest(last.node.content), last.node.mode)] else before
    ensures RecordsOf(w, patterns, entries, after)
  {
    forall path, r ensures path in after && after[path] == r <==> Found(w, patterns, entries, path, r) {
      FoundMore(w, patterns, entries, path, r);
    }
  }

  lemma LinkMore(w: World, patterns: seq<string>, entries: seq<SourceEntry>)
    requires entries != []
    ensures var n := |entries| - 1;
            LinkSelected(w, patterns, entries)
            <==> LinkSelected(w, patterns, entries[..n]) || (entries[n].node.SourceLink? && Matched(w, entries[n].relative, patterns))
  {
    var n := |entries| - 1;
    assert forall i :: 0 <= i < n ==> entries[..n][i] == entries[i];
    if i :| 0 <= i < |entries| && entries[i].node.SourceLink? && Matched(w, entries[i].relative, patterns) {
      if i < n {
        assert entries[..n][i] == entries[i];
      }
    }
  }

  /** Reading an external tree fails exactly when a selected entry is a link, and otherwise records the selected files. */
  lemma {:induction false} ExternalFilesExactly(w: World, patterns: seq<string>, entries: seq<SourceEntry>)
    ensures match ExternalFiles(w, patterns, entries)
            case Success(records) => !LinkSelected(w, patterns, entries) && RecordsOf(w, patterns, entries, records)
            case Failure(e) => e == SymlinkRefused && LinkSelected(w, patterns, entries)
  {
    if entries == [] {
      assert RecordsOf(w, patterns, entries, map[]);
    } else {
      var rest, last := entries[..|entries| - 1], entries[|entries| - 1];
      ExternalFilesExactly(w, patterns, rest);
      LinkMore(w, patterns, entries);
      MatchedIsSelected(w, last.relative, patterns);
      if ExternalFiles(w, patterns, entries).Success? {
        RecordsMore(w, patterns, entries, ExternalFiles(w, patterns, rest).value, ExternalFiles(w, patterns, entries).value);
      }
    }
  }

  lemma SameRecords(w: World, patterns: seq<string>, entries: seq<SourceEntry>, a: Records, b: Records)
    requires RecordsOf(w, patterns, entries, a)
    ensures RecordsOf(w, patterns, entries, b) <==> a == b
  {
    if RecordsOf(w, patterns, entries, b) {
      forall path ensures (path in a <==> path in b) && (path in a ==> a[path] == b[path]) {
        if path in a {
          assert Found(w, patterns, entries, path, a[path]);
        }
        if path in b {
          assert Found(w, patterns, entries, path, b[path]);
        }
      }
    }
  }

  // ---- One external component

  /** The recorded source is the expected root, and its selected files are exactly those recorded, the required among them. */
  ghost predicate ExternalUnchanged(w: World, c: ComponentRecord) {
    && c.external.Some?
    && var e := c.external.value;
       && w.resolve(e.sourceRoot).Some? && w.resolve(e.sourceRoot) == w.resolve(e.expectedRoot)
       && var entries := w.entries(w.resolve(e.sourceRoot).value);
          && !LinkSelected(w, e.patterns, entries)
          && (forall path, r :: path in e.files && e.files[path] == r <==> Found(w, e.patterns, entries, path, r))
          && forall path :: path in c.requiredFiles ==> path in e.files
  }

  lemma ExternalFaultIff(w: World, c: ComponentRecord)
    requires c.external.Some?
    ensures ExternalFault(w, c) == None <==> ExternalUnchanged(w, c)
  {
    var e := c.external.value;
    if w.resolve(e.sourceRoot).Some? {
      var entries := w.entries(w.resolve(e.sourceRoot).value);
      ExternalFilesExactly(w, e.patterns, entries);
      if ExternalFiles(w, e.patterns, entries).Success? {
        SameRecords(w, e.patterns, entries, ExternalFiles(w, e.patterns, entries).value, e.files);
        assert RecordsOf(w, e.patterns, entries, e.files) <==>
          forall path, r :: path in e.files && e.files[path] == r <==> Found(w, e.patterns, entries, path, r);
      }
    }
  }

  lemma {:induction false} ExternalsFaultIff(w: World, available: map<string, ComponentRecord>, names: seq<string>)
    requires forall n :: n in names ==> n in available && available[n].external.Some?
    ensures ExternalsFault(w, available, names) == None <==> forall n :: n in names ==> ExternalFault(w, available[n]) == None
  {
    if names != [] {
      ExternalsFaultIff(w, available, names[..|names| - 1]);
      LastMembers(names);
    }
  }

  /** The i-th component is the last external one of its name. */
  predicate LastExternal(components: seq<ComponentRecord>, i: int, name: string) {
    && 0 <= i < |components| && components[i].external.Some? && components[i].name == name
    && forall j :: i < j < |components| ==> !(components[j].external.Some? && components[j].name == name)
  }

  lemma {:induction false} ExternalsHold(components: seq<ComponentRecord>, name: string)
    ensures name in Externals(components) <==> exists i :: LastExternal(components, i, name)
    ensures forall i :: LastExternal(components, i, name) ==> name in Externals(components) && Externals(components)[name] == components[i]
  {
    if components != [] {
      var n := |components| - 1;
      ExternalsHold(components[..n], name);
      LastExternalMore(components, name);
      if components[n].external.Some? && components[n].name == name {
        assert LastExternal(components, n, name);
      } else if i :| LastExternal(components[..n], i, name) {
        assert LastExternal(components, i, name);
      }
    }
  }

  lemma LastExternalMore(components: seq<ComponentRecord>, name: string)
    requires components != []
    ensures var n := |components| - 1;
            forall i :: LastExternal(components, i, name)
              <==> if components[n].external.Some? && components[n].name == name then i == n
                   else LastExternal(components[..n], i, name)
  {
    var n := |components| - 1;
    assert forall i :: 0 <= i < n ==> components[..n][i] == components[i];
    forall i
      ensures LastExternal(components, i, name)
              <==> if components[n].external.Some? && components[n].name == name then i == n
                   else LastExternal(components[..n], i, name)
    {
      if components[n].external.Some? && components[n].name == name {
        assert i < n ==> !LastExternal(components, i, name);
      }
    }
  }

  // ---- The whole verification

  /** The record of a regular file of the tree. */
  predicate Recorded(w: World, tree: Tree, path: string, r: FileRecord) {
    path in tree && path != "release-manifest.json" && tree[path].File? && r == FileRecord(w.digest(tree[path].content), tree[path].mode)
  }

  /** A complete manifest: the current schema, every key, and the digest of what it says. */
  predicate Complete(w: World, d: Document) {
    && d.schemaVersion == Some(1) && d.bundle.Some? && d.commit.Some? && d.profilesSha256.Some? && d.components.Some?
    && d.files.Some?
    && d.sha256 == Some(w.digest(w.canonical(
         Identity(d.bundle.value, d.commit.value, d.profilesSha256.value, d.components.value, d.files.value))))
  }

  /** The tree holds regular files alone, and outside its manifest exactly those recorded, under normal paths. */
  ghost predicate TreeAgrees(w: World, tree: Tree, files: Records) {
    && (forall path :: path in tree ==> tree[path].File?)
    && (forall path, r :: path in files && files[path] == r <==> Recorded(w, tree, path, r))
    && (forall path :: path in files ==> Relative(path).Success?)
  }

  /** The required files of every copied component are recorded. */
  predicate HasRequired(components: seq<ComponentRecord>, files: Records) {
    forall i :: 0 <= i < |components| && components[i].external.None? ==>
      forall path :: path in components[i].requiredFiles ==> path in files
  }

  /** Every requested name is that of an external component that is unchanged. */
  ghost predicate ExternalsUnchanged(w: World, components: seq<ComponentRecord>, requested: seq<string>) {
    forall n :: n in requested ==> exists i :: LastExternal(components, i, n) && ExternalUnchanged(w, components[i])
  }

  /** The tree has this manifest. */
  predicate HasManifest(w: World, tree: Tree, d: Document) {
    && "release-manifest.json" in tree && tree["release-manifest.json"].File?
    && w.decode(tree["release-manifest.json"].content) == Some(d)
  }

  /** The records of a tree without links are those of its files. */
  ghost predicate RecordsTree(w: World, tree: Tree, files: Records) {
    forall path, r :: path in files && files[path] == r <==> Recorded(w, tree, path, r)
  }

  lemma TreeRecords(w: World, tree: Tree)
    ensures FileRecords(w, tree).Success? <==> forall path :: path in tree ==> tree[path].File?
    ensures FileRecords(w, tree).Success? ==> RecordsTree(w, tree, FileRecords(w, tree).value)
  {
    if path :| path in tree && tree[path].Link? {
      assert HasLink(tree);
    }
  }

  lemma OneRecords(w: World, tree: Tree, a: Records, b: Records)
    requires RecordsTree(w, tree, a)
    ensures RecordsTree(w, tree, b) <==> a == b
  {
    if RecordsTree(w, tree, b) {
      forall path ensures (path in a <==> path in b) && (path in a ==> a[path] == b[path]) {
        if path in a {
          assert Recorded(w, tree, path, a[path]);
        }
        if path in b {
          assert Recorded(w, tree, path, b[path]);
        }
      }
    }
  }

  lemma FaultIff(expected: Records, actual: Records)
    ensures FilesFault(expected, actual) == None
            <==> expected == actual && forall path :: path in expected ==> Relative(path).Success?
  {
  }

  lemma FilesAgree(w: World, tree: Tree, files: Records)
    ensures FileRecords(w, tree).Success? && FilesFault(files, FileRecords(w, tree).value) == None <==> TreeAgrees(w, tree, files)
    ensures TreeAgrees(w, tree, files) ==> FileRecords(w, tree).value == files
  {
    TreeRecords(w, tree);
    if FileRecords(w, tree).Success? {
      var actual := FileRecords(w, tree).value;
      OneRecords(w, tree, actual, files);
      FaultIff(files, actual);
      assert TreeAgrees(w, tree, files) <==> RecordsTree(w, tree, files) && forall path :: path in files ==> Relative(path).Success?;
    }
  }

  lemma ExternalsChecked(w: World, components: seq<ComponentRecord>, requested: seq<string>)
    requires forall n :: n in requested ==> n in Externals(components) && Externals(components)[n].external.Some?
    ensures ExternalsFault(w, Externals(components), requested) == None <==> ExternalsUnchanged(w, components, requested)
  {
    ExternalsFaultIff(w, Externals(components), requested);
    forall n | n in requested
      ensures ExternalFault(w, Externals(components)[n]) == None
              <==> exists i :: LastExternal(components, i, n) && ExternalUnchanged(w, components[i])
    {
      ExternalsHold(components, n);
      ExternalFaultIff(w, Externals(components)[n]);
      var i :| LastExternal(components, i, n);
    }
  }

  lemma AvailableIff(components: seq<ComponentRecord>, requested: seq<string>)
    ensures (exists n :: n in requested && n !in Externals(components))
            <==> exists n :: n in requested && !exists i :: LastExternal(components, i, n)
    ensures forall n :: n in requested && n in Externals(components) ==> Externals(components)[n].external.Some?
  {
    forall n | n in requested
      ensures n in Externals(components) <==> exists i :: LastExternal(components, i, n)
      ensures n in Externals(components) ==> Externals(components)[n].external.Some?
    {
      ExternalsHold(components, n);
      if n in Externals(components) {
        ExternalsMeaning(components, n);
      }
    }
  }

  /** Verification accepts a tree exactly when its manifest is complete and everything that it records is there, and alone. */
  ghost predicate Acceptable(w: World, tree: Tree, requested: seq<string>, d: Document) {
    && HasManifest(w, tree, d) && Complete(w, d) && TreeAgrees(w, tree, d.files.value)
    && HasRequired(d.components.value, d.files.value) && ExternalsUnchanged(w, d.components.value, requested)
  }

  lemma ManifestRead(w: World, tree: Tree, d: Document)
    ensures ReadManifest(w, tree) == Success(d) <==> HasManifest(w, tree, d) && d.schemaVersion == Some(1) && d.files.Some?
  {
  }

  /** What is left once the manifest is read. */
  lemma VerifiedWith(w: World, tree: Tree, requested: seq<string>, d: Document)
    requires ReadManifest(w, tree) == Success(d)
    ensures Verified(w, tree, requested).Success?
            <==> Complete(w, d) && TreeAgrees(w, tree, d.files.value) && HasRequired(d.components.value, d.files.value)
                 && ExternalsUnchanged(w, d.components.value, requested)
  {
    ManifestRead(w, tree, d);
    FilesAgree(w, tree, d.files.value);
    if IdentityOf(d).Success? {
      var components := d.components.value;
      AvailableIff(components, requested);
      if forall n :: n in requested ==> n in Externals(components) {
        ExternalsChecked(w, components, requested);
      }
    }
  }

  lemma VerifiedIff(w: World, tree: Tree, requested: seq<string>)
    ensures Verified(w, tree, requested).Success? <==> exists d :: Acceptable(w, tree, requested, d)
  {
    if Verified(w, tree, requested).Success? {
      var d := ReadManifest(w, tree).value;
      ManifestRead(w, tree, d);
      VerifiedWith(w, tree, requested, d);
      assert Acceptable(w, tree, requested, d);
    }
    if d :| Acceptable(w, tree, requested, d) {
      ManifestRead(w, tree, d);
      VerifiedWith(w, tree, requested, d);
    }
  }

  /** What it reports of such a tree. */
  lemma ReportExactly(w: World, tree: Tree, requested: seq<string>, d: Document)
    requires Acceptable(w, tree, requested, d)
    ensures Verified(w, tree, requested).Success?
    ensures var report := Verified(w, tree, requested).value;
            && Some(report.commit) == d.commit && Some(report.sha256) == d.sha256 && report.fileCount == |d.files.value|
            && |report.components| == |d.components.value|
            && (forall i :: 0 <= i < |report.components| ==> report.components[i] == d.components.value[i].name)
            && report.externals == requested
  {
    ManifestRead(w, tree, d);
    VerifiedWith(w, tree, requested, d);
    FilesAgree(w, tree, d.files.value);
  }

  // ---- Drift

  lemma DriftWith(w: World, tree: Tree, requested: seq<string>, d: Document, i: int, name: string)
    requires ReadManifest(w, tree) == Success(d) && d.components.Some? && LastExternal(d.components.value, i, name)
    requires name in requested && !ExternalUnchanged(w, d.components.value[i])
    ensures Verified(w, tree, requested).Failure?
  {
    VerifiedWith(w, tree, requested, d);
    OneLastExternal(d.components.value, i, name);
  }

  lemma OneLastExternal(components: seq<ComponentRecord>, i: int, name: string)
    requires LastExternal(components, i, name)
    ensures forall j :: LastExternal(components, j, name) ==> j == i
  {
  }

  /**
   * A prepared release is refused once an external component that is asked for has drifted: a selected file of its
   * tree is new, gone, or has other bytes or another mode.
   */
  lemma DriftRefused(
      w: World, request: Request, now: World, requested: seq<string>, i: int, name: string, path: string, r: FileRecord)
    requires Lawful(w) && Prepared(w, request).Success? && now.decode == w.decode
    requires var components := Prepared(w, request).value.manifest.identity.components;
             && LastExternal(components, i, name) && name in requested
             && var e := components[i].external.value;
                && now.resolve(e.sourceRoot).Some?
                && (path in e.files && e.files[path] == r)
                   != Found(now, e.patterns, now.entries(now.resolve(e.sourceRoot).value), path, r)
    ensures Verified(now, Prepared(w, request).value.tree, requested).Failure?
  {
    var commit, cs, build, files := PreparedParts(w, request);
    var m := Prepared(w, request).value.manifest;
    var d := DocumentOf(m);
    ManifestRead(now, Prepared(w, request).value.tree, d);
    DriftWith(now, Prepared(w, request).value.tree, requested, d, i, name);
  }
}
