/** What building and verifying an immutable runtime release computes. */
module ReleaseModel {
  import opened Text
  import opened ReleasePaths

  type Bytes = string

  /** A file or a symbolic link of a release tree; directories are the proper prefixes of the keys. */
  datatype Node = File(content: Bytes, mode: nat) | Link

  type Tree = map<string, Node>

  const EXECUTABLE := 365  // 0o555
  const READABLE := 292    // 0o444

  datatype FileRecord = FileRecord(sha256: string, mode: nat)

  type Records = map<string, FileRecord>

  // ---- Inputs

  datatype GitEntry = GitEntry(mode: string, objectType: string, path: string, content: Bytes)

  datatype SourceNode = SourceFile(content: Bytes, mode: nat, executable: bool) | SourceLink | SourceOther

  /** One entry of a source tree by its path below the root. */
  datatype SourceEntry = SourceEntry(relative: string, node: SourceNode)

  /** A component of a bundle; a key that the profile leaves out is None, required_files is then empty. */
  datatype Component = Component(
    name: Option<string>, kind: string, source: Option<string>, target: Option<string>,
    patterns: Option<seq<string>>, requiredFiles: seq<string>, sourceKey: Option<string>,
    expectedRoot: Option<string>)

  datatype Profiles = Profiles(schemaVersion: Option<int>, bundles: map<string, seq<Component>>)

  // ---- Manifests

  datatype External = External(sourceRoot: string, expectedRoot: string, patterns: seq<string>, files: Records)

  datatype ComponentRecord = ComponentRecord(
    name: string, sourceCommit: Option<string>, snapshot: bool, files: seq<string>, requiredFiles: seq<string>,
    external: Option<External>)

  datatype Identity = Identity(
    bundle: string, commit: string, profilesSha256: string, components: seq<ComponentRecord>, files: Records)

  datatype Manifest = Manifest(identity: Identity, sha256: string, preparedAt: string)

  /** A manifest file as it is read back: any key may be missing. */
  datatype Document = Document(
    schemaVersion: Option<int>, bundle: Option<string>, commit: Option<string>, profilesSha256: Option<string>,
    components: Option<seq<ComponentRecord>>, files: Option<Records>, sha256: Option<string>)

  /** The repository, the file system below the source roots, fnmatch, hashing and JSON. */
  datatype World = World(
    commit: string -> Option<string>,
    list: (string, string) -> seq<GitEntry>,
    resolve: string -> Option<string>,
    entries: string -> seq<SourceEntry>,
    matches: (string, string) -> bool,
    digest: Bytes -> string,
    canonical: Identity -> Bytes,
    profiles: Bytes -> Option<Profiles>,
    encode: Manifest -> Bytes,
    decode: Bytes -> Option<Document>,
    ordered: seq<string> -> seq<string>)

  function DocumentOf(m: Manifest): Document {
    var i := m.identity;
    Document(Some(1), Some(i.bundle), Some(i.commit), Some(i.profilesSha256), Some(i.components), Some(i.files),
             Some(m.sha256))
  }

  /** JSON round trips, resolved paths stay resolved, and sorting keeps the members. */
  ghost predicate Lawful(w: World) {
    && (forall m :: w.decode(w.encode(m)) == Some(DocumentOf(m)))
    && (forall path :: w.resolve(path).Some? ==> w.resolve(w.resolve(path).value) == w.resolve(path))
    && (forall s: seq<string>, x: string :: x in w.ordered(s) <==> x in s)
  }

  // ---- Writing one file

  /** The path is taken, lies below a file, or is a directory that holds files. */
  predicate Taken(tree: Tree, path: string) {
    exists q :: q in tree && (Parts(q) <= Parts(path) || Parts(path) <= Parts(q))
  }

  function WriteFile(tree: Tree, relative: string, content: Bytes, executable: bool): Result<Tree, ReleaseError> {
    match Relative(relative)
    case Failure(e) => Failure(e)
    case Success(path) =>
      if Taken(tree, path) then Failure(Collision)
      else Success(tree[path := File(content, if executable then EXECUTABLE else READABLE)])
  }

  // ---- Copying the selected files of one component

  datatype Pick = Pick(relative: string, content: Bytes, executable: bool)

  /** What one source entry gives: a file to copy, nothing, or the error that ends the component. */
  type Picked = Result<Option<Pick>, ReleaseError>

  datatype Progress = Progress(tree: Tree, selected: seq<string>, sources: seq<string>)

  predicate Selected(w: World, relative: string, patterns: seq<string>) {
    exists p :: p in patterns && w.matches(relative, p)
  }

  function GitRelative(path: string, source: string): Result<string, ReleaseError> {
    var parts, above := Parts(path), Parts(source);
    if path == source then Success(if parts == [] then "" else parts[|parts| - 1])
    else if Absolute(path) || !(above <= parts) then Failure(NotRelative)
    else Success(Show(parts[|above|..]))
  }

  function PickGit(w: World, source: string, patterns: seq<string>, e: GitEntry): Picked {
    if e.objectType != "blob" || e.mode == "120000" then Failure(UnsupportedEntry)
    else match GitRelative(e.path, source)
         case Failure(error) => Failure(error)
         case Success(relative) =>
           Success(if Selected(w, relative, patterns) then Some(Pick(relative, e.content, e.mode == "100755")) else None)
  }

  function PickSnapshot(w: World, patterns: seq<string>, e: SourceEntry): Picked {
    match e.node
    case SourceLink => if Selected(w, e.relative, patterns) then Failure(SymlinkRefused) else Success(None)
    case SourceOther => Success(None)
    case SourceFile(content, _, executable) =>
      Success(if Selected(w, e.relative, patterns) then Some(Pick(e.relative, content, executable)) else None)
  }

  function Take(target: string, s: Progress, picked: Picked): Result<Progress, ReleaseError> {
    match picked
    case Failure(e) => Failure(e)
    case Success(None) => Success(s)
    case Success(Some(pick)) =>
      var destination := Below(target, pick.relative);
      match WriteFile(s.tree, destination, pick.content, pick.executable)
      case Failure(e) => Failure(e)
      case Success(tree) => Success(Progress(tree, s.selected + [destination], s.sources + [pick.relative]))
  }

  function TakeAll(target: string, tree: Tree, picked: seq<Picked>): Result<Progress, ReleaseError> {
    if picked == [] then Success(Progress(tree, [], []))
    else match TakeAll(target, tree, picked[..|picked| - 1])
         case Failure(e) => Failure(e)
         case Success(s) => Take(target, s, picked[|picked| - 1])
  }

  function RelativeAll(values: seq<string>): Result<seq<string>, ReleaseError> {
    if values == [] then Success([])
    else match RelativeAll(values[..|values| - 1])
         case Failure(e) => Failure(e)
         case Success(before) =>
           match Relative(values[|values| - 1])
           case Failure(e) => Failure(e)
           case Success(normal) => Success(before + [normal])
  }

  predicate Exact(value: string) {
    '*' !in value && '?' !in value && '[' !in value
  }

  function Required(c: Component): Result<seq<string>, ReleaseError> {
    match RelativeAll(c.requiredFiles)
    case Failure(e) => Failure(e)
    case Success(values) =>
      if values == [] || exists v :: v in values && !Exact(v) then Failure(RequiredMissing) else Success(values)
  }

  /** The required files, when the selection holds them all. */
  function CheckRequired(c: Component, selected: set<string>): Result<seq<string>, ReleaseError> {
    match Required(c)
    case Failure(e) => Failure(e)
    case Success(required) =>
      if exists v :: v in required && v !in selected then Failure(RequiredMissing) else Success(required)
  }

  function Patterns(c: Component): Result<seq<string>, ReleaseError> {
    if c.patterns.None? then Failure(MissingKey) else RelativeAll(c.patterns.value)
  }

  function RelativeKey(value: Option<string>): Result<string, ReleaseError> {
    if value.None? then Failure(MissingKey) else Relative(value.value)
  }

  function Members(s: seq<string>): set<string> {
    set x | x in s
  }

  /** Copying, then the checks that some file was selected and that every required one was. */
  function Copy(c: Component, tree: Tree, target: string, picked: seq<Picked>): Result<Progress, ReleaseError> {
    match TakeAll(target, tree, picked)
    case Failure(e) => Failure(e)
    case Success(s) =>
      if s.selected == [] then Failure(NothingSelected)
      else match CheckRequired(c, Members(s.sources))
           case Failure(e) => Failure(e)
           case Success(_) => Success(s)
  }

  function GitPicks(w: World, source: string, patterns: seq<string>, entries: seq<GitEntry>): seq<Picked> {
    seq(|entries|, i requires 0 <= i < |entries| => PickGit(w, source, patterns, entries[i]))
  }

  function SnapshotPicks(w: World, patterns: seq<string>, entries: seq<SourceEntry>): seq<Picked> {
    seq(|entries|, i requires 0 <= i < |entries| => PickSnapshot(w, patterns, entries[i]))
  }

  function CopyGit(w: World, commit: string, tree: Tree, c: Component): Result<Progress, ReleaseError> {
    var source :- RelativeKey(c.source);
    var target :- RelativeKey(c.target);
    var patterns :- Patterns(c);
    Copy(c, tree, target, GitPicks(w, source, patterns, w.list(commit, source)))
  }

  function SourceRoot(w: World, roots: map<string, string>, key: Option<string>): Result<string, ReleaseError> {
    if key.None? then Failure(MissingKey)
    else if key.value !in roots then Failure(UnknownSource)
    else if w.resolve(roots[key.value]).None? then Failure(UnresolvedPath)
    else Success(w.resolve(roots[key.value]).value)
  }

  function CopySnapshot(w: World, roots: map<string, string>, tree: Tree, c: Component): Result<Progress, ReleaseError> {
    var root :- SourceRoot(w, roots, c.sourceKey);
    var target :- RelativeKey(c.target);
    var patterns :- Patterns(c);
    Copy(c, tree, target, SnapshotPicks(w, patterns, w.entries(root)))
  }

  // ---- External components

  /** The selected files of an external tree with their digests and modes. */
  function ExternalFiles(w: World, patterns: seq<string>, entries: seq<SourceEntry>): Result<Records, ReleaseError> {
    if entries == [] then Success(map[])
    else match ExternalFiles(w, patterns, entries[..|entries| - 1])
         case Failure(e) => Failure(e)
         case Success(before) =>
           var last := entries[|entries| - 1];
           if !Selected(w, last.relative, patterns) then Success(before)
           else match last.node
                case SourceLink => Failure(SymlinkRefused)
                case SourceOther => Success(before)
                case SourceFile(content, mode, _) => Success(before[last.relative := FileRecord(w.digest(content), mode)])
  }

  function Expected(w: World, c: Component): Result<string, ReleaseError> {
    if c.expectedRoot.None? then Failure(MissingKey)
    else if w.resolve(c.expectedRoot.value).None? then Failure(UnresolvedPath)
    else Success(w.resolve(c.expectedRoot.value).value)
  }

  function RecordExternal(w: World, roots: map<string, string>, c: Component): Result<ComponentRecord, ReleaseError> {
    var root :- SourceRoot(w, roots, c.sourceKey);
    var expected :- Expected(w, c);
    if root != expected then Failure(RootMismatch)
    else
      var patterns :- Patterns(c);
      var files :- ExternalFiles(w, patterns, w.entries(root));
      if files == map[] then Failure(NothingSelected)
      else
        var required :- CheckRequired(c, files.Keys);
        if c.name.None? then Failure(MissingKey)
        else Success(ComponentRecord(c.name.value, None, false, [], required, Some(External(root, expected, patterns, files))))
  }

  // ---- Preparing

  datatype Build = Build(tree: Tree, records: seq<ComponentRecord>)

  function CopyComponent(w: World, commit: string, roots: map<string, string>, tree: Tree, c: Component)
    : Result<Progress, ReleaseError>
  {
    if c.kind == "git" then CopyGit(w, commit, tree, c)
    else if c.kind == "snapshot" then CopySnapshot(w, roots, tree, c)
    else Failure(UnsupportedKind)
  }

  function Destinations(target: string, required: seq<string>): seq<string> {
    seq(|required|, i requires 0 <= i < |required| => Below(target, required[i]))
  }

  function AddComponent(w: World, commit: string, roots: map<string, string>, b: Build, c: Component)
    : Result<Build, ReleaseError>
  {
    if c.kind == "external" then
      var record :- RecordExternal(w, roots, c);
      Success(Build(b.tree, b.records + [record]))
    else
      var s :- CopyComponent(w, commit, roots, b.tree, c);
      var target :- RelativeKey(c.target);
      var required :- Required(c);
      if c.name.None? then Failure(MissingKey)
      else
        var snapshot := c.kind == "snapshot";
        var record := ComponentRecord(c.name.value, if snapshot then None else Some(commit), snapshot,
                                      w.ordered(s.selected), Destinations(target, required), None);
        Success(Build(s.tree, b.records + [record]))
  }

  function AddComponents(w: World, commit: string, roots: map<string, string>, components: seq<Component>)
    : Result<Build, ReleaseError>
  {
    if components == [] then Success(Build(map[], []))
    else match AddComponents(w, commit, roots, components[..|components| - 1])
         case Failure(e) => Failure(e)
         case Success(b) => AddComponent(w, commit, roots, b, components[|components| - 1])
  }

  function RecordOf(w: World, node: Node): FileRecord {
    match node
    case File(content, mode) => FileRecord(w.digest(content), mode)
    case Link => FileRecord("", 0)
  }

  predicate HasLink(tree: Tree) {
    exists path :: path in tree && tree[path].Link?
  }

  /** Every file of a tree but the manifest, with its digest and mode. */
  function FileRecords(w: World, tree: Tree): Result<Records, ReleaseError> {
    if HasLink(tree) then Failure(SymlinkRefused)
    else Success(map path | path in tree && path != MANIFEST :: RecordOf(w, tree[path]))
  }

  datatype Request = Request(
    revision: string, profiles: Bytes, bundle: string, roots: map<string, string>, output: string, preparedAt: string)

  function BundleComponents(w: World, request: Request): Result<seq<Component>, ReleaseError> {
    var profiles := w.profiles(request.profiles);
    if profiles.None? || profiles.value.schemaVersion != Some(1) then Failure(BadProfiles)
    else if request.bundle !in profiles.value.bundles then Failure(UnknownBundle)
    else Success(profiles.value.bundles[request.bundle])
  }

  function ManifestOf(w: World, request: Request, commit: string, records: seq<ComponentRecord>, files: Records): Manifest {
    var identity := Identity(request.bundle, commit, w.digest(request.profiles), records, files);
    Manifest(identity, w.digest(w.canonical(identity)), request.preparedAt)
  }

  datatype Release = Release(tree: Tree, manifest: Manifest)

  function Prepared(w: World, request: Request): Result<Release, ReleaseError> {
    var components :- BundleComponents(w, request);
    if w.commit(request.revision).None? then Failure(UnknownCommit)
    else
      var commit := w.commit(request.revision).value;
      var build :- AddComponents(w, commit, request.roots, components);
      var files :- FileRecords(w, build.tree);
      var manifest := ManifestOf(w, request, commit, build.records, files);
      if Taken(build.tree, MANIFEST) then Failure(ManifestBlocked)
      else Success(Release(build.tree[MANIFEST := File(w.encode(manifest), READABLE)], manifest))
  }

  // ---- Verifying

  datatype Report = Report(commit: string, sha256: string, components: seq<string>, fileCount: nat, externals: seq<string>)

  function ReadManifest(w: World, tree: Tree): Result<Document, ReleaseError> {
    if MANIFEST !in tree then Failure(BadManifest)
    else match tree[MANIFEST]
         case Link => Failure(SymlinkRefused)
         case File(content, _) =>
           var document := w.decode(content);
           if document.None? || document.value.schemaVersion != Some(1) || document.value.files.None?
           then Failure(BadManifest)
           else Success(document.value)
  }

  /** The first problem of the files, if any: the sets differ, a path is not normal, or a record differs. */
  function FilesFault(expected: Records, actual: Records): Option<ReleaseError> {
    if actual.Keys != expected.Keys then Some(FileSetDrift)
    else if exists path :: path in expected && (Relative(path).Failure? || actual[path] != expected[path])
    then Some(FileDrift)
    else None
  }

  predicate RequiredPresent(components: seq<ComponentRecord>, expected: Records) {
    forall i :: 0 <= i < |components| && components[i].external.None? ==>
      forall path :: path in components[i].requiredFiles ==> path in expected
  }

  function IdentityOf(d: Document): Result<Identity, ReleaseError> {
    if d.bundle.None? || d.commit.None? || d.profilesSha256.None? || d.components.None? || d.files.None?
    then Failure(MissingKey)
    else Success(Identity(d.bundle.value, d.commit.value, d.profilesSha256.value, d.components.value, d.files.value))
  }

  /** The external components by name; of two with one name the last counts. */
  function Externals(components: seq<ComponentRecord>): map<string, ComponentRecord> {
    if components == [] then map[]
    else
      var last := components[|components| - 1];
      var before := Externals(components[..|components| - 1]);
      if last.external.Some? then before[last.name := last] else before
  }

  function ExternalFault(w: World, c: ComponentRecord): Option<ReleaseError>
    requires c.external.Some?
  {
    var e := c.external.value;
    var root, expected := w.resolve(e.sourceRoot), w.resolve(e.expectedRoot);
    if root.None? || expected.None? then Some(UnresolvedPath)
    else if root != expected then Some(RootMismatch)
    else match ExternalFiles(w, e.patterns, w.entries(root.value))
         case Failure(error) => Some(error)
         case Success(actual) =>
           if actual != e.files then Some(ExternalDrift)
           else if exists path :: path in c.requiredFiles && path !in actual then Some(Incomplete)
           else None
  }

  /** The first problem among the named external components. */
  function ExternalsFault(w: World, available: map<string, ComponentRecord>, names: seq<string>): Option<ReleaseError>
    requires forall n :: n in names ==> n in available && available[n].external.Some?
  {
    if names == [] then None
    else
      var before := ExternalsFault(w, available, names[..|names| - 1]);
      if before.Some? then before
      else
        assert names[|names| - 1] in names;
        ExternalFault(w, available[names[|names| - 1]])
  }

  function Names(components: seq<ComponentRecord>): seq<string> {
    seq(|components|, i requires 0 <= i < |components| => components[i].name)
  }

  lemma {:induction false} ExternalsMeaning(components: seq<ComponentRecord>, name: string)
    requires name in Externals(components)
    ensures Externals(components)[name].external.Some?
    ensures Externals(components)[name] in components && Externals(components)[name].name == name
  {
    var last := components[|components| - 1];
    if !(last.external.Some? && last.name == name) {
      ExternalsMeaning(components[..|components| - 1], name);
    }
  }

  /** What verifying a release tree reports; requested holds each name of an external component once, in order. */
  function Verified(w: World, tree: Tree, requested: seq<string>): Result<Report, ReleaseError> {
    var d :- ReadManifest(w, tree);
    var expected := d.files.value;
    var actual :- FileRecords(w, tree);
    var components := if d.components.None? then [] else d.components.value;
    if FilesFault(expected, actual).Some? then Failure(FilesFault(expected, actual).value)
    else if !RequiredPresent(components, expected) then Failure(Incomplete)
    else
      var identity :- IdentityOf(d);
      var sha256 := w.digest(w.canonical(identity));
      var available := Externals(components);
      if d.sha256 != Some(sha256) then Failure(IdentityMismatch)
      else if exists n :: n in requested && n !in available then Failure(UnknownExternal)
      else
        assert forall n :: n in requested ==> n in available && available[n].external.Some? by {
          forall n | n in requested ensures n in available && available[n].external.Some? {
            ExternalsMeaning(components, n);
          }
        }
        match ExternalsFault(w, available, requested)
        case Some(e) => Failure(e)
        case None => Success(Report(identity.commit, sha256, Names(components), |actual|, requested))
  }
}
