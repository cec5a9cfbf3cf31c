/** Relative POSIX paths as pathlib normalises them. */
module ReleasePaths {
  import opened Text

  const MANIFEST := "release-manifest.json"

  datatype ReleaseError =
    | NotRelative | ReservedPath | Collision | MissingKey | UnsupportedEntry | NothingSelected | RequiredMissing
    | UnknownSource | UnresolvedPath | RootMismatch | SymlinkRefused | UnsupportedKind | OutputExists | BadProfiles
    | UnknownBundle | UnknownCommit | ManifestBlocked | BadManifest | FileSetDrift | FileDrift | Incomplete
    | IdentityMismatch | UnknownExternal | ExternalDrift

  function Named(parts: seq<string>): seq<string> {
    if parts == [] then []
    else
      var before, last := Named(parts[..|parts| - 1]), parts[|parts| - 1];
      if last == "" || last == "." then before else before + [last]
  }

  /** The parts of a path: empty parts and single dots are dropped. */
  function Parts(value: string): seq<string> {
    Named(Split(value, '/'))
  }

  function Show(parts: seq<string>): string {
    if parts == [] then "." else Join(parts, '/')
  }

  predicate Absolute(value: string) {
    value != "" && value[0] == '/'
  }

  /** The normal form of a path that stays below its root and is not the manifest. */
  function Relative(value: string): Result<string, ReleaseError> {
    if value == "" || Absolute(value) || ".." in Parts(value) then Failure(NotRelative)
    else
      var normal := Show(Parts(value));
      if normal == "." || normal == MANIFEST then Failure(ReservedPath) else Success(normal)
  }

  /** A path below a root; an absolute right side replaces the root. */
  function Below(root: string, relative: string): string {
    if Absolute(relative) then relative else Show(Parts(root) + Parts(relative))
  }

  // ---- Normal forms are stable

  predicate ProperPart(part: string) {
    part != "" && part != "." && '/' !in part
  }

  predicate ProperParts(parts: seq<string>) {
    forall part :: part in parts ==> ProperPart(part)
  }

  lemma {:induction false} NamedProper(parts: seq<string>)
    requires forall part :: part in parts ==> '/' !in part
    ensures ProperParts(Named(parts))
  {
    if parts != [] {
      NamedProper(parts[..|parts| - 1]);
      assert parts[|parts| - 1] in parts;
    }
  }

  lemma {:induction false} NamedKeepsProper(parts: seq<string>)
    requires ProperParts(parts)
    ensures Named(parts) == parts
  {
    if parts != [] {
      NamedKeepsProper(parts[..|parts| - 1]);
      assert ProperPart(parts[|parts| - 1]);
      SplitLast(parts);
    }
  }

  lemma PartsProper(value: string)
    ensures ProperParts(Parts(value))
  {
    SplitParts(value, '/');
    NamedProper(Split(value, '/'));
  }

  lemma JoinHead(parts: seq<string>)
    requires parts != [] && ProperPart(parts[0])
    ensures Join(parts, '/') != "" && !Absolute(Join(parts, '/'))
  {
  }

  lemma PartsShow(parts: seq<string>)
    requires ProperParts(parts)
    ensures Parts(Show(parts)) == parts
    ensures Show(parts) != "" && !Absolute(Show(parts))
  {
    if parts == [] {
      SplitPlain(".", '/');
      assert Parts(".") == Named([] + ["."]);
    } else {
      assert ProperPart(parts[0]);
      assert forall part :: part in parts ==> ProperPart(part);
      SplitJoin(parts, '/');
      NamedKeepsProper(parts);
      JoinHead(parts);
    }
  }

  /** A normal path is its own normal form. */
  lemma RelativeStable(value: string)
    requires Relative(value).Success?
    ensures Relative(Relative(value).value) == Relative(value)
    ensures Parts(Relative(value).value) == Parts(value) && Parts(value) != []
  {
    PartsProper(value);
    PartsShow(Parts(value));
  }

  /** A path below a root is in normal form already. */
  lemma BelowNormal(root: string, relative: string)
    requires Relative(Below(root, relative)).Success?
    ensures Relative(Below(root, relative)).value == Below(root, relative)
    ensures Parts(Below(root, relative)) == Parts(root) + Parts(relative)
  {
    PartsProper(root);
    PartsProper(relative);
    PartsShow(Parts(root) + Parts(relative));
  }

  /** Below a normal target every relative path without ".." can be written, and no other. */
  lemma BelowIff(target: string, relative: string)
    requires Relative(target) == Success(target)
    ensures Relative(Below(target, relative)).Success? <==> !Absolute(relative) && ".." !in Parts(relative)
  {
    RelativeStable(target);
    if !Absolute(relative) {
      var parts := Parts(target) + Parts(relative);
      PartsProper(target);
      PartsProper(relative);
      PartsShow(parts);
      if Show(parts) == MANIFEST || Show(parts) == "." {
        PlainParts(Show(parts));
      }
    }
  }

  /** The manifest is one part and the dot is none. */
  lemma PlainParts(value: string)
    requires value == MANIFEST || value == "."
    ensures |Parts(value)| <= 1
  {
    SplitPlain(value, '/');
    assert Parts(value) == Named([value]);
    assert [value][..0] == [] && Named([]) == [];
  }
}
