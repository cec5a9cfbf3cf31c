/** What a synchronisation saves for every item, where each item lands, and when it fails, said of the rows alone. */
module AlertSyncExact {
  import opened Text
  import opened AlertConfigs
  import opened AlertSyncSpec
  import opened AlertSyncProofs
  import opened AlertSyncOrder
  import opened Folds

  // ---- What is saved

  /** After every successful synchronisation, the row each item was placed on has exactly the columns it should. */
  lemma SyncSaves(rules: Rules, used: set<nat>, before: Table, data: seq<AlertConfig>, uuids: seq<Uuid>, j: nat)
    requires ValidTable(before) && j < |data| <= |uuids| && Sync(rules, used, before, data, uuids).Success?
    ensures var t, placed := Sync(rules, used, before, data, uuids).value, Placements(rules, used, before, data, uuids);
            && |placed| == |data| && UniqueIds(t.rows)
            && exists row :: row in t.rows && row.id == placed[j] && SavedOver(before.rows, row, data[j], uuids[j])
  {
    SyncConserves(rules, used, before, data, uuids);
    RunNotes(rules, used, before, data, uuids, |data|);
    var p := Run(rules, used, before, data, uuids, |data|).value;
    assert NotedAt(rules, used, before, data[j], uuids[j], p, j);
    var row :| row in p.table.rows && row.id == p.placed[j] && SavedOver(before.rows, row, data[j], uuids[j]);
    SweepMembers(p.table.rows, before.rows, used, p.placed, row);
  }

  // ---- Where an item lands

  /** An old row that an item can still land on by content or kind. */
  predicate Open(before: seq<AlertConfig>, earlier: seq<nat>, r: AlertConfig) {
    r in before && r.kind != "common" && r.id !in earlier
  }

  predicate SameContent(rules: Rules, r: AlertConfig, item: AlertConfig) {
    r.kind + "::" + rules.normalize(r.config) == item.kind + "::" + rules.normalize(item.config)
  }

  /** The row is the first, in the order of the table, of those that the predicate picks. */
  ghost predicate FirstOf(before: seq<AlertConfig>, picks: AlertConfig -> bool, id: nat) {
    exists r :: r in before && r.id == id && picks(r) && forall other :: other in before && picks(other) && other != r ==> Ahead(before, id, other.id)
  }

  ghost predicate LastOf(before: seq<AlertConfig>, picks: AlertConfig -> bool, id: nat) {
    exists r :: r in before && r.id == id && picks(r) && forall other :: other in before && picks(other) && other != r ==> Ahead(before, other.id, id)
  }

  predicate Exists(before: seq<AlertConfig>, picks: AlertConfig -> bool) {
    exists r :: r in before && picks(r)
  }

  function OfKind(kind: string): AlertConfig -> bool {
    (r: AlertConfig) => r.kind == kind
  }

  /** The rows that the UID of the item names: open ones, and singletons even when landed on. */
  function Named(earlier: seq<nat>, item: AlertConfig): AlertConfig -> bool {
    (r: AlertConfig) => TrimSpace(item.uid) != "" && r.uid == item.uid && (r.kind == "common" || r.id !in earlier)
  }

  function OfContent(rules: Rules, earlier: seq<nat>, item: AlertConfig): AlertConfig -> bool {
    (r: AlertConfig) => r.kind != "common" && r.id !in earlier && SameContent(rules, r, item)
  }

  function Unreferenced(used: set<nat>, earlier: seq<nat>, item: AlertConfig): AlertConfig -> bool {
    (r: AlertConfig) => r.kind == item.kind && r.kind != "common" && r.id !in earlier && r.id !in used
  }

  /** The identifier is free in the old table. */
  predicate IsNew(before: Table, id: nat) {
    before.nextId <= id && !HasId(before.rows, id)
  }

  /**
   * A singleton item lands on the last singleton row unless an item has; any other on the row of its UID, else on the
   * first open row of its content, else on the first open row of its kind that no alert refers to, else on a new row.
   */
  ghost predicate LandsAt(rules: Rules, used: set<nat>, before: Table, earlier: seq<nat>, item: AlertConfig, id: nat) {
    if item.kind == "common" then
      (LastOf(before.rows, OfKind("common"), id) && id !in earlier)
      || (IsNew(before, id) && forall other :: LastOf(before.rows, OfKind("common"), other) ==> other in earlier)
    else if Exists(before.rows, Named(earlier, item)) then
      exists r :: r in before.rows && r.id == id && Named(earlier, item)(r)
    else if Exists(before.rows, OfContent(rules, earlier, item)) then
      FirstOf(before.rows, OfContent(rules, earlier, item), id)
    else if Exists(before.rows, Unreferenced(used, earlier, item)) then
      FirstOf(before.rows, Unreferenced(used, earlier, item), id)
    else IsNew(before, id)
  }

  lemma {:induction false} FindUnusedHit(s: seq<AlertConfig>, used: set<nat>, row: AlertConfig)
    requires row in s && row.id !in used
    ensures FindUnused(s, used, row.kind).Some?
  {
    if s[|s| - 1] != row {
      LastMembers(s);
      FindUnusedHit(s[..|s| - 1], used, row);
    }
  }

  lemma FindUnusedMore(s: seq<AlertConfig>, used: set<nat>, row: AlertConfig, kind: string)
    ensures FindUnused(s + [row], used, kind)
            == if FindUnused(s, used, kind).Some? then FindUnused(s, used, kind)
               else if row.kind == kind && row.id !in used then Some(row) else None
  {
    assert (s + [row])[..|s|] == s;
  }

  /** The unreferenced row found stands before every other open one of its kind. */
  lemma {:induction false} UnusedFirst(
      before: seq<AlertConfig>, placed: seq<nat>, used: set<nat>, kind: string, row: AlertConfig, r: AlertConfig)
    requires FindUnused(OpenRows(before, placed), used, kind) == Some(row)
    requires r in OpenRows(before, placed) && r.kind == kind && r.id !in used && r != row
    ensures Ahead(before, row.id, r.id)
  {
    var rest, last := before[..|before| - 1], before[|before| - 1];
    var open := OpenRows(rest, placed);
    SplitLast(before);
    if OpenRows(before, placed) == open {
      AppendNone(open);
      UnusedFirst(rest, placed, used, kind, row, r);
      AheadMore(rest, [last], row.id, r.id);
    } else {
      FindUnusedMore(open, used, last, kind);
      if r in open {
        FindUnusedHit(open, used, r);
        UnusedFirst(rest, placed, used, kind, row, r);
        AheadMore(rest, [last], row.id, r.id);
      } else {
        assert r == last;
        AheadLast(rest, last, row.id);
      }
    }
  }

  lemma {:induction false} LastOfKindIsLast(s: seq<AlertConfig>, kind: string)
    requires Exists(s, OfKind(kind))
    ensures LastOfKind(s, kind).Some? && LastOf(s, OfKind(kind), LastOfKind(s, kind).value.id)
  {
    if s[|s| - 1].kind == kind {
      LastIsOne(s, kind);
    } else {
      ExistsBefore(s, kind);
      LastOfKindIsLast(s[..|s| - 1], kind);
      LastStays(s, kind, LastOfKind(s[..|s| - 1], kind).value.id);
    }
  }

  lemma ExistsBefore(s: seq<AlertConfig>, kind: string)
    requires s != [] && s[|s| - 1].kind != kind && Exists(s, OfKind(kind))
    ensures Exists(s[..|s| - 1], OfKind(kind))
  {
    LastMembers(s);
    var r :| r in s && OfKind(kind)(r);
    assert r in s[..|s| - 1];
  }

  lemma LastIsOne(s: seq<AlertConfig>, kind: string)
    requires s != [] && s[|s| - 1].kind == kind
    ensures LastOf(s, OfKind(kind), s[|s| - 1].id)
  {
    var rest, last := s[..|s| - 1], s[|s| - 1];
    LastMembers(s);
    SplitLast(s);
    forall other | other in s && OfKind(kind)(other) && other != last ensures Ahead(s, other.id, last.id) {
      AheadLast(rest, last, other.id);
    }
  }

  lemma LastStays(s: seq<AlertConfig>, kind: string, id: nat)
    requires s != [] && s[|s| - 1].kind != kind && LastOf(s[..|s| - 1], OfKind(kind), id)
    ensures LastOf(s, OfKind(kind), id)
  {
    var rest, last := s[..|s| - 1], s[|s| - 1];
    LastMembers(s);
    SplitLast(s);
    forall a | Ahead(rest, a, id) ensures Ahead(s, a, id) {
      AheadMore(rest, [last], a, id);
    }
  }

  lemma OneLast(s: seq<AlertConfig>, picks: AlertConfig -> bool, a: nat, b: nat)
    requires UniqueIds(s) && LastOf(s, picks, a) && LastOf(s, picks, b)
    ensures a == b
  {
    if a != b {
      NotBothAhead(s, a, b);
    }
  }

  lemma SingletonLandsAt(rules: Rules, used: set<nat>, before: Table, earlier: seq<nat>, item: AlertConfig, id: nat)
    requires ValidTable(before) && item.kind == "common" && LandedBy(rules, used, before, item, earlier, id)
    ensures LandsAt(rules, used, before, earlier, item, id)
  {
    var last := LastOfKind(before.rows, "common");
    if last.Some? {
      assert OfKind("common")(last.value);
      LastOfKindIsLast(before.rows, "common");
      forall other | LastOf(before.rows, OfKind("common"), other) ensures other == last.value.id {
        OneLast(before.rows, OfKind("common"), other, last.value.id);
      }
    } else if other :| LastOf(before.rows, OfKind("common"), other) {
      LastOfKindIsLast(before.rows, "common");
    }
  }

  lemma FindUidNames(before: seq<AlertConfig>, earlier: seq<nat>, item: AlertConfig)
    requires !BlankUid(item)
    ensures FindUid(Candidates(before, earlier), item.uid).Some? <==> Exists(before, Named(earlier, item))
    ensures FindUid(Candidates(before, earlier), item.uid).Some? ==>
              Named(earlier, item)(FindUid(Candidates(before, earlier), item.uid).value)
              && FindUid(Candidates(before, earlier), item.uid).value in before
  {
    if r :| r in before && Named(earlier, item)(r) {
      assert r in Candidates(before, earlier);
      FindUidHit(Candidates(before, earlier), r);
    }
    if FindUid(Candidates(before, earlier), item.uid).Some? {
      var r := FindUid(Candidates(before, earlier), item.uid).value;
      assert r in Candidates(before, earlier);
      assert Named(earlier, item)(r);
    }
  }

  lemma FindKeyFirst(rules: Rules, before: seq<AlertConfig>, earlier: seq<nat>, item: AlertConfig)
    ensures var found := FindKey(rules, OpenRows(before, earlier), SyncKey(rules, item));
            && (found.Some? <==> Exists(before, OfContent(rules, earlier, item)))
            && (found.Some? ==> FirstOf(before, OfContent(rules, earlier, item), found.value.id))
  {
    var picks, open, key := OfContent(rules, earlier, item), OpenRows(before, earlier), SyncKey(rules, item);
    var found := FindKey(rules, open, key);
    if r :| r in before && picks(r) {
      assert r in open;
      FindKeyHit(rules, open, r);
    }
    if found.Some? {
      assert picks(found.value);
      forall other | other in before && picks(other) && other != found.value ensures Ahead(before, found.value.id, other.id) {
        FoundFirst(rules, before, earlier, key, found.value, other);
      }
    }
  }

  lemma FindUnusedFirst(used: set<nat>, before: seq<AlertConfig>, earlier: seq<nat>, item: AlertConfig)
    requires item.kind != "common"
    ensures var found := FindUnused(OpenRows(before, earlier), used, item.kind);
            && (found.Some? <==> Exists(before, Unreferenced(used, earlier, item)))
            && (found.Some? ==> FirstOf(before, Unreferenced(used, earlier, item), found.value.id))
  {
    var picks, open := Unreferenced(used, earlier, item), OpenRows(before, earlier);
    var found := FindUnused(open, used, item.kind);
    if r :| r in before && picks(r) {
      assert r in open;
      FindUnusedHit(open, used, r);
    }
    if found.Some? {
      assert picks(found.value);
      forall other | other in before && picks(other) && other != found.value ensures Ahead(before, found.value.id, other.id) {
        UnusedFirst(before, earlier, used, item.kind, found.value, other);
      }
    }
  }

  lemma OtherLandsAt(rules: Rules, used: set<nat>, before: Table, earlier: seq<nat>, item: AlertConfig, id: nat)
    requires ValidTable(before) && item.kind != "common" && LandedBy(rules, used, before, item, earlier, id)
    ensures LandsAt(rules, used, before, earlier, item, id)
  {
    if BlankUid(item) {
      assert !Exists(before.rows, Named(earlier, item));
    } else {
      FindUidNames(before.rows, earlier, item);
    }
    FindKeyFirst(rules, before.rows, earlier, item);
    FindUnusedFirst(used, before.rows, earlier, item);
  }

  /** In every successful synchronisation every item is placed where these rules say. */
  lemma SyncLands(rules: Rules, used: set<nat>, before: Table, data: seq<AlertConfig>, uuids: seq<Uuid>, j: nat)
    requires ValidTable(before) && j < |data| <= |uuids| && Sync(rules, used, before, data, uuids).Success?
    ensures var placed := Placements(rules, used, before, data, uuids);
            |placed| == |data| && LandsAt(rules, used, before, placed[..j], data[j], placed[j])
  {
    RunNotes(rules, used, before, data, uuids, |data|);
    var p := Run(rules, used, before, data, uuids, |data|).value;
    assert NotedAt(rules, used, before, data[j], uuids[j], p, j);
    if data[j].kind == "common" {
      SingletonLandsAt(rules, used, before, p.placed[..j], data[j], p.placed[j]);
    } else {
      OtherLandsAt(rules, used, before, p.placed[..j], data[j], p.placed[j]);
    }
  }

  // ---- When it fails

  /** The trimmed UID of the item names an open or singleton row of another kind. */
  predicate Clash(before: seq<AlertConfig>, earlier: seq<nat>, item: AlertConfig) {
    TrimSpace(item.uid) != "" && exists r :: r in before && r.uid == TrimSpace(item.uid) && r.kind != item.kind && (r.kind == "common" || r.id !in earlier)
  }

  /** The item repeats a disabled custom row, whose secret is then not checked. */
  predicate RepeatsDisabled(item: AlertConfig, was: AlertConfig) {
    && was.status == "Disable" && item.title == was.title && item.status == was.status && item.config == was.config
    && (item.secret == "" || item.secret == was.secret)
  }

  /** The fault of the secret that is to be saved, if it is checked. */
  function SecretRefused(rules: Rules, item: AlertConfig, was: Option<AlertConfig>): Option<SyncError> {
    if item.kind != "custom" || (was.Some? && RepeatsDisabled(item, was.value)) then None
    else rules.secretFault(item.config, if item.secret == "" && was.Some? then was.value.secret else item.secret)
  }

  /** Some other row has the UID that is to be saved. */
  predicate UidTakenBy(rows: seq<AlertConfig>, item: AlertConfig, was: Option<AlertConfig>, uuid: string) {
    var uid := if TrimSpace(item.uid) != "" then item.uid else if was.Some? then was.value.uid else uuid;
    exists other :: other in rows && other.uid == uid && (was.Some? ==> other.id != was.value.id)
  }

  /** Why an item is not saved over an old row, or as a new one; the first reason counts. */
  function Refusal(rules: Rules, rows: seq<AlertConfig>, item: AlertConfig, was: Option<AlertConfig>, uuid: string): Option<SyncError> {
    if was.Some? && was.value.kind != item.kind then Some(UidOfOtherKind)
    else if SecretRefused(rules, item, was).Some? then SecretRefused(rules, item, was)
    else if UidTakenBy(rows, item, was, uuid) then Some(UidTaken)
    else None
  }

  lemma UidElsewhereIff(rows: seq<AlertConfig>, item: AlertConfig, row: AlertConfig, uuid: string)
    ensures UidElsewhere(rows, row.id, if BlankUid(item) then row.uid else item.uid) <==> UidTakenBy(rows, item, Some(row), uuid)
    ensures HasUid(rows, if BlankUid(item) then uuid else item.uid) <==> UidTakenBy(rows, item, None, uuid)
  {
  }

  lemma LandOnRefuses(rules: Rules, p: Progress, item: AlertConfig, row: AlertConfig, uuid: string)
    ensures match Refusal(rules, p.table.rows, item, Some(row), uuid)
            case None => LandOn(rules, p, item, row).Success?
            case Some(e) => LandOn(rules, p, item, row) == Failure(e)
  {
    UidElsewhereIff(p.table.rows, item, row, uuid);
  }

  lemma AppendRefuses(rules: Rules, p: Progress, item: AlertConfig, uuid: Uuid)
    ensures match Refusal(rules, p.table.rows, item, None, uuid)
            case None => Append(rules, p, item, uuid).Success?
            case Some(e) => Append(rules, p, item, uuid) == Failure(e)
  {
    UidElsewhereIff(p.table.rows, item, item, uuid);
  }

  lemma AgreesIff(before: seq<AlertConfig>, earlier: seq<nat>, item: AlertConfig)
    requires UniqueUids(before)
    ensures UidAgrees(before, earlier, item) <==> !Clash(before, earlier, item)
  {
    var candidates, uid := Candidates(before, earlier), TrimSpace(item.uid);
    if r :| r in before && r.uid == uid && r.kind != item.kind && (r.kind == "common" || r.id !in earlier) {
      assert r in candidates;
      FindUidHit(candidates, r);
      SameRowByUid(before, r, FindUid(candidates, uid).value);
    }
    if FindUid(candidates, uid).Some? {
      assert FindUid(candidates, uid).value in candidates;
    }
  }

  lemma OneFirst(s: seq<AlertConfig>, picks: AlertConfig -> bool, a: nat, b: nat)
    requires UniqueIds(s) && FirstOf(s, picks, a) && FirstOf(s, picks, b)
    ensures a == b
  {
    if a != b {
      NotBothAhead(s, a, b);
    }
  }

  lemma OneNamed(before: seq<AlertConfig>, earlier: seq<nat>, item: AlertConfig, r: AlertConfig, r': AlertConfig)
    requires UniqueUids(before) && r in before && r' in before && Named(earlier, item)(r) && Named(earlier, item)(r')
    ensures r == r'
  {
    SameRowByUid(before, r, r');
  }

  /** The rules leave no choice between old rows, nor between an old row and a new one. */
  lemma LandsAtOnce(rules: Rules, used: set<nat>, before: Table, earlier: seq<nat>, item: AlertConfig, a: nat, b: nat)
    requires ValidTable(before) && LandsAt(rules, used, before, earlier, item, a) && LandsAt(rules, used, before, earlier, item, b)
    ensures a == b || (IsNew(before, a) && IsNew(before, b))
  {
    if item.kind == "common" {
      if LastOf(before.rows, OfKind("common"), a) && LastOf(before.rows, OfKind("common"), b) {
        OneLast(before.rows, OfKind("common"), a, b);
      }
    } else if Exists(before.rows, Named(earlier, item)) {
      var r :| r in before.rows && r.id == a && Named(earlier, item)(r);
      var r' :| r' in before.rows && r'.id == b && Named(earlier, item)(r');
      OneNamed(before.rows, earlier, item, r, r');
    } else if Exists(before.rows, OfContent(rules, earlier, item)) {
      OneFirst(before.rows, OfContent(rules, earlier, item), a, b);
    } else if Exists(before.rows, Unreferenced(used, earlier, item)) {
      OneFirst(before.rows, Unreferenced(used, earlier, item), a, b);
    }
  }

  /** What the landing rule finds obeys these rules. */
  lemma LandingLandsAt(rules: Rules, used: set<nat>, before: Table, earlier: seq<nat>, item: AlertConfig, id: nat)
    requires ValidTable(before)
    requires match Landing(rules, used, before.rows, earlier, item) case Some(row) => id == row.id case None => id == before.nextId
    ensures LandsAt(rules, used, before, earlier, item, id)
  {
    if item.kind == "common" {
      SingletonLandsAt(rules, used, before, earlier, item, id);
    } else {
      OtherLandsAt(rules, used, before, earlier, item, id);
    }
  }

  /** The old row with the identifier. */
  function RowWith(before: seq<AlertConfig>, id: nat): (r: Option<AlertConfig>)
    ensures r.Some? ==> r.value in before && r.value.id == id
    ensures r.None? <==> !HasId(before, id)
  {
    if before == [] then None
    else
      assert before == before[..|before| - 1] + [before[|before| - 1]];
      if before[|before| - 1].id == id then Some(before[|before| - 1]) else RowWith(before[..|before| - 1], id)
  }

  lemma SameRefusal(rules: Rules, before: Table, rows: seq<AlertConfig>, item: AlertConfig, uuid: string, a: nat, b: nat)
    requires a == b || (IsNew(before, a) && IsNew(before, b))
    ensures Refusal(rules, rows, item, RowWith(before.rows, a), uuid) == Refusal(rules, rows, item, RowWith(before.rows, b), uuid)
  {
  }

  lemma StepAtLanding(rules: Rules, used: set<nat>, before: Table, p: Progress, item: AlertConfig, uuid: Uuid, id: nat)
    requires ValidTable(before) && !Clash(before.rows, p.placed, item)
    requires match Landing(rules, used, before.rows, p.placed, item) case Some(row) => id == row.id case None => id == before.nextId
    ensures match Refusal(rules, p.table.rows, item, RowWith(before.rows, id), uuid)
            case None => Step(rules, used, before.rows, p, item, uuid).Success?
            case Some(e) => Step(rules, used, before.rows, p, item, uuid) == Failure(e)
  {
    AgreesIff(before.rows, p.placed, item);
    match Landing(rules, used, before.rows, p.placed, item)
    case Some(row) =>
      SameRowById(before.rows, row, RowWith(before.rows, id).value);
      LandOnRefuses(rules, p, item, row, uuid);
    case None => AppendRefuses(rules, p, item, uuid);
  }

  /** One item: it fails for its UID, or for what saving it where it lands is refused for, and otherwise succeeds. */
  lemma StepExactly(rules: Rules, used: set<nat>, before: Table, p: Progress, item: AlertConfig, uuid: Uuid, id: nat)
    requires ValidTable(before) && LandsAt(rules, used, before, p.placed, item, id)
    ensures Clash(before.rows, p.placed, item) ==> Step(rules, used, before.rows, p, item, uuid) == Failure(UidOfOtherKind)
    ensures !Clash(before.rows, p.placed, item) ==>
              match Refusal(rules, p.table.rows, item, RowWith(before.rows, id), uuid)
              case None => Step(rules, used, before.rows, p, item, uuid).Success?
              case Some(e) => Step(rules, used, before.rows, p, item, uuid) == Failure(e)
  {
    var landing := Landing(rules, used, before.rows, p.placed, item);
    var found := if landing.Some? then landing.value.id else before.nextId;
    AgreesIff(before.rows, p.placed, item);
    if !Clash(before.rows, p.placed, item) {
      LandingLandsAt(rules, used, before, p.placed, item, found);
      LandsAtOnce(rules, used, before, p.placed, item, id, found);
      SameRefusal(rules, before, p.table.rows, item, uuid, id, found);
      StepAtLanding(rules, used, before, p, item, uuid, found);
    }
  }

  /** A synchronisation fails with the error of the first item that fails, and otherwise succeeds. */
  lemma SyncFailsWithFirst(rules: Rules, used: set<nat>, before: Table, data: seq<AlertConfig>, uuids: seq<Uuid>) returns (i: nat)
    requires |data| <= |uuids| && Sync(rules, used, before, data, uuids).Failure?
    ensures i < |data| && Run(rules, used, before, data, uuids, i).Success?
    ensures Step(rules, used, before.rows, Run(rules, used, before, data, uuids, i).value, data[i], uuids[i])
            == Failure(Sync(rules, used, before, data, uuids).error)
  {
    i := FirstFailure(StepAt(rules, used, before.rows, data, uuids), Progress(before, []), |data|);
  }

  lemma {:induction false} FirstFailure(step: (Progress, nat) -> Result<Progress, SyncError>, start: Progress, n: nat) returns (i: nat)
    requires Fold(step, start, n).Failure?
    ensures i < n && Fold(step, start, i).Success?
    ensures step(Fold(step, start, i).value, i) == Failure(Fold(step, start, n).error)
  {
    if Fold(step, start, n - 1).Failure? {
      i := FirstFailure(step, start, n - 1);
    } else {
      i := n - 1;
    }
  }
}
