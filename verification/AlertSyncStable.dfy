/** Synchronising the same items twice: exactly when the second run succeeds, and that it changes nothing. */
module AlertSyncStable {
  import opened Text
  import opened AlertConfigs
  import opened AlertSyncSpec
  import opened AlertSyncProofs
  import opened AlertSyncOrder
  import opened Folds

  /**
   * Item i does not depend on the order in which a second run meets the rows: no later item is of the
   * same singleton kind, and its trimmed UID, if it has one, is not the UID of a differently typed
   * item that is a singleton or comes later.
   */
  predicate StableAt(data: seq<AlertConfig>, i: nat)
    requires i < |data|
  {
    && (IsSingleton(data[i].kind) ==> forall j :: i < j < |data| ==> data[j].kind != data[i].kind)
    && (!BlankUid(data[i]) ==>
          forall j :: (0 <= j < |data| && (i < j || IsSingleton(data[j].kind))
                       && data[j].uid == TrimSpace(data[i].uid)) ==> data[j].kind == data[i].kind)
  }

  predicate Stable(data: seq<AlertConfig>) {
    forall i :: 0 <= i < |data| ==> StableAt(data, i)
  }

  /** Two items that are matched by content and have the same. */
  predicate Contend(rules: Rules, a: AlertConfig, b: AlertConfig) {
    MatchesByContent(a) && !IsSingleton(b.kind) && SyncKey(rules, a) == SyncKey(rules, b)
  }

  /** Item i, if it is matched by content, has its row before those of the later items of that content. */
  predicate InOrderAt(rules: Rules, rows: seq<AlertConfig>, placed: seq<nat>, data: seq<AlertConfig>, i: nat)
    requires i < |data| == |placed|
  {
    forall j :: i < j < |data| && Contend(rules, data[i], data[j]) ==> Ahead(rows, placed[i], placed[j])
  }

  predicate InOrder(rules: Rules, rows: seq<AlertConfig>, placed: seq<nat>, data: seq<AlertConfig>)
    requires |placed| == |data|
  {
    forall i :: 0 <= i < |data| ==> InOrderAt(rules, rows, placed, data, i)
  }

  /** An item that is matched by content differs in what it saves from the later items of that content. */
  predicate NoTwins(rules: Rules, data: seq<AlertConfig>) {
    forall i, j :: 0 <= i < j < |data| && Contend(rules, data[i], data[j]) ==> Differ(data[i], data[j])
  }

  predicate Differ(a: AlertConfig, b: AlertConfig) {
    a.title != b.title || a.status != b.status || a.config != b.config
  }

  /** The items that have a UID differ in it, and no two items share a singleton kind. */
  predicate DistinctItems(data: seq<AlertConfig>) {
    && (forall i, j :: 0 <= i < j < |data| && !BlankUid(data[i]) && !BlankUid(data[j])
          ==> TrimSpace(data[i].uid) != TrimSpace(data[j].uid))
    && (forall i, j :: 0 <= i < j < |data| && IsSingleton(data[i].kind) ==> data[i].kind != data[j].kind)
  }

  lemma DistinctItemsAreStable(data: seq<AlertConfig>)
    requires DistinctItems(data)
    ensures Stable(data)
  {
    forall i, j | 0 <= i < |data| && 0 <= j < |data| && !BlankUid(data[i]) && data[j].uid == TrimSpace(data[i].uid)
      ensures i == j
    {
      TrimmedFixed(data[j].uid);
    }
  }

  predicate AllNamed(data: seq<AlertConfig>) {
    forall j :: 0 <= j < |data| ==> !BlankUid(data[j])
  }

  // ---- Where the singleton row is after the first run

  function LatestCommon(data: seq<AlertConfig>, n: nat): (r: Option<nat>)
    requires n <= |data|
    ensures r.Some? ==> r.value < n && data[r.value].kind == COMMON
    ensures r.Some? ==> forall j :: r.value < j < n ==> data[j].kind != COMMON
    ensures r.None? ==> forall j :: 0 <= j < n ==> data[j].kind != COMMON
  {
    if n == 0 then None else if data[n - 1].kind == COMMON then Some(n - 1) else LatestCommon(data, n - 1)
  }

  /** The last singleton row of the table is the one that the latest singleton item landed on. */
  predicate SingletonTracked(
      before: seq<AlertConfig>, rows: seq<AlertConfig>, placed: seq<nat>, data: seq<AlertConfig>, n: nat)
    requires n <= |data| && n <= |placed|
  {
    var first, last := LastOfKind(before, COMMON), LastOfKind(rows, COMMON);
    match LatestCommon(data, n)
    case Some(j) =>
      && last.Some? && last.value.id == placed[j]
      && (first.Some? ==> first.value.id in placed)
    case None =>
      && first.Some? == last.Some?
      && (first.Some? ==> first.value.id == last.value.id)
  }

  predicate SameKinds(s: seq<AlertConfig>, s': seq<AlertConfig>) {
    && |s| == |s'|
    && forall k :: 0 <= k < |s| ==> s[k].id == s'[k].id && s[k].kind == s'[k].kind
  }

  lemma {:induction false} LastOfSameKinds(s: seq<AlertConfig>, s': seq<AlertConfig>, kind: string)
    requires SameKinds(s, s')
    ensures var r, r' := LastOfKind(s, kind), LastOfKind(s', kind);
            r.Some? == r'.Some? && (r.Some? ==> r.value.id == r'.value.id)
  {
    if s != [] {
      LastOfSameKinds(s[..|s| - 1], s'[..|s| - 1], kind);
    }
  }

  lemma ReplaceSameKinds(before: Table, table: Table, placed: seq<nat>, row: AlertConfig, merged: AlertConfig)
    requires ValidTable(table) && Shape(before, table, placed)
    requires row in before.rows && merged.id == row.id && merged.kind == row.kind
    ensures SameKinds(table.rows, ReplaceRow(table.rows, merged))
  {
    var k :| 0 <= k < |before.rows| && before.rows[k] == row;
    assert OldRow(before.rows[k], table.rows[k], placed);
    ReplaceKeepsKinds(table.rows, merged, k);
  }

  lemma ReplaceKeepsKinds(s: seq<AlertConfig>, row: AlertConfig, k: nat)
    requires UniqueIds(s) && k < |s| && s[k].id == row.id && s[k].kind == row.kind
    ensures SameKinds(s, ReplaceRow(s, row))
  {
    ReplaceOne(s, row, k);
  }

  lemma LastAfterInsert(s: seq<AlertConfig>, row: AlertConfig, kind: string)
    ensures LastOfKind(s + [row], kind) == if row.kind == kind then Some(row) else LastOfKind(s, kind)
  {
    assert (s + [row])[..|s|] == s;
  }

  lemma SingletonSaved(
      before: seq<AlertConfig>, rows: seq<AlertConfig>, rows': seq<AlertConfig>, placed: seq<nat>,
      data: seq<AlertConfig>, n: nat, row: AlertConfig)
    requires n < |data| && |placed| == n
    requires SingletonTracked(before, rows, placed, data, n)
    requires SameKinds(rows, rows')
    requires data[n].kind == COMMON ==> LastOfKind(before, COMMON) == Some(row) && row.id !in placed
    ensures SingletonTracked(before, rows', placed + [row.id], data, n + 1)
  {
    LastOfSameKinds(rows, rows', COMMON);
  }

  lemma SingletonInserted(
      before: seq<AlertConfig>, rows: seq<AlertConfig>, placed: seq<nat>,
      data: seq<AlertConfig>, n: nat, row: AlertConfig)
    requires n < |data| && |placed| == n
    requires SingletonTracked(before, rows, placed, data, n)
    requires row.kind == data[n].kind
    requires data[n].kind == COMMON ==>
               LastOfKind(before, COMMON).None? || LastOfKind(before, COMMON).value.id in placed
    ensures SingletonTracked(before, rows + [row], placed + [row.id], data, n + 1)
  {
    LastAfterInsert(rows, row, COMMON);
  }

  predicate ProgressTracked(before: Table, p: Progress, data: seq<AlertConfig>, n: nat) {
    && n <= |data| && |p.placed| == n
    && SingletonTracked(before.rows, p.table.rows, p.placed, data, n)
  }

  lemma LandingOnSingleton(
      rules: Rules, used: set<nat>, before: seq<AlertConfig>, placed: seq<nat>, item: AlertConfig, row: AlertConfig)
    requires Landing(rules, used, before, placed, item) == Some(row)
    ensures item.kind == COMMON ==> LastOfKind(before, COMMON) == Some(row) && row.id !in placed
  {
  }

  lemma SingletonLands(
      rules: Rules, used: set<nat>, before: Table, p: Progress, data: seq<AlertConfig>, n: nat, row: AlertConfig)
    requires n < |data| && Sound(before, p) && ProgressTracked(before, p, data, n)
    requires Landing(rules, used, before.rows, p.placed, data[n]) == Some(row)
    requires LandOn(rules, p, data[n], row).Success?
    ensures ProgressTracked(before, LandOn(rules, p, data[n], row).value, data, n + 1)
  {
    var merged := Inherit(rules, data[n], row).value;
    InheritSettles(rules, data[n], row);
    ReplaceSameKinds(before, p.table, p.placed, row, merged);
    LandingOnSingleton(rules, used, before.rows, p.placed, data[n], row);
    SingletonSaved(before.rows, p.table.rows, ReplaceRow(p.table.rows, merged), p.placed, data, n, row);
  }

  lemma SingletonAppends(
      rules: Rules, used: set<nat>, before: Table, p: Progress, data: seq<AlertConfig>, uuid: Uuid, n: nat)
    requires n < |data| && ProgressTracked(before, p, data, n)
    requires Landing(rules, used, before.rows, p.placed, data[n]) == None
    requires Append(rules, p, data[n], uuid).Success?
    ensures ProgressTracked(before, Append(rules, p, data[n], uuid).value, data, n + 1)
  {
    var row := Prepare(rules, data[n], uuid).value.(id := p.table.nextId);
    SingletonInserted(before.rows, p.table.rows, p.placed, data, n, row);
  }

  lemma SingletonStep(
      rules: Rules, used: set<nat>, before: Table, p: Progress, data: seq<AlertConfig>, uuid: Uuid, n: nat)
    requires n < |data| && Sound(before, p) && ProgressTracked(before, p, data, n)
    requires Step(rules, used, before.rows, p, data[n], uuid).Success?
    ensures ProgressTracked(before, Step(rules, used, before.rows, p, data[n], uuid).value, data, n + 1)
  {
    match Landing(rules, used, before.rows, p.placed, data[n])
    case Some(row) => SingletonLands(rules, used, before, p, data, n, row);
    case None => SingletonAppends(rules, used, before, p, data, uuid, n);
  }

  lemma RunTracksSingleton(
      rules: Rules, used: set<nat>, before: Table, data: seq<AlertConfig>, uuids: seq<Uuid>, n: nat)
    requires ValidTable(before) && n <= |data| <= |uuids|
    requires Run(rules, used, before, data, uuids, n).Success?
    ensures var p := Run(rules, used, before, data, uuids, n).value;
            ProgressTracked(before, p, data, n)
  {
    var step := StepAt(rules, used, before.rows, data, uuids);
    var inv := (p: Progress, i: nat) =>
      Sound(before, p) && ProgressTracked(before, p, data, i);
    StartSound(rules, before, data);
    forall p, i: nat | i < n && inv(p, i) && step(p, i).Success?
      ensures inv(step(p, i).value, i + 1)
    {
      var _ := StepSound(rules, used, before, p, data[i], uuids[i]);
      SingletonStep(rules, used, before, p, data, uuids[i], i);
    }
    FoldKeeps(step, Progress(before, []), n, inv);
  }

  lemma {:induction false} LastAfterSweep(
      s: seq<AlertConfig>, before: seq<AlertConfig>, used: set<nat>, placed: seq<nat>, kind: string)
    requires LastOfKind(s, kind).Some? && LastOfKind(s, kind).value.id in placed
    ensures LastOfKind(Sweep(s, before, used, placed), kind) == LastOfKind(s, kind)
  {
    var rest, last := s[..|s| - 1], s[|s| - 1];
    if last.kind != kind {
      LastAfterSweep(rest, before, used, placed, kind);
      if Dropped(before, used, placed, last.id) {
        assert Sweep(s, before, used, placed) == Sweep(rest, before, used, placed);
      } else {
        LastAfterInsert(Sweep(rest, before, used, placed), last, kind);
      }
    } else {
      LastAfterInsert(Sweep(rest, before, used, placed), last, kind);
    }
  }

  // ---- The second run

  /** What the first run leaves: the facts that the second run needs. */
  predicate Resting(
      rules: Rules, used: set<nat>, before: seq<AlertConfig>, t: Table, placed: seq<nat>, data: seq<AlertConfig>)
  {
    && ValidTable(t)
    && NoDuplicates(placed)
    && AllHeld(rules, t.rows, placed, data)
    && NothingElse(t.rows, before, used, placed)
    && (forall j :: 0 <= j < |data| ==> UidAgrees(before, placed[..j], data[j]))
    && BlankUidsKnown(before, t.rows, placed, data)
    && (forall j :: 0 <= j < |data| && MatchesByContent(data[j]) ==> RankedAt(rules, t.rows, placed, data[j], placed[j]))
    && (match LatestCommon(data, |data|)
        case None => true
        case Some(j) => LastOfKind(t.rows, COMMON).Some? && LastOfKind(t.rows, COMMON).value.id == placed[j])
  }

  lemma FirstRunRests(rules: Rules, used: set<nat>, before: Table, data: seq<AlertConfig>, uuids: seq<Uuid>)
    requires ValidTable(before) && |data| <= |uuids| && FreshUuids(data, uuids)
    requires Sync(rules, used, before, data, uuids).Success?
    ensures Resting(rules, used, before.rows, Sync(rules, used, before, data, uuids).value,
                    Placements(rules, used, before, data, uuids), data)
  {
    SyncConserves(rules, used, before, data, uuids);
    RunConforms(rules, used, before, data, uuids, |data|);
    RunTracksSingleton(rules, used, before, data, uuids, |data|);
    var p := Run(rules, used, before, data, uuids, |data|).value;
    RunNotes(rules, used, before, data, uuids, |data|);
    SweptUids(rules, used, before, data, uuids, p);
    forall j | 0 <= j < |data| && MatchesByContent(data[j])
      ensures RankedAt(rules, Sweep(p.table.rows, before.rows, used, p.placed), p.placed, data[j], p.placed[j])
    {
      SweptRanks(rules, used, before, data, uuids, p, j);
    }
    if LatestCommon(data, |data|).Some? {
      LastAfterSweep(p.table.rows, before.rows, used, p.placed, COMMON);
    }
  }

  lemma HeldRow(
      rules: Rules, used: set<nat>, before: seq<AlertConfig>, t: Table, placed: seq<nat>, data: seq<AlertConfig>, j: nat)
      returns (row: AlertConfig)
    requires Resting(rules, used, before, t, placed, data) && j < |data|
    ensures row in t.rows && row.id == placed[j]
    ensures Inherit(rules, data[j], row) == Success(row) && row.kind == data[j].kind
    ensures !BlankUid(data[j]) ==> row.uid == data[j].uid
    ensures forall r :: r in t.rows && (r.id == row.id || r.uid == row.uid) ==> r == row
  {
    assert Holds(rules, t.rows, placed[j], data[j]);
    row :| row in t.rows && row.id == placed[j] && Settled(rules, data[j], row);
    forall r | r in t.rows && (r.id == row.id || r.uid == row.uid)
      ensures r == row
    {
      if r.id == row.id { SameRowById(t.rows, r, row); } else { SameRowByUid(t.rows, r, row); }
    }
  }

  lemma PlacedBefore(placed: seq<nat>, i: nat, j: nat)
    requires j < i <= |placed|
    ensures placed[j] in placed[..i]
  {
    assert placed[..i][j] == placed[j];
  }

  lemma PlacedFrom(placed: seq<nat>, i: nat, id: nat) returns (j: nat)
    requires i <= |placed| && id in placed && id !in placed[..i]
    ensures i <= j < |placed| && placed[j] == id
  {
    var k :| 0 <= k < |placed| && placed[k] == id;
    assert placed == placed[..i] + placed[i..];
    j := k;
  }

  lemma NotPlacedYet(placed: seq<nat>, i: nat, j: nat)
    requires NoDuplicates(placed) && i <= j < |placed|
    ensures placed[j] !in placed[..i]
  {
  }

  /** In the second run a stable item meets no row of another kind under its UID. */
  lemma SecondAgrees(
      rules: Rules, used: set<nat>, before: seq<AlertConfig>, t: Table, placed: seq<nat>, data: seq<AlertConfig>, i: nat)
    requires Resting(rules, used, before, t, placed, data) && i < |data| && StableAt(data, i)
    requires UniqueUids(before)
    ensures UidAgrees(t.rows, placed[..i], data[i])
  {
    var uid := TrimSpace(data[i].uid);
    var found := FindUid(Candidates(t.rows, placed[..i]), uid);
    if found.Some? && !BlankUid(data[i]) {
      var r := found.value;
      assert r in Candidates(t.rows, placed[..i]);
      if r.id in placed {
        PlacedAgrees(rules, used, before, t, placed, data, i, r);
      } else {
        assert r in before;
        OldAgrees(rules, used, before, t, placed, data, i, r);
      }
    }
  }

  /** The row under the UID is one that some item landed on. */
  lemma PlacedAgrees(
      rules: Rules, used: set<nat>, before: seq<AlertConfig>, t: Table, placed: seq<nat>, data: seq<AlertConfig>, i: nat,
      r: AlertConfig)
    requires Resting(rules, used, before, t, placed, data) && i < |data| && StableAt(data, i) && UniqueUids(before)
    requires r in Candidates(t.rows, placed[..i]) && r.uid == TrimSpace(data[i].uid) != "" && r.id in placed
    ensures r.kind == data[i].kind
  {
    var j :| 0 <= j < |placed| && placed[j] == r.id;
    if BlankUid(data[j]) {
      BlankAgrees(rules, used, before, t, placed, data, i, j, r);
    } else {
      NamedAgrees(rules, used, before, t, placed, data, i, j, r);
    }
  }

  lemma NotBefore(placed: seq<nat>, i: nat, j: nat)
    requires i <= |placed| && j < |placed| && placed[j] !in placed[..i]
    ensures i <= j
  {
    forall k | 0 <= k < i ensures placed[k] in placed[..i] {
      PlacedBefore(placed, i, k);
    }
  }

  lemma StableKinds(data: seq<AlertConfig>, i: nat, j: nat)
    requires i < |data| && j < |data| && StableAt(data, i) && (i <= j || IsSingleton(data[j].kind))
    requires !BlankUid(data[i]) && data[j].uid == TrimSpace(data[i].uid)
    ensures data[j].kind == data[i].kind
  {
  }

  /** The row under the UID was given to an item that has the UID. */
  lemma NamedAgrees(
      rules: Rules, used: set<nat>, before: seq<AlertConfig>, t: Table, placed: seq<nat>, data: seq<AlertConfig>,
      i: nat, j: nat, r: AlertConfig)
    requires Resting(rules, used, before, t, placed, data) && i < |data| && j < |data| && StableAt(data, i)
    requires r in t.rows && (r.id !in placed[..i] || IsSingleton(r.kind)) && r.uid == TrimSpace(data[i].uid) != ""
    requires r.id == placed[j] && !BlankUid(data[j])
    ensures r.kind == data[i].kind
  {
    var row := HeldRow(rules, used, before, t, placed, data, j);
    SameRowById(t.rows, row, r);
    if !IsSingleton(r.kind) {
      NotBefore(placed, i, j);
    }
    StableKinds(data, i, j);
  }

  /** The row under the UID was given to an item without one: the UID was an old row's. */
  lemma BlankAgrees(
      rules: Rules, used: set<nat>, before: seq<AlertConfig>, t: Table, placed: seq<nat>, data: seq<AlertConfig>,
      i: nat, j: nat, r: AlertConfig)
    requires Resting(rules, used, before, t, placed, data) && i < |data| && j < |data| && UniqueUids(before)
    requires r in t.rows && (r.id !in placed[..i] || IsSingleton(r.kind)) && r.uid == TrimSpace(data[i].uid) != ""
    requires r.id == placed[j] && BlankUid(data[j])
    ensures r.kind == data[i].kind
  {
    var known :| known in t.rows && known.id == placed[j] && UidKnown(before, data, known);
    SameRowById(t.rows, known, r);
    var was :| was in before && was.id == r.id && was.uid == r.uid && was.kind == r.kind;
    OldAgrees(rules, used, before, t, placed, data, i, was);
  }

  /** The row under the UID was an old one, which the item met in the first run. */
  lemma OldAgrees(
      rules: Rules, used: set<nat>, before: seq<AlertConfig>, t: Table, placed: seq<nat>, data: seq<AlertConfig>, i: nat,
      r: AlertConfig)
    requires Resting(rules, used, before, t, placed, data) && i < |data| && UniqueUids(before)
    requires r in before && r.uid == TrimSpace(data[i].uid) != "" && (r.id !in placed[..i] || IsSingleton(r.kind))
    ensures r.kind == data[i].kind
  {
    var candidates := Candidates(before, placed[..i]);
    assert r in candidates && UidAgrees(before, placed[..i], data[i]) && !BlankUid(data[i]);
    FindUidHit(candidates, r);
    SameRowByUid(before, FindUid(candidates, r.uid).value, r);
  }

  lemma SameContent(rules: Rules, item: AlertConfig, row: AlertConfig)
    requires Inherit(rules, item, row) == Success(row)
    ensures SyncKey(rules, row) == SyncKey(rules, item) && row.kind == item.kind
    ensures row.title == item.title && row.status == item.status && row.config == item.config
  {
  }

  /** No open row of the item's content stands before its own. */
  lemma NoneBefore(
      rules: Rules, used: set<nat>, before: seq<AlertConfig>, t: Table, placed: seq<nat>, data: seq<AlertConfig>, i: nat,
      row: AlertConfig, f: AlertConfig)
    requires Resting(rules, used, before, t, placed, data) && i < |data| && InOrderAt(rules, t.rows, placed, data, i)
    requires MatchesByContent(data[i]) && row in t.rows && row.id == placed[i]
    requires f in OpenRows(t.rows, placed[..i]) && SyncKey(rules, f) == SyncKey(rules, data[i]) && f != row
    ensures Ahead(t.rows, row.id, f.id)
  {
    if f.id in placed {
      var j := PlacedFrom(placed, i, f.id);
      var held := HeldRow(rules, used, before, t, placed, data, j);
      SameContent(rules, data[j], held);
    }
  }

  /** In the second run an item that is matched by content lands on the row it landed on before. */
  lemma ContentLanding(
      rules: Rules, used: set<nat>, before: seq<AlertConfig>, t: Table, placed: seq<nat>, data: seq<AlertConfig>, i: nat,
      row: AlertConfig)
    requires Resting(rules, used, before, t, placed, data) && i < |data| && InOrderAt(rules, t.rows, placed, data, i)
    requires MatchesByContent(data[i]) && row in t.rows && row.id == placed[i]
    requires Inherit(rules, data[i], row) == Success(row)
    ensures Landing(rules, used, t.rows, placed[..i], data[i]) == Some(row)
  {
    var open, key := OpenRows(t.rows, placed[..i]), SyncKey(rules, data[i]);
    NotPlacedYet(placed, i, i);
    SameContent(rules, data[i], row);
    LandsByContent(rules, used, t.rows, placed[..i], data[i], row);
    var f := FindKey(rules, open, key).value;
    if f != row {
      FoundFirst(rules, t.rows, placed[..i], key, f, row);
      NoneBefore(rules, used, before, t, placed, data, i, row, f);
      NotBothAhead(t.rows, row.id, f.id);
    }
  }

  /** In the second run a stable item lands on the row it landed on before. */
  lemma SecondLanding(
      rules: Rules, used: set<nat>, before: seq<AlertConfig>, t: Table, placed: seq<nat>, data: seq<AlertConfig>, i: nat)
      returns (row: AlertConfig)
    requires Resting(rules, used, before, t, placed, data) && i < |data| && StableAt(data, i)
    requires InOrderAt(rules, t.rows, placed, data, i)
    ensures row in t.rows && row.id == placed[i]
    ensures Landing(rules, used, t.rows, placed[..i], data[i]) == Some(row)
    ensures Inherit(rules, data[i], row) == Success(row)
    ensures forall r :: r in t.rows && (r.id == row.id || r.uid == row.uid) ==> r == row
  {
    row := HeldRow(rules, used, before, t, placed, data, i);
    NotPlacedYet(placed, i, i);
    if IsSingleton(data[i].kind) {
      assert LatestCommon(data, |data|) == Some(i);
      assert LastOfKind(t.rows, COMMON) == Some(row);
    } else if BlankUid(data[i]) {
      ContentLanding(rules, used, before, t, placed, data, i, row);
    } else {
      assert row in Candidates(t.rows, placed[..i]);
      FindUidHit(Candidates(t.rows, placed[..i]), row);
    }
  }

  lemma {:induction false} ReplaceSelf(s: seq<AlertConfig>, row: AlertConfig)
    requires forall r :: r in s && r.id == row.id ==> r == row
    ensures ReplaceRow(s, row) == s
  {
    if s != [] {
      ReplaceSelf(s[1..], row);
    }
  }

  /** An item that lands on the row that holds it changes nothing. */
  lemma SettledStep(
      rules: Rules, used: set<nat>, t: Table, placed: seq<nat>, item: AlertConfig, uuid: Uuid, row: AlertConfig)
    requires ValidTable(t) && UidAgrees(t.rows, placed, item)
    requires Landing(rules, used, t.rows, placed, item) == Some(row) && Inherit(rules, item, row) == Success(row)
    requires forall r :: r in t.rows && (r.id == row.id || r.uid == row.uid) ==> r == row
    ensures Step(rules, used, t.rows, Progress(t, placed), item, uuid) == Success(Progress(t, placed + [row.id]))
  {
    ReplaceSelf(t.rows, row);
  }

  /** An item whose trimmed UID names a row of another kind fails. */
  lemma ClashFails(
      rules: Rules, used: set<nat>, t: Table, placed: seq<nat>, item: AlertConfig, uuid: Uuid, row: AlertConfig)
    requires ValidTable(t) && !BlankUid(item)
    requires row in t.rows && (row.id !in placed || IsSingleton(row.kind))
    requires row.uid == TrimSpace(item.uid) && row.kind != item.kind
    ensures Step(rules, used, t.rows, Progress(t, placed), item, uuid).Failure?
  {
    var candidates := Candidates(t.rows, placed);
    assert row in candidates;
    FindUidHit(candidates, row);
    SameRowByUid(t.rows, row, FindUid(candidates, row.uid).value);
  }

  /** An item that lands on one row while another row has its UID fails. */
  lemma TakenUidFails(
      rules: Rules, used: set<nat>, t: Table, placed: seq<nat>, item: AlertConfig, uuid: Uuid,
      own: AlertConfig, other: AlertConfig)
    requires ValidTable(t) && !BlankUid(item)
    requires own in t.rows && own.uid == item.uid && own.id != other.id
    requires Landing(rules, used, t.rows, placed, item) == Some(other)
    ensures Step(rules, used, t.rows, Progress(t, placed), item, uuid).Failure?
  {
    var merged := Inherit(rules, item, other);
    if merged.Success? {
      assert own.id != merged.value.id && own.uid == merged.value.uid;
      assert SaveRow(t, merged.value).Failure?;
    }
  }

  lemma StableRepeats(
      rules: Rules, used: set<nat>, before: seq<AlertConfig>, t: Table, placed: seq<nat>, data: seq<AlertConfig>,
      uuid: Uuid, i: nat)
    requires Resting(rules, used, before, t, placed, data) && UniqueUids(before) && i < |data|
    requires StableAt(data, i) && InOrderAt(rules, t.rows, placed, data, i)
    ensures Step(rules, used, t.rows, Progress(t, placed[..i]), data[i], uuid)
         == Success(Progress(t, placed[..i] + [placed[i]]))
  {
    SecondAgrees(rules, used, before, t, placed, data, i);
    var row := SecondLanding(rules, used, before, t, placed, data, i);
    SettledStep(rules, used, t, placed[..i], data[i], uuid, row);
  }

  lemma LaterSingletonFails(
      rules: Rules, used: set<nat>, before: seq<AlertConfig>, t: Table, placed: seq<nat>, data: seq<AlertConfig>,
      uuid: Uuid, i: nat, j: nat)
    requires Resting(rules, used, before, t, placed, data) && i < j < |data|
    requires IsSingleton(data[i].kind) && data[j].kind == data[i].kind && !BlankUid(data[i])
    ensures Step(rules, used, t.rows, Progress(t, placed[..i]), data[i], uuid).Failure?
  {
    var last := LatestCommon(data, |data|).value;
    var own := HeldRow(rules, used, before, t, placed, data, i);
    NotPlacedYet(placed, i, last);
    TakenUidFails(rules, used, t, placed[..i], data[i], uuid, own, LastOfKind(t.rows, COMMON).value);
  }

  lemma ClashingUidFails(
      rules: Rules, used: set<nat>, before: seq<AlertConfig>, t: Table, placed: seq<nat>, data: seq<AlertConfig>,
      uuid: Uuid, i: nat, j: nat)
    requires Resting(rules, used, before, t, placed, data) && i < |data| && j < |data|
    requires i < j || IsSingleton(data[j].kind)
    requires data[j].uid == TrimSpace(data[i].uid) && data[j].kind != data[i].kind
    requires !BlankUid(data[i]) && !BlankUid(data[j])
    ensures Step(rules, used, t.rows, Progress(t, placed[..i]), data[i], uuid).Failure?
  {
    var row := HeldRow(rules, used, before, t, placed, data, j);
    if i < j {
      NotPlacedYet(placed, i, j);
    }
    ClashFails(rules, used, t, placed[..i], data[i], uuid, row);
  }

  lemma UnstableFails(
      rules: Rules, used: set<nat>, before: seq<AlertConfig>, t: Table, placed: seq<nat>, data: seq<AlertConfig>,
      uuid: Uuid, i: nat)
    requires Resting(rules, used, before, t, placed, data) && i < |data|
    requires !StableAt(data, i) && AllNamed(data)
    ensures Step(rules, used, t.rows, Progress(t, placed[..i]), data[i], uuid).Failure?
  {
    if j :| i < j < |data| && IsSingleton(data[i].kind) && data[j].kind == data[i].kind {
      LaterSingletonFails(rules, used, before, t, placed, data, uuid, i, j);
    } else {
      var j :| 0 <= j < |data| && (i < j || IsSingleton(data[j].kind))
               && data[j].uid == TrimSpace(data[i].uid) && data[j].kind != data[i].kind;
      ClashingUidFails(rules, used, before, t, placed, data, uuid, i, j);
    }
  }

  lemma SecondStep(
      rules: Rules, used: set<nat>, before: seq<AlertConfig>, t: Table, placed: seq<nat>, data: seq<AlertConfig>,
      uuids: seq<Uuid>, i: nat)
    requires Resting(rules, used, before, t, placed, data) && UniqueUids(before) && i < |data| <= |uuids|
    requires StableAt(data, i) && InOrderAt(rules, t.rows, placed, data, i)
    ensures i < |placed|
    ensures Step(rules, used, t.rows, Progress(t, placed[..i]), data[i], uuids[i]) == Success(Progress(t, placed[..i + 1]))
  {
    StableRepeats(rules, used, before, t, placed, data, uuids[i], i);
    TakeMore(placed, i);
  }

  /** As long as the items are stable and in order, the second run changes nothing. */
  lemma {:induction false} SecondRun(
      rules: Rules, used: set<nat>, before: seq<AlertConfig>, t: Table, placed: seq<nat>, data: seq<AlertConfig>,
      uuids: seq<Uuid>, n: nat)
    requires Resting(rules, used, before, t, placed, data) && UniqueUids(before) && n <= |data| <= |uuids|
    requires forall i :: 0 <= i < n ==> StableAt(data, i) && InOrderAt(rules, t.rows, placed, data, i)
    ensures Run(rules, used, t, data, uuids, n) == Success(Progress(t, placed[..n]))
  {
    if n == 0 {
      assert placed[..0] == [];
    } else {
      SecondRun(rules, used, before, t, placed, data, uuids, n - 1);
      SecondStep(rules, used, before, t, placed, data, uuids, n - 1);
    }
  }

  lemma RunFailsAt(
      rules: Rules, used: set<nat>, t: Table, data: seq<AlertConfig>, uuids: seq<Uuid>, i: nat, p: Progress)
    requires i < |data| <= |uuids| && Run(rules, used, t, data, uuids, i) == Success(p)
    requires Step(rules, used, t.rows, p, data[i], uuids[i]).Failure?
    ensures Run(rules, used, t, data, uuids, |data|).Failure?
  {
    var step := StepAt(rules, used, t.rows, data, uuids);
    FoldFailure(step, Progress(t, []), i, |data|, step(p, i).error);
  }

  /** At the first unstable item, the second run fails. */
  lemma SecondRunFails(
      rules: Rules, used: set<nat>, before: seq<AlertConfig>, t: Table, placed: seq<nat>, data: seq<AlertConfig>,
      uuids: seq<Uuid>, i: nat)
    requires Resting(rules, used, before, t, placed, data) && UniqueUids(before) && i < |data| <= |uuids|
    requires (forall j :: 0 <= j < i ==> StableAt(data, j)) && !StableAt(data, i) && AllNamed(data)
    ensures Run(rules, used, t, data, uuids, |data|).Failure?
  {
    SecondRun(rules, used, before, t, placed, data, uuids, i);
    UnstableFails(rules, used, before, t, placed, data, uuids[i], i);
    RunFailsAt(rules, used, t, data, uuids, i, Progress(t, placed[..i]));
  }

  lemma {:induction false} FirstUnstable(data: seq<AlertConfig>, n: nat) returns (i: nat)
    requires n <= |data| && exists j :: 0 <= j < n && !StableAt(data, j)
    ensures i < n && !StableAt(data, i) && forall j :: 0 <= j < i ==> StableAt(data, j)
  {
    if j :| 0 <= j < n - 1 && !StableAt(data, j) {
      i := FirstUnstable(data, n - 1);
    } else {
      i := n - 1;
    }
  }

  lemma {:induction false} SweepNothing(
      s: seq<AlertConfig>, before: seq<AlertConfig>, used: set<nat>, placed: seq<nat>)
    requires forall k :: 0 <= k < |s| ==> s[k].id in placed || s[k].id in used
    ensures Sweep(s, before, used, placed) == s
  {
    if s != [] {
      var rest, last := s[..|s| - 1], s[|s| - 1];
      SweepNothing(rest, before, used, placed);
      assert !Dropped(before, used, placed, last.id);
      assert s == rest + [last];
    }
  }

  // ---- A second run that changes nothing

  /** Every item of the second run landed on a row of the table, which holds it. */
  ghost predicate Repeated(rules: Rules, used: set<nat>, t: Table, placed: seq<nat>, data: seq<AlertConfig>) {
    && NoDuplicates(placed) && AllHeld(rules, t.rows, placed, data)
    && forall i :: 0 <= i < |data| ==>
         && UidAgrees(t.rows, placed[..i], data[i])
         && Landing(rules, used, t.rows, placed[..i], data[i]).Some?
         && Landing(rules, used, t.rows, placed[..i], data[i]).value.id == placed[i]
  }

  lemma UnchangedRepeats(rules: Rules, used: set<nat>, t: Table, data: seq<AlertConfig>, uuids: seq<Uuid>)
    requires ValidTable(t) && |data| <= |uuids| && Sync(rules, used, t, data, uuids) == Success(t)
    ensures Repeated(rules, used, t, Placements(rules, used, t, data, uuids), data)
  {
    var p := Run(rules, used, t, data, uuids, |data|).value;
    SyncConserves(rules, used, t, data, uuids);
    RunConforms(rules, used, t, data, uuids, |data|);
    RunNotes(rules, used, t, data, uuids, |data|);
    forall i | 0 <= i < |data|
      ensures UidAgrees(t.rows, p.placed[..i], data[i])
      ensures Landing(rules, used, t.rows, p.placed[..i], data[i]).Some?
      ensures Landing(rules, used, t.rows, p.placed[..i], data[i]).value.id == p.placed[i]
    {
      assert NotedAt(rules, used, t, data[i], uuids[i], p, i);
      assert p.placed[i] in p.placed && p.table.nextId == t.nextId;
    }
  }

  /** Only one item of a singleton kind lands on a row. */
  lemma RepeatedOnce(rules: Rules, used: set<nat>, t: Table, placed: seq<nat>, data: seq<AlertConfig>, i: nat, j: nat)
    requires Repeated(rules, used, t, placed, data) && i < j < |data| && data[i].kind == data[j].kind
    ensures !IsSingleton(data[i].kind)
  {
    PlacedBefore(placed, j, i);
  }

  /** A row that holds an item matched by content, and is open for it, is the item's own unless it stands behind it. */
  lemma OwnOrBehind(
      rules: Rules, used: set<nat>, before: seq<AlertConfig>, t: Table, placed: seq<nat>, data: seq<AlertConfig>, i: nat,
      f: AlertConfig)
    requires Resting(rules, used, before, t, placed, data) && i < |data| && NoTwins(rules, data)
    requires MatchesByContent(data[i]) && f in OpenRows(t.rows, placed[..i]) && Inherit(rules, data[i], f) == Success(f)
    ensures f.id == placed[i] || Ahead(t.rows, placed[i], f.id)
  {
    SameContent(rules, data[i], f);
    if f.id in placed {
      var j := PlacedFrom(placed, i, f.id);
      var held := HeldRow(rules, used, before, t, placed, data, j);
      SameContent(rules, data[j], held);
      assert i < j ==> Contend(rules, data[i], data[j]);
    }
  }

  lemma ContentAgain(
      rules: Rules, used: set<nat>, before: seq<AlertConfig>, t: Table, placed: seq<nat>, data: seq<AlertConfig>, i: nat,
      f: AlertConfig)
    requires Resting(rules, used, before, t, placed, data) && i < |data| && NoTwins(rules, data)
    requires MatchesByContent(data[i]) && Landing(rules, used, t.rows, placed[..i], data[i]) == Some(f)
    requires Inherit(rules, data[i], f) == Success(f)
    ensures f.id == placed[i]
  {
    var row := HeldRow(rules, used, before, t, placed, data, i);
    SameContent(rules, data[i], row);
    NotPlacedYet(placed, i, i);
    LandsByContent(rules, used, t.rows, placed[..i], data[i], row);
    OwnOrBehind(rules, used, before, t, placed, data, i, f);
    if f.id != placed[i] {
      FoundFirst(rules, t.rows, placed[..i], SyncKey(rules, data[i]), f, row);
      NotBothAhead(t.rows, row.id, f.id);
    }
  }

  /** If the items before landed on the rows of the first run, so does the next one. */
  lemma SamePlacement(
      rules: Rules, used: set<nat>, before: seq<AlertConfig>, t: Table, placed: seq<nat>, placed': seq<nat>,
      data: seq<AlertConfig>, i: nat)
    requires Resting(rules, used, before, t, placed, data) && Repeated(rules, used, t, placed', data) && i < |data|
    requires NoTwins(rules, data) && placed'[..i] == placed[..i]
    ensures placed'[i] == placed[i]
  {
    var row := HeldRow(rules, used, before, t, placed, data, i);
    var f := Landing(rules, used, t.rows, placed'[..i], data[i]).value;
    assert Holds(rules, t.rows, placed'[i], data[i]);
    var held :| held in t.rows && held.id == placed'[i] && Settled(rules, data[i], held);
    SameRowById(t.rows, f, held);
    if IsSingleton(data[i].kind) {
      var last := LatestCommon(data, |data|).value;
      if i != last {
        RepeatedOnce(rules, used, t, placed', data, i, last);
      }
    } else if BlankUid(data[i]) {
      ContentAgain(rules, used, before, t, placed, data, i, f);
    } else {
      SameRowByUid(t.rows, held, row);
    }
  }

  lemma {:induction false} SamePlacements(
      rules: Rules, used: set<nat>, before: seq<AlertConfig>, t: Table, placed: seq<nat>, placed': seq<nat>,
      data: seq<AlertConfig>, n: nat)
    requires Resting(rules, used, before, t, placed, data) && Repeated(rules, used, t, placed', data) && n <= |data|
    requires NoTwins(rules, data)
    ensures |placed'| == |placed| && placed'[..n] == placed[..n]
  {
    if n > 0 {
      var i := n - 1;
      SamePlacements(rules, used, before, t, placed, placed', data, i);
      SamePlacement(rules, used, before, t, placed, placed', data, i);
      SamePrefix(placed, placed', i);
    }
  }

  lemma SamePrefix(s: seq<nat>, s': seq<nat>, i: nat)
    requires i < |s| == |s'| && s'[..i] == s[..i] && s'[i] == s[i]
    ensures s'[..i + 1] == s[..i + 1]
  {
    TakeMore(s, i);
    TakeMore(s', i);
  }

  lemma SameWhole(s: seq<nat>, s': seq<nat>, n: nat)
    requires n == |s| == |s'| && s'[..n] == s[..n]
    ensures s' == s
  {
    assert s[..n] == s && s'[..n] == s';
  }

  lemma NamedAsTrimmed(a: AlertConfig, b: AlertConfig)
    requires !BlankUid(a) && b.uid == TrimSpace(a.uid)
    ensures !BlankUid(b)
  {
    TrimmedFixed(b.uid);
  }

  lemma RepeatedKind(
      rules: Rules, used: set<nat>, before: seq<AlertConfig>, t: Table, placed: seq<nat>, data: seq<AlertConfig>,
      i: nat, j: nat)
    requires Resting(rules, used, before, t, placed, data) && Repeated(rules, used, t, placed, data)
    requires i < |data| && j < |data| && (i < j || IsSingleton(data[j].kind))
    requires !BlankUid(data[i]) && data[j].uid == TrimSpace(data[i].uid)
    ensures data[j].kind == data[i].kind
  {
    var row := HeldRow(rules, used, before, t, placed, data, j);
    NamedAsTrimmed(data[i], data[j]);
    if i < j {
      NotPlacedYet(placed, i, j);
    }
    var candidates := Candidates(t.rows, placed[..i]);
    assert row in candidates;
    FindUidHit(candidates, row);
    SameRowByUid(t.rows, row, FindUid(candidates, row.uid).value);
  }

  lemma RepeatedStable(
      rules: Rules, used: set<nat>, before: seq<AlertConfig>, t: Table, placed: seq<nat>, data: seq<AlertConfig>, i: nat)
    requires Resting(rules, used, before, t, placed, data) && Repeated(rules, used, t, placed, data) && i < |data|
    ensures StableAt(data, i)
  {
    forall j | i < j < |data| && IsSingleton(data[i].kind) ensures data[j].kind != data[i].kind {
      if data[j].kind == data[i].kind {
        RepeatedOnce(rules, used, t, placed, data, i, j);
      }
    }
    forall j | 0 <= j < |data| && (i < j || IsSingleton(data[j].kind)) && !BlankUid(data[i])
               && data[j].uid == TrimSpace(data[i].uid)
      ensures data[j].kind == data[i].kind
    {
      RepeatedKind(rules, used, before, t, placed, data, i, j);
    }
  }

  lemma RepeatedInOrder(
      rules: Rules, used: set<nat>, before: seq<AlertConfig>, t: Table, placed: seq<nat>, data: seq<AlertConfig>,
      i: nat, j: nat)
    requires Resting(rules, used, before, t, placed, data) && Repeated(rules, used, t, placed, data)
    requires i < j < |data| && Contend(rules, data[i], data[j])
    ensures Ahead(t.rows, placed[i], placed[j])
  {
    var row := HeldRow(rules, used, before, t, placed, data, j);
    SameContent(rules, data[j], row);
    NotPlacedYet(placed, i, j);
    LandsByContent(rules, used, t.rows, placed[..i], data[i], row);
    var own := Landing(rules, used, t.rows, placed[..i], data[i]).value;
    assert placed[i] != placed[j];
    FoundFirst(rules, t.rows, placed[..i], SyncKey(rules, data[i]), own, row);
  }

  lemma RepeatedIsStable(
      rules: Rules, used: set<nat>, before: seq<AlertConfig>, t: Table, placed: seq<nat>, data: seq<AlertConfig>)
    requires Resting(rules, used, before, t, placed, data) && Repeated(rules, used, t, placed, data)
    ensures Stable(data) && InOrder(rules, t.rows, placed, data)
  {
    forall i | 0 <= i < |data| ensures StableAt(data, i) {
      RepeatedStable(rules, used, before, t, placed, data, i);
    }
    forall i, j | 0 <= i < j < |data| && Contend(rules, data[i], data[j]) ensures Ahead(t.rows, placed[i], placed[j]) {
      RepeatedInOrder(rules, used, before, t, placed, data, i, j);
    }
  }

  lemma UnchangedIsStable(
      rules: Rules, used: set<nat>, before: seq<AlertConfig>, t: Table, placed: seq<nat>, data: seq<AlertConfig>,
      uuids: seq<Uuid>)
    requires Resting(rules, used, before, t, placed, data) && NoTwins(rules, data) && |data| <= |uuids|
    requires Sync(rules, used, t, data, uuids) == Success(t)
    ensures Stable(data) && InOrder(rules, t.rows, placed, data)
  {
    var placed' := Placements(rules, used, t, data, uuids);
    UnchangedRepeats(rules, used, t, data, uuids);
    SamePlacements(rules, used, before, t, placed, placed', data, |data|);
    SameWhole(placed, placed', |data|);
    RepeatedIsStable(rules, used, before, t, placed, data);
  }

  lemma StableIsUnchanged(
      rules: Rules, used: set<nat>, before: seq<AlertConfig>, t: Table, placed: seq<nat>, data: seq<AlertConfig>,
      uuids: seq<Uuid>)
    requires Resting(rules, used, before, t, placed, data) && UniqueUids(before) && |data| <= |uuids|
    requires Stable(data) && InOrder(rules, t.rows, placed, data)
    ensures Sync(rules, used, t, data, uuids) == Success(t)
  {
    SecondRun(rules, used, before, t, placed, data, uuids, |data|);
    assert placed[..|data|] == placed;
    SweepNothing(t.rows, t.rows, used, placed);
  }

  /**
   * Idempotence, exactly: after a successful synchronisation the same one changes nothing if the items are stable and
   * those that are matched by content have their rows in their order, and, unless two of these are twins, only if.
   * When all items carry a UID it succeeds at all if and only if they are stable.
   */
  lemma SyncTwice(
      rules: Rules, used: set<nat>, before: Table, data: seq<AlertConfig>, uuids: seq<Uuid>, uuids': seq<Uuid>)
    requires ValidTable(before) && |data| <= |uuids| && |data| <= |uuids'| && FreshUuids(data, uuids)
    requires Sync(rules, used, before, data, uuids).Success?
    ensures var t, placed := Sync(rules, used, before, data, uuids).value, Placements(rules, used, before, data, uuids);
            && ValidTable(t) && |placed| == |data|
            && (Stable(data) && InOrder(rules, t.rows, placed, data) ==> Sync(rules, used, t, data, uuids') == Success(t))
            && (NoTwins(rules, data) && Sync(rules, used, t, data, uuids') == Success(t)
                ==> Stable(data) && InOrder(rules, t.rows, placed, data))
            && (AllNamed(data) ==> (Sync(rules, used, t, data, uuids').Success? <==> Stable(data)))
  {
    FirstRunRests(rules, used, before, data, uuids);
    var t, placed := Sync(rules, used, before, data, uuids).value, Placements(rules, used, before, data, uuids);
    if Stable(data) {
      if InOrder(rules, t.rows, placed, data) {
        StableIsUnchanged(rules, used, before.rows, t, placed, data, uuids');
      }
    } else if AllNamed(data) {
      var i := FirstUnstable(data, |data|);
      SecondRunFails(rules, used, before.rows, t, placed, data, uuids', i);
    }
    if NoTwins(rules, data) && Sync(rules, used, t, data, uuids') == Success(t) {
      UnchangedIsStable(rules, used, before.rows, t, placed, data, uuids');
    }
  }

  /** Distinct items settle when those that are matched by content differ in it from all later ones. */
  lemma DistinctItemsSettle(
      rules: Rules, used: set<nat>, before: Table, data: seq<AlertConfig>, uuids: seq<Uuid>, uuids': seq<Uuid>)
    requires ValidTable(before) && |data| <= |uuids| && |data| <= |uuids'| && FreshUuids(data, uuids)
    requires DistinctItems(data) && forall i, j :: 0 <= i < j < |data| ==> !Contend(rules, data[i], data[j])
    requires Sync(rules, used, before, data, uuids).Success?
    ensures Sync(rules, used, Sync(rules, used, before, data, uuids).value, data, uuids')
            == Sync(rules, used, before, data, uuids)
  {
    DistinctItemsAreStable(data);
    SyncTwice(rules, used, before, data, uuids, uuids');
  }
}
