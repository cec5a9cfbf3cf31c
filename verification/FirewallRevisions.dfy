/**
 * Optimistic revisions over whole runs. A run is any sequence of reads, creations, guarded updates and guarded
 * deletions, so it covers every interleaving of many clients.
 */
module FirewallRevisions {
  import opened FirewallRuleRepo
  import opened Text

  function After(events: seq<Event>): Rules {
    if events == [] then map[]
    else Apply(After(events[..|events| - 1]), events[|events| - 1]).0
  }

  function ReplyAt(events: seq<Event>, i: nat): Reply
    requires i < |events|
  {
    Apply(After(events[..i]), events[i]).1
  }

  /** The last row ever stored under each UUID, deleted or not. */
  function LastRows(events: seq<Event>): Rules {
    if events == [] then map[] else LastRows(events[..|events| - 1]) + After(events)
  }

  // ---- What a creation may do with a UUID that was used before

  /** It puts the last row back exactly, or starts above its revision. */
  predicate Resumes(last: Rules, r: Rule) {
    r.uuid in last ==> r == last[r.uuid] || r.revision > last[r.uuid].revision
  }

  predicate StartsAbove(last: Rules, r: Rule) {
    r.uuid in last ==> r.revision > last[r.uuid].revision
  }

  /** The row a creation stores in this state. */
  function Created(rules: Rules, event: Event): Option<Rule> {
    if event.Create? && Apply(rules, event).1.Success? then Some(Apply(rules, event).1.value) else None
  }

  predicate Orderly(events: seq<Event>) {
    events == []
    || (var init := events[..|events| - 1];
        && Orderly(init)
        && var r := Created(After(init), events[|events| - 1]);
           r.Some? ==> Resumes(LastRows(init), r.value))
  }

  predicate Rising(events: seq<Event>) {
    events == []
    || (var init := events[..|events| - 1];
        && Rising(init)
        && var r := Created(After(init), events[|events| - 1]);
           r.Some? ==> StartsAbove(LastRows(init), r.value))
  }

  lemma {:induction false} RisingIsOrderly(events: seq<Event>)
    requires Rising(events)
    ensures Orderly(events)
  {
    if events != [] {
      RisingIsOrderly(events[..|events| - 1]);
    }
  }

  // ---- One event more

  lemma OneMore(events: seq<Event>, event: Event)
    ensures After(events + [event]) == Apply(After(events), event).0
    ensures LastRows(events + [event]) == LastRows(events) + After(events + [event])
    ensures Orderly(events + [event])
            <==> Orderly(events) && var r := Created(After(events), event); r.Some? ==> Resumes(LastRows(events), r.value)
    ensures Rising(events + [event])
            <==> Rising(events) && var r := Created(After(events), event); r.Some? ==> StartsAbove(LastRows(events), r.value)
  {
    assert (events + [event])[..|events|] == events;
  }

  lemma PrefixOneMore(events: seq<Event>, i: nat)
    requires i < |events|
    ensures events[..i + 1] == events[..i] + [events[i]]
  {
  }

  lemma {:induction false} OrderlyPrefix(events: seq<Event>, i: nat)
    requires i <= |events| && Orderly(events)
    ensures Orderly(events[..i])
    decreases |events| - i
  {
    if i == |events| {
      assert events[..i] == events;
    } else {
      OrderlyPrefix(events, i + 1);
      PrefixOneMore(events, i);
      OneMore(events[..i], events[i]);
    }
  }

  lemma {:induction false} RisingPrefix(events: seq<Event>, i: nat)
    requires i <= |events| && Rising(events)
    ensures Rising(events[..i])
    decreases |events| - i
  {
    if i == |events| {
      assert events[..i] == events;
    } else {
      RisingPrefix(events, i + 1);
      PrefixOneMore(events, i);
      OneMore(events[..i], events[i]);
    }
  }

  /** A stored row is stored under its own UUID, and is the last one there. */
  lemma {:induction false} StoredIsLast(events: seq<Event>, uuid: string)
    requires uuid in After(events)
    ensures After(events)[uuid].uuid == uuid
    ensures uuid in LastRows(events) && LastRows(events)[uuid] == After(events)[uuid]
  {
    if events != [] {
      var init := events[..|events| - 1];
      if uuid in After(init) {
        StoredIsLast(init, uuid);
      }
    }
  }

  // ---- Rows move on

  predicate MovesOn(early: Rule, late: Rule) {
    late == early || late.revision > early.revision
  }

  lemma StepMovesOn(events: seq<Event>, event: Event, uuid: string)
    requires Orderly(events + [event]) && uuid in LastRows(events)
    ensures uuid in LastRows(events + [event]) && MovesOn(LastRows(events)[uuid], LastRows(events + [event])[uuid])
  {
    OneMore(events, event);
    if uuid in After(events) {
      StoredIsLast(events, uuid);
    }
  }

  lemma {:induction false} LastMovesOn(start: seq<Event>, rest: seq<Event>, uuid: string)
    requires Orderly(start + rest) && uuid in LastRows(start)
    ensures uuid in LastRows(start + rest) && MovesOn(LastRows(start)[uuid], LastRows(start + rest)[uuid])
  {
    if rest == [] {
      assert start + rest == start;
    } else {
      var init, last := rest[..|rest| - 1], rest[|rest| - 1];
      SplitLast(rest);
      ConcatAssociates(start, init, [last]);
      OneMore(start + init, last);
      LastMovesOn(start, init, uuid);
      StepMovesOn(start + init, last, uuid);
    }
  }

  lemma Between(events: seq<Event>, i: nat, j: nat)
    requires i <= j <= |events|
    ensures events[..i] + events[i..j] == events[..j]
  {
  }

  /** A row that is there at two times is the same row, or has a greater revision. */
  lemma RevisionsGrow(events: seq<Event>, i: nat, j: nat, uuid: string)
    requires Orderly(events) && i <= j <= |events|
    requires uuid in After(events[..i]) && uuid in After(events[..j])
    ensures MovesOn(After(events[..i])[uuid], After(events[..j])[uuid])
  {
    StoredIsLast(events[..i], uuid);
    StoredIsLast(events[..j], uuid);
    Between(events, i, j);
    OrderlyPrefix(events, j);
    LastMovesOn(events[..i], events[i..j], uuid);
  }

  // ---- Lost updates and two writers

  /** A guarded write that the table accepted. */
  predicate Writes(events: seq<Event>, j: nat, uuid: string, expected: nat)
    requires j < |events|
  {
    && ReplyAt(events, j).Success?
    && match events[j]
       case Update(u, e, _) => u == uuid && e == expected
       case Delete(u, e) => u == uuid && e == expected
       case _ => false
  }

  lemma WritesMeans(events: seq<Event>, j: nat, uuid: string, expected: nat)
    requires j < |events| && Writes(events, j, uuid, expected)
    ensures uuid in After(events[..j]) && After(events[..j])[uuid].revision == expected
    ensures events[j].Update? ==> uuid in After(events[..j + 1]) && After(events[..j + 1])[uuid].revision == expected + 1
    ensures events[j].Delete? ==> uuid !in After(events[..j + 1])
  {
    PrefixOneMore(events, j);
    OneMore(events[..j], events[j]);
  }

  /** A write of j is accepted with the revision that was read at i, though the row is not the one that was read. */
  predicate Loses(events: seq<Event>, i: nat, j: nat, uuid: string)
    requires i < j < |events|
  {
    && events[i] == Read(uuid) && ReplyAt(events, i).Success?
    && Writes(events, j, uuid, ReplyAt(events, i).value.revision)
    && !(uuid in After(events[..j]) && After(events[..j])[uuid] == ReplyAt(events, i).value)
  }

  ghost predicate LosesUpdate(events: seq<Event>) {
    exists i: nat, j: nat, uuid: string :: i < j < |events| && Loses(events, i, j, uuid)
  }

  /**
   * No lost update: in an orderly run, whenever a guarded write succeeds with a revision that some client read
   * before, the row it changes is, column for column, the row that client read.
   */
  lemma NoLostUpdate(events: seq<Event>, i: nat, j: nat, uuid: string)
    requires Orderly(events) && i < j < |events|
    ensures !Loses(events, i, j, uuid)
  {
    if Loses(events, i, j, uuid) {
      WritesMeans(events, j, uuid, ReplyAt(events, i).value.revision);
      RevisionsGrow(events, i, j, uuid);
    }
  }

  predicate TwoWrites(events: seq<Event>, i: nat, j: nat, uuid: string, expected: nat)
    requires i < j < |events|
  {
    Writes(events, i, uuid, expected) && Writes(events, j, uuid, expected)
  }

  ghost predicate TwoWriters(events: seq<Event>) {
    exists i: nat, j: nat, uuid: string, expected: nat :: i < j < |events| && TwoWrites(events, i, j, uuid, expected)
  }

  lemma StepAfterDeletion(events: seq<Event>, event: Event, uuid: string, floor: nat)
    requires Rising(events + [event]) && uuid in LastRows(events) && LastRows(events)[uuid].revision >= floor
    requires uuid in After(events) ==> After(events)[uuid].revision > floor
    ensures uuid in After(events + [event]) ==> After(events + [event])[uuid].revision > floor
  {
    OneMore(events, event);
  }

  /** Whatever is stored after a deletion has a greater revision than the deleted row. */
  lemma {:induction false} AfterDeletion(start: seq<Event>, rest: seq<Event>, uuid: string)
    requires Rising(start + rest) && uuid in LastRows(start) && uuid !in After(start)
    ensures uuid in After(start + rest) ==> After(start + rest)[uuid].revision > LastRows(start)[uuid].revision
  {
    if rest == [] {
      assert start + rest == start;
    } else {
      var init, last := rest[..|rest| - 1], rest[|rest| - 1];
      SplitLast(rest);
      ConcatAssociates(start, init, [last]);
      OneMore(start + init, last);
      AfterDeletion(start, init, uuid);
      RisingIsOrderly(start + init);
      LastMovesOn(start, init, uuid);
      StepAfterDeletion(start + init, last, uuid, LastRows(start)[uuid].revision);
    }
  }

  lemma DeletionLeaves(events: seq<Event>, i: nat, uuid: string, expected: nat)
    requires i < |events| && Writes(events, i, uuid, expected) && events[i].Delete?
    ensures uuid !in After(events[..i + 1]) && uuid in LastRows(events[..i + 1])
    ensures LastRows(events[..i + 1])[uuid] == After(events[..i])[uuid] && After(events[..i])[uuid].revision == expected
  {
    WritesMeans(events, i, uuid, expected);
    StoredIsLast(events[..i], uuid);
    PrefixOneMore(events, i);
    OneMore(events[..i], events[i]);
  }

  /** In a rising run, of all the guarded writes with one revision of one row, one succeeds at most. */
  lemma OneWriterPerRevision(events: seq<Event>, i: nat, j: nat, uuid: string, expected: nat)
    requires Rising(events) && i < j < |events|
    ensures !TwoWrites(events, i, j, uuid, expected)
  {
    if TwoWrites(events, i, j, uuid, expected) {
      WritesMeans(events, i, uuid, expected);
      WritesMeans(events, j, uuid, expected);
      if events[i].Update? {
        RisingIsOrderly(events);
        RevisionsGrow(events, i + 1, j, uuid);
      } else {
        DeletionLeaves(events, i, uuid, expected);
        Between(events, i + 1, j);
        RisingPrefix(events, j);
        AfterDeletion(events[..i + 1], events[i + 1..j], uuid);
      }
    }
  }

  // ---- Continuing a run with updates

  /** Updates of one row, from one revision up to another. */
  function Raising(uuid: string, start: nat, goal: nat, updates: map<string, string>): seq<Event>
    requires start <= goal
  {
    if start == goal then [] else Raising(uuid, start, goal - 1, updates) + [Update(uuid, goal - 1, updates)]
  }

  function Raised(r: Rule, goal: nat, updates: map<string, string>): Rule
    requires r.revision <= goal
  {
    if r.revision == goal then r else Rule(r.uuid, goal, r.columns + Sanitized(updates))
  }

  lemma RaisedOnce(r: Rule, goal: nat, updates: map<string, string>)
    requires r.revision < goal
    ensures Updated(Raised(r, goal - 1, updates), updates) == Raised(r, goal, updates)
  {
    assert r.columns + Sanitized(updates) + Sanitized(updates) == r.columns + Sanitized(updates);
  }

  lemma OneUpdate(events: seq<Event>, uuid: string, expected: nat, updates: map<string, string>)
    requires uuid in After(events) && After(events)[uuid].revision == expected
    ensures var more := After(events + [Update(uuid, expected, updates)]);
            uuid in more && more[uuid] == Updated(After(events)[uuid], updates)
  {
    OneMore(events, Update(uuid, expected, updates));
  }

  lemma {:induction false} RaisingRaises(events: seq<Event>, uuid: string, r: Rule, goal: nat, updates: map<string, string>)
    requires uuid in After(events) && After(events)[uuid] == r && r.revision <= goal
    ensures var more := After(events + Raising(uuid, r.revision, goal, updates));
            uuid in more && more[uuid] == Raised(r, goal, updates)
  {
    if r.revision == goal {
      assert events + [] == events;
    } else {
      var before, last := Raising(uuid, r.revision, goal - 1, updates), Update(uuid, goal - 1, updates);
      RaisingRaises(events, uuid, r, goal - 1, updates);
      RaisedOnce(r, goal, updates);
      OneUpdate(events + before, uuid, goal - 1, updates);
      ConcatAssociates(events, before, [last]);
      assert Raising(uuid, r.revision, goal, updates) == before + [last];
    }
  }

  /** The update after that is accepted. */
  lemma NextWrites(events: seq<Event>, uuid: string, r: Rule, goal: nat, updates: map<string, string>, j: nat)
    requires uuid in After(events) && After(events)[uuid] == r && r.revision <= goal && j == |events| + goal - r.revision
    ensures var more := events + Raising(uuid, r.revision, goal + 1, updates);
            && |more| == j + 1 && Writes(more, j, uuid, goal)
            && uuid in After(more[..j]) && After(more[..j])[uuid] == Raised(r, goal, updates)
  {
    var before, last := Raising(uuid, r.revision, goal, updates), Update(uuid, goal, updates);
    RaisingCount(uuid, r.revision, goal, updates);
    RaisingRaises(events, uuid, r, goal, updates);
    ConcatAssociates(events, before, [last]);
    UpdateWrites(events + before, uuid, goal, updates);
  }

  lemma UpdateWrites(events: seq<Event>, uuid: string, expected: nat, updates: map<string, string>)
    requires uuid in After(events) && After(events)[uuid].revision == expected
    ensures var more := events + [Update(uuid, expected, updates)];
            more[..|events|] == events && Writes(more, |events|, uuid, expected)
  {
    var more := events + [Update(uuid, expected, updates)];
    assert more[..|events|] == events && more[|events|] == Update(uuid, expected, updates);
  }

  lemma {:induction false} RaisingCount(uuid: string, start: nat, goal: nat, updates: map<string, string>)
    requires start <= goal
    ensures |Raising(uuid, start, goal, updates)| == goal - start
  {
    if start < goal {
      RaisingCount(uuid, start, goal - 1, updates);
    }
  }

  // ---- Where a row that is gone was deleted

  lemma {:induction false} WasDeleted(events: seq<Event>, uuid: string) returns (i: nat)
    requires uuid in LastRows(events) && uuid !in After(events)
    ensures i < |events| && uuid in After(events[..i]) && After(events[..i])[uuid] == LastRows(events)[uuid]
    ensures Writes(events, i, uuid, LastRows(events)[uuid].revision)
  {
    var init, n := events[..|events| - 1], |events| - 1;
    if uuid in After(init) {
      i := n;
      StoredIsLast(init, uuid);
    } else {
      i := WasDeleted(init, uuid);
      assert init[..i] == events[..i] && init[i] == events[i];
    }
  }

  // ---- Reads change nothing

  /** The run up to n with a read put in at i, continued with updates. */
  function Watched(events: seq<Event>, i: nat, n: nat, uuid: string, updates: seq<Event>): seq<Event>
    requires i <= n <= |events|
  {
    events[..i] + [Read(uuid)] + events[i..n] + updates
  }

  predicate OnlyUpdates(events: seq<Event>) {
    forall i :: 0 <= i < |events| ==> events[i].Update?
  }

  lemma ReadIsSilent(events: seq<Event>, uuid: string)
    ensures After(events + [Read(uuid)]) == After(events)
    ensures LastRows(events + [Read(uuid)]) == LastRows(events)
    ensures Orderly(events + [Read(uuid)]) <==> Orderly(events)
  {
    OneMore(events, Read(uuid));
    assert LastRows(events) + After(events) == LastRows(events) by {
      forall u | u in After(events) ensures u in LastRows(events) && LastRows(events)[u] == After(events)[u] {
        StoredIsLast(events, u);
      }
    }
  }

  lemma {:induction false} InsertedRead(start: seq<Event>, rest: seq<Event>, uuid: string)
    ensures After(start + [Read(uuid)] + rest) == After(start + rest)
    ensures LastRows(start + [Read(uuid)] + rest) == LastRows(start + rest)
    ensures Orderly(start + [Read(uuid)] + rest) <==> Orderly(start + rest)
  {
    var read := start + [Read(uuid)];
    if rest == [] {
      assert read + rest == read && start + rest == start;
      ReadIsSilent(start, uuid);
    } else {
      var init, last := rest[..|rest| - 1], rest[|rest| - 1];
      SplitLast(rest);
      ConcatAssociates(start, init, [last]);
      ConcatAssociates(read, init, [last]);
      InsertedRead(start, init, uuid);
      OneMore(start + init, last);
      OneMore(read + init, last);
    }
  }

  lemma {:induction false} UpdatesStayOrderly(events: seq<Event>, updates: seq<Event>)
    requires Orderly(events) && OnlyUpdates(updates)
    ensures Orderly(events + updates)
  {
    if updates == [] {
      assert events + updates == events;
    } else {
      var init, last := updates[..|updates| - 1], updates[|updates| - 1];
      UpdatesStayOrderly(events, init);
      SplitLast(updates);
      ConcatAssociates(events, init, [last]);
      OneMore(events + init, last);
    }
  }

  lemma WatchedStaysOrderly(events: seq<Event>, i: nat, n: nat, uuid: string, updates: seq<Event>)
    requires Orderly(events) && i <= n <= |events| && OnlyUpdates(updates)
    ensures Orderly(Watched(events, i, n, uuid, updates))
  {
    OrderlyPrefix(events, n);
    Between(events, i, n);
    InsertedRead(events[..i], events[i..n], uuid);
    UpdatesStayOrderly(events[..i] + [Read(uuid)] + events[i..n], updates);
  }

  // ---- A creation that breaks the order

  predicate BreaksAt(events: seq<Event>, n: nat)
    requires n < |events|
  {
    var r := Created(After(events[..n]), events[n]);
    r.Some? && !Resumes(LastRows(events[..n]), r.value)
  }

  lemma {:induction false} FirstBreak(events: seq<Event>) returns (n: nat)
    requires !Orderly(events)
    ensures n < |events| && BreaksAt(events, n)
  {
    var init := events[..|events| - 1];
    if Orderly(init) {
      n := |events| - 1;
    } else {
      n := FirstBreak(init);
      assert init[..n] == events[..n] && init[n] == events[n];
    }
  }

  /** An update that tells a row from another one. */
  function Telling(r: Rule): map<string, string> {
    map["description" := Column(r, "description") + "x"]
  }

  lemma RaisedDiffers(r: Rule, past: Rule)
    requires r != past && r.revision <= past.revision
    ensures Raised(r, past.revision, Telling(past)) != past
  {
    if r.revision < past.revision {
      var raised := Raised(r, past.revision, Telling(past));
      assert Column(raised, "description") == Column(past, "description") + "x";
    }
  }

  lemma CreatedIsThere(events: seq<Event>, event: Event, r: Rule)
    requires Created(After(events), event) == Some(r)
    ensures r.uuid !in After(events) && r.uuid in After(events + [event]) && After(events + [event])[r.uuid] == r
  {
    OneMore(events, event);
  }

  lemma {:induction false} RaisingUpdates(uuid: string, start: nat, goal: nat, updates: map<string, string>)
    requires start <= goal
    ensures OnlyUpdates(Raising(uuid, start, goal, updates))
  {
    if start < goal {
      RaisingUpdates(uuid, start, goal - 1, updates);
    }
  }

  lemma ReadReply(events: seq<Event>, i: nat, uuid: string, past: Rule)
    requires i < |events| && events[i] == Read(uuid) && uuid in After(events[..i]) && After(events[..i])[uuid] == past
    ensures ReplyAt(events, i) == Success(past)
  {
  }

  lemma Beginning(events: seq<Event>, more: seq<Event>, i: nat)
    requires i < |events|
    ensures (events + more)[..i] == events[..i] && (events + more)[i] == events[i]
  {
  }

  lemma WatchedBeginning(events: seq<Event>, i: nat, n: nat, uuid: string)
    requires i <= n <= |events|
    ensures var start := events[..i] + [Read(uuid)] + events[i..n];
            i < |start| && start[..i] == events[..i] && start[i] == Read(uuid)
  {
  }

  /** A client that read the earlier row overwrites the raised one. */
  lemma RaisedLoses(start: seq<Event>, i: nat, uuid: string, past: Rule, r: Rule)
    requires i < |start| && start[i] == Read(uuid) && uuid in After(start[..i]) && After(start[..i])[uuid] == past
    requires uuid in After(start) && After(start)[uuid] == r && r != past && r.revision <= past.revision
    ensures LosesUpdate(start + Raising(uuid, r.revision, past.revision + 1, Telling(past)))
  {
    var updates, j := Raising(uuid, r.revision, past.revision + 1, Telling(past)), |start| + past.revision - r.revision;
    NextWrites(start, uuid, r, past.revision, Telling(past), j);
    RaisedDiffers(r, past);
    Beginning(start, updates, i);
    ReadReply(start + updates, i, uuid, past);
    assert Loses(start + updates, i, j, uuid);
  }

  /** The deletion that freed the UUID for the creation at n. */
  lemma Freed(events: seq<Event>, n: nat, r: Rule) returns (i: nat)
    requires n < |events| && Created(After(events[..n]), events[n]) == Some(r) && r.uuid in LastRows(events[..n])
    ensures i < n && r.uuid in After(events[..i]) && After(events[..i])[r.uuid] == LastRows(events[..n])[r.uuid]
    ensures Writes(events[..n + 1], i, r.uuid, LastRows(events[..n])[r.uuid].revision)
    ensures r.uuid in After(events[..n + 1]) && After(events[..n + 1])[r.uuid] == r
  {
    PrefixOneMore(events, n);
    CreatedIsThere(events[..n], events[n], r);
    i := WasDeleted(events[..n], r.uuid);
    WriteStays(events[..n], i, r.uuid, LastRows(events[..n])[r.uuid].revision, [events[n]]);
    assert events[..n][..i] == events[..i];
  }

  lemma WatchedLoses(events: seq<Event>, i: nat, n: nat, uuid: string, past: Rule, r: Rule)
    requires i <= n <= |events| && uuid in After(events[..i]) && After(events[..i])[uuid] == past
    requires uuid in After(events[..n]) && After(events[..n])[uuid] == r && r != past && r.revision <= past.revision
    ensures LosesUpdate(Watched(events, i, n, uuid, Raising(uuid, r.revision, past.revision + 1, Telling(past))))
  {
    Between(events, i, n);
    InsertedRead(events[..i], events[i..n], uuid);
    WatchedBeginning(events, i, n, uuid);
    RaisedLoses(events[..i] + [Read(uuid)] + events[i..n], i, uuid, past, r);
  }

  /** After the creation at n, some client's read from before loses to the updates that follow. */
  lemma BreakLoses(events: seq<Event>, n: nat) returns (i: nat, uuid: string, updates: seq<Event>)
    requires n < |events| && BreaksAt(events, n)
    ensures i <= n + 1 && OnlyUpdates(updates) && LosesUpdate(Watched(events, i, n + 1, uuid, updates))
  {
    var r := Created(After(events[..n]), events[n]).value;
    uuid := r.uuid;
    var past := LastRows(events[..n])[uuid];
    i := Freed(events, n, r);
    updates := Raising(uuid, r.revision, past.revision + 1, Telling(past));
    RaisingUpdates(uuid, r.revision, past.revision + 1, Telling(past));
    WatchedLoses(events, i, n + 1, uuid, past, r);
  }

  /** No continuation of any beginning of the run loses an update, wherever a client read. */
  ghost predicate NeverLoses(events: seq<Event>) {
    forall i: nat, n: nat, uuid: string, updates: seq<Event> :: i <= n <= |events| && OnlyUpdates(updates)
      ==> !LosesUpdate(Watched(events, i, n, uuid, updates))
  }

  /**
   * No read can lose to later updates if and only if every creation under a used UUID puts the last row back
   * or starts above its revision.
   */
  lemma NoLostUpdateIff(events: seq<Event>)
    ensures NeverLoses(events) <==> Orderly(events)
  {
    if Orderly(events) {
      forall i: nat, n: nat, uuid: string, updates: seq<Event> | i <= n <= |events| && OnlyUpdates(updates)
        ensures !LosesUpdate(Watched(events, i, n, uuid, updates))
      {
        WatchedStaysOrderly(events, i, n, uuid, updates);
        OrderlyLosesNone(Watched(events, i, n, uuid, updates));
      }
    } else {
      var n := FirstBreak(events);
      var i, uuid, updates := BreakLoses(events, n);
      assert !NeverLoses(events);
    }
  }

  lemma OrderlyLosesNone(events: seq<Event>)
    requires Orderly(events)
    ensures !LosesUpdate(events)
  {
    forall i: nat, j: nat, uuid: string | i < j < |events| ensures !Loses(events, i, j, uuid) {
      NoLostUpdate(events, i, j, uuid);
    }
  }

  // ---- Exactly when a revision has one writer

  predicate FallsAt(events: seq<Event>, n: nat)
    requires n < |events|
  {
    var r := Created(After(events[..n]), events[n]);
    r.Some? && !StartsAbove(LastRows(events[..n]), r.value)
  }

  lemma {:induction false} FirstFall(events: seq<Event>) returns (n: nat)
    requires !Rising(events)
    ensures n < |events| && FallsAt(events, n)
  {
    var init := events[..|events| - 1];
    if Rising(init) {
      n := |events| - 1;
    } else {
      n := FirstFall(init);
      assert init[..n] == events[..n] && init[n] == events[n];
    }
  }

  /** The deletion before the creation at n and an update after it are writes with one revision. */
  lemma FallHasTwoWriters(events: seq<Event>, n: nat) returns (updates: seq<Event>)
    requires n < |events| && FallsAt(events, n)
    ensures OnlyUpdates(updates) && TwoWriters(events[..n + 1] + updates)
  {
    var r := Created(After(events[..n]), events[n]).value;
    var past := LastRows(events[..n])[r.uuid].revision;
    var i := Freed(events, n, r);
    updates := WritesTwice(events[..n + 1], i, r.uuid, r, past);
  }

  lemma WritesTwice(start: seq<Event>, i: nat, uuid: string, r: Rule, past: nat) returns (updates: seq<Event>)
    requires i < |start| && Writes(start, i, uuid, past)
    requires uuid in After(start) && After(start)[uuid] == r && r.revision <= past
    ensures OnlyUpdates(updates) && TwoWriters(start + updates)
  {
    updates := Raising(uuid, r.revision, past + 1, map[]);
    RaisingUpdates(uuid, r.revision, past + 1, map[]);
    var j := |start| + past - r.revision;
    NextWrites(start, uuid, r, past, map[], j);
    WriteStays(start, i, uuid, past, updates);
    assert TwoWrites(start + updates, i, j, uuid, past);
  }

  lemma WriteStays(events: seq<Event>, i: nat, uuid: string, expected: nat, more: seq<Event>)
    requires i < |events| && Writes(events, i, uuid, expected)
    ensures Writes(events + more, i, uuid, expected)
  {
    Beginning(events, more, i);
  }

  /** In no continuation of any beginning of the run do two guarded writes with one revision succeed. */
  ghost predicate OneWriterAlways(events: seq<Event>) {
    forall n: nat, updates: seq<Event> :: n <= |events| && OnlyUpdates(updates) ==> !TwoWriters(events[..n] + updates)
  }

  lemma {:induction false} UpdatesStayRising(events: seq<Event>, updates: seq<Event>)
    requires Rising(events) && OnlyUpdates(updates)
    ensures Rising(events + updates)
  {
    if updates == [] {
      assert events + updates == events;
    } else {
      var init, last := updates[..|updates| - 1], updates[|updates| - 1];
      UpdatesStayRising(events, init);
      SplitLast(updates);
      ConcatAssociates(events, init, [last]);
      OneMore(events + init, last);
    }
  }

  lemma RisingHasOneWriter(events: seq<Event>)
    requires Rising(events)
    ensures !TwoWriters(events)
  {
    forall i: nat, j: nat, uuid: string, expected: nat | i < j < |events| ensures !TwoWrites(events, i, j, uuid, expected) {
      OneWriterPerRevision(events, i, j, uuid, expected);
    }
  }

  /** A revision has one writer at most if and only if every creation under a used UUID starts above its last revision. */
  lemma OneWriterIff(events: seq<Event>)
    ensures OneWriterAlways(events) <==> Rising(events)
  {
    if Rising(events) {
      forall n: nat, updates: seq<Event> | n <= |events| && OnlyUpdates(updates) ensures !TwoWriters(events[..n] + updates) {
        RisingPrefix(events, n);
        UpdatesStayRising(events[..n], updates);
        RisingHasOneWriter(events[..n] + updates);
      }
    } else {
      var n := FirstFall(events);
      var updates := FallHasTwoWriters(events, n);
      assert !OneWriterAlways(events);
    }
  }

  /** Restoring a deleted record as it was keeps every reader safe, and makes its revision usable by a second writer. */
  lemma RestoreIsOrderly(events: seq<Event>, record: Rule, generated: string)
    requires Orderly(events) && record.uuid in LastRows(events) && record.uuid !in After(events)
    requires LastRows(events)[record.uuid] == record && Prepared(Some(record), generated) == Success(record)
    ensures var restored := events + [Event.Create(Some(record), generated)];
            After(restored)[record.uuid] == record && NeverLoses(restored) && !OneWriterAlways(restored)
  {
    OneMore(events, Event.Create(Some(record), generated));
    NoLostUpdateIff(events + [Event.Create(Some(record), generated)]);
    OneWriterIff(events + [Event.Create(Some(record), generated)]);
  }

  /** A creation that brings a deleted record back changed, under its old revision, lets some reader's update be lost. */
  lemma ChangedRestoreLoses(first: Rule, second: Rule)
    requires Prepared(Some(first), "") == Success(first) && Prepared(Some(second), "") == Success(second)
    requires first.uuid == second.uuid && first.revision == second.revision && first != second
    ensures var events := [Event.Create(Some(first), ""), Delete(first.uuid, first.revision), Event.Create(Some(second), "")];
            !Orderly(events) && !NeverLoses(events)
  {
    var create, delete, again := Event.Create(Some(first), ""), Delete(first.uuid, first.revision), Event.Create(Some(second), "");
    OneMore([], create);
    OneMore([create], delete);
    OneMore([create, delete], again);
    assert [] + [create] == [create] && [create] + [delete] == [create, delete];
    assert [create, delete] + [again] == [create, delete, again];
    NoLostUpdateIff([create, delete, again]);
  }
}
