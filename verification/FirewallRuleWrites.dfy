/** What each call of the rule table reads and writes, column by column. */
module FirewallRuleWrites {
  import opened Text
  import opened FirewallRuleRepo

  /** The columns that an update may not set. */
  predicate Protected(column: string) {
    column == "id" || column == "uuid" || column == "revision" || column == "created_at"
  }

  /** All other rows are as they were. */
  ghost predicate OthersKept(before: Rules, after: Rules, uuid: string) {
    forall other :: other != uuid ==> (other in after <==> other in before) && (other in before ==> after[other] == before[other])
  }

  /** An update that names the row's revision sets the named columns, adds one to the revision, and changes no other row. */
  lemma UpdateExactly(rules: Rules, uuid: string, expected: nat, updates: map<string, string>)
    requires uuid in rules && rules[uuid].revision == expected
    ensures var (after, reply) := Apply(rules, Update(uuid, expected, updates));
            var was := rules[uuid];
            && OthersKept(rules, after, uuid) && uuid in after && reply == Success(after[uuid])
            && after[uuid].uuid == was.uuid && after[uuid].revision == expected + 1
            && (forall c :: c in after[uuid].columns <==> c in was.columns || (c in updates && !Protected(c)))
            && forall c :: c in after[uuid].columns ==>
                 after[uuid].columns[c] == if c in updates && !Protected(c) then updates[c] else was.columns[c]
  {
    assert forall c :: Protected(c) <==> c in GUARDED_COLUMNS;
  }

  /** A deletion that names the row's revision takes that row away and no other. */
  lemma DeleteExactly(rules: Rules, uuid: string, expected: nat)
    requires uuid in rules && rules[uuid].revision == expected
    ensures var (after, reply) := Apply(rules, Delete(uuid, expected));
            OthersKept(rules, after, uuid) && uuid !in after && reply == Success(rules[uuid])
  {
  }

  /** With any other revision, or without the row, nothing is written. */
  lemma ConflictsWriteNothing(rules: Rules, uuid: string, expected: nat, updates: map<string, string>)
    requires !(uuid in rules && rules[uuid].revision == expected)
    ensures Apply(rules, Update(uuid, expected, updates)) == (rules, Failure(RevisionConflict))
    ensures Apply(rules, Delete(uuid, expected)) == (rules, Failure(RevisionConflict))
  {
  }

  lemma ReadExactly(rules: Rules, uuid: string)
    ensures Apply(rules, Read(uuid)) == (rules, if uuid in rules then Success(rules[uuid]) else Failure(NotFound))
  {
  }

  /** The text of a column, empty if it is missing. */
  function TextOf(r: Rule, column: string): string {
    if column in r.columns then r.columns[column] else ""
  }

  predicate Storable(r: Rule) {
    TextOf(r, "family") != "" && TextOf(r, "protocol") != "" && TextOf(r, "action") != ""
  }

  /** The row has the rule's columns, its origin and owner filled in, and a UUID and a revision of its own. */
  ghost predicate StoredAs(row: Rule, r: Rule, generated: string) {
    && row.uuid == (if r.uuid == "" then generated else r.uuid)
    && row.revision == (if r.revision == 0 then 1 else r.revision)
    && TextOf(row, "origin") == (if TextOf(r, "origin") == "" then "created" else TextOf(r, "origin"))
    && TextOf(row, "owner") == (if TextOf(r, "owner") == "" then "user" else TextOf(r, "owner"))
    && forall c :: c != "origin" && c != "owner" ==>
         (c in row.columns <==> c in r.columns) && (c in r.columns ==> row.columns[c] == r.columns[c])
  }

  /** A creation stores exactly this row, unless there is no rule, a column is missing or the UUID is taken. */
  lemma CreateExactly(rules: Rules, rule: Option<Rule>, generated: string)
    ensures var (after, reply) := Apply(rules, Event.Create(rule, generated));
            && (reply == Failure(Invalid) <==> rule.None? || !Storable(rule.value))
            && (reply == Failure(AlreadyExists)
                <==> rule.Some? && Storable(rule.value) && (if rule.value.uuid == "" then generated else rule.value.uuid) in rules)
            && (reply.Failure? ==> (reply.error == Invalid || reply.error == AlreadyExists) && after == rules)
            && (reply.Success? ==>
                  && StoredAs(reply.value, rule.value, generated) && OthersKept(rules, after, reply.value.uuid)
                  && reply.value.uuid in after && after[reply.value.uuid] == reply.value)
  {
  }
}
