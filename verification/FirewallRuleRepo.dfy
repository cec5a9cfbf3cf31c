/** The firewall rule table with optimistic revisions. */
module FirewallRuleRepo {
  import opened Text

  /** A row: its primary key, its revision, and every other column by name. */
  datatype Rule = Rule(uuid: string, revision: nat, columns: map<string, string>)

  datatype RepoError = Invalid | AlreadyExists | NotFound | RevisionConflict

  type Rules = map<string, Rule>

  const GUARDED_COLUMNS := {"id", "uuid", "revision", "created_at"}

  function Column(r: Rule, name: string): string {
    if name in r.columns then r.columns[name] else ""
  }

  /** The defaults of a rule that is about to be stored; the nil pointer is None. */
  function Prepared(rule: Option<Rule>, generated: string): Result<Rule, RepoError> {
    if rule.None? then Failure(Invalid)
    else
      var r := rule.value;
      if Column(r, "family") == "" || Column(r, "protocol") == "" || Column(r, "action") == "" then Failure(Invalid)
      else
        var origin := if Column(r, "origin") == "" then "created" else Column(r, "origin");
        var owner := if Column(r, "owner") == "" then "user" else Column(r, "owner");
        Success(Rule(if r.uuid == "" then generated else r.uuid,
                     if r.revision == 0 then 1 else r.revision,
                     r.columns["origin" := origin]["owner" := owner]))
  }

  /** The columns an update may set. */
  function Sanitized(updates: map<string, string>): map<string, string> {
    updates - GUARDED_COLUMNS
  }

  datatype Event =
    | Read(uuid: string)
    | Create(rule: Option<Rule>, generated: string)
    | Update(uuid: string, expected: nat, updates: map<string, string>)
    | Delete(uuid: string, expected: nat)

  /** What the call returns: the row it read or wrote or deleted, or its error. */
  type Reply = Result<Rule, RepoError>

  predicate Matches(rules: Rules, uuid: string, expected: nat) {
    uuid in rules && rules[uuid].revision == expected
  }

  function Updated(r: Rule, updates: map<string, string>): Rule {
    Rule(r.uuid, r.revision + 1, r.columns + Sanitized(updates))
  }

  function Apply(rules: Rules, event: Event): (Rules, Reply) {
    match event
    case Read(uuid) => (rules, if uuid in rules then Success(rules[uuid]) else Failure(NotFound))
    case Create(rule, generated) =>
      (match Prepared(rule, generated)
       case Failure(e) => (rules, Failure(e))
       case Success(r) =>
         if r.uuid in rules then (rules, Failure(AlreadyExists)) else (rules[r.uuid := r], Success(r)))
    case Update(uuid, expected, updates) =>
      if Matches(rules, uuid, expected)
      then (rules[uuid := Updated(rules[uuid], updates)], Success(Updated(rules[uuid], updates)))
      else (rules, Failure(RevisionConflict))
    case Delete(uuid, expected) =>
      if Matches(rules, uuid, expected) then (rules - {uuid}, Success(rules[uuid]))
      else (rules, Failure(RevisionConflict))
  }

  class Repo {
    var rules: Rules

    constructor ()
      ensures rules == map[]
    {
      rules := map[];
    }

    method Create(rule: Option<Rule>, generated: string) returns (reply: Reply)
      modifies this
      ensures (rules, reply) == Apply(old(rules), Event.Create(rule, generated))
    {
      reply := Prepared(rule, generated);
      if reply.Success? {
        if reply.value.uuid in rules {
          return Failure(AlreadyExists);
        }
        rules := rules[reply.value.uuid := reply.value];
      }
    }

    method GetByUuid(uuid: string) returns (reply: Reply)
      ensures (rules, reply) == Apply(rules, Read(uuid))
    {
      reply := if uuid in rules then Success(rules[uuid]) else Failure(NotFound);
    }

    method UpdateWithRevision(uuid: string, expected: nat, updates: map<string, string>) returns (reply: Reply)
      modifies this
      ensures (rules, reply) == Apply(old(rules), Update(uuid, expected, updates))
    {
      var sanitized := Sanitized(updates);
      if uuid !in rules || rules[uuid].revision != expected {
        return Failure(RevisionConflict);
      }
      var row := rules[uuid];
      rules := rules[uuid := row.(columns := row.columns + sanitized, revision := row.revision + 1)];
      reply := Success(rules[uuid]);
    }

    method DeleteWithRevision(uuid: string, expected: nat) returns (reply: Reply)
      modifies this
      ensures (rules, reply) == Apply(old(rules), Delete(uuid, expected))
    {
      if uuid !in rules || rules[uuid].revision != expected {
        return Failure(RevisionConflict);
      }
      reply := Success(rules[uuid]);
      rules := rules - {uuid};
    }
  }
}
