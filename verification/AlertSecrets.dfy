/** The secrets a synchronisation leaves in the table, and the envelopes that the source's checks let pass. */
module AlertSecrets {
  import opened AlertConfigs
  import opened AlertRules
  import opened AlertSyncSpec
  import opened Folds
  import opened Text

  // ---- Base64 texts

  /** The text is the standard base64 encoding of n bytes: groups of four, padded at the end (section 4 of RFC 4648). */
  predicate Encodes(t: string, n: nat) {
    var pads := 3 * (|t| / 4) - n;
    && |t| % 4 == 0 && 0 <= pads <= 2 && PaddedBy(t, pads)
  }

  predicate PaddedBy(t: string, pads: nat) {
    && pads <= |t|
    && (forall i :: 0 <= i < |t| - pads ==> InBase64Alphabet(t[i]))
    && (forall i :: |t| - pads <= i < |t| ==> t[i] == '=')
  }

  lemma SuffixAt(t: string, suffix: string, i: nat)
    requires HasSuffix(t, suffix) && |t| - |suffix| <= i < |t|
    ensures t[i] == suffix[i - (|t| - |suffix|)]
  {
    assert t[|t| - |suffix|..][i - (|t| - |suffix|)] == t[i];
  }

  lemma PadsAreLast(t: string, i: nat)
    requires |t| - Pads(t) <= i < |t|
    ensures t[i] == '='
  {
    SuffixAt(t, if HasSuffix(t, "==") then "==" else "=", i);
  }

  lemma NotPadded(t: string, suffix: string, k: nat)
    requires k < |suffix| <= |t| && InBase64Alphabet(t[|t| - |suffix| + k]) && suffix[k] == '='
    ensures !HasSuffix(t, suffix)
  {
    assert t[|t| - |suffix|..][k] == t[|t| - |suffix| + k];
  }

  lemma TwoPads(t: string)
    requires |t| >= 2 && t[|t| - 2] == '=' && t[|t| - 1] == '='
    ensures Pads(t) == 2
  {
    assert t[|t| - 2..] == "==";
  }

  lemma OnePad(t: string)
    requires |t| >= 1 && t[|t| - 1] == '=' && (|t| >= 2 ==> InBase64Alphabet(t[|t| - 2]))
    ensures Pads(t) == 1
  {
    assert t[|t| - 1..] == "=";
    if |t| >= 2 {
      NotPadded(t, "==", 0);
    }
  }

  lemma NoPad(t: string)
    requires t != "" ==> InBase64Alphabet(t[|t| - 1])
    ensures Pads(t) == 0
  {
    if t != "" {
      NotPadded(t, "=", 0);
    }
    if |t| >= 2 {
      NotPadded(t, "==", 1);
    }
  }

  lemma PadsCount(t: string, pads: nat)
    requires pads <= 2 && PaddedBy(t, pads)
    ensures Pads(t) == pads
  {
    if pads == 2 {
      TwoPads(t);
    } else if pads == 1 {
      OnePad(t);
    } else {
      NoPad(t);
    }
  }

  lemma PadsFit(t: string)
    requires forall c :: c in t[..|t| - Pads(t)] ==> InBase64Alphabet(c)
    ensures PaddedBy(t, Pads(t))
  {
    forall i | 0 <= i < |t| - Pads(t) ensures InBase64Alphabet(t[i]) {
      assert t[..|t| - Pads(t)][i] == t[i];
    }
    forall i | |t| - Pads(t) <= i < |t| ensures t[i] == '=' {
      PadsAreLast(t, i);
    }
  }

  /** The decoder reads n bytes exactly from the encodings of n bytes, with line ends anywhere. */
  lemma DecodedLengthIff(s: string, n: nat)
    ensures DecodedLength(s) == Some(n) <==> Encodes(DropNewlines(s), n)
  {
    var t := DropNewlines(s);
    if DecodedLength(s) == Some(n) {
      PadsFit(t);
    } else if Encodes(t, n) {
      PadsCount(t, 3 * (|t| / 4) - n);
    }
  }

  /** The encoding of 32 bytes at least, in whole blocks of 16. */
  ghost predicate WholeBlocks(encoded: string) {
    exists n: nat :: n >= 32 && n % 16 == 0 && Encodes(DropNewlines(encoded), n)
  }

  /** A secret in one of the two versioned envelopes. */
  ghost predicate Enveloped(secret: string) {
    (HasPrefix(secret, "core:v1:") && WholeBlocks(secret[8..])) || (HasPrefix(secret, "agent:v1:") && WholeBlocks(secret[9..]))
  }

  lemma {:induction false} TrimRightKeepsFirst(s: string)
    requires s != "" && !IsSpace(s[0])
    ensures TrimRight(s) != ""
  {
    if IsSpace(s[|s| - 1]) {
      TrimRightKeepsFirst(s[..|s| - 1]);
    }
  }

  lemma PrefixedIsNotBlank(s: string, prefix: string)
    requires HasPrefix(s, prefix) && prefix != "" && !IsSpace(prefix[0])
    ensures TrimSpace(s) != ""
  {
    PrefixStarts(s, prefix);
    TrimRightKeepsFirst(s);
  }

  lemma EnvelopeChecked(encoded: string)
    ensures CheckEnvelope(encoded).None? <==> WholeBlocks(encoded)
  {
    var length := DecodedLength(encoded);
    if length.Some? {
      DecodedLengthIff(encoded, length.value);
    }
    forall n: nat | Encodes(DropNewlines(encoded), n) ensures length == Some(n) {
      DecodedLengthIff(encoded, n);
    }
  }

  lemma OnePrefix(secret: string)
    requires HasPrefix(secret, "core:v1:")
    ensures !HasPrefix(secret, "agent:v1:")
  {
    PrefixStarts(secret, "core:v1:");
    OtherPrefix(secret, "agent:v1:");
  }

  /** The checks pass exactly the documents of schema version 1 with such an envelope. */
  lemma SecretAcceptedIff(json: Json, config: string, secret: string)
    ensures SecretFault(json, config, secret).None?
            <==> json.schemaVersion(config) == Some(1) && Enveloped(secret)
  {
    if HasPrefix(secret, "core:v1:") {
      PrefixedIsNotBlank(secret, "core:v1:");
      OnePrefix(secret);
      EnvelopeChecked(secret[8..]);
    } else if HasPrefix(secret, "agent:v1:") {
      PrefixedIsNotBlank(secret, "agent:v1:");
      EnvelopeChecked(secret[9..]);
    }
  }

  /** Which error the checks give, the first that applies. */
  lemma SecretFaults(json: Json, config: string, secret: string)
    ensures var fault := SecretFault(json, config, secret);
            var missing, schema := TrimSpace(secret) == "", json.schemaVersion(config) == Some(1);
            var versioned := HasPrefix(secret, "core:v1:") || HasPrefix(secret, "agent:v1:");
            && (fault == Some(SecretMissing) <==> missing)
            && (fault == Some(SchemaNotOne) <==> !missing && !schema)
            && (fault == Some(EnvelopeUnversioned) <==> !missing && schema && !versioned)
            && (fault == Some(EnvelopeInvalid) <==> !missing && schema && versioned && !Enveloped(secret))
  {
    SecretAcceptedIff(json, config, secret);
  }

  /** Configs that decode to one document have one content, whatever blanks surround them; one that does not decode is its own. */
  lemma ContentOf(json: Json, config: string)
    ensures var text, content := TrimSpace(config), StandardRules(json).normalize(config);
            && (text == "" ==> content == "")
            && (text != "" && json.recode(text).Some? ==> content == json.recode(text).value)
            && (text != "" && json.recode(text).None? ==> content == text)
  {
  }

  // ---- What a synchronisation leaves

  /** Custom rows passed the check unless they are disabled; other rows hold no secret. */
  predicate Sealed(rules: Rules, r: AlertConfig) {
    if r.kind != CUSTOM then r.secret == "" else r.status == DISABLE || rules.secretFault(r.config, r.secret).None?
  }

  predicate AllSealed(rules: Rules, rows: seq<AlertConfig>) {
    forall i :: 0 <= i < |rows| ==> Sealed(rules, rows[i])
  }

  lemma InheritSeals(rules: Rules, item: AlertConfig, row: AlertConfig)
    requires Inherit(rules, item, row).Success?
    ensures Sealed(rules, Inherit(rules, item, row).value)
  {
  }

  lemma PrepareSeals(rules: Rules, item: AlertConfig, uuid: Uuid, id: nat)
    requires Prepare(rules, item, uuid).Success?
    ensures Sealed(rules, Prepare(rules, item, uuid).value.(id := id))
  {
  }

  lemma StepSeals(rules: Rules, used: set<nat>, before: seq<AlertConfig>, p: Progress, item: AlertConfig, uuid: Uuid)
    requires AllSealed(rules, p.table.rows) && Step(rules, used, before, p, item, uuid).Success?
    ensures AllSealed(rules, Step(rules, used, before, p, item, uuid).value.table.rows)
  {
    match Landing(rules, used, before, p.placed, item)
    case Some(row) =>
      InheritSeals(rules, item, row);
    case None =>
      PrepareSeals(rules, item, uuid, p.table.nextId);
  }

  lemma RunSeals(rules: Rules, used: set<nat>, before: Table, data: seq<AlertConfig>, uuids: seq<Uuid>, n: nat)
    requires AllSealed(rules, before.rows) && n <= |data| <= |uuids|
    requires Run(rules, used, before, data, uuids, n).Success?
    ensures AllSealed(rules, Run(rules, used, before, data, uuids, n).value.table.rows)
  {
    var step := StepAt(rules, used, before.rows, data, uuids);
    var inv := (p: Progress, i: nat) => AllSealed(rules, p.table.rows);
    forall p, i: nat | i < n && inv(p, i) && step(p, i).Success? ensures inv(step(p, i).value, i + 1) {
      StepSeals(rules, used, before.rows, p, data[i], uuids[i]);
    }
    FoldKeeps(step, Progress(before, []), n, inv);
  }

  lemma {:induction false} SweepSealed(
      rules: Rules, s: seq<AlertConfig>, before: seq<AlertConfig>, used: set<nat>, placed: seq<nat>)
    requires AllSealed(rules, s)
    ensures AllSealed(rules, Sweep(s, before, used, placed))
  {
    if s != [] {
      SweepSealed(rules, s[..|s| - 1], before, used, placed);
    }
  }

  /**
   * A synchronisation of a table whose secrets passed the checks leaves every custom row that is not disabled with a
   * document of schema version 1 and an envelope of whole blocks, and every other row without a secret.
   */
  lemma SyncKeepsSecretsSealed(
      json: Json, used: set<nat>, before: Table, data: seq<AlertConfig>, uuids: seq<Uuid>, r: AlertConfig)
    requires AllSealed(StandardRules(json), before.rows) && |data| <= |uuids|
    requires Sync(StandardRules(json), used, before, data, uuids).Success?
    requires r in Sync(StandardRules(json), used, before, data, uuids).value.rows
    ensures r.kind != CUSTOM ==> r.secret == ""
    ensures r.kind == CUSTOM && r.status != DISABLE
            ==> json.schemaVersion(r.config) == Some(1) && Enveloped(r.secret)
  {
    var rules := StandardRules(json);
    RunSeals(rules, used, before, data, uuids, |data|);
    var p := Run(rules, used, before, data, uuids, |data|).value;
    SweepSealed(rules, p.table.rows, before.rows, used, p.placed);
    SecretAcceptedIff(json, r.config, r.secret);
  }
}
