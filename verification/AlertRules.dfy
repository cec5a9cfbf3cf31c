/** The checks on the texts of an alert configuration, as the source makes them. */
module AlertRules {
  import opened Text
  import opened AlertConfigs

  /** The JSON decoder: re-encoding of any document, and the schemaVersion field of an object. */
  datatype Json = Json(recode: string -> Option<string>, schemaVersion: string -> Option<int>)

  function StandardRules(json: Json): Rules {
    Rules(config => NormalizeConfig(json, config), (config, secret) => SecretFault(json, config, secret))
  }

  function NormalizeConfig(json: Json, config: string): string {
    var trimmed := TrimSpace(config);
    if trimmed == "" then ""
    else match json.recode(trimmed)
         case None => trimmed
         case Some(text) => text
  }

  predicate InBase64Alphabet(c: char) {
    'A' <= c <= 'Z' || 'a' <= c <= 'z' || '0' <= c <= '9' || c == '+' || c == '/'
  }

  function DropNewlines(s: string): string {
    if s == "" then ""
    else (if s[0] == '\r' || s[0] == '\n' then "" else [s[0]]) + DropNewlines(s[1..])
  }

  function Pads(t: string): (n: nat)
    ensures n <= |t|
  {
    if HasSuffix(t, "==") then 2 else if HasSuffix(t, "=") then 1 else 0
  }

  /** The length of the standard base64 decoding (section 4 of RFC 4648), or None when it is malformed. */
  function DecodedLength(s: string): Option<nat> {
    var t := DropNewlines(s);
    if |t| % 4 == 0 && forall c :: c in t[..|t| - Pads(t)] ==> InBase64Alphabet(c)
    then Some(3 * (|t| / 4) - Pads(t))
    else None
  }

  function CheckEnvelope(encoded: string): Option<SyncError> {
    match DecodedLength(encoded)
    case None => Some(EnvelopeInvalid)
    case Some(n) => if n < 32 || n % 16 != 0 then Some(EnvelopeInvalid) else None
  }

  /** A custom row needs schema version 1 and a secret in one of the two versioned envelopes. */
  function SecretFault(json: Json, config: string, secret: string): Option<SyncError> {
    if TrimSpace(secret) == "" then Some(SecretMissing)
    else if json.schemaVersion(config) != Some(1) then Some(SchemaNotOne)
    else if HasPrefix(secret, "core:v1:") then CheckEnvelope(secret[8..])
    else if HasPrefix(secret, "agent:v1:") then CheckEnvelope(secret[9..])
    else Some(EnvelopeUnversioned)
  }
}
