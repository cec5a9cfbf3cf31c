/** Endpoint paths and the URL that lists a provider's models. */
module Endpoints {
  import opened Text

  datatype ApiType = Completions | Responses | Anthropic | Embeddings | Images | OtherApi

  /** strings.TrimRight(s, "/"). */
  function TrimSlashes(s: string): (r: string)
    ensures r <= s && (r != "" ==> r[|r| - 1] != '/')
  {
    if s != "" && s[|s| - 1] == '/' then TrimSlashes(s[..|s| - 1]) else s
  }

  function Suffixes(api: ApiType): seq<string> {
    match api
    case Completions => ["/chat/completions"]
    case Responses => ["/responses"]
    case Anthropic => ["/v1/messages", "/messages"]
    case Embeddings => ["/v1/embeddings", "/embeddings"]
    case _ => []
  }

  /** The first suffix that the path ends in, whatever its case, is cut off. */
  function CutFirst(path: string, suffixes: seq<string>): string {
    if suffixes == [] then path
    else if HasSuffix(Lower(path), suffixes[0]) then path[..|path| - |suffixes[0]|]
    else CutFirst(path, suffixes[1..])
  }

  function Normalized(api: ApiType, value: string): string {
    CutFirst(TrimSlashes(value), Suffixes(api))
  }

  method NormalizeEndpointPath(api: ApiType, value: string) returns (r: string)
    ensures r == Normalized(api, value)
  {
    var path := TrimSlashes(value);
    if api.Images? {
      return path;
    }
    var suffixes := Suffixes(api);
    for i := 0 to |suffixes|
      invariant CutFirst(path, suffixes) == CutFirst(path, suffixes[i..])
    {
      if HasSuffix(Lower(path), suffixes[i]) {
        return path[..|path| - |suffixes[i]|];
      }
    }
    r := path;
  }

  function AfterLastSlash(value: string): string {
    if value == "" || value[|value| - 1] == '/' then ""
    else AfterLastSlash(value[..|value| - 1]) + [value[|value| - 1]]
  }

  /** strconv.Atoi: an optional sign and digits that fit 64 bits. */
  predicate Atoi(s: string) {
    var negative, digits := s != "" && s[0] == '-', if s != "" && (s[0] == '+' || s[0] == '-') then s[1..] else s;
    && digits != "" && (forall c :: c in digits ==> IsDigit(c))
    && DecimalValue(digits) < 0x8000_0000_0000_0000 + if negative then 1 else 0
  }

  predicate HasVersionSuffix(value: string) {
    var segment := AfterLastSlash(value);
    |segment| >= 2 && segment[0] == 'v' && Atoi(segment[1..])
  }

  function Stripped(base: string): string {
    Normalized(Anthropic, Normalized(Responses, Normalized(Completions, base)))
  }

  function WithModels(base: string): string {
    if HasSuffix(base, "/models") then base
    else if HasVersionSuffix(base) then base + "/models"
    else base + "/v1/models"
  }

  function DiscoveryUrl(baseUrl: string): string {
    WithModels(Stripped(TrimSlashes(TrimSpace(baseUrl))))
  }

  method BuildModelDiscoveryURL(baseUrl: string) returns (url: string)
    ensures url == DiscoveryUrl(baseUrl)
  {
    var base := TrimSlashes(TrimSpace(baseUrl));
    var apis := [Completions, Responses, Anthropic];
    ghost var input := base;
    for i := 0 to |apis|
      invariant i == 0 ==> base == input
      invariant i == 1 ==> base == Normalized(Completions, input)
      invariant i == 2 ==> base == Normalized(Responses, Normalized(Completions, input))
      invariant i == 3 ==> base == Stripped(input)
    {
      base := NormalizeEndpointPath(apis[i], base);
    }
    if HasSuffix(base, "/models") {
      url := base;
    } else if HasVersionSuffix(base) {
      url := base + "/models";
    } else {
      url := base + "/v1/models";
    }
  }

  // ---- Cutting

  lemma {:induction false} CutPrefix(path: string, suffixes: seq<string>)
    ensures CutFirst(path, suffixes) <= path
  {
    if suffixes != [] && !HasSuffix(Lower(path), suffixes[0]) {
      CutPrefix(path, suffixes[1..]);
    }
  }

  lemma NormalizedPrefix(api: ApiType, value: string)
    ensures Normalized(api, value) <= value
  {
    CutPrefix(TrimSlashes(value), Suffixes(api));
  }

  lemma StrippedPrefix(base: string)
    ensures Stripped(base) <= base
  {
    NormalizedPrefix(Completions, base);
    NormalizedPrefix(Responses, Normalized(Completions, base));
    NormalizedPrefix(Anthropic, Normalized(Responses, Normalized(Completions, base)));
  }

  /** A suffix whose last letter but one is different cannot be cut. */
  lemma {:induction false} NothingToCut(path: string, suffixes: seq<string>)
    requires |path| >= 2
    requires forall s :: s in suffixes ==> |s| >= 2 && s[|s| - 2] != LowerChar(path[|path| - 2])
    ensures CutFirst(path, suffixes) == path
  {
    if suffixes != [] {
      var lower, s := Lower(path), suffixes[0];
      assert s in suffixes;
      if |s| <= |path| {
        assert lower[|lower| - |s|..][|s| - 2] == lower[|lower| - 2];
      }
      NothingToCut(path, suffixes[1..]);
    }
  }

  /** No endpoint suffix ends as "/models" does. */
  lemma SuffixLetters(api: ApiType)
    requires api.Completions? || api.Responses? || api.Anthropic?
    ensures forall s :: s in Suffixes(api) ==> |s| >= 2 && s[|s| - 2] != 'l'
  {
    var suffixes := Suffixes(api);
    forall s | s in suffixes ensures |s| >= 2 && s[|s| - 2] != 'l' {
      var i :| 0 <= i < |suffixes| && suffixes[i] == s;
    }
  }

  lemma EndsInModels(url: string)
    requires HasSuffix(url, "/models")
    ensures |url| >= 7 && url[|url| - 2] == 'l' && url[|url| - 1] == 's'
  {
    var tail := url[|url| - 7..];
    assert tail[5] == 'l' && tail[6] == 's';
  }

  lemma ModelsStay(api: ApiType, url: string)
    requires api.Completions? || api.Responses? || api.Anthropic?
    requires HasSuffix(url, "/models")
    ensures Normalized(api, url) == url
  {
    EndsInModels(url);
    SuffixLetters(api);
    NothingToCut(url, Suffixes(api));
  }

  // ---- The discovery URL

  lemma WithModelsEnds(base: string)
    ensures HasSuffix(WithModels(base), "/models")
  {
    var url := WithModels(base);
    if url == base + "/v1/models" {
      assert "/v1/models"[3..] == "/models";
      assert url[|url| - 7..] == "/models";
    }
  }

  lemma WithModelsStarts(base: string)
    requires base == "" || !IsSpace(base[0])
    ensures !IsSpace(WithModels(base)[0])
  {
    if base == "" {
      BlankBase();
    } else {
      assert WithModels(base)[0] == base[0];
    }
  }

  lemma BlankBase()
    ensures WithModels("")[0] == '/'
  {
    assert !HasSuffix("", "/models");
    assert "" + "/models" == "/models" && "" + "/v1/models" == "/v1/models";
  }

  lemma DiscoveryStarts(baseUrl: string)
    ensures var base := Stripped(TrimSlashes(TrimSpace(baseUrl))); base == "" || !IsSpace(base[0])
  {
    var trimmed := TrimSpace(baseUrl);
    StrippedPrefix(TrimSlashes(trimmed));
  }

  /** The discovery URL ends in "/models", and building it again changes nothing. */
  lemma DiscoveryFixpoint(baseUrl: string)
    ensures HasSuffix(DiscoveryUrl(baseUrl), "/models")
    ensures DiscoveryUrl(DiscoveryUrl(baseUrl)) == DiscoveryUrl(baseUrl)
  {
    var base := Stripped(TrimSlashes(TrimSpace(baseUrl)));
    var url := WithModels(base);
    WithModelsEnds(base);
    EndsInModels(url);
    DiscoveryStarts(baseUrl);
    WithModelsStarts(base);
    TrimmedFixed(url);
    ModelsStay(Completions, url);
    ModelsStay(Responses, url);
    ModelsStay(Anthropic, url);
  }

  // ---- Endpoints that verification requests append

  /** The path that a verification request appends to the base. */
  function VerifyEndpoint(api: ApiType): string {
    match api
    case Anthropic => "/v1/messages"
    case Responses => "/responses"
    case _ => "/chat/completions"
  }

  function Slashes(n: nat): string {
    seq(n, i => '/')
  }

  lemma {:induction false} TrimsAll(s: string, n: nat)
    requires s != "" && s[|s| - 1] != '/'
    ensures TrimSlashes(s + Slashes(n)) == s
  {
    if n == 0 {
      assert s + Slashes(0) == s;
    } else {
      assert (s + Slashes(n))[..|s| + n - 1] == s + Slashes(n - 1);
      TrimsAll(s, n - 1);
    }
  }

  predicate LowerEndpoint(e: string) {
    e != "" && e[|e| - 1] != '/' && Lower(e) == e
  }

  lemma CutsAppended(base: string, endpoint: string, rest: seq<string>)
    requires LowerEndpoint(endpoint)
    ensures CutFirst(base + endpoint, [endpoint] + rest) == base
  {
    var path := base + endpoint;
    var lower := Lower(path);
    assert lower[|base|..] == Lower(endpoint);
    assert path[..|path| - |endpoint|] == base;
  }

  /** The endpoint a verification request appends is the first suffix that normalising looks for. */
  lemma EndpointFirst(api: ApiType)
    requires api.Completions? || api.Responses? || api.Anthropic?
    ensures LowerEndpoint(VerifyEndpoint(api)) && Suffixes(api) == [VerifyEndpoint(api)] + Suffixes(api)[1..]
  {
  }

  /** Normalising a verification URL gives the base back, for every base and any number of slashes behind. */
  lemma NormalizingUndoesVerify(api: ApiType, base: string, n: nat)
    requires api.Completions? || api.Responses? || api.Anthropic?
    ensures Normalized(api, base + VerifyEndpoint(api) + Slashes(n)) == base
  {
    EndpointFirst(api);
    TrimsAll(base + VerifyEndpoint(api), n);
    CutsAppended(base, VerifyEndpoint(api), Suffixes(api)[1..]);
  }

  // ---- The same, said of the texts

  /** What is trimmed is slashes, and all of them. */
  lemma {:induction false} TrimSlashesExactly(s: string)
    ensures var r := TrimSlashes(s);
            |r| <= |s| && r == s[..|r|] && (r == "" || r[|r| - 1] != '/') && forall k :: |r| <= k < |s| ==> s[k] == '/'
  {
    if s != "" && s[|s| - 1] == '/' {
      TrimSlashesExactly(s[..|s| - 1]);
    }
  }

  /** The path ends in the suffix, whatever its case. */
  predicate EndsIn(path: string, suffix: string) {
    |suffix| <= |path| && Lower(path[|path| - |suffix|..]) == suffix
  }

  lemma EndsLower(path: string, suffix: string)
    ensures HasSuffix(Lower(path), suffix) <==> EndsIn(path, suffix)
  {
    if |suffix| <= |path| {
      assert Lower(path)[|path| - |suffix|..] == Lower(path[|path| - |suffix|..]);
    }
  }

  /** The suffixes that are looked for, in order. */
  lemma SuffixTable()
    ensures Suffixes(Completions) == ["/chat/completions"] && Suffixes(Responses) == ["/responses"]
    ensures Suffixes(Anthropic) == ["/v1/messages", "/messages"] && Suffixes(Embeddings) == ["/v1/embeddings", "/embeddings"]
    ensures Suffixes(Images) == [] && Suffixes(OtherApi) == []
  {
  }

  lemma CutNext(path: string, suffixes: seq<string>, suffix: string, rest: seq<string>)
    requires suffixes == [suffix] + rest
    ensures CutFirst(path, suffixes) == if EndsIn(path, suffix) then path[..|path| - |suffix|] else CutFirst(path, rest)
  {
    EndsLower(path, suffix);
    assert suffixes[1..] == rest;
  }

  lemma CutOne(path: string, suffix: string)
    ensures CutFirst(path, [suffix]) == if EndsIn(path, suffix) then path[..|path| - |suffix|] else path
  {
    AppendNone([suffix]);
    CutNext(path, [suffix], suffix, []);
  }

  lemma CutTwo(path: string, first: string, second: string)
    ensures CutFirst(path, [first, second])
            == if EndsIn(path, first) then path[..|path| - |first|] else if EndsIn(path, second) then path[..|path| - |second|] else path
  {
    CutOne(path, second);
    CutNext(path, [first, second], first, [second]);
  }

  /** A completions or responses endpoint is cut, whatever its case; of the messages endpoints the longer one first. */
  lemma NormalizedExactly(value: string, path: string)
    requires path == TrimSlashes(value)
    ensures Normalized(Completions, value)
            == if EndsIn(path, "/chat/completions") then path[..|path| - |"/chat/completions"|] else path
    ensures Normalized(Responses, value) == if EndsIn(path, "/responses") then path[..|path| - |"/responses"|] else path
    ensures Normalized(Anthropic, value)
            == if EndsIn(path, "/v1/messages") then path[..|path| - |"/v1/messages"|]
               else if EndsIn(path, "/messages") then path[..|path| - |"/messages"|] else path
    ensures Normalized(OtherApi, value) == path && Normalized(Images, value) == path
  {
    SuffixTable();
    CutOne(path, "/chat/completions");
    CutOne(path, "/responses");
    CutTwo(path, "/v1/messages", "/messages");
  }

  /** The base is a prefix, up to a slash or empty, and a segment of a "v" and a number. */
  ghost predicate VersionAt(base: string, prefix: string, number: string) {
    base == prefix + ("v" + number) && (prefix == "" || prefix[|prefix| - 1] == '/') && Number(number)
  }

  ghost predicate Versioned(base: string) {
    exists prefix, number :: VersionAt(base, prefix, number)
  }

  /** An optional sign and digits of a 64-bit integer. */
  ghost predicate Number(s: string) {
    exists sign, digits :: NumberOf(s, sign, digits)
  }

  predicate NumberOf(s: string, sign: string, digits: string) {
    && s == sign + digits && (sign == "" || sign == "+" || sign == "-") && digits != ""
    && (forall c :: c in digits ==> IsDigit(c))
    && DecimalValue(digits) < 0x8000_0000_0000_0000 + if sign == "-" then 1 else 0
  }

  lemma AtoiIsNumber(s: string)
    requires Atoi(s)
    ensures Number(s)
  {
    if s[0] == '+' || s[0] == '-' {
      assert s == [s[0]] + s[1..];
      assert NumberOf(s, [s[0]], s[1..]);
    } else {
      assert s == "" + s;
      assert NumberOf(s, "", s);
    }
  }

  lemma NumberOfIsAtoi(s: string, sign: string, digits: string)
    requires NumberOf(s, sign, digits)
    ensures Atoi(s)
  {
    if sign == "" {
      assert s == digits && digits[0] in digits;
    } else {
      assert s[1..] == digits && s[0] == sign[0];
    }
  }

  lemma NumberIff(s: string)
    ensures Number(s) <==> Atoi(s)
  {
    if Atoi(s) {
      AtoiIsNumber(s);
    }
    if sign, digits :| NumberOf(s, sign, digits) {
      NumberOfIsAtoi(s, sign, digits);
    }
  }

  /** The last segment is what stands behind the last slash. */
  lemma {:induction false} SegmentExactly(value: string)
    ensures var r := AfterLastSlash(value);
            && |r| <= |value| && r == value[|value| - |r|..] && '/' !in r
            && (|r| < |value| ==> value[|value| - |r| - 1] == '/')
  {
    if value != "" && value[|value| - 1] != '/' {
      var init, last := value[..|value| - 1], value[|value| - 1];
      SegmentExactly(init);
      var start := |init| - |AfterLastSlash(init)|;
      SplitLast(value);
      assert value[start..] == init[start..] + [last];
      if start > 0 {
        assert value[start - 1] == init[start - 1];
      }
    }
  }

  lemma NumberHasNoSlash(s: string)
    requires Number(s)
    ensures '/' !in s && s != ""
  {
    var sign, digits :| NumberOf(s, sign, digits);
    assert '/' !in digits && '/' !in sign;
  }

  lemma {:induction false} SegmentOf(prefix: string, segment: string)
    requires '/' !in segment && (prefix == "" || prefix[|prefix| - 1] == '/')
    ensures AfterLastSlash(prefix + segment) == segment
  {
    if segment == "" {
      AppendNone(prefix);
    } else {
      var n := |segment| - 1;
      SplitLast(segment);
      SegmentOf(prefix, segment[..n]);
      assert (prefix + segment)[..|prefix| + n] == prefix + segment[..n];
      assert segment[n] in segment;
    }
  }

  lemma VersionSegment(prefix: string, number: string)
    requires (prefix == "" || prefix[|prefix| - 1] == '/') && Number(number)
    ensures HasVersionSuffix(prefix + ("v" + number))
  {
    var segment := "v" + number;
    NumberHasNoSlash(number);
    NumberIff(number);
    SegmentOf(prefix, segment);
    assert segment[1..] == number;
  }

  lemma SegmentIsVersion(segment: string)
    requires |segment| >= 2 && segment[0] == 'v' && Atoi(segment[1..])
    ensures segment == "v" + segment[1..] && Number(segment[1..])
  {
    NumberIff(segment[1..]);
  }

  /** Before the last segment there is nothing, or a slash. */
  lemma BeforeSegment(base: string) returns (prefix: string)
    ensures base == prefix + AfterLastSlash(base) && (prefix == "" || prefix[|prefix| - 1] == '/')
  {
    SegmentExactly(base);
    prefix := base[..|base| - |AfterLastSlash(base)|];
  }

  lemma VersionFound(base: string)
    requires HasVersionSuffix(base)
    ensures Versioned(base)
  {
    var segment := AfterLastSlash(base);
    var prefix := BeforeSegment(base);
    SegmentIsVersion(segment);
    assert VersionAt(base, prefix, segment[1..]);
  }

  lemma VersionedIff(base: string)
    ensures HasVersionSuffix(base) <==> Versioned(base)
  {
    if HasVersionSuffix(base) {
      VersionFound(base);
    }
    if prefix, number :| VersionAt(base, prefix, number) {
      VersionSegment(prefix, number);
    }
  }

  /** A base that lists the models is kept; one that ends in a version gets the models path alone, any other a version too. */
  lemma DiscoveryCases(baseUrl: string)
    ensures var base := Normalized(Anthropic, Normalized(Responses, Normalized(Completions, TrimSlashes(TrimSpace(baseUrl)))));
            && (|base| >= 7 && base[|base| - 7..] == "/models" ==> DiscoveryUrl(baseUrl) == base)
            && (!(|base| >= 7 && base[|base| - 7..] == "/models") ==>
                  DiscoveryUrl(baseUrl) == if Versioned(base) then base + "/models" else base + "/v1/models")
  {
    var base := Normalized(Anthropic, Normalized(Responses, Normalized(Completions, TrimSlashes(TrimSpace(baseUrl)))));
    VersionedIff(base);
  }
}
