/**
 * The command-line argument validators: each either normalises its argument
 * or rejects it with an error naming the offending value.
 */
module Validators {
  import opened Wrappers
  import opened Text
  import Config

  datatype ValidationError =
    | InvalidDomain(domain: string)
    | InvalidUrl(url: string)
    | ThreadsNotInteger(value: string)
    | ThreadsOutOfRange(threads: int)
    | InvalidRecordType(recordType: string)
    | InvalidStatusCode(code: string)
    | StatusCodeOutOfRange(status: int)

  // ---------------------------------------------------------------- domain

  /** `re.sub(r'^https?://', '', s)`. */
  function StripScheme(s: string): (r: string)
    ensures |r| <= |s| && r == s[|s| - |r|..]
    ensures ':' !in s ==> r == s
  {
    if StartsWith(s, "https://") then
      assert s[..8][5] == ':';
      s[8..]
    else if StartsWith(s, "http://") then
      assert s[..7][4] == ':';
      s[7..]
    else s
  }

  /** `re.sub(r'^www\.', '', s)`. */
  function StripWww(s: string): (r: string)
    ensures |r| <= |s| && r == s[|s| - |r|..]
    ensures !StartsWith(s, "www.") ==> r == s
  {
    if StartsWith(s, "www.") then s[4..] else s
  }

  predicate IsLabelChar(c: char) { IsAsciiAlnum(c) || c == '-' }

  /** `[a-zA-Z0-9]([a-zA-Z0-9-]*[a-zA-Z0-9])?`: alphanumerics and hyphens, no hyphen at either end. */
  predicate IsLabel(l: string) {
    && |l| >= 1 && IsAsciiAlnum(l[0]) && IsAsciiAlnum(l[|l| - 1])
    && forall i :: 0 <= i < |l| ==> IsLabelChar(l[i])
  }

  /** `[a-zA-Z]{2,}`. */
  predicate IsTld(t: string) {
    |t| >= 2 && forall i :: 0 <= i < |t| ==> IsAsciiLetter(t[i])
  }

  /** The whole string is dot-separated labels ending in a top-level domain. */
  predicate IsDomainName(d: string) {
    var parts := Split(d, '.');
    && |parts| >= 2 && IsTld(parts[|parts| - 1])
    && forall i :: 0 <= i < |parts| - 1 ==> IsLabel(parts[i])
  }

  /** `re.match` of the domain pattern, whose final `$` also matches just before a trailing newline. */
  predicate MatchesDomainPattern(d: string) {
    IsDomainName(d) || (|d| > 0 && d[|d| - 1] == '\n' && IsDomainName(d[..|d| - 1]))
  }

  /** `p` is the prefix of `s` that runs up to its first '/' or ':', or all of `s` when it has neither. */
  predicate HostPrefix(s: string, p: string) {
    && |p| <= |s| && p == s[..|p|] && '/' !in p && ':' !in p
    && (|p| < |s| ==> s[|p|] == '/' || s[|p|] == ':')
  }

  /** A string has one host prefix, so `DomainHost` names exactly one host. */
  lemma HostPrefixUnique(s: string, p: string, q: string)
    requires HostPrefix(s, p) && HostPrefix(s, q)
    ensures p == q
  {
    assert forall i :: 0 <= i < |p| ==> p[i] == s[i];
    assert forall i :: 0 <= i < |q| ==> q[i] == s[i];
  }

  /** The host `validate_domain` checks: scheme, path, port and one leading "www." removed, in that order. */
  function DomainHost(domain: string): (h: string)
    ensures '/' !in h && ':' !in h
    ensures exists p :: HostPrefix(StripScheme(domain), p) && h == StripWww(p)
  {
    var noScheme := StripScheme(domain);
    var noPath := Split(noScheme, '/')[0];
    var noPort := Split(noPath, ':')[0];
    SplitAvoids(noPath, ':', '/');
    HostPrefixOfSplits(noScheme, noPath, noPort);
    StripWww(noPort)
  }

  /** Cutting `s` at its first '/' and the rest at its first ':' leaves the host prefix of `s`. */
  lemma HostPrefixOfSplits(s: string, noPath: string, noPort: string)
    requires noPath == Split(s, '/')[0] && noPort == Split(noPath, ':')[0]
    ensures HostPrefix(s, noPort)
  {
    SplitFirstPiece(s, '/');
    SplitFirstPiece(noPath, ':');
    SplitAvoids(noPath, ':', '/');
    assert noPort == s[..|noPort|];
    if |noPort| < |noPath| {
      assert s[|noPort|] == noPath[|noPort|];
    }
  }

  /** `validate_domain`. */
  function ValidateDomain(domain: string): (r: Result<string, ValidationError>)
    ensures r.Success? <==> MatchesDomainPattern(DomainHost(domain))
    ensures r.Failure? ==> r.error == InvalidDomain(DomainHost(domain))
    ensures r.Success? ==> r.value == Lower(DomainHost(domain))
    ensures r.Success? ==>
      && |r.value| == |DomainHost(domain)| && IsLowerCase(r.value) && MatchesDomainPattern(r.value)
      && forall i :: 0 <= i < |r.value| ==> IsLabelChar(r.value[i]) || r.value[i] == '.' || (i == |r.value| - 1 && r.value[i] == '\n')
  {
    var host := DomainHost(domain);
    if MatchesDomainPattern(host) then
      LowerKeepsPattern(host);
      PatternChars(host);
      Success(Lower(host))
    else
      Failure(InvalidDomain(host))
  }

  /** Lower-casing keeps a label a label and a top-level domain a top-level domain. */
  lemma LowerKeepsDomainName(d: string)
    requires IsDomainName(d)
    ensures IsDomainName(Lower(d))
  {
    SplitLower(d, '.');
    var parts, lparts := Split(d, '.'), Split(Lower(d), '.');
    assert |lparts| == |parts|;
    forall i | 0 <= i < |lparts| - 1 ensures IsLabel(lparts[i]) {
      LowerKeepsLabel(parts[i]);
    }
    LowerKeepsTld(parts[|parts| - 1]);
  }

  lemma LowerKeepsLabel(l: string)
    requires IsLabel(l)
    ensures IsLabel(Lower(l))
  {
  }

  lemma LowerKeepsTld(t: string)
    requires IsTld(t)
    ensures IsTld(Lower(t))
  {
  }

  lemma LowerKeepsPattern(d: string)
    requires MatchesDomainPattern(d)
    ensures MatchesDomainPattern(Lower(d))
  {
    if IsDomainName(d) {
      LowerKeepsDomainName(d);
    } else {
      var e := d[..|d| - 1];
      LowerKeepsDomainName(e);
      assert Lower(d)[..|d| - 1] == Lower(e);
    }
  }

  /** Every character of a split piece is a label character. */
  predicate PiecesOfLabelChars(parts: seq<string>) {
    forall i, j :: 0 <= i < |parts| && 0 <= j < |parts[i]| ==> IsLabelChar(parts[i][j])
  }

  /** A string whose pieces are made of label characters is made of those and the separator. */
  lemma {:induction false} SplitChars(s: string)
    requires PiecesOfLabelChars(Split(s, '.'))
    ensures forall k :: 0 <= k < |s| ==> IsLabelChar(s[k]) || s[k] == '.'
  {
    if s != [] {
      var rest := Split(s[1..], '.');
      var parts := Split(s, '.');
      if s[0] == '.' {
        assert parts == [""] + rest;
        assert forall i :: 0 <= i < |rest| ==> rest[i] == parts[i + 1];
      } else {
        assert parts == [[s[0]] + rest[0]] + rest[1..];
        assert IsLabelChar(parts[0][0]);
        assert forall j :: 0 <= j < |rest[0]| ==> rest[0][j] == parts[0][j + 1];
        assert forall i :: 1 <= i < |rest| ==> rest[i] == parts[i];
      }
      SplitChars(s[1..]);
      assert forall k :: 1 <= k < |s| ==> s[k] == s[1..][k - 1];
    }
  }

  lemma DomainNameChars(d: string)
    requires IsDomainName(d)
    ensures forall k :: 0 <= k < |d| ==> IsLabelChar(d[k]) || d[k] == '.'
  {
    var parts := Split(d, '.');
    forall i, j | 0 <= i < |parts| && 0 <= j < |parts[i]| ensures IsLabelChar(parts[i][j]) {
      if i == |parts| - 1 {
        assert IsAsciiLetter(parts[i][j]);
      } else {
        assert IsLabel(parts[i]);
      }
    }
    SplitChars(d);
  }

  lemma PatternChars(d: string)
    requires MatchesDomainPattern(d)
    ensures forall k :: 0 <= k < |d| ==> IsLabelChar(Lower(d)[k]) || Lower(d)[k] == '.' || (k == |d| - 1 && Lower(d)[k] == '\n')
  {
    if IsDomainName(d) {
      DomainNameChars(d);
    } else {
      DomainNameChars(d[..|d| - 1]);
      assert forall k :: 0 <= k < |d| - 1 ==> d[k] == d[..|d| - 1][k];
    }
  }

  /** Cutting at the first "/" and then at the first ":" leaves a host that has neither. */
  lemma CutPathAndPort(host: string, rest: string)
    requires '/' !in host && ':' !in host
    requires rest == [] || rest[0] == '/' || rest[0] == ':'
    ensures Split(Split(host + rest, '/')[0], ':')[0] == host
  {
    SplitPrefix(host, rest, '/');
    if rest == [] || rest[0] == '/' {
      assert Split(rest, '/')[0] == [];
      assert Split(host + rest, '/')[0] == host;
      SplitFree(host, ':');
    } else {
      var q := Split(rest, '/')[0];
      assert q != [] && q[0] == ':';
      SplitPrefix(host, q, ':');
      assert Split(q, ':')[0] == [];
      assert host + [] == host;
    }
  }

  /**
   * A lower-case domain name is given back unchanged whatever scheme, port or
   * path surrounds it, with or without a leading "www.".
   */
  lemma ValidateDomainStripsDecorations(d: string, scheme: string, www: bool, rest: string)
    requires IsDomainName(d) && IsLowerCase(d) && !StartsWith(d, "www.")
    requires scheme == "http://" || scheme == "https://"
    requires rest == [] || rest[0] == '/' || rest[0] == ':'
    ensures ValidateDomain(scheme + (if www then "www." else "") + d + rest) == Success(d)
  {
    var w: string := if www then "www." else "";
    var host := w + d;
    DomainNameChars(d);
    assert '/' !in host && ':' !in host;
    AppendAssoc(scheme, w, d);
    AppendAssoc(scheme, host, rest);
    var input := scheme + (host + rest);
    StripSchemeOf(scheme, host + rest);
    CutPathAndPort(host, rest);
    StripWwwOf(www, d);
    assert DomainHost(input) == d;
    AcceptedHost(input, d);
  }

  /** Either scheme the pattern names is removed, and only it. */
  lemma StripSchemeOf(scheme: string, tail: string)
    requires scheme == "http://" || scheme == "https://"
    ensures StripScheme(scheme + tail) == tail
  {
    var input := scheme + tail;
    assert input[..|scheme|] == scheme;
    assert input[|scheme|..] == tail;
    if scheme == "http://" {
      assert input[4] == ':' && "https://"[4] == 's';
    }
  }

  /** One leading "www." is removed, and nothing else when the rest does not start with another. */
  lemma StripWwwOf(www: bool, d: string)
    requires !StartsWith(d, "www.")
    ensures StripWww((if www then "www." else "") + d) == d
  {
    if www {
      var s := "www." + d;
      assert s[..4] == "www.";
      assert s[4..] == d;
    } else {
      assert [] + d == d;
    }
  }

  /** A lower-case domain name left after normalising is the result. */
  lemma AcceptedHost(domain: string, d: string)
    requires DomainHost(domain) == d && IsDomainName(d) && IsLowerCase(d)
    ensures ValidateDomain(domain) == Success(d)
  {
    LowerFixed(d);
  }

  /** Validating an accepted domain again changes nothing, unless it still begins with "www.". */
  lemma ValidateDomainIdempotent(domain: string)
    requires ValidateDomain(domain).Success? && !StartsWith(ValidateDomain(domain).value, "www.")
    ensures ValidateDomain(ValidateDomain(domain).value) == ValidateDomain(domain)
  {
    var v := ValidateDomain(domain).value;
    assert '/' !in v && ':' !in v;
    SplitFree(v, '/');
    SplitFree(v, ':');
    assert DomainHost(v) == v;
    LowerFixed(v);
  }

  // ------------------------------------------------------------------- url

  predicate HasScheme(url: string) {
    StartsWith(url, "http://") || StartsWith(url, "https://")
  }

  /** The URL with "http://" put in front when it has no scheme. */
  function WithScheme(url: string): (u: string)
    ensures HasScheme(u)
    ensures HasScheme(url) ==> u == url
  {
    if HasScheme(url) then url else "http://" + url
  }

  function SchemeLength(u: string): nat {
    if StartsWith(u, "https://") then 8 else 7
  }

  /**
   * `validate_url`. The pattern is only matched at the start, so a URL is
   * accepted exactly when an ASCII letter or digit follows the scheme; the
   * trailing slashes are then removed.
   */
  function ValidateUrl(url: string): (r: Result<string, ValidationError>)
    ensures var u := WithScheme(url);
      r.Success? <==> |u| > SchemeLength(u) && IsAsciiAlnum(u[SchemeLength(u)])
    ensures r.Failure? ==> r.error == InvalidUrl(WithScheme(url))
    ensures r.Success? ==>
      && HasScheme(r.value) && r.value[|r.value| - 1] != '/' && |r.value| > SchemeLength(r.value)
      && |r.value| <= |WithScheme(url)| && r.value == WithScheme(url)[..|r.value|]
      && forall i :: |r.value| <= i < |WithScheme(url)| ==> WithScheme(url)[i] == '/'
  {
    var u := WithScheme(url);
    var n := SchemeLength(u);
    if |u| > n && IsAsciiAlnum(u[n]) then
      var v := RStripChar(u, '/');
      assert |v| > n;
      assert v[..n] == u[..n];
      Success(v)
    else
      Failure(InvalidUrl(u))
  }

  /** Validating an accepted URL again gives it back. */
  lemma ValidateUrlIdempotent(url: string)
    requires ValidateUrl(url).Success?
    ensures ValidateUrl(ValidateUrl(url).value) == ValidateUrl(url)
  {
    var v := ValidateUrl(url).value;
    var u := WithScheme(url);
    assert v[..SchemeLength(u)] == u[..SchemeLength(u)];
    assert SchemeLength(v) == SchemeLength(u);
    assert WithScheme(v) == v;
    assert RStripChar(v, '/') == v;
  }

  // --------------------------------------------------------------- threads

  /** `validate_threads`: an integer literal in [MIN_THREADS, MAX_THREADS], returned unchanged. */
  function ValidateThreads(value: string): (r: Result<int, ValidationError>)
    ensures ParseInt(value).None? <==> r == Failure(ThreadsNotInteger(value))
    ensures r.Success? ==> ParseInt(value) == Some(r.value) && Config.MinThreads <= r.value <= Config.MaxThreads
    ensures ParseInt(value).Some? && Config.MinThreads <= ParseInt(value).value <= Config.MaxThreads ==>
      r == Success(ParseInt(value).value)
    ensures ParseInt(value).Some? && !(Config.MinThreads <= ParseInt(value).value <= Config.MaxThreads) ==>
      r == Failure(ThreadsOutOfRange(ParseInt(value).value))
  {
    match ParseInt(value)
    case None => Failure(ThreadsNotInteger(value))
    case Some(n) =>
      if Config.MinThreads <= n <= Config.MaxThreads then Success(n) else Failure(ThreadsOutOfRange(n))
  }

  /** Exactly the thread counts 1 to 500 are accepted, each given back as written. */
  lemma ValidateThreadsExact(n: int)
    ensures ValidateThreads(IntToString(n)) ==
      if 1 <= n <= 500 then Success(n) else Failure(ThreadsOutOfRange(n))
  {
    IntToStringRoundTrip(n);
  }

  // ---------------------------------------------------------- record types

  const ValidRecordTypes: set<string> := {"A", "AAAA", "CNAME", "MX", "NS", "TXT", "SOA", "PTR", "SRV", "CAA"}

  /** `validate_record_types`: every type upper-cased and checked; the first unknown one is the error. */
  method ValidateRecordTypes(types: seq<string>) returns (r: Result<seq<string>, ValidationError>)
    ensures r.Success? <==> forall i :: 0 <= i < |types| ==> Upper(types[i]) in ValidRecordTypes
    ensures r.Success? ==>
      |r.value| == |types| && forall i :: 0 <= i < |types| ==> r.value[i] == Upper(types[i]) && r.value[i] in ValidRecordTypes
    ensures r.Failure? ==>
      (exists k :: 0 <= k < |types| && r.error == InvalidRecordType(types[k]) &&
        Upper(types[k]) !in ValidRecordTypes && (forall j :: 0 <= j < k ==> Upper(types[j]) in ValidRecordTypes))
  {
    var result: seq<string> := [];
    for i := 0 to |types|
      invariant |result| == i
      invariant forall j :: 0 <= j < i ==> result[j] == Upper(types[j]) && Upper(types[j]) in ValidRecordTypes
    {
      var upper := Upper(types[i]);
      if upper !in ValidRecordTypes {
        return Failure(InvalidRecordType(types[i]));
      }
      result := result + [upper];
    }
    return Success(result);
  }

  // ---------------------------------------------------------- status codes

  /** One comma-separated field of `validate_status_codes`: a stripped integer in 100..599. */
  function FieldCode(field: string): (r: Result<int, ValidationError>)
    ensures r.Success? ==> 100 <= r.value <= 599
  {
    var code := Strip(field);
    match ParseInt(code)
    case None => Failure(InvalidStatusCode(code))
    case Some(n) => if 100 <= n <= 599 then Success(n) else Failure(StatusCodeOutOfRange(n))
  }

  /** A field is accepted exactly when `int()` reads a code in 100..599 from it; otherwise the error says why. */
  lemma FieldCodeMeaning(field: string)
    ensures FieldCode(field).Success? ==> ParseInt(field) == Some(FieldCode(field).value)
    ensures ParseInt(field).Some? && 100 <= ParseInt(field).value <= 599 ==>
      FieldCode(field) == Success(ParseInt(field).value)
    ensures ParseInt(field).None? <==> FieldCode(field) == Failure(InvalidStatusCode(Strip(field)))
    ensures ParseInt(field).Some? && !(100 <= ParseInt(field).value <= 599) ==>
      FieldCode(field) == Failure(StatusCodeOutOfRange(ParseInt(field).value))
  {
    var code := Strip(field);
    ParseIntStrip(field);
    match ParseInt(field)
    case None =>
      assert FieldCode(field) == Failure(InvalidStatusCode(code));
    case Some(n) =>
      assert FieldCode(field) == if 100 <= n <= 599 then Success(n) else Failure(StatusCodeOutOfRange(n));
  }

  /** What each field parses to, in order, or the error of the first field that does not parse. */
  function ParseAll(fields: seq<string>, parse: string -> Result<int, ValidationError>): (r: Result<seq<int>, ValidationError>)
    ensures r.Success? ==> |r.value| == |fields|
  {
    if fields == [] then Success([])
    else
      match ParseAll(fields[..|fields| - 1], parse)
      case Failure(e) => Failure(e)
      case Success(cs) =>
        match parse(fields[|fields| - 1])
        case Failure(e) => Failure(e)
        case Success(c) => Success(cs + [c])
  }

  /** All fields are accepted exactly when each one is, and then each field's value is in its place. */
  lemma {:induction false} ParseAllMeaning(fields: seq<string>, parse: string -> Result<int, ValidationError>)
    ensures ParseAll(fields, parse).Success? <==> forall i :: 0 <= i < |fields| ==> parse(fields[i]).Success?
    ensures ParseAll(fields, parse).Success? ==>
      forall i :: 0 <= i < |fields| ==> parse(fields[i]) == Success(ParseAll(fields, parse).value[i])
  {
    if fields != [] {
      var init := fields[..|fields| - 1];
      ParseAllMeaning(init, parse);
      assert forall i :: 0 <= i < |init| ==> init[i] == fields[i];
    }
  }

  /** The error reported is that of the first field that fails. */
  lemma {:induction false} ParseAllFirstError(fields: seq<string>, parse: string -> Result<int, ValidationError>, k: nat)
    requires k < |fields| && parse(fields[k]).Failure?
    requires forall j :: 0 <= j < k ==> parse(fields[j]).Success?
    ensures ParseAll(fields, parse) == Failure(parse(fields[k]).error)
  {
    var init := fields[..|fields| - 1];
    if k == |fields| - 1 {
      ParseAllMeaning(init, parse);
      assert forall j :: 0 <= j < |init| ==> init[j] == fields[j];
    } else {
      assert init[k] == fields[k];
      ParseAllFirstError(init, parse, k);
    }
  }

  /** The status codes of the comma-separated fields: each one in 100..599. */
  function StatusCodes(fields: seq<string>): (r: Result<seq<int>, ValidationError>)
    ensures r.Success? ==> |r.value| == |fields| && forall i :: 0 <= i < |r.value| ==> 100 <= r.value[i] <= 599
  {
    var r := ParseAll(fields, FieldCode);
    ParseAllMeaning(fields, FieldCode);
    r
  }

  /** `validate_status_codes`. */
  method ValidateStatusCodes(codes: string) returns (r: Result<seq<int>, ValidationError>)
    ensures r == StatusCodes(Split(codes, ','))
  {
    r := ParseFields(Split(codes, ','), FieldCode);
  }

  /** The loop of `validate_status_codes`: each field parsed in order, stopping at the first error. */
  method ParseFields(fields: seq<string>, parse: string -> Result<int, ValidationError>)
    returns (r: Result<seq<int>, ValidationError>)
    ensures r == ParseAll(fields, parse)
  {
    var result: seq<int> := [];
    for i := 0 to |fields|
      invariant ParseAll(fields[..i], parse) == Success(result)
    {
      assert fields[..i + 1][..i] == fields[..i];
      var code := parse(fields[i]);
      if code.Failure? {
        ParseAllMeaning(fields[..i], parse);
        assert forall j :: 0 <= j < i ==> fields[..i][j] == fields[j];
        ParseAllFirstError(fields, parse, i);
        return Failure(code.error);
      }
      result := result + [code.value];
    }
    assert fields[..|fields|] == fields;
    return Success(result);
  }

  lemma FieldCodeOfCode(n: int)
    requires 100 <= n <= 599
    ensures ',' !in IntToString(n) && FieldCode(IntToString(n)) == Success(n)
  {
    IntToStringRoundTrip(n);
    IntToStringStripped(n);
  }

  /** When every field parses, the parsed values are the result. */
  lemma {:induction false} ParseAllSucceeds(fields: seq<string>, parse: string -> Result<int, ValidationError>, values: seq<int>)
    requires |values| == |fields| && forall i :: 0 <= i < |fields| ==> parse(fields[i]) == Success(values[i])
    ensures ParseAll(fields, parse) == Success(values)
  {
    if fields != [] {
      var n := |fields| - 1;
      assert forall i :: 0 <= i < n ==> fields[..n][i] == fields[i] && values[..n][i] == values[i];
      ParseAllSucceeds(fields[..n], parse, values[..n]);
      assert values[..n] + [values[n]] == values;
    }
  }

  /** Writing codes in 100..599 as a comma-separated list and parsing it gives them back. */
  lemma StatusCodesRoundTrip(codes: seq<int>)
    requires |codes| >= 1 && forall i :: 0 <= i < |codes| ==> 100 <= codes[i] <= 599
    ensures StatusCodes(Split(Join(seq(|codes|, i requires 0 <= i < |codes| => IntToString(codes[i])), ','), ',')) == Success(codes)
  {
    var fields := seq(|codes|, i requires 0 <= i < |codes| => IntToString(codes[i]));
    forall i | 0 <= i < |fields| ensures ',' !in fields[i] && FieldCode(fields[i]) == Success(codes[i]) {
      FieldCodeOfCode(codes[i]);
    }
    SplitJoin(fields, ',');
    ParseAllSucceeds(fields, FieldCode, codes);
  }

  // ------------------------------------------------------------ extensions

  /** One field of `validate_extensions`: stripped, lower-cased, dotted; dropped when empty. */
  function Extension(field: string): (r: Option<string>)
    ensures r.None? <==> Strip(field) == []
    ensures r.Some? ==> |r.value| >= 1 && r.value[0] == '.' && IsLowerCase(r.value)
    ensures r.Some? ==> r.value == (if Lower(Strip(field))[0] == '.' then Lower(Strip(field)) else "." + Lower(Strip(field)))
  {
    var ext := Lower(Strip(field));
    if ext == [] then None
    else
      var e := if ext[0] == '.' then ext else "." + ext;
      DottedLower(ext);
      Some(e)
  }

  /** Putting a dot in front of a lower-case text keeps it lower-case. */
  lemma DottedLower(ext: string)
    requires IsLowerCase(ext)
    ensures IsLowerCase("." + ext)
  {
    var e := "." + ext;
    assert forall i :: 1 <= i < |e| ==> e[i] == ext[i - 1];
  }

  /** The extensions of the non-empty fields, in order. */
  function Extensions(fields: seq<string>): (r: seq<string>)
    ensures |r| <= |fields|
    ensures forall i :: 0 <= i < |r| ==> r[i] != [] && r[i][0] == '.' && IsLowerCase(r[i])
  {
    if fields == [] then []
    else
      var init := Extensions(fields[..|fields| - 1]);
      match Extension(fields[|fields| - 1])
      case None => init
      case Some(e) => init + [e]
  }

  /** `validate_extensions`. */
  method ValidateExtensions(extensions: string) returns (r: seq<string>)
    ensures r == Extensions(Split(extensions, ','))
  {
    var fields := Split(extensions, ',');
    r := [];
    for i := 0 to |fields|
      invariant r == Extensions(fields[..i])
    {
      assert fields[..i + 1][..i] == fields[..i];
      match Extension(fields[i])
      case None =>
      case Some(e) =>
        r := r + [e];
    }
    assert fields[..|fields|] == fields;
  }

  /** What `validate_extensions` itself produces: dotted, lower-case, nothing to strip. */
  predicate IsNormalExtension(e: string) {
    |e| >= 1 && e[0] == '.' && IsLowerCase(e) && Strip(e) == e
  }

  lemma ExtensionFixed(e: string)
    requires IsNormalExtension(e)
    ensures Extension(e) == Some(e)
  {
    LowerFixed(e);
  }

  lemma {:induction false} ExtensionsFixed(exts: seq<string>)
    requires forall i :: 0 <= i < |exts| ==> IsNormalExtension(exts[i])
    ensures Extensions(exts) == exts
  {
    if exts != [] {
      var init, e := exts[..|exts| - 1], exts[|exts| - 1];
      assert forall i :: 0 <= i < |init| ==> init[i] == exts[i];
      ExtensionsFixed(init);
      ExtensionFixed(e);
      LastSplit(exts);
    }
  }

  /** A normalised extension list written out comma-separated normalises to itself. */
  lemma ExtensionsRoundTrip(exts: seq<string>)
    requires |exts| >= 1
    requires forall i :: 0 <= i < |exts| ==> IsNormalExtension(exts[i]) && ',' !in exts[i]
    ensures Extensions(Split(Join(exts, ','), ',')) == exts
  {
    SplitJoin(exts, ',');
    ExtensionsFixed(exts);
  }
}
