/**
 * Result records and their canonical one-line renderings, the colour class of
 * an HTTP status, the throttled progress bar and the text export of a result
 * list. Colours, the console and files are represented by values: a `Color`
 * tag, and the sequence of strings written to the terminal or the file.
 */
module Output {
  import opened Wrappers
  import opened Text

  /** One positive probe outcome. `raw` is its canonical single-line rendering. */
  datatype ScanResult =
    | DnsRecord(subdomain: string, recordType: string, value: string, raw: string)
    | WebHit(url: string, status: int, length: int, redirect: Option<string>, raw: string)
    | VHostHit(vhost: string, status: int, length: int, raw: string)
    | TechHit(url: string, technology: string, version: Option<string>, raw: string)

  const RecordTypeColumn := 5
  const SubdomainColumn := 40

  function Max(a: int, b: int): int { if a < b then b else a }

  /**
   * `format_dns_result`: "[TYPE ] name-padded-to-40 -> value". The columns are
   * padded, never truncated, and the three fields are kept verbatim.
   */
  function FormatDnsResult(subdomain: string, recordType: string, value: string): (r: ScanResult)
    ensures r.DnsRecord? && r.subdomain == subdomain && r.recordType == recordType && r.value == value
    ensures var t := Max(|recordType|, RecordTypeColumn);
            var n := Max(|subdomain|, SubdomainColumn);
            && |r.raw| == 1 + t + 2 + n + 4 + |value|
            && r.raw[0] == '[' && r.raw[1..1 + |recordType|] == recordType
            && (forall i :: 1 + |recordType| <= i < 1 + t ==> r.raw[i] == ' ')
            && r.raw[1 + t..3 + t] == "] "
            && r.raw[3 + t..3 + t + |subdomain|] == subdomain
            && (forall i :: 3 + t + |subdomain| <= i < 3 + t + n ==> r.raw[i] == ' ')
            && r.raw[3 + t + n..] == " -> " + value
  {
    var a := LJust(recordType, RecordTypeColumn);
    var b := LJust(subdomain, SubdomainColumn);
    var raw := "[" + a + "] " + b + " -> " + value;
    DnsLineLayout(a, b, value);
    DnsRecord(subdomain, recordType, value, raw)
  }

  /** Where the pieces of a DNS line sit. */
  lemma DnsLineLayout(a: string, b: string, value: string)
    ensures var raw := "[" + a + "] " + b + " -> " + value;
      && |raw| == 1 + |a| + 2 + |b| + 4 + |value|
      && raw[0] == '[' && raw[1..1 + |a|] == a && raw[1 + |a|..3 + |a|] == "] "
      && raw[3 + |a|..3 + |a| + |b|] == b && raw[3 + |a| + |b|..] == " -> " + value
  {
    var raw := "[" + a + "] " + b + " -> " + value;
    assert raw == "[" + a + "] " + b + (" -> " + value);
  }

  /** The redirect suffix is shown only for a non-empty redirect that differs from the URL. */
  predicate ShowsRedirect(url: string, redirect: Option<string>) {
    redirect.Some? && redirect.value != "" && redirect.value != url
  }

  function StatusLine(status: int, subject: string, length: int): string {
    "[" + IntToString(status) + "] " + subject + " (Length: " + IntToString(length) + ")"
  }

  /** The " -> redirect" suffix of a web line. */
  function RedirectSuffix(url: string, redirect: Option<string>): (suffix: string)
    ensures suffix != "" <==> ShowsRedirect(url, redirect)
    ensures ShowsRedirect(url, redirect) ==> suffix == " -> " + redirect.value
  {
    if ShowsRedirect(url, redirect) then " -> " + redirect.value else ""
  }

  /** `format_web_result`: the status line, then the redirect only when it is shown. */
  function FormatWebResult(url: string, status: int, length: int, redirect: Option<string>): (r: ScanResult)
    ensures r.WebHit? && r.url == url && r.status == status && r.length == length && r.redirect == redirect
    ensures r.raw == StatusLine(status, url, length) + RedirectSuffix(url, redirect)
    ensures StatusTag(r.raw) == Some(status)
  {
    StatusLineTag(status, url, length, RedirectSuffix(url, redirect));
    WebHit(url, status, length, redirect, StatusLine(status, url, length) + RedirectSuffix(url, redirect))
  }

  /** `format_vhost_result`. */
  function FormatVHostResult(vhost: string, status: int, length: int): (r: ScanResult)
    ensures r.VHostHit? && r.vhost == vhost && r.status == status && r.length == length
    ensures r.raw == StatusLine(status, vhost, length)
    ensures StatusTag(r.raw) == Some(status)
  {
    StatusLineTag(status, vhost, length, "");
    assert StatusLine(status, vhost, length) + "" == StatusLine(status, vhost, length);
    VHostHit(vhost, status, length, StatusLine(status, vhost, length))
  }

  /** `format_tech_result`: the " v<version>" part appears only for a non-empty version. */
  function FormatTechResult(url: string, technology: string, version: Option<string>): (r: ScanResult)
    ensures r.TechHit? && r.url == url && r.technology == technology && r.version == version
    ensures (version.Some? && version.value != "") ==> r.raw == "[TECH] " + technology + " v" + version.value + " @ " + url
    ensures !(version.Some? && version.value != "") ==> r.raw == "[TECH] " + technology + " @ " + url
  {
    var versionText := if version.Some? && version.value != "" then " v" + version.value else "";
    TechHit(url, technology, version, "[TECH] " + technology + versionText + " @ " + url)
  }

  /** Reads back the status code between the leading '[' and the first ']' of a line. */
  function StatusTag(raw: string): Option<int> {
    if raw != [] && raw[0] == '[' then ParseInt(Split(raw[1..], ']')[0]) else None
  }

  /** The status code of a web or vhost line can be read back from its line. */
  lemma StatusLineTag(status: int, subject: string, length: int, suffix: string)
    ensures StatusTag(StatusLine(status, subject, length) + suffix) == Some(status)
  {
    var digits := IntToString(status);
    var rest := " " + subject + " (Length: " + IntToString(length) + ")" + suffix;
    var raw := StatusLine(status, subject, length) + suffix;
    assert raw[1..] == digits + [']'] + rest by {
      assert raw == "[" + digits + "]" + rest;
    }
    assert Split(raw[1..], ']')[0] == digits by {
      SplitHead(digits, rest, ']');
    }
    assert ParseInt(digits) == Some(status) by {
      IntToStringRoundTrip(status);
    }
  }

  datatype Color = Green | Cyan | Yellow | Red | White

  /** `get_status_color`: 2xx green, 3xx cyan, 4xx yellow, 5xx red, anything else white. */
  function StatusColor(code: int): (c: Color)
    ensures c == Green <==> 200 <= code < 300
    ensures c == Cyan <==> 300 <= code < 400
    ensures c == Yellow <==> 400 <= code < 500
    ensures c == Red <==> 500 <= code < 600
    ensures c == White <==> code < 200 || 600 <= code
  {
    if 200 <= code < 300 then Green
    else if 300 <= code < 400 then Cyan
    else if 400 <= code < 500 then Yellow
    else if 500 <= code < 600 then Red
    else White
  }

  /** The colour of a status class, given by its hundreds digit. */
  function ClassColor(hundreds: int): Color {
    match hundreds
    case 2 => Green
    case 3 => Cyan
    case 4 => Yellow
    case 5 => Red
    case _ => White
  }

  /** A status code's colour depends only on its class `code / 100`. */
  lemma StatusColorByClass(code: int)
    ensures StatusColor(code) == ClassColor(code / 100)
  {
    var h := code / 100;
    assert 100 * h <= code < 100 * h + 100;
  }

  // ---------------------------------------------------------------- progress

  /** Python's `int(a / b)`: the quotient truncated toward zero. */
  function TruncDiv(a: int, b: int): int
    requires b != 0
  {
    var q := (if a < 0 then -a else a) / (if b < 0 then -b else b);
    if (a < 0) == (b < 0) then q else -q
  }

  /** The integer percentage the bar shows. */
  function Percent(current: int, total: int): int
    requires total != 0
  {
    TruncDiv(current * 100, total)
  }

  /** The number of filled cells. */
  function Filled(width: int, current: int, total: int): int
    requires total != 0
  {
    TruncDiv(width * current, total)
  }

  function Bar(width: int, current: int, total: int): string
    requires total != 0
  {
    var filled := Filled(width, current, total);
    Repeat('█', filled) + Repeat('░', width - filled)
  }

  function BarLine(prefix: string, width: int, current: int, total: int): string
    requires total != 0
  {
    "\r" + prefix + ": [" + Bar(width, current, total) + "] " + IntToString(Percent(current, total))
    + "% (" + IntToString(current) + "/" + IntToString(total) + ")"
  }

  /** `_render` draws only for a non-zero total and a percentage different from the last one drawn. */
  predicate ShouldRender(total: int, current: int, lastPercent: int) {
    total != 0 && Percent(current, total) != lastPercent
  }

  lemma MulMonotone(d: int, a: int, b: int)
    requires d >= 0 && a <= b
    ensures d * a <= d * b
  {
    assert d * b - d * a == d * (b - a);
  }

  /** A quotient of a number between 0 and m*d by d lies between 0 and m. */
  lemma DivBound(x: int, d: int, m: int)
    requires d > 0 && 0 <= x <= m * d
    ensures 0 <= x / d <= m
  {
    var q := x / d;
    assert x == d * q + x % d;
    assert d * (m + 1) == m * d + d;
    if q > m {
      MulMonotone(d, m + 1, q);
      assert false;
    }
  }

  lemma DivMonotone(x: int, y: int, d: int)
    requires 0 <= x <= y && d > 0
    ensures x / d <= y / d
  {
    var qx, qy := x / d, y / d;
    assert x == d * qx + x % d && y == d * qy + y % d;
    assert d * (qy + 1) == d * qy + d;
    if qx > qy {
      MulMonotone(d, qy + 1, qx);
      assert false;
    }
  }

  lemma PercentRange(current: int, total: int)
    requires 0 <= current <= total && total > 0
    ensures 0 <= Percent(current, total) <= 100
  {
    MulMonotone(100, current, total);
    DivBound(current * 100, total, 100);
  }

  lemma PercentMonotone(a: int, b: int, total: int)
    requires 0 <= a <= b && total > 0
    ensures Percent(a, total) <= Percent(b, total)
  {
    MulMonotone(100, a, b);
    DivMonotone(a * 100, b * 100, total);
  }

  /** A fresh bar (last percentage -1) always draws its first render on a non-negative count. */
  lemma FirstRenderFires(current: int, total: int)
    requires total > 0 && current >= 0
    ensures ShouldRender(total, current, -1)
  {
    assert current * 100 >= 0;
  }

  /** Between 0 and the total, the bar has exactly `width` cells, filled and unfilled. */
  lemma BarWidth(width: int, current: int, total: int)
    requires width >= 0 && total > 0 && 0 <= current <= total
    ensures 0 <= Filled(width, current, total) <= width
    ensures |Bar(width, current, total)| == width
  {
    MulMonotone(width, 0, current);
    MulMonotone(width, current, total);
    DivBound(width * current, total, width);
  }

  /**
   * How many of the renders, one after each count in `counts`, actually draw.
   * This is the rule `ProgressBar.Render` follows, as its ensures state: a
   * line is appended exactly when `ShouldRender` holds for the count and the
   * stored percentage, which then becomes `Percent(count, total)`. So for a
   * run of `Update` calls reaching the counts in `counts`, this is the number
   * of lines they append.
   */
  function Renders(total: int, counts: seq<int>, lastPercent: int): nat
  {
    if counts == [] then 0
    else if ShouldRender(total, counts[0], lastPercent) then 1 + Renders(total, counts[1..], Percent(counts[0], total))
    else Renders(total, counts[1..], lastPercent)
  }

  /**
   * Throttling: while the count only grows between 0 and the total, a bar
   * whose last percentage is `lastPercent` draws at most `100 - lastPercent`
   * more times; a fresh bar (-1) draws at most 101 times, however many updates.
   */
  lemma {:induction false} RenderBound(total: int, counts: seq<int>, lastPercent: int)
    requires total > 0 && -1 <= lastPercent <= 100
    requires forall i :: 0 <= i < |counts| ==> 0 <= counts[i] <= total
    requires forall i, j :: 0 <= i < j < |counts| ==> counts[i] <= counts[j]
    requires counts != [] ==> lastPercent <= Percent(counts[0], total)
    ensures Renders(total, counts, lastPercent) <= 100 - lastPercent
  {
    if counts != [] {
      var p := Percent(counts[0], total);
      PercentRange(counts[0], total);
      if |counts| > 1 {
        PercentMonotone(counts[0], counts[1], total);
      }
      RenderBound(total, counts[1..], if p != lastPercent then p else lastPercent);
    }
  }

  /** `ProgressBar`: a count towards a total, drawn only when the integer percentage changes. */
  class ProgressBar {
    const total: int
    const prefix: string
    const width: int
    var current: int
    var lastPercent: int
    /** Everything written to the terminal, in order. */
    var output: seq<string>

    constructor (total: int, prefix: string, width: int)
      ensures this.total == total && this.prefix == prefix && this.width == width
      ensures current == 0 && lastPercent == -1 && output == []
    {
      this.total := total;
      this.prefix := prefix;
      this.width := width;
      current := 0;
      lastPercent := -1;
      output := [];
    }

    /** `update(amount)`. */
    method Update(amount: int)
      modifies this
      ensures current == old(current) + amount
      ensures if ShouldRender(total, current, old(lastPercent))
              then lastPercent == Percent(current, total) && output == old(output) + [BarLine(prefix, width, current, total)]
              else lastPercent == old(lastPercent) && output == old(output)
    {
      current := current + amount;
      Render();
    }

    /** `set(value)`. */
    method Set(value: int)
      modifies this
      ensures current == value
      ensures if ShouldRender(total, current, old(lastPercent))
              then lastPercent == Percent(current, total) && output == old(output) + [BarLine(prefix, width, current, total)]
              else lastPercent == old(lastPercent) && output == old(output)
    {
      current := value;
      Render();
    }

    /** `_render`. */
    method Render()
      modifies this
      ensures current == old(current)
      ensures if ShouldRender(total, current, old(lastPercent))
              then lastPercent == Percent(current, total) && output == old(output) + [BarLine(prefix, width, current, total)]
              else lastPercent == old(lastPercent) && output == old(output)
    {
      if total == 0 {
        return;
      }
      var percent := Percent(current, total);
      if percent == lastPercent {
        return;
      }
      lastPercent := percent;
      output := output + [BarLine(prefix, width, current, total)];
    }

    /** `finish()`: jumps to the total, renders, and ends the line. */
    method Finish()
      modifies this
      ensures current == total
      ensures if ShouldRender(total, total, old(lastPercent))
              then lastPercent == Percent(total, total) && output == old(output) + [BarLine(prefix, width, total, total), "\n"]
              else lastPercent == old(lastPercent) && output == old(output) + ["\n"]
    {
      current := total;
      Render();
      output := output + ["\n"];
    }
  }

  // ------------------------------------------------------------------ export

  predicate Sorted(lines: seq<string>) {
    forall i, j :: 0 <= i < j < |lines| ==> LexLe(lines[i], lines[j])
  }

  function Insert(x: string, lines: seq<string>): (r: seq<string>)
    requires Sorted(lines)
    ensures Sorted(r) && multiset(r) == multiset(lines) + multiset{x}
  {
    if lines == [] then [x]
    else if LexLe(x, lines[0]) then
      assert forall j :: 0 <= j < |lines| ==> LexLe(x, lines[j]) by {
        forall j | 0 <= j < |lines| ensures LexLe(x, lines[j]) {
          if j > 0 { LexLeTransitive(x, lines[0], lines[j]); }
        }
      }
      [x] + lines
    else
      var rest := Insert(x, lines[1..]);
      LexLeTotal(x, lines[0]);
      assert lines == [lines[0]] + lines[1..];
      assert forall j :: 0 <= j < |rest| ==> LexLe(lines[0], rest[j]) by {
        forall j | 0 <= j < |rest| ensures LexLe(lines[0], rest[j]) {
          assert rest[j] in multiset(rest);
          if rest[j] != x {
            assert rest[j] in multiset(lines[1..]);
            var k :| 0 <= k < |lines[1..]| && lines[1..][k] == rest[j];
            assert lines[k + 1] == rest[j];
          }
        }
      }
      [lines[0]] + rest
  }

  /** Python's `sorted` on strings: a sorted permutation. */
  function Sort(lines: seq<string>): (r: seq<string>)
    ensures Sorted(r) && multiset(r) == multiset(lines)
  {
    if lines == [] then []
    else
      assert lines == lines[..|lines| - 1] + [lines[|lines| - 1]];
      Insert(lines[|lines| - 1], Sort(lines[..|lines| - 1]))
  }

  /** The first line of a sorted sequence is at most any of its lines. */
  lemma SortedHead(a: seq<string>, x: string)
    requires Sorted(a) && x in a
    ensures LexLe(a[0], x)
  {
    var i :| 0 <= i < |a| && a[i] == x;
    if i == 0 {
      LexLeReflexive(x);
    }
  }

  /** There is only one sorted arrangement of a multiset of lines. */
  lemma {:induction false} SortedUnique(a: seq<string>, b: seq<string>)
    requires Sorted(a) && Sorted(b) && multiset(a) == multiset(b)
    ensures a == b
  {
    if a != [] {
      assert a[0] in multiset(b) && b[0] in multiset(a);
      SortedHead(b, a[0]);
      SortedHead(a, b[0]);
      LexLeAntisymmetric(a[0], b[0]);
      SameTails(a, b);
      SortedUnique(a[1..], b[1..]);
      assert a == [a[0]] + a[1..] && b == [b[0]] + b[1..];
    }
  }

  lemma SameTails(a: seq<string>, b: seq<string>)
    requires a != [] && b != [] && a[0] == b[0] && multiset(a) == multiset(b)
    ensures multiset(a[1..]) == multiset(b[1..])
  {
    assert a == [a[0]] + a[1..] && b == [b[0]] + b[1..];
    assert multiset(a) == multiset{a[0]} + multiset(a[1..]);
    assert multiset(b) == multiset{b[0]} + multiset(b[1..]);
    forall x ensures multiset(a[1..])[x] == multiset(b[1..])[x] {
      assert multiset(a)[x] == multiset{a[0]}[x] + multiset(a[1..])[x];
      assert multiset(b)[x] == multiset{b[0]}[x] + multiset(b[1..])[x];
    }
  }

  function Raws(results: seq<ScanResult>): (r: seq<string>)
    ensures |r| == |results| && forall i :: 0 <= i < |results| ==> r[i] == results[i].raw
  {
    seq(|results|, i requires 0 <= i < |results| => results[i].raw)
  }

  lemma RawsAppend(a: seq<ScanResult>, b: seq<ScanResult>)
    ensures Raws(a + b) == Raws(a) + Raws(b)
  {
    var l, r := Raws(a + b), Raws(a) + Raws(b);
    assert |l| == |r|;
    forall i | 0 <= i < |l| ensures l[i] == r[i] {
      if i < |a| {
        assert (a + b)[i] == a[i];
      } else {
        assert (a + b)[i] == b[i - |a|];
      }
    }
  }

  /** Reordering the results reorders their lines alike. */
  lemma {:induction false} RawsPermutation(a: seq<ScanResult>, b: seq<ScanResult>)
    requires multiset(a) == multiset(b)
    ensures multiset(Raws(a)) == multiset(Raws(b))
  {
    if a != [] {
      assert a[0] in multiset(b);
      var k :| 0 <= k < |b| && b[k] == a[0];
      var rest := b[..k] + b[k + 1..];
      RemoveOne(a, b, k);
      calc {
        multiset(Raws(a));
        == { RawsFirst(a); }
        multiset([a[0].raw] + Raws(a[1..]));
        == multiset{a[0].raw} + multiset(Raws(a[1..]));
        == { RawsPermutation(a[1..], rest); }
        multiset{b[k].raw} + multiset(Raws(rest));
        == { RawsAround(b, k); }
        multiset(Raws(b));
      }
    }
  }

  /** The first result's line comes first. */
  lemma RawsFirst(a: seq<ScanResult>)
    requires a != []
    ensures Raws(a) == [a[0].raw] + Raws(a[1..])
  {
    assert a == [a[0]] + a[1..];
    RawsAppend([a[0]], a[1..]);
  }

  /** The lines of a sequence are those of the sequence without its k-th result, plus that result's line. */
  lemma RawsAround(b: seq<ScanResult>, k: nat)
    requires k < |b|
    ensures multiset(Raws(b)) == multiset(Raws(b[..k] + b[k + 1..])) + multiset{b[k].raw}
  {
    var left, right := b[..k], b[k + 1..];
    var l, m, r := Raws(left), [b[k].raw], Raws(right);
    assert Raws(b) == l + m + r by {
      assert b == left + [b[k]] + right;
      RawsAppend(left + [b[k]], right);
      RawsAppend(left, [b[k]]);
    }
    assert Raws(left + right) == l + r by {
      RawsAppend(left, right);
    }
    assert multiset(l + m + r) == multiset(l) + multiset(m) + multiset(r);
    assert multiset(l + r) == multiset(l) + multiset(r);
  }

  /** Taking the first element out of a and its copy at k out of b keeps them permutations. */
  lemma RemoveOne<T>(a: seq<T>, b: seq<T>, k: nat)
    requires a != [] && k < |b| && b[k] == a[0] && multiset(a) == multiset(b)
    ensures multiset(a[1..]) == multiset(b[..k] + b[k + 1..])
  {
    assert b == b[..k] + [a[0]] + b[k + 1..];
    assert a == [a[0]] + a[1..];
    assert multiset(b) == multiset(b[..k]) + multiset{a[0]} + multiset(b[k + 1..]);
    assert multiset(a) == multiset{a[0]} + multiset(a[1..]);
    assert multiset(b[..k] + b[k + 1..]) == multiset(b[..k]) + multiset(b[k + 1..]);
    forall x ensures multiset(a[1..])[x] == multiset(b[..k] + b[k + 1..])[x] {
      assert multiset(a)[x] == multiset{a[0]}[x] + multiset(a[1..])[x];
      assert multiset(b)[x] == multiset(b[..k])[x] + multiset{a[0]}[x] + multiset(b[k + 1..])[x];
    }
  }

  /** The body of the text export: every result's line, sorted. */
  function SortedRaws(results: seq<ScanResult>): (r: seq<string>)
    ensures |r| == |results| && Sorted(r) && multiset(r) == multiset(Raws(results))
  {
    var r := Sort(Raws(results));
    assert |r| == |multiset(r)| == |multiset(Raws(results))|;
    r
  }

  /** The exported body does not depend on the order in which results were found. */
  lemma ExportOrderIndependent(a: seq<ScanResult>, b: seq<ScanResult>)
    requires multiset(a) == multiset(b)
    ensures SortedRaws(a) == SortedRaws(b)
  {
    RawsPermutation(a, b);
    SortedUnique(SortedRaws(a), SortedRaws(b));
  }

  /** Lines written one after another, each ended by a newline. */
  function Lines(lines: seq<string>): string {
    if lines == [] then "" else Lines(lines[..|lines| - 1]) + (lines[|lines| - 1] + "\n")
  }

  function MetadataLine(key: string, value: string): string {
    "# " + key + ": " + value + "\n"
  }

  function MetadataLines(metadata: seq<(string, string)>): string {
    if metadata == [] then ""
    else
      var (key, value) := metadata[|metadata| - 1];
      MetadataLines(metadata[..|metadata| - 1]) + MetadataLine(key, value)
  }

  function Opening(date: string): string {
    "# HAWKSHOT Scan Results\n" + "# Date: " + date + "\n"
  }

  function Closing(count: nat): string {
    "# Total results: " + IntToString(count) + "\n" + "#" + Repeat('=', 60) + "\n\n"
  }

  function TextHeader(date: string, metadata: seq<(string, string)>, count: nat): string {
    Opening(date) + MetadataLines(metadata) + Closing(count)
  }

  /**
   * The text branch of `save_results`: a header whose count is the number of
   * results, then each result's line in ascending order. `date` stands for the
   * clock reading the source takes.
   */
  method SaveTextResults(results: seq<ScanResult>, metadata: seq<(string, string)>, date: string)
    returns (content: string)
    ensures content == TextHeader(date, metadata, |results|) + Lines(SortedRaws(results))
  {
    content := WriteMetadata(Opening(date), metadata);
    content := content + Closing(|results|);
    content := WriteLines(content, SortedRaws(results));
  }

  /** Appends one "# key: value" line per metadata entry, in order. */
  method WriteMetadata(prefix: string, metadata: seq<(string, string)>) returns (content: string)
    ensures content == prefix + MetadataLines(metadata)
  {
    content := prefix;
    var m := 0;
    while m < |metadata|
      invariant 0 <= m <= |metadata|
      invariant content == prefix + MetadataLines(metadata[..m])
    {
      var (key, value) := metadata[m];
      var line := MetadataLine(key, value);
      assert metadata[..m + 1][..m] == metadata[..m];
      assert MetadataLines(metadata[..m + 1]) == MetadataLines(metadata[..m]) + line;
      content := content + line;
      m := m + 1;
    }
    assert metadata[..m] == metadata;
  }

  /** Appends each line followed by a newline, in order. */
  method WriteLines(prefix: string, lines: seq<string>) returns (content: string)
    ensures content == prefix + Lines(lines)
  {
    content := prefix;
    var i := 0;
    while i < |lines|
      invariant 0 <= i <= |lines|
      invariant content == prefix + Lines(lines[..i])
    {
      assert lines[..i + 1][..i] == lines[..i];
      assert Lines(lines[..i + 1]) == Lines(lines[..i]) + (lines[i] + "\n");
      content := content + (lines[i] + "\n");
      i := i + 1;
    }
    assert lines[..i] == lines;
  }

  /** Lines(xs) is the newline-join of xs followed by an empty last piece. */
  lemma {:induction false} LinesAsJoin(lines: seq<string>)
    ensures Lines(lines) == Join(lines + [""], '\n')
  {
    if lines != [] {
      var init := lines[..|lines| - 1];
      var last := lines[|lines| - 1];
      LinesAsJoin(init);
      JoinSnoc(init + [""], last);
      assert init + [last] + [""] == lines + [""];
    }
  }

  /** Joining with one more piece after an empty last piece. */
  lemma {:induction false} JoinSnoc(parts: seq<string>, x: string)
    requires |parts| >= 1 && parts[|parts| - 1] == ""
    ensures Join(parts[..|parts| - 1] + [x] + [""], '\n') == Join(parts, '\n') + x + "\n"
  {
    if |parts| == 1 {
      assert parts[..0] + [x] + [""] == [x, ""];
    } else {
      var p := parts[..|parts| - 1] + [x] + [""];
      assert p[1..] == parts[1..][..|parts[1..]| - 1] + [x] + [""];
      JoinSnoc(parts[1..], x);
    }
  }

  /**
   * Export round trip: when no result line holds a newline, the exported body
   * splits back into exactly |results| lines, the sorted result lines, then
   * the empty remainder after the last newline.
   */
  lemma ExportBodyLines(results: seq<ScanResult>)
    requires forall i :: 0 <= i < |results| ==> '\n' !in results[i].raw
    ensures Split(Lines(SortedRaws(results)), '\n') == SortedRaws(results) + [""]
  {
    var sorted := SortedRaws(results);
    LinesAsJoin(sorted);
    forall i | 0 <= i < |sorted + [""]| ensures '\n' !in (sorted + [""])[i] {
      if i < |sorted| {
        assert sorted[i] in multiset(Raws(results));
        var k :| 0 <= k < |Raws(results)| && Raws(results)[k] == sorted[i];
      }
    }
    SplitJoin(sorted + [""], '\n');
  }
}
