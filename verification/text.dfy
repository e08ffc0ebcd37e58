/**
 * String operations of Python's `str` that the scanner relies on, written out
 * over `seq<char>`: whitespace stripping, splitting and joining, replacement,
 * ASCII case mapping, `int()` parsing, `str()` of an integer, `ljust` and
 * code-point ordering.
 */
module Text {
  import opened Wrappers

  /** The characters for which Python's `str.isspace()` holds. */
  predicate IsSpace(c: char) {
    c == ' ' || ('\t' <= c <= '\r') || ('\U{1C}' <= c <= '\U{1F}') || c == '\U{85}' || c == '\U{A0}'
    || c == '\U{1680}' || ('\U{2000}' <= c <= '\U{200A}') || c == '\U{2028}' || c == '\U{2029}'
    || c == '\U{202F}' || c == '\U{205F}' || c == '\U{3000}'
  }

  predicate IsDigit(c: char) { '0' <= c <= '9' }

  predicate IsAsciiLetter(c: char) { ('a' <= c <= 'z') || ('A' <= c <= 'Z') }

  /** The regular-expression class `[a-zA-Z0-9]`. */
  predicate IsAsciiAlnum(c: char) { IsAsciiLetter(c) || IsDigit(c) }

  predicate StartsWith(s: string, prefix: string) {
    |prefix| <= |s| && s[..|prefix|] == prefix
  }

  /** `s.lstrip()`: drops leading whitespace and nothing else. */
  function LStrip(s: string): (r: string)
    ensures |r| <= |s| && r == s[|s| - |r|..]
    ensures forall i :: 0 <= i < |s| - |r| ==> IsSpace(s[i])
    ensures r == [] || !IsSpace(r[0])
  {
    if |s| > 0 && IsSpace(s[0]) then
      var r := LStrip(s[1..]);
      SuffixOfTail(s, r);
      r
    else s
  }

  /** `s.rstrip()`: drops trailing whitespace and nothing else. */
  function RStrip(s: string): (r: string)
    ensures |r| <= |s| && r == s[..|r|]
    ensures forall i :: |r| <= i < |s| ==> IsSpace(s[i])
    ensures r == [] || !IsSpace(r[|r| - 1])
  {
    if |s| > 0 && IsSpace(s[|s| - 1]) then RStrip(s[..|s| - 1]) else s
  }

  /** `r` is the slice of `s` starting at `k`, and everything of `s` outside that slice is whitespace. */
  predicate TrimmedAt(s: string, k: int, r: string) {
    && 0 <= k <= |s| - |r| && r == s[k..k + |r|]
    && (forall i :: 0 <= i < k ==> IsSpace(s[i]))
    && (forall i :: k + |r| <= i < |s| ==> IsSpace(s[i]))
  }

  /**
   * `s.strip()`: the run of `s` between its leading and its trailing
   * whitespace; everything cut off on either side is whitespace.
   */
  function Strip(s: string): (r: string)
    ensures r == [] || (!IsSpace(r[0]) && !IsSpace(r[|r| - 1]))
    ensures TrimmedAt(s, |s| - |LStrip(s)|, r)
  {
    StripSlice(s);
    RStrip(LStrip(s))
  }

  lemma StripSlice(s: string)
    ensures TrimmedAt(s, |s| - |LStrip(s)|, RStrip(LStrip(s)))
  {
    TrimmedFrom(s, LStrip(s), RStrip(LStrip(s)));
  }

  /** Whitespace cut from the front of `s` leaves `l`; whitespace cut from the back of `l` leaves `r`. */
  lemma TrimmedFrom(s: string, l: string, r: string)
    requires |l| <= |s| && l == s[|s| - |l|..] && forall i :: 0 <= i < |s| - |l| ==> IsSpace(s[i])
    requires |r| <= |l| && r == l[..|r|] && forall i :: |r| <= i < |l| ==> IsSpace(l[i])
    ensures TrimmedAt(s, |s| - |l|, r)
  {
    var k := |s| - |l|;
    PrefixOfSuffix(s, l, r);
    forall i | k + |r| <= i < |s| ensures IsSpace(s[i]) {
      assert s[i] == l[i - k];
    }
  }

  /** A string whose ends are not whitespace is its own strip; hence strip is idempotent. */
  lemma StripFixed(s: string)
    requires s == [] || (!IsSpace(s[0]) && !IsSpace(s[|s| - 1]))
    ensures Strip(s) == s
  {
  }

  /** A character absent from a string is absent from each of its slices. */
  lemma SliceAvoids(s: string, i: int, j: int, c: char)
    requires 0 <= i <= j <= |s| && c !in s
    ensures c !in s[i..j]
  {
  }

  /** Stripping only removes characters. */
  lemma StripAvoids(s: string, c: char)
    requires c !in s
    ensures c !in Strip(s)
  {
    var l := LStrip(s);
    SliceAvoids(s, |s| - |l|, |s|, c);
    SliceAvoids(l, 0, |RStrip(l)|, c);
  }

  lemma StripIdempotent(s: string)
    ensures Strip(Strip(s)) == Strip(s)
  {
    StripFixed(Strip(s));
  }

  /** `s.rstrip(c)` for a single character `c`. */
  function RStripChar(s: string, c: char): (r: string)
    ensures |r| <= |s| && r == s[..|r|]
    ensures forall i :: |r| <= i < |s| ==> s[i] == c
    ensures r == [] || r[|r| - 1] != c
  {
    if |s| > 0 && s[|s| - 1] == c then RStripChar(s[..|s| - 1], c) else s
  }

  function LowerChar(c: char): char {
    if 'A' <= c <= 'Z' then (c as int + 32) as char else c
  }

  function UpperChar(c: char): char {
    if 'a' <= c <= 'z' then (c as int - 32) as char else c
  }

  predicate IsLowerCase(s: string) {
    forall i :: 0 <= i < |s| ==> !('A' <= s[i] <= 'Z')
  }

  /** `s.lower()` on the ASCII letters: each upper-case letter becomes its lower-case one, 32 code points on. */
  function Lower(s: string): (r: string)
    ensures |r| == |s| && IsLowerCase(r)
    ensures forall i :: 0 <= i < |s| && 'A' <= s[i] <= 'Z' ==> 'a' <= r[i] <= 'z' && r[i] as int == s[i] as int + 32
    ensures forall i :: 0 <= i < |s| && !('A' <= s[i] <= 'Z') ==> r[i] == s[i]
  {
    seq(|s|, i requires 0 <= i < |s| => LowerChar(s[i]))
  }

  /** `s.upper()` on the ASCII letters: each lower-case letter becomes its upper-case one, 32 code points back. */
  function Upper(s: string): (r: string)
    ensures |r| == |s|
    ensures forall i :: 0 <= i < |s| ==> !('a' <= r[i] <= 'z')
    ensures forall i :: 0 <= i < |s| && 'a' <= s[i] <= 'z' ==> 'A' <= r[i] <= 'Z' && r[i] as int == s[i] as int - 32
    ensures forall i :: 0 <= i < |s| && !('a' <= s[i] <= 'z') ==> r[i] == s[i]
  {
    seq(|s|, i requires 0 <= i < |s| => UpperChar(s[i]))
  }

  lemma LowerFixed(s: string)
    requires IsLowerCase(s)
    ensures Lower(s) == s
  {
  }

  /** `sep.join(parts)`. */
  function Join(parts: seq<string>, sep: char): string
    requires |parts| >= 1
  {
    if |parts| == 1 then parts[0] else parts[0] + [sep] + Join(parts[1..], sep)
  }

  /** A character other than the separator occurs in a join only if it occurs in a part. */
  lemma {:induction false} JoinAvoids(parts: seq<string>, sep: char, c: char)
    requires |parts| >= 1 && c != sep
    requires forall i :: 0 <= i < |parts| ==> c !in parts[i]
    ensures c !in Join(parts, sep)
  {
    if |parts| > 1 {
      JoinAvoids(parts[1..], sep, c);
    }
  }

  /** `s.split(sep)` for a one-character separator. */
  function Split(s: string, sep: char): (parts: seq<string>)
    ensures |parts| >= 1
    ensures forall i :: 0 <= i < |parts| ==> sep !in parts[i]
  {
    if s == [] then [""]
    else
      var rest := Split(s[1..], sep);
      if s[0] == sep then [""] + rest else [[s[0]] + rest[0]] + rest[1..]
  }

  /** The first piece of a split is the prefix of `s` that runs up to the first separator, or all of `s`. */
  lemma {:induction false} SplitFirstPiece(s: string, sep: char)
    ensures |Split(s, sep)[0]| <= |s| && Split(s, sep)[0] == s[..|Split(s, sep)[0]|]
    ensures |Split(s, sep)[0]| < |s| ==> s[|Split(s, sep)[0]|] == sep
  {
    if s != [] && s[0] != sep {
      SplitFirstPiece(s[1..], sep);
    }
  }

  /** A character absent from a string is absent from every piece of its split. */
  lemma {:induction false} SplitAvoids(s: string, sep: char, c: char)
    requires c !in s
    ensures forall i :: 0 <= i < |Split(s, sep)| ==> c !in Split(s, sep)[i]
  {
    if s != [] {
      SplitAvoids(s[1..], sep, c);
    }
  }

  /** The first piece of a split extends across a separator-free head. */
  lemma {:induction false} SplitPrefix(head: string, tail: string, sep: char)
    requires sep !in head
    ensures Split(head + tail, sep)[0] == head + Split(tail, sep)[0]
  {
    if head != [] {
      assert (head + tail)[1..] == head[1..] + tail;
      SplitPrefix(head[1..], tail, sep);
      assert [head[0]] + head[1..] == head;
    } else {
      assert head + tail == tail;
    }
  }

  /** Lower-casing commutes with splitting on a character that is not a letter. */
  lemma {:induction false} SplitLower(s: string, sep: char)
    requires !IsAsciiLetter(sep)
    ensures |Split(Lower(s), sep)| == |Split(s, sep)|
    ensures forall i :: 0 <= i < |Split(s, sep)| ==> Split(Lower(s), sep)[i] == Lower(Split(s, sep)[i])
  {
    if s != [] {
      var l := Lower(s);
      SplitLower(s[1..], sep);
      LowerHead(s);
      var rest, lrest := Split(s[1..], sep), Split(l[1..], sep);
      assert LowerEach(rest, lrest);
      if s[0] == sep {
        assert Split(l, sep) == [""] + lrest;
        assert Split(s, sep) == [""] + rest;
        LowerEachCons("", rest, lrest);
      } else {
        assert Split(l, sep) == [[l[0]] + lrest[0]] + lrest[1..];
        assert Split(s, sep) == [[s[0]] + rest[0]] + rest[1..];
        LowerCons(s[0], rest[0]);
        LowerEachTail(rest, lrest);
        LowerEachCons([s[0]] + rest[0], rest[1..], lrest[1..]);
      }
      assert LowerEach(Split(s, sep), Split(l, sep));
    }
  }

  /** `b` is `a` with each piece lower-cased. */
  predicate LowerEach(a: seq<string>, b: seq<string>) {
    |a| == |b| && forall i :: 0 <= i < |a| ==> b[i] == Lower(a[i])
  }

  lemma LowerEachCons(x: string, a: seq<string>, b: seq<string>)
    requires LowerEach(a, b)
    ensures LowerEach([x] + a, [Lower(x)] + b)
  {
    forall i | 1 <= i < |a| + 1 ensures ([Lower(x)] + b)[i] == Lower(([x] + a)[i]) {
      assert ([Lower(x)] + b)[i] == b[i - 1] && ([x] + a)[i] == a[i - 1];
    }
  }

  lemma LowerEachTail(a: seq<string>, b: seq<string>)
    requires LowerEach(a, b) && a != []
    ensures b[0] == Lower(a[0]) && LowerEach(a[1..], b[1..])
  {
    forall i | 0 <= i < |a| - 1 ensures b[1..][i] == Lower(a[1..][i]) {
      assert b[1..][i] == b[i + 1] && a[1..][i] == a[i + 1];
    }
  }

  /** The first character and the rest of a lower-cased string. */
  lemma LowerHead(s: string)
    requires s != []
    ensures Lower(s)[0] == LowerChar(s[0]) && Lower(s)[1..] == Lower(s[1..])
  {
  }

  lemma LowerCons(c: char, t: string)
    ensures Lower([c] + t) == [LowerChar(c)] + Lower(t)
  {
  }

  /** Joining the pieces of a split with the separator gives back the string. */
  lemma {:induction false} JoinSplit(s: string, sep: char)
    ensures Join(Split(s, sep), sep) == s
  {
    if s != [] {
      var rest := Split(s[1..], sep);
      JoinSplit(s[1..], sep);
      if s[0] == sep {
        assert Split(s, sep) == [""] + rest;
        assert ([""] + rest)[1..] == rest;
      } else {
        var parts := [[s[0]] + rest[0]] + rest[1..];
        assert Split(s, sep) == parts;
        if |rest| == 1 {
          assert Join(parts, sep) == [s[0]] + rest[0];
        } else {
          assert parts[1..] == rest[1..];
          assert Join(parts, sep) == [s[0]] + rest[0] + [sep] + Join(rest[1..], sep);
        }
      }
    }
  }

  /** Splitting a join of separator-free pieces gives back the pieces. */
  lemma {:induction false} SplitJoin(parts: seq<string>, sep: char)
    requires |parts| >= 1
    requires forall i :: 0 <= i < |parts| ==> sep !in parts[i]
    ensures Split(Join(parts, sep), sep) == parts
  {
    if |parts| == 1 {
      SplitFree(parts[0], sep);
    } else {
      SplitJoin(parts[1..], sep);
      SplitHead(parts[0], Join(parts[1..], sep), sep);
      assert [parts[0]] + parts[1..] == parts;
    }
  }

  lemma {:induction false} SplitFree(s: string, sep: char)
    requires sep !in s
    ensures Split(s, sep) == [s]
  {
    if s != [] {
      SplitFree(s[1..], sep);
      assert [s[0]] + s[1..] == s;
    }
  }

  /** The first piece of a split ends at the first separator. */
  lemma {:induction false} SplitHead(head: string, tail: string, sep: char)
    requires sep !in head
    ensures Split(head + [sep] + tail, sep) == [head] + Split(tail, sep)
  {
    if head == [] {
      assert [sep] + tail == ([] + [sep] + tail);
      assert ([sep] + tail)[1..] == tail;
    } else {
      var s := head + [sep] + tail;
      assert s[1..] == head[1..] + [sep] + tail;
      SplitHead(head[1..], tail, sep);
      assert [head[0]] + head[1..] == head;
    }
  }

  /** `s.replace(pattern, replacement)`: left to right, non-overlapping. */
  function ReplaceAll(s: string, pattern: string, replacement: string): string
    requires |pattern| > 0
    decreases |s|
  {
    if |s| < |pattern| then s
    else if s[..|pattern|] == pattern then replacement + ReplaceAll(s[|pattern|..], pattern, replacement)
    else [s[0]] + ReplaceAll(s[1..], pattern, replacement)
  }

  /** Replacing one character by another rewrites exactly the positions holding it. */
  lemma {:induction false} ReplaceChar(s: string, c: char, d: char)
    ensures |ReplaceAll(s, [c], [d])| == |s|
    ensures forall i :: 0 <= i < |s| ==> ReplaceAll(s, [c], [d])[i] == (if s[i] == c then d else s[i])
  {
    if |s| > 0 {
      ReplaceChar(s[1..], c, d);
      assert s[..1] == [s[0]];
    }
  }

  /** A string with no occurrence of the pattern's first character is left alone. */
  lemma {:induction false} ReplaceAbsent(s: string, pattern: string, replacement: string)
    requires |pattern| > 0 && pattern[0] !in s
    ensures ReplaceAll(s, pattern, replacement) == s
  {
    if |s| >= |pattern| {
      assert s[..|pattern|][0] == s[0];
      ReplaceAbsent(s[1..], pattern, replacement);
      assert [s[0]] + s[1..] == s;
    }
  }

  /** Replacing a pattern never lengthens a string when the replacement is not longer. */
  lemma {:induction false} ReplaceShrinks(s: string, pattern: string, replacement: string)
    requires 0 < |pattern| && |replacement| <= |pattern|
    ensures |ReplaceAll(s, pattern, replacement)| <= |s|
  {
    if |s| >= |pattern| {
      if s[..|pattern|] == pattern {
        ReplaceShrinks(s[|pattern|..], pattern, replacement);
      } else {
        ReplaceShrinks(s[1..], pattern, replacement);
      }
    }
  }

  function DigitChar(d: nat): (c: char)
    requires d < 10
    ensures IsDigit(c)
  {
    ('0' as int + d) as char
  }

  function DigitValue(c: char): nat
    requires IsDigit(c)
  {
    c as int - '0' as int
  }

  /** `str(n)` for a non-negative integer: decimal, no leading zero. */
  function NatToString(n: nat): (r: string)
    ensures |r| >= 1 && (forall i :: 0 <= i < |r| ==> IsDigit(r[i]))
    ensures r[0] == '0' ==> n == 0
  {
    if n < 10 then [DigitChar(n)] else NatToString(n / 10) + [DigitChar(n % 10)]
  }

  /** `str(n)` for any integer. */
  function IntToString(n: int): (r: string)
    ensures |r| >= 1 && (forall i :: 0 <= i < |r| ==> IsDigit(r[i]) || r[i] == '-')
  {
    if n < 0 then "-" + NatToString(-n) else NatToString(n)
  }

  /** The digit groups accepted by `int()`: digits, single underscores between them. */
  predicate IsIntLiteral(b: string) {
    && |b| > 0 && IsDigit(b[0]) && IsDigit(b[|b| - 1])
    && (forall i :: 0 <= i < |b| ==> IsDigit(b[i]) || b[i] == '_')
    && (forall i :: 0 <= i < |b| - 1 ==> b[i] == '_' ==> b[i + 1] != '_')
  }

  /** The value of a digit string, underscores skipped. */
  function LiteralValue(b: string): nat
    requires forall i :: 0 <= i < |b| ==> IsDigit(b[i]) || b[i] == '_'
  {
    if b == [] then 0
    else if b[|b| - 1] == '_' then LiteralValue(b[..|b| - 1])
    else LiteralValue(b[..|b| - 1]) * 10 + DigitValue(b[|b| - 1])
  }

  /** `int(s)` in base ten: surrounding whitespace, an optional sign, then a digit literal. */
  function ParseInt(s: string): Option<int>
  {
    ParseSigned(Strip(s))
  }

  /** An optional sign followed by a digit literal, nothing else. */
  function ParseSigned(t: string): Option<int>
  {
    if t != [] && (t[0] == '+' || t[0] == '-') then
      var b := t[1..];
      if IsIntLiteral(b) then
        var v: int := LiteralValue(b);
        Some(if t[0] == '-' then -v else v)
      else None
    else if IsIntLiteral(t) then Some(LiteralValue(t))
    else None
  }

  /** `int()` strips its argument itself, so stripping first changes nothing. */
  lemma ParseIntStrip(s: string)
    ensures ParseInt(Strip(s)) == ParseInt(s)
  {
    StripIdempotent(s);
  }

  lemma {:induction false} NatToStringValue(n: nat)
    ensures IsIntLiteral(NatToString(n)) && LiteralValue(NatToString(n)) == n
  {
    if n >= 10 {
      NatToStringValue(n / 10);
      var r := NatToString(n);
      assert r[..|r| - 1] == NatToString(n / 10);
    }
  }

  /** A decimal string needs no stripping. */
  lemma {:induction false} IntToStringStripped(n: int)
    ensures Strip(IntToString(n)) == IntToString(n)
  {
    var s := IntToString(n);
    assert s[0] == '-' || IsDigit(s[0]);
    assert IsDigit(s[|s| - 1]);
    StripFixed(s);
  }

  /** Decimal rendering and `int()` are inverse: `int(str(n)) == n`. */
  lemma {:induction false} IntToStringRoundTrip(n: int)
    ensures ParseInt(IntToString(n)) == Some(n)
  {
    IntToStringStripped(n);
    if n < 0 {
      NegativeRoundTrip(n);
    } else {
      var s := IntToString(n);
      NatToStringValue(n);
      assert s == NatToString(n) && IsDigit(s[0]);
    }
  }

  lemma {:induction false} NegativeRoundTrip(n: int)
    requires n < 0 && Strip(IntToString(n)) == IntToString(n)
    ensures ParseInt(IntToString(n)) == Some(n)
  {
    var s, b := IntToString(n), NatToString(-n);
    NatToStringValue(-n);
    calc {
      ParseInt(s);
    == { ParseIntOfStripped(s); }
      ParseSigned(s);
    == { assert s == "-" + b; }
      ParseSigned("-" + b);
    == { MinusLiteral(b); }
      Some(-(LiteralValue(b) as int));
    == { assert LiteralValue(b) == -n; }
      Some(n);
    }
  }

  /** A string with nothing to strip is read by `int()` as it stands. */
  lemma ParseIntOfStripped(s: string)
    requires Strip(s) == s
    ensures ParseInt(s) == ParseSigned(s)
  {
  }

  /** A minus sign before a digit literal reads as the negated literal. */
  lemma MinusLiteral(b: string)
    requires IsIntLiteral(b)
    ensures ParseSigned("-" + b) == Some(-(LiteralValue(b) as int))
  {
    var t := "-" + b;
    assert t[0] == '-' && t[1..] == b;
  }

  /** `c * n` for a one-character string; a negative count gives the empty string. */
  function Repeat(c: char, n: int): (r: string)
    ensures |r| == (if n <= 0 then 0 else n)
    ensures forall i :: 0 <= i < |r| ==> r[i] == c
    decreases n
  {
    if n <= 0 then [] else [c] + Repeat(c, n - 1)
  }

  /** `s.ljust(width)`: pads with spaces on the right, never truncates. */
  function LJust(s: string, width: int): (r: string)
    ensures |r| == (if |s| < width then width else |s|)
    ensures r[..|s|] == s
    ensures forall i :: |s| <= i < |r| ==> r[i] == ' '
  {
    if |s| < width then s + Repeat(' ', width - |s|) else s
  }

  /** Python's `<=` on strings: code-point lexicographic order. */
  predicate LexLe(a: string, b: string) {
    a == [] || (b != [] && (a[0] < b[0] || (a[0] == b[0] && LexLe(a[1..], b[1..]))))
  }

  lemma {:induction false} LexLeReflexive(a: string)
    ensures LexLe(a, a)
  {
    if a != [] {
      LexLeReflexive(a[1..]);
    }
  }

  lemma {:induction false} LexLeTotal(a: string, b: string)
    ensures LexLe(a, b) || LexLe(b, a)
  {
    if a != [] && b != [] && a[0] == b[0] {
      LexLeTotal(a[1..], b[1..]);
    }
  }

  lemma {:induction false} LexLeTransitive(a: string, b: string, c: string)
    requires LexLe(a, b) && LexLe(b, c)
    ensures LexLe(a, c)
  {
    if a != [] && b != [] && c != [] && a[0] == b[0] && b[0] == c[0] {
      LexLeTransitive(a[1..], b[1..], c[1..]);
    }
  }

  lemma {:induction false} LexLeAntisymmetric(a: string, b: string)
    requires LexLe(a, b) && LexLe(b, a)
    ensures a == b
  {
    if a != [] && b != [] {
      LexLeAntisymmetric(a[1..], b[1..]);
      assert a == [a[0]] + a[1..] && b == [b[0]] + b[1..];
    }
  }
}
