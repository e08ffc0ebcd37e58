/**
 * Wordlist loading as the three scans do it: read the file in text mode,
 * strip each line and keep the non-empty ones, in file order.
 */
module Wordlist {
  import opened Text

  /** Text mode's universal newlines: "\r\n" and a lone "\r" both read as "\n". */
  function UniversalNewlines(text: string): (r: string)
    ensures '\r' !in r
  {
    var a := ReplaceAll(text, "\r\n", "\n");
    ReplaceChar(a, '\r', '\n');
    ReplaceAll(a, "\r", "\n")
  }

  /** A line is kept when something is left after stripping it. */
  predicate IsWord(w: string) {
    w != [] && Strip(w) == w
  }

  /** `[line.strip() for line in lines if line.strip()]`. */
  function KeepStripped(lines: seq<string>): (words: seq<string>)
    ensures |words| <= |lines|
  {
    if lines == [] then []
    else
      var w := Strip(lines[0]);
      if w != [] then [w] + KeepStripped(lines[1..]) else KeepStripped(lines[1..])
  }

  /** Every kept line is a word: non-empty and already stripped. */
  lemma {:induction false} KeepStrippedIsWords(lines: seq<string>)
    ensures forall i :: 0 <= i < |KeepStripped(lines)| ==> IsWord(KeepStripped(lines)[i])
  {
    if lines != [] {
      KeepStrippedIsWords(lines[1..]);
      var w, rest := Strip(lines[0]), KeepStripped(lines[1..]);
      if w != [] {
        StrippedIsWord(lines[0]);
        var words := KeepStripped(lines);
        assert words == [w] + rest;
        forall i | 0 <= i < |words| ensures IsWord(words[i]) {
          if i > 0 {
            assert words[i] == rest[i - 1];
          }
        }
      } else {
        assert KeepStripped(lines) == rest;
      }
    }
  }

  /** A line that is not blank strips to a word. */
  lemma StrippedIsWord(line: string)
    requires Strip(line) != []
    ensures IsWord(Strip(line))
  {
    StripIdempotent(line);
  }

  /** A character absent from every line is absent from every word. */
  lemma {:induction false} KeepStrippedAvoids(lines: seq<string>, c: char)
    requires forall i :: 0 <= i < |lines| ==> c !in lines[i]
    ensures forall i :: 0 <= i < |KeepStripped(lines)| ==> c !in KeepStripped(lines)[i]
  {
    if lines != [] {
      assert forall i :: 0 <= i < |lines| - 1 ==> lines[1..][i] == lines[i + 1];
      KeepStrippedAvoids(lines[1..], c);
      StripAvoids(lines[0], c);
      var w, rest := Strip(lines[0]), KeepStripped(lines[1..]);
      if w != [] {
        assert KeepStripped(lines) == [w] + rest;
      } else {
        assert KeepStripped(lines) == rest;
      }
    }
  }

  /** Filtering distributes over concatenation: file order is kept. */
  lemma {:induction false} KeepStrippedAppend(a: seq<string>, b: seq<string>)
    ensures KeepStripped(a + b) == KeepStripped(a) + KeepStripped(b)
  {
    if a == [] {
      assert a + b == b;
    } else {
      assert (a + b)[1..] == a[1..] + b;
      KeepStrippedAppend(a[1..], b);
    }
  }

  /** Lines that are already words pass through unchanged. */
  lemma {:induction false} KeepStrippedWords(words: seq<string>)
    requires forall i :: 0 <= i < |words| ==> IsWord(words[i])
    ensures KeepStripped(words) == words
  {
    if words != [] {
      KeepStrippedWords(words[1..]);
      assert words == [words[0]] + words[1..];
    }
  }

  /** `load_wordlist` on the file's contents. */
  function LoadWordlist(text: string): (words: seq<string>)
    ensures forall i :: 0 <= i < |words| ==> IsWord(words[i]) && '\n' !in words[i] && '\r' !in words[i]
  {
    var normal := UniversalNewlines(text);
    var lines := Split(normal, '\n');
    SplitAvoids(normal, '\n', '\r');
    KeepStrippedIsWords(lines);
    KeepStrippedAvoids(lines, '\n');
    KeepStrippedAvoids(lines, '\r');
    KeepStripped(lines)
  }

  /** A file holding one clean word per line loads back as those words. */
  lemma LoadJoinedWords(words: seq<string>)
    requires |words| >= 1
    requires forall i :: 0 <= i < |words| ==> IsWord(words[i]) && '\n' !in words[i] && '\r' !in words[i]
    ensures LoadWordlist(Join(words, '\n')) == words
  {
    var text := Join(words, '\n');
    JoinAvoids(words, '\n', '\r');
    ReplaceAbsent(text, "\r\n", "\n");
    ReplaceAbsent(text, "\r", "\n");
    SplitJoin(words, '\n');
    KeepStrippedWords(words);
  }
}
