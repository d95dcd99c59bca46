/** Lines and whitespace.  Lines end with a newline character; the other line separators of
    `str.splitlines` are not modelled. */
module Text {
  import opened Seqs

  /** The whitespace of `str.strip` and of `\s`, up to the wide spaces of Unicode. */
  predicate IsSpace(c: char) {
    || c == ' ' || '\t' <= c <= '\r' || '\U{1C}' <= c <= '\U{1F}'
    || c == '\U{85}' || c == '\U{A0}'
  }

  predicate IsBlank(s: string) {
    forall i | 0 <= i < |s| :: IsSpace(s[i])
  }

  function LeadingSpaces(s: string): (n: nat)
    ensures n <= |s|
    ensures forall i | 0 <= i < n :: IsSpace(s[i])
    ensures n < |s| ==> !IsSpace(s[n])
  {
    if s == "" || !IsSpace(s[0]) then 0 else 1 + LeadingSpaces(s[1..])
  }

  function TrailingSpaces(s: string): (n: nat)
    ensures n <= |s|
    ensures forall i | |s| - n <= i < |s| :: IsSpace(s[i])
    ensures n < |s| ==> !IsSpace(s[|s| - n - 1])
  {
    if s == "" || !IsSpace(s[|s| - 1]) then 0 else 1 + TrailingSpaces(s[..|s| - 1])
  }

  function LStrip(s: string): string {
    s[LeadingSpaces(s)..]
  }

  function RStrip(s: string): string {
    s[..|s| - TrailingSpaces(s)]
  }

  function Strip(s: string): string {
    RStrip(LStrip(s))
  }

  /** The whitespace a line starts with. */
  function Indent(s: string): string {
    s[..LeadingSpaces(s)]
  }

  /** `s[:n]` and `s[n:]`, which do not mind an `n` past the end. */
  function Take(s: string, n: nat): string {
    if n <= |s| then s[..n] else s
  }

  function Drop(s: string, n: nat): string {
    if n <= |s| then s[n..] else ""
  }

  function Join(lines: seq<string>): string {
    if lines == [] then "" else lines[0] + Join(lines[1..])
  }

  /** `splitlines(keepends=True)`. */
  function Split(s: string): seq<string>
    decreases |s|
  {
    if s == "" then []
    else
      var n := LineLength(s);
      [s[..n]] + Split(s[n..])
  }

  /** The length of the first line, its newline included. */
  function LineLength(s: string): (n: nat)
    requires s != ""
    ensures 1 <= n <= |s|
    ensures forall i | 0 <= i < n - 1 :: s[i] != '\n'
    ensures n < |s| ==> s[n - 1] == '\n'
  {
    if s[0] == '\n' || |s| == 1 then 1 else 1 + LineLength(s[1..])
  }

  /** A line that ends with its only newline. */
  predicate IsLine(s: string) {
    s != "" && s[|s| - 1] == '\n' && forall i | 0 <= i < |s| - 1 :: s[i] != '\n'
  }

  /** The visible characters of a text, in order. */
  function Ink(s: string): string {
    if s == "" then "" else (if IsSpace(s[0]) then "" else [s[0]]) + Ink(s[1..])
  }

  lemma {:induction false} JoinConcat(a: seq<string>, b: seq<string>)
    ensures Join(a + b) == Join(a) + Join(b)
  {
    if a == [] {
      assert a + b == b;
    } else {
      assert (a + b)[1..] == a[1..] + b;
      JoinConcat(a[1..], b);
    }
  }

  lemma {:induction false} InkConcat(a: string, b: string)
    ensures Ink(a + b) == Ink(a) + Ink(b)
  {
    if a == "" {
      assert a + b == b;
    } else {
      assert (a + b)[1..] == a[1..] + b;
      InkConcat(a[1..], b);
    }
  }

  lemma {:induction false} BlankHasNoInk(s: string)
    ensures IsBlank(s) <==> Ink(s) == ""
  {
    if s != "" {
      BlankHasNoInk(s[1..]);
      assert IsBlank(s) <==> IsSpace(s[0]) && IsBlank(s[1..]) by {
        assert forall i | 1 <= i < |s| :: s[i] == s[1..][i - 1];
      }
    }
  }

  lemma {:induction false} StripKeepsInk(s: string)
    ensures Ink(LStrip(s)) == Ink(s)
  {
    assert s == Indent(s) + LStrip(s);
    InkConcat(Indent(s), LStrip(s));
    BlankHasNoInk(Indent(s));
  }

  /** Splitting gives the text back. */
  lemma {:induction false} SplitJoins(s: string)
    ensures Join(Split(s)) == s
    decreases |s|
  {
    if s != "" {
      var n := LineLength(s);
      var rest := Split(s[n..]);
      SplitJoins(s[n..]);
      assert Split(s) == [s[..n]] + rest;
      hide Split, LineLength;
      assert ([s[..n]] + rest)[1..] == rest;
      assert s == s[..n] + s[n..];
    }
  }

  lemma {:induction false} FirstLine(s: string)
    requires s != "" && LineLength(s) < |s|
    ensures IsLine(s[..LineLength(s)])
  {
  }

  lemma {:induction false} SplitIsEmptyIff(s: string)
    ensures Split(s) == [] <==> s == ""
  {
  }

  /** Only the last line of a text may lack its newline. */
  lemma {:induction false} SplitIsLines(s: string, i: nat)
    requires i + 1 < |Split(s)|
    ensures IsLine(Split(s)[i])
    decreases |s|
  {
    var n := LineLength(s);
    var rest := Split(s[n..]);
    assert Split(s) == [s[..n]] + rest;
    if i == 0 {
      SplitIsEmptyIff(s[n..]);
      FirstLine(s);
    } else {
      SplitIsLines(s[n..], i - 1);
    }
  }

  lemma {:induction false} LineLengthOf(line: string, rest: string)
    requires IsLine(line)
    ensures LineLength(line + rest) == |line|
  {
    if line[0] != '\n' {
      assert (line + rest)[1..] == line[1..] + rest;
      LineLengthOf(line[1..], rest);
    }
  }

  lemma {:induction false} SplitFirst(line: string, rest: string)
    requires IsLine(line)
    ensures Split(line + rest) == [line] + Split(rest)
  {
    LineLengthOf(line, rest);
    assert (line + rest)[|line|..] == rest && (line + rest)[..|line|] == line;
  }

  predicate AllLines(lines: seq<string>) {
    forall i | 0 <= i < |lines| :: IsLine(lines[i])
  }

  /** Complete lines at the front of a text are split off as they are, whatever follows. */
  lemma {:induction false} SplitBehindLines(lines: seq<string>, rest: string)
    requires AllLines(lines)
    ensures Split(Join(lines) + rest) == lines + Split(rest)
  {
    if lines == [] {
      assert Join(lines) + rest == rest;
    } else {
      SplitBehindLines(lines[1..], rest);
      Assoc(lines[0], Join(lines[1..]), rest);
      SplitFirst(lines[0], Join(lines[1..]) + rest);
      assert lines == [lines[0]] + lines[1..];
      Assoc([lines[0]], lines[1..], Split(rest));
    }
  }

  // --- the lines of a file ---

  /** The shape of a file's last line: with or without its newline. */
  predicate IsLastLine(s: string) {
    IsLine(s) || (s != "" && '\n' !in s)
  }

  lemma {:induction false} SplitOfLines(lines: seq<string>)
    requires forall i | 0 <= i < |lines| - 1 :: IsLine(lines[i])
    requires lines != [] ==> IsLastLine(lines[|lines| - 1])
    ensures Split(Join(lines)) == lines
  {
    if lines != [] {
      var init, last := lines[..|lines| - 1], lines[|lines| - 1];
      assert lines == init + [last];
      JoinConcat(init, [last]);
      assert Join([last]) == last + Join([]) == last;
      SplitBehindLines(init, last);
      assert LineLength(last) == |last|;
      assert Split(last) == [last] + Split("");
    }
  }

  lemma {:induction false} LastOfSplit(s: string)
    requires s != ""
    ensures Split(s) != [] && IsLastLine(Split(s)[|Split(s)| - 1])
    decreases |s|
  {
    var n := LineLength(s);
    if n < |s| {
      LastOfSplit(s[n..]);
      assert Split(s)[1..] == Split(s[n..]);
    } else {
      assert s[n..] == "" && s[..n] == s;
      assert s[n - 1] != '\n' ==> '\n' !in s;
    }
  }

  /** Lines as splitting gives them: complete ones, but for the last. */
  predicate IsFile(lines: seq<string>) {
    && (forall i | 0 <= i < |lines| - 1 :: IsLine(lines[i]))
    && (lines != [] ==> IsLastLine(lines[|lines| - 1]))
  }

  lemma {:induction false} SplitIsFile(s: string)
    ensures IsFile(Split(s))
  {
    if s != "" {
      LastOfSplit(s);
      forall i | 0 <= i < |Split(s)| - 1
        ensures IsLine(Split(s)[i])
      {
        SplitIsLines(s, i);
      }
    } else {
      SplitIsEmptyIff(s);
    }
  }

  /** Exactly the lists of lines that splitting gives are the same after joining and splitting again. */
  lemma {:induction false} IsFileIff(lines: seq<string>)
    ensures Split(Join(lines)) == lines <==> IsFile(lines)
  {
    if IsFile(lines) {
      SplitOfLines(lines);
    } else {
      SplitIsFile(Join(lines));
    }
  }

  /** The whitespace characters, one by one. */
  lemma {:induction false} SpacesAre(c: char)
    ensures IsSpace(c) <==>
            c in {' ', '\t', '\n', '\U{0B}', '\U{0C}', '\r', '\U{1C}', '\U{1D}', '\U{1E}', '\U{1F}',
                  '\U{85}', '\U{A0}'}
  {
  }
}
