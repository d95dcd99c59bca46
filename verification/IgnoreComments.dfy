/** scripts/apply_arg_type_ignores.py: adding an error code to the `# type: ignore[...]` comment of
    a line, for a set of lines of a file. */
module IgnoreComments {
  import opened Seqs
  import opened Sorting
  import opened Text
  import opened Wrappers

  // --- reading a comment: EXISTING_IGNORE_RE ---

  function IndexOf(s: string, c: char): (n: nat)
    ensures n <= |s|
    ensures c !in s[..n]
    ensures n < |s| ==> s[n] == c
  {
    if s == "" || s[0] == c then 0 else 1 + IndexOf(s[1..], c)
  }

  /** What follows `word` at the front of `s`, leading whitespace aside. */
  function AfterWord(s: string, word: string): Option<string> {
    if word <= LStrip(s) then Some(LStrip(s)[|word|..]) else None
  }

  /** What follows "# type: ignore" at the front of `s`. */
  function AfterMarker(s: string): Option<string> {
    if s == "" || s[0] != '#' then None
    else
      var t := AfterWord(s[1..], "type:");
      if t.None? then None else AfterWord(t.value, "ignore")
  }

  /** Does the pattern match the whole of `s`?  If so, the text between the brackets, if any. */
  function MatchAll(s: string): Option<Option<string>> {
    var t := AfterMarker(s);
    if t.None? then None else MatchCodes(LStrip(t.value))
  }

  function MatchCodes(t: string): Option<Option<string>> {
    if t == "" then Some(None)
    else if t[0] != '[' then None
    else
      var n := IndexOf(t, ']');
      if n == |t| || n == 1 || !IsBlank(t[n + 1..]) then None else Some(Some(t[1..n]))
  }

  /** The leftmost match at or behind `i`: where, and the text between the brackets. */
  function FindFrom(body: string, i: nat): (r: Option<(nat, Option<string>)>)
    ensures r.Some? ==> i <= r.value.0 < |body|
    decreases |body| - i
  {
    if i >= |body| then None
    else if MatchAll(body[i..]).Some? then Some((i, MatchAll(body[i..]).value))
    else FindFrom(body, i + 1)
  }

  /** `split(",")`. */
  function Fields(s: string): (r: seq<string>)
    ensures |r| >= 1
  {
    if s == "" then [""]
    else
      var rest := Fields(s[1..]);
      if s[0] == ',' then [""] + rest else [[s[0]] + rest[0]] + rest[1..]
  }

  function CodesIn(content: string): set<string> {
    set f | f in Fields(content) :: Strip(f)
  }

  function CodesOf(content: Option<string>): set<string> {
    if content.None? then {} else CodesIn(content.value)
  }

  // --- printing a comment: build_ignore_comment ---

  function JoinCodes(codes: seq<string>): string {
    if codes == [] then ""
    else if |codes| == 1 then codes[0]
    else codes[0] + ", " + JoinCodes(codes[1..])
  }

  const OPENING: string := "# type: ignore["

  function BuildComment(existing: set<string>, target: string): string {
    OPENING + JoinCodes(SortedSet(existing + {target})) + "]"
  }

  // --- processing a line ---

  /** `rstrip("\n")`. */
  function Chomp(line: string): string {
    if line != "" && line[|line| - 1] == '\n' then Chomp(line[..|line| - 1]) else line
  }

  predicate Continued(body: string) {
    RStrip(body) != "" && RStrip(body)[|RStrip(body)| - 1] == '\\'
  }

  function ProcessLine(line: string, target: string): string {
    var body := Chomp(line);
    if Continued(body) then line
    else
      var m := FindFrom(body, 0);
      if m.Some? then
        var codes := CodesOf(m.value.1);
        if target in codes then line else body[..m.value.0] + BuildComment(codes, target) + "\n"
      else body + "  " + BuildComment({}, target) + "\n"
  }

  // --- round trip ---

  /** A code as it can stand in a comment. */
  predicate IsCode(c: string) {
    Strip(c) == c && ',' !in c && ']' !in c
  }

  /** The code to add, such as "arg-type". */
  predicate IsTarget(c: string) {
    c != "" && IsCode(c) && '#' !in c && '\n' !in c
  }

  lemma {:induction false} LeadingConcat(a: string, b: string)
    ensures LeadingSpaces(a + b) == if IsBlank(a) then |a| + LeadingSpaces(b) else LeadingSpaces(a)
  {
    if a == "" {
      assert a + b == b;
    } else {
      assert (a + b)[1..] == a[1..] + b && (a + b)[0] == a[0];
      LeadingConcat(a[1..], b);
      assert IsBlank(a) <==> IsSpace(a[0]) && IsBlank(a[1..]) by {
        assert forall i | 1 <= i < |a| :: a[i] == a[1..][i - 1];
      }
    }
  }

  lemma {:induction false} LStripConcat(a: string, b: string)
    ensures LStrip(a + b) == if IsBlank(a) then LStrip(b) else LStrip(a) + b
  {
    hide IsBlank;
    LeadingConcat(a, b);
    var n := LeadingSpaces(b);
    assert (a + b)[|a| + n..] == b[n..];
    assert (a + b)[LeadingSpaces(a)..] == a[LeadingSpaces(a)..] + b;
  }

  lemma {:induction false} AfterWordConcat(s: string, word: string, b: string)
    requires word != "" && '#' !in word && b != "" && b[0] == '#'
    ensures AfterWord(s + b, word) ==
            if AfterWord(s, word).Some? then Some(AfterWord(s, word).value + b) else None
  {
    LStripConcat(s, b);
    var t := LStrip(s);
    LStripOf(s);
    LStripOf(b);
    hide LStrip, IsBlank;
    WordInFront(t, word, b);
    assert t == "" ==> t + b == b;
  }

  lemma {:induction false} WordInFront(t: string, word: string, b: string)
    requires word != "" && '#' !in word && b != "" && b[0] == '#'
    ensures word <= t + b <==> word <= t
    ensures word <= t ==> (t + b)[|word|..] == t[|word|..] + b
  {
    if |word| <= |t| {
      assert (t + b)[..|word|] == t[..|word|];
    } else {
      assert (t + b)[|t|] == '#' && word[|t|] in word;
    }
  }

  lemma {:induction false} AfterMarkerConcat(s: string, b: string)
    requires s != "" && b != "" && b[0] == '#'
    ensures AfterMarker(s + b) ==
            if AfterMarker(s).Some? then Some(AfterMarker(s).value + b) else None
  {
    assert (s + b)[1..] == s[1..] + b;
    AfterWordConcat(s[1..], "type:", b);
    if s[0] == '#' && AfterWord(s[1..], "type:").Some? {
      AfterWordConcat(AfterWord(s[1..], "type:").value, "ignore", b);
    }
  }

  // --- a comment printed behind other text ---

  /** `s` starts a comment whose bracket is not closed. */
  predicate Opens(s: string) {
    var t := AfterMarker(s);
    && t.Some? && LStrip(t.value) != ""
    && LStrip(t.value)[0] == '[' && ']' !in LStrip(t.value)
  }

  /** What follows the opened bracket. */
  function OpenText(s: string): string
    requires Opens(s)
  {
    LStrip(AfterMarker(s).value)[1..]
  }

  /** A printed comment: starts with a hash, its only closing bracket is its last character. */
  predicate IsPrinted(b: string) {
    |b| >= 2 && b[0] == '#' && b[|b| - 1] == ']' && ']' !in b[..|b| - 1]
  }

  lemma {:induction false} IndexOfIs(s: string, c: char, n: nat)
    requires n < |s| && s[n] == c && c !in s[..n]
    ensures IndexOf(s, c) == n
  {
  }

  /** Text in front of a printed comment matches only by having opened a bracket that the comment
      closes. */
  lemma {:induction false} MatchInFront(s: string, b: string)
    requires s != "" && IsPrinted(b)
    ensures MatchAll(s + b) == if Opens(s) then Some(Some(OpenText(s) + b[..|b| - 1])) else None
  {
    hide MatchCodes, AfterMarker, LStrip;
    AfterMarkerConcat(s, b);
    if AfterMarker(s).Some? {
      var v := AfterMarker(s).value;
      LStripConcat(v, b);
      LStripOf(v);
      LStripOf(b);
      if IsBlank(v) {
        HashIsNoBracket(b);
      } else {
        BracketInFront(LStrip(v), b);
      }
    }
  }

  lemma {:induction false} LStripOf(s: string)
    ensures IsBlank(s) <==> LStrip(s) == ""
    ensures s != "" && s[0] == '#' ==> LStrip(s) == s
  {
  }

  lemma {:induction false} HashIsNoBracket(t: string)
    requires t != "" && t[0] == '#'
    ensures MatchCodes(t) == None
  {
  }

  lemma {:induction false} BracketInFront(t: string, b: string)
    requires t != "" && IsPrinted(b)
    ensures MatchCodes(t + b) ==
            if t[0] == '[' && ']' !in t then Some(Some(t[1..] + b[..|b| - 1])) else None
  {
    var s := t + b;
    var n := IndexOf(t, ']');
    if n < |t| {
      assert s[..n] == t[..n];
      IndexOfIs(s, ']', n);
      assert s[n + 1..][|t| - n - 1] == '#' && !IsSpace('#');
    } else {
      assert t[..n] == t;
      var m := |s| - 1;
      assert s[..m] == t + b[..|b| - 1];
      IndexOfIs(s, ']', m);
      assert s[m + 1..] == "";
      assert s[1..m] == t[1..] + b[..|b| - 1];
    }
  }

  /** The first opened bracket at or behind `i`. */
  function FirstOpening(p: string, i: nat): (r: Option<nat>)
    ensures r.Some? ==> i <= r.value < |p| && Opens(p[r.value..])
    decreases |p| - i
  {
    if i >= |p| then None else if Opens(p[i..]) then Some(i) else FirstOpening(p, i + 1)
  }

  lemma {:induction false} FindInFront(p: string, b: string, i: nat)
    requires i <= |p| && IsPrinted(b) && MatchAll(b).Some?
    ensures FindFrom(p + b, i) ==
            match FirstOpening(p, i)
            case Some(j) => Some((j, Some(OpenText(p[j..]) + b[..|b| - 1])))
            case None => Some((|p|, MatchAll(b).value))
    decreases |p| - i
  {
    hide MatchAll, AfterMarker;
    if i == |p| {
      assert (p + b)[i..] == b;
    } else {
      assert (p + b)[i..] == p[i..] + b;
      MatchInFront(p[i..], b);
      FindInFront(p, b, i + 1);
    }
  }

  // --- fields and codes ---

  function FieldSet(fields: seq<string>): set<string> {
    set f | f in fields :: Strip(f)
  }

  lemma {:induction false} FieldSetConcat(a: seq<string>, b: seq<string>)
    ensures FieldSet(a + b) == FieldSet(a) + FieldSet(b)
  {
  }

  lemma {:induction false} FieldSetOne(f: string)
    ensures FieldSet([f]) == {Strip(f)}
  {
    assert [f][0] in [f];
  }

  /** Two lists of fields with no comma between them: the last of the one and the first of the
      other are one field. */
  function Fuse(a: seq<string>, b: seq<string>): seq<string>
    requires a != [] && b != []
  {
    a[..|a| - 1] + [a[|a| - 1] + b[0]] + b[1..]
  }

  lemma {:induction false} FusePush(f: string, a: seq<string>, b: seq<string>)
    requires a != [] && b != []
    ensures Fuse([f] + a, b) == [f] + Fuse(a, b)
  {
    assert ([f] + a)[..|a|] == [f] + a[..|a| - 1];
  }

  lemma {:induction false} FuseGrow(c: char, a: seq<string>, b: seq<string>)
    requires a != [] && b != []
    ensures Fuse([[c] + a[0]] + a[1..], b) == [[c] + Fuse(a, b)[0]] + Fuse(a, b)[1..]
  {
    if |a| == 1 {
      assert a[..0] == [] && a[1..] == [];
      assert [c] + a[0] + b[0] == [c] + (a[0] + b[0]);
    } else {
      assert a == [a[0]] + a[1..];
      FusePush([c] + a[0], a[1..], b);
      FusePush(a[0], a[1..], b);
    }
  }

  lemma {:induction false} FieldsConcat(a: string, b: string)
    ensures Fields(a + b) == Fuse(Fields(a), Fields(b))
  {
    if a == "" {
      assert a + b == b;
      assert "" + Fields(b)[0] == Fields(b)[0];
    } else {
      assert (a + b)[1..] == a[1..] + b;
      FieldsConcat(a[1..], b);
      FusePush("", Fields(a[1..]), Fields(b));
      FuseGrow(a[0], Fields(a[1..]), Fields(b));
    }
  }

  lemma {:induction false} FieldsClean(s: string, f: string)
    requires f in Fields(s)
    ensures ',' !in f
    ensures forall c <- f :: c in s
  {
    if s != "" {
      var rest := Fields(s[1..]);
      if s[0] == ',' {
        if f != "" {
          FieldsClean(s[1..], f);
        }
      } else if f == [s[0]] + rest[0] {
        FieldsClean(s[1..], rest[0]);
      } else {
        FieldsClean(s[1..], f);
      }
    }
  }

  lemma {:induction false} OneField(s: string)
    requires ',' !in s
    ensures Fields(s) == [s]
  {
    if s != "" {
      OneField(s[1..]);
      assert [s[0]] + s[1..] == s;
    }
  }

  lemma {:induction false} RStripKeepsFront(t: string)
    requires t == "" || !IsSpace(t[0])
    ensures LStrip(RStrip(t)) == RStrip(t) && RStrip(RStrip(t)) == RStrip(t)
  {
    assert RStrip(t) != "" ==> RStrip(t)[0] == t[0];
  }

  lemma {:induction false} StripTwice(s: string)
    ensures Strip(Strip(s)) == Strip(s)
    ensures Strip(" " + s) == Strip(s)
  {
    hide RStrip;
    LStripConcat(" ", s);
    assert IsBlank(" ");
    RStripKeepsFront(LStrip(s));
  }

  lemma {:induction false} StripMembers(s: string)
    ensures forall c <- Strip(s) :: c in s
    ensures forall c <- s :: !IsSpace(c) ==> c in Strip(s)
  {
  }

  lemma {:induction false} StripOf(s: string)
    ensures Strip(Strip(s)) == Strip(s)
    ensures forall c <- Strip(s) :: c in s
    ensures Strip(" " + s) == Strip(s)
    ensures forall c <- s :: !IsSpace(c) ==> c in Strip(s)
  {
    StripTwice(s);
    StripMembers(s);
  }

  ghost predicate AllCodes(codes: seq<string>) {
    forall c <- codes :: IsCode(c)
  }

  lemma {:induction false} FieldsOfSeparated(c: string, rest: string)
    requires ',' !in c
    ensures Fields(c + ", " + rest)[0] == c
    ensures Fields(c + ", " + rest)[1..] == [" " + Fields(rest)[0]] + Fields(rest)[1..]
  {
    OneField(c);
    assert c + ", " + rest == c + (", " + rest);
    assert (", " + rest)[1..] == " " + rest && (" " + rest)[1..] == rest;
    FieldsConcat(c, ", " + rest);
    assert c + "" == c;
  }

  /** Splitting printed codes at the commas gives them back: the first as it stands, the others
      behind the space of the separator. */
  lemma {:induction false} FieldsOfJoin(codes: seq<string>)
    requires codes != [] && AllCodes(codes)
    ensures Fields(JoinCodes(codes))[0] == codes[0]
    ensures FieldSet(Fields(JoinCodes(codes))[1..]) == set c | c in codes[1..]
  {
    hide Fields;
    assert IsCode(codes[0]);
    if |codes| == 1 {
      OneField(codes[0]);
    } else {
      FieldsOfJoin(codes[1..]);
      FieldsOfSeparated(codes[0], JoinCodes(codes[1..]));
      FieldsTail(Fields(JoinCodes(codes[1..])), codes[1..]);
    }
  }

  lemma {:induction false} FieldsTail(fields: seq<string>, codes: seq<string>)
    requires fields != [] && codes != [] && AllCodes(codes)
    requires fields[0] == codes[0] && FieldSet(fields[1..]) == set c | c in codes[1..]
    ensures FieldSet([" " + fields[0]] + fields[1..]) == set c | c in codes
  {
    hide Strip;
    FieldSetConcat([" " + fields[0]], fields[1..]);
    FieldSetOne(" " + fields[0]);
    StripOf(fields[0]);
    assert IsCode(codes[0]);
    assert codes == [codes[0]] + codes[1..];
  }

  lemma {:induction false} CodesOfJoin(codes: seq<string>)
    requires codes != [] && AllCodes(codes)
    ensures CodesIn(JoinCodes(codes)) == set c | c in codes
  {
    FieldsOfJoin(codes);
    var f := Fields(JoinCodes(codes));
    assert f == [f[0]] + f[1..] && codes == [codes[0]] + codes[1..];
    FieldSetConcat([f[0]], f[1..]);
    FieldSetOne(f[0]);
    assert IsCode(codes[0]);
  }

  // --- a printed comment is read back ---

  ghost predicate CodeSet(codes: set<string>) {
    forall c <- codes :: IsCode(c)
  }

  lemma {:induction false} JoinHasNoBracket(codes: seq<string>)
    requires AllCodes(codes)
    ensures ']' !in JoinCodes(codes)
    ensures codes != [] && (exists c <- codes :: c != "") ==> JoinCodes(codes) != ""
  {
    if |codes| > 0 {
      assert IsCode(codes[0]);
      JoinHasNoBracket(codes[1..]);
    }
  }

  lemma {:induction false} SpacedWord(word: string, rest: string)
    requires word != "" && !IsSpace(word[0])
    ensures AfterWord(" " + word + rest, word) == Some(rest)
  {
    assert " " + word + rest == " " + (word + rest);
    LStripConcat(" ", word + rest);
    assert IsBlank(" ") && LStrip(word + rest) == word + rest;
    assert (word + rest)[..|word|] == word && (word + rest)[|word|..] == rest;
  }

  lemma {:induction false} MarkerRead(rest: string)
    ensures AfterMarker(OPENING + rest) == Some("[" + rest)
  {
    hide AfterWord;
    SpacedWord("type:", " ignore[" + rest);
    SpacedWord("ignore", "[" + rest);
    assert (OPENING + rest)[1..] == " " + "type:" + (" ignore[" + rest);
    assert " ignore[" + rest == " " + "ignore" + ("[" + rest);
  }

  lemma {:induction false} CodesRead(content: string)
    requires content != "" && ']' !in content
    ensures MatchCodes("[" + content + "]") == Some(Some(content))
  {
    var t := "[" + content + "]";
    var n := |content| + 1;
    assert t[..n] == "[" + content;
    IndexOfIs(t, ']', n);
    assert t[1..n] == content && t[n + 1..] == "";
  }

  /** Parsing a printed comment returns exactly the codes printed. */
  lemma {:induction false} PrintedIsRead(codes: set<string>, target: string)
    requires CodeSet(codes) && IsTarget(target)
    ensures IsPrinted(BuildComment(codes, target))
    ensures MatchAll(BuildComment(codes, target)) == Some(Some(JoinCodes(SortedSet(codes + {target}))))
    ensures CodesIn(JoinCodes(SortedSet(codes + {target}))) == codes + {target}
  {
    hide MatchCodes, AfterMarker, Fields, SortedSet, JoinCodes, LStrip;
    var sorted := SortedSet(codes + {target});
    var content := JoinCodes(sorted);
    assert target in sorted;
    assert AllCodes(sorted);
    JoinHasNoBracket(sorted);
    CodesOfJoin(sorted);
    assert OPENING + content + "]" == OPENING + (content + "]");
    MarkerRead(content + "]");
    assert "[" + (content + "]") == "[" + content + "]";
    CodesRead(content);
    var b := BuildComment(codes, target);
    assert b[..|b| - 1] == OPENING + content;
    LStripOf2("[" + content + "]");
  }

  lemma {:induction false} LStripOf2(t: string)
    requires t != "" && !IsSpace(t[0])
    ensures LStrip(t) == t
  {
  }

  /** The codes read from a comment can be printed again. */
  lemma {:induction false} ReadAreCodes(body: string, i: nat)
    requires FindFrom(body, i).Some?
    ensures CodeSet(CodesOf(FindFrom(body, i).value.1))
    decreases |body| - i
  {
    if MatchAll(body[i..]).Some? {
      var content := MatchAll(body[i..]).value;
      if content.Some? {
        forall c | c in CodesIn(content.value)
          ensures IsCode(c)
        {
          var f :| f in Fields(content.value) && c == Strip(f);
          FieldsClean(content.value, f);
          StripOf(f);
          ContentIsOpen(LStrip(AfterMarker(body[i..]).value));
        }
      }
    } else {
      ReadAreCodes(body, i + 1);
    }
  }

  lemma {:induction false} ContentIsOpen(t: string)
    ensures MatchCodes(t).Some? && MatchCodes(t).value.Some? ==> ']' !in MatchCodes(t).value.value
  {
  }

  // --- what processing a line does ---

  /** The text in front of the new comment and the codes to merge, for a line that changes. */
  function Plan(line: string, target: string): Option<(string, set<string>)> {
    var body := Chomp(line);
    var m := FindFrom(body, 0);
    if Continued(body) then None
    else if m.None? then Some((body + "  ", {}))
    else if target in CodesOf(m.value.1) then None
    else Some((body[..m.value.0], CodesOf(m.value.1)))
  }

  lemma {:induction false} ProcessLineByPlan(line: string, target: string)
    ensures ProcessLine(line, target) ==
            match Plan(line, target)
            case None => line
            case Some((before, codes)) => before + BuildComment(codes, target) + "\n"
  {
  }

  lemma {:induction false} PlannedCodes(line: string, target: string)
    requires Plan(line, target).Some?
    ensures CodeSet(Plan(line, target).value.1)
    ensures target !in Plan(line, target).value.1
  {
    if FindFrom(Chomp(line), 0).Some? {
      ReadAreCodes(Chomp(line), 0);
    }
  }

  lemma {:induction false} ChompOne(s: string)
    requires s != "" && s[|s| - 1] != '\n'
    ensures Chomp(s + "\n") == s
  {
    assert (s + "\n")[..|s|] == s;
  }

  /** Behind a printed comment the line ends. */
  lemma {:induction false} PrintedEnds(before: string, b: string)
    requires IsPrinted(b)
    ensures Chomp(before + b + "\n") == before + b && !Continued(before + b)
  {
    assert (before + b)[|before + b| - 1] == ']' && !IsSpace(']');
    ChompOne(before + b);
  }

  /** The body of a changed line: the kept text and the printed comment. */
  lemma {:induction false} ChangedBody(line: string, target: string)
    requires IsTarget(target) && Plan(line, target).Some?
    ensures var (before, codes) := Plan(line, target).value;
            && Chomp(ProcessLine(line, target)) == before + BuildComment(codes, target)
            && !Continued(before + BuildComment(codes, target))
            && IsPrinted(BuildComment(codes, target))
  {
    hide FindFrom, SortedSet, JoinCodes;
    var (before, codes) := Plan(line, target).value;
    PlannedCodes(line, target);
    PrintedIsRead(codes, target);
    ProcessLineByPlan(line, target);
    hide *;
    var b := BuildComment(codes, target);
    PrintedEnds(before, b);
  }

  /** A changed line keeps the text before the comment (all of it where there was none) and its
      comment reads back as the old codes and the target. */
  lemma {:induction false} ProcessLineAddsOnlyTarget(line: string, target: string)
    requires IsTarget(target) && ProcessLine(line, target) != line
    ensures var body, after := Chomp(line), Chomp(ProcessLine(line, target));
            var m := FindFrom(body, 0);
            var k := if m.Some? then m.value.0 else |body| + 2;
            && k < |after|
            && after[..k] == (if m.Some? then body[..k] else body + "  ")
            && MatchAll(after[k..]).Some?
            && CodesOf(MatchAll(after[k..]).value) == (if m.Some? then CodesOf(m.value.1) else {}) + {target}
            && target !in (if m.Some? then CodesOf(m.value.1) else {})
  {
    hide FindFrom, SortedSet, JoinCodes, MatchAll, Fields;
    ProcessLineByPlan(line, target);
    ChangedBody(line, target);
    PlannedCodes(line, target);
    var (before, codes) := Plan(line, target).value;
    PrintedIsRead(codes, target);
    var b := BuildComment(codes, target);
    assert (before + b)[..|before|] == before && (before + b)[|before|..] == b;
  }

  // --- processing a line twice ---

  /** The entries that are complete in the text of an opened bracket: all but the last. */
  function CompleteEntries(open: string): set<string> {
    FieldSet(Fields(open)[..|Fields(open)| - 1])
  }

  /** A second run finds nothing to do: the line does not change at all, or no earlier
      `# type: ignore[` is left open in the text before the comment, or the first one that is open
      swallows the new comment together with the target - as one of its own entries, or because
      the target is not the first code of the comment. */
  predicate Stable(line: string, target: string) {
    match Plan(line, target)
    case None => true
    case Some((before, codes)) =>
      var opening := FirstOpening(before, 0);
      || opening.None?
      || target in CompleteEntries(OpenText(before[opening.value..]))
      || target != SortedSet(codes + {target})[0]
  }

  lemma {:induction false} FuseSet(a: seq<string>, last: string, b: seq<string>)
    requires b != []
    ensures FieldSet(Fuse(a + [last], b)) == FieldSet(a) + {Strip(last + b[0])} + FieldSet(b[1..])
  {
  }

  lemma {:induction false} FieldsBehindOpening(open: string)
    ensures Fields(open + OPENING) == Fields(open)[..|Fields(open)| - 1] + [Fields(open)[|Fields(open)| - 1] + OPENING]
  {
    hide Fields;
    OneField(OPENING);
    FieldsConcat(open, OPENING);
    assert [OPENING][1..] == [];
  }

  lemma {:induction false} HashInField(f: string, c: string, target: string)
    requires '#' !in target
    ensures Strip(f + OPENING + c) != target
  {
    StripOf(f + OPENING + c);
    assert (f + OPENING + c)[|f|] == '#' && !IsSpace('#');
  }

  lemma {:induction false} SwallowedText(open: string, codes: set<string>, target: string)
    ensures var b := BuildComment(codes, target);
            b != [] && open + b[..|b| - 1] == (open + OPENING) + JoinCodes(SortedSet(codes + {target}))
  {
  }

  /** The codes a swallowed comment is read as. */
  lemma {:induction false} SwallowedCodes(open: string, codes: set<string>, target: string)
    requires CodeSet(codes) && IsTarget(target)
    ensures target in CodesIn(open + BuildComment(codes, target)[..|BuildComment(codes, target)| - 1]) <==>
            target in CompleteEntries(open) || target != SortedSet(codes + {target})[0]
  {
    hide Fields, JoinCodes, SortedSet, Strip, BuildComment;
    var sorted := SortedSet(codes + {target});
    var content := JoinCodes(sorted);
    SortedSetHead(codes + {target});
    assert target in sorted && AllCodes(sorted);
    assert sorted == [sorted[0]] + sorted[1..];
    SwallowedText(open, codes, target);
    FieldsBehindOpening(open);
    FieldsConcat(open + OPENING, content);
    FieldsOfJoin(sorted);
    var f := Fields(open);
    FuseSet(f[..|f| - 1], f[|f| - 1] + OPENING, Fields(content));
    HashInField(f[|f| - 1], sorted[0], target);
  }

  /** What a second run reads in a changed line. */
  lemma {:induction false} SecondRead(line: string, target: string)
    requires IsTarget(target) && Plan(line, target).Some?
    ensures Plan(ProcessLine(line, target), target).None? <==> Stable(line, target)
  {
    hide FindFrom, SortedSet, JoinCodes, MatchAll, Fields, FirstOpening, CodesIn;
    var (before, codes) := Plan(line, target).value;
    var b := BuildComment(codes, target);
    ChangedBody(line, target);
    PlannedCodes(line, target);
    PrintedIsRead(codes, target);
    FindInFront(before, b, 0);
    var opening := FirstOpening(before, 0);
    if opening.Some? {
      SwallowedCodes(OpenText(before[opening.value..]), codes, target);
    }
  }

  lemma {:induction false} PlannedChanges(line: string, target: string)
    requires IsTarget(target) && Plan(line, target).Some?
    ensures ProcessLine(line, target) != line
  {
    hide FindFrom, SortedSet, JoinCodes, MatchAll, Fields, CodesIn;
    var (before, codes) := Plan(line, target).value;
    ChangedBody(line, target);
    PlannedCodes(line, target);
    PrintedIsRead(codes, target);
    var b := BuildComment(codes, target);
    var body := Chomp(line);
    var m := FindFrom(body, 0);
    if m.Some? {
      FindIsMatch(body, 0);
      assert MatchAll(body[m.value.0..]) != MatchAll(b);
      assert (before + b)[m.value.0..] == b;
    }
    assert before + b != body;
  }

  lemma {:induction false} FindIsMatch(body: string, i: nat)
    requires FindFrom(body, i).Some?
    ensures MatchAll(body[FindFrom(body, i).value.0..]) == Some(FindFrom(body, i).value.1)
    decreases |body| - i
  {
    if !MatchAll(body[i..]).Some? {
      FindIsMatch(body, i + 1);
    }
  }

  /** Processing is idempotent on exactly the stable lines. */
  lemma {:induction false} IdempotentIff(line: string, target: string)
    requires IsTarget(target)
    ensures ProcessLine(ProcessLine(line, target), target) == ProcessLine(line, target) <==> Stable(line, target)
  {
    hide FindFrom, SortedSet, JoinCodes, Stable;
    ProcessLineByPlan(line, target);
    ProcessLineByPlan(ProcessLine(line, target), target);
    if Plan(line, target).Some? {
      SecondRead(line, target);
      if Plan(ProcessLine(line, target), target).Some? {
        PlannedChanges(ProcessLine(line, target), target);
      }
    } else {
      StableUnchanged(line, target);
    }
  }

  lemma {:induction false} StableUnchanged(line: string, target: string)
    requires Plan(line, target).None?
    ensures Stable(line, target)
  {
  }

  lemma {:induction false} NoHashNoMatch(body: string, i: nat)
    requires forall j | i <= j < |body| :: body[j] != '#'
    ensures FindFrom(body, i) == None
    decreases |body| - i
  {
    if i < |body| {
      NoHashNoMatch(body, i + 1);
    }
  }

  lemma {:induction false} NothingToFind()
    ensures FindFrom(OPENING, 0) == None
  {
    hide MatchAll;
    assert OPENING[0..] == OPENING;
    CutOffMatchesNot();
    assert '#' !in OPENING[1..];
    assert forall j | 1 <= j < |OPENING| :: OPENING[j] == OPENING[1..][j - 1];
    NoHashNoMatch(OPENING, 1);
  }

  lemma {:induction false} CutOffMatchesNot()
    ensures MatchAll(OPENING) == None
  {
    hide MatchCodes, AfterMarker;
    MarkerRead("");
    assert OPENING + "" == OPENING && "[" + "" == "[";
    BareBracket();
  }

  lemma {:induction false} BareBracket()
    ensures LStrip("[") == "[" && MatchCodes("[") == None
  {
    assert IndexOf("[", ']') == 1 + IndexOf("", ']');
    assert "["[1..] == "";
  }

  lemma {:induction false} CutOffOpens()
    ensures var before := OPENING + "  "; Opens(before) && OpenText(before) == "  "
  {
    hide AfterMarker;
    MarkerRead("  ");
    assert "[" + "  " == "[  " && LStrip("[  ") == "[  ";
  }

  /** The smallest line that is not stable: a comment cut off behind its opening bracket.  The
      first run appends a comment, the second swallows it into the first bracket. */
  lemma {:induction false} CutOffCommentIsNotStable(target: string)
    requires IsTarget(target)
    ensures ProcessLine(ProcessLine(OPENING, target), target) != ProcessLine(OPENING, target)
  {
    hide FindFrom, SortedSet, ProcessLine, Opens, OpenText, Fields;
    NothingToFind();
    var before := OPENING + "  ";
    CutOffOpens();
    assert before[0..] == before;
    OneField("  ");
    assert {} + {target} == {target};
    SortedOne(target);
    assert Chomp(OPENING) == OPENING && !Continued(OPENING);
    IdempotentIff(OPENING, target);
  }

  // --- processing a file ---

  predicate Listed(linenos: set<nat>, i: nat) {
    i + 1 in linenos
  }

  /** Every listed line processed, the others as they were. */
  function Processed(lines: seq<string>, linenos: set<nat>, target: string): (r: seq<string>)
    ensures |r| == |lines|
    ensures forall i | 0 <= i < |lines| ::
      r[i] == if Listed(linenos, i) then ProcessLine(lines[i], target) else lines[i]
  {
    seq(|lines|, i requires 0 <= i < |lines| =>
      if Listed(linenos, i) then ProcessLine(lines[i], target) else lines[i])
  }

  /** The listed lines that change. */
  function Changing(lines: seq<string>, linenos: set<nat>, target: string): set<nat> {
    set n: nat | n in linenos && 1 <= n <= |lines| && ProcessLine(lines[n - 1], target) != lines[n - 1]
  }

  lemma {:induction false} OneMoreChanging(lines: seq<string>, done: set<nat>, n: nat, target: string)
    requires n !in done
    ensures n !in Changing(lines, done, target)
    ensures Changing(lines, done + {n}, target) ==
            if 1 <= n <= |lines| && ProcessLine(lines[n - 1], target) != lines[n - 1]
            then Changing(lines, done, target) + {n}
            else Changing(lines, done, target)
  {
    hide ProcessLine;
  }

  lemma {:induction false} OneMoreProcessed(lines: seq<string>, done: set<nat>, n: nat, target: string)
    requires n !in done
    ensures n < 1 || n > |lines| ==> Processed(lines, done + {n}, target) == Processed(lines, done, target)
    ensures 1 <= n <= |lines| ==>
              && Processed(lines, done, target)[n - 1] == lines[n - 1]
              && Processed(lines, done + {n}, target) ==
                 Processed(lines, done, target)[n - 1 := ProcessLine(lines[n - 1], target)]
  {
    hide ProcessLine;
  }

  lemma {:induction false} OneMoreLine(lines: seq<string>, done: set<nat>, n: nat, target: string)
    requires n !in done
    ensures n < 1 || n > |lines| ==>
              && Changing(lines, done + {n}, target) == Changing(lines, done, target)
              && Processed(lines, done + {n}, target) == Processed(lines, done, target)
    ensures 1 <= n <= |lines| ==>
              var changed := ProcessLine(lines[n - 1], target);
              && Processed(lines, done, target)[n - 1] == lines[n - 1]
              && Processed(lines, done + {n}, target) == Processed(lines, done, target)[n - 1 := changed]
              && |Changing(lines, done + {n}, target)| ==
                 |Changing(lines, done, target)| + if changed == lines[n - 1] then 0 else 1
  {
    hide ProcessLine, Processed, Changing;
    OneMoreChanging(lines, done, n, target);
    OneMoreProcessed(lines, done, n, target);
  }

  ghost function Elements(order: seq<nat>): set<nat> {
    set n | n in order
  }

  lemma {:induction false} OneMoreElement(order: seq<nat>, i: nat)
    requires Distinct(order) && i < |order|
    ensures order[i] !in Elements(order[..i])
    ensures Elements(order[..i + 1]) == Elements(order[..i]) + {order[i]}
  {
  }

  /** The loop of `process_file`, over the set of line numbers in the order - any order - in which
      the set yields them. */
  method ProcessLines(lines: seq<string>, order: seq<nat>, target: string)
    returns (result: seq<string>, applied: nat, skipped: nat)
    requires Distinct(order)
    ensures result == Processed(lines, Elements(order), target)
    ensures applied == |Changing(lines, Elements(order), target)|
    ensures applied + skipped == |order|
  {
    hide ProcessLine, Processed, Changing, Elements;
    result, applied, skipped := lines, 0, 0;
    NoLines(lines, order, target);
    for i := 0 to |order|
      invariant result == Processed(lines, Elements(order[..i]), target)
      invariant applied == |Changing(lines, Elements(order[..i]), target)|
      invariant applied + skipped == i
    {
      var n := order[i];
      OneMoreElement(order, i);
      OneMoreLine(lines, Elements(order[..i]), n, target);
      if n < 1 || n > |lines| {
        skipped := skipped + 1;
      } else {
        var newLine := ProcessLine(result[n - 1], target);
        if newLine == result[n - 1] {
          assert result[n - 1 := newLine] == result;
          skipped := skipped + 1;
        } else {
          result := result[n - 1 := newLine];
          applied := applied + 1;
        }
      }
    }
    assert order[..|order|] == order;
  }

  lemma {:induction false} NoLines(lines: seq<string>, order: seq<nat>, target: string)
    ensures Elements(order[..0]) == {}
    ensures Processed(lines, Elements(order[..0]), target) == lines
    ensures Changing(lines, Elements(order[..0]), target) == {}
  {
    hide ProcessLine;
  }

  /** `process_file`; `parses` says whether Python accepts a text.  Without a change, or where the
      result does not parse, the file stays as it is. */
  method ProcessFile(text: string, order: seq<nat>, target: string, parses: string -> bool)
    returns (newText: string, applied: nat, skipped: nat)
    requires Distinct(order)
    ensures var result := Join(Processed(Split(text), Elements(order), target));
            var changing := Changing(Split(text), Elements(order), target);
            if changing == {} || !parses(result) then newText == text && applied == 0 && skipped == |order|
            else newText == result && applied == |changing| && skipped == |order| - |changing|
  {
    hide ProcessLine;
    var lines;
    lines, applied, skipped := ProcessLines(Split(text), order, target);
    newText := text;
    if applied > 0 {
      var result := Join(lines);
      if !parses(result) {
        return text, 0, |order|;
      }
      newText := result;
    }
  }

  // --- running it again ---

  lemma {:induction false} JoinMembers(codes: seq<string>, c: char)
    requires forall code <- codes :: c !in code
    requires c != ',' && c != ' '
    ensures c !in JoinCodes(codes)
  {
    if codes != [] {
      assert c !in codes[0];
      JoinMembers(codes[1..], c);
    }
  }

  lemma {:induction false} ContentMembers(t: string)
    ensures MatchCodes(t).Some? && MatchCodes(t).value.Some? ==> forall c <- MatchCodes(t).value.value :: c in t
  {
  }

  lemma {:induction false} ReadMembers(body: string, i: nat, code: string)
    requires FindFrom(body, i).Some? && code in CodesOf(FindFrom(body, i).value.1)
    ensures forall c <- code :: c in body
    decreases |body| - i
  {
    if MatchAll(body[i..]).Some? {
      var content := MatchAll(body[i..]).value.value;
      var f :| f in Fields(content) && code == Strip(f);
      FieldsClean(content, f);
      StripOf(f);
      MarkerMembers(body[i..]);
      ContentMembers(LStrip(AfterMarker(body[i..]).value));
    } else {
      ReadMembers(body, i + 1, code);
    }
  }

  lemma {:induction false} MarkerMembers(s: string)
    ensures AfterMarker(s).Some? ==> forall c <- LStrip(AfterMarker(s).value) :: c in s
  {
  }

  lemma {:induction false} ChompMembers(line: string)
    requires IsLastLine(line)
    ensures '\n' !in Chomp(line)
  {
  }

  lemma {:induction false} CommentIsOneLine(line: string, target: string)
    requires IsTarget(target) && IsLastLine(line) && Plan(line, target).Some?
    ensures var (before, codes) := Plan(line, target).value;
            '\n' !in before && '\n' !in BuildComment(codes, target)
  {
    hide FindFrom, SortedSet, JoinCodes, CodesOf;
    var (before, codes) := Plan(line, target).value;
    ChompMembers(line);
    var sorted := SortedSet(codes + {target});
    forall code | code in sorted
      ensures '\n' !in code
    {
      if code in codes {
        ReadMembers(Chomp(line), 0, code);
      }
    }
    JoinMembers(sorted, '\n');
  }

  lemma {:induction false} NewlineEnds(a: string, b: string)
    requires '\n' !in a && '\n' !in b
    ensures IsLine(a + b + "\n")
  {
    assert '\n' !in a + b;
    assert forall i | 0 <= i < |a + b| :: (a + b + "\n")[i] == (a + b)[i];
  }

  /** Processing a line of a file gives a line of a file. */
  lemma {:induction false} ProcessedIsLine(line: string, target: string)
    requires IsTarget(target) && IsLastLine(line)
    ensures ProcessLine(line, target) != line ==> IsLine(ProcessLine(line, target))
  {
    hide *;
    ProcessLineByPlan(line, target);
    if Plan(line, target).Some? {
      var (before, codes) := Plan(line, target).value;
      CommentIsOneLine(line, target);
      NewlineEnds(before, BuildComment(codes, target));
    }
  }

  /** The text written splits into exactly the processed lines. */
  lemma {:induction false} SplitProcessed(text: string, linenos: set<nat>, target: string)
    requires IsTarget(target)
    ensures Split(Join(Processed(Split(text), linenos, target))) == Processed(Split(text), linenos, target)
  {
    hide ProcessLine;
    var lines := Split(text);
    var result := Processed(lines, linenos, target);
    SplitIsEmptyIff(text);
    if lines != [] {
      LastOfSplit(text);
      forall i | 0 <= i < |lines|
        ensures i < |lines| - 1 ==> IsLine(result[i])
        ensures IsLastLine(result[i])
      {
        if i < |lines| - 1 {
          SplitIsLines(text, i);
        }
        ProcessedIsLine(lines[i], target);
      }
    }
    SplitOfLines(result);
  }

  /** Over a file written once, a second run with the same line numbers applies exactly the listed
      lines that are not stable - so none at all if and only if all of them are. */
  lemma {:induction false} SecondRunApplies(text: string, linenos: set<nat>, target: string)
    requires IsTarget(target)
    ensures var lines := Split(text);
            Changing(Split(Join(Processed(lines, linenos, target))), linenos, target) ==
            set n: nat | n in linenos && 1 <= n <= |lines| && !Stable(lines[n - 1], target)
  {
    hide ProcessLine, Stable;
    var lines := Split(text);
    SplitProcessed(text, linenos, target);
    forall n | n in linenos && 1 <= n <= |lines|
      ensures ProcessLine(ProcessLine(lines[n - 1], target), target) == ProcessLine(lines[n - 1], target) <==>
              Stable(lines[n - 1], target)
    {
      IdempotentIff(lines[n - 1], target);
    }
    assert forall n | n in linenos && 1 <= n <= |lines| :: Listed(linenos, n - 1);
  }
}
