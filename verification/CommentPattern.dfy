/** The ignore comments that scripts/apply_arg_type_ignores.py finds, as text, and what becomes of a
    line with one. */
module CommentPattern {
  import opened IgnoreComments
  import opened Seqs
  import opened Sorting
  import opened Text
  import opened Wrappers

  // --- the pattern ---

  /** What may stand behind the word "ignore": nothing visible, or codes in brackets. */
  ghost predicate CodesPart(t: string, codes: Option<string>) {
    match codes
    case None => IsBlank(t)
    case Some(c) =>
      && c != "" && ']' !in c
      && exists gap: string, end: string :: IsBlank(gap) && IsBlank(end) && t == gap + "[" + c + "]" + end
  }

  /** A hash, "type:", "ignore" and the codes, with whitespace in between. */
  ghost predicate IsComment(s: string, codes: Option<string>) {
    exists gap: string, gap': string, rest: string ::
      && IsBlank(gap) && IsBlank(gap') && CodesPart(rest, codes)
      && s == "#" + gap + "type:" + gap' + "ignore" + rest
  }

  lemma {:induction false} BlankFront(s: string) returns (gap: string)
    ensures IsBlank(gap) && s == gap + LStrip(s)
  {
    gap := Indent(s);
  }

  lemma {:induction false} WordFound(s: string, word: string, rest: string) returns (gap: string)
    requires AfterWord(s, word) == Some(rest)
    ensures IsBlank(gap) && s == gap + word + rest
  {
    gap := BlankFront(s);
    assert LStrip(s) == word + rest;
    Assoc(gap, word, rest);
  }

  lemma {:induction false} WordThere(gap: string, word: string, rest: string)
    requires IsBlank(gap) && word != "" && !IsSpace(word[0])
    ensures AfterWord(gap + word + rest, word) == Some(rest)
  {
    Assoc(gap, word, rest);
    LStripConcat(gap, word + rest);
    LStripOf2(word + rest);
    assert (word + rest)[..|word|] == word && (word + rest)[|word|..] == rest;
  }

  lemma {:induction false} MarkerIff(s: string, rest: string)
    ensures AfterMarker(s) == Some(rest) <==>
            exists gap: string, gap': string ::
              IsBlank(gap) && IsBlank(gap') && s == "#" + gap + "type:" + gap' + "ignore" + rest
  {
    hide AfterWord;
    if AfterMarker(s) == Some(rest) {
      var t := AfterWord(s[1..], "type:").value;
      var gap := WordFound(s[1..], "type:", t);
      var gap' := WordFound(t, "ignore", rest);
      assert s == "#" + s[1..];
      assert s == "#" + gap + "type:" + gap' + "ignore" + rest;
    }
    if gap: string, gap': string :|
      IsBlank(gap) && IsBlank(gap') && s == "#" + gap + "type:" + gap' + "ignore" + rest
    {
      var t := gap' + "ignore" + rest;
      assert s == "#" + (gap + "type:" + t) && s[1..] == gap + "type:" + t;
      WordThere(gap, "type:", t);
      WordThere(gap', "ignore", rest);
    }
  }

  lemma {:induction false} NoCodesIff(t: string)
    ensures MatchCodes(LStrip(t)) == Some(None) <==> IsBlank(t)
  {
    LStripOf(t);
    hide LStrip, IsBlank;
  }

  lemma {:induction false} CodesIff(t: string, codes: Option<string>)
    ensures MatchCodes(LStrip(t)) == Some(codes) <==> CodesPart(t, codes)
  {
    hide IsBlank, LStrip, MatchCodes;
    if codes.None? {
      NoCodesIff(t);
    } else {
      if MatchCodes(LStrip(t)) == Some(codes) {
        var gap := BlankFront(t);
        var end := BracketsFound(LStrip(t), codes.value);
        assert t == gap + "[" + codes.value + "]" + end;
      }
      if CodesPart(t, codes) {
        var gap: string, end: string :| IsBlank(gap) && IsBlank(end) && t == gap + "[" + codes.value + "]" + end;
        BracketsThere(gap, codes.value, end);
      }
    }
  }

  lemma {:induction false} BracketsFound(t: string, c: string) returns (end: string)
    requires MatchCodes(t) == Some(Some(c))
    ensures c != "" && ']' !in c && IsBlank(end) && t == "[" + c + "]" + end
  {
    var n := IndexOf(t, ']');
    end := t[n + 1..];
    assert t == t[..1] + t[1..n] + t[n..n + 1] + t[n + 1..];
  }

  lemma {:induction false} BracketsThere(gap: string, c: string, end: string)
    requires IsBlank(gap) && IsBlank(end) && c != "" && ']' !in c
    ensures MatchCodes(LStrip(gap + "[" + c + "]" + end)) == Some(Some(c))
  {
    var t := "[" + c + "]" + end;
    BracketsMatch(c, end);
    LStripConcat(gap, t);
    LStripOf2(t);
    hide *;
    Assoc(gap, "[", c);
    Assoc(gap, "[" + c, "]");
    Assoc(gap, "[" + c + "]", end);
  }

  lemma {:induction false} BracketsMatch(c: string, end: string)
    requires IsBlank(end) && c != "" && ']' !in c
    ensures MatchCodes("[" + c + "]" + end) == Some(Some(c))
  {
    var t := "[" + c + "]" + end;
    var n := |c| + 1;
    assert t[..n] == "[" + c && t[n] == ']' && t[1..n] == c && t[n + 1..] == end;
    hide IsBlank;
    IndexOfIs(t, ']', n);
  }

  /** The pattern matches exactly the comments, with and without codes in brackets, and yields the
      text between the brackets. */
  lemma {:induction false} MatchIff(s: string, codes: Option<string>)
    ensures MatchAll(s) == Some(codes) <==> IsComment(s, codes)
  {
    hide AfterMarker, MatchCodes, LStrip, CodesPart;
    if MatchAll(s) == Some(codes) {
      var rest := AfterMarker(s).value;
      MarkerIff(s, rest);
      CodesIff(rest, codes);
    }
    if IsComment(s, codes) {
      var gap: string, gap': string, rest: string :|
        IsBlank(gap) && IsBlank(gap') && CodesPart(rest, codes) && s == "#" + gap + "type:" + gap' + "ignore" + rest;
      MarkerIff(s, rest);
      CodesIff(rest, codes);
    }
  }

  // --- where it is found ---

  /** No comment begins between `i` and `j`. */
  ghost predicate NoComment(body: string, i: nat, j: nat) {
    forall k, codes | i <= k < j && k < |body| :: !IsComment(body[k..], codes)
  }

  /** The comment that is found is the leftmost one that reaches the end of the line. */
  lemma {:induction false} FindIff(body: string, i: nat, j: nat, codes: Option<string>)
    ensures FindFrom(body, i) == Some((j, codes)) <==>
            i <= j < |body| && IsComment(body[j..], codes) && NoComment(body, i, j)
    decreases |body| - i
  {
    hide MatchAll, IsComment;
    if i < |body| {
      forall c
        ensures MatchAll(body[i..]) == Some(c) <==> IsComment(body[i..], c)
      {
        MatchIff(body[i..], c);
      }
      if MatchAll(body[i..]).None? {
        FindIff(body, i + 1, j, codes);
      } else {
        assert IsComment(body[i..], MatchAll(body[i..]).value);
      }
    }
  }

  lemma {:induction false} FindNoneIff(body: string, i: nat)
    ensures FindFrom(body, i) == None <==> NoComment(body, i, |body|)
  {
    hide IsComment, FindFrom;
    if FindFrom(body, i).Some? {
      FindIff(body, i, FindFrom(body, i).value.0, FindFrom(body, i).value.1);
    } else if !NoComment(body, i, |body|) {
      var k, codes :| i <= k < |body| && IsComment(body[k..], codes);
      var least := LeastComment(body, i, k, codes);
      var found :| IsComment(body[least..], found);
      FindIff(body, i, least, found);
    }
  }

  lemma {:induction false} LeastComment(body: string, i: nat, k: nat, codes: Option<string>) returns (least: nat)
    requires i <= k < |body| && IsComment(body[k..], codes)
    ensures i <= least <= k && NoComment(body, i, least) && exists found :: IsComment(body[least..], found)
    decreases k - i
  {
    hide IsComment;
    if c: Option<string> :| IsComment(body[i..], c) {
      least := i;
    } else {
      least := LeastComment(body, i + 1, k, codes);
    }
  }

  // --- the entries between the brackets ---

  /** `e` is `f` without the whitespace around it. */
  ghost predicate Trimmed(f: string, e: string) {
    && (e != "" ==> !IsSpace(e[0]) && !IsSpace(e[|e| - 1]))
    && exists left: string, right: string :: IsBlank(left) && IsBlank(right) && f == left + e + right
  }

  lemma {:induction false} StripTrims(f: string)
    ensures Trimmed(f, Strip(f))
  {
    var t := LStrip(f);
    var left, right := Indent(f), t[|RStrip(t)|..];
    assert IsBlank(left) && IsBlank(right) && RStrip(t) + right == t && f == left + t;
    assert RStrip(t) != "" ==> RStrip(t)[0] == t[0];
    hide LeadingSpaces, TrailingSpaces, IsBlank, IsSpace;
    Assoc(left, RStrip(t), right);
    assert f == left + RStrip(t) + right;
  }

  lemma {:induction false} TrailingConcat(a: string, b: string)
    requires IsBlank(b)
    ensures RStrip(a + b) == RStrip(a)
    decreases |b|
  {
    if b == "" {
      assert a + b == a;
    } else {
      var s, init := a + b, b[..|b| - 1];
      assert s[..|s| - 1] == a + init;
      TrailingConcat(a, init);
      assert TrailingSpaces(s) == 1 + TrailingSpaces(a + init);
      assert s[..|s| - TrailingSpaces(s)] == (a + init)[..|a + init| - TrailingSpaces(a + init)];
    }
  }

  lemma {:induction false} TrimmedIsStrip(f: string, e: string)
    requires Trimmed(f, e)
    ensures Strip(f) == e
  {
    var left: string, right: string :| IsBlank(left) && IsBlank(right) && f == left + e + right;
    Assoc(left, e, right);
    LStripConcat(left, e + right);
    if e == "" {
      assert e + right == right;
      LStripOf(right);
      LStripOf("");
    } else {
      LStripOf2(e + right);
      TrailingConcat(e, right);
      assert TrailingSpaces(e) == 0;
    }
  }

  /** Position `a` to `b` is what stands between two commas. */
  predicate BetweenCommas(content: string, a: nat, b: nat) {
    && a <= b <= |content| && (forall i | a <= i < b :: content[i] != ',')
    && (a == 0 || content[a - 1] == ',') && (b == |content| || content[b] == ',')
  }

  ghost predicate HasField(content: string, f: string) {
    exists a: nat, b: nat | a <= b <= |content| :: BetweenCommas(content, a, b) && content[a..b] == f
  }

  ghost predicate IsEntry(content: string, e: string) {
    exists a: nat, b: nat | a <= b <= |content| :: BetweenCommas(content, a, b) && Trimmed(content[a..b], e)
  }

  lemma {:induction false} FieldsFirst(s: string)
    ensures var n := IndexOf(s, ',');
            Fields(s) == if n == |s| then [s] else [s[..n]] + Fields(s[n + 1..])
  {
    var n := IndexOf(s, ',');
    hide Fields;
    if n == |s| {
      assert s[..n] == s;
      OneField(s);
    } else {
      var rest := "," + s[n + 1..];
      assert s == s[..n] + rest;
      FieldsConcat(s[..n], rest);
      OneField(s[..n]);
      CommaFields(s[n + 1..]);
      assert s[..n] + "" == s[..n];
    }
  }

  lemma {:induction false} CommaFields(s: string)
    ensures Fields("," + s) == [""] + Fields(s)
  {
    assert ("," + s)[1..] == s;
  }

  lemma {:induction false} FieldIff(s: string, f: string)
    ensures f in Fields(s) <==> HasField(s, f)
    decreases |s|
  {
    hide Fields;
    var n := IndexOf(s, ',');
    FieldsFirst(s);
    if n == |s| {
      assert s[..n] == s && forall i | 0 <= i < n :: s[i] == s[..n][i];
      assert BetweenCommas(s, 0, n);
    } else {
      var rest := s[n + 1..];
      FieldIff(rest, f);
      assert forall i | 0 <= i < n :: s[i] == s[..n][i];
      FirstOrLater(s, n, f);
    }
  }

  lemma {:induction false} FirstOrLater(s: string, n: nat, f: string)
    requires n < |s| && s[n] == ',' && forall i | 0 <= i < n :: s[i] != ','
    ensures HasField(s, f) <==>
            f == s[..n] || HasField(s[n + 1..], f)
  {
    var rest := s[n + 1..];
    assert BetweenCommas(s, 0, n) && s[0..n] == s[..n];
    forall a: nat, b: nat | BetweenCommas(rest, a, b)
      ensures BetweenCommas(s, n + 1 + a, n + 1 + b) && s[n + 1 + a..n + 1 + b] == rest[a..b]
    {
      assert s[n + 1 + a..n + 1 + b] == rest[a..b];
    }
    forall a: nat, b: nat | BetweenCommas(s, a, b)
      ensures (a == 0 && b == n) ||
              (a > n && BetweenCommas(rest, a - n - 1, b - n - 1) && rest[a - n - 1..b - n - 1] == s[a..b])
    {
      EntryPlace(s, n, a, b);
    }
  }

  lemma {:induction false} EntryPlace(s: string, n: nat, a: nat, b: nat)
    requires n < |s| && s[n] == ',' && (forall i | 0 <= i < n :: s[i] != ',') && BetweenCommas(s, a, b)
    ensures (a == 0 && b == n) ||
            (a > n && BetweenCommas(s[n + 1..], a - n - 1, b - n - 1) && s[n + 1..][a - n - 1..b - n - 1] == s[a..b])
  {
    var rest := s[n + 1..];
    if a > n {
      assert rest[a - n - 1..b - n - 1] == s[a..b];
    }
  }

  /** The codes that are read are what stands between the commas, without the whitespace around. */
  lemma {:induction false} EntriesAre(content: string, e: string)
    ensures e in CodesIn(content) <==> IsEntry(content, e)
  {
    hide Fields, Trimmed, BetweenCommas, Strip;
    if e in CodesIn(content) {
      var f :| f in Fields(content) && Strip(f) == e;
      FieldIff(content, f);
      StripTrims(f);
    }
    if IsEntry(content, e) {
      var a: nat, b: nat :| a <= b <= |content| && BetweenCommas(content, a, b) && Trimmed(content[a..b], e);
      FieldIff(content, content[a..b]);
      TrimmedIsStrip(content[a..b], e);
    }
  }

  // --- what becomes of a line ---

  /** The items with a comma and a space between any two. */
  function CommaList(items: seq<string>): string {
    if items == [] then ""
    else if |items| == 1 then items[0]
    else CommaList(items[..|items| - 1]) + ", " + items[|items| - 1]
  }

  lemma {:induction false} JoinSnoc(items: seq<string>, last: string)
    requires items != []
    ensures JoinCodes(items + [last]) == JoinCodes(items) + ", " + last
  {
    assert (items + [last])[1..] == items[1..] + [last];
    if |items| == 1 {
      assert items[1..] + [last] == [last];
    } else {
      JoinSnoc(items[1..], last);
      assert items[0] + ", " + (JoinCodes(items[1..]) + ", " + last) ==
             items[0] + ", " + JoinCodes(items[1..]) + ", " + last;
    }
  }

  lemma {:induction false} JoinIsCommaList(items: seq<string>)
    ensures JoinCodes(items) == CommaList(items)
    decreases |items|
  {
    if |items| > 1 {
      var init, last := items[..|items| - 1], items[|items| - 1];
      JoinIsCommaList(init);
      JoinSnoc(init, last);
      assert items == init + [last];
    }
  }

  /** `body` with newlines behind it, and none at its end. */
  predicate Ends(body: string, newlines: string) {
    && (forall i | 0 <= i < |newlines| :: newlines[i] == '\n')
    && (body != "" ==> body[|body| - 1] != '\n')
  }

  lemma {:induction false} ChompIs(body: string, newlines: string)
    requires Ends(body, newlines)
    ensures Chomp(body + newlines) == body
    decreases |newlines|
  {
    var line := body + newlines;
    if newlines == "" {
      assert line == body;
    } else {
      var init := newlines[..|newlines| - 1];
      ChompIs(body, init);
      assert line[..|line| - 1] == body + init && line[|line| - 1] == '\n';
    }
  }

  /** The last visible character of a body is a backslash. */
  ghost predicate GoesOn(body: string) {
    exists front: string, blanks: string :: IsBlank(blanks) && body == front + "\\" + blanks
  }

  lemma {:induction false} LastVisible(front: string, c: char, blanks: string)
    requires !IsSpace(c) && IsBlank(blanks)
    ensures RStrip(front + [c] + blanks) == front + [c]
  {
    TrailingConcat(front + [c], blanks);
    assert TrailingSpaces(front + [c]) == 0;
  }

  lemma {:induction false} ContinuedIff(body: string)
    ensures Continued(body) <==> GoesOn(body)
  {
    if Continued(body) {
      var r := RStrip(body);
      var front, blanks := r[..|r| - 1], body[|r|..];
      assert IsBlank(blanks) && r == front + "\\" && body == r + blanks;
    }
    if front: string, blanks: string :| IsBlank(blanks) && body == front + "\\" + blanks {
      assert !IsSpace('\\');
      LastVisible(front, '\\', blanks);
    }
  }

  lemma {:induction false} VisibleEnd(front: string, c: char, blanks: string)
    requires !IsSpace(c) && c != '\\' && IsBlank(blanks)
    ensures !Continued(front + [c] + blanks)
  {
    LastVisible(front, c, blanks);
  }

  lemma {:induction false} SplitWord(a: string, b: string, blanks: string)
    ensures a + (b + "ignore" + blanks) == a + b + "ignor" + ['e'] + blanks
  {
  }

  lemma {:induction false} SplitBracket(a: string, b: string, gap: string, c: string, blanks: string)
    ensures a + (b + "ignore" + (gap + "[" + c + "]" + blanks)) == a + b + "ignore" + gap + "[" + c + [']'] + blanks
  {
    Assoc(a + b + "ignore", gap, "[");
    Assoc(a + b + "ignore", gap + "[", c);
    Assoc(a + b + "ignore", gap + "[" + c, "]");
    Assoc(a + b + "ignore", gap + "[" + c + "]", blanks);
    Assoc(a, b, "ignore");
    Assoc(a, b + "ignore", gap + "[" + c + "]" + blanks);
  }

  /** A comment is visible to its end, so that the line does not go on. */
  lemma {:induction false} CommentEnds(before: string, comment: string, codes: Option<string>)
    requires IsComment(comment, codes)
    ensures comment != "" && !Continued(before + comment)
  {
    var gap: string, gap': string, rest: string :|
      IsBlank(gap) && IsBlank(gap') && CodesPart(rest, codes) &&
      comment == "#" + gap + "type:" + gap' + "ignore" + rest;
    var front := "#" + gap + "type:" + gap';
    assert comment == front + "ignore" + rest;
    hide IsBlank, Continued;
    if codes.None? {
      SplitWord(before, front, rest);
      VisibleEnd(before + front + "ignor", 'e', rest);
    } else {
      var g: string, end: string :| IsBlank(g) && IsBlank(end) && rest == g + "[" + codes.value + "]" + end;
      SplitBracket(before, front, g, codes.value, end);
      VisibleEnd(before + front + "ignore" + g + "[" + codes.value, ']', end);
    }
  }

  /** The codes in the brackets have this entry. */
  ghost predicate Has(codes: Option<string>, e: string) {
    codes.Some? && IsEntry(codes.value, e)
  }

  lemma {:induction false} CodesHave(codes: Option<string>, e: string)
    ensures e in CodesOf(codes) <==> Has(codes, e)
  {
    if codes.Some? {
      EntriesAre(codes.value, e);
    }
  }

  /** `items` are the entries and the target, in order and each once. */
  ghost predicate Merges(items: seq<string>, codes: Option<string>, target: string) {
    && Sorted(items, StringLe) && Distinct(items)
    && forall e :: e in items <==> e == target || Has(codes, e)
  }

  /** A line with a comment stays as it is if its codes have the target; otherwise the comment gives
      way to one with the old codes and the target, in order. */
  lemma {:induction false} CommentMerged(
      before: string, comment: string, codes: Option<string>, newlines: string, target: string, items: seq<string>)
    requires IsComment(comment, codes) && NoComment(before + comment, 0, |before|) && Ends(before + comment, newlines)
    requires Merges(items, codes, target)
    ensures var line := before + comment + newlines;
            ProcessLine(line, target) ==
            if Has(codes, target) then line else before + "# type: ignore[" + CommaList(items) + "]" + "\n"
  {
    hide IsComment, IsEntry, CodesIn, FindFrom, JoinCodes, SortedSet, Continued, Chomp;
    var body := before + comment;
    ChompIs(body, newlines);
    CommentEnds(before, comment, codes);
    assert body[|before|..] == comment && body[..|before|] == before;
    FindIff(body, 0, |before|, codes);
    forall e
      ensures e in CodesOf(codes) <==> Has(codes, e)
    {
      CodesHave(codes, e);
    }
    SortedSetIs(CodesOf(codes) + {target}, items);
    JoinIsCommaList(items);
    assert before + ("# type: ignore[" + CommaList(items) + "]") + "\n" ==
           before + "# type: ignore[" + CommaList(items) + "]" + "\n";
  }

  /** A line without a comment gets one behind two spaces. */
  lemma {:induction false} CommentAppended(body: string, newlines: string, target: string)
    requires NoComment(body, 0, |body|) && Ends(body, newlines) && !GoesOn(body)
    ensures ProcessLine(body + newlines, target) == body + "  # type: ignore[" + target + "]" + "\n"
  {
    hide NoComment, FindFrom, GoesOn, SortedSet, Chomp, Continued;
    ChompIs(body, newlines);
    ContinuedIff(body);
    FindNoneIff(body, 0);
    SortedOne(target);
    assert {} + {target} == {target};
    assert body + "  " + ("# type: ignore[" + target + "]") + "\n" ==
           body + "  # type: ignore[" + target + "]" + "\n";
  }

  /** A line that goes on stays as it is, whatever comment it has. */
  lemma {:induction false} ContinuedStays(body: string, newlines: string, target: string)
    requires Ends(body, newlines) && GoesOn(body)
    ensures ProcessLine(body + newlines, target) == body + newlines
  {
    hide GoesOn, FindFrom;
    ChompIs(body, newlines);
    ContinuedIff(body);
  }

  /** A line stays as it is exactly when it goes on or its comment has the target. */
  lemma {:induction false} StaysIff(body: string, newlines: string, target: string)
    requires IsTarget(target) && Ends(body, newlines)
    ensures ProcessLine(body + newlines, target) == body + newlines <==>
            || GoesOn(body)
            || exists j: nat, codes | j < |body| ::
                 IsComment(body[j..], codes) && NoComment(body, 0, j) && Has(codes, target)
  {
    hide GoesOn, FindFrom, NoComment, IsComment, Has, IsTarget, ProcessLine, Continued;
    var line, m := body + newlines, FindFrom(body, 0);
    ChompIs(body, newlines);
    ContinuedIff(body);
    ProcessLineByPlan(line, target);
    if Plan(line, target).Some? {
      PlannedChanges(line, target);
    }
    forall j: nat, codes: Option<string>
      ensures m == Some((j, codes)) <==> j < |body| && IsComment(body[j..], codes) && NoComment(body, 0, j)
    {
      FindIff(body, 0, j, codes);
    }
    forall codes
      ensures target in CodesOf(codes) <==> Has(codes, target)
    {
      CodesHave(codes, target);
    }
    hide CodesOf;
    if m.Some? {
      var (j, codes) := m.value;
    }
  }

  // --- the usual comments ---

  lemma {:induction false} NoHashNoComment(before: string, comment: string)
    requires '#' !in before
    ensures NoComment(before + comment, 0, |before|)
  {
    forall k, codes | 0 <= k < |before| && k < |before + comment|
      ensures !IsComment((before + comment)[k..], codes)
    {
      assert (before + comment)[k..][0] == before[k];
      assert before[k] in before;
    }
  }

  lemma {:induction false} NoNewlineEnds(body: string, newlines: string)
    requires '\n' !in body && newlines in {"", "\n"}
    ensures Ends(body, newlines)
  {
    assert body != "" ==> body[|body| - 1] in body;
  }

  lemma {:induction false} BareIsComment(blanks: string)
    requires IsBlank(blanks)
    ensures IsComment("# type: ignore" + blanks, None)
  {
    assert "# type: ignore" == "#" + " " + "type:" + " " + "ignore";
    assert CodesPart(blanks, None) && IsBlank(" ");
  }

  lemma {:induction false} BareItems(target: string)
    ensures Merges([target], None, target) && CommaList([target]) == target
  {
  }

  lemma {:induction false} NoNewlines(a: string, b: string)
    requires '\n' !in a && '\n' !in b
    ensures '\n' !in a + b
  {
  }

  /** A bare `# type: ignore` becomes one with the target. */
  lemma {:induction false} BareMerged(before: string, blanks: string, newlines: string, target: string)
    requires '#' !in before && '\n' !in before && '\n' !in blanks && IsBlank(blanks) && newlines in {"", "\n"}
    ensures ProcessLine(before + "# type: ignore" + blanks + newlines, target) ==
            before + "# type: ignore[" + target + "]" + "\n"
  {
    hide *;
    var comment := "# type: ignore" + blanks;
    NoNewlines("# type: ignore", blanks);
    NoNewlines(before, comment);
    BareIsComment(blanks);
    NoHashNoComment(before, comment);
    NoNewlineEnds(before + comment, newlines);
    BareItems(target);
    NothingHeld(target);
    CommentMerged(before, comment, None, newlines, target, [target]);
    Assoc(before, "# type: ignore", blanks);
  }

  lemma {:induction false} NothingHeld(target: string)
    ensures !Has(None, target)
  {
  }

  lemma {:induction false} OneEntry(code: string, e: string)
    requires IsTarget(code)
    ensures Has(Some(code), e) <==> e == code
  {
    EntriesAre(code, e);
    OneField(code);
    assert Strip(code) == code && code in Fields(code);
  }

  lemma {:induction false} InOrder(a: string, b: string)
    requires a != b && StringLe(a, b)
    ensures Sorted([a, b], StringLe) && Distinct([a, b])
    ensures CommaList([a, b]) == a + ", " + b
  {
    assert [a, b][1..] == [b] && [a, b][..1] == [a];
  }

  /** One with a single code stays if that is the target, and otherwise gets the target before or
      behind it, as the order of strings says. */
  lemma {:induction false} OneCodeMerged(before: string, code: string, newlines: string, target: string)
    requires '#' !in before && '\n' !in before && newlines in {"", "\n"} && IsTarget(code)
    ensures var line := before + "# type: ignore[" + code + "]" + newlines;
            ProcessLine(line, target) ==
            if code == target then line
            else if StringLe(code, target) then before + "# type: ignore[" + (code + ", " + target) + "]" + "\n"
            else before + "# type: ignore[" + (target + ", " + code) + "]" + "\n"
  {
    hide *;
    var comment := "# type: ignore[" + code + "]";
    var items := if code == target then [target] else if StringLe(code, target) then [code, target] else [target, code];
    OneCodeItems(code, target);
    OneEntry(code, target);
    BracketsAreComment(code);
    TargetLine(code);
    NoNewlines("# type: ignore[", code);
    NoNewlines("# type: ignore[" + code, "]");
    NoNewlines(before, comment);
    NoHashNoComment(before, comment);
    NoNewlineEnds(before + comment, newlines);
    CommentMerged(before, comment, Some(code), newlines, target, items);
    Assoc(before, "# type: ignore[", code);
    Assoc(before, "# type: ignore[" + code, "]");
  }

  lemma {:induction false} TargetLine(code: string)
    requires IsTarget(code)
    ensures '\n' !in code
  {
  }

  lemma {:induction false} OneCodeItems(code: string, target: string)
    requires IsTarget(code)
    ensures code == target ==> Merges([target], Some(code), target)
    ensures code != target && StringLe(code, target) ==>
              Merges([code, target], Some(code), target) && CommaList([code, target]) == code + ", " + target
    ensures code != target && !StringLe(code, target) ==>
              Merges([target, code], Some(code), target) && CommaList([target, code]) == target + ", " + code
  {
    forall e
      ensures Has(Some(code), e) <==> e == code
    {
      OneEntry(code, e);
    }
    StringOrder();
    hide StringLe, CommaList, Has;
    if code != target && StringLe(code, target) {
      InOrder(code, target);
    } else if code != target {
      InOrder(target, code);
    }
  }

  lemma {:induction false} BracketsAreComment(code: string)
    requires IsTarget(code)
    ensures IsComment("# type: ignore[" + code + "]", Some(code))
  {
    var rest := "[" + code + "]";
    assert IsBlank("") && IsBlank(" ") && rest == "" + "[" + code + "]" + "";
    assert CodesPart(rest, Some(code));
    hide *;
    assert "# type: ignore[" == "#" + " " + "type:" + " " + "ignore" + "[";
    Assoc("#" + " " + "type:" + " " + "ignore", "[", code);
    Assoc("#" + " " + "type:" + " " + "ignore", "[" + code, "]");
    BracketsJoined(rest, code);
  }

  lemma {:induction false} BracketsJoined(rest: string, code: string)
    requires CodesPart(rest, Some(code)) && IsBlank(" ")
    ensures IsComment("#" + " " + "type:" + " " + "ignore" + rest, Some(code))
  {
  }
}
