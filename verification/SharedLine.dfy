/** What the splicing of scripts/convert_fstring_loggers.py makes of several calls on one line. */
module SharedLine {
  import opened FStringSplice
  import opened Seqs
  import opened Sorting
  import opened Splice
  import opened Text
  import opened Wrappers

  /** Calls side by side on line `at`, each within `line` and each with a new text. */
  ghost predicate OnLine(at: nat, line: string, edits: seq<Edit>) {
    && (forall i | 0 <= i < |edits| ::
          && edits[i].start == edits[i].end == at && edits[i].col < edits[i].endCol <= |line|
          && edits[i].text.Some? && !IsBlank(edits[i].text.value))
    && (forall i, j | 0 <= i < j < |edits| :: edits[i].endCol <= edits[j].col)
  }

  function Front(line: string, e: Edit): string {
    Take(line, e.col)
  }

  /** The text from the i-th call's end on when its turn comes: what is between it and the next call,
      and that call's new text, or the rest of the line. */
  function Behind(line: string, edits: seq<Edit>, i: nat): string
    requires i < |edits|
    decreases |edits| - i
  {
    if i + 1 == |edits| then Drop(line, edits[i].endCol)
    else Drop(Take(line, edits[i + 1].col), edits[i].endCol) + NewText(edits[i + 1]) + Ending(line, edits, i + 1)
  }

  function NewText(e: Edit): string {
    if e.text.Some? then e.text.value else ""
  }

  /** How the line of the i-th call ends after its turn. */
  function Ending(line: string, edits: seq<Edit>, i: nat): string
    requires i < |edits|
    decreases |edits| - i, 0
  {
    if i + 1 == |edits| && IsBlank(Drop(line, edits[i].endCol)) then Drop(line, edits[i].endCol) else "\n"
  }

  /** The line of the i-th call after its turn, and the line promoted from behind it. */
  function Head(line: string, edits: seq<Edit>, i: nat): string
    requires i <= |edits|
  {
    if i == |edits| then line else Front(line, edits[i]) + NewText(edits[i]) + Ending(line, edits, i)
  }

  function Below(line: string, edits: seq<Edit>, i: nat): seq<string>
    requires i < |edits|
  {
    if IsBlank(Behind(line, edits, i)) then [] else [Front(line, edits[i]) + LStrip(Behind(line, edits, i))]
  }

  /** The lines promoted by the calls from the i-th on, from top to bottom. */
  function AllBelow(line: string, edits: seq<Edit>, i: nat): seq<string>
    requires i <= |edits|
    decreases |edits| - i
  {
    if i == |edits| then [] else Below(line, edits, i) + AllBelow(line, edits, i + 1)
  }

  /** The text of the line before and behind the i-th call when its turn comes. */
  lemma {:induction false} HeadParts(at: nat, line: string, edits: seq<Edit>, i: nat)
    requires OnLine(at, line, edits) && i < |edits|
    ensures Take(Head(line, edits, i + 1), edits[i].col) == Front(line, edits[i])
    ensures Drop(Head(line, edits, i + 1), edits[i].endCol) == Behind(line, edits, i)
  {
    if i + 1 < |edits| {
      var e, next := edits[i], edits[i + 1];
      assert e.endCol <= next.col <= |line|;
      var text, ending := NewText(next), Ending(line, edits, i + 1);
      assert Head(line, edits, i + 1) == line[..next.col] + text + ending;
      hide OnLine, NewText, Ending;
      CutInFront(line[..next.col], text, ending, e.col, e.endCol);
    }
  }

  lemma {:induction false} CutInFront(a: string, b: string, c: string, i: nat, j: nat)
    requires i <= |a| && j <= |a|
    ensures (a + b + c)[..i] == a[..i] && (a + b + c)[j..] == a[j..] + b + c
  {
    assert a + b + c == a + (b + c) == a[..i] + (a[i..] + (b + c)) == a[..j] + (a[j..] + b + c);
  }

  /** Only the last call can have nothing behind it. */
  lemma {:induction false} BehindInner(at: nat, line: string, edits: seq<Edit>, i: nat)
    requires OnLine(at, line, edits) && i + 1 < |edits|
    ensures !IsBlank(Behind(line, edits, i))
  {
    BehindInk(at, line, edits, i);
    BlankHasNoInk(Behind(line, edits, i));
    BlankHasNoInk(NewText(edits[i + 1]));
  }

  /** What is visible behind a call that another one follows. */
  lemma {:induction false} BehindInk(at: nat, line: string, edits: seq<Edit>, i: nat)
    requires OnLine(at, line, edits) && i + 1 < |edits|
    ensures Ink(Behind(line, edits, i)) ==
            Ink(Drop(Take(line, edits[i + 1].col), edits[i].endCol)) + Ink(NewText(edits[i + 1]))
  {
    var between, text, ending := Drop(Take(line, edits[i + 1].col), edits[i].endCol), NewText(edits[i + 1]),
      Ending(line, edits, i + 1);
    InkConcat(between + text, ending);
    InkConcat(between, text);
    EndingIsBlank(line, edits, i + 1);
    assert Ink(between) + Ink(text) + "" == Ink(between) + Ink(text);
  }

  lemma {:induction false} EndingIsBlank(line: string, edits: seq<Edit>, i: nat)
    requires i < |edits|
    ensures Ink(Ending(line, edits, i)) == ""
  {
    BlankHasNoInk(Ending(line, edits, i));
  }

  /** The lines when the calls from the i-th on have been replaced. */
  function SharedLines(lines: seq<string>, at: nat, edits: seq<Edit>, i: nat): seq<string>
    requires at < |lines| && i <= |edits|
  {
    lines[..at] + ([Head(lines[at], edits, i)] + AllBelow(lines[at], edits, i)) + lines[at + 1..]
  }

  lemma {:induction false} RewriteHead(at: nat, line: string, edits: seq<Edit>, i: nat)
    requires OnLine(at, line, edits) && i < |edits|
    ensures Rewrite([Head(line, edits, i + 1)], edits[i]) == [Head(line, edits, i)] + Below(line, edits, i)
  {
    HeadParts(at, line, edits, i);
    if i + 1 < |edits| {
      BehindInner(at, line, edits, i);
    }
    var e, front, behind := edits[i], Front(line, edits[i]), Behind(line, edits, i);
    assert e.text == Some(NewText(e));
    assert Ending(line, edits, i) == if IsBlank(behind) then behind else "\n";
    hide IsBlank, LStrip, Behind, Ending, OnLine;
  }

  /** The i-th call is replaced in the lines that the later ones have left. */
  lemma {:induction false} SharedStep(lines: seq<string>, at: nat, edits: seq<Edit>, i: nat)
    requires at < |lines| && OnLine(at, lines[at], edits) && i < |edits|
    ensures edits[i].start <= edits[i].end < |SharedLines(lines, at, edits, i + 1)|
    ensures ReplaceOne(SharedLines(lines, at, edits, i + 1), edits[i]) == SharedLines(lines, at, edits, i)
  {
    var line, e := lines[at], edits[i];
    RewriteHead(at, line, edits, i);
    assert e.start == e.end == at;
    assert AllBelow(line, edits, i) == Below(line, edits, i) + AllBelow(line, edits, i + 1);
    hide OnLine, Head, Below, AllBelow, Rewrite;
    InTheMiddle(lines, at, Head(line, edits, i + 1), AllBelow(line, edits, i + 1), e);
    Assoc([Head(line, edits, i)], Below(line, edits, i), AllBelow(line, edits, i + 1));
  }

  /** Replacing in one line of many. */
  lemma {:induction false} InTheMiddle(lines: seq<string>, at: nat, head: string, below: seq<string>, e: Edit)
    requires at < |lines| && e.start == e.end == at
    ensures var now := lines[..at] + ([head] + below) + lines[at + 1..];
            && at < |now|
            && ReplaceOne(now, e) == lines[..at] + (Rewrite([head], e) + below) + lines[at + 1..]
  {
    hide Rewrite;
    var front, behind := lines[..at], lines[at + 1..];
    var now := front + ([head] + below) + behind;
    assert now[..at] == front && now[at] == head && now[at + 1..] == below + behind;
    assert Block(now, e) == [head];
    var out := Rewrite([head], e);
    Assoc(front, out, below + behind);
    Assoc(out, below, behind);
    Assoc(front, out + below, behind);
  }

  /** Several calls on one line can be walked; the last one up, they leave their line with the first
      call replaced, and one line promoted by each call that has text behind it. */
  lemma {:induction false} SharedDescends(lines: seq<string>, at: nat, edits: seq<Edit>, i: nat)
    requires at < |lines| && OnLine(at, lines[at], edits) && i <= |edits|
    ensures Walkable(SharedLines(lines, at, edits, i), edits[..i])
    ensures Descend(SharedLines(lines, at, edits, i), edits[..i]) == SharedLines(lines, at, edits, 0)
    decreases i
  {
    hide OnLine, SharedLines, ReplaceOne;
    if i > 0 {
      PrefixSnoc(edits, i - 1);
      assert edits[..i][..i - 1] == edits[..i - 1];
      SharedStep(lines, at, edits, i - 1);
      SharedDescends(lines, at, edits, i - 1);
    }
  }

  lemma {:induction false} SharedInOrder(at: nat, line: string, edits: seq<Edit>)
    requires OnLine(at, line, edits)
    ensures InOrder(edits)
  {
    assert forall i, j | 0 <= i < j < |edits| :: Before(edits[i], edits[j]) && !Before(edits[j], edits[i]);
    SortedByIndex(edits);
    forall x, y | x in edits && y in edits && Before(x, y) && Before(y, x)
      ensures x == y
    {
      var i :| 0 <= i < |edits| && edits[i] == x;
      var j :| 0 <= j < |edits| && edits[j] == y;
    }
  }

  lemma {:induction false} SortedByIndex(edits: seq<Edit>)
    requires forall i, j | 0 <= i < j < |edits| :: Before(edits[i], edits[j])
    ensures Sorted(edits, Before)
  {
    hide Before;
    if |edits| > 1 {
      assert forall i | 0 <= i < |edits[1..]| :: edits[1..][i] == edits[i + 1];
      SortedByIndex(edits[1..]);
    }
  }

  lemma {:induction false} SharedStart(lines: seq<string>, at: nat, edits: seq<Edit>)
    requires at < |lines|
    ensures SharedLines(lines, at, edits, |edits|) == lines
  {
    assert lines[..at] + ([lines[at]] + []) + lines[at + 1..] == lines;
  }

  /** What the loop over the file makes of several calls on one line, however they were found. */
  lemma {:induction false} SharedLineResult(lines: seq<string>, at: nat, edits: seq<Edit>)
    requires at < |lines| && OnLine(at, lines[at], edits)
    ensures InOrder(edits) && Walkable(lines, edits)
    ensures Descend(lines, edits) ==
            lines[..at] + ([Head(lines[at], edits, 0)] + AllBelow(lines[at], edits, 0)) + lines[at + 1..]
  {
    SharedInOrder(at, lines[at], edits);
    SharedDescends(lines, at, edits, |edits|);
    SharedStart(lines, at, edits);
    assert edits[..|edits|] == edits;
    hide OnLine, InOrder, Walkable, Descend, Head, AllBelow;
  }

  /** Calls without a new text do not matter, here or elsewhere. */
  lemma {:induction false} SkippedDoNotMatter(lines: seq<string>, edits: seq<Edit>)
    requires Walkable(lines, edits)
    ensures var kept := Filter(edits, HasText);
            Walkable(lines, kept) && Descend(lines, kept) == Descend(lines, edits)
    decreases |edits|
  {
    hide ReplaceOne;
    if edits != [] {
      var init, last := edits[..|edits| - 1], edits[|edits| - 1];
      assert edits == init + [last];
      FilterConcat(init, [last], HasText);
      assert [last][1..] == [];
      SkippedDoNotMatter(ReplaceOne(lines, last), init);
      if HasText(last) {
        assert (Filter(init, HasText) + [last])[..|Filter(init, HasText)|] == Filter(init, HasText);
      } else {
        NotReplaced(lines, last);
        assert Filter(init, HasText) + [] == Filter(init, HasText);
      }
    }
  }

  lemma {:induction false} NotReplaced(lines: seq<string>, e: Edit)
    requires e.start <= e.end < |lines| && e.text.None?
    ensures ReplaceOne(lines, e) == lines
  {
    SkippedStays(lines, e);
  }

  predicate HasText(e: Edit) {
    e.text.Some?
  }

  // --- conservation ---

  /** The ideal: each call exchanged for its text, all on one line. */
  function Exchanged(line: string, edits: seq<Edit>, i: nat): string
    requires i < |edits|
    decreases |edits| - i
  {
    if i + 1 == |edits| then NewText(edits[i]) + Drop(line, edits[i].endCol)
    else NewText(edits[i]) + Drop(Take(line, edits[i + 1].col), edits[i].endCol) + Exchanged(line, edits, i + 1)
  }

  /** No text before a call comes twice: none stands before a call that another one follows, nor
      before the last one if text follows it. */
  predicate RepeatsNothing(line: string, edits: seq<Edit>, i: nat)
    requires i < |edits|
    decreases |edits| - i
  {
    if i + 1 == |edits| then IsBlank(Front(line, edits[i])) || IsBlank(Drop(line, edits[i].endCol))
    else IsBlank(Front(line, edits[i])) && RepeatsNothing(line, edits, i + 1)
  }

  /** The ink of the i-th call and of the lines promoted from it on. */
  function Shown(line: string, edits: seq<Edit>, i: nat): string
    requires i < |edits|
  {
    Ink(NewText(edits[i])) + InkOf(AllBelow(line, edits, i))
  }

  /** It is that of the exchange but for the text before the call, where that comes again. */
  lemma {:induction false} ShownLast(line: string, edits: seq<Edit>, i: nat)
    requires i + 1 == |edits|
    ensures var front := if IsBlank(Drop(line, edits[i].endCol)) then "" else Ink(Front(line, edits[i]));
            && Shown(line, edits, i) == Ink(NewText(edits[i])) + front + Ink(Drop(line, edits[i].endCol))
            && Ink(Exchanged(line, edits, i)) == Ink(NewText(edits[i])) + Ink(Drop(line, edits[i].endCol))
  {
    var text, behind := NewText(edits[i]), Drop(line, edits[i].endCol);
    OneBelowInk(line, edits, i);
    assert AllBelow(line, edits, i) == Below(line, edits, i) + [];
    assert Below(line, edits, i) + [] == Below(line, edits, i);
    BlankHasNoInk(behind);
    InkConcat(text, behind);
    hide IsBlank, Ink, InkOf, AllBelow, Below;
    Assoc(Ink(text), Ink(Front(line, edits[i])), Ink(behind));
  }

  lemma {:induction false} ShownInner(at: nat, line: string, edits: seq<Edit>, i: nat)
    requires OnLine(at, line, edits) && i + 1 < |edits|
    ensures var between := Drop(Take(line, edits[i + 1].col), edits[i].endCol);
            && Shown(line, edits, i) ==
              Ink(NewText(edits[i])) + Ink(Front(line, edits[i])) + (Ink(between) + Shown(line, edits, i + 1))
            && Ink(Exchanged(line, edits, i)) ==
              Ink(NewText(edits[i])) + (Ink(between) + Ink(Exchanged(line, edits, i + 1)))
  {
    var text, front, between := NewText(edits[i]), Front(line, edits[i]),
      Drop(Take(line, edits[i + 1].col), edits[i].endCol);
    BehindInner(at, line, edits, i);
    BehindInk(at, line, edits, i);
    OneBelowInk(line, edits, i);
    InkOfTwoLists(Below(line, edits, i), AllBelow(line, edits, i + 1));
    InkConcat(text + between, Exchanged(line, edits, i + 1));
    InkConcat(text, between);
    assert AllBelow(line, edits, i) == Below(line, edits, i) + AllBelow(line, edits, i + 1);
    hide Exchanged, AllBelow, Behind, Below, IsBlank, OnLine, Ink, InkOf, Front;
    Regroup(Ink(text), Ink(front), Ink(between), Ink(NewText(edits[i + 1])), InkOf(AllBelow(line, edits, i + 1)));
    Assoc(Ink(text), Ink(between), Ink(Exchanged(line, edits, i + 1)));
  }

  lemma {:induction false} Regroup(a: string, b: string, c: string, d: string, e: string)
    ensures a + (b + (c + d) + e) == a + b + (c + (d + e))
  {
  }

  lemma {:induction false} BelowInk(at: nat, line: string, edits: seq<Edit>, i: nat)
    requires OnLine(at, line, edits) && i < |edits|
    ensures |Shown(line, edits, i)| >= |Ink(Exchanged(line, edits, i))|
    ensures |Shown(line, edits, i)| == |Ink(Exchanged(line, edits, i))| <==> RepeatsNothing(line, edits, i)
    ensures RepeatsNothing(line, edits, i) ==> Shown(line, edits, i) == Ink(Exchanged(line, edits, i))
    decreases |edits| - i
  {
    BlankHasNoInk(Front(line, edits[i]));
    var text, front := Ink(NewText(edits[i])), Ink(Front(line, edits[i]));
    if i + 1 == |edits| {
      var behind := Drop(line, edits[i].endCol);
      ShownLast(line, edits, i);
      hide OnLine, Shown, Exchanged, Ink, Front, NewText, Drop, IsBlank;
      Compare(text, if IsBlank(behind) then "" else front, Ink(behind), Ink(behind), true);
    } else {
      var between := Ink(Drop(Take(line, edits[i + 1].col), edits[i].endCol));
      ShownInner(at, line, edits, i);
      BelowInk(at, line, edits, i + 1);
      hide OnLine, Shown, Exchanged, Ink, Front, NewText, Take, Drop, IsBlank;
      var shown, exact, same := Shown(line, edits, i + 1), Ink(Exchanged(line, edits, i + 1)),
        RepeatsNothing(line, edits, i + 1);
      Compare(text, front, between + shown, between + exact, same);
    }
  }

  lemma {:induction false} Compare(text: string, front: string, shown: string, exact: string, same: bool)
    requires |shown| >= |exact| && (|shown| == |exact| <==> same) && (same ==> shown == exact)
    ensures |text + front + shown| >= |text + exact|
    ensures |text + front + shown| == |text + exact| <==> front == "" && same
    ensures front == "" && same ==> text + front + shown == text + exact
  {
  }

  lemma {:induction false} OneBelowInk(line: string, edits: seq<Edit>, i: nat)
    requires i < |edits|
    ensures InkOf(Below(line, edits, i)) ==
            if IsBlank(Behind(line, edits, i)) then "" else Ink(Front(line, edits[i])) + Ink(Behind(line, edits, i))
  {
    var front, behind := Front(line, edits[i]), Behind(line, edits, i);
    InkOfOne(front + LStrip(behind));
    InkConcat(front, LStrip(behind));
    StripKeepsInk(behind);
  }

  /** Several calls on one line keep its visible text exactly if no text before a call comes twice. */
  lemma {:induction false} SharedConservesIff(lines: seq<string>, at: nat, edits: seq<Edit>)
    requires at < |lines| && OnLine(at, lines[at], edits) && edits != []
    ensures Walkable(lines, edits)
    ensures var exact := lines[..at] + [Front(lines[at], edits[0]) + Exchanged(lines[at], edits, 0)] + lines[at + 1..];
            InkOf(Descend(lines, edits)) == InkOf(exact) <==> RepeatsNothing(lines[at], edits, 0)
  {
    var line := lines[at];
    SharedLineResult(lines, at, edits);
    BelowInk(at, line, edits, 0);
    HeadInk(line, edits);
    hide OnLine, Walkable, Descend, AllBelow, Exchanged, RepeatsNothing, Head, InkOf, Ink;
    InkAround(lines[..at], [Head(line, edits, 0)] + AllBelow(line, edits, 0), lines[at + 1..]);
    InkAround(lines[..at], [Front(line, edits[0]) + Exchanged(line, edits, 0)], lines[at + 1..]);
    InkOfTwoLists([Head(line, edits, 0)], AllBelow(line, edits, 0));
    InkOfOne(Front(line, edits[0]) + Exchanged(line, edits, 0));
    InkConcat(Front(line, edits[0]), Exchanged(line, edits, 0));
    Assoc(Ink(Front(line, edits[0])), Ink(NewText(edits[0])), InkOf(AllBelow(line, edits, 0)));
    SameInside(InkOf(lines[..at]), Ink(Front(line, edits[0])), Shown(line, edits, 0), Ink(Exchanged(line, edits, 0)),
      InkOf(lines[at + 1..]));
  }

  lemma {:induction false} HeadInk(line: string, edits: seq<Edit>)
    requires edits != []
    ensures InkOf([Head(line, edits, 0)]) == Ink(Front(line, edits[0])) + Ink(NewText(edits[0]))
  {
    InkOfOne(Head(line, edits, 0));
    InkConcat(Front(line, edits[0]) + NewText(edits[0]), Ending(line, edits, 0));
    InkConcat(Front(line, edits[0]), NewText(edits[0]));
    EndingIsBlank(line, edits, 0);
  }

  lemma {:induction false} InkAround(a: seq<string>, b: seq<string>, c: seq<string>)
    ensures InkOf(a + b + c) == InkOf(a) + InkOf(b) + InkOf(c)
  {
    InkOfTwoLists(a + b, c);
    InkOfTwoLists(a, b);
  }

  lemma {:induction false} SameInside(a: string, b: string, x: string, y: string, c: string)
    ensures a + (b + x) + c == a + (b + y) + c <==> x == y
  {
    var n := |a| + |b|;
    var s, t := a + (b + x) + c, a + (b + y) + c;
    assert s[n..|s| - |c|] == x && t[n..|t| - |c|] == y;
  }

  /** With two calls that is so if and only if nothing visible stands before the first or behind the
      second; with three or more never: the text before the second holds the first, which comes back
      in its old form. */
  lemma {:induction false} OldCallComesBack(at: nat, line: string, edits: seq<Edit>)
    requires OnLine(at, line, edits) && |edits| >= 2
    requires !IsBlank(Drop(Take(line, edits[0].endCol), edits[0].col))
    ensures RepeatsNothing(line, edits, 0) <==>
            |edits| == 2 && IsBlank(Front(line, edits[0])) && IsBlank(Drop(line, edits[1].endCol))
  {
    var call, front := Drop(Take(line, edits[0].endCol), edits[0].col), Front(line, edits[1]);
    var k :| 0 <= k < |call| && !IsSpace(call[k]);
    assert front[edits[0].col + k] == call[k];
    assert !IsBlank(front);
  }
}
