/** scripts/convert_fstring_loggers.py, the splicing half: the calls of a file are replaced in the
    list of its lines, in place and from the bottom up. */
module FStringSplice {
  import opened Seqs
  import opened Sorting
  import opened Splice
  import opened Text
  import opened Wrappers

  /** What `_replace_call` makes of the lines of one call. */
  function Rewrite(block: seq<string>, e: Edit): seq<string> {
    if e.text.None? then block
    else
      var head := Prefix(block, e) + e.text.value;
      if |block| == 1 then
        if IsBlank(Trailing(block, e)) then [head + Trailing(block, e)]
        else [head + "\n", Prefix(block, e) + LStrip(Trailing(block, e))]
      else
        var trailing := if e.endCol == 0 then "" else Trailing(block, e);
        if IsBlank(trailing) then [head + "\n"]
        else [head + "\n", Prefix(block, e) + LStrip(trailing)]
  }

  function PatchOf(lines: seq<string>, e: Edit): Patch<string> {
    Patch(e.start, e.end, Rewrite(Block(lines, e), e))
  }

  function Patches(lines: seq<string>, edits: seq<Edit>): seq<Patch<string>> {
    if edits == [] then [] else [PatchOf(lines, edits[0])] + Patches(lines, edits[1..])
  }

  /** The order in which the calls are found in the file. */
  predicate Before(a: Edit, b: Edit) {
    a.start < b.start || (a.start == b.start && a.col <= b.col)
  }

  /** How many calls get a new text. */
  function Convertible(edits: seq<Edit>): nat {
    if edits == [] then 0 else (if edits[0].text.Some? then 1 else 0) + Convertible(edits[1..])
  }

  /** The calls with a new text among the first `n`. */
  function WithText(edits: seq<Edit>, n: nat): set<nat>
    requires n <= |edits|
  {
    set i: nat | i < n && edits[i].text.Some?
  }

  lemma {:induction false} WithTextNext(edits: seq<Edit>, n: nat)
    requires n < |edits|
    ensures n !in WithText(edits, n)
    ensures WithText(edits, n + 1) == WithText(edits, n) + if edits[n].text.Some? then {n} else {}
  {
  }

  lemma {:induction false} ConvertibleAre(edits: seq<Edit>, n: nat)
    requires n <= |edits|
    ensures Convertible(edits[..n]) == |WithText(edits, n)|
  {
    hide WithText;
    if n == 0 {
      NoneWithText(edits);
    } else {
      ConvertibleAre(edits, n - 1);
      PrefixSnoc(edits, n - 1);
      ConvertibleSnoc(edits[..n - 1], edits[n - 1]);
      WithTextNext(edits, n - 1);
    }
  }

  lemma {:induction false} NoneWithText(edits: seq<Edit>)
    ensures WithText(edits, 0) == {}
  {
  }

  lemma {:induction false} ConvertibleSnoc(edits: seq<Edit>, e: Edit)
    ensures Convertible(edits + [e]) == Convertible(edits) + if e.text.Some? then 1 else 0
  {
    if edits == [] {
      assert edits + [e] == [e];
    } else {
      assert (edits + [e])[1..] == edits[1..] + [e];
      ConvertibleSnoc(edits[1..], e);
    }
  }

  // --- the loop over the calls, from the last up ---

  /** One call replaced in the list of lines, or skipped where there is no new text. */
  function ReplaceOne(lines: seq<string>, e: Edit): seq<string>
    requires e.start <= e.end < |lines|
  {
    Replace(lines, PatchOf(lines, e))
  }

  /** Every call, when its turn comes, is in the lines there are by then. */
  ghost predicate Walkable(lines: seq<string>, edits: seq<Edit>)
    decreases |edits|
  {
    edits == [] ||
    var last := edits[|edits| - 1];
    last.start <= last.end < |lines| && Walkable(ReplaceOne(lines, last), edits[..|edits| - 1])
  }

  /** All calls replaced, the last one first. */
  ghost function Descend(lines: seq<string>, edits: seq<Edit>): seq<string>
    requires Walkable(lines, edits)
    decreases |edits|
  {
    if edits == [] then lines
    else Descend(ReplaceOne(lines, edits[|edits| - 1]), edits[..|edits| - 1])
  }

  lemma {:induction false} DescendNext(lines: seq<string>, edits: seq<Edit>, i: nat)
    requires 0 < i <= |edits| && Walkable(lines, edits[..i])
    ensures edits[i - 1].start <= edits[i - 1].end < |lines|
    ensures Walkable(ReplaceOne(lines, edits[i - 1]), edits[..i - 1])
    ensures Descend(lines, edits[..i]) == Descend(ReplaceOne(lines, edits[i - 1]), edits[..i - 1])
  {
    PrefixSnoc(edits, i - 1);
    assert edits[..i][..i - 1] == edits[..i - 1];
    hide ReplaceOne;
  }

  class SourceFile {
    var lines: seq<string>

    constructor (text: string)
      ensures lines == Split(text)
    {
      lines := Split(text);
    }

    method ReplaceCall(e: Edit)
      requires e.start <= e.end < |lines| && e.text.Some?
      modifies this
      ensures lines == Replace(old(lines), PatchOf(old(lines), e))
    {
      if e.start == e.end {
        ReplaceInLine(e);
      } else {
        ReplaceLines(e);
      }
    }

    /** The single-line branch. */
    method ReplaceInLine(e: Edit)
      requires e.start == e.end < |lines| && e.text.Some?
      modifies this
      ensures lines == Replace(old(lines), PatchOf(old(lines), e))
    {
      ghost var block := Block(lines, e);
      var line := lines[e.start];
      assert block == [line];
      var indent := Take(line, e.col);
      var trailing := Drop(line, e.endCol);
      var head := Take(line, e.col) + e.text.value;
      var promoted := indent + LStrip(trailing);
      if !IsBlank(trailing) {
        assert Rewrite(block, e) == [head + "\n", promoted];
        UpdateInsert(lines, e.start, head + "\n", promoted);
        lines := lines[e.start := head + "\n"];
        lines := lines[..e.start + 1] + [promoted] + lines[e.start + 1..];
      } else {
        assert Rewrite(block, e) == [head + trailing];
        UpdateInsert(lines, e.start, head + trailing, "");
        lines := lines[e.start := head + trailing];
      }
    }

    /** The multi-line branch: delete the lines of the call, then insert. */
    method ReplaceLines(e: Edit)
      requires e.start < e.end < |lines| && e.text.Some?
      modifies this
      ensures lines == Replace(old(lines), PatchOf(old(lines), e))
    {
      ghost var block := Block(lines, e);
      assert block[0] == lines[e.start] && block[|block| - 1] == lines[e.end];
      var indent := Take(lines[e.start], e.col);
      var trailing := if e.endCol == 0 then "" else Drop(lines[e.end], e.endCol);
      var head := indent + e.text.value;
      var promoted := indent + LStrip(trailing);
      DeleteInsert(lines, e.start, e.end + 1, head + "\n", promoted);
      assert Rewrite(block, e) == if IsBlank(trailing) then [head + "\n"] else [head + "\n", promoted];
      lines := lines[..e.start] + lines[e.end + 1..];
      lines := lines[..e.start] + [head + "\n"] + lines[e.start..];
      if !IsBlank(trailing) {
        lines := lines[..e.start + 1] + [promoted] + lines[e.start + 1..];
      }
    }

    /** The loop of `convert_file`: the targets in any order of discovery, no two of which start at
        one place; those whose f-string cannot be converted have no text and are skipped.  `layout`
        is their order in the file. */
    method ConvertFile(targets: seq<Edit>, ghost layout: seq<Edit>) returns (converted: nat, skipped: nat)
      requires multiset(layout) == multiset(targets) && InOrder(layout) && Walkable(lines, layout)
      modifies this
      ensures lines == Descend(old(lines), layout)
      ensures Apart(0, layout, |old(lines)|) ==>
                && Laid(0, Patches(old(lines), layout), |old(lines)|)
                && lines == Forward(old(lines), 0, Patches(old(lines), layout))
      ensures converted + skipped == |targets|
      ensures converted == Convertible(layout)
    {
      hide *;
      ghost var original := lines;
      var sorted := Sort(targets, Before);
      SortedTargets(targets, layout);
      ToGoStart(original, layout);
      converted, skipped := 0, 0;
      var i: nat := |sorted|;
      while i > 0
        invariant i <= |sorted| && sorted == layout
        invariant ToGo(lines, original, layout, i, converted)
        invariant converted + skipped == |sorted| - i
      {
        ToGoNext(lines, original, layout, i, converted);
        i := i - 1;
        var done := ReplaceOrSkip(sorted[i]);
        if done {
          converted := converted + 1;
        } else {
          skipped := skipped + 1;
        }
      }
      ToGoEnd(lines, original, layout, converted);
    }

    method ReplaceOrSkip(e: Edit) returns (done: bool)
      requires e.start <= e.end < |lines|
      modifies this
      ensures lines == ReplaceOne(old(lines), e) && done == e.text.Some?
    {
      done := e.text.Some?;
      if done {
        ReplaceCall(e);
      } else {
        SkippedStays(lines, e);
      }
    }
  }

  /** The first `i` calls are to go in the lines there are by now, the others have been dealt with. */
  ghost predicate ToGo(lines: seq<string>, original: seq<string>, layout: seq<Edit>, i: nat, converted: nat) {
    && i <= |layout| && Walkable(original, layout) && Walkable(lines, layout[..i])
    && Descend(lines, layout[..i]) == Descend(original, layout)
    && converted == Convertible(layout[i..])
  }

  lemma {:induction false} ToGoStart(original: seq<string>, layout: seq<Edit>)
    requires Walkable(original, layout)
    ensures ToGo(original, original, layout, |layout|, 0)
  {
    assert layout[..|layout|] == layout && layout[|layout|..] == [];
  }

  lemma {:induction false} ToGoNext(
      lines: seq<string>, original: seq<string>, layout: seq<Edit>, i: nat, converted: nat)
    requires i > 0 && ToGo(lines, original, layout, i, converted)
    ensures i <= |layout| && layout[i - 1].start <= layout[i - 1].end < |lines|
    ensures ToGo(ReplaceOne(lines, layout[i - 1]), original, layout, i - 1,
            converted + if layout[i - 1].text.Some? then 1 else 0)
  {
    hide Walkable, Descend, ReplaceOne;
    DescendNext(lines, layout, i);
    assert layout[i - 1..][1..] == layout[i..];
  }

  lemma {:induction false} ToGoEnd(lines: seq<string>, original: seq<string>, layout: seq<Edit>, converted: nat)
    requires ToGo(lines, original, layout, 0, converted)
    ensures Walkable(original, layout) && lines == Descend(original, layout) && converted == Convertible(layout)
    ensures Apart(0, layout, |original|) ==>
              && Laid(0, Patches(original, layout), |original|)
              && lines == Forward(original, 0, Patches(original, layout))
  {
    assert layout[..0] == [] && layout[0..] == layout;
    hide Walkable, Forward, Patches, Laid;
    if Apart(0, layout, |original|) {
      ApartDescends(original, layout);
    }
  }

  /** Targets in the order of the file, no two of which start at one place. */
  ghost predicate InOrder(layout: seq<Edit>) {
    Sorted(layout, Before) && Separates(Before, layout)
  }

  lemma {:induction false} SortedTargets(targets: seq<Edit>, layout: seq<Edit>)
    requires multiset(layout) == multiset(targets) && InOrder(layout)
    ensures Sort(targets, Before) == layout && |layout| == |targets|
  {
    BeforeIsTopDown();
    SortSorts(targets, Before);
    SortedUnique(layout, Sort(targets, Before), Before);
    SameSize(layout, targets);
  }

  /** Calls on lines of their own are in order and can be walked, and replacing them from the last up
      gives the same lines as one forward pass over the original. */
  lemma {:induction false} ApartDescends(lines: seq<string>, layout: seq<Edit>)
    requires Apart(0, layout, |lines|)
    ensures InOrder(layout) && Walkable(lines, layout)
    ensures Laid(0, Patches(lines, layout), |lines|)
    ensures Descend(lines, layout) == Forward(lines, 0, Patches(lines, layout))
  {
    BeforeIsTopDown();
    ApartIsSorted(0, layout, |lines|, Before);
    PatchesLaid(lines, 0, layout);
    PatchesSize(lines, layout);
    assert Patches(lines, layout)[..|layout|] == Patches(lines, layout) && layout[..|layout|] == layout;
    DescendsUpTo(lines, lines, layout, |layout|, |lines|);
  }

  lemma {:induction false} DescendsUpTo(now: seq<string>, lines: seq<string>, edits: seq<Edit>, i: nat, seen: nat)
    requires i <= |edits| == |Patches(lines, edits)| && SameUpTo(now, lines, seen)
    requires Laid(0, Patches(lines, edits)[..i], seen) && Laid(0, Patches(lines, edits)[..i], |now|)
    ensures Walkable(now, edits[..i]) && Descend(now, edits[..i]) == Forward(now, 0, Patches(lines, edits)[..i])
    decreases i
  {
    hide Patches, Laid, PatchOf;
    if i > 0 {
      PrefixSnoc(edits, i - 1);
      assert edits[..i][..i - 1] == edits[..i - 1];
      OneCallLess(now, lines, edits, i - 1, seen);
      DescendsUpTo(ReplaceOne(now, edits[i - 1]), lines, edits, i - 1, edits[i - 1].start);
    } else {
      assert Patches(lines, edits)[..0] == [] && now[0..] == now;
    }
  }

  lemma {:induction false} PatchesSize(lines: seq<string>, edits: seq<Edit>)
    ensures |Patches(lines, edits)| == |edits|
  {
    if edits != [] {
      PatchesSize(lines, edits[1..]);
    }
  }

  lemma {:induction false} PatchesAt(lines: seq<string>, edits: seq<Edit>, i: nat)
    requires i < |edits|
    ensures i < |Patches(lines, edits)| && Patches(lines, edits)[i] == PatchOf(lines, edits[i])
  {
    if i > 0 {
      PatchesAt(lines, edits[1..], i - 1);
    }
  }

  /** One turn of the loop: `now` is `lines` with the calls from the i-th on replaced, unchanged in
      the lines before `seen`, where the i-th ends. */
  lemma {:induction false} OneCallLess(now: seq<string>, lines: seq<string>, edits: seq<Edit>, i: nat, seen: nat)
    requires i < |edits| == |Patches(lines, edits)| && SameUpTo(now, lines, seen)
    requires Laid(0, Patches(lines, edits)[..i + 1], seen)
    ensures edits[i].start <= edits[i].end < |now|
    ensures Laid(0, Patches(lines, edits)[..i + 1], |now|)
    ensures var next := Replace(now, PatchOf(now, edits[i]));
            var rest := Patches(lines, edits)[..i];
            && SameUpTo(next, lines, edits[i].start)
            && Laid(0, rest, edits[i].start) && Laid(0, rest, |next|)
            && Forward(next, 0, rest) == Forward(now, 0, Patches(lines, edits)[..i + 1])
  {
    var patches, e := Patches(lines, edits), edits[i];
    var rest, p := patches[..i], patches[i];
    assert patches[..i + 1] == rest + [p];
    LaidSnoc(0, rest, p, seen);
    LaidMore(0, patches[..i + 1], seen, |now|);
    PatchesAt(lines, edits, i);
    SameBlock(now, lines, seen, e);
    ReplaceLast(now, rest, p);
    KeptInFront(now, lines, seen, p);
  }

  lemma {:induction false} SkippedStays(lines: seq<string>, e: Edit)
    requires e.start <= e.end < |lines| && e.text.None?
    ensures Replace(lines, PatchOf(lines, e)) == lines
  {
    assert lines[..e.start] + lines[e.start..e.end + 1] == lines[..e.end + 1];
  }

  lemma {:induction false} BeforeIsTopDown()
    ensures TopDown(Before)
  {
  }

  lemma {:induction false} PatchesLaid(lines: seq<string>, from: nat, edits: seq<Edit>)
    requires Apart(from, edits, |lines|)
    ensures Laid(from, Patches(lines, edits), |lines|)
    decreases |edits|
  {
    hide Rewrite, Block;
    if edits != [] {
      assert Patches(lines, edits)[1..] == Patches(lines, edits[1..]);
      PatchesLaid(lines, edits[0].end + 1, edits[1..]);
    }
  }

  // --- the exact lines ---

  /** What stands before the call on its first line, and behind it on its last. */
  function BeforeCall(lines: seq<string>, e: Edit): string
    requires e.start < |lines|
  {
    if e.col <= |lines[e.start]| then lines[e.start][..e.col] else lines[e.start]
  }

  function BehindCall(lines: seq<string>, e: Edit): string
    requires e.end < |lines|
  {
    if e.endCol <= |lines[e.end]| then lines[e.end][e.endCol..] else ""
  }

  /** A call on one line: what is behind it stays there if it is blank, and otherwise moves to a line
      of its own, behind what is before the call. */
  lemma {:induction false} LineReplaced(lines: seq<string>, e: Edit)
    requires e.start == e.end < |lines| && e.text.Some?
    ensures var before, behind := BeforeCall(lines, e), BehindCall(lines, e);
            ReplaceOne(lines, e) ==
            lines[..e.start]
            + (if IsBlank(behind) then [before + e.text.value + behind]
               else [before + e.text.value + "\n", before + behind[LeadingSpaces(behind)..]])
            + lines[e.end + 1..]
  {
    assert Block(lines, e) == [lines[e.start]];
  }

  /** A call over several lines: these lines go, what is behind the call goes with them if it is blank
      or if the call ends in front of the line, and the new line always ends with a newline. */
  lemma {:induction false} LinesReplaced(lines: seq<string>, e: Edit)
    requires e.start < e.end < |lines| && e.text.Some?
    ensures var before, behind := BeforeCall(lines, e), BehindCall(lines, e);
            ReplaceOne(lines, e) ==
            lines[..e.start]
            + (if e.endCol == 0 || IsBlank(behind) then [before + e.text.value + "\n"]
               else [before + e.text.value + "\n", before + behind[LeadingSpaces(behind)..]])
            + lines[e.end + 1..]
  {
    var block := Block(lines, e);
    assert block[0] == lines[e.start] && block[|block| - 1] == lines[e.end];
  }

  /** A call over two lines in front of another line. */
  lemma {:induction false} NewlineKept()
    ensures var lines, e := ["  f(\n", "    x)\n", "  y\n"], Edit(0, 2, 1, 6, Some("g(x)"));
            ReplaceOne(lines, e) == ["  g(x)\n", "  y\n"]
  {
    var lines, e := ["  f(\n", "    x)\n", "  y\n"], Edit(0, 2, 1, 6, Some("g(x)"));
    LinesReplaced(lines, e);
    assert "  f(\n"[..2] == "  " && "    x)\n"[6..] == "\n" && IsBlank("\n");
    assert "  " + "g(x)" + "\n" == "  g(x)\n";
    assert lines[..0] == [] && lines[2..] == ["  y\n"];
  }

  // --- no line runs into the next ---

  /** The call lies within its lines, their newlines aside, and its text is a line's. */
  predicate Fitting(lines: seq<string>, e: Edit) {
    && e.start <= e.end < |lines|
    && Inside(lines[e.start], e.col) && Inside(lines[e.end], e.endCol)
    && (e.text.Some? ==> e.text.value != "" && '\n' !in e.text.value)
  }

  predicate Inside(line: string, col: nat) {
    col <= |line| && '\n' !in line[..col]
  }

  /** Every call fits in the lines there are when its turn comes. */
  ghost predicate AllFit(lines: seq<string>, edits: seq<Edit>)
    decreases |edits|
  {
    edits == [] ||
    var last := edits[|edits| - 1];
    Fitting(lines, last) && AllFit(ReplaceOne(lines, last), edits[..|edits| - 1])
  }

  lemma {:induction false} FitWalks(lines: seq<string>, edits: seq<Edit>)
    requires AllFit(lines, edits)
    ensures Walkable(lines, edits)
    decreases |edits|
  {
    if edits != [] {
      FitWalks(ReplaceOne(lines, edits[|edits| - 1]), edits[..|edits| - 1]);
    }
  }

  /** Text in front of a line without newline, and what is behind a column of the line. */
  lemma {:induction false} StillLine(front: string, line: string, col: nat)
    requires '\n' !in front && Inside(line, col) && (front != "" || col < |line|)
    ensures IsLine(line) ==> IsLine(front + line[col..])
    ensures IsLastLine(line) ==> IsLastLine(front + line[col..])
  {
    var whole := front + line[col..];
    assert forall i | |front| <= i < |whole| :: whole[i] == line[i - |front| + col];
    assert forall i | 0 <= i < |front| :: whole[i] == front[i];
    assert line[..|line|] == line;
  }

  lemma {:induction false} BlankKept(line: string, col: nat)
    requires Inside(line, col) && !IsBlank(line[col..])
    ensures var behind := line[col..];
            var k := col + LeadingSpaces(behind);
            behind[LeadingSpaces(behind)..] == line[k..] && k < |line|
    ensures IsLine(line) || IsLastLine(line) ==> Inside(line, col + LeadingSpaces(line[col..]))
  {
    var behind := line[col..];
    var k := col + LeadingSpaces(behind);
    assert k < |line|;
    assert forall i | 0 <= i < k :: line[..k][i] == line[i];
  }

  lemma {:induction false} EndsLine(front: string)
    requires '\n' !in front
    ensures IsLine(front + "\n")
  {
  }

  /** The lines that replace a call: complete but for the last, which ends as the call's last did. */
  ghost predicate EndsAs(out: seq<string>, line: string) {
    && out != []
    && (forall i | 0 <= i < |out| - 1 :: IsLine(out[i]))
    && (IsLine(line) ==> IsLine(out[|out| - 1]))
    && (IsLastLine(line) ==> IsLastLine(out[|out| - 1]))
  }

  lemma {:induction false} PromotedEnds(before: string, head: string, line: string, col: nat)
    requires '\n' !in before && '\n' !in head && Inside(line, col) && IsLastLine(line) && !IsBlank(line[col..])
    ensures EndsAs([head + "\n", before + line[col..][LeadingSpaces(line[col..])..]], line)
  {
    EndsLine(head);
    BlankKept(line, col);
    StillLine(before, line, col + LeadingSpaces(line[col..]));
    hide IsLine, IsLastLine, IsBlank;
  }

  lemma {:induction false} BlankEnds(head: string, line: string, col: nat)
    requires '\n' !in head && head != "" && Inside(line, col)
    ensures EndsAs([head + line[col..]], line) && EndsAs([head + "\n"], line)
  {
    EndsLine(head);
    LineIsLast(head + "\n");
    StillLine(head, line, col);
    hide IsLine, IsLastLine;
  }

  lemma {:induction false} FitParts(lines: seq<string>, e: Edit)
    requires Fitting(lines, e) && e.text.Some?
    ensures '\n' !in BeforeCall(lines, e) && '\n' !in BeforeCall(lines, e) + e.text.value
    ensures BeforeCall(lines, e) + e.text.value != ""
    ensures Inside(lines[e.end], e.endCol) && BehindCall(lines, e) == lines[e.end][e.endCol..]
  {
  }

  lemma {:induction false} OutputLines(lines: seq<string>, e: Edit) returns (out: seq<string>)
    requires Fitting(lines, e) && e.text.Some? && IsLastLine(lines[e.end])
    ensures ReplaceOne(lines, e) == lines[..e.start] + out + lines[e.end + 1..] && EndsAs(out, lines[e.end])
  {
    FitParts(lines, e);
    var before, behind := BeforeCall(lines, e), BehindCall(lines, e);
    var head := before + e.text.value;
    if e.start == e.end {
      LineReplaced(lines, e);
    } else {
      LinesReplaced(lines, e);
    }
    hide *;
    if IsBlank(behind) || (e.start < e.end && e.endCol == 0) {
      BlankEnds(head, lines[e.end], e.endCol);
      out := if e.start == e.end then [head + behind] else [head + "\n"];
    } else {
      PromotedEnds(before, head, lines[e.end], e.endCol);
      out := [head + "\n", before + behind[LeadingSpaces(behind)..]];
    }
  }

  lemma {:induction false} LineIsLast(line: string)
    requires IsLine(line)
    ensures IsLastLine(line)
  {
  }

  lemma {:induction false} FileSpliced(lines: seq<string>, a: nat, b: nat, out: seq<string>)
    requires a < b <= |lines| && IsFile(lines) && EndsAs(out, lines[b - 1])
    ensures IsFile(lines[..a] + out + lines[b..])
  {
    hide IsLine, IsLastLine;
    var now := lines[..a] + out + lines[b..];
    forall i | 0 <= i < |now|
      ensures i < |now| - 1 ==> IsLine(now[i])
      ensures i == |now| - 1 ==> IsLastLine(now[i])
    {
      if i < a {
        assert now[i] == lines[i];
      } else if i < a + |out| {
        assert now[i] == out[i - a];
      } else {
        assert now[i] == lines[i - a - |out| + b];
      }
    }
  }

  lemma {:induction false} StaysFile(lines: seq<string>, e: Edit)
    requires IsFile(lines) && Fitting(lines, e)
    ensures IsFile(ReplaceOne(lines, e))
  {
    hide IsLine, Replace, Rewrite;
    if e.text.None? {
      SkippedStays(lines, e);
    } else {
      if e.end < |lines| - 1 {
        LineIsLast(lines[e.end]);
      }
      var out := OutputLines(lines, e);
      FileSpliced(lines, e.start, e.end + 1, out);
    }
  }

  /** Whatever the calls - apart, side by side, over several lines - no line runs into the next: the
      text written splits into exactly the lines that the loop leaves. */
  lemma {:induction false} NoLineRunsOn(src: string, layout: seq<Edit>)
    requires AllFit(Split(src), layout)
    ensures Walkable(Split(src), layout)
    ensures Split(Join(Descend(Split(src), layout))) == Descend(Split(src), layout)
  {
    FitWalks(Split(src), layout);
    SplitIsFile(src);
    DescendsToFile(Split(src), layout);
    IsFileIff(Descend(Split(src), layout));
  }

  lemma {:induction false} DescendsToFile(lines: seq<string>, edits: seq<Edit>)
    requires AllFit(lines, edits) && Walkable(lines, edits) && IsFile(lines)
    ensures IsFile(Descend(lines, edits))
    decreases |edits|
  {
    hide Fitting, ReplaceOne, IsFile;
    if edits != [] {
      StaysFile(lines, edits[|edits| - 1]);
      DescendsToFile(ReplaceOne(lines, edits[|edits| - 1]), edits[..|edits| - 1]);
    }
  }

  /** Calls on lines of their own fit when each fits in the original lines. */
  lemma {:induction false} ApartFit(lines: seq<string>, layout: seq<Edit>)
    requires Apart(0, layout, |lines|) && forall i | 0 <= i < |layout| :: Fitting(lines, layout[i])
    ensures AllFit(lines, layout)
  {
    assert layout[..|layout|] == layout;
    FitUpTo(lines, lines, layout, |layout|);
  }

  lemma {:induction false} FitUpTo(now: seq<string>, lines: seq<string>, layout: seq<Edit>, i: nat)
    requires i <= |layout| && Apart(0, layout, |lines|)
    requires forall k | 0 <= k < |layout| :: Fitting(lines, layout[k])
    requires i > 0 ==> SameUpTo(now, lines, layout[i - 1].end + 1)
    ensures AllFit(now, layout[..i])
    decreases i
  {
    hide Fitting, Apart, ReplaceOne, SameUpTo;
    if i > 0 {
      var e := layout[i - 1];
      PrefixSnoc(layout, i - 1);
      assert layout[..i][..i - 1] == layout[..i - 1];
      StillFits(now, lines, e);
      if i > 1 {
        ApartPair(0, layout, |lines|, i - 2);
        FrontKept(now, lines, e, layout[i - 2].end + 1);
      }
      FitUpTo(ReplaceOne(now, e), lines, layout, i - 1);
    }
  }

  lemma {:induction false} StillFits(now: seq<string>, lines: seq<string>, e: Edit)
    requires Fitting(lines, e) && SameUpTo(now, lines, e.end + 1)
    ensures Fitting(now, e)
  {
    assert now[e.start] == now[..e.end + 1][e.start] == lines[e.start];
    assert now[e.end] == now[..e.end + 1][e.end] == lines[e.end];
  }

  lemma {:induction false} FrontKept(now: seq<string>, lines: seq<string>, e: Edit, n: nat)
    requires Fitting(now, e) && SameUpTo(now, lines, e.end + 1) && n <= e.start
    ensures SameUpTo(ReplaceOne(now, e), lines, n)
  {
    hide Rewrite, Inside;
    KeptInFront(now, lines, e.end + 1, PatchOf(now, e));
    hide Replace, PatchOf;
    SliceOfTake(lines, 0, n, e.start);
    SliceOfTake(ReplaceOne(now, e), 0, n, e.start);
  }

  lemma {:induction false} ApartPair(from: nat, layout: seq<Edit>, n: nat, i: nat)
    requires Apart(from, layout, n) && i + 1 < |layout|
    ensures layout[i].end < layout[i + 1].start
    decreases |layout|
  {
    if i > 0 {
      ApartPair(layout[0].end + 1, layout[1..], n, i - 1);
    }
  }

  // --- conservation ---

  /** Nothing but whitespace stands before the call on its line, or nothing behind it. */
  predicate Safe(lines: seq<string>, e: Edit) {
    e.text.None? || IsBlank(Prefix(Block(lines, e), e)) || IsBlank(Trailing(Block(lines, e), e))
  }

  predicate AllSafe(lines: seq<string>, edits: seq<Edit>) {
    forall i | 0 <= i < |edits| :: Safe(lines, edits[i])
  }

  /** A call keeps its ink; only the text before it comes twice where trailing text is promoted to
      a line of its own. */
  lemma {:induction false} RewriteInk(block: seq<string>, e: Edit)
    requires e.text.Some? && e.endCol > 0
    ensures InkOf(Rewrite(block, e)) ==
            Ink(Prefix(block, e)) + Ink(e.text.value) +
            (if IsBlank(Trailing(block, e)) then "" else Ink(Prefix(block, e)) + Ink(Trailing(block, e)))
  {
    var prefix, text, trailing := Prefix(block, e), e.text.value, Trailing(block, e);
    InkConcat(prefix, text);
    InkOfNewline(prefix + text);
    BlankHasNoInk(trailing);
    if IsBlank(trailing) {
      InkOfOne(prefix + text + trailing);
      InkConcat(prefix + text, trailing);
      InkOfOne(prefix + text + "\n");
    } else {
      InkOfTwo(prefix + text + "\n", prefix + LStrip(trailing));
      InkConcat(prefix, LStrip(trailing));
      StripKeepsInk(trailing);
    }
  }

  lemma {:induction false} EditInk(block: seq<string>, e: Edit)
    requires e.endCol > 0 && e.text.Some?
    ensures IsBlank(Prefix(block, e)) || IsBlank(Trailing(block, e)) ==>
              InkOf(Rewrite(block, e)) == InkOf(ExactLines(block, e))
    ensures !IsBlank(Prefix(block, e)) && !IsBlank(Trailing(block, e)) ==>
              |InkOf(Rewrite(block, e))| > |InkOf(ExactLines(block, e))|
  {
    RewriteInk(block, e);
    ExactInk(block, e);
    BlankHasNoInk(Prefix(block, e));
    BlankHasNoInk(Trailing(block, e));
  }

  lemma {:induction false} AllEditsInk(lines: seq<string>, edits: seq<Edit>)
    requires forall i | 0 <= i < |edits| :: edits[i].endCol > 0
    ensures SameRanges(Patches(lines, edits), AllExact(lines, edits))
    ensures AllSafe(lines, edits) ==> SameInk(Patches(lines, edits), AllExact(lines, edits))
    ensures Surplus(Patches(lines, edits), AllExact(lines, edits)) >= 0
    ensures !AllSafe(lines, edits) ==> Surplus(Patches(lines, edits), AllExact(lines, edits)) > 0
  {
    if edits != [] {
      if edits[0].text.Some? {
        EditInk(Block(lines, edits[0]), edits[0]);
      }
      assert forall i | 0 <= i < |edits[1..]| :: edits[1..][i] == edits[i + 1];
      AllEditsInk(lines, edits[1..]);
      assert Patches(lines, edits)[1..] == Patches(lines, edits[1..]);
      assert AllExact(lines, edits)[1..] == AllExact(lines, edits[1..]);
    }
  }

  /** Over any number of calls on lines of their own, splicing leaves exactly the visible text that
      exchanging each call for its replacement leaves - nothing dropped, doubled or reordered - if
      and only if no replaced call has visible text both before and behind it. */
  lemma {:induction false} SplicingConservesIff(lines: seq<string>, edits: seq<Edit>)
    requires Apart(0, edits, |lines|)
    requires forall i | 0 <= i < |edits| :: edits[i].endCol > 0
    ensures Laid(0, Patches(lines, edits), |lines|) && Laid(0, AllExact(lines, edits), |lines|)
    ensures InkOf(Forward(lines, 0, Patches(lines, edits))) == InkOf(Forward(lines, 0, AllExact(lines, edits))) <==>
            AllSafe(lines, edits)
  {
    PatchesLaid(lines, 0, edits);
    AllEditsInk(lines, edits);
    ForwardInk(lines, 0, Patches(lines, edits), AllExact(lines, edits));
  }

  /** The smallest line that is not safe: a call with text on both sides.  The text before it comes
      twice, the second time on the line of the text behind it. */
  lemma {:induction false} MiddleCallDoubles()
    ensures var lines, e := ["a b c"], Edit(0, 2, 0, 3, Some("B"));
            && Apart(0, [e], |lines|) && !Safe(lines, e)
            && ReplaceOne(lines, e) == ["a B\n", "a c"]
  {
    var e := Edit(0, 2, 0, 3, Some("B"));
    assert ["a b c"][0..1] == ["a b c"];
    assert "a b c"[..2] == "a " && "a b c"[3..] == " c";
    assert LStrip(" c") == "c" by {
      assert LeadingSpaces("c") == 0 && " c"[1..] == "c";
    }
    assert !IsSpace(" c"[1]) && !IsSpace("a "[0]);
    assert !IsBlank(" c") && !IsBlank("a ");
    assert "a " + "B" + "\n" == "a B\n" && "a " + "c" == "a c";
  }
}
