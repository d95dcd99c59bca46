/** scripts/convert_logger_kwargs.py, the splicing half: the whole source is split, one call is
    replaced and the lines are joined again, call by call from the bottom up. */
module KwargsSplice {
  import opened Seqs
  import opened Sorting
  import opened Splice
  import opened Text
  import opened Wrappers

  function Chop(line: string): string {
    if line != "" && line[|line| - 1] == '\n' then line[..|line| - 1] else line
  }

  function ChopAll(lines: seq<string>): seq<string> {
    if lines == [] then [] else [Chop(lines[0])] + ChopAll(lines[1..])
  }

  /** `splitlines()`. */
  function BareLines(text: Option<string>): seq<string> {
    if text.Some? then ChopAll(Split(text.value)) else []
  }

  function Continuation(indent: string, line: string): string {
    if line == "" then line else indent + "    " + line
  }

  function Continuations(indent: string, lines: seq<string>): seq<string> {
    if lines == [] then [] else [Continuation(indent, lines[0])] + Continuations(indent, lines[1..])
  }

  function Ended(lines: seq<string>): seq<string> {
    if lines == [] then [] else [lines[0] + "\n"] + Ended(lines[1..])
  }

  /** What `_replace_call` makes of the lines of one call: text before the call on its first line
      gives way to that line's indent. */
  function KwRewrite(block: seq<string>, e: Edit): seq<string> {
    if block == [] || BareLines(e.text) == [] then block
    else KwLines(BareLines(e.text), Indent(block[0]), Trailing(block, e))
  }

  function KwLines(bare: seq<string>, indent: string, trailing: string): seq<string>
    requires bare != []
  {
    Ended([indent + bare[0]] + Continuations(indent, bare[1..]) + Promoted(indent, trailing))
  }

  function Promoted(indent: string, trailing: string): seq<string> {
    if IsBlank(trailing) then [] else [indent + LStrip(trailing)]
  }

  function KwPatchOf(lines: seq<string>, e: Edit): Patch<string> {
    Patch(e.start, e.end, KwRewrite(Block(lines, e), e))
  }

  function KwPatches(lines: seq<string>, edits: seq<Edit>): seq<Patch<string>> {
    if edits == [] then [] else [KwPatchOf(lines, edits[0])] + KwPatches(lines, edits[1..])
  }

  method IndentLines(indent: string, bare: seq<string>) returns (indented: seq<string>)
    requires bare != []
    ensures indented == [indent + bare[0]] + Continuations(indent, bare[1..])
  {
    indented := [indent + bare[0]];
    for i := 1 to |bare|
      invariant indented + Continuations(indent, bare[i..]) == [indent + bare[0]] + Continuations(indent, bare[1..])
    {
      assert bare[i..][1..] == bare[i + 1..];
      Assoc(indented, [Continuation(indent, bare[i])], Continuations(indent, bare[i + 1..]));
      indented := indented + [Continuation(indent, bare[i])];
    }
  }

  /** The new lines of a call. */
  method NewLines(block: seq<string>, e: Edit) returns (r: seq<string>)
    requires block != []
    ensures r == KwRewrite(block, e)
  {
    var indent := Indent(block[0]);
    var bare := BareLines(e.text);
    if bare == [] {
      return block;
    }
    var indented := IndentLines(indent, bare);
    var trailing := Trailing(block, e);
    if !IsBlank(trailing) {
      indented := indented + [indent + LStrip(trailing)];
    } else {
      assert indented + [] == indented;
    }
    r := Ended(indented);
  }

  /** `_replace_call`. */
  method ReplaceCall(src: string, e: Edit) returns (r: string)
    requires e.start <= e.end < |Split(src)| && e.text.Some?
    ensures r == Join(Replace(Split(src), KwPatchOf(Split(src), e)))
  {
    hide KwRewrite, Split, Join;
    var lines := Split(src);
    var changed := NewLines(lines[e.start..e.end + 1], e);
    lines := lines[..e.start] + changed + lines[e.end + 1..];
    r := Join(lines);
  }

  predicate NotBelow(a: Edit, b: Edit) {
    a.start <= b.start
  }

  /** The loop of `transform_source` over the converted calls, found in any order; `layout` is
      their order in the file. */
  method TransformSource(src: string, pairs: seq<Edit>, ghost layout: seq<Edit>) returns (newSrc: string)
    requires forall e <- pairs :: e.text.Some?
    requires multiset(layout) == multiset(pairs) && Apart(0, layout, |Split(src)|)
    ensures Laid(0, KwPatches(Split(src), layout), |Split(src)|)
    ensures newSrc == Join(Forward(Split(src), 0, KwPatches(Split(src), layout)))
    ensures forall texts | ReadsAll(layout, texts) ::
              AllNonempty(texts) && newSrc == Join(Rendered(Split(src), 0, layout, texts))
  {
    ghost var lines, patches := Split(src), KwPatches(Split(src), layout);
    KwPatchesSize(lines, layout);
    KwPatchesLaid(lines, 0, layout);
    var sorted := Sort(pairs, NotBelow);
    NotBelowIsTopDown();
    SortIsLayout(pairs, layout, |lines|, NotBelow);
    newSrc := src;
    var i := |sorted|;
    ghost var seen: nat := |lines|;
    assert patches[..i] == patches;
    while i > 0
      invariant i <= |sorted| && sorted == layout
      invariant SameUpTo(Split(newSrc), lines, seen)
      invariant Laid(0, patches[..i], seen) && Laid(0, patches[..i], |Split(newSrc)|)
      invariant Join(Forward(Split(newSrc), 0, patches[..i])) == Join(Forward(lines, 0, patches))
    {
      i := i - 1;
      var call := sorted[i];
      assert call in multiset(pairs);
      OneSpliceLess(newSrc, lines, layout, i, seen);
      seen := call.start;
      newSrc := ReplaceCall(newSrc, call);
    }
    assert patches[..0] == [] && Split(newSrc)[0..] == Split(newSrc);
    SplitJoins(newSrc);
    forall texts | ReadsAll(layout, texts)
      ensures AllNonempty(texts) && newSrc == Join(Rendered(lines, 0, layout, texts))
    {
      RenderedForward(lines, 0, layout, texts);
    }
  }

  lemma {:induction false} KwPatchesSize(lines: seq<string>, edits: seq<Edit>)
    ensures |KwPatches(lines, edits)| == |edits|
  {
    if edits != [] {
      KwPatchesSize(lines, edits[1..]);
    }
  }

  lemma {:induction false} KwPatchesAt(lines: seq<string>, edits: seq<Edit>, i: nat)
    requires i < |edits|
    ensures i < |KwPatches(lines, edits)| && KwPatches(lines, edits)[i] == KwPatchOf(lines, edits[i])
  {
    hide KwRewrite;
    if i > 0 {
      KwPatchesAt(lines, edits[1..], i - 1);
    }
  }

  /** Joining and splitting again after a replacement keeps the lines in front of it, and does not
      disturb what a forward pass over them makes - even where the promoted trailing text brought
      a second newline along and one listed line comes back as two. */
  lemma {:induction false} RejoinedForward(lines: seq<string>, patches: seq<Patch<string>>, p: Patch<string>)
    requires Laid(0, patches + [p], |lines|)
    requires forall i | 0 <= i < |lines| - 1 :: IsLine(lines[i])
    ensures p.start <= p.end < |lines| && Laid(0, patches, p.start)
    ensures var again := Split(Join(Replace(lines, p)));
            && SameUpTo(again, lines, p.start) && Laid(0, patches, |again|)
            && Join(Forward(again, 0, patches)) == Join(Forward(lines, 0, patches + [p]))
  {
    ForwardSnoc(lines, 0, patches, p);
    var before, rest := lines[..p.start], p.out + lines[p.end + 1..];
    Assoc(before, p.out, lines[p.end + 1..]);
    JoinConcat(before, rest);
    SplitBehindLines(before, Join(rest));
    SliceOfConcat(before, Split(Join(rest)), 0, p.start);
    ForwardPrefix(before, Split(Join(rest)), 0, patches);
    JoinConcat(Forward(before, 0, patches), Split(Join(rest)));
    SplitJoins(Join(rest));
    JoinConcat(Forward(before, 0, patches), rest);
  }

  /** One turn of the loop. */
  lemma {:induction false} OneSpliceLess(now: string, lines: seq<string>, edits: seq<Edit>, i: nat, seen: nat)
    requires i < |edits| && |KwPatches(lines, edits)| == |edits| && SameUpTo(Split(now), lines, seen)
    requires Laid(0, KwPatches(lines, edits)[..i + 1], seen)
    ensures edits[i].start <= edits[i].end < |Split(now)|
    ensures Laid(0, KwPatches(lines, edits)[..i + 1], |Split(now)|)
    ensures var next := Split(Join(Replace(Split(now), KwPatchOf(Split(now), edits[i]))));
            var rest := KwPatches(lines, edits)[..i];
            && SameUpTo(next, lines, edits[i].start)
            && Laid(0, rest, edits[i].start) && Laid(0, rest, |next|)
            && Join(Forward(next, 0, rest)) == Join(Forward(Split(now), 0, KwPatches(lines, edits)[..i + 1]))
  {
    var patches, e := KwPatches(lines, edits), edits[i];
    var rest, p := patches[..i], patches[i];
    assert patches[..i + 1] == rest + [p];
    LaidSnoc(0, rest, p, seen);
    LaidMore(0, patches[..i + 1], seen, |Split(now)|);
    KwPatchesAt(lines, edits, i);
    SameBlock(Split(now), lines, seen, e);
    forall k | 0 <= k < |Split(now)| - 1
      ensures IsLine(Split(now)[k])
    {
      SplitIsLines(now, k);
    }
    RejoinedForward(Split(now), rest, p);
    SliceOfTake(Split(now), 0, e.start, seen);
    SliceOfTake(lines, 0, e.start, seen);
  }

  lemma {:induction false} NotBelowIsTopDown()
    ensures TopDown(NotBelow)
  {
  }

  lemma {:induction false} KwPatchesLaid(lines: seq<string>, from: nat, edits: seq<Edit>)
    requires Apart(from, edits, |lines|)
    ensures Laid(from, KwPatches(lines, edits), |lines|)
    decreases |edits|
  {
    hide KwRewrite, Block;
    if edits != [] {
      assert KwPatches(lines, edits)[1..] == KwPatches(lines, edits[1..]);
      KwPatchesLaid(lines, edits[0].end + 1, edits[1..]);
    }
  }

  // --- the exact lines ---

  /** The lines with a newline between any two. */
  function Separated(bare: seq<string>): string
    requires bare != []
  {
    if |bare| == 1 then bare[0] else bare[0] + "\n" + Separated(bare[1..])
  }

  /** The text has just these lines; behind the last there may be a newline. */
  ghost predicate Reads(text: string, bare: seq<string>) {
    && bare != []
    && (forall line <- bare :: '\n' !in line)
    && (text == Separated(bare) + "\n" || (text == Separated(bare) && bare[|bare| - 1] != ""))
  }

  /** A further line of a call behind the whitespace `w`. */
  function FurtherLine(w: string, line: string): string {
    (if line == "" then "" else w + "    " + line) + "\n"
  }

  /** The new lines `bare` behind the whitespace `w`, and one more for what stands behind the call. */
  function CallText(bare: seq<string>, w: string, behind: string): seq<string>
    requires bare != []
  {
    [w + bare[0] + "\n"]
    + seq(|bare| - 1, i requires 0 <= i < |bare| - 1 => FurtherLine(w, bare[i + 1]))
    + if IsBlank(behind) then [] else [w + behind[LeadingSpaces(behind)..] + "\n"]
  }

  /** What a call with the new lines `bare` should leave: these lines, indented like the line on which
      it starts, and one more for what stands behind it. */
  function CallLines(lines: seq<string>, e: Edit, bare: seq<string>): seq<string>
    requires e.start <= e.end < |lines| && bare != []
  {
    var first, last := lines[e.start], lines[e.end];
    CallText(bare, first[..LeadingSpaces(first)], if e.endCol <= |last| then last[e.endCol..] else "")
  }

  predicate AllNonempty(texts: seq<seq<string>>) {
    forall i | 0 <= i < |texts| :: texts[i] != []
  }

  /** The file with every call written out, from line `from` on; `texts` are the new lines of each. */
  function Rendered(lines: seq<string>, from: nat, edits: seq<Edit>, texts: seq<seq<string>>): seq<string>
    requires Apart(from, edits, |lines|) && |texts| == |edits| && AllNonempty(texts)
    decreases |edits|
  {
    if edits == [] then lines[from..]
    else
      assert texts[0] != [] && forall i | 0 <= i < |texts[1..]| :: texts[1..][i] == texts[i + 1];
      lines[from..edits[0].start] + CallLines(lines, edits[0], texts[0]) +
      Rendered(lines, edits[0].end + 1, edits[1..], texts[1..])
  }

  ghost predicate ReadsAll(edits: seq<Edit>, texts: seq<seq<string>>) {
    && |texts| == |edits|
    && forall i | 0 <= i < |edits| :: edits[i].text.Some? && Reads(edits[i].text.value, texts[i])
  }

  lemma {:induction false} ReadLines(text: string, bare: seq<string>)
    requires Reads(text, bare)
    ensures BareLines(Some(text)) == bare
    decreases |bare|
  {
    var line := bare[0];
    assert line in bare;
    if |bare| == 1 {
      assert bare == [line];
      OneLine(line, text);
    } else {
      var rest := ReadRest(text, bare);
      ReadLines(rest, bare[1..]);
      FirstOfMore(line, rest);
      assert [line] + bare[1..] == bare;
    }
  }

  lemma {:induction false} ReadRest(text: string, bare: seq<string>) returns (rest: string)
    requires Reads(text, bare) && |bare| > 1
    ensures text == bare[0] + "\n" + rest && Reads(rest, bare[1..])
  {
    rest := text[|bare[0]| + 1..];
    Assoc(bare[0] + "\n", Separated(bare[1..]), "\n");
    assert forall b | b in bare[1..] :: b in bare;
  }

  lemma {:induction false} FirstOfMore(line: string, rest: string)
    requires '\n' !in line
    ensures BareLines(Some(line + "\n" + rest)) == [line] + BareLines(Some(rest))
  {
    CompleteLine(line);
    SplitFirst(line + "\n", rest);
    hide Split, Chop, IsLine;
    assert ([line + "\n"] + Split(rest))[1..] == Split(rest);
  }

  lemma {:induction false} OneLine(line: string, text: string)
    requires '\n' !in line && text != "" && (text == line || text == line + "\n")
    ensures BareLines(Some(text)) == [line]
  {
    assert LineLength(text) == |text| by {
      if text == line {
        assert line[|line| - 1] in line;
      } else {
        assert text[LineLength(text) - 1] == '\n' ==> LineLength(text) == |text|;
      }
    }
    assert text[..|text|] == text && text[|text|..] == "";
    assert Split(text) == [text] + Split("") == [text];
    assert [text][1..] == [] && Chop(text) == line;
    assert ChopAll([text]) == [line];
  }

  lemma {:induction false} CompleteLine(line: string)
    requires '\n' !in line
    ensures IsLine(line + "\n") && Chop(line + "\n") == line
  {
  }

  /** Every text but the empty one has its lines. */
  lemma {:induction false} EveryTextReads(text: string) returns (bare: seq<string>)
    requires text != ""
    ensures Reads(text, bare)
    decreases |text|
  {
    var n := LineLength(text);
    var line := Chop(text[..n]);
    assert '\n' !in line;
    if n == |text| {
      bare := [line];
      assert text[..n] == text;
    } else {
      var more := EveryTextReads(text[n..]);
      bare := [line] + more;
      assert text == line + "\n" + text[n..];
      assert bare[1..] == more;
      Assoc(line + "\n", Separated(more), "\n");
    }
  }

  /** A call is replaced by its new lines, each with the indent of the line on which the call starts,
      further ones four columns deeper, and what stands behind it follows on a line of its own. */
  lemma {:induction false} CallReplaced(lines: seq<string>, e: Edit, bare: seq<string>)
    requires e.start <= e.end < |lines| && e.text.Some? && Reads(e.text.value, bare)
    ensures Replace(lines, KwPatchOf(lines, e)) ==
            lines[..e.start] + CallLines(lines, e, bare) + lines[e.end + 1..]
  {
    RewrittenLines(lines, e, bare);
  }

  lemma {:induction false} RewrittenLines(lines: seq<string>, e: Edit, bare: seq<string>)
    requires e.start <= e.end < |lines| && e.text.Some? && Reads(e.text.value, bare)
    ensures KwRewrite(Block(lines, e), e) == CallLines(lines, e, bare)
  {
    ReadLines(e.text.value, bare);
    BlockEnds(lines, e);
    assert bare != [];
    hide Reads, BareLines, LeadingSpaces, IsBlank, KwLines, CallText, Block;
    KwLinesAre(bare, Indent(lines[e.start]), Trailing(Block(lines, e), e));
  }

  lemma {:induction false} BlockEnds(lines: seq<string>, e: Edit)
    requires e.start <= e.end < |lines|
    ensures var block := Block(lines, e);
            block != [] && block[0] == lines[e.start] && block[|block| - 1] == lines[e.end]
  {
  }

  lemma {:induction false} KwLinesAre(bare: seq<string>, w: string, behind: string)
    requires bare != []
    ensures KwLines(bare, w, behind) == CallText(bare, w, behind)
  {
    hide LStrip, IsBlank, Continuations, FurtherLine, Ended;
    EndedFurther(w, bare[1..]);
    assert seq(|bare| - 1, i requires 0 <= i < |bare| - 1 => FurtherLine(w, bare[i + 1])) ==
           seq(|bare[1..]|, i requires 0 <= i < |bare[1..]| => FurtherLine(w, bare[1..][i]));
    EndedConcat([w + bare[0]] + Continuations(w, bare[1..]), Promoted(w, behind));
    EndedConcat([w + bare[0]], Continuations(w, bare[1..]));
    EndedOne(w + bare[0]);
    EndedOne(w + LStrip(behind));
    assert LStrip(behind) == behind[LeadingSpaces(behind)..] by {
      StrippedIs(behind);
    }
  }

  lemma {:induction false} StrippedIs(s: string)
    ensures LStrip(s) == s[LeadingSpaces(s)..]
  {
  }

  lemma {:induction false} EndedOne(line: string)
    ensures Ended([line]) == [line + "\n"] && Ended([]) == []
  {
    assert [line][1..] == [];
  }

  lemma {:induction false} EndedConcat(a: seq<string>, b: seq<string>)
    ensures Ended(a + b) == Ended(a) + Ended(b)
  {
    if a == [] {
      assert a + b == b;
    } else {
      assert (a + b)[1..] == a[1..] + b;
      EndedConcat(a[1..], b);
    }
  }

  lemma {:induction false} EndedFurther(w: string, bare: seq<string>)
    ensures Ended(Continuations(w, bare)) == seq(|bare|, i requires 0 <= i < |bare| => FurtherLine(w, bare[i]))
  {
    if bare != [] {
      EndedFurther(w, bare[1..]);
    }
  }

  /** With the whole file written out call by call, the loop's result is that file. */
  lemma {:induction false} RenderedForward(lines: seq<string>, from: nat, edits: seq<Edit>, texts: seq<seq<string>>)
    requires Apart(from, edits, |lines|) && ReadsAll(edits, texts)
    ensures Laid(from, KwPatches(lines, edits), |lines|) && AllNonempty(texts)
    ensures Forward(lines, from, KwPatches(lines, edits)) == Rendered(lines, from, edits, texts)
    decreases |edits|
  {
    hide *;
    KwPatchesLaid(lines, from, edits);
    NoneEmpty(edits, texts);
    if edits == [] {
      RenderedNone(lines, from, texts);
    } else {
      FirstEdit(lines, from, edits, texts);
      RewrittenLines(lines, edits[0], texts[0]);
      RenderedForward(lines, edits[0].end + 1, edits[1..], texts[1..]);
      ForwardHead(lines, from, KwPatches(lines, edits), KwPatchOf(lines, edits[0]), KwPatches(lines, edits[1..]));
    }
  }

  lemma {:induction false} RenderedNone(lines: seq<string>, from: nat, texts: seq<seq<string>>)
    requires Apart(from, [], |lines|) && ReadsAll([], texts) && AllNonempty(texts)
    ensures Laid(from, KwPatches(lines, []), |lines|)
    ensures Forward(lines, from, KwPatches(lines, [])) == Rendered(lines, from, [], texts)
  {
    ForwardNone(lines, from);
  }

  /** The first call of a file, and what follows it. */
  lemma {:induction false} FirstEdit(lines: seq<string>, from: nat, edits: seq<Edit>, texts: seq<seq<string>>)
    requires Apart(from, edits, |lines|) && ReadsAll(edits, texts) && AllNonempty(texts) && edits != []
    ensures var e, p := edits[0], KwPatchOf(lines, edits[0]);
            && from <= e.start <= e.end < |lines| && Apart(e.end + 1, edits[1..], |lines|)
            && e.text.Some? && Reads(e.text.value, texts[0]) && texts[0] != []
            && p.start == e.start && p.end == e.end && p.out == KwRewrite(Block(lines, e), e)
            && ReadsAll(edits[1..], texts[1..]) && AllNonempty(texts[1..])
            && KwPatches(lines, edits) != [] && KwPatches(lines, edits)[0] == p
            && KwPatches(lines, edits)[1..] == KwPatches(lines, edits[1..])
            && Rendered(lines, from, edits, texts) ==
               lines[from..e.start] + CallLines(lines, e, texts[0]) + Rendered(lines, e.end + 1, edits[1..], texts[1..])
  {
    hide Reads, KwRewrite, CallLines, Block;
    NoneEmpty(edits, texts);
    assert KwPatches(lines, edits)[1..] == KwPatches(lines, edits[1..]);
  }

  lemma {:induction false} NoneEmpty(edits: seq<Edit>, texts: seq<seq<string>>)
    requires ReadsAll(edits, texts)
    ensures AllNonempty(texts) && |texts| == |edits|
    ensures edits != [] ==> ReadsAll(edits[1..], texts[1..])
  {
    assert forall i | 0 <= i < |texts| :: Reads(edits[i].text.value, texts[i]);
  }

  /** A call on an indented line keeps the indent. */
  lemma {:induction false} IndentKept()
    ensures var lines, e := ["  a\n"], Edit(0, 2, 0, 3, Some("B"));
            Replace(lines, KwPatchOf(lines, e)) == ["  B\n"]
  {
    var lines, e := ["  a\n"], Edit(0, 2, 0, 3, Some("B"));
    assert Reads("B", ["B"]);
    CallReplaced(lines, e, ["B"]);
    assert lines[..0] == [] && lines[1..] == [];
    IndentOf("  ", "a\n");
    assert "  " + "a\n" == "  a\n" && "  a\n"[3..] == "\n";
    hide LeadingSpaces, Reads, KwPatchOf, Replace, CallText;
    assert CallLines(lines, e, ["B"]) == CallText(["B"], "  ", "\n");
    OneLineText();
  }

  lemma {:induction false} OneLineText()
    ensures CallText(["B"], "  ", "\n") == ["  B\n"]
  {
    assert IsBlank("\n") && "  " + "B" + "\n" == "  B\n";
  }

  lemma {:induction false} IndentOf(w: string, rest: string)
    requires IsBlank(w) && rest != "" && !IsSpace(rest[0])
    ensures LeadingSpaces(w + rest) == |w|
  {
    assert (w + rest)[|w|] == rest[0] && forall i | 0 <= i < |w| :: (w + rest)[i] == w[i];
  }

  // --- conservation ---

  lemma {:induction false} EndedInk(lines: seq<string>)
    ensures InkOf(Ended(lines)) == InkOf(lines)
  {
    if lines != [] {
      EndedInk(lines[1..]);
      InkOfTwoLists([lines[0] + "\n"], Ended(lines[1..]));
      InkOfOne(lines[0] + "\n");
      InkOfNewline(lines[0]);
      InkOfTwoLists([lines[0]], lines[1..]);
      InkOfOne(lines[0]);
      assert lines == [lines[0]] + lines[1..];
    }
  }

  lemma {:induction false} IndentedInk(indent: string, line: string)
    requires IsBlank(indent)
    ensures Ink(indent + line) == Ink(line)
  {
    InkConcat(indent, line);
    BlankHasNoInk(indent);
  }

  lemma {:induction false} ContinuationsInk(indent: string, lines: seq<string>)
    requires IsBlank(indent)
    ensures InkOf(Continuations(indent, lines)) == InkOf(lines)
  {
    if lines != [] {
      ContinuationsInk(indent, lines[1..]);
      InkOfTwoLists([Continuation(indent, lines[0])], Continuations(indent, lines[1..]));
      InkOfOne(Continuation(indent, lines[0]));
      IndentedInk(indent + "    ", lines[0]);
      InkOfTwoLists([lines[0]], lines[1..]);
      InkOfOne(lines[0]);
      assert lines == [lines[0]] + lines[1..];
    }
  }

  lemma {:induction false} ChopInk(line: string)
    ensures Ink(Chop(line)) == Ink(line)
  {
    if line != "" && line[|line| - 1] == '\n' {
      assert line == Chop(line) + "\n";
      InkOfNewline(Chop(line));
    }
  }

  lemma {:induction false} BareInk(lines: seq<string>)
    ensures InkOf(ChopAll(lines)) == InkOf(lines)
  {
    if lines != [] {
      BareInk(lines[1..]);
      InkOfTwoLists([Chop(lines[0])], ChopAll(lines[1..]));
      InkOfOne(Chop(lines[0]));
      ChopInk(lines[0]);
      InkOfTwoLists([lines[0]], lines[1..]);
      InkOfOne(lines[0]);
      assert lines == [lines[0]] + lines[1..];
    }
  }

  lemma {:induction false} PromotedInk(indent: string, trailing: string)
    requires IsBlank(indent)
    ensures InkOf(Promoted(indent, trailing)) == Ink(trailing)
  {
    BlankHasNoInk(trailing);
    if !IsBlank(trailing) {
      InkOfOne(indent + LStrip(trailing));
      IndentedInk(indent, LStrip(trailing));
      StripKeepsInk(trailing);
    }
  }

  lemma {:induction false} KwLinesInk(bare: seq<string>, indent: string, trailing: string)
    requires bare != [] && IsBlank(indent)
    ensures InkOf(KwLines(bare, indent, trailing)) == InkOf(bare) + Ink(trailing)
  {
    var head, tail := [indent + bare[0]], Continuations(indent, bare[1..]);
    EndedInk(head + tail + Promoted(indent, trailing));
    InkOfTwoLists(head + tail, Promoted(indent, trailing));
    PromotedInk(indent, trailing);
    InkOfTwoLists(head, tail);
    InkOfOne(indent + bare[0]);
    IndentedInk(indent, bare[0]);
    ContinuationsInk(indent, bare[1..]);
    InkOfTwoLists([bare[0]], bare[1..]);
    InkOfOne(bare[0]);
    assert bare == [bare[0]] + bare[1..];
  }

  /** A replaced call shows its new text and what stood behind it, but nothing of what stood before
      it on its line. */
  lemma {:induction false} KwRewriteInk(block: seq<string>, e: Edit)
    requires e.text.Some? && e.text.value != "" && block != []
    ensures InkOf(KwRewrite(block, e)) == Ink(e.text.value) + Ink(Trailing(block, e))
  {
    BareInk(Split(e.text.value));
    SplitJoins(e.text.value);
    SplitIsEmptyIff(e.text.value);
    KwLinesInk(BareLines(e.text), Indent(block[0]), Trailing(block, e));
  }

  /** Only whitespace stands before the call on its line. */
  predicate StartsLine(lines: seq<string>, e: Edit) {
    IsBlank(Prefix(Block(lines, e), e))
  }

  predicate AllStartLines(lines: seq<string>, edits: seq<Edit>) {
    forall i | 0 <= i < |edits| :: StartsLine(lines, edits[i])
  }

  lemma {:induction false} KwEditInk(block: seq<string>, e: Edit)
    requires e.text.Some? && e.text.value != "" && block != []
    ensures IsBlank(Prefix(block, e)) ==> InkOf(KwRewrite(block, e)) == InkOf(ExactLines(block, e))
    ensures !IsBlank(Prefix(block, e)) ==> |InkOf(KwRewrite(block, e))| < |InkOf(ExactLines(block, e))|
  {
    hide KwRewrite, ExactLines, Prefix, Trailing, Join, Ink;
    KwRewriteInk(block, e);
    ExactInk(block, e);
    BlankHasNoInk(Prefix(block, e));
  }

  /** Every call has its new text; it never is empty. */
  predicate AllGiven(edits: seq<Edit>) {
    forall i | 0 <= i < |edits| :: edits[i].text.Some? && edits[i].text.value != ""
  }

  lemma {:induction false} KwSameRanges(lines: seq<string>, edits: seq<Edit>)
    ensures SameRanges(KwPatches(lines, edits), AllExact(lines, edits))
  {
    if edits != [] {
      assert KwPatches(lines, edits)[1..] == KwPatches(lines, edits[1..]);
      assert AllExact(lines, edits)[1..] == AllExact(lines, edits[1..]);
      KwSameRanges(lines, edits[1..]);
    }
  }

  lemma {:induction false} AllStartSplit(lines: seq<string>, edits: seq<Edit>)
    requires edits != []
    ensures AllStartLines(lines, edits) <==> StartsLine(lines, edits[0]) && AllStartLines(lines, edits[1..])
  {
    assert forall i | 1 <= i < |edits| :: edits[i] == edits[1..][i - 1];
  }

  lemma {:induction false} AllKwEditsInk(lines: seq<string>, edits: seq<Edit>)
    requires AllGiven(edits) && InRange(edits, |lines|)
    ensures AllStartLines(lines, edits) ==> SameInk(KwPatches(lines, edits), AllExact(lines, edits))
    ensures Surplus(KwPatches(lines, edits), AllExact(lines, edits)) <= 0
    ensures !AllStartLines(lines, edits) ==> Surplus(KwPatches(lines, edits), AllExact(lines, edits)) < 0
  {
    hide KwRewrite, ExactLines, InkOf;
    if edits != [] {
      AllStartSplit(lines, edits);
      KwEditInk(Block(lines, edits[0]), edits[0]);
      AllKwEditsInk(lines, edits[1..]);
      assert KwPatches(lines, edits)[1..] == KwPatches(lines, edits[1..]);
      assert AllExact(lines, edits)[1..] == AllExact(lines, edits[1..]);
    }
  }

  /** Over any number of calls on lines of their own, this converter's splicing leaves exactly the
      visible text that exchanging each call for its replacement leaves if and only if every call
      is the first thing on its line; otherwise it leaves fewer visible characters. */
  lemma {:induction false} KwSplicingConservesIff(lines: seq<string>, edits: seq<Edit>)
    requires Apart(0, edits, |lines|) && AllGiven(edits)
    ensures Laid(0, KwPatches(lines, edits), |lines|) && Laid(0, AllExact(lines, edits), |lines|)
    ensures InkOf(Forward(lines, 0, KwPatches(lines, edits))) == InkOf(Forward(lines, 0, AllExact(lines, edits))) <==>
            AllStartLines(lines, edits)
    ensures !AllStartLines(lines, edits) ==>
              |InkOf(Forward(lines, 0, KwPatches(lines, edits)))| < |InkOf(Forward(lines, 0, AllExact(lines, edits)))|
  {
    KwSameRanges(lines, edits);
    KwPatchesLaid(lines, 0, edits);
    ApartInRange(0, edits, |lines|);
    AllKwEditsInk(lines, edits);
    ForwardInk(lines, 0, KwPatches(lines, edits), AllExact(lines, edits));
  }

  /** The smallest line where text is dropped: a call behind something else. */
  lemma {:induction false} LaterCallDropsText()
    ensures var lines, e := ["a b"], Edit(0, 2, 0, 3, Some("B"));
            && Apart(0, [e], |lines|) && !StartsLine(lines, e)
            && Replace(lines, KwPatchOf(lines, e)) == ["B\n"]
  {
    assert ["a b"][0..1] == ["a b"];
    assert "a b"[..2] == "a " && "a b"[3..] == "";
    assert !IsSpace("a "[0]);
    assert !IsBlank("a ");
    assert LeadingSpaces("a b") == 0 && Indent("a b") == "";
    assert LineLength("B") == 1 && "B"[..1] == "B" && "B"[1..] == "";
    assert Split("B") == ["B"];
    assert BareLines(Some("B")) == ["B"];
    assert KwLines(["B"], "", "") == ["B\n"] by {
      assert Continuations("", ["B"][1..]) == [] && "" + "B" == "B";
      assert ["B"][1..] == [] && "B" + "\n" == "B\n";
    }
  }
}
