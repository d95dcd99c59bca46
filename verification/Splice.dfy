/** Replacing runs of lines in a list of lines, last run first, as both converters do. */
module Splice {
  import opened Seqs
  import opened Sorting
  import opened Text
  import opened Wrappers

  /** The new text of the range from column `col` of line `start` up to column `endCol` of line
      `end` (lines and columns from 0; `end` inclusive, `endCol` exclusive); None leaves the range
      as it is. */
  datatype Edit = Edit(start: nat, col: nat, end: nat, endCol: nat, text: Option<string>)

  /** The lines `start` to `end` become `out`. */
  datatype Patch<T> = Patch(start: nat, end: nat, out: seq<T>)

  /** Patches from top to bottom, sharing no line, in lines `from` to `n`. */
  predicate Laid<T>(from: nat, patches: seq<Patch<T>>, n: nat)
    decreases |patches|
  {
    if patches == [] then from <= n
    else
      && from <= patches[0].start <= patches[0].end < n
      && Laid(patches[0].end + 1, patches[1..], n)
  }

  /** One replacement in the list of lines. */
  function Replace<T>(lines: seq<T>, p: Patch<T>): seq<T>
    requires p.start <= p.end < |lines|
  {
    lines[..p.start] + p.out + lines[p.end + 1..]
  }

  /** All replacements in one pass from line `from` on, each line read once and in order. */
  function Forward<T>(lines: seq<T>, from: nat, patches: seq<Patch<T>>): seq<T>
    requires Laid(from, patches, |lines|)
    decreases |patches|
  {
    if patches == [] then lines[from..]
    else
      lines[from..patches[0].start] + patches[0].out + Forward(lines, patches[0].end + 1, patches[1..])
  }

  lemma {:induction false} LaidBounds<T>(from: nat, patches: seq<Patch<T>>, n: nat)
    requires Laid(from, patches, n)
    ensures from <= n
    decreases |patches|
  {
  }

  lemma {:induction false} LaidMore<T>(from: nat, patches: seq<Patch<T>>, n: nat, m: nat)
    requires Laid(from, patches, n) && n <= m
    ensures Laid(from, patches, m)
    decreases |patches|
  {
    if patches != [] {
      LaidMore(patches[0].end + 1, patches[1..], n, m);
    }
  }

  lemma {:induction false} HeadOfSnoc<T>(patches: seq<Patch<T>>, p: Patch<T>)
    ensures (patches + [p])[0] == if patches == [] then p else patches[0]
    ensures (patches + [p])[1..] == if patches == [] then [] else patches[1..] + [p]
  {
  }

  lemma {:induction false} LaidSnoc<T>(from: nat, patches: seq<Patch<T>>, p: Patch<T>, n: nat)
    requires Laid(from, patches + [p], n)
    ensures p.start <= p.end < n && Laid(from, patches, p.start)
    decreases |patches|
  {
    HeadOfSnoc(patches, p);
    if patches != [] {
      LaidSnoc(patches[0].end + 1, patches[1..], p, n);
      LaidBounds(patches[0].end + 1, patches[1..], p.start);
    }
  }

  lemma {:induction false} SliceOfConcat<T>(lines: seq<T>, rest: seq<T>, a: nat, b: nat)
    requires a <= b <= |lines|
    ensures (lines + rest)[a..b] == lines[a..b]
    ensures (lines + rest)[a..] == lines[a..] + rest
  {
  }

  /** Lines behind the last patch are passed through, and so may be anything. */
  lemma {:induction false} ForwardPrefix<T>(lines: seq<T>, rest: seq<T>, from: nat, patches: seq<Patch<T>>)
    requires Laid(from, patches, |lines|)
    ensures Laid(from, patches, |lines + rest|)
    ensures Forward(lines + rest, from, patches) == Forward(lines, from, patches) + rest
    decreases |patches|
  {
    LaidMore(from, patches, |lines|, |lines + rest|);
    LaidBounds(from, patches, |lines|);
    if patches == [] {
      SliceOfConcat(lines, rest, from, from);
    } else {
      var p := patches[0];
      ForwardPrefix(lines, rest, p.end + 1, patches[1..]);
      SliceOfConcat(lines, rest, from, p.start);
      Assoc(lines[from..p.start] + p.out, Forward(lines, p.end + 1, patches[1..]), rest);
    }
  }

  lemma {:induction false} ForwardHead<T>(
      lines: seq<T>, from: nat, patches: seq<Patch<T>>, q: Patch<T>, rest: seq<Patch<T>>)
    requires patches != [] && q == patches[0] && rest == patches[1..] && Laid(from, patches, |lines|)
    ensures from <= q.start <= |lines| && Laid(q.end + 1, rest, |lines|)
    ensures Forward(lines, from, patches) == lines[from..q.start] + q.out + Forward(lines, q.end + 1, rest)
  {
  }

  lemma {:induction false} ForwardNone<T>(lines: seq<T>, from: nat)
    requires from <= |lines|
    ensures Laid<T>(from, [], |lines|) && Forward(lines, from, []) == lines[from..]
  {
  }

  lemma {:induction false} ForwardOne<T>(lines: seq<T>, from: nat, p: Patch<T>)
    requires Laid(from, [p], |lines|)
    ensures Laid<T>(from, [], p.start) && p.start <= p.end < |lines|
    ensures Forward(lines, from, [p]) == Forward(lines[..p.start], from, []) + (p.out + lines[p.end + 1..])
  {
    SliceOfTake(lines, from, p.start, p.start);
    Assoc(lines[from..p.start], p.out, lines[p.end + 1..]);
  }

  /** The forward pass takes its last patch last. */
  lemma {:induction false} ForwardSnoc<T>(lines: seq<T>, from: nat, patches: seq<Patch<T>>, p: Patch<T>)
    requires Laid(from, patches + [p], |lines|)
    ensures p.start <= p.end < |lines| && Laid(from, patches, p.start)
    ensures Forward(lines, from, patches + [p]) ==
            Forward(lines[..p.start], from, patches) + (p.out + lines[p.end + 1..])
    decreases |patches|
  {
    hide Forward;
    LaidSnoc(from, patches, p, |lines|);
    if patches == [] {
      assert patches + [p] == [p];
      ForwardOne(lines, from, p);
    } else {
      var q, rest := patches[0], patches[1..];
      HeadOfSnoc(patches, p);
      ForwardHead(lines, from, patches + [p], q, rest + [p]);
      ForwardHead(lines[..p.start], from, patches, q, rest);
      ForwardSnoc(lines, q.end + 1, rest, p);
      SliceOfTake(lines, from, q.start, p.start);
      Assoc(lines[from..q.start] + q.out, Forward(lines[..p.start], q.end + 1, rest), p.out + lines[p.end + 1..]);
    }
  }

  lemma {:induction false} SliceOfTake<T>(lines: seq<T>, a: nat, b: nat, n: nat)
    requires a <= b <= n <= |lines|
    ensures lines[..n][a..b] == lines[a..b]
    ensures a <= n ==> lines[..n][a..] == lines[a..n]
  {
  }

  /** Replacing the last patch first and passing over the others afterwards is the same. */
  lemma {:induction false} ReplaceLast<T>(lines: seq<T>, patches: seq<Patch<T>>, p: Patch<T>)
    requires Laid(0, patches + [p], |lines|)
    ensures p.start <= p.end < |lines| && Laid(0, patches, p.start)
    ensures Laid(0, patches, |Replace(lines, p)|)
    ensures Forward(Replace(lines, p), 0, patches) == Forward(lines, 0, patches + [p])
  {
    ForwardSnoc(lines, 0, patches, p);
    ForwardPrefix(lines[..p.start], p.out + lines[p.end + 1..], 0, patches);
    Assoc(lines[..p.start], p.out, lines[p.end + 1..]);
  }

  // --- from edits to patches ---

  /** Edits from top to bottom, sharing no line, in lines `from` to `n`. */
  predicate Apart(from: nat, edits: seq<Edit>, n: nat)
    decreases |edits|
  {
    if edits == [] then from <= n
    else from <= edits[0].start <= edits[0].end < n && Apart(edits[0].end + 1, edits[1..], n)
  }

  predicate InRange(edits: seq<Edit>, n: nat) {
    forall i | 0 <= i < |edits| :: edits[i].start <= edits[i].end < n
  }

  lemma {:induction false} ApartInRange(from: nat, edits: seq<Edit>, n: nat)
    requires Apart(from, edits, n)
    ensures InRange(edits, n)
    decreases |edits|
  {
    if edits != [] {
      ApartInRange(edits[0].end + 1, edits[1..], n);
    }
  }

  /** An order that puts edits further up first. */
  ghost predicate TopDown(le: Order<Edit>) {
    Total(le) && Transitive(le) && forall a: Edit, b: Edit :: a.start < b.start ==> le(a, b) && !le(b, a)
  }

  lemma {:induction false} ApartIsSorted(from: nat, edits: seq<Edit>, n: nat, le: Order<Edit>)
    requires Apart(from, edits, n) && TopDown(le)
    ensures Sorted(edits, le) && Separates(le, edits)
    ensures forall x | x in edits :: from <= x.start
    decreases |edits|
  {
    if edits != [] {
      ApartIsSorted(edits[0].end + 1, edits[1..], n, le);
      assert forall x | x in edits :: x == edits[0] || x in edits[1..];
    }
  }

  /** Sorting the edits of a file, found in any order, gives their order in the file. */
  lemma {:induction false} SortIsLayout(edits: seq<Edit>, layout: seq<Edit>, n: nat, le: Order<Edit>)
    requires multiset(layout) == multiset(edits) && Apart(0, layout, n) && TopDown(le)
    ensures Sort(edits, le) == layout
    ensures |layout| == |edits|
  {
    ApartIsSorted(0, layout, n, le);
    SortSorts(edits, le);
    SortedUnique(layout, Sort(edits, le), le);
    SameSize(layout, edits);
  }

  /** The lines an edit touches. */
  function Block(lines: seq<string>, e: Edit): seq<string> {
    if e.start <= e.end < |lines| then lines[e.start..e.end + 1] else []
  }

  predicate SameUpTo(a: seq<string>, b: seq<string>, n: nat) {
    n <= |a| && n <= |b| && a[..n] == b[..n]
  }

  /** The lines of an edit are the same wherever the lines up to its end are. */
  lemma {:induction false} SameBlock(a: seq<string>, b: seq<string>, n: nat, e: Edit)
    requires e.start <= e.end < n && SameUpTo(a, b, n)
    ensures Block(a, e) == Block(b, e)
  {
    SliceOfTake(a, e.start, e.end + 1, n);
    SliceOfTake(b, e.start, e.end + 1, n);
  }

  /** A replacement leaves the lines in front of it alone. */
  lemma {:induction false} KeptInFront(now: seq<string>, lines: seq<string>, n: nat, p: Patch<string>)
    requires p.start <= p.end < n && SameUpTo(now, lines, n)
    ensures SameUpTo(Replace(now, p), lines, p.start)
  {
  }

  /** What stands before the range on its first line, and behind it on its last. */
  function Prefix(block: seq<string>, e: Edit): string {
    if block == [] then "" else Take(block[0], e.col)
  }

  function Trailing(block: seq<string>, e: Edit): string {
    if block == [] then "" else Drop(block[|block| - 1], e.endCol)
  }

  /** The ideal replacement: the range alone is exchanged for its text. */
  function ExactLines(block: seq<string>, e: Edit): seq<string> {
    if e.text.None? then block else [Prefix(block, e) + e.text.value + Trailing(block, e)]
  }

  function Exact(lines: seq<string>, e: Edit): Patch<string> {
    Patch(e.start, e.end, ExactLines(Block(lines, e), e))
  }

  function AllExact(lines: seq<string>, edits: seq<Edit>): seq<Patch<string>> {
    if edits == [] then [] else [Exact(lines, edits[0])] + AllExact(lines, edits[1..])
  }

  // --- the visible text of the result ---

  function InkOf(lines: seq<string>): string {
    Ink(Join(lines))
  }

  lemma {:induction false} InkOfTwoLists(a: seq<string>, b: seq<string>)
    ensures InkOf(a + b) == InkOf(a) + InkOf(b)
  {
    JoinConcat(a, b);
    InkConcat(Join(a), Join(b));
  }

  lemma {:induction false} InkOfOne(a: string)
    ensures InkOf([a]) == Ink(a)
  {
    assert Join([a]) == a + Join([]) == a;
  }

  lemma {:induction false} InkOfTwo(a: string, b: string)
    ensures InkOf([a, b]) == Ink(a) + Ink(b)
  {
    assert [a, b] == [a] + [b];
    InkOfTwoLists([a], [b]);
    InkOfOne(a);
    InkOfOne(b);
  }

  lemma {:induction false} InkOfNewline(s: string)
    ensures Ink(s + "\n") == Ink(s)
  {
    InkConcat(s, "\n");
    BlankHasNoInk("\n");
  }

  lemma {:induction false} ExactInk(block: seq<string>, e: Edit)
    requires e.text.Some?
    ensures InkOf(ExactLines(block, e)) ==
            Ink(Prefix(block, e)) + Ink(e.text.value) + Ink(Trailing(block, e))
  {
    var prefix, text, trailing := Prefix(block, e), e.text.value, Trailing(block, e);
    InkOfOne(prefix + text + trailing);
    InkConcat(prefix + text, trailing);
    InkConcat(prefix, text);
  }

  /** Two lists of patches for the same lines. */
  predicate SameRanges(a: seq<Patch<string>>, b: seq<Patch<string>>) {
    if a == [] then b == []
    else
      && b != [] && a[0].start == b[0].start && a[0].end == b[0].end
      && SameRanges(a[1..], b[1..])
  }

  /** Each patch of `a` shows what its counterpart in `b` shows. */
  predicate SameInk(a: seq<Patch<string>>, b: seq<Patch<string>>) {
    if a == [] || b == [] then true else InkOf(a[0].out) == InkOf(b[0].out) && SameInk(a[1..], b[1..])
  }

  /** How many visible characters `a` has more than `b`. */
  function Surplus(a: seq<Patch<string>>, b: seq<Patch<string>>): int {
    if a == [] || b == [] then 0
    else |InkOf(a[0].out)| - |InkOf(b[0].out)| + Surplus(a[1..], b[1..])
  }

  lemma {:induction false} ForwardInk(lines: seq<string>, from: nat, a: seq<Patch<string>>, b: seq<Patch<string>>)
    requires Laid(from, a, |lines|) && SameRanges(a, b)
    ensures Laid(from, b, |lines|)
    ensures |InkOf(Forward(lines, from, a))| == |InkOf(Forward(lines, from, b))| + Surplus(a, b)
    ensures SameInk(a, b) ==> InkOf(Forward(lines, from, a)) == InkOf(Forward(lines, from, b))
    decreases |a|
  {
    if a != [] {
      ForwardInk(lines, a[0].end + 1, a[1..], b[1..]);
      LaidBounds(a[0].end + 1, a[1..], |lines|);
      var gap := lines[from..a[0].start];
      InkOfTwoLists(gap + a[0].out, Forward(lines, a[0].end + 1, a[1..]));
      InkOfTwoLists(gap, a[0].out);
      InkOfTwoLists(gap + b[0].out, Forward(lines, a[0].end + 1, b[1..]));
      InkOfTwoLists(gap, b[0].out);
    }
  }
}
