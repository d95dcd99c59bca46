/** The order in which backend/scripts/snapshot_diff.py prints its lines. */
module SnapshotOrder {
  import opened Seqs
  import opened SnapshotDiff
  import opened Sorting
  import opened Wrappers

  /** Where a line stands among those of one table - or, for tables that come or go, of the file. */
  function Family(l: Line): nat {
    match l
    case TableAdded(_) => 0
    case TableRemoved(_) => 1
    case ColumnAdded(_, _, _) => 2
    case ColumnRemoved(_, _) => 3
    case ColumnChanged(_, _, _, _) => 4
    case LabelAdded(_, Index, _) => 5
    case LabelRemoved(_, Index, _) => 6
    case LabelAdded(_, Unique, _) => 7
    case LabelRemoved(_, Unique, _) => 8
    case LabelAdded(_, ForeignKey, _) => 9
    case LabelRemoved(_, ForeignKey, _) => 10
  }

  /** What the lines of one family are sorted by. */
  function SortKey(l: Line): seq<string> {
    match l
    case TableAdded(t) => [t]
    case TableRemoved(t) => [t]
    case ColumnAdded(_, c, _) => [c]
    case ColumnRemoved(_, c) => [c]
    case ColumnChanged(_, c, _, _) => [c]
    case LabelAdded(_, _, lab) => lab
    case LabelRemoved(_, _, lab) => lab
  }

  predicate Whole(l: Line) {
    l.TableAdded? || l.TableRemoved?
  }

  /** Tables that come, then those that go, each sorted; then the others table by table in order, each
      with its families in order, each family sorted. */
  predicate Precedes(l: Line, m: Line) {
    if Whole(l) || Whole(m) then
      Whole(l) && (!Whole(m) || Family(l) < Family(m) || (Family(l) == Family(m) && StringLe(l.table, m.table)))
    else
      || (l.table != m.table && StringLe(l.table, m.table))
      || (l.table == m.table &&
          (Family(l) < Family(m) || (Family(l) == Family(m) && StringsLe(SortKey(l), SortKey(m)))))
  }

  ghost predicate InOrder(lines: seq<Line>) {
    forall i, j | 0 <= i < j < |lines| :: Precedes(lines[i], lines[j])
  }

  ghost predicate AllBefore(a: seq<Line>, b: seq<Line>) {
    forall l, m | l in a && m in b :: Precedes(l, m)
  }

  lemma {:induction false} OrderConcat(a: seq<Line>, b: seq<Line>)
    requires InOrder(a) && InOrder(b) && AllBefore(a, b)
    ensures InOrder(a + b)
  {
    hide Precedes;
    forall i, j | 0 <= i < j < |a + b|
      ensures Precedes((a + b)[i], (a + b)[j])
    {
      if i < |a| && j >= |a| {
        assert a[i] in a && b[j - |a|] in b;
      }
    }
  }

  // --- one family ---

  /** The items in the order of `le`, pairwise. */
  lemma {:induction false} SortedPairs<T(!new)>(s: seq<T>, le: Order<T>, i: nat, j: nat)
    requires Transitive(le) && Sorted(s, le) && i < j < |s|
    ensures s[i] == s[j] || le(s[i], s[j])
    decreases |s|
  {
    if i == 0 {
      assert s[j] in s;
      SortedHead(s, le, s[j]);
    } else {
      SortedPairs(s[1..], le, i - 1, j - 1);
    }
  }

  lemma {:induction false} NamesInOrder(s: set<string>, i: nat, j: nat)
    requires i < j < |s|
    ensures |SortedSet(s)| == |s| && StringLe(SortedSet(s)[i], SortedSet(s)[j])
  {
    StringOrder();
    ListingSorted(s, StringLe);
    hide StringLe;
    SortedPairs(SortedSet(s), StringLe, i, j);
  }

  lemma {:induction false} LabelsInOrder(s: set<seq<string>>, i: nat, j: nat)
    requires i < j < |SortedLabels(s)|
    ensures StringsLe(SortedLabels(s)[i], SortedLabels(s)[j])
  {
    StringsOrder();
    ListingSorted(s, StringsLe);
    hide StringsLe;
    SortedPairs(SortedLabels(s), StringsLe, i, j);
  }

  lemma {:induction false} SingleOrder(a: string, b: string)
    ensures StringsLe([a], [b]) <==> StringLe(a, b)
  {
    LexTotal(a, a, CharLe);
    assert [a][1..] == [] && [b][1..] == [];
    hide StringLe;
    assert Lex([a], [b], StringLe) <==> (if a == b then Lex([a][1..], [b][1..], StringLe) else StringLe(a, b));
  }

  /** Two lines of one family, by what they are sorted by. */
  lemma {:induction false} SameFamily(l: Line, m: Line)
    requires Family(l) == Family(m) && (Whole(l) || l.table == m.table) && StringsLe(SortKey(l), SortKey(m))
    ensures Precedes(l, m)
  {
    if Whole(l) {
      SingleOrder(l.table, m.table);
    }
    hide StringLe, StringsLe;
  }

  /** What a line says on a name in this family. */
  ghost predicate NamedBy(f: string -> Line, family: nat, t: string) {
    forall x :: Family(f(x)) == family && SortKey(f(x)) == [x] && (family >= 2 ==> f(x).table == t)
  }

  lemma {:induction false} NamePair(f: string -> Line, family: nat, t: string, x: string, y: string)
    requires NamedBy(f, family, t) && StringLe(x, y)
    ensures Precedes(f(x), f(y)) && Family(f(x)) == family && (family >= 2 ==> f(x).table == t)
  {
    SingleOrder(x, y);
    WholeByFamily(f(x));
    hide StringLe, StringsLe, Precedes, Whole;
    SameFamily(f(x), f(y));
  }

  /** Lines of one family that are in order pair by pair. */
  lemma {:induction false} FromPairs<T>(items: seq<T>, f: T -> Line, family: nat, t: string)
    requires forall i, j | 0 <= i < j < |items| :: Precedes(f(items[i]), f(items[j]))
    requires forall i | 0 <= i < |items| :: Family(f(items[i])) == family && (family >= 2 ==> f(items[i]).table == t)
    ensures Stretch(Map(items, f), family, family + 1, t)
  {
    hide Precedes, Family;
    var lines := Map(items, f);
    assert forall i | 0 <= i < |items| :: lines[i] == f(items[i]);
    hide Map;
  }

  /** The lines of one family over sorted names. */
  lemma {:induction false} NameFamily(s: set<string>, f: string -> Line, family: nat, t: string)
    requires NamedBy(f, family, t)
    ensures Stretch(Map(SortedSet(s), f), family, family + 1, t)
  {
    hide *;
    var names := SortedSet(s);
    forall i, j | 0 <= i < j < |names|
      ensures Precedes(f(names[i]), f(names[j]))
    {
      NamesInOrder(s, i, j);
      NamePair(f, family, t, names[i], names[j]);
    }
    forall i | 0 <= i < |names|
      ensures Family(f(names[i])) == family && (family >= 2 ==> f(names[i]).table == t)
    {
      Reflexive(names[i]);
      NamePair(f, family, t, names[i], names[i]);
    }
    FromPairs(names, f, family, t);
  }

  lemma {:induction false} Reflexive(x: string)
    ensures StringLe(x, x)
  {
    LexTotal(x, x, CharLe);
  }

  ghost predicate LabelledBy(f: seq<string> -> Line, family: nat, t: string) {
    forall x :: Family(f(x)) == family && SortKey(f(x)) == x && f(x).table == t
  }

  lemma {:induction false} LabelPair(f: seq<string> -> Line, family: nat, t: string, x: seq<string>, y: seq<string>)
    requires family >= 2 && LabelledBy(f, family, t) && StringsLe(x, y)
    ensures Precedes(f(x), f(y))
  {
    hide StringsLe, Precedes;
    SameFamily(f(x), f(y));
  }

  lemma {:induction false} LabelFamily(s: set<seq<string>>, f: seq<string> -> Line, family: nat, t: string)
    requires family >= 2 && LabelledBy(f, family, t)
    ensures Stretch(Map(SortedLabels(s), f), family, family + 1, t)
  {
    assert forall x :: Family(f(x)) == family && f(x).table == t;
    hide *;
    var labels := SortedLabels(s);
    forall i, j | 0 <= i < j < |labels|
      ensures Precedes(f(labels[i]), f(labels[j]))
    {
      LabelsInOrder(s, i, j);
      LabelPair(f, family, t, labels[i], labels[j]);
    }
    FromPairs(labels, f, family, t);
  }

  // --- families on end ---

  /** The lines are in order, of families from `from` up to before `to`, about table `t`. */
  ghost predicate Stretch(lines: seq<Line>, from: nat, to: nat, t: string) {
    && InOrder(lines)
    && forall i | 0 <= i < |lines| :: from <= Family(lines[i]) < to && (from >= 2 ==> lines[i].table == t)
  }

  lemma {:induction false} Stretches(a: seq<Line>, b: seq<Line>, from: nat, mid: nat, to: nat, t: string)
    requires Stretch(a, from, mid, t) && Stretch(b, mid, to, t) && from <= mid <= to && (from >= 2 || to <= 2)
    ensures Stretch(a + b, from, to, t)
  {
    forall l, m | l in a && m in b
      ensures Precedes(l, m)
    {
      hide InOrder;
    }
    OrderConcat(a, b);
    hide InOrder;
  }

  lemma {:induction false} TablesNamed()
    ensures NamedBy(AddTable, 0, "") && NamedBy(RemoveTable, 1, "")
  {
  }

  lemma {:induction false} NamesStretch(was: Tables, now: Tables)
    ensures Stretch(NameLines(was, now), 0, 2, "")
  {
    hide SortedSet, Map, Stretch, NamedBy, AddTable, RemoveTable;
    TablesNamed();
    NameFamily(now.Keys - was.Keys, AddTable, 0, "");
    NameFamily(was.Keys - now.Keys, RemoveTable, 1, "");
    Stretches(Map(SortedSet(now.Keys - was.Keys), AddTable), Map(SortedSet(was.Keys - now.Keys), RemoveTable),
              0, 1, 2, "");
  }

  lemma {:induction false} ColumnsNamed(t: string, a: Table, b: Table)
    ensures NamedBy(AddColumn(t, b), 2, t) && NamedBy(RemoveColumn(t), 3, t) && NamedBy(ChangeColumn(t, a, b), 4, t)
  {
    hide TypeIn;
  }

  lemma {:induction false} ColumnsStretch(t: string, a: Table, b: Table)
    ensures Stretch(ColumnLines(t, a, b), 2, 5, t)
  {
    hide SortedSet, Map, Stretch, NamedBy, AddColumn, RemoveColumn, ChangeColumn, Retyped;
    var added, removed := b.columns.Keys - a.columns.Keys, a.columns.Keys - b.columns.Keys;
    ColumnsNamed(t, a, b);
    NameFamily(added, AddColumn(t, b), 2, t);
    NameFamily(removed, RemoveColumn(t), 3, t);
    NameFamily(Retyped(a, b), ChangeColumn(t, a, b), 4, t);
    var x, y, z := Map(SortedSet(added), AddColumn(t, b)), Map(SortedSet(removed), RemoveColumn(t)),
      Map(SortedSet(Retyped(a, b)), ChangeColumn(t, a, b));
    Stretches(x, y, 2, 3, 4, t);
    Stretches(x + y, z, 2, 4, 5, t);
  }

  function FirstFamily(kind: Kind): nat {
    match kind
    case Index => 5
    case Unique => 7
    case ForeignKey => 9
  }

  lemma {:induction false} LabelsLabelled(t: string, kind: Kind)
    ensures LabelledBy(AddLabel(t, kind), FirstFamily(kind), t)
    ensures LabelledBy(RemoveLabel(t, kind), FirstFamily(kind) + 1, t)
  {
  }

  lemma {:induction false} LabelsStretch(t: string, kind: Kind, a: Table, b: Table)
    ensures Stretch(LabelLines(t, kind, a, b), FirstFamily(kind), FirstFamily(kind) + 2, t)
  {
    hide SortedLabels, Map, Stretch, LabelledBy, AddLabel, RemoveLabel, Labels;
    var n, added, removed := FirstFamily(kind), Labels(b, kind) - Labels(a, kind), Labels(a, kind) - Labels(b, kind);
    LabelsLabelled(t, kind);
    LabelFamily(added, AddLabel(t, kind), n, t);
    LabelFamily(removed, RemoveLabel(t, kind), n + 1, t);
    Stretches(Map(SortedLabels(added), AddLabel(t, kind)), Map(SortedLabels(removed), RemoveLabel(t, kind)),
              n, n + 1, n + 2, t);
  }

  lemma {:induction false} TableStretch(t: string, a: Table, b: Table)
    ensures Stretch(TableLines(t, a, b), 2, 11, t)
  {
    hide ColumnLines, LabelLines, Stretch;
    ColumnsStretch(t, a, b);
    LabelsStretch(t, Index, a, b);
    LabelsStretch(t, Unique, a, b);
    LabelsStretch(t, ForeignKey, a, b);
    var c, i, u := ColumnLines(t, a, b), LabelLines(t, Index, a, b), LabelLines(t, Unique, a, b);
    Stretches(c, i, 2, 5, 7, t);
    Stretches(c + i, u, 2, 7, 9, t);
    Stretches(c + i + u, LabelLines(t, ForeignKey, a, b), 2, 9, 11, t);
  }

  // --- the whole output ---

  /** Lines about whole tables, or about one of the tables `names`. */
  ghost predicate About(lines: seq<Line>, names: seq<string>) {
    forall l <- lines :: Whole(l) || l.table in names
  }

  lemma {:induction false} WholeByFamily(l: Line)
    ensures Whole(l) <==> Family(l) < 2
  {
  }

  lemma {:induction false} TableBehind(lines: seq<Line>, more: seq<Line>, names: seq<string>, t: string)
    requires InOrder(lines) && About(lines, names) && Stretch(more, 2, 11, t)
    requires forall n <- names :: n != t && StringLe(n, t)
    ensures InOrder(lines + more) && About(lines + more, names + [t])
  {
    forall l, m | l in lines && m in more
      ensures Precedes(l, m)
    {
      hide InOrder, StringLe;
      WholeByFamily(l);
      WholeByFamily(m);
    }
    OrderConcat(lines, more);
    hide InOrder;
    forall m | m in more
      ensures m.table == t
    {
    }
  }

  lemma {:induction false} UpToInOrder(was: Tables, now: Tables, names: seq<string>, i: nat)
    requires names == SortedSet(was.Keys * now.Keys) && i <= |names|
    ensures InOrder(LinesUpTo(was, now, names[..i])) && About(LinesUpTo(was, now, names[..i]), names[..i])
  {
    if i == 0 {
      assert names[..0] == [] && LinesUpTo(was, now, []) == NameLines(was, now);
      hide *;
      NamesStretch(was, now);
      NamesAbout(was, now);
    } else {
      hide *;
      UpToInOrder(was, now, names, i - 1);
      TableNext(was, now, names, i - 1);
    }
  }

  lemma {:induction false} NamesAbout(was: Tables, now: Tables)
    requires Stretch(NameLines(was, now), 0, 2, "")
    ensures InOrder(NameLines(was, now)) && About(NameLines(was, now), [])
  {
    hide InOrder, NameLines;
    forall l | l in NameLines(was, now)
      ensures Whole(l)
    {
      WholeByFamily(l);
    }
  }

  lemma {:induction false} TableNext(was: Tables, now: Tables, names: seq<string>, i: nat)
    requires names == SortedSet(was.Keys * now.Keys) && i < |names|
    requires InOrder(LinesUpTo(was, now, names[..i])) && About(LinesUpTo(was, now, names[..i]), names[..i])
    ensures InOrder(LinesUpTo(was, now, names[..i + 1])) && About(LinesUpTo(was, now, names[..i + 1]), names[..i + 1])
  {
    var t := names[i];
    LinesUpToNext(was, now, names, i);
    PrefixSnoc(names, i);
    assert t in names;
    TableStretch(t, was[t], now[t]);
    assert LinesOf(was, now, t) == TableLines(t, was[t], now[t]);
    SortedSetIs(was.Keys * now.Keys, names);
    forall n | n in names[..i]
      ensures n != t && StringLe(n, t)
    {
      var k :| 0 <= k < i && names[k] == n;
      NamesInOrder(was.Keys * now.Keys, k, i);
    }
    hide *;
    TableBehind(LinesUpTo(was, now, names[..i]), TableLines(t, was[t], now[t]), names[..i], t);
  }

  /** The output is in order - and as it has one line for each difference, the order leaves no choice. */
  lemma {:induction false} OutputInOrder(was: Tables, now: Tables)
    ensures InOrder(DiffLines(was, now))
  {
    var names := SortedSet(was.Keys * now.Keys);
    UpToInOrder(was, now, names, |names|);
    assert names[..|names|] == names;
  }

  // --- the order leaves no choice ---

  lemma {:induction false} PrecedesTransitive()
    ensures Transitive(Precedes)
  {
    StringOrder();
    StringsOrder();
    hide StringLe, StringsLe, SortKey;
    forall l, m, n | Precedes(l, m) && Precedes(m, n)
      ensures Precedes(l, n)
    {
    }
  }

  lemma {:induction false} OrderedIsSorted(lines: seq<Line>)
    requires InOrder(lines)
    ensures Sorted(lines, Precedes)
  {
    hide Precedes;
    if |lines| > 1 {
      assert forall i | 0 <= i < |lines[1..]| :: lines[1..][i] == lines[i + 1];
      OrderedIsSorted(lines[1..]);
    }
  }

  lemma {:induction false} ElementsFew<T>(s: seq<T>, elements: set<T>)
    requires elements == set x | x in s
    ensures |elements| <= |s| && (|elements| == |s| ==> Distinct(s))
    decreases |s|
  {
    if s != [] {
      var rest := set x | x in s[1..];
      ElementsFew(s[1..], rest);
      assert elements == rest + {s[0]};
      assert s == [s[0]] + s[1..];
      DistinctCons(s[0], s[1..]);
    }
  }

  lemma {:induction false} KeysOnto(keys: set<Key>, lines: set<Line>)
    requires forall k | k in keys :: exists l | l in lines :: KeyOf(l) == k
    ensures |keys| <= |lines|
    decreases |keys|
  {
    hide KeyOf;
    if keys != {} {
      var k :| k in keys;
      var l :| l in lines && KeyOf(l) == k;
      forall j | j in keys - {k}
        ensures exists m | m in lines - {l} :: KeyOf(m) == j
      {
        var m :| m in lines && KeyOf(m) == j;
        assert m in lines - {l};
      }
      KeysOnto(keys - {k}, lines - {l});
    }
  }

  lemma {:induction false} CoversOnce(lines: seq<Line>, keys: set<Key>, was: Tables, now: Tables)
    requires Covers(lines, keys, was, now)
    ensures Distinct(lines)
  {
    var elements := set l | l in lines;
    forall k | k in keys
      ensures exists l | l in elements :: KeyOf(l) == k
    {
      KeyOfLine(was, now, k);
      assert LineOf(was, now, k) in elements;
    }
    KeysOnto(keys, elements);
    ElementsFew(lines, elements);
  }

  lemma {:induction false} SameElements(a: seq<Line>, b: seq<Line>, keys: set<Key>, was: Tables, now: Tables)
    requires Covers(a, keys, was, now) && Covers(b, keys, was, now)
    ensures forall l :: l in a <==> l in b
  {
    hide LineOf, KeyOf, Differs;
    forall l
      ensures l in a <==> l in b
    {
      if l in a {
        assert KeyOf(l) in keys;
      }
      if l in b {
        assert KeyOf(l) in keys;
      }
    }
  }

  /** One of two lines that each may precede the other is the other. */
  lemma {:induction false} OneEach(l: Line, m: Line, was: Tables, now: Tables)
    requires Differs(was, now, KeyOf(l)) && l == LineOf(was, now, KeyOf(l))
    requires Differs(was, now, KeyOf(m)) && m == LineOf(was, now, KeyOf(m))
    requires Precedes(l, m) && Precedes(m, l)
    ensures l == m
  {
    StringOrder();
    StringsOrder();
    hide StringLe, StringsLe, State, Labels;
    assert l.table == m.table && Family(l) == Family(m);
    assert SortKey(l) == SortKey(m);
  }

  /** The output is the only list that has one line for each difference and no other, in this order. */
  lemma {:induction false} OutputIsTheOnlyOne(was: Tables, now: Tables, lines: seq<Line>)
    ensures lines == DiffLines(was, now) <==> Covers(lines, DiffKeys(was, now), was, now) && InOrder(lines)
  {
    hide DiffKeys, LinesUpTo, Precedes;
    var out := DiffLines(was, now);
    OutputInOrder(was, now);
    DiffLinesCover(was, now);
    if Covers(lines, DiffKeys(was, now), was, now) && InOrder(lines) {
      CoversOnce(lines, DiffKeys(was, now), was, now);
      CoversOnce(out, DiffKeys(was, now), was, now);
      SameElements(lines, out, DiffKeys(was, now), was, now);
      DistinctSame(lines, out);
      OrderedIsSorted(lines);
      OrderedIsSorted(out);
      PrecedesTransitive();
      forall l, m | l in lines && m in lines && Precedes(l, m) && Precedes(m, l)
        ensures l == m
      {
        OneEach(l, m, was, now);
      }
      SortedUnique(lines, out, Precedes);
    }
  }
}
