/** What the number of diff lines measures, and what the lines are good for. */
module SnapshotMetric {
  import opened Seqs
  import opened SnapshotDiff
  import opened Sorting
  import opened Wrappers

  // --- no difference ---

  /** Two tables that differ at most in the order of their lists. */
  ghost predicate SameTable(a: Table, b: Table) {
    && a.columns == b.columns && multiset(a.indexes) == multiset(b.indexes)
    && multiset(a.uniques) == multiset(b.uniques) && multiset(a.foreignKeys) == multiset(b.foreignKeys)
  }

  /** Two snapshots that differ at most in the order of their lists. */
  ghost predicate SameUpToOrder(a: Snapshot, b: Snapshot) {
    var was, now := ByName(a), ByName(b);
    was.Keys == now.Keys && forall t | t in was :: SameTable(was[t], now[t])
  }

  lemma {:induction false} SameLabels(a: Table, b: Table)
    requires ValidTable(a) && ValidTable(b)
    ensures SameTable(a, b) <==> a.columns == b.columns && forall kind :: Labels(a, kind) == Labels(b, kind)
  {
    hide ValidTable;
    LabelsOfKind(a, b, Index);
    LabelsOfKind(a, b, Unique);
    LabelsOfKind(a, b, ForeignKey);
  }

  lemma {:induction false} LabelsOfKind(a: Table, b: Table, kind: Kind)
    requires ValidTable(a) && ValidTable(b)
    ensures Labels(a, kind) == Labels(b, kind) <==>
            match kind
            case Index => multiset(a.indexes) == multiset(b.indexes)
            case Unique => multiset(a.uniques) == multiset(b.uniques)
            case ForeignKey => multiset(a.foreignKeys) == multiset(b.foreignKeys)
  {
    match kind {
      case Index =>
        DistinctSame(a.indexes, b.indexes);
        assert forall i :: i in a.indexes <==> [i] in Labels(a, Index);
        assert forall i :: i in b.indexes <==> [i] in Labels(b, Index);
      case Unique =>
        DistinctSame(a.uniques, b.uniques);
        assert forall u :: u in a.uniques <==> u in Labels(a, Unique);
        assert forall u :: u in b.uniques <==> u in Labels(b, Unique);
      case ForeignKey =>
        DistinctSame(a.foreignKeys, b.foreignKeys);
        assert forall f :: f in a.foreignKeys <==> f in Labels(a, ForeignKey);
        assert forall f :: f in b.foreignKeys <==> f in Labels(b, ForeignKey);
    }
  }

  ghost predicate Agree(was: Tables, now: Tables) {
    && was.Keys == now.Keys
    && forall t | t in was ::
         was[t].columns == now[t].columns && forall kind :: Labels(was[t], kind) == Labels(now[t], kind)
  }

  lemma {:induction false} NoDifference(was: Tables, now: Tables)
    requires Agree(was, now)
    ensures DiffKeys(was, now) == {}
  {
  }

  lemma {:induction false} NoLinesAgree(was: Tables, now: Tables)
    requires DiffKeys(was, now) == {}
    ensures Agree(was, now)
  {
    hide Labels, DiffKeys;
    forall k: Key
      ensures !Differs(was, now, k)
    {
      DiffKeysAre(was, now, k);
    }
    forall t: string
      ensures t in was <==> t in now
    {
      assert !Differs(was, now, TableKey(t));
    }
    forall t | t in was
      ensures was[t].columns == now[t].columns
    {
      forall c: string
        ensures c in was[t].columns <==> c in now[t].columns
        ensures c in was[t].columns ==> was[t].columns[c] == now[t].columns[c]
      {
        assert !Differs(was, now, ColumnKey(t, c));
      }
    }
    forall t, kind | t in was
      ensures Labels(was[t], kind) == Labels(now[t], kind)
    {
      forall lab: seq<string>
        ensures lab in Labels(was[t], kind) <==> lab in Labels(now[t], kind)
      {
        assert !Differs(was, now, LabelKey(t, kind, lab));
      }
    }
  }

  lemma {:induction false} NamedTables(s: Snapshot, t: string)
    requires Valid(s) && t in ByName(s)
    ensures ValidTable(ByName(s)[t]) && ByName(s)[t].name == t
  {
    hide ValidTable;
  }

  /** The diff of two valid snapshots is empty - and the exit code 0 - exactly when they agree up
      to the order of their lists. */
  lemma {:induction false} EmptyDiffIff(a: Snapshot, b: Snapshot)
    requires Valid(a) && Valid(b)
    ensures DiffKeys(ByName(a), ByName(b)) == {} <==> SameUpToOrder(a, b)
  {
    hide ValidTable, Valid, ByName, DiffKeys, Labels, SameTable;
    var was, now := ByName(a), ByName(b);
    forall t | t in was && t in now
      ensures SameTable(was[t], now[t]) <==>
              was[t].columns == now[t].columns && forall kind :: Labels(was[t], kind) == Labels(now[t], kind)
    {
      NamedTables(a, t);
      NamedTables(b, t);
      SameLabels(was[t], now[t]);
    }
    if DiffKeys(was, now) == {} {
      NoLinesAgree(was, now);
    }
    if SameUpToOrder(a, b) {
      assert forall t | t in was :: t in now;
      NoDifference(was, now);
    }
  }

  // --- the order of the lines ---

  lemma {:induction false} MapSame<T, U>(s: seq<T>, f: T -> U, g: T -> U)
    requires forall x :: f(x) == g(x)
    ensures Map(s, f) == Map(s, g)
  {
  }

  lemma {:induction false} SameAdded(s: seq<string>, t: string, b: Table, b': Table)
    requires b.columns == b'.columns
    ensures Map(s, AddColumn(t, b)) == Map(s, AddColumn(t, b'))
  {
    MapSame(s, AddColumn(t, b), AddColumn(t, b'));
  }

  lemma {:induction false} SameChanged(s: seq<string>, t: string, a: Table, a': Table, b: Table, b': Table)
    requires a.columns == a'.columns && b.columns == b'.columns
    ensures Map(s, ChangeColumn(t, a, b)) == Map(s, ChangeColumn(t, a', b'))
    ensures Retyped(a, b) == Retyped(a', b')
  {
    MapSame(s, ChangeColumn(t, a, b), ChangeColumn(t, a', b'));
  }

  lemma {:induction false} SameColumnLines(t: string, a: Table, a': Table, b: Table, b': Table)
    requires a.columns == a'.columns && b.columns == b'.columns
    ensures ColumnLines(t, a, b) == ColumnLines(t, a', b')
  {
    hide Map, SortedSet, AddColumn, ChangeColumn, Retyped;
    SameAdded(SortedSet(b.columns.Keys - a.columns.Keys), t, b, b');
    SameChanged(SortedSet(Retyped(a, b)), t, a, a', b, b');
  }

  lemma {:induction false} SameTableLines(t: string, a: Table, a': Table, b: Table, b': Table)
    requires a.columns == a'.columns && b.columns == b'.columns
    requires forall kind :: Labels(a, kind) == Labels(a', kind) && Labels(b, kind) == Labels(b', kind)
    ensures TableLines(t, a, b) == TableLines(t, a', b')
  {
    hide Labels, ColumnLines, LabelLines;
    SameColumnLines(t, a, a', b, b');
    SameLabelLines(t, Index, a, a', b, b');
    SameLabelLines(t, Unique, a, a', b, b');
    SameLabelLines(t, ForeignKey, a, a', b, b');
  }

  lemma {:induction false} SameLabelLines(t: string, kind: Kind, a: Table, a': Table, b: Table, b': Table)
    requires Labels(a, kind) == Labels(a', kind) && Labels(b, kind) == Labels(b', kind)
    ensures LabelLines(t, kind, a, b) == LabelLines(t, kind, a', b')
  {
    hide Labels, Map, SortedLabels;
  }

  lemma {:induction false} SameLinesUpTo(was: Tables, was': Tables, now: Tables, now': Tables, names: seq<string>)
    requires Agree(was, was') && Agree(now, now')
    ensures LinesUpTo(was, now, names) == LinesUpTo(was', now', names)
    decreases |names|
  {
    hide Labels, TableLines, Map, SortedSet;
    if names != [] {
      var t := names[|names| - 1];
      SameLinesUpTo(was, was', now, now', names[..|names| - 1]);
      assert t in was <==> t in was';
      assert t in now <==> t in now';
      if t in was && t in now {
        SameTableLines(t, was[t], was'[t], now[t], now'[t]);
      }
    }
  }

  /** The order of the lists in a snapshot has no say in the output: snapshots that agree up to it
      give the same lines in the same order, and so the same after capping. */
  lemma {:induction false} SameOutput(a: Snapshot, a': Snapshot, b: Snapshot, b': Snapshot)
    requires Valid(a) && Valid(a') && Valid(b) && Valid(b')
    requires SameUpToOrder(a, a') && SameUpToOrder(b, b')
    ensures DiffLines(ByName(a), ByName(b)) == DiffLines(ByName(a'), ByName(b'))
    ensures CapLines(DiffLines(ByName(a), ByName(b))) == CapLines(DiffLines(ByName(a'), ByName(b')))
  {
    hide Valid, ByName, DiffKeys, LinesUpTo, SameUpToOrder, Agree, CapLines, SortedSet;
    EmptyDiffIff(a, a');
    NoLinesAgree(ByName(a), ByName(a'));
    EmptyDiffIff(b, b');
    NoLinesAgree(ByName(b), ByName(b'));
    AgreeNames(ByName(a), ByName(a'));
    AgreeNames(ByName(b), ByName(b'));
    SameLinesUpTo(ByName(a), ByName(a'), ByName(b), ByName(b'), SortedSet(ByName(a).Keys * ByName(b).Keys));
  }

  lemma {:induction false} AgreeNames(was: Tables, now: Tables)
    requires Agree(was, now)
    ensures was.Keys == now.Keys
  {
  }

  // --- symmetry ---

  /** The two directions of one difference. */
  predicate Opposite(l: Line, m: Line) {
    match l
    case TableAdded(t) => m == TableRemoved(t)
    case TableRemoved(t) => m == TableAdded(t)
    case ColumnAdded(t, c, _) => m == ColumnRemoved(t, c)
    case ColumnRemoved(t, c) => m.ColumnAdded? && m.table == t && m.column == c
    case ColumnChanged(t, c, o, n) => m == ColumnChanged(t, c, n, o)
    case LabelAdded(t, kind, lab) => m == LabelRemoved(t, kind, lab)
    case LabelRemoved(t, kind, lab) => m == LabelAdded(t, kind, lab)
  }

  /** Swapping the snapshots reports the same differences, each the other way round. */
  lemma {:induction false} Symmetric(was: Tables, now: Tables)
    ensures DiffKeys(was, now) == DiffKeys(now, was)
    ensures forall k | Differs(was, now, k) ::
            Differs(now, was, k) && Opposite(LineOf(was, now, k), LineOf(now, was, k))
  {
    hide Labels;
  }

  // --- the triangle inequality ---

  lemma {:induction false} UnionSize<T>(a: set<T>, b: set<T>, c: set<T>)
    requires a <= b + c
    ensures |a| <= |b| + |c|
  {
    SubsetSize(a, b + c);
    assert |b + c| <= |b| + |c|;
  }

  lemma {:induction false} SubsetSize<T>(a: set<T>, b: set<T>)
    requires a <= b
    ensures |a| <= |b|
  {
    assert b == a + (b - a);
  }

  /** A detour over a snapshot that has every table the ends share is no shorter. */
  lemma {:induction false} Triangle(a: Tables, b: Tables, c: Tables)
    requires a.Keys * c.Keys <= b.Keys
    ensures |DiffKeys(a, c)| <= |DiffKeys(a, b)| + |DiffKeys(b, c)|
  {
    hide State, DiffKeys;
    forall k | k in DiffKeys(a, c)
      ensures k in DiffKeys(a, b) + DiffKeys(b, c)
    {
      DiffKeysAre(a, c, k);
      DiffKeysAre(a, b, k);
      DiffKeysAre(b, c, k);
      if !k.TableKey? {
        assert k.table in a.Keys * c.Keys;
      }
    }
    UnionSize(DiffKeys(a, c), DiffKeys(a, b), DiffKeys(b, c));
  }

  /** The tables of a valid snapshot, under their names. */
  ghost predicate Proper(tables: Tables) {
    forall n | n in tables :: ValidTable(tables[n]) && tables[n].name == n
  }

  function Bare(n: string): Table {
    Table(n, map[], [], [], [])
  }

  function BareTables(names: set<string>): Tables {
    map n | n in names :: Bare(n)
  }

  /** `k` different columns. */
  function Wide(k: nat): (m: map<string, string>)
    ensures |m| == k
    ensures forall c | c in m :: |c| < k
  {
    if k == 0 then map[] else
    var rest := Wide(k - 1);
    rest[seq(k - 1, _ => 'c') := "INTEGER"]
  }

  lemma {:induction false} ImageSize(s: set<string>, t: string)
    ensures |Image(s, ColumnOf(t))| == |s| && |Image(s, NameKey)| == |s|
    decreases |s|
  {
    if s != {} {
      var x :| x in s;
      var rest := s - {x};
      ImageSize(rest, t);
      assert Image(s, ColumnOf(t)) == Image(rest, ColumnOf(t)) + {ColumnKey(t, x)};
      assert Image(s, NameKey) == Image(rest, NameKey) + {TableKey(x)};
      assert ColumnKey(t, x) !in Image(rest, ColumnOf(t)) && TableKey(x) !in Image(rest, NameKey);
    } else {
      assert Image(s, ColumnOf(t)) == {} && Image(s, NameKey) == {};
    }
  }

  /** A table the ends share but the detour lacks can change at any cost unseen. */
  lemma {:induction false} DetourUnseen(
      na: set<string>, nb: set<string>, nc: set<string>, t: string, a: Tables, b: Tables, c: Tables)
    requires t in na && t in nc && t !in nb
    requires a == BareTables(na) && b == BareTables(nb)
    requires c == BareTables(nc)[t := Bare(t).(columns := Wide(|na| + 2 * |nb| + |nc| + 1))]
    ensures |DiffKeys(a, c)| > |DiffKeys(a, b)| + |DiffKeys(b, c)|
  {
    hide DiffKeys, Wide;
    var columns := Wide(|na| + 2 * |nb| + |nc| + 1);
    assert |columns.Keys| == |columns|;
    forall k | k in Image(columns.Keys, ColumnOf(t))
      ensures k in DiffKeys(a, c)
    {
      DiffKeysAre(a, c, k);
    }
    ImageSize(columns.Keys, t);
    SubsetSize(Image(columns.Keys, ColumnOf(t)), DiffKeys(a, c));
    OnlyNamesDiffer(na, nb, a, b);
    OnlyNamesDiffer(nb, nc, b, c);
  }

  lemma {:induction false} OnlyNamesDiffer(na: set<string>, nb: set<string>, a: Tables, b: Tables)
    requires a.Keys == na && b.Keys == nb
    requires forall n | n in a && n in b :: a[n] == b[n]
    ensures |DiffKeys(a, b)| <= |na| + |nb|
  {
    hide DiffKeys, Labels;
    forall k | k in DiffKeys(a, b)
      ensures k in Image(na, NameKey) + Image(nb, NameKey)
    {
      DiffKeysAre(a, b, k);
      assert k.TableKey? && NameKey(k.table) == k;
    }
    ImageSize(na, "");
    ImageSize(nb, "");
    UnionSize(DiffKeys(a, b), Image(na, NameKey), Image(nb, NameKey));
  }

  ghost predicate DetourNeverShorter(na: set<string>, nb: set<string>, nc: set<string>) {
    forall a: Tables, b: Tables, c: Tables
      | a.Keys == na && b.Keys == nb && c.Keys == nc && Proper(a) && Proper(b) && Proper(c) ::
      |DiffKeys(a, c)| <= |DiffKeys(a, b)| + |DiffKeys(b, c)|
  }

  lemma {:induction false} BareProper(names: set<string>)
    requires "" !in names
    ensures BareTables(names).Keys == names && Proper(BareTables(names))
  {
  }

  lemma {:induction false} WideProper(names: set<string>, t: string, columns: map<string, string>)
    requires "" !in names && t in names
    ensures var tables := BareTables(names)[t := Bare(t).(columns := columns)];
            tables.Keys == names && Proper(tables)
  {
  }

  lemma {:induction false} DetourMatters(na: set<string>, nb: set<string>, nc: set<string>)
    requires "" !in na + nb + nc && !(na * nc <= nb)
    ensures !DetourNeverShorter(na, nb, nc)
  {
    hide DiffKeys, Wide, BareTables, Bare, Proper;
    var t :| t in na * nc && t !in nb;
    var columns := Wide(|na| + 2 * |nb| + |nc| + 1);
    var a, b, c := BareTables(na), BareTables(nb), BareTables(nc)[t := Bare(t).(columns := columns)];
    DetourUnseen(na, nb, nc, t, a, b, c);
    BareProper(na);
    BareProper(nb);
    WideProper(nc, t, columns);
  }

  /** The number of lines obeys the triangle inequality for all snapshots with given table names if
      and only if the middle one has every table that the outer two share - as it has when all
      three have the same tables. */
  lemma {:induction false} TriangleIff(na: set<string>, nb: set<string>, nc: set<string>)
    requires "" !in na + nb + nc
    ensures DetourNeverShorter(na, nb, nc) <==> na * nc <= nb
  {
    hide DiffKeys, Wide;
    if na * nc <= nb {
      forall a: Tables, b: Tables, c: Tables | a.Keys == na && b.Keys == nb && c.Keys == nc
        ensures |DiffKeys(a, c)| <= |DiffKeys(a, b)| + |DiffKeys(b, c)|
      {
        Triangle(a, b, c);
      }
    } else {
      DetourMatters(na, nb, nc);
    }
  }

  // --- the lines as a patch ---

  /** What a snapshot says, as one map. */
  type Facts = map<Key, string>

  function FactsOf(tables: Tables): Facts {
    map k | k in Keys(tables) && State(tables, k).Some? :: State(tables, k).value
  }

  function Lookup(facts: Facts, k: Key): Option<string> {
    if k in facts then Some(facts[k]) else None
  }

  function ApplyLine(facts: Facts, l: Line): Facts {
    match l
    case TableAdded(_) => facts[KeyOf(l) := ""]
    case ColumnAdded(_, _, ty) => facts[KeyOf(l) := ty]
    case ColumnChanged(_, _, _, ty) => facts[KeyOf(l) := ty]
    case LabelAdded(_, _, _) => facts[KeyOf(l) := ""]
    case _ => facts - {KeyOf(l)}
  }

  function ApplyAll(facts: Facts, lines: seq<Line>): Facts
    decreases |lines|
  {
    if lines == [] then facts else ApplyAll(ApplyLine(facts, lines[0]), lines[1..])
  }

  lemma {:induction false} ApplyLineSays(was: Tables, now: Tables, k: Key, facts: Facts)
    requires Differs(was, now, k)
    ensures Lookup(ApplyLine(facts, LineOf(was, now, k)), k) == State(now, k)
    ensures forall j | j != k :: Lookup(ApplyLine(facts, LineOf(was, now, k)), j) == Lookup(facts, j)
  {
    hide Labels;
  }

  lemma {:induction false} ApplyAllSays(was: Tables, now: Tables, lines: seq<Line>, facts: Facts, k: Key)
    requires forall i | 0 <= i < |lines| ::
             Differs(was, now, KeyOf(lines[i])) && lines[i] == LineOf(was, now, KeyOf(lines[i]))
    ensures Lookup(ApplyAll(facts, lines), k) ==
            if exists i | 0 <= i < |lines| :: KeyOf(lines[i]) == k then State(now, k) else Lookup(facts, k)
    decreases |lines|
  {
    hide State, LineOf, KeyOf, ApplyLine, Lookup, Differs;
    if lines != [] {
      var rest := lines[1..];
      assert forall i | 0 <= i < |rest| :: rest[i] == lines[i + 1];
      assert forall i | 1 <= i < |lines| :: lines[i] == rest[i - 1];
      ApplyLineSays(was, now, KeyOf(lines[0]), facts);
      ApplyAllSays(was, now, rest, ApplyLine(facts, lines[0]), k);
    }
  }

  /** Applying the uncapped lines, in the order in which they are printed, to what the old snapshot
      says gives the new table names and, for every table in both, exactly the new columns with
      their types, indexes, unique constraints and foreign keys. */
  lemma {:induction false} PatchReconstructs(was: Tables, now: Tables, lines: seq<Line>, k: Key)
    requires Covers(lines, DiffKeys(was, now), was, now) && Compared(was, now, k)
    ensures Lookup(ApplyAll(FactsOf(was), lines), k) == State(now, k)
  {
    hide State, LineOf, DiffKeys, ApplyAll;
    assert forall i | 0 <= i < |lines| :: lines[i] in lines;
    ApplyAllSays(was, now, lines, FactsOf(was), k);
    DiffKeysAre(was, now, k);
    StateIsKey(was, k);
    if Differs(was, now, k) {
      KeyOfLine(was, now, k);
    } else {
      assert forall i | 0 <= i < |lines| :: KeyOf(lines[i]) in DiffKeys(was, now);
    }
  }
}
