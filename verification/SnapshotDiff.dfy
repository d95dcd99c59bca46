/** backend/scripts/snapshot_diff.py: comparing two schema snapshots, with the lines of the diff as
    values.  A snapshot's tables have passed the type checks of the validators already. */
module SnapshotDiff {
  import opened Seqs
  import opened Sorting
  import opened Wrappers

  /** A unique constraint is its list of columns, a foreign key its list of source and target. */
  datatype Table = Table(
    name: string, columns: map<string, string>,
    indexes: seq<string>, uniques: seq<seq<string>>, foreignKeys: seq<seq<string>>)

  type Snapshot = seq<Table>

  type Tables = map<string, Table>

  /** The families of labelled things a table has; an index is labelled by its name alone. */
  datatype Kind = Index | Unique | ForeignKey

  datatype Line =
    | TableAdded(table: string)
    | TableRemoved(table: string)
    | ColumnAdded(table: string, column: string, newType: string)
    | ColumnRemoved(table: string, column: string)
    | ColumnChanged(table: string, column: string, oldType: string, newType: string)
    | LabelAdded(table: string, kind: Kind, lab: seq<string>)
    | LabelRemoved(table: string, kind: Kind, lab: seq<string>)

  // --- validation ---

  ghost predicate ValidTable(t: Table) {
    && t.name != "" && Distinct(t.indexes)
    && (forall i | 0 <= i < |t.uniques| :: Distinct(t.uniques[i])) && Distinct(t.uniques)
    && Distinct(t.foreignKeys)
  }

  ghost predicate Valid(s: Snapshot) {
    && (forall i | 0 <= i < |s| :: ValidTable(s[i]))
    && (forall i, j | 0 <= i < j < |s| :: s[i].name != s[j].name)
  }

  method ValidateUnique<T(==)>(items: seq<T>) returns (ok: bool)
    ensures ok <==> Distinct(items)
  {
    var seen: set<T> := {};
    for i := 0 to |items|
      invariant forall x :: x in seen <==> x in items[..i]
      invariant Distinct(items[..i])
    {
      if items[i] in seen {
        var j :| 0 <= j < i && items[..i][j] == items[i];
        assert items[j] == items[i];
        return false;
      }
      seen := seen + {items[i]};
      assert items[..i + 1] == items[..i] + [items[i]];
    }
    assert items[..|items|] == items;
    ok := true;
  }

  method ValidateTable(t: Table) returns (ok: bool)
    ensures ok <==> ValidTable(t)
  {
    if t.name == "" {
      return false;
    }
    var indexes := ValidateUnique(t.indexes);
    if !indexes {
      return false;
    }
    for i := 0 to |t.uniques|
      invariant forall k | 0 <= k < i :: Distinct(t.uniques[k])
    {
      var columns := ValidateUnique(t.uniques[i]);
      if !columns {
        return false;
      }
    }
    var uniques := ValidateUnique(t.uniques);
    if !uniques {
      return false;
    }
    ok := ValidateUnique(t.foreignKeys);
  }

  /** The tables of a snapshot by name, later ones last. */
  function ByName(s: Snapshot): (m: Tables)
    ensures forall n :: n in m ==> exists i | 0 <= i < |s| :: s[i].name == n && m[n] == s[i]
    ensures forall i | 0 <= i < |s| :: s[i].name in m
  {
    if s == [] then map[]
    else
      var last := s[|s| - 1];
      ByName(s[..|s| - 1])[last.name := last]
  }

  lemma {:induction false} NameTaken(s: Snapshot, name: string)
    ensures name in ByName(s) <==> exists i | 0 <= i < |s| :: s[i].name == name
  {
  }

  lemma {:induction false} ByNameExtended(s: Snapshot, t: Table)
    ensures ByName(s + [t]) == ByName(s)[t.name := t]
  {
    var all := s + [t];
    assert all[..|all| - 1] == s && all[|all| - 1] == t;
  }

  lemma {:induction false} FreshTable(s: Snapshot, t: Table)
    requires Valid(s) && ValidTable(t) && t.name !in ByName(s)
    ensures Valid(s + [t])
  {
    hide ValidTable, ByName;
    NameTaken(s, t.name);
  }

  lemma {:induction false} NoFreshTable(s: Snapshot, t: Table)
    requires !ValidTable(t) || t.name in ByName(s)
    ensures !Valid(s + [t])
  {
    hide ValidTable, ByName;
    var all := s + [t];
    assert all[|s|] == t;
    NameTaken(s, t.name);
    if t.name in ByName(s) {
      var j :| 0 <= j < |s| && s[j].name == t.name;
      assert all[j].name == all[|s|].name;
    }
  }

  /** A snapshot stays valid with one more table if that is valid and its name is new. */
  lemma {:induction false} ValidExtended(s: Snapshot, t: Table)
    requires Valid(s)
    ensures Valid(s + [t]) <==> ValidTable(t) && t.name !in ByName(s)
    ensures ByName(s + [t]) == ByName(s)[t.name := t]
  {
    hide Valid, ValidTable, ByName;
    ByNameExtended(s, t);
    if ValidTable(t) && t.name !in ByName(s) {
      FreshTable(s, t);
    } else {
      NoFreshTable(s, t);
    }
  }

  lemma {:induction false} ValidPrefix(s: Snapshot, i: nat)
    requires i <= |s| && Valid(s)
    ensures Valid(s[..i])
  {
    hide ValidTable;
  }

  /** `_table_map`: None where it raises. */
  method TableMap(s: Snapshot) returns (r: Option<Tables>)
    ensures r == if Valid(s) then Some(ByName(s)) else None
  {
    hide ValidTable, Valid, ByName;
    var tables: Tables := map[];
    NoTables(s);
    for i := 0 to |s|
      invariant Valid(s[..i]) && tables == ByName(s[..i])
    {
      assert s[..i + 1] == s[..i] + [s[i]];
      ValidExtended(s[..i], s[i]);
      if Valid(s) {
        ValidPrefix(s, i + 1);
      }
      var ok := ValidateTable(s[i]);
      if !ok || s[i].name in tables {
        return None;
      }
      tables := tables[s[i].name := s[i]];
    }
    assert s[..|s|] == s;
    r := Some(tables);
  }

  lemma {:induction false} NoTables(s: Snapshot)
    ensures Valid(s[..0]) && ByName(s[..0]) == map[]
  {
  }

  // --- what is compared ---

  /** What a snapshot can say: that a table is there, what type a column has, that a table has a
      label. */
  datatype Key =
    | TableKey(table: string)
    | ColumnKey(table: string, column: string)
    | LabelKey(table: string, kind: Kind, lab: seq<string>)

  function Labels(t: Table, kind: Kind): set<seq<string>> {
    match kind
    case Index => set i | i in t.indexes :: [i]
    case Unique => set u | u in t.uniques
    case ForeignKey => set f | f in t.foreignKeys
  }

  /** The type of a column, "" for a table or label that is there, None otherwise. */
  function State(tables: Tables, k: Key): Option<string> {
    if k.table !in tables then None
    else
      match k
      case TableKey(_) => Some("")
      case ColumnKey(t, c) => if c in tables[t].columns then Some(tables[t].columns[c]) else None
      case LabelKey(t, kind, lab) => if lab in Labels(tables[t], kind) then Some("") else None
  }

  /** Only tables on both sides are looked into. */
  predicate Compared(was: Tables, now: Tables, k: Key) {
    k.TableKey? || (k.table in was && k.table in now)
  }

  predicate Differs(was: Tables, now: Tables, k: Key) {
    Compared(was, now, k) && State(was, k) != State(now, k)
  }

  function TableKeys(name: string, t: Table): set<Key> {
    {TableKey(name)} + (set c | c in t.columns :: ColumnKey(name, c)) +
    (set kind: Kind, lab | lab in Labels(t, kind) :: LabelKey(name, kind, lab))
  }

  function Keys(tables: Tables): set<Key> {
    set n, k | n in tables && k in TableKeys(n, tables[n]) :: k
  }

  function DiffKeys(was: Tables, now: Tables): set<Key> {
    set k | k in Keys(was) + Keys(now) && Differs(was, now, k)
  }

  function KeyOf(l: Line): Key {
    match l
    case TableAdded(t) => TableKey(t)
    case TableRemoved(t) => TableKey(t)
    case ColumnAdded(t, c, _) => ColumnKey(t, c)
    case ColumnRemoved(t, c) => ColumnKey(t, c)
    case ColumnChanged(t, c, _, _) => ColumnKey(t, c)
    case LabelAdded(t, kind, lab) => LabelKey(t, kind, lab)
    case LabelRemoved(t, kind, lab) => LabelKey(t, kind, lab)
  }

  /** The line for a difference. */
  function LineOf(was: Tables, now: Tables, k: Key): Line
    requires Differs(was, now, k)
  {
    match k
    case TableKey(t) => if t in now then TableAdded(t) else TableRemoved(t)
    case ColumnKey(t, c) =>
      if State(was, k).None? then ColumnAdded(t, c, State(now, k).value)
      else if State(now, k).None? then ColumnRemoved(t, c)
      else ColumnChanged(t, c, State(was, k).value, State(now, k).value)
    case LabelKey(t, kind, lab) =>
      if State(was, k).None? then LabelAdded(t, kind, lab) else LabelRemoved(t, kind, lab)
  }

  /** The lines report exactly the differences `keys`, each once and as it is. */
  ghost predicate Covers(lines: seq<Line>, keys: set<Key>, was: Tables, now: Tables) {
    && |lines| == |keys|
    && (forall k | k in keys :: Differs(was, now, k) && LineOf(was, now, k) in lines)
    && (forall l | l in lines :: KeyOf(l) in keys && l == LineOf(was, now, KeyOf(l)))
  }

  lemma {:induction false} CoversSize(lines: seq<Line>, keys: set<Key>, was: Tables, now: Tables)
    requires Covers(lines, keys, was, now)
    ensures |lines| == |keys| && (lines == [] <==> keys == {})
  {
  }

  lemma {:induction false} CoversConcat(
      a: seq<Line>, ka: set<Key>, b: seq<Line>, kb: set<Key>, was: Tables, now: Tables)
    requires Covers(a, ka, was, now) && Covers(b, kb, was, now) && ka !! kb
    ensures Covers(a + b, ka + kb, was, now)
  {
  }

  /** `items` are the elements of `s`, each once. */
  ghost predicate Lists<T(!new)>(items: seq<T>, s: set<T>) {
    (forall x :: x in items <==> x in s) && Distinct(items)
  }

  ghost predicate Injective<T(!new)>(key: T -> Key) {
    forall x, y :: key(x) == key(y) ==> x == y
  }

  ghost predicate TrueLines<T(!new)>(s: set<T>, f: T -> Line, key: T -> Key, was: Tables, now: Tables) {
    forall x | x in s :: Differs(was, now, key(x)) && LineOf(was, now, key(x)) == f(x)
  }

  ghost function Image<T(!new)>(s: set<T>, key: T -> Key): set<Key> {
    set x | x in s :: key(x)
  }

  lemma {:induction false} ListsTail<T(!new)>(items: seq<T>, s: set<T>, key: T -> Key)
    requires items != [] && Lists(items, s) && Injective(key)
    ensures items[0] in s && Lists(items[1..], s - {items[0]})
    ensures Image(s, key) == {key(items[0])} + Image(s - {items[0]}, key)
    ensures key(items[0]) !in Image(s - {items[0]}, key)
  {
  }

  lemma {:induction false} KeyOfLine(was: Tables, now: Tables, k: Key)
    requires Differs(was, now, k)
    ensures KeyOf(LineOf(was, now, k)) == k
  {
  }

  lemma {:induction false} OneLineCovers(l: Line, k: Key, was: Tables, now: Tables)
    requires Differs(was, now, k) && LineOf(was, now, k) == l
    ensures Covers([l], {k}, was, now)
  {
    KeyOfLine(was, now, k);
    hide LineOf, Differs, KeyOf;
  }

  lemma {:induction false} NothingCovers(was: Tables, now: Tables)
    ensures Covers([], {}, was, now)
  {
  }

  lemma {:induction false} TrueLinesRest<T(!new)>(
      x: T, s: set<T>, f: T -> Line, key: T -> Key, was: Tables, now: Tables)
    requires x in s && TrueLines(s, f, key, was, now)
    ensures Differs(was, now, key(x)) && LineOf(was, now, key(x)) == f(x)
    ensures TrueLines(s - {x}, f, key, was, now)
  {
    hide LineOf, Differs;
  }

  /** A list comprehension over distinct elements, one difference each. */
  lemma {:induction false} FamilyCovers<T(!new)>(
    items: seq<T>, s: set<T>, f: T -> Line, key: T -> Key, was: Tables, now: Tables)
    requires Lists(items, s) && Injective(key) && TrueLines(s, f, key, was, now)
    ensures Covers(Map(items, f), Image(s, key), was, now)
    decreases |items|
  {
    hide LineOf, KeyOf, Differs, Lists, Injective, Covers, TrueLines;
    if items == [] {
      NothingListed(items, s);
      NothingCovers(was, now);
      assert Image(s, key) == {};
    } else {
      var x := items[0];
      ListsTail(items, s, key);
      TrueLinesRest(x, s, f, key, was, now);
      FamilyCovers(items[1..], s - {x}, f, key, was, now);
      OneLineCovers(f(x), key(x), was, now);
      CoversConcat([f(x)], {key(x)}, Map(items[1..], f), Image(s - {x}, key), was, now);
    }
  }

  lemma {:induction false} NothingListed<T(!new)>(items: seq<T>, s: set<T>)
    requires Lists(items, s) && items == []
    ensures s == {}
  {
  }

  // --- diff_snapshots ---

  lemma {:induction false} StateIsKey(tables: Tables, k: Key)
    ensures k in Keys(tables) <==> State(tables, k).Some?
  {
    hide Labels;
    if k.table in tables {
      assert k in TableKeys(k.table, tables[k.table]) <==> State(tables, k).Some?;
    }
  }

  /** Every difference is among the diff's keys. */
  lemma {:induction false} DiffKeysAre(was: Tables, now: Tables, k: Key)
    ensures k in DiffKeys(was, now) <==> Differs(was, now, k)
  {
    hide State, Keys;
    StateIsKey(was, k);
    StateIsKey(now, k);
  }

  function TypeIn(t: Table, c: string): string {
    if c in t.columns then t.columns[c] else ""
  }

  function SortedLabels(s: set<seq<string>>): (r: seq<seq<string>>)
    ensures Lists(r, s)
  {
    StringsOrder();
    Listing(s, StringsLe)
  }

  function AddTable(n: string): Line { TableAdded(n) }

  function RemoveTable(n: string): Line { TableRemoved(n) }

  function AddColumn(t: string, b: Table): string -> Line { c => ColumnAdded(t, c, TypeIn(b, c)) }

  function RemoveColumn(t: string): string -> Line { c => ColumnRemoved(t, c) }

  function ChangeColumn(t: string, a: Table, b: Table): string -> Line {
    c => ColumnChanged(t, c, TypeIn(a, c), TypeIn(b, c))
  }

  function AddLabel(t: string, kind: Kind): seq<string> -> Line { lab => LabelAdded(t, kind, lab) }

  function RemoveLabel(t: string, kind: Kind): seq<string> -> Line { lab => LabelRemoved(t, kind, lab) }

  function ColumnOf(t: string): string -> Key { c => ColumnKey(t, c) }

  function LabelOf(t: string, kind: Kind): seq<string> -> Key { lab => LabelKey(t, kind, lab) }

  /** The columns of both tables whose types differ. */
  function Retyped(a: Table, b: Table): set<string> {
    set c | c in a.columns && c in b.columns && a.columns[c] != b.columns[c]
  }

  /** The families of lines, in the order of the source. */
  function NameLines(was: Tables, now: Tables): seq<Line> {
    Map(SortedSet(now.Keys - was.Keys), AddTable) + Map(SortedSet(was.Keys - now.Keys), RemoveTable)
  }

  function ColumnLines(t: string, a: Table, b: Table): seq<Line> {
    Map(SortedSet(b.columns.Keys - a.columns.Keys), AddColumn(t, b)) +
    Map(SortedSet(a.columns.Keys - b.columns.Keys), RemoveColumn(t)) +
    Map(SortedSet(Retyped(a, b)), ChangeColumn(t, a, b))
  }

  function LabelLines(t: string, kind: Kind, a: Table, b: Table): seq<Line> {
    Map(SortedLabels(Labels(b, kind) - Labels(a, kind)), AddLabel(t, kind)) +
    Map(SortedLabels(Labels(a, kind) - Labels(b, kind)), RemoveLabel(t, kind))
  }

  function NameKey(n: string): Key { TableKey(n) }

  ghost function NameDiff(was: Tables, now: Tables): set<Key> {
    set k | k in DiffKeys(was, now) && k.TableKey?
  }

  ghost function ColumnDiff(was: Tables, now: Tables, t: string): set<Key> {
    set k | k in DiffKeys(was, now) && k.ColumnKey? && k.table == t
  }

  ghost function LabelDiff(was: Tables, now: Tables, t: string, kind: Kind): set<Key> {
    set k | k in DiffKeys(was, now) && k.LabelKey? && k.table == t && k.kind == kind
  }

  lemma {:induction false} NameImages(was: Tables, now: Tables)
    ensures Image(now.Keys - was.Keys, NameKey) + Image(was.Keys - now.Keys, NameKey) == NameDiff(was, now)
    ensures Image(now.Keys - was.Keys, NameKey) !! Image(was.Keys - now.Keys, NameKey)
  {
    hide Labels, DiffKeys;
    forall k: Key
      ensures k in NameDiff(was, now) <==>
              k in Image(now.Keys - was.Keys, NameKey) + Image(was.Keys - now.Keys, NameKey)
    {
      DiffKeysAre(was, now, k);
      if k.TableKey? && k.table in now.Keys - was.Keys {
        assert NameKey(k.table) == k;
      } else if k.TableKey? && k.table in was.Keys - now.Keys {
        assert NameKey(k.table) == k;
      }
    }
  }

  lemma {:induction false} NamesTrue(was: Tables, now: Tables)
    ensures TrueLines(now.Keys - was.Keys, AddTable, NameKey, was, now)
    ensures TrueLines(was.Keys - now.Keys, RemoveTable, NameKey, was, now)
  {
    hide Labels;
  }

  lemma {:induction false} Enumerated(s: set<string>, t: string, kind: Kind, labels: set<seq<string>>)
    ensures Lists(SortedSet(s), s) && Lists(SortedLabels(labels), labels)
    ensures Injective(NameKey) && Injective(ColumnOf(t)) && Injective(LabelOf(t, kind))
  {
  }

  lemma {:induction false} NameLinesCover(was: Tables, now: Tables)
    ensures Covers(NameLines(was, now), NameDiff(was, now), was, now)
  {
    hide Covers, TrueLines, Image, NameDiff, Lists, Injective, SortedSet, Map;
    NamesTrue(was, now);
    Enumerated(now.Keys - was.Keys, "", Index, {});
    Enumerated(was.Keys - now.Keys, "", Index, {});
    FamilyCovers(SortedSet(now.Keys - was.Keys), now.Keys - was.Keys, AddTable, NameKey, was, now);
    FamilyCovers(SortedSet(was.Keys - now.Keys), was.Keys - now.Keys, RemoveTable, NameKey, was, now);
    NameImages(was, now);
    CoversConcat(Map(SortedSet(now.Keys - was.Keys), AddTable), Image(now.Keys - was.Keys, NameKey),
                 Map(SortedSet(was.Keys - now.Keys), RemoveTable), Image(was.Keys - now.Keys, NameKey), was, now);
  }

  // one table on both sides

  ghost predicate Both(was: Tables, now: Tables, t: string, a: Table, b: Table) {
    t in was && was[t] == a && t in now && now[t] == b
  }

  lemma {:induction false} ColumnImages(was: Tables, now: Tables, t: string, a: Table, b: Table)
    requires Both(was, now, t, a, b)
    ensures Image(b.columns.Keys - a.columns.Keys, ColumnOf(t)) + Image(a.columns.Keys - b.columns.Keys, ColumnOf(t)) +
            Image(Retyped(a, b), ColumnOf(t)) == ColumnDiff(was, now, t)
    ensures Image(b.columns.Keys - a.columns.Keys, ColumnOf(t)) !! Image(a.columns.Keys - b.columns.Keys, ColumnOf(t))
    ensures Image(b.columns.Keys - a.columns.Keys, ColumnOf(t)) + Image(a.columns.Keys - b.columns.Keys, ColumnOf(t))
            !! Image(Retyped(a, b), ColumnOf(t))
  {
    hide Labels, DiffKeys;
    var all := Image(b.columns.Keys - a.columns.Keys, ColumnOf(t)) +
      Image(a.columns.Keys - b.columns.Keys, ColumnOf(t)) +
               Image(Retyped(a, b), ColumnOf(t));
    forall k: Key
      ensures k in ColumnDiff(was, now, t) <==> k in all
    {
      DiffKeysAre(was, now, k);
      if k.ColumnKey? && k.table == t {
        assert ColumnOf(t)(k.column) == k;
      }
    }
  }

  lemma {:induction false} ColumnsTrue(was: Tables, now: Tables, t: string, a: Table, b: Table)
    requires Both(was, now, t, a, b)
    ensures TrueLines(b.columns.Keys - a.columns.Keys, AddColumn(t, b), ColumnOf(t), was, now)
    ensures TrueLines(a.columns.Keys - b.columns.Keys, RemoveColumn(t), ColumnOf(t), was, now)
    ensures TrueLines(Retyped(a, b), ChangeColumn(t, a, b), ColumnOf(t), was, now)
  {
    hide Labels;
  }

  lemma {:induction false} ColumnLinesCover(was: Tables, now: Tables, t: string, a: Table, b: Table)
    requires Both(was, now, t, a, b)
    ensures Covers(ColumnLines(t, a, b), ColumnDiff(was, now, t), was, now)
  {
    hide Covers, TrueLines, Image, ColumnDiff, Retyped, Lists, Injective, SortedSet, Map, ColumnOf;
    var added, removed, retyped := b.columns.Keys - a.columns.Keys, a.columns.Keys - b.columns.Keys, Retyped(a, b);
    Enumerated(added, t, Index, {});
    Enumerated(removed, t, Index, {});
    Enumerated(retyped, t, Index, {});
    ColumnsTrue(was, now, t, a, b);
    FamilyCovers(SortedSet(added), added, AddColumn(t, b), ColumnOf(t), was, now);
    FamilyCovers(SortedSet(removed), removed, RemoveColumn(t), ColumnOf(t), was, now);
    FamilyCovers(SortedSet(retyped), retyped, ChangeColumn(t, a, b), ColumnOf(t), was, now);
    ColumnImages(was, now, t, a, b);
    CoversConcat(Map(SortedSet(added), AddColumn(t, b)), Image(added, ColumnOf(t)),
                 Map(SortedSet(removed), RemoveColumn(t)), Image(removed, ColumnOf(t)), was, now);
    CoversConcat(Map(SortedSet(added), AddColumn(t, b)) + Map(SortedSet(removed), RemoveColumn(t)),
                 Image(added, ColumnOf(t)) + Image(removed, ColumnOf(t)),
                 Map(SortedSet(retyped), ChangeColumn(t, a, b)), Image(retyped, ColumnOf(t)), was, now);
  }

  lemma {:induction false} LabelImages(was: Tables, now: Tables, t: string, kind: Kind, a: Table, b: Table)
    requires Both(was, now, t, a, b)
    ensures var added, removed := Labels(b, kind) - Labels(a, kind), Labels(a, kind) - Labels(b, kind);
            && Image(added, LabelOf(t, kind)) + Image(removed, LabelOf(t, kind)) == LabelDiff(was, now, t, kind)
            && Image(added, LabelOf(t, kind)) !! Image(removed, LabelOf(t, kind))
  {
    hide Labels, DiffKeys;
    var added, removed := Labels(b, kind) - Labels(a, kind), Labels(a, kind) - Labels(b, kind);
    forall k: Key
      ensures k in LabelDiff(was, now, t, kind) <==>
              k in Image(added, LabelOf(t, kind)) + Image(removed, LabelOf(t, kind))
    {
      DiffKeysAre(was, now, k);
      if k.LabelKey? && k.table == t && k.kind == kind {
        assert LabelOf(t, kind)(k.lab) == k;
      }
    }
  }

  lemma {:induction false} LabelsTrue(was: Tables, now: Tables, t: string, kind: Kind, a: Table, b: Table)
    requires Both(was, now, t, a, b)
    ensures TrueLines(Labels(b, kind) - Labels(a, kind), AddLabel(t, kind), LabelOf(t, kind), was, now)
    ensures TrueLines(Labels(a, kind) - Labels(b, kind), RemoveLabel(t, kind), LabelOf(t, kind), was, now)
  {
    hide Labels;
  }

  lemma {:induction false} LabelLinesCover(was: Tables, now: Tables, t: string, kind: Kind, a: Table, b: Table)
    requires Both(was, now, t, a, b)
    ensures Covers(LabelLines(t, kind, a, b), LabelDiff(was, now, t, kind), was, now)
  {
    hide Covers, TrueLines, Image, LabelDiff, Labels, Lists, Injective, SortedLabels, Map, LabelOf;
    var added, removed := Labels(b, kind) - Labels(a, kind), Labels(a, kind) - Labels(b, kind);
    Enumerated({}, t, kind, added);
    Enumerated({}, t, kind, removed);
    LabelsTrue(was, now, t, kind, a, b);
    FamilyCovers(SortedLabels(added), added, AddLabel(t, kind), LabelOf(t, kind), was, now);
    FamilyCovers(SortedLabels(removed), removed, RemoveLabel(t, kind), LabelOf(t, kind), was, now);
    LabelImages(was, now, t, kind, a, b);
    CoversConcat(Map(SortedLabels(added), AddLabel(t, kind)), Image(added, LabelOf(t, kind)),
                 Map(SortedLabels(removed), RemoveLabel(t, kind)), Image(removed, LabelOf(t, kind)), was, now);
  }

  ghost function TableDiff(was: Tables, now: Tables, t: string): set<Key> {
    set k | k in DiffKeys(was, now) && !k.TableKey? && k.table == t
  }

  function TableLines(t: string, a: Table, b: Table): seq<Line> {
    ColumnLines(t, a, b) + LabelLines(t, Index, a, b) + LabelLines(t, Unique, a, b) + LabelLines(t, ForeignKey, a, b)
  }

  lemma {:induction false} TableDiffSplit(was: Tables, now: Tables, t: string)
    ensures var c, i := ColumnDiff(was, now, t), LabelDiff(was, now, t, Index);
            var u, f := LabelDiff(was, now, t, Unique), LabelDiff(was, now, t, ForeignKey);
            c + i + u + f == TableDiff(was, now, t) && c !! i && (c + i) !! u && (c + i + u) !! f
  {
    hide DiffKeys;
  }

  lemma {:induction false} TableLinesCover(was: Tables, now: Tables, t: string, a: Table, b: Table)
    requires Both(was, now, t, a, b)
    ensures Covers(TableLines(t, a, b), TableDiff(was, now, t), was, now)
  {
    hide Covers, ColumnLines, LabelLines, ColumnDiff, LabelDiff, TableDiff;
    TableDiffSplit(was, now, t);
    ColumnLinesCover(was, now, t, a, b);
    LabelLinesCover(was, now, t, Index, a, b);
    LabelLinesCover(was, now, t, Unique, a, b);
    LabelLinesCover(was, now, t, ForeignKey, a, b);
    var c, i := ColumnDiff(was, now, t), LabelDiff(was, now, t, Index);
    var u, f := LabelDiff(was, now, t, Unique), LabelDiff(was, now, t, ForeignKey);
    CoversConcat(ColumnLines(t, a, b), c, LabelLines(t, Index, a, b), i, was, now);
    CoversConcat(ColumnLines(t, a, b) + LabelLines(t, Index, a, b), c + i, LabelLines(t, Unique, a, b), u, was, now);
    CoversConcat(ColumnLines(t, a, b) + LabelLines(t, Index, a, b) + LabelLines(t, Unique, a, b), c + i + u,
                 LabelLines(t, ForeignKey, a, b), f, was, now);
  }

  /** The differences reported once the tables `names` have been looked into. */
  ghost function DiffUpTo(was: Tables, now: Tables, names: seq<string>): set<Key> {
    set k | k in DiffKeys(was, now) && (k.TableKey? || k.table in names)
  }

  lemma {:induction false} DiffUpToNext(was: Tables, now: Tables, names: seq<string>, t: string)
    requires t !in names
    ensures DiffUpTo(was, now, names + [t]) == DiffUpTo(was, now, names) + TableDiff(was, now, t)
    ensures DiffUpTo(was, now, names) !! TableDiff(was, now, t)
  {
    hide DiffKeys;
  }

  lemma {:induction false} DiffUpToNone(was: Tables, now: Tables)
    ensures DiffUpTo(was, now, []) == NameDiff(was, now)
  {
    hide DiffKeys;
  }

  lemma {:induction false} DiffUpToAll(was: Tables, now: Tables, names: seq<string>)
    requires forall t :: t in names <==> t in was.Keys * now.Keys
    ensures DiffUpTo(was, now, names) == DiffKeys(was, now)
  {
    hide DiffKeys;
    forall k | k in DiffKeys(was, now)
      ensures k.TableKey? || k.table in names
    {
      DiffKeysAre(was, now, k);
    }
  }

  /** The lines about one table that is on both sides. */
  function LinesOf(was: Tables, now: Tables, t: string): seq<Line> {
    if t in was && t in now then TableLines(t, was[t], now[t]) else []
  }

  /** The lines, in their order, once the tables `names` have been looked into. */
  function LinesUpTo(was: Tables, now: Tables, names: seq<string>): seq<Line> {
    if names == [] then NameLines(was, now)
    else
      var t := names[|names| - 1];
      LinesUpTo(was, now, names[..|names| - 1]) + LinesOf(was, now, t)
  }

  lemma {:induction false} LinesUpToNext(was: Tables, now: Tables, names: seq<string>, i: nat)
    requires i < |names|
    ensures LinesUpTo(was, now, names[..i + 1]) == LinesUpTo(was, now, names[..i]) + LinesOf(was, now, names[i])
  {
    hide LinesOf, NameLines;
    PrefixSnoc(names, i);
    assert names[..i + 1][..i] == names[..i];
  }

  /** All lines in the order in which they are printed: the table names, then table by table. */
  function DiffLines(was: Tables, now: Tables): seq<Line> {
    LinesUpTo(was, now, SortedSet(was.Keys * now.Keys))
  }

  lemma {:induction false} LinesUpToCover(was: Tables, now: Tables, names: seq<string>)
    requires Distinct(names) && forall t | t in names :: t in was.Keys * now.Keys
    ensures Covers(LinesUpTo(was, now, names), DiffUpTo(was, now, names), was, now)
    decreases |names|
  {
    hide Covers, DiffKeys, TableLines, NameLines, DiffUpTo, TableDiff, NameDiff;
    if names == [] {
      NameLinesCover(was, now);
      DiffUpToNone(was, now);
    } else {
      var init, t := names[..|names| - 1], names[|names| - 1];
      assert names == init + [t];
      assert t in names && forall n | n in init :: n in names;
      assert t in was.Keys * now.Keys;
      LinesUpToCover(was, now, init);
      TableLinesCover(was, now, t, was[t], now[t]);
      DiffUpToNext(was, now, init, t);
      CoversConcat(LinesUpTo(was, now, init), DiffUpTo(was, now, init), TableLines(t, was[t], now[t]),
        TableDiff(was, now, t), was, now);
    }
  }

  lemma {:induction false} DiffLinesCover(was: Tables, now: Tables)
    ensures Covers(DiffLines(was, now), DiffKeys(was, now), was, now)
  {
    hide Covers, DiffKeys, LinesUpTo, DiffUpTo;
    var common := SortedSet(was.Keys * now.Keys);
    LinesUpToCover(was, now, common);
    DiffUpToAll(was, now, common);
  }

  lemma {:induction false} DiffLinesEnds(was: Tables, now: Tables)
    ensures var common := SortedSet(was.Keys * now.Keys);
            && LinesUpTo(was, now, common[..0]) == NameLines(was, now)
            && LinesUpTo(was, now, common[..|common|]) == DiffLines(was, now)
  {
    hide NameLines, SortedSet;
    var common := SortedSet(was.Keys * now.Keys);
    assert common[..|common|] == common;
  }

  /** The body of `diff_snapshots` on two table maps, without the cap: every difference has exactly
      one line, and there are no other lines. */
  method DiffTables(was: Tables, now: Tables) returns (lines: seq<Line>)
    ensures lines == DiffLines(was, now) && Covers(lines, DiffKeys(was, now), was, now)
  {
    hide *;
    DiffLinesCover(was, now);
    DiffLinesEnds(was, now);
    lines := NameLines(was, now);
    var common := SortedSet(was.Keys * now.Keys);
    for i := 0 to |common|
      invariant lines == LinesUpTo(was, now, common[..i])
    {
      LinesUpToNext(was, now, common, i);
      lines := lines + LinesOf(was, now, common[i]);
    }
  }

  // --- cap and exit code ---

  datatype Shown = Shown(line: Line) | More(hidden: nat)

  function Show(lines: seq<Line>): seq<Shown> {
    Map(lines, (l: Line) => Shown.Shown(l))
  }

  function CapLines(lines: seq<Line>): seq<Shown> {
    if |lines| <= 50 then Show(lines) else Show(lines[..49]) + [More(|lines| - 49)]
  }

  /** How many lines an output stands for. */
  function Accounted(shown: seq<Shown>): nat {
    if shown == [] then 0 else (if shown[0].More? then shown[0].hidden else 1) + Accounted(shown[1..])
  }

  lemma {:induction false} AccountedShow(lines: seq<Line>, rest: seq<Shown>)
    ensures Accounted(Show(lines) + rest) == |lines| + Accounted(rest)
  {
    if lines == [] {
      assert Show(lines) + rest == rest;
    } else {
      AccountedShow(lines[1..], rest);
      assert (Show(lines) + rest)[1..] == Show(lines[1..]) + rest;
    }
  }

  /** Capping shows at most 50 lines, accounts for every one, and is silent only on no difference. */
  lemma {:induction false} CapAccounts(lines: seq<Line>)
    ensures Accounted(CapLines(lines)) == |lines|
    ensures |CapLines(lines)| <= 50
    ensures CapLines(lines) == [] <==> lines == []
    ensures forall i | 0 <= i < |CapLines(lines)| && CapLines(lines)[i].Shown? ::
            i < |lines| && CapLines(lines)[i].line == lines[i]
  {
    if |lines| <= 50 {
      AccountedShow(lines, []);
      assert Show(lines) + [] == Show(lines);
    } else {
      AccountedShow(lines[..49], [More(|lines| - 49)]);
    }
  }

  /** Up to fifty lines are all shown; of more exactly the first forty-nine, and then how many others
      there are. */
  lemma {:induction false} CapShows(lines: seq<Line>)
    ensures |lines| <= 50 ==>
              && |CapLines(lines)| == |lines|
              && forall i | 0 <= i < |lines| :: CapLines(lines)[i] == Shown.Shown(lines[i])
    ensures |lines| > 50 ==>
              && |CapLines(lines)| == 50 && CapLines(lines)[49] == More(|lines| - 49)
              && forall i | 0 <= i < 49 :: CapLines(lines)[i] == Shown.Shown(lines[i])
  {
    if |lines| > 50 {
      assert forall i | 0 <= i < 49 :: lines[..49][i] == lines[i];
    }
  }

  /** `diff_snapshots`: None where it raises. */
  method DiffSnapshots(was: Snapshot, now: Snapshot) returns (r: Option<seq<Shown>>)
    ensures r.None? <==> !Valid(was) || !Valid(now)
    ensures r.Some? ==>
              && r.value == CapLines(DiffLines(ByName(was), ByName(now)))
              && Covers(DiffLines(ByName(was), ByName(now)), DiffKeys(ByName(was), ByName(now)), ByName(was),
                ByName(now))
              && Accounted(r.value) == |DiffKeys(ByName(was), ByName(now))|
              && (r.value == [] <==> DiffKeys(ByName(was), ByName(now)) == {})
  {
    hide DiffKeys, Accounted, CapLines, DiffLines, Covers;
    var a := TableMap(was);
    if a.None? {
      return None;
    }
    var b := TableMap(now);
    if b.None? {
      return None;
    }
    var lines := DiffTables(a.value, b.value);
    CapAccounts(lines);
    CoversSize(lines, DiffKeys(a.value, b.value), a.value, b.value);
    r := Some(CapLines(lines));
  }

  /** The exit code of `main` on two loaded snapshots. */
  method ExitCode(was: Snapshot, now: Snapshot) returns (code: int)
    ensures code == if !Valid(was) || !Valid(now) then 2
                    else if DiffKeys(ByName(was), ByName(now)) == {} then 0 else 1
  {
    var lines := DiffSnapshots(was, now);
    if lines.None? {
      return 2;
    }
    code := if lines.value != [] then 1 else 0;
  }
}
