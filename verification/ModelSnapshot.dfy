/** backend/scripts/snapshot_model_metadata.py: the canonical form of declared tables that is fed to
    the diff. */
module ModelSnapshot {
  import opened Seqs
  import opened SnapshotDiff
  import opened SnapshotMetric
  import opened Sorting
  import opened Wrappers

  datatype Column = Column(name: string, columnType: string)

  datatype Constraint = Constraint(unique: bool, columns: seq<string>)

  /** A table as the models declare it; what SQLAlchemy keeps in a set comes in any order. */
  datatype Model = Model(
    name: string, columns: seq<Column>, indexes: seq<Option<string>>,
    constraints: seq<Constraint>, foreignKeys: seq<seq<string>>)

  // --- build_snapshot ---

  /** A comprehension with a condition. */
  function Select<T, U>(s: seq<T>, p: T -> bool, f: T -> U): seq<U> {
    if s == [] then [] else (if p(s[0]) then [f(s[0])] else []) + Select(s[1..], p, f)
  }

  predicate ColumnLe(a: Column, b: Column) {
    StringLe(a.name, b.name)
  }

  predicate TableLe(a: Table, b: Table) {
    StringLe(a.name, b.name)
  }

  predicate Named(index: Option<string>) {
    index.Some? && index.value != ""
  }

  function NameOf(index: Option<string>): string {
    if index.Some? then index.value else ""
  }

  predicate IsUnique(c: Constraint) {
    c.unique
  }

  function SortedColumns(c: Constraint): seq<string> {
    Sort(c.columns, StringLe)
  }

  /** A dict comprehension: of two columns with one name the later one stays. */
  function TypesOf(columns: seq<Column>): map<string, string> {
    if columns == [] then map[]
    else
      var last := columns[|columns| - 1];
      TypesOf(columns[..|columns| - 1])[last.name := last.columnType]
  }

  function ColumnTypes(columns: seq<Column>): map<string, string> {
    TypesOf(Sort(columns, ColumnLe))
  }

  function BuildTable(m: Model): Table {
    Table(m.name, ColumnTypes(m.columns),
          Sort(Select(m.indexes, Named, NameOf), StringLe),
          Sort(Select(m.constraints, IsUnique, SortedColumns), StringsLe),
          Sort(m.foreignKeys, StringsLe))
  }

  function BuildSnapshot(models: seq<Model>): Snapshot {
    Sort(Map(models, BuildTable), TableLe)
  }

  // --- the columns ---

  /** The type of the last declared column with this name. */
  function LastType(columns: seq<Column>, name: string): Option<string> {
    if columns == [] then None
    else
      var later := LastType(columns[1..], name);
      if later.Some? then later
      else if columns[0].name == name then Some(columns[0].columnType) else None
  }

  lemma {:induction false} LastTypeSnoc(columns: seq<Column>, c: Column, name: string)
    ensures LastType(columns + [c], name) == if c.name == name then Some(c.columnType) else LastType(columns, name)
  {
    if columns == [] {
      assert columns + [c] == [c];
    } else {
      assert (columns + [c])[1..] == columns[1..] + [c];
      LastTypeSnoc(columns[1..], c, name);
    }
  }

  function TypeOf(types: map<string, string>, name: string): Option<string> {
    if name in types then Some(types[name]) else None
  }

  lemma {:induction false} TypesAreLast(columns: seq<Column>, name: string)
    ensures TypeOf(TypesOf(columns), name) == LastType(columns, name)
    decreases |columns|
  {
    if columns != [] {
      var init := columns[..|columns| - 1];
      TypesAreLast(init, name);
      LastTypeSnoc(init, columns[|columns| - 1], name);
      assert columns == init + [columns[|columns| - 1]];
    }
  }

  lemma {:induction false} InsertKeepsLast(c: Column, columns: seq<Column>, name: string)
    ensures LastType(Insert(c, columns, ColumnLe), name) == LastType([c] + columns, name)
  {
    if columns != [] && !ColumnLe(c, columns[0]) {
      StringOrder();
      assert c.name != columns[0].name;
      InsertKeepsLast(c, columns[1..], name);
      var inserted := Insert(c, columns[1..], ColumnLe);
      assert ([columns[0]] + inserted)[1..] == inserted;
      assert ([c] + columns)[1..] == columns && ([c] + columns[1..])[1..] == columns[1..];
    }
  }

  lemma {:induction false} SortKeepsLast(columns: seq<Column>, name: string)
    ensures LastType(Sort(columns, ColumnLe), name) == LastType(columns, name)
  {
    if columns != [] {
      SortKeepsLast(columns[1..], name);
      var sorted := Sort(columns[1..], ColumnLe);
      InsertKeepsLast(columns[0], sorted, name);
      assert ([columns[0]] + sorted)[1..] == sorted;
    }
  }

  /** A column's type in the snapshot is that of the last declared column with its name, in the
      order of declaration: sorting by name is stable. */
  lemma {:induction false} LastColumnWins(columns: seq<Column>, name: string)
    ensures TypeOf(ColumnTypes(columns), name) == LastType(columns, name)
  {
    TypesAreLast(Sort(columns, ColumnLe), name);
    SortKeepsLast(columns, name);
  }

  /** Columns with one name have one type. */
  ghost predicate OneTypePerName(columns: seq<Column>) {
    forall x, y | x in columns && y in columns && x.name == y.name :: x == y
  }

  ghost predicate AnyOrder(columns: seq<Column>) {
    forall other: seq<Column> | multiset(other) == multiset(columns) :: ColumnTypes(other) == ColumnTypes(columns)
  }

  lemma {:induction false} KeyOrders()
    ensures Total(ColumnLe) && Transitive(ColumnLe)
    ensures Total(TableLe) && Transitive(TableLe)
    ensures forall x: Column, y: Column :: ColumnLe(x, y) && ColumnLe(y, x) ==> x.name == y.name
    ensures forall x: Table, y: Table :: TableLe(x, y) && TableLe(y, x) ==> x.name == y.name
  {
    hide StringLe;
    StringOrder();
  }

  /** Sorting by keys that tell the elements apart forgets the arrangement. */
  lemma {:induction false} SortByKey<T(!new)>(a: seq<T>, b: seq<T>, le: Order<T>)
    requires Total(le) && Transitive(le) && Separates(le, a) && multiset(a) == multiset(b)
    ensures Sort(a, le) == Sort(b, le)
  {
    hide Sort, Sorted, Total, Transitive;
    SortSorts(a, le);
    SortSorts(b, le);
    assert forall x :: x in Sort(a, le) <==> x in multiset(Sort(a, le));
    assert forall x :: x in a <==> x in multiset(a);
    SortedUnique(Sort(a, le), Sort(b, le), le);
  }

  lemma {:induction false} ColumnsCanonical(a: seq<Column>, b: seq<Column>)
    requires OneTypePerName(a) && multiset(a) == multiset(b)
    ensures ColumnTypes(a) == ColumnTypes(b)
  {
    hide Sort, ColumnLe, TypesOf;
    KeyOrders();
    SortByKey(a, b, ColumnLe);
  }

  lemma {:induction false} MovedLast(columns: seq<Column>, c: Column) returns (moved: seq<Column>)
    requires c in columns
    ensures multiset(moved) == multiset(columns)
    ensures TypeOf(ColumnTypes(moved), c.name) == Some(c.columnType)
  {
    var i :| 0 <= i < |columns| && columns[i] == c;
    var rest := columns[..i] + columns[i + 1..];
    moved := rest + [c];
    assert columns == columns[..i] + [c] + columns[i + 1..];
    LastColumnWins(moved, c.name);
    LastTypeSnoc(rest, c, c.name);
  }

  /** The columns of the snapshot are the same for every order of declaration exactly when columns
      with one name have one type. */
  lemma {:induction false} AnyOrderIff(columns: seq<Column>)
    ensures AnyOrder(columns) <==> OneTypePerName(columns)
  {
    if OneTypePerName(columns) {
      forall other: seq<Column> | multiset(other) == multiset(columns)
        ensures ColumnTypes(other) == ColumnTypes(columns)
      {
        ColumnsCanonical(columns, other);
      }
    } else {
      var x, y :| x in columns && y in columns && x.name == y.name && x != y;
      var xLast := MovedLast(columns, x);
      var yLast := MovedLast(columns, y);
      assert ColumnTypes(xLast) != ColumnTypes(yLast);
    }
  }

  // --- order does not matter ---

  /** What a constraint or table declares, whatever the order. */
  datatype ConstraintContent = ConstraintContent(unique: bool, columns: multiset<string>)

  datatype Content = Content(
    name: string, columns: multiset<Column>, indexes: multiset<Option<string>>,
    constraints: multiset<ConstraintContent>, foreignKeys: multiset<seq<string>>)

  function OfConstraint(c: Constraint): ConstraintContent {
    ConstraintContent(c.unique, multiset(c.columns))
  }

  function ContentOf(m: Model): Content {
    Content(m.name, multiset(m.columns), multiset(m.indexes),
            multiset(Map(m.constraints, OfConstraint)), multiset(m.foreignKeys))
  }

  /** What is selected and computed depends on `content` alone. */
  ghost predicate Respects<T(!new), C(!new), U(!new)>(content: T -> C, p: T -> bool, f: T -> U) {
    forall x, y | content(x) == content(y) :: p(x) == p(y) && f(x) == f(y)
  }

  lemma {:induction false} SelectConcat<T, U>(s: seq<T>, t: seq<T>, p: T -> bool, f: T -> U)
    ensures Select(s + t, p, f) == Select(s, p, f) + Select(t, p, f)
  {
    if s == [] {
      assert s + t == t;
    } else {
      assert (s + t)[1..] == s[1..] + t;
      SelectConcat(s[1..], t, p, f);
      Assoc(if p(s[0]) then [f(s[0])] else [], Select(s[1..], p, f), Select(t, p, f));
    }
  }

  lemma {:induction false} SelectWithout<T, U>(s: seq<T>, j: nat, p: T -> bool, f: T -> U)
    requires j < |s|
    ensures multiset(Select(s, p, f)) ==
            multiset(Select(s[..j] + s[j + 1..], p, f)) + (if p(s[j]) then multiset{f(s[j])} else multiset{})
  {
    assert s == s[..j] + ([s[j]] + s[j + 1..]);
    SelectConcat(s[..j], [s[j]] + s[j + 1..], p, f);
    SelectConcat(s[..j], s[j + 1..], p, f);
  }

  lemma {:induction false} MapWithout<T, U>(s: seq<T>, j: nat, f: T -> U)
    requires j < |s|
    ensures multiset(Map(s, f)) == multiset(Map(s[..j] + s[j + 1..], f)) + multiset{f(s[j])}
  {
    assert s == s[..j] + ([s[j]] + s[j + 1..]);
    MapConcat(s[..j], [s[j]] + s[j + 1..], f);
    MapConcat(s[..j], s[j + 1..], f);
    assert Map([s[j]] + s[j + 1..], f) == [f(s[j])] + Map(s[j + 1..], f);
  }

  function Without<T>(s: seq<T>, j: nat): seq<T>
    requires j < |s|
  {
    s[..j] + s[j + 1..]
  }

  lemma {:induction false} MapRemoved<T, U>(s: seq<T>, j: nat, f: T -> U)
    requires j < |s|
    ensures f(s[j]) in multiset(Map(s, f))
    ensures multiset(Map(Without(s, j), f)) == multiset(Map(s, f)) - multiset{f(s[j])}
    ensures multiset(Map(s, f)) == multiset(Map(Without(s, j), f)) + multiset{f(s[j])}
  {
    MapWithout(s, j, f);
  }

  lemma {:induction false} FindImage<T, U>(s: seq<T>, f: T -> U, u: U) returns (j: nat)
    requires u in multiset(Map(s, f))
    ensures j < |s| && f(s[j]) == u
  {
    assert u in Map(s, f);
    j :| 0 <= j < |s| && Map(s, f)[j] == u;
  }

  /** Of two lists with the same contents, the element of the one that matches the other's first. */
  lemma {:induction false} Counterpart<T, C>(a: seq<T>, b: seq<T>, content: T -> C) returns (j: nat)
    requires a != [] && multiset(Map(a, content)) == multiset(Map(b, content))
    ensures j < |b| && content(b[j]) == content(a[0])
    ensures multiset(Map(a[1..], content)) == multiset(Map(Without(b, j), content))
  {
    assert Without(a, 0) == a[1..];
    hide Map, Without;
    MapRemoved(a, 0, content);
    j := FindImage(b, content, content(a[0]));
    MapRemoved(b, j, content);
  }

  /** Lists with the same contents in any order select the same, in some order. */
  lemma {:induction false} SelectRespects<T(!new), C(!new), U(!new)>(
    a: seq<T>, b: seq<T>, content: T -> C, p: T -> bool, f: T -> U)
    requires Respects(content, p, f) && multiset(Map(a, content)) == multiset(Map(b, content))
    ensures multiset(Select(a, p, f)) == multiset(Select(b, p, f))
    decreases |a|
  {
    if a == [] {
      SameSize(Map(a, content), Map(b, content));
    } else {
      var j := Counterpart(a, b, content);
      SelectRespects(a[1..], Without(b, j), content, p, f);
      SelectWithout(b, j, p, f);
      assert p(a[0]) == p(b[j]) && f(a[0]) == f(b[j]);
    }
  }

  function Whole<T>(x: T): T { x }

  lemma {:induction false} MapWhole<T>(s: seq<T>)
    ensures Map(s, Whole) == s
  {
  }

  lemma {:induction false} ConstraintsRespected()
    ensures Respects(OfConstraint, IsUnique, SortedColumns)
  {
    StringOrder();
    forall x, y | OfConstraint(x) == OfConstraint(y)
      ensures IsUnique(x) == IsUnique(y) && SortedColumns(x) == SortedColumns(y)
    {
      SortCanonical(x.columns, y.columns, StringLe);
    }
  }

  /** The same table declared in any order has the same snapshot. */
  lemma {:induction false} TableCanonical(a: Model, b: Model)
    requires OneTypePerName(a.columns) && ContentOf(a) == ContentOf(b)
    ensures BuildTable(a) == BuildTable(b)
  {
    hide Sort, StringLe, StringsLe, ColumnTypes;
    StringOrder();
    StringsOrder();
    ColumnsCanonical(a.columns, b.columns);
    MapWhole(a.indexes);
    MapWhole(b.indexes);
    SelectRespects(a.indexes, b.indexes, Whole, Named, NameOf);
    SortCanonical(Select(a.indexes, Named, NameOf), Select(b.indexes, Named, NameOf), StringLe);
    ConstraintsRespected();
    SelectRespects(a.constraints, b.constraints, OfConstraint, IsUnique, SortedColumns);
    SortCanonical(Select(a.constraints, IsUnique, SortedColumns), Select(b.constraints, IsUnique, SortedColumns),
      StringsLe);
    SortCanonical(a.foreignKeys, b.foreignKeys, StringsLe);
  }

  // --- whole snapshots ---

  ghost predicate OneTypeEach(models: seq<Model>) {
    forall i | 0 <= i < |models| :: OneTypePerName(models[i].columns)
  }

  /** The same tables, themselves and all they declare in any order. */
  ghost predicate SameDeclarations(a: seq<Model>, b: seq<Model>) {
    multiset(Map(a, ContentOf)) == multiset(Map(b, ContentOf))
  }

  lemma {:induction false} WithoutFirst<T>(s: seq<T>)
    requires s != []
    ensures Without(s, 0) == s[1..]
  {
  }

  lemma {:induction false} OneTypeRest(models: seq<Model>)
    requires models != [] && OneTypeEach(models)
    ensures OneTypePerName(models[0].columns) && OneTypeEach(models[1..])
  {
    hide OneTypePerName;
  }

  lemma {:induction false} TablesRespected(a: seq<Model>, b: seq<Model>)
    requires OneTypeEach(a) && SameDeclarations(a, b)
    ensures multiset(Map(a, BuildTable)) == multiset(Map(b, BuildTable))
    decreases |a|
  {
    hide BuildTable, ContentOf, OneTypePerName, OneTypeEach, Map, Without;
    if a == [] {
      SameSize(Map(a, ContentOf), Map(b, ContentOf));
    } else {
      var j := Counterpart(a, b, ContentOf);
      OneTypeRest(a);
      TablesRespected(a[1..], Without(b, j));
      TableCanonical(a[0], b[j]);
      WithoutFirst(a);
      MapRemoved(a, 0, BuildTable);
      MapRemoved(b, j, BuildTable);
    }
  }

  function NamesIn(s: Snapshot): seq<string> {
    Map(s, (t: Table) => t.name)
  }

  lemma {:induction false} NamesMove(a: Snapshot, b: Snapshot)
    requires multiset(a) == multiset(b)
    ensures multiset(NamesIn(a)) == multiset(NamesIn(b))
    decreases |a|
  {
    if a == [] {
      SameSize(a, b);
    } else {
      MapWhole(a);
      MapWhole(b);
      var j := Counterpart(a, b, Whole);
      MapWhole(a[1..]);
      MapWhole(Without(b, j));
      NamesMove(a[1..], Without(b, j));
      MapWithout(a, 0, (t: Table) => t.name);
      assert a[..0] + a[1..] == a[1..];
      MapWithout(b, j, (t: Table) => t.name);
    }
  }

  /** Validity is a matter of which tables there are, not of their order. */
  lemma {:induction false} ValidMoves(a: Snapshot, b: Snapshot)
    requires multiset(a) == multiset(b) && Valid(a)
    ensures Valid(b)
  {
    hide ValidTable;
    NamesMove(a, b);
    assert Distinct(NamesIn(a));
    DistinctMoves(NamesIn(a), NamesIn(b));
    assert forall i, j | 0 <= i < j < |b| :: NamesIn(b)[i] != NamesIn(b)[j];
    forall i | 0 <= i < |b|
      ensures ValidTable(b[i])
    {
      assert b[i] in multiset(b);
      assert b[i] in a;
    }
  }

  /** Two builds of the same declarations, in any order, are both refused by the diff's validation or
      are one and the same snapshot. */
  lemma {:induction false} SnapshotCanonical(a: seq<Model>, b: seq<Model>)
    requires OneTypeEach(a) && SameDeclarations(a, b)
    ensures Valid(BuildSnapshot(a)) <==> Valid(BuildSnapshot(b))
    ensures Valid(BuildSnapshot(a)) ==> BuildSnapshot(a) == BuildSnapshot(b)
  {
    hide BuildTable, ContentOf, Sort, TableLe, Valid;
    var s, t := Map(a, BuildTable), Map(b, BuildTable);
    KeyOrders();
    TablesRespected(a, b);
    SortSorts(s, TableLe);
    SortSorts(t, TableLe);
    if Valid(BuildSnapshot(a)) {
      ValidMoves(BuildSnapshot(a), BuildSnapshot(b));
      ValidMoves(BuildSnapshot(a), s);
      NamesSeparate(s);
      SortByKey(s, t, TableLe);
    }
    if Valid(BuildSnapshot(b)) {
      ValidMoves(BuildSnapshot(b), BuildSnapshot(a));
    }
  }

  lemma {:induction false} NamesSeparate(s: Snapshot)
    requires Valid(s)
    ensures Separates(TableLe, s)
  {
    hide ValidTable, TableLe;
    KeyOrders();
    forall x, y | x in s && y in s && TableLe(x, y) && TableLe(y, x)
      ensures x == y
    {
      var i :| 0 <= i < |s| && s[i] == x;
      var j :| 0 <= j < |s| && s[j] == y;
    }
  }

  /** So snapshots of the same declarations never differ: the diff's exit code is 0, or 2 for both
      when they are not valid. */
  lemma {:induction false} RebuildNeverDiffers(a: seq<Model>, b: seq<Model>)
    requires OneTypeEach(a) && SameDeclarations(a, b) && Valid(BuildSnapshot(a))
    ensures Valid(BuildSnapshot(b))
    ensures DiffKeys(ByName(BuildSnapshot(a)), ByName(BuildSnapshot(b))) == {}
  {
    hide BuildSnapshot, Valid, ByName, DiffKeys, Labels;
    SnapshotCanonical(a, b);
    NoDifference(ByName(BuildSnapshot(a)), ByName(BuildSnapshot(b)));
  }

  // --- what a built table holds ---

  lemma {:induction false} IndexesHeld(indexes: seq<Option<string>>, n: string)
    ensures multiset(Select(indexes, Named, NameOf))[n] == if n == "" then 0 else multiset(indexes)[Some(n)]
  {
    if indexes != [] {
      var rest := indexes[1..];
      IndexesHeld(rest, n);
      assert indexes == [indexes[0]] + rest;
      assert multiset(indexes) == multiset{indexes[0]} + multiset(rest);
    }
  }

  function Columns(u: seq<string>): multiset<string> {
    multiset(u)
  }

  lemma {:induction false} SortedColumnsAre(c: Constraint)
    ensures Columns(SortedColumns(c)) == multiset(c.columns) && Sorted(SortedColumns(c), StringLe)
  {
    StringOrder();
    hide StringLe, Sort;
    SortSorts(c.columns, StringLe);
  }

  lemma {:induction false} UniquesHeld(constraints: seq<Constraint>, columns: multiset<string>)
    ensures multiset(Map(Select(constraints, IsUnique, SortedColumns), Columns))[columns] ==
            multiset(Map(constraints, OfConstraint))[ConstraintContent(true, columns)]
  {
    hide Map, SortedColumns, Columns;
    if constraints == [] {
      NoneSelected(constraints);
    } else {
      var c, rest := constraints[0], constraints[1..];
      UniquesHeld(rest, columns);
      SortedColumnsAre(c);
      ImageCons(c, rest, OfConstraint);
      assert [c] + rest == constraints;
      ImageCons(SortedColumns(c), Select(rest, IsUnique, SortedColumns), Columns);
      assert c.unique ==> Select(constraints, IsUnique, SortedColumns) ==
                          [SortedColumns(c)] + Select(rest, IsUnique, SortedColumns);
      assert !c.unique ==> Select(constraints, IsUnique, SortedColumns) == Select(rest, IsUnique, SortedColumns);
      hide Select;
    }
  }

  lemma {:induction false} NoneSelected(constraints: seq<Constraint>)
    requires constraints == []
    ensures Map(Select(constraints, IsUnique, SortedColumns), Columns) == [] && Map(constraints, OfConstraint) == []
  {
  }

  lemma {:induction false} UniquesSorted(constraints: seq<Constraint>)
    ensures forall u <- Select(constraints, IsUnique, SortedColumns) :: Sorted(u, StringLe)
  {
    hide Sorted, SortedColumns;
    Selected(constraints, IsUnique, SortedColumns);
    forall c: Constraint
      ensures Sorted(SortedColumns(c), StringLe)
    {
      SortedColumnsAre(c);
    }
  }

  lemma {:induction false} SameImages(a: seq<seq<string>>, b: seq<seq<string>>)
    requires multiset(a) == multiset(b)
    ensures multiset(Map(a, Columns)) == multiset(Map(b, Columns))
    decreases |a|
  {
    if a == [] {
      SameSize(a, b);
    } else {
      MapWhole(a);
      MapWhole(b);
      var j := Counterpart(a, b, Whole);
      MapWhole(a[1..]);
      MapWhole(Without(b, j));
      SameImages(a[1..], Without(b, j));
      WithoutFirst(a);
      MapRemoved(a, 0, Columns);
      MapRemoved(b, j, Columns);
    }
  }

  /** A built table holds just what the model declares: its name, every index that has a name, the
      columns of its unique constraints and of no other, and its foreign keys, as often as they are
      declared, each list in order. */
  lemma {:induction false} BuiltTableHolds(m: Model)
    ensures var t := BuildTable(m);
            && t.name == m.name
            && Sorted(t.indexes, StringLe) && Sorted(t.uniques, StringsLe) && Sorted(t.foreignKeys, StringsLe)
            && (forall n :: multiset(t.indexes)[n] == if n == "" then 0 else multiset(m.indexes)[Some(n)])
            && (forall columns :: multiset(Map(t.uniques, Columns))[columns] ==
                                  multiset(Map(m.constraints, OfConstraint))[ConstraintContent(true, columns)])
            && multiset(t.foreignKeys) == multiset(m.foreignKeys)
    ensures forall u <- BuildTable(m).uniques :: Sorted(u, StringLe)
  {
    hide Sort, StringLe, StringsLe, ColumnTypes;
    StringOrder();
    StringsOrder();
    var uniques := Select(m.constraints, IsUnique, SortedColumns);
    SortSorts(Select(m.indexes, Named, NameOf), StringLe);
    SortSorts(uniques, StringsLe);
    SortSorts(m.foreignKeys, StringsLe);
    SameImages(Sort(uniques, StringsLe), uniques);
    forall n
      ensures multiset(Select(m.indexes, Named, NameOf))[n] == if n == "" then 0 else multiset(m.indexes)[Some(n)]
    {
      IndexesHeld(m.indexes, n);
    }
    forall columns
      ensures multiset(Map(uniques, Columns))[columns] ==
              multiset(Map(m.constraints, OfConstraint))[ConstraintContent(true, columns)]
    {
      UniquesHeld(m.constraints, columns);
    }
    UniquesSorted(m.constraints);
    hide Select, Map, Sorted;
    forall u | u in Sort(uniques, StringsLe)
      ensures u in uniques
    {
      assert u in multiset(Sort(uniques, StringsLe));
    }
  }

  /** A built snapshot holds the built tables, in the order of their names. */
  lemma {:induction false} BuiltSnapshotHolds(models: seq<Model>)
    ensures multiset(BuildSnapshot(models)) == multiset(Map(models, BuildTable))
    ensures forall i, j | 0 <= i < j < |models| ::
              |BuildSnapshot(models)| == |models| &&
              StringLe(BuildSnapshot(models)[i].name, BuildSnapshot(models)[j].name)
  {
    hide BuildTable, Sort, StringLe, Map;
    KeyOrders();
    SortSorts(Map(models, BuildTable), TableLe);
    SameSize(BuildSnapshot(models), Map(models, BuildTable));
    forall i, j | 0 <= i < j < |models|
      ensures StringLe(BuildSnapshot(models)[i].name, BuildSnapshot(models)[j].name)
    {
      StringOrder();
      TablesInOrder(BuildSnapshot(models), i, j);
    }
  }

  lemma {:induction false} TablesInOrder(s: Snapshot, i: nat, j: nat)
    requires Sorted(s, TableLe) && i < j < |s|
    ensures StringLe(s[i].name, s[j].name)
    decreases |s|
  {
    hide StringLe;
    KeyOrders();
    if i == 0 {
      assert s[j] in s;
      SortedHead(s, TableLe, s[j]);
      StringOrder();
    } else {
      TablesInOrder(s[1..], i - 1, j - 1);
    }
  }

  // --- which declarations pass ---

  /** The columns of the unique constraints, whatever their order. */
  ghost function UniqueSets(m: Model): seq<multiset<string>> {
    Select(m.constraints, IsUnique, (c: Constraint) => multiset(c.columns))
  }

  ghost predicate Passes(m: Model) {
    && m.name != ""
    && Distinct(Select(m.indexes, Named, NameOf))
    && (forall c | c in m.constraints && c.unique :: Distinct(c.columns))
    && Distinct(UniqueSets(m))
    && Distinct(m.foreignKeys)
  }

  lemma {:induction false} DistinctSort<T(!new)>(s: seq<T>, le: Order<T>)
    requires Total(le)
    ensures Distinct(Sort(s, le)) <==> Distinct(s)
  {
    hide Sort, Distinct;
    SortSorts(s, le);
    if Distinct(s) {
      DistinctMoves(s, Sort(s, le));
    }
    if Distinct(Sort(s, le)) {
      DistinctMoves(Sort(s, le), s);
    }
  }

  lemma {:induction false} Selected<T, U>(s: seq<T>, p: T -> bool, f: T -> U)
    ensures forall u :: u in Select(s, p, f) <==> exists x | x in s :: p(x) && f(x) == u
  {
    if s != [] {
      Selected(s[1..], p, f);
      assert forall x :: x in s <==> x == s[0] || x in s[1..];
    }
  }

  lemma {:induction false} DistinctImages(s: seq<Constraint>)
    ensures Distinct(Select(s, IsUnique, SortedColumns)) <==>
            Distinct(Select(s, IsUnique, (c: Constraint) => multiset(c.columns)))
  {
    hide Sort, StringLe;
    var sets := (c: Constraint) => multiset(c.columns);
    if s != [] {
      DistinctImages(s[1..]);
      Selected(s[1..], IsUnique, SortedColumns);
      Selected(s[1..], IsUnique, sets);
      StringOrder();
      forall c
        ensures SortedColumns(c) == SortedColumns(s[0]) <==> sets(c) == sets(s[0])
      {
        SortSorts(c.columns, StringLe);
        SortSorts(s[0].columns, StringLe);
        if sets(c) == sets(s[0]) {
          SortCanonical(c.columns, s[0].columns, StringLe);
        }
      }
      if s[0].unique {
        DistinctCons(SortedColumns(s[0]), Select(s[1..], IsUnique, SortedColumns));
        DistinctCons(sets(s[0]), Select(s[1..], IsUnique, sets));
      } else {
        assert Select(s, IsUnique, SortedColumns) == Select(s[1..], IsUnique, SortedColumns);
        assert Select(s, IsUnique, sets) == Select(s[1..], IsUnique, sets);
      }
    }
  }

  lemma {:induction false} UniquesPass(m: Model)
    ensures (forall u | u in Select(m.constraints, IsUnique, SortedColumns) :: Distinct(u)) <==>
            (forall c | c in m.constraints && c.unique :: Distinct(c.columns))
  {
    hide Sort, StringLe, Distinct;
    Selected(m.constraints, IsUnique, SortedColumns);
    StringOrder();
    forall c: Constraint
      ensures Distinct(SortedColumns(c)) <==> Distinct(c.columns)
    {
      DistinctSort(c.columns, StringLe);
    }
  }

  lemma {:induction false} EveryElement<T(!new)>(s: seq<seq<T>>)
    ensures (forall i | 0 <= i < |s| :: Distinct(s[i])) <==> forall u | u in s :: Distinct(u)
  {
  }

  /** A built table passes the diff's validation exactly when its model has a name, repeats no index
      name, no foreign key and no column in a unique constraint, and has no two unique constraints
      over the same columns, in whatever order. */
  lemma {:induction false} BuiltTableValidIff(m: Model)
    ensures ValidTable(BuildTable(m)) <==> Passes(m)
  {
    hide Sort, StringLe, StringsLe, Distinct, ColumnTypes;
    StringOrder();
    StringsOrder();
    DistinctSort(Select(m.indexes, Named, NameOf), StringLe);
    var uniques := Select(m.constraints, IsUnique, SortedColumns);
    DistinctSort(uniques, StringsLe);
    DistinctImages(m.constraints);
    UniquesPass(m);
    DistinctSort(m.foreignKeys, StringsLe);
    SortSorts(uniques, StringsLe);
    EveryElement(Sort(uniques, StringsLe));
    assert forall u :: u in uniques <==> u in multiset(uniques);
    assert forall u :: u in Sort(uniques, StringsLe) <==> u in multiset(Sort(uniques, StringsLe));
  }

  lemma {:induction false} ValidIffMoved(a: Snapshot, b: Snapshot)
    requires multiset(a) == multiset(b)
    ensures Valid(a) <==> Valid(b)
  {
    hide Valid;
    if Valid(a) {
      ValidMoves(a, b);
    }
    if Valid(b) {
      ValidMoves(b, a);
    }
  }

  lemma {:induction false} BuiltTable(models: seq<Model>, i: nat)
    requires i < |models|
    ensures i < |Map(models, BuildTable)| && Map(models, BuildTable)[i].name == models[i].name
    ensures ValidTable(Map(models, BuildTable)[i]) <==> Passes(models[i])
  {
    BuiltTableValidIff(models[i]);
    hide ValidTable, Passes;
  }

  lemma {:induction false} BuiltTablesValidIff(models: seq<Model>)
    ensures Valid(Map(models, BuildTable)) <==>
            && (forall i | 0 <= i < |models| :: Passes(models[i]))
            && (forall i, j | 0 <= i < j < |models| :: models[i].name != models[j].name)
  {
    var tables := Map(models, BuildTable);
    forall i | 0 <= i < |models|
      ensures tables[i].name == models[i].name && (ValidTable(tables[i]) <==> Passes(models[i]))
    {
      BuiltTable(models, i);
    }
    hide Map, Passes, ValidTable, BuildTable;
  }

  /** A built snapshot is valid exactly when every model passes and no two have one name. */
  lemma {:induction false} BuiltSnapshotValidIff(models: seq<Model>)
    ensures Valid(BuildSnapshot(models)) <==>
            && (forall i | 0 <= i < |models| :: Passes(models[i]))
            && (forall i, j | 0 <= i < j < |models| :: models[i].name != models[j].name)
  {
    hide BuildTable, Map, Passes, Sort, TableLe, Valid;
    KeyOrders();
    SortSorts(Map(models, BuildTable), TableLe);
    ValidIffMoved(Map(models, BuildTable), BuildSnapshot(models));
    BuiltTablesValidIff(models);
  }
}
