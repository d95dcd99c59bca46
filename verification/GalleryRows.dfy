/** What a reload and the seeders make of each row, field by field and by the names there are. */
module GalleryRows {
  import opened GalleryRuns
  import opened Seqs
  import opened TemplateGallery
  import opened Wrappers

  // --- which row stands for a name, which template ---

  /** Of the built-in rows with its name, in the order in which they were read, this is the last. */
  ghost predicate LastOfName(order: seq<string>, rows: Rows, id: string) {
    id in rows && exists i | 0 <= i < |order| :: order[i] == id && NotLater(order, rows, i, rows[id].name)
  }

  predicate NotLater(order: seq<string>, rows: Rows, i: nat, name: string) {
    forall j | i < j < |order| :: order[j] in rows ==> rows[order[j]].name != name
  }

  /** The first template with this name. */
  predicate FirstAt(templates: seq<Template>, name: string, i: nat) {
    i < |templates| && templates[i].name == name && forall j | 0 <= j < i :: templates[j].name != name
  }

  lemma {:induction false} IndexIs(order: seq<string>, rows: Rows, name: string)
    requires forall id <- order :: id in rows
    ensures name in IndexOf(order, rows) <==> exists i | 0 <= i < |order| :: rows[order[i]].name == name
    ensures name in IndexOf(order, rows) ==>
              exists i | 0 <= i < |order| ::
                && IndexOf(order, rows)[name] == order[i] && rows[order[i]].name == name
                && NotLater(order, rows, i, name)
    decreases |order|
  {
    if order != [] {
      var init, last := order[..|order| - 1], order[|order| - 1];
      assert order == init + [last] && last in order && forall id | id in init :: id in order;
      assert forall i | 0 <= i < |init| :: init[i] == order[i];
      IndexIs(init, rows, name);
      if rows[last].name == name {
        assert NotLater(order, rows, |order| - 1, name);
      } else if name in IndexOf(init, rows) {
        var i :| 0 <= i < |init| && IndexOf(init, rows)[name] == init[i] && rows[init[i]].name == name &&
          NotLater(init, rows, i, name);
        assert NotLater(order, rows, i, name);
      }
    }
  }

  lemma {:induction false} StandsIff(order: seq<string>, rows: Rows, id: string)
    requires ListsBuiltins(order, rows)
    ensures Stands(IndexOf(order, rows), rows, id) <==> LastOfName(order, rows, id)
  {
    assert forall x | x in order :: Builtin(rows, x);
    if id in rows {
      var name := rows[id].name;
      IndexIs(order, rows, name);
      if LastOfName(order, rows, id) {
        var i :| 0 <= i < |order| && order[i] == id && NotLater(order, rows, i, name);
        var k :| 0 <= k < |order| && IndexOf(order, rows)[name] == order[k] && rows[order[k]].name == name &&
          NotLater(order, rows, k, name);
        assert i == k by {
          assert order[i] in rows && order[k] in rows;
        }
      }
    }
  }

  lemma {:induction false} FirstIs(templates: seq<Template>, name: string) returns (i: nat)
    requires HasName(templates, name)
    ensures FirstAt(templates, name, i) && First(templates, name) == templates[i].synced
  {
    if templates[0].name == name {
      i := 0;
    } else {
      var k :| 0 <= k < |templates| && templates[k].name == name;
      assert templates[1..][k - 1] == templates[k];
      var rest := FirstIs(templates[1..], name);
      i := rest + 1;
      assert forall j | 1 <= j < i :: templates[j] == templates[1..][j - 1];
    }
  }

  // --- a reload, row by row ---

  /** A row that was there: the one that stands for its name gets the fields of the first template
      with that name, and keeps the others, or goes if there is none; any other row stays as it is. */
  lemma {:induction false} OldRow(
      was: Rows, now: Rows, order: seq<string>, templates: seq<Template>, newIds: seq<string>, id: string)
    requires ListsBuiltins(order, was) && Fresh(newIds, was, |templates|)
    requires Reloaded(was, now, IndexOf(order, was), templates, newIds) && id in was
    ensures !LastOfName(order, was, id) ==> id in now && now[id] == was[id]
    ensures LastOfName(order, was, id) ==>
              (id in now <==> exists i | 0 <= i < |templates| :: templates[i].name == was[id].name)
    ensures forall i: nat | LastOfName(order, was, id) && FirstAt(templates, was[id].name, i) ::
              && id in now
              && now[id] == Row(was[id].name, was[id].builtin, was[id].isPublic, was[id].owner,
                                templates[i].synced, was[id].usage)
  {
    StandsIff(order, was, id);
    hide LastOfName, IndexOf, Added, First;
    var name := was[id].name;
    if HasName(templates, name) {
      var k := FirstIs(templates, name);
      forall i: nat | FirstAt(templates, name, i)
        ensures i == k
      {
      }
    }
  }

  /** No built-in row had the name of the i-th template, or an earlier template has it as well. */
  ghost predicate FindsNoRow(was: Rows, templates: seq<Template>, i: nat)
    requires i < |templates|
  {
    || (forall id | id in was && was[id].builtin :: was[id].name != templates[i].name)
    || exists j | 0 <= j < i :: templates[j].name == templates[i].name
  }

  lemma {:induction false} InsertsIff(was: Rows, order: seq<string>, templates: seq<Template>, i: nat)
    requires ListsBuiltins(order, was) && i < |templates|
    ensures Inserts(IndexOf(order, was), templates, i) <==> FindsNoRow(was, templates, i)
  {
    IndexIndexes(order, was);
    hide IndexOf;
    var name := templates[i].name;
    assert HasName(templates[..i], name) <==> exists j | 0 <= j < i :: templates[j].name == name by {
      assert forall j | 0 <= j < i :: templates[..i][j] == templates[j];
    }
    assert name in IndexOf(order, was) <==> exists id :: Builtin(was, id) && was[id].name == name;
  }

  /** A template that finds no row gets one: built in, public, owned by user 1, unused; and only such
      templates add rows. */
  lemma {:induction false} AddedRow(
      was: Rows, now: Rows, order: seq<string>, templates: seq<Template>, newIds: seq<string>, i: nat)
    requires ListsBuiltins(order, was) && Fresh(newIds, was, |templates|)
    requires Reloaded(was, now, IndexOf(order, was), templates, newIds) && i < |templates|
    ensures newIds[i] !in was && (newIds[i] in now <==> FindsNoRow(was, templates, i))
    ensures newIds[i] in now ==>
              now[newIds[i]] == Row(templates[i].name, true, true, 1, templates[i].synced, 0)
    ensures forall id | id in now && id !in was :: exists k | 0 <= k < |templates| :: id == newIds[k]
  {
    InsertsIff(was, order, templates, i);
    hide IndexOf, Inserts, FindsNoRow, HasName, First;
    if newIds[i] in now {
      var k := Newcomer(was, now, IndexOf(order, was), templates, newIds, newIds[i]);
      assert k == i;
    }
    forall id | id in now && id !in was
      ensures exists k | 0 <= k < |templates| :: id == newIds[k]
    {
      var k := Newcomer(was, now, IndexOf(order, was), templates, newIds, id);
    }
  }

  /** Those of the first `n` templates that find no row. */
  ghost function Finding(was: Rows, templates: seq<Template>, n: nat): set<nat>
    requires n <= |templates|
  {
    set i: nat | i < n && FindsNoRow(was, templates, i)
  }

  lemma {:induction false} FindingNext(was: Rows, templates: seq<Template>, n: nat)
    requires n < |templates|
    ensures n !in Finding(was, templates, n)
    ensures Finding(was, templates, n + 1) ==
            Finding(was, templates, n) + if FindsNoRow(was, templates, n) then {n} else {}
  {
    hide FindsNoRow;
  }

  /** The rows inserted are those of the templates that find none, each counted once. */
  lemma {:induction false} InsertedIs(was: Rows, order: seq<string>, templates: seq<Template>, n: nat)
    requires ListsBuiltins(order, was) && n <= |templates|
    ensures InsertCount(IndexOf(order, was), templates, n) == |Finding(was, templates, n)|
  {
    hide IndexOf, Inserts, Finding, FindsNoRow, ListsBuiltins;
    if n > 0 {
      InsertedIs(was, order, templates, n - 1);
      InsertsIff(was, order, templates, n - 1);
      FindingNext(was, templates, n - 1);
    } else {
      NoneFinding(was, templates);
    }
  }

  lemma {:induction false} NoneFinding(was: Rows, templates: seq<Template>)
    ensures Finding(was, templates, 0) == {}
  {
  }

  // --- the seeders, row by row ---

  lemma {:induction false} GrownAt(
      was: Rows, now: Rows, entries: seq<Option<Row>>, newIds: seq<string>, i: nat)
    requires Fresh(newIds, was, |entries|) && Grown(was, now, entries, newIds) && i < |entries|
    ensures newIds[i] !in was && (newIds[i] in now <==> entries[i].Some?)
    ensures entries[i].Some? ==> now[newIds[i]] == entries[i].value
  {
  }

  lemma {:induction false} SeededRow(was: Rows, now: Rows, templates: seq<Template>, newIds: seq<string>, i: nat)
    requires Fresh(newIds, was, |templates|) && Grown(was, now, SeedEntries(templates), newIds) && i < |templates|
    ensures newIds[i] !in was && newIds[i] in now
    ensures now[newIds[i]] == Row(templates[i].name, true, true, 1, templates[i].synced, 0)
  {
    assert SeedEntries(templates)[i] == Some(NewRow(templates[i]));
    GrownAt(was, now, SeedEntries(templates), newIds, i);
  }

  /** No row of the table at the start, built in or not, has this name. */
  predicate NameIsFree(was: Rows, name: string) {
    forall id | id in was :: was[id].name != name
  }

  /** A consulting template gets a row exactly if no row had its name: built in and public as it says,
      owned by the first user, unused. */
  lemma {:induction false} ConsultedRow(
      was: Rows, now: Rows, list: seq<Consulting>, owner: int, newIds: seq<string>, i: nat)
    requires Fresh(newIds, was, |list|) && Grown(was, now, ConsultingEntries(was, list, owner), newIds) && i < |list|
    ensures newIds[i] !in was && (newIds[i] in now <==> NameIsFree(was, list[i].name))
    ensures newIds[i] in now ==>
              now[newIds[i]] == Row(list[i].name, list[i].builtin, list[i].isPublic, owner, list[i].synced, 0)
  {
    EntryIs(was, list, owner, i);
    GrownAt(was, now, ConsultingEntries(was, list, owner), newIds, i);
    assert NameIsFree(was, list[i].name) <==> RowsNamed(was, list[i].name) == {} by {
      FreeIff(was, list[i].name);
    }
  }

  lemma {:induction false} FreeIff(was: Rows, name: string)
    ensures NameIsFree(was, name) <==> RowsNamed(was, name) == {}
  {
    if !NameIsFree(was, name) {
      var id :| id in was && was[id].name == name;
      assert id in RowsNamed(was, name);
    }
  }

  /** The consulting seeder gives up exactly if two rows have the name of one of its templates. */
  lemma {:induction false} RaisesIff(was: Rows, list: seq<Consulting>)
    ensures Raises(was, list) <==>
            exists i, a, b | 0 <= i < |list| && a in was && b in was ::
              a != b && was[a].name == list[i].name && was[b].name == list[i].name
  {
    forall i | 0 <= i < |list|
      ensures |RowsNamed(was, list[i].name)| > 1 <==>
              exists a, b | a in was && b in was :: a != b && was[a].name == list[i].name && was[b].name == list[i].name
    {
      TwoNamed(was, list[i].name);
    }
  }

  lemma {:induction false} TwoNamed(was: Rows, name: string)
    ensures |RowsNamed(was, name)| > 1 <==>
            exists a, b | a in was && b in was :: a != b && was[a].name == name && was[b].name == name
  {
    var ids := RowsNamed(was, name);
    if |ids| > 1 {
      var a :| a in ids;
      var rest := ids - {a};
      assert |rest| >= 1;
      var b :| b in rest;
    }
    if a, b :| a in was && b in was && a != b && was[a].name == name && was[b].name == name {
      assert {a, b} <= ids;
      SubsetSize({a, b}, ids);
    }
  }

  lemma {:induction false} SubsetSize<T>(a: set<T>, b: set<T>)
    requires a <= b
    ensures |a| <= |b|
  {
    assert b == a + (b - a);
  }
}
