/** backend/scripts/reload_builtin_templates.py and the two seeders it shares the gallery with,
    seed_templates.py and backend/scripts/seed_consulting_templates.py. */
module TemplateGallery {
  import opened Seqs
  import opened Wrappers

  /** The five fields that a reload brings up to date. */
  datatype Synced = Synced(description: string, category: string, icon: string, priority: string, plan: string)

  datatype Row = Row(name: string, builtin: bool, isPublic: bool, owner: int, synced: Synced, usage: nat)

  /** The table of templates, by id. */
  type Rows = map<string, Row>

  datatype Template = Template(name: string, synced: Synced)

  /** A consulting template says itself whether it is built in and public. */
  datatype Consulting = Consulting(name: string, builtin: bool, isPublic: bool, synced: Synced)

  function NewRow(t: Template): Row {
    Row(t.name, true, true, 1, t.synced, 0)
  }

  function ConsultingRow(c: Consulting, owner: int): Row {
    Row(c.name, c.builtin, c.isPublic, owner, c.synced, 0)
  }

  predicate Builtin(rows: Rows, id: string) {
    id in rows && rows[id].builtin
  }

  predicate Fresh(newIds: seq<string>, rows: Rows, n: nat) {
    |newIds| == n && (forall i | 0 <= i < n :: newIds[i] !in rows) &&
    forall i, j | 0 <= i < j < n :: newIds[i] != newIds[j]
  }

  // --- what the seeders add ---

  /** The rows after adding the entries that are not skipped, each under its own id. */
  ghost predicate Grown(was: Rows, now: Rows, entries: seq<Option<Row>>, newIds: seq<string>)
    requires |newIds| >= |entries|
  {
    && (forall id | id in was :: id in now && now[id] == was[id])
    && (forall i | 0 <= i < |entries| && entries[i].Some? :: newIds[i] in now && now[newIds[i]] == entries[i].value)
    && (forall id | id in now && id !in was :: exists i | 0 <= i < |entries| :: entries[i].Some? && id == newIds[i])
  }

  lemma {:induction false} GrownStep(
      was: Rows, now: Rows, entries: seq<Option<Row>>, newIds: seq<string>, entry: Option<Row>)
    requires |newIds| > |entries| && Fresh(newIds, was, |newIds|) && Grown(was, now, entries, newIds)
    ensures Grown(was, if entry.Some? then now[newIds[|entries|] := entry.value] else now, entries + [entry], newIds)
  {
  }

  ghost predicate GrownUpTo(was: Rows, now: Rows, entries: seq<Option<Row>>, newIds: seq<string>, i: nat) {
    i <= |entries| <= |newIds| && Grown(was, now, entries[..i], newIds)
  }

  lemma {:induction false} GrownStart(was: Rows, entries: seq<Option<Row>>, newIds: seq<string>)
    requires |newIds| == |entries|
    ensures GrownUpTo(was, was, entries, newIds, 0)
  {
    assert entries[..0] == [];
  }

  lemma {:induction false} GrownNext(was: Rows, now: Rows, entries: seq<Option<Row>>, newIds: seq<string>, i: nat)
    requires i < |entries| && Fresh(newIds, was, |entries|) && GrownUpTo(was, now, entries, newIds, i)
    ensures |newIds| == |entries|
    ensures GrownUpTo(was, if entries[i].Some? then now[newIds[i] := entries[i].value] else now, entries, newIds, i + 1)
  {
    assert |newIds| == |entries|;
    hide Grown, Fresh;
    PrefixSnoc(entries, i);
    GrownStep(was, now, entries[..i], newIds, entries[i]);
  }

  lemma {:induction false} GrownEnd(was: Rows, now: Rows, entries: seq<Option<Row>>, newIds: seq<string>)
    requires GrownUpTo(was, now, entries, newIds, |entries|)
    ensures Grown(was, now, entries, newIds)
  {
    assert entries[..|entries|] == entries;
  }

  function SeedEntries(templates: seq<Template>): seq<Option<Row>> {
    Map(templates, (t: Template) => Some(NewRow(t)))
  }

  function RowsNamed(rows: Rows, name: string): set<string> {
    set id | id in rows && rows[id].name == name
  }

  /** What the consulting seeder adds: the table it asks does not show what it has added itself,
      because the session does not flush before queries. */
  function ConsultingEntry(was: Rows, owner: int): Consulting -> Option<Row> {
    (c: Consulting) => if RowsNamed(was, c.name) == {} then Some(ConsultingRow(c, owner)) else None
  }

  function ConsultingEntries(was: Rows, list: seq<Consulting>, owner: int): seq<Option<Row>> {
    Map(list, ConsultingEntry(was, owner))
  }

  /** `scalar_one_or_none` refuses a name that two rows have, and nothing is committed. */
  ghost predicate Raises(was: Rows, list: seq<Consulting>) {
    exists i | 0 <= i < |list| :: |RowsNamed(was, list[i].name)| > 1
  }

  // --- the index of built-in rows ---

  /** The dict of built-in rows by name, from the rows in some order: of two with one name the later
      one stays. */
  function IndexOf(order: seq<string>, rows: Rows): map<string, string> {
    if order == [] then map[]
    else
      var earlier, id := IndexOf(order[..|order| - 1], rows), order[|order| - 1];
      if id in rows then earlier[rows[id].name := id] else earlier
  }

  ghost predicate ListsBuiltins(order: seq<string>, rows: Rows) {
    forall id :: id in order <==> Builtin(rows, id)
  }

  /** Every built-in name leads to one of its rows. */
  ghost predicate Indexes(known: map<string, string>, rows: Rows) {
    && (forall n | n in known :: Builtin(rows, known[n]) && rows[known[n]].name == n)
    && (forall id | Builtin(rows, id) :: rows[id].name in known)
  }

  lemma {:induction false} IndexIndexes(order: seq<string>, rows: Rows)
    requires ListsBuiltins(order, rows)
    ensures Indexes(IndexOf(order, rows), rows)
  {
    forall id | id in order
      ensures Builtin(rows, id)
    {
    }
    IndexedUpTo(order, rows);
  }

  lemma {:induction false} IndexedUpTo(order: seq<string>, rows: Rows)
    requires forall id | id in order :: Builtin(rows, id)
    ensures var known := IndexOf(order, rows);
            && (forall n | n in known :: Builtin(rows, known[n]) && rows[known[n]].name == n)
            && (forall id | id in order :: Builtin(rows, id) && rows[id].name in known)
    decreases |order|
  {
    if order != [] {
      var init, last := order[..|order| - 1], order[|order| - 1];
      assert order == init + [last];
      assert forall id | id in init :: id in order;
      assert last in order;
      IndexedUpTo(init, rows);
    }
  }

  // --- what a reload does ---

  predicate HasName(templates: seq<Template>, name: string) {
    exists i | 0 <= i < |templates| :: templates[i].name == name
  }

  function First(templates: seq<Template>, name: string): Synced
    requires HasName(templates, name)
  {
    if templates[0].name == name then templates[0].synced
    else
      assert HasName(templates[1..], name) by {
        var i :| 0 <= i < |templates| && templates[i].name == name;
        assert templates[1..][i - 1] == templates[i];
      }
      First(templates[1..], name)
  }

  /** The row that stands for its name. */
  predicate Stands(known: map<string, string>, rows: Rows, id: string) {
    id in rows && rows[id].name in known && known[rows[id].name] == id
  }

  /** A template is inserted when its name is not indexed, or has been used up by an earlier one. */
  predicate Inserts(known: map<string, string>, templates: seq<Template>, i: nat)
    requires i < |templates|
  {
    templates[i].name !in known || HasName(templates[..i], templates[i].name)
  }

  function InsertCount(known: map<string, string>, templates: seq<Template>, n: nat): nat
    requires n <= |templates|
  {
    if n == 0 then 0 else InsertCount(known, templates, n - 1) + if Inserts(known, templates, n - 1) then 1 else 0
  }

  function Refreshed(was: Rows, known: map<string, string>, templates: seq<Template>, id: string): Row
    requires id in was
  {
    if Stands(known, was, id) && HasName(templates, was[id].name)
    then was[id].(synced := First(templates, was[id].name)) else was[id]
  }

  /** The rows that were there, before anything is deleted. */
  ghost predicate Kept(was: Rows, now: Rows, known: map<string, string>, templates: seq<Template>) {
    forall id | id in was :: id in now && now[id] == Refreshed(was, known, templates, id)
  }

  /** The rows added are those of the templates that found no row. */
  ghost predicate Added(was: Rows, now: Rows, known: map<string, string>, templates: seq<Template>, newIds: seq<string>)
    requires |newIds| >= |templates|
  {
    AddedThere(now, known, templates, newIds) && AddedOnly(was, now, known, templates, newIds)
  }

  ghost predicate AddedThere(now: Rows, known: map<string, string>, templates: seq<Template>, newIds: seq<string>)
    requires |newIds| >= |templates|
  {
    forall i | 0 <= i < |templates| && Inserts(known, templates, i) ::
      newIds[i] in now && now[newIds[i]] == NewRow(templates[i])
  }

  ghost predicate AddedOnly(
      was: Rows, now: Rows, known: map<string, string>, templates: seq<Template>, newIds: seq<string>)
    requires |newIds| >= |templates|
  {
    forall id | id in now && id !in was :: AddedFor(known, templates, newIds, id)
  }

  /** The id is that of a template that found no row. */
  ghost predicate AddedFor(known: map<string, string>, templates: seq<Template>, newIds: seq<string>, id: string)
    requires |newIds| >= |templates|
  {
    exists i | 0 <= i < |templates| :: Inserts(known, templates, i) && id == newIds[i]
  }

  /** The row of a name that is no longer in the file. */
  predicate Stale(was: Rows, known: map<string, string>, templates: seq<Template>, id: string) {
    Stands(known, was, id) && !HasName(templates, was[id].name)
  }

  /** A reload keeps every old row but the stale ones, with its id, usage count and owner, refreshes
      those that stand for a name of the file, and adds the templates that found no row. */
  ghost predicate Reloaded(
      was: Rows, now: Rows, known: map<string, string>, templates: seq<Template>, newIds: seq<string>)
    requires |newIds| >= |templates|
  {
    && (forall id | id in was :: id in now <==> !Stale(was, known, templates, id))
    && (forall id | id in was && id in now :: now[id] == Refreshed(was, known, templates, id))
    && Added(was, now, known, templates, newIds)
  }

  lemma {:induction false} HasNameSnoc(templates: seq<Template>, t: Template, name: string)
    ensures HasName(templates + [t], name) <==> HasName(templates, name) || t.name == name
  {
    var all := templates + [t];
    assert all[|templates|] == t && forall i | 0 <= i < |templates| :: all[i] == templates[i];
  }

  lemma {:induction false} FirstSnoc(templates: seq<Template>, t: Template, name: string)
    requires HasName(templates + [t], name)
    ensures First(templates + [t], name) == if HasName(templates, name) then First(templates, name) else t.synced
  {
    HasNameSnoc(templates, t, name);
    if templates != [] {
      assert (templates + [t])[1..] == templates[1..] + [t];
      if templates[0].name != name {
        if HasName(templates, name) {
          var i :| 0 <= i < |templates| && templates[i].name == name;
          assert templates[1..][i - 1] == templates[i];
        }
        if HasName(templates[1..], name) {
          var i :| 0 <= i < |templates[1..]| && templates[1..][i].name == name;
          assert templates[i + 1].name == name;
        }
        HasNameSnoc(templates[1..], t, name);
        FirstSnoc(templates[1..], t, name);
      }
    }
  }

  lemma {:induction false} InsertsSnoc(known: map<string, string>, templates: seq<Template>, t: Template)
    ensures forall i | 0 <= i < |templates| :: Inserts(known, templates + [t], i) <==> Inserts(known, templates, i)
    ensures Inserts(known, templates + [t], |templates|) <==> t.name !in known || HasName(templates, t.name)
    ensures InsertCount(known, templates + [t], |templates| + 1) ==
            InsertCount(known, templates, |templates|) + if t.name !in known || HasName(templates, t.name) then 1 else 0
  {
    var all := templates + [t];
    assert forall i | 0 <= i <= |templates| :: all[..i] == templates[..i];
    assert templates[..|templates|] == templates;
    CountSame(known, templates, t, |templates|);
  }

  lemma {:induction false} CountSame(known: map<string, string>, templates: seq<Template>, t: Template, n: nat)
    requires n <= |templates|
    ensures InsertCount(known, templates + [t], n) == InsertCount(known, templates, n)
  {
    if n > 0 {
      CountSame(known, templates, t, n - 1);
      assert (templates + [t])[..n - 1] == templates[..n - 1];
    }
  }

  /** The step for one template of the file. */
  function UpsertOne(rows: Rows, left: map<string, string>, t: Template, id: string): Rows {
    if t.name !in left then rows[id := NewRow(t)]
    else if left[t.name] in rows then rows[left[t.name] := rows[left[t.name]].(synced := t.synced)]
    else rows
  }

  /** The index entries not yet popped. */
  ghost predicate Left(left: map<string, string>, known: map<string, string>, templates: seq<Template>) {
    forall n :: (n in left <==> n in known && !HasName(templates, n)) && (n in left ==> left[n] == known[n])
  }

  lemma {:induction false} NamesSnoc(templates: seq<Template>, t: Template)
    ensures forall name :: HasName(templates + [t], name) <==> HasName(templates, name) || t.name == name
    ensures forall name | HasName(templates + [t], name) ::
              First(templates + [t], name) == if HasName(templates, name) then First(templates, name) else t.synced
  {
    hide First, HasName;
    forall name
      ensures HasName(templates + [t], name) <==> HasName(templates, name) || t.name == name
      ensures HasName(templates + [t], name) ==>
                First(templates + [t], name) == if HasName(templates, name) then First(templates, name) else t.synced
    {
      HasNameSnoc(templates, t, name);
      if HasName(templates + [t], name) {
        FirstSnoc(templates, t, name);
      }
    }
  }

  lemma {:induction false} KeptStep(
    was: Rows, now: Rows, known: map<string, string>, left: map<string, string>, templates: seq<Template>, t: Template,
    id: string)
    requires Indexes(known, was) && id !in was
    requires Kept(was, now, known, templates) && Left(left, known, templates)
    ensures Kept(was, UpsertOne(now, left, t, id), known, templates + [t])
  {
    NamesSnoc(templates, t);
    hide First, HasName, NewRow;
    var next := UpsertOne(now, left, t, id);
    forall r | r in was
      ensures r in next && next[r] == Refreshed(was, known, templates + [t], r)
    {
      assert now[r] == Refreshed(was, known, templates, r);
    }
  }

  lemma {:induction false} LeftStep(
      left: map<string, string>, known: map<string, string>, templates: seq<Template>, t: Template)
    requires Left(left, known, templates)
    ensures Left(left - {t.name}, known, templates + [t])
  {
    NamesSnoc(templates, t);
    hide First, HasName;
  }

  lemma {:induction false} AddedForSnoc(
      known: map<string, string>, templates: seq<Template>, t: Template, newIds: seq<string>, id: string)
    requires |newIds| > |templates|
    ensures AddedFor(known, templates, newIds, id) ==> AddedFor(known, templates + [t], newIds, id)
    ensures Inserts(known, templates + [t], |templates|) && id == newIds[|templates|] ==>
            AddedFor(known, templates + [t], newIds, id)
  {
    InsertsSnoc(known, templates, t);
    hide Inserts, InsertCount;
    if AddedFor(known, templates, newIds, id) {
      var i :| 0 <= i < |templates| && Inserts(known, templates, i) && id == newIds[i];
      assert Inserts(known, templates + [t], i);
    }
  }

  /** A template finds no row exactly when the index has no entry left for its name. */
  lemma {:induction false} InsertsLast(
      known: map<string, string>, left: map<string, string>, templates: seq<Template>, t: Template)
    requires Left(left, known, templates)
    ensures Inserts(known, templates + [t], |templates|) <==> t.name !in left
    ensures forall i | 0 <= i < |templates| ::
              (Inserts(known, templates + [t], i) <==> Inserts(known, templates, i)) &&
                (templates + [t])[i] == templates[i]
  {
    InsertsSnoc(known, templates, t);
    hide Inserts, InsertCount, HasName;
  }

  lemma {:induction false} FoundIsOld(
      was: Rows, now: Rows, known: map<string, string>, left: map<string, string>, templates: seq<Template>,
      t: Template)
    requires Indexes(known, was) && Kept(was, now, known, templates) && Left(left, known, templates)
    ensures t.name in left ==> left[t.name] in now && left[t.name] in was
  {
    hide First, HasName, Refreshed;
  }

  lemma {:induction false} AddedThereStep(
    was: Rows, now: Rows, known: map<string, string>, left: map<string, string>, templates: seq<Template>, t: Template,
    newIds: seq<string>)
    requires |newIds| > |templates| && Fresh(newIds, was, |newIds|) && Indexes(known, was)
    requires Kept(was, now, known, templates) && Added(was, now, known, templates, newIds) &&
             Left(left, known, templates)
    ensures AddedThere(UpsertOne(now, left, t, newIds[|templates|]), known, templates + [t], newIds)
  {
    FoundIsOld(was, now, known, left, templates, t);
    InsertsLast(known, left, templates, t);
    hide NewRow, Inserts, AddedFor, Kept, Left, Indexes, AddedOnly;
    var next, all := UpsertOne(now, left, t, newIds[|templates|]), templates + [t];
    forall i | 0 <= i < |all| && Inserts(known, all, i)
      ensures newIds[i] in next && next[newIds[i]] == NewRow(all[i])
    {
      if i < |templates| {
        assert newIds[i] in now && now[newIds[i]] == NewRow(templates[i]);
        assert newIds[i] != newIds[|templates|] && newIds[i] !in was;
      } else {
        assert all[i] == t;
      }
    }
  }

  lemma {:induction false} AddedOnlyStep(
    was: Rows, now: Rows, known: map<string, string>, left: map<string, string>, templates: seq<Template>, t: Template,
    newIds: seq<string>)
    requires |newIds| > |templates| && Fresh(newIds, was, |newIds|) && Indexes(known, was)
    requires Kept(was, now, known, templates) && Added(was, now, known, templates, newIds) &&
             Left(left, known, templates)
    ensures AddedOnly(was, UpsertOne(now, left, t, newIds[|templates|]), known, templates + [t], newIds)
  {
    FoundIsOld(was, now, known, left, templates, t);
    InsertsLast(known, left, templates, t);
    hide NewRow, Inserts, AddedFor, Kept, Left, Indexes, AddedThere, Fresh;
    var next := UpsertOne(now, left, t, newIds[|templates|]);
    forall id | id in next && id !in was
      ensures AddedFor(known, templates + [t], newIds, id)
    {
      AddedForSnoc(known, templates, t, newIds, id);
    }
  }

  lemma {:induction false} AddedStep(
    was: Rows, now: Rows, known: map<string, string>, left: map<string, string>, templates: seq<Template>, t: Template,
    newIds: seq<string>)
    requires |newIds| > |templates| && Fresh(newIds, was, |newIds|) && Indexes(known, was)
    requires Kept(was, now, known, templates) && Added(was, now, known, templates, newIds) &&
             Left(left, known, templates)
    ensures Added(was, UpsertOne(now, left, t, newIds[|templates|]), known, templates + [t], newIds)
  {
    AddedThereStep(was, now, known, left, templates, t, newIds);
    AddedOnlyStep(was, now, known, left, templates, t, newIds);
  }

  lemma {:induction false} SizeStep(
    was: Rows, now: Rows, known: map<string, string>, left: map<string, string>, templates: seq<Template>, t: Template,
    newIds: seq<string>)
    requires |newIds| > |templates| && Fresh(newIds, was, |newIds|) && Indexes(known, was)
    requires Kept(was, now, known, templates) && Added(was, now, known, templates, newIds) &&
             Left(left, known, templates)
    ensures |UpsertOne(now, left, t, newIds[|templates|])| == |now| + if t.name in left then 0 else 1
    ensures t.name in left ==> left[t.name] in now
    ensures |left - {t.name}| == |left| - if t.name in left then 1 else 0
  {
  }

  ghost predicate NoMoreStale(now: Rows, mid: Rows, left: map<string, string>, stale: map<string, string>) {
    && (forall n | n in stale :: n in left && stale[n] == left[n])
    && (forall id :: id in now <==> id in mid && forall n | n in left && n !in stale :: left[n] != id)
    && (forall id | id in now :: now[id] == mid[id])
  }

  /** Distinct names lead to distinct rows. */
  lemma {:induction false} DeleteOne(
      now: Rows, mid: Rows, left: map<string, string>, stale: map<string, string>, n: string)
    requires NoMoreStale(now, mid, left, stale) && n in stale
    requires forall a, b | a in left && b in left && a != b :: left[a] != left[b]
    requires forall a | a in left :: left[a] in mid
    ensures NoMoreStale(now - {stale[n]}, mid, left, stale - {n})
    ensures |now - {stale[n]}| == |now| - 1 && |stale - {n}| == |stale| - 1
  {
  }

  lemma {:induction false} DeletedAre(
    was: Rows, mid: Rows, now: Rows, known: map<string, string>, left: map<string, string>, templates: seq<Template>,
    newIds: seq<string>)
    requires |newIds| == |templates| && Fresh(newIds, was, |newIds|) && Indexes(known, was)
    requires Kept(was, mid, known, templates) && Added(was, mid, known, templates, newIds) &&
             Left(left, known, templates)
    requires NoMoreStale(now, mid, left, map[])
    ensures Reloaded(was, now, known, templates, newIds)
  {
  }

  lemma {:induction false} NewIdIsNew(newIds: seq<string>, was: Rows, i: nat)
    requires i < |newIds| && Fresh(newIds, was, |newIds|)
    ensures newIds[i] !in was
  {
  }

  lemma {:induction false} CountStep(
      known: map<string, string>, left: map<string, string>, templates: seq<Template>, t: Template)
    requires Left(left, known, templates)
    ensures InsertCount(known, templates + [t], |templates| + 1) ==
            InsertCount(known, templates, |templates|) + if t.name in left then 0 else 1
  {
    InsertsSnoc(known, templates, t);
    hide HasName, InsertCount, Inserts;
  }

  lemma {:induction false} StaleRows(
      was: Rows, mid: Rows, known: map<string, string>, left: map<string, string>, templates: seq<Template>)
    requires Indexes(known, was) && Kept(was, mid, known, templates) && Left(left, known, templates)
    ensures forall a, b | a in left && b in left && a != b :: left[a] != left[b]
    ensures forall a | a in left :: left[a] in mid
  {
    hide First, HasName, Refreshed;
  }

  lemma {:induction false} StaleStart(mid: Rows, left: map<string, string>)
    ensures NoMoreStale(mid, mid, left, left)
  {
  }

  /** The state of a reload after the templates so far ... */
  ghost predicate Halfway(
    was: Rows, now: Rows, known: map<string, string>, left: map<string, string>, templates: seq<Template>,
    newIds: seq<string>)
  {
    && |newIds| >= |templates| && Left(left, known, templates)
    && Kept(was, now, known, templates) && Added(was, now, known, templates, newIds)
  }

  /** ... and its counters. */
  predicate Counts(
    was: Rows, now: Rows, known: map<string, string>, left: map<string, string>, templates: seq<Template>,
    inserted: nat, updated: nat)
  {
    && inserted == InsertCount(known, templates, |templates|) && inserted + updated == |templates|
    && updated + |left| == |known| && |now| == |was| + inserted
  }

  lemma {:induction false} HalfwayStep(
    was: Rows, now: Rows, known: map<string, string>, left: map<string, string>, templates: seq<Template>, t: Template,
    newIds: seq<string>)
    requires |newIds| > |templates| && Fresh(newIds, was, |newIds|) && Indexes(known, was)
    requires Halfway(was, now, known, left, templates, newIds)
    ensures Halfway(was, UpsertOne(now, left, t, newIds[|templates|]), known, left - {t.name}, templates + [t], newIds)
  {
    hide Left, Kept, Added, UpsertOne, Indexes, Fresh;
    NewIdIsNew(newIds, was, |templates|);
    KeptStep(was, now, known, left, templates, t, newIds[|templates|]);
    AddedStep(was, now, known, left, templates, t, newIds);
    LeftStep(left, known, templates, t);
  }

  lemma {:induction false} CountsStep(
    was: Rows, now: Rows, known: map<string, string>, left: map<string, string>, templates: seq<Template>, t: Template,
    newIds: seq<string>, inserted: nat, updated: nat)
    requires |newIds| > |templates| && Fresh(newIds, was, |newIds|) && Indexes(known, was)
    requires Halfway(was, now, known, left, templates, newIds) &&
             Counts(was, now, known, left, templates, inserted, updated)
    ensures var next := UpsertOne(now, left, t, newIds[|templates|]);
            if t.name in left
            then left[t.name] in now &&
              Counts(was, next, known, left - {t.name}, templates + [t], inserted, updated + 1)
            else Counts(was, next, known, left - {t.name}, templates + [t], inserted + 1, updated)
  {
    hide Left, Kept, Added, InsertCount, UpsertOne, Indexes, Fresh;
    SizeStep(was, now, known, left, templates, t, newIds);
    CountStep(known, left, templates, t);
  }

  ghost predicate Progress(
    was: Rows, now: Rows, known: map<string, string>, left: map<string, string>, templates: seq<Template>,
    newIds: seq<string>, i: nat, inserted: nat, updated: nat)
  {
    && i <= |templates| && Halfway(was, now, known, left, templates[..i], newIds)
    && Counts(was, now, known, left, templates[..i], inserted, updated)
  }

  lemma {:induction false} ProgressStart(
      was: Rows, known: map<string, string>, templates: seq<Template>, newIds: seq<string>)
    ensures Progress(was, was, known, known, templates, newIds, 0, 0, 0)
  {
  }

  /** What the next template leads to, if anything, is a row. */
  lemma {:induction false} ProgressFinds(
    was: Rows, now: Rows, known: map<string, string>, left: map<string, string>, templates: seq<Template>,
    newIds: seq<string>, i: nat, inserted: nat, updated: nat)
    requires i < |templates| && Fresh(newIds, was, |templates|) && Indexes(known, was)
    requires Progress(was, now, known, left, templates, newIds, i, inserted, updated)
    ensures |newIds| == |templates|
    ensures templates[i].name in left ==> left[templates[i].name] in now
  {
    assert |newIds| == |templates|;
    hide Halfway, Counts, Fresh, Indexes, UpsertOne;
    PrefixSnoc(templates, i);
    CountsStep(was, now, known, left, templates[..i], templates[i], newIds, inserted, updated);
  }

  lemma {:induction false} ProgressStep(
    was: Rows, now: Rows, known: map<string, string>, left: map<string, string>, templates: seq<Template>,
    newIds: seq<string>, i: nat, inserted: nat, updated: nat, found: bool, next: Rows)
    requires i < |templates| && Fresh(newIds, was, |templates|) && Indexes(known, was)
    requires Progress(was, now, known, left, templates, newIds, i, inserted, updated)
    requires |newIds| == |templates| && next == UpsertOne(now, left, templates[i], newIds[i])
    requires found == (templates[i].name in left)
    ensures found ==> Progress(was, next, known, left - {templates[i].name}, templates, newIds,
            i + 1, inserted, updated + 1)
    ensures !found ==> Progress(was, next, known, left - {templates[i].name}, templates, newIds,
            i + 1, inserted + 1, updated)
  {
    hide Halfway, Counts, UpsertOne, Fresh, Indexes;
    var earlier, t := templates[..i], templates[i];
    PrefixSnoc(templates, i);
    HalfwayStep(was, now, known, left, earlier, t, newIds);
    CountsStep(was, now, known, left, earlier, t, newIds, inserted, updated);
    assert Halfway(was, next, known, left - {t.name}, templates[..i + 1], newIds);
    if found {
      assert Counts(was, next, known, left - {t.name}, templates[..i + 1], inserted, updated + 1);
    } else {
      assert Counts(was, next, known, left - {t.name}, templates[..i + 1], inserted + 1, updated);
    }
  }

  lemma {:induction false} ProgressEnd(
    was: Rows, now: Rows, known: map<string, string>, left: map<string, string>, templates: seq<Template>,
    newIds: seq<string>, inserted: nat, updated: nat)
    requires Progress(was, now, known, left, templates, newIds, |templates|, inserted, updated)
    ensures Halfway(was, now, known, left, templates, newIds) &&
            Counts(was, now, known, left, templates, inserted, updated)
  {
    assert templates[..|templates|] == templates;
    hide Halfway, Counts;
  }

  // --- the loops, on the rows of a session that commits at its end ---

  /** The dict of built-in rows by name. */
  method BuildIndex(rows: Rows, order: seq<string>) returns (existing: map<string, string>)
    requires ListsBuiltins(order, rows)
    ensures existing == IndexOf(order, rows)
  {
    existing := map[];
    for i := 0 to |order|
      invariant existing == IndexOf(order[..i], rows)
    {
      assert order[..i + 1][..i] == order[..i];
      assert Builtin(rows, order[i]);
      existing := existing[rows[order[i]].name := order[i]];
    }
    assert order[..|order|] == order;
  }

  /** Updates the row that the template's name leads to, or inserts one. */
  method UpsertRow(rows: Rows, t: Template, left: map<string, string>, id: string) returns (after: Rows, found: bool)
    requires t.name in left ==> left[t.name] in rows
    ensures after == UpsertOne(rows, left, t, id) && found == (t.name in left)
  {
    found := t.name in left;
    if !found {
      after := rows[id := NewRow(t)];
    } else {
      after := rows[left[t.name] := rows[left[t.name]].(synced := t.synced)];
    }
  }

  /** One turn of the loop: upserts the next template and takes its row out of the index. */
  method UpsertNext(
    ghost was: Rows, ghost known: map<string, string>, rows: Rows, left: map<string, string>, templates: seq<Template>,
    newIds: seq<string>, i: nat, inserted: nat, updated: nat)
    returns (after: Rows, rest: map<string, string>, nowInserted: nat, nowUpdated: nat)
    requires i < |templates| && Fresh(newIds, was, |templates|) && Indexes(known, was)
    requires Progress(was, rows, known, left, templates, newIds, i, inserted, updated)
    ensures Progress(was, after, known, rest, templates, newIds, i + 1, nowInserted, nowUpdated)
  {
    hide *;
    ProgressFinds(was, rows, known, left, templates, newIds, i, inserted, updated);
    var found: bool;
    after, found := UpsertRow(rows, templates[i], left, newIds[i]);
    ProgressStep(was, rows, known, left, templates, newIds, i, inserted, updated, found, after);
    rest, nowInserted, nowUpdated := left - {templates[i].name}, inserted, updated;
    if found {
      nowUpdated := updated + 1;
    } else {
      nowInserted := inserted + 1;
    }
  }

  /** Upserts each template of the file. */
  method UpsertAll(rows: Rows, templates: seq<Template>, existing: map<string, string>, newIds: seq<string>)
    returns (after: Rows, left: map<string, string>, inserted: nat, updated: nat)
    requires Indexes(existing, rows) && Fresh(newIds, rows, |templates|)
    ensures Halfway(rows, after, existing, left, templates, newIds)
    ensures Counts(rows, after, existing, left, templates, inserted, updated)
  {
    after, left, inserted, updated := rows, existing, 0, 0;
    ProgressStart(rows, existing, templates, newIds);
    hide *;
    for i := 0 to |templates|
      invariant Progress(rows, after, existing, left, templates, newIds, i, inserted, updated)
    {
      after, left, inserted, updated :=
        UpsertNext(rows, existing, after, left, templates, newIds, i, inserted, updated);
    }
    ProgressEnd(rows, after, existing, left, templates, newIds, inserted, updated);
  }

  /** Deletes the rows left in the index. */
  method DeleteLeft(rows: Rows, left: map<string, string>) returns (after: Rows, deleted: nat)
    requires forall a, b | a in left && b in left && a != b :: left[a] != left[b]
    requires forall a | a in left :: left[a] in rows
    ensures NoMoreStale(after, rows, left, map[])
    ensures deleted == |left| && |after| + deleted == |rows|
  {
    var stale := left;
    after, deleted := rows, 0;
    StaleStart(rows, left);
    hide NoMoreStale;
    while stale != map[]
      invariant NoMoreStale(after, rows, left, stale)
      invariant |stale| + deleted == |left| && |after| + deleted == |rows|
      decreases |stale|
    {
      assert stale.Keys != {};
      var name :| name in stale;
      DeleteOne(after, rows, left, stale, name);
      after := after - {stale[name]};
      stale := stale - {name};
      deleted := deleted + 1;
    }
  }

  /** Adds a row for each template. */
  method AddAll(rows: Rows, templates: seq<Template>, newIds: seq<string>) returns (after: Rows)
    requires Fresh(newIds, rows, |templates|)
    ensures Grown(rows, after, SeedEntries(templates), newIds)
  {
    assert |newIds| == |templates|;
    var entries := SeedEntries(templates);
    after := rows;
    GrownStart(rows, entries, newIds);
    hide GrownUpTo, Fresh;
    for i := 0 to |templates|
      invariant GrownUpTo(rows, after, entries, newIds, i)
    {
      GrownNext(rows, after, entries, newIds, i);
      after := after[newIds[i] := NewRow(templates[i])];
    }
    GrownEnd(rows, after, entries, newIds);
  }

  /** Adds a row for each consulting template whose name no row has; gives up where two have it. */
  method AddMissing(rows: Rows, list: seq<Consulting>, owner: int, newIds: seq<string>) returns (after: Rows, ok: bool)
    requires Fresh(newIds, rows, |list|)
    ensures ok <==> !Raises(rows, list)
    ensures ok ==> Grown(rows, after, ConsultingEntries(rows, list, owner), newIds)
  {
    assert |newIds| == |list|;
    ghost var entries := ConsultingEntries(rows, list, owner);
    after := rows;
    GrownStart(rows, entries, newIds);
    hide GrownUpTo, Fresh, RowsNamed, ConsultingRow, ConsultingEntries, Grown;
    for i := 0 to |list|
      invariant GrownUpTo(rows, after, entries, newIds, i)
      invariant !RaisesUpTo(rows, list, i)
    {
      RaisesNext(rows, list, i);
      var found := RowsNamed(rows, list[i].name);
      if |found| > 1 {
        return after, false;
      }
      EntryIs(rows, list, owner, i);
      GrownNext(rows, after, entries, newIds, i);
      if found == {} {
        after := after[newIds[i] := ConsultingRow(list[i], owner)];
      }
    }
    GrownEnd(rows, after, entries, newIds);
    ok := true;
  }

  ghost predicate RaisesUpTo(was: Rows, list: seq<Consulting>, n: nat) {
    exists i | 0 <= i < n :: i < |list| && |RowsNamed(was, list[i].name)| > 1
  }

  lemma {:induction false} RaisesNext(was: Rows, list: seq<Consulting>, i: nat)
    requires i < |list|
    ensures RaisesUpTo(was, list, i + 1) <==> RaisesUpTo(was, list, i) || |RowsNamed(was, list[i].name)| > 1
    ensures |RowsNamed(was, list[i].name)| > 1 ==> Raises(was, list)
    ensures !RaisesUpTo(was, list, |list|) ==> !Raises(was, list)
  {
    hide RowsNamed;
  }

  lemma {:induction false} EntryIs(was: Rows, list: seq<Consulting>, owner: int, i: nat)
    requires i < |list|
    ensures |ConsultingEntries(was, list, owner)| == |list|
    ensures ConsultingEntries(was, list, owner)[i] ==
            if RowsNamed(was, list[i].name) == {} then Some(ConsultingRow(list[i], owner)) else None
  {
    hide RowsNamed;
  }

  /** The table of templates in the database. */
  class Gallery {
    var rows: Rows

    constructor (rows: Rows)
      ensures this.rows == rows
    {
      this.rows := rows;
    }

    /** `reload_builtin_templates`, for built-in rows read in the given order. */
    method Reload(templates: seq<Template>, order: seq<string>, newIds: seq<string>)
      returns (inserted: nat, updated: nat, deleted: nat)
      requires ListsBuiltins(order, rows) && Fresh(newIds, rows, |templates|)
      modifies this
      ensures Reloaded(old(rows), rows, IndexOf(order, old(rows)), templates, newIds)
      ensures inserted == InsertCount(IndexOf(order, old(rows)), templates, |templates|)
      ensures inserted + updated == |templates| && updated + deleted == |IndexOf(order, old(rows))|
      ensures |rows| + deleted == |old(rows)| + inserted
    {
      hide InsertCount, Kept, Added, Left, Reloaded, IndexOf, NoMoreStale, Indexes;
      IndexIndexes(order, rows);
      var existing := BuildIndex(rows, order);
      var mid: Rows;
      var left: map<string, string>;
      mid, left, inserted, updated := UpsertAll(rows, templates, existing, newIds);
      StaleRows(rows, mid, existing, left, templates);
      var after: Rows;
      after, deleted := DeleteLeft(mid, left);
      DeletedAre(rows, mid, after, existing, left, templates, newIds);
      rows := after;
    }

    /** `seed`. */
    method Seed(templates: seq<Template>, newIds: seq<string>) returns (skipped: bool)
      requires Fresh(newIds, rows, |templates|)
      modifies this
      ensures skipped <==> exists id :: Builtin(old(rows), id)
      ensures if skipped then rows == old(rows) else Grown(old(rows), rows, SeedEntries(templates), newIds)
    {
      ghost var was := rows;
      var builtins := set id | id in rows && Builtin(rows, id);
      skipped := |builtins| > 0;
      if skipped {
        assert builtins != {};
        ghost var id :| id in builtins;
        return;
      }
      assert builtins == {};
      forall id
        ensures !Builtin(was, id)
      {
        assert id !in builtins;
      }
      rows := AddAll(rows, templates, newIds);
    }

    /** `seed_templates` of the consulting seeder, for the owner it finds. */
    method SeedConsulting(list: seq<Consulting>, owner: Option<int>, newIds: seq<string>) returns (ok: bool)
      requires Fresh(newIds, rows, |list|)
      modifies this
      ensures ok <==> owner.Some? && !Raises(old(rows), list)
      ensures if ok then Grown(old(rows), rows, ConsultingEntries(old(rows), list, owner.value), newIds)
              else rows == old(rows)
    {
      if owner.None? {
        return false;
      }
      var after: Rows;
      after, ok := AddMissing(rows, list, owner.value, newIds);
      if ok {
        rows := after;
      }
    }
  }
}
