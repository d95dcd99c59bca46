/** What reloads and seeders make of the gallery of built-in templates, over any run. */
module GalleryRuns {
  import opened TemplateGallery
  import opened Wrappers

  // --- when the gallery matches the file ---

  ghost predicate UniqueBuiltins(rows: Rows) {
    forall a, b | Builtin(rows, a) && Builtin(rows, b) && rows[a].name == rows[b].name :: a == b
  }

  ghost predicate UniqueNames(templates: seq<Template>) {
    forall i, j | 0 <= i < j < |templates| :: templates[i].name != templates[j].name
  }

  /** A built-in row for each template, with its synced fields, and no other. */
  ghost predicate Matches(rows: Rows, templates: seq<Template>) {
    && UniqueBuiltins(rows)
    && (forall id | Builtin(rows, id) :: InFile(rows[id], templates))
    && (forall t | t in templates :: InGallery(rows, t))
  }

  ghost predicate InFile(row: Row, templates: seq<Template>) {
    exists i | 0 <= i < |templates| :: Shows(row, templates[i])
  }

  ghost predicate InGallery(rows: Rows, t: Template) {
    exists id | Builtin(rows, id) :: Shows(rows[id], t)
  }

  predicate Shows(row: Row, t: Template) {
    row.name == t.name && row.synced == t.synced
  }

  lemma {:induction false} FirstIsThere(templates: seq<Template>, name: string)
    requires HasName(templates, name)
    ensures exists i | 0 <= i < |templates| ::
            templates[i].name == name && templates[i].synced == First(templates, name)
  {
    if templates[0].name != name {
      var i :| 0 <= i < |templates| && templates[i].name == name;
      assert templates[1..][i - 1] == templates[i];
      FirstIsThere(templates[1..], name);
      var j :| 0 <= j < |templates[1..]| && templates[1..][j].name == name &&
        templates[1..][j].synced == First(templates, name);
      assert templates[j + 1] == templates[1..][j];
    }
  }

  lemma {:induction false} FirstOfUnique(templates: seq<Template>, i: nat)
    requires i < |templates| && UniqueNames(templates)
    ensures HasName(templates, templates[i].name) && First(templates, templates[i].name) == templates[i].synced
  {
    FirstIsThere(templates, templates[i].name);
    hide First;
    var j :| 0 <= j < |templates| && templates[j].name == templates[i].name &&
      templates[j].synced == First(templates, templates[i].name);
    assert j == i;
  }

  /** What became of a built-in row. */
  lemma {:induction false} OldBuiltin(
    was: Rows, now: Rows, known: map<string, string>, templates: seq<Template>, newIds: seq<string>, id: string)
    requires Fresh(newIds, was, |templates|) && Indexes(known, was) && Reloaded(was, now, known, templates, newIds)
    requires Builtin(was, id)
    ensures known[was[id].name] == id && HasName(templates, was[id].name) ==>
              Builtin(now, id) && now[id] == was[id].(synced := First(templates, was[id].name))
    ensures known[was[id].name] == id && !HasName(templates, was[id].name) ==> id !in now
    ensures known[was[id].name] != id ==> Builtin(now, id) && now[id] == was[id]
  {
    hide First, HasName, Added;
  }

  lemma {:induction false} Survivor(
    was: Rows, now: Rows, known: map<string, string>, templates: seq<Template>, newIds: seq<string>, id: string)
    requires Fresh(newIds, was, |templates|) && Indexes(known, was) && Reloaded(was, now, known, templates, newIds)
    requires id in was && id in now
    ensures now[id].name == was[id].name && now[id].builtin == was[id].builtin
    ensures now[id].usage == was[id].usage && now[id].owner == was[id].owner && now[id].isPublic == was[id].isPublic
    ensures UniqueBuiltins(was) && Builtin(now, id) ==> HasName(templates, now[id].name)
  {
  }

  lemma {:induction false} Newcomer(
    was: Rows, now: Rows, known: map<string, string>, templates: seq<Template>, newIds: seq<string>, id: string)
      returns (i: nat)
    requires Fresh(newIds, was, |templates|) && Reloaded(was, now, known, templates, newIds)
    requires id in now && id !in was
    ensures i < |templates| && Inserts(known, templates, i) && id == newIds[i] && now[id] == NewRow(templates[i])
  {
    hide First, HasName, Inserts;
    assert AddedFor(known, templates, newIds, id);
    i :| 0 <= i < |templates| && Inserts(known, templates, i) && id == newIds[i];
  }

  lemma {:induction false} NewNameUnknown(was: Rows, known: map<string, string>, templates: seq<Template>, i: nat)
    requires UniqueNames(templates) && i < |templates| && Indexes(known, was)
    ensures Inserts(known, templates, i) <==> templates[i].name !in known
    ensures templates[i].name in known <==> exists id | Builtin(was, id) :: was[id].name == templates[i].name
  {
  }

  lemma {:induction false} StaysUnique(
    was: Rows, now: Rows, known: map<string, string>, templates: seq<Template>, newIds: seq<string>)
    requires Fresh(newIds, was, |templates|) && Indexes(known, was) && Reloaded(was, now, known, templates, newIds)
    requires UniqueNames(templates) && UniqueBuiltins(was)
    ensures UniqueBuiltins(now)
  {
    hide First, HasName, Inserts, Reloaded;
    forall a, b | Builtin(now, a) && Builtin(now, b) && now[a].name == now[b].name
      ensures a == b
    {
      if a in was && b in was {
        Survivor(was, now, known, templates, newIds, a);
        Survivor(was, now, known, templates, newIds, b);
      } else if a !in was && b !in was {
        var i := Newcomer(was, now, known, templates, newIds, a);
        var j := Newcomer(was, now, known, templates, newIds, b);
        assert i == j;
      } else {
        var x, y := if a in was then a else b, if a in was then b else a;
        Survivor(was, now, known, templates, newIds, x);
        var i := Newcomer(was, now, known, templates, newIds, y);
        NewNameUnknown(was, known, templates, i);
      }
    }
  }

  lemma {:induction false} ReloadMatches(
    was: Rows, now: Rows, known: map<string, string>, templates: seq<Template>, newIds: seq<string>)
    requires Fresh(newIds, was, |templates|) && Indexes(known, was) && Reloaded(was, now, known, templates, newIds)
    requires UniqueNames(templates) && UniqueBuiltins(was)
    ensures Matches(now, templates)
  {
    assert |newIds| == |templates|;
    hide First, HasName, Inserts, Reloaded, Fresh, UniqueNames, Stale, Refreshed;
    StaysUnique(was, now, known, templates, newIds);
    forall id | Builtin(now, id)
      ensures InFile(now[id], templates)
    {
      if id in was {
        Survivor(was, now, known, templates, newIds, id);
        StandsAlone(was, known, id);
        OldBuiltin(was, now, known, templates, newIds, id);
        FirstIsThere(templates, now[id].name);
        var i :| 0 <= i < |templates| && templates[i].name == now[id].name &&
          templates[i].synced == First(templates, now[id].name);
        assert Shows(now[id], templates[i]);
      } else {
        var i := Newcomer(was, now, known, templates, newIds, id);
        assert Shows(now[id], templates[i]);
      }
    }
    forall t | t in templates
      ensures InGallery(now, t)
    {
      var i :| 0 <= i < |templates| && templates[i] == t;
      NewNameUnknown(was, known, templates, i);
      FirstOfUnique(templates, i);
      if templates[i].name in known {
        var id := known[templates[i].name];
        OldBuiltin(was, now, known, templates, newIds, id);
        assert Shows(now[id], templates[i]);
      } else {
        InsertedIsThere(was, now, known, templates, newIds, i);
        assert Shows(now[newIds[i]], templates[i]);
      }
    }
  }

  lemma {:induction false} StandsAlone(was: Rows, known: map<string, string>, id: string)
    requires Indexes(known, was) && UniqueBuiltins(was) && Builtin(was, id)
    ensures known[was[id].name] == id
  {
  }

  lemma {:induction false} InsertedIsThere(
    was: Rows, now: Rows, known: map<string, string>, templates: seq<Template>, newIds: seq<string>, i: nat)
    requires Fresh(newIds, was, |templates|) && Reloaded(was, now, known, templates, newIds)
    requires i < |templates| && Inserts(known, templates, i)
    ensures Builtin(now, newIds[i]) && newIds[i] !in was && now[newIds[i]] == NewRow(templates[i])
  {
    hide First, HasName, Inserts;
  }

  /** Of two templates with one name the second is inserted beside the first. */
  lemma {:induction false} SecondInserted(
    was: Rows, now: Rows, known: map<string, string>, templates: seq<Template>, newIds: seq<string>, i: nat, j: nat)
    requires Fresh(newIds, was, |templates|) && Indexes(known, was) && Reloaded(was, now, known, templates, newIds)
    requires i < j < |templates| && templates[i].name == templates[j].name
    ensures !UniqueBuiltins(now)
  {
    var name := templates[j].name;
    assert templates[..j][i] == templates[i];
    assert HasName(templates[..j], name) && HasName(templates, name);
    InsertedIsThere(was, now, known, templates, newIds, j);
    if name in known {
      OldBuiltin(was, now, known, templates, newIds, known[name]);
    } else {
      InsertedIsThere(was, now, known, templates, newIds, i);
    }
  }

  /** Of two built-in rows with one name, one is out of the reload's sight. */
  lemma {:induction false} ShadowStays(
    was: Rows, now: Rows, known: map<string, string>, templates: seq<Template>, newIds: seq<string>)
    requires Fresh(newIds, was, |templates|) && Indexes(known, was) && Reloaded(was, now, known, templates, newIds)
    requires !UniqueBuiltins(was)
    ensures !Matches(now, templates)
  {
  }

  /** After a reload the gallery matches the file - each name once, all five fields equal, nothing
      else built in - if and only if the file repeats no name and neither did the built-in rows. */
  lemma {:induction false} MatchesIff(
    was: Rows, now: Rows, known: map<string, string>, templates: seq<Template>, newIds: seq<string>)
    requires Fresh(newIds, was, |templates|) && Indexes(known, was) && Reloaded(was, now, known, templates, newIds)
    ensures Matches(now, templates) <==> UniqueNames(templates) && UniqueBuiltins(was)
  {
    hide First, HasName, Inserts, Reloaded, Fresh, Indexes;
    if !UniqueNames(templates) {
      var i, j :| 0 <= i < j < |templates| && templates[i].name == templates[j].name;
      SecondInserted(was, now, known, templates, newIds, i, j);
    } else if !UniqueBuiltins(was) {
      ShadowStays(was, now, known, templates, newIds);
    } else {
      ReloadMatches(was, now, known, templates, newIds);
    }
  }

  /** A reload of a gallery that matches changes nothing and inserts nothing. */
  lemma {:induction false} SecondReload(
    was: Rows, now: Rows, known: map<string, string>, templates: seq<Template>, newIds: seq<string>)
    requires Fresh(newIds, was, |templates|) && Indexes(known, was) && Reloaded(was, now, known, templates, newIds)
    requires UniqueNames(templates) && Matches(was, templates)
    ensures now == was && InsertCount(known, templates, |templates|) == 0
  {
    hide First, HasName, Inserts, Reloaded, Fresh, Refreshed, Stale, NewRow;
    forall i | 0 <= i < |templates|
      ensures !Inserts(known, templates, i)
    {
      NewNameUnknown(was, known, templates, i);
      assert InGallery(was, templates[i]);
      var id :| Builtin(was, id) && Shows(was[id], templates[i]);
    }
    NoneInserted(known, templates, |templates|);
    forall id: string
      ensures id in now <==> id in was
      ensures id in was ==> now[id] == was[id]
    {
      if id in now && id !in was {
        var i := Newcomer(was, now, known, templates, newIds, id);
      }
      if Builtin(was, id) {
        StandsAlone(was, known, id);
        assert InFile(was[id], templates);
        var i :| 0 <= i < |templates| && Shows(was[id], templates[i]);
        FirstOfUnique(templates, i);
        OldBuiltin(was, now, known, templates, newIds, id);
      } else if id in was {
        NotBuiltin(was, now, known, templates, newIds, id);
      }
    }
  }

  lemma {:induction false} NoneInserted(known: map<string, string>, templates: seq<Template>, n: nat)
    requires n <= |templates| && forall i | 0 <= i < n :: !Inserts(known, templates, i)
    ensures InsertCount(known, templates, n) == 0
  {
    hide Inserts;
    if n > 0 {
      NoneInserted(known, templates, n - 1);
    }
  }

  /** Rows that are not built in are not touched. */
  lemma {:induction false} NotBuiltin(
    was: Rows, now: Rows, known: map<string, string>, templates: seq<Template>, newIds: seq<string>, id: string)
    requires Fresh(newIds, was, |templates|) && Indexes(known, was) && Reloaded(was, now, known, templates, newIds)
    requires id in was && !was[id].builtin
    ensures id in now && now[id] == was[id]
  {
    hide First, HasName, Added;
  }

  function BuiltinIds(rows: Rows): set<string> {
    set id | id in rows && Builtin(rows, id)
  }

  lemma {:induction false} SizeByName(ids: set<string>, rows: Rows, names: set<string>)
    requires forall id | id in ids :: id in rows
    requires forall a, b | a in ids && b in ids && rows[a].name == rows[b].name :: a == b
    requires names == set id | id in ids :: rows[id].name
    ensures |names| == |ids|
    decreases |ids|
  {
    if ids != {} {
      var id :| id in ids;
      var others := set r | r in ids - {id} :: rows[r].name;
      SizeByName(ids - {id}, rows, others);
      assert rows[id].name !in others;
      assert names == others + {rows[id].name};
    }
  }

  /** With unique names the index has one entry for each built-in row, so that the rows updated and
      deleted are all of them. */
  lemma {:induction false} IndexSize(was: Rows, known: map<string, string>)
    requires Indexes(known, was) && UniqueBuiltins(was)
    ensures |known| == |BuiltinIds(was)|
  {
    var ids := BuiltinIds(was);
    var names := set id | id in ids :: was[id].name;
    assert forall n | n in known :: known[n] in ids && was[known[n]].name == n;
    assert names == known.Keys;
    SizeByName(ids, was, names);
  }

  // --- the seeders ---

  /** Of the entries that are added, no two built-in ones have one name. */
  ghost predicate UniqueEntries(entries: seq<Option<Row>>) {
    forall i, j | 0 <= i < j < |entries| && entries[i].Some? && entries[j].Some? && entries[i].value.builtin &&
      entries[j].value.builtin ::
      entries[i].value.name != entries[j].value.name
  }

  /** The entries that are added have names no row has. */
  ghost predicate NewNames(was: Rows, entries: seq<Option<Row>>) {
    forall i, id | 0 <= i < |entries| && entries[i].Some? && Builtin(was, id) :: entries[i].value.name != was[id].name
  }

  /** Adding entries with new names keeps built-in names unique exactly when the entries do. */
  lemma {:induction false} GrownUniqueIff(was: Rows, now: Rows, entries: seq<Option<Row>>, newIds: seq<string>)
    requires Fresh(newIds, was, |entries|) && Grown(was, now, entries, newIds)
    requires UniqueBuiltins(was) && NewNames(was, entries)
    ensures UniqueBuiltins(now) <==> UniqueEntries(entries)
  {
  }

  lemma {:induction false} SeedEntriesUnique(templates: seq<Template>)
    ensures UniqueEntries(SeedEntries(templates)) <==> UniqueNames(templates)
  {
  }

  lemma {:induction false} SeedShows(was: Rows, now: Rows, templates: seq<Template>, newIds: seq<string>)
    requires Fresh(newIds, was, |templates|) && Grown(was, now, SeedEntries(templates), newIds)
    requires forall id :: !Builtin(was, id)
    ensures forall id | Builtin(now, id) :: InFile(now[id], templates)
    ensures forall t | t in templates :: InGallery(now, t)
  {
    var entries := SeedEntries(templates);
    assert forall i | 0 <= i < |templates| :: entries[i] == Some(NewRow(templates[i]));
    hide SeedEntries;
    forall id | Builtin(now, id)
      ensures InFile(now[id], templates)
    {
      assert !Builtin(was, id);
      var i :| 0 <= i < |entries| && entries[i].Some? && id == newIds[i];
      assert Shows(now[id], templates[i]);
    }
    forall t | t in templates
      ensures InGallery(now, t)
    {
      var i :| 0 <= i < |templates| && templates[i] == t;
      assert entries[i].Some?;
      assert Builtin(now, newIds[i]) && Shows(now[newIds[i]], t);
    }
  }

  /** Seeding a gallery without built-in rows matches the file exactly when the file repeats no
      name. */
  lemma {:induction false} SeedMatchesIff(was: Rows, now: Rows, templates: seq<Template>, newIds: seq<string>)
    requires Fresh(newIds, was, |templates|) && Grown(was, now, SeedEntries(templates), newIds)
    requires forall id :: !Builtin(was, id)
    ensures Matches(now, templates) <==> UniqueNames(templates)
  {
    assert UniqueBuiltins(was) && NewNames(was, SeedEntries(templates));
    hide Grown, Fresh, SeedEntries, UniqueEntries, UniqueNames, UniqueBuiltins, NewNames;
    GrownUniqueIff(was, now, SeedEntries(templates), newIds);
    SeedEntriesUnique(templates);
    SeedShows(was, now, templates, newIds);
  }

  /** Two built-in consulting templates with one name that no row has: both are added. */
  ghost predicate NewTwins(was: Rows, list: seq<Consulting>) {
    exists i, j | 0 <= i < j < |list| ::
      list[i].builtin && list[j].builtin && list[i].name == list[j].name && RowsNamed(was, list[i].name) == {}
  }

  lemma {:induction false} ConsultingEntriesUnique(was: Rows, list: seq<Consulting>, owner: int)
    ensures UniqueEntries(ConsultingEntries(was, list, owner)) <==> !NewTwins(was, list)
  {
  }

  lemma {:induction false} ConsultingNewNames(was: Rows, list: seq<Consulting>, owner: int)
    ensures NewNames(was, ConsultingEntries(was, list, owner))
  {
    var entries := ConsultingEntries(was, list, owner);
    assert forall i | 0 <= i < |list| :: entries[i] == ConsultingEntry(was, owner)(list[i]);
    hide ConsultingEntries;
    forall i, id | 0 <= i < |entries| && entries[i].Some? && Builtin(was, id)
      ensures entries[i].value.name != was[id].name
    {
      assert id !in RowsNamed(was, list[i].name);
    }
  }

  /** The consulting seeder keeps built-in names unique unless it is given such a pair. */
  lemma {:induction false} ConsultingUniqueIff(
      was: Rows, now: Rows, list: seq<Consulting>, owner: int, newIds: seq<string>)
    requires Fresh(newIds, was, |list|) && Grown(was, now, ConsultingEntries(was, list, owner), newIds) &&
             UniqueBuiltins(was)
    ensures UniqueBuiltins(now) <==> !NewTwins(was, list)
  {
    assert |ConsultingEntries(was, list, owner)| == |list|;
    hide Grown, UniqueBuiltins, Fresh, UniqueEntries, NewTwins, NewNames, ConsultingEntries;
    ConsultingEntriesUnique(was, list, owner);
    ConsultingNewNames(was, list, owner);
    GrownUniqueIff(was, now, ConsultingEntries(was, list, owner), newIds);
  }

  /** Of the rows that the consulting seeder has added, the next reload deletes exactly those that
      are built in, stand for their name and have one the file lacks - with their usage count; the
      others are kept, those that stand for a name of the file with its fields. */
  lemma {:induction false} ConsultedSurvivesIff(
    was: Rows, mid: Rows, now: Rows, list: seq<Consulting>, owner: int, addedIds: seq<string>, i: nat,
    known: map<string, string>, templates: seq<Template>, newIds: seq<string>)
    requires Fresh(addedIds, was, |list|) && Grown(was, mid, ConsultingEntries(was, list, owner), addedIds)
    requires i < |list| && RowsNamed(was, list[i].name) == {}
    requires Fresh(newIds, mid, |templates|) && Indexes(known, mid) && Reloaded(mid, now, known, templates, newIds)
    ensures addedIds[i] in mid && mid[addedIds[i]] == ConsultingRow(list[i], owner)
    ensures addedIds[i] in now <==>
            || !list[i].builtin || HasName(templates, list[i].name)
            || exists other | Builtin(mid, other) ::
              other != addedIds[i] && mid[other].name == list[i].name && known[list[i].name] == other
    ensures addedIds[i] in now && UniqueBuiltins(mid) && list[i].builtin ==>
              HasName(templates, list[i].name) && now[addedIds[i]].synced == First(templates, list[i].name)
  {
    var id, entries := addedIds[i], ConsultingEntries(was, list, owner);
    assert entries[i] == ConsultingEntry(was, owner)(list[i]);
    hide First, HasName, Added, RowsNamed, ConsultingEntries, Fresh;
    if list[i].builtin {
      assert Builtin(mid, id);
      OldBuiltinIn(mid, now, known, templates, newIds, id);
    }
  }

  lemma {:induction false} OldBuiltinIn(
    was: Rows, now: Rows, known: map<string, string>, templates: seq<Template>, newIds: seq<string>, id: string)
    requires Fresh(newIds, was, |templates|) && Indexes(known, was) && Reloaded(was, now, known, templates, newIds)
    requires Builtin(was, id)
    ensures id in now <==> HasName(templates, was[id].name) || known[was[id].name] != id
    ensures UniqueBuiltins(was) ==> known[was[id].name] == id
    ensures known[was[id].name] == id && id in now ==> now[id].synced == First(templates, was[id].name)
  {
    hide First, HasName, Added;
  }

  // --- any run ---

  datatype Action =
    | Reload(templates: seq<Template>, order: seq<string>, newIds: seq<string>)
    | Seed(templates: seq<Template>, newIds: seq<string>)
    | Consult(list: seq<Consulting>, owner: Option<int>, newIds: seq<string>)
    | Use

  ghost predicate SameBuiltins(was: Rows, now: Rows) {
    forall id :: (Builtin(was, id) <==> Builtin(now, id)) && (Builtin(was, id) ==> was[id].name == now[id].name)
  }

  /** One action: a script, or users, who may do anything to their own rows and use built-in ones. */
  ghost predicate Next(was: Rows, action: Action, now: Rows) {
    match action
    case Reload(templates, order, newIds) =>
      ListsBuiltins(order, was) && Fresh(newIds, was, |templates|) &&
        Reloaded(was, now, IndexOf(order, was), templates, newIds)
    case Seed(templates, newIds) =>
      && Fresh(newIds, was, |templates|)
      && if exists id :: Builtin(was, id) then now == was else Grown(was, now, SeedEntries(templates), newIds)
    case Consult(list, owner, newIds) =>
      && Fresh(newIds, was, |list|)
      && if owner.None? || Raises(was, list) then now == was
         else Grown(was, now, ConsultingEntries(was, list, owner.value), newIds)
    case Use => SameBuiltins(was, now)
  }

  /** The action's own list repeats no name. */
  ghost predicate Orderly(action: Action) {
    match action
    case Reload(templates, _, _) => UniqueNames(templates)
    case Seed(templates, _) => UniqueNames(templates)
    case Consult(list, _, _) => forall i, j | 0 <= i < j < |list| :: list[i].name != list[j].name
    case Use => true
  }

  ghost predicate IsRun(states: seq<Rows>, actions: seq<Action>) {
    |states| == |actions| + 1 && forall i | 0 <= i < |actions| ::
      Orderly(actions[i]) && Next(states[i], actions[i], states[i + 1])
  }

  lemma {:induction false} NextKeepsUnique(was: Rows, action: Action, now: Rows)
    requires UniqueBuiltins(was) && Orderly(action) && Next(was, action, now)
    ensures UniqueBuiltins(now)
    ensures action.Reload? ==> Matches(now, action.templates)
  {
    hide Reloaded, IndexOf, Fresh, Grown, RowsNamed, SeedEntries, ConsultingEntries;
    match action {
      case Reload(templates, order, newIds) =>
        IndexIndexes(order, was);
        MatchesIff(was, now, IndexOf(order, was), templates, newIds);
      case Seed(templates, newIds) =>
        if !exists id :: Builtin(was, id) {
          SeedMatchesIff(was, now, templates, newIds);
        }
      case Consult(list, owner, newIds) =>
        if owner.Some? && !Raises(was, list) {
          ConsultingUniqueIff(was, now, list, owner.value, newIds);
        }
      case Use =>
        assert SameBuiltins(was, now);
    }
  }

  /** Over any interleaving of reloads, both seeders and users, with lists that repeat no name,
      built-in names stay unique, and the gallery matches the file after every reload. */
  lemma {:induction false} UniqueOverRuns(states: seq<Rows>, actions: seq<Action>, i: nat)
    requires IsRun(states, actions) && UniqueBuiltins(states[0]) && i <= |actions|
    ensures UniqueBuiltins(states[i])
    ensures i > 0 && actions[i - 1].Reload? ==> Matches(states[i], actions[i - 1].templates)
  {
    hide Orderly, Next, Matches, UniqueBuiltins;
    if i > 0 {
      UniqueOverRuns(states, actions, i - 1);
      NextKeepsUnique(states[i - 1], actions[i - 1], states[i]);
    }
  }
}
