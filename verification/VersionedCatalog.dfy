/** The versioned catalogs: backend/scripts/import_builtin_tools.py and add_stub_tools.py on one pair
    of tables, import_agent_templates.py on another. */
module VersionedCatalog {
  import opened Seqs
  import opened Wrappers

  /** A row of the catalog, under its slug; the version may be NULL. */
  datatype Entry = Entry(id: string, version: Option<int>, content: string)

  /** A snapshot of the row `owner`. */
  datatype Snapshot = Snapshot(owner: string, number: int, content: string)

  /** The two tables. */
  datatype Store = Store(entries: map<string, Entry>, snapshots: seq<Snapshot>)

  datatype Item = Item(slug: string, content: string)

  /** Which importer: the one for agents reads a version that is NULL or 0 as 1, the one for tools
      cannot add to NULL. */
  datatype Importer = Tools | Agents

  // --- one item ---

  /** The number of the next snapshot; None where the importer raises. */
  function NextNumber(version: Option<int>, importer: Importer): Option<int> {
    match importer
    case Tools => if version.Some? then Some(version.value + 1) else None
    case Agents => if version.None? || version.value == 0 then Some(2) else Some(version.value + 1)
  }

  /** `version = version + 1`, in SQL. */
  function Bumped(version: Option<int>): Option<int> {
    if version.Some? then Some(version.value + 1) else None
  }

  /** Adding a row that is not there, with its first snapshot. */
  function Insert(s: Store, item: Item, id: string): Store {
    Store(s.entries[item.slug := Entry(id, Some(1), item.content)], s.snapshots + [Snapshot(id, 1, item.content)])
  }

  function Upsert(s: Store, item: Item, id: string, importer: Importer): Option<Store> {
    if item.slug !in s.entries then Some(Insert(s, item, id))
    else
      var e := s.entries[item.slug];
      var number := NextNumber(e.version, importer);
      if number.None? then None
      else
        Some(Store(s.entries[item.slug := Entry(e.id, Bumped(e.version), item.content)],
                   s.snapshots + [Snapshot(e.id, number.value, item.content)]))
  }

  /** A stub never touches a row that is there. */
  function AddStub(s: Store, item: Item, id: string): Store {
    if item.slug in s.entries then s else Insert(s, item, id)
  }

  // --- whole imports ---

  /** All items in order; None where the importer raises, and the transaction is undone. */
  function ImportAll(s: Store, items: seq<Item>, newIds: seq<string>, importer: Importer): Option<Store>
    requires |newIds| >= |items|
  {
    if items == [] then Some(s)
    else
      var n := |items| - 1;
      var earlier := ImportAll(s, items[..n], newIds, importer);
      if earlier.None? then None else Upsert(earlier.value, items[n], newIds[n], importer)
  }

  function AddStubs(s: Store, items: seq<Item>, newIds: seq<string>): Store
    requires |newIds| >= |items|
  {
    if items == [] then s
    else
      var n := |items| - 1;
      AddStub(AddStubs(s, items[..n], newIds), items[n], newIds[n])
  }

  lemma {:induction false} ImportSnoc(s: Store, items: seq<Item>, newIds: seq<string>, importer: Importer, i: nat)
    requires |newIds| >= |items| && i < |items|
    ensures ImportAll(s, items[..i + 1], newIds, importer) ==
            if ImportAll(s, items[..i], newIds, importer).None? then None
            else Upsert(ImportAll(s, items[..i], newIds, importer).value, items[i], newIds[i], importer)
  {
    assert items[..i + 1][..i] == items[..i];
  }

  lemma {:induction false} ImportRaises(s: Store, items: seq<Item>, newIds: seq<string>, importer: Importer, i: nat)
    requires |newIds| >= |items| && i <= |items| && ImportAll(s, items[..i], newIds, importer).None?
    ensures ImportAll(s, items, newIds, importer).None?
    decreases |items| - i
  {
    if i == |items| {
      assert items[..i] == items;
    } else {
      ImportSnoc(s, items, newIds, importer, i);
      ImportRaises(s, items, newIds, importer, i + 1);
    }
  }

  /** The first `i` items are written: the tables are `now`, with the counters counted on the way. */
  ghost predicate ImportedUpTo(
      start: Store, items: seq<Item>, newIds: seq<string>, importer: Importer, i: nat, now: Store, added: nat,
      updated: nat)
    requires |newIds| >= |items| && i <= |items|
  {
    && ImportAll(start, items[..i], newIds, importer) == Some(now)
    && added + updated == i
    && |now.entries| == |start.entries| + added
    && |now.snapshots| == |start.snapshots| + i
  }

  lemma {:induction false} ImportBegun(start: Store, items: seq<Item>, newIds: seq<string>, importer: Importer)
    requires |newIds| >= |items|
    ensures ImportedUpTo(start, items, newIds, importer, 0, start, 0, 0)
  {
    assert items[..0] == [];
  }

  lemma {:induction false} ImportNext(
      start: Store, items: seq<Item>, newIds: seq<string>, importer: Importer, i: nat, now: Store, added: nat,
      updated: nat)
    requires |newIds| >= |items| && i < |items|
    requires ImportedUpTo(start, items, newIds, importer, i, now, added, updated)
    ensures match Upsert(now, items[i], newIds[i], importer)
            case None => ImportAll(start, items, newIds, importer).None?
            case Some(next) =>
              if items[i].slug in now.entries
              then ImportedUpTo(start, items, newIds, importer, i + 1, next, added, updated + 1)
              else ImportedUpTo(start, items, newIds, importer, i + 1, next, added + 1, updated)
  {
    hide ImportAll;
    ImportSnoc(start, items, newIds, importer, i);
    if Upsert(now, items[i], newIds[i], importer).None? {
      ImportRaises(start, items, newIds, importer, i + 1);
    }
  }

  lemma {:induction false} ImportDone(
      start: Store, items: seq<Item>, newIds: seq<string>, importer: Importer, now: Store, added: nat, updated: nat)
    requires |newIds| >= |items|
    requires ImportedUpTo(start, items, newIds, importer, |items|, now, added, updated)
    ensures ImportAll(start, items, newIds, importer) == Some(now)
    ensures added + updated == |items| && |now.entries| == |start.entries| + added
    ensures |now.snapshots| == |start.snapshots| + |items|
  {
    assert items[..|items|] == items;
  }

  class Catalog {
    var entries: map<string, Entry>
    var snapshots: seq<Snapshot>

    ghost function Now(): Store
      reads this
    {
      Store(entries, snapshots)
    }

    constructor (s: Store)
      ensures Now() == s
    {
      entries, snapshots := s.entries, s.snapshots;
    }

    /** The loop that the importers share, on one transaction. */
    method Import(
        items: seq<Item>, newIds: seq<string>, importer: Importer) returns (ok: bool, added: nat, updated: nat)
      requires |newIds| >= |items|
      modifies this
      ensures ok <==> ImportAll(old(Now()), items, newIds, importer).Some?
      ensures Now() == if ok then ImportAll(old(Now()), items, newIds, importer).value else old(Now())
      ensures ok ==> added + updated == |items| && |entries| == |old(entries)| + added
      ensures ok ==> |snapshots| == |old(snapshots)| + |items|
    {
      hide ImportAll, ImportedUpTo;
      var start, now := Store(entries, snapshots), Store(entries, snapshots);
      added, updated := 0, 0;
      ImportBegun(start, items, newIds, importer);
      for i := 0 to |items|
        invariant Now() == start && ImportedUpTo(start, items, newIds, importer, i, now, added, updated)
      {
        ImportNext(start, items, newIds, importer, i, now, added, updated);
        var item := items[i];
        if item.slug in now.entries {
          var e := now.entries[item.slug];
          var number := NextNumber(e.version, importer);
          if number.None? {
            return false, 0, 0;
          }
          now := Store(now.entries[item.slug := Entry(e.id, Bumped(e.version), item.content)],
                       now.snapshots + [Snapshot(e.id, number.value, item.content)]);
          updated := updated + 1;
        } else {
          now := Insert(now, item, newIds[i]);
          added := added + 1;
        }
      }
      ImportDone(start, items, newIds, importer, now, added, updated);
      entries, snapshots := now.entries, now.snapshots;
      ok := true;
    }

    /** `run` of add_stub_tools.py. */
    method Stubs(items: seq<Item>, newIds: seq<string>) returns (inserted: nat, skipped: nat)
      requires |newIds| >= |items|
      modifies this
      ensures Now() == AddStubs(old(Now()), items, newIds)
      ensures inserted + skipped == |items| && |entries| == |old(entries)| + inserted
      ensures |snapshots| == |old(snapshots)| + inserted
    {
      ghost var start := Now();
      inserted, skipped := 0, 0;
      assert items[..0] == [];
      for i := 0 to |items|
        invariant Now() == AddStubs(start, items[..i], newIds)
        invariant inserted + skipped == i && |entries| == |start.entries| + inserted
        invariant |snapshots| == |start.snapshots| + inserted
      {
        assert items[..i + 1][..i] == items[..i];
        var item := items[i];
        if item.slug !in entries {
          entries := entries[item.slug := Entry(newIds[i], Some(1), item.content)];
          snapshots := snapshots + [Snapshot(newIds[i], 1, item.content)];
          inserted := inserted + 1;
        } else {
          skipped := skipped + 1;
        }
      }
      assert items[..|items|] == items;
    }

    /** `run` of import_agent_templates.py: the markdown definitions, then those in Python, which may
        have slugs in common. */
    method ImportAgents(markdown: seq<Item>, python: seq<Item>, newIds: seq<string>) returns (added: nat, updated: nat)
      requires |newIds| >= |markdown| + |python|
      modifies this
      ensures Some(Now()) == ImportAll(old(Now()), markdown + python, newIds, Agents)
      ensures added + updated == |markdown| + |python| && |entries| == |old(entries)| + added
    {
      ghost var start := Now();
      var ok, more, changed: nat;
      AgentsNeverRaise(start, markdown, newIds);
      ok, added, updated := Import(markdown, newIds, Agents);
      ghost var mid := Now();
      AgentsNeverRaise(mid, python, newIds[|markdown|..]);
      ok, more, changed := Import(python, newIds[|markdown|..], Agents);
      added, updated := added + more, updated + changed;
      ImportConcat(start, markdown, python, newIds, Agents);
    }
  }

  lemma {:induction false} AgentsNeverRaise(s: Store, items: seq<Item>, newIds: seq<string>)
    requires |newIds| >= |items|
    ensures ImportAll(s, items, newIds, Agents).Some?
    decreases |items|
  {
    if items != [] {
      AgentsNeverRaise(s, items[..|items| - 1], newIds);
    }
  }

  /** Two imports on end are one. */
  lemma {:induction false} ImportConcat(s: Store, a: seq<Item>, b: seq<Item>, newIds: seq<string>, importer: Importer)
    requires |newIds| >= |a| + |b|
    ensures ImportAll(s, a + b, newIds, importer) ==
            if ImportAll(s, a, newIds, importer).None? then None
            else ImportAll(ImportAll(s, a, newIds, importer).value, b, newIds[|a|..], importer)
    decreases |b|
  {
    if b == [] {
      assert a + b == a;
    } else {
      var init := b[..|b| - 1];
      ImportConcat(s, a, init, newIds, importer);
      assert (a + b)[..|a + b| - 1] == a + init;
    }
  }

  // --- versions and snapshots ---

  function OwnedBy(id: string): Snapshot -> bool {
    (x: Snapshot) => x.owner == id
  }

  /** The snapshots of a row, oldest first. */
  function SnapshotsOf(s: Store, id: string): seq<Snapshot> {
    Filter(s.snapshots, OwnedBy(id))
  }

  /** The snapshots are numbered without gap or repetition, up to the version `v`. */
  ghost predicate UpTo(snaps: seq<Snapshot>, v: int) {
    forall k | 0 <= k < |snaps| :: snaps[k].number == v - |snaps| + 1 + k
  }

  /** The version is known and not 0, and the snapshots lead up to it. */
  ghost predicate Tracked(version: Option<int>, snaps: seq<Snapshot>) {
    version.Some? && version.value >= 1 && version.value >= |snaps| && UpTo(snaps, version.value)
  }

  /** A row at version `v` has snapshots numbered exactly 1 to `v`, once each. */
  ghost predicate Complete(version: Option<int>, snaps: seq<Snapshot>) {
    && version.Some? && |snaps| == version.value
    && forall k | 0 <= k < |snaps| :: snaps[k].number == k + 1
  }

  /** The newest snapshot is what the row says. */
  ghost predicate Current(content: string, snaps: seq<Snapshot>) {
    snaps != [] ==> snaps[|snaps| - 1].content == content
  }

  /** Rows have ids of their own. */
  ghost predicate OwnIds(s: Store) {
    forall a, b | a in s.entries && b in s.entries && s.entries[a].id == s.entries[b].id :: a == b
  }

  ghost predicate NewId(s: Store, id: string) {
    && (forall slug | slug in s.entries :: s.entries[slug].id != id)
    && (forall k | 0 <= k < |s.snapshots| :: s.snapshots[k].owner != id)
  }

  lemma {:induction false} SnapshotsSnoc(s: Store, t: Store, x: Snapshot, id: string)
    requires t.snapshots == s.snapshots + [x]
    ensures SnapshotsOf(t, id) == SnapshotsOf(s, id) + if x.owner == id then [x] else []
  {
    FilterSnoc(s.snapshots, x, OwnedBy(id));
  }

  lemma {:induction false} NoSnapshots(s: Store, id: string)
    requires NewId(s, id)
    ensures SnapshotsOf(s, id) == []
  {
    FilterNone(s.snapshots, OwnedBy(id));
  }

  /** What an import of one item leaves as it was: the other rows with their snapshots, and the id of
      every row. */
  ghost predicate OnlySlug(s: Store, t: Store, slug: string) {
    && (forall a | a in s.entries :: a in t.entries && t.entries[a].id == s.entries[a].id)
    && (forall a | a in t.entries && a != slug ::
          a in s.entries && t.entries[a] == s.entries[a] &&
            SnapshotsOf(t, t.entries[a].id) == SnapshotsOf(s, s.entries[a].id))
  }

  /** What it makes of the item's row: the next version with one more snapshot, or version 1. */
  ghost predicate RowImported(s: Store, t: Store, item: Item, id: string, importer: Importer) {
    && item.slug in t.entries
    && var now := t.entries[item.slug];
       if item.slug in s.entries then
         var was := s.entries[item.slug];
         && NextNumber(was.version, importer).Some?
         && now == Entry(was.id, Bumped(was.version), item.content)
         && SnapshotsOf(t, now.id) ==
            SnapshotsOf(s, was.id) + [Snapshot(was.id, NextNumber(was.version, importer).value, item.content)]
       else now == Entry(id, Some(1), item.content) && SnapshotsOf(t, id) == [Snapshot(id, 1, item.content)]
  }

  /** A row written and a snapshot of it appended concern that row only. */
  lemma {:induction false} WriteEffect(s: Store, t: Store, slug: string, id: string, x: Snapshot)
    requires OwnIds(s) && NewId(s, id) && t.snapshots == s.snapshots + [x]
    requires slug in t.entries && t.entries == s.entries[slug := t.entries[slug]] && x.owner == t.entries[slug].id
    requires t.entries[slug].id == if slug in s.entries then s.entries[slug].id else id
    ensures OnlySlug(s, t, slug)
    ensures SnapshotsOf(t, x.owner) == if slug in s.entries then SnapshotsOf(s, x.owner) + [x] else [x]
  {
    hide SnapshotsOf, NewId, OwnIds;
    SnapshotsSnoc(s, t, x, x.owner);
    NoSnapshots(s, id);
    forall a | a in t.entries && a != slug
      ensures SnapshotsOf(t, t.entries[a].id) == SnapshotsOf(s, s.entries[a].id)
    {
      OtherOwner(s, a, slug, id);
      SnapshotsSnoc(s, t, x, s.entries[a].id);
      assert SnapshotsOf(s, s.entries[a].id) + [] == SnapshotsOf(s, s.entries[a].id);
    }
  }

  lemma {:induction false} OtherOwner(s: Store, a: string, slug: string, id: string)
    requires OwnIds(s) && NewId(s, id) && a in s.entries && a != slug
    ensures s.entries[a].id != if slug in s.entries then s.entries[slug].id else id
  {
  }

  lemma {:induction false} UpsertEffect(s: Store, item: Item, id: string, importer: Importer)
    requires OwnIds(s) && NewId(s, id) && Upsert(s, item, id, importer).Some?
    ensures var t := Upsert(s, item, id, importer).value;
            OnlySlug(s, t, item.slug) && RowImported(s, t, item, id, importer) && OwnIds(t)
  {
    hide OnlySlug, SnapshotsOf;
    var t := Upsert(s, item, id, importer).value;
    WriteEffect(s, t, item.slug, id, t.snapshots[|s.snapshots|]);
  }

  lemma {:induction false} InsertEffect(s: Store, item: Item, id: string)
    requires OwnIds(s) && NewId(s, id) && item.slug !in s.entries
    ensures OnlySlug(s, Insert(s, item, id), item.slug) && OwnIds(Insert(s, item, id))
    ensures RowImported(s, Insert(s, item, id), item, id, Tools)
  {
    hide OnlySlug, SnapshotsOf;
    WriteEffect(s, Insert(s, item, id), item.slug, id, Snapshot(id, 1, item.content));
  }

  // --- where an import raises ---

  ghost predicate NullIn(s: Store, slug: string) {
    slug in s.entries && s.entries[slug].version.None?
  }

  lemma {:induction false} NullsStay(s: Store, items: seq<Item>, newIds: seq<string>)
    requires |newIds| >= |items| && ImportAll(s, items, newIds, Tools).Some?
    ensures forall slug :: NullIn(ImportAll(s, items, newIds, Tools).value, slug) <==> NullIn(s, slug)
    decreases |items|
  {
    if items != [] {
      NullsStay(s, items[..|items| - 1], newIds);
    }
  }

  /** The import of tools raises, and is undone, exactly when it comes to a row whose version is
      NULL. */
  lemma {:induction false} ToolsRaiseIff(s: Store, items: seq<Item>, newIds: seq<string>)
    requires |newIds| >= |items|
    ensures ImportAll(s, items, newIds, Tools).None? <==> exists item | item in items :: NullIn(s, item.slug)
    decreases |items|
  {
    if items != [] {
      var init, last := items[..|items| - 1], items[|items| - 1];
      assert items == init + [last];
      ToolsRaiseIff(s, init, newIds);
      if ImportAll(s, init, newIds, Tools).Some? {
        NullsStay(s, init, newIds);
        assert NullIn(ImportAll(s, init, newIds, Tools).value, last.slug) <==> NullIn(s, last.slug);
      }
      hide NullIn;
      assert last in items && forall item | item in init :: item in items;
    }
  }
}
