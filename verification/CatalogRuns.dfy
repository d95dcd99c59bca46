/** What any run of imports makes of the rows of a versioned catalog. */
module CatalogRuns {
  import opened Seqs
  import opened VersionedCatalog
  import opened Wrappers

  // --- runs ---

  /** One item of an import of either catalog's scripts, in its own transaction or among others. */
  datatype Step = Upserting(item: Item, id: string) | Stubbing(item: Item, id: string)

  function StepFrom(s: Store, step: Step, importer: Importer): Option<Store> {
    match step
    case Upserting(item, id) => Upsert(s, item, id, importer)
    case Stubbing(item, id) => Some(AddStub(s, item, id))
  }

  ghost predicate IsRun(states: seq<Store>, steps: seq<Step>, importer: Importer) {
    && |states| == |steps| + 1
    && forall i | 0 <= i < |steps| ::
         NewId(states[i], steps[i].id) && StepFrom(states[i], steps[i], importer) == Some(states[i + 1])
  }

  /** The step updates the row of this slug, if there is one. */
  predicate Hits(step: Step, slug: string) {
    step.Upserting? && step.item.slug == slug
  }

  function HitCount(steps: seq<Step>, slug: string): nat {
    if steps == [] then 0
    else HitCount(steps[..|steps| - 1], slug) + if Hits(steps[|steps| - 1], slug) then 1 else 0
  }

  function Snaps(s: Store, slug: string): seq<Snapshot>
    requires slug in s.entries
  {
    SnapshotsOf(s, s.entries[slug].id)
  }

  // --- one step ---

  lemma {:induction false} StepOwnIds(s: Store, step: Step, importer: Importer)
    requires OwnIds(s) && NewId(s, step.id) && StepFrom(s, step, importer).Some?
    ensures OwnIds(StepFrom(s, step, importer).value)
  {
    var item := step.item;
    hide OwnIds, NewId, Upsert, Insert;
    if step.Upserting? {
      UpsertEffect(s, item, step.id, importer);
    } else if item.slug !in s.entries {
      InsertEffect(s, item, step.id);
    }
  }

  /** A row that is there: an update brings the next version and one more snapshot with the content
      written; no other step touches it. */
  lemma {:induction false} StepRow(s: Store, step: Step, importer: Importer, a: string)
    requires OwnIds(s) && NewId(s, step.id) && StepFrom(s, step, importer).Some? && a in s.entries
    ensures var t, was := StepFrom(s, step, importer).value, s.entries[a];
            && a in t.entries
            && if Hits(step, a) then
                 && NextNumber(was.version, importer).Some?
                 && t.entries[a] == Entry(was.id, Bumped(was.version), step.item.content)
                 && Snaps(t, a) == Snaps(s, a) +
                   [Snapshot(was.id, NextNumber(was.version, importer).value, step.item.content)]
               else t.entries[a] == was && Snaps(t, a) == Snaps(s, a)
  {
    var item := step.item;
    hide OwnIds, NewId, Upsert, Insert, SnapshotsOf;
    if step.Upserting? {
      UpsertEffect(s, item, step.id, importer);
    } else if item.slug !in s.entries {
      InsertEffect(s, item, step.id);
    }
  }

  /** A row that was not there: version 1 and its snapshot. */
  lemma {:induction false} StepNew(s: Store, step: Step, importer: Importer, a: string)
    requires OwnIds(s) && NewId(s, step.id) && StepFrom(s, step, importer).Some?
    requires a !in s.entries && a in StepFrom(s, step, importer).value.entries
    ensures var t := StepFrom(s, step, importer).value;
            && t.entries[a] == Entry(step.id, Some(1), step.item.content)
            && Snaps(t, a) == [Snapshot(step.id, 1, step.item.content)]
  {
    var item := step.item;
    hide OwnIds, NewId, Upsert, Insert, SnapshotsOf;
    if step.Upserting? {
      UpsertEffect(s, item, step.id, importer);
    } else if item.slug !in s.entries {
      InsertEffect(s, item, step.id);
    }
  }

  // --- a row over a run ---

  /** The version after `n` updates. */
  function VersionAfter(version: Option<int>, n: nat): Option<int> {
    if version.Some? then Some(version.value + n) else None
  }

  /** What `n` updates make of a row and its snapshots. */
  ghost predicate Updated(
      was: Entry, before: seq<Snapshot>, now: Entry, after: seq<Snapshot>, n: nat, importer: Importer) {
    && now.id == was.id && now.version == VersionAfter(was.version, n)
    && |after| == |before| + n && after[..|before|] == before
    && (forall k | 0 <= k < n :: Some(after[|before| + k].number) == NextNumber(VersionAfter(was.version, k), importer))
    && (if n == 0 then now.content == was.content else after[|after| - 1].content == now.content)
  }

  lemma {:induction false} UpdatedOnce(
    was: Entry, before: seq<Snapshot>, mid: Entry, snaps: seq<Snapshot>, n: nat, importer: Importer, content: string)
    requires Updated(was, before, mid, snaps, n, importer) && NextNumber(mid.version, importer).Some?
    ensures Updated(was, before, Entry(mid.id, Bumped(mid.version), content),
                    snaps + [Snapshot(mid.id, NextNumber(mid.version, importer).value, content)], n + 1, importer)
  {
    var after := snaps + [Snapshot(mid.id, NextNumber(mid.version, importer).value, content)];
    assert after[..|before|] == snaps[..|before|];
    assert after[|before| + n].number == NextNumber(mid.version, importer).value;
    assert forall k | 0 <= k < |snaps| :: after[k] == snaps[k];
    hide NextNumber;
  }

  /** Every row that is there at the start keeps its id, takes one version for each update that hits
      it, and gets one snapshot for each behind those it had - whatever the other rows are like. */
  lemma {:induction false} RunRow(states: seq<Store>, steps: seq<Step>, importer: Importer, i: nat, a: string)
    requires IsRun(states, steps, importer) && OwnIds(states[0]) && i <= |steps| && a in states[0].entries
    ensures OwnIds(states[i]) && a in states[i].entries
    ensures Updated(states[0].entries[a], Snaps(states[0], a), states[i].entries[a], Snaps(states[i], a),
            HitCount(steps[..i], a), importer)
  {
    hide OwnIds, NewId, StepFrom, Snaps;
    if i > 0 {
      RunRow(states, steps, importer, i - 1, a);
      var s, step := states[i - 1], steps[i - 1];
      assert NewId(s, step.id) && StepFrom(s, step, importer) == Some(states[i]);
      StepRow(s, step, importer, a);
      StepOwnIds(s, step, importer);
      assert steps[..i][..i - 1] == steps[..i - 1];
      if Hits(step, a) {
        UpdatedOnce(states[0].entries[a], Snaps(states[0], a), s.entries[a], Snaps(s, a), HitCount(steps[..i - 1], a),
          importer, step.item.content);
      }
    } else {
      assert steps[..0] == [];
    }
  }

  lemma {:induction false} RunOwnIds(states: seq<Store>, steps: seq<Step>, importer: Importer, i: nat)
    requires IsRun(states, steps, importer) && OwnIds(states[0]) && i <= |steps|
    ensures OwnIds(states[i])
  {
    hide OwnIds, NewId, StepFrom;
    if i > 0 {
      RunOwnIds(states, steps, importer, i - 1);
      assert StepFrom(states[i - 1], steps[i - 1], importer) == Some(states[i]);
      StepOwnIds(states[i - 1], steps[i - 1], importer);
    }
  }

  /** Every row that the run created is complete, with snapshots numbered exactly 1 to its version,
      the newest of which is its content. */
  lemma {:induction false} RunCreates(states: seq<Store>, steps: seq<Step>, importer: Importer, i: nat, a: string)
    requires IsRun(states, steps, importer) && OwnIds(states[0]) && i <= |steps|
    requires a in states[i].entries && a !in states[0].entries
    ensures Complete(states[i].entries[a].version, Snaps(states[i], a)) && states[i].entries[a].version.value >= 1
    ensures Current(states[i].entries[a].content, Snaps(states[i], a))
  {
    hide OwnIds, NewId, StepFrom, Snaps;
    var s, step := states[i - 1], steps[i - 1];
    assert NewId(s, step.id) && StepFrom(s, step, importer) == Some(states[i]);
    RunOwnIds(states, steps, importer, i - 1);
    if a in s.entries {
      RunCreates(states, steps, importer, i - 1, a);
      StepRow(s, step, importer, a);
    } else {
      StepNew(s, step, importer, a);
    }
  }

  // --- what holds over any run ---

  /** How many versions of a row came before its first snapshot. */
  function Untracked(s: Store, slug: string): int
    requires slug in s.entries && s.entries[slug].version.Some?
  {
    s.entries[slug].version.value - |Snaps(s, slug)|
  }

  ghost predicate TrackedIn(s: Store, slug: string) {
    slug in s.entries && Tracked(s.entries[slug].version, Snaps(s, slug))
  }

  ghost predicate CurrentIn(s: Store, slug: string) {
    slug in s.entries && Current(s.entries[slug].content, Snaps(s, slug))
  }

  /** The row's version is known and its snapshots lead up to it. */
  ghost predicate LeadsUp(s: Store, slug: string) {
    slug in s.entries && s.entries[slug].version.Some? && UpTo(Snaps(s, slug), s.entries[slug].version.value)
  }

  lemma {:induction false} LeadsUpAfter(
    was: Entry, before: seq<Snapshot>, now: Entry, after: seq<Snapshot>, n: nat, importer: Importer)
    requires Updated(was, before, now, after, n, importer)
    ensures now.version.Some? && UpTo(after, now.version.value) <==>
            && was.version.Some? && UpTo(before, was.version.value)
            && (importer.Tools? || was.version.value >= 1 || was.version.value + n <= 0)
  {
    if was.version.Some? {
      var v := was.version.value;
      assert forall k | 0 <= k < |before| :: after[k] == after[..|before|][k];
      if UpTo(before, v) && (importer.Tools? || v >= 1 || v + n <= 0) {
        forall k | 0 <= k < |after|
          ensures after[k].number == v + n - |after| + 1 + k
        {
          if k >= |before| {
            assert Some(after[|before| + (k - |before|)].number) ==
              NextNumber(VersionAfter(was.version, k - |before|), importer);
          }
        }
      }
      if importer.Agents? && v <= 0 < v + n {
        var k := -v;
        assert Some(after[|before| + k].number) == NextNumber(VersionAfter(was.version, k), importer);
        assert after[|before| + k].number == 2;
        assert !UpTo(after, v + n);
      }
    }
  }

  /** Over any run, the snapshots of a row lead up to its version at the end if and only if they did
      so at the start, its version was known, and - for agents - it was not updated at version 0. */
  lemma {:induction false} RunLeadsUpIff(states: seq<Store>, steps: seq<Step>, importer: Importer, i: nat, a: string)
    requires IsRun(states, steps, importer) && OwnIds(states[0]) && i <= |steps| && a in states[0].entries
    ensures LeadsUp(states[i], a) <==>
            && LeadsUp(states[0], a)
            && (importer.Tools? || states[0].entries[a].version.value >= 1 ||
                states[0].entries[a].version.value + HitCount(steps[..i], a) <= 0)
  {
    hide OwnIds, Snaps, Updated, UpTo, NewId, StepFrom;
    RunRow(states, steps, importer, i, a);
    LeadsUpAfter(states[0].entries[a], Snaps(states[0], a), states[i].entries[a], Snaps(states[i], a),
      HitCount(steps[..i], a), importer);
    UpdatedVersion(states[0].entries[a], Snaps(states[0], a), states[i].entries[a], Snaps(states[i], a),
      HitCount(steps[..i], a), importer);
  }

  lemma {:induction false} UpdatedVersion(
    was: Entry, before: seq<Snapshot>, now: Entry, after: seq<Snapshot>, n: nat, importer: Importer)
    requires Updated(was, before, now, after, n, importer)
    ensures now.id == was.id && now.version == VersionAfter(was.version, n) && |after| == |before| + n
    ensures n == 0 ==> after == before && now.content == was.content
    ensures Current(was.content, before) || n > 0 ==> Current(now.content, after)
  {
    if n == 0 {
      assert after[..|before|] == after;
    }
  }

  /** A row that is tracked stays so, with as many versions missing before its first snapshot; one
      that is current stays so, and every row is after an update. */
  lemma {:induction false} RunKeeps(states: seq<Store>, steps: seq<Step>, importer: Importer, i: nat, a: string)
    requires IsRun(states, steps, importer) && OwnIds(states[0]) && i <= |steps| && a in states[0].entries
    ensures a in states[i].entries && states[i].entries[a].id == states[0].entries[a].id
    ensures TrackedIn(states[0], a) ==> TrackedIn(states[i], a) && Untracked(states[i], a) == Untracked(states[0], a)
    ensures CurrentIn(states[0], a) || HitCount(steps[..i], a) > 0 ==> CurrentIn(states[i], a)
  {
    RunRow(states, steps, importer, i, a);
    RunLeadsUpIff(states, steps, importer, i, a);
    hide OwnIds, IsRun, Snaps, Updated, UpTo, HitCount;
    UpdatedVersion(states[0].entries[a], Snaps(states[0], a), states[i].entries[a], Snaps(states[i], a),
      HitCount(steps[..i], a), importer);
  }

  /** An agent template whose version is NULL never gets one: over any run, every update appends one
      more snapshot, numbered 2. */
  lemma {:induction false} NullStays(states: seq<Store>, steps: seq<Step>, i: nat, a: string)
    requires IsRun(states, steps, Agents) && OwnIds(states[0]) && i <= |steps| && NullIn(states[0], a)
    ensures NullIn(states[i], a)
    ensures var before, after := Snaps(states[0], a), Snaps(states[i], a);
            && |after| == |before| + HitCount(steps[..i], a) && after[..|before|] == before
            && forall k | |before| <= k < |after| :: after[k].number == 2
  {
    hide OwnIds, Snaps, HitCount, NewId, StepFrom;
    RunRow(states, steps, Agents, i, a);
    var before, after := Snaps(states[0], a), Snaps(states[i], a);
    forall k | |before| <= k < |after|
      ensures after[k].number == 2
    {
      assert Some(after[|before| + (k - |before|)].number) == NextNumber(VersionAfter(None, k - |before|), Agents);
    }
  }

  // --- whole imports ---

  lemma {:induction false} StillNew(s: Store, step: Step, importer: Importer, id: string)
    requires NewId(s, id) && id != step.id && StepFrom(s, step, importer).Some?
    ensures NewId(StepFrom(s, step, importer).value, id)
  {
    var t := StepFrom(s, step, importer).value;
    if t != s {
      assert t.snapshots[..|s.snapshots|] == s.snapshots;
      forall k | 0 <= k < |t.snapshots|
        ensures t.snapshots[k].owner != id
      {
        if k < |s.snapshots| {
          assert t.snapshots[k] == s.snapshots[k];
        }
      }
    }
  }

  /** The steps of a whole import. */
  function StepsOf(items: seq<Item>, newIds: seq<string>, stubs: bool): (steps: seq<Step>)
    requires |newIds| >= |items|
    ensures |steps| == |items|
  {
    seq(|items|, i requires 0 <= i < |items| => if stubs then Stubbing(items[i], newIds[i])
      else Upserting(items[i], newIds[i]))
  }

  ghost predicate ImportIs(s: Store, items: seq<Item>, newIds: seq<string>, stubs: bool, importer: Importer, t: Store)
    requires |newIds| >= |items|
  {
    if stubs then t == AddStubs(s, items, newIds) else Some(t) == ImportAll(s, items, newIds, importer)
  }

  function StepOf(item: Item, id: string, stubs: bool): Step {
    if stubs then Stubbing(item, id) else Upserting(item, id)
  }

  lemma {:induction false} StepsSnoc(items: seq<Item>, newIds: seq<string>, stubs: bool)
    requires items != [] && |newIds| >= |items|
    ensures var n := |items| - 1;
            StepsOf(items, newIds, stubs) == StepsOf(items[..n], newIds, stubs) + [StepOf(items[n], newIds[n], stubs)]
  {
  }

  lemma {:induction false} RunSnoc(states: seq<Store>, steps: seq<Step>, importer: Importer, step: Step, t: Store)
    requires IsRun(states, steps, importer) && NewId(states[|steps|], step.id)
    requires StepFrom(states[|steps|], step, importer) == Some(t)
    ensures IsRun(states + [t], steps + [step], importer)
  {
    hide NewId, StepFrom;
  }

  lemma {:induction false} ImportIsSnoc(
      s: Store, items: seq<Item>, newIds: seq<string>, stubs: bool, importer: Importer, mid: Store, t: Store)
    requires items != [] && |newIds| >= |items| && ImportIs(s, items[..|items| - 1], newIds, stubs, importer, mid)
    requires StepFrom(mid, StepOf(items[|items| - 1], newIds[|items| - 1], stubs), importer) == Some(t)
    ensures ImportIs(s, items, newIds, stubs, importer, t)
  {
    hide Upsert, AddStub;
  }

  ghost predicate NewFrom(s: Store, newIds: seq<string>, n: nat) {
    forall i | n <= i < |newIds| :: NewId(s, newIds[i])
  }

  lemma {:induction false} NewFromStep(s: Store, step: Step, importer: Importer, newIds: seq<string>, n: nat)
    requires n < |newIds| && Distinct(newIds) && step.id == newIds[n] && NewFrom(s, newIds, n)
    requires StepFrom(s, step, importer).Some?
    ensures NewFrom(StepFrom(s, step, importer).value, newIds, n + 1)
  {
    hide NewId, StepFrom;
    forall i | n + 1 <= i < |newIds|
      ensures NewId(StepFrom(s, step, importer).value, newIds[i])
    {
      StillNew(s, step, importer, newIds[i]);
    }
  }

  /** Every sequence of stubs, and every import that does not raise - none of agents does, one of
      tools if it comes to no NULL version - is a run, so that all that holds over runs holds after it. */
  lemma {:induction false} ImportIsRun(s: Store, items: seq<Item>, newIds: seq<string>, stubs: bool, importer: Importer)
    returns (states: seq<Store>)
    requires |newIds| >= |items| && OwnIds(s) && Distinct(newIds) && NewFrom(s, newIds, 0)
    requires stubs || ImportAll(s, items, newIds, importer).Some?
    ensures IsRun(states, StepsOf(items, newIds, stubs), importer) && states[0] == s
    ensures ImportIs(s, items, newIds, stubs, importer, states[|items|])
    ensures OwnIds(states[|items|]) && NewFrom(states[|items|], newIds, |items|)
    decreases |items|
  {
    hide OwnIds, NewId, Upsert, AddStub;
    if items == [] {
      states := [s];
    } else {
      var n := |items| - 1;
      var earlier := ImportIsRun(s, items[..n], newIds, stubs, importer);
      var mid, step := earlier[n], StepOf(items[n], newIds[n], stubs);
      assert StepFrom(mid, step, importer).Some?;
      hide IsRun, ImportIs, ImportAll, StepFrom;
      StepOwnIds(mid, step, importer);
      var t := StepFrom(mid, step, importer).value;
      states := earlier + [t];
      StepsSnoc(items, newIds, stubs);
      RunSnoc(earlier, StepsOf(items[..n], newIds, stubs), importer, step, t);
      ImportIsSnoc(s, items, newIds, stubs, importer, mid, t);
      NewFromStep(mid, step, importer, newIds, n);
    }
  }
}
