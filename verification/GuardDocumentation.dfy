/** What the documentation of backend/scripts/guard_llm_success.py promises, and where the checker
    differs from it. */
module GuardDocumentation {
  import opened LlmGuard
  import opened Wrappers

  // --- the documented rule ---

  /** The content keys that are documented; the checker knows two more. */
  const DOCUMENTED_KEYS: set<string> := {"response", "content"}

  /** A success access, a call of a guard function, or the None test. */
  predicate CountsAsGuard(e: Event, v: string) {
    e == Guarded(v) || e == Normalized(v) || e == NoneTested(v)
  }

  /** A read of a documented key, or loading the bare result as JSON. */
  predicate CountsAsRead(e: Event) {
    e.Loaded? || (e.Read? && e.key in DOCUMENTED_KEYS)
  }

  /** Some assignment of a router result to `v` among the first `n` events has no documented guard
      after it. */
  ghost predicate Open(events: seq<Event>, n: nat, v: string)
    requires n <= |events|
  {
    exists j | 0 <= j < n :: events[j] == Assigned(v) && forall k | j < k < n :: !CountsAsGuard(events[k], v)
  }

  /** A read that the documented rule forbids. */
  ghost predicate Forbidden(events: seq<Event>, i: nat)
    requires i < |events|
  {
    CountsAsRead(events[i]) && Open(events, i, events[i].v)
  }

  ghost function ForbiddenUpTo(events: seq<Event>, n: nat): seq<Violation>
    requires n <= |events|
  {
    if n == 0 then []
    else ForbiddenUpTo(events, n - 1) +
         if Forbidden(events, n - 1) then [Violation(events[n - 1].line, events[n - 1].v)] else []
  }

  /** What the documented rule reports. */
  ghost function DocumentedReport(events: seq<Event>): seq<Violation> {
    ForbiddenUpTo(events, |events|)
  }

  lemma {:induction false} ForbiddenAre(events: seq<Event>, n: nat, x: Violation)
    requires n <= |events|
    ensures x in ForbiddenUpTo(events, n) <==>
            exists i | 0 <= i < n :: Forbidden(events, i) && x == Violation(events[i].line, events[i].v)
  {
    hide Forbidden;
    if n > 0 {
      ForbiddenAre(events, n - 1, x);
    }
  }

  // --- where the checker differs ---

  /** A forbidden read that the checker misses: loading the result with no documented guard. */
  ghost predicate MissedLoad(events: seq<Event>, i: nat)
    requires i < |events|
  {
    events[i].Loaded? && Open(events, i, events[i].v)
  }

  /** A read that the checker reports against the documentation: of a key it does not name, or where
      a documented guard that is no success access stands behind every unguarded assignment. */
  ghost predicate ExtraRead(events: seq<Event>, i: nat)
    requires i < |events|
  {
    events[i].Read? && Unguarded(events, i, events[i].v) &&
    (events[i].key !in DOCUMENTED_KEYS ||
     forall j | 0 <= j < i && events[j] == Assigned(events[i].v) && Unchecked(events, j, i, events[i].v) ::
       SoftlyGuarded(events, j, i, events[i].v))
  }

  /** No success access between the two. */
  ghost predicate Unchecked(events: seq<Event>, j: nat, i: nat, v: string)
    requires j < i <= |events|
  {
    forall k | j < k < i :: events[k] != Guarded(v)
  }

  /** A normalizing call or None test between the two. */
  ghost predicate SoftlyGuarded(events: seq<Event>, j: nat, i: nat, v: string)
    requires j < i <= |events|
  {
    exists k | j < k < i :: events[k] == Normalized(v) || events[k] == NoneTested(v)
  }

  lemma {:induction false} UnguardedSince(events: seq<Event>, j: nat, i: nat, v: string)
    requires j < i <= |events|
    ensures (forall k | j < k < i :: !CountsAsGuard(events[k], v)) <==>
            Unchecked(events, j, i, v) && !SoftlyGuarded(events, j, i, v)
  {
    assert forall k | j < k < i :: CountsAsGuard(events[k], v) <==>
                                   events[k] == Guarded(v) || events[k] == Normalized(v) || events[k] == NoneTested(v);
  }

  lemma {:induction false} OpenIff(events: seq<Event>, i: nat, v: string)
    requires i <= |events|
    ensures Open(events, i, v) <==>
            exists j | 0 <= j < i ::
              events[j] == Assigned(v) && Unchecked(events, j, i, v) && !SoftlyGuarded(events, j, i, v)
    ensures Unguarded(events, i, v) <==> exists j | 0 <= j < i :: events[j] == Assigned(v) && Unchecked(events, j, i, v)
  {
    forall j: nat | 0 <= j < i
      ensures Unchecked(events, j, i, v) <==> forall k | j < k < i :: events[k] != Guarded(v)
      ensures (forall k | j < k < i :: !CountsAsGuard(events[k], v)) <==>
              Unchecked(events, j, i, v) && !SoftlyGuarded(events, j, i, v)
    {
      UnguardedSince(events, j, i, v);
    }
    hide Unchecked, SoftlyGuarded, CountsAsGuard;
  }

  lemma {:induction false} OpenIsUnguarded(events: seq<Event>, n: nat, v: string)
    requires n <= |events| && Open(events, n, v)
    ensures Unguarded(events, n, v)
  {
    var j :| 0 <= j < n && events[j] == Assigned(v) && forall k | j < k < n :: !CountsAsGuard(events[k], v);
    assert forall k | j < k < n :: CountsAsGuard(events[k], v) || events[k] != Guarded(v);
  }

  /** The reads that the checker misses are exactly the loads of an unguarded result. */
  lemma {:induction false} MissedIff(events: seq<Event>, i: nat)
    requires i < |events|
    ensures Forbidden(events, i) && !Exposed(events, i) <==> MissedLoad(events, i)
  {
    hide Open, Unguarded;
    if Open(events, i, events[i].v) {
      OpenIsUnguarded(events, i, events[i].v);
    }
  }

  /** The reads that it reports beyond the documentation are exactly the extra ones. */
  lemma {:induction false} ExtraIff(events: seq<Event>, i: nat)
    requires i < |events|
    ensures Exposed(events, i) && !Forbidden(events, i) <==> ExtraRead(events, i)
  {
    if events[i].Read? {
      OpenIff(events, i, events[i].v);
      hide Open, Unguarded, Unchecked, SoftlyGuarded;
    }
  }

  /** Both ways: what the documented rule reports and the checker does not is a load it misses, and
      what only the checker reports is an extra read. */
  lemma {:induction false} ReportsCompared(events: seq<Event>, x: Violation)
    ensures x in DocumentedReport(events) ==>
              || x in Reported(events)
              || exists i | 0 <= i < |events| :: MissedLoad(events, i) && x == Violation(events[i].line, events[i].v)
    ensures x in Reported(events) ==>
              || x in DocumentedReport(events)
              || exists i | 0 <= i < |events| :: ExtraRead(events, i) && x == Violation(events[i].line, events[i].v)
  {
    ForbiddenAre(events, |events|, x);
    ReportedAre(events, |events|, x);
    hide Forbidden, Exposed, ForbiddenUpTo, ReportedUpTo, MissedLoad, ExtraRead;
    if x in DocumentedReport(events) && x !in Reported(events) {
      var i :| 0 <= i < |events| && Forbidden(events, i) && x == Violation(events[i].line, events[i].v);
      MissedIff(events, i);
    }
    if x in Reported(events) && x !in DocumentedReport(events) {
      var i :| 0 <= i < |events| && Exposed(events, i) && x == Violation(events[i].line, events[i].v);
      ExtraIff(events, i);
    }
  }

  /** The same reads are reported. */
  ghost predicate SameReads(events: seq<Event>) {
    forall i | 0 <= i < |events| :: Exposed(events, i) <==> Forbidden(events, i)
  }

  /** The checker reports exactly the reads that the documented rule forbids if and only if no
      unguarded result is loaded as JSON, no unguarded one is read under an undocumented key, and no
      read has only a normalizing call or None test for a guard. */
  lemma {:induction false} SameReadsIff(events: seq<Event>)
    ensures SameReads(events) <==> forall i | 0 <= i < |events| :: !MissedLoad(events, i) && !ExtraRead(events, i)
    ensures SameReads(events) ==> Reported(events) == DocumentedReport(events)
  {
    hide Exposed, Forbidden, MissedLoad, ExtraRead;
    forall i | 0 <= i < |events|
      ensures Forbidden(events, i) && !Exposed(events, i) <==> MissedLoad(events, i)
      ensures Exposed(events, i) && !Forbidden(events, i) <==> ExtraRead(events, i)
    {
      MissedIff(events, i);
      ExtraIff(events, i);
    }
    if SameReads(events) {
      SameUpTo(events, |events|);
    }
  }

  lemma {:induction false} SameUpTo(events: seq<Event>, n: nat)
    requires n <= |events| && SameReads(events)
    ensures ReportedUpTo(events, n) == ForbiddenUpTo(events, n)
  {
    hide Forbidden;
    if n > 0 {
      SameUpTo(events, n - 1);
      assert Exposed(events, n - 1) <==> Forbidden(events, n - 1);
    }
  }

  /** A variable is read at most once on a line. */
  ghost predicate OneReadPerLine(events: seq<Event>) {
    forall i, j | 0 <= i < j < |events| && IsRead(events[i]) && IsRead(events[j]) ::
      events[i].v != events[j].v || events[i].line != events[j].line
  }

  predicate IsRead(e: Event) {
    e.Read? || e.Loaded?
  }

  /** Where a report tells its reads apart, the two reports are equal under just that condition. */
  lemma {:induction false} SameReportIff(events: seq<Event>)
    requires OneReadPerLine(events)
    ensures Reported(events) == DocumentedReport(events) <==>
            forall i | 0 <= i < |events| :: !MissedLoad(events, i) && !ExtraRead(events, i)
  {
    SameReadsIff(events);
    if Reported(events) == DocumentedReport(events) {
      forall i | 0 <= i < |events|
        ensures Exposed(events, i) <==> Forbidden(events, i)
      {
        if IsRead(events[i]) {
          ReadAlone(events, i);
        }
      }
    }
  }

  /** On such events a read is reported exactly when its violation is in the report. */
  lemma {:induction false} ReadAlone(events: seq<Event>, i: nat)
    requires OneReadPerLine(events) && i < |events| && IsRead(events[i])
    ensures Exposed(events, i) <==> Violation(events[i].line, events[i].v) in Reported(events)
    ensures Forbidden(events, i) <==> Violation(events[i].line, events[i].v) in DocumentedReport(events)
  {
    var x := Violation(events[i].line, events[i].v);
    ReportedAre(events, |events|, x);
    ForbiddenAre(events, |events|, x);
    hide Open, Unguarded, ReportedUpTo, ForbiddenUpTo;
    forall j | 0 <= j < |events| && IsRead(events[j]) && x == Violation(events[j].line, events[j].v)
      ensures j == i
    {
    }
  }

  // --- inputs on which they differ ---

  /** Nothing happens to `r` but guards, of whatever kind. */
  ghost predicate OnlyGuards(events: seq<Event>, r: string) {
    forall e | e in events && e.v == r :: e.Guarded? || e.Normalized? || e.NoneTested?
  }

  /** The only read of a variable is reported exactly when its violation is in the report. */
  lemma {:induction false} OnlyReadReported(events: seq<Event>, n: nat)
    requires n < |events| && IsRead(events[n])
    requires forall i | 0 <= i < |events| && IsRead(events[i]) && events[i].v == events[n].v :: i == n
    ensures Violation(events[n].line, events[n].v) in Reported(events) <==> Exposed(events, n)
    ensures Violation(events[n].line, events[n].v) in DocumentedReport(events) <==> Forbidden(events, n)
  {
    var x := Violation(events[n].line, events[n].v);
    ReportedAre(events, |events|, x);
    ForbiddenAre(events, |events|, x);
    hide Unguarded, Open, ReportedUpTo, ForbiddenUpTo;
  }

  lemma {:induction false} BetweenAt(r: string, between: seq<Event>, last: Event, k: nat)
    requires 1 <= k <= |between|
    ensures ([Assigned(r)] + between + [last])[k] == between[k - 1] && between[k - 1] in between
  {
  }

  /** What holds between the first and the last event. */
  lemma {:induction false} BetweenSays(r: string, between: seq<Event>, last: Event, p: Event -> bool)
    ensures var events := [Assigned(r)] + between + [last];
            (forall k | 1 <= k < |between| + 1 :: p(events[k])) <==> forall e | e in between :: p(e)
  {
    var events := [Assigned(r)] + between + [last];
    forall k | 1 <= k < |between| + 1
      ensures events[k] == between[k - 1] && between[k - 1] in between
    {
      BetweenAt(r, between, last, k);
    }
    if forall k | 1 <= k < |between| + 1 :: p(events[k]) {
      forall e | e in between
        ensures p(e)
      {
        var k :| 0 <= k < |between| && between[k] == e;
        assert p(events[k + 1]);
      }
    }
  }

  lemma {:induction false} LastReadAlone(r: string, between: seq<Event>, last: Event)
    requires OnlyGuards(between, r) && IsRead(last) && last.v == r
    ensures var events := [Assigned(r)] + between + [last];
            forall i | 0 <= i < |events| && IsRead(events[i]) && events[i].v == r :: i == |between| + 1
  {
    var events := [Assigned(r)] + between + [last];
    forall k | 1 <= k < |between| + 1
      ensures events[k] in between
    {
      BetweenAt(r, between, last, k);
    }
    assert events[0] == Assigned(r);
  }

  /** An assignment, guards, and one read or load of the result at the end. */
  lemma {:induction false} LastReadDecides(r: string, between: seq<Event>, last: Event)
    requires OnlyGuards(between, r) && IsRead(last) && last.v == r
    ensures var events := [Assigned(r)] + between + [last];
            && (Violation(last.line, r) in Reported(events) <==> last.Read? && Guarded(r) !in between)
            && (Violation(last.line, r) in DocumentedReport(events) <==>
                CountsAsRead(last) && forall e | e in between :: !CountsAsGuard(e, r))
  {
    var events, n := [Assigned(r)] + between + [last], |between| + 1;
    assert events[0] == Assigned(r) && events[n] == last;
    BetweenSays(r, between, last, (e: Event) => e != Assigned(r));
    BetweenSays(r, between, last, (e: Event) => e != Guarded(r));
    BetweenSays(r, between, last, (e: Event) => !CountsAsGuard(e, r));
    LastReadAlone(r, between, last);
    assert forall e | e in between :: e != Assigned(r);
    hide Reported, DocumentedReport, Unguarded, Open, CountsAsGuard, CountsAsRead, OnlyGuards;
    OnlyReadReported(events, n);
    FirstDecides(events, n, r);
  }

  lemma {:induction false} FirstDecides(events: seq<Event>, n: nat, r: string)
    requires 1 <= n <= |events| && events[0] == Assigned(r)
    requires forall k | 1 <= k < n :: events[k] != Assigned(r)
    ensures Unguarded(events, n, r) <==> forall k | 1 <= k < n :: events[k] != Guarded(r)
    ensures Open(events, n, r) <==> forall k | 1 <= k < n :: !CountsAsGuard(events[k], r)
  {
  }

  lemma {:induction false} NoChildren(node: Node)
    requires node.Name? || node.Text?
    ensures Events(node) == []
  {
  }

  /** A node whose children are all names and texts. */
  predicate HasLeaves(node: Node) {
    forall i | 0 <= i < |Children(node)| :: Children(node)[i].Name? || Children(node)[i].Text?
  }

  lemma {:induction false} LeafChildren(node: Node)
    requires HasLeaves(node)
    ensures Events(node) == Listed(EventOf(node))
  {
    hide Children, EventOf;
    LeavesUpTo(node, |Children(node)|);
  }

  lemma {:induction false} LeavesUpTo(node: Node, n: nat)
    requires n <= |Children(node)| && HasLeaves(node)
    ensures EventsOfChildren(node, n) == []
  {
    hide Children, Events;
    if n > 0 {
      LeavesUpTo(node, n - 1);
      NoChildren(Children(node)[n - 1]);
    }
  }

  lemma {:induction false} TwoChildren(node: Node)
    requires |Children(node)| == 2
    ensures Events(node) == Listed(EventOf(node)) + (Events(Children(node)[0]) + Events(Children(node)[1]))
  {
    hide Children, EventOf;
    assert EventsOfChildren(node, 0) == [];
    assert EventsOfChildren(node, 1) == Events(Children(node)[0]);
  }

  lemma {:induction false} ThreeChildren(node: Node)
    requires |Children(node)| == 3
    ensures Events(node) ==
            Listed(EventOf(node)) + (Events(Children(node)[0]) + Events(Children(node)[1]) + Events(Children(node)[2]))
  {
    hide Children, EventOf;
    assert EventsOfChildren(node, 0) == [];
    assert EventsOfChildren(node, 1) == Events(Children(node)[0]);
    assert EventsOfChildren(node, 2) == Events(Children(node)[0]) + Events(Children(node)[1]);
  }

  /** `r = await call`. */
  function AssignResult(r: string, call: Node): Node {
    Assign([Name(r)], Await(call))
  }

  /** A router call whose arguments do not speak of `r`. */
  ghost predicate CallsRouter(call: Node, r: string) {
    call.Call? && CallIsRouter(call.func) && forall e | e in Events(call) :: e.v != r
  }

  lemma {:induction false} AssignEvents(r: string, call: Node)
    requires call.Call? && CallIsRouter(call.func)
    ensures Events(AssignResult(r, call)) == [Assigned(r)] + Events(call)
  {
    hide Events;
    var node, wait := AssignResult(r, call), Await(call);
    assert Events(wait) == Events(call) by {
      AwaitEvents(call);
    }
    NoChildren(Name(r));
    assert Children(node) == [Name(r), wait];
    TwoChildren(node);
    assert EventOf(node) == Some(Assigned(r));
  }

  lemma {:induction false} AwaitEvents(call: Node)
    ensures Events(Await(call)) == Events(call)
  {
    assert EventsOfChildren(Await(call), 0) == [] && EventsOfChildren(Await(call), 1) == Events(call);
  }

  /** A function that assigns a router result, runs one statement and reads the result. */
  function ReadAfter(r: string, call: Node, check: Node, key: string, line: nat): Node {
    Function([AssignResult(r, call), check, Attribute(line, Name(r), key)])
  }

  lemma {:induction false} ReadAfterDecides(r: string, call: Node, check: Node, key: string, line: nat)
    requires CallsRouter(call, r) && OnlyGuards(Events(check), r) && key in CONTENT_KEYS
    ensures var events := Events(ReadAfter(r, call, check, key, line));
            && (Violation(line, r) in Reported(events) <==> Guarded(r) !in Events(check))
            && (Violation(line, r) in DocumentedReport(events) <==>
                key in DOCUMENTED_KEYS && forall e | e in Events(check) :: !CountsAsGuard(e, r))
  {
    hide Events, Reported, DocumentedReport, CONTENT_KEYS, DOCUMENTED_KEYS;
    var f, read := ReadAfter(r, call, check, key, line), Attribute(line, Name(r), key);
    AssignEvents(r, call);
    ReadEvents(r, key, line);
    assert Children(f) == [AssignResult(r, call), check, read] && EventOf(f) == None;
    ThreeChildren(f);
    var between := Events(call) + Events(check);
    assert Events(f) == [Assigned(r)] + between + [Read(r, line, key)];
    LastReadDecides(r, between, Read(r, line, key));
  }

  lemma {:induction false} ReadEvents(r: string, key: string, line: nat)
    requires key in CONTENT_KEYS
    ensures Events(Attribute(line, Name(r), key)) == [Read(r, line, key)]
  {
    hide Events;
    LeafChildren(Attribute(line, Name(r), key));
  }

  /** The recommended pattern - assign, normalize, read - is reported against the documentation,
      whatever the names, unless the variable is itself called like the guard function. */
  lemma {:induction false} RecommendedPatternReported(r: string, call: Node, guard: string, key: string, line: nat)
    requires CallsRouter(call, r) && guard in GUARD_FUNCS && key in CONTENT_KEYS
    ensures var events := Events(ReadAfter(r, call, Call(line, Name(guard), [Name(r)], []), key, line));
            && (Violation(line, r) in Reported(events) <==> r != guard)
            && Violation(line, r) !in DocumentedReport(events)
  {
    var check := Call(line, Name(guard), [Name(r)], []);
    LeafChildren(check);
    hide Events, CallsRouter;
    var e := if r == guard then Guarded(r) else Normalized(r);
    assert Events(check) == [e];
    ReadAfterDecides(r, call, check, key, line);
    assert e in Events(check) && CountsAsGuard(e, r);
  }

  lemma {:induction false} NoneTestEvents(r: string, branch: Node)
    ensures Events(If(Not(Name(r)), [branch], [])) == [NoneTested(r)] + Events(branch)
  {
    var check := If(Not(Name(r)), [branch], []);
    LeafChildren(Not(Name(r)));
    hide Events;
    assert Children(check) == [Not(Name(r)), branch] && EventOf(check) == Some(NoneTested(r));
    TwoChildren(check);
  }

  const LOADS: string := "loads"

  /** `json.loads(r)`. */
  function LoadCall(r: string, line: nat): Node {
    Call(line, Attribute(line, Name("json"), LOADS), [Name(r)], [])
  }

  lemma {:induction false} LoadedEvent(r: string, line: nat)
    ensures EventOf(LoadCall(r, line)) == Some(Loaded(r, line))
  {
    hide Events, Children;
    assert |LOADS| != |"get"|;
  }

  lemma {:induction false} LoadEvents(r: string, line: nat)
    ensures Events(LoadCall(r, line)) == [Loaded(r, line)]
  {
    var loads := Attribute(line, Name("json"), LOADS);
    LoadedEvent(r, line);
    assert EventOf(loads) == None;
    LeafChildren(loads);
    NoChildren(Name(r));
    assert Children(LoadCall(r, line)) == [loads, Name(r)];
    hide Events, EventOf, Children, LoadCall;
    TwoChildren(LoadCall(r, line));
  }

  /** So is a read behind `if not r: ...`, whatever is done there that does not read `r`. */
  lemma {:induction false} NoneTestIgnored(r: string, call: Node, branch: Node, key: string, line: nat)
    requires CallsRouter(call, r) && key in CONTENT_KEYS && forall e | e in Events(branch) :: e.v != r
    ensures var events := Events(ReadAfter(r, call, If(Not(Name(r)), [branch], []), key, line));
            && Violation(line, r) in Reported(events)
            && Violation(line, r) !in DocumentedReport(events)
  {
    hide CallsRouter, Events;
    var check := If(Not(Name(r)), [branch], []);
    NoneTestEvents(r, branch);
    ReadAfterDecides(r, call, check, key, line);
    assert NoneTested(r) in Events(check) && CountsAsGuard(NoneTested(r), r);
  }

  /** A read under a key that the documentation does not name is reported as well. */
  lemma {:induction false} OtherKeyReported(r: string, call: Node, check: Node, key: string, line: nat)
    requires CallsRouter(call, r) && forall e | e in Events(check) :: e.v != r
    requires key in CONTENT_KEYS - DOCUMENTED_KEYS
    ensures var events := Events(ReadAfter(r, call, check, key, line));
            Violation(line, r) in Reported(events) && Violation(line, r) !in DocumentedReport(events)
  {
    hide Events, CallsRouter;
    ReadAfterDecides(r, call, check, key, line);
  }

  /** `json.loads(r)` on an unguarded result is never reported, although it is documented to be. */
  lemma {:induction false} LoadMissed(r: string, call: Node, line: nat)
    requires CallsRouter(call, r)
    ensures var events := Events(Function([AssignResult(r, call), LoadCall(r, line)]));
            && Violation(line, r) !in Reported(events)
            && Violation(line, r) in DocumentedReport(events)
  {
    hide Events, Reported, DocumentedReport;
    var load := LoadCall(r, line);
    var f := Function([AssignResult(r, call), load]);
    AssignEvents(r, call);
    LoadEvents(r, line);
    assert Children(f) == [AssignResult(r, call), load] && EventOf(f) == None;
    TwoChildren(f);
    assert Events(f) == [Assigned(r)] + Events(call) + [Loaded(r, line)];
    LastReadDecides(r, Events(call), Loaded(r, line));
  }
}
