/** The promises of backend/scripts/seed_capability_deps.py - dependencies go both ways, agents that
    share tools prefer each other, a second run adds nothing - and when the cap keeps them. */
module DependencyPromises {
  import opened CapabilityDeps
  import opened DependencyCap
  import opened Seqs
  import opened Wrappers

  // --- both directions ---

  function Reversed(e: Edge): Edge {
    Edge(e.target, e.source, e.kind)
  }

  lemma {:induction false} WantedBothWays(tools: Toolbox, catalog: set<string>, a: string, b: string)
    ensures Wanted(tools, catalog, a, b) == Wanted(tools, catalog, b, a)
  {
    hide Domain, Cap;
    if a in tools && b in tools {
      assert tools[a] * tools[b] == tools[b] * tools[a];
    }
  }

  /** The uncapped graph goes both ways. */
  lemma {:induction false} InferredBothWays(deps: seq<Edge>, tools: Toolbox, catalog: set<string>, e: Edge)
    requires Inferred(deps, tools, catalog) && e in deps
    ensures Reversed(e) in deps
  {
    hide Wanted, Cap, Agent;
    assert Right(tools, catalog, e);
    WantedBothWays(tools, catalog, Agent(e.source), Agent(e.target));
    assert Right(tools, catalog, Reversed(e));
  }

  /** An edge of a source with at most ten is kept. */
  lemma {:induction false} KeptWithinCap(deps: seq<Edge>, tools: Toolbox, catalog: set<string>, e: Edge)
    requires Inferred(deps, tools, catalog) && e in deps
    requires |WantedBy(tools, catalog, Agent(e.source))| <= MAX_DEPS_PER_AGENT
    ensures e in Capped(deps)
  {
    assert Right(tools, catalog, e);
    hide WantedBy, Capped, Filter, Cap, Agent, Wanted;
    OutDegree(deps, tools, catalog, Agent(e.source));
    CapKeepsFirst(deps, e.source);
    FilterMembers(deps, From(e.source));
    FilterMembers(Capped(deps), From(e.source));
    var all := OutEdges(deps, e.source);
    assert all[..|all|] == all;
  }

  lemma {:induction false} BehindFirst(deps: seq<Edge>, cap: string) returns (e: Edge)
    requires Once(deps) && |OutEdges(deps, cap)| > MAX_DEPS_PER_AGENT
    ensures e in deps && e.source == cap && e !in Capped(deps)
  {
    var all := OutEdges(deps, cap);
    e := all[MAX_DEPS_PER_AGENT];
    FilterMembers(deps, From(cap));
    FilterMembers(Capped(deps), From(cap));
    FilterIsSubsequence(deps, From(cap));
    SubsequenceKeeps(all, deps);
    CapKeepsFirst(deps, cap);
    assert e in all;
    assert forall i | 0 <= i < MAX_DEPS_PER_AGENT :: all[i] != e;
  }

  /** The cap can keep one direction only: an agent that is to have more than ten dependencies, on
      agents that are all to have at most ten, loses one whose other direction is kept. */
  lemma {:induction false} OneWayKept(deps: seq<Edge>, tools: Toolbox, catalog: set<string>, a: string)
    requires Inferred(deps, tools, catalog) && |WantedBy(tools, catalog, a)| > MAX_DEPS_PER_AGENT
    requires forall b | b in WantedBy(tools, catalog, a) :: |WantedBy(tools, catalog, b)| <= MAX_DEPS_PER_AGENT
    ensures exists e | e in deps :: e.source == Cap(a) && e !in Capped(deps) && Reversed(e) in Capped(deps)
  {
    OutDegree(deps, tools, catalog, a);
    var e := BehindFirst(deps, Cap(a));
    AgentOfCap(a);
    InferredBothWays(deps, tools, catalog, e);
    assert Right(tools, catalog, e);
    var b := Agent(e.target);
    hide Capped, Cap, Agent, Wanted, Agents, OutEdges, Inferred;
    WantedInCatalog(tools, catalog, a, b);
    assert b in WantedBy(tools, catalog, a);
    KeptWithinCap(deps, tools, catalog, Reversed(e));
  }

  /** The cap keeps every edge, both ways, exactly when no agent is to have more than ten. */
  lemma {:induction false} KeptBothWaysIff(deps: seq<Edge>, tools: Toolbox, catalog: set<string>)
    requires Inferred(deps, tools, catalog)
    ensures (forall e | e in deps :: e in Capped(deps) && Reversed(e) in Capped(deps)) <==>
            forall a :: |WantedBy(tools, catalog, a)| <= MAX_DEPS_PER_AGENT
  {
    hide WantedBy, Capped, Right;
    if forall a :: |WantedBy(tools, catalog, a)| <= MAX_DEPS_PER_AGENT {
      forall e | e in deps
        ensures e in Capped(deps) && Reversed(e) in Capped(deps)
      {
        InferredBothWays(deps, tools, catalog, e);
        KeptWithinCap(deps, tools, catalog, e);
        KeptWithinCap(deps, tools, catalog, Reversed(e));
      }
    } else {
      var a :| |WantedBy(tools, catalog, a)| > MAX_DEPS_PER_AGENT;
      OutDegree(deps, tools, catalog, a);
      var e := BehindFirst(deps, Cap(a));
    }
  }

  // --- agents that share tools ---

  /** Every two agents that share enough tools depend on each other, as preferred. */
  ghost predicate SharersJoined(edges: seq<Edge>, tools: Toolbox, catalog: set<string>) {
    forall a: string, b: string | Wanted(tools, catalog, a, b) == Some(Preferred) :: EdgeOf((a, b), Preferred) in edges
  }

  lemma {:induction false} FilterPrefix<T>(s: seq<T>, n: nat, p: T -> bool)
    requires n <= |s|
    ensures Filter(s[..n], p) <= Filter(s, p)
  {
    assert s == s[..n] + s[n..];
    FilterConcat(s[..n], s[n..], p);
  }

  /** Each source keeps its preferred edges from the first on. */
  lemma {:induction false} PreferredKeptFirst(deps: seq<Edge>, cap: string)
    ensures Filter(Capped(deps), PreferredFrom(cap)) <= Filter(deps, PreferredFrom(cap))
  {
    hide Capped, Filter;
    CapKeepsFirst(deps, cap);
    FilterTwice(deps, cap);
    FilterTwice(Capped(deps), cap);
    FilterPrefix(OutEdges(deps, cap), Min(MAX_DEPS_PER_AGENT, |OutEdges(deps, cap)|), PreferredFrom(cap));
  }

  /** A preferred edge of a source with at most ten preferred ones is kept. */
  lemma {:induction false} PreferredKept(deps: seq<Edge>, tools: Toolbox, catalog: set<string>, a: string, e: Edge)
    requires Inferred(deps, tools, catalog) && e in deps && e.source == Cap(a) && e.kind.Preferred?
    requires |PreferredBy(tools, catalog, a)| <= MAX_DEPS_PER_AGENT
    ensures e in Capped(deps)
  {
    hide Capped, Filter, Cap, PreferredBy, WantedBy, Inferred, OutEdges;
    var p := PreferredFrom(Cap(a));
    OutDegree(deps, tools, catalog, a);
    CappedDegrees(deps, tools, catalog, a);
    PreferredKeptFirst(deps, Cap(a));
    assert Filter(Capped(deps), p) == Filter(deps, p);
    FilterMembers(deps, p);
    FilterMembers(Capped(deps), p);
  }

  /** Of more than ten preferred edges one is dropped. */
  lemma {:induction false} PreferredDropped(
      deps: seq<Edge>, tools: Toolbox, catalog: set<string>, a: string) returns (e: Edge)
    requires Inferred(deps, tools, catalog) && |PreferredBy(tools, catalog, a)| > MAX_DEPS_PER_AGENT
    ensures e in deps && e.source == Cap(a) && e.kind.Preferred? && e !in Capped(deps)
  {
    hide Capped, Filter, Cap, PreferredBy, WantedBy, Right, OutEdges;
    var p := PreferredFrom(Cap(a));
    var all, kept := Filter(deps, p), Filter(Capped(deps), p);
    OutDegree(deps, tools, catalog, a);
    CappedDegrees(deps, tools, catalog, a);
    PreferredKeptFirst(deps, Cap(a));
    FilterMembers(deps, p);
    FilterMembers(Capped(deps), p);
    FilterIsSubsequence(deps, p);
    SubsequenceKeeps(all, deps);
    e := all[MAX_DEPS_PER_AGENT];
    assert e in all;
    assert forall i | 0 <= i < |kept| :: kept[i] == all[i] && all[i] != e;
  }

  /** After the cap every two agents that share enough tools still depend on each other if and only if
      no agent shares them with more than ten others - whatever the order of the loops. */
  lemma {:induction false} SharersJoinedIff(deps: seq<Edge>, tools: Toolbox, catalog: set<string>)
    requires Inferred(deps, tools, catalog)
    ensures SharersJoined(Capped(deps), tools, catalog) <==>
            forall a :: |PreferredBy(tools, catalog, a)| <= MAX_DEPS_PER_AGENT
  {
    hide Capped, PreferredBy, Wanted, Cap, Agent;
    if forall a :: |PreferredBy(tools, catalog, a)| <= MAX_DEPS_PER_AGENT {
      forall a: string, b: string | Wanted(tools, catalog, a, b) == Some(Preferred)
        ensures EdgeOf((a, b), Preferred) in Capped(deps)
      {
        RightEdge(tools, catalog, a, b);
        assert Right(tools, catalog, EdgeOf((a, b), Preferred));
        PreferredKept(deps, tools, catalog, a, EdgeOf((a, b), Preferred));
      }
    } else {
      var a :| |PreferredBy(tools, catalog, a)| > MAX_DEPS_PER_AGENT;
      var e := PreferredDropped(deps, tools, catalog, a);
      assert Right(tools, catalog, e);
      assert EdgeOf((Agent(e.source), Agent(e.target)), Preferred) == e;
    }
  }

  /** `n` different names. */
  function Names(n: nat): (names: set<string>)
    ensures |names| == n
    ensures forall s | s in names :: |s| < n
  {
    if n == 0 then {} else Names(n - 1) + {seq(n - 1, _ => 'x')}
  }

  /** Agents that all use the same two tools, and the catalog of their capabilities. */
  function SameTools(names: set<string>): Toolbox {
    map a | a in names :: {"read", "write"}
  }

  function CatalogOf(names: set<string>): set<string> {
    set a | a in names :: Cap(a)
  }

  lemma {:induction false} InCatalog(names: set<string>, b: string)
    ensures Cap(b) in CatalogOf(names) <==> b in names
    ensures b in Agents(CatalogOf(names)) <==> b in names
  {
    AgentsAre(CatalogOf(names), b);
    AgentOfCap(b);
    hide Cap, Agent, Agents;
    forall c | c in names && Cap(c) == Cap(b)
      ensures c == b
    {
      AgentOfCap(c);
    }
  }

  lemma {:induction false} TwoTools()
    ensures |{"read", "write"} * {"read", "write"}| == 2
  {
    assert |"read"| != |"write"|;
    assert {"read", "write"} * {"read", "write"} == {"read", "write"};
  }

  lemma {:induction false} AllPreferEachOther(names: set<string>, a: string)
    requires a in names
    ensures PreferredBy(SameTools(names), CatalogOf(names), a) == names - {a}
  {
    var tools, catalog := SameTools(names), CatalogOf(names);
    TwoTools();
    InCatalog(names, a);
    hide CatalogOf, Domain, Agents, Cap;
    forall b
      ensures b in PreferredBy(tools, catalog, a) <==> b in names - {a}
    {
      InCatalog(names, b);
    }
  }

  /** Twelve agents with the same two tools do not all keep each other. */
  lemma {:induction false} TwelveSharersLose(deps: seq<Edge>)
    requires Inferred(deps, SameTools(Names(12)), CatalogOf(Names(12)))
    ensures !SharersJoined(Capped(deps), SameTools(Names(12)), CatalogOf(Names(12)))
  {
    hide Names, Inferred, SharersJoined, PreferredBy;
    var names := Names(12);
    assert names != {};
    var a :| a in names;
    AllPreferEachOther(names, a);
    SharersJoinedIff(deps, SameTools(names), CatalogOf(names));
  }

  // --- a second run ---

  /** Whatever the order, the cap keeps nothing that it did not keep of `deps`. */
  ghost predicate KeepsNoOther(deps: seq<Edge>, tools: Toolbox, catalog: set<string>) {
    forall other: seq<Edge> | Inferred(other, tools, catalog) :: KeptIn(other, deps)
  }

  ghost predicate KeptIn(other: seq<Edge>, deps: seq<Edge>) {
    forall e | e in Capped(other) :: e in Capped(deps)
  }

  /** An agent has no choice of what to keep: all, or exactly its preferred ones. */
  predicate NoChoice(tools: Toolbox, catalog: set<string>, a: string) {
    || |WantedBy(tools, catalog, a)| <= MAX_DEPS_PER_AGENT
    || |PreferredBy(tools, catalog, a)| == MAX_DEPS_PER_AGENT
  }

  lemma {:induction false} FilterSameSize<T>(s: seq<T>, p: T -> bool)
    requires |Filter(s, p)| >= |s|
    ensures Filter(s, p) == s
  {
    if s != [] {
      FilterShorter(s[1..], p);
      FilterSameSize(s[1..], p);
    }
  }

  /** With ten preferred edges a source keeps no optional one. */
  lemma {:induction false} OnlyPreferredKept(deps: seq<Edge>, tools: Toolbox, catalog: set<string>, a: string, e: Edge)
    requires Inferred(deps, tools, catalog) && e in Capped(deps) && e.source == Cap(a)
    requires |PreferredBy(tools, catalog, a)| == MAX_DEPS_PER_AGENT
    ensures e.kind.Preferred?
  {
    hide Capped, Filter, Cap, PreferredBy, WantedBy, Inferred;
    CappedDegrees(deps, tools, catalog, a);
    var out := OutEdges(Capped(deps), Cap(a));
    FilterTwice(Capped(deps), Cap(a));
    FilterMembers(Capped(deps), From(Cap(a)));
    FilterMembers(out, PreferredFrom(Cap(a)));
    FilterSameSize(out, PreferredFrom(Cap(a)));
  }

  /** Without a choice every order keeps the same. */
  lemma {:induction false} NoChoiceKeepsSame(
      deps: seq<Edge>, other: seq<Edge>, tools: Toolbox, catalog: set<string>, e: Edge)
    requires Inferred(deps, tools, catalog) && Inferred(other, tools, catalog) && e in Capped(other)
    requires NoChoice(tools, catalog, Agent(e.source))
    ensures e in Capped(deps)
  {
    var a := Agent(e.source);
    CappedIsSubsequence(other);
    SubsequenceKeeps(Capped(other), other);
    assert Right(tools, catalog, e) && e in deps;
    hide Capped, Cap, Agent, Wanted, WantedBy, PreferredBy, Inferred;
    if |WantedBy(tools, catalog, a)| <= MAX_DEPS_PER_AGENT {
      KeptWithinCap(deps, tools, catalog, e);
    } else {
      OnlyPreferredKept(other, tools, catalog, a, e);
      PreferredKept(deps, tools, catalog, a, e);
    }
  }

  /** The edge at `i` moved up to `c`. */
  function MovedUp(deps: seq<Edge>, c: nat, i: nat): seq<Edge>
    requires c <= i < |deps|
  {
    deps[..c] + [deps[i]] + deps[c..i] + deps[i + 1..]
  }

  lemma {:induction false} MovedUpSame(deps: seq<Edge>, c: nat, i: nat)
    requires c <= i < |deps|
    ensures multiset(MovedUp(deps, c, i)) == multiset(deps)
  {
    assert deps == deps[..c] + deps[c..i] + [deps[i]] + deps[i + 1..];
  }

  /** The preferred edges end at `c`. */
  ghost predicate SplitAt(deps: seq<Edge>, c: nat) {
    && c <= |deps|
    && (forall k | 0 <= k < c :: deps[k].kind.Preferred?)
    && (forall k | c <= k < |deps| :: deps[k].kind.Optional?)
  }

  lemma {:induction false} FindSplit(deps: seq<Edge>) returns (c: nat)
    requires PreferredFirst(deps)
    ensures SplitAt(deps, c)
  {
    if deps == [] || deps[|deps| - 1].kind.Preferred? {
      c := |deps|;
    } else {
      var init := deps[..|deps| - 1];
      c := FindSplit(init);
      assert deps == init + [deps[|deps| - 1]];
    }
  }

  lemma {:induction false} PreferredUpFirst(deps: seq<Edge>, i: nat)
    requires PreferredFirst(deps) && i < |deps| && deps[i].kind.Preferred?
    ensures PreferredFirst(MovedUp(deps, 0, i))
  {
    var moved := MovedUp(deps, 0, i);
    assert forall k | 1 <= k <= i :: moved[k] == deps[k - 1];
    assert forall k | i < k < |deps| :: moved[k] == deps[k];
    hide MovedUp;
    assert forall k | 0 <= k <= i :: moved[k].kind.Preferred?;
  }

  lemma {:induction false} OptionalUpFirst(deps: seq<Edge>, c: nat, i: nat)
    requires SplitAt(deps, c) && c <= i < |deps|
    ensures PreferredFirst(MovedUp(deps, c, i))
  {
    var moved := MovedUp(deps, c, i);
    assert forall k | 0 <= k < c :: moved[k] == deps[k];
    assert forall k | c < k <= i :: moved[k] == deps[k - 1];
    assert forall k | i < k < |deps| :: moved[k] == deps[k];
    assert moved[c] == deps[i];
    hide MovedUp;
    assert forall k | 0 <= k < c :: moved[k].kind.Preferred?;
    assert forall k | c <= k < |moved| :: moved[k].kind.Optional?;
  }

  lemma {:induction false} MovedUpInferred(deps: seq<Edge>, c: nat, i: nat, tools: Toolbox, catalog: set<string>)
    requires Inferred(deps, tools, catalog) && c <= i < |deps| && PreferredFirst(MovedUp(deps, c, i))
    ensures Inferred(MovedUp(deps, c, i), tools, catalog)
  {
    hide Right, Once, PreferredFirst;
    var moved := MovedUp(deps, c, i);
    MovedUpSame(deps, c, i);
    hide MovedUp;
    assert forall e :: e in moved <==> e in multiset(moved);
    assert forall e :: e in deps <==> e in multiset(deps);
    OnceMoves(deps, moved);
  }

  lemma {:induction false} OnceMoves(deps: seq<Edge>, moved: seq<Edge>)
    requires Once(deps) && multiset(deps) == multiset(moved)
    ensures Once(moved)
  {
    assert Distinct(deps);
    DistinctMoves(deps, moved);
    forall i, j | 0 <= i < j < |moved|
      ensures moved[i].source != moved[j].source || moved[i].target != moved[j].target
    {
      assert moved[i] in multiset(moved) && moved[j] in multiset(moved);
      assert moved[i] in deps && moved[j] in deps;
      var k :| 0 <= k < |deps| && deps[k] == moved[i];
      var l :| 0 <= l < |deps| && deps[l] == moved[j];
      assert k != l;
    }
  }

  /** An edge with fewer than ten of its source in front of it is kept. */
  lemma {:induction false} EarlyKept(front: seq<Edge>, e: Edge, rest: seq<Edge>)
    requires |OutEdges(front, e.source)| < MAX_DEPS_PER_AGENT
    ensures e in Capped(front + [e] + rest)
  {
    hide Capped, Filter;
    var all := OutEdges(front + [e] + rest, e.source);
    FilterConcat(front + [e], rest, From(e.source));
    FilterSnoc(front, e, From(e.source));
    var n := |OutEdges(front, e.source)|;
    assert all[n] == e;
    CapKeepsFirst(front + [e] + rest, e.source);
    FilterMembers(Capped(front + [e] + rest), From(e.source));
    assert OutEdges(Capped(front + [e] + rest), e.source)[n] == e;
  }

  /** With a choice some other order keeps an edge that `deps` loses: a preferred one moved to the
      front, or an optional one moved up to the first optional. */
  lemma {:induction false} ChoiceMatters(deps: seq<Edge>, tools: Toolbox, catalog: set<string>, a: string)
    returns (other: seq<Edge>, e: Edge)
    requires Inferred(deps, tools, catalog) && !NoChoice(tools, catalog, a)
    ensures Inferred(other, tools, catalog) && e in Capped(other) && e !in Capped(deps)
  {
    hide Capped, WantedBy, PreferredBy, Cap, Right, OutEdges, Once, MovedUp;
    if |PreferredBy(tools, catalog, a)| > MAX_DEPS_PER_AGENT {
      e := PreferredDropped(deps, tools, catalog, a);
      var i :| 0 <= i < |deps| && deps[i] == e;
      other := MovedUp(deps, 0, i);
      PreferredUpFirst(deps, i);
      MovedUpInferred(deps, 0, i, tools, catalog);
      MovedUpKept(deps, 0, i);
    } else {
      OutDegree(deps, tools, catalog, a);
      e := BehindFirst(deps, Cap(a));
      if e.kind.Preferred? {
        PreferredKept(deps, tools, catalog, a, e);
      }
      var c := FindSplit(deps);
      var i :| 0 <= i < |deps| && deps[i] == e;
      other := MovedUp(deps, c, i);
      OptionalUpFirst(deps, c, i);
      MovedUpInferred(deps, c, i, tools, catalog);
      FewInFront(deps, c, Cap(a));
      MovedUpKept(deps, c, i);
    }
  }

  lemma {:induction false} FewInFront(deps: seq<Edge>, c: nat, cap: string)
    requires SplitAt(deps, c)
    ensures |OutEdges(deps[..c], cap)| <= |Filter(deps, PreferredFrom(cap))|
  {
    var front := deps[..c];
    assert forall e | e in front :: e.kind.Preferred?;
    FilterMembers(front, From(cap));
    AllPreferred(OutEdges(front, cap), cap);
    FilterTwice(front, cap);
    FilterPrefix(deps, c, PreferredFrom(cap));
  }

  lemma {:induction false} MovedUpKept(deps: seq<Edge>, c: nat, i: nat)
    requires c <= i < |deps| && (c == 0 || |OutEdges(deps[..c], deps[i].source)| < MAX_DEPS_PER_AGENT)
    ensures deps[i] in Capped(MovedUp(deps, c, i))
  {
    hide Capped;
    assert deps[..0] == [] && |OutEdges([], deps[i].source)| == 0;
    EarlyKept(deps[..c], deps[i], deps[c..i] + deps[i + 1..]);
    Assoc(deps[..c] + [deps[i]], deps[c..i], deps[i + 1..]);
  }

  /** What the cap keeps does not depend on the order if and only if no agent has a choice. */
  lemma {:induction false} KeepsNoOtherIff(deps: seq<Edge>, tools: Toolbox, catalog: set<string>)
    requires Inferred(deps, tools, catalog)
    ensures KeepsNoOther(deps, tools, catalog) <==> forall a :: NoChoice(tools, catalog, a)
  {
    hide Inferred, Capped, NoChoice;
    if forall a :: NoChoice(tools, catalog, a) {
      forall other: seq<Edge>, e | Inferred(other, tools, catalog) && e in Capped(other)
        ensures e in Capped(deps)
      {
        NoChoiceKeepsSame(deps, other, tools, catalog, e);
      }
    } else {
      var a :| !NoChoice(tools, catalog, a);
      var other, e := ChoiceMatters(deps, tools, catalog, a);
      assert !KeptIn(other, deps);
    }
  }

  /** A second run over any orders inserts nothing and changes nothing where no agent has a choice -
      in particular where none is to have more than ten dependencies. */
  lemma {:induction false} SecondRunInsertsNothing(
    deps: seq<Edge>, other: seq<Edge>, tools: Toolbox, ids: map<string, string>, table: Rows, after: Rows, again: Rows)
    requires Inferred(deps, tools, ids.Keys) && Inferred(other, tools, ids.Keys)
    requires forall a :: NoChoice(tools, ids.Keys, a)
    requires Known(ids, Capped(deps)) && Known(ids, Capped(other))
    requires after.Keys == table.Keys + KeysOf(ids, Capped(deps)) && Inserted(again, after, ids, Capped(other))
    ensures KeysOf(ids, Capped(other)) - after.Keys == {} && again == after
  {
    KeepsNoOtherIff(deps, tools, ids.Keys);
    assert KeptIn(other, deps);
    hide Inferred, Capped, NoChoice;
    forall k | k in KeysOf(ids, Capped(other))
      ensures k in KeysOf(ids, Capped(deps))
    {
      var e :| e in Capped(other) && KeyIn(ids, e) == k;
      assert e in Capped(deps);
    }
    forall k: (string, string)
      ensures Row(again, k) == Row(after, k)
    {
      FirstKindIsKey(ids, Capped(other), k);
    }
    SameRows(again, after);
  }

  /** Every edge kept of `other` has its row already. */
  ghost predicate InsertsNothing(other: seq<Edge>, ids: map<string, string>, rows: Rows) {
    forall e | e in Capped(other) :: e.source in ids && e.target in ids && KeyIn(ids, e) in rows
  }

  ghost predicate OwnIds(ids: map<string, string>) {
    forall x, y | x in ids && y in ids && ids[x] == ids[y] :: x == y
  }

  lemma {:induction false} KeptIsKnown(deps: seq<Edge>, tools: Toolbox, ids: map<string, string>, e: Edge)
    requires Inferred(deps, tools, ids.Keys) && e in Capped(deps)
    ensures e in deps && e.source in ids && e.target in ids
  {
    CappedIsSubsequence(deps);
    SubsequenceKeeps(Capped(deps), deps);
    assert Right(tools, ids.Keys, e);
    RightIsKnown(tools, ids.Keys, e);
  }

  /** After a first run into a table without these pairs, a second one inserts nothing, whatever its
      order, if and only if no agent has a choice. */
  lemma {:induction false} SecondRunIff(
      deps: seq<Edge>, tools: Toolbox, ids: map<string, string>, table: Rows, after: Rows)
    requires Inferred(deps, tools, ids.Keys) && OwnIds(ids) && Known(ids, deps) && Known(ids, Capped(deps))
    requires table.Keys !! KeysOf(ids, deps) && after.Keys == table.Keys + KeysOf(ids, Capped(deps))
    ensures (forall other | Inferred(other, tools, ids.Keys) :: InsertsNothing(other, ids, after)) <==>
            forall a :: NoChoice(tools, ids.Keys, a)
  {
    hide Capped, NoChoice, Right, KeyIn;
    if forall a :: NoChoice(tools, ids.Keys, a) {
      forall other, e | Inferred(other, tools, ids.Keys) && e in Capped(other)
        ensures e.source in ids && e.target in ids && KeyIn(ids, e) in after
      {
        NoChoiceKeepsSame(deps, other, tools, ids.Keys, e);
        KeptIsKnown(deps, tools, ids, e);
      }
    } else {
      var a :| !NoChoice(tools, ids.Keys, a);
      var other, e := ChoiceMatters(deps, tools, ids.Keys, a);
      KeptIsKnown(other, tools, ids, e);
      DroppedHasNoRow(deps, tools, ids, e);
      assert e in deps && !InsertsNothing(other, ids, after);
    }
  }

  /** The row of an edge that was dropped is not that of an edge that was kept. */
  lemma {:induction false} DroppedHasNoRow(deps: seq<Edge>, tools: Toolbox, ids: map<string, string>, e: Edge)
    requires Inferred(deps, tools, ids.Keys) && OwnIds(ids) && Known(ids, Capped(deps))
    requires e in deps && e !in Capped(deps) && e.source in ids && e.target in ids
    ensures KeyIn(ids, e) !in KeysOf(ids, Capped(deps))
  {
    forall k | k in Capped(deps)
      ensures KeyIn(ids, k) != KeyIn(ids, e)
    {
      KeptIsKnown(deps, tools, ids, k);
      hide Capped, Right;
      assert k != e;
      var i, j :| 0 <= i < |deps| && 0 <= j < |deps| && deps[i] == k && deps[j] == e;
      assert k.source != e.source || k.target != e.target;
    }
  }

  lemma {:induction false} FirstKindIsKey(ids: map<string, string>, edges: seq<Edge>, key: (string, string))
    requires Known(ids, edges)
    ensures FirstKind(ids, edges, key).Some? ==> key in KeysOf(ids, edges)
    decreases |edges|
  {
    if edges != [] {
      var init, last := edges[..|edges| - 1], edges[|edges| - 1];
      FirstKindIsKey(ids, init, key);
      assert last in edges && forall e | e in init :: e in edges;
    }
  }

  lemma {:induction false} SameRows(a: Rows, b: Rows)
    requires forall k: (string, string) :: Row(a, k) == Row(b, k)
    ensures a == b
  {
    forall k: (string, string)
      ensures k in a <==> k in b
      ensures k in a ==> a[k] == b[k]
    {
      assert Row(a, k) == Row(b, k);
    }
  }
}
