/** backend/scripts/seed_capability_deps.py, second half: the cap on each agent's dependencies and
    their insertion. */
module DependencyCap {
  import opened CapabilityDeps
  import opened Seqs
  import opened Wrappers

  // --- the cap ---

  function From(cap: string): Edge -> bool {
    (e: Edge) => e.source == cap
  }

  function PreferredFrom(cap: string): Edge -> bool {
    (e: Edge) => e.source == cap && e.kind.Preferred?
  }

  function OutEdges(deps: seq<Edge>, cap: string): seq<Edge> {
    Filter(deps, From(cap))
  }

  function Min(a: nat, b: nat): nat {
    if a <= b then a else b
  }

  /** An edge is kept when it is among the first of its source. */
  function Capped(deps: seq<Edge>): seq<Edge> {
    if deps == [] then []
    else
      var earlier, e := deps[..|deps| - 1], deps[|deps| - 1];
      if |OutEdges(earlier, e.source)| < MAX_DEPS_PER_AGENT then Capped(earlier) + [e] else Capped(earlier)
  }

  predicate Subsequence<T(==)>(s: seq<T>, t: seq<T>) {
    s == [] ||
    (t != [] &&
     (Subsequence(s, t[..|t| - 1]) || (s[|s| - 1] == t[|t| - 1] && Subsequence(s[..|s| - 1], t[..|t| - 1]))))
  }

  /** Each source keeps exactly its first ten edges, or all if there are fewer. */
  lemma {:induction false} CapKeepsFirst(deps: seq<Edge>, cap: string)
    ensures OutEdges(Capped(deps), cap) == OutEdges(deps, cap)[..Min(MAX_DEPS_PER_AGENT, |OutEdges(deps, cap)|)]
    decreases |deps|
  {
    if deps != [] {
      var earlier, e := deps[..|deps| - 1], deps[|deps| - 1];
      CapKeepsFirst(earlier, cap);
      FilterSnoc(earlier, e, From(cap));
      FilterSnoc(Capped(earlier), e, From(cap));
      assert deps == earlier + [e];
    }
  }

  lemma {:induction false} CappedIsSubsequence(deps: seq<Edge>)
    ensures Subsequence(Capped(deps), deps)
    decreases |deps|
  {
    if deps != [] {
      var earlier, e := deps[..|deps| - 1], deps[|deps| - 1];
      CappedIsSubsequence(earlier);
      assert (Capped(earlier) + [e])[..|Capped(earlier)|] == Capped(earlier);
    }
  }

  /** What survives in every subsequence. */
  lemma {:induction false} SubsequenceKeeps(s: seq<Edge>, t: seq<Edge>)
    requires Subsequence(s, t)
    ensures forall e | e in s :: e in t
    ensures Once(t) ==> Once(s)
    ensures PreferredFirst(t) ==> PreferredFirst(s)
    decreases |t|
  {
    if s != [] {
      var init := t[..|t| - 1];
      if Subsequence(s, init) {
        SubsequenceKeeps(s, init);
      } else {
        SubsequenceKeeps(s[..|s| - 1], init);
        LastAdded(s[..|s| - 1], init, s[|s| - 1]);
        assert s == s[..|s| - 1] + [s[|s| - 1]] && t == init + [t[|t| - 1]];
      }
    }
  }

  lemma {:induction false} LastAdded(s: seq<Edge>, t: seq<Edge>, x: Edge)
    requires forall e | e in s :: e in t
    requires Once(t) ==> Once(s)
    requires PreferredFirst(t) ==> PreferredFirst(s)
    ensures Once(t + [x]) ==> Once(s + [x])
    ensures PreferredFirst(t + [x]) ==> PreferredFirst(s + [x])
  {
    assert forall i | 0 <= i < |t| :: (t + [x])[i] == t[i];
    assert (t + [x])[|t|] == x;
    assert forall i | 0 <= i < |s| :: s[i] in s;
    if Once(t + [x]) {
      assert Once(t);
    }
    if PreferredFirst(t + [x]) {
      assert PreferredFirst(t);
    }
  }

  lemma {:induction false} SubsequenceSnoc<T>(s: seq<T>, t: seq<T>, x: T)
    requires Subsequence(s, t)
    ensures Subsequence(s, t + [x]) && Subsequence(s + [x], t + [x])
  {
    assert (t + [x])[..|t|] == t && (s + [x])[..|s|] == s;
  }

  lemma {:induction false} FilterIsSubsequence<T>(s: seq<T>, p: T -> bool)
    ensures Subsequence(Filter(s, p), s)
    decreases |s|
  {
    if s != [] {
      var init, x := s[..|s| - 1], s[|s| - 1];
      FilterIsSubsequence(init, p);
      FilterSnoc(init, x, p);
      assert s == init + [x];
      SubsequenceSnoc(Filter(init, p), init, x);
      assert Filter(init, p) + [] == Filter(init, p);
    }
  }

  /** In a list with preferred edges first, a prefix with an optional one has all preferred ones. */
  lemma {:induction false} PreferredInPrefix(all: seq<Edge>, n: nat, kept: Edge, wanted: Edge)
    requires PreferredFirst(all) && n <= |all| && kept in all[..n] && kept.kind.Optional?
    requires wanted in all && wanted.kind.Preferred?
    ensures wanted in all[..n]
  {
    var i :| 0 <= i < n && all[..n][i] == kept;
    var j :| 0 <= j < |all| && all[j] == wanted;
    assert all[i] == kept;
    assert all[..n][j] == wanted;
  }

  /** No source keeps an optional dependency when one of its preferred ones was dropped. */
  lemma {:induction false} NoPreferredDroppedForOptional(deps: seq<Edge>, kept: Edge, wanted: Edge)
    requires PreferredFirst(deps) && kept in Capped(deps) && kept.kind.Optional?
    requires wanted in deps && wanted.kind.Preferred? && wanted.source == kept.source
    ensures wanted in Capped(deps)
  {
    hide Filter, Capped, PreferredFirst;
    var cap := kept.source;
    var all := OutEdges(deps, cap);
    FilterIsSubsequence(deps, From(cap));
    SubsequenceKeeps(all, deps);
    CapKeepsFirst(deps, cap);
    FilterMembers(deps, From(cap));
    FilterMembers(Capped(deps), From(cap));
    PreferredInPrefix(all, Min(MAX_DEPS_PER_AGENT, |all|), kept, wanted);
  }

  /** Section 5 of `run`. */
  method CapEdges(deps: seq<Edge>) returns (capped: seq<Edge>)
    ensures capped == Capped(deps)
  {
    capped := [];
    var count: map<string, nat> := map[];
    for i := 0 to |deps|
      invariant capped == Capped(deps[..i])
      invariant forall cap: string :: (if cap in count then count[cap] else 0) == |OutEdges(Capped(deps[..i]), cap)|
    {
      var e := deps[i];
      assert deps[..i + 1] == deps[..i] + [e];
      CapKeepsFirst(deps[..i], e.source);
      var n := if e.source in count then count[e.source] else 0;
      if n < MAX_DEPS_PER_AGENT {
        forall cap: string
          ensures OutEdges(capped + [e], cap) == OutEdges(capped, cap) + if e.source == cap then [e] else []
        {
          FilterSnoc(capped, e, From(cap));
        }
        capped := capped + [e];
        count := count[e.source := n + 1];
      }
    }
    assert deps[..|deps|] == deps;
  }

  // --- degrees, whatever the order of the agents ---

  function Agents(catalog: set<string>): set<string> {
    set cap | cap in catalog && StartsWith(cap, AGENT) :: Agent(cap)
  }

  lemma {:induction false} AgentsAre(catalog: set<string>, a: string)
    ensures a in Agents(catalog) <==> Cap(a) in catalog
  {
    AgentOfCap(a);
    assert StartsWith(Cap(a), AGENT);
    forall cap | cap in catalog && StartsWith(cap, AGENT) && Agent(cap) == a
      ensures cap == Cap(a)
    {
    }
  }

  /** The agents that `a` is to depend on. */
  function WantedBy(tools: Toolbox, catalog: set<string>, a: string): set<string> {
    set b | b in Agents(catalog) && Wanted(tools, catalog, a, b).Some?
  }

  function PreferredBy(tools: Toolbox, catalog: set<string>, a: string): set<string> {
    set b | b in Agents(catalog) && Wanted(tools, catalog, a, b) == Some(Preferred)
  }

  lemma {:induction false} DistinctSize<T>(items: seq<T>, s: set<T>)
    requires Distinct(items) && forall x :: x in items <==> x in s
    ensures |items| == |s|
    decreases |items|
  {
    if items == [] {
      assert s == {};
    } else {
      assert items == [items[0]] + items[1..];
      DistinctCons(items[0], items[1..]);
      DistinctSize(items[1..], s - {items[0]});
    }
  }

  function Targets(edges: seq<Edge>): seq<string> {
    Map(edges, (e: Edge) => Agent(e.target))
  }

  ghost predicate Inferred(deps: seq<Edge>, tools: Toolbox, catalog: set<string>) {
    (forall e :: e in deps <==> Right(tools, catalog, e)) && Once(deps) && PreferredFirst(deps)
  }

  lemma {:induction false} RightEdge(tools: Toolbox, catalog: set<string>, a: string, b: string)
    requires Wanted(tools, catalog, a, b).Some?
    ensures Right(tools, catalog, Edge(Cap(a), Cap(b), Wanted(tools, catalog, a, b).value))
    ensures Agent(Cap(a)) == a && Agent(Cap(b)) == b
  {
  }

  /** The edges out of an agent are one for each agent it is to depend on. */
  lemma {:induction false} OutDegree(deps: seq<Edge>, tools: Toolbox, catalog: set<string>, a: string)
    requires Inferred(deps, tools, catalog)
    ensures |OutEdges(deps, Cap(a))| == |WantedBy(tools, catalog, a)|
    ensures |Filter(deps, PreferredFrom(Cap(a)))| == |PreferredBy(tools, catalog, a)|
  {
    TargetsAre(deps, tools, catalog, a, OutEdges(deps, Cap(a)), From(Cap(a)), WantedBy(tools, catalog, a));
    TargetsAre(deps, tools, catalog, a, Filter(deps, PreferredFrom(Cap(a))), PreferredFrom(Cap(a)),
      PreferredBy(tools, catalog, a));
  }

  lemma {:induction false} TargetsAre(
    deps: seq<Edge>, tools: Toolbox, catalog: set<string>, a: string, edges: seq<Edge>, p: Edge -> bool, s: set<string>)
    requires Inferred(deps, tools, catalog) && edges == Filter(deps, p)
    requires forall e :: p(e) ==> e.source == Cap(a)
    requires forall b :: b in s <==> b in Agents(catalog) && Wanted(tools, catalog, a, b).Some? &&
                                     p(Edge(Cap(a), Cap(b), Wanted(tools, catalog, a, b).value))
    ensures |edges| == |s|
  {
    hide Wanted, Agents, Cap, Agent, Filter;
    FilterMembers(deps, p);
    FilterIsSubsequence(deps, p);
    SubsequenceKeeps(edges, deps);
    AgentOfCap(a);
    var targets := Targets(edges);
    forall i, j | 0 <= i < j < |edges|
      ensures targets[i] != targets[j]
    {
      assert edges[i] in deps && edges[j] in deps;
      assert Right(tools, catalog, edges[i]) && Right(tools, catalog, edges[j]);
    }
    forall b
      ensures b in targets <==> b in s
    {
      if b in s {
        RightEdge(tools, catalog, a, b);
        var e := Edge(Cap(a), Cap(b), Wanted(tools, catalog, a, b).value);
        var i :| 0 <= i < |edges| && edges[i] == e;
        assert targets[i] == b;
      }
      if b in targets {
        var i :| 0 <= i < |targets| && targets[i] == b;
        assert edges[i] in deps && Right(tools, catalog, edges[i]);
        WantedInCatalog(tools, catalog, a, b);
      }
    }
    DistinctSize(targets, s);
  }

  lemma {:induction false} WantedInCatalog(tools: Toolbox, catalog: set<string>, a: string, b: string)
    requires Wanted(tools, catalog, a, b).Some?
    ensures b in Agents(catalog) && Cap(a) in catalog && Cap(b) in catalog
  {
    AgentsAre(catalog, b);
  }

  lemma {:induction false} PreferredPrefix(s: seq<Edge>, n: nat, cap: string)
    requires PreferredFirst(s) && n <= |s| && forall e | e in s :: e.source == cap
    ensures |Filter(s[..n], PreferredFrom(cap))| == Min(n, |Filter(s, PreferredFrom(cap))|)
    decreases |s|
  {
    if n < |s| {
      var init, x := s[..|s| - 1], s[|s| - 1];
      assert s == init + [x] && init[..n] == s[..n];
      PreferredPrefix(init, n, cap);
      FilterSnoc(init, x, PreferredFrom(cap));
      if x.kind.Preferred? {
        AllPreferred(init, cap);
      }
    } else {
      assert s[..n] == s;
      FilterShorter(s, PreferredFrom(cap));
    }
  }

  lemma {:induction false} FilterShorter<T>(s: seq<T>, p: T -> bool)
    ensures |Filter(s, p)| <= |s|
  {
    if s != [] {
      FilterShorter(s[1..], p);
    }
  }

  lemma {:induction false} AllPreferred(s: seq<Edge>, cap: string)
    requires forall e | e in s :: e.source == cap && e.kind.Preferred?
    ensures Filter(s, PreferredFrom(cap)) == s
  {
    if s != [] {
      AllPreferred(s[1..], cap);
      assert s == [s[0]] + s[1..];
    }
  }

  lemma {:induction false} FilterTwice(deps: seq<Edge>, cap: string)
    ensures Filter(OutEdges(deps, cap), PreferredFrom(cap)) == Filter(deps, PreferredFrom(cap))
  {
    if deps != [] {
      FilterTwice(deps[1..], cap);
      assert ([deps[0]] + OutEdges(deps[1..], cap))[1..] == OutEdges(deps[1..], cap);
    }
  }

  /** After the cap an agent has ten dependencies or all it is to have, and as many preferred ones
      among them as there can be - numbers that do not depend on the order of the loops. */
  lemma {:induction false} CappedDegrees(deps: seq<Edge>, tools: Toolbox, catalog: set<string>, a: string)
    requires Inferred(deps, tools, catalog)
    ensures |OutEdges(Capped(deps), Cap(a))| == Min(MAX_DEPS_PER_AGENT, |WantedBy(tools, catalog, a)|)
    ensures |Filter(Capped(deps), PreferredFrom(Cap(a)))| == Min(MAX_DEPS_PER_AGENT, |PreferredBy(tools, catalog, a)|)
  {
    hide Filter, Capped, Cap, WantedBy, PreferredBy, Right;
    var cap := Cap(a);
    var all := OutEdges(deps, cap);
    OutDegree(deps, tools, catalog, a);
    CapKeepsFirst(deps, cap);
    FilterIsSubsequence(deps, From(cap));
    SubsequenceKeeps(all, deps);
    FilterMembers(deps, From(cap));
    PreferredPrefix(all, Min(MAX_DEPS_PER_AGENT, |all|), cap);
    FilterTwice(deps, cap);
    FilterTwice(Capped(deps), cap);
    FilterShorter(all, PreferredFrom(cap));
  }

  /** The uncapped edges are the same for every order of agents and capabilities. */
  lemma {:induction false} OrderFree(a: seq<Edge>, b: seq<Edge>, tools: Toolbox, catalog: set<string>)
    requires Inferred(a, tools, catalog) && Inferred(b, tools, catalog)
    ensures multiset(a) == multiset(b)
  {
    hide Right;
    DistinctSame(a, b);
  }

  // --- insertion ---

  /** capability_dependencies: what each pair of ids depends by. */
  type Rows = map<(string, string), Kind>

  function KeyIn(ids: map<string, string>, e: Edge): (string, string)
    requires e.source in ids && e.target in ids
  {
    (ids[e.source], ids[e.target])
  }

  ghost predicate Known(ids: map<string, string>, edges: seq<Edge>) {
    forall e | e in edges :: e.source in ids && e.target in ids
  }

  ghost function KeysOf(ids: map<string, string>, edges: seq<Edge>): set<(string, string)>
    requires Known(ids, edges)
  {
    set e | e in edges :: KeyIn(ids, e)
  }

  /** The kind of the first edge between a pair of ids. */
  function FirstKind(ids: map<string, string>, edges: seq<Edge>, key: (string, string)): Option<Kind> {
    if edges == [] then None
    else
      var earlier, e := FirstKind(ids, edges[..|edges| - 1], key), edges[|edges| - 1];
      if earlier.Some? then earlier
      else if e.source in ids && e.target in ids && KeyIn(ids, e) == key then Some(e.kind)
      else None
  }

  /** The table after insertion: old rows stay, and each new pair of ids has the kind of its first
      edge. */
  ghost predicate Inserted(after: Rows, table: Rows, ids: map<string, string>, edges: seq<Edge>) {
    forall k: (string, string) ::
      Row(after, k) == if k in table then Row(table, k) else FirstKind(ids, edges, k)
  }

  function Row(table: Rows, key: (string, string)): Option<Kind> {
    if key in table then Some(table[key]) else None
  }

  /** `INSERT ... ON CONFLICT DO NOTHING`. */
  function InsertRow(table: Rows, key: (string, string), kind: Kind): Rows {
    if key in table then table else table[key := kind]
  }

  lemma {:induction false} InsertOne(after: Rows, table: Rows, ids: map<string, string>, edges: seq<Edge>, e: Edge)
    requires Inserted(after, table, ids, edges) && e.source in ids && e.target in ids
    ensures Inserted(InsertRow(after, KeyIn(ids, e), e.kind), table, ids, edges + [e])
    ensures InsertRow(after, KeyIn(ids, e), e.kind).Keys == after.Keys + {KeyIn(ids, e)}
  {
  }

  lemma {:induction false} NewKeys(table: set<(string, string)>, ids: map<string, string>, edges: seq<Edge>, e: Edge)
    requires Known(ids, edges + [e])
    ensures Known(ids, edges) && e.source in ids && e.target in ids
    ensures |KeysOf(ids, edges + [e]) - table| ==
            |KeysOf(ids, edges) - table| + if KeyIn(ids, e) in table + KeysOf(ids, edges) then 0 else 1
    ensures KeysOf(ids, edges + [e]) == KeysOf(ids, edges) + {KeyIn(ids, e)}
  {
    assert forall x | x in edges :: x in edges + [e];
    assert e in edges + [e];
    var key, keys := KeyIn(ids, e), KeysOf(ids, edges);
    assert KeysOf(ids, edges + [e]) == keys + {key};
    assert keys + {key} - table == keys - table + if key in table + keys then {} else {key};
  }

  ghost predicate Done(after: Rows, inserted: nat, table: Rows, ids: map<string, string>, edges: seq<Edge>)
    requires Known(ids, edges)
  {
    && Inserted(after, table, ids, edges) && after.Keys == table.Keys + KeysOf(ids, edges)
    && inserted == |KeysOf(ids, edges) - table.Keys|
  }

  lemma {:induction false} DoneOneMore(
      after: Rows, inserted: nat, table: Rows, ids: map<string, string>, edges: seq<Edge>, e: Edge)
    requires Known(ids, edges + [e]) && Known(ids, edges) && Done(after, inserted, table, ids, edges)
    ensures e.source in ids && e.target in ids
    ensures Done(InsertRow(after, KeyIn(ids, e), e.kind),
            inserted + if KeyIn(ids, e) in after then 0 else 1, table, ids, edges + [e])
  {
    hide Inserted, KeysOf, KeyIn, InsertRow, Known;
    NewKeys(table.Keys, ids, edges, e);
    InsertOne(after, table, ids, edges, e);
    Assoc3(table.Keys, KeysOf(ids, edges), {KeyIn(ids, e)});
  }

  ghost predicate DoneUpTo(
      after: Rows, inserted: nat, table: Rows, ids: map<string, string>, edges: seq<Edge>, i: nat) {
    i <= |edges| && Known(ids, edges[..i]) && Done(after, inserted, table, ids, edges[..i])
  }

  lemma {:induction false} DoneNext(
      after: Rows, inserted: nat, table: Rows, ids: map<string, string>, edges: seq<Edge>, i: nat)
    requires Known(ids, edges) && i < |edges| && DoneUpTo(after, inserted, table, ids, edges, i)
    ensures edges[i].source in ids && edges[i].target in ids
    ensures var key := KeyIn(ids, edges[i]);
            DoneUpTo(InsertRow(after, key, edges[i].kind),
              inserted + if key in after then 0 else 1, table, ids, edges, i + 1)
  {
    hide Done, Known, KeyIn, InsertRow;
    PrefixSnoc(edges, i);
    KnownPrefix(ids, edges, i + 1);
    DoneOneMore(after, inserted, table, ids, edges[..i], edges[i]);
  }

  /** Section 6 of `run`. */
  method InsertEdges(
      edges: seq<Edge>, ids: map<string, string>, table: Rows) returns (after: Rows, inserted: nat, skipped: nat)
    requires Known(ids, edges)
    ensures Inserted(after, table, ids, edges) && after.Keys == table.Keys + KeysOf(ids, edges)
    ensures inserted + skipped == |edges| && inserted == |KeysOf(ids, edges) - table.Keys|
  {
    after, inserted, skipped := table, 0, 0;
    NoKeys(ids, table, edges);
    hide Known, KeyIn, KeysOf, Inserted, DoneUpTo;
    for i := 0 to |edges|
      invariant DoneUpTo(after, inserted, table, ids, edges, i)
      invariant inserted + skipped == i
    {
      var e := edges[i];
      DoneNext(after, inserted, table, ids, edges, i);
      if KeyIn(ids, e) !in after {
        inserted := inserted + 1;
      } else {
        skipped := skipped + 1;
      }
      after := InsertRow(after, KeyIn(ids, e), e.kind);
    }
    DoneMeans(after, inserted, table, ids, edges);
  }

  lemma {:induction false} DoneMeans(
      after: Rows, inserted: nat, table: Rows, ids: map<string, string>, edges: seq<Edge>)
    requires Known(ids, edges) && DoneUpTo(after, inserted, table, ids, edges, |edges|)
    ensures Inserted(after, table, ids, edges) && after.Keys == table.Keys + KeysOf(ids, edges)
    ensures inserted == |KeysOf(ids, edges) - table.Keys|
  {
    hide Inserted, KeysOf;
    assert edges[..|edges|] == edges;
  }

  lemma {:induction false} Assoc3<T>(a: set<T>, b: set<T>, c: set<T>)
    ensures a + b + c == a + (b + c)
  {
  }

  lemma {:induction false} KnownPrefix(ids: map<string, string>, edges: seq<Edge>, i: nat)
    requires Known(ids, edges) && i <= |edges|
    ensures Known(ids, edges[..i])
  {
  }

  lemma {:induction false} NoKeys(ids: map<string, string>, table: Rows, edges: seq<Edge>)
    ensures DoneUpTo(table, 0, table, ids, edges, 0)
  {
    assert edges[..0] == [];
    assert KeysOf(ids, []) - table.Keys == {};
  }

  /** `run`, on the loaded catalog and bindings, for agents and capabilities in any order: the edges
      that it inserts, and the table afterwards. */
  method Run(ids: map<string, string>, tools: Toolbox, list: seq<string>, slugs: seq<string>, table: Rows)
    returns (edges: seq<Edge>, after: Rows, inserted: nat, skipped: nat)
    requires Distinct(list) && forall a :: a in list <==> a in tools
    requires Distinct(slugs) && forall a :: a in slugs <==> Cap(a) in ids
    ensures exists deps :: Inferred(deps, tools, ids.Keys) && edges == Capped(deps)
    ensures forall e | e in edges :: Right(tools, ids.Keys, e)
    ensures Once(edges) && Known(ids, edges)
    ensures forall a :: |OutEdges(edges, Cap(a))| == Min(MAX_DEPS_PER_AGENT, |WantedBy(tools, ids.Keys, a)|)
    ensures forall a ::
            |Filter(edges, PreferredFrom(Cap(a)))| == Min(MAX_DEPS_PER_AGENT, |PreferredBy(tools, ids.Keys, a)|)
    ensures inserted + skipped == |edges| && inserted == |KeysOf(ids, edges) - table.Keys|
    ensures Inserted(after, table, ids, edges) && after.Keys == table.Keys + KeysOf(ids, edges)
  {
    hide Inserted, Right, Cap, Capped, Filter, WantedBy, PreferredBy, OutEdges;
    var deps := InferEdges(list, slugs, tools, ids.Keys);
    edges := CapEdges(deps);
    CappedIsSubsequence(deps);
    SubsequenceKeeps(edges, deps);
    forall a: string
      ensures |OutEdges(edges, Cap(a))| == Min(MAX_DEPS_PER_AGENT, |WantedBy(tools, ids.Keys, a)|)
      ensures |Filter(edges, PreferredFrom(Cap(a)))| == Min(MAX_DEPS_PER_AGENT, |PreferredBy(tools, ids.Keys, a)|)
    {
      CappedDegrees(deps, tools, ids.Keys, a);
    }
    forall e | e in edges
      ensures e.source in ids && e.target in ids
    {
      RightIsKnown(tools, ids.Keys, e);
    }
    after, inserted, skipped := InsertEdges(edges, ids, table);
  }

  lemma {:induction false} RightIsKnown(tools: Toolbox, catalog: set<string>, e: Edge)
    requires Right(tools, catalog, e)
    ensures e.source in catalog && e.target in catalog
  {
    hide Cap, Agent, Wanted;
    WantedInCatalog(tools, catalog, Agent(e.source), Agent(e.target));
  }
}
