/** The rule of backend/scripts/seed_capability_deps.py in terms of its names and numbers, and what its
    whole run leaves in the table. */
module DependencyRules {
  import opened CapabilityDeps
  import opened DependencyCap
  import opened DependencyPromises
  import opened Seqs
  import opened Wrappers

  // --- names ---

  /** The capability of an agent, by its slug. */
  predicate CapabilityOf(cap: string, agent: string) {
    cap == "agent__" + agent
  }

  predicate BeginsWith(s: string, prefix: string) {
    prefix <= s
  }

  /** The prefixes that make a domain. */
  predicate IsDomain(p: string) {
    p in {"academic-", "account-", "customer-support", "data-", "devops-", "financial-", "hr-", "it-", "legal-",
          "marketing-", "medical-", "sales-", "supply-chain-", "technical-"}
  }

  lemma {:induction false} CapIs(agent: string)
    ensures CapabilityOf(Cap(agent), agent) && Agent(Cap(agent)) == agent
  {
    AgentOfCap(agent);
  }

  lemma {:induction false} PrefixesAre(p: string)
    ensures p in DOMAIN_PREFIXES <==> IsDomain(p)
  {
  }

  /** No two domains begin with the same three characters. */
  lemma {:induction false} DomainsDiffer(p: string, q: string)
    requires IsDomain(p) && IsDomain(q) && p != q
    ensures |p| >= 3 && |q| >= 3 && (p[0] != q[0] || p[1] != q[1] || p[2] != q[2])
  {
  }

  lemma {:induction false} OneDomain(s: string, p: string, q: string)
    requires IsDomain(p) && IsDomain(q) && BeginsWith(s, p) && BeginsWith(s, q)
    ensures p == q
  {
    hide IsDomain;
    assert forall i | 0 <= i < |p| :: s[i] == p[i];
    assert forall i | 0 <= i < |q| :: s[i] == q[i];
    if p != q {
      DomainsDiffer(p, q);
    }
  }

  lemma {:induction false} FirstPrefixIs(s: string, prefixes: seq<string>)
    ensures FirstPrefix(s, prefixes).Some? ==>
              FirstPrefix(s, prefixes).value in prefixes && BeginsWith(s, FirstPrefix(s, prefixes).value)
    ensures FirstPrefix(s, prefixes).None? ==> forall p <- prefixes :: !BeginsWith(s, p)
  {
    if prefixes != [] {
      FirstPrefixIs(s, prefixes[1..]);
      assert StartsWith(s, prefixes[0]) <==> BeginsWith(s, prefixes[0]);
    }
  }

  /** A slug is in a domain exactly if it begins with its prefix. */
  lemma {:induction false} DomainIff(s: string, p: string)
    ensures Domain(s) == Some(p) <==> IsDomain(p) && BeginsWith(s, p)
  {
    hide FirstPrefix, DOMAIN_PREFIXES, IsDomain;
    FirstPrefixIs(s, DOMAIN_PREFIXES);
    PrefixesAre(p);
    if Domain(s).Some? {
      PrefixesAre(Domain(s).value);
      if IsDomain(p) && BeginsWith(s, p) {
        OneDomain(s, p, Domain(s).value);
      }
    }
  }

  // --- the rule ---

  /** Two agents that have at least two tools in common. */
  predicate ShareTwo(tools: Toolbox, a: string, b: string) {
    a in tools && b in tools && |tools[a] * tools[b]| >= 2
  }

  /** Two slugs that begin with the same one of the fourteen prefixes. */
  ghost predicate ShareDomain(a: string, b: string) {
    exists p: string :: IsDomain(p) && BeginsWith(a, p) && BeginsWith(b, p)
  }

  lemma {:induction false} ShareDomainIff(a: string, b: string)
    ensures ShareDomain(a, b) <==> Domain(a).Some? && Domain(a) == Domain(b)
  {
    hide IsDomain, BeginsWith, Domain;
    if Domain(a).Some? && Domain(a) == Domain(b) {
      var p := Domain(a).value;
      DomainIff(a, p);
      DomainIff(b, p);
    }
    if p: string :| IsDomain(p) && BeginsWith(a, p) && BeginsWith(b, p) {
      DomainIff(a, p);
      DomainIff(b, p);
    }
  }

  /** An edge is inferred exactly if it joins the capabilities of two different agents, both in the
      catalog: preferred if they share two tools, and optional if they do not but share a domain. */
  lemma {:induction false} EdgeIff(deps: seq<Edge>, tools: Toolbox, catalog: set<string>, a: string, b: string)
    requires Inferred(deps, tools, catalog)
    ensures Edge("agent__" + a, "agent__" + b, Preferred) in deps <==>
            a != b && {"agent__" + a, "agent__" + b} <= catalog && ShareTwo(tools, a, b)
    ensures Edge("agent__" + a, "agent__" + b, Optional) in deps <==>
            a != b && {"agent__" + a, "agent__" + b} <= catalog && !ShareTwo(tools, a, b) && ShareDomain(a, b)
  {
    CapIs(a);
    CapIs(b);
    ShareDomainIff(a, b);
    hide Domain, ShareDomain, Agent;
    assert Right(tools, catalog, Edge(Cap(a), Cap(b), Preferred)) <==> Wanted(tools, catalog, a, b) == Some(Preferred);
    assert Right(tools, catalog, Edge(Cap(a), Cap(b), Optional)) <==> Wanted(tools, catalog, a, b) == Some(Optional);
  }

  /** And there are no others: every edge joins two such capabilities. */
  lemma {:induction false} EdgeJoinsAgents(deps: seq<Edge>, tools: Toolbox, catalog: set<string>, e: Edge)
    requires Inferred(deps, tools, catalog) && e in deps
    ensures exists a: string, b: string :: e.source == "agent__" + a && e.target == "agent__" + b
  {
    assert Right(tools, catalog, e);
    CapIs(Agent(e.source));
    CapIs(Agent(e.target));
    hide Wanted, Agent;
    assert e.source == "agent__" + Agent(e.source) && e.target == "agent__" + Agent(e.target);
  }

  /** The positions before `n` of edges out of `source`. */
  function Positions(deps: seq<Edge>, n: nat, source: string): set<nat>
    requires n <= |deps|
  {
    set k: nat | k < n && deps[k].source == source
  }

  lemma {:induction false} PositionsNext(deps: seq<Edge>, n: nat, source: string)
    requires n < |deps|
    ensures n !in Positions(deps, n, source)
    ensures Positions(deps, n + 1, source) ==
            Positions(deps, n, source) + if deps[n].source == source then {n} else {}
  {
  }

  lemma {:induction false} OutEdgesAre(deps: seq<Edge>, n: nat, source: string)
    requires n <= |deps|
    ensures |OutEdges(deps[..n], source)| == |Positions(deps, n, source)|
  {
    if n == 0 {
      assert Positions(deps, 0, source) == {} && deps[..0] == [];
    } else {
      OutEdgesAre(deps, n - 1, source);
      PrefixSnoc(deps, n - 1);
      FilterSnoc(deps[..n - 1], deps[n - 1], From(source));
      PositionsNext(deps, n - 1, source);
      hide Positions, Filter;
    }
  }

  /** Ten edges of each source are kept and the eleventh is not: an edge that stands only once is kept
      exactly if fewer than ten of its source stand in front of it. */
  lemma {:induction false} KeptIff(deps: seq<Edge>, i: nat)
    requires Once(deps) && i < |deps|
    ensures deps[i] in Capped(deps) <==> |Positions(deps, i, deps[i].source)| < 10
  {
    OutEdgesAre(deps, i, deps[i].source);
    hide Positions, OutEdges, Capped, Once;
    KeptByCount(deps, i);
  }

  lemma {:induction false} KeptByCount(deps: seq<Edge>, i: nat)
    requires Once(deps) && i < |deps|
    ensures deps[i] in Capped(deps) <==> |OutEdges(deps[..i], deps[i].source)| < 10
    decreases |deps|
  {
    var earlier, e := deps[..|deps| - 1], deps[|deps| - 1];
    assert deps == earlier + [e];
    assert forall k | 0 <= k < |earlier| :: earlier[k] == deps[k];
    CappedIsSubsequence(earlier);
    SubsequenceKeeps(Capped(earlier), earlier);
    hide Subsequence, PreferredFirst, Filter;
    if i < |earlier| {
      KeptByCount(earlier, i);
      assert earlier[..i] == deps[..i] && earlier[i] == deps[i] && deps[i] != e;
    } else {
      assert deps[..i] == earlier;
    }
  }

  // --- the table ---

  lemma {:induction false} FirstKindIs(ids: map<string, string>, edges: seq<Edge>, i: nat)
    requires OwnIds(ids) && Known(ids, edges) && Once(edges) && i < |edges|
    ensures edges[i].source in ids && edges[i].target in ids
    ensures FirstKind(ids, edges, (ids[edges[i].source], ids[edges[i].target])) == Some(edges[i].kind)
    decreases |edges|
  {
    var earlier, e := edges[..|edges| - 1], edges[|edges| - 1];
    assert e in edges && edges[i] in edges && forall x | x in earlier :: x in edges;
    assert forall k | 0 <= k < |earlier| :: earlier[k] == edges[k];
    var key := (ids[edges[i].source], ids[edges[i].target]);
    if i < |earlier| {
      FirstKindIs(ids, earlier, i);
    } else {
      forall k | 0 <= k < |earlier|
        ensures KeyIn(ids, earlier[k]) != key
      {
        assert earlier[k].source != e.source || earlier[k].target != e.target;
      }
      NoKind(ids, earlier, key);
    }
  }

  lemma {:induction false} NoKind(ids: map<string, string>, edges: seq<Edge>, key: (string, string))
    requires Known(ids, edges) && forall k | 0 <= k < |edges| :: edges[k] in edges && KeyIn(ids, edges[k]) != key
    ensures FirstKind(ids, edges, key) == None
    decreases |edges|
  {
    if edges != [] {
      var earlier := edges[..|edges| - 1];
      assert forall k | 0 <= k < |earlier| :: earlier[k] == edges[k] && earlier[k] in earlier;
      NoKind(ids, earlier, key);
    }
  }

  /** After the run each edge has its row, from the id of its source to the id of its target: with its
      own kind, if the pair had no row before, and otherwise as it was.  There are no other new rows. */
  lemma {:induction false} EdgeHasRow(
      after: Rows, table: Rows, ids: map<string, string>, edges: seq<Edge>, e: Edge, key: (string, string))
    requires OwnIds(ids) && Known(ids, edges) && Once(edges)
    requires Inserted(after, table, ids, edges) && after.Keys == table.Keys + KeysOf(ids, edges)
    ensures key in table ==> key in after && after[key] == table[key]
    ensures key in after && key !in table ==>
              exists i | 0 <= i < |edges| :: edges[i].source in ids && edges[i].target in ids &&
                key == (ids[edges[i].source], ids[edges[i].target]) && after[key] == edges[i].kind
    ensures e in edges ==>
              && e.source in ids && e.target in ids
              && var own := (ids[e.source], ids[e.target]);
                 own in after && (own !in table ==> after[own] == e.kind)
  {
    hide FirstKind;
    assert Row(after, key) == if key in table then Row(table, key) else FirstKind(ids, edges, key);
    if key in after && key !in table {
      var x :| x in edges && KeyIn(ids, x) == key;
      var i :| 0 <= i < |edges| && edges[i] == x;
      FirstKindIs(ids, edges, i);
    }
    if e in edges {
      var i :| 0 <= i < |edges| && edges[i] == e;
      FirstKindIs(ids, edges, i);
      var own := (ids[e.source], ids[e.target]);
      assert own == KeyIn(ids, e);
      assert Row(after, own) == if own in table then Row(table, own) else FirstKind(ids, edges, own);
    }
  }
}
