/** backend/scripts/seed_capability_deps.py: the dependency graph inferred from shared tools and name
    prefixes, and its bounded out-degree. */
module CapabilityDeps {
  import opened Seqs
  import opened Wrappers

  datatype Kind = Preferred | Optional

  /** A row of the graph: the slugs of two capabilities. */
  datatype Edge = Edge(source: string, target: string, kind: Kind)

  type Toolbox = map<string, set<string>>

  const DOMAIN_PREFIXES: seq<string> := [
    "academic-", "account-", "customer-support", "data-", "devops-", "financial-", "hr-",
    "it-", "legal-", "marketing-", "medical-", "sales-", "supply-chain-", "technical-"]

  const MIN_SHARED_TOOLS: nat := 2

  const MAX_DEPS_PER_AGENT: nat := 10

  const AGENT: string := "agent__"

  predicate StartsWith(s: string, prefix: string) {
    |prefix| <= |s| && s[..|prefix|] == prefix
  }

  function Cap(agent: string): string {
    AGENT + agent
  }

  /** The agent of a capability slug. */
  function Agent(cap: string): string {
    if StartsWith(cap, AGENT) then cap[|AGENT|..] else cap
  }

  lemma {:induction false} AgentOfCap(agent: string)
    ensures Agent(Cap(agent)) == agent
  {
  }

  // --- what is wanted ---

  function FirstPrefix(slug: string, prefixes: seq<string>): Option<string> {
    if prefixes == [] then None
    else if StartsWith(slug, prefixes[0]) then Some(prefixes[0])
    else FirstPrefix(slug, prefixes[1..])
  }

  function Domain(slug: string): Option<string> {
    FirstPrefix(slug, DOMAIN_PREFIXES)
  }

  function SharedTools(tools: Toolbox, a: string, b: string): nat {
    if a in tools && b in tools then |tools[a] * tools[b]| else 0
  }

  /** The dependency of agent `a` on agent `b` that the design asks for: preferred when they share
      enough tools, optional when they are in one domain; none without both in the catalog. */
  function Wanted(tools: Toolbox, catalog: set<string>, a: string, b: string): Option<Kind> {
    if a == b || Cap(a) !in catalog || Cap(b) !in catalog then None
    else if SharedTools(tools, a, b) >= MIN_SHARED_TOOLS then Some(Preferred)
    else if Domain(a).Some? && Domain(a) == Domain(b) then Some(Optional)
    else None
  }

  /** The edges join two agents as wanted ... */
  ghost predicate Right(tools: Toolbox, catalog: set<string>, e: Edge) {
    && e.source == Cap(Agent(e.source)) && e.target == Cap(Agent(e.target))
    && Wanted(tools, catalog, Agent(e.source), Agent(e.target)) == Some(e.kind)
  }

  /** ... and no two edges join the same two, in the same direction. */
  ghost predicate Once(deps: seq<Edge>) {
    forall i, j | 0 <= i < j < |deps| :: deps[i].source != deps[j].source || deps[i].target != deps[j].target
  }

  ghost predicate PreferredFirst(deps: seq<Edge>) {
    forall i, j | 0 <= i < j < |deps| :: deps[i].kind.Optional? ==> deps[j].kind.Optional?
  }

  // --- what has been said so far ---

  type Pair = (string, string)

  /** The dependencies found so far, by agents. */
  type Said = map<Pair, Kind>

  function Get(said: Said, a: string, b: string): Option<Kind> {
    if (a, b) in said then Some(said[(a, b)]) else None
  }

  function EdgeOf(p: Pair, kind: Kind): Edge {
    Edge(Cap(p.0), Cap(p.1), kind)
  }

  function PairOf(e: Edge): Pair {
    (Agent(e.source), Agent(e.target))
  }

  ghost predicate Symmetric(said: Said) {
    forall a: string, b: string :: Get(said, a, b) == Get(said, b, a)
  }

  /** The list and the set of pairs say just that. */
  ghost predicate Realises(deps: seq<Edge>, existing: set<Pair>, said: Said) {
    && (forall e | e in deps :: PairOf(e) in said && e == EdgeOf(PairOf(e), said[PairOf(e)]))
    && (forall p | p in said :: EdgeOf(p, said[p]) in deps)
    && (forall a: string, b: string :: (Cap(a), Cap(b)) in existing <==> (a, b) in said)
    && Once(deps)
  }

  lemma {:induction false} OneMore(deps: seq<Edge>, existing: set<Pair>, said: Said, p: Pair, kind: Kind)
    requires Realises(deps, existing, said) && p !in said
    ensures Realises(deps + [EdgeOf(p, kind)], existing + {(Cap(p.0), Cap(p.1))}, said[p := kind])
  {
    AgentOfCap(p.0);
    AgentOfCap(p.1);
    var e := EdgeOf(p, kind);
    forall i | 0 <= i < |deps|
      ensures deps[i].source != e.source || deps[i].target != e.target
    {
      assert deps[i] in deps;
    }
    forall a: string, b: string | Cap(a) == Cap(p.0) && Cap(b) == Cap(p.1)
      ensures (a, b) == p
    {
      AgentOfCap(a);
      AgentOfCap(b);
    }
  }

  /** Both directions at once. */
  lemma {:induction false} BothWays(deps: seq<Edge>, existing: set<Pair>, said: Said, a: string, b: string, kind: Kind)
    requires Realises(deps, existing, said) && a != b && (a, b) !in said && (b, a) !in said
    ensures Realises(deps + [EdgeOf((a, b), kind)] + [EdgeOf((b, a), kind)],
                     existing + {(Cap(a), Cap(b))} + {(Cap(b), Cap(a))}, said[(a, b) := kind][(b, a) := kind])
  {
    hide Realises;
    OneMore(deps, existing, said, (a, b), kind);
    OneMore(deps + [EdgeOf((a, b), kind)], existing + {(Cap(a), Cap(b))}, said[(a, b) := kind], (b, a), kind);
  }

  lemma {:induction false} StaysSymmetric(said: Said, a: string, b: string, kind: Kind)
    requires Symmetric(said)
    ensures Symmetric(said[(a, b) := kind][(b, a) := kind])
  {
    var next := said[(a, b) := kind][(b, a) := kind];
    forall x: string, y: string
      ensures Get(next, x, y) == Get(next, y, x)
    {
      assert Get(said, x, y) == Get(said, y, x);
    }
  }

  // --- the loops over pairs ---

  /** The pair of positions `p`, `q` comes before `i`, `j` in the nested loops. */
  predicate Visited(p: nat, q: nat, i: nat, j: nat) {
    (p < q && (p < i || (p == i && q < j))) || (q < p && (q < i || (q == i && p < j)))
  }

  type Rule = (string, string) -> Option<Kind>

  /** What holds of two agents when their pair has been visited. */
  function Extended(start: Said, rule: Rule, a: string, b: string): Option<Kind> {
    if (a, b) in start then Some(start[(a, b)]) else rule(a, b)
  }

  ghost predicate Progress(said: Said, start: Said, list: seq<string>, rule: Rule, i: nat, j: nat) {
    && (forall p, q | 0 <= p < |list| && 0 <= q < |list| && p != q ::
          Get(said, list[p], list[q]) ==
          if Visited(p, q, i, j) then Extended(start, rule, list[p], list[q]) else Get(start, list[p], list[q]))
    && (forall a: string, b: string | a !in list || b !in list || a == b :: Get(said, a, b) == Get(start, a, b))
  }

  ghost predicate SymmetricRule(rule: Rule) {
    forall a: string, b: string :: rule(a, b) == rule(b, a)
  }

  lemma {:induction false} NoProgress(start: Said, list: seq<string>, rule: Rule)
    ensures Progress(start, start, list, rule, 0, 1)
  {
  }

  lemma {:induction false} NextRow(said: Said, start: Said, list: seq<string>, rule: Rule, i: nat)
    requires i < |list| && Progress(said, start, list, rule, i, |list|)
    ensures Progress(said, start, list, rule, i + 1, i + 2)
  {
    hide Extended, Get;
  }

  /** One round of the inner loop. */
  lemma {:induction false} NextPair(said: Said, next: Said, start: Said, list: seq<string>, rule: Rule, i: nat, j: nat)
    requires i < j < |list| && Distinct(list) && Progress(said, start, list, rule, i, j)
    requires Symmetric(start) && SymmetricRule(rule)
    requires Get(next, list[i], list[j]) == Extended(start, rule, list[i], list[j])
    requires Get(next, list[j], list[i]) == Extended(start, rule, list[j], list[i])
    requires forall a: string, b: string | !(a == list[i] && b == list[j]) && !(a == list[j] && b == list[i]) ::
               Get(next, a, b) == Get(said, a, b)
    ensures Progress(next, start, list, rule, i, j + 1)
  {
    hide Extended, Get, Symmetric, SymmetricRule;
    forall p, q | 0 <= p < |list| && 0 <= q < |list| && p != q
      ensures Get(next, list[p], list[q]) ==
              if Visited(p, q, i, j + 1) then Extended(start, rule, list[p], list[q]) else Get(start, list[p], list[q])
    {
      assert list[p] == list[i] <==> p == i;
      assert list[q] == list[i] <==> q == i;
      assert list[p] == list[j] <==> p == j;
      assert list[q] == list[j] <==> q == j;
    }
  }

  /** After the last row every two agents of the list have been visited. */
  lemma {:induction false} AllVisited(said: Said, start: Said, list: seq<string>, rule: Rule, a: string, b: string)
    requires Progress(said, start, list, rule, |list|, |list| + 1)
    ensures Get(said, a, b) == if a in list && b in list && a != b then Extended(start, rule, a, b)
            else Get(start, a, b)
  {
  }

  /** The pair at hand has not been touched. */
  lemma {:induction false} Unvisited(said: Said, start: Said, list: seq<string>, rule: Rule, i: nat, j: nat)
    requires i < j < |list| && Distinct(list) && Progress(said, start, list, rule, i, j)
    ensures list[i] != list[j]
    ensures Get(said, list[i], list[j]) == Get(start, list[i], list[j])
    ensures Get(said, list[j], list[i]) == Get(start, list[j], list[i])
    ensures (list[i], list[j]) in said <==> (list[i], list[j]) in start
    ensures (list[j], list[i]) in said <==> (list[j], list[i]) in start
  {
    hide Extended;
  }

  /** Saying what the rule says of a pair, in both directions, unless something is said already. */
  lemma {:induction false} PairSaid(said: Said, next: Said, start: Said, rule: Rule, a: string, b: string)
    requires a != b && Symmetric(start) && SymmetricRule(rule)
    requires Get(said, a, b) == Get(start, a, b) && Get(said, b, a) == Get(start, b, a)
    requires next == if (a, b) !in said && rule(a, b).Some?
                     then said[(a, b) := rule(a, b).value][(b, a) := rule(a, b).value] else said
    ensures Get(next, a, b) == Extended(start, rule, a, b) && Get(next, b, a) == Extended(start, rule, b, a)
    ensures forall x: string, y: string | !(x == a && y == b) && !(x == b && y == a) ::
            Get(next, x, y) == Get(said, x, y)
  {
    assert Get(start, a, b) == Get(start, b, a);
    assert rule(a, b) == rule(b, a);
  }

  lemma {:induction false} NothingSaid()
    ensures Realises([], {}, map[]) && Symmetric(map[])
  {
  }

  function OverlapRule(tools: Toolbox, catalog: set<string>): Rule {
    (a, b) => if Cap(a) in catalog && Cap(b) in catalog && SharedTools(tools, a, b) >= MIN_SHARED_TOOLS
              then Some(Preferred) else None
  }

  lemma {:induction false} OverlapSymmetric(tools: Toolbox, catalog: set<string>)
    ensures SymmetricRule(OverlapRule(tools, catalog))
  {
    forall a: string, b: string
      ensures SharedTools(tools, a, b) == SharedTools(tools, b, a)
    {
      if a in tools && b in tools {
        assert tools[a] * tools[b] == tools[b] * tools[a];
      }
    }
  }

  lemma {:induction false} OverlapNeedsTools(tools: Toolbox, catalog: set<string>, a: string, b: string)
    requires OverlapRule(tools, catalog)(a, b).Some?
    ensures a in tools && b in tools
  {
  }

  function ClusterRule(): Rule {
    (a, b) => Some(Optional)
  }

  ghost predicate AllOf(deps: seq<Edge>, kind: Kind) {
    forall i | 0 <= i < |deps| :: deps[i].kind == kind
  }

  /** Strategy 1: agents that share tools, in any order of the agents. */
  method OverlapEdges(list: seq<string>, tools: Toolbox, catalog: set<string>)
    returns (deps: seq<Edge>, existing: set<Pair>, ghost said: Said)
    requires Distinct(list) && forall a :: a in list <==> a in tools
    ensures Realises(deps, existing, said) && Symmetric(said) && AllOf(deps, Preferred)
    ensures forall a: string, b: string :: Get(said, a, b) == if a != b then OverlapRule(tools, catalog)(a, b) else None
  {
    hide Realises, Progress, Symmetric, SymmetricRule, Cap;
    deps, existing, said := [], {}, map[];
    ghost var rule := OverlapRule(tools, catalog);
    OverlapSymmetric(tools, catalog);
    NothingSaid();
    NoProgress(map[], list, rule);
    for i := 0 to |list|
      invariant Realises(deps, existing, said) && Symmetric(said) && AllOf(deps, Preferred)
      invariant Progress(said, map[], list, rule, i, i + 1)
    {
      for j := i + 1 to |list|
        invariant Realises(deps, existing, said) && Symmetric(said) && AllOf(deps, Preferred)
        invariant Progress(said, map[], list, rule, i, j)
      {
        var a, b := list[i], list[j];
        ghost var before := said;
        Unvisited(said, map[], list, rule, i, j);
        if |tools[a] * tools[b]| >= MIN_SHARED_TOOLS && Cap(a) in catalog && Cap(b) in catalog {
          BothWays(deps, existing, said, a, b, Preferred);
          StaysSymmetric(said, a, b, Preferred);
          deps := deps + [Edge(Cap(a), Cap(b), Preferred)] + [Edge(Cap(b), Cap(a), Preferred)];
          existing := existing + {(Cap(a), Cap(b))} + {(Cap(b), Cap(a))};
          said := said[(a, b) := Preferred][(b, a) := Preferred];
        }
        PairSaid(before, said, map[], rule, a, b);
        NextPair(before, said, map[], list, rule, i, j);
      }
      NextRow(said, map[], list, rule, i);
    }
    forall a: string, b: string
      ensures Get(said, a, b) == if a != b then rule(a, b) else None
    {
      AllVisited(said, map[], list, rule, a, b);
      if rule(a, b).Some? {
        OverlapNeedsTools(tools, catalog, a, b);
      }
    }
  }

  /** The pairs of one domain. */
  method ClusterEdges(
      members: seq<string>, catalog: set<string>, deps0: seq<Edge>, existing0: set<Pair>, ghost start: Said)
    returns (deps: seq<Edge>, existing: set<Pair>, ghost said: Said)
    requires Distinct(members) && forall m | m in members :: Cap(m) in catalog
    requires Realises(deps0, existing0, start) && Symmetric(start) && PreferredFirst(deps0)
    ensures Realises(deps, existing, said) && Symmetric(said) && PreferredFirst(deps)
    ensures forall a: string, b: string ::
              Get(said, a, b) == if a in members && b in members && a != b then Extended(start, ClusterRule(), a, b)
                else Get(start, a, b)
  {
    hide Progress, Symmetric, SymmetricRule, Cap, PreferredFirst, Distinct, Visited;
    deps, existing, said := deps0, existing0, start;
    ghost var rule := ClusterRule();
    ClusterSymmetric();
    NoProgress(start, members, rule);
    for i := 0 to |members|
      invariant Realises(deps, existing, said) && Symmetric(said) && PreferredFirst(deps)
      invariant Progress(said, start, members, rule, i, i + 1)
    {
      for j := i + 1 to |members|
        invariant Realises(deps, existing, said) && Symmetric(said) && PreferredFirst(deps)
        invariant Progress(said, start, members, rule, i, j)
      {
        hide Realises;
        var a, b := members[i], members[j];
        ghost var before := said;
        Unvisited(said, start, members, rule, i, j);
        InExisting(deps, existing, said, a, b);
        OneDirectionMeansBoth(said, a, b);
        if Cap(a) in catalog && Cap(b) in catalog && (Cap(a), Cap(b)) !in existing {
          BothWays(deps, existing, said, a, b, Optional);
          StaysSymmetric(said, a, b, Optional);
          OptionalLast(deps, [Edge(Cap(a), Cap(b), Optional)] + [Edge(Cap(b), Cap(a), Optional)]);
          Assoc(deps, [Edge(Cap(a), Cap(b), Optional)], [Edge(Cap(b), Cap(a), Optional)]);
          deps := deps + [Edge(Cap(a), Cap(b), Optional)] + [Edge(Cap(b), Cap(a), Optional)];
          existing := existing + {(Cap(a), Cap(b))} + {(Cap(b), Cap(a))};
          said := said[(a, b) := Optional][(b, a) := Optional];
        }
        PairSaid(before, said, start, rule, a, b);
        NextPair(before, said, start, members, rule, i, j);
      }
      NextRow(said, start, members, rule, i);
    }
    forall a: string, b: string
      ensures Get(said, a, b) == if a in members && b in members && a != b then Extended(start, rule, a, b)
              else Get(start, a, b)
    {
      AllVisited(said, start, members, rule, a, b);
    }
  }

  lemma {:induction false} ClusterSymmetric()
    ensures SymmetricRule(ClusterRule())
  {
  }

  lemma {:induction false} InExisting(deps: seq<Edge>, existing: set<Pair>, said: Said, a: string, b: string)
    requires Realises(deps, existing, said)
    ensures (Cap(a), Cap(b)) in existing <==> (a, b) in said
  {
  }

  lemma {:induction false} OneDirectionMeansBoth(said: Said, a: string, b: string)
    requires Symmetric(said)
    ensures (a, b) in said <==> (b, a) in said
  {
    assert Get(said, a, b) == Get(said, b, a);
  }

  lemma {:induction false} OptionalLast(deps: seq<Edge>, more: seq<Edge>)
    requires PreferredFirst(deps) && AllOf(more, Optional)
    ensures PreferredFirst(deps + more)
  {
  }

  // --- domains ---

  method DomainOf(slug: string) returns (domain: Option<string>)
    ensures domain == Domain(slug)
  {
    assert DOMAIN_PREFIXES[0..] == DOMAIN_PREFIXES;
    for i := 0 to |DOMAIN_PREFIXES|
      invariant Domain(slug) == FirstPrefix(slug, DOMAIN_PREFIXES[i..])
    {
      if StartsWith(slug, DOMAIN_PREFIXES[i]) {
        return Some(DOMAIN_PREFIXES[i]);
      }
    }
    domain := None;
  }

  ghost predicate Grouped(slugs: seq<string>, domains: seq<string>, members: map<string, seq<string>>) {
    && Distinct(domains) && (forall d :: d in domains <==> d in members)
    && (forall s | s in slugs && Domain(s).Some? :: Domain(s).value in members)
    && (forall d | d in members ::
          Distinct(members[d]) && forall s :: s in members[d] <==> s in slugs && Domain(s) == Some(d))
  }

  /** `domain_members`, its keys in the order of insertion. */
  method GroupByDomain(slugs: seq<string>) returns (domains: seq<string>, members: map<string, seq<string>>)
    requires Distinct(slugs)
    ensures Grouped(slugs, domains, members)
  {
    hide Domain;
    domains, members := [], map[];
    for i := 0 to |slugs|
      invariant Grouped(slugs[..i], domains, members)
    {
      var slug := slugs[i];
      assert slugs[..i + 1] == slugs[..i] + [slug] && slug !in slugs[..i];
      var domain := DomainOf(slug);
      if domain.Some? {
        if domain.value !in members {
          domains := domains + [domain.value];
          members := members[domain.value := []];
        }
        members := members[domain.value := members[domain.value] + [slug]];
      }
    }
    assert slugs[..|slugs|] == slugs;
  }

  /** What is said after the domains so far. */
  function Clustered(tools: Toolbox, catalog: set<string>, done: seq<string>, a: string, b: string): Option<Kind> {
    if a == b || Cap(a) !in catalog || Cap(b) !in catalog then None
    else if SharedTools(tools, a, b) >= MIN_SHARED_TOOLS then Some(Preferred)
    else if Domain(a).Some? && Domain(a) == Domain(b) && Domain(a).value in done then Some(Optional)
    else None
  }

  /** Section 4 of `run`: the uncapped edges, for agents and capabilities in any order. */
  method InferEdges(
      list: seq<string>, slugs: seq<string>, tools: Toolbox, catalog: set<string>) returns (deps: seq<Edge>)
    requires Distinct(list) && forall a :: a in list <==> a in tools
    requires Distinct(slugs) && forall a :: a in slugs <==> Cap(a) in catalog
    ensures forall e :: e in deps <==> Right(tools, catalog, e)
    ensures Once(deps) && PreferredFirst(deps)
  {
    hide Realises, Symmetric, Domain, Cap, Get, Grouped, SharedTools;
    var existing: set<Pair>;
    ghost var said: Said;
    deps, existing, said := OverlapEdges(list, tools, catalog);
    var domains, members := GroupByDomain(slugs);
    assert domains[..0] == [];
    for k := 0 to |domains|
      invariant Realises(deps, existing, said) && Symmetric(said) && PreferredFirst(deps)
      invariant forall a: string, b: string :: Get(said, a, b) == Clustered(tools, catalog, domains[..k], a, b)
    {
      var d := domains[k];
      ghost var start := said;
      MembersOf(slugs, domains, members, d);
      if |members[d]| >= 2 {
        deps, existing, said := ClusterEdges(members[d], catalog, deps, existing, said);
      }
      forall a: string, b: string
        ensures Get(said, a, b) == Clustered(tools, catalog, domains[..k + 1], a, b)
      {
        OneMoreDomain(tools, catalog, slugs, domains, members, k, start, said, a, b);
      }
    }
    assert domains[..|domains|] == domains;
    EveryDomain(tools, catalog, slugs, domains, members, said);
    RealisesWanted(tools, catalog, deps, existing, said);
  }

  lemma {:induction false} MembersOf(
      slugs: seq<string>, domains: seq<string>, members: map<string, seq<string>>, d: string)
    requires Grouped(slugs, domains, members) && d in domains
    ensures d in members && Distinct(members[d])
    ensures forall s :: s in members[d] <==> s in slugs && Domain(s) == Some(d)
  {
    hide Domain;
  }

  lemma {:induction false} OneMoreDomain(
    tools: Toolbox, catalog: set<string>, slugs: seq<string>, domains: seq<string>, members: map<string, seq<string>>,
    k: nat, start: Said, said: Said, a: string, b: string)
    requires k < |domains| && Grouped(slugs, domains, members) && domains[k] in members
    requires forall s :: s in slugs <==> Cap(s) in catalog
    requires Get(start, a, b) == Clustered(tools, catalog, domains[..k], a, b)
    requires Get(said, a, b) ==
             if a in members[domains[k]] && b in members[domains[k]] && a != b && |members[domains[k]]| >= 2
             then Extended(start, ClusterRule(), a, b) else Get(start, a, b)
    ensures Get(said, a, b) == Clustered(tools, catalog, domains[..k + 1], a, b)
  {
  }

  lemma {:induction false} EveryDomain(
    tools: Toolbox, catalog: set<string>, slugs: seq<string>, domains: seq<string>, members: map<string, seq<string>>,
    said: Said)
    requires Grouped(slugs, domains, members) && forall s :: s in slugs <==> Cap(s) in catalog
    requires forall a: string, b: string :: Get(said, a, b) == Clustered(tools, catalog, domains, a, b)
    ensures forall a: string, b: string :: Get(said, a, b) == Wanted(tools, catalog, a, b)
  {
  }

  lemma {:induction false} RealisesWanted(
      tools: Toolbox, catalog: set<string>, deps: seq<Edge>, existing: set<Pair>, said: Said)
    requires Realises(deps, existing, said)
    requires forall a: string, b: string :: Get(said, a, b) == Wanted(tools, catalog, a, b)
    ensures forall e :: e in deps <==> Right(tools, catalog, e)
    ensures Once(deps)
  {
  }
}
