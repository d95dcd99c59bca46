/** backend/scripts/guard_llm_success.py: a stateful visitor over a function's syntax tree that reports
    router results read for content before a success check. */
module LlmGuard {
  import opened Seqs
  import opened Wrappers

  // --- syntax ---

  /** A Python syntax tree, as far as the checker looks at it; Function and Other keep their children
      in the order of their fields. */
  datatype Node =
    | Name(id: string)
    | Text(text: string)
    | Attribute(line: nat, value: Node, attr: string)
    | Subscript(line: nat, value: Node, slice: Node)
    | Call(line: nat, func: Node, args: seq<Node>, keywords: seq<Node>)
    | Await(value: Node)
    | Assign(targets: seq<Node>, value: Node)
    | AnnAssign(target: Node, annotation: Node, initial: Option<Node>)
    | Not(operand: Node)
    | If(test: Node, body: seq<Node>, orelse: seq<Node>)
    | Function(body: seq<Node>)
    | Other(children: seq<Node>)

  /** What `generic_visit` visits, in order. */
  function Children(node: Node): (c: seq<Node>)
    ensures forall i | 0 <= i < |c| :: c[i] < node
  {
    match node
    case Name(_) => []
    case Text(_) => []
    case Attribute(_, v, _) => [v]
    case Subscript(_, v, s) => [v, s]
    case Call(_, f, args, keywords) => [f] + args + keywords
    case Await(v) => [v]
    case Assign(targets, v) => targets + [v]
    case AnnAssign(t, a, v) => [t, a] + if v.Some? then [v.value] else []
    case Not(operand) => [operand]
    case If(test, body, orelse) => [test] + body + orelse
    case Function(body) => body
    case Other(children) => children
  }

  const ROUTER_CALL_ATTRS: set<string> := {"route_request"}

  const ROUTER_VALUE_IDS: set<string> := {"model_router", "llm_manager", "router", "llm_router"}

  const CONTENT_KEYS: set<string> := {"response", "content", "choices", "message"}

  const GUARD_FUNCS: set<string> := {"normalize_llm_result"}

  // --- the checker's helpers ---

  predicate CallIsRouter(func: Node) {
    match func
    case Attribute(_, _, attr) => attr in ROUTER_CALL_ATTRS || attr in ROUTER_VALUE_IDS
    case Name(id) => id in ROUTER_VALUE_IDS
    case _ => false
  }

  predicate AwaitsRouter(value: Node) {
    value.Await? && value.value.Call? && CallIsRouter(value.value.func)
  }

  /** `var.get(key, ...)`, `var[key]` or `var.key`, for one of the keys. */
  predicate IsAccess(node: Node, v: string, keys: set<string>) {
    match node
    case Call(_, func, args, _) =>
      && func.Attribute? && func.value == Name(v) && func.attr == "get"
      && args != [] && args[0].Text? && args[0].text in keys
    case Subscript(_, value, slice) => value == Name(v) && slice.Text? && slice.text in keys
    case Attribute(_, value, attr) => value == Name(v) && attr in keys
    case _ => false
  }

  predicate IsSuccessAccess(node: Node, v: string) {
    IsAccess(node, v, {"success"})
  }

  predicate IsContentAccess(node: Node, v: string) {
    IsAccess(node, v, CONTENT_KEYS)
  }

  predicate IsNormalizeCall(node: Node, v: string) {
    node.Call? && node.func.Name? && node.func.id in GUARD_FUNCS && node.args != [] && node.args[0] == Name(v)
  }

  predicate IsGuardAccess(node: Node, v: string) {
    IsSuccessAccess(node, v) || IsNormalizeCall(node, v)
  }

  /** The router variable that a candidate refers to. */
  function Referenced(candidate: Node, vars: map<string, bool>): seq<string> {
    match candidate
    case Name(id) => if id in vars then [id] else []
    case Attribute(_, value, _) => if value.Name? && value.id in vars then [value.id] else []
    case _ => []
  }

  function ReferencedRouterVars(node: Node, vars: map<string, bool>): seq<string> {
    match node
    case Call(_, func, _, _) => Referenced(func, vars)
    case Attribute(_, value, _) => Referenced(value, vars)
    case Subscript(_, value, _) => Referenced(value, vars)
    case _ => []
  }

  // --- what matters in a tree ---

  /** Normalized, NoneTested and Loaded only matter to the checker's own documentation: a call of a
      guard function on the variable, `if not` the variable, and `json.loads` of it. */
  datatype Event =
    | Assigned(v: string)
    | Guarded(v: string)
    | Normalized(v: string)
    | NoneTested(v: string)
    | Read(v: string, line: nat, key: string)
    | Loaded(v: string, line: nat)

  /** A node's access to a name: a success check, or a content read. */
  function AccessEvent(v: string, key: string, line: nat): Option<Event> {
    if key == "success" then Some(Guarded(v))
    else if key in CONTENT_KEYS then Some(Read(v, line, key))
    else None
  }

  /** What a node itself does, whatever the checker has seen. */
  function EventOf(node: Node): Option<Event> {
    match node
    case Assign(targets, value) =>
      if AwaitsRouter(value) && |targets| == 1 && targets[0].Name? then Some(Assigned(targets[0].id)) else None
    case AnnAssign(target, _, value) =>
      if value.Some? && AwaitsRouter(value.value) && target.Name? then Some(Assigned(target.id)) else None
    case Call(line, func, args, _) =>
      if args == [] then None
      else if func.Attribute? && func.value.Name? && func.attr == "get" && args[0].Text? then
        AccessEvent(func.value.id, args[0].text, line)
      else if func.Name? && func.id in GUARD_FUNCS && args[0].Name? then
        Some(if args[0] == func then Guarded(func.id) else Normalized(args[0].id))
      else if func.Attribute? && func.value == Name("json") && func.attr == "loads" && args[0].Name? then
        Some(Loaded(args[0].id, line))
      else None
    case If(test, _, _) =>
      if test.Not? && test.operand.Name? then Some(NoneTested(test.operand.id)) else None
    case Subscript(line, value, slice) =>
      if value.Name? && slice.Text? then AccessEvent(value.id, slice.text, line) else None
    case Attribute(line, value, attr) =>
      if value.Name? then AccessEvent(value.id, attr, line) else None
    case _ => None
  }

  function Listed(event: Option<Event>): seq<Event> {
    if event.Some? then [event.value] else []
  }

  /** The events of a tree in visit order, at most one for each node. */
  function Events(node: Node): seq<Event>
    decreases node, |Children(node)| + 1
  {
    Listed(EventOf(node)) + EventsOfChildren(node, |Children(node)|)
  }

  /** The events of the first `n` children. */
  function EventsOfChildren(node: Node, n: nat): seq<Event>
    requires n <= |Children(node)|
    decreases node, n
  {
    if n == 0 then [] else EventsOfChildren(node, n - 1) + Events(Children(node)[n - 1])
  }

  // --- the checker's state, event by event ---

  datatype Violation = Violation(line: nat, v: string)

  datatype State = State(vars: map<string, bool>, violations: seq<Violation>)

  function Step(s: State, e: Event): State {
    match e
    case Assigned(v) => s.(vars := s.vars[v := false])
    case Guarded(v) => if v in s.vars then s.(vars := s.vars[v := true]) else s
    case Read(v, line, _) =>
      if v in s.vars && !s.vars[v] then s.(violations := s.violations + [Violation(line, v)]) else s
    case _ => s
  }

  function Run(s: State, events: seq<Event>): State {
    if events == [] then s else Step(Run(s, events[..|events| - 1]), events[|events| - 1])
  }

  lemma {:induction false} RunConcat(s: State, a: seq<Event>, b: seq<Event>)
    ensures Run(s, a + b) == Run(Run(s, a), b)
    decreases |b|
  {
    if b == [] {
      assert a + b == a;
    } else {
      RunConcat(s, a, b[..|b| - 1]);
      assert (a + b)[..|a + b| - 1] == a + b[..|b| - 1];
    }
  }

  /** The checker of one function, and its state. */
  class FunctionChecker {
    var routerVars: map<string, bool>
    var violations: seq<Violation>

    ghost function Now(): State
      reads this
    {
      State(routerVars, violations)
    }

    constructor ()
      ensures Now() == State(map[], [])
    {
      routerVars, violations := map[], [];
    }

    /** `visit`: the overridden methods, each followed by `generic_visit`. */
    method Visit(node: Node)
      modifies this
      ensures Now() == Run(old(Now()), Events(node))
      decreases node
    {
      hide Run, Events;
      ghost var start := Now();
      match node {
        case Assign(targets, value) =>
          if AwaitsRouter(value) && |targets| == 1 && targets[0].Name? {
            routerVars := routerVars[targets[0].id := false];
          }
        case AnnAssign(target, _, value) =>
          if value.Some? && AwaitsRouter(value.value) && target.Name? {
            routerVars := routerVars[target.id := false];
          }
        case Call(line, _, _, _) => CheckAccess(node, line);
        case Attribute(line, _, _) => CheckAccess(node, line);
        case Subscript(line, _, _) => CheckAccess(node, line);
        case _ =>
      }
      RunListed(start, EventOf(node));
      GenericVisit(node);
      VisitedAll(start, node);
    }

    /** The common body of `visit_Call`, `visit_Attribute` and `visit_Subscript`. */
    method CheckAccess(node: Node, line: nat)
      requires node.Call? || node.Attribute? || node.Subscript?
      requires line == node.line
      modifies this
      ensures Now() == if EventOf(node).Some? then Step(old(Now()), EventOf(node).value) else old(Now())
    {
      var refs := ReferencedRouterVars(node, routerVars);
      assert |refs| <= 1;
      if |refs| == 1 {
        var v := refs[0];
        if IsGuardAccess(node, v) {
          routerVars := routerVars[v := true];
        } else if IsContentAccess(node, v) && !routerVars[v] {
          violations := violations + [Violation(line, v)];
        }
      }
    }

    method GenericVisit(node: Node)
      modifies this
      ensures Now() == Run(old(Now()), EventsOfChildren(node, |Children(node)|))
      decreases node, 0
    {
      hide Run, Children, Events, EventsOfChildren;
      ghost var start := Now();
      var children := Children(node);
      RunNoChildren(start, node);
      for i := 0 to |children|
        invariant Now() == Run(start, EventsOfChildren(node, i))
      {
        RunChild(start, node, i);
        Visit(children[i]);
      }
    }
  }

  lemma {:induction false} RunNoChildren(s: State, node: Node)
    ensures Run(s, EventsOfChildren(node, 0)) == s
  {
  }

  lemma {:induction false} RunChild(s: State, node: Node, i: nat)
    requires i < |Children(node)|
    ensures Run(s, EventsOfChildren(node, i + 1)) == Run(Run(s, EventsOfChildren(node, i)), Events(Children(node)[i]))
  {
    hide Children, Events;
    RunConcat(s, EventsOfChildren(node, i), Events(Children(node)[i]));
  }

  lemma {:induction false} RunListed(s: State, event: Option<Event>)
    ensures Run(s, Listed(event)) == if event.Some? then Step(s, event.value) else s
  {
  }

  lemma {:induction false} VisitedAll(s: State, node: Node)
    ensures Run(s, Events(node)) == Run(Run(s, Listed(EventOf(node))), EventsOfChildren(node, |Children(node)|))
  {
    RunConcat(s, Listed(EventOf(node)), EventsOfChildren(node, |Children(node)|));
  }

  // --- what is reported ---

  /** Some assignment of a router result to `v` among the first `n` events has no success check after
      it: then so has the latest one. */
  ghost predicate Unguarded(events: seq<Event>, n: nat, v: string)
    requires n <= |events|
  {
    exists j | 0 <= j < n :: events[j] == Assigned(v) && forall k | j < k < n :: events[k] != Guarded(v)
  }

  ghost predicate Exposed(events: seq<Event>, i: nat)
    requires i < |events|
  {
    events[i].Read? && Unguarded(events, i, events[i].v)
  }

  /** The exposed reads, in order, each once. */
  ghost function ReportedUpTo(events: seq<Event>, n: nat): seq<Violation>
    requires n <= |events|
  {
    if n == 0 then []
    else ReportedUpTo(events, n - 1) +
         if Exposed(events, n - 1) then [Violation(events[n - 1].line, events[n - 1].v)] else []
  }

  ghost function Reported(events: seq<Event>): seq<Violation> {
    ReportedUpTo(events, |events|)
  }

  const START: State := State(map[], [])

  lemma {:induction false} UnguardedNext(events: seq<Event>, n: nat, v: string)
    requires n < |events|
    ensures Unguarded(events, n + 1, v) <==>
            events[n] == Assigned(v) || (events[n] != Guarded(v) && Unguarded(events, n, v))
  {
  }

  lemma {:induction false} FlagsSay(events: seq<Event>, n: nat)
    requires n <= |events|
    ensures var vars := Run(START, events[..n]).vars;
            forall v: string :: v in vars && !vars[v] <==> Unguarded(events, n, v)
  {
    if n > 0 {
      FlagsSay(events, n - 1);
      assert events[..n][..n - 1] == events[..n - 1];
      forall v: string
        ensures Unguarded(events, n, v) <==>
                events[n - 1] == Assigned(v) || (events[n - 1] != Guarded(v) && Unguarded(events, n - 1, v))
      {
        UnguardedNext(events, n - 1, v);
      }
      hide Unguarded;
    }
  }

  lemma {:induction false} RunReportsUpTo(events: seq<Event>, n: nat)
    requires n <= |events|
    ensures Run(START, events[..n]).violations == ReportedUpTo(events, n)
  {
    hide Unguarded;
    if n > 0 {
      RunReportsUpTo(events, n - 1);
      FlagsSay(events, n - 1);
      assert events[..n][..n - 1] == events[..n - 1];
    }
  }

  /** The checker reports exactly the content reads that follow an awaited router assignment to their
      name with no success check since, in visit order. */
  method CheckFunction(node: Node) returns (violations: seq<Violation>)
    ensures violations == Reported(Events(node))
  {
    hide Events, Run;
    var checker := new FunctionChecker();
    checker.Visit(node);
    violations := checker.violations;
    RunReportsUpTo(Events(node), |Events(node)|);
    assert Events(node)[..|Events(node)|] == Events(node);
  }

  lemma {:induction false} ReportedAre(events: seq<Event>, n: nat, x: Violation)
    requires n <= |events|
    ensures x in ReportedUpTo(events, n) <==> exists i | 0 <= i < n ::
            Exposed(events, i) && x == Violation(events[i].line, events[i].v)
  {
    hide Exposed;
    if n > 0 {
      ReportedAre(events, n - 1, x);
    }
  }

  // --- a whole module ---

  /** The functions of a tree in visit order, nested ones behind those around them. */
  function Functions(node: Node): seq<Node>
    decreases node, |Children(node)| + 1
  {
    (if node.Function? then [node] else []) + FunctionsOfChildren(node, |Children(node)|)
  }

  function FunctionsOfChildren(node: Node, n: nat): seq<Node>
    requires n <= |Children(node)|
    decreases node, n
  {
    if n == 0 then [] else FunctionsOfChildren(node, n - 1) + Functions(Children(node)[n - 1])
  }

  /** The functions that are in no other. */
  function Outermost(node: Node): seq<Node>
    decreases node, |Children(node)| + 1
  {
    if node.Function? then [node] else OutermostOfChildren(node, |Children(node)|)
  }

  function OutermostOfChildren(node: Node, n: nat): seq<Node>
    requires n <= |Children(node)|
    decreases node, n
  {
    if n == 0 then [] else OutermostOfChildren(node, n - 1) + Outermost(Children(node)[n - 1])
  }

  ghost function ReportsOf(functions: seq<Node>): seq<Violation> {
    if functions == [] then []
    else ReportsOf(functions[..|functions| - 1]) + Reported(Events(functions[|functions| - 1]))
  }

  lemma {:induction false} ReportsConcat(a: seq<Node>, b: seq<Node>)
    ensures ReportsOf(a + b) == ReportsOf(a) + ReportsOf(b)
    decreases |b|
  {
    hide Reported, Events;
    if b == [] {
      assert a + b == a;
    } else {
      var init, last := b[..|b| - 1], Reported(Events(b[|b| - 1]));
      ReportsConcat(a, init);
      assert (a + b)[..|a + b| - 1] == a + init && (a + b)[|a + b| - 1] == b[|b| - 1];
      Assoc(ReportsOf(a), ReportsOf(init), last);
    }
  }

  class ModuleChecker {
    var violations: seq<Violation>

    constructor ()
      ensures violations == []
    {
      violations := [];
    }

    method Visit(node: Node)
      modifies this
      ensures violations == old(violations) + ReportsOf(Functions(node))
      decreases node, |Children(node)| + 1
    {
      hide Reported, Events, Children, ReportsOf, FunctionsOfChildren;
      ghost var start := violations;
      ghost var own := if node.Function? then [node] else [];
      OwnReports(node);
      if node.Function? {
        var found := CheckFunction(node);
        violations := violations + found;
      }
      ReportsConcat(own, FunctionsOfChildren(node, |Children(node)|));
      Assoc(start, ReportsOf(own), ReportsOf(FunctionsOfChildren(node, |Children(node)|)));
      assert start + [] == start;
      GenericVisit(node);
    }

    method GenericVisit(node: Node)
      modifies this
      ensures violations == old(violations) + ReportsOf(FunctionsOfChildren(node, |Children(node)|))
      decreases node, |Children(node)|
    {
      hide Reported, Children, ReportsOf, Functions, FunctionsOfChildren;
      ghost var start := violations;
      var children := Children(node);
      NoReports(node);
      assert start + [] == start;
      for i := 0 to |children|
        invariant violations == start + ReportsOf(FunctionsOfChildren(node, i))
      {
        Visit(children[i]);
        ReportsOfChild(node, i);
        Assoc(start, ReportsOf(FunctionsOfChildren(node, i)), ReportsOf(Functions(children[i])));
      }
    }
  }

  lemma {:induction false} OwnReports(node: Node)
    ensures ReportsOf([node]) == Reported(Events(node)) && ReportsOf([]) == []
  {
    assert [node][..0] == [];
    hide Reported;
  }

  lemma {:induction false} NoReports(node: Node)
    ensures ReportsOf(FunctionsOfChildren(node, 0)) == []
  {
  }

  lemma {:induction false} ReportsOfChild(node: Node, i: nat)
    requires i < |Children(node)|
    ensures ReportsOf(FunctionsOfChildren(node, i + 1)) ==
            ReportsOf(FunctionsOfChildren(node, i)) + ReportsOf(Functions(Children(node)[i]))
  {
    hide Children, Functions, ReportsOf;
    ReportsConcat(FunctionsOfChildren(node, i), Functions(Children(node)[i]));
  }

  /** `scan_file`, on a parsed module. */
  method ScanModule(tree: Node) returns (violations: seq<Violation>)
    ensures violations == ReportsOf(Functions(tree))
  {
    var checker := new ModuleChecker();
    checker.Visit(tree);
    violations := checker.violations;
  }

  // --- nested functions ---

  ghost predicate Within<T(!new)>(part: seq<T>, whole: seq<T>) {
    exists before: seq<T>, after: seq<T> :: whole == before + part + after
  }

  lemma {:induction false} WithinMore<T(!new)>(part: seq<T>, whole: seq<T>, before: seq<T>, after: seq<T>)
    requires Within(part, whole)
    ensures Within(part, before + whole + after)
  {
    var b: seq<T>, a: seq<T> :| whole == b + part + a;
    assert before + whole + after == (before + b) + part + (a + after);
  }

  /** A function's events are a stretch of those of the tree around it. */
  lemma {:induction false} FunctionWithin(node: Node, f: Node)
    requires f in Functions(node)
    ensures Within(Events(f), Events(node))
    decreases node, |Children(node)| + 1
  {
    hide Children, Within;
    var own, rest := Listed(EventOf(node)), EventsOfChildren(node, |Children(node)|);
    if f in FunctionsOfChildren(node, |Children(node)|) {
      FunctionWithinChildren(node, |Children(node)|, f);
      WithinMore(Events(f), rest, own, []);
      assert own + rest + [] == own + rest;
    } else {
      WithinItself(Events(node));
    }
  }

  lemma {:induction false} WithinItself<T(!new)>(s: seq<T>)
    ensures Within(s, s)
  {
    assert s == [] + s + [];
  }

  lemma {:induction false} FunctionWithinChildren(node: Node, n: nat, f: Node)
    requires n <= |Children(node)| && f in FunctionsOfChildren(node, n)
    ensures Within(Events(f), EventsOfChildren(node, n))
    decreases node, n
  {
    hide Children, Within, Events, Functions;
    var earlier, last := EventsOfChildren(node, n - 1), Events(Children(node)[n - 1]);
    if f in FunctionsOfChildren(node, n - 1) {
      FunctionWithinChildren(node, n - 1, f);
      WithinMore(Events(f), earlier, [], last);
      assert [] + earlier + last == earlier + last;
    } else {
      FunctionWithin(Children(node)[n - 1], f);
      WithinMore(Events(f), last, earlier, []);
      assert earlier + last + [] == earlier + last;
    }
  }

  lemma {:induction false} ExposedWithin(part: seq<Event>, before: seq<Event>, after: seq<Event>, i: nat)
    requires i < |part| && Exposed(part, i)
    ensures |before| + i < |before + part + after| && (before + part + after)[|before| + i] == part[i]
    ensures Exposed(before + part + after, |before| + i)
  {
    var whole := before + part + after;
    assert forall k | 0 <= k < |part| :: whole[|before| + k] == part[k];
    assert forall k | |before| <= k < |before| + |part| :: whole[k] == part[k - |before|];
    var j :| 0 <= j < i && part[j] == Assigned(part[i].v) && forall k | j < k < i :: part[k] != Guarded(part[i].v);
    assert whole[|before| + j] == Assigned(part[i].v);
  }

  lemma {:induction false} ReportedWithin(part: seq<Event>, whole: seq<Event>, x: Violation)
    requires Within(part, whole) && x in Reported(part)
    ensures x in Reported(whole)
  {
    var before, after :| whole == before + part + after;
    ReportedAre(part, |part|, x);
    ReportedAre(whole, |whole|, x);
    hide Exposed;
    var i :| 0 <= i < |part| && Exposed(part, i) && x == Violation(part[i].line, part[i].v);
    ExposedWithin(part, before, after, i);
  }

  lemma {:induction false} ReportsAre(functions: seq<Node>, x: Violation)
    ensures x in ReportsOf(functions) <==> exists f | f in functions :: x in Reported(Events(f))
    decreases |functions|
  {
    hide Reported;
    if functions != [] {
      var init, last := functions[..|functions| - 1], functions[|functions| - 1];
      ReportsAre(init, x);
      assert functions == init + [last];
      assert x in ReportsOf(functions) <==> x in ReportsOf(init) || x in Reported(Events(last));
      assert forall f | f in init :: f in functions;
      assert last in functions;
    }
  }

  /** Every function is in an outermost one. */
  lemma {:induction false} InOutermost(node: Node, f: Node)
    requires f in Functions(node)
    ensures exists g | g in Outermost(node) :: f in Functions(g)
    decreases node, |Children(node)| + 1
  {
    hide Children;
    if node.Function? {
      assert node in Outermost(node);
    } else {
      InOutermostOfChildren(node, |Children(node)|, f);
    }
  }

  lemma {:induction false} InOutermostOfChildren(node: Node, n: nat, f: Node)
    requires n <= |Children(node)| && f in FunctionsOfChildren(node, n)
    ensures exists g | g in OutermostOfChildren(node, n) :: f in Functions(g)
    decreases node, n
  {
    hide Children, Functions, Outermost;
    if f in FunctionsOfChildren(node, n - 1) {
      InOutermostOfChildren(node, n - 1, f);
    } else {
      InOutermost(Children(node)[n - 1], f);
    }
  }

  lemma {:induction false} OutermostAreFunctions(node: Node, g: Node)
    requires g in Outermost(node)
    ensures g in Functions(node)
    decreases node, |Children(node)| + 1
  {
    hide Children;
    if !node.Function? {
      OutermostOfChildrenAre(node, |Children(node)|, g);
    }
  }

  lemma {:induction false} OutermostOfChildrenAre(node: Node, n: nat, g: Node)
    requires n <= |Children(node)| && g in OutermostOfChildren(node, n)
    ensures g in FunctionsOfChildren(node, n)
    decreases node, n
  {
    hide Children, Functions, Outermost;
    if g in OutermostOfChildren(node, n - 1) {
      OutermostOfChildrenAre(node, n - 1, g);
    } else {
      OutermostAreFunctions(Children(node)[n - 1], g);
    }
  }

  /** Functions in functions are checked on their own as well, but add nothing new: what a scan
      reports is what it reports of the outermost functions - and code outside of functions goes
      unchecked. */
  lemma {:induction false} OutermostDecide(tree: Node, x: Violation)
    ensures x in ReportsOf(Functions(tree)) <==> x in ReportsOf(Outermost(tree))
  {
    hide Reported, Events, Functions, Outermost, ReportsOf;
    ReportsAre(Functions(tree), x);
    ReportsAre(Outermost(tree), x);
    if x in ReportsOf(Functions(tree)) {
      var f :| f in Functions(tree) && x in Reported(Events(f));
      InOutermost(tree, f);
      var g :| g in Outermost(tree) && f in Functions(g);
      FunctionWithin(g, f);
      ReportedWithin(Events(f), Events(g), x);
    }
    if x in ReportsOf(Outermost(tree)) {
      var g :| g in Outermost(tree) && x in Reported(Events(g));
      OutermostAreFunctions(tree, g);
    }
  }
}
