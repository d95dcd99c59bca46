/** What backend/scripts/guard_llm_success.py sees in a program, in terms of the names and strings
    that are written there. */
module GuardSyntax {
  import opened GuardDocumentation
  import opened LlmGuard
  import opened Wrappers

  // --- the parts of a tree, in the order of the visit ---

  function AllEvents(nodes: seq<Node>): seq<Event> {
    if nodes == [] then [] else Events(nodes[0]) + AllEvents(nodes[1..])
  }

  function AllFunctions(nodes: seq<Node>): seq<Node> {
    if nodes == [] then [] else Functions(nodes[0]) + AllFunctions(nodes[1..])
  }

  /** The parts of a node in the order in which they are written, but that an assignment's targets
      come before its value and an annotation before the value as well. */
  function Parts(node: Node): seq<Node> {
    match node
    case Attribute(_, value, _) => [value]
    case Subscript(_, value, slice) => [value, slice]
    case Call(_, func, args, keywords) => [func] + (args + keywords)
    case Await(value) => [value]
    case Assign(targets, value) => targets + [value]
    case AnnAssign(target, annotation, None) => [target, annotation]
    case AnnAssign(target, annotation, Some(value)) => [target, annotation, value]
    case Not(operand) => [operand]
    case If(test, body, orelse) => [test] + (body + orelse)
    case Function(body) => body
    case Other(children) => children
    case _ => []
  }

  lemma {:induction false} PartsAreChildren(node: Node)
    ensures Children(node) == Parts(node)
  {
    match node
    case Call(_, func, args, keywords) =>
      assert [func] + args + keywords == [func] + (args + keywords);
    case If(test, body, orelse) =>
      assert [test] + body + orelse == [test] + (body + orelse);
    case _ =>
  }

  lemma {:induction false} EventsSnoc(nodes: seq<Node>, node: Node)
    ensures AllEvents(nodes + [node]) == AllEvents(nodes) + Events(node)
    ensures AllFunctions(nodes + [node]) == AllFunctions(nodes) + Functions(node)
  {
    hide Events, Functions;
    if nodes == [] {
      assert nodes + [node] == [node] && [node][1..] == [];
    } else {
      EventsSnoc(nodes[1..], node);
      assert (nodes + [node])[1..] == nodes[1..] + [node];
    }
  }

  lemma {:induction false} UpToChild(node: Node, n: nat)
    requires n <= |Children(node)|
    ensures EventsOfChildren(node, n) == AllEvents(Children(node)[..n])
    ensures FunctionsOfChildren(node, n) == AllFunctions(Children(node)[..n])
  {
    hide Events, Functions, Children;
    if n > 0 {
      UpToChild(node, n - 1);
      EventsSnoc(Children(node)[..n - 1], Children(node)[n - 1]);
      assert Children(node)[..n] == Children(node)[..n - 1] + [Children(node)[n - 1]];
    } else {
      assert Children(node)[..0] == [];
    }
  }

  /** A node's own event comes first, then those of its parts, in order, and none is left out; and
      likewise for the functions in it. */
  lemma {:induction false} PartByPart(node: Node)
    ensures Events(node) == Listed(EventOf(node)) + AllEvents(Parts(node))
    ensures Functions(node) == (if node.Function? then [node] else []) + AllFunctions(Parts(node))
  {
    hide Children, Parts, EventOf;
    PartsAreChildren(node);
    UpToChild(node, |Children(node)|);
    assert Children(node)[..|Children(node)|] == Children(node);
  }

  // --- what one node does, by name ---

  /** The function of a call to the router, by name. */
  predicate RouterFunc(func: Node) {
    || (func.Attribute? && func.attr in {"route_request", "model_router", "llm_manager", "router", "llm_router"})
    || (func.Name? && func.id in {"model_router", "llm_manager", "router", "llm_router"})
  }

  /** An awaited call of such a function. */
  predicate RouterResult(value: Node) {
    value.Await? && value.value.Call? && RouterFunc(value.value.func)
  }

  /** `v.get(key, ...)`, `v[key]` or `v.key`. */
  predicate Accesses(node: Node, v: string, key: string) {
    match node
    case Attribute(_, value, attr) => value == Name(v) && attr == key
    case Subscript(_, value, slice) => value == Name(v) && slice == Text(key)
    case Call(_, func, args, _) =>
      func.Attribute? && func.value == Name(v) && func.attr == "get" && args != [] && args[0] == Text(key)
    case _ => false
  }

  function LineOf(node: Node): nat {
    if node.Attribute? || node.Subscript? || node.Call? then node.line else 0
  }

  /** `normalize_llm_result(v, ...)`. */
  predicate Normalizes(node: Node, v: string) {
    node.Call? && node.func == Name("normalize_llm_result") && node.args != [] && node.args[0] == Name(v)
  }

  /** An assignment begins to watch a name exactly if it gives that one name an awaited result of the
      router. */
  lemma {:induction false} AssignedIff(node: Node, r: string)
    ensures EventOf(node) == Some(Assigned(r)) <==>
            || (node.Assign? && node.targets == [Name(r)] && RouterResult(node.value))
            || (node.AnnAssign? && node.target == Name(r) && node.initial.Some? && RouterResult(node.initial.value))
  {
  }

  /** A content read is an access under one of four keys. */
  lemma {:induction false} ReadIff(node: Node, v: string, line: nat, key: string)
    ensures EventOf(node) == Some(Read(v, line, key)) <==>
            Accesses(node, v, key) && LineOf(node) == line && key in {"response", "content", "choices", "message"}
  {
  }

  /** A guard is an access under "success" - or the call that normalizes, if the name is its own. */
  lemma {:induction false} GuardedIff(node: Node, v: string)
    ensures EventOf(node) == Some(Guarded(v)) <==>
            || Accesses(node, v, "success")
            || (v == "normalize_llm_result" && Normalizes(node, v))
  {
  }

  lemma {:induction false} NormalizedIff(node: Node, v: string)
    ensures EventOf(node) == Some(Normalized(v)) <==> Normalizes(node, v) && v != "normalize_llm_result"
  {
  }

  /** `if not v`. */
  lemma {:induction false} NoneTestedIff(node: Node, v: string)
    ensures EventOf(node) == Some(NoneTested(v)) <==> node.If? && node.test == Not(Name(v))
  {
  }

  /** `json.loads(v, ...)`. */
  lemma {:induction false} LoadedIff(node: Node, v: string, line: nat)
    ensures EventOf(node) == Some(Loaded(v, line)) <==>
            && node.Call? && node.line == line && node.args != [] && node.args[0] == Name(v)
            && node.func.Attribute? && node.func.value == Name("json") && node.func.attr == "loads"
  {
    assert |"loads"| != |"get"|;
  }

  /** What the documentation counts: reads under two keys, and loads. */
  lemma {:induction false} CountsIff(e: Event, v: string)
    ensures CountsAsRead(e) <==> e.Loaded? || (e.Read? && e.key in {"response", "content"})
    ensures CountsAsGuard(e, v) <==> e in {Guarded(v), Normalized(v), NoneTested(v)}
  {
  }

  // --- functions that read a result ---

  /** `r = value`, or `r: annotation = value`. */
  function Assigning(r: string, value: Node, annotation: Option<Node>): Node {
    if annotation.Some? then AnnAssign(Name(r), annotation.value, Some(value)) else Assign([Name(r)], value)
  }

  ghost predicate SpeaksNotOf(node: Node, r: string) {
    forall e | e in Events(node) :: e.v != r
  }

  lemma {:induction false} PlainEvents(r: string, call: Node)
    ensures var node := Assign([Name(r)], Await(call)); Events(node) == Listed(EventOf(node)) + Events(call)
  {
    var node := Assign([Name(r)], Await(call));
    AwaitEvents(call);
    NoChildren(Name(r));
    assert Children(node) == [Name(r), Await(call)];
    hide Events, EventOf, Children;
    TwoChildren(node);
    assert [] + Events(call) == Events(call);
  }

  lemma {:induction false} AnnotatedEvents(r: string, annotation: Node, call: Node)
    ensures var node := AnnAssign(Name(r), annotation, Some(Await(call)));
            Events(node) == Listed(EventOf(node)) + (Events(annotation) + Events(call))
  {
    var node := AnnAssign(Name(r), annotation, Some(Await(call)));
    AwaitEvents(call);
    NoChildren(Name(r));
    assert Children(node) == [Name(r), annotation, Await(call)];
    hide Events, EventOf, Children;
    ThreeChildren(node);
    assert [] + Events(annotation) == Events(annotation);
  }

  /** What the parts of an assignment do. */
  function ValueEvents(call: Node, annotation: Option<Node>): seq<Event> {
    (if annotation.Some? then Events(annotation.value) else []) + Events(call)
  }

  lemma {:induction false} AssigningEvents(r: string, call: Node, annotation: Option<Node>)
    requires call.Call?
    ensures Events(Assigning(r, Await(call), annotation)) ==
            (if RouterFunc(call.func) then [Assigned(r)] else []) + ValueEvents(call, annotation)
  {
    var node := Assigning(r, Await(call), annotation);
    AssignedIff(node, r);
    OnlyAssigns(node, r);
    hide Events, EventOf, RouterFunc;
    if annotation.Some? {
      AnnotatedEvents(r, annotation.value, call);
    } else {
      PlainEvents(r, call);
      assert [] + Events(call) == Events(call);
    }
  }

  lemma {:induction false} OnlyAssigns(node: Node, r: string)
    requires (node.Assign? && node.targets == [Name(r)]) || (node.AnnAssign? && node.target == Name(r))
    ensures EventOf(node).Some? ==> EventOf(node) == Some(Assigned(r))
  {
  }

  /** A read of the result under one of the four keys. */
  predicate ReadsContent(read: Node, r: string) {
    || (read.Attribute? && Accesses(read, r, read.attr) && IsContentKey(read.attr))
    || (read.Subscript? && read.slice.Text? && Accesses(read, r, read.slice.text) && IsContentKey(read.slice.text))
    || (read.Call? && |read.args| == 1 && read.keywords == [] && read.args[0].Text? &&
        Accesses(read, r, read.args[0].text) && IsContentKey(read.args[0].text))
  }

  predicate IsContentKey(key: string) {
    key in {"response", "content", "choices", "message"}
  }

  lemma {:induction false} ContentReadEvents(read: Node, r: string) returns (key: string)
    requires ReadsContent(read, r)
    ensures Events(read) == [Read(r, LineOf(read), key)]
  {
    key := if read.Attribute? then read.attr else if read.Subscript? then read.slice.text else read.args[0].text;
    ReadIff(read, r, LineOf(read), key);
    if read.Call? {
      var func := read.func;
      LeafChildren(func);
      assert EventOf(func) == None;
      NoChildren(read.args[0]);
      assert Children(read) == [func, read.args[0]];
      hide Events, EventOf;
      TwoChildren(read);
    } else {
      LeafChildren(read);
    }
  }

  /** A function that assigns the awaited result of a call, runs a statement and reads the result. */
  function Reading(r: string, call: Node, annotation: Option<Node>, check: Node, read: Node): Node {
    Function([Assigning(r, Await(call), annotation), check, read])
  }

  lemma {:induction false} ReadingEvents(r: string, call: Node, annotation: Option<Node>, check: Node, read: Node)
    returns (key: string)
    requires call.Call? && ReadsContent(read, r)
    ensures Events(Reading(r, call, annotation, check, read)) ==
            (if RouterFunc(call.func) then [Assigned(r)] else [])
            + (ValueEvents(call, annotation) + Events(check)) + [Read(r, LineOf(read), key)]
  {
    hide Events, ReadsContent, RouterFunc, LineOf, Accesses;
    var f := Reading(r, call, annotation, check, read);
    key := ContentReadEvents(read, r);
    AssigningEvents(r, call, annotation);
    assert Children(f) == [Assigning(r, Await(call), annotation), check, read] && EventOf(f) == None;
    ThreeChildren(f);
    hide ValueEvents, Children, EventOf;
    FourJoined(if RouterFunc(call.func) then [Assigned(r)] else [], ValueEvents(call, annotation), Events(check),
               [Read(r, LineOf(read), key)]);
  }

  lemma {:induction false} FourJoined(a: seq<Event>, b: seq<Event>, c: seq<Event>, d: seq<Event>)
    ensures [] + (a + b + c + d) == a + (b + c) + d
  {
  }

  /** With an event that is no assignment of `r` in between, nothing watches `r`. */
  lemma {:induction false} NeverAssigned(events: seq<Event>, r: string, line: nat)
    requires forall e | e in events :: e != Assigned(r)
    ensures Violation(line, r) !in Reported(events)
  {
    ReportedAre(events, |events|, Violation(line, r));
    assert forall j | 0 <= j < |events| :: events[j] in events;
  }

  /** The result of an awaited call is read for content behind a statement that does no more to it than
      check it: that is reported if and only if the call is to the router, by its name, and the
      statement does not ask for success - whether the assignment is plain or annotated. */
  lemma {:induction false} ReadReportedIff(
      r: string, call: Node, annotation: Option<Node>, check: Node, read: Node)
    requires call.Call? && ReadsContent(read, r)
    requires SpeaksNotOf(call, r) && (annotation.Some? ==> SpeaksNotOf(annotation.value, r))
    requires OnlyGuards(Events(check), r)
    ensures Violation(LineOf(read), r) in Reported(Events(Reading(r, call, annotation, check, read))) <==>
            RouterFunc(call.func) && Guarded(r) !in Events(check)
  {
    var key := ReadingEvents(r, call, annotation, check, read);
    var between := ValueEvents(call, annotation) + Events(check);
    var last := Read(r, LineOf(read), key);
    BetweenGuards(r, call, annotation, check);
    hide Events, Reported, ReadsContent, RouterFunc, LineOf, Reading, SpeaksNotOf, ValueEvents;
    if RouterFunc(call.func) {
      LastReadDecides(r, between, last);
    } else {
      assert [] + between + [last] == between + [last];
      NeverAssigned(between + [last], r, LineOf(read));
    }
  }

  lemma {:induction false} BetweenGuards(r: string, call: Node, annotation: Option<Node>, check: Node)
    requires SpeaksNotOf(call, r) && (annotation.Some? ==> SpeaksNotOf(annotation.value, r))
    requires OnlyGuards(Events(check), r)
    ensures var between := ValueEvents(call, annotation) + Events(check);
            && OnlyGuards(between, r) && (forall e | e in between :: e != Assigned(r))
            && (Guarded(r) in between <==> Guarded(r) in Events(check))
  {
    hide Events;
    assert forall e | e in ValueEvents(call, annotation) :: e.v != r;
  }

  // --- the programs of the documentation ---

  const PASS: Node := Other([])

  /** `r = await q.f()` and then `r.content`. */
  function AskAndRead(q: string, f: string): Node {
    Reading("r", Call(1, Attribute(1, Name(q), f), [], []), None, PASS, Attribute(2, Name("r"), "content"))
  }

  /** The read is reported for `model_router.route_request`, and in general depending on the last name
      alone: after `model.ainvoke`, for one, it is not. */
  lemma {:induction false} AskAndReadIff(q: string, f: string)
    requires q != "r"
    ensures Violation(2, "r") in Reported(Events(AskAndRead(q, f))) <==>
            f in {"route_request", "model_router", "llm_manager", "router", "llm_router"}
  {
    var call, read := Call(1, Attribute(1, Name(q), f), [], []), Attribute(2, Name("r"), "content");
    AskSpeaksOfQ(q, f, "r");
    LeafChildren(PASS);
    assert OnlyGuards(Events(PASS), "r") && Guarded("r") !in Events(PASS) && ReadsContent(read, "r");
    assert RouterFunc(call.func) <==> f in {"route_request", "model_router", "llm_manager", "router", "llm_router"};
    hide *;
    ReadReportedIff("r", call, None, PASS, read);
    AskedRead(q, f);
  }

  lemma {:induction false} AskedRead(q: string, f: string)
    ensures LineOf(Attribute(2, Name("r"), "content")) == 2
    ensures AskAndRead(q, f) ==
            Reading("r", Call(1, Attribute(1, Name(q), f), [], []), None, PASS, Attribute(2, Name("r"), "content"))
  {
  }

  lemma {:induction false} AskSpeaksOfQ(q: string, f: string, r: string)
    requires q != r
    ensures SpeaksNotOf(Call(1, Attribute(1, Name(q), f), [], []), r)
  {
    var func := Attribute(1, Name(q), f);
    var call := Call(1, func, [], []);
    LeafChildren(func);
    assert Children(call) == [func] && EventOf(call) == None;
    OneChild(call);
    hide Events;
    assert forall e | e in Events(func) :: e.v == q;
  }

  lemma {:induction false} OneChild(node: Node)
    requires |Children(node)| == 1
    ensures Events(node) == Listed(EventOf(node)) + Events(Children(node)[0])
  {
    hide Children, EventOf;
    assert EventsOfChildren(node, 0) == [] && EventsOfChildren(node, 1) == Events(Children(node)[0]);
  }

  lemma {:induction false} RouteRequestReported()
    ensures Violation(2, "r") in Reported(Events(AskAndRead("model_router", "route_request")))
    ensures Violation(2, "r") !in Reported(Events(AskAndRead("model", "ainvoke")))
  {
    AskAndReadIff("model_router", "route_request");
    AskAndReadIff("model", "ainvoke");
  }
}
