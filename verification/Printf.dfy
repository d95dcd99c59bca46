/** Printf-style formatting of a string with a tuple of values: the "printf-style String
    Formatting" section of Python's Built-in Types, and the way the logging package uses it. */
module Printf {
  import opened Wrappers

  const FLAGS: set<char> := {'-', '+', ' ', '#', '0'}
  const DIGITS: set<char> := {'0', '1', '2', '3', '4', '5', '6', '7', '8', '9'}
  const LENGTHS: set<char> := {'h', 'l', 'L'}
  const KINDS: set<char> :=
    {'d', 'i', 'o', 'u', 'x', 'X', 'e', 'E', 'f', 'F', 'g', 'G', 'c', 'r', 's', 'a'}

  /** A value as far as formatting sees it.  `percent(body, kind)` is the text of the directive
      "%" + body + [kind], `format(conv, spec)` the text of the value in an f-string field with
      conversion `conv` and non-empty spec; either is None where Python raises. */
  datatype Value = Value(
    str: string, repr: string, ascii: string,
    percent: (string, char) -> Option<string>,
    format: (Option<int>, string) -> Option<string>)

  datatype Token = Lit(c: char) | Directive(body: string, kind: char)

  /** What may still follow in a directive: flags, then the width, the precision, one length
      modifier, the conversion letter. */
  datatype Phase = Flags | Width | Precision | Letter

  datatype Mode = Plain | Inside(phase: Phase, body: string)

  /** The scanner of a format; it is Broken where formatting raises on an unsupported character. */
  datatype Scan = Broken | Scan(tokens: seq<Token>, mode: Mode)

  function Step(st: Scan, c: char): Scan {
    match st
    case Broken => Broken
    case Scan(tokens, Plain) =>
      if c == '%' then Scan(tokens, Inside(Flags, "")) else Scan(tokens + [Lit(c)], Plain)
    case Scan(tokens, Inside(phase, body)) =>
      if phase == Flags && c in FLAGS then Scan(tokens, Inside(Flags, body + [c]))
      else if phase in {Flags, Width} && c in DIGITS then Scan(tokens, Inside(Width, body + [c]))
      else if phase in {Flags, Width} && c == '.' then Scan(tokens, Inside(Precision, body + [c]))
      else if phase == Precision && c in DIGITS then Scan(tokens, Inside(Precision, body + [c]))
      else if phase != Letter && c in LENGTHS then Scan(tokens, Inside(Letter, body + [c]))
      else if c == '%' then Scan(tokens + [Lit('%')], Plain)
      else if c in KINDS then Scan(tokens + [Directive(body, c)], Plain)
      else Broken
  }

  function ScanAll(st: Scan, s: string): Scan
    decreases |s|
  {
    if s == "" then st else ScanAll(Step(st, s[0]), s[1..])
  }

  /** The tokens of a format; None where formatting raises because a directive is cut off or has
      no known conversion letter. */
  function Tokenise(s: string): Option<seq<Token>> {
    var end := ScanAll(Scan([], Plain), s);
    if end.Scan? && end.mode.Plain? then Some(end.tokens) else None
  }

  function Prepend(a: seq<Token>, b: Option<seq<Token>>): Option<seq<Token>> {
    if b.Some? then Some(a + b.value) else None
  }

  function DirectiveText(v: Value, body: string, kind: char): Option<string> {
    if body != "" then v.percent(body, kind)
    else if kind == 's' then Some(v.str)
    else if kind == 'r' then Some(v.repr)
    else if kind == 'a' then Some(v.ascii)
    else v.percent(body, kind)
  }

  /** Each directive takes the next value; too few or too many values raise. */
  function Render(tokens: seq<Token>, args: seq<Value>): Option<string> {
    if tokens == [] then (if args == [] then Some("") else None)
    else match tokens[0]
      case Lit(c) => Glue(Some([c]), Render(tokens[1..], args))
      case Directive(body, kind) =>
        if args == [] then None
        else Glue(DirectiveText(args[0], body, kind), Render(tokens[1..], args[1..]))
  }

  function Glue(a: Option<string>, b: Option<string>): Option<string> {
    if a.Some? && b.Some? then Some(a.value + b.value) else None
  }

  /** `fmt % args`. */
  function Percent(fmt: string, args: seq<Value>): Option<string> {
    var tokens := Tokenise(fmt);
    if tokens.Some? then Render(tokens.value, args) else None
  }

  /** The message of a log record: logging formats only when there are arguments. */
  function Logged(fmt: string, args: seq<Value>): Option<string> {
    if args == [] then Some(fmt) else Percent(fmt, args)
  }

  function Lits(s: string): seq<Token> {
    seq(|s|, i requires 0 <= i < |s| => Lit(s[i]))
  }

  function DirectiveCount(tokens: seq<Token>): nat {
    if tokens == [] then 0
    else (if tokens[0].Directive? then 1 else 0) + DirectiveCount(tokens[1..])
  }

  // --- formatting distributes over concatenation ---

  lemma {:induction false} ScanConcat(st: Scan, s: string, t: string)
    ensures ScanAll(st, s + t) == ScanAll(ScanAll(st, s), t)
    decreases |s|
  {
    if s == "" {
      assert s + t == t;
    } else {
      assert (s + t)[1..] == s[1..] + t;
      ScanConcat(Step(st, s[0]), s[1..], t);
    }
  }

  lemma {:induction false} BrokenStays(s: string)
    ensures ScanAll(Broken, s) == Broken
  {
    if s != "" {
      BrokenStays(s[1..]);
    }
  }

  function Before(tokens: seq<Token>, st: Scan): Scan {
    if st.Scan? then Scan(tokens + st.tokens, st.mode) else Broken
  }

  /** The tokens found so far do not influence what is found next. */
  lemma {:induction false} ScanBehind(tokens: seq<Token>, st: Scan, s: string)
    ensures ScanAll(Before(tokens, st), s) == Before(tokens, ScanAll(st, s))
    decreases |s|
  {
    if s != "" {
      assert Step(Before(tokens, st), s[0]) == Before(tokens, Step(st, s[0]));
      ScanBehind(tokens, Step(st, s[0]), s[1..]);
    }
  }

  lemma {:induction false} GlueAssoc(a: Option<string>, b: Option<string>, c: Option<string>)
    ensures Glue(a, Glue(b, c)) == Glue(Glue(a, b), c)
  {
    if a.Some? && b.Some? && c.Some? {
      assert a.value + (b.value + c.value) == a.value + b.value + c.value;
    }
  }

  lemma {:induction false} TokeniseConcat(s: string, t: string)
    requires Tokenise(s).Some?
    ensures Tokenise(s + t) == Prepend(Tokenise(s).value, Tokenise(t))
  {
    var start := Scan([], Plain);
    ScanConcat(start, s, t);
    ScanBehind(Tokenise(s).value, start, t);
    assert Before(Tokenise(s).value, start) == ScanAll(start, s);
  }

  lemma {:induction false} RenderConcat(a: seq<Token>, b: seq<Token>, x: seq<Value>, y: seq<Value>)
    requires DirectiveCount(a) == |x|
    ensures Render(a + b, x + y) == Glue(Render(a, x), Render(b, y))
  {
    if a == [] {
      assert a + b == b && x + y == y;
      assert Render(b, y).Some? ==> "" + Render(b, y).value == Render(b, y).value;
    } else {
      assert (a + b)[1..] == a[1..] + b;
      if a[0].Lit? {
        RenderConcat(a[1..], b, x, y);
        GlueAssoc(Some([a[0].c]), Render(a[1..], x), Render(b, y));
      } else {
        assert (x + y)[1..] == x[1..] + y;
        RenderConcat(a[1..], b, x[1..], y);
        GlueAssoc(DirectiveText(x[0], a[0].body, a[0].kind), Render(a[1..], x[1..]), Render(b, y));
      }
    }
  }

  /** Formatting succeeds only on exactly as many values as there are directives. */
  lemma {:induction false} RenderNeedsAllArgs(tokens: seq<Token>, args: seq<Value>)
    requires Render(tokens, args).Some?
    ensures DirectiveCount(tokens) == |args|
  {
    if tokens != [] {
      RenderNeedsAllArgs(tokens[1..], if tokens[0].Lit? then args else args[1..]);
    }
  }

  lemma {:induction false} CountConcat(a: seq<Token>, b: seq<Token>)
    ensures DirectiveCount(a + b) == DirectiveCount(a) + DirectiveCount(b)
  {
    if a == [] {
      assert a + b == b;
    } else {
      assert (a + b)[1..] == a[1..] + b;
      CountConcat(a[1..], b);
    }
  }

  lemma {:induction false} LitsAreText(s: string)
    ensures Render(Lits(s), []) == Some(s)
    ensures DirectiveCount(Lits(s)) == 0
  {
    if s != "" {
      assert Lits(s)[1..] == Lits(s[1..]);
      LitsAreText(s[1..]);
      assert [s[0]] + s[1..] == s;
    }
  }

  lemma {:induction false} RenderLits(s: string, tokens: seq<Token>, args: seq<Value>)
    ensures Render(Lits(s) + tokens, args) == Glue(Some(s), Render(tokens, args))
  {
    LitsAreText(s);
    RenderConcat(Lits(s), tokens, [], args);
    assert [] + args == args;
  }

  /** Text without percent signs is its own format. */
  lemma {:induction false} PlainTokens(s: string)
    requires '%' !in s
    ensures Tokenise(s) == Some(Lits(s))
  {
    if s == "" {
      assert Lits(s) == [];
    } else {
      var t := s[..|s| - 1];
      PlainTokens(t);
      ScanConcat(Scan([], Plain), t, [s[|s| - 1]]);
      assert s == t + [s[|s| - 1]];
      assert Lits(s) == Lits(t) + [Lit(s[|s| - 1])];
    }
  }
}
