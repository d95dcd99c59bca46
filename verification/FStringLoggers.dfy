/** scripts/convert_fstring_loggers.py, the translation half: an f-string becomes a printf format
    and the list of its field expressions. */
module FStringLoggers {
  import opened Wrappers
  import opened Printf
  import opened PyCalls

  datatype SpecPart = SpecText(text: string) | SpecField

  datatype Child =
    | Text(text: string)
    | Field(expr: Expr, conversion: Option<int>, spec: Option<seq<SpecPart>>)
    | OtherChild

  datatype Error = NestedSpec | UnsupportedChild

  type Emitted = (string, seq<Expr>)

  const TYPE_LETTERS: set<char> := KINDS + {'%'}

  function ConvChar(c: Option<int>): (kind: char) {
    if c == None || c == Some(0) || c == Some(1) then 's'
    else if c == Some(2) then 'r'
    else if c == Some(3) then 'a'
    else 's'
  }

  /** What a conversion code means in the syntax tree of CPython: 114 is `!r`, 97 is `!a`, and both
      115 (`!s`) and -1 (no conversion) give the plain text. */
  function CPythonMeaning(c: Option<int>): char {
    if c == Some(114) then 'r' else if c == Some(97) then 'a' else 's'
  }

  function SpecParts(parts: seq<SpecPart>): Result<string, Error> {
    if parts == [] then Ok("")
    else if parts[0].SpecField? then Err(NestedSpec)
    else
      var rest := SpecParts(parts[1..]);
      if rest.Ok? then Ok(parts[0].text + rest.value) else rest
  }

  function SpecLiteral(spec: Option<seq<SpecPart>>): Result<string, Error> {
    if spec.None? then Ok("") else SpecParts(spec.value)
  }

  /** The loop of `_spec_literal`. */
  method FlattenSpec(spec: Option<seq<SpecPart>>) returns (r: Result<string, Error>)
    ensures r == SpecLiteral(spec)
  {
    if spec.None? {
      return Ok("");
    }
    var parts := "";
    assert spec.value[0..] == spec.value;
    assert SpecParts(spec.value).Ok? ==> parts + SpecParts(spec.value).value == SpecParts(spec.value).value;
    for i := 0 to |spec.value|
      invariant SpecParts(spec.value) ==
        var rest := SpecParts(spec.value[i..]);
        if rest.Ok? then Ok(parts + rest.value) else rest
    {
      if spec.value[i].SpecField? {
        return Err(NestedSpec);
      }
      assert spec.value[i..][1..] == spec.value[i + 1..];
      var rest := SpecParts(spec.value[i + 1..]);
      assert rest.Ok? ==> parts + (spec.value[i].text + rest.value) == parts + spec.value[i].text + rest.value;
      parts := parts + spec.value[i].text;
    }
    assert spec.value[|spec.value|..] == [] && parts + "" == parts;
    r := Ok(parts);
  }

  /** The directive `_formatted_to_printf` builds, without its percent sign: body and letter. */
  function DirectiveOf(spec: string, conversion: Option<int>): (string, char) {
    if spec != "" && spec[|spec| - 1] in TYPE_LETTERS then (spec[..|spec| - 1], spec[|spec| - 1])
    else (spec, ConvChar(conversion))
  }

  function FormattedToPrintf(spec: string, conversion: Option<int>): string {
    if spec == "" then ['%', ConvChar(conversion)]
    else if spec[|spec| - 1] in TYPE_LETTERS then "%" + spec
    else "%" + spec + [ConvChar(conversion)]
  }

  function EscapePercent(text: string): string {
    if text == "" then ""
    else (if text[0] == '%' then "%%" else [text[0]]) + EscapePercent(text[1..])
  }

  function EmitChild(c: Child): Result<Emitted, Error> {
    match c
    case Text(text) => Ok((EscapePercent(text), []))
    case Field(expr, conversion, spec) =>
      var s := SpecLiteral(spec);
      if s.Ok? then Ok((FormattedToPrintf(s.value, conversion), [expr])) else Err(s.error)
    case OtherChild => Err(UnsupportedChild)
  }

  function Append(a: Emitted, b: Result<Emitted, Error>): Result<Emitted, Error> {
    if b.Ok? then Ok((a.0 + b.value.0, a.1 + b.value.1)) else b
  }

  /** Format and arguments of an f-string, or the error of its first unsupported child. */
  function Emit(children: seq<Child>): Result<Emitted, Error> {
    if children == [] then Ok(("", []))
    else
      var head := EmitChild(children[0]);
      if head.Ok? then Append(head.value, Emit(children[1..])) else head
  }

  /** The loop of `_joined_str_to_printf`. */
  method JoinedStrToPrintf(children: seq<Child>) returns (r: Result<Emitted, Error>)
    ensures r == Emit(children)
  {
    var parts: string, args: seq<Expr> := "", [];
    AppendEmpty(Emit(children));
    assert children[0..] == children;
    for i := 0 to |children|
      invariant Emit(children) == Append((parts, args), Emit(children[i..]))
    {
      assert children[i..][1..] == children[i + 1..];
      match children[i] {
        case Text(text) =>
          AppendAssoc((parts, args), (EscapePercent(text), []), Emit(children[i + 1..]));
          parts := parts + EscapePercent(text);
          assert args + [] == args;
        case Field(expr, conversion, spec) =>
          var s := FlattenSpec(spec);
          if s.Err? {
            return Err(s.error);
          }
          var directive := FormattedToPrintf(s.value, conversion);
          AppendAssoc((parts, args), (directive, [expr]), Emit(children[i + 1..]));
          parts := parts + directive;
          args := args + [expr];
        case OtherChild =>
          return Err(UnsupportedChild);
      }
    }
    assert children[|children|..] == [] && parts + "" == parts && args + [] == args;
    r := Ok((parts, args));
  }

  lemma {:induction false} AppendEmpty(e: Result<Emitted, Error>)
    ensures Append(("", []), e) == e
  {
    if e.Ok? {
      assert "" + e.value.0 == e.value.0 && [] + e.value.1 == e.value.1;
    }
  }

  lemma {:induction false} AppendAssoc(a: Emitted, b: Emitted, c: Result<Emitted, Error>)
    ensures Append(a, Append(b, c)) == Append((a.0 + b.0, a.1 + b.1), c)
  {
    if c.Ok? {
      assert a.0 + (b.0 + c.value.0) == a.0 + b.0 + c.value.0;
      assert a.1 + (b.1 + c.value.1) == a.1 + b.1 + c.value.1;
    }
  }

  // --- the meaning of an f-string ---

  function Converted(v: Value, kind: char): string {
    if kind == 'r' then v.repr else if kind == 'a' then v.ascii else v.str
  }

  /** The text of one child; `meaning` says what the conversion codes stand for. */
  function ChildText(c: Child, env: Env, meaning: Option<int> -> char): Option<string> {
    match c
    case Text(text) => Some(text)
    case Field(expr, conversion, spec) =>
      var s := SpecLiteral(spec);
      if s.Err? then None
      else if s.value == "" then Some(Converted(env(expr), meaning(conversion)))
      else env(expr).format(conversion, s.value)
    case OtherChild => None
  }

  /** The text of the f-string itself. */
  function Eval(children: seq<Child>, env: Env, meaning: Option<int> -> char): Option<string> {
    if children == [] then Some("")
    else Glue(ChildText(children[0], env, meaning), Eval(children[1..], env, meaning))
  }

  // --- the emitted format is read back as exactly the segments that went in ---

  /** `body` is flags, width digits, an optional precision and an optional length modifier. */
  ghost predicate DirectiveBody(body: string) {
    exists i, j, k | 0 <= i <= j <= k <= |body| :: BodySplit(body, i, j, k)
  }

  ghost predicate BodySplit(body: string, i: nat, j: nat, k: nat)
    requires i <= j <= k <= |body|
  {
    && (forall n | 0 <= n < i :: body[n] in FLAGS)
    && (forall n | i <= n < j :: body[n] in DIGITS)
    && (j == k || (body[j] == '.' && forall n | j < n < k :: body[n] in DIGITS))
    && (k == |body| || (k + 1 == |body| && body[k] in LENGTHS))
  }

  ghost predicate PrintfSpec(spec: string, conversion: Option<int>) {
    var d := DirectiveOf(spec, conversion);
    DirectiveBody(d.0) && d.1 != '%'
  }

  ghost predicate PrintfShaped(c: Child) {
    match c
    case Text(_) => true
    case Field(_, conversion, spec) =>
      SpecLiteral(spec).Ok? && PrintfSpec(SpecLiteral(spec).value, conversion)
    case OtherChild => false
  }

  ghost predicate AllPrintfShaped(children: seq<Child>) {
    forall i | 0 <= i < |children| :: PrintfShaped(children[i])
  }

  /** The scanner inside a directive, behind `body`. */
  function ScanBody(body: string): Scan {
    ScanAll(Scan([], Inside(Flags, "")), body)
  }

  lemma {:induction false} ScanBodySnoc(body: string, c: char)
    ensures ScanBody(body + [c]) == Step(ScanBody(body), c)
  {
    ScanConcat(Scan([], Inside(Flags, "")), body, [c]);
  }

  lemma {:induction false} ScannedIsBody(body: string) returns (i: nat, j: nat, k: nat)
    requires ScanBody(body).Scan? && ScanBody(body).tokens == []
    ensures ScanBody(body).mode.Inside? && ScanBody(body).mode.body == body
    ensures i <= j <= k <= |body| && BodySplit(body, i, j, k)
    ensures match ScanBody(body).mode.phase
            case Flags => i == |body|
            case Width => j == |body|
            case Precision => j < k == |body|
            case Letter => k < |body|
  {
    i, j, k := 0, 0, 0;
    if body != "" {
      var n := |body| - 1;
      var init, c := body[..n], body[n];
      assert body == init + [c];
      ScanBodySnoc(init, c);
      i, j, k := ScannedIsBody(init);
      match ScanBody(body).mode.phase {
        case Flags => i, j, k := n + 1, n + 1, n + 1;
        case Width => j, k := n + 1, n + 1;
        case Precision => k := n + 1;
        case Letter =>
      }
    }
  }

  lemma {:induction false} BodyIsScanned(body: string, i: nat, j: nat, k: nat)
    requires i <= j <= k <= |body| && BodySplit(body, i, j, k)
    ensures ScanBody(body).Scan? && ScanBody(body).tokens == []
    ensures ScanBody(body).mode.Inside? && ScanBody(body).mode.body == body
    ensures i == |body| ==> ScanBody(body).mode.phase == Flags
    ensures j == |body| ==> ScanBody(body).mode.phase in {Flags, Width}
    ensures k == |body| ==> ScanBody(body).mode.phase != Letter
  {
    if body != "" {
      var n := |body| - 1;
      var init, c := body[..n], body[n];
      assert body == init + [c];
      ScanBodySnoc(init, c);
      var i', j', k' := if i > n then n else i, if j > n then n else j, if k > n then n else k;
      BodyIsScanned(init, i', j', k');
    }
  }

  /** The scanner goes through exactly the bodies of the grammar. */
  lemma {:induction false} BodyGrammar(body: string)
    ensures ScanBody(body).Scan? && ScanBody(body).tokens == [] <==> DirectiveBody(body)
    ensures DirectiveBody(body) ==> ScanBody(body).mode.Inside? && ScanBody(body).mode.body == body
  {
    if DirectiveBody(body) {
      var i, j, k :| 0 <= i <= j <= k <= |body| && BodySplit(body, i, j, k);
      BodyIsScanned(body, i, j, k);
    } else if ScanBody(body).Scan? && ScanBody(body).tokens == [] {
      var i, j, k := ScannedIsBody(body);
    }
  }

  /** The tokens an f-string should turn into. */
  function ChildTokens(c: Child): seq<Token> {
    match c
    case Text(text) => Lits(text)
    case Field(_, conversion, spec) =>
      var s := SpecLiteral(spec);
      if s.Err? then [] else
      var d := DirectiveOf(s.value, conversion);
      [Directive(d.0, d.1)]
    case OtherChild => []
  }

  function Tokens(children: seq<Child>): seq<Token> {
    if children == [] then [] else ChildTokens(children[0]) + Tokens(children[1..])
  }

  lemma {:induction false} EscapedText(text: string)
    ensures Tokenise(EscapePercent(text)) == Some(Lits(text))
  {
    if text != "" {
      EscapedText(text[1..]);
      var head := if text[0] == '%' then "%%" else [text[0]];
      if text[0] == '%' {
        DoubledPercent();
      } else {
        PlainTokens(head);
        assert Lits(head) == [Lit(text[0])];
      }
      TokeniseConcat(head, EscapePercent(text[1..]));
      assert Lits(text) == [Lit(text[0])] + Lits(text[1..]);
    } else {
      assert Lits(text) == [];
    }
  }

  lemma {:induction false} DoubledPercent()
    ensures Tokenise("%%") == Some([Lit('%')])
  {
    assert "%%"[1..] == "%" && "%"[1..] == "";
    assert Step(Scan([], Inside(Flags, "")), '%') == Scan([] + [Lit('%')], Plain);
    assert [] + [Lit('%')] == [Lit('%')];
  }

  lemma {:induction false} DirectiveBegun(body: string)
    ensures ScanAll(Scan([], Plain), "%" + body) == ScanBody(body)
  {
    ScanConcat(Scan([], Plain), "%", body);
    assert "%"[1..] == "";
  }

  lemma {:induction false} DirectiveEnds(body: string, kind: char)
    requires DirectiveBody(body) && kind in KINDS
    ensures Step(ScanBody(body), kind) == Scan([Directive(body, kind)], Plain)
  {
    hide DirectiveBody, ScanBody;
    BodyGrammar(body);
    assert [] + [Directive(body, kind)] == [Directive(body, kind)];
  }

  lemma {:induction false} OneDirective(body: string, kind: char)
    requires DirectiveBody(body) && kind in KINDS
    ensures Tokenise("%" + body + [kind]) == Some([Directive(body, kind)])
  {
    hide DirectiveBody, ScanBody, Step;
    var start := Scan([], Plain);
    ScanConcat(start, "%" + body, [kind]);
    DirectiveBegun(body);
    DirectiveEnds(body, kind);
    assert [kind][1..] == "";
  }

  lemma {:induction false} ChildTokenised(c: Child)
    requires PrintfShaped(c)
    ensures EmitChild(c).Ok?
    ensures Tokenise(EmitChild(c).value.0) == Some(ChildTokens(c))
    ensures DirectiveCount(ChildTokens(c)) == |EmitChild(c).value.1|
  {
    match c
    case Text(text) =>
      EscapedText(text);
      LitsAreText(text);
    case Field(_, conversion, spec) =>
      var s := SpecLiteral(spec).value;
      var d := DirectiveOf(s, conversion);
      assert FormattedToPrintf(s, conversion) == "%" + d.0 + [d.1];
      OneDirective(d.0, d.1);
  }

  /** Reading the emitted format as printf recovers the segments exactly: every literal with its
      percent signs undone, every field as one directive with its own body and letter, in order,
      and as many directives as arguments - whatever stands next to what. */
  lemma {:induction false} EmittedFormatIsReadBack(children: seq<Child>)
    requires AllPrintfShaped(children)
    ensures Emit(children).Ok?
    ensures Tokenise(Emit(children).value.0) == Some(Tokens(children))
    ensures DirectiveCount(Tokens(children)) == |Emit(children).value.1|
  {
    if children != [] {
      ChildTokenised(children[0]);
      EmittedFormatIsReadBack(children[1..]);
      TokeniseConcat(EmitChild(children[0]).value.0, Emit(children[1..]).value.0);
      CountConcat(ChildTokens(children[0]), Tokens(children[1..]));
    }
  }

  /** A directive that the scanner can have found. */
  ghost predicate Genuine(t: Token) {
    t.Directive? ==> DirectiveBody(t.body) && t.kind in KINDS
  }

  /** All directives found are such, and the one begun goes through the scanner on its own. */
  ghost predicate GenuineScan(st: Scan) {
    st.Scan? ==>
      && (forall t | t in st.tokens :: Genuine(t))
      && (st.mode.Inside? ==> ScanBody(st.mode.body) == Scan([], st.mode))
  }

  lemma {:induction false} GenuineStep(st: Scan, c: char)
    requires GenuineScan(st)
    ensures GenuineScan(Step(st, c))
  {
    hide DirectiveBody;
    if st.Scan? && st.mode.Inside? {
      ScanBodySnoc(st.mode.body, c);
      BodyGrammar(st.mode.body);
    }
  }

  lemma {:induction false} GenuineAll(st: Scan, s: string)
    requires GenuineScan(st)
    ensures GenuineScan(ScanAll(st, s))
    decreases |s|
  {
    hide GenuineScan, Step;
    if s != "" {
      GenuineStep(st, s[0]);
      GenuineAll(Step(st, s[0]), s[1..]);
    }
  }

  lemma {:induction false} FieldToken(children: seq<Child>, i: nat)
    requires Emit(children).Ok? && i < |children|
    ensures !children[i].OtherChild?
    ensures children[i].Field? ==>
              && SpecLiteral(children[i].spec).Ok?
              && var d := DirectiveOf(SpecLiteral(children[i].spec).value, children[i].conversion);
                 Directive(d.0, d.1) in Tokens(children)
  {
    hide SpecLiteral, DirectiveOf;
    if i > 0 {
      FieldToken(children[1..], i - 1);
    }
  }

  /** The converter's output is read back as its segments if and only if every spec is printf-shaped:
      any other spec that it converts spoils the format. */
  lemma {:induction false} ReadBackIff(children: seq<Child>)
    requires Emit(children).Ok?
    ensures Tokenise(Emit(children).value.0) == Some(Tokens(children)) <==> AllPrintfShaped(children)
  {
    if AllPrintfShaped(children) {
      EmittedFormatIsReadBack(children);
    } else if Tokenise(Emit(children).value.0) == Some(Tokens(children)) {
      hide DirectiveBody, SpecLiteral, DirectiveOf, Emit, Tokens;
      GenuineAll(Scan([], Plain), Emit(children).value.0);
      forall i | 0 <= i < |children|
        ensures PrintfShaped(children[i])
      {
        FieldToken(children, i);
      }
    }
  }

  /** A character that cannot stand behind the percent sign of a directive. */
  predicate StartsNoDirective(c: char) {
    c != '%' && c != '.' && c !in FLAGS && c !in DIGITS && c !in LENGTHS && c !in KINDS
  }

  /** A spec that starts with such a character - a separator or an alignment, which is promised to be
      skipped - is converted, to a format that raises. */
  lemma {:induction false} AlignmentRaises(x: Expr, conversion: Option<int>, spec: string)
    requires spec != "" && StartsNoDirective(spec[0])
    ensures var children := [Field(x, conversion, Some([SpecText(spec)]))];
            Emit(children).Ok? && Tokenise(Emit(children).value.0) == None
  {
    var fmt := FormattedToPrintf(spec, conversion);
    assert fmt[0] == '%' && fmt[1] == spec[0];
    EmitOne(x, conversion, spec);
    BrokenAtSecond(fmt);
  }

  lemma {:induction false} EmitOne(x: Expr, conversion: Option<int>, spec: string)
    ensures Emit([Field(x, conversion, Some([SpecText(spec)]))]) == Ok((FormattedToPrintf(spec, conversion), [x]))
  {
    hide FormattedToPrintf;
    var fmt := FormattedToPrintf(spec, conversion);
    assert SpecParts([SpecText(spec)][1..]) == Ok("") && spec + "" == spec;
    assert Emit([Field(x, conversion, Some([SpecText(spec)]))][1..]) == Ok(("", []));
    assert fmt + "" == fmt && [x] + [] == [x];
  }

  /** Both specs that are named as skipped are of that kind. */
  lemma {:induction false} PromisedSkipsConverted(x: Expr, spec: string)
    requires spec == "," || spec == ">10.2e"
    ensures var children := [Field(x, None, Some([SpecText(spec)]))];
            Emit(children).Ok? && Tokenise(Emit(children).value.0) == None
  {
    AlignmentRaises(x, None, spec);
  }

  lemma {:induction false} BrokenAtSecond(fmt: string)
    requires |fmt| >= 2 && fmt[0] == '%' && Step(Scan([], Inside(Flags, "")), fmt[1]) == Broken
    ensures Tokenise(fmt) == None
  {
    var start := Scan([], Plain);
    assert Step(start, '%') == Scan([], Inside(Flags, ""));
    assert fmt[1..][0] == fmt[1] && fmt[1..][1..] == fmt[2..];
    assert ScanAll(start, fmt) == ScanAll(Step(start, '%'), fmt[1..]);
    assert ScanAll(Step(start, '%'), fmt[1..]) == ScanAll(Broken, fmt[2..]);
    BrokenStays(fmt[2..]);
  }

  // --- what the converted call logs ---

  /** The text a child contributes to the formatted message. */
  function DirectiveChildText(c: Child, env: Env): Option<string> {
    match c
    case Text(text) => Some(text)
    case Field(expr, conversion, spec) =>
      var s := SpecLiteral(spec);
      if s.Err? then None else
      var d := DirectiveOf(s.value, conversion);
      DirectiveText(env(expr), d.0, d.1)
    case OtherChild => None
  }

  function DirectiveTexts(children: seq<Child>, env: Env): Option<string> {
    if children == [] then Some("")
    else Glue(DirectiveChildText(children[0], env), DirectiveTexts(children[1..], env))
  }

  /** Formatting the emitted format with the emitted arguments goes field by field: each field's
      text is that of its own directive on its own value, and the literals come out unescaped. */
  lemma {:induction false} EmittedFormatRenders(children: seq<Child>, env: Env)
    requires AllPrintfShaped(children)
    ensures Emit(children).Ok?
    ensures Percent(Emit(children).value.0, Values(Emit(children).value.1, env)) ==
            DirectiveTexts(children, env)
  {
    EmittedFormatIsReadBack(children);
    if children != [] {
      var head, tail := EmitChild(children[0]).value, Emit(children[1..]).value;
      ChildTokenised(children[0]);
      EmittedFormatIsReadBack(children[1..]);
      EmittedFormatRenders(children[1..], env);
      ValuesConcat(head.1, tail.1, env);
      RenderConcat(ChildTokens(children[0]), Tokens(children[1..]), Values(head.1, env), Values(tail.1, env));
      if children[0].Text? {
        LitsAreText(children[0].text);
        assert Values(head.1, env) == [];
      } else {
        var d := ChildTokens(children[0])[0];
        assert Values(head.1, env)[1..] == [];
        var t := DirectiveText(env(children[0].expr), d.body, d.kind);
        assert t.Some? ==> t.value + "" == t.value;
        assert ChildTokens(children[0])[1..] == [];
      }
    }
  }

  lemma {:induction false} FieldsKeptTextsKept(children: seq<Child>, env: Env, meaning: Option<int> -> char)
    requires forall i | 0 <= i < |children| ::
      DirectiveChildText(children[i], env) == ChildText(children[i], env, meaning)
    ensures DirectiveTexts(children, env) == Eval(children, env, meaning)
  {
    if children != [] {
      assert forall i | 0 <= i < |children[1..]| :: children[1..][i] == children[i + 1];
      FieldsKeptTextsKept(children[1..], env, meaning);
    }
  }

  ghost predicate Specless(c: Child) {
    c.Text? || (c.Field? && SpecLiteral(c.spec) == Ok(""))
  }

  ghost predicate AllSpecless(children: seq<Child>) {
    forall i | 0 <= i < |children| :: Specless(children[i])
  }

  ghost predicate HasField(children: seq<Child>) {
    exists i | 0 <= i < |children| :: children[i].Field?
  }

  ghost predicate NoPercent(children: seq<Child>) {
    forall i | 0 <= i < |children| && children[i].Text? :: '%' !in children[i].text
  }

  ghost predicate ConversionsKept(children: seq<Child>, meaning: Option<int> -> char) {
    forall i | 0 <= i < |children| && children[i].Field? ::
      ConvChar(children[i].conversion) == meaning(children[i].conversion)
  }

  ghost predicate Meaningful(meaning: Option<int> -> char) {
    forall c :: meaning(c) in {'s', 'r', 'a'}
  }

  /** The logged message is the f-string's own text on these values. */
  ghost predicate SameMessage(children: seq<Child>, env: Env, meaning: Option<int> -> char)
    requires Emit(children).Ok?
  {
    Logged(Emit(children).value.0, Values(Emit(children).value.1, env)) == Eval(children, env, meaning)
  }

  lemma {:induction false} SpeclessIsShaped(children: seq<Child>)
    requires AllSpecless(children)
    ensures AllPrintfShaped(children)
  {
    assert BodySplit("", 0, 0, 0);
    assert DirectiveBody("");
  }

  /** Values whose three texts are different single characters: with them the two texts have the
      same length, so they are equal only if they agree field by field. */
  const TELLTALE: Value := Value("s", "r", "a", (b, k) => None, (c, s) => None)

  lemma {:induction false} SpeclessTexts(children: seq<Child>, env: Env, meaning: Option<int> -> char)
    requires AllSpecless(children) && Meaningful(meaning)
    ensures ConversionsKept(children, meaning) ==>
              DirectiveTexts(children, env) == Eval(children, env, meaning)
    ensures DirectiveTexts(children, env).Some? && Eval(children, env, meaning).Some?
    ensures (forall e :: env(e) == TELLTALE) ==>
              && |DirectiveTexts(children, env).value| == |Eval(children, env, meaning).value|
              && (DirectiveTexts(children, env) == Eval(children, env, meaning) ==> ConversionsKept(children, meaning))
  {
    if children != [] {
      var tail := children[1..];
      SpeclessTexts(tail, env, meaning);
      var a, b := DirectiveChildText(children[0], env).value, ChildText(children[0], env, meaning).value;
      var x, y := DirectiveTexts(tail, env).value, Eval(tail, env, meaning).value;
      if ConversionsKept(children, meaning) {
        assert ConversionsKept(tail, meaning);
      }
      if (forall e :: env(e) == TELLTALE) && a + x == b + y {
        assert |a| == |b|;
        assert a == (a + x)[..|a|] == (b + y)[..|b|] == b;
        assert x == (a + x)[|a|..] == (b + y)[|b|..] == y;
        assert forall i | 1 <= i < |children| :: children[i] == tail[i - 1];
        if children[0].Field? {
          assert a[0] == b[0];
        }
      }
    }
  }

  lemma {:induction false} EscapeLonger(text: string)
    ensures |EscapePercent(text)| >= |text|
    ensures '%' in text <==> |EscapePercent(text)| > |text|
    ensures '%' !in text ==> EscapePercent(text) == text
  {
    if text != "" {
      EscapeLonger(text[1..]);
      assert text == [text[0]] + text[1..];
    }
  }

  lemma {:induction false} FieldlessFormat(children: seq<Child>, env: Env, meaning: Option<int> -> char)
    requires AllSpecless(children) && !HasField(children)
    ensures Emit(children).Ok? && Emit(children).value.1 == []
    ensures Eval(children, env, meaning).Some?
    ensures |Emit(children).value.0| >= |Eval(children, env, meaning).value|
    ensures NoPercent(children) ==> Emit(children).value.0 == Eval(children, env, meaning).value
    ensures !NoPercent(children) ==> |Emit(children).value.0| > |Eval(children, env, meaning).value|
  {
    if children != [] {
      assert forall i | 0 <= i < |children[1..]| :: children[1..][i] == children[i + 1];
      assert children[0].Text?;
      FieldlessFormat(children[1..], env, meaning);
      EscapeLonger(children[0].text);
      if '%' !in children[0].text && NoPercent(children[1..]) {
        assert forall i | 1 <= i < |children| :: children[i] == children[1..][i - 1];
        assert NoPercent(children);
      }
    }
  }

  lemma {:induction false} FieldsAreArguments(children: seq<Child>)
    requires Emit(children).Ok?
    ensures HasField(children) <==> Emit(children).value.1 != []
  {
    if children != [] {
      FieldsAreArguments(children[1..]);
      if HasField(children[1..]) {
        var i :| 0 <= i < |children[1..]| && children[1..][i].Field?;
        assert children[i + 1].Field?;
      }
      if HasField(children) && !children[0].Field? {
        var i :| 0 <= i < |children| && children[i].Field?;
        assert children[1..][i - 1].Field?;
      }
    }
  }

  /** With format specs, where each directive prints its value the way the field did, the message
      logged is the f-string's own text if and only if there is a field or no percent sign: nothing
      else can go wrong, however the segments are arranged. */
  lemma {:induction false} FieldsKeptMessageKept(children: seq<Child>, env: Env, meaning: Option<int> -> char)
    requires AllPrintfShaped(children)
    requires forall i | 0 <= i < |children| ::
      DirectiveChildText(children[i], env) == ChildText(children[i], env, meaning)
    ensures Emit(children).Ok?
    ensures SameMessage(children, env, meaning) <==> HasField(children) || NoPercent(children)
  {
    EmittedFormatIsReadBack(children);
    FieldsAreArguments(children);
    if HasField(children) {
      EmittedFormatRenders(children, env);
      FieldsKeptTextsKept(children, env, meaning);
    } else {
      assert AllSpecless(children);
      FieldlessFormat(children, env, meaning);
    }
  }

  /** A converted f-string without format specs, as the only positional argument, logs the
      f-string's own text for all values exactly when some field or no percent sign is there
      (logging leaves a format without arguments alone) and every conversion code means to
      `_conv_char` what it means in `meaning`. */
  lemma {:induction false} MessageKeptIff(children: seq<Child>, meaning: Option<int> -> char)
    requires AllSpecless(children) && Meaningful(meaning)
    ensures Emit(children).Ok?
    ensures (forall env: Env :: SameMessage(children, env, meaning)) <==>
            (HasField(children) || NoPercent(children)) && ConversionsKept(children, meaning)
  {
    SpeclessIsShaped(children);
    EmittedFormatIsReadBack(children);
    FieldsAreArguments(children);
    var telltale: Env := e => TELLTALE;
    if HasField(children) {
      forall env: Env
        ensures SameMessage(children, env, meaning) <==>
                DirectiveTexts(children, env) == Eval(children, env, meaning)
      {
        EmittedFormatRenders(children, env);
      }
      forall env: Env
        ensures ConversionsKept(children, meaning) ==> SameMessage(children, env, meaning)
      {
        SpeclessTexts(children, env, meaning);
      }
      SpeclessTexts(children, telltale, meaning);
      assert SameMessage(children, telltale, meaning) ==> ConversionsKept(children, meaning);
    } else {
      forall env: Env
        ensures SameMessage(children, env, meaning) <==> NoPercent(children)
      {
        FieldlessFormat(children, env, meaning);
      }
      assert SameMessage(children, telltale, meaning) <==> NoPercent(children);
    }
  }

  /** Over CPython's syntax tree `!r` and `!a` are lost and everything else is kept: an f-string
      without format specs keeps its message for all values exactly when it has a field or no
      percent sign and no field carries code 114 or 97 (2 and 3 never occur there). */
  lemma {:induction false} MessageKeptUnderCPython(children: seq<Child>)
    requires AllSpecless(children)
    ensures Emit(children).Ok?
    ensures (forall env: Env :: SameMessage(children, env, CPythonMeaning)) <==>
            && (HasField(children) || NoPercent(children))
            && (forall i | 0 <= i < |children| && children[i].Field? ::
                  children[i].conversion !in {Some(114), Some(97), Some(2), Some(3)})
  {
    MessageKeptIff(children, CPythonMeaning);
  }

  /** `f"{x!r}"` from CPython's parser, x the string a: logged as a, not as 'a' in quotes. */
  lemma {:induction false} ReprIsLost(x: Expr, env: Env)
    requires env(x).str == "a" && env(x).repr == "'a'"
    ensures var children := [Field(x, Some(114), None)];
            && Emit(children) == Ok(("%s", [x]))
            && Eval(children, env, CPythonMeaning) == Some("'a'")
            && Logged("%s", Values([x], env)) == Some("a")
  {
    var children := [Field(x, Some(114), None)];
    assert children[1..] == [];
    assert FormattedToPrintf("", Some(114)) == "%s";
    assert Emit(children) == Append(("%s", [x]), Ok(("", [])));
    assert "%s" + "" == "%s" && [x] + [] == [x] && "'a'" + "" == "'a'" && "a" + "" == "a";
    SpeclessIsShaped(children);
    EmittedFormatRenders(children, env);
  }

  /** Behind further positional arguments the converted call never formats: the arguments
      outnumber the directives. */
  lemma {:induction false} TrailingArgumentsFail(children: seq<Child>, more: seq<Expr>, env: Env)
    requires AllPrintfShaped(children) && more != []
    ensures Emit(children).Ok?
    ensures Logged(Emit(children).value.0, Values(Emit(children).value.1 + more, env)) == None
  {
    EmittedFormatIsReadBack(children);
    var args := Values(Emit(children).value.1 + more, env);
    if Render(Tokens(children), args).Some? {
      RenderNeedsAllArgs(Tokens(children), args);
    }
  }
}
