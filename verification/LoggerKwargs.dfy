/** scripts/convert_logger_kwargs.py, the translation half: keyword arguments of a logger call move
    into the format string and the positional arguments. */
module LoggerKwargs {
  import opened Wrappers
  import opened Printf
  import opened PyCalls
  import opened Seqs

  const SPECIAL_KWARGS: set<string> := {"exc_info", "stack_info", "stacklevel", "extra"}

  predicate IsSpecial(kw: Keyword) {
    kw.arg.Some? && kw.arg.value in SPECIAL_KWARGS
  }

  predicate IsMovable(kw: Keyword) {
    !IsSpecial(kw)
  }

  function Special(kws: seq<Keyword>): seq<Keyword> {
    Filter(kws, IsSpecial)
  }

  function Movable(kws: seq<Keyword>): seq<Keyword> {
    Filter(kws, IsMovable)
  }

  predicate HasSpread(kws: seq<Keyword>) {
    exists i | 0 <= i < |kws| :: kws[i].arg.None?
  }

  /** ` key=%s` for each keyword. */
  function Fragments(kws: seq<Keyword>): string {
    if kws == [] then "" else Fragment(kws[0]) + Fragments(kws[1..])
  }

  function Fragment(kw: Keyword): string {
    " " + (if kw.arg.Some? then kw.arg.value else "") + "=%s"
  }

  function ValueOf(kw: Keyword): Expr {
    kw.value
  }

  function KeywordValues(kws: seq<Keyword>): seq<Expr> {
    Map(kws, ValueOf)
  }

  /** What `_convert_call` accepts: a literal format, no spread, something to move. */
  predicate Convertible(call: Call) {
    && call.args != []
    && call.args[0].StrConst?
    && !HasSpread(call.keywords)
    && Movable(call.keywords) != []
  }

  function Converted(call: Call): Call
    requires Convertible(call)
  {
    var moved := Movable(call.keywords);
    Call(call.func,
         [StrConst(call.args[0].text + Fragments(moved))] + call.args[1..] + KeywordValues(moved),
         Special(call.keywords))
  }

  method SplitKeywords(kws: seq<Keyword>) returns (r: Option<(seq<Keyword>, seq<Keyword>)>)
    ensures r == if HasSpread(kws) then None else Some((Special(kws), Movable(kws)))
  {
    var keep, moved: seq<Keyword> := [], [];
    for i := 0 to |kws|
      invariant !HasSpread(kws[..i])
      invariant keep == Special(kws[..i]) && moved == Movable(kws[..i])
    {
      var kw := kws[i];
      FilterConcat(kws[..i], [kw], IsSpecial);
      FilterConcat(kws[..i], [kw], IsMovable);
      assert kws[..i] + [kw] == kws[..i + 1];
      if IsSpecial(kw) {
        keep := keep + [kw];
      } else {
        if kw.arg.None? {
          return None;
        }
        moved := moved + [kw];
      }
    }
    assert kws[..|kws|] == kws;
    r := Some((keep, moved));
  }

  method BuildFormat(text: string, moved: seq<Keyword>) returns (fmt: string)
    ensures fmt == text + Fragments(moved)
  {
    var parts := "";
    for i := 0 to |moved|
      invariant parts + Fragments(moved[i..]) == Fragments(moved)
    {
      assert moved[i..][1..] == moved[i + 1..];
      Assoc(parts, Fragment(moved[i]), Fragments(moved[i + 1..]));
      parts := parts + Fragment(moved[i]);
    }
    fmt := text + parts;
  }

  method BuildArgs(args: seq<Expr>, moved: seq<Keyword>) returns (all: seq<Expr>)
    ensures all == args + KeywordValues(moved)
  {
    all := args;
    for i := 0 to |moved|
      invariant all == args + KeywordValues(moved[..i])
    {
      assert moved[..i + 1] == moved[..i] + [moved[i]];
      MapConcat(moved[..i], [moved[i]], ValueOf);
      all := all + [moved[i].value];
    }
    assert moved[..|moved|] == moved;
  }

  /** `_convert_call`. */
  method ConvertCall(call: Call) returns (r: Option<Call>)
    ensures r == if Convertible(call) then Some(Converted(call)) else None
  {
    if call.args == [] || !call.args[0].StrConst? {
      return None;
    }
    var split := SplitKeywords(call.keywords);
    if split.None? || split.value.1 == [] {
      return None;
    }
    var fmt := BuildFormat(call.args[0].text, split.value.1);
    var args := BuildArgs(call.args[1..], split.value.1);
    assert [StrConst(fmt)] + args == [StrConst(fmt)] + call.args[1..] + KeywordValues(split.value.1);
    r := Some(Call(call.func, [StrConst(fmt)] + args, split.value.0));
  }

  // --- by name ---

  predicate StaysKeyword(kw: Keyword) {
    kw.arg.Some? && kw.arg.value in {"exc_info", "stack_info", "stacklevel", "extra"}
  }

  lemma {:induction false} SpecialByName(kw: Keyword)
    ensures IsSpecial(kw) <==> StaysKeyword(kw)
  {
  }

  /** A call is converted exactly if its format is a literal, no mapping is spread, and some keyword is
      not one of the four of the logging package. */
  lemma {:induction false} ConvertibleIff(call: Call)
    ensures Convertible(call) <==>
            && call.args != [] && call.args[0].StrConst?
            && (forall kw <- call.keywords :: kw.arg.Some?)
            && exists kw <- call.keywords :: !StaysKeyword(kw)
  {
    forall kw: Keyword
      ensures IsSpecial(kw) <==> StaysKeyword(kw)
    {
      SpecialByName(kw);
    }
    FilterMembers(call.keywords, IsMovable);
    hide Filter, SPECIAL_KWARGS, IsSpecial, StaysKeyword;
    if Convertible(call) {
      assert Movable(call.keywords)[0] in Movable(call.keywords);
    }
  }

  /** The call as far as it has been converted. */
  function SoFar(call: Call): Call {
    if Convertible(call) then Converted(call) else call
  }

  lemma {:induction false} KeywordsMore(kws: seq<Keyword>, kw: Keyword)
    requires kw.arg.Some?
    ensures HasSpread(kws + [kw]) <==> HasSpread(kws)
    ensures StaysKeyword(kw) ==> Special(kws + [kw]) == Special(kws) + [kw] && Movable(kws + [kw]) == Movable(kws)
    ensures !StaysKeyword(kw) ==> Special(kws + [kw]) == Special(kws) && Movable(kws + [kw]) == Movable(kws) + [kw]
  {
    SpecialByName(kw);
    FilterSnoc(kws, kw, IsSpecial);
    FilterSnoc(kws, kw, IsMovable);
    assert forall i | 0 <= i < |kws| :: (kws + [kw])[i] == kws[i];
    hide Filter;
  }

  /** One keyword more: one of the four stays a keyword, behind those that stay. */
  lemma {:induction false} OneMoreStays(call: Call, kw: Keyword)
    requires call.args != [] && call.args[0].StrConst? && !HasSpread(call.keywords) && StaysKeyword(kw)
    ensures var more := call.(keywords := call.keywords + [kw]);
            && (Convertible(more) <==> Convertible(call))
            && SoFar(more) == SoFar(call).(keywords := SoFar(call).keywords + [kw])
  {
    KeywordsMore(call.keywords, kw);
    hide Special, Movable, Fragments, KeywordValues, HasSpread, StaysKeyword;
  }

  /** Any other is appended to the format as a space, its name and `=%s`, and its value to the
      arguments; the function, the arguments there are and the other keywords stay as they are. */
  lemma {:induction false} OneMoreMoves(call: Call, kw: Keyword)
    requires call.args != [] && call.args[0].StrConst? && !HasSpread(call.keywords)
    requires kw.arg.Some? && !StaysKeyword(kw)
    ensures var more := call.(keywords := call.keywords + [kw]);
            && Convertible(more) && SoFar(call).args[0].StrConst? && SoFar(call).func == call.func
            && Converted(more) ==
               Call(call.func,
                    [StrConst(SoFar(call).args[0].text + (" " + kw.arg.value + "=%s"))]
                    + (SoFar(call).args[1..] + [kw.value]),
                    SoFar(call).keywords)
  {
    var moved := Movable(call.keywords);
    KeywordsMore(call.keywords, kw);
    if moved == [] {
      AllSpecial(call.keywords);
    }
    FormatSoFar(call);
    FragmentsSnoc(moved, kw);
    ValuesSnoc(moved, kw);
    hide Special, Movable, Fragments, KeywordValues, HasSpread, StaysKeyword, SoFar;
    Assoc(call.args[0].text, Fragments(moved), Fragment(kw));
    Assoc(call.args[1..], KeywordValues(moved), [kw.value]);
    Assoc([StrConst(call.args[0].text + Fragments(moved + [kw]))], call.args[1..], KeywordValues(moved + [kw]));
  }

  lemma {:induction false} FormatSoFar(call: Call)
    requires call.args != [] && call.args[0].StrConst? && !HasSpread(call.keywords)
    ensures SoFar(call).func == call.func && SoFar(call).args != [] && SoFar(call).args[0].StrConst?
    ensures SoFar(call).args[0].text == call.args[0].text + Fragments(Movable(call.keywords))
    ensures SoFar(call).args[1..] == call.args[1..] + KeywordValues(Movable(call.keywords))
    ensures SoFar(call).keywords == if Movable(call.keywords) == [] then call.keywords else Special(call.keywords)
  {
    hide Special, Movable, HasSpread;
    if Movable(call.keywords) == [] {
      assert call.args[0].text + "" == call.args[0].text && call.args[1..] + [] == call.args[1..];
    } else {
      ConvertedParts(call);
    }
  }

  lemma {:induction false} ValuesSnoc(kws: seq<Keyword>, kw: Keyword)
    ensures KeywordValues(kws + [kw]) == KeywordValues(kws) + [kw.value]
  {
    MapConcat(kws, [kw], ValueOf);
    OneValue(kw);
  }

  lemma {:induction false} OneValue(kw: Keyword)
    ensures KeywordValues([kw]) == [kw.value]
  {
  }

  lemma {:induction false} AllSpecial(kws: seq<Keyword>)
    requires Movable(kws) == []
    ensures Special(kws) == kws
  {
    if kws != [] {
      AllSpecial(kws[1..]);
      assert kws == [kws[0]] + kws[1..];
    }
  }

  lemma {:induction false} FragmentsSnoc(kws: seq<Keyword>, kw: Keyword)
    ensures Fragments(kws + [kw]) == Fragments(kws) + Fragment(kw)
  {
    if kws == [] {
      assert kws + [kw] == [kw] && Fragments([]) == "";
    } else {
      assert (kws + [kw])[1..] == kws[1..] + [kw];
      FragmentsSnoc(kws[1..], kw);
      Assoc(Fragment(kws[0]), Fragments(kws[1..]), Fragment(kw));
    }
  }

  function Expressions(call: Call): multiset<Expr>
    requires call.args != []
  {
    multiset(call.args[1..]) + multiset(KeywordValues(call.keywords))
  }

  /** Every argument and keyword expression is kept exactly once, the positional ones in place,
      the special keywords as they were; and converting again finds nothing to do. */
  lemma {:induction false} ConversionKeepsExpressions(call: Call)
    requires Convertible(call)
    ensures var after := Converted(call);
            && Expressions(after) == Expressions(call)
            && call.args[1..] <= after.args[1..]
            && after.keywords == Special(call.keywords)
            && !Convertible(after)
  {
    var moved := Movable(call.keywords);
    var after := Converted(call);
    assert after.args[1..] == call.args[1..] + KeywordValues(moved);
    FilterPartition(call.keywords, IsSpecial, IsMovable, ValueOf);
    FilterDisjoint(call.keywords, IsSpecial, IsMovable);
  }

  // --- messages ---

  /** The message of a logger call; None where formatting raises. */
  function Message(call: Call, env: Env): Option<string>
    requires call.args != [] && call.args[0].StrConst?
  {
    Logged(call.args[0].text, Values(call.args[1..], env))
  }

  /** ` key=value` for each keyword. */
  function FragmentTexts(kws: seq<Keyword>, env: Env): string {
    if kws == [] then "" else Key(kws[0]) + env(kws[0].value).str + FragmentTexts(kws[1..], env)
  }

  /** The literal part of a fragment: " key=". */
  function Key(kw: Keyword): string {
    " " + (if kw.arg.Some? then kw.arg.value else "") + "="
  }

  /** Keyword names are identifiers; all that matters here is that they hold no percent sign. */
  ghost predicate NamedByIdentifiers(kws: seq<Keyword>) {
    forall kw <- kws :: kw.arg.Some? ==> '%' !in kw.arg.value
  }

  function FragmentTokens(kws: seq<Keyword>): seq<Token> {
    if kws == [] then []
    else Lits(Key(kws[0])) + ([Directive("", 's')] + FragmentTokens(kws[1..]))
  }

  lemma {:induction false} KeyHasNoPercent(kw: Keyword)
    requires kw.arg.Some? ==> '%' !in kw.arg.value
    ensures '%' !in Key(kw)
  {
  }

  lemma {:induction false} FragmentsTokenise(kws: seq<Keyword>)
    requires NamedByIdentifiers(kws)
    ensures Tokenise(Fragments(kws)) == Some(FragmentTokens(kws))
    ensures DirectiveCount(FragmentTokens(kws)) == |kws|
  {
    if kws != [] {
      FragmentsTokenise(kws[1..]);
      var key, rest := Key(kws[0]), Fragments(kws[1..]);
      assert Fragments(kws) == key + ("%s" + rest);
      KeyHasNoPercent(kws[0]);
      PlainTokens(key);
      TokeniseConcat(key, "%s" + rest);
      StringDirective();
      TokeniseConcat("%s", rest);
      LitsAreText(key);
      CountConcat(Lits(key), [Directive("", 's')] + FragmentTokens(kws[1..]));
    }
  }

  lemma {:induction false} StringDirective()
    ensures Tokenise("%s") == Some([Directive("", 's')])
  {
    assert "%s"[1..] == "s" && "s"[1..] == "";
    assert Step(Scan([], Inside(Flags, "")), 's') == Scan([] + [Directive("", 's')], Plain);
    assert [] + [Directive("", 's')] == [Directive("", 's')];
  }

  lemma {:induction false} FragmentsRender(kws: seq<Keyword>, env: Env)
    ensures Render(FragmentTokens(kws), Values(KeywordValues(kws), env)) == Some(FragmentTexts(kws, env))
  {
    if kws != [] {
      FragmentsRender(kws[1..], env);
      var v := env(kws[0].value);
      var rest, vs := FragmentTokens(kws[1..]), Values(KeywordValues(kws[1..]), env);
      assert KeywordValues(kws) == [kws[0].value] + KeywordValues(kws[1..]);
      assert Values(KeywordValues(kws), env) == [v] + vs;
      RenderLits(Key(kws[0]), [Directive("", 's')] + rest, [v] + vs);
      assert ([Directive("", 's')] + rest)[1..] == rest && ([v] + vs)[1..] == vs;
      Assoc(Key(kws[0]), v.str, FragmentTexts(kws[1..], env));
    }
  }

  lemma {:induction false} PercentExtended(fmt: string, vals: seq<Value>, kws: seq<Keyword>, env: Env)
    requires NamedByIdentifiers(kws) && Percent(fmt, vals).Some?
    ensures Percent(fmt + Fragments(kws), vals + Values(KeywordValues(kws), env)) ==
            Some(Percent(fmt, vals).value + FragmentTexts(kws, env))
  {
    FragmentsTokenise(kws);
    FragmentsRender(kws, env);
    TokeniseConcat(fmt, Fragments(kws));
    RenderNeedsAllArgs(Tokenise(fmt).value, vals);
    RenderConcat(Tokenise(fmt).value, FragmentTokens(kws), vals, Values(KeywordValues(kws), env));
  }

  lemma {:induction false} MovedAreNamed(kws: seq<Keyword>)
    requires NamedByIdentifiers(kws)
    ensures NamedByIdentifiers(Movable(kws))
  {
    FilterMembers(kws, IsMovable);
  }

  /** With positional values in the original call, a message that formats comes out with
      " key=value" appended for each moved keyword, in order. */
  lemma {:induction false} MessageExtended(call: Call, env: Env)
    requires Convertible(call) && NamedByIdentifiers(call.keywords)
    requires |call.args| > 1 && Message(call, env).Some?
    ensures Message(Converted(call), env) ==
            Some(Message(call, env).value + FragmentTexts(Movable(call.keywords), env))
  {
    var moved := Movable(call.keywords);
    MovedAreNamed(call.keywords);
    ConvertedParts(call);
    LoggedExtended(call.args[0].text, call.args[1..], moved, env);
  }

  lemma {:induction false} ConvertedParts(call: Call)
    requires Convertible(call)
    ensures Converted(call).args[0] == StrConst(call.args[0].text + Fragments(Movable(call.keywords)))
    ensures Converted(call).args[1..] == call.args[1..] + KeywordValues(Movable(call.keywords))
  {
  }

  lemma {:induction false} LoggedExtended(fmt: string, args: seq<Expr>, kws: seq<Keyword>, env: Env)
    requires NamedByIdentifiers(kws) && args != [] && Logged(fmt, Values(args, env)).Some?
    ensures Logged(fmt + Fragments(kws), Values(args + KeywordValues(kws), env)) ==
            Some(Logged(fmt, Values(args, env)).value + FragmentTexts(kws, env))
  {
    PercentExtended(fmt, Values(args, env), kws, env);
    ValuesConcat(args, KeywordValues(kws), env);
  }

  ghost predicate OnlyStringDirectives(tokens: seq<Token>) {
    forall i | 0 <= i < |tokens| && tokens[i].Directive? :: tokens[i] == Directive("", 's')
  }

  lemma {:induction false} FragmentsAreStringDirectives(kws: seq<Keyword>)
    ensures OnlyStringDirectives(FragmentTokens(kws))
  {
    if kws != [] {
      FragmentsAreStringDirectives(kws[1..]);
    }
  }

  /** What a scanned format leaves behind: a directive (begun or done) too many, or no more
      literals than characters - fewer once a percent sign has been seen. */
  ghost predicate Accounted(st: Scan, fmt: string) {
    st.Scan? ==>
      && (st.mode.Inside? ==> '%' in fmt)
      && (DirectiveCount(st.tokens) > 0
          || (&& |st.tokens| <= |fmt|
          && (forall i | 0 <= i < |st.tokens| :: st.tokens[i].Lit?)
          && ('%' in fmt ==> |st.tokens| < |fmt|)))
  }

  lemma {:induction false} FormatAccounted(fmt: string)
    ensures Accounted(ScanAll(Scan([], Plain), fmt), fmt)
  {
    if fmt != "" {
      var init, c := fmt[..|fmt| - 1], fmt[|fmt| - 1];
      assert fmt == init + [c];
      FormatAccounted(init);
      ScanConcat(Scan([], Plain), init, [c]);
      var st := ScanAll(Scan([], Plain), init);
      assert ScanAll(Scan([], Plain), fmt) == Step(st, c);
      if st.Scan? {
        CountConcat(st.tokens, [Lit(c)]);
        if st.mode.Inside? {
          CountConcat(st.tokens, [Directive(st.mode.body, c)]);
        }
      }
    }
  }

  /** A directive that is still open when a key begins has ended by the equals sign, in a
      conversion letter or in an error. */
  lemma {:induction false} KeyEndsDirective(st: Scan, key: string)
    requires st.Scan? && '%' !in key && key != "" && key[|key| - 1] == '='
    ensures var end := ScanAll(st, key);
            end.Scan? ==> end.mode.Plain? && DirectiveCount(end.tokens) > 0
    requires st.mode.Inside? || DirectiveCount(st.tokens) > 0
    decreases |key|
  {
    var next := Step(st, key[0]);
    CountConcat(st.tokens, [Lit(key[0])]);
    if st.mode.Inside? {
      CountConcat(st.tokens, [Directive(st.mode.body, key[0])]);
    }
    if |key| == 1 {
      assert key[1..] == "";
    } else if next.Scan? {
      KeyEndsDirective(next, key[1..]);
    } else {
      BrokenStays(key[1..]);
    }
  }

  lemma {:induction false} OpenDirectiveCounts(st: Scan, key: string, tail: string)
    requires st.Scan? && st.mode.Inside?
    requires '%' !in key && key != "" && key[|key| - 1] == '='
    requires Tokenise(tail).Some?
    ensures var end := ScanAll(st, key + tail);
            end.Scan? ==> DirectiveCount(end.tokens) > DirectiveCount(Tokenise(tail).value)
  {
    KeyEndsDirective(st, key);
    ScanConcat(st, key, tail);
    var mid := ScanAll(st, key);
    if mid.Broken? {
      BrokenStays(tail);
    } else {
      BehindTokens(mid.tokens, tail);
    }
  }

  lemma {:induction false} OpenDirectiveSpoils(st: Scan, kws: seq<Keyword>)
    requires NamedByIdentifiers(kws) && kws != [] && st.Scan? && st.mode.Inside?
    ensures var end := ScanAll(st, Fragments(kws));
            end.Scan? ==> DirectiveCount(end.tokens) > |kws|
  {
    var key, tail := Key(kws[0]), "%s" + Fragments(kws[1..]);
    DirectiveThenFragments(kws[1..]);
    KeySplits(kws);
    KeyHasNoPercent(kws[0]);
    OpenDirectiveCounts(st, key, tail);
  }

  lemma {:induction false} KeySplits(kws: seq<Keyword>)
    requires kws != []
    ensures Fragments(kws) == Key(kws[0]) + ("%s" + Fragments(kws[1..]))
  {
  }

  lemma {:induction false} DirectiveThenFragments(kws: seq<Keyword>)
    requires NamedByIdentifiers(kws)
    ensures Tokenise("%s" + Fragments(kws)).Some?
    ensures DirectiveCount(Tokenise("%s" + Fragments(kws)).value) == 1 + |kws|
  {
    StringDirective();
    FragmentsTokenise(kws);
    TokeniseConcat("%s", Fragments(kws));
    CountConcat([Directive("", 's')], FragmentTokens(kws));
  }

  lemma {:induction false} BehindTokens(tokens: seq<Token>, s: string)
    requires Tokenise(s).Some?
    ensures ScanAll(Scan(tokens, Plain), s) == Scan(tokens + Tokenise(s).value, Plain)
    ensures DirectiveCount(tokens + Tokenise(s).value) == DirectiveCount(tokens) + DirectiveCount(Tokenise(s).value)
  {
    assert Before(tokens, Scan([], Plain)) == Scan(tokens, Plain);
    ScanBehind(tokens, Scan([], Plain), s);
    CountConcat(tokens, Tokenise(s).value);
  }

  /** A percent sign in a format that was never formatted spoils the count or is swallowed: with
      the fragments behind it there are more directives than values, or only the fragments' own
      directives and fewer literals than characters. */
  lemma {:induction false} PercentSpoils(fmt: string, kws: seq<Keyword>, tokens: seq<Token>)
    requires NamedByIdentifiers(kws) && kws != []
    requires Tokenise(fmt + Fragments(kws)) == Some(tokens) && '%' in fmt
    ensures
      || DirectiveCount(tokens) > |kws|
      || (&& DirectiveCount(tokens) == |kws|
          && OnlyStringDirectives(tokens)
          && |tokens| < |fmt| + |FragmentTokens(kws)|)
  {
    var st := ScanAll(Scan([], Plain), fmt);
    FormatAccounted(fmt);
    ScanConcat(Scan([], Plain), fmt, Fragments(kws));
    if st.Broken? {
      BrokenStays(Fragments(kws));
    } else if st.mode.Plain? {
      FragmentsTokenise(kws);
      BehindTokens(st.tokens, Fragments(kws));
      FragmentsAreStringDirectives(kws);
    } else {
      OpenDirectiveSpoils(st, kws);
    }
  }

  /** The length of a text rendered by `%s` directives and literals alone is known. */
  lemma {:induction false} RenderedLength(tokens: seq<Token>, args: seq<Value>, n: nat)
    requires Render(tokens, args).Some? && DirectiveCount(tokens) == n
    requires OnlyStringDirectives(tokens)
    ensures n == |args|
    ensures |Render(tokens, args).value| + n == |tokens| + TotalLength(args)
  {
    if tokens != [] {
      if tokens[0].Lit? {
        RenderedLength(tokens[1..], args, n);
      } else {
        RenderedLength(tokens[1..], args[1..], n - 1);
      }
    }
  }

  function TotalLength(args: seq<Value>): nat {
    if args == [] then 0 else |args[0].str| + TotalLength(args[1..])
  }

  /** Without positional values the original message was the format itself.  The new message is
      that text followed by " key=value" for each moved keyword exactly when the format holds no
      percent sign: any other format, even one with "%%" only, comes out changed or not at all. */
  lemma {:induction false} UnformattedMessageExtendedIff(call: Call, env: Env)
    requires Convertible(call) && NamedByIdentifiers(call.keywords) && |call.args| == 1
    ensures Message(Converted(call), env) ==
              Some(Message(call, env).value + FragmentTexts(Movable(call.keywords), env)) <==>
            '%' !in call.args[0].text
  {
    var moved := Movable(call.keywords);
    var fmt, vals := call.args[0].text, Values(KeywordValues(moved), env);
    assert Converted(call).args[1..] == KeywordValues(moved);
    FilterMembers(call.keywords, IsMovable);
    FragmentsTokenise(moved);
    FragmentsRender(moved, env);
    if '%' !in fmt {
      PlainTokens(fmt);
      TokeniseConcat(fmt, Fragments(moved));
      RenderLits(fmt, FragmentTokens(moved), vals);
    } else if Message(Converted(call), env).Some? {
      var tokens := Tokenise(fmt + Fragments(moved)).value;
      PercentSpoils(fmt, moved, tokens);
      RenderNeedsAllArgs(tokens, vals);
      RenderedLength(tokens, vals, |moved|);
      FragmentsAreStringDirectives(moved);
      RenderedLength(FragmentTokens(moved), vals, |moved|);
    }
  }
}
