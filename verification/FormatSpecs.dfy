/** Which specs scripts/convert_fstring_loggers.py keeps as they are and which it gives a letter, in
    terms of the characters themselves. */
module FormatSpecs {
  import opened FStringLoggers
  import opened Printf
  import opened PyCalls
  import opened Wrappers

  // --- the characters of a directive ---

  /** Every character is one of these. */
  predicate AllOf(s: string, chars: string) {
    forall i | 0 <= i < |s| :: s[i] in chars
  }

  /** Flags, width, an optional precision and an optional length modifier. */
  ghost predicate PrintfBody(body: string) {
    exists flags: string, width: string, precision: string, size: string ::
      && body == flags + width + precision + size
      && BodyParts(flags, width, precision, size)
  }

  predicate BodyParts(flags: string, width: string, precision: string, size: string) {
    && AllOf(flags, "-+ #0") && AllOf(width, "0123456789")
    && (precision == "" || (precision[0] == '.' && AllOf(precision[1..], "0123456789")))
    && size in {"", "h", "l", "L"}
  }

  lemma {:induction false} SetsAre(c: char)
    ensures c in FLAGS <==> c in "-+ #0"
    ensures c in DIGITS <==> c in "0123456789"
    ensures c in LENGTHS <==> c in "hlL"
    ensures c in KINDS <==> c in "diouxXeEfFgGcrsa"
    ensures c in TYPE_LETTERS <==> c in "diouxXeEfFgGcrsa%"
  {
  }

  lemma {:induction false} AllAre(s: string)
    ensures AllOf(s, "-+ #0") <==> forall i | 0 <= i < |s| :: s[i] in FLAGS
    ensures AllOf(s, "0123456789") <==> forall i | 0 <= i < |s| :: s[i] in DIGITS
  {
    forall i | 0 <= i < |s|
      ensures (s[i] in FLAGS <==> s[i] in "-+ #0") && (s[i] in DIGITS <==> s[i] in "0123456789")
    {
      SetsAre(s[i]);
    }
    hide FLAGS, DIGITS;
  }

  lemma {:induction false} SplitIsPrintf(body: string, i: nat, j: nat, k: nat)
    requires i <= j <= k <= |body| && BodySplit(body, i, j, k)
    ensures BodyParts(body[..i], body[i..j], body[j..k], body[k..])
  {
    hide FLAGS, DIGITS, LENGTHS, AllOf;
    AllAre(body[..i]);
    AllAre(body[i..j]);
    if j < k {
      AllAre(body[j..k][1..]);
      assert forall n | 0 <= n < k - j - 1 :: body[j..k][1..][n] == body[j + 1 + n];
    }
    if k < |body| {
      SetsAre(body[k]);
      assert body[k..] == [body[k]];
    }
  }

  lemma {:induction false} PrintfIsSplit(flags: string, width: string, precision: string, size: string)
    requires BodyParts(flags, width, precision, size)
    ensures BodySplit(flags + width + precision + size, |flags|, |flags| + |width|, |flags| + |width| + |precision|)
  {
    var body := flags + width + precision + size;
    var i, j, k := |flags|, |flags| + |width|, |flags| + |width| + |precision|;
    hide FLAGS, DIGITS, LENGTHS, AllOf;
    AllAre(flags);
    AllAre(width);
    assert forall n | 0 <= n < i :: body[n] == flags[n];
    assert forall n | i <= n < j :: body[n] == width[n - i];
    assert forall n | j <= n < k :: body[n] == precision[n - j];
    if precision != "" {
      AllAre(precision[1..]);
      assert forall n | j < n < k :: body[n] == precision[1..][n - j - 1];
    }
    if size != "" {
      assert body[k] == size[0];
      SetsAre(size[0]);
    }
  }

  /** The bodies that the scanner goes through are these, character by character. */
  lemma {:induction false} BodyIsPrintf(body: string)
    ensures DirectiveBody(body) <==> PrintfBody(body)
  {
    hide BodySplit, BodyParts;
    if DirectiveBody(body) {
      var i, j, k :| 0 <= i <= j <= k <= |body| && BodySplit(body, i, j, k);
      SplitIsPrintf(body, i, j, k);
      assert body == body[..i] + body[i..j] + body[j..k] + body[k..];
    }
    if PrintfBody(body) {
      var flags: string, width: string, precision: string, size: string :|
        body == flags + width + precision + size && BodyParts(flags, width, precision, size);
      PrintfIsSplit(flags, width, precision, size);
    }
  }

  // --- the emitted directive ---

  /** An f-string that is a single field with this spec. */
  function OneField(x: Expr, conversion: Option<int>, spec: string): seq<Child> {
    [Field(x, conversion, Some([SpecText(spec)]))]
  }

  /** A spec that ends in a conversion letter is kept, letter and all, whatever the conversion, and
      read back as a directive with this letter. */
  lemma {:induction false} OwnLetterKept(x: Expr, conversion: Option<int>, body: string, k: char)
    requires PrintfBody(body) && k in "diouxXeEfFgGcrsa"
    ensures Emit(OneField(x, conversion, body + [k])) == Ok(("%" + body + [k], [x]))
    ensures Tokenise("%" + body + [k]) == Some([Directive(body, k)])
  {
    SetsAre(k);
    BodyIsPrintf(body);
    hide DirectiveBody, PrintfBody, KINDS, TYPE_LETTERS;
    OneDirective(body, k);
    EmitOne(x, conversion, body + [k]);
    assert "%" + (body + [k]) == "%" + body + [k];
  }

  /** The letter for a conversion code: two codes have a letter of their own. */
  function LetterFor(conversion: Option<int>): char {
    match conversion
    case Some(code) => if code == 2 then 'r' else if code == 3 then 'a' else 's'
    case None => 's'
  }

  /** A spec that ends in no conversion letter gets the one for its conversion, an empty one too; one
      that ends in a percent sign is kept. */
  lemma {:induction false} LetterAdded(x: Expr, conversion: Option<int>, spec: string)
    requires spec == "" || spec[|spec| - 1] !in "diouxXeEfFgGcrsa%"
    ensures Emit(OneField(x, conversion, spec)) == Ok(("%" + spec + [LetterFor(conversion)], [x]))
    ensures PrintfBody(spec) ==>
              Tokenise("%" + spec + [LetterFor(conversion)]) == Some([Directive(spec, LetterFor(conversion))])
  {
    EmitOne(x, conversion, spec);
    assert "%" + "" + [LetterFor(conversion)] == ['%', LetterFor(conversion)];
    SetsAre(LetterFor(conversion));
    if spec != "" {
      SetsAre(spec[|spec| - 1]);
    }
    BodyIsPrintf(spec);
    if PrintfBody(spec) {
      OneDirective(spec, LetterFor(conversion));
    }
  }

  lemma {:induction false} PlainField(x: Expr, conversion: Option<int>)
    ensures Emit([Field(x, conversion, None)]) == Ok((['%', LetterFor(conversion)], [x]))
  {
    var directive := ['%', LetterFor(conversion)];
    assert Emit([Field(x, conversion, None)][1..]) == Ok(("", []));
    assert directive + "" == directive && [x] + [] == [x];
  }

  lemma {:induction false} PercentKept(x: Expr, conversion: Option<int>, spec: string)
    requires spec != "" && spec[|spec| - 1] == '%'
    ensures Emit(OneField(x, conversion, spec)) == Ok(("%" + spec, [x]))
  {
    EmitOne(x, conversion, spec);
  }

  lemma {:induction false} TwoIsBody()
    ensures PrintfBody(".2")
  {
    assert BodyParts("", "", ".2", "") && ".2" == "" + "" + ".2" + "";
  }

  /** `f"{x:.2f}"`. */
  lemma {:induction false} TwoDecimals(x: Expr)
    ensures Emit(OneField(x, Some(-1), ".2f")) == Ok(("%.2f", [x]))
    ensures Tokenise("%.2f") == Some([Directive(".2", 'f')])
  {
    TwoIsBody();
    hide *;
    OwnLetterKept(x, Some(-1), ".2", 'f');
    assert ".2" + ['f'] == ".2f" && "%" + ".2" + ['f'] == "%.2f";
  }

  lemma {:induction false} SecondStep(c: char)
    ensures ScanAll(Scan([], Plain), ['%', c]) == Step(Scan([], Inside(Flags, "")), c)
  {
    var start, begun := Scan([], Plain), Scan([], Inside(Flags, ""));
    assert ['%', c][1..] == [c] && [c][1..] == "";
    assert Step(start, '%') == begun;
    hide Step;
    assert ScanAll(start, ['%', c]) == ScanAll(begun, [c]);
    assert ScanAll(begun, [c]) == ScanAll(Step(begun, c), "");
  }

  lemma {:induction false} BegunStep(c: char)
    ensures var end := Step(Scan([], Inside(Flags, "")), c);
            && (c == '%' ==> end == Scan([Lit('%')], Plain))
            && (c in KINDS ==> end == Scan([Directive("", c)], Plain))
            && (c !in KINDS && c != '%' ==> end.Broken? || end.mode.Inside?)
  {
    assert [] + [Lit('%')] == [Lit('%')] && [] + [Directive("", c)] == [Directive("", c)];
  }

  /** A letter straight behind the percent sign: exactly these are read, and the sign itself. */
  lemma {:induction false} LetterRead(c: char)
    ensures Tokenise(['%', c]) ==
            if c == '%' then Some([Lit('%')])
            else if c in "diouxXeEfFgGcrsa" then Some([Directive("", c)])
            else None
  {
    SetsAre(c);
    SecondStep(c);
    BegunStep(c);
    hide Step, KINDS, TYPE_LETTERS, FLAGS, DIGITS, LENGTHS;
  }

  // --- spec parts and literals ---

  /** The parts of a spec are joined in order; a nested field makes it an error. */
  lemma {:induction false} PartsJoined(parts: seq<SpecPart>, more: SpecPart)
    ensures SpecParts([]) == Ok("")
    ensures SpecParts(parts + [more]) ==
            if SpecParts(parts).Ok? && more.SpecText? then Ok(SpecParts(parts).value + more.text) else Err(NestedSpec)
  {
    if parts == [] {
      assert parts + [more] == [more] && [more][1..] == [];
      assert more.SpecText? ==> more.text + "" == more.text == "" + more.text;
    } else {
      assert (parts + [more])[1..] == parts[1..] + [more];
      PartsJoined(parts[1..], more);
      if parts[0].SpecText? && SpecParts(parts[1..]).Ok? && more.SpecText? {
        assert parts[0].text + (SpecParts(parts[1..]).value + more.text) ==
               parts[0].text + SpecParts(parts[1..]).value + more.text;
      }
    }
  }

  /** Literal text is kept, but for its percent signs, each of which comes twice. */
  lemma {:induction false} PercentDoubled(a: string, b: string)
    requires '%' !in a
    ensures EscapePercent(a) == a
    ensures EscapePercent(a + "%" + b) == a + "%%" + EscapePercent(b)
  {
    if a == "" {
      assert a + "%" + b == "%" + b && ("%" + b)[1..] == b;
    } else {
      assert (a + "%" + b)[1..] == a[1..] + "%" + b;
      PercentDoubled(a[1..], b);
      assert [a[0]] + a[1..] == a;
      assert [a[0]] + (a[1..] + "%%" + EscapePercent(b)) == a + "%%" + EscapePercent(b);
    }
  }
}
