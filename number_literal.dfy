/**
 * The host bridge's strict number parser (main.dart.mjs, `_1321`): a string
 * is handed to `parseFloat` only when all of it is a numeric literal of the
 * form
 *
 *   whitespace* [+-]? (Infinity | NaN | (.digits | digits(.digits*)?) ([eE][+-]?digits)?) whitespace*
 *
 * and is NaN otherwise. The grammar is recognised by a deterministic scanner
 * that builds the literal's syntax tree.
 */
module NumberLiteral {
  import opened Wrappers
  import opened Scanning
  import opened JsString

  // ---------------------------------------------------------------------------
  // Character classes

  /** `\s`: the ECMAScript white space and line terminator code units. */
  predicate IsSpace(c: CodeUnit) {
    c == 0x09 || c == 0x0A || c == 0x0B || c == 0x0C || c == 0x0D || c == 0x20 ||
    c == 0xA0 || c == 0x1680 || (0x2000 <= c <= 0x200A) || c == 0x2028 || c == 0x2029 ||
    c == 0x202F || c == 0x205F || c == 0x3000 || c == 0xFEFF
  }

  /** `\d`. */
  predicate IsDigit(c: CodeUnit) {
    0x30 <= c <= 0x39
  }

  const Plus: CodeUnit := 0x2B
  const Minus: CodeUnit := 0x2D
  const Dot: CodeUnit := 0x2E
  const LowerE: CodeUnit := 0x65
  const UpperE: CodeUnit := 0x45

  /** "Infinity" and "NaN" as code units. */
  const InfinityText: JsStr := [0x49, 0x6E, 0x66, 0x69, 0x6E, 0x69, 0x74, 0x79]
  const NaNText: JsStr := [0x4E, 0x61, 0x4E]

  predicate AllSpace(s: JsStr) {
    forall i :: 0 <= i < |s| ==> IsSpace(s[i])
  }

  predicate AllDigits(s: JsStr) {
    forall i :: 0 <= i < |s| ==> IsDigit(s[i])
  }

  // ---------------------------------------------------------------------------
  // Syntax tree of an accepted literal

  datatype Sign = NoSign | PlusSign | MinusSign

  /** `digits(.digits*)?` or `.digits`. */
  datatype Mantissa =
    | IntPart(digits: JsStr, fraction: Option<JsStr>)
    | FractionOnly(digitsAfterDot: JsStr)

  /** `[eE][+-]?digits`, `upper` telling which letter was written. */
  datatype Exponent = Exponent(upper: bool, sign: Sign, digits: JsStr)

  datatype Body =
    | InfinityBody
    | NaNBody
    | Decimal(mantissa: Mantissa, exponent: Option<Exponent>)

  datatype Literal = Literal(lead: JsStr, sign: Sign, body: Body, trail: JsStr)

  predicate WellFormedMantissa(m: Mantissa) {
    match m
    case IntPart(ds, fr) => ds != [] && AllDigits(ds) && (fr.Some? ==> AllDigits(fr.value))
    case FractionOnly(fr) => fr != [] && AllDigits(fr)
  }

  predicate WellFormedExponent(e: Exponent) {
    e.digits != [] && AllDigits(e.digits)
  }

  predicate WellFormedBody(b: Body) {
    b.Decimal? ==> WellFormedMantissa(b.mantissa) && (b.exponent.Some? ==> WellFormedExponent(b.exponent.value))
  }

  predicate WellFormed(l: Literal) {
    AllSpace(l.lead) && WellFormedBody(l.body) && AllSpace(l.trail)
  }

  // ---------------------------------------------------------------------------
  // The text of a literal

  function SignText(sg: Sign): JsStr {
    match sg
    case NoSign => []
    case PlusSign => [Plus]
    case MinusSign => [Minus]
  }

  function MantissaText(m: Mantissa): JsStr {
    match m
    case IntPart(ds, None) => ds
    case IntPart(ds, Some(fr)) => ds + ([Dot] + fr)
    case FractionOnly(fr) => [Dot] + fr
  }

  function ExponentLetter(upper: bool): CodeUnit {
    if upper then UpperE else LowerE
  }

  function ExponentText(e: Option<Exponent>): JsStr {
    if e.None? then [] else [ExponentLetter(e.value.upper)] + (SignText(e.value.sign) + e.value.digits)
  }

  function BodyText(b: Body): JsStr {
    match b
    case InfinityBody => InfinityText
    case NaNBody => NaNText
    case Decimal(m, e) => MantissaText(m) + ExponentText(e)
  }

  function Render(l: Literal): JsStr {
    l.lead + (SignText(l.sign) + (BodyText(l.body) + l.trail))
  }

  // ---------------------------------------------------------------------------
  // The scanner, stage by stage

  function ScanSign(s: JsStr): (r: (Sign, JsStr))
    ensures s == SignText(r.0) + r.1
  {
    if s != [] && s[0] == Plus then (PlusSign, s[1..])
    else if s != [] && s[0] == Minus then (MinusSign, s[1..])
    else (NoSign, s)
  }

  /** `digits(.digits*)?`, the digits before the dot taken greedily. */
  function ScanIntPart(s: JsStr): (r: Option<(Mantissa, JsStr)>)
    ensures r.Some? ==> WellFormedMantissa(r.value.0)
    ensures r.Some? ==> s == MantissaText(r.value.0) + r.value.1
  {
    var p := TakeWhile(s, IsDigit);
    if p.0 == [] then None
    else
      match StripPrefix(p.1, [Dot])
      case None => Some((IntPart(p.0, None), p.1))
      case Some(afterDot) =>
        var q := TakeWhile(afterDot, IsDigit);
        Assoc([Dot], q.0, q.1);
        Assoc(p.0, [Dot] + q.0, q.1);
        Some((IntPart(p.0, Some(q.0)), q.1))
  }

  /** `.digits`. */
  function ScanFractionOnly(s: JsStr): (r: Option<(Mantissa, JsStr)>)
    ensures r.Some? ==> WellFormedMantissa(r.value.0)
    ensures r.Some? ==> s == MantissaText(r.value.0) + r.value.1
  {
    match StripPrefix(s, [Dot])
    case None => None
    case Some(afterDot) =>
      var q := TakeWhile(afterDot, IsDigit);
      if q.0 == [] then None else Some((FractionOnly(q.0), q.1))
  }

  function ScanMantissa(s: JsStr): (r: Option<(Mantissa, JsStr)>)
    ensures r.Some? ==> WellFormedMantissa(r.value.0)
    ensures r.Some? ==> s == MantissaText(r.value.0) + r.value.1
  {
    if s != [] && IsDigit(s[0]) then ScanIntPart(s) else ScanFractionOnly(s)
  }

  /** `[+-]?digits`, the digits taken greedily and required. */
  function ScanSignedDigits(s: JsStr): (r: Option<(Sign, JsStr, JsStr)>)
    ensures r.Some? ==> r.value.1 != [] && AllDigits(r.value.1)
    ensures r.Some? ==> s == SignText(r.value.0) + (r.value.1 + r.value.2)
  {
    var sg := ScanSign(s);
    var q := TakeWhile(sg.1, IsDigit);
    if q.0 == [] then None else Some((sg.0, q.0, q.1))
  }

  /** The optional exponent; a letter `e` or `E` without digits after it
      makes the whole literal fail. */
  function ScanExponent(s: JsStr): (r: Option<(Option<Exponent>, JsStr)>)
    ensures r.Some? && r.value.0.Some? ==> WellFormedExponent(r.value.0.value)
    ensures r.Some? ==> s == ExponentText(r.value.0) + r.value.1
  {
    if s == [] || (s[0] != LowerE && s[0] != UpperE) then Some((None, s))
    else
      var q := ScanSignedDigits(s[1..]);
      if q.None? then None
      else
        var e := Exponent(s[0] == UpperE, q.value.0, q.value.1);
        ExponentTextConcat(e, q.value.2);
        assert s == [ExponentLetter(e.upper)] + s[1..];
        Some((Some(e), q.value.2))
  }

  lemma ExponentTextConcat(e: Exponent, rest: JsStr)
    ensures ExponentText(Some(e)) + rest == [ExponentLetter(e.upper)] + (SignText(e.sign) + (e.digits + rest))
  {
  }

  lemma Assoc(a: JsStr, b: JsStr, c: JsStr)
    ensures a + b + c == a + (b + c)
  {
  }

  /** The numeric alternative: a mantissa and an optional exponent. */
  function ScanDecimal(s: JsStr): (r: Option<(Body, JsStr)>)
    ensures r.Some? ==> WellFormedBody(r.value.0)
    ensures r.Some? ==> s == BodyText(r.value.0) + r.value.1
  {
    var m := ScanMantissa(s);
    if m.None? then None
    else
      var e := ScanExponent(m.value.1);
      if e.None? then None
      else
        Assoc(MantissaText(m.value.0), ExponentText(e.value.0), e.value.1);
        Some((Decimal(m.value.0, e.value.0), e.value.1))
  }

  function ScanBody(s: JsStr): (r: Option<(Body, JsStr)>)
    ensures r.Some? ==> WellFormedBody(r.value.0)
    ensures r.Some? ==> s == BodyText(r.value.0) + r.value.1
  {
    var inf := StripPrefix(s, InfinityText);
    if inf.Some? then Some((InfinityBody, inf.value))
    else
      var nan := StripPrefix(s, NaNText);
      if nan.Some? then Some((NaNBody, nan.value))
      else ScanDecimal(s)
  }

  /** The anchored match of the whole grammar, as its syntax tree. */
  function Scan(s: JsStr): (r: Option<Literal>)
    ensures r.Some? ==> WellFormed(r.value)
    ensures r.Some? ==> Render(r.value) == s
  {
    var (lead, afterLead) := TakeWhile(s, IsSpace);
    var (sg, afterSign) := ScanSign(afterLead);
    match ScanBody(afterSign)
    case None => None
    case Some((b, rest)) =>
      var (trail, end) := TakeWhile(rest, IsSpace);
      if end != [] then None
      else
        assert rest == trail;
        Some(Literal(lead, sg, b, trail))
  }

  /** The regular expression's `test`. */
  predicate Accepts(s: JsStr) {
    Scan(s).Some?
  }

  /** `_1321(s)`: NaN unless the grammar accepts `s`, and then whatever
      `parseFloat` makes of it (a parameter here, with its own NaN). */
  function ParseStrict<D>(s: JsStr, parseFloat: JsStr -> D, nan: D): D {
    if !Accepts(s) then nan else parseFloat(s)
  }

  // ---------------------------------------------------------------------------
  // Completeness: every well-formed literal is accepted, as itself

  lemma ScanSignComplete(sg: Sign, rest: JsStr)
    requires rest == [] || (rest[0] != Plus && rest[0] != Minus)
    ensures ScanSign(SignText(sg) + rest) == (sg, rest)
  {
    if sg != NoSign {
      assert (SignText(sg) + rest)[1..] == rest;
    } else {
      assert SignText(sg) + rest == rest;
    }
  }

  lemma IntPartComplete(ds: JsStr, rest: JsStr)
    requires ds != [] && AllDigits(ds)
    requires rest == [] || (!IsDigit(rest[0]) && rest[0] != Dot)
    ensures ScanIntPart(ds + rest) == Some((IntPart(ds, None), rest))
  {
    TakeWhileOfConcat(ds, rest, IsDigit);
    assert StripPrefix(rest, [Dot]).None?;
  }

  lemma IntPartWithFractionComplete(ds: JsStr, fr: JsStr, rest: JsStr)
    requires ds != [] && AllDigits(ds) && AllDigits(fr)
    requires rest == [] || !IsDigit(rest[0])
    ensures ScanIntPart(ds + ([Dot] + fr) + rest) == Some((IntPart(ds, Some(fr)), rest))
  {
    assert ds + ([Dot] + fr) + rest == ds + ([Dot] + (fr + rest));
    TakeWhileOfConcat(ds, [Dot] + (fr + rest), IsDigit);
    StripPrefixOfConcat([Dot], fr + rest);
    TakeWhileOfConcat(fr, rest, IsDigit);
  }

  lemma FractionOnlyComplete(fr: JsStr, rest: JsStr)
    requires fr != [] && AllDigits(fr)
    requires rest == [] || !IsDigit(rest[0])
    ensures ScanFractionOnly([Dot] + fr + rest) == Some((FractionOnly(fr), rest))
  {
    assert [Dot] + fr + rest == [Dot] + (fr + rest);
    StripPrefixOfConcat([Dot], fr + rest);
    TakeWhileOfConcat(fr, rest, IsDigit);
  }

  lemma ScanMantissaComplete(m: Mantissa, rest: JsStr)
    requires WellFormedMantissa(m)
    requires rest == [] || (!IsDigit(rest[0]) && rest[0] != Dot)
    ensures ScanMantissa(MantissaText(m) + rest) == Some((m, rest))
  {
    match m
    case IntPart(ds, None) =>
      IntPartComplete(ds, rest);
      assert (ds + rest)[0] == ds[0];
    case IntPart(ds, Some(fr)) =>
      IntPartWithFractionComplete(ds, fr, rest);
      assert (ds + ([Dot] + fr) + rest)[0] == ds[0];
    case FractionOnly(fr) =>
      FractionOnlyComplete(fr, rest);
  }

  lemma SignedDigitsComplete(sg: Sign, ds: JsStr, rest: JsStr)
    requires ds != [] && AllDigits(ds)
    requires rest == [] || !IsDigit(rest[0])
    ensures ScanSignedDigits(SignText(sg) + (ds + rest)) == Some((sg, ds, rest))
  {
    assert ds[0] != Plus && ds[0] != Minus;
    ScanSignComplete(sg, ds + rest);
    TakeWhileOfConcat(ds, rest, IsDigit);
  }

  lemma ExponentComplete(upper: bool, sg: Sign, ds: JsStr, rest: JsStr)
    requires ds != [] && AllDigits(ds)
    requires rest == [] || !IsDigit(rest[0])
    ensures ScanExponent(ExponentText(Some(Exponent(upper, sg, ds))) + rest)
         == Some((Some(Exponent(upper, sg, ds)), rest))
  {
    var s := ExponentText(Some(Exponent(upper, sg, ds))) + rest;
    assert s == [ExponentLetter(upper)] + (SignText(sg) + (ds + rest));
    assert s[0] == ExponentLetter(upper) && s[1..] == SignText(sg) + (ds + rest);
    SignedDigitsComplete(sg, ds, rest);
  }

  lemma ScanExponentComplete(e: Option<Exponent>, rest: JsStr)
    requires e.Some? ==> WellFormedExponent(e.value)
    requires rest == [] || !IsDigit(rest[0])
    requires e.None? ==> rest == [] || (rest[0] != LowerE && rest[0] != UpperE)
    ensures ScanExponent(ExponentText(e) + rest) == Some((e, rest))
  {
    if e.Some? {
      ExponentComplete(e.value.upper, e.value.sign, e.value.digits, rest);
    } else {
      assert ExponentText(e) + rest == rest;
    }
  }

  lemma ScanDecimalComplete(m: Mantissa, e: Option<Exponent>, rest: JsStr)
    requires WellFormedBody(Decimal(m, e))
    requires rest == [] || IsSpace(rest[0])
    ensures ScanDecimal(MantissaText(m) + (ExponentText(e) + rest)) == Some((Decimal(m, e), rest))
  {
    ScanMantissaComplete(m, ExponentText(e) + rest);
    ScanExponentComplete(e, rest);
  }

  /** A string starting with a digit or a dot is neither "Infinity" nor
      "NaN". */
  lemma NotNamed(s: JsStr)
    requires s != [] && (s[0] == Dot || IsDigit(s[0]))
    ensures StripPrefix(s, InfinityText).None?
    ensures StripPrefix(s, NaNText).None?
  {
    if |InfinityText| <= |s| { assert s[..|InfinityText|][0] != InfinityText[0]; }
    if |NaNText| <= |s| { assert s[..|NaNText|][0] != NaNText[0]; }
  }

  lemma DecimalComplete(m: Mantissa, e: Option<Exponent>, rest: JsStr)
    requires WellFormedBody(Decimal(m, e))
    requires rest == [] || IsSpace(rest[0])
    ensures ScanBody(BodyText(Decimal(m, e)) + rest) == Some((Decimal(m, e), rest))
  {
    var s := MantissaText(m) + (ExponentText(e) + rest);
    Assoc(MantissaText(m), ExponentText(e), rest);
    assert s[0] == MantissaText(m)[0];
    NotNamed(s);
    ScanDecimalComplete(m, e, rest);
  }

  lemma ScanBodyComplete(b: Body, rest: JsStr)
    requires WellFormedBody(b)
    requires rest == [] || IsSpace(rest[0])
    ensures ScanBody(BodyText(b) + rest) == Some((b, rest))
  {
    match b
    case InfinityBody =>
      StripPrefixOfConcat(InfinityText, rest);
    case NaNBody =>
      assert (NaNText + rest)[0] != InfinityText[0];
      StripPrefixOfConcat(NaNText, rest);
    case Decimal(m, e) =>
      DecimalComplete(m, e, rest);
  }

  /** Every well-formed literal is accepted, and the scanner recovers its
      syntax tree: with `ScanSound`, the scanner decides exactly the
      language of the grammar. */
  lemma ScanComplete(l: Literal)
    requires WellFormed(l)
    ensures Scan(Render(l)) == Some(l)
  {
    var afterSign := BodyText(l.body) + l.trail;
    var afterLead := SignText(l.sign) + afterSign;
    assert BodyText(l.body) != [];
    assert afterLead[0] == Plus || afterLead[0] == Minus || afterLead[0] == BodyText(l.body)[0];
    TakeWhileOfConcat(l.lead, afterLead, IsSpace);
    ScanSignComplete(l.sign, afterSign);
    ScanBodyComplete(l.body, l.trail);
    TakeWhileOfConcat(l.trail, [], IsSpace);
    assert l.trail + [] == l.trail;
  }

  /** What the scanner accepts is a well-formed literal written out. */
  lemma ScanSound(s: JsStr)
    ensures Accepts(s) <==> exists l :: WellFormed(l) && Render(l) == s
  {
    if exists l :: WellFormed(l) && Render(l) == s {
      var l :| WellFormed(l) && Render(l) == s;
      ScanComplete(l);
    }
  }

  /** `_1321` hands `s` to `parseFloat` exactly when `s` spells out a
      well-formed literal, and yields NaN for every other string. */
  lemma ParseStrictFollowsGrammar<D>(s: JsStr, parseFloat: JsStr -> D, nan: D)
    ensures (exists l :: WellFormed(l) && Render(l) == s) ==> ParseStrict(s, parseFloat, nan) == parseFloat(s)
    ensures !(exists l :: WellFormed(l) && Render(l) == s) ==> ParseStrict(s, parseFloat, nan) == nan
  {
    ScanSound(s);
  }

  // ---------------------------------------------------------------------------
  // Examples

  const Space: CodeUnit := 0x20

  /** "  +3.5e2  " is accepted, with the syntax tree it was written from. */
  lemma SignedExponentAccepted()
    ensures Scan([Space, Space, Plus, 0x33, Dot, 0x35, LowerE, 0x32, Space, Space]) ==
      Some(Literal([Space, Space], PlusSign,
                   Decimal(IntPart([0x33], Some([0x35])), Some(Exponent(false, NoSign, [0x32]))),
                   [Space, Space]))
  {
    var l := Literal([Space, Space], PlusSign,
                     Decimal(IntPart([0x33], Some([0x35])), Some(Exponent(false, NoSign, [0x32]))),
                     [Space, Space]);
    assert Render(l) == [Space, Space, Plus, 0x33, Dot, 0x35, LowerE, 0x32, Space, Space];
    ScanComplete(l);
  }

  /** "abc" is rejected, so `_1321` gives NaN for it. */
  lemma LettersRejected()
    ensures !Accepts([0x61, 0x62, 0x63])
  {
    var abc: JsStr := [0x61, 0x62, 0x63];
    assert TakeWhile(abc, IsSpace) == ([], abc);
    assert ScanSign(abc) == (NoSign, abc);
    assert StripPrefix(abc, InfinityText).None?;
    assert StripPrefix(abc, NaNText).None? by { assert abc[..3][0] != NaNText[0]; }
    assert ScanMantissa(abc).None? by { assert abc[..1] != [Dot]; }
  }

  /** A lone "." is rejected: the fraction needs a digit. */
  lemma LoneDotRejected()
    ensures !Accepts([Dot])
  {
    assert TakeWhile([Dot], IsSpace) == ([], [Dot]);
    assert ScanSign([Dot]) == (NoSign, [Dot]);
    assert StripPrefix([Dot], [Dot]) == Some([]);
    assert TakeWhile([], IsDigit) == ([], []);
    assert ScanFractionOnly([Dot]).None?;
    assert ScanMantissa([Dot]).None?;
    assert StripPrefix([Dot], InfinityText).None?;
    assert StripPrefix([Dot], NaNText).None?;
    assert ScanBody([Dot]).None?;
  }

  /** "1e" is rejected: an exponent letter needs digits after it. */
  lemma DanglingExponentRejected()
    ensures !Accepts([0x31, LowerE])
  {
    var s: JsStr := [0x31, LowerE];
    assert TakeWhile(s, IsSpace) == ([], s);
    assert ScanSign(s) == (NoSign, s);
    TakeWhileOfConcat([0x31], [LowerE], IsDigit);
    assert s == [0x31] + [LowerE];
    assert ScanMantissa(s) == Some((IntPart([0x31], None), [LowerE]));
    assert ScanSignedDigits([]).None?;
    assert ScanExponent([LowerE]).None?;
  }

  /** "NaN" is accepted (and `parseFloat` then gives NaN anyway). */
  lemma NaNAccepted()
    ensures Accepts(NaNText)
  {
    var l := Literal([], NoSign, NaNBody, []);
    assert Render(l) == NaNText;
    ScanComplete(l);
  }

  /** ".5" is accepted. */
  lemma LeadingDotAccepted()
    ensures Accepts([Dot, 0x35])
  {
    var l := Literal([], NoSign, Decimal(FractionOnly([0x35]), None), []);
    assert Render(l) == [Dot, 0x35];
    ScanComplete(l);
  }

  /** "5." is accepted. */
  lemma TrailingDotAccepted()
    ensures Accepts([0x35, Dot])
  {
    var l := Literal([], NoSign, Decimal(IntPart([0x35], Some([])), None), []);
    assert Render(l) == [0x35, Dot];
    ScanComplete(l);
  }
}
