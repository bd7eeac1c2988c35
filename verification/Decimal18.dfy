/**
 The 18-decimal codecs of the command line and the dashboard: two parsers and three printers,
 written with different algorithms (slicing digit text against dividing), and what they
 promise one another.
 */
module Decimal18 {
  import opened Text

  /** Decimal places of USDFC and FIL amounts. */
  const PLACES: nat := 18

  // ---- The two parsers ----------------------------------------------------------------

  /** `fracPart` padded on the right to the full number of places and joined to the integer part. */
  function Combine(whole: string, frac: string, places: nat): string
    requires |frac| <= places
  {
    whole + frac + Zeros(places - |frac|)
  }

  function Negate(neg: bool, n: Option<int>): Option<int> {
    match n
    case None => None
    case Some(v) => Some(if neg then -v else v)
  }

  /** `SetString` after the leading zeros are stripped, an empty rest standing for "0". */
  function SetStripped(s: string): Option<int> {
    var stripped := TrimLeftZeros(s);
    SetString(if stripped == "" then "0" else stripped)
  }

  /** What `strings.SplitN(s, ".", 2)` and slicing at `IndexByte` both cut out. */
  function Whole(s: string): string {
    s[..IndexOf(s, '.')]
  }

  predicate Dotted(s: string) {
    IndexOf(s, '.') < |s|
  }

  function Frac(s: string): string {
    if Dotted(s) then s[IndexOf(s, '.') + 1..] else ""
  }

  function ParseParts(whole: string, frac: string, places: nat): Option<int> {
    if |frac| > places then None else SetStripped(Combine(if whole == "" then "0" else whole, frac, places))
  }

  /** parseDecimalTo18Decimals after the sign is taken off. */
  function ParseUnsigned(u: string, places: nat): Option<int> {
    ParseParts(Whole(u), Frac(u), places)
  }

  /** parseDecimalTo18Decimals on trimmed input. */
  function ParseTrimmed(t: string, places: nat): Option<int> {
    if t == "" then None
    else if IsSign(t[0]) then Negate(t[0] == '-', ParseUnsigned(t[1..], places))
    else ParseUnsigned(t, places)
  }

  /** parseDecimalTo18Decimals; `None` stands for its errors. */
  function ParseDecimal18(s: string): Option<int> {
    ParseTrimmed(TrimSpace(s), PLACES)
  }

  /** A number times ten to the `places`. */
  function Scaled(n: Option<int>, places: nat): Option<int> {
    match n
    case None => None
    case Some(v) => Negate(v < 0, Some(Shift(Abs(v), places)))
  }

  function UsdfcParts(whole: string, frac: string, places: nat): Option<int> {
    if |frac| > places then None
    else
      var combined := Combine(whole, frac, places);
      if combined == "" || combined == "0" then Some(0) else SetString(combined)
  }

  /** parseUSDFC once white space and the unit suffix are gone. */
  function ParseUsdfcTrimmed(t: string, places: nat): Option<int> {
    if Dotted(t) then UsdfcParts(Whole(t), Frac(t), places) else Scaled(SetString(t), places)
  }

  /** parseUSDFC; `None` stands for its errors. */
  function ParseUsdfc(s: string): Option<int> {
    ParseUsdfcTrimmed(TrimSpace(TrimSuffix(TrimSpace(s), "USDFC")), PLACES)
  }

  // ---- The three printers -------------------------------------------------------------

  function Abs(n: int): nat {
    if n < 0 then -n else n
  }

  /** A remainder at full width, without its trailing zeros. */
  function FractionText(rest: nat, places: nat): string {
    TrimRightZeros(PadZeros(NatText(rest), places))
  }

  function MagnitudeText(q: nat, rest: nat, places: nat): string {
    if rest == 0 then NatText(q) else NatText(q) + "." + FractionText(rest, places)
  }

  /** Integer part, and a fraction without its trailing zeros when there is one. */
  function DecimalText(n: int, places: nat): string {
    var magnitude := MagnitudeText(Div(Abs(n), Pow10(places)), Mod(Abs(n), Pow10(places)), places);
    if n == 0 then "0" else if n < 0 then "-" + magnitude else magnitude
  }

  /** decimal18 */
  function Decimal18Text(n: int): string {
    DecimalText(n, PLACES)
  }

  function Take4(s: string): string {
    if |s| > 4 then s[..4] else s
  }

  /** Four decimal places of a digit string, by slicing. */
  function WeiText(digits: string, places: nat): string {
    if |digits| <= places then "0." + Take4(Zeros(places - |digits|) + digits)
    else digits[..|digits| - places] + "." + Take4(digits[|digits| - places..])
  }

  /** Four decimal places; the sign is dropped. */
  function FormatWei(v: Option<int>, places: nat): string {
    match v
    case None => "?"
    case Some(n) => if n == 0 then "0.0000" else WeiText(NatText(Abs(n)), places)
  }

  /** formatBigWei */
  function FormatBigWei(v: Option<int>): string {
    FormatWei(v, PLACES)
  }

  /** `big.Int.Quo`: division truncated toward zero. */
  function Quo(a: int, b: nat): int
    requires b > 0
  {
    var q: int := Div(Abs(a), b);
    if a < 0 then -q else q
  }

  /** formatToken: four decimal places by dividing; the remainder is Euclidean, as `Mod` is. */
  function FormatToken(s: string, decs: nat): string {
    var t := TrimSpace(s);
    if t == "" then "?"
    else
      match SetString(t)
      case None => t
      case Some(v) =>
        IntText(Quo(v, Pow10(decs))) + "." + Take4(PadZeros(NatText(Mod(v, Pow10(decs))), decs))
  }

  // ---- What the parsers read ----------------------------------------------------------

  lemma StrippedDigits(s: string)
    requires AllDigits(s)
    ensures AllDigits(TrimLeftZeros(s)) && Value(TrimLeftZeros(s)) == Value(s)
  {
    var t := TrimLeftZeros(s);
    TrimLeftZerosSplits(s);
    forall i | 0 <= i < |t| ensures IsDigit(t[i]) {
      assert t[i] == s[|s| - |t| + i];
    }
    ValueZeros(|s| - |t|);
    ShiftPositive(0, |t|);
    ValueConcat(Zeros(|s| - |t|), t);
  }

  lemma SetStrippedReadsDigits(s: string)
    requires AllDigits(s)
    ensures SetStripped(s) == Some(Value(s))
  {
    StrippedDigits(s);
    ValueOfDigit('0');
    assert Value("") == 0;
  }

  lemma CombineValue(whole: string, frac: string, places: nat)
    requires AllDigits(whole) && AllDigits(frac) && |frac| <= places
    ensures AllDigits(Combine(whole, frac, places))
    ensures Value(Combine(whole, frac, places)) == Shift(Value(whole), places) + Shift(Value(frac), places - |frac|)
  {
    var z := Zeros(places - |frac|);
    ValueZeros(places - |frac|);
    ValueConcat(frac, z);
    ValueConcat(whole, frac + z);
    assert whole + frac + z == whole + (frac + z);
  }

  /** The number two digit strings around a point denote, in base units. */
  function Magnitude(whole: string, frac: string, places: nat): Option<int>
    requires AllDigits(whole) && AllDigits(frac)
  {
    if |frac| > places then None else Some(Shift(Value(whole), places) + Shift(Value(frac), places - |frac|))
  }

  lemma ParsePartsReadsDigits(whole: string, frac: string, places: nat)
    requires AllDigits(whole) && AllDigits(frac)
    ensures ParseParts(whole, frac, places) == Magnitude(whole, frac, places)
  {
    if |frac| <= places {
      var w := if whole == "" then "0" else whole;
      ValueOfDigit('0');
      assert Value("") == 0;
      CombineValue(w, frac, places);
      SetStrippedReadsDigits(Combine(w, frac, places));
    }
  }

  lemma CutAtPoint(a: string, b: string)
    requires '.' !in a
    ensures Dotted(a + "." + b) && Whole(a + "." + b) == a && Frac(a + "." + b) == b
    ensures !Dotted(a) && Whole(a) == a && Frac(a) == ""
  {
    var s := a + "." + b;
    assert s[|a|] == '.' && forall j | 0 <= j < |a| :: s[j] == a[j];
    assert IndexOf(s, '.') == |a|;
  }

  lemma CutBehindFirst(t: string)
    requires t != "" && t[0] != '.'
    ensures Dotted(t[1..]) == Dotted(t) && Frac(t[1..]) == Frac(t) && Whole(t) == [t[0]] + Whole(t[1..])
  {
    assert IndexOf(t, '.') == 1 + IndexOf(t[1..], '.');
  }

  lemma DigitsHaveNoDot(s: string)
    requires AllDigits(s)
    ensures '.' !in s
  {}

  /** A plain decimal: sign text, integer digits, and a fraction when there is a point. */
  datatype Plain = Plain(sign: string, whole: string, frac: Option<string>) {
    predicate Valid() {
      && (sign == "" || sign == "-" || sign == "+")
      && AllDigits(whole)
      && (frac.Some? ==> AllDigits(frac.value))
      && (whole == "" ==> frac.Some?)
    }

    function Unsigned(): string {
      match frac
      case None => whole
      case Some(f) => whole + "." + f
    }

    function Show(): string {
      sign + Unsigned()
    }

    function Fraction(): string {
      match frac
      case None => ""
      case Some(f) => f
    }

    /** The amount in base units, or nothing when the fraction is finer than a base unit. */
    function Amount(places: nat): Option<int>
      requires Valid()
    {
      Negate(sign == "-", Magnitude(whole, Fraction(), places))
    }
  }

  lemma UnsignedReadsPlain(p: Plain, places: nat)
    requires p.Valid()
    ensures ParseUnsigned(p.Unsigned(), places) == Magnitude(p.whole, p.Fraction(), places)
  {
    DigitsHaveNoDot(p.whole);
    CutAtPoint(p.whole, p.Fraction());
    ParsePartsReadsDigits(p.whole, p.Fraction(), places);
  }

  lemma PlainText(p: Plain)
    requires p.Valid()
    ensures p.Show() != "" && Trimmed(p.Show()) && !HasSuffix(p.Show(), "USDFC")
    ensures TrimSpace(p.Show()) == p.Show()
    ensures p.Unsigned() != "" && !IsSign(p.Unsigned()[0])
  {
    var s := p.Show();
    assert forall i | 0 <= i < |s| :: IsDigit(s[i]) || IsSign(s[i]) || s[i] == '.';
    TrimSpaceKeeps(s);
  }

  lemma ParseTrimmedSigned(sign: string, u: string, places: nat)
    requires sign == "" || sign == "-" || sign == "+"
    requires u != "" && !IsSign(u[0])
    ensures ParseTrimmed(sign + u, places) == Negate(sign == "-", ParseUnsigned(u, places))
  {
    var t := sign + u;
    if sign == "" {
      assert t == u;
    } else {
      assert t[0] == sign[0] && t[1..] == u;
    }
  }

  lemma TrimmedReadsPlain(p: Plain, places: nat)
    requires p.Valid()
    ensures ParseTrimmed(p.Show(), places) == p.Amount(places)
  {
    PlainText(p);
    UnsignedReadsPlain(p, places);
    ParseTrimmedSigned(p.sign, p.Unsigned(), places);
  }

  /** parseDecimalTo18Decimals reads every plain decimal as the amount it denotes. */
  lemma ParseDecimal18ReadsPlain(p: Plain)
    requires p.Valid()
    ensures ParseDecimal18(p.Show()) == p.Amount(PLACES)
  {
    PlainText(p);
    TrimmedReadsPlain(p, PLACES);
  }

  // ---- Agreement of the parsers -------------------------------------------------------

  /** What `SetString` accepts, spelled out. */
  lemma SetStringAccepts(s: string)
    requires SetString(s).Some?
    ensures s != ""
    ensures IsSign(s[0]) ==> AllDigits(s[1..]) && s[1..] != "" &&
                             SetString(s) == Negate(s[0] == '-', Some(Value(s[1..])))
    ensures !IsSign(s[0]) ==> AllDigits(s) && SetString(s) == Some(Value(s))
  {}

  /** A leading zero in front of an accepted number changes nothing. */
  lemma ZeroInFront(c: string)
    requires SetString(c).Some?
    ensures SetStripped("0" + c) == SetString(c)
  {
    SetStringAccepts(c);
    assert ("0" + c)[1..] == c;
    if IsSign(c[0]) {
      assert TrimLeftZeros(c) == c;
    } else {
      StrippedDigits(c);
      SetStrippedReadsDigits(c);
    }
  }

  /** The same joined digits, read by both. */
  lemma PartsAgreeUnsigned(whole: string, frac: string, places: nat)
    requires |frac| <= places && SetString(Combine(whole, frac, places)).Some?
    requires whole == "" || !IsSign(whole[0])
    ensures ParseParts(whole, frac, places) == SetString(Combine(whole, frac, places))
  {
    var c := Combine(whole, frac, places);
    if whole == "" {
      assert Combine("0", frac, places) == "0" + c;
      ZeroInFront(c);
    } else {
      assert c[0] == whole[0];
      SetStringAccepts(c);
      SetStrippedReadsDigits(c);
    }
  }

  lemma PartsAgreeSigned(sign: char, whole: string, frac: string, places: nat)
    requires |frac| <= places && IsSign(sign) && SetString(Combine([sign] + whole, frac, places)).Some?
    ensures Negate(sign == '-', ParseParts(whole, frac, places)) == SetString(Combine([sign] + whole, frac, places))
  {
    var c := Combine([sign] + whole, frac, places);
    var d := Combine(whole, frac, places);
    assert c[0] == sign && c[1..] == d;
    SetStringAccepts(c);
    if whole == "" {
      assert Combine("0", frac, places) == "0" + d;
      assert AllDigits("0" + d);
      SetStrippedReadsDigits("0" + d);
      ValueOfDigit('0');
      ShiftPositive(0, |d|);
      ValueConcat("0", d);
    } else {
      SetStrippedReadsDigits(d);
    }
  }

  lemma UsdfcFractionIsDecimal(t: string, places: nat)
    requires Dotted(t) && |Frac(t)| <= places && SetString(Combine(Whole(t), Frac(t), places)).Some?
    ensures ParseTrimmed(t, places) == SetString(Combine(Whole(t), Frac(t), places))
  {
    if IsSign(t[0]) {
      CutBehindFirst(t);
      PartsAgreeSigned(t[0], Whole(t[1..]), Frac(t), places);
    } else {
      assert Whole(t) == "" || Whole(t)[0] == t[0];
      PartsAgreeUnsigned(Whole(t), Frac(t), places);
    }
  }

  /** The whole number case: no point, so the unit is multiplied in. */
  lemma UsdfcWholeIsDecimal(t: string, places: nat)
    requires SetString(t).Some?
    ensures ParseTrimmed(t, places) == Scaled(SetString(t), places)
  {
    SetStringAccepts(t);
    var u := if IsSign(t[0]) then t[1..] else t;
    DigitsHaveNoDot(u);
    CutAtPoint(u, "");
    ParsePartsReadsDigits(u, "", places);
    assert Value("") == 0;
    ShiftPositive(0, places);
  }

  /** With at least one place the joined text is never empty or "0" before it is read. */
  lemma UsdfcReads(t: string, places: nat)
    requires Dotted(t) && places > 0 && ParseUsdfcTrimmed(t, places).Some?
    ensures |Frac(t)| <= places
    ensures ParseUsdfcTrimmed(t, places) == SetString(Combine(Whole(t), Frac(t), places))
  {
    ValueOfDigit('0');
  }

  lemma UsdfcTrimmedAcceptsLess(t: string, places: nat)
    requires places > 0 && ParseUsdfcTrimmed(t, places).Some?
    ensures ParseTrimmed(t, places) == ParseUsdfcTrimmed(t, places)
  {
    if Dotted(t) {
      UsdfcReads(t, places);
      UsdfcFractionIsDecimal(t, places);
    } else {
      UsdfcWholeIsDecimal(t, places);
    }
  }

  /** Whatever parseUSDFC accepts, parseDecimalTo18Decimals accepts with the same amount. */
  lemma UsdfcAcceptsLess(s: string)
    requires !HasSuffix(TrimSpace(s), "USDFC") && ParseUsdfc(s).Some?
    ensures ParseDecimal18(s) == ParseUsdfc(s)
  {
    TrimSpaceTrims(s);
    TrimSpaceKeeps(TrimSpace(s));
    UsdfcTrimmedAcceptsLess(TrimSpace(s), PLACES);
  }

  /** Zeros, then a sign, then one digit or more: what big.Int reads once the zeros are stripped. */
  predicate Stray(c: string) {
    c != "" && if c[0] == '0' then Stray(c[1..]) else IsSign(c[0]) && |c| > 1 && AllDigits(c[1..])
  }

  lemma {:induction false} StrippedAccepts(c: string)
    ensures SetStripped(c).Some? <==> AllDigits(c) || Stray(c)
    ensures !(AllDigits(c) && Stray(c))
  {
    if c != "" && c[0] == '0' {
      StrippedAccepts(c[1..]);
      assert AllDigits(c) <==> AllDigits(c[1..]) by {
        assert forall i | 1 <= i < |c| :: c[i] == c[1..][i - 1];
      }
    } else {
      assert TrimLeftZeros(c) == c;
    }
  }

  /** What parseDecimalTo18Decimals accepts behind its own sign. */
  lemma PartsAccept(whole: string, frac: string, places: nat)
    requires |frac| <= places
    ensures ParseParts(whole, frac, places).Some? <==>
              AllDigits(Combine(whole, frac, places)) || Stray(Combine(whole, frac, places))
  {
    var c := Combine(whole, frac, places);
    if whole == "" {
      var d := Combine("0", frac, places);
      assert d == "0" + c;
      assert d[1..] == c;
      assert SetStripped(d) == SetStripped(c);
    }
    StrippedAccepts(c);
  }

  /** What parseUSDFC accepts around a point, `sign` being a sign or nothing. */
  lemma UsdfcPartsAccept(sign: string, whole: string, frac: string, places: nat)
    requires places > 0 && |frac| <= places && (sign == "" || sign == "-" || sign == "+")
    ensures var c := Combine(whole, frac, places);
            UsdfcParts(sign + whole, frac, places).Some? <==>
              AllDigits(c) || (sign == "" && IsSign(c[0]) && |c| > 1 && AllDigits(c[1..]))
  {
    var c, d := Combine(whole, frac, places), Combine(sign + whole, frac, places);
    assert d == sign + c && |c| >= places;
    if sign != "" {
      assert d[0] == sign[0] && d[1..] == c;
    } else {
      assert d == c;
    }
  }

  /** The text behind one optional leading sign. */
  function Body(t: string): string {
    if t != "" && IsSign(t[0]) then t[1..] else t
  }

  /**
   Where the parsers part: a lone sign, or, with no more than the allowed fraction digits, a stray
   sign behind zeros in what stands around the point. The exception is an unsigned text that starts
   with the point and has the sign right behind it: both read that.
   */
  predicate Divides(t: string, places: nat) {
    || t == "-" || t == "+"
    || (&& t != "" && |Frac(Body(t))| <= places && Stray(Combine(Whole(Body(t)), Frac(Body(t)), places))
        && !(|t| > 1 && t[0] == '.' && IsSign(t[1])))
  }

  lemma DividesUnsignedDotted(t: string, places: nat)
    requires places > 0 && t != "" && !IsSign(t[0]) && Dotted(t)
    ensures ParseTrimmed(t, places).Some? != ParseUsdfcTrimmed(t, places).Some? <==> Divides(t, places)
  {
    if |Frac(t)| <= places {
      var c := Combine(Whole(t), Frac(t), places);
      PartsAccept(Whole(t), Frac(t), places);
      assert Whole(t) == "" + Whole(t);
      UsdfcPartsAccept("", Whole(t), Frac(t), places);
      StrippedAccepts(c);
      if Whole(t) == "" {
        assert t[0] == '.' && (|t| > 1 ==> c[0] == t[1]);
      } else {
        assert t[0] == Whole(t)[0] == c[0];
      }
      assert IsSign(c[0]) <==> |t| > 1 && t[0] == '.' && IsSign(t[1]);
    }
  }

  lemma DividesUnsignedWhole(t: string, places: nat)
    requires places > 0 && t != "" && !IsSign(t[0]) && !Dotted(t)
    ensures ParseTrimmed(t, places).Some? != ParseUsdfcTrimmed(t, places).Some? <==> Divides(t, places)
  {
    assert Whole(t) == t;
    PartsAccept(t, "", places);
    DigitsWithZeros(t, places);
    StrippedAccepts(Combine(t, "", places));
  }

  lemma DigitsWithZeros(u: string, places: nat)
    ensures AllDigits(Combine(u, "", places)) <==> AllDigits(u)
  {
    var c := Combine(u, "", places);
    assert forall i | 0 <= i < |u| :: c[i] == u[i];
  }

  lemma DividesSigned(t: string, places: nat)
    requires places > 0 && t != "" && IsSign(t[0])
    ensures ParseTrimmed(t, places).Some? != ParseUsdfcTrimmed(t, places).Some? <==> Divides(t, places)
  {
    var sign, u := t[..1], t[1..];
    CutBehindFirst(t);
    assert Whole(t) == sign + Whole(u);
    if |Frac(u)| <= places {
      var c := Combine(Whole(u), Frac(u), places);
      PartsAccept(Whole(u), Frac(u), places);
      StrippedAccepts(c);
      if Dotted(t) {
        UsdfcPartsAccept(sign, Whole(u), Frac(u), places);
      } else {
        assert Whole(u) == u;
        DigitsWithZeros(u, places);
        if u == "" {
          assert AllDigits(c);
        }
      }
    }
  }

  lemma TrimmedAgree(t: string, places: nat)
    requires places > 0
    ensures ParseTrimmed(t, places) != ParseUsdfcTrimmed(t, places) <==> Divides(t, places)
  {
    if ParseUsdfcTrimmed(t, places).Some? {
      UsdfcTrimmedAcceptsLess(t, places);
    }
    if t == "" {
    } else if IsSign(t[0]) {
      DividesSigned(t, places);
    } else if Dotted(t) {
      DividesUnsignedDotted(t, places);
    } else {
      DividesUnsignedWhole(t, places);
    }
  }

  /** On every text without the unit suffix: the parsers answer differently exactly when stray signs divide them. */
  lemma ParsersAgree(s: string)
    requires !HasSuffix(TrimSpace(s), "USDFC")
    ensures ParseDecimal18(s) != ParseUsdfc(s) <==> Divides(TrimSpace(s), PLACES)
  {
    TrimSpaceTrims(s);
    TrimSpaceKeeps(TrimSpace(s));
    TrimmedAgree(TrimSpace(s), PLACES);
  }

  lemma {:induction false} StrayCharacters(c: string)
    requires Stray(c)
    ensures forall i | 0 <= i < |c| :: IsDigit(c[i]) || IsSign(c[i])
  {
    if c[0] == '0' {
      StrayCharacters(c[1..]);
    }
    assert forall i | 1 <= i < |c| :: c[i] == c[1..][i - 1];
  }

  lemma BodyEndsLike(t: string)
    requires |t| > 1
    ensures var u := Body(t);
            && u != "" && u[|u| - 1] == t[|t| - 1]
            && (t[|t| - 1] != '.' ==> t[|t| - 1] in Whole(u) + Frac(u))
  {
    var u := Body(t);
    var i := IndexOf(u, '.');
    if Dotted(u) && i < |u| - 1 {
      assert Frac(u)[|u| - 1 - i - 1] == u[|u| - 1];
    } else if !Dotted(u) {
      assert Whole(u)[|u| - 1] == u[|u| - 1];
    }
  }

  lemma SuffixIsRejected(t: string, places: nat)
    requires HasSuffix(t, "USDFC")
    ensures ParseTrimmed(t, places) == None
  {
    var u, n := Body(t), "USDFC";
    assert t[|t| - 1] == n[4];
    BodyEndsLike(t);
    if |Frac(u)| <= places {
      var c := Combine(Whole(u), Frac(u), places);
      assert 'C' in Whole(u) + Frac(u) && 'C' in c;
      PartsAccept(Whole(u), Frac(u), places);
      if Stray(c) {
        StrayCharacters(c);
      }
    }
  }

  /** With the unit suffix only parseUSDFC can read the text. */
  lemma OnlyUsdfcTakesSuffix(s: string)
    requires HasSuffix(TrimSpace(s), "USDFC")
    ensures ParseDecimal18(s) == None
  {
    SuffixIsRejected(TrimSpace(s), PLACES);
  }

  /** In particular both read every plain decimal as its amount. */
  lemma ParseUsdfcReadsPlain(p: Plain)
    requires p.Valid()
    ensures ParseUsdfc(p.Show()) == p.Amount(PLACES)
  {
    PlainText(p);
    ParseDecimal18ReadsPlain(p);
    ParsersAgree(p.Show());
    PlainIsNotDivided(p, PLACES);
  }

  lemma PlainIsNotDivided(p: Plain, places: nat)
    requires p.Valid()
    ensures !Divides(p.Show(), places)
  {
    PlainBody(p);
    if |p.Fraction()| <= places {
      CombineValue(p.whole, p.Fraction(), places);
      StrippedAccepts(Combine(p.whole, p.Fraction(), places));
    }
  }

  lemma PlainBody(p: Plain)
    requires p.Valid()
    ensures Body(p.Show()) == p.Unsigned() && p.Show() != "-" && p.Show() != "+"
    ensures Whole(p.Unsigned()) == p.whole && Frac(p.Unsigned()) == p.Fraction()
  {
    PlainText(p);
    var t, u := p.Show(), p.Unsigned();
    if p.sign == "" {
      assert t == u;
    } else {
      assert t[0] == p.sign[0] && t[1..] == u;
    }
    DigitsHaveNoDot(p.whole);
    CutAtPoint(p.whole, p.Fraction());
  }

  lemma LoneSign(places: nat)
    ensures ParseTrimmed("-", places) == Some(0)
  {
    assert Value("") == 0;
    ShiftPositive(0, places);
    ParsePartsReadsDigits("", "", places);
    CutAtPoint("", "");
    assert "-"[1..] == "";
  }

  lemma MinusFive(places: nat)
    ensures SetString(Combine("-5", "", places)) == Scaled(Some(-5), places)
  {
    ValueOfDigit('5');
    CombineValue("5", "", places);
    assert Value("") == 0;
    ShiftPositive(0, places);
    var c, d := Combine("-5", "", places), Combine("5", "", places);
    assert c[0] == '-' && c[1..] == d;
  }

  lemma TwoSigns(places: nat)
    ensures ParseTrimmed("--5", places) == Scaled(Some(5), places)
  {
    MinusFive(places);
    CutAtPoint("-5", "");
    var c := Combine("-5", "", places);
    assert c[0] == '-' && TrimLeftZeros(c) == c;
    assert "--5"[1..] == "-5";
  }

  lemma SignBehindZero(places: nat)
    ensures ParseTrimmed("0-5", places) == Scaled(Some(-5), places)
  {
    MinusFive(places);
    CutAtPoint("0-5", "");
    assert Combine("0-5", "", places) == "0" + Combine("-5", "", places);
    ZeroInFront(Combine("-5", "", places));
  }

  /** Stray signs: parseDecimalTo18Decimals takes all three of these, parseUSDFC none of them. */
  lemma StraySignsDivideTheParsers()
    ensures ParseDecimal18("-") == Some(0) && ParseUsdfc("-") == None
    ensures ParseDecimal18("--5") == Scaled(Some(5), PLACES) && ParseUsdfc("--5") == None
    ensures ParseDecimal18("0-5") == Scaled(Some(-5), PLACES) && ParseUsdfc("0-5") == None
  {
    LoneSign(PLACES);
    TwoSigns(PLACES);
    SignBehindZero(PLACES);
    TrimSpaceKeeps("-");
    TrimSpaceKeeps("--5");
    TrimSpaceKeeps("0-5");
    assert "-"[1..] == "" && "--5"[1..] == "-5";
    CutAtPoint("-", "");
    CutAtPoint("--5", "");
    CutAtPoint("0-5", "");
  }

  // ---- decimal18 and parseDecimalTo18Decimals undo each other -------------------------

  lemma PaddedText(rest: nat, places: nat)
    requires places > 0 && rest < Pow10(places)
    ensures |NatText(rest)| <= places
    ensures var s := PadZeros(NatText(rest), places);
            |s| == places && AllDigits(s) && Value(s) == rest
  {
    NatTextValue(rest);
    NatTextWidth(rest, places);
    PadZerosValue(NatText(rest), places);
  }

  lemma TrimmedFraction(s: string)
    requires AllDigits(s) && Value(s) > 0
    ensures var f := TrimRightZeros(s);
            && AllDigits(f) && 0 < |f| <= |s| && f[|f| - 1] != '0'
            && Shift(Value(f), |s| - |f|) == Value(s)
  {
    TrimRightZerosSplits(s);
    var f := TrimRightZeros(s);
    assert forall i | 0 <= i < |f| :: f[i] == s[i];
    ValueZeros(|s| - |f|);
    ValueConcat(f, Zeros(|s| - |f|));
    assert Value("") == 0;
    ShiftPositive(0, |s| - |f|);
  }

  lemma FractionReads(rest: nat, places: nat)
    requires 0 < rest < Pow10(places)
    ensures var f := FractionText(rest, places);
            && AllDigits(f) && 0 < |f| <= places && f[|f| - 1] != '0'
            && Shift(Value(f), places - |f|) == rest
  {
    PaddedText(rest, places);
    TrimmedFraction(PadZeros(NatText(rest), places));
  }

  /** The text for `q` units and `rest` base units as a plain decimal. */
  function PlainOf(neg: bool, q: nat, rest: nat, places: nat): Plain {
    Plain(if neg then "-" else "", NatText(q), if rest == 0 then None else Some(FractionText(rest, places)))
  }

  lemma MagnitudeOf(whole: string, frac: string, q: nat, rest: nat, places: nat)
    requires AllDigits(whole) && Value(whole) == q
    requires AllDigits(frac) && |frac| <= places && Shift(Value(frac), places - |frac|) == rest
    ensures Magnitude(whole, frac, places) == Some(Shift(q, places) + rest)
  {}

  lemma NoFraction(frac: string, places: nat)
    requires frac == ""
    ensures Shift(Value(frac), places) == 0
  {
    ShiftPositive(0, places);
  }

  lemma PlainOfShows(neg: bool, q: nat, rest: nat, places: nat)
    ensures PlainOf(neg, q, rest, places).Show() == (if neg then "-" else "") + MagnitudeText(q, rest, places)
  {
    assert PlainOf(neg, q, rest, places).Unsigned() == MagnitudeText(q, rest, places);
  }

  lemma PlainOfFraction(neg: bool, q: nat, rest: nat, places: nat)
    requires rest < Pow10(places)
    ensures var f := PlainOf(neg, q, rest, places).Fraction();
            AllDigits(f) && |f| <= places && Shift(Value(f), places - |f|) == rest
  {
    if rest == 0 {
      NoFraction("", places);
    } else {
      FractionReads(rest, places);
    }
  }

  lemma PlainOfReads(neg: bool, q: nat, rest: nat, places: nat)
    requires rest < Pow10(places)
    ensures var p := PlainOf(neg, q, rest, places);
            p.Valid() && p.Amount(places) == Negate(neg, Some(Shift(q, places) + rest))
  {
    PlainOfFraction(neg, q, rest, places);
    NatTextValue(q);
    MagnitudeOf(NatText(q), PlainOf(neg, q, rest, places).Fraction(), q, rest, places);
  }

  lemma PlainPrints(p: Plain, text: string, n: int, places: nat)
    requires p.Valid() && p.Show() == text && p.Amount(places) == Some(n)
    ensures ParseTrimmed(text, places) == Some(n) && TrimSpace(text) == text
  {
    PlainText(p);
    TrimmedReadsPlain(p, places);
  }

  lemma DecimalTextIs(n: int, q: nat, rest: nat, places: nat)
    requires q == Div(Abs(n), Pow10(places)) && rest == Mod(Abs(n), Pow10(places))
    ensures DecimalText(n, places) == PlainOf(n < 0, q, rest, places).Show()
  {
    PlainOfShows(n < 0, q, rest, places);
    if n == 0 {
      SplitAt(0, places);
      ShiftPositive(q, places);
      assert NatText(0) == "0";
    }
  }

  lemma PrintThenParseAt(n: int, places: nat)
    ensures ParseTrimmed(DecimalText(n, places), places) == Some(n)
    ensures TrimSpace(DecimalText(n, places)) == DecimalText(n, places)
  {
    var q, rest := Div(Abs(n), Pow10(places)), Mod(Abs(n), Pow10(places));
    SplitAt(Abs(n), places);
    PlainOfReads(n < 0, q, rest, places);
    DecimalTextIs(n, q, rest, places);
    PlainPrints(PlainOf(n < 0, q, rest, places), DecimalText(n, places), n, places);
  }

  /** Parsing what decimal18 prints gives the number back, for every integer. */
  lemma PrintThenParse(n: int)
    ensures ParseDecimal18(Decimal18Text(n)) == Some(n)
  {
    PrintThenParseAt(n, PLACES);
  }

  /** decimal18 is a normal form: two amounts print alike only when they are equal. */
  lemma PrintIsInjective(m: int, n: int)
    requires Decimal18Text(m) == Decimal18Text(n)
    ensures m == n
  {
    PrintThenParse(m);
    PrintThenParse(n);
  }

  /** A plain decimal with no idle zeros, no plus and no minus zero. */
  ghost predicate LowestForm(p: Plain, places: nat)
    requires p.Valid()
  {
    && Canonical(p.whole) && p.sign != "+"
    && (p.frac.Some? ==> p.frac.value != "" && p.frac.value[|p.frac.value| - 1] != '0')
    && (p.Amount(places) == Some(0) ==> p.sign == "")
  }

  lemma PaddedIs(s: string, rest: nat)
    requires s != "" && AllDigits(s) && Value(s) == rest
    ensures rest < Pow10(|s|) && PadZeros(NatText(rest), |s|) == s
  {
    ValueBound(s);
    PaddedText(rest, |s|);
    SameWidth(PadZeros(NatText(rest), |s|), s);
  }

  /** A fraction that does not end in zero is what its own amount prints as. */
  lemma FractionTextOf(f: string, places: nat)
    requires f != "" && AllDigits(f) && f[|f| - 1] != '0' && |f| <= places
    ensures var rest := Shift(Value(f), places - |f|);
            0 < rest < Pow10(places) && FractionText(rest, places) == f
  {
    var z := Zeros(places - |f|);
    ValueZeros(places - |f|);
    ValueConcat(f, z);
    LastDigitPositive(f);
    ShiftPositive(Value(f), places - |f|);
    PaddedIs(f + z, Shift(Value(f), places - |f|));
    TrimRightUndoesPadding(f, places - |f|);
  }

  lemma LowestFormIsPrinted(p: Plain, places: nat)
    requires p.Valid() && p.Amount(places).Some? && LowestForm(p, places)
    ensures DecimalText(p.Amount(places).value, places) == p.Show()
  {
    var n := p.Amount(places).value;
    CanonicalIsNatText(p.whole);
    if p.frac.None? {
      assert Value("") == 0;
      ShiftPositive(0, places);
      DivModIs(Abs(n), places, Value(p.whole), 0);
      if n == 0 {
        ShiftPositive(Value(p.whole), places);
        assert NatText(0) == "0";
      }
    } else {
      FractionTextOf(p.frac.value, places);
      DivModIs(Abs(n), places, Value(p.whole), Shift(Value(p.frac.value), places - |p.frac.value|));
    }
  }

  /** A plain decimal in lowest form is printed back as it was read. */
  lemma ParseThenPrint(p: Plain)
    requires p.Valid() && LowestForm(p, PLACES) && p.Amount(PLACES).Some?
    ensures ParseDecimal18(p.Show()).Some? && Decimal18Text(ParseDecimal18(p.Show()).value) == p.Show()
  {
    ParseDecimal18ReadsPlain(p);
    LowestFormIsPrinted(p, PLACES);
  }

  lemma LastDigitPositive(f: string)
    requires AllDigits(f) && f != "" && f[|f| - 1] != '0'
    ensures Value(f) > 0
  {
    assert DigitOf(f[|f| - 1]) > 0;
  }

  lemma {:induction false} TrimRightUndoesPadding(f: string, k: nat)
    requires f != "" && f[|f| - 1] != '0'
    ensures TrimRightZeros(f + Zeros(k)) == f
  {
    if k == 0 {
      assert f + Zeros(0) == f;
    } else {
      assert (f + Zeros(k))[..|f + Zeros(k)| - 1] == f + Zeros(k - 1);
      TrimRightUndoesPadding(f, k - 1);
    }
  }

  // ---- formatToken against formatBigWei -----------------------------------------------

  /** The text of `q * 10^places + r` is the text of `q`, then `r` at full width. */
  lemma DigitsSplit(v: nat, q: nat, r: nat, places: nat)
    requires places > 0 && q > 0 && r < Pow10(places) && v == Shift(q, places) + r
    ensures NatText(v) == NatText(q) + PadZeros(NatText(r), places) && |NatText(r)| <= places
  {
    NatTextValue(q);
    PaddedText(r, places);
    var s := NatText(q) + PadZeros(NatText(r), places);
    ValueConcat(NatText(q), PadZeros(NatText(r), places));
    ValueOfDigit('0');
    assert NatText(q) != "0";
    assert s[0] == NatText(q)[0];
    CanonicalIsNatText(s);
  }

  lemma WeiOfZero(places: nat)
    requires places >= 4
    ensures |NatText(0)| <= places
    ensures FormatWei(Some(0), places) == "0" + "." + PadZeros(NatText(0), places)[..4]
  {
    var padded := PadZeros(NatText(0), places);
    assert NatText(0) == "0" && padded == Zeros(places);
    assert padded[..4] == "0000";
  }

  lemma WeiTextBelowOne(digits: string, places: nat)
    requires 4 <= places && |digits| <= places
    ensures WeiText(digits, places) == "0" + "." + PadZeros(digits, places)[..4]
  {
    assert "0." == "0" + ".";
    assert Zeros(0) + digits == digits;
  }

  lemma WeiBelowOne(n: int, places: nat)
    requires places >= 4 && Abs(n) < Pow10(places)
    ensures |NatText(Abs(n))| <= places
    ensures FormatWei(Some(n), places) == "0" + "." + PadZeros(NatText(Abs(n)), places)[..4]
  {
    if n == 0 {
      WeiOfZero(places);
    } else {
      NatTextWidth(Abs(n), places);
      WeiTextBelowOne(NatText(Abs(n)), places);
    }
  }

  lemma WeiAboveOne(n: int, q: nat, r: nat, places: nat)
    requires places >= 4 && q > 0 && r < Pow10(places) && Abs(n) == Shift(q, places) + r
    ensures FormatWei(Some(n), places) == NatText(q) + "." + PadZeros(NatText(r), places)[..4]
    ensures |NatText(r)| <= places
  {
    DigitsSplit(Abs(n), q, r, places);
    var s := NatText(Abs(n));
    assert s[..|s| - places] == NatText(q) && s[|s| - places..] == PadZeros(NatText(r), places);
  }

  /** Slicing digits prints the quotient and four digits of the remainder, whatever the sign. */
  lemma WeiDivides(n: int, q: nat, r: nat, places: nat)
    requires places >= 4 && r < Pow10(places) && Abs(n) == Shift(q, places) + r
    ensures FormatWei(Some(n), places) == NatText(q) + "." + PadZeros(NatText(r), places)[..4]
    ensures |NatText(r)| <= places
  {
    if q == 0 {
      assert NatText(0) == "0";
      ShiftPositive(0, places);
      WeiBelowOne(n, places);
    } else {
      WeiAboveOne(n, q, r, places);
    }
  }

  lemma IntTextReads(v: int)
    ensures TrimSpace(IntText(v)) == IntText(v) != "" && SetString(IntText(v)) == Some(v)
  {
    NatTextValue(Abs(v));
    var s := IntText(v);
    if v < 0 {
      assert s[1..] == NatText(-v);
    }
    TrimSpaceKeeps(s);
  }

  lemma TokenDivides(v: int, places: nat)
    requires places >= 4
    ensures |NatText(Mod(v, Pow10(places)))| <= places
    ensures FormatToken(IntText(v), places) ==
              IntText(Quo(v, Pow10(places))) + "." + PadZeros(NatText(Mod(v, Pow10(places))), places)[..4]
  {
    IntTextReads(v);
    NatTextWidth(Mod(v, Pow10(places)), places);
  }

  /** The two fixed-point printers agree on every amount that can be held. */
  lemma PrintersAgree(v: nat)
    ensures FormatToken(IntText(v), PLACES) == FormatBigWei(Some(v))
  {
    PrintersAgreeAt(v, PLACES);
  }

  lemma PrintersAgreeAt(v: nat, places: nat)
    requires places >= 4
    ensures FormatToken(IntText(v), places) == FormatWei(Some(v), places)
  {
    SplitAt(v, places);
    WeiDivides(v, Div(v, Pow10(places)), Mod(v, Pow10(places)), places);
    TokenDivides(v, places);
  }

  /** The first four of a remainder's fixed-width digits count its ten-thousandths. */
  lemma FourDigits(r: nat, k: nat, rest: nat, places: nat)
    requires places >= 4 && r < Pow10(places) && r == Shift(k, places - 4) + rest && rest < Pow10(places - 4)
    ensures |NatText(r)| <= places
    ensures var d := PadZeros(NatText(r), places)[..4];
            |d| == 4 && AllDigits(d) && Value(d) == k
  {
    PaddedText(r, places);
    var s := PadZeros(NatText(r), places);
    assert s == s[..4] + s[4..];
    ValueConcat(s[..4], s[4..]);
    ValueBound(s[4..]);
    SplitUnique(Value(s[..4]), Value(s[4..]), k, rest, places - 4);
  }

  lemma TenThousand(places: nat)
    requires places >= 4
    ensures Pow10(places) == 10000 * Pow10(places - 4)
    ensures Shift(10000, places - 4) == Pow10(places)
    ensures Shift(5000, places - 4) == 5000 * Pow10(places - 4)
  {
    ShiftIsTimes(1, places);
    ShiftIsTimes(10000, places - 4);
    ShiftIsTimes(5000, places - 4);
    assert Pow10(places) == 10 * Pow10(places - 1) == 100 * Pow10(places - 2)
        == 1000 * Pow10(places - 3) == 10000 * Pow10(places - 4);
  }

  lemma FourPlaces(q: nat, d: string, places: nat) returns (p: Plain)
    requires |d| == 4 <= places && AllDigits(d)
    ensures p.Valid() && p.Show() == NatText(q) + "." + d
    ensures p.Amount(places) == Some(Shift(q, places) + Shift(Value(d), places - 4))
  {
    NatTextValue(q);
    p := Plain("", NatText(q), Some(d));
    MagnitudeOf(p.whole, d, q, Shift(Value(d), places - 4), places);
  }

  lemma FourPlacesPrint(q: nat, d: string, text: string, n: nat, places: nat)
    requires |d| == 4 <= places && AllDigits(d) && text == NatText(q) + "." + d
    requires n == Shift(q, places) + Shift(Value(d), places - 4)
    ensures ParseTrimmed(text, places) == Some(n) && TrimSpace(text) == text
  {
    var p := FourPlaces(q, d, places);
    PlainPrints(p, text, n, places);
  }

  lemma WeiTruncatesAt(v: nat, q: nat, r: nat, k: nat, rest: nat, places: nat)
    requires places >= 4 && r < Pow10(places) && rest < Pow10(places - 4)
    requires v == Shift(q, places) + r && r == Shift(k, places - 4) + rest
    ensures ParseTrimmed(FormatWei(Some(v), places), places) == Some(v - rest)
    ensures TrimSpace(FormatWei(Some(v), places)) == FormatWei(Some(v), places)
  {
    WeiDivides(v, q, r, places);
    FourDigits(r, k, rest, places);
    FourPlacesPrint(q, PadZeros(NatText(r), places)[..4], FormatWei(Some(v), places), v - rest, places);
  }

  lemma ModOfMod(v: nat, places: nat)
    requires places >= 4
    ensures Mod(v, Pow10(places - 4)) == Mod(Mod(v, Pow10(places)), Pow10(places - 4))
  {
    var q, r := Div(v, Pow10(places)), Mod(v, Pow10(places));
    var k, rest := Div(r, Pow10(places - 4)), Mod(r, Pow10(places - 4));
    SplitAt(v, places);
    SplitAt(r, places - 4);
    ShiftShift(q, 4, places - 4);
    ShiftAdd(Shift(q, 4), k, places - 4);
    DivModIs(v, places - 4, Shift(q, 4) + k, rest);
  }

  lemma WeiTruncates(v: nat, places: nat)
    requires places >= 4
    ensures ParseTrimmed(FormatWei(Some(v), places), places) == Some(v - Mod(v, Pow10(places - 4)))
    ensures TrimSpace(FormatWei(Some(v), places)) == FormatWei(Some(v), places)
  {
    var q, r := Div(v, Pow10(places)), Mod(v, Pow10(places));
    var k, rest := Div(r, Pow10(places - 4)), Mod(r, Pow10(places - 4));
    SplitAt(v, places);
    SplitAt(r, places - 4);
    WeiTruncatesAt(v, q, r, k, rest, places);
    ModOfMod(v, places);
  }

  /** Both printers cut, never round: reading one back loses less than a ten-thousandth of a unit. */
  lemma PrintersTruncate(v: nat)
    ensures ParseDecimal18(FormatBigWei(Some(v))) == Some(v - Mod(v, Pow10(14)))
  {
    WeiTruncates(v, PLACES);
  }

  lemma NegativeRemainder(v: int, places: nat)
    requires 0 < -v < Pow10(places)
    ensures Quo(v, Pow10(places)) == 0 && Mod(v, Pow10(places)) == Pow10(places) + v
  {
    ShiftPositive(0, places);
    DivModIs(-v, places, 0, -v);
    SmallNegative(v, Pow10(places));
  }

  lemma SmallNegative(v: int, w: nat)
    requires 0 < -v < w
    ensures Mod(v, w) == w + v
  {
    assert v == (-1) * w + (w + v);
  }

  /** `u` and its complement to one unit show the same four digits only at the middle. */
  lemma HalfWay(u: nat, k: nat, rest: nat, places: nat) returns (k': nat, rest': nat)
    requires places >= 4 && 0 < u < Pow10(places) && u == Shift(k, places - 4) + rest && rest < Pow10(places - 4)
    ensures Pow10(places) - u == Shift(k', places - 4) + rest' && rest' < Pow10(places - 4)
    ensures k' == k <==> u == Shift(5000, places - 4)
  {
    var p := places - 4;
    TenThousand(places);
    if k >= 10000 {
      ShiftAdd(10000, k - 10000, p);
      assert false;
    }
    if u == Shift(5000, p) {
      SplitUnique(k, rest, 5000, 0, p);
    }
    if rest == 0 {
      k', rest' := 10000 - k, 0;
      ShiftAdd(k, k', p);
    } else {
      k', rest' := 9999 - k, Pow10(p) - rest;
      ShiftAdd(k, k', p);
      ShiftAdd(k + k', 1, p);
      ShiftIsTimes(1, p);
    }
  }

  /** Four digits are the same exactly when what they count is. */
  lemma FourDigitsTell(r: nat, k: nat, rest: nat, r': nat, k': nat, rest': nat, places: nat)
    requires places >= 4 && r < Pow10(places) && r == Shift(k, places - 4) + rest && rest < Pow10(places - 4)
    requires r' < Pow10(places) && r' == Shift(k', places - 4) + rest' && rest' < Pow10(places - 4)
    ensures |NatText(r)| <= places && |NatText(r')| <= places
    ensures PadZeros(NatText(r), places)[..4] == PadZeros(NatText(r'), places)[..4] <==> k == k'
  {
    FourDigits(r, k, rest, places);
    FourDigits(r', k', rest', places);
    if k == k' {
      SameWidth(PadZeros(NatText(r), places)[..4], PadZeros(NatText(r'), places)[..4]);
    }
  }

  lemma SameTail(head: string, a: string, b: string)
    ensures head + a == head + b <==> a == b
  {
    assert (head + a)[|head|..] == a && (head + b)[|head|..] == b;
  }

  lemma TokenOfDebt(v: int, u: nat, places: nat, head: string)
    requires places >= 4 && 0 < u < Pow10(places) && v == 0 - u && head == IntText(0) + "."
    ensures |NatText(Pow10(places) - u)| <= places
    ensures FormatToken(IntText(v), places) == head + PadZeros(NatText(Pow10(places) - u), places)[..4]
  {
    TokenDivides(v, places);
    NegativeRemainder(v, places);
  }

  lemma WeiOfDebt(v: int, u: nat, places: nat, head: string)
    requires places >= 4 && 0 < u < Pow10(places) && v == 0 - u && head == NatText(0) + "."
    ensures |NatText(u)| <= places
    ensures FormatWei(Some(v), places) == head + PadZeros(NatText(u), places)[..4]
  {
    ShiftPositive(0, places);
    WeiDivides(v, 0, u, places);
  }

  lemma SmallDebtDigits(u: nat, places: nat)
    requires places >= 4 && 0 < u < Pow10(places)
    ensures |NatText(u)| <= places && |NatText(Pow10(places) - u)| <= places
    ensures PadZeros(NatText(Pow10(places) - u), places)[..4] == PadZeros(NatText(u), places)[..4] <==>
            u == Shift(5000, places - 4)
  {
    var k, rest := Div(u, Pow10(places - 4)), Mod(u, Pow10(places - 4));
    SplitAt(u, places - 4);
    var k', rest' := HalfWay(u, k, rest, places);
    FourDigitsTell(Pow10(places) - u, k', rest', u, k, rest, places);
  }

  lemma SameHead(u: nat, places: nat, head: string, t: string, w: string)
    requires places >= 4 && 0 < u < Pow10(places) && |NatText(u)| <= places && |NatText(Pow10(places) - u)| <= places
    requires t == head + PadZeros(NatText(Pow10(places) - u), places)[..4]
             && w == head + PadZeros(NatText(u), places)[..4]
    ensures t == w <==> u == Shift(5000, places - 4)
  {
    SmallDebtDigits(u, places);
    SameTail(head, PadZeros(NatText(Pow10(places) - u), places)[..4], PadZeros(NatText(u), places)[..4]);
  }

  /** Below one unit the two texts, of the debt of `u`, differ in their last four digits or nowhere. */
  lemma SmallDebt(v: int, u: nat, places: nat, t: string, w: string)
    requires places >= 4 && 0 < u < Pow10(places) && v == 0 - u
    requires t == FormatToken(IntText(v), places) && w == FormatWei(Some(v), places)
    ensures t == w <==> u == Shift(5000, places - 4)
  {
    var head := IntText(0) + ".";
    TokenOfDebt(v, u, places, head);
    WeiOfDebt(v, u, places, head);
    SameHead(u, places, head, t, w);
  }

  lemma QuoBelowMinusOne(v: int, places: nat) returns (q: nat, r: nat)
    requires -v >= Pow10(places)
    ensures q > 0 && r < Pow10(places) && -v == Shift(q, places) + r && Quo(v, Pow10(places)) == 0 - q
  {
    q, r := Div(-v, Pow10(places)), Mod(-v, Pow10(places));
    SplitAt(-v, places);
    ShiftPositive(q, places);
  }

  lemma LargeDebt(v: int, places: nat)
    requires places >= 4 && -v >= Pow10(places)
    ensures FormatToken(IntText(v), places) != FormatWei(Some(v), places)
  {
    var q, r := QuoBelowMinusOne(v, places);
    WeiDivides(v, q, r, places);
    TokenDivides(v, places);
    var a, b := FormatToken(IntText(v), places), FormatWei(Some(v), places);
    assert a[0] == '-';
    assert b[0] == NatText(q)[0];
  }

  /** A debt is shown alike by both printers only at minus one half: formatBigWei drops the sign. */
  lemma PrintersOnDebts(v: int)
    requires v < 0
    ensures FormatToken(IntText(v), PLACES) == FormatBigWei(Some(v)) <==> v == -5000 * Pow10(14)
  {
    TenThousand(PLACES);
    if -v < Pow10(PLACES) {
      SmallDebt(v, -v, PLACES, FormatToken(IntText(v), PLACES), FormatBigWei(Some(v)));
    } else {
      LargeDebt(v, PLACES);
    }
  }
}
