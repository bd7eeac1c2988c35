/**
 The string helpers of Go's standard library that the modelled code calls, with the facts
 about decimal digits every printer and parser proof rests on.
 A Go string is a sequence of bytes; here each `char` stands for one byte.
 */
module Text {

  datatype Option<+T> = None | Some(value: T)

  // ---- Decimal digits -----------------------------------------------------------------

  predicate IsDigit(c: char) {
    '0' <= c <= '9'
  }

  predicate AllDigits(s: string) {
    forall i | 0 <= i < |s| :: IsDigit(s[i])
  }

  function DigitOf(c: char): (d: nat)
    requires IsDigit(c)
    ensures d < 10
  {
    c as int - '0' as int
  }

  function DigitChar(d: nat): (c: char)
    requires d < 10
    ensures IsDigit(c) && DigitOf(c) == d
  {
    ('0' as int + d) as char
  }

  function Pow10(n: nat): (p: nat)
    ensures p >= 1
  {
    if n == 0 then 1 else 10 * Pow10(n - 1)
  }

  /** `n` followed by `k` zeros: `n` times ten to the `k`, by repeated multiplication. */
  function Shift(n: nat, k: nat): nat {
    if k == 0 then n else 10 * Shift(n, k - 1)
  }

  lemma {:induction false} ShiftIsTimes(n: nat, k: nat)
    ensures Shift(n, k) == n * Pow10(k)
  {
    if k > 0 {
      ShiftIsTimes(n, k - 1);
      assert 10 * (n * Pow10(k - 1)) == n * (10 * Pow10(k - 1));
    }
  }

  lemma {:induction false} ShiftAdd(m: nat, n: nat, k: nat)
    ensures Shift(m + n, k) == Shift(m, k) + Shift(n, k)
  {
    if k > 0 {
      ShiftAdd(m, n, k - 1);
    }
  }

  lemma {:induction false} ShiftShift(n: nat, j: nat, k: nat)
    ensures Shift(Shift(n, j), k) == Shift(n, j + k)
  {
    if k > 0 {
      ShiftShift(n, j, k - 1);
    }
  }

  lemma {:induction false} ShiftPositive(n: nat, k: nat)
    ensures Shift(n, k) >= n
    ensures n >= 1 ==> Shift(n, k) >= Pow10(k)
    ensures Shift(0, k) == 0
  {
    if k > 0 {
      ShiftPositive(n, k - 1);
    }
  }

  // Quotient and remainder under names of their own: the solver then meets a
  // product or a quotient of two unknowns only where a lemma below is about it.

  function Div(n: nat, d: nat): nat
    requires d > 0
  {
    n / d
  }

  /** The Euclidean remainder, never negative: `big.Int.Mod`. */
  function Mod(n: int, d: nat): (r: nat)
    requires d > 0
    ensures r < d
  {
    n % d
  }

  lemma DivModSum(n: nat, d: nat)
    requires d > 0
    ensures n == Div(n, d) * d + Mod(n, d)
  {}

  /** A number is its quotient shifted, and its remainder. */
  lemma SplitAt(n: nat, k: nat)
    ensures n == Shift(Div(n, Pow10(k)), k) + Mod(n, Pow10(k))
  {
    DivModSum(n, Pow10(k));
    ShiftIsTimes(Div(n, Pow10(k)), k);
  }

  /** Quotient and remainder are the only pair of their kind. */
  lemma SplitUnique(q: nat, r: nat, q': nat, r': nat, k: nat)
    requires Shift(q, k) + r == Shift(q', k) + r' && r < Pow10(k) && r' < Pow10(k)
    ensures q == q' && r == r'
  {
    if q < q' {
      ShiftAdd(q, q' - q, k);
      ShiftPositive(q' - q, k);
    } else if q' < q {
      ShiftAdd(q', q - q', k);
      ShiftPositive(q - q', k);
    }
  }

  lemma DivModIs(n: nat, k: nat, q: nat, r: nat)
    requires n == Shift(q, k) + r && r < Pow10(k)
    ensures Div(n, Pow10(k)) == q && Mod(n, Pow10(k)) == r
  {
    SplitAt(n, k);
    SplitUnique(q, r, Div(n, Pow10(k)), Mod(n, Pow10(k)), k);
  }

  /** The number a digit string denotes; the empty string denotes zero. */
  function Value(s: string): nat
    requires AllDigits(s)
    decreases |s|
  {
    if s == "" then 0 else 10 * Value(s[..|s| - 1]) + DigitOf(s[|s| - 1])
  }

  /** `big.Int.String` of a non-negative number: decimal digits, no leading zero. */
  function NatText(n: nat): (s: string)
    ensures AllDigits(s) && s != ""
  {
    if n < 10 then [DigitChar(n)] else NatText(n / 10) + [DigitChar(n % 10)]
  }

  /** `big.Int.String`. */
  function IntText(n: int): string {
    if n < 0 then "-" + NatText(-n) else NatText(n)
  }

  function Zeros(n: nat): (z: string)
    ensures |z| == n && AllDigits(z)
  {
    seq(n, _ => '0')
  }

  /** How a digit string looks when it is some number's text. */
  predicate Canonical(s: string) {
    AllDigits(s) && s != "" && (s[0] == '0' ==> |s| == 1)
  }

  lemma {:induction false} ValueConcat(a: string, b: string)
    requires AllDigits(a) && AllDigits(b)
    ensures AllDigits(a + b) && Value(a + b) == Shift(Value(a), |b|) + Value(b)
    decreases |b|
  {
    if b == "" {
      assert a + b == a;
    } else {
      var b0 := b[..|b| - 1];
      ValueConcat(a, b0);
      assert (a + b)[..|a + b| - 1] == a + b0;
    }
  }

  lemma ValueOfDigit(c: char)
    requires IsDigit(c)
    ensures Value([c]) == DigitOf(c)
  {
    assert [c][..0] == "";
  }

  lemma {:induction false} ValueZeros(n: nat)
    ensures Value(Zeros(n)) == 0
  {
    if n > 0 {
      assert Zeros(n)[..n - 1] == Zeros(n - 1);
      ValueZeros(n - 1);
    }
  }

  lemma {:induction false} ValueBound(s: string)
    requires AllDigits(s)
    ensures Value(s) < Pow10(|s|)
    decreases |s|
  {
    if s != "" {
      ValueBound(s[..|s| - 1]);
    }
  }

  lemma {:induction false} NatTextValue(n: nat)
    ensures Value(NatText(n)) == n && Canonical(NatText(n))
  {
    if n >= 10 {
      NatTextValue(n / 10);
      assert NatText(n)[..|NatText(n)| - 1] == NatText(n / 10);
      assert NatText(n)[0] == NatText(n / 10)[0];
      assert NatText(n / 10) != "0";
    } else {
      assert NatText(n)[..0] == "";
    }
  }

  /** A canonical digit string is the text of its own value, so such a text is unique. */
  lemma {:induction false} CanonicalIsNatText(s: string)
    requires Canonical(s)
    ensures NatText(Value(s)) == s
    decreases |s|
  {
    var init := s[..|s| - 1];
    if init == "" {
      assert Value(init) == 0;
      assert s == [s[0]];
    } else {
      assert init[0] == s[0];
      CanonicalIsNatText(init);
      ValuePositive(init);
      var d := DigitOf(s[|s| - 1]);
      assert Value(s) == 10 * Value(init) + d;
      assert Value(s) / 10 == Value(init) && Value(s) % 10 == d;
      assert s == init + [s[|s| - 1]];
    }
  }

  lemma {:induction false} ValuePositive(s: string)
    requires Canonical(s) && s[0] != '0'
    ensures Value(s) > 0
    decreases |s|
  {
    if |s| > 1 {
      assert s[..|s| - 1][0] == s[0];
      ValuePositive(s[..|s| - 1]);
    } else {
      assert s[..0] == "";
    }
  }

  lemma LastDigit(x: nat, d: nat, y: nat, e: nat)
    requires d < 10 && e < 10 && 10 * x + d == 10 * y + e
    ensures x == y && d == e
  {}

  lemma SameLastDigit(a: string, b: string)
    requires AllDigits(a) && AllDigits(b) && a != "" && b != "" && Value(a) == Value(b)
    ensures Value(a[..|a| - 1]) == Value(b[..|b| - 1]) && a[|a| - 1] == b[|b| - 1]
  {
    var x, y := a[|a| - 1], b[|b| - 1];
    LastDigit(Value(a[..|a| - 1]), DigitOf(x), Value(b[..|b| - 1]), DigitOf(y));
    assert DigitChar(DigitOf(x)) == x && DigitChar(DigitOf(y)) == y;
  }

  /** Digit strings of one width are equal when their values are. */
  lemma {:induction false} SameWidth(a: string, b: string)
    requires AllDigits(a) && AllDigits(b) && |a| == |b| && Value(a) == Value(b)
    ensures a == b
    decreases |a|
  {
    if a != "" {
      SameLastDigit(a, b);
      SameWidth(a[..|a| - 1], b[..|b| - 1]);
      SameEnds(a, b);
    }
  }

  lemma SameEnds(a: string, b: string)
    requires a != "" && b != "" && a[..|a| - 1] == b[..|b| - 1] && a[|a| - 1] == b[|b| - 1]
    ensures a == b
  {
    assert a == a[..|a| - 1] + [a[|a| - 1]] && b == b[..|b| - 1] + [b[|b| - 1]];
  }

  /** A number's text has at most `k` digits exactly when the number is below ten to the `k`. */
  lemma {:induction false} NatTextWidth(n: nat, k: nat)
    requires k > 0
    ensures |NatText(n)| <= k <==> n < Pow10(k)
  {
    if n < 10 {
      assert Pow10(k) == 10 * Pow10(k - 1);
    } else if k == 1 {
      assert Pow10(1) == 10;
    } else {
      NatTextWidth(n / 10, k - 1);
      assert Pow10(k) == 10 * Pow10(k - 1);
    }
  }

  /** Go's `%0<width>s` on a digit string, read as zero padding. */
  function PadZeros(s: string, width: nat): (r: string)
    ensures |r| == if |s| < width then width else |s|
  {
    if |s| < width then Zeros(width - |s|) + s else s
  }

  lemma PadZerosValue(s: string, width: nat)
    requires AllDigits(s)
    ensures AllDigits(PadZeros(s, width)) && Value(PadZeros(s, width)) == Value(s)
  {
    if |s| < width {
      ValueZeros(width - |s|);
      ShiftPositive(0, |s|);
      ValueConcat(Zeros(width - |s|), s);
    }
  }

  // ---- package strings ----------------------------------------------------------------

  /** `strings.TrimLeft(s, "0")`. */
  function TrimLeftZeros(s: string): string {
    if s != "" && s[0] == '0' then TrimLeftZeros(s[1..]) else s
  }

  /** `strings.TrimRight(s, "0")`. */
  function TrimRightZeros(s: string): string
    decreases |s|
  {
    if s != "" && s[|s| - 1] == '0' then TrimRightZeros(s[..|s| - 1]) else s
  }

  lemma {:induction false} TrimLeftZerosSplits(s: string)
    ensures |TrimLeftZeros(s)| <= |s|
    ensures s == Zeros(|s| - |TrimLeftZeros(s)|) + TrimLeftZeros(s)
    ensures TrimLeftZeros(s) != "" ==> TrimLeftZeros(s)[0] != '0'
  {
    if s != "" && s[0] == '0' {
      TrimLeftZerosSplits(s[1..]);
      var t := TrimLeftZeros(s);
      assert Zeros(|s| - |t|) == ['0'] + Zeros(|s| - 1 - |t|);
      assert s == ['0'] + s[1..];
    } else {
      assert Zeros(0) + s == s;
    }
  }

  lemma {:induction false} TrimRightZerosSplits(s: string)
    ensures |TrimRightZeros(s)| <= |s|
    ensures s == TrimRightZeros(s) + Zeros(|s| - |TrimRightZeros(s)|)
    ensures var t := TrimRightZeros(s); t != "" ==> t[|t| - 1] != '0'
    decreases |s|
  {
    if s != "" && s[|s| - 1] == '0' {
      TrimRightZerosSplits(s[..|s| - 1]);
      var t := TrimRightZeros(s);
      assert Zeros(|s| - |t|) == Zeros(|s| - 1 - |t|) + ['0'];
      assert s == s[..|s| - 1] + ['0'];
    } else {
      assert s + Zeros(0) == s;
    }
  }

  /** The ASCII white space `strings.TrimSpace` removes. */
  predicate IsSpace(c: char) {
    c == ' ' || 9 <= c as int <= 13
  }

  function TrimSpaceLeft(s: string): string {
    if s != "" && IsSpace(s[0]) then TrimSpaceLeft(s[1..]) else s
  }

  function TrimSpaceRight(s: string): string
    decreases |s|
  {
    if s != "" && IsSpace(s[|s| - 1]) then TrimSpaceRight(s[..|s| - 1]) else s
  }

  /** `strings.TrimSpace`. */
  function TrimSpace(s: string): string {
    TrimSpaceRight(TrimSpaceLeft(s))
  }

  predicate Trimmed(s: string) {
    s != "" ==> !IsSpace(s[0]) && !IsSpace(s[|s| - 1])
  }

  lemma {:induction false} TrimSpaceRightEnds(s: string)
    ensures TrimSpaceRight(s) <= s
    ensures var t := TrimSpaceRight(s); t != "" ==> !IsSpace(t[|t| - 1])
    decreases |s|
  {
    if s != "" && IsSpace(s[|s| - 1]) {
      TrimSpaceRightEnds(s[..|s| - 1]);
    }
  }

  lemma {:induction false} TrimSpaceLeftEnds(s: string)
    ensures var t := TrimSpaceLeft(s); t != "" ==> !IsSpace(t[0])
  {
    if s != "" && IsSpace(s[0]) {
      TrimSpaceLeftEnds(s[1..]);
    }
  }

  lemma TrimSpaceTrims(s: string)
    ensures Trimmed(TrimSpace(s))
  {
    TrimSpaceLeftEnds(s);
    TrimSpaceRightEnds(TrimSpaceLeft(s));
  }

  /** Tab, line feed, vertical tab, form feed, carriage return or blank. */
  predicate IsBlank(c: char) {
    var n := c as int;
    n == 9 || n == 10 || n == 11 || n == 12 || n == 13 || n == 32
  }

  lemma {:induction false} TrimRightCuts(s: string) returns (tail: string)
    ensures s == TrimSpaceRight(s) + tail && forall i | 0 <= i < |tail| :: IsBlank(tail[i])
    decreases |s|
  {
    tail := "";
    if s != "" && IsSpace(s[|s| - 1]) {
      tail := TrimRightCuts(s[..|s| - 1]);
      tail := tail + [s[|s| - 1]];
    }
  }

  lemma {:induction false} TrimLeftCuts(s: string) returns (lead: string)
    ensures s == lead + TrimSpaceLeft(s) && forall i | 0 <= i < |lead| :: IsBlank(lead[i])
  {
    lead := "";
    if s != "" && IsSpace(s[0]) {
      lead := TrimLeftCuts(s[1..]);
      lead := [s[0]] + lead;
    }
  }

  /** What is cut off are blanks, and neither end of what is left is one. */
  lemma TrimSpaceCuts(s: string) returns (lead: string, tail: string)
    ensures s == lead + TrimSpace(s) + tail
    ensures (forall i | 0 <= i < |lead| :: IsBlank(lead[i])) && (forall i | 0 <= i < |tail| :: IsBlank(tail[i]))
    ensures var t := TrimSpace(s); t != "" ==> !IsBlank(t[0]) && !IsBlank(t[|t| - 1])
  {
    lead := TrimLeftCuts(s);
    tail := TrimRightCuts(TrimSpaceLeft(s));
    TrimSpaceTrims(s);
  }

  lemma TrimSpaceKeeps(s: string)
    requires Trimmed(s)
    ensures TrimSpace(s) == s
  {}

  /** `strings.IndexByte`: the first place `c` stands, or the length when it stands nowhere. */
  function IndexOf(s: string, c: char): (i: nat)
    ensures i <= |s|
    ensures i < |s| ==> s[i] == c
    ensures forall j | 0 <= j < i :: s[j] != c
  {
    if s == "" || s[0] == c then 0 else 1 + IndexOf(s[1..], c)
  }

  lemma IndexOfIs(s: string, c: char, i: nat)
    requires i < |s| && s[i] == c && forall j | 0 <= j < i :: s[j] != c
    ensures IndexOf(s, c) == i
  {}

  /** `strings.Split` at a separator of one byte. */
  function Split(s: string, sep: char): (r: seq<string>)
    ensures r != []
    decreases |s|
  {
    var i := IndexOf(s, sep);
    if i == |s| then [s] else [s[..i]] + Split(s[i + 1..], sep)
  }

  lemma SplitHead(head: string, tail: string, sep: char)
    requires sep !in head
    ensures Split(head + [sep] + tail, sep) == [head] + Split(tail, sep)
    ensures Split(head, sep) == [head]
  {
    var s := head + [sep] + tail;
    IndexOfIs(s, sep, |head|);
    assert s[..|head|] == head && s[|head| + 1..] == tail;
  }

  lemma Assoc<T>(a: seq<T>, b: seq<T>, c: seq<T>)
    ensures (a + b) + c == a + (b + c)
  {}

  lemma CutAtSep(a: string, sep: char) returns (head: string, tail: string)
    requires IndexOf(a, sep) < |a|
    ensures a == head + [sep] + tail && sep !in head && |tail| < |a|
  {
    var i := IndexOf(a, sep);
    head, tail := a[..i], a[i + 1..];
  }

  lemma Regroup(head: string, tail: string, b: string, sep: char)
    ensures head + [sep] + tail + [sep] + b == head + [sep] + (tail + [sep] + b)
  {}

  /** Splitting around a separator splits both sides. */
  lemma {:induction false} SplitConcat(a: string, b: string, sep: char)
    ensures Split(a + [sep] + b, sep) == Split(a, sep) + Split(b, sep)
    decreases |a|
  {
    if IndexOf(a, sep) == |a| {
      SplitHead(a, b, sep);
    } else {
      var head, tail := CutAtSep(a, sep);
      SplitConcat(tail, b, sep);
      SplitHead(head, tail, sep);
      SplitHead(head, tail + [sep] + b, sep);
      Regroup(head, tail, b, sep);
      Assoc([head], Split(tail, sep), Split(b, sep));
    }
  }

  predicate HasPrefix(s: string, p: string) {
    p <= s
  }

  predicate HasSuffix(s: string, p: string) {
    |p| <= |s| && s[|s| - |p|..] == p
  }

  /** `strings.TrimSuffix`. */
  function TrimSuffix(s: string, p: string): string {
    if HasSuffix(s, p) then s[..|s| - |p|] else s
  }

  // ---- package math/big ---------------------------------------------------------------

  predicate IsSign(c: char) {
    c == '-' || c == '+'
  }

  /** `new(big.Int).SetString(s, 10)`: an optional sign, then one digit or more, and nothing else. */
  function SetString(s: string): Option<int> {
    if s != "" && IsSign(s[0]) then
      var digits := s[1..];
      if digits == "" || !AllDigits(digits) then None
      else
        var magnitude: int := Value(digits);
        Some(if s[0] == '-' then -magnitude else magnitude)
    else if s != "" && AllDigits(s) then Some(Value(s)) else None
  }
}
