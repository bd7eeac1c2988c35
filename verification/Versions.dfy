/**
 The order on release tags that decides whether an upgrade is offered.
 */
module Versions {
  import opened Text
  import opened Ordering

  const MAX_INT: int := 0x7fff_ffff_ffff_ffff

  /** `strconv.Atoi` on a 64-bit platform: out of range is an error like any other. */
  function Atoi(s: string): Option<int> {
    var n := SetString(s);
    if n.Some? && -MAX_INT - 1 <= n.value <= MAX_INT then n else None
  }

  /** `strings.IndexAny(s, "-+")`, or the length when there is neither. */
  function SuffixAt(s: string): (i: nat)
    ensures i <= |s| && (i < |s| ==> IsSign(s[i])) && forall j | 0 <= j < i :: !IsSign(s[j])
  {
    if s == "" || IsSign(s[0]) then 0 else 1 + SuffixAt(s[1..])
  }

  /** A field that does not parse counts as zero. */
  function Number(field: string): int {
    if Atoi(field).Some? then Atoi(field).value else 0
  }

  function Numbers(fields: seq<string>): (r: seq<int>)
    ensures |r| == |fields|
  {
    seq(|fields|, i requires 0 <= i < |fields| => Number(fields[i]))
  }

  /** The tag without surrounding space and without one leading "v". */
  function Bare(v: string): string {
    var t := TrimSpace(v);
    if HasPrefix(t, "v") then t[1..] else t
  }

  function Core(v: string): string {
    Bare(v)[..SuffixAt(Bare(v))]
  }

  /** What follows the first '-' or '+'. */
  function Pre(v: string): string {
    var t := Bare(v);
    if SuffixAt(t) < |t| then t[SuffixAt(t) + 1..] else ""
  }

  function Nums(v: string): seq<int> {
    Numbers(Split(Core(v), '.'))
  }

  method ParseFields(fields: seq<string>) returns (nums: seq<int>)
    ensures nums == Numbers(fields)
  {
    nums := [];
    for k := 0 to |fields|
      invariant |nums| == k && forall j | 0 <= j < k :: nums[j] == Number(fields[j])
    {
      var n := Atoi(fields[k]);
      nums := nums + [if n.None? then 0 else n.value];
    }
  }

  method SplitVersion(v: string) returns (nums: seq<int>, pre: string)
    ensures nums == Nums(v) && pre == Pre(v)
  {
    var t := TrimSpace(v);
    if HasPrefix(t, "v") {
      t := t[1..];
    }
    pre := "";
    var i := SuffixAt(t);
    if i < |t| {
      pre := t[i + 1..];
      t := t[..i];
    } else {
      assert t[..i] == t;
    }
    nums := ParseFields(Split(t, '.'));
  }

  // ---- Comparing ----------------------------------------------------------------------

  /** A missing field counts as zero. */
  function At(nums: seq<int>, i: nat): int {
    if i < |nums| then nums[i] else 0
  }

  function CompareFrom(a: seq<int>, b: seq<int>, i: nat, n: nat): int
    decreases n - i
  {
    if i >= n then 0
    else if At(a, i) < At(b, i) then -1
    else if At(a, i) > At(b, i) then 1
    else CompareFrom(a, b, i + 1, n)
  }

  function Longer(a: seq<int>, b: seq<int>): nat {
    if |b| > |a| then |b| else |a|
  }

  method CompareNumericFields(a: seq<int>, b: seq<int>) returns (r: int)
    ensures r == CompareFrom(a, b, 0, Longer(a, b))
  {
    var n := |a|;
    if |b| > n {
      n := |b|;
    }
    for i := 0 to n
      invariant CompareFrom(a, b, i, n) == CompareFrom(a, b, 0, n)
    {
      var av, bv := 0, 0;
      if i < |a| {
        av := a[i];
      }
      if i < |b| {
        bv := b[i];
      }
      if av < bv {
        return -1;
      }
      if av > bv {
        return 1;
      }
    }
    r := 0;
  }

  function ComparePre(a: string, b: string): int {
    if a == "" && b == "" then 0 else if a == "" then 1 else if b == "" then -1 else Compare(a, b)
  }

  function CompareVersions(a: string, b: string): int {
    var r := CompareFrom(Nums(a), Nums(b), 0, Longer(Nums(a), Nums(b)));
    if r != 0 then r else ComparePre(Pre(a), Pre(b))
  }

  /** compareVersions, as the program runs it. */
  method CompareTags(a: string, b: string) returns (r: int)
    ensures r == CompareVersions(a, b)
  {
    var an, apre := SplitVersion(a);
    var bn, bpre := SplitVersion(b);
    r := CompareNumericFields(an, bn);
    if r == 0 {
      r := ComparePre(apre, bpre);
    }
  }

  // ---- A total preorder ---------------------------------------------------------------

  lemma {:induction false} PastTheEnd(a: seq<int>, b: seq<int>, i: nat, n: nat)
    requires i >= |a| && i >= |b|
    ensures CompareFrom(a, b, i, n) == 0
    decreases n - i
  {
    if i < n {
      PastTheEnd(a, b, i + 1, n);
    }
  }

  /** How far the comparison goes does not matter once both lists are used up. */
  lemma {:induction false} EnoughFields(a: seq<int>, b: seq<int>, i: nat, m: nat, n: nat)
    requires Longer(a, b) <= m && Longer(a, b) <= n
    ensures CompareFrom(a, b, i, m) == CompareFrom(a, b, i, n)
    decreases m - i
  {
    if i >= m || i >= n {
      PastTheEnd(a, b, i, m);
      PastTheEnd(a, b, i, n);
    } else {
      EnoughFields(a, b, i + 1, m, n);
    }
  }

  lemma {:induction false} FieldsAreOrdered(a: seq<int>, b: seq<int>, c: seq<int>, i: nat, n: nat)
    ensures CompareFrom(a, a, i, n) == 0 && CompareFrom(b, a, i, n) == -CompareFrom(a, b, i, n)
    ensures CompareFrom(a, b, i, n) <= 0 && CompareFrom(b, c, i, n) <= 0 ==>
              && CompareFrom(a, c, i, n) <= 0
              && (CompareFrom(a, b, i, n) < 0 || CompareFrom(b, c, i, n) < 0 ==> CompareFrom(a, c, i, n) < 0)
    decreases n - i
  {
    if i < n {
      FieldsAreOrdered(a, b, c, i + 1, n);
    }
  }

  lemma SuffixesAreOrdered(a: string, b: string, c: string)
    ensures ComparePre(a, a) == 0 && ComparePre(b, a) == -ComparePre(a, b)
    ensures ComparePre(a, b) <= 0 && ComparePre(b, c) <= 0 ==>
              && ComparePre(a, c) <= 0
              && (ComparePre(a, b) < 0 || ComparePre(b, c) < 0 ==> ComparePre(a, c) < 0)
  {
    CompareZero(a, a);
    CompareIsAntisymmetric(a, b);
    if Compare(a, b) <= 0 && Compare(b, c) <= 0 {
      CompareIsTransitive(a, b, c);
    }
  }

  /** The comparison of versions in terms of any long enough number of fields. */
  lemma InFields(a: string, b: string, n: nat)
    requires |Nums(a)| <= n && |Nums(b)| <= n
    ensures CompareVersions(a, b) ==
              var r := CompareFrom(Nums(a), Nums(b), 0, n); if r != 0 then r else ComparePre(Pre(a), Pre(b))
  {
    EnoughFields(Nums(a), Nums(b), 0, Longer(Nums(a), Nums(b)), n);
  }

  /** On all strings: reflexive, antisymmetric in sign, and transitive, strictly so when either step is strict. */
  lemma IsTotalPreorder(a: string, b: string, c: string)
    ensures CompareVersions(a, a) == 0 && CompareVersions(b, a) == -CompareVersions(a, b)
    ensures CompareVersions(a, b) <= 0 && CompareVersions(b, c) <= 0 ==>
              && CompareVersions(a, c) <= 0
              && (CompareVersions(a, b) < 0 || CompareVersions(b, c) < 0 ==> CompareVersions(a, c) < 0)
  {
    var n := |Nums(a)| + |Nums(b)| + |Nums(c)|;
    InFields(a, a, n);
    InFields(a, b, n);
    InFields(b, a, n);
    InFields(b, c, n);
    InFields(a, c, n);
    FieldsAreOrdered(Nums(a), Nums(b), Nums(c), 0, n);
    FieldsAreOrdered(Nums(b), Nums(c), Nums(a), 0, n);
    SuffixesAreOrdered(Pre(a), Pre(b), Pre(c));
  }

  /** Versions that compare equal compare alike with every other. */
  lemma EqualIsCongruent(a: string, b: string, c: string)
    requires CompareVersions(a, b) == 0
    ensures CompareVersions(a, c) == CompareVersions(b, c) && CompareVersions(c, a) == CompareVersions(c, b)
  {
    IsTotalPreorder(a, b, c);
    IsTotalPreorder(b, a, c);
    IsTotalPreorder(a, c, b);
    IsTotalPreorder(b, c, a);
    IsTotalPreorder(c, a, b);
    CompareIsSign(a, c);
    CompareIsSign(b, c);
  }

  lemma {:induction false} FieldsGiveSign(a: seq<int>, b: seq<int>, i: nat, n: nat)
    ensures -1 <= CompareFrom(a, b, i, n) <= 1
    decreases n - i
  {
    if i < n {
      FieldsGiveSign(a, b, i + 1, n);
    }
  }

  lemma CompareIsSign(a: string, b: string)
    ensures -1 <= CompareVersions(a, b) <= 1
  {
    FieldsGiveSign(Nums(a), Nums(b), 0, Longer(Nums(a), Nums(b)));
  }

  // ---- Reading tags -------------------------------------------------------------------

  /** Tags with the same numbers up to trailing zeros and the same suffix compare equal, and only those. */
  lemma EqualIff(a: string, b: string)
    ensures CompareVersions(a, b) == 0 <==> Pre(a) == Pre(b) && forall i: nat :: At(Nums(a), i) == At(Nums(b), i)
  {
    var n := Longer(Nums(a), Nums(b));
    SameFields(Nums(a), Nums(b), 0, n);
    CompareZero(Pre(a), Pre(b));
  }

  lemma {:induction false} SameFields(a: seq<int>, b: seq<int>, i: nat, n: nat)
    ensures CompareFrom(a, b, i, n) == 0 <==> forall j | i <= j < n :: At(a, j) == At(b, j)
    decreases n - i
  {
    if i < n {
      SameFields(a, b, i + 1, n);
    }
  }

  lemma StartsWithV(t: string)
    ensures HasPrefix(t, "v") <==> t != "" && t[0] == 'v'
  {
    assert t != "" ==> t[..1] == [t[0]];
  }

  lemma LeadingVIsDropped(s: string)
    requires s != "" ==> s[0] != 'v' && !IsSpace(s[0])
    ensures Bare("v" + s) == Bare(s)
  {
    var t := "v" + s;
    assert !IsSpace(t[0]) && TrimSpaceLeft(t) == t && TrimSpaceLeft(s) == s;
    TrimRightBehind('v', s);
    TrimSpaceRightEnds(s);
    assert TrimSpace(t) == "v" + TrimSpace(s);
    assert ("v" + TrimSpace(s))[1..] == TrimSpace(s);
    StartsWithV(TrimSpace(s));
    StartsWithV(TrimSpace(t));
  }

  /** A leading "v" makes no difference, unless what follows it is another "v" or a space. */
  lemma LeadingV(s: string)
    requires s != "" ==> s[0] != 'v' && !IsSpace(s[0])
    ensures CompareVersions("v" + s, s) == 0
  {
    LeadingVIsDropped(s);
    EqualIff("v" + s, s);
  }

  lemma {:induction false} TrimRightBehind(c: char, s: string)
    requires !IsSpace(c)
    ensures TrimSpaceRight([c] + s) == [c] + TrimSpaceRight(s)
    decreases |s|
  {
    var t := [c] + s;
    if s == "" {
      assert t[|t| - 1] == c;
    } else {
      assert t[|t| - 1] == s[|s| - 1] && t[..|t| - 1] == [c] + s[..|s| - 1];
      TrimRightBehind(c, s[..|s| - 1]);
    }
  }

  /** A core: what stands before a suffix; no sign in it, no space around it, and no "v" in front. */
  predicate IsCore(c: string) {
    Trimmed(c) && (forall i | 0 <= i < |c| :: !IsSign(c[i])) && (c != "" ==> c[0] != 'v')
  }

  /** A suffix with the sign in front of it, or nothing. */
  predicate IsSuffix(s: string) {
    s != "" ==> IsSign(s[0]) && !IsSpace(s[|s| - 1])
  }

  lemma {:induction false} SuffixBehind(c: string, s: string)
    requires (forall i | 0 <= i < |c| :: !IsSign(c[i])) && (s != "" ==> IsSign(s[0]))
    ensures SuffixAt(c + s) == |c|
  {
    if c == "" {
      assert c + s == s;
    } else {
      assert (c + s)[1..] == c[1..] + s;
      SuffixBehind(c[1..], s);
    }
  }

  /** How a tag made of a core and a suffix is split. */
  lemma TagParts(c: string, s: string)
    requires IsCore(c) && IsSuffix(s)
    ensures Core(c + s) == c && Pre(c + s) == if s == "" then "" else s[1..]
  {
    var t := c + s;
    assert t != "" ==>
           t[0] == (if c == "" then s[0] else c[0]) && t[|t| - 1] == (if s == "" then c[|c| - 1] else s[|s| - 1]);
    TrimSpaceKeeps(t);
    StartsWithV(t);
    SuffixBehind(c, s);
    assert t[..|c|] == c && (s != "" ==> t[|c| + 1..] == s[1..]);
  }

  lemma CoreGoesOn(c: string, f: string)
    requires IsCore(c) && AllDigits(f) && f != ""
    ensures IsCore(c + "." + f)
  {
    var t := c + "." + f;
    assert t[|t| - 1] == f[|f| - 1] && t[0] == if c == "" then '.' else c[0];
    forall i | 0 <= i < |t| ensures !IsSign(t[i]) {
      if i > |c| {
        assert t[i] == f[i - |c| - 1];
      }
    }
  }

  lemma ZeroField(zero: string)
    requires zero != "" && AllDigits(zero) && Value(zero) == 0
    ensures Number(zero) == 0
  {
    assert SetString(zero) == Some(0);
  }

  /** Trailing zero fields make no difference, whatever the suffix. */
  lemma TrailingZeros(c: string, s: string, zero: string)
    requires IsCore(c) && IsSuffix(s) && zero != "" && AllDigits(zero) && Value(zero) == 0
    ensures CompareVersions(c + "." + zero + s, c + s) == 0
  {
    var longer := c + "." + zero;
    CoreGoesOn(c, zero);
    TagParts(longer, s);
    TagParts(c, s);
    NoDotInDigits(zero);
    SplitConcat(c, zero, '.');
    assert Split(zero, '.') == [zero];
    ZeroField(zero);
    SameUpToZero(Split(c, '.'), zero);
    EqualIff(longer + s, c + s);
  }

  lemma SameUpToZero(fields: seq<string>, zero: string)
    requires Number(zero) == 0
    ensures forall i: nat :: At(Numbers(fields + [zero]), i) == At(Numbers(fields), i)
  {
  }

  lemma {:induction false} NoDotInDigits(s: string)
    requires AllDigits(s)
    ensures IndexOf(s, '.') == |s|
  {
  }

  /** A tag with a suffix is below the same core without one, unless nothing follows the sign. */
  lemma SuffixedIsLower(c: string, s: string)
    requires IsCore(c) && IsSuffix(s) && s != ""
    ensures CompareVersions(c + s, c) == if |s| == 1 then 0 else -1
  {
    assert c + "" == c;
    TagParts(c, s);
    TagParts(c, "");
    SameFields(Nums(c + s), Nums(c), 0, Longer(Nums(c + s), Nums(c)));
  }

  /** Of two suffixes behind one core the smaller text is the lower version. */
  lemma SmallerSuffixIsLower(c: string, s: string, t: string)
    requires IsCore(c) && IsSuffix(s) && IsSuffix(t) && |s| > 1 && |t| > 1
    ensures CompareVersions(c + s, c + t) == -1 <==> exists k: nat :: LessAt(s[1..], t[1..], k)
    ensures CompareVersions(c + s, c + t) == 0 <==> s[1..] == t[1..]
  {
    TagParts(c, s);
    TagParts(c, t);
    LessIff(s[1..], t[1..]);
    CompareZero(s[1..], t[1..]);
    SameFields(Nums(c + s), Nums(c + t), 0, Longer(Nums(c + s), Nums(c + t)));
  }

  /** The usual text of a release: numbers with points between them. */
  function Dotted(numbers: seq<nat>): string
    requires numbers != []
  {
    var n := |numbers| - 1;
    if n == 0 then NatText(numbers[0]) else Dotted(numbers[..n]) + "." + NatText(numbers[n])
  }

  lemma NumberOf(n: nat)
    requires n <= MAX_INT
    ensures Number(NatText(n)) == n && Split(NatText(n), '.') == [NatText(n)]
  {
    NatTextValue(n);
    NoDotInDigits(NatText(n));
    assert SetString(NatText(n)) == Some(n);
  }

  lemma DigitsAreCore(f: string)
    requires AllDigits(f) && f != ""
    ensures IsCore(f)
  {}

  lemma OneMoreNumber(c: string, numbers: seq<int>, n: nat)
    requires IsCore(c) && Numbers(Split(c, '.')) == numbers && n <= MAX_INT
    ensures IsCore(c + "." + NatText(n)) && Numbers(Split(c + "." + NatText(n), '.')) == numbers + [n]
  {
    NumberOf(n);
    CoreGoesOn(c, NatText(n));
    SplitConcat(c, NatText(n), '.');
    NumbersConcat(Split(c, '.'), [NatText(n)]);
  }

  lemma NumbersConcat(a: seq<string>, b: seq<string>)
    ensures Numbers(a + b) == Numbers(a) + Numbers(b)
  {}

  lemma {:induction false} DottedParts(numbers: seq<nat>)
    requires numbers != [] && forall i | 0 <= i < |numbers| :: numbers[i] <= MAX_INT
    ensures IsCore(Dotted(numbers)) && Numbers(Split(Dotted(numbers), '.')) == numbers
  {
    var n := |numbers| - 1;
    if n == 0 {
      NumberOf(numbers[0]);
      DigitsAreCore(NatText(numbers[0]));
    } else {
      DottedParts(numbers[..n]);
      OneMoreNumber(Dotted(numbers[..n]), numbers[..n], numbers[n]);
      assert numbers == numbers[..n] + [numbers[n]];
    }
  }

  /** A release is read back number by number, whatever the suffix. */
  lemma ReadsDotted(numbers: seq<nat>, s: string)
    requires numbers != [] && (forall i | 0 <= i < |numbers| :: numbers[i] <= MAX_INT) && IsSuffix(s)
    ensures Nums(Dotted(numbers) + s) == numbers
  {
    DottedParts(numbers);
    TagParts(Dotted(numbers), s);
  }

  /** So releases are ordered by the first number in which they differ. */
  lemma ReleasesInOrder(a: seq<nat>, b: seq<nat>, s: string, t: string, k: nat)
    requires a != [] && b != [] && IsSuffix(s) && IsSuffix(t)
    requires (forall i | 0 <= i < |a| :: a[i] <= MAX_INT) && (forall i | 0 <= i < |b| :: b[i] <= MAX_INT)
    requires k < |a| && k < |b| && a[..k] == b[..k] && a[k] < b[k]
    ensures CompareVersions(Dotted(a) + s, Dotted(b) + t) == -1
  {
    ReadsDotted(a, s);
    ReadsDotted(b, t);
    assert forall i | 0 <= i < k :: a[i] == a[..k][i] == b[..k][i] == b[i];
    LowerFieldDecides(Dotted(a) + s, Dotted(b) + t, k);
  }

  /** Numbers in the fields are what is compared first, before any suffix. */
  lemma LowerFieldDecides(a: string, b: string, k: nat)
    requires forall i | 0 <= i < k :: At(Nums(a), i) == At(Nums(b), i)
    requires At(Nums(a), k) < At(Nums(b), k)
    ensures CompareVersions(a, b) == -1
  {
    var n := Longer(Nums(a), Nums(b)) + k + 1;
    InFields(a, b, n);
    FirstDifference(Nums(a), Nums(b), 0, k, n);
  }

  lemma {:induction false} FirstDifference(a: seq<int>, b: seq<int>, i: nat, k: nat, n: nat)
    requires i <= k < n && (forall j | i <= j < k :: At(a, j) == At(b, j)) && At(a, k) < At(b, k)
    ensures CompareFrom(a, b, i, n) == -1
    decreases k - i
  {
    if i < k {
      FirstDifference(a, b, i + 1, k, n);
    }
  }

  /** No field of the tag's core is a number. */
  predicate IsNamed(v: string) {
    forall f | f in Split(Core(v), '.') :: Atoi(f) == None
  }

  /** Tags without a number are not compared as strings: only what follows the first sign counts. */
  lemma NamesCompareEqual(a: string, b: string)
    requires IsNamed(a) && IsNamed(b)
    ensures CompareVersions(a, b) == ComparePre(Pre(a), Pre(b))
    ensures IsCore(a) && IsCore(b) ==> CompareVersions(a, b) == 0
  {
    ZerosOnly(Split(Core(a), '.'));
    ZerosOnly(Split(Core(b), '.'));
    SameFields(Nums(a), Nums(b), 0, Longer(Nums(a), Nums(b)));
    if IsCore(a) && IsCore(b) {
      assert a + "" == a && b + "" == b;
      TagParts(a, "");
      TagParts(b, "");
    }
  }

  lemma ZerosOnly(fields: seq<string>)
    requires forall f | f in fields :: Atoi(f) == None
    ensures forall i: nat :: At(Numbers(fields), i) == 0
  {
    assert forall i | 0 <= i < |fields| :: fields[i] in fields;
  }

  lemma OneName(a: string)
    requires IsCore(a) && '.' !in a && a != "" && !IsDigit(a[0])
    ensures IsNamed(a)
  {
    assert a + "" == a;
    TagParts(a, "");
    assert Split(a, '.') == [a];
    assert a[0] in a && !IsSign(a[0]);
  }

  lemma NightlyEqualsBeta()
    ensures CompareVersions("nightly", "beta") == 0 && Compare("nightly", "beta") != 0
  {
    var a, b := "nightly", "beta";
    OneName(a);
    OneName(b);
    NamesCompareEqual(a, b);
    CompareZero(a, b);
  }
}
