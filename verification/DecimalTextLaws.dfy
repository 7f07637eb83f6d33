/** Reading back what was printed is exact, and reading any plain decimal rounds by less than one unit. */
module DecimalTextLaws {
  import opened Types
  import opened Decimal
  import opened DecimalText

  // ---------- Digits ----------

  lemma {:induction false} ValueConcat(a: string, b: string)
    ensures Value(a + b) == Value(a) * Pow10(|b|) + Value(b)
  {
    if b == "" {
      assert a + b == a;
    } else {
      var c := b[..|b| - 1];
      assert (a + b)[..|a + b| - 1] == a + c;
      ValueConcat(a, c);
      assert Value(a) * Pow10(|b|) == Value(a) * Pow10(|c|) * 10;
    }
  }

  lemma {:induction false} ValueOfNat(n: nat)
    ensures Value(NatToString(n)) == n
  {
    if n < 10 {
      assert NatToString(n)[..0] == "";
    } else {
      ValueOfNat(n / 10);
      assert NatToString(n)[..|NatToString(n)| - 1] == NatToString(n / 10);
    }
  }

  lemma LastDigit(n: nat, p: int)
    requires n < 10 * p
    ensures n / 10 < p && n == n / 10 * 10 + n % 10
  {
  }

  lemma ValueAppend(s: string, d: nat)
    requires d < 10
    ensures Value(s + [DigitChar(d)]) == Value(s) * 10 + d
  {
    assert (s + [DigitChar(d)])[..|s|] == s;
  }

  lemma {:induction false} ValueOfPadded(n: nat, k: nat)
    requires n < Pow10(k)
    ensures Value(Padded(n, k)) == n
  {
    hide Value;
    if k == 0 {
      NoDigits();
    } else {
      LastDigit(n, Pow10(k - 1));
      hide Pow10;
      ValueOfPadded(n / 10, k - 1);
      ValueAppend(Padded(n / 10, k - 1), n % 10);
    }
  }

  lemma NoDigits()
    ensures Value("") == 0
  {
  }

  lemma {:induction false} ValueBounds(s: string)
    requires AllDigits(s)
    ensures 0 <= Value(s) < Pow10(|s|)
  {
    if s != "" {
      ValueBounds(s[..|s| - 1]);
    }
  }

  /** Trailing zeros carry no value. */
  lemma {:induction false} ValueOfTrimmed(s: string)
    ensures Value(s) == Value(TrimZeros(s)) * Pow10(|s| - |TrimZeros(s)|)
  {
    if s != "" && s[|s| - 1] == '0' {
      var t, n := s[..|s| - 1], |s| - |TrimZeros(s)|;
      ValueOfTrimmed(t);
      assert Value(TrimZeros(s)) * Pow10(n) == Value(TrimZeros(s)) * Pow10(n - 1) * 10;
    } else {
      assert Pow10(0) == 1;
    }
  }

  lemma {:induction false} Pow10Add(a: nat, b: nat)
    ensures Pow10(a + b) == Pow10(a) * Pow10(b)
  {
    if a > 0 {
      Pow10Add(a - 1, b);
      assert 10 * (Pow10(a - 1) * Pow10(b)) == (10 * Pow10(a - 1)) * Pow10(b);
    }
  }

  lemma Pow10IsScale()
    ensures Pow10(PRECISION) == SCALE
  {
    assert Pow10(6) == 1_000_000;
    Pow10Add(6, 6);
    Pow10Add(6, 12);
  }

  // ---------- Plain text ----------

  lemma {:induction false} FindDotIn(a: string, b: string)
    requires AllDigits(a)
    ensures FindDot(a) == |a|
    ensures FindDot(a + "." + b) == |a|
  {
    if a == "" {
      assert ("" + "." + b)[0] == '.';
    } else {
      assert (a + "." + b)[1..] == a[1..] + "." + b;
      assert (a + "." + b)[0] == a[0];
      FindDotIn(a[1..], b);
    }
  }

  lemma TrimNothing(s: string)
    requires s != "" && !IsSpace(s[0]) && !IsSpace(s[|s| - 1])
    ensures TrimSpace(s) == s
  {
  }

  lemma ReadDigits(s: string)
    requires s != "" && AllDigits(s)
    ensures SetString(s) == Some(Value(s))
  {
  }

  /** A whole number without a sign. */
  lemma ReadWhole(i: string)
    requires i != "" && AllDigits(i)
    ensures ParseMagnitude(i) == Some(Value(i) * SCALE)
  {
    FindDotIn(i, "");
    assert i[..|i|] == i;
    ReadDigits(i);
  }

  /** A number with a fraction, without a sign: what is read depends on the kept fraction only. */
  lemma ReadFraction(i: string, f: string)
    requires i != "" && AllDigits(i) && f != "" && AllDigits(f)
    ensures |KeptFraction(f)| <= PRECISION
    ensures ParseMagnitude(i + "." + f) ==
      match FractionValue(KeptFraction(f))
      case None => None
      case Some(v) => Some(Value(i) * SCALE + v)
  {
    var s := i + "." + f;
    hide Value;
    hide FindDot;
    hide FractionValue;
    FindDotIn(i, f);
    FindDotIn(f, "");
    assert s[..|i|] == i && s[|i| + 1..] == f;
    ReadDigits(i);
  }

  // ---------- Round trip ----------

  /** The trimmed fraction, scaled up again, is the fraction. */
  lemma FractionRoundTrip(f: nat)
    requires f < SCALE
    ensures var frac := TrimZeros(Padded(f, PRECISION));
      && |frac| <= PRECISION && AllDigits(frac)
      && (if frac == "" then f == 0 else FractionValue(frac) == Some(f))
  {
    var frac := TrimZeros(Padded(f, PRECISION));
    Pow10IsScale();
    ValueOfPadded(f, PRECISION);
    ValueOfTrimmed(Padded(f, PRECISION));
    if frac != "" {
      ReadDigits(frac);
    }
  }

  lemma JoinRoundTrip(i: nat, f: nat, frac: string)
    requires |frac| <= PRECISION && AllDigits(frac)
    requires if frac == "" then f == 0 else FractionValue(frac) == Some(f)
    ensures var s := Join(i, frac);
      s != "" && IsDigit(s[0]) && IsDigit(s[|s| - 1]) && ParseMagnitude(s) == Some(i * SCALE + f)
  {
    hide Value;
    hide ParseMagnitude;
    hide FractionValue;
    hide NatToString;
    ValueOfNat(i);
    if frac == "" {
      ReadWhole(NatToString(i));
    } else {
      ReadFraction(NatToString(i), frac);
    }
  }

  lemma MagnitudeRoundTrip(i: nat, f: nat)
    requires f < SCALE
    ensures var s := Join(i, TrimZeros(Padded(f, PRECISION)));
      s != "" && IsDigit(s[0]) && IsDigit(s[|s| - 1]) && ParseMagnitude(s) == Some(i * SCALE + f)
  {
    hide *;
    FractionRoundTrip(f);
    JoinRoundTrip(i, f, TrimZeros(Padded(f, PRECISION)));
  }

  /**
   The printed form: whole part and trimmed fraction of the magnitude, behind a minus exactly for negative numbers.
   */
  lemma PrintParts(d: int) returns (i: nat, f: nat, frac: string)
    ensures f < SCALE && frac == TrimZeros(Padded(f, PRECISION))
    ensures d == if d < 0 then -(i * SCALE + f) else i * SCALE + f
    ensures Print(d) == if d < 0 then "-" + Join(i, frac) else Join(i, frac)
  {
    i, f := Abs(d) / SCALE, Abs(d) % SCALE;
    frac := TrimZeros(Padded(f, PRECISION));
    FractionRoundTrip(f);
    hide TrimZeros;
    hide Padded;
    hide Join;
    assert Abs(d) == i * SCALE + f;
  }

  /** Reading a printed number gives the number back, whatever its sign and size. */
  lemma RoundTrip(d: int)
    ensures Parse(Print(d)) == Some(d)
  {
    hide *;
    var i, f, frac := PrintParts(d);
    MagnitudeRoundTrip(i, f);
    ReadSigned(Join(i, frac), i * SCALE + f, d < 0);
  }

  /** A leading minus negates; nothing is trimmed from text that starts and ends with a digit. */
  lemma ReadSigned(s: string, v: int, minus: bool)
    requires s != "" && IsDigit(s[0]) && IsDigit(s[|s| - 1])
    requires ParseMagnitude(s) == Some(v)
    ensures Parse(if minus then "-" + s else s) == Some(if minus then -v else v)
  {
    hide ParseMagnitude;
    if minus {
      assert ("-" + s)[1..] == s;
      TrimNothing("-" + s);
    } else {
      TrimNothing(s);
    }
  }

  /** Digits without superfluous zeros: no leading one before another digit, and no trailing one in the fraction. */
  predicate CanonicalMagnitude(t: string) {
    var n := FindDot(t);
    && n > 0 && AllDigits(t[..n]) && (t[0] == '0' ==> n == 1)
    && (n < |t| ==> n + 1 < |t| <= n + 1 + PRECISION && AllDigits(t[n + 1..]) && t[|t| - 1] != '0')
  }

  /** The same behind an optional minus, which zero does not have. */
  predicate Canonical(s: string) {
    CanonicalMagnitude(if s != "" && s[0] == '-' then s[1..] else s) && s != "-0"
  }

  lemma {:induction false} NoTrailingZero(s: string)
    ensures TrimZeros(s) != "" ==> TrimZeros(s)[|TrimZeros(s)| - 1] != '0'
  {
    if s != "" && s[|s| - 1] == '0' {
      NoTrailingZero(s[..|s| - 1]);
    }
  }

  lemma {:induction false} NoLeadingZero(n: nat)
    ensures NatToString(n)[0] == '0' ==> n == 0
    ensures n == 0 ==> NatToString(n) == "0"
  {
    if n >= 10 {
      NoLeadingZero(n / 10);
    }
  }

  lemma JoinCanonical(i: nat, frac: string)
    requires |frac| <= PRECISION && AllDigits(frac) && (frac != "" ==> frac[|frac| - 1] != '0')
    ensures CanonicalMagnitude(Join(i, frac))
  {
    hide NatToString;
    hide FindDot;
    var w, t := NatToString(i), Join(i, frac);
    NoLeadingZero(i);
    FindDotIn(w, frac);
    assert t[..|w|] == w && (frac != "" ==> t[|w| + 1..] == frac);
  }

  lemma SignedCanonical(t: string, minus: bool)
    requires CanonicalMagnitude(t) && (minus ==> t != "0")
    ensures Canonical(if minus then "-" + t else t)
  {
    hide FindDot;
    if minus {
      assert ("-" + t)[1..] == t && "-0"[1..] == "0";
    } else {
      FirstIsDigit(t);
    }
  }

  lemma FirstIsDigit(t: string)
    requires CanonicalMagnitude(t)
    ensures t != "" && IsDigit(t[0])
  {
    assert t[..FindDot(t)][0] == t[0];
  }

  lemma JoinIsNotZero(i: nat, frac: string)
    requires i != 0 || frac != ""
    ensures Join(i, frac) != "0"
  {
    hide NatToString;
    if frac == "" {
      ZeroText(i);
    }
  }

  lemma ZeroText(i: nat)
    requires i != 0
    ensures NatToString(i) != "0"
  {
    NoLeadingZero(i);
  }

  /** A printed number is as short as it can be: no superfluous zeros, and no sign on zero. */
  lemma PrintIsCanonical(d: int)
    ensures Canonical(Print(d))
  {
    var i, f, frac := PrintParts(d);
    FractionRoundTrip(f);
    NoTrailingZero(Padded(f, PRECISION));
    hide Print;
    hide Padded;
    hide TrimZeros;
    hide Canonical;
    hide CanonicalMagnitude;
    JoinCanonical(i, frac);
    if d < 0 {
      JoinIsNotZero(i, frac);
    }
    hide Join;
    SignedCanonical(Join(i, frac), d < 0);
  }

  // ---------- Rounding ----------

  predicate AllNines(s: string) {
    forall i :: 0 <= i < |s| ==> s[i] == '9'
  }

  lemma {:induction false} ValueOfNines(s: string)
    requires AllNines(s)
    ensures Value(s) == Pow10(|s|) - 1
  {
    if s != "" {
      ValueOfNines(s[..|s| - 1]);
    }
  }

  lemma {:induction false} ValueOfZeros(n: nat)
    ensures Value(Zeros(n)) == 0
  {
    if n > 0 {
      assert Zeros(n)[..n - 1] == Zeros(n - 1);
      ValueOfZeros(n - 1);
    }
  }

  lemma CarryValue(a: string, c: char, b: string)
    requires c < '9' && AllNines(b)
    ensures Value(a + [Next(c)] + Zeros(|b|)) == Value(a + [c] + b) + 1
  {
    hide Value;
    hide Pow10;
    hide Zeros;
    ValueOfNines(b);
    ValueOfZeros(|b|);
    OneDigit(c);
    OneDigit(Next(c));
    ValueConcat(a, [c]);
    ValueConcat(a, [Next(c)]);
    ValueConcat(a + [c], b);
    ValueConcat(a + [Next(c)], Zeros(|b|));
    var x, p := Value(a + [c]), Pow10(|b|);
    assert Value(a + [Next(c)]) == x + 1;
    assert (x + 1) * p == x * p + p;
  }

  /** Carrying adds one, except to a run of nines. */
  lemma IncrementedValue(s: string)
    requires AllDigits(s)
    ensures AllDigits(Incremented(s))
    ensures Value(Incremented(s)) == if AllNines(s) then Value(s) else Value(s) + 1
  {
    hide Value;
    match LastBelowNine(s, |s|)
    case None =>
      assert AllNines(s);
    case Some(k) =>
      var a, c, b := s[..k], s[k], s[k + 1..];
      assert !AllNines(s) by {
        assert s[k] != '9';
      }
      assert s == a + [c] + b;
      assert AllNines(b);
      CarryValue(a, c, b);
  }

  lemma OneDigit(c: char)
    ensures Value([c]) == DigitValue(c)
  {
    assert [c][..0] == "";
  }

  /** The value of a run of digits, in units of 10^-18, rounded half up in magnitude when `up`, else truncated. */
  function Rounded(x: int, k: nat, up: bool): int {
    if k == 0 then x
    else if up then (x + Pow10(k) / 2) / Pow10(k)
    else x / Pow10(k)
  }

  /** The one case in which rounding up is due and not done: eighteen nines followed by five or more. */
  predicate CarryLost(f: string) {
    |f| > PRECISION && AllNines(f[..PRECISION]) && f[PRECISION] >= '5'
  }

  lemma ShortFraction(f: string)
    requires f != "" && AllDigits(f) && |f| <= PRECISION
    ensures FractionValue(KeptFraction(f)) == Some(Value(f) * Pow10(PRECISION - |f|))
  {
    ReadDigits(f);
  }

  /** Rounding a split digit run half up looks at the first dropped digit only. */
  lemma HalfUp(head: nat, first: int, rest: int, p: int)
    requires 0 <= first < 10 && 0 <= rest < p
    ensures (head * (10 * p) + first * p + rest + 5 * p) / (10 * p) == if first >= 5 then head + 1 else head
    ensures (head * (10 * p) + first * p + rest) / (10 * p) == head
  {
    var x := first * p + rest;
    assert 0 <= x < 10 * p && (first >= 5 <==> x >= 5 * p) by {
      assert first * p <= 9 * p;
      if first >= 5 {
        assert first * p >= 5 * p;
      } else {
        assert first * p <= 4 * p;
      }
    }
    DivUnique(head * (10 * p) + x, 10 * p, head, x);
    if first >= 5 {
      assert head * (10 * p) + x + 5 * p == (head + 1) * (10 * p) + (x - 5 * p);
      DivUnique(head * (10 * p) + x + 5 * p, 10 * p, head + 1, x - 5 * p);
    } else {
      DivUnique(head * (10 * p) + x + 5 * p, 10 * p, head, x + 5 * p);
    }
  }

  /** Dropping all but eighteen digits keeps the leading ones, plus one when rounding up is due. */
  lemma RoundedHead(f: string, up: bool)
    requires AllDigits(f) && |f| > PRECISION
    ensures Rounded(Value(f), |f| - PRECISION, up) == Value(f[..PRECISION]) + if up && f[PRECISION] >= '5' then 1 else 0
  {
    var head, c, rest := f[..PRECISION], f[PRECISION], f[PRECISION + 1..];
    SplitValue(f);
    var p := Pow10(|rest|);
    assert Pow10(|f| - PRECISION) == 10 * p && Pow10(|f| - PRECISION) / 2 == 5 * p;
    hide Value;
    hide Pow10;
    HalfUp(Value(head), DigitValue(c), Value(rest), p);
  }

  lemma LongFraction(f: string)
    requires AllDigits(f) && |f| > PRECISION
    ensures FractionValue(KeptFraction(f)) == Some(Rounded(Value(f), |f| - PRECISION, !CarryLost(f)))
  {
    RoundedHead(f, !CarryLost(f));
    IncrementedValue(f[..PRECISION]);
    assert Pow10(0) == 1;
    hide Value;
    hide Pow10;
    hide Incremented;
    hide Rounded;
    ReadDigits(KeptFraction(f));
  }

  /** A long fraction as its kept digits, the first dropped one and the rest. */
  lemma SplitValue(f: string)
    requires AllDigits(f) && |f| > PRECISION
    ensures var head, c, rest := f[..PRECISION], f[PRECISION], f[PRECISION + 1..];
      var p := Pow10(|rest|);
      && Value(f) == Value(head) * (10 * p) + DigitValue(c) * p + Value(rest)
      && 0 <= Value(head) && 0 <= Value(rest) < p
  {
    var head, c, rest := f[..PRECISION], f[PRECISION], f[PRECISION + 1..];
    assert f == head + ([c] + rest);
    assert Pow10(|[c] + rest|) == 10 * Pow10(|rest|);
    hide Value;
    ValueConcat(head, [c] + rest);
    ValueConcat([c], rest);
    OneDigit(c);
    ValueBounds(head);
    ValueBounds(rest);
  }

  datatype Sign = NoSign | Plus | Minus

  /** The text of a plain decimal: an optional sign, digits, and optionally a dot and digits. */
  function Plain(sign: Sign, i: string, f: string): string {
    match sign
    case NoSign => Unsigned(i, f)
    case Plus => "+" + Unsigned(i, f)
    case Minus => "-" + Unsigned(i, f)
  }

  function Signed(sign: Sign, v: int): int {
    if sign == Minus then -v else v
  }

  /** A leading plus changes nothing. */
  lemma ReadPlus(i: string, f: string)
    requires i != "" && AllDigits(i) && AllDigits(f)
    ensures ParseMagnitude("+" + Unsigned(i, f)) == ParseMagnitude(Unsigned(i, f))
  {
    hide FractionValue;
    hide KeptFraction;
    hide Value;
    hide FindDot;
    var s := Unsigned(i, f);
    var t := "+" + s;
    FindDotIn(i, f);
    FindDotAfter('+', s);
    assert t[1..] == s && t[..1 + |i|] == "+" + i;
    assert ("+" + i)[1..] == i;
    assert s[..|i|] == i;
    if f != "" {
      assert t[1 + |i| + 1..] == s[|i| + 1..];
    }
  }

  lemma FindDotAfter(c: char, s: string)
    requires c != '.'
    ensures FindDot([c] + s) == 1 + FindDot(s)
  {
    assert ([c] + s)[1..] == s;
  }

  function Unsigned(i: string, f: string): string {
    if f == "" then i else i + "." + f
  }

  /** What the magnitude of a plain decimal is read as. */
  function PlainMagnitude(i: string, f: string): int {
    if |f| <= PRECISION then Value(i + f) * Pow10(PRECISION - |f|)
    else Value(i) * SCALE + Rounded(Value(f), |f| - PRECISION, !CarryLost(f))
  }

  lemma ReadPlain(i: string, f: string)
    requires i != "" && AllDigits(i) && AllDigits(f)
    ensures ParseMagnitude(Unsigned(i, f)) == Some(PlainMagnitude(i, f))
  {
    if f == "" {
      WholeMagnitude(i);
      hide ParseMagnitude;
      hide PlainMagnitude;
      ReadWhole(i);
    } else {
      hide ParseMagnitude;
      hide PlainMagnitude;
      hide KeptFraction;
      hide FractionValue;
      FractionMagnitude(i, f);
      ReadFraction(i, f);
    }
  }

  lemma WholeMagnitude(i: string)
    ensures PlainMagnitude(i, "") == Value(i) * SCALE
  {
    Pow10IsScale();
    assert i + "" == i;
  }

  lemma FractionMagnitude(i: string, f: string)
    requires f != "" && AllDigits(f)
    ensures |KeptFraction(f)| <= PRECISION
    ensures match FractionValue(KeptFraction(f))
      case None => false
      case Some(v) => PlainMagnitude(i, f) == Value(i) * SCALE + v
  {
    hide Value;
    hide Pow10;
    hide FractionValue;
    hide Rounded;
    if |f| <= PRECISION {
      ShortFraction(f);
      ShortMagnitude(i, f);
    } else {
      LongFraction(f);
    }
  }

  lemma ShortMagnitude(i: string, f: string)
    requires |f| <= PRECISION
    ensures Value(i + f) * Pow10(PRECISION - |f|) == Value(i) * SCALE + Value(f) * Pow10(PRECISION - |f|)
  {
    Pow10IsScale();
    ValueConcat(i, f);
    Pow10Add(|f|, PRECISION - |f|);
    hide Value;
    hide Pow10;
    ScaleUp(Value(i), Pow10(|f|), Value(f), Pow10(PRECISION - |f|));
  }

  lemma ScaleUp(i: int, a: int, f: int, b: int)
    ensures (i * a + f) * b == i * (a * b) + f * b
  {
  }

  /**
   A plain decimal is read exactly when it has at most eighteen fraction digits, and otherwise rounded half up in
   magnitude, unless the carry is lost: then it is truncated.
   */
  lemma PlainRounding(sign: Sign, i: string, f: string)
    requires i != "" && AllDigits(i) && AllDigits(f)
    ensures Parse(Plain(sign, i, f)) == Some(Signed(sign, PlainMagnitude(i, f)))
  {
    hide *;
    UnsignedEnds(i, f);
    ReadPlain(i, f);
    ReadPlus(i, f);
    PlainForm(sign, i, f, PlainMagnitude(i, f));
    if sign == Plus {
      ReadAfterPlus(Unsigned(i, f), PlainMagnitude(i, f));
    } else {
      ReadSigned(Unsigned(i, f), PlainMagnitude(i, f), sign == Minus);
    }
  }

  lemma PlainForm(sign: Sign, i: string, f: string, v: int)
    ensures sign == Plus ==> Plain(sign, i, f) == "+" + Unsigned(i, f) && Signed(sign, v) == v
    ensures sign != Plus ==> Plain(sign, i, f) == if sign == Minus then "-" + Unsigned(i, f) else Unsigned(i, f)
    ensures sign != Plus ==> Signed(sign, v) == if sign == Minus then -v else v
  {
  }

  lemma ReadAfterPlus(s: string, v: int)
    requires s != "" && IsDigit(s[|s| - 1]) && ParseMagnitude("+" + s) == Some(v)
    ensures Parse("+" + s) == Some(v)
  {
    hide ParseMagnitude;
    TrimNothing("+" + s);
  }

  /** A long fraction is rounded half up exactly when the carry is not lost. */
  lemma HalfUpIff(i: string, f: string)
    requires AllDigits(f) && |f| > PRECISION
    ensures PlainMagnitude(i, f) == Value(i) * SCALE + Rounded(Value(f), |f| - PRECISION, true) <==> !CarryLost(f)
  {
    RoundedHead(f, true);
    RoundedHead(f, false);
    hide Value;
    hide Rounded;
  }

  lemma LostCarryText(nines: string)
    requires nines == "999999999999999999"
    ensures Plain(NoSign, "0", nines + "5") == "0.9999999999999999995"
  {
    hide *;
    PlainForm(NoSign, "0", nines + "5", 0);
    UnsignedForm("0", nines + "5");
    assert "0" + "." + (nines + "5") == "0." + nines + "5";
  }

  lemma UnsignedForm(i: string, f: string)
    requires f != ""
    ensures Unsigned(i, f) == i + "." + f
  {
  }

  /** Eighteen nines and a five are read as all nines, half a unit too little, not as one. */
  lemma CarryIsLost()
    ensures Parse("0.9999999999999999995") == Some(SCALE - 1)
  {
    var nines := "999999999999999999";
    var f := nines + "5";
    LostCarryText(nines);
    assert f[..PRECISION] == nines && CarryLost(f);
    PlainRounding(NoSign, "0", f);
    RoundedHead(f, false);
    ValueOfNines(nines);
    Pow10IsScale();
    OneDigit('0');
    hide Value;
    hide Rounded;
    hide Pow10;
    hide Parse;
  }

  lemma UnsignedEnds(i: string, f: string)
    requires i != "" && AllDigits(i) && AllDigits(f)
    ensures var s := Unsigned(i, f);
      s != "" && IsDigit(s[0]) && IsDigit(s[|s| - 1])
  {
  }

  lemma MagnitudeError(i: string, f: string)
    requires |f| > PRECISION
    ensures var p := Pow10(|f| - PRECISION);
      -p < PlainMagnitude(i, f) * p - Value(i + f) < p
  {
    var k := |f| - PRECISION;
    ValueConcat(i, f);
    Pow10IsScale();
    Pow10Add(PRECISION, k);
    hide Value;
    hide Pow10;
    hide CarryLost;
    RoundedError(Value(f), k, !CarryLost(f));
    hide Rounded;
    ErrorOfWhole(Value(i), SCALE, Rounded(Value(f), k, !CarryLost(f)), Value(f), Pow10(k));
  }

  /** However many digits are dropped, the number read differs from the text's by less than one unit. */
  lemma PlainErrorBelowOne(sign: Sign, i: string, f: string)
    requires i != "" && AllDigits(i) && AllDigits(f) && |f| > PRECISION
    ensures var r, p := Parse(Plain(sign, i, f)), Pow10(|f| - PRECISION);
      r.Some? && -p < r.value * p - Signed(sign, Value(i + f)) < p
  {
    hide Parse;
    hide Plain;
    hide Pow10;
    hide Value;
    hide PlainMagnitude;
    PlainRounding(sign, i, f);
    MagnitudeError(i, f);
    NegatedProduct(PlainMagnitude(i, f), Pow10(|f| - PRECISION));
  }

  lemma NegatedProduct(a: int, b: int)
    ensures -a * b == -(a * b)
  {
  }

  lemma ErrorOfWhole(i: int, scale: int, v: int, x: int, p: int)
    ensures (i * scale + v) * p - (i * (scale * p) + x) == v * p - x
  {
  }

  lemma RoundedError(x: int, k: nat, up: bool)
    requires k > 0
    ensures -Pow10(k) < Rounded(x, k, up) * Pow10(k) - x < Pow10(k)
  {
    var p := Pow10(k);
    hide Pow10;
    var y := if up then x + p / 2 else x;
    assert y == y / p * p + y % p;
  }

  // ---------- Any text ----------

  /** Blank, tab, and four kinds of line ends. */
  predicate IsBlank(c: char) {
    c in {' ', '\t', '\n', '\r', 11 as char, 12 as char}
  }

  predicate Blank(s: string) {
    forall i :: 0 <= i < |s| ==> IsBlank(s[i])
  }

  lemma SpacesAreBlanks(c: char)
    ensures IsSpace(c) <==> IsBlank(c)
  {
  }

  lemma TrimStep(s: string)
    ensures TrimSpace(s) == if s == "" then s
      else if IsSpace(s[0]) then TrimSpace(s[1..])
      else if IsSpace(s[|s| - 1]) then TrimSpace(s[..|s| - 1])
      else s
  {
  }

  /** Reading takes blanks off both ends and nothing else. */
  lemma {:induction false} TrimmedEnds(s: string) returns (front: string, back: string)
    ensures s == front + TrimSpace(s) + back && Blank(front) && Blank(back)
    ensures var t := TrimSpace(s); t != "" ==> !IsBlank(t[0]) && !IsBlank(t[|t| - 1])
  {
    hide IsSpace;
    hide IsBlank;
    hide TrimSpace;
    TrimStep(s);
    front, back := "", "";
    if s == "" {
      assert s == "" + TrimSpace(s) + "";
    } else {
      SpacesAreBlanks(s[0]);
      SpacesAreBlanks(s[|s| - 1]);
      if IsSpace(s[0]) {
        front, back := TrimmedEnds(s[1..]);
        assert s == [s[0]] + s[1..] == ([s[0]] + front) + TrimSpace(s) + back;
        front := [s[0]] + front;
      } else if IsSpace(s[|s| - 1]) {
        front, back := TrimmedEnds(s[..|s| - 1]);
        assert s == s[..|s| - 1] + [s[|s| - 1]] == front + TrimSpace(s) + (back + [s[|s| - 1]]);
        back := back + [s[|s| - 1]];
      } else {
        assert s == "" + TrimSpace(s) + "";
      }
    }
  }

  lemma {:induction false} TrimFront(a: string, s: string)
    requires Blank(a)
    ensures TrimSpace(a + s) == TrimSpace(s)
  {
    if a == "" {
      assert a + s == s;
    } else {
      assert (a + s)[1..] == a[1..] + s;
      TrimFront(a[1..], s);
    }
  }

  lemma {:induction false} TrimBack(s: string, b: string)
    requires Blank(b)
    ensures TrimSpace(s + b) == TrimSpace(s)
    decreases |s| + |b|
  {
    if b == "" {
      assert s + b == s;
    } else if s == "" {
      assert s + b == b + "";
      TrimFront(b, "");
    } else if IsSpace(s[0]) {
      assert (s + b)[1..] == s[1..] + b;
      TrimBack(s[1..], b);
    } else {
      assert (s + b)[..|s + b| - 1] == s + b[..|b| - 1];
      TrimBack(s, b[..|b| - 1]);
    }
  }

  /** Blanks around a text do not matter. */
  lemma ParseIgnoresBlanks(a: string, s: string, b: string)
    requires Blank(a) && Blank(b)
    ensures Parse(a + s + b) == Parse(s)
  {
    TrimBack(a + s, b);
    TrimFront(a, s);
  }

  /** Digits, at least one, after at most one sign. */
  predicate Numeral(s: string) {
    (s != "" && AllDigits(s)) || (|s| > 1 && s[0] in {'+', '-'} && AllDigits(s[1..]))
  }

  lemma NumeralIff(s: string)
    ensures SetString(s).Some? <==> Numeral(s)
  {
  }

  /** What the parser sees as the fraction is short, or begins with eighteen digits. */
  predicate PlainFraction(frac: string) {
    |frac| <= PRECISION || AllDigits(frac[..PRECISION])
  }

  lemma FractionIff(frac: string)
    requires PlainFraction(frac)
    ensures FractionValue(KeptFraction(frac)).Some? <==> |frac| > PRECISION || Numeral(frac)
  {
    NumeralIff(KeptFraction(frac));
    if |frac| > PRECISION {
      IncrementedValue(frac[..PRECISION]);
    }
  }

  /**
   Which texts are read as numbers: nothing but blanks, as zero, and otherwise, after an optional minus, a numeral, or
   two with a dot between them, where of the second only the first eighteen digits count.
   */
  lemma ReadableIff(text: string, body: string, i: string, frac: Option<string>)
    requires var s := TrimSpace(text); s != "" && body == if s[0] == '-' then s[1..] else s
    requires '.' !in i && body == i + match frac case Some(f) => "." + f case None => ""
    requires frac.Some? ==> PlainFraction(frac.value)
    ensures Parse(text).Some? <==>
      Numeral(i) && (frac.Some? ==> '.' !in frac.value && (|frac.value| > PRECISION || Numeral(frac.value)))
  {
    hide TrimSpace;
    hide SetString;
    hide FindDot;
    hide Numeral;
    hide KeptFraction;
    hide FractionValue;
    NumeralIff(i);
    DotAfter(i, if frac.Some? then "." + frac.value else "");
    assert body[..|i|] == i;
    if frac.Some? {
      var f := frac.value;
      assert body[|i| + 1..] == f;
      FractionIff(f);
      HasDot(f);
    }
  }

  lemma DotAfter(i: string, rest: string)
    requires '.' !in i && (rest == "" || rest[0] == '.')
    ensures FindDot(i + rest) == |i|
  {
    assert forall k :: 0 <= k < |i| ==> (i + rest)[k] == i[k];
    assert rest != "" ==> (i + rest)[|i|] == '.';
  }

  lemma HasDot(s: string)
    ensures FindDot(s) < |s| <==> '.' in s
  {
  }

  lemma BlankIsZero(text: string)
    requires Blank(text)
    ensures Parse(text) == Some(0)
  {
    TrimFront(text, "");
    assert text + "" == text;
  }
}
