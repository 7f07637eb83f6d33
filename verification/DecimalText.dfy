/** Printing fixed-point numbers and reading them back. Strings are sequences of single-byte characters. */
module DecimalText {
  import opened Types
  import opened Decimal

  /** The number of fraction digits. */
  const PRECISION := 18

  // ---------- Digits ----------

  predicate IsDigit(c: char) {
    '0' <= c <= '9'
  }

  predicate AllDigits(s: string) {
    forall i :: 0 <= i < |s| ==> IsDigit(s[i])
  }

  function DigitChar(d: nat): (c: char)
    requires d < 10
    ensures IsDigit(c) && DigitValue(c) == d
  {
    ('0' as int + d) as char
  }

  function DigitValue(c: char): int {
    c as int - '0' as int
  }

  function Pow10(n: nat): (p: int)
    ensures p > 0
  {
    if n == 0 then 1 else 10 * Pow10(n - 1)
  }

  /** The number a run of digits denotes. */
  function Value(s: string): int {
    if s == "" then 0 else Value(s[..|s| - 1]) * 10 + DigitValue(s[|s| - 1])
  }

  /** The shortest digits of n. */
  function NatToString(n: nat): (s: string)
    ensures s != "" && AllDigits(s)
  {
    if n < 10 then [DigitChar(n)] else NatToString(n / 10) + [DigitChar(n % 10)]
  }

  /** The last k digits of n, padded with zeros. */
  function Padded(n: nat, k: nat): (s: string)
    ensures |s| == k && AllDigits(s)
  {
    if k == 0 then "" else Padded(n / 10, k - 1) + [DigitChar(n % 10)]
  }

  function TrimZeros(s: string): (t: string)
    ensures t <= s
  {
    if s != "" && s[|s| - 1] == '0' then TrimZeros(s[..|s| - 1]) else s
  }

  // ---------- Printing ----------

  function Abs(d: int): nat {
    if d < 0 then -d else d
  }

  function Join(i: nat, frac: string): string {
    if frac == "" then NatToString(i) else NatToString(i) + "." + frac
  }

  function Print(d: int): string {
    var i, f := Abs(d) / SCALE, Abs(d) % SCALE;
    var frac := TrimZeros(Padded(f, PRECISION));
    if d < 0 && (frac != "" || i != 0) then "-" + Join(i, frac) else Join(i, frac)
  }

  // ---------- Reading ----------

  predicate IsSpace(c: char) {
    c == ' ' || c == '\t' || c == '\n' || c == '\r' || c as int == 11 || c as int == 12
  }

  function TrimSpace(s: string): string {
    if s == "" then s
    else if IsSpace(s[0]) then TrimSpace(s[1..])
    else if IsSpace(s[|s| - 1]) then TrimSpace(s[..|s| - 1])
    else s
  }

  /** An optionally signed run of digits, or None. */
  function SetString(s: string): Option<int> {
    if s != "" && s[0] == '-' then
      if |s| > 1 && AllDigits(s[1..]) then Some(-Value(s[1..])) else None
    else if s != "" && s[0] == '+' then
      if |s| > 1 && AllDigits(s[1..]) then Some(Value(s[1..])) else None
    else if s != "" && AllDigits(s) then Some(Value(s))
    else None
  }

  /** The position of the first dot, or the length. */
  function FindDot(s: string): (i: nat)
    ensures i <= |s|
    ensures i < |s| ==> s[i] == '.'
    ensures forall j :: 0 <= j < i ==> s[j] != '.'
  {
    if s == "" || s[0] == '.' then 0 else 1 + FindDot(s[1..])
  }

  /** The last position before n that is below '9', or None. */
  function LastBelowNine(s: string, n: nat): (k: Option<nat>)
    requires n <= |s|
    ensures k.Some? ==> k.value < n && s[k.value] < '9' && forall j :: k.value < j < n ==> s[j] >= '9'
    ensures k.None? ==> forall j :: 0 <= j < n ==> s[j] >= '9'
  {
    if n == 0 then None
    else if s[n - 1] < '9' then Some(n - 1)
    else LastBelowNine(s, n - 1)
  }

  function Zeros(n: nat): (z: string)
    ensures |z| == n && forall i :: 0 <= i < n ==> z[i] == '0'
  {
    seq(n, _ => '0')
  }

  function Next(c: char): char
    requires c < '9'
  {
    (c as int + 1) as char
  }

  /** Add one to the last digit and carry; a run of nines has nowhere to carry to and stays as it is. */
  function Incremented(s: string): (r: string)
    ensures |r| == |s|
  {
    match LastBelowNine(s, |s|)
    case None => s
    case Some(k) => s[..k] + [Next(s[k])] + Zeros(|s| - k - 1)
  }

  /** The fraction digits that are kept. */
  function KeptFraction(frac: string): string {
    if |frac| <= PRECISION then frac
    else if frac[PRECISION] >= '5' then Incremented(frac[..PRECISION])
    else frac[..PRECISION]
  }

  function FractionValue(kept: string): Option<int>
    requires |kept| <= PRECISION
  {
    match SetString(kept)
    case Some(f) => Some(f * Pow10(PRECISION - |kept|))
    case None => None
  }

  /** The magnitude of the text after a leading minus has been dealt with. */
  function ParseMagnitude(s: string): Option<int> {
    var dot := FindDot(s);
    match SetString(s[..dot])
    case None => None
    case Some(i) =>
      if dot == |s| then Some(i * SCALE)
      else if FindDot(s[dot + 1..]) < |s[dot + 1..]| then None
      else match FractionValue(KeptFraction(s[dot + 1..]))
           case None => None
           case Some(f) => Some(i * SCALE + f)
  }

  function Parse(text: string): Option<int> {
    var s := TrimSpace(text);
    if s == "" then Some(0)
    else if s[0] == '-' then
      match ParseMagnitude(s[1..])
      case Some(v) => Some(-v)
      case None => None
    else ParseMagnitude(s)
  }

  /** The carry loop over the bytes of the kept fraction. */
  method RoundUp(fracPart: string) returns (r: string)
    ensures r == Incremented(fracPart)
  {
    var fracBytes := new char[|fracPart|](i requires 0 <= i < |fracPart| => fracPart[i]);
    r := fracPart;
    var i := fracBytes.Length - 1;
    while i >= 0
      invariant -1 <= i < |fracPart| == fracBytes.Length
      invariant r == fracPart
      invariant forall j :: 0 <= j <= i ==> fracBytes[j] == fracPart[j]
      invariant forall j :: i < j < |fracPart| ==> fracBytes[j] == '0'
      invariant LastBelowNine(fracPart, |fracPart|) == LastBelowNine(fracPart, i + 1)
    {
      if fracBytes[i] < '9' {
        fracBytes[i] := Next(fracBytes[i]);
        r := fracBytes[..];
        return;
      }
      fracBytes[i] := '0';
      i := i - 1;
    }
  }

  method NewFromString(text: string) returns (r: Option<int>)
    ensures r == Parse(text)
  {
    var s := TrimSpace(text);
    if s == "" {
      return Some(0);
    }
    var neg := false;
    if s[0] == '-' {
      neg := true;
      s := s[1..];
    }
    var dot := FindDot(s);
    var intPart := SetString(s[..dot]);
    if dot < |s| && FindDot(s[dot + 1..]) < |s[dot + 1..]| {
      return None;
    }
    if intPart.None? {
      return None;
    }
    var v := intPart.value * SCALE;
    if dot < |s| {
      var fracPart := s[dot + 1..];
      if |fracPart| > PRECISION {
        var extra := fracPart[PRECISION];
        fracPart := fracPart[..PRECISION];
        if extra >= '5' {
          fracPart := RoundUp(fracPart);
        }
      }
      var fracVal := SetString(fracPart);
      if fracVal.None? {
        return None;
      }
      v := v + fracVal.value * Pow10(PRECISION - |fracPart|);
    }
    return Some(if neg then -v else v);
  }
}
