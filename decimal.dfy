/** Decimal integers as the decoder reads and the announcer writes them:
    Go's `strconv.ParseInt(s, 10, 64)` and `strconv.FormatInt(n, 10)`.
    ParseInt is written out the way the Go library scans (sign, then digits
    left to right with an overflow check before each step), so that the
    error it reports, syntax or range, is the one Go reports. */
module Decimal {
  import opened Base

  const Plus: byte := 43   // '+'
  const Minus: byte := 45  // '-'
  const Zero: byte := 48   // '0'
  const MaxUint64: int := 0xffff_ffff_ffff_ffff

  /** ParseUint's bound: an accumulator at or above it overflows when
      multiplied by ten. */
  const Cutoff: int := MaxUint64 / 10 + 1

  /** `*strconv.NumError`: the kind of failure and the whole input text. */
  datatype NumError = Syntax(num: seq<byte>) | Range(num: seq<byte>)

  /** The outcome of ParseUint's digit scan. */
  datatype UintScan = Scanned(n: nat) | NotDigit | Overflow

  predicate IsDigit(c: byte) { Zero <= c <= Zero + 9 }

  predicate AllDigits(s: seq<byte>) { forall i :: 0 <= i < |s| ==> IsDigit(s[i]) }

  /** The number a run of decimal digits denotes (reference definition). */
  function DigitsValue(s: seq<byte>): nat
    requires AllDigits(s)
  {
    if s == [] then 0 else DigitsValue(s[..|s| - 1]) * 10 + (s[|s| - 1] - Zero) as int
  }

  /** ParseUint's loop from index `i` with accumulator `n`: a non-digit is a
      syntax error and stops the scan; so does an overflow, which is
      detected before the rest of the text is looked at. */
  function ScanUint(s: seq<byte>, i: nat, n: nat): UintScan
    requires i <= |s|
    decreases |s| - i
  {
    if i == |s| then Scanned(n)
    else if !IsDigit(s[i]) then NotDigit
    else if n >= Cutoff then Overflow
    else if n * 10 + (s[i] - Zero) as int > MaxUint64 then Overflow
    else ScanUint(s, i + 1, n * 10 + (s[i] - Zero) as int)
  }

  /** `strconv.ParseInt(s, 10, 64)`: an optional `+` or `-`, then ParseUint
      of the rest, then the int64 range check for the sign. */
  function ParseInt(s: seq<byte>): (r: Result<int64, NumError>)
    ensures r.Err? ==> r.error.num == s
  {
    if s == [] then Err(Syntax(s))
    else
      var neg := s[0] == Minus;
      var body := if s[0] == Plus || s[0] == Minus then s[1..] else s;
      if body == [] then Err(Syntax(s))
      else match ScanUint(body, 0, 0)
        case NotDigit => Err(Syntax(s))
        case Overflow => Err(Range(s))
        case Scanned(u) =>
          if !neg && u > MaxInt64 then Err(Range(s))
          else if neg && u > -MinInt64 then Err(Range(s))
          else Ok(if neg then -(u as int) else u)
  }

  /** The text ParseInt accepts, stated independently of the scan: an
      optional sign, at least one digit, and a value inside int64. */
  predicate IntegerText(s: seq<byte>)
  {
    var body := SignlessPart(s);
    && body != []
    && AllDigits(body)
    && (if HasMinus(s) then DigitsValue(body) <= -MinInt64 else DigitsValue(body) <= MaxInt64)
  }

  predicate HasMinus(s: seq<byte>) { s != [] && s[0] == Minus }

  function SignlessPart(s: seq<byte>): seq<byte>
  {
    if s != [] && (s[0] == Plus || s[0] == Minus) then s[1..] else s
  }

  function IntegerTextValue(s: seq<byte>): int
    requires IntegerText(s)
  {
    if HasMinus(s) then -(DigitsValue(SignlessPart(s)) as int) else DigitsValue(SignlessPart(s))
  }

  /** Appending a digit multiplies the value so far by ten and adds it. */
  lemma DigitsValueSnoc(s: seq<byte>, c: byte)
    requires AllDigits(s) && IsDigit(c)
    ensures AllDigits(s + [c])
    ensures DigitsValue(s + [c]) == DigitsValue(s) * 10 + (c - Zero) as int
  {
    assert (s + [c])[..|s|] == s;
  }

  /** A prefix of a digit run never denotes more than the whole run. */
  lemma {:induction false} DigitsValuePrefix(s: seq<byte>, i: nat)
    requires AllDigits(s) && i <= |s|
    ensures DigitsValue(s[..i]) <= DigitsValue(s)
    decreases |s| - i
  {
    if i < |s| {
      DigitsValuePrefix(s, i + 1);
      assert s[..i + 1] == s[..i] + [s[i]];
      DigitsValueSnoc(s[..i], s[i]);
    } else {
      assert s[..i] == s;
    }
  }

  /** The scan from a prefix's value reaches the value of the whole run
      whenever that value fits in 64 bits. */
  lemma {:induction false} ScanUintComplete(s: seq<byte>, i: nat)
    requires AllDigits(s) && DigitsValue(s) <= MaxUint64 && i <= |s|
    ensures ScanUint(s, i, DigitsValue(s[..i])) == Scanned(DigitsValue(s))
    decreases |s| - i
  {
    if i == |s| {
      assert s[..i] == s;
    } else {
      assert s[..i + 1][..i] == s[..i];
      DigitsValuePrefix(s, i + 1);
      ScanUintComplete(s, i + 1);
    }
  }

  /** What the scan accepts is a digit run, and it yields the run's value. */
  lemma {:induction false} ScanUintSound(s: seq<byte>, i: nat, u: nat)
    requires i <= |s| && AllDigits(s[..i]) && DigitsValue(s[..i]) <= MaxUint64
    requires ScanUint(s, i, DigitsValue(s[..i])) == Scanned(u)
    ensures AllDigits(s) && u == DigitsValue(s) && u <= MaxUint64
    decreases |s| - i
  {
    if i == |s| {
      assert s[..i] == s;
    } else {
      var n := DigitsValue(s[..i]);
      var d := (s[i] - Zero) as int;
      assert IsDigit(s[i]) && n < Cutoff && n * 10 + d <= MaxUint64;
      assert ScanUint(s, i + 1, n * 10 + d) == Scanned(u);
      assert s[..i + 1] == s[..i] + [s[i]];
      DigitsValueSnoc(s[..i], s[i]);
      hide ScanUint, DigitsValue;
      ScanUintSound(s, i + 1, u);
    }
  }

  /** ParseInt succeeds exactly on IntegerText, with IntegerTextValue. */
  lemma ParseIntIff(s: seq<byte>)
    ensures ParseInt(s).Ok? <==> IntegerText(s)
    ensures ParseInt(s).Ok? ==> ParseInt(s).value == IntegerTextValue(s)
  {
    var body := SignlessPart(s);
    if s != [] && body != [] {
      assert body[..0] == [];
      if IntegerText(s) {
        ScanUintComplete(body, 0);
      } else if ScanUint(body, 0, 0).Scanned? {
        ScanUintSound(body, 0, ScanUint(body, 0, 0).n);
      }
      if ParseInt(s).Ok? {
        ScanUintSound(body, 0, ScanUint(body, 0, 0).n);
      }
    }
  }

  /** `strconv.FormatInt(n, 10)` for a non-negative n: no leading zeros. */
  function Digits(n: nat): (r: seq<byte>)
    ensures r != [] && AllDigits(r)
  {
    if n < 10 then [Zero + n as byte] else Digits(n / 10) + [Zero + (n % 10) as byte]
  }

  /** `strconv.FormatInt(n, 10)`. */
  function FormatInt(n: int64): seq<byte>
  {
    if n < 0 then [Minus] + Digits(-(n as int)) else Digits(n)
  }

  lemma {:induction false} DigitsValueOfDigits(n: nat)
    ensures DigitsValue(Digits(n)) == n
  {
    if n >= 10 {
      DigitsValueOfDigits(n / 10);
      DigitsValueSnoc(Digits(n / 10), Zero + (n % 10) as byte);
    }
  }

  /** FormatInt's text is ParseInt's text for the same number: parsing what
      the announcer writes gives the counter back. */
  lemma FormatParse(n: int64)
    ensures ParseInt(FormatInt(n)) == Ok(n)
  {
    var s := FormatInt(n);
    if n < 0 {
      var d := Digits(-(n as int));
      DigitsValueOfDigits(-(n as int));
      assert s == [Minus] + d && HasMinus(s);
      assert SignlessPart(s) == d;
    } else {
      DigitsValueOfDigits(n);
      assert IsDigit(s[0]) && !HasMinus(s);
      assert SignlessPart(s) == s;
    }
    assert IntegerText(s) && IntegerTextValue(s) == n;
    ParseIntIff(s);
  }

  /** The Go parser is more permissive than canonical bencode: it accepts a
      plus sign, a negative zero and leading zeros. */
  lemma PermissiveForms()
    ensures ParseInt([Minus, Zero]) == Ok(0)
    ensures ParseInt([Zero, Zero + 3]) == Ok(3)
    ensures ParseInt([Plus, Zero + 5]) == Ok(5)
    ensures ParseInt([]) == Err(Syntax([]))
    ensures ParseInt([Minus]) == Err(Syntax([Minus]))
  {
    var negZero, leading, plus := [Minus, Zero], [Zero, Zero + 3], [Plus, Zero + 5];
    assert SignlessPart(negZero) == [Zero] && [Zero][..0] == [];
    ParseIntIff(negZero);
    DigitsValueSnoc([Zero], Zero + 3);
    assert SignlessPart(leading) == leading && leading[..1] == [Zero];
    ParseIntIff(leading);
    assert SignlessPart(plus) == [Zero + 5] && [Zero + 5][..0] == [];
    ParseIntIff(plus);
  }
}
