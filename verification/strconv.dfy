/**
 * strconv.ParseInt(s, 10, 64) as the Go library computes it: an optional sign,
 * then the unsigned digit loop of ParseUint with its per-digit overflow
 * checks, then the signed int64 range check.
 */
module StrConv {
  import opened Results

  const MaxUint64: nat := 0xFFFF_FFFF_FFFF_FFFF
  const MinInt64: int := -0x8000_0000_0000_0000
  const MaxInt64: int := 0x7FFF_FFFF_FFFF_FFFF

  /** Go's int64. */
  type Int64 = x: int | MinInt64 <= x <= MaxInt64

  /** The smallest n with n * 10 > MaxUint64: ParseUint's `cutoff` for base 10. */
  const Cutoff10: nat := MaxUint64 / 10 + 1

  /** The two reasons a *NumError carries. */
  datatype NumErrorKind = ErrSyntax | ErrRange

  predicate IsDigit(c: char) {
    '0' <= c <= '9'
  }

  function DigitValue(c: char): (d: nat)
    requires IsDigit(c)
    ensures d < 10
  {
    (c - '0') as nat
  }

  predicate AllDigits(s: string) {
    forall i :: 0 <= i < |s| ==> IsDigit(s[i])
  }

  /**
   * The reference value of a digit string read left to right onto an
   * accumulator `n`: the number n followed by the digits of `s`.
   */
  function ValueFrom(s: string, n: nat): nat
    requires AllDigits(s)
  {
    if s == [] then n else ValueFrom(s[1..], n * 10 + DigitValue(s[0]))
  }

  /** The decimal value of a digit string. */
  function Value(s: string): nat
    requires AllDigits(s)
  {
    ValueFrom(s, 0)
  }

  /**
   * The body of ParseUint's loop from accumulator `n` over the rest `s`.
   * A character outside '0'..'9' is a syntax error (a letter is one too in
   * base 10, since its digit value is at least 10); an accumulator at or
   * above the cutoff, or a sum past MaxUint64, is a range error. Go detects
   * the latter as a uint64 wrap-around; with unbounded integers it is the
   * comparison with MaxUint64.
   */
  function Accumulate(s: string, n: nat): (r: Result<nat, NumErrorKind>)
    requires n <= MaxUint64
    ensures r.Ok? ==> AllDigits(s) && r.value == ValueFrom(s, n) && r.value <= MaxUint64
    decreases |s|
  {
    if s == [] then Ok(n)
    else if !IsDigit(s[0]) then Err(ErrSyntax)
    else if n >= Cutoff10 then Err(ErrRange)
    else
      var n1 := n * 10 + DigitValue(s[0]);
      if n1 > MaxUint64 then Err(ErrRange)
      else Accumulate(s[1..], n1)
  }

  /** strconv.ParseUint(s, 10, 64). */
  function ParseUint(s: string): (r: Result<nat, NumErrorKind>)
    ensures r.Ok? ==> s != "" && AllDigits(s) && r.value == Value(s) && r.value <= MaxUint64
  {
    if s == "" then Err(ErrSyntax) else Accumulate(s, 0)
  }

  /** The digits after an optional leading '+' or '-'. */
  function Unsigned(s: string): string {
    if |s| > 0 && (s[0] == '+' || s[0] == '-') then s[1..] else s
  }

  predicate Negative(s: string) {
    |s| > 0 && s[0] == '-'
  }

  /** Text ParseInt can read: an optional sign and at least one decimal digit. */
  predicate WellFormedInt(s: string) {
    Unsigned(s) != "" && AllDigits(Unsigned(s))
  }

  /** The value a well-formed integer text denotes, before any range check. */
  function SignedValue(s: string): int
    requires WellFormedInt(s)
  {
    if Negative(s) then -(Value(Unsigned(s)) as int) else Value(Unsigned(s))
  }

  /**
   * strconv.ParseInt(s, 10, 64). A syntax error from ParseUint is passed
   * on; a range error from it leaves the saturated value, which the signed
   * range check below turns into a range error again.
   */
  function ParseInt(s: string): (r: Result<Int64, NumErrorKind>)
    ensures r.Ok? ==> WellFormedInt(s) && r.value == SignedValue(s)
  {
    if s == "" then Err(ErrSyntax)
    else
      match ParseUint(Unsigned(s))
      case Err(ErrSyntax) => Err(ErrSyntax)
      case Err(ErrRange) => Err(ErrRange)
      case Ok(un) =>
        if !Negative(s) && un >= MaxInt64 + 1 then Err(ErrRange)
        else if Negative(s) && un > MaxInt64 + 1 then Err(ErrRange)
        else if Negative(s) then Ok(-(un as int))
        else Ok(un)
  }

  /** The decimal digits of `n`, without leading zeros: strconv.FormatUint(n, 10). */
  function Decimal(n: nat): (s: string)
    ensures |s| > 0 && AllDigits(s)
  {
    if n < 10 then ['0' + n as char]
    else Decimal(n / 10) + ['0' + (n % 10) as char]
  }

  /** strconv.FormatInt(n, 10). */
  function FormatInt(n: int): string {
    if n < 0 then "-" + Decimal(-n) else Decimal(n)
  }

  /** Reading more digits never makes the accumulator smaller, and one digit multiplies it by ten at least. */
  lemma {:induction false} ValueFromGrows(s: string, n: nat)
    requires AllDigits(s)
    ensures ValueFrom(s, n) >= n
    ensures |s| > 0 ==> ValueFrom(s, n) >= n * 10 + DigitValue(s[0])
    decreases |s|
  {
    if |s| > 0 {
      ValueFromGrows(s[1..], n * 10 + DigitValue(s[0]));
    }
  }

  /** On digits, the ParseUint loop computes the reference value exactly when it fits in 64 bits. */
  lemma {:induction false} AccumulateDigits(s: string, n: nat)
    requires AllDigits(s) && n <= MaxUint64
    ensures Accumulate(s, n) == if ValueFrom(s, n) <= MaxUint64 then Ok(ValueFrom(s, n)) else Err(ErrRange)
    decreases |s|
  {
    if |s| > 0 {
      ValueFromGrows(s, n);
      ValueFromGrows(s[1..], n * 10 + DigitValue(s[0]));
      if n < Cutoff10 && n * 10 + DigitValue(s[0]) <= MaxUint64 {
        AccumulateDigits(s[1..], n * 10 + DigitValue(s[0]));
      }
    }
  }

  /** ParseUint accepts exactly the non-empty digit strings whose value fits in a uint64; a larger value is a range error. */
  lemma ParseUintSpec(s: string)
    ensures ParseUint(s).Ok? <==> s != "" && AllDigits(s) && Value(s) <= MaxUint64
    ensures s != "" && AllDigits(s) && Value(s) > MaxUint64 ==> ParseUint(s) == Err(ErrRange)
  {
    if s != "" && AllDigits(s) {
      AccumulateDigits(s, 0);
    }
  }

  /**
   * ParseInt succeeds exactly on an optional sign followed by digits whose
   * signed value lies in the int64 range, and returns that value; well-formed
   * text out of range is a range error.
   */
  lemma ParseIntSpec(s: string)
    ensures ParseInt(s).Ok? <==> WellFormedInt(s) && MinInt64 <= SignedValue(s) <= MaxInt64
    ensures ParseInt(s).Ok? ==> ParseInt(s).value == SignedValue(s)
    ensures WellFormedInt(s) && !(MinInt64 <= SignedValue(s) <= MaxInt64) ==> ParseInt(s) == Err(ErrRange)
  {
    ParseUintSpec(Unsigned(s));
  }

  /** Appending a digit multiplies the value read so far by ten and adds the digit. */
  lemma {:induction false} ValueFromSnoc(s: string, c: char, n: nat)
    requires AllDigits(s) && IsDigit(c)
    ensures AllDigits(s + [c])
    ensures ValueFrom(s + [c], n) == ValueFrom(s, n) * 10 + DigitValue(c)
    decreases |s|
  {
    if |s| > 0 {
      assert (s + [c])[1..] == s[1..] + [c];
      ValueFromSnoc(s[1..], c, n * 10 + DigitValue(s[0]));
    }
  }

  /** Reading back the decimal digits of `n` gives `n`. */
  lemma {:induction false} DecimalValue(n: nat)
    ensures Value(Decimal(n)) == n
  {
    var c := '0' + (n % 10) as char;
    assert DigitValue(c) == n % 10;
    if n < 10 {
      assert Decimal(n) == [c];
      assert [c][1..] == [];
      assert Value([c]) == ValueFrom([], 0 * 10 + DigitValue(c)) == n;
    } else {
      DecimalValue(n / 10);
      ValueFromSnoc(Decimal(n / 10), c, 0);
      assert Value(Decimal(n)) == n / 10 * 10 + n % 10;
    }
  }

  /** ParseInt inverts FormatInt on the whole int64 range. */
  lemma FormatIntRoundTrip(n: Int64)
    ensures ParseInt(FormatInt(n)) == Ok(n)
  {
    var s := FormatInt(n);
    var m: nat := if n < 0 then -(n as int) else n;
    assert Unsigned(s) == Decimal(m) && Negative(s) == (n < 0);
    DecimalValue(m);
    assert SignedValue(s) == n;
    ParseIntSpec(s);
  }

  /** A leading zero in front of unsigned text never changes what ParseInt returns. */
  lemma ParseIntLeadingZero(s: string)
    requires s != "" && s[0] != '+' && s[0] != '-'
    ensures ParseInt("0" + s) == ParseInt(s)
  {
    assert ("0" + s)[1..] == s;
  }
}
