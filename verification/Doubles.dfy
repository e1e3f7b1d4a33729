/**
 * Doubles and the two C library calls cJSON makes on them. The library is not modelled: a Codec is any
 * pair of `sprintf` and `strtod` that meets the contract below, and Acceptance.ReaderIsValid shows that one exists.
 */
module Doubles {
  import opened Words
  import opened CText

  const MINUS: uchar := 45
  const MAX_LEXEME: nat := 25
  const NUMBER_BUFFER: nat := 63
  const PATTERNS: nat := 0x1_0000_0000_0000_0000
  const SIGN: nat := 0x8000_0000_0000_0000

  /** All ones in the exponent field: an infinity or a NaN. */
  const SPECIAL_EXPONENT: nat := 0x7FF

  /** The exponent field of a 64-bit pattern (section 3.4 of IEEE 754). */
  function Exponent(n: nat): nat {
    n / 0x10_0000_0000_0000 % 0x800
  }

  /** A finite double by its 64-bit pattern. */
  type pattern = n: nat | n < PATTERNS && Exponent(n) != SPECIAL_EXPONENT

  datatype Double = Nan | Infinite(negative: bool) | Finite(bits: pattern)

  predicate IsZero(d: Double) {
    d.Finite? && (d.bits == 0 || d.bits == SIGN)
  }

  /** `==` on doubles: NaN equals nothing, the two zeros are equal. */
  predicate DoubleEq(a: Double, b: Double) {
    !a.Nan? && !b.Nan? && (a == b || (IsZero(a) && IsZero(b)))
  }

  function PowerOfTwo(k: nat): (r: nat)
    ensures r >= 1
  {
    if k == 0 then 1 else 2 * PowerOfTwo(k - 1)
  }

  /** The number a pattern stands for (section 3.4 of IEEE 754). */
  function RealOf(p: pattern): real {
    var e, fraction := Exponent(p), p % 0x10_0000_0000_0000;
    var m: nat := if e == 0 then fraction else 0x10_0000_0000_0000 + fraction;
    var scale := (if e == 0 then 1 else e) - 1075;
    var size := if scale >= 0 then (m * PowerOfTwo(scale)) as real else m as real / PowerOfTwo(-scale) as real;
    if p >= SIGN then -size else size
  }

  /** A real without what is behind the point. */
  function Truncated(x: real): int {
    if x >= 0.0 then x.Floor else -((-x).Floor)
  }

  /** What `parse_number` puts into `valueint`; the conversion of a NaN is the one x86 makes. */
  function Saturated(d: Double): (r: int)
    ensures INT_MIN <= r <= INT_MAX
  {
    match d
    case Nan => INT_MIN
    case Infinite(negative) => if negative then INT_MIN else INT_MAX
    case Finite(p) =>
      if RealOf(p) >= INT_MAX as real then INT_MAX
      else if RealOf(p) <= INT_MIN as real then INT_MIN
      else Truncated(RealOf(p))
  }

  /** Between the ends of the range the integer is less than one away from the number, and exact if there is one. */
  lemma SaturatedIsClose(p: pattern)
    requires INT_MIN as real <= RealOf(p) <= INT_MAX as real
    ensures var r := Saturated(Finite(p)) as real;
            && -1.0 < r - RealOf(p) < 1.0 && (RealOf(p).Floor as real == RealOf(p) ==> r == RealOf(p))
  {
    hide RealOf;
  }

  predicate Digit(c: uchar) {
    48 <= c <= 57
  }

  /** The bytes `parse_number` copies. */
  predicate NumberByte(c: uchar) {
    Digit(c) || c == 43 || c == MINUS || c == 46 || c == 69 || c == 101
  }

  datatype Scan = Scan(value: Double, used: nat)

  /** `sprintf` with `%1.15g` and with `%1.17g`, and `strtod`, which reads as `sscanf` does with `%lg`. */
  datatype Codec = Codec(g15: pattern -> cstring, g17: pattern -> cstring, strtod: bytes -> Scan) {

    /** The text `print_number` chooses for a finite number: 15 digits if the number comes back from them, else 17. */
    function Show(p: pattern): cstring {
      var scan := strtod(g15(p));
      if scan.used == 0 || !DoubleEq(scan.value, Finite(p)) then g17(p) else g15(p)
    }

    /**
     * What print_number and parse_number rely on: both texts are short numbers read to their end, 17 digits
     * determine the number, and the sign of a zero is printed and read.
     */
    ghost predicate Valid() {
      && (forall s :: strtod(s).used <= |s|)
      && (forall p :: Lexeme(g15(p)) && strtod(g15(p)).used == |g15(p)|)
      && (forall p :: Lexeme(g17(p)) && strtod(g17(p)) == Scan(Finite(p), |g17(p)|))
      && (forall p :: IsZero(Finite(p)) ==> strtod(g15(p)).value == Finite(p))
    }
  }

  /** Whichever text is chosen, reading it uses all of it and gives exactly the number printed, sign included. */
  lemma ShownReadsBack(c: Codec, p: pattern)
    requires c.Valid()
    ensures Lexeme(c.Show(p)) && c.strtod(c.Show(p)) == Scan(Finite(p), |c.Show(p)|)
  {
    hide Lexeme;
  }

  /** A number as `print_number` can put it out: short, and starting as `parse_value` expects. */
  predicate Lexeme(s: bytes) {
    && 1 <= |s| <= 25
    && (s[0] == MINUS || Digit(s[0]))
    && forall i :: 0 <= i < |s| ==> NumberByte(s[i])
  }

  // ----- bit patterns in decimal, by which the contract can be met -----

  function Decimal(n: nat): (s: cstring)
    ensures |s| >= 1 && forall i :: 0 <= i < |s| ==> Digit(s[i])
  {
    if n < 10 then [48 + n] else Decimal(n / 10) + [48 + n % 10]
  }

  function DigitRun(s: bytes): (k: nat)
    ensures k <= |s| && forall i :: 0 <= i < k ==> Digit(s[i])
    ensures k < |s| ==> !Digit(s[k])
  {
    if s == [] || !Digit(s[0]) then 0 else 1 + DigitRun(s[1..])
  }

  function DecimalValue(s: bytes): nat
    requires forall i :: 0 <= i < |s| ==> Digit(s[i])
  {
    if s == [] then 0 else
      assert Digit(s[|s| - 1]);
      10 * DecimalValue(s[..|s| - 1]) + (s[|s| - 1] as int - 48)
  }

  lemma {:induction false} DecimalBack(n: nat)
    ensures DecimalValue(Decimal(n)) == n
    decreases n
  {
    var s := Decimal(n);
    if n < 10 {
      assert s[..0] == [] && DecimalValue(s[..0]) == 0;
    } else {
      assert s[..|s| - 1] == Decimal(n / 10);
      DecimalBack(n / 10);
    }
  }

  function PowerOfTen(k: nat): (r: nat)
    ensures r >= 1
  {
    if k == 0 then 1 else 10 * PowerOfTen(k - 1)
  }

  lemma TwentyDigits()
    ensures PowerOfTen(20) >= PATTERNS
  {
    assert PowerOfTen(5) == 100000;
    assert PowerOfTen(10) == 100000 * 100000;
    assert PowerOfTen(15) == 100000 * 100000 * 100000;
  }

  lemma {:induction false} DecimalLength(n: nat, k: nat)
    requires k >= 1 && n < PowerOfTen(k)
    ensures |Decimal(n)| <= k
    decreases k
  {
    if n >= 10 {
      assert k >= 2 by {
        assert PowerOfTen(1) == 10 * PowerOfTen(0) == 10;
      }
      DecimalLength(n / 10, k - 1);
    }
  }

  /** A number read in decimal as a bit pattern; what is no finite pattern reads as an infinity. */
  function FromDecimal(n: nat): Double {
    if n < PATTERNS && Exponent(n) != SPECIAL_EXPONENT then Finite(n) else Infinite(false)
  }

  lemma DecimalIsLexeme(p: pattern)
    ensures Lexeme(Decimal(p))
  {
    hide PowerOfTen, Decimal;
    TwentyDigits();
    assert p < PATTERNS <= PowerOfTen(20);
    DecimalLength(p, 20);
  }

  /** What is printed in decimal is read back from its digits. */
  lemma DecimalScansBack(p: pattern)
    ensures DigitRun(Decimal(p)) == |Decimal(p)|
    ensures FromDecimal(DecimalValue(Decimal(p)[..DigitRun(Decimal(p))])) == Finite(p)
  {
    hide Decimal, DecimalValue, DigitRun;
    var s := Decimal(p);
    DecimalBack(p);
    assert s[..|s|] == s;
  }
}
