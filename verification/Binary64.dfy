/** The numbers that double patterns stand for, as section 3.4 of IEEE 754 gives them, and their order. */
module Binary64 {
  import opened Doubles

  function TwoTo(k: int): (r: real)
    ensures r > 0.0
    decreases if k >= 0 then k else -k
  {
    if k == 0 then 1.0 else if k > 0 then 2.0 * TwoTo(k - 1) else TwoTo(k + 1) / 2.0
  }

  lemma TwoToNext(k: int)
    ensures TwoTo(k + 1) == 2.0 * TwoTo(k)
  {
  }

  lemma {:induction false} TwoToGrows(k: int, l: int)
    requires k <= l
    ensures TwoTo(k) <= TwoTo(l)
    decreases l - k
  {
    if k < l {
      TwoToGrows(k, l - 1);
      TwoToNext(l - 1);
    }
  }

  lemma {:induction false} TwoToLess(k: int, n: nat)
    ensures TwoTo(k - n) * PowerOfTwo(n) as real == TwoTo(k)
    decreases n
  {
    hide TwoTo;
    if n > 0 {
      TwoToLess(k, n - 1);
      TwoToNext(k - n);
      Doubled(TwoTo(k - n), PowerOfTwo(n - 1));
    }
  }

  lemma Doubled(x: real, n: nat)
    ensures x * (2 * n) as real == 2.0 * x * n as real
  {
  }

  lemma {:induction false} TwoToPositive(k: nat)
    ensures TwoTo(k) == PowerOfTwo(k) as real
    decreases k
  {
    if k > 0 { TwoToPositive(k - 1); }
  }

  lemma TwoToNegative(k: nat)
    ensures TwoTo(0 - k) == 1.0 / PowerOfTwo(k) as real
  {
    TwoToLess(0, k);
  }

  lemma Power52()
    ensures PowerOfTwo(52) == 0x10_0000_0000_0000
  {
    assert PowerOfTwo(13) == 0x2000;
    assert PowerOfTwo(26) == 0x2000 * 0x2000;
    assert PowerOfTwo(39) == 0x2000 * 0x2000 * 0x2000;
  }

  /** The value of exponent and trailing significand field. */
  function StandardSize(e: nat, t: nat): real {
    var part := t as real / 4503599627370496.0;
    if e == 0 then TwoTo(-1022) * part else TwoTo(e - 1023) * (1.0 + part)
  }

  function StandardValue(n: nat): real {
    var size := StandardSize(n / 0x10_0000_0000_0000 % 0x800, n % 0x10_0000_0000_0000);
    if n >= 0x8000_0000_0000_0000 then -size else size
  }

  /** The distance between two neighbours of one exponent, and how many of them a number is. */
  function Unit(p: pattern): (u: real)
    ensures u > 0.0
  {
    TwoTo((if Exponent(p) == 0 then 1 else Exponent(p)) - 1075)
  }

  function Units(p: pattern): nat {
    if Exponent(p) == 0 then p % 0x10_0000_0000_0000 else 0x10_0000_0000_0000 + p % 0x10_0000_0000_0000
  }

  /** So many units; by name, so that a proof need not look at the product. */
  function Times(n: nat, u: real): real {
    n as real * u
  }

  lemma RealOfUnits(p: pattern)
    ensures RealOf(p) == if p >= SIGN then -Times(Units(p), Unit(p)) else Times(Units(p), Unit(p))
  {
    hide TwoTo, PowerOfTwo;
    var k := (if Exponent(p) == 0 then 1 else Exponent(p)) - 1075;
    if k >= 0 {
      TwoToPositive(k);
      assert (Units(p) * PowerOfTwo(k)) as real == Units(p) as real * PowerOfTwo(k) as real;
    } else {
      TwoToNegative(-k);
    }
  }

  lemma Scaled(x: real, u: real, n: real, part: real)
    requires u * 4503599627370496.0 == x && n == part * 4503599627370496.0
    ensures n * u == x * part
  {
  }

  lemma SizeInUnits(e: nat, t: nat)
    ensures var n := if e == 0 then t else 0x10_0000_0000_0000 + t;
            StandardSize(e, t) == n as real * TwoTo((if e == 0 then 1 else e) - 1075)
  {
    hide TwoTo, PowerOfTwo;
    var k := (if e == 0 then 1 else e) - 1023;
    TwoToLess(k, 52);
    Power52();
    var part := t as real / 4503599627370496.0;
    if e == 0 {
      Scaled(TwoTo(k), TwoTo(k - 52), t as real, part);
    } else {
      Scaled(TwoTo(k), TwoTo(k - 52), (0x10_0000_0000_0000 + t) as real, 1.0 + part);
    }
  }

  /** Every pattern stands for the number the standard gives it. */
  lemma RealOfIsStandard(p: pattern)
    ensures RealOf(p) == StandardValue(p)
  {
    hide TwoTo, RealOf, StandardSize;
    RealOfUnits(p);
    SizeInUnits(Exponent(p), p % 0x10_0000_0000_0000);
  }

  lemma Larger(m: nat, n: nat, u: real)
    requires m < n && u > 0.0
    ensures Times(m, u) < Times(n, u)
  {
  }

  lemma AtLeast(m: nat, n: nat, u: real, v: real)
    requires m <= n && 0.0 < u <= v
    ensures Times(m, u) <= Times(n, v)
  {
    assert m as real * u <= n as real * u <= n as real * v;
  }

  /** The fields order the patterns. */
  lemma FieldsOrder(p: pattern, q: pattern)
    requires p < q < SIGN
    ensures Exponent(p) <= Exponent(q) && (Exponent(p) == Exponent(q) ==> Units(p) < Units(q))
    ensures Units(p) < if Exponent(p) == 0 then 0x10_0000_0000_0000 else 0x20_0000_0000_0000
    ensures Exponent(q) > 0 ==> Units(q) >= 0x10_0000_0000_0000
  {
  }

  lemma UnitsGrow(p: pattern, q: pattern)
    requires Exponent(p) < Exponent(q)
    ensures (if Exponent(p) == 0 then 1.0 else 2.0) * Unit(p) <= Unit(q)
  {
    hide TwoTo, Exponent;
    if Exponent(p) == 0 {
      TwoToGrows(-1074, Exponent(q) - 1075);
    } else {
      TwoToNext(Exponent(p) - 1075);
      TwoToGrows(Exponent(p) - 1074, Exponent(q) - 1075);
    }
  }

  /** Below the next exponent, whose unit is larger, or twice as large if this one is not the least. */
  lemma NextExponent(m: nat, n: nat, u: real, v: real, least: bool)
    requires m < (if least then 0x10_0000_0000_0000 else 0x20_0000_0000_0000) && n >= 0x10_0000_0000_0000
    requires 0.0 < u && (if least then 1.0 else 2.0) * u <= v
    ensures Times(m, u) < Times(n, v)
  {
    if least {
      Larger(m, 0x10_0000_0000_0000, u);
      AtLeast(0x10_0000_0000_0000, n, u, v);
    } else {
      Larger(m, 0x20_0000_0000_0000, u);
      AtLeast(0x10_0000_0000_0000, n, 2.0 * u, v);
    }
  }

  /** Without the sign bit numbers are ordered as their patterns are. */
  lemma Ordered(p: pattern, q: pattern)
    requires p < q < SIGN
    ensures RealOf(p) < RealOf(q)
  {
    RealOfUnits(p);
    RealOfUnits(q);
    FieldsOrder(p, q);
    hide *;
    if Exponent(p) == Exponent(q) {
      SameUnit(p, q);
      Larger(Units(p), Units(q), Unit(p));
    } else {
      UnitsGrow(p, q);
      NextExponent(Units(p), Units(q), Unit(p), Unit(q), Exponent(p) == 0);
    }
  }

  lemma SameUnit(p: pattern, q: pattern)
    requires Exponent(p) == Exponent(q)
    ensures Unit(p) == Unit(q)
  {
  }

  lemma Mirrored(p: pattern)
    requires p < SIGN
    ensures Exponent(p + SIGN) == Exponent(p) && RealOf(p + SIGN) == -RealOf(p)
  {
    hide RealOf, TwoTo;
    assert (p + SIGN) % 0x10_0000_0000_0000 == p % 0x10_0000_0000_0000;
    RealOfUnits(p);
    RealOfUnits(p + SIGN);
  }

  lemma Unsigned(p: pattern)
    ensures p >= SIGN ==> Exponent(p - SIGN) == Exponent(p)
  {
  }

  lemma ZeroIsZero()
    ensures RealOf(0) == 0.0
  {
    hide RealOf, TwoTo;
    RealOfUnits(0);
  }

  lemma Zero(p: pattern)
    ensures IsZero(Finite(p)) <==> RealOf(p) == 0.0
    ensures p < SIGN ==> RealOf(p) >= 0.0
    ensures p >= SIGN ==> RealOf(p) <= 0.0
  {
    ZeroIsZero();
    hide RealOf;
    Unsigned(p);
    var size: pattern := if p >= SIGN then p - SIGN else p;
    hide Exponent;
    Mirrored(size);
    if size > 0 { Ordered(0, size); }
  }

  /** Doubles are equal if and only if the numbers are; infinities if the signs are, and NaN never. */
  lemma EqualAsNumbers(a: Double, b: Double)
    ensures DoubleEq(a, b) <==> match (a, b)
                                case (Finite(p), Finite(q)) => RealOf(p) == RealOf(q)
                                case (Infinite(s), Infinite(t)) => s == t
                                case _ => false
  {
    hide RealOf, Exponent;
    match (a, b)
    case (Finite(p), Finite(q)) =>
      Zero(p);
      Zero(q);
      Unsigned(p);
      Unsigned(q);
      if p < SIGN && q < SIGN {
        if p < q { Ordered(p, q); } else if q < p { Ordered(q, p); }
      } else if p >= SIGN && q >= SIGN {
        Mirrored(p - SIGN);
        Mirrored(q - SIGN);
        if p < q { Ordered(p - SIGN, q - SIGN); } else if q < p { Ordered(q - SIGN, p - SIGN); }
      }
    case _ =>
  }

  /** The integer of every double, with the ends of the range in numbers. */
  lemma SaturatedAsNumber(d: Double)
    ensures var r := Saturated(d);
            match d
            case Nan => r == -2147483648
            case Infinite(negative) => r == if negative then -2147483648 else 2147483647
            case Finite(p) =>
              && (StandardValue(p) >= 2147483647.0 ==> r == 2147483647)
              && (StandardValue(p) <= -2147483648.0 ==> r == -2147483648)
              && (-2147483648.0 < StandardValue(p) < 2147483647.0 ==>
                    if StandardValue(p) >= 0.0 then r as real <= StandardValue(p) < r as real + 1.0
                    else r as real - 1.0 < StandardValue(p) <= r as real)
  {
    hide RealOf, StandardValue;
    if d.Finite? { RealOfIsStandard(d.bits); }
  }

  /** The shorter text is printed exactly if reading it back gives the number printed. */
  lemma ShownShortIfExact(c: Codec, p: pattern)
    requires c.Valid()
    ensures var back := c.strtod(c.g15(p)).value;
            c.Show(p) == if back.Finite? && StandardValue(back.bits) == StandardValue(p) then c.g15(p) else c.g17(p)
  {
    hide RealOf, StandardValue, DoubleEq;
    var back := c.strtod(c.g15(p)).value;
    EqualAsNumbers(back, Finite(p));
    RealOfIsStandard(p);
    if back.Finite? { RealOfIsStandard(back.bits); }
    assert Lexeme(c.g15(p)) && c.strtod(c.g15(p)).used == |c.g15(p)|;
  }
}
