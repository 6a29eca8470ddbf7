/** How many bits the cosine table of engine/dlib/scripts/gen_trig_lookup.py needs for the
    precision that engine/dlib/scripts/trig_lookup_template.h guarantees. */
module TrigPrecision {
  import opened Basics
  import opened TrigLookup

  ghost predicate DoublesAt(f: real -> real, x: real) {
    f(x + x) == 2.0 * (f(x) * f(x)) - 1.0
  }

  /** What is used of cosine (with minus sine as its slope g). */
  ghost predicate Cosine(f: real -> real, g: real -> real, pi: real) {
    && PiBounds(pi) && Periodic(f, pi) && Lipschitz(f) && Smooth(f, g)
    && f(0.0) == 1.0 && f(pi) == -1.0 && forall x :: DoublesAt(f, x)
  }

  /** The documented precision at one angle. */
  ghost predicate Precise(f: real -> real, pi: real, s: Shape, x: real)
    requires s.Valid() && pi > 0.0
  {
    Abs(Cos(Table(f, pi, s), pi, s, x) - f(x)) < 0.001
  }

  // ---- half angles

  lemma {:induction false} AtHalfTurn(f: real -> real, g: real -> real, pi: real, u: real)
    requires Cosine(f, g, pi) && IsGridStep(pi, u)
    ensures Angle(u, 32768) == pi && At(f, u, 32768) == -1.0
  {
    AngleIsProduct(u, 32768);
  }

  lemma {:induction false} AtDouble(f: real -> real, g: real -> real, pi: real, u: real, h: nat)
    requires Cosine(f, g, pi)
    ensures At(f, u, 2 * h) == 2.0 * (At(f, u, h) * At(f, u, h)) - 1.0
  {
    AngleDifference(u, 2 * h, h);
    assert 2 * h - h == h;
    assert DoublesAt(f, Angle(u, h));
  }

  lemma {:induction false} AngleMonotone(u: real, h: nat, k: nat)
    requires u > 0.0 && h <= k
    ensures 0.0 <= Angle(u, h) <= Angle(u, k)
  {
    AngleNonNegative(u, h);
    AngleNonNegative(u, k - h);
    AngleDifference(u, k, h);
  }

  /** Up to an eighth of a turn cosine stays well above zero. */
  lemma {:induction false} StaysPositive(f: real -> real, g: real -> real, pi: real, u: real, h: nat)
    requires Cosine(f, g, pi) && IsGridStep(pi, u) && h <= 8192
    ensures At(f, u, h) > 0.2
  {
    AngleMonotone(u, h, 8192);
    AngleIsProduct(u, 8192);
    assert Close(f, Angle(u, h), 0.0);
  }

  lemma {:induction false} SquareStrictlyMonotone(a: real, b: real)
    requires 0.0 <= a < b
    ensures a * a < b * b
  {
    ScaleStrictly(0.0, b - a, b + a);
    assert (b - a) * (b + a) == b * b - a * a;
  }

  /** From a bound for the double angle to one for the angle. */
  lemma {:induction false} HalfBound(c: real, double: real, bound: real, root: real)
    requires 0.0 <= c && 0.0 <= root && double == 2.0 * (c * c) - 1.0 && double <= bound && (1.0 + bound) / 2.0 <= root * root
    ensures c <= root
  {
    if root < c {
      SquareStrictlyMonotone(root, c);
    }
  }

  lemma {:induction false} Halve(f: real -> real, g: real -> real, pi: real, u: real, h: nat, bound: real, root: real)
    requires Cosine(f, g, pi) && IsGridStep(pi, u) && h <= 8192
    requires At(f, u, 2 * h) <= bound && 0.0 <= root && (1.0 + bound) / 2.0 <= root * root
    ensures 0.2 < At(f, u, h) <= root
  {
    AtDouble(f, g, pi, u, h);
    StaysPositive(f, g, pi, u, h);
    HalfBound(At(f, u, h), At(f, u, 2 * h), bound, root);
  }

  /** Cosine at a quarter of a turn is 0, at an eighth the root of one half. */
  lemma {:induction false} EighthTurn(f: real -> real, g: real -> real, pi: real, u: real)
    requires Cosine(f, g, pi) && IsGridStep(pi, u)
    ensures At(f, u, 16384) == 0.0 && 0.7 < At(f, u, 8192) <= 0.70711
  {
    AtHalfTurn(f, g, pi, u);
    AtDouble(f, g, pi, u, 16384);
    SquareIsZero(At(f, u, 16384));
    Halve(f, g, pi, u, 8192, 0.0, 0.70711);
    AtDouble(f, g, pi, u, 8192);
    SquareIsHalf(At(f, u, 8192));
  }

  lemma {:induction false} SquareIsZero(c: real)
    requires 2.0 * (c * c) - 1.0 == -1.0
    ensures c == 0.0
  {
    var x := Abs(c);
    assert x * x == c * c;
    if x > 0.0 {
      SquareStrictlyMonotone(0.0, x);
    }
  }

  lemma {:induction false} SquareIsHalf(c: real)
    requires 0.0 < c && 2.0 * (c * c) - 1.0 == 0.0
    ensures c > 0.7
  {
    if c <= 0.7 {
      SquareMonotone(c, 0.7);
    }
  }

  /** Half the width of a cell. */
  function HalfCell(bits: nat): nat
    requires bits <= 15
  {
    Pow2(15 - bits)
  }

  lemma {:induction false} HalfCells(bits: nat)
    requires bits <= 15
    ensures bits > 0 ==> HalfCell(bits - 1) == 2 * HalfCell(bits)
    ensures HalfCell(2) == 8192 && (bits >= 2 ==> HalfCell(bits) <= 8192)
  {
    assert Pow2(4) == 16 && Pow2(8) == 16 * Pow2(4) && Pow2(12) == 16 * Pow2(8);
    if bits >= 2 {
      Pow2Monotone(15 - bits, 13);
    }
  }

  /** Bounds for cos(pi / 2^bits), each from the one before by the double-angle law. */
  function Bound(bits: nat): (b: real)
    requires 2 <= bits <= 6
    ensures 0.0 <= b <= 0.9988
  {
    match bits
    case 2 => 0.70711
    case 3 => 0.92389
    case 4 => 0.98079
    case 5 => 0.99519
    case _ => 0.9988
  }

  lemma {:induction false} BoundsFollow(bits: nat)
    requires 3 <= bits <= 6
    ensures (1.0 + Bound(bits - 1)) / 2.0 <= Bound(bits) * Bound(bits)
  {
  }

  lemma {:induction false} HalfwayValue(f: real -> real, g: real -> real, pi: real, u: real, bits: nat)
    requires Cosine(f, g, pi) && IsGridStep(pi, u) && 2 <= bits <= 6
    ensures 0.2 < At(f, u, HalfCell(bits)) <= Bound(bits)
  {
    HalfCells(bits);
    if bits == 2 {
      EighthTurn(f, g, pi, u);
    } else {
      HalfwayValue(f, g, pi, u, bits - 1);
      BoundsFollow(bits);
      Halve(f, g, pi, u, HalfCell(bits), Bound(bits - 1), Bound(bits));
    }
  }

  // ---- where small tables fail

  /** Halfway into the first cell, a table of a function with f(0) = 1 and cosine's
      double-angle law is too low by more than 0.001 if the value c there is at most 0.9989. */
  lemma {:induction false} HalfwayFallsShort(f: real -> real, pi: real, s: Shape, h: nat, u: real, c: real)
    requires s.Valid() && s.remainder == 2 * h && IsGridStep(pi, u) && Periodic(f, pi) && f(0.0) == 1.0
    requires c == At(f, u, h) && 0.0011 <= c <= 0.9989 && At(f, u, s.remainder) == 2.0 * (c * c) - 1.0
    ensures LookUp(Table(f, pi, s), s, h) < c - 0.001
  {
    MiddleOfFirstCell(f, pi, s, h, u, c);
    FallsShort(c);
  }

  lemma {:induction false} MiddleOfFirstCell(f: real -> real, pi: real, s: Shape, h: nat, u: real, c: real)
    requires s.Valid() && s.remainder == 2 * h && IsGridStep(pi, u) && Periodic(f, pi) && f(0.0) == 1.0
    requires At(f, u, s.remainder) == 2.0 * (c * c) - 1.0
    ensures LookUp(Table(f, pi, s), s, h) == c * c
  {
    HalfIndex(s, h);
    var lo, m, t := LookupInterpolates(f, pi, s, u, h);
    assert m == h && lo == 0;
    assert s.remainder as real == 2.0 * h as real;
    HalfWeight(t, h as real);
    HalfWay(t, c * c);
  }

  lemma {:induction false} HalfIndex(s: Shape, h: nat)
    requires s.Valid() && s.remainder == 2 * h
    ensures h < 65536 && h / s.remainder == 0 && h % s.remainder == h
  {
    MulMonotone(1, s.size, s.remainder);
  }

  lemma {:induction false} HalfWeight(t: real, h: real)
    requires h > 0.0 && t * (2.0 * h) == h
    ensures t == 0.5
  {
    assert t * (2.0 * h) == (2.0 * t) * h;
    EqualFactor(2.0 * t, 1.0, h);
  }

  lemma {:induction false} HalfWay(t: real, sq: real)
    requires t == 0.5
    ensures Lerp(t, 1.0, 2.0 * sq - 1.0) == sq
  {
  }

  lemma {:induction false} FallsShort(c: real)
    requires 0.0011 <= c <= 0.9989
    ensures c * c < c - 0.001
  {
    // between the bounds of c the product of the distances to them is not negative
    var x, y := c - 0.0011, 0.9989 - c;
    Scale(0.0, x, y);
    assert x * y == c * 0.9989 - c * c - 0.0011 * 0.9989 + 0.0011 * c;
  }

  /** The angle of a grid point has that point's index. */
  lemma {:induction false} IndexOfGridPoint(pi: real, u: real, h: nat)
    requires IsGridStep(pi, u) && h < 65536
    ensures Index(pi, Angle(u, h)) == h
  {
    AngleIsProduct(u, h);
    UnitScale(pi, u, h as real);
    assert Angle(u, h) * (32768.0 / pi) == h as real;
    assert Truncate(h as real) == h;
  }

  lemma {:induction false} UnitScale(pi: real, u: real, x: real)
    requires IsGridStep(pi, u)
    ensures (x * u) * (32768.0 / pi) == x
  {
    assert u * (32768.0 / pi) == 1.0;
    assert (x * u) * (32768.0 / pi) == x * (u * (32768.0 / pi));
  }

  lemma {:induction false} SmallTableFails(f: real -> real, g: real -> real, pi: real, s: Shape, h: nat, u: real)
    requires Cosine(f, g, pi) && IsGridStep(pi, u) && s.Valid() && s.remainder == 2 * h
    requires 0.2 < At(f, u, h) <= 0.9988
    ensures !Precise(f, pi, s, Angle(u, h))
  {
    AtDouble(f, g, pi, u, h);
    HalfwayFallsShort(f, pi, s, h, u, At(f, u, h));
    HalfIndex(s, h);
    IndexOfGridPoint(pi, u, h);
  }

  lemma {:induction false} TwoToSixBitsFail(f: real -> real, g: real -> real, pi: real, bits: nat, u: real)
    requires Cosine(f, g, pi) && IsGridStep(pi, u) && 2 <= bits <= 6
    ensures !Precise(f, pi, Generate(bits), Angle(u, HalfCell(bits)))
  {
    HalfwayValue(f, g, pi, u, bits);
    assert Generate(bits).remainder == 2 * HalfCell(bits);
    SmallTableFails(f, g, pi, Generate(bits), HalfCell(bits), u);
  }

  /** A table of two entries holds 1 and -1; an eighth of a turn it gives one half. */
  lemma {:induction false} OneBitFails(f: real -> real, g: real -> real, pi: real, u: real)
    requires Cosine(f, g, pi) && IsGridStep(pi, u)
    ensures !Precise(f, pi, Generate(1), Angle(u, 8192))
  {
    var s := Generate(1);
    HalfCells(2);
    assert s == Shape(2, 32768);
    var lo, m, t := LookupInterpolates(f, pi, s, u, 8192);
    assert m == 8192 && lo == 0;
    assert t == 0.25;
    AtHalfTurn(f, g, pi, u);
    EighthTurn(f, g, pi, u);
    IndexOfGridPoint(pi, u, 8192);
  }

  /** A table of one entry holds 1, so the lookup is 1 everywhere. */
  lemma {:induction false} NoBitsFail(f: real -> real, g: real -> real, pi: real, u: real)
    requires Cosine(f, g, pi) && IsGridStep(pi, u)
    ensures !Precise(f, pi, Generate(0), Angle(u, 32768))
  {
    var s := Generate(0);
    var table := Table(f, pi, s);
    assert s.size == 1;
    TableEntry(f, pi, s, u, 0);
    assert table[0] == 1.0;
    SameEnds(Weight(Index(pi, Angle(u, 32768)) % s.remainder, s.remainder), 1.0);
    AtHalfTurn(f, g, pi, u);
  }

  lemma {:induction false} SameEnds(t: real, v: real)
    ensures Lerp(t, v, v) == v
  {
  }

  /** With six bits or fewer there is an angle at which the lookup of cosine is off by 0.001
      or more. */
  lemma {:induction false} FewBitsAreNotEnough(f: real -> real, g: real -> real, pi: real, bits: nat) returns (x: real)
    requires Cosine(f, g, pi) && bits <= 6
    ensures Abs(Cos(Table(f, pi, Generate(bits)), pi, Generate(bits), x) - f(x)) >= 0.001
  {
    var u := pi / 32768.0;
    if bits == 0 {
      x := Angle(u, 32768);
      NoBitsFail(f, g, pi, u);
    } else if bits == 1 {
      x := Angle(u, 8192);
      OneBitFails(f, g, pi, u);
    } else {
      x := Angle(u, HalfCell(bits));
      TwoToSixBitsFail(f, g, pi, bits, u);
    }
    assert !Precise(f, pi, Generate(bits), x);
  }

  /** The documented precision holds at every angle if and only if the table has at least
      seven bits. */
  lemma {:induction false} PreciseIffSevenBits(f: real -> real, g: real -> real, pi: real, bits: nat)
    requires Cosine(f, g, pi) && bits <= 16
    ensures (forall x :: Precise(f, pi, Generate(bits), x)) <==> bits >= 7
  {
    if bits >= 7 {
      forall x
        ensures Precise(f, pi, Generate(bits), x)
      {
        DocumentedPrecision(f, g, pi, bits, x);
      }
    } else {
      var x := FewBitsAreNotEnough(f, g, pi, bits);
      assert !Precise(f, pi, Generate(bits), x);
    }
  }

  ghost predicate SinePrecise(f: real -> real, pi: real, s: Shape, x: real)
    requires s.Valid() && pi > 0.0
  {
    Abs(Sin(Table(f, pi, s), pi, s, x) - f(x - pi / 2.0)) < 0.001
  }

  /** The same for Sin, against cosine a quarter of a turn earlier. */
  lemma {:induction false} SinePreciseIffSevenBits(f: real -> real, g: real -> real, pi: real, bits: nat)
    requires Cosine(f, g, pi) && bits <= 16
    ensures (forall x :: SinePrecise(f, pi, Generate(bits), x)) <==> bits >= 7
  {
    if bits >= 7 {
      forall x
        ensures SinePrecise(f, pi, Generate(bits), x)
      {
        SinInherits(f, g, pi, bits, x);
      }
    } else {
      var x := FewBitsAreNotEnough(f, g, pi, bits);
      assert (x + pi / 2.0) - pi / 2.0 == x;
      assert !SinePrecise(f, pi, Generate(bits), x + pi / 2.0);
    }
  }
}
