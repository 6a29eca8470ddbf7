/** The cosine table of engine/dlib/scripts/gen_trig_lookup.py and its interpolating
    lookup in engine/dlib/scripts/trig_lookup_template.h, in exact arithmetic.
    Nothing about cosine is assumed beyond what each theorem names: it has period
    2 pi, it never changes faster than its argument, and it curves at most as fast as
    a unit circle. */
module TrigLookup {
  import opened Basics

  function Abs(x: real): real { if x >= 0.0 then x else -x }

  function Pow2(n: nat): (p: nat)
    ensures p > 0
  {
    if n == 0 then 1 else 2 * Pow2(n - 1)
  }

  /** What the generator puts into the template: the table size, and the number of
      16-bit indices per table cell, from which both masks and the weight follow. */
  datatype Shape = Shape(size: nat, remainder: nat) {
    ghost predicate Valid() { size > 0 && remainder > 0 && size * remainder == 65536 }
  }

  function Generate(bits: nat): (s: Shape)
    requires bits <= 16
    ensures s.Valid()
  {
    SizeTimesRemainder(bits);
    Shape(Pow2(bits), Pow2(16 - bits))
  }

  ghost predicate PiBounds(pi: real) { 3.1415 < pi < 3.1416 }

  /** Table entry v is the function at v * 2 pi / size. */
  ghost function Table(f: real -> real, pi: real, s: Shape): seq<real>
    requires s.Valid()
  {
    seq(s.size, v => Sample(f, v, 2.0 * pi / s.size as real))
  }

  ghost function Sample(f: real -> real, v: int, step: real): real { f(v as real * step) }

  /** (int32_t) of a real: truncation toward zero, for values that fit. */
  function Truncate(x: real): int {
    if x >= 0.0 then x.Floor else -((-x).Floor)
  }

  /** The 16-bit index of an angle: the mask 0xffff is a remainder modulo 65536, in
      two's complement also for negative numbers. */
  function Index(pi: real, radians: real): (index: nat)
    requires pi > 0.0
    ensures index < 65536
  {
    Truncate(radians * (32768.0 / pi)) % 65536
  }

  /** Linear interpolation. */
  function Lerp(t: real, v0: real, v1: real): real { (1.0 - t) * v0 + t * v1 }

  /** The weight of the far end for an index m steps into a cell of r. */
  function Weight(m: nat, r: nat): real
    requires r > 0
  {
    m as real * (1.0 / r as real)
  }

  /** Interpolation in the cell of a 16-bit index. Masks with 2^k - 1 are remainders
      modulo 2^k and the shift is a division. */
  function LookUp(table: seq<real>, s: Shape, index: nat): real
    requires s.Valid() && |table| == s.size
  {
    var t := Weight(index % s.remainder, s.remainder);
    var cell := (index / s.remainder) % s.size;
    Lerp(t, table[cell], table[(cell + 1) % s.size])
  }

  function Cos(table: seq<real>, pi: real, s: Shape, radians: real): real
    requires s.Valid() && |table| == s.size && pi > 0.0
  {
    LookUp(table, s, Index(pi, radians))
  }

  function Sin(table: seq<real>, pi: real, s: Shape, radians: real): real
    requires s.Valid() && |table| == s.size && pi > 0.0
  {
    Cos(table, pi, s, radians - pi / 2.0)
  }

  // ---- what is asked of the tabulated function

  ghost predicate Periodic(f: real -> real, pi: real) {
    forall x :: f(x + 2.0 * pi) == f(x)
  }

  ghost predicate Close(f: real -> real, x: real, y: real) {
    Abs(f(x) - f(y)) <= Abs(x - y)
  }

  /** Never changes faster than its argument. */
  ghost predicate Lipschitz(f: real -> real) {
    forall x, y :: Close(f, x, y)
  }

  ghost predicate NearTangent(f: real -> real, g: real -> real, x: real, y: real) {
    Abs(f(y) - f(x) - g(x) * (y - x)) <= (y - x) * (y - x) / 2.0
  }

  /** Stays within half the squared distance of its tangents, whose slopes are g. */
  ghost predicate Smooth(f: real -> real, g: real -> real) {
    forall x, y :: NearTangent(f, g, x, y)
  }

  // ---- arithmetic of cells

  lemma {:induction false} Pow2Add(a: nat, b: nat)
    ensures Pow2(a + b) == Pow2(a) * Pow2(b)
  {
    if a > 0 {
      Pow2Add(a - 1, b);
      MulAssoc(2, Pow2(a - 1), Pow2(b));
    }
  }

  lemma {:induction false} MulAssoc(a: int, b: int, c: int)
    ensures a * (b * c) == (a * b) * c
  {
  }

  lemma {:induction false} SizeTimesRemainder(bits: nat)
    requires bits <= 16
    ensures Pow2(bits) * Pow2(16 - bits) == 65536
  {
    Pow2Add(bits, 16 - bits);
    assert Pow2(4) == 16 && Pow2(8) == 16 * Pow2(4) && Pow2(12) == 16 * Pow2(8) && Pow2(16) == 16 * Pow2(12);
  }

  lemma {:induction false} DivMod(a: nat, d: nat)
    requires d > 0
    ensures a == (a / d) * d + a % d && 0 <= a % d < d
  {
  }

  lemma {:induction false} CellBound(cell: nat, r: nat, size: nat, index: nat)
    requires cell * r <= index < size * r
    ensures cell < size
  {
    if cell >= size {
      MulMonotone(size, cell, r);
    }
  }

  // ---- real arithmetic, in steps the solver takes one at a time

  lemma {:induction false} Scale(a: real, b: real, c: real)
    requires a <= b && 0.0 <= c
    ensures a * c <= b * c
  {
  }

  lemma {:induction false} ScaleStrictly(a: real, b: real, c: real)
    requires a < b && 0.0 < c
    ensures a * c < b * c
  {
  }

  lemma {:induction false} Cancel(a: real, b: real, c: real)
    requires a * c <= b * c && 0.0 < c
    ensures a <= b
  {
    if b < a {
      ScaleStrictly(b, a, c);
    }
  }

  lemma {:induction false} Negate(a: real, b: real)
    ensures (-a) * b == -(a * b)
  {
  }

  lemma {:induction false} AbsProduct(a: real, x: real, b: real)
    requires 0.0 <= a && Abs(x) <= b
    ensures Abs(a * x) <= a * b
  {
    Scale(x, b, a);
    Scale(-x, b, a);
    Negate(x, a);
  }

  /** Four times a product is at most the square of the sum. */
  lemma {:induction false} ProductAtMostQuarter(p: real, q: real)
    ensures 4.0 * (p * q) <= (p + q) * (p + q)
  {
    var d := p - q;
    assert d * d >= 0.0;
    assert (p + q) * (p + q) == d * d + 4.0 * (p * q);
  }

  /** The interpolation error times the cell width. */
  lemma {:induction false} ErrorTimesWidth(a: real, b: real, x: real, t: real, p: real, q: real, r: real, e: real)
    requires r == p + q && t * r == p && e == Lerp(t, a, b) - x
    ensures e * r == q * (a - x) + p * (b - x)
  {
    assert ((1.0 - t) * a) * r == a * (r - t * r);
    assert (t * b) * r == b * (t * r);
  }

  /** |e r| = |y + z| <= j + k <= b r gives |e| <= b. */
  lemma {:induction false} BoundBy(e: real, r: real, er: real, y: real, z: real, j: real, k: real, b: real, br: real)
    requires 0.0 < r && er == e * r && br == b * r
    requires er == y + z && Abs(y) <= j && Abs(z) <= k && j + k <= br
    ensures Abs(e) <= b
  {
    assert er <= br && -er <= br;
    Cancel(e, b, r);
    Negate(e, r);
    Cancel(-e, b, r);
  }

  /** p steps from a to x and q from x to b, all of length u. */
  lemma {:induction false} InterpolateLipschitz(a: real, b: real, x: real, t: real, p: real, q: real, r: real, u: real,
                             v: real, w: real, dv: real, dw: real, e: real, bound: real)
    requires 0.0 <= p && 0.0 <= q && 0.0 < r == p + q && 0.0 < u && t * r == p
    requires v == a - x && dv == p * u && Abs(v) <= dv
    requires w == b - x && dw == q * u && Abs(w) <= dw
    requires e == Lerp(t, a, b) - x && bound == r * u / 2.0
    ensures Abs(e) <= bound
  {
    assert e * r == q * v + p * w by {
      ErrorTimesWidth(a, b, x, t, p, q, r, e);
    }
    AbsProduct(q, v, dv);
    AbsProduct(p, w, dw);
    LipschitzTotal(p, q, r, u, dv, dw, bound);
    BoundBy(e, r, e * r, q * v, p * w, q * dv, p * dw, bound, bound * r);
  }

  lemma {:induction false} LipschitzTotal(p: real, q: real, r: real, u: real, dv: real, dw: real, bound: real)
    requires 0.0 < u && r == p + q && dv == p * u && dw == q * u && bound == r * u / 2.0
    ensures q * dv + p * dw <= bound * r
  {
    ProductAtMostQuarter(p, q);
    Scale(4.0 * (p * q), r * r, u);
    assert q * (p * u) == (p * q) * u && p * (q * u) == (p * q) * u;
    assert (4.0 * (p * q)) * u == 4.0 * ((p * q) * u);
    assert (r * u / 2.0) * r == (r * r) * u / 2.0;
  }

  /** The same with tangents: the slopes cancel, the squares remain. */
  lemma {:induction false} InterpolateSmooth(a: real, b: real, x: real, g: real, t: real, p: real, q: real, r: real, u: real,
                          v: real, w: real, d: real, c: real, dv: real, dw: real, e: real, bound: real)
    requires 0.0 <= p && 0.0 <= q && 0.0 < r == p + q && 0.0 < u && t * r == p
    requires d == p * u && v == a - x + g * d && Abs(v) <= dv == d * d / 2.0
    requires c == q * u && w == b - x - g * c && Abs(w) <= dw == c * c / 2.0
    requires e == Lerp(t, a, b) - x && bound == (r * u) * (r * u) / 8.0
    ensures Abs(e) <= bound
  {
    assert e * r == q * v + p * w by {
      ErrorTimesWidth(a, b, x, t, p, q, r, e);
      SlopesCancel(a - x, b - x, g, p, q, u);
    }
    AbsProduct(q, v, dv);
    AbsProduct(p, w, dw);
    SmoothTotal(p, q, r, u, d, c, dv, dw, bound);
    BoundBy(e, r, e * r, q * v, p * w, q * dv, p * dw, bound, bound * r);
  }

  lemma {:induction false} SmoothTotal(p: real, q: real, r: real, u: real, d: real, c: real, dv: real, dw: real, bound: real)
    requires 0.0 <= p && 0.0 <= q && r == p + q && 0.0 < u
    requires d == p * u && c == q * u && dv == d * d / 2.0 && dw == c * c / 2.0 && bound == (r * u) * (r * u) / 8.0
    ensures q * dv + p * dw <= bound * r
  {
    var s := u * u;
    SquaresAdd(p, q, u);
    ProductAtMostQuarter(p, q);
    Scale(4.0 * (p * q), r * r, s);
    assert (4.0 * (p * q)) * s == 4.0 * ((p * q) * s);
    assert (r * u) * (r * u) == (r * r) * s;
    Scale((p * q) * s / 2.0, (r * r) * s / 8.0, r);
  }

  lemma {:induction false} SlopesCancel(y: real, z: real, g: real, p: real, q: real, u: real)
    ensures q * (y + g * (p * u)) + p * (z - g * (q * u)) == q * y + p * z
  {
    assert q * (g * (p * u)) == p * (g * (q * u));
  }

  lemma {:induction false} SquaresAdd(p: real, q: real, u: real)
    ensures q * ((p * u) * (p * u) / 2.0) + p * ((q * u) * (q * u) / 2.0) == (p * q) * (u * u) * (p + q) / 2.0
  {
    assert (p * u) * (p * u) == (p * p) * (u * u);
    assert (q * u) * (q * u) == (q * q) * (u * u);
    var s := u * u;
    assert q * ((p * p) * s) == (p * q) * s * p;
    assert p * ((q * q) * s) == (p * q) * s * q;
  }

  // ---- angles on the grid of the 16-bit index

  /** k steps of u, counted out. */
  ghost function Angle(u: real, k: int): real
    decreases if k < 0 then -k else k
  {
    if k == 0 then 0.0 else if k > 0 then Angle(u, k - 1) + u else Angle(u, k + 1) - u
  }

  lemma {:induction false} AngleIsProduct(u: real, k: int)
    ensures Angle(u, k) == k as real * u
    decreases if k < 0 then -k else k
  {
    if k > 0 {
      AngleIsProduct(u, k - 1);
      Distribute(k as real, 1.0, u);
    } else if k < 0 {
      AngleIsProduct(u, k + 1);
      Distribute((k + 1) as real, 1.0, u);
    }
  }

  lemma {:induction false} Distribute(a: real, b: real, c: real)
    ensures (a - b) * c == a * c - b * c
  {
  }

  lemma {:induction false} AngleNext(u: real, k: int)
    ensures Angle(u, k + 1) == Angle(u, k) + u
  {
  }

  lemma {:induction false} AngleDifference(u: real, j: int, k: int)
    ensures Angle(u, j) - Angle(u, k) == Angle(u, j - k)
    decreases if k < 0 then -k else k
  {
    if k > 0 {
      AngleDifference(u, j, k - 1);
      AngleNext(u, j - k);
    } else if k < 0 {
      AngleDifference(u, j, k + 1);
      AngleNext(u, j - k - 1);
    }
  }

  lemma {:induction false} AngleNonNegative(u: real, k: nat)
    requires u > 0.0
    ensures Angle(u, k) >= 0.0
  {
    if k > 0 {
      AngleNonNegative(u, k - 1);
    }
  }

  /** The function at the k-th grid point. */
  ghost function At(f: real -> real, u: real, k: int): real { f(Angle(u, k)) }

  /** The grid step of a half circle: 65536 of them are a full turn. */
  ghost predicate IsGridStep(pi: real, u: real) {
    pi > 0.0 && u == pi / 32768.0
  }

  lemma {:induction false} FullTurn(pi: real, u: real)
    requires IsGridStep(pi, u)
    ensures u > 0.0 && Angle(u, 65536) == 2.0 * pi
  {
    AngleIsProduct(u, 65536);
  }

  lemma {:induction false} AtTurns(f: real -> real, pi: real, u: real, k: int, n: nat)
    requires Periodic(f, pi) && IsGridStep(pi, u)
    ensures At(f, u, k + 65536 * n) == At(f, u, k)
  {
    if n > 0 {
      AtTurns(f, pi, u, k, n - 1);
      var j := k + 65536 * (n - 1);
      FullTurn(pi, u);
      AngleDifference(u, j + 65536, j);
      assert Angle(u, j + 65536) == Angle(u, j) + 2.0 * pi;
      assert f(Angle(u, j) + 2.0 * pi) == f(Angle(u, j));
    }
  }

  /** Whole turns do not matter, in either direction. */
  lemma {:induction false} AtModulo(f: real -> real, pi: real, u: real, k: int)
    requires Periodic(f, pi) && IsGridStep(pi, u)
    ensures At(f, u, k % 65536) == At(f, u, k)
  {
    var q, m := k / 65536, k % 65536;
    assert k == m + 65536 * q;
    if q >= 0 {
      AtTurns(f, pi, u, m, q);
    } else {
      AtTurns(f, pi, u, k, -q);
    }
  }

  // ---- the lookup

  lemma {:induction false} TruncateClose(x: real)
    ensures Abs(x - Truncate(x) as real) < 1.0
  {
  }

  lemma {:induction false} ScaleBack(pi: real, u: real, radians: real, scaled: real)
    requires IsGridStep(pi, u) && scaled == radians * (32768.0 / pi)
    ensures scaled * u == radians
  {
    assert (32768.0 / pi) * u == 1.0;
    assert (radians * (32768.0 / pi)) * u == radians * ((32768.0 / pi) * u);
  }

  lemma {:induction false} WithinOneStep(s: real, k: real, u: real)
    requires Abs(s - k) < 1.0 && u > 0.0
    ensures Abs(s * u - k * u) <= u
  {
    Distribute(s, k, u);
    AbsProduct(u, s - k, 1.0);
  }

  /** Truncating the scaled angle moves it by less than one step. */
  lemma {:induction false} ScaledAngle(pi: real, u: real, radians: real)
    requires IsGridStep(pi, u)
    ensures Abs(radians - Angle(u, Truncate(radians * (32768.0 / pi)))) <= u
  {
    var s := radians * (32768.0 / pi);
    var k := Truncate(s);
    TruncateClose(s);
    ScaleBack(pi, u, radians, s);
    AngleIsProduct(u, k);
    WithinOneStep(s, k as real, u);
  }

  /** The function at the truncated angle is within one grid step of the function. */
  lemma {:induction false} GridClose(f: real -> real, pi: real, u: real, radians: real)
    requires IsGridStep(pi, u) && Periodic(f, pi) && Lipschitz(f)
    ensures Abs(At(f, u, Index(pi, radians)) - f(radians)) <= u
  {
    var k := Truncate(radians * (32768.0 / pi));
    ScaledAngle(pi, u, radians);
    assert Close(f, radians, Angle(u, k));
    AtModulo(f, pi, u, k);
  }

  lemma {:induction false} EqualFactor(a: real, b: real, c: real)
    requires a * c == b * c && c > 0.0
    ensures a == b
  {
    Cancel(a, b, c);
    Cancel(b, a, c);
  }

  /** One table step is r grid steps. */
  lemma {:induction false} StepIsCell(pi: real, u: real, s: Shape, step: real)
    requires IsGridStep(pi, u) && s.Valid() && step == 2.0 * pi / s.size as real
    ensures step == s.remainder as real * u
  {
    var n, m := s.size as real, s.remainder as real;
    assert n * m == (s.size * s.remainder) as real;
    assert step * n == 2.0 * pi;
    assert (m * u) * n == u * (n * m);
    EqualFactor(step, m * u, n);
  }

  lemma {:induction false} GridPoint(v: nat, r: nat, u: real, step: real)
    requires step == r as real * u
    ensures v as real * step == Angle(u, v * r)
  {
    AngleIsProduct(u, v * r);
    assert v as real * (r as real * u) == (v as real * r as real) * u;
    assert v as real * r as real == (v * r) as real;
  }

  lemma {:induction false} SampleAt(f: real -> real, v: nat, step: real, x: real)
    requires v as real * step == x
    ensures Sample(f, v, step) == f(x)
  {
  }

  lemma {:induction false} TableEntry(f: real -> real, pi: real, s: Shape, u: real, v: nat)
    requires s.Valid() && IsGridStep(pi, u) && v < s.size
    ensures Table(f, pi, s)[v] == At(f, u, v * s.remainder)
  {
    var step := 2.0 * pi / s.size as real;
    StepIsCell(pi, u, s, step);
    GridPoint(v, s.remainder, u, step);
    SampleAt(f, v, step, Angle(u, v * s.remainder));
  }

  lemma {:induction false} SmallModulo(a: nat, n: nat)
    requires a < n
    ensures a % n == a
  {
  }

  lemma {:induction false} WrappedEntry(f: real -> real, pi: real, s: Shape, u: real)
    requires s.Valid() && IsGridStep(pi, u) && Periodic(f, pi)
    ensures Table(f, pi, s)[0] == At(f, u, 65536)
  {
    TableEntry(f, pi, s, u, 0);
    AtTurns(f, pi, u, 0, 1);
  }

  /** The table holds the function at the far end of each cell, also where that wraps
      around to entry 0. */
  lemma {:induction false} NextEntry(f: real -> real, pi: real, s: Shape, u: real, cell: nat)
    requires s.Valid() && IsGridStep(pi, u) && Periodic(f, pi) && cell < s.size
    ensures Table(f, pi, s)[(cell + 1) % s.size] == At(f, u, (cell + 1) * s.remainder)
  {
    var next := cell + 1;
    if next < s.size {
      SmallModulo(next, s.size);
      TableEntry(f, pi, s, u, next);
    } else {
      assert next == s.size && next % s.size == 0;
      WrappedEntry(f, pi, s, u);
    }
  }

  /** Index = cell * r + m, with the cell inside the table. */
  lemma {:induction false} Decompose(s: Shape, index: nat) returns (cell: nat, m: nat)
    requires s.Valid() && index < 65536
    ensures index == cell * s.remainder + m && m < s.remainder && cell < s.size
    ensures m == index % s.remainder && cell == (index / s.remainder) % s.size
  {
    cell, m := index / s.remainder, index % s.remainder;
    DivMod(index, s.remainder);
    CellBound(cell, s.remainder, s.size, index);
    SmallModulo(cell, s.size);
  }

  lemma {:induction false} WeightTimesWidth(m: nat, r: nat)
    requires r > 0
    ensures Weight(m, r) * r as real == m as real
  {
    assert (1.0 / r as real) * r as real == 1.0;
    assert (m as real * (1.0 / r as real)) * r as real == m as real * ((1.0 / r as real) * r as real);
  }

  /** The lookup interpolates the function on the grid: t of the way from grid point
      `lo`, the near end of a cell, to the far end. */
  lemma {:induction false} LookupInterpolates(f: real -> real, pi: real, s: Shape, u: real, index: nat)
    returns (lo: nat, m: nat, t: real)
    requires s.Valid() && IsGridStep(pi, u) && Periodic(f, pi) && index < 65536
    ensures m == index % s.remainder < s.remainder && index == lo + m && t * s.remainder as real == m as real
    ensures LookUp(Table(f, pi, s), s, index) == Lerp(t, At(f, u, lo), At(f, u, lo + s.remainder))
  {
    var table := Table(f, pi, s);
    var cell: nat;
    cell, m := Decompose(s, index);
    lo := cell * s.remainder;
    t := Weight(m, s.remainder);
    WeightTimesWidth(m, s.remainder);
    EntriesOfCell(f, pi, s, u, cell, lo);
    assert LookUp(table, s, index) == Lerp(t, table[cell], table[(cell + 1) % s.size]);
  }

  lemma {:induction false} EntriesOfCell(f: real -> real, pi: real, s: Shape, u: real, cell: nat, lo: nat)
    requires s.Valid() && IsGridStep(pi, u) && Periodic(f, pi) && cell < s.size && lo == cell * s.remainder
    ensures Table(f, pi, s)[cell] == At(f, u, lo)
    ensures Table(f, pi, s)[(cell + 1) % s.size] == At(f, u, lo + s.remainder)
  {
    TableEntry(f, pi, s, u, cell);
    NextEntry(f, pi, s, u, cell);
    assert (cell + 1) * s.remainder == lo + s.remainder;
  }

  /** The ends of a cell lie m grid steps behind and r - m steps ahead. */
  lemma {:induction false} CellAngles(u: real, r: nat, lo: nat, m: nat)
    requires u > 0.0 && m < r
    ensures Angle(u, lo + m) - Angle(u, lo) == Angle(u, m) == m as real * u >= 0.0
    ensures Angle(u, lo + r) - Angle(u, lo + m) == Angle(u, r - m) == (r - m) as real * u >= 0.0
  {
    AngleDifference(u, lo + m, lo);
    AngleDifference(u, lo + r, lo + m);
    AngleIsProduct(u, m);
    AngleIsProduct(u, r - m);
    AngleNonNegative(u, m);
    AngleNonNegative(u, r - m);
  }

  /** On every cell of a Lipschitz function, interpolation errs by at most half the
      cell width r u. */
  lemma {:induction false} CellErrorLipschitz(f: real -> real, u: real, r: nat, lo: nat, m: nat, t: real, value: real, bound: real)
    requires Lipschitz(f) && u > 0.0 && m < r && t * r as real == m as real && bound == r as real * u / 2.0
    requires value == Lerp(t, At(f, u, lo), At(f, u, lo + r))
    ensures Abs(value - At(f, u, lo + m)) <= bound
  {
    var a, b, x := At(f, u, lo), At(f, u, lo + r), At(f, u, lo + m);
    var d, c := Angle(u, m), Angle(u, r - m);
    assert Abs(a - x) <= d && Abs(b - x) <= c by {
      CellAngles(u, r, lo, m);
      assert Close(f, Angle(u, lo), Angle(u, lo + m)) && Close(f, Angle(u, lo + r), Angle(u, lo + m));
    }
    assert d == m as real * u && c == (r - m) as real * u by {
      CellAngles(u, r, lo, m);
    }
    InterpolateLipschitz(a, b, x, t, m as real, (r - m) as real, r as real, u, a - x, b - x, d, c, value - x, bound);
  }

  /** On every cell of a smooth function, it errs by at most an eighth of the squared
      cell width. */
  lemma {:induction false} CellErrorSmooth(f: real -> real, g: real -> real, u: real, r: nat, lo: nat, m: nat, t: real, value: real, bound: real)
    requires Smooth(f, g) && u > 0.0 && m < r && t * r as real == m as real
    requires bound == (r as real * u) * (r as real * u) / 8.0
    requires value == Lerp(t, At(f, u, lo), At(f, u, lo + r))
    ensures Abs(value - At(f, u, lo + m)) <= bound
  {
    var slope, v, w, d, c, dv, dw := TangentsOfCell(f, g, u, r, lo, m);
    InterpolateSmooth(At(f, u, lo), At(f, u, lo + r), At(f, u, lo + m), slope, t, m as real, (r - m) as real, r as real,
                      u, v, w, d, c, dv, dw, value - At(f, u, lo + m), bound);
  }

  /** Both ends of a cell against the tangent at a grid point inside it. */
  lemma {:induction false} TangentsOfCell(f: real -> real, g: real -> real, u: real, r: nat, lo: nat, m: nat)
    returns (slope: real, v: real, w: real, d: real, c: real, dv: real, dw: real)
    requires Smooth(f, g) && u > 0.0 && m < r
    ensures d == m as real * u && v == At(f, u, lo) - At(f, u, lo + m) + slope * d && Abs(v) <= dv == d * d / 2.0
    ensures c == (r - m) as real * u && w == At(f, u, lo + r) - At(f, u, lo + m) - slope * c && Abs(w) <= dw == c * c / 2.0
  {
    var x := Angle(u, lo + m);
    slope, d, c := g(x), m as real * u, (r - m) as real * u;
    assert Angle(u, lo) - x == -d && Angle(u, lo + r) - x == c by {
      CellAngles(u, r, lo, m);
    }
    v, dv := TangentBehind(f, g, x, Angle(u, lo), d);
    w, dw := TangentAhead(f, g, x, Angle(u, lo + r), c);
  }

  lemma {:induction false} TangentAhead(f: real -> real, g: real -> real, x: real, y: real, d: real) returns (w: real, dw: real)
    requires Smooth(f, g) && y - x == d
    ensures w == f(y) - f(x) - g(x) * d && dw == d * d / 2.0 && Abs(w) <= dw
  {
    assert NearTangent(f, g, x, y);
    w, dw := f(y) - f(x) - g(x) * d, d * d / 2.0;
  }

  lemma {:induction false} TangentBehind(f: real -> real, g: real -> real, x: real, y: real, d: real) returns (v: real, dv: real)
    requires Smooth(f, g) && y - x == -d
    ensures v == f(y) - f(x) + g(x) * d && dv == d * d / 2.0 && Abs(v) <= dv
  {
    assert NearTangent(f, g, x, y);
    Negate(d, g(x));
    assert (-d) * (-d) == d * d;
    v, dv := f(y) - f(x) + g(x) * d, d * d / 2.0;
  }

  lemma {:induction false} Chain(a: real, b: real, c: real, j: real, k: real)
    requires Abs(a - b) <= j && Abs(b - c) <= k
    ensures Abs(a - c) <= j + k
  {
  }

  /** The lookup of a grid point, at a bound that holds on every cell. */
  lemma {:induction false} LookUpErrorLipschitz(f: real -> real, pi: real, s: Shape, u: real, index: nat, bound: real)
    requires s.Valid() && IsGridStep(pi, u) && Periodic(f, pi) && Lipschitz(f) && index < 65536
    requires bound == s.remainder as real * u / 2.0
    ensures Abs(LookUp(Table(f, pi, s), s, index) - At(f, u, index)) <= bound
  {
    var lo, m, t := LookupInterpolates(f, pi, s, u, index);
    CellErrorLipschitz(f, u, s.remainder, lo, m, t, LookUp(Table(f, pi, s), s, index), bound);
  }

  lemma {:induction false} LookUpErrorSmooth(f: real -> real, g: real -> real, pi: real, s: Shape, u: real, index: nat, bound: real)
    requires s.Valid() && IsGridStep(pi, u) && Periodic(f, pi) && Smooth(f, g) && index < 65536
    requires bound == (s.remainder as real * u) * (s.remainder as real * u) / 8.0
    ensures Abs(LookUp(Table(f, pi, s), s, index) - At(f, u, index)) <= bound
  {
    var lo, m, t := LookupInterpolates(f, pi, s, u, index);
    CellErrorSmooth(f, g, u, s.remainder, lo, m, t, LookUp(Table(f, pi, s), s, index), bound);
  }

  /** For every angle and every table size, the lookup of a 2 pi periodic Lipschitz
      function is off by at most half a table step plus one grid step. */
  lemma {:induction false} CosErrorLipschitz(f: real -> real, pi: real, s: Shape, radians: real, u: real, step: real)
    requires s.Valid() && IsGridStep(pi, u) && Periodic(f, pi) && Lipschitz(f)
    requires step == 2.0 * pi / s.size as real
    ensures Abs(Cos(Table(f, pi, s), pi, s, radians) - f(radians)) <= step / 2.0 + u
  {
    var index := Index(pi, radians);
    StepIsCell(pi, u, s, step);
    LookUpErrorLipschitz(f, pi, s, u, index, step / 2.0);
    GridClose(f, pi, u, radians);
    Chain(LookUp(Table(f, pi, s), s, index), At(f, u, index), f(radians), step / 2.0, u);
  }

  /** For a smooth one it is off by at most an eighth of the squared table step plus
      one grid step. */
  lemma {:induction false} CosErrorSmooth(f: real -> real, g: real -> real, pi: real, s: Shape, radians: real, u: real, step: real)
    requires s.Valid() && IsGridStep(pi, u) && Periodic(f, pi) && Lipschitz(f) && Smooth(f, g)
    requires step == 2.0 * pi / s.size as real
    ensures Abs(Cos(Table(f, pi, s), pi, s, radians) - f(radians)) <= step * step / 8.0 + u
  {
    var index := Index(pi, radians);
    StepIsCell(pi, u, s, step);
    LookUpErrorSmooth(f, g, pi, s, u, index, step * step / 8.0);
    GridClose(f, pi, u, radians);
    Chain(LookUp(Table(f, pi, s), s, index), At(f, u, index), f(radians), step * step / 8.0, u);
  }

  // ---- the documented precision

  lemma {:induction false} Pow2Monotone(a: nat, b: nat)
    requires a <= b
    ensures Pow2(a) <= Pow2(b)
  {
    if a < b {
      Pow2Monotone(a, b - 1);
    }
  }

  lemma {:induction false} StepShrinks(pi: real, n: nat, size: nat)
    requires pi > 0.0 && 0 < n <= size
    ensures 0.0 < 2.0 * pi / size as real <= 2.0 * pi / n as real
  {
    var x, y := 2.0 * pi / size as real, 2.0 * pi / n as real;
    assert x * size as real == 2.0 * pi && y * n as real == 2.0 * pi;
    Scale(n as real, size as real, y);
    Cancel(x, y, size as real);
  }

  lemma {:induction false} SquareMonotone(a: real, b: real)
    requires 0.0 <= a <= b
    ensures a * a <= b * b
  {
    Scale(a, b, a);
    Scale(a, b, b);
  }

  /** Tables of 12 to 16 bits meet the documented 0.001 for every periodic Lipschitz
      function. */
  lemma {:induction false} DocumentedPrecisionLipschitz(f: real -> real, pi: real, bits: nat, radians: real)
    requires 12 <= bits <= 16 && PiBounds(pi) && Periodic(f, pi) && Lipschitz(f)
    ensures Abs(Cos(Table(f, pi, Generate(bits)), pi, Generate(bits), radians) - f(radians)) < 0.001
  {
    var s, u := Generate(bits), pi / 32768.0;
    Pow2Monotone(12, bits);
    assert Pow2(4) == 16 && Pow2(8) == 16 * Pow2(4) && Pow2(12) == 16 * Pow2(8);
    StepShrinks(pi, 4096, s.size);
    CosErrorLipschitz(f, pi, s, radians, u, 2.0 * pi / s.size as real);
  }

  /** With cosine's bound on curvature, 7 bits are enough, which is what the table that
      ships in engine/dlib/src/dlib/trig_lookup.h has. */
  lemma {:induction false} DocumentedPrecision(f: real -> real, g: real -> real, pi: real, bits: nat, radians: real)
    requires 7 <= bits <= 16 && PiBounds(pi) && Periodic(f, pi) && Lipschitz(f) && Smooth(f, g)
    ensures Abs(Cos(Table(f, pi, Generate(bits)), pi, Generate(bits), radians) - f(radians)) < 0.001
  {
    var s, u, step := Generate(bits), pi / 32768.0, 2.0 * pi / Generate(bits).size as real;
    Pow2Monotone(7, bits);
    assert Pow2(3) == 8 && Pow2(7) == 16 * Pow2(3);
    StepShrinks(pi, 128, s.size);
    SquareMonotone(step, 0.05);
    CosErrorSmooth(f, g, pi, s, radians, u, step);
  }

  /** Sin looks up the function a quarter turn earlier, with the same precision. */
  lemma {:induction false} SinInherits(f: real -> real, g: real -> real, pi: real, bits: nat, radians: real)
    requires 7 <= bits <= 16 && PiBounds(pi) && Periodic(f, pi) && Lipschitz(f) && Smooth(f, g)
    ensures Abs(Sin(Table(f, pi, Generate(bits)), pi, Generate(bits), radians) - f(radians - pi / 2.0)) < 0.001
  {
    DocumentedPrecision(f, g, pi, bits, radians - pi / 2.0);
  }
}
