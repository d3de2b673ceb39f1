// The perceptual hash: a 2-D DCT of the grayscale grid, and one bit per low-frequency
// coefficient. Exact real arithmetic.
module PHash {
  import opened Bits

  const GRID_SIZE: nat := 32
  const DCT_SIZE: nat := 8

  // Cosine and sine by angle, in units of pi / 2n for a grid of size n; root is the square root of two.
  datatype Trig = Trig(cos: int -> real, sin: int -> real, root: real)

  function HalfTurns(n: nat, m: int): int {
    2 * n * m
  }

  ghost predicate SumFormula(t: Trig, a: int, b: int) {
    t.sin(a + b) - t.sin(a - b) == 2.0 * t.cos(a) * t.sin(b)
  }

  ghost predicate ProductFormula(t: Trig, a: int, b: int) {
    2.0 * t.cos(a) * t.cos(b) == t.cos(a + b) + t.cos(a - b)
  }

  // What is used of trigonometry: the sum formula for the sine, the product formula for the cosine,
  // the zeros of the sine at whole half turns and nowhere inside the first one, and cos 0 = 1.
  ghost predicate IsTrig(t: Trig, n: nat) {
    && (forall a: int, b: int :: SumFormula(t, a, b))
    && (forall a: int, b: int :: ProductFormula(t, a, b))
    && (forall m: int :: t.sin(HalfTurns(n, m)) == 0.0)
    && (forall b: int | 0 < b < 2 * n :: t.sin(b) != 0.0)
    && t.cos(0) == 1.0 && t.root != 0.0
  }

  predicate IsRootOfTwo(r: real) {
    r > 0.0 && r * r == 2.0
  }

  // The angle of sample x at frequency u.
  function Angle(x: nat, u: nat): int {
    (2 * x + 1) * u
  }

  function Scale(t: Trig, u: nat): real
    requires t.root != 0.0
  {
    if u == 0 then 1.0 / t.root else 1.0
  }

  // ---- sums -------------------------------------------------------------------------------------------------

  function Sum(f: nat -> real, m: nat): real {
    if m == 0 then 0.0 else Sum(f, m - 1) + f(m - 1)
  }

  lemma LinearStep(k: real, c: real, f: real, g: real, h: real, f': real, g': real, h': real)
    requires g == k * f + c * h && g' == k * f' + c * h'
    ensures g + g' == k * (f + f') + c * (h + h')
  {
  }

  lemma {:induction false} SumLinear(f: nat -> real, g: nat -> real, h: nat -> real, k: real, c: real, m: nat)
    requires forall i: nat | i < m :: g(i) == k * f(i) + c * h(i)
    ensures Sum(g, m) == k * Sum(f, m) + c * Sum(h, m)
  {
    if m > 0 {
      SumLinear(f, g, h, k, c, m - 1);
      LinearStep(k, c, Sum(f, m - 1), Sum(g, m - 1), Sum(h, m - 1), f(m - 1), g(m - 1), h(m - 1));
    }
  }

  // ---- the transform as a double sum ----------------------------------------------------------------------

  function Pixel(p: seq<real>, n: nat, x: nat, y: nat): real {
    if x * n + y < |p| then p[x * n + y] else 0.0
  }

  // The summands of row x for coefficient (u, v), the row sums, and the cosines of frequency u.
  function Term(t: Trig, p: seq<real>, n: nat, u: nat, v: nat, x: nat): nat -> real {
    (y: nat) => Pixel(p, n, x, y) * t.cos(Angle(x, u)) * t.cos(Angle(y, v))
  }

  function Row(t: Trig, p: seq<real>, n: nat, u: nat, v: nat): nat -> real {
    (x: nat) => Sum(Term(t, p, n, u, v, x), n)
  }

  function Cosines(t: Trig, u: nat): nat -> real {
    (x: nat) => t.cos(Angle(x, u))
  }

  lemma InGrid(n: nat, x: nat, y: nat)
    requires x < n && y < n
    ensures 0 <= x * n + y < n * n
  {
    assert x * n + y < x * n + n == (x + 1) * n <= n * n;
  }

  function Scaling(n: nat, cu: real, cv: real, sum: real): real
    requires n > 0
  {
    2.0 / (n as real) * cu * cv * sum
  }

  function Coefficient(t: Trig, p: seq<real>, n: nat, u: nat, v: nat): real
    requires n > 0 && t.root != 0.0
  {
    Scaling(n, Scale(t, u), Scale(t, v), Sum(Row(t, p, n, u, v), n))
  }

  // The inner loop: sum on with the summands of row x.
  method AddRow(t: Trig, p: seq<real>, n: nat, u: nat, v: nat, x: nat, start: real) returns (sum: real)
    requires |p| == n * n && x < n
    ensures sum == start + Sum(Term(t, p, n, u, v, x), n)
  {
    sum := start;
    ghost var terms := Term(t, p, n, u, v, x);
    var cosU := t.cos(Angle(x, u));
    for y := 0 to n
      invariant sum == start + Sum(terms, y)
    {
      var cosV := t.cos(Angle(y, v));
      InGrid(n, x, y);
      sum := sum + p[x * n + y] * cosU * cosV;
    }
  }

  method SumCoefficient(t: Trig, p: seq<real>, n: nat, u: nat, v: nat) returns (sum: real)
    requires |p| == n * n
    ensures sum == Sum(Row(t, p, n, u, v), n)
  {
    sum := 0.0;
    ghost var rows := Row(t, p, n, u, v);
    for x := 0 to n
      invariant sum == Sum(rows, x)
    {
      sum := AddRow(t, p, n, u, v, x, sum);
    }
  }

  method ComputeCoefficient(t: Trig, p: seq<real>, n: nat, u: nat, v: nat, cu: real) returns (coefficient: real)
    requires n > 0 && |p| == n * n && t.root != 0.0 && cu == Scale(t, u)
    ensures coefficient == Coefficient(t, p, n, u, v)
  {
    var cv := if v == 0 then 1.0 / t.root else 1.0;
    var sum := SumCoefficient(t, p, n, u, v);
    coefficient := Scaling(n, cu, cv, sum);
  }

  function Coefficients(t: Trig, p: seq<real>, n: nat): (nat, nat) -> real
    requires n > 0 && t.root != 0.0
  {
    (u: nat, v: nat) => Coefficient(t, p, n, u, v)
  }

  method ComputeDCT2D(t: Trig, p: seq<real>, n: nat) returns (dct: array2<real>)
    requires n > 0 && |p| == n * n && t.root != 0.0
    ensures fresh(dct) && dct.Length0 == n && dct.Length1 == n
    ensures forall u, v | 0 <= u < n && 0 <= v < n :: dct[u, v] == Coefficients(t, p, n)(u, v)
  {
    dct := new real[n, n];
    ghost var want := Coefficients(t, p, n);
    for u := 0 to n
      invariant forall u', v | 0 <= u' < u && 0 <= v < n :: dct[u', v] == want(u', v)
    {
      var cu := if u == 0 then 1.0 / t.root else 1.0;
      for v := 0 to n
        invariant forall u', v' | 0 <= u' < u && 0 <= v' < n :: dct[u', v'] == want(u', v')
        invariant forall v' | 0 <= v' < v :: dct[u, v'] == want(u, v')
      {
        dct[u, v] := ComputeCoefficient(t, p, n, u, v, cu);
      }
    }
  }

  // ---- a constant image has no frequencies ------------------------------------------------------------------

  lemma AngleSteps(u: nat, m: nat)
    requires m > 0
    ensures Angle(m - 1, u) + u == HalfTurns(m, u) && Angle(m - 1, u) - u == HalfTurns(m - 1, u)
  {
  }

  lemma Grow(a: real, c: real, s: real, before: real, after: real)
    requires 2.0 * a * s == before && after == before + 2.0 * c * s
    ensures 2.0 * (a + c) * s == after
  {
  }

  lemma TelescopeStep(t: Trig, n: nat, u: nat, m: nat, sum: real)
    requires IsTrig(t, n) && m > 0
    requires 2.0 * sum * t.sin(u) == t.sin(HalfTurns(m - 1, u)) - t.sin(0)
    ensures 2.0 * (sum + t.cos(Angle(m - 1, u))) * t.sin(u) == t.sin(HalfTurns(m, u)) - t.sin(0)
  {
    var a := Angle(m - 1, u);
    AngleSteps(u, m);
    assert SumFormula(t, a, u);
    Grow(sum, t.cos(a), t.sin(u), t.sin(HalfTurns(m - 1, u)) - t.sin(0), t.sin(HalfTurns(m, u)) - t.sin(0));
  }

  lemma {:induction false} CosSumTelescopes(t: Trig, n: nat, u: nat, m: nat)
    requires IsTrig(t, n)
    ensures 2.0 * Sum(Cosines(t, u), m) * t.sin(u) == t.sin(HalfTurns(m, u)) - t.sin(0)
  {
    if m > 0 {
      CosSumTelescopes(t, n, u, m - 1);
      TelescopeStep(t, n, u, m, Sum(Cosines(t, u), m - 1));
    }
  }

  lemma Cancel(a: real, s: real)
    requires 2.0 * a * s == 0.0 && s != 0.0
    ensures a == 0.0
  {
  }

  // Every cosine row but the first adds up to nothing.
  lemma CosRowSumsToZero(t: Trig, n: nat, u: nat)
    requires IsTrig(t, n) && 0 < u < 2 * n
    ensures Sum(Cosines(t, u), n) == 0.0
  {
    CosSumTelescopes(t, n, u, n);
    assert t.sin(HalfTurns(n, u)) == 0.0 && t.sin(HalfTurns(n, 0)) == 0.0;
    Cancel(Sum(Cosines(t, u), n), t.sin(u));
  }

  // ---- the cosine rows are orthogonal -----------------------------------------------------------------------

  lemma {:induction false} SumSame(f: nat -> real, g: nat -> real, m: nat)
    requires forall i: nat | i < m :: f(i) == g(i)
    ensures Sum(f, m) == Sum(g, m)
  {
    if m > 0 {
      SumSame(f, g, m - 1);
    }
  }

  function Products(t: Trig, u: nat, a: nat): nat -> real {
    (x: nat) => t.cos(Angle(x, u)) * t.cos(Angle(x, a))
  }

  lemma AnglesAdd(x: nat, u: nat, a: nat)
    requires a <= u
    ensures Angle(x, u) + Angle(x, a) == Angle(x, u + a) && Angle(x, u) - Angle(x, a) == Angle(x, u - a)
  {
  }

  lemma Halved(c: real, d: real, s: real)
    requires 2.0 * c * d == s
    ensures c * d == 0.5 * s
  {
  }

  lemma ProductAt(t: Trig, n: nat, u: nat, a: nat, x: nat)
    requires IsTrig(t, n) && a <= u
    ensures Products(t, u, a)(x) == 0.5 * Cosines(t, u + a)(x) + 0.5 * Cosines(t, u - a)(x)
  {
    AnglesAdd(x, u, a);
    assert ProductFormula(t, Angle(x, u), Angle(x, a));
    Halved(t.cos(Angle(x, u)), t.cos(Angle(x, a)), Cosines(t, u + a)(x) + Cosines(t, u - a)(x));
  }

  lemma {:induction false} ConstantRow(t: Trig, n: nat, m: nat)
    requires IsTrig(t, n)
    ensures Sum(Cosines(t, 0), m) == m as real
  {
    if m > 0 {
      ConstantRow(t, n, m - 1);
      assert Angle(m - 1, 0) == 0;
    }
  }

  // A cosine row times itself, added up.
  function Norm(n: nat, u: nat): real {
    if u == 0 then n as real else n as real / 2.0
  }

  lemma OrthogonalBelow(t: Trig, n: nat, u: nat, a: nat)
    requires IsTrig(t, n) && a <= u < n
    ensures Sum(Products(t, u, a), n) == if u == a then Norm(n, u) else 0.0
  {
    var f, h := Cosines(t, u + a), Cosines(t, u - a);
    forall x: nat | x < n ensures Products(t, u, a)(x) == 0.5 * f(x) + 0.5 * h(x) {
      ProductAt(t, n, u, a, x);
    }
    SumLinear(f, Products(t, u, a), h, 0.5, 0.5, n);
    ConstantRow(t, n, n);
    if u + a > 0 {
      CosRowSumsToZero(t, n, u + a);
    }
    if u - a > 0 {
      CosRowSumsToZero(t, n, u - a);
    }
  }

  // Two different cosine rows are orthogonal.
  lemma Orthogonal(t: Trig, n: nat, u: nat, a: nat)
    requires IsTrig(t, n) && u < n && a < n
    ensures Sum(Products(t, u, a), n) == if u == a then Norm(n, u) else 0.0
  {
    if a <= u {
      OrthogonalBelow(t, n, u, a);
    } else {
      OrthogonalBelow(t, n, a, u);
      SumSame(Products(t, u, a), Products(t, a, u), n);
    }
  }

  // ---- the transform of one cosine pattern ------------------------------------------------------------------

  // Pixel i of the picture of cosine a down the rows and cosine b along them.
  function PatternPixel(t: Trig, n: nat, a: nat, b: nat, i: nat): real
    requires n > 0
  {
    t.cos(Angle(i / n, a)) * t.cos(Angle(i % n, b))
  }

  ghost predicate IsBasis(t: Trig, p: seq<real>, n: nat, a: nat, b: nat)
    requires n > 0
  {
    |p| == n * n && forall i | 0 <= i < n * n :: p[i] == PatternPixel(t, n, a, b, i)
  }

  lemma MultipleOf(n: int, z: int)
    requires n > 0
    ensures z >= 1 ==> n * z >= n
    ensures z <= -1 ==> n * z <= -n
  {
  }

  lemma RowAndColumn(n: nat, x: nat, y: nat)
    requires x < n && y < n
    ensures (x * n + y) / n == x && (x * n + y) % n == y
  {
    var i := x * n + y;
    assert n * (i / n - x) == y - i % n;
    MultipleOf(n, i / n - x);
  }

  lemma BasisPixel(t: Trig, p: seq<real>, n: nat, a: nat, b: nat, x: nat, y: nat)
    requires n > 0 && IsBasis(t, p, n, a, b) && x < n && y < n
    ensures Pixel(p, n, x, y) == t.cos(Angle(x, a)) * t.cos(Angle(y, b))
  {
    InGrid(n, x, y);
    RowAndColumn(n, x, y);
  }

  ghost predicate TimesAt(f: nat -> real, g: nat -> real, k: real, i: nat) {
    g(i) == k * f(i)
  }

  lemma FourFactors(pix: real, xa: real, yb: real, xu: real, yv: real, term: real, f: real, g: real)
    requires pix == xa * yb && term == pix * xu * yv && f == xu * xa && g == yv * yb
    ensures term == f * g
  {
  }

  lemma BasisTerm(t: Trig, p: seq<real>, n: nat, a: nat, b: nat, u: nat, v: nat, x: nat, y: nat)
    requires Pixel(p, n, x, y) == t.cos(Angle(x, a)) * t.cos(Angle(y, b))
    ensures TimesAt(Products(t, v, b), Term(t, p, n, u, v, x), Products(t, u, a)(x), y)
  {
    FourFactors(Pixel(p, n, x, y), t.cos(Angle(x, a)), t.cos(Angle(y, b)), t.cos(Angle(x, u)), t.cos(Angle(y, v)),
                Term(t, p, n, u, v, x)(y), Products(t, u, a)(x), Products(t, v, b)(y));
  }

  lemma BasisTermAt(t: Trig, p: seq<real>, n: nat, a: nat, b: nat, u: nat, v: nat, x: nat, y: nat)
    requires n > 0 && IsBasis(t, p, n, a, b) && x < n && y < n
    ensures TimesAt(Products(t, v, b), Term(t, p, n, u, v, x), Products(t, u, a)(x), y)
  {
    BasisPixel(t, p, n, a, b, x, y);
    BasisTerm(t, p, n, a, b, u, v, x, y);
  }

  lemma TimesStep(k: real, f: real, g: real, f': real, g': real)
    requires g == k * f && g' == k * f'
    ensures g + g' == k * (f + f')
  {
  }

  lemma {:induction false} SumTimes(f: nat -> real, g: nat -> real, k: real, m: nat)
    requires forall i: nat | i < m :: TimesAt(f, g, k, i)
    ensures Sum(g, m) == k * Sum(f, m)
  {
    if m > 0 {
      SumTimes(f, g, k, m - 1);
      assert TimesAt(f, g, k, m - 1);
      TimesStep(k, Sum(f, m - 1), Sum(g, m - 1), f(m - 1), g(m - 1));
    }
  }

  ghost predicate IsProduct(s: real, f: real, g: real) {
    s == f * g
  }

  lemma Commute(a: real, b: real)
    ensures a * b == b * a
  {
  }

  lemma BasisRow(t: Trig, p: seq<real>, n: nat, a: nat, b: nat, u: nat, v: nat, x: nat)
    requires n > 0 && IsBasis(t, p, n, a, b) && x < n
    ensures TimesAt(Products(t, u, a), Row(t, p, n, u, v), Sum(Products(t, v, b), n), x)
  {
    var f, g := Products(t, v, b), Term(t, p, n, u, v, x);
    var k := Products(t, u, a)(x);
    forall y: nat | y < n ensures TimesAt(f, g, k, y) {
      BasisTermAt(t, p, n, a, b, u, v, x, y);
    }
    SumTimes(f, g, k, n);
    Commute(k, Sum(f, n));
  }

  lemma BasisSum(t: Trig, p: seq<real>, n: nat, a: nat, b: nat, u: nat, v: nat)
    requires n > 0 && IsBasis(t, p, n, a, b)
    ensures IsProduct(Sum(Row(t, p, n, u, v), n), Sum(Products(t, v, b), n), Sum(Products(t, u, a), n))
  {
    var f, g := Products(t, u, a), Row(t, p, n, u, v);
    var k := Sum(Products(t, v, b), n);
    forall x: nat | x < n ensures TimesAt(f, g, k, x) {
      BasisRow(t, p, n, a, b, u, v, x);
    }
    SumTimes(f, g, k, n);
  }

  // The one coefficient of a cosine pattern that is not zero.
  function Peak(t: Trig, n: nat, a: nat, b: nat): real
    requires t.root != 0.0
  {
    if a == 0 && b == 0 then n as real
    else if a == 0 || b == 0 then n as real / t.root
    else n as real / 2.0
  }

  lemma InverseRoot(r: real, q: real)
    requires IsRootOfTwo(r) && q * r == 1.0
    ensures q * q == 0.5
  {
    assert q * q * (r * r) == (q * r) * (q * r);
  }

  lemma Regroup(w: real, q: real, n: real, qq: real, wn: real)
    requires qq == q * q == 0.5 && wn == w * n == 2.0
    ensures w * q * q * (n * n) == n
  {
    assert w * q * q * (n * n) == qq * wn * n;
  }

  lemma PeakOfConstant(n: nat, r: real, w: real, q: real)
    requires n > 0 && IsRootOfTwo(r) && w == 2.0 / (n as real) && q == 1.0 / r
    ensures Scaling(n, q, q, n as real * n as real) == n as real
  {
    assert w * (n as real) == 2.0;
    assert q * r == 1.0;
    InverseRoot(r, q);
    Regroup(w, q, n as real, q * q, w * (n as real));
  }

  lemma PeakOfMixed(n: real, r: real)
    requires n > 0.0 && r > 0.0
    ensures 2.0 / n * (1.0 / r) * 1.0 * (n / 2.0 * n) == n / r
    ensures 2.0 / n * 1.0 * (1.0 / r) * (n * (n / 2.0)) == n / r
  {
    assert 2.0 / n * (n / 2.0 * n) == n;
    assert (1.0 / r) * n == n / r;
  }

  lemma PeakOfBoth(n: real)
    requires n > 0.0
    ensures 2.0 / n * 1.0 * 1.0 * (n / 2.0 * (n / 2.0)) == n / 2.0
  {
    assert 2.0 / n * (n / 2.0) == 1.0;
  }

  lemma PeakOf(t: Trig, n: nat, a: nat, b: nat, s: real)
    requires n > 0 && IsRootOfTwo(t.root) && IsProduct(s, Norm(n, b), Norm(n, a))
    ensures Scaling(n, Scale(t, a), Scale(t, b), s) == Peak(t, n, a, b)
  {
    if a == 0 && b == 0 {
      PeakOfConstant(n, t.root, 2.0 / (n as real), 1.0 / t.root);
    } else if a == 0 || b == 0 {
      PeakOfMixed(n as real, t.root);
    } else {
      PeakOfBoth(n as real);
    }
  }

  lemma NoPeak(n: nat, cu: real, cv: real, f: real, g: real, s: real)
    requires n > 0 && (f == 0.0 || g == 0.0) && IsProduct(s, f, g)
    ensures Scaling(n, cu, cv, s) == 0.0
  {
  }

  lemma PeakPositive(t: Trig, n: nat, a: nat, b: nat)
    requires n > 0 && IsRootOfTwo(t.root)
    ensures Peak(t, n, a, b) > 0.0
  {
  }

  lemma NormSum(t: Trig, p: seq<real>, n: nat, a: nat, b: nat)
    requires n > 0 && IsTrig(t, n) && IsBasis(t, p, n, a, b) && a < n && b < n
    ensures IsProduct(Sum(Row(t, p, n, a, b), n), Norm(n, b), Norm(n, a))
  {
    BasisSum(t, p, n, a, b, a, b);
    Orthogonal(t, n, a, a);
    Orthogonal(t, n, b, b);
  }

  lemma OnPattern(t: Trig, p: seq<real>, n: nat, a: nat, b: nat)
    requires n > 0 && IsTrig(t, n) && IsRootOfTwo(t.root) && IsBasis(t, p, n, a, b) && a < n && b < n
    ensures Coefficient(t, p, n, a, b) == Peak(t, n, a, b)
  {
    NormSum(t, p, n, a, b);
    PeakOf(t, n, a, b, Sum(Row(t, p, n, a, b), n));
  }

  lemma OffPattern(t: Trig, p: seq<real>, n: nat, a: nat, b: nat, u: nat, v: nat)
    requires n > 0 && IsTrig(t, n) && IsBasis(t, p, n, a, b) && a < n && b < n && u < n && v < n
    requires u != a || v != b
    ensures Coefficient(t, p, n, u, v) == 0.0
  {
    BasisSum(t, p, n, a, b, u, v);
    Orthogonal(t, n, u, a);
    Orthogonal(t, n, v, b);
    NoPeak(n, Scale(t, u), Scale(t, v), Sum(Products(t, v, b), n), Sum(Products(t, u, a), n), Sum(Row(t, p, n, u, v), n));
  }

  // A cosine pattern has one coefficient, at its own frequencies.
  lemma BasisCoefficient(t: Trig, p: seq<real>, n: nat, a: nat, b: nat, u: nat, v: nat)
    requires n > 0 && IsTrig(t, n) && IsRootOfTwo(t.root) && IsBasis(t, p, n, a, b) && a < n && b < n && u < n && v < n
    ensures Coefficient(t, p, n, u, v) == if u == a && v == b then Peak(t, n, a, b) else 0.0
  {
    if u == a && v == b {
      OnPattern(t, p, n, a, b);
    } else {
      OffPattern(t, p, n, a, b, u, v);
    }
  }

  // ---- the transform is linear, and has the cosine series for its inverse ------------------------------------

  ghost predicate Combined(p: seq<real>, q: seq<real>, r: seq<real>, k: real, c: real) {
    |p| == |q| == |r| && forall i | 0 <= i < |r| :: r[i] == k * p[i] + c * q[i]
  }

  ghost predicate IsMix(k: real, c: real, x: real, y: real, z: real) {
    z == k * x + c * y
  }

  lemma CombinedTerm(k: real, c: real, pix: real, pixQ: real, pixR: real, a: real, b: real)
    requires pixR == k * pix + c * pixQ
    ensures pixR * a * b == k * (pix * a * b) + c * (pixQ * a * b)
  {
  }

  lemma CombinedRow(t: Trig, p: seq<real>, q: seq<real>, r: seq<real>, k: real, c: real, n: nat, u: nat, v: nat, x: nat)
    requires x < n && |r| == n * n && Combined(p, q, r, k, c)
    ensures Row(t, r, n, u, v)(x) == k * Row(t, p, n, u, v)(x) + c * Row(t, q, n, u, v)(x)
  {
    var f, g, h := Term(t, p, n, u, v, x), Term(t, r, n, u, v, x), Term(t, q, n, u, v, x);
    forall y: nat | y < n ensures g(y) == k * f(y) + c * h(y) {
      InGrid(n, x, y);
      CombinedTerm(k, c, Pixel(p, n, x, y), Pixel(q, n, x, y), Pixel(r, n, x, y), t.cos(Angle(x, u)), t.cos(Angle(y, v)));
    }
    SumLinear(f, g, h, k, c, n);
  }

  lemma CombinedSum(t: Trig, p: seq<real>, q: seq<real>, r: seq<real>, k: real, c: real, n: nat, u: nat, v: nat)
    requires |r| == n * n && Combined(p, q, r, k, c)
    ensures IsMix(k, c, Sum(Row(t, p, n, u, v), n), Sum(Row(t, q, n, u, v), n), Sum(Row(t, r, n, u, v), n))
  {
    var f, g, h := Row(t, p, n, u, v), Row(t, r, n, u, v), Row(t, q, n, u, v);
    forall x: nat | x < n ensures g(x) == k * f(x) + c * h(x) {
      CombinedRow(t, p, q, r, k, c, n, u, v, x);
    }
    SumLinear(f, g, h, k, c, n);
  }

  lemma ScaledSum(s: real, k: real, c: real, f: real, g: real, h: real)
    requires g == k * f + c * h
    ensures s * g == k * (s * f) + c * (s * h)
  {
  }

  lemma ScalingMix(n: nat, cu: real, cv: real, s: real, k: real, c: real, f: real, h: real, g: real)
    requires n > 0 && s == 2.0 / (n as real) * cu * cv && IsMix(k, c, f, h, g)
    ensures IsMix(k, c, Scaling(n, cu, cv, f), Scaling(n, cu, cv, h), Scaling(n, cu, cv, g))
  {
    ScaledSum(s, k, c, f, g, h);
  }

  // Every coefficient of a mixture of two pictures is that mixture of theirs.
  lemma CoefficientLinear(t: Trig, p: seq<real>, q: seq<real>, r: seq<real>, k: real, c: real, n: nat, u: nat, v: nat)
    requires n > 0 && t.root != 0.0 && |r| == n * n && Combined(p, q, r, k, c)
    ensures IsMix(k, c, Coefficient(t, p, n, u, v), Coefficient(t, q, n, u, v), Coefficient(t, r, n, u, v))
  {
    CombinedSum(t, p, q, r, k, c, n, u, v);
    ScalingMix(n, Scale(t, u), Scale(t, v), 2.0 / (n as real) * Scale(t, u) * Scale(t, v), k, c,
               Sum(Row(t, p, n, u, v), n), Sum(Row(t, q, n, u, v), n), Sum(Row(t, r, n, u, v), n));
  }

  // The picture of the cosine pattern (a, b).
  function Pattern(t: Trig, n: nat, a: nat, b: nat): (p: seq<real>)
    requires n > 0
    ensures IsBasis(t, p, n, a, b)
  {
    seq(n * n, i requires 0 <= i < n * n => PatternPixel(t, n, a, b, i))
  }

  function Mixed(p: seq<real>, q: seq<real>, k: real, c: real): (r: seq<real>)
    requires |p| == |q|
    ensures Combined(p, q, r, k, c)
  {
    seq(|p|, i requires 0 <= i < |p| => k * p[i] + c * q[i])
  }

  // As much of the pattern (a, b) as makes its coefficient c.
  function Weight(t: Trig, n: nat, a: nat, b: nat, c: real): real
    requires n > 0 && IsRootOfTwo(t.root)
  {
    PeakPositive(t, n, a, b);
    c / Peak(t, n, a, b)
  }

  function Blank(n: nat): (p: seq<real>)
    ensures |p| == n * n && forall i | 0 <= i < |p| :: p[i] == 0.0
  {
    seq(n * n, i => 0.0)
  }

  // A part of a cosine series: how much of which pattern.
  datatype Part = Part(a: nat, b: nat, c: real)

  function Series(t: Trig, n: nat, parts: seq<Part>): (p: seq<real>)
    requires n > 0 && IsRootOfTwo(t.root)
    ensures |p| == n * n
  {
    if parts == [] then Blank(n) else
      var last := parts[|parts| - 1];
      Mixed(Series(t, n, parts[..|parts| - 1]), Pattern(t, n, last.a, last.b), 1.0, Weight(t, n, last.a, last.b, last.c))
  }

  // How much there is of the pattern (u, v).
  function Amount(parts: seq<Part>, u: nat, v: nat): real {
    if parts == [] then 0.0 else
      var last := parts[|parts| - 1];
      Amount(parts[..|parts| - 1], u, v) + if last.a == u && last.b == v then last.c else 0.0
  }

  lemma NoCoefficient(t: Trig, p: seq<real>, n: nat, u: nat, v: nat)
    requires n > 0 && t.root != 0.0 && |p| == n * n && forall i | 0 <= i < |p| :: p[i] == 0.0
    ensures Coefficient(t, p, n, u, v) == 0.0
  {
    CoefficientLinear(t, p, p, p, 0.0, 0.0, n, u, v);
  }

  lemma Weighted(c: real, peak: real, w: real)
    requires peak > 0.0 && w == c / peak
    ensures w * peak == c
  {
  }

  lemma PatternWeighs(t: Trig, n: nat, a: nat, b: nat, c: real, w: real, peak: real)
    requires n > 0 && IsRootOfTwo(t.root) && w == Weight(t, n, a, b, c) && peak == Peak(t, n, a, b)
    ensures w * peak == c
  {
    PeakPositive(t, n, a, b);
    Weighted(c, peak, w);
  }

  lemma MixedValue(before: real, part: real, after: real, w: real, x: real)
    requires IsMix(1.0, w, before, part, after) && x == part
    ensures after == before + w * x
  {
  }

  lemma MixedIn(t: Trig, n: nat, p: seq<real>, q: seq<real>, r: seq<real>, w: real, u: nat, v: nat, x: real)
    requires n > 0 && t.root != 0.0 && |r| == n * n && Combined(p, q, r, 1.0, w) && x == Coefficient(t, q, n, u, v)
    ensures Coefficient(t, r, n, u, v) == Coefficient(t, p, n, u, v) + w * x
  {
    CoefficientLinear(t, p, q, r, 1.0, w, n, u, v);
    MixedValue(Coefficient(t, p, n, u, v), Coefficient(t, q, n, u, v), Coefficient(t, r, n, u, v), w, x);
  }

  lemma ZeroPart(w: real, x: real)
    requires x == 0.0
    ensures w * x == 0.0
  {
  }

  // Mixing a pattern into a picture changes the one coefficient.
  lemma SeriesStep(t: Trig, n: nat, p: seq<real>, q: seq<real>, r: seq<real>, c: real, w: real, a: nat, b: nat, u: nat, v: nat)
    requires n > 0 && IsTrig(t, n) && IsRootOfTwo(t.root) && a < n && b < n && u < n && v < n && |r| == n * n
    requires IsBasis(t, q, n, a, b) && Combined(p, q, r, 1.0, w) && w == Weight(t, n, a, b, c)
    ensures Coefficient(t, r, n, u, v) == Coefficient(t, p, n, u, v) + if u == a && v == b then c else 0.0
  {
    var x := Coefficient(t, q, n, u, v);
    BasisCoefficient(t, q, n, a, b, u, v);
    if u == a && v == b {
      PatternWeighs(t, n, a, b, c, w, x);
    } else {
      ZeroPart(w, x);
    }
    MixedIn(t, n, p, q, r, w, u, v, x);
  }

  // Whatever a picture is made of, the transform finds in it how much there is of each pattern.
  lemma {:induction false} TransformInvertsSeries(t: Trig, n: nat, parts: seq<Part>, u: nat, v: nat)
    requires n > 0 && IsTrig(t, n) && IsRootOfTwo(t.root) && u < n && v < n
    requires forall part | part in parts :: part.a < n && part.b < n
    ensures Coefficient(t, Series(t, n, parts), n, u, v) == Amount(parts, u, v)
  {
    if parts == [] {
      NoCoefficient(t, Blank(n), n, u, v);
    } else {
      var prefix, last := parts[..|parts| - 1], parts[|parts| - 1];
      TransformInvertsSeries(t, n, prefix, u, v);
      assert last in parts;
      SeriesStep(t, n, Series(t, n, prefix), Pattern(t, n, last.a, last.b), Series(t, n, parts), last.c,
                 Weight(t, n, last.a, last.b, last.c), last.a, last.b, u, v);
    }
  }

  // ---- brightness and contrast ------------------------------------------------------------------------------

  // q is p with its contrast scaled by k and its brightness shifted by c.
  ghost predicate Adjusted(p: seq<real>, q: seq<real>, k: real, c: real) {
    |q| == |p| && forall i | 0 <= i < |p| :: q[i] == k * p[i] + c
  }

  lemma AffineTerm(k: real, c: real, pix: real, pixQ: real, a: real, b: real)
    requires pixQ == k * pix + c
    ensures pixQ * a * b == k * (pix * a * b) + c * a * b
  {
  }

  lemma RowAffine(t: Trig, p: seq<real>, q: seq<real>, k: real, c: real, n: nat, u: nat, v: nat, x: nat)
    requires x < n && |p| == n * n && Adjusted(p, q, k, c)
    ensures Sum(Term(t, q, n, u, v, x), n) ==
            k * Sum(Term(t, p, n, u, v, x), n) + c * t.cos(Angle(x, u)) * Sum(Cosines(t, v), n)
  {
    var f, g, h := Term(t, p, n, u, v, x), Term(t, q, n, u, v, x), Cosines(t, v);
    forall y: nat | y < n ensures g(y) == k * f(y) + c * t.cos(Angle(x, u)) * h(y) {
      InGrid(n, x, y);
      AffineTerm(k, c, Pixel(p, n, x, y), Pixel(q, n, x, y), t.cos(Angle(x, u)), h(y));
    }
    SumLinear(f, g, h, k, c * t.cos(Angle(x, u)), n);
  }

  lemma Swap(c: real, a: real, b: real)
    ensures c * a * b == c * b * a
  {
  }

  lemma GridAffine(t: Trig, p: seq<real>, q: seq<real>, k: real, c: real, n: nat, u: nat, v: nat)
    requires |p| == n * n && Adjusted(p, q, k, c)
    ensures Sum(Row(t, q, n, u, v), n) ==
            k * Sum(Row(t, p, n, u, v), n) + c * Sum(Cosines(t, v), n) * Sum(Cosines(t, u), n)
  {
    var f, g, h := Row(t, p, n, u, v), Row(t, q, n, u, v), Cosines(t, u);
    var b := Sum(Cosines(t, v), n);
    forall x: nat | x < n ensures g(x) == k * f(x) + c * b * h(x) {
      RowAffine(t, p, q, k, c, n, u, v, x);
      Swap(c, h(x), b);
    }
    SumLinear(f, g, h, k, c * b, n);
  }

  lemma Factor(s: real, k: real, c: real, g: real, h: real, a: real, b: real)
    requires h == k * g + c * a * b && (a == 0.0 || b == 0.0)
    ensures s * h == k * (s * g)
  {
  }

  lemma OneRowVanishes(t: Trig, n: nat, u: nat, v: nat)
    requires IsTrig(t, n) && u < n && v < n && (u > 0 || v > 0)
    ensures Sum(Cosines(t, v), n) == 0.0 || Sum(Cosines(t, u), n) == 0.0
  {
    if u > 0 {
      CosRowSumsToZero(t, n, u);
    } else {
      CosRowSumsToZero(t, n, v);
    }
  }

  // Away from the constant coefficient, brightness vanishes and contrast scales.
  lemma CoefficientScales(t: Trig, p: seq<real>, q: seq<real>, k: real, c: real, n: nat, u: nat, v: nat)
    requires IsTrig(t, n) && u < n && v < n && (u > 0 || v > 0) && |p| == n * n && Adjusted(p, q, k, c)
    ensures Coefficient(t, q, n, u, v) == k * Coefficient(t, p, n, u, v)
  {
    GridAffine(t, p, q, k, c, n, u, v);
    OneRowVanishes(t, n, u, v);
    Factor(2.0 / (n as real) * Scale(t, u) * Scale(t, v), k, c, Sum(Row(t, p, n, u, v), n), Sum(Row(t, q, n, u, v), n),
           Sum(Cosines(t, v), n), Sum(Cosines(t, u), n));
  }

  // ---- the hash ---------------------------------------------------------------------------------------------

  // The low-frequency block, row by row.
  function Block(t: Trig, p: seq<real>, n: nat): (ac: seq<real>)
    requires n >= DCT_SIZE && |p| == n * n && t.root != 0.0
    ensures |ac| == DCT_SIZE * DCT_SIZE
  {
    seq(DCT_SIZE * DCT_SIZE, i requires 0 <= i < DCT_SIZE * DCT_SIZE => Coefficient(t, p, n, i / DCT_SIZE, i % DCT_SIZE))
  }

  function SumAC(ac: seq<real>, m: nat): real
    requires 1 <= m <= |ac|
  {
    if m == 1 then 0.0 else SumAC(ac, m - 1) + ac[m - 1]
  }

  // The mean of all coefficients but the first.
  function MeanAC(ac: seq<real>): real
    requires |ac| > 1
  {
    SumAC(ac, |ac|) / ((|ac| - 1) as real)
  }

  // Bit i says whether coefficient i lies above the mean; bit 0 is clear.
  ghost predicate IsHash(hash: bv64, ac: seq<real>)
    requires |ac| == 64
  {
    forall i: bv64 | i < 64 :: Bit(hash, i) <==> i > 0 && ac[i as nat] > MeanAC(ac)
  }

  method Flatten(dct: array2<real>) returns (ac: array<real>)
    requires dct.Length0 >= DCT_SIZE && dct.Length1 >= DCT_SIZE
    ensures ac.Length == DCT_SIZE * DCT_SIZE
    ensures forall i | 0 <= i < DCT_SIZE * DCT_SIZE :: ac[i] == dct[i / DCT_SIZE, i % DCT_SIZE]
  {
    ac := new real[DCT_SIZE * DCT_SIZE];
    for v := 0 to DCT_SIZE
      invariant forall i | 0 <= i < v * DCT_SIZE :: ac[i] == dct[i / DCT_SIZE, i % DCT_SIZE]
    {
      for u := 0 to DCT_SIZE
        invariant forall i | 0 <= i < v * DCT_SIZE + u :: ac[i] == dct[i / DCT_SIZE, i % DCT_SIZE]
      {
        ac[v * DCT_SIZE + u] := dct[v, u];
      }
    }
  }

  method Mean(ac: seq<real>) returns (mean: real)
    requires |ac| > 1
    ensures mean == MeanAC(ac)
  {
    var sum := 0.0;
    for i := 1 to |ac|
      invariant sum == SumAC(ac, i)
    {
      sum := sum + ac[i];
    }
    mean := sum / ((|ac| - 1) as real);
  }

  // The bits below position n are in place, the others are clear.
  ghost predicate BitsBelow(hash: bv64, ac: seq<real>, mean: real, n: bv64)
    requires |ac| == 64
  {
    forall i: bv64 | i < 64 :: Bit(hash, i) <==> i < n && i > 0 && ac[i as nat] > mean
  }

  // One position after bit i has been dealt with.
  lemma BitAddedAt(before: bv64, after: bv64, i: bv64, j: bv64, above: bool, add: bool)
    requires i < 64 && j < 64 && after == if add then before | (1 << i) else before
    requires Bit(before, j) <==> j < i && j > 0 && above
    requires j == i ==> add == (i > 0 && above)
    ensures Bit(after, j) <==> j < i + 1 && j > 0 && above
  {
    SetBit(before, i, j);
    Below(i, j);
  }

  lemma Below(i: bv64, j: bv64)
    requires i < 64
    ensures j < i + 1 <==> j < i || j == i
  {
  }

  lemma BitAdded(before: bv64, after: bv64, ac: seq<real>, mean: real, i: bv64)
    requires |ac| == 64 && i < 64 && BitsBelow(before, ac, mean, i)
    requires after == if i > 0 && ac[i as nat] > mean then before | (1 << i) else before
    ensures BitsBelow(after, ac, mean, i + 1)
  {
    var add := i > 0 && ac[i as nat] > mean;
    forall j: bv64 | j < 64 ensures Bit(after, j) <==> j < i + 1 && j > 0 && ac[j as nat] > mean {
      BitAddedAt(before, after, i, j, ac[j as nat] > mean, add);
    }
  }

  method BuildHash(ac: seq<real>) returns (hash: bv64)
    requires |ac| == 64
    ensures IsHash(hash, ac)
  {
    var mean := Mean(ac);
    hash := 0;
    var i: bv64 := 0;
    while i < 64
      invariant i <= 64
      invariant BitsBelow(hash, ac, mean, i)
      decreases 64 - i
    {
      ghost var before := hash;
      if i > 0 && ac[i as nat] > mean {
        hash := hash | (1 << i);
      }
      BitAdded(before, hash, ac, mean, i);
      i := i + 1;
    }
  }

  // The hash of a grid of pixels.
  method HashOf(t: Trig, p: seq<real>) returns (hash: bv64)
    requires |p| == GRID_SIZE * GRID_SIZE && t.root != 0.0
    ensures IsHash(hash, Block(t, p, GRID_SIZE))
  {
    var dct := ComputeDCT2D(t, p, GRID_SIZE);
    var ac := Flatten(dct);
    assert ac[..] == Block(t, p, GRID_SIZE);
    hash := BuildHash(ac[..]);
  }

  // ---- the hash ignores brightness and contrast -------------------------------------------------------------

  ghost predicate ScaledAt(ac: seq<real>, bc: seq<real>, k: real, i: nat)
    requires i < |ac| == |bc|
  {
    bc[i] == k * ac[i]
  }

  // All entries but the first scale by k.
  ghost predicate Scaled(ac: seq<real>, bc: seq<real>, k: real) {
    |ac| == |bc| == 64 && forall i | 0 < i < 64 :: ScaledAt(ac, bc, k, i)
  }

  lemma {:induction false} SumScales(ac: seq<real>, bc: seq<real>, k: real, m: nat)
    requires Scaled(ac, bc, k) && 1 <= m <= 64
    ensures SumAC(bc, m) == k * SumAC(ac, m)
  {
    if m > 1 {
      SumScales(ac, bc, k, m - 1);
      assert ScaledAt(ac, bc, k, m - 1);
    }
  }

  lemma ScaledAbove(k: real, x: real, m: real)
    requires k > 0.0
    ensures k * x > k * m <==> x > m
  {
  }

  lemma MeanScales(ac: seq<real>, bc: seq<real>, k: real)
    requires Scaled(ac, bc, k)
    ensures MeanAC(bc) == k * MeanAC(ac)
  {
    SumScales(ac, bc, k, 64);
  }

  lemma SameBit(ac: seq<real>, bc: seq<real>, k: real, i: bv64)
    requires k > 0.0 && Scaled(ac, bc, k) && MeanAC(bc) == k * MeanAC(ac) && 0 < i < 64
    ensures ac[i as nat] > MeanAC(ac) <==> bc[i as nat] > MeanAC(bc)
  {
    var n := i as nat;
    assert ScaledAt(ac, bc, k, n);
    ScaledAbove(k, ac[n], MeanAC(ac));
  }

  lemma SameBitOf(ac: seq<real>, bc: seq<real>, k: real, g: bv64, h: bv64, i: bv64)
    requires k > 0.0 && Scaled(ac, bc, k) && MeanAC(bc) == k * MeanAC(ac) && i < 64
    requires IsHash(g, ac) && IsHash(h, bc)
    ensures Bit(g, i) <==> Bit(h, i)
  {
    if i > 0 {
      SameBit(ac, bc, k, i);
    }
  }

  lemma ScaledHash(ac: seq<real>, bc: seq<real>, k: real, g: bv64, h: bv64)
    requires k > 0.0 && Scaled(ac, bc, k) && IsHash(g, ac) && IsHash(h, bc)
    ensures g == h
  {
    MeanScales(ac, bc, k);
    forall i: bv64 | i < 64 ensures Bit(g, i) <==> Bit(h, i) {
      SameBitOf(ac, bc, k, g, h, i);
    }
    SameBits(g, h);
  }

  lemma BlockAt(t: Trig, p: seq<real>, n: nat, i: nat)
    requires n >= DCT_SIZE && |p| == n * n && t.root != 0.0 && i < 64
    ensures Block(t, p, n)[i] == Coefficient(t, p, n, i / DCT_SIZE, i % DCT_SIZE)
  {
  }

  lemma InBlock(i: nat, u: nat, v: nat)
    requires 0 < i < 64 && u == i / DCT_SIZE && v == i % DCT_SIZE
    ensures u < DCT_SIZE && v < DCT_SIZE && (u > 0 || v > 0)
  {
  }

  lemma CoefficientPair(t: Trig, p: seq<real>, q: seq<real>, k: real, c: real, n: nat, u: nat, v: nat, x: real, y: real)
    requires IsTrig(t, n) && u < n && v < n && (u > 0 || v > 0) && |p| == n * n && Adjusted(p, q, k, c)
    requires x == Coefficient(t, p, n, u, v) && y == Coefficient(t, q, n, u, v)
    ensures y == k * x
  {
    CoefficientScales(t, p, q, k, c, n, u, v);
  }

  lemma BlockScalesAt(t: Trig, p: seq<real>, q: seq<real>, k: real, c: real, n: nat, i: nat, u: nat, v: nat)
    requires IsTrig(t, n) && n >= DCT_SIZE && |p| == n * n && Adjusted(p, q, k, c)
    requires 0 < i < 64 && u == i / DCT_SIZE && v == i % DCT_SIZE
    ensures ScaledAt(Block(t, p, n), Block(t, q, n), k, i)
  {
    InBlock(i, u, v);
    BlockAt(t, p, n, i);
    BlockAt(t, q, n, i);
    CoefficientPair(t, p, q, k, c, n, u, v, Block(t, p, n)[i], Block(t, q, n)[i]);
  }

  lemma BlockScales(t: Trig, p: seq<real>, q: seq<real>, k: real, c: real, n: nat)
    requires IsTrig(t, n) && n >= DCT_SIZE && |p| == n * n && Adjusted(p, q, k, c)
    ensures Scaled(Block(t, p, n), Block(t, q, n), k)
  {
    var ac, bc := Block(t, p, n), Block(t, q, n);
    forall i | 0 < i < 64 ensures ScaledAt(ac, bc, k, i) {
      BlockScalesAt(t, p, q, k, c, n, i, i / DCT_SIZE, i % DCT_SIZE);
    }
  }

  // Pictures that differ only by brightness and positive contrast have one and the same hash.
  lemma BrightnessInvariant(t: Trig, p: seq<real>, q: seq<real>, k: real, c: real, g: bv64, h: bv64)
    requires IsTrig(t, GRID_SIZE) && |p| == GRID_SIZE * GRID_SIZE && k > 0.0 && Adjusted(p, q, k, c)
    requires IsHash(g, Block(t, p, GRID_SIZE)) && IsHash(h, Block(t, q, GRID_SIZE))
    ensures g == h
  {
    BlockScales(t, p, q, k, c, GRID_SIZE);
    ScaledHash(Block(t, p, GRID_SIZE), Block(t, q, GRID_SIZE), k, g, h);
  }

  // ---- the hash of one cosine pattern -------------------------------------------------------------------------

  // All entries are zero but the first and entry i.
  ghost predicate OnlyAt(ac: seq<real>, i: nat) {
    |ac| == 64 && 0 < i < 64 && forall j | 0 < j < 64 && j != i :: ac[j] == 0.0
  }

  lemma {:induction false} SumOfOne(ac: seq<real>, i: nat, m: nat)
    requires OnlyAt(ac, i) && 1 <= m <= 64
    ensures SumAC(ac, m) == if i < m then ac[i] else 0.0
  {
    if m > 1 {
      SumOfOne(ac, i, m - 1);
    }
  }

  // One entry alone has a 63rd of it for the mean.
  lemma MeanOfOne(ac: seq<real>, i: nat)
    requires OnlyAt(ac, i)
    ensures MeanAC(ac) == ac[i] / 63.0
  {
    SumOfOne(ac, i, 64);
  }

  lemma {:induction false} SumAdds(ac: seq<real>, bc: seq<real>, cc: seq<real>, m: nat)
    requires |ac| == |bc| == |cc| && 1 <= m <= |ac| && forall j | 0 < j < |ac| :: cc[j] == ac[j] + bc[j]
    ensures SumAC(cc, m) == SumAC(ac, m) + SumAC(bc, m)
  {
    if m > 1 {
      SumAdds(ac, bc, cc, m - 1);
    }
  }

  // And means add up, whatever the first entries are.
  lemma MeanAdds(ac: seq<real>, bc: seq<real>, cc: seq<real>)
    requires |ac| == |bc| == |cc| > 1 && forall j | 0 < j < |ac| :: cc[j] == ac[j] + bc[j]
    ensures MeanAC(cc) == MeanAC(ac) + MeanAC(bc)
  {
    SumAdds(ac, bc, cc, |ac|);
  }

  lemma HashOfOne(ac: seq<real>, i: nat, hash: bv64)
    requires OnlyAt(ac, i) && ac[i] > 0.0 && IsHash(hash, ac)
    ensures forall j: bv64 | j < 64 :: Bit(hash, j) <==> j as nat == i
  {
    MeanOfOne(ac, i);
    forall j: bv64 | j < 64 ensures Bit(hash, j) <==> j as nat == i {
      assert j > 0 <==> j as nat > 0;
    }
  }

  lemma PatternBlockAt(t: Trig, p: seq<real>, a: nat, b: nat, j: nat)
    requires IsTrig(t, GRID_SIZE) && IsRootOfTwo(t.root) && IsBasis(t, p, GRID_SIZE, a, b) && a < 8 && b < 8 && j < 64
    ensures Block(t, p, GRID_SIZE)[j] == if j == 8 * a + b then Peak(t, GRID_SIZE, a, b) else 0.0
  {
    BlockAt(t, p, GRID_SIZE, j);
    BasisCoefficient(t, p, GRID_SIZE, a, b, j / DCT_SIZE, j % DCT_SIZE);
  }

  // The hash of the cosine pattern (a, b) has one bit set, bit 8a + b.
  lemma PatternHash(t: Trig, p: seq<real>, a: nat, b: nat, hash: bv64)
    requires IsTrig(t, GRID_SIZE) && IsRootOfTwo(t.root) && IsBasis(t, p, GRID_SIZE, a, b) && a < 8 && b < 8
    requires 0 < 8 * a + b && IsHash(hash, Block(t, p, GRID_SIZE))
    ensures forall j: bv64 | j < 64 :: Bit(hash, j) <==> j as nat == 8 * a + b
  {
    var ac := Block(t, p, GRID_SIZE);
    forall j: nat | j < 64 ensures ac[j] == if j == 8 * a + b then Peak(t, GRID_SIZE, a, b) else 0.0 {
      PatternBlockAt(t, p, a, b, j);
    }
    PeakPositive(t, GRID_SIZE, a, b);
    HashOfOne(ac, 8 * a + b, hash);
  }

  lemma {:induction false} PositionOf(i: nat) returns (j: bv64)
    requires i < 64
    ensures j < 64 && j as nat == i
  {
    if i == 0 {
      j := 0;
    } else {
      var before := PositionOf(i - 1);
      j := before + 1;
      Predecessor(j);
    }
  }

  // So different patterns have different hashes.
  lemma PatternsApart(t: Trig, p: seq<real>, q: seq<real>, a: nat, b: nat, c: nat, d: nat, g: bv64, h: bv64)
    requires IsTrig(t, GRID_SIZE) && IsRootOfTwo(t.root) && a < 8 && b < 8 && c < 8 && d < 8
    requires IsBasis(t, p, GRID_SIZE, a, b) && IsBasis(t, q, GRID_SIZE, c, d) && (a != c || b != d)
    requires 0 < 8 * a + b && IsHash(g, Block(t, p, GRID_SIZE))
    requires 0 < 8 * c + d && IsHash(h, Block(t, q, GRID_SIZE))
    ensures g != h
  {
    PatternHash(t, p, a, b, g);
    PatternHash(t, q, c, d, h);
    var j := PositionOf(8 * a + b);
    assert Bit(g, j);
    assert 8 * a + b != 8 * c + d;
    assert !Bit(h, j);
  }
}
