/** The free functions of the column engine: the NBCC load combinations, the radius of
    gyration, the Euler buckling load and the factored compressive resistance of clause
    13.3.1 of CSA S16:19. Every quantity is a real number; math.sqrt and the float power
    operator are passed in as the functions `sqrt` and `pow`, and IsSqrt, IsPow and
    SqrtPowLaw state the facts about them that the proofs use. */
module ColumnFormulas {
  import opened Exceptions

  /** math.pi, as the decimal Python prints for it. */
  const Pi: real := 3.141592653589793

  /** The shape factor n of hot-rolled sections (HSS, W shapes). */
  const HotRolledN: real := 1.34
  /** The resistance factor phi that factored_axial_capacity uses when none is given. */
  const DefaultPhi: real := 0.9

  /** `sqrt` behaves as math.sqrt on the non-negative reals. */
  ghost predicate IsSqrt(sqrt: real -> real) {
    forall x :: 0.0 <= x ==> 0.0 <= sqrt(x) && sqrt(x) * sqrt(x) == x
  }

  /** `pow` behaves as x ** y on the bases where the engine raises to a power. */
  ghost predicate IsPow(pow: (real, real) -> real) {
    && (forall x, y :: 0.0 < x ==> 0.0 < pow(x, y))
    && (forall y :: 0.0 < y ==> pow(0.0, y) == 0.0)
    && (forall x, y :: 1.0 <= x && y <= 0.0 ==> pow(x, y) <= 1.0)
  }

  /** sqrt(t) ** (2 y) == t ** y for a positive t. */
  ghost predicate SqrtPowLaw(sqrt: real -> real, pow: (real, real) -> real) {
    forall t, y :: 0.0 < t ==> pow(sqrt(t), 2.0 * y) == pow(t, y)
  }

  /** Python's min of two numbers: the first unless the second is smaller. */
  function Min(a: real, b: real): (m: real)
    ensures m <= a && m <= b && (m == a || m == b)
  {
    if b < a then b else a
  }

  /** Python's max of two numbers: the first unless the second is larger. */
  function Max(a: real, b: real): (m: real)
    ensures a <= m && b <= m && (m == a || m == b)
  {
    if a < b then b else a
  }

  /** Python's max over a non-empty list: scans left to right and keeps the larger. */
  function MaxOf(s: seq<real>): (m: real)
    requires s != []
    ensures m in s
    ensures forall i :: 0 <= i < |s| ==> s[i] <= m
  {
    if |s| == 1 then s[0] else Max(MaxOf(s[..|s| - 1]), s[|s| - 1])
  }

  /** A scalar load split into its dead, live, snow, wind and earthquake components. */
  datatype Load = Load(D: real, L: real, S: real, W: real, E: real)

  /** The four NBCC 2015 load combinations that the engine considers. */
  function Combinations(load: Load): seq<real> {
    [ 1.4 * load.D,
      1.25 * load.D + 1.5 * load.L,
      1.25 * load.D + 1.5 * load.L + 1.0 * load.S,
      1.25 * load.D + 1.5 * load.S + 1.0 * load.L ]
  }

  /** The governing factored load: the largest of the four combinations. */
  function MaxFactoredLoad(load: Load): (r: real)
    ensures r >= 1.4 * load.D
    ensures r >= 1.25 * load.D + 1.5 * load.L
    ensures r >= 1.25 * load.D + 1.5 * load.L + 1.0 * load.S
    ensures r >= 1.25 * load.D + 1.5 * load.S + 1.0 * load.L
    ensures || r == 1.4 * load.D
            || r == 1.25 * load.D + 1.5 * load.L
            || r == 1.25 * load.D + 1.5 * load.L + 1.0 * load.S
            || r == 1.25 * load.D + 1.5 * load.S + 1.0 * load.L
  {
    var c := Combinations(load);
    assert c[0] in c && c[1] in c && c[2] in c && c[3] in c;
    MaxOf(c)
  }

  /** Neither the wind nor the earthquake component takes part in the governing load. */
  lemma MaxFactoredLoadIgnoresWindAndEarthquake(load: Load, w: real, e: real)
    ensures MaxFactoredLoad(load.(W := w, E := e)) == MaxFactoredLoad(load)
  {

  }

  /** The empty load has a governing factored load of zero. */
  lemma EmptyLoadHasZeroFactoredLoad()
    ensures MaxFactoredLoad(Load(0.0, 0.0, 0.0, 0.0, 0.0)) == 0.0
  {
  }

  /** With no snow and a non-negative live load, 1.4D or 1.25D + 1.5L governs. */
  lemma DeadAndLiveLoadGoverning(d: real, l: real)
    requires 0.0 <= l
    ensures MaxFactoredLoad(Load(d, l, 0.0, 0.0, 0.0)) == Max(1.4 * d, 1.25 * d + 1.5 * l)
  {
  }

  /** The load built from a dead and a live load, in that order; entries past the second
      are ignored and a list shorter than two raises IndexError. */
  function DlStrToLoad(dl: seq<real>): (r: Result<Load>)
    ensures r.Ok? <==> |dl| >= 2
    ensures r.Err? ==> r.error == IndexError
    ensures r.Ok? ==> r.value.D == dl[0] && r.value.L == dl[1]
    ensures r.Ok? ==> r.value.S == 0.0 && r.value.W == 0.0 && r.value.E == 0.0
  {
    if |dl| < 2 then Err(IndexError) else Ok(Load(dl[0], dl[1], 0.0, 0.0, 0.0))
  }

  /** The radius of gyration sqrt(I / A). */
  function RadiusOfGyration(I: real, A: real, sqrt: real -> real): (r: Result<real>)
    ensures r == Err(ZeroDivisionError) <==> A == 0.0
    ensures r == Err(ValueError) <==> A != 0.0 && I / A < 0.0
    ensures r.Ok? <==> A != 0.0 && 0.0 <= I / A
    ensures IsSqrt(sqrt) && r.Ok? ==> 0.0 <= r.value && r.value * r.value * A == I
  {
    if A == 0.0 then Err(ZeroDivisionError)
    else if I / A < 0.0 then Err(ValueError)
    else Ok(sqrt(I / A))
  }

  /** The Euler buckling load pi^2 E I / (k L^2), with k multiplying L^2 as the source writes it. */
  function EulerBucklingLoad(E: real, I: real, k: real, L: real): (r: Result<real>)
    ensures r.Err? <==> k == 0.0 || L == 0.0
    ensures r.Err? ==> r.error == ZeroDivisionError
    ensures r.Ok? ==> r.value * (k * (L * L)) == Pi * Pi * E * I
  {
    ZeroProduct(L, L);
    ZeroProduct(k, L * L);
    if k * (L * L) == 0.0 then Err(ZeroDivisionError)
    else Ok(Pi * Pi * E * I / (k * (L * L)))
  }

  /** Over the reals a product is zero only when a factor is. */
  lemma ZeroProduct(a: real, b: real)
    ensures a * b == 0.0 <==> a == 0.0 || b == 0.0
  {

  }

  /** Multiplying by a positive factor keeps a strict order. */
  lemma ScaleStrictlyIncreasing(k: real, a: real, b: real)
    requires 0.0 < k && a < b
    ensures k * a < k * b
  {

  }

  /** For positive inputs the Euler buckling load is defined and positive. */
  lemma EulerBucklingLoadPositive(E: real, I: real, k: real, L: real)
    requires 0.0 < E && 0.0 < I && 0.0 < k && L != 0.0
    ensures EulerBucklingLoad(E, I, k, L).Ok?
    ensures EulerBucklingLoad(E, I, k, L).value > 0.0
  {

  }

  /** A longer column of the same section buckles under a smaller load. */
  lemma EulerBucklingLoadDecreasesWithLength(E: real, I: real, k: real, L1: real, L2: real)
    requires 0.0 < E && 0.0 < I && 0.0 < k && 0.0 < L1 < L2
    ensures EulerBucklingLoad(E, I, k, L1).Ok? && EulerBucklingLoad(E, I, k, L2).Ok?
    ensures EulerBucklingLoad(E, I, k, L2).value < EulerBucklingLoad(E, I, k, L1).value
  {

  }

  /** The governing elastic buckling stress F_e: the smaller of P_Ex / A and P_Ey / A. */
  function GoverningBucklingStress(area: real, Ix: real, Iy: real, kx: real, ky: real, L: real, E: real)
    : (r: Result<real>)
    ensures r.Err? <==> area == 0.0 || kx == 0.0 || ky == 0.0 || L == 0.0
    ensures r.Err? ==> r.error == ZeroDivisionError
    ensures r.Ok? ==> && EulerBucklingLoad(E, Ix, kx, L).Ok? && EulerBucklingLoad(E, Iy, ky, L).Ok?
                      && r.value <= EulerBucklingLoad(E, Ix, kx, L).value / area
                      && r.value <= EulerBucklingLoad(E, Iy, ky, L).value / area
                      && (|| r.value == EulerBucklingLoad(E, Ix, kx, L).value / area
                          || r.value == EulerBucklingLoad(E, Iy, ky, L).value / area)
  {
    match EulerBucklingLoad(E, Ix, kx, L)
    case Err(e) => Err(e)
    case Ok(pEx) =>
      if area == 0.0 then Err(ZeroDivisionError)
      else
        var fEx := pEx / area;
        match EulerBucklingLoad(E, Iy, ky, L)
        case Err(e) => Err(e)
        case Ok(pEy) =>
          var fEy := pEy / area;
          Ok(Min(fEx, fEy))
  }

  /** The factored compressive resistance of clause 13.3.1 of CSA S16:19 about the
      governing axis: phi A fy (1 + lambda^(2n))^(-1/n) with lambda = sqrt(fy / F_e). */
  function FactoredAxialCapacity(area: real, Ix: real, Iy: real, kx: real, ky: real, L: real,
                                 E: real, fy: real, n: real,
                                 sqrt: real -> real, pow: (real, real) -> real,
                                 phi: real := DefaultPhi): (r: Result<real>)
    ensures area == 0.0 || kx == 0.0 || ky == 0.0 || L == 0.0 ==> r == Err(ZeroDivisionError)
    ensures n == 0.0 ==> r.Err?
    ensures r.Ok? ==> GoverningBucklingStress(area, Ix, Iy, kx, ky, L, E).Ok?
    ensures GoverningBucklingStress(area, Ix, Iy, kx, ky, L, E).Ok? ==>
              var fE := GoverningBucklingStress(area, Ix, Iy, kx, ky, L, E).value;
              && (fE == 0.0 ==> r == Err(ZeroDivisionError))
              && (fE != 0.0 && fy / fE < 0.0 ==> r == Err(ValueError))
              && (IsSqrt(sqrt) && fE != 0.0 && fy == 0.0 && n < 0.0 ==> r == Err(ZeroDivisionError))
    ensures IsSqrt(sqrt) ==>
              var G := GoverningBucklingStress(area, Ix, Iy, kx, ky, L, E);
              (r.Ok? <==> && G.Ok? && G.value != 0.0 && 0.0 <= fy / G.value
                          && n != 0.0 && !(fy == 0.0 && n < 0.0))
  {
    match GoverningBucklingStress(area, Ix, Iy, kx, ky, L, E)
    case Err(e) => Err(e)
    case Ok(fE) =>
      if fE == 0.0 then Err(ZeroDivisionError)
      else if fy / fE < 0.0 then Err(ValueError)
      else
        var lambda := sqrt(fy / fE);
        SqrtIsZero(sqrt, fy / fE);
        QuotientIsZero(fy, fE);
        if lambda == 0.0 && 2.0 * n < 0.0 then Err(ZeroDivisionError)
        else if n == 0.0 then Err(ZeroDivisionError)
        else Ok(phi * area * fy * pow(1.0 + pow(lambda, 2.0 * n), -1.0 / n))
  }

  /** Dividing by a positive divisor keeps a strict order. */
  lemma QuotientIncreases(a: real, b: real, d: real)
    requires a < b && 0.0 < d
    ensures a / d < b / d
  {

  }

  /** Multiplying and then dividing by the same non-zero number is the identity. */
  lemma MulDiv(a: real, b: real)
    requires b != 0.0
    ensures a * b / b == a
  {
  }

  /** A non-negative number whose square is zero is zero. */
  lemma SquareZero(s: real)
    requires 0.0 <= s && s * s == 0.0
    ensures s == 0.0
  {
    if s != 0.0 {
      MulDiv(s, s);
    }
  }

  /** A true square root is zero exactly at zero. */
  lemma SqrtIsZero(sqrt: real -> real, t: real)
    ensures IsSqrt(sqrt) && 0.0 <= t ==> (sqrt(t) == 0.0 <==> t == 0.0)
  {
    if IsSqrt(sqrt) && 0.0 <= t && t == 0.0 {
      SquareZero(sqrt(t));
    }
  }

  /** A quotient by a non-zero divisor is zero exactly when its dividend is. */
  lemma QuotientIsZero(a: real, d: real)
    ensures d != 0.0 ==> (a / d == 0.0 <==> a == 0.0)
  {
    if d != 0.0 && a / d == 0.0 {
      assert a == a / d * d;
    }
  }

  /** Which axis is called x and which y does not change the governing buckling stress. */
  lemma GoverningBucklingStressSwapAxes(area: real, Ix: real, Iy: real, kx: real, ky: real, L: real, E: real)
    ensures GoverningBucklingStress(area, Iy, Ix, ky, kx, L, E) == GoverningBucklingStress(area, Ix, Iy, kx, ky, L, E)
  {
  }

  /** Exchanging (Ix, kx) with (Iy, ky) leaves the factored resistance unchanged. */
  lemma FactoredAxialCapacitySwapAxes(area: real, Ix: real, Iy: real, kx: real, ky: real, L: real,
                                      E: real, fy: real, n: real,
                                      sqrt: real -> real, pow: (real, real) -> real, phi: real)
    ensures FactoredAxialCapacity(area, Iy, Ix, ky, kx, L, E, fy, n, sqrt, pow, phi)
         == FactoredAxialCapacity(area, Ix, Iy, kx, ky, L, E, fy, n, sqrt, pow, phi)
  {
    GoverningBucklingStressSwapAxes(area, Ix, Iy, kx, ky, L, E);
    var g := GoverningBucklingStress(area, Ix, Iy, kx, ky, L, E);
    assert GoverningBucklingStress(area, Iy, Ix, ky, kx, L, E) == g;
    var a := FactoredAxialCapacity(area, Iy, Ix, ky, kx, L, E, fy, n, sqrt, pow, phi);
    var b := FactoredAxialCapacity(area, Ix, Iy, kx, ky, L, E, fy, n, sqrt, pow, phi);
    if g.Ok? && g.value != 0.0 && 0.0 <= fy / g.value {
      var lambda := sqrt(fy / g.value);
      if !(lambda == 0.0 && 2.0 * n < 0.0) && n != 0.0 {
        assert b.Ok?;
        assert b.value == phi * area * fy * pow(1.0 + pow(lambda, 2.0 * n), -1.0 / n);
        assert a.Ok?;
        assert a.value == phi * area * fy * pow(1.0 + pow(lambda, 2.0 * n), -1.0 / n);
      }
    }
  }

  /** For a physical section the governing buckling stress is positive and falls as the
      column gets longer. */
  lemma GoverningBucklingStressDecreasesWithHeight(area: real, Ix: real, Iy: real, kx: real, ky: real,
                                                   E: real, L1: real, L2: real)
    requires 0.0 < area && 0.0 < Ix && 0.0 < Iy && 0.0 < kx && 0.0 < ky && 0.0 < E
    requires 0.0 < L1 < L2
    ensures GoverningBucklingStress(area, Ix, Iy, kx, ky, L1, E).Ok?
    ensures GoverningBucklingStress(area, Ix, Iy, kx, ky, L2, E).Ok?
    ensures 0.0 < GoverningBucklingStress(area, Ix, Iy, kx, ky, L2, E).value
                < GoverningBucklingStress(area, Ix, Iy, kx, ky, L1, E).value
  {
    EulerBucklingLoadPositive(E, Ix, kx, L2);
    EulerBucklingLoadPositive(E, Iy, ky, L2);
    EulerBucklingLoadDecreasesWithLength(E, Ix, kx, L1, L2);
    EulerBucklingLoadDecreasesWithLength(E, Iy, ky, L1, L2);
    var x1, x2 := EulerBucklingLoad(E, Ix, kx, L1).value, EulerBucklingLoad(E, Ix, kx, L2).value;
    var y1, y2 := EulerBucklingLoad(E, Iy, ky, L1).value, EulerBucklingLoad(E, Iy, ky, L2).value;
    QuotientIncreases(0.0, x2, area);
    QuotientIncreases(0.0, y2, area);
    QuotientIncreases(x2, x1, area);
    QuotientIncreases(y2, y1, area);
  }

  /** For a physical section, a non-negative yield stress and a positive shape factor the
      resistance is defined: no division by zero and no square root of a negative. */
  lemma FactoredAxialCapacityDefined(area: real, Ix: real, Iy: real, kx: real, ky: real, L: real,
                                     E: real, fy: real, n: real,
                                     sqrt: real -> real, pow: (real, real) -> real, phi: real)
    requires 0.0 < area && 0.0 < Ix && 0.0 < Iy && 0.0 < kx && 0.0 < ky && 0.0 < E && L != 0.0
    requires 0.0 <= fy && 0.0 < n
    ensures FactoredAxialCapacity(area, Ix, Iy, kx, ky, L, E, fy, n, sqrt, pow, phi).Ok?
  {

  }

  /** Since lambda^(2n) == (fy / F_e)^n, the resistance is phi A fy (1 + (fy / F_e)^n)^(-1/n). */
  lemma FactoredAxialCapacityFormula(area: real, Ix: real, Iy: real, kx: real, ky: real, L: real,
                                     E: real, fy: real, n: real,
                                     sqrt: real -> real, pow: (real, real) -> real, phi: real)
    requires IsSqrt(sqrt) && IsPow(pow) && SqrtPowLaw(sqrt, pow)
    requires FactoredAxialCapacity(area, Ix, Iy, kx, ky, L, E, fy, n, sqrt, pow, phi).Ok?
    ensures var fE := GoverningBucklingStress(area, Ix, Iy, kx, ky, L, E).value;
            && fE != 0.0
            && FactoredAxialCapacity(area, Ix, Iy, kx, ky, L, E, fy, n, sqrt, pow, phi).value
               == phi * area * fy * pow(1.0 + pow(fy / fE, n), -1.0 / n)
  {

  }

  /** A product c * p with 0 < p <= 1 lies in (0, c] for a positive c. */
  lemma ScaleByFraction(c: real, p: real, r: real)
    requires 0.0 < c && 0.0 < p <= 1.0 && r == c * p
    ensures 0.0 < r <= c
  {

  }

  /** For a positive yield stress, resistance factor and shape factor the resistance is
      positive and never more than the squash load phi A fy. */
  lemma FactoredAxialCapacityWithinSquashLoad(area: real, Ix: real, Iy: real, kx: real, ky: real, L: real,
                                              E: real, fy: real, n: real,
                                              sqrt: real -> real, pow: (real, real) -> real, phi: real)
    requires IsSqrt(sqrt) && IsPow(pow)
    requires 0.0 < area && 0.0 < fy && 0.0 < n && 0.0 < phi
    requires FactoredAxialCapacity(area, Ix, Iy, kx, ky, L, E, fy, n, sqrt, pow, phi).Ok?
    ensures 0.0 < FactoredAxialCapacity(area, Ix, Iy, kx, ky, L, E, fy, n, sqrt, pow, phi).value
                <= phi * area * fy
  {
    var fE := GoverningBucklingStress(area, Ix, Iy, kx, ky, L, E).value;
    var t := fy / fE;
    var lambda := sqrt(t);
    assert t != 0.0 by {
      assert t * fE == fy;
    }
    assert 0.0 < lambda by {
      assert lambda * lambda == t;
    }
    var base := 1.0 + pow(lambda, 2.0 * n);
    assert 1.0 < base;
    var e := -1.0 / n;
    assert e <= 0.0 by {
      assert e * n == -1.0;
      if 0.0 < e {
        ScaleStrictlyIncreasing(n, 0.0, e);
      }
    }
    var p := pow(base, e);
    assert 0.0 < p <= 1.0;
    ScaleStrictlyIncreasing(phi, 0.0, area);
    ScaleStrictlyIncreasing(phi * area, 0.0, fy);
    var r := FactoredAxialCapacity(area, Ix, Iy, kx, ky, L, E, fy, n, sqrt, pow, phi).value;
    assert r == phi * area * fy * p;
    ScaleByFraction(phi * area * fy, p, r);
  }
}
