/** The height sweep behind the comparison plot. ColumnPrOverHeightRange walks one mutable
    steel column through a range of heights, overwriting its height at each step and
    collecting the factored resistance (hot-rolled, n = 1.34); PrCurve is the same sweep as
    a function, and CompareTwoColumns runs it for two sections. */
module SampleApp {
  import opened Exceptions
  import opened ColumnFormulas
  import opened Columns

  /** The elastic modulus used when the caller gives none. */
  const DefaultE: real := 200000.0
  /** The yield stress used when the caller gives none. */
  const DefaultFy: real := 350.0

  /** Whether `a` still lies before `stop` when stepping by `step`: below it for a
      positive step, above it for a negative one. */
  predicate Before(a: int, stop: int, step: int) {
    if step > 0 then a < stop else a > stop
  }

  /** The terms start, start + step, ... as long as they lie before stop. */
  function Progression(start: int, stop: int, step: int): seq<int>
    requires step != 0
    decreases if step > 0 then stop - start else start - stop
  {
    if Before(start, stop, step) then [start] + Progression(start + step, stop, step) else []
  }

  /** Python's list(range(start, stop, step)); a zero step raises ValueError. */
  function HeightRange(start: int, stop: int, step: int): (r: Result<seq<int>>)
    ensures r.Err? <==> step == 0
    ensures r.Err? ==> r.error == ValueError
    ensures r.Ok? ==> r.value == Progression(start, stop, step)
  {
    if step == 0 then Err(ValueError) else Ok(Progression(start, stop, step))
  }

  /** The i-th height is start + i * step, every height lies before stop, and the next term
      would not: the list stops exactly where range stops. */
  lemma {:induction false} ProgressionTerms(start: int, stop: int, step: int)
    requires step != 0
    ensures var p := Progression(start, stop, step);
            && (p == [] <==> !Before(start, stop, step))
            && (forall i :: 0 <= i < |p| ==> p[i] == start + i * step && Before(p[i], stop, step))
            && !Before(start + |p| * step, stop, step)
    decreases if step > 0 then stop - start else start - stop
  {
    var p := Progression(start, stop, step);
    if Before(start, stop, step) {
      var q := Progression(start + step, stop, step);
      ProgressionTerms(start + step, stop, step);
      assert p == [start] + q;
      forall i | 0 <= i < |p|
        ensures p[i] == start + i * step && Before(p[i], stop, step)
      {
        if i > 0 {
          assert p[i] == q[i - 1];
        }
      }
      assert start + |p| * step == (start + step) + |q| * step;
    }
  }

  /** From a < b and a positive factor k follows k * a < k * b, over the integers. */
  lemma ScaleIntStrictly(k: int, a: int, b: int)
    requires 0 < k && a < b
    ensures k * a < k * b
  {

  }

  /** For a positive step, range yields max(0, ceil((stop - start) / step)) heights, every one
      of them at least start and below stop; a start at or past stop yields none. */
  lemma HeightRangeLength(start: int, stop: int, step: int)
    requires 0 < step
    ensures HeightRange(start, stop, step).Ok?
    ensures var p := HeightRange(start, stop, step).value;
            && |p| == (if start < stop then (stop - start + step - 1) / step else 0)
            && (forall i :: 0 <= i < |p| ==> p[i] == start + i * step && start <= p[i] < stop)
  {
    var p := Progression(start, stop, step);
    ProgressionTerms(start, stop, step);
    forall i | 0 <= i < |p|
      ensures start <= p[i]
    {
      if 0 < i {
        ScaleIntStrictly(step, 0, i);
      }
    }
    if start < stop {
      var n, d := |p|, stop - start;
      assert (n - 1) * step < d <= n * step by {
        assert p[n - 1] == start + (n - 1) * step;
      }
      DivisionBracket(d + step - 1, step, n);
    }
  }

  /** An integer bracketed by n * step and (n + 1) * step has quotient n. */
  lemma DivisionBracket(a: int, step: int, n: int)
    requires 0 < step && n * step <= a < (n + 1) * step
    ensures a / step == n
  {
    var q, m := a / step, a % step;
    assert a == q * step + m && 0 <= m < step;
    if q < n {
      ScaleIntAtMost(step, q + 1, n);
    } else if n < q {
      ScaleIntAtMost(step, n + 1, q);
    }
  }

  /** From a <= b and a positive factor k follows k * a <= k * b, over the integers. */
  lemma ScaleIntAtMost(k: int, a: int, b: int)
    requires 0 < k && a <= b
    ensures k * a <= k * b
  {

  }

  /** The steel column the sweep starts from: pinned-pinned (kx = ky = 1), no applied load,
      the default resistance factor, at the minimum height. */
  function SweepColumn(minHeight: int, columnTag: string, area: real, iX: real, iY: real, E: real, fy: real)
    : (c: SteelColumn)
    ensures c.height == minHeight as real && c.area == area && c.Ix == iX && c.Iy == iY
    ensures c.kx == 1.0 && c.ky == 1.0 && c.E == E && c.fy == fy && c.phi == DefaultPhi
    ensures c.columnTag == columnTag && c.axialLoads == Load(0.0, 0.0, 0.0, 0.0, 0.0)
  {
    SteelColumn(minHeight as real, area, iX, iY, 1.0, 1.0, E, columnTag, fy, Load(0.0, 0.0, 0.0, 0.0, 0.0))
  }

  /** The hot-rolled resistance of `template` with its height replaced by h. */
  function CapacityAt(template: SteelColumn, h: int, sqrt: real -> real, pow: (real, real) -> real)
    : Result<real>
  {
    template.(height := h as real).FactoredAxialCapacity(HotRolledN, sqrt, pow)
  }

  /** The resistances at the given heights, in order; the first height whose resistance
      raises ends the sweep with that exception. */
  function Capacities(template: SteelColumn, heights: seq<int>, sqrt: real -> real, pow: (real, real) -> real)
    : Result<seq<real>>
    decreases |heights|
  {
    if heights == [] then Ok([])
    else
      match Capacities(template, heights[..|heights| - 1], sqrt, pow)
      case Err(e) => Err(e)
      case Ok(ys) =>
        match CapacityAt(template, heights[|heights| - 1], sqrt, pow)
        case Err(e) => Err(e)
        case Ok(y) => Ok(ys + [y])
  }

  /** A successful sweep gives one resistance per height, each the resistance at that
      height; a failed one fails with the exception of the first height that raises. */
  lemma {:induction false} CapacitiesAligned(template: SteelColumn, heights: seq<int>,
                                             sqrt: real -> real, pow: (real, real) -> real)
    ensures var r := Capacities(template, heights, sqrt, pow);
            && (r.Ok? ==> |r.value| == |heights|
                          && forall i :: 0 <= i < |heights| ==>
                               CapacityAt(template, heights[i], sqrt, pow) == Ok(r.value[i]))
            && (r.Err? <==> exists i :: 0 <= i < |heights| && CapacityAt(template, heights[i], sqrt, pow).Err?)
            && (r.Err? ==> exists i :: && 0 <= i < |heights|
                                       && CapacityAt(template, heights[i], sqrt, pow) == Err(r.error)
                                       && forall j :: 0 <= j < i ==> CapacityAt(template, heights[j], sqrt, pow).Ok?)
    decreases |heights|
  {
    if heights != [] {
      var front := heights[..|heights| - 1];
      CapacitiesAligned(template, front, sqrt, pow);
      var r := Capacities(template, heights, sqrt, pow);
      var last := |heights| - 1;
      assert forall i :: 0 <= i < |front| ==> front[i] == heights[i];
      if r.Err? && Capacities(template, front, sqrt, pow).Ok? {
        assert CapacityAt(template, heights[last], sqrt, pow) == Err(r.error);
      }
    }
  }

  /** Once a prefix of the heights fails, the whole sweep fails the same way. */
  lemma {:induction false} CapacitiesFailFromPrefix(template: SteelColumn, heights: seq<int>, k: nat,
                                                    sqrt: real -> real, pow: (real, real) -> real)
    requires k <= |heights|
    requires Capacities(template, heights[..k], sqrt, pow).Err?
    ensures Capacities(template, heights, sqrt, pow) == Capacities(template, heights[..k], sqrt, pow)
    decreases |heights| - k
  {
    if k < |heights| {
      var front := heights[..|heights| - 1];
      assert front[..k] == heights[..k];
      CapacitiesFailFromPrefix(template, front, k, sqrt, pow);
    } else {
      assert heights[..k] == heights;
    }
  }

  /** The sweep as a function: the heights of range(minHeight, maxHeight, interval) and the
      hot-rolled resistance at each, or the first exception raised. */
  function PrCurve(minHeight: int, maxHeight: int, interval: int, columnTag: string,
                   area: real, iX: real, iY: real, sqrt: real -> real, pow: (real, real) -> real,
                   E: real := DefaultE, fy: real := DefaultFy): Result<Curve>
  {
    match HeightRange(minHeight, maxHeight, interval)
    case Err(e) => Err(e)
    case Ok(xs) =>
      match Capacities(SweepColumn(minHeight, columnTag, area, iX, iY, E, fy), xs, sqrt, pow)
      case Err(e) => Err(e)
      case Ok(ys) => Ok(Curve(xs, ys))
  }

  /** A resistance curve: the heights and the resistance at each. */
  datatype Curve = Curve(heights: seq<int>, resistances: seq<real>)

  /** When the caller leaves them out, E is 200e3 and fy is 350. */
  lemma PrCurveDefaults(minHeight: int, maxHeight: int, interval: int, columnTag: string,
                        area: real, iX: real, iY: real, sqrt: real -> real, pow: (real, real) -> real)
    ensures PrCurve(minHeight, maxHeight, interval, columnTag, area, iX, iY, sqrt, pow)
         == PrCurve(minHeight, maxHeight, interval, columnTag, area, iX, iY, sqrt, pow, 200000.0, 350.0)
  {
  }

  /** A successful sweep pairs the heights of range(minHeight, maxHeight, interval) with, at
      each, factored_axial_capacity(area, iX, iY, 1, 1, height, E, fy, 1.34) at phi = 0.9. */
  lemma PrCurveShape(minHeight: int, maxHeight: int, interval: int, columnTag: string,
                     area: real, iX: real, iY: real, sqrt: real -> real, pow: (real, real) -> real,
                     E: real, fy: real)
    requires PrCurve(minHeight, maxHeight, interval, columnTag, area, iX, iY, sqrt, pow, E, fy).Ok?
    ensures var c := PrCurve(minHeight, maxHeight, interval, columnTag, area, iX, iY, sqrt, pow, E, fy).value;
            && HeightRange(minHeight, maxHeight, interval) == Ok(c.heights)
            && |c.resistances| == |c.heights|
            && forall i :: 0 <= i < |c.heights| ==>
                 FactoredAxialCapacity(area, iX, iY, 1.0, 1.0, c.heights[i] as real, E, fy, HotRolledN, sqrt, pow, DefaultPhi)
                   == Ok(c.resistances[i])
  {
    var xs := HeightRange(minHeight, maxHeight, interval).value;
    CapacitiesAligned(SweepColumn(minHeight, columnTag, area, iX, iY, E, fy), xs, sqrt, pow);
  }

  /** For a positive step, a positive minimum height and a physical section every point of
      the sweep is defined, so the sweep succeeds. */
  lemma PrCurveDefined(minHeight: int, maxHeight: int, interval: int, columnTag: string,
                       area: real, iX: real, iY: real, sqrt: real -> real, pow: (real, real) -> real,
                       E: real, fy: real)
    requires 0 < interval && 0 < minHeight
    requires 0.0 < area && 0.0 < iX && 0.0 < iY && 0.0 < E && 0.0 <= fy
    ensures PrCurve(minHeight, maxHeight, interval, columnTag, area, iX, iY, sqrt, pow, E, fy).Ok?
  {
    var template := SweepColumn(minHeight, columnTag, area, iX, iY, E, fy);
    var xs := HeightRange(minHeight, maxHeight, interval).value;
    HeightRangeLength(minHeight, maxHeight, interval);
    forall i | 0 <= i < |xs|
      ensures CapacityAt(template, xs[i], sqrt, pow).Ok?
    {
      FactoredAxialCapacityDefined(area, iX, iY, 1.0, 1.0, xs[i] as real, E, fy, HotRolledN, sqrt, pow, DefaultPhi);
    }
    CapacitiesAligned(template, xs, sqrt, pow);
  }

  /** A sweep that starts at height zero raises ZeroDivisionError at its first point. */
  lemma PrCurveFailsFromZeroHeight(maxHeight: int, interval: int, columnTag: string,
                                   area: real, iX: real, iY: real, sqrt: real -> real, pow: (real, real) -> real,
                                   E: real, fy: real)
    requires 0 < interval && 0 < maxHeight
    ensures PrCurve(0, maxHeight, interval, columnTag, area, iX, iY, sqrt, pow, E, fy) == Err(ZeroDivisionError)
  {
    var template := SweepColumn(0, columnTag, area, iX, iY, E, fy);
    var xs := HeightRange(0, maxHeight, interval).value;
    ProgressionTerms(0, maxHeight, interval);
    assert xs[..1] == [0];
    assert Capacities(template, [0], sqrt, pow) == Err(ZeroDivisionError) by {
      assert [0][..0] == [];
    }
    CapacitiesFailFromPrefix(template, xs, 1, sqrt, pow);
  }

  /** Two columns with the same section (area, I, k, E, fy) give the same sweep, whatever
      their heights, tags, loads and resistance factors. */
  lemma {:induction false} CapacitiesDependOnSectionOnly(t1: SteelColumn, t2: SteelColumn, heights: seq<int>,
                                                         sqrt: real -> real, pow: (real, real) -> real)
    requires t1.area == t2.area && t1.Ix == t2.Ix && t1.Iy == t2.Iy && t1.kx == t2.kx && t1.ky == t2.ky
    requires t1.E == t2.E && t1.fy == t2.fy
    ensures Capacities(t1, heights, sqrt, pow) == Capacities(t2, heights, sqrt, pow)
    decreases |heights|
  {
    if heights != [] {
      CapacitiesDependOnSectionOnly(t1, t2, heights[..|heights| - 1], sqrt, pow);
      var h := heights[|heights| - 1];
      assert CapacityAt(t1, h, sqrt, pow) == CapacityAt(t2, h, sqrt, pow);
    }
  }

  /** The tag given to the sweep does not change its result. */
  lemma PrCurveIgnoresTag(minHeight: int, maxHeight: int, interval: int, tag1: string, tag2: string,
                          area: real, iX: real, iY: real, sqrt: real -> real, pow: (real, real) -> real,
                          E: real, fy: real)
    ensures PrCurve(minHeight, maxHeight, interval, tag1, area, iX, iY, sqrt, pow, E, fy)
         == PrCurve(minHeight, maxHeight, interval, tag2, area, iX, iY, sqrt, pow, E, fy)
  {
    if interval != 0 {
      CapacitiesDependOnSectionOnly(SweepColumn(minHeight, tag1, area, iX, iY, E, fy),
                                    SweepColumn(minHeight, tag2, area, iX, iY, E, fy),
                                    Progression(minHeight, maxHeight, interval), sqrt, pow);
    }
  }

  /** Both sweeps over one height range, keyed "a" and "b"; column A's sweep runs first, so
      its exception wins when both raise. */
  function CompareTwoColumns(minHeight: int, maxHeight: int, interval: int,
                             areaA: real, iXA: real, iYA: real, eA: real, fyA: real,
                             areaB: real, iXB: real, iYB: real, eB: real, fyB: real,
                             sqrt: real -> real, pow: (real, real) -> real): (r: Result<map<string, Curve>>)
    ensures var a := PrCurve(minHeight, maxHeight, interval, "Column A", areaA, iXA, iYA, sqrt, pow, eA, fyA);
            var b := PrCurve(minHeight, maxHeight, interval, "Column B", areaB, iXB, iYB, sqrt, pow, eB, fyB);
            && (r.Ok? <==> a.Ok? && b.Ok?)
            && (a.Err? ==> r == Err(a.error))
            && (a.Ok? && b.Err? ==> r == Err(b.error))
            && (r.Ok? ==> && r.value.Keys == {"a", "b"}
                          && r.value["a"] == a.value && r.value["b"] == b.value
                          && r.value["a"].heights == r.value["b"].heights)
  {
    match PrCurve(minHeight, maxHeight, interval, "Column A", areaA, iXA, iYA, sqrt, pow, eA, fyA)
    case Err(e) => Err(e)
    case Ok(curveA) =>
      match PrCurve(minHeight, maxHeight, interval, "Column B", areaB, iXB, iYB, sqrt, pow, eB, fyB)
      case Err(e) => Err(e)
      case Ok(curveB) => Ok(map["a" := curveA, "b" := curveB])
  }

  /** Exchanging the two sections exchanges the two entries of a successful comparison. */
  lemma CompareTwoColumnsSwap(minHeight: int, maxHeight: int, interval: int,
                              areaA: real, iXA: real, iYA: real, eA: real, fyA: real,
                              areaB: real, iXB: real, iYB: real, eB: real, fyB: real,
                              sqrt: real -> real, pow: (real, real) -> real)
    requires CompareTwoColumns(minHeight, maxHeight, interval, areaA, iXA, iYA, eA, fyA,
                               areaB, iXB, iYB, eB, fyB, sqrt, pow).Ok?
    ensures var r := CompareTwoColumns(minHeight, maxHeight, interval, areaA, iXA, iYA, eA, fyA,
                                       areaB, iXB, iYB, eB, fyB, sqrt, pow);
            var s := CompareTwoColumns(minHeight, maxHeight, interval, areaB, iXB, iYB, eB, fyB,
                                       areaA, iXA, iYA, eA, fyA, sqrt, pow);
            s.Ok? && s.value["a"] == r.value["b"] && s.value["b"] == r.value["a"]
  {
    PrCurveIgnoresTag(minHeight, maxHeight, interval, "Column A", "Column B", areaA, iXA, iYA, sqrt, pow, eA, fyA);
    PrCurveIgnoresTag(minHeight, maxHeight, interval, "Column A", "Column B", areaB, iXB, iYB, sqrt, pow, eB, fyB);
  }

  /** The mutable steel column object the sweep reuses; only its height is ever assigned. */
  class CalcSteelColumn {
    var height: real
    var area: real
    var Ix: real
    var Iy: real
    var kx: real
    var ky: real
    var E: real
    var columnTag: string
    var fy: real
    var axialLoads: Load
    var phi: real

    /** The steel column value this object currently holds. */
    function Value(): SteelColumn
      reads this
    {
      SteelColumn(height, area, Ix, Iy, kx, ky, E, columnTag, fy, axialLoads, phi)
    }

    constructor (c: SteelColumn)
      ensures Value() == c
    {
      height, area, Ix, Iy, kx, ky, E := c.height, c.area, c.Ix, c.Iy, c.kx, c.ky, c.E;
      columnTag, fy, axialLoads, phi := c.columnTag, c.fy, c.axialLoads, c.phi;
    }

    /** The factored resistance of the column as its fields stand now. */
    function FactoredAxialCapacity(n: real, sqrt: real -> real, pow: (real, real) -> real): (r: Result<real>)
      reads this
      ensures r == Value().FactoredAxialCapacity(n, sqrt, pow)
    {
      Value().FactoredAxialCapacity(n, sqrt, pow)
    }
  }

  /** The sweep as the source runs it: build the height list, then for each height overwrite
      the column's height and append its resistance. */
  method ColumnPrOverHeightRange(minHeight: int, maxHeight: int, interval: int, columnTag: string,
                                 area: real, iX: real, iY: real,
                                 sqrt: real -> real, pow: (real, real) -> real,
                                 E: real := DefaultE, fy: real := DefaultFy)
    returns (r: Result<Curve>)
    ensures r == PrCurve(minHeight, maxHeight, interval, columnTag, area, iX, iY, sqrt, pow, E, fy)
  {
    var range := HeightRange(minHeight, maxHeight, interval);
    if range.Err? {
      return Err(range.error);
    }
    var xValues := range.value;
    var testColumn := new CalcSteelColumn(SweepColumn(minHeight, columnTag, area, iX, iY, E, fy));
    ghost var template := testColumn.Value();
    var yValues: seq<real> := [];
    for i := 0 to |xValues|
      invariant testColumn.Value() == template.(height := testColumn.height)
      invariant Capacities(template, xValues[..i], sqrt, pow) == Ok(yValues)
    {
      testColumn.height := xValues[i] as real;
      var pr := testColumn.FactoredAxialCapacity(HotRolledN, sqrt, pow);
      assert pr == CapacityAt(template, xValues[i], sqrt, pow);
      assert xValues[..i + 1][..i] == xValues[..i];
      if pr.Err? {
        CapacitiesFailFromPrefix(template, xValues, i + 1, sqrt, pow);
        return Err(pr.error);
      }
      yValues := yValues + [pr.value];
    }
    assert xValues[..|xValues|] == xValues;
    return Ok(Curve(xValues, yValues));
  }
}
