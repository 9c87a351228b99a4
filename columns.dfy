/** The column data types: a general doubly-symmetric Column, whose properties are asked
    for about a named axis, and a SteelColumn, which adds a tag, a yield stress, the load
    applied at its top and a resistance factor. SteelColumn embeds the fields of Column
    and gives them back through AsColumn. */
module Columns {
  import opened Exceptions
  import opened ColumnFormulas

  /** The axis labels that lower-case to "x". */
  predicate IsXAxis(axis: string) {
    axis == "x" || axis == "X"
  }

  /** The axis labels that lower-case to "y". */
  predicate IsYAxis(axis: string) {
    axis == "y" || axis == "Y"
  }

  /** A homogeneous, doubly-symmetric prismatic member. */
  datatype Column = Column(height: real, area: real, Ix: real, Iy: real, kx: real, ky: real, E: real)
  {
    /** The radius of gyration about the named axis; any other label leaves the result
        unassigned, which raises UnboundLocalError. */
    function RadiusOfGyration(axis: string, sqrt: real -> real): (r: Result<real>)
      ensures IsXAxis(axis) ==> r == ColumnFormulas.RadiusOfGyration(Ix, area, sqrt)
      ensures IsYAxis(axis) ==> r == ColumnFormulas.RadiusOfGyration(Iy, area, sqrt)
      ensures !IsXAxis(axis) && !IsYAxis(axis) ==> r == Err(UnboundLocalError)
      ensures (IsXAxis(axis) || IsYAxis(axis)) && area == 0.0 ==> r == Err(ZeroDivisionError)
      ensures IsSqrt(sqrt) && r.Ok? ==>
                0.0 <= r.value && r.value * r.value * area == (if IsXAxis(axis) then Ix else Iy)
    {
      if IsXAxis(axis) then ColumnFormulas.RadiusOfGyration(Ix, area, sqrt)
      else if IsYAxis(axis) then ColumnFormulas.RadiusOfGyration(Iy, area, sqrt)
      else Err(UnboundLocalError)
    }

    /** The Euler buckling load about the named axis, from that axis's I and k; any other
        label raises UnboundLocalError. */
    function EulerBucklingLoad(axis: string): (r: Result<real>)
      ensures IsXAxis(axis) ==> r == ColumnFormulas.EulerBucklingLoad(E, Ix, kx, height)
      ensures IsYAxis(axis) ==> r == ColumnFormulas.EulerBucklingLoad(E, Iy, ky, height)
      ensures !IsXAxis(axis) && !IsYAxis(axis) ==> r == Err(UnboundLocalError)
      ensures r.Ok? ==> r.value * ((if IsXAxis(axis) then kx else ky) * (height * height))
                        == Pi * Pi * E * (if IsXAxis(axis) then Ix else Iy)
    {
      if IsXAxis(axis) then ColumnFormulas.EulerBucklingLoad(E, Ix, kx, height)
      else if IsYAxis(axis) then ColumnFormulas.EulerBucklingLoad(E, Iy, ky, height)
      else Err(UnboundLocalError)
    }

    /** The same member turned a quarter turn: the x and y properties exchanged. */
    function Turned(): (c: Column)
      ensures c.Ix == Iy && c.Iy == Ix && c.kx == ky && c.ky == kx
      ensures c.height == height && c.area == area && c.E == E
    {
      this.(Ix := Iy, Iy := Ix, kx := ky, ky := kx)
    }
  }

  /** Asking about x is asking about y of the turned member, and the other way round. */
  lemma TurnedColumnExchangesAxes(c: Column, sqrt: real -> real)
    ensures c.Turned().EulerBucklingLoad("y") == c.EulerBucklingLoad("x")
    ensures c.Turned().EulerBucklingLoad("x") == c.EulerBucklingLoad("y")
    ensures c.Turned().RadiusOfGyration("Y", sqrt) == c.RadiusOfGyration("X", sqrt)
    ensures c.Turned().RadiusOfGyration("X", sqrt) == c.RadiusOfGyration("Y", sqrt)
  {
  }

  /** A steel column: the fields of Column, a tag, the yield stress fy, the load at its top
      and the resistance factor phi. */
  datatype SteelColumn = SteelColumn(height: real, area: real, Ix: real, Iy: real,
                                     kx: real, ky: real, E: real,
                                     columnTag: string, fy: real, axialLoads: Load,
                                     phi: real := DefaultPhi)
  {
    /** The Column part of this steel column. */
    function AsColumn(): (c: Column)
      ensures c.height == height && c.area == area && c.E == E
      ensures c.Ix == Ix && c.Iy == Iy && c.kx == kx && c.ky == ky
    {
      Column(height, area, Ix, Iy, kx, ky, E)
    }

    /** The governing factored load of the applied load. */
    function FactoredAxialLoad(): (r: real)
      ensures r == MaxFactoredLoad(axialLoads)
    {
      MaxFactoredLoad(axialLoads)
    }

    /** The factored resistance about the governing axis. The fields are forwarded but
        phi is not, so the default factor 0.9 applies whatever this.phi holds. */
    function FactoredAxialCapacity(n: real, sqrt: real -> real, pow: (real, real) -> real): (r: Result<real>)
      ensures r == ColumnFormulas.FactoredAxialCapacity(area, Ix, Iy, kx, ky, height, E, fy, n, sqrt, pow, DefaultPhi)
    {
      ColumnFormulas.FactoredAxialCapacity(area, Ix, Iy, kx, ky, height, E, fy, n, sqrt, pow)
    }

    /** The demand/capacity ratio: the factored load over the factored resistance. */
    function FactoredDcr(n: real, sqrt: real -> real, pow: (real, real) -> real): (r: Result<real>)
      ensures FactoredAxialCapacity(n, sqrt, pow).Err? ==> r == FactoredAxialCapacity(n, sqrt, pow)
      ensures FactoredAxialCapacity(n, sqrt, pow) == Ok(0.0) ==> r == Err(ZeroDivisionError)
      ensures r.Ok? <==> FactoredAxialCapacity(n, sqrt, pow).Ok? && FactoredAxialCapacity(n, sqrt, pow).value != 0.0
      ensures r.Ok? ==> r.value * FactoredAxialCapacity(n, sqrt, pow).value == FactoredAxialLoad()
    {
      DivideBy(FactoredAxialLoad(), FactoredAxialCapacity(n, sqrt, pow))
    }
  }

  /** Python's `a / b` where evaluating b may already have raised: b's exception
      propagates, a zero divisor raises ZeroDivisionError, and otherwise the quotient. */
  function DivideBy(a: real, b: Result<real>): (r: Result<real>)
    ensures b.Err? ==> r == b
    ensures b == Ok(0.0) ==> r == Err(ZeroDivisionError)
    ensures r.Ok? <==> b.Ok? && b.value != 0.0
    ensures r.Ok? ==> r.value * b.value == a
  {
    if b.Err? then b
    else if b.value == 0.0 then Err(ZeroDivisionError)
    else Ok(a / b.value)
  }

  /** A steel column answers the inherited Column methods from its own fields, and the
      governing buckling stress of its resistance is the smaller of the two Euler loads
      its Column part reports, each over the area. */
  lemma SteelColumnBucklingStressFromColumn(s: SteelColumn)
    ensures var G := GoverningBucklingStress(s.area, s.Ix, s.Iy, s.kx, s.ky, s.height, s.E);
            var px := s.AsColumn().EulerBucklingLoad("x");
            var py := s.AsColumn().EulerBucklingLoad("y");
            && (G.Ok? <==> s.area != 0.0 && px.Ok? && py.Ok?)
            && (G.Ok? ==> G.value == Min(px.value / s.area, py.value / s.area))
  {
  }

  /** The resistance factor stored in a steel column never reaches its resistance. */
  lemma SteelColumnIgnoresPhi(c: SteelColumn, phi: real, n: real, sqrt: real -> real, pow: (real, real) -> real)
    ensures c.(phi := phi).FactoredAxialCapacity(n, sqrt, pow) == c.FactoredAxialCapacity(n, sqrt, pow)
    ensures c.(phi := phi).FactoredDcr(n, sqrt, pow) == c.FactoredDcr(n, sqrt, pow)
  {
  }

  /** The column of all zeros raises ZeroDivisionError for its resistance. */
  lemma EmptySteelColumnRaisesZeroDivision(tag: string, fy: real, n: real, sqrt: real -> real, pow: (real, real) -> real)
    ensures SteelColumn(0.0, 0.0, 0.0, 0.0, 0.0, 0.0, 0.0, tag, fy, Load(0.0, 0.0, 0.0, 0.0, 0.0))
              .FactoredAxialCapacity(n, sqrt, pow) == Err(ZeroDivisionError)
  {
  }

  /** For a positive resistance the column is adequate (ratio at most one) exactly when the
      factored load does not exceed the factored resistance. */
  lemma FactoredDcrAdequacy(c: SteelColumn, n: real, sqrt: real -> real, pow: (real, real) -> real)
    requires c.FactoredAxialCapacity(n, sqrt, pow).Ok? && 0.0 < c.FactoredAxialCapacity(n, sqrt, pow).value
    ensures c.FactoredDcr(n, sqrt, pow).Ok?
    ensures c.FactoredDcr(n, sqrt, pow).value <= 1.0 <==> c.FactoredAxialLoad() <= c.FactoredAxialCapacity(n, sqrt, pow).value
  {
    RatioAtMostOne(c.FactoredAxialLoad(), c.FactoredAxialCapacity(n, sqrt, pow));
  }

  /** For a positive capacity, demand / capacity <= 1 exactly when demand <= capacity. */
  lemma RatioAtMostOne(demand: real, capacity: Result<real>)
    requires capacity.Ok? && 0.0 < capacity.value
    ensures DivideBy(demand, capacity).Ok?
    ensures DivideBy(demand, capacity).value <= 1.0 <==> demand <= capacity.value
  {

  }
}
