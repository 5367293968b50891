/** The configuration object of a power diagram: sites (positions and
    weights), the boundary table, the periodicity list, forced scalar type
    and dimension, and the cached acceleration structure that the compiled
    geometry code is built from. */
module PowerDiagrams {
  import opened Results
  import opened LinAlg
  import Boundaries
  import Periodicity

  /** The acceleration structure, known by what it was built from: the
      scalar type and dimension it was made for, and the positions, weights
      and periodicity list handed to it. */
  datatype Accel = Accel(dtype: string, ndim: int, positions: Table, weights: Row, transforms: seq<Matrix>)

  /** The compiled module selected for a (dtype, ndim) pair, with the
      dimension that module reports for its cells. */
  datatype Binding = Binding(dtype: string, ndim: int, cellDim: nat)

  /** One boundary cut of the base cell: direction, offset and the index
      of the boundary row it comes from. */
  datatype Cut = Cut(dir: Row, offset: real, id: nat)

  // ---------------------------------------------------------------------
  // Dimension inference

  /** The `ndim` property: a forced value unless it is 0, else the width
      of a non-empty boundary table minus one, else the column count of the
      positions, else unknown. An inferred dimension agrees with every row
      of the table it is read from. */
  function InferNdim(forced: Option<int>, boundaries: Option<Table>, positions: Option<Table>): (r: Option<int>)
    ensures (forced.None? || forced == Some(0)) && boundaries.Some? && r.Some? ==>
              forall i :: 0 <= i < |boundaries.value.rows| ==> |boundaries.value.rows[i]| == r.value + 1
    ensures (forced.None? || forced == Some(0)) && (boundaries.None? || boundaries.value.rows == []) && r.Some? ==>
              positions.Some? && forall i :: 0 <= i < |positions.value.rows| ==> |positions.value.rows[i]| == r.value
  {
    if forced.Some? && forced.value != 0 then forced
    else if boundaries.Some? && |boundaries.value.rows| > 0 then
      assert forall i :: 0 <= i < |boundaries.value.rows| ==> boundaries.value.rows[i] in boundaries.value.rows;
      Some(boundaries.value.cols - 1)
    else if positions.Some? then
      assert forall i :: 0 <= i < |positions.value.rows| ==> positions.value.rows[i] in positions.value.rows;
      Some(positions.value.cols)
    else None
  }

  /** A nonzero forced dimension wins whatever the inputs say. */
  lemma ForcedNdimWins(k: int, boundaries: Option<Table>, positions: Option<Table>)
    requires k != 0
    ensures InferNdim(Some(k), boundaries, positions) == Some(k)
  {
  }

  /** Forcing the dimension to 0 is the same as not forcing it. */
  lemma ZeroForcedNdimIgnored(boundaries: Option<Table>, positions: Option<Table>)
    ensures InferNdim(Some(0), boundaries, positions) == InferNdim(None, boundaries, positions)
  {
  }

  /** Without a forced dimension, a non-empty boundary table decides over
      the positions, the positions decide otherwise, and the dimension is
      unknown exactly when neither is there. */
  lemma InferredNdimPrecedence(boundaries: Option<Table>, positions: Option<Table>)
    ensures boundaries.Some? && |boundaries.value.rows| > 0 ==>
              InferNdim(None, boundaries, positions) == Some(boundaries.value.cols - 1)
    ensures (boundaries.None? || boundaries.value.rows == []) && positions.Some? ==>
              InferNdim(None, boundaries, positions) == Some(positions.value.cols)
    ensures InferNdim(None, boundaries, positions).None? <==>
              (boundaries.None? || boundaries.value.rows == []) && positions.None?
  {
  }

  /** After a box of dimension nd > 0 is added, a diagram whose dimension
      is not forced reports nd, whatever its positions say. */
  lemma AddBoxFixesNdim(current: Option<Table>, forced: Option<int>, positions: Option<Table>,
                        minOffset: Boundaries.Offset, maxOffset: Boundaries.Offset,
                        ndimArg: Option<int>, base: Option<seq<Row>>, nd: nat)
    requires forced.None? || forced == Some(0)
    requires Boundaries.BoxDimension(ndimArg, base, InferNdim(forced, current, positions)) == Ok(nd)
    requires nd > 0
    requires Boundaries.AddBox(current, InferNdim(forced, current, positions), minOffset, maxOffset, ndimArg, base).Ok?
    ensures InferNdim(forced, Some(Boundaries.AddBox(current, InferNdim(forced, current, positions),
                                                     minOffset, maxOffset, ndimArg, base).value), positions)
            == Some(nd)
  {
    Boundaries.AddBoxWidth(current, InferNdim(forced, current, positions), minOffset, maxOffset, ndimArg, base, nd);
  }

  // ---------------------------------------------------------------------
  // Cutting the base cell by the boundary table

  /** The index of the first row with no entry at index d, or the number
      of rows when every row has one. */
  function FirstShortRow(rows: seq<Row>, d: nat): (k: nat)
    ensures k <= |rows|
    ensures forall i :: 0 <= i < k ==> |rows[i]| > d
    ensures k < |rows| ==> |rows[k]| <= d
  {
    if rows == [] || |rows[0]| <= d then 0
    else
      var k := FirstShortRow(rows[1..], d);
      assert forall i :: 1 <= i < k + 1 ==> rows[i] == rows[1..][i - 1];
      1 + k
  }

  /** The cuts made for the first k rows: row n cuts along its first d
      entries with offset entry d and is tagged with n. */
  function CutsUpTo(rows: seq<Row>, d: nat, k: nat): seq<Cut>
    requires k <= |rows| && forall i :: 0 <= i < k ==> |rows[i]| > d
  {
    seq(k, i requires 0 <= i < k => Cut(rows[i][..d], rows[i][d], i))
  }

  /** A boundary table of width d + 1 gives one cut per row, in row order,
      tagged with the row index, and each cut excludes exactly the points
      its row declares exterior. */
  lemma CutsMatchBoundaryRows(t: Table, d: nat, p: Row)
    requires t.cols == d + 1 && |p| == d
    ensures FirstShortRow(t.rows, d) == |t.rows|
    ensures forall n :: 0 <= n < |t.rows| ==>
              CutsUpTo(t.rows, d, |t.rows|)[n].id == n &&
              (Boundaries.Exterior(t.rows[n], p) <==>
                 Dot(CutsUpTo(t.rows, d, |t.rows|)[n].dir, p) > CutsUpTo(t.rows, d, |t.rows|)[n].offset)
  {
    forall n | 0 <= n < |t.rows| ensures |t.rows[n]| == d + 1 {
      assert t.rows[n] in t.rows;
    }
  }

  // ---------------------------------------------------------------------
  // The diagram

  class PowerDiagram {
    var boundaries: Option<Table>       // the boundary table, rows [dir..., offset]
    var positions: Option<Table>        // one row per site
    var weights: Option<Row>            // one weight per site
    var periodicity: seq<Matrix>        // direct and inverse matrices, alternating
    var forcedNdim: Option<int>         // a dimension forced by the user
    var forcedDtype: Option<string>     // a scalar type forced by the user
    var accel: Option<Accel>            // the cached acceleration structure
    var binding: Option<Binding>        // the compiled module in use
    var baseCell: seq<Cut>              // the cell every site's cell starts from

    /** The cached acceleration structure, when there is one, was built
        from the current positions, weights and periodicity list. The
        boundary table is not part of it: it is applied to the base cell
        at every update. */
    ghost predicate Valid()
      reads this`accel, this`positions, this`weights, this`periodicity
    {
      accel.Some? ==>
        positions == Some(accel.value.positions) &&
        weights == Some(accel.value.weights) &&
        periodicity == accel.value.transforms
    }

    /** The base initialisation: nothing stored, nothing forced, no cache. */
    constructor ()
      ensures Valid()
      ensures boundaries.None? && positions.None? && weights.None? && periodicity == []
      ensures forcedNdim.None? && forcedDtype.None? && accel.None? && binding.None? && baseCell == []
    {
      boundaries, positions, weights, periodicity := None, None, None, [];
      forcedNdim, forcedDtype, accel, binding, baseCell := None, None, None, None, [];
    }

    /** A diagram built from constructor arguments: dtype and ndim first,
        then boundaries, positions and weights, each through its setter. */
    static method New(positions: Option<Table>, weights: Option<Row>, boundaries: Boundaries.BoundaryInput,
                      dtype: Option<string>, ndim: Option<int>) returns (r: Result<PowerDiagram>)
      ensures r.Err? <==> Boundaries.Update(None, boundaries).Err?
      ensures r.Ok? ==>
                fresh(r.value) && r.value.Valid() &&
                r.value.boundaries == Boundaries.Update(None, boundaries).value &&
                r.value.positions == positions && r.value.weights == weights &&
                r.value.periodicity == [] && r.value.accel.None? &&
                r.value.forcedDtype == dtype && r.value.forcedNdim == ndim
    {
      var pd := new PowerDiagram();
      pd.SetDtype(dtype);
      pd.SetNdim(ndim);
      assert pd.forcedDtype == dtype && pd.forcedNdim == ndim && pd.boundaries.None?;
      var raised := pd.SetBoundaries(boundaries);
      if raised.Some? {
        return Err(raised.value);
      }
      assert pd.periodicity == [] && pd.positions.None? && pd.weights.None?;
      pd.SetPositions(positions);
      pd.SetWeights(weights);
      r := Ok(pd);
    }

    // -------------------------------------------------------------------
    // Getters

    function Ndim(): Option<int>
      reads this`forcedNdim, this`boundaries, this`positions
    {
      InferNdim(forcedNdim, boundaries, positions)
    }

    /** The `dtype` property: the forced scalar type, else the promotion of
        the inputs' types, which compiled code computes and is passed in. */
    function Dtype(inferred: Option<string>): Option<string>
      reads this`forcedDtype
    {
      if forcedDtype.Some? then forcedDtype else inferred
    }

    /** The direct transformations: the even entries of the internal list. */
    function PeriodicityTransformations(): seq<Matrix>
      reads this`periodicity
    {
      Periodicity.EvenEntries(periodicity)
    }

    // -------------------------------------------------------------------
    // Setters

    method SetDtype(value: Option<string>)
      requires Valid()
      modifies this`forcedDtype
      ensures Valid()
      ensures forcedDtype == if value.Some? then value else old(forcedDtype)
      ensures value.Some? ==> forall inferred :: Dtype(inferred) == value
    {
      if value.Some? {
        forcedDtype := value;
      }
    }

    method SetNdim(value: Option<int>)
      requires Valid()
      modifies this`forcedNdim
      ensures Valid()
      ensures forcedNdim == if value.Some? then value else old(forcedNdim)
      ensures value.Some? && value.value != 0 ==> Ndim() == value
    {
      if value.Some? {
        forcedNdim := value;
      }
    }

    /** Assigning the boundary table. The acceleration structure is kept. */
    method SetBoundaries(values: Boundaries.BoundaryInput) returns (raised: Option<Error>)
      requires Valid()
      modifies this`boundaries
      ensures Valid()
      ensures match Boundaries.Update(old(boundaries), values)
              case Ok(b) => boundaries == b && raised.None?
              case Err(e) => boundaries == old(boundaries) && raised == Some(e)
    {
      match values {
        case Missing =>
          return None;
        case RowList(rows) =>
          match FromRowList(rows) {
            case Err(e) =>
              return Some(e);
            case Ok(t) =>
              boundaries := Some(t);
          }
        case RowArray(t) =>
          boundaries := Some(t);
        case DirsVals(dirs, vals) =>
          if |dirs.rows| != |vals| {
            return Some(LengthMismatch);
          }
          boundaries := Some(Boundaries.Concat(dirs, vals));
        case ShortTuple =>
          return Some(TupleTooShort);
      }
      raised := None;
    }

    /** Assigning positions drops the acceleration structure. */
    method SetPositions(values: Option<Table>)
      requires Valid()
      modifies this`positions, this`accel
      ensures Valid()
      ensures values.None? ==> positions == old(positions) && accel == old(accel)
      ensures values.Some? ==> positions == values && accel.None?
    {
      if values.None? {
        return;
      }
      accel := None;
      positions := values;
    }

    /** Assigning weights drops the acceleration structure. */
    method SetWeights(values: Option<Row>)
      requires Valid()
      modifies this`weights, this`accel
      ensures Valid()
      ensures values.None? ==> weights == old(weights) && accel == old(accel)
      ensures values.Some? ==> weights == values && accel.None?
    {
      if values.None? {
        return;
      }
      weights := values;
      WeightsModified();
    }

    method WeightsModified()
      modifies this`accel
      ensures Valid()
      ensures accel.None?
    {
      accel := None;
    }

    /** Assigning the periodicity transformations: the list is emptied and
        the acceleration structure dropped first, then every input is
        normalised and appended, followed by its inverse. A failure stops
        the loop and leaves what was appended before it; None is not a list
        and raises once the list is emptied. */
    method SetPeriodicityTransformations(values: Option<seq<Periodicity.TransformInput>>, invert: Matrix -> Option<Matrix>)
      returns (raised: Option<Error>)
      requires Valid()
      modifies this`periodicity, this`accel
      ensures Valid() && accel.None?
      ensures values.None? ==> periodicity == [] && raised == Some(NotIterable)
      ensures values.Some? ==>
                Periodicity.Store(values.value, Periodicity.NormalizeFor(Ndim()), invert)
                == Periodicity.Stored(periodicity, raised)
    {
      periodicity := [];
      accel := None;
      if values.None? {
        return Some(NotIterable);
      }
      var inputs := values.value;
      // the dimension does not depend on the list, so it is the same at every turn
      var normalize := Periodicity.NormalizeFor(Ndim());
      var i := 0;
      while i < |inputs|
        invariant 0 <= i <= |inputs| && accel.None?
        invariant Periodicity.Store(inputs[..i], normalize, invert) == Periodicity.Stored(periodicity, None)
      {
        Periodicity.StoreNext(inputs, i, normalize, invert);
        var n := normalize(inputs[i]);
        if n.Err? {
          Periodicity.StoreStops(inputs, i + 1, normalize, invert);
          return Some(n.error);
        }
        periodicity := periodicity + [n.value];
        var inverse := invert(n.value);
        if inverse.None? {
          Periodicity.StoreStops(inputs, i + 1, normalize, invert);
          return Some(SingularMatrix);
        }
        periodicity := periodicity + [inverse.value];
        i := i + 1;
      }
      assert inputs[..i] == inputs;
      raised := None;
    }

    /** The loop of `add_box_boundaries`: for every axis n below nd, the
        lower face then the upper face is appended to `rows`; an offset
        vector without an entry n stops it. */
    static method AppendBoxFaces(rows: seq<Row>, nd: nat, lo: Row, hi: Row) returns (r: Result<seq<Row>>)
      ensures |lo| < nd || |hi| < nd ==> r == Err(OffsetTooShort)
      ensures |lo| >= nd && |hi| >= nd ==> r == Ok(rows + Boundaries.BoxRows(nd, lo, hi, nd))
    {
      var l := rows;
      var n := 0;
      while n < nd
        invariant 0 <= n <= nd && n <= |lo| && n <= |hi|
        invariant l == rows + Boundaries.BoxRows(nd, lo, hi, n)
      {
        if n >= |lo| {
          return Err(OffsetTooShort);
        }
        l := l + [Boundaries.LowerRow(nd, n, lo[n])];
        if n >= |hi| {
          return Err(OffsetTooShort);
        }
        l := l + [Boundaries.UpperRow(nd, n, hi[n])];
        assert l == rows + (Boundaries.BoxRows(nd, lo, hi, n)
                            + [Boundaries.LowerRow(nd, n, lo[n]), Boundaries.UpperRow(nd, n, hi[n])]);
        n := n + 1;
      }
      r := Ok(l);
    }

    /** `add_box_boundaries`: finds the dimension, broadcasts the offsets,
        appends the two faces of every axis to a copy of the rows and
        assigns the result. On an error the table is left as it was. */
    method AddBoxBoundaries(minOffset: Boundaries.Offset, maxOffset: Boundaries.Offset,
                            ndimArg: Option<int>, base: Option<seq<Row>>) returns (raised: Option<Error>)
      requires Valid()
      modifies this`boundaries
      ensures Valid()
      ensures match Boundaries.AddBox(old(boundaries), old(Ndim()), minOffset, maxOffset, ndimArg, base)
              case Ok(t) => boundaries == Some(t) && raised.None?
              case Err(e) => boundaries == old(boundaries) && raised == Some(e)
    {
      ghost var expected := Boundaries.AddBox(boundaries, Ndim(), minOffset, maxOffset, ndimArg, base);
      var dimension := Boundaries.BoxDimension(ndimArg, base, Ndim());
      if dimension.Err? {
        return Some(dimension.error);
      }
      var nd := dimension.value;
      var lo := Boundaries.Broadcast(minOffset, 0.0, nd);
      var hi := Boundaries.Broadcast(maxOffset, 1.0, nd);
      var rows := AppendBoxFaces(Boundaries.ExistingRows(boundaries), nd, lo, hi);
      if rows.Err? {
        assert expected == Err(OffsetTooShort);
        return Some(rows.error);
      }
      assert expected == FromRowList(rows.value);
      match FromRowList(rows.value) {
        case Err(e) =>
          return Some(e);
        case Ok(t) =>
          boundaries := Some(t);
      }
      raised := None;
    }

    // -------------------------------------------------------------------
    // Rebuilding what the compiled code needs

    /** The acceleration structure must be rebuilt for binding b. */
    predicate Stale(b: Binding)
      reads this`accel
    {
      accel.None? || accel.value.dtype != b.dtype || accel.value.ndim != b.ndim
    }

    /** The base cell is made anew and cut by every boundary row in order,
        row n along its first `cellDim` entries with offset entry `cellDim`
        and tag n; a row without that entry stops the loop. */
    method CutBaseCell(cellDim: nat) returns (raised: Option<Error>)
      requires Valid()
      modifies this`baseCell
      ensures Valid()
      ensures var rows := Boundaries.ExistingRows(boundaries);
              var k := FirstShortRow(rows, cellDim);
              baseCell == CutsUpTo(rows, cellDim, k) &&
              raised == (if k == |rows| then None else Some(BoundaryRowTooShort))
    {
      baseCell := [];
      var rows := Boundaries.ExistingRows(boundaries);
      var n := 0;
      while n < |rows|
        invariant 0 <= n <= |rows|
        invariant forall i :: 0 <= i < n ==> |rows[i]| > cellDim
        invariant baseCell == CutsUpTo(rows, cellDim, n)
      {
        if |rows[n]| <= cellDim {
          return Some(BoundaryRowTooShort);
        }
        baseCell := baseCell + [Cut(rows[n][..cellDim], rows[n][cellDim], n)];
        n := n + 1;
      }
      raised := None;
    }

    /** The compiled module for the current scalar type and dimension:
        none when either is unknown or no module exists for the pair. */
    function Selected(inferredDtype: Option<string>, moduleFor: (string, int) -> Option<nat>): Option<Binding>
      reads this`forcedDtype, this`forcedNdim, this`boundaries, this`positions
    {
      var dtype := Dtype(inferredDtype);
      var ndim := Ndim();
      if dtype.None? || ndim.None? then None
      else match moduleFor(dtype.value, ndim.value)
        case None => None
        case Some(cellDim) => Some(Binding(dtype.value, ndim.value, cellDim))
    }

    /** The acceleration-structure step of `_update_internal_attributes`
        for binding b: when the structure is stale, sites without weights
        get zero weights and the structure is rebuilt from the current
        positions, weights and periodicity list; missing positions raise. */
    method RebuildAccel(b: Binding) returns (raised: Option<Error>)
      requires Valid()
      modifies this`weights, this`accel
      ensures Valid()
      ensures !old(Stale(b)) ==> raised.None? && weights == old(weights) && accel == old(accel)
      ensures old(Stale(b)) && positions.None? ==>
                raised == Some(MissingPositions) && weights == old(weights) && accel == old(accel)
      ensures old(Stale(b)) && positions.Some? ==>
                raised.None? &&
                weights == Some(if old(weights).Some? then old(weights).value else Zeros(|positions.value.rows|)) &&
                accel == Some(Accel(b.dtype, b.ndim, positions.value, weights.value, periodicity))
    {
      if accel.None? || accel.value.dtype != b.dtype || accel.value.ndim != b.ndim {
        if weights.None? {
          if positions.None? {
            return Some(MissingPositions);
          }
          weights := Some(Zeros(|positions.value.rows|));
        }
        if positions.None? {
          return Some(MissingPositions);
        }
        accel := Some(Accel(b.dtype, b.ndim, positions.value, weights.value, periodicity));
      }
      raised := None;
    }

    /** `_update_internal_attributes`: gives up (false) without touching
        anything when the scalar type or the dimension is unknown; selects
        the compiled module; rebuilds the acceleration structure when there
        is none or it was made for another type or dimension; then recuts
        the base cell by the boundary rows. */
    method UpdateInternalAttributes(inferredDtype: Option<string>, moduleFor: (string, int) -> Option<nat>)
      returns (r: Result<bool>)
      requires Valid()
      modifies this`binding, this`weights, this`accel, this`baseCell
      ensures Valid()
      ensures Dtype(inferredDtype).None? || Ndim().None? ==> r == Ok(false) && unchanged(this)
      ensures Dtype(inferredDtype).Some? && Ndim().Some? && Selected(inferredDtype, moduleFor).None? ==>
                r == Err(NoCompiledModule) && unchanged(this)
      ensures Selected(inferredDtype, moduleFor).Some? ==>
                var b := Selected(inferredDtype, moduleFor).value;
                binding == Some(b) &&
                (!old(Stale(b)) ==> weights == old(weights) && accel == old(accel)) &&
                (old(Stale(b)) && positions.Some? ==>
                   weights == Some(if old(weights).Some? then old(weights).value
                                   else Zeros(|positions.value.rows|)) &&
                   accel == Some(Accel(b.dtype, b.ndim, positions.value, weights.value, periodicity)))
      ensures Selected(inferredDtype, moduleFor).Some? && old(Stale(Selected(inferredDtype, moduleFor).value)) &&
              positions.None? ==>
                r == Err(MissingPositions) &&
                weights == old(weights) && accel == old(accel) && baseCell == old(baseCell)
      ensures Selected(inferredDtype, moduleFor).Some? &&
              !(old(Stale(Selected(inferredDtype, moduleFor).value)) && positions.None?) ==>
                var rows := Boundaries.ExistingRows(boundaries);
                var k := FirstShortRow(rows, Selected(inferredDtype, moduleFor).value.cellDim);
                baseCell == CutsUpTo(rows, Selected(inferredDtype, moduleFor).value.cellDim, k) &&
                r == if k == |rows| then Ok(true) else Err(BoundaryRowTooShort)
    {
      var dtype := Dtype(inferredDtype);
      var ndim := Ndim();
      if dtype.None? || ndim.None? {
        return Ok(false);
      }
      var selected := Selected(inferredDtype, moduleFor);
      if selected.None? {
        return Err(NoCompiledModule);
      }
      var b := selected.value;
      binding := Some(b);
      var raised := RebuildAccel(b);
      if raised.Some? {
        return Err(raised.value);
      }
      raised := CutBaseCell(b.cellDim);
      r := if raised.Some? then Err(raised.value) else Ok(true);
    }
  }
}
