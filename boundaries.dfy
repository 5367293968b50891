/** The boundary table of a power diagram: an ordered list of half-space
    rows `[dir_0, ..., dir_{d-1}, offset]`, a point p being exterior to a
    row iff <dir, p> > offset. This module holds the forms in which the
    table can be assigned and the rows that `add_box_boundaries` builds. */
module Boundaries {
  import opened Results
  import opened LinAlg

  // ---------------------------------------------------------------------
  // Meaning of a row

  /** p lies outside the half-space of `row`. A row whose width is not
      |p| + 1 does not describe a half-space of p's space and excludes nothing. */
  predicate Exterior(row: Row, p: Row)
  {
    |row| == |p| + 1 && Dot(row[..|p|], p) > row[|p|]
  }

  /** p lies in the domain delimited by every row of the table. */
  predicate Inside(rows: seq<Row>, p: Row)
  {
    forall i :: 0 <= i < |rows| ==> !Exterior(rows[i], p)
  }

  lemma InsideAppend(a: seq<Row>, b: seq<Row>, p: Row)
    ensures Inside(a + b, p) <==> Inside(a, p) && Inside(b, p)
  {
    if Inside(a, p) && Inside(b, p) {
      forall i | 0 <= i < |a + b| ensures !Exterior((a + b)[i], p) {
        if i >= |a| { assert (a + b)[i] == b[i - |a|]; }
      }
    }
    if Inside(a + b, p) {
      forall i | 0 <= i < |a| ensures !Exterior(a[i], p) {
        assert (a + b)[i] == a[i];
      }
      forall i | 0 <= i < |b| ensures !Exterior(b[i], p) {
        assert (a + b)[|a| + i] == b[i];
      }
    }
  }

  // ---------------------------------------------------------------------
  // The tuple form (dirs, vals)

  /** Appending each value as the last column of its direction row
      (`np.concatenate((dirs, vals.reshape([-1, 1])), axis = 1)`). */
  function Concat(dirs: Table, vals: Row): Table
    requires |dirs.rows| == |vals|
  {
    var rows := seq(|vals|, i requires 0 <= i < |vals| => dirs.rows[i] + [vals[i]]);
    assert forall r :: r in rows ==> |r| == dirs.cols + 1 by {
      forall r | r in rows ensures |r| == dirs.cols + 1 {
        var i :| 0 <= i < |rows| && rows[i] == r;
        assert dirs.rows[i] in dirs.rows;
      }
    }
    Grid(dirs.cols + 1, rows)
  }

  /** The direction part of a table: every column but the last. */
  function Directions(t: Table): Table
    requires t.cols >= 1
  {
    var rows := seq(|t.rows|, i requires 0 <= i < |t.rows| => t.rows[i][..t.cols - 1]);
    assert forall r :: r in rows ==> |r| == t.cols - 1 by {
      forall r | r in rows ensures |r| == t.cols - 1 {
        var i :| 0 <= i < |rows| && rows[i] == r;
        assert t.rows[i] in t.rows;
      }
    }
    Grid(t.cols - 1, rows)
  }

  /** The offset column of a table. */
  function Offsets(t: Table): Row
    requires t.cols >= 1
  {
    seq(|t.rows|, i requires 0 <= i < |t.rows| => assert t.rows[i] in t.rows; t.rows[i][t.cols - 1])
  }

  /** Splitting the concatenated table gives back the two parts. */
  lemma SplitConcat(dirs: Table, vals: Row)
    requires |dirs.rows| == |vals|
    ensures Directions(Concat(dirs, vals)) == dirs
    ensures Offsets(Concat(dirs, vals)) == vals
  {
    var t := Concat(dirs, vals);
    forall i | 0 <= i < |vals| ensures Directions(t).rows[i] == dirs.rows[i] {
      assert dirs.rows[i] in dirs.rows;
      assert t.rows[i][..t.cols - 1] == dirs.rows[i];
    }
    forall i | 0 <= i < |vals| ensures Offsets(t)[i] == vals[i] {
      assert dirs.rows[i] in dirs.rows;
    }
  }

  /** Concatenating the two parts of a table gives back the table. */
  lemma ConcatSplit(t: Table)
    requires t.cols >= 1
    ensures Concat(Directions(t), Offsets(t)) == t
  {
    var c := Concat(Directions(t), Offsets(t));
    forall i | 0 <= i < |t.rows| ensures c.rows[i] == t.rows[i] {
      assert t.rows[i] in t.rows;
      assert t.rows[i] == t.rows[i][..t.cols - 1] + [t.rows[i][t.cols - 1]];
    }
  }

  // ---------------------------------------------------------------------
  // Assigning the table

  /** The forms the boundaries setter accepts. */
  datatype BoundaryInput =
    | Missing                              // None: the assignment is skipped
    | RowList(rows: seq<Row>)              // a Python list of rows
    | RowArray(table: Table)               // a 2-D ndarray of rows
    | DirsVals(dirs: Table, vals: Row)     // a tuple (directions, offsets, ...)
    | ShortTuple                           // a tuple of fewer than two items

  /** The stored table after assigning `input` when `current` is stored. */
  function Update(current: Option<Table>, input: BoundaryInput): (r: Result<Option<Table>>)
    ensures input.Missing? ==> r == Ok(current)
    ensures r.Ok? && !input.Missing? ==> r.value.Some?
    ensures input.RowList? ==> (r.Ok? <==> Rectangular(input.rows))
    ensures input.RowList? && r.Ok? ==> r.value.value.rows == input.rows
    ensures input.RowArray? ==> r == Ok(Some(input.table))
    ensures input.DirsVals? ==> (r.Ok? <==> |input.dirs.rows| == |input.vals|)
    ensures input.ShortTuple? ==> r == Err(TupleTooShort)
    ensures input.DirsVals? && r.Ok? ==>
              r.value.value.cols == input.dirs.cols + 1 &&
              Directions(r.value.value) == input.dirs && Offsets(r.value.value) == input.vals
  {
    match input
    case Missing => Ok(current)
    case RowList(rows) =>
      (match FromRowList(rows)
       case Ok(t) => Ok(Some(t))
       case Err(e) => Err(e))
    case RowArray(t) => Ok(Some(t))
    case DirsVals(dirs, vals) =>
      if |dirs.rows| != |vals| then Err(LengthMismatch)
      else
        SplitConcat(dirs, vals);
        Ok(Some(Concat(dirs, vals)))
    case ShortTuple => Err(TupleTooShort)
  }

  /** The two forms describe the same table: assigning the directions and
      offsets of a table as a tuple stores that very table. */
  lemma TupleFormStoresSameTable(current: Option<Table>, t: Table)
    requires t.cols >= 1
    ensures Update(current, DirsVals(Directions(t), Offsets(t))) == Ok(Some(t))
  {
    ConcatSplit(t);
  }

  /** Number of elements of a 2-D array. */
  function Size(t: Table): nat
  {
    |t.rows| * t.cols
  }

  /** The setter as written: it tests `values == None`, which on an ndarray
      compares element by element, and an array of more than one element
      has no truth value, so the setter raises before storing anything. */
  function UpdateAsWritten(current: Option<Table>, input: BoundaryInput): (r: Result<Option<Table>>)
    ensures input.RowArray? && Size(input.table) > 1 ==> r == Err(AmbiguousTruthValue)
    ensures !(input.RowArray? && Size(input.table) > 1) ==> r == Update(current, input)
  {
    if input.RowArray? && Size(input.table) > 1 then Err(AmbiguousTruthValue)
    else Update(current, input)
  }

  /** Giving back to the setter the array its getter returned: the code as
      written raises for every table of more than one element, where the
      intended setter stores the table unchanged. */
  lemma AsWrittenRejectsOwnGetter(t: Table)
    requires |t.rows| >= 1 && t.cols >= 2
    ensures UpdateAsWritten(Some(t), RowArray(t)) == Err(AmbiguousTruthValue)
    ensures Update(Some(t), RowArray(t)) == Ok(Some(t))
  {
    assert Size(t) >= 2 by {
      assert |t.rows| * t.cols >= 1 * t.cols;
    }
  }

  /** A concrete instance: the unit interval as a two-row array. */
  lemma UnitIntervalArrayRejected()
    ensures UpdateAsWritten(None, RowArray(Grid(2, [[-1.0, 0.0], [1.0, 1.0]]))).Err?
    ensures Update(None, RowArray(Grid(2, [[-1.0, 0.0], [1.0, 1.0]]))).Ok?
  {
    var t: Table := Grid(2, [[-1.0, 0.0], [1.0, 1.0]]);
    AsWrittenRejectsOwnGetter(t);
  }

  // ---------------------------------------------------------------------
  // add_box_boundaries

  /** The forms an offset argument takes: omitted, a scalar, or one value per axis. */
  datatype Offset = Default | Scalar(x: real) | PerAxis(v: Row)

  /** An offset as the vector the loop indexes: the default or the scalar
      repeated on every axis (`np.full([ndim], x)`), a vector unchanged. */
  function Broadcast(o: Offset, default: real, ndim: nat): Row
  {
    match o
    case Default => seq(ndim, _ => default)
    case Scalar(x) => seq(ndim, _ => x)
    case PerAxis(v) => v
  }

  /** The lower face of axis n: direction -e_n, offset -lo. */
  function LowerRow(ndim: nat, n: nat, lo: real): Row
  {
    Axis(ndim, n, -1.0) + [-lo]
  }

  /** The upper face of axis n: direction +e_n, offset +hi. */
  function UpperRow(ndim: nat, n: nat, hi: real): Row
  {
    Axis(ndim, n, 1.0) + [hi]
  }

  /** The rows the loop has appended after its first m turns. */
  function BoxRows(ndim: nat, lo: Row, hi: Row, m: nat): seq<Row>
    requires m <= |lo| && m <= |hi|
  {
    if m == 0 then [] else BoxRows(ndim, lo, hi, m - 1) + [LowerRow(ndim, m - 1, lo[m - 1]), UpperRow(ndim, m - 1, hi[m - 1])]
  }

  /** A box over m axes has two rows per axis. */
  lemma {:induction false} BoxRowsLength(ndim: nat, lo: Row, hi: Row, m: nat)
    requires m <= |lo| && m <= |hi|
    ensures |BoxRows(ndim, lo, hi, m)| == 2 * m
  {
    if m > 0 {
      BoxRowsLength(ndim, lo, hi, m - 1);
    }
  }

  /** Rows 2n and 2n + 1 of a box are the lower and the upper face of axis n. */
  lemma {:induction false} BoxRowsFace(ndim: nat, lo: Row, hi: Row, m: nat, n: nat)
    requires m <= |lo| && m <= |hi| && n < m
    ensures |BoxRows(ndim, lo, hi, m)| == 2 * m
    ensures BoxRows(ndim, lo, hi, m)[2 * n] == LowerRow(ndim, n, lo[n])
    ensures BoxRows(ndim, lo, hi, m)[2 * n + 1] == UpperRow(ndim, n, hi[n])
  {
    var prev := BoxRows(ndim, lo, hi, m - 1);
    BoxRowsLength(ndim, lo, hi, m - 1);
    if n < m - 1 {
      BoxRowsFace(ndim, lo, hi, m - 1, n);
    }
  }

  /** Two rows per axis, the lower face first, in axis order. */
  lemma BoxRowsLayout(ndim: nat, lo: Row, hi: Row, m: nat)
    requires m <= |lo| && m <= |hi|
    ensures |BoxRows(ndim, lo, hi, m)| == 2 * m
    ensures forall n :: 0 <= n < m ==>
              BoxRows(ndim, lo, hi, m)[2 * n] == LowerRow(ndim, n, lo[n]) &&
              BoxRows(ndim, lo, hi, m)[2 * n + 1] == UpperRow(ndim, n, hi[n])
  {
    BoxRowsLength(ndim, lo, hi, m);
    forall n | 0 <= n < m
      ensures BoxRows(ndim, lo, hi, m)[2 * n] == LowerRow(ndim, n, lo[n])
      ensures BoxRows(ndim, lo, hi, m)[2 * n + 1] == UpperRow(ndim, n, hi[n])
    {
      BoxRowsFace(ndim, lo, hi, m, n);
    }
  }

  /** p is in the axis-aligned box [lo, hi]. */
  predicate InBox(lo: Row, hi: Row, p: Row)
    requires |p| <= |lo| && |p| <= |hi|
  {
    forall n :: 0 <= n < |p| ==> lo[n] <= p[n] <= hi[n]
  }

  lemma LowerRowExterior(ndim: nat, n: nat, lo: real, p: Row)
    requires n < ndim == |p|
    ensures Exterior(LowerRow(ndim, n, lo), p) <==> p[n] < lo
  {
    assert LowerRow(ndim, n, lo)[..ndim] == Axis(ndim, n, -1.0);
    DotAxis(ndim, n, -1.0, p);
  }

  lemma UpperRowExterior(ndim: nat, n: nat, hi: real, p: Row)
    requires n < ndim == |p|
    ensures Exterior(UpperRow(ndim, n, hi), p) <==> p[n] > hi
  {
    assert UpperRow(ndim, n, hi)[..ndim] == Axis(ndim, n, 1.0);
    DotAxis(ndim, n, 1.0, p);
  }

  /** Every row of a box has ndim + 1 entries. */
  lemma {:induction false} BoxRowsWidth(ndim: nat, lo: Row, hi: Row, m: nat)
    requires m <= |lo| && m <= |hi|
    ensures forall i :: 0 <= i < |BoxRows(ndim, lo, hi, m)| ==> |BoxRows(ndim, lo, hi, m)[i]| == ndim + 1
  {
    if m > 0 {
      BoxRowsWidth(ndim, lo, hi, m - 1);
    }
  }

  /** Rows 2n and 2n + 1 of a box are the two faces of axis n; this says
      when each of them excludes p. */
  lemma BoxFacesExterior(lo: Row, hi: Row, p: Row, n: nat)
    requires |p| <= |lo| && |p| <= |hi|
    requires n < |p|
    ensures |BoxRows(|p|, lo, hi, |p|)| == 2 * |p|
    ensures Exterior(BoxRows(|p|, lo, hi, |p|)[2 * n], p) <==> p[n] < lo[n]
    ensures Exterior(BoxRows(|p|, lo, hi, |p|)[2 * n + 1], p) <==> p[n] > hi[n]
  {
    var d := |p|;
    BoxRowsFace(d, lo, hi, d, n);
    LowerRowExterior(d, n, lo[n], p);
    UpperRowExterior(d, n, hi[n], p);
  }

  /** A table whose rows 2n and 2n + 1 exclude exactly the points below
      lo[n] and above hi[n] on axis n delimits the box [lo, hi]. */
  lemma FacesDelimitBox(rows: seq<Row>, lo: Row, hi: Row, p: Row)
    requires |p| <= |lo| && |p| <= |hi| && |rows| == 2 * |p|
    requires forall n :: 0 <= n < |p| ==>
               (Exterior(rows[2 * n], p) <==> p[n] < lo[n]) &&
               (Exterior(rows[2 * n + 1], p) <==> p[n] > hi[n])
    ensures Inside(rows, p) <==> InBox(lo, hi, p)
  {
    if Inside(rows, p) {
      forall n | 0 <= n < |p| ensures lo[n] <= p[n] <= hi[n] {
        assert !Exterior(rows[2 * n], p);
        assert !Exterior(rows[2 * n + 1], p);
      }
    }
    if InBox(lo, hi, p) {
      forall i | 0 <= i < |rows| ensures !Exterior(rows[i], p) {
        var n := i / 2;
        assert lo[n] <= p[n] <= hi[n];
        if i % 2 == 0 {
          assert i == 2 * n;
        } else {
          assert i == 2 * n + 1;
        }
      }
    }
  }

  /** The rows of a box delimit exactly the box. */
  lemma BoxRowsDelimitBox(lo: Row, hi: Row, p: Row)
    requires |p| <= |lo| && |p| <= |hi|
    ensures Inside(BoxRows(|p|, lo, hi, |p|), p) <==> InBox(lo, hi, p)
  {
    var rows := BoxRows(|p|, lo, hi, |p|);
    BoxRowsLayout(|p|, lo, hi, |p|);
    forall n | 0 <= n < |p|
      ensures (Exterior(rows[2 * n], p) <==> p[n] < lo[n])
      ensures (Exterior(rows[2 * n + 1], p) <==> p[n] > hi[n])
    {
      BoxFacesExterior(lo, hi, p, n);
    }
    FacesDelimitBox(rows, lo, hi, p);
  }

  /** The dimension add_box_boundaries works in: the length of `base` when
      given, else the `ndim` argument, else the diagram's own ndim. A
      negative dimension raises, as `np.identity` does for it. */
  function BoxDimension(ndimArg: Option<int>, base: Option<seq<Row>>, current: Option<int>): (r: Result<nat>)
    ensures base.Some? ==> r == Ok(|base.value|)
    ensures base.None? && ndimArg.None? && current.None? ==> r == Err(NoDimension)
    ensures base.None? ==>
              var nd := if ndimArg.Some? then ndimArg else current;
              (r.Ok? <==> nd.Some? && nd.value >= 0) &&
              (r.Ok? ==> nd == Some(r.value as int)) &&
              (nd.Some? && nd.value < 0 ==> r == Err(NegativeDimension))
  {
    if base.Some? then Ok(|base.value|)
    else
      var nd := if ndimArg.Some? then ndimArg else current;
      if nd.None? then Err(NoDimension)
      else if nd.value < 0 then Err(NegativeDimension)
      else Ok(nd.value)
  }

  function ExistingRows(current: Option<Table>): seq<Row>
  {
    if current.Some? then current.value.rows else []
  }

  /** The table stored by `add_box_boundaries(min_offset, max_offset, ndim, base)`
      when `current` is stored and the diagram's ndim is `currentNdim`:
      two rows per axis after the existing ones; on an error nothing is
      stored. */
  function AddBox(current: Option<Table>, currentNdim: Option<int>,
                  minOffset: Offset, maxOffset: Offset,
                  ndimArg: Option<int>, base: Option<seq<Row>>): (r: Result<Table>)
    ensures r.Ok? ==> BoxDimension(ndimArg, base, currentNdim).Ok?
    ensures r.Ok? ==> |r.value.rows| == |ExistingRows(current)| + 2 * BoxDimension(ndimArg, base, currentNdim).value
  {
    match BoxDimension(ndimArg, base, currentNdim)
    case Err(e) => Err(e)
    case Ok(nd) =>
      var lo := Broadcast(minOffset, 0.0, nd);
      var hi := Broadcast(maxOffset, 1.0, nd);
      if |lo| < nd || |hi| < nd then Err(OffsetTooShort)
      else
        BoxRowsLength(nd, lo, hi, nd);
        FromRowList(ExistingRows(current) + BoxRows(nd, lo, hi, nd))
  }

  /** A successful call appends the box rows to the existing rows. */
  lemma AddBoxRows(current: Option<Table>, currentNdim: Option<int>,
                   minOffset: Offset, maxOffset: Offset,
                   ndimArg: Option<int>, base: Option<seq<Row>>)
    requires AddBox(current, currentNdim, minOffset, maxOffset, ndimArg, base).Ok?
    ensures BoxDimension(ndimArg, base, currentNdim).Ok?
    ensures var nd := BoxDimension(ndimArg, base, currentNdim).value;
            var lo := Broadcast(minOffset, 0.0, nd);
            var hi := Broadcast(maxOffset, 1.0, nd);
            nd <= |lo| && nd <= |hi| &&
            AddBox(current, currentNdim, minOffset, maxOffset, ndimArg, base).value.rows
            == ExistingRows(current) + BoxRows(nd, lo, hi, nd)
  {
  }

  /** A successful box of positive dimension nd leaves a non-empty table
      whose rows all have nd + 1 entries. */
  lemma AddBoxWidth(current: Option<Table>, currentNdim: Option<int>,
                    minOffset: Offset, maxOffset: Offset,
                    ndimArg: Option<int>, base: Option<seq<Row>>, nd: nat)
    requires BoxDimension(ndimArg, base, currentNdim) == Ok(nd) && nd > 0
    requires AddBox(current, currentNdim, minOffset, maxOffset, ndimArg, base).Ok?
    ensures var t := AddBox(current, currentNdim, minOffset, maxOffset, ndimArg, base).value;
            |t.rows| > 0 && t.cols == nd + 1
  {
    var t := AddBox(current, currentNdim, minOffset, maxOffset, ndimArg, base).value;
    AddBoxRows(current, currentNdim, minOffset, maxOffset, ndimArg, base);
    var lo := Broadcast(minOffset, 0.0, nd);
    var hi := Broadcast(maxOffset, 1.0, nd);
    var prior := ExistingRows(current);
    BoxRowsFace(nd, lo, hi, nd, 0);
    assert t.rows[|prior|] == LowerRow(nd, 0, lo[0]);
    assert t.rows[|prior|] in t.rows;
  }

  /** Adding a box intersects the domain with the box: a point is inside
      the new table iff it was inside the old one and lies within
      [min_offset, max_offset] on every axis. */
  lemma AddBoxIntersectsDomain(current: Option<Table>, currentNdim: Option<int>,
                               minOffset: Offset, maxOffset: Offset,
                               ndimArg: Option<int>, base: Option<seq<Row>>, p: Row)
    requires AddBox(current, currentNdim, minOffset, maxOffset, ndimArg, base).Ok?
    requires BoxDimension(ndimArg, base, currentNdim) == Ok(|p|)
    ensures var nd := |p|;
            var lo := Broadcast(minOffset, 0.0, nd);
            var hi := Broadcast(maxOffset, 1.0, nd);
            |lo| >= nd && |hi| >= nd &&
            (Inside(AddBox(current, currentNdim, minOffset, maxOffset, ndimArg, base).value.rows, p)
             <==> Inside(ExistingRows(current), p) && InBox(lo, hi, p))
  {
    var nd := |p|;
    var lo := Broadcast(minOffset, 0.0, nd);
    var hi := Broadcast(maxOffset, 1.0, nd);
    InsideAppend(ExistingRows(current), BoxRows(nd, lo, hi, nd), p);
    BoxRowsDelimitBox(lo, hi, p);
  }

  /** The call succeeds whenever the dimension is found, both offsets have
      an entry per axis and the table stored so far is empty or already has
      ndim + 1 columns; the new table then has ndim + 1 columns. */
  lemma AddBoxSucceeds(current: Option<Table>, currentNdim: Option<int>,
                       minOffset: Offset, maxOffset: Offset,
                       ndimArg: Option<int>, base: Option<seq<Row>>, nd: nat)
    requires BoxDimension(ndimArg, base, currentNdim) == Ok(nd)
    requires |Broadcast(minOffset, 0.0, nd)| >= nd && |Broadcast(maxOffset, 1.0, nd)| >= nd
    requires ExistingRows(current) == [] || current.value.cols == nd + 1
    ensures AddBox(current, currentNdim, minOffset, maxOffset, ndimArg, base).Ok?
    ensures nd > 0 ==> AddBox(current, currentNdim, minOffset, maxOffset, ndimArg, base).value.cols == nd + 1
  {
    var lo := Broadcast(minOffset, 0.0, nd);
    var hi := Broadcast(maxOffset, 1.0, nd);
    var prior := ExistingRows(current);
    var box := BoxRows(nd, lo, hi, nd);
    BoxRowsWidth(nd, lo, hi, nd);
    BoxRowsLayout(nd, lo, hi, nd);
    var all := prior + box;
    forall i | 0 <= i < |all| ensures |all[i]| == if prior == [] then nd + 1 else current.value.cols {
      if i < |prior| {
        assert all[i] == prior[i] && prior[i] in current.value.rows;
      } else {
        assert all[i] == box[i - |prior|];
      }
    }
    assert Rectangular(all);
    if nd > 0 {
      assert all[|all| - 1] == box[|box| - 1];
    }
  }

  /** With both offsets omitted and no earlier boundary, the domain is the
      unit cube [0, 1]^ndim. */
  lemma AddBoxDefaultIsUnitCube(currentNdim: Option<int>, ndimArg: Option<int>, base: Option<seq<Row>>, p: Row)
    requires BoxDimension(ndimArg, base, currentNdim) == Ok(|p|)
    ensures AddBox(None, currentNdim, Default, Default, ndimArg, base).Ok?
    ensures Inside(AddBox(None, currentNdim, Default, Default, ndimArg, base).value.rows, p)
            <==> forall n :: 0 <= n < |p| ==> 0.0 <= p[n] <= 1.0
  {
    var nd := |p|;
    var lo: Row := seq(nd, _ => 0.0);
    var hi: Row := seq(nd, _ => 1.0);
    assert Broadcast(Default, 0.0, nd) == lo && Broadcast(Default, 1.0, nd) == hi;
    AddBoxSucceeds(None, currentNdim, Default, Default, ndimArg, base, nd);
    AddBoxIntersectsDomain(None, currentNdim, Default, Default, ndimArg, base, p);
    assert InBox(lo, hi, p) <==> forall n :: 0 <= n < |p| ==> 0.0 <= p[n] <= 1.0;
  }

  /** A scalar offset stands for the same value on every axis. */
  lemma ScalarOffsetBroadcasts(current: Option<Table>, currentNdim: Option<int>,
                               lo: real, hi: real, ndimArg: Option<int>, base: Option<seq<Row>>, nd: nat)
    requires BoxDimension(ndimArg, base, currentNdim) == Ok(nd)
    ensures AddBox(current, currentNdim, Scalar(lo), Scalar(hi), ndimArg, base)
         == AddBox(current, currentNdim, PerAxis(seq(nd, _ => lo)), PerAxis(seq(nd, _ => hi)), ndimArg, base)
  {
  }

  /** Only the length of `base` matters: its entries are never read, and
      when it is given the `ndim` argument is ignored. */
  lemma BaseOnlyGivesDimension(current: Option<Table>, currentNdim: Option<int>,
                               minOffset: Offset, maxOffset: Offset,
                               ndimArg1: Option<int>, ndimArg2: Option<int>, b1: seq<Row>, b2: seq<Row>)
    requires |b1| == |b2|
    ensures AddBox(current, currentNdim, minOffset, maxOffset, ndimArg1, Some(b1))
         == AddBox(current, currentNdim, minOffset, maxOffset, ndimArg2, Some(b2))
  {
  }

  /** Without base, without ndim and with no ndim the diagram can infer, the call fails. */
  lemma AddBoxNeedsDimension(current: Option<Table>, minOffset: Offset, maxOffset: Offset)
    ensures AddBox(current, None, minOffset, maxOffset, None, None) == Err(NoDimension)
  {
  }
}
