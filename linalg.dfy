/** Rows, 2-D arrays and the little linear algebra the configuration layer needs. */
module LinAlg {
  import opened Results

  type Row = seq<real>

  /** A square or rectangular matrix given by its rows. */
  type Matrix = seq<Row>

  datatype Grid = Grid(cols: nat, rows: seq<Row>)

  /** A 2-D array: every row has `cols` entries. The column count is kept
      even when there are no rows, as numpy keeps it in an array's shape. */
  type Table = g: Grid | forall r :: r in g.rows ==> |r| == g.cols witness Grid(0, [])

  predicate Rectangular(rows: seq<Row>)
  {
    forall i, j :: 0 <= i < |rows| && 0 <= j < |rows| ==> |rows[i]| == |rows[j]|
  }

  /** Turning a Python list of rows into a 2-D array: rows of unequal
      length do not form one and are refused. */
  function FromRowList(rows: seq<Row>): (r: Result<Table>)
    ensures r.Ok? <==> Rectangular(rows)
    ensures r.Ok? ==> r.value.rows == rows
    ensures r.Ok? && rows != [] ==> r.value.cols == |rows[0]|
  {
    if !Rectangular(rows) then Err(RaggedRows)
    else if rows == [] then Ok(Grid(0, []))
    else
      assert forall r :: r in rows ==> |r| == |rows[0]| by {
        forall r | r in rows ensures |r| == |rows[0]| {
          var i :| 0 <= i < |rows| && rows[i] == r;
        }
      }
      Ok(Grid(|rows[0]|, rows))
  }

  predicate IsSquareMatrix(m: Matrix)
  {
    forall i :: 0 <= i < |m| ==> |m[i]| == |m|
  }

  /** Scalar product, summed from the last coordinate backwards so that a
      vector extended by one coordinate unfolds in one step. */
  function Dot(a: Row, b: Row): real
    requires |a| == |b|
  {
    if |a| == 0 then 0.0 else Dot(a[..|a| - 1], b[..|b| - 1]) + a[|a| - 1] * b[|b| - 1]
  }

  /** `sign` times the n-th unit vector of dimension m, the row
      `[ sign * (d == n) for d in range(m) ]`; all zeros when n >= m. */
  function Axis(m: nat, n: nat, sign: real): Row
  {
    seq(m, d => if d == n then sign else 0.0)
  }

  /** The zero vector of dimension m (`np.zeros(m)`). */
  function Zeros(m: nat): Row
  {
    seq(m, _ => 0.0)
  }

  /** The m x m identity matrix. */
  function Identity(m: nat): Matrix
  {
    seq(m, i requires 0 <= i < m => Axis(m, i, 1.0))
  }

  /** Matrix-vector product. */
  function Apply(m: Matrix, x: Row): (y: Row)
    requires forall i :: 0 <= i < |m| ==> |m[i]| == |x|
    ensures |y| == |m|
  {
    seq(|m|, i requires 0 <= i < |m| => Dot(m[i], x))
  }

  lemma DotSnoc(a: Row, b: Row, x: real, y: real)
    requires |a| == |b|
    ensures Dot(a + [x], b + [y]) == Dot(a, b) + x * y
  {
    assert (a + [x])[..|a|] == a;
    assert (b + [y])[..|b|] == b;
  }

  /** Taking the scalar product with a signed unit vector picks one coordinate. */
  lemma {:induction false} DotAxis(m: nat, n: nat, sign: real, p: Row)
    requires |p| == m
    ensures Dot(Axis(m, n, sign), p) == if n < m then sign * p[n] else 0.0
  {
    if m > 0 {
      assert Axis(m, n, sign)[..m - 1] == Axis(m - 1, n, sign);
      DotAxis(m - 1, n, sign, p[..m - 1]);
    }
  }

  /** The identity matrix leaves every vector unchanged. */
  lemma IdentityApply(x: Row)
    ensures Apply(Identity(|x|), x) == x
  {
    forall i | 0 <= i < |x| ensures Apply(Identity(|x|), x)[i] == x[i] {
      DotAxis(|x|, i, 1.0, x);
    }
  }
}
