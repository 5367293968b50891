/** Periodicity transformations: every transformation a user gives is
    normalised to a homogeneous (s+1) x (s+1) matrix, and the diagram keeps
    each one immediately followed by its inverse. */
module Periodicity {
  import opened Results
  import opened LinAlg

  /** The forms a transformation can take. */
  datatype TransformInput =
    | Pair(linear: Table, translation: Row)   // a tuple (M, V)
    | BadTuple                                // a tuple whose length is not 2
    | Dense(m: Table)                         // a 2-D array, already homogeneous
    | Shift(v: Row)                           // a 1-D array, a pure translation
    | OtherRank                               // an array of any other rank

  /** The (s+1) x (s+1) matrix with M in the top-left block, V in the last
      column above the corner and (0, ..., 0, 1) as last row: the identity
      of size s + 1 with those entries overwritten. */
  function Homogeneous(M: Matrix, V: Row): (h: Matrix)
    requires |M| == |V| && forall i :: 0 <= i < |M| ==> |M[i]| == |M|
    ensures IsSquareMatrix(h) && |h| == |V| + 1
  {
    var s := |V|;
    seq(s + 1, i requires 0 <= i <= s =>
      seq(s + 1, j requires 0 <= j <= s =>
        if i < s && j < s then M[i][j]
        else if i < s then V[i]
        else if j < s then 0.0
        else 1.0))
  }

  /** The affine image M x + V. */
  function AffineImage(M: Matrix, V: Row, x: Row): Row
    requires |M| == |V| && forall i :: 0 <= i < |M| ==> |M[i]| == |x|
  {
    seq(|M|, i requires 0 <= i < |M| => Dot(M[i], x) + V[i])
  }

  /** In homogeneous coordinates the normalised matrix acts on (x, 1) as
      the affine map x -> M x + V, and keeps the last coordinate 1. */
  lemma HomogeneousActsAsAffine(M: Matrix, V: Row, x: Row)
    requires |M| == |V| == |x| && forall i :: 0 <= i < |M| ==> |M[i]| == |M|
    ensures Apply(Homogeneous(M, V), x + [1.0]) == AffineImage(M, V, x) + [1.0]
  {
    var s := |V|;
    var h := Homogeneous(M, V);
    var y := x + [1.0];
    forall i | 0 <= i <= s ensures Dot(h[i], y) == (AffineImage(M, V, x) + [1.0])[i] {
      if i < s {
        assert h[i] == M[i] + [V[i]];
        DotSnoc(M[i], x, V[i], 1.0);
      } else {
        assert h[i] == Axis(s + 1, s, 1.0);
        DotAxis(s + 1, s, 1.0, y);
      }
    }
  }

  /** How the setter normalises one transformation; `ndim` is the
      diagram's dimension, checked only for 2-D arrays. */
  function Normalize(input: TransformInput, ndim: Option<int>): (r: Result<Matrix>)
    ensures r.Ok? ==> IsSquareMatrix(r.value)
    ensures input.Pair? ==>
              (r.Ok? <==> |input.linear.rows| == input.linear.cols == |input.translation|)
    ensures input.Pair? && r.Ok? ==> |r.value| == |input.translation| + 1
    ensures input.Shift? ==> r.Ok? && |r.value| == |input.v| + 1
    ensures input.Dense? ==>
              (r.Ok? <==> |input.m.rows| == input.m.cols &&
                          (ndim.None? || |input.m.rows| == ndim.value + 1))
    ensures input.Dense? && r.Ok? ==> r.value == input.m.rows
    ensures input.BadTuple? || input.OtherRank? ==> r.Err?
  {
    match input
    case Pair(M, V) =>
      if |M.rows| != M.cols then Err(NotSquare)
      else if |M.rows| != |V| then Err(LengthMismatch)
      else
        assert forall i :: 0 <= i < |M.rows| ==> M.rows[i] in M.rows;
        Ok(Homogeneous(M.rows, V))
    case BadTuple => Err(MalformedTuple)
    case Dense(m) =>
      if |m.rows| != m.cols then Err(NotSquare)
      else if ndim.Some? && |m.rows| != ndim.value + 1 then Err(WrongSize)
      else
        assert forall i :: 0 <= i < |m.rows| ==> m.rows[i] in m.rows;
        Ok(m.rows)
    case Shift(V) => Ok(Homogeneous(Identity(|V|), V))
    case OtherRank => Err(InvalidTransformation)
  }

  /** A tuple (M, V) acts on a point x as x -> M x + V. */
  lemma PairActsAsAffine(M: Table, V: Row, ndim: Option<int>, x: Row)
    requires |M.rows| == M.cols == |V| == |x|
    ensures Normalize(Pair(M, V), ndim).Ok?
    ensures Apply(Normalize(Pair(M, V), ndim).value, x + [1.0]) == AffineImage(M.rows, V, x) + [1.0]
  {
    assert forall i :: 0 <= i < |M.rows| ==> M.rows[i] in M.rows;
    HomogeneousActsAsAffine(M.rows, V, x);
  }

  /** A 1-D array V is the pure translation x -> x + V. */
  lemma ShiftTranslates(V: Row, ndim: Option<int>, x: Row)
    requires |x| == |V|
    ensures Normalize(Shift(V), ndim).Ok?
    ensures Apply(Normalize(Shift(V), ndim).value, x + [1.0])
            == seq(|x|, i requires 0 <= i < |x| => x[i] + V[i]) + [1.0]
  {
    var I := Identity(|V|);
    HomogeneousActsAsAffine(I, V, x);
    IdentityApply(x);
    forall i | 0 <= i < |x| ensures AffineImage(I, V, x)[i] == x[i] + V[i] {
      assert Dot(I[i], x) == Apply(I, x)[i];
    }
  }

  /** The normalisation the setter applies in a diagram of dimension `ndim`. */
  function NormalizeFor(ndim: Option<int>): TransformInput -> Result<Matrix>
  {
    v => Normalize(v, ndim)
  }

  /** The internal list after the setter has run, and the exception that
      stopped it, if any. */
  datatype Stored = Stored(list: seq<Matrix>, failure: Option<Error>)

  /** The transformation can be normalised and inverted. */
  predicate Accepted(v: TransformInput, normalize: TransformInput -> Result<Matrix>, invert: Matrix -> Option<Matrix>)
  {
    normalize(v).Ok? && invert(normalize(v).value).Some?
  }

  /** One turn of the setter's loop on the list built so far: the
      normalised matrix is appended, then its inverse. The direct matrix
      is appended before the inverse is computed, so a singular matrix is
      left without its partner. A turn only appends, and it appends a whole
      pair, without raising, exactly when the input is accepted. */
  function Turn(list: seq<Matrix>, v: TransformInput,
                normalize: TransformInput -> Result<Matrix>, invert: Matrix -> Option<Matrix>): (r: Stored)
    ensures |list| <= |r.list| <= |list| + 2 && r.list[..|list|] == list
    ensures r.failure.None? <==> |r.list| == |list| + 2
    ensures r.failure.None? <==> Accepted(v, normalize, invert)
  {
    match normalize(v)
    case Err(e) => Stored(list, Some(e))
    case Ok(m) =>
      match invert(m)
      case None => Stored(list + [m], Some(SingularMatrix))
      case Some(mi) => Stored(list + [m] + [mi], None)
  }

  /** The list the setter builds from `values`, turn by turn, until a
      turn raises: at most two entries per input, and exactly two per input
      when nothing raised. The setter's normaliser is `NormalizeFor(ndim)`;
      the loop does not depend on how a matrix is normalised, so the
      normaliser is a parameter here. */
  function Store(values: seq<TransformInput>, normalize: TransformInput -> Result<Matrix>, invert: Matrix -> Option<Matrix>): (s: Stored)
    ensures |s.list| <= 2 * |values|
    ensures s.failure.None? <==> |s.list| == 2 * |values|
    decreases |values|
  {
    if values == [] then Stored([], None)
    else
      var before := Store(values[..|values| - 1], normalize, invert);
      if before.failure.Some? then before
      else Turn(before.list, values[|values| - 1], normalize, invert)
  }

  /** After i inputs stored without failure, input i takes one turn on the
      list built so far. */
  lemma StoreNext(values: seq<TransformInput>, i: nat,
                  normalize: TransformInput -> Result<Matrix>, invert: Matrix -> Option<Matrix>)
    requires i < |values| && Store(values[..i], normalize, invert).failure.None?
    ensures Store(values[..i + 1], normalize, invert)
            == Turn(Store(values[..i], normalize, invert).list, values[i], normalize, invert)
  {
    assert values[..i + 1][..i] == values[..i];
  }

  /** A failure among the first i inputs ends the call: the rest are never
      looked at. */
  lemma {:induction false} StoreStops(values: seq<TransformInput>, i: nat,
                                      normalize: TransformInput -> Result<Matrix>, invert: Matrix -> Option<Matrix>)
    requires i <= |values| && Store(values[..i], normalize, invert).failure.Some?
    ensures Store(values, normalize, invert) == Store(values[..i], normalize, invert)
    decreases |values|
  {
    if i == |values| {
      assert values[..i] == values;
    } else {
      var init := values[..|values| - 1];
      assert init[..i] == values[..i];
      StoreStops(init, i, normalize, invert);
    }
  }

  /** Pair i of the stored list: input i was accepted, entry 2i is its
      normalised matrix and entry 2i + 1 the inverse of that matrix. */
  lemma {:induction false} StoreEntry(values: seq<TransformInput>, normalize: TransformInput -> Result<Matrix>, invert: Matrix -> Option<Matrix>, i: nat)
    requires 2 * i + 1 < |Store(values, normalize, invert).list|
    ensures var s := Store(values, normalize, invert);
            i < |values| && Accepted(values[i], normalize, invert) &&
            s.list[2 * i] == normalize(values[i]).value &&
            invert(s.list[2 * i]) == Some(s.list[2 * i + 1])
    decreases |values|
  {
    var init := values[..|values| - 1];
    var before := Store(init, normalize, invert);
    if before.failure.Some? || 2 * i + 1 < |before.list| {
      StoreEntry(init, normalize, invert, i);
      assert values[i] == init[i];
    }
  }

  /** The pairs of the stored list. With k = |list| / 2, the first k
      inputs were accepted, entry 2i is the i-th normalised input and entry
      2i + 1 its inverse; without failure there are exactly 2 |values| entries. */
  lemma StorePairs(values: seq<TransformInput>, normalize: TransformInput -> Result<Matrix>, invert: Matrix -> Option<Matrix>)
    ensures var s := Store(values, normalize, invert);
            var k := |s.list| / 2;
            k <= |values| &&
            (forall i :: 0 <= i < k ==>
               Accepted(values[i], normalize, invert) &&
               s.list[2 * i] == normalize(values[i]).value &&
               invert(s.list[2 * i]) == Some(s.list[2 * i + 1])) &&
            (s.failure.None? <==> |s.list| == 2 * |values|)
  {
    var s := Store(values, normalize, invert);
    forall i | 0 <= i < |s.list| / 2
      ensures Accepted(values[i], normalize, invert)
      ensures s.list[2 * i] == normalize(values[i]).value
      ensures invert(s.list[2 * i]) == Some(s.list[2 * i + 1])
    {
      StoreEntry(values, normalize, invert, i);
    }
  }

  /** The index of the first input that is not accepted, or |values|. */
  function FirstRefused(values: seq<TransformInput>, normalize: TransformInput -> Result<Matrix>, invert: Matrix -> Option<Matrix>): (k: nat)
    ensures k <= |values|
    ensures forall i :: 0 <= i < k ==> Accepted(values[i], normalize, invert)
    ensures k < |values| ==> !Accepted(values[k], normalize, invert)
    decreases |values|
  {
    if values == [] then 0
    else
      var init := values[..|values| - 1];
      var k := FirstRefused(init, normalize, invert);
      assert forall i :: 0 <= i < |init| ==> values[i] == init[i];
      if k < |init| || !Accepted(values[|init|], normalize, invert) then k
      else |values|
  }

  /** The setter completes exactly when every input is accepted. */
  lemma {:induction false} StoreCompletes(values: seq<TransformInput>, normalize: TransformInput -> Result<Matrix>, invert: Matrix -> Option<Matrix>)
    ensures Store(values, normalize, invert).failure.None? <==> FirstRefused(values, normalize, invert) == |values|
    decreases |values|
  {
    if values != [] {
      StoreCompletes(values[..|values| - 1], normalize, invert);
    }
  }

  /** After a failure, with k the first refused input: the list holds the
      k accepted pairs, followed by the normalised matrix of input k alone
      when only its inversion failed; the failure is the one input k
      raised. */
  lemma {:induction false} StoreFailure(values: seq<TransformInput>, normalize: TransformInput -> Result<Matrix>, invert: Matrix -> Option<Matrix>)
    requires Store(values, normalize, invert).failure.Some?
    ensures var s := Store(values, normalize, invert);
            var k := FirstRefused(values, normalize, invert);
            k < |values| &&
            var n := normalize(values[k]);
            |s.list| == 2 * k + (if n.Ok? then 1 else 0) &&
            (n.Ok? ==> s.list[2 * k] == n.value) &&
            s.failure == (if n.Ok? then Some(SingularMatrix) else Some(n.error))
    decreases |values|
  {
    var init := values[..|values| - 1];
    if Store(init, normalize, invert).failure.Some? {
      StoreFailure(init, normalize, invert);
      assert values[FirstRefused(init, normalize, invert)] == init[FirstRefused(init, normalize, invert)];
    } else {
      StoreCompletes(init, normalize, invert);
      }
  }


  /** The `[::2]` slice: the entries at even positions. */
  function EvenEntries<T>(s: seq<T>): (r: seq<T>)
    ensures |r| == (|s| + 1) / 2
    ensures forall i :: 0 <= i < |r| ==> r[i] == s[2 * i]
  {
    if |s| <= 1 then s else [s[0]] + EvenEntries(s[2..])
  }

  /** After a successful assignment of k transformations the getter gives
      back exactly the k normalised matrices, in input order. */
  lemma GetterReturnsNormalizedInputs(values: seq<TransformInput>, ndim: Option<int>, invert: Matrix -> Option<Matrix>)
    requires Store(values, NormalizeFor(ndim), invert).failure.None?
    ensures |EvenEntries(Store(values, NormalizeFor(ndim), invert).list)| == |values|
    ensures forall i :: 0 <= i < |values| ==>
              Normalize(values[i], ndim) == Ok(EvenEntries(Store(values, NormalizeFor(ndim), invert).list)[i])
  {
    StorePairs(values, NormalizeFor(ndim), invert);
  }
}
