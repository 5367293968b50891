# Configuration state of an sdot power diagram

`PowerDiagram` in sdot is the user-facing object that holds what a power
diagram (a Laguerre tessellation) is built from before any compiled code
runs:

- the sites, meaning their positions and weights;
- the boundary table, whose rows `[dir_0, …, dir_{d-1}, offset]` each
  delimit a half-space;
- the list of periodicity transformations, stored as homogeneous matrices
  with each one followed by its inverse;
- an optionally forced scalar type and dimension;
- the cached acceleration structure, the compiled module in use and the
  base cell that every site's cell starts from.

This project models that state and its operations in Dafny, and proves
what the setters, the getters, `add_box_boundaries` and
`_update_internal_attributes` guarantee about it.

Modules:

- `Results`: the exceptions the code raises, as an `Error` datatype, plus
  `Option` and `Result`.
- `LinAlg`: rows, 2-D arrays (`Table`, which keeps its column count even
  when it has no rows, as numpy does), scalar products, unit vectors,
  identity and matrix-vector products.
- `Boundaries`:
  - the meaning of a boundary row (a point is exterior iff
    `<dir, p> > offset`);
  - the forms the boundaries setter accepts;
  - the rows `add_box_boundaries` appends, and the domain they delimit.
- `Periodicity`:
  - the normalisation of a transformation to a homogeneous matrix, and its
    action as an affine map;
  - `Store`, the list the setter builds turn by turn, including the partial
    list left behind when a turn raises;
  - the `[::2]` getter.
- `PowerDiagrams`:
  - `InferNdim`, the dimension inference;
  - the class `PowerDiagram`, whose fields are the attributes above and
    whose methods are the setters, `add_box_boundaries` (with its loop) and
    `_update_internal_attributes` (with the base-cell loop).

`Valid()` is the class invariant. It states that a cached acceleration
structure was built from the current positions, weights and periodicity
list. Every method keeps it.

Calls into code outside this layer are parameters of the methods that make
them:

- `invert` is `np.linalg.inv`, and `None` stands for a singular matrix.
- `moduleFor` is `module_for`, and gives the cell dimension of the compiled
  module or `None` when there is no module.
- `inferredDtype` is the `type_promote` result the `dtype` getter falls
  back on.

## Model

| member | source | states |
|---|---|---|
| LinAlg.FromRowList | src/python/sdot/PowerDiagram.py:161 | A list of rows becomes a 2-D array iff all rows have the same length; the rows are kept and the width is that of the first row |
| Boundaries.InsideAppend | src/python/sdot/PowerDiagram.py:350-354 | A point is inside a table made of two parts iff it is inside both parts: boundary rows intersect |
| Boundaries.Exterior | src/cpp/sdot/Cell.h:32 | A boundary row [dir, offset] excludes p iff <dir, p> > offset; a row of the wrong width excludes nothing. Definition; LowerRowExterior, UpperRowExterior and CutsMatchBoundaryRows state its properties |
| Boundaries.Inside | src/python/sdot/PowerDiagram.py:350-354 | A point is in the domain iff no boundary row excludes it, as the base cell is cut by every row. Definition; InsideAppend and BoxRowsDelimitBox state its properties |
| Boundaries.Concat | src/python/sdot/PowerDiagram.py:159 | Appends each value as the last column of its direction row. Definition; SplitConcat and ConcatSplit state that it is undone by splitting |
| Boundaries.Update | src/python/sdot/PowerDiagram.py:146-161 | Boundaries setter: None leaves the table unchanged; a list is stored iff it is rectangular; an array is stored as is; a (dirs, vals) tuple is stored iff the row counts agree, as a table one column wider whose directions are dirs and whose last column is vals; a tuple of fewer than two items raises |
| Boundaries.SplitConcat | src/python/sdot/PowerDiagram.py:159 | Splitting the concatenated table gives back dirs and vals |
| Boundaries.ConcatSplit | src/python/sdot/PowerDiagram.py:159 | Concatenating a table's directions and offset column gives back the table |
| Boundaries.TupleFormStoresSameTable | src/python/sdot/PowerDiagram.py:151-161 | Assigning a table's (directions, offsets) tuple stores exactly that table, as assigning the array does |
| Boundaries.UpdateAsWritten | src/python/sdot/PowerDiagram.py:148-149 | The setter as written raises the ambiguous-truth-value error on every array of more than one element, and on every other input (including arrays of at most one element) gives exactly what Update gives |
| Boundaries.AsWrittenRejectsOwnGetter | src/python/sdot/PowerDiagram.py:142-149 | Giving back the array the getter returned raises in the code as written, while the intended setter stores it unchanged |
| Boundaries.UnitIntervalArrayRejected | src/python/sdot/PowerDiagram.py:148-149 | The two-row table of the unit interval is rejected as written and accepted as intended |
| Boundaries.BoxRowsLength | src/python/sdot/PowerDiagram.py:95-97 | After m turns of the loop, 2m rows have been appended |
| Boundaries.BoxRowsFace | src/python/sdot/PowerDiagram.py:95-97 | Rows 2n and 2n + 1 appended by the loop are the lower face (-e_n, -min_offset[n]) and the upper face (+e_n, +max_offset[n]) of axis n |
| Boundaries.BoxRowsLayout | src/python/sdot/PowerDiagram.py:95-97 | The same for all axes at once: two rows per axis, lower face first, in axis order |
| Boundaries.LowerRowExterior | src/python/sdot/PowerDiagram.py:96 | The lower face of axis n excludes p iff p[n] < min_offset[n] |
| Boundaries.UpperRowExterior | src/python/sdot/PowerDiagram.py:97 | The upper face of axis n excludes p iff p[n] > max_offset[n] |
| Boundaries.BoxRowsWidth | src/python/sdot/PowerDiagram.py:96-97 | Every appended row has ndim + 1 entries |
| Boundaries.BoxFacesExterior | src/python/sdot/PowerDiagram.py:95-97 | Rows 2n and 2n + 1 of the box exclude exactly the points below min_offset[n] and above max_offset[n] on axis n |
| Boundaries.FacesDelimitBox | src/python/sdot/PowerDiagram.py:95-97 | Rows with those per-axis exclusions delimit exactly the box [min_offset, max_offset] |
| Boundaries.BoxRowsDelimitBox | src/python/sdot/PowerDiagram.py:95-97 | The rows of the box delimit exactly the axis-aligned box [min_offset, max_offset] |
| Boundaries.Broadcast | src/python/sdot/PowerDiagram.py:82-89 | An omitted offset becomes its default and a scalar becomes np.full([ndim], x); a vector is kept. Definition; ScalarOffsetBroadcasts and AddBoxDefaultIsUnitCube state its properties |
| Boundaries.AddBox | src/python/sdot/PowerDiagram.py:60-98 | The table add_box_boundaries stores: after success the dimension was found and the table has two rows per axis after the existing rows. AddBoxRows, AddBoxWidth, AddBoxIntersectsDomain, AddBoxSucceeds and AddBoxNeedsDimension state the rest |
| Boundaries.BoxDimension | src/python/sdot/PowerDiagram.py:71-81 | The dimension is len(base) when base is given. Otherwise the ndim argument, else the diagram's ndim, is chosen: the call succeeds iff that value exists and is non-negative, and then returns it; a negative value raises as np.identity does, and with none of them the call raises |
| Boundaries.AddBoxRows | src/python/sdot/PowerDiagram.py:82-98 | A successful call stores the old rows followed by the box rows built from the broadcast offsets |
| Boundaries.AddBoxWidth | src/python/sdot/PowerDiagram.py:92-98 | After a successful call of positive dimension nd the table is non-empty and nd + 1 columns wide |
| Boundaries.AddBoxIntersectsDomain | src/python/sdot/PowerDiagram.py:92-98 | A point is inside the new table iff it was inside the old one and lies in [min_offset, max_offset] on every axis |
| Boundaries.AddBoxSucceeds | src/python/sdot/PowerDiagram.py:71-98 | The call succeeds when the dimension is found, both offsets cover every axis and the old table is empty or already ndim + 1 wide |
| Boundaries.AddBoxDefaultIsUnitCube | src/python/sdot/PowerDiagram.py:82-85 | Without offsets and without earlier boundaries, the domain is the unit cube [0, 1]^ndim |
| Boundaries.ScalarOffsetBroadcasts | src/python/sdot/PowerDiagram.py:86-89 | A scalar offset acts as the same value on every axis |
| Boundaries.BaseOnlyGivesDimension | src/python/sdot/PowerDiagram.py:71-72 | Only the length of base matters, and it overrides the ndim argument |
| Boundaries.AddBoxNeedsDimension | src/python/sdot/PowerDiagram.py:74-77 | With no base, no ndim argument and no inferable ndim, the call raises |
| LinAlg.DotAxis | src/python/sdot/PowerDiagram.py:96-97 | The scalar product with ±e_n picks ±p[n] |
| LinAlg.IdentityApply | src/python/sdot/PowerDiagram.py:129-134 | The identity matrix that a 1-D transformation starts from leaves every vector unchanged (used by ShiftTranslates) |
| Periodicity.Normalize | src/python/sdot/PowerDiagram.py:110-136 | Normalisation of one transformation: a (M, V) tuple succeeds iff M is square with V's size, giving an (s+1)-square matrix; a tuple of another length fails; a 2-D array succeeds iff it is square and, when ndim is known, ndim + 1 wide, and is kept as is; a 1-D array always succeeds; other ranks fail |
| Periodicity.HomogeneousActsAsAffine | src/python/sdot/PowerDiagram.py:119-121 | The homogeneous matrix built from (M, V) maps (x, 1) to (M x + V, 1) |
| Periodicity.PairActsAsAffine | src/python/sdot/PowerDiagram.py:110-121 | A normalised (M, V) tuple acts as x -> M x + V |
| Periodicity.ShiftTranslates | src/python/sdot/PowerDiagram.py:129-134 | A normalised 1-D array V acts as x -> x + V |
| Periodicity.StoreNext | src/python/sdot/PowerDiagram.py:109-139 | When the first i inputs are stored without failure, input i takes one turn of the loop on the list built so far |
| Periodicity.StoreStops | src/python/sdot/PowerDiagram.py:109-139 | An exception among the first i inputs ends the loop: later inputs change nothing |
| Periodicity.Turn | src/python/sdot/PowerDiagram.py:110-139 | One turn of the loop on the list built so far: it only appends, at most two entries, and appends the whole pair (matrix, inverse) without raising exactly when the input can be normalised and inverted |
| Periodicity.Store | src/python/sdot/PowerDiagram.py:106-139 | The list the setter builds, turn by turn from the empty list until a turn raises: at most two entries per input, and exactly two per input iff nothing raised. StoreNext, StoreStops, StoreEntry, StorePairs, StoreCompletes and StoreFailure state the rest |
| Periodicity.StoreEntry | src/python/sdot/PowerDiagram.py:138-139 | Pair i of the list is the normalised input i followed by its inverse |
| Periodicity.StorePairs | src/python/sdot/PowerDiagram.py:109-139 | The same for every complete pair, with the count of entries |
| Periodicity.FirstRefused | src/python/sdot/PowerDiagram.py:109-139 | The index of the first input that cannot be normalised and inverted: every input before it can, and the one at it cannot |
| Periodicity.StoreCompletes | src/python/sdot/PowerDiagram.py:109-139 | The setter completes iff every input can be normalised and inverted |
| Periodicity.StoreFailure | src/python/sdot/PowerDiagram.py:109-139 | After an exception at input k, the list holds the k complete pairs, plus the unpaired matrix of input k when only its inversion failed; the exception is input k's |
| Periodicity.EvenEntries | src/python/sdot/PowerDiagram.py:100-102 | The `[::2]` slice: the entries at even positions, half the length rounded up |
| Periodicity.GetterReturnsNormalizedInputs | src/python/sdot/PowerDiagram.py:100-139 | After a successful assignment the getter returns exactly the normalised inputs, in order |
| PowerDiagrams.InferNdim | src/python/sdot/PowerDiagram.py:220-232 | The ndim getter: a truthy forced value, else the width of a non-empty boundary table minus one, else the positions' column count, else None. An inferred value agrees with every boundary row (width ndim + 1) or with every position row (width ndim) it comes from |
| PowerDiagrams.ForcedNdimWins | src/python/sdot/PowerDiagram.py:220-224 | A nonzero forced dimension is the dimension |
| PowerDiagrams.ZeroForcedNdimIgnored | src/python/sdot/PowerDiagram.py:223 | A dimension forced to 0 is falsy and is ignored |
| PowerDiagrams.InferredNdimPrecedence | src/python/sdot/PowerDiagram.py:226-232 | A non-empty boundary table gives its width minus one; else the positions give their column count; the dimension is unknown iff neither exists |
| PowerDiagrams.AddBoxFixesNdim | src/python/sdot/PowerDiagram.py:60-98 | Unless the dimension is forced, after adding a box of positive dimension nd the diagram's dimension is nd |
| PowerDiagrams.FirstShortRow | src/python/sdot/PowerDiagram.py:353-354 | The index of the first boundary row without an entry at ndim: every earlier row has one, and that row does not |
| PowerDiagrams.CutsMatchBoundaryRows | src/python/sdot/PowerDiagram.py:350-354 | For a table of width d + 1, every row gives a cut, tagged with its row index, that excludes exactly the points the row declares exterior |
| PowerDiagrams.PowerDiagram.constructor | src/python/sdot/PowerDiagram.py:35-45 | Base initialisation: nothing stored, nothing forced, no cache, empty periodicity list |
| PowerDiagrams.PowerDiagram.Valid | src/python/sdot/PowerDiagram.py:173-190 | Class invariant: a cached acceleration structure was built from the current positions, weights and periodicity list, since every setter of those drops it (lines 107, 173, 190) and line 347 builds it from them |
| PowerDiagrams.PowerDiagram.Ndim | src/python/sdot/PowerDiagram.py:220-232 | The ndim getter on the diagram's fields: InferNdim of the forced value, the boundary table and the positions |
| PowerDiagrams.PowerDiagram.Dtype | src/python/sdot/PowerDiagram.py:200-212 | The dtype getter: the forced type if any, else the type promoted from the inputs (a parameter); SetDtype states that a forced type is what it returns |
| PowerDiagrams.PowerDiagram.PeriodicityTransformations | src/python/sdot/PowerDiagram.py:100-102 | The periodicity getter: EvenEntries of the stored list; GetterReturnsNormalizedInputs states that it gives back the normalised inputs |
| PowerDiagrams.PowerDiagram.Selected | src/python/sdot/PowerDiagram.py:327-332 | The compiled module chosen for the current dtype and ndim: none when either is unknown or no module exists; UpdateInternalAttributes states how it is used |
| PowerDiagrams.PowerDiagram.Stale | src/python/sdot/PowerDiagram.py:335 | The acceleration structure must be rebuilt: it is missing or was made for another dtype or ndim; RebuildAccel states what happens then |
| PowerDiagrams.PowerDiagram.New | src/python/sdot/PowerDiagram.py:34-58 | Constructor arguments go through the setters in order; it raises iff the boundaries setter does, and otherwise the fields hold the arguments with no cache |
| PowerDiagrams.PowerDiagram.SetDtype | src/python/sdot/PowerDiagram.py:200-218 | None is ignored; any other value is forced, and the dtype getter then returns it whatever the inputs are |
| PowerDiagrams.PowerDiagram.SetNdim | src/python/sdot/PowerDiagram.py:220-238 | None is ignored; any other value is forced, and a nonzero value is what the ndim getter then returns |
| PowerDiagrams.PowerDiagram.SetBoundaries | src/python/sdot/PowerDiagram.py:146-161 | Stores what Boundaries.Update gives, or raises and leaves the table as it was; the cache is kept |
| PowerDiagrams.PowerDiagram.SetPositions | src/python/sdot/PowerDiagram.py:169-174 | None is ignored; otherwise the positions are stored and the cache dropped |
| PowerDiagrams.PowerDiagram.SetWeights | src/python/sdot/PowerDiagram.py:182-187 | None is ignored; otherwise the weights are stored and the cache dropped |
| PowerDiagrams.PowerDiagram.WeightsModified | src/python/sdot/PowerDiagram.py:189-190 | Drops the cache |
| PowerDiagrams.PowerDiagram.SetPeriodicityTransformations | src/python/sdot/PowerDiagram.py:104-139 | The list and the raised exception are exactly Store of the inputs under the diagram's ndim; given None, the list is emptied and the iteration raises; the cache is dropped in every case |
| PowerDiagrams.PowerDiagram.AppendBoxFaces | src/python/sdot/PowerDiagram.py:92-97 | The loop appends the box rows to the existing rows, or raises when an offset vector has fewer than ndim entries |
| PowerDiagrams.PowerDiagram.AddBoxBoundaries | src/python/sdot/PowerDiagram.py:60-98 | Stores what Boundaries.AddBox gives, or raises and leaves the table as it was |
| PowerDiagrams.PowerDiagram.CutBaseCell | src/python/sdot/PowerDiagram.py:350-354 | The base cell is rebuilt with one cut per boundary row, in order, up to the first row too short to index, where it raises |
| PowerDiagrams.PowerDiagram.RebuildAccel | src/python/sdot/PowerDiagram.py:335-347 | When the cache is missing or was built for another dtype or ndim, it is rebuilt from the current positions, weights (zeros when missing) and periodicity list; without positions it raises; otherwise nothing changes |
| PowerDiagrams.PowerDiagram.UpdateInternalAttributes | src/python/sdot/PowerDiagram.py:322-359 | Returns false and changes nothing when dtype or ndim is unknown; raises when no compiled module exists; otherwise records the module, rebuilds a stale cache and recuts the base cell, returning true unless a step raised |

## Left out

- Compiled code. `module_for`, `LowCountAccelerationStructure`, `Cell` and its `cut_boundary`, and `normalized_dtype`/`type_promote` are outside this layer. They appear only as parameters (`moduleFor`, `inferredDtype`) or, for the acceleration structure, as a snapshot of what it was built from.
- Cell geometry. What a cut does to a cell is not modelled. The base cell is the ordered list of cuts it receives, and the meaning of one cut is the half-space predicate `Boundaries.Exterior`.
- `np.linalg.inv`. It is the parameter `invert`, so nothing is proved about the inverse beyond what the setter stores.
- The underlying measure and the density binding (`underlying_measure`, `normalized_distribution`, and the `binding` call at the end of `_update_internal_attributes`). These are not part of this model.
- PoomVec storage and `automatic_conversion_to_ndarrays`. Positions and weights are held as values, and the getters return them as they are.
- The dtype casts (`astype`) in `_update_internal_attributes`. Scalar types are names, and the reals stand in for every floating-point type.
- Floating-point arithmetic. All computation is on exact reals.
- `Periodicity.Normalize`: a tuple whose M is not 2-D, or whose V is not 1-D, is out of scope. A tuple is modelled as a 2-D M and a 1-D V.
- `Periodicity.Store` takes the normaliser as a parameter. The setter always passes `NormalizeFor(ndim)`, so the lemmas about `Store` hold for any normaliser, which includes that one.
- `Boundaries.Update`: a tuple's parts are a 2-D table and a 1-D vector, so the setter's assertions that `dirs` is 2-D and `vals` is 1-D always hold in the model. Parts of any other rank are not represented. A tuple with more than two items is modelled as `DirsVals`, because the setter reads only its first two items.
- `PowerDiagrams.PowerDiagram.SetDtype`: the value is stored as given, without `normalized_dtype`.
- `PowerDiagrams.PowerDiagram.SetNdim`: the value is already an integer, so `int(value)` is not modelled.
- `PowerDiagrams.PowerDiagram.SetPositions` and `PowerDiagrams.PowerDiagram.SetWeights`: positions are a 2-D table and weights a vector. Conversion from arbitrary array-likes is not modelled.
- Other operations of the class, which are not part of this model: `for_each_cell`, measure and plotting methods, VTK output and `max_nb_threads`.
- `Boundaries.UpdateAsWritten`: an array with zero elements is treated as passing the `== None` test. That is what older numpy does, with a deprecation warning; newer numpy raises there as well.

## Findings

| source | as written | input that shows it | evidently intended | confidence | as-written member | corrected member |
|---|---|---|---|---|---|---|
| src/python/sdot/PowerDiagram.py:148 | `if values == None` compares an ndarray element by element, and the resulting array has no truth value when it holds more than one element, so the setter raises ValueError | `pd.boundaries = pd.boundaries` with the two-row table `[[-1, 0], [1, 1]]` | `values is None`: skip only a missing value and store any array | not executed | Boundaries.UpdateAsWritten (Boundaries.AsWrittenRejectsOwnGetter, Boundaries.UnitIntervalArrayRejected) | Boundaries.Update (Boundaries.TupleFormStoresSameTable, PowerDiagrams.PowerDiagram.SetBoundaries) |
