/**
 * The per-mode storage layout a tensor is built on: mode types, the format
 * (mode types, mode ordering, per-level array types), mode indices made of
 * integer index arrays, and the storage that pairs an index with values.
 *
 * The headers of Format, Index, ModeIndex, Array and Storage are not part of
 * this model; they appear here as plain values, with exactly the structure
 * src/tensor.cpp relies on. Component values are kept as raw bytes.
 */
module StorageModel {
  import opened Results
  import opened Types

  /** Dense and Sparse, plus `Fixed` standing for every mode type tensor.cpp does not support. */
  datatype ModeType = Dense | Sparse | Fixed

  /** One component value, as the bytes the coordinate buffer holds for it. */
  type Value = seq<bv8>

  /** An index array: a run of integers. */
  type IndexArray = seq<int>

  datatype Format = Format(
    modeTypes: seq<ModeType>,
    modeOrdering: seq<nat>,
    levelArrayTypes: seq<seq<DataType>>)
  {
    function GetOrder(): nat { |modeTypes| }

    /** Every mode has a position in the ordering, and it names a mode. */
    predicate Valid() {
      |modeOrdering| == |modeTypes| &&
      forall i :: 0 <= i < |modeOrdering| ==> modeOrdering[i] < |modeTypes|
    }
  }

  /** `Format(modeType)` repeated over `order` modes: identity ordering, no array types yet. */
  function UniformFormat(order: nat, modeType: ModeType): (f: Format)
    ensures f.Valid() && f.GetOrder() == order
    ensures forall i :: 0 <= i < order ==> f.modeTypes[i] == modeType && f.modeOrdering[i] == i
    ensures f.levelArrayTypes == []
  {
    Format(seq(order, _ => modeType), seq(order, i => i), [])
  }

  /** The index arrays of one mode: `[size]` for Dense, `[pos, idx]` for Sparse. */
  datatype ModeIndex = ModeIndex(arrays: seq<IndexArray>) {
    function NumIndexArrays(): nat { |arrays| }
  }

  /** A tensor's storage: its format, one mode index per mode, and its values. */
  datatype Storage = Storage(format: Format, index: seq<ModeIndex>, values: seq<Value>)

  /** The coordinate types a mode type gets by default: one array for Dense, two for Sparse. */
  function DefaultArrayTypes(m: ModeType): (r: Option<seq<DataType>>)
    ensures m == Dense ==> r == Some([DataType(Int32)])
    ensures m == Sparse ==> r == Some([DataType(Int32), DataType(Int32)])
    ensures r.None? <==> m == Fixed
  {
    match m
    case Dense => Some([DataType(Int32)])
    case Sparse => Some([DataType(Int32), DataType(Int32)])
    case Fixed => None
  }

  predicate Supported(m: ModeType) { m == Dense || m == Sparse }

  /**
   * The loop of the tensor constructor that fills in missing level array
   * types: Dense and Sparse get their defaults; any other mode type is not
   * supported yet.
   */
  method DefaultLevelArrayTypes(modeTypes: seq<ModeType>) returns (r: Result<seq<seq<DataType>>>)
    ensures r.Success? <==> forall i :: 0 <= i < |modeTypes| ==> Supported(modeTypes[i])
    ensures r.Failure? ==> r.error == NotSupportedYet
    ensures r.Success? ==> (|r.value| == |modeTypes| &&
      forall i :: 0 <= i < |modeTypes| ==> Some(r.value[i]) == DefaultArrayTypes(modeTypes[i]))
    ensures r.Success? ==> forall i :: 0 <= i < |modeTypes| ==>
      |r.value[i]| == (if modeTypes[i] == Dense then 1 else 2)
  {
    var levelArrayTypes: seq<seq<DataType>> := [];
    var i := 0;
    while i < |modeTypes|
      invariant 0 <= i <= |modeTypes|
      invariant |levelArrayTypes| == i
      invariant forall k :: 0 <= k < i ==> Supported(modeTypes[k])
      invariant forall k :: 0 <= k < i ==> Some(levelArrayTypes[k]) == DefaultArrayTypes(modeTypes[k])
    {
      var arrayTypes: seq<DataType> := [];
      var modeType := modeTypes[i];
      if modeType == Dense {
        arrayTypes := arrayTypes + [DataType(Int32)];
        assert arrayTypes == [DataType(Int32)];
      } else if modeType == Sparse {
        arrayTypes := arrayTypes + [DataType(Int32)];
        arrayTypes := arrayTypes + [DataType(Int32)];
        assert arrayTypes == [DataType(Int32), DataType(Int32)];
      } else {
        return Failure(NotSupportedYet);
      }
      assert Some(arrayTypes) == DefaultArrayTypes(modeType);
      levelArrayTypes := levelArrayTypes + [arrayTypes];
      i := i + 1;
    }
    return Success(levelArrayTypes);
  }

  /**
   * The format a tensor constructor ends up with: the number of mode types
   * must equal the number of dimensions (a user assertion), and missing
   * level array types are filled in with the defaults.
   */
  function CompleteFormat(format: Format, order: nat): (r: Result<Format>)
    ensures format.GetOrder() != order ==> r.Failure? && r.error.UserError?
    ensures r.Success? ==> r.value.modeTypes == format.modeTypes && r.value.modeOrdering == format.modeOrdering
    ensures r.Success? ==> |r.value.levelArrayTypes| >= order
    ensures format.GetOrder() == order && |format.levelArrayTypes| >= order ==> r == Success(format)
    ensures format.GetOrder() == order && |format.levelArrayTypes| < order ==>
      (r.Success? <==> forall i :: 0 <= i < order ==> Supported(format.modeTypes[i]))
    ensures r.Success? && |format.levelArrayTypes| < order ==>
      forall i :: 0 <= i < order ==> Some(r.value.levelArrayTypes[i]) == DefaultArrayTypes(format.modeTypes[i])
  {
    if format.GetOrder() != order then
      Failure(UserError("The number of format mode types must match the tensor order"))
    else if |format.levelArrayTypes| >= order then
      Success(format)
    else if forall i :: 0 <= i < order ==> Supported(format.modeTypes[i]) then
      Success(format.(levelArrayTypes := seq(order, i requires 0 <= i < order =>
        DefaultArrayTypes(format.modeTypes[i]).value)))
    else
      Failure(NotSupportedYet)
  }

  /** The mode index the constructor gives mode `i`: Dense holds the size of the dimension the ordering maps it to. */
  function InitialModeIndex(format: Format, dimensions: seq<int>, i: nat): ModeIndex
    requires format.Valid() && format.GetOrder() == |dimensions| && i < |dimensions|
  {
    if format.modeTypes[i] == Dense then ModeIndex([[dimensions[format.modeOrdering[i]]]])
    else ModeIndex([])
  }

  /** The constructor's loop initialising dense modes; every other mode starts without arrays. */
  method InitialModeIndices(format: Format, dimensions: seq<int>) returns (modeIndices: seq<ModeIndex>)
    requires format.Valid() && format.GetOrder() == |dimensions|
    ensures |modeIndices| == |dimensions|
    ensures forall i :: 0 <= i < |dimensions| && format.modeTypes[i] == Dense ==>
      modeIndices[i].NumIndexArrays() == 1 &&
      modeIndices[i].arrays[0] == [dimensions[format.modeOrdering[i]]]
    ensures forall i :: 0 <= i < |dimensions| && format.modeTypes[i] != Dense ==>
      modeIndices[i].NumIndexArrays() == 0
    ensures forall i :: 0 <= i < |dimensions| ==> modeIndices[i] == InitialModeIndex(format, dimensions, i)
  {
    modeIndices := seq(format.GetOrder(), _ => ModeIndex([]));
    var i := 0;
    while i < format.GetOrder()
      invariant 0 <= i <= format.GetOrder()
      invariant |modeIndices| == format.GetOrder()
      invariant forall k :: 0 <= k < i ==> modeIndices[k] == InitialModeIndex(format, dimensions, k)
      invariant forall k :: i <= k < |modeIndices| ==> modeIndices[k] == ModeIndex([])
    {
      if format.modeTypes[i] == Dense {
        var idx := format.modeOrdering[i];
        modeIndices := modeIndices[i := ModeIndex([[dimensions[idx]]])];
      }
      i := i + 1;
    }
  }

  // ---------------------------------------------------------------------
  // Unpacking the arrays a generated kernel returns (unpackTensorData)
  // ---------------------------------------------------------------------

  /**
   * The raw arrays of a `taco_tensor_t`: for each mode the buffers behind
   * `indices[i][0]` (and `indices[i][1]`), and the values buffer. Each
   * sequence is as long as the memory the kernel made readable.
   */
  datatype TensorData = TensorData(indices: seq<seq<seq<int>>>, vals: seq<Value>)

  /**
   * The reads unpackTensorData makes from mode `i` on stay inside the
   * buffers, given the running count `numVals`: a Dense mode's first
   * element is its size, a Sparse mode reads `pos[numVals]` and then that
   * many coordinates. Sizes are read as non-negative counts. Walking stops
   * at the first unsupported mode.
   */
  ghost predicate Readable(modeTypes: seq<ModeType>, data: TensorData, i: nat, numVals: nat)
    decreases |modeTypes| - i
  {
    if i >= |modeTypes| then |data.vals| >= numVals
    else
      i < |data.indices| &&
      match modeTypes[i]
      case Dense =>
        |data.indices[i]| >= 1 && |data.indices[i][0]| >= 1 && data.indices[i][0][0] >= 0 &&
        Readable(modeTypes, data, i + 1, numVals * data.indices[i][0][0])
      case Sparse =>
        |data.indices[i]| >= 2 && |data.indices[i][0]| > numVals &&
        0 <= data.indices[i][0][numVals] <= |data.indices[i][1]| &&
        Readable(modeTypes, data, i + 1, data.indices[i][0][numVals])
      case Fixed => true
  }

  /**
   * The number of positions the first `n` levels of an index span: Dense
   * multiplies by its size, Sparse ends at the last entry of its position
   * array. This is the compressed (CSR/CSF) size recurrence.
   */
  function Extent(modeTypes: seq<ModeType>, modeIndices: seq<ModeIndex>, n: nat): int
    requires n <= |modeTypes| && n <= |modeIndices|
  {
    if n == 0 then 1
    else
      var arrays := modeIndices[n - 1].arrays;
      match modeTypes[n - 1]
      case Dense => if |arrays| >= 1 && |arrays[0]| >= 1 then Extent(modeTypes, modeIndices, n - 1) * arrays[0][0] else 0
      case Sparse => if |arrays| >= 1 && |arrays[0]| >= 1 then arrays[0][|arrays[0]| - 1] else 0
      case Fixed => 0
  }

  /**
   * The layout invariant of level `k` of a packed index: a Dense level holds
   * one array of length one, a Sparse level holds a position array one
   * longer than the extent of the levels above it and a coordinate array as
   * long as its last position.
   */
  ghost predicate WellFormedLevel(modeTypes: seq<ModeType>, modeIndices: seq<ModeIndex>, k: nat)
    requires k < |modeTypes| && k < |modeIndices|
  {
    var arrays := modeIndices[k].arrays;
    match modeTypes[k]
    case Dense => |arrays| == 1 && |arrays[0]| == 1 && arrays[0][0] >= 0
    case Sparse =>
      |arrays| == 2 && Extent(modeTypes, modeIndices, k) >= 0 &&
      |arrays[0]| == Extent(modeTypes, modeIndices, k) + 1 &&
      |arrays[1]| == arrays[0][|arrays[0]| - 1]
    case Fixed => false
  }

  /** The first `n` levels are well formed. */
  ghost predicate WellFormedIndex(modeTypes: seq<ModeType>, modeIndices: seq<ModeIndex>, n: nat)
    requires n <= |modeTypes| && n <= |modeIndices|
  {
    forall k :: 0 <= k < n ==> WellFormedLevel(modeTypes, modeIndices, k)
  }

  /** Appending a level does not change the extent of the levels before it. */
  lemma {:induction false} ExtentAppend(modeTypes: seq<ModeType>, prev: seq<ModeIndex>, mi: ModeIndex, n: nat)
    requires n <= |modeTypes| && n <= |prev|
    ensures Extent(modeTypes, prev + [mi], n) == Extent(modeTypes, prev, n)
  {
    if n > 0 {
      assert (prev + [mi])[n - 1] == prev[n - 1];
      ExtentAppend(modeTypes, prev, mi, n - 1);
    }
  }

  /** A well-formed prefix stays well formed when a well-formed level is appended. */
  lemma WellFormedAppend(modeTypes: seq<ModeType>, prev: seq<ModeIndex>, mi: ModeIndex)
    requires |prev| < |modeTypes|
    requires WellFormedIndex(modeTypes, prev, |prev|)
    requires WellFormedLevel(modeTypes, prev + [mi], |prev|)
    ensures WellFormedIndex(modeTypes, prev + [mi], |prev| + 1)
  {
    forall k | 0 <= k < |prev| ensures WellFormedLevel(modeTypes, prev + [mi], k) {
      assert (prev + [mi])[k] == prev[k];
      ExtentAppend(modeTypes, prev, mi, k);
      assert WellFormedLevel(modeTypes, prev, k);
    }
  }

  /** Each array of a rebuilt mode index is a prefix of the matching kernel buffer. */
  predicate CopiedFrom(mi: ModeIndex, data: TensorData, k: nat) {
    k < |data.indices| && |mi.arrays| <= |data.indices[k]| &&
    forall a :: 0 <= a < |mi.arrays| ==> mi.arrays[a] <= data.indices[k][a]
  }

  /**
   * unpackTensorData: rebuild the mode indices from a kernel's output,
   * walking the modes with a running entry count that starts at one. A
   * Dense mode multiplies the count by its size; a Sparse mode takes
   * `count + 1` positions and `pos[count]` coordinates and moves the count
   * to `pos[count]`. The values array and the returned count are the final
   * count. An unsupported mode type is not supported yet.
   */
  method UnpackTensorData(modeTypes: seq<ModeType>, data: TensorData)
    returns (r: Result<(seq<ModeIndex>, seq<Value>, nat)>)
    requires Readable(modeTypes, data, 0, 1)
    ensures r.Failure? <==> Fixed in modeTypes
    ensures r.Failure? ==> r.error == NotSupportedYet
    ensures r.Success? ==>
      var (modeIndices, values, numVals) := r.value;
      && |modeIndices| == |modeTypes|
      && WellFormedIndex(modeTypes, modeIndices, |modeTypes|)
      && numVals == Extent(modeTypes, modeIndices, |modeTypes|)
      && |values| == numVals && values <= data.vals
      && (forall k :: 0 <= k < |modeTypes| ==> CopiedFrom(modeIndices[k], data, k))
  {
    var modeIndices: seq<ModeIndex> := [];
    var numVals: nat := 1;
    var i := 0;
    while i < |modeTypes|
      invariant 0 <= i <= |modeTypes|
      invariant |modeIndices| == i
      invariant Fixed !in modeTypes[..i]
      invariant Readable(modeTypes, data, i, numVals)
      invariant WellFormedIndex(modeTypes, modeIndices, i)
      invariant numVals == Extent(modeTypes, modeIndices, i)
      invariant forall k :: 0 <= k < i ==> CopiedFrom(modeIndices[k], data, k)
    {
      var modeType := modeTypes[i];
      var prev := modeIndices;
      ExtentAppend(modeTypes, prev, ModeIndex([]), 0);
      if modeType == Dense {
        var size := [data.indices[i][0][0]];
        modeIndices := modeIndices + [ModeIndex([size])];
        ExtentAppend(modeTypes, prev, ModeIndex([size]), i);
        numVals := numVals * data.indices[i][0][0];
      } else if modeType == Sparse {
        var size := data.indices[i][0][numVals];
        var pos := data.indices[i][0][..numVals + 1];
        var idx := data.indices[i][1][..size];
        modeIndices := modeIndices + [ModeIndex([pos, idx])];
        ExtentAppend(modeTypes, prev, ModeIndex([pos, idx]), i);
        numVals := size;
      } else {
        return Failure(NotSupportedYet);
      }
      WellFormedAppend(modeTypes, prev, modeIndices[i]);
      assert modeTypes[..i + 1] == modeTypes[..i] + [modeType];
      i := i + 1;
    }
    assert modeTypes[..i] == modeTypes;
    return Success((modeIndices, data.vals[..numVals], numVals));
  }
}
