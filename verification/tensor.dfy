/**
 * TensorBase of src/tensor.cpp: a named tensor with fixed dimensions,
 * component type and format, a buffer of inserted coordinate records and
 * the storage `pack` builds from them.
 *
 * The coordinate buffer is kept as a sequence of records rather than raw
 * bytes; `coordinateBufferUsed` still counts bytes, so a record is
 * `coordinateSize` of them. The packer `storage::pack` is not part of this
 * model: `pack` records the arguments it hands to it.
 */
module Tensors {
  import opened Results
  import opened Types
  import opened StorageModel
  import opened Coordinates
  import opened IndexNotation

  /** What has happened to a tensor's buffer, in order. */
  datatype Event = Inserted(coords: seq<int>, value: Value) | Packed

  /** The arguments `pack` passes to `storage::pack`. */
  datatype PackCall = PackCall(
    dimensions: seq<int>,
    format: Format,
    coordinates: seq<seq<int>>,
    values: seq<Value>,
    numEntries: nat,
    ctype: DataType)

  /** A tensor's storage: the one the constructor built (possibly with values set), or the packer's result for a call. */
  datatype StorageState = Built(storage: Storage) | PackedFrom(call: PackCall)

  /** The default allocation size, `1 << 20`. */
  const DefaultAllocSize: nat := 1048576

  /** The records `pack` sorts: each coordinate reordered by the mode ordering, values untouched. */
  function PermuteRecords(rs: seq<Record>, perm: seq<nat>): (r: seq<Record>)
    requires forall k, j :: 0 <= k < |rs| && 0 <= j < |perm| ==> perm[j] < |rs[k].coords|
    ensures |r| == |rs|
    ensures forall k :: 0 <= k < |rs| ==> r[k] == Record(Permute(rs[k].coords, perm), rs[k].value)
  {
    seq(|rs|, k requires 0 <= k < |rs| => Record(Permute(rs[k].coords, perm), rs[k].value))
  }

  /** The entries a pack call describes: entry `k` has coordinate `(coordinates[0][k], ...)` and value `values[k]`. */
  function Entries(call: PackCall): (r: seq<Record>)
    requires |call.values| == call.numEntries
    requires forall d :: 0 <= d < |call.coordinates| ==> |call.coordinates[d]| == call.numEntries
    ensures |r| == call.numEntries
    ensures forall k :: 0 <= k < |r| ==> |r[k].coords| == |call.coordinates| && r[k].value == call.values[k]
  {
    seq(call.numEntries, k requires 0 <= k < call.numEntries =>
      Record(seq(|call.coordinates|, d requires 0 <= d < |call.coordinates| => call.coordinates[d][k]), call.values[k]))
  }

  class TensorBase {
    var name: string
    const dimensions: seq<int>
    const ctype: DataType
    /** The format after the constructor filled in missing level array types. */
    const format: Format
    /** Bytes per buffered record: the coordinates as `int`s, then the component. */
    const coordinateSize: nat

    var storage: StorageState
    var allocSize: nat
    /** The assignment the tensor's variable holds, if any. */
    var assignment: Option<IndexStmt>

    var coordinateBuffer: seq<Record>
    /** Bytes of `coordinateBuffer` taken by insertions. */
    var coordinateBufferUsed: nat

    ghost var log: seq<Event>

    function Order(): nat { |dimensions| }

    /** Every buffered record has one coordinate per mode and a component's bytes. */
    predicate RecordsFit(rs: seq<Record>)
      requires ctype.kind != Undefined
    {
      forall k :: 0 <= k < |rs| ==> |rs[k].coords| == Order() && |rs[k].value| == ctype.GetNumBytes()
    }

    ghost predicate Valid()
      reads this
    {
      format.Valid() && format.GetOrder() == Order() && |format.levelArrayTypes| >= Order() &&
      ctype.kind != Undefined &&
      coordinateSize == Order() * SizeOfInt + ctype.GetNumBytes() &&
      RecordsFit(coordinateBuffer) &&
      (Order() == 0 ==> storage.Built?)
    }

    /**
     * TensorBase(name, ctype, dimensions, format): the format is completed
     * with default level array types, Dense modes get their size through
     * the mode ordering, and the buffer starts empty.
     */
    constructor (name: string, ctype: DataType, dimensions: seq<int>, format: Format)
      requires ctype.kind != Undefined && format.Valid()
      requires CompleteFormat(format, |dimensions|).Success?
      ensures Valid()
      ensures this.name == name && this.ctype == ctype && this.dimensions == dimensions
      ensures this.format == CompleteFormat(format, |dimensions|).value
      ensures storage == Built(Storage(this.format,
        seq(|dimensions|, i requires 0 <= i < |dimensions| => InitialModeIndex(format, dimensions, i)), []))
      ensures allocSize == DefaultAllocSize && assignment.None?
      ensures coordinateBuffer == [] && coordinateBufferUsed == 0 && log == []
    {
      var completed := format;
      if |format.levelArrayTypes| < format.GetOrder() {
        var levelArrayTypes := DefaultLevelArrayTypes(format.modeTypes);
        completed := format.(levelArrayTypes := levelArrayTypes.value);
      }
      var modeIndices := InitialModeIndices(completed, dimensions);
      this.name := name;
      this.dimensions := dimensions;
      this.ctype := ctype;
      this.format := completed;
      this.storage := Built(Storage(completed, modeIndices, []));
      this.allocSize := DefaultAllocSize;
      this.assignment := None;
      this.coordinateBuffer := [];
      this.coordinateBufferUsed := 0;
      this.coordinateSize := |dimensions| * SizeOfInt + ctype.GetNumBytes();
      this.log := [];
    }

    /** getDimension(mode): a user error unless the mode exists. */
    function GetDimension(mode: nat): (r: Result<int>)
      ensures r.Success? <==> mode < Order()
      ensures r.Success? ==> r.value == dimensions[mode]
      ensures r.Failure? ==> r.error.UserError?
    {
      if mode < Order() then Success(dimensions[mode])
      else Failure(UserError("Invalid mode"))
    }

    /** The tensor variable's type: each `int` dimension converted to a `size_t` dimension. */
    function GetType(): (t: Type)
      ensures t.GetDataType() == ctype && t.GetOrder() == Order()
      ensures forall i :: 0 <= i < Order() && 0 <= dimensions[i] < 0x1_0000_0000_0000_0000 ==>
        t.GetShape().GetDimension(i).size == dimensions[i]
    {
      Type(ctype, Shape(seq(Order(), i requires 0 <= i < Order() => Dimension(dimensions[i] % 0x1_0000_0000_0000_0000))))
    }

    /** operator(): an access of the tensor's variable, with exactly one index variable per mode. */
    function Access(indices: seq<IndexVar>): (r: Result<IndexExpr>)
      reads this
      ensures r.Success? <==> |indices| == Order()
      ensures r.Success? ==> r.value == IndexExpr.Access(TensorVar(name), indices)
      ensures r.Failure? ==> r.error.UserError?
    {
      if |indices| == Order() then Success(IndexExpr.Access(TensorVar(name), indices))
      else Failure(UserError("A tensor must be indexed with one variable per mode"))
    }

    /**
     * operator=(expr): only a scalar tensor may be assigned an expression
     * without index variables. `setAssignment` stores the assignment after
     * `makeReductionNotation`, which is the parameter `reductionNotation`.
     */
    method AssignScalar(expr: IndexExpr, reductionNotation: IndexStmt -> IndexStmt) returns (r: Result<()>)
      modifies this`assignment
      ensures r.Success? <==> Order() == 0
      ensures r.Failure? ==> r.error.UserError? && assignment == old(assignment)
      ensures r.Success? ==> assignment == Some(reductionNotation(Assignment(TensorVar(name), [], expr, None)))
    {
      if Order() != 0 {
        return Failure(UserError("Must use index variable on the left-hand-side"));
      }
      SetAssignment(Assignment(TensorVar(name), [], expr, None), reductionNotation);
      return Success(());
    }

    /** setAssignment(assignment): the tensor's variable holds the assignment in reduction notation. */
    method SetAssignment(stmt: IndexStmt, reductionNotation: IndexStmt -> IndexStmt)
      modifies this`assignment
      ensures assignment == Some(reductionNotation(stmt))
    {
      assignment := Some(reductionNotation(stmt));
    }

    method SetName(newName: string)
      modifies this`name
      ensures name == newName
    {
      name := newName;
    }

    method SetAllocSize(size: nat)
      modifies this`allocSize
      ensures allocSize == size
    {
      allocSize := size;
    }

    /** The record `reserve` adds: the bytes `resize` fills in are all zero. */
    function ZeroRecord(): (z: Record)
      requires ctype.kind != Undefined
      ensures |z.coords| == Order() && |z.value| == ctype.GetNumBytes()
      ensures forall i :: 0 <= i < Order() ==> z.coords[i] == 0
    {
      Record(seq(Order(), _ => 0), seq(ctype.GetNumBytes(), _ => 0))
    }

    /** reserve(n): the buffer grows by `n` records, `n * coordinateSize` bytes; the used part is unchanged. */
    method Reserve(n: nat)
      requires Valid()
      modifies this`coordinateBuffer
      ensures Valid()
      ensures coordinateBuffer == old(coordinateBuffer) + seq(n, _ => ZeroRecord())
      ensures |coordinateBuffer| * coordinateSize == old(|coordinateBuffer|) * coordinateSize + n * coordinateSize
    {
      coordinateBuffer := coordinateBuffer + seq(n, _ => ZeroRecord());
    }

    /**
     * insert(coordinate, value), declared in tensor.h: the record is written
     * at the first unused byte, growing the buffer by one record when it is
     * full. A coordinate of the wrong length is a user error.
     */
    method Insert(coords: seq<int>, value: Value) returns (r: Result<()>)
      requires Valid() && |value| == ctype.GetNumBytes()
      requires coordinateBufferUsed % coordinateSize == 0
      requires coordinateBufferUsed / coordinateSize <= |coordinateBuffer|
      modifies this`coordinateBuffer, this`coordinateBufferUsed, this`log
      ensures Valid()
      ensures r.Success? <==> |coords| == Order()
      ensures r.Failure? ==> r.error.UserError? && unchanged(this)
      ensures r.Success? ==> coordinateBufferUsed == old(coordinateBufferUsed) + coordinateSize
      ensures r.Success? ==> log == old(log) + [Inserted(coords, value)]
      ensures r.Success? ==>
        var k := old(coordinateBufferUsed) / coordinateSize;
        if k < old(|coordinateBuffer|) then coordinateBuffer == old(coordinateBuffer)[k := Record(coords, value)]
        else coordinateBuffer == old(coordinateBuffer) + [Record(coords, value)]
    {
      if |coords| != Order() {
        return Failure(UserError("Wrong number of indices"));
      }
      var k := coordinateBufferUsed / coordinateSize;
      if k == |coordinateBuffer| {
        coordinateBuffer := coordinateBuffer + [ZeroRecord()];
      }
      coordinateBuffer := coordinateBuffer[k := Record(coords, value)];
      coordinateBufferUsed := coordinateBufferUsed + coordinateSize;
      log := log + [Inserted(coords, value)];
      return Success(());
    }

    /** The dimensions `pack` hands on: `permutedDimensions[i] == dimensions[modeOrdering[i]]`. */
    function PermutedDimensions(): (r: seq<int>)
      requires format.Valid() && format.GetOrder() == Order()
      ensures |r| == Order()
      ensures forall i :: 0 <= i < Order() ==> r[i] == dimensions[format.modeOrdering[i]]
    {
      Permute(dimensions, format.modeOrdering)
    }

    /** The call `pack` makes for the first `used / coordinateSize` records of `buffer`. */
    function PackCallFor(buffer: seq<Record>, used: nat): (call: PackCall)
      requires format.Valid() && format.GetOrder() == Order() && ctype.kind != Undefined
      requires coordinateSize > 0 && RecordsFit(buffer) && used / coordinateSize <= |buffer|
    {
      var n := used / coordinateSize;
      var sorted := SortRecords(PermuteRecords(buffer[..n], format.modeOrdering), Order());
      PackCall(PermutedDimensions(), format,
        seq(Order(), d requires 0 <= d < Order() => Column(sorted, d)),
        ValuesOf(sorted), n, ctype)
    }

    /**
     * pack(): a scalar takes the value of the first record; otherwise every
     * record's coordinate is permuted by the mode ordering, the records are
     * sorted and split into one coordinate column per mode, and the packer
     * builds the storage. The buffer is emptied; the scalar branch leaves
     * the used count as it was.
     */
    method Pack()
      requires Valid()
      requires Order() == 0 ==> |coordinateBuffer| >= 1
      requires Order() > 0 ==> coordinateBufferUsed % coordinateSize == 0
      requires Order() > 0 ==> coordinateBufferUsed / coordinateSize <= |coordinateBuffer|
      modifies this`storage, this`coordinateBuffer, this`coordinateBufferUsed, this`log
      ensures Valid()
      ensures coordinateBuffer == [] && log == old(log) + [Packed]
      ensures Order() == 0 ==> coordinateBufferUsed == old(coordinateBufferUsed)
      ensures Order() == 0 ==> storage == Built(old(storage).storage.(values := [old(coordinateBuffer)[0].value]))
      ensures Order() > 0 ==> coordinateBufferUsed == 0
      ensures Order() > 0 ==> storage == PackedFrom(PackCallFor(old(coordinateBuffer), old(coordinateBufferUsed)))
    {
      var order := Order();
      if order == 0 {
        var scalar := coordinateBuffer[0].value;
        storage := Built(storage.storage.(values := [scalar]));
        coordinateBuffer := [];
        log := log + [Packed];
        return;
      }
      PackEntries();
    }

    /** The branch of `pack` for order one and up: permute, sort, split into columns and build. */
    method PackEntries()
      requires Valid() && Order() > 0
      requires coordinateBufferUsed % coordinateSize == 0
      requires coordinateBufferUsed / coordinateSize <= |coordinateBuffer|
      modifies this`storage, this`coordinateBuffer, this`coordinateBufferUsed, this`log
      ensures Valid()
      ensures coordinateBuffer == [] && log == old(log) + [Packed]
      ensures coordinateBufferUsed == 0
      ensures storage == PackedFrom(PackCallFor(old(coordinateBuffer), old(coordinateBufferUsed)))
    {
      ghost var before, used := coordinateBuffer, coordinateBufferUsed;
      var order := Order();
      var permutedDimensions := PermutedDimensions();
      var numCoordinates := coordinateBufferUsed / coordinateSize;
      SortBuffer(numCoordinates);
      var sorted := coordinateBuffer[..numCoordinates];
      var coordinates, values, j := SplitColumns(sorted, order);
      PackCallOfColumns(before, used, sorted, coordinates, values);
      coordinateBuffer := [];
      coordinateBufferUsed := 0;
      storage := PackedFrom(PackCall(permutedDimensions, format, coordinates, values, j, ctype));
      log := log + [Packed];
    }

    /** The columns and values `pack` splits the sorted records into make up the call `PackCallFor` describes. */
    lemma PackCallOfColumns(buffer: seq<Record>, used: nat, sorted: seq<Record>, columns: seq<seq<int>>, values: seq<Value>)
      requires format.Valid() && format.GetOrder() == Order() && ctype.kind != Undefined
      requires coordinateSize > 0 && RecordsFit(buffer) && used / coordinateSize <= |buffer|
      requires sorted == SortRecords(PermuteRecords(buffer[..used / coordinateSize], format.modeOrdering), Order())
      requires |columns| == Order() && forall d :: 0 <= d < Order() ==> columns[d] == Column(sorted, d)
      requires values == ValuesOf(sorted)
      ensures PackCallFor(buffer, used) == PackCall(PermutedDimensions(), format, columns, values, used / coordinateSize, ctype)
    {
      assert columns == seq(Order(), d requires 0 <= d < Order() => Column(sorted, d));
    }

    /** Permute the first `n` records' coordinates, then sort those records in place. */
    method SortBuffer(n: nat)
      requires Valid() && Order() > 0 && n <= |coordinateBuffer|
      modifies this`coordinateBuffer
      ensures |coordinateBuffer| == old(|coordinateBuffer|)
      ensures coordinateBuffer[..n] == SortRecords(PermuteRecords(old(coordinateBuffer)[..n], format.modeOrdering), Order())
    {
      PermuteBuffer(n);
      // qsort on the first n records, comparing `order` ints
      var sorted := SortRecords(coordinateBuffer[..n], Order());
      coordinateBuffer := sorted + coordinateBuffer[n..];
      assert coordinateBuffer[..n] == sorted;
    }

    /** The in-place loop of `pack` that reorders the first `n` coordinates through a scratch buffer. */
    method PermuteBuffer(n: nat)
      requires Valid() && Order() > 0 && n <= |coordinateBuffer|
      modifies this`coordinateBuffer
      ensures Valid()
      ensures |coordinateBuffer| == old(|coordinateBuffer|)
      ensures coordinateBuffer[..n] == PermuteRecords(old(coordinateBuffer)[..n], format.modeOrdering)
      ensures coordinateBuffer[n..] == old(coordinateBuffer)[n..]
    {
      var order := Order();
      var permutation := format.modeOrdering;
      ghost var before := coordinateBuffer;
      var permuteBuffer := new int[order];
      var i := 0;
      while i < n
        invariant 0 <= i <= n
        invariant |coordinateBuffer| == |before| && RecordsFit(coordinateBuffer)
        invariant forall k :: 0 <= k < i ==>
          coordinateBuffer[k] == Record(Permute(before[k].coords, permutation), before[k].value)
        invariant forall k :: i <= k < |before| ==> coordinateBuffer[k] == before[k]
      {
        var coordinate := coordinateBuffer[i].coords;
        var j := 0;
        while j < order
          modifies permuteBuffer
          invariant 0 <= j <= order
          invariant forall t :: 0 <= t < j ==> permuteBuffer[t] == coordinate[permutation[t]]
        {
          permuteBuffer[j] := coordinate[permutation[j]];
          j := j + 1;
        }
        j := 0;
        while j < order
          invariant 0 <= j <= order && |coordinate| == order
          invariant forall t :: 0 <= t < j ==> coordinate[t] == before[i].coords[permutation[t]]
        {
          coordinate := coordinate[j := permuteBuffer[j]];
          j := j + 1;
        }
        coordinateBuffer := coordinateBuffer[i := Record(coordinate, coordinateBuffer[i].value)];
        i := i + 1;
      }
    }
  }

  /**
   * The part of `pack` that moves sorted records into one coordinate column
   * per mode and a value array, with `j` counting the entries kept. The
   * duplicate test compares the addresses of two separately allocated
   * scratch buffers, which always differ, so every record is kept.
   */
  method SplitColumns(sorted: seq<Record>, order: nat) returns (columns: seq<seq<int>>, values: seq<Value>, j: nat)
    requires order > 0 && Wide(sorted, order)
    ensures j == |sorted| && |columns| == order
    ensures forall d :: 0 <= d < order ==> columns[d] == Column(sorted, d)
    ensures values == ValuesOf(sorted)
  {
    var n := |sorted|;
    columns := seq(order, _ => seq(n, _ => 0));
    values := seq(n, _ => []);
    var lastCoord := new int[order];
    j := 1;
    if n >= 1 {
      var d := 0;
      while d < order
        invariant 0 <= d <= order && |columns| == order
        invariant forall e :: 0 <= e < order ==> |columns[e]| == n
        invariant forall e :: 0 <= e < d ==> columns[e][0] == sorted[0].coords[e]
      {
        columns := columns[d := columns[d][0 := sorted[0].coords[d]]];
        lastCoord[d] := sorted[0].coords[d];
        d := d + 1;
      }
      values := values[0 := sorted[0].value];
    } else {
      j := 0;
    }
    var coord := new int[order];
    var value: Value := [];
    var i := 1;
    while i < n
      invariant 1 <= i <= n ==> j == i
      invariant n == 0 ==> j == 0
      invariant i <= n || n == 0
      invariant |columns| == order && |values| == n
      invariant forall e :: 0 <= e < order ==> |columns[e]| == n
      invariant forall e, k :: 0 <= e < order && 0 <= k < j ==> columns[e][k] == sorted[k].coords[e]
      invariant forall k :: 0 <= k < j ==> values[k] == sorted[k].value
    {
      var d := 0;
      while d < order
        invariant 0 <= d <= order
        invariant forall e :: 0 <= e < d ==> coord[e] == sorted[i].coords[e]
      {
        coord[d] := sorted[i].coords[d];
        d := d + 1;
      }
      value := sorted[i].value;
      if coord != lastCoord {
        d := 0;
        while d < order
          invariant 0 <= d <= order && |columns| == order
          invariant forall e :: 0 <= e < order ==> |columns[e]| == n
          invariant forall e, k :: 0 <= e < order && 0 <= k < j ==> columns[e][k] == sorted[k].coords[e]
          invariant forall e :: 0 <= e < d ==> columns[e][j] == sorted[i].coords[e]
        {
          columns := columns[d := columns[d][j := coord[d]]];
          d := d + 1;
        }
        values := values[j := value];
        j := j + 1;
      }
      i := i + 1;
    }
    if n > 0 {
      columns := seq(order, d requires 0 <= d < order => columns[d][..j]);
      values := values[..j];
    }
  }

  /**
   * Packing keeps every buffered record and orders them: the entries handed
   * to the packer, one per used record, are the permuted records sorted
   * lexicographically on all their coordinates.
   */
  lemma PackKeepsEveryRecord(t: TensorBase, buffer: seq<Record>, used: nat)
    requires t.format.Valid() && t.format.GetOrder() == t.Order() && t.Order() > 0 && t.ctype.kind != Undefined
    requires t.coordinateSize > 0 && t.RecordsFit(buffer) && used / t.coordinateSize <= |buffer|
    ensures var call := t.PackCallFor(buffer, used);
      var n := used / t.coordinateSize;
      call.numEntries == n && |call.values| == n && |call.coordinates| == t.Order() &&
      (forall d :: 0 <= d < t.Order() ==> |call.coordinates[d]| == n) &&
      call.dimensions == t.PermutedDimensions() && call.format == t.format &&
      multiset(Entries(call)) == multiset(PermuteRecords(buffer[..n], t.format.modeOrdering)) &&
      Wide(Entries(call), t.Order()) && SortedBy(Entries(call), t.Order())
  {
    var call := t.PackCallFor(buffer, used);
    var n := used / t.coordinateSize;
    var order := t.Order();
    var permuted := PermuteRecords(buffer[..n], t.format.modeOrdering);
    var sorted := SortRecords(permuted, order);
    assert call.coordinates == seq(order, d requires 0 <= d < order => Column(sorted, d));
    forall k | 0 <= k < n ensures Entries(call)[k] == sorted[k] {
      assert sorted[k] in multiset(permuted);
      var i :| 0 <= i < |permuted| && permuted[i] == sorted[k];
      assert |sorted[k].coords| == order;
    }
    assert Entries(call) == sorted;
    SortRecordsSorted(permuted, order);
  }

  /** The structural half of `equals`: different component types, orders or dimensions make tensors unequal. */
  datatype EqualsVerdict = Unequal | CompareValues | InternalFailure

  function EqualsStructure(a: TensorBase, b: TensorBase): (r: EqualsVerdict)
    ensures r == Unequal <==> a.ctype != b.ctype || a.dimensions != b.dimensions
    ensures r == InternalFailure <==>
      a.ctype == b.ctype && a.dimensions == b.dimensions && a.ctype.kind in {Bool, Undefined}
  {
    if a.ctype != b.ctype then Unequal
    else if a.Order() != b.Order() then Unequal
    else if exists m :: 0 <= m < a.Order() && a.dimensions[m] != b.dimensions[m] then Unequal
    else if a.ctype.kind in {Bool, Undefined} then InternalFailure
    else CompareValues
  }

  /** The structural comparison is an equivalence on what it inspects: reflexive and symmetric. */
  lemma EqualsStructureSymmetric(a: TensorBase, b: TensorBase)
    ensures EqualsStructure(a, a) != Unequal
    ensures EqualsStructure(a, b) == EqualsStructure(b, a)
  {
  }
}
