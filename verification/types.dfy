/**
 * The tensor type system of include/taco/type.h: the closed set of component
 * kinds, the width-taking factories, the host-type lookup `type<T>()`, and the
 * immutable values Dimension, Shape and Type.
 *
 * The bodies of these classes live in type.cpp, which is not part of this
 * model; byte and bit widths follow the conventional storage width of each
 * kind, and the factories accept exactly the widths that have a kind.
 */
module Types {
  import opened Results

  /** DataType::Kind, in declaration order. */
  datatype Kind =
    | Bool
    | UInt8 | UInt16 | UInt32 | UInt64 | UInt128
    | Int8 | Int16 | Int32 | Int64 | Int128
    | Float32 | Float64
    | Complex64 | Complex128
    | Undefined

  /** Every kind, in the order the enumeration declares them. */
  const AllKinds: seq<Kind> :=
    [Bool, UInt8, UInt16, UInt32, UInt64, UInt128, Int8, Int16, Int32, Int64, Int128,
     Float32, Float64, Complex64, Complex128, Undefined]

  /** The enumeration is closed: the sixteen listed kinds, each once. */
  lemma KindsAreExactlyTheListed(k: Kind)
    ensures k in AllKinds
    ensures |AllKinds| == 16
    ensures forall i, j :: 0 <= i < j < |AllKinds| ==> AllKinds[i] != AllKinds[j]
  {
    match k
    case Bool => assert AllKinds[0] == k;
    case UInt8 => assert AllKinds[1] == k;
    case UInt16 => assert AllKinds[2] == k;
    case UInt32 => assert AllKinds[3] == k;
    case UInt64 => assert AllKinds[4] == k;
    case UInt128 => assert AllKinds[5] == k;
    case Int8 => assert AllKinds[6] == k;
    case Int16 => assert AllKinds[7] == k;
    case Int32 => assert AllKinds[8] == k;
    case Int64 => assert AllKinds[9] == k;
    case Int128 => assert AllKinds[10] == k;
    case Float32 => assert AllKinds[11] == k;
    case Float64 => assert AllKinds[12] == k;
    case Complex64 => assert AllKinds[13] == k;
    case Complex128 => assert AllKinds[14] == k;
    case Undefined => assert AllKinds[15] == k;
  }

  /** A basic component type; its only state is its kind. */
  datatype DataType = DataType(kind: Kind) {

    function GetKind(): (k: Kind)
      ensures DataType(k) == this
    {
      kind
    }

    predicate IsUInt() { kind in {UInt8, UInt16, UInt32, UInt64, UInt128} }
    predicate IsInt() { kind in {Int8, Int16, Int32, Int64, Int128} }
    predicate IsFloat() { kind in {Float32, Float64} }
    predicate IsComplex() { kind in {Complex64, Complex128} }
    predicate IsBool() { kind == Bool }

    /** Bits needed to store one element; a boolean takes a whole byte. */
    function GetNumBits(): (n: nat)
      requires kind != Undefined
      ensures n % 8 == 0 && 8 <= n <= 128
      ensures IsBool() ==> n == 8
    {
      match kind
      case Bool => 8
      case UInt8 => 8
      case UInt16 => 16
      case UInt32 => 32
      case UInt64 => 64
      case UInt128 => 128
      case Int8 => 8
      case Int16 => 16
      case Int32 => 32
      case Int64 => 64
      case Int128 => 128
      case Float32 => 32
      case Float64 => 64
      case Complex64 => 64
      case Complex128 => 128
    }

    /** Bytes needed to store one element. */
    function GetNumBytes(): (n: nat)
      requires kind != Undefined
      ensures 1 <= n <= 16 && n * 8 == GetNumBits()
    {
      GetNumBits() / 8
    }
  }

  /** `DataType()`: the undefined type. */
  function UndefinedType(): (t: DataType)
    ensures t.GetKind() == Undefined
    ensures !t.IsBool() && !t.IsInt() && !t.IsUInt() && !t.IsFloat() && !t.IsComplex()
  {
    DataType(Undefined)
  }

  /** The classification queries partition the defined kinds. */
  lemma ExactlyOneClass(t: DataType)
    requires t.kind != Undefined
    ensures t.IsBool() || t.IsUInt() || t.IsInt() || t.IsFloat() || t.IsComplex()
    ensures t.IsBool() ==> !t.IsUInt() && !t.IsInt() && !t.IsFloat() && !t.IsComplex()
    ensures t.IsUInt() ==> !t.IsInt() && !t.IsFloat() && !t.IsComplex()
    ensures t.IsInt() ==> !t.IsFloat() && !t.IsComplex()
    ensures t.IsFloat() ==> !t.IsComplex()
  {
  }

  /** Default widths of the factories: `sizeof(unsigned int)*8`, `sizeof(int)*8`, `sizeof(double)*8`. */
  const SizeOfInt: nat := 4
  const SizeOfDouble: nat := 8
  const DefaultUIntBits: int := SizeOfInt * 8
  const DefaultIntBits: int := SizeOfInt * 8
  const DefaultFloatBits: int := SizeOfDouble * 8

  /** `UInt(bits)`: the unsigned kind of that width; any other width is an internal error. */
  function UInt(bits: int := DefaultUIntBits): (r: Result<DataType>)
    ensures r.Success? <==> bits in {8, 16, 32, 64, 128}
    ensures r.Success? ==> r.value.IsUInt() && r.value.GetNumBits() == bits
    ensures r.Failure? ==> r.error.InternalError?
  {
    match bits
    case 8 => Success(DataType(UInt8))
    case 16 => Success(DataType(UInt16))
    case 32 => Success(DataType(UInt32))
    case 64 => Success(DataType(UInt64))
    case 128 => Success(DataType(UInt128))
    case _ => Failure(InternalError("unsupported unsigned integer width"))
  }

  /** `Int(bits)`: the signed kind of that width; any other width is an internal error. */
  function Int(bits: int := DefaultIntBits): (r: Result<DataType>)
    ensures r.Success? <==> bits in {8, 16, 32, 64, 128}
    ensures r.Success? ==> r.value.IsInt() && r.value.GetNumBits() == bits
    ensures r.Failure? ==> r.error.InternalError?
  {
    match bits
    case 8 => Success(DataType(Int8))
    case 16 => Success(DataType(Int16))
    case 32 => Success(DataType(Int32))
    case 64 => Success(DataType(Int64))
    case 128 => Success(DataType(Int128))
    case _ => Failure(InternalError("unsupported integer width"))
  }

  /** `Float(bits)`: single or double precision; any other width is an internal error. */
  function Float(bits: int := DefaultFloatBits): (r: Result<DataType>)
    ensures r.Success? <==> bits in {32, 64}
    ensures r.Success? ==> r.value.IsFloat() && r.value.GetNumBits() == bits
    ensures r.Failure? ==> r.error.InternalError?
  {
    match bits
    case 32 => Success(DataType(Float32))
    case 64 => Success(DataType(Float64))
    case _ => Failure(InternalError("unsupported floating-point width"))
  }

  /** `Complex(bits)`: the complex kind of that total width; any other width is an internal error. */
  function Complex(bits: int): (r: Result<DataType>)
    ensures r.Success? <==> bits in {64, 128}
    ensures r.Success? ==> r.value.IsComplex() && r.value.GetNumBits() == bits
    ensures r.Failure? ==> r.error.InternalError?
  {
    match bits
    case 64 => Success(DataType(Complex64))
    case 128 => Success(DataType(Complex128))
    case _ => Failure(InternalError("unsupported complex width"))
  }

  /** The defaults are 32-bit integers and 64-bit floats. */
  lemma FactoryDefaults()
    ensures UInt() == Success(DataType(UInt32))
    ensures Int() == Success(DataType(Int32))
    ensures Float() == Success(DataType(Float64))
  {
  }

  /**
   * The host types `type<T>()` is specialised for, and `Other` for every
   * other T. Sizes are those of an LP64 platform.
   */
  datatype HostType =
    | CBool
    | UnsignedChar | UnsignedShort | UnsignedInt | UnsignedLong | UnsignedLongLong
    | Char | Short | CInt | Long | LongLong
    | Int8T
    | CFloat | CDouble
    | ComplexFloat | ComplexDouble
    | Other

  /** `sizeof` of the integer host types. */
  function SizeOf(h: HostType): nat
  {
    match h
    case UnsignedChar => 1
    case Char => 1
    case Int8T => 1
    case UnsignedShort => 2
    case Short => 2
    case UnsignedInt => SizeOfInt
    case CInt => SizeOfInt
    case UnsignedLong => 8
    case Long => 8
    case UnsignedLongLong => 8
    case LongLong => 8
    case CBool => 1
    case CFloat => 4
    case CDouble => SizeOfDouble
    case ComplexFloat => 8
    case ComplexDouble => 16
    case Other => 0
  }

  predicate IsUnsignedHost(h: HostType) {
    h in {UnsignedChar, UnsignedShort, UnsignedInt, UnsignedLong, UnsignedLongLong}
  }

  predicate IsSignedHost(h: HostType) {
    h in {Char, Short, CInt, Long, LongLong, Int8T}
  }

  /** `type<T>()`: the DataType of a host type; an unsupported T is an internal error. */
  function TypeOf(h: HostType): (r: Result<DataType>)
    ensures r.Failure? <==> h == Other
    ensures r.Failure? ==> r.error.InternalError?
    ensures h == CBool ==> r == Success(DataType(Bool))
    ensures h == CFloat ==> r == Success(DataType(Float32))
    ensures h == CDouble ==> r == Success(DataType(Float64))
    ensures h == ComplexFloat ==> r == Success(DataType(Complex64))
    ensures h == ComplexDouble ==> r == Success(DataType(Complex128))
    ensures IsUnsignedHost(h) ==> r.Success? && r.value.IsUInt() && r.value.GetNumBits() == SizeOf(h) * 8
    ensures IsSignedHost(h) ==> r.Success? && r.value.IsInt() && r.value.GetNumBits() == SizeOf(h) * 8
  {
    match h
    case CBool => Success(DataType(Bool))
    case UnsignedChar => UInt(SizeOf(UnsignedChar) * 8)
    case UnsignedShort => UInt(SizeOf(UnsignedShort) * 8)
    case UnsignedInt => UInt(SizeOf(UnsignedInt) * 8)
    case UnsignedLong => UInt(SizeOf(UnsignedLong) * 8)
    case UnsignedLongLong => UInt(SizeOf(UnsignedLongLong) * 8)
    case Char => Int(SizeOf(Char) * 8)
    case Short => Int(SizeOf(Short) * 8)
    case CInt => Int(SizeOf(CInt) * 8)
    case Long => Int(SizeOf(Long) * 8)
    case LongLong => Int(SizeOf(LongLong) * 8)
    case Int8T => Success(DataType(Int8))
    case CFloat => Success(DataType(Float32))
    case CDouble => Success(DataType(Float64))
    case ComplexFloat => Success(DataType(Complex64))
    case ComplexDouble => Success(DataType(Complex128))
    case Other => Failure(InternalError("Unsupported type"))
  }

  /**
   * A tensor mode's extent. The only state is `size`; a variable dimension
   * is the one whose size reads 0.
   */
  datatype Dimension = Dimension(size: nat) {
    predicate IsVariable() { size == 0 }
    predicate IsFixed() { size != 0 }

    function GetSize(): (n: nat)
      ensures IsVariable() ==> n == 0
      ensures IsFixed() ==> n > 0
    {
      size
    }
  }

  /** `Dimension()`: a variable-sized dimension. */
  function VariableDimension(): (d: Dimension)
    ensures d.IsVariable() && !d.IsFixed() && d.GetSize() == 0
  {
    Dimension(0)
  }

  /** `Dimension(size)`: fixed when the size is positive; a zero size reads back as variable. */
  function FixedDimension(size: nat): (d: Dimension)
    ensures d.GetSize() == size
    ensures d.IsFixed() <==> size > 0
    ensures d.IsVariable() <==> size == 0
  {
    Dimension(size)
  }

  /** Exactly one of isVariable/isFixed holds of every dimension. */
  lemma DimensionExclusive(d: Dimension)
    ensures d.IsVariable() != d.IsFixed()
  {
  }

  /** A tensor shape: the dimensions of its modes, in mode order. */
  datatype Shape = Shape(dimensions: seq<Dimension>) {
    function GetOrder(): nat { |dimensions| }

    function GetDimension(i: nat): Dimension
      requires i < GetOrder()
    {
      dimensions[i]
    }

    /** The dimensions visited by iterating from begin() to end(). */
    function Iterate(): (ds: seq<Dimension>)
      ensures |ds| == GetOrder()
      ensures forall i :: 0 <= i < |ds| ==> ds[i] == GetDimension(i)
    {
      dimensions
    }
  }

  /** `Shape()`: the scalar shape. */
  function ScalarShape(): (s: Shape)
    ensures s.GetOrder() == 0
  {
    Shape([])
  }

  /** `Shape(dimensions)`: order and dimensions are those given, in the order given. */
  function MakeShape(ds: seq<Dimension>): (s: Shape)
    ensures s.GetOrder() == |ds|
    ensures forall i :: 0 <= i < |ds| ==> s.GetDimension(i) == ds[i]
    ensures s.Iterate() == ds
  {
    Shape(ds)
  }

  /** Shapes are equal exactly when their orders and all their dimensions agree. */
  lemma ShapeEquality(s: Shape, t: Shape)
    ensures s == t <==>
      s.GetOrder() == t.GetOrder() &&
      forall i :: 0 <= i < s.GetOrder() ==> s.GetDimension(i) == t.GetDimension(i)
  {
    if s.GetOrder() == t.GetOrder() &&
       forall i :: 0 <= i < s.GetOrder() ==> s.GetDimension(i) == t.GetDimension(i)
    {
      forall i | 0 <= i < |s.dimensions| ensures s.dimensions[i] == t.dimensions[i] {
        assert s.GetDimension(i) == t.GetDimension(i);
      }
      assert s.dimensions == t.dimensions;
    }
  }

  /** A tensor type: a component type and a shape. */
  datatype Type = Type(dtype: DataType, shape: Shape) {
    function GetDataType(): DataType { dtype }
    function GetShape(): Shape { shape }

    function GetOrder(): (n: nat)
      ensures n == GetShape().GetOrder()
    {
      shape.GetOrder()
    }
  }

  /** `Type()`: a double-precision scalar. */
  function DefaultType(): (t: Type)
    ensures t.GetDataType().GetKind() == Float64
    ensures t.GetOrder() == 0
  {
    Type(DataType(Float64), ScalarShape())
  }

  /** `Type(dtype, shape = {})`. */
  function MakeType(dtype: DataType, shape: Shape := ScalarShape()): (t: Type)
    ensures t.GetDataType() == dtype && t.GetShape() == shape
    ensures t.GetOrder() == shape.GetOrder()
  {
    Type(dtype, shape)
  }

  /** `Type(dtype)` has the empty shape. */
  lemma TypeWithoutShapeIsScalar(dtype: DataType)
    ensures MakeType(dtype).GetOrder() == 0
    ensures MakeType(dtype).GetShape() == Shape([])
  {
  }
}
