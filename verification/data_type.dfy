/**
 * Pickling of `DataType`: the state of a primitive type is a one-element tuple
 * holding its numeric primitive id; unpickling rejects tuples of any other
 * size and rebuilds the primitive type from the id.
 */
module DataTypes {
  import opened Results

  /** The primitive type ids, in declaration order. */
  datatype PrimitiveTypeId = F16 | F32 | F64 | I8 | I16 | I32 | I64 | U8 | U16 | U32 | U64 | Unknown

  /** A type handle: a primitive type, or any other (compound, custom-width, pointer...) type. */
  datatype DataType = Primitive(id: PrimitiveTypeId) | NonPrimitive(description: string)

  /** A Python object held in a pickled tuple. */
  datatype PyValue = PyInt(n: int) | PyOther

  datatype PickleError =
    | NotPrimitive            // the assertion on the dynamic cast fails
    | InvalidState            // "Invalid state!": the tuple does not have exactly one item
    | CastError               // the item is not convertible to `std::size_t`
    | NoSuchPrimitive(code: nat)

  const SizeTLimit: int := 0x1_0000_0000_0000_0000

  function Code(id: PrimitiveTypeId): (c: nat)
    ensures c < 12
  {
    match id
    case F16 => 0 case F32 => 1 case F64 => 2
    case I8 => 3 case I16 => 4 case I32 => 5 case I64 => 6
    case U8 => 7 case U16 => 8 case U32 => 9 case U64 => 10
    case Unknown => 11
  }

  /** The id with a given code, if any. */
  function FromCode(c: nat): (r: Option<PrimitiveTypeId>)
    ensures r.Some? ==> Code(r.value) == c
    ensures r.None? ==> forall id :: Code(id) != c
  {
    if c == 0 then Some(F16) else if c == 1 then Some(F32) else if c == 2 then Some(F64)
    else if c == 3 then Some(I8) else if c == 4 then Some(I16) else if c == 5 then Some(I32)
    else if c == 6 then Some(I64) else if c == 7 then Some(U8) else if c == 8 then Some(U16)
    else if c == 9 then Some(U32) else if c == 10 then Some(U64) else if c == 11 then Some(Unknown)
    else
      assert forall id :: Code(id) != c;
      None
  }

  lemma CodeInjective(a: PrimitiveTypeId, b: PrimitiveTypeId)
    ensures Code(a) == Code(b) <==> a == b
  {
  }

  /** `__getstate__`: only primitive types can be pickled. */
  function Pickle(dt: DataType): (r: Result<seq<PyValue>, PickleError>)
    ensures r.Ok? <==> dt.Primitive?
    ensures r.Err? ==> r.error == NotPrimitive
    ensures r.Ok? ==> |r.value| == 1 && r.value[0].PyInt? && 0 <= r.value[0].n < SizeTLimit
  {
    match dt
    case Primitive(id) => Ok([PyInt(Code(id))])
    case NonPrimitive(_) => Err(NotPrimitive)
  }

  /** Conversion of a Python object to `std::size_t`. */
  function CastSizeT(v: PyValue): (r: Result<nat, PickleError>)
    ensures r.Ok? <==> v.PyInt? && 0 <= v.n < SizeTLimit
    ensures r.Ok? ==> r.value == v.n
    ensures r.Err? ==> r.error == CastError
  {
    if v.PyInt? && 0 <= v.n < SizeTLimit then Ok(v.n) else Err(CastError)
  }

  /** `__setstate__`: the size check comes first, then the cast, then the lookup. */
  function Unpickle(t: seq<PyValue>): (r: Result<DataType, PickleError>)
    ensures |t| != 1 ==> r == Err(InvalidState)
    ensures r.Ok? ==> r.value.Primitive? && t == [PyInt(Code(r.value.id))]
    ensures |t| == 1 && CastSizeT(t[0]).Err? ==> r == Err(CastError)
  {
    if |t| != 1 then Err(InvalidState)
    else
      match CastSizeT(t[0])
      case Err(e) => Err(e)
      case Ok(c) =>
        match FromCode(c)
        case None => Err(NoSuchPrimitive(c))
        case Some(id) => Ok(Primitive(id))
  }

  /** Every picklable type survives a pickle round trip. */
  lemma PickleRoundTrip(dt: DataType)
    requires dt.Primitive?
    ensures Pickle(dt).Ok? && Unpickle(Pickle(dt).value) == Ok(dt)
  {
    var c := Code(dt.id);
    assert FromCode(c).Some?;
    CodeInjective(FromCode(c).value, dt.id);
  }

  /** Every accepted state is the pickle of the type it rebuilds. */
  lemma UnpickleRoundTrip(t: seq<PyValue>)
    requires Unpickle(t).Ok?
    ensures Pickle(Unpickle(t).value) == Ok(t)
  {
  }

  /** A state is accepted exactly when it is a one-element tuple holding the code of some primitive id. */
  lemma UnpickleAccepts(t: seq<PyValue>)
    ensures Unpickle(t).Ok? <==> exists id :: t == [PyInt(Code(id))]
  {
    if exists id :: t == [PyInt(Code(id))] {
      var id :| t == [PyInt(Code(id))];
      PickleRoundTrip(Primitive(id));
    }
  }
}
