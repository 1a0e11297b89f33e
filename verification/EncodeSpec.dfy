// The bytes that a message encodes to, as a function of descriptor and message.
// None stands for an encoding error that does not depend on the output stream.
module EncodeSpec {
  import opened Bits
  import opened Wire
  import opened Descriptors

  function Cat(a: Option<seq<byte>>, b: Option<seq<byte>>): Option<seq<byte>>
  {
    if a.Some? && b.Some? then Some(a.value + b.value) else None
  }

  function WireType(t: LType): (w: nat)
    ensures w < 8
  {
    match t
    case FIXED32 => WT_32BIT
    case FIXED64 => WT_64BIT
    case BYTES => WT_STRING
    case STRING => WT_STRING
    case SUBMESSAGE => WT_STRING
    case FIXED_LENGTH_BYTES => WT_STRING
    case _ => WT_VARINT
  }

  /** Reduce to a natural number below 2^k: a cast to an unsigned k-bit type. */
  function Unsigned(n: int, k: nat): (v: nat)
    ensures v < Pow2(k)
  {
    n % Pow2(k)
  }

  function EncScalar(f: Field, v: Value): Option<seq<byte>>
  {
    match f.ltype
    case BOOL => Some(EncVarint(if NumIn(v) != 0 then 1 else 0))
    case VARINT => if IntSize(f.dataSize) then Some(EncVarint(Unsigned(NumIn(v), 64))) else None
    case UVARINT => if IntSize(f.dataSize) then Some(EncVarint(Unsigned(NumIn(v), 64))) else None
    case SVARINT => if IntSize(f.dataSize) then Some(EncVarint(ZigZag(NumIn(v)))) else None
    case FIXED32 => Some(LittleEndian(Unsigned(NumIn(v), 32), 4))
    case FIXED64 => Some(LittleEndian(Unsigned(NumIn(v), 64), 8))
    case BYTES =>
      // size_t subtraction: wraps for a descriptor smaller than the header
      if |BytesIn(v)| > (f.dataSize - BYTES_HEADER) % TWO_64 then None else Some(LenPrefixed(BytesIn(v)))
    case STRING => Some(LenPrefixed(CString(BytesIn(v), f.dataSize)))
    case FIXED_LENGTH_BYTES => Some(LenPrefixed(BytesIn(v)))
    case SUBMESSAGE => None
  }

  /** Whether a proto3 singular field holds its zero value, field by field for submessages. */
  predicate IsZero(f: Field, v: Value)
    decreases f
  {
    match f.ltype
    case BYTES => BytesIn(v) == []
    case STRING => BytesIn(v) == [] || BytesIn(v)[0] == 0
    case FIXED_LENGTH_BYTES => f.dataSize == 0
    case SUBMESSAGE => f.ptr.SubFields? ==> AllProtoDefault(f.ptr.desc, MsgIn(v))
    case _ => NumIn(v) == 0
  }

  predicate AllProtoDefault(d: Desc, m: Msg)
    decreases d, 1
  {
    forall j :: 0 <= j < |d.fields| ==> ProtoDefault(d, m, j)
  }

  predicate ProtoDefault(d: Desc, m: Msg, i: nat)
    requires i < |d.fields|
    decreases d, 0
  {
    var f, s := d.fields[i], SlotOf(d, m, i);
    match f.htype
    case REQUIRED => false
    case REPEATED => f.sizeOffset != 0 && |ItemsIn(s)| == 0
    case ONEOF => WhichIn(s) == 0
    case OPTIONAL => if f.sizeOffset != 0 then s.Opt? && !s.has else IsZero(f, ValueIn(s))
  }

  function EncValue(f: Field, v: Value): (r: Option<seq<byte>>)
    decreases f, 0
  {
    if f.ltype == SUBMESSAGE then
      if !f.ptr.SubFields? then None
      else
        match EncMsg(f.ptr.desc, MsgIn(v))
        case None => None
        case Some(b) => Some(LenPrefixed(b))
    else EncScalar(f, v)
  }

  function EncTagged(f: Field, v: Value): Option<seq<byte>>
    decreases f, 1
  {
    Cat(Some(EncTag(WireType(f.ltype), f.tag)), EncValue(f, v))
  }

  /** The elements back to back, as inside a packed array. */
  function EncAll(f: Field, items: seq<Value>): Option<seq<byte>>
    decreases f, 2, |items|
  {
    if items == [] then Some([]) else Cat(EncValue(f, items[0]), EncAll(f, items[1..]))
  }

  /** One record per element. */
  function EncEach(f: Field, items: seq<Value>): Option<seq<byte>>
    decreases f, 2, |items|
  {
    if items == [] then Some([]) else Cat(EncTagged(f, items[0]), EncEach(f, items[1..]))
  }

  function EncPacked(f: Field, items: seq<Value>): Option<seq<byte>>
    decreases f, 3
  {
    match EncAll(f, items)
    case None => None
    case Some(b) => Some(EncTag(WT_STRING, f.tag) + LenPrefixed(b))
  }

  function EncArray(f: Field, items: seq<Value>): Option<seq<byte>>
    decreases f, 4
  {
    if items == [] then Some([])
    else if |items| > f.arraySize then None
    else if Packable(f.ltype) then EncPacked(f, items)
    else EncEach(f, items)
  }

  /** Whether a field that is not repeated is present in the encoding. */
  predicate Emitted(d: Desc, m: Msg, i: nat)
    requires i < |d.fields|
  {
    var f, s := d.fields[i], SlotOf(d, m, i);
    match f.htype
    case OPTIONAL => if f.sizeOffset != 0 then s.Opt? && s.has else !IsZero(f, ValueIn(s))
    case ONEOF => WhichIn(s) == f.tag
    case _ => true
  }

  function EncField(d: Desc, m: Msg, i: nat): Option<seq<byte>>
    requires i < |d.fields|
    decreases d, 0
  {
    var f, s := d.fields[i], SlotOf(d, m, i);
    if f.htype == REPEATED then EncArray(f, ItemsIn(s))
    else if Emitted(d, m, i) then EncTagged(f, ValueIn(s))
    else Some([])
  }

  /** The encoding of the fields from index i on. */
  function EncFrom(d: Desc, m: Msg, i: nat): Option<seq<byte>>
    requires i <= |d.fields|
    decreases d, 1, |d.fields| - i
  {
    if i == |d.fields| then Some([]) else Cat(EncField(d, m, i), EncFrom(d, m, i + 1))
  }

  function EncMsg(d: Desc, m: Msg): Option<seq<byte>>
    decreases d, 2
  {
    EncFrom(d, m, 0)
  }
}
