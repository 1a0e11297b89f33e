// What decoding a byte sequence does to a message, as functions.
//
// Fields are looked up by tag and the required fields seen so far form a set;
// every decoder consumes at least one byte, which is what makes the mutual
// recursion through submessages terminate.
module DecodeSpec {
  import opened Bits
  import opened Wire
  import opened Descriptors

  /** The integer types are range checked after decoding. */
  function ClampSigned(v: int, size: nat): Option<Value>
  {
    if IntSize(size) then
      var c := ToSigned(v, 8 * size);
      if c == v then Some(Num(c)) else None
    else None
  }

  function ClampUnsigned(v: nat, size: nat): Option<Value>
  {
    if IntSize(size) && v < Pow2(8 * size) then Some(Num(v)) else None
  }

  /** Fields of up to 32 bits take the low 32 bits of the varint first. */
  function NarrowSigned(v: nat, size: nat): int
  {
    ToSigned(v, if size == 8 then 64 else 32)
  }

  function WithRest(v: Option<Value>, rest: seq<byte>): Parsed<Value>
  {
    match v
    case None => Fail
    case Some(x) => Got(x, rest)
  }

  function DecScalar(f: Field, s: seq<byte>): (r: Parsed<Value>)
    ensures r.Got? ==> |r.rest| < |s|
  {
    match f.ltype
    case BOOL =>
      (match DecVarint32(s) case Fail => Fail case Got(v, rest) => Got(Num(if v != 0 then 1 else 0), rest))
    case VARINT =>
      (match DecVarint(s) case Fail => Fail
       case Got(v, rest) => WithRest(ClampSigned(NarrowSigned(v, f.dataSize), f.dataSize), rest))
    case UVARINT =>
      (match DecVarint(s) case Fail => Fail case Got(v, rest) => WithRest(ClampUnsigned(v, f.dataSize), rest))
    case SVARINT =>
      (match DecVarint(s) case Fail => Fail
       case Got(v, rest) => WithRest(ClampSigned(UnZigZag(v), f.dataSize), rest))
    case FIXED32 => (match DecFixed(s, 4) case Fail => Fail case Got(v, rest) => Got(Num(v), rest))
    case FIXED64 => (match DecFixed(s, 8) case Fail => Fail case Got(v, rest) => Got(Num(v), rest))
    case BYTES =>
      (match DecPayload(s) case Fail => Fail
       case Got(b, rest) => if |b| + BYTES_HEADER > f.dataSize then Fail else Got(Buf(b), rest))
    case STRING =>
      (match DecPayload(s) case Fail => Fail
       case Got(b, rest) => if |b| + 1 == TWO_32 || |b| + 1 > f.dataSize then Fail else Got(Buf(b), rest))
    case FIXED_LENGTH_BYTES =>
      (match DecPayload(s) case Fail => Fail
       case Got(b, rest) =>
         if |b| == 0 then Got(ZeroOf(f), rest)
         else if |b| != f.dataSize then Fail else Got(Buf(b), rest))
    case SUBMESSAGE => Fail
  }

  /**
   * State of one decoding loop.  fixedField is the fixed-count array being
   * received; the elements received so far are the items of its slot.
   */
  datatype DState = DState(msg: Msg, seen: set<nat>, fixedField: Option<nat>)

  datatype Loop = Stuck | Done(st: DState, rest: seq<byte>, zero: bool)

  predicate FixedComplete(d: Desc, st: DState)
  {
    st.fixedField.Some? && st.fixedField.value < |d.fields| ==>
      |ItemsIn(SlotOf(d, st.msg, st.fixedField.value))| == d.fields[st.fixedField.value].arraySize
  }

  predicate RequiredSeen(d: Desc, seen: set<nat>)
  {
    forall k: nat :: k < RequiredBefore(d.fields, |d.fields|) && k < MAX_REQUIRED_FIELDS ==> k in seen
  }

  /** Bookkeeping before the data of field i is decoded. */
  function Begin(d: Desc, i: nat, st: DState): (r: Option<DState>)
    requires i < |d.fields|
  {
    var f := d.fields[i];
    if IsFixedCount(f) && st.fixedField != Some(i) then
      if FixedComplete(d, st) then Some(st.(msg := SetSlot(d, st.msg, i, Rep([])), fixedField := Some(i)))
      else None
    else if f.htype == REQUIRED then Some(st.(seen := st.seen + {RequiredBefore(d.fields, i)}))
    else Some(st)
  }

  /** Decode one value into storage that holds `prior`. */
  function DecValue(f: Field, s: seq<byte>, prior: Value): (r: Parsed<Value>)
    ensures r.Got? ==> |r.rest| < |s|
    decreases |s|, 0
  {
    if f.ltype == SUBMESSAGE then
      match DecPayload(s)
      case Fail => Fail
      case Got(p, rest) =>
        if !f.ptr.SubFields? then Fail
        else
          var start := if f.htype == REPEATED then Defaults(f.ptr.desc) else MsgIn(prior);
          match DecodeNoinit(f.ptr.desc, p, start)
          case Fail => Fail
          case Got(m, _) => Got(Sub(m), rest)
    else DecScalar(f, s)
  }

  /** The elements of a packed array, appended to those already there. */
  function DecItems(f: Field, s: seq<byte>, items: seq<Value>): (r: Option<seq<Value>>)
    decreases |s|, 1
  {
    if s == [] then Some(items)
    else if |items| >= f.arraySize then None
    else
      match DecValue(f, s, Unset)
      case Fail => None
      case Got(v, rest) => DecItems(f, rest, items + [v])
  }

  /** The storage a value is decoded into; a newly selected submessage starts from its defaults. */
  function Prior(f: Field, slot: Slot): Value
  {
    if f.htype == ONEOF && f.ltype == SUBMESSAGE && WhichIn(slot) != f.tag then DefaultOf(f)
    else ValueIn(slot)
  }

  /** The slot of a field that is not repeated after v was decoded into it. */
  function Stored(f: Field, v: Value): Slot
  {
    match f.htype
    case OPTIONAL => if f.sizeOffset != 0 then Opt(true, v) else One(v)
    case ONEOF => Union(f.tag, v)
    case _ => One(v)
  }

  /** decode_static_field: the new contents of the slot of field f. */
  function DecSlot(f: Field, wt: nat, s: seq<byte>, slot: Slot): (r: Parsed<Slot>)
    ensures r.Got? ==> |r.rest| < |s|
    decreases |s|, 2
  {
    if f.htype != REPEATED then
      match DecValue(f, s, Prior(f, slot))
      case Fail => Fail
      case Got(v, rest) => Got(Stored(f, v), rest)
    else if wt == WT_STRING && Packable(f.ltype) then
      match DecPayload(s)
      case Fail => Fail
      case Got(p, rest) =>
        (match DecItems(f, p, ItemsIn(slot)) case None => Fail case Some(items) => Got(Rep(items), rest))
    else if |ItemsIn(slot)| >= f.arraySize then Fail
    else
      match DecValue(f, s, Unset)
      case Fail => Fail
      case Got(v, rest) => Got(Rep(ItemsIn(slot) + [v]), rest)
  }

  function DecField(d: Desc, i: nat, wt: nat, s: seq<byte>, st: DState): (r: Parsed<DState>)
    requires i < |d.fields|
    ensures r.Got? ==> |r.rest| < |s|
    decreases |s|, 3
  {
    match Begin(d, i, st)
    case None => Fail
    case Some(st1) =>
      match DecSlot(d.fields[i], wt, s, SlotOf(d, st1.msg, i))
      case Fail => Fail
      case Got(slot, rest) => Got(st1.(msg := SetSlot(d, st1.msg, i, slot)), rest)
  }

  /** The payload of one record, after its tag. */
  function DecRecord(d: Desc, tag: nat, wt: nat, s: seq<byte>, st: DState): (r: Parsed<DState>)
    ensures r.Got? ==> |r.rest| < |s|
    decreases |s|, 4
  {
    match FindTag(d.fields, tag)
    case Some(i) => DecField(d, i, wt, s, st)
    case None =>
      // In an empty message the terminator itself matches tag 0 and is decoded as a bool.
      if d.fields == [] && tag == 0 then
        (match DecVarint32(s) case Fail => Fail case Got(_, rest) => Got(st, rest))
      else
        (match SkipField(wt, s) case Fail => Fail case Got(_, rest) => Got(st, rest))
  }

  /** The record loop, up to the end of the input or a zero tag. */
  function DecLoop(d: Desc, s: seq<byte>, st: DState): (r: Loop)
    ensures r.Done? ==> |r.rest| <= |s|
    decreases |s|, 5
  {
    if s == [] then Done(st, [], false)
    else
      match DecTag(s)
      case Fail => Stuck
      case Got(Zero, rest) => Done(st, rest, true)
      case Got(Tag(tag, wt), rest) =>
        match DecRecord(d, tag, wt, rest, st)
        case Fail => Stuck
        case Got(st', rest') => DecLoop(d, rest', st')
  }

  function Start(m: Msg): DState { DState(m, {}, None) }

  function Finish(d: Desc, r: Loop): Parsed<Msg>
  {
    if r.Done? && FixedComplete(d, r.st) && RequiredSeen(d, r.st.seen) then Got(r.st.msg, r.rest) else Fail
  }

  /** pb_decode_noinit: decode into an existing message. */
  function DecodeNoinit(d: Desc, s: seq<byte>, m: Msg): (r: Parsed<Msg>)
    ensures r.Got? ==> |r.rest| <= |s|
    decreases |s|, 6
  {
    Finish(d, DecLoop(d, s, Start(m)))
  }

  /** pb_decode: decode into a message with default contents. */
  function Decode(d: Desc, s: seq<byte>): (r: Parsed<Msg>)
    ensures r.Got? ==> |r.rest| <= |s|
  {
    DecodeNoinit(d, s, Defaults(d))
  }
}
