// Field descriptors and the message structs they describe.
//
// A C struct with statically allocated fields contains its submessages inline,
// so a message is a value: one slot per field, where the members of a oneof
// share the slot of the first member, just as they share its storage.
module Descriptors {
  import opened Bits
  import opened Wire

  const SIZE_MAX: nat := 0xFFFF_FFFF
  const MAX_REQUIRED_FIELDS: nat := 64

  // Size of the length member in front of a bytes array
  const BYTES_HEADER: nat := 4

  datatype LType =
    | BOOL | VARINT | UVARINT | SVARINT | FIXED32 | FIXED64
    | BYTES | STRING | SUBMESSAGE | FIXED_LENGTH_BYTES

  datatype HType = REQUIRED | OPTIONAL | REPEATED | ONEOF

  /** What the descriptor's ptr refers to. */
  datatype Ptr = Null | DefaultValue(value: Value) | SubFields(desc: Desc)

  /** sizeOffset == 0 means that there is no has-flag, count or which-member. */
  datatype Field = Field(
    tag: nat, ltype: LType, htype: HType,
    dataOffset: nat, sizeOffset: int, dataSize: nat, arraySize: nat, ptr: Ptr)

  datatype Desc = Desc(fields: seq<Field>)

  /** Unset stands for storage whose contents are unspecified. */
  datatype Value = Num(n: int) | Buf(bytes: seq<byte>) | Sub(msg: Msg) | Unset

  datatype Slot =
    | One(value: Value)               // required, or singular without has-flag
    | Opt(has: bool, value: Value)
    | Rep(items: seq<Value>)          // the first `count` elements of an array
    | Union(which: nat, value: Value)
    | Shared                          // further member of a oneof

  type Msg = seq<Slot>

  // ---- total accessors ----

  function ValueIn(s: Slot): Value {
    match s
    case One(v) => v
    case Opt(_, v) => v
    case Union(_, v) => v
    case _ => Unset
  }

  function ItemsIn(s: Slot): seq<Value> { if s.Rep? then s.items else [] }

  function WhichIn(s: Slot): nat { if s.Union? then s.which else 0 }

  function NumIn(v: Value): int { if v.Num? then v.n else 0 }

  function BytesIn(v: Value): seq<byte> { if v.Buf? then v.bytes else [] }

  function MsgIn(v: Value): Msg { if v.Sub? then v.msg else [] }

  // ---- descriptor structure ----

  predicate Packable(t: LType)
  {
    t in {BOOL, VARINT, UVARINT, SVARINT, FIXED32, FIXED64}
  }

  predicate IsFixedCount(f: Field)
  {
    f.htype == REPEATED && f.sizeOffset == 0
  }

  predicate IsSingular(f: Field)
  {
    f.htype == OPTIONAL && f.sizeOffset == 0
  }

  /** Field i continues the oneof of field i - 1 and shares its storage. */
  predicate IsContinuation(fields: seq<Field>, i: nat)
    requires i < |fields|
  {
    i > 0 && fields[i - 1].htype == ONEOF && fields[i].htype == ONEOF && fields[i].dataOffset == SIZE_MAX
  }

  /** The field whose slot stores field i. */
  function Home(fields: seq<Field>, i: nat): (h: nat)
    requires i < |fields|
    ensures h <= i && fields[h].htype == fields[i].htype && !IsContinuation(fields, h)
  {
    if IsContinuation(fields, i) then Home(fields, i - 1) else i
  }

  function SlotOf(d: Desc, m: Msg, i: nat): Slot
    requires i < |d.fields|
  {
    var h := Home(d.fields, i);
    if h < |m| then m[h] else Shared
  }

  function SetSlot(d: Desc, m: Msg, i: nat, s: Slot): (m': Msg)
    requires i < |d.fields|
    ensures |m'| == |m|
  {
    var h := Home(d.fields, i);
    if h < |m| then m[h := s] else m
  }

  function FindFrom(fields: seq<Field>, tag: nat, i: nat): (r: Option<nat>)
    requires i <= |fields|
    ensures r.Some? ==> i <= r.value < |fields| && fields[r.value].tag == tag
    ensures r.None? ==> forall j :: i <= j < |fields| ==> fields[j].tag != tag
    decreases |fields| - i
  {
    if i == |fields| then None
    else if fields[i].tag == tag then Some(i)
    else FindFrom(fields, tag, i + 1)
  }

  /** The field with the given tag. */
  function FindTag(fields: seq<Field>, tag: nat): (r: Option<nat>)
    ensures r.Some? ==> r.value < |fields| && fields[r.value].tag == tag
    ensures r.None? <==> forall j :: 0 <= j < |fields| ==> fields[j].tag != tag
  {
    FindFrom(fields, tag, 0)
  }

  predicate DistinctTags(fields: seq<Field>)
  {
    forall i, j :: 0 <= i < j < |fields| ==> fields[i].tag != fields[j].tag
  }

  lemma {:induction false} FindTagUnique(fields: seq<Field>, i: nat)
    requires DistinctTags(fields) && i < |fields|
    ensures FindTag(fields, fields[i].tag) == Some(i)
  {
    var r := FindTag(fields, fields[i].tag);
    assert r.Some?;
  }

  /** The number of required fields among the first i. */
  function RequiredBefore(fields: seq<Field>, i: nat): (n: nat)
    requires i <= |fields|
    ensures n <= i
  {
    if i == 0 then 0
    else RequiredBefore(fields, i - 1) + (if fields[i - 1].htype == REQUIRED then 1 else 0)
  }

  /** The oneof member stored in slot h when the which-member holds `which`. */
  function SelectedMember(fields: seq<Field>, h: nat, which: nat): (r: Option<nat>)
    requires h < |fields|
    ensures r.Some? ==> r.value < |fields| && fields[r.value].tag == which && fields[r.value].htype == ONEOF
    ensures r.Some? ==> Home(fields, r.value) == h
  {
    var r := FindTag(fields, which);
    if r.Some? && fields[r.value].htype == ONEOF && Home(fields, r.value) == h then r else None
  }

  // ---- defaults ----

  function ZeroOf(f: Field): Value
  {
    match f.ltype
    case BYTES => Buf([])
    case STRING => Buf([])
    case FIXED_LENGTH_BYTES => Buf(seq(f.dataSize, i => 0))
    case _ => Num(0)
  }

  function DefaultOf(f: Field): Value
    decreases f
  {
    if f.ltype == SUBMESSAGE then
      (if f.ptr.SubFields? then Sub(Defaults(f.ptr.desc)) else Sub([]))
    else if f.ptr.DefaultValue? then f.ptr.value
    else ZeroOf(f)
  }

  function DefaultSlot(d: Desc, i: nat): Slot
    requires i < |d.fields|
    decreases d, 0
  {
    var f := d.fields[i];
    if IsContinuation(d.fields, i) then Shared
    else
      match f.htype
      case REQUIRED => One(DefaultOf(f))
      case OPTIONAL => if f.sizeOffset != 0 then Opt(false, DefaultOf(f)) else One(DefaultOf(f))
      case REPEATED => Rep([])
      case ONEOF => Union(0, Unset)
  }

  /** The struct that pb_message_set_to_defaults leaves behind. */
  function Defaults(d: Desc): (m: Msg)
    ensures |m| == |d.fields|
    decreases d, 1
  {
    seq(|d.fields|, i requires 0 <= i < |d.fields| => DefaultSlot(d, i))
  }

  // ---- well-formedness ----

  predicate IntSize(n: nat) { n in {1, 2, 4, 8} }

  predicate WfField(f: Field)
    decreases f
  {
    && 0 < f.tag < 0x2000_0000
    && f.dataSize < TWO_32 && f.arraySize < TWO_32
    && (f.ltype == SUBMESSAGE <==> f.ptr.SubFields?)
    && (f.ltype == SUBMESSAGE ==> WfDesc(f.ptr.desc))
    && (f.ltype == BYTES ==> f.dataSize >= BYTES_HEADER)
    && (f.htype == ONEOF ==> f.sizeOffset != 0)
    && (IsSingular(f) ==> !f.ptr.DefaultValue?)
    && (f.ptr.DefaultValue? ==> ScalarOK(f, f.ptr.value, Bounded))
    && (f.ltype in {VARINT, UVARINT, SVARINT} ==> IntSize(f.dataSize))
    && (f.ltype == STRING ==> f.dataSize > 0)
  }

  /** The descriptors that the code generator produces for statically allocated messages. */
  predicate WfDesc(d: Desc)
    decreases d
  {
    && DistinctTags(d.fields)
    && forall i :: 0 <= i < |d.fields| ==> WfField(d.fields[i])
  }

  // ---- the C type of a message ----

  /**
   * How much is known of a message struct.
   *   Loose:   each value inhabits the C type of its field; any count, any string.
   *   Typed:   the same, for a caller that fills fixed-count arrays.
   *   Bounded: what the decoder leaves behind: counts within the array, strings and
   *            bytes within their buffers, fixed-count arrays full or untouched.
   *   Tidy:    in addition absent optionals hold their default, and a oneof without
   *            a selected member is clear.
   */
  datatype Rigour = Loose | Typed | Bounded | Tidy

  predicate ScalarOK(f: Field, v: Value, g: Rigour := Typed)
  {
    match f.ltype
    case BOOL => v.Num? && 0 <= v.n <= 1
    case VARINT => v.Num? && (IntSize(f.dataSize) ==> InSigned(v.n, 8 * f.dataSize))
    case SVARINT => v.Num? && (IntSize(f.dataSize) ==> InSigned(v.n, 8 * f.dataSize))
    case UVARINT => v.Num? && 0 <= v.n && (IntSize(f.dataSize) ==> v.n < Pow2(8 * f.dataSize))
    case FIXED32 => v.Num? && 0 <= v.n < TWO_32
    case FIXED64 => v.Num? && 0 <= v.n < TWO_64
    case BYTES => v.Buf? && (g.Bounded? || g.Tidy? ==> |v.bytes| + BYTES_HEADER <= f.dataSize)
    case STRING => v.Buf? && (if g.Bounded? || g.Tidy? then |v.bytes| < f.dataSize else |v.bytes| <= f.dataSize)
    case FIXED_LENGTH_BYTES => v.Buf? && |v.bytes| == f.dataSize
    case SUBMESSAGE => false
  }

  predicate InSigned(n: int, bits: nat)
    requires bits > 0
  {
    -Pow2(bits - 1) <= n < Pow2(bits - 1)
  }

  predicate ValueOK(f: Field, v: Value, g: Rigour := Typed)
    decreases f
  {
    if f.ltype == SUBMESSAGE then v.Sub? && f.ptr.SubFields? && MsgOK(f.ptr.desc, v.msg, g)
    else ScalarOK(f, v, g)
  }

  predicate CountOK(f: Field, count: nat, g: Rigour)
  {
    match g
    case Loose => true
    case Typed => f.sizeOffset == 0 ==> count == f.arraySize
    case _ => count <= f.arraySize && (f.sizeOffset == 0 ==> count == 0 || count == f.arraySize)
  }

  predicate SlotOK(d: Desc, s: Slot, i: nat, g: Rigour := Typed)
    requires i < |d.fields|
    decreases d, 0
  {
    var f := d.fields[i];
    if IsContinuation(d.fields, i) then s.Shared?
    else
      match f.htype
      case REQUIRED => s.One? && ValueOK(f, s.value, g)
      case OPTIONAL =>
        && (if f.sizeOffset != 0 then s.Opt? else s.One?) && ValueOK(f, s.value, g)
        && (g.Tidy? && s.Opt? && !s.has ==> s.value == DefaultOf(f))
      case REPEATED =>
        && s.Rep?
        && CountOK(f, |s.items|, g)
        && forall k :: 0 <= k < |s.items| ==> ValueOK(f, s.items[k], g)
      case ONEOF =>
        && s.Union?
        && var j := SelectedMember(d.fields, i, s.which);
           if j.Some? then ValueOK(d.fields[j.value], s.value, g)
           else g.Tidy? ==> s.which == 0 && s.value == Unset
  }

  /** m is a struct of the type that d describes. */
  predicate MsgOK(d: Desc, m: Msg, g: Rigour := Typed)
    decreases d, 1
  {
    && |m| == |d.fields|
    && forall i :: 0 <= i < |m| ==> SlotOK(d, m[i], i, g)
  }

  // ---- C strings ----

  /** The bytes of a string member: up to a NUL, and at most the whole array. */
  function CString(b: seq<byte>, max: nat): (s: seq<byte>)
    ensures |s| <= |b| && |s| <= max && s == b[..|s|]
  {
    if b == [] || max == 0 || b[0] == 0 then [] else [b[0]] + CString(b[1..], max - 1)
  }
}
