// pb_decode.c: decoding from a stream into a message, with loops, the field
// iterator, the bitset of required fields and length-limited substreams.
// Every method computes the corresponding function of DecodeSpec on the unread bytes.
module Decoder {
  import opened Bits
  import opened Wire
  import opened Descriptors
  import opened DecodeSpec
  import opened InputStream
  import opened FieldIterator
  import opened RequiredFields
  import opened Preservation
  import opened Absent
  import Framing

  // ---- field decoders ----

  /** pb_dec_bool */
  method DecBool(stream: IStream, f: Field) returns (r: Option<Value>)
    requires stream.Valid() && f.ltype == BOOL
    modifies stream
    ensures r == Outcome(DecScalar(f, old(stream.Rest())))
    ensures Advanced(stream, DecScalar(f, old(stream.Rest())))
  {
    var value := DecodeVarint32(stream);
    if value.None? {
      return None;
    }
    return Some(Num(if value.value != 0 then 1 else 0));
  }

  /** The final assignment to a field of `size` bytes, which reports values that do not fit. */
  method StoreSigned(svalue: int, size: nat) returns (r: Option<Value>)
    ensures r == ClampSigned(svalue, size)
  {
    var clamped: int;
    if size == 8 {
      clamped := ToSigned(svalue, 64);
    } else if size == 4 {
      clamped := ToSigned(svalue, 32);
    } else if size == 2 {
      clamped := ToSigned(svalue, 16);
    } else if size == 1 {
      clamped := ToSigned(svalue, 8);
    } else {
      return None;
    }
    if clamped != svalue {
      return None;
    }
    return Some(Num(clamped));
  }

  /** pb_dec_varint: fields of up to 32 bits are cut to 32 bits first. */
  method DecVarintField(stream: IStream, f: Field) returns (r: Option<Value>)
    requires stream.Valid() && f.ltype == VARINT
    modifies stream
    ensures r == Outcome(DecScalar(f, old(stream.Rest())))
    ensures Advanced(stream, DecScalar(f, old(stream.Rest())))
  {
    hide ToSigned;
    var value := DecodeVarint(stream);
    if value.None? {
      return None;
    }
    var svalue := if f.dataSize == 8 then ToSigned(value.value, 64) else ToSigned(value.value, 32);
    r := StoreSigned(svalue, f.dataSize);
  }

  /** pb_dec_uvarint */
  method DecUVarint(stream: IStream, f: Field) returns (r: Option<Value>)
    requires stream.Valid() && f.ltype == UVARINT
    modifies stream
    ensures r == Outcome(DecScalar(f, old(stream.Rest())))
    ensures Advanced(stream, DecScalar(f, old(stream.Rest())))
  {
    var value := DecodeVarint(stream);
    if value.None? || !IntSize(f.dataSize) {
      return None;
    }
    var clamped := value.value % Pow2(8 * f.dataSize);
    CutUnsigned(value.value, Pow2(8 * f.dataSize));
    if clamped != value.value {
      return None;
    }
    return Some(Num(clamped));
  }

  lemma {:induction false} CutUnsigned(v: nat, m: nat)
    requires m >= 1
    ensures v % m == v <==> v < m
  {
    if v < m {
      ModUnique(v, m, 0, v);
    }
  }

  /** pb_dec_svarint */
  method DecSVarint(stream: IStream, f: Field) returns (r: Option<Value>)
    requires stream.Valid() && f.ltype == SVARINT
    modifies stream
    ensures r == Outcome(DecScalar(f, old(stream.Rest())))
    ensures Advanced(stream, DecScalar(f, old(stream.Rest())))
  {
    var value := DecodeSVarint(stream);
    if value.None? {
      return None;
    }
    r := StoreSigned(value.value, f.dataSize);
  }

  /** pb_dec_fixed32 and pb_dec_fixed64 */
  method DecFixedField(stream: IStream, f: Field) returns (r: Option<Value>)
    requires stream.Valid() && f.ltype in {FIXED32, FIXED64}
    modifies stream
    ensures r == Outcome(DecScalar(f, old(stream.Rest())))
    ensures Advanced(stream, DecScalar(f, old(stream.Rest())))
  {
    var value := DecodeFixed(stream, if f.ltype == FIXED32 then 4 else 8);
    if value.None? {
      return None;
    }
    return Some(Num(value.value));
  }

  /** Read `size` bytes into the field's buffer. */
  method ReadBuffer(stream: IStream, size: nat) returns (r: Option<seq<byte>>)
    requires stream.Valid()
    modifies stream
    ensures r.Some? <==> size <= old(stream.bytesLeft)
    ensures Shrunk(stream)
    ensures r.Some? ==>
      && r.value == old(stream.Rest())[..size] && stream.Rest() == old(stream.Rest())[size..]
      && stream.End() == old(stream.End())
  {
    var dest := new byte[size];
    var ok := stream.Read(dest, size);
    if !ok {
      return None;
    }
    assert dest[..size] == dest[..];
    return Some(dest[..]);
  }

  /** pb_dec_bytes */
  method DecBytes(stream: IStream, f: Field) returns (r: Option<Value>)
    requires stream.Valid() && f.ltype == BYTES
    modifies stream
    ensures r == Outcome(DecScalar(f, old(stream.Rest())))
    ensures Advanced(stream, DecScalar(f, old(stream.Rest())))
  {
    var size := DecodeVarint32(stream);
    if size.None? {
      return None;
    }
    var allocSize := size.value + BYTES_HEADER;
    if allocSize > f.dataSize {
      return None;
    }
    var bytes := ReadBuffer(stream, size.value);
    if bytes.None? {
      return None;
    }
    return Some(Buf(bytes.value));
  }

  /** pb_dec_string: the terminator needs one more byte, and the sum is 32 bits wide. */
  method DecString(stream: IStream, f: Field) returns (r: Option<Value>)
    requires stream.Valid() && f.ltype == STRING
    modifies stream
    ensures r == Outcome(DecScalar(f, old(stream.Rest())))
    ensures Advanced(stream, DecScalar(f, old(stream.Rest())))
  {
    hide DecVarint32;
    var size := DecodeVarint32(stream);
    if size.None? {
      return None;
    }
    var allocSize := (size.value + 1) % TWO_32;
    if allocSize < size.value {
      return None;
    }
    if allocSize > f.dataSize {
      return None;
    }
    var bytes := ReadBuffer(stream, size.value);
    if bytes.None? {
      return None;
    }
    return Some(Buf(bytes.value));
  }

  /** pb_dec_fixed_length_bytes: an empty string stands for all zeros. */
  method DecFixedLengthBytes(stream: IStream, f: Field) returns (r: Option<Value>)
    requires stream.Valid() && f.ltype == FIXED_LENGTH_BYTES
    modifies stream
    ensures r == Outcome(DecScalar(f, old(stream.Rest())))
    ensures Advanced(stream, DecScalar(f, old(stream.Rest())))
  {
    var size := DecodeVarint32(stream);
    if size.None? {
      return None;
    }
    if size.value == 0 {
      return Some(ZeroOf(f));
    }
    if size.value != f.dataSize {
      return None;
    }
    var bytes := ReadBuffer(stream, f.dataSize);
    if bytes.None? {
      return None;
    }
    return Some(Buf(bytes.value));
  }

  /** The decoders that PB_DECODERS selects for scalar and buffer fields. */
  method DecodeScalar(stream: IStream, f: Field) returns (r: Option<Value>)
    requires stream.Valid() && f.ltype != SUBMESSAGE
    modifies stream
    ensures r == Outcome(DecScalar(f, old(stream.Rest())))
    ensures Advanced(stream, DecScalar(f, old(stream.Rest())))
  {
    hide DecScalar;
    match f.ltype
    case BOOL => r := DecBool(stream, f);
    case VARINT => r := DecVarintField(stream, f);
    case UVARINT => r := DecUVarint(stream, f);
    case SVARINT => r := DecSVarint(stream, f);
    case FIXED32 => r := DecFixedField(stream, f);
    case FIXED64 => r := DecFixedField(stream, f);
    case BYTES => r := DecBytes(stream, f);
    case STRING => r := DecString(stream, f);
    case FIXED_LENGTH_BYTES => r := DecFixedLengthBytes(stream, f);
  }

  // ---- defaults ----

  /** The struct has one slot per field and no storage of its own for further oneof members. */
  predicate Shaped(d: Desc, m: Msg)
  {
    && |m| == |d.fields|
    && forall i :: 0 <= i < |m| && IsContinuation(d.fields, i) ==> m[i] == Shared
  }

  /** A struct whose contents are unspecified. */
  function Blank(d: Desc): (m: Msg)
    ensures Shaped(d, m)
  {
    seq(|d.fields|, i requires 0 <= i < |d.fields| => if IsContinuation(d.fields, i) then Shared else One(Unset))
  }

  /** pb_field_set_to_default: the new contents of the slot of field i. */
  method FieldDefault(d: Desc, i: nat) returns (s: Slot)
    requires WfDesc(d) && i < |d.fields|
    ensures s == DefaultSlot(d, Home(d.fields, i))
    ensures HoldsNoRecord(d, Home(d.fields, i), s)
    decreases d, 0
  {
    var f := d.fields[i];
    assert WfField(f);
    DefaultsHold(d);
    hide HoldsNoRecord;
    if f.htype == REPEATED {
      return Rep([]);
    } else if f.htype == ONEOF {
      return Union(0, Unset);
    }
    var value: Value;
    if f.ltype == SUBMESSAGE {
      var sub := SetToDefaults(f.ptr.desc, Blank(f.ptr.desc));
      value := Sub(sub);
    } else if f.ptr.DefaultValue? {
      value := f.ptr.value;
    } else {
      value := ZeroOf(f);
    }
    if f.htype == OPTIONAL && f.sizeOffset != 0 {
      return Opt(false, value);
    }
    return One(value);
  }

  /** pb_message_set_to_defaults */
  method SetToDefaults(d: Desc, dest: Msg) returns (m: Msg)
    requires WfDesc(d) && Shaped(d, dest)
    ensures m == Defaults(d)
    ensures forall i :: 0 <= i < |m| ==> HoldsNoRecord(d, i, m[i])
    decreases d, 1
  {
    DefaultsHold(d);
    hide HoldsNoRecord;
    m := dest;
    if d.fields == [] {
      return;
    }
    assert forall i :: 0 <= i < |d.fields| ==> WfField(d.fields[i]);
    hide DefaultSlot, Home, DefaultsUpTo, WfField, Shaped;
    DefaultsBegin(d, dest);
    var iter := new FieldIter(d.fields, 0);
    var more := true;
    while more
      invariant iter.Valid() && iter.start == d.fields && fresh(iter)
      invariant DefaultsUpTo(d, m, if more then iter.pos else |d.fields|)
      decreases more, |d.fields| - iter.pos
    {
      var s := FieldDefault(d, iter.pos);
      DefaultsStep(d, m, iter.pos);
      m := SetSlot(d, m, iter.pos, s);
      more := iter.Next();
    }
    DefaultsEnd(d, m);
  }

  predicate DefaultsUpTo(d: Desc, m: Msg, p: nat)
  {
    Shaped(d, m) && forall h :: 0 <= h < |m| && h < p ==> m[h] == DefaultSlot(d, h)
  }

  lemma {:induction false} DefaultsBegin(d: Desc, m: Msg)
    requires Shaped(d, m)
    ensures DefaultsUpTo(d, m, 0)
  {
  }

  lemma {:induction false} DefaultsStep(d: Desc, m: Msg, i: nat)
    requires i < |d.fields| && DefaultsUpTo(d, m, i)
    ensures DefaultsUpTo(d, SetSlot(d, m, i, DefaultSlot(d, Home(d.fields, i))), i + 1)
  {
  }

  lemma {:induction false} DefaultsEnd(d: Desc, m: Msg)
    requires DefaultsUpTo(d, m, |d.fields|)
    ensures m == Defaults(d)
  {
  }

  // ---- one field ----

  /** func(stream, field, dest): decode one value into storage that holds `prior`. */
  method DecodeValue(stream: IStream, f: Field, prior: Value) returns (r: Option<Value>)
    requires stream.Valid() && WfField(f)
    requires f.ltype == SUBMESSAGE && f.htype != REPEATED ==> ValueOK(f, prior, Loose)
    modifies stream
    ensures r == Outcome(DecValue(f, old(stream.Rest()), prior))
    ensures Advanced(stream, DecValue(f, old(stream.Rest()), prior))
    decreases stream.bytesLeft, 1
  {
    if f.ltype == SUBMESSAGE {
      r := DecSubmessage(stream, f, prior);
    } else {
      r := DecodeScalar(stream, f);
    }
  }

  /** pb_dec_submessage */
  method DecSubmessage(stream: IStream, f: Field, prior: Value) returns (r: Option<Value>)
    requires stream.Valid() && WfField(f) && f.ltype == SUBMESSAGE
    requires f.htype != REPEATED ==> ValueOK(f, prior, Loose)
    modifies stream
    ensures r == Outcome(DecValue(f, old(stream.Rest()), prior))
    ensures Advanced(stream, DecValue(f, old(stream.Rest()), prior))
    decreases stream.bytesLeft, 0
  {
    hide DecodeSpec.DecodeNoinit, DecPayload;
    var sub := MakeSubstream(stream);
    if sub == null {
      return None;
    }
    var m;
    if f.htype == REPEATED {
      // An array entry starts from its defaults.
      m := Decode(sub, f.ptr.desc, Blank(f.ptr.desc));
    } else {
      m := DecodeNoinit(sub, f.ptr.desc, prior.msg);
    }
    var closed := CloseSubstream(stream, sub);
    if m.None? {
      return None;
    }
    return Some(Sub(m.value));
  }

  /** The packed branch of decode_static_field. */
  method DecodePacked(stream: IStream, f: Field, items: seq<Value>) returns (r: Option<seq<Value>>)
    requires stream.Valid() && WfField(f) && f.htype == REPEATED && Packable(f.ltype)
    modifies stream
    ensures var p := DecPayload(old(stream.Rest()));
      && Shrunk(stream)
      && r == (if p.Fail? then None else DecItems(f, p.value, items))
      && (r.Some? ==> stream.Rest() == p.rest && stream.End() == old(stream.End()))
    decreases stream.bytesLeft, 3
  {
    var sub := MakeSubstream(stream);
    if sub == null {
      return None;
    }
    hide DecPayload;
    var elements, status := DecodeElements(sub, f, items);
    if sub.bytesLeft != 0 {
      return None;
    }
    var closed := CloseSubstream(stream, sub);
    return if status then Some(elements) else None;
  }

  /** The loop over a packed array, which stops when the array is full. */
  method DecodeElements(sub: IStream, f: Field, items: seq<Value>) returns (elements: seq<Value>, status: bool)
    requires sub.Valid() && WfField(f) && f.htype == REPEATED && Packable(f.ltype)
    modifies sub
    ensures Shrunk(sub)
    ensures DecItems(f, old(sub.Rest()), items) == if status && sub.bytesLeft == 0 then Some(elements) else None
    ensures status ==> sub.End() == old(sub.End())
    decreases sub.bytesLeft, 2
  {
    elements, status := items, true;
    while sub.bytesLeft > 0 && |elements| < f.arraySize
      invariant Shrunk(sub) && sub.End() == old(sub.End())
      invariant DecItems(f, old(sub.Rest()), items) == DecItems(f, sub.Rest(), elements)
      decreases sub.bytesLeft
    {
      var v := DecodeValue(sub, f, Unset);
      if v.None? {
        return elements, false;
      }
      elements := elements + [v.value];
    }
  }

  /**
   * decode_static_field.  `count` is what pSize points to; the result is the new
   * contents of the field's slot and of the count.
   */
  method DecodeStaticField(stream: IStream, f: Field, wt: nat, slot: Slot, count: nat)
    returns (r: Option<Slot>, count': nat)
    requires stream.Valid() && WfField(f)
    requires f.htype == REPEATED ==> count == |ItemsIn(slot)|
    requires f.ltype == SUBMESSAGE && f.htype != REPEATED ==> ValueOK(f, Prior(f, slot), Loose)
    modifies stream
    ensures r == Outcome(DecSlot(f, wt, old(stream.Rest()), slot))
    ensures Advanced(stream, DecSlot(f, wt, old(stream.Rest()), slot))
    ensures f.htype == REPEATED && r.Some? ==> count' == |ItemsIn(r.value)|
    decreases stream.bytesLeft, 4
  {
    count' := count;
    hide DecValue, DecItems, DecPayload;
    match f.htype
    case REQUIRED =>
      var v := DecodeValue(stream, f, ValueIn(slot));
      if v.None? {
        return None, count';
      }
      return Some(One(v.value)), count';

    case OPTIONAL =>
      var v := DecodeValue(stream, f, ValueIn(slot));
      if v.None? {
        return None, count';
      }
      return Some(if f.sizeOffset != 0 then Opt(true, v.value) else One(v.value)), count';

    case REPEATED =>
      if wt == WT_STRING && Packable(f.ltype) {
        var items := DecodePacked(stream, f, ItemsIn(slot));
        if items.None? {
          return None, count';
        }
        return Some(Rep(items.value)), |items.value|;
      } else {
        if count >= f.arraySize {
          return None, count';
        }
        count' := count + 1;
        var v := DecodeValue(stream, f, Unset);
        if v.None? {
          return None, count';
        }
        return Some(Rep(ItemsIn(slot) + [v.value])), count';
      }

    case ONEOF =>
      var prior := ValueIn(slot);
      if f.ltype == SUBMESSAGE && WhichIn(slot) != f.tag {
        // Another member was stored here: start from the defaults.
        var m := SetToDefaults(f.ptr.desc, Blank(f.ptr.desc));
        prior := Sub(m);
      }
      var v := DecodeValue(stream, f, prior);
      if v.None? {
        return None, count';
      }
      return Some(Union(f.tag, v.value)), count';
  }

  // ---- whole messages ----

  /** pb_decode */
  method Decode(stream: IStream, d: Desc, dest: Msg) returns (r: Option<Msg>)
    requires stream.Valid() && WfDesc(d) && Shaped(d, dest)
    modifies stream
    ensures r == Outcome(DecodeSpec.Decode(d, old(stream.Rest())))
    ensures Advanced(stream, DecodeSpec.Decode(d, old(stream.Rest())))
    decreases stream.bytesLeft, 7
  {
    var m := SetToDefaults(d, dest);
    DefaultsOK(d, Loose);
    r := DecodeNoinit(stream, d, m);
  }

  /** The decoder's own variables stand for the state st of the record loop. */
  ghost predicate Tracks(d: Desc, st: DState, m: Msg, fixedField: Option<nat>, fixedSize: nat)
  {
    && LoopOK(d, st, Loose) && st.msg == m && st.fixedField == fixedField
    && (fixedField.Some? ==> fixedSize == |ItemsIn(SlotOf(d, m, fixedField.value))|)
  }

  /**
   * The bookkeeping of pb_decode_noinit before the data of the iterator's field is
   * decoded: the counter of fixed-count arrays and the bit of required fields.
   * When reception of a fixed-count array starts, its old elements no longer count.
   */
  method Prepare(d: Desc, iter: FieldIter, fieldsSeen: array<nat>,
                 m: Msg, fixedField: Option<nat>, fixedSize: nat, ghost st: DState)
    returns (ok: bool, m': Msg, fixedField': Option<nat>, fixedSize': nat)
    requires iter.Valid() && iter.start == d.fields && iter.pos < |d.fields|
    requires Tracks(d, st, m, fixedField, fixedSize) && Represents(fieldsSeen[..], st.seen)
    requires iter.pSize.CountVariable? ==> fixedField == Some(iter.pos)
    modifies iter`pSize, fieldsSeen
    ensures iter.Valid() && (ok ==> (iter.pSize.CountVariable? <==> IsFixedCount(d.fields[iter.pos])))
    ensures ok <==> Begin(d, iter.pos, st).Some?
    ensures ok ==>
      var st1 := Begin(d, iter.pos, st).value;
      && Tracks(d, st1, m', fixedField', fixedSize') && Represents(fieldsSeen[..], st1.seen)
      && (iter.pSize.CountVariable? ==> fixedField' == Some(iter.pos))
  {
    ok, m', fixedField', fixedSize' := true, m, fixedField, fixedSize;
    var f := d.fields[iter.pos];
    if Begin(d, iter.pos, st).Some? {
      BeginOK(d, iter.pos, st, Loose);
    }
    hide LoopOK, Represents;
    if f.htype == REPEATED && iter.pSize == Member(iter.pData) {
      if fixedField != Some(iter.pos) {
        if fixedField.Some? && fixedSize != d.fields[fixedField.value].arraySize {
          ok := false;
          return;
        }
        fixedField', fixedSize' := Some(iter.pos), 0;
        m' := SetSlot(d, m, iter.pos, Rep([]));
      }
      iter.pSize := CountVariable;
    }
    if f.htype == REQUIRED {
      MarkSeen(fieldsSeen, iter.requiredFieldIndex, st.seen);
    }
  }

  /** pb_decode_noinit on a declared tag: the iterator is at its field. */
  method DecodeFound(stream: IStream, d: Desc, iter: FieldIter, fieldsSeen: array<nat>, wt: nat,
                     m: Msg, fixedField: Option<nat>, fixedSize: nat, ghost st: DState)
    returns (ok: bool, m': Msg, fixedField': Option<nat>, fixedSize': nat)
    requires stream.Valid() && WfDesc(d) && iter.Valid() && iter.start == d.fields && iter.pos < |d.fields|
    requires Tracks(d, st, m, fixedField, fixedSize) && Represents(fieldsSeen[..], st.seen)
    requires iter.pSize.CountVariable? ==> fixedField == Some(iter.pos)
    modifies stream, iter`pSize, fieldsSeen
    ensures iter.Valid() && (iter.pSize.CountVariable? && ok ==> fixedField' == Some(iter.pos))
    ensures var p := DecField(d, iter.pos, wt, old(stream.Rest()), st);
      && (ok <==> p.Got?) && Advanced(stream, p)
      && (ok ==> Tracks(d, p.value, m', fixedField', fixedSize') && Represents(fieldsSeen[..], p.value.seen))
    decreases stream.bytesLeft, 5
  {
    var i := iter.pos;
    assert WfField(d.fields[i]);
    hide LoopOK, Represents, DecSlot, WfDesc, WfField, Tracks;
    ok, m', fixedField', fixedSize' := Prepare(d, iter, fieldsSeen, m, fixedField, fixedSize, st);
    if !ok {
      return;
    }
    ghost var st1 := Begin(d, i, st).value;
    CountTracked(d, i, st1, m', fixedField', fixedSize');
    var slot := SlotOf(d, m', i);
    var count := if iter.pSize.CountVariable? then fixedSize' else |ItemsIn(slot)|;
    if d.fields[i].htype != REPEATED {
      PriorOK(d, i, st1, Loose);
    }
    var decoded, count' := DecodeStaticField(stream, d.fields[i], wt, slot, count);
    if decoded.None? {
      ok := false;
      return;
    }
    DecFieldOK(d, i, wt, old(stream.Rest()), st, Loose);
    KeepsTrack(d, i, st1, m', fixedField', fixedSize', decoded.value);
    m' := SetSlot(d, m', i, decoded.value);
    if iter.pSize.CountVariable? {
      fixedSize' := count';
    }
  }

  lemma {:induction false} CountTracked(d: Desc, i: nat, st: DState, m: Msg, fixedField: Option<nat>, fixedSize: nat)
    requires i < |d.fields| && Tracks(d, st, m, fixedField, fixedSize)
    ensures m == st.msg && LoopOK(d, st, Loose)
    ensures fixedField == Some(i) ==> IsFixedCount(d.fields[i]) && fixedSize == |ItemsIn(SlotOf(d, m, i))|
  {
  }

  // Storing slot s in field i leaves the counter of another fixed-count array as it is.
  lemma {:induction false} KeepsTrack(d: Desc, i: nat, st: DState, m: Msg, fixedField: Option<nat>, fixedSize: nat,
                                      s: Slot)
    requires i < |d.fields| && Tracks(d, st, m, fixedField, fixedSize)
    requires LoopOK(d, st.(msg := SetSlot(d, m, i, s)), Loose)
    ensures Tracks(d, st.(msg := SetSlot(d, m, i, s)), SetSlot(d, m, i, s), fixedField,
                   if fixedField == Some(i) then |ItemsIn(s)| else fixedSize)
  {
    hide SlotInLoop;
  }

  // The required fields marked so far are fields of the message.
  predicate SeenBounded(d: Desc, st: DState)
  {
    forall k <- st.seen :: k < RequiredBefore(d.fields, |d.fields|)
  }

  lemma {:induction false} RequiredBeforeMonotone(fields: seq<Field>, i: nat, j: nat)
    requires i <= j <= |fields|
    ensures RequiredBefore(fields, i) <= RequiredBefore(fields, j)
  {
    if i < j {
      RequiredBeforeMonotone(fields, i, j - 1);
    }
  }

  lemma {:induction false} SeenStaysBounded(d: Desc, i: nat, wt: nat, s: seq<byte>, st: DState)
    requires i < |d.fields| && SeenBounded(d, st) && DecField(d, i, wt, s, st).Got?
    ensures SeenBounded(d, DecField(d, i, wt, s, st).value)
  {
    RequiredBeforeMonotone(d.fields, i + 1, |d.fields|);
    hide DecSlot;
  }

  /** The number of required fields, found by walking the iterator to the end of the list. */
  method CountRequired(iter: FieldIter) returns (count: nat)
    requires iter.Valid() && iter.NonzeroTags()
    modifies iter
    ensures count == RequiredBefore(iter.start, |iter.start|)
  {
    count := iter.requiredFieldIndex;
    var lastRequired := iter.start == [] || iter.start[iter.pos].htype == REQUIRED;
    var more := iter.Next();
    while more
      invariant iter.Valid() && (more ==> iter.start != [])
      invariant iter.start != [] ==>
        var last := if more then iter.pos - 1 else |iter.start| - 1;
        0 <= last && count == RequiredBefore(iter.start, last) && (lastRequired <==> iter.start[last].htype == REQUIRED)
      invariant iter.start == [] ==> count == 0
      decreases more, |iter.start| - iter.pos
    {
      count := iter.requiredFieldIndex;
      lastRequired := iter.start[iter.pos].htype == REQUIRED;
      more := iter.Next();
    }
    // The walk counts a required field only when it moves past it.
    if lastRequired && iter.TagAt(iter.pos) != 0 {
      count := count + 1;
    }
  }

  /** The variables of the record loop, between two records. */
  ghost predicate InLoop(d: Desc, iter: FieldIter, fieldsSeen: array<nat>, m: Msg,
                         fixedField: Option<nat>, fixedSize: nat, st: DState, marked: set<nat>)
    reads iter, fieldsSeen
  {
    && iter.Valid() && iter.start == d.fields && iter.NonzeroTags()
    && (iter.pSize.CountVariable? ==> fixedField == Some(iter.pos))
    && Tracks(d, st, m, fixedField, fixedSize) && SeenBounded(d, st)
    && Represents(fieldsSeen[..], marked) && (d.fields != [] ==> marked == st.seen)
  }

  /** The checks at the end of pb_decode_noinit. */
  method FinalChecks(d: Desc, iter: FieldIter, fieldsSeen: array<nat>, m: Msg,
                     fixedField: Option<nat>, fixedSize: nat, ghost st: DState, ghost marked: set<nat>)
    returns (ok: bool)
    requires InLoop(d, iter, fieldsSeen, m, fixedField, fixedSize, st, marked)
    modifies iter
    ensures ok <==> FixedComplete(d, st) && RequiredSeen(d, st.seen)
  {
    hide Represents;
    if fixedField.Some? && fixedSize != d.fields[fixedField.value].arraySize {
      return false;
    }
    var count := CountRequired(iter);
    ok := AllSeen(fieldsSeen, count, marked);
  }

  /**
   * pb_decode_noinit on a tag that is not declared.  In an empty message the
   * iterator stands on the terminator, which is taken for a required bool with tag 0.
   */
  method DecodeUndeclared(stream: IStream, d: Desc, found: bool, wt: nat, fieldsSeen: array<nat>, ghost tag: nat,
                          ghost st: DState, ghost marked: set<nat>)
    returns (ok: bool, ghost marked': set<nat>)
    requires stream.Valid() && FindTag(d.fields, tag) == None && (found <==> d.fields == [] && tag == 0)
    requires Represents(fieldsSeen[..], marked)
    modifies stream, fieldsSeen
    ensures var p := DecRecord(d, tag, wt, old(stream.Rest()), st);
      (ok <==> p.Got?) && Advanced(stream, p) && (ok ==> p.value == st)
    ensures Represents(fieldsSeen[..], marked') && (d.fields != [] ==> marked' == marked)
  {
    hide Represents;
    marked' := marked;
    if found {
      MarkSeen(fieldsSeen, 0, marked);
      marked' := marked + {0};
      var v := DecodeVarint32(stream);
      ok := v.Some?;
    } else {
      ok := Skip(stream, wt);
    }
  }

  /** One turn of the record loop; eof reports a zero tag. */
  method DecodeTurn(stream: IStream, d: Desc, iter: FieldIter, fieldsSeen: array<nat>, m: Msg,
                    fixedField: Option<nat>, fixedSize: nat, ghost st: DState, ghost marked: set<nat>)
    returns (ok: bool, eof: bool, m': Msg, fixedField': Option<nat>, fixedSize': nat,
             ghost st': DState, ghost marked': set<nat>)
    requires stream.Valid() && WfDesc(d) && stream.bytesLeft > 0
    requires InLoop(d, iter, fieldsSeen, m, fixedField, fixedSize, st, marked)
    modifies stream, iter, fieldsSeen
    ensures Shrunk(stream)
    ensures ok ==>
      && InLoop(d, iter, fieldsSeen, m', fixedField', fixedSize', st', marked')
      && stream.End() == old(stream.End()) && stream.bytesLeft < old(stream.bytesLeft)
      && DecLoop(d, old(stream.Rest()), st) == DecLoop(d, stream.Rest(), st')
    ensures !ok && eof ==>
      && InLoop(d, iter, fieldsSeen, m, fixedField, fixedSize, st, marked)
      && stream.End() == old(stream.End())
      && DecLoop(d, old(stream.Rest()), st) == Done(st, stream.Rest(), true)
    ensures !ok && !eof ==> DecLoop(d, old(stream.Rest()), st) == Stuck
    decreases stream.bytesLeft, 5
  {
    m', fixedField', fixedSize', st', marked' := m, fixedField, fixedSize, st, marked;
    hide LoopOK, Represents, WfField, DecField, SeenBounded, Tracks;
    var wt, tag;
    ok, wt, tag, eof := DecodeTag(stream);
    if !ok {
      return;
    }
    eof := false;
    ghost var s := stream.Rest();
    var found := iter.Find(tag);
    if found && d.fields != [] {
      SeenIfFound(d, iter.pos, wt, s, st);
      ok, m', fixedField', fixedSize' := DecodeFound(stream, d, iter, fieldsSeen, wt, m, fixedField, fixedSize, st);
      if ok {
        st' := DecField(d, iter.pos, wt, s, st).value;
        marked' := st'.seen;
      }
    } else {
      ok, marked' := DecodeUndeclared(stream, d, found, wt, fieldsSeen, tag, st, marked);
    }
  }

  lemma {:induction false} SeenIfFound(d: Desc, i: nat, wt: nat, s: seq<byte>, st: DState)
    requires i < |d.fields| && SeenBounded(d, st)
    ensures DecField(d, i, wt, s, st).Got? ==> SeenBounded(d, DecField(d, i, wt, s, st).value)
  {
    if DecField(d, i, wt, s, st).Got? {
      SeenStaysBounded(d, i, wt, s, st);
    }
  }

  lemma {:induction false} InLoopAtStart(d: Desc, dest: Msg)
    requires WfDesc(d) && MsgOK(d, dest, Loose)
    ensures Tracks(d, Start(dest), dest, None, 0) && SeenBounded(d, Start(dest))
    ensures forall i :: 0 <= i < |d.fields| ==> d.fields[i].tag != 0
  {
    LoopStarts(d, dest, Loose);
    assert forall i :: 0 <= i < |d.fields| ==> WfField(d.fields[i]);
  }

  /** pb_decode_noinit, into any struct of the message's C type */
  method DecodeNoinit(stream: IStream, d: Desc, dest: Msg) returns (r: Option<Msg>)
    requires stream.Valid() && WfDesc(d) && MsgOK(d, dest, Loose)
    modifies stream
    ensures r == Outcome(DecodeSpec.DecodeNoinit(d, old(stream.Rest()), dest))
    ensures Advanced(stream, DecodeSpec.DecodeNoinit(d, old(stream.Rest()), dest))
    decreases stream.bytesLeft, 6
  {
    var fieldsSeen := new nat[2](_ => 0);
    assert fieldsSeen[..] == [0, 0];
    EmptyRepresented();
    InLoopAtStart(d, dest);
    hide Represents, MsgOK, Tracks, SeenBounded;
    var fixedField, fixedSize := None, 0;
    var iter := new FieldIter(d.fields, 0);
    var m := dest;
    ghost var st, marked := Start(dest), {};
    assert InLoop(d, iter, fieldsSeen, m, fixedField, fixedSize, st, marked);
    hide InLoop, FixedComplete, RequiredSeen;
    while stream.bytesLeft > 0
      invariant Shrunk(stream) && stream.End() == old(stream.End()) && fresh(iter) && fresh(fieldsSeen)
      invariant InLoop(d, iter, fieldsSeen, m, fixedField, fixedSize, st, marked)
      invariant DecLoop(d, old(stream.Rest()), Start(dest)) == DecLoop(d, stream.Rest(), st)
      decreases stream.bytesLeft
    {
      var ok, eof, m', fixedField', fixedSize';
      ghost var st', marked';
      ok, eof, m', fixedField', fixedSize', st', marked' :=
        DecodeTurn(stream, d, iter, fieldsSeen, m, fixedField, fixedSize, st, marked);
      if !ok {
        if eof {
          break;
        }
        return None;
      }
      m, fixedField, fixedSize, st, marked := m', fixedField', fixedSize', st', marked';
    }
    assert InLoop(d, iter, fieldsSeen, m, fixedField, fixedSize, st, marked);
    var ok := FinalChecks(d, iter, fieldsSeen, m, fixedField, fixedSize, st, marked);
    if !ok {
      return None;
    }
    return Some(m);
  }

  /** pb_decode_delimited */
  method DecodeDelimited(stream: IStream, d: Desc, dest: Msg) returns (r: Option<Msg>)
    requires stream.Valid() && WfDesc(d) && Shaped(d, dest)
    modifies stream
    ensures r == Outcome(Framing.DecFramed(Framing.Delimited, d, old(stream.Rest())))
    ensures Advanced(stream, Framing.DecFramed(Framing.Delimited, d, old(stream.Rest())))
  {
    hide DecodeSpec.Decode, DecPayload;
    var sub := MakeSubstream(stream);
    if sub == null {
      return None;
    }
    r := Decode(sub, d, dest);
    var closed := CloseSubstream(stream, sub);
  }

  /** pb_decode_nullterminated */
  method DecodeNullTerminated(stream: IStream, d: Desc, dest: Msg) returns (r: Option<Msg>)
    requires stream.Valid() && WfDesc(d) && Shaped(d, dest)
    modifies stream
    ensures r == Outcome(Framing.DecFramed(Framing.NullTerminated, d, old(stream.Rest())))
    ensures Advanced(stream, Framing.DecFramed(Framing.NullTerminated, d, old(stream.Rest())))
  {
    r := Decode(stream, d, dest);
  }
}
