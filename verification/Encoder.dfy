// pb_encode.c: encoding a message to a stream, with the sizing pass that computes
// the length prefixes of packed arrays and submessages.  Every method emits
// exactly the bytes that EncodeSpec assigns to its arguments, or fails.
module Encoder {
  import opened Bits
  import opened Wire
  import opened Descriptors
  import opened EncodeSpec
  import opened FieldIterator
  import opened OutputStream
  import Framing

  // ---- sizes are size_t ----

  predicate Small(e: Option<seq<byte>>)
  {
    e.Some? ==> |e.value| < TWO_64
  }

  predicate SizedValue(f: Field, v: Value)
    decreases f, 0
  {
    && Small(EncValue(f, v))
    && (f.ltype == STRING || f.ltype == FIXED_LENGTH_BYTES || f.ltype == BYTES ==> |BytesIn(v)| < TWO_64)
    && (f.ltype == SUBMESSAGE && f.ptr.SubFields? ==> Sized(f.ptr.desc, MsgIn(v)))
  }

  predicate SizedItems(f: Field, items: seq<Value>)
    decreases f, 1
  {
    Small(EncAll(f, items)) && forall k :: 0 <= k < |items| ==> SizedValue(f, items[k])
  }

  /** No part of the encoding is longer than a size_t can count. */
  predicate Sized(d: Desc, m: Msg)
    decreases d
  {
    forall i :: 0 <= i < |d.fields| ==>
      var f, s := d.fields[i], SlotOf(d, m, i);
      if f.htype == REPEATED then SizedItems(f, ItemsIn(s)) else Emitted(d, m, i) ==> SizedValue(f, ValueIn(s))
  }

  // ---- scalar encoders ----

  lemma {:induction false} EmitsError(k: Kind, a: Snapshot)
    requires Sound(k, a)
    ensures Emits(k, a, false, None, a)
  {
  }

  /** pb_enc_varint, pb_enc_uvarint and pb_enc_svarint */
  method EncInteger(stream: OStream, f: Field, v: Value) returns (ok: bool)
    requires stream.Valid() && ScalarOK(f, v) && f.ltype in {VARINT, UVARINT, SVARINT}
    modifies stream, stream.dest
    ensures stream.Valid() && Emits(stream.KindOf(), old(stream.View()), ok, EncScalar(f, v), stream.View())
  {
    if f.dataSize != 1 && f.dataSize != 2 && f.dataSize != 4 && f.dataSize != 8 {
      EmitsError(stream.KindOf(), stream.View());
      return false;
    }
    hide Emits, Sound, ScalarOK, Pow2;
    IntegerRange(f, v);
    Pow2Constants();
    if f.ltype == SVARINT {
      ok := EncodeSVarint(stream, v.n);
    } else {
      ok := EncodeVarint(stream, v.n % TWO_64);
    }
  }

  lemma {:induction false} IntegerRange(f: Field, v: Value)
    requires ScalarOK(f, v) && f.ltype in {VARINT, UVARINT, SVARINT} && IntSize(f.dataSize)
    ensures v.Num?
    ensures f.ltype != UVARINT ==> -0x8000_0000_0000_0000 <= v.n < 0x8000_0000_0000_0000
  {
    Pow2Table();
    Pow2Monotone(8 * f.dataSize - 1, 63);
  }

  /** strnlen, as the loop in pb_enc_string */
  method StringLength(p: seq<byte>, maxSize: nat) returns (size: nat)
    ensures size <= |p| && p[..size] == CString(p, maxSize)
  {
    size := 0;
    assert p[0..] == p;
    while size < maxSize && size < |p| && p[size] != 0
      invariant size <= |p| && size <= maxSize
      invariant |CString(p, maxSize)| == size + |CString(p[size..], maxSize - size)|
    {
      assert p[size..][1..] == p[size + 1..];
      size := size + 1;
    }
  }

  /** The encoders that PB_ENCODERS selects for scalar and buffer fields. */
  method EncodeScalar(stream: OStream, f: Field, v: Value) returns (ok: bool)
    requires stream.Valid() && ScalarOK(f, v) && SizedValue(f, v)
    modifies stream, stream.dest
    ensures stream.Valid() && Emits(stream.KindOf(), old(stream.View()), ok, EncScalar(f, v), stream.View())
  {
    hide Emits, Sound, SizedItems, Sized;
    match f.ltype
    case BOOL => ok := EncodeVarint(stream, if v.n != 0 then 1 else 0);
    case VARINT => ok := EncInteger(stream, f, v);
    case UVARINT => ok := EncInteger(stream, f, v);
    case SVARINT => ok := EncInteger(stream, f, v);
    case FIXED32 => ok := EncodeFixed(stream, Unsigned(v.n, 32), 4);
    case FIXED64 => ok := EncodeFixed(stream, Unsigned(v.n, 64), 8);
    case BYTES =>
      if |v.bytes| > (f.dataSize - BYTES_HEADER) % TWO_64 {
        EmitsError(stream.KindOf(), stream.View());
        return false;
      }
      ok := EncodeString(stream, v.bytes);
    case STRING =>
      var size := StringLength(v.bytes, f.dataSize);
      ok := EncodeString(stream, v.bytes[..size]);
    case FIXED_LENGTH_BYTES => ok := EncodeString(stream, v.bytes);
  }

  // ---- proto3 defaults ----

  /** pb_check_proto3_default_value */
  method CheckProto3Default(d: Desc, m: Msg, i: nat) returns (isDefault: bool)
    requires WfDesc(d) && MsgOK(d, m) && i < |d.fields|
    ensures isDefault == ProtoDefault(d, m, i)
    decreases d, 0
  {
    var f, s := d.fields[i], SlotOf(d, m, i);
    assert WfField(f);
    if f.htype == REQUIRED {
      return false;
    } else if f.htype == REPEATED {
      if f.sizeOffset != 0 {
        return |ItemsIn(s)| == 0;
      }
      return false;
    } else if f.htype == ONEOF {
      return WhichIn(s) == 0;
    } else if f.sizeOffset != 0 {
      return s.Opt? && !s.has;
    }
    assert SlotOK(d, m[i], i);
    isDefault := CheckZero(f, ValueIn(s));
  }

  /** The part of pb_check_proto3_default_value for proto3 singular fields. */
  method CheckZero(f: Field, v: Value) returns (zero: bool)
    requires WfField(f) && ValueOK(f, v)
    ensures zero == IsZero(f, v)
    decreases f, 1
  {
    match f.ltype
    case BYTES => zero := |v.bytes| == 0;
    case STRING => zero := |v.bytes| == 0 || v.bytes[0] == 0;
    case FIXED_LENGTH_BYTES => zero := f.dataSize == 0;
    case SUBMESSAGE => zero := CheckAllDefault(f.ptr.desc, v.msg);
    case _ => zero := v.n == 0;
  }

  /** The submessage case: walk its fields until one does not hold its default. */
  method CheckAllDefault(d: Desc, m: Msg) returns (zero: bool)
    requires WfDesc(d) && MsgOK(d, m)
    ensures zero == AllProtoDefault(d, m)
    decreases d, 1
  {
    if d.fields == [] {
      return true;
    }
    assert forall j :: 0 <= j < |d.fields| ==> WfField(d.fields[j]);
    hide ProtoDefault, MsgOK;
    var iter := new FieldIter(d.fields, 0);
    var more := true;
    while more
      invariant iter.Valid() && iter.start == d.fields && fresh(iter) && iter.NonzeroTags()
      invariant forall j :: 0 <= j < |d.fields| && (more ==> j < iter.pos) ==> ProtoDefault(d, m, j)
      decreases more, |d.fields| - iter.pos
    {
      var isDefault := CheckProto3Default(d, m, iter.pos);
      if !isDefault {
        return false;
      }
      more := iter.Next();
    }
    return true;
  }

  // ---- submessages ----

  /** The stream after its substream, limited to the announced size, was filled. */
  lemma {:induction false} SubstreamEmits(max: nat, a: Snapshot, b: seq<byte>, c: Snapshot)
    requires Sound(Writing(max), a) && a.written + |b| <= max
    requires Emits(Writing(|b|), a.(written := 0), true, Some(b), c)
    ensures Sound(Writing(max), c.(written := a.written + c.written))
    ensures Emits(Writing(max), a, true, Some(b), c.(written := a.written + c.written))
  {
    var limit := a.state + (max - a.written);
    assert c.buf[limit..] == c.buf[a.state + |b|..][limit - a.state - |b|..];
  }

  /** pb_enc_submessage */
  method EncSubmessage(stream: OStream, f: Field, v: Value) returns (ok: bool)
    requires stream.Valid() && WfField(f) && f.ltype == SUBMESSAGE && ValueOK(f, v) && SizedValue(f, v)
    modifies stream, stream.dest
    ensures stream.Valid() && Emits(stream.KindOf(), old(stream.View()), ok, EncValue(f, v), stream.View())
    decreases f, 0
  {
    hide Emits, Sound, EncMsg, MsgOK, Sized;
    ok := EncodeSubmessage(stream, f.ptr.desc, v.msg);
  }

  /**
   * pb_encode_submessage: a sizing pass, the length prefix, and a writing pass into
   * a substream of exactly that size.  The sizes agree, so "submsg size changed"
   * cannot occur.
   */
  method EncodeSubmessage(stream: OStream, d: Desc, m: Msg) returns (ok: bool)
    requires stream.Valid() && WfDesc(d) && MsgOK(d, m) && Sized(d, m) && Small(EncMsg(d, m))
    modifies stream, stream.dest
    ensures stream.Valid()
    ensures Emits(stream.KindOf(), old(stream.View()), ok, Framing.EncFramed(Framing.Delimited, d, m), stream.View())
    decreases d, 6
  {
    hide Emits, Sound, EncMsg, MsgOK, Sized, WfDesc, EncVarint;
    ghost var k, a := stream.KindOf(), stream.View();
    var sizing := new OStream.Sizing();
    ghost var z := sizing.View();
    ok := Encode(sizing, d, m);
    CountingResult(z, ok, EncMsg(d, m), sizing.View());
    if !ok {
      EmitsError(k, a);
      return;
    }
    ghost var b := EncMsg(d, m).value;
    var size := sizing.bytesWritten;
    ok := EncodeVarint(stream, size);
    ghost var a1 := stream.View();
    if !ok {
      EmitsFails(k, a, Some(EncVarint(size)), a1, Some(b));
      return;
    }
    ok := EncodeSized(stream, d, m, size);
    EmitsThen(k, a, Some(EncVarint(size)), a1, ok, Some(b), stream.View());
  }

  lemma {:induction false} CountingResult(a: Snapshot, ok: bool, e: Option<seq<byte>>, b: Snapshot)
    requires Sound(Counting, a) && Emits(Counting, a, ok, e, b)
    ensures ok <==> e.Some?
    ensures ok ==> b.written == a.written + |e.value|
  {
  }

  lemma {:induction false} Counted(a: Snapshot, b: seq<byte>)
    requires Sound(Counting, a)
    ensures Emits(Counting, a, true, Some(b), a.(written := a.written + |b|))
  {
  }

  lemma {:induction false} DoesNotFit(max: nat, a: Snapshot, b: seq<byte>)
    requires Sound(Writing(max), a) && a.written + |b| > max
    ensures Emits(Writing(max), a, false, Some(b), a)
  {
  }

  lemma {:induction false} ExactFit(a: Snapshot, ok: bool, b: seq<byte>, c: Snapshot)
    requires Sound(Writing(|b|), a) && a.written == 0 && Emits(Writing(|b|), a, ok, Some(b), c)
    ensures ok && c.written == |b|
  {
  }

  /** The rest of pb_encode_submessage once the size is known and written. */
  method EncodeSized(stream: OStream, d: Desc, m: Msg, size: nat) returns (ok: bool)
    requires stream.Valid() && WfDesc(d) && MsgOK(d, m) && Sized(d, m)
    requires EncMsg(d, m).Some? && size == |EncMsg(d, m).value|
    modifies stream, stream.dest
    ensures stream.Valid()
    ensures Emits(stream.KindOf(), old(stream.View()), ok, EncMsg(d, m), stream.View())
    decreases d, 5
  {
    ghost var a, b := stream.View(), EncMsg(d, m).value;
    if stream.dest == null {
      // Only the count is wanted.
      stream.Count(size);
      return true;
    }
    if stream.bytesWritten + size > stream.maxSize {
      DoesNotFit(stream.maxSize, a, b);
      return false;
    }
    var sub := new OStream.Limited(stream, size);
    hide Emits, EncMsg, MsgOK, Sized, WfDesc;
    assert sub.View() == a.(written := 0);
    var status := Encode(sub, d, m);
    ghost var c := sub.View();
    ExactFit(a.(written := 0), status, b, c);
    SubstreamEmits(stream.maxSize, a, b, c);
    stream.bytesWritten := stream.bytesWritten + sub.bytesWritten;
    stream.state := sub.state;
    if sub.bytesWritten != size {
      assert false;
    }
    assert stream.View() == c.(written := a.written + c.written);
    return status;
  }

  // ---- arrays ----

  /** func(stream, field, src) */
  method EncodeValue(stream: OStream, f: Field, v: Value) returns (ok: bool)
    requires stream.Valid() && WfField(f) && ValueOK(f, v) && SizedValue(f, v)
    modifies stream, stream.dest
    ensures stream.Valid() && Emits(stream.KindOf(), old(stream.View()), ok, EncValue(f, v), stream.View())
    decreases f, 1
  {
    hide Emits, Sound, EncScalar, Sized;
    if f.ltype == SUBMESSAGE {
      ok := EncSubmessage(stream, f, v);
    } else {
      ok := EncodeScalar(stream, f, v);
    }
  }

  /** pb_encode_tag_for_field, followed by the value */
  method EncodeTaggedValue(stream: OStream, f: Field, v: Value) returns (ok: bool)
    requires stream.Valid() && WfField(f) && ValueOK(f, v) && SizedValue(f, v)
    modifies stream, stream.dest
    ensures stream.Valid() && Emits(stream.KindOf(), old(stream.View()), ok, EncTagged(f, v), stream.View())
    decreases f, 2
  {
    assert f.tag < TWO_32;
    hide Emits, Sound, EncValue, EncTag, SizedValue, WfField, ValueOK;
    ghost var k, a, t := stream.KindOf(), stream.View(), Some(EncTag(WireType(f.ltype), f.tag));
    ok := EncodeTag(stream, WireType(f.ltype), f.tag);
    ghost var b := stream.View();
    if !ok {
      EmitsFails(k, a, t, b, EncValue(f, v));
      return;
    }
    ok := EncodeValue(stream, f, v);
    EmitsThen(k, a, t, b, ok, EncValue(f, v), stream.View());
  }

  /** The output so far and what the remaining elements emit make up the whole. */
  predicate Pending(k: Kind, a: Snapshot, b: Snapshot, done: seq<byte>, todo: Option<seq<byte>>,
                    whole: Option<seq<byte>>)
  {
    Sound(k, a) && Sound(k, b) && Emits(k, a, true, Some(done), b) && Cat(Some(done), todo) == whole
  }

  lemma {:induction false} PendingStart(k: Kind, a: Snapshot, whole: Option<seq<byte>>)
    requires Sound(k, a)
    ensures Pending(k, a, a, [], whole, whole)
  {
    EmitsNothing(k, a);
    assert whole.Some? ==> [] + whole.value == whole.value;
  }

  lemma {:induction false} PendingStep(k: Kind, a: Snapshot, b: Snapshot, done: seq<byte>, e: Option<seq<byte>>,
                                       rest: Option<seq<byte>>, whole: Option<seq<byte>>, ok: bool, c: Snapshot)
    requires Pending(k, a, b, done, Cat(e, rest), whole)
    requires Sound(k, c) && Emits(k, b, ok, e, c)
    ensures ok ==> e.Some? && Pending(k, a, c, done + e.value, rest, whole)
    ensures !ok ==> Emits(k, a, false, whole, c)
  {
    EmitsThen(k, a, Some(done), b, ok, e, c);
    assert e.Some? && rest.Some? ==> done + (e.value + rest.value) == done + e.value + rest.value;
    if !ok {
      EmitsFails(k, a, Cat(Some(done), e), c, rest);
    }
  }

  lemma {:induction false} PendingEnd(k: Kind, a: Snapshot, b: Snapshot, done: seq<byte>, whole: Option<seq<byte>>)
    requires Pending(k, a, b, done, Some([]), whole)
    ensures Emits(k, a, true, whole, b)
  {
    assert done + [] == done;
  }

  /** The loop that encodes the elements of an array one after the other. */
  method EncodeItems(stream: OStream, f: Field, items: seq<Value>) returns (ok: bool)
    requires stream.Valid() && WfField(f) && SizedItems(f, items)
    requires forall i :: 0 <= i < |items| ==> ValueOK(f, items[i])
    modifies stream, stream.dest
    ensures stream.Valid() && Emits(stream.KindOf(), old(stream.View()), ok, EncAll(f, items), stream.View())
    decreases f, 2
  {
    hide Emits, Sound, EncValue, ValueOK, SizedValue, WfField, Pending;
    ghost var k, a, whole := stream.KindOf(), stream.View(), EncAll(f, items);
    ghost var done: seq<byte> := [];
    PendingStart(k, a, whole);
    assert items[0..] == items;
    var i := 0;
    while i < |items|
      invariant i <= |items| && stream.Valid() && Pending(k, a, stream.View(), done, EncAll(f, items[i..]), whole)
    {
      assert items[i..][1..] == items[i + 1..];
      ghost var b := stream.View();
      ok := EncodeValue(stream, f, items[i]);
      PendingStep(k, a, b, done, EncValue(f, items[i]), EncAll(f, items[i + 1..]), whole, ok, stream.View());
      if !ok {
        return;
      }
      done := done + EncValue(f, items[i]).value;
      i := i + 1;
    }
    PendingEnd(k, a, stream.View(), done, whole);
    return true;
  }

  /** The loop that encodes one record per element. */
  method EncodeEach(stream: OStream, f: Field, items: seq<Value>) returns (ok: bool)
    requires stream.Valid() && WfField(f) && SizedItems(f, items)
    requires forall i :: 0 <= i < |items| ==> ValueOK(f, items[i])
    modifies stream, stream.dest
    ensures stream.Valid() && Emits(stream.KindOf(), old(stream.View()), ok, EncEach(f, items), stream.View())
    decreases f, 3
  {
    hide Emits, Sound, EncTagged, ValueOK, SizedValue, WfField, Pending;
    ghost var k, a, whole := stream.KindOf(), stream.View(), EncEach(f, items);
    ghost var done: seq<byte> := [];
    PendingStart(k, a, whole);
    assert items[0..] == items;
    var i := 0;
    while i < |items|
      invariant i <= |items| && stream.Valid() && Pending(k, a, stream.View(), done, EncEach(f, items[i..]), whole)
    {
      assert items[i..][1..] == items[i + 1..];
      ghost var b := stream.View();
      ok := EncodeTaggedValue(stream, f, items[i]);
      PendingStep(k, a, b, done, EncTagged(f, items[i]), EncEach(f, items[i + 1..]), whole, ok, stream.View());
      if !ok {
        return;
      }
      done := done + EncTagged(f, items[i]).value;
      i := i + 1;
    }
    PendingEnd(k, a, stream.View(), done, whole);
    return true;
  }

  /** Fixed-size elements need no sizing pass. */
  lemma {:induction false} FixedItemsSize(f: Field, items: seq<Value>)
    requires f.ltype in {FIXED32, FIXED64}
    ensures EncAll(f, items).Some?
    ensures |EncAll(f, items).value| == (if f.ltype == FIXED32 then 4 else 8) * |items|
  {
    if items == [] {
    } else {
      FixedItemsSize(f, items[1..]);
    }
  }

  /** Length prefix and elements of a packed array. */
  function PackedBody(f: Field, items: seq<Value>): Option<seq<byte>>
  {
    var b := EncAll(f, items);
    if b.Some? then Some(LenPrefixed(b.value)) else None
  }

  /** The total size of a packed array. */
  method PackedSize(f: Field, items: seq<Value>) returns (ok: bool, size: nat)
    requires WfField(f) && SizedItems(f, items)
    requires forall i :: 0 <= i < |items| ==> ValueOK(f, items[i])
    ensures ok <==> EncAll(f, items).Some?
    ensures ok ==> size == |EncAll(f, items).value|
    decreases f, 3
  {
    if f.ltype == FIXED32 {
      FixedItemsSize(f, items);
      return true, 4 * |items|;
    } else if f.ltype == FIXED64 {
      FixedItemsSize(f, items);
      return true, 8 * |items|;
    }
    hide Emits, Sound, EncAll, SizedItems, WfField, ValueOK;
    var sizing := new OStream.Sizing();
    ghost var a := sizing.View();
    ok := EncodeItems(sizing, f, items);
    size := sizing.bytesWritten;
    CountingResult(a, ok, EncAll(f, items), sizing.View());
  }

  /** The packed branch of encode_array, after the tag. */
  method EncodePackedBody(stream: OStream, f: Field, items: seq<Value>) returns (ok: bool)
    requires stream.Valid() && WfField(f) && SizedItems(f, items)
    requires forall i :: 0 <= i < |items| ==> ValueOK(f, items[i])
    modifies stream, stream.dest
    ensures stream.Valid() && Emits(stream.KindOf(), old(stream.View()), ok, PackedBody(f, items), stream.View())
    decreases f, 4
  {
    assert Small(EncAll(f, items));
    hide Emits, Sound, EncAll, SizedItems, WfField, ValueOK, EncVarint;
    ghost var k, a, e := stream.KindOf(), stream.View(), EncAll(f, items);
    var size;
    ok, size := PackedSize(f, items);
    if !ok {
      EmitsError(k, a);
      return;
    }
    ok := EncodeVarint(stream, size);
    ghost var b := stream.View();
    if !ok {
      EmitsFails(k, a, Some(EncVarint(size)), b, e);
      return;
    }
    if stream.dest == null {
      // Only the count is wanted.
      Counted(b, e.value);
      stream.Count(size);
      ok := true;
    } else {
      ok := EncodeItems(stream, f, items);
    }
    EmitsThen(k, a, Some(EncVarint(size)), b, ok, e, stream.View());
  }

  /** encode_array */
  method EncodeArray(stream: OStream, f: Field, items: seq<Value>) returns (ok: bool)
    requires stream.Valid() && WfField(f) && SizedItems(f, items)
    requires forall i :: 0 <= i < |items| ==> ValueOK(f, items[i])
    modifies stream, stream.dest
    ensures stream.Valid() && Emits(stream.KindOf(), old(stream.View()), ok, EncArray(f, items), stream.View())
    decreases f, 5
  {
    assert f.tag < TWO_32;
    hide Emits, Sound, EncAll, EncEach, SizedItems, WfField, ValueOK, EncTag, LenPrefixed;
    ghost var k, a := stream.KindOf(), stream.View();
    if |items| == 0 {
      EmitsNothing(k, a);
      return true;
    }
    if |items| > f.arraySize {
      EmitsError(k, a);
      return false;
    }
    if Packable(f.ltype) {
      ghost var t := Some(EncTag(WT_STRING, f.tag));
      ok := EncodeTag(stream, WT_STRING, f.tag);
      ghost var b := stream.View();
      if !ok {
        EmitsFails(k, a, t, b, PackedBody(f, items));
        return;
      }
      ok := EncodePackedBody(stream, f, items);
      EmitsThen(k, a, t, b, ok, PackedBody(f, items), stream.View());
    } else {
      ok := EncodeEach(stream, f, items);
    }
  }

  // ---- fields and messages ----

  lemma {:induction false} FieldTyped(d: Desc, m: Msg, i: nat)
    requires WfDesc(d) && MsgOK(d, m) && Sized(d, m) && i < |d.fields|
    ensures var f, s := d.fields[i], SlotOf(d, m, i);
      && WfField(f)
      && (f.htype != REPEATED && Emitted(d, m, i) ==> ValueOK(f, ValueIn(s)) && SizedValue(f, ValueIn(s)))
      && (f.htype == OPTIONAL && f.sizeOffset == 0 ==> ValueOK(f, ValueIn(s)))
      && (f.htype == OPTIONAL && f.sizeOffset != 0 ==> s.Opt?)
      && (f.htype == REPEATED ==>
            SizedItems(f, ItemsIn(s)) && forall k :: 0 <= k < |ItemsIn(s)| ==> ValueOK(f, ItemsIn(s)[k]))
  {
    FindTagUnique(d.fields, i);
    assert SlotOK(d, m[Home(d.fields, i)], Home(d.fields, i));
  }

  /** encode_basic_field */
  method EncodeBasicField(stream: OStream, d: Desc, m: Msg, i: nat) returns (ok: bool)
    requires stream.Valid() && WfDesc(d) && MsgOK(d, m) && Sized(d, m) && i < |d.fields|
    modifies stream, stream.dest
    ensures stream.Valid() && Emits(stream.KindOf(), old(stream.View()), ok, EncField(d, m, i), stream.View())
    decreases d, 1
  {
    FieldTyped(d, m, i);
    var f, s := d.fields[i], SlotOf(d, m, i);
    hide Emits, Sound, EncTagged, EncArray, SizedItems, SizedValue, WfField, ValueOK, MsgOK, Sized, WfDesc, IsZero;
    var present := true;
    if f.htype == REPEATED {
      ok := EncodeArray(stream, f, ItemsIn(s));
      return;
    }
    if f.htype == OPTIONAL {
      if f.sizeOffset != 0 {
        present := s.has;
      } else {
        // Without a has-flag only a value other than zero is present.
        var zero := CheckZero(f, ValueIn(s));
        present := !zero;
      }
    } else if f.htype == ONEOF {
      present := WhichIn(s) == f.tag;
    }
    if present {
      ok := EncodeTaggedValue(stream, f, ValueIn(s));
    } else {
      EmitsNothing(stream.KindOf(), stream.View());
      ok := true;
    }
  }

  lemma {:induction false} FirstField(d: Desc, m: Msg)
    requires WfDesc(d)
    ensures EncMsg(d, m) == EncFrom(d, m, 0) && EncFrom(d, m, |d.fields|) == Some([])
    ensures forall j :: 0 <= j < |d.fields| ==> d.fields[j].tag != 0
  {
    assert forall j :: 0 <= j < |d.fields| ==> WfField(d.fields[j]);
  }

  lemma {:induction false} NextField(d: Desc, m: Msg, i: nat)
    requires i < |d.fields|
    ensures EncFrom(d, m, i) == Cat(EncField(d, m, i), EncFrom(d, m, i + 1))
  {
    hide EncField;
  }

  /** pb_encode */
  method Encode(stream: OStream, d: Desc, m: Msg) returns (ok: bool)
    requires stream.Valid() && WfDesc(d) && MsgOK(d, m) && Sized(d, m)
    modifies stream, stream.dest
    ensures stream.Valid()
    ensures Emits(stream.KindOf(), old(stream.View()), ok, EncMsg(d, m), stream.View())
    decreases d, 4
  {
    FirstField(d, m);
    hide Emits, Sound, EncField, EncFrom, EncMsg, MsgOK, Sized, WfDesc, RequiredBefore, DataAt;
    var iter := new FieldIter(d.fields, 0);
    if d.fields == [] {
      EmitsNothing(stream.KindOf(), stream.View());
      return true;
    }
    ok := EncodeFields(stream, d, m, iter);
  }

  /** What the fields before index i emitted since state a, and what those from i on will. */
  predicate FieldsPending(d: Desc, m: Msg, i: nat, k: Kind, a: Snapshot, b: Snapshot, done: seq<byte>)
  {
    i <= |d.fields| && Pending(k, a, b, done, EncFrom(d, m, i), EncFrom(d, m, 0))
  }

  /** One turn of the loop of pb_encode. */
  method EncodeAt(stream: OStream, d: Desc, m: Msg, i: nat, ghost k: Kind, ghost a: Snapshot, ghost done: seq<byte>)
    returns (ok: bool, ghost done': seq<byte>)
    requires stream.Valid() && WfDesc(d) && MsgOK(d, m) && Sized(d, m) && i < |d.fields|
    requires k == stream.KindOf() && FieldsPending(d, m, i, k, a, stream.View(), done)
    modifies stream, stream.dest
    ensures stream.Valid()
    ensures ok ==> FieldsPending(d, m, i + 1, k, a, stream.View(), done')
    ensures !ok ==> Sound(k, a) && Emits(k, a, false, EncFrom(d, m, 0), stream.View())
    decreases d, 2
  {
    assert Sound(k, a);
    hide Emits, Sound, EncField, EncFrom, MsgOK, Sized, WfDesc, Pending, Cat;
    done' := done;
    NextField(d, m, i);
    ghost var b := stream.View();
    ok := EncodeBasicField(stream, d, m, i);
    PendingStep(k, a, b, done, EncField(d, m, i), EncFrom(d, m, i + 1), EncFrom(d, m, 0), ok, stream.View());
    if ok {
      done' := done + EncField(d, m, i).value;
    }
  }

  /** The loop of pb_encode over the fields of a message that has some. */
  method EncodeFields(stream: OStream, d: Desc, m: Msg, iter: FieldIter) returns (ok: bool)
    requires stream.Valid() && WfDesc(d) && MsgOK(d, m) && Sized(d, m)
    requires iter.Valid() && iter.start == d.fields && iter.NonzeroTags() && iter.pos == 0 && d.fields != []
    modifies stream, stream.dest, iter
    ensures stream.Valid()
    ensures Emits(stream.KindOf(), old(stream.View()), ok, EncFrom(d, m, 0), stream.View())
    decreases d, 3
  {
    hide Emits, Sound, EncFrom, MsgOK, Sized, WfDesc, FieldsPending, RequiredBefore, DataAt;
    ghost var k, a := stream.KindOf(), stream.View();
    ghost var done: seq<byte> := [];
    NothingEmitted(d, m, k, a);
    var more := true;
    while more
      invariant iter.Valid() && iter.NonzeroTags() && stream.Valid()
      invariant FieldsPending(d, m, if more then iter.pos else |d.fields|, k, a, stream.View(), done)
      decreases more, |d.fields| - iter.pos
    {
      ok, done := EncodeAt(stream, d, m, iter.pos, k, a, done);
      if !ok {
        return;
      }
      more := iter.Next();
    }
    AllEmitted(d, m, k, a, stream.View(), done);
    return true;
  }

  lemma {:induction false} NothingEmitted(d: Desc, m: Msg, k: Kind, a: Snapshot)
    requires Sound(k, a)
    ensures FieldsPending(d, m, 0, k, a, a, [])
  {
    PendingStart(k, a, EncFrom(d, m, 0));
    hide EncFrom;
  }

  lemma {:induction false} AllEmitted(d: Desc, m: Msg, k: Kind, a: Snapshot, b: Snapshot, done: seq<byte>)
    requires FieldsPending(d, m, |d.fields|, k, a, b, done)
    ensures Sound(k, a) && Emits(k, a, true, EncFrom(d, m, 0), b)
  {
    PendingEnd(k, a, b, done, EncFrom(d, m, 0));
  }

  /** pb_get_encoded_size */
  method GetEncodedSize(d: Desc, m: Msg) returns (ok: bool, size: nat)
    requires WfDesc(d) && MsgOK(d, m) && Sized(d, m)
    ensures ok <==> EncMsg(d, m).Some?
    ensures ok ==> size == |EncMsg(d, m).value|
  {
    hide Emits, Sound, EncMsg, MsgOK, Sized, WfDesc;
    var stream := new OStream.Sizing();
    ghost var a := stream.View();
    ok := Encode(stream, d, m);
    size := stream.bytesWritten;
    CountingResult(a, ok, EncMsg(d, m), stream.View());
  }

  /** pb_encode_delimited */
  method EncodeDelimited(stream: OStream, d: Desc, m: Msg) returns (ok: bool)
    requires stream.Valid() && WfDesc(d) && MsgOK(d, m) && Sized(d, m) && Small(EncMsg(d, m))
    modifies stream, stream.dest
    ensures stream.Valid()
    ensures Emits(stream.KindOf(), old(stream.View()), ok, Framing.EncFramed(Framing.Delimited, d, m), stream.View())
  {
    ok := EncodeSubmessage(stream, d, m);
  }

  /** pb_encode_nullterminated */
  method EncodeNullTerminated(stream: OStream, d: Desc, m: Msg) returns (ok: bool)
    requires stream.Valid() && WfDesc(d) && MsgOK(d, m) && Sized(d, m)
    modifies stream, stream.dest
    ensures stream.Valid()
    ensures Emits(stream.KindOf(), old(stream.View()), ok, Framing.EncFramed(Framing.NullTerminated, d, m),
                  stream.View())
  {
    hide Emits, Sound, EncMsg, MsgOK, Sized, WfDesc;
    ghost var k, a, e := stream.KindOf(), stream.View(), EncMsg(d, m);
    ok := Encode(stream, d, m);
    ghost var b := stream.View();
    assert Cat(e, Some([0])) == Framing.EncFramed(Framing.NullTerminated, d, m);
    if !ok {
      EmitsFails(k, a, e, b, Some([0]));
      return;
    }
    EmittedSome(k, a, e, b);
    ok := stream.Write([0]);
    EmitsThen(k, a, e, b, ok, Some([0]), stream.View());
  }

  lemma {:induction false} EmittedSome(k: Kind, a: Snapshot, e: Option<seq<byte>>, b: Snapshot)
    requires Sound(k, a) && Emits(k, a, true, e, b)
    ensures e.Some?
  {
  }
}
