// The bytes of a record, an array and a message, spelled out with the numbers of the
// format: sections "Message Structure", "Signed Integers" and "Packed Repeated Fields".
module WireFormat {
  import opened Bits
  import opened Wire
  import opened Descriptors
  import opened EncodeSpec
  import opened Normal

  /** The wire type of a record that is not packed. */
  function WireNumber(t: LType): nat
  {
    match t
    case BOOL => 0
    case VARINT => 0
    case UVARINT => 0
    case SVARINT => 0
    case FIXED64 => 1
    case FIXED32 => 5
    case _ => 2
  }

  /** The first n bytes of b are the C string in an array of the given size. */
  predicate UpToNul(b: seq<byte>, size: nat, n: nat)
  {
    && n <= |b| && n <= size
    && (forall k :: 0 <= k < n ==> b[k] != 0)
    && (n == |b| || n == size || b[n] == 0)
  }

  lemma {:induction false} CStringMeaning(b: seq<byte>, size: nat)
    ensures UpToNul(b, size, |CString(b, size)|)
  {
    if b == [] || size == 0 || b[0] == 0 {
    } else {
      CStringMeaning(b[1..], size - 1);
    }
  }

  lemma {:induction false} UpToNulOnce(b: seq<byte>, size: nat, n: nat, n': nat)
    requires UpToNul(b, size, n) && UpToNul(b, size, n')
    ensures n == n'
  {
  }

  predicate Prefixed(b: seq<byte>, p: seq<byte>)
  {
    p == EncVarint(|b|) + b
  }

  /** p is what follows the tag of a record that holds v. */
  ghost predicate PayloadOf(f: Field, v: Value, p: seq<byte>)
  {
    match f.ltype
    case BOOL => p == [if NumIn(v) == 0 then 0 else 1]
    case VARINT => 0 <= NumIn(v) + 0x1_0000_0000_0000_0000
                   && p == EncVarint(if NumIn(v) >= 0 then NumIn(v) else NumIn(v) + 0x1_0000_0000_0000_0000)
    case UVARINT => NumIn(v) >= 0 && p == EncVarint(NumIn(v))
    case SVARINT => p == EncVarint(if NumIn(v) >= 0 then 2 * NumIn(v) else -2 * NumIn(v) - 1)
    case FIXED32 => NumIn(v) >= 0 && p == LittleEndian(NumIn(v), 4)
    case FIXED64 => NumIn(v) >= 0 && p == LittleEndian(NumIn(v), 8)
    case BYTES => |BytesIn(v)| + 4 <= f.dataSize && Prefixed(BytesIn(v), p)
    case STRING => exists n: nat :: UpToNul(BytesIn(v), f.dataSize, n) && Prefixed(BytesIn(v)[..n], p)
    case FIXED_LENGTH_BYTES => Prefixed(BytesIn(v), p)
    case SUBMESSAGE =>
      f.ptr.SubFields? && EncMsg(f.ptr.desc, MsgIn(v)).Some? && Prefixed(EncMsg(f.ptr.desc, MsgIn(v)).value, p)
  }

  lemma {:induction false} IntegerReduced(n: int, bits: nat)
    requires 0 < bits <= 64 && -Pow2(bits - 1) <= n < Pow2(bits - 1)
    ensures Unsigned(n, 64) == if n >= 0 then n else n + 0x1_0000_0000_0000_0000
    ensures -0x8000_0000_0000_0000 <= n < 0x8000_0000_0000_0000
  {
    hide Pow2;
    Pow2Constants();
    Pow2Table();
    Pow2Monotone(bits - 1, 63);
    ModUnique(n, TWO_64, if n >= 0 then 0 else -1, if n >= 0 then n else n + TWO_64);
  }

  lemma {:induction false} NaturalReduced(n: nat, bits: nat, wide: nat)
    requires bits <= wide && n < Pow2(bits)
    ensures Unsigned(n, wide) == n
  {
    Pow2Monotone(bits, wide);
    ModUnique(n, Pow2(wide), 0, n);
  }

  lemma {:induction false} ScalarPayload(f: Field, v: Value)
    requires WfField(f) && f.ltype != SUBMESSAGE && ScalarOK(f, v)
    ensures EncScalar(f, v).Some? <==> exists p :: PayloadOf(f, v, p)
    ensures EncScalar(f, v).Some? ==> PayloadOf(f, v, EncScalar(f, v).value)
  {
    hide Pow2;
    Pow2Constants();
    match f.ltype {
      case VARINT => IntegerReduced(v.n, 8 * f.dataSize);
      case UVARINT => NaturalReduced(v.n, 8 * f.dataSize, 64);
      case FIXED32 => NaturalReduced(v.n, 32, 32);
      case FIXED64 => NaturalReduced(v.n, 64, 64);
      case BYTES => ModUnique(f.dataSize - BYTES_HEADER, TWO_64, 0, f.dataSize - BYTES_HEADER);
      case STRING => CStringMeaning(v.bytes, f.dataSize);
      case _ =>
    }
    if EncScalar(f, v).Some? {
      assert PayloadOf(f, v, EncScalar(f, v).value);
    }
  }

  lemma {:induction false} PayloadOnce(f: Field, v: Value, p: seq<byte>, p': seq<byte>)
    requires PayloadOf(f, v, p) && PayloadOf(f, v, p')
    ensures p == p'
  {
    if f.ltype == STRING {
      var n: nat :| UpToNul(BytesIn(v), f.dataSize, n) && Prefixed(BytesIn(v)[..n], p);
      var n': nat :| UpToNul(BytesIn(v), f.dataSize, n') && Prefixed(BytesIn(v)[..n'], p');
      UpToNulOnce(BytesIn(v), f.dataSize, n, n');
    }
  }

  lemma {:induction false} ValuePayload(f: Field, v: Value)
    requires WfField(f) && ValueOK(f, v)
    ensures EncValue(f, v).Some? <==> exists p :: PayloadOf(f, v, p)
    ensures EncValue(f, v).Some? ==> PayloadOf(f, v, EncValue(f, v).value)
  {
    if f.ltype == SUBMESSAGE {
      var e := EncMsg(f.ptr.desc, v.msg);
      if e.Some? {
        assert PayloadOf(f, v, LenPrefixed(e.value));
      }
    } else {
      ScalarPayload(f, v);
      hide PayloadOf, ScalarOK;
    }
  }

  lemma {:induction false} FirstByte(v: nat)
    ensures EncVarint(v)[0] % 8 == v % 8
  {
  }

  /** What a record starts with */
  function TagBytes(f: Field, wireType: nat): seq<byte>
  {
    EncVarint(8 * f.tag + wireType)
  }

  // A record is its tag with the wire type of its field, and the payload; there is none
  // exactly when the value has no payload, which is for bytes that do not fit and for
  // submessages without encoding.
  lemma {:induction false} RecordBytes(f: Field, v: Value, p: seq<byte>)
    requires WfField(f) && ValueOK(f, v)
    ensures EncTagged(f, v).Some? <==> exists q :: PayloadOf(f, v, q)
    ensures PayloadOf(f, v, p) ==> EncTagged(f, v) == Some(TagBytes(f, WireNumber(f.ltype)) + p)
    ensures EncTagged(f, v).Some? ==> EncTagged(f, v).value[0] % 8 == WireNumber(f.ltype)
  {
    hide PayloadOf, EncValue, ValueOK, WfField, EncVarint;
    ValuePayload(f, v);
    if PayloadOf(f, v, p) {
      PayloadOnce(f, v, p, EncValue(f, v).value);
    }
    FirstByte(8 * f.tag + WireNumber(f.ltype));
  }

  // ---- arrays ----

  function Joined(parts: seq<seq<byte>>): seq<byte>
  {
    if parts == [] then [] else parts[0] + Joined(parts[1..])
  }

  ghost predicate Payloads(f: Field, items: seq<Value>, parts: seq<seq<byte>>)
  {
    |parts| == |items| && forall k :: 0 <= k < |items| ==> PayloadOf(f, items[k], parts[k])
  }

  function Records(f: Field, parts: seq<seq<byte>>): (r: seq<seq<byte>>)
    ensures |r| == |parts|
  {
    seq(|parts|, k requires 0 <= k < |parts| => TagBytes(f, WireNumber(f.ltype)) + parts[k])
  }

  lemma {:induction false} ElementsJoin(f: Field, items: seq<Value>) returns (parts: seq<seq<byte>>)
    requires WfField(f) && (forall k :: 0 <= k < |items| ==> ValueOK(f, items[k]))
    requires EncAll(f, items).Some? || EncEach(f, items).Some?
    ensures Payloads(f, items, parts)
    ensures EncAll(f, items) == Some(Joined(parts)) && EncEach(f, items) == Some(Joined(Records(f, parts)))
    decreases |items|
  {
    if items == [] {
      parts := [];
    } else {
      var more := ElementsJoin(f, items[1..]);
      ValuePayload(f, items[0]);
      var p := EncValue(f, items[0]).value;
      RecordBytes(f, items[0], p);
      parts := [p] + more;
      assert parts[1..] == more && Records(f, parts)[1..] == Records(f, more);
      hide PayloadOf, EncValue, ValueOK, WfField, EncTagged;
    }
  }

  // An array: nothing when empty, an error when too long, one record of wire type 2 with
  // the elements back to back for the scalar types, else one record per element.
  lemma {:induction false} ArrayBytes(f: Field, items: seq<Value>) returns (parts: seq<seq<byte>>)
    requires WfField(f) && forall k :: 0 <= k < |items| ==> ValueOK(f, items[k])
    ensures |items| == 0 ==> EncArray(f, items) == Some([])
    ensures |items| > f.arraySize ==> EncArray(f, items).None? || |items| == 0
    ensures 0 < |items| && EncArray(f, items).Some? ==>
      && Payloads(f, items, parts)
      && EncArray(f, items).value ==
         if f.ltype in {BOOL, VARINT, UVARINT, SVARINT, FIXED32, FIXED64}
         then TagBytes(f, 2) + (EncVarint(|Joined(parts)|) + Joined(parts))
         else Joined(Records(f, parts))
  {
    hide PayloadOf, ValueOK, WfField, EncVarint, EncAll, EncEach, Joined;
    parts := [];
    assert 0 < |items| <= f.arraySize ==>
      EncArray(f, items) == if Packable(f.ltype) then EncPacked(f, items) else EncEach(f, items);
    assert EncPacked(f, items).Some? ==> EncAll(f, items).Some?;
    if 0 < |items| && EncArray(f, items).Some? {
      parts := ElementsJoin(f, items);
    }
  }

  // ---- messages ----

  lemma {:induction false} FieldsJoin(d: Desc, m: Msg, i: nat) returns (parts: seq<seq<byte>>)
    requires i <= |d.fields| && EncFrom(d, m, i).Some?
    ensures |parts| == |d.fields| - i && EncFrom(d, m, i) == Some(Joined(parts))
    ensures forall k :: i <= k < |d.fields| ==> EncField(d, m, k) == Some(parts[k - i])
    decreases |d.fields| - i
  {
    if i == |d.fields| {
      parts := [];
    } else {
      var more := FieldsJoin(d, m, i + 1);
      parts := [EncField(d, m, i).value] + more;
      assert parts[1..] == more;
      hide EncField;
    }
  }

  // A message: its fields one after the other, in the order of the descriptors.
  lemma {:induction false} MessageBytes(d: Desc, m: Msg) returns (parts: seq<seq<byte>>)
    requires EncMsg(d, m).Some?
    ensures |parts| == |d.fields| && EncMsg(d, m) == Some(Joined(parts))
    ensures forall i :: 0 <= i < |d.fields| ==> EncField(d, m, i) == Some(parts[i])
  {
    parts := FieldsJoin(d, m, 0);
  }

  // ---- what is left out ----

  /** Field j of the struct m is not set; a singular field is set when it has bytes. */
  predicate NotSet(d: Desc, m: Msg, j: nat)
    requires j < |d.fields|
  {
    var f, s := d.fields[j], SlotOf(d, m, j);
    match f.htype
    case REQUIRED => false
    case REPEATED => f.sizeOffset != 0 && |ItemsIn(s)| == 0
    case ONEOF => WhichIn(s) == 0
    case OPTIONAL =>
      if f.sizeOffset != 0 then s.Opt? && !s.has else EncField(d, m, j) == Some([])
  }

  /** What of a proto3 field counts as nothing */
  predicate HoldsNothing(f: Field, v: Value)
  {
    match f.ltype
    case BYTES => |BytesIn(v)| == 0
    case STRING => |BytesIn(v)| == 0 || BytesIn(v)[0] == 0
    case FIXED_LENGTH_BYTES => f.dataSize == 0
    case SUBMESSAGE =>
      f.ptr.SubFields? ==> forall j :: 0 <= j < |f.ptr.desc.fields| ==> NotSet(f.ptr.desc, MsgIn(v), j)
    case _ => NumIn(v) == 0
  }

  lemma {:induction false} SingularBytes(d: Desc, m: Msg, i: nat)
    requires i < |d.fields| && IsSingular(d.fields[i])
    ensures EncField(d, m, i) == Some([]) <==> IsZero(d.fields[i], ValueIn(SlotOf(d, m, i)))
  {
    hide IsZero, EncTag;
    var f := d.fields[i];
    assert EncTagged(f, ValueIn(SlotOf(d, m, i))).Some? ==> |EncTagged(f, ValueIn(SlotOf(d, m, i))).value| > 0;
  }

  // A proto3 field without has-flag adds no bytes exactly when its number is 0, its
  // buffer is empty, or no field of its submessage is set.
  lemma {:induction false} SingularOmitted(d: Desc, m: Msg, i: nat)
    requires i < |d.fields| && IsSingular(d.fields[i])
    ensures EncField(d, m, i) == Some([]) <==> HoldsNothing(d.fields[i], ValueIn(SlotOf(d, m, i)))
  {
    var f := d.fields[i];
    SingularBytes(d, m, i);
    if f.ltype == SUBMESSAGE && f.ptr.SubFields? {
      var sub, x := f.ptr.desc, MsgIn(ValueIn(SlotOf(d, m, i)));
      forall j | 0 <= j < |sub.fields|
        ensures ProtoDefault(sub, x, j) <==> NotSet(sub, x, j)
      {
        if IsSingular(sub.fields[j]) {
          SingularBytes(sub, x, j);
        }
      }
      hide ProtoDefault, NotSet, EncField;
      assert IsZero(f, ValueIn(SlotOf(d, m, i))) == AllProtoDefault(sub, x);
    }
  }
}
