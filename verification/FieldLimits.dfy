// What the decoder of each scalar and buffer type accepts, and what it then stores, for
// every input and with the ranges written out.
module FieldLimits {
  import opened Bits
  import opened Wire
  import opened Descriptors
  import opened DecodeSpec

  /** The range of a signed integer of the given number of bytes. */
  predicate InRange(n: int, size: nat)
  {
    match size
    case 1 => -0x80 <= n < 0x80
    case 2 => -0x8000 <= n < 0x8000
    case 4 => -0x8000_0000 <= n < 0x8000_0000
    case 8 => -0x8000_0000_0000_0000 <= n < 0x8000_0000_0000_0000
    case _ => false
  }

  predicate InUnsignedRange(n: int, size: nat)
  {
    match size
    case 1 => 0 <= n < 0x100
    case 2 => 0 <= n < 0x1_0000
    case 4 => 0 <= n < 0x1_0000_0000
    case 8 => 0 <= n < 0x1_0000_0000_0000_0000
    case _ => false
  }

  /** A 64-bit varint as a signed number; fields of up to 32 bits look at its low half only. */
  function AsSigned(v: nat, size: nat): int
  {
    if size == 8 then
      if v < 0x8000_0000_0000_0000 then v else v - 0x1_0000_0000_0000_0000
    else
      var low := v % 0x1_0000_0000;
      if low < 0x8000_0000 then low else low - 0x1_0000_0000
  }

  predicate Payload(s: seq<byte>, b: seq<byte>, rest: seq<byte>)
  {
    var len := DecVarint32(s);
    len.Got? && len.rest == b + rest && |b| == len.value
  }

  /** Four bytes as a number, the lowest first */
  function Word(a: int, b: int, c: int, d: int): int
  {
    a + 0x100 * b + 0x1_0000 * c + 0x100_0000 * d
  }

  /** Decoding s into field f stores v and leaves rest. */
  predicate Stores(f: Field, s: seq<byte>, v: Value, rest: seq<byte>)
  {
    var r := DecVarint(s);
    match f.ltype
    case BOOL =>
      var r := DecVarint32(s);
      r.Got? && rest == r.rest && v == Num(if r.value == 0 then 0 else 1)
    case VARINT =>
      r.Got? && rest == r.rest && v == Num(AsSigned(r.value, f.dataSize)) && InRange(v.n, f.dataSize)
    case UVARINT =>
      r.Got? && rest == r.rest && v == Num(r.value) && InUnsignedRange(v.n, f.dataSize)
    case SVARINT =>
      && r.Got? && rest == r.rest && InRange(NumIn(v), f.dataSize)
      && v == Num(if r.value % 2 == 0 then r.value / 2 else -((r.value + 1) / 2))
    case FIXED32 =>
      |s| >= 4 && rest == s[4..] && v == Num(Word(s[0], s[1], s[2], s[3]))
    case FIXED64 =>
      && |s| >= 8 && rest == s[8..]
      && v == Num(Word(s[0], s[1], s[2], s[3]) + 0x1_0000_0000 * Word(s[4], s[5], s[6], s[7]))
    case BYTES => v.Buf? && Payload(s, v.bytes, rest) && |v.bytes| + 4 <= f.dataSize
    case STRING => v.Buf? && Payload(s, v.bytes, rest) && |v.bytes| + 1 <= f.dataSize
    case FIXED_LENGTH_BYTES =>
      && v.Buf? && |v.bytes| == f.dataSize
      && (Payload(s, v.bytes, rest) || (Payload(s, [], rest) && forall k :: 0 <= k < |v.bytes| ==> v.bytes[k] == 0))
    case SUBMESSAGE => false
  }

  lemma {:induction false} SignedKept(n: int, bits: nat)
    requires bits > 0
    ensures ToSigned(n, bits) == n <==> -Pow2(bits - 1) <= n < Pow2(bits - 1)
    ensures Pow2(bits) == 2 * Pow2(bits - 1)
  {
    if -Pow2(bits - 1) <= n < Pow2(bits - 1) {
      ToSignedInverts(n, bits);
    }
  }

  lemma {:induction false} RangeOf(size: nat)
    requires IntSize(size)
    ensures forall n: int :: InRange(n, size) <==> -Pow2(8 * size - 1) <= n < Pow2(8 * size - 1)
    ensures forall n: int :: InUnsignedRange(n, size) <==> 0 <= n < Pow2(8 * size)
  {
    Pow2Constants();
    Pow2Table();
    Pow2Add(7, 8);
    Pow2Add(15, 16);
    hide Pow2;
  }

  lemma {:induction false} NarrowIsSigned(v: nat, size: nat)
    requires v < TWO_64
    ensures NarrowSigned(v, size) == AsSigned(v, size)
  {
    hide Pow2;
    Pow2Constants();
    Pow2Table();
    Pow2Add(31, 1);
    Pow2One();
    if size == 8 {
      ModUnique(v, TWO_64, 0, v);
    }
  }

  lemma {:induction false} Pow2One()
    ensures Pow2(1) == 2
  {
  }

  lemma {:induction false} SignedStored(v: int, size: nat)
    requires IntSize(size)
    ensures ClampSigned(v, size) == if InRange(v, size) then Some(Num(v)) else None
  {
    hide Pow2;
    RangeOf(size);
    SignedKept(v, 8 * size);
  }

  lemma {:induction false} LittleEndianFour(s: seq<byte>)
    requires |s| == 4
    ensures FromLittleEndian(s) == Word(s[0], s[1], s[2], s[3])
  {
    assert s[1..][0] == s[1] && s[2..][0] == s[2] && s[3..][0] == s[3];
    assert s[1..][1..] == s[2..] && s[2..][1..] == s[3..] && s[3..][1..] == [];
    assert FromLittleEndian(s[3..]) == s[3];
    assert FromLittleEndian(s[2..]) == Word(s[2], s[3], 0, 0);
    assert FromLittleEndian(s[1..]) == Word(s[1], s[2], s[3], 0);
  }

  lemma {:induction false} LittleEndianSplit(s: seq<byte>, k: nat)
    requires k <= |s|
    ensures FromLittleEndian(s) == FromLittleEndian(s[..k]) + Pow2(8 * k) * FromLittleEndian(s[k..])
  {
    hide Pow2;
    if k == 0 {
      Pow2Zero();
      assert s[0..] == s;
    } else {
      LittleEndianSplit(s[1..], k - 1);
      assert s[..k][1..] == s[1..][..k - 1] && s[1..][k - 1..] == s[k..];
      Pow2Constants();
      Pow2Add(8, 8 * (k - 1));
      assert 8 + 8 * (k - 1) == 8 * k;
      Regrouped(Pow2(8 * (k - 1)), FromLittleEndian(s[k..]));
    }
  }

  lemma {:induction false} Regrouped(p: int, x: int)
    ensures 256 * (p * x) == 256 * p * x
  {
  }

  lemma {:induction false} LittleEndianEight(s: seq<byte>)
    requires |s| == 8
    ensures FromLittleEndian(s) == Word(s[0], s[1], s[2], s[3]) + 0x1_0000_0000 * Word(s[4], s[5], s[6], s[7])
  {
    hide FromLittleEndian, Pow2;
    LittleEndianSplit(s, 4);
    LittleEndianFour(s[..4]);
    LittleEndianFour(s[4..]);
    Pow2Constants();
  }

  lemma {:induction false} PayloadMeaning(s: seq<byte>, b: seq<byte>, rest: seq<byte>)
    ensures DecPayload(s) == Got(b, rest) <==> Payload(s, b, rest)
  {
    hide DecVarint32;
    var len := DecVarint32(s);
    if Payload(s, b, rest) {
      assert len.rest[..len.value] == b && len.rest[len.value..] == rest;
    }
  }

  lemma {:induction false} PayloadStored(f: Field, s: seq<byte>, v: Value, rest: seq<byte>)
    requires WfField(f) && f.ltype in {BYTES, STRING, FIXED_LENGTH_BYTES}
    ensures DecScalar(f, s) == Got(v, rest) <==> Stores(f, s, v, rest)
  {
    hide DecVarint32, DecVarint, DecPayload, Payload;
    PayloadMeaning(s, BytesIn(v), rest);
    PayloadMeaning(s, [], rest);
    if f.ltype == FIXED_LENGTH_BYTES && v.Buf? {
      assert v == ZeroOf(f) <==> |v.bytes| == f.dataSize && forall k :: 0 <= k < |v.bytes| ==> v.bytes[k] == 0;
    }
  }

  lemma {:induction false} NumberStored(f: Field, s: seq<byte>, v: Value, rest: seq<byte>)
    requires WfField(f) && f.ltype in {BOOL, VARINT, UVARINT, SVARINT, FIXED32, FIXED64}
    ensures DecScalar(f, s) == Got(v, rest) <==> Stores(f, s, v, rest)
  {
    hide DecVarint32, DecVarint, ClampSigned, NarrowSigned, FromLittleEndian, Pow2;
    var r := DecVarint(s);
    match f.ltype {
      case VARINT =>
        if r.Got? {
          NarrowIsSigned(r.value, f.dataSize);
          SignedStored(NarrowSigned(r.value, f.dataSize), f.dataSize);
        }
      case UVARINT => RangeOf(f.dataSize);
      case SVARINT => if r.Got? { SignedStored(UnZigZag(r.value), f.dataSize); }
      case FIXED32 => if |s| >= 4 { LittleEndianFour(s[..4]); }
      case FIXED64 => if |s| >= 8 { LittleEndianEight(s[..8]); }
      case _ =>
    }
  }

  // Exactly the inputs whose number is in the range of the field, or whose buffer has
  // room, are accepted.
  lemma {:induction false} ScalarStored(f: Field, s: seq<byte>, v: Value, rest: seq<byte>)
    requires WfField(f) && f.ltype != SUBMESSAGE
    ensures DecScalar(f, s) == Got(v, rest) <==> Stores(f, s, v, rest)
  {
    hide DecScalar, Stores;
    if f.ltype in {BYTES, STRING, FIXED_LENGTH_BYTES} {
      PayloadStored(f, s, v, rest);
    } else {
      NumberStored(f, s, v, rest);
    }
  }

  // The wire type with which a declared field arrives does not matter, except that it
  // tells a packed array.
  lemma {:induction false} WireTypeIgnored(f: Field, wt: nat, wt': nat, s: seq<byte>, slot: Slot)
    requires f.htype == REPEATED ==>
      (wt == 2 <==> wt' == 2) || f.ltype in {BYTES, STRING, SUBMESSAGE, FIXED_LENGTH_BYTES}
    ensures DecSlot(f, wt, s, slot) == DecSlot(f, wt', s, slot)
  {
  }
}
