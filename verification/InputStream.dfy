// pb_istream_t over a memory buffer, and the decoders that read from it.
// Each method is specified by the function of Wire that it computes on the
// unread bytes; `state + bytesLeft`, the end of the stream, never moves on success.
module InputStream {
  import opened Bits
  import opened Wire

  class IStream {
    const data: seq<byte>
    var state: nat
    var bytesLeft: nat

    predicate Valid()
      reads this
    {
      state + bytesLeft <= |data|
    }

    function Rest(): (s: seq<byte>)
      requires Valid()
      reads this
      ensures |s| == bytesLeft
    {
      data[state..state + bytesLeft]
    }

    function End(): nat
      reads this
    {
      state + bytesLeft
    }

    constructor FromBuffer(buf: seq<byte>, size: nat)
      requires size <= |buf|
      ensures Valid() && data == buf && Rest() == buf[..size] && state == 0
    {
      data := buf;
      state, bytesLeft := 0, size;
    }

    constructor Limited(s: IStream, size: nat)
      requires s.Valid() && size <= s.bytesLeft
      ensures Valid() && data == s.data && state == s.state && bytesLeft == size
    {
      data := s.data;
      state, bytesLeft := s.state, size;
    }

    /** pb_readbyte */
    method ReadByte() returns (r: Option<byte>)
      requires Valid()
      modifies this
      ensures Valid()
      ensures r.None? ==> old(bytesLeft) == 0 && state == old(state) && bytesLeft == 0
      ensures r.Some? ==> old(Rest()) == [r.value] + Rest() && End() == old(End())
    {
      if bytesLeft == 0 {
        return None;
      }
      r := Some(data[state]);
      state := state + 1;
      bytesLeft := bytesLeft - 1;
    }

    /** pb_read into a buffer */
    method Read(buf: array<byte>, count: nat) returns (ok: bool)
      requires Valid() && count <= buf.Length
      modifies this, buf
      ensures Valid()
      ensures ok <==> count <= old(bytesLeft)
      ensures ok ==> buf[..count] == old(Rest())[..count] && buf[count..] == old(buf[count..])
      ensures ok ==> Rest() == old(Rest())[count..] && End() == old(End())
      ensures !ok ==> state == old(state) && bytesLeft == old(bytesLeft)
    {
      if count == 0 {
        return true;
      }
      if bytesLeft < count {
        return false;
      }
      var i := 0;
      while i < count
        invariant i <= count && state == old(state) && bytesLeft == old(bytesLeft)
        invariant buf[..i] == data[state..state + i]
        invariant buf[count..] == old(buf[count..])
      {
        buf[i] := data[state + i];
        i := i + 1;
      }
      assert buf[..count] == data[state..state + count];
      state := state + count;
      bytesLeft := bytesLeft - count;
      return true;
    }

    /** pb_read without a buffer */
    method Skip(count: nat) returns (ok: bool)
      requires Valid()
      modifies this
      ensures Valid()
      ensures ok <==> count <= old(bytesLeft)
      ensures ok ==> Rest() == old(Rest())[count..] && End() == old(End())
      ensures !ok ==> state == old(state) && bytesLeft == old(bytesLeft)
    {
      if count == 0 {
        return true;
      }
      if bytesLeft < count {
        return false;
      }
      state := state + count;
      bytesLeft := bytesLeft - count;
      return true;
    }
  }

  /**
   * Whether or not decoding succeeds, the stream never grows and its position
   * stays within it.
   */
  twostate predicate Shrunk(stream: IStream)
    reads stream
  {
    stream.Valid() && stream.bytesLeft <= old(stream.bytesLeft) && stream.End() <= old(stream.End())
  }

  /**
   * The stream was advanced as p says: to p's rest if p succeeds.  The end of
   * the stream is kept, so the position moves by exactly the drop in bytesLeft.
   */
  twostate predicate Advanced<T>(stream: IStream, p: Parsed<T>)
    reads stream
  {
    && Shrunk(stream)
    && (p.Got? ==> stream.Rest() == p.rest && stream.End() == old(stream.End()))
  }

  function Outcome<T>(p: Parsed<T>): Option<T>
  {
    if p.Got? then Some(p.value) else None
  }

  // ---- varints ----

  lemma {:induction false} Base128Append(s: seq<byte>, b: byte)
    ensures Base128(s + [b]) == Base128(s) + b % 128 * Pow2(7 * |s|)
  {
    hide Pow2;
    if s == [] {
      assert [b][1..] == [];
      Pow2Zero();
    } else {
      var r := s[1..];
      Base128Append(r, b);
      assert (s + [b])[1..] == r + [b];
      Pow2Constants();
      Pow2Add(7, 7 * |r|);
      assert 7 + 7 * |r| == 7 * |s|;
      var g, p := b % 128, Pow2(7 * |r|);
      assert 128 * (g * p) == g * (128 * p);
    }
  }

  // OR-ing the next group into the result, at most ten times.
  lemma {:induction false} AddGroup(s: seq<byte>, b: byte)
    requires |s| <= 9
    ensures Or(Base128(s), b % 128 * Pow2(7 * |s|) % TWO_64) == Base128(s + [b]) % TWO_64
    ensures |s| <= 8 ==> Base128(s + [b]) < TWO_64
  {
    hide Base128, Or, Pow2;
    Base128Append(s, b);
    Base128Bound(s);
    if |s| <= 8 {
      AddLowGroup(Base128(s), b % 128, 7 * |s|);
    } else {
      assert 7 * |s| == 63;
      AddLastGroup(Base128(s), b % 128);
    }
  }

  lemma {:induction false} AddLowGroup(r: nat, g: nat, k: nat)
    requires k <= 56 && r < Pow2(k) && g < 128
    ensures Or(r, g * Pow2(k) % TWO_64) == (r + g * Pow2(k)) % TWO_64
    ensures 0 <= r + g * Pow2(k) < TWO_64
  {
    hide Pow2, Or;
    Pow2Table();
    Pow2Monotone(k, 56);
    var p := Pow2(k);
    ProductBound(g, p);
    OrDisjoint(r, g, k);
    SmallMod64(g * p);
    SmallMod64(r + g * p);
  }

  lemma {:induction false} AddLastGroup(r: nat, g: nat)
    requires r < Pow2(63) && g < 128
    ensures Or(r, g * Pow2(63) % TWO_64) == (r + g * Pow2(63)) % TWO_64
  {
    hide Pow2, Or;
    Pow2Table();
    OrDisjoint(r, g % 2, 63);
    LastGroup(g, r);
  }

  lemma {:induction false} SmallMod64(x: nat)
    requires x < TWO_64
    ensures x % TWO_64 == x
  {
  }

  lemma {:induction false} LastGroup(g: nat, r: nat)
    requires r < 0x8000_0000_0000_0000
    ensures g * 0x8000_0000_0000_0000 % TWO_64 == g % 2 * 0x8000_0000_0000_0000
    ensures (r + g * 0x8000_0000_0000_0000) % TWO_64 == r + g % 2 * 0x8000_0000_0000_0000
  {
  }

  lemma {:induction false} VarintLenStep(s: seq<byte>)
    requires s != []
    ensures VarintLen(s) == if s[0] < 128 then 1 else if VarintLen(s[1..]) == 0 then 0 else 1 + VarintLen(s[1..])
  {
  }

  /** What holds after k bytes of a varint were added to the result; `more` says whether it goes on. */
  ghost predicate VarintState(s: seq<byte>, k: nat, result: nat, more: bool)
  {
    && k <= |s| && k <= 10
    && result == Base128(s[..k]) % TWO_64
    && (k <= 9 ==> Base128(s[..k]) < TWO_64)
    && (if more then VarintLen(s) == if VarintLen(s[k..]) == 0 then 0 else k + VarintLen(s[k..])
        else k >= 1 && VarintLen(s) == k)
  }

  lemma {:induction false} VarintStateStep(s: seq<byte>, k: nat, result: nat)
    requires VarintState(s, k, result, true) && k < |s| && k <= 9
    ensures VarintState(s, k + 1, Or(result, s[k] % 128 * Pow2(7 * k) % TWO_64), s[k] >= 128)
  {
    assert s[..k + 1] == s[..k] + [s[k]];
    assert s[k..][1..] == s[k + 1..];
    AddGroup(s[..k], s[k]);
    VarintLenStep(s[k..]);
    SmallMod64(Base128(s[..k]));
    hide Base128, Or, Pow2, VarintLen;
  }

  /** pb_decode_varint */
  method DecodeVarint(stream: IStream) returns (r: Option<nat>)
    requires stream.Valid()
    modifies stream
    ensures r == Outcome(DecVarint(old(stream.Rest())))
    ensures Advanced(stream, DecVarint(old(stream.Rest())))
  {
    ghost var s := stream.Rest();
    ghost var k := 0;
    var bitpos := 0;
    var result: nat := 0;
    var byte: byte := 0x80;
    while byte >= 0x80
      invariant stream.Valid() && stream.End() == old(stream.End())
      invariant VarintState(s, k, result, byte >= 0x80)
      invariant stream.Rest() == s[k..] && bitpos == 7 * k
      decreases stream.bytesLeft, byte
    {
      if bitpos >= 64 {
        return None;
      }
      var next := stream.ReadByte();
      if next.None? {
        return None;
      }
      byte := next.value;
      VarintStateStep(s, k, result);
      hide Or, Pow2, Base128, VarintLen;
      result := Or(result, byte % 128 * Pow2(bitpos) % TWO_64);
      bitpos := bitpos + 7;
      k := k + 1;
    }
    return Some(result);
  }

  /** The result after one more byte, or None on overflow. */
  method AddVarint32Byte(byte: byte, bitpos: nat, result: nat) returns (r: Option<nat>)
    requires result < TWO_32
    ensures r == Varint32Step(byte, bitpos, result)
  {
    if bitpos >= 32 {
      // Trailing 0x80 bytes are allowed, and 0xFF for a negative number.
      var signExtension := if bitpos < 63 then 0xFF else 0x01;
      if byte % 128 != 0 && (result / 0x8000_0000 == 0 || byte != signExtension) {
        return None;
      }
      return Some(result);
    }
    return Some(Or(result, byte % 128 * Pow2(bitpos) % TWO_32));
  }

  /** pb_decode_varint32_eof; eof reports that the stream was already at its end. */
  method DecodeVarint32Eof(stream: IStream) returns (r: Option<nat>, eof: bool)
    requires stream.Valid()
    modifies stream
    ensures r == Outcome(DecVarint32(old(stream.Rest())))
    ensures Advanced(stream, DecVarint32(old(stream.Rest())))
    ensures eof <==> old(stream.bytesLeft) == 0
  {
    eof := false;
    var first := stream.ReadByte();
    if first.None? {
      if stream.bytesLeft == 0 {
        eof := true;
      }
      return None, eof;
    }
    var byte := first.value;
    var result: nat := byte;
    if byte >= 0x80 {
      hide Varint32Step;
      var bitpos: nat := 7;
      result := byte % 128;
      ghost var goal := DecVarint32(old(stream.Rest()));
      while true
        invariant stream.Valid() && stream.End() == old(stream.End())
        invariant Shrunk(stream)
        invariant result < TWO_32 && goal == DecVarint32More(stream.Rest(), bitpos, result)
        decreases stream.bytesLeft
      {
        var next := stream.ReadByte();
        if next.None? {
          return None, false;
        }
        byte := next.value;
        var added := AddVarint32Byte(byte, bitpos, result);
        if added.None? {
          return None, false;
        }
        result := added.value;
        bitpos := (bitpos + 7) % 256;
        if byte < 0x80 {
          break;
        }
      }
      if bitpos == 35 && byte / 16 % 8 != 0 {
        return None, false;
      }
    }
    return Some(result), false;
  }

  /** pb_decode_varint32 */
  method DecodeVarint32(stream: IStream) returns (r: Option<nat>)
    requires stream.Valid()
    modifies stream
    ensures r == Outcome(DecVarint32(old(stream.Rest())))
    ensures Advanced(stream, DecVarint32(old(stream.Rest())))
  {
    var eof;
    r, eof := DecodeVarint32Eof(stream);
  }

  // ---- integers ----

  /** pb_decode_svarint */
  method DecodeSVarint(stream: IStream) returns (r: Option<int>)
    requires stream.Valid()
    modifies stream
    ensures var p := DecVarint(old(stream.Rest()));
      r == if p.Got? then Some(UnZigZag(p.value)) else None
    ensures Advanced(stream, DecVarint(old(stream.Rest())))
  {
    var v := DecodeVarint(stream);
    if v.None? {
      return None;
    }
    var value := v.value;
    UnZigZagCast(value);
    // The casts to a signed 64-bit type, of ~(value >> 1) and of value >> 1.
    return Some(ToSigned(if value % 2 == 1 then TWO_64 - 1 - value / 2 else value / 2, 64));
  }

  lemma {:induction false} UnZigZagCast(v: nat)
    requires v < TWO_64
    ensures ToSigned(if v % 2 == 1 then TWO_64 - 1 - v / 2 else v / 2, 64) == UnZigZag(v)
  {
    Pow2Table();
    Pow2Add(63, 1);
    var w := if v % 2 == 1 then TWO_64 - 1 - v / 2 else v / 2;
    hide Pow2;
    SmallMod64(w);
  }

  /** The bytes shifted into place and OR-ed together, the first one least significant. */
  function OrBytes(s: seq<byte>): nat
  {
    if s == [] then 0
    else
      var n := |s| - 1;
      Or(OrBytes(s[..n]), s[n] * Pow2(8 * n))
  }

  lemma {:induction false} Carry256(x: nat, b: nat, p: nat)
    ensures 256 * (x + b * p) == 256 * x + b * (256 * p)
  {
  }

  lemma {:induction false} LittleEndianAppend(s: seq<byte>, b: byte)
    ensures FromLittleEndian(s + [b]) == FromLittleEndian(s) + b * Pow2(8 * |s|)
  {
    if s == [] {
      assert [b][1..] == [];
    } else {
      var r := s[1..];
      LittleEndianAppend(r, b);
      assert (s + [b])[1..] == r + [b];
      Pow2Constants();
      Pow2Add(8, 8 * |r|);
      Carry256(FromLittleEndian(r), b, Pow2(8 * |r|));
    }
  }

  lemma {:induction false} OrBytesIsLittleEndian(s: seq<byte>)
    ensures OrBytes(s) == FromLittleEndian(s)
  {
    if s == [] {
    } else {
      var n := |s| - 1;
      OrBytesIsLittleEndian(s[..n]);
      LittleEndianAppend(s[..n], s[n]);
      assert s == s[..n] + [s[n]];
      OrDisjoint(FromLittleEndian(s[..n]), s[n], 8 * n);
      hide Or, FromLittleEndian, Pow2;
    }
  }

  /** pb_decode_fixed32 and pb_decode_fixed64, for k == 4 and k == 8 */
  method DecodeFixed(stream: IStream, k: nat) returns (r: Option<nat>)
    requires stream.Valid()
    modifies stream
    ensures r == Outcome(DecFixed(old(stream.Rest()), k))
    ensures Advanced(stream, DecFixed(old(stream.Rest()), k))
  {
    var bytes := new byte[k];
    var ok := stream.Read(bytes, k);
    if !ok {
      return None;
    }
    assert bytes[..k] == bytes[..];
    OrBytesIsLittleEndian(bytes[..]);
    hide FromLittleEndian, OrBytes;
    return Some(OrBytes(bytes[..]));
  }

  // ---- tags, skipping and substreams ----

  /** pb_skip_varint */
  method SkipVarint(stream: IStream) returns (ok: bool)
    requires stream.Valid()
    modifies stream
    ensures ok <==> SkipField(WT_VARINT, old(stream.Rest())).Got?
    ensures Advanced(stream, SkipField(WT_VARINT, old(stream.Rest())))
  {
    ghost var s := stream.Rest();
    ghost var k := 0;
    var buf := new byte[1];
    buf[0] := 0x80;
    while buf[0] >= 0x80
      invariant stream.Valid() && stream.End() == old(stream.End())
      invariant k <= |s| && stream.Rest() == s[k..] && fresh(buf) && buf.Length == 1
      invariant if buf[0] >= 0x80 then VarintLen(s) == if VarintLen(s[k..]) == 0 then 0 else k + VarintLen(s[k..])
                else k >= 1 && VarintLen(s) == k
      decreases stream.bytesLeft, buf[0]
    {
      ok := stream.Read(buf, 1);
      if !ok {
        return;
      }
      assert buf[..1][0] == s[k..][0];
      VarintLenStep(s[k..]);
      hide VarintLen;
      assert s[k..][1..] == s[k + 1..];
      k := k + 1;
    }
    return true;
  }

  /** pb_skip_string */
  method SkipString(stream: IStream) returns (ok: bool)
    requires stream.Valid()
    modifies stream
    ensures ok <==> SkipField(WT_STRING, old(stream.Rest())).Got?
    ensures Advanced(stream, SkipField(WT_STRING, old(stream.Rest())))
  {
    var length := DecodeVarint32(stream);
    if length.None? {
      return false;
    }
    ok := stream.Skip(length.value);
  }

  /** pb_skip_field */
  method Skip(stream: IStream, wt: nat) returns (ok: bool)
    requires stream.Valid()
    modifies stream
    ensures ok <==> SkipField(wt, old(stream.Rest())).Got?
    ensures Advanced(stream, SkipField(wt, old(stream.Rest())))
    ensures ok <==> exists rest :: Skips(wt, old(stream.Rest()), rest)
    ensures ok ==> Skips(wt, old(stream.Rest()), stream.Rest())
  {
    SkipMeaning(wt, stream.Rest());
    if wt == WT_VARINT {
      ok := SkipVarint(stream);
    } else if wt == WT_64BIT {
      ok := stream.Skip(8);
    } else if wt == WT_STRING {
      ok := SkipString(stream);
    } else if wt == WT_32BIT {
      ok := stream.Skip(4);
    } else {
      ok := false;
    }
  }

  /** pb_decode_tag; eof is also set for the zero that ends a null-terminated message. */
  method DecodeTag(stream: IStream) returns (ok: bool, wt: nat, tag: nat, eof: bool)
    requires stream.Valid()
    modifies stream
    ensures var p := DecTag(old(stream.Rest()));
      && (ok <==> p.Got? && p.value.Tag?)
      && (ok ==> p.value == Tag(tag, wt))
      && (eof <==> old(stream.bytesLeft) == 0 || (p.Got? && p.value.Zero?))
    ensures Advanced(stream, DecTag(old(stream.Rest())))
  {
    wt, tag := 0, 0;
    var temp;
    temp, eof := DecodeVarint32Eof(stream);
    if temp.None? {
      return false, wt, tag, eof;
    }
    if temp.value == 0 {
      return false, wt, tag, true;
    }
    return true, temp.value % 8, temp.value / 8, eof;
  }

  /**
   * pb_make_string_substream: sub reads the payload, and stream's count already
   * excludes it although its position still points to it.
   */
  method MakeSubstream(stream: IStream) returns (sub: IStream?)
    requires stream.Valid()
    modifies stream
    ensures var p := DecPayload(old(stream.Rest()));
      && Shrunk(stream)
      && (sub != null <==> p.Got?)
      && (sub != null ==>
            && fresh(sub) && sub.Valid() && sub.data == stream.data && sub.Rest() == p.value
            && sub.End() + stream.bytesLeft == old(stream.End())
            && stream.data[sub.End()..sub.End() + stream.bytesLeft] == p.rest)
  {
    hide DecVarint32;
    sub := null;
    var size := DecodeVarint32(stream);
    if size.None? || stream.bytesLeft < size.value {
      return;
    }
    ghost var rest := stream.Rest();
    sub := new IStream.Limited(stream, size.value);
    stream.bytesLeft := stream.bytesLeft - size.value;
    assert sub.Rest() == rest[..size.value];
  }

  /** pb_close_string_substream: stream continues where the substream ends. */
  method CloseSubstream(stream: IStream, sub: IStream) returns (ok: bool)
    requires stream != sub && stream.Valid() && sub.Valid() && stream.data == sub.data
    requires sub.End() + stream.bytesLeft <= |stream.data|
    modifies stream, sub
    ensures ok && stream.Valid() && stream.bytesLeft == old(stream.bytesLeft) && stream.state == old(sub.End())
  {
    ok := true;
    if sub.bytesLeft != 0 {
      ok := sub.Skip(sub.bytesLeft);
    }
    stream.state := sub.state;
  }
}
