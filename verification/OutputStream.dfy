// pb_ostream_t: a stream that writes to a memory buffer, or only counts when it
// has no write callback, and the encoders of single values.
module OutputStream {
  import opened Bits
  import opened Wire
  import opened EncodeSpec

  /** The observable state of a stream: its buffer, the position in it, and the byte count. */
  datatype Snapshot = Snapshot(buf: seq<byte>, state: nat, written: nat)

  /** A counting stream has no buffer; a writing one accepts maxSize bytes in all. */
  datatype Kind = Counting | Writing(maxSize: nat)

  /** The window that a writing stream may still use lies within its buffer. */
  predicate Sound(k: Kind, a: Snapshot)
  {
    k.Writing? ==> a.written <= k.maxSize && a.state + (k.maxSize - a.written) <= |a.buf|
  }

  /**
   * Emitting the bytes e (None: not encodable) takes a stream from state a to b.
   * A counting stream accepts everything; a writing stream accepts exactly what
   * fits, puts it at its position, and changes nothing outside its window even
   * when it fails.
   */
  predicate Emits(k: Kind, a: Snapshot, ok: bool, e: Option<seq<byte>>, b: Snapshot)
    requires Sound(k, a)
  {
    && (ok <==> e.Some? && (k.Writing? ==> a.written + |e.value| <= k.maxSize))
    && (ok ==> b.written == a.written + |e.value|)
    && (k.Writing? ==>
          var limit := a.state + (k.maxSize - a.written);
          && |b.buf| == |a.buf| && b.written <= k.maxSize
          && a.state <= b.state && b.state + (k.maxSize - b.written) == limit
          && b.buf[..a.state] == a.buf[..a.state] && b.buf[limit..] == a.buf[limit..]
          && (ok ==> b.buf[a.state..b.state] == e.value))
  }

  lemma {:induction false} EmitsNothing(k: Kind, a: Snapshot)
    requires Sound(k, a)
    ensures Emits(k, a, true, Some([]), a)
  {
  }

  // Output one after the other is output of the concatenation.
  lemma {:induction false} EmitsThen(k: Kind, a: Snapshot, e1: Option<seq<byte>>, b: Snapshot, ok: bool,
                                     e2: Option<seq<byte>>, c: Snapshot)
    requires Sound(k, a) && Emits(k, a, true, e1, b)
    requires Sound(k, b) && Emits(k, b, ok, e2, c)
    ensures Emits(k, a, ok, Cat(e1, e2), c)
  {
    if k.Writing? {
      var limit := a.state + (k.maxSize - a.written);
      assert c.buf[..a.state] == c.buf[..b.state][..a.state];
      if ok {
        assert c.buf[a.state..c.state] == c.buf[..b.state][a.state..] + c.buf[b.state..c.state];
        assert c.buf[..b.state][a.state..] == b.buf[..b.state][a.state..] == b.buf[a.state..b.state];
      }
    }
  }

  lemma {:induction false} EmitsFails(k: Kind, a: Snapshot, e1: Option<seq<byte>>, b: Snapshot, e2: Option<seq<byte>>)
    requires Sound(k, a) && Emits(k, a, false, e1, b)
    ensures Emits(k, a, false, Cat(e1, e2), b)
  {
  }

  class OStream {
    const dest: array?<byte>     // null: no callback, the stream only counts
    var state: nat
    const maxSize: nat
    var bytesWritten: nat

    function KindOf(): Kind
    {
      if dest == null then Counting else Writing(maxSize)
    }

    function View(): Snapshot
      reads this, dest
    {
      Snapshot(if dest == null then [] else dest[..], state, bytesWritten)
    }

    predicate Valid()
      reads this, dest
    {
      Sound(KindOf(), View())
    }

    /** pb_ostream_from_buffer */
    constructor FromBuffer(buf: array<byte>, size: nat)
      requires size <= buf.Length
      ensures Valid() && dest == buf && state == 0 && maxSize == size && bytesWritten == 0
    {
      dest, state, maxSize, bytesWritten := buf, 0, size, 0;
    }

    /** PB_OSTREAM_SIZING */
    constructor Sizing()
      ensures Valid() && dest == null && bytesWritten == 0
    {
      dest, state, maxSize, bytesWritten := null, 0, 0, 0;
    }

    /** A substream that writes where s does, but at most size bytes. */
    constructor Limited(s: OStream, size: nat)
      requires s.Valid() && s.dest != null && s.bytesWritten + size <= s.maxSize
      ensures Valid() && dest == s.dest && state == s.state && maxSize == size && bytesWritten == 0
    {
      dest, state, maxSize, bytesWritten := s.dest, s.state, size, 0;
    }

    /** pb_write */
    method Write(buf: seq<byte>) returns (ok: bool)
      requires Valid()
      modifies this, dest
      ensures Valid() && Emits(KindOf(), old(View()), ok, Some(buf), View())
    {
      if |buf| > 0 && dest != null {
        if bytesWritten + |buf| > maxSize {
          return false;
        }
        BufWrite(buf);
      }
      bytesWritten := bytesWritten + |buf|;
      return true;
    }

    /** pb_write(stream, NULL, size) on a counting stream */
    method Count(size: nat)
      requires Valid() && dest == null
      modifies this
      ensures Valid() && bytesWritten == old(bytesWritten) + size
    {
      bytesWritten := bytesWritten + size;
    }

    /** buf_write */
    method BufWrite(buf: seq<byte>)
      requires dest != null && state + |buf| <= dest.Length
      modifies this`state, dest
      ensures state == old(state) + |buf|
      ensures dest[..old(state)] == old(dest[..state]) && dest[old(state)..state] == buf
      ensures dest[state..] == old(dest[state + |buf|..])
    {
      var at := state;
      state := at + |buf|;
      var i := 0;
      while i < |buf|
        invariant i <= |buf| && state == old(state) + |buf|
        invariant dest[..at] == old(dest[..state]) && dest[at..at + i] == buf[..i]
        invariant dest[at + i..] == old(dest[state..])[i..]
      {
        dest[at + i] := buf[i];
        i := i + 1;
      }
    }
  }

  // ---- values ----

  /** pb_encode_varint */
  method EncodeVarint(stream: OStream, value: nat) returns (ok: bool)
    requires stream.Valid() && value < TWO_64
    modifies stream, stream.dest
    ensures stream.Valid() && Emits(stream.KindOf(), old(stream.View()), ok, Some(EncVarint(value)), stream.View())
  {
    if value <= 0x7F {
      ok := stream.Write([value]);
      return;
    }
    hide EncVarint;
    var buffer := new byte[10];
    var size := FillVarint(buffer, value);
    ok := stream.Write(buffer[..size]);
  }

  /** The loop of pb_encode_varint, which also clears the last continuation bit. */
  method FillVarint(buffer: array<byte>, value: nat) returns (i: nat)
    requires 0 < value < TWO_64 && buffer.Length == 10
    modifies buffer
    ensures i <= 10 && buffer[..i] == EncVarint(value)
  {
    hide Filling, EncVarint;
    i := 0;
    var v := value;
    EncVarintAtMostTen(value);
    FillStart(buffer[..0], value);
    while v != 0
      invariant i <= 10 && Filling(buffer[..i], v, value)
      decreases v
    {
      FillStep(buffer[..i], v, value);
      buffer[i] := v % 128 + 128;
      assert buffer[..i + 1] == buffer[..i] + [(v % 128 + 128) as byte];
      v := v / 128;
      i := i + 1;
    }
    FillEnd(buffer[..i], value);
    ghost var last := buffer[i - 1];
    buffer[i - 1] := buffer[i - 1] % 128;
    assert buffer[..i] == buffer[..i - 1] + [last % 128];
  }

  /** b holds the low groups of value, all with the continuation bit; v is what remains. */
  predicate Filling(b: seq<byte>, v: nat, value: nat)
  {
    if v != 0 then b + EncVarint(v) == EncVarint(value)
    else |b| > 0 && b[..|b| - 1] + [b[|b| - 1] % 128] == EncVarint(value)
  }

  lemma {:induction false} FillStart(b: seq<byte>, value: nat)
    requires b == [] && value != 0
    ensures Filling(b, value, value)
  {
  }

  lemma {:induction false} FillStep(b: seq<byte>, v: nat, value: nat)
    requires v != 0 && Filling(b, v, value) && |EncVarint(value)| <= 10
    ensures |b| < 10 && Filling(b + [v % 128 + 128], v / 128, value)
  {
    var c := b + [v % 128 + 128];
    if v < 128 {
      assert c[..|c| - 1] == b;
    } else {
      assert c + EncVarint(v / 128) == b + EncVarint(v);
    }
  }

  lemma {:induction false} FillEnd(b: seq<byte>, value: nat)
    requires Filling(b, 0, value)
    ensures |b| > 0 && b[..|b| - 1] + [b[|b| - 1] % 128] == EncVarint(value)
  {
  }

  /** pb_encode_svarint: ~((uint64_t)value << 1) for a negative value. */
  method EncodeSVarint(stream: OStream, value: int) returns (ok: bool)
    requires stream.Valid() && -0x8000_0000_0000_0000 <= value < 0x8000_0000_0000_0000
    modifies stream, stream.dest
    ensures stream.Valid()
    ensures Emits(stream.KindOf(), old(stream.View()), ok, Some(EncVarint(ZigZag(value))), stream.View())
  {
    var shifted := (value % TWO_64) * 2 % TWO_64;
    var zigzagged := if value < 0 then TWO_64 - 1 - shifted else shifted;
    assert zigzagged == ZigZag(value);
    ok := EncodeVarint(stream, zigzagged);
  }

  lemma {:induction false} LittleEndianAt(v: nat, k: nat, i: nat)
    requires i < k
    ensures LittleEndian(v, k)[i] == v / Pow2(8 * i) % 256
  {
    if i == 0 {
    } else {
      LittleEndianAt(v / 256, k - 1, i - 1);
      Pow2Constants();
      Pow2Add(8, 8 * (i - 1));
      DivDiv(v, 256, Pow2(8 * (i - 1)));
    }
  }

  lemma {:induction false} DivDiv(v: nat, a: int, b: int)
    requires a >= 1 && b >= 1
    ensures v / a / b == v / (a * b)
  {
    var q, r := v / a / b, v / a % b;
    assert v == (q * b + r) * a + v % a;
    assert v == q * (a * b) + (r * a + v % a) by {
      assert (q * b + r) * a == q * (a * b) + r * a;
    }
    assert r * a <= (b - 1) * a;
    DivModUnique(v, a * b, q, r * a + v % a);
  }

  /** pb_encode_fixed32 and pb_encode_fixed64, for k == 4 and k == 8 */
  method EncodeFixed(stream: OStream, value: nat, k: nat) returns (ok: bool)
    requires stream.Valid()
    modifies stream, stream.dest
    ensures stream.Valid()
    ensures Emits(stream.KindOf(), old(stream.View()), ok, Some(LittleEndian(value, k)), stream.View())
  {
    var bytes := seq(k, i requires 0 <= i < k => (value / Pow2(8 * i) % 256) as byte);
    forall i | 0 <= i < k
      ensures bytes[i] == LittleEndian(value, k)[i]
    {
      LittleEndianAt(value, k, i);
    }
    assert bytes == LittleEndian(value, k);
    ok := stream.Write(bytes);
  }

  /** pb_encode_tag */
  method EncodeTag(stream: OStream, wt: nat, fieldNumber: nat) returns (ok: bool)
    requires stream.Valid() && fieldNumber < TWO_32 && wt < 8
    modifies stream, stream.dest
    ensures stream.Valid()
    ensures Emits(stream.KindOf(), old(stream.View()), ok, Some(EncTag(wt, fieldNumber)), stream.View())
  {
    ok := EncodeVarint(stream, fieldNumber * 8 + wt);
  }

  /** pb_encode_string */
  method EncodeString(stream: OStream, buffer: seq<byte>) returns (ok: bool)
    requires stream.Valid() && |buffer| < TWO_64
    modifies stream, stream.dest
    ensures stream.Valid()
    ensures Emits(stream.KindOf(), old(stream.View()), ok, Some(LenPrefixed(buffer)), stream.View())
  {
    hide Emits, EncVarint, Sound;
    ghost var a, k := stream.View(), stream.KindOf();
    ok := EncodeVarint(stream, |buffer|);
    ghost var b := stream.View();
    if !ok {
      EmitsFails(k, a, Some(EncVarint(|buffer|)), b, Some(buffer));
      return;
    }
    ok := stream.Write(buffer);
    EmitsThen(k, a, Some(EncVarint(|buffer|)), b, ok, Some(buffer), stream.View());
  }
}
