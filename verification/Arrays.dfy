// Scalars and arrays: what is encoded is decoded, and for arrays the way the
// elements are cut into records does not matter.
module Arrays {
  import opened Bits
  import opened Wire
  import opened Descriptors
  import opened EncodeSpec
  import opened DecodeSpec
  import opened Normal
  import opened Merge

  // ---- integers ----

  lemma {:induction false} IntSizes(size: nat)
    requires IntSize(size)
    ensures 8 * size == 64 || 8 * size == 32 || 8 * size == 16 || 8 * size == 8
    ensures Pow2(8 * size - 1) <= Pow2(63) && (size != 8 ==> Pow2(8 * size - 1) <= Pow2(31))
  {
    hide Pow2;
    Pow2Monotone(8 * size - 1, 63);
    if size != 8 {
      Pow2Monotone(8 * size - 1, 31);
    }
  }

  // Truncating a 64-bit two's-complement number to 32 bits keeps its value.
  lemma {:induction false} SignedSurvives(n: int, size: nat)
    requires IntSize(size) && InSigned(n, 8 * size)
    ensures NarrowSigned(Unsigned(n, 64), size) == n
  {
    hide Pow2, ToSigned;
    IntSizes(size);
    Pow2Add(32, 32);
    Pow2Constants();
    var u := Unsigned(n, 64);
    ToSignedInverts(n, 64);
    if size == 8 {
      ToSignedTwice(n, 64, 64);
    } else {
      ToSignedTwice(n, 32, 64);
    }
  }

  lemma {:induction false} ToSignedTwice(n: int, bits: nat, wide: nat)
    requires 0 < bits <= wide && InSigned(n, bits)
    ensures ToSigned(n % Pow2(wide), bits) == n
  {
    ToSignedInverts(n, bits);
    Pow2Add(bits, wide - bits);
    assert (n % Pow2(wide)) % Pow2(bits) == n % Pow2(bits) by {
      ModOfMod(n, Pow2(bits), Pow2(wide - bits));
    }
  }

  lemma {:induction false} ModOfMod(n: int, a: int, b: int)
    requires a >= 1 && b >= 1
    ensures (n % (a * b)) % a == n % a
  {
    var r := n % a;
    var m := n % (a * b);
    var q := n / (a * b);
    assert n == q * (a * b) + m;
    assert n == (n / a) * a + r;
    assert m == (n / a - q * b) * a + r by {
      assert q * (a * b) == (q * b) * a;
      assert (n / a - q * b) * a == (n / a) * a - (q * b) * a;
    }
    ModUnique(m, a, n / a - q * b, r);
  }

  lemma {:induction false} UnsignedFits(n: nat, size: nat)
    requires IntSize(size) && n < Pow2(8 * size)
    ensures n < TWO_64 && Unsigned(n, 64) == n
  {
    Pow2Monotone(8 * size, 64);
    Pow2Constants();
    ModUnique(n, Pow2(64), 0, n);
  }

  lemma {:induction false} SignedZigZag(n: int, size: nat)
    requires IntSize(size) && InSigned(n, 8 * size)
    ensures ZigZag(n) < TWO_64
  {
    IntSizes(size);
    Pow2Table();
  }

  // ---- scalars ----

  lemma {:induction false} VarintFieldRoundTrip(f: Field, v: Value, t: seq<byte>)
    requires f.ltype == VARINT && ScalarOK(f, v) && IntSize(f.dataSize)
    ensures DecScalar(f, EncScalar(f, v).value + t) == Got(v, t)
  {
    SignedSurvives(v.n, f.dataSize);
    Pow2Constants();
    VarintRoundTrip(Unsigned(v.n, 64), t);
    ToSignedInverts(v.n, 8 * f.dataSize);
    hide DecVarint, EncVarint, Unsigned, NarrowSigned, ToSigned;
  }

  lemma {:induction false} UVarintFieldRoundTrip(f: Field, v: Value, t: seq<byte>)
    requires f.ltype == UVARINT && ScalarOK(f, v) && IntSize(f.dataSize)
    ensures DecScalar(f, EncScalar(f, v).value + t) == Got(v, t)
  {
    UnsignedFits(v.n, f.dataSize);
    VarintRoundTrip(v.n, t);
    hide DecVarint, EncVarint, Unsigned;
  }

  lemma {:induction false} SVarintFieldRoundTrip(f: Field, v: Value, t: seq<byte>)
    requires f.ltype == SVARINT && ScalarOK(f, v) && IntSize(f.dataSize)
    ensures DecScalar(f, EncScalar(f, v).value + t) == Got(v, t)
  {
    SignedZigZag(v.n, f.dataSize);
    ZigZagRoundTrip(v.n);
    VarintRoundTrip(ZigZag(v.n), t);
    ToSignedInverts(v.n, 8 * f.dataSize);
    hide DecVarint, EncVarint, ZigZag, UnZigZag, ToSigned;
  }

  lemma {:induction false} NumberRoundTrip(f: Field, v: Value, t: seq<byte>)
    requires f.ltype in {BOOL, FIXED32, FIXED64} && ScalarOK(f, v)
    ensures EncScalar(f, v).Some?
    ensures DecScalar(f, EncScalar(f, v).value + t) == Got(v, t)
  {
    Pow2Constants();
    match f.ltype
    case BOOL =>
      Varint32Small(v.n, t);
      hide DecVarint32, EncVarint;
    case FIXED32 =>
      ModUnique(v.n, Pow2(32), 0, v.n);
      FixedRoundTrip(v.n, 4, t);
      hide DecFixed, LittleEndian;
    case FIXED64 =>
      ModUnique(v.n, Pow2(64), 0, v.n);
      FixedRoundTrip(v.n, 8, t);
      hide DecFixed, LittleEndian;
    case _ =>
  }

  lemma {:induction false} BufferRoundTrip(f: Field, v: Value, t: seq<byte>)
    requires f.ltype in {BYTES, FIXED_LENGTH_BYTES} && ScalarOK(f, v) && WfField(f)
    requires EncScalar(f, v).Some? && |EncScalar(f, v).value| < TWO_32
    ensures DecScalar(f, EncScalar(f, v).value + t) == Got(v, t)
  {
    var b := v.bytes;
    assert EncScalar(f, v).value == LenPrefixed(b);
    PayloadRoundTrip(b, t);
    hide DecPayload, LenPrefixed;
    if f.ltype == BYTES {
      ModUnique(f.dataSize - BYTES_HEADER, TWO_64, 0, f.dataSize - BYTES_HEADER);
    } else if b == [] {
      assert ZeroOf(f) == v;
    }
  }

  // A string is rejected by the decoder exactly when it fills its array.
  lemma {:induction false} StringRoundTrip(f: Field, v: Value, t: seq<byte>)
    requires f.ltype == STRING
    requires |EncScalar(f, v).value| < TWO_32
    ensures DecScalar(f, EncScalar(f, v).value + t)
         == if FitsScalar(f, v) then Got(NormScalar(f, v), t) else Fail
  {
    var b := CString(BytesIn(v), f.dataSize);
    assert EncScalar(f, v).value == LenPrefixed(b);
    PayloadRoundTrip(b, t);
    hide DecPayload, LenPrefixed, CString;
  }

  lemma {:induction false} ScalarRoundTrip(f: Field, v: Value, t: seq<byte>)
    requires WfField(f) && ScalarOK(f, v)
    requires EncScalar(f, v).Some? && |EncScalar(f, v).value| < TWO_32
    ensures DecScalar(f, EncScalar(f, v).value + t)
         == if FitsScalar(f, v) then Got(NormScalar(f, v), t) else Fail
  {
    match f.ltype
    case VARINT => VarintFieldRoundTrip(f, v, t);
    case UVARINT => UVarintFieldRoundTrip(f, v, t);
    case SVARINT => SVarintFieldRoundTrip(f, v, t);
    case BOOL => NumberRoundTrip(f, v, t);
    case FIXED32 => NumberRoundTrip(f, v, t);
    case FIXED64 => NumberRoundTrip(f, v, t);
    case STRING => StringRoundTrip(f, v, t);
    case _ => BufferRoundTrip(f, v, t);
  }

  // ---- one array field ----

  /** The loop state with `items` in the array of field i. */
  function WithItems(d: Desc, i: nat, st: DState, items: seq<Value>): DState
    requires i < |d.fields|
  {
    st.(msg := SetSlot(d, st.msg, i, Rep(items)))
  }

  /** Array i holds acc and more elements are appended to it; true of every counted array. */
  predicate Receiving(d: Desc, i: nat, st: DState, acc: seq<Value>)
  {
    && i < |d.fields| && d.fields[i].htype == REPEATED
    && |st.msg| == |d.fields| && SlotOf(d, st.msg, i) == Rep(acc)
    && Begin(d, i, st) == Some(st)
  }

  lemma {:induction false} StillReceiving(d: Desc, i: nat, st: DState, acc: seq<Value>, items: seq<Value>)
    requires Receiving(d, i, st, acc)
    ensures Receiving(d, i, WithItems(d, i, st, items), items)
  {
  }

  lemma {:induction false} WithItemsTwice(d: Desc, i: nat, st: DState, items: seq<Value>, items': seq<Value>)
    requires i < |d.fields|
    ensures WithItems(d, i, WithItems(d, i, st, items), items') == WithItems(d, i, st, items')
  {
    assert SetSlot(d, SetSlot(d, st.msg, i, Rep(items)), i, Rep(items')) == SetSlot(d, st.msg, i, Rep(items'));
  }

  /** Wherever it is read into fresh storage, the encoding of v yields its normal form. */
  ghost predicate ItemDecodes(f: Field, v: Value)
  {
    && EncValue(f, v).Some?
    && forall u: seq<byte> :: DecValue(f, EncValue(f, v).value + u, Unset)
                           == if FitsValue(f, v) then Got(NormValue(f, v), u) else Fail
  }

  ghost predicate ItemsDecode(f: Field, items: seq<Value>)
  {
    forall k :: 0 <= k < |items| ==> ItemDecodes(f, items[k])
  }

  predicate AllFit(f: Field, items: seq<Value>)
  {
    forall k :: 0 <= k < |items| ==> FitsValue(f, items[k])
  }

  lemma {:induction false} PackableDecodes(f: Field, v: Value)
    requires WfField(f) && Packable(f.ltype) && ScalarOK(f, v)
    requires EncScalar(f, v).Some? && |EncScalar(f, v).value| < TWO_32
    ensures ItemDecodes(f, v) && FitsValue(f, v) && NormValue(f, v) == v
  {
    forall u: seq<byte>
      ensures DecValue(f, EncValue(f, v).value + u, Unset) == Got(v, u)
    {
      ScalarRoundTrip(f, v, u);
    }
  }

  // The elements of a packed array, appended to acc.
  lemma {:induction false} PackedItems(f: Field, items: seq<Value>, acc: seq<Value>)
    requires Packable(f.ltype) && ItemsDecode(f, items) && AllFit(f, items)
    requires EncAll(f, items).Some?
    ensures DecItems(f, EncAll(f, items).value, acc)
         == if |items| == 0 || |acc| + |items| <= f.arraySize then Some(acc + NormItems(f, items)) else None
  {
    if items == [] {
      assert acc + NormItems(f, items) == acc;
    } else {
      hide DecValue, EncValue, NormValue, FitsValue;
      var rest := EncAll(f, items[1..]).value;
      var v := NormValue(f, items[0]);
      assert ItemDecodes(f, items[0]);
      assert DecValue(f, EncValue(f, items[0]).value + rest, Unset) == Got(v, rest);
      PackedItems(f, items[1..], acc + [v]);
      NormItemsSplit(f, items, acc);
    }
  }

  lemma {:induction false} PackedField(d: Desc, i: nat, items: seq<Value>, st: DState, acc: seq<Value>, p: seq<byte>,
                                       t: seq<byte>)
    requires Receiving(d, i, st, acc) && Packable(d.fields[i].ltype)
    requires ItemsDecode(d.fields[i], items) && AllFit(d.fields[i], items)
    requires EncAll(d.fields[i], items) == Some(p) && |p| < TWO_32
    ensures DecField(d, i, WT_STRING, LenPrefixed(p) + t, st)
         == if |items| == 0 || |acc| + |items| <= d.fields[i].arraySize
            then Got(WithItems(d, i, st, acc + NormItems(d.fields[i], items)), t) else Fail
  {
    PackedItems(d.fields[i], items, acc);
    PayloadRoundTrip(p, t);
    hide DecItems, DecPayload, LenPrefixed, EncAll, NormItems;
  }

  // A packed record appends all its elements.
  lemma {:induction false} PackedRecord(d: Desc, i: nat, items: seq<Value>, st: DState, acc: seq<Value>, t: seq<byte>)
    requires WfDesc(d) && Receiving(d, i, st, acc) && Packable(d.fields[i].ltype)
    requires ItemsDecode(d.fields[i], items) && AllFit(d.fields[i], items)
    requires EncPacked(d.fields[i], items).Some? && |EncPacked(d.fields[i], items).value| < TWO_32
    ensures DecLoop(d, EncPacked(d.fields[i], items).value + t, st)
         == if |items| == 0 || |acc| + |items| <= d.fields[i].arraySize
            then DecLoop(d, t, WithItems(d, i, st, acc + NormItems(d.fields[i], items))) else Stuck
  {
    var f := d.fields[i];
    hide DecLoop, DecField, EncAll, EncTag, NormItems, Receiving, ItemsDecode, AllFit, WithItems, WfDesc;
    var p := EncAll(f, items).value;
    PackedBytes(f, items, t);
    hide EncPacked;
    KnownRecord(d, i, WT_STRING, LenPrefixed(p) + t, st);
    PackedField(d, i, items, st, acc, p, t);
  }

  lemma {:induction false} PackedBytes(f: Field, items: seq<Value>, t: seq<byte>)
    requires EncPacked(f, items).Some?
    ensures EncAll(f, items).Some? && |EncAll(f, items).value| < |EncPacked(f, items).value|
    ensures EncPacked(f, items).value + t
         == EncTag(WT_STRING, f.tag) + (LenPrefixed(EncAll(f, items).value) + t)
  {
    hide EncAll;
  }

  lemma {:induction false} PlainField(d: Desc, i: nat, v: Value, st: DState, acc: seq<Value>, t: seq<byte>)
    requires Receiving(d, i, st, acc) && ItemDecodes(d.fields[i], v)
    ensures DecField(d, i, WireType(d.fields[i].ltype), EncValue(d.fields[i], v).value + t, st)
         == if |acc| < d.fields[i].arraySize && FitsValue(d.fields[i], v)
            then Got(WithItems(d, i, st, acc + [NormValue(d.fields[i], v)]), t) else Fail
  {
    hide DecValue, EncValue, NormValue, FitsValue;
  }

  lemma {:induction false} PlainRecord(d: Desc, i: nat, v: Value, st: DState, acc: seq<Value>, t: seq<byte>)
    requires WfDesc(d) && Receiving(d, i, st, acc) && ItemDecodes(d.fields[i], v)
    requires EncTagged(d.fields[i], v).Some?
    ensures DecLoop(d, EncTagged(d.fields[i], v).value + t, st)
         == if |acc| < d.fields[i].arraySize && FitsValue(d.fields[i], v)
            then DecLoop(d, t, WithItems(d, i, st, acc + [NormValue(d.fields[i], v)])) else Stuck
  {
    hide DecLoop, DecField, EncValue, NormValue, EncTag, FitsValue, WithItems;
    var f := d.fields[i];
    var e := EncValue(f, v).value;
    assert EncTagged(f, v).value + t == EncTag(WireType(f.ltype), f.tag) + (e + t);
    KnownRecord(d, i, WireType(f.ltype), e + t, st);
    PlainField(d, i, v, st, acc, t);
  }

  lemma {:induction false} AllFitSplit(f: Field, items: seq<Value>)
    requires items != []
    ensures AllFit(f, items) <==> FitsValue(f, items[0]) && AllFit(f, items[1..])
  {
    assert forall k :: 1 <= k < |items| ==> items[k] == items[1..][k - 1];
  }

  // The first of several records.
  lemma {:induction false} PlainStep(d: Desc, i: nat, items: seq<Value>, st: DState, acc: seq<Value>, t: seq<byte>)
    requires WfDesc(d) && Receiving(d, i, st, acc) && items != [] && ItemDecodes(d.fields[i], items[0])
    requires EncEach(d.fields[i], items).Some?
    ensures var f := d.fields[i];
      && EncEach(f, items[1..]).Some?
      && DecLoop(d, EncEach(f, items).value + t, st)
      == if |acc| < f.arraySize && FitsValue(f, items[0])
         then DecLoop(d, EncEach(f, items[1..]).value + t, WithItems(d, i, st, acc + [NormValue(f, items[0])]))
         else Stuck
  {
    var f := d.fields[i];
    hide DecLoop, EncTagged, WithItems, NormValue, FitsValue, Receiving, WfDesc;
    var v, rest := items[0], EncEach(f, items[1..]).value;
    assert EncEach(f, items).value + t == EncTagged(f, v).value + (rest + t);
    PlainRecord(d, i, v, st, acc, rest + t);
  }

  // One record per element appends the elements one by one.
  lemma {:induction false} PlainRecords(d: Desc, i: nat, items: seq<Value>, st: DState, acc: seq<Value>, t: seq<byte>)
    requires WfDesc(d) && Receiving(d, i, st, acc) && ItemsDecode(d.fields[i], items)
    requires EncEach(d.fields[i], items).Some?
    ensures DecLoop(d, EncEach(d.fields[i], items).value + t, st)
         == if |items| == 0 || (|acc| + |items| <= d.fields[i].arraySize && AllFit(d.fields[i], items))
            then DecLoop(d, t, WithItems(d, i, st, acc + NormItems(d.fields[i], items))) else Stuck
    decreases |items|
  {
    var f := d.fields[i];
    if items == [] {
      assert EncEach(f, items).value + t == t;
      assert acc + NormItems(f, items) == acc;
      assert WithItems(d, i, st, acc) == st;
    } else {
      var acc' := acc + [NormValue(f, items[0])];
      AllFitSplit(f, items);
      NormItemsSplit(f, items, acc);
      hide DecLoop, WithItems, NormValue, NormItems, FitsValue, AllFit, Begin, WfDesc, EncEach;
      PlainStep(d, i, items, st, acc, t);
      StillReceiving(d, i, st, acc, acc');
      hide Receiving;
      PlainRecords(d, i, items[1..], WithItems(d, i, st, acc'), acc', t);
      WithItemsTwice(d, i, st, acc', acc + NormItems(f, items));
    }
  }

  lemma {:induction false} NormItemsSplit(f: Field, items: seq<Value>, acc: seq<Value>)
    requires items != []
    ensures acc + NormItems(f, items) == acc + [NormValue(f, items[0])] + NormItems(f, items[1..])
  {
    hide NormValue;
  }

  // ---- any division of an array into records ----

  /** Part of an array on the wire: one packed record, or one record per element. */
  datatype Chunk = Packed(items: seq<Value>) | Plain(items: seq<Value>)

  function Flatten(cs: seq<Chunk>): seq<Value>
  {
    if cs == [] then [] else cs[0].items + Flatten(cs[1..])
  }

  function EncChunk(f: Field, c: Chunk): Option<seq<byte>>
  {
    if c.Packed? then EncPacked(f, c.items) else EncEach(f, c.items)
  }

  function EncChunks(f: Field, cs: seq<Chunk>): Option<seq<byte>>
  {
    if cs == [] then Some([]) else Cat(EncChunk(f, cs[0]), EncChunks(f, cs[1..]))
  }

  /** The elements are encodable values of a packable type. */
  predicate PackableItems(f: Field, items: seq<Value>)
  {
    && WfField(f) && f.htype == REPEATED && Packable(f.ltype)
    && forall k :: 0 <= k < |items| ==>
         ScalarOK(f, items[k]) && EncScalar(f, items[k]).Some? && |EncScalar(f, items[k]).value| < TWO_32
  }

  lemma {:induction false} PackableNorm(f: Field, items: seq<Value>)
    requires PackableItems(f, items)
    ensures ItemsDecode(f, items) && AllFit(f, items) && NormItems(f, items) == items
  {
    if items == [] {
    } else {
      PackableDecodes(f, items[0]);
      PackableNorm(f, items[1..]);
      assert forall k :: 1 <= k < |items| ==> items[k] == items[1..][k - 1];
    }
  }

  lemma {:induction false} ChunkAppends(d: Desc, i: nat, c: Chunk, st: DState, acc: seq<Value>, t: seq<byte>)
    requires WfDesc(d) && Receiving(d, i, st, acc) && PackableItems(d.fields[i], c.items)
    requires EncChunk(d.fields[i], c).Some? && |EncChunk(d.fields[i], c).value| < TWO_32
    ensures DecLoop(d, EncChunk(d.fields[i], c).value + t, st)
         == if |c.items| == 0 || |acc| + |c.items| <= d.fields[i].arraySize
            then DecLoop(d, t, WithItems(d, i, st, acc + c.items)) else Stuck
  {
    PackableNorm(d.fields[i], c.items);
    if c.Packed? {
      PackedRecord(d, i, c.items, st, acc, t);
    } else {
      PlainRecords(d, i, c.items, st, acc, t);
    }
    hide DecLoop, WithItems, EncPacked, EncEach;
  }

  // Section "Packed Repeated Fields": packed, unpacked and mixed records with the
  // same elements have the same effect, namely to append them; they are rejected
  // exactly when the array would overflow.
  lemma {:induction false} ChunkingIrrelevant(d: Desc, i: nat, cs: seq<Chunk>, st: DState, acc: seq<Value>,
                                              t: seq<byte>)
    requires WfDesc(d) && Receiving(d, i, st, acc) && |acc| <= d.fields[i].arraySize
    requires forall k :: 0 <= k < |cs| ==> PackableItems(d.fields[i], cs[k].items)
    requires EncChunks(d.fields[i], cs).Some? && |EncChunks(d.fields[i], cs).value| < TWO_32
    ensures DecLoop(d, EncChunks(d.fields[i], cs).value + t, st)
         == if |acc| + |Flatten(cs)| <= d.fields[i].arraySize
            then DecLoop(d, t, WithItems(d, i, st, acc + Flatten(cs))) else Stuck
    decreases |cs|
  {
    var f := d.fields[i];
    if cs == [] {
      assert EncChunks(f, cs).value + t == t;
      assert acc + Flatten(cs) == acc;
      assert WithItems(d, i, st, acc) == st;
    } else {
      var c, rest := cs[0], EncChunks(f, cs[1..]).value;
      ChunksBytes(f, cs, t);
      assert acc + Flatten(cs) == acc + c.items + Flatten(cs[1..]);
      hide DecLoop, WithItems, EncChunk, EncChunks, PackableItems, Begin, Flatten, WfDesc;
      ChunkAppends(d, i, c, st, acc, rest + t);
      if |acc| + |c.items| <= f.arraySize {
        var st' := WithItems(d, i, st, acc + c.items);
        StillReceiving(d, i, st, acc, acc + c.items);
        hide Receiving;
        ChunkingIrrelevant(d, i, cs[1..], st', acc + c.items, t);
        WithItemsTwice(d, i, st, acc + c.items, acc + Flatten(cs));
      }
    }
  }

  lemma {:induction false} ChunksBytes(f: Field, cs: seq<Chunk>, t: seq<byte>)
    requires cs != [] && EncChunks(f, cs).Some?
    ensures EncChunk(f, cs[0]).Some? && EncChunks(f, cs[1..]).Some?
    ensures EncChunks(f, cs).value + t == EncChunk(f, cs[0]).value + (EncChunks(f, cs[1..]).value + t)
    ensures |EncChunks(f, cs).value| == |EncChunk(f, cs[0]).value| + |EncChunks(f, cs[1..]).value|
  {
    hide EncChunk;
  }
}
