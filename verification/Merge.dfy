// Concatenated inputs: decoding a record never looks past it, so decoding a ++ b
// is decoding a and then b into the same message, and unknown records have no effect.
module Merge {
  import opened Bits
  import opened Wire
  import opened Descriptors
  import opened DecodeSpec

  lemma {:induction false} DecScalarExtends(f: Field, s: seq<byte>, t: seq<byte>)
    ensures Extends(DecScalar(f, s), DecScalar(f, s + t), t)
  {
    match f.ltype
    case BOOL => DecVarint32Extends(s, t);
    case VARINT => DecVarintExtends(s, t);
    case UVARINT => DecVarintExtends(s, t);
    case SVARINT => DecVarintExtends(s, t);
    case FIXED32 => DecFixedExtends(s, 4, t);
    case FIXED64 => DecFixedExtends(s, 8, t);
    case BYTES => DecPayloadExtends(s, t);
    case STRING => DecPayloadExtends(s, t);
    case FIXED_LENGTH_BYTES => DecPayloadExtends(s, t);
    case SUBMESSAGE =>
  }

  lemma {:induction false} DecValueExtends(f: Field, s: seq<byte>, prior: Value, t: seq<byte>)
    ensures Extends(DecValue(f, s, prior), DecValue(f, s + t, prior), t)
  {
    if f.ltype == SUBMESSAGE {
      DecPayloadExtends(s, t);
    } else {
      DecScalarExtends(f, s, t);
    }
  }

  lemma {:induction false} DecSlotExtends(f: Field, wt: nat, s: seq<byte>, slot: Slot, t: seq<byte>)
    ensures Extends(DecSlot(f, wt, s, slot), DecSlot(f, wt, s + t, slot), t)
  {
    if f.htype != REPEATED {
      DecValueExtends(f, s, Prior(f, slot), t);
    } else {
      DecValueExtends(f, s, Unset, t);
      DecPayloadExtends(s, t);
    }
    hide DecValue, DecPayload, DecItems;
  }

  lemma {:induction false} DecRecordExtends(d: Desc, tag: nat, wt: nat, s: seq<byte>, st: DState, t: seq<byte>)
    ensures Extends(DecRecord(d, tag, wt, s, st), DecRecord(d, tag, wt, s + t, st), t)
  {
    match FindTag(d.fields, tag)
    case Some(i) =>
      var st1 := Begin(d, i, st);
      if st1.Some? {
        DecSlotExtends(d.fields[i], wt, s, SlotOf(d, st1.value.msg, i), t);
      }
    case None =>
      DecVarint32Extends(s, t);
      SkipFieldExtends(wt, s, t);
  }

  // The loop on a ++ b is the loop on a followed by the loop on b; a zero tag in
  // a ends the message there.
  lemma {:induction false} LoopConcat(d: Desc, a: seq<byte>, b: seq<byte>, st: DState)
    requires DecLoop(d, a, st).Done?
    ensures var r := DecLoop(d, a, st);
      DecLoop(d, a + b, st) == if r.zero then Done(r.st, r.rest + b, true) else DecLoop(d, b, r.st)
    decreases |a|
  {
    if a == [] {
      assert a + b == b;
    } else {
      DecTagExtends(a, b);
      var tag := DecTag(a);
      if tag.value.Tag? {
        var TI := tag.value;
        DecRecordExtends(d, TI.tag, TI.wt, tag.rest, st, b);
        var rec := DecRecord(d, TI.tag, TI.wt, tag.rest, st);
        LoopConcat(d, rec.rest, b, rec.value);
      }
    }
  }

  // ---- merging into the same struct ----

  /** No required and no fixed-count fields at the top level of the message. */
  predicate Mergeable(d: Desc)
  {
    forall i :: 0 <= i < |d.fields| ==> d.fields[i].htype != REQUIRED && !IsFixedCount(d.fields[i])
  }

  /** The input consists of complete records, none with a zero tag. */
  predicate CompleteRecords(d: Desc, a: seq<byte>, m: Msg)
  {
    DecLoop(d, a, Start(m)).Done? && !DecLoop(d, a, Start(m)).zero
  }

  lemma {:induction false} NoRequired(d: Desc, i: nat)
    requires Mergeable(d) && i <= |d.fields|
    ensures RequiredBefore(d.fields, i) == 0
  {
    if i == 0 {
    } else {
      NoRequired(d, i - 1);
    }
  }

  lemma {:induction false} RecordKeepsNoState(d: Desc, tag: nat, wt: nat, s: seq<byte>, m: Msg)
    requires Mergeable(d)
    ensures var r := DecRecord(d, tag, wt, s, Start(m)); r.Got? ==> r.value == Start(r.value.msg)
  {
    var i := FindTag(d.fields, tag);
    if i.Some? {
      assert Begin(d, i.value, Start(m)) == Some(Start(m));
    }
    hide DecSlot, SkipField;
  }

  // Without required and fixed-count fields the loop keeps no state besides the message.
  lemma {:induction false} LoopKeepsNoState(d: Desc, s: seq<byte>, m: Msg)
    requires Mergeable(d) && DecLoop(d, s, Start(m)).Done?
    ensures var r := DecLoop(d, s, Start(m)); r.st == Start(r.st.msg)
    ensures !DecLoop(d, s, Start(m)).zero ==> DecLoop(d, s, Start(m)).rest == []
    decreases |s|
  {
    if s == [] {
    } else {
      var tag := DecTag(s);
      if tag.value.Tag? {
        var rec := DecRecord(d, tag.value.tag, tag.value.wt, tag.rest, Start(m));
        RecordKeepsNoState(d, tag.value.tag, tag.value.wt, tag.rest, m);
        LoopKeepsNoState(d, rec.rest, rec.value.msg);
      }
    }
  }

  // Section "Last One Wins": pb_decode_noinit on a ++ b equals decoding a and
  // then b into the same struct.
  lemma {:induction false} MergeConcat(d: Desc, a: seq<byte>, b: seq<byte>, m: Msg)
    requires Mergeable(d) && CompleteRecords(d, a, m)
    ensures DecodeNoinit(d, a, m).Got? && DecodeNoinit(d, a, m).rest == []
    ensures DecodeNoinit(d, a + b, m) == DecodeNoinit(d, b, DecodeNoinit(d, a, m).value)
  {
    LoopKeepsNoState(d, a, m);
    NoRequired(d, |d.fields|);
    LoopConcat(d, a, b, Start(m));
  }

  /** One record of field f with the given payload. */
  function Delimited(f: Field, payload: seq<byte>): seq<byte>
  {
    EncTag(WT_STRING, f.tag) + LenPrefixed(payload)
  }

  // One step of the loop over a record that starts with an encoded tag.
  lemma {:induction false} RecordStep(d: Desc, tag: nat, wt: nat, s: seq<byte>, st: DState)
    requires 0 < tag < 0x2000_0000 && wt < 8
    ensures DecLoop(d, EncTag(wt, tag) + s, st)
         == match DecRecord(d, tag, wt, s, st)
            case Fail => Stuck
            case Got(st', rest) => DecLoop(d, rest, st')
  {
    TagRoundTrip(wt, tag, s);
    hide DecRecord, DecTag, EncTag;
  }

  /** Field i is a submessage that occurs at most once in the struct. */
  predicate SingleSubmessage(d: Desc, i: nat)
  {
    && i < |d.fields| && d.fields[i].htype != REPEATED
    && d.fields[i].ltype == SUBMESSAGE && d.fields[i].ptr.SubFields?
  }

  /** The submessage that a record of field i is merged into. */
  function MergeTarget(d: Desc, i: nat, st: DState): Msg
    requires i < |d.fields|
  {
    MsgIn(Prior(d.fields[i], SlotOf(d, st.msg, i)))
  }

  /** The state after the slot of field i, which is not repeated, was set to s. */
  function Passed(d: Desc, i: nat, st: DState, s: Slot): DState
    requires i < |d.fields|
  {
    var seen := if d.fields[i].htype == REQUIRED then st.seen + {RequiredBefore(d.fields, i)} else st.seen;
    st.(seen := seen, msg := SetSlot(d, st.msg, i, s))
  }

  // The same for a record of field i.
  lemma {:induction false} KnownRecord(d: Desc, i: nat, wt: nat, s: seq<byte>, st: DState)
    requires WfDesc(d) && i < |d.fields| && wt < 8
    ensures DecLoop(d, EncTag(wt, d.fields[i].tag) + s, st)
         == match DecField(d, i, wt, s, st)
            case Fail => Stuck
            case Got(st', rest) => DecLoop(d, rest, st')
  {
    assert WfField(d.fields[i]);
    FindTagUnique(d.fields, i);
    RecordStep(d, d.fields[i].tag, wt, s, st);
    hide DecLoop, DecField, FindTag, EncTag;
  }

  // Two records of a submessage merge: they decode like one record that carries
  // the concatenation of their payloads.
  lemma {:induction false} SubmessagesMerge(d: Desc, i: nat, p: seq<byte>, q: seq<byte>, t: seq<byte>, st: DState)
    requires WfDesc(d) && SingleSubmessage(d, i) && Mergeable(d.fields[i].ptr.desc)
    requires |st.msg| == |d.fields| && |p| + |q| < TWO_32
    requires CompleteRecords(d.fields[i].ptr.desc, p, MergeTarget(d, i, st))
    ensures var f := d.fields[i];
      DecLoop(d, Delimited(f, p) + Delimited(f, q) + t, st) == DecLoop(d, Delimited(f, p + q) + t, st)
  {
    var f := d.fields[i];
    var sub, m := f.ptr.desc, MergeTarget(d, i, st);
    hide DecLoop, DecodeNoinit, Delimited, Passed, WfDesc;
    MergeConcat(sub, p, q, m);
    var m1 := DecodeNoinit(sub, p, m).value;
    var st1 := Passed(d, i, st, Stored(f, Sub(m1)));
    SubmessageRecord(d, i, p, Delimited(f, q) + t, st);
    SubmessageRecord(d, i, q, t, st1);
    SubmessageRecord(d, i, p + q, t, st);
    assert Delimited(f, p) + Delimited(f, q) + t == Delimited(f, p) + (Delimited(f, q) + t);
    assert MergeTarget(d, i, st1) == m1;
    var r := DecodeNoinit(sub, q, m1);
    if r.Got? {
      PassedTwice(d, i, st, Stored(f, Sub(m1)), Stored(f, Sub(r.value)));
    }
  }

  lemma {:induction false} PassedTwice(d: Desc, i: nat, st: DState, s: Slot, s': Slot)
    requires i < |d.fields| && |st.msg| == |d.fields|
    ensures Passed(d, i, Passed(d, i, st, s), s') == Passed(d, i, st, s')
  {
    assert SetSlot(d, SetSlot(d, st.msg, i, s), i, s') == SetSlot(d, st.msg, i, s');
  }

  lemma {:induction false} SubmessageRecord(d: Desc, i: nat, p: seq<byte>, t: seq<byte>, st: DState)
    requires WfDesc(d) && SingleSubmessage(d, i) && |p| < TWO_32
    ensures var f := d.fields[i];
      var r := DecodeNoinit(f.ptr.desc, p, MergeTarget(d, i, st));
      DecLoop(d, Delimited(f, p) + t, st)
      == if r.Fail? then Stuck else DecLoop(d, t, Passed(d, i, st, Stored(f, Sub(r.value))))
  {
    var f := d.fields[i];
    assert Delimited(f, p) + t == EncTag(WT_STRING, f.tag) + (LenPrefixed(p) + t);
    KnownRecord(d, i, WT_STRING, LenPrefixed(p) + t, st);
    SubmessageField(d, i, p, t, st);
    hide DecLoop, DecField, DecodeNoinit, Passed;
  }

  lemma {:induction false} SubmessageField(d: Desc, i: nat, p: seq<byte>, t: seq<byte>, st: DState)
    requires SingleSubmessage(d, i) && |p| < TWO_32
    ensures var f := d.fields[i];
      var r := DecodeNoinit(f.ptr.desc, p, MergeTarget(d, i, st));
      DecField(d, i, WT_STRING, LenPrefixed(p) + t, st)
      == if r.Fail? then Fail else Got(Passed(d, i, st, Stored(f, Sub(r.value))), t)
  {
    PayloadRoundTrip(p, t);
    var f, s := d.fields[i], LenPrefixed(p) + t;
    hide LenPrefixed, DecPayload;
    var r := DecodeNoinit(f.ptr.desc, p, MergeTarget(d, i, st));
    assert DecValue(f, s, Prior(f, SlotOf(d, st.msg, i))) == if r.Fail? then Fail else Got(Sub(r.value), t);
  }

  // ---- repeated scalars ----

  /** Field i holds one scalar, string or bytes value. */
  predicate SingleScalar(d: Desc, i: nat)
  {
    i < |d.fields| && d.fields[i].htype != REPEATED && d.fields[i].ltype != SUBMESSAGE
  }

  lemma {:induction false} ScalarField(d: Desc, i: nat, wt: nat, p: seq<byte>, t: seq<byte>, st: DState)
    requires SingleScalar(d, i) && DecScalar(d.fields[i], p).Got?
    ensures var r := DecScalar(d.fields[i], p);
      DecField(d, i, wt, p + t, st) == Got(Passed(d, i, st, Stored(d.fields[i], r.value)), r.rest + t)
  {
    hide DecScalar, SetSlot;
    var f := d.fields[i];
    DecScalarExtends(f, p, t);
    var slot := SlotOf(d, st.msg, i);
    assert DecValue(f, p + t, Prior(f, slot)) == DecScalar(f, p + t);
    assert DecSlot(f, wt, p + t, slot) == Got(Stored(f, DecScalar(f, p).value), DecScalar(f, p).rest + t);
  }

  lemma {:induction false} ScalarRecord(d: Desc, i: nat, wt: nat, p: seq<byte>, t: seq<byte>, st: DState)
    requires WfDesc(d) && SingleScalar(d, i) && wt < 8
    requires DecScalar(d.fields[i], p).Got? && DecScalar(d.fields[i], p).rest == []
    ensures DecLoop(d, EncTag(wt, d.fields[i].tag) + p + t, st)
         == DecLoop(d, t, Passed(d, i, st, Stored(d.fields[i], DecScalar(d.fields[i], p).value)))
  {
    hide DecLoop, DecField, Passed, DecScalar, WfDesc;
    ScalarField(d, i, wt, p, t, st);
    assert [] + t == t;
    assert EncTag(wt, d.fields[i].tag) + p + t == EncTag(wt, d.fields[i].tag) + (p + t);
    KnownRecord(d, i, wt, p + t, st);
  }

  // Of two records of a singular scalar field the second wins: the first might as
  // well not be there.
  lemma {:induction false} LastScalarWins(d: Desc, i: nat, wt1: nat, p: seq<byte>, wt2: nat, q: seq<byte>,
                                          t: seq<byte>, st: DState)
    requires WfDesc(d) && SingleScalar(d, i) && wt1 < 8 && wt2 < 8 && |st.msg| == |d.fields|
    requires DecScalar(d.fields[i], p).Got? && DecScalar(d.fields[i], p).rest == []
    requires DecScalar(d.fields[i], q).Got? && DecScalar(d.fields[i], q).rest == []
    ensures var tag := d.fields[i].tag;
      DecLoop(d, EncTag(wt1, tag) + p + (EncTag(wt2, tag) + q + t), st) == DecLoop(d, EncTag(wt2, tag) + q + t, st)
  {
    var f := d.fields[i];
    var v, w := DecScalar(f, p).value, DecScalar(f, q).value;
    ScalarRecord(d, i, wt1, p, EncTag(wt2, f.tag) + q + t, st);
    ScalarRecord(d, i, wt2, q, t, Passed(d, i, st, Stored(f, v)));
    ScalarRecord(d, i, wt2, q, t, st);
    hide DecLoop, DecScalar;
    PassedTwice(d, i, st, Stored(f, v), Stored(f, w));
  }

  // ---- unknown fields ----

  /** A record with an undeclared tag and a payload that can be skipped. */
  predicate UnknownRecord(d: Desc, tag: nat, wt: nat, payload: seq<byte>)
  {
    && 0 < tag < 0x2000_0000 && wt < 8
    && FindTag(d.fields, tag) == None
    && SkipField(wt, payload) == Got((), [])
  }

  lemma {:induction false} UnknownRecordSkipped(d: Desc, tag: nat, wt: nat, payload: seq<byte>, s: seq<byte>,
                                                st: DState)
    requires UnknownRecord(d, tag, wt, payload)
    ensures DecLoop(d, EncTag(wt, tag) + payload + s, st) == DecLoop(d, s, st)
  {
    SkipFieldExtends(wt, payload, s);
    assert [] + s == s;
    assert EncTag(wt, tag) + payload + s == EncTag(wt, tag) + (payload + s);
    RecordStep(d, tag, wt, payload + s, st);
    hide DecLoop, SkipField;
  }

  /** What a number that was read leaves behind */
  function Unread(r: Parsed<nat>): Parsed<()>
  {
    match r case Fail => Fail case Got(_, rest) => Got((), rest)
  }

  // The tag 0 with a nonzero wire type does not end the input: an empty message reads a
  // 32-bit varint after it whatever the wire type, any other message skips its payload.
  lemma {:induction false} ZeroTagRecord(d: Desc, wt: nat, s: seq<byte>, st: DState)
    requires 0 < wt < 8 && FindTag(d.fields, 0) == None
    ensures DecLoop(d, [wt] + s, st)
         == match (if |d.fields| == 0 then Unread(DecVarint32(s)) else SkipField(wt, s))
            case Fail => Stuck
            case Got(_, rest) => DecLoop(d, rest, st)
  {
    assert EncVarint(wt) == [wt];
    Varint32Small(wt, s);
    hide DecVarint32, SkipField;
  }

  // Inserting an unknown record between two records changes nothing.
  lemma {:induction false} UnknownFieldsIgnored(d: Desc, a: seq<byte>, tag: nat, wt: nat, payload: seq<byte>,
                                                b: seq<byte>, m: Msg)
    requires UnknownRecord(d, tag, wt, payload)
    requires CompleteRecords(d, a, m)
    ensures DecodeNoinit(d, a + (EncTag(wt, tag) + payload) + b, m) == DecodeNoinit(d, a + b, m)
  {
    var u := EncTag(wt, tag) + payload;
    LoopConcat(d, a, b, Start(m));
    LoopConcat(d, a, u + b, Start(m));
    UnknownRecordSkipped(d, tag, wt, payload, b, DecLoop(d, a, Start(m)).st);
    assert a + u + b == a + (u + b);
  }
}
