// What every successful decode leaves behind, whatever the input: values of the
// right type, counts within their arrays, strings and bytes within their buffers.
// The proofs hold for each degree of rigour that decoding keeps.  Hence whatever was
// accepted can be encoded again and is then stable.
module Preservation {
  import opened Bits
  import opened Wire
  import opened Descriptors
  import opened EncodeSpec
  import opened DecodeSpec
  import opened Normal
  import opened Merge
  import opened RoundTrip

  // ---- defaults ----

  lemma {:induction false} ZeroOK(f: Field, g: Rigour)
    requires WfField(f) && f.ltype != SUBMESSAGE
    ensures ScalarOK(f, ZeroOf(f), g)
  {
  }

  lemma {:induction false} DefaultOK(f: Field, g: Rigour)
    requires g != Typed && WfField(f)
    ensures ValueOK(f, DefaultOf(f), g)
    decreases f, 0
  {
    if f.ltype == SUBMESSAGE {
      DefaultsOK(f.ptr.desc, g);
    } else {
      ZeroOK(f, g);
    }
  }

  lemma {:induction false} NoMemberZero(d: Desc, h: nat)
    requires WfDesc(d) && h < |d.fields|
    ensures SelectedMember(d.fields, h, 0) == None
  {
    var r := FindTag(d.fields, 0);
    assert r.Some? ==> WfField(d.fields[r.value]);
  }

  lemma {:induction false} DefaultsOK(d: Desc, g: Rigour)
    requires g != Typed && WfDesc(d)
    ensures MsgOK(d, Defaults(d), g)
    decreases d, 1
  {
    forall i | 0 <= i < |d.fields|
      ensures SlotOK(d, Defaults(d)[i], i, g)
    {
      assert WfField(d.fields[i]);
      DefaultOK(d.fields[i], g);
      NoMemberZero(d, i);
      hide DefaultOf, ValueOK;
    }
  }

  // ---- scalars ----

  lemma {:induction false} SignedRange(v: int, bits: nat)
    requires bits > 0
    ensures InSigned(ToSigned(v, bits), bits)
  {
  }

  lemma {:induction false} DecScalarOK(f: Field, s: seq<byte>, g: Rigour)
    requires WfField(f) && DecScalar(f, s).Got?
    ensures ScalarOK(f, DecScalar(f, s).value, g)
  {
    match f.ltype
    case VARINT =>
      SignedRange(NarrowSigned(DecVarint(s).value, f.dataSize), 8 * f.dataSize);
      hide DecVarint, NarrowSigned, ToSigned;
    case SVARINT =>
      SignedRange(UnZigZag(DecVarint(s).value), 8 * f.dataSize);
      hide DecVarint, UnZigZag, ToSigned;
    case FIXED32 => Pow2Constants();
    case FIXED64 => Pow2Constants();
    case _ =>
  }

  // ---- one decoding loop ----

  /** A state of the loop: all slots are in order, except that a fixed-count array may be partly filled. */
  predicate SlotInLoop(d: Desc, st: DState, h: nat, g: Rigour)
    requires h < |d.fields| == |st.msg|
  {
    if st.fixedField == Some(h) && IsFixedCount(d.fields[h]) then
      st.msg[h].Rep? && ItemsOK(d.fields[h], st.msg[h].items, g) && RoomOK(d.fields[h], |st.msg[h].items|, g)
    else SlotOK(d, st.msg[h], h, g)
  }

  predicate RoomOK(f: Field, count: nat, g: Rigour)
  {
    !g.Loose? ==> count <= f.arraySize
  }

  predicate ItemsOK(f: Field, items: seq<Value>, g: Rigour)
  {
    forall k :: 0 <= k < |items| ==> ValueOK(f, items[k], g)
  }

  predicate LoopOK(d: Desc, st: DState, g: Rigour)
  {
    && |st.msg| == |d.fields|
    && (st.fixedField.Some? ==> st.fixedField.value < |d.fields| && IsFixedCount(d.fields[st.fixedField.value]))
    && forall h :: 0 <= h < |d.fields| ==> SlotInLoop(d, st, h, g)
  }

  lemma {:induction false} LoopStarts(d: Desc, m: Msg, g: Rigour)
    requires g != Typed && MsgOK(d, m, g)
    ensures LoopOK(d, Start(m), g)
  {
  }

  lemma {:induction false} LoopEnds(d: Desc, st: DState, g: Rigour)
    requires g != Typed && LoopOK(d, st, g) && FixedComplete(d, st)
    ensures MsgOK(d, st.msg, g)
  {
    forall h | 0 <= h < |st.msg|
      ensures SlotOK(d, st.msg[h], h, g)
    {
      assert SlotInLoop(d, st, h, g);
    }
  }

  lemma {:induction false} BeginOK(d: Desc, i: nat, st: DState, g: Rigour)
    requires g != Typed && LoopOK(d, st, g) && i < |d.fields| && Begin(d, i, st).Some?
    ensures var st1 := Begin(d, i, st).value;
      LoopOK(d, st1, g) && (IsFixedCount(d.fields[i]) ==> st1.fixedField == Some(i))
  {
    var st1 := Begin(d, i, st).value;
    forall h | 0 <= h < |d.fields|
      ensures SlotInLoop(d, st1, h, g)
    {
      assert SlotInLoop(d, st, h, g);
    }
    hide ValueOK;
  }

  // Storing a well-formed slot keeps the loop state in order.
  lemma {:induction false} StoreOK(d: Desc, i: nat, st: DState, s: Slot, g: Rigour)
    requires g != Typed && LoopOK(d, st, g) && i < |d.fields|
    requires IsFixedCount(d.fields[i]) ==> st.fixedField == Some(i)
    requires if d.fields[i].htype == REPEATED
             then s.Rep? && ItemsOK(d.fields[i], s.items, g) && RoomOK(d.fields[i], |s.items|, g)
             else SlotOK(d, s, Home(d.fields, i), g)
    ensures LoopOK(d, st.(msg := SetSlot(d, st.msg, i, s)), g)
  {
    var st' := st.(msg := SetSlot(d, st.msg, i, s));
    forall h | 0 <= h < |d.fields|
      ensures SlotInLoop(d, st', h, g)
    {
      assert SlotInLoop(d, st, h, g);
    }
    hide ValueOK;
  }

  // ---- induction over the input ----

  lemma {:induction false} DecValueOK(f: Field, s: seq<byte>, prior: Value, g: Rigour)
    requires g != Typed && WfField(f) && DecValue(f, s, prior).Got?
    requires f.ltype == SUBMESSAGE && f.htype != REPEATED ==> ValueOK(f, prior, g)
    ensures ValueOK(f, DecValue(f, s, prior).value, g)
    decreases |s|, 0
  {
    if f.ltype == SUBMESSAGE {
      DefaultsOK(f.ptr.desc, g);
      var p := DecPayload(s).value;
      DecodePreserves(f.ptr.desc, p, if f.htype == REPEATED then Defaults(f.ptr.desc) else MsgIn(prior), g);
      hide DecodeNoinit, DecPayload, MsgOK;
    } else {
      DecScalarOK(f, s, g);
    }
  }

  lemma {:induction false} DecItemsOK(f: Field, s: seq<byte>, items: seq<Value>, g: Rigour)
    requires g != Typed && WfField(f) && f.htype == REPEATED
    requires ItemsOK(f, items, g) && RoomOK(f, |items|, g) && DecItems(f, s, items).Some?
    ensures ItemsOK(f, DecItems(f, s, items).value, g) && RoomOK(f, |DecItems(f, s, items).value|, g)
    decreases |s|, 1
  {
    if s == [] {
    } else {
      DecValueOK(f, s, Unset, g);
      var r := DecValue(f, s, Unset);
      DecItemsOK(f, r.rest, items + [r.value], g);
    }
  }

  // What is stored in field i before and after its data is decoded.
  lemma {:induction false} PriorOK(d: Desc, i: nat, st: DState, g: Rigour)
    requires g != Typed && WfDesc(d) && LoopOK(d, st, g) && i < |d.fields| && d.fields[i].htype != REPEATED
    ensures var f := d.fields[i];
      f.ltype == SUBMESSAGE ==> ValueOK(f, Prior(f, SlotOf(d, st.msg, i)), g)
  {
    var f, h := d.fields[i], Home(d.fields, i);
    assert WfField(f) && SlotInLoop(d, st, h, g);
    DefaultOK(f, g);
    FindTagUnique(d.fields, i);
    hide DefaultOf, MsgOK;
  }

  lemma {:induction false} StoredOK(d: Desc, i: nat, v: Value, g: Rigour)
    requires g != Typed && WfDesc(d) && i < |d.fields| && d.fields[i].htype != REPEATED
    requires ValueOK(d.fields[i], v, g)
    ensures SlotOK(d, Stored(d.fields[i], v), Home(d.fields, i), g)
  {
    FindTagUnique(d.fields, i);
    hide ValueOK;
  }

  lemma {:induction false} DecFieldOK(d: Desc, i: nat, wt: nat, s: seq<byte>, st: DState, g: Rigour)
    requires g != Typed && WfDesc(d) && LoopOK(d, st, g) && i < |d.fields| && DecField(d, i, wt, s, st).Got?
    ensures LoopOK(d, DecField(d, i, wt, s, st).value, g)
    decreases |s|, 2
  {
    var f, st1 := d.fields[i], Begin(d, i, st).value;
    BeginOK(d, i, st, g);
    assert WfField(f);
    var slot := SlotOf(d, st1.msg, i);
    if f.htype != REPEATED {
      PriorOK(d, i, st1, g);
      DecValueOK(f, s, Prior(f, slot), g);
      StoredOK(d, i, DecValue(f, s, Prior(f, slot)).value, g);
    } else {
      assert SlotInLoop(d, st1, i, g);
      ArraySlotOK(d, i, wt, s, slot, g);
    }
    hide LoopOK, DecValue, SlotOK, SlotInLoop;
    StoreOK(d, i, st1, DecSlot(f, wt, s, slot).value, g);
  }

  lemma {:induction false} ArraySlotOK(d: Desc, i: nat, wt: nat, s: seq<byte>, slot: Slot, g: Rigour)
    requires g != Typed && i < |d.fields| && WfField(d.fields[i]) && d.fields[i].htype == REPEATED
    requires slot.Rep? && ItemsOK(d.fields[i], slot.items, g) && RoomOK(d.fields[i], |slot.items|, g)
    requires DecSlot(d.fields[i], wt, s, slot).Got?
    ensures var r := DecSlot(d.fields[i], wt, s, slot).value;
      r.Rep? && ItemsOK(d.fields[i], r.items, g) && RoomOK(d.fields[i], |r.items|, g)
    decreases |s|, 1
  {
    var f := d.fields[i];
    if wt == WT_STRING && Packable(f.ltype) {
      DecItemsOK(f, DecPayload(s).value, slot.items, g);
    } else {
      DecValueOK(f, s, Unset, g);
    }
    hide DecValue, DecItems, DecPayload;
  }

  lemma {:induction false} LoopPreserves(d: Desc, s: seq<byte>, st: DState, g: Rigour)
    requires g != Typed && WfDesc(d) && LoopOK(d, st, g) && DecLoop(d, s, st).Done?
    ensures LoopOK(d, DecLoop(d, s, st).st, g)
    decreases |s|, 3
  {
    if s == [] {
    } else {
      var tag := DecTag(s);
      if tag.value.Tag? {
        var i := FindTag(d.fields, tag.value.tag);
        if i.Some? {
          DecFieldOK(d, i.value, tag.value.wt, tag.rest, st, g);
        }
        var rec := DecRecord(d, tag.value.tag, tag.value.wt, tag.rest, st);
        LoopPreserves(d, rec.rest, rec.value, g);
      }
      hide LoopOK, DecField, DecTag;
    }
  }

  // Every successful decode, of any input and at any depth, leaves values of the
  // right type and counts and lengths within bounds.
  lemma {:induction false} DecodePreserves(d: Desc, s: seq<byte>, m: Msg, g: Rigour)
    requires g != Typed && WfDesc(d) && MsgOK(d, m, g) && DecodeNoinit(d, s, m).Got?
    ensures MsgOK(d, DecodeNoinit(d, s, m).value, g)
    decreases |s|, 4
  {
    LoopStarts(d, m, g);
    LoopPreserves(d, s, Start(m), g);
    LoopEnds(d, DecLoop(d, s, Start(m)).st, g);
    hide LoopOK, MsgOK, DecLoop;
  }

  // ---- encoding again ----

  lemma {:induction false} DecodedScalarEncodes(f: Field, v: Value)
    requires WfField(f) && f.ltype != SUBMESSAGE && ScalarOK(f, v, Bounded)
    ensures EncScalar(f, v).Some? && FitsScalar(f, v)
  {
    if f.ltype == BYTES {
      ModUnique(f.dataSize - BYTES_HEADER, TWO_64, 0, f.dataSize - BYTES_HEADER);
    }
  }

  lemma {:induction false} DecodedValueEncodes(f: Field, v: Value)
    requires WfField(f) && ValueOK(f, v, Bounded)
    ensures EncValue(f, v).Some? && FitsValue(f, v)
    decreases f, 0
  {
    if f.ltype == SUBMESSAGE {
      DecodedEncodes(f.ptr.desc, v.msg);
    } else {
      DecodedScalarEncodes(f, v);
    }
  }

  lemma {:induction false} DecodedItemsEncode(f: Field, items: seq<Value>)
    requires WfField(f) && ItemsOK(f, items, Bounded)
    ensures EncAll(f, items).Some? && EncEach(f, items).Some?
    ensures forall k :: 0 <= k < |items| ==> FitsValue(f, items[k])
    decreases f, 1, |items|
  {
    if items == [] {
    } else {
      DecodedValueEncodes(f, items[0]);
      DecodedItemsEncode(f, items[1..]);
      assert forall k :: 1 <= k < |items| ==> items[k] == items[1..][k - 1];
      hide EncValue, FitsValue;
    }
  }

  lemma {:induction false} DecodedFieldEncodes(d: Desc, m: Msg, i: nat)
    requires WfDesc(d) && MsgOK(d, m, Bounded) && i < |d.fields|
    ensures EncField(d, m, i).Some? && FitsField(d, m, i)
    decreases d, 0
  {
    var f, h := d.fields[i], Home(d.fields, i);
    assert WfField(f) && SlotOK(d, m[h], h, Bounded);
    if f.htype == REPEATED {
      DecodedItemsEncode(f, m[h].items);
      assert EncArray(f, m[h].items).Some?;
    } else if Emitted(d, m, i) {
      FindTagUnique(d.fields, i);
      DecodedValueEncodes(f, ValueIn(m[h]));
      assert EncTagged(f, ValueIn(m[h])).Some?;
    }
  }

  lemma {:induction false} DecodedFieldsEncode(d: Desc, m: Msg, i: nat)
    requires WfDesc(d) && MsgOK(d, m, Bounded) && i <= |d.fields|
    ensures EncFrom(d, m, i).Some? && FitsFrom(d, m, i)
    decreases d, 1, |d.fields| - i
  {
    if i == |d.fields| {
    } else {
      DecodedFieldEncodes(d, m, i);
      DecodedFieldsEncode(d, m, i + 1);
      FitsFromStep(d, m, i);
      hide EncField, FitsField, FitsFrom;
    }
  }

  // Whatever a decode leaves behind has an encoding, and all its strings fit.
  lemma {:induction false} DecodedEncodes(d: Desc, m: Msg)
    requires WfDesc(d) && MsgOK(d, m, Bounded)
    ensures EncMsg(d, m).Some? && Fits(d, m)
    decreases d, 2
  {
    DecodedFieldsEncode(d, m, 0);
    FitsFromStart(d, m);
  }

  // ---- stability ----

  /** No fixed-count array in the message or in any submessage. */
  predicate NoFixedCount(d: Desc)
    decreases d
  {
    forall i :: 0 <= i < |d.fields| ==>
      && !IsFixedCount(d.fields[i])
      && (d.fields[i].ptr.SubFields? ==> NoFixedCount(d.fields[i].ptr.desc))
  }

  /** Every struct is loose; without fixed-count arrays a decoded one is fit for encoding. */
  predicate Weaker(d: Desc, g: Rigour, h: Rigour)
  {
    h.Loose? || (g.Tidy? && h.Typed? && NoFixedCount(d))
  }

  lemma {:induction false} ValueWeakens(f: Field, v: Value, g: Rigour, h: Rigour)
    requires ValueOK(f, v, g)
    requires if f.ptr.SubFields? then Weaker(f.ptr.desc, g, h) else h.Loose? || (g.Tidy? && h.Typed?)
    ensures ValueOK(f, v, h)
    decreases f, 0
  {
    if f.ltype == SUBMESSAGE {
      RigourWeakens(f.ptr.desc, v.msg, g, h);
    }
  }

  lemma {:induction false} RigourWeakens(d: Desc, m: Msg, g: Rigour, h: Rigour)
    requires MsgOK(d, m, g) && Weaker(d, g, h)
    ensures MsgOK(d, m, h)
    decreases d, 1
  {
    forall i | 0 <= i < |m|
      ensures SlotOK(d, m[i], i, h)
    {
      var f, s := d.fields[i], m[i];
      assert SlotOK(d, s, i, g);
      match s
      case One(v) => ValueWeakens(f, v, g, h);
      case Opt(_, v) => ValueWeakens(f, v, g, h);
      case Rep(items) =>
        forall k | 0 <= k < |items|
          ensures ValueOK(f, items[k], h)
        {
          ValueWeakens(f, items[k], g, h);
        }
      case Union(which, v) =>
        var j := SelectedMember(d.fields, i, which);
        if j.Some? {
          ValueWeakens(d.fields[j.value], v, g, h);
        }
      case Shared =>
    }
  }

  predicate NulFreeValue(f: Field, v: Value)
    decreases f, 0
  {
    if f.ltype == SUBMESSAGE then f.ptr.SubFields? ==> NulFree(f.ptr.desc, MsgIn(v))
    else f.ltype == STRING ==> forall k :: 0 <= k < |BytesIn(v)| ==> BytesIn(v)[k] != 0
  }

  predicate NulFreeSlot(d: Desc, s: Slot, i: nat)
    requires i < |d.fields|
    decreases d, 0
  {
    var f := d.fields[i];
    match s
    case One(v) => NulFreeValue(f, v)
    case Opt(has, v) => has ==> NulFreeValue(f, v)
    case Rep(items) => forall k :: 0 <= k < |items| ==> NulFreeValue(f, items[k])
    case Union(which, v) =>
      (match SelectedMember(d.fields, i, which)
       case Some(j) => NulFreeValue(d.fields[j], v)
       case None => true)
    case Shared => true
  }

  /** No string that is present holds a NUL. */
  predicate NulFree(d: Desc, m: Msg)
    decreases d, 1
  {
    forall i :: 0 <= i < |m| && i < |d.fields| ==> NulFreeSlot(d, m[i], i)
  }

  lemma {:induction false} TidyValueCanonical(f: Field, v: Value)
    requires ValueOK(f, v, Tidy)
    ensures CanonicalValue(f, v) <==> NulFreeValue(f, v)
    decreases f, 0
  {
    if f.ltype == SUBMESSAGE {
      TidyCanonical(f.ptr.desc, v.msg);
    }
  }

  lemma {:induction false} TidyCanonical(d: Desc, m: Msg)
    requires MsgOK(d, m, Tidy)
    ensures Canonical(d, m) <==> NulFree(d, m)
    decreases d, 1
  {
    forall i | 0 <= i < |m|
      ensures CanonicalSlot(d, m[i], i) <==> NulFreeSlot(d, m[i], i)
    {
      var f, s := d.fields[i], m[i];
      assert SlotOK(d, s, i, Tidy);
      match s
      case One(v) => TidyValueCanonical(f, v);
      case Opt(has, v) => if has { TidyValueCanonical(f, v); }
      case Rep(items) =>
        forall k | 0 <= k < |items|
          ensures CanonicalValue(f, items[k]) <==> NulFreeValue(f, items[k])
        {
          TidyValueCanonical(f, items[k]);
        }
      case Union(which, v) =>
        var j := SelectedMember(d.fields, i, which);
        if j.Some? {
          TidyValueCanonical(d.fields[j.value], v);
        }
      case Shared =>
    }
  }

  // Accepted input that leaves no fixed-count array unfilled decodes to a message whose
  // encoding decodes to its normal form, which is the message itself exactly when no
  // string in it holds a NUL.
  lemma {:induction false} CompleteIsStable(d: Desc, s: seq<byte>)
    requires WfDesc(d) && Decode(d, s).Got? && MsgOK(d, Decode(d, s).value)
    ensures var m := Decode(d, s).value;
      && EncMsg(d, m).Some?
      && (|EncMsg(d, m).value| < TWO_32 ==> Decode(d, EncMsg(d, m).value) == Got(Norm(d, m), []))
      && (Norm(d, m) == m <==> NulFree(d, m))
  {
    hide EncMsg, MsgOK, Fits, Norm, Canonical, NulFree, WfDesc, DecodeNoinit;
    var m := Decode(d, s).value;
    DefaultsOK(d, Bounded);
    DefaultsOK(d, Tidy);
    DecodePreserves(d, s, Defaults(d), Bounded);
    DecodePreserves(d, s, Defaults(d), Tidy);
    DecodedEncodes(d, m);
    TidyCanonical(d, m);
    NothingLostIff(d, m);
    if |EncMsg(d, m).value| < TWO_32 {
      MessageRoundTrip(d, m);
    }
  }

  // So does any accepted input, with fields in any order, repeated, unknown or merged,
  // when the descriptors declare no fixed-count arrays.
  lemma {:induction false} AcceptedIsStable(d: Desc, s: seq<byte>)
    requires WfDesc(d) && NoFixedCount(d) && Decode(d, s).Got?
    ensures var m := Decode(d, s).value;
      && EncMsg(d, m).Some?
      && (|EncMsg(d, m).value| < TWO_32 ==> Decode(d, EncMsg(d, m).value) == Got(Norm(d, m), []))
      && (Norm(d, m) == m <==> NulFree(d, m))
  {
    hide EncMsg, MsgOK, Norm, NulFree, WfDesc, NoFixedCount, DecodeNoinit;
    DefaultsOK(d, Tidy);
    DecodePreserves(d, s, Defaults(d), Tidy);
    RigourWeakens(d, Decode(d, s).value, Tidy, Typed);
    CompleteIsStable(d, s);
  }
}
