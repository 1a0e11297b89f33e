// Whole messages: decoding the bytes of an encoded message succeeds exactly when
// every encoded string leaves room for its terminator, and then yields the
// normal form of the message and leaves trailing input untouched.
module RoundTrip {
  import opened Bits
  import opened Wire
  import opened Descriptors
  import opened EncodeSpec
  import opened DecodeSpec
  import opened Normal
  import opened Merge
  import opened Arrays

  // ---- the state after the first i fields ----

  /** Slot h has received everything it will receive once the first i fields are decoded. */
  predicate Received(d: Desc, m: Msg, i: nat, h: nat)
    requires h < |d.fields|
  {
    if d.fields[h].htype == ONEOF then
      var j := SelectedMember(d.fields, h, if h < |m| then WhichIn(m[h]) else 0);
      j.Some? && j.value < i
    else h < i
  }

  function Target(d: Desc, m: Msg, i: nat, h: nat): Slot
    requires h < |d.fields| == |m|
  {
    if Received(d, m, i, h) then NormSlot(d, m[h], h) else DefaultSlot(d, h)
  }

  ghost predicate Reached(d: Desc, m: Msg, i: nat, st: DState)
    requires |m| == |d.fields| && i <= |d.fields|
  {
    && |st.msg| == |m|
    && (forall h :: 0 <= h < |m| ==> st.msg[h] == Target(d, m, i, h))
    && (forall k: nat :: k in st.seen <==> k < RequiredBefore(d.fields, i))
    && FixedComplete(d, st)
    && (st.fixedField.Some? ==> st.fixedField.value < i && d.fields[st.fixedField.value].htype == REPEATED)
  }

  lemma {:induction false} ReachedStart(d: Desc, m: Msg)
    requires |m| == |d.fields|
    ensures Reached(d, m, 0, Start(Defaults(d)))
  {
  }

  lemma {:induction false} ReachedEnd(d: Desc, m: Msg, st: DState)
    requires |m| == |d.fields| && Reached(d, m, |d.fields|, st)
    ensures st.msg == Norm(d, m)
    ensures FixedComplete(d, st) && RequiredSeen(d, st.seen)
  {
    forall h | 0 <= h < |m|
      ensures st.msg[h] == Norm(d, m)[h]
    {
      assert st.msg[h] == Target(d, m, |d.fields|, h);
    }
  }

  // Only the slot of field i can change when field i is passed.
  lemma {:induction false} TargetElsewhere(d: Desc, m: Msg, i: nat, h: nat)
    requires i < |d.fields| == |m| && h < |m| && h != Home(d.fields, i)
    ensures Target(d, m, i + 1, h) == Target(d, m, i, h)
  {
  }

  // The slot of field i before and after field i is passed.
  lemma {:induction false} TargetHere(d: Desc, m: Msg, i: nat)
    requires WfDesc(d) && MsgOK(d, m) && i < |d.fields|
    ensures var f, h := d.fields[i], Home(d.fields, i);
      var s := m[h];
      && SlotOK(d, s, h)
      && (f.htype != ONEOF || WhichIn(s) == f.tag ==> Target(d, m, i, h) == DefaultSlot(d, h))
      && (f.htype != REPEATED && Emitted(d, m, i) ==>
            ValueOK(f, ValueIn(s)) && Target(d, m, i + 1, h) == Stored(f, NormValue(f, ValueIn(s))))
      && (f.htype != REPEATED && !Emitted(d, m, i) ==> Target(d, m, i + 1, h) == Target(d, m, i, h))
      && (f.htype == REPEATED ==> Target(d, m, i + 1, h) == Rep(NormItems(f, ItemsIn(s))))
  {
    var f, h := d.fields[i], Home(d.fields, i);
    FindTagUnique(d.fields, i);
    assert SlotOK(d, m[h], h) && WfField(f);
    if f.htype == OPTIONAL && f.sizeOffset == 0 && !Emitted(d, m, i) {
      ZeroIsDefault(f, ValueIn(m[h]));
    }
    hide NormValue, NormItems, ValueOK, DefaultOf, IsZero, MsgOK, WfDesc;
  }

  // Passing a field that is left out of the encoding.
  lemma {:induction false} PassAbsent(d: Desc, m: Msg, i: nat, st: DState)
    requires WfDesc(d) && MsgOK(d, m) && i < |d.fields| && Reached(d, m, i, st)
    requires d.fields[i].htype != REPEATED && !Emitted(d, m, i)
    ensures Reached(d, m, i + 1, st)
  {
    TargetHere(d, m, i);
    forall h | 0 <= h < |m|
      ensures st.msg[h] == Target(d, m, i + 1, h)
    {
      if h != Home(d.fields, i) {
        TargetElsewhere(d, m, i, h);
      }
    }
  }

  lemma {:induction false} PassPresent(d: Desc, m: Msg, i: nat, st: DState)
    requires WfDesc(d) && MsgOK(d, m) && i < |d.fields| && Reached(d, m, i, st)
    requires d.fields[i].htype != REPEATED && Emitted(d, m, i)
    ensures var f := d.fields[i];
      Reached(d, m, i + 1, Passed(d, i, st, Stored(f, NormValue(f, ValueIn(SlotOf(d, m, i))))))
  {
    var f, h := d.fields[i], Home(d.fields, i);
    var st' := Passed(d, i, st, Stored(f, NormValue(f, ValueIn(SlotOf(d, m, i)))));
    TargetHere(d, m, i);
    forall k | 0 <= k < |m|
      ensures st'.msg[k] == Target(d, m, i + 1, k)
    {
      if k != h {
        TargetElsewhere(d, m, i, k);
      }
    }
    FixedUntouched(d, i, st, st'.msg[h]);
    hide Target, Stored, NormValue;
  }

  // Storing a field that is not repeated does not disturb the fixed-count array.
  lemma {:induction false} FixedUntouched(d: Desc, i: nat, st: DState, s: Slot)
    requires i < |d.fields| && d.fields[i].htype != REPEATED && |st.msg| == |d.fields|
    requires FixedComplete(d, st)
    requires st.fixedField.Some? && st.fixedField.value < |d.fields| ==> d.fields[st.fixedField.value].htype == REPEATED
    ensures FixedComplete(d, Passed(d, i, st, s))
  {
  }

  // ---- arrays ----

  /** The state in which the elements of array i arrive. */
  function ArrayState(d: Desc, i: nat, st: DState): DState
    requires i < |d.fields|
  {
    if d.fields[i].sizeOffset == 0 then st.(msg := SetSlot(d, st.msg, i, Rep([])), fixedField := Some(i)) else st
  }

  lemma {:induction false} ArrayBegins(d: Desc, m: Msg, i: nat, st: DState)
    requires WfDesc(d) && MsgOK(d, m) && i < |d.fields| && Reached(d, m, i, st)
    requires d.fields[i].htype == REPEATED
    ensures Receiving(d, i, ArrayState(d, i, st), [])
    ensures Begin(d, i, st) == Some(ArrayState(d, i, st))
  {
    TargetHere(d, m, i);
    assert st.msg[i] == Target(d, m, i, i);
  }

  // The first record of an array sees the same storage from either state.
  lemma {:induction false} ArrayFirstRecord(d: Desc, i: nat, wt: nat, s: seq<byte>, st: DState)
    requires WfDesc(d) && i < |d.fields| && wt < 8
    requires Receiving(d, i, ArrayState(d, i, st), []) && Begin(d, i, st) == Some(ArrayState(d, i, st))
    ensures var e := EncTag(wt, d.fields[i].tag) + s;
      DecLoop(d, e, st) == DecLoop(d, e, ArrayState(d, i, st))
  {
    KnownRecord(d, i, wt, s, st);
    KnownRecord(d, i, wt, s, ArrayState(d, i, st));
    hide DecLoop, DecSlot, EncTag, ArrayState;
  }

  lemma {:induction false} PassArray(d: Desc, m: Msg, i: nat, st: DState)
    requires WfDesc(d) && MsgOK(d, m) && i < |d.fields| && Reached(d, m, i, st)
    requires d.fields[i].htype == REPEATED
    ensures var items := ItemsIn(SlotOf(d, m, i));
      if items == [] then Reached(d, m, i + 1, st)
      else Reached(d, m, i + 1, WithItems(d, i, ArrayState(d, i, st), NormItems(d.fields[i], items)))
  {
    var items := ItemsIn(SlotOf(d, m, i));
    var st' := if items == [] then st else WithItems(d, i, ArrayState(d, i, st), NormItems(d.fields[i], items));
    TargetHere(d, m, i);
    assert st.msg[i] == Target(d, m, i, i);
    forall k | 0 <= k < |m|
      ensures st'.msg[k] == Target(d, m, i + 1, k)
    {
      if k != i {
        TargetElsewhere(d, m, i, k);
      }
    }
    hide Target;
    if items != [] {
      ArrayComplete(d, m, i, st);
    }
  }

  lemma {:induction false} ArrayComplete(d: Desc, m: Msg, i: nat, st: DState)
    requires WfDesc(d) && MsgOK(d, m) && i < |d.fields| && Reached(d, m, i, st)
    requires d.fields[i].htype == REPEATED
    ensures FixedComplete(d, WithItems(d, i, ArrayState(d, i, st),
                                       NormItems(d.fields[i], ItemsIn(SlotOf(d, m, i)))))
  {
    TargetHere(d, m, i);
    hide Target, NormItems;
  }

  lemma {:induction false} PackedHead(f: Field, items: seq<Value>, t: seq<byte>) returns (rest: seq<byte>)
    requires EncPacked(f, items).Some?
    ensures EncPacked(f, items).value + t == EncTag(WT_STRING, f.tag) + rest
  {
    var p := LenPrefixed(EncAll(f, items).value);
    hide EncTag, LenPrefixed, EncAll;
    rest := p + t;
    assert EncTag(WT_STRING, f.tag) + p + t == EncTag(WT_STRING, f.tag) + rest;
  }

  lemma {:induction false} EachHead(f: Field, items: seq<Value>, t: seq<byte>) returns (rest: seq<byte>)
    requires items != [] && EncEach(f, items).Some?
    ensures EncEach(f, items).value + t == EncTag(WireType(f.ltype), f.tag) + rest
  {
    assert EncEach(f, items) == Cat(EncTagged(f, items[0]), EncEach(f, items[1..]));
    hide EncEach, EncValue, EncTag, WireType;
    var e, more := EncValue(f, items[0]).value, EncEach(f, items[1..]).value;
    rest := e + more + t;
    assert EncTag(WireType(f.ltype), f.tag) + e + more + t == EncTag(WireType(f.ltype), f.tag) + rest;
  }

  // The first record of a nonempty encoded array starts with a tag of the field.
  lemma {:induction false} ArrayHead(f: Field, items: seq<Value>, t: seq<byte>) returns (wt: nat, rest: seq<byte>)
    requires items != [] && EncArray(f, items).Some?
    ensures wt < 8 && EncArray(f, items).value + t == EncTag(wt, f.tag) + rest
  {
    hide EncPacked, EncEach, EncTag;
    if Packable(f.ltype) {
      wt := WT_STRING;
      rest := PackedHead(f, items, t);
    } else {
      wt := WireType(f.ltype);
      rest := EachHead(f, items, t);
    }
  }

  lemma {:induction false} ArrayRecords(d: Desc, i: nat, items: seq<Value>, st: DState, t: seq<byte>)
    requires WfDesc(d) && i < |d.fields| && items != []
    requires Receiving(d, i, st, []) && ItemsDecode(d.fields[i], items)
    requires Packable(d.fields[i].ltype) ==> AllFit(d.fields[i], items)
    requires EncArray(d.fields[i], items).Some? && |EncArray(d.fields[i], items).value| < TWO_32
    ensures DecLoop(d, EncArray(d.fields[i], items).value + t, st)
         == if AllFit(d.fields[i], items)
            then DecLoop(d, t, WithItems(d, i, st, NormItems(d.fields[i], items))) else Stuck
  {
    var f := d.fields[i];
    if Packable(f.ltype) {
      PackedRecord(d, i, items, st, [], t);
    } else {
      PlainRecords(d, i, items, st, [], t);
    }
    assert [] + NormItems(f, items) == NormItems(f, items);
    hide DecLoop, WithItems, EncPacked, EncEach;
  }

  // ---- induction over descriptors ----

  // One value: the storage it is decoded into matters for submessages only.
  lemma {:induction false} ValueRoundTrip(f: Field, v: Value, prior: Value, t: seq<byte>)
    requires WfField(f) && ValueOK(f, v)
    requires EncValue(f, v).Some? && |EncValue(f, v).value| < TWO_32
    requires f.ltype == SUBMESSAGE && f.htype != REPEATED ==> prior == DefaultOf(f)
    ensures DecValue(f, EncValue(f, v).value + t, prior)
         == if FitsValue(f, v) then Got(NormValue(f, v), t) else Fail
    decreases f, 0
  {
    if f.ltype == SUBMESSAGE {
      var sub := f.ptr.desc;
      var b := EncMsg(sub, v.msg).value;
      assert EncValue(f, v).value == LenPrefixed(b);
      PayloadRoundTrip(b, t);
      MessageRoundTrip(sub, v.msg);
      hide DecPayload, LenPrefixed, EncMsg, Norm, Fits;
    } else {
      ScalarRoundTrip(f, v, t);
    }
  }

  lemma {:induction false} ItemsRoundTrip(f: Field, items: seq<Value>)
    requires WfField(f) && f.htype == REPEATED
    requires forall k :: 0 <= k < |items| ==>
      ValueOK(f, items[k]) && EncValue(f, items[k]).Some? && |EncValue(f, items[k]).value| < TWO_32
    ensures ItemsDecode(f, items)
    decreases f, 1
  {
    forall k, u: seq<byte> | 0 <= k < |items|
      ensures DecValue(f, EncValue(f, items[k]).value + u, Unset)
           == if FitsValue(f, items[k]) then Got(NormValue(f, items[k]), u) else Fail
    {
      ValueRoundTrip(f, items[k], Unset, u);
    }
  }

  // The payload of one field that is present and not repeated.
  lemma {:induction false} PresentPayload(d: Desc, m: Msg, i: nat, st: DState, t: seq<byte>)
    requires WfDesc(d) && MsgOK(d, m) && i < |d.fields| && Reached(d, m, i, st)
    requires d.fields[i].htype != REPEATED && Emitted(d, m, i)
    requires var e := EncValue(d.fields[i], ValueIn(SlotOf(d, m, i))); e.Some? && |e.value| < TWO_32
    ensures var f, v := d.fields[i], ValueIn(SlotOf(d, m, i));
      DecField(d, i, WireType(f.ltype), EncValue(f, v).value + t, st)
      == if FitsValue(f, v) then Got(Passed(d, i, st, Stored(f, NormValue(f, v))), t) else Fail
    decreases d, 0
  {
    hide DecField, NormValue, FitsValue, EncValue, Passed, Stored;
    var f, v := d.fields[i], ValueIn(SlotOf(d, m, i));
    var s := EncValue(f, v).value + t;
    TargetHere(d, m, i);
    assert SlotOf(d, st.msg, i) == DefaultSlot(d, Home(d.fields, i)) by {
      assert st.msg[Home(d.fields, i)] == Target(d, m, i, Home(d.fields, i));
    }
    PriorIsDefault(d, i);
    assert WfField(f);
    ValueRoundTrip(f, v, Prior(f, SlotOf(d, st.msg, i)), t);
    PresentField(d, i, WireType(f.ltype), s, st, t, FitsValue(f, v), NormValue(f, v));
  }

  // One field that is present and not repeated.
  lemma {:induction false} PresentFieldRoundTrip(d: Desc, m: Msg, i: nat, st: DState, t: seq<byte>)
    requires WfDesc(d) && MsgOK(d, m) && i < |d.fields| && Reached(d, m, i, st)
    requires d.fields[i].htype != REPEATED && Emitted(d, m, i)
    requires EncField(d, m, i).Some? && |EncField(d, m, i).value| < TWO_32
    ensures var f, v := d.fields[i], ValueIn(SlotOf(d, m, i));
      DecLoop(d, EncField(d, m, i).value + t, st)
      == if FitsValue(f, v) then DecLoop(d, t, Passed(d, i, st, Stored(f, NormValue(f, v)))) else Stuck
    decreases d, 1
  {
    hide DecLoop, DecField, EncValue, NormValue, FitsValue, Passed, Stored, Reached, Emitted, MsgOK;
    var f, v, wt := d.fields[i], ValueIn(SlotOf(d, m, i)), WireType(d.fields[i].ltype);
    var e := EncValue(f, v).value;
    PresentPayload(d, m, i, st, t);
    assert EncField(d, m, i).value + t == EncTag(wt, f.tag) + (e + t);
    KnownRecord(d, i, wt, e + t, st);
  }

  lemma {:induction false} PriorIsDefault(d: Desc, i: nat)
    requires WfDesc(d) && i < |d.fields| && d.fields[i].htype != REPEATED
    ensures var f, h := d.fields[i], Home(d.fields, i);
      f.ltype == SUBMESSAGE ==> Prior(f, DefaultSlot(d, h)) == DefaultOf(f)
  {
    assert WfField(d.fields[i]);
  }

  lemma {:induction false} PresentField(d: Desc, i: nat, wt: nat, s: seq<byte>, st: DState, t: seq<byte>, fits: bool,
                                        v: Value)
    requires i < |d.fields| && d.fields[i].htype != REPEATED
    requires DecValue(d.fields[i], s, Prior(d.fields[i], SlotOf(d, st.msg, i))) == if fits then Got(v, t) else Fail
    ensures DecField(d, i, wt, s, st)
         == if fits then Got(Passed(d, i, st, Stored(d.fields[i], v)), t) else Fail
  {
    hide DecValue;
  }

  lemma {:induction false} ArrayFieldRoundTrip(d: Desc, m: Msg, i: nat, st: DState, t: seq<byte>)
    requires WfDesc(d) && MsgOK(d, m) && i < |d.fields| && Reached(d, m, i, st)
    requires d.fields[i].htype == REPEATED && ItemsIn(SlotOf(d, m, i)) != []
    requires EncField(d, m, i).Some? && |EncField(d, m, i).value| < TWO_32
    ensures var f, items := d.fields[i], ItemsIn(SlotOf(d, m, i));
      DecLoop(d, EncField(d, m, i).value + t, st)
      == if AllFit(f, items) then DecLoop(d, t, WithItems(d, i, ArrayState(d, i, st), NormItems(f, items)))
         else Stuck
    decreases d, 0
  {
    var f, items := d.fields[i], ItemsIn(SlotOf(d, m, i));
    var st1 := ArrayState(d, i, st);
    ItemsTyped(d, m, i);
    ArrayBegins(d, m, i, st);
    hide DecLoop, EncArray, NormItems, EncTag, FitsValue, WithItems, ArrayState, Receiving, Begin, Reached;
    hide MsgOK, AllFit;
    ElementsEncode(f, items);
    ItemsRoundTrip(f, items);
    var wt, rest := ArrayHead(f, items, t);
    ArrayFirstRecord(d, i, wt, rest, st);
    ArrayRecords(d, i, items, st1, t);
  }

  lemma {:induction false} ItemsTyped(d: Desc, m: Msg, i: nat)
    requires WfDesc(d) && MsgOK(d, m) && i < |d.fields| && d.fields[i].htype == REPEATED
    ensures WfField(d.fields[i]) && SlotOf(d, m, i).Rep?
    ensures forall v <- ItemsIn(SlotOf(d, m, i)) :: ValueOK(d.fields[i], v)
  {
    assert SlotOK(d, m[i], i);
  }

  // Every element of an encoded array has an encoding of its own, no longer than the whole.
  lemma {:induction false} ElementsEncode(f: Field, items: seq<Value>)
    requires EncArray(f, items).Some?
    ensures forall k :: 0 <= k < |items| ==>
      EncValue(f, items[k]).Some? && |EncValue(f, items[k]).value| <= |EncArray(f, items).value|
    ensures Packable(f.ltype) ==> AllFit(f, items)
  {
    if items != [] {
      if Packable(f.ltype) {
        AllElements(f, items);
      } else {
        EachElement(f, items);
      }
    }
  }

  lemma {:induction false} AllElements(f: Field, items: seq<Value>)
    requires EncAll(f, items).Some?
    ensures forall k :: 0 <= k < |items| ==>
      EncValue(f, items[k]).Some? && |EncValue(f, items[k]).value| <= |EncAll(f, items).value|
    decreases |items|
  {
    if items == [] {
    } else {
      AllElements(f, items[1..]);
      assert forall k :: 1 <= k < |items| ==> items[k] == items[1..][k - 1];
      hide EncValue;
    }
  }

  lemma {:induction false} EachElement(f: Field, items: seq<Value>)
    requires EncEach(f, items).Some?
    ensures forall k :: 0 <= k < |items| ==>
      EncValue(f, items[k]).Some? && |EncValue(f, items[k]).value| <= |EncEach(f, items).value|
    decreases |items|
  {
    if items == [] {
    } else {
      EachElement(f, items[1..]);
      assert forall k :: 1 <= k < |items| ==> items[k] == items[1..][k - 1];
      hide EncValue;
    }
  }

  predicate FitsFrom(d: Desc, m: Msg, i: nat)
  {
    forall j :: i <= j < |d.fields| ==> FitsField(d, m, j)
  }

  lemma {:induction false} FitsFromStart(d: Desc, m: Msg)
    ensures Fits(d, m) <==> FitsFrom(d, m, 0)
  {
  }

  // The fields from index i on.
  lemma {:induction false} FieldsRoundTrip(d: Desc, m: Msg, i: nat, st: DState, t: seq<byte>) returns (st': DState)
    requires WfDesc(d) && MsgOK(d, m) && i <= |d.fields| && Reached(d, m, i, st)
    requires EncFrom(d, m, i).Some? && |EncFrom(d, m, i).value| < TWO_32
    ensures FitsFrom(d, m, i) ==>
      Reached(d, m, |d.fields|, st') && DecLoop(d, EncFrom(d, m, i).value + t, st) == DecLoop(d, t, st')
    ensures !FitsFrom(d, m, i) ==>
      DecLoop(d, EncFrom(d, m, i).value + t, st) == Stuck
    decreases d, 2, |d.fields| - i
  {
    hide DecLoop, EncFrom, EncField, FitsField, FitsFrom, Reached, MsgOK, WfDesc;
    if i == |d.fields| {
      NoFieldsLeft(d, m, t);
      st' := st;
    } else {
      FieldsBytes(d, m, i, t);
      FitsFromStep(d, m, i);
      var rest := EncFrom(d, m, i + 1).value;
      var st1 := FieldRoundTrip(d, m, i, st, rest + t);
      if FitsField(d, m, i) {
        st' := FieldsRoundTrip(d, m, i + 1, st1, t);
      } else {
        st' := st;
      }
    }
  }

  lemma {:induction false} NoFieldsLeft(d: Desc, m: Msg, t: seq<byte>)
    ensures EncFrom(d, m, |d.fields|) == Some([]) && [] + t == t && FitsFrom(d, m, |d.fields|)
  {
  }

  lemma {:induction false} FitsFromStep(d: Desc, m: Msg, i: nat)
    requires i < |d.fields|
    ensures FitsFrom(d, m, i) <==> FitsField(d, m, i) && FitsFrom(d, m, i + 1)
  {
  }

  lemma {:induction false} FieldsBytes(d: Desc, m: Msg, i: nat, t: seq<byte>)
    requires i < |d.fields| && EncFrom(d, m, i).Some?
    ensures EncField(d, m, i).Some? && EncFrom(d, m, i + 1).Some?
    ensures EncFrom(d, m, i).value + t == EncField(d, m, i).value + (EncFrom(d, m, i + 1).value + t)
    ensures |EncFrom(d, m, i).value| == |EncField(d, m, i).value| + |EncFrom(d, m, i + 1).value|
  {
    hide EncField;
  }

  lemma {:induction false} FieldRoundTrip(d: Desc, m: Msg, i: nat, st: DState, t: seq<byte>) returns (st': DState)
    requires WfDesc(d) && MsgOK(d, m) && i < |d.fields| && Reached(d, m, i, st)
    requires EncField(d, m, i).Some? && |EncField(d, m, i).value| < TWO_32
    ensures FitsField(d, m, i) ==>
      Reached(d, m, i + 1, st') && DecLoop(d, EncField(d, m, i).value + t, st) == DecLoop(d, t, st')
    ensures !FitsField(d, m, i) ==> DecLoop(d, EncField(d, m, i).value + t, st) == Stuck
    decreases d, 2, 0
  {
    var f, s := d.fields[i], SlotOf(d, m, i);
    st' := st;
    if f.htype == REPEATED {
      PassArray(d, m, i, st);
      if ItemsIn(s) == [] {
        assert EncField(d, m, i).value + t == t;
      } else {
        ArrayFieldRoundTrip(d, m, i, st, t);
        st' := WithItems(d, i, ArrayState(d, i, st), NormItems(f, ItemsIn(s)));
      }
    } else if Emitted(d, m, i) {
      PassPresent(d, m, i, st);
      PresentFieldRoundTrip(d, m, i, st, t);
      st' := Passed(d, i, st, Stored(f, NormValue(f, ValueIn(s))));
    } else {
      PassAbsent(d, m, i, st);
      assert EncField(d, m, i).value + t == t;
    }
    hide DecLoop, Reached, WithItems, ArrayState, NormItems, Passed, Stored, NormValue;
  }

  // The encoding of m, followed by t, leaves the loop at t with m's normal form.
  lemma {:induction false} MessageLoop(d: Desc, m: Msg, t: seq<byte>) returns (st: DState)
    requires WfDesc(d) && MsgOK(d, m)
    requires EncMsg(d, m).Some? && |EncMsg(d, m).value| < TWO_32
    ensures Fits(d, m) ==>
      Reached(d, m, |d.fields|, st)
      && DecLoop(d, EncMsg(d, m).value + t, Start(Defaults(d))) == DecLoop(d, t, st)
    ensures !Fits(d, m) ==> DecLoop(d, EncMsg(d, m).value + t, Start(Defaults(d))) == Stuck
    decreases d, 3
  {
    FitsFromStart(d, m);
    assert |m| == |d.fields|;
    hide DecLoop, EncFrom, Fits, FitsFrom, MsgOK, WfDesc;
    ReachedStart(d, m);
    hide Reached, Defaults;
    st := FieldsRoundTrip(d, m, 0, Start(Defaults(d)), t);
  }

  // Whole-message round trip.
  lemma {:induction false} MessageRoundTrip(d: Desc, m: Msg)
    requires WfDesc(d) && MsgOK(d, m)
    requires EncMsg(d, m).Some? && |EncMsg(d, m).value| < TWO_32
    ensures Decode(d, EncMsg(d, m).value) == if Fits(d, m) then Got(Norm(d, m), []) else Fail
    decreases d, 4
  {
    var b := EncMsg(d, m).value;
    var st := MessageLoop(d, m, []);
    assert b + [] == b;
    if Fits(d, m) {
      ReachedEnd(d, m, st);
    }
    hide Reached, EncMsg, Fits, Norm;
  }

  // A message on which nothing is lost is decoded to itself.
  lemma {:induction false} CanonicalRoundTrip(d: Desc, m: Msg)
    requires WfDesc(d) && MsgOK(d, m) && Canonical(d, m) && Fits(d, m)
    requires EncMsg(d, m).Some? && |EncMsg(d, m).value| < TWO_32
    ensures Decode(d, EncMsg(d, m).value) == Got(m, [])
  {
    MessageRoundTrip(d, m);
    CanonicalKept(d, m);
  }

  // What Fits is for: a string that fills its array is encoded and then rejected.
  lemma {:induction false} FullStringRejected()
    ensures var d := Desc([Field(1, STRING, REQUIRED, 0, 0, 2, 0, Null)]);
      var m := [One(Buf([65, 66]))];
      && WfDesc(d) && MsgOK(d, m) && EncMsg(d, m).Some? && |EncMsg(d, m).value| < TWO_32
      && !Fits(d, m) && Decode(d, EncMsg(d, m).value) == Fail
  {
    var f := Field(1, STRING, REQUIRED, 0, 0, 2, 0, Null);
    var d, m := Desc([f]), [One(Buf([65, 66]))];
    assert WfField(f) && SlotOK(d, m[0], 0);
    FullString();
    assert EncValue(f, m[0].value) == Some([2, 65, 66]);
    assert EncFrom(d, m, 1) == Some([]);
    assert SlotOf(d, m, 0) == m[0] && Emitted(d, m, 0);
    assert EncField(d, m, 0) == EncTagged(f, m[0].value) == Some([10] + [2, 65, 66]);
    assert EncFrom(d, m, 0) == Cat(EncField(d, m, 0), EncFrom(d, m, 1));
    assert !FitsField(d, m, 0);
    MessageRoundTrip(d, m);
  }

  lemma {:induction false} FullString()
    ensures CString([65, 66], 2) == [65, 66] && LenPrefixed([65, 66]) == [2, 65, 66] && EncTag(WT_STRING, 1) == [10]
  {
    assert [65, 66][1..] == [66] && [66][1..] == [];
    assert CString([66], 1) == [66];
  }
}
