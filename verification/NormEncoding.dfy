// The normal form of a message is encoded to the same bytes as the message itself:
// what it resets is not part of the encoding.
module NormEncoding {
  import opened Wire
  import opened Descriptors
  import opened EncodeSpec
  import opened Normal

  predicate WhichKnownValue(f: Field, v: Value)
    decreases f, 0
  {
    f.ltype == SUBMESSAGE && f.ptr.SubFields? ==> WhichKnown(f.ptr.desc, MsgIn(v))
  }

  predicate WhichKnownSlot(d: Desc, s: Slot, i: nat)
    requires i < |d.fields|
    decreases d, 0
  {
    var f := d.fields[i];
    match s
    case One(v) => WhichKnownValue(f, v)
    case Opt(has, v) => has ==> WhichKnownValue(f, v)
    case Rep(items) => forall k :: 0 <= k < |items| ==> WhichKnownValue(f, items[k])
    case Union(which, v) =>
      (match SelectedMember(d.fields, i, which)
       case Some(j) => WhichKnownValue(d.fields[j], v)
       case None => which == 0)
    case Shared => true
  }

  /** Every which-member of what is present is 0 or the tag of a member. */
  predicate WhichKnown(d: Desc, m: Msg)
    decreases d, 1
  {
    forall i :: 0 <= i < |m| && i < |d.fields| ==> WhichKnownSlot(d, m[i], i)
  }

  lemma {:induction false} NormScalarEncodes(f: Field, v: Value)
    requires ScalarOK(f, v)
    ensures EncScalar(f, NormScalar(f, v)) == EncScalar(f, v)
  {
    if f.ltype == STRING {
      var c := CString(v.bytes, f.dataSize);
      CStringNulFree(v.bytes, f.dataSize);
      CStringWhole(c, f.dataSize);
    }
  }

  lemma {:induction false} NormSlotOf(d: Desc, m: Msg, i: nat)
    requires i < |d.fields| && |m| == |d.fields|
    ensures var h := Home(d.fields, i);
      SlotOf(d, Norm(d, m), i) == NormSlot(d, m[h], h) && SlotOf(d, m, i) == m[h] && !IsContinuation(d.fields, h)
  {
    hide NormSlot;
  }

  // ---- what is left out as zero ----

  lemma {:induction false} NormIsZero(f: Field, v: Value)
    requires WfField(f) && ValueOK(f, v) && WhichKnownValue(f, v)
    ensures IsZero(f, NormValue(f, v)) == IsZero(f, v)
    decreases f, 0
  {
    if f.ltype == SUBMESSAGE {
      var d, m := f.ptr.desc, v.msg;
      forall i | 0 <= i < |d.fields|
        ensures ProtoDefault(d, Norm(d, m), i) == ProtoDefault(d, m, i)
      {
        NormProtoDefault(d, m, i);
      }
      assert AllProtoDefault(d, Norm(d, m)) == AllProtoDefault(d, m);
    }
  }

  lemma {:induction false} NormProtoDefault(d: Desc, m: Msg, i: nat)
    requires WfDesc(d) && MsgOK(d, m) && WhichKnown(d, m) && i < |d.fields|
    ensures ProtoDefault(d, Norm(d, m), i) == ProtoDefault(d, m, i)
    decreases d, 0
  {
    var f, h := d.fields[i], Home(d.fields, i);
    NormSlotOf(d, m, i);
    assert SlotOK(d, m[h], h) && WhichKnownSlot(d, m[h], h) && WfField(f);
    if IsSingular(f) {
      NormIsZero(f, m[h].value);
    }
  }

  // ---- values and arrays ----

  lemma {:induction false} NormValueEncodes(f: Field, v: Value)
    requires WfField(f) && ValueOK(f, v) && WhichKnownValue(f, v)
    ensures EncValue(f, NormValue(f, v)) == EncValue(f, v)
    decreases f, 0
  {
    if f.ltype == SUBMESSAGE {
      NormEncodes(f.ptr.desc, v.msg);
    } else {
      NormScalarEncodes(f, v);
    }
  }

  lemma {:induction false} NormItemsEncode(f: Field, items: seq<Value>)
    requires WfField(f)
    requires forall k :: 0 <= k < |items| ==> ValueOK(f, items[k]) && WhichKnownValue(f, items[k])
    ensures EncAll(f, NormItems(f, items)) == EncAll(f, items)
    ensures EncEach(f, NormItems(f, items)) == EncEach(f, items)
    decreases f, 1, |items|
  {
    if items == [] {
    } else {
      NormValueEncodes(f, items[0]);
      NormItemsEncode(f, items[1..]);
      assert NormItems(f, items)[1..] == NormItems(f, items[1..]);
      assert EncTagged(f, NormValue(f, items[0])) == EncTagged(f, items[0]);
      hide EncValue, NormValue, EncTagged;
    }
  }

  lemma {:induction false} NormArrayEncodes(f: Field, items: seq<Value>)
    requires WfField(f)
    requires forall k :: 0 <= k < |items| ==> ValueOK(f, items[k]) && WhichKnownValue(f, items[k])
    ensures EncArray(f, NormItems(f, items)) == EncArray(f, items)
    decreases f, 2
  {
    hide EncAll, EncEach;
    NormItemsEncode(f, items);
    assert NormItems(f, items) == [] <==> items == [];
  }

  // ---- fields and messages ----

  lemma {:induction false} NormEmitted(d: Desc, m: Msg, i: nat)
    requires WfDesc(d) && MsgOK(d, m) && WhichKnown(d, m) && i < |d.fields| && d.fields[i].htype != REPEATED
    ensures Emitted(d, Norm(d, m), i) == Emitted(d, m, i)
    ensures Emitted(d, m, i) ==>
      var f, v := d.fields[i], ValueIn(SlotOf(d, m, i));
      && ValueIn(SlotOf(d, Norm(d, m), i)) == NormValue(f, v)
      && WfField(f) && ValueOK(f, v) && WhichKnownValue(f, v)
    decreases d, 0
  {
    var f, h := d.fields[i], Home(d.fields, i);
    NormSlotOf(d, m, i);
    assert SlotOK(d, m[h], h) && WhichKnownSlot(d, m[h], h) && WfField(f);
    FindTagUnique(d.fields, i);
    if IsSingular(f) {
      NormIsZero(f, m[h].value);
    }
    hide Norm, SlotOf, MsgOK, WhichKnown, ValueOK, NormValue, WfDesc;
  }

  lemma {:induction false} NormFieldEncodes(d: Desc, m: Msg, i: nat)
    requires WfDesc(d) && MsgOK(d, m) && WhichKnown(d, m) && i < |d.fields|
    ensures EncField(d, Norm(d, m), i) == EncField(d, m, i)
    decreases d, 0, 1
  {
    hide WhichKnownValue, EncArray, NormItems, Norm, NormValue, EncValue, Emitted, ValueOK;
    var f := d.fields[i];
    if f.htype == REPEATED {
      assert Home(d.fields, i) == i;
      NormSlotOf(d, m, i);
      assert SlotOK(d, m[i], i) && WhichKnownSlot(d, m[i], i) && WfField(f);
      NormArrayEncodes(f, m[i].items);
    } else {
      NormEmitted(d, m, i);
      if Emitted(d, m, i) {
        NormValueEncodes(f, ValueIn(SlotOf(d, m, i)));
        hide SlotOf;
        assert EncTagged(f, NormValue(f, ValueIn(SlotOf(d, m, i)))) == EncTagged(f, ValueIn(SlotOf(d, m, i)));
      }
    }
  }

  lemma {:induction false} NormFieldsEncode(d: Desc, m: Msg, i: nat)
    requires WfDesc(d) && MsgOK(d, m) && WhichKnown(d, m) && i <= |d.fields|
    ensures EncFrom(d, Norm(d, m), i) == EncFrom(d, m, i)
    decreases d, 1, |d.fields| - i
  {
    if i == |d.fields| {
    } else {
      NormFieldEncodes(d, m, i);
      NormFieldsEncode(d, m, i + 1);
      hide EncField, Norm;
    }
  }

  // Taking the normal form changes nothing that the encoding carries.
  lemma {:induction false} NormEncodes(d: Desc, m: Msg)
    requires WfDesc(d) && MsgOK(d, m) && WhichKnown(d, m)
    ensures EncMsg(d, Norm(d, m)) == EncMsg(d, m)
    decreases d, 2
  {
    NormFieldsEncode(d, m, 0);
  }
}
