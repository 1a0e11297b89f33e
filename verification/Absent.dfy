// What a field holds when the input has no record for it.
module Absent {
  import opened Wire
  import opened Descriptors
  import opened DecodeSpec
  import opened RequiredCheck

  /** v is the default that the descriptor gives, or else zero, empty, or nothing set. */
  predicate HoldsDefault(f: Field, v: Value)
    decreases f, 0
  {
    if f.ltype == SUBMESSAGE then
      && f.ptr.SubFields? && v.Sub? && |v.msg| == |f.ptr.desc.fields|
      && forall j :: 0 <= j < |v.msg| ==> HoldsNoRecord(f.ptr.desc, j, v.msg[j])
    else if f.ptr.DefaultValue? then v == f.ptr.value
    else
      match f.ltype
      case BYTES => v == Buf([])
      case STRING => v == Buf([])
      case FIXED_LENGTH_BYTES => v.Buf? && |v.bytes| == f.dataSize && forall k :: 0 <= k < |v.bytes| ==> v.bytes[k] == 0
      case _ => v == Num(0)
  }

  /** The slot of field i is as if no record had come for it. */
  predicate HoldsNoRecord(d: Desc, i: nat, s: Slot)
    requires i < |d.fields|
    decreases d, 0
  {
    var f := d.fields[i];
    if IsContinuation(d.fields, i) then s == Shared
    else
      match f.htype
      case REQUIRED => s.One? && HoldsDefault(f, s.value)
      case OPTIONAL => (if f.sizeOffset == 0 then s.One? else s.Opt? && !s.has) && HoldsDefault(f, s.value)
      case REPEATED => s == Rep([])
      case ONEOF => s.Union? && s.which == 0
  }

  lemma {:induction false} DefaultHolds(f: Field)
    requires f.ltype == SUBMESSAGE ==> f.ptr.SubFields? && WfDesc(f.ptr.desc)
    ensures HoldsDefault(f, DefaultOf(f))
    decreases f, 0
  {
    if f.ltype == SUBMESSAGE {
      DefaultsHold(f.ptr.desc);
    }
  }

  lemma {:induction false} DefaultsHold(d: Desc)
    requires WfDesc(d)
    ensures forall i :: 0 <= i < |d.fields| ==>
      HoldsNoRecord(d, i, Defaults(d)[i]) && Defaults(d)[i] == DefaultSlot(d, i)
    decreases d, 1
  {
    forall i | 0 <= i < |d.fields|
      ensures HoldsNoRecord(d, i, Defaults(d)[i])
    {
      assert WfField(d.fields[i]);
      DefaultHolds(d.fields[i]);
      hide HoldsDefault, DefaultOf;
    }
  }

  // A record touches no slot but that of its field.
  lemma {:induction false} RecordKeepsSlot(d: Desc, tag: nat, wt: nat, s: seq<byte>, st: DState, h: nat)
    requires |st.msg| == |d.fields| && h < |d.fields| && DecRecord(d, tag, wt, s, st).Got?
    requires forall i <- Declared(d, tag) :: i < |d.fields| && Home(d.fields, i) != h
    ensures var st' := DecRecord(d, tag, wt, s, st).value;
      |st'.msg| == |d.fields| && st'.msg[h] == st.msg[h]
  {
    hide DecSlot, SkipField, Home;
    var i := FindTag(d.fields, tag);
    assert i.Some? ==> i.value in Declared(d, tag);
  }

  /** No field of the slot h has a record in s. */
  predicate NoRecord(d: Desc, s: seq<byte>, st: DState, h: nat)
  {
    forall i <- Decoded(d, s, st) :: i < |d.fields| ==> Home(d.fields, i) != h
  }

  lemma {:induction false} LoopKeepsSlot(d: Desc, s: seq<byte>, st: DState, h: nat)
    requires |st.msg| == |d.fields| && h < |d.fields| && DecLoop(d, s, st).Done? && NoRecord(d, s, st, h)
    ensures var st' := DecLoop(d, s, st).st;
      |st'.msg| == |d.fields| && st'.msg[h] == st.msg[h]
    decreases |s|
  {
    if s == [] {
    } else {
      var tag := DecTag(s);
      if tag.value.Tag? {
        var rec := DecRecord(d, tag.value.tag, tag.value.wt, tag.rest, st);
        assert Decoded(d, s, st) == Declared(d, tag.value.tag) + Decoded(d, rec.rest, rec.value);
        forall i <- Declared(d, tag.value.tag)
          ensures i < |d.fields| && Home(d.fields, i) != h
        {
          assert i in Decoded(d, s, st);
        }
        RecordKeepsSlot(d, tag.value.tag, tag.value.wt, tag.rest, st, h);
        assert NoRecord(d, rec.rest, rec.value, h) by {
          assert forall i <- Decoded(d, rec.rest, rec.value) :: i in Decoded(d, s, st);
        }
        LoopKeepsSlot(d, rec.rest, rec.value, h);
      }
    }
  }

  // Decoding on top of a struct: what has no record keeps its contents.
  lemma {:induction false} UntouchedKept(d: Desc, s: seq<byte>, m: Msg, h: nat)
    requires |m| == |d.fields| && h < |d.fields| && DecodeNoinit(d, s, m).Got? && NoRecord(d, s, Start(m), h)
    ensures |DecodeNoinit(d, s, m).value| == |d.fields| && DecodeNoinit(d, s, m).value[h] == m[h]
  {
    NoinitIsLoop(d, s, m);
    LoopKeepsSlot(d, s, Start(m), h);
    hide DecLoop, DecodeNoinit, NoRecord;
  }

  lemma {:induction false} NoinitIsLoop(d: Desc, s: seq<byte>, m: Msg)
    requires DecodeNoinit(d, s, m).Got?
    ensures DecLoop(d, s, Start(m)).Done? && DecodeNoinit(d, s, m).value == DecLoop(d, s, Start(m)).st.msg
  {
  }

  // Decoding into a fresh struct: a field without record holds the default of its
  // descriptor, or else 0, empty, all zero bytes or a submessage with nothing set; its
  // has-flag is false, its count 0, its which-member 0.
  lemma {:induction false} AbsentHoldsDefault(d: Desc, s: seq<byte>, h: nat)
    requires WfDesc(d) && h < |d.fields| && Decode(d, s).Got? && NoRecord(d, s, Start(Defaults(d)), h)
    ensures |Decode(d, s).value| == |d.fields| && HoldsNoRecord(d, h, Decode(d, s).value[h])
  {
    hide DecodeNoinit, NoRecord, HoldsNoRecord, WfDesc;
    DefaultsHold(d);
    UntouchedKept(d, s, Defaults(d), h);
  }

  // For example, a field with default 5 and no input at all.
  lemma {:induction false} EmptyInputGivesDefault()
    ensures var d := Desc([Field(1, VARINT, OPTIONAL, 0, 1, 4, 0, DefaultValue(Num(5)))]);
      Decode(d, []) == Got([Opt(false, Num(5))], [])
  {
    var f := Field(1, VARINT, OPTIONAL, 0, 1, 4, 0, DefaultValue(Num(5)));
    var d := Desc([f]);
    assert DefaultOf(f) == Num(5) && !IsContinuation(d.fields, 0);
    assert DefaultSlot(d, 0) == Opt(false, Num(5));
    assert Defaults(d) == [Opt(false, Num(5))];
    assert RequiredBefore(d.fields, 1) == RequiredBefore(d.fields, 0) == 0;
    assert DecLoop(d, [], Start(Defaults(d))) == Done(Start(Defaults(d)), [], false);
  }
}
