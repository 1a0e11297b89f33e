// Records against each other: those of different fields may come in any order, and
// those of one submessage are put together when each is complete on its own.
module RecordOrder {
  import opened Wire
  import opened Descriptors
  import opened DecodeSpec
  import opened Merge

  // ---- records of different fields ----

  /** A declared field whose elements are not counted by the decoder itself. */
  predicate PlainField(d: Desc, i: nat)
  {
    i < |d.fields| && !IsFixedCount(d.fields[i])
  }

  // What a record does: it marks its field and stores a slot that depends on the old one only.
  lemma {:induction false} FieldEffect(d: Desc, i: nat, wt: nat, s: seq<byte>, st: DState)
    requires PlainField(d, i)
    ensures var f := d.fields[i];
      var r := DecSlot(f, wt, s, SlotOf(d, st.msg, i));
      DecField(d, i, wt, s, st) == if r.Fail? then Fail else Got(Passed(d, i, st, r.value), r.rest)
  {
    hide DecSlot, SetSlot, Home;
  }

  lemma {:induction false} OtherSlot(d: Desc, i: nat, j: nat, m: Msg, s: Slot)
    requires i < |d.fields| && j < |d.fields| && Home(d.fields, i) != Home(d.fields, j)
    ensures SlotOf(d, SetSlot(d, m, i, s), j) == SlotOf(d, m, j)
  {
    hide Home;
  }

  lemma {:induction false} PassedCommutes(d: Desc, i: nat, j: nat, st: DState, s: Slot, s': Slot)
    requires i < |d.fields| && j < |d.fields| && Home(d.fields, i) != Home(d.fields, j)
    ensures Passed(d, j, Passed(d, i, st, s), s') == Passed(d, i, Passed(d, j, st, s'), s)
  {
    hide Home, RequiredBefore;
    assert SetSlot(d, SetSlot(d, st.msg, i, s), j, s') == SetSlot(d, SetSlot(d, st.msg, j, s'), i, s);
  }

  /** One whole record of field i, read in state st */
  predicate WholeRecord(d: Desc, i: nat, wt: nat, p: seq<byte>, st: DState)
  {
    PlainField(d, i) && wt < 8 && DecField(d, i, wt, p, st).Got? && DecField(d, i, wt, p, st).rest == []
  }

  lemma {:induction false} RecordThen(d: Desc, i: nat, wt: nat, p: seq<byte>, t: seq<byte>, st: DState)
    requires WfDesc(d) && WholeRecord(d, i, wt, p, st)
    ensures DecLoop(d, EncTag(wt, d.fields[i].tag) + p + t, st) == DecLoop(d, t, DecField(d, i, wt, p, st).value)
  {
    hide DecLoop, DecField, EncTag, WfDesc;
    var f := d.fields[i];
    assert EncTag(wt, f.tag) + p + t == EncTag(wt, f.tag) + (p + t);
    assert [] + t == t;
    KnownRecord(d, i, wt, p + t, st);
    FieldExtends(d, i, wt, p, t, st);
  }

  lemma {:induction false} FieldExtends(d: Desc, i: nat, wt: nat, p: seq<byte>, t: seq<byte>, st: DState)
    requires PlainField(d, i)
    ensures Extends(DecField(d, i, wt, p, st), DecField(d, i, wt, p + t, st), t)
  {
    hide DecSlot, DecField, Passed;
    FieldEffect(d, i, wt, p, st);
    FieldEffect(d, i, wt, p + t, st);
    DecSlotExtends(d.fields[i], wt, p, SlotOf(d, st.msg, i), t);
  }

  lemma {:induction false} WholeEffect(d: Desc, i: nat, wt: nat, p: seq<byte>, st: DState)
    requires WholeRecord(d, i, wt, p, st)
    ensures i < |d.fields| && DecField(d, i, wt, p, st).Got? && DecSlot(d.fields[i], wt, p, SlotOf(d, st.msg, i)).Got?
  {
    hide DecSlot, DecField;
    FieldEffect(d, i, wt, p, st);
  }

  // The second record does the same before and after the first.
  lemma {:induction false} WholeAfter(d: Desc, i: nat, wt: nat, p: seq<byte>, j: nat, wt': nat, q: seq<byte>,
                                      st: DState)
    requires WholeRecord(d, i, wt, p, st) && WholeRecord(d, j, wt', q, st)
    requires Home(d.fields, i) != Home(d.fields, j)
    ensures var st1 := DecField(d, i, wt, p, st).value;
      && WholeRecord(d, j, wt', q, st1)
      && DecField(d, j, wt', q, st1).value
         == Passed(d, j, Passed(d, i, st, DecSlot(d.fields[i], wt, p, SlotOf(d, st.msg, i)).value),
                   DecSlot(d.fields[j], wt', q, SlotOf(d, st.msg, j)).value)
  {
    hide DecSlot, DecField, Home, SetSlot, SlotOf;
    FieldEffect(d, i, wt, p, st);
    FieldEffect(d, j, wt', q, st);
    var st1 := DecField(d, i, wt, p, st).value;
    FieldEffect(d, j, wt', q, st1);
    OtherSlot(d, i, j, st.msg, DecSlot(d.fields[i], wt, p, SlotOf(d, st.msg, i)).value);
  }

  // Two records of fields that share no storage may be exchanged.
  lemma {:induction false} RecordsCommute(d: Desc, i: nat, wt: nat, p: seq<byte>, j: nat, wt': nat, q: seq<byte>,
                                          t: seq<byte>, st: DState)
    requires WfDesc(d) && WholeRecord(d, i, wt, p, st) && WholeRecord(d, j, wt', q, st)
    requires Home(d.fields, i) != Home(d.fields, j)
    ensures var a, b := EncTag(wt, d.fields[i].tag) + p, EncTag(wt', d.fields[j].tag) + q;
      DecLoop(d, a + (b + t), st) == DecLoop(d, b + (a + t), st)
  {
    hide DecLoop, DecField, DecSlot, WholeRecord, Home, Passed, WfDesc;
    WholeEffect(d, i, wt, p, st);
    WholeEffect(d, j, wt', q, st);
    var a, b := EncTag(wt, d.fields[i].tag) + p, EncTag(wt', d.fields[j].tag) + q;
    WholeAfter(d, i, wt, p, j, wt', q, st);
    WholeAfter(d, j, wt', q, i, wt, p, st);
    RecordThen(d, i, wt, p, b + t, st);
    RecordThen(d, j, wt', q, t, DecField(d, i, wt, p, st).value);
    RecordThen(d, j, wt', q, a + t, st);
    RecordThen(d, i, wt, p, t, DecField(d, j, wt', q, st).value);
    PassedCommutes(d, i, j, st, DecSlot(d.fields[i], wt, p, SlotOf(d, st.msg, i)).value,
                   DecSlot(d.fields[j], wt', q, SlotOf(d, st.msg, j)).value);
  }

  // ---- records of fixed-count arrays ----

  /** The fixed-count array being received, if any, is one of the message. */
  predicate FixedDeclared(d: Desc, st: DState)
  {
    st.fixedField.Some? ==> st.fixedField.value < |d.fields| && IsFixedCount(d.fields[st.fixedField.value])
  }

  // When reception of a fixed-count array starts, what it held before does not matter.
  lemma {:induction false} FixedCountRestarts(d: Desc, i: nat, wt: nat, s: seq<byte>, st: DState, items: seq<Value>)
    requires i < |d.fields| == |st.msg| && IsFixedCount(d.fields[i]) && st.fixedField != Some(i) && FixedDeclared(d, st)
    ensures DecField(d, i, wt, s, st.(msg := SetSlot(d, st.msg, i, Rep(items)))) == DecField(d, i, wt, s, st)
  {
    hide DecSlot;
    var st' := st.(msg := SetSlot(d, st.msg, i, Rep(items)));
    assert SetSlot(d, st'.msg, i, Rep([])) == SetSlot(d, st.msg, i, Rep([]));
    assert Home(d.fields, i) == i;
    assert st.fixedField.Some? ==> Home(d.fields, st.fixedField.value) == st.fixedField.value;
    assert FixedComplete(d, st') == FixedComplete(d, st);
  }

  // ---- records of one submessage ----

  /** No fixed-count field at the top level of the message. */
  predicate Uncounted(d: Desc)
  {
    forall i :: 0 <= i < |d.fields| ==> !IsFixedCount(d.fields[i])
  }

  /** The outcome of a loop that had seen `more` required fields before. */
  function SeenMore(r: Loop, more: set<nat>): Loop
  {
    match r
    case Stuck => Stuck
    case Done(st, rest, zero) => Done(st.(seen := st.seen + more), rest, zero)
  }

  lemma {:induction false} RecordIgnoresSeen(d: Desc, tag: nat, wt: nat, s: seq<byte>, m: Msg, seen: set<nat>,
                                             more: set<nat>)
    requires Uncounted(d)
    ensures var r := DecRecord(d, tag, wt, s, DState(m, seen, None));
      && (r.Got? ==> r.value.fixedField == None)
      && DecRecord(d, tag, wt, s, DState(m, seen + more, None))
         == if r.Fail? then Fail else Got(r.value.(seen := r.value.seen + more), r.rest)
  {
    hide DecSlot, SkipField, SetSlot, DecField;
    var i := FindTag(d.fields, tag);
    if i.Some? {
      FieldEffect(d, i.value, wt, s, DState(m, seen, None));
      FieldEffect(d, i.value, wt, s, DState(m, seen + more, None));
      var k := {RequiredBefore(d.fields, i.value)};
      assert seen + more + k == seen + k + more;
    }
  }

  // What was seen before does not influence the loop.
  lemma {:induction false} LoopIgnoresSeen(d: Desc, s: seq<byte>, m: Msg, seen: set<nat>, more: set<nat>)
    requires Uncounted(d)
    ensures DecLoop(d, s, DState(m, seen + more, None)) == SeenMore(DecLoop(d, s, DState(m, seen, None)), more)
    ensures var r := DecLoop(d, s, DState(m, seen, None)); r.Done? ==> r.st.fixedField == None
    decreases |s|
  {
    if s == [] {
    } else {
      var tag := DecTag(s);
      if tag.Got? && tag.value.Tag? {
        var rec := DecRecord(d, tag.value.tag, tag.value.wt, tag.rest, DState(m, seen, None));
        RecordIgnoresSeen(d, tag.value.tag, tag.value.wt, tag.rest, m, seen, more);
        if rec.Got? {
          LoopIgnoresSeen(d, rec.rest, rec.value.msg, rec.value.seen, more);
          assert rec.value == DState(rec.value.msg, rec.value.seen, None);
        }
      }
    }
  }

  /** The payload does not end before its last byte. */
  predicate NoZeroTag(d: Desc, p: seq<byte>, m: Msg)
  {
    var r := DecLoop(d, p, Start(m));
    r.Done? ==> !r.zero
  }

  /** Both payloads decode on their own, the second into what the first left. */
  predicate BothComplete(sub: Desc, p: seq<byte>, q: seq<byte>, m: Msg)
  {
    var r := DecodeNoinit(sub, p, m);
    r.Got? && DecodeNoinit(sub, q, r.value).Got?
  }

  lemma {:induction false} PayloadsJoin(sub: Desc, p: seq<byte>, q: seq<byte>, m: Msg)
    requires Uncounted(sub) && NoZeroTag(sub, p, m) && BothComplete(sub, p, q, m)
    ensures DecodeNoinit(sub, p + q, m) == DecodeNoinit(sub, q, DecodeNoinit(sub, p, m).value)
  {
    var r := DecLoop(sub, p, Start(m));
    LoopConcat(sub, p, q, Start(m));
    LoopIgnoresSeen(sub, p, m, {}, {});
    LoopIgnoresSeen(sub, q, r.st.msg, {}, r.st.seen);
    assert {} + r.st.seen == r.st.seen;
    assert r.st == DState(r.st.msg, r.st.seen, None);
    hide DecLoop;
  }

  // Two records of a submessage, with required fields or without: they are rejected
  // unless each is complete on its own, and then decode like one record with the
  // concatenated payloads.
  lemma {:induction false} RequiredSubmessagesMerge(d: Desc, i: nat, p: seq<byte>, q: seq<byte>, t: seq<byte>,
                                                    st: DState)
    requires WfDesc(d) && SingleSubmessage(d, i) && Uncounted(d.fields[i].ptr.desc)
    requires |st.msg| == |d.fields| && |p| + |q| < 0x1_0000_0000
    requires NoZeroTag(d.fields[i].ptr.desc, p, MergeTarget(d, i, st))
    ensures var f := d.fields[i];
      DecLoop(d, Delimited(f, p) + Delimited(f, q) + t, st)
      == if BothComplete(f.ptr.desc, p, q, MergeTarget(d, i, st)) then DecLoop(d, Delimited(f, p + q) + t, st)
         else Stuck
  {
    hide DecLoop, DecodeNoinit, Delimited, Passed, WfDesc, NoZeroTag, Uncounted;
    var f := d.fields[i];
    var sub, m := f.ptr.desc, MergeTarget(d, i, st);
    var r := DecodeNoinit(sub, p, m);
    assert Delimited(f, p) + Delimited(f, q) + t == Delimited(f, p) + (Delimited(f, q) + t);
    SubmessageRecord(d, i, p, Delimited(f, q) + t, st);
    if r.Got? {
      var st1 := Passed(d, i, st, Stored(f, Sub(r.value)));
      TargetStored(d, i, st, r.value);
      SubmessageRecord(d, i, q, t, st1);
      var r2 := DecodeNoinit(sub, q, r.value);
      if r2.Got? {
        PayloadsJoin(sub, p, q, m);
        SubmessageRecord(d, i, p + q, t, st);
        PassedTwice(d, i, st, Stored(f, Sub(r.value)), Stored(f, Sub(r2.value)));
      }
    }
  }

  lemma {:induction false} TargetStored(d: Desc, i: nat, st: DState, m: Msg)
    requires SingleSubmessage(d, i) && |st.msg| == |d.fields|
    ensures MergeTarget(d, i, Passed(d, i, st, Stored(d.fields[i], Sub(m)))) == m
  {
  }
}
