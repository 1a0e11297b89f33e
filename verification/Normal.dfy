// What of a message survives encoding and decoding.
//
// Norm(d, m) is m with everything reset that the encoding does not carry:
// absent optional fields, unselected oneofs, and the bytes after a string's NUL.
// Fits(d, m) says that every encoded string leaves room for its terminator.
module Normal {
  import opened Bits
  import opened Wire
  import opened Descriptors
  import opened EncodeSpec

  function NormScalar(f: Field, v: Value): Value
  {
    if f.ltype == STRING then Buf(CString(BytesIn(v), f.dataSize)) else v
  }

  function NormValue(f: Field, v: Value): Value
    decreases f, 0
  {
    if f.ltype == SUBMESSAGE then
      (if f.ptr.SubFields? then Sub(Norm(f.ptr.desc, MsgIn(v))) else v)
    else NormScalar(f, v)
  }

  function NormItems(f: Field, items: seq<Value>): (r: seq<Value>)
    ensures |r| == |items|
    decreases f, 1, |items|
  {
    if items == [] then [] else [NormValue(f, items[0])] + NormItems(f, items[1..])
  }

  function NormSlot(d: Desc, s: Slot, i: nat): Slot
    requires i < |d.fields|
    decreases d, 0
  {
    var f := d.fields[i];
    if IsContinuation(d.fields, i) then Shared
    else
      match f.htype
      case REQUIRED => One(NormValue(f, ValueIn(s)))
      case OPTIONAL =>
        if f.sizeOffset == 0 then One(NormValue(f, ValueIn(s)))
        else if s.Opt? && s.has then Opt(true, NormValue(f, s.value))
        else Opt(false, DefaultOf(f))
      case REPEATED => Rep(NormItems(f, ItemsIn(s)))
      case ONEOF =>
        match SelectedMember(d.fields, i, WhichIn(s))
        case Some(j) => Union(WhichIn(s), NormValue(d.fields[j], ValueIn(s)))
        case None => Union(0, Unset)
  }

  function Norm(d: Desc, m: Msg): (r: Msg)
    ensures |r| == |d.fields|
    decreases d, 1
  {
    seq(|d.fields|, i requires 0 <= i < |d.fields| => NormSlot(d, if i < |m| then m[i] else Shared, i))
  }

  predicate FitsScalar(f: Field, v: Value)
  {
    f.ltype == STRING ==> |CString(BytesIn(v), f.dataSize)| < f.dataSize
  }

  predicate FitsValue(f: Field, v: Value)
    decreases f
  {
    if f.ltype == SUBMESSAGE then f.ptr.SubFields? ==> Fits(f.ptr.desc, MsgIn(v))
    else FitsScalar(f, v)
  }

  predicate FitsField(d: Desc, m: Msg, i: nat)
    requires i < |d.fields|
    decreases d, 0
  {
    var f, s := d.fields[i], SlotOf(d, m, i);
    if f.htype == REPEATED then forall k :: 0 <= k < |ItemsIn(s)| ==> FitsValue(f, ItemsIn(s)[k])
    else Emitted(d, m, i) ==> FitsValue(f, ValueIn(s))
  }

  predicate Fits(d: Desc, m: Msg)
    decreases d, 1
  {
    forall i :: 0 <= i < |d.fields| ==> FitsField(d, m, i)
  }

  // ---- messages on which nothing is lost ----

  predicate CanonicalValue(f: Field, v: Value)
    decreases f, 0
  {
    if f.ltype == SUBMESSAGE then f.ptr.SubFields? ==> Canonical(f.ptr.desc, MsgIn(v))
    else f.ltype == STRING ==> forall k :: 0 <= k < |BytesIn(v)| ==> BytesIn(v)[k] != 0
  }

  predicate CanonicalSlot(d: Desc, s: Slot, i: nat)
    requires i < |d.fields|
    decreases d, 0
  {
    var f := d.fields[i];
    match s
    case One(v) => CanonicalValue(f, v)
    case Opt(has, v) => if has then CanonicalValue(f, v) else v == DefaultOf(f)
    case Rep(items) => forall k :: 0 <= k < |items| ==> CanonicalValue(f, items[k])
    case Union(which, v) =>
      (match SelectedMember(d.fields, i, which)
       case Some(j) => CanonicalValue(d.fields[j], v)
       case None => which == 0 && v == Unset)
    case Shared => true
  }

  /** Absent optionals hold their default, unselected oneofs are clear, strings hold no NUL. */
  predicate Canonical(d: Desc, m: Msg)
    decreases d, 1
  {
    forall i :: 0 <= i < |m| && i < |d.fields| ==> CanonicalSlot(d, m[i], i)
  }

  lemma {:induction false} CStringWhole(b: seq<byte>, max: nat)
    requires |b| <= max && forall k :: 0 <= k < |b| ==> b[k] != 0
    ensures CString(b, max) == b
  {
    if b == [] {
    } else {
      CStringWhole(b[1..], max - 1);
    }
  }

  lemma {:induction false} CanonicalValueKept(f: Field, v: Value)
    requires ValueOK(f, v) && CanonicalValue(f, v)
    ensures NormValue(f, v) == v
    decreases f, 0
  {
    if f.ltype == SUBMESSAGE {
      CanonicalKept(f.ptr.desc, v.msg);
    } else if f.ltype == STRING {
      assert BytesIn(v) == v.bytes;
      CStringWhole(v.bytes, f.dataSize);
    }
  }

  lemma {:induction false} CanonicalItemsKept(f: Field, items: seq<Value>)
    requires forall k :: 0 <= k < |items| ==> ValueOK(f, items[k]) && CanonicalValue(f, items[k])
    ensures NormItems(f, items) == items
    decreases f, 1, |items|
  {
    if items == [] {
    } else {
      CanonicalValueKept(f, items[0]);
      CanonicalItemsKept(f, items[1..]);
    }
  }

  lemma {:induction false} CanonicalSlotKept(d: Desc, s: Slot, i: nat)
    requires i < |d.fields| && SlotOK(d, s, i) && CanonicalSlot(d, s, i)
    ensures NormSlot(d, s, i) == s
    decreases d, 0
  {
    var f := d.fields[i];
    match s
    case One(v) => CanonicalValueKept(f, v);
    case Opt(has, v) => if has { CanonicalValueKept(f, v); }
    case Rep(items) => CanonicalItemsKept(f, items);
    case Union(which, v) =>
      var j := SelectedMember(d.fields, i, which);
      if j.Some? {
        CanonicalValueKept(d.fields[j.value], v);
      }
    case Shared =>
  }

  // A canonical message is its own normal form.
  lemma {:induction false} CanonicalKept(d: Desc, m: Msg)
    requires MsgOK(d, m) && Canonical(d, m)
    ensures Norm(d, m) == m
    decreases d, 1
  {
    forall i | 0 <= i < |m|
      ensures Norm(d, m)[i] == m[i]
    {
      CanonicalSlotKept(d, m[i], i);
    }
  }

  // ---- and only on those is nothing lost ----

  lemma {:induction false} CStringNulFree(b: seq<byte>, max: nat)
    ensures forall k :: 0 <= k < |CString(b, max)| ==> CString(b, max)[k] != 0
  {
    if b == [] || max == 0 || b[0] == 0 {
    } else {
      CStringNulFree(b[1..], max - 1);
    }
  }

  lemma {:induction false} KeptValueCanonical(f: Field, v: Value)
    requires ValueOK(f, v) && NormValue(f, v) == v
    ensures CanonicalValue(f, v)
    decreases f, 0
  {
    if f.ltype == SUBMESSAGE {
      KeptCanonical(f.ptr.desc, v.msg);
    } else if f.ltype == STRING {
      CStringNulFree(BytesIn(v), f.dataSize);
    }
  }

  lemma {:induction false} KeptItemsCanonical(f: Field, items: seq<Value>)
    requires (forall k :: 0 <= k < |items| ==> ValueOK(f, items[k])) && NormItems(f, items) == items
    ensures forall k :: 0 <= k < |items| ==> CanonicalValue(f, items[k])
    decreases f, 1, |items|
  {
    if items == [] {
    } else {
      var head, tail := NormValue(f, items[0]), NormItems(f, items[1..]);
      assert NormItems(f, items) == [head] + tail;
      assert head == items[0] && tail == items[1..];
      KeptValueCanonical(f, items[0]);
      KeptItemsCanonical(f, items[1..]);
      assert forall k :: 1 <= k < |items| ==> items[k] == items[1..][k - 1];
    }
  }

  lemma {:induction false} KeptSlotCanonical(d: Desc, s: Slot, i: nat)
    requires i < |d.fields| && SlotOK(d, s, i) && NormSlot(d, s, i) == s
    ensures CanonicalSlot(d, s, i)
    decreases d, 0
  {
    var f := d.fields[i];
    match s
    case One(v) => KeptValueCanonical(f, v);
    case Opt(has, v) => if has { KeptValueCanonical(f, v); }
    case Rep(items) => KeptItemsCanonical(f, items);
    case Union(which, v) =>
      var j := SelectedMember(d.fields, i, which);
      if j.Some? {
        KeptValueCanonical(d.fields[j.value], v);
      }
    case Shared =>
  }

  lemma {:induction false} KeptCanonical(d: Desc, m: Msg)
    requires MsgOK(d, m) && Norm(d, m) == m
    ensures Canonical(d, m)
    decreases d, 1
  {
    forall i | 0 <= i < |m|
      ensures CanonicalSlot(d, m[i], i)
    {
      assert Norm(d, m)[i] == NormSlot(d, m[i], i);
      KeptSlotCanonical(d, m[i], i);
    }
  }

  // The messages on which nothing is lost are exactly the canonical ones.
  lemma {:induction false} NothingLostIff(d: Desc, m: Msg)
    requires MsgOK(d, m)
    ensures Norm(d, m) == m <==> Canonical(d, m)
  {
    hide Norm, Canonical, MsgOK;
    if Canonical(d, m) {
      CanonicalKept(d, m);
    } else if Norm(d, m) == m {
      KeptCanonical(d, m);
    }
  }

  // ---- fields that are left out of the encoding keep their value ----

  lemma {:induction false} ZeroIsDefault(f: Field, v: Value)
    requires WfField(f) && ValueOK(f, v) && !f.ptr.DefaultValue?
    requires IsZero(f, v)
    ensures NormValue(f, v) == DefaultOf(f)
    decreases f, 0
  {
    if f.ltype == SUBMESSAGE {
      var d, m := f.ptr.desc, v.msg;
      forall i | 0 <= i < |m|
        ensures Norm(d, m)[i] == Defaults(d)[i]
      {
        assert AllProtoDefault(d, m);
        ZeroSlotIsDefault(d, m, i);
      }
      assert Norm(d, m) == Defaults(d);
    }
  }

  lemma {:induction false} ZeroSlotIsDefault(d: Desc, m: Msg, i: nat)
    requires WfDesc(d) && MsgOK(d, m) && i < |d.fields|
    requires ProtoDefault(d, m, i)
    ensures NormSlot(d, m[i], i) == DefaultSlot(d, i)
    decreases d, 0
  {
    var f := d.fields[i];
    assert SlotOK(d, m[i], i) && WfField(f);
    if !IsContinuation(d.fields, i) && IsSingular(f) {
      ZeroIsDefault(f, m[i].value);
    }
  }
}
