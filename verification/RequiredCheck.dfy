// The check for required fields, in terms of the records of the input: which fields
// the record loop decoded, in whatever order and however often.
module RequiredCheck {
  import opened Wire
  import opened Descriptors
  import opened DecodeSpec

  /** The fields that have at least one record in s, up to the end of the message. */
  function Decoded(d: Desc, s: seq<byte>, st: DState): set<nat>
    decreases |s|
  {
    if s == [] then {}
    else
      match DecTag(s)
      case Fail => {}
      case Got(Zero, _) => {}
      case Got(Tag(tag, wt), rest) =>
        match DecRecord(d, tag, wt, rest, st)
        case Fail => {}
        case Got(st', rest') => Declared(d, tag) + Decoded(d, rest', st')
  }

  function Declared(d: Desc, tag: nat): set<nat>
  {
    var i := FindTag(d.fields, tag);
    if i.Some? then {i.value} else {}
  }

  predicate RequiredAt(d: Desc, i: nat, k: nat)
  {
    i < |d.fields| && d.fields[i].htype == REQUIRED && RequiredBefore(d.fields, i) == k
  }

  predicate Covers(d: Desc, decoded: set<nat>, k: nat)
  {
    exists i <- decoded :: RequiredAt(d, i, k)
  }

  lemma {:induction false} RecordMarks(d: Desc, tag: nat, wt: nat, s: seq<byte>, st: DState, k: nat)
    requires DecRecord(d, tag, wt, s, st).Got?
    ensures k in DecRecord(d, tag, wt, s, st).value.seen <==> k in st.seen || Covers(d, Declared(d, tag), k)
  {
    hide DecSlot, SkipField, RequiredBefore;
    var i := FindTag(d.fields, tag);
    if i.Some? {
      assert Covers(d, {i.value}, k) <==> RequiredAt(d, i.value, k) by {
        assert i.value in {i.value};
      }
    }
  }

  // The numbers marked by the loop are those of the required fields among the decoded ones.
  lemma {:induction false} SeenIsDecoded(d: Desc, s: seq<byte>, st: DState, k: nat)
    requires DecLoop(d, s, st).Done?
    ensures k in DecLoop(d, s, st).st.seen <==> k in st.seen || Covers(d, Decoded(d, s, st), k)
    decreases |s|
  {
    if s == [] {
    } else {
      var tag := DecTag(s);
      if tag.value.Tag? {
        var rec := DecRecord(d, tag.value.tag, tag.value.wt, tag.rest, st);
        RecordMarks(d, tag.value.tag, tag.value.wt, tag.rest, st, k);
        SeenIsDecoded(d, rec.rest, rec.value, k);
        CoversUnion(d, Declared(d, tag.value.tag), Decoded(d, rec.rest, rec.value), k);
      }
    }
  }

  lemma {:induction false} CoversUnion(d: Desc, a: set<nat>, b: set<nat>, k: nat)
    ensures Covers(d, a + b, k) <==> Covers(d, a, k) || Covers(d, b, k)
  {
    if i :| i in a && RequiredAt(d, i, k) {
      assert i in a + b;
    }
    if i :| i in b && RequiredAt(d, i, k) {
      assert i in a + b;
    }
  }

  // Required fields are numbered one by one in the order of the descriptors.
  lemma {:induction false} RequiredNumbered(fields: seq<Field>, n: nat, k: nat) returns (i: nat)
    requires n <= |fields| && k < RequiredBefore(fields, n)
    ensures i < n && fields[i].htype == REQUIRED && RequiredBefore(fields, i) == k
    decreases n
  {
    if k == RequiredBefore(fields, n - 1) {
      i := n - 1;
    } else {
      i := RequiredNumbered(fields, n - 1, k);
    }
  }

  lemma {:induction false} RequiredOrdered(fields: seq<Field>, i: nat, j: nat)
    requires i < j <= |fields| && fields[i].htype == REQUIRED
    ensures RequiredBefore(fields, i) < RequiredBefore(fields, j)
    decreases j
  {
    if i < j - 1 {
      RequiredOrdered(fields, i, j - 1);
    }
  }

  /** The check passes for field i if it is not a tracked required field or has a record. */
  predicate FieldChecked(d: Desc, i: nat, decoded: set<nat>)
  {
    i < |d.fields| && d.fields[i].htype == REQUIRED && RequiredBefore(d.fields, i) < 64 ==>
      i in decoded
  }

  lemma {:induction false} OnlyNumber(d: Desc, i: nat, decoded: set<nat>)
    requires i < |d.fields| && d.fields[i].htype == REQUIRED
    ensures RequiredBefore(d.fields, i) < RequiredBefore(d.fields, |d.fields|)
    ensures Covers(d, decoded, RequiredBefore(d.fields, i)) <==> i in decoded
  {
    hide RequiredBefore;
    RequiredOrdered(d.fields, i, |d.fields|);
    var k := RequiredBefore(d.fields, i);
    if i in decoded {
      assert RequiredAt(d, i, k);
    }
    if j :| j in decoded && RequiredAt(d, j, k) {
      if i < j {
        RequiredOrdered(d.fields, i, j);
      } else if j < i {
        RequiredOrdered(d.fields, j, i);
      }
    }
  }

  ghost predicate AllChecked(d: Desc, decoded: set<nat>)
  {
    forall i: nat :: FieldChecked(d, i, decoded)
  }

  lemma {:induction false} SeenIfChecked(d: Desc, s: seq<byte>, m: Msg)
    requires DecLoop(d, s, Start(m)).Done? && AllChecked(d, Decoded(d, s, Start(m)))
    ensures RequiredSeen(d, DecLoop(d, s, Start(m)).st.seen)
  {
    hide DecLoop, Decoded, RequiredBefore, Covers;
    var decoded, n := Decoded(d, s, Start(m)), |d.fields|;
    forall k: nat | k < RequiredBefore(d.fields, n) && k < MAX_REQUIRED_FIELDS
      ensures k in DecLoop(d, s, Start(m)).st.seen
    {
      var i := RequiredNumbered(d.fields, n, k);
      OnlyNumber(d, i, decoded);
      SeenIsDecoded(d, s, Start(m), k);
      assert FieldChecked(d, i, decoded);
    }
  }

  lemma {:induction false} CheckedIfSeen(d: Desc, s: seq<byte>, m: Msg)
    requires DecLoop(d, s, Start(m)).Done? && RequiredSeen(d, DecLoop(d, s, Start(m)).st.seen)
    ensures AllChecked(d, Decoded(d, s, Start(m)))
  {
    hide DecLoop, Decoded, RequiredBefore, Covers;
    forall i: nat
      ensures FieldChecked(d, i, Decoded(d, s, Start(m)))
    {
      if i < |d.fields| && d.fields[i].htype == REQUIRED {
        OnlyNumber(d, i, Decoded(d, s, Start(m)));
        SeenIsDecoded(d, s, Start(m), RequiredBefore(d.fields, i));
      }
    }
  }

  lemma {:induction false} NoinitFinishes(d: Desc, s: seq<byte>, m: Msg)
    requires DecLoop(d, s, Start(m)).Done?
    ensures var st := DecLoop(d, s, Start(m)).st;
      DecodeNoinit(d, s, m).Got? <==> FixedComplete(d, st) && RequiredSeen(d, st.seen)
  {
  }

  // Input whose records are all valid is accepted exactly when the last fixed-count
  // array is complete and each of the first 64 required fields has a record.
  lemma {:induction false} RequiredFieldsChecked(d: Desc, s: seq<byte>, m: Msg)
    requires DecLoop(d, s, Start(m)).Done?
    ensures DecodeNoinit(d, s, m).Got? <==>
      FixedComplete(d, DecLoop(d, s, Start(m)).st) && AllChecked(d, Decoded(d, s, Start(m)))
  {
    hide DecLoop, DecodeNoinit, Decoded, FixedComplete, RequiredSeen, AllChecked;
    NoinitFinishes(d, s, m);
    if RequiredSeen(d, DecLoop(d, s, Start(m)).st.seen) {
      CheckedIfSeen(d, s, m);
    } else if AllChecked(d, Decoded(d, s, Start(m))) {
      SeenIfChecked(d, s, m);
    }
  }
}
