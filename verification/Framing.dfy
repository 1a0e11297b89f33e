// Several messages in one byte stream, delimited by length or by a zero tag.
module Framing {
  import opened Wire
  import opened Descriptors
  import opened EncodeSpec
  import opened DecodeSpec
  import opened Normal
  import opened RoundTrip

  datatype Framing = Delimited | NullTerminated

  datatype Item = Item(desc: Desc, msg: Msg)

  function EncFramed(fr: Framing, d: Desc, m: Msg): Option<seq<byte>>
  {
    match EncMsg(d, m)
    case None => None
    case Some(b) => if fr.Delimited? then Some(LenPrefixed(b)) else Some(b + [0])
  }

  /** One call of pb_decode_delimited or pb_decode_nullterminated. */
  function DecFramed(fr: Framing, d: Desc, s: seq<byte>): Parsed<Msg>
  {
    if fr.Delimited? then
      match DecPayload(s)
      case Fail => Fail
      case Got(p, rest) => (match Decode(d, p) case Fail => Fail case Got(m, _) => Got(m, rest))
    else Decode(d, s)
  }

  function EncStream(fr: Framing, items: seq<Item>): Option<seq<byte>>
  {
    if items == [] then Some([])
    else Cat(EncFramed(fr, items[0].desc, items[0].msg), EncStream(fr, items[1..]))
  }

  /** One decoding call per descriptor, each on what the previous call left. */
  function DecStream(fr: Framing, descs: seq<Desc>, s: seq<byte>): Parsed<seq<Msg>>
  {
    if descs == [] then Got([], s)
    else
      match DecFramed(fr, descs[0], s)
      case Fail => Fail
      case Got(m, rest) =>
        match DecStream(fr, descs[1..], rest)
        case Fail => Fail
        case Got(ms, rest') => Got([m] + ms, rest')
  }

  predicate Encodable(it: Item)
  {
    && WfDesc(it.desc) && MsgOK(it.desc, it.msg) && Fits(it.desc, it.msg)
    && EncMsg(it.desc, it.msg).Some? && |EncMsg(it.desc, it.msg).value| < 0x1_0000_0000
  }

  function Descs(items: seq<Item>): (r: seq<Desc>)
    ensures |r| == |items|
  {
    seq(|items|, i requires 0 <= i < |items| => items[i].desc)
  }

  function Norms(items: seq<Item>): (r: seq<Msg>)
    ensures |r| == |items|
  {
    seq(|items|, i requires 0 <= i < |items| => Norm(items[i].desc, items[i].msg))
  }

  // The length and the message, or the message and a zero byte.
  lemma {:induction false} FramedBytes(fr: Framing, d: Desc, m: Msg)
    ensures EncFramed(fr, d, m).Some? <==> EncMsg(d, m).Some?
    ensures EncMsg(d, m).Some? ==>
      EncFramed(Delimited, d, m).value == EncVarint(|EncMsg(d, m).value|) + EncMsg(d, m).value
      && EncFramed(NullTerminated, d, m).value == EncMsg(d, m).value + [0]
  {
    hide EncMsg, EncVarint;
  }

  lemma {:induction false} DelimitedOne(it: Item, t: seq<byte>)
    requires Encodable(it)
    ensures DecFramed(Delimited, it.desc, EncFramed(Delimited, it.desc, it.msg).value + t)
         == Got(Norm(it.desc, it.msg), t)
  {
    hide Decode, Norm, DecPayload, EncMsg, Fits, MsgOK, WfDesc;
    PayloadRoundTrip(EncMsg(it.desc, it.msg).value, t);
    MessageRoundTrip(it.desc, it.msg);
  }

  // The zero byte ends the loop exactly where the next message starts.
  lemma {:induction false} NullTerminatedOne(it: Item, t: seq<byte>)
    requires Encodable(it)
    ensures DecFramed(NullTerminated, it.desc, EncFramed(NullTerminated, it.desc, it.msg).value + t)
         == Got(Norm(it.desc, it.msg), t)
  {
    var b := EncMsg(it.desc, it.msg).value;
    var st := MessageLoop(it.desc, it.msg, [0] + t);
    assert b + [0] + t == b + ([0] + t);
    assert ([0] + t)[1..] == t;
    assert DecTag([0] + t) == Got(Zero, t);
    assert DecLoop(it.desc, [0] + t, st) == Done(st, t, true);
    ReachedEnd(it.desc, it.msg, st);
    hide DecLoop, Reached, Norm, EncMsg;
  }

  lemma {:induction false} FramedOne(fr: Framing, it: Item, t: seq<byte>)
    requires Encodable(it)
    ensures EncFramed(fr, it.desc, it.msg).Some?
    ensures DecFramed(fr, it.desc, EncFramed(fr, it.desc, it.msg).value + t) == Got(Norm(it.desc, it.msg), t)
  {
    hide DecFramed, EncMsg, Norm;
    if fr.Delimited? {
      DelimitedOne(it, t);
    } else {
      NullTerminatedOne(it, t);
    }
  }

  // Messages written one after the other are read back one call at a time, and
  // each call leaves exactly the bytes of the rest.
  lemma {:induction false} StreamRoundTrip(fr: Framing, items: seq<Item>, t: seq<byte>)
    requires forall i :: 0 <= i < |items| ==> Encodable(items[i])
    ensures EncStream(fr, items).Some?
    ensures DecStream(fr, Descs(items), EncStream(fr, items).value + t) == Got(Norms(items), t)
    decreases |items|
  {
    if items == [] {
      assert [] + t == t;
    } else {
      var it := items[0];
      FirstItem(items);
      StreamRoundTrip(fr, items[1..], t);
      var rest := EncStream(fr, items[1..]).value;
      FramedOne(fr, it, rest + t);
      var s := EncFramed(fr, it.desc, it.msg).value + (rest + t);
      StreamBytes(fr, items, t);
      hide DecFramed, EncFramed, Norm, Encodable, Descs, Norms, DecStream, EncStream;
      StreamStep(fr, it.desc, Descs(items[1..]), s);
    }
  }

  lemma {:induction false} StreamBytes(fr: Framing, items: seq<Item>, t: seq<byte>)
    requires items != [] && EncStream(fr, items[1..]).Some? && EncFramed(fr, items[0].desc, items[0].msg).Some?
    ensures EncStream(fr, items).Some?
    ensures EncStream(fr, items).value + t
         == EncFramed(fr, items[0].desc, items[0].msg).value + (EncStream(fr, items[1..]).value + t)
  {
    hide EncFramed;
  }

  lemma {:induction false} FirstItem(items: seq<Item>)
    requires items != []
    ensures Descs(items) == [items[0].desc] + Descs(items[1..])
    ensures Norms(items) == [Norm(items[0].desc, items[0].msg)] + Norms(items[1..])
  {
    hide Norm;
  }

  lemma {:induction false} StreamStep(fr: Framing, d: Desc, descs: seq<Desc>, s: seq<byte>)
    requires DecFramed(fr, d, s).Got?
    ensures var one := DecFramed(fr, d, s);
      var more := DecStream(fr, descs, one.rest);
      more.Got? ==> DecStream(fr, [d] + descs, s) == Got([one.value] + more.value, more.rest)
  {
    assert ([d] + descs)[1..] == descs;
    hide DecFramed;
  }
}
