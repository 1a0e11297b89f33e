// The encoder and the decoder put together: a message is written into a buffer
// of any capacity and read back from the bytes that were written.
module EndToEnd {
  import opened Bits
  import opened Wire
  import opened Descriptors
  import opened EncodeSpec
  import opened DecodeSpec
  import opened Normal
  import opened RoundTrip
  import opened InputStream
  import opened OutputStream
  import Encoder
  import Decoder

  /**
   * Encoding succeeds exactly when the sizing pass does and the buffer holds the
   * size it reports; decoding what was written succeeds exactly when every encoded
   * string leaves room for its terminator, and yields the message's normal form.
   */
  method Transfer(d: Desc, m: Msg, buffer: array<byte>, capacity: nat) returns (sent: bool, received: Option<Msg>)
    requires WfDesc(d) && MsgOK(d, m) && Encoder.Sized(d, m) && capacity <= buffer.Length
    requires capacity < TWO_32
    modifies buffer
    ensures sent <==> EncMsg(d, m).Some? && |EncMsg(d, m).value| <= capacity
    ensures sent ==> buffer[..|EncMsg(d, m).value|] == EncMsg(d, m).value
    ensures sent ==> received == if Fits(d, m) then Some(Norm(d, m)) else None
    ensures buffer[capacity..] == old(buffer[capacity..])
  {
    hide EncMsg, MsgOK, WfDesc, Encoder.Sized, DecodeSpec.Decode, Fits, Norm;
    received := None;
    var output := new OStream.FromBuffer(buffer, capacity);
    ghost var a := output.View();
    assert a.buf == buffer[..];
    sent := Encoder.Encode(output, d, m);
    if !sent {
      return;
    }
    var size := output.bytesWritten;
    assert buffer[..size] == EncMsg(d, m).value;
    MessageRoundTrip(d, m);
    var input := new IStream.FromBuffer(buffer[..], size);
    received := Decoder.Decode(input, d, Decoder.Blank(d));
  }
}
