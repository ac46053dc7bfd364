/** A message through a buffer: the sizing pass, the writing pass and the decoder together. */
module Transfer {
  import opened Bytes
  import opened Wire
  import opened Schema
  import RoundTrip
  import Encoder
  import Decoder

  lemma FitsEncodes(fs: seq<Field>, m: Slots)
    requires RoundTrip.FitsSlots(fs, m)
    ensures EncodableSlots(fs, m)
  {
    forall i | 0 <= i < |fs| ensures EncodableSlot(fs[i], m[i]) {
      assert RoundTrip.FitsSlot(fs[i], m[i]);
    }
  }

  /**
   Size a message, allocate exactly that much, write it, and read it with a
   descriptor that may know fewer fields: nothing fails, the buffer is filled to
   the last byte and read to the last byte, and what arrives is the projection.
   */
  method Send(sender: seq<Field>, receiver: seq<Field>, m: Slots) returns (size: nat, received: Slots)
    requires WellFormed(sender) && WellFormed(receiver) && RoundTrip.SubSchema(receiver, sender)
    requires TypedSlots(sender, m) && RoundTrip.FitsSlots(sender, m) && |EncMessage(sender, m)| < TWO64
    ensures size == |EncMessage(sender, m)|
    ensures received == RoundTrip.ProjectSlots(receiver, sender, m)
  {
    hide EncMessage, WellFormed, TypedSlots, RoundTrip.FitsSlots, EncodableSlots, Decode, RoundTrip.SubSchema;
    FitsEncodes(sender, m);
    RoundTrip.MessageDecodes(receiver, sender, m);
    var ok;
    ok, size := Encoder.GetEncodedSize(sender, m);
    var buffer := new Encoder.Buffer(size);
    var out := new Encoder.OStream(buffer, size);
    ok := Encoder.Encode(out, sender, m);
    assert ok && buffer.data[..buffer.used] == EncMessage(sender, m) && buffer.used == size;
    var data := buffer.data[..];
    assert data == EncMessage(sender, m);
    var input := new Decoder.IStream(data, 0, |data|);
    assert input.Rest() == data;
    ok, received := Decoder.DecodeInit(input, receiver);
    assert ok && input.bytesLeft == 0;
  }
}
