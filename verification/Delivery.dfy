/** Lists of payloads over one stream: what is sent is what is read, in order, up to the first cut. */
module Delivery {
  import opened Wrappers
  import opened Bytes
  import opened Primitives
  import opened SymmetricSpec
  import opened Framing

  predicate Deliverable(key: SessionKey, data: seq<byte>) {
    0 < |data| <= MaxPayload(key)
  }

  /** The stream after sending the payloads one after another. */
  function SendAll(suite: Suite, key: SessionKey, payloads: seq<seq<byte>>, random: seq<Nonce>): seq<byte>
    requires |random| == |payloads| && forall i :: 0 <= i < |payloads| ==> Deliverable(key, payloads[i])
  {
    if payloads == [] then []
    else
      assert Deliverable(key, payloads[0]);
      PacketDelivered(suite, key, payloads[0], random[0], []);
      Wire(suite, key, payloads[0], random[0]).value + SendAll(suite, key, payloads[1..], random[1..])
  }

  /** Reading until the first error. */
  function ReadAll(suite: Suite, key: SessionKey, stream: seq<byte>): (seq<seq<byte>>, ReadError)
    decreases |stream|
  {
    match ReadPacket(suite, key, stream)
    case Err(e) => ([], e)
    case Ok(packet) =>
      var (more, e) := ReadAll(suite, key, packet.rest);
      ([packet.body] + more, e)
  }

  /** How many of the payloads lie completely within the first n bytes. */
  function WholePackets(suite: Suite, key: SessionKey, payloads: seq<seq<byte>>, random: seq<Nonce>, n: nat): nat
    requires |random| == |payloads| && forall i :: 0 <= i < |payloads| ==> Deliverable(key, payloads[i])
  {
    if payloads == [] then 0
    else
      assert Deliverable(key, payloads[0]);
      PacketDelivered(suite, key, payloads[0], random[0], []);
      var size := |Wire(suite, key, payloads[0], random[0]).value|;
      if n < size then 0 else 1 + WholePackets(suite, key, payloads[1..], random[1..], n - size)
  }

  /** However the stream is cut, the reader gets the payloads that arrived whole, in order and unchanged, and then
      an error that says the stream ended; nothing is reordered, repeated or altered. */
  lemma {:induction false} CutDelivery(suite: Suite, key: SessionKey, payloads: seq<seq<byte>>, random: seq<Nonce>,
                                       n: nat)
    requires |random| == |payloads| && forall i :: 0 <= i < |payloads| ==> Deliverable(key, payloads[i])
    requires n <= |SendAll(suite, key, payloads, random)|
    ensures var m := WholePackets(suite, key, payloads, random, n);
            var (read, e) := ReadAll(suite, key, SendAll(suite, key, payloads, random)[..n]);
            && m <= |payloads| && read == payloads[..m]
            && e in {ConnectionClosed, IncompleteField}
            && (n == |SendAll(suite, key, payloads, random)| ==> m == |payloads| && e == ConnectionClosed)
    decreases |payloads|
  {
    hide ReadPacket, Wire;
    var s := SendAll(suite, key, payloads, random);
    if payloads == [] {
      EmptyStream(suite, key);
    } else {
      var data := payloads[0];
      PacketDelivered(suite, key, data, random[0], []);
      var frame := Wire(suite, key, data, random[0]).value;
      var rest := SendAll(suite, key, payloads[1..], random[1..]);
      assert s == frame + rest;
      if n < |frame| {
        assert s[..n] == frame[..n];
        PartialWire(suite, key, data, random[0], n);
      } else {
        var cut := rest[..n - |frame|];
        assert s[..n] == frame + cut;
        PacketDelivered(suite, key, data, random[0], cut);
        CutDelivery(suite, key, payloads[1..], random[1..], n - |frame|);
        var m := WholePackets(suite, key, payloads[1..], random[1..], n - |frame|);
        assert payloads[..m + 1] == [data] + payloads[1..][..m];
      }
    }
  }

  lemma EmptyStream(suite: Suite, key: SessionKey)
    ensures ReadPacket(suite, key, []) == Err(ConnectionClosed)
  {
  }

  lemma PartialWire(suite: Suite, key: SessionKey, data: seq<byte>, random: Nonce, n: nat)
    requires Deliverable(key, data)
    requires Wire(suite, key, data, random).Ok? && n < |Wire(suite, key, data, random).value|
    ensures var r := ReadPacket(suite, key, Wire(suite, key, data, random).value[..n]);
            r == Err(ConnectionClosed) || r == Err(IncompleteField)
  {
    hide ReadPacket, Seal, Frame, HmacIv;
    if key == [] {
      PartialFrame(suite, key, data, n);
    } else {
      RoundTrip(suite, data, key, random);
      SealLength(suite, key, HmacIv(suite, key, random, data), data);
      PartialFrame(suite, key, Seal(suite, key, HmacIv(suite, key, random, data), data), n);
    }
  }

  /** End to end: sending any list of deliverable payloads and reading at a peer with the same key gives that list. */
  lemma DeliveredInOrder(suite: Suite, key: SessionKey, payloads: seq<seq<byte>>, random: seq<Nonce>)
    requires |random| == |payloads| && forall i :: 0 <= i < |payloads| ==> Deliverable(key, payloads[i])
    ensures ReadAll(suite, key, SendAll(suite, key, payloads, random)) == (payloads, ConnectionClosed)
  {
    var s := SendAll(suite, key, payloads, random);
    assert s[..|s|] == s && payloads[..|payloads|] == payloads;
    CutDelivery(suite, key, payloads, random, |s|);
  }
}
