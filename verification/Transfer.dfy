/** Two connection objects with a stream between them: the end-to-end theorem on the objects themselves. */
module Transfer {
  import opened Bytes
  import opened Primitives
  import opened Framing
  import opened TcpConnection
  import opened Delivery

  /** Calls Send for one payload after another. */
  method SendEach(c: TCPConnection, payloads: seq<seq<byte>>, random: seq<Nonce>)
    requires c.state != Disconnecting && (c.sessionKey.Length == 0 || c.sessionKey.Length == 32)
    requires |random| == |payloads|
    requires forall i :: 0 <= i < |payloads| ==> Deliverable(c.sessionKey[..], payloads[i])
    modifies c.connection`sent
    ensures c.connection.sent == old(c.connection.sent) + SendAll(c.suite, c.sessionKey[..], payloads, random)
  {
    hide Wire, SendAll, Deliverable, Sent;
    NothingToSend(c.suite, c.sessionKey[..], payloads, random);
    var i := 0;
    while i < |payloads|
      invariant 0 <= i <= |payloads|
      invariant c.connection.sent + SendAll(c.suite, c.sessionKey[..], payloads[i..], random[i..])
             == old(c.connection.sent) + SendAll(c.suite, c.sessionKey[..], payloads, random)
    {
      SendNext(c.suite, c.sessionKey[..], c.state, payloads, random, i);
      var sent := c.Send(payloads[i], random[i]);
      i := i + 1;
    }
  }

  lemma NothingToSend(suite: Suite, key: SessionKey, payloads: seq<seq<byte>>, random: seq<Nonce>)
    requires |random| == |payloads|
    requires forall i :: 0 <= i < |payloads| ==> Deliverable(key, payloads[i])
    ensures payloads[0..] == payloads && random[0..] == random
    ensures SendAll(suite, key, payloads[|payloads|..], random[|payloads|..]) == []
  {
  }

  /** The next payload is accepted, and its packet heads the rest of the stream. */
  lemma SendNext(suite: Suite, key: SessionKey, state: State, payloads: seq<seq<byte>>, random: seq<Nonce>, i: nat)
    requires |random| == |payloads| && i < |payloads| && state != Disconnecting
    requires forall i :: 0 <= i < |payloads| ==> Deliverable(key, payloads[i])
    ensures var wire := Sent(suite, Link(state, key), payloads[i], random[i]);
            && wire.Ok?
            && SendAll(suite, key, payloads[i..], random[i..])
               == wire.value + SendAll(suite, key, payloads[i + 1..], random[i + 1..])
  {
    hide Wire;
    assert payloads[i..][0] == payloads[i] && payloads[i..][1..] == payloads[i + 1..];
    assert random[i..][0] == random[i] && random[i..][1..] == random[i + 1..];
    assert Deliverable(key, payloads[i]);
    PacketDelivered(suite, key, payloads[i], random[i], []);
  }

  /** Calls Read until it fails. */
  method ReceiveUntilError(c: TCPConnection) returns (payloads: seq<seq<byte>>, error: ReadError)
    requires c.state != Disconnecting && (c.sessionKey.Length == 0 || c.sessionKey.Length == 32)
    modifies c.connection`incoming
    ensures (payloads, error) == ReadAll(c.suite, c.sessionKey[..], old(c.connection.Pending()))
  {
    hide ReadPacket, Flatten;
    payloads := [];
    ghost var all := ReadAll(c.suite, c.sessionKey[..], c.connection.Pending());
    while true
      invariant var left := ReadAll(c.suite, c.sessionKey[..], c.connection.Pending());
                all.0 == payloads + left.0 && all.1 == left.1
      decreases |c.connection.Pending()|
    {
      ghost var left := ReadAll(c.suite, c.sessionKey[..], c.connection.Pending());
      var outcome := c.Read();
      match outcome {
        case Received(body) =>
          payloads := payloads + [body];
        case Failed(e) =>
          assert left == ([], e) && payloads + [] == payloads;
          return payloads, e;
      }
    }
  }

  /** Whatever chunks the network makes of the stream, a peer with the same key reads exactly the payloads that were
      sent, in order, and then finds the connection closed. */
  method TransferAll(sender: TCPConnection, payloads: seq<seq<byte>>, random: seq<Nonce>,
                     chunks: seq<byte> -> seq<seq<byte>>)
    returns (received: seq<seq<byte>>, error: ReadError)
    requires sender.state != Disconnecting && (sender.sessionKey.Length == 0 || sender.sessionKey.Length == 32)
    requires sender.connection.sent == []
    requires |random| == |payloads|
    requires forall i :: 0 <= i < |payloads| ==> Deliverable(sender.sessionKey[..], payloads[i])
    requires forall s :: Flatten(chunks(s)) == s
    modifies sender.connection`sent
    ensures received == payloads && error == ConnectionClosed
  {
    hide ReadPacket, Flatten, SendAll, ReadAll, Deliverable;
    SendEach(sender, payloads, random);
    assert sender.connection.sent == SendAll(sender.suite, sender.sessionKey[..], payloads, random);
    var socket := new Socket(chunks(sender.connection.sent));
    var peer := new TCPConnection(sender.suite, socket);
    peer.SetSessionKey(sender.sessionKey);
    DeliveredInOrder(sender.suite, sender.sessionKey[..], payloads, random);
    received, error := ReceiveUntilError(peer);
  }
}
