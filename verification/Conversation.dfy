/** Everything a client sends in a session can be read by a peer that follows the same keys, down to the headers
    and bodies of the messages. */
module Conversation {
  import opened Wrappers
  import opened Bytes
  import opened Primitives
  import opened Framing
  import opened Delivery
  import opened Codec
  import opened Messages
  import opened Handlers
  import opened TcpConnection
  import opened Unpacking
  import opened Handshake

  /** A packet as it was sent: the key in force, the random bytes and the payload. */
  datatype Item = Item(key: seq<byte>, nonce: Nonce, payload: seq<byte>)

  function Items(log: seq<Action>): seq<Item> {
    if log == [] then []
    else
      var last := log[|log| - 1];
      Items(log[..|log| - 1]) + (if last.Sent? then [Item(last.key, last.nonce, last.payload)] else [])
  }

  /** A key, or none, and a payload within the peer's bound for it. */
  predicate Readable(item: Item) {
    && (|item.key| == 0 || |item.key| == 32)
    && Deliverable(item.key, item.payload)
  }

  predicate AllReadable(items: seq<Item>) {
    forall i :: 0 <= i < |items| ==> Readable(items[i])
  }

  function Stream(suite: Suite, items: seq<Item>): seq<byte> {
    if items == [] then []
    else
      var wire := Wire(suite, items[0].key, items[0].payload, items[0].nonce);
      (if wire.Ok? then wire.value else []) + Stream(suite, items[1..])
  }

  /** What a peer gets that reads one packet after another, the n-th with the n-th key, until a read fails or the keys
      run out: the packets, the error, and what it left unread. */
  function ReadKeyed(suite: Suite, keys: seq<seq<byte>>, stream: seq<byte>)
    : (seq<seq<byte>>, Option<ReadError>, seq<byte>)
  {
    if keys == [] then ([], None, stream)
    else
      match ReadPacket(suite, keys[0], stream)
      case Err(e) => ([], Some(e), stream)
      case Ok(packet) =>
        var (more, e, rest) := ReadKeyed(suite, keys[1..], packet.rest);
        ([packet.body] + more, e, rest)
  }

  function Keys(items: seq<Item>): (keys: seq<seq<byte>>)
    ensures |keys| == |items|
  {
    seq(|items|, i requires 0 <= i < |items| => items[i].key)
  }

  function Payloads(items: seq<Item>): (payloads: seq<seq<byte>>)
    ensures |payloads| == |items|
  {
    seq(|items|, i requires 0 <= i < |items| => items[i].payload)
  }

  lemma {:induction false} StreamConcat(suite: Suite, a: seq<Item>, b: seq<Item>)
    ensures Stream(suite, a + b) == Stream(suite, a) + Stream(suite, b)
  {
    hide Wire;
    if a == [] {
      assert a + b == b;
    } else {
      assert (a + b)[0] == a[0] && (a + b)[1..] == a[1..] + b;
      StreamConcat(suite, a[1..], b);
    }
  }

  lemma StreamOne(suite: Suite, item: Item)
    ensures var wire := Wire(suite, item.key, item.payload, item.nonce);
            Stream(suite, [item]) == if wire.Ok? then wire.value else []
  {
    hide Wire;
    assert [item][1..] == [] && Stream(suite, []) == [];
  }

  lemma {:induction false} OutIsStream(suite: Suite, log: seq<Action>)
    ensures OutOf(suite, log) == Stream(suite, Items(log))
  {
    hide Wire;
    if log != [] {
      var last := log[|log| - 1];
      OutIsStream(suite, log[..|log| - 1]);
      if last.Sent? {
        var item := Item(last.key, last.nonce, last.payload);
        StreamConcat(suite, Items(log[..|log| - 1]), [item]);
        StreamOne(suite, item);
      } else {
        assert Items(log) == Items(log[..|log| - 1]);
      }
    }
  }

  /** How many of the packets lie completely within the first n bytes. */
  function WholeItems(suite: Suite, items: seq<Item>, n: nat): nat
    requires AllReadable(items)
  {
    if items == [] then 0
    else
      PacketDelivered(suite, items[0].key, items[0].payload, items[0].nonce, []);
      var size := |Wire(suite, items[0].key, items[0].payload, items[0].nonce).value|;
      if n < size then 0 else 1 + WholeItems(suite, items[1..], n - size)
  }

  /** However the stream is cut, a peer that changes keys with the sender gets the payloads that arrived whole, in
      order, and then an error that says the stream ended; from the uncut stream it gets all, and nothing is left. */
  lemma {:induction false} StreamReadable(suite: Suite, items: seq<Item>, n: nat)
    requires AllReadable(items) && n <= |Stream(suite, items)|
    ensures var m := WholeItems(suite, items, n);
            var (read, e, rest) := ReadKeyed(suite, Keys(items), Stream(suite, items)[..n]);
            && m <= |items| && read == Payloads(items)[..m]
            && (if m == |items| then e == None && rest == []
                else e == Some(ConnectionClosed) || e == Some(IncompleteField))
            && (m == |items| <==> n == |Stream(suite, items)|)
    decreases |items|
  {
    hide Wire, ReadPacket;
    if items == [] {
      return;
    }
    var first, rest := items[0], items[1..];
    PacketDelivered(suite, first.key, first.payload, first.nonce, []);
    var frame := Wire(suite, first.key, first.payload, first.nonce).value;
    var all := Stream(suite, items);
    assert all == frame + Stream(suite, rest);
    assert Keys(items)[0] == first.key && Keys(items)[1..] == Keys(rest);
    if n < |frame| {
      assert all[..n] == frame[..n];
      PartialWire(suite, first.key, first.payload, first.nonce, n);
    } else {
      var cut := Stream(suite, rest)[..n - |frame|];
      assert all[..n] == frame + cut;
      PacketDelivered(suite, first.key, first.payload, first.nonce, cut);
      StreamReadable(suite, rest, n - |frame|);
      var m := WholeItems(suite, rest, n - |frame|);
      assert Payloads(items)[..m + 1] == [first.payload] + Payloads(rest)[..m];
    }
  }

  /** The packets of a history are readable once they respect the bound. */
  lemma {:induction false} HistoryReadable(env: Env, log: seq<Action>)
    requires forall n :: 0 <= n < |log| && log[n].Sent? ==> Readable(Item(log[n].key, log[n].nonce, log[n].payload))
    ensures AllReadable(Items(log))
  {
    hide Readable;
    if log != [] {
      var before := log[..|log| - 1];
      assert forall n :: 0 <= n < |before| ==> before[n] == log[n];
      HistoryReadable(env, before);
    }
  }

  /** Every packet in the history respects the peer's bound. */
  predicate WithinBound(log: seq<Action>) {
    forall n :: 0 <= n < |log| && log[n].Sent? ==> |log[n].payload| <= MaxPayload(log[n].key)
  }

  /** Whatever a client went through, handshakes, changes of key and closing included, and however its stream is cut,
      a peer that uses the same key for each packet reads the payloads that arrived whole, in order, provided the
      packets respect the bound. */
  lemma SessionReadable(env: Env, inputs: seq<Input>, unzips: nat, n: nat)
    requires WithinBound(Session(env, START, inputs, unzips).st.log)
    requires n <= |Session(env, START, inputs, unzips).st.out|
    ensures var st := Session(env, START, inputs, unzips).st;
            var items := Items(st.log);
            && AllReadable(items)
            && var m := WholeItems(env.suite, items, n);
               var (read, e, rest) := ReadKeyed(env.suite, Keys(items), st.out[..n]);
               && m <= |items| && read == Payloads(items)[..m]
               && (if m == |items| then e == None && rest == []
                   else e == Some(ConnectionClosed) || e == Some(IncompleteField))
               && (m == |items| <==> n == |st.out|)
  {
    hide Session, ReadKeyed, Stream, Items, History, AllReadable;
    StartKeeps(env);
    SessionKeeps(env, START, inputs, unzips);
    var st := Session(env, START, inputs, unzips).st;
    forall k | 0 <= k < |st.log| && st.log[k].Sent?
      ensures Readable(Item(st.log[k].key, st.log[k].nonce, st.log[k].payload))
    {
      SentProperly(env, st.log, k);
    }
    HistoryReadable(env, st.log);
    OutIsStream(env.suite, st.log);
    StreamReadable(env.suite, Items(st.log), n);
  }

  // ---- down to the messages ----

  datatype Message = Message(header: Header, body: seq<byte>)

  function PayloadOf(codec: Codec, m: Message): seq<byte> {
    HeaderBytes(codec, m.header) + m.body
  }

  /** A message that the reader takes apart where the writer put it together, and that the peer's bound admits. */
  ghost predicate Sendable(codec: Codec, key: SessionKey, m: Message) {
    && m.header.emsg >= 0 && m.header.emsg != EMSG_CHANNEL_ENCRYPT_RESPONSE
    && (if m.header.proto.Some?
        then KeepsHeader(m.header.emsg) && m.header.proto.value == UNSET ==> m.body != []
        else !HasStandardHeader(m.header.emsg))
    && |PayloadOf(codec, m)| <= MaxPayload(key)
  }

  /** The header as it is read: with its defaults, or with its ids shifted. */
  function HeaderAtPeer(h: Header): (read: Header) {
    if h.proto.Some? then ReadBack(h) else ReadShifted(h)
  }

  /** The payload fits the peer's bound and parses to the same EMsg and body, under the header as it is read. */
  ghost predicate Arrives(codec: Codec, key: SessionKey, m: Message, payload: seq<byte>) {
    && payload == PayloadOf(codec, m)
    && Deliverable(key, payload)
    && ParseMessage(codec, payload) == Ok((HeaderAtPeer(m.header), m.body))
    && HeaderAtPeer(m.header).emsg == m.header.emsg
    && (m.header.proto.Some? ==>
          HeaderAtPeer(m.header).proto == Some(Defaulted(m.header.emsg, m.header.proto.value)))
  }

  lemma MessageParses(codec: Codec, key: SessionKey, m: Message)
    requires Sendable(codec, key, m)
    ensures Arrives(codec, key, m, PayloadOf(codec, m))
  {
    hide ParseMessage;
    if m.header.proto.Some? {
      ProtobufRoundTrip(codec, m.header, m.body);
      EmptyHeaderIff(codec, m.header.emsg, m.header.proto.value);
    } else {
      ExtendedBoundary(codec, m.header, m.body);
    }
  }

  ghost predicate AllSendable(codec: Codec, key: SessionKey, messages: seq<Message>) {
    forall i :: 0 <= i < |messages| ==> Sendable(codec, key, messages[i])
  }

  function PayloadsOf(codec: Codec, messages: seq<Message>): (payloads: seq<seq<byte>>)
    ensures |payloads| == |messages|
    ensures forall i :: 0 <= i < |messages| ==> payloads[i] == PayloadOf(codec, messages[i])
  {
    seq(|messages|, i requires 0 <= i < |messages| => PayloadOf(codec, messages[i]))
  }

  /** Messages of any kind, sent over one stream and read by the peer, are parsed to the same EMsgs and bodies, in
      order. */
  lemma MessagesArrive(suite: Suite, codec: Codec, key: SessionKey, messages: seq<Message>, random: seq<Nonce>)
    requires |random| == |messages| && AllSendable(codec, key, messages)
    ensures forall i :: 0 <= i < |messages| ==> Arrives(codec, key, messages[i], PayloadsOf(codec, messages)[i])
    ensures forall i :: 0 <= i < |messages| ==> Deliverable(key, PayloadsOf(codec, messages)[i])
    ensures ReadAll(suite, key, SendAll(suite, key, PayloadsOf(codec, messages), random))
         == (PayloadsOf(codec, messages), ConnectionClosed)
  {
    hide Arrives, Sendable, PayloadOf, PayloadsOf, SendAll, ReadAll, Deliverable;
    forall i | 0 <= i < |messages|
      ensures Arrives(codec, key, messages[i], PayloadsOf(codec, messages)[i])
      ensures Deliverable(key, PayloadsOf(codec, messages)[i])
    {
      MessageParses(codec, key, messages[i]);
      ArrivesDeliverable(codec, key, messages[i], PayloadsOf(codec, messages)[i]);
    }
    DeliveredInOrder(suite, key, PayloadsOf(codec, messages), random);
  }

  lemma ArrivesDeliverable(codec: Codec, key: SessionKey, m: Message, payload: seq<byte>)
    requires Arrives(codec, key, m, payload)
    ensures Deliverable(key, payload)
  {
  }

  // ---- from one client to another ----

  /** The application of one client writes the messages one after another. */
  function Writes(messages: seq<Message>): seq<Input> {
    seq(|messages|, i requires 0 <= i < |messages| => UserWrite(messages[i].header, messages[i].body))
  }

  /** The messages whose receipt does nothing but call handleMessage. */
  predicate HasNoHandler(emsg: EMsg) {
    emsg !in {EMSG_MULTI, EMSG_CLIENT_LOG_ON_RESPONSE, EMSG_CHANNEL_ENCRYPT_REQUEST, EMSG_CHANNEL_ENCRYPT_RESULT,
              EMSG_CLIENT_ITEM_ANNOUNCEMENTS, EMSG_CLIENT_USER_NOTIFICATIONS}
  }

  function CallsWith(messages: seq<Message>): seq<Visit> {
    seq(|messages|, i requires 0 <= i < |messages| => Call(HeaderAtPeer(messages[i].header), messages[i].body))
  }

  /** Reading a message without handler off the stream. */
  lemma FrameHandled(env: Env, st: Client, key: SessionKey, m: Message, random: Nonce, rest: seq<byte>, unzips: nat)
    returns (heard: Client)
    requires Sendable(env.codec, key, m) && HasNoHandler(m.header.emsg)
    requires st.link.key == key && st.link.state != Disconnecting
    ensures Wire(env.suite, key, PayloadOf(env.codec, m), random).Ok?
    ensures Calls(heard.log) == Calls(st.log) + [Call(HeaderAtPeer(m.header), m.body)]
    ensures heard == st.(log := heard.log) && st.log <= heard.log
    ensures Run(env, st, Wire(env.suite, key, PayloadOf(env.codec, m), random).value + rest, unzips)
         == Run(env, heard, rest, unzips)
  {
    hide Wire, ReadPacket, ParseMessage, HeaderBytes, Calls, HeaderAtPeer;
    var payload := PayloadOf(env.codec, m);
    MessageParses(env.codec, key, m);
    PacketDelivered(env.suite, key, payload, random, rest);
    var stream := Wire(env.suite, key, payload, random).value + rest;
    var packet := ReadPacket(env.suite, key, stream).value;
    var h := HeaderAtPeer(m.header);
    var framed := st.Logged(Action.Frame(key, packet.raw, payload));
    heard := framed.Logged(Handled(h, m.body));
    CallsAppend(st.log, Action.Frame(key, packet.raw, payload));
    CallsAppend(framed.log, Handled(h, m.body));
    assert ReadMessage(env, framed, payload, unzips) == HandleMessage(env, framed, h, m.body, unzips);
    assert HandleMessage(env, framed, h, m.body, unzips) == Step(heard, None);
  }

  lemma WriteOut(env: Env, st: Client, key: SessionKey, m: Message) returns (sent: seq<byte>, after: Client)
    requires Sendable(env.codec, key, m)
    requires st.link.key == key && st.link.state != Disconnecting
    ensures OneInput(env, st, UserWrite(m.header, m.body), 0) == Step(after, None)
    ensures Wire(env.suite, key, PayloadOf(env.codec, m), env.nonces(st.draws)) == Ok(sent)
    ensures after.out == st.out + sent && after.link == st.link && after.draws == st.draws + 1
  {
    hide Wire, HeaderBytes, ParseMessage;
    MessageParses(env.codec, key, m);
    PacketDelivered(env.suite, key, PayloadOf(env.codec, m), env.nonces(st.draws), []);
    sent := Wire(env.suite, key, PayloadOf(env.codec, m), env.nonces(st.draws)).value;
    after := OneInput(env, st, UserWrite(m.header, m.body), 0).st;
  }

  /** The packets that the messages are sent in, with the random bytes from the given draw on. */
  function Packets(env: Env, key: SessionKey, messages: seq<Message>, draws: nat): (items: seq<Item>)
    ensures |items| == |messages|
  {
    seq(|messages|, i requires 0 <= i < |messages| =>
      Item(key, env.nonces(draws + i), PayloadOf(env.codec, messages[i])))
  }

  lemma PacketsFirst(env: Env, key: SessionKey, messages: seq<Message>, draws: nat)
    requires messages != []
    ensures var items := Packets(env, key, messages, draws);
            && items[0] == Item(key, env.nonces(draws), PayloadOf(env.codec, messages[0]))
            && items[1..] == Packets(env, key, messages[1..], draws + 1)
  {
    hide PayloadOf;
  }

  lemma {:induction false} WritesSend(env: Env, st: Client, key: SessionKey, messages: seq<Message>)
    requires AllSendable(env.codec, key, messages)
    requires st.link.key == key && st.link.state != Disconnecting
    ensures var end := Session(env, st, Writes(messages), 0);
            && end.error == None
            && end.st.out == st.out + Stream(env.suite, Packets(env, key, messages, st.draws))
    decreases |messages|
  {
    hide Wire, PayloadOf, Sendable, OneInput, Packets;
    if messages == [] {
      assert Packets(env, key, messages, st.draws) == [];
      assert st.out + [] == st.out;
    } else {
      var m, rest := messages[0], messages[1..];
      assert Sendable(env.codec, key, m);
      var first, after := WriteOut(env, st, key, m);
      assert Writes(messages)[0] == UserWrite(m.header, m.body) && Writes(messages)[1..] == Writes(rest);
      PacketsFirst(env, key, messages, st.draws);
      WritesSend(env, after, key, rest);
    }
  }

  lemma NothingToRead(env: Env, st: Client, unzips: nat)
    requires st.link.state != Disconnecting
    requires ReadPacket(env.suite, st.link.key, []) == Err(ConnectionClosed)
    ensures Run(env, st, [], unzips) == Step(st, Some(Error.ReadFailed(ConnectionClosed)))
  {
    hide ReadPacket;
  }

  lemma {:induction false} RunHears(env: Env, st: Client, there: Env, key: SessionKey, messages: seq<Message>,
                                    draws: nat, unzips: nat)
    requires there.suite == env.suite && there.codec == env.codec
    requires AllSendable(env.codec, key, messages)
    requires forall i :: 0 <= i < |messages| ==> HasNoHandler(messages[i].header.emsg)
    requires st.link.key == key && st.link.state != Disconnecting
    ensures var end := Run(env, st, Stream(env.suite, Packets(there, key, messages, draws)), unzips);
            && end.error == Some(Error.ReadFailed(ConnectionClosed))
            && Calls(end.st.log) == Calls(st.log) + CallsWith(messages)
            && end.st == st.(log := end.st.log) && st.log <= end.st.log
    decreases |messages|
  {
    hide Wire, ReadPacket, PayloadOf, Sendable, Calls, Run, Packets, HeaderAtPeer;
    if messages == [] {
      EmptyStream(env.suite, key);
      NothingToRead(env, st, unzips);
      assert Packets(there, key, messages, draws) == [];
      assert Calls(st.log) + CallsWith(messages) == Calls(st.log);
    } else {
      var m, rest := messages[0], messages[1..];
      assert Sendable(env.codec, key, m);
      PacketsFirst(there, key, messages, draws);
      var tail := Stream(env.suite, Packets(there, key, rest, draws + 1));
      var heard := FrameHandled(env, st, key, m, there.nonces(draws), tail, unzips);
      RunHears(env, heard, there, key, rest, draws + 1, unzips);
      assert CallsWith(messages) == [Call(HeaderAtPeer(m.header), m.body)] + CallsWith(rest);
    }
  }

  /** Through every layer, from Write of one client to handleMessage of another: for messages without a handler under
      one key, the bytes that the first client puts out make the second call handleMessage on exactly these messages,
      in order, and then find the connection closed; nothing else about it changes. */
  lemma ClientsTalk(here: Env, st: Client, there: Env, peer: Client, key: SessionKey, messages: seq<Message>,
                    unzips: nat)
    returns (sent: seq<byte>)
    requires there.suite == here.suite && there.codec == here.codec
    requires AllSendable(here.codec, key, messages)
    requires forall i :: 0 <= i < |messages| ==> HasNoHandler(messages[i].header.emsg)
    requires st.link.key == key && st.link.state != Disconnecting
    requires peer.link.key == key && peer.link.state != Disconnecting
    ensures Session(here, st, Writes(messages), 0).error == None
    ensures Session(here, st, Writes(messages), 0).st.out == st.out + sent
    ensures var end := Run(there, peer, sent, unzips);
            && end.error == Some(Error.ReadFailed(ConnectionClosed))
            && Calls(end.st.log) == Calls(peer.log) + CallsWith(messages)
            && end.st == peer.(log := end.st.log)
  {
    hide Session, Run, Stream, Packets, Calls, Sendable;
    WritesSend(here, st, key, messages);
    sent := Stream(here.suite, Packets(here, key, messages, st.draws));
    RunHears(there, peer, here, key, messages, st.draws, unzips);
  }
}
