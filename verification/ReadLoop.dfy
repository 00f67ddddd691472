/** Run hands on every packet of its stream once and in order (protocol/protocol.go:73-90). */
module ReadLoop {
  import opened Wrappers
  import opened Bytes
  import opened Framing
  import opened TcpConnection
  import opened Codec
  import opened Messages
  import opened Handlers
  import opened Unpacking

  /** A packet that was read: its bytes on the stream, and what they opened to. */
  datatype Taken = Taken(raw: seq<byte>, body: seq<byte>)

  /** The packets a history says were read. */
  function ReadsOf(log: seq<Action>): seq<Taken> {
    if log == [] then []
    else
      var last := log[|log| - 1];
      ReadsOf(log[..|log| - 1]) + (if last.Frame? then [Taken(last.raw, last.body)] else [])
  }

  /** The part of the stream they took up. */
  function FramesOf(packets: seq<Taken>): seq<byte> {
    if packets == [] then [] else Framing.Frame(packets[0].raw) + FramesOf(packets[1..])
  }

  lemma ReadsAppend(log: seq<Action>, a: Action)
    ensures ReadsOf(log + [a]) == ReadsOf(log) + (if a.Frame? then [Taken(a.raw, a.body)] else [])
  {
    assert (log + [a])[..|log|] == log;
  }

  lemma Same(log: seq<Action>, a: Action)
    requires !a.Frame?
    ensures ReadsOf(log + [a]) == ReadsOf(log)
  {
    ReadsAppend(log, a);
  }

  lemma WriteReadsNothing(env: Env, st: Client, header: Messages.Header, body: seq<byte>)
    ensures ReadsOf(Handlers.Write(env, st, header, body).st.log) == ReadsOf(st.log)
  {
    hide HeaderBytes, TcpConnection.Sent, ReadsOf;
    Same(st.log, Handlers.Sent(st.link.key, env.nonces(st.draws), HeaderBytes(env.codec, header) + body));
  }

  /** Handlers read no packets. */
  lemma DispatchReadsNothing(env: Env, st: Client, header: Messages.Header, body: seq<byte>)
    ensures ReadsOf(Dispatch(env, st, header, body).st.log) == ReadsOf(st.log)
  {
    hide Handlers.Write, ReadsOf, Response, LogOnResponse;
    if header.emsg == EMSG_CHANNEL_ENCRYPT_REQUEST {
      match env.keys(st.draws)
      case None =>
      case Some((plain, encrypted)) =>
        if |body| > 8 {
          Same(st.log, Offered(plain));
          WriteReadsNothing(env, st.(draws := st.draws + 1, pending := plain).Logged(Offered(plain)),
                            ResponseHeader(header), Response(env.codec, encrypted, NonceOf(body[8..])));
        }
    } else if header.emsg == EMSG_CHANNEL_ENCRYPT_RESULT {
      var link := Apply(st.link, SetKey(st.pending));
      Same(st.log, Installed);
      Same(st.log + [Installed], Connected(link.key != []));
    } else if header.emsg == EMSG_CLIENT_LOG_ON_RESPONSE {
      LogOnReadsNothing(env, st, header, body);
    }
  }

  lemma LogOnReadsNothing(env: Env, st: Client, header: Messages.Header, body: seq<byte>)
    ensures ReadsOf(LogOnResponse(env, st, header, body).st.log) == ReadsOf(st.log)
  {
    hide Handlers.Write, ReadsOf;
    match env.codec.unmarshalLogon(body)
    case None =>
    case Some(response) =>
      if response.eresult == 1 && response.heartbeatSeconds.Some? && response.heartbeatSeconds.value > 0 {
        var proto := GetOr(header.proto, UNSET);
        var steamID, sessionID := GetOr(proto.steamid, 0), GetOr(proto.clientSessionid, 0);
        var started := HeartbeatStarted(response.heartbeatSeconds.value);
        Same(st.log, started);
        Same(st.log + [started], LoggedOn(steamID, sessionID));
        WriteReadsNothing(env, st.(steamID := steamID, sessionID := sessionID).Logged(started)
                                 .Logged(LoggedOn(steamID, sessionID)), ItemRequest(steamID, sessionID), []);
      }
  }

  lemma {:induction false} MessageReadsNothing(env: Env, st: Client, data: seq<byte>, unzips: nat)
    ensures ReadsOf(ReadMessage(env, st, data, unzips).st.log) == ReadsOf(st.log)
    decreases unzips, |data|, 1
  {
    hide ParseMessage, Dispatch, MultiData, ReadsOf, SubMessages;
    match ParseMessage(env.codec, data)
    case Err(e) =>
    case Ok((header, body)) =>
      ParseShrinks(env.codec, data);
      var called := st.Logged(Handled(header, body));
      Same(st.log, Handled(header, body));
      assert ReadMessage(env, st, data, unzips) == HandleMessage(env, st, header, body, unzips);
      if header.emsg == EMSG_MULTI {
        assert HandleMessage(env, st, header, body, unzips) == HandleMulti(env, called, body, unzips);
        match MultiData(env.codec, body)
        case Err(e) =>
        case Ok((inner, zipped)) =>
          if !zipped {
            LoopReadsNothing(env, called, inner, unzips);
          } else if unzips > 0 {
            LoopReadsNothing(env, called, inner, unzips - 1);
          }
      } else {
        DispatchReadsNothing(env, called, header, body);
      }
  }

  lemma {:induction false} LoopReadsNothing(env: Env, st: Client, data: seq<byte>, unzips: nat)
    ensures ReadsOf(SubMessages(env, st, data, unzips).st.log) == ReadsOf(st.log)
    decreases unzips, |data|, 0
  {
    hide ReadMessage, SplitSubMessage, ReadsOf;
    if data != [] {
      match SplitSubMessage(data)
      case Err(e) =>
      case Ok((message, rest)) =>
        MessageReadsNothing(env, st, message, unzips);
        var first := ReadMessage(env, st, message, unzips);
        if first.error.None? {
          LoopReadsNothing(env, first.st, rest, unzips);
        }
    }
  }

  lemma RawFields(stream: seq<byte>)
    requires ReadRaw(stream).Ok?
    ensures var (raw, rest) := ReadRaw(stream).value;
            && |stream| == 8 + |raw| + |rest| && stream[8..] == raw + rest
            && UnLE(stream[..4]) == |raw| && UnLE(stream[4..8]) == TCP_MAGIC
  {
    hide UnLE;
    assert |stream| >= 8 ==> stream[4..][..4] == stream[4..8] && stream[4..][4..] == stream[8..];
  }

  /** What ReadRaw takes off a stream is the frame of the packet. */
  lemma RawIsFrame(stream: seq<byte>)
    requires ReadRaw(stream).Ok?
    ensures var (raw, rest) := ReadRaw(stream).value; stream == Framing.Frame(raw) + rest
  {
    hide LE, UnLE, ReadRaw;
    var (raw, rest) := ReadRaw(stream).value;
    RawFields(stream);
    WriteRead(stream[..4]);
    WriteRead(stream[4..8]);
    assert stream == stream[..4] + stream[4..8] + stream[8..];
    assert stream[8..] == raw + rest;
  }

  /** The packets read by Run, put together again, are a prefix of its stream: none is skipped, repeated or taken out
      of order. Run stops where the rest no longer yields a packet, at the failure of a handler, or when the
      connection is closing. A failing handler is that of the last packet read, at the client as it was when that
      packet had just been read. */
  lemma {:induction false} RunConsumes(env: Env, st: Client, stream: seq<byte>, unzips: nat)
    returns (packets: seq<Taken>, rest: seq<byte>, at: Client)
    ensures var end := Run(env, st, stream, unzips);
            && ReadsOf(end.st.log) == ReadsOf(st.log) + packets
            && FramesOf(packets) + rest == stream
            && (end.error.Some? && end.error.value.ReadFailed? ==>
                  ReadPacket(env.suite, end.st.link.key, rest) == Err(end.error.value.read))
            && (HandlerFailed(end) ==>
                  && packets != [] && ReadMessage(env, at, packets[|packets| - 1].body, unzips) == end
                  && ReadsOf(at.log) == ReadsOf(st.log) + packets)
            && (end.error.None? ==> end.st.link.state == Disconnecting)
    decreases |stream|
  {
    hide ReadMessage, ReadsOf, Opened, ReadRaw, Framing.Frame;
    packets, rest, at := [], stream, st;
    assert ReadsOf(st.log) + [] == ReadsOf(st.log);
    if st.link.state == Disconnecting {
      return;
    }
    match ReadPacket(env.suite, st.link.key, stream)
    case Err(e) =>
    case Ok(packet) =>
      RawIsFrame(stream);
      var a := Frame(st.link.key, packet.raw, packet.body);
      var st1 := st.Logged(a);
      ReadsAppend(st.log, a);
      MessageReadsNothing(env, st1, packet.body, unzips);
      MessageFailsOtherwise(env, st1, packet.body, unzips);
      var first := ReadMessage(env, st1, packet.body, unzips);
      if first.error.Some? {
        assert FramesOf([Taken(packet.raw, packet.body)]) == Framing.Frame(packet.raw) by { OneFrameOf(packet); }
        return [Taken(packet.raw, packet.body)], packet.rest, st1;
      }
      var more: seq<Taken>;
      more, rest, at := RunConsumes(env, first.st, packet.rest, unzips);
      packets := [Taken(packet.raw, packet.body)] + more;
      assert ReadsOf(st.log) + packets == ReadsOf(first.st.log) + more;
      assert FramesOf(packets) == Framing.Frame(packet.raw) + FramesOf(more);
  }

  /** Run ended because handling a message failed. */
  predicate HandlerFailed(end: Step) {
    end.error.Some? && !end.error.value.ReadFailed?
  }

  lemma OneFrameOf(packet: Packet)
    ensures FramesOf([Taken(packet.raw, packet.body)]) == Framing.Frame(packet.raw)
  {
    hide Framing.Frame;
    assert [Taken(packet.raw, packet.body)][1..] == [];
  }

  /** The messages of packets, each with those nested in it, in pre-order. */
  function VisitsOf(codec: Codec, body: seq<byte>, unzips: nat): seq<Visit> {
    Preorder(codec, TreeOf(codec, body, unzips), unzips)
  }

  function CallsFor(codec: Codec, packets: seq<Taken>, unzips: nat): seq<Visit> {
    if packets == [] then []
    else CallsOf(VisitsOf(codec, packets[0].body, unzips)) + CallsFor(codec, packets[1..], unzips)
  }

  /** The calls of handleMessage over a whole Run are those of the packets read, in order, each with its nested
      messages in pre-order. When a handler fails, the last packet contributes the calls up to the failing one, and
      all before that had succeeded. */
  lemma {:induction false} RunCalls(env: Env, st: Client, stream: seq<byte>, unzips: nat)
    returns (packets: seq<Taken>, k: nat, at: Client)
    ensures var end := Run(env, st, stream, unzips);
            && ReadsOf(end.st.log) == ReadsOf(st.log) + packets
            && if HandlerFailed(end)
               then
                 && packets != []
                 && var n, codec := |packets| - 1, env.codec;
                    var visits := VisitsOf(codec, packets[n].body, unzips);
                    && ReadsOf(at.log) == ReadsOf(st.log) + packets
                    && 0 < k <= |visits| && FailsAt(env, at, visits, k, end)
                    && Calls(end.st.log)
                       == Calls(st.log) + CallsFor(codec, packets[..n], unzips) + CallsOf(visits[..k])
               else Calls(end.st.log) == Calls(st.log) + CallsFor(env.codec, packets, unzips)
    decreases |stream|
  {
    hide ReadMessage, ReadsOf, ReadPacket, Calls, CallsOf, VisitsOf, FailsAt, CallsFor;
    NoPackets(env.codec, unzips);
    packets, k, at := [], 0, st;
    assert ReadsOf(st.log) + [] == ReadsOf(st.log) && Calls(st.log) + [] == Calls(st.log);
    if st.link.state == Disconnecting || ReadPacket(env.suite, st.link.key, stream).Err? {
      return;
    }
    var packet := ReadPacket(env.suite, st.link.key, stream).value;
    var read := Taken(packet.raw, packet.body);
    var st1 := st.Logged(Frame(st.link.key, packet.raw, packet.body));
    var first := ReadMessage(env, st1, packet.body, unzips);
    ReadsAppend(st.log, Frame(st.link.key, packet.raw, packet.body));
    MessageReadsNothing(env, st1, packet.body, unzips);
    k := PacketCalls(env, st, packet, unzips);
    if first.error.Some? {
      at := st1;
      packets := [read];
      assert packets[..0] == [];
      assert Calls(st.log) + [] == Calls(st.log);
      return;
    }
    var more: seq<Taken>;
    more, k, at := RunCalls(env, first.st, packet.rest, unzips);
    packets := [read] + more;
    assert ReadsOf(st.log) + packets == ReadsOf(first.st.log) + more;
    if more != [] {
      CallsForFirst(env.codec, read, more[..|more| - 1], unzips);
      assert packets[..|packets| - 1] == [read] + more[..|more| - 1];
    }
    CallsForFirst(env.codec, read, more, unzips);
  }

  /** The walk from the given client succeeds up to visit k, which fails with the given result. */
  ghost predicate FailsAt(env: Env, at: Client, visits: seq<Visit>, k: nat, end: Step)
    requires 0 < k <= |visits|
  {
    && Walk(env, at, visits[..k - 1]).error.None?
    && VisitOne(env, Walk(env, at, visits[..k - 1]).st, visits[k - 1]) == end
  }

  lemma NoPackets(codec: Codec, unzips: nat)
    ensures CallsFor(codec, [], unzips) == []
  {
  }

  lemma CallsForFirst(codec: Codec, read: Taken, more: seq<Taken>, unzips: nat)
    ensures CallsFor(codec, [read] + more, unzips)
         == CallsOf(VisitsOf(codec, read.body, unzips)) + CallsFor(codec, more, unzips)
  {
    hide CallsOf, VisitsOf;
  }

  /** The calls made for one packet. */
  lemma PacketCalls(env: Env, st: Client, packet: Packet, unzips: nat) returns (k: nat)
    ensures var at := st.Logged(Frame(st.link.key, packet.raw, packet.body));
            var visits := VisitsOf(env.codec, packet.body, unzips);
            var end := ReadMessage(env, at, packet.body, unzips);
            && k <= |visits|
            && Calls(end.st.log) == Calls(st.log) + CallsOf(visits[..k])
            && (end.error.None? ==> k == |visits| && Calls(end.st.log) == Calls(st.log) + CallsOf(visits))
            && (end.error.Some? ==>
                  && k > 0 && FailsAt(env, at, visits, k, end) && !end.error.value.ReadFailed?)
  {
    hide ReadMessage, Calls, CallsOf, Preorder, TreeOf, Walk, VisitOne, IsTree;
    var st1 := st.Logged(Frame(st.link.key, packet.raw, packet.body));
    CallsAppend(st.log, Frame(st.link.key, packet.raw, packet.body));
    EveryMessageHasTree(env.codec, packet.body, unzips);
    MessageFailsOtherwise(env, st1, packet.body, unzips);
    var visits := VisitsOf(env.codec, packet.body, unzips);
    k := UnpackingCalls(env, st1, TreeOf(env.codec, packet.body, unzips), unzips);
    assert k == |visits| ==> visits[..k] == visits;
  }

  /** Handling a message never fails with an error of the stream. */
  lemma {:induction false} MessageFailsOtherwise(env: Env, st: Client, data: seq<byte>, unzips: nat)
    ensures var r := ReadMessage(env, st, data, unzips); r.error.Some? ==> !r.error.value.ReadFailed?
    decreases unzips, |data|, 1
  {
    hide ParseMessage, SubMessages, EncryptRequest, EncryptResult, LogOnResponse;
    match ParseMessage(env.codec, data)
    case Err(e) =>
    case Ok((header, body)) =>
      ParseShrinks(env.codec, data);
      var called := st.Logged(Handled(header, body));
      assert ReadMessage(env, st, data, unzips) == HandleMessage(env, st, header, body, unzips);
      if header.emsg == EMSG_MULTI {
        assert HandleMessage(env, st, header, body, unzips) == HandleMulti(env, called, body, unzips);
        match MultiData(env.codec, body)
        case Err(e) =>
        case Ok((inner, zipped)) =>
          if !zipped {
            LoopFailsOtherwise(env, called, inner, unzips);
          } else if unzips > 0 {
            LoopFailsOtherwise(env, called, inner, unzips - 1);
          }
      } else {
        HandlersFailOtherwise(env, called, header, body);
      }
  }

  lemma HandlersFailOtherwise(env: Env, st: Client, header: Messages.Header, body: seq<byte>)
    ensures var r := EncryptRequest(env, st, header, body); r.error.Some? ==> !r.error.value.ReadFailed?
    ensures var r := EncryptResult(st, body); r.error.Some? ==> !r.error.value.ReadFailed?
    ensures var r := LogOnResponse(env, st, header, body); r.error.Some? ==> !r.error.value.ReadFailed?
  {
    hide HeaderBytes, TcpConnection.Sent, Response, U32;
  }

  lemma {:induction false} LoopFailsOtherwise(env: Env, st: Client, data: seq<byte>, unzips: nat)
    ensures var r := SubMessages(env, st, data, unzips); r.error.Some? ==> !r.error.value.ReadFailed?
    decreases unzips, |data|, 0
  {
    hide ReadMessage;
    if data != [] {
      match SplitSubMessage(data)
      case Err(e) =>
      case Ok((message, rest)) =>
        MessageFailsOtherwise(env, st, message, unzips);
        var first := ReadMessage(env, st, message, unzips);
        if first.error.None? {
          LoopFailsOtherwise(env, first.st, rest, unzips);
        }
    }
  }
}
