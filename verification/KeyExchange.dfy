/** A whole handshake: Request, Response, Result, and messages under the new key
    (protocol/protocol.go:73-90, protocol/handlers.go:62-152). */
module KeyExchange {
  import opened Integers
  import opened Words
  import opened Wrappers
  import opened Bytes
  import opened Framing
  import opened TcpConnection
  import opened Codec
  import opened Messages
  import opened Handlers
  import opened Unpacking
  import opened Exchanges
  import opened Conversation

  /** A plain packet with a message other than Multi, whose handler succeeds. */
  lemma PlainHandled(env: Env, st: Client, data: seq<byte>, header: Header, body: seq<byte>, rest: seq<byte>,
                     unzips: nat)
    returns (called: Client)
    requires st.link == INITIAL && |data| <= MAX_PACKET
    requires ParseMessage(env.codec, data) == Ok((header, body)) && header.emsg != EMSG_MULTI
    ensures called == st.(log := st.log + [Action.Frame([], data, data), Handled(header, body)])
    ensures Calls(called.log) == Calls(st.log) + [Call(header, body)]
    ensures var handled := Dispatch(env, called, header, body);
            handled.error.None? ==>
              Run(env, st, Framing.Frame(data) + rest, unzips) == Run(env, handled.st, rest, unzips)
    ensures Calls(Dispatch(env, called, header, body).st.log) == Calls(called.log)
  {
    hide ReadRaw, ParseMessage, Dispatch, Framing.Frame, Calls;
    ReadRawFrame(data, rest);
    SmallMod(|data|, TWO32);
    assert (data + rest)[..|data|] == data && (data + rest)[|data|..] == rest;
    var framed := st.Logged(Action.Frame([], data, data));
    called := framed.Logged(Handled(header, body));
    CallsAppend(st.log, Action.Frame([], data, data));
    CallsAppend(framed.log, Handled(header, body));
    DispatchCalls(env, called, header, body);
    assert ReadMessage(env, framed, data, unzips) == HandleMessage(env, framed, header, body, unzips);
    assert ReadPacket(env.suite, [], Framing.Frame(data) + rest) == Ok(Packet(data, data, rest));
  }

  /** The body of a Request, and that of a Result of 1. */
  function RequestBody(nonce: seq<byte>): (body: seq<byte>)
    ensures |body| == 8 + |nonce|
  {
    LE(1, 4) + LE(1, 4) + nonce
  }

  lemma RequestFields(nonce: seq<byte>)
    ensures var body := RequestBody(nonce);
            U32(body[..4]) == 1 && U32(body[4..8]) == 1 && body[8..] == nonce
  {
    hide LE, U32;
    var body := RequestBody(nonce);
    assert body[0..4] == LE(1, 4) && body[4..8] == LE(1, 4) && body[..4] == body[0..4];
    Field4(1, body, 0);
    Field4(1, body, 4);
  }

  function RequestHeader(target: uint64, source: uint64): Header {
    Header(EMSG_CHANNEL_ENCRYPT_REQUEST, None, target, source, 0, 0)
  }

  function ResultHeader(target: uint64, source: uint64): Header {
    Header(EMSG_CHANNEL_ENCRYPT_RESULT, None, target, source, 0, 0)
  }

  /** The job ids of a server's Request and Result, and the nonce of the Request. */
  datatype Offer = Offer(target: uint64, source: uint64, nonce: seq<byte>, resultTarget: uint64, resultSource: uint64)
  {
    predicate Valid() {
      0 < |nonce| <= MAX_PACKET - 28
    }

    function RequestPacket(): seq<byte> {
      Framing.Frame(StandardMessage(EMSG_CHANNEL_ENCRYPT_REQUEST, target, source, RequestBody(nonce)))
    }

    function ResultPacket(): seq<byte> {
      Framing.Frame(StandardMessage(EMSG_CHANNEL_ENCRYPT_RESULT, resultTarget, resultSource, LE(1, 4)))
    }

    /** The calls of handleMessage that the two packets lead to. */
    function HandshakeCalls(): seq<Visit> {
      [Call(RequestHeader(target, source), RequestBody(nonce)),
       Call(ResultHeader(resultTarget, resultSource), LE(1, 4))]
    }

    function Answer(codec: Codec, encrypted: Encrypted): seq<byte> {
      HeaderBytes(codec, ResponseHeader(RequestHeader(target, source))) + Response(codec, encrypted, NonceOf(nonce))
    }
  }

  /** The Request of a new client: the key is pending and the answer is out. */
  lemma RequestRuns(env: Env, offer: Offer, rest: seq<byte>, unzips: nat) returns (st: Client)
    requires offer.Valid() && env.keys(0).Some?
    ensures Run(env, START, offer.RequestPacket() + rest, unzips) == Run(env, st, rest, unzips)
    ensures var (plain, encrypted) := env.keys(0).value;
            && st.link == INITIAL && st.pending == plain
            && st.out == Framing.Frame(offer.Answer(env.codec, encrypted))
    ensures Calls(st.log) == offer.HandshakeCalls()[..1]
  {
    hide LE, U32, Run, Calls, ParseMessage, NonceOf, Framing.Frame, HeaderBytes, Response;
    var header, body := RequestHeader(offer.target, offer.source), RequestBody(offer.nonce);
    var data := StandardMessage(EMSG_CHANNEL_ENCRYPT_REQUEST, offer.target, offer.source, body);
    StandardParses(env.codec, EMSG_CHANNEL_ENCRYPT_REQUEST, offer.target, offer.source, body);
    RequestFields(offer.nonce);
    var called := PlainHandled(env, START, data, header, body, rest, unzips);
    RequestSucceedsIff(env, called, header, body);
    st := EncryptRequest(env, called, header, body).st;
    NoCalls();
    assert START.out + Framing.Frame(offer.Answer(env.codec, env.keys(0).value.1))
        == Framing.Frame(offer.Answer(env.codec, env.keys(0).value.1));
  }

  lemma NoCalls()
    ensures Calls(START.log) == []
  {
  }

  /** The Result that follows: the pending key is installed. */
  lemma ResultRuns(env: Env, offer: Offer, st: Client, rest: seq<byte>, unzips: nat) returns (st': Client)
    requires st.link == INITIAL && |st.pending| == 32
    ensures Run(env, st, offer.ResultPacket() + rest, unzips) == Run(env, st', rest, unzips)
    ensures st'.link == Link(ConnectedEncrypted, st.pending) && st'.pending == [] && st'.out == st.out
    ensures st'.log != [] && st'.log[|st'.log| - 1] == Connected(true)
    ensures Calls(st'.log) == Calls(st.log) + offer.HandshakeCalls()[1..]
  {
    hide LE, U32, Run, Calls, ParseMessage, Framing.Frame;
    var header, body := ResultHeader(offer.resultTarget, offer.resultSource), LE(1, 4);
    var data := StandardMessage(EMSG_CHANNEL_ENCRYPT_RESULT, offer.resultTarget, offer.resultSource, body);
    StandardParses(env.codec, EMSG_CHANNEL_ENCRYPT_RESULT, offer.resultTarget, offer.resultSource, body);
    assert body[0..4] == LE(1, 4) && body[..4] == body[0..4];
    Field4(1, body, 0);
    var called := PlainHandled(env, st, data, header, body, rest, unzips);
    st' := EncryptResult(called, body).st;
  }

  /** A new client that is sent a Request, a Result of 1 and then messages without handlers under the generated key
      calls handleMessage on exactly these messages, in order. It puts out exactly the answer to the Request, in
      plain, raises EventConnected with the key installed, keeps that key, and finds the connection closed. */
  lemma HandshakeCompletes(env: Env, there: Env, offer: Offer, messages: seq<Message>, draws: nat, unzips: nat)
    requires offer.Valid() && env.keys(0).Some?
    requires there.suite == env.suite && there.codec == env.codec
    requires AllSendable(env.codec, env.keys(0).value.0, messages)
    requires forall i :: 0 <= i < |messages| ==> HasNoHandler(messages[i].header.emsg)
    ensures var (plain, encrypted) := env.keys(0).value;
            var stream := offer.RequestPacket()
                          + (offer.ResultPacket() + Stream(env.suite, Packets(there, plain, messages, draws)));
            var end := Run(env, START, stream, unzips);
            && end.error == Some(Error.ReadFailed(ConnectionClosed))
            && Calls(end.st.log) == offer.HandshakeCalls() + CallsWith(messages)
            && Connected(true) in end.st.log
            && end.st.link == Link(ConnectedEncrypted, plain) && end.st.pending == []
            && end.st.out == Framing.Frame(offer.Answer(env.codec, encrypted))
            && ParseKeyResponse(offer.Answer(env.codec, encrypted))
               == Some(KeyResponse(offer.target, offer.source, encrypted, env.codec.crc32(encrypted),
                                   NonceOf(offer.nonce)))
  {
    hide Run, Calls, Framing.Frame, Stream, Packets, Response, HeaderBytes, NonceOf, ParseKeyResponse, LE;
    var (plain, encrypted) := env.keys(0).value;
    var packets := Stream(env.suite, Packets(there, plain, messages, draws));
    var st1 := RequestRuns(env, offer, offer.ResultPacket() + packets, unzips);
    var st2 := ResultRuns(env, offer, st1, packets, unzips);
    RunHears(env, st2, there, plain, messages, draws, unzips);
    var end := Run(env, st2, packets, unzips);
    assert end.st.log[|st2.log| - 1] == Connected(true);
    assert offer.HandshakeCalls() == offer.HandshakeCalls()[..1] + offer.HandshakeCalls()[1..];
    ResponseReadable(env.codec, RequestHeader(offer.target, offer.source), encrypted, NonceOf(offer.nonce));
  }
}
