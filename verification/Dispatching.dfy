/** What handleMessage does with each kind of message, and what a closed client still does
    (protocol/handlers.go:22-311, protocol/protocol.go:73-101). */
module Dispatching {
  import opened Integers
  import opened Words
  import opened Wrappers
  import opened Bytes
  import opened Framing
  import opened TcpConnection
  import opened Codec
  import opened Messages
  import opened Handlers
  import opened Unpacking
  import opened Exchanges

  // ---- Multi messages ----

  /** Which bytes a Multi message opens to. A zero size means that the body holds the messages as they are; any other
      size is that of the body after decompression. */
  lemma MultiOpens(codec: Codec, body: seq<byte>)
    ensures codec.unmarshalMulti(body) == None ==> MultiData(codec, body) == Err(BadBody)
    ensures codec.unmarshalMulti(body).Some? ==>
              var (size, inner) := (codec.unmarshalMulti(body).value.sizeUnzipped,
                                    codec.unmarshalMulti(body).value.messageBody);
              && (inner == [] ==> MultiData(codec, body) == Err(EmptyMulti))
              && (inner != [] && size == 0 ==> MultiData(codec, body) == Ok((inner, false)))
              && (inner != [] && size != 0 && codec.gunzip(inner) == None ==>
                    MultiData(codec, body) == Err(GunzipFailed))
              && (inner != [] && size != 0 && codec.gunzip(inner).Some? ==>
                    var data := codec.gunzip(inner).value;
                    MultiData(codec, body)
                    == if |data| % 0x1_0000_0000 == size then Ok((data, true)) else Err(SizeMismatch))
  {
  }

  /** What handling a Multi message comes to, in terms of what its body decodes to. */
  lemma MultiHandled(env: Env, st: Client, header: Header, body: seq<byte>, size: uint32, inner: seq<byte>,
                     unzips: nat)
    requires header.emsg == EMSG_MULTI
    requires env.codec.unmarshalMulti(body) == Some(Multi(size, inner)) && inner != []
    ensures var called := st.Logged(Handled(header, body));
            var end := HandleMessage(env, st, header, body, unzips);
            && (size == 0 ==> end == SubMessages(env, called, inner, unzips))
            && (size != 0 && env.codec.gunzip(inner).None? ==> end == Step(called, Some(GunzipFailed)))
            && (size != 0 && env.codec.gunzip(inner).Some? ==>
                  var data := env.codec.gunzip(inner).value;
                  && (|data| % 0x1_0000_0000 != size ==> end == Step(called, Some(SizeMismatch)))
                  && (|data| % 0x1_0000_0000 == size && unzips > 0 ==>
                        end == SubMessages(env, called, data, unzips - 1))
                  && (|data| % 0x1_0000_0000 == size && unzips == 0 ==> end == Step(called, Some(NestedTooDeep))))
  {
    hide SubMessages;
    MultiOpens(env.codec, body);
    var called := st.Logged(Handled(header, body));
    assert HandleMessage(env, st, header, body, unzips) == HandleMulti(env, called, body, unzips);
  }

  lemma MultiUndecoded(env: Env, st: Client, header: Header, body: seq<byte>, unzips: nat)
    requires header.emsg == EMSG_MULTI
    ensures var called := st.Logged(Handled(header, body));
            var end := HandleMessage(env, st, header, body, unzips);
            && (env.codec.unmarshalMulti(body).None? ==> end == Step(called, Some(BadBody)))
            && (env.codec.unmarshalMulti(body).Some? && env.codec.unmarshalMulti(body).value.messageBody == [] ==>
                  end == Step(called, Some(EmptyMulti)))
  {
    hide SubMessages;
    var called := st.Logged(Handled(header, body));
    assert HandleMessage(env, st, header, body, unzips) == HandleMulti(env, called, body, unzips);
  }

  /** A Multi message that holds the given messages, as they are or compressed, walks its own header and then them and
      all that is nested in them, in pre-order. */
  lemma MultiWalks(env: Env, st: Client, header: Header, body: seq<byte>, size: uint32, inner: seq<byte>,
                   kids: seq<Tree>, unzips: nat)
    requires header.emsg == EMSG_MULTI
    requires env.codec.unmarshalMulti(body) == Some(Multi(size, inner)) && inner != []
    requires if size == 0 then inner == Payload(kids, [])
             else env.codec.gunzip(inner) == Some(Payload(kids, [])) && |Payload(kids, [])| == size && unzips > 0
    requires |Payload(kids, [])| < 0x1_0000_0000
    requires forall i :: 0 <= i < |kids| ==> |kids[i].data| >= 4
    requires AreTrees(env.codec, kids, if size == 0 then unzips else unzips - 1)
    ensures HandleMessage(env, st, header, body, unzips)
         == Walk(env, st, [Call(header, body)]
                          + PreorderAll(env.codec, kids, if size == 0 then unzips else unzips - 1))
  {
    hide SubMessages, Walk, AreTrees, PreorderAll, Splits, Payload, HandleMessage;
    var left := if size == 0 then unzips else unzips - 1;
    var data := Payload(kids, []);
    var called := st.Logged(Handled(header, body));
    SmallMod(|data|, 0x1_0000_0000);
    MultiHandled(env, st, header, body, size, inner, unzips);
    SplitsIff(data, kids, []);
    KidsAreWalked(env, called, data, kids, [], left);
    assert PreorderAll(env.codec, kids, left) + BadTail([]) == PreorderAll(env.codec, kids, left);
    MultiOpens(env.codec, body);
    WalkFirst(env, st, Call(header, body), PreorderAll(env.codec, kids, left));
  }

  lemma WalkFirst(env: Env, st: Client, visit: Visit, rest: seq<Visit>)
    ensures var first := VisitOne(env, st, visit);
            Walk(env, st, [visit] + rest) == if first.error.Some? then first else Walk(env, first.st, rest)
  {
    hide VisitOne;
    assert ([visit] + rest)[1..] == rest;
  }

  /** The size field in front of a sub-message: which values are refused, and what is cut off otherwise. */
  lemma SplitOutcome(data: seq<byte>)
    requires data != []
    ensures |data| < 4 ==> SplitSubMessage(data) == Err(BadBody)
    ensures |data| >= 4 ==>
              var size := UnLE(data[..4]);
              SplitSubMessage(data)
              == if size < 4 || (|data| - 4) % 0x1_0000_0000 < size then Err(SubMessageSize(size))
                 else Ok((data[4..4 + size], data[4 + size..]))
  {
    hide UnLE;
    if |data| >= 4 {
      var size := U32(data[..4]);
      if |data| - 4 >= size {
        assert data[4..][..size] == data[4..4 + size] && data[4..][size..] == data[4 + size..];
      }
    }
  }

  // ---- the logon response ----

  /** What handleMessage does with a logon response that fails. */
  lemma LogOnRefused(env: Env, st: Client, header: Header, body: seq<byte>, unzips: nat)
    requires header.emsg == 751
    ensures var called := st.Logged(Handled(header, body));
            var response := env.codec.unmarshalLogon(body);
            var end := HandleMessage(env, st, header, body, unzips);
            && (response.None? ==> end == Step(called, Some(BadBody)))
            && (response.Some? && response.value.eresult != 1 ==>
                  end == Step(called, Some(LogonRefused(response.value.eresult))))
            && (response.Some? && response.value.eresult == 1 && response.value.heartbeatSeconds.None? ==>
                  end == Step(called, Some(NoHeartbeatInterval)))
            && (response.Some? && response.value.eresult == 1 && response.value.heartbeatSeconds.Some?
                && response.value.heartbeatSeconds.value <= 0 ==>
                  end == Step(called, Some(TickerPanic(response.value.heartbeatSeconds.value))))
  {
  }

  /** What handleMessage does with one that succeeds, and when it does: the account and session of the header are
      stored, the heartbeat starts with the server's interval, and one request goes out that carries both. */
  lemma LogOnHandled(env: Env, st: Client, header: Header, body: seq<byte>, unzips: nat)
    requires header.emsg == 751 && (|st.link.key| == 0 || |st.link.key| == 32)
    requires |env.codec.marshalHeader(LogOnHeader(header))| < 0x1_0000_0000
    ensures var response := env.codec.unmarshalLogon(body);
            var end := HandleMessage(env, st, header, body, unzips);
            && (end.error.None? <==>
                  && response.Some? && response.value.eresult == 1
                  && response.value.heartbeatSeconds.Some? && response.value.heartbeatSeconds.value > 0
                  && st.link.state != Disconnecting)
            && (end.error.None? ==>
                  var account := if header.proto.Some? then GetOr(header.proto.value.steamid, 0) else 0;
                  var session := if header.proto.Some? then GetOr(header.proto.value.clientSessionid, 0) else 0;
                  && end.st.steamID == account && end.st.sessionID == session
                  && end.st.link == st.link && end.st.pending == st.pending
                  && exists nonce, payload ::
                       && end.st.log == st.log + [Handled(header, body),
                                                  HeartbeatStarted(response.value.heartbeatSeconds.value),
                                                  LoggedOn(account, session), Sent(st.link.key, nonce, payload)]
                       && ParseMessage(env.codec, payload)
                          == Ok((Header(5577, Some(ProtoHeader(Some(account), Some(session), None, None, [])),
                                        JOBID_NONE, JOBID_NONE, account, session), [])))
  {
    hide LogOnResponse, ParseMessage;
    var called := st.Logged(Handled(header, body));
    assert HandleMessage(env, st, header, body, unzips) == LogOnResponse(env, called, header, body);
    LogOnSucceedsIff(env, called, header, body);
    if HandleMessage(env, st, header, body, unzips).error.None? {
      LogOnAnswered(env, called, header, body);
      var end := LogOnResponse(env, called, header, body).st;
      var sent := end.log[|called.log| + 2];
      assert end.log == called.log + end.log[|called.log|..];
      assert end.log[|called.log|..] == [end.log[|called.log|], end.log[|called.log| + 1], sent];
      assert sent == Sent(st.link.key, sent.nonce, sent.payload);
    }
  }

  // ---- the other messages of the switch ----

  /** Announcements fail exactly when their body does not decode, and leave the client alone; a message without a
      handler does nothing at all. */
  lemma OthersHandled(env: Env, st: Client, header: Header, body: seq<byte>, unzips: nat)
    ensures var called := st.Logged(Handled(header, body));
            var end := HandleMessage(env, st, header, body, unzips);
            && (header.emsg == 5576 ==>
                  end == Step(called, if env.codec.unmarshalItemAnnouncements(body).Some? then None else Some(BadBody)))
            && (header.emsg == 5599 ==>
                  end == Step(called, if env.codec.unmarshalNotifications(body).Some? then None else Some(BadBody)))
            && (header.emsg !in {1, 751, 1303, 1305, 5576, 5599} ==> end == Step(called, None))
  {
    hide LogOnResponse, EncryptRequest, EncryptResult, HandleMulti;
  }

  /** The nonce that goes back: what the Request holds behind its first eight bytes, up to 16, then zeros. */
  lemma NonceBytes(s: seq<byte>)
    ensures |NonceOf(s)| == 16
    ensures forall i :: 0 <= i < 16 ==> NonceOf(s)[i] == if i < |s| then s[i] else 0
  {
  }

  /** Which Requests are refused, and why. */
  lemma RequestRefused(env: Env, st: Client, header: Header, body: seq<byte>, unzips: nat)
    requires header.emsg == 1303
    ensures var called := st.Logged(Handled(header, body));
            var end := HandleMessage(env, st, header, body, unzips);
            && (|body| < 4 ==> end == Step(called, Some(BadBody)))
            && (|body| >= 4 && UnLE(body[..4]) != 1 ==> end == Step(called, Some(UnsupportedProtocol(UnLE(body[..4])))))
            && (4 <= |body| < 8 && UnLE(body[..4]) == 1 ==> end == Step(called, Some(BadBody)))
            && (|body| >= 8 && UnLE(body[..4]) == 1 && UnLE(body[4..8]) != 1 ==>
                  end == Step(called, Some(UnsupportedUniverse(UnLE(body[4..8])))))
            && (|body| == 8 && UnLE(body[..4]) == 1 && UnLE(body[4..8]) == 1 ==> end == Step(called, Some(BadBody)))
            && (|body| > 8 && UnLE(body[..4]) == 1 && UnLE(body[4..8]) == 1 && env.keys(st.draws).None? ==>
                  end == Step(called, Some(NoSessionKey)))
  {
    hide UnLE, Write;
  }

  /** A Request that is accepted: its key becomes pending, and the response goes out. */
  lemma RequestHandled(env: Env, st: Client, header: Header, body: seq<byte>, unzips: nat)
    requires header.emsg == 1303 && (|st.link.key| == 0 || |st.link.key| == 32) && st.link.state != Disconnecting
    requires |body| > 8 && UnLE(body[..4]) == 1 && UnLE(body[4..8]) == 1 && env.keys(st.draws).Some?
    ensures var end := HandleMessage(env, st, header, body, unzips);
            var (plain, encrypted) := env.keys(st.draws).value;
            && end.error == None && end.st.pending == plain && end.st.link == st.link
            && exists nonce, payload ::
                 && end.st.log == st.log + [Handled(header, body), Offered(plain), Sent(st.link.key, nonce, payload)]
                 && ParseKeyResponse(payload)
                    == Some(KeyResponse(header.targetJobID, header.sourceJobID, encrypted,
                                        env.codec.crc32(encrypted), NonceOf(body[8..])))
  {
    hide EncryptRequest, ParseKeyResponse, NonceOf, UnLE;
    var called := st.Logged(Handled(header, body));
    assert HandleMessage(env, st, header, body, unzips) == EncryptRequest(env, called, header, body);
    RequestSucceedsIff(env, called, header, body);
    RequestAnswered(env, called, header, body);
    var end := EncryptRequest(env, called, header, body).st;
    var sent := end.log[|called.log| + 1];
    assert end.log == called.log + end.log[|called.log|..];
    assert end.log[|called.log|..] == [end.log[|called.log|], sent];
    assert sent == Sent(st.link.key, sent.nonce, sent.payload);
  }

  /** A Result, accepted or not. */
  lemma ResultHandled(env: Env, st: Client, header: Header, body: seq<byte>, unzips: nat)
    requires header.emsg == 1305
    ensures var called := st.Logged(Handled(header, body));
            var end := HandleMessage(env, st, header, body, unzips);
            && (|body| < 4 ==> end == Step(called, Some(BadBody)))
            && (|body| >= 4 && UnLE(body[..4]) != 1 ==> end == Step(called, Some(ChannelRefused(UnLE(body[..4])))))
            && (|body| >= 4 && UnLE(body[..4]) == 1 ==>
                  && end.error == None && end.st.pending == [] && end.st.out == st.out
                  && end.st.link.key == (if st.pending == [] then st.link.key else st.pending)
                  && (st.pending != [] && st.link.state == ConnectedUnencrypted ==>
                        end.st.link.state == ConnectedEncrypted)
                  && (st.pending == [] || st.link.state != ConnectedUnencrypted ==>
                        end.st.link.state == st.link.state)
                  && end.st.log == called.log + [Installed, Connected(end.st.link.key != [])])
  {
    hide UnLE;
  }

  // ---- closing ----

  /** Closing makes the link disconnecting and changes nothing else. */
  lemma CloseDisconnects(env: Env, st: Client, unzips: nat)
    ensures var end := OneInput(env, st, CloseIt, unzips);
            && end.error == None && end.st.link.state == Disconnecting && end.st.link.key == st.link.key
            && end.st == st.(link := end.st.link)
  {
  }

  /** A client that is disconnecting reads nothing, refuses every write, and stays so. */
  lemma ClosedIsSilent(env: Env, st: Client, header: Header, body: seq<byte>, stream: seq<byte>, unzips: nat)
    requires st.link.state == Disconnecting
    ensures OneInput(env, st, OneFrame(stream), unzips) == Step(st, None)
    ensures Run(env, st, stream, unzips) == Step(st, None)
    ensures var written := Write(env, st, header, body);
            && written.error == Some(SendFailed(ConnectionClosing))
            && written.st == st.(draws := written.st.draws)
    ensures OneInput(env, st, UserWrite(header, body), unzips) == Step(Write(env, st, header, body).st, None)
  {
    hide LE, ReadFrame;
    assert HeaderBytes(env.codec, header) != [];
  }

  /** Whatever happens after Close, nothing more is read, handled or put on the stream. */
  lemma {:induction false} ClosedForGood(env: Env, st: Client, inputs: seq<Input>, unzips: nat)
    requires st.link.state == Disconnecting
    ensures var end := Session(env, st, inputs, unzips);
            end.error == None && end.st == st.(draws := end.st.draws)
    decreases |inputs|
  {
    hide OneInput, Write;
    if inputs != [] {
      var input := inputs[0];
      match input {
        case OneFrame(stream) => ClosedIsSilent(env, st, Header(0, None, 0, 0, 0, 0), [], stream, unzips);
        case UserWrite(header, body) => ClosedIsSilent(env, st, header, body, [], unzips);
        case CloseIt => CloseDisconnects(env, st, unzips);
      }
      ClosedForGood(env, OneInput(env, st, input, unzips).st, inputs[1..], unzips);
    }
  }
}
