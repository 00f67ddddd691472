/** The Protocol object: its fields, handlers and read loop (the files of protocol/), proved to do what Handlers
    describes. */
module ProtocolClient {
  import opened Integers
  import opened Wrappers
  import opened Bytes
  import opened Framing
  import opened TcpConnection
  import opened Codec
  import opened Messages
  import opened Handlers
  import opened ByteReader

  /** The channel that stops one heartbeat loop. Closing it twice would panic. */
  class StopChannel {
    var closed: bool

    constructor ()
      ensures !closed
    {
      closed := false;
    }

    method Close()
      requires !closed
      modifies this
      ensures closed
    {
      closed := true;
    }
  }

  class Protocol {
    const env: Env
    const connection: TCPConnection
    var sessionKey: array<byte>
    var stopHeartbeat: StopChannel?
    var steamID: uint64
    var sessionID: int32
    var draws: nat
    ghost var log: seq<Action>

    ghost predicate Valid()
      reads this, stopHeartbeat
    {
      connection.suite == env.suite && (stopHeartbeat != null ==> !stopHeartbeat.closed)
    }

    /** The state that Handlers and Handshake speak about. */
    ghost function Abs(): Client
      reads this, sessionKey, connection, connection.sessionKey, connection.connection
    {
      Client(connection.Abs(), connection.connection.sent, sessionKey[..], draws, steamID, sessionID, log)
    }

    /** The objects the methods change. Key arrays are replaced, never overwritten. */
    ghost function Owned(): set<object>
      reads this
    {
      {this, connection} + (if stopHeartbeat == null then {} else {stopHeartbeat})
    }

    constructor (env: Env, connection: TCPConnection)
      requires connection.suite == env.suite
      ensures Valid() && this.env == env && this.connection == connection && stopHeartbeat == null
      ensures Abs() == START.(link := connection.Abs(), out := connection.connection.sent)
    {
      this.env, this.connection := env, connection;
      sessionKey := new byte[0];
      stopHeartbeat := null;
      steamID, sessionID, draws := 0, 0, 0;
      log := [];
    }

    // ---- protocol/write.go ----

    /** The header part of Write: fills in the defaults of the protobuf header and prints one of the three layouts. */
    method PrintHeader(header: HeaderFields) returns (headerBuf: seq<byte>)
      modifies header`proto
      ensures headerBuf == HeaderBytes(env.codec, old(header.Value()))
      ensures header.proto == if header.emsg != EMSG_CHANNEL_ENCRYPT_RESPONSE && old(header.proto).Some?
                              then Some(Defaulted(header.emsg, old(header.proto.value))) else old(header.proto)
    {
      hide LE, Words.Or;
      if header.emsg == EMSG_CHANNEL_ENCRYPT_RESPONSE {
        headerBuf := LE(ToUnsigned(header.emsg), 4);
        headerBuf := headerBuf + LE(header.targetJobID, 8);
        headerBuf := headerBuf + LE(header.sourceJobID, 8);
      } else if header.proto.Some? {
        if header.emsg != EMSG_CLIENT_HELLO && header.emsg != EMSG_SERVICE_METHOD_CALL_FROM_CLIENT_NON_AUTHED {
          if header.proto.value.clientSessionid.None? {
            header.proto := Some(header.proto.value.(clientSessionid := Some(0)));
          }
          if header.proto.value.steamid.None? {
            header.proto := Some(header.proto.value.(steamid := Some(0)));
          }
        }
        assert header.proto.value == Defaulted(header.emsg, old(header.proto.value));
        var b := env.codec.marshalHeader(header.proto.value);
        headerBuf := LE(Words.Or(ToUnsigned(header.emsg), PROTO_MASK), 4);
        headerBuf := headerBuf + LE(|b|, 4);
        headerBuf := headerBuf + b;
      } else {
        headerBuf := LE(ToUnsigned(header.emsg), 4);
        headerBuf := headerBuf + LE(36, 4);
        headerBuf := headerBuf + LE(2, 2);
        headerBuf := headerBuf + LE(header.targetJobID, 8);
        headerBuf := headerBuf + LE(header.sourceJobID, 8);
        headerBuf := headerBuf + LE(239, 1);
        headerBuf := headerBuf + LE(header.steamID, 8);
        headerBuf := headerBuf + LE(ToUnsigned(header.sessionID), 4);
      }
    }

    method Write(header: HeaderFields, body: seq<byte>) returns (error: Option<Error>)
      requires Valid()
      modifies this`draws, this`log, connection.connection`sent, header`proto
      ensures Valid() && Step(Abs(), error) == Handlers.Write(env, old(Abs()), old(header.Value()), body)
    {
      hide HeaderBytes, Wire;
      var headerBuf := PrintHeader(header);
      error := SendBytes(headerBuf + body);
    }

    method SendBytes(payload: seq<byte>) returns (error: Option<Error>)
      requires Valid()
      modifies this`draws, this`log, connection.connection`sent
      ensures Valid()
      ensures var nonce := env.nonces(old(draws));
              match TcpConnection.Sent(env.suite, old(connection.Abs()), payload, nonce)
              case Err(e) => error == Some(SendFailed(e)) && Abs() == old(Abs()).(draws := old(draws) + 1)
              case Ok(wire) =>
                && error == None
                && Abs() == old(Abs()).(draws := old(draws) + 1, out := old(connection.connection.sent) + wire)
                              .Logged(Handlers.Sent(old(connection.Abs()).key, nonce, payload))
    {
      var nonce := env.nonces(draws);
      draws := draws + 1;
      var sent := connection.Send(payload, nonce);
      if sent.Err? {
        return Some(SendFailed(sent.error));
      }
      log := log + [Handlers.Sent(connection.sessionKey[..], nonce, payload)];
      return None;
    }

    /** Send: the marshalled body behind the header. */
    method Send(header: HeaderFields, marshalled: seq<byte>) returns (error: Option<Error>)
      requires Valid()
      modifies this`draws, this`log, connection.connection`sent, header`proto
      ensures Valid() && Step(Abs(), error) == Handlers.Write(env, old(Abs()), old(header.Value()), marshalled)
    {
      error := Write(header, marshalled);
    }

    // ---- protocol/handlers.go ----

    method HandleChannelEncryptRequest(header: HeaderFields, body: Reader) returns (error: Option<Error>)
      requires Valid() && body.Valid()
      modifies this, connection.connection`sent, body
      ensures Valid() && stopHeartbeat == old(stopHeartbeat)
      ensures Step(Abs(), error) == EncryptRequest(env, old(Abs()), header.Value(), old(body.Rest()))
    {
      hide Handlers.Write, U32, LE, NonceOf;
      var nonce: seq<byte>;
      nonce, error := ReadRequest(body);
      if error.Some? {
        return;
      }
      var generated := env.keys(draws);
      if generated.None? {
        return Some(NoSessionKey);
      }
      var (plain, encrypted) := generated.value;
      draws := draws + 1;
      KeepSessionKey(plain);

      var buf := LE(1, 4);
      buf := buf + LE(|encrypted|, 4);
      buf := buf + encrypted;
      buf := buf + LE(env.codec.crc32(encrypted), 4);
      buf := buf + nonce;
      assert buf == Response(env.codec, encrypted, nonce);
      var hdr := new HeaderFields(ResponseHeader(header.Value()));
      error := Write(hdr, buf);
    }

    /** h.sessionKey = plain */
    method KeepSessionKey(plain: seq<byte>)
      requires Valid()
      modifies this`sessionKey, this`log
      ensures Valid() && Abs() == old(Abs()).(pending := plain).Logged(Offered(plain))
    {
      var key := new byte[|plain|](i requires 0 <= i < |plain| => plain[i]);
      sessionKey := key;
      assert sessionKey[..] == plain;
      log := log + [Offered(plain)];
    }

    method HandleChannelEncryptResult(body: Reader) returns (error: Option<Error>)
      requires Valid() && body.Valid()
      modifies this, connection, body
      ensures Valid() && stopHeartbeat == old(stopHeartbeat)
      ensures Step(Abs(), error) == EncryptResult(old(Abs()), old(body.Rest()))
    {
      hide U32;
      var eresult, status := body.ReadUint32();
      if status != Fine {
        return Some(BadBody);
      }
      if eresult != 1 {
        return Some(ChannelRefused(eresult));
      }
      connection.SetSessionKey(sessionKey);
      sessionKey := new byte[0];
      log := log + [Installed];
      log := log + [Connected(connection.sessionKey[..] != [])];
      return None;
    }

    /** The channel replacement of startHeartbeat, under the mutex. */
    method StartHeartbeat(seconds: int32)
      requires Valid() && seconds > 0
      modifies this`stopHeartbeat, this`log, stopHeartbeat
      ensures Valid() && fresh(stopHeartbeat)
      ensures old(stopHeartbeat) != null ==> old(stopHeartbeat).closed
      ensures Abs() == old(Abs()).Logged(HeartbeatStarted(seconds))
    {
      if stopHeartbeat != null {
        stopHeartbeat.Close();
      }
      stopHeartbeat := new StopChannel();
      log := log + [HeartbeatStarted(seconds)];
    }

    method HandleClientLogOnResponse(header: HeaderFields, body: Reader) returns (error: Option<Error>)
      requires Valid() && body.Valid()
      modifies Owned(), connection.connection`sent, body
      ensures Valid() && fresh(Owned() - old(Owned()))
      ensures Step(Abs(), error) == LogOnResponse(env, old(Abs()), header.Value(), old(body.Rest()))
    {
      hide Handlers.Write;
      var b := body.ReadAll();
      var response := env.codec.unmarshalLogon(b);
      if response.None? {
        return Some(BadBody);
      }
      if response.value.eresult != 1 {
        return Some(LogonRefused(response.value.eresult));
      }
      if response.value.heartbeatSeconds.None? {
        return Some(NoHeartbeatInterval);
      }
      if response.value.heartbeatSeconds.value <= 0 {
        return Some(TickerPanic(response.value.heartbeatSeconds.value));
      }
      StartHeartbeat(response.value.heartbeatSeconds.value);

      var proto := GetOr(header.proto, UNSET);
      steamID := GetOr(proto.steamid, 0);
      sessionID := GetOr(proto.clientSessionid, 0);
      log := log + [LoggedOn(steamID, sessionID)];
      var request := new HeaderFields(ItemRequest(steamID, sessionID));
      error := Send(request, []);
    }

    method HandleOther(header: HeaderFields, body: Reader) returns (error: Option<Error>)
      requires Valid() && body.Valid()
      requires header.emsg != EMSG_MULTI
      modifies Owned(), connection.connection`sent, body
      ensures Valid() && fresh(Owned() - old(Owned()))
      ensures Step(Abs(), error) == Dispatch(env, old(Abs()), header.Value(), old(body.Rest()))
    {
      hide EncryptRequest, EncryptResult, LogOnResponse;
      if header.emsg == EMSG_CHANNEL_ENCRYPT_REQUEST {
        error := HandleChannelEncryptRequest(header, body);
      } else if header.emsg == EMSG_CHANNEL_ENCRYPT_RESULT {
        error := HandleChannelEncryptResult(body);
      } else if header.emsg == EMSG_CLIENT_LOG_ON_RESPONSE {
        error := HandleClientLogOnResponse(header, body);
      } else if header.emsg == EMSG_CLIENT_ITEM_ANNOUNCEMENTS {
        var b := body.ReadAll();
        var response := env.codec.unmarshalItemAnnouncements(b);
        error := if response.None? then Some(BadBody) else None;
      } else if header.emsg == EMSG_CLIENT_USER_NOTIFICATIONS {
        var b := body.ReadAll();
        var response := env.codec.unmarshalNotifications(b);
        error := if response.None? then Some(BadBody) else None;
      } else {
        error := None;
      }
    }

    // ---- the recursion of readMessage, handleMessage and handleMulti ----

    method ReadMessage(reader: Reader, unzips: nat) returns (error: Option<Error>)
      requires Valid() && reader.Valid()
      modifies Owned(), connection.connection`sent, reader
      ensures Valid() && fresh(Owned() - old(Owned()))
      ensures Step(Abs(), error) == Handlers.ReadMessage(env, old(Abs()), old(reader.Rest()), unzips)
      decreases unzips, |reader.Rest()|, 3
    {
      hide Handlers.HandleMessage, U32, RawEMsg, Words.And;
      hide ParseProtobufHeader, ParseStandardHeader, ParseExtendedHeader;
      ghost var before, data := Abs(), reader.Rest();
      var rawEMsg, status := reader.ReadUint32();
      if status != Fine {
        return Some(ParseFailed(Truncated));
      }
      var header := new HeaderFields(Header(RawEMsg(rawEMsg), None, 0, 0, 0, 0));
      var failed := ReadHeader(env.codec, header, reader, Words.And(rawEMsg, PROTO_MASK) != 0);
      if failed.Some? {
        return Some(ParseFailed(failed.value));
      }
      assert ParseMessage(env.codec, data) == Ok((header.Value(), reader.Rest()));
      ParseShrinks(env.codec, data);
      assert Abs() == before;
      error := HandleMessage(header, reader, unzips);
    }

    method HandleMessage(header: HeaderFields, body: Reader, unzips: nat) returns (error: Option<Error>)
      requires Valid() && body.Valid()
      modifies Owned(), connection.connection`sent, body
      ensures Valid() && fresh(Owned() - old(Owned()))
      ensures Step(Abs(), error) == Handlers.HandleMessage(env, old(Abs()), header.Value(), old(body.Rest()), unzips)
      decreases unzips, |body.Rest()|, 2
    {
      hide Dispatch, Handlers.HandleMulti;
      log := log + [Handled(header.Value(), body.Rest())];
      if header.emsg == EMSG_MULTI {
        error := HandleMulti(body, unzips);
      } else {
        error := HandleOther(header, body);
      }
    }

    method HandleMulti(body: Reader, unzips: nat) returns (error: Option<Error>)
      requires Valid() && body.Valid()
      modifies Owned(), connection.connection`sent, body
      ensures Valid() && fresh(Owned() - old(Owned()))
      ensures Step(Abs(), error) == Handlers.HandleMulti(env, old(Abs()), old(body.Rest()), unzips)
      decreases unzips, |body.Rest()|, 1
    {
      hide SubMessages;
      ghost var before, all := Abs(), body.Rest();
      var b := body.ReadAll();
      var response := env.codec.unmarshalMulti(b);
      if response.None? {
        return Some(BadBody);
      }
      if |response.value.messageBody| == 0 {
        return Some(EmptyMulti);
      }
      var data := response.value.messageBody;
      var left := unzips;
      if response.value.sizeUnzipped != 0 {
        var unzipped := env.codec.gunzip(response.value.messageBody);
        if unzipped.None? {
          return Some(GunzipFailed);
        }
        data := unzipped.value;
        if |data| % TWO32 != response.value.sizeUnzipped {
          return Some(SizeMismatch);
        }
        if unzips == 0 {
          return Some(NestedTooDeep);
        }
        left := unzips - 1;
      }
      assert MultiData(env.codec, all) == Ok((data, response.value.sizeUnzipped != 0));
      error := HandleSubMessages(data, left);
    }

    /** The loop of handleMulti. */
    method HandleSubMessages(data: seq<byte>, unzips: nat) returns (error: Option<Error>)
      requires Valid()
      modifies Owned(), connection.connection`sent
      ensures Valid() && fresh(Owned() - old(Owned()))
      ensures Step(Abs(), error) == SubMessages(env, old(Abs()), data, unzips)
      decreases unzips, |data|, 1
    {
      hide Abs, SubMessages, Valid, Reader.Valid, Reader.Rest, Reader.Len;
      var reader := new Reader(data);
      ghost var whole := SubMessages(env, Abs(), data, unzips);
      while reader.Len() != 0
        invariant Valid() && reader.Valid() && fresh(reader) && fresh(Owned() - old(Owned()))
        invariant |reader.Rest()| <= |data|
        invariant SubMessages(env, Abs(), reader.Rest(), unzips) == whole
        decreases reader.Len()
      {
        error := HandleFirst(reader, unzips);
        if error.Some? {
          return;
        }
      }
      SubMessagesTurn(env, Abs(), [], unzips);
      return None;
    }

    /** The body of that loop. */
    method HandleFirst(reader: Reader, unzips: nat) returns (error: Option<Error>)
      requires Valid() && reader.Valid() && reader.Rest() != []
      modifies Owned(), connection.connection`sent, reader
      ensures Valid() && reader.Valid() && fresh(Owned() - old(Owned()))
      ensures |reader.Rest()| < |old(reader.Rest())|
      ensures SubMessages(env, old(Abs()), old(reader.Rest()), unzips)
           == if error.Some? then Step(Abs(), error) else SubMessages(env, Abs(), reader.Rest(), unzips)
      decreases unzips, |reader.Rest()|, 0
    {
      hide Handlers.ReadMessage, SplitSubMessage, SubMessages;
      SubMessagesTurn(env, Abs(), reader.Rest(), unzips);
      var message: seq<byte>;
      message, error := ReadSubMessage(reader);
      if error.None? {
        var sub := new Reader(message);
        error := ReadMessage(sub, unzips);
      }
    }

    // ---- protocol/protocol.go ----

    /** Run until the stream ends, a packet is refused or a handler fails. */
    method Run(unzips: nat) returns (error: Option<Error>)
      requires Valid()
      modifies Owned(), connection.connection`sent, connection.connection`incoming
      ensures Valid() && fresh(Owned() - old(Owned()))
      ensures Step(Abs(), error) == Handlers.Run(env, old(Abs()), old(connection.connection.Pending()), unzips)
    {
      hide Abs, Handlers.Run;
      ghost var whole := Handlers.Run(env, Abs(), connection.connection.Pending(), unzips);
      while true
        invariant Valid() && fresh(Owned() - old(Owned()))
        invariant Handlers.Run(env, Abs(), connection.connection.Pending(), unzips) == whole
        decreases |connection.connection.Pending()|
      {
        var more: bool;
        more, error := RunOnce(unzips);
        if !more {
          return;
        }
      }
    }

    /** The body of that loop: whether it goes on, and if not, the error that Run returns. */
    method RunOnce(unzips: nat) returns (more: bool, error: Option<Error>)
      requires Valid()
      modifies Owned(), connection.connection`sent, connection.connection`incoming
      ensures Valid() && fresh(Owned() - old(Owned()))
      ensures more ==> |connection.connection.Pending()| < |old(connection.connection.Pending())|
      ensures Handlers.Run(env, old(Abs()), old(connection.connection.Pending()), unzips)
           == if more then Handlers.Run(env, Abs(), connection.connection.Pending(), unzips) else Step(Abs(), error)
    {
      hide Handlers.ReadMessage, ReadPacket, Handlers.Run;
      ghost var st, stream := Abs(), connection.connection.Pending();
      RunTurn(env, st, stream, unzips);
      var outcome := connection.Read();
      match outcome {
        case Failed(e) =>
          return false, Some(ReadFailed(e));
        case Closing =>
          return false, None;
        case Received(body) =>
          ghost var packet := ReadPacket(env.suite, st.link.key, stream).value;
          log := log + [Frame(st.link.key, packet.raw, packet.body)];
          error := HandlePacket(body, unzips);
          return error.None?, error;
      }
    }

    method HandlePacket(body: seq<byte>, unzips: nat) returns (error: Option<Error>)
      requires Valid()
      modifies Owned(), connection.connection`sent
      ensures Valid() && fresh(Owned() - old(Owned()))
      ensures Step(Abs(), error) == Handlers.ReadMessage(env, old(Abs()), body, unzips)
    {
      hide Handlers.ReadMessage, Abs;
      var reader := new Reader(body);
      error := ReadMessage(reader, unzips);
    }

    method Close()
      requires Valid()
      modifies Owned(), connection.connection`open
      ensures Valid() && stopHeartbeat == null
      ensures old(stopHeartbeat) != null ==> old(stopHeartbeat).closed
      ensures Step(Abs(), None) == OneInput(env, old(Abs()), CloseIt, 0)
      ensures connection.state == Disconnecting && !connection.connection.open
    {
      if stopHeartbeat != null {
        stopHeartbeat.Close();
        stopHeartbeat := null;
      }
      connection.Close();
    }
  }

  /** The body of a Request: protocol 1, universe 1 and a nonce. */
  method ReadRequest(body: Reader) returns (nonce: seq<byte>, error: Option<Error>)
    requires body.Valid()
    modifies body
    ensures body.Valid()
    ensures var b := old(body.Rest());
            error ==
            if |b| < 4 then Some(BadBody)
            else if U32(b[..4]) != 1 then Some(UnsupportedProtocol(U32(b[..4])))
            else if |b| < 8 then Some(BadBody)
            else if U32(b[4..8]) != 1 then Some(UnsupportedUniverse(U32(b[4..8])))
            else if |b| == 8 then Some(BadBody)
            else None
    ensures error.None? ==> nonce == NonceOf(old(body.Rest())[8..])
  {
    hide U32;
    ghost var all := body.Rest();
    nonce := [];
    var protocol, status := body.ReadUint32();
    if status != Fine {
      return [], Some(BadBody);
    }
    if protocol != 1 {
      return [], Some(UnsupportedProtocol(protocol));
    }
    assert |all| >= 8 ==> all[4..][..4] == all[4..8];
    var universe: uint32;
    universe, status := body.ReadUint32();
    if status != Fine {
      return [], Some(BadBody);
    }
    if universe != 1 {
      return [], Some(UnsupportedUniverse(universe));
    }
    assert body.Rest() == all[8..];
    var read, eof := body.Read(16);
    if eof {
      return [], Some(BadBody);
    }
    NonceRead(all[8..], read);
    return read + seq(16 - |read|, _ => 0), None;
  }

  /** What one turn of the loop over the sub-messages does. */
  lemma SubMessagesTurn(env: Env, st: Client, data: seq<byte>, unzips: nat)
    ensures SubMessages(env, st, data, unzips) ==
            if data == [] then Step(st, None)
            else if SplitSubMessage(data).Err? then Step(st, Some(SplitSubMessage(data).error))
            else
              var (message, rest) := SplitSubMessage(data).value;
              var first := Handlers.ReadMessage(env, st, message, unzips);
              if first.error.Some? then first else SubMessages(env, first.st, rest, unzips)
  {
    hide Handlers.ReadMessage, SplitSubMessage;
  }

  /** What one turn of the read loop does. */
  lemma RunTurn(env: Env, st: Client, stream: seq<byte>, unzips: nat)
    ensures Handlers.Run(env, st, stream, unzips) ==
            if st.link.state == Disconnecting then Step(st, None)
            else if ReadPacket(env.suite, st.link.key, stream).Err?
            then Step(st, Some(ReadFailed(ReadPacket(env.suite, st.link.key, stream).error)))
            else
              var packet := ReadPacket(env.suite, st.link.key, stream).value;
              var logged := st.Logged(Frame(st.link.key, packet.raw, packet.body));
              var first := Handlers.ReadMessage(env, logged, packet.body, unzips);
              if first.error.Some? then first else Handlers.Run(env, first.st, packet.rest, unzips)
  {
    hide Handlers.ReadMessage;
  }

  /** One size field and the sub-message it announces. */
  method ReadSubMessage(reader: Reader) returns (message: seq<byte>, error: Option<Error>)
    requires reader.Valid() && reader.Rest() != []
    modifies reader
    ensures reader.Valid()
    ensures match SplitSubMessage(old(reader.Rest()))
            case Err(e) => error == Some(e)
            case Ok((first, rest)) => error == None && message == first && reader.Rest() == rest
    ensures |reader.Rest()| < |old(reader.Rest())|
    ensures |message| < |old(reader.Rest())|
  {
    hide U32;
    var size, status := reader.ReadUint32();
    // With a byte left to read, the input can only end unexpectedly, never with io.EOF.
    assert status != EOF;
    if status == UnexpectedEOF {
      return [], Some(BadBody);
    }
    if size < 4 {
      return [], Some(SubMessageSize(size));
    }
    if reader.Len() % TWO32 < size {
      return [], Some(SubMessageSize(size));
    }
    message, status := reader.ReadFull(size);
    error := None;
  }

  lemma NonceRead(rest: seq<byte>, read: seq<byte>)
    requires |read| <= 16 && read <= rest && |read| == if 16 <= |rest| then 16 else |rest|
    ensures read + seq(16 - |read|, _ => 0) == NonceOf(rest)
  {
  }
}
