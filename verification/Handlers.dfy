/** What handling a message does to the client: the dispatch, the key handshake and the recursive unpacking of
    Multi messages (protocol/handlers.go, protocol/read.go, protocol/write.go). */
module Handlers {
  import opened Integers
  import opened Wrappers
  import opened Bytes
  import opened Primitives
  import opened Framing
  import opened TcpConnection
  import opened Codec
  import opened Messages

  /** RSA ciphertexts under the embedded key of 1024 bits (crypto/public-key.pem). */
  type Encrypted = e: seq<byte> | |e| == 128 witness seq(128, _ => 0)

  /** Everything the client takes from outside: libraries and the random source, by number of the draw. */
  datatype Env = Env(
    suite: Suite,
    codec: Codec,
    keys: nat -> Option<(Key, Encrypted)>, // a fresh session key and its RSA encryption
    nonces: nat -> Nonce)

  /** One entry of the history of a run. */
  datatype Action =
    | Frame(key: seq<byte>, raw: seq<byte>, body: seq<byte>) // a packet was read while key was set
    | Handled(header: Header, body: seq<byte>)               // handleMessage was called
    | Offered(key: seq<byte>)                                // a Request was accepted and key became pending
    | Sent(key: seq<byte>, nonce: Nonce, payload: seq<byte>) // a packet was sent while key was set
    | Installed                                              // a Result of 1 handed the pending key to the connection
    | Connected(keyed: bool)                                 // EventConnected, and whether a key was set
    | HeartbeatStarted(seconds: int32)
    | LoggedOn(steamID: uint64, sessionID: int32)

  datatype Client = Client(
    link: Link,
    out: seq<byte>,     // what has been written to the stream
    pending: seq<byte>, // the protocol's own sessionKey field, empty for nil
    draws: nat,
    steamID: uint64,
    sessionID: int32,
    log: seq<Action>)
  {
    function Logged(a: Action): Client {
      this.(log := log + [a])
    }
  }

  const START := Client(INITIAL, [], [], 0, 0, 0, [])

  datatype Error =
    | ParseFailed(cause: MessageError)
    | ReadFailed(read: ReadError)
    | SendFailed(send: SendError)
    | BadBody
    | UnsupportedProtocol(protocol: uint32)
    | UnsupportedUniverse(universe: uint32)
    | NoSessionKey
    | ChannelRefused(eresult: uint32)
    | LogonRefused(code: int32)
    | NoHeartbeatInterval
    | TickerPanic(seconds: int32) // time.NewTicker refuses intervals that are not positive
    | EmptyMulti
    | GunzipFailed
    | SizeMismatch
    | SubMessageSize(size: nat)
    | NestedTooDeep

  datatype Step = Step(st: Client, error: Option<Error>)

  // ---- sending ----

  function Write(env: Env, st: Client, header: Header, body: seq<byte>): Step {
    var payload := HeaderBytes(env.codec, header) + body;
    match TcpConnection.Sent(env.suite, st.link, payload, env.nonces(st.draws))
    case Err(e) => Step(st.(draws := st.draws + 1), Some(SendFailed(e)))
    case Ok(wire) =>
      Step(st.(draws := st.draws + 1, out := st.out + wire)
             .Logged(Sent(st.link.key, env.nonces(st.draws), payload)), None)
  }

  // ---- the handlers without recursion ----

  /** The nonce is read with one call that may come back short; the rest of its 16 bytes stay zero. */
  function NonceOf(s: seq<byte>): seq<byte> {
    if |s| >= 16 then s[..16] else s + seq(16 - |s|, _ => 0)
  }

  function Response(codec: Codec, encrypted: seq<byte>, nonce: seq<byte>): seq<byte> {
    LE(1, 4) + LE(|encrypted|, 4) + encrypted + LE(codec.crc32(encrypted), 4) + nonce
  }

  function ResponseHeader(request: Header): Header {
    Header(EMSG_CHANNEL_ENCRYPT_RESPONSE, None, request.targetJobID, request.sourceJobID, 0, 0)
  }

  function EncryptRequest(env: Env, st: Client, header: Header, body: seq<byte>): Step {
    if |body| < 4 then Step(st, Some(BadBody))
    else if U32(body[..4]) != 1 then Step(st, Some(UnsupportedProtocol(U32(body[..4]))))
    else if |body| < 8 then Step(st, Some(BadBody))
    else if U32(body[4..8]) != 1 then Step(st, Some(UnsupportedUniverse(U32(body[4..8]))))
    else if |body| == 8 then Step(st, Some(BadBody))
    else
      match env.keys(st.draws)
      case None => Step(st, Some(NoSessionKey))
      case Some((plain, encrypted)) =>
        Write(env, st.(draws := st.draws + 1, pending := plain).Logged(Offered(plain)), ResponseHeader(header),
              Response(env.codec, encrypted, NonceOf(body[8..])))
  }

  function EncryptResult(st: Client, body: seq<byte>): Step {
    if |body| < 4 then Step(st, Some(BadBody))
    else if U32(body[..4]) != 1 then Step(st, Some(ChannelRefused(U32(body[..4]))))
    else
      var link := Apply(st.link, SetKey(st.pending));
      Step(st.(link := link, pending := []).Logged(Installed).Logged(Connected(link.key != [])), None)
  }

  function ItemRequest(steamID: uint64, sessionID: int32): Header {
    Header(EMSG_CLIENT_REQUEST_ITEM_ANNOUNCEMENTS, Some(ProtoHeader(Some(steamID), Some(sessionID), None, None, [])),
           0, 0, 0, 0)
  }

  function LogOnResponse(env: Env, st: Client, header: Header, body: seq<byte>): Step {
    match env.codec.unmarshalLogon(body)
    case None => Step(st, Some(BadBody))
    case Some(response) =>
      if response.eresult != 1 then Step(st, Some(LogonRefused(response.eresult)))
      else if response.heartbeatSeconds.None? then Step(st, Some(NoHeartbeatInterval))
      else if response.heartbeatSeconds.value <= 0 then Step(st, Some(TickerPanic(response.heartbeatSeconds.value)))
      else
        var proto := GetOr(header.proto, UNSET);
        var steamID, sessionID := GetOr(proto.steamid, 0), GetOr(proto.clientSessionid, 0);
        Write(env,
              st.(steamID := steamID, sessionID := sessionID)
                .Logged(HeartbeatStarted(response.heartbeatSeconds.value)).Logged(LoggedOn(steamID, sessionID)),
              ItemRequest(steamID, sessionID), [])
  }

  /** Every message except Multi. */
  function Dispatch(env: Env, st: Client, header: Header, body: seq<byte>): Step {
    if header.emsg == EMSG_CHANNEL_ENCRYPT_REQUEST then EncryptRequest(env, st, header, body)
    else if header.emsg == EMSG_CHANNEL_ENCRYPT_RESULT then EncryptResult(st, body)
    else if header.emsg == EMSG_CLIENT_LOG_ON_RESPONSE then LogOnResponse(env, st, header, body)
    else if header.emsg == EMSG_CLIENT_ITEM_ANNOUNCEMENTS then
      Step(st, if env.codec.unmarshalItemAnnouncements(body).None? then Some(BadBody) else None)
    else if header.emsg == EMSG_CLIENT_USER_NOTIFICATIONS then
      Step(st, if env.codec.unmarshalNotifications(body).None? then Some(BadBody) else None)
    else Step(st, None)
  }

  // ---- the recursion ----

  /** The bytes of the sub-messages, and whether they came out of gzip. */
  function MultiData(codec: Codec, body: seq<byte>): (r: Result<(seq<byte>, bool), Error>)
    ensures r.Ok? && !r.value.1 ==> |r.value.0| < |body|
  {
    match codec.unmarshalMulti(body)
    case None => Err(BadBody)
    case Some(multi) =>
      if multi.messageBody == [] then Err(EmptyMulti)
      else if multi.sizeUnzipped == 0 then Ok((multi.messageBody, false))
      else
        match codec.gunzip(multi.messageBody)
        case None => Err(GunzipFailed)
        case Some(data) => if |data| % TWO32 != multi.sizeUnzipped then Err(SizeMismatch) else Ok((data, true))
  }

  /** unzips bounds how many compressed levels may still be opened; without compression it is never used. */
  function ReadMessage(env: Env, st: Client, data: seq<byte>, unzips: nat): Step
    decreases unzips, |data|, 3
  {
    match ParseMessage(env.codec, data)
    case Err(e) => Step(st, Some(ParseFailed(e)))
    case Ok((header, body)) =>
      ParseShrinks(env.codec, data);
      HandleMessage(env, st, header, body, unzips)
  }

  function HandleMessage(env: Env, st: Client, header: Header, body: seq<byte>, unzips: nat): Step
    decreases unzips, |body|, 2
  {
    var called := st.Logged(Handled(header, body));
    if header.emsg == EMSG_MULTI then HandleMulti(env, called, body, unzips)
    else Dispatch(env, called, header, body)
  }

  function HandleMulti(env: Env, st: Client, body: seq<byte>, unzips: nat): Step
    decreases unzips, |body|, 1
  {
    match MultiData(env.codec, body)
    case Err(e) => Step(st, Some(e))
    case Ok((data, zipped)) =>
      if !zipped then SubMessages(env, st, data, unzips)
      else if unzips == 0 then Step(st, Some(NestedTooDeep))
      else SubMessages(env, st, data, unzips - 1)
  }

  /** One turn of the loop: the first sub-message and what follows it. */
  function SplitSubMessage(data: seq<byte>): (r: Result<(seq<byte>, seq<byte>), Error>)
    requires data != []
    ensures r.Ok? ==> |r.value.0| >= 4 && |data| == 4 + |r.value.0| + |r.value.1|
  {
    if |data| < 4 then Err(BadBody)
    else
      var size := U32(data[..4]);
      var rest := data[4..];
      if size < 4 then Err(SubMessageSize(size))
      else if |rest| % TWO32 < size then Err(SubMessageSize(size))
      else Ok((rest[..size], rest[size..]))
  }

  function SubMessages(env: Env, st: Client, data: seq<byte>, unzips: nat): Step
    decreases unzips, |data|, 0
  {
    if data == [] then Step(st, None)
    else
      match SplitSubMessage(data)
      case Err(e) => Step(st, Some(e))
      case Ok((message, rest)) =>
        var first := ReadMessage(env, st, message, unzips);
        if first.error.Some? then first else SubMessages(env, first.st, rest, unzips)
  }

  // ---- a whole session ----

  /** What can happen to a client: Run reads a packet from a stream with the given content, or the application
      calls Close or Write. */
  datatype Input =
    | OneFrame(stream: seq<byte>)
    | CloseIt
    | UserWrite(header: Header, body: seq<byte>)

  function ReadFrame(env: Env, st: Client, stream: seq<byte>, unzips: nat): Step {
    match ReadPacket(env.suite, st.link.key, stream)
    case Err(e) => Step(st, Some(ReadFailed(e)))
    case Ok(packet) =>
      ReadMessage(env, st.Logged(Frame(st.link.key, packet.raw, packet.body)), packet.body, unzips)
  }

  function OneInput(env: Env, st: Client, input: Input, unzips: nat): Step {
    match input
    case OneFrame(stream) =>
      if st.link.state == Disconnecting then Step(st, None) else ReadFrame(env, st, stream, unzips)
    case CloseIt => Step(st.(link := Apply(st.link, CloseCall)), None)
    case UserWrite(header, body) => Step(Write(env, st, header, body).st, None)
  }

  /** The session ends with the first error of Run. */
  function Session(env: Env, st: Client, inputs: seq<Input>, unzips: nat): Step
    decreases |inputs|
  {
    if inputs == [] then Step(st, None)
    else
      var first := OneInput(env, st, inputs[0], unzips);
      if first.error.Some? then first else Session(env, first.st, inputs[1..], unzips)
  }

  /** Run on a stream that holds the given bytes and then ends. */
  function Run(env: Env, st: Client, stream: seq<byte>, unzips: nat): Step
    decreases |stream|
  {
    if st.link.state == Disconnecting then Step(st, None)
    else
      var first := ReadFrame(env, st, stream, unzips);
      if first.error.Some? then first
      else Run(env, first.st, ReadPacket(env.suite, st.link.key, stream).value.rest, unzips)
  }
}
