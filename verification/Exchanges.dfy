/** What the other side finds in the two messages the client sends of its own accord
    (protocol/handlers.go:98-131 and 172-187). */
module Exchanges {
  import opened Integers
  import opened Words
  import opened Wrappers
  import opened Bytes
  import opened Primitives
  import opened Framing
  import opened TcpConnection
  import opened Codec
  import opened Messages
  import opened Handlers

  /** A ChannelEncryptResponse as the server takes it apart. */
  datatype KeyResponse = KeyResponse(
    targetJobID: uint64,
    sourceJobID: uint64,
    encrypted: seq<byte>,
    checksum: uint32,
    nonce: seq<byte>)

  function ParseKeyResponse(s: seq<byte>): Option<KeyResponse> {
    if |s| < 28 || U32(s[..4]) != EMSG_CHANNEL_ENCRYPT_RESPONSE || U32(s[20..24]) != 1 then None
    else
      var length := U32(s[24..28]);
      if |s| < 28 + length + 4 then None
      else Some(KeyResponse(U64(s[4..12]), U64(s[12..20]), s[28..28 + length], U32(s[28 + length..32 + length]),
                            s[32 + length..]))
  }

  lemma Field4(v: uint32, s: seq<byte>, i: nat)
    requires i + 4 <= |s| && s[i..i + 4] == LE(v, 4)
    ensures U32(s[i..i + 4]) == v
  {
    hide LE, UnLE;
    Widths();
    ReadWritten(v, 4);
    SmallMod(v, 0x1_0000_0000);
  }

  lemma Field8(v: uint64, s: seq<byte>, i: nat)
    requires i + 8 <= |s| && s[i..i + 8] == LE(v, 8)
    ensures U64(s[i..i + 8]) == v
  {
    hide LE, UnLE;
    Widths();
    ReadWritten(v, 8);
    SmallMod(v, 0x1_0000_0000_0000_0000);
  }

  /** A message with the standard header, as the server writes its Requests and Results. */
  function StandardMessage(emsg: EMsg, target: uint64, source: uint64, body: seq<byte>): (s: seq<byte>)
    requires HasStandardHeader(emsg)
    ensures |s| == 20 + |body|
  {
    LE(emsg, 4) + (LE(target, 8) + LE(source, 8) + body)
  }

  lemma StandardParses(codec: Codec, emsg: EMsg, target: uint64, source: uint64, body: seq<byte>)
    requires HasStandardHeader(emsg)
    ensures ParseMessage(codec, StandardMessage(emsg, target, source, body))
         == Ok((Messages.Header(emsg, None, target, source, 0, 0), body))
  {
    hide LE, UnLE, And, RawEMsg, U64;
    var s := LE(target, 8) + LE(source, 8) + body;
    EMsgField(emsg, s);
    RawWithoutFlag(emsg);
    assert s[0..8] == LE(target, 8) && s[8..16] == LE(source, 8) && s[16..] == body;
    Field8(target, s, 0);
    Field8(source, s, 8);
    assert s[..8] == s[0..8];
  }

  /** The response to a Request carries the job ids of the Request, the encrypted key with its checksum, and the
      nonce. */
  lemma ResponseReadable(codec: Codec, request: Messages.Header, encrypted: Encrypted, nonce: seq<byte>)
    ensures ParseKeyResponse(HeaderBytes(codec, ResponseHeader(request)) + Response(codec, encrypted, nonce))
         == Some(KeyResponse(request.targetJobID, request.sourceJobID, encrypted, codec.crc32(encrypted), nonce))
  {
    hide LE, U32, U64;
    var t, q, n := request.targetJobID, request.sourceJobID, |encrypted|;
    var crc := codec.crc32(encrypted);
    var s := CutResponse(LE(EMSG_CHANNEL_ENCRYPT_RESPONSE, 4), LE(t, 8), LE(q, 8), LE(1, 4), LE(n, 4), encrypted,
                         LE(crc, 4), nonce);
    assert HeaderBytes(codec, ResponseHeader(request)) + Response(codec, encrypted, nonce) == s;
    Field4(EMSG_CHANNEL_ENCRYPT_RESPONSE, s, 0);
    Field8(t, s, 4);
    Field8(q, s, 12);
    Field4(1, s, 20);
    Field4(n, s, 24);
    Field4(crc, s, 28 + n);
  }

  /** Where the fields of a response lie. */
  lemma CutResponse(emsg: seq<byte>, target: seq<byte>, source: seq<byte>, protocol: seq<byte>, length: seq<byte>,
                    encrypted: seq<byte>, checksum: seq<byte>, nonce: seq<byte>)
    returns (s: seq<byte>)
    requires |emsg| == 4 && |target| == 8 && |source| == 8 && |protocol| == 4 && |length| == 4 && |checksum| == 4
    ensures s == emsg + target + source + (protocol + length + encrypted + checksum + nonce)
    ensures |s| == 32 + |encrypted| + |nonce| && s[0..4] == s[..4] == emsg
    ensures s[4..12] == target && s[12..20] == source && s[20..24] == protocol && s[24..28] == length
    ensures var n := |encrypted|;
            s[28..28 + n] == encrypted && s[28 + n..32 + n] == checksum && s[32 + n..] == nonce
  {
    s := emsg + target + source + (protocol + length + encrypted + checksum + nonce);
  }

  /** When a Request is accepted: protocol and universe are 1, there is a nonce, a key is generated, and the
      connection, whose key if any is a proper one, still takes packets. */
  lemma RequestSucceedsIff(env: Env, st: Client, header: Messages.Header, body: seq<byte>)
    requires |st.link.key| == 0 || |st.link.key| == 32
    ensures EncryptRequest(env, st, header, body).error.None? <==>
            && |body| > 8 && U32(body[..4]) == 1 && U32(body[4..8]) == 1
            && env.keys(st.draws).Some? && st.link.state != Disconnecting
  {
    hide LE, U32, Wire, NonceOf;
    if env.keys(st.draws).Some? && |body| > 8 {
      var response := Response(env.codec, env.keys(st.draws).value.1, NonceOf(body[8..]));
      WireAccepts(env.suite, st.link.key, HeaderBytes(env.codec, ResponseHeader(header)) + response,
                  env.nonces(st.draws + 1));
    }
  }

  /** A successful Request leaves the new key pending, the old one in force, and exactly one packet sent: the
      response, under the key in force, with the Request's own nonce and job ids. */
  lemma RequestAnswered(env: Env, st: Client, header: Messages.Header, body: seq<byte>)
    requires EncryptRequest(env, st, header, body).error.None?
    ensures env.keys(st.draws).Some?
    ensures var end := EncryptRequest(env, st, header, body).st;
            var (plain, encrypted) := env.keys(st.draws).value;
            && |body| > 8 && end.pending == plain && end.link == st.link
            && |end.log| == |st.log| + 2 && end.log[..|st.log|] == st.log
            && end.log[|st.log|] == Offered(plain)
            && end.log[|st.log| + 1].Sent? && end.log[|st.log| + 1].key == st.link.key
            && ParseKeyResponse(end.log[|st.log| + 1].payload)
               == Some(KeyResponse(header.targetJobID, header.sourceJobID, encrypted, env.codec.crc32(encrypted),
                                   NonceOf(body[8..])))
  {
    hide HeaderBytes, Response, ParseKeyResponse, Wire, NonceOf;
    var (plain, encrypted) := env.keys(st.draws).value;
    ResponseReadable(env.codec, header, encrypted, NonceOf(body[8..]));
  }

  /** When a logon succeeds: the response decodes, says 1 and carries a positive interval, and the connection, whose
      key if any is a proper one, still takes packets. */
  lemma LogOnSucceedsIff(env: Env, st: Client, header: Messages.Header, body: seq<byte>)
    requires |st.link.key| == 0 || |st.link.key| == 32
    ensures LogOnResponse(env, st, header, body).error.None? <==>
            var response := env.codec.unmarshalLogon(body);
            && response.Some? && response.value.eresult == 1
            && response.value.heartbeatSeconds.Some? && response.value.heartbeatSeconds.value > 0
            && st.link.state != Disconnecting
  {
    hide LE, Wire;
    var proto := GetOr(header.proto, UNSET);
    var request := ItemRequest(GetOr(proto.steamid, 0), GetOr(proto.clientSessionid, 0));
    WireAccepts(env.suite, st.link.key, HeaderBytes(env.codec, request) + [], env.nonces(st.draws));
  }

  lemma WireAccepts(suite: Suite, key: seq<byte>, data: seq<byte>, random: Nonce)
    requires data != [] && (|key| == 0 || |key| == 32)
    ensures Wire(suite, key, data, random).Ok?
  {
    PacketDelivered(suite, key, data, random, []);
  }

  /** The server can ask for an interval that is not positive, such as 0: then the ticker panics. */
  lemma LogOnWithoutTicks(env: Env, st: Client, header: Messages.Header, body: seq<byte>)
    requires env.codec.unmarshalLogon(body).Some? && env.codec.unmarshalLogon(body).value == Logon(1, Some(0))
    ensures LogOnResponse(env, st, header, body) == Step(st, Some(TickerPanic(0)))
  {
  }

  /** A successful logon stores the account and session of the response's header, starts the heartbeat, and sends one
      request whose header carries that account and session. */
  lemma LogOnAnswered(env: Env, st: Client, header: Messages.Header, body: seq<byte>)
    requires LogOnResponse(env, st, header, body).error.None?
    requires |env.codec.marshalHeader(LogOnHeader(header))| < 0x1_0000_0000
    ensures var end := LogOnResponse(env, st, header, body).st;
            var proto := GetOr(header.proto, UNSET);
            && end.steamID == GetOr(proto.steamid, 0) && end.sessionID == GetOr(proto.clientSessionid, 0)
            && end.link == st.link && end.pending == st.pending
            && |end.log| == |st.log| + 3 && end.log[..|st.log|] == st.log
            && env.codec.unmarshalLogon(body).Some? && env.codec.unmarshalLogon(body).value.heartbeatSeconds.Some?
            && end.log[|st.log|] == HeartbeatStarted(env.codec.unmarshalLogon(body).value.heartbeatSeconds.value)
            && env.codec.unmarshalLogon(body).value.heartbeatSeconds.value > 0
            && end.log[|st.log| + 1] == LoggedOn(end.steamID, end.sessionID)
            && end.log[|st.log| + 2].Sent? && end.log[|st.log| + 2].key == st.link.key
            && ParseMessage(env.codec, end.log[|st.log| + 2].payload)
               == Ok((Header(EMSG_CLIENT_REQUEST_ITEM_ANNOUNCEMENTS, Some(LogOnHeader(header)), JOBID_NONE, JOBID_NONE,
                             end.steamID, end.sessionID), []))
  {
    hide HeaderBytes, ParseMessage, Wire;
    var proto := GetOr(header.proto, UNSET);
    var request := ItemRequest(GetOr(proto.steamid, 0), GetOr(proto.clientSessionid, 0));
    ProtobufRoundTrip(env.codec, request, []);
    EmptyHeaderIff(env.codec, request.emsg, request.proto.value);
    SmallMod(ToUnsigned(request.emsg), PROTO_MASK);
  }

  function LogOnHeader(header: Messages.Header): ProtoHeader {
    var proto := GetOr(header.proto, UNSET);
    ProtoHeader(Some(GetOr(proto.steamid, 0)), Some(GetOr(proto.clientSessionid, 0)), None, None, [])
  }
}
