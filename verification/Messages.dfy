/** The three header layouts of a message: how they are written and read (protocol/write.go, protocol/read.go). */
module Messages {
  import opened Integers
  import opened Words
  import opened Wrappers
  import opened Bytes
  import opened Codec

  const PROTO_MASK := 0x8000_0000
  const TWO40 := 0x100_0000_0000

  type EMsg = int32

  const EMSG_MULTI: EMsg := 1
  const EMSG_CLIENT_LOG_ON_RESPONSE: EMsg := 751
  const EMSG_CHANNEL_ENCRYPT_REQUEST: EMsg := 1303
  const EMSG_CHANNEL_ENCRYPT_RESPONSE: EMsg := 1304
  const EMSG_CHANNEL_ENCRYPT_RESULT: EMsg := 1305
  const EMSG_CLIENT_REQUEST_ITEM_ANNOUNCEMENTS: EMsg := 5577
  const EMSG_CLIENT_ITEM_ANNOUNCEMENTS: EMsg := 5576
  const EMSG_CLIENT_USER_NOTIFICATIONS: EMsg := 5599
  const EMSG_SERVICE_METHOD_CALL_FROM_CLIENT_NON_AUTHED: EMsg := 9804
  const EMSG_CLIENT_HELLO: EMsg := 9805

  datatype Header = Header(
    emsg: EMsg,
    proto: Option<ProtoHeader>,
    targetJobID: uint64,
    sourceJobID: uint64,
    steamID: uint64,
    sessionID: int32)

  datatype MessageError = Truncated | BadProtobuf | UnsupportedHeaderSize(size: nat)

  type Parsed = Result<(Header, seq<byte>), MessageError>

  // ---- conversions between signed and unsigned 32-bit integers, and the protobuf flag ----

  function ToUnsigned(i: int32): uint32 {
    if i >= 0 then i else i + TWO32
  }

  function ToSigned(u: uint32): int32 {
    if u < PROTO_MASK then u else u - TWO32
  }

  lemma FlagBit(u: uint32)
    ensures And(u, PROTO_MASK) != 0 <==> u >= PROTO_MASK
    ensures And(u, PROTO_MASK - 1) == u % PROTO_MASK
    ensures Or(u, PROTO_MASK) == u % PROTO_MASK + PROTO_MASK
  {
    Pow31();
    var hi, lo := u / PROTO_MASK, u % PROTO_MASK;
    AndSplit(31, u, PROTO_MASK, hi, lo, 1, 0);
    OrSplit(31, u, PROTO_MASK, hi, lo, 1, 0);
    AndMask(u, 31);
    AndZero(lo);
    OrZero(lo);
    assert And(0, 1) == 0 && And(1, 1) == 1 && Or(0, 1) == 1 && Or(1, 1) == 1;
  }

  lemma Pow31()
    ensures Pow(2, 31) == PROTO_MASK
  {
    assert Pow(2, 8) == 256;
    assert Pow(2, 7) == 128;
    PowAdd(2, 8, 8);
    PowAdd(2, 16, 8);
    PowAdd(2, 24, 7);
  }

  // ---- writing ----

  /** The two EMsgs whose protobuf header goes out without defaults. */
  predicate KeepsHeader(emsg: EMsg) {
    emsg == EMSG_CLIENT_HELLO || emsg == EMSG_SERVICE_METHOD_CALL_FROM_CLIENT_NON_AUTHED
  }

  function Defaulted(emsg: EMsg, proto: ProtoHeader): ProtoHeader {
    if KeepsHeader(emsg) then proto
    else proto.(clientSessionid := Some(GetOr(proto.clientSessionid, 0)), steamid := Some(GetOr(proto.steamid, 0)))
  }

  function HeaderBytes(codec: Codec, h: Header): seq<byte> {
    if h.emsg == EMSG_CHANNEL_ENCRYPT_RESPONSE then
      LE(ToUnsigned(h.emsg), 4) + LE(h.targetJobID, 8) + LE(h.sourceJobID, 8)
    else if h.proto.Some? then
      var b := codec.marshalHeader(Defaulted(h.emsg, h.proto.value));
      LE(Or(ToUnsigned(h.emsg), PROTO_MASK), 4) + LE(|b|, 4) + b
    else
      LE(ToUnsigned(h.emsg), 4) + LE(36, 4) + LE(2, 2) + LE(h.targetJobID, 8) + LE(h.sourceJobID, 8) + LE(239, 1)
      + LE(h.steamID, 8) + LE(ToUnsigned(h.sessionID), 4)
  }

  // ---- reading ----

  function ParseProtobufHeader(codec: Codec, emsg: EMsg, s: seq<byte>): Parsed {
    if |s| < 4 then Err(Truncated)
    else
      var headerLength := UnLE(s[..4]);
      var rest := s[4..];
      // A read at the end of the input fails even when no bytes are asked for.
      if rest == [] || |rest| < headerLength then Err(Truncated)
      else
        match codec.unmarshalHeader(rest[..headerLength])
        case None => Err(BadProtobuf)
        case Some(p) => Ok((FromProto(emsg, p), rest[headerLength..]))
  }

  function FromProto(emsg: EMsg, p: ProtoHeader): Header {
    Header(emsg, Some(p), GetOr(p.jobidTarget, JOBID_NONE), GetOr(p.jobidSource, JOBID_NONE),
           GetOr(p.steamid, 0), GetOr(p.clientSessionid, 0))
  }

  function U64(s: seq<byte>): uint64
    requires |s| == 8
  {
    Widths();
    WriteRead(s);
    UnLE(s)
  }

  function U32(s: seq<byte>): uint32
    requires |s| == 4
  {
    Widths();
    WriteRead(s);
    UnLE(s)
  }

  function ParseStandardHeader(emsg: EMsg, s: seq<byte>): Parsed {
    if |s| < 16 then Err(Truncated)
    else Ok((Header(emsg, None, U64(s[..8]), U64(s[8..16]), 0, 0), s[16..]))
  }

  function ParseExtendedHeader(emsg: EMsg, s: seq<byte>): Parsed {
    if |s| < 3 then Err(Truncated) // a size byte and two bytes of version
    else if s[0] == 0 then Ok((Header(emsg, None, 0, 0, 0, 0), s[3..]))
    else if s[0] == 20 then
      if |s| < 21 then Err(Truncated)
      else Ok((Header(emsg, None, U64(s[3..11]), U64(s[11..19]), 0, 0), s[21..]))
    else if s[0] == 36 then
      if |s| < 35 then Err(Truncated)
      else Ok((Header(emsg, None, U64(s[3..11]), U64(s[11..19]), U64(s[20..28]), ToSigned(U32(s[28..32]))), s[35..]))
    else Err(UnsupportedHeaderSize(s[0]))
  }

  predicate HasStandardHeader(emsg: EMsg) {
    emsg == EMSG_CHANNEL_ENCRYPT_REQUEST || emsg == EMSG_CHANNEL_ENCRYPT_RESULT
  }

  function RawEMsg(raw: uint32): EMsg {
    FlagBit(raw);
    And(raw, PROTO_MASK - 1)
  }

  function ParseMessage(codec: Codec, data: seq<byte>): Parsed {
    if |data| < 4 then Err(Truncated)
    else
      var raw := U32(data[..4]);
      var emsg := RawEMsg(raw);
      if And(raw, PROTO_MASK) != 0 then ParseProtobufHeader(codec, emsg, data[4..])
      else if HasStandardHeader(emsg) then ParseStandardHeader(emsg, data[4..])
      else ParseExtendedHeader(emsg, data[4..])
  }

  /** Parsing consumes at least the four bytes of the EMsg. */
  lemma ParseShrinks(codec: Codec, data: seq<byte>)
    requires ParseMessage(codec, data).Ok?
    ensures |ParseMessage(codec, data).value.1| + 4 <= |data|
  {
    hide And, UnLE;
  }

  // ---- protobuf headers ----

  lemma EMsgField(v: uint32, rest: seq<byte>)
    ensures (LE(v, 4) + rest)[..4] == LE(v, 4) && (LE(v, 4) + rest)[4..] == rest
    ensures U32((LE(v, 4) + rest)[..4]) == v
  {
    hide LE, UnLE;
    Widths();
    ReadWritten(v, 4);
    SmallMod(v, TWO32);
    assert (LE(v, 4) + rest)[..4] == LE(v, 4);
  }

  lemma RawWithoutFlag(emsg: EMsg)
    requires emsg >= 0
    ensures RawEMsg(ToUnsigned(emsg)) == emsg && And(ToUnsigned(emsg), PROTO_MASK) == 0
  {
    hide And;
    FlagBit(emsg);
    SmallMod(emsg, PROTO_MASK);
  }

  lemma RawWithFlag(emsg: EMsg)
    ensures 0 <= Or(ToUnsigned(emsg), PROTO_MASK) < TWO32
    ensures And(Or(ToUnsigned(emsg), PROTO_MASK), PROTO_MASK) != 0
    ensures RawEMsg(Or(ToUnsigned(emsg), PROTO_MASK)) == ToUnsigned(emsg) % PROTO_MASK
  {
    hide And, Or;
    FlagBit(ToUnsigned(emsg));
    var lo := ToUnsigned(emsg) % PROTO_MASK;
    FlagBit(lo + PROTO_MASK);
    DivModUnique(lo + PROTO_MASK, PROTO_MASK, 1, lo);
  }

  /** The header that a reader of h's bytes gets. The sign bit of the EMsg is lost to the flag. */
  function ReadBack(h: Header): Header
    requires h.proto.Some?
  {
    FromProto(ToUnsigned(h.emsg) % PROTO_MASK, Defaulted(h.emsg, h.proto.value))
  }

  /** Reading what Write produced for a protobuf header gives the header with its defaults and the body, unless
      both the encoded header and the body are empty: then the reader meets the end of its input.
      (Protobuf encodings are shorter than 2 GiB; the length field holds 32 bits.) */
  lemma ProtobufRoundTrip(codec: Codec, h: Header, body: seq<byte>)
    requires h.proto.Some? && h.emsg != EMSG_CHANNEL_ENCRYPT_RESPONSE
    requires |codec.marshalHeader(Defaulted(h.emsg, h.proto.value))| < TWO32
    ensures ParseMessage(codec, HeaderBytes(codec, h) + body)
         == if codec.marshalHeader(Defaulted(h.emsg, h.proto.value)) == [] && body == [] then Err(Truncated)
            else Ok((ReadBack(h), body))
    ensures ReadBack(h).emsg == h.emsg <==> h.emsg >= 0
    ensures var p, r := h.proto.value, ReadBack(h);
            && r.proto == Some(Defaulted(h.emsg, p))
            && r.targetJobID == (if p.jobidTarget.Some? then p.jobidTarget.value else 0xFFFF_FFFF_FFFF_FFFF)
            && r.sourceJobID == (if p.jobidSource.Some? then p.jobidSource.value else 0xFFFF_FFFF_FFFF_FFFF)
            && r.steamID == (if p.steamid.Some? then p.steamid.value else 0)
            && r.sessionID == (if p.clientSessionid.Some? then p.clientSessionid.value else 0)
  {
    hide And, Or, LE, UnLE, RawEMsg;
    var p := Defaulted(h.emsg, h.proto.value);
    var b := codec.marshalHeader(p);
    var v := Or(ToUnsigned(h.emsg), PROTO_MASK);
    RawWithFlag(h.emsg);
    var rest := LE(|b|, 4) + (b + body);
    assert HeaderBytes(codec, h) + body == LE(v, 4) + rest;
    EMsgField(v, rest);
    EMsgField(|b|, b + body);
    assert (b + body)[..|b|] == b && (b + body)[|b|..] == body;
    HeaderInverse(codec, p);
  }

  /** Defaulting leaves no empty protobuf header, except an unset one under the two EMsgs that skip it. */
  lemma EmptyHeaderIff(codec: Codec, emsg: EMsg, proto: ProtoHeader)
    ensures codec.marshalHeader(Defaulted(emsg, proto)) == [] <==> KeepsHeader(emsg) && proto == UNSET
  {
    HeaderInverse(codec, Defaulted(emsg, proto));
  }

  // ---- extended headers ----

  /** The fields the reader finds in an extended header, which are not those that were written: the size field has
      four bytes when written and one when read, so every later field is read three bytes early. */
  function ReadShifted(h: Header): Header {
    var t, s, i, n := h.targetJobID, h.sourceJobID, h.steamID, ToUnsigned(h.sessionID);
    Header(h.emsg, None,
           512 + t % TWO40 * 0x100_0000,
           t / TWO40 + s % TWO40 * 0x100_0000,
           s / 0x1_0000_0000_0000 + 239 * 0x1_0000 + i % TWO40 * 0x100_0000,
           ToSigned(i / TWO40 + n % 0x100 * 0x100_0000))
  }

  /** The last three bytes of a word followed by the first five of the next. */
  lemma Straddle(t: uint64, s: uint64)
    ensures UnLE(LE(t / TWO40, 3) + LE(s, 5)) == t / TWO40 + s % TWO40 * 0x100_0000
  {
    hide LE, UnLE;
    Widths();
    UnLEConcat(LE(t / TWO40, 3), LE(s, 5));
    ReadWritten(t / TWO40, 3);
    ReadWritten(s, 5);
    assert Pow(256, 3) == 0x100_0000 by { PowAdd(256, 1, 2); }
    SmallMod(t / TWO40, 0x100_0000);
  }

  lemma HeadBytes()
    ensures LE(36, 4) == [36, 0, 0] + [0] && LE(2, 2) == [2, 0] && LE(239, 1) == [239]
  {
    assert LE(0, 1) == [0] + LE(0, 0);
    assert LE(0, 2) == [0] + LE(0, 1);
    assert LE(0, 3) == [0] + LE(0, 2);
  }

  /** The same bytes grouped by written field and by read field. */
  lemma Regroup(size: seq<byte>, zero: seq<byte>, two: seq<byte>, t: seq<byte>, t': seq<byte>, q: seq<byte>,
                q5: seq<byte>, q6: seq<byte>, canary: seq<byte>, i: seq<byte>, i': seq<byte>, n: seq<byte>,
                n': seq<byte>, body: seq<byte>)
    returns (s: seq<byte>)
    requires |size| == 3 && |zero| == 1 && |two| == 2 && |t| == 5 && |t'| == 3 && |q| == 5 && |q5| == 1 && |q6| == 2
    requires |canary| == 1 && |i| == 5 && |i'| == 3 && |n| == 1 && |n'| == 3
    ensures s == (size + zero) + two + (t + t') + (q + (q5 + q6)) + canary + (i + i') + (n + n') + body
    ensures |s| == 35 + |body| && s[..3] == size && s[35..] == body
    ensures s[3..11] == zero + two + t
    ensures s[11..19] == t' + q
    ensures s[20..28] == q6 + canary + i
    ensures s[28..32] == i' + n
  {
    s := (size + zero) + two + (t + t') + (q + (q5 + q6)) + canary + (i + i') + (n + n') + body;
  }

  /** The written bytes, cut where the reader cuts them. */
  lemma ExtendedCut(codec: Codec, h: Header, body: seq<byte>) returns (s: seq<byte>)
    requires h.proto.None? && h.emsg != EMSG_CHANNEL_ENCRYPT_RESPONSE
    ensures HeaderBytes(codec, h) + body == LE(ToUnsigned(h.emsg), 4) + s
    ensures |s| == 35 + |body| && s[..3] == [36, 0, 0] && s[35..] == body
    ensures s[3..11] == [0, 2, 0] + LE(h.targetJobID, 5)
    ensures s[11..19] == LE(h.targetJobID / TWO40, 3) + LE(h.sourceJobID, 5)
    ensures s[20..28] == LE(h.sourceJobID / 0x1_0000_0000_0000, 2) + [239] + LE(h.steamID, 5)
    ensures s[28..32] == LE(h.steamID / TWO40, 3) + LE(ToUnsigned(h.sessionID), 1)
  {
    hide LE;
    Widths();
    HeadBytes();
    var t, q, i, n := h.targetJobID, h.sourceJobID, h.steamID, ToUnsigned(h.sessionID);
    LESplit(t, 5, 8);
    LESplit(q, 5, 8);
    LESplit(q / TWO40, 1, 3);
    DivDiv(q, TWO40, 0x100);
    LESplit(i, 5, 8);
    LESplit(n, 1, 4);
    s := Regroup([36, 0, 0], [0], [2, 0], LE(t, 5), LE(t / TWO40, 3), LE(q, 5), LE(q / TWO40, 1),
                 LE(q / 0x1_0000_0000_0000, 2), [239], LE(i, 5), LE(i / TWO40, 3), LE(n, 1), LE(n / 0x100, 3), body);
    assert HeaderBytes(codec, h) + body == LE(ToUnsigned(h.emsg), 4) + s;
  }

  /** For EMsgs on the extended path the writer and the reader agree on the span of the header: EMsg and body are
      recovered for every header, and the ids in between are the shifted ones. */
  lemma ExtendedBoundary(codec: Codec, h: Header, body: seq<byte>)
    requires h.proto.None? && h.emsg >= 0
    requires h.emsg != EMSG_CHANNEL_ENCRYPT_RESPONSE && !HasStandardHeader(h.emsg)
    ensures ParseMessage(codec, HeaderBytes(codec, h) + body) == Ok((ReadShifted(h), body))
  {
    hide And, LE, UnLE, RawEMsg;
    var s := ExtendedCut(codec, h, body);
    EMsgField(ToUnsigned(h.emsg), s);
    RawWithoutFlag(h.emsg);
    assert s[0] == s[..3][0] == 36;
    ShiftedFields(h);
  }

  /** The Requests and Results of the handshake are never written by the client. Written without a protobuf header
      they take the extended layout, which their reader takes for the standard one: the ids are wrong, and 19 bytes of
      the header come back in front of the body. */
  lemma StandardMisread(codec: Codec, h: Header, body: seq<byte>)
    requires h.proto.None? && HasStandardHeader(h.emsg)
    ensures var t, q := h.targetJobID, h.sourceJobID;
            ParseMessage(codec, HeaderBytes(codec, h) + body)
            == Ok((Header(h.emsg, None, 36 + 2 * TWO32 + t % 0x1_0000 * 0x1_0000_0000_0000,
                          t / 0x1_0000 + q % 0x1_0000 * 0x1_0000_0000_0000, 0, 0),
                   LE(q / 0x1_0000, 6) + [239] + LE(h.steamID, 8) + LE(ToUnsigned(h.sessionID), 4) + body))
  {
    hide And, LE, UnLE, RawEMsg;
    var t, q := h.targetJobID, h.sourceJobID;
    LESplit(t, 2, 8);
    LESplit(q, 2, 8);
    Widths();
    HeadBytes();
    var left := LE(q / 0x1_0000, 6) + [239] + LE(h.steamID, 8) + LE(ToUnsigned(h.sessionID), 4) + body;
    var s := LE(36, 4) + LE(2, 2) + LE(t, 2) + (LE(t / 0x1_0000, 6) + LE(q, 2)) + left;
    assert HeaderBytes(codec, h) + body == LE(ToUnsigned(h.emsg), 4) + s;
    assert s[..8] == LE(36, 4) + LE(2, 2) + LE(t, 2) && s[8..16] == LE(t / 0x1_0000, 6) + LE(q, 2) && s[16..] == left;
    EMsgField(ToUnsigned(h.emsg), s);
    RawWithoutFlag(h.emsg);
    MisreadFields(t, q);
  }

  /** A negative EMsg without a protobuf header, which the enumeration lacks, has the flag set: it is read as another
      EMsg with a protobuf header of 36 bytes, five of which come from the body. */
  lemma NegativeMisread(codec: Codec, h: Header, body: seq<byte>)
    requires h.proto.None? && h.emsg < 0
    ensures |body| < 5 ==> ParseMessage(codec, HeaderBytes(codec, h) + body) == Err(Truncated)
    ensures var r := ParseMessage(codec, HeaderBytes(codec, h) + body);
            r.Ok? ==> r.value.0.emsg == h.emsg + PROTO_MASK && r.value.0.proto.Some? && r.value.1 == body[5..]
  {
    hide And, LE, UnLE, RawEMsg;
    var left := LE(2, 2) + LE(h.targetJobID, 8) + LE(h.sourceJobID, 8) + LE(239, 1) + LE(h.steamID, 8)
                + LE(ToUnsigned(h.sessionID), 4);
    var s := LE(36, 4) + (left + body);
    assert HeaderBytes(codec, h) + body == LE(ToUnsigned(h.emsg), 4) + s;
    EMsgField(ToUnsigned(h.emsg), s);
    EMsgField(36, left + body);
    FlagBit(ToUnsigned(h.emsg));
    DivModUnique(ToUnsigned(h.emsg), PROTO_MASK, 1, h.emsg + PROTO_MASK);
    EMsgOf(ToUnsigned(h.emsg));
    assert |left| == 31;
    assert |body| >= 5 ==> (left + body)[36..] == body[5..];
  }

  lemma EMsgOf(raw: uint32)
    ensures RawEMsg(raw) == raw % PROTO_MASK
  {
    hide And;
    FlagBit(raw);
  }

  lemma MisreadFields(t: uint64, q: uint64)
    ensures UnLE(LE(36, 4) + LE(2, 2) + LE(t, 2)) == 36 + 2 * TWO32 + t % 0x1_0000 * 0x1_0000_0000_0000
    ensures UnLE(LE(t / 0x1_0000, 6) + LE(q, 2)) == t / 0x1_0000 + q % 0x1_0000 * 0x1_0000_0000_0000
  {
    hide LE, UnLE;
    Widths();
    PowAdd(256, 4, 2);
    UnLEConcat(LE(36, 4) + LE(2, 2), LE(t, 2));
    UnLEConcat(LE(36, 4), LE(2, 2));
    UnLEConcat(LE(t / 0x1_0000, 6), LE(q, 2));
    ReadWritten(36, 4);
    ReadWritten(2, 2);
    ReadWritten(t, 2);
    ReadWritten(q, 2);
    ReadWritten(t / 0x1_0000, 6);
    SmallMod(t / 0x1_0000, 0x1_0000_0000_0000);
  }

  lemma ShiftedFields(h: Header)
    ensures UnLE([0, 2, 0] + LE(h.targetJobID, 5)) == ReadShifted(h).targetJobID
    ensures UnLE(LE(h.targetJobID / TWO40, 3) + LE(h.sourceJobID, 5)) == ReadShifted(h).sourceJobID
    ensures UnLE(LE(h.sourceJobID / 0x1_0000_0000_0000, 2) + [239] + LE(h.steamID, 5)) == ReadShifted(h).steamID
    ensures 0 <= UnLE(LE(h.steamID / TWO40, 3) + LE(ToUnsigned(h.sessionID), 1)) < TWO32
    ensures ToSigned(UnLE(LE(h.steamID / TWO40, 3) + LE(ToUnsigned(h.sessionID), 1))) == ReadShifted(h).sessionID
  {
    hide LE, UnLE;
    Widths();
    var t, s, i, n := h.targetJobID, h.sourceJobID, h.steamID, ToUnsigned(h.sessionID);
    ThreeBytes();
    UnLEConcat([0, 2, 0], LE(t, 5));
    ReadWritten(t, 5);
    Straddle(t, s);
    var high := s / 0x1_0000_0000_0000;
    UnLEConcat(LE(high, 2) + [239], LE(i, 5));
    UnLEConcat(LE(high, 2), [239]);
    ReadWritten(high, 2);
    SmallMod(high, 0x1_0000);
    ReadWritten(i, 5);
    UnLEConcat(LE(i / TWO40, 3), LE(n, 1));
    ReadWritten(i / TWO40, 3);
    SmallMod(i / TWO40, 0x100_0000);
    ReadWritten(n, 1);
  }

  lemma ThreeBytes()
    ensures UnLE([0, 2, 0]) == 512 && UnLE([239]) == 239 && Pow(256, 3) == 0x100_0000
  {
    assert [0, 2, 0][1..] == [2, 0] && [2, 0][1..] == [0] && [0][1..] == [] && [239][1..] == [];
    assert UnLE([0]) == 0 && UnLE([2, 0]) == 2;
    Widths();
    PowAdd(256, 1, 2);
  }

  // The only ids that the shift leaves alone.
  const FIXED_TARGET: uint64 := 0x0200_0002_0000_0200
  const FIXED_SOURCE: uint64 := 0x0000_0200_0002_0000
  const FIXED_STEAM_ID: uint64 := 0x0000_EF00_00EF_0000
  const FIXED_SESSION: uint32 := 0xEF00_00EF

  /** A number whose low 40 bits reappear 24 bits up is determined by its low 24 bits. */
  lemma ShiftFixed(x: nat, c: nat)
    requires c < 0x100_0000 && x == c + x % TWO40 * 0x100_0000
    ensures x == c + 0x100_0000 * (c + 0x100_0000 * (c % 0x1_0000))
  {
    var u := x % TWO40;
    DivModUnique(x, 0x100_0000, u, c);
    DivDiv(x, 0x100_0000, 0x1_0000);
    var w := u % 0x1_0000;
    assert u == c + 0x100_0000 * w;
    DivModUnique(u, 0x1_0000, c / 0x1_0000 + 0x100 * w, c % 0x1_0000);
  }

  /** An extended header comes back as it was written exactly for one set of ids: every other header loses some. */
  lemma ExtendedRoundTripIff(h: Header)
    requires h.proto.None?
    ensures ReadShifted(h) == h <==>
            && h.targetJobID == FIXED_TARGET && h.sourceJobID == FIXED_SOURCE
            && h.steamID == FIXED_STEAM_ID && ToUnsigned(h.sessionID) == FIXED_SESSION
  {
    var n := ToUnsigned(h.sessionID);
    if ReadShifted(h) == h {
      ShiftFixed(h.targetJobID, 512);
      assert h.targetJobID / TWO40 == 0x2_0000;
      ShiftFixed(h.sourceJobID, 0x2_0000);
      assert h.sourceJobID / 0x1_0000_0000_0000 == 0;
      ShiftFixed(h.steamID, 0xEF_0000);
      assert h.steamID / TWO40 == 0xEF;
      assert n == 0xEF + n % 0x100 * 0x100_0000;
      DivModUnique(n, 0x100, n % 0x100 * 0x1_0000, 0xEF);
    }
  }

  /** For instance, a header without job ids is read back with the target job id 512. */
  lemma ExtendedLosesIds(emsg: EMsg)
    ensures ReadShifted(Header(emsg, None, 0, 0, 0, 0)).targetJobID == 512
  {
  }
}
