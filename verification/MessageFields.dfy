/** Every field of a header that is written or read, each on its own (protocol/write.go, protocol/read.go). */
module MessageFields {
  import opened Integers
  import opened Words
  import opened Wrappers
  import opened Bytes
  import opened Codec
  import opened Messages

  const NO_JOB: uint64 := 0xFFFF_FFFF_FFFF_FFFF

  /** The conversions between signed and unsigned keep the number modulo 2^32. */
  lemma SignedWraps(i: int32, u: uint32)
    ensures ToUnsigned(i) % TWO32 == i % TWO32
    ensures ToSigned(u) % TWO32 == u % TWO32
  {
  }

  // ---- reading ----

  /** The fields that a protobuf header sets: the job ids, the account and the session of the decoded header, each with
      the default of its own. */
  ghost predicate FieldsFrom(h: Header, p: ProtoHeader) {
    && h.proto == Some(p)
    && (if p.jobidTarget.Some? then h.targetJobID == p.jobidTarget.value else h.targetJobID == NO_JOB)
    && (if p.jobidSource.Some? then h.sourceJobID == p.jobidSource.value else h.sourceJobID == NO_JOB)
    && (if p.steamid.Some? then h.steamID == p.steamid.value else h.steamID == 0)
    && (if p.clientSessionid.Some? then h.sessionID == p.clientSessionid.value else h.sessionID == 0)
  }

  /** What is read from a message whose flag is set: EMsg, length and encoded header lie where the layout says. */
  lemma ProtobufFields(codec: Codec, data: seq<byte>)
    requires |data| >= 4 && UnLE(data[..4]) >= 0x8000_0000
    ensures var r := ParseMessage(codec, data);
            if |data| <= 8 || |data| - 8 < UnLE(data[4..8]) then r == Err(Truncated)
            else
              var n := UnLE(data[4..8]);
              var decoded := codec.unmarshalHeader(data[8..8 + n]);
              if decoded.None? then r == Err(BadProtobuf)
              else
                && r.Ok? && r.value.1 == data[8 + n..]
                && r.value.0.emsg == UnLE(data[..4]) - 0x8000_0000
                && FieldsFrom(r.value.0, decoded.value)
  {
    hide UnLE, And, RawEMsg;
    var raw := U32(data[..4]);
    FlagBit(raw);
    EMsgOf(raw);
    DivModUnique(raw, PROTO_MASK, 1, raw - PROTO_MASK);
    if |data| >= 8 {
      assert data[4..][..4] == data[4..8] && data[4..][4..] == data[8..];
      var n := UnLE(data[4..8]);
      if |data| - 8 >= n {
        assert data[8..][..n] == data[8..8 + n] && data[8..][n..] == data[8 + n..];
      }
    }
  }

  /** What is read from a message whose flag is not set. */
  lemma UnflaggedFields(codec: Codec, data: seq<byte>)
    ensures |data| < 4 ==> ParseMessage(codec, data) == Err(Truncated)
    ensures |data| >= 4 && UnLE(data[..4]) < 0x8000_0000 ==>
              ParseMessage(codec, data)
              == if UnLE(data[..4]) == 1303 || UnLE(data[..4]) == 1305
                 then ParseStandardHeader(UnLE(data[..4]), data[4..])
                 else ParseExtendedHeader(UnLE(data[..4]), data[4..])
  {
    hide UnLE, And, RawEMsg, ParseStandardHeader, ParseExtendedHeader;
    if |data| >= 4 {
      var raw := U32(data[..4]);
      FlagBit(raw);
      EMsgOf(raw);
      if raw < PROTO_MASK {
        SmallMod(raw, PROTO_MASK);
      }
    }
  }

  lemma StandardFields(emsg: EMsg, target: uint64, source: uint64, body: seq<byte>, short: seq<byte>)
    ensures ParseStandardHeader(emsg, LE(target, 8) + LE(source, 8) + body)
         == Ok((Header(emsg, None, target, source, 0, 0), body))
    ensures |short| < 16 ==> ParseStandardHeader(emsg, short) == Err(Truncated)
  {
    hide LE, UnLE;
    var s := LE(target, 8) + LE(source, 8) + body;
    assert s[..8] == LE(target, 8) && s[8..16] == LE(source, 8) && s[16..] == body;
    Numbers8(target);
    Numbers8(source);
  }

  lemma Numbers8(v: uint64)
    ensures UnLE(LE(v, 8)) == v
  {
    hide LE, UnLE;
    Widths();
    ReadWritten(v, 8);
    SmallMod(v, 0x1_0000_0000_0000_0000);
  }

  lemma Numbers4(v: uint32)
    ensures UnLE(LE(v, 4)) == v
  {
    hide LE, UnLE;
    Widths();
    ReadWritten(v, 4);
    SmallMod(v, TWO32);
  }

  /** The extended layouts as a peer writes them, with a size of one byte. Size 0: a version and nothing else. */
  lemma ShortFields(emsg: EMsg, version: seq<byte>, body: seq<byte>)
    requires |version| == 2
    ensures ParseExtendedHeader(emsg, [0] + version + body) == Ok((Header(emsg, None, 0, 0, 0, 0), body))
  {
    var s := [0] + version + body;
    assert s[0] == 0 && s[3..] == body;
  }

  /** Size 20: version, job ids, a canary and a padding byte. */
  lemma MiddleFields(emsg: EMsg, version: seq<byte>, target: uint64, source: uint64, tail: seq<byte>, body: seq<byte>)
    requires |version| == 2 && |tail| == 2
    ensures ParseExtendedHeader(emsg, [20] + version + LE(target, 8) + LE(source, 8) + tail + body)
         == Ok((Header(emsg, None, target, source, 0, 0), body))
  {
    hide LE, UnLE;
    Numbers8(target);
    Numbers8(source);
    var s := CutMiddle(version, LE(target, 8), LE(source, 8), tail, body);
  }

  lemma CutMiddle(version: seq<byte>, target: seq<byte>, source: seq<byte>, tail: seq<byte>, body: seq<byte>)
    returns (s: seq<byte>)
    requires |version| == 2 && |target| == 8 && |source| == 8 && |tail| == 2
    ensures s == [20] + version + target + source + tail + body
    ensures |s| == 21 + |body| && s[0] == 20 && s[3..11] == target && s[11..19] == source && s[21..] == body
  {
    s := [20] + version + target + source + tail + body;
  }

  /** Size 36: version, job ids, a canary, account, session and three padding bytes. */
  lemma LongFields(emsg: EMsg, version: seq<byte>, target: uint64, source: uint64, canary: seq<byte>, steamID: uint64,
                   sessionID: int32, padding: seq<byte>, body: seq<byte>)
    requires |version| == 2 && |canary| == 1 && |padding| == 3
    ensures ParseExtendedHeader(emsg, [36] + version + LE(target, 8) + LE(source, 8) + canary + LE(steamID, 8)
                                      + LE(ToUnsigned(sessionID), 4) + padding + body)
         == Ok((Header(emsg, None, target, source, steamID, sessionID), body))
  {
    hide LE, UnLE;
    Numbers8(target);
    Numbers8(source);
    Numbers8(steamID);
    Numbers4(ToUnsigned(sessionID));
    var s := CutLong(version, LE(target, 8), LE(source, 8), canary, LE(steamID, 8), LE(ToUnsigned(sessionID), 4),
                     padding, body);
  }

  lemma CutLong(version: seq<byte>, target: seq<byte>, source: seq<byte>, canary: seq<byte>, steamID: seq<byte>,
                sessionID: seq<byte>, padding: seq<byte>, body: seq<byte>)
    returns (s: seq<byte>)
    requires |version| == 2 && |target| == 8 && |source| == 8 && |canary| == 1 && |steamID| == 8 && |sessionID| == 4
    requires |padding| == 3
    ensures s == [36] + version + target + source + canary + steamID + sessionID + padding + body
    ensures |s| == 35 + |body| && s[0] == 36 && s[3..11] == target && s[11..19] == source && s[20..28] == steamID
    ensures s[28..32] == sessionID && s[35..] == body
  {
    s := [36] + version + target + source + canary + steamID + sessionID + padding + body;
  }

  /** Which extended headers are refused, and why. */
  lemma ExtendedErrors(emsg: EMsg, s: seq<byte>)
    ensures ParseExtendedHeader(emsg, s) == Err(Truncated) <==>
            |s| < 3 || (s[0] == 20 && |s| < 21) || (s[0] == 36 && |s| < 35)
    ensures |s| >= 3 && s[0] != 0 && s[0] != 20 && s[0] != 36 ==>
              ParseExtendedHeader(emsg, s) == Err(UnsupportedHeaderSize(s[0]))
    ensures ParseExtendedHeader(emsg, s).Ok? <==>
            |s| >= 3 && (s[0] == 0 || (s[0] == 20 && |s| >= 21) || (s[0] == 36 && |s| >= 35))
  {
    hide U64, U32;
  }

  // ---- writing ----

  /** The protobuf header that goes out: job ids and the other fields as given; account and session as given when set,
      and 0 when not, except that ClientHello and the non-authed service call go out untouched. */
  lemma DefaultedFields(emsg: EMsg, p: ProtoHeader)
    ensures var q := Defaulted(emsg, p);
            && q.jobidTarget == p.jobidTarget && q.jobidSource == p.jobidSource && q.others == p.others
            && (emsg == 9805 || emsg == 9804 ==> q == p)
            && (emsg != 9805 && emsg != 9804 ==>
                  && (if p.steamid.Some? then q.steamid == p.steamid else q.steamid == Some(0))
                  && (if p.clientSessionid.Some? then q.clientSessionid == p.clientSessionid
                      else q.clientSessionid == Some(0)))
  {
  }

  /** What a reader of Write's bytes finds in each field, from the header that was written. */
  lemma WrittenFields(codec: Codec, h: Header, body: seq<byte>)
    requires h.proto.Some? && h.emsg >= 0 && h.emsg != EMSG_CHANNEL_ENCRYPT_RESPONSE
    requires |codec.marshalHeader(Defaulted(h.emsg, h.proto.value))| < TWO32
    requires codec.marshalHeader(Defaulted(h.emsg, h.proto.value)) != [] || body != []
    ensures var r := ParseMessage(codec, HeaderBytes(codec, h) + body);
            var p := h.proto.value;
            && r.Ok? && r.value.1 == body && r.value.0.emsg == h.emsg
            && FieldsFrom(r.value.0, Defaulted(h.emsg, p))
            && (if p.jobidTarget.Some? then r.value.0.targetJobID == p.jobidTarget.value
                else r.value.0.targetJobID == NO_JOB)
            && (if p.jobidSource.Some? then r.value.0.sourceJobID == p.jobidSource.value
                else r.value.0.sourceJobID == NO_JOB)
            && (if p.steamid.Some? then r.value.0.steamID == p.steamid.value else r.value.0.steamID == 0)
            && (if p.clientSessionid.Some? then r.value.0.sessionID == p.clientSessionid.value
                else r.value.0.sessionID == 0)
  {
    hide ParseMessage, HeaderBytes;
    ProtobufRoundTrip(codec, h, body);
  }

  /** The bytes of the two layouts without a protobuf header: the response has the job ids alone, every other message
      size, version, job ids, canary, account and session. */
  lemma LayoutBytes(codec: Codec, h: Header)
    requires h.emsg >= 0
    ensures h.emsg == 1304 ==>
              HeaderBytes(codec, h) == LE(1304, 4) + LE(h.targetJobID, 8) + LE(h.sourceJobID, 8)
    ensures h.emsg != 1304 && h.proto.None? ==>
              HeaderBytes(codec, h)
              == LE(h.emsg, 4) + [36, 0, 0, 0] + [2, 0] + LE(h.targetJobID, 8) + LE(h.sourceJobID, 8) + [239]
                 + LE(h.steamID, 8) + LE(ToUnsigned(h.sessionID), 4)
  {
    HeadBytes();
    hide LE;
    assert [36, 0, 0] + [0] == [36, 0, 0, 0];
  }

  /** The bytes of a written protobuf header: EMsg with the flag, length, encoding. */
  lemma WrittenBytes(codec: Codec, h: Header)
    requires h.proto.Some? && h.emsg >= 0 && h.emsg != EMSG_CHANNEL_ENCRYPT_RESPONSE
    ensures var b := codec.marshalHeader(Defaulted(h.emsg, h.proto.value));
            && HeaderBytes(codec, h) == LE(h.emsg + 0x8000_0000, 4) + LE(|b|, 4) + b
  {
    hide LE, Or;
    FlagBit(h.emsg);
    SmallMod(h.emsg, PROTO_MASK);
  }
}
