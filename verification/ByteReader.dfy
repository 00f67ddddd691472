/** bytes.Reader and the reading functions of encoding/binary and io on it. */
module ByteReader {
  import opened Integers
  import opened Wrappers
  import opened Bytes
  import opened Codec
  import opened Messages

  datatype Status = Fine | EOF | UnexpectedEOF

  class Reader {
    const s: seq<byte>
    var i: nat

    constructor (s: seq<byte>)
      ensures this.s == s && i == 0
      ensures Valid() && Rest() == s
    {
      this.s, i := s, 0;
    }

    ghost predicate Valid()
      reads this
    {
      i <= |s|
    }

    /** The bytes that have not been read yet. */
    ghost function Rest(): seq<byte>
      requires Valid()
      reads this
    {
      s[i..]
    }

    function Len(): (n: nat)
      requires Valid()
      reads this
      ensures n == |Rest()|
    {
      |s| - i
    }

    /** Read into a buffer of n bytes: at the end of the input this fails even for n = 0. */
    method Read(n: nat) returns (got: seq<byte>, eof: bool)
      requires Valid()
      modifies this
      ensures Valid() && got + Rest() == old(Rest())
      ensures eof <==> old(Rest()) == []
      ensures !eof ==> |got| == if n <= |old(Rest())| then n else |old(Rest())|
      ensures eof ==> got == []
    {
      if i >= |s| {
        return [], true;
      }
      var end := if i + n <= |s| then i + n else |s|;
      got, eof := s[i..end], false;
      i := end;
    }

    /** io.ReadFull, and binary.Read of a value of n bytes. */
    method ReadFull(n: nat) returns (got: seq<byte>, status: Status)
      requires Valid()
      modifies this
      ensures Valid()
      ensures |old(Rest())| >= n ==> status == Fine && got == old(Rest())[..n] && Rest() == old(Rest())[n..]
      ensures |old(Rest())| < n ==> Rest() == [] && status == if old(Rest()) == [] then EOF else UnexpectedEOF
    {
      if i + n <= |s| {
        got, status := s[i..i + n], Fine;
        i := i + n;
      } else {
        got, status := s[i..], if i == |s| then EOF else UnexpectedEOF;
        i := |s|;
      }
    }

    method ReadUint32() returns (v: uint32, status: Status)
      requires Valid()
      modifies this
      ensures Valid()
      ensures |old(Rest())| >= 4 ==> status == Fine && v == U32(old(Rest())[..4]) && Rest() == old(Rest())[4..]
      ensures |old(Rest())| < 4 ==> Rest() == [] && status == if old(Rest()) == [] then EOF else UnexpectedEOF
    {
      var got: seq<byte>;
      v := 0;
      got, status := ReadFull(4);
      if status == Fine {
        v := U32(got);
      }
    }

    method ReadUint64() returns (v: uint64, status: Status)
      requires Valid()
      modifies this
      ensures Valid()
      ensures |old(Rest())| >= 8 ==> status == Fine && v == U64(old(Rest())[..8]) && Rest() == old(Rest())[8..]
      ensures |old(Rest())| < 8 ==> Rest() == [] && status != Fine
    {
      var got: seq<byte>;
      v := 0;
      got, status := ReadFull(8);
      if status == Fine {
        v := U64(got);
      }
    }

    /** io.ReadAll */
    method ReadAll() returns (got: seq<byte>)
      requires Valid()
      modifies this
      ensures Valid() && got == old(Rest()) && Rest() == []
    {
      got := s[i..];
      i := |s|;
    }
  }

  /** The Header struct, filled in field by field through a pointer. */
  class HeaderFields {
    var emsg: EMsg
    var proto: Option<ProtoHeader>
    var targetJobID: uint64
    var sourceJobID: uint64
    var steamID: uint64
    var sessionID: int32

    constructor (h: Header)
      ensures Value() == h
    {
      emsg, proto := h.emsg, h.proto;
      targetJobID, sourceJobID, steamID, sessionID := h.targetJobID, h.sourceJobID, h.steamID, h.sessionID;
    }

    function Value(): Header
      reads this
    {
      Header(emsg, proto, targetJobID, sourceJobID, steamID, sessionID)
    }
  }

  /** What reading a header leaves behind: the error, or the filled header and the cursor in front of the body. */
  ghost predicate Matches(parsed: Parsed, error: Option<MessageError>, header: Header, rest: seq<byte>) {
    match parsed
    case Err(e) => error == Some(e)
    case Ok((h, body)) => error == None && header == h && rest == body
  }

  method ReadProtobufHeader(codec: Codec, header: HeaderFields, reader: Reader) returns (error: Option<MessageError>)
    requires reader.Valid()
    modifies header, reader
    ensures reader.Valid()
    ensures Matches(ParseProtobufHeader(codec, old(header.emsg), old(reader.Rest())), error, header.Value(),
                    reader.Rest())
  {
    var headerLength, status := reader.ReadUint32();
    if status != Fine {
      return Some(Truncated);
    }
    var headerBytes, eof := reader.Read(headerLength);
    if eof {
      return Some(Truncated);
    }
    if |headerBytes| != headerLength {
      return Some(Truncated);
    }
    var headerProto := codec.unmarshalHeader(headerBytes);
    if headerProto.None? {
      return Some(BadProtobuf);
    }
    header.proto := headerProto;
    header.targetJobID := GetOr(headerProto.value.jobidTarget, JOBID_NONE);
    header.sourceJobID := GetOr(headerProto.value.jobidSource, JOBID_NONE);
    header.steamID := GetOr(headerProto.value.steamid, 0);
    header.sessionID := GetOr(headerProto.value.clientSessionid, 0);
    return None;
  }

  method ReadStandardHeader(header: HeaderFields, reader: Reader) returns (error: Option<MessageError>)
    requires reader.Valid()
    requires header.Value() == Header(header.emsg, None, 0, 0, 0, 0)
    modifies header, reader
    ensures reader.Valid()
    ensures Matches(ParseStandardHeader(old(header.emsg), old(reader.Rest())), error, header.Value(), reader.Rest())
  {
    ghost var all := reader.Rest();
    if reader.Len() < 16 {
      return Some(Truncated);
    }
    var target, _ := reader.ReadUint64();
    header.targetJobID := target;
    assert all[8..][..8] == all[8..16];
    var source, _ := reader.ReadUint64();
    header.sourceJobID := source;
    return None;
  }

  /** The fields that both extended layouts begin with: two job ids and a canary byte. */
  method ReadJobIDs(reader: Reader) returns (target: uint64, source: uint64, status: Status)
    requires reader.Valid()
    modifies reader
    ensures reader.Valid()
    ensures |old(reader.Rest())| >= 17 ==>
              && status == Fine && reader.Rest() == old(reader.Rest())[17..]
              && target == U64(old(reader.Rest())[..8]) && source == U64(old(reader.Rest())[8..16])
    ensures |old(reader.Rest())| < 17 ==> status != Fine
  {
    hide U64;
    ghost var all := reader.Rest();
    source := 0;
    target, status := reader.ReadUint64();
    if status != Fine {
      return;
    }
    assert |all| >= 16 ==> all[8..][..8] == all[8..16];
    source, status := reader.ReadUint64();
    if status != Fine {
      return;
    }
    var canary: seq<byte>;
    canary, status := reader.ReadFull(1);
  }

  /** The fields that only the long layout has: SteamID, SessionID and three bytes of padding. */
  method ReadUserIDs(reader: Reader) returns (steamID: uint64, sessionID: int32, status: Status)
    requires reader.Valid()
    modifies reader
    ensures reader.Valid()
    ensures |old(reader.Rest())| >= 15 ==>
              && status == Fine && reader.Rest() == old(reader.Rest())[15..]
              && steamID == U64(old(reader.Rest())[..8]) && sessionID == ToSigned(U32(old(reader.Rest())[8..12]))
    ensures |old(reader.Rest())| < 15 ==> status != Fine
  {
    hide U64, U32;
    ghost var all := reader.Rest();
    sessionID := 0;
    steamID, status := reader.ReadUint64();
    if status != Fine {
      return;
    }
    assert |all| >= 12 ==> all[8..][..4] == all[8..12];
    var bits: uint32;
    bits, status := reader.ReadUint32();
    if status != Fine {
      return;
    }
    sessionID := ToSigned(bits);
    var padding: seq<byte>;
    padding, status := reader.ReadFull(3);
  }

  method ReadExtendedHeader(header: HeaderFields, reader: Reader) returns (error: Option<MessageError>)
    requires reader.Valid()
    requires header.Value() == Header(header.emsg, None, 0, 0, 0, 0)
    modifies header, reader
    ensures reader.Valid()
    ensures Matches(ParseExtendedHeader(old(header.emsg), old(reader.Rest())), error, header.Value(), reader.Rest())
  {
    hide U64, U32;
    ghost var all := reader.Rest();
    var headerSize, status := reader.ReadFull(1);
    if status != Fine {
      return Some(Truncated);
    }
    var headerVersion: seq<byte>;
    headerVersion, status := reader.ReadFull(2);
    if status != Fine {
      return Some(Truncated);
    }
    assert reader.Rest() == all[3..] && headerSize[0] == all[0];
    if headerSize[0] == 0 {
      return None;
    }
    if headerSize[0] != 20 && headerSize[0] != 36 {
      return Some(UnsupportedHeaderSize(headerSize[0]));
    }
    var target, source: uint64;
    target, source, status := ReadJobIDs(reader);
    if status != Fine {
      return Some(Truncated);
    }
    header.targetJobID, header.sourceJobID := target, source;
    assert all[3..][..8] == all[3..11] && all[3..][8..16] == all[11..19] && reader.Rest() == all[20..];
    if headerSize[0] == 20 {
      var padding: seq<byte>;
      padding, status := reader.ReadFull(1);
      return if status != Fine then Some(Truncated) else None;
    }
    var steamID: uint64, sessionID: int32;
    steamID, sessionID, status := ReadUserIDs(reader);
    if status != Fine {
      return Some(Truncated);
    }
    header.steamID, header.sessionID := steamID, sessionID;
    assert all[20..][..8] == all[20..28] && all[20..][8..12] == all[28..32] && reader.Rest() == all[35..];
    return None;
  }

  method ReadHeader(codec: Codec, header: HeaderFields, reader: Reader, isProtobuf: bool)
    returns (error: Option<MessageError>)
    requires reader.Valid()
    requires header.Value() == Header(header.emsg, None, 0, 0, 0, 0)
    modifies header, reader
    ensures reader.Valid()
    ensures var rest := old(reader.Rest());
            var emsg := old(header.emsg);
            Matches(if isProtobuf then ParseProtobufHeader(codec, emsg, rest)
                    else if HasStandardHeader(emsg) then ParseStandardHeader(emsg, rest)
                    else ParseExtendedHeader(emsg, rest),
                    error, header.Value(), reader.Rest())
  {
    if isProtobuf {
      error := ReadProtobufHeader(codec, header, reader);
    } else if header.emsg == EMSG_CHANNEL_ENCRYPT_REQUEST || header.emsg == EMSG_CHANNEL_ENCRYPT_RESULT {
      error := ReadStandardHeader(header, reader);
    } else {
      error := ReadExtendedHeader(header, reader);
    }
  }
}
