/** The packets of the TCP stream: length, magic, data, encrypted once a session key is set (connection/tcp.go). */
module Framing {
  import opened Words
  import opened Wrappers
  import opened Bytes
  import opened Primitives
  import opened Pkcs7
  import opened SymmetricSpec

  const TCP_MAGIC := 0x31305456
  const MAX_PACKET := 0x10_0000 // 1024*1024

  datatype SendError = EmptyData | ConnectionClosing | EncryptionFailed(error: CryptoError)

  datatype ReadError =
    | ConnectionClosed  // the stream ends between two fields
    | IncompleteField   // the stream ends inside a field
    | PacketTooLarge(length: nat)
    | InvalidMagic(magic: nat)
    | DecryptionFailed(error: CryptoError)

  /** An empty key means that none is set. */
  type SessionKey = k: seq<byte> | |k| == 0 || |k| == 32 witness []

  function Frame(data: seq<byte>): seq<byte> {
    LE(|data|, 4) + LE(TCP_MAGIC, 4) + data
  }

  /** The bytes one call of Send puts on the stream. */
  function Wire(suite: Suite, key: seq<byte>, data: seq<byte>, random: Nonce): Result<seq<byte>, SendError> {
    if data == [] then Err(EmptyData)
    else if key == [] then Ok(Frame(data))
    else
      match EncryptedWithHmacIv(suite, data, key, random)
      case Err(e) => Err(EncryptionFailed(e))
      case Ok(c) => Ok(Frame(c))
  }

  /** io.ReadFull on a stream that holds s and then ends: the first n bytes and what follows them. */
  function Take(s: seq<byte>, n: nat): Result<(seq<byte>, seq<byte>), ReadError> {
    if |s| >= n then Ok((s[..n], s[n..]))
    else if s == [] then Err(ConnectionClosed)
    else Err(IncompleteField)
  }

  /** One packet as it stood on the stream, as it was delivered, and the stream behind it. */
  datatype Packet = Packet(raw: seq<byte>, body: seq<byte>, rest: seq<byte>)

  function ReadRaw(stream: seq<byte>): (r: Result<(seq<byte>, seq<byte>), ReadError>)
    ensures r.Ok? ==> |r.value.0| <= MAX_PACKET && |r.value.1| + |r.value.0| + 8 == |stream|
  {
    match Take(stream, 4)
    case Err(e) => Err(e)
    case Ok((lengthBytes, afterLength)) =>
      var packetLength := UnLE(lengthBytes);
      if packetLength > MAX_PACKET then Err(PacketTooLarge(packetLength))
      else
        match Take(afterLength, 4)
        case Err(e) => Err(e)
        case Ok((magicBytes, afterMagic)) =>
          var packetMagic := UnLE(magicBytes);
          if packetMagic != TCP_MAGIC then Err(InvalidMagic(packetMagic))
          else Take(afterMagic, packetLength)
  }

  function Opened(suite: Suite, key: seq<byte>, raw: seq<byte>): Result<seq<byte>, ReadError> {
    if key == [] then Ok(raw)
    else
      match Decrypted(suite, raw, key, true)
      case Err(e) => Err(DecryptionFailed(e))
      case Ok(p) => Ok(p)
  }

  /** What one call of Read returns when the stream holds the given bytes and then ends. */
  function ReadPacket(suite: Suite, key: seq<byte>, stream: seq<byte>): (r: Result<Packet, ReadError>)
    ensures r.Ok? ==> |r.value.rest| + 8 <= |stream|
  {
    match ReadRaw(stream)
    case Err(e) => Err(e)
    case Ok((raw, rest)) =>
      match Opened(suite, key, raw)
      case Err(e) => Err(e)
      case Ok(body) => Ok(Packet(raw, body, rest))
  }

  // ---- single packets ----

  lemma FrameFields(data: seq<byte>, rest: seq<byte>)
    ensures var s := Frame(data) + rest;
            && |s| == 8 + |data| + |rest|
            && UnLE(s[..4]) == |data| % 0x1_0000_0000
            && UnLE(s[4..8]) == TCP_MAGIC
            && s[8..8 + |data|] == data && s[8 + |data|..] == rest
  {
    hide LE, UnLE;
    Widths();
    ReadWritten(|data|, 4);
    ReadWritten(TCP_MAGIC, 4);
    var s := Frame(data) + rest;
    assert s[..4] == LE(|data|, 4);
    assert s[4..8] == LE(TCP_MAGIC, 4);
  }

  /** What the reader makes of any frame, including those whose length was cut to 32 bits. */
  lemma ReadRawFrame(data: seq<byte>, rest: seq<byte>)
    ensures var length := |data| % 0x1_0000_0000;
            ReadRaw(Frame(data) + rest) ==
            if length > MAX_PACKET then Err(PacketTooLarge(length))
            else Ok(((data + rest)[..length], (data + rest)[length..]))
  {
    hide LE, UnLE;
    var s := Frame(data) + rest;
    FrameFields(data, rest);
    assert s[4..][..4] == s[4..8] && s[4..][4..] == s[8..] == data + rest;
  }

  /** The longest payload whose packet a peer accepts. */
  function MaxPayload(key: seq<byte>): nat {
    if key == [] then MAX_PACKET else 1048559
  }

  /** What the reader makes of any stream, by the bytes at its front: which error in which case, and the packet
      otherwise. */
  lemma RawOutcome(stream: seq<byte>)
    ensures var n := |stream|;
            var r := ReadRaw(stream);
            && (n < 4 ==> r == Err(if n == 0 then ConnectionClosed else IncompleteField))
            && (n >= 4 ==>
                  var length := UnLE(stream[..4]);
                  && (length > 0x10_0000 ==> r == Err(PacketTooLarge(length)))
                  && (length <= 0x10_0000 && n < 8 ==> r == Err(if n == 4 then ConnectionClosed else IncompleteField))
                  && (length <= 0x10_0000 && n >= 8 ==>
                        var magic := UnLE(stream[4..8]);
                        && (magic != 0x31305456 ==> r == Err(InvalidMagic(magic)))
                        && (magic == 0x31305456 && n < 8 + length ==>
                              r == Err(if n == 8 then ConnectionClosed else IncompleteField))
                        && (magic == 0x31305456 && n >= 8 + length ==>
                              r == Ok((stream[8..8 + length], stream[8 + length..])))))
  {
    hide UnLE;
    if |stream| >= 8 {
      assert stream[4..][..4] == stream[4..8] && stream[4..][4..] == stream[8..];
      var length := UnLE(stream[..4]);
      if |stream| >= 8 + length {
        assert stream[8..][..length] == stream[8..8 + length] && stream[8..][length..] == stream[8 + length..];
      }
    }
  }

  /** A packet is taken as it is without a key, and otherwise decrypted with the HMAC check. */
  lemma OpenedOutcome(suite: Suite, key: seq<byte>, raw: seq<byte>)
    ensures key == [] ==> Opened(suite, key, raw) == Ok(raw)
    ensures key != [] && Decrypted(suite, raw, key, true).Ok? ==>
              Opened(suite, key, raw) == Ok(Decrypted(suite, raw, key, true).value)
    ensures key != [] && Decrypted(suite, raw, key, true).Err? ==>
              Opened(suite, key, raw) == Err(DecryptionFailed(Decrypted(suite, raw, key, true).error))
  {
    hide Decrypted;
  }

  lemma OpenedShrinks(suite: Suite, key: seq<byte>, raw: seq<byte>)
    requires Opened(suite, key, raw).Ok?
    ensures key == [] ==> Opened(suite, key, raw).value == raw
    ensures key != [] ==> |Opened(suite, key, raw).value| + 17 <= |raw|
  {
    hide CbcDecrypt, Pkcs7Pad;
  }

  /** A sent payload comes out of the peer's next Read, with nothing else consumed, exactly when it respects the
      bound: 16 + 16(n/16 + 1) must be at most 2^20. */
  lemma PacketDelivered(suite: Suite, key: SessionKey, data: seq<byte>, random: Nonce, rest: seq<byte>)
    requires data != []
    ensures Wire(suite, key, data, random).Ok?
    ensures (exists raw :: ReadPacket(suite, key, Wire(suite, key, data, random).value + rest)
                        == Ok(Packet(raw, data, rest)))
       <==> |data| <= MaxPayload(key)
  {
    hide Decrypted, ReadRaw, Seal, HmacIv, Frame;
    if key == [] {
      RawDelivered(suite, key, data, data, rest);
    } else {
      RoundTrip(suite, data, key, random);
      var c := Seal(suite, key, HmacIv(suite, key, random, data), data);
      SealLength(suite, key, HmacIv(suite, key, random, data), data);
      RawDelivered(suite, key, data, c, rest);
    }
  }

  lemma RawDelivered(suite: Suite, key: SessionKey, data: seq<byte>, sent: seq<byte>, rest: seq<byte>)
    requires key == [] ==> sent == data
    requires key != [] ==> |sent| == 16 + 16 * (|data| / 16 + 1)
    requires Opened(suite, key, sent) == Ok(data)
    ensures |data| <= MaxPayload(key) ==> ReadPacket(suite, key, Frame(sent) + rest) == Ok(Packet(sent, data, rest))
    ensures |data| > MaxPayload(key) ==>
              forall raw :: ReadPacket(suite, key, Frame(sent) + rest) != Ok(Packet(raw, data, rest))
  {
    hide Opened, Frame, ReadRaw;
    ReadRawFrame(sent, rest);
    var length := |sent| % 0x1_0000_0000;
    if |data| <= MaxPayload(key) {
      SmallMod(|sent|, 0x1_0000_0000);
      assert (sent + rest)[..|sent|] == sent && (sent + rest)[|sent|..] == rest;
    } else if length <= MAX_PACKET {
      var raw := (sent + rest)[..length];
      if Opened(suite, key, raw).Ok? {
        OpenedShrinks(suite, key, raw);
      }
    }
  }

  /** A packet cut short is reported as a closed connection when the cut falls between two fields, and as an
      incomplete read otherwise. */
  lemma PartialFrame(suite: Suite, key: seq<byte>, data: seq<byte>, n: nat)
    requires 0 < |data| <= MAX_PACKET && n < |Frame(data)|
    ensures ReadPacket(suite, key, Frame(data)[..n])
         == Err(if n in {0, 4, 8} then ConnectionClosed else IncompleteField)
  {
    hide LE, UnLE, Opened;
    var s := Frame(data)[..n];
    FrameFields(data, []);
    assert Frame(data) + [] == Frame(data);
    SmallMod(|data|, 0x1_0000_0000);
    if n >= 4 {
      assert s[..4] == Frame(data)[..4];
    }
    if n >= 8 {
      assert s[4..][..4] == Frame(data)[4..8];
      assert |s[4..][4..]| == n - 8 < |data|;
    }
  }
}
