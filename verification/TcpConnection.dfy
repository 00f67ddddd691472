/** The connection object: its state, its session key and one stream in each direction (connection/tcp.go). */
module TcpConnection {
  import opened Wrappers
  import opened Bytes
  import opened Primitives
  import opened SymmetricSpec
  import opened Symmetric
  import opened Framing

  datatype State = Disconnecting | ConnectedUnencrypted | ConnectedEncrypted

  // ---- the lifecycle as a machine on values ----

  /** The two fields that the mutex guards. */
  datatype Link = Link(state: State, key: seq<byte>)

  datatype Call = SetKey(key: seq<byte>) | CloseCall | OtherCall

  const INITIAL := Link(ConnectedUnencrypted, [])

  function Apply(link: Link, call: Call): Link {
    match call
    case SetKey(key) =>
      if key == [] then link
      else Link(if link.state == ConnectedUnencrypted then ConnectedEncrypted else link.state, key)
    case CloseCall => link.(state := Disconnecting)
    case OtherCall => link
  }

  function ApplyAll(link: Link, calls: seq<Call>): Link
    decreases |calls|
  {
    if calls == [] then link else ApplyAll(Apply(link, calls[0]), calls[1..])
  }

  predicate Consistent(link: Link) {
    && (link.state == ConnectedUnencrypted ==> link.key == [])
    && (link.state == ConnectedEncrypted ==> link.key != [])
  }

  /** The moves the documentation of State allows, taken any number of times. */
  predicate MayBecome(a: State, b: State) {
    a == b || a == ConnectedUnencrypted || (a == ConnectedEncrypted && b == Disconnecting)
  }

  /** Under any calls in any order: the state only moves forward, it agrees with the key, a key once set stays
      set, and the key in force is the last non-empty one given. */
  lemma {:induction false} Lifecycle(link: Link, calls: seq<Call>)
    requires Consistent(link)
    ensures var l := ApplyAll(link, calls);
            && Consistent(l)
            && MayBecome(link.state, l.state)
            && (link.key != [] ==> l.key != [])
            && l.key == LastKey(link.key, calls)
            && (l.state == Disconnecting <==> link.state == Disconnecting || CloseCall in calls)
    decreases |calls|
  {
    if calls != [] {
      LastKeyFirst(link.key, calls);
      Lifecycle(Apply(link, calls[0]), calls[1..]);
      assert CloseCall in calls <==> calls[0] == CloseCall || CloseCall in calls[1..];
    }
  }

  /** The last non-empty key handed to SetSessionKey. */
  function LastKey(key: seq<byte>, calls: seq<Call>): seq<byte> {
    if calls == [] then key
    else
      var last := calls[|calls| - 1];
      if last.SetKey? && last.key != [] then last.key else LastKey(key, calls[..|calls| - 1])
  }

  lemma {:induction false} LastKeyFirst(key: seq<byte>, calls: seq<Call>)
    requires calls != []
    ensures LastKey(key, calls)
         == LastKey(if calls[0].SetKey? && calls[0].key != [] then calls[0].key else key, calls[1..])
  {
    var n := |calls| - 1;
    if n == 0 {
      assert calls[..0] == [];
    } else {
      assert calls[1..][..n - 1] == calls[..n][1..];
      LastKeyFirst(key, calls[..n]);
    }
  }

  // ---- the network stream ----

  function Flatten(chunks: seq<seq<byte>>): seq<byte> {
    if chunks == [] then [] else chunks[0] + Flatten(chunks[1..])
  }

  /** The operating system's side of the connection: received bytes arrive in chunks of any size and then end. */
  class Socket {
    var incoming: seq<seq<byte>>
    var sent: seq<byte>
    var open: bool

    constructor (chunks: seq<seq<byte>>)
      ensures incoming == chunks && sent == [] && open
    {
      incoming, sent, open := chunks, [], true;
    }

    ghost function Pending(): seq<byte>
      reads this
    {
      Flatten(incoming)
    }

    /** net.Conn.Read: at most n bytes of what has arrived. */
    method Receive(n: nat) returns (got: seq<byte>, eof: bool)
      requires n > 0
      modifies `incoming
      ensures eof <==> old(incoming) == []
      ensures |got| <= n && old(Pending()) == got + Pending()
      ensures !eof ==> got != [] || |incoming| < |old(incoming)|
    {
      if incoming == [] {
        return [], true;
      }
      var chunk := incoming[0];
      if |chunk| <= n {
        incoming := incoming[1..];
        return chunk, false;
      }
      incoming := [chunk[n..]] + incoming[1..];
      assert chunk == chunk[..n] + chunk[n..];
      return chunk[..n], false;
    }

    /** io.ReadFull: however the bytes are chunked, the result depends on their concatenation only. */
    method ReadFull(n: nat) returns (r: Result<seq<byte>, ReadError>)
      modifies `incoming
      ensures var taken := Take(old(Pending()), n);
              && (taken.Ok? ==> r == Ok(taken.value.0) && Pending() == taken.value.1)
              && (taken.Err? ==> r == Err(taken.error) && Pending() == [])
    {
      var buffer: seq<byte> := [];
      while |buffer| < n
        invariant |buffer| <= n
        invariant old(Pending()) == buffer + Pending()
        decreases n - |buffer|, |incoming|
      {
        var got, eof := Receive(n - |buffer|);
        if eof {
          return Err(if buffer == [] then ConnectionClosed else IncompleteField);
        }
        buffer := buffer + got;
      }
      return Ok(buffer);
    }

    method Write(data: seq<byte>)
      modifies `sent
      ensures sent == old(sent) + data
    {
      sent := sent + data;
    }

    method Close()
      modifies `open
      ensures !open
    {
      open := false;
    }
  }

  // ---- the connection ----

  datatype ReadOutcome =
    | Closing                   // a nil reader: the connection is being closed
    | Received(body: seq<byte>) // the packet body, decrypted when a key is set
    | Failed(error: ReadError)

  /** What Send returns and puts on the stream. */
  function Sent(suite: Suite, link: Link, data: seq<byte>, random: Nonce): Result<seq<byte>, SendError> {
    if data == [] then Err(EmptyData)
    else if link.state == Disconnecting then Err(ConnectionClosing)
    else Wire(suite, link.key, data, random)
  }

  /** Which data is refused, in which order, and that everything else is sent. */
  lemma SentOutcome(suite: Suite, link: Link, data: seq<byte>, random: Nonce)
    ensures var r := Sent(suite, link, data, random);
            && (data == [] ==> r == Err(EmptyData))
            && (data != [] && link.state == Disconnecting ==> r == Err(ConnectionClosing))
            && (data != [] && link.state != Disconnecting && link.key == [] ==>
                  r == Ok(LE(|data|, 4) + [0x56, 0x54, 0x30, 0x31] + data))
            && (data != [] && link.state != Disconnecting && link.key != [] && |link.key| != 32 ==>
                  r == Err(EncryptionFailed(BadKeyLength)))
            && (data != [] && link.state != Disconnecting && |link.key| == 32 ==>
                  var c := EncryptedWithHmacIv(suite, data, link.key, random);
                  c.Ok? && r == Ok(LE(|c.value|, 4) + [0x56, 0x54, 0x30, 0x31] + c.value))
  {
    hide Seal, HmacIv;
    MagicBytes();
  }

  /** The four letters VT01. */
  lemma MagicBytes()
    ensures LE(TCP_MAGIC, 4) == [0x56, 0x54, 0x30, 0x31]
  {
    assert LE(0x31, 1) == [0x31] + LE(0, 0);
    assert LE(0x3130, 2) == [0x30] + LE(0x31, 1);
    assert LE(0x313054, 3) == [0x54] + LE(0x3130, 2);
  }

  class TCPConnection {
    const suite: Suite
    const connection: Socket
    var state: State
    var sessionKey: array<byte>

    /** The abstract state that Lifecycle speaks about. */
    ghost function Abs(): Link
      reads this, sessionKey
    {
      Link(state, sessionKey[..])
    }

    constructor (suite: Suite, connection: Socket)
      ensures this.suite == suite && this.connection == connection
      ensures Abs() == INITIAL && fresh(sessionKey)
    {
      this.suite, this.connection := suite, connection;
      state := ConnectedUnencrypted;
      sessionKey := new byte[0];
    }

    method GetState() returns (s: State)
      ensures s == state
    {
      s := state;
    }

    /** The key is copied, so the caller's array stays free to change. */
    method SetSessionKey(key: array<byte>)
      modifies `state, `sessionKey
      ensures Abs() == Apply(old(Abs()), SetKey(old(key[..])))
      ensures sessionKey == old(sessionKey) || fresh(sessionKey)
      ensures key.Length > 0 ==> fresh(sessionKey)
    {
      if key.Length == 0 {
        return;
      }
      if state == ConnectedUnencrypted {
        state := ConnectedEncrypted;
      }
      var copied := new byte[key.Length];
      forall i | 0 <= i < key.Length {
        copied[i] := key[i];
      }
      sessionKey := copied;
      assert sessionKey[..] == key[..];
    }

    method GetSessionKey() returns (key: array<byte>)
      ensures fresh(key) && key[..] == sessionKey[..]
    {
      key := new byte[sessionKey.Length];
      forall i | 0 <= i < sessionKey.Length {
        key[i] := sessionKey[i];
      }
    }

    method Send(data: seq<byte>, random: Nonce) returns (r: Result<(), SendError>)
      modifies connection`sent
      ensures var wire := Sent(suite, Abs(), data, random);
              && (wire.Ok? ==> r == Ok(()) && connection.sent == old(connection.sent) + wire.value)
              && (wire.Err? ==> r == Err(wire.error) && connection.sent == old(connection.sent))
    {
      hide LE, EncryptedWithHmacIv;
      if |data| == 0 {
        return Err(EmptyData);
      }
      var s := GetState();
      if s == Disconnecting {
        return Err(ConnectionClosing);
      }
      var payload := data;
      var key := GetSessionKey();
      if key.Length != 0 {
        var encrypted := SymmetricEncryptWithHmacIv(suite, data, key[..], Some(random));
        if encrypted.Err? {
          return Err(EncryptionFailed(encrypted.error));
        }
        payload := encrypted.value;
      }
      connection.Write(LE(|payload|, 4));
      connection.Write(LE(TCP_MAGIC, 4));
      connection.Write(payload);
      assert connection.sent == old(connection.sent) + Frame(payload);
      return Ok(());
    }

    method Read() returns (r: ReadOutcome)
      modifies connection`incoming
      ensures state == Disconnecting ==> r == Closing && connection.incoming == old(connection.incoming)
      ensures state != Disconnecting ==>
                match ReadPacket(suite, sessionKey[..], old(connection.Pending()))
                case Ok(packet) => r == Received(packet.body) && connection.Pending() == packet.rest
                case Err(e) => r == Failed(e)
    {
      var s := GetState();
      if s == Disconnecting {
        return Closing;
      }
      var lengthBytes := connection.ReadFull(4);
      if lengthBytes.Err? {
        return Failed(lengthBytes.error);
      }
      var packetLength := UnLE(lengthBytes.value);
      if packetLength > MAX_PACKET {
        return Failed(PacketTooLarge(packetLength));
      }
      var magicBytes := connection.ReadFull(4);
      if magicBytes.Err? {
        return Failed(magicBytes.error);
      }
      var packetMagic := UnLE(magicBytes.value);
      if packetMagic != TCP_MAGIC {
        return Failed(InvalidMagic(packetMagic));
      }
      var bodyBytes := connection.ReadFull(packetLength);
      if bodyBytes.Err? {
        return Failed(bodyBytes.error);
      }
      var body := bodyBytes.value;
      var key := GetSessionKey();
      if key.Length != 0 {
        var decrypted := SymmetricDecrypt(suite, body, key[..], true);
        if decrypted.Err? {
          return Failed(DecryptionFailed(decrypted.error));
        }
        body := decrypted.value;
      }
      return Received(body);
    }

    method Close()
      modifies `state, connection`open
      ensures Abs() == Apply(old(Abs()), CloseCall) && !connection.open
    {
      if state != Disconnecting {
        state := Disconnecting;
      }
      connection.Close();
    }

    method IsConnected() returns (b: bool)
      ensures b <==> state != Disconnecting
    {
      var s := GetState();
      b := s == ConnectedUnencrypted || s == ConnectedEncrypted;
    }

    method IsEncrypted() returns (b: bool)
      ensures b <==> state == ConnectedEncrypted
    {
      var s := GetState();
      b := s == ConnectedEncrypted;
    }
  }

  /** Overwriting the caller's array after SetSessionKey does not reach the stored key. */
  method OverwriteAfterSet(c: TCPConnection, key: array<byte>, i: nat, b: byte)
    requires i < key.Length
    modifies c`state, c`sessionKey, key
    ensures c.sessionKey[..] == old(key[..])
  {
    c.SetSessionKey(key);
    key[i] := b;
  }
}
