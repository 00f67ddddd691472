/** The serialization libraries, given only by the laws the protocol relies on. */
module Codec {
  import opened Wrappers
  import opened Bytes
  import opened Integers

  const JOBID_NONE: uint64 := 18446744073709551615

  /** CMsgProtoBufHeader: the optional fields the protocol looks at, and one abstract value for all the others. Its
      elements stand for the values of those fields and are not their encoding; it is empty when none is set. */
  datatype ProtoHeader = ProtoHeader(
    steamid: Option<uint64>,
    clientSessionid: Option<int32>,
    jobidSource: Option<uint64>,
    jobidTarget: Option<uint64>,
    others: seq<byte>)

  const UNSET := ProtoHeader(None, None, None, None, [])

  function GetOr<T>(o: Option<T>, default: T): T {
    if o.Some? then o.value else default
  }

  /** CMsgMulti */
  datatype Multi = Multi(sizeUnzipped: uint32, messageBody: seq<byte>)

  /** CMsgClientLogonResponse: eresult with its default applied, and the optional heartbeat interval. */
  datatype Logon = Logon(eresult: int32, heartbeatSeconds: Option<int32>)

  datatype Functions = Functions(
    marshalHeader: ProtoHeader -> seq<byte>,
    unmarshalHeader: seq<byte> -> Option<ProtoHeader>,
    unmarshalMulti: seq<byte> -> Option<Multi>,
    unmarshalLogon: seq<byte> -> Option<Logon>,
    unmarshalItemAnnouncements: seq<byte> -> Option<uint32>,
    unmarshalNotifications: seq<byte> -> Option<seq<(uint32, uint32)>>,
    gunzip: seq<byte> -> Option<seq<byte>>,
    crc32: seq<byte> -> uint32)
  {
    /** Decoding undoes encoding, only a header without fields has an empty encoding, and the body of a Multi
        message is shorter than the message. */
    ghost predicate Lawful() {
      && (forall h :: unmarshalHeader(marshalHeader(h)) == Some(h))
      && (forall h :: marshalHeader(h) == [] <==> h == UNSET)
      && (forall b :: unmarshalMulti(b).Some? && unmarshalMulti(b).value.messageBody != [] ==>
                        |unmarshalMulti(b).value.messageBody| < |b|)
    }
  }

  /** Any lawful choice of the functions. */
  type Codec = f: Functions | f.Lawful()
    ghost witness (SampleLawful(); Sample())

  lemma HeaderInverse(codec: Codec, h: ProtoHeader)
    ensures codec.unmarshalHeader(codec.marshalHeader(h)) == Some(h)
    ensures codec.marshalHeader(h) == [] <==> h == UNSET
  {
  }

  // ---- a lawful sample, so that no statement about codecs is empty ----

  ghost function Put(o: Option<uint64>): seq<byte> {
    if o.None? then [0] else [1] + LE(o.value, 8)
  }

  ghost function PutSigned(o: Option<int32>): seq<byte> {
    if o.None? then [0] else [1] + LE(o.value + 0x8000_0000, 8)
  }

  ghost function SampleMarshal(h: ProtoHeader): seq<byte> {
    if h == UNSET then []
    else Put(h.steamid) + Put(h.jobidSource) + Put(h.jobidTarget) + PutSigned(h.clientSessionid) + h.others
  }

  lemma PutInjective(a: Option<uint64>, b: Option<uint64>, s: seq<byte>, t: seq<byte>)
    requires Put(a) + s == Put(b) + t
    ensures a == b && s == t
  {
    hide LE, UnLE;
    Widths();
    assert (Put(a) + s)[0] == (Put(b) + t)[0];
    if a.Some? {
      ReadWritten(a.value, 8);
      ReadWritten(b.value, 8);
      assert (Put(a) + s)[1..9] == LE(a.value, 8) && (Put(b) + t)[1..9] == LE(b.value, 8);
      assert (Put(a) + s)[9..] == s && (Put(b) + t)[9..] == t;
    } else {
      assert (Put(a) + s)[1..] == s && (Put(b) + t)[1..] == t;
    }
  }

  lemma SampleInjective(g: ProtoHeader, h: ProtoHeader)
    requires SampleMarshal(g) == SampleMarshal(h)
    ensures g == h
  {
    hide LE, Put;
    if g != UNSET && h != UNSET {
      var g4, h4 := PutSigned(g.clientSessionid) + g.others, PutSigned(h.clientSessionid) + h.others;
      var g3, h3 := Put(g.jobidTarget) + g4, Put(h.jobidTarget) + h4;
      var g2, h2 := Put(g.jobidSource) + g3, Put(h.jobidSource) + h3;
      assert SampleMarshal(g) == Put(g.steamid) + g2 && SampleMarshal(h) == Put(h.steamid) + h2;
      PutInjective(g.steamid, h.steamid, g2, h2);
      PutInjective(g.jobidSource, h.jobidSource, g3, h3);
      PutInjective(g.jobidTarget, h.jobidTarget, g4, h4);
      Shifted(g.clientSessionid);
      Shifted(h.clientSessionid);
      PutInjective(Shift(g.clientSessionid), Shift(h.clientSessionid), g.others, h.others);
    } else {
      Nonempty(g);
      Nonempty(h);
    }
  }

  ghost function Shift(o: Option<int32>): Option<uint64> {
    if o.None? then None else Some(o.value + 0x8000_0000)
  }

  lemma Shifted(o: Option<int32>)
    ensures PutSigned(o) == Put(Shift(o))
  {
  }

  lemma Nonempty(h: ProtoHeader)
    ensures SampleMarshal(h) == [] <==> h == UNSET
  {
    assert |Put(h.steamid)| > 0;
  }

  lemma IsEncoding(h: ProtoHeader, b: seq<byte>)
    requires SampleMarshal(h) == b
    ensures exists g :: SampleMarshal(g) == b
  {
  }

  ghost function SampleUnmarshal(b: seq<byte>): Option<ProtoHeader> {
    if h :| SampleMarshal(h) == b then Some(h) else None
  }

  ghost function Sample(): Functions {
    Functions(h => SampleMarshal(h), b => SampleUnmarshal(b),
              (b: seq<byte>) => if |b| >= 4 && |b| < 0x1_0000_0000 then Some(Multi(|b|, b[4..])) else None,
              b => None, b => None, b => None, b => None, b => 0)
  }

  lemma SampleLawful()
    ensures Sample().Lawful()
  {
    var f := Sample();
    forall h: ProtoHeader
      ensures f.unmarshalHeader(f.marshalHeader(h)) == Some(h)
      ensures f.marshalHeader(h) == [] <==> h == UNSET
    {
      IsEncoding(h, SampleMarshal(h));
      var g := SampleUnmarshal(SampleMarshal(h)).value;
      SampleInjective(g, h);
      Nonempty(h);
    }
  }
}
