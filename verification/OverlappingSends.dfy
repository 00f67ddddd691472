/** Calls of Send that overlap. Each makes three writes, and nothing keeps those of one call together
    (connection/tcp.go:122-176). */
module OverlappingSends {
  import opened Words
  import opened Wrappers
  import opened Bytes
  import opened Primitives
  import opened Framing
  import opened Delivery

  /** A call of Send: its payload, and the random bytes it draws. */
  datatype Caller = Caller(payload: seq<byte>, random: Nonce)

  /** What the third write puts out: the payload, encrypted when a key is set. */
  function Data(suite: Suite, key: SessionKey, c: Caller): (data: seq<byte>)
    requires Deliverable(key, c.payload)
    ensures Wire(suite, key, c.payload, c.random) == Ok(Frame(data))
    ensures 0 < |data| <= MAX_PACKET
  {
    DataExists(suite, key, c);
    Wire(suite, key, c.payload, c.random).value[8..]
  }

  lemma DataExists(suite: Suite, key: SessionKey, c: Caller)
    requires Deliverable(key, c.payload)
    ensures var wire := Wire(suite, key, c.payload, c.random);
            && wire.Ok? && |wire.value| > 8 && wire.value == Frame(wire.value[8..])
            && |wire.value| <= 8 + MAX_PACKET
  {
    hide SymmetricSpec.Seal, SymmetricSpec.HmacIv, LE;
    var data := c.payload;
    if key != [] {
      var iv := SymmetricSpec.HmacIv(suite, key, c.random, c.payload);
      SymmetricSpec.RoundTrip(suite, c.payload, key, c.random);
      SymmetricSpec.SealLength(suite, key, iv, c.payload);
      data := SymmetricSpec.Seal(suite, key, iv, c.payload);
    }
    assert Frame(data)[8..] == data;
  }

  /** The k-th write of a call. */
  function Part(data: seq<byte>, k: nat): seq<byte> {
    if k == 0 then LE(|data|, 4) else if k == 1 then LE(TCP_MAGIC, 4) else if k == 2 then data else []
  }

  /** How many writes each call has made, and what is on the stream. */
  datatype Writers = Writers(made: seq<nat>, out: seq<byte>)

  /** One write of call t; a call that has made all three does nothing more. */
  function Next(datas: seq<seq<byte>>, w: Writers, t: nat): (n: Writers)
    requires |w.made| == |datas| && t < |datas|
    ensures |n.made| == |datas|
  {
    Writers(w.made[t := w.made[t] + 1], w.out + Part(datas[t], w.made[t]))
  }

  /** The calls write in the given order. */
  function Execute(datas: seq<seq<byte>>, w: Writers, schedule: seq<nat>): (e: Writers)
    requires |w.made| == |datas| && forall i :: 0 <= i < |schedule| ==> schedule[i] < |datas|
    ensures |e.made| == |datas|
    decreases |schedule|
  {
    if schedule == [] then w else Execute(datas, Next(datas, w, schedule[0]), schedule[1..])
  }

  /** Every call in turn makes its three writes. */
  function InTurn(order: seq<nat>): (schedule: seq<nat>)
    ensures forall i :: 0 <= i < |schedule| ==> schedule[i] in order
  {
    if order == [] then [] else [order[0], order[0], order[0]] + InTurn(order[1..])
  }

  lemma {:induction false} ExecuteConcat(datas: seq<seq<byte>>, w: Writers, a: seq<nat>, b: seq<nat>)
    requires |w.made| == |datas|
    requires forall i :: 0 <= i < |a| ==> a[i] < |datas|
    requires forall i :: 0 <= i < |b| ==> b[i] < |datas|
    ensures Execute(datas, w, a + b) == Execute(datas, Execute(datas, w, a), b)
    decreases |a|
  {
    hide Next;
    if a == [] {
      assert a + b == b;
    } else {
      assert (a + b)[1..] == a[1..] + b;
      ExecuteConcat(datas, Next(datas, w, a[0]), a[1..], b);
    }
  }

  /** Writes only append to the stream. */
  lemma {:induction false} OnlyAppends(datas: seq<seq<byte>>, w: Writers, schedule: seq<nat>)
    requires |w.made| == |datas| && forall i :: 0 <= i < |schedule| ==> schedule[i] < |datas|
    ensures w.out <= Execute(datas, w, schedule).out
    decreases |schedule|
  {
    if schedule != [] {
      OnlyAppends(datas, Next(datas, w, schedule[0]), schedule[1..]);
    }
  }

  lemma ThreeWrites(datas: seq<seq<byte>>, w: Writers, t: nat)
    requires |w.made| == |datas| && t < |datas| && w.made[t] == 0
    ensures Execute(datas, w, [t, t, t]) == Writers(w.made[t := 3], w.out + Frame(datas[t]))
  {
    hide LE;
    var w1 := Next(datas, w, t);
    var w2 := Next(datas, w1, t);
    assert [t, t, t][1..] == [t, t] && [t, t][1..] == [t] && [t][1..] == [];
    assert Execute(datas, w2, [t]) == Execute(datas, Next(datas, w2, t), []);
    assert Execute(datas, w1, [t, t]) == Execute(datas, w2, [t]);
  }

  // ---- the calls of one connection ----

  predicate AllDeliverable(key: SessionKey, callers: seq<Caller>) {
    forall i :: 0 <= i < |callers| ==> Deliverable(key, callers[i].payload)
  }

  function Datas(suite: Suite, key: SessionKey, callers: seq<Caller>): (datas: seq<seq<byte>>)
    requires AllDeliverable(key, callers)
    ensures |datas| == |callers|
  {
    seq(|callers|, i requires 0 <= i < |callers| => Data(suite, key, callers[i]))
  }

  function Start(n: nat): Writers {
    Writers(seq(n, _ => 0), [])
  }

  /** Distinct calls that have not begun to write. */
  predicate Unbegun(w: Writers, order: seq<nat>) {
    && (forall i :: 0 <= i < |order| ==> order[i] < |w.made| && w.made[order[i]] == 0)
    && (forall i, j :: 0 <= i < j < |order| ==> order[i] != order[j])
  }

  function PayloadsIn(callers: seq<Caller>, order: seq<nat>): (payloads: seq<seq<byte>>)
    requires forall i :: 0 <= i < |order| ==> order[i] < |callers|
    ensures |payloads| == |order| && forall i :: 0 <= i < |order| ==> payloads[i] == callers[order[i]].payload
  {
    seq(|order|, i requires 0 <= i < |order| => callers[order[i]].payload)
  }

  function RandomIn(callers: seq<Caller>, order: seq<nat>): (random: seq<Nonce>)
    requires forall i :: 0 <= i < |order| ==> order[i] < |callers|
    ensures |random| == |order|
  {
    seq(|order|, i requires 0 <= i < |order| => callers[order[i]].random)
  }

  lemma UnbegunRest(w: Writers, order: seq<nat>, w': Writers)
    requires order != [] && Unbegun(w, order) && w'.made == w.made[order[0] := 3]
    ensures Unbegun(w', order[1..])
  {
    forall i | 0 <= i < |order| - 1
      ensures order[1..][i] < |w'.made| && w'.made[order[1..][i]] == 0
    {
      assert order[0] != order[i + 1];
    }
  }

  /** The stream of whole packets begins with that of the first call. */
  lemma SendFirst(suite: Suite, key: SessionKey, callers: seq<Caller>, order: seq<nat>)
    requires AllDeliverable(key, callers) && order != []
    requires forall i :: 0 <= i < |order| ==> order[i] < |callers|
    ensures SendAll(suite, key, PayloadsIn(callers, order), RandomIn(callers, order))
         == Frame(Datas(suite, key, callers)[order[0]])
            + SendAll(suite, key, PayloadsIn(callers, order[1..]), RandomIn(callers, order[1..]))
  {
    hide Wire, Frame;
    var payloads, random := PayloadsIn(callers, order), RandomIn(callers, order);
    assert payloads[1..] == PayloadsIn(callers, order[1..]) && random[1..] == RandomIn(callers, order[1..]);
    assert Wire(suite, key, payloads[0], random[0]) == Ok(Frame(Data(suite, key, callers[order[0]])));
  }

  /** Calls whose three writes stay together put whole packets on the stream. */
  lemma {:induction false} InTurnSends(suite: Suite, key: SessionKey, callers: seq<Caller>, w: Writers,
                                       order: seq<nat>)
    requires AllDeliverable(key, callers) && |w.made| == |callers| && Unbegun(w, order)
    ensures var e := Execute(Datas(suite, key, callers), w, InTurn(order));
            && e.out == w.out + SendAll(suite, key, PayloadsIn(callers, order), RandomIn(callers, order))
            && forall t :: 0 <= t < |callers| && t !in order ==> e.made[t] == w.made[t]
    decreases |order|
  {
    hide Wire, Frame, Data, Next, Datas;
    var datas := Datas(suite, key, callers);
    if order != [] {
      var t, rest := order[0], order[1..];
      assert t < |callers|;
      var w' := Writers(w.made[t := 3], w.out + Frame(datas[t]));
      InTurnFirst(datas, w, order);
      UnbegunRest(w, order, w');
      InTurnSends(suite, key, callers, w', rest);
      hide SendAll, Execute, InTurn, PayloadsIn, RandomIn, Unbegun, AllDeliverable;
      SendFirst(suite, key, callers, order);
      forall u | 0 <= u < |callers| && u !in order
        ensures u !in rest && u != t
      {
      }
    }
  }

  lemma InTurnSplit(order: seq<nat>)
    requires order != []
    ensures InTurn(order) == [order[0], order[0], order[0]] + InTurn(order[1..])
  {
  }

  lemma InTurnBelow(order: seq<nat>, n: nat)
    requires forall i :: 0 <= i < |order| ==> order[i] < n
    ensures forall i :: 0 <= i < |InTurn(order)| ==> InTurn(order)[i] < n
  {
    hide InTurn;
    forall i | 0 <= i < |InTurn(order)|
      ensures InTurn(order)[i] < n
    {
      assert InTurn(order)[i] in order;
    }
  }

  lemma InTurnFirst(datas: seq<seq<byte>>, w: Writers, order: seq<nat>)
    requires |w.made| == |datas| && order != [] && forall i :: 0 <= i < |order| ==> order[i] < |datas|
    requires w.made[order[0]] == 0
    ensures var t := order[0];
            Execute(datas, w, InTurn(order))
            == Execute(datas, Writers(w.made[t := 3], w.out + Frame(datas[t])), InTurn(order[1..]))
  {
    hide Frame, Next, Execute, InTurn;
    var t := order[0];
    ThreeWrites(datas, w, t);
    InTurnSplit(order);
    InTurnBelow(order[1..], |datas|);
    ExecuteConcat(datas, w, [t, t, t], InTurn(order[1..]));
  }

  /** Behind whole packets the reader goes on with what follows them. */
  lemma {:induction false} ReadBehind(suite: Suite, key: SessionKey, payloads: seq<seq<byte>>, random: seq<Nonce>,
                                      tail: seq<byte>)
    requires |random| == |payloads| && forall i :: 0 <= i < |payloads| ==> Deliverable(key, payloads[i])
    ensures var (more, e) := ReadAll(suite, key, tail);
            ReadAll(suite, key, SendAll(suite, key, payloads, random) + tail) == (payloads + more, e)
    decreases |payloads|
  {
    hide ReadPacket, Wire;
    if payloads == [] {
      var more := ReadAll(suite, key, tail).0;
      assert [] + tail == tail && payloads + more == more;
    } else {
      assert Deliverable(key, payloads[0]);
      PacketDelivered(suite, key, payloads[0], random[0], []);
      var frame := Wire(suite, key, payloads[0], random[0]).value;
      var rest := SendAll(suite, key, payloads[1..], random[1..]) + tail;
      assert SendAll(suite, key, payloads, random) + tail == frame + rest;
      PacketDelivered(suite, key, payloads[0], random[0], rest);
      ReadBehind(suite, key, payloads[1..], random[1..], tail);
      var more := ReadAll(suite, key, tail).0;
      assert payloads + more == [payloads[0]] + (payloads[1..] + more);
    }
  }

  /** Where each call's writes stay together, the peer gets every payload, in the order of the calls. */
  lemma KeptTogether(suite: Suite, key: SessionKey, callers: seq<Caller>, order: seq<nat>)
    requires AllDeliverable(key, callers) && Unbegun(Start(|callers|), order)
    ensures ReadAll(suite, key, Execute(Datas(suite, key, callers), Start(|callers|), InTurn(order)).out)
         == (PayloadsIn(callers, order), ConnectionClosed)
  {
    hide SendAll, ReadAll, Execute, Datas;
    InTurnSends(suite, key, callers, Start(|callers|), order);
    var whole := SendAll(suite, key, PayloadsIn(callers, order), RandomIn(callers, order));
    assert Start(|callers|).out + whole == whole;
    DeliveredInOrder(suite, key, PayloadsIn(callers, order), RandomIn(callers, order));
  }

  lemma TornPacket(suite: Suite, key: SessionKey, first: seq<byte>, second: seq<byte>, rest: seq<byte>)
    requires |first| <= MAX_PACKET && |second| <= MAX_PACKET
    ensures ReadAll(suite, key, LE(|first|, 4) + LE(|second|, 4) + rest) == ([], InvalidMagic(|second|))
  {
    hide LE, UnLE;
    Widths();
    ReadWritten(|first|, 4);
    ReadWritten(|second|, 4);
    SmallMod(|first|, 0x1_0000_0000);
    SmallMod(|second|, 0x1_0000_0000);
    var s := LE(|first|, 4) + LE(|second|, 4) + rest;
    assert s[..4] == LE(|first|, 4) && s[4..][..4] == LE(|second|, 4);
  }

  lemma TwoWrites(datas: seq<seq<byte>>, w: Writers, t: nat, u: nat)
    requires |w.made| == |datas| && t < |datas| && u < |datas| && t != u && w.made[t] == 0 && w.made[u] == 0
    ensures Execute(datas, w, [t, u]).out == w.out + LE(|datas[t]|, 4) + LE(|datas[u]|, 4)
  {
    var w1 := Next(datas, w, t);
    assert [t, u][1..] == [u] && [u][1..] == [];
    assert Execute(datas, w1, [u]) == Execute(datas, Next(datas, w1, u), []);
  }

  lemma LateWrites(datas: seq<seq<byte>>, w: Writers, t: nat, u: nat)
    requires |w.made| == |datas| && t < |datas| && u < |datas| && t != u && w.made[t] == 0 && w.made[u] == 0
    ensures Execute(datas, w, [t, t, u]).out
         == w.out + LE(|datas[t]|, 4) + LE(TCP_MAGIC, 4) + LE(|datas[u]|, 4)
  {
    hide LE;
    var w1 := Next(datas, w, t);
    var w2 := Next(datas, w1, t);
    assert [t, t, u][1..] == [t, u] && [t, u][1..] == [u] && [u][1..] == [];
    assert Execute(datas, w2, [u]) == Execute(datas, Next(datas, w2, u), []);
    assert Execute(datas, w1, [t, u]) == Execute(datas, w2, [u]);
  }

  /** What a schedule puts out begins with what its parts do. */
  lemma InParts(datas: seq<seq<byte>>, w: Writers, a: seq<nat>, b: seq<nat>, rest: seq<nat>)
    returns (more: seq<byte>)
    requires |w.made| == |datas|
    requires forall i :: 0 <= i < |a| ==> a[i] < |datas|
    requires forall i :: 0 <= i < |b| ==> b[i] < |datas|
    requires forall i :: 0 <= i < |rest| ==> rest[i] < |datas|
    ensures Execute(datas, w, a + b + rest).out == Execute(datas, Execute(datas, w, a), b).out + more
  {
    hide Execute;
    ExecuteConcat(datas, w, a, b);
    ExecuteConcat(datas, w, a + b, rest);
    var w2 := Execute(datas, Execute(datas, w, a), b);
    OnlyAppends(datas, w2, rest);
    more := Execute(datas, w2, rest).out[|w2.out|..];
    assert Execute(datas, w2, rest).out == w2.out + more;
  }

  /** As soon as a second call writes between the first two writes of another, the peer gets the payloads before them
      and then refuses the stream, whatever is written afterwards: it takes the second length for the magic. */
  lemma TornApart(suite: Suite, key: SessionKey, callers: seq<Caller>, order: seq<nat>, t: nat, u: nat,
                  rest: seq<nat>)
    requires AllDeliverable(key, callers) && Unbegun(Start(|callers|), order)
    requires t < |callers| && u < |callers| && t != u && t !in order && u !in order
    requires forall i :: 0 <= i < |rest| ==> rest[i] < |callers|
    ensures ReadAll(suite, key,
                    Execute(Datas(suite, key, callers), Start(|callers|), InTurn(order) + [t, u] + rest).out)
         == (PayloadsIn(callers, order), InvalidMagic(|Data(suite, key, callers[u])|))
  {
    hide SendAll, ReadAll, Data, LE, Execute, Wire, InTurn, PayloadsIn, RandomIn;
    var datas, w := Datas(suite, key, callers), Start(|callers|);
    var payloads, random := PayloadsIn(callers, order), RandomIn(callers, order);
    InTurnSends(suite, key, callers, w, order);
    TwoWrites(datas, Execute(datas, w, InTurn(order)), t, u);
    var more := InParts(datas, w, InTurn(order), [t, u], rest);
    StreamParts(SendAll(suite, key, payloads, random), LE(|datas[t]|, 4), LE(|datas[u]|, 4), more);
    ReadTorn(suite, key, payloads, random, datas[t], datas[u], more);
  }

  lemma StreamParts(whole: seq<byte>, a: seq<byte>, b: seq<byte>, more: seq<byte>)
    ensures [] + whole + a + b + more == whole + (a + b + more)
  {
  }

  lemma ReadTorn(suite: Suite, key: SessionKey, payloads: seq<seq<byte>>, random: seq<Nonce>, first: seq<byte>,
                 second: seq<byte>, more: seq<byte>)
    requires |random| == |payloads| && forall i :: 0 <= i < |payloads| ==> Deliverable(key, payloads[i])
    requires |first| <= MAX_PACKET && |second| <= MAX_PACKET
    ensures ReadAll(suite, key, SendAll(suite, key, payloads, random) + (LE(|first|, 4) + LE(|second|, 4) + more))
         == (payloads, InvalidMagic(|second|))
  {
    hide SendAll, ReadAll, LE;
    TornPacket(suite, key, first, second, more);
    ReadBehind(suite, key, payloads, random, LE(|first|, 4) + LE(|second|, 4) + more);
    assert payloads + [] == payloads;
  }

  /** A header is followed by whatever was written next, up to the announced length. */
  lemma LatePacket(suite: Suite, n: nat, x: seq<byte>)
    requires n <= MAX_PACKET && n <= |x|
    ensures ReadPacket(suite, [], LE(n, 4) + LE(TCP_MAGIC, 4) + x) == Ok(Packet(x[..n], x[..n], x[n..]))
  {
    hide LE, UnLE;
    Widths();
    ReadWritten(n, 4);
    ReadWritten(TCP_MAGIC, 4);
    SmallMod(n, 0x1_0000_0000);
    var s := LE(n, 4) + LE(TCP_MAGIC, 4) + x;
    assert s[..4] == LE(n, 4) && s[4..][..4] == LE(TCP_MAGIC, 4) && s[4..][4..] == x;
  }

  /** When a second call writes between the last two writes of another, whose payload has one byte, and no key is set,
      the peer gets the lowest byte of the second length in place of that payload. */
  lemma TornLate(suite: Suite, callers: seq<Caller>, order: seq<nat>, t: nat, u: nat, rest: seq<nat>)
    requires AllDeliverable([], callers) && Unbegun(Start(|callers|), order)
    requires t < |callers| && u < |callers| && t != u && t !in order && u !in order
    requires forall i :: 0 <= i < |rest| ==> rest[i] < |callers|
    requires |callers[t].payload| == 1
    ensures var read := ReadAll(suite, [],
                                Execute(Datas(suite, [], callers), Start(|callers|),
                                        InTurn(order) + [t, t, u] + rest).out).0;
            |read| > |order| && read[|order|] == [|callers[u].payload| % 256]
  {
    hide SendAll, Data, LE, Execute, InTurn, ReadPacket;
    var datas, w := Datas(suite, [], callers), Start(|callers|);
    InTurnSends(suite, [], callers, w, order);
    PlainData(suite, callers[t]);
    PlainData(suite, callers[u]);
    LateWrites(datas, Execute(datas, w, InTurn(order)), t, u);
    var more := InParts(datas, w, InTurn(order), [t, t, u], rest);
    var payloads, random := PayloadsIn(callers, order), RandomIn(callers, order);
    var whole := SendAll(suite, [], payloads, random);
    var x := LE(|datas[u]|, 4) + more;
    var tail := LE(1, 4) + LE(TCP_MAGIC, 4) + x;
    assert w.out + whole + LE(1, 4) + LE(TCP_MAGIC, 4) + LE(|datas[u]|, 4) + more == whole + tail;
    LatePacket(suite, 1, x);
    LowByte(|datas[u]|);
    assert x[..1] == LE(|datas[u]|, 4)[..1];
    ReadBehind(suite, [], payloads, random, tail);
  }

  lemma LowByte(v: nat)
    ensures LE(v, 4)[..1] == [v % 256]
  {
  }

  lemma PlainData(suite: Suite, c: Caller)
    requires Deliverable([], c.payload)
    ensures Data(suite, [], c) == c.payload
  {
    hide LE;
  }
}
