/** The recursion through nested Multi messages is a pre-order walk, and it ends (protocol/handlers.go:193-261). */
module Unpacking {
  import opened Integers
  import opened Words
  import opened Wrappers
  import opened Bytes
  import opened Codec
  import opened Messages
  import opened Handlers

  /** A message and, for a Multi message, the messages it holds, with a last part that does not split off one. */
  datatype Tree = Tree(data: seq<byte>, kids: seq<Tree>, tail: seq<byte>)

  /** The body of a Multi message that holds the given ones: each with its length in front, then the tail. */
  function Payload(kids: seq<Tree>, tail: seq<byte>): seq<byte> {
    if kids == [] then tail else LE(|kids[0].data|, 4) + kids[0].data + Payload(kids[1..], tail)
  }

  /** The last part of a body does not split off another message. */
  predicate IsTail(tail: seq<byte>) {
    tail == [] || SplitSubMessage(tail).Err?
  }

  /** The loop of handleMulti cuts data into the given messages and the tail. */
  predicate Splits(data: seq<byte>, kids: seq<Tree>, tail: seq<byte>) {
    if kids == [] then data == tail && IsTail(tail)
    else
      && data != [] && SplitSubMessage(data).Ok?
      && SplitSubMessage(data).value.0 == kids[0].data
      && Splits(SplitSubMessage(data).value.1, kids[1..], tail)
  }

  /** A Multi message that opens to sub-messages, when so many compressed levels may still be opened. */
  predicate Opens(codec: Codec, header: Messages.Header, body: seq<byte>, unzips: nat) {
    && header.emsg == EMSG_MULTI && MultiData(codec, body).Ok?
    && (MultiData(codec, body).value.1 ==> unzips > 0)
  }

  /** A compressed Multi message at the last level. */
  predicate TooDeep(codec: Codec, header: Messages.Header, body: seq<byte>, unzips: nat) {
    header.emsg == EMSG_MULTI && MultiData(codec, body).Ok? && MultiData(codec, body).value.1 && unzips == 0
  }

  /** How many compressed levels are left inside a Multi message. */
  function Inside(codec: Codec, header: Messages.Header, body: seq<byte>, unzips: nat): nat {
    if Opens(codec, header, body, unzips) && MultiData(codec, body).value.1 then unzips - 1 else unzips
  }

  /** t is the message t.data with its nested messages, compressed or not. Messages that do not parse and Multi
      messages that do not open are leaves. */
  ghost predicate IsTree(codec: Codec, t: Tree, unzips: nat)
    decreases t, 1
  {
    match ParseMessage(codec, t.data)
    case Err(_) => t.kids == [] && t.tail == []
    case Ok((header, body)) =>
      if Opens(codec, header, body, unzips)
      then
        && Splits(MultiData(codec, body).value.0, t.kids, t.tail)
        && AreTrees(codec, t.kids, Inside(codec, header, body, unzips))
      else t.kids == [] && t.tail == []
  }

  ghost predicate AreTrees(codec: Codec, kids: seq<Tree>, unzips: nat)
    decreases kids, 0
  {
    kids == [] || (IsTree(codec, kids[0], unzips) && AreTrees(codec, kids[1..], unzips))
  }

  /** The bytes of a body are those of its messages, each with its length in front, and the tail. Below 4 GiB, where
      the loop's comparison of lengths does not wrap, the loop cuts back every such layout of messages of four bytes
      or more. */
  lemma {:induction false} SplitsIff(data: seq<byte>, kids: seq<Tree>, tail: seq<byte>)
    ensures Splits(data, kids, tail) ==>
              data == Payload(kids, tail) && IsTail(tail) && forall i :: 0 <= i < |kids| ==> |kids[i].data| >= 4
    ensures |data| < TWO32 && data == Payload(kids, tail) && IsTail(tail)
            && (forall i :: 0 <= i < |kids| ==> |kids[i].data| >= 4)
            ==> Splits(data, kids, tail)
    decreases kids
  {
    hide SplitSubMessage;
    if kids != [] {
      var rest := Payload(kids[1..], tail);
      if data != [] && SplitSubMessage(data).Ok? {
        SplitJoins(data);
        SplitsIff(SplitSubMessage(data).value.1, kids[1..], tail);
      }
      if |data| < TWO32 && data == Payload(kids, tail) && |kids[0].data| >= 4 {
        FirstSubMessage(kids[0].data, rest);
      }
    }
  }

  // ---- every message has a tree ----

  function TreeOf(codec: Codec, data: seq<byte>, unzips: nat): Tree
    decreases unzips, |data|, 1
  {
    match ParseMessage(codec, data)
    case Err(_) => Tree(data, [], [])
    case Ok((header, body)) =>
      if Opens(codec, header, body, unzips)
      then
        ParseShrinks(codec, data);
        var (kids, tail) := KidsOf(codec, MultiData(codec, body).value.0, Inside(codec, header, body, unzips));
        Tree(data, kids, tail)
      else Tree(data, [], [])
  }

  function KidsOf(codec: Codec, data: seq<byte>, unzips: nat): (seq<Tree>, seq<byte>)
    decreases unzips, |data|, 0
  {
    if data == [] then ([], [])
    else
      match SplitSubMessage(data)
      case Err(_) => ([], data)
      case Ok((message, rest)) =>
        var (kids, tail) := KidsOf(codec, rest, unzips);
        ([TreeOf(codec, message, unzips)] + kids, tail)
  }

  /** Every message has a tree, whatever it holds. */
  lemma {:induction false} EveryMessageHasTree(codec: Codec, data: seq<byte>, unzips: nat)
    ensures IsTree(codec, TreeOf(codec, data, unzips), unzips) && TreeOf(codec, data, unzips).data == data
    decreases unzips, |data|, 1
  {
    hide ParseMessage, MultiData, Splits;
    match ParseMessage(codec, data)
    case Err(_) =>
    case Ok((header, body)) =>
      if Opens(codec, header, body, unzips) {
        ParseShrinks(codec, data);
        KidsAreTrees(codec, MultiData(codec, body).value.0, Inside(codec, header, body, unzips));
      }
  }

  lemma {:induction false} KidsAreTrees(codec: Codec, data: seq<byte>, unzips: nat)
    ensures var (kids, tail) := KidsOf(codec, data, unzips);
            AreTrees(codec, kids, unzips) && Splits(data, kids, tail)
    decreases unzips, |data|, 0
  {
    hide SplitSubMessage, IsTree, TreeOf;
    if data != [] {
      match SplitSubMessage(data)
      case Err(_) =>
      case Ok((message, rest)) =>
        EveryMessageHasTree(codec, message, unzips);
        KidsAreTrees(codec, rest, unzips);
    }
  }

  /** And only one. */
  lemma {:induction false} TreeUnique(codec: Codec, t: Tree, unzips: nat)
    requires IsTree(codec, t, unzips)
    ensures t == TreeOf(codec, t.data, unzips)
    decreases t, 1
  {
    hide ParseMessage, MultiData, Splits;
    match ParseMessage(codec, t.data)
    case Err(_) =>
    case Ok((header, body)) =>
      if Opens(codec, header, body, unzips) {
        ParseShrinks(codec, t.data);
        KidsUnique(codec, MultiData(codec, body).value.0, t.kids, t.tail, Inside(codec, header, body, unzips));
      }
  }

  lemma {:induction false} KidsUnique(codec: Codec, data: seq<byte>, kids: seq<Tree>, tail: seq<byte>, unzips: nat)
    requires Splits(data, kids, tail) && AreTrees(codec, kids, unzips)
    ensures KidsOf(codec, data, unzips) == (kids, tail)
    decreases kids, 0
  {
    hide SplitSubMessage, IsTree, TreeOf;
    if kids != [] {
      TreeUnique(codec, kids[0], unzips);
      KidsUnique(codec, SplitSubMessage(data).value.1, kids[1..], tail, unzips);
      assert kids == [kids[0]] + kids[1..];
    }
  }

  lemma SplitJoins(data: seq<byte>)
    requires data != [] && SplitSubMessage(data).Ok?
    ensures var (message, rest) := SplitSubMessage(data).value; data == LE(|message|, 4) + message + rest
  {
    hide LE, UnLE;
    WriteRead(data[..4]);
    assert data == data[..4] + data[4..];
  }

  // ---- the flat walk ----

  datatype Visit =
    | Unparsable(cause: MessageError)
    | Call(header: Messages.Header, body: seq<byte>)
    | BadFrame(error: Error)

  /** The message itself, then the messages inside it in order, each followed by those inside it. */
  function Preorder(codec: Codec, t: Tree, unzips: nat): seq<Visit>
    decreases t, 1
  {
    match ParseMessage(codec, t.data)
    case Err(e) => [Unparsable(e)]
    case Ok((header, body)) =>
      [Call(header, body)]
      + if TooDeep(codec, header, body, unzips) then [BadFrame(NestedTooDeep)]
        else PreorderAll(codec, t.kids, Inside(codec, header, body, unzips)) + BadTail(t.tail)
  }

  function PreorderAll(codec: Codec, kids: seq<Tree>, unzips: nat): seq<Visit>
    decreases kids, 0
  {
    if kids == [] then [] else Preorder(codec, kids[0], unzips) + PreorderAll(codec, kids[1..], unzips)
  }

  function BadTail(tail: seq<byte>): seq<Visit> {
    if IsTail(tail) && tail != [] then [BadFrame(SplitSubMessage(tail).error)] else []
  }

  /** One handler call on its own: opening a Multi message has no effect by itself. */
  function VisitOne(env: Env, st: Client, visit: Visit): Step {
    match visit
    case Unparsable(e) => Step(st, Some(ParseFailed(e)))
    case BadFrame(e) => Step(st, Some(e))
    case Call(header, body) =>
      var called := st.Logged(Handled(header, body));
      if header.emsg == EMSG_MULTI then
        Step(called, if MultiData(env.codec, body).Err? then Some(MultiData(env.codec, body).error) else None)
      else Dispatch(env, called, header, body)
  }

  function Walk(env: Env, st: Client, visits: seq<Visit>): Step
    decreases |visits|
  {
    if visits == [] then Step(st, None)
    else
      var first := VisitOne(env, st, visits[0]);
      if first.error.Some? then first else Walk(env, first.st, visits[1..])
  }

  lemma {:induction false} WalkConcat(env: Env, st: Client, a: seq<Visit>, b: seq<Visit>)
    ensures var first := Walk(env, st, a);
            Walk(env, st, a + b) == if first.error.Some? then first else Walk(env, first.st, b)
    decreases |a|
  {
    hide VisitOne;
    if a == [] {
      assert a + b == b;
    } else {
      assert (a + b)[0] == a[0] && (a + b)[1..] == a[1..] + b;
      var first := VisitOne(env, st, a[0]);
      if first.error.None? {
        WalkConcat(env, first.st, a[1..], b);
      }
    }
  }

  /** The recursive unpacking has the same effect, on the whole state and on the error, as handling the messages of
      the tree one after another in pre-order. */
  lemma {:induction false} UnpackingIsWalk(env: Env, st: Client, t: Tree, unzips: nat)
    requires IsTree(env.codec, t, unzips)
    ensures ReadMessage(env, st, t.data, unzips) == Walk(env, st, Preorder(env.codec, t, unzips))
    decreases t, 1
  {
    hide ParseMessage, Dispatch, MultiData, SubMessages, Splits;
    match ParseMessage(env.codec, t.data)
    case Err(e) =>
    case Ok((header, body)) =>
      var called := st.Logged(Handled(header, body));
      var visit := Call(header, body);
      var left := Inside(env.codec, header, body, unzips);
      var rest := if TooDeep(env.codec, header, body, unzips) then [BadFrame(NestedTooDeep)]
                  else PreorderAll(env.codec, t.kids, left) + BadTail(t.tail);
      assert Preorder(env.codec, t, unzips) == [visit] + rest;
      assert ([visit] + rest)[1..] == rest;
      assert ReadMessage(env, st, t.data, unzips) == HandleMessage(env, st, header, body, unzips);
      if header.emsg == EMSG_MULTI {
        assert HandleMessage(env, st, header, body, unzips) == HandleMulti(env, called, body, unzips);
      }
      if Opens(env.codec, header, body, unzips) {
        KidsAreWalked(env, called, MultiData(env.codec, body).value.0, t.kids, t.tail, left);
      }
  }

  lemma {:induction false} KidsAreWalked(env: Env, st: Client, data: seq<byte>, kids: seq<Tree>, tail: seq<byte>,
                                         unzips: nat)
    requires Splits(data, kids, tail) && AreTrees(env.codec, kids, unzips)
    ensures SubMessages(env, st, data, unzips)
         == Walk(env, st, PreorderAll(env.codec, kids, unzips) + BadTail(tail))
    decreases kids, 0
  {
    hide ParseMessage, Dispatch, MultiData, ReadMessage, SplitSubMessage, Preorder, IsTree;
    if kids == [] {
      assert [] + BadTail(tail) == BadTail(tail);
    } else {
      var first := kids[0];
      var rest := PreorderAll(env.codec, kids[1..], unzips) + BadTail(tail);
      UnpackingIsWalk(env, st, first, unzips);
      assert PreorderAll(env.codec, kids, unzips) + BadTail(tail) == Preorder(env.codec, first, unzips) + rest;
      WalkConcat(env, st, Preorder(env.codec, first, unzips), rest);
      var step := ReadMessage(env, st, first.data, unzips);
      if step.error.None? {
        KidsAreWalked(env, step.st, SplitSubMessage(data).value.1, kids[1..], tail, unzips);
      }
    }
  }

  lemma FirstSubMessage(message: seq<byte>, rest: seq<byte>)
    requires |message| >= 4 && |message| + |rest| < TWO32
    ensures LE(|message|, 4) + message + rest != []
    ensures SplitSubMessage(LE(|message|, 4) + message + rest) == Ok((message, rest))
  {
    hide LE, UnLE;
    var data := LE(|message|, 4) + message + rest;
    assert data == LE(|message|, 4) + (message + rest);
    EMsgField(|message|, message + rest);
    SmallMod(|message + rest|, TWO32);
  }

  // ---- which calls were made ----

  /** The messages handleMessage was called with. */
  function Calls(log: seq<Action>): seq<Visit> {
    if log == [] then []
    else
      var last := log[|log| - 1];
      Calls(log[..|log| - 1]) + (if last.Handled? then [Call(last.header, last.body)] else [])
  }

  lemma CallsAppend(log: seq<Action>, a: Action)
    ensures Calls(log + [a]) == Calls(log) + (if a.Handled? then [Call(a.header, a.body)] else [])
  {
    assert (log + [a])[..|log|] == log;
  }

  lemma WriteCalls(env: Env, st: Client, header: Messages.Header, body: seq<byte>)
    ensures Calls(Write(env, st, header, body).st.log) == Calls(st.log)
  {
    hide HeaderBytes, TcpConnection.Sent;
    var payload := HeaderBytes(env.codec, header) + body;
    CallsAppend(st.log, Sent(st.link.key, env.nonces(st.draws), payload));
  }

  /** No handler other than the recursion calls handleMessage. */
  lemma DispatchCalls(env: Env, st: Client, header: Messages.Header, body: seq<byte>)
    ensures Calls(Dispatch(env, st, header, body).st.log) == Calls(st.log)
  {
    hide Write, Calls, Response;
    if header.emsg == EMSG_CHANNEL_ENCRYPT_REQUEST {
      match env.keys(st.draws)
      case None =>
      case Some((plain, encrypted)) =>
        if |body| > 8 {
          CallsAppend(st.log, Offered(plain));
          WriteCalls(env, st.(draws := st.draws + 1, pending := plain).Logged(Offered(plain)), ResponseHeader(header),
                     Response(env.codec, encrypted, NonceOf(body[8..])));
        }
    } else if header.emsg == EMSG_CHANNEL_ENCRYPT_RESULT {
      CallsAppend(st.log, Installed);
      var link := TcpConnection.Apply(st.link, TcpConnection.SetKey(st.pending));
      CallsAppend(st.log + [Installed], Connected(link.key != []));
    } else if header.emsg == EMSG_CLIENT_LOG_ON_RESPONSE {
      LogOnCalls(env, st, header, body);
    }
  }

  lemma LogOnCalls(env: Env, st: Client, header: Messages.Header, body: seq<byte>)
    ensures Calls(LogOnResponse(env, st, header, body).st.log) == Calls(st.log)
  {
    hide Write, Calls;
    match env.codec.unmarshalLogon(body)
    case None =>
    case Some(response) =>
      if response.eresult == 1 && response.heartbeatSeconds.Some? && response.heartbeatSeconds.value > 0 {
        var proto := GetOr(header.proto, UNSET);
        var steamID, sessionID := GetOr(proto.steamid, 0), GetOr(proto.clientSessionid, 0);
        var started := HeartbeatStarted(response.heartbeatSeconds.value);
        CallsAppend(st.log, started);
        CallsAppend(st.log + [started], LoggedOn(steamID, sessionID));
        WriteCalls(env, st.(steamID := steamID, sessionID := sessionID).Logged(started)
                          .Logged(LoggedOn(steamID, sessionID)), ItemRequest(steamID, sessionID), []);
      }
  }

  lemma VisitCalls(env: Env, st: Client, visit: Visit)
    ensures Calls(VisitOne(env, st, visit).st.log) == Calls(st.log) + (if visit.Call? then [visit] else [])
  {
    hide Dispatch, Calls, MultiData;
    if visit.Call? {
      CallsAppend(st.log, Handled(visit.header, visit.body));
      DispatchCalls(env, st.Logged(Handled(visit.header, visit.body)), visit.header, visit.body);
    }
  }

  /** The calls of a list of visits. */
  function CallsOf(visits: seq<Visit>): seq<Visit> {
    if visits == [] then [] else (if visits[0].Call? then [visits[0]] else []) + CallsOf(visits[1..])
  }

  /** A walk reaches some visit number k, all of them exactly when it succeeds. The calls made are those of the
      first k visits, and after a failure the last of these is the one that failed, all before it having succeeded. */
  lemma {:induction false} WalkReaches(env: Env, st: Client, visits: seq<Visit>) returns (k: nat)
    ensures k <= |visits|
    ensures var end := Walk(env, st, visits);
            && Calls(end.st.log) == Calls(st.log) + CallsOf(visits[..k])
            && (end.error.None? ==> k == |visits|)
            && (end.error.Some? ==>
                  && k > 0
                  && Walk(env, st, visits[..k - 1]).error.None?
                  && VisitOne(env, Walk(env, st, visits[..k - 1]).st, visits[k - 1]) == end)
    decreases |visits|
  {
    hide VisitOne, Calls;
    if visits == [] {
      return 0;
    }
    var first := VisitOne(env, st, visits[0]);
    VisitCalls(env, st, visits[0]);
    if first.error.Some? {
      assert visits[..0] == [] && visits[..1][0] == visits[0] && visits[..1][1..] == [];
      assert CallsOf([]) == [];
      return 1;
    }
    var n := WalkReaches(env, first.st, visits[1..]);
    k := n + 1;
    assert visits[..k][0] == visits[0] && visits[..k][1..] == visits[1..][..n];
    if n > 0 {
      assert visits[..n][0] == visits[0] && visits[..n][1..] == visits[1..][..n - 1];
    }
  }

  /** Nested unpacking calls handleMessage exactly in pre-order when everything succeeds, and otherwise exactly on
      the prefix of the pre-order that ends with the failing message. */
  lemma UnpackingCalls(env: Env, st: Client, t: Tree, unzips: nat) returns (k: nat)
    requires IsTree(env.codec, t, unzips)
    ensures var visits := Preorder(env.codec, t, unzips);
            var end := ReadMessage(env, st, t.data, unzips);
            && k <= |visits|
            && Calls(end.st.log) == Calls(st.log) + CallsOf(visits[..k])
            && (end.error.None? ==> k == |visits|)
            && (end.error.Some? ==>
                  && k > 0
                  && Walk(env, st, visits[..k - 1]).error.None?
                  && VisitOne(env, Walk(env, st, visits[..k - 1]).st, visits[k - 1]) == end)
  {
    hide ReadMessage, Walk, VisitOne, Preorder, Calls, CallsOf;
    UnpackingIsWalk(env, st, t, unzips);
    k := WalkReaches(env, st, Preorder(env.codec, t, unzips));
  }

  // ---- the recursion ends ----

  /** Without decompression, handling n bytes makes at most (n + 4) / 8 calls of handleMessage: every turn of the loop
      consumes eight bytes or more, and every nested message is shorter than the one around it. */
  lemma {:induction false} CallBound(env: Env, st: Client, data: seq<byte>)
    ensures 8 * |Calls(ReadMessage(env, st, data, 0).st.log)| <= 8 * |Calls(st.log)| + |data| + 4
    decreases |data|, 1
  {
    hide ParseMessage, Dispatch, MultiData, Calls, SubMessages;
    match ParseMessage(env.codec, data)
    case Err(e) =>
    case Ok((header, body)) =>
      ParseShrinks(env.codec, data);
      var called := st.Logged(Handled(header, body));
      CallsAppend(st.log, Handled(header, body));
      assert ReadMessage(env, st, data, 0) == HandleMessage(env, st, header, body, 0);
      if header.emsg == EMSG_MULTI {
        assert HandleMessage(env, st, header, body, 0) == HandleMulti(env, called, body, 0);
        if Opens(env.codec, header, body, 0) {
          LoopBound(env, called, MultiData(env.codec, body).value.0);
        }
      } else {
        DispatchCalls(env, called, header, body);
      }
  }

  lemma {:induction false} LoopBound(env: Env, st: Client, data: seq<byte>)
    ensures 8 * |Calls(SubMessages(env, st, data, 0).st.log)| <= 8 * |Calls(st.log)| + |data|
    decreases |data|, 0
  {
    hide ReadMessage, SplitSubMessage, Calls;
    if data != [] {
      match SplitSubMessage(data)
      case Err(e) =>
      case Ok((message, rest)) =>
        CallBound(env, st, message);
        var first := ReadMessage(env, st, message, 0);
        if first.error.None? {
          LoopBound(env, first.st, rest);
        }
    }
  }

  /** No Multi message in the tree is compressed. */
  ghost predicate Uncompressed(codec: Codec, t: Tree)
    decreases t, 1
  {
    && (ParseMessage(codec, t.data).Ok? ==>
          var (header, body) := ParseMessage(codec, t.data).value;
          header.emsg == EMSG_MULTI && MultiData(codec, body).Ok? ==> !MultiData(codec, body).value.1)
    && AllUncompressed(codec, t.kids)
  }

  ghost predicate AllUncompressed(codec: Codec, kids: seq<Tree>)
    decreases kids, 0
  {
    kids == [] || (Uncompressed(codec, kids[0]) && AllUncompressed(codec, kids[1..]))
  }

  lemma {:induction false} SameTree(codec: Codec, t: Tree, few: nat, many: nat)
    requires IsTree(codec, t, few) && Uncompressed(codec, t)
    ensures IsTree(codec, t, many) && Preorder(codec, t, many) == Preorder(codec, t, few)
    decreases t, 1
  {
    hide ParseMessage, MultiData, Splits;
    match ParseMessage(codec, t.data)
    case Err(_) =>
    case Ok((header, body)) =>
      if Opens(codec, header, body, few) {
        SameKids(codec, t.kids, few, many);
      }
  }

  lemma {:induction false} SameKids(codec: Codec, kids: seq<Tree>, few: nat, many: nat)
    requires AreTrees(codec, kids, few) && AllUncompressed(codec, kids)
    ensures AreTrees(codec, kids, many) && PreorderAll(codec, kids, many) == PreorderAll(codec, kids, few)
    decreases kids, 0
  {
    hide IsTree, Preorder, Uncompressed;
    if kids != [] {
      SameTree(codec, kids[0], few, many);
      SameKids(codec, kids[1..], few, many);
    }
  }

  /** No visit in the list stands for the bound. */
  ghost predicate BoundUnmet(visits: seq<Visit>) {
    BadFrame(NestedTooDeep) !in visits
  }

  lemma {:induction false} UncompressedUnmet(codec: Codec, t: Tree)
    requires Uncompressed(codec, t)
    ensures BoundUnmet(Preorder(codec, t, 0))
    decreases t, 1
  {
    hide ParseMessage, MultiData, SplitSubMessage;
    TailError(t.tail);
    KidsUnmet(codec, t.kids);
  }

  lemma {:induction false} KidsUnmet(codec: Codec, kids: seq<Tree>)
    requires AllUncompressed(codec, kids)
    ensures BoundUnmet(PreorderAll(codec, kids, 0))
    decreases kids, 0
  {
    hide Preorder, Uncompressed;
    if kids != [] {
      UncompressedUnmet(codec, kids[0]);
      KidsUnmet(codec, kids[1..]);
    }
  }

  lemma TailError(tail: seq<byte>)
    ensures BoundUnmet(BadTail(tail))
  {
    hide U32;
  }

  lemma VisitUnmet(env: Env, st: Client, visit: Visit)
    requires visit != BadFrame(NestedTooDeep)
    ensures VisitOne(env, st, visit).error != Some(NestedTooDeep)
  {
    hide U32, Response, HeaderBytes, TcpConnection.Sent;
  }

  /** A message without compressed levels is handled alike under every bound, and so with at most (n + 4) / 8 calls;
      it never meets the bound. */
  lemma UncompressedAlike(env: Env, st: Client, data: seq<byte>, unzips: nat)
    requires Uncompressed(env.codec, TreeOf(env.codec, data, 0))
    ensures ReadMessage(env, st, data, unzips) == ReadMessage(env, st, data, 0)
    ensures 8 * |Calls(ReadMessage(env, st, data, unzips).st.log)| <= 8 * |Calls(st.log)| + |data| + 4
    ensures ReadMessage(env, st, data, unzips).error != Some(NestedTooDeep)
  {
    hide ReadMessage, Walk, VisitOne, Preorder, IsTree, Uncompressed;
    var t := TreeOf(env.codec, data, 0);
    EveryMessageHasTree(env.codec, data, 0);
    SameTree(env.codec, t, 0, unzips);
    UnpackingIsWalk(env, st, t, 0);
    UnpackingIsWalk(env, st, t, unzips);
    CallBound(env, st, data);
    UncompressedUnmet(env.codec, t);
    var visits := Preorder(env.codec, t, 0);
    var k := WalkReaches(env, st, visits);
    if Walk(env, st, visits).error.Some? {
      assert visits[k - 1] in visits;
      VisitUnmet(env, Walk(env, st, visits[..k - 1]).st, visits[k - 1]);
    }
  }

  /** The bound on decompressions is only a way to write the recursion down: a result that did not run into it is
      the result under every larger bound. */
  lemma {:induction false} UnzipsIrrelevant(env: Env, st: Client, data: seq<byte>, few: nat, many: nat)
    requires few <= many && ReadMessage(env, st, data, few).error != Some(NestedTooDeep)
    ensures ReadMessage(env, st, data, many) == ReadMessage(env, st, data, few)
    decreases few, |data|, 1
  {
    hide ParseMessage, Dispatch, MultiData, SubMessages;
    match ParseMessage(env.codec, data)
    case Err(e) =>
    case Ok((header, body)) =>
      ParseShrinks(env.codec, data);
      var called := st.Logged(Handled(header, body));
      forall u: nat
        ensures ReadMessage(env, st, data, u) ==
                if header.emsg == EMSG_MULTI then HandleMulti(env, called, body, u)
                else Dispatch(env, called, header, body)
      {
        assert ReadMessage(env, st, data, u) == HandleMessage(env, st, header, body, u);
      }
      if header.emsg == EMSG_MULTI && MultiData(env.codec, body).Ok? {
        var (inner, zipped) := MultiData(env.codec, body).value;
        if !zipped {
          LoopUnzipsIrrelevant(env, called, inner, few, many);
        } else if few > 0 {
          LoopUnzipsIrrelevant(env, called, inner, few - 1, many - 1);
        }
      }
  }

  lemma {:induction false} LoopUnzipsIrrelevant(env: Env, st: Client, data: seq<byte>, few: nat, many: nat)
    requires few <= many && SubMessages(env, st, data, few).error != Some(NestedTooDeep)
    ensures SubMessages(env, st, data, many) == SubMessages(env, st, data, few)
    decreases few, |data|, 0
  {
    hide ReadMessage, SplitSubMessage;
    if data != [] {
      match SplitSubMessage(data)
      case Err(e) =>
      case Ok((message, rest)) =>
        UnzipsIrrelevant(env, st, message, few, many);
        var first := ReadMessage(env, st, message, few);
        if first.error.None? {
          LoopUnzipsIrrelevant(env, first.st, rest, few, many);
        }
    }
  }
}
