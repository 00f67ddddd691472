/** What every run of the client keeps about keys: which key is pending, which is installed, and under which key
    each packet is read and sent (protocol/handlers.go:62-152, protocol/protocol.go:73-90, connection/tcp.go:90-105). */
module Handshake {
  import opened Integers
  import opened Words
  import opened Wrappers
  import opened Bytes
  import opened Primitives
  import opened SymmetricSpec
  import opened Framing
  import opened TcpConnection
  import opened Codec
  import opened Messages
  import opened Handlers
  import opened Exchanges

  // ---- the keys a history tells ----

  /** The key offered last, unless a Result of 1 came after it. */
  function PendingOf(log: seq<Action>): seq<byte> {
    if log == [] then []
    else
      var last := log[|log| - 1];
      if last.Offered? then last.key else if last.Installed? then [] else PendingOf(log[..|log| - 1])
  }

  /** The key that was pending at the latest Result of 1 that found one. */
  function InstalledOf(log: seq<Action>): seq<byte> {
    if log == [] then []
    else
      var before := log[..|log| - 1];
      if log[|log| - 1].Installed? && PendingOf(before) != [] then PendingOf(before) else InstalledOf(before)
  }

  lemma AppendOf(log: seq<Action>, a: Action)
    ensures PendingOf(log + [a]) == if a.Offered? then a.key else if a.Installed? then [] else PendingOf(log)
    ensures InstalledOf(log + [a])
         == if a.Installed? && PendingOf(log) != [] then PendingOf(log) else InstalledOf(log)
  {
    assert (log + [a])[..|log|] == log;
  }

  /** Entry j offered a key, and no other offer and no Result of 1 lies between j and i. */
  ghost predicate OfferStands(log: seq<Action>, j: int, i: int) {
    && 0 <= j < i <= |log|
    && log[j].Offered?
    && forall m :: j < m < i ==> !log[m].Offered? && !log[m].Installed?
  }

  /** Entry i is a Result of 1 that found the offer of entry j pending. */
  ghost predicate Installs(log: seq<Action>, j: int, i: int) {
    0 <= i < |log| && log[i].Installed? && OfferStands(log, j, i)
  }

  /** The history's offers are proper keys. */
  ghost predicate ProperOffers(log: seq<Action>) {
    forall j :: 0 <= j < |log| && log[j].Offered? ==> |log[j].key| == 32
  }

  lemma OfferBefore(log: seq<Action>, j: int)
    requires log != []
    ensures var n := |log| - 1;
            OfferStands(log, j, n) <==> OfferStands(log[..n], j, n)
    ensures var n := |log| - 1;
            OfferStands(log, j, |log|) <==>
            if log[n].Offered? then j == n else !log[n].Installed? && OfferStands(log[..n], j, n)
  {
    var n := |log| - 1;
    assert forall m :: 0 <= m < n ==> log[..n][m] == log[m];
  }

  /** A key is pending exactly between its offer and the next offer or Result of 1. */
  lemma {:induction false} PendingMeaning(log: seq<Action>, k: seq<byte>)
    requires ProperOffers(log) && k != []
    ensures PendingOf(log) == k <==> exists j :: OfferStands(log, j, |log|) && log[j].key == k
  {
    if log != [] {
      var n := |log| - 1;
      PendingMeaning(log[..n], k);
      forall j
        ensures OfferStands(log, j, |log|) <==>
                if log[n].Offered? then j == n else !log[n].Installed? && OfferStands(log[..n], j, n)
      {
        OfferBefore(log, j);
      }
      assert log[n].Offered? ==> OfferStands(log, n, |log|);
    }
  }

  lemma PendingWitness(log: seq<Action>) returns (j: nat)
    requires ProperOffers(log) && PendingOf(log) != []
    ensures OfferStands(log, j, |log|) && log[j].key == PendingOf(log)
  {
    PendingMeaning(log, PendingOf(log));
    j :| OfferStands(log, j, |log|) && log[j].key == PendingOf(log);
  }

  /** No Result of 1 after entry i found a key pending. */
  ghost predicate LastInstall(log: seq<Action>, i: int) {
    forall m, n :: i < n ==> !Installs(log, m, n)
  }

  /** Entry i is the latest Result of 1 that found a key pending, and entry j offered that key. */
  ghost predicate InForce(log: seq<Action>, j: int, i: int) {
    Installs(log, j, i) && LastInstall(log, i)
  }

  lemma InstallsBefore(log: seq<Action>, j: int, i: int)
    requires log != [] && i < |log| - 1
    ensures Installs(log, j, i) <==> Installs(log[..|log| - 1], j, i)
  {
    var n := |log| - 1;
    assert forall m :: 0 <= m < n ==> log[..n][m] == log[m];
  }

  /** The latest install of a history whose last entry installs nothing is that of the entries before. */
  lemma InForceBefore(log: seq<Action>, n: nat, j: int, i: int)
    requires |log| == n + 1 && forall m :: !Installs(log, m, n)
    ensures InForce(log, j, i) <==> InForce(log[..n], j, i)
  {
    forall m, p | p < n
      ensures Installs(log, m, p) <==> Installs(log[..n], m, p)
    {
      InstallsBefore(log, m, p);
    }
    assert forall m, p :: p >= n ==> !Installs(log[..n], m, p);
    assert forall m, p :: p > n ==> !Installs(log, m, p);
  }

  lemma InstallsLast(log: seq<Action>, m: int)
    requires ProperOffers(log) && log != []
    ensures var n := |log| - 1;
            Installs(log, m, n) ==> log[n].Installed? && PendingOf(log[..n]) == log[m].key && PendingOf(log[..n]) != []
  {
    var n := |log| - 1;
    if Installs(log, m, n) {
      OfferBefore(log, m);
      PendingMeaning(log[..n], log[m].key);
    }
  }

  /** The installed key is the one offered by the latest accepted Request before the latest Result of 1 that found
      a pending key. */
  lemma {:induction false} InstalledMeaning(log: seq<Action>, k: seq<byte>)
    requires ProperOffers(log) && k != []
    ensures InstalledOf(log) == k <==> exists j, i :: InForce(log, j, i) && log[j].key == k
  {
    if log != [] {
      var n := |log| - 1;
      var before := log[..n];
      if log[n].Installed? && PendingOf(before) != [] {
        var j := PendingWitness(before);
        OfferBefore(log, j);
        assert InForce(log, j, n);
        forall m, i | InForce(log, m, i)
          ensures log[m].key == PendingOf(before)
        {
          assert i >= n;
          InstallsLast(log, m);
        }
      } else {
        forall m
          ensures !Installs(log, m, n)
        {
          InstallsLast(log, m);
        }
        forall j, i
          ensures InForce(log, j, i) <==> InForce(before, j, i)
        {
          InForceBefore(log, n, j, i);
        }
        InstalledMeaning(before, k);
        assert forall j, i :: InForce(before, j, i) ==> log[j].key == before[j].key;
      }
    }
  }

  lemma {:induction false} InstalledStays(log: seq<Action>, m: nat)
    requires m <= |log| && InstalledOf(log[..m]) != []
    ensures InstalledOf(log) != []
  {
    if m == |log| {
      assert log[..m] == log;
    } else {
      var before := log[..|log| - 1];
      assert before[..m] == log[..m];
      InstalledStays(before, m);
    }
  }

  /** Once a key was offered there is always one, pending or installed. */
  lemma {:induction false} OfferLeavesKey(log: seq<Action>, j: nat)
    requires ProperOffers(log) && j < |log| && log[j].Offered?
    ensures PendingOf(log) != [] || InstalledOf(log) != []
  {
    var n := |log| - 1;
    if j < n {
      assert log[..n][j] == log[j];
      OfferLeavesKey(log[..n], j);
    }
  }

  // ---- what each entry of a history satisfies ----

  /** A ChannelEncryptRequest for protocol 1 and universe 1, with a nonce, was handled. */
  predicate AcceptsRequest(a: Action) {
    && a.Handled? && a.header.emsg == EMSG_CHANNEL_ENCRYPT_REQUEST
    && |a.body| > 8 && U32(a.body[..4]) == 1 && U32(a.body[4..8]) == 1
  }

  /** A ChannelEncryptResult of 1 was handled. */
  predicate AcceptsResult(a: Action) {
    a.Handled? && a.header.emsg == EMSG_CHANNEL_ENCRYPT_RESULT && |a.body| >= 4 && U32(a.body[..4]) == 1
  }

  /** The payload is the response to the request: its job ids and nonce, and the encrypted form of the key, with its
      checksum. */
  ghost predicate Answers(env: Env, request: Action, key: seq<byte>, payload: seq<byte>)
    requires AcceptsRequest(request)
  {
    exists d: nat ::
      && env.keys(d).Some? && env.keys(d).value.0 == key
      && var encrypted := env.keys(d).value.1;
         ParseKeyResponse(payload)
         == Some(KeyResponse(request.header.targetJobID, request.header.sourceJobID, encrypted,
                             env.codec.crc32(encrypted), NonceOf(request.body[8..])))
  }

  /** Entry n exists because of the entry before it: keys are offered and installed right after the messages that say
      so and at no other time, and an offer is answered at once. */
  ghost predicate CauseOk(env: Env, log: seq<Action>, n: nat)
    requires n < |log|
  {
    && (log[n].Offered? <==> n > 0 && AcceptsRequest(log[n - 1]))
    && (log[n].Installed? <==> n > 0 && AcceptsResult(log[n - 1]))
    && (log[n].Connected? <==> n > 0 && log[n - 1].Installed?)
    && (n > 0 && log[n - 1].Offered? ==>
          && n > 1 && AcceptsRequest(log[n - 2])
          && log[n].Sent? && Answers(env, log[n - 2], log[n - 1].key, log[n].payload))
  }

  ghost predicate EntryOk(suite: Suite, log: seq<Action>, n: nat)
    requires n < |log|
  {
    var before := log[..n];
    match log[n]
    case Frame(key, raw, body) => key == InstalledOf(before) && Opened(suite, key, raw) == Ok(body)
    case Sent(key, nonce, payload) => key == InstalledOf(before) && Wire(suite, key, payload, nonce).Ok?
    case Connected(keyed) => keyed <==> InstalledOf(before) != []
    case Offered(key) => |key| == 32
    case _ => true
  }

  ghost predicate History(env: Env, log: seq<Action>) {
    forall n :: 0 <= n < |log| ==> EntryOk(env.suite, log, n) && CauseOk(env, log, n)
  }

  /** The bytes of the packets sent, each under the key it was sent with. */
  ghost function OutOf(suite: Suite, log: seq<Action>): seq<byte> {
    if log == [] then []
    else
      var last := log[|log| - 1];
      OutOf(suite, log[..|log| - 1])
      + (if last.Sent? && Wire(suite, last.key, last.payload, last.nonce).Ok?
         then Wire(suite, last.key, last.payload, last.nonce).value else [])
  }

  /** The fields of the client are what its history says. */
  ghost predicate Inv(env: Env, st: Client) {
    && History(env, st.log)
    && st.pending == PendingOf(st.log)
    && st.link.key == InstalledOf(st.log)
    && Consistent(st.link)
    && st.out == OutOf(env.suite, st.log)
  }

  /** The entry demands a certain one behind it. */
  predicate Demands(a: Action) {
    a.Offered? || a.Installed? || AcceptsRequest(a) || AcceptsResult(a)
  }

  /** Nothing that the last entry demands is outstanding. */
  ghost predicate Settled(st: Client) {
    st.log == [] || !Demands(st.log[|st.log| - 1])
  }

  ghost predicate Keeps(env: Env, step: Step) {
    Inv(env, step.st) && (step.error.None? ==> Settled(step.st))
  }

  lemma HistoryAppend(env: Env, log: seq<Action>, a: Action)
    requires History(env, log) && EntryOk(env.suite, log + [a], |log|) && CauseOk(env, log + [a], |log|)
    ensures History(env, log + [a])
  {
    hide CauseOk, EntryOk;
    forall n | 0 <= n < |log|
      ensures EntryOk(env.suite, log + [a], n) && CauseOk(env, log + [a], n)
    {
      assert EntryOk(env.suite, log, n) && CauseOk(env, log, n);
      EntrySame(env, log, a, n);
    }
  }

  lemma EntrySame(env: Env, log: seq<Action>, a: Action, n: nat)
    requires n < |log|
    ensures EntryOk(env.suite, log + [a], n) == EntryOk(env.suite, log, n)
    ensures CauseOk(env, log + [a], n) == CauseOk(env, log, n)
  {
    hide Wire, Opened, AcceptsRequest, AcceptsResult, Answers, InstalledOf;
    assert (log + [a])[..n] == log[..n];
    assert forall m :: 0 <= m < |log| ==> (log + [a])[m] == log[m];
  }

  /** An entry that nothing demands, behind one that demands nothing. */
  lemma CausePlain(env: Env, log: seq<Action>, a: Action)
    requires log == [] || !Demands(log[|log| - 1])
    requires !a.Offered? && !a.Installed? && !a.Connected?
    ensures CauseOk(env, log + [a], |log|)
  {
    hide AcceptsRequest, AcceptsResult, Answers;
  }

  lemma OutAppend(suite: Suite, log: seq<Action>, a: Action)
    ensures OutOf(suite, log + [a]) == OutOf(suite, log)
              + (if a.Sent? && Wire(suite, a.key, a.payload, a.nonce).Ok?
                 then Wire(suite, a.key, a.payload, a.nonce).value else [])
  {
    assert (log + [a])[..|log|] == log;
  }

  /** The last call of handleMessage was that of a message whose effect is still to come. */
  predicate Called(st: Client, header: Messages.Header, body: seq<byte>) {
    st.log != [] && st.log[|st.log| - 1] == Handled(header, body)
  }

  /** Appending a good entry keeps the invariant when the fields move as the entry says. */
  lemma Extend(env: Env, st: Client, a: Action, st': Client)
    requires Inv(env, st) && st'.log == st.log + [a] && Consistent(st'.link)
    requires EntryOk(env.suite, st.log + [a], |st.log|) && CauseOk(env, st.log + [a], |st.log|)
    requires st'.pending == if a.Offered? then a.key else if a.Installed? then [] else st.pending
    requires st'.link.key == if a.Installed? && st.pending != [] then st.pending else st.link.key
    requires st'.out == st.out + (if a.Sent? && Wire(env.suite, a.key, a.payload, a.nonce).Ok?
                                  then Wire(env.suite, a.key, a.payload, a.nonce).value else [])
    ensures Inv(env, st')
  {
    hide PendingOf, InstalledOf, OutOf, Wire, EntryOk, CauseOk, History;
    OutAppend(env.suite, st.log, a);
    AppendOf(st.log, a);
    HistoryAppend(env, st.log, a);
  }

  /** Entries that say nothing about keys. */
  lemma LogPlain(env: Env, st: Client, a: Action)
    requires Inv(env, st) && Settled(st)
    requires a.Handled? || a.HeartbeatStarted? || a.LoggedOn?
    ensures Inv(env, st.Logged(a)) && (Settled(st.Logged(a)) <==> !Demands(a))
  {
    hide History, CauseOk, AcceptsRequest, AcceptsResult, PendingOf, InstalledOf, OutOf;
    CausePlain(env, st.log, a);
    Extend(env, st, a, st.Logged(a));
  }

  lemma WriteKeeps(env: Env, st: Client, header: Messages.Header, body: seq<byte>)
    requires Inv(env, st) && Settled(st)
    ensures Keeps(env, Write(env, st, header, body)) && Settled(Write(env, st, header, body).st)
  {
    hide HeaderBytes, Wire, Inv, CauseOk;
    var payload := HeaderBytes(env.codec, header) + body;
    var nonce := env.nonces(st.draws);
    var st' := Write(env, st, header, body).st;
    if TcpConnection.Sent(env.suite, st.link, payload, nonce).Ok? {
      SentKeeps(env, st, payload, nonce, st');
    } else {
      SameKeys(env, st, st');
    }
  }

  lemma SentKeeps(env: Env, st: Client, payload: seq<byte>, nonce: Nonce, st': Client)
    requires Inv(env, st) && Wire(env.suite, st.link.key, payload, nonce).Ok?
    requires Settled(st) || CauseOk(env, st.log + [Sent(st.link.key, nonce, payload)], |st.log|)
    requires st'.link == st.link && st'.pending == st.pending
    requires st'.log == st.log + [Sent(st.link.key, nonce, payload)]
    requires st'.out == st.out + Wire(env.suite, st.link.key, payload, nonce).value
    ensures Inv(env, st') && Settled(st')
  {
    hide Wire, CauseOk, PendingOf, InstalledOf, OutOf, History;
    var a := Sent(st.link.key, nonce, payload);
    if Settled(st) {
      CausePlain(env, st.log, a);
    }
    assert (st.log + [a])[..|st.log|] == st.log;
    Extend(env, st, a, st');
  }

  lemma SameKeys(env: Env, st: Client, st': Client)
    requires Inv(env, st)
    requires st'.link == st.link && st'.out == st.out && st'.pending == st.pending && st'.log == st.log
    ensures Inv(env, st') && (Settled(st') <==> Settled(st))
  {
  }

  lemma RequestKeeps(env: Env, st: Client, header: Messages.Header, body: seq<byte>)
    requires Inv(env, st) && Called(st, header, body) && header.emsg == EMSG_CHANNEL_ENCRYPT_REQUEST
    ensures Keeps(env, EncryptRequest(env, st, header, body))
  {
    hide Write, Inv, U32;
    var request := st.log[|st.log| - 1];
    match env.keys(st.draws)
    case None =>
    case Some((plain, encrypted)) =>
      if AcceptsRequest(request) {
        var a := Offered(plain);
        var st1 := st.(draws := st.draws + 1, pending := plain).Logged(a);
        OfferKeeps(env, st, request, plain, st1);
        AnswerKeeps(env, st1, request, st.draws);
      }
  }

  lemma OfferKeeps(env: Env, st: Client, request: Action, plain: Key, st': Client)
    requires Inv(env, st) && st.log != [] && st.log[|st.log| - 1] == request && AcceptsRequest(request)
    requires st' == st.(draws := st'.draws, pending := plain).Logged(Offered(plain))
    ensures Inv(env, st')
  {
    hide PendingOf, InstalledOf, OutOf, Wire, History, U32;
    Extend(env, st, Offered(plain), st');
  }

  lemma AnswerKeeps(env: Env, st: Client, request: Action, d: nat)
    requires Inv(env, st) && |st.log| > 1 && st.log[|st.log| - 2] == request && AcceptsRequest(request)
    requires env.keys(d).Some? && st.log[|st.log| - 1] == Offered(env.keys(d).value.0)
    ensures var response := Response(env.codec, env.keys(d).value.1, NonceOf(request.body[8..]));
            Keeps(env, Write(env, st, ResponseHeader(request.header), response))
  {
    hide Inv, U32, HeaderBytes, Response, Wire, NonceOf, ParseKeyResponse;
    var encrypted := env.keys(d).value.1;
    var response := Response(env.codec, encrypted, NonceOf(request.body[8..]));
    var payload := HeaderBytes(env.codec, ResponseHeader(request.header)) + response;
    var nonce := env.nonces(st.draws);
    var st' := Write(env, st, ResponseHeader(request.header), response).st;
    ResponseReadable(env.codec, request.header, encrypted, NonceOf(request.body[8..]));
    assert Answers(env, request, env.keys(d).value.0, payload);
    if TcpConnection.Sent(env.suite, st.link, payload, nonce).Ok? {
      SentKeeps(env, st, payload, nonce, st');
    } else {
      SameKeys(env, st, st');
    }
  }

  lemma ResultKeeps(env: Env, st: Client, header: Messages.Header, body: seq<byte>)
    requires Inv(env, st) && Called(st, header, body) && header.emsg == EMSG_CHANNEL_ENCRYPT_RESULT
    ensures Keeps(env, EncryptResult(st, body))
  {
    hide OutOf, History, U32, PendingOf, InstalledOf;
    if |body| >= 4 && U32(body[..4]) == 1 {
      var link := Apply(st.link, SetKey(st.pending));
      var st1 := st.(link := link, pending := []).Logged(Installed);
      Extend(env, st, Installed, st1);
      var a := Connected(link.key != []);
      assert (st1.log + [a])[..|st1.log|] == st1.log;
      Extend(env, st1, a, st1.Logged(a));
    }
  }

  lemma LogOnKeeps(env: Env, st: Client, header: Messages.Header, body: seq<byte>)
    requires Inv(env, st) && Settled(st)
    ensures Keeps(env, LogOnResponse(env, st, header, body))
  {
    hide Write, Inv, Settled;
    match env.codec.unmarshalLogon(body)
    case None =>
    case Some(response) =>
      if response.eresult == 1 && response.heartbeatSeconds.Some? && response.heartbeatSeconds.value > 0 {
        var proto := GetOr(header.proto, UNSET);
        var steamID, sessionID := GetOr(proto.steamid, 0), GetOr(proto.clientSessionid, 0);
        var st1 := st.(steamID := steamID, sessionID := sessionID);
        SameKeys(env, st, st1);
        LogPlain(env, st1, HeartbeatStarted(response.heartbeatSeconds.value));
        var st2 := st1.Logged(HeartbeatStarted(response.heartbeatSeconds.value));
        LogPlain(env, st2, LoggedOn(steamID, sessionID));
        WriteKeeps(env, st2.Logged(LoggedOn(steamID, sessionID)), ItemRequest(steamID, sessionID), []);
      }
  }

  lemma DispatchKeeps(env: Env, st: Client, header: Messages.Header, body: seq<byte>)
    requires Inv(env, st) && Called(st, header, body)
    ensures Keeps(env, Dispatch(env, st, header, body))
  {
    hide EncryptRequest, EncryptResult, LogOnResponse, Inv;
    if header.emsg == EMSG_CHANNEL_ENCRYPT_REQUEST {
      RequestKeeps(env, st, header, body);
    } else if header.emsg == EMSG_CHANNEL_ENCRYPT_RESULT {
      ResultKeeps(env, st, header, body);
    } else {
      LogOnKeeps(env, st, header, body);
    }
  }

  lemma {:induction false} ReadMessageKeeps(env: Env, st: Client, data: seq<byte>, unzips: nat)
    requires Inv(env, st) && Settled(st)
    ensures Keeps(env, ReadMessage(env, st, data, unzips))
    decreases unzips, |data|, 3
  {
    hide Inv, Settled, ParseMessage, HandleMessage;
    match ParseMessage(env.codec, data)
    case Err(e) =>
    case Ok((header, body)) =>
      ParseShrinks(env.codec, data);
      HandleMessageKeeps(env, st, header, body, unzips);
  }

  lemma {:induction false} HandleMessageKeeps(env: Env, st: Client, header: Messages.Header, body: seq<byte>,
                                              unzips: nat)
    requires Inv(env, st) && Settled(st)
    ensures Keeps(env, HandleMessage(env, st, header, body, unzips))
    decreases unzips, |body|, 2
  {
    hide Inv, Settled, Dispatch, MultiData, SubMessages;
    var called := st.Logged(Handled(header, body));
    LogPlain(env, st, Handled(header, body));
    if header.emsg == EMSG_MULTI {
      assert HandleMessage(env, st, header, body, unzips) == HandleMulti(env, called, body, unzips);
      match MultiData(env.codec, body)
      case Err(e) =>
      case Ok((data, zipped)) =>
        if !zipped {
          SubMessagesKeep(env, called, data, unzips);
        } else if unzips > 0 {
          SubMessagesKeep(env, called, data, unzips - 1);
        }
    } else {
      DispatchKeeps(env, called, header, body);
    }
  }

  lemma {:induction false} SubMessagesKeep(env: Env, st: Client, data: seq<byte>, unzips: nat)
    requires Inv(env, st) && Settled(st)
    ensures Keeps(env, SubMessages(env, st, data, unzips))
    decreases unzips, |data|, 0
  {
    hide Inv, Settled, SplitSubMessage, ReadMessage;
    if data != [] {
      match SplitSubMessage(data)
      case Err(e) =>
      case Ok((message, rest)) =>
        ReadMessageKeeps(env, st, message, unzips);
        var first := ReadMessage(env, st, message, unzips);
        if first.error.None? {
          SubMessagesKeep(env, first.st, rest, unzips);
        }
    }
  }

  lemma ReadFrameKeeps(env: Env, st: Client, stream: seq<byte>, unzips: nat)
    requires Inv(env, st) && Settled(st)
    ensures Keeps(env, ReadFrame(env, st, stream, unzips))
  {
    hide ReadMessage, ReadRaw, Opened, CauseOk, PendingOf, InstalledOf, OutOf, History;
    match ReadPacket(env.suite, st.link.key, stream)
    case Err(e) =>
    case Ok(packet) =>
      var a := Frame(st.link.key, packet.raw, packet.body);
      assert (st.log + [a])[..|st.log|] == st.log;
      CausePlain(env, st.log, a);
      Extend(env, st, a, st.Logged(a));
      ReadMessageKeeps(env, st.Logged(a), packet.body, unzips);
  }

  lemma OneInputKeeps(env: Env, st: Client, input: Input, unzips: nat)
    requires Inv(env, st) && Settled(st)
    ensures Keeps(env, OneInput(env, st, input, unzips))
  {
    hide ReadFrame, Write;
    match input
    case OneFrame(stream) => ReadFrameKeeps(env, st, stream, unzips);
    case CloseIt =>
    case UserWrite(header, body) => WriteKeeps(env, st, header, body);
  }

  /** Every session, from the start and with any packets, calls of Close and calls of Write in any order, keeps the
      fields in step with the history, and the history well-formed. */
  lemma {:induction false} SessionKeeps(env: Env, st: Client, inputs: seq<Input>, unzips: nat)
    requires Inv(env, st) && Settled(st)
    ensures Keeps(env, Session(env, st, inputs, unzips))
    decreases |inputs|
  {
    hide OneInput, Inv, Settled;
    if inputs != [] {
      OneInputKeeps(env, st, inputs[0], unzips);
      var first := OneInput(env, st, inputs[0], unzips);
      if first.error.None? {
        SessionKeeps(env, first.st, inputs[1..], unzips);
      }
    }
  }

  lemma {:induction false} RunKeeps(env: Env, st: Client, stream: seq<byte>, unzips: nat)
    requires Inv(env, st) && Settled(st)
    ensures Keeps(env, Run(env, st, stream, unzips))
    decreases |stream|
  {
    hide ReadMessage, Inv, Settled;
    if st.link.state != Disconnecting {
      ReadFrameKeeps(env, st, stream, unzips);
      var first := ReadFrame(env, st, stream, unzips);
      if first.error.None? {
        RunKeeps(env, first.st, ReadPacket(env.suite, st.link.key, stream).value.rest, unzips);
      }
    }
  }

  lemma StartKeeps(env: Env)
    ensures Inv(env, START) && Settled(START)
  {
  }

  // ---- the guarantees ----

  lemma ProperOffersOf(env: Env, log: seq<Action>, n: nat)
    requires History(env, log) && n <= |log|
    ensures ProperOffers(log[..n])
  {
    hide EntryOk, CauseOk;
    forall j | 0 <= j < n && log[..n][j].Offered?
      ensures |log[..n][j].key| == 32
    {
      OfferedKey(env, log, j);
    }
  }

  lemma OfferedKey(env: Env, log: seq<Action>, j: nat)
    requires History(env, log) && j < |log| && log[j].Offered?
    ensures |log[j].key| == 32
  {
    hide CauseOk;
    assert EntryOk(env.suite, log, j);
  }

  /** Installed keys are proper keys. */
  lemma {:induction false} InstalledProper(log: seq<Action>)
    requires ProperOffers(log)
    ensures |PendingOf(log)| == 0 || |PendingOf(log)| == 32
    ensures |InstalledOf(log)| == 0 || |InstalledOf(log)| == 32
  {
    if log != [] {
      assert ProperOffers(log[..|log| - 1]);
      InstalledProper(log[..|log| - 1]);
    }
  }

  /** Every packet of a history was sent with a proper key or none, and was accepted for sending. */
  lemma SentProperly(env: Env, log: seq<Action>, n: nat)
    requires History(env, log) && n < |log| && log[n].Sent?
    ensures |log[n].key| == 0 || |log[n].key| == 32
    ensures log[n].payload != []
  {
    hide CauseOk, Framing.Frame, EncryptedWithHmacIv;
    assert EntryOk(env.suite, log, n);
    ProperOffersOf(env, log, n);
    InstalledProper(log[..n]);
  }

  /** Offers are the traces of accepted Requests and installs those of Results of 1, each in the entry after the
      message, in both directions. */
  ghost predicate LabelsAreMessages(log: seq<Action>) {
    && (log != [] ==> !log[0].Offered? && !log[0].Installed?)
    && (forall n :: 0 < n < |log| ==> (log[n].Offered? <==> AcceptsRequest(log[n - 1])))
    && (forall n :: 0 < n < |log| ==> (log[n].Installed? <==> AcceptsResult(log[n - 1])))
  }

  lemma HistoryLabels(env: Env, log: seq<Action>)
    requires History(env, log)
    ensures LabelsAreMessages(log)
  {
    hide EntryOk, AcceptsRequest, AcceptsResult, Answers;
    assert log != [] ==> CauseOk(env, log, 0);
    forall n | 0 < n < |log|
      ensures log[n].Offered? <==> AcceptsRequest(log[n - 1])
      ensures log[n].Installed? <==> AcceptsResult(log[n - 1])
    {
      assert CauseOk(env, log, n);
    }
  }

  /** The installed and the pending key of a client after any session, told from its history alone: the pending one
      is the last offer if no Result of 1 came after it, and the installed one is the offer of the latest accepted
      Request before the latest Result of 1 that found a pending key. */
  lemma SessionKeys(env: Env, inputs: seq<Input>, unzips: nat, k: seq<byte>)
    requires k != []
    ensures var st := Session(env, START, inputs, unzips).st;
            && Consistent(st.link)
            && (st.pending == k <==> exists j :: OfferStands(st.log, j, |st.log|) && st.log[j].key == k)
            && (st.link.key == k <==> exists j, i :: InForce(st.log, j, i) && st.log[j].key == k)
            && LabelsAreMessages(st.log)
            && st.out == OutOf(env.suite, st.log)
  {
    hide Session, History, OutOf, LabelsAreMessages;
    StartKeeps(env);
    SessionKeeps(env, START, inputs, unzips);
    var st := Session(env, START, inputs, unzips).st;
    ProperOffersOf(env, st.log, |st.log|);
    HistoryLabels(env, st.log);
    assert st.log[..|st.log|] == st.log;
    PendingMeaning(st.log, k);
    InstalledMeaning(st.log, k);
  }

  /** EventConnected finds the connection keyed exactly when some Request was accepted before it. */
  lemma ConnectedIsKeyed(env: Env, log: seq<Action>, n: nat)
    requires History(env, log) && n < |log| && log[n].Connected?
    ensures n > 1 && log[n - 1].Installed? && AcceptsResult(log[n - 2])
    ensures log[n].keyed <==> exists j :: 0 <= j < n && AcceptsRequest(log[j])
  {
    hide Opened, Wire, U32, Answers;
    assert EntryOk(env.suite, log, n) && CauseOk(env, log, n) && CauseOk(env, log, n - 1);
    var before := log[..n];
    ProperOffersOf(env, log, n);
    HistoryLabels(env, log);
    assert PendingOf(before) == [];
    forall j | 0 <= j < n && AcceptsRequest(log[j])
      ensures log[n].keyed
    {
      assert log[j + 1].Offered?;
      OfferLeavesKey(before, j + 1);
    }
    if log[n].keyed {
      InstalledIff(before);
      var j, i :| Installs(before, j, i);
      assert log[j].Offered? && j > 0;
      assert AcceptsRequest(log[j - 1]);
    }
  }

  /** A Result of 1 that finds no key, neither pending nor installed, leaves the connection in plain text and still
      raises EventConnected. */
  lemma ConnectedInPlain(env: Env, st: Client, header: Messages.Header, body: seq<byte>, unzips: nat)
    requires AcceptsResult(Handled(header, body)) && st.pending == [] && st.link.key == []
    ensures var called := st.Logged(Handled(header, body));
            HandleMessage(env, st, header, body, unzips)
            == Step(called.(pending := []).Logged(Installed).Logged(Connected(false)), None)
  {
  }

  /** It happens to a new client whose first packet is such a Result. */
  lemma FirstResult(env: Env, target: uint64, source: uint64)
    returns (stream: seq<byte>)
    ensures var header := Header(EMSG_CHANNEL_ENCRYPT_RESULT, None, target, source, 0, 0);
            var r := Session(env, START, [OneFrame(stream)], 0);
            && r.error == None && r.st.link == INITIAL
            && |r.st.log| == 4 && r.st.log[0].Frame?
            && r.st.log[1..] == [Handled(header, LE(1, 4)), Installed, Connected(false)]
  {
    hide LE, UnLE, And, ReadRaw, ParseMessage, HandleMessage, Framing.Frame;
    var header := Header(EMSG_CHANNEL_ENCRYPT_RESULT, None, target, source, 0, 0);
    var data := StandardMessage(EMSG_CHANNEL_ENCRYPT_RESULT, target, source, LE(1, 4));
    stream := Framing.Frame(data) + [];
    ReadRawFrame(data, []);
    SmallMod(|data|, 0x1_0000_0000);
    assert (data + [])[..|data|] == data && (data + [])[|data|..] == [];
    StandardParses(env.codec, EMSG_CHANNEL_ENCRYPT_RESULT, target, source, LE(1, 4));
    var st := START.Logged(Frame([], data, data));
    assert U32(LE(1, 4)[..4]) == 1 by { EMsgField(1, []); assert LE(1, 4) + [] == LE(1, 4); }
    ConnectedInPlain(env, st, header, LE(1, 4), 0);
    var r := ReadMessage(env, st, data, 0);
    assert Session(env, r.st, [], 0) == Step(r.st, None);
    assert [OneFrame(stream)][1..] == [];
  }

  /** A key is installed exactly when some Result of 1 found one pending. */
  lemma InstalledIff(log: seq<Action>)
    requires ProperOffers(log)
    ensures InstalledOf(log) != [] <==> exists j, i :: Installs(log, j, i)
  {
    if InstalledOf(log) != [] {
      InstalledMeaning(log, InstalledOf(log));
    }
    forall j, i | Installs(log, j, i)
      ensures InstalledOf(log) != []
    {
      assert log[..i + 1][..i] == log[..i];
      InstallsAt(log, j, i);
      InstalledStays(log, i + 1);
    }
  }

  lemma InstallsAt(log: seq<Action>, j: int, i: int)
    requires ProperOffers(log) && Installs(log, j, i)
    ensures InstalledOf(log[..i + 1]) == log[j].key
  {
    var l := log[..i + 1];
    assert forall m :: 0 <= m <= i ==> l[m] == log[m];
    assert Installs(l, j, i);
    InstallsLast(l, j);
  }

  /** The boundary between plaintext and ciphertext. Up to and including the packet that carries the first
      key-installing Result, packets are taken as they are; every later one was opened with the key in force. */
  lemma PlaintextBoundary(env: Env, log: seq<Action>, n: nat)
    requires History(env, log) && n < |log| && log[n].Frame?
    ensures if exists j, i :: i < n && Installs(log, j, i)
            then log[n].key != [] && log[n].key == InstalledOf(log[..n])
                 && Decrypted(env.suite, log[n].raw, log[n].key, true) == Ok(log[n].body)
            else log[n].key == [] && log[n].body == log[n].raw
  {
    hide Wire, Decrypted, CauseOk;
    assert EntryOk(env.suite, log, n);
    ProperOffersOf(env, log, n);
    InstalledIff(log[..n]);
    forall j, i
      ensures Installs(log[..n], j, i) <==> i < n && Installs(log, j, i)
    {
      assert forall m :: 0 <= m < n ==> log[..n][m] == log[m];
    }
  }

  /** Whenever a key is installed, its encrypted form went out earlier, in the response to the Request that it was
      made for, right after that Request was accepted and under the key in force before; for the first key that means
      in plain. */
  lemma ResponseBeforeSwitch(env: Env, log: seq<Action>, j: int, i: int)
    requires History(env, log) && Installs(log, j, i)
    ensures 0 < j && j + 1 < i && AcceptsRequest(log[j - 1]) && AcceptsResult(log[i - 1])
    ensures log[j + 1].Sent? && Answers(env, log[j - 1], log[j].key, log[j + 1].payload)
    ensures log[j + 1].key == InstalledOf(log[..j + 1])
    ensures (forall m, p :: p < i ==> !Installs(log, m, p)) ==> log[j + 1].key == []
  {
    hide Wire, Opened, U32, Answers;
    assert CauseOk(env, log, j) && CauseOk(env, log, i) && CauseOk(env, log, j + 1);
    assert EntryOk(env.suite, log, j + 1);
    ProperOffersOf(env, log, j + 1);
    InstalledIff(log[..j + 1]);
    if InstalledOf(log[..j + 1]) != [] {
      var m, p :| Installs(log[..j + 1], m, p);
      assert forall q :: 0 <= q < j + 1 ==> log[..j + 1][q] == log[q];
      assert Installs(log, m, p) && p < i;
    }
  }

  /** All of this holds of the history of every session. */
  lemma SessionHistory(env: Env, inputs: seq<Input>, unzips: nat)
    ensures History(env, Session(env, START, inputs, unzips).st.log)
  {
    hide Session, History;
    StartKeeps(env);
    SessionKeeps(env, START, inputs, unzips);
  }

  /** And of every call of Run on a new client. */
  lemma RunHistory(env: Env, stream: seq<byte>, unzips: nat)
    ensures History(env, Run(env, START, stream, unzips).st.log)
  {
    hide Run, History;
    StartKeeps(env);
    RunKeeps(env, START, stream, unzips);
  }
}
