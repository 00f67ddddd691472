/** The login flow of the credentials identity provider: choice of the guard type, submission of a code, polling and
    the cached identity (identity/credentials.go). The web service, the clock and the context are inputs. */
module AuthFlow {
  import opened Integers
  import opened Wrappers
  import opened Bytes
  import opened Totp

  // ---- guard types ----

  type GuardType = int32

  const UNKNOWN: GuardType := 0
  const EMAIL_CODE: GuardType := 2
  const DEVICE_CODE: GuardType := 3
  const DEVICE_CONFIRMATION: GuardType := 4
  const EMAIL_CONFIRMATION: GuardType := 5
  const MACHINE_TOKEN: GuardType := 6

  const CODE_PRIORITY: seq<GuardType> := [DEVICE_CODE, EMAIL_CODE, MACHINE_TOKEN]
  const CONFIRMATION_PRIORITY: seq<GuardType> := [DEVICE_CONFIRMATION, EMAIL_CONFIRMATION]

  function FirstAllowed(priority: seq<GuardType>, confirmations: seq<GuardType>): Option<GuardType> {
    if priority == [] then None
    else if priority[0] in confirmations then Some(priority[0])
    else FirstAllowed(priority[1..], confirmations)
  }

  /** Type i of the list is allowed and none before it is. */
  ghost predicate IsFirst(priority: seq<GuardType>, confirmations: seq<GuardType>, i: int) {
    && 0 <= i < |priority|
    && priority[i] in confirmations
    && forall j :: 0 <= j < i ==> priority[j] !in confirmations
  }

  /** The picked type is allowed, and no type of higher priority is; nothing is picked exactly when none is allowed. */
  lemma {:induction false} FirstAllowedIs(priority: seq<GuardType>, confirmations: seq<GuardType>)
    ensures var picked := FirstAllowed(priority, confirmations);
            && (picked.None? <==> forall i :: 0 <= i < |priority| ==> priority[i] !in confirmations)
            && (picked.Some? ==> exists i :: IsFirst(priority, confirmations, i) && priority[i] == picked.value)
  {
    if priority != [] && priority[0] !in confirmations {
      FirstAllowedIs(priority[1..], confirmations);
      var picked := FirstAllowed(priority[1..], confirmations);
      if picked.Some? {
        var i :| IsFirst(priority[1..], confirmations, i) && priority[1..][i] == picked.value;
        assert forall j :: 0 < j < i + 1 ==> priority[j] == priority[1..][j - 1];
        assert IsFirst(priority, confirmations, i + 1) && priority[i + 1] == picked.value;
      } else {
        assert forall j :: 0 < j < |priority| ==> priority[j] == priority[1..][j - 1];
      }
    } else if priority != [] {
      assert IsFirst(priority, confirmations, 0) && priority[0] == FirstAllowed(priority, confirmations).value;
    }
  }

  /** The two loops of pickCodeType and pickConfirmationType. */
  method Pick(priority: seq<GuardType>, confirmations: seq<GuardType>) returns (t: GuardType, ok: bool)
    ensures ok <==> exists i :: 0 <= i < |priority| && priority[i] in confirmations
    ensures ok ==> exists i :: IsFirst(priority, confirmations, i) && priority[i] == t
    ensures (if ok then Some(t) else None) == FirstAllowed(priority, confirmations)
    ensures !ok ==> t == UNKNOWN
  {
    var allowed: map<GuardType, ()> := map[];
    var c := 0;
    while c < |confirmations|
      invariant 0 <= c <= |confirmations|
      invariant forall x :: x in allowed <==> x in confirmations[..c]
    {
      assert confirmations[..c + 1] == confirmations[..c] + [confirmations[c]];
      allowed := allowed[confirmations[c] := ()];
      c := c + 1;
    }
    assert confirmations[..c] == confirmations;
    var p := 0;
    while p < |priority|
      invariant 0 <= p <= |priority|
      invariant forall j :: 0 <= j < p ==> priority[j] !in confirmations
      invariant FirstAllowed(priority[p..], confirmations) == FirstAllowed(priority, confirmations)
    {
      assert priority[p..][1..] == priority[p + 1..];
      if priority[p] in allowed {
        assert IsFirst(priority, confirmations, p);
        return priority[p], true;
      }
      p := p + 1;
    }
    return UNKNOWN, false;
  }

  // ---- the flow as a function of its inputs ----

  datatype Identity = Identity(
    steamID: uint64,
    accessToken: string,
    refreshToken: string,
    createdAt: int,
    expiresAt: int)

  datatype AuthSession = AuthSession(
    clientID: uint64,
    requestID: string,
    steamID: uint64,
    allowed: seq<GuardType>)

  datatype PollAnswer = PollError | Polled(accessToken: string, refreshToken: string)

  /** One turn of the polling loop: was the context done before, what the service answered, was it done while
      waiting for the next turn. */
  datatype Turn = Turn(doneBefore: bool, answer: PollAnswer, doneAfter: bool)

  /** No answer, an answer that does not parse as a key or does not encrypt the password, or a good one. */
  datatype PasswordKey = NoKey | UnusableKey | UsableKey

  /** All that one call meets outside. A call that returns takes finitely many turns; after the given ones the
      context is done. */
  datatype Script = Script(
    now: int,                     // the clock when the cache is checked
    passwordKey: PasswordKey,     // the answer to asking for the key that encrypts the password
    begun: Option<AuthSession>,   // the answer to opening a session
    serverTime: Option<int>,
    submitAccepted: bool,
    turns: seq<Turn>,
    created: int)                 // the clock when the identity is made

  datatype AuthError =
    | NilSession | NoAllowedType | PasswordFailed | BeginFailed | NoSharedSecret | TimeFailed | BadSecret | SubmitFailed
    | PollFailed | ContextDone

  /** The requests that go to the service. */
  datatype Request = FetchKey | Begin | QueryTime | Submit(codeType: GuardType, code: string) | Poll

  datatype Outcome = Outcome(
    cache: Option<Identity>,
    result: Result<Identity, AuthError>,
    requests: seq<Request>)

  const HOUR := 3600

  predicate Fresh(cache: Option<Identity>, now: int) {
    cache.Some? && cache.value.expiresAt > now
  }

  /** The tokens, or the error, and how many polls were made. */
  function Polling(turns: seq<Turn>): (Result<(string, string), AuthError>, nat) {
    if turns == [] || turns[0].doneBefore then (Err(ContextDone), 0)
    else if turns[0].answer.PollError? then (Err(PollFailed), 1)
    else if turns[0].answer.refreshToken != "" then (Ok((turns[0].answer.accessToken, turns[0].answer.refreshToken)), 1)
    else if turns[0].doneAfter then (Err(ContextDone), 1)
    else
      var (r, n) := Polling(turns[1..]);
      (r, n + 1)
  }

  function Polls(n: nat): (s: seq<Request>)
    ensures |s| == n && forall i :: 0 <= i < n ==> s[i] == Poll
  {
    seq(n, _ => Poll)
  }

  /** From the polling loop on. */
  function Finish(cache: Option<Identity>, steamID: uint64, script: Script, before: seq<Request>): Outcome {
    var (tokens, n) := Polling(script.turns);
    match tokens
    case Err(e) => Outcome(cache, Err(e), before + Polls(n))
    case Ok((access, refresh)) =>
      var identity := Identity(steamID, access, refresh, script.created, script.created + HOUR);
      Outcome(Some(identity), Ok(identity), before + Polls(n))
  }

  function SubmitCode(cache: Option<Identity>, session: Option<AuthSession>, code: string, script: Script): Outcome {
    if session.None? then Outcome(cache, Err(NilSession), [])
    else
      match FirstAllowed(CODE_PRIORITY, session.value.allowed)
      case None => Outcome(cache, Err(NoAllowedType), [])
      case Some(codeType) =>
        if Fresh(cache, script.now) then Outcome(cache, Ok(cache.value), [])
        else if !script.submitAccepted then Outcome(cache, Err(SubmitFailed), [Submit(codeType, code)])
        else Finish(cache, session.value.steamID, script, [Submit(codeType, code)])
  }

  function Wait(cache: Option<Identity>, session: Option<AuthSession>, script: Script): Outcome {
    if session.None? then Outcome(cache, Err(NilSession), [])
    else if FirstAllowed(CONFIRMATION_PRIORITY, session.value.allowed).None? then Outcome(cache, Err(NoAllowedType), [])
    else if Fresh(cache, script.now) then Outcome(cache, Ok(cache.value), [])
    else Finish(cache, session.value.steamID, script, [])
  }

  /** The shared secret, and the functions that turn it into codes. */
  datatype Credentials = Credentials(sharedSecret: string, decode: string -> Option<seq<byte>>, mac: Hmac)

  function SingleShot(cache: Option<Identity>, credentials: Credentials, script: Script): Outcome {
    if Fresh(cache, script.now) then Outcome(cache, Ok(cache.value), [])
    else if script.passwordKey != UsableKey then Outcome(cache, Err(PasswordFailed), [FetchKey])
    else if script.begun.None? then Outcome(cache, Err(BeginFailed), [FetchKey, Begin])
    else if credentials.sharedSecret == "" then Outcome(cache, Err(NoSharedSecret), [FetchKey, Begin])
    else if script.serverTime.None? then Outcome(cache, Err(TimeFailed), [FetchKey, Begin, QueryTime])
    else
      match credentials.decode(credentials.sharedSecret)
      case None => Outcome(cache, Err(BadSecret), [FetchKey, Begin, QueryTime])
      case Some(secret) =>
        var submit := Submit(DEVICE_CODE, Code(credentials.mac, secret, script.serverTime.value));
        if !script.submitAccepted then Outcome(cache, Err(SubmitFailed), [FetchKey, Begin, QueryTime, submit])
        else Finish(cache, script.begun.value.steamID, script, [FetchKey, Begin, QueryTime, submit])
  }

  datatype Call =
    | CallSubmit(session: Option<AuthSession>, code: string)
    | CallWait(waited: Option<AuthSession>)
    | CallIdentity

  function OneCall(credentials: Credentials, cache: Option<Identity>, call: Call, script: Script): Outcome {
    match call
    case CallSubmit(session, code) => SubmitCode(cache, session, code, script)
    case CallWait(session) => Wait(cache, session, script)
    case CallIdentity => SingleShot(cache, credentials, script)
  }

  // ---- what every call keeps ----

  ghost predicate CacheOk(cache: Option<Identity>) {
    cache.Some? ==> cache.value.refreshToken != ""
  }

  /** Polling stops at the first answer that carries a refresh token: if it succeeds after n polls, the n-th answer is
      the one returned, and the n - 1 before it were answers without a token. */
  lemma {:induction false} PollingStops(turns: seq<Turn>)
    ensures var (r, n) := Polling(turns);
            && n <= |turns|
            && (forall i :: 0 <= i < n - 1 ==> turns[i].answer.Polled? && turns[i].answer.refreshToken == "")
            && (r.Ok? ==> n > 0 && turns[n - 1].answer == Polled(r.value.0, r.value.1) && r.value.1 != "")
            && (r.Err? && n > 0 ==> turns[n - 1].answer.Polled? ==> turns[n - 1].answer.refreshToken == "")
  {
    if turns != [] && !turns[0].doneBefore && turns[0].answer.Polled? && turns[0].answer.refreshToken == ""
       && !turns[0].doneAfter {
      PollingStops(turns[1..]);
      var (r, n) := Polling(turns[1..]);
      assert forall i :: 0 < i < |turns| ==> turns[i] == turns[1..][i - 1];
    }
  }

  /** Polling succeeds exactly when some answer carries a token and nothing before it ended the loop: each earlier turn
      was an answer without a token, and the context was not done up to the poll of that turn. */
  ghost predicate TokenAt(turns: seq<Turn>, k: int) {
    && 0 <= k < |turns|
    && !turns[k].doneBefore && turns[k].answer.Polled? && turns[k].answer.refreshToken != ""
    && forall i :: 0 <= i < k ==> IdleTurn(turns[i])
  }

  predicate IdleTurn(t: Turn) {
    !t.doneBefore && t.answer.Polled? && t.answer.refreshToken == "" && !t.doneAfter
  }

  lemma {:induction false} PollingSucceeds(turns: seq<Turn>)
    ensures Polling(turns).0.Ok? <==> exists k :: TokenAt(turns, k)
  {
    if turns != [] {
      PollingSucceeds(turns[1..]);
      if IdleTurn(turns[0]) {
        forall k
          ensures TokenAt(turns, k) <==> TokenAt(turns[1..], k - 1)
        {
          assert forall i :: 0 < i < |turns| ==> turns[i] == turns[1..][i - 1];
          assert forall i :: 0 <= i < |turns| - 1 ==> turns[1..][i] == turns[i + 1];
        }
        if Polling(turns).0.Ok? {
          var k :| TokenAt(turns[1..], k);
          assert TokenAt(turns, k + 1);
        }
      } else if Polling(turns).0.Ok? {
        assert TokenAt(turns, 0);
      } else {
        assert forall k :: TokenAt(turns, k) ==> k == 0;
      }
    }
  }

  /** The code submission that a call makes, if it gets so far. */
  function Submission(credentials: Credentials, call: Call, script: Script): Option<Request> {
    match call
    case CallSubmit(session, code) =>
      if session.None? || FirstAllowed(CODE_PRIORITY, session.value.allowed).None? then None
      else Some(Submit(FirstAllowed(CODE_PRIORITY, session.value.allowed).value, code))
    case CallWait(_) => None
    case CallIdentity =>
      if script.serverTime.None? || credentials.decode(credentials.sharedSecret).None? then None
      else Some(Submit(DEVICE_CODE, Code(credentials.mac, credentials.decode(credentials.sharedSecret).value,
                                         script.serverTime.value)))
  }

  /** The requests of a call before its first poll, if nothing stops it earlier. */
  function Plan(credentials: Credentials, call: Call, script: Script): seq<Request> {
    var submission := Submission(credentials, call, script);
    (if call.CallIdentity? then [FetchKey, Begin, QueryTime] else [])
    + (if submission.Some? then [submission.value] else [])
  }

  /** Requests in the order the flow allows: a beginning of the plan, and, only behind the whole of it, the polls, as
      many as the polling loop makes. Polls without a submission are for confirmations alone. */
  ghost predicate Ordered(requests: seq<Request>, credentials: Credentials, call: Call, script: Script) {
    var plan := Plan(credentials, call, script);
    exists h: nat, n: nat ::
      && h <= |plan| && requests == plan[..h] + Polls(n)
      && (n > 0 ==> h == |plan| && n == Polling(script.turns).1)
      && (n > 0 && !call.CallWait? ==> Submission(credentials, call, script).Some?)
  }

  lemma PlanOrdered(credentials: Credentials, call: Call, script: Script, h: nat)
    requires h <= |Plan(credentials, call, script)|
    ensures Ordered(Plan(credentials, call, script)[..h], credentials, call, script)
  {
    hide Plan;
    var requests := Plan(credentials, call, script)[..h];
    assert requests + Polls(0) == requests;
  }

  lemma PolledOrdered(credentials: Credentials, call: Call, script: Script)
    requires call.CallWait? || Submission(credentials, call, script).Some?
    ensures Ordered(Plan(credentials, call, script) + Polls(Polling(script.turns).1), credentials, call, script)
  {
    hide Plan, Polling;
    var plan := Plan(credentials, call, script);
    assert plan[..|plan|] == plan;
  }

  lemma CallOrdered(credentials: Credentials, cache: Option<Identity>, call: Call, script: Script)
    ensures Ordered(OneCall(credentials, cache, call, script).requests, credentials, call, script)
  {
    hide FirstAllowed, Code, Ordered, Polling, Polls;
    var plan := Plan(credentials, call, script);
    assert plan[..0] == [];
    PlanOrdered(credentials, call, script, 0);
    PlanOrdered(credentials, call, script, |plan|);
    assert plan[..|plan|] == plan;
    var submission := Submission(credentials, call, script);
    assert call.CallWait? ==> plan == [];
    assert call.CallSubmit? && submission.Some? ==> plan == [submission.value];
    assert call.CallIdentity? && submission.Some? ==> plan == [FetchKey, Begin, QueryTime, submission.value];
    if call.CallIdentity? {
      assert plan[..1] == [FetchKey] && plan[..2] == [FetchKey, Begin] && plan[..3] == [FetchKey, Begin, QueryTime];
      PlanOrdered(credentials, call, script, 1);
      PlanOrdered(credentials, call, script, 2);
      PlanOrdered(credentials, call, script, 3);
    }
    if call.CallWait? || submission.Some? {
      PolledOrdered(credentials, call, script);
    }
  }

  lemma FinishKeeps(cache: Option<Identity>, steamID: uint64, script: Script, before: seq<Request>)
    requires CacheOk(cache)
    ensures var o := Finish(cache, steamID, script, before);
            && CacheOk(o.cache)
            && (o.result.Ok? ==> o.cache == Some(o.result.value) && o.result.value.refreshToken != "")
            && (o.result.Err? ==> o.cache == cache)
            && (o.result.Ok? <==> Polling(script.turns).0.Ok?)
            && (o.result.Ok? ==>
                  var n := Polling(script.turns).1;
                  && 0 < n <= |script.turns|
                  && script.turns[n - 1].answer.Polled?
                  && o.result.value == Identity(steamID, script.turns[n - 1].answer.accessToken,
                                                script.turns[n - 1].answer.refreshToken, script.created,
                                                script.created + HOUR))
  {
    hide Polling;
    PollingStops(script.turns);
  }

  function SessionOf(call: Call, script: Script): Option<AuthSession> {
    match call
    case CallSubmit(session, _) => session
    case CallWait(session) => session
    case CallIdentity => script.begun
  }

  /** A new identity: the account of the session, the tokens of the last poll, and one hour to live. */
  ghost predicate MadeFrom(identity: Identity, call: Call, script: Script) {
    var n := Polling(script.turns).1;
    && SessionOf(call, script).Some? && identity.steamID == SessionOf(call, script).value.steamID
    && 0 < n <= |script.turns|
    && script.turns[n - 1].answer == Polled(identity.accessToken, identity.refreshToken)
    && identity.createdAt == script.created && identity.expiresAt == script.created + HOUR
  }

  /** What a call keeps: the cache stays good; a success returns what is then cached, with a refresh token; a failure
      leaves the cache as it was; an unexpired identity is returned without a request; and the requests are a
      beginning of the plan, followed, behind the whole of it, by the polls. */
  ghost predicate Kept(credentials: Credentials, cache: Option<Identity>, call: Call, script: Script, o: Outcome) {
    && CacheOk(o.cache)
    && (o.result.Ok? ==> o.cache == Some(o.result.value) && o.result.value.refreshToken != "")
    && (o.result.Err? ==> o.cache == cache)
    && (o.result.Ok? && Fresh(cache, script.now) ==> o.cache == cache && o.requests == [])
    && (o.result.Ok? && !Fresh(cache, script.now) ==> MadeFrom(o.result.value, call, script))
    && Ordered(o.requests, credentials, call, script)
  }

  lemma CallKeeps(credentials: Credentials, cache: Option<Identity>, call: Call, script: Script)
    requires CacheOk(cache)
    ensures Kept(credentials, cache, call, script, OneCall(credentials, cache, call, script))
  {
    hide FirstAllowed, Code, Ordered, Finish, Submission, Plan;
    CallOrdered(credentials, cache, call, script);
    match call
    case CallSubmit(session, code) =>
      if session.Some? && FirstAllowed(CODE_PRIORITY, session.value.allowed).Some? {
        var codeType := FirstAllowed(CODE_PRIORITY, session.value.allowed).value;
        FinishKeeps(cache, session.value.steamID, script, [Submit(codeType, code)]);
      }
    case CallWait(session) =>
      if session.Some? {
        FinishKeeps(cache, session.value.steamID, script, []);
      }
    case CallIdentity =>
      if script.begun.Some? && script.serverTime.Some? && credentials.decode(credentials.sharedSecret).Some? {
        var secret := credentials.decode(credentials.sharedSecret).value;
        var submit := Submit(DEVICE_CODE, Code(credentials.mac, secret, script.serverTime.value));
        FinishKeeps(cache, script.begun.value.steamID, script, [FetchKey, Begin, QueryTime, submit]);
      }
  }

  /** When a call succeeds: the session allows a type of the right kind, and either the cached identity has not expired
      or the submission, where there is one, is accepted and polling finds a token. */
  lemma SucceedsIff(credentials: Credentials, cache: Option<Identity>, session: Option<AuthSession>, code: string,
                    script: Script)
    ensures SubmitCode(cache, session, code, script).result.Ok? <==>
            && session.Some?
            && (exists t :: t in CODE_PRIORITY && t in session.value.allowed)
            && (Fresh(cache, script.now) || (script.submitAccepted && exists k :: TokenAt(script.turns, k)))
    ensures Wait(cache, session, script).result.Ok? <==>
            && session.Some?
            && (exists t :: t in CONFIRMATION_PRIORITY && t in session.value.allowed)
            && (Fresh(cache, script.now) || exists k :: TokenAt(script.turns, k))
    ensures SingleShot(cache, credentials, script).result.Ok? <==>
            || Fresh(cache, script.now)
            || (&& script.passwordKey == UsableKey && script.begun.Some?
                && credentials.sharedSecret != "" && script.serverTime.Some?
                && credentials.decode(credentials.sharedSecret).Some? && script.submitAccepted
                && exists k :: TokenAt(script.turns, k))
  {
    hide FirstAllowed, Code, TokenAt, Polling, Fresh, Polls;
    PollingSucceeds(script.turns);
    if session.Some? {
      AllowedIff(CODE_PRIORITY, session.value.allowed);
      AllowedIff(CONFIRMATION_PRIORITY, session.value.allowed);
    }
  }

  /** The session of the call, where it takes one, allows a type of the right kind. */
  ghost predicate Allowed(call: Call) {
    match call
    case CallSubmit(session, _) => session.Some? && exists t :: t in {2, 3, 6} && t in session.value.allowed
    case CallWait(session) => session.Some? && exists t :: t in {4, 5} && t in session.value.allowed
    case CallIdentity => true
  }

  lemma AllowedPicks(call: Call)
    ensures call.CallSubmit? ==>
              (Allowed(call) <==>
                call.session.Some? && FirstAllowed(CODE_PRIORITY, call.session.value.allowed).Some?)
    ensures call.CallWait? ==>
              (Allowed(call) <==>
                call.waited.Some? && FirstAllowed(CONFIRMATION_PRIORITY, call.waited.value.allowed).Some?)
  {
    hide FirstAllowed;
    if call.CallSubmit? && call.session.Some? {
      AllowedIff(CODE_PRIORITY, call.session.value.allowed);
    }
    if call.CallWait? && call.waited.Some? {
      AllowedIff(CONFIRMATION_PRIORITY, call.waited.value.allowed);
    }
  }

  /** An identity that has not expired is returned as it is, without a request, whatever the service would do. */
  lemma CachedReturned(credentials: Credentials, identity: Identity, call: Call, script: Script)
    requires identity.expiresAt > script.now && Allowed(call)
    ensures OneCall(credentials, Some(identity), call, script) == Outcome(Some(identity), Ok(identity), [])
  {
    hide FirstAllowed, Code, Finish;
    AllowedPicks(call);
  }

  /** Without one, a success has polled: the plan was carried out in full, the polls came behind it, as many as the
      loop made, and the identity returned is the new one, made of the last answer. */
  lemma ExpiredPolls(credentials: Credentials, cache: Option<Identity>, call: Call, script: Script)
    requires cache.Some? ==> cache.value.expiresAt <= script.now
    requires OneCall(credentials, cache, call, script).result.Ok?
    ensures var o := OneCall(credentials, cache, call, script);
            var n := Polling(script.turns).1;
            && 0 < n <= |script.turns| && o.requests == Plan(credentials, call, script) + Polls(n)
            && o.requests[|o.requests| - 1] == Poll
            && o.cache == Some(o.result.value)
            && o.result.value.createdAt == script.created && o.result.value.expiresAt == script.created + 3600
            && script.turns[n - 1].answer == Polled(o.result.value.accessToken, o.result.value.refreshToken)
  {
    hide FirstAllowed, Code, Polling, Polls;
    PollingStops(script.turns);
    assert Plan(credentials, CallWait(None), script) == [];
  }

  /** The plans in full. The code type is the first allowed one of device code, email code and machine token. */
  lemma PlanIs(credentials: Credentials, call: Call, script: Script)
    ensures call.CallWait? ==> Plan(credentials, call, script) == []
    ensures call.CallSubmit? && Allowed(call) ==>
              var allowed := call.session.value.allowed;
              var t := if 3 in allowed then 3 else if 2 in allowed then 2 else 6;
              t in allowed && Plan(credentials, call, script) == [Submit(t, call.code)]
    ensures call.CallIdentity? && script.serverTime.Some? && credentials.decode(credentials.sharedSecret).Some? ==>
              var secret := credentials.decode(credentials.sharedSecret).value;
              Plan(credentials, call, script)
              == [FetchKey, Begin, QueryTime, Submit(3, Code(credentials.mac, secret, script.serverTime.value))]
  {
    hide Code;
    if call.CallSubmit? && Allowed(call) {
      AllowedPicks(call);
      FirstOfThree(call.session.value.allowed);
    }
  }

  lemma FirstOfThree(allowed: seq<GuardType>)
    ensures FirstAllowed(CODE_PRIORITY, allowed)
         == if 3 in allowed then Some(3) else if 2 in allowed then Some(2) else if 6 in allowed then Some(6) else None
  {
    assert CODE_PRIORITY[1..] == [2, 6] && [2, 6][1..] == [6] && [6][1..] == [];
    assert FirstAllowed([6], allowed) == if 6 in allowed then Some(6) else FirstAllowed([], allowed);
    assert FirstAllowed([2, 6], allowed) == if 2 in allowed then Some(2) else FirstAllowed([6], allowed);
  }

  /** How far Identity gets before it fails, and with which error: each failure comes after the requests before it and
      before those behind it. */
  lemma IdentityRefused(credentials: Credentials, cache: Option<Identity>, script: Script)
    requires cache.Some? ==> cache.value.expiresAt <= script.now
    ensures var o := OneCall(credentials, cache, CallIdentity, script);
            var unkeyed := script.passwordKey != UsableKey;
            var unopened := script.begun.None?;
            var secretless := credentials.sharedSecret == "";
            && (unkeyed ==> o == Outcome(cache, Err(PasswordFailed), [FetchKey]))
            && (!unkeyed && unopened ==> o == Outcome(cache, Err(BeginFailed), [FetchKey, Begin]))
            && (!unkeyed && !unopened && secretless ==> o == Outcome(cache, Err(NoSharedSecret), [FetchKey, Begin]))
            && (!unkeyed && !unopened && !secretless && script.serverTime.None? ==>
                  o == Outcome(cache, Err(TimeFailed), [FetchKey, Begin, QueryTime]))
            && (!unkeyed && !unopened && !secretless && script.serverTime.Some?
                && credentials.decode(credentials.sharedSecret).None? ==>
                  o == Outcome(cache, Err(BadSecret), [FetchKey, Begin, QueryTime]))
            && (!unkeyed && !unopened && !secretless && script.serverTime.Some?
                && credentials.decode(credentials.sharedSecret).Some? && !script.submitAccepted ==>
                  o == Outcome(cache, Err(SubmitFailed), Plan(credentials, CallIdentity, script)))
  {
    hide Finish, Code;
  }

  /** A refused code ends SubmitSteamGuardCode before any poll. */
  lemma CodeRefused(credentials: Credentials, cache: Option<Identity>, call: Call, script: Script)
    requires call.CallSubmit? && Allowed(call) && !script.submitAccepted
    requires cache.Some? ==> cache.value.expiresAt <= script.now
    ensures OneCall(credentials, cache, call, script)
         == Outcome(cache, Err(SubmitFailed), Plan(credentials, call, script))
  {
    hide FirstAllowed, Finish;
    AllowedPicks(call);
  }

  /** The first two refusals, which come before the cache is looked at. */
  lemma SessionRefused(credentials: Credentials, cache: Option<Identity>, call: Call, script: Script)
    requires !call.CallIdentity? && !Allowed(call)
    ensures var none := if call.CallSubmit? then call.session.None? else call.waited.None?;
            OneCall(credentials, cache, call, script)
            == Outcome(cache, Err(if none then NilSession else NoAllowedType), [])
  {
    hide FirstAllowed, Finish;
    AllowedPicks(call);
  }

  lemma AllowedIff(priority: seq<GuardType>, confirmations: seq<GuardType>)
    ensures FirstAllowed(priority, confirmations).Some? <==> exists t :: t in priority && t in confirmations
  {
    FirstAllowedIs(priority, confirmations);
    if FirstAllowed(priority, confirmations).None? {
      forall t | t in priority
        ensures t !in confirmations
      {
        var i :| 0 <= i < |priority| && priority[i] == t;
      }
    }
  }

  /** The outcomes of a list of calls on one provider. */
  function Calls(credentials: Credentials, cache: Option<Identity>, calls: seq<(Call, Script)>): seq<Outcome>
    decreases |calls|
  {
    if calls == [] then []
    else
      var o := OneCall(credentials, cache, calls[0].0, calls[0].1);
      [o] + Calls(credentials, o.cache, calls[1..])
  }

  function CacheBefore(cache: Option<Identity>, outcomes: seq<Outcome>, i: nat): Option<Identity>
    requires i <= |outcomes|
  {
    if i == 0 then cache else outcomes[i - 1].cache
  }

  /** Over every run of calls on a new provider, every single call keeps its promises: each cached identity and each
      returned one has a refresh token, each failed call leaves the cache of the call before it unchanged, and each
      call submits at most one code, before any poll. */
  lemma {:induction false} RunKeeps(credentials: Credentials, cache: Option<Identity>, calls: seq<(Call, Script)>)
    requires CacheOk(cache)
    ensures var outcomes := Calls(credentials, cache, calls);
            && |outcomes| == |calls|
            && forall i :: 0 <= i < |calls| ==>
                 Kept(credentials, CacheBefore(cache, outcomes, i), calls[i].0, calls[i].1, outcomes[i])
    decreases |calls|
  {
    hide OneCall, Kept;
    if calls != [] {
      CallKeeps(credentials, cache, calls[0].0, calls[0].1);
      var o := OneCall(credentials, cache, calls[0].0, calls[0].1);
      KeptCache(credentials, cache, calls[0].0, calls[0].1, o);
      RunKeeps(credentials, o.cache, calls[1..]);
      var tail := Calls(credentials, o.cache, calls[1..]);
      var outcomes := Calls(credentials, cache, calls);
      forall i | 0 < i < |calls|
        ensures Kept(credentials, CacheBefore(cache, outcomes, i), calls[i].0, calls[i].1, outcomes[i])
      {
        var k := i - 1;
        assert Kept(credentials, CacheBefore(o.cache, tail, k), calls[1..][k].0, calls[1..][k].1, tail[k]);
        assert outcomes == [o] + tail;
      }
    }
  }

  lemma KeptCache(credentials: Credentials, cache: Option<Identity>, call: Call, script: Script, o: Outcome)
    requires Kept(credentials, cache, call, script, o)
    ensures CacheOk(o.cache)
  {
  }

  // ---- the provider object ----

  class CredentialsIdentityProvider {
    const credentials: Credentials
    var identity: Option<Identity>
    ghost var requests: seq<Request>

    constructor (credentials: Credentials)
      ensures this.credentials == credentials && identity == None && requests == []
    {
      this.credentials := credentials;
      identity := None;
      requests := [];
    }

    /** The polling loop, the same in all three methods. */
    method PollForTokens(script: Script) returns (r: Result<(string, string), AuthError>)
      modifies this`requests
      ensures r == Polling(script.turns).0
      ensures requests == old(requests) + Polls(Polling(script.turns).1)
    {
      var i := 0;
      ghost var n := 0;
      while true
        invariant 0 <= i <= |script.turns| && n == i
        invariant requests == old(requests) + Polls(n)
        invariant Polling(script.turns) == (Polling(script.turns[i..]).0, n + Polling(script.turns[i..]).1)
        decreases |script.turns| - i
      {
        if i == |script.turns| || script.turns[i].doneBefore {
          return Err(ContextDone);
        }
        assert script.turns[i..][1..] == script.turns[i + 1..];
        var answer := script.turns[i].answer;
        requests := requests + [Poll];
        assert Polls(n + 1) == Polls(n) + [Poll];
        if answer.PollError? {
          return Err(PollFailed);
        }
        if answer.refreshToken != "" {
          return Ok((answer.accessToken, answer.refreshToken));
        }
        if script.turns[i].doneAfter {
          return Err(ContextDone);
        }
        i, n := i + 1, n + 1;
      }
    }

    method Complete(steamID: uint64, script: Script, ghost cache: Option<Identity>, ghost before: seq<Request>)
      returns (r: Result<Identity, AuthError>)
      modifies this`identity, this`requests
      requires identity == cache
      ensures var o := Finish(cache, steamID, script, before);
              && r == o.result && identity == o.cache
              && old(requests) <= requests && before + requests[|old(requests)|..] == o.requests
    {
      var tokens := PollForTokens(script);
      assert requests[|old(requests)|..] == Polls(Polling(script.turns).1);
      if tokens.Err? {
        return Err(tokens.error);
      }
      var made := Identity(steamID, tokens.value.0, tokens.value.1, script.created, script.created + HOUR);
      identity := Some(made);
      return Ok(made);
    }

    method SubmitSteamGuardCode(session: Option<AuthSession>, code: string, script: Script)
      returns (r: Result<Identity, AuthError>)
      modifies this`identity, this`requests
      ensures var o := OneCall(credentials, old(identity), CallSubmit(session, code), script);
              r == o.result && identity == o.cache && requests == old(requests) + o.requests
    {
      hide FirstAllowed, Polling;
      if session.None? {
        return Err(NilSession);
      }
      var codeType, ok := Pick(CODE_PRIORITY, session.value.allowed);
      if !ok {
        return Err(NoAllowedType);
      }
      if identity.Some? && identity.value.expiresAt > script.now {
        return Ok(identity.value);
      }
      requests := requests + [Submit(codeType, code)];
      if !script.submitAccepted {
        return Err(SubmitFailed);
      }
      r := Complete(session.value.steamID, script, identity, [Submit(codeType, code)]);
    }

    method WaitForConfirmation(session: Option<AuthSession>, script: Script) returns (r: Result<Identity, AuthError>)
      modifies this`identity, this`requests
      ensures var o := OneCall(credentials, old(identity), CallWait(session), script);
              r == o.result && identity == o.cache && requests == old(requests) + o.requests
    {
      hide FirstAllowed, Polling;
      if session.None? {
        return Err(NilSession);
      }
      var _, ok := Pick(CONFIRMATION_PRIORITY, session.value.allowed);
      if !ok {
        return Err(NoAllowedType);
      }
      if identity.Some? && identity.value.expiresAt > script.now {
        return Ok(identity.value);
      }
      r := Complete(session.value.steamID, script, identity, []);
    }

    method FetchIdentity(script: Script) returns (r: Result<Identity, AuthError>)
      modifies this`identity, this`requests
      ensures var o := OneCall(credentials, old(identity), CallIdentity, script);
              r == o.result && identity == o.cache && requests == old(requests) + o.requests
    {
      hide FirstAllowed, Polling, Code;
      if identity.Some? && identity.value.expiresAt > script.now {
        return Ok(identity.value);
      }
      requests := requests + [FetchKey];
      if script.passwordKey != UsableKey {
        return Err(PasswordFailed);
      }
      requests := requests + [Begin];
      if script.begun.None? {
        return Err(BeginFailed);
      }
      if credentials.sharedSecret == "" {
        return Err(NoSharedSecret);
      }
      requests := requests + [QueryTime];
      if script.serverTime.None? {
        return Err(TimeFailed);
      }
      var secret := credentials.decode(credentials.sharedSecret);
      var tfa := CreateAuthenticationCode(credentials.mac, secret, script.serverTime.value);
      if tfa.Err? {
        return Err(BadSecret);
      }
      requests := requests + [Submit(DEVICE_CODE, tfa.value)];
      if !script.submitAccepted {
        return Err(SubmitFailed);
      }
      r := Complete(script.begun.value.steamID, script, identity,
                    [FetchKey, Begin, QueryTime, Submit(DEVICE_CODE, tfa.value)]);
    }
  }
}
