/** The stop channels of the heartbeat loops under every interleaving of startHeartbeat and Close
    (protocol/heartbeat.go:12-21, protocol/protocol.go:93-99). */
module StopChannels {
  import opened Wrappers

  datatype Channel = Open | Closed

  /** Where a goroutine stands: outside, waiting for the mutex, or at one of the steps it guards. */
  datatype Pc =
    | Idle
    | StartWaiting | StartChecking | StartReplacing | StartUnlocking
    | CloseWaiting | CloseChecking | CloseClearing | CloseUnlocking
  {
    predicate InSection() {
      !Idle? && !StartWaiting? && !CloseWaiting?
    }
  }

  type ThreadId = nat
  type ChannelId = nat

  datatype System = System(
    mutex: Option<ThreadId>,
    pcs: map<ThreadId, Pc>,
    stopHeartbeat: Option<ChannelId>, // the field; None for nil
    channels: seq<Channel>,           // every channel made so far
    panicked: bool)                   // a closed channel was closed
  {
    function PcOf(t: ThreadId): Pc {
      if t in pcs then pcs[t] else Idle
    }

    function At(t: ThreadId, pc: Pc): System {
      this.(pcs := pcs[t := pc])
    }

    /** close(h.stopHeartbeat) */
    function CloseCurrent(): System {
      if stopHeartbeat.None? || stopHeartbeat.value >= |channels| then this.(panicked := true)
      else if channels[stopHeartbeat.value] == Closed then this.(panicked := true)
      else this.(channels := channels[stopHeartbeat.value := Closed])
    }
  }

  const NEW := System(None, map[], None, [], false)

  /** Which of the two functions an idle goroutine calls next. */
  datatype Choice = CallStart | CallClose

  /** One atomic step of goroutine t. Waiting for a mutex that another goroutine holds changes nothing. */
  function Next(s: System, t: ThreadId, choice: Choice): System {
    match s.PcOf(t)
    case Idle => s.At(t, if choice == CallStart then StartWaiting else CloseWaiting)
    case StartWaiting => if s.mutex.None? then s.(mutex := Some(t)).At(t, StartChecking) else s
    case StartChecking => (if s.stopHeartbeat.Some? then s.CloseCurrent() else s).At(t, StartReplacing)
    case StartReplacing =>
      s.(stopHeartbeat := Some(|s.channels|), channels := s.channels + [Open]).At(t, StartUnlocking)
    case StartUnlocking => s.(mutex := None).At(t, Idle)
    case CloseWaiting => if s.mutex.None? then s.(mutex := Some(t)).At(t, CloseChecking) else s
    case CloseChecking =>
      if s.stopHeartbeat.Some? then s.CloseCurrent().At(t, CloseClearing) else s.At(t, CloseUnlocking)
    case CloseClearing => s.(stopHeartbeat := None).At(t, CloseUnlocking)
    case CloseUnlocking => s.(mutex := None).At(t, Idle)
  }

  /** An interleaving: which goroutine takes each step. */
  function Execute(s: System, schedule: seq<(ThreadId, Choice)>): System
    decreases |schedule|
  {
    if schedule == [] then s else Execute(Next(s, schedule[0].0, schedule[0].1), schedule[1..])
  }

  /** The current channel is open, and it is the only open one. */
  ghost predicate OneOpen(s: System) {
    && (s.stopHeartbeat.Some? ==> s.stopHeartbeat.value < |s.channels|)
    && forall c :: 0 <= c < |s.channels| ==> (s.channels[c] == Open <==> s.stopHeartbeat == Some(c))
  }

  ghost predicate AllClosed(s: System) {
    forall c :: 0 <= c < |s.channels| ==> s.channels[c] == Closed
  }

  /** A goroutine is inside the guarded steps exactly when it holds the mutex. */
  ghost predicate Exclusive(s: System) {
    forall t: ThreadId :: s.PcOf(t).InSection() <==> s.mutex == Some(t)
  }

  /** Between closing the current channel and replacing or clearing it, every channel is closed. */
  ghost predicate ChannelsOk(s: System) {
    if s.mutex.Some? && (s.PcOf(s.mutex.value).StartReplacing? || s.PcOf(s.mutex.value).CloseClearing?)
    then AllClosed(s) else OneOpen(s)
  }

  ghost predicate Inv(s: System) {
    !s.panicked && Exclusive(s) && ChannelsOk(s)
  }

  lemma NextExcludes(s: System, t: ThreadId, choice: Choice)
    requires Exclusive(s)
    ensures Exclusive(Next(s, t, choice))
  {
    var n := Next(s, t, choice);
    assert s.PcOf(t).InSection() <==> s.mutex == Some(t);
    forall u: ThreadId
      ensures n.PcOf(u).InSection() <==> n.mutex == Some(u)
    {
      assert u != t ==> n.PcOf(u) == s.PcOf(u);
      assert s.PcOf(u).InSection() <==> s.mutex == Some(u);
    }
  }

  lemma HoldsMutex(s: System, t: ThreadId)
    requires Exclusive(s)
    ensures s.PcOf(t).InSection() <==> s.mutex == Some(t)
  {
  }

  lemma NextChannels(s: System, t: ThreadId, choice: Choice)
    requires Inv(s)
    ensures !Next(s, t, choice).panicked && ChannelsOk(Next(s, t, choice))
  {
    HoldsMutex(s, t);
    if s.PcOf(t).InSection() {
      InsideChannels(s, t, choice);
    } else {
      OutsideChannels(s, t, choice);
    }
  }

  /** A step outside the guarded ones leaves the channels alone. */
  lemma OutsideChannels(s: System, t: ThreadId, choice: Choice)
    requires !s.panicked && ChannelsOk(s) && !s.PcOf(t).InSection() && s.mutex != Some(t)
    ensures !Next(s, t, choice).panicked && ChannelsOk(Next(s, t, choice))
  {
    hide OneOpen, AllClosed;
    var n := Next(s, t, choice);
    assert n.channels == s.channels && n.stopHeartbeat == s.stopHeartbeat;
    SameChannels(s, n);
    if s.mutex.Some? {
      assert n.PcOf(s.mutex.value) == s.PcOf(s.mutex.value);
    }
  }

  lemma SameChannels(s: System, n: System)
    requires n.channels == s.channels && n.stopHeartbeat == s.stopHeartbeat
    ensures OneOpen(n) == OneOpen(s) && AllClosed(n) == AllClosed(s)
  {
  }

  lemma InsideChannels(s: System, t: ThreadId, choice: Choice)
    requires !s.panicked && ChannelsOk(s) && s.PcOf(t).InSection() && s.mutex == Some(t)
    ensures !Next(s, t, choice).panicked && ChannelsOk(Next(s, t, choice))
  {
  }

  lemma NextKeeps(s: System, t: ThreadId, choice: Choice)
    requires Inv(s)
    ensures Inv(Next(s, t, choice))
  {
    hide Next, Exclusive, ChannelsOk;
    NextExcludes(s, t, choice);
    NextChannels(s, t, choice);
  }

  /** In every interleaving: no channel is closed twice, and whenever the mutex is free the field is nil or holds an
      open channel and every other channel ever made is closed. */
  lemma {:induction false} ClosedSafely(s: System, schedule: seq<(ThreadId, Choice)>)
    requires Inv(s)
    ensures var e := Execute(s, schedule);
            && Inv(e) && !e.panicked
            && (e.mutex.None? ==> OneOpen(e))
    decreases |schedule|
  {
    hide Next, Inv, OneOpen;
    if schedule == [] {
      FreeMutex(s);
    } else {
      NextKeeps(s, schedule[0].0, schedule[0].1);
      ClosedSafely(Next(s, schedule[0].0, schedule[0].1), schedule[1..]);
    }
  }

  lemma FreeMutex(s: System)
    requires Inv(s)
    ensures !s.panicked && (s.mutex.None? ==> OneOpen(s))
  {
  }

  /** In particular in every interleaving of calls on a new client. */
  lemma NewClosedSafely(schedule: seq<(ThreadId, Choice)>)
    ensures !Execute(NEW, schedule).panicked
    ensures Execute(NEW, schedule).mutex.None? ==> OneOpen(Execute(NEW, schedule))
  {
    hide Execute;
    ClosedSafely(NEW, schedule);
  }

  /** What one uninterrupted call does, for comparison with the methods of the Protocol object: startHeartbeat closes
      the channel it replaces and leaves a new open one. */
  lemma StartAlone(s: System, t: ThreadId)
    requires Inv(s) && s.mutex.None? && s.PcOf(t) == Idle
    ensures var e := Execute(s, [(t, CallStart), (t, CallStart), (t, CallStart), (t, CallStart), (t, CallStart)]);
            && e.mutex.None? && e.PcOf(t) == Idle && e.stopHeartbeat == Some(|s.channels|)
            && |e.channels| == |s.channels| + 1 && e.channels[|s.channels|] == Open
            && forall c :: 0 <= c < |s.channels| ==> e.channels[c] == Closed
  {
    var c := (t, CallStart);
    var s1 := Next(s, t, CallStart);
    var s2 := Next(s1, t, CallStart);
    var s3 := Next(s2, t, CallStart);
    var s4 := Next(s3, t, CallStart);
    var s5 := Next(s4, t, CallStart);
    FiveSteps(s, c);
    NextKeeps(s, t, CallStart);
    NextKeeps(s1, t, CallStart);
    NextKeeps(s2, t, CallStart);
    NextKeeps(s3, t, CallStart);
  }

  /** Closing a channel that is closed already, or none, would panic: that no run does is more than a convention. */
  lemma CloseTwicePanics(s: System)
    ensures s.CloseCurrent().panicked <==>
            || s.panicked || s.stopHeartbeat.None? || s.stopHeartbeat.value >= |s.channels|
            || s.channels[s.stopHeartbeat.value] == Closed
    ensures !s.CloseCurrent().panicked ==>
              s.CloseCurrent() == s.(channels := s.channels[s.stopHeartbeat.value := Closed])
  {
  }

  /** The counterpart for Close: the current channel, if any, is closed, and with it every one ever made, and the field
      is nil. With a field that is nil there is one step less. */
  lemma CloseAlone(s: System, t: ThreadId)
    requires Inv(s) && s.mutex.None? && s.PcOf(t) == Idle
    ensures var c := (t, CallClose);
            var e := Execute(s, if s.stopHeartbeat.Some? then [c, c, c, c, c] else [c, c, c, c]);
            && !e.panicked && e.mutex.None? && e.PcOf(t) == Idle && e.stopHeartbeat.None?
            && |e.channels| == |s.channels|
            && forall i :: 0 <= i < |e.channels| ==> e.channels[i] == Closed
  {
    var c := (t, CallClose);
    var s1 := Next(s, t, CallClose);
    var s2 := Next(s1, t, CallClose);
    var s3 := Next(s2, t, CallClose);
    FiveSteps(s, c);
    NextKeeps(s, t, CallClose);
    NextKeeps(s1, t, CallClose);
    NextKeeps(s2, t, CallClose);
    NextKeeps(s3, t, CallClose);
  }

  lemma FiveSteps(s: System, c: (ThreadId, Choice))
    ensures Execute(s, [c, c, c, c, c])
         == Next(Next(Next(Next(Next(s, c.0, c.1), c.0, c.1), c.0, c.1), c.0, c.1), c.0, c.1)
    ensures Execute(s, [c, c, c, c]) == Next(Next(Next(Next(s, c.0, c.1), c.0, c.1), c.0, c.1), c.0, c.1)
  {
    hide Next;
    var s1 := Next(s, c.0, c.1);
    var s2 := Next(s1, c.0, c.1);
    var s3 := Next(s2, c.0, c.1);
    var s4 := Next(s3, c.0, c.1);
    assert [c, c, c, c, c][1..] == [c, c, c, c] && [c, c, c, c][1..] == [c, c, c];
    assert [c, c, c][1..] == [c, c] && [c, c][1..] == [c] && [c][1..] == [];
    assert Execute(s4, [c]) == Next(s4, c.0, c.1);
    assert Execute(s3, [c, c]) == Execute(s4, [c]);
    assert Execute(s2, [c, c, c]) == Execute(s3, [c, c]);
    assert Execute(s1, [c, c, c, c]) == Execute(s2, [c, c, c]);
    assert Execute(s3, [c]) == Next(s3, c.0, c.1);
    assert Execute(s2, [c, c]) == Execute(s3, [c]);
    assert Execute(s1, [c, c, c]) == Execute(s2, [c, c]);
  }
}
