/** Exactly which schedules of the writes of overlapping Send calls deliver the payloads, whatever these are
    (connection/tcp.go:122-176). */
module SendSchedules {
  import opened Primitives
  import opened Framing
  import opened Delivery
  import opened OverlappingSends

  /** Each of n calls makes its three writes, and nobody else writes. */
  ghost predicate Complete(n: nat, schedule: seq<nat>) {
    && (forall i :: 0 <= i < |schedule| ==> schedule[i] < n)
    && (forall t :: 0 <= t < n ==> multiset(schedule)[t] == 3)
  }

  /** Each of n calls, once. */
  ghost predicate IsOrder(n: nat, order: seq<nat>) {
    && (forall i :: 0 <= i < |order| ==> order[i] < n)
    && (forall i, j :: 0 <= i < j < |order| ==> order[i] != order[j])
    && (forall t :: 0 <= t < n ==> t in order)
  }

  /** The peer of these callers gets every payload once, in some order, and then finds the connection closed. */
  ghost predicate DeliversTo(suite: Suite, key: SessionKey, callers: seq<Caller>, schedule: seq<nat>)
    requires AllDeliverable(key, callers)
    requires forall i :: 0 <= i < |schedule| ==> schedule[i] < |callers|
  {
    exists order ::
      && IsOrder(|callers|, order)
      && ReadAll(suite, key, Execute(Datas(suite, key, callers), Start(|callers|), schedule).out)
         == (PayloadsIn(callers, order), ConnectionClosed)
  }

  /** For all keys and payloads. */
  ghost predicate Delivers(suite: Suite, n: nat, schedule: seq<nat>)
    requires forall i :: 0 <= i < |schedule| ==> schedule[i] < n
  {
    forall key: SessionKey, callers: seq<Caller> | |callers| == n && AllDeliverable(key, callers) ::
      DeliversTo(suite, key, callers, schedule)
  }

  // ---- counting ----

  lemma {:induction false} InTurnCount(order: seq<nat>, t: nat)
    ensures multiset(InTurn(order))[t] == 3 * multiset(order)[t]
  {
    if order == [] {
      assert InTurn(order) == [];
    } else {
      InTurnCount(order[1..], t);
      InTurnCountStep(order, t);
    }
  }

  lemma InTurnCountStep(order: seq<nat>, t: nat)
    requires order != [] && multiset(InTurn(order[1..]))[t] == 3 * multiset(order[1..])[t]
    ensures multiset(InTurn(order))[t] == 3 * multiset(order)[t]
  {
    hide InTurn;
    var u, rest := order[0], order[1..];
    InTurnSplit(order);
    CountThree(u, t);
    assert order == [u] + rest;
    CountSplit(order, [u], rest, t);
    CountSplit(InTurn(order), [u, u, u], InTurn(rest), t);
  }

  lemma CountSplit(s: seq<nat>, a: seq<nat>, b: seq<nat>, t: nat)
    requires s == a + b
    ensures multiset(s)[t] == multiset(a)[t] + multiset(b)[t]
  {
    assert multiset(s) == multiset(a) + multiset(b);
  }

  lemma CountThree(u: nat, t: nat)
    ensures multiset([u, u, u])[t] == 3 * multiset([u])[t]
  {
  }

  lemma CountPositive(s: seq<nat>, t: nat)
    ensures multiset(s)[t] > 0 <==> t in s
  {
  }

  lemma NoRepeats(order: seq<nat>)
    requires forall t :: multiset(order)[t] <= 1
    ensures forall i, j :: 0 <= i < j < |order| ==> order[i] != order[j]
  {
    forall i, j | 0 <= i < j < |order|
      ensures order[i] != order[j]
    {
      var t := order[i];
      assert order == order[..j] + order[j..];
      assert order[..j][i] == t && t in order[..j];
      assert order[j..][0] == order[j] && order[j] in order[j..];
      assert multiset(order)[t] == multiset(order[..j])[t] + multiset(order[j..])[t];
    }
  }

  /** The longest beginning in which each call's writes stay together. */
  lemma {:induction false} Peel(schedule: seq<nat>) returns (order: seq<nat>, rest: seq<nat>)
    ensures schedule == InTurn(order) + rest
    ensures |rest| < 3 || rest[0] != rest[1] || rest[0] != rest[2]
    decreases |schedule|
  {
    if |schedule| < 3 || schedule[0] != schedule[1] || schedule[0] != schedule[2] {
      return [], schedule;
    }
    var t := schedule[0];
    var more: seq<nat>;
    more, rest := Peel(schedule[3..]);
    order := [t] + more;
    assert schedule == [t, t, t] + schedule[3..];
    InTurnSplit(order);
    assert order[1..] == more;
  }

  /** In a complete schedule the calls of the beginning are done, and the others have not begun. */
  lemma PeelCounts(n: nat, schedule: seq<nat>, order: seq<nat>, rest: seq<nat>)
    requires Complete(n, schedule) && schedule == InTurn(order) + rest
    ensures forall i :: 0 <= i < |order| ==> order[i] < n
    ensures forall i, j :: 0 <= i < j < |order| ==> order[i] != order[j]
    ensures forall i :: 0 <= i < |rest| ==> rest[i] < n && rest[i] !in order && multiset(rest)[rest[i]] == 3
    ensures forall t :: 0 <= t < n && t !in rest ==> t in order
  {
    hide InTurn;
    forall t: nat
      ensures multiset(schedule)[t] == 3 * multiset(order)[t] + multiset(rest)[t]
      ensures multiset(schedule)[t] <= 3 && (t in schedule ==> t < n)
      ensures t in order ==> t in schedule
    {
      InTurnCount(order, t);
      assert multiset(schedule) == multiset(InTurn(order)) + multiset(rest);
      CountPositive(schedule, t);
      CountPositive(order, t);
    }
    forall i | 0 <= i < |order|
      ensures order[i] < n
    {
      assert order[i] in order;
    }
    NoRepeats(order);
    forall i | 0 <= i < |rest|
      ensures rest[i] < n && rest[i] !in order && multiset(rest)[rest[i]] == 3
    {
      assert rest[i] in rest && schedule[|InTurn(order)| + i] == rest[i];
      CountPositive(rest, rest[i]);
      CountPositive(order, rest[i]);
    }
    forall t | 0 <= t < n && t !in rest
      ensures t in order
    {
      CountPositive(rest, t);
      CountPositive(order, t);
    }
  }

  // ---- both directions ----

  lemma InTurnDelivers(suite: Suite, n: nat, schedule: seq<nat>, order: seq<nat>)
    requires Complete(n, schedule) && schedule == InTurn(order)
    ensures IsOrder(n, order) && Delivers(suite, n, schedule)
  {
    hide InTurn, Execute, ReadAll, Datas;
    assert schedule == InTurn(order) + [];
    PeelCounts(n, schedule, order, []);
    forall key: SessionKey, callers: seq<Caller> | |callers| == n && AllDeliverable(key, callers)
      ensures DeliversTo(suite, key, callers, schedule)
    {
      KeptTogether(suite, key, callers, order);
    }
  }

  const FULL: Caller := Caller([255], [0, 0, 0])

  /** Plain payloads of the single byte 255. */
  function Fulls(n: nat): (callers: seq<Caller>)
    ensures |callers| == n && AllDeliverable([], callers)
  {
    seq(n, _ => FULL)
  }

  lemma FullPayloads(n: nat, order: seq<nat>)
    requires forall i :: 0 <= i < |order| ==> order[i] < n
    ensures forall i :: 0 <= i < |order| ==> PayloadsIn(Fulls(n), order)[i] == [255]
  {
  }

  /** A peer of such callers that reads anything else, or another error, was not delivered to. */
  lemma FullsDiffer(suite: Suite, n: nat, schedule: seq<nat>, k: nat)
    requires forall i :: 0 <= i < |schedule| ==> schedule[i] < n
    requires var (read, e) := ReadAll(suite, [], Execute(Datas(suite, [], Fulls(n)), Start(n), schedule).out);
             e != ConnectionClosed || (k < |read| && read[k] != [255])
    ensures !Delivers(suite, n, schedule)
  {
    hide ReadAll, Execute, Datas, Fulls, PayloadsIn, AllDeliverable;
    var callers := Fulls(n);
    forall order | IsOrder(n, order)
      ensures k < |order| ==> PayloadsIn(callers, order)[k] == [255]
    {
      FullPayloads(n, order);
    }
    assert !DeliversTo(suite, [], callers, schedule);
  }

  /** A schedule that goes on differently than in turn fails. */
  lemma TornFails(suite: Suite, n: nat, schedule: seq<nat>, order: seq<nat>, rest: seq<nat>)
    requires Complete(n, schedule) && schedule == InTurn(order) + rest
    requires rest != [] && (|rest| < 3 || rest[0] != rest[1] || rest[0] != rest[2])
    ensures !Delivers(suite, n, schedule)
  {
    hide InTurn, Execute, ReadAll, Datas, Delivers, Data;
    PeelCounts(n, schedule, order, rest);
    var t := rest[0];
    AtLeastThree(rest, t);
    if rest[1] != t {
      assert schedule == InTurn(order) + [t, rest[1]] + rest[2..];
      TornApart(suite, [], Fulls(n), order, t, rest[1], rest[2..]);
    } else {
      assert schedule == InTurn(order) + [t, t, rest[2]] + rest[3..];
      TornLate(suite, Fulls(n), order, t, rest[2], rest[3..]);
    }
    FullsDiffer(suite, n, schedule, |order|);
  }

  lemma AtLeastThree(s: seq<nat>, t: nat)
    requires multiset(s)[t] == 3
    ensures |s| >= 3
  {
    assert |multiset(s)| == |s|;
  }

  /** A complete schedule delivers the payloads, under every key and whatever they are, if and only if the three writes
      of each call stay together. */
  lemma DeliversIff(suite: Suite, n: nat, schedule: seq<nat>)
    requires Complete(n, schedule)
    ensures Delivers(suite, n, schedule) <==> exists order :: IsOrder(n, order) && schedule == InTurn(order)
  {
    hide InTurn, Delivers;
    var order, rest := Peel(schedule);
    if rest == [] {
      assert InTurn(order) + [] == InTurn(order);
      InTurnDelivers(suite, n, schedule, order);
    } else {
      TornFails(suite, n, schedule, order, rest);
    }
    forall o | IsOrder(n, o) && schedule == InTurn(o)
      ensures Delivers(suite, n, schedule)
    {
      InTurnDelivers(suite, n, schedule, o);
    }
  }
}
