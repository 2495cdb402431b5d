/** pollForCert (agent/agent.go): one GET a round, a bounded wait, no sleep past the deadline. */
module Polling {
  import opened Wrappers
  import opened Certificates

  const POLL_INTERVAL := 10_000_000_000

  datatype Get = Get(ok: bool, status: int, body: Bytes)

  datatype PollError = Cancelled | NotYetSigned | GaveUp

  /** What the world does in round i: the reply, how late the clock is read after it, and
      whether the context is done before the GET or during the sleep. A sleep lasts at least
      as long as asked. */
  datatype Round = Round(get: Get, lag: nat, cancelledBefore: bool, cancelledAsleep: bool, overslept: nat)

  // A sleep: when it starts and for how long it is scheduled
  datatype Sleep = Sleep(start: int, length: int)

  predicate Issued(get: Get) {
    get.ok && get.status == 200
  }

  function Interval(wait: int): int {
    if 0 < wait < POLL_INTERVAL then wait else POLL_INTERVAL
  }

  // ceil(wait / interval)
  function Rounds(wait: int): nat
    requires wait > 0
  {
    (wait + Interval(wait) - 1) / Interval(wait)
  }

  lemma RoundsCover(wait: int, n: nat)
    requires wait > 0 && n * Interval(wait) < wait
    ensures n + 1 <= Rounds(wait)
  {
    var interval := Interval(wait);
    if wait < POLL_INTERVAL {
      assert interval == wait && (wait + wait - 1) / wait == 1 by {
        DivideOnce(wait);
      }
    } else {
      assert interval == 10_000_000_000;
    }
  }

  lemma DivideOnce(n: int)
    requires n > 0
    ensures (n + n - 1) / n == 1
  {
    assert (n + (n - 1)) / n == 1 + (n - 1) / n;
    assert (n - 1) / n == 0;
  }

  /** gets counts the GETs made, sleeps lists the sleeps scheduled, now is the last clock reading. */
  method PollForCert(wait: int, start: int, rounds: nat -> Round)
    returns (r: Result<Bytes, PollError>, gets: nat, sleeps: seq<Sleep>, now: int)
    // a certificate comes from the last GET, and only from an issued reply
    ensures r.Ok? ==> gets >= 1 && Issued(rounds(gets - 1).get) && r.value == rounds(gets - 1).get.body
    ensures r.Ok? ==> rounds(gets - 1).get.ok && rounds(gets - 1).get.status == 200
    ensures forall i :: 0 <= i < gets - 1 ==> !Issued(rounds(i).get)
    ensures r.Err? && r.error != Cancelled ==> gets >= 1 && !Issued(rounds(gets - 1).get)
    // without a wait, one attempt
    ensures wait <= 0 ==> gets <= 1 && sleeps == [] && (r.Err? ==> r.error != GaveUp)
    // with one, a bounded number of attempts, sleeps that end by the deadline, and a full wait
    ensures wait > 0 ==> gets <= Rounds(wait) + 1 && (r.Err? ==> r.error != NotYetSigned)
    ensures |sleeps| <= gets
    ensures forall s <- sleeps :: s.start + s.length <= start + wait && 0 < s.length <= Interval(wait)
    ensures r == Err(GaveUp) ==> now >= start + wait
    // cancellation is noticed before the next GET and in every sleep, and is the only other way out
    ensures forall i :: 0 <= i < gets ==> !rounds(i).cancelledBefore
    ensures forall i :: 0 <= i < gets - 1 ==> !rounds(i).cancelledAsleep
    ensures r == Err(Cancelled) ==>
              |sleeps| == gets && (rounds(gets).cancelledBefore || (gets > 0 && rounds(gets - 1).cancelledAsleep))
  {
    var interval := POLL_INTERVAL;
    if 0 < wait < interval {
      interval := wait;
    }
    var deadline := start + wait;
    now, gets, sleeps := start, 0, [];
    while true
      invariant interval == Interval(wait)
      invariant |sleeps| == gets
      invariant gets > 0 ==> wait > 0
      invariant forall i :: 0 <= i < gets ==> !rounds(i).cancelledBefore && !rounds(i).cancelledAsleep
      invariant forall i :: 0 <= i < gets ==> !Issued(rounds(i).get)
      invariant forall s <- sleeps :: s.start + s.length <= deadline && 0 < s.length <= interval
      invariant now >= start
      invariant now >= deadline || now >= start + gets * interval
      invariant wait > 0 ==> gets <= Rounds(wait)
      decreases if wait > 0 then Rounds(wait) + 1 - gets else 1
    {
      var round := rounds(gets);
      if round.cancelledBefore {
        return Err(Cancelled), gets, sleeps, now;
      }
      gets := gets + 1;
      now := now + round.lag;
      if Issued(round.get) {
        return Ok(round.get.body), gets, sleeps, now;
      }
      if wait <= 0 {
        return Err(NotYetSigned), gets, sleeps, now;
      }
      var remaining := deadline - now;
      if remaining <= 0 {
        return Err(GaveUp), gets, sleeps, now;
      }
      var sleep := if interval < remaining then interval else remaining;
      RoundsCover(wait, gets - 1);
      sleeps := sleeps + [Sleep(now, sleep)];
      if round.cancelledAsleep {
        return Err(Cancelled), gets, sleeps, now;
      }
      now := now + sleep + round.overslept;
      assert (gets - 1) * interval + interval == gets * interval;
    }
  }
}
