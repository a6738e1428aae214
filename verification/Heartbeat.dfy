/**
  The failure detector: what a heartbeat's success, its failure and the periodic timeout
  check do to one peer, what that means over any run of them, and the averaging of peer
  clocks.
 */
module Heartbeat {
  import opened Wrappers
  import opened Wire

  const FAILURE_TIMEOUT: int := 3_000_000_000
  const MAX_FAILURES: nat := 3

  datatype Peer = Peer(isOnline: bool, failureCount: nat, lastResponse: int)

  /** A peer as `AddPeer` makes it: offline, with the zero time as its last response. */
  const NEW_PEER := Peer(false, 0, 0)

  datatype Event = Success(now: int) | Failure | Check(now: int)

  datatype Transition = CameOnline | WentOffline

  function Step(p: Peer, e: Event): (Peer, Option<Transition>) {
    match e
    case Success(now) => (Peer(true, 0, now), if p.isOnline then None else Some(CameOnline))
    case Failure =>
      var failed := p.failureCount + 1 >= MAX_FAILURES && p.isOnline;
      (p.(failureCount := p.failureCount + 1, isOnline := p.isOnline && !failed),
       if failed then Some(WentOffline) else None)
    case Check(now) =>
      var failed := p.isOnline && now - p.lastResponse > FAILURE_TIMEOUT;
      (p.(isOnline := p.isOnline && !failed), if failed then Some(WentOffline) else None)
  }

  function After(events: seq<Event>): Peer {
    if events == [] then NEW_PEER else Step(After(events[..|events| - 1]), events[|events| - 1]).0
  }

  /** The callbacks fired over a run, in order. */
  function Transitions(events: seq<Event>): seq<Transition> {
    if events == [] then []
    else
      var front := events[..|events| - 1];
      var fired := Step(After(front), events[|events| - 1]).1;
      Transitions(front) + if fired.Some? then [fired.value] else []
  }

  // --------------------------------------- reading a run without the state

  /** The time of the last success, if any. */
  function LastSuccess(events: seq<Event>): Option<int> {
    if events == [] then None
    else if events[|events| - 1].Success? then Some(events[|events| - 1].now)
    else LastSuccess(events[..|events| - 1])
  }

  function FailuresSinceSuccess(events: seq<Event>): nat {
    if events == [] || events[|events| - 1].Success? then 0
    else FailuresSinceSuccess(events[..|events| - 1]) + if events[|events| - 1].Failure? then 1 else 0
  }

  /** Some check since the last success came more than the timeout after it. */
  function TimedOutSince(events: seq<Event>, success: int): bool {
    events != [] && !events[|events| - 1].Success? &&
    (TimedOutSince(events[..|events| - 1], success)
     || (events[|events| - 1].Check? && events[|events| - 1].now - success > FAILURE_TIMEOUT))
  }

  // ------------------------------------------------------ the main results

  /**
    What the state means after any run: the failure count is the number of failures since
    the last success, and the peer is online exactly when it has ever answered and, since
    it last did, has failed fewer than three times and passed every timeout check.
   */
  lemma {:induction false} StateMeaning(events: seq<Event>)
    ensures var p, last := After(events), LastSuccess(events);
      && p.failureCount == FailuresSinceSuccess(events)
      && (last.Some? ==> p.lastResponse == last.value)
      && (p.isOnline <==>
            last.Some? && FailuresSinceSuccess(events) < MAX_FAILURES && !TimedOutSince(events, last.value))
    decreases |events|
  {
    if events != [] {
      StateMeaning(events[..|events| - 1]);
    }
  }

  /** Notifications alternate, starting with coming online, and the last one says where the peer stands. */
  lemma {:induction false} TransitionsAlternate(events: seq<Event>)
    ensures forall i :: 0 <= i < |Transitions(events)| ==>
      Transitions(events)[i] == if i % 2 == 0 then CameOnline else WentOffline
    ensures After(events).isOnline <==> |Transitions(events)| % 2 == 1
    decreases |events|
  {
    if events != [] {
      TransitionsAlternate(events[..|events| - 1]);
    }
  }

  /**
    Every offline notification is earned: it comes from a failure that is at least the
    third since the last success, or from a check more than the timeout after it; and
    either of those, on an online peer, brings the notification at once.
   */
  lemma OfflineIff(events: seq<Event>, e: Event)
    ensures Step(After(events), e).1 == Some(WentOffline)
       <==> After(events).isOnline && (
              || (e.Failure? && FailuresSinceSuccess(events + [e]) >= MAX_FAILURES)
              || (e.Check? && LastSuccess(events).Some? && e.now - LastSuccess(events).value > FAILURE_TIMEOUT))
  {
    StateMeaning(events);
    assert (events + [e])[..|events|] == events;
  }

  // ---------------------------------------------------------- clock offset

  /** Go's division of an `int64` sum by a positive count: towards zero. */
  function TruncDiv(total: int, n: int): int
    requires n > 0
  {
    if total >= 0 then total / n else -(-total / n)
  }

  /** The 64 bits of an integer, read back as `int64`. */
  function Wrap64(n: int): int64 {
    var low := n % 0x1_0000_0000_0000_0000;
    if low < 0x8000_0000_0000_0000 then low else low - 0x1_0000_0000_0000_0000
  }

  lemma WrapSum(a: int, b: int)
    ensures Wrap64(Wrap64(a) + b) == Wrap64(a + b)
  {
    var m := 0x1_0000_0000_0000_0000;
    assert (Wrap64(a) + b) % m == (a + b) % m;
  }

  /** The sum of the skews of a set of peers. */
  ghost function TotalSkew(skews: map<string, int64>, ids: set<string>): int
    requires ids <= skews.Keys
  {
    if ids == {} then 0
    else
      var id :| id in ids;
      skews[id] + TotalSkew(skews, ids - {id})
  }

  lemma {:induction false} TotalSkewAny(skews: map<string, int64>, ids: set<string>, id: string)
    requires ids <= skews.Keys && id in ids
    ensures TotalSkew(skews, ids) == skews[id] + TotalSkew(skews, ids - {id})
  {
    var first :| first in ids && TotalSkew(skews, ids) == skews[first] + TotalSkew(skews, ids - {first});
    if first != id {
      TotalSkewAny(skews, ids - {first}, id);
      TotalSkewAny(skews, ids - {id}, first);
      assert ids - {first} - {id} == ids - {id} - {first};
    }
  }

  lemma {:induction false} TotalSkewBounds(skews: map<string, int64>, ids: set<string>, lo: int, hi: int)
    requires ids <= skews.Keys && forall id <- ids :: lo <= skews[id] <= hi
    ensures lo * |ids| <= TotalSkew(skews, ids) <= hi * |ids|
  {
    if ids != {} {
      var id :| id in ids;
      TotalSkewAny(skews, ids, id);
      TotalSkewBounds(skews, ids - {id}, lo, hi);
      assert |ids - {id}| == |ids| - 1;
      OneMore(lo, |ids|);
      OneMore(hi, |ids|);
    }
  }

  lemma OneMore(x: int, n: int)
    ensures x * n == x * (n - 1) + x
  {
  }

  lemma TruncDivBounds(total: int, n: int, lo: int, hi: int)
    requires n > 0 && lo * n <= total <= hi * n
    ensures lo <= TruncDiv(total, n) <= hi
  {
    if total >= 0 {
      DivBetween(total, n, lo, hi);
    } else {
      assert -hi * n == -(hi * n) && -lo * n == -(lo * n);
      DivBetween(-total, n, -hi, -lo);
    }
  }

  lemma DivBetween(total: int, n: int, lo: int, hi: int)
    requires n > 0 && lo * n <= total <= hi * n
    ensures lo <= total / n <= hi
  {
    var q := total / n;
    var r := total - n * q;
    assert 0 <= r < n;
    MultipleGap(n, q - lo);
    MultipleGap(n, q - hi);
    assert n * (q - lo) == n * q - lo * n;
    assert n * (q - hi) == n * q - hi * n;
  }

  /** When the sum does not overflow, the averaged offset lies between the extreme skews. */
  lemma OffsetWithinSkews(skews: map<string, int64>, ids: set<string>, lo: int, hi: int)
    requires ids <= skews.Keys && ids != {} && forall id <- ids :: lo <= skews[id] <= hi
    requires -0x8000_0000_0000_0000 <= TotalSkew(skews, ids) < 0x8000_0000_0000_0000
    ensures lo <= TruncDiv(Wrap64(TotalSkew(skews, ids)), |ids|) <= hi
  {
    TotalSkewBounds(skews, ids, lo, hi);
    TruncDivBounds(TotalSkew(skews, ids), |ids|, lo, hi);
  }

  predicate FitsInt64(n: int) {
    -0x8000_0000_0000_0000 <= n < 0x8000_0000_0000_0000
  }

  lemma TruncDivNear(total: int, n: int)
    requires n > 0
    ensures -n < total - n * TruncDiv(total, n) < n
  {
    var size := if total < 0 then -total else total;
    assert size == n * (size / n) + size % n;
    assert n * (-(size / n)) == -(n * (size / n));
  }

  /** The offset is the true average exactly when the sum of the skews does not overflow. */
  lemma AverageExactIff(skews: map<string, int64>, ids: set<string>)
    requires ids <= skews.Keys && 0 < |ids| <= 0x8000_0000_0000_0000
    ensures TruncDiv(Wrap64(TotalSkew(skews, ids)), |ids|) == TruncDiv(TotalSkew(skews, ids), |ids|)
       <==> FitsInt64(TotalSkew(skews, ids))
  {
    var total, n := TotalSkew(skews, ids), |ids|;
    TruncDivNear(total, n);
    TruncDivNear(Wrap64(total), n);
    WrapGap(total);
  }

  lemma WrapGap(n: int)
    ensures if FitsInt64(n) then Wrap64(n) == n
            else Wrap64(n) <= n - 0x1_0000_0000_0000_0000 || Wrap64(n) >= n + 0x1_0000_0000_0000_0000
  {
  }

  /** When it does, two peers far ahead can average to an offset behind. */
  lemma OverflowedOffset()
    ensures var skews: map<string, int64> := map["a" := 0x7fff_ffff_ffff_ffff, "b" := 0x7fff_ffff_ffff_ffff];
      TruncDiv(Wrap64(TotalSkew(skews, {"a", "b"})), 2) == -1
  {
    var skews: map<string, int64> := map["a" := 0x7fff_ffff_ffff_ffff, "b" := 0x7fff_ffff_ffff_ffff];
    TotalSkewAny(skews, {"a", "b"}, "a");
    assert {"a", "b"} - {"a"} == {"b"};
    TotalSkewAny(skews, {"b"}, "b");
    assert {"b"} - {"b"} == {};
  }
}
