/** The heartbeat manager and its peer connections as objects. */
module HeartbeatManagement {
  import opened Wrappers
  import opened Wire
  import opened Heartbeat

  class PeerConnection {
    var isOnline: bool
    var failureCount: nat
    var lastResponse: int
    var clockSkew: int64

    ghost function View(): Peer
      reads this
    {
      Peer(isOnline, failureCount, lastResponse)
    }

    constructor ()
      ensures View() == NEW_PEER && clockSkew == 0
    {
      isOnline, failureCount, lastResponse, clockSkew := false, 0, 0, 0;
    }

    /** The status update after a heartbeat was answered; returns whether the peer recovered. */
    method RecordSuccess(now: int) returns (recovered: bool)
      modifies this
      ensures (View(), if recovered then Some(CameOnline) else None) == Step(old(View()), Success(now))
      ensures clockSkew == old(clockSkew)
    {
      lastResponse := now;
      failureCount := 0;
      recovered := !isOnline;
      isOnline := true;
    }

    method RecordFailure() returns (failed: bool)
      modifies this
      ensures (View(), if failed then Some(WentOffline) else None) == Step(old(View()), Failure)
      ensures clockSkew == old(clockSkew)
    {
      failureCount := failureCount + 1;
      failed := failureCount >= MAX_FAILURES && isOnline;
      if failed {
        isOnline := false;
      }
    }

    method CheckTimeout(now: int) returns (failed: bool)
      modifies this
      ensures (View(), if failed then Some(WentOffline) else None) == Step(old(View()), Check(now))
      ensures clockSkew == old(clockSkew)
    {
      if !isOnline {
        return false;
      }
      failed := now - lastResponse > FAILURE_TIMEOUT;
      if failed {
        isOnline := false;
      }
    }
  }

  class HeartbeatManager {
    var peers: map<string, PeerConnection>
    var clockOffset: int64

    /** No connection is filed under two identities. */
    ghost predicate Valid()
      reads this
    {
      forall a, b :: a in peers && b in peers && a != b ==> peers[a] != peers[b]
    }

    constructor ()
      ensures Valid() && peers == map[] && clockOffset == 0
    {
      peers, clockOffset := map[], 0;
    }

    method AddPeer(id: string) returns (added: bool)
      requires Valid()
      modifies `peers
      ensures Valid()
      ensures added <==> id !in old(peers)
      ensures added ==>
        id in peers && fresh(peers[id]) && peers[id].View() == NEW_PEER && peers == old(peers)[id := peers[id]]
      ensures !added ==> peers == old(peers)
    {
      if id in peers {
        return false;
      }
      var peer := new PeerConnection();
      peers := peers[id := peer];
      added := true;
    }

    method RemovePeer(id: string)
      requires Valid()
      modifies `peers
      ensures Valid() && peers == old(peers) - {id}
    {
      peers := peers - {id};
    }

    /** The periodic check: every peer takes one timeout step, and those that went offline are reported. */
    method CheckForFailures(now: int) returns (failed: set<string>)
      requires Valid()
      modifies peers.Values
      ensures forall id <- peers :: peers[id].View() == Step(old(peers[id].View()), Check(now)).0
      ensures forall id ::
        id in failed <==> id in peers && Step(old(peers[id].View()), Check(now)).1 == Some(WentOffline)
    {
      failed := {};
      var left := peers.Keys;
      while left != {}
        invariant left <= peers.Keys
        invariant forall id <- left :: peers[id].View() == old(peers[id].View())
        invariant forall id <- peers.Keys - left :: peers[id].View() == Step(old(peers[id].View()), Check(now)).0
        invariant forall id :: id in failed <==>
          id in peers.Keys - left && Step(old(peers[id].View()), Check(now)).1 == Some(WentOffline)
        decreases left
      {
        var id :| id in left;
        left := left - {id};
        var timedOut := peers[id].CheckTimeout(now);
        if timedOut {
          failed := failed + {id};
        }
      }
    }

    ghost function Skews(): map<string, int64>
      reads `peers, peers.Values
    {
      map id | id in peers :: peers[id].clockSkew
    }

    ghost function Online(): set<string>
      reads `peers, peers.Values
    {
      set id | id in peers && peers[id].isOnline
    }

    /** Sums the online peers' skews in 64 bits; the order of the map does not matter. */
    method SumOnline(ghost skews: map<string, int64>, ghost online: set<string>)
      returns (totalSkew: int64, onlineCount: nat)
      requires online <= skews.Keys == peers.Keys
      requires forall id <- peers :: skews[id] == peers[id].clockSkew && (id in online <==> peers[id].isOnline)
      ensures onlineCount == |online| && totalSkew == Wrap64(TotalSkew(skews, online))
    {
      totalSkew, onlineCount := 0, 0;
      var left := peers.Keys;
      PartialEnds(skews, online, left, totalSkew, onlineCount);
      while left != {}
        invariant left <= peers.Keys && Partial(skews, online, left, totalSkew, onlineCount)
        decreases left
      {
        var id :| id in left;
        PartialStep(skews, online, left, id, totalSkew, onlineCount);
        left := left - {id};
        if peers[id].isOnline {
          totalSkew := Wrap64(totalSkew + peers[id].clockSkew);
          onlineCount := onlineCount + 1;
        }
      }
      PartialEnds(skews, online, left, totalSkew, onlineCount);
    }

    /** The offset becomes the mean skew of the online peers. */
    method UpdateClockOffset()
      modifies `clockOffset
      ensures clockOffset ==
        if Online() == {} then old(clockOffset) else Wrap64(TruncDiv(Wrap64(TotalSkew(Skews(), Online())), |Online()|))
    {
      var totalSkew, onlineCount := SumOnline(Skews(), Online());
      if onlineCount > 0 {
        clockOffset := Wrap64(TruncDiv(totalSkew, onlineCount));
      }
    }
  }

  /** The running totals once every peer but those left has been visited. */
  ghost predicate Partial(
    skews: map<string, int64>, online: set<string>, left: set<string>, totalSkew: int64, onlineCount: nat)
  {
    && online <= skews.Keys
    && onlineCount == |online - left|
    && totalSkew == Wrap64(TotalSkew(skews, online - left))
  }

  lemma PartialEnds(
    skews: map<string, int64>, online: set<string>, left: set<string>, totalSkew: int64, onlineCount: nat)
    requires online <= skews.Keys
    ensures online <= left && totalSkew == onlineCount == 0 ==> Partial(skews, online, left, totalSkew, onlineCount)
    ensures left == {} && Partial(skews, online, left, totalSkew, onlineCount) ==>
      onlineCount == |online| && totalSkew == Wrap64(TotalSkew(skews, online))
  {
    if online <= left {
      assert online - left == {};
    }
    if left == {} {
      assert online - left == online;
    }
  }

  lemma PartialStep(
    skews: map<string, int64>, online: set<string>, left: set<string>, id: string, totalSkew: int64, onlineCount: nat)
    requires Partial(skews, online, left, totalSkew, onlineCount) && id in left && id in skews
    ensures if id in online
      then Partial(skews, online, left - {id}, Wrap64(totalSkew + skews[id]), onlineCount + 1)
      else Partial(skews, online, left - {id}, totalSkew, onlineCount)
  {
    var done, done' := online - left, online - (left - {id});
    if id in online {
      assert done' == done + {id} && done' - {id} == done;
      TotalSkewAny(skews, done', id);
      WrapSum(TotalSkew(skews, done), skews[id]);
    } else {
      assert done' == done;
    }
  }
}
