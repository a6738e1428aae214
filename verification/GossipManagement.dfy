/** The gossip manager as an object: sampling by swap-removal, and each locked section of `GossipTable`. */
module GossipManagement {
  import opened GossipTable
  import opened Wrappers

  /** Draws `count` members of a duplicate-free pool, moving the last one into each hole. */
  method Sample(pool: seq<string>, count: nat) returns (chosen: seq<string>)
    requires Distinct(pool) && count <= |pool|
    ensures Distinct(chosen) && |chosen| == count
    ensures forall x <- chosen :: x in pool
  {
    var available := pool;
    chosen := [];
    for i := 0 to count
      invariant |chosen| == i && |available| == |pool| - i
      invariant Distinct(chosen) && Distinct(available)
      invariant forall x <- available :: x in pool && x !in chosen
      invariant forall x <- chosen :: x in pool
    {
      var idx :| 0 <= idx < |available|;
      var last := |available| - 1;
      ghost var before := available;
      assert before[idx] in before && before[idx] !in chosen;
      chosen := chosen + [available[idx]];
      available := available[idx := available[last]];
      available := available[..last];
      assert forall k :: 0 <= k < last ==> available[k] == if k == idx then before[last] else before[k];
      assert forall x <- available :: x in before && x != before[idx];
    }
  }

  /** A duplicate-free listing of a set. */
  ghost predicate Enumerates(s: seq<string>, xs: set<string>) {
    Distinct(s) && |s| == |xs| && forall x :: x in s <==> x in xs
  }

  lemma EnumerateOne(s: seq<string>, xs: set<string>, x: string)
    requires Enumerates(s, xs) && x !in xs
    ensures Enumerates(s + [x], xs + {x})
  {
  }

  class GossipManager {
    const self: string
    const maxGossipPeers: nat
    var nodes: Nodes
    var peers: seq<string>
    var pending: seq<NodeUpdate>

    ghost function View(): Table
      reads this
    {
      Table(self, maxGossipPeers, nodes, peers, pending)
    }

    ghost predicate Valid()
      reads this
    {
      PeersSound(View())
    }

    constructor (self: string)
      ensures Valid() && View() == Table(self, 3, map[], [], [])
    {
      this.self, maxGossipPeers := self, 3;
      nodes, peers, pending := map[], [], [];
    }

    /** The active nodes, in map order. */
    method ListActive() returns (active: seq<string>)
      ensures Enumerates(active, Active(self, nodes))
    {
      active := [];
      var left := nodes.Keys;
      ghost var listed: set<string> := {};
      while left != {}
        invariant left <= nodes.Keys && Enumerates(active, listed)
        invariant listed == Active(self, nodes) - left
        decreases left
      {
        var id :| id in left;
        left := left - {id};
        if id != self && nodes[id].status == "joined" {
          EnumerateOne(active, listed, id);
          active, listed := active + [id], listed + {id};
        }
      }
    }

    /** Keeps the active nodes, or a random choice of twice the round size of them. */
    method UpdateGossipPeers()
      modifies `peers
      ensures Sampled(View())
    {
      var active := ListActive();
      var maxPeers := maxGossipPeers * 2;
      if |active| <= maxPeers {
        peers := active;
      } else {
        peers := Sample(active, maxPeers);
      }
    }

    method AddNode(id: string, address: string, zone: Zone, now: int)
      requires Valid()
      modifies this
      ensures Valid() && Possible(old(View()), Step.AddNode(id, address, zone, now, peers))
      ensures View() == After(old(View()), Step.AddNode(id, address, zone, now, peers))
    {
      if id !in nodes {
        nodes := nodes[id := NodeStatus(id, address, "joined", now, zone, 1, false)];
      } else {
        var n := nodes[id];
        nodes := nodes[id := NodeStatus(n.identity, address, "joined", now, zone, Bumped(n.version), false)];
      }
      pending := pending + [NodeUpdate(id, "joined", address, zone)];
      UpdateGossipPeers();
    }

    method RemoveNode(id: string, now: int)
      requires Valid()
      modifies this
      ensures Valid() && Possible(old(View()), Step.RemoveNode(id, now, peers))
      ensures View() == After(old(View()), Step.RemoveNode(id, now, peers))
    {
      if id !in nodes {
        return;
      }
      nodes := nodes[id := nodes[id].(status := "left", lastSeen := now, version := Bumped(nodes[id].version))];
      pending := pending + [NodeUpdate(id, "left", nodes[id].address, nodes[id].zoneInfo)];
      UpdateGossipPeers();
    }

    method MarkNodeFailed(id: string, now: int)
      requires Valid()
      modifies this
      ensures Valid() && View() == After(old(View()), MarkFailed(id, now))
    {
      if id !in nodes {
        return;
      }
      if nodes[id].status != "failed" {
        nodes := nodes[id := nodes[id].(status := "failed", lastSeen := now, version := Bumped(nodes[id].version))];
        pending := pending + [NodeUpdate(id, "failed", nodes[id].address, nodes[id].zoneInfo)];
      }
    }

    method UpdateZoneInfo(id: string, zone: Zone, now: int)
      requires Valid()
      modifies this
      ensures Valid() && View() == After(old(View()), UpdateZone(id, zone, now))
    {
      if id !in nodes {
        return;
      }
      nodes := nodes[id := nodes[id].(zoneInfo := zone, lastSeen := now, version := Bumped(nodes[id].version))];
      pending := pending + [NodeUpdate(id, nodes[id].status, nodes[id].address, zone)];
    }

    method ProcessIncomingGossip(updates: seq<NodeUpdate>, now: int)
      requires Valid()
      modifies this
      ensures Valid() && Possible(old(View()), Incoming(updates, now, peers))
      ensures View() == After(old(View()), Incoming(updates, now, peers))
    {
      assert updates[0..] == updates;
      for i := 0 to |updates|
        invariant peers == old(peers) && pending == old(pending)
        invariant AbsorbAll(old(nodes), updates, now) == AbsorbAll(nodes, updates[i..], now)
      {
        var u := updates[i];
        assert updates[i..][1..] == updates[i + 1..];
        if u.identity !in nodes {
          nodes := nodes[u.identity := NodeStatus(u.identity, u.address, u.status, now, u.zoneInfo, 1, false)];
        } else if now - nodes[u.identity].lastSeen > MINUTE {
          var n := nodes[u.identity];
          nodes := nodes[u.identity :=
            NodeStatus(n.identity, u.address, u.status, now, u.zoneInfo, Bumped(n.version), false)];
        }
      }
      UpdateGossipPeers();
    }

    method HandleGossipError(id: string)
      requires Valid()
      modifies this
      ensures Valid() && View() == After(old(View()), MarkStale(id))
    {
      if id in nodes {
        nodes := nodes[id := nodes[id].(isStale := true)];
      }
    }

    method ClearPendingUpdates()
      requires Valid()
      modifies this
      ensures Valid() && View() == After(old(View()), ClearPending)
    {
      pending := [];
    }

    method CleanupStaleNodes(now: int)
      requires Valid()
      modifies this
      ensures Valid() && View() == After(old(View()), Cleanup(now))
    {
      var left := nodes.Keys;
      while left != {}
        invariant peers == old(peers) && pending == old(pending)
        invariant left <= nodes.Keys
        invariant nodes ==
          map id | id in old(nodes) && (id in left || !Expired(self, id, old(nodes)[id], now)) :: old(nodes)[id]
        decreases left
      {
        var id :| id in left;
        left := left - {id};
        if id != self {
          if now - nodes[id].lastSeen > 10 * MINUTE && nodes[id].status == "left" {
            nodes := nodes - {id};
          }
        }
      }
    }

    ghost function JoinedPeers(count: nat): set<string>
      requires count <= |peers|
      reads this
    {
      set p | p in peers[..count] && p in nodes && nodes[p].status == "joined"
    }

    method ListJoinedPeers() returns (available: seq<string>)
      requires Valid()
      ensures Enumerates(available, JoinedPeers(|peers|))
    {
      available := [];
      for i := 0 to |peers|
        invariant Enumerates(available, JoinedPeers(i))
      {
        var peer := peers[i];
        assert peers[..i + 1] == peers[..i] + [peer];
        if peer in nodes && nodes[peer].status == "joined" {
          assert JoinedPeers(i + 1) == JoinedPeers(i) + {peer};
          EnumerateOne(available, JoinedPeers(i), peer);
          available := available + [peer];
        } else {
          assert JoinedPeers(i + 1) == JoinedPeers(i);
        }
      }
    }

    /** A round's targets: distinct joined peers, as many as the round size and the supply allow. */
    method SelectGossipTargets() returns (targets: seq<string>)
      requires Valid()
      ensures Distinct(targets)
      ensures forall x <- targets :: x in peers && x in nodes && nodes[x].status == "joined"
      ensures |targets| == Min(maxGossipPeers, |JoinedPeers(|peers|)|)
    {
      var available := ListJoinedPeers();
      if |available| == 0 {
        return [];
      }
      var count := maxGossipPeers;
      if count > |available| {
        count := |available|;
      }
      targets := Sample(available, count);
    }
  }
}
