/** The authority manager as an object: each method is one critical section of `Authority`. */
module AuthorityManagement {
  import opened Wrappers
  import opened Directory
  import opened Authority

  const MISSED_HEARTBEAT_THRESHOLD := 3

  /** Paths whose own entry names an authority on the given physical node. */
  function HeldBy(m: Entries, nodeId: string): set<string> {
    set p | p in m && m[p].authority.nodeId == nodeId
  }

  function CountOf(missed: map<string, nat>, p: string): nat {
    if p in missed then missed[p] else 0
  }

  /** One more missed heartbeat for each of the given paths. */
  function Bump(missed: map<string, nat>, paths: set<string>): map<string, nat> {
    map p | p in missed.Keys + paths :: CountOf(missed, p) + if p in paths then 1 else 0
  }

  /** The paths among those given whose count has reached the threshold. */
  function Due(missed: map<string, nat>, paths: set<string>): set<string> {
    set p | p in paths && CountOf(missed, p) >= MISSED_HEARTBEAT_THRESHOLD
  }

  lemma DueOne(missed: map<string, nat>, paths: set<string>, p: string, count: nat)
    requires p !in paths
    ensures Due(missed[p := count], paths + {p})
         == Due(missed, paths) + if count >= MISSED_HEARTBEAT_THRESHOLD then {p} else {}
  {
  }

  lemma BumpOne(missed: map<string, nat>, paths: set<string>, p: string)
    requires p !in paths
    ensures var before := Bump(missed, paths);
      Bump(missed, paths + {p}) == before[p := CountOf(before, p) + 1]
  {
  }

  lemma NoneBumped(missed: map<string, nat>)
    ensures Bump(missed, {}) == missed && Due(missed, {}) == {}
  {
  }

  lemma ListedHeld(snapshot: seq<Entry>, m: Entries, i: nat)
    requires Filed(m) && Lists(snapshot, m) && i < |snapshot|
    ensures snapshot[i].path in HeldBy(m, snapshot[i].authority.nodeId)
  {
    assert snapshot[i] in snapshot;
  }

  lemma AllHeldListed(snapshot: seq<Entry>, m: Entries, nodeId: string, hit: set<string>)
    requires Filed(m) && Lists(snapshot, m) && hit <= HeldBy(m, nodeId)
    requires forall j :: 0 <= j < |snapshot| && snapshot[j].authority.nodeId == nodeId ==> snapshot[j].path in hit
    ensures hit == HeldBy(m, nodeId)
  {
    forall p | p in HeldBy(m, nodeId)
      ensures p in hit
    {
      assert m[p] in snapshot;
      var j :| 0 <= j < |snapshot| && snapshot[j] == m[p];
    }
  }

  /** The longest-uptime election: the first of the most senior candidates. */
  method ElectByUptime(candidates: seq<Identity>) returns (winner: Option<Identity>)
    ensures winner.None? <==> candidates == []
    ensures winner.Some? ==> MostSenior(winner.value, SetOf(candidates))
    ensures winner == Elect(candidates)
  {
    winner := None;
    assert candidates[..0] == [];
    for i := 0 to |candidates|
      invariant winner == Elect(candidates[..i])
      invariant winner.None? <==> i == 0
    {
      var candidate := candidates[i];
      assert candidates[..i + 1][..i] == candidates[..i];
      if winner.None? {
        winner := Some(candidate);
      } else if candidate.created < winner.value.created {
        winner := Some(candidate);
      } else if candidate.created == winner.value.created {
        if StringLess(candidate.id, winner.value.id) {
          winner := Some(candidate);
        }
      }
    }
    assert candidates[..|candidates|] == candidates;
    if candidates != [] {
      ElectMostSenior(candidates);
    }
  }

  class AuthorityManager {
    const self: Identity
    const directory: PathDirectory
    var subscriptions: map<string, seq<Identity>>
    var missed: map<string, nat>
    var elections: seq<Election>
    var active: map<string, nat>
    var hasGossip: bool

    ghost function View(): Node
      reads this, directory
    {
      Node(self, directory.entries, missed, elections, active)
    }

    ghost predicate Valid()
      reads this, directory
    {
      directory.Valid() && WellFormed(View())
    }

    constructor (self: Identity, directory: PathDirectory, subscriptions: map<string, seq<Identity>>)
      requires directory.Valid()
      ensures Valid() && View() == Node(self, directory.entries, map[], [], map[])
      ensures this.directory == directory && this.subscriptions == subscriptions
    {
      this.self, this.directory, this.subscriptions := self, directory, subscriptions;
      missed, elections, active, hasGossip := map[], [], map[], false;
    }

    method SetGossipManager()
      modifies `hasGossip
      ensures hasGossip
    {
      hasGossip := true;
    }

    /** The announcement that ends every change: it fails without a gossip manager. */
    method Propagate() returns (r: Result<(), AuthorityError>)
      ensures r == if hasGossip then Ok(()) else Err(NoGossip)
    {
      r := if hasGossip then Ok(()) else Err(NoGossip);
    }

    function Subscribers(path: string): seq<Identity>
      reads this
    {
      if path in subscriptions then subscriptions[path] else []
    }

    method AnnounceAuthority(path: string, now: int) returns (r: Result<(), AuthorityError>)
      requires Valid()
      modifies directory
      ensures Valid() && View() == Announce(old(View()), path, now)
      ensures r == if hasGossip then Ok(()) else Err(NoGossip)
    {
      directory.Set(path, self, now);
      r := Propagate();
    }

    method FindSubscriber(path: string, id: string) returns (found: bool)
      ensures found <==> HasId(Subscribers(path), id)
    {
      var subscribers := Subscribers(path);
      found := false;
      var i := 0;
      while i < |subscribers| && !found
        invariant 0 <= i <= |subscribers|
        invariant found ==> HasId(subscribers, id)
        invariant !found ==> forall s <- subscribers[..i] :: s.id != id
      {
        if subscribers[i].id == id {
          found := true;
        }
        assert subscribers[i] in subscribers;
        i := i + 1;
      }
      if !found {
        assert subscribers[..i] == subscribers;
      }
    }

    method SplitAuthority(parentPath: string, subPath: string, newAuthority: Identity, now: int)
      returns (r: Result<(), AuthorityError>)
      requires Valid()
      modifies directory
      ensures Valid()
      ensures
        match Rehome(old(directory.entries), self, Subscribers(parentPath), parentPath, subPath, newAuthority, now)
        case Ok(entries) =>
          r == (if hasGossip then Ok(()) else Err(NoGossip)) && View() == old(View()).(entries := entries)
        case Err(e) => r == Err(e) && View() == old(View())
    {
      var current := directory.Get(parentPath);
      if current.None? || current.value.authority.id != self.id {
        return Err(NotAuthority);
      }
      var found := FindSubscriber(parentPath, newAuthority.id);
      if !found {
        return Err(NotSubscriber);
      }
      directory.Set(subPath, newAuthority, now);
      r := Propagate();
    }

    method DelegateAuthority(path: string, newAuthority: Identity, now: int) returns (r: Result<(), AuthorityError>)
      requires Valid()
      modifies directory
      ensures Valid()
      ensures match Rehome(old(directory.entries), self, Subscribers(path), path, path, newAuthority, now)
        case Ok(entries) =>
          r == (if hasGossip then Ok(()) else Err(NoGossip)) && View() == old(View()).(entries := entries)
        case Err(e) => r == Err(e) && View() == old(View())
    {
      var current := directory.Get(path);
      if current.None? || current.value.authority.id != self.id {
        return Err(NotAuthority);
      }
      var found := FindSubscriber(path, newAuthority.id);
      if !found {
        return Err(NotSubscriber);
      }
      directory.Set(path, newAuthority, now);
      r := Propagate();
    }

    method ProcessAuthorityAnnouncement(a: Entry)
      requires Valid()
      modifies this, directory
      ensures Valid() && View() == Process(old(View()), a) && subscriptions == old(subscriptions)
    {
      hide Lookup;
      var current := directory.Get(a.path);
      if current.None? || a.timestamp > current.value.timestamp {
        directory.Set(a.path, a.authority, a.timestamp);
        missed := missed - {a.path};
        if a.path in active {
          var i := active[a.path];
          elections := elections[i := elections[i].(completed := true)];
        }
        active := active - {a.path};
      }
    }

    /** The section of `startPromotionElection` that opens an election, or declines to. */
    method BeginElection(path: string) returns (started: bool)
      requires Valid()
      modifies this
      ensures Valid() && View() == Begin(old(View()), path, Subscribers(path)) && subscriptions == old(subscriptions)
      ensures started <==> !ElectionOpen(old(View()), path) && Subscribers(path) != []
    {
      if path in active && !elections[active[path]].completed {
        return false;
      }
      var candidates := Subscribers(path);
      if candidates == [] {
        return false;
      }
      active := active[path := |elections|];
      elections := elections + [Election(path, candidates, false, Running)];
      started := true;
    }

    /** The section that records the winner; the caller announces itself when `won`. */
    method CompleteElection(i: nat) returns (won: bool)
      requires Valid() && i < |elections| && elections[i].phase.Running?
      modifies this
      ensures Valid() && View() == Complete(old(View()), i) && subscriptions == old(subscriptions)
      ensures won <==> elections[i].phase.winner.id == self.id
    {
      assert elections[i] in elections;
      var winner := ElectByUptime(elections[i].candidates);
      elections := elections[i := elections[i].(completed := true, phase := Decided(winner.value))];
      won := winner.value.id == self.id;
    }

    method PromoteSelf(i: nat, now: int)
      requires Valid() && i < |elections|
      requires elections[i].phase.Decided? && elections[i].phase.winner.id == self.id
      modifies this, directory
      ensures Valid() && View() == Promote(old(View()), i, now) && subscriptions == old(subscriptions)
    {
      var _ := AnnounceAuthority(elections[i].path, now);
      elections := elections[i := elections[i].(phase := Promoted(elections[i].phase.winner))];
    }

    /** Counts a missed heartbeat against every path the node holds; returns the paths to hold elections for. */
    method OnHeartbeatMissed(nodeId: string) returns (toElect: set<string>)
      requires Valid()
      modifies `missed
      ensures Valid()
      ensures missed == Bump(old(missed), HeldBy(directory.entries, nodeId))
      ensures toElect == Due(missed, HeldBy(directory.entries, nodeId))
    {
      hide Bump;
      hide Due;
      hide HeldBy;
      hide Lists;
      var snapshot := directory.Snapshot();
      toElect := {};
      NoneBumped(missed);
      ghost var hit: set<string> := {};
      ghost var m, before := directory.entries, missed;
      for i := 0 to |snapshot|
        invariant forall j :: 0 <= j < i && snapshot[j].authority.nodeId == nodeId ==> snapshot[j].path in hit
        invariant forall j :: i <= j < |snapshot| ==> snapshot[j].path !in hit
        invariant hit <= HeldBy(m, nodeId)
        invariant missed == Bump(before, hit)
        invariant toElect == Due(missed, hit)
      {
        var e := snapshot[i];
        if e.authority.nodeId == nodeId {
          var count := CountOf(missed, e.path) + 1;
          ListedHeld(snapshot, m, i);
          BumpOne(before, hit, e.path);
          DueOne(missed, hit, e.path, count);
          missed := missed[e.path := count];
          hit := hit + {e.path};
          if count >= MISSED_HEARTBEAT_THRESHOLD {
            toElect := toElect + {e.path};
          }
        }
      }
      AllHeldListed(snapshot, directory.entries, nodeId, hit);
    }
  }
}
