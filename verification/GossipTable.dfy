/**
  The gossip manager's knowledge of the mesh: the node table, the sampled gossip peers
  and the queue of updates waiting for the next round.
 */
module GossipTable {
  import opened Wrappers

  const MINUTE: int := 60_000_000_000
  const VERSIONS: nat := 0x1_0000_0000_0000_0000

  type Zone = seq<int>

  datatype NodeStatus = NodeStatus(
    identity: string, address: string, status: string, lastSeen: int, zoneInfo: Zone, version: nat, isStale: bool)

  datatype NodeUpdate = NodeUpdate(identity: string, status: string, address: string, zoneInfo: Zone)

  type Nodes = map<string, NodeStatus>

  /** Everything the manager's lock protects. */
  datatype Table = Table(self: string, maxPeers: nat, nodes: Nodes, peers: seq<string>, pending: seq<NodeUpdate>)

  function Min(a: nat, b: nat): nat {
    if a <= b then a else b
  }

  function Active(self: string, nodes: Nodes): set<string> {
    set id | id in nodes && id != self && nodes[id].status == "joined"
  }

  /** A legal outcome of the random peer selection. */
  ghost predicate Sampled(t: Table) {
    && Distinct(t.peers)
    && (forall p <- t.peers :: p in Active(t.self, t.nodes))
    && |t.peers| == Min(|Active(t.self, t.nodes)|, 2 * t.maxPeers)
  }

  // ----------------------------------------------------- locked sections

  function Bumped(version: nat): nat {
    (version + 1) % VERSIONS
  }

  function JoinNode(nodes: Nodes, id: string, address: string, zone: Zone, now: int): Nodes {
    nodes[id :=
      if id !in nodes then NodeStatus(id, address, "joined", now, zone, 1, false)
      else nodes[id].(address := address, status := "joined", lastSeen := now, zoneInfo := zone,
                      version := Bumped(nodes[id].version), isStale := false)]
  }

  function WithStatus(nodes: Nodes, id: string, status: string, now: int): Nodes
    requires id in nodes
  {
    nodes[id := nodes[id].(status := status, lastSeen := now, version := Bumped(nodes[id].version))]
  }

  function WithZone(nodes: Nodes, id: string, zone: Zone, now: int): Nodes
    requires id in nodes
  {
    nodes[id := nodes[id].(zoneInfo := zone, lastSeen := now, version := Bumped(nodes[id].version))]
  }

  function UpdateFor(nodes: Nodes, id: string): NodeUpdate
    requires id in nodes
  {
    NodeUpdate(id, nodes[id].status, nodes[id].address, nodes[id].zoneInfo)
  }

  /** A gossiped update creates a node, or overwrites one not heard of for over a minute, be it the node itself. */
  function Absorb(nodes: Nodes, u: NodeUpdate, now: int): Nodes {
    if u.identity !in nodes then
      nodes[u.identity := NodeStatus(u.identity, u.address, u.status, now, u.zoneInfo, 1, false)]
    else
      var n := nodes[u.identity];
      if now - n.lastSeen > MINUTE then
        nodes[u.identity := n.(address := u.address, status := u.status, lastSeen := now, zoneInfo := u.zoneInfo,
                               version := Bumped(n.version), isStale := false)]
      else nodes
  }

  function AbsorbAll(nodes: Nodes, us: seq<NodeUpdate>, now: int): Nodes
    decreases |us|
  {
    if us == [] then nodes else AbsorbAll(Absorb(nodes, us[0], now), us[1..], now)
  }

  /** Gone for ten minutes and known to have left; never the node itself. */
  predicate Expired(self: string, id: string, n: NodeStatus, now: int) {
    id != self && now - n.lastSeen > 10 * MINUTE && n.status == "left"
  }

  function Cleaned(self: string, nodes: Nodes, now: int): Nodes {
    map id | id in nodes && !Expired(self, id, nodes[id], now) :: nodes[id]
  }

  // ------------------------------------------------------------- the runs

  /** A section run by some goroutine; `peers` is the outcome of the sampling where there is one. */
  datatype Step =
    | AddNode(id: string, address: string, zone: Zone, now: int, peers: seq<string>)
    | RemoveNode(id: string, now: int, peers: seq<string>)
    | MarkFailed(id: string, now: int)
    | UpdateZone(id: string, zone: Zone, now: int)
    | Incoming(updates: seq<NodeUpdate>, now: int, peers: seq<string>)
    | MarkStale(id: string)
    | ClearPending
    | Cleanup(now: int)

  function After(t: Table, s: Step): Table {
    match s
    case AddNode(id, address, zone, now, peers) =>
      t.(nodes := JoinNode(t.nodes, id, address, zone, now), peers := peers,
         pending := t.pending + [NodeUpdate(id, "joined", address, zone)])
    case RemoveNode(id, now, peers) =>
      if id !in t.nodes then t
      else
        var nodes := WithStatus(t.nodes, id, "left", now);
        t.(nodes := nodes, peers := peers, pending := t.pending + [UpdateFor(nodes, id)])
    case MarkFailed(id, now) =>
      if id !in t.nodes || t.nodes[id].status == "failed" then t
      else
        var nodes := WithStatus(t.nodes, id, "failed", now);
        t.(nodes := nodes, pending := t.pending + [UpdateFor(nodes, id)])
    case UpdateZone(id, zone, now) =>
      if id !in t.nodes then t
      else
        var nodes := WithZone(t.nodes, id, zone, now);
        t.(nodes := nodes, pending := t.pending + [UpdateFor(nodes, id)])
    case Incoming(updates, now, peers) => t.(nodes := AbsorbAll(t.nodes, updates, now), peers := peers)
    case MarkStale(id) => if id in t.nodes then t.(nodes := t.nodes[id := t.nodes[id].(isStale := true)]) else t
    case ClearPending => t.(pending := [])
    case Cleanup(now) => t.(nodes := Cleaned(t.self, t.nodes, now))
  }

  /** The three sections that resample leave a legal sample. */
  ghost predicate Possible(t: Table, s: Step) {
    s.AddNode? || s.Incoming? || (s.RemoveNode? && s.id in t.nodes) ==> Sampled(After(t, s))
  }

  ghost predicate Runs(t: Table, steps: seq<Step>, t': Table)
    decreases |steps|
  {
    if steps == [] then t == t' else Possible(t, steps[0]) && Runs(After(t, steps[0]), steps[1..], t')
  }

  /**
    Peers are distinct, never the node itself, at most twice the round size, and all known
    nodes that are joined or failed: not one of them has left.
   */
  ghost predicate PeersSound(t: Table) {
    && Distinct(t.peers) && |t.peers| <= 2 * t.maxPeers
    && forall p <- t.peers :: p != t.self && p in t.nodes && t.nodes[p].status in {"joined", "failed"}
  }

  lemma StepKeepsPeersSound(t: Table, s: Step)
    requires PeersSound(t) && Possible(t, s)
    ensures PeersSound(After(t, s))
  {
  }

  /** In every reachable state, whatever was sampled and however the sections interleave, the peers are sound. */
  lemma {:induction false} RunKeepsPeersSound(t: Table, steps: seq<Step>, t': Table)
    requires PeersSound(t) && Runs(t, steps, t')
    ensures PeersSound(t')
    decreases |steps|
  {
    if steps != [] {
      StepKeepsPeersSound(t, steps[0]);
      RunKeepsPeersSound(After(t, steps[0]), steps[1..], t');
    }
  }

  /** Stale cleanup never orphans a peer, nor forgets the node itself. */
  lemma CleanupKeepsPeers(t: Table, now: int)
    requires PeersSound(t)
    ensures forall p <- t.peers :: p in Cleaned(t.self, t.nodes, now)
    ensures t.self in t.nodes ==> t.self in Cleaned(t.self, t.nodes, now)
  {
  }

  /** The first update about a node. */
  function FirstAbout(us: seq<NodeUpdate>, id: string): Option<NodeUpdate> {
    if us == [] then None else if us[0].identity == id then Some(us[0]) else FirstAbout(us[1..], id)
  }

  predicate SeenLately(nodes: Nodes, id: string, now: int) {
    id in nodes && now - nodes[id].lastSeen <= MINUTE
  }

  function Known(nodes: Nodes, id: string): Option<NodeStatus> {
    if id in nodes then Some(nodes[id]) else None
  }

  /**
    What gossip does to each node, this one included: a node seen within a minute stays as it
    was; otherwise the first update about it is taken, and no later one.
   */
  lemma {:induction false} AbsorbedExactly(nodes: Nodes, us: seq<NodeUpdate>, now: int, id: string)
    ensures var u := FirstAbout(us, id);
      Known(AbsorbAll(nodes, us, now), id)
      == if SeenLately(nodes, id, now) || u.None? then Known(nodes, id) else Known(Absorb(nodes, u.value, now), id)
    decreases |us|
  {
    if us != [] {
      AbsorbedExactly(Absorb(nodes, us[0], now), us[1..], now, id);
    }
  }

  /** So an entry, the node's own included, is untouched exactly when seen within a minute or not spoken of. */
  lemma UntouchedIff(nodes: Nodes, us: seq<NodeUpdate>, now: int, id: string)
    ensures Known(AbsorbAll(nodes, us, now), id) == Known(nodes, id)
       <==> SeenLately(nodes, id, now) || FirstAbout(us, id).None?
  {
    AbsorbedExactly(nodes, us, now, id);
    FirstIsAbout(us, id);
  }

  lemma {:induction false} FirstIsAbout(us: seq<NodeUpdate>, id: string)
    ensures FirstAbout(us, id).Some? ==> FirstAbout(us, id).value in us && FirstAbout(us, id).value.identity == id
  {
    if us != [] && us[0].identity != id {
      FirstIsAbout(us[1..], id);
    }
  }

  /** A peer can so make a node record that it has itself left, at another address. */
  lemma SelfOverwritten(t: Table, address: string, now: int, peers: seq<string>)
    requires t.self in t.nodes && !SeenLately(t.nodes, t.self, now)
    ensures var t' := After(t, Incoming([NodeUpdate(t.self, "left", address, [])], now, peers));
      t.self in t'.nodes && t'.nodes[t.self].status == "left" && t'.nodes[t.self].address == address
  {
    AbsorbedExactly(t.nodes, [NodeUpdate(t.self, "left", address, [])], now, t.self);
  }

  // ------------------------------------------------- the update queue

  /** The queue with its history: everything ever appended, and everything put into a gossip message. */
  datatype Queue = Queue(pending: seq<NodeUpdate>, appended: seq<NodeUpdate>, sent: seq<NodeUpdate>)

  function Append(q: Queue, us: seq<NodeUpdate>): Queue {
    q.(pending := q.pending + us, appended := q.appended + us)
  }

  /** Encoding the message takes what is pending under one lock; clearing empties the queue under another. */
  function Prepare(q: Queue): Queue {
    q.(sent := q.sent + q.pending)
  }

  function Clear(q: Queue): Queue {
    q.(pending := [])
  }

  ghost predicate NothingLost(q: Queue) {
    q.appended == q.sent + q.pending
  }

  /** A round loses exactly what was appended between preparing and clearing. */
  lemma RoundConservesIff(q: Queue, between: seq<NodeUpdate>)
    requires NothingLost(q)
    ensures var q' := Clear(Append(Prepare(q), between));
      && q'.appended == q'.sent + between && q'.pending == []
      && (NothingLost(q') <==> between == [])
  {
    var q' := Clear(Append(Prepare(q), between));
    assert q'.appended == q'.sent + between;
    if NothingLost(q') {
      assert |q'.appended| == |q'.sent|;
    }
  }

  /** One tick: what is appended before it, whether it finds targets, and what slips in between its two locks. */
  datatype Round = Round(before: seq<NodeUpdate>, hasTargets: bool, between: seq<NodeUpdate>)

  /** A tick without targets or without pending updates sends nothing and clears nothing. */
  predicate Sends(q: Queue, r: Round) {
    r.hasTargets && Append(q, r.before).pending != []
  }

  function AfterRound(q: Queue, r: Round): Queue {
    if Sends(q, r) then Clear(Append(Prepare(Append(q, r.before)), r.between))
    else Append(Append(q, r.before), r.between)
  }

  function AfterRounds(q: Queue, rounds: seq<Round>): Queue
    decreases |rounds|
  {
    if rounds == [] then q else AfterRounds(AfterRound(q, rounds[0]), rounds[1..])
  }

  /** Every round that sends is quiet: nothing is appended between its two locks. */
  ghost predicate Quiet(q: Queue, rounds: seq<Round>)
    decreases |rounds|
  {
    rounds != [] ==>
      (Sends(q, rounds[0]) ==> rounds[0].between == []) && Quiet(AfterRound(q, rounds[0]), rounds[1..])
  }

  lemma RoundGap(q: Queue, r: Round)
    ensures var q' := AfterRound(q, r);
      |q'.appended| - |q'.sent| - |q'.pending|
        == |q.appended| - |q.sent| - |q.pending| + if Sends(q, r) then |r.between| else 0
  {
  }

  lemma {:induction false} GapNeverShrinks(q: Queue, rounds: seq<Round>)
    ensures var q' := AfterRounds(q, rounds);
      |q'.appended| - |q'.sent| - |q'.pending| >= |q.appended| - |q.sent| - |q.pending|
    decreases |rounds|
  {
    if rounds != [] {
      RoundGap(q, rounds[0]);
      GapNeverShrinks(AfterRound(q, rounds[0]), rounds[1..]);
    }
  }

  lemma RoundKeepsIff(q: Queue, r: Round)
    requires NothingLost(q)
    ensures NothingLost(AfterRound(q, r)) <==> (Sends(q, r) ==> r.between == [])
  {
    var q1 := Append(q, r.before);
    assert q1.appended == q1.sent + q1.pending;
    if Sends(q, r) {
      RoundConservesIff(q1, r.between);
    } else {
      var q2 := Append(q1, r.between);
      assert q2.appended == q2.sent + q2.pending;
    }
  }

  /** Over any number of rounds every update is gossiped, in order, exactly when every sending round was quiet. */
  lemma {:induction false} RoundsConserveIff(q: Queue, rounds: seq<Round>)
    requires NothingLost(q)
    ensures NothingLost(AfterRounds(q, rounds)) <==> Quiet(q, rounds)
    decreases |rounds|
  {
    if rounds != [] {
      var r := rounds[0];
      var q' := AfterRound(q, r);
      RoundKeepsIff(q, r);
      if Sends(q, r) ==> r.between == [] {
        RoundsConserveIff(q', rounds[1..]);
      } else {
        RoundGap(q, r);
        GapNeverShrinks(q', rounds[1..]);
      }
    }
  }
}
