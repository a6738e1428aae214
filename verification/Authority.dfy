/**
  Write authority over paths: announcements, delegation and splitting, and the promotion
  elections each node runs on its own when an authority fails.

  Each critical section of the manager is a function of the node's state; the sections
  are then run, interleaved in any way, across a whole mesh. `AuthorityManagement` holds
  the manager itself.
 */
module Authority {
  import opened Wrappers
  import opened Directory

  // ----------------------------------------------------- seniority order

  /** Go's `<` on strings. */
  predicate StringLess(a: string, b: string) {
    if b == [] then false
    else if a == [] then true
    else a[0] < b[0] || (a[0] == b[0] && StringLess(a[1..], b[1..]))
  }

  lemma {:induction false} StringLessTrans(a: string, b: string, c: string)
    requires StringLess(a, b) && StringLess(b, c)
    ensures StringLess(a, c)
  {
    if a != [] && a[0] == b[0] == c[0] {
      StringLessTrans(a[1..], b[1..], c[1..]);
    }
  }

  lemma {:induction false} StringLessTotal(a: string, b: string)
    requires !StringLess(a, b) && !StringLess(b, a)
    ensures a == b
  {
    if a != [] && b != [] {
      StringLessTotal(a[1..], b[1..]);
      assert a == [a[0]] + a[1..] && b == [b[0]] + b[1..];
    }
  }

  lemma {:induction false} StringLessIrreflexive(a: string)
    ensures !StringLess(a, a)
  {
    if a != [] {
      StringLessIrreflexive(a[1..]);
    }
  }

  /** Created earlier, or at the same instant with the smaller ID. */
  predicate Senior(a: Identity, b: Identity) {
    a.created < b.created || (a.created == b.created && StringLess(a.id, b.id))
  }

  lemma SeniorTrans(a: Identity, b: Identity, c: Identity)
    requires Senior(a, b) && Senior(b, c)
    ensures Senior(a, c)
  {
    if a.created == b.created == c.created {
      StringLessTrans(a.id, b.id, c.id);
    }
  }

  ghost predicate MostSenior(w: Identity, candidates: set<Identity>) {
    w in candidates && forall c <- candidates :: !Senior(c, w)
  }

  ghost function SetOf(candidates: seq<Identity>): set<Identity> {
    set c | c in candidates
  }

  /** The scan over the candidate list: the first of the most senior so far. */
  function Elect(candidates: seq<Identity>): Option<Identity>
    decreases |candidates|
  {
    if candidates == [] then None
    else
      var last := candidates[|candidates| - 1];
      match Elect(candidates[..|candidates| - 1])
      case None => Some(last)
      case Some(best) => Some(if Senior(last, best) then last else best)
  }

  /** Whatever the order of the list, the winner is one of the candidates and none is senior to it. */
  lemma {:induction false} ElectMostSenior(candidates: seq<Identity>)
    requires candidates != []
    ensures Elect(candidates).Some? && MostSenior(Elect(candidates).value, SetOf(candidates))
    decreases |candidates|
  {
    var front, last := candidates[..|candidates| - 1], candidates[|candidates| - 1];
    assert candidates == front + [last];
    StringLessIrreflexive(last.id);
    if front != [] {
      ElectMostSenior(front);
      var best := Elect(front).value;
      forall c | c in front && Senior(last, best)
        ensures !Senior(c, last)
      {
        if Senior(c, last) {
          SeniorTrans(c, last, best);
        }
      }
    }
  }

  /** Lists with the same members elect the same ID. */
  lemma SameWinner(v: Identity, w: Identity, candidates: set<Identity>)
    requires MostSenior(v, candidates) && MostSenior(w, candidates)
    ensures v.id == w.id && v.created == w.created
  {
    StringLessTotal(v.id, w.id);
  }

  // -------------------------------------------------- critical sections

  datatype Phase = Running | Decided(winner: Identity) | Promoted(winner: Identity)

  /** An election: `completed` is the shared flag, `phase` how far its own goroutine has come. */
  datatype Election = Election(path: string, candidates: seq<Identity>, completed: bool, phase: Phase)

  /** A node's authority state; `active` records, for a path, the index of its latest election. */
  datatype Node = Node(
    self: Identity, entries: Entries, missed: map<string, nat>, elections: seq<Election>, active: map<string, nat>)

  function NewNode(self: Identity): Node {
    Node(self, map[], map[], [], map[])
  }

  ghost predicate WellFormed(n: Node) {
    && (forall p <- n.active :: n.active[p] < |n.elections| && n.elections[n.active[p]].path == p)
    && (forall e <- n.elections :: e.candidates != [])
  }

  predicate ElectionOpen(n: Node, path: string)
    requires WellFormed(n)
  {
    path in n.active && !n.elections[n.active[path]].completed
  }

  /** Section one of an election: refused while the recorded one is incomplete or nobody subscribes. */
  function Begin(n: Node, path: string, candidates: seq<Identity>): (n': Node)
    requires WellFormed(n)
    ensures WellFormed(n')
  {
    if ElectionOpen(n, path) || candidates == [] then n
    else n.(elections := n.elections + [Election(path, candidates, false, Running)],
            active := n.active[path := |n.elections|])
  }

  /** Section two: the winner is written down and the election marked complete. */
  function Complete(n: Node, i: nat): (n': Node)
    requires WellFormed(n) && i < |n.elections| && n.elections[i].phase.Running?
    ensures WellFormed(n')
  {
    ElectMostSenior(n.elections[i].candidates);
    var winner := Elect(n.elections[i].candidates).value;
    n.(elections := n.elections[i := n.elections[i].(completed := true, phase := Decided(winner))])
  }

  function Announce(n: Node, path: string, now: int): (n': Node)
    requires WellFormed(n)
    ensures WellFormed(n')
  {
    n.(entries := n.entries[path := Entry(path, n.self, now)])
  }

  /** Section three is run only by the winner. */
  predicate CanPromote(n: Node, i: nat) {
    i < |n.elections| && n.elections[i].phase.Decided? && n.elections[i].phase.winner.id == n.self.id
  }

  function Promote(n: Node, i: nat, now: int): (n': Node)
    requires WellFormed(n) && CanPromote(n, i)
    ensures WellFormed(n')
  {
    var e := n.elections[i];
    Announce(n, e.path, now).(elections := n.elections[i := e.(phase := Promoted(e.phase.winner))])
  }

  /** An announcement counts as newer when it beats the longest matching entry, not the exact one. */
  predicate Newer(m: Entries, a: Entry) {
    Lookup(m, a.path).None? || a.timestamp > Lookup(m, a.path).value.timestamp
  }

  function ApplyAnnouncement(m: Entries, a: Entry): Entries {
    if Newer(m, a) then m[a.path := a] else m
  }

  function Process(n: Node, a: Entry): (n': Node)
    requires WellFormed(n)
    ensures WellFormed(n')
  {
    if !Newer(n.entries, a) then n
    else
      var elections :=
        if a.path in n.active then n.elections[n.active[a.path] := n.elections[n.active[a.path]].(completed := true)]
        else n.elections;
      n.(entries := ApplyAnnouncement(n.entries, a), missed := n.missed - {a.path},
         elections := elections, active := n.active - {a.path})
  }

  // ---------------------------------------------------- mesh-wide safety

  /** A promotion that happened: which node announced itself for which path. */
  datatype Promotion = Promotion(path: string, node: nat)

  datatype Mesh = Mesh(nodes: seq<Node>, promotions: seq<Promotion>)

  datatype MeshStep =
    | DoBegin(node: nat, path: string, candidates: seq<Identity>)
    | DoComplete(node: nat, election: nat)
    | DoPromote(node: nat, election: nat, now: int)
    | DoProcess(node: nat, announcement: Entry)
    | DoAnnounce(node: nat, path: string, now: int)

  ghost predicate MeshWellFormed(m: Mesh) {
    && (forall i :: 0 <= i < |m.nodes| ==> WellFormed(m.nodes[i]))
    && (forall p <- m.promotions :: p.node < |m.nodes|)
  }

  ghost predicate CanStep(m: Mesh, s: MeshStep)
    requires MeshWellFormed(m)
  {
    && s.node < |m.nodes|
    && var n := m.nodes[s.node];
    match s
    case DoComplete(_, i) => i < |n.elections| && n.elections[i].phase.Running?
    case DoPromote(_, i, _) => CanPromote(n, i)
    case _ => true
  }

  ghost function StepNode(m: Mesh, s: MeshStep): Node
    requires MeshWellFormed(m) && CanStep(m, s)
    ensures WellFormed(StepNode(m, s))
  {
    var n := m.nodes[s.node];
    match s
    case DoBegin(_, path, candidates) => Begin(n, path, candidates)
    case DoComplete(_, i) => Complete(n, i)
    case DoPromote(_, i, now) => Promote(n, i, now)
    case DoProcess(_, a) => Process(n, a)
    case DoAnnounce(_, path, now) => Announce(n, path, now)
  }

  ghost function MeshAfter(m: Mesh, s: MeshStep): (m': Mesh)
    requires MeshWellFormed(m) && CanStep(m, s)
    ensures MeshWellFormed(m')
  {
    Mesh(m.nodes[s.node := StepNode(m, s)],
         m.promotions + if s.DoPromote? then [Promotion(m.nodes[s.node].elections[s.election].path, s.node)] else [])
  }

  ghost predicate MeshRuns(m: Mesh, steps: seq<MeshStep>, m': Mesh)
    requires MeshWellFormed(m)
    decreases |steps|
  {
    if steps == [] then m == m'
    else CanStep(m, steps[0]) && MeshRuns(MeshAfter(m, steps[0]), steps[1..], m')
  }

  /** What each node may see as the subscribers of a path when it begins an election. */
  type Views = seq<iset<seq<Identity>>>

  predicate Elects(candidates: seq<Identity>, node: Identity) {
    var winner := Elect(candidates);
    winner.Some? && winner.value.id == node.id
  }

  ghost predicate WithinViews(s: MeshStep, path: string, views: Views) {
    s.DoBegin? && s.path == path ==> s.node < |views| && s.candidates in views[s.node]
  }

  /** The candidates were seen by the node, and what is decided is who they elect. */
  ghost predicate SoundElection(e: Election, seen: iset<seq<Identity>>) {
    e.candidates in seen && (!e.phase.Running? ==> Elect(e.candidates) == Some(e.phase.winner))
  }

  ghost predicate SoundElections(m: Mesh, path: string, views: Views)
    requires |views| == |m.nodes|
  {
    forall i, j :: 0 <= i < |m.nodes| && 0 <= j < |m.nodes[i].elections| && m.nodes[i].elections[j].path == path ==>
      SoundElection(m.nodes[i].elections[j], views[i])
  }

  /** The node may see a list of candidates that elects it. */
  ghost predicate CanWin(node: Identity, seen: iset<seq<Identity>>) {
    exists c :: c in seen && Elects(c, node)
  }

  ghost predicate SoundPromotions(m: Mesh, path: string, views: Views)
    requires MeshWellFormed(m) && |views| == |m.nodes|
  {
    forall p <- m.promotions :: p.path == path ==> CanWin(m.nodes[p.node].self, views[p.node])
  }

  lemma StepKeepsElections(m: Mesh, s: MeshStep, path: string, views: Views)
    requires MeshWellFormed(m) && CanStep(m, s) && |views| == |m.nodes| && SoundElections(m, path, views)
    requires WithinViews(s, path, views)
    ensures |MeshAfter(m, s).nodes| == |m.nodes| && SoundElections(MeshAfter(m, s), path, views)
  {
    var n, n' := m.nodes[s.node], StepNode(m, s);
    forall j | 0 <= j < |n'.elections| && n'.elections[j].path == path
      ensures SoundElection(n'.elections[j], views[s.node])
    {
      if j < |n.elections| {
        assert n.elections[j].path == path;
        if s.DoComplete? && s.election == j {
          ElectMostSenior(n.elections[j].candidates);
        }
      }
    }
  }

  lemma StepKeepsIdentities(m: Mesh, s: MeshStep)
    requires MeshWellFormed(m) && CanStep(m, s)
    ensures |MeshAfter(m, s).nodes| == |m.nodes|
    ensures forall i :: 0 <= i < |m.nodes| ==> MeshAfter(m, s).nodes[i].self == m.nodes[i].self
  {
  }

  lemma StepKeepsPromotions(m: Mesh, s: MeshStep, path: string, views: Views)
    requires MeshWellFormed(m) && CanStep(m, s) && |views| == |m.nodes|
    requires SoundElections(m, path, views) && SoundPromotions(m, path, views)
    ensures |MeshAfter(m, s).nodes| == |m.nodes| && SoundPromotions(MeshAfter(m, s), path, views)
  {
    hide CanWin;
    var m' := MeshAfter(m, s);
    StepKeepsIdentities(m, s);
    forall p | p in m'.promotions && p.path == path
      ensures CanWin(m'.nodes[p.node].self, views[p.node])
    {
      if p !in m.promotions {
        var e := m.nodes[s.node].elections[s.election];
        assert SoundElection(e, views[s.node]);
        WinsWith(m.nodes[s.node].self, views[s.node], e.candidates);
      }
    }
  }

  lemma WinsWith(node: Identity, seen: iset<seq<Identity>>, c: seq<Identity>)
    requires c in seen && Elects(c, node)
    ensures CanWin(node, seen)
  {
  }

  /**
    In every run a node promotes itself for a path only when candidates it saw for that path
    elect it: it bears the ID of their most senior one.
   */
  lemma {:induction false} RunKeepsPromotions(m: Mesh, steps: seq<MeshStep>, m': Mesh, path: string, views: Views)
    requires MeshWellFormed(m) && MeshRuns(m, steps, m') && |views| == |m.nodes|
    requires forall s <- steps :: WithinViews(s, path, views)
    requires SoundElections(m, path, views) && SoundPromotions(m, path, views)
    ensures MeshWellFormed(m') && |m'.nodes| == |m.nodes| && SoundPromotions(m', path, views)
    ensures forall i :: 0 <= i < |m.nodes| ==> m'.nodes[i].self == m.nodes[i].self
    decreases |steps|
  {
    if steps != [] {
      var s := steps[0];
      assert s in steps && forall t <- steps[1..] :: t in steps;
      StepKeepsElections(m, s, path, views);
      StepKeepsPromotions(m, s, path, views);
      StepKeepsIdentities(m, s);
      RunKeepsPromotions(MeshAfter(m, s), steps[1..], m', path, views);
    }
  }

  ghost predicate OnePromoter(m: Mesh, path: string) {
    forall p, q :: p in m.promotions && q in m.promotions && p.path == path && q.path == path ==> p.node == q.node
  }

  /** A mesh in which nothing has been elected yet. */
  ghost predicate Fresh(m: Mesh) {
    MeshWellFormed(m) && m.promotions == [] && forall i :: 0 <= i < |m.nodes| ==> m.nodes[i].elections == []
  }

  /** However the nodes of `m` run elections for `path` over what they see, at most one ever promotes itself. */
  ghost predicate AlwaysOnePromoter(m: Mesh, path: string, views: Views)
    requires MeshWellFormed(m)
  {
    forall steps, m' :: MeshRuns(m, steps, m') && (forall s <- steps :: WithinViews(s, path, views)) ==>
      OnePromoter(m', path)
  }

  ghost predicate TwoCanWin(m: Mesh, views: Views)
    requires |views| == |m.nodes|
  {
    exists i, j :: 0 <= i < j < |m.nodes| && CanWin(m.nodes[i].self, views[i]) && CanWin(m.nodes[j].self, views[j])
  }

  /** The three sections of one election at node `k`, run to its promotion. */
  function ElectionSteps(k: nat, path: string, candidates: seq<Identity>, now: int): seq<MeshStep> {
    [DoBegin(k, path, candidates), DoComplete(k, 0), DoPromote(k, 0, now)]
  }

  lemma PromotingRun(m: Mesh, k: nat, path: string, c: seq<Identity>, now: int) returns (m': Mesh)
    requires MeshWellFormed(m) && k < |m.nodes| && m.nodes[k].elections == [] && Elects(c, m.nodes[k].self)
    ensures MeshRuns(m, ElectionSteps(k, path, c, now), m') && MeshWellFormed(m')
    ensures m'.promotions == m.promotions + [Promotion(path, k)]
    ensures |m'.nodes| == |m.nodes| && forall i :: 0 <= i < |m.nodes| && i != k ==> m'.nodes[i] == m.nodes[i]
  {
    var steps := ElectionSteps(k, path, c, now);
    var m1 := MeshAfter(m, steps[0]);
    assert m1.nodes[k].elections == [Election(path, c, false, Running)];
    var m2 := MeshAfter(m1, steps[1]);
    assert CanPromote(m2.nodes[k], 0);
    m' := MeshAfter(m2, steps[2]);
    assert steps[1..][1..] == [steps[2]] && [steps[2]][1..] == [];
    assert MeshRuns(m2, [steps[2]], m');
    assert MeshRuns(m1, steps[1..], m');
  }

  lemma {:induction false} MeshRunsJoin(m: Mesh, xs: seq<MeshStep>, m': Mesh, ys: seq<MeshStep>, m'': Mesh)
    requires MeshWellFormed(m) && MeshWellFormed(m') && MeshRuns(m, xs, m') && MeshRuns(m', ys, m'')
    ensures MeshRuns(m, xs + ys, m'')
    decreases |xs|
  {
    hide CanStep;
    hide MeshAfter;
    if xs == [] {
      assert xs + ys == ys;
    } else {
      assert (xs + ys)[1..] == xs[1..] + ys;
      MeshRunsJoin(MeshAfter(m, xs[0]), xs[1..], m', ys, m'');
    }
  }

  lemma TwoPromoters(m: Mesh, path: string, views: Views) returns (steps: seq<MeshStep>, m': Mesh)
    requires Fresh(m) && |views| == |m.nodes| && TwoCanWin(m, views)
    ensures MeshRuns(m, steps, m') && (forall s <- steps :: WithinViews(s, path, views)) && !OnePromoter(m', path)
  {
    hide MeshRuns;
    hide MeshWellFormed;
    hide Elects;
    var i, j :|
      0 <= i < j < |m.nodes| && CanWin(m.nodes[i].self, views[i]) && CanWin(m.nodes[j].self, views[j]);
    var ci :| ci in views[i] && Elects(ci, m.nodes[i].self);
    var cj :| cj in views[j] && Elects(cj, m.nodes[j].self);
    var m1 := PromotingRun(m, i, path, ci, 0);
    m' := PromotingRun(m1, j, path, cj, 0);
    steps := ElectionSteps(i, path, ci, 0) + ElectionSteps(j, path, cj, 0);
    MeshRunsJoin(m, ElectionSteps(i, path, ci, 0), m1, ElectionSteps(j, path, cj, 0), m');
    assert m'.promotions[0] == Promotion(path, i) && m'.promotions[1] == Promotion(path, j);
  }

  /**
    Election safety, exactly: nodes may begin, finish, cancel and repeat elections for a path
    in any interleaving, each over any subscribers it may see. At most one of them ever
    promotes itself, in every run, if and only if no two can see candidates that elect them.
   */
  lemma OnePromoterIff(m: Mesh, path: string, views: Views)
    requires Fresh(m) && |views| == |m.nodes|
    ensures AlwaysOnePromoter(m, path, views) <==> !TwoCanWin(m, views)
  {
    if TwoCanWin(m, views) {
      var steps, m' := TwoPromoters(m, path, views);
    } else {
      forall steps, m' | MeshRuns(m, steps, m') && (forall s <- steps :: WithinViews(s, path, views))
        ensures OnePromoter(m', path)
      {
        RunKeepsPromotions(m, steps, m', path, views);
      }
    }
  }

  /** All lists with the given members. */
  ghost function ListsOf(candidates: set<Identity>): iset<seq<Identity>> {
    iset c | SetOf(c) == candidates
  }

  /** So nodes with distinct IDs that all see the same candidates, in any order, are safe. */
  lemma AtMostOnePromoted(m: Mesh, path: string, candidates: set<Identity>)
    requires Fresh(m)
    requires forall i, j :: 0 <= i < j < |m.nodes| ==> m.nodes[i].self.id != m.nodes[j].self.id
    ensures AlwaysOnePromoter(m, path, seq(|m.nodes|, _ => ListsOf(candidates)))
  {
    var views := seq(|m.nodes|, _ => ListsOf(candidates));
    if TwoCanWin(m, views) {
      var i, j :|
        0 <= i < j < |m.nodes| && CanWin(m.nodes[i].self, views[i]) && CanWin(m.nodes[j].self, views[j]);
      var ci :| ci in views[i] && Elects(ci, m.nodes[i].self);
      var cj :| cj in views[j] && Elects(cj, m.nodes[j].self);
      ElectMostSenior(ci);
      ElectMostSenior(cj);
      SameWinner(Elect(ci).value, Elect(cj).value, candidates);
    }
    OnePromoterIff(m, path, views);
  }

  /** And two nodes that each see only themselves both promote themselves. */
  lemma SplitViewsPromoteTwo(a: Identity, b: Identity, path: string)
    ensures var m := Mesh([NewNode(a), NewNode(b)], []);
      Fresh(m) && !AlwaysOnePromoter(m, path, [iset{[a]}, iset{[b]}])
  {
    var m := Mesh([NewNode(a), NewNode(b)], []);
    var views: Views := [iset{[a]}, iset{[b]}];
    assert [a][..0] == [] && [b][..0] == [];
    assert Elects([a], a) && Elects([b], b);
    assert CanWin(m.nodes[0].self, views[0]) && CanWin(m.nodes[1].self, views[1]);
    OnePromoterIff(m, path, views);
  }

  /** An election still incomplete is the one recorded for its path, so a path has at most one. */
  ghost predicate OneOpen(n: Node)
    requires WellFormed(n)
  {
    forall i :: 0 <= i < |n.elections| && !n.elections[i].completed ==>
      n.elections[i].path in n.active && n.active[n.elections[i].path] == i
  }

  lemma StepKeepsOneOpen(m: Mesh, s: MeshStep)
    requires MeshWellFormed(m) && CanStep(m, s) && OneOpen(m.nodes[s.node])
    ensures OneOpen(StepNode(m, s))
  {
  }

  /** On every node of every run, at most one election per path is incomplete at a time. */
  lemma {:induction false} RunKeepsOneOpen(m: Mesh, steps: seq<MeshStep>, m': Mesh)
    requires MeshWellFormed(m) && MeshRuns(m, steps, m')
    requires forall i :: 0 <= i < |m.nodes| ==> OneOpen(m.nodes[i])
    ensures MeshWellFormed(m') && forall i :: 0 <= i < |m'.nodes| ==> OneOpen(m'.nodes[i])
    decreases |steps|
  {
    if steps != [] {
      StepKeepsOneOpen(m, steps[0]);
      RunKeepsOneOpen(MeshAfter(m, steps[0]), steps[1..], m');
    }
  }

  /** A running election that is the recorded one for its path. */
  ghost predicate OpenAt(n: Node, i: nat)
    requires WellFormed(n)
  {
    && i < |n.elections| && n.elections[i].phase.Running? && !n.elections[i].completed
    && n.elections[i].path in n.active && n.active[n.elections[i].path] == i
  }

  /**
    Cancelling, exactly: a newer announcement marks the open election complete, forgets it
    and takes effect. But the election's goroutine still finishes, and then the node may
    announce itself over the newer authority if and only if it is elected; otherwise the
    announcement stays.
   */
  lemma CancelledElectionIff(n: Node, i: nat, a: Entry, now: int)
    requires WellFormed(n) && OpenAt(n, i) && n.elections[i].path == a.path && Newer(n.entries, a)
    ensures var cancelled := Process(n, a);
      && cancelled.elections[i].completed && a.path !in cancelled.active
      && var finished := Complete(cancelled, i);
      && Lookup(finished.entries, a.path) == Some(a)
      && (CanPromote(finished, i) <==> Elects(n.elections[i].candidates, n.self))
      && (CanPromote(finished, i) ==>
            Lookup(Promote(finished, i, now).entries, a.path) == Some(Entry(a.path, n.self, now)))
  {
    ElectMostSenior(n.elections[i].candidates);
  }

  /** The simplest such election: a node that is its own only candidate. */
  lemma CancelledElectionStillPromotes(self: Identity, other: Identity, path: string, t: int, now: int)
    ensures var n := Begin(NewNode(self), path, [self]);
      var finished := Complete(Process(n, Entry(path, other, t)), 0);
      && Lookup(finished.entries, path) == Some(Entry(path, other, t))
      && CanPromote(finished, 0) && Lookup(Promote(finished, 0, now).entries, path) == Some(Entry(path, self, now))
  {
    var n := Begin(NewNode(self), path, [self]);
    assert n.elections[0] == Election(path, [self], false, Running);
    LookupIsBest(map[], path);
    assert [self][..0] == [];
    assert Elects([self], self);
    CancelledElectionIff(n, 0, Entry(path, other, t), now);
  }

  // ------------------------------------------------------- announcements

  function ApplyAll(m: Entries, announcements: seq<Entry>): Entries
    decreases |announcements|
  {
    if announcements == [] then m else ApplyAll(ApplyAnnouncement(m, announcements[0]), announcements[1..])
  }

  /** Applying one announcement is merging it, except where only an ancestor entry stands in its way. */
  lemma AnnouncementIsMergeIff(m: Entries, a: Entry)
    ensures ApplyAnnouncement(m, a) == MergeOne(m, a)
       <==> a.path in m || Lookup(m, a.path).None? || a.timestamp > Lookup(m, a.path).value.timestamp
  {
    if a.path !in m && !Newer(m, a) {
      assert a.path in MergeOne(m, a) && a.path !in ApplyAnnouncement(m, a);
    }
  }

  /**
    Below every announced path, paths are announced later still: whatever an entry for an
    ancestor path says, some entry of the path itself is newer.
   */
  ghost predicate Rising(s: set<Entry>) {
    forall a, e :: a in s && e in s && Covers(a.path, e.path) && a.path != e.path ==>
      exists f <- s :: f.path == e.path && f.timestamp > a.timestamp
  }

  /** `e` is overridden by the entry filed for its own path, or was turned away by an ancestor's. */
  ghost predicate Settled(e: Entry, m: Entries, s: set<Entry>) {
    || (e.path in m && e.timestamp <= m[e.path].timestamp)
    || exists a <- s :: Covers(a.path, e.path) && a.path != e.path && e.timestamp <= a.timestamp
  }

  /** A directory made of entries of `s` in which all of `s` is settled. */
  ghost predicate Processed(m: Entries, s: set<Entry>) {
    (forall p <- m :: m[p] in s && m[p].path == p) && forall e <- s :: Settled(e, m, s)
  }

  lemma ProcessedOne(m: Entries, s: set<Entry>, x: Entry)
    requires Processed(m, s)
    ensures Processed(ApplyAnnouncement(m, x), s + {x})
  {
    LookupIsBest(m, x.path);
    var m', s' := ApplyAnnouncement(m, x), s + {x};
    if !Newer(m, x) {
      var q :| BestMatch(m, x.path, q) && Lookup(m, x.path) == Some(m[q]);
      assert m[q] in s';
    } else if x.path in m {
      assert BestMatch(m, x.path, x.path);
    }
    forall e | e in s'
      ensures Settled(e, m', s')
    {
      assert e in s ==> Settled(e, m, s);
    }
  }

  lemma {:induction false} ProcessedAll(m: Entries, s: set<Entry>, xs: seq<Entry>)
    requires Processed(m, s)
    ensures Processed(ApplyAll(m, xs), s + set x | x in xs)
    decreases |xs|
  {
    hide Processed;
    if xs == [] {
      assert s + (set x | x in xs) == s;
    } else {
      ProcessedOne(m, s, xs[0]);
      ProcessedAll(ApplyAnnouncement(m, xs[0]), s + {xs[0]}, xs[1..]);
      assert xs == [xs[0]] + xs[1..];
      assert s + (set x | x in xs) == s + {xs[0]} + (set x | x in xs[1..]);
    }
  }

  /** Every path of a set has a newest entry. */
  lemma {:induction false} NewestFor(e: Entry, s: set<Entry>) returns (f: Entry)
    requires e in s
    ensures Newest(f, s) && f.path == e.path
    decreases s
  {
    if g :| g in s && g.path == e.path && g.timestamp > e.timestamp {
      f := NewestFor(g, s - {e});
      assert forall h <- s :: h.path == f.path ==> h in s - {e} || h == e;
    } else {
      f := e;
    }
  }

  /** Where paths rise, what is processed is the latest of everything announced. */
  lemma RisingLatest(m: Entries, s: set<Entry>)
    requires Processed(m, s) && Rising(s)
    ensures Latest(m, s)
  {
    forall e | e in s
      ensures e.path in m && e.timestamp <= m[e.path].timestamp
    {
      var f := NewestFor(e, s);
      assert Settled(f, m, s);
    }
  }

  /** Announcements that rise are processed like a merge, in any order. */
  lemma RisingIsMerge(xs: seq<Entry>, s: set<Entry>)
    requires Delivers(xs, s) && Rising(s) && Consistent(s)
    ensures ApplyAll(map[], xs) == MergeAll(map[], xs)
  {
    DeliveredSet(xs, s);
    ProcessedAll(map[], {}, xs);
    RisingLatest(ApplyAll(map[], xs), s);
    LatestMergeAll(map[], {}, xs);
    LatestUnique(ApplyAll(map[], xs), MergeAll(map[], xs), s);
  }

  /** While an entry for an ancestor stands alone, entries below that are no newer are turned away. */
  lemma {:induction false} TurnedAway(a: Entry, path: string, xs: seq<Entry>)
    requires Covers(a.path, path) && a.path != path
    requires forall x <- xs :: x.path == path && x.timestamp <= a.timestamp
    ensures ApplyAll(map[a.path := a], xs) == map[a.path := a]
    decreases |xs|
  {
    if xs != [] {
      var m: Entries := map[a.path := a];
      assert xs[0] in xs;
      LookupIsBest(m, path);
      assert BestMatch(m, path, a.path);
      TurnedAway(a, path, xs[1..]);
    }
  }

  lemma {:induction false} NeverFiled(m: Entries, path: string, xs: seq<Entry>)
    requires path !in m && forall x <- xs :: x.path != path
    ensures path !in ApplyAll(m, xs)
    decreases |xs|
  {
    if xs != [] {
      NeverFiled(ApplyAnnouncement(m, xs[0]), path, xs[1..]);
    }
  }

  /** A path's entry is never removed, nor replaced by one that is no newer. */
  lemma {:induction false} StaysFiled(m: Entries, e: Entry, xs: seq<Entry>)
    requires e.path in m
    ensures e.path in ApplyAll(m, xs)
    ensures m[e.path] == e && (forall x <- xs :: x.path == e.path ==> x.timestamp <= e.timestamp) ==>
      ApplyAll(m, xs)[e.path] == e
    decreases |xs|
  {
    if xs != [] {
      LookupIsBest(m, e.path);
      assert BestMatch(m, e.path, e.path);
      StaysFiled(ApplyAnnouncement(m, xs[0]), e, xs[1..]);
    }
  }

  lemma {:induction false} ApplyBatches(m: Entries, xs: seq<Entry>, ys: seq<Entry>)
    ensures ApplyAll(m, xs + ys) == ApplyAll(ApplyAll(m, xs), ys)
    decreases |xs|
  {
    if xs == [] {
      assert xs + ys == ys;
    } else {
      assert (xs + ys)[1..] == xs[1..] + ys;
      ApplyBatches(ApplyAnnouncement(m, xs[0]), xs[1..], ys);
    }
  }

  /** The ancestor first, and the path is lost. */
  lemma AncestorFirst(a: Entry, path: string, s: set<Entry>) returns (xs: seq<Entry>)
    requires a in s && Covers(a.path, path) && a.path != path
    requires forall f <- s :: f.path == path ==> f.timestamp <= a.timestamp
    ensures Delivers(xs, s) && path !in ApplyAll(map[], xs)
  {
    var below := DeliveryOf(set f | f in s && f.path == path);
    var rest := DeliveryOf(set f | f in s && f.path != path);
    xs := [a] + below + rest;
    FirstApplied(a);
    ApplyBatches(map[], [a] + below, rest);
    ApplyBatches(map[], [a], below);
    TurnedAway(a, path, below);
    NeverFiled(map[a.path := a], path, rest);
  }

  lemma FirstApplied(e: Entry)
    ensures ApplyAll(map[], [e]) == map[e.path := e]
  {
    LookupIsBest(map[], e.path);
    assert [e][1..] == [];
  }

  /** The path first, and it stays. */
  lemma PathFirst(e: Entry, s: set<Entry>) returns (xs: seq<Entry>)
    requires e in s
    ensures Delivers(xs, s) && e.path in ApplyAll(map[], xs)
    ensures Newest(e, s) ==> ApplyAll(map[], xs)[e.path] == e
  {
    var all := DeliveryOf(s);
    xs := [e] + all;
    FirstApplied(e);
    ApplyBatches(map[], [e], all);
    StaysFiled(map[e.path := e], e, all);
  }

  ghost predicate AlwaysAgree(s: set<Entry>) {
    forall xs, ys :: Delivers(xs, s) && Delivers(ys, s) ==> ApplyAll(map[], xs) == ApplyAll(map[], ys)
  }

  /**
    The exact condition for announcements: nodes that process the same ones in any order
    agree precisely when no path has two newest ones and paths rise. Where no path lies
    below another the latter holds trivially.
   */
  lemma AnnouncementsAgreeIff(s: set<Entry>)
    ensures AlwaysAgree(s) <==> Rising(s) && Consistent(s)
  {
    if !Consistent(s) {
      var e, f :| Newest(e, s) && Newest(f, s) && e.path == f.path && e != f;
      var xs := PathFirst(e, s);
      var ys := PathFirst(f, s);
    } else if Rising(s) {
      forall xs, ys | Delivers(xs, s) && Delivers(ys, s)
        ensures ApplyAll(map[], xs) == ApplyAll(map[], ys)
      {
        RisingIsMerge(xs, s);
        RisingIsMerge(ys, s);
        ConvergesIff(s);
      }
    } else {
      var a, e :| a in s && e in s && Covers(a.path, e.path) && a.path != e.path
        && !exists f <- s :: f.path == e.path && f.timestamp > a.timestamp;
      var xs := AncestorFirst(a, e.path, s);
      var ys := PathFirst(e, s);
    }
  }

  /** Nested paths: a parent announced first shadows an older announcement for its child. */
  lemma NestedOrderMatters(a: Identity, b: Identity)
    ensures var parent, child := Entry("x", a, 2), Entry("x.y", b, 1);
      && ApplyAll(map[], [parent, child]) == map["x" := parent]
      && ApplyAll(map[], [child, parent]) == map["x" := parent, "x.y" := child]
  {
    var parent, child := Entry("x", a, 2), Entry("x.y", b, 1);
    var none: Entries := map[];
    var onlyParent: Entries := map["x" := parent];
    var onlyChild: Entries := map["x.y" := child];
    assert [parent, child][1..] == [child] && [child, parent][1..] == [parent];
    assert Covers("x", "x.y");
    LookupIsBest(none, "x");
    LookupIsBest(none, "x.y");
    LookupIsBest(onlyParent, "x.y");
    assert BestMatch(onlyParent, "x.y", "x");
    LookupIsBest(onlyChild, "x");
    assert ApplyAnnouncement(none, parent) == onlyParent;
    assert ApplyAnnouncement(none, child) == onlyChild;
    assert ApplyAnnouncement(onlyParent, child) == onlyParent;
    assert ApplyAnnouncement(onlyChild, parent) == map["x" := parent, "x.y" := child];
    assert ApplyAll(onlyParent, [child]) == onlyParent;
    assert ApplyAll(onlyChild, [parent]) == map["x" := parent, "x.y" := child];
  }

  // --------------------------------------------------------- re-homing

  /** Why a call reports failure; with `NoGossip` the change is made all the same, but not announced. */
  datatype AuthorityError = NotAuthority | NotSubscriber | NoGossip

  function HasId(subscribers: seq<Identity>, id: string): bool {
    exists s <- subscribers :: s.id == id
  }

  /** `SplitAuthority`; delegating is splitting a path off from itself. */
  function Rehome(m: Entries, self: Identity, subscribers: seq<Identity>, held: string, target: string,
                  authority: Identity, now: int): Result<Entries, AuthorityError> {
    match Lookup(m, held)
    case None => Err(NotAuthority)
    case Some(e) =>
      if e.authority.id != self.id then Err(NotAuthority)
      else if !HasId(subscribers, authority.id) then Err(NotSubscriber)
      else Ok(m[target := Entry(target, authority, now)])
  }

  /** `p` is at or below `target`, and no deeper entry stands between them. */
  ghost predicate Rehomed(m: Entries, target: string, p: string) {
    Covers(target, p) && forall q <- m :: Covers(q, p) ==> |q| <= |target|
  }

  /**
    A successful delegation or split moves exactly the paths at or below the target that
    no deeper entry covers; every other path keeps its entry, and the new authority bears
    a subscriber's ID.
   */
  lemma RehomeEffect(m: Entries, self: Identity, subscribers: seq<Identity>, held: string, target: string,
                     authority: Identity, now: int, p: string)
    requires Rehome(m, self, subscribers, held, target, authority, now).Ok?
    ensures HasId(subscribers, authority.id)
    ensures Lookup(m, held).Some? && Lookup(m, held).value.authority.id == self.id
    ensures Lookup(Rehome(m, self, subscribers, held, target, authority, now).value, p)
         == if Rehomed(m, target, p) then Some(Entry(target, authority, now)) else Lookup(m, p)
  {
    var e := Entry(target, authority, now);
    var m' := m[target := e];
    LookupIsBest(m', p);
    LookupIsBest(m, p);
    if Rehomed(m, target, p) {
      assert BestMatch(m', p, target);
    } else if Lookup(m, p).Some? {
      var q :| BestMatch(m, p, q) && Lookup(m, p) == Some(m[q]);
      assert q != target;
      assert BestMatch(m', p, q);
    }
  }

  ghost predicate Names(e: Option<Entry>, self: Identity) {
    e.Some? && e.value.authority.id == self.id
  }

  /**
    What a split takes, exactly: all paths it re-homes were held by the node itself if and
    only if the node held the sub-path. The code checks only the parent path.
   */
  lemma SplitTakesOwnIff(m: Entries, self: Identity, target: string)
    ensures (forall p :: Rehomed(m, target, p) ==> Names(Lookup(m, p), self)) <==> Names(Lookup(m, target), self)
  {
    assert Rehomed(m, target, target);
    if Names(Lookup(m, target), self) {
      forall p | Rehomed(m, target, p)
        ensures Lookup(m, p) == Lookup(m, target)
      {
        SameLookup(m, target, p);
      }
    }
  }

  lemma SameLookup(m: Entries, target: string, p: string)
    requires Rehomed(m, target, p)
    ensures Lookup(m, p) == Lookup(m, target)
  {
    LookupIsBest(m, p);
    LookupIsBest(m, target);
    if Lookup(m, p).Some? {
      var q :| BestMatch(m, p, q) && Lookup(m, p) == Some(m[q]);
      assert Covers(q, target);
      assert BestMatch(m, target, q);
    }
  }

  /** Two splits of "a" that take what another node held: of an unrelated path, and of one below "a". */
  lemma SplitTakesOthers(self: Identity, other: Identity, third: Identity, now: int)
    requires self.id != other.id
    ensures SplitTakes("b", self, other, third, now) && SplitTakes("a.b", self, other, third, now)
  {
    assert third in [third];
  }

  ghost predicate SplitTakes(target: string, self: Identity, other: Identity, third: Identity, now: int) {
    var m: Entries := map["a" := Entry("a", self, 0), target := Entry(target, other, 0)];
    var r := Rehome(m, self, [third], "a", target, third, now);
    && r.Ok? && Lookup(m, target) == Some(Entry(target, other, 0))
    && Lookup(r.value, target) == Some(Entry(target, third, now))
  }
}
