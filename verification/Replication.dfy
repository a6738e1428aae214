/**
  Subscription replication: writes are queued per path, and a single background loop
  copies the queues, sends each copy to the subscribers without holding the lock, and
  then trims as many writes as it copied, while new writes keep arriving.
 */
module Replication {
  import opened Wrappers
  import opened Directory

  datatype Write = Write(path: seq<string>, value: string, author: nat, timestamp: int, subscribers: seq<Identity>)

  type Queues = map<string, seq<Write>>

  function QueueAt(q: Queues, p: string): seq<Write> {
    if p in q then q[p] else []
  }

  // ------------------------------------------------- the locked sections

  function Enqueue(q: Queues, p: string, w: Write): Queues {
    q[p := QueueAt(q, p) + [w]]
  }

  /** A copy of every queue that has something in it. */
  function NonEmpty(q: Queues): Queues {
    map p | p in q && q[p] != [] :: q[p]
  }

  /** Drops the first `n` writes; with fewer in the queue the slice expression would panic. */
  function Trim(q: Queues, p: string, n: nat): Queues
    requires n <= |QueueAt(q, p)|
  {
    q[p := QueueAt(q, p)[n..]]
  }

  /** Who took the batch, when `deliver(i, j)` says whether the send to write `i`'s subscriber `j` succeeded. */
  ghost function AcceptedBy(batch: seq<Write>, deliver: (nat, nat) -> bool): set<Identity> {
    set i: nat, j: nat | i < |batch| && j < |batch[i].subscribers| && deliver(i, j) :: batch[i].subscribers[j]
  }

  /** The sends that succeeded, as positions of a write and of one of its subscribers. */
  ghost function AcceptedSends(batch: seq<Write>, deliver: (nat, nat) -> bool): set<(nat, nat)> {
    set i: nat, j: nat | i < |batch| && j < |batch[i].subscribers| && deliver(i, j) :: (i, j)
  }

  // --------------------------------------------------- the interleaving

  /** A batch the loop retired, with the subscribers that accepted it. */
  datatype Delivery = Delivery(batch: seq<Write>, acceptedBy: set<Identity>)

  /** Where the loop stands: between rounds, or with copies still to send and perhaps one sent but not yet trimmed. */
  datatype Loop = Idle | Working(todo: Queues, sent: Option<(string, Delivery)>)

  datatype State = State(pending: Queues, loop: Loop, recorded: Queues, delivered: map<string, seq<Delivery>>)

  datatype Step =
    | Record(path: string, write: Write)
    | Snapshot
    | Send(path: string, deliver: (nat, nat) -> bool)
    | TrimSent
    | FinishRound

  function DeliveredAt(delivered: map<string, seq<Delivery>>, p: string): seq<Delivery> {
    if p in delivered then delivered[p] else []
  }

  function Retired(ds: seq<Delivery>): seq<Write> {
    if ds == [] then [] else Retired(ds[..|ds| - 1]) + ds[|ds| - 1].batch
  }

  /** Only writes that somebody subscribes to are ever queued. */
  ghost predicate Can(s: State, step: Step) {
    match step
    case Record(_, w) => w.subscribers != []
    case Snapshot => s.loop.Idle?
    case Send(p, _) => s.loop.Working? && s.loop.sent.None? && p in s.loop.todo
    case TrimSent => s.loop.Working? && s.loop.sent.Some? && InRange(s, s.loop.sent.value.0, s.loop.sent.value.1)
    case FinishRound => s.loop == Working(map[], None)
  }

  /** The slice that trims a batch stays within the queue. */
  ghost predicate InRange(s: State, p: string, d: Delivery) {
    |d.batch| <= |QueueAt(s.pending, p)|
  }

  ghost function After(s: State, step: Step): State
    requires Can(s, step)
  {
    match step
    case Record(p, w) => s.(pending := Enqueue(s.pending, p, w), recorded := Enqueue(s.recorded, p, w))
    case Snapshot => s.(loop := Working(NonEmpty(s.pending), None))
    case Send(p, deliver) =>
      var batch := s.loop.todo[p];
      s.(loop := Working(s.loop.todo - {p}, Some((p, Delivery(batch, AcceptedBy(batch, deliver))))))
    case TrimSent =>
      var (p, d) := s.loop.sent.value;
      var done := s.(loop := Working(s.loop.todo, None));
      if d.acceptedBy == {} then done
      else done.(pending := Trim(s.pending, p, |d.batch|),
                 delivered := s.delivered[p := DeliveredAt(s.delivered, p) + [d]])
    case FinishRound => s.(loop := Idle)
  }

  ghost predicate Runs(s: State, steps: seq<Step>, s': State)
    decreases |steps|
  {
    if steps == [] then s == s'
    else Can(s, steps[0]) && Runs(After(s, steps[0]), steps[1..], s')
  }

  // -------------------------------------------------------- conservation

  /** Nothing is lost, duplicated or reordered: recorded is retired followed by pending. */
  ghost predicate Conserved(s: State) {
    forall p :: QueueAt(s.recorded, p) == Retired(DeliveredAt(s.delivered, p)) + QueueAt(s.pending, p)
  }

  /** A retired batch was taken by someone, and only by subscribers of its own writes. */
  ghost predicate WasAccepted(d: Delivery) {
    d.acceptedBy != {} && forall a <- d.acceptedBy :: exists w <- d.batch :: a in w.subscribers
  }

  ghost predicate AllAccepted(s: State) {
    forall p, d :: d in DeliveredAt(s.delivered, p) ==> WasAccepted(d)
  }

  /** What the loop still holds is a prefix of what is queued, however much was queued since. */
  ghost predicate CopiesArePrefixes(s: State) {
    s.loop.Working? ==>
      && (forall p <- s.loop.todo :: s.loop.todo[p] <= QueueAt(s.pending, p))
      && (s.loop.sent.Some? ==>
            var (p, d) := s.loop.sent.value;
            && p !in s.loop.todo && d.batch <= QueueAt(s.pending, p)
            && (d.acceptedBy != {} ==> WasAccepted(d)))
  }

  ghost predicate Invariant(s: State) {
    Conserved(s) && AllAccepted(s) && CopiesArePrefixes(s)
  }

  lemma AcceptedBySubscribers(batch: seq<Write>, deliver: (nat, nat) -> bool)
    ensures forall a <- AcceptedBy(batch, deliver) :: exists w <- batch :: a in w.subscribers
  {
    forall a | a in AcceptedBy(batch, deliver)
      ensures exists w <- batch :: a in w.subscribers
    {
      var i: nat, j: nat :| i < |batch| && j < |batch[i].subscribers| && deliver(i, j) && batch[i].subscribers[j] == a;
      assert batch[i] in batch && a in batch[i].subscribers;
    }
  }

  lemma RecordKeepsInvariant(s: State, p: string, w: Write)
    requires Invariant(s) && w.subscribers != []
    ensures Invariant(After(s, Record(p, w)))
  {
    hide QueueAt;
    hide Enqueue;
    hide Retired;
    hide WasAccepted;
    hide CopiesArePrefixes;
    var s' := After(s, Record(p, w));
    forall q
      ensures QueueAt(s'.recorded, q) == Retired(DeliveredAt(s.delivered, q)) + QueueAt(s'.pending, q)
    {
      assert QueueAt(s.recorded, q) == Retired(DeliveredAt(s.delivered, q)) + QueueAt(s.pending, q);
      EnqueueAt(s.recorded, p, w, q);
      EnqueueAt(s.pending, p, w, q);
    }
    RecordKeepsCopies(s, p, w);
  }

  lemma EnqueueAt(q: Queues, p: string, w: Write, x: string)
    ensures QueueAt(Enqueue(q, p, w), x) == if x == p then QueueAt(q, p) + [w] else QueueAt(q, x)
  {
  }

  lemma RecordKeepsCopies(s: State, p: string, w: Write)
    requires CopiesArePrefixes(s) && w.subscribers != []
    ensures CopiesArePrefixes(After(s, Record(p, w)))
  {
    forall q
      ensures QueueAt(s.pending, q) <= QueueAt(Enqueue(s.pending, p, w), q)
    {
      EnqueueAt(s.pending, p, w, q);
    }
  }

  lemma TrimKeepsInvariant(s: State)
    requires Invariant(s) && Can(s, TrimSent)
    ensures Invariant(After(s, TrimSent))
  {
    hide Conserved;
    hide AllAccepted;
    hide QueueAt;
    if s.loop.sent.value.1.acceptedBy != {} {
      TrimConserves(s);
      TrimAccepts(s);
      TrimKeepsCopies(s);
    } else {
      NothingTrimmed(s);
    }
  }

  lemma NothingTrimmed(s: State)
    requires Invariant(s) && Can(s, TrimSent) && s.loop.sent.value.1.acceptedBy == {}
    ensures Conserved(After(s, TrimSent)) && AllAccepted(After(s, TrimSent))
  {
    hide QueueAt;
    hide Retired;
    hide WasAccepted;
    hide DeliveredAt;
  }

  lemma TrimConserves(s: State)
    requires Conserved(s) && CopiesArePrefixes(s) && Can(s, TrimSent) && s.loop.sent.value.1.acceptedBy != {}
    ensures Conserved(After(s, TrimSent))
  {
    hide QueueAt;
    hide Retired;
    hide Trim;
    hide WasAccepted;
    hide DeliveredAt;
    var s' := After(s, TrimSent);
    var (p, d) := s.loop.sent.value;
    forall q
      ensures QueueAt(s'.recorded, q) == Retired(DeliveredAt(s'.delivered, q)) + QueueAt(s'.pending, q)
    {
      assert QueueAt(s.recorded, q) == Retired(DeliveredAt(s.delivered, q)) + QueueAt(s.pending, q);
      TrimAt(s.pending, p, |d.batch|, q);
      DeliverAt(s.delivered, p, d, q);
      if q == p {
        PrefixRetired(QueueAt(s.recorded, p), DeliveredAt(s.delivered, p), d, QueueAt(s.pending, p));
      }
    }
  }

  lemma DeliverAt(delivered: map<string, seq<Delivery>>, p: string, d: Delivery, x: string)
    ensures DeliveredAt(delivered[p := DeliveredAt(delivered, p) + [d]], x)
         == if x == p then DeliveredAt(delivered, p) + [d] else DeliveredAt(delivered, x)
  {
  }

  /** Retiring a prefix of what is pending moves it from the one side to the other. */
  lemma PrefixRetired(recorded: seq<Write>, ds: seq<Delivery>, d: Delivery, pending: seq<Write>)
    requires recorded == Retired(ds) + pending && d.batch <= pending
    ensures recorded == Retired(ds + [d]) + pending[|d.batch|..]
  {
    hide Retired;
    RetireOne(ds, d);
    assert pending == d.batch + pending[|d.batch|..];
  }

  lemma TrimAccepts(s: State)
    requires AllAccepted(s) && CopiesArePrefixes(s) && Can(s, TrimSent) && s.loop.sent.value.1.acceptedBy != {}
    ensures AllAccepted(After(s, TrimSent))
  {
    hide QueueAt;
    hide WasAccepted;
    hide DeliveredAt;
    var s' := After(s, TrimSent);
    var (p, sent) := s.loop.sent.value;
    forall q, d | d in DeliveredAt(s'.delivered, q)
      ensures WasAccepted(d)
    {
      DeliverAt(s.delivered, p, sent, q);
    }
  }

  lemma TrimAt(q: Queues, p: string, n: nat, x: string)
    requires n <= |QueueAt(q, p)|
    ensures QueueAt(Trim(q, p, n), x) == if x == p then QueueAt(q, p)[n..] else QueueAt(q, x)
  {
  }

  lemma TrimKeepsCopies(s: State)
    requires CopiesArePrefixes(s) && Can(s, TrimSent) && s.loop.sent.value.1.acceptedBy != {}
    ensures CopiesArePrefixes(After(s, TrimSent))
  {
    var (p, d) := s.loop.sent.value;
    forall q | q in s.loop.todo
      ensures s.loop.todo[q] <= QueueAt(Trim(s.pending, p, |d.batch|), q)
    {
      TrimAt(s.pending, p, |d.batch|, q);
    }
  }

  lemma RetireOne(ds: seq<Delivery>, d: Delivery)
    ensures Retired(ds + [d]) == Retired(ds) + d.batch
  {
    assert (ds + [d])[..|ds|] == ds;
  }

  lemma StepKeepsInvariant(s: State, step: Step)
    requires Can(s, step) && Invariant(s)
    ensures Invariant(After(s, step))
  {
    match step
    case Record(p, w) => RecordKeepsInvariant(s, p, w);
    case Snapshot =>
    case Send(p, deliver) => AcceptedBySubscribers(s.loop.todo[p], deliver);
    case TrimSent => TrimKeepsInvariant(s);
    case FinishRound =>
  }

  /**
    Conservation over every interleaving: from an empty manager, however recording is
    interleaved with the loop's copying, sending and trimming, each path's recorded
    writes are its retired writes followed by its pending ones, in order, and every
    retired write was in a batch that some subscriber of that batch accepted.
   */
  lemma {:induction false} RunKeepsInvariant(s: State, steps: seq<Step>, s': State)
    requires Invariant(s) && Runs(s, steps, s')
    ensures Invariant(s')
    decreases |steps|
  {
    if steps != [] {
      StepKeepsInvariant(s, steps[0]);
      RunKeepsInvariant(After(s, steps[0]), steps[1..], s');
    }
  }

  /** The loop never trims past the end of a queue: once a copy is sent, its trim can run. */
  lemma TrimNeverPanics(s: State, steps: seq<Step>, s': State)
    requires Invariant(s) && Runs(s, steps, s')
    requires s'.loop.Working? && s'.loop.sent.Some?
    ensures Can(s', TrimSent)
  {
    RunKeepsInvariant(s, steps, s');
  }

  const START := State(map[], Idle, map[], map[])

  lemma StartInvariant()
    ensures Invariant(START)
  {
    assert forall p :: DeliveredAt(START.delivered, p) == [];
  }

  ghost predicate SameSubscribers(v: Write, w: Write) {
    forall x :: x in v.subscribers <==> x in w.subscribers
  }

  /** All writes of a batch were recorded under one set of subscribers. */
  ghost predicate UniformBatch(batch: seq<Write>) {
    forall v, w :: v in batch && w in batch ==> SameSubscribers(v, w)
  }

  ghost predicate ReachedOwn(d: Delivery, w: Write) {
    exists a <- d.acceptedBy :: a in w.subscribers
  }

  /** Every write of the batch reached a subscriber of its own. */
  ghost predicate AllReached(d: Delivery) {
    forall w <- d.batch :: ReachedOwn(d, w)
  }

  /** However the sends of a batch go, if any is accepted then every write reached a subscriber of its own. */
  ghost predicate SafeToRetire(batch: seq<Write>) {
    forall deliver: (nat, nat) -> bool :: AcceptedBy(batch, deliver) != {} ==>
      AllReached(Delivery(batch, AcceptedBy(batch, deliver)))
  }

  lemma UniformReaches(d: Delivery)
    requires WasAccepted(d) && UniformBatch(d.batch)
    ensures AllReached(d)
  {
    forall w | w in d.batch
      ensures ReachedOwn(d, w)
    {
      var a :| a in d.acceptedBy;
      var v :| v in d.batch && a in v.subscribers;
      assert SameSubscribers(v, w);
    }
  }

  /** If only the send to a subscriber that `w` lacks succeeds, `w` is retired unseen. */
  lemma OneSendOnly(batch: seq<Write>, v: Write, w: Write, x: Identity) returns (deliver: (nat, nat) -> bool)
    requires v in batch && w in batch && x in v.subscribers && x !in w.subscribers
    ensures AcceptedBy(batch, deliver) == {x} && !ReachedOwn(Delivery(batch, AcceptedBy(batch, deliver)), w)
  {
    var i :| 0 <= i < |batch| && batch[i] == v;
    var j :| 0 <= j < |v.subscribers| && v.subscribers[j] == x;
    deliver := (k: nat, l: nat) => k == i && l == j;
    assert deliver(i, j) && batch[i].subscribers[j] == x;
  }

  /** The exact condition: a batch can be retired without losing a write if and only if it is uniform. */
  lemma SafeToRetireIff(batch: seq<Write>)
    ensures SafeToRetire(batch) <==> UniformBatch(batch)
  {
    if UniformBatch(batch) {
      forall deliver: (nat, nat) -> bool | AcceptedBy(batch, deliver) != {}
        ensures AllReached(Delivery(batch, AcceptedBy(batch, deliver)))
      {
        AcceptedBySubscribers(batch, deliver);
        UniformReaches(Delivery(batch, AcceptedBy(batch, deliver)));
      }
    } else {
      var v, w :| v in batch && w in batch && !SameSubscribers(v, w);
      var x :| x in v.subscribers <==> x !in w.subscribers;
      var (with, without) := if x in v.subscribers then (v, w) else (w, v);
      var deliver := OneSendOnly(batch, with, without, x);
      assert !AllReached(Delivery(batch, AcceptedBy(batch, deliver)));
    }
  }

  /** Two runs one after the other are a run. */
  lemma {:induction false} RunsJoin(s: State, xs: seq<Step>, s': State, ys: seq<Step>, s'': State)
    requires Runs(s, xs, s') && Runs(s', ys, s'')
    ensures Runs(s, xs + ys, s'')
    decreases |xs|
  {
    if xs == [] {
      assert xs + ys == ys;
    } else {
      assert (xs + ys)[1..] == xs[1..] + ys;
      RunsJoin(After(s, xs[0]), xs[1..], s', ys, s'');
    }
  }

  /** A round that sends and trims one path's queue. */
  function RoundFor(p: string, deliver: (nat, nat) -> bool): seq<Step> {
    [Snapshot, Send(p, deliver), TrimSent]
  }

  lemma RoundRetires(s: State, p: string, deliver: (nat, nat) -> bool) returns (s': State)
    requires s.loop.Idle? && QueueAt(s.pending, p) != [] && AcceptedBy(QueueAt(s.pending, p), deliver) != {}
    ensures Runs(s, RoundFor(p, deliver), s') && QueueAt(s'.pending, p) == []
    ensures DeliveredAt(s'.delivered, p) == DeliveredAt(s.delivered, p)
      + [Delivery(QueueAt(s.pending, p), AcceptedBy(QueueAt(s.pending, p), deliver))]
  {
    var s1 := After(s, Snapshot);
    var s2 := After(s1, Send(p, deliver));
    s' := After(s2, TrimSent);
    var steps := RoundFor(p, deliver);
    assert steps[1..][1..] == [TrimSent];
    assert Runs(s2, [TrimSent], s') by {
      assert [TrimSent][1..] == [];
    }
    assert Runs(s1, steps[1..], s');
  }

  /** The run records for `p` only writes of the given kind. */
  ghost predicate RecordsOnly(steps: seq<Step>, p: string, kind: iset<Write>) {
    forall s <- steps :: s.Record? && s.path == p ==> s.write in kind
  }

  lemma {:induction false} RecordedKind(s: State, steps: seq<Step>, s': State, p: string, kind: iset<Write>)
    requires Runs(s, steps, s') && RecordsOnly(steps, p, kind)
    requires forall w <- QueueAt(s.recorded, p) :: w in kind
    ensures forall w <- QueueAt(s'.recorded, p) :: w in kind
    decreases |steps|
  {
    if steps != [] {
      assert steps[0] in steps && forall t <- steps[1..] :: t in steps;
      RecordedKind(After(s, steps[0]), steps[1..], s', p, kind);
    }
  }

  lemma {:induction false} BatchRetired(ds: seq<Delivery>, d: Delivery, w: Write)
    requires d in ds && w in d.batch
    ensures w in Retired(ds)
    decreases |ds|
  {
    if d != ds[|ds| - 1] {
      BatchRetired(ds[..|ds| - 1], d, w);
    }
  }

  lemma RunReachesOwn(steps: seq<Step>, s': State, p: string, kind: iset<Write>, d: Delivery)
    requires Runs(START, steps, s') && RecordsOnly(steps, p, kind) && d in DeliveredAt(s'.delivered, p)
    requires forall v, w :: v in kind && w in kind ==> SameSubscribers(v, w)
    ensures AllReached(d)
  {
    StartInvariant();
    RunKeepsInvariant(START, steps, s');
    RecordedKind(START, steps, s', p, kind);
    assert QueueAt(s'.recorded, p) == Retired(DeliveredAt(s'.delivered, p)) + QueueAt(s'.pending, p);
    forall w | w in d.batch
      ensures w in kind
    {
      BatchRetired(DeliveredAt(s'.delivered, p), d, w);
      assert w in QueueAt(s'.recorded, p);
    }
    UniformReaches(d);
  }

  lemma TwoRecords(p: string, v: Write, w: Write) returns (s: State)
    requires v.subscribers != [] && w.subscribers != []
    ensures Runs(START, [Record(p, v), Record(p, w)], s) && s.loop.Idle?
    ensures QueueAt(s.pending, p) == [v, w] && DeliveredAt(s.delivered, p) == []
  {
    var records := [Record(p, v), Record(p, w)];
    var s1 := After(START, records[0]);
    s := After(s1, records[1]);
    assert records[1..] == [Record(p, w)] && records[1..][1..] == [];
    assert Runs(s1, records[1..], s);
  }

  /** Recording two writes with differing subscribers and one round can lose one of them. */
  lemma MixedRunLoses(p: string, v: Write, w: Write) returns (steps: seq<Step>, s': State, d: Delivery)
    requires !SameSubscribers(v, w) && v.subscribers != [] && w.subscribers != []
    ensures Runs(START, steps, s') && RecordsOnly(steps, p, iset{v, w})
    ensures d in DeliveredAt(s'.delivered, p) && !AllReached(d)
  {
    hide Runs;
    hide AllReached;
    hide AcceptedBy;
    hide SameSubscribers;
    hide After;
    var queue := [v, w];
    assert v in queue && w in queue;
    SafeToRetireIff(queue);
    var deliver: (nat, nat) -> bool :|
      AcceptedBy(queue, deliver) != {} && !AllReached(Delivery(queue, AcceptedBy(queue, deliver)));
    var records := [Record(p, v), Record(p, w)];
    var s2 := TwoRecords(p, v, w);
    s' := RoundRetires(s2, p, deliver);
    steps := records + RoundFor(p, deliver);
    RunsJoin(START, records, s2, RoundFor(p, deliver), s');
    d := Delivery(queue, AcceptedBy(queue, deliver));
    assert DeliveredAt(s'.delivered, p)[0] == d;
  }

  /** Whatever is recorded for `p` out of `kind` and however sends go, no write is retired unseen. */
  ghost predicate NeverLoses(p: string, kind: iset<Write>) {
    forall steps, s', d ::
      Runs(START, steps, s') && RecordsOnly(steps, p, kind) && d in DeliveredAt(s'.delivered, p) ==> AllReached(d)
  }

  /**
    The exact condition over all runs: writes to a path always reach a subscriber of their
    own before they are retired if and only if they are all recorded under one set of
    subscribers.
   */
  lemma NeverLosesIff(p: string, kind: iset<Write>)
    requires forall w :: w in kind ==> w.subscribers != []
    ensures NeverLoses(p, kind) <==> forall v, w :: v in kind && w in kind ==> SameSubscribers(v, w)
  {
    if forall v, w :: v in kind && w in kind ==> SameSubscribers(v, w) {
      forall steps, s', d | Runs(START, steps, s') && RecordsOnly(steps, p, kind) && d in DeliveredAt(s'.delivered, p)
        ensures AllReached(d)
      {
        RunReachesOwn(steps, s', p, kind, d);
      }
    } else {
      var v, w :| v in kind && w in kind && !SameSubscribers(v, w);
      var steps, s', d := MixedRunLoses(p, v, w);
      assert RecordsOnly(steps, p, kind);
    }
  }
}
