/**
  The path directory: a replicated map from tree paths to the node with write authority,
  merged by last-write-wins and searched by longest dot-separated prefix.
 */
module Directory {
  import opened Wrappers

  /** A node identity; `created` is an instant, compared as an integer. */
  datatype Identity = Identity(id: string, created: int, nodeId: string)

  datatype Entry = Entry(path: string, authority: Identity, timestamp: int)

  type Entries = map<string, Entry>

  /** Every entry is filed under its own path. */
  ghost predicate Filed(m: Entries) {
    forall p <- m :: m[p].path == p
  }

  // ------------------------------------------------- last-write-wins merge

  function MergeOne(m: Entries, e: Entry): Entries {
    if e.path !in m || e.timestamp > m[e.path].timestamp then m[e.path := e] else m
  }

  function MergeAll(m: Entries, es: seq<Entry>): Entries
    decreases |es|
  {
    if es == [] then m else MergeAll(MergeOne(m, es[0]), es[1..])
  }

  /** No entry of `s` for the same path is newer than `e`. */
  ghost predicate Newest(e: Entry, s: set<Entry>) {
    e in s && forall f <- s :: f.path == e.path ==> f.timestamp <= e.timestamp
  }

  /** A path's newest timestamp names one authority. */
  ghost predicate Consistent(s: set<Entry>) {
    forall e, f :: Newest(e, s) && Newest(f, s) && e.path == f.path ==> e == f
  }

  /** `m` holds, for each path mentioned in `s`, the latest entry of `s`, and nothing else. */
  ghost predicate Latest(m: Entries, s: set<Entry>) {
    && (forall p <- m :: m[p] in s && m[p].path == p)
    && (forall e <- s :: e.path in m && e.timestamp <= m[e.path].timestamp)
  }

  lemma LatestMergeOne(m: Entries, s: set<Entry>, e: Entry)
    requires Latest(m, s)
    ensures Latest(MergeOne(m, e), s + {e})
  {
  }

  /** What a directory holds after any merges is the latest of everything it has seen. */
  lemma {:induction false} LatestMergeAll(m: Entries, s: set<Entry>, es: seq<Entry>)
    requires Latest(m, s)
    ensures Latest(MergeAll(m, es), s + set e | e in es)
    decreases |es|
  {
    hide Latest;
    hide MergeOne;
    if es == [] {
      assert s + (set e | e in es) == s;
    } else {
      LatestMergeOne(m, s, es[0]);
      LatestMergeAll(MergeOne(m, es[0]), s + {es[0]}, es[1..]);
      assert es == [es[0]] + es[1..];
      assert s + (set e | e in es) == s + {es[0]} + (set e | e in es[1..]);
    }
  }

  lemma LatestUnique(m: Entries, n: Entries, s: set<Entry>)
    requires Latest(m, s) && Latest(n, s) && Consistent(s)
    ensures m == n
  {
    forall p | p in m
      ensures p in n && m[p] == n[p]
    {
      assert m[p] in s;
      assert n[p] in s;
    }
    forall p | p in n
      ensures p in m
    {
      assert n[p] in s;
    }
  }

  /** Merging in two batches is merging once. */
  lemma {:induction false} MergeBatches(m: Entries, es: seq<Entry>, fs: seq<Entry>)
    ensures MergeAll(MergeAll(m, es), fs) == MergeAll(m, es + fs)
    decreases |es|
  {
    if es == [] {
      assert es + fs == fs;
    } else {
      assert (es + fs)[1..] == es[1..] + fs;
      MergeBatches(MergeOne(m, es[0]), es[1..], fs);
    }
  }

  /**
    Convergence: two directories that start empty and merge the same set of entries, in
    any order and with any duplication, end equal.
   */
  lemma Convergence(es: seq<Entry>, fs: seq<Entry>)
    requires (set e | e in es) == (set f | f in fs)
    requires Consistent(set e | e in es)
    ensures MergeAll(map[], es) == MergeAll(map[], fs)
  {
    LatestMergeAll(map[], {}, es);
    LatestMergeAll(map[], {}, fs);
    LatestUnique(MergeAll(map[], es), MergeAll(map[], fs), set e | e in es);
  }

  /** The entries of `s` in some order, perhaps repeated. */
  ghost predicate Delivers(es: seq<Entry>, s: set<Entry>) {
    forall e :: e in es <==> e in s
  }

  lemma DeliveredSet(es: seq<Entry>, s: set<Entry>)
    requires Delivers(es, s)
    ensures (set e | e in es) == s
  {
  }

  lemma {:induction false} DeliveryOf(s: set<Entry>) returns (es: seq<Entry>)
    ensures Delivers(es, s)
    decreases s
  {
    if s == {} {
      es := [];
    } else {
      var e :| e in s;
      var rest := DeliveryOf(s - {e});
      es := [e] + rest;
    }
  }

  /** Among the newest, the first to arrive stays. */
  lemma {:induction false} FirstNewestStays(m: Entries, e: Entry, es: seq<Entry>)
    requires e.path in m && m[e.path] == e
    requires forall f <- es :: f.path == e.path ==> f.timestamp <= e.timestamp
    ensures e.path in MergeAll(m, es) && MergeAll(m, es)[e.path] == e
    decreases |es|
  {
    if es != [] {
      FirstNewestStays(MergeOne(m, es[0]), e, es[1..]);
    }
  }

  ghost predicate AlwaysConverges(s: set<Entry>) {
    forall es, fs :: Delivers(es, s) && Delivers(fs, s) ==> MergeAll(map[], es) == MergeAll(map[], fs)
  }

  /**
    The exact condition for convergence: all deliveries of a set of entries give one
    directory precisely when no path has two newest entries.
   */
  lemma ConvergesIff(s: set<Entry>)
    ensures AlwaysConverges(s) <==> Consistent(s)
  {
    hide Newest;
    hide MergeAll;
    if Consistent(s) {
      forall es, fs | Delivers(es, s) && Delivers(fs, s)
        ensures MergeAll(map[], es) == MergeAll(map[], fs)
      {
        DeliveredSet(es, s);
        DeliveredSet(fs, s);
        Convergence(es, fs);
      }
    } else {
      var e, f :| Newest(e, s) && Newest(f, s) && e.path == f.path && e != f;
      var es := DeliveredFirst(e, s);
      var fs := DeliveredFirst(f, s);
    }
  }

  lemma DeliveredFirst(e: Entry, s: set<Entry>) returns (es: seq<Entry>)
    requires Newest(e, s)
    ensures Delivers(es, s) && e.path in MergeAll(map[], es) && MergeAll(map[], es)[e.path] == e
  {
    var rest := DeliveryOf(s);
    es := [e] + rest;
    FirstNewestStays(map[e.path := e], e, rest);
    assert es[1..] == rest;
  }

  // ---------------------------------------------------------- snapshots

  /** A listing of the directory's entries, each once, in the order the map happened to give. */
  ghost predicate Lists(es: seq<Entry>, m: Entries) {
    && |es| == |m|
    && (forall i :: 0 <= i < |es| ==> es[i].path in m && es[i] == m[es[i].path])
    && (forall i, j :: 0 <= i < j < |es| ==> es[i].path != es[j].path)
    && (forall p <- m :: m[p] in es)
  }

  function EntrySet(m: Entries): set<Entry> {
    set p | p in m :: m[p]
  }

  lemma ListsSet(es: seq<Entry>, m: Entries)
    requires Lists(es, m)
    ensures (set e | e in es) == EntrySet(m)
  {
  }

  lemma LatestOfItself(m: Entries)
    requires Filed(m)
    ensures Latest(m, EntrySet(m))
  {
  }

  /** A gossiped snapshot omits superseded entries, and loses nothing by it. */
  lemma LatestGossip(m: Entries, s: set<Entry>, n: Entries, t: set<Entry>, snapshot: seq<Entry>)
    requires Latest(m, s) && Latest(n, t) && Lists(snapshot, n)
    ensures Latest(MergeAll(m, snapshot), s + t)
  {
    LatestMergeAll(m, s, snapshot);
    ListsSet(snapshot, n);
    var r := MergeAll(m, snapshot);
    forall e | e in t
      ensures e.path in r && e.timestamp <= r[e.path].timestamp
    {
      assert n[e.path] in EntrySet(n);
    }
  }

  /** Merging again what was already seen changes nothing. */
  lemma RemergeChangesNothing(m: Entries, s: set<Entry>, n: Entries, t: set<Entry>, snapshot: seq<Entry>)
    requires Latest(m, s) && Latest(n, t) && t <= s && Consistent(s) && Lists(snapshot, n)
    ensures MergeAll(m, snapshot) == m
  {
    LatestGossip(m, s, n, t, snapshot);
    assert s + t == s;
    LatestUnique(m, MergeAll(m, snapshot), s);
  }

  /**
    Exchanging snapshots: after each of two directories merges the other's listing, in
    whatever order, they are equal, and merging either listing again changes nothing.
   */
  lemma ExchangeConverges(m: Entries, n: Entries, es: seq<Entry>, fs: seq<Entry>)
    requires Filed(m) && Filed(n) && Lists(es, m) && Lists(fs, n)
    requires Consistent(EntrySet(m) + EntrySet(n))
    ensures MergeAll(m, fs) == MergeAll(n, es)
    ensures MergeAll(MergeAll(m, fs), es) == MergeAll(m, fs)
    ensures MergeAll(MergeAll(m, fs), fs) == MergeAll(m, fs)
  {
    LatestOfItself(m);
    LatestOfItself(n);
    ExchangeEqual(m, EntrySet(m), n, EntrySet(n), es, fs);
    assert Latest(MergeAll(m, fs), EntrySet(m) + EntrySet(n)) by {
      LatestGossip(m, EntrySet(m), n, EntrySet(n), fs);
    }
    RemergeChangesNothing(MergeAll(m, fs), EntrySet(m) + EntrySet(n), m, EntrySet(m), es);
    RemergeChangesNothing(MergeAll(m, fs), EntrySet(m) + EntrySet(n), n, EntrySet(n), fs);
  }

  lemma ExchangeEqual(m: Entries, s: set<Entry>, n: Entries, t: set<Entry>, es: seq<Entry>, fs: seq<Entry>)
    requires Latest(m, s) && Latest(n, t) && Consistent(s + t) && Lists(es, m) && Lists(fs, n)
    ensures MergeAll(m, fs) == MergeAll(n, es)
  {
    var all := s + t;
    assert all == t + s;
    assert Latest(MergeAll(m, fs), all) by {
      LatestGossip(m, s, n, t, fs);
    }
    assert Latest(MergeAll(n, es), all) by {
      LatestGossip(n, t, m, s, es);
    }
    LatestUnique(MergeAll(m, fs), MergeAll(n, es), all);
  }

  /** A local `Set` agrees with a merge exactly when nothing at least as new, and different, is overwritten. */
  lemma SetIsMergeIff(m: Entries, e: Entry)
    ensures m[e.path := e] == MergeOne(m, e)
       <==> e.path !in m || e.timestamp > m[e.path].timestamp || m[e.path] == e
  {
    if m[e.path := e] == MergeOne(m, e) {
      assert m[e.path := e][e.path] == e;
    } else {
      assert e.path in m;
      assert m[e.path] != e by {
        assert m[e.path] == e ==> m[e.path := e] == m;
      }
    }
  }

  /** A node that sets an entry with a clock behind its directory's loses it to any listing of what it held. */
  lemma StaleSetUndone(m: Entries, e: Entry, es: seq<Entry>)
    requires Filed(m) && Lists(es, m)
    requires e.path in m && e.timestamp < m[e.path].timestamp
    ensures MergeAll(m[e.path := e], es) == m
  {
    var stale := m[e.path := e];
    var all := EntrySet(stale) + EntrySet(m);
    assert Latest(MergeAll(stale, es), all) by {
      LatestOfItself(stale);
      LatestOfItself(m);
      LatestGossip(stale, EntrySet(stale), m, EntrySet(m), es);
    }
    OlderEntryAdded(m, e, stale);
    LatestUnique(MergeAll(stale, es), m, all);
  }

  /**
    The exact condition: an entry set locally survives merging a listing of what the
    directory held before if and only if nothing newer was held for its path.
   */
  lemma SetSurvivesIff(m: Entries, e: Entry, es: seq<Entry>)
    requires Filed(m) && Lists(es, m)
    ensures var after := MergeAll(m[e.path := e], es);
      (e.path in after && after[e.path] == e) <==> (e.path !in m || e.timestamp >= m[e.path].timestamp)
  {
    if e.path !in m || e.timestamp >= m[e.path].timestamp {
      forall f | f in es && f.path == e.path
        ensures f.timestamp <= e.timestamp
      {
        var i :| 0 <= i < |es| && es[i] == f;
      }
      FirstNewestStays(m[e.path := e], e, es);
    } else {
      StaleSetUndone(m, e, es);
    }
  }

  lemma OlderEntryAdded(m: Entries, e: Entry, stale: Entries)
    requires Filed(m) && e.path in m && e.timestamp < m[e.path].timestamp && stale == m[e.path := e]
    ensures Latest(m, EntrySet(stale) + EntrySet(m)) && Consistent(EntrySet(stale) + EntrySet(m))
  {
    forall f | f in EntrySet(stale) + EntrySet(m)
      ensures f == e || (f.path in m && m[f.path] == f)
    {
      if f in EntrySet(stale) {
        var p :| p in stale && stale[p] == f;
      }
    }
    forall p | p in m
      ensures m[p] in EntrySet(stale) + EntrySet(m)
    {
      assert m[p] in EntrySet(m);
    }
  }

  // ------------------------------------------------------- mesh-wide runs

  /** A node's directory, with the ghost record of every entry it has learned of. */
  datatype Replica = Replica(entries: Entries, seen: set<Entry>)

  /** A batch of entries reaches a node, a node merges a snapshot taken at another, or a node sets an entry itself. */
  datatype Step =
    | Receive(node: nat, batch: seq<Entry>)
    | Gossip(from: nat, to: nat, snapshot: seq<Entry>)
    | LocalSet(node: nat, entry: Entry)

  ghost predicate Enabled(nodes: seq<Replica>, step: Step) {
    match step
    case Receive(node, _) => node < |nodes|
    case Gossip(from, to, snapshot) => from < |nodes| && to < |nodes| && Lists(snapshot, nodes[from].entries)
    case LocalSet(node, _) => node < |nodes|
  }

  ghost function Apply(nodes: seq<Replica>, step: Step): seq<Replica>
    requires Enabled(nodes, step)
  {
    match step
    case Receive(node, batch) =>
      nodes[node := Replica(MergeAll(nodes[node].entries, batch), nodes[node].seen + set e | e in batch)]
    case Gossip(from, to, snapshot) =>
      nodes[to := Replica(MergeAll(nodes[to].entries, snapshot), nodes[to].seen + nodes[from].seen)]
    case LocalSet(node, e) =>
      nodes[node := Replica(nodes[node].entries[e.path := e], nodes[node].seen + {e})]
  }

  ghost predicate Runs(before: seq<Replica>, steps: seq<Step>, after: seq<Replica>)
    decreases |steps|
  {
    if steps == [] then before == after
    else Enabled(before, steps[0]) && Runs(Apply(before, steps[0]), steps[1..], after)
  }

  ghost predicate AllLatest(nodes: seq<Replica>) {
    forall i :: 0 <= i < |nodes| ==> Latest(nodes[i].entries, nodes[i].seen)
  }

  /** Nothing newer is held for the entry's path. */
  predicate NotBehind(m: Entries, e: Entry) {
    e.path !in m || e.timestamp >= m[e.path].timestamp
  }

  /** A local set keeps a directory the latest of what it has seen exactly when nothing newer is held. */
  lemma SetKeepsLatestIff(m: Entries, s: set<Entry>, e: Entry)
    requires Latest(m, s)
    ensures Latest(m[e.path := e], s + {e}) <==> NotBehind(m, e)
  {
    var m' := m[e.path := e];
    if NotBehind(m, e) {
      assert forall p <- m' :: m'[p] in s + {e};
    } else {
      assert m[e.path] in s + {e};
    }
  }

  /** The step sets nothing that is behind what its node holds. */
  ghost predicate InStep(nodes: seq<Replica>, step: Step)
    requires Enabled(nodes, step)
  {
    step.LocalSet? ==> NotBehind(nodes[step.node].entries, step.entry)
  }

  lemma StepKeepsLatestIff(nodes: seq<Replica>, step: Step)
    requires AllLatest(nodes) && Enabled(nodes, step)
    ensures |Apply(nodes, step)| == |nodes| && (AllLatest(Apply(nodes, step)) <==> InStep(nodes, step))
  {
    hide Latest;
    hide NotBehind;
    match step
    case Receive(node, batch) =>
      LatestMergeAll(nodes[node].entries, nodes[node].seen, batch);
    case Gossip(from, to, snapshot) =>
      LatestGossip(nodes[to].entries, nodes[to].seen, nodes[from].entries, nodes[from].seen, snapshot);
    case LocalSet(node, e) =>
      SetKeepsLatestIff(nodes[node].entries, nodes[node].seen, e);
      assert Apply(nodes, step)[node] == Replica(nodes[node].entries[e.path := e], nodes[node].seen + {e});
  }

  /** No set of the run is behind what its node holds at the time. */
  ghost predicate AllInStep(nodes: seq<Replica>, steps: seq<Step>)
    decreases |steps|
  {
    steps != [] ==>
      Enabled(nodes, steps[0]) && InStep(nodes, steps[0]) && AllInStep(Apply(nodes, steps[0]), steps[1..])
  }

  /** After every step of the run each directory is the latest of what it has seen. */
  ghost predicate AlwaysLatest(nodes: seq<Replica>, steps: seq<Step>)
    decreases |steps|
  {
    AllLatest(nodes) && (steps != [] ==> Enabled(nodes, steps[0]) && AlwaysLatest(Apply(nodes, steps[0]), steps[1..]))
  }

  /**
    Over any run of deliveries, gossip and local sets, every directory stays the latest of
    what it has seen, throughout, if and only if no set is behind what its node holds.
   */
  lemma {:induction false} RunKeepsLatestIff(before: seq<Replica>, steps: seq<Step>, after: seq<Replica>)
    requires AllLatest(before) && Runs(before, steps, after)
    ensures AlwaysLatest(before, steps) <==> AllInStep(before, steps)
    decreases |steps|
  {
    hide AllLatest;
    hide Apply;
    hide InStep;
    if steps != [] {
      StepKeepsLatestIff(before, steps[0]);
      if InStep(before, steps[0]) {
        RunKeepsLatestIff(Apply(before, steps[0]), steps[1..], after);
      } else {
        NotLatest(Apply(before, steps[0]), steps[1..]);
      }
    }
  }

  lemma NotLatest(nodes: seq<Replica>, steps: seq<Step>)
    requires !AllLatest(nodes)
    ensures !AlwaysLatest(nodes, steps)
  {
  }

  lemma {:induction false} RunKeepsLatest(before: seq<Replica>, steps: seq<Step>, after: seq<Replica>)
    requires AllLatest(before) && Runs(before, steps, after) && AllInStep(before, steps)
    ensures AllLatest(after) && |after| == |before|
    decreases |steps|
  {
    hide AllLatest;
    hide Apply;
    hide InStep;
    if steps != [] {
      StepKeepsLatestIff(before, steps[0]);
      RunKeepsLatest(Apply(before, steps[0]), steps[1..], after);
    }
  }

  /**
    Eventual agreement: whatever the schedule of deliveries, gossip rounds and local sets
    over any number of nodes, none of the sets behind what its node holds, two nodes that
    have learned of the same entries, directly or through others, hold equal directories.
   */
  lemma MeshConvergence(before: seq<Replica>, steps: seq<Step>, after: seq<Replica>, i: nat, j: nat)
    requires forall k :: 0 <= k < |before| ==> before[k] == Replica(map[], {})
    requires Runs(before, steps, after) && AllInStep(before, steps)
    requires i < |after| && j < |after|
    requires after[i].seen == after[j].seen && Consistent(after[i].seen)
    ensures after[i].entries == after[j].entries
  {
    RunKeepsLatest(before, steps, after);
    LatestUnique(after[i].entries, after[j].entries, after[i].seen);
  }

  // ------------------------------------------------ longest-prefix lookup

  /** `q` answers for `p`: the same path, or a non-empty one that `p` extends after a dot. */
  predicate Covers(q: string, p: string) {
    q == p || (0 < |q| < |p| && p[..|q|] == q && p[|q|] == '.')
  }

  /** The position of the last dot among the first `n` characters, or -1. */
  function LastDot(p: string, n: nat): (i: int)
    requires n <= |p|
    ensures -1 <= i < n
    ensures i >= 0 ==> p[i] == '.'
    ensures forall k :: i < k < n ==> p[k] != '.'
  {
    if n == 0 then -1 else if p[n - 1] == '.' then n - 1 else LastDot(p, n - 1)
  }

  /** The path itself, else its parent, else its grandparent, up to the first segment. */
  function Lookup(m: Entries, p: string): Option<Entry> {
    if p in m then Some(m[p]) else LookupAbove(m, p, |p|)
  }

  /** Tries the ancestors of `p` that end before position `n`. */
  function LookupAbove(m: Entries, p: string, n: nat): Option<Entry>
    requires n <= |p|
  {
    var i := LastDot(p, n);
    if i <= 0 then None
    else if p[..i] in m then Some(m[p[..i]])
    else LookupAbove(m, p, i)
  }

  /** `q` is the longest entry of `m` that answers for `p`. */
  ghost predicate BestMatch(m: Entries, p: string, q: string) {
    q in m && Covers(q, p) && forall r <- m :: Covers(r, p) ==> |r| <= |q|
  }

  lemma {:induction false} LookupAboveBest(m: Entries, p: string, n: nat)
    requires n <= |p|
    ensures match LookupAbove(m, p, n)
      case None => forall q <- m :: Covers(q, p) ==> |q| >= n
      case Some(e) => exists q <- m ::
        e == m[q] && Covers(q, p) && |q| < n && forall r <- m :: Covers(r, p) && |r| < n ==> |r| <= |q|
    decreases n
  {
    var i := LastDot(p, n);
    if i > 0 {
      if p[..i] in m {
        assert Covers(p[..i], p);
      } else {
        LookupAboveBest(m, p, i);
        forall q | q in m && Covers(q, p) && |q| < n
          ensures |q| < i
        {
          assert q == p[..|q|];
        }
      }
    }
  }

  /** Lookup finds an entry exactly when some entry covers the path, and it is the longest such. */
  lemma LookupIsBest(m: Entries, p: string)
    ensures Lookup(m, p).None? <==> forall q <- m :: !Covers(q, p)
    ensures forall q :: BestMatch(m, p, q) ==> Lookup(m, p) == Some(m[q])
    ensures Lookup(m, p).Some? ==> exists q :: BestMatch(m, p, q) && Lookup(m, p) == Some(m[q])
  {
    if p in m {
      assert BestMatch(m, p, p);
    } else {
      LookupAboveBest(m, p, |p|);
      if Lookup(m, p).Some? {
        var q :| q in m && Lookup(m, p).value == m[q] && Covers(q, p) && |q| < |p|
          && forall r <- m :: Covers(r, p) && |r| < |p| ==> |r| <= |q|;
        assert BestMatch(m, p, q);
      }
    }
    forall q | BestMatch(m, p, q)
      ensures Lookup(m, p) == Some(m[q])
    {
      SameLengthSamePrefix(p, q);
    }
  }

  lemma SameLengthSamePrefix(p: string, q: string)
    requires Covers(q, p)
    ensures forall r :: Covers(r, p) && |r| == |q| ==> r == q
  {
    assert p[..|p|] == p;
  }

  // ---------------------------------------------------------- the object

  class PathDirectory {
    var entries: Entries

    ghost predicate Valid()
      reads this
    {
      Filed(entries)
    }

    constructor ()
      ensures Valid() && entries == map[]
    {
      entries := map[];
    }

    method Set(path: string, authority: Identity, timestamp: int)
      requires Valid()
      modifies this
      ensures Valid() && entries == old(entries)[path := Entry(path, authority, timestamp)]
    {
      entries := entries[path := Entry(path, authority, timestamp)];
    }

    /** Scans the entries in any order; the answer does not depend on it. */
    method Get(path: string) returns (r: Option<Entry>)
      requires Valid()
      ensures r == Lookup(entries, path)
    {
      if path in entries {
        return Some(entries[path]);
      }
      var bestMatch: Option<string> := None;
      var bestLength := 0;
      var left := entries.Keys;
      while left != {}
        invariant left <= entries.Keys
        invariant bestMatch.None? ==> bestLength == 0
        invariant bestMatch.Some? ==>
          bestMatch.value in entries && Covers(bestMatch.value, path) && |bestMatch.value| == bestLength
        invariant forall q <- entries.Keys - left :: Covers(q, path) ==> |q| <= bestLength && bestMatch.Some?
        decreases left
      {
        var entryPath :| entryPath in left;
        left := left - {entryPath};
        if |entryPath| <= |path| && path[..|entryPath|] == entryPath {
          if path == entryPath || (|entryPath| < |path| && path[|entryPath|] == '.') {
            if |entryPath| > bestLength {
              bestMatch, bestLength := Some(entryPath), |entryPath|;
            }
          }
        }
      }
      LookupIsBest(entries, path);
      if bestMatch.Some? {
        assert BestMatch(entries, path, bestMatch.value);
        r := Some(entries[bestMatch.value]);
      } else {
        r := None;
      }
    }

    method Delete(path: string)
      requires Valid()
      modifies this
      ensures Valid() && entries == old(entries) - {path}
    {
      entries := entries - {path};
    }

    method Snapshot() returns (es: seq<Entry>)
      requires Valid()
      ensures Lists(es, entries)
    {
      es := [];
      var left := entries.Keys;
      while left != {}
        invariant left <= entries.Keys && |es| + |left| == |entries|
        invariant forall i :: 0 <= i < |es| ==> es[i].path in entries.Keys - left && es[i] == entries[es[i].path]
        invariant forall i, j :: 0 <= i < j < |es| ==> es[i].path != es[j].path
        invariant forall p <- entries.Keys - left :: entries[p] in es
        decreases left
      {
        var p :| p in left;
        es := es + [entries[p]];
        left := left - {p};
      }
    }

    method Merge(incoming: seq<Entry>)
      requires Valid()
      modifies this
      ensures Valid() && entries == MergeAll(old(entries), incoming)
    {
      assert incoming[0..] == incoming;
      for i := 0 to |incoming|
        invariant Valid() && MergeAll(old(entries), incoming) == MergeAll(entries, incoming[i..])
      {
        var e := incoming[i];
        assert incoming[i..][1..] == incoming[i + 1..];
        if e.path !in entries {
          entries := entries[e.path := e];
        } else if e.timestamp > entries[e.path].timestamp {
          entries := entries[e.path := e];
        }
      }
    }

    method Size() returns (n: nat)
      ensures n == |entries|
    {
      n := |entries|;
    }
  }
}
