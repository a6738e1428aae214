/** The replication manager as an object, and the dotted text of a path. */
module ReplicationManagement {
  import opened Wrappers
  import opened Directory
  import opened Replication

  // ---------------------------------------------------------- path text

  function JoinPath(path: seq<string>): string
    decreases |path|
  {
    if path == [] then ""
    else if |path| == 1 then path[0]
    else JoinPath(path[..|path| - 1]) + "." + path[|path| - 1]
  }

  ghost predicate DotFree(s: string) {
    '.' !in s
  }

  /** Cuts at every dot. */
  function SplitPath(s: string): (path: seq<string>)
    ensures |path| > 0 && forall seg <- path :: DotFree(seg)
    decreases |s|
  {
    var i := LastDot(s, |s|);
    if i < 0 then [s] else SplitPath(s[..i]) + [s[i + 1..]]
  }

  lemma LastDotAppend(s: string, seg: string, n: nat)
    requires DotFree(seg) && |s| + 1 <= n <= |s| + 1 + |seg|
    ensures LastDot(s + "." + seg, n) == |s|
  {
    if n > |s| + 1 {
      assert (s + "." + seg)[n - 1] == seg[n - |s| - 2];
      LastDotAppend(s, seg, n - 1);
    }
  }

  lemma LastDotNone(s: string, n: nat)
    requires DotFree(s) && n <= |s|
    ensures LastDot(s, n) == -1
  {
    if n > 0 {
      LastDotNone(s, n - 1);
    }
  }

  lemma {:induction false} SplitJoin(path: seq<string>)
    requires path != [] && forall seg <- path :: DotFree(seg)
    ensures SplitPath(JoinPath(path)) == path
    decreases |path|
  {
    var front, last := path[..|path| - 1], path[|path| - 1];
    assert path == front + [last];
    if |path| == 1 {
      LastDotNone(last, |last|);
    } else {
      var s := JoinPath(path);
      LastDotAppend(JoinPath(front), last, |s|);
      assert s[..|JoinPath(front)|] == JoinPath(front) && s[|JoinPath(front)| + 1..] == last;
      SplitJoin(front);
    }
  }

  /** The text determines the path exactly when the path has a segment and no segment has a dot. */
  lemma PathTextFaithful(path: seq<string>)
    ensures SplitPath(JoinPath(path)) == path <==> path != [] && forall seg <- path :: DotFree(seg)
  {
    if path != [] && forall seg <- path :: DotFree(seg) {
      SplitJoin(path);
    }
  }

  method PathToString(path: seq<string>) returns (result: string)
    ensures result == JoinPath(path)
  {
    if |path| == 0 {
      return "";
    }
    result := "";
    assert path[..0] == [];
    for i := 0 to |path|
      invariant result == JoinPath(path[..i])
    {
      assert path[..i + 1][..i] == path[..i];
      if i > 0 {
        result := result + ".";
      }
      result := result + path[i];
    }
    assert path[..|path|] == path;
  }

  // ------------------------------------------------------- the object

  datatype RecordError = NotAuthority

  datatype ForwardOutcome = NoAuthority | HandledLocally(r: Result<(), RecordError>) | ForwardedTo(authority: Identity)

  lemma AcceptedByNone(batch: seq<Write>, deliver: (nat, nat) -> bool)
    ensures |AcceptedSends(batch, deliver)| > 0 <==> AcceptedBy(batch, deliver) != {}
  {
    var sends := AcceptedSends(batch, deliver);
    if send :| send in sends {
      assert batch[send.0].subscribers[send.1] in AcceptedBy(batch, deliver);
    }
    if x :| x in AcceptedBy(batch, deliver) {
      var i: nat, j: nat :| i < |batch| && j < |batch[i].subscribers| && deliver(i, j) && batch[i].subscribers[j] == x;
      assert (i, j) in sends;
    }
  }

  class ReplicationManager {
    const self: Identity
    const directory: PathDirectory
    var subscriptions: map<string, seq<Identity>>
    var pending: Queues

    constructor (self: Identity, directory: PathDirectory, subscriptions: map<string, seq<Identity>>)
      ensures pending == map[] && this.directory == directory && this.subscriptions == subscriptions
    {
      this.self, this.directory, this.subscriptions := self, directory, subscriptions;
      pending := map[];
    }

    function Subscribers(path: string): seq<Identity>
      reads this
    {
      if path in subscriptions then subscriptions[path] else []
    }

    ghost predicate IsAuthority(path: string)
      reads this, directory
    {
      Lookup(directory.entries, path).Some? && Lookup(directory.entries, path).value.authority.id == self.id
    }

    /** The queues after the authority records a write: only one that somebody subscribes to is queued. */
    ghost function WithWrite(q: Queues, path: seq<string>, value: string, author: nat, now: int): Queues
      reads this
    {
      var subscribers := Subscribers(JoinPath(path));
      if subscribers == [] then q else Enqueue(q, JoinPath(path), Write(path, value, author, now, subscribers))
    }

    method RecordPathWrite(path: seq<string>, value: string, author: nat, now: int) returns (r: Result<(), RecordError>)
      requires directory.Valid()
      modifies `pending
      ensures r.Ok? <==> IsAuthority(JoinPath(path))
      ensures pending == if r.Ok? then WithWrite(old(pending), path, value, author, now) else old(pending)
    {
      var pathStr := PathToString(path);
      var authority := directory.Get(pathStr);
      if authority.None? || authority.value.authority.id != self.id {
        return Err(NotAuthority);
      }
      var subscribers := Subscribers(pathStr);
      if |subscribers| == 0 {
        return Ok(());
      }
      var queue := if pathStr in pending then pending[pathStr] else [];
      pending := pending[pathStr := queue + [Write(path, value, author, now, subscribers)]];
      r := Ok(());
    }

    method ForwardWriteToAuthority(path: seq<string>, value: string, author: nat, now: int) returns (r: ForwardOutcome)
      requires directory.Valid()
      modifies `pending
      ensures var found := Lookup(directory.entries, JoinPath(path));
        if found.None? then r == NoAuthority && pending == old(pending)
        else if found.value.authority.id == self.id then
          r.HandledLocally? && r.r.Ok? && pending == WithWrite(old(pending), path, value, author, now)
        else r == ForwardedTo(found.value.authority) && pending == old(pending)
    {
      var pathStr := PathToString(path);
      var authority := directory.Get(pathStr);
      if authority.None? {
        return NoAuthority;
      }
      if authority.value.authority.id == self.id {
        var recorded := RecordPathWrite(path, value, author, now);
        return HandledLocally(recorded);
      }
      r := ForwardedTo(authority.value.authority);
    }

    /** The read-locked section of a round. */
    method SnapshotPending() returns (pathWrites: Queues)
      ensures pathWrites == NonEmpty(pending)
    {
      pathWrites := map[];
      var left := pending.Keys;
      while left != {}
        invariant left <= pending.Keys
        invariant pathWrites == map p | p in pending.Keys - left && pending[p] != [] :: pending[p]
        decreases left
      {
        var p :| p in left;
        left := left - {p};
        if |pending[p]| > 0 {
          pathWrites := pathWrites[p := pending[p]];
        }
      }
    }

    /** The sends of one path's batch, made without the lock; `deliver` is the network. */
    method SendBatch(writes: seq<Write>, deliver: (nat, nat) -> bool) returns (successCount: nat)
      ensures successCount == |AcceptedSends(writes, deliver)|
      ensures successCount > 0 <==> AcceptedBy(writes, deliver) != {}
    {
      successCount := 0;
      ghost var done: set<(nat, nat)> := {};
      for i := 0 to |writes|
        invariant successCount == |done|
        invariant forall s: (nat, nat) ::
          s in done <==> s.0 < i && s.1 < |writes[s.0].subscribers| && deliver(s.0, s.1)
      {
        for j := 0 to |writes[i].subscribers|
          invariant successCount == |done|
          invariant forall s: (nat, nat) ::
            s in done <==> s.0 <= i && s.1 < (if s.0 < i then |writes[s.0].subscribers| else j) && deliver(s.0, s.1)
        {
          if deliver(i, j) {
            done := done + {(i, j)};
            successCount := successCount + 1;
          }
        }
      }
      assert done == AcceptedSends(writes, deliver);
      AcceptedByNone(writes, deliver);
    }

    /** The write-locked section: as many writes as were sent are dropped from the front. */
    method TrimReplicated(pathStr: string, writes: seq<Write>, successCount: nat)
      requires writes <= QueueAt(pending, pathStr)
      modifies `pending
      ensures pending == if successCount > 0 then Trim(old(pending), pathStr, |writes|) else old(pending)
    {
      if successCount > 0 {
        var queue := if pathStr in pending then pending[pathStr] else [];
        pending := pending[pathStr := queue[|writes|..]];
      }
    }
  }
}
