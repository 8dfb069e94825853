/** Catching up with the backend in batches of BATCH_BLOCKS blocks, one database transaction
    a batch (wallet/rescan.go, walletdb/interface.go). */
module CatchUp {
  import opened Wrappers
  import opened SyncStore
  import opened ChainSync

  const BATCH_BLOCKS: int := 400

  /** The backend as the catch-up sees it. `insertOk` is whether everything between fetching
      a block's hash and SetSyncedTo succeeds at a height. */
  datatype Source = Source(backend: Backend, insertOk: int -> bool)

  /** Catching up one block inside a transaction: on success `disk` and `memory` both move. */
  function CatchBlock(n: Node, source: Source, height: int): Option<Node> {
    match source.backend.blockAt(height)
    case None => None
    case Some(hash) =>
      match source.backend.timeOf(hash)
      case None => None
      case Some(time) =>
        if !source.insertOk(height) then None
        else
          var bs := BlockStamp(height, hash, time);
          match Put(n.disk, bs)
          case None => None
          case Some(disk) => Some(Node(disk, bs))
  }

  /** The plain loop without batches: the state after the blocks from..to-1 that succeed, and
      the height that comes next (`to` when all succeeded). */
  function Plain(n: Node, source: Source, from: int, until: int): (r: (Node, int))
    ensures from <= until ==> from <= r.1 <= until
    decreases until - from
  {
    if from >= until then (n, from)
    else
      match CatchBlock(n, source, from)
      case None => (n, from)
      case Some(n') => Plain(n', source, from + 1, until)
  }

  lemma {:induction false} PlainSplits(n: Node, source: Source, from: int, mid: int, until: int)
    requires from <= mid <= until
    ensures var (n', next) := Plain(n, source, from, mid);
            if next == mid then Plain(n, source, from, until) == Plain(n', source, mid, until)
            else Plain(n, source, from, until) == (n', next)
    decreases mid - from
  {
    if from < mid {
      var step := CatchBlock(n, source, from);
      if step.Some? {
        PlainSplits(step.value, source, from + 1, mid, until);
      }
    }
  }

  /** The heights from `from` up to, not including, `until`, in increasing order. */
  function Heights(from: int, until: int): seq<int>
    requires from <= until
  {
    seq(until - from, i => from + i)
  }

  lemma HeightsJoin(from: int, mid: int, until: int)
    requires from <= mid <= until
    ensures Heights(from, mid) + Heights(mid, until) == Heights(from, until)
  {
  }

  /** The first height a batch running up to i does not reach. */
  function BatchEnd(i: int, height: int): int {
    if i <= height + 1 then i else height + 1
  }

  /** One batch of the plain loop, from i up to end, after the blocks below i succeeded. */
  lemma PlainBatch(n: Node, source: Source, from: int, i: int, end: int, until: int)
    requires from <= i < end <= until
    requires Plain(n, source, from, i).1 == i
    ensures var batch := Plain(Plain(n, source, from, i).0, source, i, end);
            Plain(n, source, from, if batch.1 == end then end else until) == batch
  {
    PlainSplits(n, source, from, i, end);
    PlainSplits(n, source, from, end, until);
  }

  /** What a catch-up from n to `height` must leave committed: the plain loop's end state, or
      if the plain loop stops at some height in batch k (counted from 0), the state after k
      whole batches, that is at height start + 400*k. */
  function Committed(n: Node, source: Source, height: int): SyncData
    requires n.memory.height < height
  {
    var start := n.memory.height;
    var (last, next) := Plain(n, source, start + 1, height + 1);
    if next == height + 1 then last.disk
    else
      var k := (next - start - 1) / BATCH_BLOCKS;
      Plain(n, source, start + 1, start + 1 + BATCH_BLOCKS * k).0.disk
  }

  lemma NothingCaught(n: Node, source: Source, from: int)
    ensures Plain(n, source, from, from) == (n, from)
    ensures Heights(from, from) == []
  {
  }

  lemma PlainOne(n: Node, source: Source, height: int)
    ensures Plain(n, source, height, height + 1)
            == match CatchBlock(n, source, height) case None => (n, height) case Some(n') => (n', height + 1)
    ensures Heights(height, height + 1) == [height]
  {
  }

  lemma PlainStuck(n: Node, source: Source, height: int, until: int)
    requires height < until && CatchBlock(n, source, height).None?
    ensures Plain(n, source, height, until) == (n, height)
  {
  }

  /** A catch-up that the plain loop completes. */
  lemma AllCommitted(n: Node, source: Source, height: int)
    requires n.memory.height < height
    requires Plain(n, source, n.memory.height + 1, height + 1).1 == height + 1
    ensures Committed(n, source, height) == Plain(n, source, n.memory.height + 1, height + 1).0.disk
  {
  }

  lemma FailedBatchCommitted(n: Node, source: Source, height: int, k: nat, next: int)
    requires n.memory.height < height
    requires next == Plain(n, source, n.memory.height + 1, height + 1).1 < height + 1
    requires BATCH_BLOCKS * k <= next - n.memory.height - 1 < BATCH_BLOCKS * (k + 1)
    ensures Committed(n, source, height)
            == Plain(n, source, n.memory.height + 1, n.memory.height + 1 + BATCH_BLOCKS * k).0.disk
  {
  }

  class CatchUpRun {
    const manager: Manager
    /** The heights the catch-up went through, in order. */
    var visited: seq<int>

    constructor (manager: Manager)
      ensures this.manager == manager && visited == []
    {
      this.manager := manager;
      visited := [];
    }

    function State(): Node
      reads this, manager, manager.bucket
    {
      Node(manager.bucket.Data(), manager.syncedTo)
    }

    method CatchOne(source: Source, height: int) returns (ok: bool)
      modifies this, manager, manager.bucket
      ensures ok <==> CatchBlock(old(State()), source, height).Some?
      ensures State() == if ok then CatchBlock(old(State()), source, height).value else old(State())
      ensures visited == if ok then old(visited) + [height] else old(visited)
    {
      var hash := source.backend.blockAt(height);
      if hash.None? {
        return false;
      }
      var time := source.backend.timeOf(hash.value);
      if time.None? {
        return false;
      }
      if !source.insertOk(height) {
        return false;
      }
      ok := manager.SetSyncedTo(Some(BlockStamp(height, hash.value, time.value)));
      if ok {
        visited := visited + [height];
      }
    }

    /** One transaction: up to BATCH_BLOCKS blocks from i, not beyond height. */
    method Batch(source: Source, i: int, height: int) returns (ok: bool)
      requires i <= height
      modifies this, manager, manager.bucket
      ensures var end := BatchEnd(i + BATCH_BLOCKS, height);
              var (n, next) := Plain(old(State()), source, i, end);
              && ok == (next == end)
              && manager.syncedTo == n.memory
              && manager.bucket.Data() == (if ok then n.disk else old(State()).disk)
              && visited == old(visited) + Heights(i, next)
    {
      hide Plain, Heights, CatchBlock;
      NothingCaught(State(), source, i);
      ghost var end := BatchEnd(i + BATCH_BLOCKS, height);
      var committed := manager.bucket.Data();
      var j := 0;
      while j < BATCH_BLOCKS && i + j <= height
        invariant 0 <= j && i + j <= end
        invariant committed == old(State()).disk
        invariant Plain(old(State()), source, i, i + j) == (State(), i + j)
        invariant visited == old(visited) + Heights(i, i + j)
      {
        PlainOne(State(), source, i + j);
        HeightsJoin(i, i + j, i + j + 1);
        PlainSplits(old(State()), source, i, i + j, i + j + 1);
        PlainSplits(old(State()), source, i, i + j, end);
        ghost var before := State();
        ok := CatchOne(source, i + j);
        if !ok {
          PlainStuck(before, source, i + j, end);
          manager.bucket.Restore(committed);
          return;
        }
        j := j + 1;
      }
      ok := true;
    }

    /** MAIN RESULT. Catching up in batches visits the heights start+1..height in order, each
        once, exactly as far as the plain loop gets; on success it ends in the plain loop's
        state, and if it fails in batch k what is committed is the plain loop's state after
        k whole batches, that is at height start + 400*k. */
    method CatchUpTo(source: Source, height: int) returns (ok: bool)
      modifies this, manager, manager.bucket
      ensures old(State()).memory.height < height ==>
                var start := old(State()).memory.height;
                var (n, next) := Plain(old(State()), source, start + 1, height + 1);
                && ok == (next == height + 1)
                && visited == old(visited) + Heights(start + 1, next)
                && State() == Node(Committed(old(State()), source, height), n.memory)
      ensures old(State()).memory.height >= height ==> ok && State() == old(State())
    {
      hide Plain, Heights, Committed, CatchBlock;
      ghost var initial := State();
      NothingCaught(initial, source, initial.memory.height + 1);
      var start := manager.syncedTo.height;
      var i := start + 1;
      ghost var k := 0;
      while i <= height
        invariant 0 <= k && i == start + 1 + BATCH_BLOCKS * k
        invariant start >= height ==> State() == initial
        invariant start < height ==>
                    Plain(initial, source, start + 1, BatchEnd(i, height)) == (State(), BatchEnd(i, height))
        invariant start < height ==> visited == old(visited) + Heights(start + 1, BatchEnd(i, height))
      {
        ghost var end := BatchEnd(i + BATCH_BLOCKS, height);
        ghost var next := Plain(State(), source, i, end).1;
        PlainBatch(initial, source, start + 1, i, end, height + 1);
        HeightsJoin(start + 1, i, next);
        ok := Batch(source, i, height);
        if !ok {
          FailedBatchCommitted(initial, source, height, k, next);
          return;
        }
        i := i + BATCH_BLOCKS;
        k := k + 1;
      }
      if start < height {
        AllCommitted(initial, source, height);
      }
      ok := true;
    }
  }

  /** The followed chain grew by the backend's blocks. */
  ghost predicate Extends(l: Ledger, l': Ledger, backend: Backend) {
    l.Valid() && l'.Valid() && l.tip <= l'.tip
    && l'.Chain()[..l.tip + 1] == l.Chain()
    && (forall h :: l.tip < h <= l'.tip ==> backend.blockAt(h) == Some(l'.Chain()[h]))
    && l'.High() == if l.High() < l'.tip then l'.tip else l.High()
  }

  lemma ExtendsFurther(l: Ledger, next: Ledger, l': Ledger, backend: Backend)
    requires l.Valid() && next.Valid() && next.tip == l.tip + 1 && next.Chain() == l.Chain() + [next.written[next.tip]]
    requires next.High() == if l.tip == l.High() then l.High() + 1 else l.High()
    requires backend.blockAt(next.tip) == Some(next.written[next.tip])
    requires Extends(next, l', backend)
    ensures Extends(l, l', backend)
  {
    assert l'.Chain()[..l.tip + 1] == l'.Chain()[..next.tip + 1][..l.tip + 1] == l.Chain();
    assert l'.Chain()[next.tip] == l'.Chain()[..next.tip + 1][next.tip];
  }

  /** As far as the plain loop gets, what is stored is the window on the old chain followed
      by the backend's blocks. */
  lemma {:induction false} PlainExtendsChain(n: Node, l: Ledger, source: Source, from: int, until: int)
      returns (l': Ledger)
    requires Refines(n.disk, l) && n.memory == n.disk.syncedTo
    requires from == l.tip + 1 && from <= until
    requires Plain(n, source, from, until).1 == until
    ensures var n' := Plain(n, source, from, until).0; Refines(n'.disk, l') && n'.memory == n'.disk.syncedTo
    ensures Extends(l, l', source.backend) && l'.tip == until - 1
    decreases until - from
  {
    if from == until {
      l' := l;
    } else {
      var hash := source.backend.blockAt(from).value;
      var bs := BlockStamp(from, hash, source.backend.timeOf(hash).value);
      ConnectAtTip(n.disk, l, bs);
      var next := l.Connect(hash);
      l' := PlainExtendsChain(Node(Stored(n.disk, bs), bs), next, source, from + 1, until);
      ExtendsFurther(l, next, l', source.backend);
    }
  }

  /** From a window, a block is refused only by the backend or by its insertion. So with both
      answering the catch-up reaches its target. */
  lemma {:induction false} PlainReachesTarget(n: Node, l: Ledger, source: Source, from: int, until: int)
    requires Refines(n.disk, l) && n.memory == n.disk.syncedTo
    requires from == l.tip + 1 && from <= until
    requires forall h :: from <= h < until ==>
               source.backend.blockAt(h).Some? && source.backend.timeOf(source.backend.blockAt(h).value).Some?
               && source.insertOk(h)
    ensures Plain(n, source, from, until).1 == until
    decreases until - from
  {
    if from < until {
      var hash := source.backend.blockAt(from).value;
      var bs := BlockStamp(from, hash, source.backend.timeOf(hash).value);
      ConnectAtTip(n.disk, l, bs);
      PlainReachesTarget(Node(Stored(n.disk, bs), bs), l.Connect(hash), source, from + 1, until);
    }
  }

  /** What a catch-up from a window leaves committed is a window again, on the old chain
      followed by the backend's blocks; how far it got is a whole number of batches. */
  lemma CommittedExtendsChain(n: Node, l: Ledger, source: Source, height: int) returns (l': Ledger)
    requires Refines(n.disk, l) && n.memory == n.disk.syncedTo && n.memory.height < height
    ensures Refines(Committed(n, source, height), l')
    ensures Extends(l, l', source.backend)
    ensures l'.tip <= height && (l'.tip == height || (l'.tip - l.tip) % 400 == 0)
    ensures var next := Plain(n, source, n.memory.height + 1, height + 1).1;
            if next == height + 1 then l'.tip == height else l'.tip < next <= l'.tip + 400
  {
    hide Plain, Committed, Extends, CatchBlock;
    var start := n.memory.height;
    var next := Plain(n, source, start + 1, height + 1).1;
    if next == height + 1 {
      AllCommitted(n, source, height);
      l' := PlainExtendsChain(n, l, source, start + 1, height + 1);
    } else {
      var k := (next - start - 1) / BATCH_BLOCKS;
      FailedBatchCommitted(n, source, height, k, next);
      PlainPrefix(n, source, start + 1, start + 1 + BATCH_BLOCKS * k, height + 1);
      l' := PlainExtendsChain(n, l, source, start + 1, start + 1 + BATCH_BLOCKS * k);
    }
  }

  /** The plain loop completes every stretch it gets past. */
  lemma PlainPrefix(n: Node, source: Source, from: int, mid: int, until: int)
    requires from <= mid <= Plain(n, source, from, until).1 <= until
    ensures Plain(n, source, from, mid).1 == mid
  {
    PlainSplits(n, source, from, mid, until);
  }

  /** Retrying in the same process after a batch failed part-way starts from the tip in
      memory, which is ahead of what was committed. The retry's first block is refused, and
      nothing changes, exactly when no stale entry reaches up to that tip. */
  lemma RetryAfterFailedBatch(disk: SyncData, l: Ledger, memory: BlockStamp, source: Source, target: int)
    requires Refines(disk, l) && disk.birthday.Some?
    requires l.tip < memory.height < target
    requires source.backend.blockAt(memory.height + 1).Some?
             && source.backend.timeOf(source.backend.blockAt(memory.height + 1).value).Some?
             && source.insertOk(memory.height + 1)
    ensures var n := Node(disk, memory);
            Plain(n, source, memory.height + 1, target + 1).1 == memory.height + 1
            <==> memory.height > l.High()
  {
    ConnectBeyondTip(disk, l, memory.height + 1);
  }
}
