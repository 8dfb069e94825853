/** How the wallet follows the backend's chain (wallet/chainntfns.go, wallet/wallet.go):
    connecting a notified block, disconnecting one, and looking for the fork point when the
    wallet reconnects. Every operation runs in one database transaction. */
module ChainSync {
  import opened Wrappers
  import opened SyncStore

  /** The chain backend: the block hash at a height and the timestamp of a block, either of
      which may fail to be answered. */
  datatype Backend = Backend(blockAt: int -> Option<BlockHash>, timeOf: BlockHash -> Option<int>)

  /** The wallet's sync state: what is committed, and the in-memory tip. */
  datatype Node = Node(disk: SyncData, memory: BlockStamp)

  /** `ok` is false when the operation returned an error. */
  datatype Outcome = Outcome(node: Node, ok: bool)

  // ----- the three operations as functions of the state -----

  /** SetSyncedTo inside a transaction whose remaining work succeeds iff `restOk`. The tip in
      memory moves before the transaction commits and does not move back. */
  function SetSyncedToTx(n: Node, bs: BlockStamp, restOk: bool): Outcome {
    match Put(n.disk, bs)
    case None => Outcome(n, false)
    case Some(disk) => Outcome(Node(if restOk then disk else n.disk, bs), restOk)
  }

  /** A block-connected notification: ignored unless it is above the tip. */
  function Connect(n: Node, bs: BlockStamp, storeOk: bool): Outcome {
    if n.memory.height < bs.height then SetSyncedToTx(n, bs, storeOk) else Outcome(n, true)
  }

  function Disconnect(n: Node, height: int, hash: BlockHash, backend: Backend, storeOk: bool): Outcome {
    if height > n.memory.height then Outcome(n, true)
    else if height !in n.disk.hashes then Outcome(n, false)
    else if n.disk.hashes[height] != hash then Outcome(n, true)
    else if height - 1 !in n.disk.hashes then Outcome(n, false)
    else
      var previous := n.disk.hashes[height - 1];
      match backend.timeOf(previous)
      case None => Outcome(n, false)
      case Some(time) => SetSyncedToTx(n, BlockStamp(height - 1, previous, time), storeOk)
  }

  predicate HeightsNonNegative(d: SyncData) {
    forall h <- d.hashes :: 0 <= h
  }

  /** Walks down from `height` to the first block on which bucket and backend agree. */
  function FindFork(hashes: map<int, BlockHash>, backend: Backend, height: int): (r: Option<BlockStamp>)
    requires forall h <- hashes :: 0 <= h
    ensures r.Some? ==> r.value.height <= height && r.value.height in hashes
                        && hashes[r.value.height] == r.value.hash
                        && backend.blockAt(r.value.height) == Some(r.value.hash)
    decreases height + 1
  {
    if height !in hashes || backend.blockAt(height).None? then None
    else
      var chainHash := backend.blockAt(height).value;
      match backend.timeOf(chainHash)
      case None => None
      case Some(time) =>
        if hashes[height] == chainHash then Some(BlockStamp(height, chainHash, time))
        else FindFork(hashes, backend, height - 1)
  }

  function MovedBirthday(d: SyncData, fork: BlockStamp, birthday: BlockStamp): SyncData {
    if fork.height <= birthday.height && fork.hash != birthday.hash then d.(birthday := Some(fork)) else d
  }

  function Resync(n: Node, backend: Backend, birthday: BlockStamp, storeOk: bool): Outcome
    requires HeightsNonNegative(n.disk)
  {
    match FindFork(n.disk.hashes, backend, n.memory.height)
    case None => Outcome(n, false)
    case Some(fork) =>
      if fork.height == n.memory.height then Outcome(n, true)
      else
        match Put(n.disk, fork)
        case None => Outcome(n, false)
        case Some(disk) =>
          Outcome(Node(if storeOk then MovedBirthday(disk, fork, birthday) else n.disk, fork), storeOk)
  }

  /** syncWithChain: a wallet without a birthday block first stores the one located for it, in a
      transaction of its own. `located` is None when that search or that transaction fails. */
  function Sync(n: Node, backend: Backend, birthday: Option<BlockStamp>, located: Option<BlockStamp>, storeOk: bool): Outcome
    requires HeightsNonNegative(n.disk)
  {
    match birthday
    case Some(b) => Resync(n, backend, b, storeOk)
    case None =>
      match located
      case None => Outcome(n, false)
      case Some(b) => Resync(n.(disk := n.disk.(birthday := Some(b))), backend, b, storeOk)
  }

  // ----- the same operations as the program runs them -----

  class Wallet {
    const manager: Manager

    constructor (manager: Manager)
      ensures this.manager == manager
    {
      this.manager := manager;
    }

    function State(): Node
      reads this, manager, manager.bucket
    {
      Node(manager.bucket.Data(), manager.syncedTo)
    }

    /** `storeOk` says whether inserting the block into the transaction store succeeds. */
    method ConnectBlock(bs: BlockStamp, storeOk: bool) returns (ok: bool)
      modifies manager, manager.bucket
      ensures Outcome(State(), ok) == Connect(old(State()), bs, storeOk)
    {
      if manager.syncedTo.height < bs.height {
        var committed := manager.bucket.Data();
        ok := manager.SetSyncedTo(Some(bs));
        if ok && !storeOk {
          ok := false;
        }
        if !ok {
          manager.bucket.Restore(committed);
        }
      } else {
        ok := true;
      }
    }

    method DisconnectBlock(height: int, hash: BlockHash, backend: Backend, storeOk: bool) returns (ok: bool)
      modifies manager, manager.bucket
      ensures Outcome(State(), ok) == Disconnect(old(State()), height, hash, backend, storeOk)
    {
      if height > manager.syncedTo.height {
        return true;
      }
      var known := manager.bucket.FetchBlockHash(height);
      if known.None? {
        return false;
      }
      if known.value != hash {
        return true;
      }
      var previous := manager.bucket.FetchBlockHash(height - 1);
      if previous.None? {
        return false;
      }
      var time := backend.timeOf(previous.value);
      if time.None? {
        return false;
      }
      var committed := manager.bucket.Data();
      ok := manager.SetSyncedTo(Some(BlockStamp(height - 1, previous.value, time.value)));
      ok := ok && storeOk;
      if !ok {
        manager.bucket.Restore(committed);
      }
    }

    /** What happens when the wallet (re)connects. */
    method SyncWithChain(backend: Backend, birthday: Option<BlockStamp>, located: Option<BlockStamp>, storeOk: bool)
        returns (ok: bool)
      requires HeightsNonNegative(manager.bucket.Data())
      modifies manager, manager.bucket
      ensures Outcome(State(), ok) == Sync(old(State()), backend, birthday, located, storeOk)
    {
      var birthdayStamp;
      if birthday.Some? {
        birthdayStamp := birthday.value;
      } else {
        if located.None? {
          return false;
        }
        birthdayStamp := located.value;
        manager.bucket.SetBirthdayBlock(birthdayStamp);
      }
      ok := CompareChains(backend, birthdayStamp, storeOk);
    }

    /** The comparison with the backend's chain. */
    method CompareChains(backend: Backend, birthday: BlockStamp, storeOk: bool) returns (ok: bool)
      requires HeightsNonNegative(manager.bucket.Data())
      modifies manager, manager.bucket
      ensures Outcome(State(), ok) == Resync(old(State()), backend, birthday, storeOk)
    {
      var committed := manager.bucket.Data();
      var rollback := false;
      var rollbackStamp := manager.syncedTo;
      var height := rollbackStamp.height;
      while true
        invariant State() == old(State()) && committed == manager.bucket.Data()
        invariant height <= manager.syncedTo.height
        invariant rollback <==> height < manager.syncedTo.height
        invariant FindFork(committed.hashes, backend, manager.syncedTo.height)
                  == FindFork(committed.hashes, backend, height)
        decreases height + 1
      {
        var hash := manager.bucket.FetchBlockHash(height);
        if hash.None? {
          return false;
        }
        var chainHash := backend.blockAt(height);
        if chainHash.None? {
          return false;
        }
        var time := backend.timeOf(chainHash.value);
        if time.None? {
          return false;
        }
        rollbackStamp := BlockStamp(height, chainHash.value, time.value);
        if hash.value == chainHash.value {
          break;
        }
        rollback := true;
        height := height - 1;
      }
      if !rollback {
        return true;
      }
      ok := manager.SetSyncedTo(Some(rollbackStamp));
      if !ok {
        return;
      }
      if rollbackStamp.height <= birthday.height && rollbackStamp.hash != birthday.hash {
        manager.bucket.SetBirthdayBlock(rollbackStamp);
      }
      if !storeOk {
        manager.bucket.Restore(committed);
        ok := false;
      }
    }
  }

  // ----- the fork point -----

  /** Chain and backend belong to the same network: they share genesis, and a block hash
      determines the block below it. */
  ghost predicate SameNetwork(chain: seq<BlockHash>, backend: Backend) {
    |chain| > 0 && backend.blockAt(0) == Some(chain[0])
    && forall h :: 1 <= h < |chain| ==> Linked(chain, backend, h)
  }

  predicate Linked(chain: seq<BlockHash>, backend: Backend, h: int)
    requires 1 <= h < |chain|
  {
    backend.blockAt(h) == Some(chain[h]) ==> backend.blockAt(h - 1) == Some(chain[h - 1])
  }

  /** The backend answers every query about the heights up to `tip`. */
  ghost predicate Responsive(backend: Backend, tip: int) {
    forall h :: 0 <= h <= tip ==>
      backend.blockAt(h).Some? && backend.timeOf(backend.blockAt(h).value).Some?
  }

  ghost predicate IsForkPoint(l: Ledger, backend: Backend, fork: int)
    requires l.Valid()
  {
    0 <= fork <= l.tip
    && (forall h :: 0 <= h <= fork ==> backend.blockAt(h) == Some(l.Chain()[h]))
    && (forall h :: fork < h <= l.tip ==> backend.blockAt(h) != Some(l.Chain()[h]))
  }

  lemma {:induction false} AgreeBelow(l: Ledger, backend: Backend, fork: int)
    requires l.Valid() && SameNetwork(l.Chain(), backend)
    requires 0 <= fork <= l.tip && backend.blockAt(fork) == Some(l.Chain()[fork])
    ensures forall h :: 0 <= h <= fork ==> backend.blockAt(h) == Some(l.Chain()[h])
    decreases fork
  {
    if fork > 0 {
      assert Linked(l.Chain(), backend, fork);
      AgreeBelow(l, backend, fork - 1);
    }
  }

  /** Every chain has exactly one fork point with the backend's. */
  lemma {:induction false} ForkPointExists(l: Ledger, backend: Backend, height: int) returns (fork: int)
    requires l.Valid() && SameNetwork(l.Chain(), backend) && 0 <= height <= l.tip
    requires forall h :: height < h <= l.tip ==> backend.blockAt(h) != Some(l.Chain()[h])
    ensures IsForkPoint(l, backend, fork)
    decreases height
  {
    if backend.blockAt(height) == Some(l.Chain()[height]) {
      fork := height;
      AgreeBelow(l, backend, fork);
    } else {
      fork := ForkPointExists(l, backend, height - 1);
    }
  }

  /** The walk answers the fork point and nothing else, and with a backend that answers it
      finds it exactly when the window still holds every height from there to the tip. */
  lemma {:induction false} FindForkFromTip(d: SyncData, l: Ledger, backend: Backend, fork: int, height: int)
    requires Refines(d, l) && IsForkPoint(l, backend, fork) && fork <= height <= l.tip
    requires HeightsNonNegative(d)
    requires forall h :: height <= h <= l.tip ==> l.Retains(h)
    ensures FindFork(d.hashes, backend, height).Some?
            ==> FindFork(d.hashes, backend, height).value.height == fork
    ensures Responsive(backend, l.tip) ==>
              (FindFork(d.hashes, backend, height).Some?
               <==> l.Retains(fork) && (fork == l.tip || l.Retains(fork + 1)))
    decreases height
  {
    WindowContents(d, l);
    if fork < height {
      assert backend.blockAt(height) != Some(l.Chain()[height]);
      if l.Retains(height - 1) {
        FindForkFromTip(d, l, backend, fork, height - 1);
      } else {
        assert height - 1 !in d.hashes;
        assert FindFork(d.hashes, backend, height - 1).None?;
      }
    }
  }

  /** MAIN RESULT on reorganisations. Starting from a bucket that is a window on the followed
      chain, reconnecting either fails and commits nothing, or leaves the tip on the exact
      fork point with the window intact. With a backend that answers and a store that
      succeeds, it fails exactly when the fork lies too deep for the window: the fork block
      must still be stored, and so must the one below it if the tip has to move. */
  lemma ResyncFindsForkPoint(n: Node, l: Ledger, backend: Backend, birthday: BlockStamp,
                             storeOk: bool, fork: int)
    requires Refines(n.disk, l) && n.memory == n.disk.syncedTo && HeightsNonNegative(n.disk)
    requires SameNetwork(l.Chain(), backend) && IsForkPoint(l, backend, fork)
    ensures var r := Resync(n, backend, birthday, storeOk);
            && (!r.ok ==> r.node.disk == n.disk)
            && (r.ok ==> Refines(r.node.disk, l.Rollback(fork))
                         && r.node.memory == r.node.disk.syncedTo)
            && (Responsive(backend, l.tip) && storeOk && n.disk.birthday.Some? ==>
                  (r.ok <==> fork == l.tip || fork > l.Low() || (fork <= 1 && l.Low() == 1)))
  {
    WindowContents(n.disk, l);
    FindForkFromTip(n.disk, l, backend, fork, l.tip);
    var found := FindFork(n.disk.hashes, backend, l.tip);
    if found.Some? && fork < l.tip {
      assert fork + 1 in n.disk.hashes by {
        ForkAboveStored(n.disk, l, backend, fork, l.tip);
      }
      if Accepts(n.disk, fork) {
        RollbackKeepsWindow(n.disk, l, found.value);
      }
    }
  }

  lemma {:induction false} ForkAboveStored(d: SyncData, l: Ledger, backend: Backend, fork: int, height: int)
    requires Refines(d, l) && IsForkPoint(l, backend, fork) && fork < height <= l.tip
    requires HeightsNonNegative(d)
    requires FindFork(d.hashes, backend, height).Some?
    ensures fork + 1 in d.hashes
    decreases height
  {
    WindowContents(d, l);
    if fork + 1 < height {
      assert backend.blockAt(height) != Some(l.Chain()[height]);
      ForkAboveStored(d, l, backend, fork, height - 1);
    }
  }

  /** A disconnected block that the wallet follows takes the tip to the block below it; any
      other answer leaves the committed state alone. With everything else succeeding it is
      refused exactly when the block below the new tip has left the window. */
  lemma DisconnectRollsBack(n: Node, l: Ledger, height: int, hash: BlockHash, backend: Backend, storeOk: bool)
    requires Refines(n.disk, l) && n.memory == n.disk.syncedTo
    ensures var r := Disconnect(n, height, hash, backend, storeOk);
            && (r.node.disk != n.disk || r.node.memory != n.memory ==>
                  1 <= height <= l.tip && hash == l.Chain()[height])
            && (r.ok && 1 <= height <= l.tip && hash == l.Chain()[height] ==>
                  Refines(r.node.disk, l.Rollback(height - 1)) && r.node.memory == r.node.disk.syncedTo)
            && (!r.ok ==> r.node.disk == n.disk)
            && (1 <= height <= l.tip && hash == l.Chain()[height] && storeOk && n.disk.birthday.Some?
                && backend.timeOf(l.Chain()[height - 1]).Some? ==>
                  (r.ok <==> height > l.Low() + 1 || (height <= 2 && l.Low() == 1)))
  {
    WindowContents(n.disk, l);
    if 1 <= height <= l.tip && height in n.disk.hashes && height - 1 in n.disk.hashes
       && backend.timeOf(l.written[height - 1]).Some? && Accepts(n.disk, height - 1) {
      var bs := BlockStamp(height - 1, l.written[height - 1], backend.timeOf(l.written[height - 1]).value);
      RollbackKeepsWindow(n.disk, l, bs);
    }
  }

  // ----- what goes wrong when a transaction fails -----

  /** A connect whose transaction fails leaves the tip in memory one block ahead of the
      committed one. The next block is then refused exactly when no stale entry hides the
      gap; and if it is accepted, the committed bucket keeps the stale hash below the tip. */
  lemma FailedConnectRunsAhead(n: Node, l: Ledger, bs: BlockStamp, next: BlockStamp)
    requires Refines(n.disk, l) && n.memory == n.disk.syncedTo && n.disk.birthday.Some?
    requires bs.height == l.tip + 1 && next.height == l.tip + 2
    ensures var failed := Connect(n, bs, false);
            && !failed.ok && failed.node.disk == n.disk && failed.node.memory == bs
            && (Connect(failed.node, next, true).ok <==> l.tip < l.High())
            && (l.tip < l.High() ==>
                  Connect(failed.node, next, true).node.disk.hashes[bs.height] == l.written[bs.height])
  {
    WindowContents(n.disk, l);
  }
}
