/** What each step of following the chain does: when it is refused, which stamp becomes the tip,
    and when the birthday block moves (waddrmgr/db.go, wallet/chainntfns.go, wallet/wallet.go,
    wallet/rescan.go). */
module SyncLaws {
  import opened Wrappers
  import opened SyncStore
  import opened ChainSync
  import opened CatchUp

  /** Storing a tip: refused only when a block is missing right below it and there is a birthday
      block; otherwise the stamp becomes the tip, its hash is stored, the one 10000 heights below
      goes, and nothing else changes. */
  lemma PutOutcome(d: SyncData, bs: BlockStamp)
    ensures Put(d, bs).None? <==> bs.height >= 1 && d.birthday.Some? && bs.height - 1 !in d.hashes
    ensures Put(d, bs).Some? ==>
              var d' := Put(d, bs).value;
              && d'.syncedTo == bs && d'.birthday == d.birthday
              && (forall h :: h in d'.hashes <==> (h in d.hashes || h == bs.height) && !(h >= 1 && h == bs.height - 10000))
              && (forall h <- d'.hashes :: d'.hashes[h] == if h == bs.height then bs.hash else d.hashes[h])
  {
  }

  /** MAIN RESULT on a connect notification. At or below the tip it is ignored; right above it
      succeeds whenever the transaction does; higher up it is also refused if the block below
      was never stored. Success makes the stamp the tip; failure moves only the memory, and not
      even that if it was refused. */
  lemma ConnectOutcome(n: Node, l: Ledger, bs: BlockStamp, storeOk: bool)
    requires Refines(n.disk, l) && n.memory == n.disk.syncedTo
    ensures var r := Connect(n, bs, storeOk);
            var refused := bs.height > l.tip && n.disk.birthday.Some? && bs.height - 1 > l.High();
            && (bs.height <= l.tip ==> r == Outcome(n, true))
            && (refused ==> r == Outcome(n, false))
            && (bs.height > l.tip && !refused ==>
                  && r.ok == storeOk && r.node.memory == bs
                  && r.node.disk == (if storeOk then Stored(n.disk, bs) else n.disk)
                  && (storeOk ==> r.node.disk.syncedTo == bs && r.node.disk.hashes[bs.height] == bs.hash))
            && !(refused && bs.height == l.tip + 1)
  {
    WindowContents(n.disk, l);
  }

  /** MAIN RESULT on a disconnect notification. Above the tip, or for a block other than the
      stored one, it is ignored; for a height that has left the window it fails; otherwise the
      stored block below becomes the tip, with the backend's time for it. */
  lemma DisconnectOutcome(n: Node, l: Ledger, height: int, hash: BlockHash, backend: Backend, storeOk: bool)
    requires Refines(n.disk, l) && n.memory == n.disk.syncedTo
    ensures var r := Disconnect(n, height, hash, backend, storeOk);
            && (height > l.tip ==> r == Outcome(n, true))
            && (height <= l.tip && height !in n.disk.hashes ==> r == Outcome(n, false))
            && (height <= l.tip && height in n.disk.hashes && l.Chain()[height] != hash ==> r == Outcome(n, true))
            && (0 <= height <= l.tip && height in n.disk.hashes && l.Chain()[height] == hash ==>
                  (r.ok <==> height >= 1 && height - 1 in n.disk.hashes && backend.timeOf(l.Chain()[height - 1]).Some?
                             && (height == 1 || n.disk.birthday.None? || height - 2 in n.disk.hashes) && storeOk))
            && (!r.ok ==> r.node.disk == n.disk && (r.node.memory == n.memory || !storeOk))
            && (r.ok && 0 <= height <= l.tip && height in n.disk.hashes && l.Chain()[height] == hash ==>
                  && height >= 1
                  && backend.timeOf(l.Chain()[height - 1]).Some?
                  && r.node.memory == r.node.disk.syncedTo
                     == BlockStamp(height - 1, l.Chain()[height - 1], backend.timeOf(l.Chain()[height - 1]).value)
                  && r.node.disk.birthday == n.disk.birthday)
  {
    WindowContents(n.disk, l);
  }

  /** The stamp of a fork point: the backend's block there, with its time. */
  ghost predicate ForkStamp(l: Ledger, backend: Backend, fork: int, stamp: BlockStamp)
    requires l.Valid()
  {
    stamp.height == fork && backend.blockAt(fork) == Some(stamp.hash) && backend.timeOf(stamp.hash) == Some(stamp.timestamp)
  }

  lemma {:induction false} FindForkStamps(d: SyncData, l: Ledger, backend: Backend, height: int)
    requires l.Valid() && HeightsNonNegative(d)
    ensures FindFork(d.hashes, backend, height).Some?
            ==> ForkStamp(l, backend, FindFork(d.hashes, backend, height).value.height, FindFork(d.hashes, backend, height).value)
    decreases height + 1
  {
    if height in d.hashes && backend.blockAt(height).Some? && d.hashes[height] != backend.blockAt(height).value {
      FindForkStamps(d, l, backend, height - 1);
    }
  }

  /** The walk down from the tip gets to the fork point exactly if bucket and backend answer for
      every height from there to the tip. */
  lemma {:induction false} FindsForkExactly(d: SyncData, l: Ledger, backend: Backend, fork: int, height: int)
    requires Refines(d, l) && HeightsNonNegative(d) && IsForkPoint(l, backend, fork) && fork <= height <= l.tip
    ensures FindFork(d.hashes, backend, height).Some?
            <==> forall h :: fork <= h <= height ==>
                   h in d.hashes && backend.blockAt(h).Some? && backend.timeOf(backend.blockAt(h).value).Some?
    decreases height
  {
    WindowContents(d, l);
    assert height in d.hashes ==> d.hashes[height] == l.Chain()[height];
    if fork < height {
      assert backend.blockAt(height) != Some(l.Chain()[height]);
      FindsForkExactly(d, l, backend, fork, height - 1);
    } else {
      assert backend.blockAt(height) == Some(l.Chain()[height]);
    }
  }

  /** MAIN RESULT on what a resync leaves. It succeeds exactly if bucket and backend answer down to
      the fork point and, unless that is the tip, the store accepts it and commits. If the fork point is the tip nothing changes. Otherwise
      the backend's block at the fork point, with its time, becomes the tip, in memory and stored;
      and it becomes the birthday block exactly if it lies at or below the old one and is another
      block. A failure stores nothing. */
  lemma ResyncOutcome(n: Node, l: Ledger, backend: Backend, birthday: BlockStamp, storeOk: bool, fork: int)
    requires Refines(n.disk, l) && n.memory == n.disk.syncedTo && HeightsNonNegative(n.disk)
    requires SameNetwork(l.Chain(), backend) && IsForkPoint(l, backend, fork)
    ensures var r := Resync(n, backend, birthday, storeOk);
            && (r.ok
                <==> (forall h :: fork <= h <= l.tip ==>
                        h in n.disk.hashes && backend.blockAt(h).Some? && backend.timeOf(backend.blockAt(h).value).Some?)
                     && (fork == l.tip || (storeOk && (fork == 0 || n.disk.birthday.None? || fork - 1 in n.disk.hashes))))
            && (!r.ok ==> r.node.disk == n.disk)
            && (r.ok && fork == l.tip ==> r.node == n)
            && (r.ok && fork < l.tip ==>
                  var tip := r.node.disk.syncedTo;
                  && ForkStamp(l, backend, fork, tip) && r.node.memory == tip
                  && (if fork <= birthday.height && tip.hash != birthday.hash
                      then r.node.disk.birthday == Some(tip) else r.node.disk.birthday == n.disk.birthday))
  {
    WindowContents(n.disk, l);
    FindForkFromTip(n.disk, l, backend, fork, l.tip);
    FindsForkExactly(n.disk, l, backend, fork, l.tip);
    FindForkStamps(n.disk, l, backend, l.tip);
  }

  /** A wallet without a birthday block stores the one located, whatever comes of the comparison,
      and fails without changing anything if none was located. */
  lemma FirstSyncOutcome(n: Node, backend: Backend, located: Option<BlockStamp>, storeOk: bool)
    requires HeightsNonNegative(n.disk)
    ensures located.None? ==> Sync(n, backend, None, located, storeOk) == Outcome(n, false)
    ensures located.Some? ==>
              var r := Sync(n, backend, None, located, storeOk);
              && r == Resync(Node(n.disk.(birthday := located), n.memory), backend, located.value, storeOk)
              && r.node.disk.birthday.Some?
              && (!r.ok ==> r.node.disk == n.disk.(birthday := located))
  {
  }

  // ----- catching up -----

  /** Everything a height needs from outside: the backend names the block and its time, and its
      insertion succeeds. */
  predicate Answers(source: Source, height: int) {
    source.backend.blockAt(height).Some? && source.backend.timeOf(source.backend.blockAt(height).value).Some?
    && source.insertOk(height)
  }

  /** MAIN RESULT on how far catching up gets: from a window, exactly to the first height that
      fails outside. The tip in memory is then the stamp of the last block that did not. */
  lemma {:induction false} StopsAtFirstFailure(n: Node, l: Ledger, source: Source, from: int, until: int)
    requires Refines(n.disk, l) && n.memory == n.disk.syncedTo && from == l.tip + 1 && from <= until
    ensures var (n', next) := Plain(n, source, from, until);
            && from <= next <= until
            && (forall h :: from <= h < next ==> Answers(source, h))
            && (next < until ==> !Answers(source, next))
            && (if next == from then n' == n
                else
                  Answers(source, next - 1)
                  && var hash := source.backend.blockAt(next - 1).value;
                     n'.memory == n'.disk.syncedTo == BlockStamp(next - 1, hash, source.backend.timeOf(hash).value))
    decreases until - from
  {
    if from < until && Answers(source, from) {
      var hash := source.backend.blockAt(from).value;
      var bs := BlockStamp(from, hash, source.backend.timeOf(hash).value);
      ConnectAtTip(n.disk, l, bs);
      StopsAtFirstFailure(Node(Stored(n.disk, bs), bs), l.Connect(hash), source, from + 1, until);
    }
  }
}
