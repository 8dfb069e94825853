/** The sync bucket of the address manager (waddrmgr/db.go, waddrmgr/sync.go): a map from
    block height to block hash that keeps a sliding window of MAX_REORG_DEPTH heights, and
    the block stamp the wallet is synced to.

    The reference it is measured against is a `Ledger`, which never forgets anything: for
    every height ever reached it keeps the hash written there last. */
module SyncStore {
  import opened Wrappers

  datatype BlockHash = BlockHash(id: nat)

  datatype BlockStamp = BlockStamp(height: int, hash: BlockHash, timestamp: int)

  /** The contents of the sync bucket: what a database transaction commits or discards. */
  datatype SyncData = SyncData(
    hashes: map<int, BlockHash>,
    syncedTo: BlockStamp,
    birthday: Option<BlockStamp>)

  const MAX_REORG_DEPTH: int := 10000

  // ----- what one call of PutSyncedTo does to the bucket -----

  predicate Accepts(d: SyncData, height: int) {
    height > 0 && d.birthday.Some? ==> height - 1 in d.hashes
  }

  function DropStale(hashes: map<int, BlockHash>, height: int): map<int, BlockHash> {
    if height - MAX_REORG_DEPTH > 0 then hashes - {height - MAX_REORG_DEPTH} else hashes
  }

  function Stored(d: SyncData, bs: BlockStamp): SyncData {
    d.(hashes := DropStale(d.hashes[bs.height := bs.hash], bs.height), syncedTo := bs)
  }

  function Put(d: SyncData, bs: BlockStamp): Option<SyncData> {
    if Accepts(d, bs.height) then Some(Stored(d, bs)) else None
  }

  /** The bucket inside an open transaction. */
  class SyncBucket {
    var hashes: map<int, BlockHash>
    var syncedTo: BlockStamp
    var birthday: Option<BlockStamp>

    function Data(): SyncData
      reads this
    {
      SyncData(hashes, syncedTo, birthday)
    }

    constructor (d: SyncData)
      ensures Data() == d
    {
      hashes, syncedTo, birthday := d.hashes, d.syncedTo, d.birthday;
    }

    /** Discards the writes of a failed transaction. */
    method Restore(d: SyncData)
      modifies this
      ensures Data() == d
    {
      hashes, syncedTo, birthday := d.hashes, d.syncedTo, d.birthday;
    }

    method FetchBlockHash(height: int) returns (r: Option<BlockHash>)
      ensures r.Some? <==> height in hashes
      ensures r.Some? ==> r.value == hashes[height]
    {
      if height in hashes {
        r := Some(hashes[height]);
      } else {
        r := None;
      }
    }

    method PutSyncedTo(bs: BlockStamp) returns (ok: bool)
      modifies this
      ensures ok <==> Put(old(Data()), bs).Some?
      ensures Data() == if ok then Put(old(Data()), bs).value else old(Data())
    {
      if bs.height > 0 {
        if birthday.Some? {
          var previous := FetchBlockHash(bs.height - 1);
          if previous.None? {
            return false;
          }
        }
      }
      hashes := hashes[bs.height := bs.hash];
      var staleHeight := bs.height - MAX_REORG_DEPTH;
      if staleHeight > 0 {
        hashes := hashes - {staleHeight};
      }
      syncedTo := bs;
      return true;
    }

    method SetBirthdayBlock(block: BlockStamp)
      modifies this
      ensures Data() == old(Data()).(birthday := Some(block))
    {
      birthday := Some(block);
    }
  }

  /** The address manager's sync state: the bucket, the in-memory copy of the tip, and the block
      the manager was created at. */
  class Manager {
    const bucket: SyncBucket
    const startBlock: BlockStamp
    var syncedTo: BlockStamp

    constructor (bucket: SyncBucket, startBlock: BlockStamp)
      ensures this.bucket == bucket && this.startBlock == startBlock && syncedTo == bucket.syncedTo
    {
      this.bucket, this.startBlock := bucket, startBlock;
      syncedTo := bucket.syncedTo;
    }

    /** None (nil) stands for the start block. */
    method SetSyncedTo(stamp: Option<BlockStamp>) returns (ok: bool)
      modifies this, bucket
      ensures var bs := if stamp.Some? then stamp.value else startBlock;
              && (ok <==> Put(old(bucket.Data()), bs).Some?)
              && bucket.Data() == (if ok then Put(old(bucket.Data()), bs).value else old(bucket.Data()))
              && syncedTo == (if ok then bs else old(syncedTo))
    {
      var bs := startBlock;
      if stamp.Some? {
        bs := stamp.value;
      }
      ok := bucket.PutSyncedTo(bs);
      if ok {
        syncedTo := bs;
      }
    }
  }

  // ----- the ledger that never forgets -----

  /** `written[h]` is the hash stored last at height h, `tip` the height synced to now. */
  datatype Ledger = Ledger(written: seq<BlockHash>, tip: nat) {

    /** The highest tip ever reached. */
    function High(): int { |written| - 1 }

    /** The lowest height above genesis that the window still holds. */
    function Low(): int { if High() <= MAX_REORG_DEPTH then 1 else High() - MAX_REORG_DEPTH + 1 }

    ghost predicate Valid() {
      tip < |written| && Low() <= tip + 1 && (tip == 0 || Low() <= tip)
    }

    predicate Retains(height: int) {
      0 <= height < |written| && (height == 0 || Low() <= height)
    }

    /** The chain the wallet follows, genesis first. */
    function Chain(): seq<BlockHash>
      requires tip < |written|
    {
      written[..tip + 1]
    }

    function Connect(hash: BlockHash): Ledger
      requires tip < |written|
    {
      if tip + 1 < |written| then Ledger(written[tip + 1 := hash], tip + 1)
      else Ledger(written + [hash], tip + 1)
    }

    function Rollback(height: nat): Ledger
    {
      Ledger(written, height)
    }
  }

  function WindowOf(l: Ledger): map<int, BlockHash> {
    map h: int | 0 <= h < |l.written| && l.Retains(h) :: l.written[h]
  }

  /** The bucket is exactly the ledger's window. */
  ghost predicate Refines(d: SyncData, l: Ledger) {
    l.Valid()
    && d.hashes == WindowOf(l)
    && d.syncedTo.height == l.tip
    && d.syncedTo.hash == l.written[l.tip]
  }

  /** The stored heights are exactly genesis and the last MAX_REORG_DEPTH heights ever reached,
      and every stored height up to the tip holds the block of the followed chain. */
  lemma WindowContents(d: SyncData, l: Ledger)
    requires Refines(d, l)
    ensures forall h :: h in d.hashes <==>
              h == 0 || (if l.High() - 9999 > 1 then l.High() - 9999 else 1) <= h <= l.High()
    ensures forall h :: h in d.hashes && h <= l.tip ==> d.hashes[h] == l.Chain()[h]
    ensures l.tip in d.hashes
  {
    assert forall h :: h in d.hashes <==> 0 <= h < |l.written| && l.Retains(h);
  }

  /** Connecting the block above the tip is never refused, whatever stale entries a rollback
      left there; the followed chain grows by that block and the window slides with it. */
  lemma ConnectAtTip(d: SyncData, l: Ledger, bs: BlockStamp)
    requires Refines(d, l)
    requires bs.height == l.tip + 1
    ensures Accepts(d, bs.height)
    ensures Refines(Stored(d, bs), l.Connect(bs.hash))
    ensures l.Connect(bs.hash).Chain() == l.Chain() + [bs.hash]
    ensures l.Connect(bs.hash).High() == if l.tip == l.High() then l.High() + 1 else l.High()
  {
    WindowContents(d, l);
    var d', l' := Stored(d, bs), l.Connect(bs.hash);
    forall h
      ensures h in d'.hashes <==> h in WindowOf(l')
      ensures h in d'.hashes ==> d'.hashes[h] == l'.written[h]
    {
      if h in d.hashes && h != bs.height {
        assert d.hashes[h] == l.written[h];
      }
    }
    assert d'.hashes == WindowOf(l');
  }

  /** Once there is a birthday block, a connect above the tip is refused exactly when nothing was ever stored below it. So
      after a rollback a block may be accepted although blocks between it and the tip are
      missing: PutSyncedTo cannot tell a stale entry from a current one. */
  lemma ConnectBeyondTip(d: SyncData, l: Ledger, height: int)
    requires Refines(d, l) && d.birthday.Some?
    requires height > l.tip
    ensures Accepts(d, height) <==> height - 1 <= l.High()
  {
    WindowContents(d, l);
  }

  /** Once there is a birthday block, a rollback is accepted iff the block below the target is stored (genesis always is). */
  lemma RollbackAccepted(d: SyncData, l: Ledger, height: nat)
    requires Refines(d, l) && d.birthday.Some?
    requires height <= l.tip
    ensures Accepts(d, height) <==> height == 0 || height - 1 in d.hashes
    ensures Accepts(d, height) <==> height <= 1 || l.Low() < height
  {
    WindowContents(d, l);
  }

  /** An accepted rollback that re-writes the followed chain's own block keeps the bucket a
      window with that tip exactly when the target is retained and, for genesis, so is
      height 1. The exceptions are the heights 0 and 1 once the window has slid past them. */
  lemma RollbackKeepsWindow(d: SyncData, l: Ledger, bs: BlockStamp)
    requires Refines(d, l)
    requires 0 <= bs.height <= l.tip
    requires bs.hash == l.written[bs.height]
    requires Accepts(d, bs.height)
    ensures Refines(Stored(d, bs), l.Rollback(bs.height))
            <==> (if bs.height == 0 then l.Low() == 1 else l.Retains(bs.height))
  {
    WindowContents(d, l);
    var d', l' := Stored(d, bs), l.Rollback(bs.height);
    assert WindowOf(l') == WindowOf(l);
    assert bs.height - MAX_REORG_DEPTH > 0 ==> bs.height - MAX_REORG_DEPTH !in d.hashes;
    if l.Retains(bs.height) {
      assert bs.height in d.hashes && d.hashes[bs.height] == bs.hash;
      assert d'.hashes == d.hashes;
    } else {
      assert bs.height in d'.hashes && bs.height !in WindowOf(l);
    }
  }

  function Genesis(hash: BlockHash): Ledger { Ledger([hash], 0) }

  /** What Create stores: genesis as the tip, and no birthday block yet. */
  function Created(genesis: BlockStamp): SyncData {
    Stored(SyncData(map[], genesis, None), genesis)
  }

  lemma GenesisRefines(genesis: BlockStamp)
    requires genesis.height == 0
    ensures Put(SyncData(map[], genesis, None), genesis) == Some(Created(genesis))
    ensures Refines(Created(genesis), Genesis(genesis.hash)) && Created(genesis).birthday == None
  {
  }
}
