/** Whole runs of the wallet's chain following: notifications, reconnections and catch-ups in any
    order, transactions that fail, and restarts of the process. */
module SyncRuns {
  import opened Wrappers
  import opened SyncStore
  import opened ChainSync
  import opened CatchUp

  datatype Step =
    | ConnectStep(bs: BlockStamp)
    | DisconnectStep(height: int, hash: BlockHash)
    | ResyncStep(birthday: Option<BlockStamp>, located: Option<BlockStamp>)
    | CatchUpStep(target: int, insertOk: int -> bool)
    | RestartStep

  /** One step with the backend as it answers at that moment. `storeOk` is false if the step's
      transaction fails after the tip was set. */
  datatype Event = Event(step: Step, backend: Backend, storeOk: bool)

  /** The state after CatchUpTo. */
  function CaughtUp(n: Node, source: Source, target: int): Node {
    if n.memory.height < target
    then Node(Committed(n, source, target), Plain(n, source, n.memory.height + 1, target + 1).0.memory)
    else n
  }

  ghost function Apply(n: Node, e: Event): Node {
    match e.step
    case ConnectStep(bs) => Connect(n, bs, e.storeOk).node
    case DisconnectStep(height, hash) => Disconnect(n, height, hash, e.backend, e.storeOk).node
    case ResyncStep(birthday, located) =>
      if HeightsNonNegative(n.disk) then Sync(n, e.backend, birthday, located, e.storeOk).node else n
    case CatchUpStep(target, insertOk) => CaughtUp(n, Source(e.backend, insertOk), target)
    case RestartStep => Node(n.disk, n.disk.syncedTo)
  }

  /** The tip in memory is the committed one. */
  predicate Clean(n: Node) { n.memory == n.disk.syncedTo }

  /** What a run is compared with: the chain followed, genesis first, and the highest tip it
      ever had. */
  datatype View = View(chain: seq<BlockHash>, high: int) {
    ghost function Tip(): int { |chain| - 1 }
  }

  function HashAt(backend: Backend, height: int): BlockHash {
    match backend.blockAt(height) case None => BlockHash(0) case Some(hash) => hash
  }

  /** The effect of an event on the followed chain, given the committed tip it leaves: a tip at
      or below the old one truncates the chain, a higher one appends the connected block or
      the backend's blocks. */
  ghost function Follow(v: View, e: Event, tip: int): View {
    if 0 <= tip <= v.Tip() then v.(chain := v.chain[..tip + 1])
    else
      var high := if v.high < tip then tip else v.high;
      match e.step
      case ConnectStep(bs) => View(v.chain + [bs.hash], high)
      case CatchUpStep(_, _) =>
        if tip < 0 then v
        else View(v.chain + seq(tip - v.Tip(), i => HashAt(e.backend, v.Tip() + 1 + i)), high)
      case _ => v
  }

  /** Which runs are considered: blocks are connected no higher than one above the tip, every
      backend the wallet reconnects to serves the same network, and after a failed transaction
      the process restarts before it goes on. */
  ghost predicate WellBehaved(n: Node, v: View, e: Event) {
    match e.step
    case ConnectStep(bs) => Clean(n) && bs.height <= v.Tip() + 1
    case DisconnectStep(_, _) => Clean(n)
    case ResyncStep(_, _) => Clean(n) && SameNetwork(v.chain, e.backend)
    case CatchUpStep(_, _) => Clean(n)
    case RestartStep => true
  }

  ghost function ViewAfter(n: Node, v: View, e: Event): View {
    Follow(v, e, Apply(n, e).disk.syncedTo.height)
  }

  ghost predicate WellBehavedRun(n: Node, v: View, run: seq<Event>)
    decreases |run|
  {
    run == [] || (WellBehaved(n, v, run[0]) && WellBehavedRun(Apply(n, run[0]), ViewAfter(n, v, run[0]), run[1..]))
  }

  ghost function RunNode(n: Node, run: seq<Event>): Node
    decreases |run|
  {
    if run == [] then n else RunNode(Apply(n, run[0]), run[1..])
  }

  ghost function RunView(n: Node, v: View, run: seq<Event>): View
    decreases |run|
  {
    if run == [] then v else RunView(Apply(n, run[0]), ViewAfter(n, v, run[0]), run[1..])
  }

  ghost predicate InStep(d: SyncData, l: Ledger, v: View) {
    Refines(d, l) && HeightsNonNegative(d) && v.chain == l.Chain() && v.high == l.High()
  }

  /** The committed state is a window and this is the chain it follows. */
  ghost predicate Follows(d: SyncData, v: View) {
    exists l :: InStep(d, l, v)
  }

  lemma StandstillKeeps(d: SyncData, d': SyncData, l: Ledger, v: View, e: Event)
    requires InStep(d, l, v) && d' == d
    ensures InStep(d', l, Follow(v, e, d'.syncedTo.height))
  {
    assert v.chain[..l.tip + 1] == v.chain;
  }

  /** A rollback to a retained height keeps store and reference in step. */
  lemma RollbackKeeps(d: SyncData, d': SyncData, l: Ledger, v: View, e: Event, height: nat)
    requires InStep(d, l, v) && height <= l.tip
    requires Refines(d', l.Rollback(height))
    ensures InStep(d', l.Rollback(height), Follow(v, e, d'.syncedTo.height))
  {
    WindowContents(d', l.Rollback(height));
    assert v.chain[..height + 1] == l.Rollback(height).Chain();
  }

  lemma ConnectKeeps(n: Node, l: Ledger, v: View, e: Event)
    requires InStep(n.disk, l, v) && WellBehaved(n, v, e) && e.step.ConnectStep?
    ensures Follows(Apply(n, e).disk, ViewAfter(n, v, e))
  {
    var bs := e.step.bs;
    var d' := Apply(n, e).disk;
    if bs.height > l.tip && e.storeOk {
      ConnectAtTip(n.disk, l, bs);
      WindowContents(d', l.Connect(bs.hash));
      assert InStep(d', l.Connect(bs.hash), ViewAfter(n, v, e));
    } else {
      StandstillKeeps(n.disk, d', l, v, e);
    }
  }

  lemma DisconnectKeeps(n: Node, l: Ledger, v: View, e: Event)
    requires InStep(n.disk, l, v) && WellBehaved(n, v, e) && e.step.DisconnectStep?
    ensures Follows(Apply(n, e).disk, ViewAfter(n, v, e))
  {
    var height, hash := e.step.height, e.step.hash;
    var d' := Apply(n, e).disk;
    DisconnectRollsBack(n, l, height, hash, e.backend, e.storeOk);
    if 1 <= height <= l.tip && hash == l.Chain()[height] && Disconnect(n, height, hash, e.backend, e.storeOk).ok {
      RollbackKeeps(n.disk, d', l, v, e, height - 1);
    } else {
      StandstillKeeps(n.disk, d', l, v, e);
    }
  }

  /** A wallet without a birthday block stores one first; that is no part of the window. */
  lemma ResyncKeeps(n: Node, l: Ledger, v: View, e: Event)
    requires InStep(n.disk, l, v) && WellBehaved(n, v, e) && e.step.ResyncStep?
    ensures Follows(Apply(n, e).disk, ViewAfter(n, v, e))
  {
    if e.step.birthday.Some? {
      CompareKeeps(n, l, v, e, e.step.birthday.value);
    } else if e.step.located.Some? {
      CompareKeeps(n.(disk := n.disk.(birthday := Some(e.step.located.value))), l, v, e, e.step.located.value);
    } else {
      StandstillKeeps(n.disk, n.disk, l, v, e);
    }
  }

  lemma CompareKeeps(n: Node, l: Ledger, v: View, e: Event, birthday: BlockStamp)
    requires InStep(n.disk, l, v) && Clean(n) && SameNetwork(v.chain, e.backend)
    ensures var d' := Resync(n, e.backend, birthday, e.storeOk).node.disk;
            Follows(d', Follow(v, e, d'.syncedTo.height))
  {
    var fork := ForkPointExists(l, e.backend, l.tip);
    ResyncFindsForkPoint(n, l, e.backend, birthday, e.storeOk, fork);
    var d' := Resync(n, e.backend, birthday, e.storeOk).node.disk;
    if Resync(n, e.backend, birthday, e.storeOk).ok {
      RollbackKeeps(n.disk, d', l, v, e, fork);
    } else {
      StandstillKeeps(n.disk, d', l, v, e);
    }
  }

  lemma CatchUpKeeps(n: Node, l: Ledger, v: View, e: Event)
    requires InStep(n.disk, l, v) && WellBehaved(n, v, e) && e.step.CatchUpStep?
    ensures Follows(Apply(n, e).disk, ViewAfter(n, v, e))
  {
    assert n.memory.height == l.tip;
    hide Committed, Plain, Extends, InStep, Follow;
    var d' := Apply(n, e).disk;
    if l.tip < e.step.target {
      var l' := CommittedExtendsChain(n, l, Source(e.backend, e.step.insertOk), e.step.target);
      WindowContents(d', l');
      AppendKeeps(n.disk, d', l, l', v, e);
    } else {
      StandstillKeeps(n.disk, d', l, v, e);
    }
  }

  lemma ChainAppended(l: Ledger, l': Ledger, backend: Backend)
    requires Extends(l, l', backend)
    ensures l.Valid() && l'.Valid() && l.tip <= l'.tip
    ensures l'.Chain() == l.Chain() + seq(l'.tip - l.tip, i => HashAt(backend, l.tip + 1 + i))
    ensures l'.High() == if l.High() < l'.tip then l'.tip else l.High()
  {
    forall h | l.tip < h <= l'.tip
      ensures l'.Chain()[h] == HashAt(backend, h)
    {
      assert backend.blockAt(h) == Some(l'.Chain()[h]);
    }
    assert l'.Chain() == l'.Chain()[..l.tip + 1] + l'.Chain()[l.tip + 1..];
  }

  lemma NeverNegative(d: SyncData, l: Ledger)
    requires Refines(d, l)
    ensures HeightsNonNegative(d)
  {
    WindowContents(d, l);
  }

  lemma AppendKeeps(d: SyncData, d': SyncData, l: Ledger, l': Ledger, v: View, e: Event)
    requires InStep(d, l, v) && e.step.CatchUpStep?
    requires Refines(d', l') && Extends(l, l', e.backend)
    ensures InStep(d', l', Follow(v, e, d'.syncedTo.height))
  {
    hide Extends;
    NeverNegative(d', l');
    ChainAppended(l, l', e.backend);
    if l'.tip == l.tip {
      assert v.chain[..l.tip + 1] == v.chain;
    }
  }

  lemma StepKeeps(n: Node, v: View, e: Event)
    requires Follows(n.disk, v) && WellBehaved(n, v, e)
    ensures Follows(Apply(n, e).disk, ViewAfter(n, v, e))
  {
    var l :| InStep(n.disk, l, v);
    match e.step {
      case ConnectStep(_) => ConnectKeeps(n, l, v, e);
      case DisconnectStep(_, _) => DisconnectKeeps(n, l, v, e);
      case ResyncStep(_, _) => ResyncKeeps(n, l, v, e);
      case CatchUpStep(_, _) => CatchUpKeeps(n, l, v, e);
      case RestartStep => StandstillKeeps(n.disk, n.disk, l, v, e);
    }
  }

  /** What holds of the committed state of a followed chain. */
  ghost predicate IsWindow(d: SyncData, v: View) {
    v.Tip() >= 0
    && (forall h :: h in d.hashes <==> h == 0 || (if v.high - 9999 > 1 then v.high - 9999 else 1) <= h <= v.high)
    && (forall h :: h in d.hashes && h <= v.Tip() ==> d.hashes[h] == v.chain[h])
    && d.syncedTo.height == v.Tip() && d.syncedTo.hash == v.chain[v.Tip()]
  }

  lemma FollowsIsWindow(d: SyncData, v: View)
    requires Follows(d, v)
    ensures IsWindow(d, v)
  {
    var l :| InStep(d, l, v);
    WindowContents(d, l);
  }

  /** MAIN RESULT on runs. After every well-behaved run of connects, disconnects, reconnections,
      batched catch-ups and restarts, whatever was refused or failed on the way, the stored
      heights are exactly genesis and the last 10000 heights ever reached, every stored height
      up to the tip holds the block of the followed chain, and the tip is that chain's last
      block. */
  lemma {:induction false} RunKeepsWindow(n: Node, v: View, run: seq<Event>)
    requires Follows(n.disk, v) && WellBehavedRun(n, v, run)
    ensures IsWindow(RunNode(n, run).disk, RunView(n, v, run))
    decreases |run|
  {
    if run == [] {
      FollowsIsWindow(n.disk, v);
    } else {
      StepKeeps(n, v, run[0]);
      RunKeepsWindow(Apply(n, run[0]), ViewAfter(n, v, run[0]), run[1..]);
    }
  }

  /** Catching up all the way. */
  predicate Completes(n: Node, source: Source, target: int) {
    Plain(n, source, n.memory.height + 1, target + 1).1 >= target + 1
  }

  lemma CatchUpClean(n: Node, l: Ledger, source: Source, target: int)
    requires Refines(n.disk, l) && Clean(n) && Completes(n, source, target)
    ensures Clean(CaughtUp(n, source, target))
  {
    if n.memory.height < target {
      AllCommitted(n, source, target);
      var l' := PlainExtendsChain(n, l, source, l.tip + 1, target + 1);
    }
  }

  /** Only a step that fails can leave memory and database apart, and a restart mends it. */
  lemma CleanUnlessFailed(n: Node, v: View, e: Event)
    requires Follows(n.disk, v) && WellBehaved(n, v, e) && e.storeOk
    requires e.step.CatchUpStep? ==> Completes(n, Source(e.backend, e.step.insertOk), e.step.target)
    ensures Clean(Apply(n, e))
  {
    hide FindFork, CaughtUp, Completes, Follows;
    if e.step.CatchUpStep? {
      var l := FollowedLedger(n.disk, v);
      CatchUpClean(n, l, Source(e.backend, e.step.insertOk), e.step.target);
    }
  }

  lemma FollowedLedger(d: SyncData, v: View) returns (l: Ledger)
    requires Follows(d, v)
    ensures InStep(d, l, v)
  {
    l :| InStep(d, l, v);
  }

  /** A wallet as created, with no birthday block yet, starts as a window on the one-block
      chain, so the result above covers every run of its life, the first connection to the
      backend included. */
  lemma CreatedWalletFollows(genesis: BlockStamp)
    requires genesis.height == 0
    ensures Follows(Created(genesis), View([genesis.hash], 0))
  {
    GenesisRefines(genesis);
    assert InStep(Created(genesis), Genesis(genesis.hash), View([genesis.hash], 0));
  }
}
