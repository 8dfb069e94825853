/** The look-ahead of address recovery on one branch (wallet/recovery.go): how many child
    indexes to derive so that enough valid ones lie beyond the last address found. */
module Recovery {

  const TWO32: int := 0x1_0000_0000

  /** uint32 addition wraps around. */
  function Uint32(v: int): nat { v % TWO32 }

  datatype Branch = Branch(window: nat, horizon: nat, nextUnfound: nat, invalid: set<nat>) {

    /** The invalid children between the last address found and the horizon. */
    ghost function InvalidInHorizon(): set<nat> {
      set i | i in invalid && nextUnfound <= i < horizon
    }

    /** The children between the last address found and the horizon that can be used. */
    ghost function ValidInHorizon(): set<nat> {
      set i: nat | nextUnfound <= i < horizon && i !in invalid
    }
  }

  ghost function Required(b: Branch): int { b.nextUnfound + b.window + |b.InvalidInHorizon()| }

  /** The branch afterwards and how many addresses to derive. */
  ghost function Extended(b: Branch): (Branch, nat) {
    var minValidHorizon := Uint32(Required(b));
    if b.horizon >= minValidHorizon then (b, 0)
    else (b.(horizon := minValidHorizon), minValidHorizon - b.horizon)
  }

  function Found(b: Branch, index: nat): Branch {
    if index >= b.nextUnfound then
      b.(nextUnfound := Uint32(index + 1), invalid := set i | i in b.invalid && i >= index)
    else b
  }

  function Marked(b: Branch, index: nat): Branch {
    b.(invalid := b.invalid + {index}, horizon := Uint32(b.horizon + 1))
  }

  class BranchRecoveryState {
    const recoveryWindow: nat
    var horizon: nat
    var nextUnfound: nat
    var invalidChildren: set<nat>

    constructor (recoveryWindow: nat)
      ensures State() == Branch(recoveryWindow, 0, 0, {})
    {
      this.recoveryWindow := recoveryWindow;
      horizon, nextUnfound, invalidChildren := 0, 0, {};
    }

    function State(): Branch
      reads this
    {
      Branch(recoveryWindow, horizon, nextUnfound, invalidChildren)
    }

    method NumInvalidInHorizon() returns (n: nat)
      ensures n == |State().InvalidInHorizon()|
    {
      n := 0;
      var rest := invalidChildren;
      ghost var counted: set<nat> := {};
      while rest != {}
        invariant rest <= invalidChildren
        invariant counted == set i | i in invalidChildren - rest && nextUnfound <= i < horizon
        invariant n == |counted|
        decreases rest
      {
        var child :| child in rest;
        rest := rest - {child};
        if nextUnfound <= child < horizon {
          n := n + 1;
          counted := counted + {child};
        }
      }
      assert counted == State().InvalidInHorizon();
    }

    method ExtendHorizon() returns (current: nat, delta: nat)
      modifies this`horizon
      ensures (State(), delta) == Extended(old(State())) && current == old(horizon)
    {
      current := horizon;
      var nInvalid := NumInvalidInHorizon();
      var minValidHorizon := Uint32(nextUnfound + recoveryWindow + nInvalid);
      if current >= minValidHorizon {
        return current, 0;
      }
      delta := minValidHorizon - current;
      horizon := minValidHorizon;
    }

    method ReportFound(index: nat)
      modifies this`nextUnfound, this`invalidChildren
      ensures State() == Found(old(State()), index)
    {
      if index >= nextUnfound {
        nextUnfound := Uint32(index + 1);
        var rest := invalidChildren;
        while rest != {}
          invariant nextUnfound == Uint32(index + 1)
          invariant rest <= old(invalidChildren)
          invariant invalidChildren
                    == (set i | i in old(invalidChildren) - rest && i >= index) + rest
          decreases rest
        {
          var child :| child in rest;
          rest := rest - {child};
          if child < index {
            invalidChildren := invalidChildren - {child};
          }
        }
        assert invalidChildren == Found(old(State()), index).invalid;
      }
    }

    method MarkInvalidChild(index: nat)
      modifies this`horizon, this`invalidChildren
      ensures State() == Marked(old(State()), index)
    {
      invalidChildren := invalidChildren + {index};
      horizon := Uint32(horizon + 1);
    }
  }

  // ----- what every run keeps -----

  datatype Op = Extend | ReportFound(index: nat) | MarkInvalid(index: nat)

  ghost function Apply(b: Branch, op: Op): Branch {
    match op
    case Extend => Extended(b).0
    case ReportFound(index) => Found(b, index)
    case MarkInvalid(index) => Marked(b, index)
  }

  /** The caller marks only children it has derived or is about to derive. */
  predicate Proper(b: Branch, op: Op) {
    op.MarkInvalid? ==> op.index <= b.horizon
  }

  ghost predicate Overflows(b: Branch, op: Op) {
    match op
    case Extend => Required(b) >= TWO32
    case ReportFound(index) => index + 1 >= TWO32
    case MarkInvalid(_) => b.horizon + 1 >= TWO32
  }

  ghost predicate BelowHorizon(b: Branch) {
    forall i <- b.invalid :: i < b.horizon
  }

  ghost predicate ProperRun(b: Branch, ops: seq<Op>)
    decreases |ops|
  {
    ops == [] || (Proper(b, ops[0]) && !Overflows(b, ops[0]) && ProperRun(Apply(b, ops[0]), ops[1..]))
  }

  ghost function Run(b: Branch, ops: seq<Op>): Branch
    decreases |ops|
  {
    if ops == [] then b else Run(Apply(b, ops[0]), ops[1..])
  }

  /** In every run the marked children stay below the horizon and the horizon never shrinks. */
  lemma {:induction false} RunKeepsBelowHorizon(b: Branch, ops: seq<Op>)
    requires BelowHorizon(b) && ProperRun(b, ops)
    ensures BelowHorizon(Run(b, ops))
    ensures Run(b, ops).horizon >= b.horizon && Run(b, ops).nextUnfound >= b.nextUnfound
    decreases |ops|
  {
    if ops != [] {
      RunKeepsBelowHorizon(Apply(b, ops[0]), ops[1..]);
    }
  }

  function Interval(from: nat, until: nat): (s: set<nat>)
    ensures forall i :: i in s <==> from <= i < until
  {
    if from < until then Interval(from, until - 1) + {until - 1} else {}
  }

  lemma {:induction false} IntervalSize(from: nat, until: nat)
    ensures |Interval(from, until)| == if from <= until then until - from else 0
    decreases until
  {
    if from < until {
      IntervalSize(from, until - 1);
    }
  }

  /** Valid and invalid children fill the window between them. */
  lemma CountsAddUp(b: Branch)
    requires b.nextUnfound <= b.horizon
    ensures |b.ValidInHorizon()| + |b.InvalidInHorizon()| == b.horizon - b.nextUnfound
  {
    IntervalSize(b.nextUnfound, b.horizon);
    assert Interval(b.nextUnfound, b.horizon) == b.ValidInHorizon() + b.InvalidInHorizon();
    assert b.ValidInHorizon() !! b.InvalidInHorizon();
  }

  /** MAIN RESULT. After extending the horizon at any point of a run, at least `window` valid
      children lie between the last address found and the horizon; exactly `window` if
      addresses had to be derived; and extending again derives none. */
  lemma ExtendedHorizonSuffices(start: Branch, ops: seq<Op>)
    requires BelowHorizon(start) && ProperRun(start, ops)
    requires !Overflows(Run(start, ops), Extend)
    ensures var b := Run(start, ops);
            var (extended, delta) := Extended(b);
            && |extended.ValidInHorizon()| >= b.window
            && (delta > 0 ==> |extended.ValidInHorizon()| == b.window)
            && Extended(extended) == (extended, 0)
  {
    RunKeepsBelowHorizon(start, ops);
    var b := Run(start, ops);
    RunKeepsWindow(start, ops);
    var (extended, delta) := Extended(b);
    assert extended.InvalidInHorizon() == b.InvalidInHorizon();
    CountsAddUp(extended);
  }

  lemma {:induction false} RunKeepsWindow(b: Branch, ops: seq<Op>)
    ensures Run(b, ops).window == b.window
    decreases |ops|
  {
    if ops != [] {
      RunKeepsWindow(Apply(b, ops[0]), ops[1..]);
    }
  }

  /** Marking a child of the window that was not marked yet moves the horizon by just enough
      to keep the number of valid children; marking one twice adds one. */
  lemma MarkingKeepsValidCount(b: Branch, index: nat)
    requires BelowHorizon(b) && b.nextUnfound <= index <= b.horizon && !Overflows(b, MarkInvalid(index))
    ensures |Marked(b, index).ValidInHorizon()|
            == |b.ValidInHorizon()| + if index in b.invalid then 1 else 0
  {
    var m := Marked(b, index);
    CountsAddUp(b);
    CountsAddUp(m);
    if index in b.invalid {
      assert m.InvalidInHorizon() == b.InvalidInHorizon();
    } else {
      assert m.InvalidInHorizon() == b.InvalidInHorizon() + {index};
    }
  }

  /** Forgetting the children below a found one does not change the number that counts. */
  lemma PruningKeepsInvalidCount(b: Branch, index: nat)
    requires index >= b.nextUnfound && index + 1 < TWO32
    ensures Found(b, index).InvalidInHorizon() == b.(nextUnfound := index + 1).InvalidInHorizon()
  {
  }

  /** Overflow does break it: at the largest index the horizon falls back to 0. */
  lemma OverflowShrinksHorizon(b: Branch, index: nat)
    requires b.horizon == TWO32 - 1
    ensures Marked(b, index).horizon == 0
  {
  }

  // ----- what each operation does -----

  /** Extending, short of overflow: the horizon rises to the next index to look for, plus the
      window, plus one for each marked child from there to the horizon, unless it is that high
      already; the indexes to derive are those gained. */
  lemma ExtendOutcome(b: Branch)
    requires !Overflows(b, Extend)
    ensures var (b', delta) := Extended(b);
            var enough := b.nextUnfound + b.window + |set i | i in b.invalid && b.nextUnfound <= i < b.horizon|;
            && b'.horizon == (if b.horizon < enough then enough else b.horizon)
            && delta == b'.horizon - b.horizon
            && b'.nextUnfound == b.nextUnfound && b'.window == b.window && b'.invalid == b.invalid
  {
    assert (set i | i in b.invalid && b.nextUnfound <= i < b.horizon) == b.InvalidInHorizon();
  }

  /** Finding an index looked for: the next one is looked for, exactly the marked children below
      the found one are forgotten; an index already passed changes nothing. */
  lemma FoundOutcome(b: Branch, index: nat)
    requires index + 1 < TWO32
    ensures var b' := Found(b, index);
            && b'.nextUnfound == (if b.nextUnfound < index + 1 then index + 1 else b.nextUnfound)
            && (forall i :: i in b'.invalid <==> i in b.invalid && (index < b.nextUnfound || index <= i))
            && b'.horizon == b.horizon && b'.window == b.window
  {
  }

  /** Marking a child adds it, and one index more to derive. */
  lemma MarkOutcome(b: Branch, index: nat)
    requires b.horizon + 1 < TWO32
    ensures var b' := Marked(b, index);
            && b'.invalid == b.invalid + {index} && b'.horizon == b.horizon + 1
            && b'.nextUnfound == b.nextUnfound && b'.window == b.window
  {
  }

  /** At the edge of uint32 all three wrap around: the sum of an extension is taken modulo 2^32,
      and a horizon beyond it is left alone. */
  lemma OverflowOutcome(b: Branch)
    requires Required(b) >= 0x1_0000_0000 && b.horizon < 0x1_0000_0000
    ensures Extended(b).0.horizon == if b.horizon < Required(b) % 0x1_0000_0000 then Required(b) % 0x1_0000_0000 else b.horizon
    ensures Found(b, 0xFFFF_FFFF).nextUnfound == if b.nextUnfound <= 0xFFFF_FFFF then 0 else b.nextUnfound
  {
  }
}
