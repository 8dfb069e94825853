/** Choosing the coins, the fee and the change of a plain transfer (wallet/createtx.go). */
module CoinSelection {
  import opened Wrappers
  import opened Coins
  import opened StableSort
  import opened TokenLayout

  const CHANGE_THRESHOLD: int := 1000

  /** What the caller asks for. `privacy` says whether to use only pseudonym coins (Some(true)),
      only other coins (Some(false)) or any; `specified` lists prefixes of coin hashes. */
  datatype Request = Request(
    target: nat,
    feeSpecified: int,
    feePerKb: int,
    specified: Option<seq<string>>,
    privacy: Option<bool>)

  /** What the selection takes from elsewhere: the fee computed for a list of inputs, which
      may fail, the hash of a coin, and the bounds on inputs, outputs and amounts. */
  datatype Params = Params(
    fee: seq<Coin> -> Option<nat>,
    hashOf: Coin -> string,
    maxInputs: nat,
    maxRingInputs: nat,
    maxSingleInputs: nat,
    maxOutputs: nat,
    maxRingOutputs: nat,
    maxSingleOutputs: nat,
    maxAmount: nat)

  datatype Selection = Selection(coins: seq<Coin>, fee: int, change: bool)

  predicate Matches(privacy: Option<bool>, c: Coin) {
    privacy.None? || privacy.value == c.pseudonymous
  }

  function Matching(privacy: Option<bool>, coins: seq<Coin>): seq<Coin> {
    if coins == [] then []
    else (if Matches(privacy, coins[0]) then [coins[0]] else []) + Matching(privacy, coins[1..])
  }

  /** The shortest non-empty prefix worth at least `goal`, or everything. */
  function Prefix(coins: seq<Coin>, goal: int): seq<Coin> {
    if coins == [] then []
    else if coins[0].amount >= goal then [coins[0]]
    else [coins[0]] + Prefix(coins[1..], goal - coins[0].amount)
  }

  /** The first coin whose hash starts with each prefix. */
  function FirstWith(coins: seq<Coin>, hashOf: Coin -> string, prefix: string): Option<Coin> {
    if coins == [] then None
    else if prefix <= hashOf(coins[0]) then Some(coins[0])
    else FirstWith(coins[1..], hashOf, prefix)
  }

  function FetchSpecified(coins: seq<Coin>, hashOf: Coin -> string, specified: seq<string>): Option<seq<Coin>> {
    if specified == [] then Some([])
    else
      match (FetchSpecified(coins, hashOf, specified[..|specified| - 1]),
             FirstWith(coins, hashOf, specified[|specified| - 1]))
      case (Some(found), Some(coin)) => Some(found + [coin])
      case _ => None
  }

  predicate AllMatch(privacy: Option<bool>, coins: seq<Coin>) {
    forall c <- coins :: Matches(privacy, c)
  }

  /** How the fee-per-kilobyte loop ends: with coins that cover target and fee, by running out
      of coins, or with an error. */
  datatype LoopEnd = Settled(coins: seq<Coin>, fee: nat) | Exhausted(coins: seq<Coin>) | Failed

  function PerKb(picked: seq<Coin>, rest: seq<Coin>, target: nat, fee: seq<Coin> -> Option<nat>): LoopEnd
    decreases |rest|
  {
    if rest == [] then Exhausted(picked)
    else
      var p := picked + [rest[0]];
      if Total(p) < target then PerKb(p, rest[1..], target, fee)
      else
        match fee(p)
        case None => Failed
        case Some(f) => if Total(p) < target + f then PerKb(p, rest[1..], target, fee) else Settled(p, f)
  }

  /** Fee and change for coins that cover target and fee: a remainder below the threshold is
      added to the fee. */
  function Divide(coins: seq<Coin>, target: nat, fee: int): Selection {
    if Total(coins) > target + fee then
      if Total(coins) - target - fee < CHANGE_THRESHOLD then Selection(coins, Total(coins) - target, false)
      else Selection(coins, fee, true)
    else Selection(coins, fee, false)
  }

  function RingInputs(coins: seq<Coin>): nat {
    if coins == [] then 0 else (if coins[0].pseudonymous then 0 else 1) + RingInputs(coins[1..])
  }

  predicate WithinLimits(p: Params, coins: seq<Coin>) {
    |coins| < p.maxInputs && RingInputs(coins) <= p.maxRingInputs
    && |coins| - RingInputs(coins) <= p.maxSingleInputs
  }

  /** The outcome of a selection from the sorted list of eligible coins; None is an error. */
  function Select(r: Request, p: Params, eligible: seq<Coin>): Option<Selection> {
    if r.feeSpecified > 0 then
      match r.specified
      case None =>
        var coins := Prefix(Matching(r.privacy, eligible), r.target + r.feeSpecified);
        if Total(coins) < r.target + r.feeSpecified then None
        else Some(Divide(coins, r.target, r.feeSpecified))
      case Some(prefixes) =>
        match FetchSpecified(eligible, p.hashOf, prefixes)
        case None => None
        case Some(coins) =>
          if !AllMatch(r.privacy, coins) || Total(coins) < r.target + r.feeSpecified then None
          else Some(Divide(coins, r.target, r.feeSpecified))
    else if r.feeSpecified == 0 && r.feePerKb > 0 then
      match r.specified
      case None =>
        (match PerKb([], Matching(r.privacy, eligible), r.target, p.fee)
         case Failed => None
         case Exhausted(coins) => if Total(coins) < r.target then None else Some(Selection(coins, 0, false))
         case Settled(coins, fee) => Some(Divide(coins, r.target, fee)))
      case Some(prefixes) =>
        match FetchSpecified(eligible, p.hashOf, prefixes)
        case None => None
        case Some(coins) =>
          if !AllMatch(r.privacy, coins) || Total(coins) < r.target || !WithinLimits(p, coins) then None
          else
            match p.fee(coins)
            case None => None
            case Some(fee) => if r.target + fee > Total(coins) then None else Some(Divide(coins, r.target, fee))
    else if r.target > 0 then None
    else Some(Selection([], 0, false))
  }

  // ----- the selection as the program runs it -----

  lemma TotalSnoc(coins: seq<Coin>, c: Coin)
    ensures Total(coins + [c]) == Total(coins) + c.amount
  {
    TotalConcat(coins, [c]);
  }

  lemma MatchingStep(privacy: Option<bool>, coins: seq<Coin>, i: nat)
    requires i < |coins|
    ensures var rest := Matching(privacy, coins[i + 1..]);
            if Matches(privacy, coins[i])
            then Matching(privacy, coins[i..]) == [coins[i]] + rest && Matching(privacy, coins[i..])[1..] == rest
            else Matching(privacy, coins[i..]) == rest
  {
    assert coins[i..][1..] == coins[i + 1..];
  }

  method FetchSpecifiedUTXO(eligible: seq<Coin>, hashOf: Coin -> string, specified: seq<string>)
      returns (r: Option<seq<Coin>>)
    ensures r == FetchSpecified(eligible, hashOf, specified)
  {
    var selected := [];
    var i := 0;
    while i < |specified|
      invariant 0 <= i <= |specified|
      invariant FetchSpecified(eligible, hashOf, specified[..i]) == Some(selected)
    {
      assert specified[..i + 1][..i] == specified[..i];
      var found := None;
      var j := 0;
      while j < |eligible|
        invariant 0 <= j <= |eligible|
        invariant found.None?
        invariant FirstWith(eligible, hashOf, specified[i]) == FirstWith(eligible[j..], hashOf, specified[i])
      {
        if specified[i] <= hashOf(eligible[j]) {
          found := Some(eligible[j]);
          break;
        }
        j := j + 1;
      }
      assert found == FirstWith(eligible, hashOf, specified[i]);
      if found.None? {
        FetchFailsEarly(eligible, hashOf, specified, i + 1);
        return None;
      }
      selected := selected + [found.value];
      i := i + 1;
    }
    assert specified[..i] == specified;
    r := Some(selected);
  }

  lemma FetchFailsEarly(coins: seq<Coin>, hashOf: Coin -> string, specified: seq<string>, n: nat)
    requires n <= |specified| && FetchSpecified(coins, hashOf, specified[..n]).None?
    ensures FetchSpecified(coins, hashOf, specified).None?
    decreases |specified|
  {
    if n < |specified| {
      var init := specified[..|specified| - 1];
      assert init[..n] == specified[..n];
      FetchFailsEarly(coins, hashOf, init, n);
    } else {
      assert specified[..n] == specified;
    }
  }

  lemma PrefixStep(privacy: Option<bool>, coins: seq<Coin>, i: nat, goal: int)
    requires i < |coins|
    ensures Prefix(Matching(privacy, coins[i..]), goal)
         == if !Matches(privacy, coins[i]) then Prefix(Matching(privacy, coins[i + 1..]), goal)
            else if coins[i].amount >= goal then [coins[i]]
            else [coins[i]] + Prefix(Matching(privacy, coins[i + 1..]), goal - coins[i].amount)
  {
    MatchingStep(privacy, coins, i);
  }

  lemma EmptyPrefix(privacy: Option<bool>, goal: int)
    ensures Prefix(Matching(privacy, []), goal) == [] && Total([]) == 0
  {
  }

  lemma Regroup(selected: seq<Coin>, c: Coin, rest: seq<Coin>)
    ensures selected + ([c] + rest) == (selected + [c]) + rest
  {
  }

  /** The loop for a fixed fee. */
  method SelectFixedFee(eligible: seq<Coin>, privacy: Option<bool>, goal: int)
      returns (selected: seq<Coin>, currentTotal: int)
    ensures selected == Prefix(Matching(privacy, eligible), goal)
    ensures currentTotal == Total(selected)
  {
    hide Prefix, Matching, Total;
    EmptyPrefix(privacy, goal);
    selected, currentTotal := [], 0;
    assert eligible[0..] == eligible && selected + Prefix(Matching(privacy, eligible), goal) == Prefix(Matching(privacy, eligible), goal);
    var i := 0;
    while i < |eligible|
      invariant 0 <= i <= |eligible|
      invariant currentTotal == Total(selected)
      invariant Prefix(Matching(privacy, eligible), goal)
                == selected + Prefix(Matching(privacy, eligible[i..]), goal - currentTotal)
    {
      var current := eligible[i];
      PrefixStep(privacy, eligible, i, goal - currentTotal);
      i := i + 1;
      if !Matches(privacy, current) {
        continue;
      }
      TotalSnoc(selected, current);
      Regroup(selected, current, Prefix(Matching(privacy, eligible[i..]), goal - currentTotal - current.amount));
      selected := selected + [current];
      currentTotal := currentTotal + current.amount;
      if currentTotal >= goal {
        return;
      }
    }
    EmptyPrefix(privacy, goal - currentTotal);
    assert eligible[i..] == [] && selected + [] == selected;
  }

  /** The loop for a fee per kilobyte; `settled` is false when it ran out of coins. */
  method SelectPerKb(eligible: seq<Coin>, privacy: Option<bool>, target: nat, fee: seq<Coin> -> Option<nat>)
      returns (end: LoopEnd, currentTotal: int)
    ensures end == PerKb([], Matching(privacy, eligible), target, fee)
    ensures !end.Failed? ==> currentTotal == Total(end.coins)
  {
    var selected := [];
    currentTotal := 0;
    var next := 0;
    while next < |eligible|
      invariant 0 <= next <= |eligible|
      invariant currentTotal == Total(selected)
      invariant PerKb([], Matching(privacy, eligible), target, fee)
                == PerKb(selected, Matching(privacy, eligible[next..]), target, fee)
    {
      var current := eligible[next];
      MatchingStep(privacy, eligible, next);
      next := next + 1;
      if !Matches(privacy, current) {
        continue;
      }
      TotalSnoc(selected, current);
      selected := selected + [current];
      currentTotal := currentTotal + current.amount;
      if currentTotal < target {
        continue;
      }
      var f := fee(selected);
      if f.None? {
        return Failed, currentTotal;
      }
      if currentTotal < target + f.value {
        continue;
      }
      return Settled(selected, f.value), currentTotal;
    }
    end := Exhausted(selected);
  }

  method CountRing(coins: seq<Coin>) returns (n: nat)
    ensures n == RingInputs(coins)
  {
    n := 0;
    var i := |coins|;
    while i > 0
      invariant 0 <= i <= |coins|
      invariant n == RingInputs(coins[i..])
    {
      i := i - 1;
      n := n + (if coins[i].pseudonymous then 0 else 1);
    }
  }

  method SumAmounts(coins: seq<Coin>) returns (total: int)
    ensures total == Total(coins)
  {
    total := 0;
    var i := 0;
    while i < |coins|
      invariant 0 <= i <= |coins|
      invariant total == Total(coins[..i])
    {
      TotalSnoc(coins[..i], coins[i]);
      assert coins[..i + 1] == coins[..i] + [coins[i]];
      total := total + coins[i].amount;
      i := i + 1;
    }
    assert coins[..i] == coins;
  }

  method SelectCoins(r: Request, p: Params, eligible: seq<Coin>) returns (s: Option<Selection>)
    ensures s == Select(r, p, eligible)
  {
    var selected: seq<Coin> := [];
    var currentTotal := 0;
    var txFee := 0;
    var needChange := false;
    if r.feeSpecified > 0 && r.specified.None? {
      selected, currentTotal := SelectFixedFee(eligible, r.privacy, r.target + r.feeSpecified);
    }
    if r.feeSpecified > 0 && r.specified.Some? {
      var found := FetchSpecifiedUTXO(eligible, p.hashOf, r.specified.value);
      if found.None? {
        return None;
      }
      selected := found.value;
      if !AllMatch(r.privacy, selected) {
        return None;
      }
      currentTotal := SumAmounts(selected);
      if currentTotal < r.target + r.feeSpecified {
        return None;
      }
    }
    if r.feeSpecified > 0 {
      txFee := r.feeSpecified;
      if currentTotal > r.target + r.feeSpecified {
        if currentTotal - r.target - r.feeSpecified < CHANGE_THRESHOLD {
          txFee := currentTotal - r.target;
        } else {
          needChange := true;
        }
      }
    }
    if r.feeSpecified == 0 && r.feePerKb > 0 && r.specified.None? {
      var end;
      end, currentTotal := SelectPerKb(eligible, r.privacy, r.target, p.fee);
      match end {
        case Failed => return None;
        case Exhausted(coins) => selected := coins;
        case Settled(coins, fee) =>
          SettledCovers([], Matching(r.privacy, eligible), r.target, p.fee);
          selected := coins;
          if currentTotal >= r.target + fee + CHANGE_THRESHOLD {
            needChange, txFee := true, fee;
          } else {
            txFee := currentTotal - r.target;
          }
      }
    }
    if r.feeSpecified == 0 && r.feePerKb > 0 && r.specified.Some? {
      var found := FetchSpecifiedUTXO(eligible, p.hashOf, r.specified.value);
      if found.None? {
        return None;
      }
      selected := found.value;
      if !AllMatch(r.privacy, selected) {
        return None;
      }
      currentTotal := SumAmounts(selected);
      var ring := CountRing(selected);
      if currentTotal < r.target || |selected| >= p.maxInputs || ring > p.maxRingInputs
         || |selected| - ring > p.maxSingleInputs {
        return None;
      }
      var fee := p.fee(selected);
      if fee.None? || r.target + fee.value > currentTotal {
        return None;
      }
      if currentTotal >= r.target + fee.value + CHANGE_THRESHOLD {
        needChange, txFee := true, fee.value;
      } else {
        txFee := currentTotal - r.target;
      }
    }
    if r.target + txFee > currentTotal {
      return None;
    }
    s := Some(Selection(selected, txFee, needChange));
  }

  // ----- conservation -----

  /** The value of the change output the builder appends. */
  function ChangeValue(s: Selection, target: nat): int {
    if s.change then Total(s.coins) - s.fee - target else 0
  }

  /** Coins worth the target and the fee computed for them. */
  predicate Covers(coins: seq<Coin>, target: nat, fee: seq<Coin> -> Option<nat>) {
    Total(coins) >= target && fee(coins).Some? && Total(coins) >= target + fee(coins).value
  }

  /** Coins with which the loop goes on: worth less than the target, or than the target and
      the fee that could be computed for them. */
  predicate FallsShort(coins: seq<Coin>, target: nat, fee: seq<Coin> -> Option<nat>) {
    Total(coins) < target || (fee(coins).Some? && Total(coins) < target + fee(coins).value)
  }

  /** The request is served by the fee-per-kilobyte loop, and no first few of the matching
      coins are enough. */
  predicate RunsOut(r: Request, p: Params, eligible: seq<Coin>) {
    r.feeSpecified == 0 && r.feePerKb > 0 && r.specified.None?
    && var m := Matching(r.privacy, eligible);
       forall k :: 0 < k <= |m| ==> FallsShort(m[..k], r.target, p.fee)
  }

  lemma {:induction false} SettledCovers(picked: seq<Coin>, rest: seq<Coin>, target: nat, fee: seq<Coin> -> Option<nat>)
    ensures var end := PerKb(picked, rest, target, fee);
            end.Settled? ==> Total(end.coins) >= target + end.fee && fee(end.coins) == Some(end.fee)
    decreases |rest|
  {
    if rest != [] {
      SettledCovers(picked + [rest[0]], rest[1..], target, fee);
    }
  }

  /** The loop settles on the first extension of the coins picked that covers, fails at the
      first whose fee cannot be computed, and runs out only if all fall short. */
  lemma {:induction false} PerKbStopsFirst(picked: seq<Coin>, rest: seq<Coin>, target: nat, fee: seq<Coin> -> Option<nat>)
      returns (n: nat)
    ensures var end := PerKb(picked, rest, target, fee);
            && n <= |rest|
            && (forall k :: 0 < k < n ==> FallsShort(picked + rest[..k], target, fee))
            && (end.Settled? ==> n > 0 && end.coins == picked + rest[..n] && Covers(end.coins, target, fee))
            && (end.Exhausted? ==> n == |rest| && end.coins == picked + rest
                                   && (n > 0 ==> FallsShort(picked + rest, target, fee)))
            && (end.Failed? ==> n > 0 && fee(picked + rest[..n]).None? && Total(picked + rest[..n]) >= target)
    decreases |rest|
  {
    if rest == [] {
      n := 0;
      assert picked + rest == picked;
    } else {
      var p := picked + [rest[0]];
      assert p == picked + rest[..1];
      if !FallsShort(p, target, fee) {
        n := 1;
      } else {
        var m := PerKbStopsFirst(p, rest[1..], target, fee);
        n := m + 1;
        forall k | 0 < k < n
          ensures FallsShort(picked + rest[..k], target, fee)
        {
          ExtendByOne(picked, rest, k);
        }
        ExtendByOne(picked, rest, n);
        ExtendByOne(picked, rest, |rest|);
        assert rest[..|rest|] == rest && rest[1..][..|rest| - 1] == rest[1..];
      }
    }
  }

  lemma ExtendByOne(picked: seq<Coin>, rest: seq<Coin>, k: nat)
    requires 0 < k <= |rest|
    ensures picked + rest[..k] == (picked + [rest[0]]) + rest[1..][..k - 1]
  {
  }

  /** The loop runs out exactly when every first few coins fall short, and then with all of
      them. */
  lemma ExhaustedIff(coins: seq<Coin>, target: nat, fee: seq<Coin> -> Option<nat>)
    ensures PerKb([], coins, target, fee).Exhausted?
            <==> forall k :: 0 < k <= |coins| ==> FallsShort(coins[..k], target, fee)
    ensures PerKb([], coins, target, fee).Exhausted? ==> PerKb([], coins, target, fee).coins == coins
  {
    var n := PerKbStopsFirst([], coins, target, fee);
    assert forall k :: 0 <= k <= |coins| ==> [] + coins[..k] == coins[..k];
    assert [] + coins == coins && coins[..|coins|] == coins;
    if PerKb([], coins, target, fee).Exhausted? {
      forall k | 0 < k <= |coins|
        ensures FallsShort(coins[..k], target, fee)
      {
        assert k < n ==> FallsShort([] + coins[..k], target, fee);
      }
    }
  }

  /** MAIN RESULT on value. What is selected is worth exactly target, change and fee together,
      except when the fee-per-kilobyte loop meets no first few matching coins that are enough:
      then the selection still succeeds, with all of them, fee 0 and no change, and balances
      only if they are worth exactly the target. Change is always at least the threshold. */
  lemma SelectionBalances(r: Request, p: Params, eligible: seq<Coin>)
    requires Select(r, p, eligible).Some?
    ensures var s := Select(r, p, eligible).value;
            var m := Matching(r.privacy, eligible);
            && (Total(s.coins) == r.target + ChangeValue(s, r.target) + s.fee
                <==> !RunsOut(r, p, eligible) || Total(m) == r.target)
            && (s.change ==> ChangeValue(s, r.target) >= 1000)
            && (RunsOut(r, p, eligible) ==> s.coins == m && s.fee == 0 && !s.change && Total(m) >= r.target)
  {
    SettledCovers([], Matching(r.privacy, eligible), r.target, p.fee);
    ExhaustedIff(Matching(r.privacy, eligible), r.target, p.fee);
  }

  /** The fee paid is at least the one asked for or computed, and exceeds it by less than the
      change threshold. */
  lemma FeeIsCovered(r: Request, p: Params, eligible: seq<Coin>)
    requires Select(r, p, eligible).Some? && !RunsOut(r, p, eligible)
    ensures var s := Select(r, p, eligible).value;
            && (r.feeSpecified > 0 ==> r.feeSpecified <= s.fee < r.feeSpecified + 1000)
            && (r.feeSpecified == 0 && r.feePerKb > 0 ==>
                  p.fee(s.coins).Some? && p.fee(s.coins).value <= s.fee < p.fee(s.coins).value + 1000)
  {
    SettledCovers([], Matching(r.privacy, eligible), r.target, p.fee);
    ExhaustedIff(Matching(r.privacy, eligible), r.target, p.fee);
  }

  function FlatFee(coins: seq<Coin>): Option<nat> { Some(5) }

  /** Running out of coins does happen: one coin of 10, target 9, fee 5. The transfer is built
      with 10 in, 9 out and a fee of 0. */
  lemma RanOutExample(c: Coin, hashOf: Coin -> string)
    requires c.amount == 10
    ensures Select(Request(9, 0, 1, None, None), Params(FlatFee, hashOf, 5, 5, 5, 5, 5, 5, 100), [c])
            == Some(Selection([c], 0, false))
    ensures Total([c]) != 9 + ChangeValue(Selection([c], 0, false), 9) + 0
  {
    assert Matching(None, [c]) == [c];
    assert [c][1..] == [] && [] + [c] == [c] && Total([c]) == 10;
    assert PerKb([c], [], 9, FlatFee) == Exhausted([c]);
  }

  // ----- the greedy choice uses the fewest coins -----

  ghost predicate Descending(coins: seq<Coin>) {
    forall i, j :: 0 <= i < j < |coins| ==> coins[i].amount >= coins[j].amount
  }

  predicate ByAmountLess(x: Coin, y: Coin) {
    if x.version < y.version then true
    else if x.version > y.version then false
    else x.amount < y.amount
  }

  /** sort.Sort(sort.Reverse(byAmount(..))): no coin is byAmount-less than a later one. */
  ghost predicate ReverseByAmount(coins: seq<Coin>) {
    forall i, j :: 0 <= i < j < |coins| ==> !ByAmountLess(coins[i], coins[j])
  }

  /** Some of the coins, each at most as often as it is there. */
  ghost predicate SomeOf(some: seq<Coin>, coins: seq<Coin>) { multiset(some) <= multiset(coins) }

  lemma {:induction false} ShiftedIsLess(coins: seq<Coin>, k: nat)
    requires Descending(coins) && k < |coins|
    ensures Total(coins[1..][..k]) <= Total(coins[..k])
  {
    if k > 0 {
      ShiftedIsLess(coins, k - 1);
      assert coins[1..][..k] == coins[1..][..k - 1] + [coins[k]];
      assert coins[..k] == coins[..k - 1] + [coins[k - 1]];
      TotalSnoc(coins[1..][..k - 1], coins[k]);
      TotalSnoc(coins[..k - 1], coins[k - 1]);
    }
  }

  /** No k coins are worth more than the first k of a descending list. */
  lemma {:induction false} FirstAreWorthMost(coins: seq<Coin>, some: seq<Coin>)
    requires Descending(coins) && SomeOf(some, coins)
    ensures |some| <= |coins|
    ensures Total(some) <= Total(coins[..|some|])
    decreases |coins|
  {
    if coins == [] {
      NoneOfNothing(some);
    } else {
      hide SomeOf, Total;
      var rest := coins[1..];
      if coins[0] in some {
        var i :| 0 <= i < |some| && some[i] == coins[0];
        var fewer := some[..i] + some[i + 1..];
        OneOfEach(coins, some, i);
        TotalWithout(some, i);
        FirstAreWorthMost(rest, fewer);
        TotalWithout(coins[..|some|], 0);
        assert coins[..|some|][..0] + coins[..|some|][1..] == rest[..|fewer|];
      } else {
        OthersAreInRest(coins, some);
        FirstAreWorthMost(rest, some);
        ShiftedIsLess(coins, |some|);
      }
    }
  }

  lemma NoneOfNothing(some: seq<Coin>)
    requires SomeOf(some, [])
    ensures some == []
  {
    assert |multiset(some)| == |some|;
    assert multiset(some) == multiset{};
  }

  lemma OneOfEach(coins: seq<Coin>, some: seq<Coin>, i: nat)
    requires coins != [] && SomeOf(some, coins) && i < |some| && some[i] == coins[0]
    ensures SomeOf(some[..i] + some[i + 1..], coins[1..])
  {
    MultisetWithout(some, i);
    TailMultiset(coins);
    LessOneOfEach(multiset(some), multiset(coins), coins[0]);
  }

  lemma TailMultiset<T>(s: seq<T>)
    requires s != []
    ensures multiset(s[1..]) == multiset(s) - multiset{s[0]}
  {
    assert s == [s[0]] + s[1..];
  }

  lemma LessOneOfEach<T>(a: multiset<T>, b: multiset<T>, x: T)
    requires a <= b
    ensures a - multiset{x} <= b - multiset{x}
  {
  }

  lemma OthersAreInRest(coins: seq<Coin>, some: seq<Coin>)
    requires coins != [] && SomeOf(some, coins) && coins[0] !in some
    ensures SomeOf(some, coins[1..])
  {
    assert coins == [coins[0]] + coins[1..];
    forall c
      ensures multiset(some)[c] <= multiset(coins[1..])[c]
    {
      assert multiset(coins)[c] == multiset{coins[0]}[c] + multiset(coins[1..])[c];
    }
  }

  lemma {:induction false} PrefixIsPrefix(coins: seq<Coin>, goal: int)
    ensures var n := |Prefix(coins, goal)|;
            n <= |coins| && Prefix(coins, goal) == coins[..n]
    ensures forall k :: 0 < k < |Prefix(coins, goal)| ==> Total(coins[..k]) < goal
    ensures Total(Prefix(coins, goal)) < goal ==> Prefix(coins, goal) == coins
  {
    if coins != [] && coins[0].amount < goal {
      var rest, subgoal := coins[1..], goal - coins[0].amount;
      PrefixIsPrefix(rest, subgoal);
      var n := |Prefix(rest, subgoal)|;
      assert [coins[0]] + rest[..n] == coins[..n + 1];
      forall k | 0 < k < n + 1
        ensures Total(coins[..k]) < goal
      {
        assert coins[..k][1..] == rest[..k - 1];
        if k == 1 {
          assert rest[..0] == [];
        }
      }
      assert ([coins[0]] + Prefix(rest, subgoal))[1..] == Prefix(rest, subgoal);
    }
  }

  lemma MoreAreWorthMore(coins: seq<Coin>, k: nat, n: nat)
    requires k <= n <= |coins|
    ensures Total(coins[..k]) <= Total(coins[..n])
  {
    assert coins[..n] == coins[..k] + coins[k..n];
    TotalConcat(coins[..k], coins[k..n]);
  }

  /** MAIN RESULT on the number of coins. If some of the coins are worth the goal, the greedy
      prefix is too, and there are no fewer that are. */
  lemma GreedyTakesFewest(coins: seq<Coin>, goal: int, some: seq<Coin>)
    requires goal > 0 && Descending(coins) && SomeOf(some, coins)
    requires Total(some) >= goal
    ensures Total(Prefix(coins, goal)) >= goal
    ensures |Prefix(coins, goal)| <= |some|
  {
    hide Prefix, Descending, SomeOf;
    FirstAreWorthMost(coins, some);
    PrefixIsPrefix(coins, goal);
    MoreAreWorthMore(coins, |some|, |coins|);
    assert coins[..|coins|] == coins && coins[..0] == [] && Total([]) == 0;
    hide Total;
  }

  lemma FirstAreSome(coins: seq<Coin>, byValue: seq<Coin>, k: nat)
    requires multiset(byValue) == multiset(coins) && k <= |byValue|
    ensures SomeOf(byValue[..k], coins) && |byValue[..k]| == k
  {
    assert byValue == byValue[..k] + byValue[k..];
  }

  /** Whatever the order of the coins, n of them can be replaced by fewer exactly when the
      n - 1 most valuable ones are worth the goal. */
  lemma FewestIff(coins: seq<Coin>, byValue: seq<Coin>, goal: int, n: nat)
    requires multiset(byValue) == multiset(coins) && Descending(byValue)
    requires 0 < n <= |coins|
    ensures (forall some :: SomeOf(some, coins) && Total(some) >= goal ==> n <= |some|)
            <==> |byValue| == |coins| && Total(byValue[..n - 1]) < goal
  {
    SameLength(byValue, coins);
    FirstAreSome(coins, byValue, n - 1);
    hide Total, Descending;
    forall some | SomeOf(some, coins) && Total(some) >= goal
      ensures Total(byValue[..n - 1]) < goal ==> n <= |some|
    {
      FirstAreWorthMost(byValue, some);
      if |some| < n {
        MoreAreWorthMore(byValue, |some|, n - 1);
      }
    }
  }

  lemma HeadIsLargest(coins: seq<Coin>)
    requires coins != [] && Descending(coins)
    ensures Descending(coins[1..]) && forall c <- coins[1..] :: c.amount <= coins[0].amount
  {
    forall i | 0 <= i < |coins| - 1
      ensures coins[1..][i].amount <= coins[0].amount
    {
      assert coins[1..][i] == coins[i + 1];
    }
  }

  lemma DescendingWith(head: Coin, coins: seq<Coin>)
    requires Descending(coins) && forall c <- coins :: c.amount <= head.amount
    ensures Descending([head] + coins)
  {
  }

  lemma {:induction false} MatchingKeepsDescending(privacy: Option<bool>, coins: seq<Coin>)
    requires Descending(coins)
    ensures Descending(Matching(privacy, coins))
    ensures forall c <- Matching(privacy, coins) :: c in coins
  {
    if coins != [] {
      MatchingKeepsDescending(privacy, coins[1..]);
      HeadIsLargest(coins);
      if Matches(privacy, coins[0]) {
        DescendingWith(coins[0], Matching(privacy, coins[1..]));
      }
    }
  }

  lemma OneVersionDescends(eligible: seq<Coin>)
    requires ReverseByAmount(eligible) && forall x <- eligible, y <- eligible :: x.version == y.version
    ensures Descending(eligible)
  {
    forall i, j | 0 <= i < j < |eligible|
      ensures eligible[i].amount >= eligible[j].amount
    {
      assert eligible[i].version == eligible[j].version;
      assert !ByAmountLess(eligible[i], eligible[j]);
    }
  }

  /** For eligible coins of one version, a fixed fee is paid with the fewest coins that allow
      it, and the selection fails only if no coins allow it. */
  lemma FixedFeeTakesFewest(r: Request, p: Params, eligible: seq<Coin>, some: seq<Coin>)
    requires r.feeSpecified > 0 && r.specified.None?
    requires ReverseByAmount(eligible) && forall x <- eligible, y <- eligible :: x.version == y.version
    requires SomeOf(some, Matching(r.privacy, eligible)) && Total(some) >= r.target + r.feeSpecified
    ensures Select(r, p, eligible).Some? && |Select(r, p, eligible).value.coins| <= |some|
  {
    hide Matching, Prefix;
    OneVersionDescends(eligible);
    MatchingKeepsDescending(r.privacy, eligible);
    GreedyTakesFewest(Matching(r.privacy, eligible), r.target + r.feeSpecified, some);
  }

  /** MAIN RESULT for any mix of versions. The fixed-fee selection fails exactly when all the
      matching coins together do not reach target and fee. When it succeeds with n coins, n is
      the least number of first coins that reach it; and no fewer coins do, exactly when the
      n - 1 most valuable matching ones do not. */
  lemma FixedFeeFewestIff(r: Request, p: Params, eligible: seq<Coin>, byValue: seq<Coin>)
    requires r.feeSpecified > 0 && r.specified.None?
    requires multiset(byValue) == multiset(Matching(r.privacy, eligible)) && Descending(byValue)
    ensures var m := Matching(r.privacy, eligible);
            var goal := r.target + r.feeSpecified;
            && (Select(r, p, eligible).Some? <==> Total(m) >= goal)
            && (Select(r, p, eligible).Some? ==>
                  var n := |Select(r, p, eligible).value.coins|;
                  && 0 < n <= |m| == |byValue| && Total(m[..n]) >= goal
                  && (forall k :: 0 <= k < n ==> Total(m[..k]) < goal)
                  && ((forall some :: SomeOf(some, m) && Total(some) >= goal ==> n <= |some|)
                      <==> Total(byValue[..n - 1]) < goal))
  {
    hide Matching, Prefix, Descending, SomeOf;
    var m, goal := Matching(r.privacy, eligible), r.target + r.feeSpecified;
    PrefixIsPrefix(m, goal);
    var n := |Prefix(m, goal)|;
    SameLength(byValue, m);
    assert m[..0] == [] && Total([]) == 0;
    TotalConcat(m[..n], m[n..]);
    assert m == m[..n] + m[n..];
    if Total(Prefix(m, goal)) >= goal {
      FewestIff(m, byValue, goal, n);
    }
  }

  /** With mixed versions it is false: coins of a newer version are taken first however small. */
  lemma MixedVersionsTakeMore(small: Coin, large: Coin)
    requires small.version == 2 && small.amount == 1
    requires large.version == 1 && large.amount == 100
    ensures ReverseByAmount([small, large])
    ensures Prefix([small, large], 100) == [small, large]
    ensures SomeOf([large], [small, large]) && Total([large]) >= 100
  {
    assert [small, large][1..] == [large];
    assert Prefix([large], 99) == [large];
  }

  // ----- building the transfer -----

  datatype Transfer = Transfer(inputs: seq<Coin>, outputs: seq<OutDesc>, fee: int)

  function TotalOut(outs: seq<OutDesc>): nat {
    if outs == [] then 0 else outs[0].value + TotalOut(outs[1..])
  }

  lemma {:induction false} TotalOutConcat(a: seq<OutDesc>, b: seq<OutDesc>)
    ensures TotalOut(a + b) == TotalOut(a) + TotalOut(b)
  {
    if a == [] {
      assert a + b == b;
    } else {
      assert (a + b)[1..] == a[1..] + b;
      TotalOutConcat(a[1..], b);
    }
  }

  lemma TotalOutWith(out: OutDesc, outs: seq<OutDesc>)
    ensures TotalOut([out] + outs) == out.value + TotalOut(outs)
  {
    assert ([out] + outs)[1..] == outs;
  }

  lemma TotalOutWithout(outs: seq<OutDesc>, i: nat)
    requires i < |outs|
    ensures TotalOut(outs) == outs[i].value + TotalOut(outs[..i] + outs[i + 1..])
  {
    hide TotalOut;
    var front, back := outs[..i], outs[i + 1..];
    var tail := [outs[i]] + back;
    assert outs == front + tail;
    TotalOutWith(outs[i], back);
    TotalOutConcat(front, tail);
    TotalOutConcat(front, back);
  }

  lemma {:induction false} TotalOutOfMultiset(a: seq<OutDesc>, b: seq<OutDesc>)
    requires multiset(a) == multiset(b)
    ensures TotalOut(a) == TotalOut(b)
    decreases |a|
  {
    if a == [] {
      assert |b| == |multiset(b)| == 0;
    } else {
      assert a[0] in multiset(b);
      var i :| 0 <= i < |b| && b[i] == a[0];
      assert a[..0] + a[1..] == a[1..];
      MultisetWithout(a, 0);
      MultisetWithout(b, i);
      TotalOutOfMultiset(a[1..], b[..i] + b[i + 1..]);
      TotalOutWithout(b, i);
    }
  }

  method SumOutputs(outs: seq<OutDesc>) returns (total: nat)
    ensures total == TotalOut(outs)
  {
    total := 0;
    var i := 0;
    while i < |outs|
      invariant 0 <= i <= |outs|
      invariant total == TotalOut(outs[..i])
    {
      TotalOutConcat(outs[..i], [outs[i]]);
      assert outs[..i + 1] == outs[..i] + [outs[i]];
      total := total + outs[i].value;
      i := i + 1;
    }
    assert outs[..i] == outs;
  }

  /** Swaps the last output to the place `at`. */
  method SwapLast(a: array<OutDesc>, at: nat)
    requires at < a.Length
    modifies a
    ensures multiset(a[..]) == multiset(old(a[..]))
  {
    a[a.Length - 1], a[at] := a[at], a[a.Length - 1];
  }

  /** The output list: the change, if any, swapped to the place `index`, then sorted. */
  method ArrangeOutputs(outs: seq<OutDesc>, change: seq<OutDesc>, index: nat) returns (laid: array<OutDesc>)
    requires |change| <= 1
    ensures fresh(laid) && multiset(laid[..]) == multiset(outs + change)
    ensures TotalOut(laid[..]) == TotalOut(outs + change)
    ensures Ordered(OutLessFinal, laid[..])
    ensures change == [] ==> laid[..] == Sorted(OutLessFinal, outs)
  {
    hide OutLessFinal, Sorted, TotalOut;
    var all := outs + change;
    laid := new OutDesc[|all|](i requires 0 <= i < |all| => all[i]);
    assert laid[..] == all;
    if change != [] {
      SwapLast(laid, index % |all|);
    }
    ghost var shuffled := laid[..];
    assert change == [] ==> shuffled == outs;
    assert multiset(shuffled) == multiset(all);
    ComparisonsAgree();
    SortedIsStable(OutLessFinal, shuffled);
    SliceStable(laid, OutLessFinal);
    TotalOutOfMultiset(all, laid[..]);
  }

  function ChangeOutputs(needChange: bool, level: PrivacyLevel, address: nat, value: nat): seq<OutDesc> {
    if needChange then [OutDesc(level, value, address)] else []
  }

  lemma ChangeTotal(needChange: bool, level: PrivacyLevel, address: nat, value: nat)
    ensures TotalOut(ChangeOutputs(needChange, level, address, value)) == if needChange then value else 0
  {
  }

  lemma ChangeIsOne(outs: seq<OutDesc>, needChange: bool, level: PrivacyLevel, address: nat, value: nat)
    ensures multiset(outs + ChangeOutputs(needChange, level, address, value))
         == multiset(outs) + (if needChange then multiset{OutDesc(level, value, address)} else multiset{})
  {
  }

  /** The outputs with the change, arranged. */
  method AddChange(outs: seq<OutDesc>, needChange: bool, level: PrivacyLevel, address: nat, value: nat, index: nat)
      returns (laid: seq<OutDesc>)
    ensures multiset(laid) == multiset(outs) + (if needChange then multiset{OutDesc(level, value, address)} else multiset{})
    ensures TotalOut(laid) == TotalOut(outs) + if needChange then value else 0
    ensures Ordered(OutLessFinal, laid)
    ensures !needChange ==> laid == Sorted(OutLessFinal, outs)
  {
    hide Sorted, OutLessFinal, TotalOut, Ordered;
    var change := ChangeOutputs(needChange, level, address, value);
    TotalOutConcat(outs, change);
    ChangeTotal(needChange, level, address, value);
    ChangeIsOne(outs, needChange, level, address, value);
    var a := ArrangeOutputs(outs, change, index);
    laid := a[..];
  }

  /** What building a transaction depends on besides its arguments: whether a coin's ring is
      found, whether the wallet is unlocked, whether an address for the change can be had, and
      whether random numbers and the cryptographic library do their part. */
  datatype Surroundings = Surroundings(ringKnown: Coin -> bool, unlocked: bool, addressOk: bool, signs: bool)

  predicate CanBuild(w: Surroundings, coins: seq<Coin>, needChange: bool) {
    (forall c <- coins :: w.ringKnown(c)) && w.unlocked && (needChange ==> w.addressOk) && w.signs
  }

  method SortInputs(coins: array<Coin>)
    modifies coins
    ensures coins[..] == Sorted(InLessFinal, old(coins[..]))
    ensures multiset(coins[..]) == multiset(old(coins[..])) && Total(coins[..]) == Total(old(coins[..]))
  {
    hide Sorted, InLessFinal, Total;
    ghost var given := coins[..];
    ComparisonsAgree();
    SortedIsStable(InLessFinal, given);
    SliceStable(coins, InLessFinal);
    TotalOfMultiset(given, coins[..]);
  }

  /** The builder: sorts the coins, appends the change and moves it to the place `index`,
      sorts the outputs. */
  method CreateTransaction(w: Surroundings, selected: array<Coin>, outs: seq<OutDesc>, txFee: int, needChange: bool,
                           changeLevel: PrivacyLevel, changeAddress: nat, index: nat)
      returns (t: Option<Transfer>)
    modifies selected
    ensures t.Some? <==> (forall c <- old(selected[..]) :: w.ringKnown(c)) && w.unlocked && (needChange ==> w.addressOk)
                         && w.signs && TotalOut(outs) + txFee <= old(Total(selected[..]))
    ensures t.Some? ==>
              var left := old(Total(selected[..])) - txFee - TotalOut(outs);
              && t.value.inputs == Sorted(InLessFinal, old(selected[..]))
              && multiset(t.value.inputs) == multiset(old(selected[..]))
              && multiset(t.value.outputs)
                 == multiset(outs) + (if needChange then multiset{OutDesc(changeLevel, left, changeAddress)} else multiset{})
              && t.value.fee == txFee
              && Ordered(OutLessFinal, t.value.outputs)
              && (!needChange ==> t.value.outputs == Sorted(OutLessFinal, outs))
    ensures t.Some? ==>
              (Total(t.value.inputs) == TotalOut(t.value.outputs) + t.value.fee
               <==> needChange || Total(t.value.inputs) == TotalOut(outs) + txFee)
  {
    hide Sorted, OutLessFinal, InLessFinal, Total, TotalOut, Ordered, ChangeOutputs;
    if exists c <- selected[..] :: !w.ringKnown(c) {
      return None;
    }
    SortInputs(selected);
    if !w.unlocked {
      return None;
    }
    var currentTotal := SumAmounts(selected[..]);
    var target := SumOutputs(outs);
    if target + txFee > currentTotal {
      return None;
    }
    if (needChange && !w.addressOk) || !w.signs {
      return None;
    }
    var laid := AddChange(outs, needChange, changeLevel, changeAddress, currentTotal - txFee - target, index);
    t := Some(Transfer(selected[..], laid, txFee));
  }

  predicate ReverseLess(x: Coin, y: Coin) { ByAmountLess(y, x) }

  /** The coins that are not token coins: those would be burnt by a plain transfer. */
  function NotTokens(coins: seq<Coin>): seq<Coin> {
    if coins == [] then []
    else NotTokens(coins[..|coins| - 1]) + (if coins[|coins| - 1].ctaut then [] else [coins[|coins| - 1]])
  }

  method FilterAndSort(eligible: seq<Coin>) returns (sorted: seq<Coin>)
    ensures ReverseByAmount(sorted) && multiset(sorted) == multiset(NotTokens(eligible))
  {
    var filtered := [];
    var i := 0;
    while i < |eligible|
      invariant 0 <= i <= |eligible|
      invariant filtered == NotTokens(eligible[..i])
    {
      assert eligible[..i + 1][..i] == eligible[..i];
      if !eligible[i].ctaut {
        filtered := filtered + [eligible[i]];
      }
      i := i + 1;
    }
    assert eligible[..i] == eligible;
    var a := new Coin[|filtered|](k requires 0 <= k < |filtered| => filtered[k]);
    assert a[..] == filtered;
    SortedIsStable(ReverseLess, filtered);
    SliceStable(a, ReverseLess);
    sorted := a[..];
  }

  function RingOutputs(outs: seq<OutDesc>): nat {
    if outs == [] then 0 else (if IsPseudonym(outs[0].level) then 0 else 1) + RingOutputs(outs[1..])
  }

  method CountRingOutputs(outs: seq<OutDesc>) returns (n: nat)
    ensures n == RingOutputs(outs)
  {
    n := 0;
    var i := |outs|;
    while i > 0
      invariant 0 <= i <= |outs|
      invariant n == RingOutputs(outs[i..])
    {
      i := i - 1;
      n := n + (if IsPseudonym(outs[i].level) then 0 else 1);
    }
  }

  /** The limits on what is asked for. */
  predicate Acceptable(p: Params, outs: seq<OutDesc>) {
    TotalOut(outs) <= p.maxAmount && |outs| < p.maxOutputs && RingOutputs(outs) <= p.maxRingOutputs
    && |outs| - RingOutputs(outs) <= p.maxSingleOutputs
  }

  /** How the transfer comes out for one order of the coins. */
  ghost predicate TransferOf(r: Request, p: Params, sorted: seq<Coin>, outs: seq<OutDesc>, t: Transfer,
                             changeLevel: PrivacyLevel, changeAddress: nat)
  {
    Select(r, p, sorted).Some?
    && var s := Select(r, p, sorted).value;
    && multiset(t.inputs) == multiset(s.coins)
    && t.fee == s.fee && ChangeValue(s, TotalOut(outs)) >= 0
    && multiset(t.outputs)
       == multiset(outs) + (if s.change then multiset{OutDesc(changeLevel, ChangeValue(s, TotalOut(outs)), changeAddress)} else multiset{})
    && (Total(t.inputs) == TotalOut(t.outputs) + t.fee
        <==> !RunsOut(r, p, sorted) || Total(Matching(r.privacy, sorted)) == TotalOut(outs))
  }

  /** MAIN RESULT on whole transfers. From the eligible coins to the built transaction: exactly
      when it is built, that no token coin is spent, that the outputs asked for are all there,
      and that inputs equal outputs plus fee exactly, unless the fee-per-kilobyte loop runs out
      of coins worth more than the target. */
  method PlainTransfer(r: Request, p: Params, w: Surroundings, eligible: seq<Coin>, outs: seq<OutDesc>,
                       changeLevel: PrivacyLevel, changeAddress: nat, index: nat)
      returns (t: Option<Transfer>, ghost sorted: seq<Coin>)
    requires r.target == TotalOut(outs)
    ensures ReverseByAmount(sorted) && multiset(sorted) == multiset(NotTokens(eligible))
    ensures t.Some? <==> Acceptable(p, outs) && eligible != [] && Select(r, p, sorted).Some?
                         && CanBuild(w, Select(r, p, sorted).value.coins, Select(r, p, sorted).value.change)
    ensures t.Some? ==> TransferOf(r, p, sorted, outs, t.value, changeLevel, changeAddress)
    ensures t.Some? ==> multiset(outs) <= multiset(t.value.outputs)
                        && (forall c <- t.value.inputs :: c in eligible && !c.ctaut)
                        && (r.privacy.Some? ==> forall c <- t.value.inputs :: c.pseudonymous == r.privacy.value)
  {
    sorted := [];
    var target := SumOutputs(outs);
    var ring := CountRingOutputs(outs);
    var list := FilterAndSort(eligible);
    sorted := list;
    if target > p.maxAmount || |outs| >= p.maxOutputs || ring > p.maxRingOutputs || |outs| - ring > p.maxSingleOutputs
       || eligible == [] {
      return None, sorted;
    }
    var s := SelectCoins(r, p, list);
    if s.None? {
      return None, sorted;
    }
    SelectionCovers(r, p, list);
    hide Select, RunsOut, Matching, Total, TotalOut, Acceptable, CanBuild, NotTokens, ReverseByAmount, TransferOf;
    t := BuildSelected(w, s.value, outs, changeLevel, changeAddress, index);
    if t.Some? {
      InputsAreEligible(r, p, eligible, sorted, t.value.inputs);
      TransferComesOut(r, p, sorted, outs, t.value, changeLevel, changeAddress);
    }
  }

  /** The transfer of what was selected. */
  method BuildSelected(w: Surroundings, s: Selection, outs: seq<OutDesc>, changeLevel: PrivacyLevel, changeAddress: nat, index: nat)
      returns (t: Option<Transfer>)
    requires TotalOut(outs) + s.fee <= Total(s.coins)
    ensures t.Some? <==> CanBuild(w, s.coins, s.change)
    ensures t.Some? ==> ComesFrom(t.value, s, outs, changeLevel, changeAddress)
  {
    hide Total, TotalOut, Sorted, Ordered;
    var selected := new Coin[|s.coins|](k requires 0 <= k < |s.coins| => s.coins[k]);
    assert selected[..] == s.coins;
    t := CreateTransaction(w, selected, outs, s.fee, s.change, changeLevel, changeAddress, index);
  }

  ghost predicate ComesFrom(t: Transfer, s: Selection, outs: seq<OutDesc>, changeLevel: PrivacyLevel, changeAddress: nat) {
    multiset(t.inputs) == multiset(s.coins) && t.fee == s.fee && TotalOut(outs) + s.fee <= Total(s.coins)
    && multiset(t.outputs)
       == multiset(outs) + (if s.change then multiset{OutDesc(changeLevel, Total(s.coins) - s.fee - TotalOut(outs), changeAddress)} else multiset{})
    && (Total(t.inputs) == TotalOut(t.outputs) + t.fee <==> s.change || Total(t.inputs) == TotalOut(outs) + t.fee)
  }

  lemma {:induction false} NotTokensCarryNone(coins: seq<Coin>)
    ensures forall c <- NotTokens(coins) :: !c.ctaut && c in coins
  {
    if coins != [] {
      NotTokensCarryNone(coins[..|coins| - 1]);
    }
  }

  lemma {:induction false} MatchingIn(privacy: Option<bool>, coins: seq<Coin>)
    ensures forall c <- Matching(privacy, coins) :: c in coins
  {
    if coins != [] {
      MatchingIn(privacy, coins[1..]);
    }
  }

  function HasPrivacy(pseudonymous: bool): Coin -> bool { (c: Coin) => c.pseudonymous == pseudonymous }

  function NoToken(): Coin -> bool { (c: Coin) => !c.ctaut }

  /** The coins a request admits: all, or those with the pseudonym bit as asked for. */
  function Admitted(privacy: Option<bool>, coins: seq<Coin>): seq<Coin> {
    match privacy
    case None => coins
    case Some(b) => Filter(coins, HasPrivacy(b))
  }

  lemma {:induction false} MatchingIsAdmitted(privacy: Option<bool>, coins: seq<Coin>)
    ensures Matching(privacy, coins) == Admitted(privacy, coins)
  {
    if coins != [] {
      MatchingIsAdmitted(privacy, coins[1..]);
      assert coins == [coins[0]] + coins[1..];
      if privacy.Some? {
        FilterCons(coins[0], coins[1..], HasPrivacy(privacy.value));
      }
    }
  }

  lemma {:induction false} NotTokensIsFilter(coins: seq<Coin>)
    ensures NotTokens(coins) == Filter(coins, NoToken())
  {
    if coins != [] {
      NotTokensIsFilter(coins[..|coins| - 1]);
    }
  }

  /** A selection for one kind of coins holds only such coins, named ones too. */
  lemma PrivacyKept(r: Request, p: Params, eligible: seq<Coin>)
    requires Select(r, p, eligible).Some? && r.privacy.Some?
    ensures forall c <- Select(r, p, eligible).value.coins :: c.pseudonymous == r.privacy.value
  {
    if !ByName(r) {
      var m := Matching(r.privacy, eligible);
      MatchingIsAdmitted(r.privacy, eligible);
      FilterIn(eligible, HasPrivacy(r.privacy.value));
      assert forall c <- m :: c.pseudonymous == r.privacy.value;
      TakenFromMatching(r, p, eligible);
    }
  }

  /** Without names, only matching coins are taken. */
  lemma TakenFromMatching(r: Request, p: Params, eligible: seq<Coin>)
    requires Select(r, p, eligible).Some? && !ByName(r)
    ensures forall c <- Select(r, p, eligible).value.coins :: c in Matching(r.privacy, eligible)
  {
    hide Matching;
    var m := Matching(r.privacy, eligible);
    if r.feeSpecified > 0 {
      PrefixIsPrefix(m, r.target + r.feeSpecified);
    } else if r.feeSpecified == 0 && r.feePerKb > 0 {
      var n := PerKbStopsFirst([], m, r.target, p.fee);
      assert [] + m[..n] == m[..n] && [] + m == m;
    }
  }

  /** Only eligible coins are selected. */
  lemma SelectedIn(r: Request, p: Params, eligible: seq<Coin>)
    requires Select(r, p, eligible).Some?
    ensures forall c <- Select(r, p, eligible).value.coins :: c in eligible
  {
    if ByName(r) {
      FetchedAt(eligible, p.hashOf, r.specified.value);
    } else {
      MatchingIn(r.privacy, eligible);
      TakenFromMatching(r, p, eligible);
    }
  }

  lemma InputsAreEligible(r: Request, p: Params, eligible: seq<Coin>, sorted: seq<Coin>, inputs: seq<Coin>)
    requires Select(r, p, sorted).Some? && multiset(sorted) == multiset(NotTokens(eligible))
    requires multiset(inputs) == multiset(Select(r, p, sorted).value.coins)
    ensures forall c <- inputs :: c in eligible && !c.ctaut
    ensures r.privacy.Some? ==> forall c <- inputs :: c.pseudonymous == r.privacy.value
  {
    if r.privacy.Some? {
      PrivacyKept(r, p, sorted);
    }
    hide Select, NotTokens;
    SelectedIn(r, p, sorted);
    NotTokensCarryNone(eligible);
    forall c | c in inputs
      ensures c in eligible && !c.ctaut
      ensures r.privacy.Some? ==> c.pseudonymous == r.privacy.value
    {
      assert c in multiset(inputs);
      assert c in Select(r, p, sorted).value.coins;
      assert c in multiset(sorted);
      assert c in NotTokens(eligible);
    }
  }

  lemma TransferComesOut(r: Request, p: Params, sorted: seq<Coin>, outs: seq<OutDesc>, t: Transfer,
                         changeLevel: PrivacyLevel, changeAddress: nat)
    requires Select(r, p, sorted).Some? && r.target == TotalOut(outs)
    requires ComesFrom(t, Select(r, p, sorted).value, outs, changeLevel, changeAddress)
    ensures TransferOf(r, p, sorted, outs, t, changeLevel, changeAddress) && multiset(outs) <= multiset(t.outputs)
  {
    hide Select, RunsOut, Matching, Total, TotalOut;
    SelectionBalances(r, p, sorted);
    TotalOfMultiset(t.inputs, Select(r, p, sorted).value.coins);
  }

  lemma SelectionCovers(r: Request, p: Params, eligible: seq<Coin>)
    requires Select(r, p, eligible).Some?
    ensures var s := Select(r, p, eligible).value; Total(s.coins) >= r.target + s.fee
  {
    SettledCovers([], Matching(r.privacy, eligible), r.target, p.fee);
  }

  // ----- no coin is spent twice -----

  lemma {:induction false} MatchingDistinct(privacy: Option<bool>, coins: seq<Coin>)
    requires Distinct(coins)
    ensures Distinct(Matching(privacy, coins)) && forall c <- Matching(privacy, coins) :: c in coins
  {
    if coins != [] {
      var rest := coins[1..];
      assert coins == [coins[0]] + rest;
      DistinctCons(coins[0], rest);
      MatchingDistinct(privacy, rest);
      assert [] + Matching(privacy, rest) == Matching(privacy, rest);
      DistinctCons(coins[0], Matching(privacy, rest));
    }
  }

  lemma {:induction false} NotTokensDistinct(coins: seq<Coin>)
    requires Distinct(coins)
    ensures Distinct(NotTokens(coins)) && forall c <- NotTokens(coins) :: c in coins
  {
    if coins != [] {
      var init, last := coins[..|coins| - 1], coins[|coins| - 1];
      assert coins == init + [last];
      DistinctSnoc(init, last);
      NotTokensDistinct(init);
      assert NotTokens(init) + [] == NotTokens(init);
      DistinctSnoc(NotTokens(init), last);
    }
  }

  /** The request names its coins, and the names are looked at. */
  predicate ByName(r: Request) {
    r.specified.Some? && (r.feeSpecified > 0 || (r.feeSpecified == 0 && r.feePerKb > 0))
  }

  /** No two prefixes pick the same coin. */
  ghost predicate PickDifferent(coins: seq<Coin>, hashOf: Coin -> string, prefixes: seq<string>) {
    forall i, j :: 0 <= i < j < |prefixes| ==> FirstWith(coins, hashOf, prefixes[i]) != FirstWith(coins, hashOf, prefixes[j])
  }

  lemma {:induction false} FirstWithIn(coins: seq<Coin>, hashOf: Coin -> string, prefix: string)
    ensures FirstWith(coins, hashOf, prefix).Some? ==> FirstWith(coins, hashOf, prefix).value in coins
  {
    if coins != [] {
      FirstWithIn(coins[1..], hashOf, prefix);
    }
  }

  lemma {:induction false} FetchedAt(coins: seq<Coin>, hashOf: Coin -> string, prefixes: seq<string>)
    requires FetchSpecified(coins, hashOf, prefixes).Some?
    ensures var found := FetchSpecified(coins, hashOf, prefixes).value;
            |found| == |prefixes|
            && forall i :: 0 <= i < |found| ==> FirstWith(coins, hashOf, prefixes[i]) == Some(found[i]) && found[i] in coins
  {
    if prefixes != [] {
      FetchedAt(coins, hashOf, prefixes[..|prefixes| - 1]);
      FirstWithIn(coins, hashOf, prefixes[|prefixes| - 1]);
    }
  }

  lemma FetchedDistinct(coins: seq<Coin>, hashOf: Coin -> string, prefixes: seq<string>)
    requires Distinct(coins) && FetchSpecified(coins, hashOf, prefixes).Some?
    ensures Distinct(FetchSpecified(coins, hashOf, prefixes).value) <==> PickDifferent(coins, hashOf, prefixes)
  {
    var found := FetchSpecified(coins, hashOf, prefixes).value;
    FetchedAt(coins, hashOf, prefixes);
    if PickDifferent(coins, hashOf, prefixes) {
      forall i, j | 0 <= i < j < |found|
        ensures Points(found)[i] != Points(found)[j]
      {
        assert FirstWith(coins, hashOf, prefixes[i]) != FirstWith(coins, hashOf, prefixes[j]);
        if found[i].outPoint == found[j].outPoint {
          SamePointSameCoin(coins, found[i], found[j]);
        }
      }
    }
    if Distinct(found) {
      forall i, j | 0 <= i < j < |prefixes|
        ensures FirstWith(coins, hashOf, prefixes[i]) != FirstWith(coins, hashOf, prefixes[j])
      {
        assert Points(found)[i] != Points(found)[j];
      }
    }
  }

  /** MAIN RESULT on distinctness. From distinct coins, the selection takes no coin twice unless
      the request names coins; then exactly when no two of its prefixes pick the same coin. */
  lemma SelectedDistinct(r: Request, p: Params, eligible: seq<Coin>)
    requires Distinct(eligible) && Select(r, p, eligible).Some?
    ensures Distinct(Select(r, p, eligible).value.coins)
            <==> (ByName(r) ==> PickDifferent(eligible, p.hashOf, r.specified.value))
  {
    if ByName(r) {
      FetchedDistinct(eligible, p.hashOf, r.specified.value);
    } else {
      var m := Matching(r.privacy, eligible);
      MatchingDistinct(r.privacy, eligible);
      var coins := Select(r, p, eligible).value.coins;
      if r.feeSpecified > 0 {
        PrefixIsPrefix(m, r.target + r.feeSpecified);
        FrontDistinct(m, |coins|);
      } else if r.feeSpecified == 0 && r.feePerKb > 0 {
        var n := PerKbStopsFirst([], m, r.target, p.fee);
        assert [] + m[..n] == m[..n] && [] + m == m && m[..|m|] == m;
        FrontDistinct(m, |coins|);
      }
    }
  }

  /** The same of the whole transfer, whose coins are the eligible ones without tokens in some
      order. */
  lemma TransferDistinct(r: Request, p: Params, eligible: seq<Coin>, sorted: seq<Coin>, outs: seq<OutDesc>, t: Transfer,
                         changeLevel: PrivacyLevel, changeAddress: nat)
    requires Distinct(eligible) && multiset(sorted) == multiset(NotTokens(eligible))
    requires TransferOf(r, p, sorted, outs, t, changeLevel, changeAddress)
    ensures Distinct(t.inputs) <==> (ByName(r) ==> PickDifferent(sorted, p.hashOf, r.specified.value))
  {
    hide Distinct, PickDifferent, Select, RunsOut;
    var coins := Select(r, p, sorted).value.coins;
    NotTokensDistinct(eligible);
    DistinctPermuted(NotTokens(eligible), sorted);
    SelectedDistinct(r, p, sorted);
    if Distinct(coins) {
      DistinctPermuted(coins, t.inputs);
    }
    if Distinct(t.inputs) {
      DistinctPermuted(t.inputs, coins);
    }
  }
}
