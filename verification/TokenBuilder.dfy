/** Building token transactions (wallet/createauttx.go): the builders for re-register, mint,
    transfer and burn, which share their steps, and the one for registering a token. */
module TokenBuilder {
  import opened Wrappers
  import opened Coins
  import opened StableSort
  import opened TokenLayout
  import opened CoinSelection

  // ----- finding the hosted coins -----

  /** The pigeonhole behind the size check: a table filled only with requested outpoints that
      has as many entries as there are requests holds every one of them, and no outpoint was
      requested twice. */
  lemma SizeCheckFindsAll(hosted: seq<OutPoint>, found: map<OutPoint, Coin>)
    requires found.Keys <= Elements(hosted)
    requires |found| == |hosted|
    ensures forall i :: 0 <= i < |hosted| ==> hosted[i] in found
    ensures AllDifferent(hosted)
  {
    ElementsBound(hosted);
    assert |found.Keys| == |found|;
    SubsetSize(found.Keys, Elements(hosted));
    SubsetOfSameSize(found.Keys, Elements(hosted));
    assert forall i :: 0 <= i < |hosted| ==> hosted[i] in Elements(hosted);
  }

  /** The coins sit on the requested outpoints, in order. */
  ghost predicate HostedCoins(coins: seq<Coin>, hosted: seq<OutPoint>, eligible: seq<Coin>) {
    |coins| == |hosted|
    && (forall i :: 0 <= i < |hosted| ==>
          coins[i].outPoint == hosted[i] && coins[i].ctaut && coins[i] in eligible)
  }

  /** No outpoint twice, and a token coin on each. */
  ghost predicate Hostable(hosted: seq<OutPoint>, eligible: seq<Coin>) {
    AllDifferent(hosted)
    && (forall h <- hosted :: exists c <- eligible :: c.ctaut && c.outPoint == h)
  }

  /** The table after some of the eligible coins: it holds requested token coins only, and one
      for every requested outpoint met. */
  ghost predicate Table(found: map<OutPoint, Coin>, hosted: seq<OutPoint>, met: seq<Coin>) {
    found.Keys <= Elements(hosted)
    && (forall o <- found :: found[o].outPoint == o && found[o].ctaut && found[o] in met)
    && (forall c <- met :: c.ctaut && c.outPoint in hosted ==> c.outPoint in found)
  }

  lemma TableStep(found: map<OutPoint, Coin>, hosted: seq<OutPoint>, eligible: seq<Coin>, i: nat)
    requires i < |eligible| && Table(found, hosted, eligible[..i])
    ensures var c := eligible[i];
            Table(if c.ctaut && c.outPoint in hosted then found[c.outPoint := c] else found, hosted, eligible[..i + 1])
  {
    assert eligible[..i + 1] == eligible[..i] + [eligible[i]];
  }

  /** Splits the eligible coins: all coins that carry no token, and for the requested
      outpoints the token coin there. None if some outpoint is not hosted by such a coin. */
  method SplitEligible(eligible: seq<Coin>, hosted: seq<OutPoint>)
      returns (r: Option<seq<Coin>>, remain: seq<Coin>)
    ensures remain == NotTokens(eligible)
    ensures r.Some? ==> HostedCoins(r.value, hosted, eligible)
    ensures r.Some? <==> Hostable(hosted, eligible)
  {
    var found: map<OutPoint, Coin> := map[];
    remain := [];
    var i := 0;
    while i < |eligible|
      invariant 0 <= i <= |eligible|
      invariant remain == NotTokens(eligible[..i])
      invariant Table(found, hosted, eligible[..i])
    {
      hide Table;
      assert eligible[..i + 1][..i] == eligible[..i];
      TableStep(found, hosted, eligible, i);
      var c := eligible[i];
      if !c.ctaut {
        remain := remain + [c];
      } else if c.outPoint in hosted {
        found := found[c.outPoint := c];
      }
      i := i + 1;
    }
    assert eligible[..i] == eligible;
    FoundIff(hosted, eligible, found);
    if |found| != |hosted| {
      return None, remain;
    }
    var selected := [];
    var k := 0;
    while k < |hosted|
      invariant 0 <= k <= |hosted| && |selected| == k
      invariant forall i :: 0 <= i < k ==> selected[i] == found[hosted[i]]
    {
      selected := selected + [found[hosted[k]]];
      k := k + 1;
    }
    r := Some(selected);
  }

  /** The size check succeeds exactly for outpoints that can be hosted. */
  lemma FoundIff(hosted: seq<OutPoint>, eligible: seq<Coin>, found: map<OutPoint, Coin>)
    requires Table(found, hosted, eligible)
    ensures |found| == |hosted| <==> Hostable(hosted, eligible)
    ensures |found| == |hosted| ==> forall i :: 0 <= i < |hosted| ==> hosted[i] in found
  {
    if Hostable(hosted, eligible) {
      FoundAll(hosted, eligible, found);
    }
    if |found| == |hosted| {
      AllFound(hosted, eligible, found);
    }
  }

  lemma FoundAll(hosted: seq<OutPoint>, eligible: seq<Coin>, found: map<OutPoint, Coin>)
    requires Hostable(hosted, eligible) && found.Keys <= Elements(hosted)
    requires forall c <- eligible :: c.ctaut && c.outPoint in hosted ==> c.outPoint in found
    ensures |found| == |hosted|
  {
    ElementsBound(hosted);
    assert found.Keys == Elements(hosted);
    assert |found.Keys| == |found|;
  }

  lemma AllFound(hosted: seq<OutPoint>, eligible: seq<Coin>, found: map<OutPoint, Coin>)
    requires found.Keys <= Elements(hosted) && |found| == |hosted|
    requires forall o <- found :: found[o].outPoint == o && found[o].ctaut && found[o] in eligible
    ensures Hostable(hosted, eligible)
    ensures forall i :: 0 <= i < |hosted| ==> hosted[i] in found
  {
    SizeCheckFindsAll(hosted, found);
    forall h | h in hosted
      ensures exists c <- eligible :: c.ctaut && c.outPoint == h
    {
      assert found[h] in eligible;
    }
  }

  // ----- coins for the fee -----

  /** The loop that adds coins until they cover the target and the fee computed for them. */
  function Pick(picked: seq<Coin>, rest: seq<Coin>, target: nat, fee: seq<Coin> -> Option<nat>): Option<seq<Coin>>
    decreases |rest|
  {
    match PerKb(picked, rest, target, fee)
    case Settled(coins, _) => Some(coins)
    case Exhausted(_) => if rest == [] && Total(picked) >= target then Some(picked) else None
    case Failed => None
  }

  method PickForFee(start: seq<Coin>, remain: seq<Coin>, target: nat, fee: seq<Coin> -> Option<nat>)
      returns (r: Option<seq<Coin>>)
    ensures r == Pick(start, remain, target, fee)
  {
    var picked := start;
    var currentTotal := SumAmounts(start);
    var tmpFee := 0;
    var selected := start;
    var next := 0;
    while next < |remain|
      invariant 0 <= next <= |remain|
      invariant currentTotal == Total(picked)
      invariant selected == start
      invariant next == 0 ==> tmpFee == 0 && picked == start
      invariant next > 0 ==> currentTotal < target + tmpFee
      invariant PerKb(start, remain, target, fee) == PerKb(picked, remain[next..], target, fee)
    {
      assert remain[next..][1..] == remain[next + 1..];
      TotalSnoc(picked, remain[next]);
      picked := picked + [remain[next]];
      currentTotal := currentTotal + remain[next].amount;
      next := next + 1;
      if currentTotal < target {
        continue;
      }
      var f := fee(picked);
      if f.None? {
        return None;
      }
      tmpFee := f.value;
      if currentTotal >= target + tmpFee {
        selected := picked;
        break;
      }
    }
    if currentTotal < target + tmpFee {
      return None;
    }
    r := Some(selected);
  }

  /** The coins whose hash is among the specified ones, in the order of the list. */
  function WithHash(coins: seq<Coin>, hashOf: Coin -> string, specified: seq<string>): seq<Coin> {
    if coins == [] then []
    else WithHash(coins[..|coins| - 1], hashOf, specified)
         + if hashOf(coins[|coins| - 1]) in specified then [coins[|coins| - 1]] else []
  }

  method PickSpecified(remain: seq<Coin>, hashOf: Coin -> string, specified: seq<string>)
      returns (r: Option<seq<Coin>>)
    ensures r == if |WithHash(remain, hashOf, specified)| == |specified|
                 then Some(WithHash(remain, hashOf, specified)) else None
  {
    var coins := [];
    var i := 0;
    while i < |remain|
      invariant 0 <= i <= |remain|
      invariant coins == WithHash(remain[..i], hashOf, specified)
    {
      assert remain[..i + 1][..i] == remain[..i];
      if hashOf(remain[i]) in specified {
        coins := coins + [remain[i]];
      }
      i := i + 1;
    }
    assert remain[..i] == remain;
    r := if |coins| == |specified| then Some(coins) else None;
  }

  // ----- the whole builder -----

  /** Where a script's counts come from: counted by the builder into one byte, or given with
      the request, confidential and plain tokens apart. */
  datatype Counts = Counted | Given(ct: nat, plain: nat)

  function Recorded(c: Counts, n: nat): (nat, nat) {
    match c
    case Counted => (Byte(n), 0)
    case Given(ct, plain) => (ct, plain)
  }

  predicate CountsRight(c: Counts, n: nat) {
    match c
    case Counted => n < 256
    case Given(ct, plain) => ct + plain == n
  }

  /** What goes into the token script: where the token inputs and outputs start and how many
      there are. */
  datatype Script = Script(inStart: nat, inCounts: (nat, nat), outStart: nat, outCounts: (nat, nat))

  datatype TokenRequest = TokenRequest(
    hosted: seq<OutPoint>,
    tokens: seq<OutDesc>,
    inCounts: Counts,
    outCounts: Counts,
    specified: seq<string>,
    changeLevel: PrivacyLevel,
    changeAddress: nat)

  /** A recorded range is that of n elements from `start`. */
  predicate Delimits(start: nat, n: nat, recordedStart: nat, counts: (nat, nat)) {
    recordedStart == start && counts.0 + counts.1 == n
  }

  /** It is exactly when the start fits its byte and the count is right. */
  lemma DelimitsIff(start: nat, n: nat, c: Counts)
    ensures Delimits(start, n, Byte(start), Recorded(c, n)) <==> start < 256 && CountsRight(c, n)
  {
  }

  /** What a token request may ask for. */
  predicate TokensOk(p: Params, tokens: seq<OutDesc>) {
    (forall o <- tokens :: o.level.PseudonymCT?) && Acceptable(p, tokens)
  }

  /** The inputs added to the coins already chosen: the specified ones if all are there, or
      the shortest prefix that pays. */
  function Funding(start: seq<Coin>, r: TokenRequest, p: Params, remain: seq<Coin>): Option<seq<Coin>> {
    if r.specified == [] then Pick(start, remain, TotalOut(r.tokens), p.fee)
    else if |WithHash(remain, p.hashOf, r.specified)| != |r.specified| then None
    else Some(start + WithHash(remain, p.hashOf, r.specified))
  }

  /** What is left of the coins after the fee and the token outputs; it becomes change, however
      little it is. */
  function Left(r: TokenRequest, p: Params, coins: seq<Coin>): int
    requires p.fee(coins).Some?
  {
    Total(coins) - p.fee(coins).value - TotalOut(r.tokens)
  }

  /** The change outputs to a ring address: one or none. */
  function RingChange(r: TokenRequest, left: int): nat {
    if left > 0 && (r.changeLevel.RingCTPre? || r.changeLevel.RingCT?) then 1 else 0
  }

  /** The fee can be computed and paid, and with the change there are not too many outputs of
      any kind. */
  ghost predicate Affordable(r: TokenRequest, p: Params, coins: seq<Coin>) {
    p.fee(coins).Some? && Left(r, p, coins) >= 0
    && var left := Left(r, p, coins);
       |r.tokens| + (if left > 0 then 1 else 0) < p.maxOutputs
       && RingChange(r, left) <= p.maxRingOutputs
       && |r.tokens| - RingChange(r, left) <= p.maxSingleOutputs
  }

  /** Chooses the inputs: the hosted coins, and coins without tokens to fund the rest. */
  method Fund(r: TokenRequest, p: Params, eligible: seq<Coin>, target: nat)
      returns (funding: Option<seq<Coin>>, hostedCoins: seq<Coin>)
    requires target == TotalOut(r.tokens)
    ensures funding == if Hostable(r.hosted, eligible) then Funding([], r, p, NotTokens(eligible)) else None
    ensures funding.Some? ==> HostedCoins(hostedCoins, r.hosted, eligible)
    ensures funding.Some? ==> forall c <- funding.value :: !c.ctaut && c in eligible
  {
    var split, remain := SplitEligible(eligible, r.hosted);
    if split.None? {
      return None, [];
    }
    hostedCoins := split.value;
    NotTokensCarryNone(eligible);
    if r.specified != [] {
      funding := PickSpecified(remain, p.hashOf, r.specified);
      WithHashSubset(remain, p.hashOf, r.specified);
      assert [] + WithHash(remain, p.hashOf, r.specified) == WithHash(remain, p.hashOf, r.specified);
    } else {
      funding := PickForFee([], remain, target, p.fee);
      PickExtends([], remain, target, p.fee);
    }
  }

  lemma InputsTotal(inputs: seq<Coin>, funding: seq<Coin>, hostedCoins: seq<Coin>)
    requires multiset(inputs) == multiset(funding) + multiset(hostedCoins)
    ensures Total(inputs) == Total(funding + hostedCoins) && |inputs| == |funding| + |hostedCoins|
  {
    MultisetJoin(funding, hostedCoins);
    TotalOfMultiset(inputs, funding + hostedCoins);
    SameLength(inputs, funding + hostedCoins);
  }

  lemma OutputsTotal(outputs: seq<OutDesc>, change: seq<OutDesc>, tokens: seq<OutDesc>)
    requires multiset(outputs) == multiset(change) + multiset(tokens)
    ensures TotalOut(outputs) == TotalOut(change) + TotalOut(tokens)
    ensures |outputs| == |change| + |tokens|
  {
    MultisetJoin(change, tokens);
    SameLength(outputs, change + tokens);
    TotalOutOfMultiset(outputs, change + tokens);
    TotalOutConcat(change, tokens);
  }

  method ToArray<T>(s: seq<T>) returns (a: array<T>)
    ensures fresh(a) && a[..] == s
  {
    a := new T[|s|](k requires 0 <= k < |s| => s[k]);
  }

  /** Outputs and fee of a token transaction, and the recorded start of its outputs. */
  datatype Paid = Paid(outputs: seq<OutDesc>, fee: nat, outStart: nat)

  /** The change goes in front of the token outputs exactly when it is a ring output. */
  lemma ChangeInFront(r: TokenRequest, left: nat)
    ensures var change := ChangeOutputs(left > 0, r.changeLevel, r.changeAddress, left);
            && RingCount(change, OutRank) == RingOutputs(change) == RingChange(r, left)
            && multiset(change) == (if left > 0 then multiset{OutDesc(r.changeLevel, left, r.changeAddress)} else multiset{})
            && |change| == if left > 0 then 1 else 0
  {
    var change := ChangeOutputs(left > 0, r.changeLevel, r.changeAddress, left);
    if change != [] {
      assert change[..0] == [] && change[1..] == [];
    }
  }

  /** There is at most one change output, so the recorded start of the outputs is always right. */
  lemma OutStartFits(r: TokenRequest, left: int)
    ensures RingChange(r, left) <= 1 && Byte(RingChange(r, left)) == RingChange(r, left)
  {
  }

  /** The outputs as the builder leaves them: the tokens and the change, the tokens as one block
      behind the change if that is a ring output, and in front of it otherwise. */
  ghost predicate OutputsLaidOut(r: TokenRequest, left: int, outputs: seq<OutDesc>)
    requires left >= 0
  {
    multiset(outputs)
    == multiset(r.tokens) + (if left > 0 then multiset{OutDesc(r.changeLevel, left, r.changeAddress)} else multiset{})
    && SitsAt(outputs, r.tokens, RingChange(r, left))
  }

  /** Change and tokens, as laid out. */
  lemma ChangeAndTokens(r: TokenRequest, left: nat, change: seq<OutDesc>, outputs: seq<OutDesc>)
    requires change == ChangeOutputs(left > 0, r.changeLevel, r.changeAddress, left)
    requires multiset(outputs) == multiset(change) + multiset(r.tokens)
    requires SitsAt(outputs, r.tokens, RingCount(change, OutRank))
    ensures OutputsLaidOut(r, left, outputs)
    ensures |outputs| == |r.tokens| + (if left > 0 then 1 else 0) && TotalOut(outputs) == left + TotalOut(r.tokens)
    ensures RingOutputs(change) == RingChange(r, left) && Byte(RingCount(change, OutRank)) == RingChange(r, left)
  {
    ChangeInFront(r, left);
    OutStartFits(r, left);
    OutputsTotal(outputs, change, r.tokens);
    ChangeTotal(left > 0, r.changeLevel, r.changeAddress, left);
  }

  /** The steps all builders share once the inputs are chosen: fee, change, and the outputs
      with the token outputs inserted. */
  method PayAndLayOut(r: TokenRequest, p: Params, w: Surroundings, coins: seq<Coin>) returns (paid: Option<Paid>)
    requires forall o <- r.tokens :: o.level.PseudonymCT?
    ensures paid.Some? <==> Affordable(r, p, coins) && (Left(r, p, coins) > 0 ==> w.addressOk)
    ensures paid.Some? ==>
              && p.fee(coins) == Some(paid.value.fee) && Left(r, p, coins) >= 0
              && OutputsLaidOut(r, Left(r, p, coins), paid.value.outputs)
              && paid.value.outStart == RingChange(r, Left(r, p, coins))
              && Total(coins) == TotalOut(paid.value.outputs) + paid.value.fee
              && Sorted(OutLessFinal, paid.value.outputs) == paid.value.outputs
  {
    hide Sorted, OutLessFinal, RingCount, RingChange, RingOutputs, SitsAt, OutputsLaidOut, ChangeOutputs, Total, TotalOut, Byte;
    var target := SumOutputs(r.tokens);
    var currentTotal := SumAmounts(coins);
    var fee := p.fee(coins);
    if fee.None? || currentTotal < target + fee.value {
      return None;
    }
    var change := currentTotal - fee.value - target;
    if change > 0 && !w.addressOk {
      return None;
    }
    var outDescs := ChangeOutputs(change > 0, r.changeLevel, r.changeAddress, change);
    var forRing := CountRingOutputs(outDescs);
    var outs := ToArray(outDescs);
    var laid, recordedStart := LayOutOutputs(outs, r.tokens);
    ChangeAndTokens(r, change, outDescs, laid[..]);
    if laid.Length >= p.maxOutputs || forRing > p.maxRingOutputs || |r.tokens| - forRing > p.maxSingleOutputs {
      return None;
    }
    paid := Some(Paid(laid[..], fee.value, recordedStart));
  }

  /** The inputs as the builder leaves them: funding and hosted coins, the hosted ones as one
      block behind the funding's ring coins. */
  ghost predicate InputsLaidOut(inputs: seq<Coin>, funding: seq<Coin>, hostedCoins: seq<Coin>) {
    multiset(inputs) == multiset(funding) + multiset(hostedCoins)
    && SitsAt(inputs, hostedCoins, RingCount(funding, InRank))
  }

  lemma CanBuildPermuted(w: Surroundings, a: seq<Coin>, b: seq<Coin>, needChange: bool)
    requires multiset(a) == multiset(b)
    ensures CanBuild(w, a, needChange) <==> CanBuild(w, b, needChange)
  {
    assert forall c :: c in a <==> c in multiset(a);
    assert forall c :: c in b <==> c in multiset(b);
  }

  /** When a token transaction comes about. */
  ghost predicate Buildable(r: TokenRequest, p: Params, w: Surroundings, coins: seq<Coin>) {
    Affordable(r, p, coins) && (Left(r, p, coins) > 0 ==> w.addressOk) && CanBuild(w, coins, false)
  }

  /** The last steps: the inputs with the hosted coins inserted, and the transaction. */
  method Assemble(w: Surroundings, funding: seq<Coin>, hostedCoins: seq<Coin>, outputs: seq<OutDesc>, fee: nat)
      returns (t: Option<Transfer>, recordedStart: nat)
    requires forall c <- hostedCoins :: c.pseudonymousCT
    requires Total(funding + hostedCoins) == TotalOut(outputs) + fee
    requires Sorted(OutLessFinal, outputs) == outputs
    ensures t.Some? <==> CanBuild(w, funding + hostedCoins, false)
    ensures t.Some? ==> InputsLaidOut(t.value.inputs, funding, hostedCoins)
                        && t.value.outputs == outputs && t.value.fee == fee
                        && Total(t.value.inputs) == TotalOut(t.value.outputs) + t.value.fee
    ensures recordedStart == Byte(RingCount(funding, InRank))
  {
    hide Sorted, OutLessFinal, InLessFinal, RingCount, Byte;
    var ins := ToArray(funding);
    var laid;
    laid, recordedStart := LayOutInputs(ins, hostedCoins);
    ghost var inputs := laid[..];
    MultisetJoin(funding, hostedCoins);
    CanBuildPermuted(w, inputs, funding + hostedCoins, false);
    InputsTotal(inputs, funding, hostedCoins);
    t := CreateTransaction(w, laid, outputs, fee, false, PseudonymCT, 0, 0);
  }

  /** MAIN RESULT on token transactions. Exactly when the builder succeeds; and then inputs
      equal outputs plus fee exactly, the fee is the one computed for all inputs, the hosted
      token coins lie together in the order asked for, the token outputs too, and the script
      delimits them exactly when the counts are right and, for the inputs, there are fewer
      than 256 ring coins among the funding. */
  method BuildToken(r: TokenRequest, p: Params, w: Surroundings, eligible: seq<Coin>)
      returns (t: Option<Transfer>, script: Script, ghost funding: seq<Coin>, ghost hostedCoins: seq<Coin>)
    requires forall c <- eligible :: c.ctaut ==> c.pseudonymousCT
    ensures t.Some? <==> TokensOk(p, r.tokens) && Hostable(r.hosted, eligible)
                         && Funding([], r, p, NotTokens(eligible)).Some?
                         && Buildable(r, p, w, funding + hostedCoins)
    ensures TokensOk(p, r.tokens) && Hostable(r.hosted, eligible) && Funding([], r, p, NotTokens(eligible)).Some? ==>
              && Funding([], r, p, NotTokens(eligible)) == Some(funding)
              && HostedCoins(hostedCoins, r.hosted, eligible)
              && forall c <- funding :: !c.ctaut && c in eligible
    ensures t.Some? ==> Total(t.value.inputs) == TotalOut(t.value.outputs) + t.value.fee
    ensures t.Some? ==> p.fee(funding + hostedCoins) == Some(t.value.fee)
    ensures t.Some? ==>
              && InputsLaidOut(t.value.inputs, funding, hostedCoins)
              && (Delimits(RingCount(funding, InRank), |r.hosted|, script.inStart, script.inCounts)
                  <==> RingCount(funding, InRank) < 256 && CountsRight(r.inCounts, |r.hosted|))
    ensures t.Some? ==>
              var left := Left(r, p, funding + hostedCoins);
              var outStart := RingChange(r, left);
              && OutputsLaidOut(r, left, t.value.outputs)
              && (Delimits(outStart, |r.tokens|, script.outStart, script.outCounts) <==> CountsRight(r.outCounts, |r.tokens|))
    ensures t.Some? ==>
              && script.inCounts == (match r.inCounts case Counted => (|r.hosted| % 256, 0) case Given(ct, plain) => (ct, plain))
              && script.outCounts == (match r.outCounts case Counted => (|r.tokens| % 256, 0) case Given(ct, plain) => (ct, plain))
  {
    hide Affordable, CanBuild, RingCount, OutputsLaidOut, InputsLaidOut, HostedCoins, Hostable, Funding, NotTokens;
    script, funding, hostedCoins := Script(0, (0, 0), 0, (0, 0)), [], [];
    var ok := CheckTokens(p, r.tokens);
    if !ok {
      return None, script, funding, hostedCoins;
    }
    var target := SumOutputs(r.tokens);
    var picked, hosts := Fund(r, p, eligible, target);
    if picked.None? {
      return None, script, funding, hostedCoins;
    }
    hostedCoins, funding := hosts, picked.value;
    HostedAreTokens(hosts, r.hosted, eligible);
    var paid := PayAndLayOut(r, p, w, picked.value + hosts);
    if paid.None? {
      return None, script, funding, hostedCoins;
    }
    OutStartFits(r, Left(r, p, picked.value + hosts));
    var inStart;
    t, inStart := Assemble(w, picked.value, hosts, paid.value.outputs, paid.value.fee);
    script := Script(inStart, Recorded(r.inCounts, |r.hosted|), paid.value.outStart, Recorded(r.outCounts, |r.tokens|));
    DelimitsIff(RingCount(funding, InRank), |r.hosted|, r.inCounts);
    DelimitsIff(paid.value.outStart, |r.tokens|, r.outCounts);
  }

  lemma HostedAreTokens(coins: seq<Coin>, hosted: seq<OutPoint>, eligible: seq<Coin>)
    requires HostedCoins(coins, hosted, eligible) && forall c <- eligible :: c.ctaut ==> c.pseudonymousCT
    ensures |coins| == |hosted| && forall c <- coins :: c.pseudonymousCT
  {
  }

  method CheckTokens(p: Params, tokens: seq<OutDesc>) returns (ok: bool)
    ensures ok <==> TokensOk(p, tokens)
  {
    if exists o <- tokens :: !o.level.PseudonymCT? {
      return false;
    }
    var target := SumOutputs(tokens);
    var forRing := CountRingOutputs(tokens);
    ok := target <= p.maxAmount && |tokens| < p.maxOutputs && forRing <= p.maxRingOutputs
          && |tokens| - forRing <= p.maxSingleOutputs;
  }

  /** No coin is spent twice: from distinct eligible coins, hosted coins and funding are
      distinct. */
  lemma TokenInputsDistinct(r: TokenRequest, p: Params, eligible: seq<Coin>, funding: seq<Coin>,
                            hostedCoins: seq<Coin>, inputs: seq<Coin>)
    requires Distinct(eligible) && AllDifferent(r.hosted) && HostedCoins(hostedCoins, r.hosted, eligible)
    requires Funding([], r, p, NotTokens(eligible)) == Some(funding)
    requires multiset(inputs) == multiset(funding) + multiset(hostedCoins)
    ensures Distinct(inputs)
  {
    NotTokensDistinct(eligible);
    NotTokensCarryNone(eligible);
    FundingDistinct(r, p, NotTokens(eligible));
    assert Points(hostedCoins) == r.hosted;
    forall c, d | c in funding && d in hostedCoins
      ensures c.outPoint != d.outPoint
    {
      if c.outPoint == d.outPoint {
        SamePointSameCoin(eligible, c, d);
      }
    }
    JoinDistinct(funding, hostedCoins);
    MultisetJoin(funding, hostedCoins);
    DistinctPermuted(funding + hostedCoins, inputs);
  }

  lemma {:induction false} JoinDistinct(a: seq<Coin>, b: seq<Coin>)
    requires Distinct(a) && Distinct(b) && forall c <- a, d <- b :: c.outPoint != d.outPoint
    ensures Distinct(a + b)
    decreases |b|
  {
    if b == [] {
      assert a + b == a;
    } else {
      var init, last := b[..|b| - 1], b[|b| - 1];
      assert b == init + [last] && a + b == (a + init) + [last];
      DistinctSnoc(init, last);
      JoinDistinct(a, init);
      DistinctSnoc(a + init, last);
    }
  }

  lemma FundingDistinct(r: TokenRequest, p: Params, remain: seq<Coin>)
    requires Distinct(remain) && Funding([], r, p, remain).Some?
    ensures var f := Funding([], r, p, remain).value; Distinct(f) && forall c <- f :: c in remain
  {
    if r.specified == [] {
      var n := PerKbStopsFirst([], remain, TotalOut(r.tokens), p.fee);
      assert [] + remain[..n] == remain[..n] && [] + remain == remain;
      FrontDistinct(remain, n);
    } else {
      WithHashDistinct(remain, p.hashOf, r.specified);
      WithHashSubset(remain, p.hashOf, r.specified);
      assert [] + WithHash(remain, p.hashOf, r.specified) == WithHash(remain, p.hashOf, r.specified);
    }
  }

  lemma {:induction false} WithHashDistinct(coins: seq<Coin>, hashOf: Coin -> string, specified: seq<string>)
    requires Distinct(coins)
    ensures Distinct(WithHash(coins, hashOf, specified))
  {
    if coins != [] {
      var init, last := coins[..|coins| - 1], coins[|coins| - 1];
      assert coins == init + [last];
      DistinctSnoc(init, last);
      WithHashDistinct(init, hashOf, specified);
      WithHashSubset(init, hashOf, specified);
      assert WithHash(init, hashOf, specified) + [] == WithHash(init, hashOf, specified);
      DistinctSnoc(WithHash(init, hashOf, specified), last);
    }
  }

  // ----- registering a token -----

  /** The coins a registration spends: those on the named outpoints first, then funding. */
  method FundRegistration(r: TokenRequest, p: Params, eligible: seq<Coin>, target: nat)
      returns (selected: Option<seq<Coin>>, ghost named: seq<Coin>)
    requires target == TotalOut(r.tokens)
    ensures selected == if Hostable(r.hosted, eligible) then Funding(named, r, p, NotTokens(eligible)) else None
    ensures Hostable(r.hosted, eligible) ==> HostedCoins(named, r.hosted, eligible)
    ensures selected.Some? ==>
              && named <= selected.value
              && forall c <- selected.value[|named|..] :: !c.ctaut && c in eligible
  {
    var split, remain := SplitEligible(eligible, r.hosted);
    named := [];
    if split.None? {
      return None, named;
    }
    var coins := split.value;
    named := coins;
    NotTokensCarryNone(eligible);
    if r.specified != [] {
      var picked := PickSpecified(remain, p.hashOf, r.specified);
      WithHashSubset(remain, p.hashOf, r.specified);
      selected := if picked.Some? then Some(coins + picked.value) else None;
    } else {
      selected := PickForFee(coins, remain, target, p.fee);
      PickExtends(coins, remain, target, p.fee);
    }
  }

  /** MAIN RESULT on registrations. Exactly when the builder succeeds; and then inputs equal
      outputs plus fee exactly, the inputs are the named token coins and coins without tokens,
      the fee is the one computed for them, and the script delimits the token outputs exactly
      when their count fits its byte. The inputs get no block of their own: the script records
      none. */
  method BuildRegistration(r: TokenRequest, p: Params, w: Surroundings, eligible: seq<Coin>)
      returns (t: Option<Transfer>, outStart: nat, outCounts: (nat, nat), ghost selected: seq<Coin>, ghost named: seq<Coin>)
    ensures t.Some? <==> TokensOk(p, r.tokens) && Hostable(r.hosted, eligible)
                         && Funding(named, r, p, NotTokens(eligible)).Some?
                         && Buildable(r, p, w, selected)
    ensures TokensOk(p, r.tokens) && Hostable(r.hosted, eligible) ==> HostedCoins(named, r.hosted, eligible)
    ensures TokensOk(p, r.tokens) && Hostable(r.hosted, eligible) && Funding(named, r, p, NotTokens(eligible)).Some? ==>
              && Funding(named, r, p, NotTokens(eligible)) == Some(selected)
              && named <= selected && forall c <- selected[|named|..] :: !c.ctaut && c in eligible
    ensures t.Some? ==> Total(t.value.inputs) == TotalOut(t.value.outputs) + t.value.fee
    ensures t.Some? ==> p.fee(selected) == Some(t.value.fee)
    ensures t.Some? ==> t.value.inputs == Sorted(InLessFinal, selected) && multiset(t.value.inputs) == multiset(selected)
    ensures t.Some? ==>
              && OutputsLaidOut(r, Left(r, p, selected), t.value.outputs) && outStart == RingChange(r, Left(r, p, selected))
              && (Delimits(outStart, |r.tokens|, outStart, outCounts) <==> |r.tokens| < 256)
  {
    hide Affordable, OutputsLaidOut, HostedCoins, Hostable, Funding, NotTokens, Sorted;
    outStart, outCounts, selected, named := 0, (0, 0), [], [];
    var ok := CheckTokens(p, r.tokens);
    if !ok {
      return None, outStart, outCounts, selected, named;
    }
    var target := SumOutputs(r.tokens);
    var funding;
    funding, named := FundRegistration(r, p, eligible, target);
    if funding.None? {
      return None, outStart, outCounts, selected, named;
    }
    selected := funding.value;
    var paid := PayAndLayOut(r, p, w, funding.value);
    if paid.None? {
      return None, outStart, outCounts, selected, named;
    }
    OutStartFits(r, Left(r, p, funding.value));
    outStart, outCounts := paid.value.outStart, Recorded(Counted, |r.tokens|);
    DelimitsIff(outStart, |r.tokens|, Counted);
    var ins := ToArray(funding.value);
    t := CreateTransaction(w, ins, paid.value.outputs, paid.value.fee, false, PseudonymCT, 0, 0);
    if t.Some? {
      TotalOfMultiset(t.value.inputs, funding.value);
    }
  }

  lemma PickExtends(picked: seq<Coin>, rest: seq<Coin>, target: nat, fee: seq<Coin> -> Option<nat>)
    ensures var end := PerKb(picked, rest, target, fee);
            !end.Failed? ==> picked <= end.coins && forall c <- end.coins[|picked|..] :: c in rest
  {
    hide PerKb, Total;
    var n := PerKbStopsFirst(picked, rest, target, fee);
    assert (picked + rest[..n])[|picked|..] == rest[..n];
    assert (picked + rest)[|picked|..] == rest;
  }

  lemma {:induction false} WithHashSubset(coins: seq<Coin>, hashOf: Coin -> string, specified: seq<string>)
    ensures forall c <- WithHash(coins, hashOf, specified) :: c in coins
  {
    if coins != [] {
      WithHashSubset(coins[..|coins| - 1], hashOf, specified);
    }
  }

  // ----- which coins fund a token transaction -----

  /** Coins without a token whose hash is among those named. */
  function Named(hashOf: Coin -> string, specified: seq<string>): Coin -> bool {
    (c: Coin) => !c.ctaut && hashOf(c) in specified
  }

  lemma {:induction false} WithHashIs(coins: seq<Coin>, hashOf: Coin -> string, specified: seq<string>)
    ensures WithHash(NotTokens(coins), hashOf, specified) == Filter(coins, Named(hashOf, specified))
  {
    if coins != [] {
      var init, last := coins[..|coins| - 1], coins[|coins| - 1];
      WithHashIs(init, hashOf, specified);
      if last.ctaut {
        assert NotTokens(coins) == NotTokens(init);
      } else {
        var all := NotTokens(coins);
        assert all == NotTokens(init) + [last] && all[..|all| - 1] == NotTokens(init);
      }
    }
  }

  /** MAIN RESULT on named funding. It consists of exactly the eligible coins without a token
      whose hash is named, in the order of the list and none twice, behind the coins it starts
      from; it fails exactly when their number is not that of the names. */
  lemma NamedFunding(start: seq<Coin>, r: TokenRequest, p: Params, eligible: seq<Coin>)
    requires r.specified != []
    ensures var those := Filter(eligible, Named(p.hashOf, r.specified));
            Funding(start, r, p, NotTokens(eligible)) == if |those| == |r.specified| then Some(start + those) else None
    ensures forall c :: c in Filter(eligible, Named(p.hashOf, r.specified))
                        <==> c in eligible && !c.ctaut && exists i :: 0 <= i < |r.specified| && r.specified[i] == p.hashOf(c)
  {
    WithHashIs(eligible, p.hashOf, r.specified);
    FilterIn(eligible, Named(p.hashOf, r.specified));
  }

  /** The first of the coins that, behind those started from, cover target and fee, all fewer
      of at least one falling short. */
  ghost predicate FirstFunds(start: seq<Coin>, m: seq<Coin>, target: nat, fee: seq<Coin> -> Option<nat>, n: nat) {
    0 < n <= |m| && (forall k :: 0 < k < n ==> FallsShort(start + m[..k], target, fee))
    && fee(start + m[..n]).Some? && Total(start + m[..n]) >= target + fee(start + m[..n]).value
  }

  /** MAIN RESULT on funding that is not named. The first of the eligible coins without a token
      that cover are added; where there are none such coins at all, what it starts from must be
      worth the target. */
  lemma UnnamedFunding(start: seq<Coin>, r: TokenRequest, p: Params, eligible: seq<Coin>) returns (n: nat)
    requires r.specified == []
    ensures var m, target := Filter(eligible, NoToken()), TotalOut(r.tokens);
            var f := Funding(start, r, p, NotTokens(eligible));
            if m == [] then f == if Total(start) >= target then Some(start) else None
            else if f.Some? then FirstFunds(start, m, target, p.fee, n) && f == Some(start + m[..n])
            else forall k: nat :: !FirstFunds(start, m, target, p.fee, k)
  {
    hide NotTokens, Filter, Total, TotalOut, FallsShort, FirstFunds;
    var m, target := Filter(eligible, NoToken()), TotalOut(r.tokens);
    NotTokensIsFilter(eligible);
    n := FirstOrNone(start, m, target, p.fee);
  }

  /** The loop's answer for coins that are there. */
  lemma FirstOrNone(start: seq<Coin>, m: seq<Coin>, target: nat, fee: seq<Coin> -> Option<nat>) returns (n: nat)
    ensures m != [] ==>
              if Pick(start, m, target, fee).Some?
              then FirstFunds(start, m, target, fee, n) && Pick(start, m, target, fee) == Some(start + m[..n])
              else forall k: nat :: !FirstFunds(start, m, target, fee, k)
  {
    n := PerKbStopsFirst(start, m, target, fee);
    hide PerKb, Total;
    if m != [] && !PerKb(start, m, target, fee).Settled? {
      NothingFunds(start, m, target, fee, n);
    }
  }

  lemma NothingFunds(start: seq<Coin>, m: seq<Coin>, target: nat, fee: seq<Coin> -> Option<nat>, n: nat)
    requires 0 < n <= |m| && forall k :: 0 < k < n ==> FallsShort(start + m[..k], target, fee)
    requires (n == |m| && FallsShort(start + m, target, fee)) || (fee(start + m[..n]).None? && Total(start + m[..n]) >= target)
    ensures forall k: nat :: !FirstFunds(start, m, target, fee, k)
  {
    assert m[..|m|] == m;
    forall k: nat
      ensures !FirstFunds(start, m, target, fee, k)
    {
      hide Total;
      if 0 < k < n || k == n == |m| {
        NotCovering(start + m[..k], target, fee);
      } else if n < k <= |m| {
        NotShort(start + m[..n], target, fee);
      }
    }
  }

  lemma NotShort(coins: seq<Coin>, target: nat, fee: seq<Coin> -> Option<nat>)
    ensures fee(coins).None? && Total(coins) >= target ==> !FallsShort(coins, target, fee)
  {
  }

  lemma NotCovering(coins: seq<Coin>, target: nat, fee: seq<Coin> -> Option<nat>)
    ensures FallsShort(coins, target, fee) ==> !(fee(coins).Some? && Total(coins) >= target + fee(coins).value)
  {
  }

  /** What a token request may ask for, kind by kind: CT pseudonym outputs only. */
  lemma TokensOkMeans(p: Params, tokens: seq<OutDesc>)
    ensures TokensOk(p, tokens)
            <==> (forall i :: 0 <= i < |tokens| ==> tokens[i].level == PseudonymCT)
                 && TotalOut(tokens) <= p.maxAmount && |tokens| + 1 <= p.maxOutputs && |tokens| <= p.maxSingleOutputs
  {
    if forall i :: 0 <= i < |tokens| ==> tokens[i].level == PseudonymCT {
      NoRingOutputs(tokens);
    }
  }

  lemma {:induction false} NoRingOutputs(tokens: seq<OutDesc>)
    requires forall i :: 0 <= i < |tokens| ==> tokens[i].level == PseudonymCT
    ensures RingOutputs(tokens) == 0
  {
    if tokens != [] {
      NoRingOutputs(tokens[1..]);
    }
  }

  /** When fee and outputs are in order, by what becomes of what is left: nothing, a change output
      to a ring address, or one to a pseudonym address. */
  lemma AffordableMeans(r: TokenRequest, p: Params, coins: seq<Coin>)
    ensures p.fee(coins).None? ==> !Affordable(r, p, coins)
    ensures p.fee(coins).Some? ==>
              var left, n := Total(coins) - p.fee(coins).value - TotalOut(r.tokens), |r.tokens|;
              Affordable(r, p, coins)
              <==> (left == 0 && n + 1 <= p.maxOutputs && n <= p.maxSingleOutputs)
                   || (left > 0 && r.changeLevel in {RingCTPre, RingCT} && n + 2 <= p.maxOutputs
                       && p.maxRingOutputs >= 1 && n <= p.maxSingleOutputs + 1)
                   || (left > 0 && r.changeLevel in {Pseudonym, PseudonymCT} && n + 2 <= p.maxOutputs && n <= p.maxSingleOutputs)
  {
  }
}
