/** What a selection is, request by request, said of the list of eligible coins itself: which
    coins are taken, and exactly when there is an error (wallet/createtx.go). */
module SelectionLaws {
  import opened Wrappers
  import opened Coins
  import opened TokenLayout
  import opened CoinSelection

  // ----- a fixed fee -----

  /** MAIN RESULT on fixed fees. The selection fails exactly when the admitted coins together
      fall short; otherwise it takes the first few of them, no more than needed. */
  lemma FixedFeeOutcome(r: Request, p: Params, eligible: seq<Coin>)
    requires r.feeSpecified > 0 && r.specified.None?
    ensures var goal := r.target + r.feeSpecified;
            && (r.privacy.None? ==> (Select(r, p, eligible).None? <==> Total(eligible) < goal))
            && (r.privacy.Some? ==> (Select(r, p, eligible).None? <==> TotalOf(eligible, HasPrivacy(r.privacy.value)) < goal))
            && (Select(r, p, eligible).Some? ==>
                  var m, coins := Admitted(r.privacy, eligible), Select(r, p, eligible).value.coins;
                  && coins <= m && Total(coins) >= goal
                  && forall k :: 0 <= k < |coins| ==> Total(m[..k]) < goal)
  {
    hide Matching, Prefix, Admitted;
    MatchingIsAdmitted(r.privacy, eligible);
    PrefixReaches(Matching(r.privacy, eligible), r.target + r.feeSpecified);
    AdmittedTotal(r.privacy, eligible);
  }

  lemma AdmittedTotal(privacy: Option<bool>, eligible: seq<Coin>)
    ensures privacy.None? ==> Admitted(privacy, eligible) == eligible
    ensures privacy.Some? ==> Total(Admitted(privacy, eligible)) == TotalOf(eligible, HasPrivacy(privacy.value))
  {
  }

  lemma PrefixReaches(m: seq<Coin>, goal: int)
    requires goal > 0
    ensures Total(Prefix(m, goal)) < goal <==> Total(m) < goal
    ensures Prefix(m, goal) <= m
    ensures forall k :: 0 <= k < |Prefix(m, goal)| ==> Total(m[..k]) < goal
  {
    PrefixIsPrefix(m, goal);
    hide Prefix;
    var n := |Prefix(m, goal)|;
    TotalConcat(m[..n], m[n..]);
    assert m == m[..n] + m[n..] && m[..0] == [];
  }

  // ----- a fee per kilobyte -----

  /** The first few coins whose fee cannot be computed, with all fewer falling short. */
  ghost predicate FeeFails(m: seq<Coin>, target: nat, fee: seq<Coin> -> Option<nat>, n: nat) {
    0 < n <= |m| && (forall k :: 0 < k < n ==> FallsShort(m[..k], target, fee))
    && Total(m[..n]) >= target && fee(m[..n]).None?
  }

  /** The first few coins that cover target and fee, with all fewer falling short. */
  ghost predicate FirstCovers(m: seq<Coin>, target: nat, fee: seq<Coin> -> Option<nat>, n: nat) {
    0 < n <= |m| && (forall k :: 0 < k < n ==> FallsShort(m[..k], target, fee))
    && fee(m[..n]).Some? && Total(m[..n]) >= target + fee(m[..n]).value
  }

  /** MAIN RESULT on fees per kilobyte. The selection takes the first few admitted coins that
      cover, or all of them where none do and they are worth the target; it fails exactly when
      a fee cannot be computed on the way, or all of them are worth less than the target. */
  lemma PerKbOutcome(r: Request, p: Params, eligible: seq<Coin>)
    requires r.feeSpecified == 0 && r.feePerKb > 0 && r.specified.None?
    ensures var m := Admitted(r.privacy, eligible);
            var s := Select(r, p, eligible);
            && (s.None? <==> (exists n :: FeeFails(m, r.target, p.fee, n))
                             || (Total(m) < r.target && forall k :: 0 < k <= |m| ==> FallsShort(m[..k], r.target, p.fee)))
            && (s.Some? ==>
                  if forall k :: 0 < k <= |m| ==> FallsShort(m[..k], r.target, p.fee)
                  then s.value == Selection(m, 0, false)
                  else FirstCovers(m, r.target, p.fee, |s.value.coins|) && s.value.coins == m[..|s.value.coins|])
  {
    var m := Admitted(r.privacy, eligible);
    MatchingIsAdmitted(r.privacy, eligible);
    ExhaustedIff(m, r.target, p.fee);
    var n := PerKbStopsFirst([], m, r.target, p.fee);
    assert forall k :: 0 <= k <= |m| ==> [] + m[..k] == m[..k];
    var end := PerKb([], m, r.target, p.fee);
    assert forall k :: 0 < k < n ==> FallsShort(m[..k], r.target, p.fee) by {
      forall k | 0 < k < n
        ensures FallsShort(m[..k], r.target, p.fee)
      {
        assert FallsShort([] + m[..k], r.target, p.fee);
      }
    }
    if end.Failed? {
      assert FeeFails(m, r.target, p.fee, n);
    } else {
      assert end.Settled? ==> FirstCovers(m, r.target, p.fee, n);
      NoFeeFails(m, r.target, p.fee, n);
    }
  }

  /** Where all fall short, or some cover before any fee fails, none fails. */
  lemma NoFeeFails(m: seq<Coin>, target: nat, fee: seq<Coin> -> Option<nat>, n: nat)
    requires FirstCovers(m, target, fee, n) || forall k :: 0 < k <= |m| ==> FallsShort(m[..k], target, fee)
    ensures forall k: nat :: !FeeFails(m, target, fee, k)
    ensures FirstCovers(m, target, fee, n) ==> !FallsShort(m[..n], target, fee)
  {
    if FirstCovers(m, target, fee, n) {
      assert !FallsShort(m[..n], target, fee);
    }
  }

  // ----- named coins -----

  predicate Starts(prefix: string, hash: string) {
    |prefix| <= |hash| && hash[..|prefix|] == prefix
  }

  /** The first coin of the list whose hash starts with the prefix. */
  ghost predicate FirstNamed(coins: seq<Coin>, hashOf: Coin -> string, prefix: string, c: Coin) {
    exists i :: 0 <= i < |coins| && coins[i] == c && Starts(prefix, hashOf(c))
                && forall j :: 0 <= j < i ==> !Starts(prefix, hashOf(coins[j]))
  }

  lemma {:induction false} FirstWithIs(coins: seq<Coin>, hashOf: Coin -> string, prefix: string)
    ensures FirstWith(coins, hashOf, prefix).None? <==> forall c <- coins :: !Starts(prefix, hashOf(c))
    ensures FirstWith(coins, hashOf, prefix).Some? ==> FirstNamed(coins, hashOf, prefix, FirstWith(coins, hashOf, prefix).value)
  {
    if coins != [] {
      if Starts(prefix, hashOf(coins[0])) {
        assert FirstNamed(coins, hashOf, prefix, coins[0]);
      } else {
        FirstWithIs(coins[1..], hashOf, prefix);
        var found := FirstWith(coins[1..], hashOf, prefix);
        assert coins == [coins[0]] + coins[1..];
        if found.Some? {
          var i :| 0 <= i < |coins| - 1 && coins[1..][i] == found.value && Starts(prefix, hashOf(found.value))
                   && forall j :: 0 <= j < i ==> !Starts(prefix, hashOf(coins[1..][j]));
          LaterFirst(coins, hashOf, prefix, i);
        }
      }
    }
  }

  lemma LaterFirst(coins: seq<Coin>, hashOf: Coin -> string, prefix: string, i: nat)
    requires i < |coins| - 1 && !Starts(prefix, hashOf(coins[0])) && Starts(prefix, hashOf(coins[1..][i]))
    requires forall j :: 0 <= j < i ==> !Starts(prefix, hashOf(coins[1..][j]))
    ensures FirstNamed(coins, hashOf, prefix, coins[1..][i])
  {
    assert coins[i + 1] == coins[1..][i];
    forall j | 0 <= j < i + 1
      ensures !Starts(prefix, hashOf(coins[j]))
    {
      if j > 0 {
        assert coins[j] == coins[1..][j - 1];
      }
    }
  }

  lemma {:induction false} FetchFailsIff(coins: seq<Coin>, hashOf: Coin -> string, prefixes: seq<string>)
    ensures FetchSpecified(coins, hashOf, prefixes).None?
            <==> exists i :: 0 <= i < |prefixes| && forall c <- coins :: !Starts(prefixes[i], hashOf(c))
  {
    if prefixes != [] {
      var n := |prefixes| - 1;
      FetchFailsIff(coins, hashOf, prefixes[..n]);
      FirstWithIs(coins, hashOf, prefixes[n]);
      if FetchSpecified(coins, hashOf, prefixes[..n]).None? {
        var i :| 0 <= i < n && forall c <- coins :: !Starts(prefixes[..n][i], hashOf(c));
        assert prefixes[i] == prefixes[..n][i];
      } else {
        forall i | 0 <= i < n
          ensures exists c <- coins :: Starts(prefixes[i], hashOf(c))
        {
          assert prefixes[..n][i] == prefixes[i];
        }
      }
    }
  }

  function IsRingCoin(): Coin -> bool { (c: Coin) => !c.pseudonymous }

  lemma {:induction false} RingInputsCount(coins: seq<Coin>)
    ensures RingInputs(coins) == CountOf(coins, IsRingCoin()) <= |coins|
  {
    if coins != [] {
      RingInputsCount(coins[1..]);
      assert coins == [coins[0]] + coins[1..];
      FilterCons(coins[0], coins[1..], IsRingCoin());
    }
  }

  /** Named coins satisfy the request: the kind of coin, the bounds on inputs where a fee per
      kilobyte is asked for, and the value. */
  ghost predicate NamedSuffice(r: Request, p: Params, coins: seq<Coin>) {
    (r.privacy.Some? ==> forall c <- coins :: c.pseudonymous == r.privacy.value)
    && if r.feeSpecified > 0 then Total(coins) >= r.target + r.feeSpecified
       else
         var ring := CountOf(coins, IsRingCoin());
         && |coins| < p.maxInputs && ring <= p.maxRingInputs && |coins| - ring <= p.maxSingleInputs
         && p.fee(coins).Some? && Total(coins) >= r.target + p.fee(coins).value
  }

  /** MAIN RESULT on named coins. For each prefix the first coin whose hash starts with it is
      taken; the selection fails exactly when there is none for some prefix, or the coins do
      not suffice. */
  lemma NamedOutcome(r: Request, p: Params, eligible: seq<Coin>, coins: seq<Coin>)
    requires ByName(r)
    requires |coins| == |r.specified.value|
    requires forall i :: 0 <= i < |coins| ==> FirstNamed(eligible, p.hashOf, r.specified.value[i], coins[i])
    ensures Select(r, p, eligible).Some? <==> NamedSuffice(r, p, coins)
    ensures Select(r, p, eligible).Some? ==> Select(r, p, eligible).value.coins == coins
  {
    NamedAreFetched(p.hashOf, r.specified.value, eligible, coins);
    RingInputsCount(coins);
    hide FetchSpecified, FirstNamed, RingInputs, CountOf, Total;
  }

  lemma NamedAreFetched(hashOf: Coin -> string, prefixes: seq<string>, eligible: seq<Coin>, coins: seq<Coin>)
    requires |coins| == |prefixes|
    requires forall i :: 0 <= i < |coins| ==> FirstNamed(eligible, hashOf, prefixes[i], coins[i])
    ensures FetchSpecified(eligible, hashOf, prefixes) == Some(coins)
  {
    FetchFailsIff(eligible, hashOf, prefixes);
    forall i | 0 <= i < |prefixes|
      ensures exists c <- eligible :: Starts(prefixes[i], hashOf(c))
    {
      assert FirstNamed(eligible, hashOf, prefixes[i], coins[i]);
      assert coins[i] in eligible;
    }
    FetchedAt(eligible, hashOf, prefixes);
    var found := FetchSpecified(eligible, hashOf, prefixes).value;
    forall i | 0 <= i < |prefixes|
      ensures found[i] == coins[i]
    {
      FirstWithIs(eligible, hashOf, prefixes[i]);
      FirstIsUnique(eligible, hashOf, prefixes[i], found[i], coins[i]);
    }
    assert found == coins;
  }

  lemma FirstIsUnique(coins: seq<Coin>, hashOf: Coin -> string, prefix: string, c: Coin, d: Coin)
    requires FirstNamed(coins, hashOf, prefix, c) && FirstNamed(coins, hashOf, prefix, d)
    ensures c == d
  {
  }

  lemma UnnamedFails(r: Request, p: Params, eligible: seq<Coin>)
    requires ByName(r)
    requires exists i :: 0 <= i < |r.specified.value| && forall c <- eligible :: !Starts(r.specified.value[i], p.hashOf(c))
    ensures Select(r, p, eligible).None?
  {
    FetchFailsIff(eligible, p.hashOf, r.specified.value);
  }

  // ----- no fee at all -----

  /** Without a fee, or with a negative one, only the transfer of nothing can be selected for. */
  lemma NoFeeOutcome(r: Request, p: Params, eligible: seq<Coin>)
    requires r.feeSpecified < 0 || (r.feeSpecified == 0 && r.feePerKb <= 0)
    ensures Select(r, p, eligible) == if r.target == 0 then Some(Selection([], 0, false)) else None
  {
  }

  // ----- the order of the coins, and the limits on outputs -----

  /** Newer versions first, and larger amounts first within a version. */
  lemma OrderMeans(coins: seq<Coin>)
    ensures ReverseByAmount(coins)
            <==> forall i, j :: 0 <= i < j < |coins| ==>
                   coins[i].version > coins[j].version
                   || (coins[i].version == coins[j].version && coins[i].amount >= coins[j].amount)
  {
    assert forall i, j :: 0 <= i < j < |coins| ==>
      (ByAmountLess(coins[i], coins[j])
       <==> coins[i].version < coins[j].version
            || (coins[i].version == coins[j].version && coins[i].amount < coins[j].amount));
  }

  function IsRingOutput(): OutDesc -> bool { (o: OutDesc) => o.level.RingCTPre? || o.level.RingCT? }

  function IsSingleOutput(): OutDesc -> bool { (o: OutDesc) => o.level.Pseudonym? || o.level.PseudonymCT? }

  lemma {:induction false} OutputsCount(outs: seq<OutDesc>)
    ensures RingOutputs(outs) == CountOf(outs, IsRingOutput())
    ensures |outs| - RingOutputs(outs) == CountOf(outs, IsSingleOutput())
  {
    if outs != [] {
      OutputsCount(outs[1..]);
      assert outs == [outs[0]] + outs[1..];
      FilterCons(outs[0], outs[1..], IsRingOutput());
      FilterCons(outs[0], outs[1..], IsSingleOutput());
    }
  }

  /** What may be asked for: a bounded value, fewer outputs than the maximum, so that the change
      still has a place, and no more of each kind than allowed. */
  lemma AcceptableMeans(p: Params, outs: seq<OutDesc>)
    ensures Acceptable(p, outs)
            <==> TotalOut(outs) <= p.maxAmount && |outs| + 1 <= p.maxOutputs
                 && CountOf(outs, IsRingOutput()) <= p.maxRingOutputs
                 && CountOf(outs, IsSingleOutput()) <= p.maxSingleOutputs
  {
    OutputsCount(outs);
  }
}
