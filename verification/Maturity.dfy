/** Which blocks' outputs mature when a block is connected (wallet/rescan.go,
    wallet/chainntfns.go). Blocks are taken into rings in aligned groups of `group` heights;
    a group matures as a whole, `maturity` blocks after its last block. */
module Maturity {
  import opened Wrappers
  import opened Arithmetic

  /** The entries of the matured list when height is connected: one entry a block of the
      group, left None (nil) unless a group matures now. */
  function MaturedEntries(height: int, maturity: nat, group: nat): seq<Option<int>>
    requires group > 0
  {
    if height >= maturity && (height - maturity + 1) % group == 0
    then seq(group, k => Some(height - maturity - k))
    else seq(group, k => None)
  }

  /** The hashes the backend gives for the entries. */
  ghost predicate HashesOf<H>(entries: seq<Option<int>>, hashAt: int -> Option<H>, hashes: seq<Option<H>>) {
    |hashes| == |entries|
    && forall i :: 0 <= i < |entries| ==>
         if entries[i].None? then hashes[i].None? else hashAt(entries[i].value).Some? && hashes[i] == hashAt(entries[i].value)
  }

  ghost predicate Answered<H>(entries: seq<Option<int>>, hashAt: int -> Option<H>) {
    forall i :: 0 <= i < |entries| && entries[i].Some? ==> hashAt(entries[i].value).Some?
  }

  /** The list of hashes; None when the backend fails to answer for one of the heights. */
  method ComputeMatured<H>(height: int, maturity: nat, group: nat, hashAt: int -> Option<H>)
      returns (matured: Option<array<Option<H>>>)
    requires group > 0
    ensures matured.Some? <==> Answered(MaturedEntries(height, maturity, group), hashAt)
    ensures matured.Some? ==>
              fresh(matured.value) && HashesOf(MaturedEntries(height, maturity, group), hashAt, matured.value[..])
  {
    ghost var entries := MaturedEntries(height, maturity, group);
    var hashes := new Option<H>[group](_ => None);
    if height >= maturity && (height - maturity + 1) % group == 0 {
      var k := 0;
      while k < group
        invariant 0 <= k <= group
        invariant forall i :: 0 <= i < k ==> hashes[i].Some? && hashes[i] == hashAt(height - maturity - i)
      {
        var hash := hashAt(height - maturity - k);
        if hash.None? {
          assert entries[k] == Some(height - maturity - k);
          assert !Answered(entries, hashAt);
          return None;
        }
        hashes[k] := hash;
        k := k + 1;
      }
      forall i | 0 <= i < group
        ensures hashAt(entries[i].value).Some? && hashes[i] == hashAt(entries[i].value)
      {
        assert hashes[i].Some? && hashes[i] == hashAt(height - maturity - i);
        assert entries[i] == Some(height - maturity - i);
      }
      assert Answered(entries, hashAt);
    }
    matured := Some(hashes);
  }

  /** The heights listed as matured. */
  function Listed(entries: seq<Option<int>>): seq<int> {
    if entries == [] then []
    else (if entries[0].Some? then [entries[0].value] else []) + Listed(entries[1..])
  }

  /** All heights listed while the blocks from..until-1 are connected one after the other. */
  function ListedOverRun(from: int, until: int, maturity: nat, group: nat): seq<int>
    requires group > 0
    decreases until - from
  {
    if from >= until then []
    else ListedOverRun(from, until - 1, maturity, group)
         + Listed(MaturedEntries(until - 1, maturity, group))
  }

  /** The last height of the group that `block` belongs to. */
  function GroupEnd(block: nat, group: nat): int
    requires group > 0
  {
    block / group * group + group - 1
  }

  /** The height whose connection must mature `block`. */
  function MaturesAt(block: nat, maturity: nat, group: nat): int
    requires group > 0
  {
    GroupEnd(block, group) + maturity
  }

  /** Counting from 0, `top` ends a group when top + 1 is a multiple of the group size. */
  lemma GroupEndsAt(top: nat, group: nat) returns (q: nat)
    requires group > 0 && (top + 1) % group == 0
    ensures top == q * group + group - 1
  {
    var n := (top + 1) / group;
    assert top + 1 == n * group;
    if n <= 0 {
      MulMonotone(n, 0, group);
    }
    q := n - 1;
    assert (q + 1) * group == q * group + group;
  }

  lemma GroupEndIsMultiple(block: nat, group: nat)
    requires group > 0
    ensures (GroupEnd(block, group) + 1) % group == 0 && GroupEnd(block, group) >= block
  {
    var q := block / group;
    assert GroupEnd(block, group) + 1 == (q + 1) * group;
    DivisionUnique((q + 1) * group, group, q + 1, 0);
  }

  /** The `group` heights ending at the end of a group are that group. */
  lemma GroupMembers(top: nat, group: nat, block: int)
    requires group > 0 && (top + 1) % group == 0
    ensures top - group < block <= top <==> 0 <= block && GroupEnd(block, group) == top
  {
    var q := GroupEndsAt(top, group);
    assert q * group >= 0;
    if top - group < block <= top {
      DivisionUnique(block, group, q, block - q * group);
    }
  }

  lemma {:induction false} CountMapped(entries: seq<Option<int>>, block: int)
    ensures multiset(Listed(entries))[block] == multiset(entries)[Some(block)]
    decreases |entries|
  {
    if entries != [] {
      CountMapped(entries[1..], block);
      assert entries == [entries[0]] + entries[1..];
      assert multiset(entries) == multiset{entries[0]} + multiset(entries[1..]);
      if entries[0].Some? {
        assert multiset(Listed(entries)) == multiset{entries[0].value} + multiset(Listed(entries[1..]));
      } else {
        assert Listed(entries) == Listed(entries[1..]);
      }
    }
  }

  lemma {:induction false} CountDescending(top: int, n: nat, block: int)
    ensures multiset(seq(n, k => Some(top - k)))[Some(block)] == if top - n < block <= top then 1 else 0
    decreases n
  {
    var s := seq(n, k => Some(top - k));
    if n > 0 {
      var t := seq(n - 1, k => Some(top - k));
      assert s == t + [Some(top - (n - 1))];
      CountDescending(top, n - 1, block);
    }
  }

  /** One block's list: it holds a block's height exactly when this is the height at which
      that block matures, and then once. */
  lemma ListedOnce(height: int, maturity: nat, group: nat, block: int)
    requires group > 0
    ensures multiset(Listed(MaturedEntries(height, maturity, group)))[block]
            == if 0 <= block && height == MaturesAt(block, maturity, group) then 1 else 0
  {
    var entries := MaturedEntries(height, maturity, group);
    CountMapped(entries, block);
    if height >= maturity && (height - maturity + 1) % group == 0 {
      CountDescending(height - maturity, group, block);
      GroupMembers(height - maturity, group, block);
    } else {
      assert Some(block) !in entries;
      if 0 <= block {
        GroupEndIsMultiple(block, group);
      }
    }
  }

  /** A list that is not empty is exactly one aligned group, highest block first; in
      particular no listed height is negative. */
  lemma ListIsAlignedGroup(height: int, maturity: nat, group: nat) returns (q: nat)
    requires group > 0
    requires height >= maturity && (height - maturity + 1) % group == 0
    ensures MaturedEntries(height, maturity, group)
            == seq(group, k => Some(q * group + group - 1 - k))
    ensures q * group + group - 1 + maturity == height
  {
    q := GroupEndsAt(height - maturity, group);
  }

  /** MAIN RESULT. Over an unskipped run of blocks every height is listed exactly once if its
      maturing block belongs to the run, and not at all otherwise. */
  lemma {:induction false} MaturedExactlyOnce(from: int, until: int, maturity: nat, group: nat, block: int)
    requires group > 0
    ensures multiset(ListedOverRun(from, until, maturity, group))[block]
            == if 0 <= block && from <= MaturesAt(block, maturity, group) < until then 1 else 0
    decreases until - from
  {
    if from < until {
      MaturedExactlyOnce(from, until - 1, maturity, group, block);
      ListedOnce(until - 1, maturity, group, block);
      assert multiset(ListedOverRun(from, until, maturity, group))
             == multiset(ListedOverRun(from, until - 1, maturity, group))
                + multiset(Listed(MaturedEntries(until - 1, maturity, group)));
    }
  }
}
