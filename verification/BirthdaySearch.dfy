/** The binary search for a block close to the wallet's birthday (wallet/wallet.go). */
module BirthdaySearch {
  import opened Wrappers

  /** Two hours, in seconds. */
  const DELTA: int := 7200

  /** The backend's answers: its best height, and the timestamp of the block at a height. */
  datatype Source = Source(best: Option<nat>, timeAt: int -> Option<int>)

  datatype Birthday = Birthday(height: int, timestamp: int)

  ghost predicate Answers(s: Source) {
    s.best.Some? && forall h :: 0 <= h <= s.best.value ==> s.timeAt(h).Some?
  }

  predicate WithinMargin(timestamp: int, birthday: int) {
    birthday - DELTA <= timestamp <= birthday + DELTA
  }

  /** What the search settles on: a block within the margin, or the last block known to be
      too early when its successor is too late. The best block is never looked at unless it
      is genesis, so a successor that is the best block counts as too late. */
  ghost predicate Settled(s: Source, birthday: int, b: Birthday) {
    s.best.Some? && 0 <= b.height <= s.best.value
    && s.timeAt(b.height) == Some(b.timestamp)
    && (WithinMargin(b.timestamp, birthday)
        || ((b.height == 0 || b.timestamp < birthday - DELTA)
            && (b.height + 1 >= s.best.value
                || (s.timeAt(b.height + 1).Some? && s.timeAt(b.height + 1).value > birthday + DELTA))))
  }

  /** The search; None when the backend fails to answer. */
  method LocateBirthdayBlock(s: Source, birthday: int) returns (r: Option<Birthday>)
    ensures r.Some? ==> Settled(s, birthday, r.value)
    ensures r.Some? ==> r.value.height == 0 || r.value.timestamp <= birthday + 7200
    ensures Answers(s) ==> r.Some?
  {
    if s.best.None? {
      return None;
    }
    var best := s.best.value;
    var left, right := 0, best;
    while true
      invariant 0 <= left <= right <= best
      invariant left < right || left == best == 0
      invariant left == 0 || (s.timeAt(left).Some? && s.timeAt(left).value < birthday - DELTA)
      invariant right == best || (s.timeAt(right).Some? && s.timeAt(right).value > birthday + DELTA)
      decreases right - left
    {
      var mid := left + (right - left) / 2;
      var time := s.timeAt(mid);
      if time.None? {
        return None;
      }
      if mid == 0 || mid == best || mid == left {
        return Some(Birthday(mid, time.value));
      }
      if time.value - birthday > DELTA {
        right := mid;
        continue;
      }
      if time.value - birthday < -DELTA {
        left := mid;
        continue;
      }
      return Some(Birthday(mid, time.value));
    }
  }

  ghost predicate NonDecreasing(s: Source)
    requires Answers(s)
  {
    forall i, j :: 0 <= i <= j <= s.best.value ==> s.timeAt(i).value <= s.timeAt(j).value
  }

  /** MAIN RESULT. On a chain whose timestamps do not decrease, no block later than the margin
      lies below the result, and the result is within the margin whenever some block strictly
      between genesis and the best block is. */
  lemma NothingIsMissed(s: Source, birthday: int, b: Birthday)
    requires Answers(s) && NonDecreasing(s) && Settled(s, birthday, b)
    ensures forall h :: 0 <= h < b.height ==> s.timeAt(h).value <= birthday + 7200
    ensures (exists h :: 0 < h < s.best.value && birthday - 7200 <= s.timeAt(h).value <= birthday + 7200)
            ==> birthday - 7200 <= b.timestamp <= birthday + 7200
  {
    if !WithinMargin(b.timestamp, birthday) {
      forall h | 0 < h < s.best.value
        ensures !WithinMargin(s.timeAt(h).value, birthday)
      {
        if h <= b.height {
          assert s.timeAt(h).value <= s.timeAt(b.height).value;
        } else {
          assert s.timeAt(b.height + 1).value <= s.timeAt(h).value;
        }
      }
    }
  }
}
