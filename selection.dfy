/** The selection loop both Malcolm schedulers share: walk the workers in
    order, skip the unhealthy ones, and keep a worker when its score is
    strictly below the best so far, starting from a sentinel bound
    (std::numeric_limits<double>::max() in the source). */
module Selection {
  import opened Types

  /** Position `p` is the first of least score among the positions below
      `n` where `ok` holds. */
  ghost predicate FirstLeast(ok: seq<bool>, score: seq<real>, n: nat, p: nat)
    requires n <= |ok| && n <= |score|
  {
    p < n && ok[p] &&
    (forall q :: 0 <= q < n && ok[q] ==> score[p] <= score[q]) &&
    (forall q :: 0 <= q < p && ok[q] ==> score[q] > score[p])
  }

  /** No position below `n` where `ok` holds scores under `bound`. */
  ghost predicate NoneBelow(ok: seq<bool>, score: seq<real>, n: nat, bound: real)
    requires n <= |ok| && n <= |score|
  {
    forall q :: 0 <= q < n && ok[q] ==> score[q] >= bound
  }

  /** Where the scan stands after the first `n` positions: `best` is -1 and
      `least` is the sentinel while nothing has beaten the sentinel, and
      otherwise `best` is the first position of least score and `least` is
      its score, below the sentinel. */
  ghost predicate Scanned(ok: seq<bool>, score: seq<real>, n: nat, bound: real, best: int, least: real)
    requires n <= |ok| && n <= |score|
  {
    -1 <= best &&
    (best == -1 ==> NoneBelow(ok, score, n, bound) && least == bound) &&
    (best >= 0 ==> FirstLeast(ok, score, n, best) && least == score[best] && least < bound)
  }

  /** The target the scan reports: uint8_t of the kept position, or 0 when
      no position was kept. */
  function TargetOf(best: int): (r: U8)
    ensures best < 0 ==> r == 0
    ensures 0 <= best < TWO_8 ==> r == best
  {
    if best < 0 then 0 else Truncate8(best)
  }

  /** Before the first position nothing is kept. */
  lemma ScanStart(ok: seq<bool>, score: seq<real>, bound: real)
    ensures Scanned(ok, score, 0, bound, -1, bound)
  {
  }

  /** One step of the scan: position `n` takes over exactly when `ok`
      holds for it and its score is strictly below the least so far. */
  lemma ScanStep(ok: seq<bool>, score: seq<real>, n: nat, bound: real, best: int, least: real)
    requires n < |ok| && n < |score|
    requires Scanned(ok, score, n, bound, best, least)
    ensures var takes := ok[n] && score[n] < least;
      Scanned(ok, score, n + 1, bound, if takes then n else best, if takes then score[n] else least)
  {
    if ok[n] && score[n] < least {
      if best >= 0 {
        forall q | 0 <= q < n && ok[q]
          ensures score[q] > score[n]
        {
        }
      }
    }
  }

  /** The position the scan keeps is unique. */
  lemma FirstLeastUnique(ok: seq<bool>, score: seq<real>, n: nat, p1: nat, p2: nat)
    requires n <= |ok| && n <= |score|
    requires FirstLeast(ok, score, n, p1) && FirstLeast(ok, score, n, p2)
    ensures p1 == p2
  {
    assert score[p1] == score[p2];
  }

  /** The scan keeps a position exactly when some position with `ok` scores
      below the sentinel. */
  lemma ScanFinds(ok: seq<bool>, score: seq<real>, n: nat, bound: real, best: int, least: real)
    requires n <= |ok| && n <= |score|
    requires Scanned(ok, score, n, bound, best, least)
    ensures best >= 0 <==> exists q :: 0 <= q < n && ok[q] && score[q] < bound
  {
    if best >= 0 {
      assert ok[best] && score[best] < bound;
    }
  }
}
