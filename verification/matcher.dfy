/** Selection of the beer whose serving-range midpoint is closest to the
    requested temperature (`findClosestBeer` and the call site that short-cuts
    a single candidate). */
module Matcher {
  import opened Beers

  /** The reducer: a later beer replaces the incumbent only when it is
      strictly closer, so on a tie the incumbent stays. */
  function Step(prev: Beer, curr: Beer, t: real): (r: Beer)
    ensures r == prev || r == curr
    ensures Dist(r, t) <= Dist(prev, t) && Dist(r, t) <= Dist(curr, t)
    ensures Dist(curr, t) == Dist(prev, t) ==> r == prev
  {
    if Dist(curr, t) < Dist(prev, t) then curr else prev
  }

  /** Left fold of `Step` over `beers[i..]` starting from the incumbent `acc`. */
  function FoldFrom(beers: seq<Beer>, t: real, i: nat, acc: Beer): (r: Beer)
    requires i <= |beers|
    ensures r == acc || r in beers[i..]
    ensures Dist(r, t) <= Dist(acc, t)
    ensures forall j :: i <= j < |beers| ==> Dist(r, t) <= Dist(beers[j], t)
    decreases |beers| - i
  {
    if i == |beers| then acc
    else FoldFrom(beers, t, i + 1, Step(acc, beers[i], t))
  }

  /** `beers.reduce(step)` with no initial value: the first beer is the first
      incumbent. The result is one of the candidates, never a new value, and
      no candidate is closer. */
  function FindClosest(beers: seq<Beer>, t: real): (r: Beer)
    requires |beers| > 0
    ensures r in beers
    ensures forall b :: b in beers ==> Dist(r, t) <= Dist(b, t)
  {
    FoldFrom(beers, t, 1, beers[0])
  }

  /** Index `k` holds a closest beer, and every earlier beer is strictly
      farther: `k` is the first index of minimal distance. */
  ghost predicate FirstClosest(beers: seq<Beer>, t: real, k: int)
  {
    && 0 <= k < |beers|
    && (forall j :: 0 <= j < |beers| ==> Dist(beers[k], t) <= Dist(beers[j], t))
    && (forall j :: 0 <= j < k ==> Dist(beers[k], t) < Dist(beers[j], t))
  }

  /** At most one index is the first closest. */
  lemma FirstClosestUnique(beers: seq<Beer>, t: real, k1: int, k2: int)
    requires FirstClosest(beers, t, k1) && FirstClosest(beers, t, k2)
    ensures k1 == k2
  {
    assert Dist(beers[k1], t) == Dist(beers[k2], t);
  }

  /** Invariant of the fold: if the incumbent is the first closest beer of the
      prefix already folded, the fold ends at the first closest beer of the
      whole sequence. */
  lemma {:induction false} FoldFromFirstClosest(beers: seq<Beer>, t: real, i: nat, k: int)
    requires 1 <= i <= |beers|
    requires FirstClosest(beers[..i], t, k)
    ensures exists k' :: FirstClosest(beers, t, k') && FoldFrom(beers, t, i, beers[k]) == beers[k']
    decreases |beers| - i
  {
    if i == |beers| {
      assert beers[..i] == beers;
      assert FirstClosest(beers, t, k);
    } else {
      var acc := beers[k];
      var curr := beers[i];
      assert forall j :: 0 <= j < i ==> Dist(acc, t) <= Dist(beers[..i][j], t);
      if Dist(curr, t) < Dist(acc, t) {
        assert FirstClosest(beers[..i + 1], t, i);
        FoldFromFirstClosest(beers, t, i + 1, i);
      } else {
        assert FirstClosest(beers[..i + 1], t, k);
        FoldFromFirstClosest(beers, t, i + 1, k);
      }
    }
  }

  /** Ties go to the earliest beer: the result is the beer at the first index
      of minimal distance. */
  lemma FindClosestIsFirst(beers: seq<Beer>, t: real)
    requires |beers| > 0
    ensures exists k :: FirstClosest(beers, t, k) && FindClosest(beers, t) == beers[k]
  {
    assert FirstClosest(beers[..1], t, 0);
    FoldFromFirstClosest(beers, t, 1, 0);
  }

  /** When the beer at index `i` is among the closest, the result comes from
      index `i` or earlier: an equally close later beer never wins. */
  lemma FindClosestPrefersEarlier(beers: seq<Beer>, t: real, i: int)
    requires 0 <= i < |beers|
    requires forall m :: 0 <= m < |beers| ==> Dist(beers[i], t) <= Dist(beers[m], t)
    ensures exists k :: 0 <= k <= i && FindClosest(beers, t) == beers[k]
  {
    FindClosestIsFirst(beers, t);
    var k :| FirstClosest(beers, t, k) && FindClosest(beers, t) == beers[k];
    assert k <= i;
  }

  /** The call site: a single candidate is taken as is, otherwise the fold
      decides. Both agree, so the short-cut changes nothing. */
  function SelectClosest(beers: seq<Beer>, t: real): (r: Beer)
    requires |beers| > 0
    ensures r == FindClosest(beers, t)
    ensures |beers| == 1 ==> r == beers[0]
  {
    if |beers| == 1 then beers[0] else FindClosest(beers, t)
  }
}
