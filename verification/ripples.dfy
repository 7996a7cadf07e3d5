/** The ripple effect of helpers.js: `Board._updateRipples`, which ages and deletes ripples, and
    the ring test of `Board._paintRippleCell`. */
module Ripples {
  import opened Cells

  /** A ring spreading from the cell at row `x`, column `y` that spawned it; `sound` is that
      cell's value when it was struck. */
  datatype Ripple = Ripple(x: int, y: int, distance: int, sound: Cell)

  /** A ripple farther out than this is deleted by the next update. */
  const MaxDistance := 6

  function Grow(r: Ripple): (grown: Ripple) {
    r.(distance := r.distance + 1)
  }

  /** One pass of `_updateRipples` as written: a forward loop that splices out a ripple beyond
      `MaxDistance` and grows every other ripple it visits. After a splice the next ripple slides
      into the freed index and the loop counter moves past it, so that ripple is left untouched. */
  function UpdateRipples(rs: seq<Ripple>): (out: seq<Ripple>)
    ensures |out| <= |rs|
    decreases |rs|
  {
    if |rs| == 0 then []
    else if rs[0].distance > MaxDistance then
      if |rs| == 1 then [] else [rs[1]] + UpdateRipples(rs[2..])
    else [Grow(rs[0])] + UpdateRipples(rs[1..])
  }

  // ---------------------------------------------------------------------------
  // What happens to each ripple, index by index

  /** Whether the pass jumps over index `k`: it does exactly when it spliced out index `k - 1`,
      i.e. that ripple was beyond `MaxDistance` and was itself visited. */
  predicate Skipped(rs: seq<Ripple>, k: int)
    requires 0 <= k <= |rs|
    decreases k
  {
    k > 0 && rs[k - 1].distance > MaxDistance && !Skipped(rs, k - 1)
  }

  datatype Fate = Removed | Survives(ripple: Ripple)

  /** What one pass does to the ripple at index `k`: a jumped-over ripple stays as it is, a
      visited one is deleted when beyond `MaxDistance` and grown by one otherwise. */
  function FateOf(rs: seq<Ripple>, k: int): (f: Fate)
    requires 0 <= k < |rs|
  {
    if Skipped(rs, k) then Survives(rs[k])
    else if rs[k].distance > MaxDistance then Removed
    else Survives(Grow(rs[k]))
  }

  function Fates(rs: seq<Ripple>): (fs: seq<Fate>)
    ensures |fs| == |rs|
    ensures forall k :: 0 <= k < |rs| ==> fs[k] == FateOf(rs, k)
  {
    seq(|rs|, k requires 0 <= k < |rs| => FateOf(rs, k))
  }

  /** The surviving ripples, in their original order. */
  function Survivors(fs: seq<Fate>): (out: seq<Ripple>) {
    if |fs| == 0 then []
    else (if fs[0].Survives? then [fs[0].ripple] else []) + Survivors(fs[1..])
  }

  /** Skipping restarts cleanly at any index that is itself visited. */
  lemma {:induction false} SkipShift(rs: seq<Ripple>, m: int, k: int)
    requires 0 <= m && 0 <= k && m + k <= |rs|
    requires !Skipped(rs, m)
    ensures Skipped(rs[m..], k) == Skipped(rs, m + k)
  {
    if k > 0 {
      SkipShift(rs, m, k - 1);
      assert rs[m..][k - 1] == rs[m + k - 1];
    }
  }

  lemma FatesShift(rs: seq<Ripple>, m: int)
    requires 0 <= m <= |rs|
    requires !Skipped(rs, m)
    ensures Fates(rs)[m..] == Fates(rs[m..])
  {
    forall k | 0 <= k < |rs| - m
      ensures Fates(rs)[m..][k] == Fates(rs[m..])[k]
    {
      SkipShift(rs, m, k);
    }
  }

  /** The update pass agrees with the index-by-index account: the result is the surviving fates
      in order. */
  lemma {:induction false} UpdateMatchesFates(rs: seq<Ripple>)
    ensures UpdateRipples(rs) == Survivors(Fates(rs))
    decreases |rs|
  {
    var fs := Fates(rs);
    if |rs| == 0 {
    } else if rs[0].distance > MaxDistance {
      if |rs| == 1 {
        assert fs[0] == Removed;
        assert Survivors(fs) == Survivors(fs[1..]);
      } else {
        assert fs[0] == Removed;
        assert Skipped(rs, 1);
        assert fs[1] == Survives(rs[1]);
        FatesShift(rs, 2);
        UpdateMatchesFates(rs[2..]);
        assert fs[1..][1..] == fs[2..];
      }
    } else {
      assert fs[0] == Survives(Grow(rs[0]));
      FatesShift(rs, 1);
      UpdateMatchesFates(rs[1..]);
    }
  }

  /** A ripple within `MaxDistance` is never deleted: it either grows or is jumped over. */
  lemma YoungRippleSurvives(rs: seq<Ripple>, k: int)
    requires 0 <= k < |rs| && rs[k].distance <= MaxDistance
    ensures FateOf(rs, k) == Survives(rs[k]) || FateOf(rs, k) == Survives(Grow(rs[k]))
    ensures FateOf(rs, k) == Survives(rs[k]) <==> k > 0 && FateOf(rs, k - 1) == Removed
  {
  }

  // ---------------------------------------------------------------------------
  // Comparison with a pass that does not skip

  /** The pass the loop aims at: delete every ripple beyond `MaxDistance`, grow all others. */
  function SpliceFreeUpdate(rs: seq<Ripple>): (out: seq<Ripple>)
    ensures forall r :: r in out ==> r.distance <= MaxDistance + 1
  {
    if |rs| == 0 then []
    else (if rs[0].distance > MaxDistance then [] else [Grow(rs[0])]) + SpliceFreeUpdate(rs[1..])
  }

  function GrowAll(rs: seq<Ripple>): (out: seq<Ripple>)
    ensures |out| == |rs|
    ensures forall k :: 0 <= k < |rs| ==> out[k] == Grow(rs[k])
  {
    seq(|rs|, k requires 0 <= k < |rs| => Grow(rs[k]))
  }

  /** While no ripple is beyond `MaxDistance` nothing is spliced, so the pass grows every ripple
      and agrees with the splice-free pass. */
  lemma {:induction false} UpdateWithoutExpiry(rs: seq<Ripple>)
    requires forall k :: 0 <= k < |rs| ==> rs[k].distance <= MaxDistance
    ensures UpdateRipples(rs) == GrowAll(rs)
    ensures SpliceFreeUpdate(rs) == GrowAll(rs)
    decreases |rs|
  {
    if |rs| > 0 {
      UpdateWithoutExpiry(rs[1..]);
      GrowAllCons(rs);
    }
  }

  /** Ripples that all come before the first expired one are simply grown, and the rest of the
      list is updated on its own. */
  lemma {:induction false} UpdateAfterYoungPrefix(a: seq<Ripple>, b: seq<Ripple>)
    requires forall k :: 0 <= k < |a| ==> a[k].distance <= MaxDistance
    ensures UpdateRipples(a + b) == GrowAll(a) + UpdateRipples(b)
    decreases |a|
  {
    if |a| == 0 {
      assert a + b == b;
      assert GrowAll(a) == [];
    } else {
      var ab := a + b;
      assert ab[0] == a[0];
      assert ab[1..] == a[1..] + b;
      UpdateYoungHead(ab);
      UpdateAfterYoungPrefix(a[1..], b);
      GrowAllCons(a);
    }
  }

  lemma UpdateYoungHead(rs: seq<Ripple>)
    requires |rs| > 0 && rs[0].distance <= MaxDistance
    ensures UpdateRipples(rs) == [Grow(rs[0])] + UpdateRipples(rs[1..])
  {
  }

  lemma GrowAllCons(rs: seq<Ripple>)
    requires |rs| > 0
    ensures GrowAll(rs) == [Grow(rs[0])] + GrowAll(rs[1..])
  {
    assert GrowAll(rs)[1..] == GrowAll(rs[1..]);
  }

  /** The splice skip in action: an expired ripple followed by a young one. The young ripple is
      not grown, where the splice-free pass would grow it; the same holds when the follower has
      expired too, which then survives the pass. */
  lemma SpliceSkipsNext(a: Ripple, b: Ripple)
    requires a.distance > MaxDistance
    ensures UpdateRipples([a, b]) == [b]
    ensures b.distance <= MaxDistance ==> SpliceFreeUpdate([a, b]) == [Grow(b)]
    ensures b.distance > MaxDistance ==> SpliceFreeUpdate([a, b]) == []
  {
    assert [a, b][2..] == [];
    assert [a, b][1..] == [b];
    assert [b][1..] == [];
    assert SpliceFreeUpdate([a, b]) == SpliceFreeUpdate([b]);
  }

  // ---------------------------------------------------------------------------
  // Distance bounds

  /** Every distance lies in 0 .. MaxDistance + 1. */
  predicate Bounded(rs: seq<Ripple>) {
    forall k :: 0 <= k < |rs| ==> 0 <= rs[k].distance <= MaxDistance + 1
  }

  /** Ripples spawned at distance 0 never get past distance 7: a ripple is grown only while it is
      within 6, and a jumped-over ripple keeps its distance. */
  lemma {:induction false} UpdateKeepsBounded(rs: seq<Ripple>)
    requires Bounded(rs)
    ensures Bounded(UpdateRipples(rs))
    decreases |rs|
  {
    if |rs| == 0 {
    } else if rs[0].distance > MaxDistance {
      if |rs| > 1 {
        UpdateKeepsBounded(rs[2..]);
      }
    } else {
      UpdateKeepsBounded(rs[1..]);
    }
  }

  /** `n` successive update passes. */
  function UpdateTimes(rs: seq<Ripple>, n: nat): (out: seq<Ripple>)
    decreases n
  {
    if n == 0 then rs else UpdateTimes(UpdateRipples(rs), n - 1)
  }

  /** A lone ripple spawned at distance 0 is at distance n after n <= 7 passes and is deleted by
      the eighth: the removal test runs before the increment. */
  lemma {:induction false} LoneRippleLifetime(x: int, y: int, sound: Cell, n: nat)
    requires n <= MaxDistance + 1
    ensures UpdateTimes([Ripple(x, y, 0, sound)], n) == [Ripple(x, y, n, sound)]
    ensures UpdateTimes([Ripple(x, y, 0, sound)], MaxDistance + 2) == []
  {
    LoneRippleFrom(x, y, sound, 0, n);
    LoneRippleFrom(x, y, sound, 0, MaxDistance + 1);
    assert UpdateTimes([Ripple(x, y, 0, sound)], MaxDistance + 2)
        == UpdateTimes(UpdateTimes([Ripple(x, y, 0, sound)], MaxDistance + 1), 1) by {
      UpdateTimesSplit([Ripple(x, y, 0, sound)], MaxDistance + 1, 1);
    }
  }

  /** A ripple spawned right behind an expired one is jumped over by the splice on the first pass,
      so it is still alive, at distance 7, after eight passes and is deleted only by the ninth. */
  lemma JumpedRippleLivesLonger(expired: Ripple, x: int, y: int, sound: Cell)
    requires expired.distance > MaxDistance
    ensures UpdateTimes([expired, Ripple(x, y, 0, sound)], MaxDistance + 2) == [Ripple(x, y, MaxDistance + 1, sound)]
    ensures UpdateTimes([expired, Ripple(x, y, 0, sound)], MaxDistance + 3) == []
  {
    var young := Ripple(x, y, 0, sound);
    SpliceSkipsNext(expired, young);
    assert UpdateTimes([expired, young], 1) == [young];
    UpdateTimesSplit([expired, young], 1, MaxDistance + 1);
    UpdateTimesSplit([expired, young], 1, MaxDistance + 2);
    LoneRippleLifetime(x, y, sound, MaxDistance + 1);
  }

  lemma {:induction false} LoneRippleFrom(x: int, y: int, sound: Cell, d: int, n: nat)
    requires 0 <= d && d + n <= MaxDistance + 1
    ensures UpdateTimes([Ripple(x, y, d, sound)], n) == [Ripple(x, y, d + n, sound)]
    decreases n
  {
    if n > 0 {
      assert UpdateRipples([Ripple(x, y, d, sound)]) == [Ripple(x, y, d + 1, sound)];
      LoneRippleFrom(x, y, sound, d + 1, n - 1);
    }
  }

  lemma {:induction false} UpdateTimesSplit(rs: seq<Ripple>, m: nat, n: nat)
    ensures UpdateTimes(rs, m + n) == UpdateTimes(UpdateTimes(rs, m), n)
    decreases m
  {
    if m > 0 {
      UpdateTimesSplit(UpdateRipples(rs), m - 1, n);
    }
  }

  // ---------------------------------------------------------------------------
  // The ring test

  /** Squared Euclidean distance from the ripple's origin to cell (i, j). */
  function SquaredDistance(r: Ripple, i: int, j: int): (d2: int) {
    (i - r.x) * (i - r.x) + (j - r.y) * (j - r.y)
  }

  /** The donut test of `_paintRippleCell` on squared distances, which needs no square root:
      distance from the origin strictly between `distance - 0.7` and `distance + 0.7`, and
      strictly below 3.5. */
  predicate InRing(r: Ripple, i: int, j: int) {
    var d2 := SquaredDistance(r, i, j) as real;
    var lo := r.distance as real - 0.7;
    var hi := r.distance as real + 0.7;
    (lo < 0.0 || lo * lo < d2) && 0.0 < hi && d2 < hi * hi && d2 < 3.5 * 3.5
  }

  lemma SquareLess(a: real, b: real)
    requires 0.0 <= a && 0.0 <= b
    ensures a < b <==> a * a < b * b
  {
    if a < b {
      var x, y := b - a, b + a;
      ProductSign(x, y);
      assert b * b - a * a == x * y;
      assert a * a < b * b;
    } else {
      var x, y := a - b, a + b;
      ProductSign(x, y);
      assert a * a - b * b == x * y;
      assert b * b <= a * a;
    }
  }

  lemma ProductSign(x: real, y: real)
    requires 0.0 <= x && 0.0 <= y
    ensures 0.0 <= x * y
    ensures 0.0 < x && 0.0 < y ==> 0.0 < x * y
  {
  }

  /** For `d`, the square root of the squared distance (the value `Math.sqrt` computes), the
      squared test says exactly what the source's comparisons on `d` say. */
  lemma InRingMatchesDonut(r: Ripple, i: int, j: int, d: real)
    requires 0.0 <= d && d * d == SquaredDistance(r, i, j) as real
    ensures InRing(r, i, j) <==>
      (r.distance as real - 0.7 < d && d < r.distance as real + 0.7 && d < 3.5)
  {
    var lo := r.distance as real - 0.7;
    var hi := r.distance as real + 0.7;
    if 0.0 <= lo {
      SquareLess(lo, d);
    }
    if 0.0 < hi {
      SquareLess(d, hi);
    }
    SquareLess(d, 3.5);
  }

  lemma SquareNonNegative(a: int)
    ensures a * a >= 0
    ensures a * a == 0 <==> a == 0
  {
    if a < 0 {
      assert a * a == (-a) * (-a);
    }
  }

  /** A ripple at distance 0 marks exactly its own origin. */
  lemma RingAtDistanceZero(r: Ripple, i: int, j: int)
    requires r.distance == 0
    ensures InRing(r, i, j) <==> i == r.x && j == r.y
  {
    SquareNonNegative(i - r.x);
    SquareNonNegative(j - r.y);
  }

  /** The square of an integer is one of 0, 1, 4, 9 or at least 16. */
  lemma SmallSquares(a: int)
    ensures a * a == 0 || a * a == 1 || a * a == 4 || a * a == 9 || a * a >= 16
  {
    if a >= 4 {
      assert a * a >= 4 * a;
    } else if a <= -4 {
      assert a * a == (-a) * (-a);
      assert (-a) * (-a) >= 4 * (-a);
    } else {
      assert a == -3 || a == -2 || a == -1 || a == 0 || a == 1 || a == 2 || a == 3;
    }
  }

  /** A ripple at distance 4 or more marks no cell at all: from distance 5 on the inner edge
      lies beyond the 3.5 cap, and at distance 4 only squared distances 11 and 12 would pass,
      which are not sums of two squares. So a ripple is visible only while its distance is 0..3. */
  lemma NoRingFromDistanceFour(r: Ripple, i: int, j: int)
    requires r.distance >= 4
    ensures !InRing(r, i, j)
  {
    var lo := r.distance as real - 0.7;
    assert lo >= 3.3;
    assert lo * lo >= 3.3 * 3.3 by {
      SquareLess(3.3, lo);
    }
    SmallSquares(i - r.x);
    SmallSquares(j - r.y);
  }
}
