/**
 * What the median-cut quantiser of src/tui/Sixel.cpp guarantees: the range
 * functions bound every pixel, the mean lies inside the range, sorting
 * permutes, the buckets partition the pixels, and the palette has exactly
 * min(maxColors, pixel count) entries.
 */
module SixelPaletteProps {
  import opened SixelPalette

  // ---------------------------------------------------------------------------
  // Ranges and means

  /** Lo is at most, and Hi at least, every value of the channel. */
  lemma {:induction false} RangeBounds(ps: seq<Pixel>, ch: int)
    ensures forall k :: 0 <= k < |ps| ==> Lo(ps, ch) <= Channel(ps[k], ch) <= Hi(ps, ch)
    decreases |ps|
  {
    if ps != [] {
      var front := ps[..|ps| - 1];
      RangeBounds(front, ch);
      assert forall k :: 0 <= k < |front| ==> front[k] == ps[k];
    }
  }

  /** For a non-empty bucket both ends of the range are values some pixel has. */
  lemma {:induction false} RangeAttained(ps: seq<Pixel>, ch: int)
    requires ps != []
    ensures exists k :: 0 <= k < |ps| && Lo(ps, ch) == Channel(ps[k], ch)
    ensures exists k :: 0 <= k < |ps| && Hi(ps, ch) == Channel(ps[k], ch)
    decreases |ps|
  {
    var last := |ps| - 1;
    var front := ps[..last];
    if front == [] {
      assert Lo(front, ch) == 255 && Hi(front, ch) == 0;
      assert Lo(ps, ch) == Channel(ps[last], ch) && Hi(ps, ch) == Channel(ps[last], ch);
    } else {
      RangeAttained(front, ch);
      var i :| 0 <= i < |front| && Lo(front, ch) == Channel(front[i], ch);
      var j :| 0 <= j < |front| && Hi(front, ch) == Channel(front[j], ch);
      assert front[i] == ps[i] && front[j] == ps[j];
      var lo := if Lo(front, ch) <= Channel(ps[last], ch) then i else last;
      var hi := if Hi(front, ch) >= Channel(ps[last], ch) then j else last;
      assert Lo(ps, ch) == Channel(ps[lo], ch);
      assert Hi(ps, ch) == Channel(ps[hi], ch);
    }
  }

  /** The spread of a bucket with pixels is never negative. */
  lemma SpreadOfPixels(ps: seq<Pixel>, ch: int)
    requires ps != []
    ensures 0 <= Spread(ps, ch) <= 255
  {
    RangeBounds(ps, ch);
    assert Lo(ps, ch) <= Channel(ps[0], ch) <= Hi(ps, ch);
  }

  /** A bucket whose pixels all agree is widest on red, with spread 0. */
  lemma UniformBucketIsRed(ps: seq<Pixel>)
    requires ps != [] && forall k :: 0 <= k < |ps| ==> ps[k] == ps[0]
    ensures Widest(ps) == 0 && Spread(ps, 0) == 0
  {
    forall ch | 0 <= ch <= 2
      ensures Spread(ps, ch) == 0
    {
      RangeAttained(ps, ch);
    }
  }

  /** averageColor lies, channel by channel, between the least and the greatest value. */
  lemma AverageInRange(ps: seq<Pixel>, ch: int)
    requires ps != [] && 0 <= ch <= 2
    ensures Lo(ps, ch) <= Channel(Average(ps), ch) <= Hi(ps, ch)
  {
    RangeBounds(ps, ch);
    SumBounds(ps, ch, Lo(ps, ch), Hi(ps, ch));
    DivBetween(Sum(ps, ch), |ps|, Lo(ps, ch), Hi(ps, ch));
  }

  /** The average of pixels that are all one colour is that colour. */
  lemma AverageOfUniform(ps: seq<Pixel>)
    requires ps != [] && forall k :: 0 <= k < |ps| ==> ps[k] == ps[0]
    ensures Average(ps) == ps[0]
  {
    forall ch | 0 <= ch <= 2
      ensures Channel(Average(ps), ch) == Channel(ps[0], ch)
    {
      RangeAttained(ps, ch);
      AverageInRange(ps, ch);
    }
    assert Channel(Average(ps), 0) == Channel(ps[0], 0);
    assert Channel(Average(ps), 1) == Channel(ps[0], 1);
    assert Channel(Average(ps), 2) == Channel(ps[0], 2);
  }

  // ---------------------------------------------------------------------------
  // Sorting

  lemma {:induction false} InsertSorted(p: Pixel, ps: seq<Pixel>, ch: int)
    requires SortedOn(ps, ch)
    ensures SortedOn(Insert(p, ps, ch), ch)
    decreases |ps|
  {
    if ps != [] && Channel(p, ch) > Channel(ps[0], ch) {
      var rest := Insert(p, ps[1..], ch);
      InsertSorted(p, ps[1..], ch);
      InsertAbove(p, ps[1..], ch, Channel(ps[0], ch));
      var r := [ps[0]] + rest;
      forall i, j | 0 <= i < j < |r|
        ensures Channel(r[i], ch) <= Channel(r[j], ch)
      {
        assert r[j] == rest[j - 1];
        if i > 0 {
          assert r[i] == rest[i - 1];
        }
      }
    }
  }

  /** Inserting a value no lower than v into values no lower than v keeps them so. */
  lemma {:induction false} InsertAbove(p: Pixel, ps: seq<Pixel>, ch: int, v: int)
    requires v <= Channel(p, ch) && forall k :: 0 <= k < |ps| ==> v <= Channel(ps[k], ch)
    ensures forall k :: 0 <= k < |Insert(p, ps, ch)| ==> v <= Channel(Insert(p, ps, ch)[k], ch)
    decreases |ps|
  {
    if ps != [] && Channel(p, ch) > Channel(ps[0], ch) {
      InsertAbove(p, ps[1..], ch, v);
    }
  }

  lemma {:induction false} InsertKeeps(p: Pixel, ps: seq<Pixel>, ch: int)
    ensures multiset(Insert(p, ps, ch)) == multiset(ps) + multiset{p}
    decreases |ps|
  {
    if ps != [] && Channel(p, ch) > Channel(ps[0], ch) {
      InsertKeeps(p, ps[1..], ch);
      assert ps == [ps[0]] + ps[1..];
    }
  }

  /** SortOn orders the bucket on the channel and keeps its pixels. */
  lemma {:induction false} SortOnSorts(ps: seq<Pixel>, ch: int)
    ensures SortedOn(SortOn(ps, ch), ch)
    ensures multiset(SortOn(ps, ch)) == multiset(ps)
    decreases |ps|
  {
    if ps != [] {
      var front := ps[..|ps| - 1];
      SortOnSorts(front, ch);
      InsertSorted(ps[|ps| - 1], SortOn(front, ch), ch);
      InsertKeeps(ps[|ps| - 1], SortOn(front, ch), ch);
      assert ps == front + [ps[|ps| - 1]];
    }
  }

  // ---------------------------------------------------------------------------
  // Buckets

  predicate AllNonEmpty(buckets: seq<seq<Pixel>>)
  {
    forall j :: 0 <= j < |buckets| ==> buckets[j] != []
  }

  predicate AllSingle(buckets: seq<seq<Pixel>>)
  {
    forall j :: 0 <= j < |buckets| ==> |buckets[j]| <= 1
  }

  lemma {:induction false} UnionUpdate(buckets: seq<seq<Pixel>>, idx: nat, b: seq<Pixel>)
    requires idx < |buckets|
    ensures Union(buckets[idx := b]) + multiset(buckets[idx]) == Union(buckets) + multiset(b)
    decreases |buckets|
  {
    var last := |buckets| - 1;
    var updated := buckets[idx := b];
    assert Union(updated) == Union(updated[..last]) + multiset(updated[last]);
    assert Union(buckets) == Union(buckets[..last]) + multiset(buckets[last]);
    if idx < last {
      var front := buckets[..last];
      assert updated[..last] == front[idx := b] && updated[last] == buckets[last];
      UnionUpdate(front, idx, b);
      assert front[idx] == buckets[idx];
      calc {
        Union(updated) + multiset(buckets[idx]);
        Union(front[idx := b]) + multiset(buckets[last]) + multiset(buckets[idx]);
        Union(front[idx := b]) + multiset(front[idx]) + multiset(buckets[last]);
        Union(front) + multiset(b) + multiset(buckets[last]);
        Union(buckets) + multiset(b);
      }
    } else {
      assert updated[..last] == buckets[..last];
    }
  }

  /** Splitting a bucket keeps every pixel, in exactly one bucket. */
  lemma SplitKeepsPixels(buckets: seq<seq<Pixel>>, idx: nat)
    requires idx < |buckets|
    ensures Union(SplitBucket(buckets, idx)) == Union(buckets)
    ensures |SplitBucket(buckets, idx)| == |buckets| + 1
  {
    var bucket := buckets[idx];
    var sorted := SortOn(bucket, Widest(bucket));
    var mid := |sorted| / 2;
    var lo, hi := sorted[..mid], sorted[mid..];
    var kept := buckets[idx := lo];
    var split := SplitBucket(buckets, idx);
    assert split == kept + [hi];
    assert multiset(bucket) == multiset(lo) + multiset(hi) by {
      SortOnSorts(bucket, Widest(bucket));
      assert sorted == lo + hi;
    }
    assert Union(split) == Union(kept) + multiset(hi) by {
      assert split[..|split| - 1] == kept;
    }
    UnionUpdate(buckets, idx, lo);
    calc {
      Union(split) + multiset(bucket);
      Union(kept) + multiset(hi) + multiset(bucket);
      Union(kept) + multiset(bucket) + multiset(hi);
      Union(buckets) + multiset(lo) + multiset(hi);
      Union(buckets) + multiset(bucket);
    }
    MultisetCancel(Union(split), Union(buckets), multiset(bucket));
  }

  lemma MultisetCancel(a: multiset<Pixel>, b: multiset<Pixel>, c: multiset<Pixel>)
    requires a + c == b + c
    ensures a == b
  {
    forall x
      ensures a[x] == b[x]
    {
      assert (a + c)[x] == (b + c)[x];
    }
  }

  /**
   * The split is at the median: no pixel left in the bucket has a greater
   * value on the widest channel than a pixel of the new bucket.
   */
  lemma SplitAtMedian(buckets: seq<seq<Pixel>>, idx: nat)
    requires idx < |buckets|
    ensures var ch := Widest(buckets[idx]);
      var lower, upper := SplitBucket(buckets, idx)[idx], SplitBucket(buckets, idx)[|buckets|];
      && |upper| - |lower| in {0, 1}
      && forall i, j :: 0 <= i < |lower| && 0 <= j < |upper| ==> Channel(lower[i], ch) <= Channel(upper[j], ch)
  {
    var ch := Widest(buckets[idx]);
    var sorted := SortOn(buckets[idx], ch);
    var mid := |sorted| / 2;
    SortOnSorts(buckets[idx], ch);
    var split := SplitBucket(buckets, idx);
    assert split[idx] == sorted[..mid] && split[|buckets|] == sorted[mid..];
    forall i, j | 0 <= i < mid && 0 <= j < |sorted| - mid
      ensures Channel(sorted[..mid][i], ch) <= Channel(sorted[mid..][j], ch)
    {
      assert sorted[..mid][i] == sorted[i] && sorted[mid..][j] == sorted[mid + j];
    }
  }

  /** Splitting a bucket of two or more pixels leaves no bucket empty. */
  lemma SplitKeepsNonEmpty(buckets: seq<seq<Pixel>>, idx: nat)
    requires idx < |buckets| && |buckets[idx]| >= 2 && AllNonEmpty(buckets)
    ensures AllNonEmpty(SplitBucket(buckets, idx))
  {
  }

  lemma {:induction false} UnionSize(buckets: seq<seq<Pixel>>)
    requires AllNonEmpty(buckets)
    ensures |Union(buckets)| >= |buckets|
    ensures AllSingle(buckets) ==> |Union(buckets)| == |buckets|
    decreases |buckets|
  {
    if buckets != [] {
      UnionSize(buckets[..|buckets| - 1]);
    }
  }

  /**
   * What medianCut's loop leaves: the same pixels, no more buckets than
   * maxColors (unless it started with more), and either maxColors buckets
   * or no bucket left to split.
   */
  lemma {:induction false} CutFacts(buckets: seq<seq<Pixel>>, maxColors: int)
    requires AllNonEmpty(buckets)
    ensures var r := Cut(buckets, maxColors);
      && Union(r) == Union(buckets)
      && AllNonEmpty(r)
      && |buckets| <= |r| <= Max(|buckets|, maxColors)
      && (|r| >= maxColors || AllSingle(r))
    decreases maxColors - |buckets|
  {
    if |buckets| < maxColors {
      var best := Largest(buckets);
      if best.1 > 1 {
        SplitKeepsPixels(buckets, best.0);
        SplitKeepsNonEmpty(buckets, best.0);
        CutFacts(SplitBucket(buckets, best.0), maxColors);
      }
    }
  }

  /**
   * The palette medianCut builds for a non-empty image has exactly
   * min(maxColors, pixel count) colours: it splits until it reaches
   * maxColors or every bucket holds one pixel.
   */
  lemma PaletteSize(pixels: seq<Pixel>, maxColors: int)
    requires pixels != [] && maxColors >= 1
    ensures |MedianCutPalette(pixels, maxColors)| == Min(maxColors, |pixels|)
  {
    var r := Cut([pixels], maxColors);
    assert Union([pixels]) == multiset(pixels) by {
      assert [pixels][..0] == [];
    }
    CutFacts([pixels], maxColors);
    UnionSize(r);
  }

  /** With no pixels medianCut returns the one colour black. */
  lemma PaletteOfNothing(maxColors: int)
    ensures MedianCutPalette([], maxColors) == [Pixel(0, 0, 0)]
  {
    assert Largest([[]]).1 == 0;
  }

  // ---------------------------------------------------------------------------
  // closestColor

  lemma SquaresZero(a: int, b: int, c: int)
    requires a * a + b * b + c * c == 0
    ensures a == 0 && b == 0 && c == 0
  {
    SquarePositive(a);
    SquarePositive(b);
    SquarePositive(c);
  }

  lemma SquarePositive(a: int)
    ensures a * a >= 0 && (a != 0 ==> a * a > 0)
  {
  }

  /** A colour that is in the palette is mapped to itself. */
  lemma ClosestFindsExact(p: Pixel, palette: seq<Pixel>, j: nat)
    requires j < |palette| && palette[j] == p
    ensures palette[Closest(p, palette)] == p
    ensures Closest(p, palette) <= j
  {
    var c := palette[Closest(p, palette)];
    assert Dist(p, c) <= Dist(p, palette[j]) == 0;
    SquaresZero(p.r - c.r, p.g - c.g, p.b - c.b);
  }
}
