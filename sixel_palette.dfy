/**
 * The colour quantiser of src/tui/Sixel.cpp: widestChannel, averageColor,
 * median-cut palette building and closestColor. Each method is proved to
 * compute a specification function; what those functions promise (bounds,
 * the partition of the pixels into buckets, the least distance) is stated
 * on the functions and in SixelPaletteProps.
 */
module SixelPalette {
  import Styles

  type U8 = Styles.U8

  datatype Pixel = Pixel(r: U8, g: U8, b: U8)

  /** Channel 0 is red, 1 green, anything else blue. */
  function Channel(p: Pixel, ch: int): U8
  {
    if ch == 0 then p.r else if ch == 1 then p.g else p.b
  }

  function Min(a: int, b: int): int
  {
    if a <= b then a else b
  }

  function Max(a: int, b: int): int
  {
    if a >= b then a else b
  }

  // ---------------------------------------------------------------------------
  // widestChannel

  /** The smallest value of a channel, starting from 255 as the source does. */
  function Lo(ps: seq<Pixel>, ch: int): (m: int)
    ensures 0 <= m <= 255
    decreases |ps|
  {
    if ps == [] then 255 else Min(Lo(ps[..|ps| - 1], ch), Channel(ps[|ps| - 1], ch))
  }

  /** The largest value of a channel, starting from 0 as the source does. */
  function Hi(ps: seq<Pixel>, ch: int): (m: int)
    ensures 0 <= m <= 255
    decreases |ps|
  {
    if ps == [] then 0 else Max(Hi(ps[..|ps| - 1], ch), Channel(ps[|ps| - 1], ch))
  }

  /** How far apart the values of a channel lie (-255 for no pixels). */
  function Spread(ps: seq<Pixel>, ch: int): int
  {
    Hi(ps, ch) - Lo(ps, ch)
  }

  /** The channel of widest spread, the lowest such channel on a tie. */
  function Widest(ps: seq<Pixel>): (ch: int)
    ensures 0 <= ch <= 2
    ensures forall c :: 0 <= c <= 2 ==> Spread(ps, c) <= Spread(ps, ch)
    ensures forall c :: 0 <= c < ch ==> Spread(ps, c) < Spread(ps, ch)
  {
    var r, g, b := Spread(ps, 0), Spread(ps, 1), Spread(ps, 2);
    if r >= g && r >= b then 0
    else if g >= r && g >= b then 1
    else 2
  }

  method WidestChannel(bucket: seq<Pixel>) returns (ch: int)
    ensures ch == Widest(bucket)
  {
    var minR, maxR, minG, maxG, minB, maxB := 255, 0, 255, 0, 255, 0;
    for i := 0 to |bucket|
      invariant minR == Lo(bucket[..i], 0) && maxR == Hi(bucket[..i], 0)
      invariant minG == Lo(bucket[..i], 1) && maxG == Hi(bucket[..i], 1)
      invariant minB == Lo(bucket[..i], 2) && maxB == Hi(bucket[..i], 2)
    {
      var p := bucket[i];
      assert bucket[..i + 1][..i] == bucket[..i];
      minR, maxR := Min(minR, p.r), Max(maxR, p.r);
      minG, maxG := Min(minG, p.g), Max(maxG, p.g);
      minB, maxB := Min(minB, p.b), Max(maxB, p.b);
    }
    assert bucket[..|bucket|] == bucket;
    var rangeR, rangeG, rangeB := maxR - minR, maxG - minG, maxB - minB;
    if rangeR >= rangeG && rangeR >= rangeB {
      return 0;
    }
    if rangeG >= rangeR && rangeG >= rangeB {
      return 1;
    }
    return 2;
  }

  // ---------------------------------------------------------------------------
  // averageColor

  function Sum(ps: seq<Pixel>, ch: int): nat
    decreases |ps|
  {
    if ps == [] then 0 else Sum(ps[..|ps| - 1], ch) + Channel(ps[|ps| - 1], ch)
  }

  /** Every value lies between the least and the greatest, so their sum does |ps| times over. */
  lemma {:induction false} SumBounds(ps: seq<Pixel>, ch: int, lo: int, hi: int)
    requires forall k :: 0 <= k < |ps| ==> lo <= Channel(ps[k], ch) <= hi
    ensures |ps| * lo <= Sum(ps, ch) <= |ps| * hi
    decreases |ps|
  {
    if ps != [] {
      var front := ps[..|ps| - 1];
      assert forall k :: 0 <= k < |front| ==> front[k] == ps[k];
      SumBounds(front, ch, lo, hi);
      Distrib(|front|, lo);
      Distrib(|front|, hi);
    }
  }

  lemma Distrib(n: int, x: int)
    ensures (n + 1) * x == n * x + x
  {
  }

  /** Integer division keeps a quotient between the bounds that held n times over. */
  lemma DivBetween(s: int, n: int, lo: int, hi: int)
    requires n > 0 && n * lo <= s <= n * hi
    ensures lo <= s / n <= hi
  {
    var q, r := s / n, s % n;
    assert s == n * q + r && 0 <= r < n;
    assert n * q + n == n * (q + 1);
    MulCancel(n, lo, q + 1);
    MulCancel(n, q, hi + 1);
  }

  lemma MulCancel(n: int, a: int, b: int)
    requires n > 0 && n * a < n * b
    ensures a < b
  {
    if a >= b {
      MulMono(b, a, n);
    }
  }

  /** The mean of one channel, rounded down. */
  function Mean(ps: seq<Pixel>, ch: int): (m: U8)
    requires ps != []
  {
    SumBounds(ps, ch, 0, 255);
    DivBetween(Sum(ps, ch), |ps|, 0, 255);
    Sum(ps, ch) / |ps|
  }

  /** averageColor: the per-channel mean, black for no pixels. */
  function Average(ps: seq<Pixel>): (a: Pixel)
    ensures ps == [] ==> a == Pixel(0, 0, 0)
    ensures ps != [] ==> a.r == Sum(ps, 0) / |ps| && a.g == Sum(ps, 1) / |ps| && a.b == Sum(ps, 2) / |ps|
  {
    if ps == [] then Pixel(0, 0, 0) else Pixel(Mean(ps, 0), Mean(ps, 1), Mean(ps, 2))
  }

  method AverageColor(bucket: seq<Pixel>) returns (a: Pixel)
    ensures a == Average(bucket)
  {
    if bucket == [] {
      return Pixel(0, 0, 0);
    }
    var sumR, sumG, sumB := 0, 0, 0;
    for i := 0 to |bucket|
      invariant sumR == Sum(bucket[..i], 0) && sumG == Sum(bucket[..i], 1) && sumB == Sum(bucket[..i], 2)
    {
      assert bucket[..i + 1][..i] == bucket[..i];
      sumR, sumG, sumB := sumR + bucket[i].r, sumG + bucket[i].g, sumB + bucket[i].b;
    }
    assert bucket[..|bucket|] == bucket;
    var n := |bucket|;
    a := Pixel(Mean(bucket, 0), Mean(bucket, 1), Mean(bucket, 2));
    assert a.r == sumR / n && a.g == sumG / n && a.b == sumB / n;
  }

  // ---------------------------------------------------------------------------
  // medianCut

  /** The pixels of all buckets together. */
  function Union(buckets: seq<seq<Pixel>>): multiset<Pixel>
    decreases |buckets|
  {
    if buckets == [] then multiset{} else Union(buckets[..|buckets| - 1]) + multiset(buckets[|buckets| - 1])
  }

  /**
   * The first bucket of the greatest size, and that size, as the search in
   * medianCut finds them: a bucket replaces the best so far only when it is
   * strictly larger.
   */
  function Largest(buckets: seq<seq<Pixel>>): (r: (nat, nat))
    ensures buckets == [] ==> r == (0, 0)
    ensures buckets != [] ==> r.0 < |buckets|
    ensures forall j :: 0 <= j < |buckets| ==> |buckets[j]| <= r.1
    ensures r.1 > 0 ==> r.0 < |buckets| && |buckets[r.0]| == r.1
    ensures forall j :: 0 <= j < r.0 && j < |buckets| ==> |buckets[j]| < r.1
    decreases |buckets|
  {
    if buckets == [] then (0, 0)
    else
      var front := buckets[..|buckets| - 1];
      var best := Largest(front);
      var last := buckets[|buckets| - 1];
      assert forall j :: 0 <= j < |front| ==> front[j] == buckets[j];
      if |last| > best.1 then (|buckets| - 1, |last|) else best
  }

  predicate SortedOn(ps: seq<Pixel>, ch: int)
  {
    forall i, j :: 0 <= i < j < |ps| ==> Channel(ps[i], ch) <= Channel(ps[j], ch)
  }

  /** Insert p in front of the first pixel with a greater channel value. */
  function Insert(p: Pixel, ps: seq<Pixel>, ch: int): (r: seq<Pixel>)
    ensures |r| == |ps| + 1
    decreases |ps|
  {
    if ps == [] || Channel(p, ch) <= Channel(ps[0], ch) then [p] + ps
    else [ps[0]] + Insert(p, ps[1..], ch)
  }

  /**
   * The bucket in order of one channel. std::ranges::sort is not stable, so
   * the source leaves the order of pixels with equal values open; this is
   * the order an insertion sort gives.
   */
  function SortOn(ps: seq<Pixel>, ch: int): (r: seq<Pixel>)
    ensures |r| == |ps|
    decreases |ps|
  {
    if ps == [] then [] else Insert(ps[|ps| - 1], SortOn(ps[..|ps| - 1], ch), ch)
  }

  /**
   * One round of medianCut: sort bucket idx on its widest channel, keep its
   * lower half in place and append the upper half as a new bucket.
   */
  function SplitBucket(buckets: seq<seq<Pixel>>, idx: nat): seq<seq<Pixel>>
    requires idx < |buckets|
  {
    var sorted := SortOn(buckets[idx], Widest(buckets[idx]));
    var mid := |sorted| / 2;
    buckets[idx := sorted[..mid]] + [sorted[mid..]]
  }

  /** medianCut's loop: split the largest bucket until there are maxColors or none has two pixels. */
  function Cut(buckets: seq<seq<Pixel>>, maxColors: int): seq<seq<Pixel>>
    decreases maxColors - |buckets|
  {
    if |buckets| >= maxColors then buckets
    else
      var best := Largest(buckets);
      if best.1 <= 1 then buckets
      else Cut(SplitBucket(buckets, best.0), maxColors)
  }

  /** The mean colour of every bucket, in bucket order. */
  function Means(buckets: seq<seq<Pixel>>): (palette: seq<Pixel>)
    ensures |palette| == |buckets| && forall j :: 0 <= j < |buckets| ==> palette[j] == Average(buckets[j])
  {
    seq(|buckets|, j requires 0 <= j < |buckets| => Average(buckets[j]))
  }

  /** medianCut(pixels, maxColors): the palette of the buckets Cut leaves. */
  function MedianCutPalette(pixels: seq<Pixel>, maxColors: int): seq<Pixel>
  {
    Means(Cut([pixels], maxColors))
  }

  method FindLargest(buckets: seq<seq<Pixel>>) returns (largestIdx: nat, largestSize: nat)
    ensures (largestIdx, largestSize) == Largest(buckets)
  {
    largestIdx, largestSize := 0, 0;
    for i := 0 to |buckets|
      invariant (largestIdx, largestSize) == Largest(buckets[..i])
    {
      assert buckets[..i + 1][..i] == buckets[..i];
      if |buckets[i]| > largestSize {
        largestSize := |buckets[i]|;
        largestIdx := i;
      }
    }
    assert buckets[..|buckets|] == buckets;
  }

  method MedianCut(pixels: seq<Pixel>, maxColors: int) returns (palette: seq<Pixel>)
    ensures palette == MedianCutPalette(pixels, maxColors)
  {
    var buckets := [pixels];
    while |buckets| < maxColors
      invariant Cut(buckets, maxColors) == Cut([pixels], maxColors)
      decreases maxColors - |buckets|
    {
      var largestIdx, largestSize := FindLargest(buckets);
      if largestSize <= 1 {
        break;
      }
      var bucket := buckets[largestIdx];
      var channel := WidestChannel(bucket);
      var sorted := SortOn(bucket, channel);
      var mid := |sorted| / 2;
      buckets := buckets[largestIdx := sorted[..mid]] + [sorted[mid..]];
    }
    palette := [];
    for i := 0 to |buckets|
      invariant |palette| == i && forall j :: 0 <= j < i ==> palette[j] == Average(buckets[j])
    {
      var a := AverageColor(buckets[i]);
      palette := palette + [a];
    }
  }

  // ---------------------------------------------------------------------------
  // closestColor

  /** std::numeric_limits<int>::max(), where closestColor's search starts. */
  const IntMax := 0x7FFF_FFFF

  /** The squared distance of two colours in RGB space. */
  function Dist(p: Pixel, c: Pixel): (d: int)
    ensures 0 <= d <= 3 * 255 * 255
  {
    var dr, dg, db := p.r - c.r, p.g - c.g, p.b - c.b;
    SquareBound(dr);
    SquareBound(dg);
    SquareBound(db);
    dr * dr + dg * dg + db * db
  }

  lemma MulMono(a: int, b: int, c: int)
    requires a <= b && 0 <= c
    ensures a * c <= b * c
  {
  }

  lemma SquareBound(d: int)
    requires -255 <= d <= 255
    ensures 0 <= d * d <= 255 * 255
  {
    var a := if d < 0 then -d else d;
    assert d * d == a * a;
    MulMono(a, 255, a);
    MulMono(a, 255, 255);
  }

  /** closestColor's scan: the index and distance of the best colour so far. */
  function Scan(p: Pixel, palette: seq<Pixel>): (r: (nat, int))
    ensures palette == [] ==> r == (0, IntMax)
    ensures palette != [] ==> r.0 < |palette| && r.1 == Dist(p, palette[r.0])
    ensures forall j :: 0 <= j < |palette| ==> r.1 <= Dist(p, palette[j])
    ensures forall j :: 0 <= j < r.0 && j < |palette| ==> r.1 < Dist(p, palette[j])
    decreases |palette|
  {
    if palette == [] then (0, IntMax)
    else
      var front := palette[..|palette| - 1];
      var best := Scan(p, front);
      var d := Dist(p, palette[|palette| - 1]);
      assert forall j :: 0 <= j < |front| ==> front[j] == palette[j];
      if d < best.1 then (|palette| - 1, d) else best
  }

  /** closestColor: the lowest index of least distance, 0 for an empty palette. */
  function Closest(p: Pixel, palette: seq<Pixel>): (idx: nat)
    ensures palette == [] ==> idx == 0
    ensures palette != [] ==> idx < |palette|
    ensures forall j :: 0 <= j < |palette| ==> Dist(p, palette[idx]) <= Dist(p, palette[j])
    ensures forall j :: 0 <= j < idx && j < |palette| ==> Dist(p, palette[idx]) < Dist(p, palette[j])
  {
    Scan(p, palette).0
  }

  method ClosestColor(pixel: Pixel, palette: seq<Pixel>) returns (bestIdx: nat)
    ensures bestIdx == Closest(pixel, palette)
  {
    bestIdx := 0;
    var bestDist := IntMax;
    for i := 0 to |palette|
      invariant (bestIdx, bestDist) == Scan(pixel, palette[..i])
    {
      assert palette[..i + 1][..i] == palette[..i];
      var c := palette[i];
      var dr, dg, db := pixel.r - c.r, pixel.g - c.g, pixel.b - c.b;
      var dist := dr * dr + dg * dg + db * db;
      assert dist == Dist(pixel, c);
      if dist < bestDist {
        bestDist := dist;
        bestIdx := i;
      }
    }
    assert palette[..|palette|] == palette;
  }
}
