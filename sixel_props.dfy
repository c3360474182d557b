/**
 * What encodeSixel in src/tui/Sixel.cpp guarantees: each sixel character
 * encodes exactly the pixels of its colour in its six rows, a colour is
 * written in a band exactly when one of its pixels lies there, there is one
 * '-' per band, the alpha bytes never matter, and the palette has
 * min(maxColors, pixel count) colours.
 */
module SixelProps {
  import opened Utf8
  import opened Decimal
  import opened SixelPalette
  import opened Sixel
  import SixelPaletteProps

  // ---------------------------------------------------------------------------
  // One column

  /** The first n bits of a column are set exactly for the pixels of the colour; the others are clear. */
  lemma {:induction false} BitsAreHits(indexed: seq<nat>, width: int, height: int, bandY: nat, x: nat, color: nat, n: nat, k: nat)
    requires Shape(indexed, width, height) && x < width && n <= 6 && k < 6
    ensures k < n ==> (SixelBits(indexed, width, height, bandY, x, color, n) & BitValue(k) != 0
                       <==> Hit(indexed, width, height, bandY, x, color, k))
    ensures k >= n ==> SixelBits(indexed, width, height, bandY, x, color, n) & BitValue(k) == 0
    decreases n
  {
    if n > 0 {
      BitsAreHits(indexed, width, height, bandY, x, color, n - 1, k);
      BitsDistinct(n - 1, k);
    }
  }

  lemma BitsDistinct(i: nat, k: nat)
    requires i < 6 && k < 6
    ensures BitValue(i) & BitValue(k) != 0 <==> i == k
  {
  }

  /** A column has a set bit exactly when one of its six pixels has the colour. */
  lemma {:induction false} AnyHitIsNonZero(indexed: seq<nat>, width: int, height: int, bandY: nat, x: nat, color: nat, n: nat)
    requires Shape(indexed, width, height) && x < width && n <= 6
    ensures AnyHit(indexed, width, height, bandY, x, color, n) <==> exists k :: 0 <= k < n && Hit(indexed, width, height, bandY, x, color, k)
    decreases n
  {
    if n > 0 {
      AnyHitIsNonZero(indexed, width, height, bandY, x, color, n - 1);
    }
  }

  // ---------------------------------------------------------------------------
  // One row

  lemma {:induction false} RowAt(indexed: seq<nat>, width: int, height: int, bandY: nat, color: nat, n: nat, x: nat)
    requires Shape(indexed, width, height) && x < n <= width
    ensures Row(indexed, width, height, bandY, color, n)[x] == SixelChar(SixelBits(indexed, width, height, bandY, x, color, 6))
    decreases n
  {
    if x < n - 1 {
      RowAt(indexed, width, height, bandY, color, n - 1, x);
    }
  }

  lemma CharValue(b: bv8)
    requires b < 64
    ensures 0 <= SixelChar(b) as int - 63 < 64 && (SixelChar(b) as int - 63) as bv8 == b
  {
  }

  /**
   * Character x of a colour's row, less 63, has bit k set exactly when the
   * pixel k rows below the band's top in column x has that colour.
   */
  lemma RowEncodesPixels(indexed: seq<nat>, width: int, height: int, bandY: nat, color: nat, x: nat, k: nat)
    requires Shape(indexed, width, height) && x < width && k < 6
    ensures var v := Row(indexed, width, height, bandY, color, width)[x] as int - 63;
      0 <= v < 64 && ((v as bv8) & BitValue(k) != 0 <==> Hit(indexed, width, height, bandY, x, color, k))
  {
    RowAt(indexed, width, height, bandY, color, width, x);
    CharValue(SixelBits(indexed, width, height, bandY, x, color, 6));
    BitsAreHits(indexed, width, height, bandY, x, color, 6, k);
  }

  /** A row is written for a colour exactly when one of the band's pixels has the colour. */
  lemma {:induction false} RowHasIsHit(indexed: seq<nat>, width: int, height: int, bandY: nat, color: nat, n: nat)
    requires Shape(indexed, width, height) && n <= width
    ensures RowHas(indexed, width, height, bandY, color, n)
      <==> exists x, k :: 0 <= x < n && 0 <= k < 6 && Hit(indexed, width, height, bandY, x, color, k)
    decreases n
  {
    if n > 0 {
      RowHasIsHit(indexed, width, height, bandY, color, n - 1);
      AnyHitIsNonZero(indexed, width, height, bandY, n - 1, color, 6);
    }
  }

  /** Every character of a row lies between '?' and '~'. */
  lemma {:induction false} RowChars(indexed: seq<nat>, width: int, height: int, bandY: nat, color: nat, n: nat)
    requires Shape(indexed, width, height) && n <= width
    ensures forall i :: 0 <= i < n ==> '?' <= Row(indexed, width, height, bandY, color, n)[i] <= '~'
    decreases n
  {
    if n > 0 {
      RowChars(indexed, width, height, bandY, color, n - 1);
    }
  }

  // ---------------------------------------------------------------------------
  // Counting '-'

  function Occurrences(s: Bytes, c: Byte): nat
    decreases |s|
  {
    if s == [] then 0 else Occurrences(s[..|s| - 1], c) + (if s[|s| - 1] == c then 1 else 0)
  }

  lemma {:induction false} OccurrencesAppend(a: Bytes, b: Bytes, c: Byte)
    ensures Occurrences(a + b, c) == Occurrences(a, c) + Occurrences(b, c)
    decreases |b|
  {
    if b == [] {
      assert a + b == a;
    } else {
      OccurrencesAppend(a, b[..|b| - 1], c);
      assert (a + b)[..|a + b| - 1] == a + b[..|b| - 1];
    }
  }

  lemma {:induction false} OccurrencesAbsent(s: Bytes, c: Byte)
    requires c !in s
    ensures Occurrences(s, c) == 0
    decreases |s|
  {
    if s != [] {
      OccurrencesAbsent(s[..|s| - 1], c);
    }
  }

  lemma NoDashInDigits(s: Bytes)
    requires AllDigits(s)
    ensures '-' !in s
  {
  }

  lemma {:induction false} NoDashInPalette(palette: seq<Pixel>, n: nat)
    requires n <= |palette|
    ensures '-' !in PaletteText(palette, n)
    decreases n
  {
    if n > 0 {
      NoDashInPalette(palette, n - 1);
      var c := palette[n - 1];
      NoDashInDigits(NatText(n - 1));
      NoDashInDigits(NatText(Percent(c.r)));
      NoDashInDigits(NatText(Percent(c.g)));
      NoDashInDigits(NatText(Percent(c.b)));
    }
  }

  lemma {:induction false} NoDashInBand(indexed: seq<nat>, width: int, height: int, bandY: nat, n: nat)
    requires Shape(indexed, width, height)
    ensures '-' !in BandText(indexed, width, height, bandY, n)
    decreases n
  {
    if n > 0 {
      NoDashInBand(indexed, width, height, bandY, n - 1);
      NoDashInDigits(NatText(n - 1));
      RowChars(indexed, width, height, bandY, n - 1, width);
    }
  }

  /** Pieces, each followed by '-'; Bands is this with the band texts as pieces. */
  function Dashed(piece: nat -> Bytes, k: nat): Bytes
  {
    if k == 0 then [] else Dashed(piece, k - 1) + piece(k - 1) + ['-']
  }

  lemma {:induction false} BandsAreDashed(indexed: seq<nat>, width: int, height: int, colors: nat, k: nat)
    requires Shape(indexed, width, height)
    ensures Bands(indexed, width, height, colors, k)
         == Dashed((i: nat) => BandText(indexed, width, height, 6 * i, colors), k)
    decreases k
  {
    if k > 0 {
      BandsAreDashed(indexed, width, height, colors, k - 1);
    }
  }

  lemma {:induction false} DashPerPiece(piece: nat -> Bytes, k: nat)
    requires forall i :: 0 <= i < k ==> '-' !in piece(i)
    ensures Occurrences(Dashed(piece, k), '-') == k
    decreases k
  {
    if k > 0 {
      DashPerPiece(piece, k - 1);
      DashAfterBand(Dashed(piece, k), Dashed(piece, k - 1), piece(k - 1), k - 1);
    }
  }

  lemma DashPerBand(indexed: seq<nat>, width: int, height: int, colors: nat, k: nat)
    requires Shape(indexed, width, height)
    ensures Occurrences(Bands(indexed, width, height, colors, k), '-') == k
  {
    var piece := (i: nat) => BandText(indexed, width, height, 6 * i, colors);
    forall i | 0 <= i < k
      ensures '-' !in piece(i)
    {
      NoDashInBand(indexed, width, height, 6 * i, colors);
    }
    DashPerPiece(piece, k);
    BandsAreDashed(indexed, width, height, colors, k);
  }

  /** A band without '-' followed by its '-' adds one '-'. */
  lemma DashAfterBand(whole: Bytes, front: Bytes, band: Bytes, n: nat)
    requires whole == front + band + ['-'] && '-' !in band && Occurrences(front, '-') == n
    ensures Occurrences(whole, '-') == n + 1
  {
    OccurrencesAbsent(band, '-');
    OccurrencesAppend(front, band, '-');
    OccurrencesAppend(front + band, ['-'], '-');
    assert Occurrences(['-'], '-') == 1 by {
      assert ['-'][..0] == [];
    }
  }

  // ---------------------------------------------------------------------------
  // encodeSixel

  /** The palette encodeSixel builds for a valid image. */
  function ImagePalette(image: ImageData, maxColors: int): seq<Pixel>
    requires ValidImage(image)
  {
    MedianCutPalette(Extract(image.pixels, image.width * image.height), ClampColors(maxColors))
  }

  /** The palette has min(maxColors, pixel count) colours, maxColors clamped to 1..256. */
  lemma PaletteHasClampedSize(image: ImageData, maxColors: int)
    requires ValidImage(image)
    ensures |ImagePalette(image, maxColors)| == Min(ClampColors(maxColors), image.width * image.height)
  {
    var count := image.width * image.height;
    assert count > 0 by {
      MulMono(1, image.height, image.width);
    }
    SixelPaletteProps.PaletteSize(Extract(image.pixels, count), ClampColors(maxColors));
  }

  /** The output of a valid image has one '-' for every band of six rows. */
  lemma OneDashPerBand(image: ImageData, maxColors: int)
    requires ValidImage(image)
    ensures Occurrences(Encode(image, maxColors).text, '-') == BandCount(image.height)
  {
    var count := image.width * image.height;
    var palette := ImagePalette(image, maxColors);
    var indexed := IndexAll(Extract(image.pixels, count), palette);
    NoDashInPalette(palette, |palette|);
    OccurrencesAbsent(PaletteText(palette, |palette|), '-');
    DashPerBand(indexed, image.width, image.height, |palette|, BandCount(image.height));
    OccurrencesAppend(PaletteText(palette, |palette|), Bands(indexed, image.width, image.height, |palette|, BandCount(image.height)), '-');
  }

  /** The output of a valid image starts with the definition of colour 0. */
  lemma StartsWithColorZero(image: ImageData, maxColors: int)
    requires ValidImage(image)
    ensures |Encode(image, maxColors).text| >= 5 && Encode(image, maxColors).text[..5] == "#0;2;"
  {
    var palette := ImagePalette(image, maxColors);
    PaletteHasClampedSize(image, maxColors);
    var entry := PaletteEntry(0, palette[0]);
    EntryZero(palette[0]);
    assert PaletteText(palette, 1) == entry by {
      assert PaletteText(palette, 0) == [];
    }
    PaletteTextPrefix(palette, 1, |palette|);
    PaletteComesFirst(image, maxColors);
    SamePrefix(entry, Encode(image, maxColors).text, 5);
  }

  lemma EntryZero(c: Pixel)
    ensures |PaletteEntry(0, c)| >= 5 && PaletteEntry(0, c)[..5] == "#0;2;"
  {
    assert NatText(0) == "0";
  }

  lemma PaletteComesFirst(image: ImageData, maxColors: int)
    requires ValidImage(image)
    ensures var palette := ImagePalette(image, maxColors);
            PaletteText(palette, |palette|) <= Encode(image, maxColors).text
  {
  }

  lemma PrefixOfLonger(a: Bytes, b: Bytes, c: Bytes)
    requires a <= b
    ensures a <= b + c
  {
    assert (b + c)[..|b|] == b;
  }

  lemma SamePrefix(a: Bytes, b: Bytes, n: nat)
    requires a <= b && n <= |a|
    ensures |b| >= n && b[..n] == a[..n]
  {
  }

  lemma {:induction false} PaletteTextPrefix(palette: seq<Pixel>, m: nat, n: nat)
    requires m <= n <= |palette|
    ensures PaletteText(palette, m) <= PaletteText(palette, n)
    decreases n
  {
    if m < n {
      PaletteTextPrefix(palette, m, n - 1);
      PrefixOfLonger(PaletteText(palette, m), PaletteText(palette, n - 1), PaletteEntry(n - 1, palette[n - 1]));
    }
  }

  /** Two images that differ only in alpha bytes, or in bytes past the last pixel, encode alike. */
  lemma AlphaIsIgnored(a: ImageData, b: ImageData, maxColors: int)
    requires a.width == b.width && a.height == b.height && |a.pixels| == |b.pixels|
    requires forall i :: 0 <= i < |a.pixels| && i < 4 * (a.width * a.height) && i % 4 != 3 ==> a.pixels[i] == b.pixels[i]
    ensures Encode(a, maxColors) == Encode(b, maxColors)
  {
    if ValidImage(a) {
      ExtractIgnoresAlpha(a.pixels, b.pixels, a.width * a.height);
    }
  }

  lemma ExtractIgnoresAlpha(a: seq<U8>, b: seq<U8>, count: nat)
    requires |a| == |b| && 4 * count <= |a|
    requires forall i :: 0 <= i < |a| && i < 4 * count && i % 4 != 3 ==> a[i] == b[i]
    ensures Extract(a, count) == Extract(b, count)
  {
    var ea, eb := Extract(a, count), Extract(b, count);
    forall i | 0 <= i < count
      ensures ea[i] == eb[i]
    {
      var j := 4 * i;
      assert j % 4 == 0 && (j + 1) % 4 == 1 && (j + 2) % 4 == 2;
      assert a[j] == b[j] && a[j + 1] == b[j + 1] && a[j + 2] == b[j + 2];
    }
  }
}
