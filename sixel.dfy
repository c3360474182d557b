/**
 * encodeSixel of src/tui/Sixel.cpp: RGBA pixels to a sixel string. The
 * pixels are quantised with median cut (module SixelPalette), each pixel is
 * mapped to its closest palette colour, the palette is written as
 * "#i;2;r;g;b" entries in percent, and the image is written in bands of six
 * rows: per colour a row of characters '?'..'~' whose six bits mark the
 * pixels of that colour, then '-' after every band.
 */
module Sixel {
  import opened Utf8
  import opened Decimal
  import opened SixelPalette

  /** RGBA bytes, four per pixel, row by row. */
  datatype ImageData = ImageData(pixels: seq<U8>, width: int, height: int)

  datatype Encoded = Ok(text: Bytes) | InvalidArgument(message: Bytes)

  const DimensionsMessage: Bytes := "Image dimensions must be positive"
  const TooSmallMessage: Bytes := "Pixel data too small for given dimensions"

  /** std::clamp(maxColors, 1, 256). */
  function ClampColors(maxColors: int): (m: int)
    ensures 1 <= m <= 256
    ensures 1 <= maxColors <= 256 ==> m == maxColors
  {
    if maxColors < 1 then 1 else if maxColors > 256 then 256 else maxColors
  }

  /** The RGB part of every pixel; the alpha byte is skipped. */
  function Extract(bytes: seq<U8>, count: nat): (ps: seq<Pixel>)
    requires 4 * count <= |bytes|
    ensures |ps| == count
    ensures forall i :: 0 <= i < count ==> ps[i] == Pixel(bytes[4 * i], bytes[4 * i + 1], bytes[4 * i + 2])
  {
    seq(count, i requires 0 <= i < count => Pixel(bytes[4 * i], bytes[4 * i + 1], bytes[4 * i + 2]))
  }

  /** The palette index of every pixel. */
  function IndexAll(ps: seq<Pixel>, palette: seq<Pixel>): (indexed: seq<nat>)
    ensures |indexed| == |ps|
    ensures forall i :: 0 <= i < |ps| ==> indexed[i] == Closest(ps[i], palette)
  {
    seq(|ps|, i requires 0 <= i < |ps| => Closest(ps[i], palette))
  }

  // ---------------------------------------------------------------------------
  // Palette definition

  /** A channel as a percentage, c * 100 / 255 rounded down. */
  function Percent(c: U8): (p: nat)
    ensures p <= 100
    ensures c == 0 ==> p == 0
    ensures c == 255 ==> p == 100
  {
    c * 100 / 255
  }

  /** "#i;2;r;g;b" for colour i. */
  function PaletteEntry(i: nat, c: Pixel): Bytes
  {
    ['#'] + NatText(i) + [';', '2', ';'] + NatText(Percent(c.r)) + [';'] + NatText(Percent(c.g))
      + [';'] + NatText(Percent(c.b))
  }

  /** The entries of the first n colours. */
  function PaletteText(palette: seq<Pixel>, n: nat): Bytes
    requires n <= |palette|
  {
    if n == 0 then [] else PaletteText(palette, n - 1) + PaletteEntry(n - 1, palette[n - 1])
  }

  // ---------------------------------------------------------------------------
  // Sixel bands

  /** indexed holds one palette index per pixel of a width x height image. */
  predicate Shape(indexed: seq<nat>, width: int, height: int)
  {
    width > 0 && height >= 0 && |indexed| == width * height
  }

  lemma IndexInRange(y: int, x: int, width: int, height: int)
    requires 0 <= y < height && 0 <= x < width
    ensures 0 <= y * width + x < width * height
  {
    MulMono(0, y, width);
    MulMono(y + 1, height, width);
    Distrib(y, width);
  }

  /** Whether the pixel bit rows below bandY in column x has the colour. */
  predicate Hit(indexed: seq<nat>, width: int, height: int, bandY: nat, x: nat, color: nat, bit: nat)
    requires Shape(indexed, width, height) && x < width
  {
    var y := bandY + bit;
    y < height && (IndexInRange(y, x, width, height); indexed[y * width + x] == color)
  }

  /** The sixel value with only bit n set. */
  function BitValue(n: nat): bv8
    requires n < 6
  {
    1 << n
  }

  /** The sixel value of column x after the first n bits. */
  function SixelBits(indexed: seq<nat>, width: int, height: int, bandY: nat, x: nat, color: nat, n: nat): (b: bv8)
    requires Shape(indexed, width, height) && x < width && n <= 6
    ensures b < 64
  {
    if n == 0 then 0
    else
      var bit := if Hit(indexed, width, height, bandY, x, color, n - 1) then BitValue(n - 1) else 0;
      SixelBits(indexed, width, height, bandY, x, color, n - 1) | bit
  }

  /** Whether any of the first n bits of column x is set. */
  predicate AnyHit(indexed: seq<nat>, width: int, height: int, bandY: nat, x: nat, color: nat, n: nat)
    requires Shape(indexed, width, height) && x < width
  {
    n > 0 && (AnyHit(indexed, width, height, bandY, x, color, n - 1) || Hit(indexed, width, height, bandY, x, color, n - 1))
  }

  /** The character of a six-bit value: the value plus 63. */
  function SixelChar(b: bv8): (c: Byte)
    requires b < 64
    ensures '?' <= c <= '~'
  {
    ((b as int) + 63) as char
  }

  /** The characters of the first n columns of one colour in one band. */
  function Row(indexed: seq<nat>, width: int, height: int, bandY: nat, color: nat, n: nat): (row: Bytes)
    requires Shape(indexed, width, height) && n <= width
    ensures |row| == n
  {
    if n == 0 then []
    else Row(indexed, width, height, bandY, color, n - 1) + [SixelChar(SixelBits(indexed, width, height, bandY, n - 1, color, 6))]
  }

  /** Whether any of the first n columns of the band has the colour. */
  predicate RowHas(indexed: seq<nat>, width: int, height: int, bandY: nat, color: nat, n: nat)
    requires Shape(indexed, width, height) && n <= width
  {
    n > 0 && (RowHas(indexed, width, height, bandY, color, n - 1) || AnyHit(indexed, width, height, bandY, n - 1, color, 6))
  }

  /** "#color", the row and '$' when the colour occurs in the band; nothing otherwise. */
  function ColorText(indexed: seq<nat>, width: int, height: int, bandY: nat, color: nat): Bytes
    requires Shape(indexed, width, height)
  {
    if RowHas(indexed, width, height, bandY, color, width) then
      ['#'] + NatText(color) + Row(indexed, width, height, bandY, color, width) + ['$']
    else []
  }

  /** The rows of the first n colours in the band starting at bandY. */
  function BandText(indexed: seq<nat>, width: int, height: int, bandY: nat, n: nat): Bytes
    requires Shape(indexed, width, height)
  {
    if n == 0 then []
    else BandText(indexed, width, height, bandY, n - 1) + ColorText(indexed, width, height, bandY, n - 1)
  }

  /** The first k bands, each followed by '-'. */
  function Bands(indexed: seq<nat>, width: int, height: int, colors: nat, k: nat): Bytes
    requires Shape(indexed, width, height)
  {
    if k == 0 then []
    else Bands(indexed, width, height, colors, k - 1) + BandText(indexed, width, height, 6 * (k - 1), colors) + ['-']
  }

  /** How many bands of six rows cover the image. */
  function BandCount(height: int): (k: nat)
    requires height >= 0
    ensures 6 * k >= height && 6 * (k - 1) < height
  {
    (height + 5) / 6
  }

  // ---------------------------------------------------------------------------
  // encodeSixel

  predicate ValidImage(image: ImageData)
  {
    image.width > 0 && image.height > 0 && |image.pixels| >= image.width * image.height * 4
  }

  /** encodeSixel(image, maxColors). */
  function Encode(image: ImageData, maxColors: int): (r: Encoded)
    ensures r.InvalidArgument? <==> !ValidImage(image)
    ensures r == InvalidArgument(DimensionsMessage) <==> image.width <= 0 || image.height <= 0
  {
    if image.width <= 0 || image.height <= 0 then InvalidArgument(DimensionsMessage)
    else if |image.pixels| < image.width * image.height * 4 then InvalidArgument(TooSmallMessage)
    else
      var count := image.width * image.height;
      var palette := MedianCutPalette(Extract(image.pixels, count), ClampColors(maxColors));
      var indexed := IndexAll(Extract(image.pixels, count), palette);
      Ok(PaletteText(palette, |palette|) + Bands(indexed, image.width, image.height, |palette|, BandCount(image.height)))
  }

  method ColumnBits(indexed: seq<nat>, width: int, height: int, bandY: nat, x: nat, colorIdx: nat)
    returns (sixelByte: bv8, hasPixels: bool)
    requires Shape(indexed, width, height) && x < width
    ensures sixelByte == SixelBits(indexed, width, height, bandY, x, colorIdx, 6)
    ensures hasPixels == AnyHit(indexed, width, height, bandY, x, colorIdx, 6)
  {
    sixelByte, hasPixels := 0, false;
    for bit := 0 to 6
      invariant sixelByte == SixelBits(indexed, width, height, bandY, x, colorIdx, bit)
      invariant hasPixels == AnyHit(indexed, width, height, bandY, x, colorIdx, bit)
    {
      ghost var hit := Hit(indexed, width, height, bandY, x, colorIdx, bit);
      assert SixelBits(indexed, width, height, bandY, x, colorIdx, bit + 1)
        == sixelByte | if hit then BitValue(bit) else 0;
      var y := bandY + bit;
      if y < height {
        IndexInRange(y, x, width, height);
        var pixelIdx := y * width + x;
        if indexed[pixelIdx] == colorIdx {
          sixelByte := sixelByte | BitValue(bit);
          hasPixels := true;
        }
      }
    }
  }

  method ColorRow(indexed: seq<nat>, width: int, height: int, bandY: nat, colorIdx: nat)
    returns (row: Bytes, hasPixels: bool)
    requires Shape(indexed, width, height)
    ensures row == Row(indexed, width, height, bandY, colorIdx, width)
    ensures hasPixels == RowHas(indexed, width, height, bandY, colorIdx, width)
  {
    row, hasPixels := [], false;
    for x := 0 to width
      invariant row == Row(indexed, width, height, bandY, colorIdx, x)
      invariant hasPixels == RowHas(indexed, width, height, bandY, colorIdx, x)
    {
      var sixelByte, hit := ColumnBits(indexed, width, height, bandY, x, colorIdx);
      hasPixels := hasPixels || hit;
      row := row + [SixelChar(sixelByte)];
    }
  }

  method Band(indexed: seq<nat>, width: int, height: int, bandY: nat, colors: nat) returns (text: Bytes)
    requires Shape(indexed, width, height)
    ensures text == BandText(indexed, width, height, bandY, colors)
  {
    text := [];
    for colorIdx := 0 to colors
      invariant text == BandText(indexed, width, height, bandY, colorIdx)
    {
      var row, hasPixels := ColorRow(indexed, width, height, bandY, colorIdx);
      if hasPixels {
        text := text + (['#'] + NatText(colorIdx) + row + ['$']);
      }
    }
  }

  method ExtractPixels(bytes: seq<U8>, pixelCount: nat) returns (pixels: seq<Pixel>)
    requires pixelCount * 4 <= |bytes|
    ensures pixels == Extract(bytes, pixelCount)
  {
    pixels := [];
    for i := 0 to pixelCount
      invariant pixels == Extract(bytes, i)
    {
      pixels := pixels + [Pixel(bytes[i * 4], bytes[i * 4 + 1], bytes[i * 4 + 2])];
    }
  }

  method IndexPixels(pixels: seq<Pixel>, palette: seq<Pixel>) returns (indexed: seq<nat>)
    ensures indexed == IndexAll(pixels, palette)
  {
    indexed := [];
    for i := 0 to |pixels|
      invariant indexed == IndexAll(pixels[..i], palette)
    {
      var idx := ClosestColor(pixels[i], palette);
      indexed := indexed + [idx];
    }
    assert pixels[..|pixels|] == pixels;
  }

  method DefinePalette(palette: seq<Pixel>) returns (result: Bytes)
    ensures result == PaletteText(palette, |palette|)
  {
    result := [];
    for i := 0 to |palette|
      invariant result == PaletteText(palette, i)
    {
      result := result + PaletteEntry(i, palette[i]);
    }
  }

  method EncodeBands(indexed: seq<nat>, width: int, height: int, colors: nat) returns (text: Bytes)
    requires Shape(indexed, width, height)
    ensures text == Bands(indexed, width, height, colors, BandCount(height))
  {
    text := [];
    var bandY := 0;
    ghost var k: nat := 0;
    while bandY < height
      invariant bandY == 6 * k && k <= BandCount(height)
      invariant text == Bands(indexed, width, height, colors, k)
      decreases height - bandY
    {
      var band := Band(indexed, width, height, bandY, colors);
      text := text + band + ['-'];
      bandY, k := bandY + 6, k + 1;
    }
  }

  method EncodeSixel(image: ImageData, maxColors: int) returns (r: Encoded)
    ensures r == Encode(image, maxColors)
  {
    if image.width <= 0 || image.height <= 0 {
      return InvalidArgument(DimensionsMessage);
    }
    var pixelCount := image.width * image.height;
    if |image.pixels| < pixelCount * 4 {
      return InvalidArgument(TooSmallMessage);
    }
    var colors := ClampColors(maxColors);
    var pixels := ExtractPixels(image.pixels, pixelCount);
    var palette := MedianCut(pixels, colors);
    var indexed := IndexPixels(pixels, palette);
    var result := DefinePalette(palette);
    var bands := EncodeBands(indexed, image.width, image.height, |palette|);
    return Ok(result + bands);
  }
}
