/**
 * The negative transform of createNegative: each packed ARGB pixel keeps its
 * alpha byte and has red, green and blue replaced by 255 minus their value,
 * applied in place to every pixel of a decoded image.
 */
module Pixels {
  import opened Wrappers
  import Names
  import opened Sequences

  /** One packed pixel: alpha, red, green, blue from the most to the least significant byte. */
  type Pixel = bv32

  function Alpha(p: Pixel): bv32 { (p >> 24) & 0xff }
  function Red(p: Pixel): bv32 { (p >> 16) & 0xff }
  function Green(p: Pixel): bv32 { (p >> 8) & 0xff }
  function Blue(p: Pixel): bv32 { p & 0xff }

  /**
   * The per-pixel computation: unpack the four channels, complement the three
   * colour channels against 255 and pack them again.  The result is the input
   * with its low 24 bits flipped.
   */
  function NegatePixel(rgb: Pixel): (r: Pixel)
    ensures r == rgb ^ 0x00FF_FFFF
  {
    var a := (rgb >> 24) & 0xff;
    var r := 255 - ((rgb >> 16) & 0xff);
    var g := 255 - ((rgb >> 8) & 0xff);
    var b := 255 - (rgb & 0xff);
    (a << 24) | (r << 16) | (g << 8) | b
  }

  /** Negation keeps the alpha byte and complements each colour byte against 255. */
  lemma NegatePixelChannels(rgb: Pixel)
    ensures Alpha(NegatePixel(rgb)) == Alpha(rgb)
    ensures Red(NegatePixel(rgb)) == 255 - Red(rgb)
    ensures Green(NegatePixel(rgb)) == 255 - Green(rgb)
    ensures Blue(NegatePixel(rgb)) == 255 - Blue(rgb)
  {
  }

  /** Negating a pixel twice gives back the original word. */
  lemma NegatePixelInvolution(rgb: Pixel)
    ensures NegatePixel(NegatePixel(rgb)) == rgb
  {
  }

  /** The order in which the nested loops visit an image `width` wide and `height` high: row by row. */
  ghost function RowMajor(width: nat, height: nat): seq<(nat, nat)>
  {
    if height == 0 then [] else RowMajor(width, height - 1) + Row(width, height - 1)
  }

  /** The coordinates of row `y`, from left to right. */
  ghost function Row(width: nat, y: nat): (r: seq<(nat, nat)>)
    ensures |r| == width
    ensures forall x :: 0 <= x < width ==> r[x] == (x, y)
  {
    seq(width, x requires 0 <= x < width => (x, y))
  }

  /**
   * The visiting order covers exactly the pixels of the image and names none twice:
   * every pixel is visited exactly once.
   */
  lemma {:induction false} RowMajorVisitsEachPixelOnce(width: nat, height: nat)
    ensures Distinct(RowMajor(width, height))
    ensures forall x: nat, y: nat :: (x, y) in RowMajor(width, height) <==> x < width && y < height
  {
    if height > 0 {
      RowMajorVisitsEachPixelOnce(width, height - 1);
      var before: seq<(nat, nat)> := RowMajor(width, height - 1);
      var row: seq<(nat, nat)> := Row(width, height - 1);
      var all: seq<(nat, nat)> := before + row;
      assert RowMajor(width, height) == all;
      forall i: int, j: int | 0 <= i < j < |row|
        ensures row[i] != row[j]
      {
        assert row[i] == (i, height - 1);
      }
      forall c | c in before
        ensures c !in row
      {
        assert c.1 < height - 1;
      }
      DistinctConcat(before, row);
      forall x: nat, y: nat
        ensures (x, y) in all <==> x < width && y < height
      {
        if x < width && y == height - 1 {
          assert row[x] == (x, y);
        }
        if (x, y) in row {
          var k :| 0 <= k < |row| && row[k] == (x, y);
        }
      }
    }
  }

  /**
   * The nested loops of createNegative over an image whose first index is the
   * column x (width = Length0) and whose second is the row y (height = Length1).
   * Each pixel is replaced by its negation; `visits` records the order of the
   * writes, which is the row-major order, so each pixel is written exactly once.
   */
  method NegatePixels(image: array2<Pixel>) returns (ghost visits: seq<(nat, nat)>)
    modifies image
    ensures forall x, y :: 0 <= x < image.Length0 && 0 <= y < image.Length1 ==>
      image[x, y] == NegatePixel(old(image[x, y]))
    ensures visits == RowMajor(image.Length0, image.Length1)
  {
    var width, height := image.Length0, image.Length1;
    visits := [];
    var y := 0;
    while y < height
      invariant 0 <= y <= height
      invariant visits == RowMajor(width, y)
      invariant forall i, j :: 0 <= i < width && 0 <= j < y ==> image[i, j] == NegatePixel(old(image[i, j]))
      invariant forall i, j :: 0 <= i < width && y <= j < height ==> image[i, j] == old(image[i, j])
    {
      var x := 0;
      while x < width
        invariant 0 <= x <= width
        invariant visits == RowMajor(width, y) + Row(width, y)[..x]
        invariant forall i, j :: 0 <= i < width && 0 <= j < y ==> image[i, j] == NegatePixel(old(image[i, j]))
        invariant forall i :: 0 <= i < x ==> image[i, y] == NegatePixel(old(image[i, y]))
        invariant forall i, j :: 0 <= i < width && y <= j < height && (j != y || x <= i) ==> image[i, j] == old(image[i, j])
      {
        var rgb := image[x, y];
        image[x, y] := NegatePixel(rgb);
        visits := visits + [(x, y)];
        assert Row(width, y)[..x + 1] == Row(width, y)[..x] + [(x, y)];
        x := x + 1;
      }
      assert Row(width, y)[..width] == Row(width, y);
      y := y + 1;
    }
  }

  /**
   * createNegative after decoding: an image the reader could not decode (null)
   * is left alone and nothing is written; otherwise every pixel is negated and
   * the image is written back in the format chosen from the file name.
   */
  method CreateNegative(fileName: string, image: array2?<Pixel>) returns (written: Option<string>)
    modifies image
    ensures image == null ==> written == None
    ensures image != null ==> written == Some(Names.FormatName(fileName))
    ensures image != null ==> forall x, y :: 0 <= x < image.Length0 && 0 <= y < image.Length1 ==>
      image[x, y] == NegatePixel(old(image[x, y]))
  {
    if image == null {
      return None;
    }
    var _ := NegatePixels(image);
    written := Some(Names.FormatName(fileName));
  }

  /** Applying the transform to an image twice restores every pixel. */
  method NegateTwice(image: array2<Pixel>)
    modifies image
    ensures forall x, y :: 0 <= x < image.Length0 && 0 <= y < image.Length1 ==> image[x, y] == old(image[x, y])
  {
    var _ := NegatePixels(image);
    var _ := NegatePixels(image);
    forall x, y | 0 <= x < image.Length0 && 0 <= y < image.Length1
      ensures image[x, y] == old(image[x, y])
    {
      NegatePixelInvolution(old(image[x, y]));
    }
  }
}
