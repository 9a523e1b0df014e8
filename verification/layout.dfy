/**
 The layout of the counter image in pixels (src/counter.rs, lines 48 to 94): how wide it is, where
 each digit stands counted from the right edge, and what the reserve does and does not change.
 */
module Layouts {
  import opened Bytes
  import opened Decimal
  import opened Fonts
  import opened Counters

  /** The width of an image with room for this many digits: nine pixels each, three for every three of them. */
  function WidthFor(digits: nat): nat {
    2 + 9 * digits + 3 * (digits / 3)
  }

  /** The left edge of digit `j` from the right, in an image this wide of a number of `n` digits. */
  function LeftEdge(width: nat, n: nat, j: nat): int {
    width - 10 - (if n % 3 == 0 then 3 else 0) - 9 * j - 3 * (j / 3)
  }

  /** Digit `j` from the right has a lit pixel here. */
  predicate DigitLights(font: Font, text: string, width: nat, j: nat, px: nat, py: nat)
    requires IsNumeral(text) && j < |text|
  {
    var x := LeftEdge(width, |text|, j);
    && x <= px < x + 8 && 1 <= py < 17
    && font[text[|text| - 1 - j] as int - 48][8 * (py - 1) + (px - x)] != 0
  }

  predicate SomeDigitLights(font: Font, text: string, width: nat, px: nat, py: nat)
    requires IsNumeral(text)
  {
    exists j :: 0 <= j < |text| && DigitLights(font, text, width, j, px, py)
  }

  /** The four bytes of this pixel. */
  function BytesAt(image: Render, px: nat, py: nat): seq<byte>
    requires 4 * (py * image.width + px) + 4 <= |image.pixels|
  {
    var i := 4 * (py * image.width + px);
    image.pixels[i..i + 4]
  }

  /** The pixel is opaque white, or else transparent. */
  predicate PixelIs(image: Render, px: nat, py: nat, lit: bool) {
    && 4 * (py * image.width + px) + 4 <= |image.pixels|
    && BytesAt(image, px, py) == if lit then [255, 255, 255, 255] else [0, 0, 0, 0]
  }

  /** The image, pixel by pixel: white where some digit lights it, and nothing elsewhere. */
  ghost predicate IsImageOf(image: Render, font: Font, text: string, reserve: nat)
    requires IsNumeral(text)
  {
    && image.width == WidthFor(if |text| > reserve then |text| else reserve)
    && image.height == 18
    && |image.pixels| == 4 * (18 * image.width)
    && forall px, py :: 0 <= px < image.width && 0 <= py < 18 ==>
         PixelIs(image, px, py, SomeDigitLights(font, text, image.width, px, py))
  }

  lemma WidthIs(digits: nat, reserve: nat)
    ensures Width(digits, reserve) == WidthFor(if digits > reserve then digits else reserve)
  {
  }

  lemma DigitStands(digits: nat, reserve: nat, j: nat)
    requires j < digits
    ensures DigitX(digits, StartX(digits, reserve), digits - 1 - j) == LeftEdge(Width(digits, reserve), digits, j)
  {
    RightEdge(digits, reserve);
    FromTheRight(digits, StartX(digits, reserve), j);
  }

  lemma LitByDigit(font: Font, text: string, reserve: nat, px: nat, py: nat)
    requires IsNumeral(text)
    ensures Lit(font, text, StartX(|text|, reserve), |text|, px, py)
            <==> SomeDigitLights(font, text, Width(|text|, reserve), px, py)
  {
    var start, width := StartX(|text|, reserve), Width(|text|, reserve);
    forall j | 0 <= j < |text|
      ensures DigitLights(font, text, width, j, px, py) <==> Lights(font, text, start, |text| - 1 - j, px, py)
    {
      DigitStands(|text|, reserve, j);
    }
    hide Lights, DigitLights;
    if Lit(font, text, start, |text|, px, py) {
      var k :| 0 <= k < |text| && Lights(font, text, start, k, px, py);
      assert DigitLights(font, text, width, |text| - 1 - k, px, py);
    }
  }

  lemma PixelOfPicture(image: Render, font: Font, text: string, reserve: nat, px: nat, py: nat)
    requires IsNumeral(text) && IsPicture(image, font, text, reserve)
    requires px < image.width && py < image.height
    ensures PixelIs(image, px, py, SomeDigitLights(font, text, image.width, px, py))
  {
    InBounds(image.width, image.height, px, py);
    LitByDigit(font, text, reserve, px, py);
    hide Lit, SomeDigitLights, Width, StartX;
    assert PixelAt(image.pixels, image.width, px, py) == Ink(Lit(font, text, StartX(|text|, reserve), |text|, px, py));
  }

  lemma PictureSize(image: Render, font: Font, text: string, reserve: nat)
    requires IsNumeral(text) && IsPicture(image, font, text, reserve)
    ensures image.width == WidthFor(if |text| > reserve then |text| else reserve)
    ensures image.height == 18 && |image.pixels| == 4 * (18 * image.width)
  {
    WidthIs(|text|, reserve);
  }

  /** A picture is the image, pixel by pixel. */
  lemma PictureInPixels(image: Render, font: Font, text: string, reserve: nat)
    requires IsNumeral(text) && IsPicture(image, font, text, reserve)
    ensures IsImageOf(image, font, text, reserve)
  {
    PictureSize(image, font, text, reserve);
    hide IsPicture, PixelIs, SomeDigitLights;
    forall px, py | 0 <= px < image.width && 0 <= py < 18
      ensures PixelIs(image, px, py, SomeDigitLights(font, text, image.width, px, py))
    {
      PixelOfPicture(image, font, text, reserve, px, py);
    }
  }

  /** Up to the reserve all numbers have images of one size, that of a number with as many digits as the reserve. */
  lemma ReserveFixesSize(a: Render, b: Render, font: Font, short: string, full: string, reserve: nat, other: nat)
    requires IsNumeral(short) && IsNumeral(full) && |short| <= reserve && |full| == reserve && other <= reserve
    requires IsPicture(a, font, short, reserve) && IsPicture(b, font, full, other)
    ensures a.width == b.width && a.height == b.height && |a.pixels| == |b.pixels|
  {
  }

  /** There is one picture of a numeral for a start and a width. */
  lemma PictureDetermined(a: Render, b: Render, font: Font, text: string, reserve: nat)
    requires IsNumeral(text) && IsPicture(a, font, text, reserve) && IsPicture(b, font, text, 0)
    requires StartX(|text|, reserve) == StartX(|text|, 0) && Width(|text|, reserve) == Width(|text|, 0)
    ensures a == b
  {
    hide Lit, StartX, Width;
    forall i | 0 <= i < |a.pixels|
      ensures a.pixels[i] == b.pixels[i]
    {
      var p := i / 4;
      var px, py := p % a.width, p / a.width;
      PixelPlace(p, a.width, a.height);
      assert PixelAt(a.pixels, a.width, px, py) == PixelAt(b.pixels, b.width, px, py);
      assert i == 4 * (py * a.width + px) + i % 4;
    }
    assert a.pixels == b.pixels;
  }

  lemma PixelPlace(p: nat, width: nat, height: nat)
    requires p < height * width
    ensures width > 0 && p % width < width && p / width < height && p / width * width + p % width == p
  {
    assert (p / width - height) * width < 0;
  }
}
