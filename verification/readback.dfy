/**
 Reading a number back from its image. The image alone is enough: neither the reserve it was
 rendered with nor the number of its digits has to be known.
 */
module ReadBack {
  import opened Decimal
  import opened Fonts
  import opened Counters
  import opened Layouts

  /** The pixel is in the image, and is white. */
  predicate LitIn(image: Render, px: nat, py: nat) {
    && px < image.width && py < image.height
    && 4 * (py * image.width + px) + 3 < |image.pixels|
    && PixelAt(image.pixels, image.width, px, py) == Ink(true)
  }

  predicate ColumnLit(image: Render, px: nat) {
    exists py :: 0 <= py < image.height && LitIn(image, px, py)
  }

  /** The first lit column from here on, or the width. */
  function FirstLit(image: Render, px: nat): nat
    requires px <= image.width
    decreases image.width - px
  {
    if px == image.width || ColumnLit(image, px) then px else FirstLit(image, px + 1)
  }

  /** How many digits the image shows, from where they start and end. */
  function DigitCount(image: Render): nat {
    var margin := image.width - FirstLit(image, 0) - 1;
    if margin < 0 then 0 else 3 * (margin / 30) + margin % 30 / 9
  }

  predicate ShowsGlyph(image: Render, glyph: Glyph, x: nat) {
    forall col, row :: 0 <= col < GLYPH_WIDTH && 0 <= row < GLYPH_HEIGHT ==>
      LitIn(image, x + col, 1 + row) == Bit(glyph, col, row)
  }

  /** The first digit from `d` on whose glyph the image shows at `x`; zero if there is none. */
  function DigitAt(image: Render, font: Font, x: nat, d: nat): (r: nat)
    requires d <= GLYPH_COUNT
    ensures r < 10
    decreases GLYPH_COUNT - d
  {
    if d == GLYPH_COUNT then 0
    else if ShowsGlyph(image, font[d], x) then d
    else DigitAt(image, font, x, d + 1)
  }

  function ReadText(image: Render, font: Font): (text: string)
    ensures IsNumeral(text)
  {
    var n := DigitCount(image);
    var start := FirstLit(image, 0);
    seq(n, j requires 0 <= j < n => DigitChar(DigitAt(image, font, DigitX(n, start, j), 0)))
  }

  /** The number an image shows. */
  function ReadNumber(image: Render, font: Font): nat {
    Value(ReadText(image, font))
  }

  // ---- Reading a picture ----

  lemma PictureLit(image: Render, font: Font, text: string, reserve: nat, px: nat, py: nat)
    requires IsNumeral(text) && IsPicture(image, font, text, reserve)
    requires px < image.width && py < image.height
    ensures LitIn(image, px, py) <==> Lit(font, text, StartX(|text|, reserve), |text|, px, py)
  {
    hide Lit, StartX, Width;
    assert PixelAt(image.pixels, image.width, px, py) == Ink(Lit(font, text, StartX(|text|, reserve), |text|, px, py));
  }

  /** In the box of digit `j` the picture shows its glyph and nothing else. */
  lemma PictureShowsGlyph(image: Render, font: Font, text: string, reserve: nat, j: nat)
    requires IsNumeral(text) && IsPicture(image, font, text, reserve) && j < |text|
    ensures ShowsGlyph(image, font[DigitValue(text[j])], DigitX(|text|, StartX(|text|, reserve), j))
  {
    var start := StartX(|text|, reserve);
    var x := DigitX(|text|, start, j);
    BoxInside(|text|, reserve, j);
    forall col, row | 0 <= col < GLYPH_WIDTH && 0 <= row < GLYPH_HEIGHT
      ensures LitIn(image, x + col, 1 + row) == Bit(font[DigitValue(text[j])], col, row)
    {
      PictureLit(image, font, text, reserve, x + col, 1 + row);
      OnlyOneLights(font, text, start, |text|, j, x + col, 1 + row);
    }
  }

  /** Two glyphs shown at one place have the same bits. */
  lemma ShownGlyphsAgree(image: Render, a: Glyph, b: Glyph, x: nat)
    requires ShowsGlyph(image, a, x) && ShowsGlyph(image, b, x)
    ensures SameBits(a, b)
  {
    forall col, row | 0 <= col < GLYPH_WIDTH && 0 <= row < GLYPH_HEIGHT
      ensures Bit(a, col, row) == Bit(b, col, row)
    {
      assert LitIn(image, x + col, 1 + row) == Bit(a, col, row);
    }
  }

  lemma {:induction false} ShownDigitIsRead(image: Render, font: Font, x: nat, d: nat, digit: nat)
    requires Legible(font) && d <= digit < GLYPH_COUNT && ShowsGlyph(image, font[digit], x)
    ensures DigitAt(image, font, x, d) == digit
    decreases digit - d
  {
    if d < digit {
      if ShowsGlyph(image, font[d], x) {
        ShownGlyphsAgree(image, font[d], font[digit], x);
      }
      ShownDigitIsRead(image, font, x, d + 1, digit);
    }
  }

  lemma {:induction false} FirstLitIs(image: Render, px: nat, first: nat)
    requires px <= first < image.width && ColumnLit(image, first)
    requires forall x :: px <= x < first ==> !ColumnLit(image, x)
    ensures FirstLit(image, px) == first
    decreases first - px
  {
    if px < first {
      FirstLitIs(image, px + 1, first);
    }
  }

  lemma NothingBefore(font: Font, text: string, start: nat, px: nat, py: nat)
    requires IsNumeral(text) && px < start
    ensures !Lit(font, text, start, |text|, px, py)
  {
    hide Bit;
    forall j | 0 <= j < |text|
      ensures !Lights(font, text, start, j, px, py)
    {
      BoxesApart(|text|, start, 0, j);
    }
  }

  lemma StartIsLit(image: Render, font: Font, text: string, reserve: nat)
    requires Legible(font) && IsNumeral(text) && text != "" && IsPicture(image, font, text, reserve)
    ensures StartX(|text|, reserve) < image.width && ColumnLit(image, StartX(|text|, reserve))
  {
    BoxInside(|text|, reserve, 0);
    PictureShowsGlyph(image, font, text, reserve, 0);
    var start, glyph := StartX(|text|, reserve), font[DigitValue(text[0])];
    assert DigitX(|text|, start, 0) == start;
    hide DigitX, StartX, Width;
    var row :| 0 <= row < GLYPH_HEIGHT && Bit(glyph, 0, row);
    hide Bit;
    assert LitIn(image, start + 0, 1 + row);
  }

  lemma DarkBefore(image: Render, font: Font, text: string, reserve: nat, px: nat)
    requires IsNumeral(text) && IsPicture(image, font, text, reserve)
    requires px < image.width && px < StartX(|text|, reserve)
    ensures !ColumnLit(image, px)
  {
    hide StartX, IsPicture, Lit;
    forall py | 0 <= py < image.height
      ensures !LitIn(image, px, py)
    {
      PictureLit(image, font, text, reserve, px, py);
      NothingBefore(font, text, StartX(|text|, reserve), px, py);
    }
  }

  /** The picture's first lit column is where its first digit starts. */
  lemma PictureStarts(image: Render, font: Font, text: string, reserve: nat)
    requires Legible(font) && IsNumeral(text) && text != "" && IsPicture(image, font, text, reserve)
    ensures FirstLit(image, 0) == StartX(|text|, reserve)
  {
    hide IsPicture, Legible, ColumnLit, StartX, FirstLit;
    StartIsLit(image, font, text, reserve);
    forall x | 0 <= x < StartX(|text|, reserve)
      ensures !ColumnLit(image, x)
    {
      DarkBefore(image, font, text, reserve, x);
    }
    FirstLitIs(image, 0, StartX(|text|, reserve));
  }

  /** A reserve the number fills changes nothing: it starts at the left padding, and the image is the one without. */
  lemma FilledReserveIsNone(a: Render, b: Render, font: Font, text: string, reserve: nat)
    requires Legible(font) && IsNumeral(text) && text != "" && reserve <= |text|
    requires IsPicture(a, font, text, reserve) && IsPicture(b, font, text, 0)
    ensures a == b && FirstLit(a, 0) == 1
  {
    PictureStarts(a, font, text, reserve);
    assert StartX(|text|, reserve) == StartX(|text|, 0) == 1 && Width(|text|, reserve) == Width(|text|, 0);
    PictureDetermined(a, b, font, text, reserve);
  }

  /** Start and width give the number of digits, whatever the reserve. */
  lemma MarginGivesDigits(digits: nat, reserve: nat)
    ensures var margin := Width(digits, reserve) - StartX(digits, reserve) - 1;
            margin >= 0 && 3 * (margin / 30) + margin % 30 / 9 == digits
  {
  }

  lemma PictureCount(image: Render, font: Font, text: string, reserve: nat)
    requires Legible(font) && IsNumeral(text) && text != "" && IsPicture(image, font, text, reserve)
    ensures FirstLit(image, 0) == StartX(|text|, reserve) && DigitCount(image) == |text|
  {
    PictureStarts(image, font, text, reserve);
    MarginGivesDigits(|text|, reserve);
  }

  /** A picture in a legible font is read as the numeral it was drawn from. */
  lemma PictureIsRead(image: Render, font: Font, text: string, reserve: nat)
    requires Legible(font) && IsNumeral(text) && text != "" && IsPicture(image, font, text, reserve)
    ensures ReadText(image, font) == text
  {
    PictureCount(image, font, text, reserve);
    hide IsPicture, DigitCount, FirstLit, DigitX, DigitAt, ShowsGlyph, Legible, StartX;
    var start := StartX(|text|, reserve);
    forall j | 0 <= j < |text|
      ensures ReadText(image, font)[j] == text[j]
    {
      PictureShowsGlyph(image, font, text, reserve, j);
      ShownDigitIsRead(image, font, DigitX(|text|, start, j), 0, DigitValue(text[j]));
    }
  }

  /** The image of a number says which number it is. */
  lemma NumberIsRead(image: Render, font: Font, number: nat, reserve: nat)
    requires Legible(font) && IsNumeral(ToText(number)) && IsPicture(image, font, ToText(number), reserve)
    ensures ReadNumber(image, font) == number
  {
    TextIsNumeral(number);
    PictureIsRead(image, font, ToText(number), reserve);
  }

  /** Distinct numbers never have the same image, even for different reserves. */
  lemma DistinctNumbersLookDistinct(image: Render, a: nat, reserveA: nat, b: nat, reserveB: nat)
    requires IsNumeral(ToText(a)) && IsPicture(image, GLYPH_BITMAPS, ToText(a), reserveA)
    requires IsNumeral(ToText(b)) && IsPicture(image, GLYPH_BITMAPS, ToText(b), reserveB)
    ensures a == b
  {
    GlyphsAreLegible();
    NumberIsRead(image, GLYPH_BITMAPS, a, reserveA);
    NumberIsRead(image, GLYPH_BITMAPS, b, reserveB);
  }

  /** Renders a number with the counter's glyphs: what each pixel is, and that the image can be read back. */
  method RenderSeparatedNumber(number: nat, reserveWidth: nat) returns (image: Render)
    ensures IsNumeral(ToText(number)) && IsPicture(image, GLYPH_BITMAPS, ToText(number), reserveWidth)
    ensures IsImageOf(image, GLYPH_BITMAPS, ToText(number), reserveWidth)
    ensures ReadNumber(image, GLYPH_BITMAPS) == number
  {
    image := RenderWith(GLYPH_BITMAPS, number, reserveWidth);
    GlyphsAreLegible();
    PictureInPixels(image, GLYPH_BITMAPS, ToText(number), reserveWidth);
    NumberIsRead(image, GLYPH_BITMAPS, number, reserveWidth);
  }
}
