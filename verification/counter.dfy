/**
 The counter image (src/counter.rs): grouped digits blitted into a flat RGBA buffer, proved equal
 to a picture that says for every pixel whether it is lit. Everything holds for any font; the
 counter's own comes in at the end.
 */
module Counters {
  import opened Wrappers
  import opened Bytes
  import opened Decimal
  import opened Fonts

  datatype Render = Render(width: nat, height: nat, pixels: seq<byte>)

  datatype Rgba = Rgba(r: byte, g: byte, b: byte, a: byte)

  /** The only two colours there are. */
  function Ink(lit: bool): Rgba {
    if lit then Rgba(0xFF, 0xFF, 0xFF, 0xFF) else Rgba(0, 0, 0, 0)
  }

  // ---- Layout ----

  const GROUP_SPACING: nat := 3

  function Max(a: nat, b: nat): nat {
    if a > b then a else b
  }

  function Width(digits: nat, reserve: nat): nat {
    2 + TextSize(Max(digits, reserve)).0 + GROUP_SPACING * Max(reserve / 3, digits / 3)
  }

  /** Where the first digit starts: what is missing of the reserve, in digits and in group spaces. */
  function StartX(digits: nat, reserve: nat): nat {
    1 + (if reserve > digits then TextSize(reserve - digits).0 else 0)
      + (if reserve / 3 > digits / 3 then (reserve / 3 - digits / 3) * GROUP_SPACING else 0)
  }

  /** Where digit `j` of a number starts, with a space before each group of three. */
  function DigitX(digits: nat, start: nat, j: nat): nat
    requires j < digits
  {
    start + 9 * j + GROUP_SPACING * ((digits - 1) / 3 - (digits - 1 - j) / 3)
  }

  // ---- The picture ----

  predicate InBox(x: nat, y: nat, px: nat, py: nat) {
    x <= px < x + GLYPH_WIDTH && y <= py < y + GLYPH_HEIGHT
  }

  /** The glyph box of digit `j` covers this pixel, and its bitmap has the bit set. */
  predicate Lights(font: Font, text: string, start: nat, j: nat, px: nat, py: nat)
    requires IsNumeral(text) && j < |text|
  {
    var x := DigitX(|text|, start, j);
    InBox(x, 1, px, py) && Bit(font[DigitValue(text[j])], px - x, py - 1)
  }

  /** One of the first `n` digits lights this pixel. */
  predicate Lit(font: Font, text: string, start: nat, n: nat, px: nat, py: nat)
    requires IsNumeral(text) && n <= |text|
  {
    exists j :: 0 <= j < n && Lights(font, text, start, j, px, py)
  }

  function PixelAt(pixels: seq<byte>, width: nat, px: nat, py: nat): Rgba
    requires 4 * (py * width + px) + 3 < |pixels|
  {
    var i := 4 * (py * width + px);
    Rgba(pixels[i], pixels[i + 1], pixels[i + 2], pixels[i + 3])
  }

  /** The image is the picture of this numeral: every pixel of it is what the picture says. */
  ghost predicate IsPicture(image: Render, font: Font, text: string, reserve: nat)
    requires IsNumeral(text)
  {
    && image.width == Width(|text|, reserve)
    && image.height == 2 + GLYPH_HEIGHT
    && |image.pixels| == 4 * (image.height * image.width)
    && forall px, py :: 0 <= px < image.width && 0 <= py < image.height ==>
         && 4 * (py * image.width + px) + 3 < |image.pixels|
         && PixelAt(image.pixels, image.width, px, py)
            == Ink(Lit(font, text, StartX(|text|, reserve), |text|, px, py))
  }

  // ---- Where the digits are ----

  /** Glyph boxes come from left to right and do not overlap. */
  lemma {:induction false} BoxesApart(digits: nat, start: nat, i: nat, j: nat)
    requires i <= j < digits
    ensures DigitX(digits, start, j) >= DigitX(digits, start, i) + 9 * (j - i)
  {
  }

  /** Digit `j` from the right starts 9 j + 3 (j / 3) pixels left of the units digit. */
  lemma FromTheRight(digits: nat, start: nat, j: nat)
    requires j < digits
    ensures DigitX(digits, start, digits - 1 - j) == DigitX(digits, start, digits - 1) - 9 * j - 3 * (j / 3)
  {
  }

  /**
   The number is right-aligned up to one group spacing: its last glyph ends two pixels before the
   edge, or five if the number of digits is a multiple of three.
   */
  lemma RightEdge(digits: nat, reserve: nat)
    requires digits > 0
    ensures DigitX(digits, StartX(digits, reserve), digits - 1) + GLYPH_WIDTH
         == Width(digits, reserve) - (if digits % 3 == 0 then 5 else 2)
  {
  }

  /** Every glyph box lies inside the image. */
  lemma BoxInside(digits: nat, reserve: nat, j: nat)
    requires j < digits
    ensures DigitX(digits, StartX(digits, reserve), j) + GLYPH_WIDTH <= Width(digits, reserve) - 2
  {
  }

  // ---- Groups of digits ----

  /** `rchunks(3)`: threes from the end, and what is left at the front last. */
  function RChunks(text: string): seq<string> {
    if text == "" then []
    else if |text| <= 3 then [text]
    else [text[|text| - 3..]] + RChunks(text[..|text| - 3])
  }

  function Reverse(s: seq<string>): seq<string> {
    if s == [] then [] else Reverse(s[1..]) + [s[0]]
  }

  function Groups(text: string): seq<string> {
    Reverse(RChunks(text))
  }

  function GroupCount(digits: nat): nat {
    (digits + 2) / 3
  }

  /** The digits before group `i`. */
  function GroupStart(digits: nat, i: nat): nat
    requires i <= GroupCount(digits)
  {
    if i == 0 then 0 else digits - 3 * (GroupCount(digits) - i)
  }

  function Group(text: string, i: nat): string
    requires i < GroupCount(|text|)
  {
    text[GroupStart(|text|, i)..GroupStart(|text|, i + 1)]
  }

  /** A longer text has the groups of its front, and its last three characters. */
  lemma LastGroup(text: string)
    requires |text| > 3
    ensures Groups(text) == Groups(text[..|text| - 3]) + [text[|text| - 3..]]
  {
  }

  lemma FirstGroup(text: string)
    requires 0 < |text| <= 3
    ensures Groups(text) == [text]
  {
    var one := [text];
    assert RChunks(text) == one && one[1..] == [];
    assert Reverse(one[1..]) == [];
    assert [] + [text] == one;
  }

  lemma GroupOfFront(text: string, i: nat)
    requires |text| > 3 && i < GroupCount(|text| - 3)
    ensures Group(text, i) == Group(text[..|text| - 3], i)
  {
    var front := text[..|text| - 3];
    assert GroupCount(|text|) == GroupCount(|front|) + 1;
    assert GroupStart(|text|, i) == GroupStart(|front|, i) && GroupStart(|text|, i + 1) == GroupStart(|front|, i + 1);
  }

  lemma LastGroupEnds(text: string)
    requires |text| > 3
    ensures GroupCount(|text|) == GroupCount(|text| - 3) + 1
    ensures Group(text, GroupCount(|text| - 3)) == text[|text| - 3..]
  {
  }

  /** The groups cut the text into threes from the right. */
  lemma {:induction false} GroupsCut(text: string)
    ensures |Groups(text)| == GroupCount(|text|)
    ensures forall i :: 0 <= i < |Groups(text)| ==> Groups(text)[i] == Group(text, i)
  {
    if text == "" {
    } else if |text| <= 3 {
      hide Groups;
      FirstGroup(text);
      assert Group(text, 0) == text;
    } else {
      hide Groups;
      var front := text[..|text| - 3];
      LastGroup(text);
      LastGroupEnds(text);
      GroupsCut(front);
      hide Group, GroupCount;
      forall i | 0 <= i < |Groups(text)|
        ensures Groups(text)[i] == Group(text, i)
      {
        if i < |Groups(front)| {
          GroupOfFront(text, i);
        }
      }
    }
  }

  function Concat(groups: seq<string>): string {
    if groups == [] then "" else groups[0] + Concat(groups[1..])
  }

  lemma GroupThenRest(text: string, i: nat)
    requires i < GroupCount(|text|)
    ensures text[GroupStart(|text|, i)..] == Group(text, i) + text[GroupStart(|text|, i + 1)..]
  {
  }

  lemma {:induction false} ConcatFrom(text: string, i: nat)
    requires i <= GroupCount(|text|) == |Groups(text)|
    ensures Concat(Groups(text)[i..]) == text[GroupStart(|text|, i)..]
    decreases GroupCount(|text|) - i
  {
    GroupsCut(text);
    hide Groups;
    if i < GroupCount(|text|) {
      ConcatFrom(text, i + 1);
      GroupThenRest(text, i);
      hide GroupStart, GroupCount, Group;
      assert Groups(text)[i..][0] == Group(text, i);
      assert Groups(text)[i..][1..] == Groups(text)[i + 1..];
    }
  }

  /** The groups are the text, all of length three but the first, which is no longer and not empty. */
  lemma GroupShapes(text: string)
    ensures Concat(Groups(text)) == text
    ensures forall i :: 0 < i < |Groups(text)| ==> |Groups(text)[i]| == 3
    ensures Groups(text) != [] ==> 1 <= |Groups(text)[0]| <= 3
  {
    GroupsCut(text);
    ConcatFrom(text, 0);
    assert Groups(text)[0..] == Groups(text);
    forall i | 0 < i < |Groups(text)|
      ensures |Groups(text)[i]| == 3
    {
      assert Groups(text)[i] == Group(text, i);
    }
  }

  // ---- The buffer ----

  lemma InBounds(width: nat, height: nat, px: nat, py: nat)
    requires px < width && py < height
    ensures py * width + px < height * width
  {
    assert py * width + width == (py + 1) * width <= height * width;
  }

  lemma RowMajorIsInjective(width: nat, px: nat, py: nat, qx: nat, qy: nat)
    requires px < width && qx < width
    ensures py * width + px == qy * width + qx <==> px == qx && py == qy
  {
    if py < qy {
      assert (py + 1) * width <= qy * width;
    } else if qy < py {
      assert (qy + 1) * width <= py * width;
    }
  }

  /** A buffer of this size, in four-byte pixels. */
  predicate IsBuffer(buffer: array<byte>, width: nat, height: nat) {
    buffer.Length == 4 * (height * width)
  }

  function Pixel(buffer: array<byte>, width: nat, height: nat, px: nat, py: nat): Rgba
    reads buffer
    requires IsBuffer(buffer, width, height) && px < width && py < height
  {
    InBounds(width, height, px, py);
    PixelAt(buffer[..], width, px, py)
  }

  /** The p-th pixel of a buffer, however wide the image is. */
  function PixelOf(buffer: array<byte>, p: nat): Rgba
    reads buffer
    requires 4 * p + 3 < buffer.Length
  {
    Rgba(buffer[4 * p], buffer[4 * p + 1], buffer[4 * p + 2], buffer[4 * p + 3])
  }

  /** Writes the four bytes of one pixel and no others. */
  method WritePixel(buffer: array<byte>, width: nat, glyphByte: byte, px: nat, py: nat)
    requires 4 * (py * width + px) + 3 < buffer.Length
    modifies buffer
    ensures forall p: nat :: 4 * p + 3 < buffer.Length ==>
              PixelOf(buffer, p) == if p == py * width + px then Ink(glyphByte != 0) else old(PixelOf(buffer, p))
    ensures forall b :: 4 * (buffer.Length / 4) <= b < buffer.Length ==> buffer[b] == old(buffer[b])
  {
    var destIndex := (py * width + px) * 4;
    match glyphByte {
      case 0 =>
        buffer[destIndex] := 0x00;
        buffer[destIndex + 1] := 0x00;
        buffer[destIndex + 2] := 0x00;
        buffer[destIndex + 3] := 0x00;
      case _ =>
        buffer[destIndex] := 0xFF;
        buffer[destIndex + 1] := 0xFF;
        buffer[destIndex + 2] := 0xFF;
        buffer[destIndex + 3] := 0xFF;
    }
  }

  /** Row `row` of a glyph at (x, y) covers the p-th pixel. A row that sticks out goes on in the next one. */
  predicate Covers(width: nat, x: nat, y: nat, row: nat, p: nat) {
    (y + row) * width + x <= p < (y + row) * width + x + GLYPH_WIDTH
  }

  /** The last of the first `rows` rows of a glyph at (x, y) that covers the p-th pixel. */
  function LastRow(width: nat, x: nat, y: nat, rows: nat, p: nat): (r: Option<nat>)
    ensures r.None? ==> forall row :: 0 <= row < rows ==> !Covers(width, x, y, row, p)
    ensures r.Some? ==> r.value < rows && Covers(width, x, y, r.value, p)
    ensures r.Some? ==> forall row :: r.value < row < rows ==> !Covers(width, x, y, row, p)
  {
    if rows == 0 then None
    else if Covers(width, x, y, rows - 1, p) then Some(rows - 1)
    else LastRow(width, x, y, rows - 1, p)
  }

  /** What the p-th pixel is after these rows of the glyph are drawn over what it was before. */
  function GlyphPixel(width: nat, glyph: Glyph, x: nat, y: nat, rows: nat, p: nat, before: Rgba): Rgba
    requires rows <= GLYPH_HEIGHT
  {
    match LastRow(width, x, y, rows, p)
    case None => before
    case Some(row) => Ink(Bit(glyph, p - ((y + row) * width + x), row))
  }

  /** The last byte a glyph writes is inside the buffer, and so are all the others. */
  predicate GlyphFits(length: nat, width: nat, x: nat, y: nat) {
    4 * ((y + GLYPH_HEIGHT - 1) * width + x + GLYPH_WIDTH - 1) + 3 < length
  }

  lemma ByteInside(length: nat, width: nat, x: nat, y: nat, row: nat, col: nat)
    requires GlyphFits(length, width, x, y) && row < GLYPH_HEIGHT && col < GLYPH_WIDTH
    ensures 4 * ((y + row) * width + (x + col)) + 3 < length
  {
    assert (y + row) * width <= (y + GLYPH_HEIGHT - 1) * width;
  }

  lemma NoRows(width: nat, glyph: Glyph, x: nat, y: nat)
    ensures forall p: nat, before :: GlyphPixel(width, glyph, x, y, 0, p, before) == before
  {
  }

  lemma OneMoreRow(width: nat, glyph: Glyph, x: nat, y: nat, row: nat, p: nat, before: Rgba)
    requires row < GLYPH_HEIGHT
    ensures var start := (y + row) * width + x;
            GlyphPixel(width, glyph, x, y, row + 1, p, before)
            == if start <= p < start + GLYPH_WIDTH then Ink(Bit(glyph, p - start, row))
               else GlyphPixel(width, glyph, x, y, row, p, before)
  {
  }

  /** Blits a glyph: every pixel shows the last row of the glyph that covers it, or is as it was. */
  method BlitGlyphInto(buffer: array<byte>, width: nat, glyph: Glyph, x: nat, y: nat)
    requires GlyphFits(buffer.Length, width, x, y)
    modifies buffer
    ensures forall p: nat :: 4 * p + 3 < buffer.Length ==>
              PixelOf(buffer, p) == GlyphPixel(width, glyph, x, y, GLYPH_HEIGHT, p, old(PixelOf(buffer, p)))
    ensures forall b :: 4 * (buffer.Length / 4) <= b < buffer.Length ==> buffer[b] == old(buffer[b])
  {
    hide GlyphPixel;
    NoRows(width, glyph, x, y);
    for row := 0 to GLYPH_HEIGHT
      invariant forall p: nat :: 4 * p + 3 < buffer.Length ==>
                  PixelOf(buffer, p) == GlyphPixel(width, glyph, x, y, row, p, old(PixelOf(buffer, p)))
      invariant forall b :: 4 * (buffer.Length / 4) <= b < buffer.Length ==> buffer[b] == old(buffer[b])
    {
      ghost var start := (y + row) * width + x;
      for col := 0 to GLYPH_WIDTH
        invariant forall p: nat :: 4 * p + 3 < buffer.Length ==>
                    PixelOf(buffer, p)
                    == if start <= p < start + col then Ink(Bit(glyph, p - start, row))
                       else GlyphPixel(width, glyph, x, y, row, p, old(PixelOf(buffer, p)))
        invariant forall b :: 4 * (buffer.Length / 4) <= b < buffer.Length ==> buffer[b] == old(buffer[b])
      {
        ByteInside(buffer.Length, width, x, y, row, col);
        assert (y + row) * width + (x + col) == start + col;
        WritePixel(buffer, width, glyph[row * GLYPH_WIDTH + col], x + col, y + row);
      }
      forall p: nat | 4 * p + 3 < buffer.Length
        ensures PixelOf(buffer, p) == GlyphPixel(width, glyph, x, y, row + 1, p, old(PixelOf(buffer, p)))
      {
        OneMoreRow(width, glyph, x, y, row, p, old(PixelOf(buffer, p)));
      }
    }
  }

  predicate AreDigits(ds: seq<nat>) {
    forall i :: 0 <= i < |ds| ==> ds[i] < GLYPH_COUNT
  }

  /** The values of the digits of a text; other characters are passed over. */
  function Digits(text: string): (ds: seq<nat>)
    ensures AreDigits(ds)
  {
    if text == "" then []
    else
      var last := text[|text| - 1];
      Digits(text[..|text| - 1]) + (if IsDigit(last) then [DigitValue(last)] else [])
  }

  /** A character that is a digit is drawn as that digit, and any other not at all. */
  lemma DigitsOfOne(c: char)
    ensures Digits([c]) == if '0' <= c <= '9' then [c as int - '0' as int] else []
  {
    assert [c][..0] == "" && Digits("") == [];
  }

  /** The characters of a text are taken one by one, in order. */
  lemma {:induction false} DigitsInOrder(a: string, b: string)
    ensures Digits(a + b) == Digits(a) + Digits(b)
  {
    if b == "" {
      assert a + b == a && Digits(a) + [] == Digits(a);
    } else {
      hide Digits, IsDigit, DigitValue, AreDigits;
      var front, last := b[..|b| - 1], b[|b| - 1];
      DigitsInOrder(a, front);
      DigitsOneMore(a + front, last);
      DigitsOneMore(front, last);
      assert (a + front) + [last] == a + b && front + [last] == b;
      Associate(Digits(a), Digits(front), Digits([last]));
    }
  }

  lemma DigitsOneMore(text: string, c: char)
    ensures Digits(text + [c]) == Digits(text) + Digits([c])
  {
    assert (text + [c])[..|text|] == text;
    DigitsOfOne(c);
  }

  lemma Associate(a: seq<nat>, b: seq<nat>, c: seq<nat>)
    ensures (a + b) + c == a + (b + c)
  {
  }

  lemma {:induction false} DigitsOfNumeral(text: string)
    requires IsNumeral(text)
    ensures |Digits(text)| == |text|
    ensures forall i :: 0 <= i < |text| ==> Digits(text)[i] == DigitValue(text[i])
  {
    if text != "" {
      DigitsOfNumeral(text[..|text| - 1]);
    }
  }

  /** What the p-th pixel is after a line of glyphs is drawn one kern apart over what it was before. */
  function LinePixel(width: nat, font: Font, ds: seq<nat>, x: nat, y: nat, p: nat, before: Rgba): Rgba
    requires AreDigits(ds)
  {
    if ds == [] then before
    else
      var n := |ds| - 1;
      var under := LinePixel(width, font, ds[..n], x, y, p, before);
      GlyphPixel(width, font[ds[n]], x + 9 * n, y, GLYPH_HEIGHT, p, under)
  }

  /** The last of the glyphs of a line fits the buffer, and so do all the others. */
  predicate LineFits(length: nat, width: nat, n: nat, x: nat, y: nat) {
    n > 0 ==> GlyphFits(length, width, x + 9 * (n - 1), y)
  }

  predicate GlyphCovers(width: nat, x: nat, y: nat, p: nat) {
    exists row :: 0 <= row < GLYPH_HEIGHT && Covers(width, x, y, row, p)
  }

  /** Some row of digit `j` of a line at (x, y) covers the p-th pixel. */
  predicate DigitCovers(width: nat, x: nat, y: nat, j: nat, p: nat) {
    GlyphCovers(width, x + 9 * j, y, p)
  }

  lemma LinePixelOneMore(width: nat, font: Font, ds: seq<nat>, d: nat, x: nat, y: nat, p: nat, before: Rgba)
    requires AreDigits(ds) && d < GLYPH_COUNT
    ensures LinePixel(width, font, ds + [d], x, y, p, before)
         == GlyphPixel(width, font[d], x + 9 * |ds|, y, GLYPH_HEIGHT, p,
                       LinePixel(width, font, ds, x, y, p, before))
  {
    assert (ds + [d])[..|ds|] == ds;
  }

  /** A glyph hides what was there where it covers, and nowhere else. */
  lemma GlyphHides(width: nat, glyph: Glyph, x: nat, y: nat, p: nat, a: Rgba, b: Rgba)
    ensures var drawn := GlyphPixel(width, glyph, x, y, GLYPH_HEIGHT, p, a);
            if GlyphCovers(width, x, y, p) then drawn == GlyphPixel(width, glyph, x, y, GLYPH_HEIGHT, p, b)
            else drawn == a
  {
    hide Covers;
  }

  /** A pixel of the line shows the last digit that covers it, and is as it was if none does. */
  lemma {:induction false} LinePixelShowsLast(width: nat, font: Font, ds: seq<nat>, x: nat, y: nat, p: nat,
                                              before: Rgba)
    returns (last: Option<nat>)
    requires AreDigits(ds)
    ensures last.None? ==>
              && (forall j :: 0 <= j < |ds| ==> !DigitCovers(width, x, y, j, p))
              && LinePixel(width, font, ds, x, y, p, before) == before
    ensures last.Some? ==>
              && last.value < |ds| && DigitCovers(width, x, y, last.value, p)
              && (forall j :: last.value < j < |ds| ==> !DigitCovers(width, x, y, j, p))
              && LinePixel(width, font, ds, x, y, p, before)
                 == GlyphPixel(width, font[ds[last.value]], x + 9 * last.value, y, GLYPH_HEIGHT, p, before)
  {
    hide GlyphPixel, GlyphCovers;
    if ds == [] {
      last := None;
    } else {
      var n := |ds| - 1;
      var under := LinePixel(width, font, ds[..n], x, y, p, before);
      GlyphHides(width, font[ds[n]], x + 9 * n, y, p, under, before);
      if GlyphCovers(width, x + 9 * n, y, p) {
        last := Some(n);
      } else {
        last := LinePixelShowsLast(width, font, ds[..n], x, y, p, before);
      }
    }
  }

  /** Blits the digits of a text next to one another, the later ones over the earlier ones. */
  method BlitInto(buffer: array<byte>, width: nat, font: Font, text: string, offsetX: nat, offsetY: nat)
    requires LineFits(buffer.Length, width, |Digits(text)|, offsetX, offsetY)
    modifies buffer
    ensures forall p: nat :: 4 * p + 3 < buffer.Length ==>
              PixelOf(buffer, p)
              == LinePixel(width, font, Digits(text), offsetX, offsetY, p, old(PixelOf(buffer, p)))
    ensures forall b :: 4 * (buffer.Length / 4) <= b < buffer.Length ==> buffer[b] == old(buffer[b])
  {
    var x := offsetX;
    for i := 0 to |text|
      invariant x == offsetX + 9 * |Digits(text[..i])|
      invariant forall p: nat :: 4 * p + 3 < buffer.Length ==>
                  PixelOf(buffer, p)
                  == LinePixel(width, font, Digits(text[..i]), offsetX, offsetY, p, old(PixelOf(buffer, p)))
      invariant forall b :: 4 * (buffer.Length / 4) <= b < buffer.Length ==> buffer[b] == old(buffer[b])
    {
      assert text[..i + 1][..i] == text[..i];
      DigitsOfPrefix(text, i + 1);
      var glyph := GlyphForChar(font, text[i]);
      if glyph.Some? {
        var d := DigitValue(text[i]);
        assert Digits(text[..i + 1]) == Digits(text[..i]) + [d];
        label Before:
        BlitGlyphInto(buffer, width, glyph.value, x, offsetY);
        forall p: nat | 4 * p + 3 < buffer.Length
          ensures PixelOf(buffer, p)
               == LinePixel(width, font, Digits(text[..i + 1]), offsetX, offsetY, p, old(PixelOf(buffer, p)))
        {
          LinePixelOneMore(width, font, Digits(text[..i]), d, offsetX, offsetY, p, old(PixelOf(buffer, p)));
          assert PixelOf(buffer, p)
              == GlyphPixel(width, font[d], x, offsetY, GLYPH_HEIGHT, p, old@Before(PixelOf(buffer, p)));
        }
        x := x + GLYPH_WIDTH + GLYPH_KERN;
      } else {
        assert Digits(text[..i + 1]) == Digits(text[..i]);
      }
    }
    assert text[..|text|] == text;
  }

  lemma {:induction false} DigitsOfPrefix(text: string, i: nat)
    requires i <= |text|
    ensures |Digits(text[..i])| <= |Digits(text)|
    decreases |text| - i
  {
    if i < |text| {
      assert text[..i + 1][..i] == text[..i];
      DigitsOfPrefix(text, i + 1);
    } else {
      assert text[..i] == text;
    }
  }

  // ---- Lines that fit ----

  /** This pixel lies in a glyph box of a line of `n` digits, one kern apart. */
  predicate InLine(x: nat, y: nat, n: nat, px: nat, py: nat) {
    && x <= px && (px - x) / 9 < n && (px - x) % 9 < GLYPH_WIDTH
    && y <= py < y + GLYPH_HEIGHT
  }

  predicate LineBit(font: Font, ds: seq<nat>, x: nat, y: nat, px: nat, py: nat)
    requires InLine(x, y, |ds|, px, py) && AreDigits(ds)
  {
    Bit(font[ds[(px - x) / 9]], (px - x) % 9, py - y)
  }

  /** A glyph that does not stick out covers its box and nothing else. */
  lemma CoversItsBox(width: nat, x: nat, y: nat, row: nat, px: nat, py: nat)
    requires x + GLYPH_WIDTH <= width && px < width && row < GLYPH_HEIGHT
    ensures Covers(width, x, y, row, py * width + px) <==> py == y + row && x <= px < x + GLYPH_WIDTH
  {
    if Covers(width, x, y, row, py * width + px) {
      RowMajorIsInjective(width, py * width + px - (y + row) * width, y + row, px, py);
    }
  }

  lemma GlyphInItsBox(width: nat, glyph: Glyph, x: nat, y: nat, px: nat, py: nat, before: Rgba)
    requires x + GLYPH_WIDTH <= width && px < width
    ensures GlyphPixel(width, glyph, x, y, GLYPH_HEIGHT, py * width + px, before)
         == if InBox(x, y, px, py) then Ink(Bit(glyph, px - x, py - y)) else before
  {
    var p := py * width + px;
    var last := LastRow(width, x, y, GLYPH_HEIGHT, p);
    if InBox(x, y, px, py) {
      CoversItsBox(width, x, y, py - y, px, py);
    }
    if last.Some? {
      CoversItsBox(width, x, y, last.value, px, py);
    }
  }

  /** A line that does not stick out is drawn into the boxes of its digits. */
  lemma {:induction false} LineInItsBoxes(width: nat, font: Font, ds: seq<nat>, x: nat, y: nat, px: nat, py: nat,
                                          before: Rgba)
    requires x + 9 * |ds| <= width + GLYPH_KERN && px < width && AreDigits(ds)
    ensures LinePixel(width, font, ds, x, y, py * width + px, before)
         == if InLine(x, y, |ds|, px, py) then Ink(LineBit(font, ds, x, y, px, py)) else before
  {
    if ds != [] {
      var n := |ds| - 1;
      LineInItsBoxes(width, font, ds[..n], x, y, px, py, before);
      var under := LinePixel(width, font, ds[..n], x, y, py * width + px, before);
      GlyphInItsBox(width, font[ds[n]], x + 9 * n, y, px, py, under);
    }
  }

  lemma LineFitsInside(width: nat, height: nat, n: nat, x: nat, y: nat)
    requires x + 9 * n <= width + GLYPH_KERN && y + GLYPH_HEIGHT <= height
    ensures LineFits(4 * (height * width), width, n, x, y)
  {
    if n > 0 {
      InBounds(width, height, x + 9 * (n - 1) + GLYPH_WIDTH - 1, y + GLYPH_HEIGHT - 1);
    }
  }

  // ---- Rendering ----

  /** The digits of a group stand one kern apart from where the group starts. */
  lemma GroupX(digits: nat, start: nat, i: nat, j: nat)
    requires i < GroupCount(digits) && GroupStart(digits, i) <= j < GroupStart(digits, i + 1)
    ensures DigitX(digits, start, j) == LineX(digits, start, i) + 9 * (j - GroupStart(digits, i))
  {
  }

  /** Where group `i` starts. */
  function LineX(digits: nat, start: nat, i: nat): nat
    requires i <= GroupCount(digits)
  {
    start + 9 * GroupStart(digits, i) + GROUP_SPACING * i
  }

  lemma OnlyThisDigit(digits: nat, start: nat, j: nat, k: nat, px: nat, py: nat)
    requires j < digits && k < digits && k != j
    requires InBox(DigitX(digits, start, j), 1, px, py)
    ensures !InBox(DigitX(digits, start, k), 1, px, py)
  {
  }

  lemma InsideLine(x: nat, y: nat, n: nat, px: nat, py: nat)
    requires InLine(x, y, n, px, py)
    ensures var j := (px - x) / 9;
            j < n && InBox(x + 9 * j, y, px, py) && px - (x + 9 * j) == (px - x) % 9
  {
  }

  /** The digit that a place in the line of a group belongs to. */
  lemma LightsInLine(font: Font, text: string, start: nat, i: nat, px: nat, py: nat) returns (j: nat)
    requires IsNumeral(text) && i < GroupCount(|text|) && |Digits(Group(text, i))| == |Group(text, i)|
    requires InLine(LineX(|text|, start, i), 1, |Group(text, i)|, px, py)
    ensures j < GroupStart(|text|, i + 1) <= |text| && InBox(DigitX(|text|, start, j), 1, px, py)
    ensures Lights(font, text, start, j, px, py)
            <==> LineBit(font, Digits(Group(text, i)), LineX(|text|, start, i), 1, px, py)
  {
    var from, x := GroupStart(|text|, i), LineX(|text|, start, i);
    j := from + (px - x) / 9;
    InsideLine(x, 1, |Group(text, i)|, px, py);
    DigitsOfNumeral(Group(text, i));
    GroupX(|text|, start, i, j);
    hide InLine, DigitX, LineX, GroupStart, Bit;
    assert Digits(Group(text, i))[j - from] == DigitValue(text[j]);
  }

  lemma LitInLine(font: Font, text: string, start: nat, i: nat, px: nat, py: nat)
    requires IsNumeral(text) && i < GroupCount(|text|) && |Digits(Group(text, i))| == |Group(text, i)|
    requires InLine(LineX(|text|, start, i), 1, |Group(text, i)|, px, py)
    ensures Lit(font, text, start, GroupStart(|text|, i + 1), px, py)
            <==> LineBit(font, Digits(Group(text, i)), LineX(|text|, start, i), 1, px, py)
  {
    var j := LightsInLine(font, text, start, i, px, py);
    hide Lit, LineBit, Lights, DigitX, LineX;
    OnlyOneLights(font, text, start, GroupStart(|text|, i + 1), j, px, py);
  }

  lemma OnlyOneLights(font: Font, text: string, start: nat, n: nat, j: nat, px: nat, py: nat)
    requires IsNumeral(text) && j < n <= |text| && InBox(DigitX(|text|, start, j), 1, px, py)
    ensures Lit(font, text, start, n, px, py) <==> Lights(font, text, start, j, px, py)
  {
    hide DigitX, Bit;
    forall k | 0 <= k < n && k != j
      ensures !Lights(font, text, start, k, px, py)
    {
      OnlyThisDigit(|text|, start, j, k, px, py);
    }
  }

  lemma OutsideLine(x: nat, y: nat, j: nat, n: nat, px: nat, py: nat)
    requires j < n && !InLine(x, y, n, px, py)
    ensures !InBox(x + 9 * j, y, px, py)
  {
  }

  lemma LitOutsideLine(font: Font, text: string, start: nat, i: nat, px: nat, py: nat)
    requires IsNumeral(text) && i < GroupCount(|text|)
    requires !InLine(LineX(|text|, start, i), 1, GroupStart(|text|, i + 1) - GroupStart(|text|, i), px, py)
    ensures Lit(font, text, start, GroupStart(|text|, i + 1), px, py)
            <==> Lit(font, text, start, GroupStart(|text|, i), px, py)
  {
    hide Bit, DigitX, LineX;
    forall j | GroupStart(|text|, i) <= j < GroupStart(|text|, i + 1)
      ensures !Lights(font, text, start, j, px, py)
    {
      GroupX(|text|, start, i, j);
      OutsideLine(LineX(|text|, start, i), 1, j - GroupStart(|text|, i),
                  GroupStart(|text|, i + 1) - GroupStart(|text|, i), px, py);
    }
  }

  /** The pixels of the buffer are the picture of the first `n` digits. */
  ghost predicate Shows(buffer: array<byte>, width: nat, height: nat, font: Font, text: string, start: nat, n: nat)
    reads buffer
    requires IsBuffer(buffer, width, height) && IsNumeral(text) && n <= |text|
  {
    forall px, py :: 0 <= px < width && 0 <= py < height ==>
      Pixel(buffer, width, height, px, py) == Ink(Lit(font, text, start, n, px, py))
  }

  /** A line that holds a group, drawn over the digits before it, shows the digits with the group. */
  lemma GroupPixel(width: nat, font: Font, text: string, start: nat, i: nat, px: nat, py: nat)
    requires IsNumeral(text) && i < GroupCount(|text|) && px < width
    requires LineX(|text|, start, i) + 9 * |Group(text, i)| <= width + GLYPH_KERN
    ensures LinePixel(width, font, Digits(Group(text, i)), LineX(|text|, start, i), 1, py * width + px,
                      Ink(Lit(font, text, start, GroupStart(|text|, i), px, py)))
         == Ink(Lit(font, text, start, GroupStart(|text|, i + 1), px, py))
  {
    hide Lit, LineBit, LinePixel;
    var x, ds := LineX(|text|, start, i), Digits(Group(text, i));
    DigitsOfNumeral(Group(text, i));
    LineInItsBoxes(width, font, ds, x, 1, px, py, Ink(Lit(font, text, start, GroupStart(|text|, i), px, py)));
    if InLine(x, 1, |ds|, px, py) {
      LitInLine(font, text, start, i, px, py);
    } else {
      LitOutsideLine(font, text, start, i, px, py);
    }
  }

  /** Blitting one group after the digits before it adds the digits of the group to the picture. */
  method BlitGroup(buffer: array<byte>, width: nat, ghost height: nat, font: Font, group: string, x: nat,
                   ghost text: string, ghost start: nat, ghost i: nat)
    requires IsBuffer(buffer, width, height) && height >= 1 + GLYPH_HEIGHT
    requires IsNumeral(text) && i < GroupCount(|text|) && group == Group(text, i)
    requires x == LineX(|text|, start, i) && x + 9 * |group| <= width + GLYPH_KERN
    requires Shows(buffer, width, height, font, text, start, GroupStart(|text|, i))
    modifies buffer
    ensures Shows(buffer, width, height, font, text, start, GroupStart(|text|, i + 1))
  {
    DigitsOfNumeral(group);
    hide Lit, LinePixel, LineX;
    LineFitsInside(width, height, |group|, x, 1);
    BlitInto(buffer, width, font, group, x, 1);
    forall px, py | 0 <= px < width && 0 <= py < height
      ensures Pixel(buffer, width, height, px, py) == Ink(Lit(font, text, start, GroupStart(|text|, i + 1), px, py))
    {
      InBounds(width, height, px, py);
      assert old(Pixel(buffer, width, height, px, py)) == old(PixelOf(buffer, py * width + px));
      GroupPixel(width, font, text, start, i, px, py);
    }
  }

  lemma GroupInside(digits: nat, reserve: nat, i: nat)
    requires i < GroupCount(digits)
    ensures var n := GroupStart(digits, i + 1) - GroupStart(digits, i);
            LineX(digits, StartX(digits, reserve), i) + 9 * n <= Width(digits, reserve) - 1
  {
    var last := GroupStart(digits, i + 1) - 1;
    GroupX(digits, StartX(digits, reserve), i, last);
    BoxInside(digits, reserve, last);
  }

  /** Renders a number in groups of three digits, with this font. */
  method RenderWith(font: Font, number: nat, reserveWidth: nat) returns (image: Render)
    ensures IsNumeral(ToText(number))
    ensures IsPicture(image, font, ToText(number), reserveWidth)
  {
    var text := ToText(number);
    TextIsNumeral(number);
    var groups := Groups(text);
    GroupsCut(text);
    hide Groups, Lit, ToText;
    var size := TextSize(Max(|text|, reserveWidth));
    var width := 2 + size.0 + GROUP_SPACING * Max(reserveWidth / 3, |text| / 3);
    var height := 2 + size.1;
    var pixels := new byte[4 * (height * width)](_ => 0);
    var start := StartX(|text|, reserveWidth);
    var x := start;
    BlankShowsNothing(pixels, width, height, font, text, start);
    for i := 0 to |groups|
      invariant x == LineX(|text|, start, i)
      invariant Shows(pixels, width, height, font, text, start, GroupStart(|text|, i))
    {
      GroupInside(|text|, reserveWidth, i);
      BlitGroup(pixels, width, height, font, groups[i], x, text, start, i);
      x := x + TextSize(|groups[i]|).0 + GROUP_SPACING;
    }
    image := Render(width, height, pixels[..]);
    ShownIsPicture(pixels, width, font, text, reserveWidth);
  }

  lemma BlankShowsNothing(buffer: array<byte>, width: nat, height: nat, font: Font, text: string, start: nat)
    requires IsBuffer(buffer, width, height) && IsNumeral(text)
    requires forall i :: 0 <= i < buffer.Length ==> buffer[i] == 0
    ensures Shows(buffer, width, height, font, text, start, 0)
  {
    forall px, py | 0 <= px < width && 0 <= py < height
      ensures Pixel(buffer, width, height, px, py) == Ink(false)
    {
      InBounds(width, height, px, py);
    }
  }

  lemma ShownIsPicture(buffer: array<byte>, width: nat, font: Font, text: string, reserve: nat)
    requires IsBuffer(buffer, width, 2 + GLYPH_HEIGHT) && IsNumeral(text) && width == Width(|text|, reserve)
    requires Shows(buffer, width, 2 + GLYPH_HEIGHT, font, text, StartX(|text|, reserve), |text|)
    ensures IsPicture(Render(width, 2 + GLYPH_HEIGHT, buffer[..]), font, text, reserve)
  {
    hide Lit, Width, StartX;
    var height := 2 + GLYPH_HEIGHT;
    forall px, py | 0 <= px < width && 0 <= py < height
      ensures 4 * (py * width + px) + 3 < |buffer[..]|
      ensures PixelAt(buffer[..], width, px, py) == Ink(Lit(font, text, StartX(|text|, reserve), |text|, px, py))
    {
      InBounds(width, height, px, py);
      assert Pixel(buffer, width, height, px, py) == Ink(Lit(font, text, StartX(|text|, reserve), |text|, px, py));
    }
  }
}
