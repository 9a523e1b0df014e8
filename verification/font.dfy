/**
 The glyphs of the counter (src/counter.rs, lines 96 to 349): eight by sixteen pixels in row-major
 order, a nonzero byte for a lit pixel.
 */
module Fonts {
  import opened Wrappers
  import opened Bytes
  import Decimal

  const GLYPH_WIDTH: nat := 8
  const GLYPH_HEIGHT: nat := 16
  const GLYPH_SIZE: nat := GLYPH_WIDTH * GLYPH_HEIGHT
  const GLYPH_KERN: nat := 1
  const GLYPH_COUNT: nat := 10

  type Glyph = g: seq<byte> | |g| == GLYPH_SIZE witness seq(GLYPH_SIZE, _ => 0)
  type Font = f: seq<Glyph> | |f| == GLYPH_COUNT witness seq<Glyph>(GLYPH_COUNT, _ => BLANK)

  const BLANK: Glyph := seq(GLYPH_SIZE, _ => 0)

  function GlyphForChar(font: Font, c: char): Option<Glyph> {
    if Decimal.IsDigit(c) then Some(font[Decimal.DigitValue(c)]) else None
  }

  /** The size in pixels of a text of this many characters. */
  function TextSize(charCount: nat): (nat, nat) {
    (charCount * (GLYPH_WIDTH + GLYPH_KERN), GLYPH_HEIGHT)
  }

  predicate Bit(glyph: Glyph, col: nat, row: nat)
    requires col < GLYPH_WIDTH && row < GLYPH_HEIGHT
  {
    glyph[row * GLYPH_WIDTH + col] != 0
  }

  /** Two glyphs have the same lit pixels. */
  predicate SameBits(a: Glyph, b: Glyph) {
    forall col, row :: 0 <= col < GLYPH_WIDTH && 0 <= row < GLYPH_HEIGHT ==> Bit(a, col, row) == Bit(b, col, row)
  }

  predicate StartsAtFirstColumn(glyph: Glyph) {
    exists row :: 0 <= row < GLYPH_HEIGHT && Bit(glyph, 0, row)
  }

  /** The glyphs can be told apart, and each starts with its first column. */
  predicate Legible(font: Font) {
    && (forall d, e :: 0 <= d < e < GLYPH_COUNT ==> !SameBits(font[d], font[e]))
    && (forall d :: 0 <= d < GLYPH_COUNT ==> StartsAtFirstColumn(font[d]))
  }

  /** Foreground. */
  const F: byte := 1

  type Row = r: seq<byte> | |r| == GLYPH_WIDTH witness seq(GLYPH_WIDTH, _ => 0)

  /** Sixteen rows, one after the other. */
  function Flatten(rows: seq<Row>): Glyph
    requires |rows| == GLYPH_HEIGHT
  {
    seq(GLYPH_SIZE, i requires 0 <= i < GLYPH_SIZE => rows[i / GLYPH_WIDTH][i % GLYPH_WIDTH])
  }

  const ROWS_0: seq<Row> := [
    [0, 0, 0, F, F, 0, 0, 0],
    [0, 0, F, F, F, F, 0, 0],
    [0, F, F, 0, 0, F, F, 0],
    [0, F, 0, 0, 0, 0, F, 0],
    [F, F, 0, 0, 0, 0, F, F],
    [F, F, 0, 0, 0, 0, F, F],
    [F, F, 0, 0, 0, 0, F, F],
    [F, F, 0, 0, F, 0, F, F],
    [F, F, 0, F, 0, 0, F, F],
    [F, F, 0, 0, 0, 0, F, F],
    [F, F, 0, 0, 0, 0, F, F],
    [F, F, 0, 0, 0, 0, F, F],
    [0, F, 0, 0, 0, 0, F, 0],
    [0, F, F, 0, 0, F, F, 0],
    [0, 0, F, F, F, F, 0, 0],
    [0, 0, 0, F, F, 0, 0, 0]
  ]

  const ROWS_1: seq<Row> := [
    [0, 0, 0, F, F, 0, 0, 0],
    [0, 0, F, F, F, 0, 0, 0],
    [0, F, F, F, F, 0, 0, 0],
    [F, F, 0, F, F, 0, 0, 0],
    [F, 0, 0, F, F, 0, 0, 0],
    [0, 0, 0, F, F, 0, 0, 0],
    [0, 0, 0, F, F, 0, 0, 0],
    [0, 0, 0, F, F, 0, 0, 0],
    [0, 0, 0, F, F, 0, 0, 0],
    [0, 0, 0, F, F, 0, 0, 0],
    [0, 0, 0, F, F, 0, 0, 0],
    [0, 0, 0, F, F, 0, 0, 0],
    [0, 0, 0, F, F, 0, 0, 0],
    [0, 0, 0, F, F, 0, 0, 0],
    [F, F, F, F, F, F, F, F],
    [F, F, F, F, F, F, F, F]
  ]

  const ROWS_2: seq<Row> := [
    [0, 0, 0, F, F, 0, 0, 0],
    [0, F, F, F, F, F, 0, 0],
    [0, F, F, 0, 0, F, F, 0],
    [F, F, 0, 0, 0, 0, F, F],
    [F, F, 0, 0, 0, 0, F, F],
    [0, 0, 0, 0, 0, 0, F, F],
    [0, 0, 0, 0, 0, F, F, 0],
    [0, 0, 0, 0, 0, F, F, 0],
    [0, 0, 0, 0, F, F, 0, 0],
    [0, 0, 0, 0, F, F, 0, 0],
    [0, 0, 0, F, F, 0, 0, 0],
    [0, 0, 0, F, F, 0, 0, 0],
    [0, 0, F, F, 0, 0, 0, 0],
    [0, F, F, F, 0, 0, 0, 0],
    [F, F, F, F, F, F, F, F],
    [F, F, F, F, F, F, F, F]
  ]

  const ROWS_3: seq<Row> := [
    [0, 0, 0, F, F, 0, 0, 0],
    [0, F, F, F, F, F, F, 0],
    [F, F, F, 0, 0, F, F, 0],
    [F, F, 0, 0, 0, 0, F, F],
    [0, 0, 0, 0, 0, 0, F, F],
    [0, 0, 0, 0, 0, 0, F, F],
    [0, 0, 0, 0, 0, F, F, 0],
    [0, 0, 0, F, F, F, 0, 0],
    [0, 0, 0, F, F, F, 0, 0],
    [0, 0, 0, 0, 0, F, F, 0],
    [0, 0, 0, 0, 0, 0, F, F],
    [0, 0, 0, 0, 0, 0, F, F],
    [F, F, 0, 0, 0, 0, F, F],
    [F, F, F, 0, 0, F, F, 0],
    [0, F, F, F, F, F, F, 0],
    [0, 0, 0, F, F, 0, 0, 0]
  ]

  const ROWS_4: seq<Row> := [
    [0, 0, 0, 0, 0, F, F, 0],
    [0, 0, 0, 0, F, F, F, 0],
    [0, 0, 0, F, F, F, F, 0],
    [0, 0, 0, F, 0, F, F, 0],
    [0, 0, F, F, 0, F, F, 0],
    [0, F, F, 0, 0, F, F, 0],
    [0, F, F, 0, 0, F, F, 0],
    [F, F, 0, 0, 0, F, F, 0],
    [F, F, F, F, F, F, F, F],
    [F, F, F, F, F, F, F, F],
    [0, 0, 0, 0, 0, F, F, 0],
    [0, 0, 0, 0, 0, F, F, 0],
    [0, 0, 0, 0, 0, F, F, 0],
    [0, 0, 0, 0, 0, F, F, 0],
    [0, 0, 0, 0, F, F, F, F],
    [0, 0, 0, 0, F, F, F, F]
  ]

  const ROWS_5: seq<Row> := [
    [F, F, F, F, F, F, F, 0],
    [F, F, F, F, F, F, F, 0],
    [F, F, 0, 0, 0, 0, 0, 0],
    [F, F, 0, 0, 0, 0, 0, 0],
    [F, F, 0, 0, 0, 0, 0, 0],
    [F, F, 0, 0, 0, 0, 0, 0],
    [F, F, 0, F, F, F, 0, 0],
    [F, F, F, F, F, F, F, 0],
    [0, F, 0, 0, 0, F, F, 0],
    [0, 0, 0, 0, 0, 0, F, F],
    [0, 0, 0, 0, 0, 0, F, F],
    [0, 0, 0, 0, 0, 0, F, F],
    [F, F, 0, 0, 0, 0, F, F],
    [F, F, F, 0, 0, F, F, 0],
    [0, F, F, F, F, F, 0, 0],
    [0, 0, 0, F, F, 0, 0, 0]
  ]

  const ROWS_6: seq<Row> := [
    [0, 0, 0, F, F, 0, 0, 0],
    [0, F, F, F, F, F, F, 0],
    [0, F, F, 0, 0, F, F, 0],
    [F, F, 0, 0, 0, 0, 0, 0],
    [F, F, 0, 0, 0, 0, 0, 0],
    [F, F, 0, 0, 0, 0, 0, 0],
    [F, F, 0, F, F, 0, 0, 0],
    [F, F, F, F, F, F, F, 0],
    [F, F, F, 0, 0, F, F, 0],
    [F, F, 0, 0, 0, 0, F, F],
    [F, F, 0, 0, 0, 0, F, F],
    [F, F, 0, 0, 0, 0, F, F],
    [0, F, 0, 0, 0, 0, F, 0],
    [0, F, F, 0, 0, F, F, 0],
    [0, F, F, F, F, F, F, 0],
    [0, 0, 0, F, F, 0, 0, 0]
  ]

  const ROWS_7: seq<Row> := [
    [F, F, F, F, F, F, F, F],
    [F, F, F, F, F, F, F, F],
    [0, 0, 0, 0, 0, 0, F, F],
    [0, 0, 0, 0, 0, 0, F, F],
    [0, 0, 0, 0, 0, F, F, 0],
    [0, 0, 0, 0, 0, F, F, 0],
    [0, 0, 0, 0, F, F, 0, 0],
    [0, 0, 0, 0, F, F, 0, 0],
    [0, 0, F, F, F, F, F, 0],
    [0, 0, F, F, F, F, F, 0],
    [0, 0, 0, F, F, 0, 0, 0],
    [0, 0, 0, F, F, 0, 0, 0],
    [0, 0, 0, F, F, 0, 0, 0],
    [0, 0, 0, F, F, 0, 0, 0],
    [0, 0, 0, F, F, 0, 0, 0],
    [0, 0, 0, F, F, 0, 0, 0]
  ]

  const ROWS_8: seq<Row> := [
    [0, 0, 0, F, F, 0, 0, 0],
    [0, F, F, F, F, F, F, 0],
    [0, F, F, 0, 0, F, F, 0],
    [0, F, 0, 0, 0, 0, F, 0],
    [F, F, 0, 0, 0, 0, F, F],
    [F, F, 0, 0, 0, 0, F, F],
    [0, F, F, 0, 0, F, F, 0],
    [0, F, F, F, F, F, F, 0],
    [0, 0, F, F, F, F, 0, 0],
    [0, F, F, 0, 0, F, F, 0],
    [F, F, F, 0, 0, F, F, F],
    [F, F, 0, 0, 0, 0, F, F],
    [F, F, 0, 0, 0, 0, F, F],
    [0, F, F, 0, 0, F, F, 0],
    [0, F, F, F, F, F, F, 0],
    [0, 0, 0, F, F, 0, 0, 0]
  ]

  const ROWS_9: seq<Row> := [
    [0, 0, 0, F, F, 0, 0, 0],
    [0, F, F, F, F, F, F, 0],
    [0, F, F, 0, 0, F, F, 0],
    [0, F, 0, 0, 0, 0, F, 0],
    [F, F, 0, 0, 0, 0, F, F],
    [F, F, 0, 0, 0, 0, F, F],
    [F, F, 0, 0, 0, 0, F, F],
    [0, F, F, 0, 0, F, F, F],
    [0, F, F, F, F, F, F, F],
    [0, 0, 0, F, F, 0, F, F],
    [0, 0, 0, 0, 0, 0, F, F],
    [0, 0, 0, 0, 0, 0, F, F],
    [0, 0, 0, 0, 0, 0, F, F],
    [0, F, F, 0, 0, F, F, 0],
    [0, F, F, F, F, F, F, 0],
    [0, 0, 0, F, F, 0, 0, 0]
  ]

  const GLYPH_0: Glyph := Flatten(ROWS_0)
  const GLYPH_1: Glyph := Flatten(ROWS_1)
  const GLYPH_2: Glyph := Flatten(ROWS_2)
  const GLYPH_3: Glyph := Flatten(ROWS_3)
  const GLYPH_4: Glyph := Flatten(ROWS_4)
  const GLYPH_5: Glyph := Flatten(ROWS_5)
  const GLYPH_6: Glyph := Flatten(ROWS_6)
  const GLYPH_7: Glyph := Flatten(ROWS_7)
  const GLYPH_8: Glyph := Flatten(ROWS_8)
  const GLYPH_9: Glyph := Flatten(ROWS_9)

  const GLYPH_BITMAPS: Font := [
    GLYPH_0, GLYPH_1, GLYPH_2, GLYPH_3, GLYPH_4,
    GLYPH_5, GLYPH_6, GLYPH_7, GLYPH_8, GLYPH_9
  ]

  /** Four pixels that identify a digit: (0, 0), (0, 3), (5, 6) and (4, 9). */
  function Signature(glyph: Glyph): (bool, bool, bool, bool) {
    (Bit(glyph, 0, 0), Bit(glyph, 0, 3), Bit(glyph, 5, 6), Bit(glyph, 4, 9))
  }

  function DigitSignature(d: nat): (bool, bool, bool, bool)
    requires d < GLYPH_COUNT
  {
    match d
    case 0 => (false, false, false, false)
    case 1 => (false, true, false, true)
    case 2 => (false, true, true, true)
    case 3 => (false, true, true, false)
    case 4 => (false, false, true, true)
    case 5 => (true, true, true, false)
    case 6 => (false, true, false, false)
    case 7 => (true, false, true, true)
    case 8 => (false, false, true, false)
    case _ => (false, false, false, true)
  }

  lemma Glyph0()
    ensures Signature(GLYPH_0) == DigitSignature(0)
    ensures StartsAtFirstColumn(GLYPH_0)
  {
    assert Bit(GLYPH_0, 0, 4);
  }

  lemma Glyph1()
    ensures Signature(GLYPH_1) == DigitSignature(1)
    ensures StartsAtFirstColumn(GLYPH_1)
  {
  }

  lemma Glyph2()
    ensures Signature(GLYPH_2) == DigitSignature(2)
    ensures StartsAtFirstColumn(GLYPH_2)
  {
  }

  lemma Glyph3()
    ensures Signature(GLYPH_3) == DigitSignature(3)
    ensures StartsAtFirstColumn(GLYPH_3)
  {
  }

  lemma Glyph4()
    ensures Signature(GLYPH_4) == DigitSignature(4)
    ensures StartsAtFirstColumn(GLYPH_4)
  {
    assert Bit(GLYPH_4, 0, 7);
  }

  lemma Glyph5()
    ensures Signature(GLYPH_5) == DigitSignature(5)
    ensures StartsAtFirstColumn(GLYPH_5)
  {
  }

  lemma Glyph6()
    ensures Signature(GLYPH_6) == DigitSignature(6)
    ensures StartsAtFirstColumn(GLYPH_6)
  {
  }

  lemma Glyph7()
    ensures Signature(GLYPH_7) == DigitSignature(7)
    ensures StartsAtFirstColumn(GLYPH_7)
  {
  }

  lemma Glyph8()
    ensures Signature(GLYPH_8) == DigitSignature(8)
    ensures StartsAtFirstColumn(GLYPH_8)
  {
    assert Bit(GLYPH_8, 0, 4);
  }

  lemma Glyph9()
    ensures Signature(GLYPH_9) == DigitSignature(9)
    ensures StartsAtFirstColumn(GLYPH_9)
  {
    assert Bit(GLYPH_9, 0, 4);
  }

  lemma SignedFontIsLegible(font: Font)
    requires forall d :: 0 <= d < GLYPH_COUNT ==>
               Signature(font[d]) == DigitSignature(d) && StartsAtFirstColumn(font[d])
    ensures Legible(font)
  {
  }

  /** The counter's own glyphs are legible. */
  lemma GlyphsAreLegible()
    ensures Legible(GLYPH_BITMAPS)
  {
    Glyph0(); Glyph1(); Glyph2(); Glyph3(); Glyph4();
    Glyph5(); Glyph6(); Glyph7(); Glyph8(); Glyph9();
    hide Signature, StartsAtFirstColumn;
    SignedFontIsLegible(GLYPH_BITMAPS);
  }

  // ---- The bitmaps in rows ----

  /** A row of a glyph as a number, its leftmost pixel the highest of eight bits. */
  function RowBits(glyph: Glyph, row: nat): nat
    requires row < GLYPH_HEIGHT
  {
    (if Bit(glyph, 0, row) then 128 else 0) + (if Bit(glyph, 1, row) then 64 else 0)
    + (if Bit(glyph, 2, row) then 32 else 0) + (if Bit(glyph, 3, row) then 16 else 0)
    + (if Bit(glyph, 4, row) then 8 else 0) + (if Bit(glyph, 5, row) then 4 else 0)
    + (if Bit(glyph, 6, row) then 2 else 0) + (if Bit(glyph, 7, row) then 1 else 0)
  }

  /** The sixteen rows of a glyph, from the top. */
  function Rows(glyph: Glyph): seq<nat> {
    seq(GLYPH_HEIGHT, row requires 0 <= row < GLYPH_HEIGHT => RowBits(glyph, row))
  }

  /** The bits of a row. */
  function RowValue(row: Row): nat {
    (if row[0] != 0 then 128 else 0) + (if row[1] != 0 then 64 else 0)
    + (if row[2] != 0 then 32 else 0) + (if row[3] != 0 then 16 else 0)
    + (if row[4] != 0 then 8 else 0) + (if row[5] != 0 then 4 else 0)
    + (if row[6] != 0 then 2 else 0) + (if row[7] != 0 then 1 else 0)
  }

  function RowValues(rows: seq<Row>): seq<nat> {
    seq(|rows|, i requires 0 <= i < |rows| => RowValue(rows[i]))
  }

  lemma FlatBit(rows: seq<Row>, col: nat, row: nat)
    requires |rows| == GLYPH_HEIGHT && col < GLYPH_WIDTH && row < GLYPH_HEIGHT
    ensures Bit(Flatten(rows), col, row) <==> rows[row][col] != 0
  {
    assert (row * GLYPH_WIDTH + col) / GLYPH_WIDTH == row && (row * GLYPH_WIDTH + col) % GLYPH_WIDTH == col;
  }

  /** Flattening loses no row. */
  lemma FlatRows(rows: seq<Row>)
    requires |rows| == GLYPH_HEIGHT
    ensures Rows(Flatten(rows)) == RowValues(rows)
  {
    forall row | 0 <= row < GLYPH_HEIGHT
      ensures RowBits(Flatten(rows), row) == RowValue(rows[row])
    {
      FlatBit(rows, 0, row); FlatBit(rows, 1, row); FlatBit(rows, 2, row); FlatBit(rows, 3, row);
      FlatBit(rows, 4, row); FlatBit(rows, 5, row); FlatBit(rows, 6, row); FlatBit(rows, 7, row);
      hide Flatten, Bit;
    }
  }

  lemma RowsOf0()
    ensures RowValues(ROWS_0)
         == [0x18, 0x3C, 0x66, 0x42, 0xC3, 0xC3, 0xC3, 0xCB, 0xD3, 0xC3, 0xC3, 0xC3, 0x42, 0x66, 0x3C, 0x18]
  {
  }

  lemma RowsOf1()
    ensures RowValues(ROWS_1)
         == [0x18, 0x38, 0x78, 0xD8, 0x98, 0x18, 0x18, 0x18, 0x18, 0x18, 0x18, 0x18, 0x18, 0x18, 0xFF, 0xFF]
  {
  }

  lemma RowsOf2()
    ensures RowValues(ROWS_2)
         == [0x18, 0x7C, 0x66, 0xC3, 0xC3, 0x03, 0x06, 0x06, 0x0C, 0x0C, 0x18, 0x18, 0x30, 0x70, 0xFF, 0xFF]
  {
  }

  lemma RowsOf3()
    ensures RowValues(ROWS_3)
         == [0x18, 0x7E, 0xE6, 0xC3, 0x03, 0x03, 0x06, 0x1C, 0x1C, 0x06, 0x03, 0x03, 0xC3, 0xE6, 0x7E, 0x18]
  {
  }

  lemma RowsOf4()
    ensures RowValues(ROWS_4)
         == [0x06, 0x0E, 0x1E, 0x16, 0x36, 0x66, 0x66, 0xC6, 0xFF, 0xFF, 0x06, 0x06, 0x06, 0x06, 0x0F, 0x0F]
  {
  }

  lemma RowsOf5()
    ensures RowValues(ROWS_5)
         == [0xFE, 0xFE, 0xC0, 0xC0, 0xC0, 0xC0, 0xDC, 0xFE, 0x46, 0x03, 0x03, 0x03, 0xC3, 0xE6, 0x7C, 0x18]
  {
  }

  lemma RowsOf6()
    ensures RowValues(ROWS_6)
         == [0x18, 0x7E, 0x66, 0xC0, 0xC0, 0xC0, 0xD8, 0xFE, 0xE6, 0xC3, 0xC3, 0xC3, 0x42, 0x66, 0x7E, 0x18]
  {
  }

  lemma RowsOf7()
    ensures RowValues(ROWS_7)
         == [0xFF, 0xFF, 0x03, 0x03, 0x06, 0x06, 0x0C, 0x0C, 0x3E, 0x3E, 0x18, 0x18, 0x18, 0x18, 0x18, 0x18]
  {
  }

  lemma RowsOf8()
    ensures RowValues(ROWS_8)
         == [0x18, 0x7E, 0x66, 0x42, 0xC3, 0xC3, 0x66, 0x7E, 0x3C, 0x66, 0xE7, 0xC3, 0xC3, 0x66, 0x7E, 0x18]
  {
  }

  lemma RowsOf9()
    ensures RowValues(ROWS_9)
         == [0x18, 0x7E, 0x66, 0x42, 0xC3, 0xC3, 0xC3, 0x67, 0x7F, 0x1B, 0x03, 0x03, 0x03, 0x66, 0x7E, 0x18]
  {
  }

  /** The bitmap of every digit, row by row. */
  lemma GlyphsInRows()
    ensures Rows(GLYPH_BITMAPS[0])
         == [0x18, 0x3C, 0x66, 0x42, 0xC3, 0xC3, 0xC3, 0xCB, 0xD3, 0xC3, 0xC3, 0xC3, 0x42, 0x66, 0x3C, 0x18]
    ensures Rows(GLYPH_BITMAPS[1])
         == [0x18, 0x38, 0x78, 0xD8, 0x98, 0x18, 0x18, 0x18, 0x18, 0x18, 0x18, 0x18, 0x18, 0x18, 0xFF, 0xFF]
    ensures Rows(GLYPH_BITMAPS[2])
         == [0x18, 0x7C, 0x66, 0xC3, 0xC3, 0x03, 0x06, 0x06, 0x0C, 0x0C, 0x18, 0x18, 0x30, 0x70, 0xFF, 0xFF]
    ensures Rows(GLYPH_BITMAPS[3])
         == [0x18, 0x7E, 0xE6, 0xC3, 0x03, 0x03, 0x06, 0x1C, 0x1C, 0x06, 0x03, 0x03, 0xC3, 0xE6, 0x7E, 0x18]
    ensures Rows(GLYPH_BITMAPS[4])
         == [0x06, 0x0E, 0x1E, 0x16, 0x36, 0x66, 0x66, 0xC6, 0xFF, 0xFF, 0x06, 0x06, 0x06, 0x06, 0x0F, 0x0F]
    ensures Rows(GLYPH_BITMAPS[5])
         == [0xFE, 0xFE, 0xC0, 0xC0, 0xC0, 0xC0, 0xDC, 0xFE, 0x46, 0x03, 0x03, 0x03, 0xC3, 0xE6, 0x7C, 0x18]
    ensures Rows(GLYPH_BITMAPS[6])
         == [0x18, 0x7E, 0x66, 0xC0, 0xC0, 0xC0, 0xD8, 0xFE, 0xE6, 0xC3, 0xC3, 0xC3, 0x42, 0x66, 0x7E, 0x18]
    ensures Rows(GLYPH_BITMAPS[7])
         == [0xFF, 0xFF, 0x03, 0x03, 0x06, 0x06, 0x0C, 0x0C, 0x3E, 0x3E, 0x18, 0x18, 0x18, 0x18, 0x18, 0x18]
    ensures Rows(GLYPH_BITMAPS[8])
         == [0x18, 0x7E, 0x66, 0x42, 0xC3, 0xC3, 0x66, 0x7E, 0x3C, 0x66, 0xE7, 0xC3, 0xC3, 0x66, 0x7E, 0x18]
    ensures Rows(GLYPH_BITMAPS[9])
         == [0x18, 0x7E, 0x66, 0x42, 0xC3, 0xC3, 0xC3, 0x67, 0x7F, 0x1B, 0x03, 0x03, 0x03, 0x66, 0x7E, 0x18]
  {
    hide Rows, RowValues, Flatten;
    RowsOf0(); RowsOf1(); RowsOf2(); RowsOf3(); RowsOf4();
    RowsOf5(); RowsOf6(); RowsOf7(); RowsOf8(); RowsOf9();
    FlatRows(ROWS_0); FlatRows(ROWS_1); FlatRows(ROWS_2); FlatRows(ROWS_3); FlatRows(ROWS_4);
    FlatRows(ROWS_5); FlatRows(ROWS_6); FlatRows(ROWS_7); FlatRows(ROWS_8); FlatRows(ROWS_9);
  }
}
