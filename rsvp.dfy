/**
 * The reading line: the word drawn so that its optimal recognition point (ORP) sits in the
 * middle column, between two guide lines whose tick marks point at that column.
 *
 * Drawn output is modelled as sequences of cells: a guide cell is a glyph and a gray level, a
 * word cell is a character and whether it carries the ORP highlight.
 */
module Rsvp {
  import opened Types
  import opened Chars
  import opened Common
  import Context

  /** The gray of a plain guide line. */
  const GuideGray: nat := 120

  const TopTick: char := '\U{252C}'      // ┬
  const BottomTick: char := '\U{2534}'   // ┴

  // ---------------------------------------------------------------------------------------
  // Guide lines
  // ---------------------------------------------------------------------------------------

  /** A solid line of `width` cells with the tick character at `tickPos`. */
  function GuideLine(width: nat, tickPos: nat, tickChar: char): string {
    seq(width, i => if i == tickPos then tickChar else Solid)
  }

  /** `build_guide_line`: the character-pushing loop, proved to build `GuideLine`. */
  method BuildGuideLine(width: nat, tickPos: nat, tickChar: char) returns (line: string)
    ensures line == GuideLine(width, tickPos, tickChar)
  {
    line := [];
    for i := 0 to width
      invariant line == GuideLine(i, tickPos, tickChar)
    {
      if i == tickPos {
        line := line + [tickChar];
      } else {
        line := line + [Solid];
      }
    }
  }

  /** Exactly `width` characters, the tick where asked (if it fits) and solid line elsewhere. */
  lemma GuideLineShape(width: nat, tickPos: nat, tickChar: char)
    ensures |GuideLine(width, tickPos, tickChar)| == width
    ensures tickPos < width ==> GuideLine(width, tickPos, tickChar)[tickPos] == tickChar
    ensures forall i :: 0 <= i < width && i != tickPos ==> GuideLine(width, tickPos, tickChar)[i] == Solid
  {
  }

  /** The cell at column `i` of a faded guide: the left fade, then solid, the tick keeping the gray. */
  function FadedCell(width: nat, i: nat, tickPos: nat, tickChar: char): Cell {
    var fadeEnd := if FadeTotal < width then FadeTotal else width;
    var base := if i < fadeEnd then FadeCharLeft(i) else Cell(Solid, BrightnessSolidEnd);
    Cell(if i == tickPos then tickChar else base.glyph, base.brightness)
  }

  function FadedGuideLine(width: nat, tickPos: nat, tickChar: char): seq<Cell> {
    seq(width, i requires 0 <= i < width => FadedCell(width, i, tickPos, tickChar))
  }

  /** `build_faded_guide_line` (reading view): the cell-pushing loop, proved to build `FadedGuideLine`. */
  method BuildFadedGuideLine(width: nat, tickPos: nat, tickChar: char) returns (cells: seq<Cell>)
    ensures cells == FadedGuideLine(width, tickPos, tickChar)
  {
    var fadeEnd := if FadeTotal < width then FadeTotal else width;
    cells := [];
    for i := 0 to width
      invariant cells == seq(i, k requires 0 <= k < i => FadedCell(width, k, tickPos, tickChar))
    {
      var base := if i < fadeEnd then FadeCharLeft(i) else Cell(Solid, BrightnessSolidEnd);
      var displayChar := if i == tickPos then tickChar else base.glyph;
      cells := cells + [Cell(displayChar, base.brightness)];
    }
  }

  /**
   * The faded line has `width` cells: the fade gradient on the first six (or fewer) cells,
   * gray 120 solid line after them, and the tick replacing only the glyph of its cell.
   */
  lemma FadedGuideShape(width: nat, tickPos: nat, tickChar: char)
    ensures |FadedGuideLine(width, tickPos, tickChar)| == width
    ensures forall i :: 0 <= i < width && i < FadeTotal && i != tickPos ==>
      FadedGuideLine(width, tickPos, tickChar)[i] == FadeCharLeft(i)
    ensures forall i :: FadeTotal <= i < width && i != tickPos ==>
      FadedGuideLine(width, tickPos, tickChar)[i] == Cell(Solid, BrightnessSolidEnd)
    ensures tickPos < width ==> FadedGuideLine(width, tickPos, tickChar)[tickPos].glyph == tickChar
  {
  }

  /** The faded line only brightens from left to right. */
  lemma FadedGuideBrightens(width: nat, tickPos: nat, tickChar: char, i: nat, j: nat)
    requires i <= j < width
    ensures FadedGuideLine(width, tickPos, tickChar)[i].brightness
      <= FadedGuideLine(width, tickPos, tickChar)[j].brightness
  {
    if i < j < FadeTotal {
      FadeBrightnessIncreasing(i, j);
    }
  }

  /** Past the fade zone, the faded and the plain guide lines draw the same glyphs. */
  lemma FadedMatchesPlain(width: nat, tickPos: nat, tickChar: char, i: nat)
    requires FadeTotal <= i < width
    ensures FadedGuideLine(width, tickPos, tickChar)[i].glyph == GuideLine(width, tickPos, tickChar)[i]
  {
  }

  // ---------------------------------------------------------------------------------------
  // Placing the word
  // ---------------------------------------------------------------------------------------

  /** Half the width less the ORP index, stopping at zero. */
  function LeftPadding(width: nat, orpPos: nat): nat {
    if width / 2 >= orpPos then width / 2 - orpPos else 0
  }

  /** The column both guide ticks are drawn at. */
  function TickColumn(width: nat, orpPos: nat): (r: nat)
    ensures r >= orpPos
    ensures orpPos <= width / 2 ==> r == width / 2
    ensures orpPos > width / 2 ==> r == orpPos
  {
    LeftPadding(width, orpPos) + orpPos
  }

  /** A character of the word line and whether it is drawn with the ORP highlight. */
  datatype Glyph = Glyph(c: char, highlighted: bool)

  /** The word line: the left padding, then each character, only the ORP one highlighted. */
  function WordLine(word: string, orpPos: nat, width: nat): seq<Glyph> {
    seq(LeftPadding(width, orpPos), _ => Glyph(' ', false))
      + seq(|word|, i requires 0 <= i < |word| => Glyph(word[i], i == orpPos))
  }

  /** The span-pushing loop of `render`, proved to build `WordLine`. */
  method BuildWordLine(word: string, orpPos: nat, width: nat) returns (line: seq<Glyph>)
    ensures line == WordLine(word, orpPos, width)
  {
    var padding := LeftPadding(width, orpPos);
    line := seq(padding, _ => Glyph(' ', false));
    for i := 0 to |word|
      invariant line == seq(padding, _ => Glyph(' ', false))
        + seq(i, k requires 0 <= k < i => Glyph(word[k], k == orpPos))
    {
      line := line + [Glyph(word[i], i == orpPos)];
    }
  }

  /**
   * Character `i` of the word sits at column `padding + i`; the character at the ORP index is
   * the only highlighted one, and it sits exactly in the tick column of both guide lines.
   */
  lemma OrpUnderTick(word: string, orpPos: nat, width: nat)
    requires orpPos < |word|
    ensures var line := WordLine(word, orpPos, width);
      && |line| == LeftPadding(width, orpPos) + |word|
      && (forall i :: 0 <= i < |word| ==> line[LeftPadding(width, orpPos) + i].c == word[i])
      && line[TickColumn(width, orpPos)] == Glyph(word[orpPos], true)
      && (forall k :: 0 <= k < |line| && line[k].highlighted ==> k == TickColumn(width, orpPos))
    ensures TickColumn(width, orpPos) < width ==>
      GuideLine(width, TickColumn(width, orpPos), TopTick)[TickColumn(width, orpPos)] == TopTick
      && GuideLine(width, TickColumn(width, orpPos), BottomTick)[TickColumn(width, orpPos)] == BottomTick
  {
  }

  /**
   * A word row shows `word` with its ORP character under the tick: each character sits
   * `tick − orpPos + i` columns in, the ORP one highlighted, and no other cell highlighted.
   */
  predicate ShowsWord(line: seq<Glyph>, word: string, orpPos: nat, tick: nat) {
    && tick >= orpPos
    && |line| == tick - orpPos + |word|
    && (forall i :: 0 <= i < |word| ==> line[tick - orpPos + i].c == word[i])
    && (orpPos < |word| ==> line[tick] == Glyph(word[orpPos], true))
    && (forall k :: 0 <= k < |line| && line[k].highlighted ==> k == tick)
  }

  /** The word line shows the word for any ORP index, even one past its end (then nothing is highlighted). */
  lemma WordLineShape(word: string, orpPos: nat, width: nat)
    ensures ShowsWord(WordLine(word, orpPos, width), word, orpPos, TickColumn(width, orpPos))
  {
  }

  // ---------------------------------------------------------------------------------------
  // The three rows and the gutter
  // ---------------------------------------------------------------------------------------

  /** What `render` draws for the current word: rows relative to the top of its area. */
  datatype ReadingRows = ReadingRows(
    topGuide: Option<nat>,
    wordRow: nat,
    bottomGuide: Option<nat>,
    tick: nat,
    word: seq<Glyph>,
    wordGutter: Option<string>,
    guideGutter: Option<string>)

  /** The gutter text for a block, when its hint is not empty. */
  function HintText(block: BlockContext): (r: Option<string>)
    ensures r.Some? <==> !block.Paragraph?
  {
    var hint := Context.BlockHintChars(block);
    if hint == [] then None else Some(Context.GutterText(hint))
  }

  /**
   * `render` (reading line): nothing without a current word; otherwise the word on the middle
   * row, a guide line above it if there is a row above, one below it if there is a row below,
   * and with the gutter on, the word's block hint beside it and its parent's beside the guides.
   */
  function Render(current: Option<TimedToken>, width: nat, height: nat, gutter: bool): (r: Option<ReadingRows>)
    ensures r.None? <==> current.None?
    ensures r.Some? ==> r.value.wordRow == height / 2
    ensures r.Some? ==> (r.value.topGuide.Some? <==> height / 2 > 0)
    ensures r.Some? ==> (r.value.bottomGuide.Some? <==> height / 2 + 1 < height)
    ensures r.Some? && height > 0 ==> r.value.wordRow < height
    ensures r.Some? && r.value.topGuide.Some? ==> r.value.topGuide.value + 1 == r.value.wordRow
    ensures r.Some? && r.value.bottomGuide.Some? ==> r.value.bottomGuide.value == r.value.wordRow + 1 < height
    ensures r.Some? ==> r.value.tick == TickColumn(width, current.value.orpPosition)
    ensures r.Some? ==> ShowsWord(r.value.word, current.value.token.word, current.value.orpPosition, r.value.tick)
    ensures r.Some? && gutter ==> r.value.wordGutter == HintText(current.value.token.block)
    ensures r.Some? && gutter && current.value.token.parentContext.None? ==> r.value.guideGutter.None?
    ensures r.Some? && gutter && current.value.token.parentContext.Some? ==>
      r.value.guideGutter == HintText(current.value.token.parentContext.value)
    ensures r.Some? && !gutter ==> r.value.wordGutter.None? && r.value.guideGutter.None?
  {
    match current
    case None => None
    case Some(t) =>
      var center := height / 2;
      var line := WordLine(t.token.word, t.orpPosition, width);
      WordLineShape(t.token.word, t.orpPosition, width);
      Some(ReadingRows(
        if center > 0 then Some(center - 1) else None,
        center,
        if center + 1 < height then Some(center + 1) else None,
        TickColumn(width, t.orpPosition),
        line,
        if gutter then HintText(t.token.block) else None,
        if gutter && t.token.parentContext.Some? then HintText(t.token.parentContext.value) else None))
  }

  /** In the three-row reading area the guides sit on rows 0 and 2 around the word on row 1. */
  lemma ThreeRowLayout(t: TimedToken, width: nat, gutter: bool)
    ensures var r := Render(Some(t), width, 3, gutter);
      r.Some? && r.value.topGuide == Some(0) && r.value.wordRow == 1 && r.value.bottomGuide == Some(2)
  {
  }
}
