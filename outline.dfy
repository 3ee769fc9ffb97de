/**
 * The outline view: the selected section title centred between two guide bars, with the
 * titles of the sections before it stacked upward and those after it stacked downward, each
 * dimmer the farther it is from the selection.
 *
 * Rows are relative to the top of the view area. A guide bar is modelled as its optional
 * heading-level prefix and one cell per column after it.
 */
module OutlineView {
  import opened Types
  import opened Chars
  import opened Common
  import Context

  // ---------------------------------------------------------------------------------------
  // The guide bars
  // ---------------------------------------------------------------------------------------

  /** The heading-level marks shown in front of the bars: one '#' per level. */
  function LevelHint(level: nat): (r: string)
    ensures |r| == level
    ensures forall i :: 0 <= i < |r| ==> r[i] == '#'
  {
    Repeat('#', level)
  }

  /** The right-aligned hint and a space, drawn only when the hint is non-empty and narrower than the bar. */
  function HintPrefix(hint: string, width: nat): (r: Option<string>)
    ensures r.Some? <==> 0 < |hint| < width
    ensures r.Some? ==> r.value == Context.GutterText(hint) + " "
  {
    if 0 < |hint| < width then Some(Context.GutterText(hint) + " ") else None
  }

  /**
   * The first column that gets a cell: after the hint area, if there is a hint. The 5 is the
   * width the code assumes for the prefix, not the prefix's own width, which is six or seven
   * columns for a level-5 or level-6 hint and nothing when the hint is too wide to draw
   * (see `DrawnTickAsWritten`).
   */
  function StartColumn(hint: string): nat {
    if |hint| > 0 then 5 else 0
  }

  /**
   * The cell at column `i`: the left fade from the start column, the mirrored right fade in the
   * last six columns (the left fade wins where they meet), solid at full gray in between; the
   * tick replaces only the glyph.
   */
  function BarCell(width: nat, start: nat, i: nat, tickPos: nat, tickChar: char): (c: Cell)
    requires start <= i < width
  {
    var fadeEndLeft := if start + FadeTotal < width then start + FadeTotal else width;
    var fadeStartRight := if width >= FadeTotal then width - FadeTotal else 0;
    var base :=
      if i < fadeEndLeft then FadeCharLeft(i - start)
      else if i >= fadeStartRight then FadeCharLeft(width - 1 - i)
      else Cell(Solid, BrightnessSolidEnd);
    Cell(if i == tickPos then tickChar else base.glyph, base.brightness)
  }

  /** The cells of a bar whose fades start at column `start`, one per column from there to the right edge. */
  function BarCellsFrom(width: nat, start: nat, tickPos: nat, tickChar: char): seq<Cell> {
    var n := if width >= start then width - start else 0;
    seq(n, k requires 0 <= k < n => BarCell(width, start, start + k, tickPos, tickChar))
  }

  /** The cells of a bar, one per column from the start column to the right edge. */
  function BarCells(width: nat, tickPos: nat, tickChar: char, hint: string): seq<Cell> {
    BarCellsFrom(width, StartColumn(hint), tickPos, tickChar)
  }

  /** `build_faded_guide_line` (outline view): the span-pushing loop, proved to build the prefix and `BarCells`. */
  method BuildFadedGuideLine(width: nat, tickPos: nat, tickChar: char, hint: string)
    returns (prefix: Option<string>, cells: seq<Cell>)
    ensures prefix == HintPrefix(hint, width)
    ensures cells == BarCells(width, tickPos, tickChar, hint)
  {
    var hintLen := |hint|;
    prefix := None;
    if hintLen > 0 && hintLen < width {
      prefix := Some(Context.GutterText(hint) + " ");
    }
    var startCol := if hintLen > 0 then 5 else 0;
    var fadeEndLeft := if startCol + FadeTotal < width then startCol + FadeTotal else width;
    var fadeStartRight := if width >= FadeTotal then width - FadeTotal else 0;
    cells := [];
    if startCol < width {
      for i := startCol to width
        invariant cells == seq(i - startCol, k requires 0 <= k < i - startCol => BarCell(width, startCol, startCol + k, tickPos, tickChar))
      {
        var base :=
          if i < fadeEndLeft then FadeCharLeft(i - startCol)
          else if i >= fadeStartRight then FadeCharLeft(width - 1 - i)
          else Cell(Solid, BrightnessSolidEnd);
        var displayChar := if i == tickPos then tickChar else base.glyph;
        assert Cell(displayChar, base.brightness) == BarCell(width, startCol, startCol + (i - startCol), tickPos, tickChar);
        cells := cells + [Cell(displayChar, base.brightness)];
      }
    }
  }

  /** Column `column` of the bar (the bar's cells start at the start column). */
  function BarAt(width: nat, tickPos: nat, tickChar: char, hint: string, column: nat): Cell
    requires StartColumn(hint) <= column < width
  {
    BarCells(width, tickPos, tickChar, hint)[column - StartColumn(hint)]
  }

  lemma BarAtCell(width: nat, tickPos: nat, tickChar: char, hint: string, column: nat)
    requires StartColumn(hint) <= column < width
    ensures BarAt(width, tickPos, tickChar, hint, column) == BarCell(width, StartColumn(hint), column, tickPos, tickChar)
  {
  }

  /** One cell per column from the start column to the right edge. */
  lemma BarLength(width: nat, tickPos: nat, tickChar: char, hint: string)
    ensures |BarCells(width, tickPos, tickChar, hint)| == if width >= StartColumn(hint) then width - StartColumn(hint) else 0
  {
  }

  /** The first six columns from the start column carry the left fade. */
  lemma BarLeftFade(width: nat, tickPos: nat, tickChar: char, hint: string, i: nat)
    requires StartColumn(hint) <= i < width && i < StartColumn(hint) + FadeTotal
    ensures BarAt(width, tickPos, tickChar, hint, i).brightness == FadeCharLeft(i - StartColumn(hint)).brightness
    ensures i != tickPos ==> BarAt(width, tickPos, tickChar, hint, i) == FadeCharLeft(i - StartColumn(hint))
  {
    BarAtCell(width, tickPos, tickChar, hint, i);
  }

  /** Past the left fade, the last six columns carry the mirrored fade. */
  lemma BarRightFade(width: nat, tickPos: nat, tickChar: char, hint: string, i: nat)
    requires StartColumn(hint) + FadeTotal <= i < width && i + FadeTotal >= width
    ensures BarAt(width, tickPos, tickChar, hint, i).brightness == FadeCharLeft(width - 1 - i).brightness
    ensures i != tickPos ==> BarAt(width, tickPos, tickChar, hint, i) == FadeCharLeft(width - 1 - i)
  {
    BarAtCell(width, tickPos, tickChar, hint, i);
  }

  /** Between the fades the bar is solid at full gray, except for the tick. */
  lemma BarMiddle(width: nat, tickPos: nat, tickChar: char, hint: string, i: nat)
    requires StartColumn(hint) + FadeTotal <= i && i + FadeTotal < width
    ensures BarAt(width, tickPos, tickChar, hint, i).brightness == BrightnessSolidEnd
    ensures i != tickPos ==> BarAt(width, tickPos, tickChar, hint, i) == Cell(Solid, BrightnessSolidEnd)
  {
    BarAtCell(width, tickPos, tickChar, hint, i);
  }

  /** The tick replaces the glyph of its column, whatever zone it falls in. */
  lemma BarTick(width: nat, tickPos: nat, tickChar: char, hint: string)
    requires StartColumn(hint) <= tickPos < width
    ensures BarAt(width, tickPos, tickChar, hint, tickPos).glyph == tickChar
  {
    BarAtCell(width, tickPos, tickChar, hint, tickPos);
  }

  /** On a bar wide enough for both fades, the right fade mirrors the left one. */
  lemma BarMirrored(width: nat, tickPos: nat, tickChar: char, hint: string, p: nat)
    requires p < FadeTotal
    requires StartColumn(hint) + 2 * FadeTotal <= width
    ensures BarAt(width, tickPos, tickChar, hint, StartColumn(hint) + p).brightness
      == BarAt(width, tickPos, tickChar, hint, width - 1 - p).brightness
  {
    BarAtCell(width, tickPos, tickChar, hint, StartColumn(hint) + p);
    BarAtCell(width, tickPos, tickChar, hint, width - 1 - p);
  }

  // ---------------------------------------------------------------------------------------
  // The tick and the items
  // ---------------------------------------------------------------------------------------

  /** The tick column: the title's centring padding plus half its width. */
  function TickPosition(title: string, width: nat): nat {
    CalculatePadding(|title|, width, true) + |title| / 2
  }

  /** A title as drawn: the centring padding, then the title. */
  function ItemText(title: string, width: nat): (r: string)
    ensures |r| == CalculatePadding(|title|, width, true) + |title|
    ensures r[|r| - |title|..] == title
  {
    Repeat(' ', CalculatePadding(|title|, width, true)) + title
  }

  /** The tick column falls within the selected title, on its middle character. */
  lemma TickOverTitle(title: string, width: nat)
    requires title != []
    ensures var pad := CalculatePadding(|title|, width, true);
      pad <= TickPosition(title, width) < pad + |title|
    ensures ItemText(title, width)[TickPosition(title, width)] == title[|title| / 2]
  {
    var r := ItemText(title, width);
    var pad := CalculatePadding(|title|, width, true);
    assert r[pad + |title| / 2] == r[|r| - |title|..][|title| / 2];
  }

  // ---------------------------------------------------------------------------------------
  // The bar as drawn on its row
  // ---------------------------------------------------------------------------------------

  /** The text in front of the cells: the hint prefix when it is drawn, else nothing. */
  function PrefixText(hint: string, width: nat): (r: string)
    ensures 0 < |hint| < width ==>
      |r| == (if |hint| < Context.GutterWidth then Context.GutterWidth else |hint|) + 1
    ensures !(0 < |hint| < width) ==> r == []
  {
    var p := HintPrefix(hint, width);
    if p.Some? then p.value else []
  }

  /** The glyphs of a run of cells, in order. */
  function Glyphs(cells: seq<Cell>): (r: string)
    ensures |r| == |cells|
    ensures forall k :: 0 <= k < |cells| ==> r[k] == cells[k].glyph
  {
    seq(|cells|, k requires 0 <= k < |cells| => cells[k].glyph)
  }

  /** The bar's row as `build_faded_guide_line` lays it out: the prefix, then one glyph per cell. */
  function DrawnBar(width: nat, tickPos: nat, tickChar: char, hint: string): string {
    PrefixText(hint, width) + Glyphs(BarCells(width, tickPos, tickChar, hint))
  }

  /**
   * As written, the cell computed for column `tickPos` is drawn at column
   * `tickPos − 5 + |prefix|`: the tick is drawn where it should be only when the prefix is
   * exactly five columns wide (or there is no hint at all).
   */
  lemma DrawnTickAsWritten(width: nat, tickPos: nat, tickChar: char, hint: string)
    requires StartColumn(hint) <= tickPos < width
    ensures var column := |PrefixText(hint, width)| + (tickPos - StartColumn(hint));
      column < |DrawnBar(width, tickPos, tickChar, hint)|
      && DrawnBar(width, tickPos, tickChar, hint)[column] == tickChar
  {
    var prefix := PrefixText(hint, width);
    var cells := BarCells(width, tickPos, tickChar, hint);
    BarTick(width, tickPos, tickChar, hint);
    assert (prefix + Glyphs(cells))[|prefix| + (tickPos - StartColumn(hint))] == Glyphs(cells)[tickPos - StartColumn(hint)];
  }

  /** As written, a level-5 or level-6 hint pushes the tick one or two columns right of `tickPos`. */
  lemma DeepLevelTickShifted(level: nat, width: nat, tickPos: nat, tickChar: char)
    requires 5 <= level <= 6 && level < width
    requires 5 <= tickPos < width
    ensures DrawnBar(width, tickPos, tickChar, LevelHint(level))[tickPos + (level - 4)] == tickChar
  {
    DrawnTickAsWritten(width, tickPos, tickChar, LevelHint(level));
  }

  /**
   * As written, with the plain-line glyph the code uses for the outline tick: a one-character
   * level-5 title in an 80-column view. The tick belongs at column 39 and is drawn at column 40,
   * but both columns show the plain line, so the shift cannot be seen there. What can be seen is
   * the right edge: the row is 81 columns wide, its last cell falls outside the view, and the
   * right fade sits one column late (column 76 plain where the fade is dashed, column 78
   * dashed where it is dotted).
   */
  lemma DeepLevelFadeShifted()
    ensures TickPosition("a", 80) == 39
    ensures var drawn := DrawnBar(80, 39, Solid, LevelHint(5));
      && |drawn| == 81
      && drawn[39] == Solid && drawn[40] == Solid
      && drawn[76] == Solid && drawn[78] == Dashed
    ensures var bar := Bar(80, 39, Solid, LevelHint(5));
      && |bar| == 80
      && bar[76] == Dashed && bar[78] == Dotted
  {
    var hint := LevelHint(5);
    var prefix := PrefixText(hint, 80);
    assert |prefix| == 6;
    var cells := BarCells(80, 39, Solid, hint);
    var drawn := prefix + Glyphs(cells);
    assert |cells| == 75;
    assert drawn[39] == Glyphs(cells)[33] == BarCell(80, 5, 38, 39, Solid).glyph;
    assert drawn[40] == Glyphs(cells)[34] == BarCell(80, 5, 39, 39, Solid).glyph;
    assert drawn[76] == Glyphs(cells)[70] == BarCell(80, 5, 75, 39, Solid).glyph;
    assert drawn[78] == Glyphs(cells)[72] == BarCell(80, 5, 77, 39, Solid).glyph;
    BarTickAtItsColumn(80, 39, Solid, hint);
    assert Bar(80, 39, Solid, hint)[76] == BarCell(80, 6, 76, 39, Solid).glyph;
    assert Bar(80, 39, Solid, hint)[78] == BarCell(80, 6, 78, 39, Solid).glyph;
  }

  /** The bar as intended: its cells start right after the prefix actually drawn. */
  function Bar(width: nat, tickPos: nat, tickChar: char, hint: string): string {
    var prefix := PrefixText(hint, width);
    prefix + Glyphs(BarCellsFrom(width, |prefix|, tickPos, tickChar))
  }

  /** With the cells starting after the prefix, every cell is drawn at its own column, the tick included. */
  lemma BarTickAtItsColumn(width: nat, tickPos: nat, tickChar: char, hint: string)
    requires |PrefixText(hint, width)| <= tickPos < width
    ensures |Bar(width, tickPos, tickChar, hint)| == width
    ensures Bar(width, tickPos, tickChar, hint)[..|PrefixText(hint, width)|] == PrefixText(hint, width)
    ensures forall column :: |PrefixText(hint, width)| <= column < width ==>
      Bar(width, tickPos, tickChar, hint)[column]
        == BarCell(width, |PrefixText(hint, width)|, column, tickPos, tickChar).glyph
    ensures Bar(width, tickPos, tickChar, hint)[tickPos] == tickChar
  {
    var prefix := PrefixText(hint, width);
    var cells := BarCellsFrom(width, |prefix|, tickPos, tickChar);
    var r := prefix + Glyphs(cells);
    forall column | |prefix| <= column < width
      ensures r[column] == BarCell(width, |prefix|, column, tickPos, tickChar).glyph
    {
      assert r[column] == Glyphs(cells)[column - |prefix|];
    }
  }

  /** As intended, the tick is drawn in the bar at the column of the title's middle character. */
  lemma TickDrawnOverTitle(title: string, width: nat, level: nat, tickChar: char)
    requires title != []
    requires |PrefixText(LevelHint(level), width)| <= TickPosition(title, width) < width
    ensures var tick := TickPosition(title, width);
      && Bar(width, tick, tickChar, LevelHint(level))[tick] == tickChar
      && ItemText(title, width)[tick] == title[|title| / 2]
  {
    BarTickAtItsColumn(width, TickPosition(title, width), tickChar, LevelHint(level));
    TickOverTitle(title, width);
  }

  /** `render_item` gray by distance from the selection. */
  function ItemGray(distance: nat): (g: nat)
    ensures 60 <= g <= 150
    ensures distance == 1 <==> g == 150
  {
    if distance == 1 then 150
    else if distance == 2 then 110
    else if distance == 3 then 80
    else 60
  }

  /** From distance 1 on, farther items are never brighter. */
  lemma ItemGrayFades(d: nat, d': nat)
    requires 1 <= d <= d'
    ensures ItemGray(d') <= ItemGray(d)
    ensures d < d' && d < 4 ==> ItemGray(d') < ItemGray(d)
  {
  }

  /** A section title drawn at a row of the view, at a distance from the selection. */
  datatype Item = Item(index: nat, row: nat, distance: nat)

  /**
   * The upward walk from (`startIdx`, `startRow`): one item per step, index and row both
   * going down by one, until index 0 or row 0 has been drawn; nothing if the start is out of range.
   */
  function WalkUp(startIdx: nat, startRow: nat, count: nat, height: nat): seq<Item> {
    if startIdx < count && startRow < height then
      var n := (if startIdx < startRow then startIdx else startRow) + 1;
      seq(n, k requires 0 <= k < n => Item(startIdx - k, startRow - k, k + 1))
    else []
  }

  /**
   * The loop of `render` that draws the items above the selection, exactly as written: it
   * starts at index `selected −sat 1` and row `center −sat 2`.
   */
  method AboveWalkAsWritten(selected: nat, centerY: nat, height: nat, count: nat) returns (items: seq<Item>)
    ensures items == WalkUp(if selected >= 1 then selected - 1 else 0, if centerY >= 2 then centerY - 2 else 0, count, height)
  {
    var startIdx: nat := if selected >= 1 then selected - 1 else 0;
    var startRow: nat := if centerY >= 2 then centerY - 2 else 0;
    var aboveY: nat := startRow;
    var aboveIdx: nat := startIdx;
    var distance: nat := 1;
    items := [];
    while aboveIdx < count && aboveY < height
      invariant 1 <= distance
      invariant aboveIdx + distance - 1 == startIdx && aboveY + distance - 1 == startRow
      invariant startIdx < count && startRow < height ==> aboveIdx < count && aboveY < height
      invariant !(startIdx < count && startRow < height) ==> items == []
      invariant items == seq(distance - 1, k requires 0 <= k < distance - 1 => Item(startIdx - k, startRow - k, k + 1))
      decreases aboveIdx
    {
      items := items + [Item(aboveIdx, aboveY, distance)];
      if aboveIdx == 0 || aboveY == 0 {
        break;
      }
      aboveIdx := aboveIdx - 1;
      aboveY := aboveY - 1;
      distance := distance + 1;
    }
  }

  /** As written, with the first section selected, that same section is drawn again just above it. */
  lemma AboveRepeatsFirstSection(centerY: nat, height: nat, count: nat)
    requires count > 0 && 2 <= centerY < height
    ensures WalkUp(0, centerY - 2, count, height) == [Item(0, centerY - 2, 1)]
  {
  }

  /** As written, in a three-row view the item above the selection lands on the top bar's row. */
  lemma AboveCoversTopBar(selected: nat, count: nat)
    requires 0 < selected < count
    ensures var centerY := 3 / 2;
      WalkUp(selected - 1, 0, count, 3) == [Item(selected - 1, centerY - 1, 1)]
  {
  }

  /**
   * The items above the selection, as the view intends them: the sections before the selected
   * one, starting two rows above its row (just above the top bar); none when the first section
   * is selected or there is no row above the bar.
   */
  function AboveItems(selected: nat, centerY: nat, height: nat, count: nat): seq<Item> {
    if selected == 0 || centerY < 2 then [] else WalkUp(selected - 1, centerY - 2, count, height)
  }

  /**
   * Every item above is an earlier section, on a row above the top bar, at its distance in
   * sections from the selection; the walk goes as far as the first section or the top row.
   */
  lemma AboveItemsSound(selected: nat, centerY: nat, height: nat, count: nat)
    requires selected < count && centerY < height
    ensures var items := AboveItems(selected, centerY, height, count);
      && (forall k :: 0 <= k < |items| ==> items[k].index < selected && items[k].row + 1 < centerY)
      && (forall k :: 0 <= k < |items| ==> items[k].distance == selected - items[k].index)
      && (forall k :: 0 <= k < |items| ==> items[k].row + items[k].distance + 1 == centerY)
      && |items| == if centerY < 2 then 0 else if selected < centerY - 1 then selected else centerY - 1
  {
  }

  /** The downward walk: indices and rows going up by one while both are in range. */
  function WalkDown(startIdx: nat, startRow: nat, count: nat, height: nat): seq<Item> {
    var byIndex := if count >= startIdx then count - startIdx else 0;
    var byRow := if height >= startRow then height - startRow else 0;
    var n := if byIndex < byRow then byIndex else byRow;
    seq(n, k requires 0 <= k < n => Item(startIdx + k, startRow + k, k + 1))
  }

  /** The loop of `render` that draws the items below the selection, proved to compute `WalkDown`. */
  method BelowWalk(selected: nat, centerY: nat, height: nat, count: nat) returns (items: seq<Item>)
    ensures items == WalkDown(selected + 1, centerY + 2, count, height)
  {
    var belowY: nat := centerY + 2;
    var belowIdx: nat := selected + 1;
    var distance: nat := 1;
    items := [];
    while belowIdx < count && belowY < height
      invariant distance >= 1 && belowIdx == selected + distance && belowY == centerY + 1 + distance
      invariant distance > 1 ==> belowIdx <= count && belowY <= height
      invariant items == seq(distance - 1, k requires 0 <= k < distance - 1 => Item(selected + 1 + k, centerY + 2 + k, k + 1))
      decreases count - belowIdx
    {
      items := items + [Item(belowIdx, belowY, distance)];
      belowIdx := belowIdx + 1;
      belowY := belowY + 1;
      distance := distance + 1;
    }
    assert |items| == |WalkDown(selected + 1, centerY + 2, count, height)|;
  }

  /**
   * Every item below is a later section, on a row below the bottom bar and inside the view,
   * at its distance in sections from the selection; it stops at the last section or the last row.
   */
  lemma BelowItemsSound(selected: nat, centerY: nat, height: nat, count: nat)
    ensures var items := WalkDown(selected + 1, centerY + 2, count, height);
      && (forall k :: 0 <= k < |items| ==> selected < items[k].index < count)
      && (forall k :: 0 <= k < |items| ==> centerY + 1 < items[k].row < height)
      && (forall k :: 0 <= k < |items| ==> items[k].distance == items[k].index - selected)
      && (selected + 1 + |items| >= count || centerY + 2 + |items| >= height)
  {
  }

  // ---------------------------------------------------------------------------------------
  // The whole view
  // ---------------------------------------------------------------------------------------

  /** What the outline view draws, rows relative to its area. */
  datatype OutlineRows = OutlineRows(
    topBar: nat,
    selectedRow: nat,
    bottomBar: nat,
    tick: nat,
    hint: string,
    bar: string,
    selectedText: string,
    above: seq<Item>,
    below: seq<Item>)

  /**
   * `render` (outline view): nothing without sections or with fewer than three rows;
   * otherwise the selection on the middle row between its bars, earlier sections above and
   * later ones below, never on a row taken by the selection or its bars.
   */
  function Render(sections: seq<Section>, selected: nat, width: nat, height: nat): (r: Option<OutlineRows>)
    requires sections == [] || selected < |sections|
    ensures r.None? <==> sections == [] || height < 3
    ensures r.Some? ==> (r.value.selectedRow == height / 2
      && r.value.topBar + 1 == r.value.selectedRow && r.value.bottomBar == r.value.selectedRow + 1 < height)
    ensures r.Some? ==> r.value.tick == TickPosition(sections[selected].title, width)
    ensures r.Some? ==> r.value.hint == LevelHint(sections[selected].level)
    ensures r.Some? && sections[selected].title != [] && |PrefixText(r.value.hint, width)| <= r.value.tick < width ==>
      && |r.value.bar| == width
      && r.value.bar[r.value.tick] == Solid
      && r.value.tick < |r.value.selectedText|
      && r.value.selectedText[r.value.tick] == sections[selected].title[|sections[selected].title| / 2]
    ensures r.Some? ==> forall k :: 0 <= k < |r.value.above| ==>
      r.value.above[k].row < r.value.topBar && r.value.above[k].index < selected
    ensures r.Some? ==> forall k :: 0 <= k < |r.value.below| ==>
      r.value.bottomBar < r.value.below[k].row < height && selected < r.value.below[k].index < |sections|
  {
    if sections == [] || height < 3 then None
    else
      var centerY := height / 2;
      var title := sections[selected].title;
      var tick := TickPosition(title, width);
      var hint := LevelHint(sections[selected].level);
      AboveItemsSound(selected, centerY, height, |sections|);
      BelowItemsSound(selected, centerY, height, |sections|);
      var rows := OutlineRows(
        centerY - 1, centerY, centerY + 1,
        tick,
        hint,
        Bar(width, tick, Solid, hint),
        ItemText(title, width),
        AboveItems(selected, centerY, height, |sections|),
        WalkDown(selected + 1, centerY + 2, |sections|, height));
      if title != [] && |PrefixText(hint, width)| <= tick < width then
        TickDrawnOverTitle(title, width, sections[selected].level, Solid);
        BarTickAtItsColumn(width, tick, Solid, hint);
        Some(rows)
      else
        Some(rows)
  }
}
