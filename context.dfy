/**
 * The context lines above and below the reading word: the document's tokens packed greedily
 * into display lines (a blank separator line between blocks), the lookup of the line holding
 * the current word, the width and centering of a line, and which words a view shows.
 *
 * Packing always starts at token 0 and stops 500 tokens past the cursor, so line breaks never
 * depend on where the cursor is (no reflow).
 */
module Context {
  import opened Types
  import opened Chars

  const MinPadding: nat := 2
  const LookAhead: nat := 500

  /** A token on a line, with its index in the whole token stream. */
  type Placed = (nat, TimedToken)

  /** `DocLine`: the placed tokens of one display line, or a blank separator line. */
  datatype DocLine = DocLine(tokens: seq<Placed>, isBlank: bool)

  /** `table_row`: the row of a table cell, nothing for any other block. */
  function TableRow(block: BlockContext): (r: Option<nat>)
    ensures r.Some? <==> block.TableCell?
    ensures r.Some? ==> r.value == block.row
  {
    match block
    case TableCell(row) => Some(row)
    case _ => None
  }

  /** A word takes its characters plus one space. */
  function WordWidth(t: TimedToken): nat {
    |t.token.word| + 1
  }

  /** `width −sat (MIN_PADDING + 4)`, capped at the configured line length. */
  function MaxChars(width: nat, maxLineChars: nat): (r: nat)
    ensures r <= maxLineChars
    ensures width >= MinPadding + 4 ==> r == if width - 6 < maxLineChars then width - 6 else maxLineChars
    ensures width < MinPadding + 4 ==> r == 0
  {
    var room := if width >= MinPadding + 4 then width - (MinPadding + 4) else 0;
    if room < maxLineChars then room else maxLineChars
  }

  /** Packing stops 500 tokens past the cursor or at the end of the document. */
  function ScanEnd(pos: nat, count: nat): (r: nat)
    ensures r <= count && r <= pos + LookAhead
    ensures r == count || r == pos + LookAhead
  {
    if pos + LookAhead < count then pos + LookAhead else count
  }

  /** The first word of a list item (the only list word with a structure pause). */
  predicate IsNewListItem(t: TimedToken) {
    t.token.block.ListItem? && t.token.timingHint.structureModifier > 0
  }

  // ---------------------------------------------------------------------------------------
  // Greedy packing, as a fold over the tokens
  // ---------------------------------------------------------------------------------------

  /** The loop state of `compute_document_lines`. */
  datatype Layout = Layout(
    lines: seq<DocLine>,
    current: seq<Placed>,
    width: nat,
    lastBlock: Option<BlockContext>,
    lastRow: Option<nat>)

  const Start := Layout([], [], 0, None, None)

  predicate BlockChanged(l: Layout, t: TimedToken) {
    || IsNewListItem(t)
    || (l.lastBlock.Some? &&
        if TableRow(t.token.block).Some? && l.lastRow.Some? then TableRow(t.token.block) != l.lastRow
        else l.lastBlock.value != t.token.block)
  }

  predicate TableTransition(l: Layout, t: TimedToken) {
    l.lastRow.Some? != TableRow(t.token.block).Some?
  }

  predicate Breaks(l: Layout, t: TimedToken, maxChars: nat) {
    (BlockChanged(l, t) || TableTransition(l, t) || l.width + WordWidth(t) > maxChars) && l.current != []
  }

  /** One iteration: close the current line if needed (plus a blank line on a block change), then add the token. */
  function Step(l: Layout, idx: nat, t: TimedToken, maxChars: nat): Layout {
    var closed := Breaks(l, t, maxChars);
    var lines :=
      if !closed then l.lines
      else if BlockChanged(l, t) || TableTransition(l, t) then l.lines + [DocLine(l.current, false), DocLine([], true)]
      else l.lines + [DocLine(l.current, false)];
    var current := if closed then [] else l.current;
    var width := if closed then 0 else l.width;
    Layout(lines, current + [(idx, t)], width + WordWidth(t), Some(t.token.block), TableRow(t.token.block))
  }

  /** The loop state after the first `k` tokens. */
  function Fold(tokens: seq<TimedToken>, k: nat, maxChars: nat): Layout
    requires k <= |tokens|
  {
    if k == 0 then Start else Step(Fold(tokens, k - 1, maxChars), k - 1, tokens[k - 1], maxChars)
  }

  function Finish(l: Layout): seq<DocLine> {
    if l.current != [] then l.lines + [DocLine(l.current, false)] else l.lines
  }

  /** `compute_document_lines(tokens, pos, width, max_line_chars)` */
  function DocumentLines(tokens: seq<TimedToken>, pos: nat, width: nat, maxLineChars: nat): seq<DocLine> {
    Finish(Fold(tokens, ScanEnd(pos, |tokens|), MaxChars(width, maxLineChars)))
  }

  /** `compute_document_lines`: the packing loop, proved to compute `DocumentLines`. */
  method ComputeDocumentLines(tokens: seq<TimedToken>, pos: nat, width: nat, maxLineChars: nat)
    returns (lines: seq<DocLine>)
    ensures lines == DocumentLines(tokens, pos, width, maxLineChars)
  {
    var end := ScanEnd(pos, |tokens|);
    var maxChars := MaxChars(width, maxLineChars);
    lines := [];
    var currentLine: seq<Placed> := [];
    var currentWidth: nat := 0;
    var lastBlock: Option<BlockContext> := None;
    var lastTableRow: Option<nat> := None;
    for idx := 0 to end
      invariant Layout(lines, currentLine, currentWidth, lastBlock, lastTableRow) == Fold(tokens, idx, maxChars)
    {
      var token := tokens[idx];
      var currentTableRow := TableRow(token.token.block);
      var isTableCell := currentTableRow.Some?;
      var wasInTable := lastTableRow.Some?;
      var isNewListItem := token.token.block.ListItem? && token.token.timingHint.structureModifier > 0;
      var blockChanged := isNewListItem ||
        (lastBlock.Some? &&
          if isTableCell && wasInTable then currentTableRow != lastTableRow
          else lastBlock.value != token.token.block);
      var tableTransition := wasInTable != isTableCell;
      var wordWidth := |token.token.word| + 1;
      var wouldOverflow := currentWidth + wordWidth > maxChars;
      if (blockChanged || tableTransition || wouldOverflow) && currentLine != [] {
        lines := lines + [DocLine(currentLine, false)];
        currentLine := [];
        currentWidth := 0;
        if blockChanged || tableTransition {
          lines := lines + [DocLine([], true)];
        }
      }
      currentLine := currentLine + [(idx, token)];
      currentWidth := currentWidth + wordWidth;
      lastBlock := Some(token.token.block);
      lastTableRow := currentTableRow;
    }
    if currentLine != [] {
      lines := lines + [DocLine(currentLine, false)];
    }
  }

  // ---------------------------------------------------------------------------------------
  // What the packing guarantees
  // ---------------------------------------------------------------------------------------

  /** The global indices of placed tokens, in order. */
  function Idx(ps: seq<Placed>): (r: seq<nat>)
    ensures |r| == |ps|
    ensures forall j :: 0 <= j < |ps| ==> r[j] == ps[j].0
  {
    seq(|ps|, j requires 0 <= j < |ps| => ps[j].0)
  }

  /** The indices of all lines, concatenated (blank lines contribute nothing). */
  function Indices(lines: seq<DocLine>): seq<nat> {
    if lines == [] then [] else Indices(lines[..|lines| - 1]) + Idx(lines[|lines| - 1].tokens)
  }

  function Range(n: nat): (r: seq<nat>)
    ensures |r| == n
    ensures forall i :: 0 <= i < n ==> r[i] == i
  {
    seq(n, i => i)
  }

  lemma IndicesAppend(lines: seq<DocLine>, line: DocLine)
    ensures Indices(lines + [line]) == Indices(lines) + Idx(line.tokens)
  {
    assert (lines + [line])[..|lines|] == lines;
  }

  /** The lines and the open line hold exactly the indices `0 .. n - 1`, in order. */
  predicate IndexedUpTo(l: Layout, n: nat) {
    Indices(l.lines) + Idx(l.current) == Range(n)
  }

  lemma StepIndices(l: Layout, idx: nat, t: TimedToken, maxChars: nat)
    ensures var n := Step(l, idx, t, maxChars);
      Indices(n.lines) + Idx(n.current) == Indices(l.lines) + Idx(l.current) + [idx]
  {
    var n := Step(l, idx, t, maxChars);
    var line := DocLine(l.current, false);
    if Breaks(l, t, maxChars) {
      IndicesAppend(l.lines, line);
      if BlockChanged(l, t) || TableTransition(l, t) {
        IndicesAppend(l.lines + [line], DocLine([], true));
        assert n.lines == l.lines + [line] + [DocLine([], true)];
      }
      assert Idx(n.current) == [idx];
    } else {
      assert Idx(n.current) == Idx(l.current) + [idx];
    }
  }

  lemma StepIndexed(l: Layout, n: nat, t: TimedToken, maxChars: nat)
    requires IndexedUpTo(l, n)
    ensures IndexedUpTo(Step(l, n, t, maxChars), n + 1)
  {
    StepIndices(l, n, t, maxChars);
    assert Range(n + 1) == Range(n) + [n];
  }

  lemma {:induction false} FoldIndices(tokens: seq<TimedToken>, k: nat, maxChars: nat)
    requires k <= |tokens|
    ensures IndexedUpTo(Fold(tokens, k, maxChars), k)
  {
    if k > 0 {
      FoldIndices(tokens, k - 1, maxChars);
      StepIndexed(Fold(tokens, k - 1, maxChars), k - 1, tokens[k - 1], maxChars);
    }
  }

  /** The lines list every index from 0 up to the scan end exactly once, in increasing order. */
  lemma DocumentIndices(tokens: seq<TimedToken>, pos: nat, width: nat, maxLineChars: nat)
    ensures Indices(DocumentLines(tokens, pos, width, maxLineChars)) == Range(ScanEnd(pos, |tokens|))
  {
    var l := Fold(tokens, ScanEnd(pos, |tokens|), MaxChars(width, maxLineChars));
    FoldIndices(tokens, ScanEnd(pos, |tokens|), MaxChars(width, maxLineChars));
    if l.current != [] {
      IndicesAppend(l.lines, DocLine(l.current, false));
    }
  }

  /** Blank lines are exactly the token-less ones, and one never starts or follows another. */
  predicate SeparatorsSound(lines: seq<DocLine>) {
    && (forall i :: 0 <= i < |lines| ==> (lines[i].isBlank <==> lines[i].tokens == []))
    && (|lines| > 0 ==> !lines[0].isBlank)
    && (forall i :: 0 < i < |lines| && lines[i].isBlank ==> !lines[i - 1].isBlank)
  }

  predicate WellShaped(lines: seq<DocLine>) {
    SeparatorsSound(lines) && (|lines| > 0 ==> !lines[|lines| - 1].isBlank)
  }

  lemma {:induction false} FoldShape(tokens: seq<TimedToken>, k: nat, maxChars: nat)
    requires k <= |tokens|
    ensures SeparatorsSound(Fold(tokens, k, maxChars).lines)
    ensures k == 0 <==> Fold(tokens, k, maxChars).current == []
  {
    if k > 0 {
      FoldShape(tokens, k - 1, maxChars);
      StepShape(Fold(tokens, k - 1, maxChars), k - 1, tokens[k - 1], maxChars);
    }
  }

  lemma StepShape(l: Layout, idx: nat, t: TimedToken, maxChars: nat)
    requires SeparatorsSound(l.lines)
    ensures SeparatorsSound(Step(l, idx, t, maxChars).lines)
    ensures Step(l, idx, t, maxChars).current != []
  {
  }

  /**
   * Every non-blank line holds a token, blank lines hold none, and a blank line is never the
   * first line, never the last, and never next to another blank.
   */
  lemma DocumentShape(tokens: seq<TimedToken>, pos: nat, width: nat, maxLineChars: nat)
    ensures WellShaped(DocumentLines(tokens, pos, width, maxLineChars))
  {
    FoldShape(tokens, ScanEnd(pos, |tokens|), MaxChars(width, maxLineChars));
  }

  /** The widths of placed tokens, added up. */
  function SumWidth(ps: seq<Placed>): nat {
    if ps == [] then 0 else SumWidth(ps[..|ps| - 1]) + WordWidth(ps[|ps| - 1].1)
  }

  predicate LinesFit(lines: seq<DocLine>, maxChars: nat) {
    forall i :: 0 <= i < |lines| && |lines[i].tokens| >= 2 ==> SumWidth(lines[i].tokens) <= maxChars
  }

  /** What the packing loop keeps true about widths after every token. */
  predicate LayoutFits(l: Layout, maxChars: nat) {
    && LinesFit(l.lines, maxChars)
    && l.width == SumWidth(l.current)
    && (|l.current| >= 2 ==> l.width <= maxChars)
  }

  lemma StepFits(l: Layout, idx: nat, t: TimedToken, maxChars: nat)
    requires LayoutFits(l, maxChars)
    ensures LayoutFits(Step(l, idx, t, maxChars), maxChars)
  {
    var next := Step(l, idx, t, maxChars);
    if Breaks(l, t, maxChars) {
      assert next.current[..|next.current| - 1] == [];
      var line := DocLine(l.current, false);
      if BlockChanged(l, t) || TableTransition(l, t) {
        assert next.lines == l.lines + [line, DocLine([], true)];
      } else {
        assert next.lines == l.lines + [line];
      }
    } else {
      assert next.current[..|next.current| - 1] == l.current;
    }
  }

  lemma {:induction false} FoldFits(tokens: seq<TimedToken>, k: nat, maxChars: nat)
    requires k <= |tokens|
    ensures LayoutFits(Fold(tokens, k, maxChars), maxChars)
  {
    if k > 0 {
      FoldFits(tokens, k - 1, maxChars);
      StepFits(Fold(tokens, k - 1, maxChars), k - 1, tokens[k - 1], maxChars);
    }
  }

  /**
   * A line of two or more words fits in `min(width −sat 6, max_line_chars)`, each word counted
   * with its space; only a word alone on its line can be wider.
   */
  lemma DocumentFits(tokens: seq<TimedToken>, pos: nat, width: nat, maxLineChars: nat)
    ensures LinesFit(DocumentLines(tokens, pos, width, maxLineChars), MaxChars(width, maxLineChars))
  {
    FoldFits(tokens, ScanEnd(pos, |tokens|), MaxChars(width, maxLineChars));
  }

  /** All words of a line share one block, and a list item's first word is first on its line. */
  predicate LineCoherent(ps: seq<Placed>) {
    && (forall j :: 0 <= j < |ps| ==> ps[j].1.token.block == ps[0].1.token.block)
    && (forall j :: 0 < j < |ps| ==> !IsNewListItem(ps[j].1))
  }

  predicate LinesCoherent(lines: seq<DocLine>) {
    forall i :: 0 <= i < |lines| ==> LineCoherent(lines[i].tokens)
  }

  /** What the packing loop keeps true about blocks once it has placed the token `t`. */
  predicate LayoutCoherent(l: Layout, t: TimedToken) {
    && LinesCoherent(l.lines)
    && LineCoherent(l.current)
    && l.lastBlock == Some(t.token.block)
    && l.lastRow == TableRow(t.token.block)
    && l.current != []
    && l.current[0].1.token.block == t.token.block
  }

  lemma StepCoherent(l: Layout, prev: Option<TimedToken>, idx: nat, t: TimedToken, maxChars: nat)
    requires prev.None? ==> l == Start
    requires prev.Some? ==> LayoutCoherent(l, prev.value)
    ensures LayoutCoherent(Step(l, idx, t, maxChars), t)
  {
    if !Breaks(l, t, maxChars) && l.current != [] {
      if TableRow(t.token.block).Some? && l.lastRow.Some? {
        assert t.token.block == prev.value.token.block;
      }
    }
  }

  lemma {:induction false} FoldCoherent(tokens: seq<TimedToken>, k: nat, maxChars: nat)
    requires k <= |tokens|
    ensures k == 0 ==> Fold(tokens, k, maxChars) == Start
    ensures k > 0 ==> LayoutCoherent(Fold(tokens, k, maxChars), tokens[k - 1])
  {
    if k > 0 {
      FoldCoherent(tokens, k - 1, maxChars);
      var prev := if k == 1 then None else Some(tokens[k - 2]);
      StepCoherent(Fold(tokens, k - 1, maxChars), prev, k - 1, tokens[k - 1], maxChars);
    }
  }

  /** Every line's words share one block, and a list item's first word always starts a line. */
  lemma DocumentCoherent(tokens: seq<TimedToken>, pos: nat, width: nat, maxLineChars: nat)
    ensures LinesCoherent(DocumentLines(tokens, pos, width, maxLineChars))
  {
    FoldCoherent(tokens, ScanEnd(pos, |tokens|), MaxChars(width, maxLineChars));
  }

  lemma {:induction false} FoldGrows(tokens: seq<TimedToken>, k: nat, k': nat, maxChars: nat)
    requires k <= k' <= |tokens|
    ensures Fold(tokens, k, maxChars).lines <= Fold(tokens, k', maxChars).lines
    decreases k' - k
  {
    if k < k' {
      FoldGrows(tokens, k, k' - 1, maxChars);
    }
  }

  /**
   * No reflow: moving the cursor forward only appends lines. Every line for the earlier cursor
   * except its last is a line, at the same place, for the later cursor.
   */
  lemma NoReflow(tokens: seq<TimedToken>, pos: nat, pos': nat, width: nat, maxLineChars: nat)
    requires pos <= pos'
    ensures var before := DocumentLines(tokens, pos, width, maxLineChars);
      before == [] || before[..|before| - 1] <= DocumentLines(tokens, pos', width, maxLineChars)
  {
    var m := MaxChars(width, maxLineChars);
    var k, k' := ScanEnd(pos, |tokens|), ScanEnd(pos', |tokens|);
    FoldShape(tokens, k, m);
    FoldShape(tokens, k', m);
    FoldGrows(tokens, k, k', m);
    var a, b := Fold(tokens, k, m), Fold(tokens, k', m);
    if a.current != [] {
      assert Finish(a)[..|Finish(a)| - 1] == a.lines;
    }
  }

  // ---------------------------------------------------------------------------------------
  // Finding the cursor's line
  // ---------------------------------------------------------------------------------------

  /** Word `j` of line `i` is the token at global index `pos`. */
  predicate HoldsAt(lines: seq<DocLine>, pos: nat, i: nat, j: nat) {
    i < |lines| && j < |lines[i].tokens| && lines[i].tokens[j].0 == pos
  }

  /** `find_position_in_lines`: the first (line, word) holding `pos`, or (0, 0) when none does. */
  method FindPositionInLines(lines: seq<DocLine>, pos: nat) returns (lineIdx: nat, wordIdx: nat)
    ensures (exists i: nat, j: nat :: HoldsAt(lines, pos, i, j)) ==> HoldsAt(lines, pos, lineIdx, wordIdx)
    ensures forall i: nat, j: nat :: HoldsAt(lines, pos, i, j) ==> lineIdx < i || (lineIdx == i && wordIdx <= j)
    ensures (forall i: nat, j: nat :: !HoldsAt(lines, pos, i, j)) ==> lineIdx == 0 && wordIdx == 0
  {
    for i := 0 to |lines|
      invariant forall i': nat, j: nat :: i' < i ==> !HoldsAt(lines, pos, i', j)
    {
      for j := 0 to |lines[i].tokens|
        invariant forall i': nat, j': nat :: (i' < i || (i' == i && j' < j)) ==> !HoldsAt(lines, pos, i', j')
      {
        if lines[i].tokens[j].0 == pos {
          assert HoldsAt(lines, pos, i, j);
          return i, j;
        }
      }
    }
    return 0, 0;
  }

  lemma {:induction false} HeldIndex(lines: seq<DocLine>, i: nat, j: nat)
    requires i < |lines| && j < |lines[i].tokens|
    ensures lines[i].tokens[j].0 in Indices(lines)
    decreases |lines|
  {
    var last := |lines| - 1;
    if i < last {
      HeldIndex(lines[..last], i, j);
    } else {
      assert Idx(lines[last].tokens)[j] == lines[i].tokens[j].0;
    }
  }

  lemma {:induction false} IndexHeld(lines: seq<DocLine>, pos: nat)
    requires pos in Indices(lines)
    ensures exists i: nat, j: nat :: HoldsAt(lines, pos, i, j)
    decreases |lines|
  {
    var last := |lines| - 1;
    if pos in Indices(lines[..last]) {
      IndexHeld(lines[..last], pos);
      var i: nat, j: nat :| HoldsAt(lines[..last], pos, i, j);
      assert HoldsAt(lines, pos, i, j);
    } else {
      var k :| 0 <= k < |Idx(lines[last].tokens)| && Idx(lines[last].tokens)[k] == pos;
      assert HoldsAt(lines, pos, last, k);
    }
  }

  /** A position is found in the document lines exactly when it lies before the scan end. */
  lemma PositionShown(tokens: seq<TimedToken>, pos: nat, width: nat, maxLineChars: nat, p: nat)
    ensures (exists i: nat, j: nat :: HoldsAt(DocumentLines(tokens, pos, width, maxLineChars), p, i, j))
      <==> p < ScanEnd(pos, |tokens|)
  {
    var lines := DocumentLines(tokens, pos, width, maxLineChars);
    DocumentIndices(tokens, pos, width, maxLineChars);
    if p < ScanEnd(pos, |tokens|) {
      assert Range(ScanEnd(pos, |tokens|))[p] == p;
      IndexHeld(lines, p);
    } else if i: nat, j: nat :| HoldsAt(lines, p, i, j) {
      HeldIndex(lines, i, j);
    }
  }

  /** The cursor's own word is always on the lines built for that cursor. */
  lemma CursorShown(tokens: seq<TimedToken>, pos: nat, width: nat, maxLineChars: nat)
    requires pos < |tokens|
    ensures exists i: nat, j: nat :: HoldsAt(DocumentLines(tokens, pos, width, maxLineChars), pos, i, j)
  {
    PositionShown(tokens, pos, width, maxLineChars, pos);
  }

  // ---------------------------------------------------------------------------------------
  // Line width, prefix and the rendered text of a line
  // ---------------------------------------------------------------------------------------

  /** `block_prefix` */
  function BlockPrefix(block: BlockContext): (r: string)
    ensures |r| <= 4
    ensures r == [] <==> block.Heading? || block.Paragraph?
    ensures r != [] ==> r[|r| - 1] == ' '
  {
    match block
    case ListItem(_) => "* "
    case Quote(_) => "| "
    case TableCell(_) => "| "
    case Heading(_) => ""
    case Paragraph => ""
    case Callout(_) => "[i] "
  }

  /** A " | " separator goes before a word that starts a new cell right after another cell. */
  predicate CellSeparatorAt(ps: seq<Placed>, j: nat)
    requires j < |ps|
  {
    && j > 0
    && TableRow(ps[j].1.token.block).Some?
    && ps[j].1.token.timingHint.isCellStart
    && TableRow(ps[j - 1].1.token.block).Some?
  }

  /** Width of the first `n` words with their cell separators. */
  function WordsWidth(ps: seq<Placed>, n: nat): nat
    requires n <= |ps|
  {
    if n == 0 then 0
    else WordsWidth(ps, n - 1) + (if CellSeparatorAt(ps, n - 1) then 3 else 0) + WordWidth(ps[n - 1].1)
  }

  predicate EndsInCell(ps: seq<Placed>) {
    ps != [] && TableRow(ps[|ps| - 1].1.token.block).Some?
  }

  /** The display width of a line: prefix, words with separators, and a closing bar for a table row. */
  function ContentWidth(line: DocLine): nat {
    if line.isBlank || line.tokens == [] then 0
    else (|BlockPrefix(line.tokens[0].1.token.block)| + WordsWidth(line.tokens, |line.tokens|)
      + (if EndsInCell(line.tokens) then 1 else 0))
  }

  /** `calculate_line_width`: the accumulation loop, proved to compute `ContentWidth`. */
  method CalculateLineWidth(line: DocLine) returns (width: nat)
    ensures width == ContentWidth(line)
  {
    if line.isBlank || line.tokens == [] {
      return 0;
    }
    var ps := line.tokens;
    width := |BlockPrefix(ps[0].1.token.block)|;
    var prevTableRow: Option<nat> := None;
    for j := 0 to |ps|
      invariant width == |BlockPrefix(ps[0].1.token.block)| + WordsWidth(ps, j)
      invariant prevTableRow == if j == 0 then None else TableRow(ps[j - 1].1.token.block)
    {
      var token := ps[j].1;
      var currentRow := TableRow(token.token.block);
      var isNewCell := currentRow.Some? && token.token.timingHint.isCellStart;
      if isNewCell && prevTableRow.Some? && j > 0 {
        width := width + 3;
      }
      width := width + |token.token.word| + 1;
      prevTableRow := currentRow;
    }
    if prevTableRow.Some? {
      width := width + 1;
    }
  }

  /** Which context a line is drawn in: above the reading word or below it. */
  datatype View = Before | After

  /** Above, only words already read are shown; below, only words still to come. */
  predicate IsVisible(idx: nat, pos: nat, view: View) {
    match view
    case Before => idx < pos
    case After => idx > pos
  }

  /** The reading word is shown in neither view; every other word in exactly one. */
  lemma VisibleOnce(idx: nat, pos: nat)
    ensures idx == pos ==> !IsVisible(idx, pos, Before) && !IsVisible(idx, pos, After)
    ensures idx != pos ==> IsVisible(idx, pos, Before) != IsVisible(idx, pos, After)
  {
  }

  /** A word and its space, or as many blanks in its place. */
  function WordText(p: Placed, pos: nat, view: View): (r: string)
    ensures |r| == WordWidth(p.1)
    ensures IsVisible(p.0, pos, view) ==> r == p.1.token.word + " "
    ensures !IsVisible(p.0, pos, view) ==> forall c :: 0 <= c < |r| ==> r[c] == ' '
  {
    if IsVisible(p.0, pos, view) then p.1.token.word + " " else Repeat(' ', |p.1.token.word| + 1)
  }

  function WordsText(ps: seq<Placed>, n: nat, pos: nat, view: View): string
    requires n <= |ps|
  {
    if n == 0 then []
    else (WordsText(ps, n - 1, pos, view) + (if CellSeparatorAt(ps, n - 1) then " | " else "")
      + WordText(ps[n - 1], pos, view))
  }

  /** The text `render_line` draws after the padding: prefix, words or blanks, separators, closing bar. */
  function LineText(line: DocLine, pos: nat, view: View): string {
    if line.isBlank || line.tokens == [] then []
    else (BlockPrefix(line.tokens[0].1.token.block) + WordsText(line.tokens, |line.tokens|, pos, view)
      + (if EndsInCell(line.tokens) then "|" else ""))
  }

  lemma {:induction false} WordsTextWidth(ps: seq<Placed>, n: nat, pos: nat, view: View)
    requires n <= |ps|
    ensures |WordsText(ps, n, pos, view)| == WordsWidth(ps, n)
  {
    if n > 0 {
      WordsTextWidth(ps, n - 1, pos, view);
    }
  }

  /**
   * The measured width is the width of what is drawn, in either view and for any cursor: a
   * blanked word takes the room of the word.
   */
  lemma LineTextWidth(line: DocLine, pos: nat, view: View)
    ensures |LineText(line, pos, view)| == ContentWidth(line)
  {
    if !(line.isBlank || line.tokens == []) {
      WordsTextWidth(line.tokens, |line.tokens|, pos, view);
    }
  }

  /** Moving the cursor never moves a word: the two texts of a line always have equal length. */
  lemma LineTextStable(line: DocLine, pos: nat, pos': nat, view: View, view': View)
    ensures |LineText(line, pos, view)| == |LineText(line, pos', view')|
  {
    LineTextWidth(line, pos, view);
    LineTextWidth(line, pos', view');
  }

  // ---------------------------------------------------------------------------------------
  // Padding, gutter hint and gray
  // ---------------------------------------------------------------------------------------

  /**
   * `calculate_padding(content, available)`: half the free room when the content fills less
   * than 60% of the width (`content / available < 0.6` is `5 * content < 3 * available`),
   * otherwise the minimum, and never less than the minimum.
   */
  function CalculatePadding(contentWidth: nat, availableWidth: nat): (r: nat)
    ensures r >= MinPadding
    ensures 5 * contentWidth >= 3 * availableWidth ==> r == MinPadding
    ensures 5 * contentWidth < 3 * availableWidth && availableWidth - contentWidth >= 2 * MinPadding ==>
      r + contentWidth + r <= availableWidth <= r + contentWidth + r + 1
    ensures 5 * contentWidth < 3 * availableWidth && availableWidth - contentWidth < 2 * MinPadding ==>
      r == MinPadding
  {
    var centred := if 5 * contentWidth < 3 * availableWidth then
      (if availableWidth >= contentWidth then availableWidth - contentWidth else 0) / 2
    else MinPadding;
    if centred < MinPadding then MinPadding else centred
  }

  /** The checkpoints of the padding tests. */
  lemma PaddingExamples()
    ensures CalculatePadding(20, 80) == 30
    ensures CalculatePadding(60, 80) == 2
    ensures CalculatePadding(48, 80) == 2
    ensures CalculatePadding(47, 80) == 16
    ensures CalculatePadding(79, 80) == 2
    ensures CalculatePadding(0, 80) == 40
  {
  }

  /** A line as drawn: padding, then the line text. */
  function RenderedLine(line: DocLine, pos: nat, view: View, areaWidth: nat): string {
    Repeat(' ', CalculatePadding(ContentWidth(line), areaWidth)) + LineText(line, pos, view)
  }

  /** A short line is centred: its left margin is never wider than its right, and at most one narrower. */
  lemma RenderedLineCentred(line: DocLine, pos: nat, view: View, areaWidth: nat)
    requires 5 * ContentWidth(line) < 3 * areaWidth
    requires areaWidth - ContentWidth(line) >= 2 * MinPadding
    ensures var r := |RenderedLine(line, pos, view, areaWidth)|;
      && r <= areaWidth
      && areaWidth - r <= r - ContentWidth(line) + 1
      && r - ContentWidth(line) <= areaWidth - r
  {
    LineTextWidth(line, pos, view);
  }

  const GutterWidth: nat := 4

  /** `block_hint_chars`: the gutter mark of a block. */
  function BlockHintChars(block: BlockContext): (r: string)
    ensures block.Heading? && 1 <= block.level <= 6 ==> r == Repeat('#', block.level)
    ensures block.Heading? && !(1 <= block.level <= 6) ==> r == "#"
    ensures r == [] <==> block.Paragraph?
    ensures |r| <= 6
  {
    match block
    case Heading(level) =>
      if level == 1 then "#" else if level == 2 then "##" else if level == 3 then "###"
      else if level == 4 then "####" else if level == 5 then "#####" else if level == 6 then "######"
      else "#"
    case ListItem(_) => "-"
    case Quote(_) => ">"
    case TableCell(_) => "|"
    case Callout(_) => "[!]"
    case Paragraph => ""
  }

  /** `format!("{:>4}", hint)`: the hint right-aligned in the gutter. */
  function GutterText(hint: string): (r: string)
    ensures |r| == if |hint| < GutterWidth then GutterWidth else |hint|
    ensures r[|r| - |hint|..] == hint
    ensures forall c :: 0 <= c < |r| - |hint| ==> r[c] == ' '
  {
    Repeat(' ', if |hint| < GutterWidth then GutterWidth - |hint| else 0) + hint
  }

  /** The gutter text drawn beside a line, if its first word's block has a hint. */
  function GutterHint(line: DocLine): (r: Option<string>)
    ensures r.Some? <==> !line.isBlank && line.tokens != [] && !line.tokens[0].1.token.block.Paragraph?
  {
    if line.isBlank || line.tokens == [] then None
    else
      var hint := BlockHintChars(line.tokens[0].1.token.block);
      if hint == [] then None else Some(GutterText(hint))
  }

  /** Gray level of a context line by its distance from the reading word. */
  function Gray(distance: nat): (g: nat)
    ensures 60 <= g <= 200
    ensures distance >= 4 <==> g == 60
    ensures distance == 0 <==> g == 200
  {
    if distance == 0 then 200
    else if distance == 1 then 150
    else if distance == 2 then 110
    else if distance == 3 then 80
    else 60
  }

  /** Farther lines are never brighter, and are strictly dimmer up to distance 4. */
  lemma GrayFades(d: nat, d': nat)
    requires d <= d'
    ensures Gray(d') <= Gray(d)
    ensures d < d' && d < 4 ==> Gray(d') < Gray(d)
  {
  }

  // ---------------------------------------------------------------------------------------
  // The windows of lines above and below the reading word
  // ---------------------------------------------------------------------------------------

  /** A document line drawn at a row of the context area, at a distance from the cursor line. */
  datatype Placement = Placement(line: nat, row: nat, distance: nat)

  /**
   * `render_lines_before`: up to `height` lines ending with the cursor line, bottom-aligned in
   * the area, the cursor line at distance 0.
   */
  function BeforePlacements(cursorLine: nat, lineCount: nat, height: nat): (r: seq<Placement>)
    ensures |r| <= height && |r| <= lineCount
    ensures height > 0 ==> |r| == if cursorLine + 1 <= lineCount then (if cursorLine + 1 < height then cursorLine + 1 else height)
      else (if lineCount < height then lineCount else height)
    ensures forall k :: 0 <= k < |r| ==> r[k].line <= cursorLine && r[k].line < lineCount && r[k].row < height
    ensures forall k :: 0 <= k < |r| ==> r[k].row == height - |r| + k
    ensures forall k :: 0 < k < |r| ==> r[k].line == r[k - 1].line + 1
    ensures forall k :: 0 <= k < |r| ==> r[k].distance == |r| - 1 - k
    ensures r != [] && cursorLine < lineCount ==> r[|r| - 1] == Placement(cursorLine, height - 1, 0)
  {
    if height == 0 then []
    else
      var end := if cursorLine + 1 < lineCount then cursorLine + 1 else lineCount;
      var start := if end >= height then end - height else 0;
      var shown := end - start;
      seq(shown, k requires 0 <= k < shown => Placement(start + k, height - shown + k, shown - 1 - k))
  }

  /**
   * `render_lines_after`: the cursor line and the lines after it, top-aligned, as many as the
   * area holds; nothing when the cursor line is past the end.
   */
  function AfterPlacements(cursorLine: nat, lineCount: nat, height: nat): (r: seq<Placement>)
    ensures |r| == if height == 0 || cursorLine >= lineCount then 0
      else if lineCount - cursorLine < height then lineCount - cursorLine else height
    ensures forall k :: 0 <= k < |r| ==> r[k] == Placement(cursorLine + k, k, k)
    ensures forall k :: 0 <= k < |r| ==> r[k].row < height && r[k].line < lineCount
  {
    if height == 0 || cursorLine >= lineCount then []
    else
      var end := if cursorLine + height < lineCount then cursorLine + height else lineCount;
      seq(end - cursorLine, k requires 0 <= k < end - cursorLine => Placement(cursorLine + k, k, k))
  }

  /** The cursor line is the one nearest the reading word in both views. */
  lemma CursorLineNearest(cursorLine: nat, lineCount: nat, height: nat)
    requires cursorLine < lineCount && height > 0
    ensures var b := BeforePlacements(cursorLine, lineCount, height);
      b != [] && b[|b| - 1] == Placement(cursorLine, height - 1, 0)
    ensures var a := AfterPlacements(cursorLine, lineCount, height);
      a != [] && a[0] == Placement(cursorLine, 0, 0)
  {
  }
}
