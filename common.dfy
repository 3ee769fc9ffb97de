/**
 * Shared UI arithmetic: the fade gradient of the guide lines and the centering padding.
 */
module Common {

  const MinPadding: nat := 2

  const FadeDotted: nat := 2
  const FadeDashed: nat := 2
  const FadeSolid: nat := 2
  const FadeTotal: nat := FadeDotted + FadeDashed + FadeSolid

  const BrightnessMin: nat := 40
  const BrightnessDottedEnd: nat := 60
  const BrightnessDashedEnd: nat := 80
  const BrightnessSolidEnd: nat := 120

  const Dotted: char := '\U{2504}'   // ┄
  const Dashed: char := '\U{254C}'   // ╌
  const Solid: char := '\U{2500}'    // ─

  /** A guide-line cell: the glyph and its gray level (0..255). */
  datatype Cell = Cell(glyph: char, brightness: nat)

  function Max1(n: nat): nat { if n < 1 then 1 else n }

  /**
   * `fade_char_left`: dotted, then dashed, then solid, getting brighter. Progress stays below
   * the fade width at every call site, which keeps the 8-bit brightness in range.
   */
  function FadeCharLeft(progress: nat): (c: Cell)
    requires progress < FadeTotal
    ensures c.brightness < BrightnessSolidEnd
    ensures c.glyph == (if progress < 2 then Dotted else if progress < 4 then Dashed else Solid)
  {
    if progress < FadeDotted then
      Cell(Dotted, BrightnessMin + progress * 20 / Max1(FadeDotted))
    else if progress < FadeDotted + FadeDashed then
      var p := progress - FadeDotted;
      Cell(Dashed, BrightnessDottedEnd + p * 20 / Max1(FadeDashed))
    else
      var p := progress - FadeDotted - FadeDashed;
      Cell(Solid, BrightnessDashedEnd + p * 40 / Max1(FadeSolid))
  }

  /** `fade_char_right`: the mirror of the left fade, cell for cell. */
  function FadeCharRight(progress: nat): (c: Cell)
    requires progress < FadeTotal
    ensures c == FadeCharLeft(progress)
  {
    FadeCharLeft(progress)
  }

  /** The six steps of the gradient, written out. */
  lemma FadeTable()
    ensures FadeCharLeft(0) == Cell(Dotted, 40) && FadeCharLeft(1) == Cell(Dotted, 50)
    ensures FadeCharLeft(2) == Cell(Dashed, 60) && FadeCharLeft(3) == Cell(Dashed, 70)
    ensures FadeCharLeft(4) == Cell(Solid, 80) && FadeCharLeft(5) == Cell(Solid, 100)
  {
  }

  /** Brightness rises strictly across the fade zone and stays below the solid middle. */
  lemma FadeBrightnessIncreasing(p: nat, q: nat)
    requires p < q < FadeTotal
    ensures FadeCharLeft(p).brightness < FadeCharLeft(q).brightness < BrightnessSolidEnd
  {
    FadeTable();
  }

  /**
   * `calculate_padding(content, available, center)`: centres short content when asked to,
   * otherwise the minimum padding. The ratio test `content / available < 0.6` is `5c < 3a`.
   */
  function CalculatePadding(contentWidth: nat, availableWidth: nat, center: bool): (r: nat)
    ensures availableWidth == 0 || !center ==> r == MinPadding
    ensures availableWidth > 0 && center && 5 * contentWidth < 3 * availableWidth ==>
      r + contentWidth / 2 <= availableWidth / 2 + 1 && availableWidth / 2 <= r + contentWidth / 2 + 1
    ensures availableWidth > 0 && center && 5 * contentWidth < 3 * availableWidth ==>
      && contentWidth < availableWidth
      && r == (availableWidth - contentWidth) / 2
      && r <= availableWidth - contentWidth - r <= r + 1
    ensures availableWidth > 0 && center && 5 * contentWidth >= 3 * availableWidth ==> r == MinPadding
  {
    if availableWidth == 0 then MinPadding
    else if center && 5 * contentWidth < 3 * availableWidth then
      (if availableWidth >= contentWidth then availableWidth - contentWidth else 0) / 2
    else MinPadding
  }

  /** Unlike the context-line padding, the centred result is not raised to the minimum. */
  lemma PaddingNotClamped()
    ensures CalculatePadding(1, 3, true) == 1 < MinPadding
    ensures CalculatePadding(0, 80, true) == 40
    ensures CalculatePadding(48, 80, true) == MinPadding
  {
  }
}
