/**
 * Word display duration: the base time per word at a given speed plus the token's timing
 * modifiers, floored at 50 ms.
 */
module Timing {
  import opened Types

  const MinDurationMs: nat := 50

  /** `wpm` is a 16-bit speed; zero would divide by zero, so callers pass a positive speed. */
  predicate ValidWpm(wpm: nat) {
    0 < wpm < 0x1_0000
  }

  function BaseMs(wpm: nat): nat
    requires ValidWpm(wpm)
  {
    60000 / wpm
  }

  function ModifierSum(h: TimingHint): int {
    h.wordLengthModifier + h.punctuationModifier + h.structureModifier
  }

  /** `calculate_duration` */
  function CalculateDuration(token: Token, wpm: nat): (r: nat)
    requires ValidWpm(wpm)
    ensures r >= MinDurationMs
    ensures BaseMs(wpm) + ModifierSum(token.timingHint) >= MinDurationMs ==>
      r == 60000 / wpm + token.timingHint.wordLengthModifier
           + token.timingHint.punctuationModifier + token.timingHint.structureModifier
    ensures BaseMs(wpm) + ModifierSum(token.timingHint) < MinDurationMs ==> r == MinDurationMs
  {
    var total := BaseMs(wpm) + ModifierSum(token.timingHint);
    if total < MinDurationMs then MinDurationMs else total
  }

  /** With no modifiers the duration is the base time, floored at 50 ms. */
  lemma BaseDurationOnly(token: Token, wpm: nat)
    requires ValidWpm(wpm)
    requires token.timingHint.wordLengthModifier == 0
    requires token.timingHint.punctuationModifier == 0
    requires token.timingHint.structureModifier == 0
    ensures CalculateDuration(token, wpm) == if 60000 / wpm < 50 then 50 else 60000 / wpm
  {
  }

  /** A faster speed never lengthens a word's display time. */
  lemma {:induction false} DurationNonIncreasingInWpm(token: Token, w1: nat, w2: nat)
    requires ValidWpm(w1) && ValidWpm(w2) && w1 <= w2
    ensures CalculateDuration(token, w2) <= CalculateDuration(token, w1)
  {
    DivisionAntitone(60000, w1, w2);
  }

  lemma {:induction false} DivisionAntitone(n: nat, a: nat, b: nat)
    requires 0 < a <= b
    ensures n / b <= n / a
  {
    var q, r := n / b, n / a;
    assert n == q * b + n % b;
    assert n == r * a + n % a && n % a < a;
    MulMonotone(q, a, b);
    if r < q {
      MulMonotone(a, r + 1, q);
      assert false;
    }
  }

  lemma {:induction false} MulMonotone(x: nat, y: nat, z: nat)
    requires y <= z
    ensures x * y <= x * z
  {
    if x > 0 {
      MulMonotone(x - 1, y, z);
      assert x * y == (x - 1) * y + y;
      assert x * z == (x - 1) * z + z;
    }
  }

  /** Raising any one modifier never shortens a word's display time. */
  lemma DurationMonotoneInModifiers(t1: Token, t2: Token, wpm: nat)
    requires ValidWpm(wpm)
    requires t1.timingHint.wordLengthModifier <= t2.timingHint.wordLengthModifier
    requires t1.timingHint.punctuationModifier <= t2.timingHint.punctuationModifier
    requires t1.timingHint.structureModifier <= t2.timingHint.structureModifier
    ensures CalculateDuration(t1, wpm) <= CalculateDuration(t2, wpm)
  {
  }

  /** The checkpoints of the timing tests (300 and 600 wpm, and combined modifiers). */
  lemma DurationExamples(word: string, style: TokenStyle, block: BlockContext)
    ensures CalculateDuration(Token(word, style, block, None, TimingHint(0, 0, 0, false)), 300) == 200
    ensures CalculateDuration(Token(word, style, block, None, TimingHint(0, 0, 0, false)), 600) == 100
    ensures CalculateDuration(Token(word, style, block, None, TimingHint(40, 150, 0, false)), 300) == 390
    ensures CalculateDuration(Token(word, style, block, None, TimingHint(0, 0, 300, false)), 300) == 500
  {
  }
}
