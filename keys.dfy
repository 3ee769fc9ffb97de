/**
 * The reader's front end: turning the parsed tokens into timed tokens, the table from a key
 * press (in the current view mode) to an action on the navigation state, the automatic
 * advance of the event loop, and the position buckets of the timing report.
 *
 * The terminal, the clock and the event queue are outside the model: a key press arrives as a
 * value, and the time since the last advance as a number of milliseconds.
 */
module KeyDispatch {
  import opened Types
  import opened Navigation
  import Timing
  import Orp

  // ---------------------------------------------------------------------------------------
  // Timed tokens
  // ---------------------------------------------------------------------------------------

  /** The speed the timed tokens are computed at when the document is opened. */
  const OpeningWpm: nat := 300

  /** One token with its display time at the opening speed and its ORP index. */
  function Timed(token: Token): TimedToken {
    TimedToken(token, Timing.CalculateDuration(token, OpeningWpm), Orp.CalculateOrp(token.word))
  }

  /** The token stream as timed tokens: same length, same order, each token timed on its own. */
  function TimedTokens(tokens: seq<Token>): (r: seq<TimedToken>)
    ensures |r| == |tokens|
    ensures forall i :: 0 <= i < |tokens| ==> r[i].token == tokens[i]
    ensures forall i :: 0 <= i < |tokens| ==>
      r[i].durationMs >= Timing.MinDurationMs && r[i].orpPosition <= Orp.LeadingNonAlphabetic(tokens[i].word) + 3
    ensures forall i :: 0 <= i < |tokens| ==>
      && r[i].durationMs == Timing.CalculateDuration(tokens[i], OpeningWpm)
      && r[i].orpPosition == Orp.CalculateOrp(tokens[i].word)
  {
    seq(|tokens|, i requires 0 <= i < |tokens| => Timed(tokens[i]))
  }

  /** Timing is word by word: timing a concatenation times each part on its own. */
  lemma TimedTokensSplit(a: seq<Token>, b: seq<Token>)
    ensures TimedTokens(a + b) == TimedTokens(a) + TimedTokens(b)
  {
    var l, r := TimedTokens(a + b), TimedTokens(a) + TimedTokens(b);
    forall i | 0 <= i < |l|
      ensures l[i] == r[i]
    {
      if i < |a| {
        assert (a + b)[i] == a[i];
      } else {
        assert (a + b)[i] == b[i - |a|];
      }
    }
  }

  /** Dropping the timing gives back the token stream. */
  lemma TimedTokensRoundTrip(tokens: seq<Token>)
    ensures seq(|TimedTokens(tokens)|, i requires 0 <= i < |TimedTokens(tokens)| => TimedTokens(tokens)[i].token) == tokens
  {
  }

  /** A word with a letter gets an ORP index inside the word. */
  lemma TimedOrpInWord(tokens: seq<Token>, i: nat)
    requires i < |tokens| && Orp.AlphabeticCount(tokens[i].word) > 0
    ensures TimedTokens(tokens)[i].orpPosition < |tokens[i].word|
  {
  }

  // ---------------------------------------------------------------------------------------
  // Keys
  // ---------------------------------------------------------------------------------------

  /** The key codes the reader looks at; every other key is `OtherKey`. */
  datatype KeyCode = Char(c: char) | Up | Down | Left | Right | Enter | Esc | OtherKey

  /** A key event: its code, whether Control was held, and whether it is a press. */
  datatype KeyEvent = KeyEvent(code: KeyCode, control: bool, pressed: bool)

  datatype Action =
    | Quit
    | ToggleHelp
    | TogglePause
    | DecreaseWpm
    | IncreaseWpm
    | RewindSentence
    | SkipSentence
    | ToggleOutline
    | OutlineDown
    | OutlineUp
    | JumpToSection
    | NoAction

  function ReadingAction(code: KeyCode): Action {
    if code == Char(' ') then TogglePause
    else if code == Char('j') || code == Down then DecreaseWpm
    else if code == Char('k') || code == Up then IncreaseWpm
    else if code == Char('h') || code == Left then RewindSentence
    else if code == Char('l') || code == Right then SkipSentence
    else if code == Char('o') then ToggleOutline
    else NoAction
  }

  function OutlineAction(code: KeyCode): Action {
    if code == Char('j') || code == Down then OutlineDown
    else if code == Char('k') || code == Up then OutlineUp
    else if code == Enter then JumpToSection
    else if code == Esc || code == Char('o') then ToggleOutline
    else NoAction
  }

  /**
   * The key handler: releases and repeats are ignored; Control+C, then 'q' and '?', act in
   * either mode; the other keys depend on the mode.
   */
  function Dispatch(mode: ViewMode, key: KeyEvent): Action {
    if !key.pressed then NoAction
    else if key.control && key.code == Char('c') then Quit
    else if key.code == Char('q') then Quit
    else if key.code == Char('?') then ToggleHelp
    else if mode == Reading then ReadingAction(key.code)
    else OutlineAction(key.code)
  }

  /** The keys that act in both modes, and the keys of each mode, as the key help lists them. */
  const GlobalKeys: set<KeyCode> := {Char('q'), Char('?')}
  const ReadingKeys: set<KeyCode> :=
    {Char(' '), Char('j'), Down, Char('k'), Up, Char('h'), Left, Char('l'), Right, Char('o')}
  const OutlineKeys: set<KeyCode> := {Char('j'), Down, Char('k'), Up, Enter, Esc, Char('o')}

  function ModeKeys(mode: ViewMode): set<KeyCode> {
    if mode == Reading then ReadingKeys else OutlineKeys
  }

  /** A key press does something exactly when it is Control+C or one of the listed keys. */
  lemma DispatchCoversKeys(mode: ViewMode, key: KeyEvent)
    ensures Dispatch(mode, key) != NoAction <==>
      key.pressed && ((key.control && key.code == Char('c')) || key.code in GlobalKeys || key.code in ModeKeys(mode))
  {
  }

  /** Quit and help work the same in both modes, whatever else is held. */
  lemma GlobalKeysInBothModes(mode: ViewMode, control: bool)
    ensures Dispatch(mode, KeyEvent(Char('c'), true, true)) == Quit
    ensures Dispatch(mode, KeyEvent(Char('q'), control, true)) == Quit
    ensures Dispatch(mode, KeyEvent(Char('?'), control, true)) == ToggleHelp
  {
  }

  /** Vim keys and arrow keys are the same key, in both modes. */
  lemma ArrowsMatchLetters(mode: ViewMode, control: bool)
    ensures Dispatch(mode, KeyEvent(Down, control, true)) == Dispatch(mode, KeyEvent(Char('j'), control, true))
    ensures Dispatch(mode, KeyEvent(Up, control, true)) == Dispatch(mode, KeyEvent(Char('k'), control, true))
    ensures mode == Reading ==>
      && Dispatch(mode, KeyEvent(Left, control, true)) == Dispatch(mode, KeyEvent(Char('h'), control, true)) == RewindSentence
      && Dispatch(mode, KeyEvent(Right, control, true)) == Dispatch(mode, KeyEvent(Char('l'), control, true)) == SkipSentence
  {
  }

  /** 'o' toggles the outline from either mode; in the outline, Esc does too. */
  lemma OutlineToggleKeys(mode: ViewMode, control: bool)
    ensures Dispatch(mode, KeyEvent(Char('o'), control, true)) == ToggleOutline
    ensures mode == Outline ==> Dispatch(mode, KeyEvent(Esc, control, true)) == ToggleOutline
    ensures mode == Reading ==> Dispatch(mode, KeyEvent(Esc, control, true)) == NoAction
  {
  }

  /** What an action does to the navigation state (`Quit` and `NoAction` leave it alone). */
  function Applied(s: AppState, action: Action, tokenCount: nat, sections: seq<Section>): AppState {
    match action
    case Quit => s
    case NoAction => s
    case ToggleHelp => s.(showHelp := !s.showHelp)
    case TogglePause => s.(paused := !s.paused)
    case DecreaseWpm => s.(wpm := DecreasedWpm(s.wpm))
    case IncreaseWpm => s.(wpm := IncreasedWpm(s.wpm))
    case RewindSentence => s.(position := Rewound(s.position))
    case SkipSentence => s.(position := Skipped(s.position, tokenCount))
    case ToggleOutline => s.(viewMode := ToggledMode(s.viewMode))
    case OutlineDown => s.(outlineSelection := SelectedDown(s.outlineSelection, |sections|))
    case OutlineUp => s.(outlineSelection := SelectedUp(s.outlineSelection))
    case JumpToSection =>
      if s.outlineSelection < |sections| then
        s.(position := sections[s.outlineSelection].tokenStart, viewMode := Reading)
      else s
  }

  /**
   * Keys in the outline never touch the speed, the pause flag or the help flag (other than
   * '?'), and keys while reading never touch the outline selection.
   */
  lemma ModesKeepTheirFields(s: AppState, key: KeyEvent, tokenCount: nat, sections: seq<Section>)
    ensures var t := Applied(s, Dispatch(s.viewMode, key), tokenCount, sections);
      && (s.viewMode == Outline ==> t.wpm == s.wpm && t.paused == s.paused)
      && (s.viewMode == Reading ==> t.outlineSelection == s.outlineSelection)
      && (t.showHelp != s.showHelp ==> key.code == Char('?'))
  {
  }

  /** Pausing and help are undone by pressing the same key again. */
  lemma TogglesUndo(s: AppState, tokenCount: nat, sections: seq<Section>, action: Action)
    requires action == TogglePause || action == ToggleHelp || action == ToggleOutline
    ensures Applied(Applied(s, action, tokenCount, sections), action, tokenCount, sections) == s
  {
    if action == ToggleOutline {
      ToggleInvolution(s.viewMode);
    }
  }

  /**
   * One key press handled on the reader: the action of the table is applied through the
   * reader's own operations, and the caller learns whether to quit.
   */
  method HandleKey(app: App, key: KeyEvent) returns (quit: bool)
    requires app.Valid()
    modifies app
    ensures quit <==> Dispatch(old(app.viewMode), key) == Quit
    ensures app.State() == Applied(old(app.State()), Dispatch(old(app.viewMode), key), |app.tokens|, app.sections)
    ensures app.Valid()
  {
    quit := false;
    match Dispatch(app.viewMode, key)
    case Quit => quit := true;
    case NoAction =>
    case ToggleHelp => app.ToggleHelp();
    case TogglePause => app.TogglePause();
    case DecreaseWpm => app.DecreaseWpm();
    case IncreaseWpm => app.IncreaseWpm();
    case RewindSentence => app.RewindSentence();
    case SkipSentence => app.SkipSentence();
    case ToggleOutline => app.ToggleOutline();
    case OutlineDown => app.OutlineDown();
    case OutlineUp => app.OutlineUp();
    case JumpToSection => app.JumpToSection();
  }

  // ---------------------------------------------------------------------------------------
  // The event loop's timing
  // ---------------------------------------------------------------------------------------

  /** Display time of the current word at the current speed; 200 ms without a word. */
  function NextDuration(current: Option<TimedToken>, wpm: nat): (r: nat)
    requires MinWpm <= wpm <= MaxWpm
    ensures current.Some? ==> r == Timing.CalculateDuration(current.value.token, wpm)
    ensures current.None? ==> r == 200
  {
    match current
    case None => 200
    case Some(t) => Timing.CalculateDuration(t.token, wpm)
  }

  /** How long to wait for a key: 100 ms when paused or in the outline, else the time left. */
  function PollTimeout(paused: bool, mode: ViewMode, next: nat, elapsed: nat): (r: nat)
    ensures paused || mode == Outline ==> r == 100
    ensures !paused && mode == Reading ==> r + elapsed >= next && (elapsed < next ==> r + elapsed == next)
  {
    if paused || mode == Outline then 100
    else if next >= elapsed then next - elapsed else 0
  }

  /** The loop moves on a word when reading, not paused, and the word's time is up. */
  predicate ShouldAdvance(paused: bool, mode: ViewMode, next: nat, elapsed: nat) {
    !paused && mode == Reading && elapsed >= next
  }

  /** While reading, the word advances exactly when no time is left to wait for a key. */
  lemma AdvanceWhenTimeoutExpires(paused: bool, mode: ViewMode, next: nat, elapsed: nat)
    requires !paused && mode == Reading
    ensures ShouldAdvance(paused, mode, next, elapsed) <==> PollTimeout(paused, mode, next, elapsed) == 0
  {
  }

  /** Paused, or in the outline, the word never advances on its own. */
  lemma NoAdvanceWhenPausedOrOutline(paused: bool, mode: ViewMode, next: nat, elapsed: nat)
    requires paused || mode == Outline
    ensures !ShouldAdvance(paused, mode, next, elapsed)
  {
  }

  /**
   * One pass of the event loop after drawing: the word's time is taken before the key is
   * handled; a quitting key ends the loop at once; otherwise the word advances if its time is
   * up in the state the key left (a key that pauses or opens the outline stops the advance).
   */
  method LoopStep(app: App, key: Option<KeyEvent>, elapsed: nat) returns (quit: bool)
    requires app.Valid()
    modifies app
    ensures app.Valid()
    ensures var next := NextDuration(old(app.CurrentToken()), old(app.wpm));
      var action := if key.Some? then Dispatch(old(app.viewMode), key.value) else NoAction;
      var keyed := Applied(old(app.State()), action, |app.tokens|, app.sections);
      && (quit <==> action == Quit)
      && (quit ==> app.State() == keyed)
      && (!quit && ShouldAdvance(keyed.paused, keyed.viewMode, next, elapsed) ==>
        app.State() == keyed.(position := Advanced(keyed.position, |app.tokens|)))
      && (!quit && !ShouldAdvance(keyed.paused, keyed.viewMode, next, elapsed) ==> app.State() == keyed)
  {
    var next := NextDuration(app.CurrentToken(), app.wpm);
    quit := false;
    if key.Some? {
      quit := HandleKey(app, key.value);
      if quit {
        return;
      }
    }
    if !app.paused && app.viewMode == Reading && elapsed >= next {
      app.Advance();
    }
  }

  // ---------------------------------------------------------------------------------------
  // The timing report
  // ---------------------------------------------------------------------------------------

  function Max(xs: seq<nat>): (m: nat)
    requires xs != []
    ensures forall i :: 0 <= i < |xs| ==> xs[i] <= m
    ensures exists i :: 0 <= i < |xs| && xs[i] == m
  {
    if |xs| == 1 then xs[0]
    else
      var rest := Max(xs[1..]);
      assert forall i :: 1 <= i < |xs| ==> xs[i] == xs[1..][i - 1];
      if xs[0] >= rest then xs[0] else rest
  }

  /** The largest logged position, 1 when nothing was logged. */
  function MaxPosition(positions: seq<nat>): nat {
    if positions == [] then 1 else Max(positions)
  }

  /** The tenth of the read range a position falls in: `pos * 10 / max_pos`, 0 when max_pos is 0. */
  function Bucket(pos: nat, maxPos: nat): nat {
    if maxPos > 0 then pos * 10 / maxPos else 0
  }

  /** Every logged position falls in one of the eleven buckets 0..=10. */
  lemma BucketsInRange(positions: seq<nat>)
    ensures forall i :: 0 <= i < |positions| ==> Bucket(positions[i], MaxPosition(positions)) <= 10
  {
    var m := MaxPosition(positions);
    forall i | 0 <= i < |positions|
      ensures Bucket(positions[i], m) <= 10
    {
      if m > 0 {
        BucketBound(positions[i], m);
      }
    }
  }

  /** The furthest logged position is in bucket 10. */
  lemma LastBucketUsed(positions: seq<nat>)
    requires positions != [] && MaxPosition(positions) > 0
    ensures exists i :: 0 <= i < |positions| && Bucket(positions[i], MaxPosition(positions)) == 10
  {
    var m := MaxPosition(positions);
    var i :| 0 <= i < |positions| && positions[i] == m;
    assert m * 10 / m == 10;
  }

  lemma BucketBound(pos: nat, maxPos: nat)
    requires 0 < maxPos && pos <= maxPos
    ensures pos * 10 / maxPos <= 10
  {
    var q := pos * 10 / maxPos;
    assert q * maxPos <= pos * 10;
    assert pos * 10 <= 10 * maxPos;
    assert (q - 10) * maxPos <= 0;
  }
}
