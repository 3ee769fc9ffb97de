/**
 * The reader's navigation state: the token stream and sections it was opened with, the cursor,
 * the speed, the pause flag, the view mode, the outline selection and the help flag.
 *
 * Each mutation is specified by a pure transition on the one field it changes; the lemmas
 * about those transitions are the promises the interface makes (bounded speed, cursor kept on
 * a word, selection kept on a section, toggles undoing themselves).
 */
module Navigation {
  import opened Types

  datatype ViewMode = Reading | Outline

  const InitialWpm: nat := 300
  const MinWpm: nat := 100
  const MaxWpm: nat := 800
  const WpmStep: nat := 25
  const SentenceJump: nat := 10

  /** The index of the last word, `len −sat 1`. */
  function LastIndex(len: nat): nat {
    if len == 0 then 0 else len - 1
  }

  // ---------------------------------------------------------------------------------------
  // The transitions
  // ---------------------------------------------------------------------------------------

  /** `advance`: one word on, unless already on the last word. */
  function Advanced(position: nat, len: nat): (r: nat)
    ensures position < LastIndex(len) ==> r == position + 1
    ensures position >= LastIndex(len) ==> r == position
  {
    if position < LastIndex(len) then position + 1 else position
  }

  /** `rewind_sentence`: ten words back, stopping at the first. */
  function Rewound(position: nat): (r: nat)
    ensures r <= position && (position >= SentenceJump ==> r == position - SentenceJump)
    ensures position < SentenceJump ==> r == 0
  {
    if position >= SentenceJump then position - SentenceJump else 0
  }

  /** `skip_sentence`: ten words on, stopping at the last. */
  function Skipped(position: nat, len: nat): (r: nat)
    ensures r <= LastIndex(len)
    ensures r == position + SentenceJump || r == LastIndex(len)
    ensures position + SentenceJump <= LastIndex(len) ==> r == position + SentenceJump
  {
    if position + SentenceJump < LastIndex(len) then position + SentenceJump else LastIndex(len)
  }

  /** `increase_wpm`: 25 faster, at most 800. */
  function IncreasedWpm(wpm: nat): (r: nat)
    ensures r <= MaxWpm && r <= wpm + WpmStep
    ensures wpm <= MaxWpm ==> wpm <= r
  {
    if wpm + WpmStep < MaxWpm then wpm + WpmStep else MaxWpm
  }

  /** `decrease_wpm`: 25 slower (saturating), at least 100. */
  function DecreasedWpm(wpm: nat): (r: nat)
    ensures r >= MinWpm
    ensures wpm >= MinWpm ==> r <= wpm
    ensures r == wpm - WpmStep || r == MinWpm
  {
    var lowered := if wpm >= WpmStep then wpm - WpmStep else 0;
    if lowered > MinWpm then lowered else MinWpm
  }

  function ToggledMode(mode: ViewMode): (r: ViewMode)
    ensures r != mode
  {
    match mode
    case Reading => Outline
    case Outline => Reading
  }

  /** `outline_up`: the previous section, stopping at the first. */
  function SelectedUp(selection: nat): (r: nat)
    ensures selection > 0 ==> r == selection - 1
    ensures selection == 0 ==> r == 0
  {
    if selection > 0 then selection - 1 else 0
  }

  /** `outline_down`: the next section, stopping at the last; no change without sections. */
  function SelectedDown(selection: nat, count: nat): (r: nat)
    ensures count == 0 ==> r == selection
    ensures count > 0 ==> r < count
    ensures count > 0 && selection + 1 < count ==> r == selection + 1
  {
    if count == 0 then selection
    else if selection + 1 < count - 1 then selection + 1
    else count - 1
  }

  // ---------------------------------------------------------------------------------------
  // What the transitions promise
  // ---------------------------------------------------------------------------------------

  /** Advancing, rewinding and skipping keep the cursor on a word (or at 0 for no words). */
  lemma CursorStaysOnAWord(position: nat, len: nat)
    requires position <= LastIndex(len)
    ensures Advanced(position, len) <= LastIndex(len)
    ensures Rewound(position) <= LastIndex(len)
    ensures Skipped(position, len) <= LastIndex(len)
  {
  }

  function AdvancedTimes(position: nat, len: nat, n: nat): nat {
    if n == 0 then position else Advanced(AdvancedTimes(position, len, n - 1), len)
  }

  /** Repeated advancing walks word by word to the last word and stays there. */
  lemma {:induction false} AdvanceWalks(position: nat, len: nat, n: nat)
    requires position <= LastIndex(len)
    ensures AdvancedTimes(position, len, n) == if position + n < LastIndex(len) then position + n else LastIndex(len)
  {
    if n > 0 {
      AdvanceWalks(position, len, n - 1);
    }
  }

  /** Both speed changes keep the speed within [100, 800]. */
  lemma WpmStaysInBounds(wpm: nat)
    requires MinWpm <= wpm <= MaxWpm
    ensures MinWpm <= IncreasedWpm(wpm) <= MaxWpm
    ensures MinWpm <= DecreasedWpm(wpm) <= MaxWpm
  {
  }

  /** Faster then slower is the identity below the ceiling; slower then faster above the floor. */
  lemma WpmRoundTrip(wpm: nat)
    ensures MinWpm <= wpm <= MaxWpm - WpmStep ==> DecreasedWpm(IncreasedWpm(wpm)) == wpm
    ensures MinWpm + WpmStep <= wpm <= MaxWpm ==> IncreasedWpm(DecreasedWpm(wpm)) == wpm
  {
  }

  function IncreasedTimes(wpm: nat, n: nat): nat {
    if n == 0 then wpm else IncreasedWpm(IncreasedTimes(wpm, n - 1))
  }

  function DecreasedTimes(wpm: nat, n: nat): nat {
    if n == 0 then wpm else DecreasedWpm(DecreasedTimes(wpm, n - 1))
  }

  /** Repeated speed-ups climb in steps of 25 to the 800 ceiling and stay there. */
  lemma {:induction false} IncreaseSaturates(wpm: nat, n: nat)
    requires wpm <= MaxWpm
    ensures IncreasedTimes(wpm, n) == if wpm + WpmStep * n < MaxWpm then wpm + WpmStep * n else MaxWpm
  {
    if n > 0 {
      IncreaseSaturates(wpm, n - 1);
    }
  }

  /** Repeated slow-downs descend in steps of 25 to the 100 floor and stay there. */
  lemma {:induction false} DecreaseSaturates(wpm: nat, n: nat)
    requires wpm >= MinWpm
    ensures DecreasedTimes(wpm, n) == if wpm >= MinWpm + WpmStep * n then wpm - WpmStep * n else MinWpm
  {
    if n > 0 {
      DecreaseSaturates(wpm, n - 1);
    }
  }

  /** From the initial speed, a hundred speed-ups reach 800 (not 1000), and a hundred slow-downs 100. */
  lemma WpmBoundExamples()
    ensures IncreasedTimes(InitialWpm, 100) == MaxWpm
    ensures DecreasedTimes(MaxWpm, 100) == MinWpm
  {
    IncreaseSaturates(InitialWpm, 100);
    DecreaseSaturates(MaxWpm, 100);
  }

  /** Toggling the view twice restores it. */
  lemma ToggleInvolution(mode: ViewMode)
    ensures ToggledMode(ToggledMode(mode)) == mode
  {
  }

  /** The selection stays on a section whenever there is one. */
  lemma SelectionStaysOnASection(selection: nat, count: nat)
    requires selection < count
    ensures SelectedUp(selection) < count
    ensures SelectedDown(selection, count) < count
    ensures SelectedDown(selection, count) >= selection
  {
  }

  // ---------------------------------------------------------------------------------------
  // The application state
  // ---------------------------------------------------------------------------------------

  /** The mutable fields of `App`, as one value. */
  datatype AppState = AppState(
    position: nat,
    wpm: nat,
    paused: bool,
    viewMode: ViewMode,
    outlineSelection: nat,
    showHelp: bool)

  class App {
    const tokens: seq<TimedToken>
    const sections: seq<Section>
    var position: nat
    var wpm: nat
    var paused: bool
    var viewMode: ViewMode
    var outlineSelection: nat
    var showHelp: bool

    function State(): AppState
      reads this
    {
      AppState(position, wpm, paused, viewMode, outlineSelection, showHelp)
    }

    /** The speed is within its bounds and the selection is on a section (or 0 without any). */
    predicate Valid()
      reads this
    {
      && MinWpm <= wpm <= MaxWpm
      && (if sections == [] then outlineSelection == 0 else outlineSelection < |sections|)
    }

    /** The cursor is on a word, or at 0 for an empty document. */
    predicate OnAWord()
      reads this
    {
      position <= LastIndex(|tokens|)
    }

    /** `App::new` */
    constructor (tokens: seq<TimedToken>, sections: seq<Section>)
      ensures this.tokens == tokens && this.sections == sections
      ensures State() == AppState(0, InitialWpm, false, Reading, 0, false)
      ensures Valid() && OnAWord()
    {
      this.tokens := tokens;
      this.sections := sections;
      position := 0;
      wpm := InitialWpm;
      paused := false;
      viewMode := Reading;
      outlineSelection := 0;
      showHelp := false;
    }

    /** `current_token`: the word under the cursor, if there is one. */
    function CurrentToken(): (r: Option<TimedToken>)
      reads this
      ensures r.Some? <==> position < |tokens|
      ensures r.Some? ==> r.value == tokens[position]
    {
      if position < |tokens| then Some(tokens[position]) else None
    }

    method TogglePause()
      modifies this
      ensures State() == old(State()).(paused := !old(paused))
    {
      paused := !paused;
    }

    method IncreaseWpm()
      requires Valid()
      modifies this
      ensures State() == old(State()).(wpm := IncreasedWpm(old(wpm)))
      ensures Valid()
    {
      wpm := if wpm + WpmStep < MaxWpm then wpm + WpmStep else MaxWpm;
    }

    method DecreaseWpm()
      requires Valid()
      modifies this
      ensures State() == old(State()).(wpm := DecreasedWpm(old(wpm)))
      ensures Valid()
    {
      var lowered := if wpm >= WpmStep then wpm - WpmStep else 0;
      wpm := if lowered > MinWpm then lowered else MinWpm;
    }

    method Advance()
      modifies this
      ensures State() == old(State()).(position := Advanced(old(position), |tokens|))
      ensures old(OnAWord()) ==> OnAWord()
    {
      if position < LastIndex(|tokens|) {
        position := position + 1;
      }
    }

    method RewindSentence()
      modifies this
      ensures State() == old(State()).(position := Rewound(old(position)))
      ensures old(OnAWord()) ==> OnAWord()
    {
      position := if position >= SentenceJump then position - SentenceJump else 0;
    }

    method SkipSentence()
      modifies this
      ensures State() == old(State()).(position := Skipped(old(position), |tokens|))
      ensures OnAWord()
    {
      var last := LastIndex(|tokens|);
      position := if position + SentenceJump < last then position + SentenceJump else last;
    }

    method ToggleOutline()
      modifies this
      ensures State() == old(State()).(viewMode := ToggledMode(old(viewMode)))
    {
      viewMode := match viewMode
        case Reading => Outline
        case Outline => Reading;
    }

    method OutlineUp()
      requires Valid()
      modifies this
      ensures State() == old(State()).(outlineSelection := SelectedUp(old(outlineSelection)))
      ensures Valid()
    {
      outlineSelection := if outlineSelection > 0 then outlineSelection - 1 else 0;
    }

    method OutlineDown()
      requires Valid()
      modifies this
      ensures State() == old(State()).(outlineSelection := SelectedDown(old(outlineSelection), |sections|))
      ensures Valid()
    {
      if sections != [] {
        outlineSelection := if outlineSelection + 1 < |sections| - 1 then outlineSelection + 1 else |sections| - 1;
      }
    }

    /** `jump_to_section`: to the selected section's first word, back in reading mode. */
    method JumpToSection()
      modifies this
      ensures old(outlineSelection) < |sections| ==>
        State() == old(State()).(position := sections[old(outlineSelection)].tokenStart, viewMode := Reading)
      ensures old(outlineSelection) >= |sections| ==> State() == old(State())
    {
      if outlineSelection < |sections| {
        position := sections[outlineSelection].tokenStart;
        viewMode := Reading;
      }
    }

    method ToggleHelp()
      modifies this
      ensures State() == old(State()).(showHelp := !old(showHelp))
    {
      showHelp := !showHelp;
    }

    /**
     * `current_section_title`: the title of the last section starting at or before the
     * cursor, found by a backward scan; nothing when every section starts after the cursor.
     */
    method CurrentSectionTitle() returns (r: Option<string>)
      ensures r.None? <==> forall i :: 0 <= i < |sections| ==> sections[i].tokenStart > position
      ensures r.Some? ==> exists i :: (0 <= i < |sections| && sections[i].tokenStart <= position
        && r.value == sections[i].title
        && forall j :: i < j < |sections| ==> sections[j].tokenStart > position)
    {
      var i := |sections|;
      while i > 0
        invariant 0 <= i <= |sections|
        invariant forall j :: i <= j < |sections| ==> sections[j].tokenStart > position
      {
        i := i - 1;
        if position >= sections[i].tokenStart {
          return Some(sections[i].title);
        }
      }
      return None;
    }

    /**
     * `context_tokens(before, after)`: up to `before` words just before the cursor, and up to
     * `after` words just after it (the cursor's own word in neither).
     */
    function ContextTokens(before: nat, after: nat): (r: (seq<TimedToken>, seq<TimedToken>))
      reads this
      requires position <= |tokens|
      ensures |r.0| == if position < before then position else before
      ensures forall k :: 0 <= k < |r.0| ==> r.0[k] == tokens[position - |r.0| + k]
      ensures |r.1| == if position + 1 >= |tokens| then 0
        else if |tokens| - position - 1 < after then |tokens| - position - 1 else after
      ensures forall k :: 0 <= k < |r.1| ==> r.1[k] == tokens[position + 1 + k]
    {
      var start := if position >= before then position - before else 0;
      var end := if position + after + 1 < |tokens| then position + after + 1 else |tokens|;
      (tokens[start..position], if position + 1 < end then tokens[position + 1..end] else [])
    }
  }

  /** The starting state of the initial-state and speed tests. */
  method InitialStateExample(tokens: seq<TimedToken>)
    returns (position: nat, wpm: nat, paused: bool, mode: ViewMode, faster: nat, back: nat)
    ensures position == 0 && wpm == 300 && !paused && mode == Reading
    ensures faster == 325 && back == 300
  {
    var app := new App(tokens, []);
    position, wpm, paused, mode := app.position, app.wpm, app.paused, app.viewMode;
    app.IncreaseWpm();
    faster := app.wpm;
    app.DecreaseWpm();
    back := app.wpm;
  }
}
