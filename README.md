# rsvp-term, modelled in Dafny

rsvp-term is a terminal speed reader. It shows a document one word at a time
(rapid serial visual presentation). Each word is drawn so that its optimal
recognition point (ORP), the letter the eye fixes on, sits in a fixed column
between two guide lines. This project models the reader's core and proves what
that core promises:

- **Tokens and timing.** `Orp` models the ORP index of a word. `Timing` models
  the display time of a word at a speed in words per minute (wpm).
- **Markdown to tokens.** `MarkdownWords` models word segmentation: whitespace,
  em and en dashes, and long hyphenated words. It also models the detection of
  callout markers such as `[!NOTE]`.
- **The tree walk.** `Markdown` models the walk over the markdown syntax tree:
  - the parser context, with its style and block stacks and its depth and table
    counters, as a class;
  - entering and leaving each node;
  - emitting one token per word;
  - recording a section per heading and back-filling each section's end.
- **EPUB books.** `Epub` models the EPUB reader's string logic:
  - file-name sanitising and the book-title fallback;
  - joining the chapters into one markdown text, failing at the first malformed
    chapter;
  - the numbering of exported chapter files.
- **The reader's state.** `Navigation` models the reader's state as a class:
  - the cursor, the speed, pause, the view mode, the outline selection and help;
  - each operation as a method, proved against a pure transition.
- **The front end.** `KeyDispatch` models the front end:
  - timing the tokens when a document is opened;
  - the key table of each view mode;
  - one pass of the event loop (poll timeout and automatic advance);
  - the position buckets of the timing report.
- **Drawing.** Three modules model what is drawn:
  - `Rsvp`, the reading line: guide lines, the word placed under the tick, and
    the gutter hints;
  - `OutlineView`, the outline of sections: faded guide bars, and the titles
    above and below the selection;
  - `Context`, the context lines around the reading word. It packs the document
    greedily into display lines, finds the cursor's line, measures and centres
    a line, and decides which words each view shows.

  `Common` holds the fade gradient and the centring padding that these views
  share.

Drawn output is modelled as values: strings, cells (a glyph and a gray level),
and rows relative to the top of a view. Terminal widgets, colours and modifiers
are not modelled. The markdown syntax tree is an input (the `Node` datatype),
and so is the XHTML-to-markdown conversion of EPUB chapters (a function
parameter). The timing-hint generator the walker calls is a function parameter
`hint`. The clock and the key queue become plain parameters of the loop step:
milliseconds elapsed and an optional key event.

Each operation that works by a loop or by updating fields is an imperative
Dafny method, proved equal to a pure specification function. The properties
are proved about those functions. Examples:

- `ComputeDocumentLines` equals `DocumentLines`.
- `WalkAst` leaves what the pure walk `Walk` computes, and that walk emits the words of the tree's text nodes in pre-order (`WalkEmitsTreeReading`).
- `App.Advance` changes only the cursor, to `Advanced(position, |tokens|)`.

## Model

| member | source | states |
|---|---|---|
| Orp.LeadingNonAlphabetic | src/orp.rs:18-21 | the count of leading characters that are not letters: every character before it is not a letter, and the one at it (if any) is a letter |
| Orp.OrpOffset | src/orp.rs:26-31 | the offset into the letters is at most 3, and is less than the number of letters whenever the word has one |
| Orp.CalculateOrp | src/orp.rs:16-35 | the ORP index is exactly the number of leading non-letters plus the length-based offset of the letter count; when the word has a letter, a letter follows the leading non-letters and the index lies inside the word; it is never more than 3 past the leading non-letters |
| Orp.LettersFollowLeadingRun | src/orp.rs:18-24 | all letters of a word lie after its leading run of non-letters, so a word with a letter has a letter after that run |
| Orp.OrpOffsetMonotone | src/orp.rs:26-31 | more letters never give a smaller offset |
| Orp.OrpOffsetBoundaries | src/orp.rs:26-31 | the offset steps up by one exactly at 3/4, 6/7 and 9/10 letters |
| Orp.OrpLengthExamples | src/orp.rs:42-47 | "" gives 0, "abc" 0, "abcd" 1, "abcdef" 1, "abcdefg" 2 and "extraordinary" 3 |
| Orp.OrpPunctuationExamples | src/orp.rs:50-55 | leading punctuation is skipped: "(as" gives 1, "\"hello" 2, "(test)" 2 and "...word" 4 |
| Orp.OrpUnicodeExample | tests/orp_test.rs:30-33 | characters are counted, not bytes: a word of five kana gives 1 |
| Timing.CalculateDuration | src/timing.rs:10-17 | the base time 60000/wpm plus the three modifiers, and never less than 50 ms |
| Timing.BaseDurationOnly | src/timing.rs:11-16 | with no modifiers, the duration is 60000/wpm floored at 50 ms |
| Timing.DurationNonIncreasingInWpm | src/timing.rs:11-16 | a faster speed never makes a word's display time longer |
| Timing.DurationMonotoneInModifiers | src/timing.rs:12-16 | raising any modifier never makes a word's display time shorter |
| Timing.DurationExamples | tests/timing_test.rs:13-70 | 300 wpm gives 200 ms and 600 wpm gives 100 ms; a structure pause of 300 gives 500 ms; modifiers 40+150 give 390 ms |
| Common.FadeCharLeft | src/ui/common.rs:29-42 | the glyph is dotted for the first two cells, dashed for the next two, then solid; every gray is below the solid middle's 120 |
| Common.FadeCharRight | src/ui/common.rs:46-49 | the right fade gives the same cell as the left fade at the same progress |
| Common.FadeTable | src/ui/common.rs:29-42 | the six cells of the gradient, gray 40, 50, 60, 70, 80 and 100 |
| Common.FadeBrightnessIncreasing | src/ui/common.rs:29-42 | brightness rises strictly across the fade zone and stays below the solid middle |
| Common.CalculatePadding | src/ui/common.rs:55-68 | centred content filling less than 60% of the width gets exactly (width - content) / 2, so its left margin is never wider than its right and at most one narrower; otherwise, or uncentred, or with no width, the minimum of 2 |
| Common.PaddingNotClamped | src/ui/common.rs:55-68 | the centred result is not raised to the minimum (1 for 1 in 3); 0 in 80 gives 40, and 48 in 80 gives the minimum |
| Navigation.Advanced | src/app.rs:65-69 | one word on, unless the cursor is already on the last word (or past it) |
| Navigation.Rewound | src/app.rs:71-73 | ten words back, stopping at 0 |
| Navigation.Skipped | src/app.rs:75-77 | ten words on, or the last word when that is closer; never past the last word |
| Navigation.IncreasedWpm | src/app.rs:61 | at most 25 more and never above 800; never slower than before within the bounds |
| Navigation.DecreasedWpm | src/app.rs:63 | 25 less or the 100 floor, never below 100; never faster than before within the bounds |
| Navigation.ToggledMode | src/app.rs:79-84 | the view mode always changes |
| Navigation.SelectedUp | src/app.rs:86-88 | the previous section, stopping at 0 |
| Navigation.SelectedDown | src/app.rs:90-94 | the next section while one exists, always on a section; unchanged without sections |
| Navigation.CursorStaysOnAWord | src/app.rs:65-77 | advancing, rewinding and skipping keep the cursor on a word |
| Navigation.AdvanceWalks | src/app.rs:65-69 | advancing n times moves min(n, remaining) words and then stays on the last word |
| Navigation.WpmStaysInBounds | src/app.rs:61-63 | both speed changes keep the speed in [100, 800] |
| Navigation.WpmRoundTrip | src/app.rs:61-63 | faster then slower is the identity up to 775; slower then faster is the identity from 125 |
| Navigation.IncreaseSaturates | src/app.rs:61 | n speed-ups climb in steps of 25 to 800 and stay there |
| Navigation.DecreaseSaturates | src/app.rs:63 | n slow-downs descend in steps of 25 to 100 and stay there |
| Navigation.WpmBoundExamples | tests/app_test.rs:53-68 | a hundred speed-ups from 300 reach 800, and a hundred slow-downs from there reach 100 |
| Navigation.ToggleInvolution | tests/app_test.rs:80-90 | toggling the view twice restores it |
| Navigation.SelectionStaysOnASection | src/app.rs:86-94 | moving the outline selection keeps it on a section, and moving down never moves it up |
| Navigation.App.constructor | src/app.rs:21-32 | the reader opens at word 0, 300 wpm, unpaused, in reading mode, with selection 0 and help hidden |
| Navigation.App.CurrentToken | src/app.rs:44 | the token under the cursor exactly when the cursor is on a word |
| Navigation.App.TogglePause | src/app.rs:59 | only the pause flag changes, and it flips |
| Navigation.App.IncreaseWpm | src/app.rs:61 | only the speed changes, to `IncreasedWpm`; the state stays valid |
| Navigation.App.DecreaseWpm | src/app.rs:63 | only the speed changes, to `DecreasedWpm`; the state stays valid |
| Navigation.App.Advance | src/app.rs:65-69 | only the cursor changes, to `Advanced`; a cursor on a word stays on a word |
| Navigation.App.RewindSentence | src/app.rs:71-73 | only the cursor changes, to `Rewound`; a cursor on a word stays on a word |
| Navigation.App.SkipSentence | src/app.rs:75-77 | only the cursor changes, to `Skipped`, which is always on a word |
| Navigation.App.ToggleOutline | src/app.rs:79-84 | only the view mode changes, to the other mode |
| Navigation.App.OutlineUp | src/app.rs:86-88 | only the selection changes, to `SelectedUp`; the state stays valid |
| Navigation.App.OutlineDown | src/app.rs:90-94 | only the selection changes, to `SelectedDown`; the state stays valid |
| Navigation.App.JumpToSection | src/app.rs:96-101 | with a selected section: the cursor moves to its first token, in reading mode; otherwise nothing changes |
| Navigation.App.ToggleHelp | src/app.rs:106 | only the help flag changes, and it flips |
| Navigation.App.CurrentSectionTitle | src/app.rs:109-116 | the title of the last section starting at or before the cursor; nothing exactly when every section starts after it |
| Navigation.App.ContextTokens | src/app.rs:120-132 | up to `before` tokens ending just before the cursor, and up to `after` tokens starting just after it |
| Navigation.InitialStateExample | tests/app_test.rs:18-50 | a new reader is at word 0, 300 wpm, unpaused, reading; one speed-up gives 325, then one slow-down 300 |
| KeyDispatch.TimedTokens | src/main.rs:103-116 | one timed token per token, in order; token i keeps token i, its duration is exactly `CalculateDuration` of that token at 300 wpm (so at least 50 ms) and its ORP index is exactly `CalculateOrp` of its word |
| KeyDispatch.TimedTokensSplit | src/main.rs:104-116 | timing a concatenation is timing each part on its own |
| KeyDispatch.TimedTokensRoundTrip | src/main.rs:104-116 | dropping the timing gives back the token stream |
| KeyDispatch.TimedOrpInWord | src/main.rs:109-114 | a word with a letter gets an ORP index inside the word |
| KeyDispatch.DispatchCoversKeys | src/main.rs:157-195 | a key press acts exactly when it is Control+C or one of the keys listed for the current mode |
| KeyDispatch.GlobalKeysInBothModes | src/main.rs:159-168 | Control+C and 'q' quit, and '?' toggles help, in both modes |
| KeyDispatch.ArrowsMatchLetters | src/main.rs:171-190 | the arrow keys act like j, k, h and l in both modes |
| KeyDispatch.OutlineToggleKeys | src/main.rs:182-192 | 'o' toggles the outline from either mode; Esc closes it in the outline and does nothing while reading |
| KeyDispatch.ModesKeepTheirFields | src/main.rs:165-195 | outline keys never touch speed, pause or help (other than '?'), and reading keys never touch the selection |
| KeyDispatch.TogglesUndo | src/main.rs:168-191 | pause, help and the outline are undone by the same action again |
| KeyDispatch.HandleKey | src/main.rs:155-198 | the reader's state becomes the table's action applied to it, the state stays valid, and quit is reported exactly for the quit keys |
| KeyDispatch.NextDuration | src/main.rs:141-145 | the current word's duration at the current speed, or 200 ms without a word |
| KeyDispatch.PollTimeout | src/main.rs:147-153 | 100 ms when paused or in the outline; otherwise the time left on the word, or 0 once that time is up |
| KeyDispatch.AdvanceWhenTimeoutExpires | src/main.rs:148-204 | while reading unpaused, the word advances exactly when no time is left to wait |
| KeyDispatch.NoAdvanceWhenPausedOrOutline | src/main.rs:200-204 | when paused or in the outline, the word never advances on its own |
| KeyDispatch.LoopStep | src/main.rs:137-216 | the word's time is taken before the key; a quit key ends the loop; otherwise the word advances if its time is up in the state the key left |
| KeyDispatch.Max | src/main.rs:226 | the largest logged position, which is one of the positions |
| KeyDispatch.BucketsInRange | src/main.rs:226-233 | every logged position falls in one of the buckets 0 to 10 that the report prints |
| KeyDispatch.LastBucketUsed | src/main.rs:226-229 | the furthest logged position lands in bucket 10 |
| KeyDispatch.BucketBound | src/main.rs:228 | `pos * 10 / max_pos` is at most 10 for a position up to the maximum |
| Epub.ReplaceForbidden | src/parser/epub.rs:31-39 | each character is kept when alphanumeric, space, '-' or '_', and is replaced by '_' otherwise |
| Epub.SanitizeCutsSpaces | src/parser/epub.rs:30-42 | the sanitised name is the replaced string with plain spaces cut from both ends |
| Epub.SanitizeShape | src/parser/epub.rs:30-42 | the sanitised name holds only allowed characters and has no space at either end |
| Epub.SanitizeFixesSanitized | src/parser/epub.rs:30-42 | an already sanitised name comes back unchanged |
| Epub.SanitizeIdempotent | src/parser/epub.rs:30-42 | sanitising twice is sanitising once |
| Epub.SanitizeHelloWorld | src/parser/epub.rs:197 | "Hello World" stays "Hello World" |
| Epub.SanitizeBookTitle | src/parser/epub.rs:198-201 | "Book: A Story" becomes "Book_ A Story" |
| Epub.SanitizeSlashes | src/parser/epub.rs:202-205 | "Test/File\\Name" becomes "Test_File_Name" |
| Epub.GetBookTitle | src/parser/epub.rs:45-55 | the sanitised metadata title if not empty; else the sanitised file stem; else "epub-export"; always a sanitised name |
| Epub.BlankAllWhitespace | src/parser/epub.rs:106 | a blank markdown text is one made only of whitespace |
| Epub.BlankIsTrimmedEmpty | src/parser/epub.rs:173 | blank is exactly `trim().is_empty()` |
| Epub.FirstMalformed | src/parser/epub.rs:151-158 | the first chapter whose content holds "<parsererror", or none when no chapter is malformed |
| Epub.FirstMalformedAt | src/parser/epub.rs:151-158 | a malformed chapter with no malformed chapter before it is the first malformed one |
| Epub.CombinedStep | src/parser/epub.rs:143-178 | the text after one more chapter is the text so far with that chapter added |
| Epub.AppendChapter | src/parser/epub.rs:160-177 | one chapter's heading and markdown are appended as `AddChapter` says |
| Epub.AssembleChapters | src/parser/epub.rs:140-181 | the chapter loop returns the error for the first malformed chapter, or else the combined text |
| Epub.FailFast | src/parser/epub.rs:151-158 | reading fails exactly when some chapter is malformed, and the message names the first one |
| Epub.CombinedGrows | src/parser/epub.rs:143-178 | the text only grows: the text of the first n chapters is a prefix of the whole |
| Epub.ChapterContribution | src/parser/epub.rs:163-177 | a readable chapter adds its heading whenever it has a title (after a blank line unless the text is empty), then its markdown when that is not blank |
| Epub.NoContentNoText | src/parser/epub.rs:147-149 | a book with no readable chapter gives the empty text |
| Epub.ParseStr | src/parser/epub.rs:184-188 | reading an EPUB from a string always fails |
| Epub.FileTitle | src/parser/epub.rs:113-116 | the title part of a file name is never empty |
| Epub.ExportableChapters | src/parser/epub.rs:96-108 | only chapters that are readable and whose markdown is not blank get a file |
| Epub.ExportChapters | src/parser/epub.rs:96-126 | the export loop writes exactly the files `Exported` lists, and the count it returns is their number |
| Epub.ExportNumbering | src/parser/epub.rs:110-119 | the k-th file is numbered k + 1 and holds the k-th exportable chapter |
| Epub.ExportedNotBlank | src/parser/epub.rs:106-108 | every exported file holds markdown that is not blank |
| Epub.Pad2Injective | src/parser/epub.rs:119 | different numbers print as different `{:02}` strings |
| Epub.FileNameStart | src/parser/epub.rs:119 | a file name starts with its zero-padded number followed by '-' |
| Epub.FileNamesDistinct | src/parser/epub.rs:119 | different numbers give different file names |
| Epub.ExportedNamesDistinct | src/parser/epub.rs:110-122 | no two exported files share a name, so no file overwrites another |
| Epub.ExportUntitledExample | src/parser/epub.rs:116 | an untitled chapter is written as "01-chapter-01.md" |
| Epub.ExportSkipExample | src/parser/epub.rs:100-102 | an unreadable chapter takes no number: the chapter after it is written as "01-Intro.md" |
| Epub.ExportAfterUnreadable | src/parser/epub.rs:100-110 | after an unreadable chapter, the next exportable chapter gets number 1 |
| Epub.IntroFileName | src/parser/epub.rs:119 | chapter 1 titled "Intro" is "01-Intro.md" |
| Rsvp.BuildGuideLine | src/ui/rsvp.rs:168-178 | the character loop builds `GuideLine` |
| Rsvp.GuideLineShape | src/ui/rsvp.rs:168-178 | `width` characters, the tick at its position (if it fits) and solid line everywhere else |
| Rsvp.BuildFadedGuideLine | src/ui/rsvp.rs:182-200 | the cell loop builds `FadedGuideLine` |
| Rsvp.FadedGuideShape | src/ui/rsvp.rs:182-200 | `width` cells: the fade on the first six, gray 120 solid after them, the tick replacing only its cell's glyph |
| Rsvp.FadedGuideBrightens | src/ui/rsvp.rs:182-200 | the faded line never gets darker from left to right |
| Rsvp.FadedMatchesPlain | src/ui/rsvp.rs:168-200 | past the fade zone, the faded and plain lines draw the same glyphs |
| Rsvp.TickColumn | src/ui/rsvp.rs:37-53 | the tick is at the middle column, or at the ORP index when that lies past the middle |
| Rsvp.BuildWordLine | src/ui/rsvp.rs:63-75 | the span loop builds `WordLine` |
| Rsvp.OrpUnderTick | src/ui/rsvp.rs:37-75 | every character sits at padding + its index; the ORP character is the only highlighted one and sits in the tick column of both guides |
| Rsvp.HintText | src/ui/rsvp.rs:117-121 | a gutter hint is drawn for every block except a paragraph |
| Rsvp.WordLineShape | src/ui/rsvp.rs:37-75 | for any ORP index, the word row shows each character `tick − orp + i` columns in, the ORP character highlighted under the tick, and no other cell highlighted |
| Rsvp.Render | src/ui/rsvp.rs:13-165 | nothing without a word; else the word on the middle row with its ORP character highlighted under the tick of both guides and no other character highlighted, a guide above when there is a row above, one below when there is a row below; with the gutter on, the block's hint beside the word and the parent block's hint (if any) beside the guides, and no gutter text when it is off |
| Rsvp.ThreeRowLayout | src/ui/rsvp.rs:79-111 | in three rows, the guides are on rows 0 and 2 and the word on row 1 |
| OutlineView.LevelHint | src/ui/outline.rs:31 | the level hint has exactly one character per heading level, and every character is '#' |
| OutlineView.HintPrefix | src/ui/outline.rs:154-160 | the right-aligned hint and a space are drawn exactly when the hint is non-empty and narrower than the bar |
| OutlineView.BuildFadedGuideLine | src/ui/outline.rs:147-186 | the span loop builds `HintPrefix` and `BarCells` |
| OutlineView.BarAtCell | src/ui/outline.rs:162-183 | column c of the bar is the cell computed for c from the start column |
| OutlineView.BarLength | src/ui/outline.rs:162-166 | one cell per column from the start column to the right edge |
| OutlineView.BarLeftFade | src/ui/outline.rs:163-170 | the six columns from the start column carry the left fade |
| OutlineView.BarRightFade | src/ui/outline.rs:164-174 | past the left fade, the last six columns carry the mirrored fade |
| OutlineView.BarMiddle | src/ui/outline.rs:175-178 | between the fades the bar is solid at gray 120, except for the tick |
| OutlineView.BarTick | src/ui/outline.rs:180 | the tick replaces the glyph of its column in every zone |
| OutlineView.BarMirrored | src/ui/outline.rs:163-178 | on a bar wide enough for both fades, the right fade mirrors the left one |
| OutlineView.TickOverTitle | src/ui/outline.rs:32-34 | the tick column lies within the selected title as drawn, on its middle character |
| OutlineView.PrefixText | src/ui/outline.rs:158-159 | the prefix is the hint right-aligned in four columns (wider hints unpadded) plus a space, drawn only for a non-empty hint narrower than the bar |
| OutlineView.Glyphs | src/ui/outline.rs:180-182 | one glyph per cell, in order |
| OutlineView.DrawnTickAsWritten | src/ui/outline.rs:157-183 | as written, the tick is drawn at column `tick − 5 + |prefix|` of the row |
| OutlineView.DeepLevelTickShifted | src/ui/outline.rs:157-162 | as written, a level-5 or level-6 hint draws the tick one or two columns right of its position |
| OutlineView.DeepLevelFadeShifted | src/ui/outline.rs:32-39 | as written, for a one-character level-5 title at width 80, the `─` tick moves from column 39 to 40 unseen (both show the plain line), while the row is 81 columns wide and its right fade is one column late: column 76 plain and 78 dashed, where the corrected bar has them dashed and dotted |
| OutlineView.BarTickAtItsColumn | src/ui/outline.rs:157-183 | with the cells starting after the prefix actually drawn, the row is as wide as the bar, starts with the prefix, and each cell, the tick included, is drawn at its own column |
| OutlineView.TickDrawnOverTitle | src/ui/outline.rs:32-39 | with that start, the tick is drawn at the column of the title's middle character |
| OutlineView.ItemText | src/ui/outline.rs:129-131 | a title is drawn after its centring padding |
| OutlineView.ItemGray | src/ui/outline.rs:120-126 | gray between 60 and 150, and 150 exactly for the nearest items |
| OutlineView.ItemGrayFades | src/ui/outline.rs:120-126 | farther items are never brighter, and are strictly dimmer up to distance 4 |
| OutlineView.AboveWalkAsWritten | src/ui/outline.rs:90-104 | the loop above the selection, as written, walks up from `selected −sat 1` and row `center −sat 2` |
| OutlineView.AboveRepeatsFirstSection | src/ui/outline.rs:91-98 | as written, with the first section selected, that section is drawn again just above its own bar |
| OutlineView.AboveCoversTopBar | src/ui/outline.rs:91 | as written, in a three-row view the item above the selection is drawn on the top bar's row |
| OutlineView.AboveItemsSound | src/ui/outline.rs:90-104 | as intended, each item above is an earlier section, above the top bar, at its distance from the selection, as far as the first section or the top row |
| OutlineView.BelowWalk | src/ui/outline.rs:106-117 | the loop below the selection builds `WalkDown` from `selected + 1` and row `center + 2` |
| OutlineView.BelowItemsSound | src/ui/outline.rs:106-117 | each item below is a later section, below the bottom bar and inside the view, at its distance from the selection |
| OutlineView.Render | src/ui/outline.rs:13-118 | nothing without sections or with fewer than three rows; else the selection between its bars on the middle row, the bar as wide as the view with the tick at the column of the title's middle character, earlier sections only above and later ones only below |
| Context.TableRow | src/ui/context.rs:153-158 | a row exactly for a table cell, and it is that cell's row |
| Context.MaxChars | src/ui/context.rs:77 | `width −sat 6`, capped at the configured line length |
| Context.ScanEnd | src/ui/context.rs:74 | packing stops 500 tokens past the cursor or at the end of the document |
| Context.ComputeDocumentLines | src/ui/context.rs:68-138 | the packing loop builds `DocumentLines` |
| Context.DocumentIndices | src/ui/context.rs:85-135 | the lines list every token index from 0 up to the scan end exactly once, in increasing order |
| Context.DocumentShape | src/ui/context.rs:107-135 | non-blank lines hold tokens and blank lines none; a blank line is never first, never last and never next to another blank |
| Context.DocumentFits | src/ui/context.rs:104-122 | a line of two or more words fits in the maximum, each word counted with its space |
| Context.DocumentCoherent | src/ui/context.rs:86-122 | all words of a line share one block, and a list item's first word always starts a line |
| Context.FoldGrows | src/ui/context.rs:85-128 | packing more tokens only appends lines |
| Context.NoReflow | src/ui/context.rs:72-74 | moving the cursor forward only appends lines: every earlier line except the last is unchanged and in the same place |
| Context.FindPositionInLines | src/ui/context.rs:141-150 | the first (line, word) holding the position, or (0, 0) when no line holds it |
| Context.PositionShown | src/ui/context.rs:141-150 | a position is found in the document lines exactly when it lies before the scan end |
| Context.CursorShown | src/ui/context.rs:141-150 | the cursor's own word is always on the lines built for that cursor |
| Context.BlockPrefix | src/ui/context.rs:208-215 | no prefix for headings and paragraphs; otherwise a prefix of at most 4 characters ending in a space |
| Context.CalculateLineWidth | src/ui/context.rs:161-191 | the accumulation loop computes `ContentWidth`: prefix, words with their spaces, cell separators, closing bar |
| Context.VisibleOnce | src/ui/context.rs:375-392 | the reading word is shown in neither view, and every other word in exactly one |
| Context.WordText | src/ui/context.rs:375-398 | a shown word is drawn with its space; a hidden one as as many blanks |
| Context.LineTextWidth | src/ui/context.rs:311-426 | what `render_line` draws after the padding is exactly as wide as the measured line width, in either view |
| Context.LineTextStable | src/ui/context.rs:375-398 | moving the cursor never moves a word: a line's drawn text has the same width for every cursor and view |
| Context.CalculatePadding | src/ui/context.rs:194-205 | at least 2; half the free room when the content fills less than 60% of the width; otherwise 2 |
| Context.PaddingExamples | src/ui/context.rs:457-502 | 20 in 80 gives 30; 60, 48 and 79 give 2; 47 gives 16; 0 gives 40 |
| Context.RenderedLineCentred | src/ui/context.rs:358-361 | a short line is centred: the drawn line fits the area, and its left margin is never wider than its right margin and at most one narrower |
| Context.BlockHintChars | src/ui/context.rs:429-444 | one '#' per level for headings 1 to 6 (one '#' otherwise); no hint exactly for paragraphs; at most 6 characters |
| Context.GutterText | src/ui/context.rs:341-355 | the hint right-aligned in a 4-column gutter |
| Context.GutterHint | src/ui/context.rs:341-355 | a gutter hint is drawn beside a line exactly when it is not blank and its first word's block is not a paragraph |
| Context.Gray | src/ui/context.rs:328-334 | gray between 60 and 200: 200 exactly on the cursor line, and 60 exactly from distance 4 on |
| Context.GrayFades | src/ui/context.rs:328-334 | farther lines are never brighter, and are strictly dimmer up to distance 4 |
| Context.BeforePlacements | src/ui/context.rs:218-259 | up to `height` lines ending with the cursor line, bottom-aligned, consecutive, the cursor line at distance 0 |
| Context.AfterPlacements | src/ui/context.rs:262-299 | the cursor line and those after it, top-aligned, as many as the area holds; none past the end |
| Context.CursorLineNearest | src/ui/context.rs:218-299 | the cursor line is the nearest line in both views: last above, first below |
| Markdown.BoldAndItalicCombine | src/parser/markdown.rs:107-118 | bold inside italic and italic inside bold both give bold-italic |
| Markdown.BoldItalicAbsorbs | src/parser/markdown.rs:107-118 | once bold-italic is on top, every later push keeps bold-italic |
| Markdown.PushedStyleWins | src/parser/markdown.rs:107-118 | over a style that is not bold, italic or bold-italic, the pushed style wins |
| Markdown.SameStyleDoesNotEscalate | src/parser/markdown.rs:107-118 | bold over bold stays bold, and italic over italic stays italic |
| Markdown.Pop | src/parser/markdown.rs:120-135 | a pop removes the top entry but never the bottom one |
| Markdown.PopAfterPush | src/parser/markdown.rs:107-135 | a pop right after a push restores the stack |
| Markdown.ParserContext.constructor | src/parser/markdown.rs:76-91 | both stacks hold their bottom entry (plain style, paragraph), with every counter 0 and every flag off |
| Markdown.ParserContext.PushStyle | src/parser/markdown.rs:107-118 | only the style stack changes: the combination of the current style and the new one is pushed |
| Markdown.ParserContext.PopStyle | src/parser/markdown.rs:120-124 | only the style stack changes, by `Pop` |
| Markdown.ParserContext.PushBlock | src/parser/markdown.rs:126-129 | only the block stack and the new-block flag change: the block is pushed and the flag set |
| Markdown.ParserContext.PopBlock | src/parser/markdown.rs:131-135 | only the block stack changes, by `Pop` |
| Markdown.PopKeepsValid | src/parser/markdown.rs:120-135 | a pop never empties either stack |
| Markdown.CalloutOfSpec | src/parser/markdown.rs:335-351 | a blockquote is a callout exactly when a child paragraph has a text child with a marker, and its type is that marker |
| Markdown.FindInTexts | src/parser/markdown.rs:340-349 | the inner search returns the first marker among a paragraph's text children |
| Markdown.FindCalloutType | src/parser/markdown.rs:335-351 | the nested search returns `CalloutOf`: the first marker in paragraph order, then text order |
| Markdown.CountCells | src/parser/markdown.rs:374-379 | the number of table-cell children: 0 exactly when there are none, all exactly when every child is a cell |
| Markdown.TextTokensSpec | src/parser/markdown.rs:411-448 | one token per word, in order: token k carries word k, the run's style and block and no parent, and the timing hint of word k, told it ends a paragraph exactly when it is the last word and ends a sentence, and that it starts a block exactly when it is the first word after a block push or the first token of the document |
| Markdown.TextTokensCarryWords | src/parser/markdown.rs:411-448 | each token carries its word, the current style and block, and no parent |
| Markdown.NewBlockOnlyFirst | src/parser/markdown.rs:411-448 | every token after the first of a run is timed as a continuation, never as a block start |
| Markdown.FirstTokenStartsBlock | src/parser/markdown.rs:411-448 | the document's very first token is timed as a block start |
| Markdown.TextWordsShape | src/parser/markdown.rs:411-420 | inside inline code the whole text is one word; otherwise the words are non-empty and free of separators |
| Markdown.EmitText | src/parser/markdown.rs:411-448 | the loop appends exactly `TextTokens` and clears the new-block flag once a word is emitted |
| Markdown.EnterBlockquote | src/parser/markdown.rs:330-361 | one level deeper, and a callout block when a child paragraph has a marker |
| Markdown.EnterStructure | src/parser/markdown.rs:309-389 | block-level nodes change the context as `EnteredStructure` says and append a section per heading |
| Markdown.EnterBlock | src/parser/markdown.rs:309-389 | headings, paragraphs, quotes, list items and cells push their block as `EnteredStructure` says |
| Markdown.EnterContainer | src/parser/markdown.rs:362-379 | lists, tables and rows only move their counters |
| Markdown.EnterStyle | src/parser/markdown.rs:393-408 | style nodes push their style, as `EnteredStyle` says |
| Markdown.EnterNode | src/parser/markdown.rs:283-457 | the context becomes `EnteredState`; only unskipped text appends tokens, and only headings append sections |
| Markdown.ExitNode | src/parser/markdown.rs:262-278 | the exit half undoes exactly what the restore flags name |
| Markdown.BlockShape | src/parser/markdown.rs:309-389 | entering a block-level node pushes exactly the block its restore flags name |
| Markdown.CounterShape | src/parser/markdown.rs:362-379 | entering a list, table or row raises exactly the counters its restore flags name |
| Markdown.StructureShape | src/parser/markdown.rs:309-389 | entering any block-level node pushes and raises exactly what its restore flags name |
| Markdown.StyleShape | src/parser/markdown.rs:393-408 | entering a style node pushes exactly one style |
| Markdown.EnterShape | src/parser/markdown.rs:283-457 | every node's entry pushes and raises exactly what its restore flags name |
| Markdown.ExitUndoes | src/parser/markdown.rs:262-278 | on a state balanced with the entered one, the exit gives back the stacks and counters from before the entry |
| Markdown.EnterExitBalanced | src/parser/markdown.rs:246-279 | whatever balanced work the children do, leaving a node undoes exactly what entering it did |
| Markdown.SkipSilences | src/parser/markdown.rs:296-306 | inside a skipped subtree, and at a code block or image, no token is emitted |
| Markdown.WalkAst | src/parser/markdown.rs:246-279 | the context, tokens and sections it leaves are exactly `Walk`'s (enter, the children in order, exit); stacks and counters come back as they were (so sibling lists and quotes restart at depth 1); tokens and sections only grow; new sections are ordered and fresh; skipped subtrees emit nothing |
| Markdown.WalkChildrenAst | src/parser/markdown.rs:255-258 | the loop over the children leaves exactly what walking them one after the other does, with the same balance, growth and ordering guarantees |
| Markdown.HeadingKeepsOrder | src/parser/markdown.rs:315-321 | a heading's section, starting at the current token count, keeps the sections ordered |
| Markdown.FreshSectionsChain | src/parser/markdown.rs:255-258 | sections appended by consecutive children are all fresh after the first child's start |
| Markdown.WalkEmitsTreeReading | src/parser/markdown.rs:246-457 | the walk emits exactly what the tree reads: the words of the new tokens are the words of the unskipped text nodes in pre-order (inline code as one word), each heading adds one section starting at the number of words before it, and the context comes back balanced |
| Markdown.FoldReads | src/parser/markdown.rs:246-279 | any walk whose enter and exit halves each do what the reading expects of one node emits what the whole tree reads |
| Markdown.FoldChildrenReads | src/parser/markdown.rs:255-258 | the same for the children of a node, one after the other |
| Markdown.WalkStepsRead | src/parser/markdown.rs:246-457 | `enter_node` and the exit half of `walk_ast` do what the reading expects of every node |
| Markdown.EnterFlags | src/parser/markdown.rs:283-408 | entering keeps both stacks non-empty, makes the skip depth positive exactly below a code block or image, and sets the inline-code flag exactly below inline code |
| Markdown.EnterInlineCode | src/parser/markdown.rs:393-408 | only entering inline code sets the inline-code flag, and no entry clears it |
| Markdown.EmittedWords | src/parser/markdown.rs:411-448 | the words of the tokens a node emits are the node's own words |
| Markdown.SkippedTreeSilent | src/parser/markdown.rs:296-306 | nothing at or below a code block or an image is read |
| Markdown.BackfillSectionEnds | src/parser/markdown.rs:233-239 | only each section's end changes: it is the next section's start, and the token count for the last |
| Markdown.ChainedSectionsPartition | src/parser/markdown.rs:233-239 | ordered, chained sections cover the tokens from the first heading to the end without overlap |
| Markdown.ParseStr | src/parser/markdown.rs:223-242 | parsing succeeds; the tokens are those of the walk from the initial context, and their words are the tree's pre-order words; the sections are the tree's headings in order, each starting at the number of words before it, with their ends back-filled so that they are ordered and chained and each span lies within the tokens |
| MarkdownWords.SplitFlatten | src/parser/markdown.rs:171-202 | concatenating the portions of a split gives back the text without its separators |
| MarkdownWords.SplitJoin | src/parser/markdown.rs:171-202 | joining the portions split on one character with that character gives back the text |
| MarkdownWords.SplitHyphenatedWord | src/parser/markdown.rs:171-202 | the portion loop builds `HyphenPieces`, whose pieces concatenate to the word |
| MarkdownWords.HyphenRoundTrip | src/parser/markdown.rs:171-202 | the pieces concatenate to the word they came from |
| MarkdownWords.HyphenWholeIff | src/parser/markdown.rs:171-202 | a hyphenated word stays whole exactly when no portion is longer than three characters; otherwise every hyphen becomes a break |
| MarkdownWords.HyphenPiecesAvoid | src/parser/markdown.rs:171-202 | the pieces avoid every character the word avoids, other than the hyphen |
| MarkdownWords.HyphenPiecesLongFirst | src/parser/markdown.rs:171-202 | a word whose first portion is longer than three splits after each hyphen |
| MarkdownWords.HyphenExampleSplit | src/parser/markdown.rs:531-538 | "well-known" gives "well-" and "known" |
| MarkdownWords.HyphenExampleWhole | src/parser/markdown.rs:541-547 | "co-op" stays whole |
| MarkdownWords.HyphenExampleThree | src/parser/markdown.rs:550-558 | "mother-in-law" gives "mother-", "in-" and "law" |
| MarkdownWords.SplitIntoWordsShape | src/parser/markdown.rs:146-162 | the words are non-empty and free of whitespace and dashes, and concatenate to the text without them |
| MarkdownWords.SplitIntoWordsOf | src/parser/markdown.rs:146-162 | the words are the whitespace parts, each split on dashes and then on hyphens, with empty pieces dropped |
| MarkdownWords.WordsFlatten | src/parser/markdown.rs:146-162 | no character is lost but the separators |
| MarkdownWords.WordsAvoidSeparators | src/parser/markdown.rs:146-162 | no word holds whitespace or a dash |
| MarkdownWords.SplitIntoWordsDashExample | src/parser/markdown.rs:561-568 | "Hello—world" gives "Hello" and "world" |
| MarkdownWords.SplitIntoWordsWhitespaceExample | src/parser/markdown.rs:471-474 | "Hello   world\ntest" gives "Hello", "world" and "test" |
| MarkdownWords.CalloutMarker | src/parser/markdown.rs:207-214 | a marker exactly when the trimmed text starts with "[!" and holds a ']' |
| MarkdownWords.DetectCalloutType | src/parser/markdown.rs:206-215 | a type exactly when the trimmed text starts with "[!" and holds a ']' |
| MarkdownWords.CalloutRoundTrip | src/parser/markdown.rs:206-215 | "[!kind]rest" is detected as kind in lower case, whatever follows |
| MarkdownWords.CalloutTrimmed | src/parser/markdown.rs:206-215 | surrounding whitespace never changes what is detected |
| MarkdownWords.NotCalloutWithoutMarker | src/parser/markdown.rs:206-215 | a text that does not start with "[!" after trimming is never a callout |

## Left out

- Drawing itself is not modelled: terminal widgets, ratatui spans, styles, colours and bold or underline modifiers. The views are modelled as the rows, columns, glyphs and gray levels they would draw.
- The top-level `ui::render` layout (src/ui/mod.rs), the help overlay (src/ui/help.rs) and the status bar (src/ui/status.rs) are not part of this model.
- The terminal, raw mode, the clock and the key queue are not modelled. The loop step takes the key and the elapsed milliseconds as parameters.
- Keys are reduced to pressed or not and Control held or not. Other crossterm event kinds are treated as "not a key press".
- The report's `println!` output is not modelled. Only the position buckets are, not the averages or maxima.
- The command line and the choice between the EPUB and markdown parsers in src/main.rs are not modelled.
- `App::with_options`, `context_width`, `hint_chars_enabled` and `styling_enabled` are used by src/main.rs and the views. They are not in src/app.rs, so the model follows src/app.rs.
- `Rsvp.Render`: the choice between the faded and the plain guide line, which depends on `hint_chars_enabled`, is not in the model. Both lines are modelled and related by `FadedMatchesPlain`.
- OutlineView.Render: draws the titles above the selection with the corrected walk `AboveItems`, not the walk of src/ui/outline.rs:91-104 as written. That walk is modelled separately as `AboveWalkAsWritten`, and its two defects are stated under "## Findings".
- OutlineView.Render: draws its bar with the corrected start column `Bar`, not the fixed column 5 of src/ui/outline.rs:162. The bar as written is `DrawnBar`, and its defect is stated under "## Findings".
- OutlineView.TickOverTitle: states the tick's column in the item's row. It does not say that the bar draws the tick there; as written it does not at levels 5 and 6 (`DeepLevelTickShifted`). With the code's `─` tick glyph that shift does not show on screen; the shifted right fade does (`DeepLevelFadeShifted`).
- OutlineView.Render: the bar carries glyphs only. The gray of each cell is stated by `BarCell` and the bar lemmas, and the prefix's colour is not modelled.
- `App::progress` is left out, because it is floating-point.
- The 60% centring ratio in the padding functions is the only floating-point comparison modelled. It is written exactly as `5 * content < 3 * available`.
- The markdown parser (markdown-it) is foreign code. The model starts from its syntax tree, `Node`.
- The timing-hint generator the walker calls is not in the source files. It is the function parameter `hint`.
- Reading EPUB files is not modelled: the EPUB container, the spine, the table of contents, `get_chapter_title` and the XHTML-to-markdown conversion (html2text). A book is given as its chapter list, and the conversion as the function parameter `toMarkdown`.
- The final `parse_str` of the combined EPUB text is not modelled. The model returns the text, and the markdown walk is modelled on its own syntax tree.
- `Epub.ExportChapters` returns the files to write. Creating the directory, writing the files and their I/O errors are not modelled.
- Rust's `char::is_alphabetic`, `is_alphanumeric` and `to_lowercase` are approximated. Letters are the ASCII letters plus the characters above U+00FF that lie outside the symbol and space blocks. Lower-casing changes only ASCII capitals.
  - Whitespace is exactly Unicode White_Space, as `split_whitespace` and `trim` use it.
  - The general lemmas do not depend on the approximation; only the concrete examples do.
- The model follows the code where tests/app_test.rs:61 expects 1000 wpm after a hundred speed-ups. The code caps the speed at 800, and `Navigation.WpmBoundExamples` states 800.
- src/types.rs is older than its users in several places. The model follows the users:
  - table cells carry their row;
  - tokens carry an optional parent block;
  - the timing hint carries a cell-start flag;
  - the block hint of the reading line (`hint_chars`) is taken to be `block_hint_chars` of src/ui/context.rs.
- `is_last_table_cell` compares a cell index with `table_cell_count - 1` on `usize`. It is modelled as `count > 0 && index + 1 == count`. A cell outside a row, where the subtraction could underflow, does not occur in the tree.
- Integer widths (u16 wpm, u64 durations, usize counters) are unbounded integers in the model. Speeds, counters and token counts stay far below those widths.
- Timing.CalculateDuration: the `i32` sum of the timing-hint modifiers is taken not to overflow. The modifiers come from the `hint` parameter, which the model does not bound. The final cast to `u64` is not modelled; it loses nothing, because the value is at least 50 after `max(50)`.

## Findings

| source | as written | input that shows it | evidently intended | confidence | as-written member | corrected member |
|---|---|---|---|---|---|---|
| src/ui/outline.rs:92 | the walk above the selection starts at `selected.saturating_sub(1)` | the first section selected (`selected == 0`) in a view of at least four rows (`center_y >= 2`): section 0 is drawn again two rows above itself | nothing is drawn above the first section | not executed | OutlineView.AboveRepeatsFirstSection | OutlineView.AboveItemsSound |
| src/ui/outline.rs:91 | the walk above starts at row `center_y.saturating_sub(2)` | a three-row view (`center_y == 1`) with `selected > 0`: the item is drawn on row 0, over the top guide bar | items above go only on rows above the top bar, and none when there is no such row | not executed | OutlineView.AboveCoversTopBar | OutlineView.AboveItemsSound |
| src/ui/outline.rs:159-162 | the cells start at index 5 whenever there is a hint, but the prefix `{:>4} ` is 6 or 7 columns wide for a level-5 or level-6 hint, and is not drawn at all when the hint is not narrower than the bar | the title "a" at level 5 in an 80-column view: the row is 81 columns wide, so its last cell falls outside the view and the right fade is one column late (column 76 plain where the fade is dashed, column 78 dashed where it is dotted); the tick moves from column 39 to 40 too, but with the code's `─` tick glyph that move does not show | the row is exactly as wide as the view and each cell, fades and tick included, is drawn at its own column | not executed | OutlineView.DeepLevelFadeShifted | OutlineView.BarTickAtItsColumn |
