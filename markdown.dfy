/**
 * The markdown tokenizer: a depth-first walk over the parsed document tree that keeps a
 * parser context (style and block stacks, depth counters, table counters, flags) and appends
 * one token per word and one section per heading.
 *
 * The markdown parser itself is external: its output is the `Node` tree below, and heading
 * titles arrive as a field of the heading node. The per-word timing hint generator is not
 * part of this model; it is the parameter `hint`.
 */
module Markdown {
  import opened Chars
  import opened Types
  import opened MarkdownWords

  datatype NodeKind =
    | Root
    | Heading(level: nat, title: string)
    | Paragraph
    | Blockquote
    | BulletList
    | OrderedList
    | ListItem
    | Table
    | TableRow
    | TableCell
    | Strong
    | Em
    | CodeInline
    | Link(url: string)
    | CodeFence
    | Image
    | Text(content: string)
    | Other

  datatype Node = Node(kind: NodeKind, children: seq<Node>)

  /** The timing hint generator: (word, is_paragraph_end, is_new_block, is_last_table_cell). */
  type HintFn = (string, bool, bool, bool) -> TimingHint

  // ---------------------------------------------------------------------------------------
  // Style stacking
  // ---------------------------------------------------------------------------------------

  /** The style `push_style` puts on the stack when `pushed` is pushed over `current`. */
  function CombineStyle(current: TokenStyle, pushed: TokenStyle): TokenStyle {
    match (current, pushed)
    case (Bold, Italic) => BoldItalic
    case (Italic, Bold) => BoldItalic
    case (BoldItalic, _) => BoldItalic
    case _ => pushed
  }

  /** The top of the style stack after pushing `pushes` in order over `base`. */
  function StackedStyle(base: TokenStyle, pushes: seq<TokenStyle>): TokenStyle
    decreases |pushes|
  {
    if pushes == [] then base
    else StackedStyle(CombineStyle(base, pushes[0]), pushes[1..])
  }

  /** Bold inside italic and italic inside bold both give bold-italic, whatever lies beneath. */
  lemma BoldAndItalicCombine(base: TokenStyle)
    ensures StackedStyle(base, [Bold, Italic]) == BoldItalic
    ensures StackedStyle(base, [Italic, Bold]) == BoldItalic
  {
    assert [Bold, Italic][1..] == [Italic];
    assert [Italic, Bold][1..] == [Bold];
  }

  /** Once bold-italic is on top, every further push keeps bold-italic. */
  lemma {:induction false} BoldItalicAbsorbs(pushes: seq<TokenStyle>)
    ensures StackedStyle(BoldItalic, pushes) == BoldItalic
    decreases |pushes|
  {
    if pushes != [] {
      BoldItalicAbsorbs(pushes[1..]);
    }
  }

  /** Over a plain, code or link style, the pushed style wins outright. */
  lemma PushedStyleWins(current: TokenStyle, pushed: TokenStyle)
    requires current !in {Bold, Italic, BoldItalic}
    ensures CombineStyle(current, pushed) == pushed
  {
  }

  /** Bold over bold, or italic over italic, does not escalate. */
  lemma SameStyleDoesNotEscalate(s: TokenStyle)
    requires s == Bold || s == Italic
    ensures StackedStyle(s, [s]) == s
  {
  }

  /** Removes the top entry, but never the bottom one. */
  function Pop<T>(stack: seq<T>): (r: seq<T>)
    ensures |stack| >= 1 ==> |r| >= 1
    ensures |stack| > 1 ==> r + [stack[|stack| - 1]] == stack
    ensures |stack| <= 1 ==> r == stack
  {
    if |stack| > 1 then stack[..|stack| - 1] else stack
  }

  /** A pop right after a push on a non-empty stack restores it. */
  lemma PopAfterPush<T>(stack: seq<T>, x: T)
    requires |stack| >= 1
    ensures Pop(stack + [x]) == stack
  {
    assert (stack + [x])[..|stack|] == stack;
  }

  /** The top entry, or `bottom` for an empty stack (`last().cloned().unwrap_or(..)`). */
  function Top<T>(stack: seq<T>, bottom: T): T {
    if stack == [] then bottom else stack[|stack| - 1]
  }

  function SaturatingDec(n: nat): nat {
    if n == 0 then 0 else n - 1
  }

  // ---------------------------------------------------------------------------------------
  // Parser context
  // ---------------------------------------------------------------------------------------

  /** A snapshot of every field of the parser context. */
  datatype CtxState = CtxState(
    styleStack: seq<TokenStyle>,
    blockStack: seq<BlockContext>,
    quoteDepth: nat,
    listDepth: nat,
    skipDepth: nat,
    newBlockEntered: bool,
    tableRow: nat,
    tableCellIndex: nat,
    tableCellCount: nat,
    isLastTableCell: bool,
    inCallout: bool,
    inInlineCode: bool)

  /** A fresh context: plain style and paragraph at the bottom of the stacks, counters 0, flags off. */
  const InitialState := CtxState([Normal], [BlockContext.Paragraph], 0, 0, 0, false, 0, 0, 0, false, false, false)

  class ParserContext {
    var styleStack: seq<TokenStyle>
    var blockStack: seq<BlockContext>
    var quoteDepth: nat
    var listDepth: nat
    var skipDepth: nat
    var newBlockEntered: bool
    var tableRow: nat
    var tableCellIndex: nat
    var tableCellCount: nat
    var isLastTableCell: bool
    var inCallout: bool
    var inInlineCode: bool

    function State(): CtxState
      reads this
    {
      CtxState(styleStack, blockStack, quoteDepth, listDepth, skipDepth, newBlockEntered,
        tableRow, tableCellIndex, tableCellCount, isLastTableCell, inCallout, inInlineCode)
    }

    /** Both stacks keep their bottom entry. */
    predicate Valid()
      reads this
    {
      |styleStack| >= 1 && |blockStack| >= 1
    }

    constructor()
      ensures Valid()
      ensures State() == InitialState
    {
      styleStack := [Normal];
      blockStack := [BlockContext.Paragraph];
      quoteDepth := 0;
      listDepth := 0;
      skipDepth := 0;
      newBlockEntered := false;
      tableRow := 0;
      tableCellIndex := 0;
      tableCellCount := 0;
      isLastTableCell := false;
      inCallout := false;
      inInlineCode := false;
    }

    function CurrentStyle(): TokenStyle
      reads this
    {
      Top(styleStack, Normal)
    }

    function CurrentBlock(): BlockContext
      reads this
    {
      Top(blockStack, BlockContext.Paragraph)
    }

    /** Pushes the combination of the current style and `style`. */
    method PushStyle(style: TokenStyle)
      modifies this
      ensures State() == old(State()).(styleStack :=
        old(styleStack) + [CombineStyle(old(CurrentStyle()), style)])
      ensures CurrentStyle() == CombineStyle(old(CurrentStyle()), style)
    {
      styleStack := styleStack + [CombineStyle(CurrentStyle(), style)];
    }

    method PopStyle()
      modifies this
      ensures State() == old(State()).(styleStack := Pop(old(styleStack)))
    {
      if |styleStack| > 1 {
        styleStack := styleStack[..|styleStack| - 1];
      }
    }

    /** Pushes a block and marks that the next token starts a new block. */
    method PushBlock(block: BlockContext)
      modifies this
      ensures State() == old(State()).(blockStack := old(blockStack) + [block], newBlockEntered := true)
      ensures CurrentBlock() == block
    {
      blockStack := blockStack + [block];
      newBlockEntered := true;
    }

    method PopBlock()
      modifies this
      ensures State() == old(State()).(blockStack := Pop(old(blockStack)))
    {
      if |blockStack| > 1 {
        blockStack := blockStack[..|blockStack| - 1];
      }
    }
  }

  /** A pop never empties a stack, so the context stays valid under every pop. */
  lemma PopKeepsValid(s: CtxState)
    requires |s.styleStack| >= 1 && |s.blockStack| >= 1
    ensures |Pop(s.styleStack)| >= 1 && |Pop(s.blockStack)| >= 1
  {
  }

  // ---------------------------------------------------------------------------------------
  // Callout search and table cells
  // ---------------------------------------------------------------------------------------

  /** The callout marker a single node carries: only text nodes can carry one. */
  function Marker(n: Node): Option<string> {
    if n.kind.Text? then DetectCalloutType(n.kind.content) else None
  }

  /** The first `Some` that `f` gives along `xs`, or `None`. */
  function FirstSome<T>(xs: seq<T>, f: T -> Option<string>): Option<string> {
    if xs == [] then None
    else if f(xs[0]).Some? then f(xs[0])
    else FirstSome(xs[1..], f)
  }

  /** Nothing is found exactly when `f` gives `None` everywhere. */
  lemma {:induction false} FirstSomeNone<T>(xs: seq<T>, f: T -> Option<string>)
    ensures FirstSome(xs, f).None? <==> forall j :: 0 <= j < |xs| ==> f(xs[j]).None?
  {
    if xs != [] {
      FirstSomeNone(xs[1..], f);
      assert forall j :: 1 <= j < |xs| ==> xs[j] == xs[1..][j - 1];
    }
  }

  /** What is found is `f` of the first element where `f` gives `Some`. */
  lemma {:induction false} FirstSomeFirst<T>(xs: seq<T>, f: T -> Option<string>)
    requires FirstSome(xs, f).Some?
    ensures exists j :: (0 <= j < |xs| && FirstSome(xs, f) == f(xs[j])
      && forall k :: 0 <= k < j ==> f(xs[k]).None?)
  {
    if f(xs[0]).None? {
      var rest := xs[1..];
      FirstSomeFirst(rest, f);
      var j :| (0 <= j < |rest| && FirstSome(rest, f) == f(rest[j])
        && forall k :: 0 <= k < j ==> f(rest[k]).None?);
      assert forall k :: 1 <= k < j + 2 ==> xs[k] == rest[k - 1];
      assert (0 <= j + 1 < |xs| && FirstSome(xs, f) == f(xs[j + 1])
        && forall k :: 0 <= k < j + 1 ==> f(xs[k]).None?);
    } else {
      assert FirstSome(xs, f) == f(xs[0]);
    }
  }

  /** The first callout marker among the text nodes of `nodes`. */
  function CalloutInTexts(nodes: seq<Node>): Option<string> {
    FirstSome(nodes, Marker)
  }

  /** The marker of a paragraph: the first marker among its text children. */
  function ParagraphMarker(n: Node): Option<string> {
    if n.kind.Paragraph? then CalloutInTexts(n.children) else None
  }

  /** The first callout marker in a text child of a paragraph child of a blockquote. */
  function CalloutOf(children: seq<Node>): Option<string> {
    FirstSome(children, ParagraphMarker)
  }

  /**
   * A blockquote is a callout exactly when one of its paragraph children has a text child
   * with a marker, and its type is the marker of the first such text node of the first such
   * paragraph.
   */
  lemma CalloutOfSpec(children: seq<Node>)
    ensures CalloutOf(children).None? <==>
      forall i :: 0 <= i < |children| ==> ParagraphMarker(children[i]).None?
    ensures CalloutOf(children).Some? ==>
      exists i, j :: (0 <= i < |children| && children[i].kind.Paragraph?
        && 0 <= j < |children[i].children| && children[i].children[j].kind.Text?
        && CalloutOf(children) == DetectCalloutType(children[i].children[j].kind.content))
  {
    FirstSomeNone(children, ParagraphMarker);
    if CalloutOf(children).Some? {
      FirstSomeFirst(children, ParagraphMarker);
      var i :| (0 <= i < |children| && CalloutOf(children) == ParagraphMarker(children[i])
        && forall k :: 0 <= k < i ==> ParagraphMarker(children[k]).None?);
      var nodes := children[i].children;
      FirstSomeFirst(nodes, Marker);
      var j :| (0 <= j < |nodes| && FirstSome(nodes, Marker) == Marker(nodes[j])
        && forall k :: 0 <= k < j ==> Marker(nodes[k]).None?);
      assert nodes[j].kind.Text?;
    }
  }

  /** The inner loop of the blockquote search: the text children of one paragraph. */
  method FindInTexts(nodes: seq<Node>) returns (calloutType: Option<string>)
    ensures calloutType == CalloutInTexts(nodes)
  {
    calloutType := None;
    var j := 0;
    while j < |nodes|
      invariant 0 <= j <= |nodes|
      invariant CalloutInTexts(nodes) == CalloutInTexts(nodes[j..])
      invariant calloutType.None?
    {
      assert nodes[j..][1..] == nodes[j + 1..];
      var grandchild := nodes[j];
      if grandchild.kind.Text? {
        calloutType := DetectCalloutType(grandchild.kind.content);
        if calloutType.Some? {
          return;
        }
      }
      j := j + 1;
    }
  }

  /** The blockquote's nested search: paragraphs, then their text nodes, first marker wins. */
  method FindCalloutType(children: seq<Node>) returns (calloutType: Option<string>)
    ensures calloutType == CalloutOf(children)
  {
    calloutType := None;
    var i := 0;
    while i < |children|
      invariant 0 <= i <= |children|
      invariant CalloutOf(children) == CalloutOf(children[i..])
      invariant calloutType.None?
    {
      assert children[i..][1..] == children[i + 1..];
      var child := children[i];
      if child.kind.Paragraph? {
        calloutType := FindInTexts(child.children);
      }
      if calloutType.Some? {
        return;
      }
      i := i + 1;
    }
  }

  /** The number of table-cell children of a row. */
  function CountCells(children: seq<Node>): (n: nat)
    ensures n <= |children|
    ensures n == 0 <==> forall i :: 0 <= i < |children| ==> !children[i].kind.TableCell?
    ensures n == |children| <==> forall i :: 0 <= i < |children| ==> children[i].kind.TableCell?
  {
    if children == [] then 0
    else
      var rest := CountCells(children[1..]);
      assert forall i :: 1 <= i < |children| ==> children[i] == children[1..][i - 1];
      (if children[0].kind.TableCell? then 1 else 0) + rest
  }

  // ---------------------------------------------------------------------------------------
  // Token emission for a text node
  // ---------------------------------------------------------------------------------------

  /** `ends_with` one of '.', '!' or '?'. */
  predicate EndsSentence(word: string) {
    |word| > 0 && word[|word| - 1] in {'.', '!', '?'}
  }

  /** Only the last word of a text run can end a paragraph, and only with '.', '!' or '?'. */
  predicate IsParagraphEndAt(words: seq<string>, k: nat)
    requires k < |words|
  {
    k == |words| - 1 && EndsSentence(words[k])
  }

  /** Only the first word of a run can start a block: after a block push, or as the first token. */
  predicate IsNewBlockAt(k: nat, newBlockEntered: bool, noTokensYet: bool) {
    k == 0 && (newBlockEntered || noTokensYet)
  }

  /** The token for word `k` of a text run. */
  function TextToken(words: seq<string>, k: nat, style: TokenStyle, block: BlockContext,
                     newBlockEntered: bool, noTokensYet: bool, lastCell: bool, hint: HintFn): Token
    requires k < |words|
  {
    Token(words[k], style, block, None,
      hint(words[k], IsParagraphEndAt(words, k), IsNewBlockAt(k, newBlockEntered, noTokensYet), lastCell))
  }

  /** The tokens a text run emits, one per word, in order. */
  function TextTokens(words: seq<string>, style: TokenStyle, block: BlockContext,
                      newBlockEntered: bool, noTokensYet: bool, lastCell: bool, hint: HintFn)
    : (r: seq<Token>)
    ensures |r| == |words|
  {
    seq(|words|, k requires 0 <= k < |words| =>
      TextToken(words, k, style, block, newBlockEntered, noTokensYet, lastCell, hint))
  }

  /**
   * Token `k` carries word `k`, the run's style and block and no parent, and the hint for word
   * `k`: a paragraph end exactly when it is the last word and ends a sentence, a block start
   * exactly when it is the first word after a block push or the first token of the document.
   */
  lemma TextTokensSpec(words: seq<string>, style: TokenStyle, block: BlockContext,
                       newBlockEntered: bool, noTokensYet: bool, lastCell: bool, hint: HintFn)
    ensures var r := TextTokens(words, style, block, newBlockEntered, noTokensYet, lastCell, hint);
      forall k :: 0 <= k < |r| ==>
        && r[k].word == words[k]
        && r[k].style == style
        && r[k].block == block
        && r[k].parentContext == None
        && r[k].timingHint == hint(words[k], k == |words| - 1 && EndsSentence(words[k]),
                                   k == 0 && (newBlockEntered || noTokensYet), lastCell)
  {
  }

  /** One token per word, in order, carrying the run's style and block and no parent. */
  lemma TextTokensCarryWords(words: seq<string>, style: TokenStyle, block: BlockContext,
                             nb: bool, first: bool, lastCell: bool, hint: HintFn)
    ensures var r := TextTokens(words, style, block, nb, first, lastCell, hint);
      && |r| == |words|
      && forall k :: 0 <= k < |r| ==>
        r[k].word == words[k] && r[k].style == style && r[k].block == block && r[k].parentContext == None
  {
    TextTokensSpec(words, style, block, nb, first, lastCell, hint);
  }

  /** Every token after the first of a run is timed as a continuation, never as a block start. */
  lemma NewBlockOnlyFirst(words: seq<string>, style: TokenStyle, block: BlockContext,
                          nb: bool, first: bool, lastCell: bool, hint: HintFn, k: nat)
    requires 0 < k < |words|
    ensures TextTokens(words, style, block, nb, first, lastCell, hint)[k].timingHint
      == hint(words[k], IsParagraphEndAt(words, k), false, lastCell)
  {
  }

  /** The very first token of a document is always timed as a block start. */
  lemma FirstTokenStartsBlock(words: seq<string>, style: TokenStyle, block: BlockContext,
                              nb: bool, lastCell: bool, hint: HintFn)
    requires |words| > 0
    ensures TextTokens(words, style, block, nb, true, lastCell, hint)[0].timingHint
      == hint(words[0], |words| == 1 && EndsSentence(words[0]), true, lastCell)
  {
  }

  /** The words of a text node: the whole content inside inline code, else the segmented words. */
  function TextWords(content: string, inInlineCode: bool): seq<string> {
    if inInlineCode then [content] else SplitIntoWords(content)
  }

  /** Inside inline code the text is one word; elsewhere every word is non-empty and free of separators. */
  lemma TextWordsShape(content: string, inInlineCode: bool)
    ensures inInlineCode ==> TextWords(content, inInlineCode) == [content]
    ensures !inInlineCode ==> forall k :: 0 <= k < |TextWords(content, inInlineCode)| ==>
      TextWords(content, inInlineCode)[k] != [] && Avoids(TextWords(content, inInlineCode)[k], Separators)
  {
    if !inInlineCode {
      SplitIntoWordsShape(content);
    }
  }

  /** Pushes one token per word and clears the new-block flag after the first. */
  method EmitText(words: seq<string>, ctx: ParserContext, tokens: seq<Token>, hint: HintFn)
      returns (tokensOut: seq<Token>)
    modifies ctx
    ensures tokensOut == tokens + TextTokens(words, old(ctx.CurrentStyle()), old(ctx.CurrentBlock()),
      old(ctx.newBlockEntered), |tokens| == 0, old(ctx.isLastTableCell), hint)
    ensures ctx.State() == old(ctx.State()).(newBlockEntered := old(ctx.newBlockEntered) && words == [])
  {
    ghost var expected := TextTokens(words, ctx.CurrentStyle(), ctx.CurrentBlock(),
      ctx.newBlockEntered, |tokens| == 0, ctx.isLastTableCell, hint);
    tokensOut := tokens;
    var wordCount := |words|;
    for i := 0 to wordCount
      invariant tokensOut == tokens + expected[..i]
      invariant ctx.State() == old(ctx.State()).(newBlockEntered := old(ctx.newBlockEntered) && i == 0)
    {
      var word := words[i];
      var isLastWord := i == wordCount - 1;
      var isParagraphEnd := isLastWord && EndsSentence(word);
      var isNewBlock := ctx.newBlockEntered || |tokensOut| == 0;
      var timingHint := hint(word, isParagraphEnd, isNewBlock, ctx.isLastTableCell);
      tokensOut := tokensOut + [Token(word, ctx.CurrentStyle(), ctx.CurrentBlock(), None, timingHint)];
      assert expected[..i + 1] == expected[..i] + [expected[i]];
      ctx.newBlockEntered := false;
    }
    assert expected[..wordCount] == expected;
  }

  // ---------------------------------------------------------------------------------------
  // Entering and leaving a node
  // ---------------------------------------------------------------------------------------

  /** What must be undone when the walk leaves a node. */
  datatype Restore = Restore(style: bool, block: bool, skip: bool, listDepth: bool, quoteDepth: bool)

  predicate IsStyleKind(k: NodeKind) {
    k.Strong? || k.Em? || k.CodeInline? || k.Link?
  }

  predicate IsBlockKind(k: NodeKind) {
    k.Heading? || k.Paragraph? || k.Blockquote? || k.ListItem? || k.TableCell?
  }

  function StyleOf(k: NodeKind): TokenStyle
    requires IsStyleKind(k)
  {
    match k
    case Strong => Bold
    case Em => Italic
    case CodeInline => Code
    case Link(url) => TokenStyle.Link(url)
  }

  /** The restore flags of `enter_node`, which depend on the node and the callout flag only. */
  function RestoreFor(k: NodeKind, inCallout: bool): Restore {
    Restore(
      IsStyleKind(k),
      IsBlockKind(k) && !(k.Paragraph? && inCallout),
      k.CodeFence? || k.Image?,
      k.BulletList? || k.OrderedList?,
      k.Blockquote?)
  }

  predicate IsSkipKind(k: NodeKind) {
    k.CodeFence? || k.Image?
  }

  /** The block-level kinds `enter_node` handles in its if-else chain. */
  predicate IsStructureKind(k: NodeKind) {
    || k.Heading? || k.Paragraph? || k.Blockquote? || k.BulletList? || k.OrderedList?
    || k.ListItem? || k.Table? || k.TableRow? || k.TableCell?
  }

  /** The context after a block-level node is entered. */
  function EnteredStructure(node: Node, s: CtxState): CtxState
    requires IsStructureKind(node.kind)
  {
    match node.kind
    case Heading(level, _) =>
      s.(blockStack := s.blockStack + [BlockContext.Heading(level)], newBlockEntered := true)
    case Paragraph =>
      if s.inCallout then s
      else s.(blockStack := s.blockStack + [BlockContext.Paragraph], newBlockEntered := true)
    case Blockquote =>
      var callout := CalloutOf(node.children);
      s.(quoteDepth := s.quoteDepth + 1,
         inCallout := callout.Some?,
         blockStack := s.blockStack + [if callout.Some? then Callout(callout.value) else Quote(s.quoteDepth + 1)],
         newBlockEntered := true)
    case BulletList => s.(listDepth := s.listDepth + 1)
    case OrderedList => s.(listDepth := s.listDepth + 1)
    case ListItem =>
      s.(blockStack := s.blockStack + [BlockContext.ListItem(s.listDepth)], newBlockEntered := true)
    case Table => s.(tableRow := 0, tableCellIndex := 0, tableCellCount := 0, isLastTableCell := false)
    case TableRow =>
      s.(tableRow := s.tableRow + 1, tableCellIndex := 0, tableCellCount := CountCells(node.children))
    case TableCell =>
      s.(isLastTableCell := s.tableCellCount > 0 && s.tableCellIndex + 1 == s.tableCellCount,
         blockStack := s.blockStack + [BlockContext.TableCell(s.tableRow)],
         newBlockEntered := true,
         tableCellIndex := s.tableCellIndex + 1)
  }

  /** The context after an inline style node is entered. */
  function EnteredStyle(k: NodeKind, s: CtxState): CtxState
    requires IsStyleKind(k)
  {
    s.(styleStack := s.styleStack + [CombineStyle(Top(s.styleStack, Normal), StyleOf(k))],
       inInlineCode := s.inInlineCode || k.CodeInline?)
  }

  /** The context after a text node: the new-block flag is spent once a word is emitted. */
  function EnteredText(content: string, s: CtxState): CtxState {
    if s.skipDepth > 0 then s
    else s.(newBlockEntered := s.newBlockEntered && TextWords(content, s.inInlineCode) == [])
  }

  /** The context after `enter_node`. */
  function EnteredState(node: Node, s: CtxState): CtxState {
    if IsSkipKind(node.kind) then s.(skipDepth := s.skipDepth + 1)
    else if IsStructureKind(node.kind) then EnteredStructure(node, s)
    else if IsStyleKind(node.kind) then EnteredStyle(node.kind, s)
    else if node.kind.Text? then EnteredText(node.kind.content, s)
    else s
  }

  /** The tokens `enter_node` appends: those of an unskipped text node, and no others. */
  function EmittedTokens(node: Node, s: CtxState, noTokensYet: bool, hint: HintFn): seq<Token> {
    if node.kind.Text? && s.skipDepth == 0 then
      TextTokens(TextWords(node.kind.content, s.inInlineCode), Top(s.styleStack, Normal),
        Top(s.blockStack, BlockContext.Paragraph), s.newBlockEntered, noTokensYet, s.isLastTableCell, hint)
    else []
  }

  /** The sections `enter_node` appends: one per heading, starting at the current token count. */
  function NewSections(node: Node, tokenCount: nat): seq<Section> {
    if node.kind.Heading? then [Section(node.kind.title, node.kind.level, tokenCount, 0)] else []
  }

  /** A blockquote: one level deeper, and a callout block when a child paragraph has a marker. */
  method EnterBlockquote(node: Node, ctx: ParserContext)
    requires node.kind.Blockquote?
    modifies ctx
    ensures ctx.State() == EnteredStructure(node, old(ctx.State()))
  {
    ctx.quoteDepth := ctx.quoteDepth + 1;
    var calloutType := FindCalloutType(node.children);
    if calloutType.Some? {
      ctx.inCallout := true;
      ctx.PushBlock(Callout(calloutType.value));
    } else {
      ctx.inCallout := false;
      ctx.PushBlock(Quote(ctx.quoteDepth));
    }
  }

  /** The block-level part of `enter_node`. */
  method EnterStructure(node: Node, ctx: ParserContext, tokenCount: nat, sections: seq<Section>)
      returns (restore: Restore, sectionsOut: seq<Section>)
    requires IsStructureKind(node.kind)
    modifies ctx
    ensures restore == RestoreFor(node.kind, old(ctx.inCallout))
    ensures ctx.State() == EnteredStructure(node, old(ctx.State()))
    ensures sectionsOut == sections + NewSections(node, tokenCount)
  {
    if IsBlockKind(node.kind) {
      restore, sectionsOut := EnterBlock(node, ctx, tokenCount, sections);
    } else {
      restore := EnterContainer(node, ctx);
      sectionsOut := sections;
    }
  }

  /** Headings, paragraphs, quotes, list items and table cells: each pushes its block. */
  method EnterBlock(node: Node, ctx: ParserContext, tokenCount: nat, sections: seq<Section>)
      returns (restore: Restore, sectionsOut: seq<Section>)
    requires IsStructureKind(node.kind) && IsBlockKind(node.kind)
    modifies ctx
    ensures restore == RestoreFor(node.kind, old(ctx.inCallout))
    ensures ctx.State() == EnteredStructure(node, old(ctx.State()))
    ensures sectionsOut == sections + NewSections(node, tokenCount)
  {
    sectionsOut := sections;
    restore := Restore(false, false, false, false, false);
    match node.kind {
      case Heading(level, title) =>
        ctx.PushBlock(BlockContext.Heading(level));
        restore := restore.(block := true);
        sectionsOut := sectionsOut + [Section(title, level, tokenCount, 0)];
      case Paragraph =>
        if !ctx.inCallout {
          ctx.PushBlock(BlockContext.Paragraph);
          restore := restore.(block := true);
        }
      case Blockquote =>
        EnterBlockquote(node, ctx);
        restore := restore.(block := true, quoteDepth := true);
      case ListItem =>
        ctx.PushBlock(BlockContext.ListItem(ctx.listDepth));
        restore := restore.(block := true);
      case TableCell =>
        ctx.isLastTableCell := ctx.tableCellCount > 0 && ctx.tableCellIndex + 1 == ctx.tableCellCount;
        ctx.PushBlock(BlockContext.TableCell(ctx.tableRow));
        restore := restore.(block := true);
        ctx.tableCellIndex := ctx.tableCellIndex + 1;
    }
  }

  /** Lists, tables and table rows: only depth and table counters move. */
  method EnterContainer(node: Node, ctx: ParserContext) returns (restore: Restore)
    requires IsStructureKind(node.kind) && !IsBlockKind(node.kind)
    modifies ctx
    ensures restore == RestoreFor(node.kind, old(ctx.inCallout))
    ensures ctx.State() == EnteredStructure(node, old(ctx.State()))
  {
    restore := Restore(false, false, false, false, false);
    match node.kind {
      case BulletList =>
        ctx.listDepth := ctx.listDepth + 1;
        restore := restore.(listDepth := true);
      case OrderedList =>
        ctx.listDepth := ctx.listDepth + 1;
        restore := restore.(listDepth := true);
      case Table =>
        ctx.tableRow := 0;
        ctx.tableCellIndex := 0;
        ctx.tableCellCount := 0;
        ctx.isLastTableCell := false;
      case TableRow =>
        ctx.tableRow := ctx.tableRow + 1;
        ctx.tableCellIndex := 0;
        ctx.tableCellCount := CountCells(node.children);
    }
  }

  /** The inline styling part of `enter_node`. */
  method EnterStyle(k: NodeKind, ctx: ParserContext) returns (restore: Restore)
    requires IsStyleKind(k)
    modifies ctx
    ensures restore == RestoreFor(k, old(ctx.inCallout))
    ensures ctx.State() == EnteredStyle(k, old(ctx.State()))
  {
    restore := Restore(true, false, false, false, false);
    match k {
      case Strong =>
        ctx.PushStyle(Bold);
      case Em =>
        ctx.PushStyle(Italic);
      case CodeInline =>
        ctx.inInlineCode := true;
        ctx.PushStyle(Code);
      case Link(url) =>
        ctx.PushStyle(TokenStyle.Link(url));
    }
  }

  /** `enter_node` */
  method EnterNode(node: Node, ctx: ParserContext, tokens: seq<Token>, sections: seq<Section>, hint: HintFn)
      returns (restore: Restore, tokensOut: seq<Token>, sectionsOut: seq<Section>)
    modifies ctx
    ensures restore == RestoreFor(node.kind, old(ctx.inCallout))
    ensures ctx.State() == EnteredState(node, old(ctx.State()))
    ensures tokensOut == tokens + EmittedTokens(node, old(ctx.State()), |tokens| == 0, hint)
    ensures sectionsOut == sections + NewSections(node, |tokens|)
  {
    tokensOut, sectionsOut := tokens, sections;
    restore := Restore(false, false, false, false, false);
    // code blocks and images: only the skip depth changes
    if IsSkipKind(node.kind) {
      ctx.skipDepth := ctx.skipDepth + 1;
      restore := restore.(skip := true);
      return;
    }
    if IsStructureKind(node.kind) {
      restore, sectionsOut := EnterStructure(node, ctx, |tokens|, sections);
    } else if IsStyleKind(node.kind) {
      restore := EnterStyle(node.kind, ctx);
    } else if node.kind.Text? {
      if ctx.skipDepth == 0 {
        var words := TextWords(node.kind.content, ctx.inInlineCode);
        tokensOut := EmitText(words, ctx, tokensOut, hint);
      }
    }
  }

  /** The context after the exit half of `walk_ast` undoes what `restore` flags. */
  function ExitedState(s: CtxState, restore: Restore): CtxState {
    s.(
      styleStack := if restore.style then Pop(s.styleStack) else s.styleStack,
      inInlineCode := if restore.style then false else s.inInlineCode,
      blockStack := if restore.block then Pop(s.blockStack) else s.blockStack,
      skipDepth := if restore.skip then SaturatingDec(s.skipDepth) else s.skipDepth,
      listDepth := if restore.listDepth then SaturatingDec(s.listDepth) else s.listDepth,
      quoteDepth := if restore.quoteDepth then SaturatingDec(s.quoteDepth) else s.quoteDepth,
      inCallout := if restore.quoteDepth then false else s.inCallout)
  }

  /** The exit half of `walk_ast`. */
  method ExitNode(ctx: ParserContext, restore: Restore)
    modifies ctx
    ensures ctx.State() == ExitedState(old(ctx.State()), restore)
  {
    if restore.style {
      ctx.PopStyle();
      ctx.inInlineCode := false;
    }
    if restore.block {
      ctx.PopBlock();
    }
    if restore.skip {
      ctx.skipDepth := SaturatingDec(ctx.skipDepth);
    }
    if restore.listDepth {
      ctx.listDepth := SaturatingDec(ctx.listDepth);
    }
    if restore.quoteDepth {
      ctx.quoteDepth := SaturatingDec(ctx.quoteDepth);
      ctx.inCallout := false;
    }
  }

  // ---------------------------------------------------------------------------------------
  // The walk
  // ---------------------------------------------------------------------------------------

  /** Both stacks keep their bottom entry. */
  predicate ValidState(s: CtxState) {
    |s.styleStack| >= 1 && |s.blockStack| >= 1
  }

  /** The parts of the context that every walk leaves as it found them. */
  predicate Balanced(before: CtxState, after: CtxState) {
    && after.styleStack == before.styleStack
    && after.blockStack == before.blockStack
    && after.skipDepth == before.skipDepth
    && after.listDepth == before.listDepth
    && after.quoteDepth == before.quoteDepth
  }

  /** `e` is `s` with exactly the entries pushed and the counters raised that `r` names. */
  predicate Pushes(s: CtxState, e: CtxState, r: Restore) {
    && (r.style ==> |e.styleStack| == |s.styleStack| + 1 && e.styleStack[..|s.styleStack|] == s.styleStack)
    && (!r.style ==> e.styleStack == s.styleStack)
    && (r.block ==> |e.blockStack| == |s.blockStack| + 1 && e.blockStack[..|s.blockStack|] == s.blockStack)
    && (!r.block ==> e.blockStack == s.blockStack)
    && e.skipDepth == s.skipDepth + (if r.skip then 1 else 0)
    && e.listDepth == s.listDepth + (if r.listDepth then 1 else 0)
    && e.quoteDepth == s.quoteDepth + (if r.quoteDepth then 1 else 0)
  }

  /** Entering pushes exactly the entries and raises exactly the counters the restore flags name. */
  predicate EnterShapeHolds(node: Node, s: CtxState) {
    Pushes(s, EnteredState(node, s), RestoreFor(node.kind, s.inCallout))
  }

  lemma PushedOne<T>(stack: seq<T>, x: T)
    ensures |stack + [x]| == |stack| + 1 && (stack + [x])[..|stack|] == stack
  {
  }

  /** A heading, paragraph, quote, list item or cell pushes one block (a callout paragraph none). */
  lemma BlockShape(node: Node, s: CtxState)
    requires IsStructureKind(node.kind) && IsBlockKind(node.kind)
    ensures EnterShapeHolds(node, s)
  {
    var e := EnteredStructure(node, s);
    assert EnteredState(node, s) == e;
    if e.blockStack != s.blockStack {
      PushedOne(s.blockStack, e.blockStack[|e.blockStack| - 1]);
    }
  }

  /** Lists, tables and rows only move counters. */
  lemma CounterShape(node: Node, s: CtxState)
    requires IsStructureKind(node.kind) && !IsBlockKind(node.kind)
    ensures EnterShapeHolds(node, s)
  {
    assert EnteredState(node, s) == EnteredStructure(node, s);
  }

  lemma StructureShape(node: Node, s: CtxState)
    requires IsStructureKind(node.kind)
    ensures EnterShapeHolds(node, s)
  {
    if IsBlockKind(node.kind) {
      BlockShape(node, s);
    } else {
      CounterShape(node, s);
    }
  }

  lemma StyleShape(node: Node, s: CtxState)
    requires IsStyleKind(node.kind)
    ensures EnterShapeHolds(node, s)
  {
    var e := EnteredStyle(node.kind, s);
    assert EnteredState(node, s) == e;
    PushedOne(s.styleStack, e.styleStack[|e.styleStack| - 1]);
  }

  lemma EnterShape(node: Node, s: CtxState)
    ensures EnterShapeHolds(node, s)
  {
    if IsStructureKind(node.kind) {
      StructureShape(node, s);
    } else if IsStyleKind(node.kind) {
      StyleShape(node, s);
    }
  }

  /** Undoing what `r` names, on any state balanced with `e`, gives back the stacks and counters of `s`. */
  lemma ExitUndoes(s: CtxState, e: CtxState, t: CtxState, r: Restore)
    requires ValidState(s)
    requires Pushes(s, e, r)
    requires Balanced(e, t)
    ensures ValidState(e)
    ensures Balanced(s, ExitedState(t, r))
  {
    if r.style {
      PopAfterPush(s.styleStack, t.styleStack[|t.styleStack| - 1]);
      assert t.styleStack == s.styleStack + [t.styleStack[|t.styleStack| - 1]];
    }
    if r.block {
      PopAfterPush(s.blockStack, t.blockStack[|t.blockStack| - 1]);
      assert t.blockStack == s.blockStack + [t.blockStack[|t.blockStack| - 1]];
    }
  }

  /**
   * Whatever the children do in between, as long as they keep the stacks and counters
   * balanced, leaving a node undoes exactly what entering it did.
   */
  lemma EnterExitBalanced(node: Node, s: CtxState, t: CtxState)
    requires ValidState(s)
    requires Balanced(EnteredState(node, s), t)
    ensures ValidState(EnteredState(node, s))
    ensures Balanced(s, ExitedState(t, RestoreFor(node.kind, s.inCallout)))
  {
    EnterShape(node, s);
    ExitUndoes(s, EnteredState(node, s), t, RestoreFor(node.kind, s.inCallout));
  }

  /** Inside a skipped subtree, and below a code block or an image, nothing is emitted. */
  lemma SkipSilences(node: Node, s: CtxState, noTokensYet: bool, hint: HintFn)
    ensures s.skipDepth > 0 ==> EmittedTokens(node, s, noTokensYet, hint) == []
    ensures s.skipDepth > 0 || node.kind.CodeFence? || node.kind.Image? ==>
      EnteredState(node, s).skipDepth > 0
  {
  }

  /** Section starts are token counts, non-decreasing and within `tokenCount`. */
  predicate SectionsOrdered(sections: seq<Section>, tokenCount: nat) {
    && (forall i :: 0 <= i < |sections| ==> sections[i].tokenStart <= tokenCount)
    && (forall i, j :: 0 <= i < j < |sections| ==> sections[i].tokenStart <= sections[j].tokenStart)
  }

  /** The sections after `old` are fresh: not yet back-filled, starting at or after `tokenCount`. */
  predicate FreshSections(sections: seq<Section>, from: nat, tokenCount: nat) {
    forall k :: from <= k < |sections| ==> tokenCount <= sections[k].tokenStart && sections[k].tokenEnd == 0
  }

  /** The context, tokens and sections after a walk. */
  datatype WalkOut = WalkOut(state: CtxState, tokens: seq<Token>, sections: seq<Section>)

  /**
   * A pre-order walk with its two halves as parameters: `enter` runs before the children,
   * `leave` after them and is also given the context the node was entered from.
   */
  function Fold(enter: (Node, WalkOut) -> WalkOut, leave: (Node, CtxState, WalkOut) -> WalkOut,
                node: Node, w: WalkOut): WalkOut
    decreases node, |node.children| + 1
  {
    leave(node, w.state, FoldChildren(enter, leave, node, 0, enter(node, w)))
  }

  /** The walk over the children of `parent` from the `i`-th one on, one after the other. */
  function FoldChildren(enter: (Node, WalkOut) -> WalkOut, leave: (Node, CtxState, WalkOut) -> WalkOut,
                        parent: Node, i: nat, w: WalkOut): WalkOut
    requires i <= |parent.children|
    decreases parent, |parent.children| - i
  {
    if i == |parent.children| then w
    else FoldChildren(enter, leave, parent, i + 1, Fold(enter, leave, parent.children[i], w))
  }

  /** The entry half of `walk_ast`, as `enter_node` does it. */
  function Enter(hint: HintFn, node: Node, w: WalkOut): WalkOut {
    WalkOut(EnteredState(node, w.state), w.tokens + EmittedTokens(node, w.state, |w.tokens| == 0, hint),
      w.sections + NewSections(node, |w.tokens|))
  }

  /** `Enter` for a fixed hint generator, as the walk takes it. */
  function EnterWith(hint: HintFn): (Node, WalkOut) -> WalkOut {
    (node: Node, w: WalkOut) => Enter(hint, node, w)
  }

  /** The exit half of `walk_ast`: undo what entering `node` from `before` pushed. */
  function Leave(node: Node, before: CtxState, w: WalkOut): WalkOut {
    w.(state := ExitedState(w.state, RestoreFor(node.kind, before.inCallout)))
  }

  /** `walk_ast` as a function. */
  function Walk(node: Node, s: CtxState, tokens: seq<Token>, sections: seq<Section>, hint: HintFn): WalkOut {
    Fold(EnterWith(hint), Leave, node, WalkOut(s, tokens, sections))
  }

  /**
   * `walk_ast`: enter the node, walk the children in order, undo the entry. Stacks and depth
   * counters come back exactly as they were, which is why sibling lists and quotes all start
   * again at depth 1. Skipped subtrees emit nothing, and headings append ordered sections.
   */
  method WalkAst(node: Node, ctx: ParserContext, tokens: seq<Token>, sections: seq<Section>, hint: HintFn)
      returns (tokensOut: seq<Token>, sectionsOut: seq<Section>)
    requires ctx.Valid()
    modifies ctx
    ensures ctx.Valid()
    ensures Balanced(old(ctx.State()), ctx.State())
    ensures tokens <= tokensOut && sections <= sectionsOut
    ensures FreshSections(sectionsOut, |sections|, |tokens|)
    ensures SectionsOrdered(sections, |tokens|) ==> SectionsOrdered(sectionsOut, |tokensOut|)
    ensures old(ctx.skipDepth) > 0 || node.kind.CodeFence? || node.kind.Image? ==> tokensOut == tokens
    ensures WalkOut(ctx.State(), tokensOut, sectionsOut) == Walk(node, old(ctx.State()), tokens, sections, hint)
    decreases node, 1
  {
    ghost var before := ctx.State();
    var restore;
    restore, tokensOut, sectionsOut := EnterNode(node, ctx, tokens, sections, hint);
    ghost var entered := ctx.State();
    if SectionsOrdered(sections, |tokens|) {
      HeadingKeepsOrder(sections, |tokens|, node, |tokensOut|);
    }
    SkipSilences(node, before, |tokens| == 0, hint);
    EnterExitBalanced(node, before, entered);
    ghost var skipping := before.skipDepth > 0 || node.kind.CodeFence? || node.kind.Image?;
    assert skipping ==> entered.skipDepth > 0;
    tokensOut, sectionsOut := WalkChildrenAst(node, ctx, tokensOut, sectionsOut, hint);
    ghost var walked := ctx.State();
    ExitNode(ctx, restore);
    EnterExitBalanced(node, before, walked);
    WalkFromParts(node, before, tokens, sections, hint, WalkOut(walked, tokensOut, sectionsOut));
  }

  /** A heading's section starts at the current token count, after every earlier one. */
  lemma HeadingKeepsOrder(sections: seq<Section>, tokenCount: nat, node: Node, later: nat)
    requires SectionsOrdered(sections, tokenCount)
    requires tokenCount <= later
    ensures SectionsOrdered(sections + NewSections(node, tokenCount), later)
  {
  }

  /** Sections fresh after `mid` and, before it, fresh after `from` are all fresh after `from`. */
  lemma FreshSectionsChain(sections: seq<Section>, from: nat, mid: nat, tokenCount: nat, later: nat)
    requires from <= mid <= |sections| && tokenCount <= later
    requires FreshSections(sections[..mid], from, tokenCount)
    requires FreshSections(sections, mid, later)
    ensures FreshSections(sections, from, tokenCount)
  {
    assert forall k :: from <= k < mid ==> sections[k] == sections[..mid][k];
  }

  /** The loop of `walk_ast` over the children of `node`, each walked in turn. */
  method WalkChildrenAst(node: Node, ctx: ParserContext, tokens: seq<Token>, sections: seq<Section>, hint: HintFn)
      returns (tokensOut: seq<Token>, sectionsOut: seq<Section>)
    requires ctx.Valid()
    modifies ctx
    ensures ctx.Valid()
    ensures Balanced(old(ctx.State()), ctx.State())
    ensures tokens <= tokensOut && sections <= sectionsOut
    ensures FreshSections(sectionsOut, |sections|, |tokens|)
    ensures SectionsOrdered(sections, |tokens|) ==> SectionsOrdered(sectionsOut, |tokensOut|)
    ensures old(ctx.skipDepth) > 0 ==> tokensOut == tokens
    ensures WalkOut(ctx.State(), tokensOut, sectionsOut)
      == FoldChildren(EnterWith(hint), Leave, node, 0, WalkOut(old(ctx.State()), tokens, sections))
    decreases node, 0
  {
    ghost var entered := ctx.State();
    ghost var whole := FoldChildren(EnterWith(hint), Leave, node, 0, WalkOut(entered, tokens, sections));
    tokensOut, sectionsOut := tokens, sections;
    var i := 0;
    while i < |node.children|
      invariant 0 <= i <= |node.children|
      invariant ctx.Valid()
      invariant Balanced(entered, ctx.State())
      invariant tokens <= tokensOut && sections <= sectionsOut
      invariant FreshSections(sectionsOut, |sections|, |tokens|)
      invariant SectionsOrdered(sections, |tokens|) ==> SectionsOrdered(sectionsOut, |tokensOut|)
      invariant entered.skipDepth > 0 ==> tokensOut == tokens
      invariant FoldChildren(EnterWith(hint), Leave, node, i, WalkOut(ctx.State(), tokensOut, sectionsOut)) == whole
    {
      ghost var w := WalkOut(ctx.State(), tokensOut, sectionsOut);
      FoldChildrenStep(EnterWith(hint), Leave, node, i, w);
      tokensOut, sectionsOut := WalkAst(node.children[i], ctx, tokensOut, sectionsOut, hint);
      FreshSectionsChain(sectionsOut, |sections|, |w.sections|, |tokens|, |w.tokens|);
      i := i + 1;
    }
  }

  /** A walk is its entry, then its children, then its exit. */
  lemma WalkFromParts(node: Node, s: CtxState, tokens: seq<Token>, sections: seq<Section>, hint: HintFn,
                      c: WalkOut)
    requires c == FoldChildren(EnterWith(hint), Leave, node, 0, Enter(hint, node, WalkOut(s, tokens, sections)))
    ensures Walk(node, s, tokens, sections, hint) == Leave(node, s, c)
  {
  }

  lemma FoldChildrenStep(enter: (Node, WalkOut) -> WalkOut, leave: (Node, CtxState, WalkOut) -> WalkOut,
                         parent: Node, i: nat, w: WalkOut)
    requires i < |parent.children|
    ensures FoldChildren(enter, leave, parent, i, w)
      == FoldChildren(enter, leave, parent, i + 1, Fold(enter, leave, parent.children[i], w))
  {
  }

  // ---------------------------------------------------------------------------------------
  // What the walk emits, read off the tree
  // ---------------------------------------------------------------------------------------

  /** The words of a token stream, in order. */
  function Words(tokens: seq<Token>): (r: seq<string>)
    ensures |r| == |tokens|
    ensures forall i :: 0 <= i < |tokens| ==> r[i] == tokens[i].word
  {
    seq(|tokens|, i requires 0 <= i < |tokens| => tokens[i].word)
  }

  lemma WordsAppend(a: seq<Token>, b: seq<Token>)
    ensures Words(a + b) == Words(a) + Words(b)
  {
    assert forall i :: 0 <= i < |a + b| ==> Words(a + b)[i] == (Words(a) + Words(b))[i];
  }

  lemma AppendAssoc<T>(a: seq<T>, b: seq<T>, c: seq<T>)
    ensures (a + b) + c == a + (b + c)
  {
  }

  /** The words, the sections and the inline-code flag a walk leaves, read straight off the tree. */
  datatype TreeReading = TreeReading(words: seq<string>, sections: seq<Section>, inCode: bool)

  /** The words a node contributes itself: those `split` finds in a text node outside skipped subtrees. */
  function OwnWords(split: (string, bool) -> seq<string>, node: Node, skipping: bool, inCode: bool): seq<string> {
    if node.kind.Text? && !skipping then split(node.kind.content, inCode) else []
  }

  /**
   * The words of every text node in pre-order (none at or below a code block or an image), and
   * one section per heading that starts at the number of words before it. `at` is that number
   * for `node`; `inCode` holds below inline code and is cleared by leaving any inline style.
   */
  function Read(split: (string, bool) -> seq<string>, node: Node, skipping: bool, inCode: bool, at: nat): TreeReading
    decreases node, |node.children| + 1
  {
    var own := OwnWords(split, node, skipping, inCode);
    var c := ReadChildren(split, node, 0, skipping || IsSkipKind(node.kind), inCode || node.kind.CodeInline?,
      at + |own|);
    TreeReading(own + c.words, NewSections(node, at) + c.sections,
      if IsStyleKind(node.kind) then false else c.inCode)
  }

  /** The reading of the children of `parent` from the `i`-th one on, one after the other. */
  function ReadChildren(split: (string, bool) -> seq<string>, parent: Node, i: nat, skipping: bool, inCode: bool,
                        at: nat): TreeReading
    requires i <= |parent.children|
    decreases parent, |parent.children| - i
  {
    if i == |parent.children| then TreeReading([], [], inCode)
    else
      var r := Read(split, parent.children[i], skipping, inCode, at);
      var rest := ReadChildren(split, parent, i + 1, skipping, r.inCode, at + |r.words|);
      TreeReading(r.words + rest.words, r.sections + rest.sections, rest.inCode)
  }

  /** The tree read with the segmentation `walk_ast` applies to text nodes. */
  function ReadTree(node: Node, skipping: bool, inCode: bool, at: nat): TreeReading {
    Read(TextWords, node, skipping, inCode, at)
  }

  /** Walking on from `w` to `after` emitted what `r` reads and left the context balanced. */
  predicate WalkMatches(w: WalkOut, after: WalkOut, r: TreeReading) {
    && ValidState(after.state) && Balanced(w.state, after.state)
    && Words(after.tokens) == Words(w.tokens) + r.words
    && after.sections == w.sections + r.sections
    && after.state.inInlineCode == r.inCode
  }

  /** Entering `node` from `w` gave `e`: the node's own words and sections, skip and code flags passed on. */
  predicate EnterMatches(split: (string, bool) -> seq<string>, node: Node, w: WalkOut, e: WalkOut) {
    && ValidState(e.state)
    && (e.state.skipDepth > 0) == (w.state.skipDepth > 0 || IsSkipKind(node.kind))
    && e.state.inInlineCode == (w.state.inInlineCode || node.kind.CodeInline?)
    && Words(e.tokens) == Words(w.tokens) + OwnWords(split, node, w.state.skipDepth > 0, w.state.inInlineCode)
    && e.sections == w.sections + NewSections(node, |w.tokens|)
  }

  /** Leaving `node`, entered from `before`, turned `t` into `l`: balanced, nothing emitted, styles closed. */
  predicate LeaveMatches(node: Node, before: CtxState, t: WalkOut, l: WalkOut) {
    && Balanced(before, l.state)
    && l.tokens == t.tokens && l.sections == t.sections
    && l.state.inInlineCode == (if IsStyleKind(node.kind) then false else t.state.inInlineCode)
  }

  /** Each half of a walk step does, for every node, what the reading expects of it. */
  ghost predicate StepsRead(enter: (Node, WalkOut) -> WalkOut, leave: (Node, CtxState, WalkOut) -> WalkOut,
                      split: (string, bool) -> seq<string>) {
    && (forall node: Node, w: WalkOut :: ValidState(w.state) ==> EnterMatches(split, node, w, enter(node, w)))
    && (forall node: Node, w: WalkOut, t: WalkOut ::
          ValidState(w.state) && Balanced(enter(node, w).state, t.state) ==>
          LeaveMatches(node, w.state, t, leave(node, w.state, t)))
  }

  /**
   * The walk emits exactly what the tree reads: the words of the new tokens are the pre-order
   * words of the unskipped text nodes, the new sections are its headings in order, each
   * starting at the token count reached before it, and the context comes back balanced.
   */
  lemma WalkEmitsTreeReading(node: Node, s: CtxState, tokens: seq<Token>, sections: seq<Section>, hint: HintFn)
    requires ValidState(s)
    ensures var w := Walk(node, s, tokens, sections, hint);
      var r := ReadTree(node, s.skipDepth > 0, s.inInlineCode, |tokens|);
      && ValidState(w.state) && Balanced(s, w.state)
      && Words(w.tokens) == Words(tokens) + r.words
      && w.sections == sections + r.sections
      && w.state.inInlineCode == r.inCode
  {
    WalkStepsRead(hint);
    FoldReads(EnterWith(hint), Leave, TextWords, node, WalkOut(s, tokens, sections),
      s.skipDepth > 0, s.inInlineCode, |tokens|);
  }

  /** Any walk whose steps match the reading emits what the tree reads. */
  lemma {:induction false} FoldReads(enter: (Node, WalkOut) -> WalkOut, leave: (Node, CtxState, WalkOut) -> WalkOut,
                                     split: (string, bool) -> seq<string>, node: Node, w: WalkOut,
                                     skipping: bool, inCode: bool, at: nat)
    requires StepsRead(enter, leave, split)
    requires ValidState(w.state)
    requires skipping == (w.state.skipDepth > 0) && inCode == w.state.inInlineCode && at == |w.tokens|
    ensures WalkMatches(w, Fold(enter, leave, node, w), Read(split, node, skipping, inCode, at))
    decreases node, |node.children| + 1
  {
    var e := enter(node, w);
    var own := OwnWords(split, node, skipping, inCode);
    assert EnterMatches(split, node, w, e);
    assert |e.tokens| == at + |own| by {
      assert |Words(e.tokens)| == |Words(w.tokens) + own|;
    }
    var skipping', inCode' := skipping || IsSkipKind(node.kind), inCode || node.kind.CodeInline?;
    FoldChildrenReads(enter, leave, split, node, 0, e, skipping', inCode', at + |own|);
    var c := FoldChildren(enter, leave, node, 0, e);
    var rc := ReadChildren(split, node, 0, skipping', inCode', at + |own|);
    assert LeaveMatches(node, w.state, c, leave(node, w.state, c));
    AppendAssoc(Words(w.tokens), own, rc.words);
    AppendAssoc(w.sections, NewSections(node, at), rc.sections);
  }

  lemma {:induction false} FoldChildrenReads(enter: (Node, WalkOut) -> WalkOut,
                                             leave: (Node, CtxState, WalkOut) -> WalkOut,
                                             split: (string, bool) -> seq<string>, parent: Node, i: nat,
                                             w: WalkOut, skipping: bool, inCode: bool, at: nat)
    requires i <= |parent.children|
    requires StepsRead(enter, leave, split)
    requires ValidState(w.state)
    requires skipping == (w.state.skipDepth > 0) && inCode == w.state.inInlineCode && at == |w.tokens|
    ensures WalkMatches(w, FoldChildren(enter, leave, parent, i, w), ReadChildren(split, parent, i, skipping, inCode, at))
    decreases parent, |parent.children| - i
  {
    if i < |parent.children| {
      var child := parent.children[i];
      var w1 := Fold(enter, leave, child, w);
      var r := Read(split, child, skipping, inCode, at);
      FoldReads(enter, leave, split, child, w, skipping, inCode, at);
      MatchedLength(w, w1, r);
      FoldChildrenReads(enter, leave, split, parent, i + 1, w1, skipping, r.inCode, at + |r.words|);
      MatchesCompose(w, w1, r, FoldChildren(enter, leave, parent, i + 1, w1),
        ReadChildren(split, parent, i + 1, skipping, r.inCode, at + |r.words|));
    }
  }

  /** A walk that matches a reading, followed by one that matches another, matches both read in turn. */
  lemma MatchesCompose(w: WalkOut, w1: WalkOut, r: TreeReading, after: WalkOut, rest: TreeReading)
    requires WalkMatches(w, w1, r)
    requires WalkMatches(w1, after, rest)
    ensures WalkMatches(w, after, TreeReading(r.words + rest.words, r.sections + rest.sections, rest.inCode))
  {
    AppendAssoc(Words(w.tokens), r.words, rest.words);
    AppendAssoc(w.sections, r.sections, rest.sections);
  }

  lemma MatchedLength(w: WalkOut, after: WalkOut, r: TreeReading)
    requires WalkMatches(w, after, r)
    ensures |after.tokens| == |w.tokens| + |r.words|
    ensures after.state.skipDepth == w.state.skipDepth
  {
    assert |Words(after.tokens)| == |Words(w.tokens) + r.words|;
  }

  /** `walk_ast`'s own steps match the reading with its segmentation of text. */
  lemma WalkStepsRead(hint: HintFn)
    ensures StepsRead(EnterWith(hint), Leave, TextWords)
  {
    EnterStepsRead(hint);
    LeaveStepsRead(hint);
  }

  lemma EnterStepsRead(hint: HintFn)
    ensures forall node: Node, w: WalkOut :: ValidState(w.state) ==>
      EnterMatches(TextWords, node, w, EnterWith(hint)(node, w))
  {
    forall node: Node, w: WalkOut | ValidState(w.state)
      ensures EnterMatches(TextWords, node, w, EnterWith(hint)(node, w))
    {
      EnterFlags(node, w.state);
      EmittedWords(node, w.state, w.tokens, hint);
    }
  }

  lemma LeaveStepsRead(hint: HintFn)
    ensures forall node: Node, w: WalkOut, t: WalkOut ::
      ValidState(w.state) && Balanced(EnterWith(hint)(node, w).state, t.state) ==>
      LeaveMatches(node, w.state, t, Leave(node, w.state, t))
  {
    forall node: Node, w: WalkOut, t: WalkOut |
      ValidState(w.state) && Balanced(EnterWith(hint)(node, w).state, t.state)
      ensures LeaveMatches(node, w.state, t, Leave(node, w.state, t))
    {
      EnterExitBalanced(node, w.state, t.state);
    }
  }

  /** What entering one node does to the parts of the context the reading follows. */
  lemma EnterFlags(node: Node, s: CtxState)
    requires ValidState(s)
    ensures var e := EnteredState(node, s);
      && ValidState(e)
      && (e.skipDepth > 0) == (s.skipDepth > 0 || IsSkipKind(node.kind))
      && e.inInlineCode == (s.inInlineCode || node.kind.CodeInline?)
  {
    EnterShape(node, s);
    EnterInlineCode(node, s);
  }

  /** Only entering inline code sets the inline-code flag, and entering nothing clears it. */
  lemma EnterInlineCode(node: Node, s: CtxState)
    ensures EnteredState(node, s).inInlineCode == (s.inInlineCode || node.kind.CodeInline?)
  {
  }

  /** The words of the tokens entering a node emits are the node's own words. */
  lemma EmittedWords(node: Node, s: CtxState, tokens: seq<Token>, hint: HintFn)
    ensures Words(tokens + EmittedTokens(node, s, |tokens| == 0, hint))
      == Words(tokens) + OwnWords(TextWords, node, s.skipDepth > 0, s.inInlineCode)
  {
    var emitted := EmittedTokens(node, s, |tokens| == 0, hint);
    WordsAppend(tokens, emitted);
    assert Words(emitted) == OwnWords(TextWords, node, s.skipDepth > 0, s.inInlineCode);
  }

  /** Below a code block or an image nothing is read, whatever the subtree holds. */
  lemma {:induction false} SkippedTreeSilent(split: (string, bool) -> seq<string>, node: Node, inCode: bool, at: nat)
    ensures Read(split, node, true, inCode, at).words == []
    decreases node, |node.children| + 1
  {
    SkippedChildrenSilent(split, node, 0, inCode || node.kind.CodeInline?, at);
  }

  lemma {:induction false} SkippedChildrenSilent(split: (string, bool) -> seq<string>, parent: Node, i: nat,
                                                 inCode: bool, at: nat)
    requires i <= |parent.children|
    ensures ReadChildren(split, parent, i, true, inCode, at).words == []
    decreases parent, |parent.children| - i
  {
    if i < |parent.children| {
      var r := Read(split, parent.children[i], true, inCode, at);
      SkippedTreeSilent(split, parent.children[i], inCode, at);
      SkippedChildrenSilent(split, parent, i + 1, r.inCode, at + |r.words|);
    }
  }

  // ---------------------------------------------------------------------------------------
  // The whole document
  // ---------------------------------------------------------------------------------------

  /** Each section ends where the next begins, and the last ends at the token count. */
  predicate SectionsChained(sections: seq<Section>, tokenCount: nat) {
    && (forall i :: 0 <= i < |sections| - 1 ==> sections[i].tokenEnd == sections[i + 1].tokenStart)
    && (|sections| > 0 ==> sections[|sections| - 1].tokenEnd == tokenCount)
  }

  /** The second pass of `parse_str`: fills in every section's `token_end`. */
  method BackfillSectionEnds(sections: seq<Section>, tokenCount: nat) returns (r: seq<Section>)
    ensures |r| == |sections|
    ensures forall i :: 0 <= i < |r| ==> r[i] == sections[i].(tokenEnd := r[i].tokenEnd)
    ensures SectionsChained(r, tokenCount)
  {
    r := sections;
    for i := 0 to |r|
      invariant |r| == |sections|
      invariant forall k :: 0 <= k < |r| ==> r[k] == sections[k].(tokenEnd := r[k].tokenEnd)
      invariant forall k :: 0 <= k < i && k + 1 < |r| ==> r[k].tokenEnd == sections[k + 1].tokenStart
      invariant forall k :: 0 <= k < i && k + 1 == |r| ==> r[k].tokenEnd == tokenCount
    {
      if i + 1 < |r| {
        r := r[i := r[i].(tokenEnd := r[i + 1].tokenStart)];
      } else {
        r := r[i := r[i].(tokenEnd := tokenCount)];
      }
    }
  }

  /** Ordered, chained sections partition the tokens from the first heading to the end. */
  lemma ChainedSectionsPartition(sections: seq<Section>, tokenCount: nat)
    requires SectionsOrdered(sections, tokenCount)
    requires SectionsChained(sections, tokenCount)
    ensures forall i :: 0 <= i < |sections| ==>
      sections[i].tokenStart <= sections[i].tokenEnd <= tokenCount
  {
    forall i | 0 <= i < |sections|
      ensures sections[i].tokenStart <= sections[i].tokenEnd <= tokenCount
    {
      if i + 1 < |sections| {
        assert sections[i].tokenEnd == sections[i + 1].tokenStart;
      }
    }
  }

  /** `parse_str` over an already parsed tree: walk, then backfill the section ends. */
  method ParseStr(ast: Node, hint: HintFn) returns (r: Result<ParsedDocument>)
    ensures r.Ok?
    ensures SectionsOrdered(r.value.sections, |r.value.tokens|)
    ensures SectionsChained(r.value.sections, |r.value.tokens|)
    ensures forall i :: 0 <= i < |r.value.sections| ==>
      r.value.sections[i].tokenStart <= r.value.sections[i].tokenEnd <= |r.value.tokens|
    ensures var w := Walk(ast, InitialState, [], [], hint);
      && r.value.tokens == w.tokens
      && |r.value.sections| == |w.sections|
      && forall i :: 0 <= i < |w.sections| ==>
        r.value.sections[i] == w.sections[i].(tokenEnd := r.value.sections[i].tokenEnd)
    ensures var t := ReadTree(ast, false, false, 0);
      && Words(r.value.tokens) == t.words
      && |r.value.sections| == |t.sections|
      && forall i :: 0 <= i < |t.sections| ==>
        r.value.sections[i] == t.sections[i].(tokenEnd := r.value.sections[i].tokenEnd)
  {
    var ctx := new ParserContext();
    var tokens, sections := WalkAst(ast, ctx, [], [], hint);
    WalkEmitsTreeReading(ast, InitialState, [], [], hint);
    ghost var t := ReadTree(ast, false, false, 0);
    assert Words(tokens) == t.words && sections == t.sections by {
      assert Words([]) == [];
    }
    var filled := BackfillSectionEnds(sections, |tokens|);
    assert SectionsOrdered(filled, |tokens|) by {
      assert forall i :: 0 <= i < |filled| ==> filled[i].tokenStart == sections[i].tokenStart;
    }
    ChainedSectionsPartition(filled, |tokens|);
    r := Ok(ParsedDocument(tokens, filled));
  }
}
