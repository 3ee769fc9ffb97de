/**
 * The values exchanged between the tokenizer, the timing model, the layout engine and the
 * navigation state. The shapes follow how the code uses them: a table cell carries its row,
 * a token carries an optional parent context, and a timing hint says whether its word starts
 * a table cell.
 */
module Types {

  datatype Option<T> = None | Some(value: T)

  /** Inline style of a word. */
  datatype TokenStyle = Normal | Bold | Italic | BoldItalic | Code | Link(url: string)

  /** Structural block a word belongs to. */
  datatype BlockContext =
    | Paragraph
    | ListItem(depth: nat)
    | Quote(depth: nat)
    | Callout(kind: string)
    | Heading(level: nat)
    | TableCell(row: nat)

  /** Additive timing modifiers (milliseconds) and the table-cell-start flag. */
  datatype TimingHint = TimingHint(
    wordLengthModifier: int,
    punctuationModifier: int,
    structureModifier: int,
    isCellStart: bool)

  datatype Token = Token(
    word: string,
    style: TokenStyle,
    block: BlockContext,
    parentContext: Option<BlockContext>,
    timingHint: TimingHint)

  datatype TimedToken = TimedToken(token: Token, durationMs: nat, orpPosition: nat)

  /** One heading's half-open span [tokenStart, tokenEnd) of the token stream. */
  datatype Section = Section(title: string, level: nat, tokenStart: nat, tokenEnd: nat)

  datatype ParseError = IoError(reason: string) | Malformed(message: string)

  datatype Result<T> = Ok(value: T) | Err(error: ParseError)

  datatype ParsedDocument = ParsedDocument(tokens: seq<Token>, sections: seq<Section>)
}
