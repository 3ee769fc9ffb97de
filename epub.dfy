/**
 * The string logic of the EPUB reader: file-name sanitising, the book-title fallback, the
 * assembly of the chapters into one markdown text (stopping at the first malformed chapter),
 * and the numbering of the exported chapter files.
 *
 * The EPUB container and the XHTML-to-markdown conversion are foreign code: a book is given
 * as its list of chapters (content if the spine item could be read, table-of-contents title
 * if one matches), and the conversion as the function parameter `toMarkdown`.
 */
module Epub {
  import opened Types
  import opened Chars

  // ---------------------------------------------------------------------------------------
  // File names
  // ---------------------------------------------------------------------------------------

  /** A character a sanitised file name may hold. */
  predicate FileNameChar(c: char) {
    IsAlphanumeric(c) || c == ' ' || c == '-' || c == '_'
  }

  /** A string that is already a sanitised file name: allowed characters, no outer spaces. */
  predicate IsSanitized(s: string) {
    && (forall i :: 0 <= i < |s| ==> FileNameChar(s[i]))
    && (s == [] || (s[0] != ' ' && s[|s| - 1] != ' '))
  }

  /** Every character kept or replaced by '_', before trimming. */
  function ReplaceForbidden(s: string): (r: string)
    ensures |r| == |s|
    ensures forall i :: 0 <= i < |s| ==> r[i] == (if FileNameChar(s[i]) then s[i] else '_')
  {
    seq(|s|, i requires 0 <= i < |s| => if FileNameChar(s[i]) then s[i] else '_')
  }

  /** `sanitize_filename`: replace forbidden characters by '_' and trim the result. */
  function SanitizeFilename(s: string): string {
    Trim(ReplaceForbidden(s))
  }

  /** In a string of file-name characters, the only whitespace is the plain space. */
  lemma OnlySpaceIsWhitespace(c: char)
    requires FileNameChar(c) && c != ' '
    ensures !IsWhitespace(c)
  {
    if IsAlphanumeric(c) {
      AlphanumericIsNotWhitespace(c);
    }
  }

  /** How many characters trimming cuts from the front of the replaced string. */
  function LeadingCut(s: string): (n: nat)
    ensures n <= |ReplaceForbidden(s)|
  {
    |ReplaceForbidden(s)| - |TrimStart(ReplaceForbidden(s))|
  }

  /**
   * The sanitised name is the replaced string with only plain spaces cut from its ends.
   */
  lemma SanitizeCutsSpaces(s: string)
    ensures var m, r, a := ReplaceForbidden(s), SanitizeFilename(s), LeadingCut(s);
      && a + |r| <= |m| && r == m[a..a + |r|]
      && (forall i :: 0 <= i < a ==> m[i] == ' ')
      && (forall i :: a + |r| <= i < |m| ==> m[i] == ' ')
  {
    var m := ReplaceForbidden(s);
    var t := TrimStart(m);
    var r := TrimEnd(t);
    var a := |m| - |t|;
    assert t == m[a..];
    assert r == t[..|r|];
    forall i | 0 <= i < a
      ensures m[i] == ' '
    {
      if m[i] != ' ' {
        OnlySpaceIsWhitespace(m[i]);
      }
    }
    forall i | a + |r| <= i < |m|
      ensures m[i] == ' '
    {
      assert m[i] == t[i - a];
      if m[i] != ' ' {
        OnlySpaceIsWhitespace(m[i]);
      }
    }
  }

  /** The sanitised name holds only allowed characters and has no space at either end. */
  lemma SanitizeShape(s: string)
    ensures IsSanitized(SanitizeFilename(s))
  {
    var m, r := ReplaceForbidden(s), SanitizeFilename(s);
    SanitizeCutsSpaces(s);
    assert forall i :: 0 <= i < |r| ==> r[i] == m[LeadingCut(s) + i];
  }

  /** A string that is already sanitised comes back unchanged. */
  lemma SanitizeFixesSanitized(s: string)
    requires IsSanitized(s)
    ensures SanitizeFilename(s) == s
  {
    assert ReplaceForbidden(s) == s;
    if s != [] {
      OnlySpaceIsWhitespace(s[0]);
      OnlySpaceIsWhitespace(s[|s| - 1]);
    }
  }

  /** Sanitising twice is sanitising once. */
  lemma SanitizeIdempotent(s: string)
    ensures SanitizeFilename(SanitizeFilename(s)) == SanitizeFilename(s)
  {
    SanitizeShape(s);
    SanitizeFixesSanitized(SanitizeFilename(s));
  }

  lemma SanitizeHelloWorld(s: string)
    requires s == "Hello World"
    ensures SanitizeFilename(s) == "Hello World"
  {
    assert IsSanitized(s);
    SanitizeFixesSanitized(s);
  }

  lemma SanitizeBookTitle(s: string)
    requires s == "Book: A Story"
    ensures SanitizeFilename(s) == "Book_ A Story"
  {
    assert !FileNameChar(':');
    assert ReplaceForbidden(s) == "Book_ A Story";
    assert IsSanitized("Book_ A Story");
    SanitizeFixesSanitized("Book_ A Story");
  }

  lemma SanitizeSlashes(s: string)
    requires s == "Test/File\\Name"
    ensures SanitizeFilename(s) == "Test_File_Name"
  {
    assert !FileNameChar('/') && !FileNameChar('\\');
    assert ReplaceForbidden(s) == "Test_File_Name";
    assert IsSanitized("Test_File_Name");
    SanitizeFixesSanitized("Test_File_Name");
  }

  const FallbackTitle: string := "epub-export"

  /**
   * `get_book_title`: the sanitised metadata title when that is not empty; otherwise the
   * sanitised file stem (even when that one is empty); without a stem, "epub-export".
   */
  function GetBookTitle(metadataTitle: Option<string>, fileStem: Option<string>): (r: string)
    ensures IsSanitized(r)
    ensures metadataTitle.Some? && SanitizeFilename(metadataTitle.value) != [] ==>
      r == SanitizeFilename(metadataTitle.value)
    ensures !(metadataTitle.Some? && SanitizeFilename(metadataTitle.value) != []) ==>
      r == (if fileStem.Some? then SanitizeFilename(fileStem.value) else FallbackTitle)
    ensures r == [] <==> (!(metadataTitle.Some? && SanitizeFilename(metadataTitle.value) != [])
      && fileStem.Some? && SanitizeFilename(fileStem.value) == [])
  {
    if metadataTitle.Some? && SanitizeFilename(metadataTitle.value) != [] then
      SanitizeShape(metadataTitle.value);
      SanitizeFilename(metadataTitle.value)
    else if fileStem.Some? then
      SanitizeShape(fileStem.value);
      SanitizeFilename(fileStem.value)
    else
      assert forall c :: c in FallbackTitle ==> FileNameChar(c);
      FallbackTitle
  }

  // ---------------------------------------------------------------------------------------
  // Reading: the chapters as one markdown text
  // ---------------------------------------------------------------------------------------

  /** A spine item: its text if it could be read, its table-of-contents title if one matches. */
  datatype Chapter = Chapter(content: Option<string>, title: Option<string>)

  const ParserErrorTag: string := "<parsererror"

  /** A chapter whose XHTML the EPUB library could not parse. */
  predicate Malformed(ch: Chapter) {
    ch.content.Some? && Contains(ch.content.value, ParserErrorTag)
  }

  /** The markdown of a chapter is blank: nothing but whitespace. */
  predicate Blank(md: string) {
    md == [] || (IsWhitespace(md[0]) && Blank(md[1..]))
  }

  lemma {:induction false} BlankAllWhitespace(md: string)
    ensures Blank(md) <==> forall i :: 0 <= i < |md| ==> IsWhitespace(md[i])
  {
    if md != [] {
      BlankAllWhitespace(md[1..]);
      assert forall i :: 1 <= i < |md| ==> md[i] == md[1..][i - 1];
    }
  }

  /** Blank is what `trim().is_empty()` tests. */
  lemma BlankIsTrimmedEmpty(md: string)
    ensures Blank(md) <==> Trim(md) == []
  {
    BlankAllWhitespace(md);
    var t := TrimStart(md);
    if t != [] {
      assert !IsWhitespace(t[0]);
      assert t[0] == TrimEnd(t)[0] || TrimEnd(t) == [];
      assert TrimEnd(t) != [];
      assert !IsWhitespace(md[|md| - |t|]);
    }
  }

  /** The message naming the malformed chapter `i` (counted from 0 in the spine). */
  function MalformedMessage(ch: Chapter, i: nat): string {
    var name := if ch.title.Some? then ch.title.value else "chapter " + NatToString(i + 1);
    "Failed to parse chapter " + name + ": malformed XHTML"
  }

  /** The heading for a titled chapter, after a blank line unless the text is still empty. */
  function Heading(text: string, title: string): string {
    (if text == [] then "" else "\n\n") + ("# " + title + "\n\n")
  }

  lemma Associative(a: string, b: string, c: string)
    ensures (a + b) + c == a + (b + c)
  {
  }

  /** The text a readable chapter appends: its heading if titled, then its markdown if not blank. */
  function Contribution(text: string, ch: Chapter, toMarkdown: string -> string): string
    requires ch.content.Some?
  {
    var md := toMarkdown(ch.content.value);
    (if ch.title.Some? then Heading(text, ch.title.value) else "") + (if Blank(md) then "" else md)
  }

  /** One chapter added to the text so far; an unreadable chapter adds nothing. */
  function AddChapter(text: string, ch: Chapter, toMarkdown: string -> string): string {
    if ch.content.None? then text else text + Contribution(text, ch, toMarkdown)
  }

  /** The text built from all the chapters, in spine order. */
  function Combined(chapters: seq<Chapter>, toMarkdown: string -> string): string {
    if chapters == [] then []
    else AddChapter(Combined(chapters[..|chapters| - 1], toMarkdown), chapters[|chapters| - 1], toMarkdown)
  }

  /** The first malformed chapter, if any. */
  function FirstMalformed(chapters: seq<Chapter>): (r: Option<nat>)
    ensures r.None? <==> forall i :: 0 <= i < |chapters| ==> !Malformed(chapters[i])
    ensures r.Some? ==> (r.value < |chapters| && Malformed(chapters[r.value])
      && forall i :: 0 <= i < r.value ==> !Malformed(chapters[i]))
  {
    if chapters == [] then None
    else if Malformed(chapters[0]) then Some(0)
    else match FirstMalformed(chapters[1..])
      case None => None
      case Some(i) => Some(i + 1)
  }

  lemma {:induction false} FirstMalformedAt(chapters: seq<Chapter>, i: nat)
    requires i < |chapters| && Malformed(chapters[i])
    requires forall j :: 0 <= j < i ==> !Malformed(chapters[j])
    ensures FirstMalformed(chapters) == Some(i)
  {
    if i > 0 {
      assert !Malformed(chapters[0]);
      assert forall j :: 0 <= j < i - 1 ==> chapters[1..][j] == chapters[j + 1];
      FirstMalformedAt(chapters[1..], i - 1);
    }
  }

  lemma CombinedStep(chapters: seq<Chapter>, toMarkdown: string -> string, i: nat)
    requires i < |chapters|
    ensures Combined(chapters[..i + 1], toMarkdown) == AddChapter(Combined(chapters[..i], toMarkdown), chapters[i], toMarkdown)
  {
    assert chapters[..i + 1][..i] == chapters[..i];
  }

  /** What reading the book yields: the error for its first malformed chapter, or the text. */
  function ParseFileText(chapters: seq<Chapter>, toMarkdown: string -> string): Result<string> {
    match FirstMalformed(chapters)
    case Some(i) => Err(ParseError.Malformed(MalformedMessage(chapters[i], i)))
    case None => Ok(Combined(chapters, toMarkdown))
  }

  /** The heading and markdown of one readable chapter appended to the text. */
  method AppendChapter(text: string, ch: Chapter, toMarkdown: string -> string) returns (result: string)
    requires ch.content.Some?
    ensures result == AddChapter(text, ch, toMarkdown)
  {
    result := text;
    var h := "";
    if ch.title.Some? {
      var sep := if result == [] then "" else "\n\n";
      if result != [] {
        result := result + "\n\n";
      }
      assert result == text + sep;
      result := result + ("# " + ch.title.value + "\n\n");
      h := Heading(text, ch.title.value);
      Associative(text, sep, "# " + ch.title.value + "\n\n");
    }
    assert result == text + h;
    var md := toMarkdown(ch.content.value);
    BlankIsTrimmedEmpty(md);
    if Trim(md) == [] {
      assert Contribution(text, ch, toMarkdown) == h + "";
      return;
    }
    result := result + md;
    Associative(text, h, md);
    assert Contribution(text, ch, toMarkdown) == h + md;
  }

  /**
   * The chapter loop of `parse_file`, returning at the first malformed chapter. On success
   * the text goes on to the markdown parser, which is modelled on its syntax tree.
   */
  method AssembleChapters(chapters: seq<Chapter>, toMarkdown: string -> string) returns (r: Result<string>)
    ensures r == ParseFileText(chapters, toMarkdown)
  {
    var text := "";
    for i := 0 to |chapters|
      invariant text == Combined(chapters[..i], toMarkdown)
      invariant forall j :: 0 <= j < i ==> !Malformed(chapters[j])
    {
      CombinedStep(chapters, toMarkdown, i);
      ghost var before := text;
      var ch := chapters[i];
      if ch.content.None? {
        continue;
      }
      if Contains(ch.content.value, ParserErrorTag) {
        FirstMalformedAt(chapters, i);
        return Err(ParseError.Malformed(MalformedMessage(ch, i)));
      }
      text := AppendChapter(text, ch, toMarkdown);
    }
    assert chapters[..|chapters|] == chapters;
    return Ok(text);
  }

  /** Reading fails exactly when some chapter is malformed, and then names the first one. */
  lemma FailFast(chapters: seq<Chapter>, toMarkdown: string -> string)
    ensures ParseFileText(chapters, toMarkdown).Err? <==> exists i :: 0 <= i < |chapters| && Malformed(chapters[i])
    ensures forall i :: (0 <= i < |chapters| && Malformed(chapters[i])
        && (forall j :: 0 <= j < i ==> !Malformed(chapters[j]))) ==>
      ParseFileText(chapters, toMarkdown) == Err(ParseError.Malformed(MalformedMessage(chapters[i], i)))
  {
    match FirstMalformed(chapters)
    case None =>
    case Some(k) =>
      forall i | 0 <= i < |chapters| && Malformed(chapters[i]) && (forall j :: 0 <= j < i ==> !Malformed(chapters[j]))
        ensures i == k
      {
      }
  }

  /** Adding chapters only appends: an earlier text is a prefix of every later one. */
  lemma {:induction false} CombinedGrows(chapters: seq<Chapter>, toMarkdown: string -> string, n: nat)
    requires n <= |chapters|
    ensures Combined(chapters[..n], toMarkdown) <= Combined(chapters, toMarkdown)
    decreases |chapters| - n
  {
    if n < |chapters| {
      var all := chapters[..|chapters| - 1];
      assert all[..n] == chapters[..n];
      CombinedGrows(all, toMarkdown, n);
    } else {
      assert chapters[..n] == chapters;
    }
  }

  /**
   * What a readable chapter adds follows the text of the chapters before it: its heading
   * whenever it has a title (even when its markdown is blank), then its markdown when that
   * is not blank.
   */
  lemma ChapterContribution(chapters: seq<Chapter>, toMarkdown: string -> string, k: nat)
    requires k < |chapters| && chapters[k].content.Some?
    ensures var before := Combined(chapters[..k], toMarkdown);
      before + Contribution(before, chapters[k], toMarkdown) <= Combined(chapters, toMarkdown)
  {
    var before := Combined(chapters[..k], toMarkdown);
    assert chapters[..k + 1][..k] == chapters[..k];
    assert Combined(chapters[..k + 1], toMarkdown) == AddChapter(before, chapters[k], toMarkdown);
    CombinedGrows(chapters, toMarkdown, k + 1);
  }

  /** Without readable chapters the text is empty. */
  lemma {:induction false} NoContentNoText(chapters: seq<Chapter>, toMarkdown: string -> string)
    requires forall i :: 0 <= i < |chapters| ==> chapters[i].content.None?
    ensures Combined(chapters, toMarkdown) == []
  {
    if chapters != [] {
      NoContentNoText(chapters[..|chapters| - 1], toMarkdown);
    }
  }

  /** `parse_str`: an EPUB cannot be read from a string. */
  function ParseStr(content: string): (r: Result<ParsedDocument>)
    ensures r.Err? && r.error.Malformed?
  {
    Err(ParseError.Malformed("EPUB parser does not support parsing from string"))
  }

  // ---------------------------------------------------------------------------------------
  // Export: one numbered file per non-blank chapter
  // ---------------------------------------------------------------------------------------

  /** A written chapter file: its number, its name and its markdown. */
  datatype ChapterFile = ChapterFile(number: nat, name: string, markdown: string)

  /** A chapter that gets a file: readable, with markdown that is not blank. */
  predicate Exportable(ch: Chapter, toMarkdown: string -> string) {
    ch.content.Some? && !Blank(toMarkdown(ch.content.value))
  }

  /** The title part of a file name: the sanitised title if not empty, else "chapter-NN". */
  function FileTitle(number: nat, title: Option<string>): (r: string)
    ensures r != []
  {
    if title.Some? && SanitizeFilename(title.value) != [] then SanitizeFilename(title.value)
    else "chapter-" + Pad2(number)
  }

  /** "NN-title.md" */
  function FileName(number: nat, title: Option<string>): string {
    Pad2(number) + "-" + FileTitle(number, title) + ".md"
  }

  function FileFor(number: nat, ch: Chapter, toMarkdown: string -> string): ChapterFile
    requires ch.content.Some?
  {
    ChapterFile(number, FileName(number, ch.title), toMarkdown(ch.content.value))
  }

  /** The files for the chapters so far, numbered in the order they are written. */
  function Exported(chapters: seq<Chapter>, toMarkdown: string -> string): seq<ChapterFile> {
    if chapters == [] then []
    else
      var earlier := Exported(chapters[..|chapters| - 1], toMarkdown);
      var ch := chapters[|chapters| - 1];
      if Exportable(ch, toMarkdown) then earlier + [FileFor(|earlier| + 1, ch, toMarkdown)] else earlier
  }

  /** The chapters that get a file, in spine order. */
  function ExportableChapters(chapters: seq<Chapter>, toMarkdown: string -> string): (r: seq<Chapter>)
    ensures forall k :: 0 <= k < |r| ==> Exportable(r[k], toMarkdown)
  {
    if chapters == [] then []
    else
      var earlier := ExportableChapters(chapters[..|chapters| - 1], toMarkdown);
      var ch := chapters[|chapters| - 1];
      if Exportable(ch, toMarkdown) then earlier + [ch] else earlier
  }

  /**
   * The loop of `export_chapters`: the count goes up for each chapter with non-blank
   * markdown, and that chapter is written under the new count. Creating the directory and
   * writing the files are left to the caller; the result is the files to write.
   */
  method ExportChapters(chapters: seq<Chapter>, toMarkdown: string -> string)
    returns (files: seq<ChapterFile>, count: nat)
    ensures files == Exported(chapters, toMarkdown)
    ensures count == |files|
  {
    files := [];
    count := 0;
    for i := 0 to |chapters|
      invariant files == Exported(chapters[..i], toMarkdown)
      invariant count == |files|
    {
      assert chapters[..i + 1][..i] == chapters[..i];
      var ch := chapters[i];
      if ch.content.None? {
        continue;
      }
      var md := toMarkdown(ch.content.value);
      BlankIsTrimmedEmpty(md);
      if Trim(md) == [] {
        continue;
      }
      count := count + 1;
      var title := if ch.title.Some? && SanitizeFilename(ch.title.value) != [] then SanitizeFilename(ch.title.value)
        else "chapter-" + Pad2(count);
      files := files + [ChapterFile(count, Pad2(count) + "-" + title + ".md", md)];
    }
    assert chapters[..|chapters|] == chapters;
  }

  /**
   * The k-th file is numbered k + 1 and holds the k-th chapter with non-blank markdown:
   * only those chapters are numbered, consecutively from 01.
   */
  lemma {:induction false} ExportNumbering(chapters: seq<Chapter>, toMarkdown: string -> string)
    ensures |Exported(chapters, toMarkdown)| == |ExportableChapters(chapters, toMarkdown)|
    ensures forall k :: 0 <= k < |Exported(chapters, toMarkdown)| ==>
      Exported(chapters, toMarkdown)[k] == FileFor(k + 1, ExportableChapters(chapters, toMarkdown)[k], toMarkdown)
  {
    if chapters != [] {
      ExportNumbering(chapters[..|chapters| - 1], toMarkdown);
    }
  }

  /** Every exported file holds markdown that is not blank. */
  lemma ExportedNotBlank(chapters: seq<Chapter>, toMarkdown: string -> string)
    ensures forall k :: 0 <= k < |Exported(chapters, toMarkdown)| ==> !Blank(Exported(chapters, toMarkdown)[k].markdown)
  {
    ExportNumbering(chapters, toMarkdown);
  }

  lemma {:induction false} NatToStringLeadingDigit(n: nat)
    requires n >= 1
    ensures NatToString(n)[0] != '0'
  {
    if n >= 10 {
      NatToStringLeadingDigit(n / 10);
    }
  }

  lemma {:induction false} NatToStringInjective(a: nat, b: nat)
    requires NatToString(a) == NatToString(b)
    ensures a == b
  {
    if a >= 10 && b >= 10 {
      var sa, sb := NatToString(a / 10), NatToString(b / 10);
      assert sa == NatToString(a)[..|sa|];
      assert |sa| == |sb|;
      assert sb == NatToString(b)[..|sb|];
      NatToStringInjective(a / 10, b / 10);
      assert DigitChar(a % 10) == DigitChar(b % 10);
    }
  }

  lemma Pad2Injective(a: nat, b: nat)
    requires Pad2(a) == Pad2(b)
    ensures a == b
  {
    if a < 10 && b >= 10 {
      NatToStringLeadingDigit(b);
    } else if b < 10 && a >= 10 {
      NatToStringLeadingDigit(a);
    } else if a >= 10 && b >= 10 {
      NatToStringInjective(a, b);
    }
  }

  /** Strings that differ where both are defined differ. */
  lemma DifferAt(x: string, y: string, i: nat)
    requires i < |x| && i < |y| && x[i] != y[i]
    ensures x != y
  {
  }

  /** A file name starts with its number, and a '-' right after it. */
  lemma FileNameStart(number: nat, title: Option<string>)
    ensures var name, p := FileName(number, title), Pad2(number);
      |p| < |name| && name[..|p|] == p && name[|p|] == '-'
  {
  }

  /** Different numbers give different file names, so no export overwrites another. */
  lemma FileNamesDistinct(a: nat, b: nat, ta: Option<string>, tb: Option<string>)
    requires a != b
    ensures FileName(a, ta) != FileName(b, tb)
  {
    var pa, pb := Pad2(a), Pad2(b);
    var na, nb := FileName(a, ta), FileName(b, tb);
    FileNameStart(a, ta);
    FileNameStart(b, tb);
    if |pa| < |pb| {
      assert nb[|pa|] == nb[..|pb|][|pa|] == pb[|pa|];
      DifferAt(na, nb, |pa|);
    } else if |pb| < |pa| {
      assert na[|pb|] == na[..|pa|][|pb|] == pa[|pb|];
      DifferAt(na, nb, |pb|);
    } else if pa == pb {
      Pad2Injective(a, b);
    } else {
      assert na[..|pa|] != nb[..|pb|];
    }
  }

  /** The exported files all have different names. */
  lemma ExportedNamesDistinct(chapters: seq<Chapter>, toMarkdown: string -> string, j: nat, k: nat)
    requires j < k < |Exported(chapters, toMarkdown)|
    ensures Exported(chapters, toMarkdown)[j].name != Exported(chapters, toMarkdown)[k].name
  {
    var files, cs := Exported(chapters, toMarkdown), ExportableChapters(chapters, toMarkdown);
    assert files[j].name == FileName(j + 1, cs[j].title) && files[k].name == FileName(k + 1, cs[k].title) by {
      ExportNumbering(chapters, toMarkdown);
    }
    FileNamesDistinct(j + 1, k + 1, cs[j].title, cs[k].title);
  }

  /** An untitled chapter is written as "01-chapter-01.md". */
  lemma ExportUntitledExample(toMarkdown: string -> string, content: string)
    requires !Blank(toMarkdown(content))
    ensures Exported([Chapter(Some(content), None)], toMarkdown)
      == [ChapterFile(1, "01-chapter-01.md", toMarkdown(content))]
  {
    assert [Chapter(Some(content), None)][..0] == [];
    assert Pad2(1) == "01";
    assert FileName(1, None) == "01-chapter-01.md";
  }

  /** An unreadable chapter takes no number: the next one is still 01. */
  lemma ExportSkipExample(toMarkdown: string -> string, content: string, title: string)
    requires !Blank(toMarkdown(content)) && title == "Intro"
    ensures Exported([Chapter(None, None), Chapter(Some(content), Some(title))], toMarkdown)
      == [ChapterFile(1, "01-Intro.md", toMarkdown(content))]
  {
    ExportAfterUnreadable(toMarkdown, Chapter(Some(content), Some(title)));
    IntroFileName(title);
  }

  lemma ExportAfterUnreadable(toMarkdown: string -> string, ch: Chapter)
    requires Exportable(ch, toMarkdown)
    ensures Exported([Chapter(None, None), ch], toMarkdown) == [FileFor(1, ch, toMarkdown)]
  {
    var one := [Chapter(None, None)];
    assert one[..0] == [];
    assert Exported(one, toMarkdown) == [];
    assert [Chapter(None, None), ch][..1] == one;
  }

  lemma IntroFileName(title: string)
    requires title == "Intro"
    ensures FileName(1, Some(title)) == "01-Intro.md"
  {
    SanitizeIntro(title);
    assert Pad2(1) == "01";
  }

  lemma SanitizeIntro(title: string)
    requires title == "Intro"
    ensures SanitizeFilename(title) == "Intro"
  {
    assert IsSanitized(title);
    SanitizeFixesSanitized(title);
  }
}
