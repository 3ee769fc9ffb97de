/**
 * Word segmentation and callout detection of the markdown tokenizer.
 *
 * A text run is split on whitespace, each piece on em and en dashes, and each resulting piece
 * that contains a hyphen is split after its hyphens when one of its hyphen-separated portions
 * is longer than three characters. Empty pieces are dropped.
 */
module MarkdownWords {
  import opened Chars
  import opened Types

  const EmDash: char := '\U{2014}'
  const EnDash: char := '\U{2013}'
  const Dashes: set<char> := {EmDash, EnDash}
  const Hyphen: set<char> := {'-'}

  /** Every character that separates words: whitespace and the two dashes. */
  const Separators: set<char> := WhitespaceChars + Dashes

  predicate Avoids(w: string, chars: set<char>) {
    forall i :: 0 <= i < |w| ==> w[i] !in chars
  }

  predicate AllAvoid(ws: seq<string>, chars: set<char>) {
    forall k :: 0 <= k < |ws| ==> Avoids(ws[k], chars)
  }

  // ---------------------------------------------------------------------------------------
  // Splitting on a set of separator characters (`str::split` with a char pattern)
  // ---------------------------------------------------------------------------------------

  /** The portions between separators; `n` separators give `n + 1` portions, some maybe empty. */
  function Split(s: string, seps: set<char>): (r: seq<string>)
    ensures |r| >= 1
    decreases |s|
  {
    if s == [] then [[]]
    else
      var rest := Split(s[1..], seps);
      if s[0] in seps then [[]] + rest else [[s[0]] + rest[0]] + rest[1..]
  }

  function Flatten(ws: seq<string>): string {
    if ws == [] then [] else ws[0] + Flatten(ws[1..])
  }

  /** `s` with every character of `chars` deleted. */
  function RemoveChars(s: string, chars: set<char>): (r: string)
    ensures Avoids(r, chars)
  {
    if s == [] then []
    else (if s[0] in chars then [] else [s[0]]) + RemoveChars(s[1..], chars)
  }

  /** The portions glued back together with `c` between neighbours. */
  function JoinWith(parts: seq<string>, c: char): string {
    if parts == [] then []
    else if |parts| == 1 then parts[0]
    else parts[0] + [c] + JoinWith(parts[1..], c)
  }

  function KeepNonEmpty(ws: seq<string>): (r: seq<string>)
    ensures forall k :: 0 <= k < |r| ==> r[k] != []
  {
    if ws == [] then []
    else (if ws[0] == [] then [] else [ws[0]]) + KeepNonEmpty(ws[1..])
  }

  lemma {:induction false} FlattenAppend(a: seq<string>, b: seq<string>)
    ensures Flatten(a + b) == Flatten(a) + Flatten(b)
  {
    if a != [] {
      assert (a + b)[0] == a[0] && (a + b)[1..] == a[1..] + b;
      FlattenAppend(a[1..], b);
    } else {
      assert a + b == b;
    }
  }

  lemma {:induction false} FlattenKeepNonEmpty(ws: seq<string>)
    ensures Flatten(KeepNonEmpty(ws)) == Flatten(ws)
  {
    if ws != [] {
      FlattenKeepNonEmpty(ws[1..]);
      FlattenAppend(if ws[0] == [] then [] else [ws[0]], KeepNonEmpty(ws[1..]));
    }
  }

  lemma {:induction false} KeepNonEmptyAvoids(ws: seq<string>, chars: set<char>)
    requires AllAvoid(ws, chars)
    ensures AllAvoid(KeepNonEmpty(ws), chars)
  {
    if ws != [] {
      KeepNonEmptyAvoids(ws[1..], chars);
    }
  }

  lemma {:induction false} RemoveCharsAppend(a: string, b: string, chars: set<char>)
    ensures RemoveChars(a + b, chars) == RemoveChars(a, chars) + RemoveChars(b, chars)
  {
    if a != [] {
      assert (a + b)[0] == a[0] && (a + b)[1..] == a[1..] + b;
      RemoveCharsAppend(a[1..], b, chars);
    } else {
      assert a + b == b;
    }
  }

  lemma {:induction false} RemoveCharsTwice(s: string, x: set<char>, y: set<char>)
    ensures RemoveChars(RemoveChars(s, x), y) == RemoveChars(s, x + y)
  {
    if s != [] {
      RemoveCharsTwice(s[1..], x, y);
      RemoveCharsAppend(if s[0] in x then [] else [s[0]], RemoveChars(s[1..], x), y);
    }
  }

  lemma {:induction false} RemoveCharsOfAvoiding(s: string, chars: set<char>)
    requires Avoids(s, chars)
    ensures RemoveChars(s, chars) == s
  {
    if s != [] {
      RemoveCharsOfAvoiding(s[1..], chars);
    }
  }

  /** No portion contains a separator, and portions keep whatever `s` avoids. */
  lemma {:induction false} SplitPortionsAvoid(s: string, seps: set<char>, other: set<char>)
    requires Avoids(s, other)
    ensures AllAvoid(Split(s, seps), seps)
    ensures AllAvoid(Split(s, seps), other)
    decreases |s|
  {
    if s != [] {
      SplitPortionsAvoid(s[1..], seps, other);
      var rest := Split(s[1..], seps);
      if s[0] !in seps {
        var head := [s[0]] + rest[0];
        assert Avoids(head, seps) && Avoids(head, other) by {
          forall i | 0 <= i < |head| ensures head[i] !in seps && head[i] !in other {
            if i > 0 { assert head[i] == rest[0][i - 1]; }
          }
        }
      }
    }
  }

  /** Concatenating the portions gives back `s` without its separators. */
  lemma {:induction false} SplitFlatten(s: string, seps: set<char>)
    ensures Flatten(Split(s, seps)) == RemoveChars(s, seps)
    decreases |s|
  {
    if s != [] {
      SplitFlatten(s[1..], seps);
      var rest := Split(s[1..], seps);
      if s[0] !in seps {
        var r := Split(s, seps);
        assert r[1..] == rest[1..];
        assert rest == [rest[0]] + rest[1..];
        assert Flatten(rest) == rest[0] + Flatten(rest[1..]);
      } else {
        assert Split(s, seps)[1..] == rest;
      }
    }
  }

  /** Joining the portions of a single-separator split with that separator gives back `s`. */
  lemma {:induction false} SplitJoin(s: string, c: char)
    ensures JoinWith(Split(s, {c}), c) == s
    decreases |s|
  {
    if s != [] {
      SplitJoin(s[1..], c);
      var rest := Split(s[1..], {c});
      var r := Split(s, {c});
      if s[0] == c {
        assert r == [[]] + rest && r[1..] == rest;
        assert s == [c] + s[1..];
      } else {
        assert r[1..] == rest[1..];
        if |rest| == 1 {
          assert s == [s[0]] + rest[0];
        } else {
          assert JoinWith(rest, c) == rest[0] + [c] + JoinWith(rest[1..], c);
          assert s == [s[0]] + s[1..];
        }
      }
    }
  }

  /** A string without separators is a single portion. */
  lemma {:induction false} SplitOfAvoiding(s: string, seps: set<char>)
    requires Avoids(s, seps)
    ensures Split(s, seps) == [s]
    decreases |s|
  {
    if s != [] {
      SplitOfAvoiding(s[1..], seps);
      assert [s[0]] + s[1..] == s;
    }
  }

  /** A string with a separator splits into at least two portions. */
  lemma {:induction false} SplitOfSeparated(s: string, seps: set<char>)
    requires !Avoids(s, seps)
    ensures |Split(s, seps)| >= 2
    decreases |s|
  {
    if s[0] !in seps {
      SplitOfSeparated(s[1..], seps);
    }
  }

  /** Splitting `a + [c] + b`, with `c` a separator and `a` free of them. */
  lemma {:induction false} SplitAtFirst(a: string, c: char, b: string, seps: set<char>)
    requires Avoids(a, seps) && c in seps
    ensures Split(a + [c] + b, seps) == [a] + Split(b, seps)
    decreases |a|
  {
    var s := a + [c] + b;
    if a == [] {
      assert s[1..] == b;
    } else {
      assert s[1..] == a[1..] + [c] + b;
      SplitAtFirst(a[1..], c, b, seps);
      assert [a[0]] + a[1..] == a;
    }
  }

  // ---------------------------------------------------------------------------------------
  // Hyphenated words (`split_hyphenated_word`)
  // ---------------------------------------------------------------------------------------

  predicate HasLongPortion(portions: seq<string>) {
    exists k :: 0 <= k < |portions| && |portions[k]| > 3
  }

  /** Every portion but the last keeps a trailing hyphen. */
  function Hyphenate(portions: seq<string>): (r: seq<string>)
    ensures |r| == |portions|
  {
    seq(|portions|, k requires 0 <= k < |portions| =>
      if k == |portions| - 1 then portions[k] else portions[k] + ['-'])
  }

  /** What `split_hyphenated_word` returns for `word`. */
  function HyphenPieces(word: string): seq<string> {
    var portions := Split(word, Hyphen);
    if |portions| < 2 || !HasLongPortion(portions) then [word] else Hyphenate(portions)
  }

  /** `split_hyphenated_word`: pushes the portions one by one, hyphen on all but the last. */
  method SplitHyphenatedWord(word: string) returns (result: seq<string>)
    ensures result == HyphenPieces(word)
    ensures Flatten(result) == word
  {
    HyphenRoundTrip(word);
    var portions := Split(word, Hyphen);
    if |portions| < 2 {
      return [word];
    }
    if !HasLongPortion(portions) {
      return [word];
    }
    result := [];
    var i := 0;
    while i < |portions|
      invariant 0 <= i <= |portions|
      invariant result == Hyphenate(portions)[..i]
    {
      var isLast := i == |portions| - 1;
      if isLast {
        result := result + [portions[i]];
      } else {
        result := result + [portions[i] + ['-']];
      }
      i := i + 1;
    }
    assert Hyphenate(portions)[..i] == Hyphenate(portions);
  }

  lemma {:induction false} FlattenHyphenate(portions: seq<string>)
    requires |portions| >= 1
    ensures Flatten(Hyphenate(portions)) == JoinWith(portions, '-')
  {
    var h := Hyphenate(portions);
    if |portions| == 1 {
      assert h == [portions[0]];
    } else {
      FlattenHyphenate(portions[1..]);
      assert h[1..] == Hyphenate(portions[1..]);
      assert h[0] == portions[0] + ['-'];
    }
  }

  /** Round trip: the pieces concatenate to the word they came from. */
  lemma HyphenRoundTrip(word: string)
    ensures Flatten(HyphenPieces(word)) == word
  {
    var portions := Split(word, Hyphen);
    if |portions| >= 2 && HasLongPortion(portions) {
      FlattenHyphenate(portions);
      SplitJoin(word, '-');
    }
  }

  /** A hyphenated word stays whole exactly when none of its portions is longer than three. */
  lemma HyphenWholeIff(word: string)
    requires '-' in word
    ensures HyphenPieces(word) == [word] <==> !HasLongPortion(Split(word, Hyphen))
    ensures HasLongPortion(Split(word, Hyphen)) ==>
      HyphenPieces(word) == Hyphenate(Split(word, Hyphen))
  {
    var i :| 0 <= i < |word| && word[i] == '-';
    assert !Avoids(word, Hyphen);
    SplitOfSeparated(word, Hyphen);
  }

  /** Every piece avoids what the word avoids, as long as that excludes the hyphen. */
  lemma HyphenPiecesAvoid(word: string, chars: set<char>)
    requires Avoids(word, chars) && '-' !in chars
    ensures AllAvoid(HyphenPieces(word), chars)
  {
    var portions := Split(word, Hyphen);
    SplitPortionsAvoid(word, Hyphen, chars);
    if |portions| >= 2 && HasLongPortion(portions) {
      var h := Hyphenate(portions);
      forall k | 0 <= k < |h| ensures Avoids(h[k], chars) {
        assert Avoids(portions[k], chars);
      }
    }
  }

  /** A word whose first portion is longer than three splits into its hyphenated portions. */
  lemma HyphenPiecesLongFirst(word: string, portions: seq<string>)
    requires Split(word, Hyphen) == portions
    requires |portions| >= 2 && |portions[0]| > 3
    ensures HyphenPieces(word) == Hyphenate(portions)
  {
  }

  lemma HyphenateTwo(a: string, b: string)
    ensures Hyphenate([a, b]) == [a + ['-'], b]
  {
  }

  lemma HyphenateThree(a: string, b: string, c: string)
    ensures Hyphenate([a, b, c]) == [a + ['-'], b + ['-'], c]
  {
  }

  /** Two separator-free portions joined by one separator split back apart. */
  lemma SplitTwo(a: string, b: string, c: char, seps: set<char>)
    requires Avoids(a, seps) && Avoids(b, seps) && c in seps
    ensures Split(a + [c] + b, seps) == [a, b]
  {
    SplitOfAvoiding(b, seps);
    SplitAtFirst(a, c, b, seps);
  }

  /** "well-known" has a portion longer than three, so it splits after its hyphen. */
  lemma HyphenExampleSplit(word: string)
    requires word == "well-known"
    ensures HyphenPieces(word) == ["well-", "known"]
  {
    var well, known := "well", "known";
    assert word == well + ['-'] + known;
    SplitTwo(well, known, '-', Hyphen);
    HyphenPiecesLongFirst(word, [well, known]);
    HyphenateTwo(well, known);
    assert well + ['-'] == "well-";
  }

  /** "co-op" has only short portions and stays whole. */
  lemma HyphenExampleWhole(word: string)
    requires word == "co-op"
    ensures HyphenPieces(word) == ["co-op"]
  {
    var co, op := "co", "op";
    assert word == co + ['-'] + op;
    SplitTwo(co, op, '-', Hyphen);
  }

  lemma SplitMotherInLaw(word: string)
    requires word == "mother-in-law"
    ensures Split(word, Hyphen) == ["mother", "in", "law"]
  {
    var mother, inLaw := "mother", "in-law";
    SplitTwo("in", "law", '-', Hyphen);
    assert inLaw == "in" + ['-'] + "law";
    assert word == mother + ['-'] + inLaw;
    SplitAtFirst(mother, '-', inLaw, Hyphen);
  }

  /** Every hyphen of "mother-in-law" becomes a break, short middle portion included. */
  lemma HyphenExampleThree(word: string)
    requires word == "mother-in-law"
    ensures HyphenPieces(word) == ["mother-", "in-", "law"]
  {
    var mother, inn, law := "mother", "in", "law";
    SplitMotherInLaw(word);
    HyphenPiecesLongFirst(word, [mother, inn, law]);
    HyphenateThree(mother, inn, law);
    assert mother + ['-'] == "mother-";
    assert inn + ['-'] == "in-";
  }

  // ---------------------------------------------------------------------------------------
  // Text runs (`split_into_words`)
  // ---------------------------------------------------------------------------------------

  /** A dash-free piece: hyphen-split when it holds a hyphen, otherwise kept as is. */
  function PieceWords(piece: string): seq<string> {
    if '-' in piece then HyphenPieces(piece) else [piece]
  }

  function PiecesWords(pieces: seq<string>): seq<string> {
    if pieces == [] then [] else PieceWords(pieces[0]) + PiecesWords(pieces[1..])
  }

  /** Whitespace-free parts, each split on dashes and then on hyphens. */
  function PartsWords(parts: seq<string>): seq<string> {
    if parts == [] then [] else PiecesWords(Split(parts[0], Dashes)) + PartsWords(parts[1..])
  }

  /** `split_whitespace`: the non-empty runs between whitespace characters. */
  function SplitWhitespace(text: string): seq<string> {
    KeepNonEmpty(Split(text, WhitespaceChars))
  }

  /** `split_into_words` */
  function SplitIntoWords(text: string): seq<string> {
    KeepNonEmpty(PartsWords(SplitWhitespace(text)))
  }

  /** The words are non-empty and free of separators, and concatenate to the text without them. */
  lemma SplitIntoWordsShape(text: string)
    ensures forall k :: 0 <= k < |SplitIntoWords(text)| ==> SplitIntoWords(text)[k] != []
    ensures AllAvoid(SplitIntoWords(text), Separators)
    ensures Flatten(SplitIntoWords(text)) == RemoveChars(text, Separators)
  {
    WordsAvoidSeparators(text);
    WordsFlatten(text);
  }

  /** Words without hyphens and dashes pass the dash and hyphen stages unchanged. */
  lemma {:induction false} PartsWordsPlain(parts: seq<string>)
    requires forall k :: 0 <= k < |parts| ==> Avoids(parts[k], Dashes) && '-' !in parts[k]
    ensures PartsWords(parts) == parts
  {
    if parts != [] {
      PartsWordsPlain(parts[1..]);
      SplitOfAvoiding(parts[0], Dashes);
      assert PiecesWords([parts[0]]) == [parts[0]] + PiecesWords([]);
    }
  }

  lemma {:induction false} KeepNonEmptyOfNonEmpty(ws: seq<string>)
    requires forall k :: 0 <= k < |ws| ==> ws[k] != []
    ensures KeepNonEmpty(ws) == ws
  {
    if ws != [] {
      KeepNonEmptyOfNonEmpty(ws[1..]);
    }
  }

  /** An em dash separates two words. */
  lemma DashExampleParts(hello: string, world: string)
    requires hello == "Hello" && world == "world"
    ensures PartsWords([hello + [EmDash] + world]) == [hello, world]
  {
    SplitOfAvoiding(world, Dashes);
    SplitAtFirst(hello, EmDash, world, Dashes);
    PartsWordsPlain([world]);
    assert PiecesWords([hello, world]) == [hello] + PiecesWords([world]);
  }

  /** The words of a text are its whitespace-separated parts, split on dashes and hyphens. */
  lemma SplitIntoWordsOf(text: string, parts: seq<string>)
    requires SplitWhitespace(text) == parts
    ensures SplitIntoWords(text) == KeepNonEmpty(PartsWords(parts))
  {
  }

  lemma DashExampleSplit(text: string, hello: string, world: string)
    requires text == "Hello\U{2014}world" && hello == "Hello" && world == "world"
    ensures text == hello + [EmDash] + world
    ensures SplitWhitespace(text) == [text]
  {
    assert text == hello + [EmDash] + world;
    assert Avoids(text, WhitespaceChars);
    SplitOfAvoiding(text, WhitespaceChars);
    KeepNonEmptyOfNonEmpty([text]);
  }

  lemma SplitIntoWordsDashExample(text: string, hello: string, world: string)
    requires text == "Hello\U{2014}world" && hello == "Hello" && world == "world"
    ensures SplitIntoWords(text) == [hello, world]
  {
    DashExampleSplit(text, hello, world);
    SplitIntoWordsOf(text, [text]);
    DashExampleParts(hello, world);
    KeepNonEmptyOfNonEmpty([hello, world]);
  }

  /** Runs of whitespace, newlines included, separate words and leave no empty word. */
  lemma WhitespaceExampleTail(world: string, test: string)
    requires world == "world" && test == "test"
    ensures Split(world + ['\n'] + test, WhitespaceChars) == [world, test]
  {
    SplitOfAvoiding(test, WhitespaceChars);
    SplitAtFirst(world, '\n', test, WhitespaceChars);
  }

  /** `n` leading spaces yield `n` empty portions in front of the rest. */
  lemma {:induction false} LeadingSeparators(n: nat, rest: string, seps: set<char>)
    requires ' ' in seps
    ensures Split(Repeat(' ', n) + rest, seps) == seq(n, _ => []) + Split(rest, seps)
  {
    if n > 0 {
      LeadingSeparators(n - 1, rest, seps);
      var empty: string := [];
      assert Repeat(' ', n) + rest == empty + [' '] + (Repeat(' ', n - 1) + rest);
      SplitAtFirst(empty, ' ', Repeat(' ', n - 1) + rest, seps);
      assert seq(n, _ => []) == [empty] + seq(n - 1, _ => []);
    } else {
      assert Repeat(' ', n) + rest == rest;
    }
  }

  lemma WhitespaceExampleParts(hello: string, world: string, test: string)
    requires hello == "Hello" && world == "world" && test == "test"
    ensures Split(hello + [' ', ' ', ' '] + world + ['\n'] + test, WhitespaceChars)
      == [hello, [], [], world, test]
  {
    var r := world + ['\n'] + test;
    WhitespaceExampleTail(world, test);
    LeadingSeparators(2, r, WhitespaceChars);
    assert hello + [' ', ' ', ' '] + world + ['\n'] + test == hello + [' '] + (Repeat(' ', 2) + r);
    SplitAtFirst(hello, ' ', Repeat(' ', 2) + r, WhitespaceChars);
  }

  /** Empty portions between runs of whitespace are dropped. */
  lemma WhitespaceExampleWords(a: string, b: string, c: string)
    requires a != [] && b != [] && c != []
    ensures KeepNonEmpty([a, [], [], b, c]) == [a, b, c]
  {
    var parts: seq<string> := [a, [], [], b, c];
    assert KeepNonEmpty(parts) == [a] + KeepNonEmpty(parts[1..]);
    assert KeepNonEmpty(parts[1..]) == KeepNonEmpty(parts[2..]);
    assert KeepNonEmpty(parts[2..]) == KeepNonEmpty(parts[3..]);
    assert parts[3..] == [b, c];
    KeepNonEmptyOfNonEmpty([b, c]);
  }

  lemma WhitespaceExampleSplit(text: string, hello: string, world: string, test: string)
    requires text == "Hello   world\ntest" && hello == "Hello" && world == "world" && test == "test"
    ensures SplitWhitespace(text) == [hello, world, test]
  {
    assert text == hello + [' ', ' ', ' '] + world + ['\n'] + test;
    WhitespaceExampleParts(hello, world, test);
    WhitespaceExampleWords(hello, world, test);
  }

  lemma SplitIntoWordsWhitespaceExample(text: string, hello: string, world: string, test: string)
    requires text == "Hello   world\ntest" && hello == "Hello" && world == "world" && test == "test"
    ensures SplitIntoWords(text) == [hello, world, test]
  {
    var words := [hello, world, test];
    WhitespaceExampleSplit(text, hello, world, test);
    SplitIntoWordsOf(text, words);
    assert PartsWords(words) == words by {
      PartsWordsPlain(words);
    }
    KeepNonEmptyOfNonEmpty(words);
  }

  lemma {:induction false} PieceWordsFlatten(pieces: seq<string>)
    ensures Flatten(PiecesWords(pieces)) == Flatten(pieces)
  {
    if pieces != [] {
      PieceWordsFlatten(pieces[1..]);
      FlattenAppend(PieceWords(pieces[0]), PiecesWords(pieces[1..]));
      HyphenRoundTrip(pieces[0]);
      assert Flatten(PieceWords(pieces[0])) == pieces[0] by {
        if '-' !in pieces[0] {
          assert Flatten([pieces[0]]) == pieces[0] + Flatten([]);
        }
      }
    }
  }

  lemma {:induction false} PartsWordsFlatten(parts: seq<string>)
    ensures Flatten(PartsWords(parts)) == RemoveChars(Flatten(parts), Dashes)
  {
    if parts != [] {
      PartsWordsFlatten(parts[1..]);
      var pieces := Split(parts[0], Dashes);
      FlattenAppend(PiecesWords(pieces), PartsWords(parts[1..]));
      PieceWordsFlatten(pieces);
      SplitFlatten(parts[0], Dashes);
      RemoveCharsAppend(parts[0], Flatten(parts[1..]), Dashes);
    }
  }

  lemma WordsFlatten(text: string)
    ensures Flatten(KeepNonEmpty(PartsWords(SplitWhitespace(text)))) == RemoveChars(text, Separators)
  {
    var parts := Split(text, WhitespaceChars);
    FlattenKeepNonEmpty(PartsWords(SplitWhitespace(text)));
    PartsWordsFlatten(SplitWhitespace(text));
    FlattenKeepNonEmpty(parts);
    SplitFlatten(text, WhitespaceChars);
    RemoveCharsTwice(text, WhitespaceChars, Dashes);
  }

  lemma {:induction false} PiecesWordsAvoid(pieces: seq<string>, chars: set<char>)
    requires AllAvoid(pieces, chars) && '-' !in chars
    ensures AllAvoid(PiecesWords(pieces), chars)
  {
    if pieces != [] {
      PiecesWordsAvoid(pieces[1..], chars);
      assert Avoids(pieces[0], chars);
      if '-' in pieces[0] {
        HyphenPiecesAvoid(pieces[0], chars);
      }
      var a, b := PieceWords(pieces[0]), PiecesWords(pieces[1..]);
      assert forall k :: 0 <= k < |a + b| ==> (a + b)[k] == if k < |a| then a[k] else b[k - |a|];
    }
  }

  lemma {:induction false} PartsWordsAvoid(parts: seq<string>)
    requires AllAvoid(parts, WhitespaceChars)
    ensures AllAvoid(PartsWords(parts), Separators)
  {
    if parts != [] {
      PartsWordsAvoid(parts[1..]);
      var pieces := Split(parts[0], Dashes);
      SplitPortionsAvoid(parts[0], Dashes, WhitespaceChars);
      assert AllAvoid(pieces, Separators) by {
        forall k | 0 <= k < |pieces| ensures Avoids(pieces[k], Separators) {
          assert Avoids(pieces[k], Dashes) && Avoids(pieces[k], WhitespaceChars);
        }
      }
      assert '-' !in Separators;
      PiecesWordsAvoid(pieces, Separators);
      var a, b := PiecesWords(pieces), PartsWords(parts[1..]);
      assert forall k :: 0 <= k < |a + b| ==> (a + b)[k] == if k < |a| then a[k] else b[k - |a|];
    }
  }

  lemma WordsAvoidSeparators(text: string)
    ensures AllAvoid(KeepNonEmpty(PartsWords(SplitWhitespace(text))), Separators)
  {
    SplitPortionsAvoid(text, WhitespaceChars, {});
    KeepNonEmptyAvoids(Split(text, WhitespaceChars), WhitespaceChars);
    PartsWordsAvoid(SplitWhitespace(text));
    KeepNonEmptyAvoids(PartsWords(SplitWhitespace(text)), Separators);
  }

  // ---------------------------------------------------------------------------------------
  // Callouts (`detect_callout_type`)
  // ---------------------------------------------------------------------------------------

  /** `str::find` for a character: the first index holding `c`. */
  function FindChar(s: string, c: char): (r: Option<nat>)
    ensures r.None? <==> c !in s
    ensures r.Some? ==> r.value < |s| && s[r.value] == c && c !in s[..r.value]
  {
    if s == [] then None
    else if s[0] == c then Some(0)
    else match FindChar(s[1..], c)
      case None => None
      case Some(i) => assert s[..i + 1] == [s[0]] + s[1..][..i]; Some(i + 1)
  }

  /** `str::starts_with`. */
  predicate StartsWith(s: string, prefix: string) {
    |prefix| <= |s| && s[..|prefix|] == prefix
  }

  /** The callout marker of an already trimmed text. */
  function CalloutMarker(t: string): (r: Option<string>)
    ensures r.Some? <==> StartsWith(t, "[!") && ']' in t
    ensures r.Some? ==>
      exists e :: 2 <= e < |t| && t[e] == ']' && ']' !in t[..e] && r.value == ToLowerString(t[2..e])
  {
    if StartsWith(t, "[!") then
      match FindChar(t, ']')
      case None => None
      case Some(e) =>
        assert t[..2][0] == '[';
        Some(ToLowerString(t[2..e]))
    else None
  }

  /**
   * `detect_callout_type`: the lower-cased text between a leading "[!" and the first ']' of
   * the trimmed text, or nothing.
   */
  function DetectCalloutType(text: string): (r: Option<string>)
    ensures r.Some? <==> StartsWith(Trim(text), "[!") && ']' in Trim(text)
  {
    CalloutMarker(Trim(text))
  }

  /** A marker written as "[!kind]rest" is detected, lower-cased, whatever follows it. */
  lemma CalloutRoundTrip(kind: string, rest: string)
    requires ']' !in kind
    ensures DetectCalloutType("[!" + kind + "]" + rest) == Some(ToLowerString(kind))
  {
    var s := "[!" + kind + "]" + rest;
    var e := |kind| + 2;
    assert s[..e + 1] == "[!" + kind + "]";
    TrimKeepsMarker(s, e);
    MarkerOfPrefix(Trim(s), kind);
  }

  /** Trimming keeps everything up to a non-whitespace character when `s` starts with one. */
  lemma TrimKeepsMarker(s: string, e: nat)
    requires e < |s| && !IsWhitespace(s[0]) && !IsWhitespace(s[e])
    ensures |Trim(s)| > e && Trim(s)[..e + 1] == s[..e + 1]
  {
    assert TrimStart(s) == s;
  }

  lemma MarkerOfPrefix(t: string, kind: string)
    requires ']' !in kind
    requires |t| > |kind| + 2 && t[..|kind| + 3] == "[!" + kind + "]"
    ensures CalloutMarker(t) == Some(ToLowerString(kind))
  {
    var e := |kind| + 2;
    assert t[e] == t[..e + 1][e] == ']';
    assert t[..2] == t[..e + 1][..2] == "[!";
    assert t[2..e] == t[..e + 1][2..e] == kind;
    assert forall j :: 2 <= j < e ==> t[j] == kind[j - 2];
    assert t[0] != ']' && t[1] != ']';
    var i := FindChar(t, ']').value;
  }

  /** Leading and trailing whitespace around the marker is ignored. */
  lemma CalloutTrimmed(text: string)
    ensures DetectCalloutType(text) == DetectCalloutType(Trim(text))
  {
    TrimIdempotent(text);
  }

  lemma TrimIdempotent(s: string)
    ensures Trim(Trim(s)) == Trim(s)
  {
    var u := TrimStart(s);
    var t := TrimEnd(u);
    if t != [] {
      assert t[0] == u[0];
      assert TrimStart(t) == t;
      assert TrimEnd(t) == t;
    }
  }

  /** A text that does not start with "[!" after trimming is never a callout. */
  lemma NotCalloutWithoutMarker(text: string)
    requires !StartsWith(Trim(text), "[!")
    ensures DetectCalloutType(text).None?
  {
  }
}
