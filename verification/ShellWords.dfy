/** A console line split into arguments as a POSIX shell does, expanding nothing (cmd/anfra/console.go). */
module ShellWords {
  /** The splitter between two characters; quote is NO_QUOTE outside quotes. */
  datatype State = State(args: seq<string>, word: string, inWord: bool, quote: char)
  datatype Result = Ok(args: seq<string>) | Unclosed(quote: char)

  const NO_QUOTE := '\0'
  const START := State([], "", false, NO_QUOTE)

  predicate Blank(c: char) { c == ' ' || c == '\t' || c == '\n' }

  /** What a backslash escapes in double quotes. */
  predicate Escapable(c: char) { c in "$`\"\\\n" }

  predicate Special(c: char) { Blank(c) || c == '\'' || c == '"' || c == '\\' }

  function Put(st: State, c: char): State { st.(word := st.word + [c], inWord := true) }

  function EndWord(st: State): State {
    if st.inWord then st.(args := st.args + [st.word], word := "", inWord := false) else st
  }

  /** One character, or a backslash and the one after it: how many were read, and the state after. */
  function Step(s: string, st: State): (r: (nat, State))
    requires s != ""
    ensures 1 <= r.0 <= |s|
  {
    var c := s[0];
    if st.quote == '\'' then (1, if c == '\'' then st.(quote := NO_QUOTE) else st.(word := st.word + [c]))
    else if st.quote == '"' then
      if c == '"' then (1, st.(quote := NO_QUOTE))
      else if c == '\\' && |s| > 1 && Escapable(s[1]) then (2, st.(word := st.word + [s[1]]))
      else (1, st.(word := st.word + [c]))
    else if c == '\'' || c == '"' then (1, st.(quote := c, inWord := true))
    else if c == '\\' then if |s| > 1 then (2, Put(st, s[1])) else (1, st.(inWord := true))
    else if Blank(c) then (1, EndWord(st))
    else (1, Put(st, c))
  }

  function Run(s: string, st: State): State
    decreases |s|
  {
    if s == "" then st else Run(s[Step(s, st).0..], Step(s, st).1)
  }

  function Finish(st: State): Result {
    if st.quote != NO_QUOTE then Unclosed(st.quote) else Ok(EndWord(st).args)
  }

  /** Splits a line into arguments. */
  method SplitArgs(s: string) returns (r: Result)
    ensures r == Finish(Run(s, START))
  {
    var args: seq<string> := [];
    var word := "";
    var inWord := false;
    var quote := NO_QUOTE;
    var i := 0;
    while i < |s|
      invariant 0 <= i <= |s|
      invariant Run(s, START) == Run(s[i..], State(args, word, inWord, quote))
    {
      ghost var at, before := i, State(args, word, inWord, quote);
      var c := s[i];
      if quote == '\'' {
        if c == '\'' { quote := NO_QUOTE; } else { word := word + [c]; }
      } else if quote == '"' {
        if c == '"' {
          quote := NO_QUOTE;
        } else if c == '\\' && i + 1 < |s| && Escapable(s[i + 1]) {
          i := i + 1;
          word := word + [s[i]];
        } else {
          word := word + [c];
        }
      } else if c == '\'' || c == '"' {
        quote, inWord := c, true;
      } else if c == '\\' {
        if i + 1 < |s| {
          i := i + 1;
          word := word + [s[i]];
        }
        inWord := true;
      } else if Blank(c) {
        if inWord {
          args := args + [word];
          word, inWord := "", false;
        }
      } else {
        word, inWord := word + [c], true;
      }
      i := i + 1;
      assert s[at..][i - at..] == s[i..];
      assert Step(s[at..], before) == (i - at, State(args, word, inWord, quote));
    }
    if quote != NO_QUOTE { return Unclosed(quote); }
    if inWord { args := args + [word]; }
    r := Ok(args);
  }

  // How words are written

  /** In double quotes, a character as it is, or one behind a backslash. */
  datatype Item = Literal(c: char) | Escape(c: char)

  /** A part of a word as written: a character as it is, one behind a backslash, or a part in quotes. */
  datatype Piece = Bare(c: char) | Backslashed(c: char) | Single(text: string) | Double(items: seq<Item>)

  /** A word's pieces, and the blanks after it. */
  datatype Word = Word(pieces: seq<Piece>, gap: string)

  function ItemsWritten(items: seq<Item>): string {
    if items == [] then ""
    else (if items[0].Literal? then [items[0].c] else ['\\', items[0].c]) + ItemsWritten(items[1..])
  }

  function ItemsMean(items: seq<Item>): string {
    if items == [] then "" else [items[0].c] + ItemsMean(items[1..])
  }

  /** A backslash is itself in double quotes where what follows it cannot be escaped. */
  predicate ValidItems(items: seq<Item>) {
    if items == [] then true
    else
      && ValidItems(items[1..])
      && match items[0]
         case Escape(c) => Escapable(c)
         case Literal(c) =>
           c != '"' && (c == '\\' ==> |items| > 1 && items[1].Literal? && !Escapable(items[1].c))
  }

  predicate ValidPiece(p: Piece) {
    match p
    case Bare(c) => !Special(c)
    case Backslashed(c) => true
    case Single(text) => '\'' !in text
    case Double(items) => ValidItems(items)
  }

  function PieceWritten(p: Piece): string {
    match p
    case Bare(c) => [c]
    case Backslashed(c) => ['\\', c]
    case Single(text) => "'" + text + "'"
    case Double(items) => "\"" + ItemsWritten(items) + "\""
  }

  function PieceMeans(p: Piece): string {
    match p
    case Bare(c) => [c]
    case Backslashed(c) => [c]
    case Single(text) => text
    case Double(items) => ItemsMean(items)
  }

  function Written(pieces: seq<Piece>): string {
    if pieces == [] then "" else PieceWritten(pieces[0]) + Written(pieces[1..])
  }

  function Means(pieces: seq<Piece>): string {
    if pieces == [] then "" else PieceMeans(pieces[0]) + Means(pieces[1..])
  }

  predicate Blanks(s: string) { forall c | c in s :: Blank(c) }

  predicate ValidPieces(pieces: seq<Piece>) {
    pieces != [] && forall i | 0 <= i < |pieces| :: ValidPiece(pieces[i])
  }

  /** Words are apart by blanks; the last may be followed by none. */
  predicate ValidWords(words: seq<Word>) {
    forall i | 0 <= i < |words| ::
      ValidPieces(words[i].pieces) && Blanks(words[i].gap) && (i < |words| - 1 ==> words[i].gap != "")
  }

  function Line(words: seq<Word>): string {
    if words == [] then "" else Written(words[0].pieces) + words[0].gap + Line(words[1..])
  }

  function Meant(words: seq<Word>): seq<string> {
    if words == [] then [] else [Means(words[0].pieces)] + Meant(words[1..])
  }

  // Reading what was written

  lemma RunStep(read: string, rest: string, st: State, after: State)
    requires read != "" && Step(read + rest, st) == (|read|, after)
    ensures Run(read + rest, st) == Run(rest, after)
  {
    assert (read + rest)[|read|..] == rest;
  }

  lemma {:induction false} RunSingle(text: string, rest: string, st: State)
    requires st.quote == '\'' && '\'' !in text
    ensures Run(text + ("'" + rest), st) == Run(rest, st.(word := st.word + text, quote := NO_QUOTE))
  {
    if text == "" {
      assert text + ("'" + rest) == "'" + rest && st.word + "" == st.word;
      RunStep("'", rest, st, st.(quote := NO_QUOTE));
    } else {
      var more := st.(word := st.word + [text[0]]);
      assert text + ("'" + rest) == [text[0]] + (text[1..] + ("'" + rest));
      RunStep([text[0]], text[1..] + ("'" + rest), st, more);
      RunSingle(text[1..], rest, more);
      assert st.word + [text[0]] + text[1..] == st.word + text;
    }
  }

  lemma {:induction false} RunDouble(items: seq<Item>, rest: string, st: State)
    requires st.quote == '"' && ValidItems(items)
    ensures Run(ItemsWritten(items) + ("\"" + rest), st) == Run(rest, st.(word := st.word + ItemsMean(items), quote := NO_QUOTE))
  {
    if items == [] {
      assert "" + ("\"" + rest) == "\"" + rest && st.word + "" == st.word;
      RunStep("\"", rest, st, st.(quote := NO_QUOTE));
    } else {
      var c := items[0].c;
      var read := if items[0].Literal? then [c] else ['\\', c];
      var left := ItemsWritten(items[1..]) + ("\"" + rest);
      var more := st.(word := st.word + [c]);
      assert ItemsWritten(items) + ("\"" + rest) == read + left;
      if items[0] == Literal('\\') { assert left[0] == items[1].c == (read + left)[1]; }
      RunStep(read, left, st, more);
      RunDouble(items[1..], rest, more);
      assert st.word + [c] + ItemsMean(items[1..]) == st.word + ItemsMean(items);
    }
  }

  lemma RunPiece(p: Piece, rest: string, st: State)
    requires ValidPiece(p) && st.quote == NO_QUOTE
    ensures Run(PieceWritten(p) + rest, st) == Run(rest, st.(word := st.word + PieceMeans(p), inWord := true))
  {
    hide Run, ItemsWritten, ItemsMean, ValidItems;
    match p
    case Bare(c) => RunStep([c], rest, st, Put(st, c));
    case Backslashed(c) => RunStep(['\\', c], rest, st, Put(st, c));
    case Single(text) =>
      assert PieceWritten(p) + rest == "'" + (text + ("'" + rest));
      RunQuote('\'', text + ("'" + rest), st);
      RunSingle(text, rest, st.(quote := '\'', inWord := true));
    case Double(items) =>
      assert PieceWritten(p) + rest == "\"" + (ItemsWritten(items) + ("\"" + rest));
      RunQuote('"', ItemsWritten(items) + ("\"" + rest), st);
      RunDouble(items, rest, st.(quote := '"', inWord := true));
  }

  lemma RunQuote(c: char, rest: string, st: State)
    requires st.quote == NO_QUOTE && (c == '\'' || c == '"')
    ensures Run([c] + rest, st) == Run(rest, st.(quote := c, inWord := true))
  {
    hide Run;
    RunStep([c], rest, st, st.(quote := c, inWord := true));
  }

  lemma {:induction false} RunPieces(pieces: seq<Piece>, rest: string, st: State)
    requires st.quote == NO_QUOTE && forall i | 0 <= i < |pieces| :: ValidPiece(pieces[i])
    ensures Run(Written(pieces) + rest, st) ==
            Run(rest, st.(word := st.word + Means(pieces), inWord := st.inWord || pieces != []))
  {
    hide Run, PieceWritten, PieceMeans, ValidPiece;
    if pieces == [] {
      assert "" + rest == rest && st.word + "" == st.word;
    } else {
      var more := st.(word := st.word + PieceMeans(pieces[0]), inWord := true);
      assert Written(pieces) + rest == PieceWritten(pieces[0]) + (Written(pieces[1..]) + rest);
      RunPiece(pieces[0], Written(pieces[1..]) + rest, st);
      RunPieces(pieces[1..], rest, more);
      assert more.word + Means(pieces[1..]) == st.word + Means(pieces);
    }
  }

  lemma {:induction false} RunBlanks(gap: string, rest: string, st: State)
    requires Blanks(gap) && st.quote == NO_QUOTE
    ensures Run(gap + rest, st) == Run(rest, if gap == "" then st else EndWord(st))
  {
    if gap == "" {
      assert gap + rest == rest;
    } else {
      assert gap + rest == [gap[0]] + (gap[1..] + rest);
      assert gap[0] in gap;
      RunStep([gap[0]], gap[1..] + rest, st, EndWord(st));
      RunBlanks(gap[1..], rest, EndWord(st));
    }
  }

  /** Words written in any of these ways, in any mix, are read back as they were meant. */
  lemma {:induction false} ReadsWords(words: seq<Word>, st: State)
    requires ValidWords(words) && st.quote == NO_QUOTE && !st.inWord && st.word == ""
    ensures Finish(Run(Line(words), st)) == Ok(st.args + Meant(words))
  {
    hide Run, Written, Means, ValidPieces;
    if words == [] {
      RunNothing(st);
    } else {
      var w, rest := words[0], Line(words[1..]);
      assert Line(words) == Written(w.pieces) + (w.gap + rest);
      assert ValidPieces(w.pieces);
      ValidOnes(w.pieces);
      RunPieces(w.pieces, w.gap + rest, st);
      var after := st.(word := "" + Means(w.pieces), inWord := true);
      RunBlanks(w.gap, rest, after);
      assert st.args + ([Means(w.pieces)] + Meant(words[1..])) == st.args + [Means(w.pieces)] + Meant(words[1..]);
      assert "" + Means(w.pieces) == Means(w.pieces);
      if w.gap == "" {
        assert |words| == 1 && rest == "" && Meant(words[1..]) == [];
        RunNothing(after);
      } else {
        ReadsWords(words[1..], EndWord(after));
      }
    }
  }

  lemma ValidOnes(pieces: seq<Piece>)
    requires ValidPieces(pieces)
    ensures pieces != [] && forall i | 0 <= i < |pieces| :: ValidPiece(pieces[i])
  {
  }

  lemma RunNothing(st: State)
    ensures Run("", st) == st
  {
  }

  /** A line of words, with blanks before them or not, splits into what the words mean. */
  lemma SplitsWhatWasWritten(lead: string, words: seq<Word>)
    requires Blanks(lead) && ValidWords(words)
    ensures Finish(Run(lead + Line(words), START)) == Ok(Meant(words))
  {
    hide Run, ValidWords;
    RunBlanks(lead, Line(words), START);
    ReadsWords(words, START);
    assert [] + Meant(words) == Meant(words);
  }

  lemma {:induction false} RunWords(words: seq<Word>, rest: string, st: State)
    requires ValidWords(words) && st.quote == NO_QUOTE && !st.inWord && st.word == ""
    requires words == [] || words[|words| - 1].gap != ""
    ensures Run(Line(words) + rest, st) == Run(rest, st.(args := st.args + Meant(words)))
  {
    hide Run, Written, Means, ValidPieces;
    if words == [] {
      assert "" + rest == rest && st.args + [] == st.args;
    } else {
      var w, more := words[0], Line(words[1..]) + rest;
      assert Line(words) + rest == Written(w.pieces) + (w.gap + more);
      assert ValidPieces(w.pieces);
      ValidOnes(w.pieces);
      RunPieces(w.pieces, w.gap + more, st);
      assert "" + Means(w.pieces) == Means(w.pieces);
      var after := st.(word := Means(w.pieces), inWord := true);
      RunBlanks(w.gap, more, after);
      RunWords(words[1..], rest, EndWord(after));
      assert st.args + ([Means(w.pieces)] + Meant(words[1..])) == st.args + [Means(w.pieces)] + Meant(words[1..]);
    }
  }

  // Ways to write a whole word

  /** '…', a quote in it as '\'' */
  function InSingleQuotes(w: string): string { "'" + SingleBody(w) + "'" }

  function SingleBody(w: string): string {
    if w == "" then "" else (if w[0] == '\'' then "'\\''" else [w[0]]) + SingleBody(w[1..])
  }

  function SinglePieces(w: string): (pieces: seq<Piece>)
    ensures pieces != [] && pieces[0].Single?
  {
    if w == "" then [Single("")] else MoreInside(w[0], SinglePieces(w[1..]))
  }

  function MoreInside(c: char, rest: seq<Piece>): (pieces: seq<Piece>)
    requires rest != [] && rest[0].Single?
    ensures pieces != [] && pieces[0].Single?
  {
    if c == '\'' then [Single("")] + ([Backslashed('\'')] + rest)
    else [Single([c] + rest[0].text)] + rest[1..]
  }

  lemma MoreInsideMeans(c: char, rest: seq<Piece>, body: string)
    requires rest != [] && rest[0].Single? && ValidPieces(rest) && Written(rest) == "'" + body + "'"
    ensures ValidPieces(MoreInside(c, rest)) && Means(MoreInside(c, rest)) == [c] + Means(rest)
    ensures Written(MoreInside(c, rest)) == "'" + ((if c == '\'' then "'\\''" else [c]) + body) + "'"
  {
    hide Written, Means, ValidPiece;
    if c == '\'' {
      WrittenMore(Backslashed('\''), rest);
      WrittenMore(Single(""), [Backslashed('\'')] + rest);
      SingleValid("");
    } else {
      assert rest == [rest[0]] + rest[1..];
      WrittenMore(Single([c] + rest[0].text), rest[1..]);
      WrittenMore(rest[0], rest[1..]);
      SingleValid(rest[0].text);
      SingleValid([c] + rest[0].text);
      OneMoreInside(c, rest[0].text, Written(rest[1..]), body);
    }
  }

  lemma {:induction false} SingleQuoted(w: string)
    ensures ValidPieces(SinglePieces(w)) && Written(SinglePieces(w)) == InSingleQuotes(w) && Means(SinglePieces(w)) == w
  {
    hide Written, Means, ValidPiece, MoreInside;
    if w == "" {
      WrittenMore(Single(""), []);
      assert [Single("")] + [] == [Single("")];
      SingleValid("");
      WrittenNothing();
    } else {
      SingleQuoted(w[1..]);
      MoreInsideMeans(w[0], SinglePieces(w[1..]), SingleBody(w[1..]));
      assert w == [w[0]] + w[1..];
    }
  }

  lemma OneMoreInside(c: char, text: string, rest: string, body: string)
    requires "'" + text + "'" + rest == "'" + body + "'"
    ensures "'" + ([c] + text) + "'" + rest == "'" + ([c] + body) + "'"
  {
    assert text + "'" + rest == ("'" + text + "'" + rest)[1..] == ("'" + body + "'")[1..] == body + "'";
    assert "'" + ([c] + text) + "'" + rest == "'" + [c] + (text + "'" + rest);
  }

  lemma SingleValid(text: string)
    ensures ValidPiece(Single(text)) <==> '\'' !in text
    ensures ValidPiece(Backslashed('\''))
  {
  }

  lemma WrittenNothing()
    ensures Written([]) == "" && Means([]) == ""
  {
  }

  lemma WrittenMore(p: Piece, rest: seq<Piece>)
    ensures Written([p] + rest) == PieceWritten(p) + Written(rest) && Means([p] + rest) == PieceMeans(p) + Means(rest)
  {
    assert ([p] + rest)[1..] == rest;
  }

  /** "…", with $ ` " and backslash behind backslashes */
  function InDoubleQuotes(w: string): string { "\"" + DoubleBody(w) + "\"" }

  function DoubleBody(w: string): string {
    if w == "" then "" else (if w[0] in "$`\"\\" then ['\\', w[0]] else [w[0]]) + DoubleBody(w[1..])
  }

  function DoubleItems(w: string): seq<Item> {
    if w == "" then [] else [if w[0] in "$`\"\\" then Escape(w[0]) else Literal(w[0])] + DoubleItems(w[1..])
  }

  lemma {:induction false} DoubleQuoted(w: string)
    ensures ValidItems(DoubleItems(w)) && ItemsWritten(DoubleItems(w)) == DoubleBody(w) && ItemsMean(DoubleItems(w)) == w
  {
    if w != "" {
      DoubleQuoted(w[1..]);
      assert w == [w[0]] + w[1..] && DoubleItems(w)[1..] == DoubleItems(w[1..]);
    }
  }

  /** Every character behind a backslash */
  function WithBackslashes(w: string): string {
    if w == "" then "" else ['\\', w[0]] + WithBackslashes(w[1..])
  }

  lemma {:induction false} Backslashes(w: string)
    ensures var pieces := seq(|w|, i requires 0 <= i < |w| => Backslashed(w[i]));
            Written(pieces) == WithBackslashes(w) && Means(pieces) == w
  {
    if w != "" {
      Backslashes(w[1..]);
      var pieces := seq(|w|, i requires 0 <= i < |w| => Backslashed(w[i]));
      assert pieces[1..] == seq(|w| - 1, i requires 0 <= i < |w| - 1 => Backslashed(w[1..][i]));
      assert w == [w[0]] + w[1..];
    }
  }

  datatype Quoting = InSingle | InDouble | AllBackslashed

  /** A backslashed empty word would be nothing at all. */
  function Quoted(w: string, q: Quoting): string {
    match q
    case InSingle => InSingleQuotes(w)
    case InDouble => InDoubleQuotes(w)
    case AllBackslashed => if w == "" then InSingleQuotes(w) else WithBackslashes(w)
  }

  function QuotedLine(words: seq<string>, quotings: seq<Quoting>): string
    requires |words| == |quotings|
  {
    if words == [] then ""
    else Quoted(words[0], quotings[0]) + (if |words| > 1 then " " else "") + QuotedLine(words[1..], quotings[1..])
  }

  lemma QuotedPieces(w: string, q: Quoting) returns (pieces: seq<Piece>)
    ensures ValidPieces(pieces) && Written(pieces) == Quoted(w, q) && Means(pieces) == w
  {
    match q
    case InSingle => SingleQuoted(w); pieces := SinglePieces(w);
    case InDouble =>
      DoubleQuoted(w);
      pieces := [Double(DoubleItems(w))];
      WrittenMore(pieces[0], []);
      assert pieces == pieces + [];
    case AllBackslashed =>
      if w == "" {
        SingleQuoted(w);
        pieces := SinglePieces(w);
      } else {
        Backslashes(w);
        pieces := seq(|w|, i requires 0 <= i < |w| => Backslashed(w[i]));
      }
  }

  lemma {:induction false} QuotedWords(words: seq<string>, quotings: seq<Quoting>) returns (written: seq<Word>)
    requires |words| == |quotings|
    ensures |written| == |words| && ValidWords(written)
    ensures Line(written) == QuotedLine(words, quotings) && Meant(written) == words
  {
    if words == [] {
      written := [];
      assert words == Meant([]);
    } else {
      hide Written, Means, ValidPieces, Quoted, Line, Meant, ValidWords;
      var rest := QuotedWords(words[1..], quotings[1..]);
      var pieces := QuotedPieces(words[0], quotings[0]);
      var first := Word(pieces, if |words| > 1 then " " else "");
      written := [first] + rest;
      assert words == [words[0]] + words[1..];
      OneMoreWord(first, rest);
    }
  }

  lemma OneMoreWord(first: Word, rest: seq<Word>)
    requires ValidWords(rest) && ValidPieces(first.pieces) && first.gap == if rest == [] then "" else " "
    ensures ValidWords([first] + rest) && Meant([first] + rest) == [Means(first.pieces)] + Meant(rest)
    ensures Line([first] + rest) == Written(first.pieces) + first.gap + Line(rest)
  {
    hide Written, Means, ValidPieces;
    assert ([first] + rest)[1..] == rest;
    forall i | 0 < i <= |rest|
      ensures ValidPieces(([first] + rest)[i].pieces) && Blanks(([first] + rest)[i].gap)
      ensures i < |rest| ==> ([first] + rest)[i].gap != ""
    {
      assert ([first] + rest)[i] == rest[i - 1];
    }
  }

  /** Words quoted in any of three ways, a space between each two, split into those words. */
  lemma QuotedRoundTrip(words: seq<string>, quotings: seq<Quoting>)
    requires |words| == |quotings|
    ensures Finish(Run(QuotedLine(words, quotings), START)) == Ok(words)
  {
    hide Run, Line, Meant, ValidWords, QuotedLine;
    var written := QuotedWords(words, quotings);
    SplitsWhatWasWritten("", written);
    assert "" + Line(written) == Line(written);
  }
}
