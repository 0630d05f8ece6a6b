/** The grammar of the lines the console splits: every line has a writing, and is split, or told
    unclosed, as that means (cmd/anfra/console.go). */
module ShellGrammar {
  import opened ShellWords

  /** How a line ends: with its last word whole; in a backslash with nothing after it; or in a quote
      left open, in double ones perhaps with a backslash at the very end. */
  datatype Ending = Whole | LastBackslash | OpenSingle(text: string) | OpenDouble(items: seq<Item>, backslash: bool)

  /** Blanks, the words that have blanks after them, the pieces of what may be one more, and the ending. */
  datatype Layout = Layout(lead: string, words: seq<Word>, last: seq<Piece>, ending: Ending)

  predicate ValidEnding(e: Ending) {
    match e
    case OpenSingle(text) => '\'' !in text
    case OpenDouble(items, _) => ValidItems(items)
    case _ => true
  }

  predicate AllValid(pieces: seq<Piece>) {
    forall i | 0 <= i < |pieces| :: ValidPiece(pieces[i])
  }

  predicate GapAfterLast(words: seq<Word>) {
    words == [] || words[|words| - 1].gap != ""
  }

  predicate ValidLayout(l: Layout) {
    Blanks(l.lead) && ValidWords(l.words) && GapAfterLast(l.words) && AllValid(l.last) && ValidEnding(l.ending)
  }

  function EndingWritten(e: Ending): string {
    match e
    case Whole => ""
    case LastBackslash => "\\"
    case OpenSingle(text) => "'" + text
    case OpenDouble(items, backslash) => "\"" + (ItemsWritten(items) + if backslash then "\\" else "")
  }

  function TextOf(l: Layout): string {
    l.lead + (Line(l.words) + (Written(l.last) + EndingWritten(l.ending)))
  }

  /** A word whose last backslash has nothing after it is a word all the same; a quote left open is told. */
  function MeaningOf(l: Layout): Result {
    match l.ending
    case Whole => Ok(Meant(l.words) + if l.last == [] then [] else [Means(l.last)])
    case LastBackslash => Ok(Meant(l.words) + [Means(l.last)])
    case OpenSingle(_) => Unclosed('\'')
    case OpenDouble(_, _) => Unclosed('"')
  }

  lemma {:induction false} RunOpenSingle(text: string, st: State)
    requires st.quote == '\'' && '\'' !in text
    ensures Run(text, st).quote == '\''
  {
    if text != "" { RunOpenSingle(text[1..], st.(word := st.word + [text[0]])); }
  }

  lemma {:induction false} RunOpenDouble(items: seq<Item>, backslash: bool, st: State)
    requires st.quote == '"' && ValidItems(items)
    ensures Run(ItemsWritten(items) + (if backslash then "\\" else ""), st).quote == '"'
  {
    var end := if backslash then "\\" else "";
    if items == [] {
      assert ItemsWritten(items) + end == end;
      RunNothing(st);
      if backslash {
        assert end + "" == end;
        RunStep("\\", "", st, st.(word := st.word + ['\\']));
        RunNothing(st.(word := st.word + ['\\']));
      }
    } else {
      var c := items[0].c;
      var read := if items[0].Literal? then [c] else ['\\', c];
      var left := ItemsWritten(items[1..]) + end;
      var more := st.(word := st.word + [c]);
      assert ItemsWritten(items) + end == read + left;
      if items[0] == Literal('\\') { assert left[0] == items[1].c == (read + left)[1]; }
      RunStep(read, left, st, more);
      RunOpenDouble(items[1..], backslash, more);
    }
  }

  lemma EndingIsRead(e: Ending, st: State)
    requires ValidEnding(e) && st.quote == NO_QUOTE
    ensures Finish(Run(EndingWritten(e), st)) ==
            match e
            case Whole => Ok(EndWord(st).args)
            case LastBackslash => Ok(st.args + [st.word])
            case OpenSingle(_) => Unclosed('\'')
            case OpenDouble(_, _) => Unclosed('"')
  {
    hide Run, ItemsWritten, ValidItems;
    match e
    case Whole => RunNothing(st);
    case LastBackslash =>
      assert "\\" + "" == "\\";
      RunStep("\\", "", st, st.(inWord := true));
      RunNothing(st.(inWord := true));
    case OpenSingle(text) =>
      RunQuote('\'', text, st);
      RunOpenSingle(text, st.(quote := '\'', inWord := true));
    case OpenDouble(items, backslash) =>
      RunQuote('"', ItemsWritten(items) + (if backslash then "\\" else ""), st);
      RunOpenDouble(items, backslash, st.(quote := '"', inWord := true));
  }

  /** A line is split, or told unclosed, as its writing means. */
  lemma ReadsAsWritten(l: Layout)
    requires ValidLayout(l)
    ensures Finish(Run(TextOf(l), START)) == MeaningOf(l)
  {
    hide Run, Line, Meant, ValidWords, Blanks, Written, Means, ValidEnding, EndingWritten, ValidPiece;
    var end := EndingWritten(l.ending);
    RunBlanks(l.lead, Line(l.words) + (Written(l.last) + end), START);
    RunWords(l.words, Written(l.last) + end, START);
    var st := START.(args := Meant(l.words));
    assert [] + Meant(l.words) == Meant(l.words);
    RunPieces(l.last, end, st);
    assert "" + Means(l.last) == Means(l.last);
    EndingIsRead(l.ending, st.(word := Means(l.last), inWord := l.last != []));
  }

  // Every line has a writing

  lemma {:induction false} SplitBlanks(s: string) returns (gap: string, rest: string)
    ensures s == gap + rest && Blanks(gap) && (rest != "" ==> !Blank(rest[0]))
    ensures s != "" && Blank(s[0]) ==> gap != ""
  {
    if s == "" || !Blank(s[0]) {
      gap, rest := "", s;
    } else {
      gap, rest := SplitBlanks(s[1..]);
      gap := [s[0]] + gap;
    }
  }

  lemma {:induction false} SplitSingle(s: string) returns (closed: bool, text: string, rest: string)
    ensures '\'' !in text
    ensures closed ==> s == text + ("'" + rest)
    ensures !closed ==> s == text
  {
    if s == "" {
      closed, text, rest := false, "", "";
    } else if s[0] == '\'' {
      closed, text, rest := true, "", s[1..];
    } else {
      closed, text, rest := SplitSingle(s[1..]);
      text := [s[0]] + text;
    }
  }

  lemma {:induction false} SplitDouble(s: string) returns (closed: bool, items: seq<Item>, backslash: bool, rest: string)
    ensures ValidItems(items)
    ensures closed ==> s == ItemsWritten(items) + ("\"" + rest)
    ensures !closed ==> s == ItemsWritten(items) + if backslash then "\\" else ""
    ensures s != "" && s[0] != '"' && s[0] != '\\' ==> items != [] && items[0] == Literal(s[0])
    decreases |s|
  {
    hide ItemsWritten, ValidItems, Escapable;
    closed, items, backslash, rest := false, [], false, "";
    NoItems();
    if s == "" {
    } else if s[0] == '"' {
      closed, rest := true, s[1..];
    } else if s == "\\" {
      backslash := true;
    } else if s[0] == '\\' && Escapable(s[1]) {
      closed, items, backslash, rest := SplitDouble(s[2..]);
      MoreItems(Escape(s[1]), items);
      assert s == ['\\', s[1]] + s[2..];
      items := [Escape(s[1])] + items;
    } else {
      closed, items, backslash, rest := SplitDouble(s[1..]);
      MoreItems(Literal(s[0]), items);
      assert s == [s[0]] + s[1..];
      items := [Literal(s[0])] + items;
    }
  }

  lemma MoreItems(item: Item, items: seq<Item>)
    ensures ItemsWritten([item] + items) == (if item.Literal? then [item.c] else ['\\', item.c]) + ItemsWritten(items)
    ensures ValidItems(items) && (item.Escape? ==> Escapable(item.c)) && (item.Literal? ==> item.c != '"')
            && (item == Literal('\\') ==> items != [] && items[0].Literal? && !Escapable(items[0].c))
            ==> ValidItems([item] + items)
  {
    hide Escapable;
    assert ([item] + items)[1..] == items;
  }

  lemma NoItems()
    ensures ItemsWritten([]) == "" && ValidItems([]) && Escapable('"') && Escapable('\\')
  {
  }

  /** One word from the front, up to a blank or to the line's end. */
  lemma {:induction false} SplitWord(s: string) returns (pieces: seq<Piece>, ending: Ending, rest: string)
    ensures s == Written(pieces) + EndingWritten(ending) + rest
    ensures AllValid(pieces) && ValidEnding(ending)
    ensures rest != "" ==> Blank(rest[0]) && ending == Whole
    ensures s != "" && !Blank(s[0]) && rest != "" ==> pieces != []
    decreases |s|
  {
    hide Written, ItemsWritten, ValidItems;
    if s == "" || Blank(s[0]) {
      pieces, ending, rest := [], Whole, s;
      WrittenNothing();
    } else if s[0] == '\'' {
      var closed, text, more := SplitSingle(s[1..]);
      assert s == "'" + s[1..];
      if closed {
        pieces, ending, rest := OneMorePiece(s, Single(text), more);
      } else {
        pieces, ending, rest := [], OpenSingle(text), "";
        WrittenNothing();
      }
    } else if s[0] == '"' {
      var closed, items, backslash, more := SplitDouble(s[1..]);
      assert s == "\"" + s[1..];
      if closed {
        pieces, ending, rest := OneMorePiece(s, Double(items), more);
      } else {
        pieces, ending, rest := [], OpenDouble(items, backslash), "";
        WrittenNothing();
      }
    } else if s == "\\" {
      pieces, ending, rest := [], LastBackslash, "";
      WrittenNothing();
    } else if s[0] == '\\' {
      assert s == ['\\', s[1]] + s[2..];
      pieces, ending, rest := OneMorePiece(s, Backslashed(s[1]), s[2..]);
    } else {
      assert s == [s[0]] + s[1..];
      pieces, ending, rest := OneMorePiece(s, Bare(s[0]), s[1..]);
    }
  }

  lemma {:induction false} OneMorePiece(s: string, p: Piece, more: string) returns (pieces: seq<Piece>, ending: Ending, rest: string)
    requires s == PieceWritten(p) + more && |more| < |s| && ValidPiece(p)
    ensures s == Written(pieces) + EndingWritten(ending) + rest && pieces != []
    ensures AllValid(pieces) && ValidEnding(ending)
    ensures rest != "" ==> Blank(rest[0]) && ending == Whole
    decreases |s|, 0
  {
    hide Written, ValidPiece, AllValid, ValidEnding, EndingWritten, PieceWritten;
    pieces, ending, rest := SplitWord(more);
    MoreValid(p, pieces);
    WrittenMore(p, pieces);
    assert PieceWritten(p) + (Written(pieces) + EndingWritten(ending) + rest)
        == PieceWritten(p) + Written(pieces) + EndingWritten(ending) + rest;
    pieces := [p] + pieces;
  }

  lemma MoreValid(p: Piece, pieces: seq<Piece>)
    requires ValidPiece(p) && AllValid(pieces)
    ensures AllValid([p] + pieces)
  {
  }

  lemma {:induction false} SplitWords(s: string) returns (words: seq<Word>, last: seq<Piece>, ending: Ending)
    requires s != "" ==> !Blank(s[0])
    ensures ValidWords(words) && GapAfterLast(words) && AllValid(last) && ValidEnding(ending)
    ensures s == Line(words) + (Written(last) + EndingWritten(ending))
    decreases |s|
  {
    hide Written, Line, ValidWords, AllValid, ValidEnding, EndingWritten, Blanks, Blank;
    var pieces, end, rest := SplitWord(s);
    NoWords();
    if rest == "" {
      words, last, ending := [], pieces, end;
    } else {
      var gap, more := SplitBlanks(rest);
      WholeAdds(pieces, gap, more);
      words, last, ending := SplitWords(more);
      OneMoreSpaced(Word(pieces, gap), words);
      var tail := Written(last) + EndingWritten(ending);
      assert Written(pieces) + (gap + (Line(words) + tail)) == Written(pieces) + gap + Line(words) + tail;
      words := [Word(pieces, gap)] + words;
    }
  }

  lemma NoWords()
    ensures ValidWords([]) && Line([]) == ""
  {
  }

  lemma WholeAdds(pieces: seq<Piece>, gap: string, more: string)
    ensures Written(pieces) + EndingWritten(Whole) + (gap + more) == Written(pieces) + (gap + more)
    ensures pieces != [] && gap != "" ==> |more| < |Written(pieces) + (gap + more)|
  {
  }

  lemma OneMoreSpaced(w: Word, words: seq<Word>)
    requires ValidWords(words) && AllValid(w.pieces) && w.pieces != [] && Blanks(w.gap) && w.gap != "" && GapAfterLast(words)
    ensures ValidWords([w] + words) && GapAfterLast([w] + words)
    ensures Line([w] + words) == Written(w.pieces) + w.gap + Line(words)
  {
    hide Written, Blanks, ValidPiece;
    var all := [w] + words;
    assert all[1..] == words;
    forall i | 0 < i < |all|
      ensures ValidPieces(all[i].pieces) && Blanks(all[i].gap) && (i < |all| - 1 ==> all[i].gap != "")
    {
      assert all[i] == words[i - 1];
    }
  }

  /** Every line has a writing. */
  lemma EveryLineIsWritten(s: string) returns (l: Layout)
    ensures ValidLayout(l) && TextOf(l) == s
  {
    hide Written, Line, ValidWords, AllValid, ValidEnding, EndingWritten, Blanks;
    var lead, rest := SplitBlanks(s);
    var words, last, ending := SplitWords(rest);
    l := Layout(lead, words, last, ending);
  }

  ghost predicate WrittenSo(s: string, r: Result) {
    exists l :: ValidLayout(l) && TextOf(l) == s && MeaningOf(l) == r
  }

  /** A line splits into these words, or is told unclosed by this quote, exactly as it can be so written. */
  lemma SplitsIffWrittenSo(s: string, r: Result)
    ensures Finish(Run(s, START)) == r <==> WrittenSo(s, r)
  {
    hide Run, TextOf, MeaningOf, ValidLayout;
    if WrittenSo(s, r) {
      var l :| ValidLayout(l) && TextOf(l) == s && MeaningOf(l) == r;
      ReadsAsWritten(l);
    }
    var l := EveryLineIsWritten(s);
    ReadsAsWritten(l);
  }

  ghost predicate LeftOpen(s: string, quote: char) {
    exists l :: ValidLayout(l) && TextOf(l) == s
                && ((l.ending.OpenSingle? && quote == '\'') || (l.ending.OpenDouble? && quote == '"'))
  }

  /** A quote is told exactly where the line leaves it open, at a word's start or inside one. */
  lemma UnclosedQuoteIsTold(s: string, quote: char)
    ensures Finish(Run(s, START)) == Unclosed(quote) <==> LeftOpen(s, quote)
  {
    hide Run, TextOf, ValidLayout;
    SplitsIffWrittenSo(s, Unclosed(quote));
    if LeftOpen(s, quote) {
      var l :| ValidLayout(l) && TextOf(l) == s
               && ((l.ending.OpenSingle? && quote == '\'') || (l.ending.OpenDouble? && quote == '"'));
      assert MeaningOf(l) == Unclosed(quote);
    }
    if WrittenSo(s, Unclosed(quote)) {
      var l :| ValidLayout(l) && TextOf(l) == s && MeaningOf(l) == Unclosed(quote);
      assert l.ending.OpenSingle? || l.ending.OpenDouble?;
    }
  }

  // The characters that matter, one by one

  predicate Plain(w: string) {
    w != "" && forall c | c in w :: c != ' ' && c != '\t' && c != '\n' && c != '\'' && c != '"' && c != '\\'
  }

  lemma {:induction false} PlainPieces(w: string) returns (pieces: seq<Piece>)
    requires Plain(w)
    ensures ValidPieces(pieces) && Written(pieces) == w && Means(pieces) == w
  {
    assert w[0] in w && !Special(w[0]);
    assert w == [w[0]] + w[1..];
    if |w| == 1 {
      pieces := [];
      WrittenNothing();
    } else {
      forall c | c in w[1..] ensures c in w { }
      pieces := PlainPieces(w[1..]);
    }
    WrittenMore(Bare(w[0]), pieces);
    pieces := [Bare(w[0])] + pieces;
  }

  /** A space, a tab or a line end parts two words, and no other character of a plain one does. */
  lemma BlanksPart(a: string, blank: char, b: string)
    requires Plain(a) && Plain(b) && (blank == ' ' || blank == '\t' || blank == '\n')
    ensures Finish(Run(a + ([blank] + b), START)) == Ok([a, b])
    ensures Finish(Run(a, START)) == Ok([a])
  {
    hide Run, Written, Means, ValidPieces;
    var first := PlainPieces(a);
    var second := PlainPieces(b);
    var one, two := Word(first, [blank]), Word(second, "");
    TwoWords(one, two);
    SplitsWhatWasWritten("", [one, two]);
    assert "" + (a + ([blank] + b)) == a + ([blank] + b);
    OneWord(Word(first, ""));
    SplitsWhatWasWritten("", [Word(first, "")]);
    assert "" + a == a;
  }

  lemma OneWord(w: Word)
    requires ValidPieces(w.pieces) && w.gap == ""
    ensures ValidWords([w]) && Line([w]) == Written(w.pieces) && Meant([w]) == [Means(w.pieces)]
  {
    hide Written, Means;
    assert Line([w]) == Written(w.pieces) + "" + Line([]);
  }

  lemma TwoWords(one: Word, two: Word)
    requires ValidPieces(one.pieces) && ValidPieces(two.pieces) && one.gap != "" && Blanks(one.gap) && two.gap == ""
    ensures ValidWords([one, two]) && Line([one, two]) == Written(one.pieces) + (one.gap + Written(two.pieces))
    ensures Meant([one, two]) == [Means(one.pieces), Means(two.pieces)]
  {
    hide Written, Means, ValidPieces;
    assert [one, two][1..] == [two] && [two][1..] == [];
    assert Line([two]) == Written(two.pieces);
    assert Meant([two]) == [Means(two.pieces)];
  }

  /** In double quotes a backslash escapes a dollar, a backquote, a double quote, a backslash and a line
      end, and is itself before any other character. */
  lemma EscapesInDoubleQuotes(c: char)
    ensures Finish(Run("\"" + (['\\', c] + "\""), START)) ==
            if c == '$' || c == '`' || c == '"' || c == '\\' || c == '\n' then Ok([[c]]) else Ok([['\\', c]])
  {
    var escaped := c == '$' || c == '`' || c == '"' || c == '\\' || c == '\n';
    var items := if escaped then [Escape(c)] else [Literal('\\'), Literal(c)];
    WrittenItems(c);
    var st := START.(quote := '"', inWord := true);
    RunQuote('"', ['\\', c] + "\"", START);
    RunDouble(items, "", st);
    assert "\"" + "" == "\"" && "" + ItemsMean(items) == ItemsMean(items);
    RunNothing(st.(word := "" + ItemsMean(items), quote := NO_QUOTE));
  }

  lemma WrittenItems(c: char)
    ensures ItemsWritten([Escape(c)]) == ['\\', c] && ItemsMean([Escape(c)]) == [c] && ValidItems([Escape(c)]) == Escapable(c)
    ensures ItemsWritten([Literal('\\'), Literal(c)]) == ['\\', c] && ItemsMean([Literal('\\'), Literal(c)]) == ['\\', c]
    ensures !Escapable(c) ==> ValidItems([Literal('\\'), Literal(c)])
    ensures Escapable(c) <==> c == '$' || c == '`' || c == '"' || c == '\\' || c == '\n'
  {
    var two := [Literal('\\'), Literal(c)];
    assert two[1..] == [Literal(c)] && [Literal(c)][1..] == [] && [Escape(c)][1..] == [];
    var all := "$`\"\\\n";
    assert ValidItems([]);
    assert |all| == 5 && all[0] == '$' && all[1] == '`' && all[2] == '"' && all[3] == '\\' && all[4] == '\n';
    if !Escapable(c) { assert ValidItems([Literal(c)]); }
  }
}
