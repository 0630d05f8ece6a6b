/** The terminal filter that drops three capability queries from a stream cut anywhere into writes
    (internal/cliui/terminal_queries.go). */
module QueryFilter {
  type Bytes = seq<char>

  const ESC := '\U{001B}'
  const QUERIES: seq<Bytes> := [[ESC] + "[?2026$p", [ESC] + "[?2027$p", [ESC] + "[?u"]

  /** What the filter means: from left to right, a query is dropped whole, and any other byte kept. */
  function OneScan(s: Bytes): Bytes
  {
    if s == [] then []
    else if QUERIES[0] <= s then OneScan(s[|QUERIES[0]|..])
    else if QUERIES[1] <= s then OneScan(s[|QUERIES[1]|..])
    else if QUERIES[2] <= s then OneScan(s[|QUERIES[2]|..])
    else [s[0]] + OneScan(s[1..])
  }

  predicate StartsQuery(s: Bytes) {
    QUERIES[0] <= s || QUERIES[1] <= s || QUERIES[2] <= s
  }

  /** The next bytes may yet make this a query, or it is one. */
  predicate MayBecome(s: Bytes) {
    s <= QUERIES[0] || s <= QUERIES[1] || s <= QUERIES[2]
  }

  /** What may wait for the next write: nothing, or the start of a query that is not yet one. */
  predicate HeldBack(s: Bytes) {
    s == [] || (MayBecome(s) && !StartsQuery(s))
  }

  /** A stretch of the input: a byte kept, or a query dropped. */
  datatype Piece = Kept(byte: char) | Dropped(query: Bytes)

  function Input(pieces: seq<Piece>): Bytes {
    if pieces == [] then []
    else
      var last := pieces[|pieces| - 1];
      Input(pieces[..|pieces| - 1]) + (if last.Kept? then [last.byte] else last.query)
  }

  function Output(pieces: seq<Piece>): Bytes {
    if pieces == [] then []
    else
      var last := pieces[|pieces| - 1];
      Output(pieces[..|pieces| - 1]) + (if last.Kept? then [last.byte] else [])
  }

  /** Whatever comes next, one scan of it all gives out, then a scan of pending and what comes next. */
  ghost predicate Faithful(input: Bytes, out: Bytes, pending: Bytes) {
    forall rest: Bytes :: OneScan(input + rest) == out + OneScan(pending + rest)
  }

  /** The pieces and what is left of it make up the input; every byte not put out is of a query. */
  ghost predicate Accounted(input: Bytes, pieces: seq<Piece>, left: Bytes) {
    && Input(pieces) + left == input
    && (forall p | p in pieces && p.Dropped? :: p.query in QUERIES)
    && Faithful(input, Output(pieces), left)
  }

  /** The three queries: synchronized output, grapheme widths, and the keyboard's. */
  lemma TheQueries()
    ensures |QUERIES| == 3
    ensures QUERIES[0] == ['\U{001B}', '[', '?', '2', '0', '2', '6', '$', 'p']
    ensures QUERIES[1] == ['\U{001B}', '[', '?', '2', '0', '2', '7', '$', 'p']
    ensures QUERIES[2] == ['\U{001B}', '[', '?', 'u']
  {
  }

  /** No query starts another, nor holds one further in. */
  lemma QueriesApart()
    ensures forall i | 0 <= i < 3 :: |QUERIES[i]| >= 4 && QUERIES[i][0] == ESC && forall k | 1 <= k < |QUERIES[i]| :: QUERIES[i][k] != ESC
    ensures forall i, j | 0 <= i < 3 && 0 <= j < 3 && i != j :: !(QUERIES[i] <= QUERIES[j])
  {
    assert QUERIES[0][6] != QUERIES[1][6];
    assert QUERIES[0][3] != QUERIES[2][3];
    assert QUERIES[1][3] != QUERIES[2][3];
  }

  lemma PrefixOfLonger(q: Bytes, s: Bytes, rest: Bytes)
    ensures q <= s + rest ==> q <= s || s <= q
    ensures q <= s ==> q <= s + rest
  {
    if q <= s + rest {
      if |q| <= |s| { assert q == (s + rest)[..|q|] == s[..|q|]; } else { assert s == (s + rest)[..|s|] == q[..|s|]; }
    }
    if q <= s { assert (s + rest)[..|q|] == s[..|q|]; }
  }

  /** A query at the front is dropped, whatever follows. */
  lemma DropsFirst(q: nat, s: Bytes, rest: Bytes)
    requires q < 3 && QUERIES[q] <= s
    ensures OneScan(s + rest) == OneScan(s[|QUERIES[q]|..] + rest)
  {
    PrefixOfLonger(QUERIES[q], s, rest);
    forall j | 0 <= j < 3 && j != q ensures !(QUERIES[j] <= s + rest) {
      NotBoth(q, j, s + rest);
    }
    assert (s + rest)[|QUERIES[q]|..] == s[|QUERIES[q]|..] + rest;
  }

  lemma NotBoth(i: nat, j: nat, s: Bytes)
    requires i < 3 && j < 3 && i != j && QUERIES[i] <= s
    ensures !(QUERIES[j] <= s)
  {
    QueriesApart();
    Comparable(QUERIES[i], QUERIES[j], s);
  }

  lemma Comparable(p: Bytes, q: Bytes, s: Bytes)
    ensures p <= s && q <= s ==> p <= q || q <= p
  {
    if p <= s && q <= s {
      if |p| <= |q| { assert p == s[..|p|] == q[..|p|]; } else { assert q == s[..|q|] == p[..|q|]; }
    }
  }

  /** A byte that starts no query, nor may, is kept, whatever follows. */
  lemma KeepsFirst(s: Bytes, rest: Bytes)
    requires s != [] && !StartsQuery(s) && !MayBecome(s)
    ensures OneScan(s + rest) == [s[0]] + OneScan(s[1..] + rest)
  {
    PrefixOfLonger(QUERIES[0], s, rest);
    PrefixOfLonger(QUERIES[1], s, rest);
    PrefixOfLonger(QUERIES[2], s, rest);
    assert (s + rest)[1..] == s[1..] + rest;
  }

  /** What is pending at the end is no query, and holds none: it goes out as it is. */
  lemma {:induction false} PendingGoesOut(s: Bytes)
    requires HeldBack(s)
    ensures OneScan(s) == s
  {
    if s != [] {
      QueriesApart();
      NoEscape(s[1..]);
    }
  }

  lemma {:induction false} NoEscape(s: Bytes)
    requires forall k | 0 <= k < |s| :: s[k] != ESC
    ensures OneScan(s) == s
  {
    if s != [] {
      QueriesApart();
      NoEscape(s[1..]);
    }
  }

  function Concat(chunks: seq<Bytes>): Bytes {
    if chunks == [] then [] else Concat(chunks[..|chunks| - 1]) + chunks[|chunks| - 1]
  }

  /** What the terminal does with a write: takes all of it, or so many bytes, with an error or without. */
  datatype Answer = All | Part(n: nat, err: bool)

  class TerminalQueryWriter {
    var pending: Bytes
    var failed: bool          // a write failed or fell short; nothing more is written
    var written: Bytes        // what the terminal took
    ghost var flushed: Bytes  // what it had taken when last flushed
    ghost var input: Bytes    // what was written here since
    ghost var pieces: seq<Piece>

    ghost predicate Valid()
      reads this
    {
      && HeldBack(pending)
      && Accounted(input, pieces, pending)
      && written <= flushed + Output(pieces)
      && (!failed ==> written == flushed + Output(pieces))
    }

    constructor ()
      ensures Valid() && !failed && written == [] && input == [] && pending == [] && flushed == []
    {
      pending, failed, written := [], false, [];
      flushed, input, pieces := [], [], [];
    }

    method Put(p: Bytes, answer: Answer)
      modifies this`written, this`failed
      ensures old(failed) || p == [] ==> failed == old(failed) && written == old(written)
      ensures !old(failed) && p != [] && answer.All? ==> !failed && written == old(written) + p
      ensures !old(failed) && p != [] && answer.Part? && answer.n <= |p| ==>
        && written == old(written) + p[..answer.n]
        && failed == (answer.err || answer.n < |p|)
      ensures !failed ==> written == old(written) + p
      ensures old(written) <= written <= old(written) + p
    {
      if p == [] || failed { return; }
      var n := if answer.All? || answer.n > |p| then |p| else answer.n;
      written := written + p[..n];
      failed := (answer.Part? && answer.err) || n < |p|;
    }

    /** Takes p, all of it unless a write failed before: drops the queries complete by now, holds back
        what may yet become one, and puts out the rest. */
    method Write(p: Bytes, answer: Answer) returns (n: nat)
      requires Valid()
      modifies this
      ensures Valid() && flushed == old(flushed)
      ensures old(failed) ==> n == 0 && failed && written == old(written) && input == old(input)
      ensures !old(failed) ==> n == |p| && input == old(input) + p
      ensures answer.All? ==> failed == old(failed)
      ensures old(pieces) <= pieces && old(written) <= written
    {
      hide OneScan, Accounted, Output, HeldBack, StartsQuery, MayBecome;
      if failed { return 0; }
      var data := pending + p;
      AccountedWithMore(input, pieces, pending, p);
      pending := [];
      var output: Bytes := [];
      ghost var before := pieces;
      input := input + p;
      NothingHeldBack();
      assert before <= pieces && Output(pieces) == Output(before) + output;
      while data != []
        invariant input == old(input) + p && flushed == old(flushed) && written == old(written) && !failed
        invariant if data == [] then HeldBack(pending) else pending == []
        invariant before <= pieces && Output(pieces) == Output(before) + output
        invariant Accounted(input, pieces, if data == [] then pending else data)
        decreases |data|
      {
        var query, incomplete := Look(data);
        if query != [] {
          Drop(input, pieces, data, query);
          pieces := pieces + [Dropped(query)];
          data := data[|query|..];
          assert data == [] ==> pending == data;
        } else if incomplete {
          assert HeldBack(data) by { HoldsBack(data); }
          pending := data;
          data := [];
        } else {
          Keep(input, pieces, data);
          pieces := pieces + [Kept(data[0])];
          output := output + [data[0]];
          data := data[1..];
          assert data == [] ==> pending == data;
        }
      }
      Put(output, answer);
      n := |p|;
    }

    /** Puts out what was held back: by now, one scan of all that was written here. */
    method Flush(answer: Answer)
      requires Valid()
      modifies this
      ensures Valid() && pending == [] && input == [] && flushed == written
      ensures old(failed) ==> failed
      ensures answer.All? ==> failed == old(failed)
      ensures !failed ==> written == old(flushed) + OneScan(old(input))
      ensures written <= old(flushed) + OneScan(old(input))
    {
      hide OneScan, Accounted, Output, HeldBack, StartsQuery, MayBecome;
      ScanAtTheEnd(input, pieces, pending);
      Put(pending, answer);
      pending, flushed, input, pieces := [], written, [], [];
      NothingYet();
      NothingHeldBack();
      assert flushed + [] == flushed;
    }
  }

  /** A query the data starts with, else whether more of it may make one. */
  method Look(data: Bytes) returns (query: Bytes, incomplete: bool)
    requires data != []
    ensures query != [] ==> query in QUERIES && query <= data
    ensures query == [] ==> !StartsQuery(data) && (incomplete <==> MayBecome(data))
  {
    QueriesApart();
    incomplete := false;
    for i := 0 to 3
      invariant forall j | 0 <= j < i :: !(QUERIES[j] <= data)
      invariant incomplete <==> exists j | 0 <= j < i :: data <= QUERIES[j]
    {
      if QUERIES[i] <= data { return QUERIES[i], incomplete; }
      if data <= QUERIES[i] { incomplete := true; }
    }
    query := [];
  }

  lemma NothingHeldBack()
    ensures HeldBack([])
  {
  }

  lemma HoldsBack(s: Bytes)
    requires MayBecome(s) && !StartsQuery(s)
    ensures HeldBack(s)
  {
  }

  lemma NothingYet()
    ensures Accounted([], [], []) && Output([]) == []
  {
  }

  /** What is pending and what is written next are looked at together. */
  lemma AccountedWithMore(input: Bytes, pieces: seq<Piece>, pending: Bytes, p: Bytes)
    requires Accounted(input, pieces, pending)
    ensures Accounted(input + p, pieces, pending + p)
  {
    hide OneScan, Input, Output;
    forall rest: Bytes ensures OneScan(input + p + rest) == Output(pieces) + OneScan(pending + p + rest) {
      assert input + p + rest == input + (p + rest) && pending + p + rest == pending + (p + rest);
    }
  }

  lemma Drop(input: Bytes, pieces: seq<Piece>, data: Bytes, query: Bytes)
    requires query in QUERIES && query <= data && Accounted(input, pieces, data)
    ensures Accounted(input, pieces + [Dropped(query)], data[|query|..])
    ensures Output(pieces + [Dropped(query)]) == Output(pieces) && |query| > 0
  {
    hide OneScan, Input, Output;
    QueriesApart();
    MorePieces(pieces, Dropped(query));
    assert query + data[|query|..] == data;
    forall rest: Bytes ensures OneScan(input + rest) == Output(pieces) + OneScan(data[|query|..] + rest) {
      var q: nat :| q < 3 && QUERIES[q] == query;
      DropsFirst(q, data, rest);
    }
  }

  lemma Keep(input: Bytes, pieces: seq<Piece>, data: Bytes)
    requires data != [] && !StartsQuery(data) && !MayBecome(data) && Accounted(input, pieces, data)
    ensures Accounted(input, pieces + [Kept(data[0])], data[1..])
    ensures Output(pieces + [Kept(data[0])]) == Output(pieces) + [data[0]]
  {
    hide OneScan, Input, Output;
    MorePieces(pieces, Kept(data[0]));
    assert [data[0]] + data[1..] == data;
    forall rest: Bytes ensures OneScan(input + rest) == Output(pieces) + [data[0]] + OneScan(data[1..] + rest) {
      KeepsFirst(data, rest);
    }
  }

  lemma MorePieces(pieces: seq<Piece>, p: Piece)
    ensures Input(pieces + [p]) == Input(pieces) + (if p.Kept? then [p.byte] else p.query)
    ensures Output(pieces + [p]) == Output(pieces) + (if p.Kept? then [p.byte] else [])
  {
    assert (pieces + [p])[..|pieces|] == pieces;
  }

  /** At the end of the input, the output and what is pending are one scan of it. */
  lemma ScanAtTheEnd(input: Bytes, pieces: seq<Piece>, pending: Bytes)
    requires Accounted(input, pieces, pending) && HeldBack(pending)
    ensures OneScan(input) == Output(pieces) + pending
  {
    hide OneScan;
    assert OneScan(input + []) == Output(pieces) + OneScan(pending + []);
    assert input + [] == input && pending + [] == pending;
    PendingGoesOut(pending);
  }

  /** However a stream is cut into writes, what comes out is one scan of it all, if no write fails; and
      the start of that, if one does. */
  method Stream(chunks: seq<Bytes>, answers: seq<Answer>) returns (w: TerminalQueryWriter)
    requires |answers| == |chunks| + 1
    ensures (forall a | a in answers :: a.All?) ==> !w.failed
    ensures fresh(w) && w.Valid()
    ensures !w.failed ==> w.written == OneScan(Concat(chunks))
    ensures w.failed ==> exists k | 0 <= k <= |chunks| :: w.written <= OneScan(Concat(chunks[..k]))
  {
    hide OneScan, Accounted, Output, HeldBack;
    w := new TerminalQueryWriter();
    ghost var taken := 0;
    for i := 0 to |chunks|
      invariant fresh(w) && w.Valid() && w.flushed == []
      invariant 0 <= taken <= i && w.input == Concat(chunks[..taken])
      invariant !w.failed ==> taken == i
      invariant (forall a | a in answers :: a.All?) ==> !w.failed
    {
      if !w.failed {
        assert chunks[..i + 1][..i] == chunks[..i];
        taken := i + 1;
      }
      var _ := w.Write(chunks[i], answers[i]);
    }
    assert chunks[..|chunks|] == chunks;
    assert [] + OneScan(Concat(chunks[..taken])) == OneScan(Concat(chunks[..taken]));
    w.Flush(answers[|chunks|]);
  }

  /** A stream that holds no query comes out unchanged. */
  lemma {:induction false} WithoutQueriesUnchanged(s: Bytes)
    requires forall k | 0 <= k <= |s| :: !StartsQuery(s[k..])
    ensures OneScan(s) == s
  {
    if s != [] {
      assert s[0..] == s;
      forall k | 0 <= k <= |s[1..]| ensures !StartsQuery(s[1..][k..]) { assert s[1..][k..] == s[1 + k..]; }
      WithoutQueriesUnchanged(s[1..]);
    }
  }

  /** The query a scan would drop here; none is empty. */
  function QueryAt(s: Bytes): (q: Bytes)
    ensures q <= s
  {
    if QUERIES[0] <= s then QUERIES[0] else if QUERIES[1] <= s then QUERIES[1] else if QUERIES[2] <= s then QUERIES[2] else []
  }

  /** From here the input has q's bytes in order, with nothing but whole queries between them. */
  predicate Spells(s: Bytes, q: Bytes)
    decreases |s|
  {
    if q == [] then true
    else if s == [] then false
    else if QueryAt(s) != [] then Spells(s[|QueryAt(s)|..], q)
    else s[0] == q[0] && Spells(s[1..], q[1..])
  }

  /** Somewhere outside the queries dropped, the input so spells a query. */
  predicate SplicesSome(s: Bytes)
    decreases |s|
  {
    if s == [] then false
    else if QueryAt(s) != [] then SplicesSome(s[|QueryAt(s)|..])
    else Spells(s, QUERIES[0]) || Spells(s, QUERIES[1]) || Spells(s, QUERIES[2]) || SplicesSome(s[1..])
  }

  lemma ScanStep(s: Bytes)
    requires s != []
    ensures QueryAt(s) != [] ==> OneScan(s) == OneScan(s[|QueryAt(s)|..])
    ensures QueryAt(s) == [] ==> OneScan(s) == [s[0]] + OneScan(s[1..])
  {
  }

  lemma {:induction false} SpellsWhatComesOut(s: Bytes, q: Bytes)
    ensures Spells(s, q) <==> q <= OneScan(s)
    decreases |s|
  {
    hide OneScan, QueryAt;
    if s == [] {
      assert OneScan([]) == [] by { ScanOfNothing(); }
    } else {
      ScanStep(s);
      if QueryAt(s) != [] {
        SpellsWhatComesOut(s[|QueryAt(s)|..], q);
      } else if q != [] {
        SpellsWhatComesOut(s[1..], q[1..]);
        assert q == [q[0]] + q[1..];
        PrefixAfterFirst(q, s[0], OneScan(s[1..]));
      }
    }
  }

  lemma ScanOfNothing()
    ensures OneScan([]) == []
  {
  }

  lemma PrefixAfterFirst(q: Bytes, b: char, rest: Bytes)
    requires q != []
    ensures q <= [b] + rest <==> q[0] == b && q[1..] <= rest
  {
    if q[0] == b && q[1..] <= rest { assert q == [b] + rest[..|q| - 1]; }
  }

  ghost predicate HoldsQuery(s: Bytes) {
    exists k | 0 <= k <= |s| :: StartsQuery(s[k..])
  }

  lemma HoldsQueryStep(b: char, rest: Bytes)
    ensures HoldsQuery([b] + rest) <==> StartsQuery([b] + rest) || HoldsQuery(rest)
  {
    hide StartsQuery;
    var s := [b] + rest;
    assert s[0..] == s;
    forall k | 0 <= k <= |rest| ensures s[k + 1..] == rest[k..] { }
    if HoldsQuery(rest) {
      var k :| 0 <= k <= |rest| && StartsQuery(rest[k..]);
      assert StartsQuery(s[k + 1..]);
    }
    if HoldsQuery(s) {
      var k :| 0 <= k <= |s| && StartsQuery(s[k..]);
      if k > 0 { assert s[k..] == rest[k - 1..]; }
    }
  }

  /** What comes out holds a query if and only if the input spells one around the queries dropped. */
  lemma {:induction false} HoldsQueryIffSpliced(s: Bytes)
    ensures HoldsQuery(OneScan(s)) <==> SplicesSome(s)
    decreases |s|
  {
    hide OneScan, QueryAt, Spells, HoldsQuery;
    if s == [] {
      ScanOfNothing();
      NoQueryInNothing();
    } else {
      ScanStep(s);
      if QueryAt(s) != [] {
        HoldsQueryIffSpliced(s[|QueryAt(s)|..]);
      } else {
        HoldsQueryIffSpliced(s[1..]);
        HoldsQueryStep(s[0], OneScan(s[1..]));
        SpellsWhatComesOut(s, QUERIES[0]);
        SpellsWhatComesOut(s, QUERIES[1]);
        SpellsWhatComesOut(s, QUERIES[2]);
      }
    }
  }

  lemma NoQueryInNothing()
    ensures !HoldsQuery([])
  {
  }

  /** For instance: dropping a query between the ends of another joins them. */
  lemma DroppingMayJoinAQuery()
    ensures OneScan(QUERIES[2][..3] + QUERIES[2] + QUERIES[2][3..]) == QUERIES[2]
    ensures SplicesSome(QUERIES[2][..3] + QUERIES[2] + QUERIES[2][3..])
  {
    hide OneScan, SplicesSome, HoldsQuery;
    QueriesApart();
    var q := QUERIES[2];
    var s0 := [ESC, '[', '?', ESC];
    var s1, s2, rest := s0[1..], s0[2..], ['[', '?', 'u', 'u'];
    assert q[..3] + q + q[3..] == s0 + rest;
    assert QUERIES[0][3] != ESC && QUERIES[1][3] != ESC && QUERIES[2][3] != ESC;
    assert s0[3] == ESC && s1[0] == '[' && s2[0] == '?';
    KeepsFirst(s0, rest);
    KeepsFirst(s1, rest);
    assert s1[1..] == s2;
    KeepsFirst(s2, rest);
    assert s2[1..] + rest == q + ['u'];
    DropsFirst(2, q, ['u']);
    assert q[4..] + ['u'] == ['u'];
    NoEscape(['u']);
    assert q == [ESC, '[', '?', 'u'];
    QueryHeld(q);
    HoldsQueryIffSpliced(q[..3] + q + q[3..]);
  }

  lemma QueryHeld(q: Bytes)
    requires q in QUERIES
    ensures HoldsQuery(q)
  {
    assert StartsQuery(q[0..]);
  }
}
