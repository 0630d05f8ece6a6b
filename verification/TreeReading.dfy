/** What a drawn tree says, read back: the paths drawn, each as often, and no folder line with a single
    entry (internal/pretty/pretty.go). */
module TreeReading {
  import opened SortedNames
  import opened FileTree
  import opened TreeDrawing

  /** The paths of a folder from its i-th entry on, as its lines list them. */
  ghost function Listing(n: Node, i: nat, base: Path): seq<Path>
    decreases n, |Entries(n)| - i
  {
    if i >= |Entries(n)| then []
    else EntryListing(n, i, base) + Listing(n, i + 1, base)
  }

  ghost function EntryListing(n: Node, i: nat, base: Path): seq<Path>
    requires i < |Entries(n)|
    decreases n, |Entries(n)| - i, 0
  {
    match Entries(n)[i]
    case File(path) => [base + path]
    case Dir(path, node) => Listing(node, 0, base + path)
  }

  /** Below a line's depth, the folders last seen do not matter to it. */
  lemma ReadSame(rows: seq<Row>, a: seq<Path>, b: seq<Path>)
    requires rows == [] || (rows[0].depth <= |a| && rows[0].depth <= |b| && a[..rows[0].depth] == b[..rows[0].depth])
    ensures ReadPaths(rows, a) == ReadPaths(rows, b)
  {
    if rows != [] && rows[0].depth > 0 {
      var d := rows[0].depth;
      assert a[d - 1] == a[..d][d - 1] == b[..d][d - 1] == b[d - 1];
    }
  }

  lemma FirstDepth(n: Node, i: nat, depth: nat, tail: seq<Row>)
    requires tail == [] || tail[0].depth <= depth
    ensures var rows := Rows(n, i, depth) + tail; rows == [] || rows[0].depth <= depth
  {
  }

  /** Rows read back as the listing they were drawn from. */
  lemma {:induction false} RowsReadBack(n: Node, i: nat, depth: nat, stack: seq<Path>, tail: seq<Row>)
    requires depth <= |stack| && (tail == [] || tail[0].depth <= depth)
    ensures ReadPaths(Rows(n, i, depth) + tail, stack) == Listing(n, i, Base(stack, depth)) + ReadPaths(tail, stack)
    decreases n, |Entries(n)| - i
  {
    hide Entries, Rows, ReadPaths;
    RowsStep(n, i, depth);
    if i >= |Entries(n)| {
      assert Rows(n, i, depth) + tail == tail;
    } else {
      var rest := Rows(n, i + 1, depth) + tail;
      FirstDepth(n, i + 1, depth, tail);
      RowsReadBack(n, i + 1, depth, stack, tail);
      EntryReadsBack(n, i, depth, stack, rest);
      assert Rows(n, i, depth) + tail == EntryRows(n, i, depth) + rest;
    }
  }

  lemma {:induction false} EntryReadsBack(n: Node, i: nat, depth: nat, stack: seq<Path>, rest: seq<Row>)
    requires i < |Entries(n)| && depth <= |stack| && (rest == [] || rest[0].depth <= depth)
    ensures ReadPaths(EntryRows(n, i, depth) + rest, stack) == EntryListing(n, i, Base(stack, depth)) + ReadPaths(rest, stack)
    decreases n, |Entries(n)| - i, 0
  {
    hide Entries, Rows, Listing;
    var e := Entries(n)[i];
    var row, path := Row(depth, e.path, e.Dir?), Base(stack, depth) + e.path;
    var more := if e.Dir? then Rows(e.node, 0, depth + 1) + rest else rest;
    assert EntryRows(n, i, depth) + rest == [row] + more;
    assert ([row] + more)[1..] == more;
    var next := stack[..depth] + (if e.Dir? then [path] else []);
    assert stack[..depth] + [] == stack[..depth];
    assert rest != [] ==> next[..rest[0].depth] == stack[..rest[0].depth];
    ReadSame(rest, next, stack);
    if e.Dir? {
      assert Base(next, depth + 1) == path;
      RowsReadBack(e.node, 0, depth + 1, next, rest);
    }
  }

  /** A listing has each path as often as the folder does. */
  lemma {:induction false} ListingCounts(n: Node, i: nat, base: Path, x: Path)
    requires i <= |Entries(n)|
    ensures multiset(Listing(n, i, base))[x] == if base <= x then AllHold(Entries(n)[i..], x[|base|..]) else 0
    decreases n, |Entries(n)| - i
  {
    hide Entries, AllHold, Holds;
    HoldsFrom(n, i, if base <= x then x[|base|..] else []);
    if i < |Entries(n)| {
      ListingCounts(n, i + 1, base, x);
      EntryCounts(n, i, base, x);
    }
  }

  lemma HoldsFrom(n: Node, i: nat, p: Path)
    requires i <= |Entries(n)|
    ensures i == |Entries(n)| ==> AllHold(Entries(n)[i..], p) == 0
    ensures i < |Entries(n)| ==> AllHold(Entries(n)[i..], p) == Holds(Entries(n)[i], p) + AllHold(Entries(n)[i + 1..], p)
  {
    hide Entries, Holds;
    if i < |Entries(n)| { assert Entries(n)[i..][1..] == Entries(n)[i + 1..]; }
  }

  lemma {:induction false} EntryCounts(n: Node, i: nat, base: Path, x: Path)
    requires i < |Entries(n)|
    ensures multiset(EntryListing(n, i, base))[x] == if base <= x then Holds(Entries(n)[i], x[|base|..]) else 0
    decreases n, |Entries(n)| - i, 0
  {
    hide Entries, AllHold, Listing;
    var e := Entries(n)[i];
    PrefixOfBoth(base, e.path, x);
    if e.Dir? {
      ListingCounts(e.node, 0, base + e.path, x);
      assert Entries(e.node)[0..] == Entries(e.node);
      if base + e.path <= x { EntriesHold(e.node, x[|base + e.path|..]); }
    }
  }

  lemma PrefixOfBoth(base: Path, path: Path, x: Path)
    ensures base + path <= x <==> base <= x && path <= x[|base|..]
    ensures base + path == x <==> base <= x && path == x[|base|..]
    ensures base + path <= x ==> x[|base + path|..] == x[|base|..][|path|..]
  {
    if base <= x { assert x == base + x[|base|..]; }
    if base + path <= x {
      assert base == (base + path)[..|base|] == x[..|base|];
      assert path == (base + path)[|base|..] == x[|base|..][..|path|];
    }
  }

  /** How many of these rows are a folder's own, at this depth, before the folder ends. */
  function Under(rows: seq<Row>, depth: nat): nat {
    if rows == [] || rows[0].depth < depth then 0
    else (if rows[0].depth == depth then 1 else 0) + Under(rows[1..], depth)
  }

  /** Every folder's row has two rows or more of its own under it. */
  predicate Branches(rows: seq<Row>) {
    rows == [] || ((rows[0].folder ==> Under(rows[1..], rows[0].depth + 1) >= 2) && Branches(rows[1..]))
  }

  /** A folder has as many rows of its own as it has entries. */
  lemma {:induction false} RowsUnder(n: Node, i: nat, depth: nat, at: nat, tail: seq<Row>)
    requires at <= depth && i <= |Entries(n)|
    ensures Under(Rows(n, i, depth) + tail, at) == (if at == depth then |Entries(n)| - i else 0) + Under(tail, at)
    decreases n, |Entries(n)| - i
  {
    hide Entries, Rows;
    RowsStep(n, i, depth);
    if i == |Entries(n)| {
      assert Rows(n, i, depth) + tail == tail;
    } else {
      var e := Entries(n)[i];
      var rest := Rows(n, i + 1, depth) + tail;
      var more := if e.Dir? then Rows(e.node, 0, depth + 1) + rest else rest;
      assert Rows(n, i, depth) + tail == [Row(depth, e.path, e.Dir?)] + more;
      assert ([Row(depth, e.path, e.Dir?)] + more)[1..] == more;
      if e.Dir? { RowsUnder(e.node, 0, depth + 1, at, rest); }
      RowsUnder(n, i + 1, depth, at, tail);
    }
  }

  lemma {:induction false} RowsBranch(n: Node, i: nat, depth: nat, tail: seq<Row>)
    requires Whole(n) && Branches(tail)
    ensures Branches(Rows(n, i, depth) + tail)
    decreases n, |Entries(n)| - i
  {
    hide Entries, Rows, Whole;
    RowsStep(n, i, depth);
    if i >= |Entries(n)| {
      assert Rows(n, i, depth) + tail == tail;
    } else {
      var e := Entries(n)[i];
      var rest := Rows(n, i + 1, depth) + tail;
      var more := if e.Dir? then Rows(e.node, 0, depth + 1) + rest else rest;
      EntriesPlain(n, i);
      RowsBranch(n, i + 1, depth, tail);
      if e.Dir? {
        RowsBranch(e.node, 0, depth + 1, rest);
        RowsUnder(e.node, 0, depth + 1, depth + 1, rest);
        EntriesInOrder(e.node);
      }
      assert Rows(n, i, depth) + tail == [Row(depth, e.path, e.Dir?)] + more;
      assert ([Row(depth, e.path, e.Dir?)] + more)[1..] == more;
    }
  }

  /** Of paths whose names are not empty, the tree drawn reads back as those paths, each as often; and
      no folder's line has a single entry under it. */
  lemma TreeReadsBack(paths: seq<string>, utf8: bool)
    requires forall i | 0 <= i < |paths| :: PlainPath(Split(paths[i]))
    ensures var rows := ReadLines(Drawn(Build(Parted(paths)), 0, "", ColumnsOf(utf8)), ColumnsOf(utf8));
            multiset(ReadPaths(rows, [])) == multiset(Parted(paths)) && Branches(rows)
  {
    hide *;
    var n := Build(Parted(paths));
    assert Whole(n) && forall x :: Count(n, x) == multiset(Parted(paths))[x] by { PartedHoldsAll(paths); }
    var rows := Rows(n, 0, 0);
    assert Leads("", 0, ColumnsOf(utf8)) by { NoLead(ColumnsOf(utf8)); }
    ReadDrawn(n, 0, "", 0, utf8);
    assert rows + [] == rows;
    NothingToRead();
    RowsBranch(n, 0, 0, []);
    RowsReadBack(n, 0, 0, [], []);
    var listing := Listing(n, 0, []);
    forall x ensures multiset(listing)[x] == multiset(Parted(paths))[x] {
      ListingCounts(n, 0, [], x);
      EntriesHold(n, x);
      assert Entries(n)[0..] == Entries(n) && x[0..] == x && [] <= x;
    }
    SameMultiset(listing, Parted(paths));
    assert listing + [] == listing;
  }

  lemma SameMultiset(a: seq<Path>, b: seq<Path>)
    requires forall x :: multiset(a)[x] == multiset(b)[x]
    ensures multiset(a) == multiset(b)
  {
  }

  lemma PartedHoldsAll(paths: seq<string>)
    requires forall i | 0 <= i < |paths| :: PlainPath(Split(paths[i]))
    ensures Whole(Build(Parted(paths))) && forall x :: Count(Build(Parted(paths)), x) == multiset(Parted(paths))[x]
  {
    hide Whole, Build, Count;
    forall x ensures Whole(Build(Parted(paths))) && Count(Build(Parted(paths)), x) == multiset(Parted(paths))[x] {
      BuildHoldsAll(Parted(paths), x);
    }
    BuildHoldsAll(Parted(paths), []);
  }

  lemma NoLead(c: Columns)
    ensures Leads("", 0, c)
  {
  }

  lemma NothingToRead()
    ensures ReadPaths([], []) == [] && Base([], 0) == [] && Branches([])
  {
  }

  // What the columns draw

  /** The four characters of a line's j-th column. */
  function Column(line: string, j: nat): string
    requires |line| >= 4 * (j + 1)
  {
    line[4 * j..4 * j + 4]
  }

  /** A column left of a line's names shows whether more comes at its depth: the pipe and the branch are
      where a later row continues that folder, the blank and the last mark where none does. */
  predicate ColumnsShow(line: string, depth: nat, after: seq<Row>, c: Columns) {
    && |line| >= 4 * (depth + 1)
    && (forall j: nat | j < depth :: Column(line, j) == if Under(after, j) > 0 then c.pipe else BLANK)
    && Column(line, depth) == if Under(after, depth) > 0 then c.branch else c.last
  }

  predicate Ruled(lines: seq<string>, rows: seq<Row>, c: Columns)
    requires |lines| <= |rows|
  {
    lines == [] || (ColumnsShow(lines[0], rows[0].depth, rows[1..], c) && Ruled(lines[1..], rows[1..], c))
  }

  predicate PrefixShows(prefix: string, depth: nat, after: seq<Row>, c: Columns) {
    && |prefix| == 4 * depth
    && forall j: nat | j < depth :: Column(prefix, j) == if Under(after, j) > 0 then c.pipe else BLANK
  }

  lemma {:induction false} RuledConcat(a: seq<string>, b: seq<string>, rows: seq<Row>, rest: seq<Row>, c: Columns)
    requires |a| == |rows| && |b| <= |rest|
    requires Ruled(a, rows + rest, c) && Ruled(b, rest, c)
    ensures Ruled(a + b, rows + rest, c)
  {
    hide ColumnsShow;
    if a == [] {
      assert a + b == b && rows + rest == rest;
    } else {
      assert (rows + rest)[1..] == rows[1..] + rest && (a + b)[1..] == a[1..] + b;
      RuledConcat(a[1..], b, rows[1..], rest, c);
    }
  }

  lemma LineShows(prefix: string, mark: string, name: string, depth: nat, after: seq<Row>, c: Columns)
    requires PrefixShows(prefix, depth, after, c) && |mark| == 4
    requires mark == if Under(after, depth) > 0 then c.branch else c.last
    ensures ColumnsShow(prefix + mark + name, depth, after, c)
  {
    var line := prefix + mark + name;
    forall j: nat | j < depth ensures Column(line, j) == Column(prefix, j) {
    }
    assert Column(line, depth) == mark;
  }

  lemma PrefixShowsMore(prefix: string, column: string, depth: nat, after: seq<Row>, c: Columns)
    requires PrefixShows(prefix, depth, after, c) && |column| == 4
    requires column == if Under(after, depth) > 0 then c.pipe else BLANK
    ensures PrefixShows(prefix + column, depth + 1, after, c)
  {
    forall j: nat | j < depth ensures Column(prefix + column, j) == Column(prefix, j) {
    }
    assert Column(prefix + column, depth) == column;
  }

  lemma PrefixShowsSame(prefix: string, depth: nat, after: seq<Row>, tail: seq<Row>, c: Columns)
    requires PrefixShows(prefix, depth, tail, c) && forall j: nat | j < depth :: Under(after, j) == Under(tail, j)
    ensures PrefixShows(prefix, depth, after, c)
  {
  }

  lemma {:induction false} DrawnRuled(n: Node, i: nat, prefix: string, depth: nat, tail: seq<Row>, utf8: bool)
    requires PrefixShows(prefix, depth, tail, ColumnsOf(utf8)) && Under(tail, depth) == 0 && i <= |Entries(n)|
    requires tail == [] || tail[0].depth <= depth
    ensures |Drawn(n, i, prefix, ColumnsOf(utf8))| == |Rows(n, i, depth)|
    ensures Ruled(Drawn(n, i, prefix, ColumnsOf(utf8)), Rows(n, i, depth) + tail, ColumnsOf(utf8))
    decreases n, |Entries(n)| - i
  {
    hide Entries, Rows, Drawn, Under, PrefixShows, ColumnsShow, Shown, ColumnsOf;
    var c := ColumnsOf(utf8);
    RowsStep(n, i, depth);
    DrawnStep(n, i, prefix, c);
    if i < |Entries(n)| {
      var rest := Rows(n, i + 1, depth) + tail;
      DrawnRuled(n, i + 1, prefix, depth, tail, utf8);
      EntryRuled(n, i, prefix, depth, tail, utf8);
      RuledConcat(EntryDrawn(n, i, prefix, c), Drawn(n, i + 1, prefix, c), EntryRows(n, i, depth), rest, c);
      assert Rows(n, i, depth) + tail == EntryRows(n, i, depth) + rest;
    }
  }

  lemma {:induction false} EntryRuled(n: Node, i: nat, prefix: string, depth: nat, tail: seq<Row>, utf8: bool)
    requires i < |Entries(n)| && PrefixShows(prefix, depth, tail, ColumnsOf(utf8)) && Under(tail, depth) == 0
    requires tail == [] || tail[0].depth <= depth
    ensures |EntryDrawn(n, i, prefix, ColumnsOf(utf8))| == |EntryRows(n, i, depth)|
    ensures Ruled(EntryDrawn(n, i, prefix, ColumnsOf(utf8)), EntryRows(n, i, depth) + (Rows(n, i + 1, depth) + tail), ColumnsOf(utf8))
    decreases n, |Entries(n)| - i, 0
  {
    hide Entries, Rows, Drawn, Under, PrefixShows, ColumnsShow, Shown, ColumnsOf;
    var c, e := ColumnsOf(utf8), Entries(n)[i];
    MarksApart(c, utf8);
    var rest := Rows(n, i + 1, depth) + tail;
    FirstDepth(n, i + 1, depth, tail);
    RestUnder(n, i + 1, depth, tail);
    PrefixShowsSame(prefix, depth, rest, tail, c);
    var last := i == |Entries(n)| - 1;
    var mark, next := if last then c.last else c.branch, if last then BLANK else c.pipe;
    var row, line := Row(depth, e.path, e.Dir?), prefix + mark + Shown(e.path, e.Dir?);
    var under, lines := [], [];
    if e.Dir? {
      under, lines := Rows(e.node, 0, depth + 1), Drawn(e.node, 0, prefix + next, c);
      PrefixShowsMore(prefix, next, depth, rest, c);
      NothingDeeper(rest, depth + 1);
      DrawnRuled(e.node, 0, prefix + next, depth + 1, rest, utf8);
      RestUnder(e.node, 0, depth + 1, rest);
    }
    assert [] + rest == rest;
    assert Ruled(lines, under + rest, c);
    PrefixShowsSame(prefix, depth, under + rest, rest, c);
    LineShows(prefix, mark, Shown(e.path, e.Dir?), depth, under + rest, c);
    assert EntryRows(n, i, depth) + rest == [row] + (under + rest);
    assert ([row] + (under + rest))[1..] == under + rest && ([line] + lines)[1..] == lines;
    assert EntryDrawn(n, i, prefix, c) == [line] + lines;
  }

  lemma RestUnder(n: Node, i: nat, depth: nat, tail: seq<Row>)
    requires i <= |Entries(n)|
    ensures forall j: nat | j < depth :: Under(Rows(n, i, depth) + tail, j) == Under(tail, j)
    ensures Under(Rows(n, i, depth) + tail, depth) == |Entries(n)| - i + Under(tail, depth)
  {
    hide *;
    forall j: nat | j <= depth ensures Under(Rows(n, i, depth) + tail, j) == (if j == depth then |Entries(n)| - i else 0) + Under(tail, j) {
      RowsUnder(n, i, depth, j, tail);
    }
  }

  lemma NothingDeeper(rows: seq<Row>, depth: nat)
    requires rows == [] || rows[0].depth < depth
    ensures Under(rows, depth) == 0
  {
  }

  /** Every column of every line of the tree shows whether more comes at its depth. */
  lemma TreeIsRuled(paths: seq<string>, utf8: bool)
    ensures var n := Build(Parted(paths));
            var lines := Drawn(n, 0, "", ColumnsOf(utf8));
            |lines| == |Rows(n, 0, 0)| && Ruled(lines, Rows(n, 0, 0), ColumnsOf(utf8))
  {
    hide Drawn, Rows, Ruled, Build;
    var n := Build(Parted(paths));
    assert Rows(n, 0, 0) + [] == Rows(n, 0, 0);
    DrawnRuled(n, 0, "", 0, [], utf8);
  }
}
