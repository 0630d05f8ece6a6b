/** A tree of paths drawn in lines, and the lines read back (internal/pretty/pretty.go). */
module TreeDrawing {
  import opened SortedNames
  import opened FileTree

  /** The four-character columns: before a line's names, and under a line before the last or the last. */
  datatype Columns = Columns(branch: string, last: string, pipe: string)

  const UTF8 := Columns("├── ", "└── ", "│   ")
  const ASCII := Columns("|-- ", "`-- ", "|   ")
  const BLANK := "    "

  function ColumnsOf(utf8: bool): Columns { if utf8 then UTF8 else ASCII }

  /** Outside UTF-8, only ASCII is drawn; in it, the box-drawing characters. */
  lemma Glyphs()
    ensures ColumnsOf(true).branch == ['├', '─', '─', ' '] && ColumnsOf(true).last == ['└', '─', '─', ' ']
    ensures ColumnsOf(true).pipe == ['│', ' ', ' ', ' '] && BLANK == [' ', ' ', ' ', ' ']
    ensures ColumnsOf(false).branch == ['|', '-', '-', ' '] && ColumnsOf(false).last == ['`', '-', '-', ' ']
    ensures ColumnsOf(false).pipe == ['|', ' ', ' ', ' ']
  {
  }

  /** The names on an entry's line; a folder's end in a slash. */
  function Shown(path: Path, folder: bool): string
    requires path != []
  {
    if folder then Join(path) + "/" else Join(path)
  }

  /** A folder's lines from its i-th entry on. */
  ghost function Drawn(n: Node, i: nat, prefix: string, c: Columns): seq<string>
    decreases n, |Entries(n)| - i
  {
    if i >= |Entries(n)| then []
    else
      var e := Entries(n)[i];
      var last := i == |Entries(n)| - 1;
      [prefix + (if last then c.last else c.branch) + Shown(e.path, e.Dir?)]
      + (if e.Dir? then Drawn(e.node, 0, prefix + (if last then BLANK else c.pipe), c) else [])
      + Drawn(n, i + 1, prefix, c)
  }

  /** An entry's own line, and those of what it holds. */
  ghost function EntryDrawn(n: Node, i: nat, prefix: string, c: Columns): seq<string>
    requires i < |Entries(n)|
  {
    var e := Entries(n)[i];
    var last := i == |Entries(n)| - 1;
    [prefix + (if last then c.last else c.branch) + Shown(e.path, e.Dir?)]
    + (if e.Dir? then Drawn(e.node, 0, prefix + (if last then BLANK else c.pipe), c) else [])
  }

  lemma DrawnStep(n: Node, i: nat, prefix: string, c: Columns)
    ensures i < |Entries(n)| ==> Drawn(n, i, prefix, c) == EntryDrawn(n, i, prefix, c) + Drawn(n, i + 1, prefix, c)
    ensures i >= |Entries(n)| ==> Drawn(n, i, prefix, c) == []
  {
  }

  /** Follows a chain of folders for as long as each holds one thing. */
  method CollapseFolder(name: Name, dir: Node) returns (path: Path, folder: bool, inner: Node)
    ensures Collapse([name], dir) == if folder then Dir(path, inner) else File(path)
  {
    path, folder, inner := [name], true, dir;
    while |inner.files| + |inner.dirs| == 1
      invariant folder && Collapse(path, inner) == Collapse([name], dir)
      decreases inner
    {
      if |inner.files| == 1 {
        path, folder := path + inner.files, false;
        return;
      }
      var sub :| sub in inner.dirs;
      assert sub == Only(inner.dirs.Keys);
      path, inner := path + [sub], inner.dirs[sub];
    }
  }

  method FoldersOf(n: Node) returns (entries: seq<Entry>)
    ensures entries == FolderEntries(n, Keys(n.dirs.Keys))
  {
    hide FolderEntries, Collapse, Keys, Sorted, Le;
    entries := [];
    var keys := SortKeys(n.dirs.Keys);
    KeysAreAll(n.dirs.Keys);
    FolderCount(n, keys);
    for i := 0 to |keys|
      invariant entries == FolderEntries(n, keys)[..i]
    {
      assert keys[i] in keys;
      var path, folder, inner := CollapseFolder(keys[i], n.dirs[keys[i]]);
      entries := entries + [if folder then Dir(path, inner) else File(path)];
    }
  }

  /** Gathers a folder's entries. */
  method EntriesOf(n: Node) returns (entries: seq<Entry>)
    ensures entries == Entries(n)
  {
    hide FolderEntries, FileEntries, Keys, Sort;
    entries := FoldersOf(n);
    ghost var folders := entries;
    var files := Sort(n.files);
    for i := 0 to |files|
      invariant entries == folders + FileEntries(files)[..i]
    {
      entries := entries + [File([files[i]])];
    }
  }

  /** Draws a folder, each line led by prefix. */
  method Walk(n: Node, prefix: string, c: Columns) returns (out: seq<string>)
    ensures out == Drawn(n, 0, prefix, c)
    decreases n
  {
    hide Drawn, Entries, Shown;
    out := [];
    var entries := EntriesOf(n);
    for i := 0 to |entries|
      invariant out + Drawn(n, i, prefix, c) == Drawn(n, 0, prefix, c)
    {
      DrawnStep(n, i, prefix, c);
      var e := entries[i];
      var mark, next := c.branch, c.pipe;
      if i == |entries| - 1 { mark, next := c.last, BLANK; }
      var lines := [prefix + mark + Shown(e.path, e.Dir?)];
      if e.Dir? {
        var under := Walk(e.node, prefix + next, c);
        lines := lines + under;
      }
      assert lines == EntryDrawn(n, i, prefix, c);
      out := out + lines;
    }
    DrawnStep(n, |entries|, prefix, c);
  }

  /** Draws paths as a tree. */
  method TreeLines(paths: seq<string>, utf8: bool) returns (out: seq<string>)
    ensures out == Drawn(Build(Parted(paths)), 0, "", ColumnsOf(utf8))
  {
    var root := EMPTY;
    for i := 0 to |paths|
      invariant root == Build(Parted(paths[..i]))
    {
      assert Parted(paths[..i + 1])[..i] == Parted(paths[..i]);
      root := Add(root, Split(paths[i]));
    }
    assert paths[..|paths|] == paths;
    out := Walk(root, "", ColumnsOf(utf8));
  }

  function Parted(paths: seq<string>): seq<Path> {
    seq(|paths|, i requires 0 <= i < |paths| => Split(paths[i]))
  }

  // Reading a drawn tree

  /** A line read: its depth, the names it shows, and whether it is a folder's. */
  datatype Row = Row(depth: nat, path: Path, folder: bool)

  function ReadName(name: string): Row {
    var parts := Split(name);
    if |parts| > 1 && parts[|parts| - 1] == "" then Row(0, parts[..|parts| - 1], true) else Row(0, parts, false)
  }

  /** A line's depth is the number of columns before its mark. */
  function ReadLine(line: string, c: Columns): Row {
    if |line| < 4 then Row(0, [], false)
    else if line[..4] == c.pipe || line[..4] == BLANK then
      var row := ReadLine(line[4..], c);
      row.(depth := row.depth + 1)
    else ReadName(line[4..])
  }

  function ReadLines(lines: seq<string>, c: Columns): seq<Row> {
    seq(|lines|, i requires 0 <= i < |lines| => ReadLine(lines[i], c))
  }

  function Base(stack: seq<Path>, depth: nat): Path {
    if depth == 0 || depth > |stack| then [] else stack[depth - 1]
  }

  function Upto(stack: seq<Path>, depth: nat): seq<Path> {
    if depth > |stack| then stack else stack[..depth]
  }

  /** The files' paths: stack holds the path of the folder last seen at each depth. */
  function ReadPaths(rows: seq<Row>, stack: seq<Path>): seq<Path> {
    if rows == [] then []
    else
      var row := rows[0];
      var path := Base(stack, row.depth) + row.path;
      if row.folder then ReadPaths(rows[1..], Upto(stack, row.depth) + [path])
      else [path] + ReadPaths(rows[1..], Upto(stack, row.depth))
  }

  /** A tree's rows from a folder's i-th entry on. */
  ghost function Rows(n: Node, i: nat, depth: nat): seq<Row>
    decreases n, |Entries(n)| - i
  {
    if i >= |Entries(n)| then []
    else
      var e := Entries(n)[i];
      [Row(depth, e.path, e.Dir?)]
      + (if e.Dir? then Rows(e.node, 0, depth + 1) else [])
      + Rows(n, i + 1, depth)
  }

  /** How many columns lead each line drawn with this prefix. */
  ghost predicate Leads(prefix: string, depth: nat, c: Columns)
    decreases depth
  {
    if depth == 0 then prefix == ""
    else |prefix| >= 4 && (prefix[..4] == c.pipe || prefix[..4] == BLANK) && Leads(prefix[4..], depth - 1, c)
  }

  lemma {:induction false} LeadsOneMore(prefix: string, depth: nat, column: string, c: Columns)
    requires Leads(prefix, depth, c) && |column| == 4 && (column == c.pipe || column == BLANK)
    ensures Leads(prefix + column, depth + 1, c)
    decreases depth
  {
    if depth == 0 {
      assert prefix + column == column && column[..4] == column && column[4..] == "";
      assert Leads(column[4..], 0, c);
    } else {
      LeadsOneMore(prefix[4..], depth - 1, column, c);
      assert (prefix + column)[4..] == prefix[4..] + column;
    }
  }

  lemma ReadShown(path: Path, folder: bool)
    requires PlainPath(path)
    ensures ReadName(Shown(path, folder)) == Row(0, path, folder)
  {
    SplitJoin(path);
    assert Plain(path[|path| - 1]);
    if folder {
      JoinFolder(path);
      SplitJoin(path + [""]);
    }
  }

  lemma {:induction false} JoinFolder(path: Path)
    requires path != []
    ensures Join(path + [""]) == Join(path) + "/"
  {
    if |path| == 1 {
      assert path + [""] == [path[0]] + [""];
      JoinMore(path[0], [""]);
    } else {
      JoinFolder(path[1..]);
      assert path + [""] == [path[0]] + (path[1..] + [""]);
      JoinMore(path[0], path[1..] + [""]);
    }
  }

  lemma {:induction false} ReadDrawnLine(prefix: string, mark: string, depth: nat, path: Path, folder: bool, utf8: bool)
    requires PlainPath(path) && Leads(prefix, depth, ColumnsOf(utf8))
    requires mark == ColumnsOf(utf8).last || mark == ColumnsOf(utf8).branch
    ensures ReadLine(prefix + mark + Shown(path, folder), ColumnsOf(utf8)) == Row(depth, path, folder)
    decreases depth
  {
    var name, c := Shown(path, folder), ColumnsOf(utf8);
    var line := prefix + mark + name;
    if depth == 0 {
      assert line[..4] == mark && line[4..] == name;
      MarksApart(c, utf8);
      ReadShown(path, folder);
    } else {
      assert line[..4] == prefix[..4] && line[4..] == prefix[4..] + mark + name;
      ReadDrawnLine(prefix[4..], mark, depth - 1, path, folder, utf8);
    }
  }

  lemma MarksApart(c: Columns, utf8: bool)
    requires c == ColumnsOf(utf8)
    ensures |c.last| == |c.branch| == |c.pipe| == |BLANK| == 4
    ensures c.last != c.pipe && c.last != BLANK && c.branch != c.pipe && c.branch != BLANK
  {
    assert c.last[0] != BLANK[0] && c.branch[0] != BLANK[0] && c.last[1] != c.pipe[1] && c.branch[1] != c.pipe[1];
  }

  lemma ReadMore(a: seq<string>, b: seq<string>, c: Columns)
    ensures ReadLines(a + b, c) == ReadLines(a, c) + ReadLines(b, c)
  {
  }

  ghost function EntryRows(n: Node, i: nat, depth: nat): seq<Row>
    requires i < |Entries(n)|
  {
    var e := Entries(n)[i];
    [Row(depth, e.path, e.Dir?)] + (if e.Dir? then Rows(e.node, 0, depth + 1) else [])
  }

  lemma RowsStep(n: Node, i: nat, depth: nat)
    ensures i < |Entries(n)| ==> Rows(n, i, depth) == EntryRows(n, i, depth) + Rows(n, i + 1, depth)
    ensures i >= |Entries(n)| ==> Rows(n, i, depth) == []
  {
  }

  /** The lines drawn read as the tree's rows. */
  lemma {:induction false} ReadDrawn(n: Node, i: nat, prefix: string, depth: nat, utf8: bool)
    requires Whole(n) && Leads(prefix, depth, ColumnsOf(utf8))
    ensures ReadLines(Drawn(n, i, prefix, ColumnsOf(utf8)), ColumnsOf(utf8)) == Rows(n, i, depth)
    decreases n, |Entries(n)| - i
  {
    hide Entries, ReadLine, Leads, Shown, Whole, Drawn, Rows, ColumnsOf;
    var c := ColumnsOf(utf8);
    DrawnStep(n, i, prefix, c);
    RowsStep(n, i, depth);
    if i < |Entries(n)| {
      ReadDrawnEntry(n, i, prefix, depth, utf8);
      ReadDrawn(n, i + 1, prefix, depth, utf8);
      ReadMore(EntryDrawn(n, i, prefix, c), Drawn(n, i + 1, prefix, c), c);
    }
  }

  lemma {:induction false} ReadDrawnEntry(n: Node, i: nat, prefix: string, depth: nat, utf8: bool)
    requires Whole(n) && Leads(prefix, depth, ColumnsOf(utf8)) && i < |Entries(n)|
    ensures ReadLines(EntryDrawn(n, i, prefix, ColumnsOf(utf8)), ColumnsOf(utf8)) == EntryRows(n, i, depth)
    decreases n, |Entries(n)| - i, 0
  {
    hide Entries, ReadLine, Leads, Shown, Whole, Drawn, Rows, ColumnsOf;
    var c, e := ColumnsOf(utf8), Entries(n)[i];
    EntriesPlain(n, i);
    MarksApart(c, utf8);
    var last := i == |Entries(n)| - 1;
    var mark, next := if last then c.last else c.branch, if last then BLANK else c.pipe;
    ReadDrawnLine(prefix, mark, depth, e.path, e.Dir?, utf8);
    var line := [prefix + mark + Shown(e.path, e.Dir?)];
    if e.Dir? {
      LeadsOneMore(prefix, depth, next, c);
      ReadDrawn(e.node, 0, prefix + next, depth + 1, utf8);
      ReadMore(line, Drawn(e.node, 0, prefix + next, c), c);
    }
  }
}
