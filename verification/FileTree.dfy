/** Paths gathered into folders and files by name, and what has a line of its own when they are drawn as a
    tree (internal/pretty/pretty.go). */
module FileTree {
  import opened SortedNames

  datatype Node = Node(dirs: map<Name, Node>, files: seq<Name>)

  const EMPTY := Node(map[], [])

  /** What has a line of its own in a folder: a file, or a folder, with the names the line shows. */
  datatype Entry = File(path: Path) | Dir(path: Path, node: Node)

  function SizeOf(n: Node): nat { |n.files| + |n.dirs| }

  /** n with one more path. */
  function Add(n: Node, p: Path): Node
    decreases p
  {
    if |p| <= 1 then n.(files := n.files + p)
    else n.(dirs := n.dirs[p[0] := Add(if p[0] in n.dirs then n.dirs[p[0]] else EMPTY, p[1..])])
  }

  function Build(paths: seq<Path>): Node {
    if paths == [] then EMPTY else Add(Build(paths[..|paths| - 1]), paths[|paths| - 1])
  }

  /** How often a path is in a folder. */
  function Count(n: Node, p: Path): nat
  {
    if p == [] then 0
    else if |p| == 1 then multiset(n.files)[p[0]]
    else if p[0] in n.dirs then Count(n.dirs[p[0]], p[1..])
    else 0
  }

  /** Names are plain and, below the top, no folder is empty. */
  ghost predicate Whole(n: Node) {
    && (forall f | f in n.files :: Plain(f))
    && (forall k | k in n.dirs :: Plain(k) && SizeOf(n.dirs[k]) > 0 && Whole(n.dirs[k]))
  }

  lemma {:induction false} AddCounts(n: Node, p: Path, q: Path)
    requires p != []
    ensures Count(Add(n, p), q) == Count(n, q) + if p == q then 1 else 0
    decreases p
  {
    if |p| > 1 && |q| > 1 && p[0] == q[0] {
      AddCounts(if p[0] in n.dirs then n.dirs[p[0]] else EMPTY, p[1..], q[1..]);
      NothingInEmpty(q[1..]);
      assert p == [p[0]] + p[1..] && q == [q[0]] + q[1..];
    } else if |p| == 1 == |q| {
      assert p == [p[0]] && q == [q[0]];
    }
  }

  lemma NothingInEmpty(p: Path)
    ensures Count(EMPTY, p) == 0
  {
  }

  lemma {:induction false} AddKeepsWhole(n: Node, p: Path)
    requires Whole(n) && PlainPath(p)
    ensures Whole(Add(n, p)) && SizeOf(Add(n, p)) > 0
    decreases p
  {
    if |p| > 1 {
      var sub := if p[0] in n.dirs then n.dirs[p[0]] else EMPTY;
      AddKeepsWhole(sub, p[1..]);
      assert p[0] in Add(n, p).dirs;
    }
  }

  lemma {:induction false} BuildHoldsAll(paths: seq<Path>, q: Path)
    requires forall i | 0 <= i < |paths| :: PlainPath(paths[i])
    ensures Whole(Build(paths)) && Count(Build(paths), q) == multiset(paths)[q]
  {
    if paths == [] {
      NothingInEmpty(q);
    } else {
      var rest, p := paths[..|paths| - 1], paths[|paths| - 1];
      assert paths == rest + [p];
      BuildHoldsAll(rest, q);
      AddCounts(Build(rest), p, q);
      AddKeepsWhole(Build(rest), p);
    }
  }

  /** A chain of folders with nothing beside each next one is one entry. */
  ghost function Collapse(path: Path, n: Node): (e: Entry)
    ensures path <= e.path && (e.File? ==> |path| < |e.path|)
    ensures e.Dir? ==> e.node == n || e.node < n
    ensures e.Dir? ==> SizeOf(e.node) != 1
    decreases n
  {
    if SizeOf(n) != 1 then Dir(path, n)
    else if |n.files| == 1 then File(path + n.files)
    else
      var sub := Only(n.dirs.Keys);
      Collapse(path + [sub], n.dirs[sub])
  }

  ghost function Only(s: set<Name>): (n: Name)
    requires |s| == 1
    ensures s == {n}
  {
    var n :| n in s;
    assert |s - {n}| == 0;
    n
  }

  /** What a folder has lines for, in order. */
  ghost function Entries(n: Node): (es: seq<Entry>)
    ensures forall i | 0 <= i < |es| :: es[i].path != [] && (es[i].Dir? ==> es[i].node < n && SizeOf(es[i].node) != 1)
  {
    FolderEntries(n, Keys(n.dirs.Keys)) + FileEntries(Sort(n.files))
  }

  ghost function FolderEntries(n: Node, keys: seq<Name>): (es: seq<Entry>)
    ensures forall i | 0 <= i < |es| :: es[i].path != [] && (es[i].Dir? ==> es[i].node < n && SizeOf(es[i].node) != 1)
  {
    if keys == [] || keys[0] !in n.dirs then []
    else [Collapse([keys[0]], n.dirs[keys[0]])] + FolderEntries(n, keys[1..])
  }

  ghost function FileEntries(files: seq<Name>): (es: seq<Entry>)
    ensures |es| == |files| && forall i | 0 <= i < |es| :: es[i] == File([files[i]])
  {
    if files == [] then [] else [File([files[0]])] + FileEntries(files[1..])
  }

  /** How often a path is in what a line stands for. */
  ghost function Holds(e: Entry, p: Path): nat {
    match e
    case File(q) => if p == q then 1 else 0
    case Dir(q, n) => if q <= p then Count(n, p[|q|..]) else 0
  }

  ghost function AllHold(es: seq<Entry>, p: Path): nat {
    if es == [] then 0 else Holds(es[0], p) + AllHold(es[1..], p)
  }

  /** A collapsed line holds the paths of the folder it stands for. */
  lemma {:induction false} CollapseHolds(path: Path, n: Node, p: Path)
    ensures Holds(Collapse(path, n), p) == Holds(Dir(path, n), p)
    decreases n
  {
    if SizeOf(n) == 1 {
      if |n.files| == 1 {
        assert n.dirs.Keys == {} && n.files == [n.files[0]];
        if path <= p {
          assert p == path + p[|path|..];
          if p == path + n.files { assert p[|path|..] == n.files; }
        }
      } else {
        var sub := Only(n.dirs.Keys);
        CollapseHolds(path + [sub], n.dirs[sub], p);
        if path + [sub] <= p {
          assert p[|path|..][0] == sub && p[|path|..][1..] == p[|path| + 1..];
        } else if path <= p && |p| > |path| {
          assert p[|path|] == sub ==> path + [sub] <= p;
          assert p[|path|..][0] !in n.dirs;
        }
      }
    }
  }

  lemma {:induction false} AllHoldConcat(a: seq<Entry>, b: seq<Entry>, p: Path)
    ensures AllHold(a + b, p) == AllHold(a, p) + AllHold(b, p)
  {
    if a == [] {
      assert a + b == b;
    } else {
      assert (a + b)[1..] == a[1..] + b;
      AllHoldConcat(a[1..], b, p);
    }
  }

  lemma {:induction false} FoldersHold(n: Node, keys: seq<Name>, p: Path)
    requires forall k | k in keys :: k in n.dirs
    requires forall i, j | 0 <= i < j < |keys| :: keys[i] != keys[j]
    ensures AllHold(FolderEntries(n, keys), p) == if p != [] && p[0] in keys then Count(n.dirs[p[0]], p[1..]) else 0
  {
    if keys != [] {
      var k, rest := keys[0], keys[1..];
      FoldersHold(n, rest, p);
      CollapseHolds([k], n.dirs[k], p);
      assert keys == [k] + rest;
      assert k !in rest;
      var e := Collapse([k], n.dirs[k]);
      assert FolderEntries(n, keys)[1..] == FolderEntries(n, rest);
      if p != [] { assert [k] <= p <==> p[0] == k; }
    }
  }

  lemma {:induction false} FilesHold(files: seq<Name>, p: Path)
    ensures AllHold(FileEntries(files), p) == if |p| == 1 then multiset(files)[p[0]] else 0
  {
    if files != [] {
      FilesHold(files[1..], p);
      assert files == [files[0]] + files[1..];
      assert FileEntries(files)[1..] == FileEntries(files[1..]);
    }
  }

  /** A folder's lines hold its paths, each as often as the folder does. */
  lemma EntriesHold(n: Node, p: Path)
    ensures AllHold(Entries(n), p) == Count(n, p)
  {
    hide Holds;
    var keys := Keys(n.dirs.Keys);
    KeysAreAll(n.dirs.Keys);
    SortOrders(n.files);
    AllHoldConcat(FolderEntries(n, keys), FileEntries(Sort(n.files)), p);
    FoldersHold(n, keys, p);
    FilesHold(Sort(n.files), p);
  }

  lemma {:induction false} FolderCount(n: Node, keys: seq<Name>)
    requires forall k | k in keys :: k in n.dirs
    ensures |FolderEntries(n, keys)| == |keys|
    ensures forall i | 0 <= i < |keys| :: FolderEntries(n, keys)[i] == Collapse([keys[i]], n.dirs[keys[i]])
  {
    if keys != [] {
      FolderCount(n, keys[1..]);
      assert forall i | 0 < i < |keys| :: FolderEntries(n, keys)[i] == FolderEntries(n, keys[1..])[i - 1];
    }
  }

  /** A folder's lines, one by one. */
  lemma EntryAt(n: Node, i: nat)
    ensures |Entries(n)| == SizeOf(n) && |Keys(n.dirs.Keys)| == |n.dirs| && |Sort(n.files)| == |n.files|
    ensures i < |n.dirs| ==>
      && Keys(n.dirs.Keys)[i] in n.dirs
      && Entries(n)[i] == Collapse([Keys(n.dirs.Keys)[i]], n.dirs[Keys(n.dirs.Keys)[i]])
    ensures |n.dirs| <= i < SizeOf(n) ==> Entries(n)[i] == File([Sort(n.files)[i - |n.dirs|]])
    ensures |n.dirs| <= i < SizeOf(n) ==> Sort(n.files)[i - |n.dirs|] in n.files
  {
    hide Collapse, Sort, Keys, Sorted, FolderEntries, FileEntries;
    var keys, files := Keys(n.dirs.Keys), Sort(n.files);
    KeysAreAll(n.dirs.Keys);
    SortOrders(n.files);
    FolderCount(n, keys);
    assert |files| == |multiset(files)| == |n.files| && |keys| == |n.dirs|;
    assert Entries(n) == FolderEntries(n, keys) + FileEntries(files);
    if |n.dirs| <= i < SizeOf(n) {
      assert files[i - |n.dirs|] in multiset(files);
    } else if i < |n.dirs| {
      assert keys[i] in keys;
    }
  }

  /** A line of a folder's subfolder: it shows a folder, or a file one folder or more down. */
  predicate OfFolder(e: Entry) {
    e.Dir? || |e.path| > 1
  }

  /** Of two entries of a folder, whether the first may come first. */
  predicate Before(a: Entry, b: Entry)
    requires a.path != [] && b.path != []
  {
    if OfFolder(a) == OfFolder(b) then Le(a.path[0], b.path[0]) else OfFolder(a)
  }

  /** A folder has a line for each folder and file in it, folders first, each kind in order. */
  lemma EntriesInOrder(n: Node)
    ensures |Entries(n)| == SizeOf(n)
    ensures forall i, j | 0 <= i < j < |Entries(n)| :: Before(Entries(n)[i], Entries(n)[j])
  {
    hide Entries, Keys, Sort, Le;
    EntryAt(n, 0);
    KeysAreAll(n.dirs.Keys);
    SortOrders(n.files);
    forall i, j | 0 <= i < j < |Entries(n)| ensures Before(Entries(n)[i], Entries(n)[j]) {
      EntryAt(n, i);
      EntryAt(n, j);
      Named(n, i);
      Named(n, j);
    }
  }

  lemma Named(n: Node, i: nat)
    requires i < SizeOf(n) == |Entries(n)|
    ensures i < |n.dirs| == |Keys(n.dirs.Keys)| ==> OfFolder(Entries(n)[i]) && Entries(n)[i].path[0] == Keys(n.dirs.Keys)[i]
    ensures |n.dirs| <= i ==> !OfFolder(Entries(n)[i])
  {
    hide Entries, Keys, Sort;
    EntryAt(n, i);
    if i < |n.dirs| {
      var k := Keys(n.dirs.Keys)[i];
      assert [k] <= Collapse([k], n.dirs[k]).path;
    }
  }

  /** The names a line shows are plain. */
  lemma {:induction false} CollapsePlain(path: Path, n: Node)
    requires Whole(n) && SizeOf(n) > 0 && PlainPath(path)
    ensures PlainPath(Collapse(path, n).path)
    ensures Collapse(path, n).Dir? ==> Whole(Collapse(path, n).node) && SizeOf(Collapse(path, n).node) > 1
    decreases n
  {
    if SizeOf(n) == 1 && |n.files| != 1 {
      var sub := Only(n.dirs.Keys);
      CollapsePlain(path + [sub], n.dirs[sub]);
    }
  }

  lemma EntriesPlain(n: Node, i: nat)
    requires Whole(n) && i < |Entries(n)|
    ensures PlainPath(Entries(n)[i].path)
    ensures Entries(n)[i].Dir? ==> Whole(Entries(n)[i].node) && SizeOf(Entries(n)[i].node) > 1
  {
    hide Entries, Keys, Sort;
    EntryAt(n, i);
    if i < |n.dirs| {
      var k := Keys(n.dirs.Keys)[i];
      CollapsePlain([k], n.dirs[k]);
    }
  }
}
