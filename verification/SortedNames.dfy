/** Names as Go orders them, and paths as names apart by slashes. */
module SortedNames {
  type Name = string
  type Path = seq<Name>

  /** No slash in a name, and at least a character. */
  predicate Plain(n: Name) {
    n != "" && '/' !in n
  }

  predicate PlainPath(p: Path) {
    p != [] && forall n | n in p :: Plain(n)
  }

  predicate Le(a: Name, b: Name) {
    a == "" || (b != "" && (a[0] < b[0] || (a[0] == b[0] && Le(a[1..], b[1..]))))
  }

  lemma {:induction false} LeTotal(a: Name, b: Name)
    ensures Le(a, b) || Le(b, a)
  {
    if a != "" && b != "" { LeTotal(a[1..], b[1..]); }
  }

  lemma {:induction false} LeTransitive(a: Name, b: Name, c: Name)
    requires Le(a, b) && Le(b, c)
    ensures Le(a, c)
  {
    if a != "" && b != "" && c != "" && a[0] == b[0] == c[0] { LeTransitive(a[1..], b[1..], c[1..]); }
  }

  lemma {:induction false} LeAntisymmetric(a: Name, b: Name)
    requires Le(a, b) && Le(b, a)
    ensures a == b
  {
    if a != "" && b != "" { LeAntisymmetric(a[1..], b[1..]); }
  }

  /** The order is of texts: by the first character in which two differ, a start before what it starts. */
  lemma {:induction false} LeIsByFirstDifference(same: Name, a: Name, b: Name)
    ensures Le(same, same + b)
    ensures a != "" && b != "" && a[0] != b[0] ==> (Le(same + a, same + b) <==> a[0] < b[0])
  {
    if same == "" {
      assert same + a == a && same + b == b;
    } else {
      assert (same + a)[1..] == same[1..] + a && (same + b)[1..] == same[1..] + b;
      LeIsByFirstDifference(same[1..], a, b);
    }
  }

  predicate Sorted(s: seq<Name>) {
    forall i, j | 0 <= i < j < |s| :: Le(s[i], s[j])
  }

  function InsertSorted(n: Name, s: seq<Name>): seq<Name> {
    if s == [] || Le(n, s[0]) then [n] + s else [s[0]] + InsertSorted(n, s[1..])
  }

  /** A name before a sorted list, no greater than any in it. */
  lemma LeastFirst(n: Name, s: seq<Name>)
    requires Sorted(s) && forall i | 0 <= i < |s| :: Le(n, s[i])
    ensures Sorted([n] + s)
  {
    hide Le;
  }

  lemma {:induction false} InsertSortedOrders(n: Name, s: seq<Name>)
    requires Sorted(s)
    ensures Sorted(InsertSorted(n, s)) && multiset(InsertSorted(n, s)) == multiset(s) + multiset{n}
  {
    hide Le;
    if s == [] {
    } else if Le(n, s[0]) {
      forall i | 0 <= i < |s| ensures Le(n, s[i]) { if i > 0 { LeTransitive(n, s[0], s[i]); } }
      LeastFirst(n, s);
    } else {
      LeTotal(n, s[0]);
      assert s == [s[0]] + s[1..];
      InsertSortedOrders(n, s[1..]);
      var rest := InsertSorted(n, s[1..]);
      forall i | 0 <= i < |rest| ensures Le(s[0], rest[i]) { InsertedFrom(n, s[1..], rest[i]); }
      LeastFirst(s[0], rest);
    }
  }

  lemma {:induction false} InsertedFrom(n: Name, s: seq<Name>, x: Name)
    requires x in InsertSorted(n, s)
    ensures x == n || x in s
  {
    hide Le;
    if s != [] && !Le(n, s[0]) && x != s[0] { InsertedFrom(n, s[1..], x); }
  }

  /** A list's names in order, each as often as in the list. */
  function Sort(s: seq<Name>): seq<Name> {
    if s == [] then [] else InsertSorted(s[0], Sort(s[1..]))
  }

  lemma {:induction false} SortOrders(s: seq<Name>)
    ensures Sorted(Sort(s)) && multiset(Sort(s)) == multiset(s)
  {
    if s != [] {
      SortOrders(s[1..]);
      InsertSortedOrders(s[0], Sort(s[1..]));
      assert s == [s[0]] + s[1..];
    }
  }

  /** There is one way to sort a list: whatever does it, does this. */
  lemma {:induction false} SortedOnlyOneWay(s: seq<Name>, t: seq<Name>)
    requires Sorted(s) && Sorted(t) && multiset(s) == multiset(t)
    ensures s == t
  {
    assert |s| == |multiset(s)| == |t|;
    if s != [] {
      FirstIsLeast(s, t[0]) by { assert t[0] in multiset(t); }
      FirstIsLeast(t, s[0]) by { assert s[0] in multiset(s); }
      LeAntisymmetric(s[0], t[0]);
      WithoutFirst(s);
      WithoutFirst(t);
      SortedOnlyOneWay(s[1..], t[1..]);
    }
  }

  lemma FirstIsLeast(s: seq<Name>, n: Name)
    requires Sorted(s) && n in s
    ensures Le(s[0], n)
  {
    LeTotal(n, n);
  }

  lemma WithoutFirst(s: seq<Name>)
    requires s != [] && Sorted(s)
    ensures s == [s[0]] + s[1..] && Sorted(s[1..]) && multiset(s[1..]) == multiset(s) - multiset{s[0]}
  {
    hide Le;
    assert s == [s[0]] + s[1..];
  }

  /** A set's names in some order. */
  ghost function Listed(s: set<Name>): (l: seq<Name>)
    ensures multiset(l) == multiset(s)
  {
    if s == {} then [] else
      var x :| x in s;
      assert multiset(s) == multiset(s - {x}) + multiset{x};
      [x] + Listed(s - {x})
  }

  /** The names of a set in order. */
  ghost function Keys(s: set<Name>): seq<Name> {
    Sort(Listed(s))
  }

  lemma KeysAreAll(s: set<Name>)
    ensures Sorted(Keys(s)) && multiset(Keys(s)) == multiset(s)
    ensures forall n :: n in Keys(s) <==> n in s
    ensures forall i, j | 0 <= i < j < |Keys(s)| :: Keys(s)[i] != Keys(s)[j]
    ensures |Keys(s)| == |s|
  {
    SortOrders(Listed(s));
    var keys := Keys(s);
    assert |multiset(keys)| == |multiset(s)|;
    forall n ensures n in keys <==> n in s { assert n in multiset(keys) <==> n in multiset(s); }
    forall i, j | 0 <= i < j < |keys| ensures keys[i] != keys[j] {
      assert keys == keys[..j] + keys[j..];
      assert keys[i] in keys[..j] && keys[j] in keys[j..];
      assert multiset(keys)[keys[j]] == multiset(keys[..j])[keys[j]] + multiset(keys[j..])[keys[j]];
    }
  }

  /** Sorts a set's names. */
  method SortKeys(s: set<Name>) returns (keys: seq<Name>)
    ensures keys == Keys(s)
  {
    KeysAreAll(s);
    var list := [];
    var left := s;
    while left != {}
      invariant left <= s && multiset(list) == multiset(s - left)
    {
      var x :| x in left;
      assert s - (left - {x}) == (s - left) + {x};
      list := list + [x];
      left := left - {x};
    }
    assert s - {} == s;
    SortOrders(list);
    keys := Sort(list);
    SortedOnlyOneWay(keys, Keys(s));
  }

  /** Names with a slash between each two. */
  function Join(p: Path): string
    requires p != []
  {
    if |p| == 1 then p[0] else p[0] + "/" + Join(p[1..])
  }

  /** The names a string's slashes part it into; one more than the slashes. */
  function Split(s: string): (p: Path)
    ensures p != []
  {
    if s == "" then [""]
    else
      var rest := Split(s[1..]);
      if s[0] == '/' then [""] + rest else [[s[0]] + rest[0]] + rest[1..]
  }

  lemma {:induction false} SplitName(n: Name, rest: string)
    requires '/' !in n
    ensures Split(n) == [n]
    ensures Split(n + "/" + rest) == [n] + Split(rest)
  {
    if n == "" {
      assert "" + "/" + rest == "/" + rest && ("/" + rest)[1..] == rest;
    } else {
      SplitName(n[1..], rest);
      assert (n + "/" + rest)[1..] == n[1..] + "/" + rest;
      assert n == [n[0]] + n[1..];
    }
  }

  /** Names without slashes are read back from between them. */
  lemma {:induction false} SplitJoin(p: Path)
    requires p != [] && forall n | n in p :: '/' !in n
    ensures Split(Join(p)) == p
  {
    if |p| == 1 {
      SplitName(p[0], "");
    } else {
      SplitJoin(p[1..]);
      SplitName(p[0], Join(p[1..]));
    }
  }

  lemma JoinMore(n: Name, p: Path)
    requires p != []
    ensures Join([n] + p) == n + "/" + Join(p)
  {
    assert ([n] + p)[1..] == p;
  }

  lemma JoinLonger(c: char, p: Path)
    requires p != []
    ensures Join([[c] + p[0]] + p[1..]) == [c] + Join(p)
  {
    var q := [[c] + p[0]] + p[1..];
    if |p| > 1 {
      assert q[1..] == p[1..];
      assert [c] + p[0] + "/" + Join(p[1..]) == [c] + (p[0] + "/" + Join(p[1..]));
    }
  }

  lemma {:induction false} JoinSplit(s: string)
    ensures Join(Split(s)) == s && forall n | n in Split(s) :: '/' !in n
  {
    hide Join;
    if s == "" {
      assert Join([""]) == "" by { JoinOne(""); }
    } else {
      JoinSplit(s[1..]);
      var rest := Split(s[1..]);
      assert s == [s[0]] + s[1..];
      if s[0] == '/' {
        JoinMore("", rest);
        assert "" + "/" + Join(rest) == s;
      } else {
        JoinLonger(s[0], rest);
        assert rest[0] in rest;
      }
    }
  }

  lemma JoinOne(n: Name)
    ensures Join([n]) == n
  {
  }
}
