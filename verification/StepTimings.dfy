/** How long each step of a run took, told from when each started (internal/pretty/views.go). */
module StepTimings {
  /** A step: a child's name is its parent's, a dot, and its own. Milliseconds. */
  datatype Step = Step(name: string, start: int)
  datatype Line = Line(text: string, ms: int)

  function Dots(name: string): nat {
    if name == "" then 0 else (if name[0] == '.' then 1 else 0) + Dots(name[1..])
  }

  function Depth(s: Step): nat { Dots(s.name) }

  function LastName(name: string): string {
    if '.' in name then LastName(name[1..]) else name
  }

  /** A name's dots are those of its parts and the ones between them; a part without any has none. */
  lemma {:induction false} DotsAdd(a: string, b: string)
    ensures Dots(a + "." + b) == Dots(a) + 1 + Dots(b)
  {
    if a == "" {
      assert a + "." + b == ['.'] + b && (['.'] + b)[1..] == b;
    } else {
      assert (a + "." + b)[1..] == a[1..] + "." + b;
      DotsAdd(a[1..], b);
    }
  }

  lemma {:induction false} NoDots(name: string)
    ensures Dots(name) == 0 <==> '.' !in name
  {
    if name != "" { NoDots(name[1..]); }
  }

  /** The last name is what is after the last dot: all of it, where there is none. */
  lemma {:induction false} LastNameIsLast(name: string)
    ensures '.' !in LastName(name)
    ensures if '.' in name then exists p :: name == p + "." + LastName(name) else LastName(name) == name
  {
    if '.' in name {
      LastNameIsLast(name[1..]);
      if '.' in name[1..] {
        var p :| name[1..] == p + "." + LastName(name[1..]);
        assert name == ([name[0]] + p) + "." + LastName(name);
      } else {
        assert name[0] == '.';
        assert name == "" + "." + LastName(name) by { assert LastName(name) == name[1..]; }
      }
    }
  }

  /** A label is two spaces for each level below the top, and the last name. */
  lemma LabelReads(s: Step)
    ensures |Label(s)| == 2 * Dots(s.name) + |LastName(s.name)|
    ensures forall i | 0 <= i < 2 * Dots(s.name) :: Label(s)[i] == ' '
    ensures Label(s)[2 * Dots(s.name)..] == LastName(s.name)
  {
  }

  /** A child's line: its own name, two spaces further in than its parent's. */
  lemma ChildIsIndented(parent: string, own: string, start: int)
    requires '.' !in own
    ensures Label(Step(parent + "." + own, start)) == Spaces(2 * Dots(parent) + 2) + own
  {
    hide Dots, LastName;
    DotsAdd(parent, own);
    NoDots(own);
    LastOfChild(parent, own);
  }

  lemma {:induction false} LastOfChild(parent: string, own: string)
    requires '.' !in own
    ensures LastName(parent + "." + own) == own
  {
    var name := parent + "." + own;
    assert name[|parent|] == '.';
    if parent == "" {
      assert name[1..] == own;
    } else {
      assert name[1..] == parent[1..] + "." + own;
      LastOfChild(parent[1..], own);
    }
  }

  function Spaces(n: nat): string { seq(n, _ => ' ') }

  function Label(s: Step): string { Spaces(2 * Depth(s)) + LastName(s.name) }

  /** The next step at this one's level or above, from the j-th on; the number of steps if none. */
  function NextFrom(steps: seq<Step>, depth: nat, j: nat): (k: nat)
    requires j <= |steps|
    ensures j <= k <= |steps|
    ensures forall m | j <= m < k :: Depth(steps[m]) > depth
    ensures k < |steps| ==> Depth(steps[k]) <= depth
    decreases |steps| - j
  {
    if j < |steps| && Depth(steps[j]) > depth then NextFrom(steps, depth, j + 1) else j
  }

  function Next(steps: seq<Step>, i: nat): nat
    requires i < |steps|
  {
    NextFrom(steps, Depth(steps[i]), i + 1)
  }

  /** When the k-th step starts; when the run ends, after the last. */
  function StartAt(steps: seq<Step>, end: int, k: nat): int {
    if k < |steps| then steps[k].start else end
  }

  function Until(steps: seq<Step>, end: int, i: nat): int
    requires i < |steps|
  {
    StartAt(steps, end, Next(steps, i))
  }

  function Took(steps: seq<Step>, end: int, i: nat): int
    requires i < |steps|
  {
    Until(steps, end, i) - steps[i].start
  }

  /** The width of the widest label of the first so many steps, and of the total's. */
  function Widest(steps: seq<Step>, count: nat): nat
    requires count <= |steps|
  {
    if count == 0 then |"total"|
    else
      var before, text := Widest(steps, count - 1), Label(steps[count - 1]);
      if |text| > before then |text| else before
  }

  /** No label is wider, and one is as wide. */
  lemma {:induction false} WidestIsLeast(steps: seq<Step>, count: nat)
    requires count <= |steps|
    ensures |"total"| <= Widest(steps, count) && forall i | 0 <= i < count :: |Label(steps[i])| <= Widest(steps, count)
    ensures Widest(steps, count) == |"total"| || exists i :: 0 <= i < count && |Label(steps[i])| == Widest(steps, count)
  {
    if count > 0 { WidestIsLeast(steps, count - 1); }
  }

  /** Looks for the end of the i-th step. */
  method FindUntil(steps: seq<Step>, end: int, i: nat) returns (until: int)
    requires i < |steps|
    ensures until == Until(steps, end, i)
  {
    hide Depth;
    for k := i + 1 to |steps|
      invariant NextFrom(steps, Depth(steps[i]), k) == Next(steps, i)
    {
      if Depth(steps[k]) <= Depth(steps[i]) { return steps[k].start; }
    }
    return end;
  }

  /** A line for each step, indented by its level, and the width of the widest label. */
  method TimingLines(steps: seq<Step>, end: int) returns (lines: seq<Line>, width: nat)
    ensures |lines| == |steps| && width == Widest(steps, |steps|)
    ensures forall i | 0 <= i < |steps| :: lines[i] == Line(Label(steps[i]), Took(steps, end, i))
  {
    hide Label, Depth, Until;
    lines, width := [], |"total"|;
    for i := 0 to |steps|
      invariant |lines| == i && width == Widest(steps, i)
      invariant forall j | 0 <= j < i :: lines[j] == Line(Label(steps[j]), Took(steps, end, j))
    {
      var until := FindUntil(steps, end, i);
      var text := Label(steps[i]);
      lines := lines + [Line(text, until - steps[i].start)];
      width := if |text| > width then |text| else width;
    }
  }

  /** Steps are recorded as they start, and the run ends after them. */
  predicate InOrder(steps: seq<Step>, end: int) {
    && (forall i, j | 0 <= i < j < |steps| :: steps[i].start <= steps[j].start)
    && (forall i | 0 <= i < |steps| :: steps[i].start <= end)
  }

  lemma StartsInOrder(steps: seq<Step>, end: int, i: nat, j: nat)
    requires InOrder(steps, end) && i <= j
    ensures StartAt(steps, end, i) <= StartAt(steps, end, j)
  {
  }

  /** Of two steps, the later is within the earlier if it comes before the next at the earlier's level or
      above, and else after it: so any two are nested or apart, and none is negative. */
  lemma NestedOrApart(steps: seq<Step>, end: int, i: nat, j: nat)
    requires InOrder(steps, end) && i < j < |steps|
    ensures Took(steps, end, i) >= 0 && Took(steps, end, j) >= 0
    ensures if j < Next(steps, i)
            then steps[i].start <= steps[j].start && Until(steps, end, j) <= Until(steps, end, i)
            else Until(steps, end, i) <= steps[j].start
  {
    StartsInOrder(steps, end, i, Next(steps, i));
    StartsInOrder(steps, end, j, Next(steps, j));
    if j < Next(steps, i) {
      assert Next(steps, j) <= Next(steps, i);
      StartsInOrder(steps, end, Next(steps, j), Next(steps, i));
    } else {
      StartsInOrder(steps, end, Next(steps, i), j);
    }
  }

  /** The i-th step has the name that the j-th, a later one, has before its last dot or an earlier one. */
  predicate IsChild(steps: seq<Step>, i: nat, j: nat) {
    i < j < |steps| && steps[i].name + "." <= steps[j].name
  }

  ghost predicate Within(steps: seq<Step>, end: int, i: nat, j: nat)
    requires i < |steps| && j < |steps|
  {
    steps[i].start <= steps[j].start && Until(steps, end, j) <= Until(steps, end, i)
  }

  /** A later step that takes any time takes it within an earlier one's if and only if no step at that
      one's level or above starts after it and not after the later. */
  lemma WithinIffBeforeNext(steps: seq<Step>, end: int, i: nat, j: nat)
    requires InOrder(steps, end) && i < j < |steps|
    ensures j < Next(steps, i) ==> Within(steps, end, i, j)
    ensures Took(steps, end, j) > 0 ==> (Within(steps, end, i, j) <==> j < Next(steps, i))
    ensures j < Next(steps, i) <==> forall k | i < k <= j :: Depth(steps[k]) > Depth(steps[i])
  {
    hide Depth;
    NestedOrApart(steps, end, i, j);
  }

  lemma {:induction false} DotsInStart(name: string, start: string)
    requires start + "." <= name
    ensures Dots(name) > Dots(start)
  {
    if start == "" {
      assert name[0] == (start + ".")[0];
    } else {
      assert name[0] == (start + ".")[0] == start[0];
      assert (start + ".")[1..] == start[1..] + ".";
      assert name[1..][..|start|] == name[..|start| + 1][1..];
      DotsInStart(name[1..], start[1..]);
    }
  }

  /** A child takes its time within its parent's if no step at the parent's level or above came between;
      and, taking any, only if. */
  lemma ChildWithinParent(steps: seq<Step>, end: int, i: nat, j: nat)
    requires InOrder(steps, end) && IsChild(steps, i, j)
    ensures var between := exists k :: i < k < j && Depth(steps[k]) <= Depth(steps[i]);
            && (!between ==> Within(steps, end, i, j) && Took(steps, end, j) <= Took(steps, end, i))
            && (Took(steps, end, j) > 0 ==> (Within(steps, end, i, j) <==> !between))
  {
    hide Depth;
    assert Depth(steps[j]) > Depth(steps[i]) by { ChildIsDeeper(steps, i, j); }
    WithinIffBeforeNext(steps, end, i, j);
  }

  lemma ChildIsDeeper(steps: seq<Step>, i: nat, j: nat)
    requires IsChild(steps, i, j)
    ensures Depth(steps[j]) > Depth(steps[i])
  {
    DotsInStart(steps[j].name, steps[i].name);
  }

  /** A child recorded after its parent's level moved on is not within it. */
  lemma LateChildIsOutside()
    ensures var steps := [Step("a", 0), Step("b", 10), Step("a.x", 20)];
            InOrder(steps, 30) && IsChild(steps, 0, 2) && !Within(steps, 30, 0, 2)
  {
    var steps := [Step("a", 0), Step("b", 10), Step("a.x", 20)];
    assert steps[0].name + "." == "a.";
    assert Dots("a") == 0 && Dots("b") == 0;
    assert Next(steps, 0) == 1;
    assert Next(steps, 2) == 3;
  }

  /** The time of the steps of one level, from the a-th step to before the b-th. */
  function LevelTook(steps: seq<Step>, end: int, depth: nat, a: nat, b: nat): int
    requires a <= b <= |steps|
    decreases b - a
  {
    if a == b then 0
    else (if Depth(steps[a]) == depth then Took(steps, end, a) else 0) + LevelTook(steps, end, depth, a + 1, b)
  }

  /** The first step of a level, from the a-th to before the b-th. */
  function FirstAt(steps: seq<Step>, depth: nat, a: nat, b: nat): (k: nat)
    requires a <= b <= |steps|
    ensures a <= k <= b && (k < b ==> Depth(steps[k]) == depth)
    decreases b - a
  {
    if a == b || Depth(steps[a]) == depth then a else FirstAt(steps, depth, a + 1, b)
  }

  /** Where none is above their level, and the next after them is not below it, the steps of one level
      take all the time from the first of them to what comes next. */
  lemma {:induction false} LevelTakesAll(steps: seq<Step>, end: int, depth: nat, a: nat, b: nat)
    requires a <= b <= |steps| && (b < |steps| ==> Depth(steps[b]) <= depth)
    requires forall k | a <= k < b :: Depth(steps[k]) >= depth
    ensures LevelTook(steps, end, depth, a, b) == StartAt(steps, end, b) - StartAt(steps, end, FirstAt(steps, depth, a, b))
    decreases b - a
  {
    if a < b {
      LevelTakesAll(steps, end, depth, a + 1, b);
      if Depth(steps[a]) == depth {
        var first := FirstAt(steps, depth, a + 1, b);
        NoneBefore(steps, depth, a + 1, b);
        assert Next(steps, a) == first;
      }
    }
  }

  lemma {:induction false} NoneBefore(steps: seq<Step>, depth: nat, a: nat, b: nat)
    requires a <= b <= |steps|
    ensures forall k | a <= k < FirstAt(steps, depth, a, b) :: Depth(steps[k]) != depth
    decreases b - a
  {
    if a < b { NoneBefore(steps, depth, a + 1, b); }
  }

  /** The steps that are no one's children take all the time from the first of them to the run's end. */
  lemma TopLevelTakesAll(steps: seq<Step>, end: int)
    ensures LevelTook(steps, end, 0, 0, |steps|) == end - StartAt(steps, end, FirstAt(steps, 0, 0, |steps|))
  {
    LevelTakesAll(steps, end, 0, 0, |steps|);
  }

  /** A step's children take all its time from the first of them on. */
  lemma ChildrenTakeAll(steps: seq<Step>, end: int, i: nat)
    requires i < |steps|
    ensures var (a, b) := (i + 1, Next(steps, i)); var depth := Depth(steps[i]) + 1;
            LevelTook(steps, end, depth, a, b) == Until(steps, end, i) - StartAt(steps, end, FirstAt(steps, depth, a, b))
  {
    LevelTakesAll(steps, end, Depth(steps[i]) + 1, i + 1, Next(steps, i));
  }
}
