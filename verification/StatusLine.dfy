/** The line under an input's frame, fitted to the terminal's width (internal/cliui/entry.go). */
module StatusLine {
  /** A text by what matters to a layout: how many columns it takes, and whether they are all blank. A
      text that is not empty may take none: one of escapes alone. */
  datatype Text = Empty | Text(id: nat, width: nat, blank: bool)

  const GAP := 2

  function Columns(t: Text): nat { if t.Empty? then 0 else t.width }

  function Largest(a: int, b: int): (r: int)
    ensures r >= a && r >= b && (r == a || r == b)
  {
    if a > b then a else b
  }

  /** Cutting a text short keeps it where it fits, and else gives one that does. */
  ghost predicate CutsShort(cut: (Text, int) -> Text) {
    forall t: Text, n: int ::
      (Columns(t) <= n ==> cut(t, n) == t) && (Columns(t) > n ==> Columns(cut(t, n)) <= Largest(n, 0))
  }

  /** A line in its parts: at the left the warning and the context, the columns after each of them; at
      the far right what is aside, the columns after it, and the status. */
  datatype Line = Line(warning: Text, after: nat, context: Text, between: nat, aside: Text, apart: nat, status: Text)

  function LeftOf(l: Line): nat { Columns(l.warning) + l.after + Columns(l.context) }
  function RightOf(l: Line): nat { Columns(l.aside) + l.apart + Columns(l.status) }

  predicate NoLeft(l: Line) { l.warning.Empty? && l.context.Empty? }
  predicate NoRight(l: Line) { l.aside.Empty? && l.status.Empty? }

  predicate AllBlank(l: Line) {
    forall t | t in {l.warning, l.context, l.aside, l.status} :: t.Empty? || t.blank
  }

  /** The columns left of so many by a text, the two kept beside it included. */
  function Beside(room: int, t: Text): int {
    if t.Empty? then room else room - Columns(t) - GAP
  }

  /** Who gets the room: the warning all the width; the status what is beside it; what is aside, whole
      or not at all, what is beside both; and the context what is beside all. */
  ghost predicate GivenRoom(l: Line, width: int, warning: Text, context: Text, aside: Text, status: Text, cut: (Text, int) -> Text) {
    && l.warning == cut(warning, width)
    && var room := Beside(width, l.warning);
    && l.status == (if !status.Empty? && room > 1 then cut(status, room) else Empty)
    && l.aside == (if Columns(aside) <= Beside(room, l.status) then aside else Empty)
    && var rest := Beside(Beside(room, l.status), l.aside);
    && l.context == (if !context.Empty? && rest > 1 then cut(context, rest) else Empty)
    && (l.after == if l.warning.Empty? || context.Empty? || rest <= 1 then 0 else GAP)
  }

  /** Two columns between what is aside and the status; and the right side at the far right. */
  predicate Aligned(l: Line, width: int) {
    && l.apart == (if l.aside.Empty? || l.status.Empty? then 0 else GAP)
    && var spaces := width - LeftOf(l) - RightOf(l);
       l.between == if NoRight(l) then 0 else Largest(spaces, if NoLeft(l) then 0 else 1)
  }

  /** A line so made is no wider than the terminal, and as wide where it has a right side; and its sides
      are two columns apart or more. */
  lemma LineFits(l: Line, width: int, warning: Text, context: Text, aside: Text, status: Text, cut: (Text, int) -> Text)
    requires width >= 1 && CutsShort(cut)
    requires GivenRoom(l, width, warning, context, aside, status, cut) && Aligned(l, width)
    ensures LeftOf(l) + l.between + RightOf(l) <= width
    ensures !NoRight(l) ==> LeftOf(l) + l.between + RightOf(l) == width
    ensures !NoLeft(l) && !NoRight(l) ==> l.between >= GAP
  {
    hide CutsShort;
    var room := Beside(width, l.warning);
    var rest := Beside(Beside(room, l.status), l.aside);
    CutFits(cut, warning, width);
    CutFits(cut, status, room);
    CutFits(cut, context, rest);
    RoomEnough(l, width);
  }

  lemma CutFits(cut: (Text, int) -> Text, t: Text, n: int)
    requires CutsShort(cut)
    ensures n >= 0 ==> Columns(cut(t, n)) <= n
  {
  }

  lemma RoomEnough(l: Line, width: int)
    requires Aligned(l, width) && Columns(l.warning) <= width
    requires l.after <= if l.warning.Empty? || Beside(Beside(Beside(width, l.warning), l.status), l.aside) <= 1 then 0 else GAP
    requires !l.status.Empty? ==> 0 <= Columns(l.status) <= Beside(width, l.warning)
    requires !l.aside.Empty? ==> Columns(l.aside) <= Beside(Beside(width, l.warning), l.status)
    requires !l.context.Empty? ==> Columns(l.context) <= Beside(Beside(Beside(width, l.warning), l.status), l.aside)
    ensures LeftOf(l) + l.between + RightOf(l) <= width
    ensures !NoRight(l) ==> LeftOf(l) + l.between + RightOf(l) == width
    ensures !NoLeft(l) && !NoRight(l) ==> l.between >= GAP
  {
  }

  /** Fits the four texts into a terminal's width. A line all blank is a blank that is kept. */
  method Bottom(width: int, warning: Text, context: Text, aside: Text, status: Text, cut: (Text, int) -> Text)
    returns (line: Line, keptBlank: bool)
    requires width >= 1 && CutsShort(cut)
    ensures GivenRoom(line, width, warning, context, aside, status, cut) && Aligned(line, width)
    ensures keptBlank <==> AllBlank(line)
  {
    hide CutsShort, AllBlank;
    var left := cut(warning, width);
    var room := width - Columns(left);
    if left != Empty { room := room - GAP; }
    ghost var beside := room;
    assert beside == Beside(width, left);
    var right := status;
    if right != Empty {
      right := if room > 1 then cut(right, room) else Empty;
      room := room - Columns(right);
    }
    var asideGap := if right != Empty then GAP else 0;
    assert room - asideGap == Beside(beside, right);
    var state := if aside != Empty && Columns(aside) + asideGap > room then Empty else aside;
    if state != Empty { room := room - Columns(state) - asideGap; }
    var apart := if state != Empty && right != Empty then GAP else 0;
    if state != Empty || right != Empty { room := room - GAP; }
    assert room == Beside(Beside(beside, right), state);
    var more, after := Empty, 0;
    if context != Empty && room > 1 {
      if left != Empty { after := GAP; }
      more := cut(context, room);
    }
    var between := 0;
    if state != Empty || right != Empty {
      var spaces := width - (Columns(left) + after + Columns(more)) - (Columns(state) + apart + Columns(right));
      if left != Empty || more != Empty { spaces := Largest(spaces, 1); }
      between := Largest(spaces, 0);
    }
    line := Line(left, after, more, between, state, apart, right);
    keptBlank := AllBlank(line);
  }

  /** What is shown whole: the warning, if it fits; the status, if it fits beside that and there are two
      columns for it; and what is aside, or nothing of it, as it fits beside both. */
  lemma ShownWhole(l: Line, width: int, warning: Text, context: Text, aside: Text, status: Text, cut: (Text, int) -> Text)
    requires width >= 1 && CutsShort(cut) && GivenRoom(l, width, warning, context, aside, status, cut)
    ensures Columns(warning) <= width ==> l.warning == warning
    ensures var room := if l.warning.Empty? then width else width - Columns(l.warning) - 2;
            && (room >= 2 && Columns(status) <= room ==> l.status == status)
            && (room <= 1 ==> l.status.Empty?)
            && var left := if l.status.Empty? then room else room - Columns(l.status) - 2;
               && (Columns(aside) <= left ==> l.aside == aside)
               && (Columns(aside) > left ==> l.aside.Empty?)
               && var rest := if l.aside.Empty? then left else left - Columns(l.aside) - 2;
                  && (rest >= 2 && Columns(context) <= rest ==> l.context == context)
                  && (rest <= 1 ==> l.context.Empty?)
  {
  }
}
