/** How many reports of one path the limiter lets through in any minute, from what its windows keep. */
module ReportHistory {
  const MINUTE: int := 60_000_000_000
  const REPORTS_PER_MINUTE: nat := 300

  /** A report let through: when, and the start of the window that counted it. */
  datatype Passed = Passed(path: string, start: int, at: int)

  function OfWindow(history: seq<Passed>, path: string, start: int): nat {
    if history == [] then 0
    else
      var last := history[|history| - 1];
      OfWindow(history[..|history| - 1], path, start) + (if last.path == path && last.start == start then 1 else 0)
  }

  predicate Within(p: Passed, path: string, from: int) {
    p.path == path && from <= p.at <= from + 60 * 1_000_000_000
  }

  /** How many of path's reports were let through in the 60 seconds after from, both ends included. */
  function InMinute(history: seq<Passed>, path: string, from: int): nat {
    if history == [] then 0
    else InMinute(history[..|history| - 1], path, from) + (if Within(history[|history| - 1], path, from) then 1 else 0)
  }

  ghost predicate Apart(a: int, b: int) {
    a == b || a + MINUTE <= b || b + MINUTE <= a
  }

  /** Reports fall in their window's minute, windows of a path start a minute apart, and none counts too many. */
  ghost predicate WellPaced(history: seq<Passed>) {
    && (forall i | 0 <= i < |history| :: history[i].start <= history[i].at < history[i].start + MINUTE)
    && (forall i, j | 0 <= i < |history| && 0 <= j < |history| && history[i].path == history[j].path ::
      Apart(history[i].start, history[j].start))
    && (forall path, start :: OfWindow(history, path, start) <= REPORTS_PER_MINUTE)
  }

  lemma {:induction false} CountedByTwo(history: seq<Passed>, path: string, from: int, s: int, t: int)
    requires forall i | 0 <= i < |history| && Within(history[i], path, from) :: history[i].start in {s, t}
    ensures InMinute(history, path, from) <= OfWindow(history, path, s) + OfWindow(history, path, t)
  {
    if history != [] {
      CountedByTwo(history[..|history| - 1], path, from, s, t);
    }
  }

  /** No 60 seconds let through more than two windows' worth of a path's reports. */
  lemma AtMostTwoWindows(history: seq<Passed>, path: string, from: int)
    requires WellPaced(history)
    ensures InMinute(history, path, from) <= 2 * REPORTS_PER_MINUTE
  {
    if i :| 0 <= i < |history| && Within(history[i], path, from) {
      var s := history[i].start;
      var t := s;
      if j :| 0 <= j < |history| && Within(history[j], path, from) && history[j].start != s {
        t := history[j].start;
      }
      forall k | 0 <= k < |history| && Within(history[k], path, from) ensures history[k].start in {s, t} {
        assert Apart(history[k].start, s) && Apart(history[k].start, t);
      }
      CountedByTwo(history, path, from, s, t);
    } else {
      CountedByTwo(history, path, from, from, from);
    }
  }

  /** How many of path's reports were let through. */
  function Passes(history: seq<Passed>, path: string): nat {
    if history == [] then 0
    else Passes(history[..|history| - 1], path) + if history[|history| - 1].path == path then 1 else 0
  }

  lemma PassesOneMore(history: seq<Passed>, p: Passed, path: string)
    ensures Passes(history + [p], path) == Passes(history, path) + if p.path == path then 1 else 0
  {
    assert (history + [p])[..|history|] == history;
  }

  lemma OfWindowOneMore(history: seq<Passed>, p: Passed, path: string, start: int)
    ensures OfWindow(history + [p], path, start)
         == OfWindow(history, path, start) + (if path == p.path && start == p.start then 1 else 0)
  {
    var more := history + [p];
    assert more[..|more| - 1] == history;
  }

  /** One more report let through, in a window that starts a minute after any other of its path's. */
  lemma PassedOneMore(history: seq<Passed>, p: Passed)
    requires WellPaced(history) && p.start <= p.at < p.start + MINUTE
    requires forall i | 0 <= i < |history| && history[i].path == p.path :: Apart(history[i].start, p.start)
    requires OfWindow(history, p.path, p.start) < REPORTS_PER_MINUTE
    ensures WellPaced(history + [p])
  {
    hide OfWindow;
    forall path, start ensures OfWindow(history + [p], path, start) <= REPORTS_PER_MINUTE {
      OfWindowOneMore(history, p, path, start);
    }
  }

  lemma {:induction false} NoneOfWindow(history: seq<Passed>, path: string, start: int)
    requires forall i | 0 <= i < |history| && history[i].path == path :: history[i].start != start
    ensures OfWindow(history, path, start) == 0
  {
    if history != [] { NoneOfWindow(history[..|history| - 1], path, start); }
  }
}
