/** The per-app report limiter (internal/appserve/log.go:71-178): windows of a minute by path, sweeps,
    and timers that hold a window by its identity. Its locked sections are the steps below; what they
    take to be told is told by later steps, with the lock free, in any order. */
module ReportLimiter {
  import opened ReportHistory

  class Window {
    const start: int
    var count: nat
    var dropped: nat
    var timed: bool  // it has had a timer armed

    ghost const path: string

    constructor (start: int, ghost path: string)
      ensures View() == WindowView(path, start, 0, 0, false)
    {
      this.start, this.path := start, path;
      count, dropped, timed := 0, 0, false;
    }

    ghost function View(): WindowView
      reads this
    {
      WindowView(path, start, count, dropped, timed)
    }
  }

  datatype WindowView = WindowView(path: string, start: int, count: nat, dropped: nat, timed: bool)

  /** A tell taken under the lock: drops of a path, not yet told. */
  datatype Telling = Telling(path: string, dropped: nat)

  /** The limiter, and what it has done: the windows by path and each one's fields; the timers armed and
      not yet fired; the tells taken under the lock and not yet made; by path, the reports refused and the
      drops told; the reports let through, in order; the latest moment read; and whether the clock never
      went back and no timer fired early. */
  datatype State = State(
    windows: map<string, Window>,
    views: map<Window, WindowView>,
    timers: set<(string, Window)>,
    owed: seq<Telling>,
    refused: map<string, nat>,
    told: map<string, nat>,
    passed: seq<Passed>,
    clock: int,
    steady: bool)

  function At(m: map<string, nat>, path: string): nat {
    if path in m then m[path] else 0
  }

  function Owed(owed: seq<Telling>, path: string): nat {
    if owed == [] then 0
    else Owed(owed[..|owed| - 1], path) + (if owed[|owed| - 1].path == path then owed[|owed| - 1].dropped else 0)
  }

  lemma {:induction false} OwedTogether(a: seq<Telling>, b: seq<Telling>, path: string)
    ensures Owed(a + b, path) == Owed(a, path) + Owed(b, path)
  {
    if b == [] {
      assert a + b == a;
    } else {
      assert (a + b)[..|a + b| - 1] == a + b[..|b| - 1];
      OwedTogether(a, b[..|b| - 1], path);
    }
  }

  ghost predicate Current(s: State, w: Window) {
    w in s.views && s.views[w].path in s.windows && s.windows[s.views[w].path] == w
  }

  /** A window is one path's, only its path's current window holds drops, and drops have a timer to tell them. */
  ghost predicate Kept(s: State) {
    && (forall p | p in s.windows :: s.windows[p] in s.views && s.views[s.windows[p]].path == p)
    && (forall t | t in s.timers :: t.1 in s.views && s.views[t.1].path == t.0)
    && (forall w | w in s.views && s.views[w].dropped > 0 :: s.views[w].timed && Current(s, w))
    && (forall w | w in s.views && s.views[w].timed && Current(s, w) :: (s.views[w].path, w) in s.timers)
    && (forall w | w in s.views :: s.views[w].count <= REPORTS_PER_MINUTE)
  }

  /** The drops a path's window still holds. */
  ghost function Held(s: State, path: string): nat {
    if path in s.windows && s.windows[path] in s.views then s.views[s.windows[path]].dropped else 0
  }

  /** Every refusal is told, or taken to be told, or held by the path's window. */
  ghost predicate Conserved(s: State) {
    forall path :: At(s.refused, path) == At(s.told, path) + Owed(s.owed, path) + Held(s, path)
  }

  /** What the windows now kept say of the reports let through before. */
  ghost predicate Paced(s: State) {
    && WellPaced(s.passed)
    && (forall p | p in s.windows && s.windows[p] in s.views ::
      var v := s.views[s.windows[p]];
      v.start <= s.clock && OfWindow(s.passed, p, v.start) == v.count)
    && (forall i | 0 <= i < |s.passed| :: Before(s, s.passed[i]))
  }

  /** A report was let through by its path's window now kept, or its window's minute was over before that one. */
  ghost predicate Before(s: State, r: Passed) {
    if r.path in s.windows && s.windows[r.path] in s.views then
      r.start == s.views[s.windows[r.path]].start || r.start + MINUTE <= s.views[s.windows[r.path]].start
    else
      r.start + MINUTE <= s.clock
  }

  ghost predicate Safe(s: State) {
    Kept(s) && Conserved(s) && (s.steady ==> Paced(s))
  }

  // The steps, of which a locked section takes several.

  ghost function Read(s: State, t: int): State {
    s.(clock := if s.clock <= t then t else s.clock, steady := s.steady && s.clock <= t)
  }

  ghost function Taken(s: State, path: string): State
    requires Kept(s) && path in s.windows
  {
    var w := s.windows[path];
    var n := s.views[w].dropped;
    if n == 0 then s
    else s.(owed := s.owed + [Telling(path, n)], views := s.views[w := s.views[w].(dropped := 0)])
  }

  ghost function Forgotten(s: State, path: string): State {
    s.(windows := s.windows - {path})
  }

  ghost function Renewed(s: State, path: string, w: Window, t: int): State {
    s.(windows := s.windows[path := w], views := s.views[w := WindowView(path, t, 0, 0, false)])
  }

  ghost function Refused(s: State, path: string): State
    requires Kept(s) && path in s.windows
  {
    var w := s.windows[path];
    s.(views := s.views[w := s.views[w].(dropped := s.views[w].dropped + 1, timed := true)],
       timers := s.timers + {(path, w)},
       refused := s.refused[path := At(s.refused, path) + 1])
  }

  ghost function Counted(s: State, path: string, t: int): State
    requires Kept(s) && path in s.windows
  {
    var w := s.windows[path];
    s.(views := s.views[w := s.views[w].(count := s.views[w].count + 1)],
       passed := s.passed + [Passed(path, s.views[w].start, t)])
  }

  ghost function Fired(s: State, path: string, w: Window): State {
    s.(timers := s.timers - {(path, w)})
  }

  ghost function Told(s: State, k: nat): State
    requires k < |s.owed|
  {
    var telling := s.owed[k];
    s.(owed := s.owed[..k] + s.owed[k + 1..], told := s.told[telling.path := At(s.told, telling.path) + telling.dropped])
  }

  lemma ReadSafe(s: State, t: int)
    requires Safe(s)
    ensures Safe(Read(s, t))
  {
  }

  /** A step that changes no window's start or count, and lets nothing through, keeps the pace. */
  lemma PacedStill(s: State, s': State)
    requires Paced(s) && Kept(s)
    requires s'.passed == s.passed && s'.clock == s.clock && s'.windows == s.windows && s'.views.Keys == s.views.Keys
    requires forall w | w in s.views :: s'.views[w].start == s.views[w].start && s'.views[w].count == s.views[w].count
    ensures Paced(s')
  {
    hide OfWindow, WellPaced;
    forall i | 0 <= i < |s'.passed| ensures Before(s', s'.passed[i]) { assert Before(s, s.passed[i]); }
  }

  lemma TakenSafe(s: State, path: string)
    requires Safe(s) && path in s.windows
    ensures Safe(Taken(s, path)) && Taken(s, path).views[s.windows[path]].dropped == 0
  {
    hide Paced, Owed;
    TakenKept(s, path);
    TakenHeld(s, path);
    hide Kept;
    var s' := Taken(s, path);
    var n := s.views[s.windows[path]].dropped;
    forall p ensures At(s'.refused, p) == At(s'.told, p) + Owed(s'.owed, p) + Held(s', p) {
      OwedTogether(s.owed, [Telling(path, n)], p);
      OwedOne(path, n, p);
    }
    if s.steady { PacedStill(s, s'); }
  }

  lemma TakenKept(s: State, path: string)
    requires Kept(s) && path in s.windows
    ensures Kept(Taken(s, path))
  {
  }

  lemma TakenHeld(s: State, path: string)
    requires Kept(s) && path in s.windows
    ensures forall p | p != path :: Held(Taken(s, path), p) == Held(s, p)
    ensures Held(s, path) == s.views[s.windows[path]].dropped && Held(Taken(s, path), path) == 0
  {
  }

  lemma OwedOne(path: string, n: nat, p: string)
    ensures Owed([Telling(path, n)], p) == if p == path then n else 0
  {
    assert Owed([Telling(path, n)][..0], p) == 0;
  }

  /** A window that holds no drops may go once its minute is over. */
  lemma ForgottenSafe(s: State, path: string)
    requires Safe(s) && path in s.windows && s.views[s.windows[path]].dropped == 0
    requires s.steady ==> s.views[s.windows[path]].start + MINUTE <= s.clock
    ensures Safe(Forgotten(s, path))
  {
    hide OfWindow, Owed, WellPaced;
    var s' := Forgotten(s, path);
    assert forall p | p in s'.windows :: s'.windows[p] == s.windows[p];
    if s.steady {
      forall i | 0 <= i < |s'.passed| ensures Before(s', s'.passed[i]) { assert Before(s, s.passed[i]); }
    }
  }

  /** A path's new window starts a minute after its last, if that one is still kept. */
  lemma RenewedSafe(s: State, path: string, w: Window, t: int)
    requires Safe(s) && w !in s.views && (s.steady ==> s.clock == t)
    requires path in s.windows ==> s.views[s.windows[path]].dropped == 0 && s.views[s.windows[path]].start + MINUTE <= t
    ensures Safe(Renewed(s, path, w, t))
  {
    hide Paced, Conserved, Kept;
    RenewedKept(s, path, w, t);
    RenewedConserved(s, path, w, t);
    if s.steady { RenewedPaced(s, path, w, t); }
  }

  lemma RenewedKept(s: State, path: string, w: Window, t: int)
    requires Kept(s) && w !in s.views
    requires path in s.windows ==> s.views[s.windows[path]].dropped == 0
    ensures Kept(Renewed(s, path, w, t))
  {
  }

  lemma RenewedConserved(s: State, path: string, w: Window, t: int)
    requires Kept(s) && Conserved(s) && w !in s.views
    requires path in s.windows ==> s.views[s.windows[path]].dropped == 0
    ensures Conserved(Renewed(s, path, w, t))
  {
    hide Owed;
    forall p ensures Held(Renewed(s, path, w, t), p) == Held(s, p) {
    }
  }

  lemma RenewedPaced(s: State, path: string, w: Window, t: int)
    requires Kept(s) && Paced(s) && w !in s.views && s.clock == t
    requires path in s.windows ==> s.views[s.windows[path]].start + MINUTE <= t
    ensures Paced(Renewed(s, path, w, t))
  {
    hide OfWindow, WellPaced;
    var s' := Renewed(s, path, w, t);
    forall i | 0 <= i < |s'.passed| ensures Before(s', s'.passed[i]) { assert Before(s, s.passed[i]); }
    forall i | 0 <= i < |s.passed| && s.passed[i].path == path ensures s.passed[i].start != t { assert Before(s, s.passed[i]); }
    NoneOfWindow(s.passed, path, t);
  }

  lemma RefusedSafe(s: State, path: string)
    requires Safe(s) && path in s.windows
    ensures Safe(Refused(s, path))
  {
    hide Paced, Owed;
    var s' := Refused(s, path);
    forall p ensures At(s'.refused, p) == At(s'.told, p) + Owed(s'.owed, p) + Held(s', p) {
      assert At(s.refused, p) == At(s.told, p) + Owed(s.owed, p) + Held(s, p);
    }
    if s.steady { PacedStill(s, s'); }
  }

  lemma CountedSafe(s: State, path: string, t: int)
    requires Safe(s) && path in s.windows && s.views[s.windows[path]].count < REPORTS_PER_MINUTE
    requires t - s.views[s.windows[path]].start < MINUTE && (s.steady ==> s.clock == t)
    ensures Safe(Counted(s, path, t))
  {
    hide Paced, Owed, Kept, Held, Counted;
    if s.steady { CountedPaced(s, path, t); }
    CountedKept(s, path, t);
  }

  lemma CountedKept(s: State, path: string, t: int)
    requires Kept(s) && path in s.windows && s.views[s.windows[path]].count < REPORTS_PER_MINUTE
    ensures var s' := Counted(s, path, t);
      && Kept(s') && s'.refused == s.refused && s'.told == s.told && s'.owed == s.owed && s'.steady == s.steady
      && forall p :: Held(s', p) == Held(s, p)
  {
  }

  lemma CountedPaced(s: State, path: string, t: int)
    requires Kept(s) && Paced(s) && path in s.windows && s.views[s.windows[path]].count < REPORTS_PER_MINUTE
    requires t - s.views[s.windows[path]].start < MINUTE && s.clock == t
    ensures Paced(Counted(s, path, t))
  {
    hide OfWindow, WellPaced;
    var s' := Counted(s, path, t);
    var p := Passed(path, s.views[s.windows[path]].start, t);
    forall q, start ensures OfWindow(s'.passed, q, start) == OfWindow(s.passed, q, start) + (if q == path && start == p.start then 1 else 0) {
      OfWindowOneMore(s.passed, p, q, start);
    }
    forall i | 0 <= i < |s.passed| ensures Before(s', s.passed[i]) { assert Before(s, s.passed[i]); }
    forall i | 0 <= i < |s.passed| && s.passed[i].path == path ensures Apart(s.passed[i].start, p.start) { assert Before(s, s.passed[i]); }
    PassedOneMore(s.passed, p);
  }

  lemma FiredSafe(s: State, path: string, w: Window)
    requires Safe(s) && (path in s.windows ==> s.windows[path] != w)
    ensures Safe(Fired(s, path, w))
  {
    hide Paced;
    if s.steady { PacedStill(s, Fired(s, path, w)); }
  }

  lemma ToldSafe(s: State, k: nat)
    requires Safe(s) && k < |s.owed|
    ensures Safe(Told(s, k))
  {
    hide Paced, Owed, Kept;
    var s' := Told(s, k);
    forall p ensures At(s'.refused, p) == At(s'.told, p) + Owed(s'.owed, p) + Held(s', p) {
      OwedWithout(s.owed, k, p);
      assert At(s.refused, p) == At(s.told, p) + Owed(s.owed, p) + Held(s, p);
    }
    if s.steady { PacedStill(s, s'); }
    KeptStill(s, s');
  }

  lemma KeptStill(s: State, s': State)
    requires Kept(s) && s'.windows == s.windows && s'.views == s.views && s'.timers == s.timers
    ensures Kept(s')
  {
  }

  lemma OwedWithout(owed: seq<Telling>, k: nat, p: string)
    requires k < |owed|
    ensures Owed(owed, p) == Owed(owed[..k] + owed[k + 1..], p) + (if p == owed[k].path then owed[k].dropped else 0)
  {
    hide Owed;
    OwedTogether(owed[..k], owed[k + 1..], p);
    OwedTogether(owed[..k], [owed[k]], p);
    OwedTogether(owed[..k] + [owed[k]], owed[k + 1..], p);
    OwedOne(owed[k].path, owed[k].dropped, p);
    assert owed == owed[..k] + [owed[k]] + owed[k + 1..];
  }

  /** Once no timer is pending and nothing is owed, every refusal has been told, once. */
  lemma AllToldWhenQuiet(s: State, path: string)
    requires Safe(s) && s.timers == {} && s.owed == []
    ensures At(s.told, path) == At(s.refused, path)
  {
    assert Held(s, path) == 0;
  }

  class Limiter {
    var windows: map<string, Window>
    var lastSweep: int
    var owed: seq<Telling>
    ghost var made: set<Window>
    var timers: set<(string, Window)>  // the runtime's: armed, and not yet fired
    ghost var refused: map<string, nat>
    ghost var told: map<string, nat>
    ghost var passed: seq<Passed>
    ghost var clock: int
    ghost var steady: bool

    ghost function Abs(): State
      reads this, made
    {
      State(windows, map w | w in made :: w.View(), timers, owed, refused, told, passed, clock, steady)
    }

    ghost predicate Valid()
      reads this, made
    {
      Safe(Abs())
    }

    constructor (now: int)
      ensures Valid() && Abs() == State(map[], map[], {}, [], map[], map[], [], now, true)
      ensures made == {}
    {
      windows, lastSweep, owed, made := map[], now, [], {};
      timers, refused, told, passed, clock, steady := {}, map[], map[], [], now, true;
    }

    ghost method ReadClock(t: int)
      requires Valid()
      modifies this`clock, this`steady
      ensures Valid() && Abs() == Read(old(Abs()), t)
      ensures steady == (old(steady) && old(clock) <= t) && t <= clock && (steady ==> clock == t)
    {
      hide Safe;
      ReadSafe(Abs(), t);
      steady := steady && clock <= t;
      clock := if clock <= t then t else clock;
      assert Abs() == Read(old(Abs()), t);
    }

    /** Moves w's drops to what is owed. */
    method Take(path: string, w: Window)
      requires Valid() && path in windows && windows[path] == w && w in made
      modifies this`owed, w`dropped
      ensures Valid() && w.dropped == 0
      ensures Kept(old(Abs())) && Abs() == Taken(old(Abs()), path)
    {
      hide Safe, Kept, Taken;
      ghost var after := TakenAfter(path, w);
      var n := w.dropped;
      w.dropped := 0;
      if n > 0 { owed := owed + [Telling(path, n)]; }
      assert Abs().views == after.views;
      assert Abs() == after;
    }

    lemma TakenAfter(path: string, w: Window) returns (after: State)
      requires Valid() && path in windows && windows[path] == w && w in made
      ensures Kept(Abs()) && after == Taken(Abs(), path) && Safe(after)
      ensures after == Abs().(owed := if w.dropped == 0 then owed else owed + [Telling(path, w.dropped)],
                              views := Abs().views[w := w.View().(dropped := 0)])
    {
      hide Conserved, Paced;
      TakenSafe(Abs(), path);
      after := Taken(Abs(), path);
      assert w.dropped == 0 ==> w.View().(dropped := 0) == Abs().views[w];
      assert after.views == Abs().views[w := w.View().(dropped := 0)];
    }

    method Forget(path: string)
      requires Valid() && path in windows && windows[path] in made && windows[path].dropped == 0
      requires steady ==> windows[path].start + MINUTE <= clock
      modifies this`windows
      ensures Valid() && Abs() == Forgotten(old(Abs()), path) && windows == old(windows) - {path}
    {
      hide Safe;
      ForgottenSafe(Abs(), path);
      windows := windows - {path};
      assert Abs() == Forgotten(old(Abs()), path);
    }

    /** Drops every window a minute old or more at t; what it held is owed. */
    method Sweep(t: int)
      requires Valid() && t <= clock && (steady ==> clock == t)
      modifies this`windows, this`owed, made`dropped
      ensures Valid()
      ensures forall p | p in windows :: p in old(windows) && windows[p] == old(windows)[p]
      ensures forall p | p in old(windows) :: p in windows <==> t - old(windows)[p].start < MINUTE
    {
      hide Safe, Kept, Taken;
      var left := windows.Keys;
      while left != {}
        invariant Valid() && left <= windows.Keys <= old(windows).Keys
        invariant forall p | p in windows :: windows[p] == old(windows)[p]
        invariant forall p | p in old(windows) && p !in left :: p in windows <==> t - old(windows)[p].start < MINUTE
        decreases left
      {
        var path :| path in left;
        left := left - {path};
        WindowsMade(path);
        if t - windows[path].start >= MINUTE {
          Take(path, windows[path]);
          Forget(path);
        }
      }
    }

    /** At most one sweep a minute. */
    method SweepWhenDue(t: int)
      requires Valid() && t <= clock && (steady ==> clock == t)
      modifies this`windows, this`owed, this`lastSweep, made`dropped
      ensures Valid()
      ensures forall p | p in windows :: p in old(windows) && windows[p] == old(windows)[p]
      ensures forall p | p in old(windows) && t - old(windows)[p].start < MINUTE :: p in windows
      ensures lastSweep == if t - old(lastSweep) >= MINUTE then t else old(lastSweep)
      ensures t - old(lastSweep) >= MINUTE ==> forall p | p in windows :: t - windows[p].start < MINUTE
    {
      hide Safe;
      if t - lastSweep >= MINUTE {
        Sweep(t);
        ghost var swept := Abs();
        lastSweep := t;
        assert Abs() == swept;
      }
    }

    lemma WindowsMade(path: string)
      requires Valid() && path in windows
      ensures windows[path] in made && windows[path].path == path
      ensures forall p | p in windows && p != path :: windows[p] != windows[path]
    {
      assert windows[path] in Abs().views;
    }

    method Renew(path: string, t: int) returns (w: Window)
      requires Valid() && (steady ==> clock == t)
      requires path in windows ==> windows[path] in made && windows[path].dropped == 0 && windows[path].start + MINUTE <= t
      modifies this`windows, this`made
      ensures Valid() && fresh(w) && made == old(made) + {w} && w.start == t && w.count == 0 && Abs() == Renewed(old(Abs()), path, w, t)
    {
      hide Safe;
      ghost var before := Abs();
      w := new Window(t, path);
      RenewedSafe(before, path, w, t);
      windows := windows[path := w];
      made := made + {w};
      assert Abs().views == Renewed(before, path, w, t).views;
      assert Abs() == Renewed(before, path, w, t);
    }

    /** path's window of the minute t is in, a new one when its last is over or gone. */
    method CurrentWindow(path: string, t: int) returns (w: Window)
      requires Valid() && (steady ==> clock == t)
      modifies this`windows, this`made, this`owed, made`dropped
      ensures Valid() && w in made && fresh(made - old(made)) && old(made) <= made
      ensures windows == old(windows)[path := w] && t - w.start < MINUTE
      ensures path in old(windows) && t - old(windows)[path].start < MINUTE ==> w == old(windows)[path] && Abs() == old(Abs())
      ensures (path in old(windows) && t - old(windows)[path].start < MINUTE) || w.count == 0
    {
      hide Safe, Kept, Taken;
      if path in windows {
        WindowsMade(path);
        if t - windows[path].start < MINUTE {
          w := windows[path];
          return;
        }
        if windows[path].dropped > 0 { Take(path, windows[path]); }
      }
      w := Renew(path, t);
    }

    method Refuse(path: string, w: Window)
      requires Valid() && path in windows && windows[path] == w && w in made
      modifies this`refused, this`timers, w`dropped, w`timed
      ensures Valid() && refused == old(refused)[path := At(old(refused), path) + 1]
      ensures Kept(old(Abs())) && Abs() == Refused(old(Abs()), path)
    {
      hide Safe, Kept, Refused;
      ghost var after := RefusedAfter(path, w);
      w.dropped := w.dropped + 1;
      refused := refused[path := At(refused, path) + 1];
      if !w.timed {
        w.timed := true;
        timers := timers + {(path, w)};
      }
      assert Abs().views == after.views;
      assert Abs() == after;
    }

    lemma RefusedAfter(path: string, w: Window) returns (after: State)
      requires Valid() && path in windows && windows[path] == w && w in made
      ensures Kept(Abs()) && after == Refused(Abs(), path) && Safe(after)
      ensures after == Abs().(views := Abs().views[w := w.View().(dropped := w.dropped + 1, timed := true)],
                              timers := if w.timed then timers else timers + {(path, w)},
                              refused := refused[path := At(refused, path) + 1])
    {
      hide Conserved, Paced;
      RefusedSafe(Abs(), path);
      after := Refused(Abs(), path);
      assert Current(Abs(), w) && Abs().views[w] == w.View();
      assert w.timed ==> timers + {(path, w)} == timers;
    }

    method Count(path: string, w: Window, t: int)
      requires Valid() && path in windows && windows[path] == w && w in made
      requires w.count < REPORTS_PER_MINUTE && t - w.start < MINUTE && (steady ==> clock == t)
      modifies this`passed, w`count
      ensures Valid() && passed == old(passed) + [Passed(path, w.start, t)]
      ensures Kept(old(Abs())) && Abs() == Counted(old(Abs()), path, t)
    {
      hide Safe, Kept, Counted;
      ghost var after := CountedAfter(path, w, t);
      w.count := w.count + 1;
      passed := passed + [Passed(path, w.start, t)];
      assert Abs().views == after.views;
      assert Abs() == after;
    }

    lemma CountedAfter(path: string, w: Window, t: int) returns (after: State)
      requires Valid() && path in windows && windows[path] == w && w in made
      requires w.count < REPORTS_PER_MINUTE && t - w.start < MINUTE && (steady ==> clock == t)
      ensures Kept(Abs()) && after == Counted(Abs(), path, t) && Safe(after)
      ensures after == Abs().(views := Abs().views[w := w.View().(count := w.count + 1)], passed := passed + [Passed(path, w.start, t)])
    {
      hide Conserved, Paced;
      assert Abs().views[w] == w.View();
      CountedSafe(Abs(), path, t);
      after := Counted(Abs(), path, t);
    }

    /** Whether path's window of this minute is full is what the reports let through say. */
    lemma FullByHistory(path: string, t: int)
      requires Valid()
      ensures steady && clock <= t ==>
        ((path in windows && t - windows[path].start < 60 * 1_000_000_000 && windows[path] in made && windows[path].count >= 300)
         <==> exists start :: t - start < 60 * 1_000_000_000 && OfWindow(passed, path, start) >= 300)
    {
      hide Conserved, WellPaced;
      var s := Abs();
      if steady && clock <= t {
        if path in windows {
          assert windows[path] in s.views && s.views[windows[path]] == windows[path].View();
          assert OfWindow(passed, path, windows[path].start) == windows[path].count;
        }
        forall start | t - start < 60 * 1_000_000_000 && OfWindow(passed, path, start) >= 300
          ensures path in windows && windows[path].start == start && windows[path].count >= 300
        {
          SomeOfWindow(passed, path, start);
          var i :| 0 <= i < |passed| && passed[i].path == path && passed[i].start == start;
          assert Before(s, passed[i]);
        }
      }
    }

    /** The locked section of allow, at t. path's report is let through when its window of
        this minute has let fewer than the limit through, and a path without one has a new one. */
    method Allow(path: string, t: int) returns (ok: bool)
      requires Valid()
      modifies this, made
      ensures Valid() && fresh(made - old(made))
      ensures steady <==> old(steady) && old(clock) <= t
      ensures told == old(told)
      ensures ok ==> refused == old(refused) && exists start :: passed == old(passed) + [Passed(path, start, t)]
      ensures !ok ==> refused == old(refused)[path := At(old(refused), path) + 1] && passed == old(passed)
      ensures ok <==> !(path in old(windows) && t - old(windows)[path].start < 60 * 1_000_000_000
                        && old(windows[path] in made && windows[path].count >= 300))
      ensures t - old(lastSweep) >= 60 * 1_000_000_000 ==>
        forall p | p in windows && windows[p] in made :: t - windows[p].start < 60 * 1_000_000_000
      // Of the history alone: it is refused exactly when a window begun less than a minute ago let 300 through
      ensures steady ==>
        (!ok <==> exists start :: t - start < 60 * 1_000_000_000 && OfWindow(old(passed), path, start) >= 300)
    {
      hide *;
      FullByHistory(path, t);
      AMinute();
      ok := Decide(path, t);
    }

    method Decide(path: string, t: int) returns (ok: bool)
      requires Valid()
      modifies this, made
      ensures Valid() && fresh(made - old(made))
      ensures steady <==> old(steady) && old(clock) <= t
      ensures told == old(told)
      ensures ok ==> refused == old(refused) && exists start :: passed == old(passed) + [Passed(path, start, t)]
      ensures !ok ==> refused == old(refused)[path := At(old(refused), path) + 1] && passed == old(passed)
      ensures ok <==> !(path in old(windows) && t - old(windows)[path].start < MINUTE
                        && old(windows[path] in made && windows[path].count >= REPORTS_PER_MINUTE))
      ensures t - old(lastSweep) >= MINUTE ==> forall p | p in windows && windows[p] in made :: t - windows[p].start < MINUTE
    {
      hide *;
      if path in windows { WindowsMade(path); }
      ReadClock(t);
      SweepWhenDue(t);
      SomeAllowed();
      var w := CurrentWindow(path, t);
      if w.count >= REPORTS_PER_MINUTE {
        Refuse(path, w);
        return false;
      }
      Count(path, w, t);
      ok := true;
    }

    /** A timer fires at t. What its window still holds is owed; and the window goes, if it is still its path's. */
    method Flush(path: string, w: Window, t: int)
      requires Valid() && (path, w) in timers
      modifies this, made
      ensures Valid() && timers == old(timers) - {(path, w)} && made == old(made)
      ensures steady <==> old(steady) && old(clock) <= t && w.start + MINUTE <= t
      ensures refused == old(refused) && passed == old(passed) && told == old(told)
      ensures windows == if path in old(windows) && old(windows)[path] == w then old(windows) - {path} else old(windows)
    {
      hide *;
      FiredHolds(path, w);
      ReadClock(t);
      SteadyOnly(w.start + MINUTE <= t);
      if w.dropped > 0 {
        Take(path, w);
      }
      if path in windows && windows[path] == w {
        Forget(path);
      }
      Disarm(path, w);
    }

    method Disarm(path: string, w: Window)
      requires Valid() && (path in windows ==> windows[path] != w)
      modifies this`timers
      ensures Valid() && Abs() == Fired(old(Abs()), path, w) && timers == old(timers) - {(path, w)}
    {
      hide Safe;
      FiredSafe(Abs(), path, w);
      timers := timers - {(path, w)};
      assert Abs() == Fired(old(Abs()), path, w);
    }

    ghost method SteadyOnly(still: bool)
      requires Valid()
      modifies this`steady
      ensures Valid() && steady == (old(steady) && still)
    {
      hide Kept, Conserved, Paced;
      steady := steady && still;
      assert Abs() == old(Abs()).(steady := old(steady) && still);
      SafeUnsteady(old(Abs()), steady);
    }

    lemma FiredHolds(path: string, w: Window)
      requires Valid() && (path, w) in timers
      ensures w in made && (w.dropped > 0 ==> path in windows && windows[path] == w)
    {
      assert w in Abs().views;
    }

    /** Tells one of the drops taken, which is then no longer owed. */
    method Tell(k: nat)
      requires Valid() && k < |owed|
      modifies this`owed, this`told
      ensures Valid() && Abs() == Told(old(Abs()), k)
    {
      hide Safe;
      ToldSafe(Abs(), k);
      var telling := owed[k];
      told := told[telling.path := At(told, telling.path) + telling.dropped];
      owed := owed[..k] + owed[k + 1..];
      assert Abs() == Told(old(Abs()), k);
    }
  }

  lemma {:induction false} SomeOfWindow(history: seq<Passed>, path: string, start: int)
    requires OfWindow(history, path, start) > 0
    ensures exists i :: 0 <= i < |history| && history[i].path == path && history[i].start == start
  {
    var last := history[|history| - 1];
    if last.path != path || last.start != start {
      SomeOfWindow(history[..|history| - 1], path, start);
      var i :| 0 <= i < |history| - 1 && history[..|history| - 1][i].path == path && history[..|history| - 1][i].start == start;
      assert history[i] == history[..|history| - 1][i];
    }
  }

  lemma AMinute()
    ensures MINUTE == 60 * 1_000_000_000 && REPORTS_PER_MINUTE == 300
  {
  }

  lemma SomeAllowed()
    ensures REPORTS_PER_MINUTE > 0
  {
  }

  lemma SafeUnsteady(s: State, steady: bool)
    requires Safe(s) && (steady ==> s.steady)
    ensures Safe(s.(steady := steady))
  {
  }

  datatype Step =
    | Reporting(path: string, at: int)
    | Firing(at: int)  // any one timer
    | Speaking(owing: nat)

  /** Every run of reports, timers and tells, in any order: each report is let through or refused, once; a
      path's refusals are those told, those taken
      to be told, and those its window holds; drops held have their timer pending; and if the clock never
      goes back and no timer fires early, no 60 seconds let through more than 600 of a path's reports. */
  method Run(now: int, steps: seq<Step>) returns (l: Limiter)
    ensures fresh(l)
    ensures forall path :: Passes(l.passed, path) + At(l.refused, path) == Reports(steps, path)
    ensures var s := l.Abs();
      && (forall path :: At(s.refused, path) == At(s.told, path) + Owed(s.owed, path) + Held(s, path))
      && (forall path | Held(s, path) > 0 :: path in s.windows && (path, s.windows[path]) in s.timers)
      && (s.timers == {} && s.owed == [] ==> forall path :: At(s.told, path) == At(s.refused, path))
      && (s.steady ==> forall path, from :: InMinute(s.passed, path, from) <= 600)
  {
    l := new Limiter(now);
    assert steps[..0] == [];
    for n := 0 to |steps|
      invariant fresh(l) && l.Valid() && fresh(l.made)
      invariant forall path :: Passes(l.passed, path) + At(l.refused, path) == Reports(steps[..n], path)
    {
      forall path ensures Reports(steps[..n + 1], path) == Reports(steps[..n], path) + if steps[n].Reporting? && steps[n].path == path then 1 else 0 {
        ReportsOneMore(steps, n, path);
      }
      TakeStep(l, steps[n]);
    }
    assert steps[..|steps|] == steps;
    SafeMeans(l.Abs());
  }

  method TakeStep(l: Limiter, step: Step)
    requires l.Valid()
    modifies l, l.made
    ensures l.Valid() && fresh(l.made - old(l.made))
    ensures step.Speaking? && step.owing < |old(l.owed)| ==> l.Abs() == Told(old(l.Abs()), step.owing)
    ensures step.Firing? && old(l.timers) != {} ==> exists timer :: timer in old(l.timers) && l.timers == old(l.timers) - {timer}
    ensures forall path :: Passes(l.passed, path) + At(l.refused, path) ==
              Passes(old(l.passed), path) + At(old(l.refused), path) + if step.Reporting? && step.path == path then 1 else 0
  {
    hide *;
    match step
    case Reporting(path, at) =>
      var ok := l.Allow(path, at);
      forall p ensures Passes(l.passed, p) + At(l.refused, p) == Passes(old(l.passed), p) + At(old(l.refused), p) + if p == path then 1 else 0 {
        if ok {
          var start :| l.passed == old(l.passed) + [Passed(path, start, at)];
          PassesOneMore(old(l.passed), Passed(path, start, at), p);
        }
        AtOneMore(old(l.refused), path, p);
      }
    case Firing(at) =>
      if l.timers != {} {
        var timer :| timer in l.timers;
        l.Flush(timer.0, timer.1, at);
      }
    case Speaking(owing) =>
      if owing < |l.owed| { l.Tell(owing); }
  }

  lemma AtOneMore(m: map<string, nat>, path: string, p: string)
    ensures At(m[path := At(m, path) + 1], p) == At(m, p) + if p == path then 1 else 0
  {
  }

  /** How many reports of path were made. */
  function Reports(steps: seq<Step>, path: string): nat {
    if steps == [] then 0
    else
      var last := steps[|steps| - 1];
      Reports(steps[..|steps| - 1], path) + if last.Reporting? && last.path == path then 1 else 0
  }

  lemma ReportsOneMore(steps: seq<Step>, n: nat, path: string)
    requires n < |steps|
    ensures Reports(steps[..n + 1], path) ==
            Reports(steps[..n], path) + if steps[n].Reporting? && steps[n].path == path then 1 else 0
  {
    assert steps[..n + 1][..n] == steps[..n];
  }

  lemma SafeMeans(s: State)
    requires Safe(s)
    ensures forall path :: At(s.refused, path) == At(s.told, path) + Owed(s.owed, path) + Held(s, path)
    ensures forall path | Held(s, path) > 0 :: path in s.windows && (path, s.windows[path]) in s.timers
    ensures s.timers == {} && s.owed == [] ==> forall path :: At(s.told, path) == At(s.refused, path)
    ensures s.steady ==> forall path, from :: InMinute(s.passed, path, from) <= 600
  {
    hide Owed, InMinute, OfWindow, WellPaced;
    forall path | Held(s, path) > 0 ensures path in s.windows && (path, s.windows[path]) in s.timers {
      assert Current(s, s.windows[path]);
    }
    if s.timers == {} && s.owed == [] {
      forall path ensures At(s.told, path) == At(s.refused, path) { AllToldWhenQuiet(s, path); }
    }
    if s.steady {
      forall path, from ensures InMinute(s.passed, path, from) <= 600 { AtMostTwoWindows(s.passed, path, from); }
    }
  }
}
