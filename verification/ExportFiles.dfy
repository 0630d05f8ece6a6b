/** Exports' files and the links that expire (internal/exports/exports.go). Each method is one atomic
    step: what is done under the mutex, or one call on the file system. Everything longer (an export, an
    Open, a Sweep, Close) is a task that takes its steps one at a time, between any steps of the others. */
module ExportFiles {
  import opened Options

  type Name = string

  /** Where an export made here has got to. */
  datatype Phase =
    | Writing
    | Closed(expiresAt: int)   // its file is whole, its link not yet made
    | Linked(expiresAt: int)
    | Removed(expiresAt: int)  // its link forgotten
    | Discarded

  datatype Task =
    | Clearing(since: Option<int>, tokens: set<Name>)                    // a sweep as of since, or Close
    | Removing(since: Option<int>, tokens: set<Name>, file: Name)        // its link forgotten, its file next
    | Judging(asOf: int, entries: set<Name>)                             // the folder listed
    | Looked(asOf: int, entries: set<Name>, entry: Name)                 // one entry found not linked here
    | Doomed(asOf: int, entries: set<Name>, entry: Name)                 // and last written too long ago
    | Opening(token: Name, expiresAt: int)                               // its link found
    | Checked(token: Name, expiresAt: int, at: int)                      // and not expired then
    | Answered(token: Name, expiresAt: int, at: int, ok: bool)
    | Ended

  predicate GoesOn(from: Phase, to: Phase) {
    || to == from
    || (from.Writing? && (to.Closed? || to.Discarded?))
    || (from.Closed? && to == Linked(from.expiresAt))
    || (from.Linked? && to == Removed(from.expiresAt))
  }

  /** What the steps are about: the code's own state, the folder, and each export's and each task's place. */
  datatype State = State(
    ttl: int,
    links: map<Name, int>,
    disk: map<Name, int>,
    tasks: seq<Task>,
    now: int,
    phases: map<Name, Phase>,
    used: set<Name>)

  class Files {
    const ttl: int
    var links: map<Name, int>   // a finished export's expiry
    var disk: map<Name, int>    // the folder: each file's last write
    var tasks: seq<Task>
    var now: int
    var phases: map<Name, Phase>
    var used: set<Name>         // every name there was
    ghost var closed: set<Name> // tokens Close took to remove
    ghost var slow: set<Name>   // exports that went a link's life without a write, before their link was made
    ghost var overtaken: set<Name>  // exports a sweep that looked before they had a link found last written too long ago

    ghost function Abs(): State
      reads this
    {
      State(ttl, links, disk, tasks, now, phases, used)
    }

    ghost predicate Unfinished(name: Name)
      reads this
    {
      name in phases && (phases[name].Writing? || phases[name].Closed?)
    }

    /** Made here, and neither discarded nor forgotten. */
    ghost predicate Ours(name: Name)
      reads this
    {
      name in links || Unfinished(name)
    }

    /** Links are exactly the linked exports', and a link goes only once expired, or by Close. */
    ghost predicate LinksKept()
      reads this
    {
      && phases.Keys + disk.Keys <= used
      && (forall t | t in links :: t in phases && phases[t] == Linked(links[t]))
      && (forall t | t in phases && phases[t].Linked? :: t in links)
      && (forall t | t in phases && phases[t].Removed? :: t in closed || now > phases[t].expiresAt)
    }

    /** Unless a sweep overtook it, what is linked or unfinished has its file, however old. */
    ghost predicate FilesKept()
      reads this
    {
      && (forall t | Ours(t) && t !in overtaken :: t in disk)
      && overtaken <= slow && overtaken <= phases.Keys
      && (forall t | Unfinished(t) && t in disk && t !in slow :: now - disk[t] <= ttl)
    }

    /** A sweep is about to remove the entry. */
    ghost predicate AboutToGo(name: Name)
      reads this
    {
      exists i :: 0 <= i < |tasks| && tasks[i].Doomed? && tasks[i].entry == name
    }

    /** What a sweep overtook is gone, or about to go. */
    ghost predicate DoomKept()
      reads this
    {
      forall t | t in overtaken && Ours(t) && t in disk :: AboutToGo(t)
    }

    ghost predicate TaskKept(task: Task)
      reads this
    {
      match task
      case Clearing(since, tokens) => ClearingKept(since, tokens)
      case Removing(since, tokens, file) =>
        ClearingKept(since, tokens) && file in phases && phases[file].Removed?
      case Judging(asOf, entries) => asOf <= now && entries <= used
      case Looked(asOf, entries, entry) =>
        asOf <= now && entries <= used && entry in used
        && (entry in links && entry in disk && entry !in slow ==> disk[entry] >= asOf - ttl)
      case Doomed(asOf, entries, entry) =>
        asOf <= now && entries <= used && entry in used && (Ours(entry) ==> entry in overtaken)
      case Opening(token, expiresAt) => Known(token, expiresAt)
      case Checked(token, expiresAt, at) => Known(token, expiresAt) && at <= expiresAt && at <= now
      case Answered(token, expiresAt, at, ok) =>
        Known(token, expiresAt) && (ok ==> at <= expiresAt) && (token !in overtaken && !ok ==> token in closed || now > expiresAt)
      case Ended => true
    }

    ghost predicate ClearingKept(since: Option<int>, tokens: set<Name>)
      reads this
    {
      && (since.None? ==> tokens <= closed)
      && (since.Some? ==> since.value <= now)
      && forall t | t in tokens :: t in phases && (phases[t].Linked? || phases[t].Removed?)
                                && (since.Some? ==> phases[t].expiresAt < since.value)
    }

    ghost predicate Known(token: Name, expiresAt: int)
      reads this
    {
      token in phases && phases[token] in {Linked(expiresAt), Removed(expiresAt)}
    }

    ghost predicate Valid()
      reads this
    {
      && LinksKept()
      && FilesKept()
      && (forall i | 0 <= i < |tasks| :: TaskKept(tasks[i]))
      && DoomKept()
      && 0 <= ttl
    }

    /** What any step does, at most: time goes on, names are only added, and an export goes its way. */
    twostate predicate Goes()
      reads this
    {
      && old(now) <= now && old(used) <= used && old(closed) <= closed && old(slow) <= slow && old(overtaken) <= overtaken
      && (forall t | t in old(phases) :: t in phases && GoesOn(old(phases)[t], phases[t]))
      && (forall t | t in phases && t !in old(phases) :: t !in old(used))
      && (forall t | t in links && t in disk :: t in old(disk) && old(disk)[t] <= disk[t])
      && (forall t | t in old(phases) && t in disk :: t in old(disk))
    }

    twostate lemma TaskStill(task: Task)
      requires old(LinksKept()) && LinksKept() && old(FilesKept()) && FilesKept() && Goes()
      requires old(TaskKept(task))
      ensures TaskKept(task)
    {
    }

    twostate lemma TasksStill()
      requires old(Valid()) && LinksKept() && FilesKept() && Goes() && tasks == old(tasks) && overtaken == old(overtaken)
      ensures Valid()
    {
      hide TaskKept;
      forall i | 0 <= i < |tasks| ensures TaskKept(tasks[i]) { TaskStill(tasks[i]); }
      forall t | t in overtaken && Ours(t) && t in disk ensures AboutToGo(t) { assert old(Ours(t)) && old(AboutToGo(t)); }
    }

    constructor (ttl: nat, others: map<Name, int>, now: int)
      ensures Valid() && slow == {} && overtaken == {} && links == map[] && tasks == [] && phases == map[] && closed == {}
      ensures this.ttl == ttl && this.now == now && disk == others && used == others.Keys
    {
      this.ttl := ttl;
      links, disk, tasks := map[], others, [];
      phases, used, this.now, closed, slow, overtaken := map[], others.Keys, now, {}, {}, {};
    }

    // The world: time passes, other processes write and remove files of their own.

    method Pass(t: nat)
      requires Valid()
      modifies this`now, this`slow
      ensures Valid() && now == old(now) + t
      ensures slow == old(slow) + set x | x in disk && Unfinished(x) && now - disk[x] > ttl
    {
      hide TaskKept, DoomKept, AboutToGo;
      now := now + t;
      slow := slow + set x | x in disk && Unfinished(x) && now - disk[x] > ttl;
      TasksStill();
    }

    method OthersWrite(name: Name, at: int)
      requires Valid() && name !in phases
      modifies this`disk, this`used
      ensures Valid() && disk == old(disk)[name := at] && links == old(links) && used == old(used) + {name}
    {
      hide TaskKept, DoomKept, AboutToGo;
      disk := disk[name := at];
      used := used + {name};
      TasksStill();
    }

    // An export.

    /** Starts a file under a token no name was. */
    method Create(token: Name)
      requires Valid() && token !in used
      modifies this`disk, this`phases, this`used
      ensures Valid() && disk == old(disk)[token := now] && phases == old(phases)[token := Writing] && used == old(used) + {token}
    {
      hide TaskKept, DoomKept, AboutToGo;
      disk := disk[token := now];
      phases := phases[token := Writing];
      used := used + {token};
      TasksStill();
    }

    method Write(token: Name)
      requires Valid() && token in phases && phases[token].Writing?
      modifies this`disk
      ensures Valid() && disk == if token in old(disk) then old(disk)[token := now] else old(disk)
    {
      hide TaskKept, DoomKept, AboutToGo;
      if token in disk { disk := disk[token := now]; }
      TasksStill();
    }

    /** Done's first half: closes the file. */
    method CloseFile(token: Name)
      requires Valid() && token in phases && phases[token].Writing?
      modifies this`phases
      ensures Valid() && phases == old(phases)[token := Closed(now + ttl)]
    {
      hide TaskKept, DoomKept, AboutToGo;
      phases := phases[token := Closed(now + ttl)];
      TasksStill();
    }

    /** Done's second half: makes the link. */
    method Link(token: Name, expiresAt: int)
      requires Valid() && token in phases && phases[token] == Closed(expiresAt)
      modifies this`links, this`phases
      ensures Valid() && links == old(links)[token := expiresAt] && phases == old(phases)[token := Linked(expiresAt)]
    {
      hide TaskKept, DoomKept, AboutToGo;
      phases := phases[token := Linked(expiresAt)];
      links := links[token := expiresAt];
      assert forall t :: Ours(t) == old(Ours(t)) && (Unfinished(t) ==> old(Unfinished(t))) by { hide FilesKept, LinksKept, Goes; }
      assert LinksKept() by { hide FilesKept, Goes, Ours, Unfinished; }
      assert Goes() by { hide FilesKept, LinksKept, Ours, Unfinished; }
      assert FilesKept() by { hide Goes, LinksKept, Ours, Unfinished; }
      hide LinksKept, FilesKept, Goes, Ours, Unfinished;
      TasksStill();
    }

    /** Discards an export's file: Abort, or Done when its file can't be closed. */
    method Discard(token: Name)
      requires Valid() && token in phases && phases[token].Writing?
      modifies this`disk, this`phases
      ensures Valid() && disk == old(disk) - {token} && phases == old(phases)[token := Discarded]
    {
      hide TaskKept, DoomKept, AboutToGo;
      disk := disk - {token};
      phases := phases[token := Discarded];
      TasksStill();
    }

    // Longer tasks. Each is started, then takes its steps as task i.

    method Start(task: Task)
      requires Valid() && TaskKept(task)
      modifies this`tasks
      ensures Valid() && tasks == old(tasks) + [task]
    {
      hide TaskKept;
      ghost var before := tasks;
      tasks := tasks + [task];
      forall j | 0 <= j < |tasks| ensures TaskKept(tasks[j]) { TaskStill(tasks[j]); }
      forall t | t in overtaken && Ours(t) && t in disk ensures AboutToGo(t) {
        assert old(AboutToGo(t));
        var j :| 0 <= j < |before| && before[j].Doomed? && before[j].entry == t;
        assert tasks[j] == before[j];
      }
    }

    /** Open's look under the lock. */
    method StartOpen(token: Name)
      requires Valid()
      modifies this`tasks
      ensures Valid()
      ensures tasks == if token in links then old(tasks) + [Opening(token, links[token])] else old(tasks)
    {
      if token in links { Start(Opening(token, links[token])); }
    }

    /** Sweep's first section: which links have expired, as of now. */
    method StartSweep()
      requires Valid()
      modifies this`tasks
      ensures Valid()
      ensures tasks == old(tasks) + [Clearing(Some(now), set t | t in links && now > links[t])]
    {
      Start(Clearing(Some(now), set t | t in links && now > links[t]));
    }

    ghost method Closing()
      requires Valid()
      modifies this`closed
      ensures Valid() && closed == old(closed) + links.Keys
    {
      hide TaskKept, DoomKept, AboutToGo;
      closed := closed + links.Keys;
      TasksStill();
    }

    method StartClose()
      requires Valid()
      modifies this`tasks, this`closed
      ensures Valid() && closed == old(closed) + links.Keys
      ensures tasks == old(tasks) + [Clearing(None, links.Keys)]
    {
      Closing();
      Start(Clearing(None, links.Keys));
    }

    /** Open's own check of the expiry. */
    method CheckExpiry(i: nat)
      requires Valid() && i < |tasks| && tasks[i].Opening?
      modifies this`tasks
      ensures Valid()
      ensures var o := old(tasks[i]);
        tasks == old(tasks)[i := if now > o.expiresAt then Answered(o.token, o.expiresAt, now, false) else Checked(o.token, o.expiresAt, now)]
    {
      var o := tasks[i];
      assert TaskKept(o);
      Become(i, if now > o.expiresAt then Answered(o.token, o.expiresAt, now, false) else Checked(o.token, o.expiresAt, now));
    }

    /** Open's opening of the file. */
    method OpenFile(i: nat)
      requires Valid() && i < |tasks| && tasks[i].Checked?
      modifies this`tasks
      ensures Valid()
      ensures var c := old(tasks[i]); tasks == old(tasks)[i := Answered(c.token, c.expiresAt, c.at, c.token in disk)]
    {
      var c := tasks[i];
      assert TaskKept(c);
      Become(i, Answered(c.token, c.expiresAt, c.at, c.token in disk));
    }

    /** remove's section under the lock: forgets a link, when it is still there. */
    method Forget(i: nat, token: Name)
      requires Valid() && i < |tasks| && tasks[i].Clearing? && token in tasks[i].tokens
      modifies this`tasks, this`links, this`phases
      ensures Valid() && links == old(links) - {token}
      ensures phases == if token in old(links) then old(phases)[token := Removed(old(links)[token])] else old(phases)
      ensures var c := old(tasks[i]); tasks == old(tasks)[i :=
        if token in old(links) then Removing(c.since, c.tokens - {token}, token) else Clearing(c.since, c.tokens - {token})]
    {
      hide LinksKept, FilesKept;
      assert TaskKept(tasks[i]);
      var c := tasks[i];
      if token in links {
        Unlink(i, token);
        Become(i, Removing(c.since, c.tokens - {token}, token));
      } else {
        Become(i, Clearing(c.since, c.tokens - {token}));
      }
    }

    lemma MayGo(i: nat, token: Name)
      requires Valid() && i < |tasks| && tasks[i].Clearing? && token in tasks[i].tokens && token in links
      ensures token in closed || now > links[token]
    {
      assert TaskKept(tasks[i]);
    }

    /** Task i takes its next step. */
    method Become(i: nat, task: Task)
      requires Valid() && i < |tasks| && TaskKept(task)
      requires tasks[i].Doomed? ==> tasks[i].entry !in disk
      modifies this`tasks
      ensures Valid() && tasks == old(tasks)[i := task]
    {
      hide TaskKept;
      ghost var before := tasks;
      tasks := tasks[i := task];
      forall j | 0 <= j < |tasks| ensures TaskKept(tasks[j]) { TaskStill(tasks[j]); }
      forall t | t in overtaken && Ours(t) && t in disk ensures AboutToGo(t) {
        assert old(AboutToGo(t));
        var j :| 0 <= j < |before| && before[j].Doomed? && before[j].entry == t;
        assert tasks[j] == before[j];
      }
    }

    method Unlink(i: nat, token: Name)
      requires Valid() && i < |tasks| && tasks[i].Clearing? && token in tasks[i].tokens && token in links
      modifies this`links, this`phases
      ensures Valid() && links == old(links) - {token} && phases == old(phases)[token := Removed(old(links)[token])]
    {
      MayGo(i, token);
      hide TaskKept, DoomKept, AboutToGo;
      phases := phases[token := Removed(links[token])];
      links := links - {token};
      TasksStill();
    }

    /** What a sweep or Close is about to remove is no link's file, nor one still being made: always for a
        link it forgot, and unless it was overtaken for any other. */
    lemma MayRemove(i: nat)
      requires Valid() && i < |tasks|
      ensures var t := tasks[i];
        && (t.Removing? ==> !Ours(t.file) && TaskKept(Clearing(t.since, t.tokens)))
        && (t.Doomed? && t.entry !in overtaken ==> !Ours(t.entry))
        && (t.Doomed? ==> TaskKept(Judging(t.asOf, t.entries)))
    {
      assert TaskKept(tasks[i]);
    }

    /** remove's own removal of the file. */
    method RemoveFile(i: nat)
      requires Valid() && i < |tasks| && tasks[i].Removing?
      modifies this`tasks, this`disk
      ensures Valid() && disk == old(disk) - {old(tasks[i]).file}
      ensures links == old(links)
      ensures var c := old(tasks[i]); tasks == old(tasks)[i := Clearing(c.since, c.tokens)]
    {
      MayRemove(i);
      hide TaskKept, DoomKept, AboutToGo;
      var c := tasks[i];
      disk := disk - {c.file};
      TasksStill();
      Become(i, Clearing(c.since, c.tokens));
    }

    /** Once the expired are gone, a sweep lists the folder, and Close is done. */
    method List(i: nat)
      requires Valid() && i < |tasks| && tasks[i].Clearing? && tasks[i].tokens == {}
      modifies this`tasks
      ensures Valid()
      ensures tasks == old(tasks)[i := if old(tasks[i]).since.Some? then Judging(old(tasks[i]).since.value, disk.Keys) else Ended]
    {
      var c := tasks[i];
      assert TaskKept(c);
      Become(i, if c.since.Some? then Judging(c.since.value, disk.Keys) else Ended);
    }

    /** A sweep's look, under the lock, whether an entry is a link's here. */
    method Look(i: nat, entry: Name)
      requires Valid() && i < |tasks| && tasks[i].Judging? && entry in tasks[i].entries
      modifies this`tasks
      ensures Valid()
      ensures var j := old(tasks[i]); tasks == old(tasks)[i :=
        if entry in links then Judging(j.asOf, j.entries - {entry}) else Looked(j.asOf, j.entries - {entry}, entry)]
    {
      var j := tasks[i];
      assert TaskKept(j);
      Become(i, if entry in links then Judging(j.asOf, j.entries - {entry}) else Looked(j.asOf, j.entries - {entry}, entry));
    }

    /** A sweep reads when an entry that isn't was last written, and judges it by that. */
    method Judge(i: nat)
      requires Valid() && i < |tasks| && tasks[i].Looked?
      modifies this`tasks, this`overtaken
      ensures Valid()
      ensures var l := old(tasks[i]); tasks == old(tasks)[i :=
        if l.entry in disk && disk[l.entry] < l.asOf - ttl then Doomed(l.asOf, l.entries, l.entry) else Judging(l.asOf, l.entries)]
      ensures var l := old(tasks[i]);
        overtaken == old(overtaken) + if l.entry in disk && disk[l.entry] < l.asOf - ttl && Ours(l.entry) then {l.entry} else {}
    {
      hide TaskKept;
      var l := tasks[i];
      if l.entry in disk && disk[l.entry] < l.asOf - ttl {
        Condemn(i);
      } else {
        JudgedKept(l);
        Become(i, Judging(l.asOf, l.entries));
      }
    }

    lemma JudgedKept(l: Task)
      requires l.Looked? && TaskKept(l)
      ensures TaskKept(Judging(l.asOf, l.entries))
    {
    }

    method Condemn(i: nat)
      requires Valid() && i < |tasks| && tasks[i].Looked?
      requires var l := tasks[i]; l.entry in disk && disk[l.entry] < l.asOf - ttl
      modifies this`tasks, this`overtaken
      ensures Valid()
      ensures var l := old(tasks[i]); tasks == old(tasks)[i := Doomed(l.asOf, l.entries, l.entry)]
      ensures overtaken == old(overtaken) + if Ours(old(tasks[i]).entry) then {old(tasks[i]).entry} else {}
    {
      var l := tasks[i];
      assert TaskKept(l);
      ghost var before := tasks;
      overtaken := overtaken + if Ours(l.entry) then {l.entry} else {};
      tasks := tasks[i := Doomed(l.asOf, l.entries, l.entry)];
      hide TaskKept;
      forall j | 0 <= j < |tasks| && j != i ensures TaskKept(tasks[j]) { TaskStill(tasks[j]); }
      forall t | t in overtaken && Ours(t) && t in disk ensures AboutToGo(t) {
        if t == l.entry {
          assert tasks[i].Doomed? && tasks[i].entry == t;
        } else {
          assert old(AboutToGo(t));
          var j :| 0 <= j < |before| && before[j].Doomed? && before[j].entry == t;
          assert tasks[j] == before[j];
        }
      }
    }

    /** A sweep removes an entry it judged. It is no link's file, nor one still being made, unless overtaken. */
    method RemoveEntry(i: nat)
      requires Valid() && i < |tasks| && tasks[i].Doomed?
      modifies this`tasks, this`disk
      ensures Valid() && disk == old(disk) - {old(tasks[i]).entry}
      ensures old(tasks[i]).entry !in overtaken ==> !Ours(old(tasks[i]).entry)
      ensures var d := old(tasks[i]); tasks == old(tasks)[i := Judging(d.asOf, d.entries)]
    {
      MayRemove(i);
      hide TaskKept, DoomKept, AboutToGo;
      var d := tasks[i];
      disk := disk - {d.entry};
      TasksStill();
      Become(i, Judging(d.asOf, d.entries));
    }

    lemma OursIs(name: Name)
      ensures Ours(name) <==> name in links || (name in phases && (phases[name].Writing? || phases[name].Closed?))
    {
    }

    lemma NotLinkedYet(name: Name)
      requires Valid() && name in phases && phases[name].Writing?
      ensures name !in links
    {
    }

    /** What was overtaken, exactly: of the exports linked or unfinished, those that have lost their file,
        or that a sweep is about to take it from. None was that went no link's life without a write. */
    lemma OvertakenLoseTheirFiles(token: Name)
      requires Valid()
      ensures Ours(token) ==> (token in overtaken <==> token !in disk || AboutToGo(token))
      ensures token in overtaken ==> token in slow
    {
      if AboutToGo(token) {
        var i :| 0 <= i < |tasks| && tasks[i].Doomed? && tasks[i].entry == token;
        assert TaskKept(tasks[i]);
      }
    }
  }

  /** One step of the world, of an export, or of a task. */
  datatype Step =
    | Passing(t: nat)
    | OthersWriting(name: Name, at: int)
    | Creating(token: Name)
    | Appending(token: Name)
    | ClosingFile(token: Name)
    | Linking(token: Name)
    | Discarding(token: Name)
    | StartingOpen(token: Name)
    | StartingSweep
    | StartingClose
    | Going(i: nat, pick: Name)  // task i's next step, with the token or entry it takes

  /** One step's whole effect. One that cannot be taken then has none. */
  function Next(s: State, step: Step): State {
    match step
    case Passing(t) => s.(now := s.now + t)
    case OthersWriting(name, at) => if name in s.phases then s else s.(disk := s.disk[name := at], used := s.used + {name})
    case Creating(token) =>
      if token in s.used then s
      else s.(disk := s.disk[token := s.now], phases := s.phases[token := Writing], used := s.used + {token})
    case Appending(token) => if IsWriting(s, token) && token in s.disk then s.(disk := s.disk[token := s.now]) else s
    case ClosingFile(token) => if IsWriting(s, token) then s.(phases := s.phases[token := Closed(s.now + s.ttl)]) else s
    case Linking(token) =>
      if token in s.phases && s.phases[token].Closed?
      then
        var expiresAt := s.phases[token].expiresAt;
        s.(links := s.links[token := expiresAt], phases := s.phases[token := Linked(expiresAt)])
      else s
    case Discarding(token) => if IsWriting(s, token) then s.(disk := s.disk - {token}, phases := s.phases[token := Discarded]) else s
    case StartingOpen(token) => if token in s.links then s.(tasks := s.tasks + [Opening(token, s.links[token])]) else s
    case StartingSweep => s.(tasks := s.tasks + [Clearing(Some(s.now), set t | t in s.links && s.now > s.links[t])])
    case StartingClose => s.(tasks := s.tasks + [Clearing(None, s.links.Keys)])
    case Going(i, pick) => if i < |s.tasks| then GoOn(s, i, pick) else s
  }

  predicate IsWriting(s: State, token: Name) { token in s.phases && s.phases[token].Writing? }

  /** One task's next step, with the token or the entry it takes. */
  function GoOn(s: State, i: nat, pick: Name): State
    requires i < |s.tasks|
  {
    match s.tasks[i]
    case Clearing(since, tokens) =>
      if pick in tokens then
        if pick in s.links then
          s.(links := s.links - {pick}, phases := s.phases[pick := Removed(s.links[pick])],
             tasks := s.tasks[i := Removing(since, tokens - {pick}, pick)])
        else s.(tasks := s.tasks[i := Clearing(since, tokens - {pick})])
      else if tokens == {} then s.(tasks := s.tasks[i := if since.Some? then Judging(since.value, s.disk.Keys) else Ended])
      else s
    case Removing(since, tokens, file) => s.(disk := s.disk - {file}, tasks := s.tasks[i := Clearing(since, tokens)])
    case Judging(asOf, entries) =>
      if pick !in entries then s
      else s.(tasks := s.tasks[i := if pick in s.links then Judging(asOf, entries - {pick}) else Looked(asOf, entries - {pick}, pick)])
    case Looked(asOf, entries, entry) =>
      s.(tasks := s.tasks[i :=
        if entry in s.disk && s.disk[entry] < asOf - s.ttl then Doomed(asOf, entries, entry) else Judging(asOf, entries)])
    case Doomed(asOf, entries, entry) => s.(disk := s.disk - {entry}, tasks := s.tasks[i := Judging(asOf, entries)])
    case Opening(token, expiresAt) =>
      s.(tasks := s.tasks[i := if s.now > expiresAt then Answered(token, expiresAt, s.now, false) else Checked(token, expiresAt, s.now)])
    case Checked(token, expiresAt, at) => s.(tasks := s.tasks[i := Answered(token, expiresAt, at, token in s.disk)])
    case Answered(_, _, _, _) => s
    case Ended => s
  }

  function After(s: State, steps: seq<Step>): State {
    if steps == [] then s else Next(After(s, steps[..|steps| - 1]), steps[|steps| - 1])
  }

  lemma OneStepMore(s: State, steps: seq<Step>, n: nat)
    requires n < |steps|
    ensures After(s, steps[..n + 1]) == Next(After(s, steps[..n]), steps[n])
  {
    assert steps[..n + 1][..n] == steps[..n];
  }

  /** Every interleaving of exports, opens, sweeps and Close, step by step, where each new token is one
      no name was. Open never answers a token expired when it looked; a link goes only once expired, or by
      Close; and an export linked or still being made has its file, however old, unless a sweep that looked
      before it had a link found it last written more than a link's life before: then, and only then, it has
      lost it or is about to. An export that is shorter than a link's life is never so overtaken. */
  method Run(ttl: nat, others: map<Name, int>, now: int, steps: seq<Step>) returns (f: Files)
    ensures fresh(f) && f.Valid()
    ensures f.Abs() == After(State(ttl, map[], others, [], now, map[], others.Keys), steps)
    ensures forall t | t in f.tasks && t.Answered? && t.ok :: t.at <= t.expiresAt
    ensures forall t | t in f.tasks && t.Answered? && !t.ok && t.token !in f.overtaken :: t.token in f.closed || f.now > t.expiresAt
    ensures forall token | f.Ours(token) :: token in f.overtaken <==> token !in f.disk || f.AboutToGo(token)
    ensures f.overtaken <= f.slow
  {
    f := new Files(ttl, others, now);
    Take(f, steps);
    forall t | t in f.tasks ensures f.TaskKept(t) { }
    forall token | f.Ours(token) ensures token in f.overtaken <==> token !in f.disk || f.AboutToGo(token) {
      f.OvertakenLoseTheirFiles(token);
    }
  }

  method Take(f: Files, steps: seq<Step>)
    requires f.Valid()
    modifies f
    ensures f.Valid() && f.overtaken >= old(f.overtaken)
    ensures f.Abs() == After(old(f.Abs()), steps)
  {
    hide Next, Files.Valid;
    assert steps[..0] == [];
    for n := 0 to |steps|
      invariant f.Valid() && f.overtaken >= old(f.overtaken)
      invariant f.Abs() == After(old(f.Abs()), steps[..n])
    {
      OneStepMore(old(f.Abs()), steps, n);
      TakeStep(f, steps[n]);
    }
    assert steps[..|steps|] == steps;
  }

  method TakeStep(f: Files, step: Step)
    requires f.Valid()
    modifies f
    ensures f.Valid() && f.overtaken >= old(f.overtaken)
    ensures f.Abs() == Next(old(f.Abs()), step)
  {
    hide Files.Valid, GoOn;
    match step
    case Passing(t) => f.Pass(t);
    case OthersWriting(name, at) => if name !in f.phases { f.OthersWrite(name, at); }
    case Creating(token) => if token !in f.used { f.Create(token); }
    case Appending(token) => if token in f.phases && f.phases[token].Writing? { f.Write(token); }
    case ClosingFile(token) => if token in f.phases && f.phases[token].Writing? { f.CloseFile(token); }
    case Linking(token) => if token in f.phases && f.phases[token].Closed? { f.Link(token, f.phases[token].expiresAt); }
    case Discarding(token) => if token in f.phases && f.phases[token].Writing? { f.Discard(token); }
    case StartingOpen(token) => f.StartOpen(token);
    case StartingSweep => f.StartSweep();
    case StartingClose => f.StartClose();
    case Going(i, pick) => if i < |f.tasks| { Go(f, i, pick); }
  }

  /** Task i takes its next step. */
  method Go(f: Files, i: nat, pick: Name)
    requires f.Valid() && i < |f.tasks|
    modifies f
    ensures f.Valid() && f.overtaken >= old(f.overtaken)
    ensures f.Abs() == GoOn(old(f.Abs()), i, pick)
  {
    hide Files.Valid;
    match f.tasks[i]
    case Clearing(_, tokens) =>
      if pick in tokens { f.Forget(i, pick); } else if tokens == {} { f.List(i); }
    case Removing(_, _, _) => f.RemoveFile(i);
    case Judging(_, entries) => if pick in entries { f.Look(i, pick); }
    case Looked(_, _, _) => f.Judge(i);
    case Doomed(_, _, _) => f.RemoveEntry(i);
    case Opening(_, _) => f.CheckExpiry(i);
    case Checked(_, _, _) => f.OpenFile(i);
    case Answered(_, _, _, _) =>
    case Ended =>
  }

  /** A step of another task leaves task i as it is. */
  lemma OthersLeaveIt(s: State, step: Step, i: nat)
    requires i < |s.tasks| && !(step.Going? && step.i == i)
    ensures i < |Next(s, step).tasks| && Next(s, step).tasks[i] == s.tasks[i]
  {
  }

  lemma {:induction false} OthersAllLeaveIt(s: State, steps: seq<Step>, i: nat)
    requires i < |s.tasks| && forall k | 0 <= k < |steps| :: !(steps[k].Going? && steps[k].i == i)
    ensures i < |After(s, steps).tasks| && After(s, steps).tasks[i] == s.tasks[i]
  {
    if steps != [] {
      hide Next;
      OthersAllLeaveIt(s, steps[..|steps| - 1], i);
      OthersLeaveIt(After(s, steps[..|steps| - 1]), steps[|steps| - 1], i);
    }
  }

  /** A sweep's judgment of an entry it found no link's when it looked, and what comes of it, whatever else
      happens before its removal: the entry goes if and only if, when judged, it is there and was last
      written more than a link's life before the sweep began. An export linked or unfinished by then is so
      overtaken; else the folder is as it was, and nothing is. */
  method SweepEntry(f: Files, i: nat, beforeRemoving: seq<Step>) returns (removed: bool)
    requires f.Valid() && i < |f.tasks| && f.tasks[i].Looked?
    modifies f
    ensures f.Valid() && i < |f.tasks|
    ensures f.tasks[i] == Judging(old(f.tasks[i]).asOf, old(f.tasks[i]).entries)
    ensures removed <==> old(f.tasks[i].entry in f.disk && f.disk[f.tasks[i].entry] < f.tasks[i].asOf - f.ttl)
    ensures removed ==> old(f.tasks[i]).entry !in f.disk && (old(f.Ours(f.tasks[i].entry)) ==> old(f.tasks[i]).entry in f.overtaken)
    ensures !removed ==> f.disk == old(f.disk) && f.links == old(f.links) && f.overtaken == old(f.overtaken)
  {
    hide *;
    var l := f.tasks[i];
    f.OursIs(l.entry);
    f.Judge(i);
    f.OursIs(l.entry);
    removed := f.tasks[i].Doomed?;
    if removed {
      TakeWaiting(f, i, beforeRemoving);
      f.RemoveEntry(i);
    }
  }

  /** The steps but those of task i. */
  function Others(steps: seq<Step>, i: nat): (others: seq<Step>)
    ensures forall k | 0 <= k < |others| :: !(others[k].Going? && others[k].i == i)
  {
    if steps == [] then []
    else
      var last := steps[|steps| - 1];
      Others(steps[..|steps| - 1], i) + if last.Going? && last.i == i then [] else [last]
  }

  /** What the others do, while task i waits. */
  method TakeWaiting(f: Files, i: nat, steps: seq<Step>)
    requires f.Valid() && i < |f.tasks|
    modifies f
    ensures f.Valid() && f.overtaken >= old(f.overtaken) && f.Abs() == After(old(f.Abs()), Others(steps, i))
    ensures i < |f.tasks| && f.tasks[i] == old(f.tasks)[i]
  {
    hide Next, After, Files.Valid;
    OthersAllLeaveIt(f.Abs(), Others(steps, i), i);
    Take(f, Others(steps, i));
  }

  /** Done, with nothing in between. */
  method Finish(f: Files, x: Name)
    requires f.Valid() && x in f.phases && f.phases[x].Writing?
    modifies f`phases, f`links
    ensures f.Valid() && f.links == old(f.links)[x := f.now + f.ttl]
  {
    hide *;
    f.CloseFile(x);
    f.Link(x, f.now + f.ttl);
  }

  /** A judgment and its removal, with nothing in between. */
  method RemoveTooOld(f: Files, i: nat)
    requires f.Valid() && i < |f.tasks| && f.tasks[i].Looked?
    requires var l := f.tasks[i]; l.entry in f.disk && f.disk[l.entry] < l.asOf - f.ttl
    modifies f`tasks, f`disk, f`overtaken
    ensures f.Valid() && f.disk == old(f.disk) - {old(f.tasks[i]).entry}
  {
    hide *;
    f.Judge(i);
    f.RemoveEntry(i);
  }

  /** In any state, an export idle for longer than a link's life before a sweep, and finished between the
      sweep's look and its judgment, has a live link and no file. */
  method FinishedAfterTheLook(f: Files, i: nat, x: Name)
    requires f.Valid() && i < |f.tasks| && f.tasks[i].Judging? && x in f.tasks[i].entries
    requires x in f.phases && f.phases[x].Writing? && x in f.disk && f.disk[x] < f.tasks[i].asOf - f.ttl
    modifies f
    ensures f.Valid() && f.now == old(f.now) && x in f.links && f.links[x] == f.now + f.ttl && x !in f.disk
  {
    f.NotLinkedYet(x);
    hide *;
    f.Look(i, x);
    Finish(f, x);
    RemoveTooOld(f, i);
  }

  /** In any state, an export finished before the look keeps its file through the sweep, however long ago
      it was last written. */
  method FinishedBeforeTheLook(f: Files, i: nat, x: Name)
    requires f.Valid() && i < |f.tasks| && f.tasks[i].Judging? && x in f.tasks[i].entries
    requires x in f.phases && f.phases[x].Writing? && x in f.disk
    modifies f
    ensures f.Valid() && x in f.links && x in f.disk && i < |f.tasks| && f.tasks[i].Judging? && x !in f.tasks[i].entries
    ensures f.overtaken == old(f.overtaken)
  {
    hide *;
    Finish(f, x);
    f.Look(i, x);
  }

  /** For instance: an export that pauses for longer than a link lives. */
  method SlowExportLosesItsFile() returns (f: Files)
    ensures "x" in f.links && f.now <= f.links["x"] && "x" !in f.disk
  {
    hide *;
    f := new Files(10, map[], 0);
    f.Create("x");
    f.Pass(11);
    f.StartSweep();
    f.List(0);
    FinishedAfterTheLook(f, 0, "x");
  }
}
