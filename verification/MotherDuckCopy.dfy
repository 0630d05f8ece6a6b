/** The dialog that copies DuckDB files to a person's MotherDuck account (internal/publish/motherduck.go).
    Every answer of the person, and every outcome of the MotherDuck CLI, its API, and the org's server,
    is arbitrary. The log is what happened that a promise is made about, in order. */
module MotherDuckCopy {
  import opened Options

  type User = string

  datatype DuckFile = DuckFile(shown: string, baseName: string, sources: seq<string>)

  datatype Answer = Yes | All | Quit | No

  /** A token for the org: one made here, the so-manieth, always read-only; or one the person pasted, and
      what MotherDuck says of it. They paste none made here, whose secret nobody saw before one is held. */
  datatype Token = MadeHere(serial: nat) | Pasted(secret: string, readOnly: bool)

  predicate ReadsOnly(t: Token) { t.MadeHere? || t.readOnly }

  /** What comes of asking MotherDuck for a token, or the server for a data source. Unheard is one that was
      made though no reply says so. */
  datatype Making = TokenMade | TokenMadeUnheard | NameTaken | TokenNotMade
  datatype Attempt = Took | InUse(byQueryEngine: bool, copied: bool, copyTook: bool) | DidNot(nameTaken: bool)
  datatype Creation = Created | CreatedUnheard | Denied | NotCreated

  datatype Event =
    | Asked(file: DuckFile, account: Option<User>, answer: Answer)
    | SignedIn(user: User)                          // by the person, in this publish
    | Uploading(file: DuckFile, to: User, database: string)
    | Uploaded(file: DuckFile, to: User, database: string)
    | Made(token: Token)
    | MadeUnheard(token: Token)
    | Tested(source: string, held: Token)           // the org's server was given it, to try the connection
    | GaveOrg(source: string, held: Token)          // a data source created with it
    | GaveUnheard(source: string, held: Token)
    | RevokeSent(revoked: Token)

  type Log = seq<Event>

  datatype CLIStatus = Unknown | Nobody | Is(user: User)

  datatype Error = Cancelled | SwitchAccount | Forbidden | ServerFailed

  predicate Refused(e: Event) { e.Asked? && e.answer == No }

  predicate Agreed(e: Event, file: DuckFile) {
    e.Asked? && (e.answer == All || (e.answer == Yes && e.file == file))
  }

  /** file has a yes, or a yes to all was given, and no question was answered no since. */
  ghost predicate Covered(log: Log, file: DuckFile) {
    exists i | 0 <= i < |log| :: Agreed(log[i], file) && forall j | i < j < |log| :: !Refused(log[j])
  }

  /** A yes to all stands: no question was answered no since. */
  ghost predicate AllStands(log: Log) {
    exists i | 0 <= i < |log| :: log[i].Asked? && log[i].answer == All && forall j | i < j < |log| :: !Refused(log[j])
  }

  /** The account was named by a question answered yes, or chosen by signing in to it. */
  ghost predicate Chosen(log: Log, user: User) {
    exists i | 0 <= i < |log| ::
      || log[i] == SignedIn(user)
      || (log[i].Asked? && log[i].account == Some(user) && log[i].answer in {Yes, All})
  }

  /** Each upload, when it started, was of a file covered by a yes, to an account so chosen. */
  ghost predicate UploadsAgreed(log: Log) {
    forall i | 0 <= i < |log| && log[i].Uploading? :: Covered(log[..i], log[i].file) && Chosen(log[..i], log[i].to)
  }

  /** Each upload is to a new database: a name the account had none of when listed, nor any since that an
      upload from here was heard to make. */
  ghost predicate NamesFree(log: Log, listed: set<string>) {
    forall j | 0 <= j < |log| && log[j].Uploading? ::
      && log[j].database !in listed
      && forall i | 0 <= i < j && log[i].Uploaded? :: log[i].database != log[j].database
  }

  /** The org is given read-only tokens alone, to try a connection or to keep. */
  ghost predicate OnlyReads(log: Log) {
    forall e | e in log && (e.Tested? || e.GaveOrg? || e.GaveUnheard?) :: ReadsOnly(e.held)
  }

  /** A data source of the org was created with it, heard of or not. */
  ghost predicate Held(log: Log, t: Token) {
    exists s :: GaveOrg(s, t) in log || GaveUnheard(s, t) in log
  }

  /** Some creation with it went unheard, and none was heard of. */
  ghost predicate HeldUnheard(log: Log, t: Token) {
    (exists s :: GaveUnheard(s, t) in log) && forall s :: GaveOrg(s, t) !in log
  }

  /** What each token made came to: held by a data source, or sent for revocation, one of the two; but
      both if and only if its use went unheard, and neither if and only if its own making did. */
  ghost predicate Settled(log: Log) {
    forall t | Made(t) in log || MadeUnheard(t) in log ::
      && (Held(log, t) && RevokeSent(t) in log <==> HeldUnheard(log, t))
      && (!Held(log, t) && RevokeSent(t) !in log <==> MadeUnheard(t) in log)
  }

  predicate IsQuit(e: Event) { e.Asked? && e.answer == Quit }

  ghost predicate NoQuit(log: Log) {
    forall i | 0 <= i < |log| :: !IsQuit(log[i])
  }

  /** The last thing that happened is that the person quit, and they had not before. */
  ghost predicate QuitLast(log: Log) {
    log != [] && IsQuit(log[|log| - 1]) && NoQuit(log[..|log| - 1])
  }

  /** Once the person quits, nothing more happens but a revocation. */
  ghost predicate QuitEnds(log: Log) {
    forall i, j | 0 <= i < j < |log| && IsQuit(log[i]) :: log[j].RevokeSent?
  }

  /** The data sources created, as heard, in order. */
  function Given(log: Log): seq<string> {
    if log == [] then []
    else
      var e := log[|log| - 1];
      Given(log[..|log| - 1]) + if e.GaveOrg? then [e.source] else []
  }

  lemma {:induction false} GivenAre(log: Log, s: string)
    ensures s in Given(log) <==> exists t :: GaveOrg(s, t) in log
  {
    if log != [] {
      var front, e := log[..|log| - 1], log[|log| - 1];
      GivenAre(front, s);
      assert log == front + [e];
      if t :| GaveOrg(s, t) in log { assert GaveOrg(s, t) in front || e == GaveOrg(s, t); }
      if s in Given(front) { var t :| GaveOrg(s, t) in front; assert GaveOrg(s, t) in log; }
      if e.GaveOrg? { assert GaveOrg(e.source, e.held) in log; }
    }
  }

  lemma {:induction false} GivenStill(before: Log, after: Log)
    requires |before| <= |after| && after[..|before|] == before
    requires forall i | |before| <= i < |after| :: !after[i].GaveOrg?
    ensures Given(after) == Given(before)
    decreases |after|
  {
    if |after| > |before| {
      assert after[..|after| - 1][..|before|] == before;
      GivenStill(before, after[..|after| - 1]);
    } else {
      assert after == before;
    }
  }

  lemma GivenMore(log: Log, e: Event)
    ensures Given(log + [e]) == Given(log) + if e.GaveOrg? then [e.source] else []
  {
    assert (log + [e])[..|log|] == log;
  }

  lemma NothingGiven(files: seq<DuckFile>)
    ensures Given([]) == [] && AllSources(files[..0]) == []
  {
  }

  lemma MoreSources(files: seq<DuckFile>, i: nat)
    requires i < |files|
    ensures AllSources(files[..i + 1]) == AllSources(files[..i]) + files[i].sources
  {
    assert files[..i + 1][..i] == files[..i];
  }

  function AllSources(files: seq<DuckFile>): seq<string> {
    if files == [] then [] else AllSources(files[..|files| - 1]) + files[|files| - 1].sources
  }

  lemma CoveredStill(log: Log, e: Event, file: DuckFile)
    requires Covered(log, file) && !Refused(e)
    ensures Covered(log + [e], file)
  {
    var i :| 0 <= i < |log| && Agreed(log[i], file) && forall j | i < j < |log| :: !Refused(log[j]);
    assert Agreed((log + [e])[i], file);
  }

  lemma AllStandsStill(log: Log, e: Event)
    requires AllStands(log) && !Refused(e)
    ensures AllStands(log + [e])
  {
    var i :| 0 <= i < |log| && log[i].Asked? && log[i].answer == All && forall j | i < j < |log| :: !Refused(log[j]);
    assert (log + [e])[i] == log[i];
  }

  lemma ChosenStill(log: Log, e: Event, user: User)
    requires Chosen(log, user)
    ensures Chosen(log + [e], user)
  {
    var i :| 0 <= i < |log| && (log[i] == SignedIn(user) || (log[i].Asked? && log[i].account == Some(user) && log[i].answer in {Yes, All}));
    assert (log + [e])[i] == log[i];
  }

  lemma UploadsStillAgreed(log: Log, e: Event)
    requires UploadsAgreed(log) && (e.Uploading? ==> Covered(log, e.file) && Chosen(log, e.to))
    ensures UploadsAgreed(log + [e])
  {
    forall i | 0 <= i < |log + [e]| && (log + [e])[i].Uploading?
      ensures Covered((log + [e])[..i], (log + [e])[i].file) && Chosen((log + [e])[..i], (log + [e])[i].to)
    {
      if i < |log| { assert (log + [e])[..i] == log[..i]; } else { assert (log + [e])[..i] == log; }
    }
  }

  lemma StillConsented(log: Log, e: Event, all: bool, named: Option<User>, chosen: bool, user: User)
    requires UploadsAgreed(log) && (e.Uploading? ==> Covered(log, e.file) && Chosen(log, e.to))
    requires (all ==> AllStands(log) && !Refused(e)) && (named.Some? ==> Chosen(log, named.value)) && (chosen ==> Chosen(log, user))
    ensures UploadsAgreed(log + [e])
    ensures (all ==> AllStands(log + [e])) && (named.Some? ==> Chosen(log + [e], named.value)) && (chosen ==> Chosen(log + [e], user))
  {
    UploadsStillAgreed(log, e);
    if named.Some? { ChosenStill(log, e, named.value); }
    if chosen { ChosenStill(log, e, user); }
    if all { AllStandsStill(log, e); }
  }

  lemma NamesStillKept(log: Log, e: Event, listed: set<string>, databases: set<string>, ready: bool, user: User)
    requires NamesKept(log, listed, databases, ready, user)
    requires e.Uploading? ==> e.database !in databases
    requires e.Uploaded? ==> e.database in databases
    requires e.Uploading? || e.Uploaded? ==> ready && e.to == user
    ensures NamesKept(log + [e], listed, databases, ready, user)
  {
    assert forall i | 0 <= i < |log| :: (log + [e])[i] == log[i] && log[i] in log;
  }

  lemma TokenStillKept(log: Log, e: Event, token: Option<Token>, tokenNew: bool, tokenUsed: bool, made: nat)
    requires TokenKept(log, token, tokenNew, tokenUsed, made) && (e.Asked? || e.SignedIn? || e.Uploading? || e.Uploaded?)
    ensures TokenKept(log + [e], token, tokenNew, tokenUsed, made)
  {
    assert forall x :: x in log + [e] <==> x in log || x == e;
  }

  lemma NowMade(log: Log, tokenNew: bool, tokenUsed: bool, made: nat)
    requires TokenKept(log, None, tokenNew, tokenUsed, made)
    ensures TokenKept(log + [Made(MadeHere(made))], Some(MadeHere(made)), true, tokenUsed, made + 1)
    ensures TokenKept(log + [MadeUnheard(MadeHere(made))], None, tokenNew, tokenUsed, made + 1)
  {
    assert forall x :: x in log + [Made(MadeHere(made))] <==> x in log || x == Made(MadeHere(made));
    assert forall x :: x in log + [MadeUnheard(MadeHere(made))] <==> x in log || x == MadeUnheard(MadeHere(made));
  }

  lemma NowPasted(log: Log, token: Token, tokenNew: bool, tokenUsed: bool, made: nat)
    requires TokenKept(log, None, tokenNew, tokenUsed, made) && token.Pasted? && token.readOnly
    ensures TokenKept(log, Some(token), false, tokenUsed, made)
  {
  }

  lemma MoreNames(log: Log, listed: set<string>, databases: set<string>, name: string, ready: bool, user: User)
    requires NamesKept(log, listed, databases, ready, user)
    ensures NamesKept(log, listed, databases + {name}, ready, user)
  {
  }

  lemma SignedInChooses(log: Log, who: User)
    ensures Chosen(log + [SignedIn(who)], who)
  {
    assert (log + [SignedIn(who)])[|log|] == SignedIn(who);
  }

  lemma NowUsed(log: Log, source: string, token: Token, tokenNew: bool, tokenUsed: bool, made: nat)
    requires TokenKept(log, Some(token), tokenNew, tokenUsed, made)
    ensures TokenKept(log + [GaveOrg(source, token)], Some(token), tokenNew, true, made)
    ensures TokenKept(log + [GaveUnheard(source, token)], Some(token), tokenNew, tokenUsed, made)
    ensures TokenKept(log + [Tested(source, token)], Some(token), tokenNew, tokenUsed, made)
  {
    assert forall x :: x in log + [Tested(source, token)] <==> x in log || x == Tested(source, token);
    assert forall x :: x in log + [GaveOrg(source, token)] <==> x in log || x == GaveOrg(source, token);
    assert forall x :: x in log + [GaveUnheard(source, token)] <==> x in log || x == GaveUnheard(source, token);
  }

  function Digits(n: nat): string
    requires n < 100
  {
    if n < 10 then [('0' as int + n) as char] else [('0' as int + n / 10) as char, ('0' as int + n % 10) as char]
  }

  /** Digits are read back: no two numbers are written alike. */
  lemma DigitsRead(n: nat)
    requires n < 100
    ensures n < 10 ==> Digits(n) == [('0' as int + n) as char]
    ensures n >= 10 ==> |Digits(n)| == 2 && 10 * (Digits(n)[0] as int - '0' as int) + (Digits(n)[1] as int - '0' as int) == n
    ensures n >= 10 ==> '1' <= Digits(n)[0] <= '9' && '0' <= Digits(n)[1] <= '9'
  {
  }

  lemma NumbersApart(base: string, i: nat, j: nat)
    requires 1 <= i < j < 100
    ensures Numbered(base, 1) == base && Numbered(base, j) == base + "_" + Digits(j)
    ensures Numbered(base, i) != Numbered(base, j)
  {
    DigitsRead(i);
    DigitsRead(j);
    if i > 1 { assert Digits(i) == Numbered(base, i)[|base| + 1..] && Digits(j) == Numbered(base, j)[|base| + 1..]; }
  }

  /** base, base_2, base_3, … */
  function Numbered(base: string, i: nat): string
    requires 1 <= i < 100
  {
    if i == 1 then base else base + "_" + Digits(i)
  }

  /** The name is one of the 99 numbered ones, and all before it are taken. */
  ghost predicate IsFirstFree(name: string, base: string, taken: set<string>) {
    exists k | 1 <= k < 100 :: name == Numbered(base, k) && forall i | 1 <= i < k :: Numbered(base, i) in taken
  }

  /** The log tells of at most one token made and heard of, the one held; of each data source created,
      which holds it; and of no revocation yet. */
  ghost predicate TokenKept(log: Log, token: Option<Token>, tokenNew: bool, tokenUsed: bool, made: nat) {
    && (forall t | Made(t) in log :: token == Some(t) && tokenNew)
    && (token.Some? ==> ReadsOnly(token.value) && (tokenNew <==> token.value.MadeHere?))
    && (token.Some? && tokenNew ==> Made(token.value) in log && token.value.serial < made)
    && (forall t | MadeUnheard(t) in log :: t.MadeHere? && t.serial < made && token != Some(t))
    && (forall s, t | GaveOrg(s, t) in log :: token == Some(t) && tokenUsed)
    && (forall s, t | GaveUnheard(s, t) in log || Tested(s, t) in log :: token == Some(t))
    && (tokenUsed ==> token.Some? && exists s :: GaveOrg(s, token.value) in log)
    && (forall t :: RevokeSent(t) !in log)
  }

  /** Uploads are to the account signed in to, and databases has what it had and what was uploaded. */
  ghost predicate NamesKept(log: Log, listed: set<string>, databases: set<string>, ready: bool, user: User) {
    && NamesFree(log, listed) && listed <= databases
    && (forall e | e in log && e.Uploaded? :: e.database in databases)
    && (forall e | e in log && (e.Uploading? || e.Uploaded?) :: ready && e.to == user)
  }

  class MdCopy {
    const reachable: bool   // a terminal, with MotherDuck to upload to
    const hasInput: bool    // a person who can type
    var patience: nat       // the questions a person goes on to answer; the dialog's loops end with it
    var cancelled: bool

    var ready: bool
    var gaveUp: bool
    var seen: Option<User>  // whom the first look at the CLI found signed in
    var looked: bool
    var user: User          // once ready: the account uploaded to
    var signedInHere: bool  // by signing in during this publish, the person chose user
    var databases: set<string>
    var all: bool
    var named: Option<User>
    var token: Option<Token>
    var tokenNew: bool
    var tokenUsed: bool
    var tokensMade: nat     // MotherDuck's count of those made in this publish

    ghost var listed: set<string>  // the account's databases, when signed in to
    ghost var log: Log
    ghost var hindered: bool       // the person declined, or went, or something outside failed, some time

    ghost predicate Valid()
      reads this
    {
      && TokenKept(log, token, tokenNew, tokenUsed, tokensMade)
      && NamesKept(log, listed, databases, ready, user)
      && UploadsAgreed(log)
      && (all ==> AllStands(log))
      && (named.Some? ==> Chosen(log, named.value))
      && (signedInHere ==> gaveUp || (ready && Chosen(log, user)))
      && (cancelled || gaveUp ==> hindered)
    }

    constructor (reachable: bool, hasInput: bool, patience: nat)
      ensures Valid() && log == [] && token.None? && !hindered
      ensures this.reachable == reachable && this.hasInput == hasInput
    {
      this.reachable, this.hasInput, this.patience := reachable, hasInput, patience;
      ready, gaveUp, seen, looked, user, signedInHere := false, false, None, false, "", false;
      databases, all, named := {}, false, None;
      token, tokenNew, tokenUsed, tokensMade, cancelled := None, false, false, 0, false;
      listed, log, hindered := {}, [], false;
    }

    method MayCancel()
      modifies this`cancelled, this`hindered
      ensures old(cancelled) ==> cancelled
      ensures hindered == (old(hindered) || (cancelled && !old(cancelled)))
    {
      if * {
        hindered := hindered || !cancelled;
        cancelled := true;
      }
    }

    /** A question with n choices. */
    method Ask(n: nat) returns (choice: nat, asked: bool)
      requires n > 0
      modifies this`patience, this`cancelled, this`hindered
      ensures asked ==> choice < n && patience < old(patience)
      ensures !asked ==> patience <= old(patience) && hindered
      ensures old(cancelled) ==> cancelled
      ensures (old(hindered) ==> hindered) && (cancelled ==> old(cancelled) || hindered)
    {
      choice := 0;
      asked := *;
      if patience == 0 { asked := false; }
      if asked {
        patience := patience - 1;
        choice :| choice < n;
      } else {
        hindered := true;
      }
      MayCancel();
    }

    method Confirm() returns (yes: bool)
      modifies this`patience, this`cancelled, this`hindered
      ensures yes ==> patience < old(patience)
      ensures patience <= old(patience)
      ensures old(cancelled) ==> cancelled
      ensures (old(hindered) ==> hindered) && (cancelled ==> old(cancelled) || hindered) && (!yes ==> hindered)
    {
      var choice, asked := Ask(2);
      yes := asked && choice == 0;
      if !yes { hindered := true; }
    }

    method AskUpload(file: DuckFile, account: Option<User>, rest: nat) returns (yes: bool, err: Option<Error>)
      requires Valid()
      modifies this`patience, this`cancelled, this`hindered, this`all, this`named, this`log
      ensures Valid() && patience <= old(patience)
      ensures yes ==> Covered(log, file) && err.None?
      ensures yes && account.Some? ==> Chosen(log, account.value)
      ensures |old(log)| <= |log| <= |old(log)| + 1 && log[..|old(log)|] == old(log)
      ensures log != old(log) ==> log[|old(log)|].Asked? && log[|old(log)|].file == file && log[|old(log)|].account == account
      ensures err == Some(SwitchAccount) <==> log != old(log) && log[|old(log)|].answer == Quit
      ensures err == Some(SwitchAccount) ==> account.Some?
      ensures log != old(log) && log[|old(log)|].answer == All ==> rest > 0
      ensures (old(hindered) ==> hindered) && (!yes ==> hindered)
      ensures var standing := old(all) && (account.None? || old(named) == account);
        if standing then yes && log == old(log) else yes == (log != old(log) && log[|old(log)|].answer in {Yes, All})
    {
      hide Covered, Chosen, AllStands, UploadsAgreed, NamesFree, NamesKept, TokenKept, Numbered;
      if all && (account.None? || named == account) {
        AllCovers(log, file);
        return true, None;
      }
      var choices := [Yes];
      if rest > 0 { choices := choices + [All]; }
      if account.Some? { choices := choices + [Quit]; }
      choices := choices + [No];
      var choice, asked := Ask(|choices|);
      if cancelled { return false, Some(Cancelled); }
      if !asked { return false, None; }
      var answer := choices[choice];
      NoteAsked(file, account, answer);
      match answer
      case Quit =>
        hindered := true;
        return false, Some(SwitchAccount);
      case No =>
        hindered := true;
        return false, None;
      case _ =>
        yes, err := true, None;
    }

    /** An answered question: what it does to all and named. */
    method NoteAsked(file: DuckFile, account: Option<User>, answer: Answer)
      requires Valid()
      modifies this`all, this`named, this`log
      ensures Valid() && log == old(log) + [Asked(file, account, answer)]
      ensures answer in {Yes, All} ==> Covered(log, file) && (account.Some? ==> Chosen(log, account.value))
      ensures all == if answer == No then false else old(all) || answer == All
      ensures named == if answer in {Yes, All} && account.Some? then account else old(named)
    {
      hide UploadsAgreed, TokenKept, NamesKept;
      var e := Asked(file, account, answer);
      if answer == No { all := false; }
      Append(e);
      assert log[|log| - 1] == e;
      if answer in {Yes, All} {
        if account.Some? { named := account; }
        all := all || answer == All;
      }
    }

    /** The log goes on; what it said before, it still says. */
    ghost method Append(e: Event)
      requires Valid()
      requires e.Asked? || e.SignedIn? || e.Uploading? || e.Uploaded?
      requires Refused(e) ==> !all
      requires e.Uploading? ==> Covered(log, e.file) && Chosen(log, e.to) && e.database !in databases
      requires e.Uploaded? ==> e.database in databases
      requires e.Uploading? || e.Uploaded? ==> ready && e.to == user
      modifies this`log
      ensures log == old(log) + [e] && Valid()
    {
      hide Covered, Chosen, AllStands, UploadsAgreed, NamesFree, NamesKept, TokenKept, Numbered;
      StillConsented(log, e, all, named, signedInHere && !gaveUp, user);
      NamesStillKept(log, e, listed, databases, ready, user);
      TokenStillKept(log, e, token, tokenNew, tokenUsed, tokensMade);
      log := log + [e];
    }

    /** Whom a question is to name: where uploads would go, as far as is known. */
    method Account() returns (account: Option<User>)
      requires Valid()
      modifies this`looked, this`seen, this`cancelled, this`hindered
      ensures Valid() && (old(cancelled) ==> cancelled) && (old(hindered) ==> hindered)
      ensures ready ==> account == Some(user)
      ensures !ready ==> account == seen
      ensures old(looked) ==> seen == old(seen)
      ensures looked
    {
      hide Covered, Chosen, AllStands, UploadsAgreed, NamesFree, NamesKept, TokenKept, Numbered;
      if !looked {
        looked := true;
        seen := *;   // as far as the CLI can be found, answers, and is signed in
        if seen.Some? && seen.value == "" { seen := None; }
      }
      MayCancel();
      account := if ready then Some(user) else seen;
    }

    method GiveUp() returns (ok: bool, err: Option<Error>)
      modifies this`gaveUp, this`hindered
      ensures gaveUp && hindered && !ok && err == if cancelled then Some(Cancelled) else None
    {
      gaveUp, hindered := true, true;
      return false, if cancelled then Some(Cancelled) else None;
    }

    method SignIn() returns (ok: bool, err: Option<Error>)
      requires Valid()
      modifies this`patience, this`cancelled, this`hindered, this`ready, this`gaveUp, this`user, this`signedInHere, this`named, this`databases, this`listed, this`log
      ensures Valid() && (ok ==> ready && err.None?) && patience <= old(patience) && err != Some(SwitchAccount)
      ensures ok && !old(gaveUp) ==> !gaveUp
      ensures (old(hindered) ==> hindered) && (!ok ==> hindered)
      ensures !ok && old(seen).Some? ==> gaveUp
      ensures old(ready) ==> ok && user == old(user) && log == old(log) && databases == old(databases) && signedInHere == old(signedInHere)
      ensures log == old(log) || (log == old(log) + [SignedIn(user)] && named == Some(user))
      ensures old(seen).Some? && !old(ready) && ok ==> user == seen.value && !signedInHere
    {
      hide Covered, Chosen, AllStands, UploadsAgreed, NamesFree, NamesKept, TokenKept, Numbered;
      if ready { return true, None; }
      if gaveUp { return false, None; }
      if seen.Some? {
        ok, err := ListSession(seen.value, false);
        return;
      }
      var found := Find();
      if !found { return false, if cancelled then Some(Cancelled) else None; }
      var status := Status();
      if status.Unknown? { ok, err := GiveUp(); return; }
      var here := false;
      if status.Nobody? {
        var yes := Confirm();
        if !yes { return false, if cancelled then Some(Cancelled) else None; }
        status := Status();
        if !status.Is? { ok, err := GiveUp(); return; }
        here := true;
      }
      var who := status.user;
      if who == "" { ok, err := GiveUp(); return; }
      if here {
        SignedInChooses(log, who);
        Append(SignedIn(who));
        named := Some(who);
      }
      ok, err := ListSession(who, here);
    }

    /** Looks for the CLI, until it is installed, or the person is done with it. */
    method Find() returns (found: bool)
      requires Valid()
      modifies this`patience, this`cancelled, this`hindered
      ensures Valid() && patience <= old(patience) && (old(hindered) ==> hindered) && (!found ==> hindered)
    {
      hide UploadsAgreed, NamesKept, TokenKept;
      found := *;
      while !found
        invariant Valid() && patience <= old(patience) && (old(hindered) ==> hindered)
        decreases patience
      {
        var yes := Confirm();
        if !yes { return; }
        found := *;
      }
    }

    /** What the CLI says of who is signed in. */
    method Status() returns (status: CLIStatus)
    {
      var user: User := *;
      if
      case true => status := Unknown;
      case true => status := Nobody;
      case true => status := Is(user);
    }

    /** The databases of the account signed in to. here: the person signed in to it just now. */
    method ListSession(who: User, here: bool) returns (ok: bool, err: Option<Error>)
      requires Valid() && !ready && !gaveUp && (here ==> Chosen(log, who))
      modifies this`cancelled, this`hindered, this`ready, this`gaveUp, this`user, this`databases, this`listed, this`signedInHere
      ensures Valid() && ok == ready && err != Some(SwitchAccount) && (ok ==> err.None?)
      ensures user == who && (ok ==> signedInHere == here && !gaveUp) && (!ok ==> gaveUp)
      ensures (old(hindered) ==> hindered) && (!ok ==> hindered)
      ensures old(cancelled) ==> cancelled
    {
      hide Chosen, AllStands, UploadsAgreed, TokenKept;
      user, signedInHere := who, here;
      if * {
        MayCancel();
        ok, err := GiveUp();
        return;
      }
      databases := *;
      listed := databases;
      ready, ok, err := true, true, None;
    }

    /** The first of base, base_2, … base_99 the account has no database of. */
    method FreeName(base: string) returns (name: Option<string>)
      ensures name.Some? ==> name.value !in databases && IsFirstFree(name.value, base, databases)
      ensures name.None? ==> forall i | 1 <= i < 100 :: Numbered(base, i) in databases
    {
      for i := 1 to 100
        invariant forall k | 1 <= k < i :: Numbered(base, k) in databases
      {
        if Numbered(base, i) !in databases { return Some(Numbered(base, i)); }
      }
      name := None;
    }

    /** Uploads file as a new database. The CLI may find the file held by anfra's own query engine, and
        is then given a copy of it. */
    method Upload(file: DuckFile) returns (database: Option<string>, err: Option<Error>)
      requires Valid() && ready && Covered(log, file) && Chosen(log, user)
      modifies this`cancelled, this`hindered, this`databases, this`log
      ensures Valid() && err != Some(SwitchAccount)
      ensures |old(log)| <= |log| && log[..|old(log)|] == old(log)
      ensures database.Some? ==> err.None? && |log| > |old(log)| && log[|log| - 1] == Uploaded(file, user, database.value)
      ensures (old(hindered) ==> hindered) && (database.None? ==> hindered)
      ensures forall i | |old(log)| <= i < |log| ::
        && (log[i].Uploading? || log[i].Uploaded?) && log[i].file == file
        && IsFirstFree(log[i].database, file.baseName, old(databases))
    {
      hide Covered, Chosen, AllStands, UploadsAgreed, NamesFree, NamesKept, TokenKept, Numbered, IsFirstFree;
      var name := FreeName(file.baseName);
      if name.None? {
        hindered := true;
        return None, None;
      }
      var attempt := AnyAttempt();
      database, err := UploadAs(file, name.value, attempt);
    }

    method AnyAttempt() returns (attempt: Attempt)
    {
      var a, b, c := *, *, *;
      if
      case true => attempt := Took;
      case true => attempt := InUse(a, b, c);
      case true => attempt := DidNot(a);
    }

    /** A file in use by anfra's own query engine is copied, and the copy uploaded. */
    method UploadAs(file: DuckFile, name: string, attempt: Attempt) returns (database: Option<string>, err: Option<Error>)
      requires Valid() && ready && Covered(log, file) && Chosen(log, user) && name !in databases
      modifies this`cancelled, this`hindered, this`databases, this`log
      ensures Valid() && err != Some(SwitchAccount)
      ensures |old(log)| <= |log| && log[..|old(log)|] == old(log)
      ensures database.Some? <==> attempt.Took? || attempt == InUse(true, true, true)
      ensures name in databases <==> database.Some? || (attempt == DidNot(true) && err.None?)
      ensures database.Some? ==>
        && database.value == name && err.None?
        && |log| > |old(log)| && log[|log| - 1] == Uploaded(file, user, name)
      ensures (old(hindered) ==> hindered) && (database.None? ==> hindered)
      ensures forall i | |old(log)| <= i < |log| :: log[i] in {Uploading(file, user, name), Uploaded(file, user, name)}
    {
      hide Covered, Chosen, AllStands, UploadsAgreed, NamesFree, NamesKept, TokenKept;
      NoteUploading(file, name);
      var ok := attempt.Took?;
      if attempt.InUse? {
        if !attempt.byQueryEngine || !attempt.copied {
          hindered := true;
          return None, None;
        }
        NoteUploading(file, name);
        ok := attempt.copyTook;
      }
      MayCancel();
      if !ok {
        hindered := true;
        if cancelled { return None, Some(Cancelled); }
        if attempt == DidNot(true) { NoteTaken(name); }  // in the meantime
        return None, None;
      }
      NoteTaken(name);
      Append(Uploaded(file, user, name));
      database, err := Some(name), None;
    }

    method NoteTaken(name: string)
      requires Valid()
      modifies this`databases
      ensures Valid() && databases == old(databases) + {name}
    {
      hide Covered, Chosen, AllStands, UploadsAgreed, NamesFree, NamesKept, TokenKept;
      MoreNames(log, listed, databases, name, ready, user);
      databases := databases + {name};
    }

    ghost method NoteUploading(file: DuckFile, name: string)
      requires Valid() && ready && Covered(log, file) && Chosen(log, user) && name !in databases
      modifies this`log
      ensures Valid() && Covered(log, file) && Chosen(log, user)
      ensures log == old(log) + [Uploading(file, user, name)]
    {
      hide Covered, Chosen, AllStands, UploadsAgreed, NamesFree, NamesKept, TokenKept, Numbered;
      CoveredStill(log, Uploading(file, user, name), file);
      ChosenStill(log, Uploading(file, user, name), user);
      Append(Uploading(file, user, name));
    }

    /** Asks MotherDuck for a read-only token. */
    method MakeToken(making: Making)
      requires Valid() && token.None?
      modifies this`token, this`tokenNew, this`tokensMade, this`log
      ensures Valid()
      ensures token == if making == TokenMade then Some(MadeHere(old(tokensMade))) else None
      ensures tokenNew == (old(tokenNew) || making == TokenMade)
      ensures tokensMade == old(tokensMade) + if making in {TokenMade, TokenMadeUnheard} then 1 else 0
      ensures log == old(log) + match making
                                case TokenMade => [Made(MadeHere(old(tokensMade)))]
                                case TokenMadeUnheard => [MadeUnheard(MadeHere(old(tokensMade)))]
                                case _ => []
    {
      hide Covered, Chosen, AllStands, UploadsAgreed, NamesFree, NamesKept, TokenKept, Numbered;
      NowMade(log, tokenNew, tokenUsed, tokensMade);
      match making
      case TokenMade =>
        ConsentStill(Made(MadeHere(tokensMade)));
        token, tokenNew, tokensMade, log := Some(MadeHere(tokensMade)), true, tokensMade + 1, log + [Made(MadeHere(tokensMade))];
      case TokenMadeUnheard =>
        ConsentStill(MadeUnheard(MadeHere(tokensMade)));
        tokensMade, log := tokensMade + 1, log + [MadeUnheard(MadeHere(tokensMade))];
      case _ =>
    }

    lemma ConsentStill(e: Event)
      requires Valid() && (e.Made? || e.MadeUnheard? || e.Tested? || e.GaveOrg? || e.GaveUnheard?)
      ensures UploadsAgreed(log + [e]) && NamesKept(log + [e], listed, databases, ready, user)
      ensures (all ==> AllStands(log + [e])) && (named.Some? ==> Chosen(log + [e], named.value))
      ensures signedInHere ==> gaveUp || (ready && Chosen(log + [e], user))
    {
      hide Covered, Chosen, AllStands, UploadsAgreed, NamesFree, NamesKept, TokenKept, Numbered;
      StillConsented(log, e, all, named, signedInHere && !gaveUp, user);
      NamesStillKept(log, e, listed, databases, ready, user);
    }

    /** What MotherDuck makes of a request for a token. */
    method AnyMaking() returns (making: Making)
    {
      if
      case true => making := TokenMade;
      case true => making := TokenMadeUnheard;
      case true => making := NameTaken;
      case true => making := TokenNotMade;
    }

    /** Settles the org's token, once: made, or pasted and read-only. One made unheard is not it. */
    method OrgToken() returns (ok: bool, err: Option<Error>)
      requires Valid()
      modifies this`patience, this`cancelled, this`hindered, this`token, this`tokenNew, this`tokensMade, this`log
      ensures Valid() && (ok <==> token.Some?) && patience <= old(patience) && err != Some(SwitchAccount)
      ensures old(token).Some? ==> ok && token == old(token) && log == old(log)
      ensures (old(hindered) ==> hindered) && (!ok ==> hindered)
      ensures || log == old(log)
              || (token.Some? && log == old(log) + [Made(token.value)])
              || (token.None? && log == old(log) + [MadeUnheard(MadeHere(old(tokensMade)))])
    {
      hide Covered, Chosen, AllStands, UploadsAgreed, NamesFree, NamesKept, TokenKept, Numbered;
      if token.Some? { return true, None; }
      while true
        invariant Valid() && token.None? && log == old(log) && tokensMade == old(tokensMade) && patience <= old(patience)
        invariant old(hindered) ==> hindered
        decreases patience
      {
        var making := AnyMaking();
        MakeToken(making);
        MayCancel();
        if making == TokenMade { return true, None; }
        if making != NameTaken {
          hindered := true;
          return false, if cancelled then Some(Cancelled) else None;
        }
        assert log == old(log) + [] == old(log);
        var again, settled;
        again, settled, err := ChooseToken();
        if !again { return settled, err; }
      }
    }

    /** The name taken by an earlier publish's token, the person chooses: to make one under another name
        (again), to paste one they kept (settled), or neither. */
    method ChooseToken() returns (again: bool, settled: bool, err: Option<Error>)
      requires Valid() && token.None?
      modifies this`patience, this`cancelled, this`hindered, this`token, this`tokenNew
      ensures Valid() && patience <= old(patience) && err != Some(SwitchAccount)
      ensures again ==> patience < old(patience) && token.None? && !settled
      ensures settled ==> token.Some? && !tokenNew && err.None? && hasInput
      ensures (old(hindered) ==> hindered) && (!again && !settled ==> hindered)
      ensures !settled ==> token.None?
    {
      hide Covered, Chosen, AllStands, UploadsAgreed, NamesFree, NamesKept, TokenKept, Numbered;
      again, settled, err := false, false, None;
      while true
        invariant Valid() && token.None? && patience <= old(patience) && !again && !settled
        invariant old(hindered) ==> hindered
        decreases patience
      {
        var choice, asked := Ask(if hasInput then 4 else 2);
        if cancelled { return false, false, Some(Cancelled); }
        if !asked { return; }
        if !hasInput {
          if choice != 0 { hindered := true; }
          return choice == 0, false, None;
        }
        match choice
        case 1 => return true, false, None;
        case 3 =>
          hindered := true;
          return false, false, None;
        case _ =>
          var typed: string := *;
          if typed != "" {
            if choice == 2 { return true, false, None; }
            var readOnly := *;   // what the token says of itself
            if readOnly {
              NowPasted(log, Pasted(typed, readOnly), tokenNew, tokenUsed, tokensMade);
              token, tokenNew := Some(Pasted(typed, readOnly)), false;
              return false, true, None;
            }
          }
      }
    }

    /** The questions before anything is uploaded: may file go to MotherDuck, and to which account. */
    method Agree(file: DuckFile, rest: nat) returns (yes: bool, err: Option<Error>)
      requires Valid() && !gaveUp
      modifies this
      ensures Valid() && patience <= old(patience)
      ensures token == old(token) && tokenNew == old(tokenNew) && tokenUsed == old(tokenUsed)
      ensures |old(log)| <= |log| && log[..|old(log)|] == old(log)
      ensures yes ==> ready && Covered(log, file) && Chosen(log, user) && err.None?
      ensures (old(hindered) ==> hindered) && (!yes ==> hindered)
      ensures forall i | |old(log)| <= i < |log| :: log[i].Asked? || log[i].SignedIn?
      ensures tokensMade == old(tokensMade) && (yes ==> err != Some(SwitchAccount))
      ensures old(NoQuit(log)) ==> if err == Some(SwitchAccount) then QuitLast(log) else NoQuit(log)
    {
      hide Covered, Chosen, AllStands, UploadsAgreed, NamesFree, NamesKept, TokenKept, Numbered, NoQuit, QuitLast;
      var account := Account();
      yes, err := AskUpload(file, account, rest);
      AskedLast(old(log), log);
      if !yes { return; }
      yes, err := SignInTo(file, account);
      if !yes { return; }
      if !signedInHere && account != Some(user) {
        ghost var before := log;
        yes, err := AskUpload(file, Some(user), rest);
        AskedLast(before, log);
      }
    }

    /** SignIn, after a yes for the file. */
    method SignInTo(file: DuckFile, account: Option<User>) returns (ok: bool, err: Option<Error>)
      requires Valid() && !gaveUp && Covered(log, file) && (account.Some? ==> Chosen(log, account.value))
      modifies this`patience, this`cancelled, this`hindered, this`ready, this`gaveUp, this`user, this`signedInHere, this`named, this`databases, this`listed, this`log
      ensures Valid() && (ok ==> ready && !gaveUp) && patience <= old(patience) && err != Some(SwitchAccount)
      ensures |old(log)| <= |log| && log[..|old(log)|] == old(log) && (old(NoQuit(log)) ==> NoQuit(log))
      ensures (old(hindered) ==> hindered) && (ok ==> err.None?) && (!ok ==> hindered)
      ensures forall i | |old(log)| <= i < |log| :: log[i].SignedIn?
      ensures Covered(log, file) && (account.Some? ==> Chosen(log, account.value)) && (ok && signedInHere ==> Chosen(log, user))
    {
      hide Covered, Chosen, AllStands, UploadsAgreed, NamesFree, NamesKept, TokenKept, Numbered, NoQuit, QuitLast;
      ok, err := SignIn();
      AskedLast(old(log), log);
      if log != old(log) {
        CoveredStill(old(log), SignedIn(user), file);
        if account.Some? { ChosenStill(old(log), SignedIn(user), account.value); }
      }
    }

    /** Offers to copy file, and gives the org a data source on the copy for each that reads it. */
    method Offer(file: DuckFile, rest: nat) returns (created: seq<string>, err: Option<Error>)
      requires Valid()
      modifies this
      ensures Valid() && patience <= old(patience)
      ensures |old(log)| <= |log| && log[..|old(log)|] == old(log)
      ensures forall d | d in created :: d in file.sources && token.Some? && GaveOrg(d, token.value) in log
      ensures old(gaveUp) || !reachable ==> log == old(log)
      ensures Given(log) == Given(old(log)) + created
      ensures (old(hindered) ==> hindered) && (!hindered && reachable ==> created == file.sources && err.None?)
      ensures old(NoQuit(log)) ==> if err == Some(SwitchAccount) then QuitLast(log) else NoQuit(log)
    {
      hide Covered, Chosen, AllStands, UploadsAgreed, NamesFree, NamesKept, TokenKept, Numbered, NoQuit, QuitLast, Given, IsFirstFree, Settled;
      created, err := [], None;
      if !reachable || gaveUp { return; }
      var ok;
      ok, err := Agree(file, rest);
      GivenStill(old(log), log);
      if !ok { return; }
      created, err := Copy(file);
    }

    /** Copies a file agreed to. The token first: without one, nothing is uploaded. */
    method Copy(file: DuckFile) returns (created: seq<string>, err: Option<Error>)
      requires Valid() && ready && Covered(log, file) && Chosen(log, user)
      modifies this
      ensures Valid() && patience <= old(patience) && err != Some(SwitchAccount)
      ensures |old(log)| <= |log| && log[..|old(log)|] == old(log) && (old(NoQuit(log)) ==> NoQuit(log))
      ensures forall d | d in created :: d in file.sources && token.Some? && GaveOrg(d, token.value) in log
      ensures Given(log) == Given(old(log)) + created
      ensures token.None? ==> created == [] && forall i | |old(log)| <= i < |log| :: log[i].MadeUnheard?
      ensures (old(hindered) ==> hindered) && (!hindered ==> created == file.sources && err.None?)
    {
      hide Covered, Chosen, AllStands, UploadsAgreed, NamesFree, NamesKept, TokenKept, Numbered, NoQuit, QuitLast, Given, IsFirstFree, Settled;
      created := [];
      var ok;
      ok, err := OrgToken();
      NoQuitStill(old(log), log);
      GivenStill(old(log), log);
      if !ok { return; }
      if log != old(log) {
        CoveredStill(old(log), Made(token.value), file);
        ChosenStill(old(log), Made(token.value), user);
      }
      ghost var before := log;
      var database;
      database, err := Upload(file);
      NoQuitStill(before, log);
      GivenStill(before, log);
      if database.None? { return; }
      before := log;
      created, err := GiveOrg(file);
      NoQuitStill(before, log);
    }

    /** Gives the org a data source on the copy for each that reads the file. */
    method GiveOrg(file: DuckFile) returns (created: seq<string>, err: Option<Error>)
      requires Valid() && token.Some?
      modifies this`patience, this`cancelled, this`hindered, this`tokenUsed, this`log
      ensures Valid() && patience <= old(patience) && err != Some(SwitchAccount)
      ensures |old(log)| <= |log| && log[..|old(log)|] == old(log)
      ensures forall d | d in created :: d in file.sources && GaveOrg(d, token.value) in log
      ensures Given(log) == Given(old(log)) + created
      ensures (old(hindered) ==> hindered) && (!hindered ==> created == file.sources && err.None?)
      ensures forall i | |old(log)| <= i < |log| ::
        || log[i].Tested? || log[i].GaveUnheard?
        || (log[i].GaveOrg? && log[i].held == token.value && log[i].source in created)
    {
      hide Covered, Chosen, AllStands, UploadsAgreed, NamesFree, NamesKept, TokenKept, Numbered, Given;
      created, err := [], None;
      for i := 0 to |file.sources|
        invariant Valid() && patience <= old(patience)
        invariant |old(log)| <= |log| && log[..|old(log)|] == old(log)
        invariant forall d | d in created :: d in file.sources && GaveOrg(d, token.value) in log
        invariant Given(log) == Given(old(log)) + created
        invariant (old(hindered) ==> hindered) && (!hindered ==> created == file.sources[..i])
        invariant forall i | |old(log)| <= i < |log| ::
          || log[i].Tested? || log[i].GaveUnheard?
          || (log[i].GaveOrg? && log[i].held == token.value && log[i].source in created)
      {
        var done;
        done, err := CreateDataSource(file.sources[i]);
        if err.Some? { return; }
        if done { created := created + [file.sources[i]]; }
      }
      err := None;
    }

    /** The server is given the token to try the connection, and creates the data source with it; or a
        person, or the server, does not. */
    method CreateDataSource(source: string) returns (done: bool, err: Option<Error>)
      requires Valid() && token.Some?
      modifies this`patience, this`cancelled, this`hindered, this`tokenUsed, this`log
      ensures Valid() && patience <= old(patience)
      ensures done ==> log == old(log) + [Tested(source, token.value), GaveOrg(source, token.value)]
      ensures !done ==>
        || log == old(log) + [Tested(source, token.value)]
        || log == old(log) + [Tested(source, token.value), GaveUnheard(source, token.value)]
      ensures err.Some? ==> log == old(log) + [Tested(source, token.value)] && err.value in {ServerFailed, Forbidden}
      ensures Given(log) == Given(old(log)) + if done then [source] else []
      ensures (old(hindered) ==> hindered) && (!done ==> hindered)
    {
      hide Covered, Chosen, AllStands, UploadsAgreed, NamesFree, NamesKept, TokenKept, Numbered, Given;
      Test(source);
      ghost var tested := log;
      GivenMore(old(log), Tested(source, token.value));
      if * {
        hindered := true;
        return false, Some(ServerFailed);
      }
      if * {
        hindered := true;
        return false, Some(Forbidden);
      }
      if * {
        var yes := Confirm();
        if !yes { return false, None; }
      }
      var creation := AnyCreation();
      done, err := GiveToken(source, creation);
      assert tested + [] == tested;
      GivenMore(tested, GaveOrg(source, token.value));
      GivenMore(tested, GaveUnheard(source, token.value));
      if !done { hindered := true; }
      MayCancel();
    }

    ghost method Test(source: string)
      requires Valid() && token.Some?
      modifies this`log
      ensures Valid() && log == old(log) + [Tested(source, token.value)]
    {
      hide Covered, Chosen, AllStands, UploadsAgreed, NamesFree, NamesKept, TokenKept, Numbered;
      NowUsed(log, source, token.value, tokenNew, tokenUsed, tokensMade);
      ConsentStill(Tested(source, token.value));
      log := log + [Tested(source, token.value)];
    }

    method AnyCreation() returns (creation: Creation)
    {
      if
      case true => creation := Created;
      case true => creation := CreatedUnheard;
      case true => creation := Denied;
      case true => creation := NotCreated;
    }

    /** Asks the org's server for a data source with the token. Only a reply makes it one that is known. */
    method GiveToken(source: string, creation: Creation) returns (done: bool, err: Option<Error>)
      requires Valid() && token.Some?
      modifies this`tokenUsed, this`log
      ensures Valid()
      ensures log == old(log) + match creation
                                case Created => [GaveOrg(source, token.value)]
                                case CreatedUnheard => [GaveUnheard(source, token.value)]
                                case _ => []
      ensures done == (creation == Created) && err == (if creation == Denied then Some(Forbidden) else None)
      ensures tokenUsed == (old(tokenUsed) || done)
    {
      hide Covered, Chosen, AllStands, UploadsAgreed, NamesFree, NamesKept, TokenKept, Numbered;
      NowUsed(log, source, token.value, tokenNew, tokenUsed, tokensMade);
      done, err := creation == Created, if creation == Denied then Some(Forbidden) else None;
      match creation
      case Created =>
        ConsentStill(GaveOrg(source, token.value));
        log, tokenUsed := log + [GaveOrg(source, token.value)], true;
      case CreatedUnheard =>
        ConsentStill(GaveUnheard(source, token.value));
        log := log + [GaveUnheard(source, token.value)];
      case _ =>
    }

    lemma NotUsed()
      requires Valid() && token.None?
      ensures !tokenUsed
    {
    }

    /** Sends the token made for the org for revocation, when no data source is known to use it. */
    method Finish()
      requires Valid()
      modifies this`log
      ensures Settled(log) && UploadsAgreed(log) && NamesFree(log, listed) && OnlyReads(log)
      ensures log == old(log) + if token.Some? && tokenNew && !tokenUsed then [RevokeSent(token.value)] else []
    {
      hide Covered, Chosen, AllStands, Settled, TokenKept, OnlyReads;
      SettledAfter(log, token, tokenNew, tokenUsed, tokensMade);
      if token.None? || !tokenNew || tokenUsed { return; }
      UploadsStillAgreed(log, RevokeSent(token.value));
      NamesStillKept(log, RevokeSent(token.value), listed, databases, ready, user);
      log := log + [RevokeSent(token.value)];
    }

    /** The whole dialog of one publish. Whatever is answered and whatever happens, each upload was agreed
        to, of that file and to that account, and was to a new database; the org was given read-only
        tokens alone; a token this publish made is held by a data source or was sent for revocation, both
        or neither exactly where a reply was lost; and once the person quits, nothing more is done. */
    method OfferCopies(files: seq<DuckFile>) returns (copied: seq<string>, err: Option<Error>)
      requires Valid() && log == []
      modifies this
      // What it answers: the data sources created, and how it ended
      ensures copied == Given(log) && forall s :: s in copied <==> exists t :: GaveOrg(s, t) in log
      ensures (err == Some(SwitchAccount) <==> exists e :: e in log && IsQuit(e)) && err != Some(Forbidden)
      // Where the person says yes and nothing outside fails, every data source of every file
      ensures !hindered && reachable ==> copied == AllSources(files) && err.None?
      ensures UploadsAgreed(log) && NamesFree(log, listed) && OnlyReads(log) && Settled(log) && QuitEnds(log)
    {
      hide NoQuit, QuitLast, Covered, Chosen, AllStands, UploadsAgreed, NamesFree, NamesKept, TokenKept, OnlyReads, Settled, Given, AllSources, QuitEnds;
      NothingQuit();
      NothingGiven(files);
      copied, err := [], None;
      var i := 0;
      while i < |files| && err.None?
        invariant 0 <= i <= |files| && Valid()
        invariant if err == Some(SwitchAccount) then QuitLast(log) else NoQuit(log)
        invariant copied == Given(log) && (!hindered && reachable ==> copied == AllSources(files[..i]) && err.None?)
      {
        MayCancel();
        if cancelled {
          err := Some(Cancelled);
        } else {
          var created;
          MoreSources(files, i);
          created, err := Offer(files[i], |files| - i - 1);
          copied := copied + created;
        }
        i := i + 1;
      }
      if err == Some(Forbidden) { err := None; }
      QuitThenRevoke(log);
      ghost var before := log;
      Finish();
      assert before + [] == before;
      GivenStill(before, log);
      QuitSeen(before, log);
      assert files[..|files|] == files;
      forall s ensures s in copied <==> exists t :: GaveOrg(s, t) in log { GivenAre(log, s); }
    }
  }

  lemma SettledAfter(log: Log, token: Option<Token>, tokenNew: bool, tokenUsed: bool, made: nat)
    requires TokenKept(log, token, tokenNew, tokenUsed, made)
    ensures token.None? || !tokenNew || tokenUsed ==> Settled(log) && OnlyReads(log)
    ensures token.Some? && tokenNew && !tokenUsed ==>
      Settled(log + [RevokeSent(token.value)]) && OnlyReads(log + [RevokeSent(token.value)])
  {
    if token.Some? && tokenNew && !tokenUsed {
      assert forall x :: x in log + [RevokeSent(token.value)] <==> x in log || x == RevokeSent(token.value);
    }
  }

  /** At most one thing more, and whether it is that the person quit. */
  lemma AskedLast(before: Log, after: Log)
    requires |before| <= |after| <= |before| + 1 && after[..|before|] == before
    ensures NoQuit(before) ==> if after != before && IsQuit(after[|before|]) then QuitLast(after) else NoQuit(after)
  {
  }

  lemma NoQuitStill(before: Log, after: Log)
    requires |before| <= |after| && after[..|before|] == before
    requires forall i | |before| <= i < |after| :: !IsQuit(after[i])
    ensures NoQuit(before) ==> NoQuit(after)
  {
  }

  lemma QuitSeen(before: Log, after: Log)
    requires |before| <= |after| && after[..|before|] == before
    requires forall i | |before| <= i < |after| :: !IsQuit(after[i])
    ensures QuitLast(before) ==> exists e :: e in after && IsQuit(e)
    ensures NoQuit(before) ==> forall e | e in after :: !IsQuit(e)
  {
    if QuitLast(before) { assert before[|before| - 1] == after[|before| - 1]; }
  }

  lemma NothingQuit()
    ensures NoQuit([])
  {
  }

  lemma QuitThenRevoke(log: Log)
    requires NoQuit(log) || QuitLast(log)
    ensures QuitEnds(log) && forall t :: QuitEnds(log + [RevokeSent(t)])
  {
  }

  /** Where the promise ends: the org's server creates a data source, and its reply is lost. The token is
      revoked under a data source that holds it. */
  method RevokedThoughHeld(m: MdCopy, source: string) returns (ghost t: Token)
    requires m.Valid() && m.token.None?
    modifies m
    ensures Made(t) in m.log && Held(m.log, t) && RevokeSent(t) in m.log
  {
    hide *;
    m.NotUsed();
    m.MakeToken(TokenMade);
    t := m.token.value;
    assert Made(t) == m.log[|m.log| - 1];
    var _, _ := m.GiveToken(source, CreatedUnheard);
    assert GaveUnheard(source, t) == m.log[|m.log| - 1];
    HeldBy(m.log, source, t);
    m.Finish();
    HeldBy(m.log, source, t);
    assert RevokeSent(t) == m.log[|m.log| - 1];
  }

  lemma HeldBy(log: Log, source: string, t: Token)
    ensures GaveUnheard(source, t) in log ==> Held(log, t)
  {
  }

  /** And MotherDuck makes a token, and its reply is lost: it stays, held by none and never revoked. */
  method LeftBehind(m: MdCopy) returns (ghost t: Token)
    requires m.Valid() && m.token.None?
    modifies m
    ensures MadeUnheard(t) in m.log && !Held(m.log, t) && RevokeSent(t) !in m.log
  {
    t := MadeHere(m.tokensMade);
    m.MakeToken(TokenMadeUnheard);
    assert MadeUnheard(t) == m.log[|m.log| - 1];
    m.Finish();
    assert Settled(m.log);
  }

  lemma AllCovers(log: Log, file: DuckFile)
    requires AllStands(log)
    ensures Covered(log, file)
  {
    var i :| 0 <= i < |log| && log[i].Asked? && log[i].answer == All && forall j | i < j < |log| :: !Refused(log[j]);
    assert Agreed(log[i], file);
  }
}
