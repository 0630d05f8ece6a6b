/** anfra's folder as the credential store uses it, in two views: what a process sees, and what
    a crash of the machine may leave. A create, rename or remove is durable only once a sync of the
    directory succeeds; until then each one may be lost, independently of the others. */
module CredentialDisk {
  import opened OAuthProtocol

  type Inventory = map<Org, StoredCredential>

  /** credentials.json; Torn is a file whose content never reached the disk whole. */
  datatype File = Absent | Whole(inventory: Inventory) | Torn

  /** file and marks are what a process sees; after a crash the file is any of mayHold, and the
      recovery markers any set between surely and maybe. blind are the orgs whose login, since the last
      sync, found no marker but took a failed lookup for one, and so wrote none. */
  datatype Disk = Disk(
    file: File,
    mayHold: set<File>,
    marks: set<Org>,
    surely: set<Org>,
    maybe: set<Org>,
    blind: set<Org>)

  const EMPTY := Disk(Absent, {Absent}, {}, {}, {}, {})

  function Synced(d: Disk): Disk {
    d.(mayHold := {d.file}, surely := d.marks, maybe := d.marks, blind := {})
  }

  /** A rename over credentials.json; durable is what of the new content a crash may leave. */
  function Renamed(d: Disk, content: File, durable: File): Disk {
    d.(file := content, mayHold := d.mayHold + {content, durable})
  }

  function Created(d: Disk, org: Org): Disk {
    d.(marks := d.marks + {org}, maybe := d.maybe + {org})
  }

  function Removed(d: Disk, org: Org): Disk {
    d.(marks := d.marks - {org}, surely := d.surely - {org})
  }

  /** After a crash the disk is one of the states it may have left, and that one is durable. */
  ghost predicate CrashOf(d: Disk, after: Disk) {
    && after.file in d.mayHold
    && d.surely <= after.marks <= d.maybe
    && after == Synced(after)
  }

  function Entries(f: File): Inventory {
    if f.Whole? then f.inventory else map[]
  }

  predicate Usable(d: Disk, org: Org) {
    org in Entries(d.file) && !Entries(d.file)[org].pending && org !in d.marks
  }

  /** Every disk a crash may leave has this entry for org. */
  ghost predicate DurablyHolds(d: Disk, org: Org, entry: StoredCredential) {
    forall f | f in d.mayHold :: org in Entries(f) && Entries(f)[org] == entry
  }

  ghost predicate DurablyGone(d: Disk, org: Org) {
    forall f | f in d.mayHold :: org !in Entries(f)
  }

  /** Before a refresh token is sent, its entry is pending and its org marked, whatever a crash leaves. */
  ghost predicate WrittenAhead(d: Disk, org: Org, token: string) {
    && org in d.surely && org in d.marks
    && forall f | f in d.mayHold :: org in Entries(f) && Entries(f)[org].pending && Entries(f)[org].refreshToken == token
  }

  /** One refresh token posted for renewal, and the disk as it then was. */
  datatype Posted = Posted(org: Org, token: string, disk: Disk)

  /** What has happened so far, besides the disk: the refresh tokens the server issued, each with the
      org it was issued for; those posted for renewal, in order; those sent for revocation; and the logins
      exchanged and not yet saved, by refresh token. */
  datatype Ledger = Ledger(
    issued: map<string, Org>,
    sent: seq<Posted>,
    revoked: set<string>,
    inFlight: map<string, StoredCredential>)

  const NO_LEDGER := Ledger(map[], [], {}, map[])

  ghost predicate Sent(g: Ledger, token: string) {
    exists i | 0 <= i < |g.sent| :: g.sent[i].token == token
  }

  ghost predicate Consistent(d: Disk) {
    && d.file in d.mayHold && Torn !in d.mayHold
    && d.surely <= d.marks <= d.maybe
  }

  /** Every stored token was issued to the org it is stored under, and if it was sent, its entry is pending. */
  ghost predicate TokensBlocked(d: Disk, g: Ledger) {
    forall f, org | f in d.mayHold && org in Entries(f) ::
      var e := Entries(f)[org];
      && e.refreshToken in g.issued && g.issued[e.refreshToken] == org
      && e.refreshToken !in g.inFlight
      && (Sent(g, e.refreshToken) ==> e.pending)
  }

  /** What looks usable to a process is what a crash would leave too. */
  ghost predicate UsableIsDurable(d: Disk) {
    forall org | org !in d.blind && Usable(d, org) :: DurablyHolds(d, org, Entries(d.file)[org])
  }

  ghost predicate SentOnce(g: Ledger) {
    && (forall i, j | 0 <= i < j < |g.sent| :: g.sent[i].token != g.sent[j].token)
    && (forall i | 0 <= i < |g.sent| :: g.sent[i].token in g.issued)
    && (forall i | 0 <= i < |g.sent| :: WrittenAhead(g.sent[i].disk, g.sent[i].org, g.sent[i].token))
  }

  ghost predicate FlightFresh(g: Ledger) {
    forall t | t in g.inFlight ::
      && SafeOpaqueToken(t) && g.inFlight[t].refreshToken == t && !g.inFlight[t].pending
      && t in g.issued && g.issued[t] == g.inFlight[t].org
      && !Sent(g, t)
  }

  ghost predicate Safe(d: Disk, g: Ledger) {
    Consistent(d) && TokensBlocked(d, g) && UsableIsDurable(d) && SentOnce(g) && FlightFresh(g)
  }

  /** inventory is what a process sees, changed for org alone, in a way that keeps Safe. */
  ghost predicate MayWrite(d: Disk, g: Ledger, inventory: Inventory, org: Org) {
    && (forall o | o != org :: o in inventory <==> o in Entries(d.file))
    && (forall o | o != org && o in inventory :: inventory[o] == Entries(d.file)[o])
    && (org in inventory ==>
      var e := inventory[org];
      && e.refreshToken in g.issued && g.issued[e.refreshToken] == org
      && e.refreshToken !in g.inFlight
      && (Sent(g, e.refreshToken) ==> e.pending)
      && (e.pending || org in d.marks || org in d.blind))
  }

  lemma StoredIsOurs(d: Disk, g: Ledger, org: Org)
    requires Safe(d, g) && org in Entries(d.file)
    ensures var e := Entries(d.file)[org];
      && e.refreshToken in g.issued && g.issued[e.refreshToken] == org && e.refreshToken !in g.inFlight
      && (!e.pending ==> !Sent(g, e.refreshToken))
    ensures Usable(d, org) && org !in d.blind ==> DurablyHolds(d, org, Entries(d.file)[org])
  {
  }

  /** A sync makes durable whatever a process sees: no login is blind any more. */
  lemma SafeWhenSynced(d: Disk, g: Ledger)
    requires Safe(d, g)
    ensures Safe(Synced(d), g)
  {
  }

  lemma SafeWhenRenamed(d: Disk, g: Ledger, inventory: Inventory, org: Org)
    requires Safe(d, g) && MayWrite(d, g, inventory, org)
    ensures Safe(Renamed(d, Whole(inventory), Whole(inventory)), g)
  {
    var d' := Renamed(d, Whole(inventory), Whole(inventory));
    forall o | o !in d.blind && Usable(d', o)
      ensures DurablyHolds(d', o, Entries(d'.file)[o])
    {
      assert o != org;
      assert Usable(d, o);
      assert DurablyHolds(d, o, Entries(d.file)[o]);
    }
  }

  lemma SafeWhenCreated(d: Disk, g: Ledger, org: Org)
    requires Safe(d, g)
    ensures Safe(Created(d, org), g)
  {
    var d' := Created(d, org);
    forall o | o !in d.blind && Usable(d', o)
      ensures DurablyHolds(d', o, Entries(d'.file)[o])
    {
      assert Usable(d, o);
    }
  }

  /** A marker may go once the inventory it guards is durable. */
  lemma SafeWhenRemoved(d: Disk, g: Ledger, org: Org)
    requires Safe(d, g) && d.mayHold == {d.file}
    ensures Safe(Removed(d, org), g)
  {
  }

  lemma SafeAfterCrash(d: Disk, g: Ledger, after: Disk)
    requires Safe(d, g) && CrashOf(d, after)
    ensures Safe(after, g)
  {
  }

  /** Posting a written-ahead token whose entry was not pending before keeps Safe, once. */
  lemma SafeWhenPosted(d: Disk, g: Ledger, org: Org, token: string)
    requires Safe(d, g) && WrittenAhead(d, org, token) && !Sent(g, token)
    ensures Safe(d, g.(sent := g.sent + [Posted(org, token, d)]))
  {
    var g' := g.(sent := g.sent + [Posted(org, token, d)]);
    assert Entries(d.file)[org].refreshToken == token;
    forall t | Sent(g', t) && t != token
      ensures Sent(g, t)
    {
      var i :| 0 <= i < |g'.sent| && g'.sent[i].token == t;
    }
    assert forall i | 0 <= i < |g.sent| :: g.sent[i].token != token;
  }

  /** A token fresh from the server is stored nowhere and was never sent. */
  lemma SafeWhenIssued(d: Disk, g: Ledger, token: string, org: Org)
    requires Safe(d, g) && token !in g.issued
    ensures Safe(d, g.(issued := g.issued[token := org]))
    ensures !Sent(g, token) && token !in g.inFlight
  {
    var g' := g.(issued := g.issued[token := org]);
    assert forall t :: Sent(g', t) <==> Sent(g, t);
  }

  /** A login the client has just exchanged a code for is stored nowhere and was never sent. */
  lemma SafeWhenExchanged(d: Disk, g: Ledger, entry: StoredCredential)
    requires Safe(d, g) && entry.refreshToken !in g.issued && !entry.pending && SafeOpaqueToken(entry.refreshToken)
    ensures Safe(d, g.(issued := g.issued[entry.refreshToken := entry.org],
                       inFlight := g.inFlight[entry.refreshToken := entry]))
  {
    SafeWhenIssued(d, g, entry.refreshToken, entry.org);
    var g' := g.(issued := g.issued[entry.refreshToken := entry.org], inFlight := g.inFlight[entry.refreshToken := entry]);
    assert forall t :: Sent(g', t) <==> Sent(g, t);
  }

  /** Once its saving starts, a login is no longer in flight, and may be written for its org. */
  lemma SafeWhenLanded(d: Disk, g: Ledger, entry: StoredCredential)
    requires Safe(d, g) && entry.refreshToken in g.inFlight && g.inFlight[entry.refreshToken] == entry
    ensures Safe(d, g.(inFlight := g.inFlight - {entry.refreshToken}))
    ensures !Sent(g, entry.refreshToken) && !entry.pending && SafeOpaqueToken(entry.refreshToken)
    ensures entry.refreshToken in g.issued && g.issued[entry.refreshToken] == entry.org
  {
    var g' := g.(inFlight := g.inFlight - {entry.refreshToken});
    assert forall t :: Sent(g', t) <==> Sent(g, t);
  }

  /** The protocol's promise, of any disk a safe one may be found as: a token that was sent is held
      only pending, so no process finds it usable. */
  lemma NeverSentAgain(d: Disk, g: Ledger, after: Disk, org: Org)
    requires Safe(d, g) && (after == d || CrashOf(d, after))
    requires Usable(after, org)
    ensures !Sent(g, Entries(after.file)[org].refreshToken)
  {
    assert after.file in d.mayHold;
  }

  /** Where the promise of durability ends, exactly: while a login's new inventory is renamed but not
      yet durable, a process finds only what a crash leaves if and only if the login marked its org. One
      whose lookup of the marker failed may not have. */
  lemma UnsyncedLoginNeedsItsMarker(d: Disk, g: Ledger, entry: StoredCredential)
    requires Safe(d, g) && entry.refreshToken in g.inFlight && g.inFlight[entry.refreshToken] == entry
    ensures var unsynced := Renamed(d, Whole(Entries(d.file)[entry.org := entry]), Whole(Entries(d.file)[entry.org := entry]));
      (Usable(unsynced, entry.org) ==> DurablyHolds(unsynced, entry.org, entry)) <==> entry.org in d.marks
  {
    var unsynced := Renamed(d, Whole(Entries(d.file)[entry.org := entry]), Whole(Entries(d.file)[entry.org := entry]));
    assert d.file in unsynced.mayHold && TokensBlocked(d, g);
  }

  /** Where a logout's report ends: after one whose directory sync failed, the next finds no entry and
      reports it removed, yet a crash may bring it back, usable. */
  lemma SecondLogoutMayNotLast(org: Org, entry: StoredCredential)
    requires !entry.pending
    ensures var stored := Synced(EMPTY.(file := Whole(map[org := entry])));
      var unsynced := Renamed(stored, Whole(map[]), Whole(map[]));
      && org !in Entries(unsynced.file)
      && CrashOf(unsynced, stored) && Usable(stored, org)
  {
  }
}
