/** The stored logins' protocol: internal/cliauth's credential_store.go, refresh_recovery.go,
    oauth_manager.go and the locked section of oauth_login.go.

    Each method below runs under the machine-wide lock, so no other process's step falls inside it;
    what can happen at any of its steps is a failure of the operating system, or a crash of the
    process (which frees the lock). Both are chosen arbitrarily. A power loss comes between methods,
    and so, as a method may crash anywhere, after any step of one. */
module CredentialStore {
  import opened Options
  import opened OAuthProtocol
  import opened CredentialDisk

  /** How a step ended: done, failed with an error, or with the process gone. */
  datatype Outcome = Done | Failed | Crashed

  /** What the server makes of a request: nothing that reached us, or a decoded reply. */
  type Reply = Option<TokenResponse>

  const RENEW_BEFORE: int := 5 * 60 * SECOND

  /** The moments loadAccessToken reads the clock. */
  datatype LoadClock = LoadClock(grantCheck: int, accessCheck: int, renewal: Instants)

  predicate WellFormed(e: StoredCredential) {
    && ValidGrantUUID(e.grantId) && ValidGrantUUID(e.orgId)
    && SafeOpaqueToken(e.accessToken) && SafeOpaqueToken(e.refreshToken)
    && e.tokenEndpoint.safe && e.revocationEndpoint.safe
  }

  /** What one command may do to the ledger: issue at most these tokens, and forget nothing. */
  ghost predicate Grows(g: Ledger, g': Ledger, news: set<string>) {
    && g.issued.Keys <= g'.issued.Keys <= g.issued.Keys + news
    && |g.sent| <= |g'.sent| && g.sent == g'.sent[..|g.sent|]
    && g.revoked <= g'.revoked
  }

  /** The refresh token a reply brings, if it is one at all. */
  function FreshTokens(reply: Reply): set<string> {
    if reply.Some? && SafeOpaqueToken(reply.value.refreshToken) then {reply.value.refreshToken} else {}
  }

  /** The token that revokes a refused reply's grant. */
  function Revocable(response: TokenResponse): string {
    if SafeOpaqueToken(response.refreshToken) then response.refreshToken else response.accessToken
  }

  class Home {
    var disk: Disk
    ghost var ledger: Ledger
    ghost var trouble: bool  // a step failed here, or a process crashed, some time
    ghost var troubles: nat  // how often

    ghost predicate Valid()
      reads this
    {
      Safe(disk, ledger) && (!trouble ==> disk == Synced(disk))
    }

    constructor ()
      ensures Valid() && disk == EMPTY && ledger == NO_LEDGER && !trouble
    {
      disk := EMPTY;
      ledger := NO_LEDGER;
      trouble, troubles := false, 0;
    }

    /** Whether a step now fails, or the process crashes at it. */
    method Trouble() returns (now: bool)
      modifies this`trouble, this`troubles
      ensures trouble == (old(trouble) || now) && troubles == old(troubles) + if now then 1 else 0
    {
      now := *;
      trouble, troubles := trouble || now, troubles + if now then 1 else 0;
    }

    method SyncDirectory() returns (r: Outcome)
      modifies this`disk, this`trouble, this`troubles
      ensures disk == if r.Done? then Synced(old(disk)) else old(disk)
      ensures trouble == (old(trouble) || !r.Done?) && troubles == old(troubles) + if r.Done? then 0 else 1
    {
      var fails;
      fails := Trouble();
      if fails { return Crashed; }
      fails := Trouble();
      if fails { return Failed; }
      disk := Synced(disk);
      r := Done;
    }

    /** withCredentialLock's read, once the lock is held. */
    method ReadInventory() returns (r: Outcome, inventory: Inventory)
      requires Valid()
      modifies this`trouble, this`troubles
      ensures Valid() && trouble == (old(trouble) || !r.Done?)
      ensures r.Done? ==> inventory == Entries(disk.file)
    {
      var fails;
      inventory := map[];
      fails := Trouble();
      if fails { return Crashed, inventory; }
      fails := Trouble();
      if fails { return Failed, inventory; }  // a file that can't be opened, read, or trusted; or a cancelled command
      match disk.file
      case Absent => r := Done;
      case Whole(stored) => r, inventory := Done, stored;
      case Torn => r := Failed;
    }

    /** Temp file, fsync, rename, directory sync. */
    method SaveCredentialInventory(inventory: Inventory, ghost org: Org) returns (r: Outcome)
      requires Valid() && MayWrite(disk, ledger, inventory, org)
      modifies this`disk, this`trouble, this`troubles
      ensures Valid() && trouble == (old(trouble) || !r.Done?)
      ensures r.Done? ==> disk == Synced(Renamed(old(disk), Whole(inventory), Whole(inventory)))
      ensures !r.Done? ==> disk == old(disk) || disk == Renamed(old(disk), Whole(inventory), Whole(inventory))
    {
      var fails;
      fails := Trouble();
      if fails { return Crashed; }
      fails := Trouble();
      if fails { return Failed; }  // no temp file
      var durable := Torn;     // of the temp file's content
      var err := Trouble();    // its mode, or the write
      if !err {
        fails := Trouble();
        if fails { return Crashed; }
        err := Trouble();
        if !err { durable := Whole(inventory); }
      }
      var closeErr := Trouble();
      err := err || closeErr;
      if !err {
        fails := Trouble();
        if fails { return Crashed; }
        err := Trouble();
        if !err {
          SafeWhenRenamed(disk, ledger, inventory, org);
          disk := Renamed(disk, Whole(inventory), durable);
        }
      }
      if err { return Failed; }
      SafeWhenSynced(disk, ledger);
      r := SyncDirectory();
    }

    /** A marker that is there is always seen; a lookup that fails is taken for one too. */
    method RefreshRecoveryRequired(org: Org) returns (required: bool)
      requires Valid()
      modifies this`trouble, this`troubles
      ensures Valid() && (old(trouble) ==> trouble)
      ensures org in disk.marks ==> required
      ensures required && org !in disk.marks ==> trouble
      ensures !required ==> trouble == old(trouble)
    {
      var lookupFails := Trouble();
      required := org in disk.marks || lookupFails;
    }

    method MarkRefreshRecovery(org: Org) returns (r: Outcome)
      requires Valid()
      modifies this`disk, this`trouble, this`troubles
      ensures Valid() && (old(trouble) ==> trouble) && (r.Done? ==> trouble == old(trouble))
      ensures !r.Done? ==> trouble || org in old(disk).marks
      ensures troubles >= old(troubles) && (!r.Done? ==> troubles > old(troubles) || org in old(disk).marks)
      ensures r.Done? ==> org !in old(disk).marks && disk == Synced(Created(old(disk), org))
      ensures !r.Done? ==> disk == old(disk) || (org !in old(disk).marks && disk == Created(old(disk), org))
    {
      var fails;
      fails := Trouble();
      if fails { return Crashed; }
      if org in disk.marks { return Failed; }  // O_EXCL
      fails := Trouble();
      if fails { return Failed; }
      SafeWhenCreated(disk, ledger, org);
      disk := Created(disk, org);
      fails := Trouble();
      if fails { return Crashed; }
      fails := Trouble();
      if fails { return Failed; }  // the marker's own sync, or its close
      SafeWhenSynced(disk, ledger);
      r := SyncDirectory();
    }

    /** Removes org's marker durably; marks it again should the removal's sync fail. */
    method ClearRefreshRecovery(org: Org) returns (r: Outcome)
      requires Valid() && disk.mayHold == {disk.file}
      modifies this`disk, this`trouble, this`troubles
      ensures trouble == (old(trouble) || !r.Done?)
      ensures Valid() && disk.file == old(disk).file && disk.mayHold == {disk.file} && disk.blind <= old(disk).blind
      ensures r.Done? ==> disk == if org in old(disk).marks then Synced(Removed(old(disk), org)) else old(disk)
      ensures r.Failed? ==> org in old(disk).marks && (org in disk.marks || disk == Removed(old(disk), org))
      // Marked again, unless that fails too
      ensures r.Failed? && troubles <= old(troubles) + 1 ==> org in disk.marks
      ensures forall o | o != org :: o in disk.marks <==> o in old(disk).marks
    {
      var fails;
      fails := Trouble();
      if fails { return Crashed; }
      if org !in disk.marks { return Done; }
      r := Failed;
      fails := Trouble();
      if !fails {
        SafeWhenRemoved(disk, ledger, org);
        disk := Removed(disk, org);
        SafeWhenSynced(disk, ledger);
        r := SyncDirectory();
      }
      if r.Failed? {
        var again := MarkRefreshRecovery(org);
        r := if again.Crashed? then Crashed else Failed;
      }
    }

    /** Marks org and saves its entry as pending, both durable before the caller goes on. */
    method WriteAhead(inventory: Inventory, entry: StoredCredential) returns (r: Outcome)
      requires Valid() && inventory == Entries(disk.file)[entry.org := entry]
      requires Usable(disk, entry.org) && entry == Entries(disk.file)[entry.org].(pending := true)
      modifies this`disk, this`trouble, this`troubles
      ensures Valid() && trouble == (old(trouble) || !r.Done?)
      ensures r.Done? ==> disk == Synced(disk) && disk.file == Whole(inventory) && entry.org in disk.marks
      ensures r.Failed? ==> disk == old(disk) || !Usable(disk, entry.org)
      ensures disk.blind <= old(disk).blind
    {
      r := MarkRefreshRecovery(entry.org);
      if !r.Done? { return; }
      r := SaveCredentialInventory(inventory, entry.org);
    }

    /** The single-use refresh token goes to the server, which answers with a new one, or not at all. */
    method PostRefresh(entry: StoredCredential, reply: Reply) returns (r: Outcome)
      requires Valid() && WrittenAhead(disk, entry.org, entry.refreshToken) && !Sent(ledger, entry.refreshToken)
      requires FreshTokens(reply) !! ledger.issued.Keys
      modifies this`ledger, this`trouble, this`troubles
      ensures Valid() && Grows(old(ledger), ledger, FreshTokens(reply))
      ensures (old(trouble) ==> trouble) && (r.Done? ==> trouble == old(trouble)) && (!r.Done? ==> trouble || reply.None?)
      ensures ledger.sent == old(ledger).sent || ledger.sent == old(ledger).sent + [Posted(entry.org, entry.refreshToken, disk)]
      ensures ledger.(issued := map[], sent := []) == old(ledger).(issued := map[], sent := [])
      ensures r.Done? ==>
        && reply.Some? && |ledger.sent| == |old(ledger).sent| + 1
        && forall t | t in FreshTokens(reply) :: t in ledger.issued && ledger.issued[t] == entry.org && !Sent(ledger, t) && t !in ledger.inFlight
    {
      var fails;
      fails := Trouble();
      if fails { return Crashed; }
      SafeWhenPosted(disk, ledger, entry.org, entry.refreshToken);
      ledger := ledger.(sent := ledger.sent + [Posted(entry.org, entry.refreshToken, disk)]);
      if FreshTokens(reply) != {} {
        SafeWhenIssued(disk, ledger, reply.value.refreshToken, entry.org);
        ledger := ledger.(issued := ledger.issued[reply.value.refreshToken := entry.org]);
      }
      fails := Trouble();
      if fails { return Crashed; }
      r := if reply.Some? then Done else Failed;
    }

    /** Saves what inventory says of org, which is marked, then clears the marker. */
    method SaveAndClear(inventory: Inventory, org: Org) returns (r: Outcome)
      requires Valid() && MayWrite(disk, ledger, inventory, org)
      modifies this`disk, this`trouble, this`troubles
      ensures Valid() && trouble == (old(trouble) || !r.Done?)
      ensures r.Done? ==> disk == Synced(disk) && disk.file == Whole(inventory) && org !in disk.marks
      ensures r.Failed? ==> (org in old(disk).marks ==> org in disk.marks || disk.mayHold == {disk.file} == {Whole(inventory)})
      ensures disk.file in {old(disk).file, Whole(inventory)}
      ensures disk.blind <= old(disk).blind && (r.Done? ==> disk.blind == {})
    {
      r := SaveCredentialInventory(inventory, org);
      if !r.Done? { return; }
      r := ClearRefreshRecovery(org);
    }

    /** A renewal, whole: written ahead, posted, its successor stored, the marker cleared. */
    method RenewLogin(inventory: Inventory, stored: StoredCredential, at: Instants, reply: Reply)
      returns (r: Outcome, successor: StoredCredential)
      requires Valid() && inventory == Entries(disk.file)
      requires stored.org in inventory && inventory[stored.org] == stored
      requires Usable(disk, stored.org)
      requires FreshTokens(reply) !! ledger.issued.Keys
      modifies this
      ensures Valid() && Grows(old(ledger), ledger, FreshTokens(reply))
      ensures disk.blind <= old(disk).blind && ledger.revoked == old(ledger).revoked && ledger.inFlight == old(ledger).inFlight
      ensures (old(trouble) ==> trouble) && (r.Done? ==> trouble == old(trouble))
      ensures !r.Done? ==> trouble || reply.None? || Successor(reply.value, at, stored.(pending := true)).None?
      ensures |ledger.sent| <= |old(ledger).sent| + 1
      ensures |ledger.sent| > |old(ledger).sent| ==>
        var p := ledger.sent[|ledger.sent| - 1]; p.org == stored.org && p.token == stored.refreshToken
      ensures r.Done? ==>
        && reply.Some? && Successor(reply.value, at, stored.(pending := true)) == Some(successor)
        && Entries(disk.file) == old(Entries(disk.file))[stored.org := successor]
        && |ledger.sent| == |old(ledger).sent| + 1
        && disk == Synced(disk) && Usable(disk, stored.org)
      ensures r.Failed? && Usable(disk, stored.org) ==>
        || (disk == old(disk) && ledger == old(ledger))
        || (reply.Some? && Successor(reply.value, at, stored.(pending := true)).Some?
            && DurablyHolds(disk, stored.org, Successor(reply.value, at, stored.(pending := true)).value))
    {
      hide Safe, ValidateTokenResponse, SafeOpaqueToken;
      var org := stored.org;
      var entry := stored;
      StoredIsOurs(disk, ledger, org);
      successor := stored;
      entry := entry.(pending := true);
      var entries := inventory[org := entry];
      r := WriteAhead(entries, entry);
      if !r.Done? { return; }
      r := PostRefresh(entry, reply);
      if !r.Done? { return; }
      var validated := Successor(reply.value, at, entry);
      if validated.None? { return Failed, successor; }
      successor := validated.value;
      entries := entries[org := successor];
      r := SaveAndClear(entries, org);
    }

    /** The access token of org's login, renewed first when it is about to expire. */
    method LoadAccessToken(org: Org, clock: LoadClock, reply: Reply) returns (r: Outcome, token: string)
      requires Valid() && FreshTokens(reply) !! ledger.issued.Keys
      modifies this
      ensures Valid() && Grows(old(ledger), ledger, FreshTokens(reply))
      ensures disk.blind <= old(disk).blind && ledger.inFlight == old(ledger).inFlight
      ensures r.Done? ==>
        && Usable(disk, org) && Entries(disk.file)[org].accessToken == token
        && Entries(disk.file)[org].grantExpiry > clock.grantCheck
        && (org !in disk.blind ==> DurablyHolds(disk, org, Entries(disk.file)[org]))
      ensures |ledger.sent| > |old(ledger).sent| ==>
        && old(Usable(disk, org)) && old(Entries(disk.file))[org].accessExpiry - clock.accessCheck < RENEW_BEFORE
        && ledger.sent[|ledger.sent| - 1].token == old(Entries(disk.file))[org].refreshToken
      ensures !old(Usable(disk, org)) ==> !r.Done? && disk == old(disk) && ledger == old(ledger)
      // A token as stored has five minutes left; else it is the renewed one
      ensures r.Done? && |ledger.sent| == |old(ledger).sent| ==>
        disk == old(disk) && Entries(disk.file)[org].accessExpiry >= clock.accessCheck + 300 * 1_000_000_000
      ensures r.Done? && |ledger.sent| > |old(ledger).sent| ==> reply.Some? && token == reply.value.accessToken
      // Only of a login it can trust
      ensures r.Done? ==>
        var e := old(Entries(disk.file))[org];
        && old(Usable(disk, org)) && e.org == org && e.grantExpiry > clock.grantCheck
        && ValidGrantUUID(e.grantId) && ValidGrantUUID(e.orgId) && SafeOpaqueToken(e.accessToken) && SafeOpaqueToken(e.refreshToken)
        && e.tokenEndpoint.safe && e.revocationEndpoint.safe
      // It answers one whenever it should: nothing but trouble here, or the server, keeps it from that
      ensures old(trouble) ==> trouble
      ensures !r.Done? ==>
        || trouble || !old(Usable(disk, org))
        || var e := old(Entries(disk.file))[org];
           || !WellFormed(e) || e.org != org || e.grantExpiry <= clock.grantCheck
           || (e.accessExpiry < clock.accessCheck + 300 * 1_000_000_000
               && (reply.None? || Successor(reply.value, clock.renewal, e.(pending := true)).None?))
    {
      hide Safe, Sent, SafeOpaqueToken, ValidGrantUUID;
      token := "";
      var inventory;
      r, inventory := ReadInventory();
      if !r.Done? { return; }
      if org !in inventory { return Failed, token; }
      var entry := inventory[org];
      var required := RefreshRecoveryRequired(org);
      if entry.pending || required || entry.org != org || entry.grantExpiry <= clock.grantCheck || !WellFormed(entry) {
        return Failed, token;
      }
      if entry.accessExpiry - clock.accessCheck < RENEW_BEFORE {
        r, entry := RenewLogin(inventory, entry, clock.renewal, reply);
        if !r.Done? { return; }
      }
      token := entry.accessToken;
      StoredIsOurs(disk, ledger, org);
    }

    /** The end of a browser login before anything is saved: a reply the client accepts is in flight
        until Login saves it; what a refused one granted is sent for revocation. rejected is the
        exchange's own verdict on the reply. */
    method Exchange(origin: string, response: TokenResponse, rejected: bool, at: Instants, tokenEndpoint: Endpoint, revocationEndpoint: Endpoint)
      returns (entry: Option<StoredCredential>)
      requires Valid() && FreshTokens(Some(response)) !! ledger.issued.Keys
      modifies this`ledger
      ensures Valid() && Grows(old(ledger), ledger, FreshTokens(Some(response)))
      ensures ledger.sent == old(ledger).sent
      ensures entry.Some? <==> !rejected && ValidateTokenResponse(response, origin, at, None).Some?
      ensures entry.Some? ==>
        entry.value == ValidateTokenResponse(response, origin, at, None).value.(tokenEndpoint := tokenEndpoint, revocationEndpoint := revocationEndpoint)
      ensures FreshTokens(Some(response)) <= ledger.issued.Keys
      ensures entry.Some? ==>
        && ledger.inFlight == old(ledger).inFlight[response.refreshToken := entry.value]
        && entry.value.refreshToken == response.refreshToken && entry.value.org.origin == origin
        && ledger.revoked == old(ledger).revoked
      ensures entry.None? ==>
        && ledger.inFlight == old(ledger).inFlight
        && (SafeOpaqueToken(response.refreshToken) ==> response.refreshToken in ledger.revoked)
        && (!SafeOpaqueToken(response.refreshToken) && SafeOpaqueToken(response.accessToken) ==>
              response.accessToken in ledger.revoked)
    {
      var validated := if rejected then None else ValidateTokenResponse(response, origin, at, None);
      if validated.None? {
        if SafeOpaqueToken(response.refreshToken) {
          SafeWhenIssued(disk, ledger, response.refreshToken, Org(origin, response.orgSlug));
          ledger := ledger.(issued := ledger.issued[response.refreshToken := Org(origin, response.orgSlug)]);
        }
        var heard := *;
        var _ := Revoke(Revocable(response), heard);
        return None;
      }
      var accepted := validated.value.(tokenEndpoint := tokenEndpoint, revocationEndpoint := revocationEndpoint);
      SafeWhenExchanged(disk, ledger, accepted);
      ledger := ledger.(issued := ledger.issued[accepted.refreshToken := accepted.org],
                        inFlight := ledger.inFlight[accepted.refreshToken := accepted]);
      entry := Some(accepted);
    }

    /** Asks the server to revoke a token. confirms is whether it hears, and answers that it has. */
    method Revoke(token: string, confirms: bool) returns (confirmed: bool)
      requires Valid()
      modifies this`ledger
      ensures Valid()
      ensures ledger == old(ledger).(revoked := old(ledger).revoked + (if SafeOpaqueToken(token) then {token} else {}))
      ensures confirmed <==> SafeOpaqueToken(token) && confirms
    {
      confirmed := false;
      if SafeOpaqueToken(token) {
        ledger := ledger.(revoked := ledger.revoked + {token});
        confirmed := confirms;
      }
    }

    /** A login goes on without a marker. */
    method Unmarked(org: Org)
      requires Valid() && trouble
      modifies this`disk
      ensures Valid() && disk == old(disk).(blind := old(disk).blind + {org})
    {
      disk := disk.(blind := disk.blind + {org});
    }

    /** The section of a login under the lock: mark, save, clear. */
    method SaveLogin(entry: StoredCredential) returns (r: Outcome)
      requires Valid()
      requires entry.refreshToken in ledger.inFlight && ledger.inFlight[entry.refreshToken] == entry
      modifies this
      ensures Valid() && Grows(old(ledger), ledger, {})
      ensures ledger.sent == old(ledger).sent && ledger.revoked == old(ledger).revoked
      ensures ledger.inFlight == old(ledger).inFlight - {entry.refreshToken}
      ensures disk.blind <= old(disk).blind + (if entry.org in old(disk).marks then {} else {entry.org})
      ensures (old(trouble) ==> trouble) && (!r.Done? ==> trouble)
      ensures r.Done? ==>
        && Entries(disk.file) == old(Entries(disk.file))[entry.org := entry]
        && Usable(disk, entry.org) && DurablyHolds(disk, entry.org, entry)
        && entry.org !in disk.maybe && disk.blind == {}
      ensures r.Failed? && Usable(disk, entry.org) && entry.org !in disk.blind ==>
        DurablyHolds(disk, entry.org, Entries(disk.file)[entry.org])
    {
      var org := entry.org;
      SafeWhenLanded(disk, ledger, entry);
      ledger := ledger.(inFlight := ledger.inFlight - {entry.refreshToken});
      var inventory;
      r, inventory := ReadInventory();
      if !r.Done? { return; }
      var required := RefreshRecoveryRequired(org);
      if !required {
        r := MarkRefreshRecovery(org);
        if !r.Done? { return; }
      } else if org !in disk.marks {
        Unmarked(org);
      }
      inventory := inventory[org := entry];
      r := SaveAndClear(inventory, org);
    }

    /** SaveLogin, and when it fails, the revocation of what the server granted. */
    method Login(entry: StoredCredential) returns (r: Outcome)
      requires Valid()
      requires entry.refreshToken in ledger.inFlight && ledger.inFlight[entry.refreshToken] == entry
      modifies this
      ensures Valid() && Grows(old(ledger), ledger, {})
      ensures ledger.sent == old(ledger).sent
      ensures ledger.inFlight == old(ledger).inFlight - {entry.refreshToken}
      ensures r.Done? ==>
        && ledger.revoked == old(ledger).revoked
        && Usable(disk, entry.org) && DurablyHolds(disk, entry.org, entry) && disk.blind == {}
      ensures r.Failed? ==> entry.refreshToken in ledger.revoked
      ensures (old(trouble) ==> trouble) && (!r.Done? ==> trouble)
      ensures disk.blind <= old(disk).blind + (if entry.org in old(disk).marks then {} else {entry.org})
    {
      r := SaveLogin(entry);
      if r.Failed? {
        var heard := *;
        var _ := Revoke(entry.refreshToken, heard);
      }
    }

    lemma LogoutMayWrite(org: Org)
      requires Valid()
      ensures MayWrite(disk, ledger, Entries(disk.file) - {org}, org)
    {
    }

    /** Removes org's entry, having asked the server to revoke it. */
    method Logout(org: Org, confirms: bool) returns (r: Outcome, localRemoved: bool, confirmed: bool)
      requires Valid()
      modifies this
      ensures Valid() && Grows(old(ledger), ledger, {})
      ensures ledger.sent == old(ledger).sent && disk.blind <= old(disk).blind && ledger.inFlight == old(ledger).inFlight
      ensures localRemoved ==> Entries(disk.file) == old(Entries(disk.file)) - {org}
      ensures localRemoved ==> (DurablyGone(disk, org) <==> org in old(Entries(disk.file)) || DurablyGone(old(disk), org))
      ensures !localRemoved ==> Entries(disk.file) == old(Entries(disk.file)) || Entries(disk.file) == old(Entries(disk.file)) - {org}
      ensures confirmed ==> localRemoved && org in old(Entries(disk.file)) && old(Entries(disk.file))[org].refreshToken in ledger.revoked
      ensures old(trouble) ==> trouble
      ensures !trouble ==> localRemoved && (r.Done? <==> org !in old(Entries(disk.file)) || confirmed)
      ensures !trouble && org in old(Entries(disk.file)) ==> org !in disk.marks
      ensures localRemoved && org in old(Entries(disk.file)) ==>
        var e := old(Entries(disk.file))[org];
        var asked := e.org == org && e.revocationEndpoint.safe && SafeOpaqueToken(e.refreshToken);
        (asked ==> e.refreshToken in ledger.revoked) && (confirmed <==> asked && confirms)
      ensures r.Done? ==> localRemoved && (org in old(Entries(disk.file)) ==> confirmed && org !in disk.marks)
    {
      hide Safe, SafeOpaqueToken;
      var fails;
      localRemoved, confirmed := false, false;
      var inventory;
      r, inventory := ReadInventory();
      if !r.Done? { return; }
      if org !in inventory { return Done, true, false; }
      var entry := inventory[org];
      var revoked := false;
      if entry.org == org && entry.revocationEndpoint.safe && SafeOpaqueToken(entry.refreshToken) {
        revoked := Revoke(entry.refreshToken, confirms);
      }
      fails := Trouble();
      if fails { return Crashed, false, false; }
      LogoutMayWrite(org);
      inventory := inventory - {org};
      r := SaveCredentialInventory(inventory, org);
      if !r.Done? { return; }
      localRemoved, confirmed := true, revoked;
      r := ClearRefreshRecovery(org);
      if r.Done? && !confirmed { r := Failed; }
    }

    lemma FlightKnown(token: string)
      requires Valid() && token in ledger.inFlight
      ensures ledger.inFlight[token].refreshToken == token
    {
    }

    lemma SafeSays()
      requires Valid()
      ensures forall i, j | 0 <= i < j < |ledger.sent| :: ledger.sent[i].token != ledger.sent[j].token
      ensures forall p | p in ledger.sent :: WrittenAhead(p.disk, p.org, p.token)
      ensures forall org | Usable(disk, org) ::
        && !Sent(ledger, Entries(disk.file)[org].refreshToken)
        && (org in disk.blind || DurablyHolds(disk, org, Entries(disk.file)[org]))
      ensures !trouble ==> forall after | CrashOf(disk, after) :: after == disk
    {
      hide WrittenAhead, SafeOpaqueToken;
      assert TokensBlocked(disk, ledger) && SentOnce(ledger);
    }

    /** The machine stops, and comes back with one of the disks that may leave. */
    method PowerLoss()
      requires Valid()
      modifies this`disk
      ensures Valid() && CrashOf(old(disk), disk)
    {
      ghost var before := disk;
      var file :| file in disk.mayHold;
      var marks :| disk.surely <= marks <= disk.maybe && marks <= disk.maybe;
      disk := Disk(file, {file}, marks, marks, marks, {});
      SafeAfterCrash(before, ledger, disk);
    }
  }

  /** One thing that happens on the machine. Between any two, any processes may have come and gone. */
  datatype Command =
    | Exchanging(origin: string, response: TokenResponse, rejected: bool, at: Instants, tokenEndpoint: Endpoint, revocationEndpoint: Endpoint)
    | Saving(token: string)  // of the login whose exchange brought this refresh token
    | Loading(org: Org, clock: LoadClock, reply: Reply)
    | LoggingOut(org: Org, confirms: bool)
    | LosingPower

  function Brings(c: Command): set<string> {
    match c
    case Exchanging(_, response, _, _, _, _) => FreshTokens(Some(response))
    case Loading(_, _, reply) => FreshTokens(reply)
    case _ => {}
  }

  /** The server issues fresh refresh tokens: none it issued before, and none twice. */
  ghost predicate ServerIssuesFresh(script: seq<Command>, used: set<string>) {
    && (forall i | 0 <= i < |script| :: Brings(script[i]) !! used)
    && (forall i, j | 0 <= i < j < |script| :: Brings(script[i]) !! Brings(script[j]))
  }

  /** Every run, from an empty folder, of logins, renewals and logouts of any orgs, each failing or
      crashing anywhere, and of power losses in between: no refresh token is sent for renewal twice;
      each was sent only once its entry was pending and its org marked whatever a crash would leave;
      an org whose login a process finds usable is durably so, unless since the last sync a login's
      lookup of that org's marker failed; and where nothing failed nor crashed, a power loss loses nothing. */
  method Run(script: seq<Command>) returns (home: Home)
    requires ServerIssuesFresh(script, {})
    ensures fresh(home) && home.Valid()
    ensures forall i, j | 0 <= i < j < |home.ledger.sent| :: home.ledger.sent[i].token != home.ledger.sent[j].token
    ensures forall p | p in home.ledger.sent :: WrittenAhead(p.disk, p.org, p.token)
    ensures forall org | Usable(home.disk, org) ::
      && !Sent(home.ledger, Entries(home.disk.file)[org].refreshToken)
      && (org in home.disk.blind || DurablyHolds(home.disk, org, Entries(home.disk.file)[org]))
    ensures !home.trouble ==> forall after | CrashOf(home.disk, after) :: after == home.disk
    ensures forall c | c in script && c.Exchanging? :: Brings(c) <= home.ledger.issued.Keys
  {
    hide Safe, Sent, Usable, WrittenAhead, Brings;
    home := new Home();
    var exchanged: map<string, StoredCredential> := map[];
    for n := 0 to |script|
      invariant fresh(home) && home.Valid()
      invariant exchanged == home.ledger.inFlight
      invariant forall k | n <= k < |script| :: Brings(script[k]) !! home.ledger.issued.Keys
      invariant forall k | 0 <= k < n && script[k].Exchanging? :: Brings(script[k]) <= home.ledger.issued.Keys
    {
      assert forall k | n < k < |script| :: Brings(script[n]) !! Brings(script[k]);
      exchanged := Obey(home, script[n], exchanged);
    }
    home.SafeSays();
  }

  /** One command, of whatever process. exchanged are the logins not yet saved. */
  method Obey(home: Home, c: Command, exchanged: map<string, StoredCredential>) returns (left: map<string, StoredCredential>)
    requires home.Valid() && exchanged == home.ledger.inFlight && Brings(c) !! home.ledger.issued.Keys
    modifies home
    ensures home.Valid() && left == home.ledger.inFlight
    ensures old(home.ledger).issued.Keys <= home.ledger.issued.Keys <= old(home.ledger).issued.Keys + Brings(c)
    ensures c.Exchanging? ==> Brings(c) <= home.ledger.issued.Keys
  {
    hide Safe, Sent, Usable, WrittenAhead, SafeOpaqueToken, ValidateTokenResponse;
    left := exchanged;
    match c
    case Exchanging(origin, response, rejected, at, tokenEndpoint, revocationEndpoint) =>
      var entry := home.Exchange(origin, response, rejected, at, tokenEndpoint, revocationEndpoint);
      if entry.Some? { left := left[response.refreshToken := entry.value]; }
    case Saving(token) =>
      if token in left {
        home.FlightKnown(token);
        var _ := home.Login(left[token]);
        left := left - {token};
      }
    case Loading(org, clock, reply) =>
      var _, _ := home.LoadAccessToken(org, clock, reply);
    case LoggingOut(org, confirms) =>
      var _, _, _ := home.Logout(org, confirms);
    case LosingPower =>
      home.PowerLoss();
  }

  /** From any state, a login that the server grants, saved and loaded, answers the access token granted,
      if nothing fails here. */
  method LoginThenLoad(home: Home, origin: string, response: TokenResponse, at: Instants, endpoint: Endpoint, clock: LoadClock)
    returns (r: Outcome, token: string)
    requires home.Valid() && FreshTokens(Some(response)) !! home.ledger.issued.Keys
    requires Granting(response, origin, at) && endpoint.safe
    requires response.grantExpiry > clock.grantCheck
    requires clock.accessCheck + 300 * 1_000_000_000 <= response.grantExpiry
    requires clock.accessCheck + 300 * 1_000_000_000 <= at.started + response.expiresIn * 1_000_000_000
    modifies home
    ensures !home.trouble ==> r.Done? && token == response.accessToken && home.ledger.sent == old(home.ledger.sent)
  {
    hide Safe, ValidGrantUUID, SafeOpaqueToken, Sent;
    token := "";
    var entry := home.Exchange(origin, response, false, at, endpoint, endpoint);
    r := home.Login(entry.value);
    if !r.Done? { return; }
    r, token := home.LoadAccessToken(entry.value.org, clock, None);
  }
}
