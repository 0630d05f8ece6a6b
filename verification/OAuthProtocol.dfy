/** What the client accepts of the authorization server's token endpoint, and
    what a stored login keeps of it (internal/cliauth/oauth_protocol.go).
    Times are nanoseconds on one wall clock. */
module OAuthProtocol {
  import opened Options

  const SECOND: int := 1_000_000_000
  const CLOCK_SKEW: int := 5 * 60 * SECOND
  const LONGEST_GRANT: int := 180 * 24 * 3600 * SECOND

  datatype Org = Org(origin: string, slug: string)

  /** An endpoint as stored; safe is the verdict of safeOAuthEndpoint on it for the org's origin. */
  datatype Endpoint = Endpoint(url: string, safe: bool)

  datatype StoredCredential = StoredCredential(
    org: Org,
    orgName: string,
    grantId: string,
    orgId: string,
    grantExpiry: int,
    accessToken: string,
    refreshToken: string,
    accessExpiry: int,
    tokenEndpoint: Endpoint,
    revocationEndpoint: Endpoint,
    pending: bool)

  /** A decoded reply of the token endpoint. org is what the reply's org URL parses to,
      canonical whether that URL is exactly the parsed org's own address. */
  datatype TokenResponse = TokenResponse(
    accessToken: string,
    refreshToken: string,
    tokenType: string,
    expiresIn: int,
    scope: string,
    resource: string,
    grantId: string,
    orgId: string,
    orgSlug: string,
    orgName: string,
    org: Option<Org>,
    canonical: bool,
    grantExpiry: int,
    utc: bool)

  const NO_ENDPOINT := Endpoint("", false)

  function Lower(c: char): char {
    if 'A' <= c <= 'Z' then (c as int + 32) as char else c
  }

  predicate EqualFold(s: string, t: string) {
    |s| == |t| && forall i | 0 <= i < |s| :: Lower(s[i]) == Lower(t[i])
  }

  predicate SafeOpaqueToken(s: string) {
    0 < |s| <= 8192 && forall i | 0 <= i < |s| :: 32 < s[i] as int < 127
  }

  predicate IsHex(c: char) {
    '0' <= c <= '9' || 'a' <= c <= 'f' || 'A' <= c <= 'F'
  }

  predicate ValidGrantUUID(s: string) {
    && |s| == 36
    && (forall i | 0 <= i < 36 :: if i in {8, 13, 18, 23} then s[i] == '-' else IsHex(s[i]))
    && s != "00000000-0000-0000-0000-000000000000"
  }

  /** The moments validateTokenResponse reads the clock, and when the request started. */
  datatype Instants = Instants(started: int, deadlineCheck: int, expiryCheck: int)

  /** The checks that concern the reply alone. */
  predicate Acceptable(response: TokenResponse, origin: string, at: Instants) {
    && response.utc
    && response.org.Some?
    && response.org.value.origin == origin
    && response.org.value.slug == response.orgSlug
    && response.canonical
    && ValidGrantUUID(response.grantId)
    && ValidGrantUUID(response.orgId)
    && SafeOpaqueToken(response.accessToken)
    && SafeOpaqueToken(response.refreshToken)
    && EqualFold(response.tokenType, "Bearer")
    && response.scope == "all"
    && response.resource == origin + "/api"
    && 0 < response.expiresIn <= 3600
    && response.grantExpiry > at.deadlineCheck
    && response.grantExpiry - at.started <= LONGEST_GRANT + CLOCK_SKEW
  }

  predicate SameGrant(a: StoredCredential, b: StoredCredential) {
    a.grantId == b.grantId && a.orgId == b.orgId && a.org == b.org && a.grantExpiry == b.grantExpiry
  }

  predicate Succeeds(successor: StoredCredential, predecessor: StoredCredential) {
    && SameGrant(successor, predecessor)
    && successor.refreshToken != predecessor.refreshToken
    && successor.accessToken != predecessor.accessToken
  }

  /** What an accepted reply says: bearer tokens, for everything the origin's API serves, of a grant of
      one of the origin's orgs, whose deadline is ahead, within 180 days and 5 minutes of the request, and
      whose access token lasts an hour at most, has not run out, and outlasts the deadline by 5 minutes at
      most. */
  ghost predicate Granting(response: TokenResponse, origin: string, at: Instants) {
    && response.scope == "all" && response.resource == origin + "/api" && EqualFold(response.tokenType, "Bearer")
    && SafeOpaqueToken(response.accessToken) && SafeOpaqueToken(response.refreshToken)
    && response.org == Some(Org(origin, response.orgSlug)) && response.canonical && response.utc
    && ValidGrantUUID(response.grantId) && ValidGrantUUID(response.orgId)
    && 1 <= response.expiresIn <= 3600
    && at.deadlineCheck < response.grantExpiry <= at.started + (180 * 86_400 + 300) * 1_000_000_000
    && at.expiryCheck < at.started + response.expiresIn * 1_000_000_000 <= response.grantExpiry + 300 * 1_000_000_000
  }

  /** What a reply renews: the same grant, with both tokens new. */
  ghost predicate Renewing(response: TokenResponse, predecessor: StoredCredential) {
    && response.grantId == predecessor.grantId && response.orgId == predecessor.orgId
    && response.org == Some(predecessor.org) && response.grantExpiry == predecessor.grantExpiry
    && response.refreshToken != predecessor.refreshToken && response.accessToken != predecessor.accessToken
  }

  /** A reply is accepted exactly if it grants, or renews the grant there was; and what is stored is the
      reply's own grant and tokens. */
  function ValidateTokenResponse(response: TokenResponse, origin: string, at: Instants, predecessor: Option<StoredCredential>)
    : (r: Option<StoredCredential>)
    ensures r.Some? <==> Granting(response, origin, at) && (predecessor.Some? ==> Renewing(response, predecessor.value))
    ensures r.Some? ==>
      && r.value.accessToken == response.accessToken && r.value.refreshToken == response.refreshToken
      && r.value.grantId == response.grantId && r.value.orgId == response.orgId
      && r.value.org == Org(origin, response.orgSlug) && r.value.grantExpiry == response.grantExpiry
      && !r.value.pending
    ensures r.Some? ==>
      && r.value.accessExpiry <= response.grantExpiry
      && r.value.accessExpiry <= at.started + response.expiresIn * 1_000_000_000
      && r.value.accessExpiry in {response.grantExpiry, at.started + response.expiresIn * 1_000_000_000}
    ensures r.Some? && response.orgName != "" ==> r.value.orgName == response.orgName
    ensures r.Some? && response.orgName == "" ==> r.value.orgName == if predecessor.Some? then predecessor.value.orgName else ""
    ensures r.Some? ==>
      && r.value.accessExpiry <= r.value.grantExpiry
      && r.value.accessExpiry <= at.started + 3600 * SECOND
      && at.deadlineCheck < r.value.grantExpiry <= at.started + LONGEST_GRANT + CLOCK_SKEW
      && r.value.org.origin == origin && !r.value.pending
      && r.value.refreshToken == response.refreshToken
      && SafeOpaqueToken(r.value.refreshToken) && SafeOpaqueToken(r.value.accessToken)
    ensures r.Some? && predecessor.Some? ==> Succeeds(r.value, predecessor.value)
  {
    if !Acceptable(response, origin, at) then None else
    var expiry := at.started + response.expiresIn * SECOND;
    if expiry > response.grantExpiry + CLOCK_SKEW || expiry <= at.expiryCheck then None else
    var result := StoredCredential(response.org.value, response.orgName, response.grantId, response.orgId,
                                   response.grantExpiry, response.accessToken, response.refreshToken,
                                   if expiry > response.grantExpiry then response.grantExpiry else expiry,
                                   NO_ENDPOINT, NO_ENDPOINT, false);
    if predecessor.None? then Some(result)
    else if !Succeeds(result, predecessor.value) then None
    else Some(if result.orgName == "" then result.(orgName := predecessor.value.orgName) else result)
  }

  /** What renewLogin stores: the validated reply, with its predecessor's endpoints. */
  function Successor(response: TokenResponse, at: Instants, predecessor: StoredCredential): (r: Option<StoredCredential>)
  {
    match ValidateTokenResponse(response, predecessor.org.origin, at, Some(predecessor))
    case None => None
    case Some(s) => Some(s.(tokenEndpoint := predecessor.tokenEndpoint, revocationEndpoint := predecessor.revocationEndpoint))
  }

  /** The server's reply to a renewal of a grant: the grant as it was, and these tokens. */
  function ReplyFor(grant: StoredCredential, accessToken: string, refreshToken: string, expiresIn: int): TokenResponse {
    TokenResponse(accessToken, refreshToken, "bearer", expiresIn, "all", grant.org.origin + "/api", grant.grantId, grant.orgId,
                  grant.org.slug, "", Some(grant.org), true, grant.grantExpiry, true)
  }

  /** A renewal's round trip: a reply built from a stored grant, with new tokens and in time, is accepted,
      and is stored as that grant with those tokens and nothing else changed. */
  lemma RenewsItsGrant(grant: StoredCredential, accessToken: string, refreshToken: string, expiresIn: int, at: Instants)
    requires ValidGrantUUID(grant.grantId) && ValidGrantUUID(grant.orgId)
    requires SafeOpaqueToken(accessToken) && SafeOpaqueToken(refreshToken)
    requires accessToken != grant.accessToken && refreshToken != grant.refreshToken
    requires 1 <= expiresIn <= 3600 && at.deadlineCheck < grant.grantExpiry
    requires grant.grantExpiry - at.started <= (180 * 86_400 + 300) * 1_000_000_000
    requires at.expiryCheck < at.started + expiresIn * 1_000_000_000 <= grant.grantExpiry
    ensures Successor(ReplyFor(grant, accessToken, refreshToken, expiresIn), at, grant) ==
            Some(grant.(accessToken := accessToken, refreshToken := refreshToken, pending := false,
                        accessExpiry := at.started + expiresIn * 1_000_000_000))
  {
    AnyCase();
    hide ValidGrantUUID, SafeOpaqueToken, EqualFold;
  }

  lemma AnyCase()
    ensures EqualFold("bearer", "Bearer") && EqualFold("Bearer", "Bearer") && EqualFold("BEARER", "Bearer")
    ensures !EqualFold("Basic", "Bearer")
  {
    assert Lower('B') == 'b' && Lower('E') == 'e' && Lower('A') == 'a' && Lower('R') == 'r';
  }

  datatype Renewal = Renewal(response: TokenResponse, at: Instants)

  /** chain[0] is a login's entry, and each later entry the renewal of the one before it,
      stored pending or not when it was renewed. */
  ghost predicate IsChain(chain: seq<StoredCredential>, renewals: seq<Renewal>) {
    && |chain| == |renewals| + 1
    && forall i | 0 <= i < |renewals| ::
      Successor(renewals[i].response, renewals[i].at, chain[i].(pending := true)) == Some(chain[i + 1])
  }

  /** Along any chain of renewals the grant, its org and its deadline are the login's, the access
      expiry is bounded by the deadline and by an hour after the request, and tokens turn over. */
  lemma {:induction false} ChainKeepsGrant(chain: seq<StoredCredential>, renewals: seq<Renewal>, k: nat)
    requires IsChain(chain, renewals)
    requires k < |chain|
    ensures SameGrant(chain[k], chain[0])
    ensures chain[k].tokenEndpoint == chain[0].tokenEndpoint && chain[k].revocationEndpoint == chain[0].revocationEndpoint
    ensures chain[0].orgName != "" ==> chain[k].orgName != ""
    ensures k > 0 ==>
      && chain[k].accessExpiry <= chain[0].grantExpiry
      && chain[k].accessExpiry <= renewals[k - 1].at.started + 3600 * SECOND
      && chain[k].accessExpiry > renewals[k - 1].at.expiryCheck - CLOCK_SKEW
      && chain[k].refreshToken != chain[k - 1].refreshToken
      && chain[k].accessToken != chain[k - 1].accessToken
      && !chain[k].pending
  {
    if k > 0 {
      ChainKeepsGrant(chain, renewals, k - 1);
      var step := renewals[k - 1];
      assert Successor(step.response, step.at, chain[k - 1].(pending := true)) == Some(chain[k]);
    }
  }

  /** Tokens fit in a header: visible ASCII characters, one to 8192 of them. */
  lemma TokensAreVisible(s: string)
    ensures SafeOpaqueToken(s) <==> 1 <= |s| <= 8192 && forall c | c in s :: '!' <= c <= '~'
  {
    assert forall i | 0 <= i < |s| :: s[i] in s;
  }

  predicate AllHex(s: string) { forall c | c in s :: c in "0123456789abcdefABCDEF" }

  function Grouped(a: string, b: string, c: string, d: string, e: string): string {
    a + ("-" + (b + ("-" + (c + ("-" + (d + ("-" + e)))))))
  }

  predicate Groups(a: string, b: string, c: string, d: string, e: string) {
    && |a| == 8 && |b| == 4 && |c| == 4 && |d| == 4 && |e| == 12
    && AllHex(a) && AllHex(b) && AllHex(c) && AllHex(d) && AllHex(e)
  }

  /** Grant ids are five groups of hexadecimal digits, and not the nil one: these, */
  lemma GroupsMakeAGrantId(a: string, b: string, c: string, d: string, e: string)
    requires Groups(a, b, c, d, e) && Grouped(a, b, c, d, e) != "00000000-0000-0000-0000-000000000000"
    ensures ValidGrantUUID(Grouped(a, b, c, d, e))
  {
    HexDigits();
    hide IsHex;
    var s := Grouped(a, b, c, d, e);
    assert |s| == 36 && s[8] == s[13] == s[18] == s[23] == '-';
    forall i | 0 <= i < 36 && i !in {8, 13, 18, 23} ensures IsHex(s[i]) {
      var x := if i < 8 then a[i] else if i < 13 then b[i - 9] else if i < 18 then c[i - 14] else if i < 23 then d[i - 19] else e[i - 24];
      assert s[i] == x && (x in a || x in b || x in c || x in d || x in e);
    }
  }

  /** and nothing else: what is not a digit is a dash, after 8, 4, 4 and 4 digits. */
  lemma GrantIdsAreGrouped(s: string)
    requires ValidGrantUUID(s)
    ensures |s| == 36 && s != "00000000-0000-0000-0000-000000000000"
    ensures forall i | 0 <= i < 36 :: s[i] in "0123456789abcdefABCDEF" || (s[i] == '-' && i in {8, 13, 18, 23})
    ensures s[8] == s[13] == s[18] == s[23] == '-'
  {
    HexDigits();
    hide IsHex;
  }

  lemma HexDigits()
    ensures forall c: char :: IsHex(c) <==> c in "0123456789abcdefABCDEF"
  {
    var digits := "0123456789abcdefABCDEF";
    forall c: char ensures IsHex(c) <==> c in digits {
      if '0' <= c <= '9' { assert digits[c as int - '0' as int] == c; }
      if 'a' <= c <= 'f' { assert digits[10 + c as int - 'a' as int] == c; }
      if 'A' <= c <= 'F' { assert digits[16 + c as int - 'A' as int] == c; }
    }
  }
}
