/** Claims, credentials and sealed envelopes of the authorization server. */
module OAuthTypes {
  import opened Common

  /** An instant in nanoseconds; 0 is the zero instant, which the claims treat as absent. */
  type Time = int

  datatype Scheme = TokenScheme | BearerScheme | BasicScheme | OtherScheme(name: string)

  datatype Credential = Credential(scheme: Scheme, token: string) {
    predicate Validate() { !scheme.OtherScheme? && token != "" }

    predicate ValidateForEnvelope() { Validate() && !scheme.BasicScheme? }
  }

  datatype Kind = Access | Refresh | Code

  datatype AssociatedData = AssociatedData(issuer: string, audience: string, clientId: string, kind: Kind)

  datatype Source = Dedicated | Supplied

  datatype TokenClaims = TokenClaims(
    kind: Kind, issuer: string, audience: string, subject: string, clientId: string, scopes: seq<string>,
    issuedAt: Time, expiresAt: Time, sessionExpiresAt: Time, credential: Credential, source: Source)

  predicate TokenValidForUse(c: TokenClaims, now: Time, expected: Kind, aad: AssociatedData) {
    && c.kind == expected
    && c.issuer == aad.issuer && c.audience == aad.audience && c.clientId == aad.clientId
    && c.subject != "" && c.issuedAt != 0 && c.issuedAt <= now
    && c.expiresAt > now
    && c.expiresAt > c.issuedAt
    && c.sessionExpiresAt != 0 && c.sessionExpiresAt > now && c.expiresAt <= c.sessionExpiresAt
    && c.credential.ValidateForEnvelope()
  }

  datatype CodeClaims = CodeClaims(
    codeId: string, issuer: string, audience: string, subject: string, clientId: string, redirectUri: string,
    challenge: string, scopes: seq<string>, issuedAt: Time, expiresAt: Time, credential: Credential, source: Source)

  /** The S256 challenge of a verifier; any function will do. */
  type Challenge = string -> string

  predicate VerifyChallenge(s256: Challenge, verifier: string, challenge: string) {
    verifier != "" && challenge != "" && s256(verifier) == challenge
  }

  predicate CodeValidForUse(c: CodeClaims, now: Time, aad: AssociatedData, redirectUri: string, verifier: string, s256: Challenge) {
    && c.issuer == aad.issuer && c.audience == aad.audience && c.clientId == aad.clientId
    && c.redirectUri == redirectUri
    && c.codeId != "" && c.challenge != ""
    && VerifyChallenge(s256, verifier, c.challenge)
    && c.expiresAt > now
    && c.credential.ValidateForEnvelope()
  }

  datatype Payload = TokenPayload(token: TokenClaims) | CodePayload(code: CodeClaims)

  /** Ideal sealing: an envelope opens under the associated data it was sealed with, and only then;
      whatever was not sealed here does not open. */
  datatype Envelope = Sealed(aad: AssociatedData, payload: Payload) | Forged(text: string)

  function OpenToken(e: Envelope, aad: AssociatedData): Option<TokenClaims> {
    if e.Sealed? && e.aad == aad && e.payload.TokenPayload? then Some(e.payload.token) else None
  }

  function OpenCode(e: Envelope, aad: AssociatedData): Option<CodeClaims> {
    if e.Sealed? && e.aad == aad && e.payload.CodePayload? then Some(e.payload.code) else None
  }
}

/** Authorization codes, token pairs and refresh. */
module OAuthService {
  import opened Common
  import opened OAuthTypes
  import opened Expiries
  import opened CodeStores

  const DEFAULT_ACCESS_LIFETIME := 900_000_000_000
  const DEFAULT_REFRESH_LIFETIME := 2_592_000_000_000_000
  const DEFAULT_SESSION_LIFETIME := 7_776_000_000_000_000
  const DEFAULT_CODE_LIFETIME := 300_000_000_000

  datatype Service = Service(
    accessLifetime: int, refreshLifetime: int, sessionLifetime: int, codeLifetime: int, s256: Challenge)

  function OrDefault(value: int, fallback: int): int { if value == 0 then fallback else value }

  function SessionLifetime(s: Service): int { OrDefault(s.sessionLifetime, DEFAULT_SESSION_LIFETIME) }

  datatype AuthorizationRequest = AuthorizationRequest(
    issuer: string, audience: string, subject: string, clientId: string, redirectUri: string,
    challenge: string, scopes: seq<string>, credential: Credential, source: Source)

  /** What stays the same along a chain of tokens. */
  datatype Grant = Grant(
    issuer: string, audience: string, subject: string, clientId: string, scopes: seq<string>,
    credential: Credential, source: Source)

  function GrantOfCode(c: CodeClaims): Grant {
    Grant(c.issuer, c.audience, c.subject, c.clientId, c.scopes, c.credential, c.source)
  }

  function GrantOfToken(c: TokenClaims): Grant {
    Grant(c.issuer, c.audience, c.subject, c.clientId, c.scopes, c.credential, c.source)
  }

  function Earlier(a: Time, b: Time): Time { if a < b then a else b }

  function Claims(g: Grant, kind: Kind, issuedAt: Time, expiresAt: Time, session: Time): TokenClaims {
    TokenClaims(kind, g.issuer, g.audience, g.subject, g.clientId, g.scopes, issuedAt, expiresAt, session, g.credential, g.source)
  }

  datatype Pair = Pair(access: TokenClaims, refresh: TokenClaims)

  /** A token pair whose tokens never outlive the session. */
  function IssuePair(s: Service, g: Grant, now: Time, session: Time): Pair {
    Pair(
      Claims(g, Access, now, Earlier(session, now + OrDefault(s.accessLifetime, DEFAULT_ACCESS_LIFETIME)), session),
      Claims(g, Refresh, now, Earlier(session, now + OrDefault(s.refreshLifetime, DEFAULT_REFRESH_LIFETIME)), session))
  }

  function Seal(c: TokenClaims): Envelope {
    Sealed(AssociatedData(c.issuer, c.audience, c.clientId, c.kind), TokenPayload(c))
  }

  function SealCode(c: CodeClaims): Envelope {
    Sealed(AssociatedData(c.issuer, c.audience, c.clientId, Code), CodePayload(c))
  }

  /** An issued token is usable exactly during its own lifetime, given what its issuer vouched for;
      the two zero-instant conditions are the only other way for it to be refused. */
  lemma UsableExactlyInLifetime(s: Service, g: Grant, issued: Time, session: Time, t: Time)
    ensures var pair := IssuePair(s, g, issued, session);
            forall c | c in {pair.access, pair.refresh} ::
              TokenValidForUse(c, t, c.kind, AssociatedData(g.issuer, g.audience, g.clientId, c.kind)) <==>
                && g.subject != "" && g.credential.ValidateForEnvelope()
                && issued != 0 && session != 0
                && issued <= t < c.expiresAt
    ensures IssuePair(s, g, issued, session).access.expiresAt <= session
    ensures IssuePair(s, g, issued, session).refresh.expiresAt <= session
  {
  }

  // Operations

  datatype Response = Denied | CodeIssued(code: Envelope) | PairIssued(access: Envelope, refresh: Envelope)

  function CodeFor(s: Service, q: AuthorizationRequest, id: string, now: Time): CodeClaims {
    CodeClaims(id, q.issuer, q.audience, q.subject, q.clientId, q.redirectUri, q.challenge, q.scopes,
               now, now + OrDefault(s.codeLifetime, DEFAULT_CODE_LIFETIME), q.credential, q.source)
  }

  predicate Complete(q: AuthorizationRequest) {
    q.issuer != "" && q.audience != "" && q.subject != "" && q.challenge != ""
  }

  /** Clock readings of an operation, in the order they are taken. */
  datatype Readings = Readings(first: Time, purge: Time, check: Time, session: Time, issue: Time)

  /** Issues a code and stores its identifier; a refused code is never returned. */
  method IssueAuthorizationCode(s: Service, store: CodeStore, q: AuthorizationRequest, metadataOk: bool, newId: Option<string>, t: Readings)
    returns (r: Response)
    modifies store`entries
    ensures (store.entries, r) == Issue(s, old(store.entries), store.max, q, metadataOk, newId, t)
  {
    if !Complete(q) || !q.credential.ValidateForEnvelope() || !metadataOk || newId.None? {
      return Denied;
    }
    var claims := CodeFor(s, q, newId.value, t.first);
    var stored := store.Store(newId.value, claims.expiresAt, t.purge, t.check);
    if !stored.Stored? {
      return Denied;
    }
    return CodeIssued(SealCode(claims));
  }

  function Issue(s: Service, m: Table, max: int, q: AuthorizationRequest, metadataOk: bool, newId: Option<string>, t: Readings)
    : (Table, Response)
  {
    if !(Complete(q) && q.credential.ValidateForEnvelope() && metadataOk && newId.Some?) then (m, Denied)
    else
      var claims := CodeFor(s, q, newId.value, t.first);
      var (after, stored) := StoreCode(m, max, newId.value, claims.expiresAt, t.purge, t.check);
      (after, if stored.Stored? then CodeIssued(SealCode(claims)) else Denied)
  }

  /** Exchanges a code for a token pair; the code is spent only by an attempt that fits it. */
  method ExchangeAuthorizationCode(s: Service, store: CodeStore, code: Envelope, aad: AssociatedData,
                                   redirectUri: string, verifier: string, t: Readings)
    returns (r: Response)
    modifies store`entries
    ensures (store.entries, r) == Exchange(s, old(store.entries), code, aad, redirectUri, verifier, t)
  {
    var found := OpenCode(code, aad.(kind := Code));
    if found.None? || !CodeValidForUse(found.value, t.first, aad, redirectUri, verifier, s.s256) {
      return Denied;
    }
    var ok := store.Consume(found.value.codeId, t.purge, t.check);
    if !ok {
      return Denied;
    }
    var pair := IssuePair(s, GrantOfCode(found.value), t.issue, t.session + SessionLifetime(s));
    return PairIssued(Seal(pair.access), Seal(pair.refresh));
  }

  function Exchange(s: Service, m: Table, code: Envelope, aad: AssociatedData, redirectUri: string, verifier: string, t: Readings)
    : (Table, Response)
  {
    var found := OpenCode(code, aad.(kind := Code));
    if found.None? || !CodeValidForUse(found.value, t.first, aad, redirectUri, verifier, s.s256) then (m, Denied)
    else
      var (after, ok) := ConsumeCode(m, found.value.codeId, t.purge, t.check);
      if !ok then (after, Denied)
      else
        var pair := IssuePair(s, GrantOfCode(found.value), t.issue, t.session + SessionLifetime(s));
        (after, PairIssued(Seal(pair.access), Seal(pair.refresh)))
  }

  /** Refreshes a session; it keeps the session end of the token it was given. */
  function Renew(s: Service, token: Envelope, aad: AssociatedData, credentialOk: bool, t: Readings): Response {
    var found := OpenToken(token, aad.(kind := Refresh));
    if found.None? || !TokenValidForUse(found.value, t.first, Refresh, aad) || !credentialOk then Denied
    else
      var pair := IssuePair(s, GrantOfToken(found.value), t.issue, found.value.sessionExpiresAt);
      PairIssued(Seal(pair.access), Seal(pair.refresh))
  }

  /** An attempt with another redirect URI, or with a verifier that does not fit the challenge, is
      denied and does not touch the store. */
  lemma WrongAttemptSpendsNothing(s: Service, m: Table, code: Envelope, aad: AssociatedData,
                                  redirectUri: string, verifier: string, t: Readings)
    requires code.Sealed? && code.payload.CodePayload?
    requires code.payload.code.redirectUri != redirectUri || !VerifyChallenge(s.s256, verifier, code.payload.code.challenge)
    ensures Exchange(s, m, code, aad, redirectUri, verifier, t) == (m, Denied)
  {
  }

  // Whole runs of a server

  datatype Op =
    | DoIssue(q: AuthorizationRequest, metadataOk: bool, newId: Option<string>, t: Readings)
    | DoExchange(code: Envelope, aad: AssociatedData, redirectUri: string, verifier: string, t: Readings)
    | DoRefresh(token: Envelope, aad: AssociatedData, credentialOk: bool, t: Readings)

  datatype Event = Event(op: Op, response: Response)

  function Apply(s: Service, m: Table, max: int, op: Op): (Table, Response) {
    match op
    case DoIssue(q, metadataOk, newId, t) => Issue(s, m, max, q, metadataOk, newId, t)
    case DoExchange(code, aad, redirectUri, verifier, t) => Exchange(s, m, code, aad, redirectUri, verifier, t)
    case DoRefresh(token, aad, credentialOk, t) => (m, Renew(s, token, aad, credentialOk, t))
  }

  function After(log: seq<Event>, s: Service, max: int): Table {
    if log == [] then map[] else Apply(s, After(log[..|log| - 1], s, max), max, log[|log| - 1].op).0
  }

  function Envelopes(r: Response): set<Envelope> {
    match r
    case Denied => {}
    case CodeIssued(code) => {code}
    case PairIssued(access, refresh) => {access, refresh}
  }

  function Issued(log: seq<Event>): set<Envelope> {
    if log == [] then {} else Issued(log[..|log| - 1]) + Envelopes(log[|log| - 1].response)
  }

  /** Clients present what the server sealed, or text that it did not seal. */
  predicate Presentable(e: Envelope, issued: set<Envelope>) { e.Forged? || e in issued }

  ghost predicate IsRun(log: seq<Event>, s: Service, max: int) {
    log != [] ==>
      var before, last := log[..|log| - 1], log[|log| - 1];
      && IsRun(before, s, max)
      && last.response == Apply(s, After(before, s, max), max, last.op).1
      && (last.op.DoExchange? ==> Presentable(last.op.code, Issued(before)))
      && (last.op.DoRefresh? ==> Presentable(last.op.token, Issued(before)))
  }

  /** Event `e` exchanged a code, and the token carries that code's grant and session. */
  ghost predicate Roots(e: Event, s: Service, c: TokenClaims) {
    && e.op.DoExchange? && e.response.PairIssued?
    && e.op.code.Sealed? && e.op.code.payload.CodePayload?
    && Carries(c, e.op.code.payload.code)
    && c.sessionExpiresAt == e.op.t.session + (if s.sessionLifetime == 0 then 7_776_000_000_000_000 else s.sessionLifetime)
    && c.expiresAt <= c.sessionExpiresAt
  }

  /** The token is for the user, the client and the scopes of the code, with its credential. */
  predicate Carries(c: TokenClaims, code: CodeClaims) {
    && c.subject == code.subject && c.clientId == code.clientId && c.scopes == code.scopes
    && c.issuer == code.issuer && c.audience == code.audience
    && c.credential == code.credential && c.source == code.source
  }

  ghost predicate Rooted(log: seq<Event>, s: Service, c: TokenClaims) {
    exists k :: 0 <= k < |log| && Roots(log[k], s, c)
  }

  ghost predicate Requested(log: seq<Event>, s: Service, c: CodeClaims) {
    exists k :: 0 <= k < |log| && Requests(log[k], s, c)
  }

  ghost predicate Requests(e: Event, s: Service, c: CodeClaims) {
    && e.op.DoIssue? && e.op.newId == Some(c.codeId) && e.response == CodeIssued(SealCode(c))
    && Complete(e.op.q) && c == CodeFor(s, e.op.q, c.codeId, e.op.t.first)
    && c.credential.ValidateForEnvelope() && c.subject != "" && c.codeId != "" && c.challenge != ""
  }

  /** A token descends from an exchange, and a code from a request. */
  ghost predicate Explained(log: seq<Event>, s: Service, e: Envelope) {
    && e.Sealed?
    && (e.payload.TokenPayload? ==> e == Seal(e.payload.token) && Rooted(log, s, e.payload.token))
    && (e.payload.CodePayload? ==> e == SealCode(e.payload.code) && Requested(log, s, e.payload.code))
  }

  lemma StillExplained(log: seq<Event>, s: Service, e: Envelope)
    requires log != [] && Explained(log[..|log| - 1], s, e)
    ensures Explained(log, s, e)
  {
    var before := log[..|log| - 1];
    if e.payload.TokenPayload? {
      var k :| 0 <= k < |before| && Roots(before[k], s, e.payload.token);
      assert log[k] == before[k];
    } else {
      var k :| 0 <= k < |before| && Requests(before[k], s, e.payload.code);
      assert log[k] == before[k];
    }
  }

  lemma ExchangeRoots(e: Event, m: Table, max: int, s: Service, env: Envelope)
    requires e.op.DoExchange? && e.response == Apply(s, m, max, e.op).1 && env in Envelopes(e.response)
    ensures env.Sealed? && env.payload.TokenPayload? && env == Seal(env.payload.token)
    ensures Roots(e, s, env.payload.token)
  {
  }

  lemma IssueRequests(e: Event, m: Table, max: int, s: Service, env: Envelope)
    requires e.op.DoIssue? && e.response == Apply(s, m, max, e.op).1 && env in Envelopes(e.response)
    ensures env.Sealed? && env.payload.CodePayload? && env == SealCode(env.payload.code)
    ensures Requests(e, s, env.payload.code)
  {
  }

  /** Refreshing hands the root on: same grant, same session end, still capped by it. */
  lemma RefreshKeepsRoot(e: Event, m: Table, max: int, s: Service, env: Envelope, root: Event)
    requires e.op.DoRefresh? && e.response == Apply(s, m, max, e.op).1 && env in Envelopes(e.response)
    requires e.op.token.Sealed? && e.op.token.payload.TokenPayload? ==> Roots(root, s, e.op.token.payload.token)
    ensures e.op.token.Sealed? && e.op.token.payload.TokenPayload?
    ensures env.Sealed? && env.payload.TokenPayload? && env == Seal(env.payload.token)
    ensures Roots(root, s, env.payload.token)
  {
  }

  /** Whatever is issued in a run, a token descends from an exchange whose grant and session end it
      carries unchanged, however many refreshes lie between, and a code from a request. */
  lemma {:induction false} EverythingIsExplained(log: seq<Event>, s: Service, max: int, e: Envelope)
    requires IsRun(log, s, max) && e in Issued(log)
    ensures Explained(log, s, e)
    decreases |log|, 1
  {
    if e in Issued(log[..|log| - 1]) {
      EverythingIsExplained(log[..|log| - 1], s, max, e);
      StillExplained(log, s, e);
    } else {
      NewIsExplained(log, s, max, e);
    }
  }

  lemma {:induction false} NewIsExplained(log: seq<Event>, s: Service, max: int, e: Envelope)
    requires log != [] && IsRun(log, s, max) && e in Envelopes(log[|log| - 1].response)
    ensures Explained(log, s, e)
    decreases |log|, 0
  {
    var before, last := log[..|log| - 1], log[|log| - 1];
    var m := After(before, s, max);
    match last.op
    case DoIssue(_, _, _, _) =>
      IssueRequests(last, m, max, s, e);
    case DoExchange(_, _, _, _, _) =>
      ExchangeRoots(last, m, max, s, e);
    case DoRefresh(token, _, _, _) =>
      EverythingIsExplained(before, s, max, token);
      var k :| 0 <= k < |before| && Roots(before[k], s, token.payload.token);
      RefreshKeepsRoot(last, m, max, s, e, before[k]);
      assert log[k] == before[k];
  }

  /** No token of a run is usable once a session's length has passed since its code was exchanged. */
  lemma SessionsEnd(log: seq<Event>, s: Service, max: int, c: TokenClaims, now: Time, kind: Kind, aad: AssociatedData)
    requires IsRun(log, s, max) && Seal(c) in Issued(log)
    ensures TokenValidForUse(c, now, kind, aad) ==>
              exists k :: 0 <= k < |log| && Roots(log[k], s, c) && now < log[k].op.t.session + SessionLifetime(s)
  {
    EverythingIsExplained(log, s, max, Seal(c));
    var k :| 0 <= k < |log| && Roots(log[k], s, c);
  }

  // Codes are spent at most once

  predicate IssuesId(e: Event, id: string) { e.op.DoIssue? && e.response.CodeIssued? && e.op.newId == Some(id) }

  predicate SpendsId(e: Event, id: string) {
    && e.op.DoExchange? && e.response.PairIssued?
    && e.op.code.Sealed? && e.op.code.payload.CodePayload? && e.op.code.payload.code.codeId == id
  }

  function Issues(log: seq<Event>, id: string): nat {
    if log == [] then 0 else Issues(log[..|log| - 1], id) + if IssuesId(log[|log| - 1], id) then 1 else 0
  }

  function Spendings(log: seq<Event>, id: string): nat {
    if log == [] then 0 else Spendings(log[..|log| - 1], id) + if SpendsId(log[|log| - 1], id) then 1 else 0
  }

  lemma StepOfCode(e: Event, m: Table, max: int, s: Service, id: string)
    requires e.response == Apply(s, m, max, e.op).1
    ensures var after := Apply(s, m, max, e.op).0;
            && (id in after ==> id in m || IssuesId(e, id))
            && (SpendsId(e, id) ==> id in m && id !in after)
  {
  }

  /** On any clock, a code identifier is exchanged for tokens at most as often as it was issued, so
      with fresh identifiers at most once. */
  lemma {:induction false} SpentAtMostAsIssued(log: seq<Event>, s: Service, max: int, id: string)
    requires IsRun(log, s, max)
    ensures Spendings(log, id) + (if id in After(log, s, max) then 1 else 0) <= Issues(log, id)
  {
    if log != [] {
      var before, last := log[..|log| - 1], log[|log| - 1];
      SpentAtMostAsIssued(before, s, max, id);
      StepOfCode(last, After(before, s, max), max, s, id);
    }
  }

  // When an exchange succeeds, told from the history

  /** Whoever issues this identifier issues this code. */
  ghost predicate OnlyIssue(log: seq<Event>, c: CodeClaims) {
    forall e <- log :: IssuesId(e, c.codeId) ==> e.response == CodeIssued(SealCode(c))
  }

  lemma {:induction false} IssuesCounts(log: seq<Event>, id: string, k: nat)
    requires k < |log| && IssuesId(log[k], id)
    ensures Issues(log, id) >= 1
    ensures Issues(log, id) <= 1 ==> forall e <- log :: IssuesId(e, id) ==> e == log[k]
  {
    var before := log[..|log| - 1];
    if k < |before| {
      IssuesCounts(before, id, k);
    } else {
      forall i | 0 <= i < |before| && IssuesId(before[i], id)
        ensures Issues(before, id) >= 1
      {
        IssuesCounts(before, id, i);
      }
    }
  }

  predicate IsCode(code: Envelope) { code.Sealed? && code.payload.CodePayload? }

  /** The operation gets as far as the store, which purges it. */
  predicate Purges(op: Op, s: Service) {
    match op
    case DoIssue(q, metadataOk, newId, _) => Complete(q) && q.credential.ValidateForEnvelope() && metadataOk && newId.Some?
    case DoExchange(code, aad, redirectUri, verifier, t) =>
      var found := OpenCode(code, aad.(kind := Code));
      found.Some? && CodeValidForUse(found.value, t.first, aad, redirectUri, verifier, s.s256)
    case DoRefresh(_, _, _, _) => false
  }

  /** The operation does not purge what expires at `expiresAt`. */
  predicate InTime(op: Op, s: Service, expiresAt: Time) { Purges(op, s) ==> op.t.purge < expiresAt }

  /** No operation since the code was issued has purged the store at a reading at or past its expiry. */
  ghost predicate ReadInTime(log: seq<Event>, s: Service, c: CodeClaims) {
    log == [] || IssuesId(log[|log| - 1], c.codeId)
    || (InTime(log[|log| - 1].op, s, c.expiresAt) && ReadInTime(log[..|log| - 1], s, c))
  }

  /** What one event does to one identifier of the store. */
  lemma HeldThroughStep(e: Event, m: Table, max: int, s: Service, id: string)
    requires e.response == Apply(s, m, max, e.op).1
    ensures id in Apply(s, m, max, e.op).0
            <==> IssuesId(e, id) || (id in m && InTime(e.op, s, m[id]) && !SpendsId(e, id))
  {
    match e.op
    case DoIssue(q, _, newId, t) =>
      if newId.Some? {
        StoreHolds(m, max, newId.value, CodeFor(s, q, newId.value, t.first).expiresAt, t, id);
      }
    case DoExchange(code, _, _, _, t) =>
      if IsCode(code) {
        ConsumeHolds(m, code.payload.code.codeId, t, id);
      }
    case DoRefresh(_, _, _, _) =>
  }

  lemma StoreHolds(m: Table, max: int, stored: string, expiresAt: Time, t: Readings, id: string)
    ensures var (after, r) := StoreCode(m, max, stored, expiresAt, t.purge, t.check);
            id in after <==> (r.Stored? && stored == id) || (id in m && t.purge < m[id])
  {
  }

  lemma ConsumeHolds(m: Table, consumed: string, t: Readings, id: string)
    ensures var (after, ok) := ConsumeCode(m, consumed, t.purge, t.check);
            id in after <==> id in m && t.purge < m[id] && !(ok && consumed == id)
  {
  }

  lemma ValueThroughStep(e: Event, m: Table, max: int, s: Service, c: CodeClaims)
    requires e.response == Apply(s, m, max, e.op).1
    requires IssuesId(e, c.codeId) ==> e.response == CodeIssued(SealCode(c))
    ensures var after := Apply(s, m, max, e.op).0;
            c.codeId in after ==> (c.codeId in m && after[c.codeId] == m[c.codeId]) || after[c.codeId] == c.expiresAt
  {
  }

  /** The store holds a code under its own expiry. */
  lemma {:induction false} HeldWithExpiry(log: seq<Event>, s: Service, max: int, c: CodeClaims)
    requires IsRun(log, s, max) && OnlyIssue(log, c)
    ensures var m := After(log, s, max); c.codeId in m ==> m[c.codeId] == c.expiresAt
  {
    if log != [] {
      var before, last := log[..|log| - 1], log[|log| - 1];
      HeldWithExpiry(before, s, max, c);
      assert last in log;
      ValueThroughStep(last, After(before, s, max), max, s, c);
    }
  }

  /** On any clock, the store holds a code exactly while it is issued, not spent and not purged. */
  lemma {:induction false} HeldExactly(log: seq<Event>, s: Service, max: int, c: CodeClaims)
    requires IsRun(log, s, max) && OnlyIssue(log, c) && Issues(log, c.codeId) == 1
    ensures c.codeId in After(log, s, max) <==> Spendings(log, c.codeId) == 0 && ReadInTime(log, s, c)
  {
    var before, last := log[..|log| - 1], log[|log| - 1];
    var m := After(before, s, max);
    assert last in log;
    HeldThroughStep(last, m, max, s, c.codeId);
    if IssuesId(last, c.codeId) {
      SpentAtMostAsIssued(before, s, max, c.codeId);
    } else {
      HeldExactly(before, s, max, c);
      HeldWithExpiry(before, s, max, c);
    }
  }

  /** On a clock that does not go back nothing is purged before its time. */
  lemma {:induction false} ForwardClockReadsInTime(log: seq<Event>, s: Service, c: CodeClaims, now: Time)
    requires now < c.expiresAt && forall e <- log :: e.op.t.purge <= now
    ensures ReadInTime(log, s, c)
  {
    if log != [] {
      assert log[|log| - 1] in log;
      ForwardClockReadsInTime(log[..|log| - 1], s, c, now);
    }
  }

  /** The code was issued here, fits the attempt, is unexpired at every reading of the exchange, no
      exchange has spent it, and no operation since has read the clock at or past its expiry. */
  ghost predicate Redeemable(log: seq<Event>, s: Service, code: Envelope, aad: AssociatedData,
                             redirectUri: string, verifier: string, t: Readings) {
    && code in Issued(log) && code.Sealed? && code.payload.CodePayload? && code.aad == aad.(kind := Code)
    && var c := code.payload.code;
    && c.redirectUri == redirectUri && verifier != "" && s.s256(verifier) == c.challenge
    && t.first < c.expiresAt && t.purge < c.expiresAt && t.check < c.expiresAt
    && Spendings(log, c.codeId) == 0 && ReadInTime(log, s, c)
  }

  lemma CodeIsHeld(log: seq<Event>, s: Service, max: int, code: Envelope)
    requires IsRun(log, s, max) && IsCode(code) && code in Issued(log)
    requires Issues(log, code.payload.code.codeId) <= 1
    ensures var c, m := code.payload.code, After(log, s, max);
            && code == SealCode(c) && c.credential.ValidateForEnvelope() && c.codeId != "" && c.challenge != ""
            && (c.codeId in m ==> m[c.codeId] == c.expiresAt)
            && (c.codeId in m <==> Spendings(log, c.codeId) == 0 && ReadInTime(log, s, c))
  {
    var c := code.payload.code;
    EverythingIsExplained(log, s, max, code);
    var k :| 0 <= k < |log| && Requests(log[k], s, c);
    IssuesCounts(log, c.codeId, k);
    HeldWithExpiry(log, s, max, c);
    HeldExactly(log, s, max, c);
  }

  /** After any run on any clock in which the code's identifier was issued once, an exchange succeeds
      exactly when the history says that the code is redeemable. */
  lemma ExchangeSucceedsExactlyWhenRedeemable(log: seq<Event>, s: Service, max: int, code: Envelope, aad: AssociatedData,
                                              redirectUri: string, verifier: string, t: Readings)
    requires IsRun(log, s, max) && Presentable(code, Issued(log))
    requires IsCode(code) ==> Issues(log, code.payload.code.codeId) <= 1
    ensures Exchange(s, After(log, s, max), code, aad, redirectUri, verifier, t).1.PairIssued?
            <==> Redeemable(log, s, code, aad, redirectUri, verifier, t)
  {
    if IsCode(code) && code in Issued(log) {
      CodeIsHeld(log, s, max, code);
    }
  }

  // What is issued, field by field

  /** An exchange that succeeds gives two tokens for the user, client and scopes of the code, each under its
      own kind, issued at the last reading, and expiring after its lifetime or with the session. */
  lemma ExchangeGivesPair(s: Service, m: Table, code: Envelope, aad: AssociatedData, redirectUri: string, verifier: string, t: Readings)
    requires IsCode(code) && Exchange(s, m, code, aad, redirectUri, verifier, t).1.PairIssued?
    ensures var r, session := Exchange(s, m, code, aad, redirectUri, verifier, t).1,
                              t.session + (if s.sessionLifetime == 0 then 7_776_000_000_000_000 else s.sessionLifetime);
            && IsToken(r.access, Access, t.issue, Earlier(session, t.issue + (if s.accessLifetime == 0 then 900_000_000_000 else s.accessLifetime)), session)
            && IsToken(r.refresh, Refresh, t.issue, Earlier(session, t.issue + (if s.refreshLifetime == 0 then 2_592_000_000_000_000 else s.refreshLifetime)), session)
            && Carries(r.access.payload.token, code.payload.code) && Carries(r.refresh.payload.token, code.payload.code)
  {
  }

  /** The envelope opens as a token of this kind for its own issuer, audience and client. */
  predicate IsToken(e: Envelope, kind: Kind, issuedAt: Time, expiresAt: Time, session: Time) {
    && e.Sealed? && e.payload.TokenPayload?
    && var c := e.payload.token;
    && e.aad == AssociatedData(c.issuer, c.audience, c.clientId, kind) && c.kind == kind
    && c.issuedAt == issuedAt && c.expiresAt == expiresAt && c.sessionExpiresAt == session
  }

  lemma EarlierOfTwo(a: Time, b: Time)
    ensures Earlier(a, b) <= a && Earlier(a, b) <= b && (Earlier(a, b) == a || Earlier(a, b) == b)
  {
  }

  /** A refresh that succeeds gives two tokens with everything of the old one but their times, and its session end. */
  lemma RefreshGivesPair(s: Service, token: Envelope, aad: AssociatedData, credentialOk: bool, t: Readings)
    requires token.Sealed? && token.payload.TokenPayload? && Renew(s, token, aad, credentialOk, t).PairIssued?
    ensures var r, was := Renew(s, token, aad, credentialOk, t), token.payload.token;
            && IsToken(r.access, Access, t.issue, Earlier(was.sessionExpiresAt, t.issue + (if s.accessLifetime == 0 then 900_000_000_000 else s.accessLifetime)), was.sessionExpiresAt)
            && IsToken(r.refresh, Refresh, t.issue, Earlier(was.sessionExpiresAt, t.issue + (if s.refreshLifetime == 0 then 2_592_000_000_000_000 else s.refreshLifetime)), was.sessionExpiresAt)
            && SameHolder(r.access.payload.token, was) && SameHolder(r.refresh.payload.token, was)
  {
  }

  predicate SameHolder(c: TokenClaims, was: TokenClaims) {
    && c.subject == was.subject && c.clientId == was.clientId && c.scopes == was.scopes
    && c.issuer == was.issuer && c.audience == was.audience && c.credential == was.credential && c.source == was.source
  }

  /** In any run a refresh succeeds exactly with a refresh token that was issued for this issuer, audience
      and client, inside its lifetime, off the zero instant, while its credential is still good upstream. */
  lemma RefreshSucceedsExactly(log: seq<Event>, s: Service, max: int, token: Envelope, aad: AssociatedData, credentialOk: bool, t: Readings)
    requires IsRun(log, s, max) && Presentable(token, Issued(log))
    ensures Renew(s, token, aad, credentialOk, t).PairIssued?
            <==> && token in Issued(log) && token.Sealed? && token.payload.TokenPayload? && credentialOk
                 && var c := token.payload.token;
                 && c.kind == Refresh && c.issuer == aad.issuer && c.audience == aad.audience && c.clientId == aad.clientId
                 && c.issuedAt != 0 && c.sessionExpiresAt != 0 && c.issuedAt <= t.first < c.expiresAt
  {
    if token.Sealed? && token.payload.TokenPayload? {
      EverythingIsExplained(log, s, max, token);
      RootIsGood(log, s, max, token);
    }
  }

  /** A token of a run has a subject and a usable credential, those of the code it descends from. */
  lemma RootIsGood(log: seq<Event>, s: Service, max: int, token: Envelope)
    requires IsRun(log, s, max) && token in Issued(log) && token.Sealed? && token.payload.TokenPayload?
    ensures token == Seal(token.payload.token) && token.payload.token.subject != ""
    ensures token.payload.token.credential.ValidateForEnvelope() && token.payload.token.expiresAt <= token.payload.token.sessionExpiresAt
  {
    EverythingIsExplained(log, s, max, token);
    var k :| 0 <= k < |log| && Roots(log[k], s, token.payload.token);
    ExchangedIsGood(log, s, max, k);
  }

  /** An exchange of a run that succeeded had a code that was issued. */
  lemma {:induction false} ExchangedIsGood(log: seq<Event>, s: Service, max: int, k: nat)
    requires IsRun(log, s, max) && k < |log| && log[k].op.DoExchange? && log[k].response.PairIssued? && IsCode(log[k].op.code)
    ensures log[k].op.code.payload.code.subject != "" && log[k].op.code.payload.code.credential.ValidateForEnvelope()
  {
    var before := log[..|log| - 1];
    if k < |before| {
      ExchangedIsGood(before, s, max, k);
    } else {
      EverythingIsExplained(before, s, max, log[k].op.code);
      var i :| 0 <= i < |before| && Requests(before[i], s, log[k].op.code.payload.code);
    }
  }

  /** A code is issued exactly for a request that names its issuer, audience, user and challenge, has a
      credential of one of the two schemes that are sealed, and could be stored; it carries the request. */
  lemma IssueGivesCode(s: Service, m: Table, max: int, q: AuthorizationRequest, metadataOk: bool, newId: Option<string>, t: Readings)
    ensures var r, expiresAt := Issue(s, m, max, q, metadataOk, newId, t).1,
                                t.first + (if s.codeLifetime == 0 then 300_000_000_000 else s.codeLifetime);
            && (r.CodeIssued? <==>
                  && q.issuer != "" && q.audience != "" && q.subject != "" && q.challenge != ""
                  && (q.credential.scheme.TokenScheme? || q.credential.scheme.BearerScheme?) && q.credential.token != ""
                  && metadataOk && newId.Some? && StoreCode(m, max, newId.value, expiresAt, t.purge, t.check).1.Stored?)
            && (r.CodeIssued? ==>
                  && IsCode(r.code) && newId.Some?
                  && r.code.aad == AssociatedData(q.issuer, q.audience, q.clientId, Code)
                  && var c := r.code.payload.code;
                  && c.codeId == newId.value && c.issuer == q.issuer && c.audience == q.audience
                  && c.subject == q.subject && c.clientId == q.clientId && c.redirectUri == q.redirectUri
                  && c.challenge == q.challenge && c.scopes == q.scopes && c.issuedAt == t.first && c.expiresAt == expiresAt
                  && c.credential == q.credential && c.source == q.source)
  {
  }

  // The zero instant

  /** A token that is issued at the zero instant is refused inside its lifetime. */
  lemma TokenOfZeroInstantIsRefused(s: Service, g: Grant)
    ensures var pair := IssuePair(s.(accessLifetime := 10), g, 0, 100);
            && pair.access.issuedAt <= 1 < pair.access.expiresAt
            && !TokenValidForUse(pair.access, 1, Access, AssociatedData(g.issuer, g.audience, g.clientId, Access))
  {
  }
}
