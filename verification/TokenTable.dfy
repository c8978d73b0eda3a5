/** Single-use confirmation tokens: what a bounded, expiring, superseding table of them means.

    The two stores of the program, one generic and one written out by hand for purchase orders,
    are both proved to compute `Issue` and `Consume` of this module. */
module TokenTable {
  import opened Common

  /** An instant, in nanoseconds. */
  type Time = int

  datatype Entry<K> = Entry(digest: string, principal: string, key: K, expiresAt: Time)

  type Table<K> = map<string, Entry<K>>

  datatype Limits = Limits(lifetime: int, maxEntries: int, maxPerPrincipal: int)

  /** Who asks for what: a plan's digest, the principal, and the key it supersedes. */
  datatype Claim<K> = Claim(digest: string, principal: string, key: K)

  predicate Live<K>(e: Entry<K>, now: Time) { now < e.expiresAt }

  predicate SameKey<K(==)>(e: Entry<K>, c: Claim<K>) { e.principal == c.principal && e.key == c.key }

  predicate Matches<K(==)>(e: Entry<K>, c: Claim<K>) { SameKey(e, c) && e.digest == c.digest }

  function LiveOnly<K>(m: Table<K>, now: Time): Table<K> {
    map t | t in m && Live(m[t], now) :: m[t]
  }

  function WithoutKey<K(==)>(m: Table<K>, c: Claim<K>): Table<K> {
    map t | t in m && !SameKey(m[t], c) :: m[t]
  }

  function HeldBy<K>(m: Table<K>, principal: string): set<string> {
    set t <- m | m[t].principal == principal
  }

  function Fresh<K>(c: Claim<K>, limits: Limits, now: Time): Entry<K> {
    Entry(c.digest, c.principal, c.key, now + limits.lifetime)
  }

  /** The table after issuing, and whether the token was granted. */
  function Issue<K(==)>(m: Table<K>, limits: Limits, now: Time, c: Claim<K>, token: string): (Table<K>, bool) {
    var kept := WithoutKey(LiveOnly(m, now), c);
    if |kept| >= limits.maxEntries || |HeldBy(kept, c.principal)| >= limits.maxPerPrincipal then (kept, false)
    else (kept[token := Fresh(c, limits, now)], true)
  }

  /** The table after an attempt to consume, and whether it succeeded. */
  function Consume<K(==)>(m: Table<K>, now: Time, c: Claim<K>, token: string): (Table<K>, bool) {
    var live := LiveOnly(m, now);
    if token in live && Matches(live[token], c) then (live - {token}, true) else (live, false)
  }

  // Invariant

  ghost predicate Bounded<K>(m: Table<K>, limits: Limits) {
    && |m| <= limits.maxEntries
    && (forall p: string :: |HeldBy(m, p)| <= limits.maxPerPrincipal)
  }

  ghost predicate OnePerKey<K>(m: Table<K>) {
    forall t <- m, u <- m :: m[t].principal == m[u].principal && m[t].key == m[u].key ==> t == u
  }

  ghost predicate Good<K>(m: Table<K>, limits: Limits) {
    Bounded(m, limits) && OnePerKey(m)
  }

  ghost predicate Positive(limits: Limits) {
    limits.lifetime > 0 && limits.maxEntries > 0 && limits.maxPerPrincipal > 0
  }

  lemma SmallerSet<T>(a: set<T>, b: set<T>)
    requires a <= b
    ensures |a| <= |b|
    ensures a != b ==> |a| < |b|
  {
    assert b == a + (b - a);
  }

  /** Fewer entries keep the bounds, and leaving out an entry frees a slot of its principal. */
  lemma FewerEntries<K>(a: Table<K>, b: Table<K>)
    requires a.Keys <= b.Keys && forall t <- a :: a[t] == b[t]
    ensures |a| <= |b| && forall p :: |HeldBy(a, p)| <= |HeldBy(b, p)|
    ensures forall t <- b :: t !in a ==> |a| < |b| && |HeldBy(a, b[t].principal)| < |HeldBy(b, b[t].principal)|
  {
    SmallerSet(a.Keys, b.Keys);
    forall p
      ensures |HeldBy(a, p)| <= |HeldBy(b, p)|
    {
      SmallerSet(HeldBy(a, p), HeldBy(b, p));
    }
    forall t <- b | t !in a
      ensures |a| < |b| && |HeldBy(a, b[t].principal)| < |HeldBy(b, b[t].principal)|
    {
      assert t in HeldBy(b, b[t].principal) && t !in HeldBy(a, b[t].principal);
      SmallerSet(HeldBy(a, b[t].principal), HeldBy(b, b[t].principal));
    }
  }

  /** Adding one entry for a key nobody holds, where there is room for it. */
  lemma GrantKeepsBounds<K>(m: Table<K>, limits: Limits, e: Entry<K>, token: string)
    requires Bounded(m, limits) && |m| < limits.maxEntries && |HeldBy(m, e.principal)| < limits.maxPerPrincipal
    ensures Bounded(m[token := e], limits)
  {
    var after := m[token := e];
    assert after.Keys == m.Keys + {token};
    forall p: string
      ensures |HeldBy(after, p)| <= limits.maxPerPrincipal
    {
      HeldAfterGrant(m, e, token, p);
    }
  }

  lemma HeldAfterGrant<K>(m: Table<K>, e: Entry<K>, token: string, p: string)
    ensures |HeldBy(m[token := e], p)| <= |HeldBy(m, p)| + if p == e.principal then 1 else 0
  {
    var held := if p == e.principal then HeldBy(m, p) + {token} else HeldBy(m, p);
    assert HeldBy(m[token := e], p) <= held;
    SmallerSet(HeldBy(m[token := e], p), held);
  }

  lemma IssueKeepsGood<K>(m: Table<K>, limits: Limits, now: Time, c: Claim<K>, token: string)
    requires Good(m, limits)
    ensures Good(Issue(m, limits, now, c, token).0, limits)
  {
    var kept := WithoutKey(LiveOnly(m, now), c);
    FewerEntries(kept, m);
    if Issue(m, limits, now, c, token).1 {
      GrantKeepsBounds(kept, limits, Fresh(c, limits, now), token);
    }
  }

  lemma ConsumeKeepsGood<K>(m: Table<K>, limits: Limits, now: Time, c: Claim<K>, token: string)
    requires Good(m, limits)
    ensures Good(Consume(m, now, c, token).0, limits)
  {
    FewerEntries(Consume(m, now, c, token).0, m);
  }

  /** Asking again for a key that holds a live token is never refused: the old token frees both
      the total and the per-principal slot that the new one takes. */
  lemma ReissueIsGranted<K>(m: Table<K>, limits: Limits, now: Time, c: Claim<K>, token: string, held: string)
    requires Good(m, limits)
    requires held in m && Live(m[held], now) && SameKey(m[held], c)
    ensures Issue(m, limits, now, c, token).1
  {
    FewerEntries(WithoutKey(LiveOnly(m, now), c), m);
  }

  /** A refused request only drops what had already expired. */
  lemma RefusalLosesNothing<K>(m: Table<K>, limits: Limits, now: Time, c: Claim<K>, token: string)
    requires Good(m, limits) && !Issue(m, limits, now, c, token).1
    ensures Issue(m, limits, now, c, token).0 == LiveOnly(m, now)
  {
    if held :| held in m && Live(m[held], now) && SameKey(m[held], c) {
      ReissueIsGranted(m, limits, now, c, token, held);
    }
  }

  // Whole runs

  datatype Op<K> =
    | DoIssue(now: Time, claim: Claim<K>, token: string)
    | DoConsume(now: Time, claim: Claim<K>, token: string)

  /** An operation and whether it was granted or succeeded. */
  datatype Event<K> = Event(op: Op<K>, ok: bool)

  function Apply<K(==)>(m: Table<K>, limits: Limits, op: Op<K>): (Table<K>, bool) {
    match op
    case DoIssue(now, c, token) => Issue(m, limits, now, c, token)
    case DoConsume(now, c, token) => Consume(m, now, c, token)
  }

  function After<K(==)>(log: seq<Event<K>>, limits: Limits): Table<K> {
    if log == [] then map[] else Apply(After(log[..|log| - 1], limits), limits, log[|log| - 1].op).0
  }

  /** `log` is what a store that starts empty answers to its operations, in the order in which they
      enter its lock.  Each reads the clock before that, so the readings may go back. */
  ghost predicate IsRun<K>(log: seq<Event<K>>, limits: Limits) {
    log != [] ==>
      && IsRun(log[..|log| - 1], limits)
      && log[|log| - 1].ok == Apply(After(log[..|log| - 1], limits), limits, log[|log| - 1].op).1
  }

  predicate Grants<K>(e: Event<K>, token: string) { e.ok && e.op.DoIssue? && e.op.token == token }

  predicate Consumes<K>(e: Event<K>, token: string) { e.ok && e.op.DoConsume? && e.op.token == token }

  /** The event ends the life of a token granted to `c`: consumed, or superseded by a new grant. */
  predicate Ends<K(==)>(e: Event<K>, c: Claim<K>, token: string) {
    || Consumes(e, token)
    || (e.ok && e.op.DoIssue? && e.op.claim.principal == c.principal && e.op.claim.key == c.key)
  }

  /** Every token handed out is a new one. */
  ghost predicate FreshTokens<K>(log: seq<Event<K>>) {
    forall i, j :: 0 <= i < j < |log| && Grants(log[i], log[i].op.token) && Grants(log[j], log[j].op.token) ==>
      log[i].op.token != log[j].op.token
  }

  /** Told from the history alone: step `j` granted `token`, giving the entry `e`; nothing since has
      superseded or consumed it, and no operation since has read the clock at or past its expiry. */
  ghost predicate Outstanding<K>(log: seq<Event<K>>, limits: Limits, j: nat, token: string, e: Entry<K>) {
    && j < |log| && Grants(log[j], token)
    && e == Fresh(log[j].op.claim, limits, log[j].op.now)
    && (forall k :: j < k < |log| ==> !Ends(log[k], log[j].op.claim, token) && Live(e, log[k].op.now))
  }

  lemma {:induction false} AfterIsGood<K>(log: seq<Event<K>>, limits: Limits)
    requires Positive(limits)
    ensures Good(After(log, limits), limits)
    ensures |After(log, limits)| <= limits.maxEntries
    ensures forall p: string :: |HeldBy(After(log, limits), p)| <= limits.maxPerPrincipal
  {
    if log == [] {
      forall p: string
        ensures |HeldBy(After(log, limits), p)| <= limits.maxPerPrincipal
      {
        assert HeldBy(After(log, limits), p) == {};
      }
    } else {
      var before, op := log[..|log| - 1], log[|log| - 1].op;
      AfterIsGood(before, limits);
      match op
      case DoIssue(now, c, token) => IssueKeepsGood(After(before, limits), limits, now, c, token);
      case DoConsume(now, c, token) => ConsumeKeepsGood(After(before, limits), limits, now, c, token);
    }
  }

  function ClaimOf<K>(e: Entry<K>): Claim<K> { Claim(e.digest, e.principal, e.key) }

  /** What one event does to one token: a grant writes it, and otherwise it stays exactly when it
      was live and the event does not end it. */
  lemma TokenThroughStep<K>(m: Table<K>, limits: Limits, e: Event<K>, t: string)
    requires Good(m, limits) && e.ok == Apply(m, limits, e.op).1
    ensures var after := Apply(m, limits, e.op).0;
            if Grants(e, t) then t in after && after[t] == Fresh(e.op.claim, limits, e.op.now)
            else
              && (t in after <==> t in m && Live(m[t], e.op.now) && !Ends(e, ClaimOf(m[t]), t))
              && (t in after ==> after[t] == m[t])
  {
    if e.op.DoIssue? && !e.ok {
      RefusalLosesNothing(m, limits, e.op.now, e.op.claim, e.op.token);
    }
  }

  /** The table and the history agree on a token: its entry is exactly its outstanding grant. */
  ghost predicate Agrees<K(!new)>(m: Table<K>, log: seq<Event<K>>, limits: Limits, t: string) {
    && (t in m ==> exists j: nat :: Outstanding(log, limits, j, t, m[t]))
    && (forall j: nat, e :: Outstanding(log, limits, j, t, e) ==> t in m && m[t] == e)
  }

  lemma OutstandingThroughStep<K>(log: seq<Event<K>>, limits: Limits, j: nat, t: string, e: Entry<K>)
    requires log != [] && j != |log| - 1
    ensures Outstanding(log, limits, j, t, e) <==>
              && Outstanding(log[..|log| - 1], limits, j, t, e)
              && !Ends(log[|log| - 1], ClaimOf(e), t) && Live(e, log[|log| - 1].op.now)
  {
    var before := log[..|log| - 1];
    assert j < |before| ==> log[j] == before[j];
    assert forall k :: j < k < |before| ==> before[k] == log[k];
  }

  lemma GrantedTokenAgrees<K(!new)>(log: seq<Event<K>>, limits: Limits, t: string)
    requires log != [] && FreshTokens(log) && Grants(log[|log| - 1], t)
    requires t in After(log, limits)
    requires After(log, limits)[t] == Fresh(log[|log| - 1].op.claim, limits, log[|log| - 1].op.now)
    ensures Agrees(After(log, limits), log, limits, t)
  {
    assert Outstanding(log, limits, |log| - 1, t, After(log, limits)[t]);
    forall j: nat, e | Outstanding(log, limits, j, t, e)
      ensures e == After(log, limits)[t]
    {
      assert Grants(log[j], log[j].op.token);
    }
  }

  lemma OtherTokenAgrees<K(!new)>(log: seq<Event<K>>, limits: Limits, t: string)
    requires log != [] && !Grants(log[|log| - 1], t)
    requires var (m, after, last) := (After(log[..|log| - 1], limits), After(log, limits), log[|log| - 1]);
             && Agrees(m, log[..|log| - 1], limits, t)
             && (t in after <==> t in m && Live(m[t], last.op.now) && !Ends(last, ClaimOf(m[t]), t))
             && (t in after ==> after[t] == m[t])
    ensures Agrees(After(log, limits), log, limits, t)
  {
    var before, after := log[..|log| - 1], After(log, limits);
    if t in after {
      var j: nat :| Outstanding(before, limits, j, t, after[t]);
      OutstandingThroughStep(log, limits, j, t, after[t]);
    }
    forall j: nat, e | Outstanding(log, limits, j, t, e)
      ensures t in after && after[t] == e
    {
      OutstandingThroughStep(log, limits, j, t, e);
    }
  }

  /** By induction over the run: token by token, the table is what the history says. */
  lemma {:induction false} EntriesAreOutstanding<K(!new)>(log: seq<Event<K>>, limits: Limits, t: string)
    requires Positive(limits) && IsRun(log, limits) && FreshTokens(log)
    ensures Agrees(After(log, limits), log, limits, t)
  {
    if log != [] {
      var before, last := log[..|log| - 1], log[|log| - 1];
      assert FreshTokens(before);
      EntriesAreOutstanding(before, limits, t);
      AfterIsGood(before, limits);
      TokenThroughStep(After(before, limits), limits, last, t);
      if Grants(last, t) {
        GrantedTokenAgrees(log, limits, t);
      } else {
        OtherTokenAgrees(log, limits, t);
      }
    }
  }

  lemma {:induction false} RunPrefix<K>(log: seq<Event<K>>, limits: Limits, n: nat)
    requires IsRun(log, limits) && n < |log|
    ensures IsRun(log[..n], limits) && log[n].ok == Apply(After(log[..n], limits), limits, log[n].op).1
    ensures FreshTokens(log) ==> FreshTokens(log[..n])
  {
    if n < |log| - 1 {
      var before := log[..|log| - 1];
      RunPrefix(before, limits, n);
      assert before[..n] == log[..n] && before[n] == log[n];
    }
  }

  /** Step `j` granted `token` to exactly this claim, less than a lifetime before `now`, and nothing
      since has superseded or consumed it. */
  ghost predicate Promised<K>(log: seq<Event<K>>, limits: Limits, now: Time, c: Claim<K>, token: string, j: nat)
    requires j < |log|
  {
    && Grants(log[j], token) && log[j].op.claim == c
    && now < log[j].op.now + limits.lifetime
    && forall k :: j < k < |log| ==> !Ends(log[k], c, token)
  }

  /** No operation after step `j` has read the clock a lifetime or more after it. */
  ghost predicate ReadInTime<K>(log: seq<Event<K>>, limits: Limits, j: nat)
    requires j < |log|
  {
    forall k :: j < k < |log| ==> log[k].op.now < log[j].op.now + limits.lifetime
  }

  ghost predicate Valid<K>(log: seq<Event<K>>, limits: Limits, now: Time, c: Claim<K>, token: string) {
    exists j: nat :: j < |log| && Promised(log, limits, now, c, token, j) && ReadInTime(log, limits, j)
  }

  /** After any run on any clock, consuming a token succeeds exactly when some step promised it and
      every operation since has read the clock in time. */
  lemma ConsumeSucceedsExactlyWhenValid<K(!new)>(log: seq<Event<K>>, limits: Limits, now: Time, c: Claim<K>, token: string)
    requires Positive(limits) && IsRun(log, limits) && FreshTokens(log)
    ensures Consume(After(log, limits), now, c, token).1 <==> Valid(log, limits, now, c, token)
  {
    var m := After(log, limits);
    EntriesAreOutstanding(log, limits, token);
    if Consume(m, now, c, token).1 {
      var j: nat :| Outstanding(log, limits, j, token, m[token]);
      assert Promised(log, limits, now, c, token, j) && ReadInTime(log, limits, j);
    }
    if j: nat :| j < |log| && Promised(log, limits, now, c, token, j) && ReadInTime(log, limits, j) {
      assert Outstanding(log, limits, j, token, Fresh(c, limits, log[j].op.now));
    }
  }

  // When a token is granted, told from the history

  /** The grant of step `j` still stands at `now`. */
  ghost predicate StandingAt<K>(log: seq<Event<K>>, limits: Limits, now: Time, j: nat) {
    && j < |log| && log[j].ok && log[j].op.DoIssue? && now < log[j].op.now + limits.lifetime
    && (forall k :: j < k < |log| ==> !Ends(log[k], log[j].op.claim, log[j].op.token))
    && ReadInTime(log, limits, j)
  }

  /** The standing grants that a request for `c` does not supersede, all of them or those of its principal. */
  ghost function Others<K>(log: seq<Event<K>>, limits: Limits, now: Time, c: Claim<K>, own: bool): set<nat> {
    set j: nat | j < |log| && StandingAt(log, limits, now, j) && OtherThan(log[j], c, own)
  }

  predicate OtherThan<K(==)>(e: Event<K>, c: Claim<K>, own: bool) {
    && !(e.op.claim.principal == c.principal && e.op.claim.key == c.key)
    && (own ==> e.op.claim.principal == c.principal)
  }

  function TokenOf<K>(log: seq<Event<K>>, j: nat): string
    requires j < |log|
  {
    log[j].op.token
  }

  /** An entry that is live stands for exactly one standing grant. */
  lemma StandingIsHeld<K(!new)>(log: seq<Event<K>>, limits: Limits, now: Time, t: string)
    requires Positive(limits) && IsRun(log, limits) && FreshTokens(log)
    ensures var m := After(log, limits);
            && (t in m && Live(m[t], now) ==>
                  exists j: nat :: StandingAt(log, limits, now, j) && TokenOf(log, j) == t && m[t] == Fresh(log[j].op.claim, limits, log[j].op.now))
            && (forall j: nat :: StandingAt(log, limits, now, j) && TokenOf(log, j) == t ==>
                  t in m && Live(m[t], now) && m[t] == Fresh(log[j].op.claim, limits, log[j].op.now))
  {
    var m := After(log, limits);
    EntriesAreOutstanding(log, limits, t);
    if t in m && Live(m[t], now) {
      var j: nat :| Outstanding(log, limits, j, t, m[t]);
      assert StandingAt(log, limits, now, j) && TokenOf(log, j) == t;
    }
    forall j: nat | StandingAt(log, limits, now, j) && TokenOf(log, j) == t
      ensures t in m && Live(m[t], now) && m[t] == Fresh(log[j].op.claim, limits, log[j].op.now)
    {
      assert Outstanding(log, limits, j, t, Fresh(log[j].op.claim, limits, log[j].op.now));
    }
  }

  /** Token `t` is live and not superseded by a request for `c`. */
  predicate Remains<K(==)>(m: Table<K>, now: Time, c: Claim<K>, own: bool, t: string) {
    t in m && Live(m[t], now) && !SameKey(m[t], c) && (own ==> m[t].principal == c.principal)
  }

  function Remaining<K(==)>(m: Table<K>, now: Time, c: Claim<K>, own: bool): set<string> {
    set t | t in m && Remains(m, now, c, own, t)
  }

  lemma RemainingAreKept<K>(m: Table<K>, now: Time, c: Claim<K>)
    ensures var kept := WithoutKey(LiveOnly(m, now), c);
            |Remaining(m, now, c, false)| == |kept| && |Remaining(m, now, c, true)| == |HeldBy(kept, c.principal)|
  {
    var kept := WithoutKey(LiveOnly(m, now), c);
    assert Remaining(m, now, c, false) == kept.Keys;
    assert Remaining(m, now, c, true) == HeldBy(kept, c.principal);
  }

  lemma GrantRemains<K(!new)>(log: seq<Event<K>>, limits: Limits, now: Time, c: Claim<K>, own: bool, j: nat)
    requires Positive(limits) && IsRun(log, limits) && FreshTokens(log) && j in Others(log, limits, now, c, own)
    ensures TokenOf(log, j) in Remaining(After(log, limits), now, c, own)
  {
    StandingIsHeld(log, limits, now, TokenOf(log, j));
  }

  lemma RemainingIsGranted<K(!new)>(log: seq<Event<K>>, limits: Limits, now: Time, c: Claim<K>, own: bool, t: string) returns (j: nat)
    requires Positive(limits) && IsRun(log, limits) && FreshTokens(log) && t in Remaining(After(log, limits), now, c, own)
    ensures j in Others(log, limits, now, c, own) && TokenOf(log, j) == t
  {
    StandingIsHeld(log, limits, now, t);
    var e := After(log, limits)[t];
    j :| StandingAt(log, limits, now, j) && TokenOf(log, j) == t && e == Fresh(log[j].op.claim, limits, log[j].op.now);
  }

  /** The tokens a request has to share the limits with are as many as the other standing grants. */
  lemma OthersAreCounted<K(!new)>(log: seq<Event<K>>, limits: Limits, now: Time, c: Claim<K>, own: bool)
    requires Positive(limits) && IsRun(log, limits) && FreshTokens(log)
    ensures |Others(log, limits, now, c, own)| == |Remaining(After(log, limits), now, c, own)|
  {
    var tokens, grants := Remaining(After(log, limits), now, c, own), Others(log, limits, now, c, own);
    var pairs := set j <- grants :: (j, TokenOf(log, j));
    forall j | j in grants
      ensures TokenOf(log, j) in tokens && (j, TokenOf(log, j)) in pairs
    {
      GrantRemains(log, limits, now, c, own, j);
    }
    forall t | t in tokens
      ensures exists j :: (j, t) in pairs
    {
      var j := RemainingIsGranted(log, limits, now, c, own, t);
      assert (j, TokenOf(log, j)) in pairs;
    }
    forall p, q | p in pairs && q in pairs
      ensures p.0 == q.0 <==> p.1 == q.1
    {
      GrantsApart(log, limits, now, p.0, q.0);
    }
    SameSize(grants, tokens, pairs);
  }

  lemma GrantsApart<K>(log: seq<Event<K>>, limits: Limits, now: Time, i: nat, j: nat)
    requires FreshTokens(log) && StandingAt(log, limits, now, i) && StandingAt(log, limits, now, j)
    ensures TokenOf(log, i) == TokenOf(log, j) <==> i == j
  {
    if TokenOf(log, i) == TokenOf(log, j) {
      OneGrant(log, TokenOf(log, i), i, j);
    }
  }

  /** After any run on any clock, a request is granted exactly when, of the grants that still stand and
      that it does not supersede, there are fewer than the limit in all and for its principal; the token
      then stands for it, and nothing else. */
  lemma IssueIsGrantedExactly<K(!new)>(log: seq<Event<K>>, limits: Limits, now: Time, c: Claim<K>, token: string)
    requires Positive(limits) && IsRun(log, limits) && FreshTokens(log)
    ensures var (after, granted) := Issue(After(log, limits), limits, now, c, token);
            && (granted <==> |Others(log, limits, now, c, false)| < limits.maxEntries
                             && |Others(log, limits, now, c, true)| < limits.maxPerPrincipal)
            && (granted ==> token in after
                            && after[token] == Entry(c.digest, c.principal, c.key, now + limits.lifetime))
  {
    OthersAreCounted(log, limits, now, c, false);
    OthersAreCounted(log, limits, now, c, true);
    RemainingAreKept(After(log, limits), now, c);
  }

  lemma OneGrant<K>(log: seq<Event<K>>, token: string, i: nat, j: nat)
    requires FreshTokens(log) && i < |log| && j < |log| && Grants(log[i], token) && Grants(log[j], token)
    ensures i == j
  {
    assert Grants(log[i], log[i].op.token) && Grants(log[j], log[j].op.token);
  }

  /** A promised token is honoured exactly when every operation since the grant has read the clock in
      time; in particular whenever no reading lies after the present one. */
  lemma PromiseIsKeptExactlyWhenReadInTime<K(!new)>(log: seq<Event<K>>, limits: Limits, now: Time, c: Claim<K>, token: string, j: nat)
    requires Positive(limits) && IsRun(log, limits) && FreshTokens(log)
    requires j < |log| && Promised(log, limits, now, c, token, j)
    ensures Consume(After(log, limits), now, c, token).1 <==> ReadInTime(log, limits, j)
    ensures (forall k :: j < k < |log| ==> log[k].op.now <= now) ==> Consume(After(log, limits), now, c, token).1
  {
    ConsumeSucceedsExactlyWhenValid(log, limits, now, c, token);
    if i: nat :| i < |log| && Promised(log, limits, now, c, token, i) && ReadInTime(log, limits, i) {
      OneGrant(log, token, i, j);
    }
  }

  /** A token granted at 0 for ten units is lost at 9, because a request that read the clock at 12
      entered the lock before. */
  lemma LateReadingLosesAPromise()
    ensures var limits, c, other := Limits(10, 4, 4), Claim("digest", "user", 1), Claim("digest", "user", 2);
            var log := [Event(DoIssue(0, c, "t"), true), Event(DoConsume(12, other, "u"), false)];
            && IsRun(log, limits) && FreshTokens(log) && Promised(log, limits, 9, c, "t", 0)
            && !Consume(After(log, limits), 9, c, "t").1
  {
    var limits, c, other := Limits(10, 4, 4), Claim("digest", "user", 1), Claim("digest", "user", 2);
    var granted, late := Event(DoIssue(0, c, "t"), true), Event(DoConsume(12, other, "u"), false);
    var log := [granted, late];
    assert log[..1] == [granted] && [granted][..0] == [];
    var empty: Table<int> := map[];
    assert WithoutKey(LiveOnly(empty, 0), c) == empty && HeldBy(empty, "user") == {};
    assert After([granted], limits) == map["t" := Fresh(c, limits, 0)];
    assert After(log, limits) == map[];
  }

  /** Over any run on any clock with fresh tokens, a token is consumed at most once. */
  lemma ConsumedAtMostOnce<K(!new)>(log: seq<Event<K>>, limits: Limits, i: nat, j: nat, token: string)
    requires Positive(limits) && IsRun(log, limits) && FreshTokens(log)
    requires i < j < |log| && Consumes(log[i], token)
    ensures !Consumes(log[j], token)
  {
    if Consumes(log[j], token) {
      var g := GrantOf(log, limits, i, token);
      var h := GrantOf(log, limits, j, token);
      OneGrant(log, token, g, h);
      assert Ends(log[..j][i], log[j].op.claim, token);
    }
  }

  /** A consumed token was granted before, and was promised until then. */
  lemma GrantOf<K(!new)>(log: seq<Event<K>>, limits: Limits, j: nat, token: string) returns (g: nat)
    requires Positive(limits) && IsRun(log, limits) && FreshTokens(log) && j < |log| && Consumes(log[j], token)
    ensures g < j && Grants(log[g], token)
    ensures Promised(log[..j], limits, log[j].op.now, log[j].op.claim, token, g)
  {
    RunPrefix(log, limits, j);
    ConsumeSucceedsExactlyWhenValid(log[..j], limits, log[j].op.now, log[j].op.claim, token);
    g :| g < j && Promised(log[..j], limits, log[j].op.now, log[j].op.claim, token, g) && ReadInTime(log[..j], limits, g);
  }
}
