/** Whole runs of the setup dialogue, with requests that overlap.

    The program locks its stores only for single operations.  So a submission is two steps, spending
    its identifier and, after the calls upstream, its answer; any number of other steps may come
    between them. */
module SetupRuns {
  import opened Common
  import opened OAuthTypes
  import opened OAuthService
  import opened Expiries
  import opened CodeStores
  import opened SetupChain

  /** One step.  An arriving submission names the step whose answer showed the page it posts, any number
      of times; no such answer stands for an envelope that does not open.  An answer names the step at
      which its submission arrived. */
  datatype Action =
    | Begin(request: SetupState, admissible: bool, newId: string, sealOk: bool, t: Readings)
    | Arrive(shownAt: Option<nat>, csrfOk: bool, cancel: bool, credential: Credential, useSupplied: bool, allowed: bool, t: Readings)
    | Answer(arrival: nat, broker: Broker, newId: string, sealOk: bool, codeId: Option<string>, metadataOk: bool, u: Readings)

  /** A step, the submission it is about, whether that was accepted at this step, and the answer if one was given. */
  datatype Event = Taken(action: Action, submission: Option<Submission>, accepted: bool, response: Option<SetupChain.Response>)

  type Waiting = map<nat, Submission>

  predicate HasPage(e: Event) { e.submission.Some? && e.submission.value.page.Some? }

  function PageOf(e: Event): SetupState
    requires HasPage(e)
  {
    e.submission.value.page.value
  }

  /** The submission's identifier was accepted and spent at this step. */
  predicate Passed(e: Event) { e.action.Arrive? && e.accepted && HasPage(e) }

  predicate Answers(e: Event, arrival: nat) { e.action.Answer? && e.action.arrival == arrival && e.response.Some? }

  predicate Completes(e: Event) {
    e.action.Answer? && HasPage(e) && e.response.Some? && e.response.value.Completed?
  }

  predicate UsesSupplied(e: Event) {
    && e.response.Some? && e.response.value.Completed?
    && IsCode(e.response.value.code) && e.response.value.code.payload.code.source == Supplied
  }

  /** The answer asked for a dedicated token, which is named after the submission's identifier. */
  predicate AsksForToken(e: Event) {
    e.action.Answer? && HasPage(e) && e.response.Some? && Asks(PageOf(e), e.submission.value, e.action.broker)
  }

  predicate FailsDedicated(e: Event, chain: nat) {
    AsksForToken(e) && e.action.broker.dedicated.None? && PageOf(e).chain == chain
  }

  predicate ShowsPage(e: Event) { e.response.Some? && e.response.value.Shown? }

  // What holds of every run

  /** No setup identifier is accepted twice. */
  ghost predicate IdsAreSpentOnce(log: seq<Event>) {
    forall i, j :: 0 <= i < j < |log| && Passed(log[i]) && Passed(log[j]) ==> PageOf(log[i]).setupId != PageOf(log[j]).setupId
  }

  /** No two dedicated tokens have the same name. */
  ghost predicate NamesAreUsedOnce(log: seq<Event>) {
    forall i, j :: 0 <= i < j < |log| && AsksForToken(log[i]) && AsksForToken(log[j]) ==>
      PageOf(log[i]).setupId != PageOf(log[j]).setupId
  }

  /** No begun authorization gets two codes. */
  ghost predicate OneCodeEach(log: seq<Event>) {
    forall i, j :: 0 <= i < j < |log| && Completes(log[i]) && Completes(log[j]) ==> PageOf(log[i]).chain != PageOf(log[j]).chain
  }

  /** The supplied token is sealed only after an earlier answer of the same authorization could not get a dedicated one. */
  ghost predicate FallbackIsEarned(log: seq<Event>) {
    forall i :: 0 <= i < |log| && UsesSupplied(log[i]) ==> HasPage(log[i]) && FailedBefore(log, i, PageOf(log[i]).chain)
  }

  ghost predicate FailedBefore(log: seq<Event>, i: nat, chain: nat)
    requires i <= |log|
  {
    exists j :: 0 <= j < i && FailsDedicated(log[j], chain)
  }

  /** All pages shown for one authorization have one expiry. */
  ghost predicate ExpiryIsFixed(log: seq<Event>) {
    forall e <- log, f <- log :: ShowsPage(e) && ShowsPage(f) && e.response.value.page.chain == f.response.value.page.chain ==>
      e.response.value.page.expiresAt == f.response.value.page.expiresAt
  }

  ghost predicate Proper(log: seq<Event>) {
    IdsAreSpentOnce(log) && NamesAreUsedOnce(log) && OneCodeEach(log) && FallbackIsEarned(log)
  }

  // Submissions that are waiting for their answer

  /** The submission's identifier is spent, and nothing has come of its authorization since. */
  ghost predicate Pending(s: Submission, m: Table, b: Book) {
    && s.page.Some? && s.page.value in b.sealed && Quiet(m, b, s.page.value.chain)
    && s.page.value.setupId in b.chainOf && s.page.value.setupId !in m && s.page.value.setupId !in b.names
  }

  /** All waiting submissions are pending, each for an authorization of its own. */
  ghost predicate AllPending(waiting: Waiting, m: Table, b: Book) {
    && (forall i <- waiting :: Pending(waiting[i], m, b))
    && (forall i <- waiting, j <- waiting :: i != j ==> waiting[i].page.value.chain != waiting[j].page.value.chain)
  }

  /** What a step may do to the server's state: it touches one authorization, and new identifiers are fresh. */
  ghost predicate Touches(m: Table, b: Book, chain: nat, newIds: set<string>, after: Table, bookAfter: Book) {
    && PagesOk(b)
    && OthersQuiet(m, b, chain, after, bookAfter)
    && newIds !! b.chainOf.Keys && after.Keys <= m.Keys + newIds
    && b.sealed <= bookAfter.sealed && b.chainOf.Keys <= bookAfter.chainOf.Keys && b.names <= bookAfter.names
    && (forall n <- bookAfter.names :: n in b.names || (n in b.chainOf && b.chainOf[n] == chain))
  }

  lemma StaysPending(s: Submission, m: Table, b: Book, chain: nat, newIds: set<string>, after: Table, bookAfter: Book)
    requires Pending(s, m, b) && s.page.value.chain != chain && Touches(m, b, chain, newIds, after, bookAfter)
    ensures Pending(s, after, bookAfter)
  {
  }

  /** Submissions for other authorizations keep waiting undisturbed. */
  lemma OthersStayPending(waiting: Waiting, rest: Waiting, m: Table, b: Book, chain: nat, newIds: set<string>, after: Table, bookAfter: Book)
    requires AllPending(waiting, m, b) && Touches(m, b, chain, newIds, after, bookAfter)
    requires rest.Keys <= waiting.Keys && forall i <- rest :: rest[i] == waiting[i] && rest[i].page.value.chain != chain
    ensures AllPending(rest, after, bookAfter)
  {
    forall i | i in rest
      ensures Pending(rest[i], after, bookAfter)
    {
      StaysPending(rest[i], m, b, chain, newIds, after, bookAfter);
    }
  }

  // The answers so far

  ghost predicate Recorded(log: seq<Event>, m: Table, b: Book) {
    && (forall e <- log :: ShowsPage(e) ==> e.response.value.page in b.sealed)
    && (forall e <- log :: Passed(e) ==> PageOf(e).setupId in b.chainOf && PageOf(e).setupId !in m)
    && (forall e <- log :: AsksForToken(e) ==> PageOf(e).setupId in b.names)
    && (forall e <- log :: Completes(e) ==> PageOf(e).chain in b.codes)
    && (forall chain <- b.failed :: FailedBefore(log, |log|, chain))
  }

  /** What one step does. */
  ghost predicate Happens(m: Table, b: Book, e: Event, after: Table, bookAfter: Book) {
    && after.Keys <= m.Keys + NewIds(e.action) && NewIds(e.action) !! b.chainOf.Keys
    && b.sealed <= bookAfter.sealed && b.chainOf.Keys <= bookAfter.chainOf.Keys
    && b.names <= bookAfter.names && b.codes.Keys <= bookAfter.codes.Keys
    && (ShowsPage(e) ==> e.response.value.page in bookAfter.sealed)
    && (Passed(e) ==> PageOf(e).setupId in m && PageOf(e).setupId in b.chainOf && PageOf(e).setupId !in after)
    && (AsksForToken(e) ==> PageOf(e).setupId !in b.names && PageOf(e).setupId in bookAfter.names)
    && (Completes(e) ==> PageOf(e).chain !in b.codes && PageOf(e).chain in bookAfter.codes)
    && (UsesSupplied(e) ==> HasPage(e) && PageOf(e).chain in b.failed)
    && (forall chain <- bookAfter.failed :: chain in b.failed || FailsDedicated(e, chain))
  }

  function NewIds(a: Action): set<string> {
    match a
    case Begin(_, _, newId, _, _) => {newId}
    case Arrive(_, _, _, _, _, _, _) => {}
    case Answer(_, _, newId, _, _, _, _) => {newId}
  }

  lemma StillFailed(log: seq<Event>, e: Event, i: nat, chain: nat)
    requires i <= |log| && FailedBefore(log, i, chain)
    ensures FailedBefore(log + [e], i, chain) && FailedBefore(log + [e], |log| + 1, chain)
  {
    var j :| 0 <= j < i && FailsDedicated(log[j], chain);
    assert (log + [e])[j] == log[j];
  }

  lemma RecordStep(log: seq<Event>, m: Table, b: Book, e: Event, after: Table, bookAfter: Book)
    requires Recorded(log, m, b) && Happens(m, b, e, after, bookAfter)
    ensures Recorded(log + [e], after, bookAfter)
  {
    forall chain | chain in bookAfter.failed
      ensures FailedBefore(log + [e], |log| + 1, chain)
    {
      if chain in b.failed {
        StillFailed(log, e, |log|, chain);
      } else {
        assert (log + [e])[|log|] == e;
      }
    }
  }

  /** One more step keeps what holds of runs. */
  lemma ProperStep(log: seq<Event>, m: Table, b: Book, e: Event, after: Table, bookAfter: Book)
    requires Proper(log) && Recorded(log, m, b) && Happens(m, b, e, after, bookAfter)
    ensures Proper(log + [e])
  {
    NewIsDifferent(log, m, b, e, after, bookAfter);
    DifferentStays(log, e);
    EarnedStays(log, m, b, e, after, bookAfter);
  }

  lemma DifferentStays(log: seq<Event>, e: Event)
    requires IdsAreSpentOnce(log) && NamesAreUsedOnce(log) && OneCodeEach(log) && Different(log, e)
    ensures IdsAreSpentOnce(log + [e]) && NamesAreUsedOnce(log + [e]) && OneCodeEach(log + [e])
  {
    assert forall i :: 0 <= i < |log| ==> (log + [e])[i] == log[i] && log[i] in log;
  }

  lemma EarnedStays(log: seq<Event>, m: Table, b: Book, e: Event, after: Table, bookAfter: Book)
    requires FallbackIsEarned(log) && Recorded(log, m, b) && Happens(m, b, e, after, bookAfter)
    ensures FallbackIsEarned(log + [e])
  {
    forall i | 0 <= i < |log + [e]| && UsesSupplied((log + [e])[i])
      ensures HasPage((log + [e])[i]) && FailedBefore(log + [e], i, PageOf((log + [e])[i]).chain)
    {
      var f := (log + [e])[i];
      assert i < |log| ==> f == log[i];
      assert HasPage(f) && FailedBefore(log, i, PageOf(f).chain);
      StillFailed(log, e, i, PageOf(f).chain);
    }
  }

  /** The step differs from every earlier one of its kind. */
  ghost predicate Different(log: seq<Event>, e: Event) {
    && (forall f <- log :: Passed(f) && Passed(e) ==> PageOf(f).setupId != PageOf(e).setupId)
    && (forall f <- log :: AsksForToken(f) && AsksForToken(e) ==> PageOf(f).setupId != PageOf(e).setupId)
    && (forall f <- log :: Completes(f) && Completes(e) ==> PageOf(f).chain != PageOf(e).chain)
  }

  lemma NewIsDifferent(log: seq<Event>, m: Table, b: Book, e: Event, after: Table, bookAfter: Book)
    requires Recorded(log, m, b) && Happens(m, b, e, after, bookAfter)
    ensures Different(log, e)
  {
  }

  lemma PagesShareExpiry(log: seq<Event>, m: Table, b: Book)
    requires Recorded(log, m, b) && ChainsOk(m, b)
    ensures ExpiryIsFixed(log)
  {
  }

  // Which submissions wait

  ghost predicate Open(log: seq<Event>, arrival: nat) {
    arrival < |log| && Passed(log[arrival]) && forall i :: 0 <= i < |log| ==> !Answers(log[i], arrival)
  }

  /** Exactly the accepted submissions without an answer are waiting. */
  ghost predicate Awaits(log: seq<Event>, waiting: Waiting) {
    && (forall k: nat :: k in waiting <==> Open(log, k))
    && (forall k <- waiting :: k < |log| && log[k].submission == Some(waiting[k]))
    && (forall i, k: nat :: 0 <= i < |log| && Answers(log[i], k) ==> k < i)
  }

  function PageAt(log: seq<Event>, shownAt: Option<nat>): Option<SetupState> {
    if shownAt.Some? && shownAt.value < |log| && ShowsPage(log[shownAt.value])
    then Some(log[shownAt.value].response.value.page) else None
  }

  function SubmissionOf(a: Action, page: Option<SetupState>): Submission
    requires a.Arrive?
  {
    Submission(page, a.csrfOk, a.cancel, a.credential, a.useSupplied)
  }

  /** What the next event looks like, and who waits after it. */
  ghost predicate Next(a: Action, page: Option<SetupState>, n: nat, waiting: Waiting, e: Event, after: Waiting) {
    && e.action == a
    && match a
       case Begin(_, _, _, _, _) => e.submission.None? && !e.accepted && e.response.Some? && after == waiting
       case Arrive(_, _, _, _, _, _, _) =>
         && e.submission == Some(SubmissionOf(a, page))
         && if e.accepted then page.Some? && e.response.None? && after == waiting[n := SubmissionOf(a, page)]
            else e.response == Some(Refused) && after == waiting
       case Answer(arrival, _, _, _, _, _, _) =>
         && !e.accepted
         && if arrival in waiting then
              e.submission == Some(waiting[arrival]) && e.response.Some? && after == waiting - {arrival}
            else e.submission.None? && e.response.None? && after == waiting
  }

  lemma AwaitStep(log: seq<Event>, a: Action, page: Option<SetupState>, waiting: Waiting, e: Event, after: Waiting)
    requires Awaits(log, waiting) && Next(a, page, |log|, waiting, e, after)
    ensures Awaits(log + [e], after)
  {
    var longer := log + [e];
    assert forall i :: 0 <= i < |log| ==> longer[i] == log[i];
    assert longer[|log|] == e;
    forall k: nat
      ensures Open(longer, k) <==> (Open(log, k) && !Answers(e, k)) || (k == |log| && Passed(e))
    {
      OpenStep(log, e, k);
    }
    assert forall i, k: nat :: 0 <= i < |longer| && Answers(longer[i], k) ==> k < i;
  }

  lemma OpenStep(log: seq<Event>, e: Event, k: nat)
    requires forall i :: 0 <= i < |log| && Answers(log[i], k) ==> k < i
    ensures Open(log + [e], k) <==> (Open(log, k) && !Answers(e, k)) || (k == |log| && Passed(e))
  {
    var longer := log + [e];
    assert forall i :: 0 <= i < |log| ==> longer[i] == log[i];
    assert longer[|log|] == e;
  }

  // The server

  /** New setup identifiers never repeat. */
  ghost predicate FreshIds(actions: seq<Action>) {
    forall i, j :: 0 <= i < j < |actions| ==> NewIds(actions[i]) !! NewIds(actions[j])
  }

  /** The events are what the actions lead to, in order: each submission posts the page it names, and exactly the
      accepted submissions that have none yet get an answer. */
  ghost predicate Follows(log: seq<Event>, actions: seq<Action>) {
    && |log| <= |actions|
    && forall i :: 0 <= i < |log| ==> FollowsAt(log[..i], actions[i], log[i])
  }

  ghost predicate FollowsAt(before: seq<Event>, a: Action, e: Event) {
    && e.action == a
    && match a
       case Begin(_, _, _, _, _) => e.submission.None? && e.response.Some?
       case Arrive(shownAt, _, _, _, _, _, _) =>
         && e.submission == Some(SubmissionOf(a, PageAt(before, shownAt)))
         && e.response == if e.accepted then None else Some(Refused)
       case Answer(arrival, _, _, _, _, _, _) =>
         && (e.response.Some? <==> Open(before, arrival))
         && (e.response.Some? ==> e.submission == before[arrival].submission)
  }

  lemma FollowsStep(log: seq<Event>, actions: seq<Action>, e: Event)
    requires Follows(log, actions) && |log| < |actions| && FollowsAt(log, actions[|log|], e)
    ensures Follows(log + [e], actions)
  {
    assert forall j :: 0 <= j <= |log| ==> (log + [e])[..j] == log[..j];
    assert log[..|log|] == log;
  }

  function PageFor(log: seq<Event>, a: Action): Option<SetupState> {
    if a.Arrive? then PageAt(log, a.shownAt) else None
  }

  lemma NextFollows(log: seq<Event>, a: Action, waiting: Waiting, e: Event, after: Waiting)
    requires Awaits(log, waiting) && Next(a, PageFor(log, a), |log|, waiting, e, after)
    ensures FollowsAt(log, a, e)
  {
  }

  /** Plays any list of steps, which may interleave any number of submissions, from an empty server.  No setup
      identifier is accepted twice and no dedicated token has the name of another; no begun authorization gets two codes;
      the supplied token is sealed only after an earlier answer of the same authorization could not get a
      dedicated one; and all pages of an authorization share one expiry. */
  method Serve(service: Service, issuer: string, resource: string, maxCodes: int, actions: seq<Action>)
    returns (log: seq<Event>)
    requires FreshIds(actions)
    ensures |log| == |actions| && Follows(log, actions)
    ensures IdsAreSpentOnce(log) && NamesAreUsedOnce(log) && OneCodeEach(log) && FallbackIsEarned(log) && ExpiryIsFixed(log)
  {
    var codes := new CodeStore(maxCodes);
    var server := new AuthorizationServer(service, issuer, resource, codes);
    var waiting: Waiting := map[];
    log := [];
    for i := 0 to |actions|
      invariant server.Valid() && fresh(server) && fresh(server.setup) && server.codes == codes && fresh(codes)
      invariant |log| == i && Follows(log, actions)
      invariant AllPending(waiting, server.setup.entries, server.book)
      invariant History(log, waiting, server.setup.entries, server.book)
      invariant forall j :: i <= j < |actions| ==> NewIds(actions[j]) !! server.book.chainOf.Keys
    {
      ghost var m, b, before := server.setup.entries, server.book, waiting;
      var e;
      e, waiting := Step(server, waiting, actions[i], PageFor(log, actions[i]), |log|);
      HistoryStep(log, actions[i], before, m, b, e, waiting, server.setup.entries, server.book);
      FollowsStep(log, actions, e);
      log := log + [e];
    }
    PagesShareExpiry(log, server.setup.entries, server.book);
  }

  ghost predicate History(log: seq<Event>, waiting: Waiting, m: Table, b: Book) {
    Proper(log) && Recorded(log, m, b) && Awaits(log, waiting)
  }

  lemma HistoryStep(log: seq<Event>, a: Action, waiting: Waiting, m: Table, b: Book, e: Event,
                    waitingAfter: Waiting, after: Table, bookAfter: Book)
    requires History(log, waiting, m, b) && Happens(m, b, e, after, bookAfter)
    requires Next(a, PageFor(log, a), |log|, waiting, e, waitingAfter)
    ensures History(log + [e], waitingAfter, after, bookAfter) && FollowsAt(log, a, e)
  {
    RecordStep(log, m, b, e, after, bookAfter);
    ProperStep(log, m, b, e, after, bookAfter);
    AwaitStep(log, a, PageFor(log, a), waiting, e, waitingAfter);
    NextFollows(log, a, waiting, e, waitingAfter);
  }

  /** One step of the server, which is step `n` of the run. */
  method Step(server: AuthorizationServer, waiting: Waiting, a: Action, page: Option<SetupState>, n: nat)
    returns (e: Event, after: Waiting)
    requires server.Valid() && AllPending(waiting, server.setup.entries, server.book)
    requires NewIds(a) !! server.book.chainOf.Keys && (page.Some? ==> page.value in server.book.sealed)
    modifies server`book, server.setup`entries, server.codes`entries
    ensures server.Valid() && AllPending(after, server.setup.entries, server.book)
    ensures Happens(old(server.setup.entries), old(server.book), e, server.setup.entries, server.book)
    ensures server.book.chainOf.Keys <= old(server.book).chainOf.Keys + NewIds(a)
    ensures Next(a, page, n, waiting, e, after)
  {
    match a {
      case Begin(_, _, _, _, _) =>
        e := BeginStep(server, waiting, a);
        after := waiting;
      case Arrive(_, _, _, _, _, _, _) => e, after := ArriveStep(server, waiting, a, page, n);
      case Answer(_, _, _, _, _, _, _) => e, after := AnswerStep(server, waiting, a);
    }
  }

  method BeginStep(server: AuthorizationServer, waiting: Waiting, a: Action) returns (e: Event)
    requires server.Valid() && AllPending(waiting, server.setup.entries, server.book)
    requires a.Begin? && NewIds(a) !! server.book.chainOf.Keys
    modifies server`book, server.setup`entries
    ensures server.Valid() && AllPending(waiting, server.setup.entries, server.book)
    ensures Happens(old(server.setup.entries), old(server.book), e, server.setup.entries, server.book)
    ensures server.book.chainOf.Keys <= old(server.book).chainOf.Keys + NewIds(a)
    ensures e.action == a && e.submission.None? && !e.accepted && e.response.Some?
  {
    ghost var m, b := server.setup.entries, server.book;
    var r := server.BeginAuthorization(a.request, a.admissible, a.newId, a.sealOk, a.t);
    OthersStayPending(waiting, waiting, m, b, b.begun, {a.newId}, server.setup.entries, server.book);
    e := Taken(a, None, false, Some(r));
  }

  method ArriveStep(server: AuthorizationServer, waiting: Waiting, a: Action, page: Option<SetupState>, n: nat)
    returns (e: Event, after: Waiting)
    requires server.Valid() && AllPending(waiting, server.setup.entries, server.book)
    requires a.Arrive? && (page.Some? ==> page.value in server.book.sealed)
    modifies server.setup`entries
    ensures server.Valid() && AllPending(after, server.setup.entries, server.book)
    ensures Happens(old(server.setup.entries), old(server.book), e, server.setup.entries, server.book)
    ensures Next(a, page, n, waiting, e, after)
  {
    ghost var m, b := server.setup.entries, server.book;
    var s := SubmissionOf(a, page);
    var accepted := server.AcceptSubmission(s, a.allowed, a.t);
    if accepted {
      OthersStayPending(waiting, waiting, m, b, page.value.chain, {}, server.setup.entries, b);
      e, after := Taken(a, Some(s), true, None), waiting[n := s];
    } else {
      AllStayPending(waiting, m, b, server.setup.entries);
      e, after := Taken(a, Some(s), false, Some(Refused)), waiting;
    }
  }

  lemma AllStayPending(waiting: Waiting, m: Table, b: Book, after: Table)
    requires AllPending(waiting, m, b) && after.Keys <= m.Keys && forall c: nat :: Quiet(m, b, c) ==> Quiet(after, b, c)
    ensures AllPending(waiting, after, b)
  {
  }

  method AnswerStep(server: AuthorizationServer, waiting: Waiting, a: Action) returns (e: Event, after: Waiting)
    requires server.Valid() && AllPending(waiting, server.setup.entries, server.book)
    requires a.Answer? && NewIds(a) !! server.book.chainOf.Keys
    modifies server`book, server.setup`entries, server.codes`entries
    ensures server.Valid() && AllPending(after, server.setup.entries, server.book)
    ensures Happens(old(server.setup.entries), old(server.book), e, server.setup.entries, server.book)
    ensures server.book.chainOf.Keys <= old(server.book).chainOf.Keys + NewIds(a)
    ensures e.action == a && !e.accepted
    ensures if a.arrival in waiting then
              e.submission == Some(waiting[a.arrival]) && e.response.Some? && after == waiting - {a.arrival}
            else e.submission.None? && e.response.None? && after == waiting
  {
    if a.arrival !in waiting {
      return Taken(a, None, false, None), waiting;
    }
    ghost var m, b := server.setup.entries, server.book;
    var s := waiting[a.arrival];
    var page := s.page.value;
    var r := server.AnswerSubmission(page, s, a.broker, a.newId, a.sealOk, a.codeId, a.metadataOk, a.u);
    after := waiting - {a.arrival};
    e := Taken(a, Some(s), false, Some(r));
    assert Touches(m, b, page.chain, {a.newId}, server.setup.entries, server.book);
    AnswerLeavesOthers(waiting, a.arrival, m, b, {a.newId}, server.setup.entries, server.book);
  }

  lemma AnswerLeavesOthers(waiting: Waiting, arrival: nat, m: Table, b: Book, newIds: set<string>, after: Table, bookAfter: Book)
    requires AllPending(waiting, m, b) && arrival in waiting
    requires Touches(m, b, waiting[arrival].page.value.chain, newIds, after, bookAfter)
    ensures AllPending(waiting - {arrival}, after, bookAfter)
  {
    OthersStayPending(waiting, waiting - {arrival}, m, b, waiting[arrival].page.value.chain, newIds, after, bookAfter);
  }
}
