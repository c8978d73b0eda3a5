/** The setup dialogue between a begun authorization and its code.

    Every page that is shown carries a sealed state with a setup identifier of its own, and a
    submission spends that identifier before anything else happens.  `book` is history kept beside
    the program's own state: it records what each begun authorization, a chain of pages, has led to. */
module SetupChain {
  import opened Common
  import opened OAuthTypes
  import opened OAuthService
  import opened Expiries
  import opened CodeStores

  /** The state sealed into a page.  `chain` numbers the begun authorization it belongs to; it is
      not part of the program's state and nothing below branches on it. */
  datatype SetupState = SetupState(
    clientId: string, redirectUri: string, resource: string, state: string, challenge: string, scopes: seq<string>,
    setupId: string, allowSupplied: bool, expiresAt: Time, chain: nat)

  /** A posted form.  `page` is the state its envelope opens to, if it opens. */
  datatype Submission = Submission(
    page: Option<SetupState>, csrfOk: bool, cancel: bool, credential: Credential, useSupplied: bool)

  /** What the InvenTree side answers: who the credential belongs to, and a dedicated credential. */
  datatype Broker = Broker(subject: Option<string>, dedicated: Option<Credential>)

  datatype Response = Refused | Cancelled | Shown(page: SetupState) | Unavailable | NotCompleted | Completed(code: Envelope)

  datatype Book = Book(
    begun: nat,
    sealed: set<SetupState>,
    chainOf: map<string, nat>,
    latest: map<nat, string>,
    expiry: map<nat, Time>,
    failed: set<nat>,
    codes: map<nat, Source>,
    names: set<string>)

  /** Every live identifier is the latest of its chain, so a chain has at most one, and it is live
      until the chain's expiry; a chain that has a code has none. */
  ghost predicate LiveOk(m: Table, b: Book) {
    forall id <- m ::
      && id in b.chainOf
      && b.chainOf[id] in b.latest && b.latest[b.chainOf[id]] == id
      && b.chainOf[id] in b.expiry && b.expiry[b.chainOf[id]] == m[id]
      && b.chainOf[id] !in b.codes
  }

  /** A code seals the supplied credential only if a dedicated one could not be created before. */
  ghost predicate CodesOk(b: Book) {
    forall chain <- b.codes :: chain in b.expiry && (b.codes[chain] == Supplied ==> chain in b.failed)
  }

  /** Pages offer the fallback only after a failure, and never extend their chain's expiry. */
  ghost predicate PagesOk(b: Book) {
    forall p <- b.sealed ::
      && (p.allowSupplied ==> p.chain in b.failed)
      && p.setupId in b.chainOf && b.chainOf[p.setupId] == p.chain
      && p.chain in b.expiry && p.expiresAt == b.expiry[p.chain]
  }

  /** Dedicated tokens are named after spent identifiers. */
  ghost predicate NamesOk(m: Table, b: Book) {
    forall n <- b.names :: n in b.chainOf && n !in m
  }

  ghost predicate NumbersOk(b: Book) {
    && (forall id <- b.chainOf :: b.chainOf[id] in b.expiry)
    && (forall chain <- b.expiry :: chain < b.begun)
  }

  /** What holds of the live setup identifiers and the history at all times. */
  ghost predicate ChainsOk(m: Table, b: Book) {
    LiveOk(m, b) && CodesOk(b) && PagesOk(b) && NamesOk(m, b) && NumbersOk(b)
  }

  /** No identifier of the chain is live, and no code has been issued for it. */
  ghost predicate Quiet(m: Table, b: Book, chain: nat) {
    && (forall id <- m :: id in b.chainOf ==> b.chainOf[id] != chain)
    && chain !in b.codes && chain in b.expiry
  }

  /** At any time a chain has at most one live setup identifier, and none once it has a code. */
  lemma AtMostOneLive(m: Table, b: Book, id: string, other: string)
    requires ChainsOk(m, b) && id in m && other in m
    ensures id in b.chainOf && other in b.chainOf
    ensures b.chainOf[id] == b.chainOf[other] ==> id == other
    ensures b.chainOf[id] !in b.codes
  {
  }

  lemma FewerLive(m: Table, b: Book, fewer: Table)
    requires ChainsOk(m, b) && fewer.Keys <= m.Keys && forall id <- fewer :: fewer[id] == m[id]
    ensures ChainsOk(fewer, b)
    ensures forall chain: nat :: Quiet(m, b, chain) ==> Quiet(fewer, b, chain)
  {
  }

  /** Spending the one live identifier of a chain leaves the chain quiet. */
  lemma SpendingQuiets(m: Table, b: Book, id: string, purgeAt: Time, checkAt: Time)
    requires ChainsOk(m, b)
    ensures var (after, ok) := ConsumeCode(m, id, purgeAt, checkAt);
            && ChainsOk(after, b)
            && (ok ==> id in b.chainOf && id !in after && id !in b.names && Quiet(after, b, b.chainOf[id]))
  {
    FewerLive(m, b, ConsumeCode(m, id, purgeAt, checkAt).0);
  }

  function WithId(b: Book, page: SetupState): Book {
    b.(chainOf := b.chainOf[page.setupId := page.chain], latest := b.latest[page.chain := page.setupId])
  }

  function WithPage(b: Book, page: SetupState): Book {
    WithId(b, page).(sealed := b.sealed + {page})
  }

  /** Giving a quiet chain a new identifier, live until the chain's own expiry. */
  lemma RenderIsOk(m: Table, b: Book, page: SetupState)
    requires ChainsOk(m, b) && page.setupId !in b.chainOf
    requires Quiet(m, b, page.chain) && b.expiry[page.chain] == page.expiresAt
    requires page.allowSupplied ==> page.chain in b.failed
    ensures ChainsOk(m[page.setupId := page.expiresAt], WithId(b, page))
    ensures ChainsOk(m[page.setupId := page.expiresAt], WithPage(b, page))
  {
  }

  /** Live identifiers, sealed pages and known identifiers only grow, by `newId` and what it is for. */
  ghost predicate Grew(m: Table, b: Book, newId: string, after: Table, bookAfter: Book) {
    && after.Keys <= m.Keys + {newId}
    && b.sealed <= bookAfter.sealed
    && b.chainOf.Keys <= bookAfter.chainOf.Keys <= b.chainOf.Keys + {newId}
  }

  /** Chains other than this one that are quiet stay quiet. */
  ghost predicate OthersQuiet(m: Table, b: Book, chain: nat, after: Table, bookAfter: Book) {
    forall c: nat :: c != chain && Quiet(m, b, c) ==> Quiet(after, bookAfter, c)
  }

  /** What showing a page does: its new identifier is stored, and then the page is sealed, if it can be. */
  function Render(m: Table, b: Book, max: int, page: SetupState, sealOk: bool, u: Readings): (Table, Book, Response) {
    var (after, r) := StoreCode(m, max, page.setupId, page.expiresAt, u.purge, u.check);
    if !r.Stored? then (after, b, Unavailable)
    else if sealOk then (after, WithPage(b, page), Shown(page))
    else (after, WithId(b, page), Unavailable)
  }

  lemma RenderShows(m: Table, b: Book, max: int, page: SetupState, sealOk: bool, u: Readings)
    ensures var (after, bookAfter, r) := Render(m, b, max, page, sealOk, u);
            && (r.Shown? <==> sealOk && StoreCode(m, max, page.setupId, page.expiresAt, u.purge, u.check).1.Stored?)
            && (r.Shown? ==> page.setupId in after && after[page.setupId] == page.expiresAt)
  {
  }

  lemma RenderLeavesOthers(m: Table, b: Book, max: int, page: SetupState, sealOk: bool, u: Readings)
    requires ChainsOk(m, b) && page.setupId !in b.chainOf
    ensures var (after, bookAfter, r) := Render(m, b, max, page, sealOk, u);
            OthersQuiet(m, b, page.chain, after, bookAfter)
  {
    StoreGrows(m, max, page.setupId, page.expiresAt, u);
    PageGrows(b, page);
  }

  lemma StoreGrows(m: Table, max: int, id: string, expiresAt: Time, u: Readings)
    ensures StoreCode(m, max, id, expiresAt, u.purge, u.check).0.Keys <= m.Keys + {id}
  {
  }

  lemma PageGrows(b: Book, page: SetupState)
    ensures SameRecord(b, WithId(b, page)) && SameRecord(b, WithPage(b, page))
    ensures b.sealed == WithId(b, page).sealed && b.sealed + {page} == WithPage(b, page).sealed
    ensures WithId(b, page).chainOf.Keys == WithPage(b, page).chainOf.Keys == b.chainOf.Keys + {page.setupId}
  {
  }

  lemma RenderGrows(m: Table, b: Book, max: int, page: SetupState, sealOk: bool, u: Readings)
    ensures var (after, bookAfter, r) := Render(m, b, max, page, sealOk, u);
            && Grew(m, b, page.setupId, after, bookAfter)
            && SameRecord(b, bookAfter)
            && (r == Unavailable || (r == Shown(page) && page in bookAfter.sealed))
  {
    StoreGrows(m, max, page.setupId, page.expiresAt, u);
    PageGrows(b, page);
  }

  /** What a chain has led to is unchanged. */
  ghost predicate SameRecord(b: Book, bookAfter: Book) {
    && bookAfter.begun == b.begun && bookAfter.expiry == b.expiry && bookAfter.codes == b.codes
    && bookAfter.names == b.names && bookAfter.failed == b.failed
  }

  lemma RenderOutcome(m: Table, b: Book, max: int, page: SetupState, sealOk: bool, u: Readings)
    requires ChainsOk(m, b) && page.setupId !in b.chainOf
    requires Quiet(m, b, page.chain) && b.expiry[page.chain] == page.expiresAt
    requires page.allowSupplied ==> page.chain in b.failed
    ensures var (after, bookAfter, r) := Render(m, b, max, page, sealOk, u); ChainsOk(after, bookAfter)
  {
    var live := Purge(m, u.purge);
    FewerLive(m, b, live);
    RenderIsOk(live, b, page);
    var (after, stored) := StoreCode(m, max, page.setupId, page.expiresAt, u.purge, u.check);
    assert after == if stored.Stored? then live[page.setupId := page.expiresAt] else live;
  }

  /** A new chain, numbered next, with its one expiry. */
  function Begun(b: Book, expiresAt: Time): Book {
    b.(begun := b.begun + 1, expiry := b.expiry[b.begun := expiresAt])
  }

  /** What beginning a chain does: it is numbered, and its first page is shown. */
  function Begin(m: Table, b: Book, max: int, page: SetupState, sealOk: bool, t: Readings): (Table, Book, Response) {
    Render(m, Begun(b, page.expiresAt), max, page, sealOk, t)
  }

  lemma BeginningIsOk(m: Table, b: Book, expiresAt: Time)
    requires ChainsOk(m, b)
    ensures ChainsOk(m, Begun(b, expiresAt)) && Quiet(m, Begun(b, expiresAt), b.begun)
    ensures b.begun !in b.expiry && forall c: nat :: Quiet(m, b, c) ==> Quiet(m, Begun(b, expiresAt), c)
  {
  }

  function Named(b: Book, id: string): Book { b.(names := b.names + {id}) }

  function FailedIn(b: Book, chain: nat): Book { b.(failed := b.failed + {chain}) }

  function WithCode(b: Book, chain: nat, source: Source): Book { b.(codes := b.codes[chain := source]) }

  lemma NamingIsOk(m: Table, b: Book, id: string, chain: nat)
    requires ChainsOk(m, b) && Quiet(m, b, chain) && id in b.chainOf && id !in m
    ensures ChainsOk(m, Named(b, id)) && Quiet(m, Named(b, id), chain)
    ensures ChainsOk(m, FailedIn(Named(b, id), chain)) && Quiet(m, FailedIn(Named(b, id), chain), chain)
    ensures forall c: nat :: Quiet(m, b, c) ==> Quiet(m, Named(b, id), c) && Quiet(m, FailedIn(Named(b, id), chain), c)
  {
  }

  lemma CodingIsOk(m: Table, b: Book, chain: nat, source: Source)
    requires ChainsOk(m, b) && Quiet(m, b, chain) && (source == Supplied ==> chain in b.failed)
    ensures ChainsOk(m, WithCode(b, chain, source)) && OthersQuiet(m, b, chain, m, WithCode(b, chain, source))
  {
  }

  const EMPTY_BOOK := Book(0, {}, map[], map[], map[], {}, map[], {})

  /** A submission that was accepted goes on to ask for a dedicated token: it is not cancelled, its
      credential is good, and it does not use the fallback. */
  predicate Asks(page: SetupState, s: Submission, broker: Broker) {
    && !s.cancel && s.credential.ValidateForEnvelope() && broker.subject.Some?
    && !(page.allowSupplied && s.useSupplied)
  }

  /** It has a credential to put into a code: the supplied one or a dedicated one. */
  predicate ReachesCode(page: SetupState, s: Submission, broker: Broker) {
    && !s.cancel && s.credential.ValidateForEnvelope() && broker.subject.Some?
    && ((page.allowSupplied && s.useSupplied) || broker.dedicated.Some?)
  }

  /** The store holds the code under its own expiry, and what it seals can be used. */
  predicate Redeems(code: Envelope, m: Table) {
    && IsCode(code)
    && var c := code.payload.code;
    && c.codeId in m && m[c.codeId] == c.expiresAt
    && c.codeId != "" && c.challenge != "" && c.credential.ValidateForEnvelope()
  }

  class AuthorizationServer {
    const service: Service
    const issuer: string
    const resource: string
    const setup: CodeStore
    const codes: CodeStore
    var book: Book

    ghost predicate Valid()
      reads this, setup
    {
      setup != codes && ChainsOk(setup.entries, book)
    }

    constructor (service: Service, issuer: string, resource: string, codes: CodeStore)
      ensures Valid() && fresh(setup) && book == EMPTY_BOOK && setup.entries == map[] && this.codes == codes
    {
      this.service, this.issuer, this.resource, this.codes := service, issuer, resource, codes;
      setup := new CodeStore(DEFAULT_MAX_CODES);
      book := EMPTY_BOOK;
    }

    /** Shows a page: a fresh identifier is stored under the chain's own expiry and sealed. */
    method RenderSetup(page: SetupState, newId: string, sealOk: bool, u: Readings) returns (r: Response)
      requires Valid() && newId !in book.chainOf
      requires Quiet(setup.entries, book, page.chain) && book.expiry[page.chain] == page.expiresAt
      requires page.allowSupplied ==> page.chain in book.failed
      modifies this`book, setup`entries
      ensures Valid() && Grew(old(setup.entries), old(book), newId, setup.entries, book) && SameRecord(old(book), book)
      ensures OthersQuiet(old(setup.entries), old(book), page.chain, setup.entries, book)
      ensures r == Unavailable || (r == Shown(page.(setupId := newId)) && r.page in book.sealed)
      ensures r.Shown? <==> sealOk && StoreCode(old(setup.entries), setup.max, newId, page.expiresAt, u.purge, u.check).1.Stored?
      ensures r.Shown? ==> newId in setup.entries && setup.entries[newId] == page.expiresAt
      ensures (setup.entries, book, r)
           == Render(old(setup.entries), old(book), setup.max, page.(setupId := newId), sealOk, u)
    {
      var shown := page.(setupId := newId);
      RenderOutcome(setup.entries, book, setup.max, shown, sealOk, u);
      RenderGrows(setup.entries, book, setup.max, shown, sealOk, u);
      RenderLeavesOthers(setup.entries, book, setup.max, shown, sealOk, u);
      RenderShows(setup.entries, book, setup.max, shown, sealOk, u);
      r := StoreAndSeal(shown, sealOk, u);
    }

    method StoreAndSeal(shown: SetupState, sealOk: bool, u: Readings) returns (r: Response)
      requires setup != codes
      modifies this`book, setup`entries
      ensures (setup.entries, book, r) == Render(old(setup.entries), old(book), setup.max, shown, sealOk, u)
    {
      var stored := setup.Store(shown.setupId, shown.expiresAt, u.purge, u.check);
      if !stored.Stored? {
        return Unavailable;
      }
      book := if sealOk then WithPage(book, shown) else WithId(book, shown);
      return if sealOk then Shown(shown) else Unavailable;
    }

    function FirstPage(request: SetupState, chain: nat, t: Readings, newId: string): SetupState {
      request.(allowSupplied := false, expiresAt := t.first + OrDefault(service.codeLifetime, DEFAULT_CODE_LIFETIME),
               chain := chain, setupId := newId)
    }

    /** The first page carries the request, without the fallback, and expires after a code lifetime. */
    lemma FirstPageCarriesRequest(request: SetupState, chain: nat, t: Readings, newId: string)
      ensures var page := FirstPage(request, chain, t, newId);
              && page.expiresAt == t.first + (if service.codeLifetime == 0 then 300_000_000_000 else service.codeLifetime)
              && page.clientId == request.clientId && page.redirectUri == request.redirectUri
              && page.resource == request.resource && page.state == request.state
              && page.challenge == request.challenge && page.scopes == request.scopes
              && page.chain == chain && page.setupId == newId && !page.allowSupplied
    {
    }

    /** Begins a chain with its first page. */
    method BeginAuthorization(request: SetupState, admissible: bool, newId: string, sealOk: bool, t: Readings) returns (r: Response)
      requires Valid() && newId !in book.chainOf
      modifies this`book, setup`entries
      ensures Valid()
      ensures Grew(old(setup.entries), old(book), newId, setup.entries, book)
      ensures OthersQuiet(old(setup.entries), old(book), old(book).begun, setup.entries, book)
      ensures r.Shown? || r.Refused? || r.Unavailable?
      ensures !admissible ==> r.Refused? && book == old(book) && setup.entries == old(setup.entries)
      ensures admissible ==>
                (setup.entries, book, r) == Begin(old(setup.entries), old(book), setup.max, FirstPage(request, old(book).begun, t, newId), sealOk, t)
      ensures admissible ==> book.begun == old(book).begun + 1 && old(book).begun !in old(book).expiry
      ensures book.codes == old(book).codes && book.names == old(book).names && book.failed == old(book).failed
      ensures r.Shown? ==>
                && r.page.chain == old(book).begun && r.page in book.sealed && !r.page.allowSupplied && r.page.setupId == newId
                && r.page == FirstPage(request, old(book).begun, t, newId)
    {
      if !admissible {
        return Refused;
      }
      var page := FirstPage(request, book.begun, t, newId);
      BeginningIsOk(setup.entries, book, page.expiresAt);
      book := Begun(book, page.expiresAt);
      assert page.(setupId := newId) == page;
      r := RenderSetup(page, newId, sealOk, t);
    }

    /** Handles a submission.  Whatever the page shown, the identifier it carries is spent first, at the
        readings `t`; what follows reads the clock again, at `u`. */
    method CompleteAuthorization(s: Submission, allowed: bool, broker: Broker, newId: string, sealOk: bool, codeId: Option<string>,
                                 metadataOk: bool, t: Readings, u: Readings)
      returns (r: Response)
      requires Valid() && newId !in book.chainOf
      requires s.page.Some? ==> s.page.value in book.sealed
      modifies this`book, setup`entries, codes`entries
      ensures Valid()
      ensures book.begun == old(book).begun && book.expiry == old(book).expiry
      ensures r.Refused? <==> !(allowed && s.page.Some? && t.first < s.page.value.expiresAt && s.csrfOk
                                && ConsumeCode(old(setup.entries), s.page.value.setupId, t.purge, t.check).1)
      ensures r.Cancelled? <==> !r.Refused? && s.cancel
      ensures r.Completed? || r.NotCompleted? <==> !r.Refused? && ReachesCode(s.page.value, s, broker)
      ensures !r.Refused? ==> s.page.value.setupId !in setup.entries
      ensures Grew(old(setup.entries), old(book), newId, setup.entries, book)
      ensures r.Refused? ==> book == old(book)
      ensures !r.Refused? ==> s.page.value.setupId in old(setup.entries)
      ensures r.Shown? ==> r.page in book.sealed
      ensures !r.Completed? ==> book.codes == old(book).codes
      ensures r.Completed? ==>
                var page := s.page.value;
                && page.chain !in old(book).codes && book.codes == old(book).codes[page.chain := SourceFor(page, s)]
                && (SourceFor(page, s) == Supplied ==> page.chain in old(book).failed)
                && Answered(page, s, broker, codeId, u, r) && Redeems(r.code, codes.entries)
      ensures r.Shown? ==> r.page == s.page.value.(setupId := newId, allowSupplied := r.page.allowSupplied)
      ensures r.Shown? ==>
                r.page.allowSupplied == (s.page.value.allowSupplied || (Asks(s.page.value, s, broker) && broker.dedicated.None?))
      ensures book.names == old(book).names
                            + (if !r.Refused? && Asks(s.page.value, s, broker) then {s.page.value.setupId} else {})
      ensures !r.Refused? ==> s.page.value.setupId !in old(book).names
      ensures book.failed == old(book).failed
                             + (if !r.Refused? && Asks(s.page.value, s, broker) && broker.dedicated.None?
                                then {s.page.value.chain} else {})
    {
      var accepted := AcceptSubmission(s, allowed, t);
      if !accepted {
        return Refused;
      }
      r := AnswerSubmission(s.page.value, s, broker, newId, sealOk, codeId, metadataOk, u);
    }

    /** The part before any answer: a good submission spends its identifier. */
    method AcceptSubmission(s: Submission, allowed: bool, t: Readings) returns (accepted: bool)
      requires Valid() && (s.page.Some? ==> s.page.value in book.sealed)
      modifies setup`entries
      ensures Valid()
      ensures accepted <==> allowed && s.page.Some? && t.first < s.page.value.expiresAt && s.csrfOk
                            && ConsumeCode(old(setup.entries), s.page.value.setupId, t.purge, t.check).1
      ensures setup.entries.Keys <= old(setup.entries).Keys
      ensures forall c: nat :: Quiet(old(setup.entries), book, c) ==> Quiet(setup.entries, book, c)
      ensures accepted ==>
                var page := s.page.value;
                && page.setupId in old(setup.entries) && page.setupId !in setup.entries
                && page.setupId in book.chainOf && page.setupId !in book.names
                && !Quiet(old(setup.entries), book, page.chain) && Quiet(setup.entries, book, page.chain)
    {
      if !allowed || s.page.None? || s.page.value.expiresAt <= t.first || !s.csrfOk {
        return false;
      }
      SpendingQuiets(setup.entries, book, s.page.value.setupId, t.purge, t.check);
      FewerLive(setup.entries, book, ConsumeCode(setup.entries, s.page.value.setupId, t.purge, t.check).0);
      accepted := setup.Consume(s.page.value.setupId, t.purge, t.check);
    }

    /** What follows once the identifier is spent; `u` are the readings from here on. */
    method AnswerSubmission(page: SetupState, s: Submission, broker: Broker, newId: string, sealOk: bool, codeId: Option<string>,
                            metadataOk: bool, u: Readings)
      returns (r: Response)
      requires Valid() && newId !in book.chainOf && page in book.sealed
      requires Quiet(setup.entries, book, page.chain)
      requires page.setupId in book.chainOf && page.setupId !in setup.entries
      modifies this`book, setup`entries, codes`entries
      ensures Valid() && Grew(old(setup.entries), old(book), newId, setup.entries, book)
      ensures book.begun == old(book).begun && book.expiry == old(book).expiry
      ensures OthersQuiet(old(setup.entries), old(book), page.chain, setup.entries, book)
      ensures !r.Refused? && (r.Cancelled? <==> s.cancel)
      ensures r.Completed? || r.NotCompleted? <==> ReachesCode(page, s, broker)
      ensures r.Completed? ==>
                && Answered(page, s, broker, codeId, u, r) && Redeems(r.code, codes.entries)
                && book.codes == old(book).codes[page.chain := SourceFor(page, s)]
      ensures !r.Completed? ==> book.codes == old(book).codes
      ensures r.Shown? ==> r.page in book.sealed && r.page == page.(setupId := newId, allowSupplied := r.page.allowSupplied)
      ensures r.Shown? ==> r.page.allowSupplied == (page.allowSupplied || (Asks(page, s, broker) && broker.dedicated.None?))
      ensures book.names == old(book).names + (if Asks(page, s, broker) then {page.setupId} else {})
      ensures book.failed == old(book).failed
                             + (if Asks(page, s, broker) && broker.dedicated.None? then {page.chain} else {})
    {
      if s.cancel {
        return Cancelled;
      }
      if !s.credential.ValidateForEnvelope() || broker.subject.None? {
        r := RenderSetup(page, newId, sealOk, u);
        return;
      }
      r := AnswerGood(page, s, broker, newId, sealOk, codeId, metadataOk, u);
    }

    /** The answer to a submission whose credential is good. */
    method AnswerGood(page: SetupState, s: Submission, broker: Broker, newId: string, sealOk: bool, codeId: Option<string>,
                      metadataOk: bool, u: Readings)
      returns (r: Response)
      requires Valid() && newId !in book.chainOf && page in book.sealed
      requires Quiet(setup.entries, book, page.chain)
      requires page.setupId in book.chainOf && page.setupId !in setup.entries
      requires !s.cancel && s.credential.ValidateForEnvelope() && broker.subject.Some?
      modifies this`book, setup`entries, codes`entries
      ensures Valid() && Grew(old(setup.entries), old(book), newId, setup.entries, book)
      ensures book.begun == old(book).begun && book.expiry == old(book).expiry
      ensures OthersQuiet(old(setup.entries), old(book), page.chain, setup.entries, book)
      ensures !r.Refused? && !r.Cancelled?
      ensures r.Completed? || r.NotCompleted? <==> ReachesCode(page, s, broker)
      ensures r.Completed? ==>
                && Answered(page, s, broker, codeId, u, r) && Redeems(r.code, codes.entries)
                && book.codes == old(book).codes[page.chain := SourceFor(page, s)]
      ensures !r.Completed? ==> book.codes == old(book).codes
      ensures r.Shown? ==> r.page in book.sealed && r.page == page.(setupId := newId, allowSupplied := r.page.allowSupplied)
      ensures r.Shown? ==> r.page.allowSupplied == (page.allowSupplied || (Asks(page, s, broker) && broker.dedicated.None?))
      ensures book.names == old(book).names + (if Asks(page, s, broker) then {page.setupId} else {})
      ensures book.failed == old(book).failed
                             + (if Asks(page, s, broker) && broker.dedicated.None? then {page.chain} else {})
    {
      if page.allowSupplied && s.useSupplied {
        r := Finish(page, broker.subject.value, s.credential, Supplied, codeId, metadataOk, u);
      } else {
        r := AskForDedicated(page, s, broker, newId, sealOk, codeId, metadataOk, u);
      }
    }

    /** The submission asks for a dedicated token; if there is none, the page is shown with the fallback. */
    method AskForDedicated(page: SetupState, s: Submission, broker: Broker, newId: string, sealOk: bool, codeId: Option<string>,
                           metadataOk: bool, u: Readings)
      returns (r: Response)
      requires Valid() && newId !in book.chainOf && page in book.sealed && Asks(page, s, broker)
      requires Quiet(setup.entries, book, page.chain)
      requires page.setupId in book.chainOf && page.setupId !in setup.entries
      modifies this`book, setup`entries, codes`entries
      ensures Valid() && Grew(old(setup.entries), old(book), newId, setup.entries, book)
      ensures book.begun == old(book).begun && book.expiry == old(book).expiry
      ensures OthersQuiet(old(setup.entries), old(book), page.chain, setup.entries, book)
      ensures !r.Refused? && !r.Cancelled?
      ensures r.Completed? || r.NotCompleted? <==> ReachesCode(page, s, broker)
      ensures r.Completed? ==>
                && Answered(page, s, broker, codeId, u, r) && Redeems(r.code, codes.entries)
                && book.codes == old(book).codes[page.chain := Dedicated]
      ensures !r.Completed? ==> book.codes == old(book).codes
      ensures r.Shown? ==> r.page in book.sealed && r.page == page.(setupId := newId, allowSupplied := r.page.allowSupplied)
      ensures r.Shown? ==> r.page.allowSupplied && broker.dedicated.None?
      ensures book.names == old(book).names + {page.setupId}
      ensures book.failed == old(book).failed + (if broker.dedicated.None? then {page.chain} else {})
    {
      NamingIsOk(setup.entries, book, page.setupId, page.chain);
      book := Named(book, page.setupId);
      if broker.dedicated.None? {
        book := FailedIn(book, page.chain);
        r := RenderSetup(page.(allowSupplied := true), newId, sealOk, u);
        return;
      }
      r := Finish(page, broker.subject.value, broker.dedicated.value, Dedicated, codeId, metadataOk, u);
    }

    function SourceFor(page: SetupState, s: Submission): Source {
      if page.allowSupplied && s.useSupplied then Supplied else Dedicated
    }

    /** The code seals what the submission and the broker gave, under the source that was used. */
    predicate Answered(page: SetupState, s: Submission, broker: Broker, codeId: Option<string>, u: Readings, r: Response)
      requires r.Completed?
    {
      && broker.subject.Some? && s.credential.ValidateForEnvelope() && codeId.Some?
      && (SourceFor(page, s) == Dedicated ==> broker.dedicated.Some?)
      && r.code == SealCode(CodeFor(service, RequestFor(page, broker.subject.value,
           if SourceFor(page, s) == Supplied then s.credential else broker.dedicated.value, SourceFor(page, s)),
           codeId.value, u.first))
    }

    function RequestFor(page: SetupState, subject: string, credential: Credential, source: Source): AuthorizationRequest {
      AuthorizationRequest(issuer, resource, subject, page.clientId, page.redirectUri, page.challenge, page.scopes, credential, source)
    }

    /** Issues the code of a quiet chain. */
    method Finish(page: SetupState, subject: string, credential: Credential, source: Source, codeId: Option<string>,
                  metadataOk: bool, u: Readings)
      returns (r: Response)
      requires Valid() && Quiet(setup.entries, book, page.chain) && (source == Supplied ==> page.chain in book.failed)
      modifies this`book, codes`entries
      ensures Valid()
      ensures r.Completed? || r.NotCompleted?
      ensures r.NotCompleted? ==> book == old(book)
      ensures r.Completed? <==> Issue(service, old(codes.entries), codes.max, RequestFor(page, subject, credential, source),
                                      metadataOk, codeId, u).1.CodeIssued?
      ensures r.Completed? ==>
                && book == WithCode(old(book), page.chain, source) && codeId.Some? && Redeems(r.code, codes.entries)
                && r.code == SealCode(CodeFor(service, RequestFor(page, subject, credential, source), codeId.value, u.first))
    {
      var issued := IssueAuthorizationCode(service, codes, RequestFor(page, subject, credential, source), metadataOk, codeId, u);
      if !issued.CodeIssued? {
        return NotCompleted;
      }
      CodingIsOk(setup.entries, book, page.chain, source);
      book := WithCode(book, page.chain, source);
      return Completed(issued.code);
    }
  }

  /** The code of a completed setup is sealed for this server and the page's client, for the user the broker
      named, with the page's scopes, redirect URI and challenge, and expires after a code lifetime; it seals
      the supplied credential exactly where the fallback was used, and the dedicated one otherwise. */
  lemma CompletedCode(server: AuthorizationServer, page: SetupState, s: Submission, broker: Broker,
                      codeId: Option<string>, u: Readings, r: Response)
    requires r.Completed? && server.Answered(page, s, broker, codeId, u, r)
    ensures IsCode(r.code) && broker.subject.Some? && codeId.Some?
    ensures r.code.aad == AssociatedData(server.issuer, server.resource, page.clientId, Code)
    ensures var c := r.code.payload.code;
            && c.issuer == server.issuer && c.audience == server.resource && c.clientId == page.clientId
            && c.subject == broker.subject.value && c.scopes == page.scopes
            && c.redirectUri == page.redirectUri && c.challenge == page.challenge && c.codeId == codeId.value
            && c.issuedAt == u.first
            && c.expiresAt == u.first + (if server.service.codeLifetime == 0 then 300_000_000_000 else server.service.codeLifetime)
            && (if page.allowSupplied && s.useSupplied then c.source == Supplied && c.credential == s.credential
                else c.source == Dedicated && Some(c.credential) == broker.dedicated)
  {
  }

  /** End to end: while the store still holds the code of a completed setup, the page's client exchanges it
      with the page's redirect URI and the verifier of its challenge, at readings before the expiry, for two tokens
      of the user that the broker named, with the page's scopes. */
  lemma CompletedCodeGivesTokens(server: AuthorizationServer, page: SetupState, s: Submission, broker: Broker,
                                 codeId: Option<string>, u: Readings, r: Response, m: Table, verifier: string, t: Readings)
    requires r.Completed? && server.Answered(page, s, broker, codeId, u, r) && Redeems(r.code, m)
    requires verifier != "" && server.service.s256(verifier) == page.challenge
    requires var e := r.code.payload.code.expiresAt; t.first < e && t.purge < e && t.check < e
    ensures broker.subject.Some?
    ensures var aad := AssociatedData(server.issuer, server.resource, page.clientId, Access);
            var (after, answer) := Exchange(server.service, m, r.code, aad, page.redirectUri, verifier, t);
            && answer.PairIssued? && r.code.payload.code.codeId !in after
            && ForUser(answer.access, server, page, broker.subject.value) && ForUser(answer.refresh, server, page, broker.subject.value)
  {
    CompletedCode(server, page, s, broker, codeId, u, r);
  }

  predicate ForUser(e: Envelope, server: AuthorizationServer, page: SetupState, subject: string) {
    && e.Sealed? && e.payload.TokenPayload?
    && var c := e.payload.token;
    && c.subject == subject && c.clientId == page.clientId && c.scopes == page.scopes
    && c.issuer == server.issuer && c.audience == server.resource
  }
}
