/** The bounded walk that filters barcode scan history page by page. */
module ScanHistory {

  const PAGE := 100
  const DEFAULT_MAX_PAGES := 50
  const BYTE_BUDGET := 2 * 1024 * 1024

  /** An instant; 0 stands for the zero instant, which as a bound means there is none. */
  type Time = int

  datatype Entry = Entry(pk: int, data: string, endpoint: string, timestamp: string)

  /** The client-side filter; `stamps` gives the instant of each timestamp that has a known layout. */
  datatype Filter = Filter(endpoint: string, from: Time, to: Time, stamps: imap<string, Time>)

  predicate Matches(e: Entry, f: Filter) {
    && (f.endpoint == "" || e.endpoint == f.endpoint)
    && ((f.from == 0 && f.to == 0)
        || (&& e.timestamp in f.stamps
            && (f.from == 0 || f.from <= f.stamps[e.timestamp])
            && (f.to == 0 || f.stamps[e.timestamp] < f.to)))
  }

  /** What the filter asks: the endpoint if one is given, and, if a bound is given, an instant from the lower
      one on and before the upper one; a row without a readable instant meets no bound. */
  lemma FilterMeans(e: Entry, f: Filter)
    ensures Matches(e, f.(from := 0, to := 0)) <==> f.endpoint == "" || f.endpoint == e.endpoint
    ensures Matches(e, f) ==> Matches(e, f.(from := 0, to := 0)) && Matches(e, f.(from := 0)) && Matches(e, f.(to := 0))
    ensures e.timestamp !in f.stamps && (f.from != 0 || f.to != 0) ==> !Matches(e, f)
    ensures e.timestamp in f.stamps && Matches(e, f.(from := 0, to := 0)) ==>
              var t := f.stamps[e.timestamp];
              && (f.from != 0 && f.to == 0 ==> (Matches(e, f) <==> t >= f.from))
              && (f.from == 0 && f.to != 0 ==> (Matches(e, f) <==> t < f.to))
              && (f.from != 0 && f.to != 0 ==> (Matches(e, f) <==> f.from <= t < f.to))
  {
  }

  /** Neighbouring intervals share no row and together miss none. */
  lemma IntervalsSplit(e: Entry, f: Filter, middle: Time)
    requires f.from < middle < f.to && f.from != 0 && middle != 0 && f.to != 0
    ensures Matches(e, f) <==> Matches(e, f.(to := middle)) || Matches(e, f.(from := middle))
    ensures !(Matches(e, f.(to := middle)) && Matches(e, f.(from := middle)))
  {
  }

  /**
   * A walk: the whole upstream sequence, what is asked of it, and before which pages the context is found
   * cancelled, the time budget spent, or the fetch fails.
   */
  datatype Walk = Walk(upstream: seq<Entry>, filter: Filter, limit: nat, offset: nat, maxPages: int,
                       cancelled: iset<nat>, late: iset<nat>, failing: iset<nat>)
  {
    function Seen(pages: nat): nat { if pages * PAGE < |upstream| then pages * PAGE else |upstream| }

    /** Whether upstream has rows after the first `pages` pages. */
    predicate More(pages: nat) { pages * PAGE < |upstream| }

    /** How many of the first `n` rows match. */
    function Count(n: nat): nat
      requires n <= |upstream|
    {
      if n == 0 then 0 else Count(n - 1) + if Matches(upstream[n - 1], filter) then 1 else 0
    }

    /** The matches among the first `n` rows that fall in the window. */
    function Kept(n: nat): seq<Entry>
      requires n <= |upstream|
    {
      if n == 0 then []
      else if Matches(upstream[n - 1], filter) && offset <= Count(n - 1) < offset + limit then Kept(n - 1) + [upstream[n - 1]]
      else Kept(n - 1)
    }

    function Weight(n: nat): nat
      requires n <= |upstream|
    {
      if n == 0 then 0 else Weight(n - 1) + WeightOf(upstream[n - 1])
    }

    predicate BeyondLimit(pages: nat) { Count(Seen(pages)) > offset + limit }

    function All(): seq<Entry> { Matching(upstream, filter) }

    /** What is asked for. */
    function Wanted(): seq<Entry> { Window(All(), offset, limit) }
  }

  datatype Cutoff = Limit | Bytes | Clock | Pages | End

  /** What a walk returns, and which cutoff ended it. */
  datatype Outcome = Failed | Walked(records: seq<Entry>, hasMore: bool, cutoff: Cutoff)

  function Matching(s: seq<Entry>, f: Filter): seq<Entry> {
    if s == [] then []
    else Matching(s[..|s| - 1], f) + if Matches(s[|s| - 1], f) then [s[|s| - 1]] else []
  }

  function Drop(s: seq<Entry>, n: nat): seq<Entry> { if n <= |s| then s[n..] else [] }

  function Take(s: seq<Entry>, n: nat): seq<Entry> { if n <= |s| then s[..n] else s }

  function Window(s: seq<Entry>, offset: nat, limit: nat): seq<Entry> { Take(Drop(s, offset), limit) }

  function WeightOf(e: Entry): nat { |e.data| + |e.endpoint| + |e.timestamp| }

  /** The outcome, when the first `pages` pages have been read and no cutoff has fired. */
  function Continue(w: Walk, pages: nat): Outcome
    decreases w.maxPages - pages
  {
    if pages >= w.maxPages then Walked(w.Kept(w.Seen(pages)), pages == w.maxPages && pages > 0 && w.More(pages), Pages)
    else if pages in w.cancelled then Failed
    else if pages in w.late then Walked(w.Kept(w.Seen(pages)), true, Clock)
    else if pages in w.failing then Failed
    else if w.BeyondLimit(pages + 1) then Walked(w.Kept(w.Seen(pages + 1)), true, Limit)
    else if w.Weight(w.Seen(pages + 1)) > BYTE_BUDGET then Walked(w.Kept(w.Seen(pages + 1)), w.More(pages + 1), Bytes)
    else if !w.More(pages + 1) then Walked(w.Kept(w.Seen(pages + 1)), false, End)
    else Continue(w, pages + 1)
  }

  // The loops

  /** One upstream page. */
  function Page(w: Walk, page: nat): seq<Entry> { w.upstream[w.Seen(page)..w.Seen(page + 1)] }

  /** The counters when the first `n` upstream rows have been looked at and the limit has not been passed. */
  predicate Counted(w: Walk, n: nat, matched: seq<Entry>, skipped: nat, bytes: nat) {
    && n <= |w.upstream|
    && bytes == w.Weight(n)
    && matched == w.Kept(n)
    && skipped == (if w.Count(n) < w.offset then w.Count(n) else w.offset)
    && skipped + |matched| == w.Count(n) <= w.offset + w.limit
  }

  lemma {:induction false} PastLimitNothingIsKept(w: Walk, n: nat, m: nat)
    requires n <= m <= |w.upstream|
    ensures w.Count(n) <= w.Count(m)
    ensures w.Count(n) >= w.offset + w.limit ==> w.Kept(m) == w.Kept(n)
  {
    if n < m {
      PastLimitNothingIsKept(w, n, m - 1);
    }
  }

  /** Page `page` is being read: no cutoff has fired before it. */
  predicate Reading(w: Walk, page: nat) {
    && page < w.maxPages && page !in w.cancelled && page !in w.late && page !in w.failing
  }

  lemma PastLimit(w: Walk, n: nat, page: nat, matched: seq<Entry>, skipped: nat, bytes: nat)
    requires Counted(w, n, matched, skipped, bytes) && n < w.Seen(page + 1) && Reading(w, page)
    requires Matches(w.upstream[n], w.filter) && skipped >= w.offset && |matched| >= w.limit
    ensures Continue(w, page) == Walked(matched, true, Limit)
  {
    PastLimitNothingIsKept(w, n, w.Seen(page + 1));
    PastLimitNothingIsKept(w, n + 1, w.Seen(page + 1));
  }

  lemma AfterPage(w: Walk, page: nat, matched: seq<Entry>, skipped: nat, bytes: nat)
    requires Reading(w, page) && Counted(w, w.Seen(page + 1), matched, skipped, bytes)
    ensures Continue(w, page)
         == if bytes > BYTE_BUDGET then Walked(matched, w.More(page + 1), Bytes)
            else if !w.More(page + 1) then Walked(matched, false, End)
            else Continue(w, page + 1)
  {}

  /** The inner loop: looks at one page until it ends or a match turns up beyond the limit. */
  method ReadPage(w: Walk, page: nat, matched0: seq<Entry>, skipped0: nat, bytes0: nat)
    returns (matched: seq<Entry>, skipped: nat, bytes: nat, beyond: bool)
    requires Reading(w, page) && Counted(w, w.Seen(page), matched0, skipped0, bytes0)
    ensures beyond ==> Continue(w, page) == Walked(matched, true, Limit)
    ensures !beyond ==> Counted(w, w.Seen(page + 1), matched, skipped, bytes)
  {
    matched, skipped, bytes, beyond := matched0, skipped0, bytes0, false;
    var results := Page(w, page);
    var j := 0;
    while j < |results|
      invariant 0 <= j <= |results|
      invariant Counted(w, w.Seen(page) + j, matched, skipped, bytes)
    {
      var entry := results[j];
      assert entry == w.upstream[w.Seen(page) + j];
      if Matches(entry, w.filter) && skipped >= w.offset && |matched| >= w.limit {
        PastLimit(w, w.Seen(page) + j, page, matched, skipped, bytes);
        return matched, skipped, bytes + WeightOf(entry), true;
      }
      bytes := bytes + WeightOf(entry);
      if Matches(entry, w.filter) {
        if skipped < w.offset {
          skipped := skipped + 1;
        } else {
          matched := matched + [entry];
        }
      }
      j := j + 1;
    }
  }

  method WalkScanHistory(w: Walk) returns (r: Outcome)
    ensures r == Continue(w, 0)
  {
    var matched: seq<Entry> := [];
    var skipped: nat := 0;
    var approxBytes: nat := 0;
    var hasMore := false;
    var pagesFetched := 0;
    var lastPageHasMore := false;
    var cutoff := Pages;
    var page: nat := 0;
    while page < w.maxPages
      invariant page == pagesFetched && (page == 0 || page <= w.maxPages)
      invariant Counted(w, w.Seen(page), matched, skipped, approxBytes)
      invariant !hasMore && lastPageHasMore == (page > 0 && w.More(page)) && cutoff == Pages
      invariant Continue(w, 0) == Continue(w, page)
    {
      if page in w.cancelled {
        return Failed;
      }
      if page in w.late {
        hasMore, cutoff := true, Clock;
        break;
      }
      if page in w.failing {
        return Failed;
      }
      pagesFetched := pagesFetched + 1;
      lastPageHasMore := w.More(page + 1);
      var beyond;
      matched, skipped, approxBytes, beyond := ReadPage(w, page, matched, skipped, approxBytes);
      if beyond {
        hasMore, cutoff := true, Limit;
        break;
      }
      AfterPage(w, page, matched, skipped, approxBytes);
      if approxBytes > BYTE_BUDGET {
        hasMore, cutoff := w.More(page + 1), Bytes;
        break;
      }
      if !w.More(page + 1) {
        cutoff := End;
        break;
      }
      page := page + 1;
    }
    if pagesFetched == w.maxPages && lastPageHasMore {
      hasMore := true;
    }
    return Walked(matched, hasMore, cutoff);
  }

  // What a caller can rely on

  /** The rows kept on the way are the window of all matches so far. */
  lemma {:induction false} KeptIsWindow(w: Walk, n: nat)
    requires n <= |w.upstream|
    ensures w.Count(n) == |Matching(w.upstream[..n], w.filter)|
    ensures w.Kept(n) == Window(Matching(w.upstream[..n], w.filter), w.offset, w.limit)
  {
    if n > 0 {
      KeptIsWindow(w, n - 1);
      MatchingStep(w.upstream, n - 1, w.filter);
      KeptStep(w, n - 1, Matching(w.upstream[..n - 1], w.filter), Matching(w.upstream[..n], w.filter));
    }
  }

  lemma KeptStep(w: Walk, n: nat, before: seq<Entry>, after: seq<Entry>)
    requires n < |w.upstream| && w.Count(n) == |before| && w.Kept(n) == Window(before, w.offset, w.limit)
    requires after == before + if Matches(w.upstream[n], w.filter) then [w.upstream[n]] else []
    ensures w.Count(n + 1) == |after| && w.Kept(n + 1) == Window(after, w.offset, w.limit)
  {
    if Matches(w.upstream[n], w.filter) {
      WindowAppend(before, w.upstream[n], w.offset, w.limit);
    } else {
      assert after == before;
    }
  }

  lemma MatchingStep(s: seq<Entry>, n: nat, f: Filter)
    requires n < |s|
    ensures Matching(s[..n + 1], f) == Matching(s[..n], f) + if Matches(s[n], f) then [s[n]] else []
  {
    assert s[..n + 1][..n] == s[..n];
  }

  lemma WindowAppend(m: seq<Entry>, e: Entry, offset: nat, limit: nat)
    ensures Window(m + [e], offset, limit)
         == Window(m, offset, limit) + if offset <= |m| < offset + limit then [e] else []
  {}

  lemma {:induction false} KeptGrows(w: Walk, n: nat, m: nat)
    requires n <= m <= |w.upstream|
    ensures w.Kept(n) <= w.Kept(m)
  {
    if n < m {
      KeptGrows(w, n, m - 1);
    }
  }

  lemma FoundIsPrefix(w: Walk, pages: nat)
    ensures w.Kept(w.Seen(pages)) <= w.Wanted() && w.Count(w.Seen(pages)) <= |w.All()|
    ensures w.BeyondLimit(pages) || !w.More(pages) ==> w.Kept(w.Seen(pages)) == w.Wanted()
    ensures !w.More(pages) ==> w.Count(w.Seen(pages)) == |w.All()|
  {
    var n := |w.upstream|;
    assert w.upstream[..n] == w.upstream;
    KeptIsWindow(w, n);
    KeptGrows(w, w.Seen(pages), n);
    PastLimitNothingIsKept(w, w.Seen(pages), n);
  }

  /** What each way of ending says about everything that matches upstream. */
  ghost predicate Sound(w: Walk, r: Outcome) {
    r.Walked? ==>
      && r.records <= w.Wanted()
      && (!r.hasMore && w.maxPages > 0 ==> r.records == Drop(w.All(), w.offset))
      && (r.cutoff == Limit ==> r.hasMore && |r.records| == w.limit && |w.All()| > w.offset + w.limit)
      && (r.cutoff == End ==> !r.hasMore)
  }

  lemma EndIsSound(w: Walk, pages: nat, hasMore: bool, cutoff: Cutoff)
    requires hasMore || w.maxPages <= 0 || (!w.More(pages) && !w.BeyondLimit(pages))
    requires cutoff == Limit ==> hasMore && w.BeyondLimit(pages)
    requires cutoff == End ==> !hasMore
    ensures Sound(w, Walked(w.Kept(w.Seen(pages)), hasMore, cutoff))
  {
    FoundIsPrefix(w, pages);
  }

  lemma {:induction false} ContinueIsSound(w: Walk, pages: nat)
    requires pages == 0 || (pages <= w.maxPages && w.More(pages))
    ensures Sound(w, Continue(w, pages))
    decreases w.maxPages - pages
  {
    var r := Continue(w, pages);
    if pages >= w.maxPages || pages in w.cancelled || pages in w.late || pages in w.failing {
      if r.Walked? {
        EndIsSound(w, pages, r.hasMore, r.cutoff);
      }
    } else if !w.BeyondLimit(pages + 1) && w.More(pages + 1)
              && w.Weight(w.Seen(pages + 1)) <= BYTE_BUDGET {
      ContinueIsSound(w, pages + 1);
    } else {
      EndIsSound(w, pages + 1, r.hasMore, r.cutoff);
    }
  }

  /**
   * Whatever cutoff fires, the records are a prefix of the window asked for; no more to come means the records
   * are everything past the offset; and the limit cutoff means that a further match exists.
   */
  lemma WalkIsSound(w: Walk)
    ensures Sound(w, Continue(w, 0))
  {
    ContinueIsSound(w, 0);
  }

  /** "No more" can be believed exactly when at least one page may be read, or nothing matches past the offset. */
  lemma NoMoreMeansAll(w: Walk)
    requires Continue(w, 0).Walked?
    ensures var r := Continue(w, 0);
            (r.hasMore || r.records == Drop(w.All(), w.offset)) <==> (w.maxPages > 0 || |w.All()| <= w.offset)
  {
    WalkIsSound(w);
    assert w.upstream[..0] == [];
  }

  /** The page budget the tool passes: the configured one, or a default when it is not positive. */
  function EffectiveMaxPages(configured: int): (pages: int)
    ensures pages > 0 && pages == if configured > 0 then configured else 50
  {
    if configured > 0 then configured else DEFAULT_MAX_PAGES
  }

  /** So as the tool calls it, a walk that announces no more has returned everything past the offset. */
  lemma ToolCanBelieveNoMore(w: Walk, configured: int)
    requires w.maxPages == EffectiveMaxPages(configured) && Continue(w, 0).Walked?
    ensures Continue(w, 0).hasMore || Continue(w, 0).records == Drop(w.All(), w.offset)
  {
    NoMoreMeansAll(w);
  }

  /** A walk of no pages hides a match. */
  lemma NoPagesHideAMatch()
    ensures var row := Entry(1, "", "", "");
            var w := Walk([row], Filter("", 0, 0, imap[]), 20, 0, 0, iset{}, iset{}, iset{});
            w.All() == [row] && Continue(w, 0) == Walked([], false, Pages)
  {
    var row := Entry(1, "", "", "");
    assert [row][..0] == [];
    assert Matching([], Filter("", 0, 0, imap[])) == [];
  }

  // Filtering and windows, each fixed by its laws

  lemma {:induction false} MatchingMeans(a: seq<Entry>, b: seq<Entry>, e: Entry, f: Filter)
    ensures Matching(a + b, f) == Matching(a, f) + Matching(b, f)
    ensures Matching([e], f) == (if Matches(e, f) then [e] else []) && Matching([], f) == []
  {
    assert [e][..0] == [];
    if b == [] {
      assert a + b == a;
    } else {
      assert (a + b)[..|a + b| - 1] == a + b[..|b| - 1];
      MatchingMeans(a, b[..|b| - 1], e, f);
    }
  }

  lemma WindowMeans(s: seq<Entry>, offset: nat, limit: nat, i: nat)
    ensures |Window(s, offset, limit)| == if |s| <= offset then 0 else if |s| - offset <= limit then |s| - offset else limit
    ensures i < |Window(s, offset, limit)| ==> Window(s, offset, limit)[i] == s[offset + i]
  {
  }

  lemma WeightMeans(w: Walk, n: nat)
    requires n < |w.upstream|
    ensures w.Weight(0) == 0
    ensures var e := w.upstream[n]; w.Weight(n + 1) == w.Weight(n) + |e.data| + |e.endpoint| + |e.timestamp|
  {
  }

  // What ends a walk

  /** Page `p` is read and nothing stops the walk there: the budgets are not spent, and the limit is not passed. */
  ghost predicate GoesOn(w: Walk, p: nat) {
    && p < w.maxPages && p !in w.cancelled && p !in w.late && p !in w.failing
    && w.Count(w.Seen(p + 1)) <= w.offset + w.limit
    && w.Weight(w.Seen(p + 1)) <= 2_097_152
    && (p + 1) * 100 < |w.upstream|
  }

  /** The outcome of a walk that goes on until page `p`, and no further. */
  ghost predicate StopsAt(w: Walk, p: nat, r: Outcome) {
    var rows, more := w.Kept(w.Seen(p + 1)), (p + 1) * 100 < |w.upstream|;
    if p >= w.maxPages then
      r == Walked(w.Kept(w.Seen(p)), p == w.maxPages && p > 0 && p * 100 < |w.upstream|, Pages)
    else if p in w.cancelled then r == Failed
    else if p in w.late then r == Walked(w.Kept(w.Seen(p)), true, Clock)
    else if p in w.failing then r == Failed
    else if w.Count(w.Seen(p + 1)) > w.offset + w.limit then r == Walked(rows, true, Limit)
    else if w.Weight(w.Seen(p + 1)) > 2_097_152 then r == Walked(rows, more, Bytes)
    else !more && r == Walked(rows, false, End)
  }

  lemma {:induction false} ContinueStops(w: Walk, pages: nat) returns (p: nat)
    ensures pages <= p && !GoesOn(w, p) && StopsAt(w, p, Continue(w, pages))
    ensures forall k :: pages <= k < p ==> GoesOn(w, k)
    decreases w.maxPages - pages
  {
    p := pages;
    if GoesOn(w, pages) {
      p := ContinueStops(w, pages + 1);
    }
  }

  /** A walk ends at the first page at which something stops it, and that decides what is returned. */
  lemma WalkStopsAtFirstReason(w: Walk) returns (p: nat)
    ensures !GoesOn(w, p) && (forall k: nat :: k < p ==> GoesOn(w, k)) && StopsAt(w, p, Continue(w, 0))
  {
    p := ContinueStops(w, 0);
  }

  /** After some pages of a hundred rows the walk has seen as many, or all there are. */
  lemma PagesOfAHundred(w: Walk, pages: nat)
    ensures w.Seen(pages) == if 100 * pages <= |w.upstream| then 100 * pages else |w.upstream|
  {
  }

  // Walks that no byte or time cutoff ends

  ghost predicate Uncut(r: Outcome) { r.Walked? && r.cutoff != Bytes && r.cutoff != Clock }

  /** What such a walk returns, told from its page budget alone. */
  ghost function WithinPages(w: Walk): Outcome
    requires w.maxPages > 0
  {
    if w.BeyondLimit(w.maxPages) then Walked(w.Wanted(), true, Limit)
    else if !w.More(w.maxPages) then Walked(w.Wanted(), false, End)
    else Walked(w.Kept(w.Seen(w.maxPages)), true, Pages)
  }

  lemma BeyondAtPage(w: Walk, page: nat)
    requires 0 < page <= w.maxPages && w.BeyondLimit(page)
    ensures WithinPages(w) == Walked(w.Kept(w.Seen(page)), true, Limit)
  {
    FoundIsPrefix(w, page);
    PastLimitNothingIsKept(w, w.Seen(page), w.Seen(w.maxPages));
  }

  lemma EndAtPage(w: Walk, page: nat)
    requires 0 < page <= w.maxPages && !w.BeyondLimit(page) && !w.More(page)
    ensures WithinPages(w) == Walked(w.Kept(w.Seen(page)), false, End)
  {
    FoundIsPrefix(w, page);
    assert w.Seen(page) == w.Seen(w.maxPages);
  }

  lemma {:induction false} UncutFrom(w: Walk, pages: nat)
    requires pages <= w.maxPages && Uncut(Continue(w, pages)) && w.maxPages > 0
    requires pages > 0 ==> w.More(pages) && !w.BeyondLimit(pages)
    ensures Continue(w, pages) == WithinPages(w)
    decreases w.maxPages - pages
  {
    if pages < w.maxPages {
      if w.BeyondLimit(pages + 1) {
        BeyondAtPage(w, pages + 1);
      } else if !w.More(pages + 1) {
        EndAtPage(w, pages + 1);
      } else {
        UncutFrom(w, pages + 1);
      }
    }
  }

  lemma KeptLength(w: Walk, n: nat)
    requires n <= |w.upstream|
    ensures |w.Kept(n)| == if w.Count(n) <= w.offset then 0 else if w.Count(n) <= w.offset + w.limit then w.Count(n) - w.offset else w.limit
  {
    KeptIsWindow(w, n);
  }

  /** `hasMore`, although everything past the offset has been returned. */
  ghost predicate FalseAlarm(w: Walk, r: Outcome) { r.Walked? && r.hasMore && r.records == Drop(w.All(), w.offset) }

  /** If no byte or time cutoff ends the walk, `hasMore` is a false alarm exactly when the pages that may be
      read do not cover upstream, what matches fits the limit, and no match past the offset lies beyond them. */
  lemma FalseAlarmExactly(w: Walk)
    requires Uncut(Continue(w, 0)) && w.maxPages > 0
    ensures FalseAlarm(w, Continue(w, 0))
            <==> (&& w.maxPages * PAGE < |w.upstream| && |w.All()| <= w.offset + w.limit
                  && (|w.All()| <= w.offset || w.Count(w.Seen(w.maxPages)) == |w.All()|))
  {
    UncutFrom(w, 0);
    FoundIsPrefix(w, w.maxPages);
    KeptLength(w, w.Seen(w.maxPages));
    WantedIsPrefix(w);
  }

  lemma WantedIsPrefix(w: Walk)
    ensures w.Wanted() <= Drop(w.All(), w.offset)
    ensures |Drop(w.All(), w.offset)| == if |w.All()| <= w.offset then 0 else |w.All()| - w.offset
    ensures |w.Wanted()| == if |Drop(w.All(), w.offset)| <= w.limit then |Drop(w.All(), w.offset)| else w.limit
  {
  }

  /** One page may be read, upstream has one row more, and nothing matches: more is announced. */
  lemma PageBudgetFalseAlarm()
    ensures var w := OneTooMany();
            && w.All() == [] && Continue(w, 0) == Walked([], true, Pages) && FalseAlarm(w, Continue(w, 0))
  {
    var w := OneTooMany();
    NothingMatches(w.upstream, w.filter);
    CountsOfNothing(w, PAGE);
    assert w.Kept(PAGE) == [];
  }

  function OneTooMany(): Walk {
    Walk(seq(101, _ => Entry(0, "", "", "")), Filter("/api/", 0, 0, imap[]), 20, 0, 1, iset{}, iset{}, iset{})
  }

  lemma {:induction false} NothingMatches(s: seq<Entry>, f: Filter)
    requires forall i :: 0 <= i < |s| ==> !Matches(s[i], f)
    ensures Matching(s, f) == []
  {
    if s != [] {
      NothingMatches(s[..|s| - 1], f);
    }
  }

  lemma {:induction false} CountsOfNothing(w: Walk, n: nat)
    requires n <= |w.upstream| && forall i :: 0 <= i < |w.upstream| ==> !Matches(w.upstream[i], w.filter) && WeightOf(w.upstream[i]) == 0
    ensures w.Count(n) == 0 && w.Kept(n) == [] && w.Weight(n) == 0
  {
    if n > 0 {
      CountsOfNothing(w, n - 1);
    }
  }

  // Quiet walks

  /** Nothing interrupts the walk and the page and byte budgets cover the whole history. */
  ghost predicate Quiet(w: Walk) {
    && w.cancelled == w.late == w.failing == iset{}
    && w.maxPages > 0 && w.maxPages * PAGE >= |w.upstream|
    && w.Weight(|w.upstream|) <= BYTE_BUDGET
  }

  lemma {:induction false} WeightGrows(w: Walk, n: nat, m: nat)
    requires n <= m <= |w.upstream|
    ensures w.Weight(n) <= w.Weight(m)
  {
    if n < m {
      WeightGrows(w, n, m - 1);
    }
  }

  lemma {:induction false} QuietIsUncut(w: Walk, pages: nat)
    requires Quiet(w)
    ensures Uncut(Continue(w, pages))
    decreases w.maxPages - pages
  {
    if pages < w.maxPages {
      WeightGrows(w, w.Seen(pages + 1), |w.upstream|);
      QuietIsUncut(w, pages + 1);
    }
  }

  ghost predicate Whole(w: Walk, r: Outcome) {
    && r.Walked? && r.records == w.Wanted()
    && (r.hasMore <==> |w.All()| > w.offset + w.limit)
  }

  /** A quiet walk returns exactly the window asked for, and says exactly whether more follows. */
  lemma QuietWalk(w: Walk)
    requires Quiet(w)
    ensures Whole(w, Continue(w, 0))
  {
    QuietIsUncut(w, 0);
    UncutFrom(w, 0);
    FoundIsPrefix(w, w.maxPages);
  }

  /** Reading on from where the last answer stopped for as long as there is more. */
  function Collect(w: Walk, rest: nat): seq<Entry>
    decreases rest
  {
    var r := Continue(w, 0);
    if !r.Walked? then []
    else if !r.hasMore || rest == 0 then r.records
    else r.records + Collect(w.(offset := w.offset + w.limit), rest - 1)
  }

  lemma {:induction false} CollectFrom(w: Walk, rest: nat)
    requires Quiet(w) && w.limit > 0 && |w.All()| <= w.offset + rest
    ensures Collect(w, rest) == Drop(w.All(), w.offset)
    decreases rest
  {
    QuietWalk(w);
    if |w.All()| > w.offset + w.limit {
      var next := w.(offset := w.offset + w.limit);
      AskFurther(w, next.offset);
      CollectFrom(next, rest - 1);
      CollectStep(w, rest, Collect(next, rest - 1));
    } else {
      WindowIsRest(w.All(), w.offset, w.limit);
    }
  }

  lemma CollectStep(w: Walk, rest: nat, tail: seq<Entry>)
    requires Whole(w, Continue(w, 0)) && |w.All()| > w.offset + w.limit && rest > 0
    requires tail == Collect(w.(offset := w.offset + w.limit), rest - 1) == Drop(w.All(), w.offset + w.limit)
    ensures Collect(w, rest) == Drop(w.All(), w.offset)
  {
    WindowThenRest(w.All(), w.offset, w.limit);
  }

  lemma WindowIsRest(s: seq<Entry>, offset: nat, limit: nat)
    requires |s| <= offset + limit
    ensures Window(s, offset, limit) == Drop(s, offset)
  {}

  lemma AskFurther(w: Walk, offset: nat)
    requires Quiet(w)
    ensures Quiet(w.(offset := offset)) && w.(offset := offset).All() == w.All()
  {
    WeightIsFixed(w, offset, |w.upstream|);
  }

  lemma {:induction false} WeightIsFixed(w: Walk, offset: nat, n: nat)
    requires n <= |w.upstream|
    ensures w.(offset := offset).Weight(n) == w.Weight(n)
  {
    if n > 0 {
      WeightIsFixed(w, offset, n - 1);
    }
  }

  lemma WindowThenRest(s: seq<Entry>, offset: nat, limit: nat)
    ensures Window(s, offset, limit) + Drop(s, offset + limit) == Drop(s, offset)
  {}

  /** The windows at 0, limit, twice the limit, ... put together are the whole filtered history. */
  lemma WindowsTile(w: Walk)
    requires Quiet(w) && w.limit > 0
    ensures Collect(w.(offset := 0), |w.upstream|) == w.All()
  {
    var start := w.(offset := 0);
    AskFurther(w, 0);
    MatchingIsShorter(w.upstream, w.filter);
    CollectFrom(start, |w.upstream|);
  }

  lemma {:induction false} MatchingIsShorter(s: seq<Entry>, f: Filter)
    ensures |Matching(s, f)| <= |s|
  {
    if s != [] {
      MatchingIsShorter(s[..|s| - 1], f);
    }
  }
}
