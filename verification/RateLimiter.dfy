/** The fixed-window request limiter in front of the authorization endpoints. */
module RateLimiter {

  /** An instant in nanoseconds; 0 stands for the zero instant that marks an absent entry. */
  type Time = int

  const MAX_KEYS := 1024
  const DEFAULT_LIMIT := 10
  const DEFAULT_WINDOW := 60_000_000_000

  datatype Entry = Entry(started: Time, count: int)

  type Table = map<string, Entry>

  datatype Config = Config(limit: int, window: int)

  ghost predicate Proper(c: Config) { c.limit > 0 && c.window > 0 }

  /** A call, the answer to it, and the start of the window it was counted in. */
  datatype Decision = Decision(key: string, now: Time, allowed: bool, started: Time)

  function Active(m: Table, c: Config, now: Time): Table {
    map k | k in m && now - m[k].started < c.window :: m[k]
  }

  function Lookup(m: Table, key: string): Entry {
    if key in m then m[key] else Entry(0, 0)
  }

  /** The table after a call, and what is decided. */
  function Decide(m: Table, c: Config, key: string, now: Time): (Table, Decision) {
    var active := Active(m, c, now);
    var found := Lookup(active, key);
    if found.started == 0 && |active| >= MAX_KEYS then (active, Decision(key, now, false, 0))
    else
      var entry := if found.started == 0 || now - found.started >= c.window then Entry(now, 0) else found;
      (active[key := entry.(count := entry.count + 1)],
       Decision(key, now, entry.count + 1 <= c.limit, entry.started))
  }

  class RequestRateLimiter {
    var entries: Table
    const config: Config

    constructor (limit: int, window: int)
      ensures entries == map[] && Proper(config)
      ensures config.limit == if limit > 0 then limit else 10
      ensures config.window == if window > 0 then window else 60_000_000_000
    {
      entries := map[];
      config := Config(if limit <= 0 then DEFAULT_LIMIT else limit, if window <= 0 then DEFAULT_WINDOW else window);
    }

    method Evict(now: Time)
      modifies this`entries
      ensures entries == Active(old(entries), config, now)
    {
      var todo := entries.Keys;
      while todo != {}
        invariant todo <= entries.Keys
        invariant entries == map k | k in old(entries) && (k in todo || now - old(entries)[k].started < config.window) :: old(entries)[k]
        decreases todo
      {
        var k :| k in todo;
        todo := todo - {k};
        if now - entries[k].started >= config.window {
          entries := entries - {k};
        }
      }
    }

    method Allow(key: string, now: Time) returns (allowed: bool)
      modifies this`entries
      ensures var (after, decision) := Decide(old(entries), config, key, now);
              entries == after && allowed == decision.allowed
    {
      Evict(now);
      var entry := Lookup(entries, key);
      if entry.started == 0 && |entries| >= MAX_KEYS {
        return false;
      }
      if entry.started == 0 || now - entry.started >= config.window {
        entry := Entry(now, 0);
      }
      entry := entry.(count := entry.count + 1);
      entries := entries[key := entry];
      return entry.count <= config.limit;
    }
  }

  // Whole runs

  function After(log: seq<Decision>, c: Config): Table {
    if log == [] then map[]
    else
      var last := log[|log| - 1];
      Decide(After(log[..|log| - 1], c), c, last.key, last.now).0
  }

  /** `log` is what a limiter that starts empty decides, on a clock that never goes back and never
      reads the zero instant. */
  ghost predicate IsRun(log: seq<Decision>, c: Config) {
    log != [] ==>
      var before, last := log[..|log| - 1], log[|log| - 1];
      && IsRun(before, c)
      && last == Decide(After(before, c), c, last.key, last.now).1
      && last.now != 0
      && (before != [] ==> before[|before| - 1].now <= last.now)
  }

  /** The allowed calls of a key that were counted in the window starting at `started`. */
  ghost function InWindow(log: seq<Decision>, key: string, started: Time): set<nat> {
    set i: nat | i < |log| && log[i].key == key && log[i].allowed && log[i].started == started
  }

  /** The allowed calls of a key in the half-open interval from `lo` to `hi`. */
  ghost function AllowedIn(log: seq<Decision>, key: string, lo: Time, hi: Time): set<nat> {
    set i: nat | i < |log| && log[i].key == key && log[i].allowed && lo <= log[i].now < hi
  }

  function Min(a: int, b: int): int { if a <= b then a else b }

  ghost predicate Spaced(s: Time, t: Time, c: Config) { s == t || s + c.window <= t }

  /** What a table remembers of the windows of a key: earlier ones are over, and the current one,
      if there is one, is the latest. */
  ghost predicate RemembersWindows(m: Table, log: seq<Decision>, c: Config, key: string, now: Time) {
    && (key in m ==>
          && m[key].started != 0 && m[key].started <= now
          && forall i :: 0 <= i < |log| && log[i].key == key && log[i].allowed ==> Spaced(log[i].started, m[key].started, c))
    && (key !in m ==>
          forall i :: 0 <= i < |log| && log[i].key == key && log[i].allowed ==> log[i].started + c.window <= now)
  }

  /** Within a key's history: every call is counted in a window that was open at its time, and
      different windows start at least a window apart. */
  ghost predicate WindowsOk(log: seq<Decision>, c: Config, key: string) {
    && (forall i :: 0 <= i < |log| && log[i].key == key && log[i].allowed ==>
          log[i].started <= log[i].now < log[i].started + c.window)
    && (forall i, j :: 0 <= i < j < |log| && log[i].key == key && log[j].key == key && log[i].allowed && log[j].allowed ==>
          Spaced(log[i].started, log[j].started, c))
  }

  /** What one call does to one key: its entry leaves when its window is over, stays as it is when
      another key is called, and otherwise keeps its window or opens one at `now`. */
  lemma KeyThroughDecide(m: Table, c: Config, called: string, now: Time, key: string)
    requires Proper(c) && now != 0 && (key in m ==> m[key].started != 0)
    ensures var (after, d) := Decide(m, c, called, now);
            var open := key in m && now - m[key].started < c.window;
            && (called != key ==> (key in after <==> open) && (open ==> after[key] == m[key]))
            && (called == key && open ==>
                  key in after && after[key] == Entry(m[key].started, m[key].count + 1) && d.started == m[key].started)
            && (called == key && !open ==>
                  && (key in after <==> d.allowed)
                  && (d.allowed ==> after[key] == Entry(now, 1) && d.started == now))
  {
  }

  lemma {:induction false} WindowsAreSpaced(log: seq<Decision>, c: Config, key: string, now: Time)
    requires Proper(c) && IsRun(log, c)
    requires log != [] ==> log[|log| - 1].now <= now
    ensures RemembersWindows(After(log, c), log, c, key, now) && WindowsOk(log, c, key)
  {
    if log != [] {
      var before, last := log[..|log| - 1], log[|log| - 1];
      WindowsAreSpaced(before, c, key, last.now);
      KeyThroughDecide(After(before, c), c, last.key, last.now, key);
      SpacingStep(After(before, c), After(log, c), log, c, key, now);
    }
  }

  lemma SpacingStep(m: Table, after: Table, log: seq<Decision>, c: Config, key: string, now: Time)
    requires Proper(c) && log != [] && log[|log| - 1].now <= now
    requires var (before, last) := (log[..|log| - 1], log[|log| - 1]);
             var open := key in m && last.now - m[key].started < c.window;
             && RemembersWindows(m, before, c, key, last.now) && WindowsOk(before, c, key)
             && last.now != 0
             && (last.key != key || !last.allowed ==> (key in after ==> open) && (open ==> key in after && after[key].started == m[key].started))
             && (last.key == key && last.allowed ==>
                   key in after && after[key].started == last.started == if open then m[key].started else last.now)
    ensures RemembersWindows(after, log, c, key, now) && WindowsOk(log, c, key)
  {
    var before, last := log[..|log| - 1], log[|log| - 1];
    assert forall i :: 0 <= i < |before| ==> log[i] == before[i];
  }

  lemma InWindowStep(log: seq<Decision>, key: string, s: Time)
    requires log != []
    ensures var before, last := log[..|log| - 1], log[|log| - 1];
            |InWindow(log, key, s)| ==
              |InWindow(before, key, s)| + if last.key == key && last.allowed && last.started == s then 1 else 0
  {
    var before, last := log[..|log| - 1], log[|log| - 1];
    assert |log| - 1 !in InWindow(before, key, s);
    assert InWindow(log, key, s) ==
      InWindow(before, key, s) + if last.key == key && last.allowed && last.started == s then {|log| - 1} else {};
  }

  /** A window that opens at `now` has no calls yet. */
  lemma NewWindowIsEmpty(log: seq<Decision>, c: Config, key: string, now: Time)
    requires Proper(c) && IsRun(log, c) && (log != [] ==> log[|log| - 1].now <= now)
    requires key !in Active(After(log, c), c, now)
    ensures InWindow(log, key, now) == {}
  {
    WindowsAreSpaced(log, c, key, now);
  }

  /** The entry of a key counts the calls of its window, and no window exceeds the limit. */
  lemma {:induction false} WindowsAreLimited(log: seq<Decision>, c: Config, key: string, s: Time)
    requires Proper(c) && IsRun(log, c)
    ensures |InWindow(log, key, s)| <= c.limit
    ensures var m := After(log, c);
            key in m && m[key].started == s ==> |InWindow(log, key, s)| == Min(m[key].count, c.limit) && m[key].count > 0
  {
    if log == [] {
      assert InWindow(log, key, s) == {};
    } else {
      var before, last := log[..|log| - 1], log[|log| - 1];
      WindowsAreLimited(before, c, key, s);
      WindowsAreSpaced(before, c, key, last.now);
      InWindowStep(log, key, s);
      if last.key == key && key !in Active(After(before, c), c, last.now) {
        NewWindowIsEmpty(before, c, key, last.now);
      }
    }
  }

  /** The allowed calls of an interval no longer than the window lie in at most two windows. */
  lemma IntervalMeetsTwoWindows(log: seq<Decision>, c: Config, key: string, lo: Time, hi: Time) returns (s: Time, t: Time)
    requires WindowsOk(log, c, key) && hi - lo <= c.window
    ensures AllowedIn(log, key, lo, hi) <= InWindow(log, key, s) + InWindow(log, key, t)
  {
    s, t := 0, 0;
    if i :| i in AllowedIn(log, key, lo, hi) {
      s := log[i].started;
      if j :| j in AllowedIn(log, key, lo, hi) && log[j].started != s {
        t := log[j].started;
        forall k | k in AllowedIn(log, key, lo, hi)
          ensures log[k].started == s || log[k].started == t
        {
        }
      } else {
        assert forall k <- AllowedIn(log, key, lo, hi) :: log[k].started == s;
      }
    }
  }

  /** For any key and any half-open interval no longer than the window, a whole run allows at most
      twice the limit. */
  lemma AtMostTwiceTheLimit(log: seq<Decision>, c: Config, key: string, lo: Time, hi: Time)
    requires Proper(c) && IsRun(log, c) && hi - lo <= c.window
    ensures |AllowedIn(log, key, lo, hi)| <= 2 * c.limit
  {
    if log == [] {
      assert AllowedIn(log, key, lo, hi) == {};
    } else {
      WindowsAreSpaced(log, c, key, log[|log| - 1].now);
      var s, t := IntervalMeetsTwoWindows(log, c, key, lo, hi);
      WindowsAreLimited(log, c, key, s);
      WindowsAreLimited(log, c, key, t);
      SubsetIsSmaller(AllowedIn(log, key, lo, hi), InWindow(log, key, s) + InWindow(log, key, t));
    }
  }

  lemma SubsetIsSmaller(a: set<nat>, b: set<nat>)
    requires a <= b
    ensures |a| <= |b|
  {
    assert b == a + (b - a);
  }

  lemma {:induction false} AtMostMaxKeys(log: seq<Decision>, c: Config)
    ensures |After(log, c)| <= 1024
  {
    if log != [] {
      var before, last := log[..|log| - 1], log[|log| - 1];
      AtMostMaxKeys(before, c);
      var m := After(before, c);
      var active := Active(m, c, last.now);
      assert active.Keys <= m.Keys;
      assert m.Keys == active.Keys + (m.Keys - active.Keys);
      if last.key in active {
        assert After(log, c).Keys == active.Keys;
      } else {
        assert After(log, c).Keys <= active.Keys + {last.key};
      }
    }
  }

  /** A call never touches another key whose window is still open. */
  lemma OpenWindowSurvives(m: Table, c: Config, called: string, now: Time, key: string)
    requires key in m && now - m[key].started < c.window && m[key].started != 0
    ensures key in Decide(m, c, called, now).0
    ensures Decide(m, c, called, now).0[key] == m[key].(count := m[key].count + if called == key then 1 else 0)
  {
  }

  // When a call is allowed, told from the history

  /** Call `i` of the history was counted in a window of its key that is still open at `now`. */
  ghost predicate OpenAt(log: seq<Decision>, c: Config, now: Time, i: nat) {
    i < |log| && log[i].allowed && now < log[i].started + c.window
  }

  /** The keys that have an open window. */
  ghost function OpenKeys(log: seq<Decision>, c: Config, now: Time): set<string> {
    set i: nat | i < |log| && OpenAt(log, c, now, i) :: log[i].key
  }

  /** The table's view of a window is the history's. */
  lemma ActiveIsOpen(log: seq<Decision>, c: Config, key: string, now: Time)
    requires Proper(c) && IsRun(log, c) && (log != [] ==> log[|log| - 1].now <= now)
    ensures key in Active(After(log, c), c, now) <==> key in OpenKeys(log, c, now)
    ensures forall i: nat :: OpenAt(log, c, now, i) && log[i].key == key ==>
              key in After(log, c) && After(log, c)[key].started == log[i].started && log[i].started != 0
  {
    var m := After(log, c);
    WindowsAreSpaced(log, c, key, now);
    if key in Active(m, c, now) {
      WindowsAreLimited(log, c, key, m[key].started);
      assert InWindow(log, key, m[key].started) != {};
      var i :| i in InWindow(log, key, m[key].started);
      assert OpenAt(log, c, now, i);
    }
  }

  /** After any run off the zero instant, a call of a key with an open window is allowed exactly when fewer
      than the limit have been allowed in it, and is counted in that window. */
  lemma AllowedInOpenWindow(log: seq<Decision>, c: Config, key: string, now: Time, i: nat)
    requires Proper(c) && IsRun(log, c) && now != 0 && (log != [] ==> log[|log| - 1].now <= now)
    requires OpenAt(log, c, now, i) && log[i].key == key
    ensures var d := Decide(After(log, c), c, key, now).1;
            && (d.allowed <==> |InWindow(log, key, log[i].started)| < c.limit)
            && d.key == key && d.now == now && d.started == log[i].started
  {
    ActiveIsOpen(log, c, key, now);
    WindowsAreLimited(log, c, key, log[i].started);
  }

  /** And a call of a key without an open window is allowed exactly when fewer than 1024 keys have one; it
      then opens a window at its own instant. */
  lemma AllowedToOpenWindow(log: seq<Decision>, c: Config, key: string, now: Time)
    requires Proper(c) && IsRun(log, c) && now != 0 && (log != [] ==> log[|log| - 1].now <= now)
    requires key !in OpenKeys(log, c, now)
    ensures var d := Decide(After(log, c), c, key, now).1;
            && (d.allowed <==> |OpenKeys(log, c, now)| < 1024)
            && d.key == key && d.now == now && (d.allowed ==> d.started == now)
  {
    var active := Active(After(log, c), c, now);
    forall k: string
      ensures k in active <==> k in OpenKeys(log, c, now)
    {
      ActiveIsOpen(log, c, k, now);
    }
    assert active.Keys == OpenKeys(log, c, now);
  }

  // The zero instant

  /** `n` calls of one key, all at the instant `now`, answered from an empty table. */
  function Burst(c: Config, key: string, now: Time, n: nat): (Table, seq<Decision>) {
    if n == 0 then (map[], [])
    else
      var (m, log) := Burst(c, key, now, n - 1);
      var (after, d) := Decide(m, c, key, now);
      (after, log + [d])
  }

  /** On a clock that reads the zero instant the limiter takes its own entry for an absent one: it
      allows any number of calls. */
  lemma {:induction false} ZeroInstantIsUnlimited(c: Config, key: string, n: nat)
    requires Proper(c)
    ensures var (m, log) := Burst(c, key, 0, n);
            m.Keys <= {key} && |log| == n && forall i :: 0 <= i < n ==> log[i] == Decision(key, 0, true, 0)
    ensures n > 0 ==> Burst(c, key, 0, n).0 == map[key := Entry(0, 1)]
  {
    if n > 0 {
      ZeroInstantIsUnlimited(c, key, n - 1);
      var m := Burst(c, key, 0, n - 1).0;
      assert Active(m, c, 0) == m && (n > 1 ==> m.Keys == {key});
    }
  }

  lemma {:induction false} BurstIsRun(c: Config, key: string, now: Time, n: nat)
    requires now != 0
    ensures var log := Burst(c, key, now, n).1;
            IsRun(log, c) && After(log, c) == Burst(c, key, now, n).0 && (n > 0 ==> log != [] && log[|log| - 1].now == now)
  {
    if n > 0 {
      BurstIsRun(c, key, now, n - 1);
      var (m, log) := Burst(c, key, now, n - 1);
      ExtendRun(log, c, key, now);
      assert Burst(c, key, now, n) == (Decide(m, c, key, now).0, log + [Decide(m, c, key, now).1]);
    }
  }

  lemma ExtendRun(log: seq<Decision>, c: Config, key: string, now: Time)
    requires IsRun(log, c) && now != 0 && (log != [] ==> log[|log| - 1].now <= now)
    ensures var (after, d) := Decide(After(log, c), c, key, now);
            IsRun(log + [d], c) && After(log + [d], c) == after && (log + [d])[|log + [d]| - 1].now == now
  {
    var d := Decide(After(log, c), c, key, now).1;
    assert (log + [d])[..|log + [d]| - 1] == log;
  }

  /** At most twice the limit of `n` calls at the instant `now` is allowed. */
  ghost predicate BurstBounded(c: Config, key: string, now: Time, n: nat) {
    |AllowedIn(Burst(c, key, now, n).1, key, now, now + c.window)| <= 2 * c.limit
  }

  lemma OffZeroIsBounded(c: Config, key: string, now: Time, n: nat)
    requires Proper(c) && now != 0
    ensures BurstBounded(c, key, now, n)
  {
    var log := BurstLog(c, key, now, n);
    AtMostTwiceTheLimit(log, c, key, now, now + c.window);
  }

  lemma BurstLog(c: Config, key: string, now: Time, n: nat) returns (log: seq<Decision>)
    requires now != 0
    ensures log == Burst(c, key, now, n).1 && IsRun(log, c)
  {
    BurstIsRun(c, key, now, n);
    log := Burst(c, key, now, n).1;
  }

  lemma ZeroIsUnbounded(c: Config, key: string, n: nat)
    requires Proper(c) && n > 2 * c.limit
    ensures !BurstBounded(c, key, 0, n)
  {
    ZeroInstantIsUnlimited(c, key, n);
    CountAll(Burst(c, key, 0, n).1, key, c.window);
  }

  /** The bound holds at an instant, for every burst of calls, exactly when it is not the zero one. */
  lemma BoundedExactlyOffZero(c: Config, key: string, now: Time)
    requires Proper(c)
    ensures (forall n: nat :: BurstBounded(c, key, now, n)) <==> now != 0
  {
    if now != 0 {
      forall n: nat ensures BurstBounded(c, key, now, n) {
        OffZeroIsBounded(c, key, now, n);
      }
    } else {
      ZeroIsUnbounded(c, key, 2 * c.limit + 1);
    }
  }

  lemma {:induction false} CountAll(log: seq<Decision>, key: string, window: int)
    requires window > 0 && forall i :: 0 <= i < |log| ==> log[i] == Decision(key, 0, true, 0)
    ensures |AllowedIn(log, key, 0, window)| == |log|
  {
    if log == [] {
      assert AllowedIn(log, key, 0, window) == {};
    } else {
      var before := log[..|log| - 1];
      CountAll(before, key, window);
      assert AllowedIn(log, key, 0, window) == AllowedIn(before, key, 0, window) + {|log| - 1};
    }
  }
}
