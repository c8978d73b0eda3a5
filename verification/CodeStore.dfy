/** Identifiers and the instants at which they expire, and what is left of a history of them. */
module Expiries {
  import opened Common

  type Time = int

  type Table = map<string, Time>

  function Purge(m: Table, now: Time): Table {
    map id | id in m && m[id] > now :: m[id]
  }

  datatype Stamp = Stamp(id: string, expiresAt: Time)

  /** What an operation did: the reading it purged at, if it purged, and the identifier that it then
      added or removed. */
  datatype Touch = Touch(purgedAt: Option<Time>, added: Option<Stamp>, removed: Option<string>)

  function Purged(m: Table, at: Option<Time>): Table { if at.Some? then Purge(m, at.value) else m }

  function Touched(m: Table, t: Touch): Table {
    var live := Purged(m, t.purgedAt);
    var left := if t.removed.Some? then live - {t.removed.value} else live;
    if t.added.Some? then left[t.added.value.id := t.added.value.expiresAt] else left
  }

  function Replay(touches: seq<Touch>): Table {
    if touches == [] then map[] else Touched(Replay(touches[..|touches| - 1]), touches[|touches| - 1])
  }

  /** Only identifiers that are not there are added. */
  ghost predicate AddsOnlyNew(touches: seq<Touch>) {
    touches != [] ==>
      var before, last := touches[..|touches| - 1], touches[|touches| - 1];
      && AddsOnlyNew(before)
      && (last.added.Some? ==> last.added.value.id !in Purged(Replay(before), last.purgedAt))
  }

  lemma ReplayAppended(touches: seq<Touch>, t: Touch)
    ensures Replay(touches + [t]) == Touched(Replay(touches), t)
    ensures AddsOnlyNew(touches) && (t.added.Some? ==> t.added.value.id !in Purged(Replay(touches), t.purgedAt))
            ==> AddsOnlyNew(touches + [t])
  {
    assert (touches + [t])[..|touches + [t]| - 1] == touches;
  }

  predicate LeavesAlone(t: Touch, s: Stamp) {
    (t.purgedAt.Some? ==> t.purgedAt.value < s.expiresAt) && t.removed != Some(s.id)
  }

  /** Told from the history alone: step `j` added an identifier, and no step since has removed it or purged
      at or past its expiry. */
  ghost predicate Held(touches: seq<Touch>, j: nat) {
    && j < |touches| && touches[j].added.Some?
    && forall k :: j < k < |touches| ==> LeavesAlone(touches[k], touches[j].added.value)
  }

  ghost predicate HeldAs(touches: seq<Touch>, j: nat, s: Stamp) { Held(touches, j) && touches[j].added == Some(s) }

  /** An identifier's entry is exactly the one that the history holds. */
  ghost predicate EntryIsHeld(m: Table, touches: seq<Touch>, id: string) {
    && (id in m ==> exists j: nat :: HeldAs(touches, j, Stamp(id, m[id])))
    && (forall j: nat, e: Time :: HeldAs(touches, j, Stamp(id, e)) ==> id in m && m[id] == e)
  }

  lemma HeldThroughStep(touches: seq<Touch>, j: nat, s: Stamp)
    requires touches != [] && j != |touches| - 1
    ensures HeldAs(touches, j, s) <==> HeldAs(touches[..|touches| - 1], j, s) && LeavesAlone(touches[|touches| - 1], s)
  {
    var before := touches[..|touches| - 1];
    assert forall k :: 0 <= k < |before| ==> before[k] == touches[k];
  }

  lemma {:induction false} TableIsHistory(touches: seq<Touch>, id: string)
    requires AddsOnlyNew(touches)
    ensures EntryIsHeld(Replay(touches), touches, id)
  {
    if touches == [] {
      assert Replay(touches) == map[];
    } else {
      var before, last := touches[..|touches| - 1], touches[|touches| - 1];
      TableIsHistory(before, id);
      var m, after := Replay(before), Replay(touches);
      if id in after {
        if last.added.Some? && last.added.value.id == id {
          assert HeldAs(touches, |touches| - 1, Stamp(id, after[id]));
        } else {
          var j: nat :| HeldAs(before, j, Stamp(id, m[id]));
          HeldThroughStep(touches, j, Stamp(id, m[id]));
        }
      }
      forall j: nat, e: Time | HeldAs(touches, j, Stamp(id, e))
        ensures id in after && after[id] == e
      {
        if j != |touches| - 1 {
          HeldThroughStep(touches, j, Stamp(id, e));
        }
      }
    }
  }

  /** The steps whose identifiers are held and unexpired at `now`. */
  ghost function Unexpired(touches: seq<Touch>, now: Time): set<nat> {
    set j: nat | j < |touches| && Held(touches, j) && now < touches[j].added.value.expiresAt
  }

  /** As many entries survive a purge as the history has unexpired holdings. */
  lemma LiveEntriesAreCounted(touches: seq<Touch>, now: Time)
    requires AddsOnlyNew(touches)
    ensures |Purge(Replay(touches), now)| == |Unexpired(touches, now)|
  {
    var live, steps := Purge(Replay(touches), now), Unexpired(touches, now);
    var pairs := set j <- steps :: (j, touches[j].added.value.id);
    forall j | j in steps
      ensures touches[j].added.value.id in live.Keys && (j, touches[j].added.value.id) in pairs
    {
      var s := touches[j].added.value;
      TableIsHistory(touches, s.id);
      assert HeldAs(touches, j, Stamp(s.id, s.expiresAt));
    }
    forall id | id in live.Keys
      ensures exists j :: (j, id) in pairs
    {
      TableIsHistory(touches, id);
      var j: nat :| HeldAs(touches, j, Stamp(id, live[id]));
      assert (j, touches[j].added.value.id) in pairs;
    }
    forall p, q | p in pairs && q in pairs
      ensures p.0 == q.0 <==> p.1 == q.1
    {
      HoldingsApart(touches, p.0, q.0);
    }
    SameSize(steps, live.Keys, pairs);
  }

  lemma {:induction false} HoldingsApart(touches: seq<Touch>, i: nat, j: nat)
    requires AddsOnlyNew(touches) && Held(touches, i) && Held(touches, j)
    ensures touches[i].added.value.id == touches[j].added.value.id <==> i == j
  {
    if i != j && touches[i].added.value.id == touches[j].added.value.id {
      var early, late := if i < j then i else j, if i < j then j else i;
      NotAddedAgain(touches, early, late);
    }
  }

  lemma {:induction false} NotAddedAgain(touches: seq<Touch>, i: nat, j: nat)
    requires AddsOnlyNew(touches) && i < j < |touches| && Held(touches, i) && touches[j].added.Some?
    ensures touches[j].added.value.id != touches[i].added.value.id
  {
    var before := touches[..|touches| - 1];
    var s := touches[i].added.value;
    HeldThroughStep(touches, i, s);
    if j < |before| {
      NotAddedAgain(before, i, j);
    } else {
      TableIsHistory(before, s.id);
      assert HeldAs(before, i, Stamp(s.id, s.expiresAt));
    }
  }
}

/** The single-use table behind authorization codes and setup sessions.

    Both operations read the clock twice, once to purge and once to check; `purgeAt` and `checkAt`
    are those two readings. */
module CodeStores {
  import opened Common
  import opened Expiries

  const DEFAULT_MAX_CODES := 1024

  datatype StoreResult = Stored | NoId | AlreadyExpired | Full | Exists

  function StoreCode(m: Table, max: int, id: string, expiresAt: Time, purgeAt: Time, checkAt: Time): (Table, StoreResult) {
    var live := Purge(m, purgeAt);
    if id == "" then (live, NoId)
    else if expiresAt <= checkAt then (live, AlreadyExpired)
    else if |live| >= max then (live, Full)
    else if id in live then (live, Exists)
    else (live[id := expiresAt], Stored)
  }

  function ConsumeCode(m: Table, id: string, purgeAt: Time, checkAt: Time): (Table, bool) {
    var live := Purge(m, purgeAt);
    if id in live && live[id] > checkAt then (live - {id}, true) else (live, false)
  }

  class CodeStore {
    var entries: Table
    const max: int

    constructor (maxEntries: int)
      ensures entries == map[] && max == if maxEntries <= 0 then 1024 else maxEntries
    {
      entries := map[];
      max := if maxEntries <= 0 then DEFAULT_MAX_CODES else maxEntries;
    }

    method PurgeExpired(now: Time)
      modifies this`entries
      ensures entries == Purge(old(entries), now)
    {
      var todo := entries.Keys;
      while todo != {}
        invariant todo <= entries.Keys
        invariant entries == map id | id in old(entries) && (id in todo || old(entries)[id] > now) :: old(entries)[id]
        decreases todo
      {
        var id :| id in todo;
        todo := todo - {id};
        if entries[id] <= now {
          entries := entries - {id};
        }
      }
    }

    method Store(id: string, expiresAt: Time, purgeAt: Time, checkAt: Time) returns (r: StoreResult)
      modifies this`entries
      ensures (entries, r) == StoreCode(old(entries), max, id, expiresAt, purgeAt, checkAt)
    {
      PurgeExpired(purgeAt);
      if id == "" {
        return NoId;
      }
      if expiresAt <= checkAt {
        return AlreadyExpired;
      }
      if |entries| >= max {
        return Full;
      }
      if id in entries {
        return Exists;
      }
      entries := entries[id := expiresAt];
      return Stored;
    }

    method Consume(id: string, purgeAt: Time, checkAt: Time) returns (ok: bool)
      modifies this`entries
      ensures (entries, ok) == ConsumeCode(old(entries), id, purgeAt, checkAt)
    {
      PurgeExpired(purgeAt);
      if id !in entries || entries[id] <= checkAt {
        return false;
      }
      entries := entries - {id};
      return true;
    }
  }

  // Whole runs

  datatype Op =
    | DoStore(id: string, expiresAt: Time, purgeAt: Time, checkAt: Time)
    | DoConsume(id: string, purgeAt: Time, checkAt: Time)

  function Apply(m: Table, max: int, op: Op): (Table, bool) {
    match op
    case DoStore(id, expiresAt, purgeAt, checkAt) =>
      var (after, r) := StoreCode(m, max, id, expiresAt, purgeAt, checkAt);
      (after, r.Stored?)
    case DoConsume(id, purgeAt, checkAt) => ConsumeCode(m, id, purgeAt, checkAt)
  }

  function After(ops: seq<Op>, max: int): Table {
    if ops == [] then map[] else Apply(After(ops[..|ops| - 1], max), max, ops[|ops| - 1]).0
  }

  /** How often an identifier has been stored, and how often consumed, with success. */
  function Count(ops: seq<Op>, max: int, id: string, consumed: bool): nat {
    if ops == [] then 0
    else
      var before, op := ops[..|ops| - 1], ops[|ops| - 1];
      Count(before, max, id, consumed)
      + if op.id == id && op.DoConsume? == consumed && Apply(After(before, max), max, op).1 then 1 else 0
  }

  /** What one operation does to one identifier: it only enters by a store and only leaves by a
      consume or by expiry, and a consume succeeds only on an identifier that is there. */
  lemma StepOfId(m: Table, max: int, op: Op, id: string)
    ensures var (after, ok) := Apply(m, max, op);
            && (id in after ==> id in m || (op.DoStore? && op.id == id && ok))
            && (op.DoConsume? && op.id == id && ok ==> id in m && id !in after)
  {
  }

  /** On any clock whatever, an identifier is consumed at most as often as it was stored, once less
      while it is still in the table. */
  lemma {:induction false} ConsumedAtMostAsStored(ops: seq<Op>, max: int, id: string)
    ensures Count(ops, max, id, true) + (if id in After(ops, max) then 1 else 0) <= Count(ops, max, id, false)
  {
    if ops != [] {
      var before, op := ops[..|ops| - 1], ops[|ops| - 1];
      ConsumedAtMostAsStored(before, max, id);
      StepOfId(After(before, max), max, op, id);
    }
  }

  // When an operation succeeds, told from the history

  function TouchOf(m: Table, max: int, op: Op): Touch {
    var ok := Apply(m, max, op).1;
    match op
    case DoStore(id, expiresAt, purgeAt, _) => Touch(Some(purgeAt), if ok then Some(Stamp(id, expiresAt)) else None, None)
    case DoConsume(id, purgeAt, _) => Touch(Some(purgeAt), None, if ok then Some(id) else None)
  }

  /** What the operations of a run added and removed. */
  function Touches(ops: seq<Op>, max: int): seq<Touch> {
    if ops == [] then []
    else Touches(ops[..|ops| - 1], max) + [TouchOf(After(ops[..|ops| - 1], max), max, ops[|ops| - 1])]
  }

  lemma {:induction false} AfterIsReplay(ops: seq<Op>, max: int)
    ensures Replay(Touches(ops, max)) == After(ops, max) && AddsOnlyNew(Touches(ops, max))
  {
    if ops != [] {
      var before, op := ops[..|ops| - 1], ops[|ops| - 1];
      AfterIsReplay(before, max);
      TouchIsApply(After(before, max), max, op);
      ReplayAppended(Touches(before, max), TouchOf(After(before, max), max, op));
    }
  }

  lemma TouchIsApply(m: Table, max: int, op: Op)
    ensures var t := TouchOf(m, max, op);
            && Touched(m, t) == Apply(m, max, op).0
            && (t.added.Some? ==> t.added.value.id !in Purged(m, t.purgedAt))
  {
  }

  /** After any run on any clock, a consume succeeds exactly when some store added the identifier, nothing
      since has consumed it or read the clock at or past its expiry, and neither reading of this one has. */
  lemma ConsumeSucceedsExactly(ops: seq<Op>, max: int, id: string, purgeAt: Time, checkAt: Time)
    ensures ConsumeCode(After(ops, max), id, purgeAt, checkAt).1 <==>
              exists j: nat, e: Time :: HeldAs(Touches(ops, max), j, Stamp(id, e)) && purgeAt < e && checkAt < e
  {
    AfterIsReplay(ops, max);
    TableIsHistory(Touches(ops, max), id);
  }

  /** The identifier is held unexpired at `now`, as the history tells. */
  ghost predicate HeldAt(ops: seq<Op>, max: int, id: string, now: Time) {
    exists j: nat, e: Time :: HeldAs(Touches(ops, max), j, Stamp(id, e)) && now < e
  }

  /** And a store answers for the first reason that there is: no identifier, expired already, as many held
      unexpired as the bound allows, or held itself; and otherwise it succeeds. */
  lemma StoreAnswersExactly(ops: seq<Op>, max: int, id: string, expiresAt: Time, purgeAt: Time, checkAt: Time)
    ensures StoreCode(After(ops, max), max, id, expiresAt, purgeAt, checkAt).1
         == if id == "" then NoId
            else if expiresAt <= checkAt then AlreadyExpired
            else if |Unexpired(Touches(ops, max), purgeAt)| >= max then Full
            else if HeldAt(ops, max, id, purgeAt) then Exists
            else Stored
  {
    AfterIsReplay(ops, max);
    TableIsHistory(Touches(ops, max), id);
    LiveEntriesAreCounted(Touches(ops, max), purgeAt);
  }

  lemma PurgeIsSmaller(m: Table, now: Time)
    ensures |Purge(m, now)| <= |m|
  {
    var live := Purge(m, now);
    assert m.Keys == live.Keys + (m.Keys - live.Keys);
  }

  lemma RemovalIsSmaller(m: Table, id: string)
    ensures |m - {id}| <= |m|
  {
    var rest := m - {id};
    assert m.Keys == rest.Keys + (m.Keys - rest.Keys);
  }

  /** The table never outgrows its bound. */
  lemma {:induction false} NeverOverfull(ops: seq<Op>, max: int)
    requires max > 0
    ensures |After(ops, max)| <= max
  {
    if ops != [] {
      var before, op := ops[..|ops| - 1], ops[|ops| - 1];
      NeverOverfull(before, max);
      PurgeIsSmaller(After(before, max), op.purgeAt);
      if op.DoConsume? {
        RemovalIsSmaller(Purge(After(before, max), op.purgeAt), op.id);
      }
    }
  }
}

/** Replay memory for client assertions: identifiers are remembered until they expire. */
module ReplayStores {
  import opened Common
  import opened Expiries

  /** Presenting an assertion reads the clock once before it takes the lock and once after. */
  datatype Presentation = Presentation(id: string, expiresAt: Time, before: Time, locked: Time)

  function Accept(m: Table, max: int, u: Presentation): (Table, bool) {
    if u.id == "" || u.expiresAt <= u.before then (m, false)
    else
      var live := Purge(m, u.locked);
      if u.id in live || max <= 0 || |live| >= max then (live, false)
      else (live[u.id := u.expiresAt], true)
  }

  class AssertionReplayStore {
    var entries: Table
    const maxEntries: int

    constructor (maxEntries: int)
      ensures entries == map[] && this.maxEntries == maxEntries
    {
      entries := map[];
      this.maxEntries := maxEntries;
    }

    method Use(id: string, expiresAt: Time, before: Time, locked: Time) returns (ok: bool)
      modifies this`entries
      ensures (entries, ok) == Accept(old(entries), maxEntries, Presentation(id, expiresAt, before, locked))
    {
      if id == "" || expiresAt <= before {
        return false;
      }
      var todo := entries.Keys;
      while todo != {}
        invariant todo <= entries.Keys
        invariant entries == map k | k in old(entries) && (k in todo || old(entries)[k] > locked) :: old(entries)[k]
        decreases todo
      {
        var k :| k in todo;
        todo := todo - {k};
        if entries[k] <= locked {
          entries := entries - {k};
        }
      }
      assert entries == Purge(old(entries), locked);
      if id in entries || maxEntries <= 0 || |entries| >= maxEntries {
        return false;
      }
      entries := entries[id := expiresAt];
      return true;
    }
  }

  function After(uses: seq<Presentation>, max: int): Table {
    if uses == [] then map[] else Accept(After(uses[..|uses| - 1], max), max, uses[|uses| - 1]).0
  }

  predicate Accepted(uses: seq<Presentation>, max: int, i: nat)
    requires i < |uses|
  {
    Accept(After(uses[..i], max), max, uses[i]).1
  }

  /** Locked sections follow each other, and a use reads the clock before it is given the lock. */
  ghost predicate Clocked(uses: seq<Presentation>) {
    && (forall i :: 0 <= i < |uses| ==> uses[i].before <= uses[i].locked)
    && (forall i, j :: 0 <= i < j < |uses| ==> uses[i].locked <= uses[j].locked)
  }

  /** The assertion expires between the two clock readings of one use. */
  predicate Straddles(u: Presentation) { u.before < u.expiresAt <= u.locked }

  /** An accepted identifier is remembered as long as the clock has not reached its expiry. */
  lemma {:induction false} AcceptedIsRemembered(uses: seq<Presentation>, max: int, i: nat)
    requires Clocked(uses) && i < |uses| && Accepted(uses, max, i) && uses[|uses| - 1].locked < uses[i].expiresAt
    ensures uses[i].id in After(uses, max) && After(uses, max)[uses[i].id] == uses[i].expiresAt
  {
    var before := uses[..|uses| - 1];
    if i < |before| {
      assert before[..i] == uses[..i];
      AcceptedIsRemembered(before, max, i);
    }
  }

  /** Presenting an accepted assertion again succeeds exactly when it expires between the two clock
      readings of that second use, and there is room. */
  lemma ReplayAcceptedExactlyWhenStraddling(uses: seq<Presentation>, max: int, i: nat, again: Presentation)
    requires Clocked(uses + [again]) && i < |uses| && Accepted(uses, max, i)
    requires again.id == uses[i].id && again.expiresAt == uses[i].expiresAt
    ensures var m := After(uses, max);
            Accept(m, max, again).1 <==>
              Straddles(again) && again.id !in Purge(m, again.locked) && |Purge(m, again.locked)| < max
  {
    var m := After(uses, max);
    assert (uses + [again])[|uses|] == again;
    assert forall k: nat :: k < |uses| ==> (uses + [again])[k] == uses[k];
    if again.locked < again.expiresAt {
      AcceptedIsRemembered(uses, max, i);
    }
  }

  /** If no reading straddles an expiry, in particular if the two readings of each use agree, an
      assertion is accepted at most once, although entries are purged and bounded. */
  lemma AcceptedAtMostOnce(uses: seq<Presentation>, max: int, i: nat, j: nat)
    requires Clocked(uses) && i < j < |uses| && Accepted(uses, max, i) && !Straddles(uses[j])
    requires uses[j].id == uses[i].id && uses[j].expiresAt == uses[i].expiresAt
    ensures !Accepted(uses, max, j)
  {
    assert uses[..j][..i] == uses[..i];
    assert uses[..j] + [uses[j]] == uses[..j + 1];
    ReplayAcceptedExactlyWhenStraddling(uses[..j], max, i, uses[j]);
  }

  /** Two uses that wait for the lock across the expiry are both accepted. */
  lemma StraddlingReplay()
    ensures var u := Presentation("client:jti", 10, 5, 10);
            Clocked([u, u]) && Accepted([u, u], 4096, 0) && Accepted([u, u], 4096, 1)
  {
    var u := Presentation("client:jti", 10, 5, 10);
    assert [u, u][..0] == [] && [u, u][..1] == [u] && [u][..0] == [];
    assert Purge(map[u.id := 10], 10) == map[];
  }

  // When an assertion is accepted, told from the history

  function TouchOf(m: Table, max: int, u: Presentation): Touch {
    if u.id == "" || u.expiresAt <= u.before then Touch(None, None, None)
    else Touch(Some(u.locked), if Accept(m, max, u).1 then Some(Stamp(u.id, u.expiresAt)) else None, None)
  }

  function Touches(uses: seq<Presentation>, max: int): seq<Touch> {
    if uses == [] then []
    else Touches(uses[..|uses| - 1], max) + [TouchOf(After(uses[..|uses| - 1], max), max, uses[|uses| - 1])]
  }

  lemma {:induction false} AfterIsReplay(uses: seq<Presentation>, max: int)
    ensures Replay(Touches(uses, max)) == After(uses, max) && AddsOnlyNew(Touches(uses, max))
  {
    if uses != [] {
      var before := uses[..|uses| - 1];
      AfterIsReplay(before, max);
      ReplayAppended(Touches(before, max), TouchOf(After(before, max), max, uses[|uses| - 1]));
    }
  }

  /** After any run on any clock, an assertion is accepted exactly when it has an identifier, is unexpired at
      its first reading, is not remembered, and fewer than the bound are remembered unexpired. */
  lemma AcceptedExactly(uses: seq<Presentation>, max: int, u: Presentation)
    ensures Accept(After(uses, max), max, u).1 <==>
              && u.id != "" && u.before < u.expiresAt
              && |Unexpired(Touches(uses, max), u.locked)| < max
              && !(exists j: nat, e: Time :: HeldAs(Touches(uses, max), j, Stamp(u.id, e)) && u.locked < e)
  {
    AfterIsReplay(uses, max);
    TableIsHistory(Touches(uses, max), u.id);
    LiveEntriesAreCounted(Touches(uses, max), u.locked);
  }
}
