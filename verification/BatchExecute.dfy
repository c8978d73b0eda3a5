/** The bounded-concurrency batch executor as a state machine over its atomic steps.

    Every goroutine of the program is a slot; any slot that can move may move next, the context may
    be cancelled between any two steps, and the clock may advance between any two steps.  An adapter
    is arbitrary: what its calls answer is chosen step by step and recorded in the slot. */
module BatchExecute {
  import opened Common

  type Time = int

  datatype Outcome = Applied | Skipped | Failed | Ambiguous | Unverified

  datatype Result<T> = Result(item: T, outcome: Outcome, attempted: bool, message: string, recovery: string)

  const NOT_ATTEMPTED_MESSAGE :=
    "not attempted: batch context was cancelled or its deadline expired before this item's turn"
  const NOT_ATTEMPTED_RECOVERY := "Re-run a fresh dry run for the remaining items; this item was never touched."
  const FAILED_PREFLIGHT_RECOVERY :=
    "No write was attempted. Prepare a fresh dry run for this item once the reported condition is resolved."
  const AMBIGUOUS_MESSAGE := "mutation attempted; result unknown"
  const UNVERIFIED_MESSAGE := "mutation may have completed but could not be confirmed"
  const BLIND_RETRY_RECOVERY :=
    "Do not retry blindly. Prepare a fresh dry run and inspect current state before deciding what, if anything, still needs to change."

  datatype Preflight = Preflight(skip: bool, reason: string, failed: bool)

  /** What an adapter answers for one item, where it answers by the item alone. */
  datatype Answers = Answers(preflight: Preflight, mutateFails: bool, verifyFails: bool)

  function NotAttempted<T>(item: T): Result<T> {
    Result(item, Unverified, false, NOT_ATTEMPTED_MESSAGE, NOT_ATTEMPTED_RECOVERY)
  }

  /** One item, run alone. */
  function RunOne<T>(item: T, a: Answers): Result<T> {
    if a.preflight.failed then Result(item, Failed, true, a.preflight.reason, FAILED_PREFLIGHT_RECOVERY)
    else if a.preflight.skip then Result(item, Skipped, true, a.preflight.reason, "")
    else if a.mutateFails then Result(item, Ambiguous, true, AMBIGUOUS_MESSAGE, BLIND_RETRY_RECOVERY)
    else if a.verifyFails then Result(item, Unverified, true, UNVERIFIED_MESSAGE, BLIND_RETRY_RECOVERY)
    else Result(item, Applied, true, "", "")
  }

  // Machine

  datatype Call = CallPreflight(answer: Preflight) | CallMutate(failed: bool) | CallVerify(failed: bool)

  datatype Phase =
    | Waiting
    | Dispatched
    | InPreflight(start: Time) | InMutate(start: Time) | InVerify(start: Time)
    | Returned(start: Time)
    | Written
    | Counted(ticket: nat)
    | Done(ticket: nat)

  /** A closure: where it is, the adapter calls that have returned to it, and whether the context
      was already cancelled when it began. */
  datatype Slot = Slot(phase: Phase, calls: seq<Call>, beganCancelled: bool)

  datatype State<T> = State(
    items: seq<T>,
    limit: nat,
    slots: seq<Slot>,
    results: seq<Option<Result<T>>>,
    next: nat,
    permits: nat,
    cancelled: bool,
    completed: nat,
    reports: seq<nat>,
    started: Time,
    now: Time,
    upstream: int)

  function Init<T>(items: seq<T>, concurrency: int, now: Time): State<T> {
    State(items, if concurrency < 1 then 1 else concurrency,
          seq(|items|, _ => Slot(Waiting, [], false)), seq(|items|, _ => None),
          0, 0, false, 0, [], now, now, 0)
  }

  /** What one closure may do next. */
  datatype Move =
    | Begin
    | PreflightReturns(answer: Preflight)
    | MutateReturns(failed: bool)
    | VerifyReturns(failed: bool)
    | AddTime
    | Count
    | Report

  datatype Action = Dispatch | At(i: nat, move: Move) | Cancel | Pass(duration: nat)

  predicate CanMove(p: Phase, m: Move) {
    match m
    case Begin => p.Dispatched?
    case PreflightReturns(_) => p.InPreflight?
    case MutateReturns(_) => p.InMutate?
    case VerifyReturns(_) => p.InVerify?
    case AddTime => p.Returned?
    case Count => p.Written?
    case Report => p.Counted?
  }

  /** The slot after a move, and the result the closure writes to its place, if it writes one. */
  function Moved<T>(slot: Slot, item: T, m: Move, now: Time, cancelled: bool, completed: nat): (Slot, Option<Result<T>>)
    requires CanMove(slot.phase, m)
  {
    match m
    case Begin =>
      if cancelled then (Slot(Written, slot.calls, true), Some(NotAttempted(item)))
      else (slot.(phase := InPreflight(now)), None)
    case PreflightReturns(answer) =>
      var start, calls := slot.phase.start, slot.calls + [CallPreflight(answer)];
      if answer.failed then
        (Slot(Returned(start), calls, slot.beganCancelled), Some(Result(item, Failed, true, answer.reason, FAILED_PREFLIGHT_RECOVERY)))
      else if answer.skip then
        (Slot(Returned(start), calls, slot.beganCancelled), Some(Result(item, Skipped, true, answer.reason, "")))
      else (Slot(InMutate(start), calls, slot.beganCancelled), None)
    case MutateReturns(failed) =>
      var start, calls := slot.phase.start, slot.calls + [CallMutate(failed)];
      if failed then
        (Slot(Returned(start), calls, slot.beganCancelled), Some(Result(item, Ambiguous, true, AMBIGUOUS_MESSAGE, BLIND_RETRY_RECOVERY)))
      else (Slot(InVerify(start), calls, slot.beganCancelled), None)
    case VerifyReturns(failed) =>
      var start, calls := slot.phase.start, slot.calls + [CallVerify(failed)];
      (Slot(Returned(start), calls, slot.beganCancelled),
       Some(if failed then Result(item, Unverified, true, UNVERIFIED_MESSAGE, BLIND_RETRY_RECOVERY)
            else Result(item, Applied, true, "", "")))
    case AddTime => (slot.(phase := Written), None)
    case Count => (slot.(phase := Counted(completed + 1)), None)
    case Report => (slot.(phase := Done(slot.phase.ticket)), None)
  }

  predicate Sized<T>(s: State<T>) { |s.slots| == |s.results| == |s.items| }

  predicate Enabled<T>(s: State<T>, a: Action) {
    Sized(s) &&
    match a
    case Dispatch => s.next < |s.items| && s.permits < s.limit
    case At(i, m) => i < |s.slots| && CanMove(s.slots[i].phase, m) && (m.Report? ==> s.permits > 0)
    case Cancel => true
    case Pass(_) => true
  }

  function Perform<T>(s: State<T>, a: Action): State<T>
    requires Enabled(s, a)
  {
    match a
    case Dispatch =>
      s.(slots := s.slots[s.next := s.slots[s.next].(phase := Phase.Dispatched)], next := s.next + 1, permits := s.permits + 1)
    case At(i, m) =>
      var (slot, written) := Moved(s.slots[i], s.items[i], m, s.now, s.cancelled, s.completed);
      s.(slots := s.slots[i := slot],
         results := if written.Some? then s.results[i := written] else s.results,
         upstream := if m.AddTime? then s.upstream + (s.now - s.slots[i].phase.start) else s.upstream,
         completed := if m.Count? then s.completed + 1 else s.completed,
         reports := if m.Report? then s.reports + [s.slots[i].phase.ticket] else s.reports,
         permits := if m.Report? then s.permits - 1 else s.permits)
    case Cancel => s.(cancelled := true)
    case Pass(duration) => s.(now := s.now + duration)
  }

  predicate Finished<T>(s: State<T>) { forall slot <- s.slots :: slot.phase.Done? }

  /** The calls an item makes when its adapter answers `a`: mutate once, and only after a preflight
      that neither fails nor skips; verify once, and only after a mutation that succeeded. */
  function CallsOf(a: Answers): seq<Call> {
    [CallPreflight(a.preflight)] +
    if a.preflight.failed || a.preflight.skip then []
    else [CallMutate(a.mutateFails)] + if a.mutateFails then [] else [CallVerify(a.verifyFails)]
  }

  /** The answers read off a list of calls; calls that were not made count as successful. */
  function AnswersOf(calls: seq<Call>): Answers
    requires calls != [] && calls[0].CallPreflight?
  {
    Answers(calls[0].answer,
            |calls| > 1 && calls[1].CallMutate? && calls[1].failed,
            |calls| > 2 && calls[2].CallVerify? && calls[2].failed)
  }

  /** The calls are those of a whole run of the item, and `r` is what that run amounts to. */
  predicate Explains<T(==)>(calls: seq<Call>, item: T, r: Result<T>) {
    && calls != [] && calls[0].CallPreflight?
    && calls == CallsOf(AnswersOf(calls))
    && r == RunOne(item, AnswersOf(calls))
  }

  /** What a result tells about the calls that were made, for each outcome, and the other way round: a
      failed or skipped item was only looked at, and everything else was mutated once, the last call
      deciding whether that failed, could not be confirmed, or was confirmed. */
  ghost predicate TellsCalls<T>(item: T, calls: seq<Call>, r: Result<T>) {
    && r.item == item && r.attempted && calls != [] && calls[0].CallPreflight?
    && var looked, last := calls[0].answer, calls[|calls| - 1];
    && (r.outcome == Failed <==> |calls| == 1 && looked.failed)
    && (r.outcome == Skipped <==> |calls| == 1 && !looked.failed && looked.skip)
    && (r.outcome == Ambiguous <==> last == CallMutate(true))
    && (r.outcome == Unverified <==> last == CallVerify(true))
    && (r.outcome == Applied <==> last == CallVerify(false))
    && (|calls| == 1 <==> looked.failed || looked.skip)
    && (|calls| > 1 ==> calls[1].CallMutate? && (|calls| == 2 <==> calls[1].failed))
    && (|calls| > 2 ==> |calls| == 3 && calls[2].CallVerify?)
    && (|calls| == 1 ==> r.message == looked.reason)
    && (r.outcome == Ambiguous ==> r.message == AMBIGUOUS_MESSAGE)
    && (r.outcome == Unverified ==> r.message == UNVERIFIED_MESSAGE)
    && (r.recovery == FAILED_PREFLIGHT_RECOVERY <==> r.outcome == Failed)
    && (r.recovery == BLIND_RETRY_RECOVERY <==> r.outcome == Ambiguous || r.outcome == Unverified)
    && (r.recovery == "" <==> r.outcome == Applied || r.outcome == Skipped)
    && (r.recovery == FAILED_PREFLIGHT_RECOVERY ==> forall c <- calls :: !c.CallMutate?)
  }

  lemma RecoveriesDiffer()
    ensures FAILED_PREFLIGHT_RECOVERY != BLIND_RETRY_RECOVERY && FAILED_PREFLIGHT_RECOVERY != "" && BLIND_RETRY_RECOVERY != ""
    ensures NOT_ATTEMPTED_RECOVERY != ""
  {
    assert |FAILED_PREFLIGHT_RECOVERY| == 102 && |BLIND_RETRY_RECOVERY| == 129 && |NOT_ATTEMPTED_RECOVERY| == 76;
  }

  lemma ExplainedTellsCalls<T>(calls: seq<Call>, item: T, r: Result<T>)
    requires Explains(calls, item, r)
    ensures TellsCalls(item, calls, r)
  {
    RecoveriesDiffer();
  }

  predicate PreflightPassed(calls: seq<Call>) {
    |calls| > 0 && calls[0].CallPreflight? && !calls[0].answer.failed && !calls[0].answer.skip
  }

  predicate Active(p: Phase) { !p.Waiting? && !p.Done? }

  predicate Timed(p: Phase) { p.InPreflight? || p.InMutate? || p.InVerify? || p.Returned? }

  // Slots and their results

  /** What a slot and its result place may look like; `begun` says that it has been dispatched. */
  ghost predicate SlotOk<T>(slot: Slot, r: Option<Result<T>>, item: T, begun: bool, started: Time, now: Time, cancelled: bool) {
    && (begun <==> !slot.phase.Waiting?)
    && (Timed(slot.phase) ==> started <= slot.phase.start <= now && !slot.beganCancelled)
    && match slot.phase
       case Waiting => r.None? && slot.calls == [] && !slot.beganCancelled
       case Dispatched => r.None? && slot.calls == [] && !slot.beganCancelled
       case InPreflight(_) => r.None? && slot.calls == []
       case InMutate(_) => r.None? && |slot.calls| == 1 && PreflightPassed(slot.calls)
       case InVerify(_) =>
         r.None? && |slot.calls| == 2 && PreflightPassed(slot.calls) && slot.calls[1] == CallMutate(false)
       case Returned(_) => r.Some? && Explains(slot.calls, item, r.value)
       case _ =>
         && r.Some?
         && if slot.beganCancelled then cancelled && slot.calls == [] && r.value == NotAttempted(item)
            else Explains(slot.calls, item, r.value)
  }

  ghost predicate SlotsOk<T>(s: State<T>) {
    && Sized(s) && s.next <= |s.items| && s.started <= s.now
    && forall i :: 0 <= i < |s.slots| ==>
         SlotOk(s.slots[i], s.results[i], s.items[i], i < s.next, s.started, s.now, s.cancelled)
  }

  /** One move keeps a slot in order and writes its result place only if that was empty. */
  lemma MoveKeepsSlotOk<T>(slot: Slot, r: Option<Result<T>>, item: T, m: Move, started: Time, now: Time, cancelled: bool, completed: nat)
    requires CanMove(slot.phase, m) && started <= now && SlotOk(slot, r, item, true, started, now, cancelled)
    ensures var (after, written) := Moved(slot, item, m, now, cancelled, completed);
            && SlotOk(after, if written.Some? then written else r, item, true, started, now, cancelled)
            && (written.Some? ==> r.None?)
  {
  }

  lemma SlotsOkInit<T>(items: seq<T>, concurrency: int, now: Time)
    ensures SlotsOk(Init(items, concurrency, now))
  {
  }

  lemma SlotsOkStep<T>(s: State<T>, a: Action)
    requires SlotsOk(s) && Enabled(s, a)
    ensures SlotsOk(Perform(s, a))
    ensures forall i :: 0 <= i < |s.results| && s.results[i].Some? ==> Perform(s, a).results[i] == s.results[i]
  {
    if a.At? {
      MoveKeepsSlotOk(s.slots[a.i], s.results[a.i], s.items[a.i], a.move, s.started, s.now, s.cancelled, s.completed);
    }
  }

  // Counting over slots

  datatype Measure = Busy | Ticketed | Reported | TimedSlots | InFlight(now: Time) | Remaining

  function Weight(p: Phase, m: Measure): int {
    match m
    case Busy => if Active(p) then 1 else 0
    case Ticketed => if p.Counted? || p.Done? then 1 else 0
    case Reported => if p.Done? then 1 else 0
    case TimedSlots => if Timed(p) then 1 else 0
    case InFlight(now) => if Timed(p) then now - p.start else 0
    case Remaining =>
      match p
      case Waiting => 8
      case Dispatched => 7
      case InPreflight(_) => 6
      case InMutate(_) => 5
      case InVerify(_) => 4
      case Returned(_) => 3
      case Written => 2
      case Counted(_) => 1
      case Done(_) => 0
  }

  function Total(slots: seq<Slot>, m: Measure): int {
    if slots == [] then 0 else Total(slots[..|slots| - 1], m) + Weight(slots[|slots| - 1].phase, m)
  }

  lemma {:induction false} TotalUpdate(slots: seq<Slot>, i: nat, slot: Slot, m: Measure)
    requires i < |slots|
    ensures Total(slots[i := slot], m) == Total(slots, m) - Weight(slots[i].phase, m) + Weight(slot.phase, m)
  {
    var last := |slots| - 1;
    if i < last {
      TotalUpdate(slots[..last], i, slot, m);
      assert slots[i := slot][..last] == slots[..last][i := slot];
    } else {
      assert slots[i := slot][..last] == slots[..last];
    }
  }

  /** Time passing adds its duration once per timed slot, and timed slots are busy ones. */
  lemma {:induction false} TotalPass(slots: seq<Slot>, now: Time, duration: nat)
    ensures Total(slots, InFlight(now + duration)) == Total(slots, InFlight(now)) + duration * Total(slots, TimedSlots)
    ensures Total(slots, TimedSlots) <= Total(slots, Busy)
  {
    if slots != [] {
      TotalPass(slots[..|slots| - 1], now, duration);
    }
  }

  lemma {:induction false} TotalOfSame(slots: seq<Slot>, m: Measure, w: int)
    requires forall slot <- slots :: Weight(slot.phase, m) == w
    ensures Total(slots, m) == |slots| * w
  {
    if slots != [] {
      TotalOfSame(slots[..|slots| - 1], m, w);
    }
  }

  ghost predicate Counters<T>(s: State<T>) {
    && Total(s.slots, Busy) == s.permits <= s.limit
    && Total(s.slots, Ticketed) == s.completed
    && Total(s.slots, Reported) == |s.reports|
  }

  /** No more time has been spent upstream than `limit` workers could spend. */
  ghost predicate TimeBounded<T>(s: State<T>) {
    s.upstream + Total(s.slots, InFlight(s.now)) <= s.limit * (s.now - s.started)
  }

  /** The slot an action moves, and what it becomes. */
  function Mover<T>(s: State<T>, a: Action): nat
    requires a.Dispatch? || a.At?
  {
    if a.Dispatch? then s.next else a.i
  }

  lemma TotalStep<T>(s: State<T>, a: Action, m: Measure)
    requires Enabled(s, a) && (a.Dispatch? || a.At?)
    ensures var t, i := Perform(s, a), Mover(s, a);
            i < |s.slots| && |t.slots| == |s.slots| &&
            Total(t.slots, m) == Total(s.slots, m) - Weight(s.slots[i].phase, m) + Weight(t.slots[i].phase, m)
  {
    var t, i := Perform(s, a), Mover(s, a);
    TotalUpdate(s.slots, i, t.slots[i], m);
  }

  /** How a move changes each measure of its slot. */
  lemma MoveWeights<T>(slot: Slot, item: T, m: Move, now: Time, cancelled: bool, completed: nat)
    requires CanMove(slot.phase, m)
    ensures var p, q := slot.phase, Moved(slot, item, m, now, cancelled, completed).0.phase;
            && Weight(q, Busy) == Weight(p, Busy) - (if m.Report? then 1 else 0)
            && Weight(q, Ticketed) == Weight(p, Ticketed) + (if m.Count? then 1 else 0)
            && Weight(q, Reported) == Weight(p, Reported) + (if m.Report? then 1 else 0)
            && Weight(q, InFlight(now)) == Weight(p, InFlight(now)) - (if m.AddTime? then now - p.start else 0)
            && Weight(q, Remaining) < Weight(p, Remaining)
  {
  }

  lemma CountersStep<T>(s: State<T>, a: Action)
    requires SlotsOk(s) && Counters(s) && Enabled(s, a)
    ensures Counters(Perform(s, a))
  {
    if a.Dispatch? || a.At? {
      TotalStep(s, a, Busy);
      TotalStep(s, a, Ticketed);
      TotalStep(s, a, Reported);
    }
    if a.At? {
      MoveWeights(s.slots[a.i], s.items[a.i], a.move, s.now, s.cancelled, s.completed);
    }
  }

  lemma TimeStep<T>(s: State<T>, a: Action)
    requires SlotsOk(s) && Counters(s) && TimeBounded(s) && Enabled(s, a)
    ensures TimeBounded(Perform(s, a))
  {
    if a.Dispatch? || a.At? {
      SpentTimeIsMoved(s, a);
    } else if a.Pass? {
      PassKeepsBound(s, a.duration);
    }
  }

  /** A closure that stops its clock hands the time over; no other move changes the time spent. */
  lemma SpentTimeIsMoved<T>(s: State<T>, a: Action)
    requires SlotsOk(s) && Enabled(s, a) && (a.Dispatch? || a.At?)
    ensures var t := Perform(s, a);
            t.upstream + Total(t.slots, InFlight(t.now)) == s.upstream + Total(s.slots, InFlight(s.now)) && t.now == s.now
  {
    TotalStep(s, a, InFlight(s.now));
    if a.At? {
      MoveWeights(s.slots[a.i], s.items[a.i], a.move, s.now, s.cancelled, s.completed);
    }
  }

  lemma PassKeepsBound<T>(s: State<T>, duration: nat)
    requires Counters(s) && TimeBounded(s)
    ensures s.upstream + Total(s.slots, InFlight(s.now + duration)) <= s.limit * (s.now - s.started + duration)
  {
    TotalPass(s.slots, s.now, duration);
    TimeGrows(Total(s.slots, TimedSlots), s.limit, s.now - s.started, duration);
  }

  lemma TimeGrows(timed: int, limit: nat, elapsed: int, duration: nat)
    requires timed <= limit
    ensures limit * elapsed + duration * timed <= limit * (elapsed + duration)
  {
    assert duration * timed <= duration * limit;
  }

  // Progress tickets

  function TicketOf(p: Phase): nat {
    match p
    case Counted(t) => t
    case Done(t) => t
    case _ => 0
  }

  predicate Holds(p: Phase) { p.Counted? || p.Done? }

  /** Closures that have counted themselves hold different tickets between 1 and `completed`. */
  ghost predicate TicketsApart(slots: seq<Slot>, completed: nat) {
    && (forall i :: 0 <= i < |slots| ==> TicketOf(slots[i].phase) <= completed)
    && (forall i :: 0 <= i < |slots| && Holds(slots[i].phase) ==> TicketOf(slots[i].phase) >= 1)
    && (forall i, j :: 0 <= i < j < |slots| && TicketOf(slots[i].phase) == TicketOf(slots[j].phase) ==>
          TicketOf(slots[i].phase) == 0)
  }

  ghost predicate DoneWith(slots: seq<Slot>, ticket: nat) {
    exists slot <- slots :: slot.phase == Done(ticket)
  }

  /** The reports are tickets of closures that are done, each once. */
  ghost predicate ReportsApart(slots: seq<Slot>, reports: seq<nat>) {
    && (forall v <- reports :: DoneWith(slots, v))
    && (forall k, l :: 0 <= k < l < |reports| ==> reports[k] != reports[l])
  }

  lemma TicketsStep<T>(s: State<T>, a: Action)
    requires SlotsOk(s) && TicketsApart(s.slots, s.completed) && Enabled(s, a)
    ensures TicketsApart(Perform(s, a).slots, Perform(s, a).completed)
  {
    if a.At? || a.Dispatch? {
      var i, t := Mover(s, a), Perform(s, a);
      if t.completed == s.completed {
        SameTicket(s.slots, s.completed, i, t.slots[i]);
      } else {
        NewTicket(s.slots, s.completed, i, t.slots[i]);
      }
    }
  }

  lemma SameTicket(slots: seq<Slot>, completed: nat, i: nat, slot: Slot)
    requires TicketsApart(slots, completed) && i < |slots|
    requires TicketOf(slot.phase) == TicketOf(slots[i].phase) && (Holds(slot.phase) ==> Holds(slots[i].phase))
    ensures TicketsApart(slots[i := slot], completed)
  {
  }

  lemma NewTicket(slots: seq<Slot>, completed: nat, i: nat, slot: Slot)
    requires TicketsApart(slots, completed) && i < |slots| && TicketOf(slot.phase) == completed + 1
    ensures TicketsApart(slots[i := slot], completed + 1)
  {
  }

  lemma ReportsStep<T>(s: State<T>, a: Action)
    requires SlotsOk(s) && TicketsApart(s.slots, s.completed) && ReportsApart(s.slots, s.reports) && Enabled(s, a)
    ensures ReportsApart(Perform(s, a).slots, Perform(s, a).reports)
  {
    var t := Perform(s, a);
    forall v | v in s.reports
      ensures DoneWith(t.slots, v)
      ensures a.At? && a.move.Report? ==> v != s.slots[a.i].phase.ticket
    {
      var i :| 0 <= i < |s.slots| && s.slots[i].phase == Done(v);
      assert t.slots[i] == s.slots[i];
      assert t.slots[i] in t.slots;
    }
    if a.At? && a.move.Report? {
      assert t.slots[a.i] in t.slots && DoneWith(t.slots, s.slots[a.i].phase.ticket);
    }
  }

  // Whole runs

  /** The actions lead from `s` to `t`. */
  ghost predicate Leads<T>(s: State<T>, actions: seq<Action>, t: State<T>)
    decreases |actions|
  {
    if actions == [] then s == t
    else Enabled(s, actions[0]) && Leads(Perform(s, actions[0]), actions[1..], t)
  }

  ghost predicate Inv<T>(s: State<T>) {
    && SlotsOk(s) && Counters(s) && TimeBounded(s) && s.limit >= 1
    && TicketsApart(s.slots, s.completed) && ReportsApart(s.slots, s.reports)
  }

  lemma InvInit<T>(items: seq<T>, concurrency: int, now: Time)
    ensures Inv(Init(items, concurrency, now))
  {
    var s := Init(items, concurrency, now);
    SlotsOkInit(items, concurrency, now);
    TotalOfSame(s.slots, Busy, 0);
    TotalOfSame(s.slots, Ticketed, 0);
    TotalOfSame(s.slots, Reported, 0);
    TotalOfSame(s.slots, InFlight(now), 0);
  }

  lemma InvStep<T>(s: State<T>, a: Action)
    requires Inv(s) && Enabled(s, a)
    ensures Inv(Perform(s, a))
    ensures Perform(s, a).items == s.items && Perform(s, a).limit == s.limit && Perform(s, a).started == s.started
  {
    SlotsOkStep(s, a);
    CountersStep(s, a);
    TimeStep(s, a);
    TicketsStep(s, a);
    ReportsStep(s, a);
  }

  lemma {:induction false} InvAlways<T>(s: State<T>, actions: seq<Action>, t: State<T>)
    requires Inv(s) && Leads(s, actions, t)
    ensures Inv(t) && t.items == s.items && t.limit == s.limit && t.started == s.started
    decreases |actions|
  {
    if actions != [] {
      InvStep(s, actions[0]);
      InvAlways(Perform(s, actions[0]), actions[1..], t);
    }
  }

  /** How often the actions write place `i`. */
  ghost function Writes<T>(s: State<T>, actions: seq<Action>, i: nat): nat
    decreases |actions|
  {
    if actions == [] || !Enabled(s, actions[0]) then 0
    else (if WritesTo(s, actions[0], i) then 1 else 0) + Writes(Perform(s, actions[0]), actions[1..], i)
  }

  predicate WritesTo<T>(s: State<T>, a: Action, i: nat)
    requires Enabled(s, a)
  {
    a.At? && a.i == i && Moved(s.slots[i], s.items[i], a.move, s.now, s.cancelled, s.completed).1.Some?
  }

  lemma WriteStep<T>(s: State<T>, a: Action, i: nat)
    requires SlotsOk(s) && Enabled(s, a) && i < |s.results|
    ensures WritesTo(s, a, i) ==> s.results[i].None? && Perform(s, a).results[i].Some?
    ensures !WritesTo(s, a, i) ==> Perform(s, a).results[i] == s.results[i]
  {
    if a.At? && a.i == i {
      MoveKeepsSlotOk(s.slots[i], s.results[i], s.items[i], a.move, s.started, s.now, s.cancelled, s.completed);
    }
  }

  lemma {:induction false} WritesFill<T>(s: State<T>, actions: seq<Action>, t: State<T>, i: nat)
    requires Inv(s) && Leads(s, actions, t) && i < |s.results|
    ensures |t.results| == |s.results|
    ensures Writes(s, actions, i) == (if t.results[i].Some? then 1 else 0) - (if s.results[i].Some? then 1 else 0)
    ensures s.results[i].Some? ==> t.results[i] == s.results[i]
    decreases |actions|
  {
    if actions != [] {
      InvStep(s, actions[0]);
      WriteStep(s, actions[0], i);
      WritesFill(Perform(s, actions[0]), actions[1..], t, i);
    }
  }

  /** A place is written at most once in any run, exactly once in a finished one, and keeps what was written. */
  lemma WrittenOnce<T>(items: seq<T>, concurrency: int, start: Time, actions: seq<Action>, t: State<T>, i: nat)
    requires Leads(Init(items, concurrency, start), actions, t) && i < |items|
    ensures Writes(Init(items, concurrency, start), actions, i) <= 1
    ensures Finished(t) ==> Writes(Init(items, concurrency, start), actions, i) == 1
  {
    var s := Init(items, concurrency, start);
    InvInit(items, concurrency, start);
    InvAlways(s, actions, t);
    WritesFill(s, actions, t, i);
    if Finished(t) {
      assert t.slots[i] in t.slots;
    }
  }

  /** A written result stays as it is. */
  lemma ResultsAreFinal<T>(s: State<T>, actions: seq<Action>, t: State<T>, i: nat)
    requires Inv(s) && Leads(s, actions, t) && i < |s.results| && s.results[i].Some?
    ensures Writes(s, actions, i) == 0
    ensures i < |t.results| && t.results[i] == s.results[i]
  {
    WritesFill(s, actions, t, i);
  }

  ghost function BusySlots(slots: seq<Slot>): set<nat> {
    set i: nat | i < |slots| && Active(slots[i].phase)
  }

  ghost function Running<T>(s: State<T>): set<nat> { BusySlots(s.slots) }

  lemma {:induction false} BusyCounts(slots: seq<Slot>)
    ensures |BusySlots(slots)| == Total(slots, Busy)
  {
    if slots == [] {
      assert BusySlots(slots) == {};
    } else {
      var last := |slots| - 1;
      BusyCounts(slots[..last]);
      assert BusySlots(slots) == BusySlots(slots[..last]) + if Active(slots[last].phase) then {last} else {};
    }
  }

  /** How many mutations of the item have been made or are under way. */
  function Mutations(slot: Slot): nat {
    MutateCalls(slot.calls) + if slot.phase.InMutate? then 1 else 0
  }

  function MutateCalls(calls: seq<Call>): nat {
    if calls == [] then 0 else (if calls[0].CallMutate? then 1 else 0) + MutateCalls(calls[1..])
  }

  /** The item's adapter has been called, or is being called. */
  predicate Touched(slot: Slot) {
    slot.calls != [] || slot.phase.InPreflight? || slot.phase.InMutate? || slot.phase.InVerify?
  }

  lemma MutateCallsOfShort(calls: seq<Call>)
    requires |calls| <= 3
    ensures MutateCalls(calls) == (if |calls| > 0 && calls[0].CallMutate? then 1 else 0)
                                  + (if |calls| > 1 && calls[1].CallMutate? then 1 else 0)
                                  + (if |calls| > 2 && calls[2].CallMutate? then 1 else 0)
  {
    if |calls| > 0 && |calls[1..]| > 0 {
      assert calls[1..][1..] == calls[2..];
    }
  }

  /** What a slot in order says about calls that were made and calls under way. */
  lemma SlotIsSafe<T>(slot: Slot, r: Option<Result<T>>, item: T, begun: bool, started: Time, now: Time, cancelled: bool)
    requires SlotOk(slot, r, item, begun, started, now, cancelled)
    ensures slot.beganCancelled ==> cancelled && !Touched(slot)
    ensures Mutations(slot) <= 1
    ensures Mutations(slot) == 1 ==> PreflightPassed(slot.calls)
  {
    MutateCallsOfShort(slot.calls);
  }

  /** At every moment of every run, no more closures run than the limit, which is at least one; the
      adapter is not called, and is not being called, for an item that began after cancellation; and
      counting calls under way, an item is mutated at most once, after a preflight that neither
      failed nor skipped. */
  lemma SafeAtEveryStep<T>(items: seq<T>, concurrency: int, start: Time, actions: seq<Action>, s: State<T>, i: nat)
    requires Leads(Init(items, concurrency, start), actions, s) && i < |items|
    ensures |Running(s)| <= if concurrency < 1 then 1 else concurrency
    ensures |s.slots| == |items|
    ensures s.slots[i].beganCancelled ==> s.cancelled && !Touched(s.slots[i])
    ensures Mutations(s.slots[i]) <= 1
    ensures Mutations(s.slots[i]) == 1 ==> PreflightPassed(s.slots[i].calls)
  {
    InvInit(items, concurrency, start);
    InvAlways(Init(items, concurrency, start), actions, s);
    BusyCounts(s.slots);
    SlotIsSafe(s.slots[i], s.results[i], s.items[i], i < s.next, s.started, s.now, s.cancelled);
  }

  /** The closure has not begun, or it saw the cancellation when it did. */
  predicate NotStarted(slot: Slot) {
    && slot.calls == []
    && (slot.phase.Waiting? || slot.phase.Dispatched?
        || (slot.beganCancelled && (slot.phase.Written? || slot.phase.Counted? || slot.phase.Done?)))
  }

  lemma NotStartedStep<T>(s: State<T>, a: Action, i: nat)
    requires Enabled(s, a) && s.cancelled && i < |s.slots| && NotStarted(s.slots[i])
    requires SlotsOk(s)
    ensures Perform(s, a).cancelled && NotStarted(Perform(s, a).slots[i])
  {
  }

  /** Once the context is cancelled, an item whose closure has not begun is never touched again. */
  lemma {:induction false} CancelledItemsStayUntouched<T>(s: State<T>, actions: seq<Action>, t: State<T>, i: nat)
    requires Inv(s) && Leads(s, actions, t) && s.cancelled && i < |s.slots| && NotStarted(s.slots[i])
    ensures i < |t.slots| && !Touched(t.slots[i]) && NotStarted(t.slots[i])
    decreases |actions|
  {
    if actions != [] {
      InvStep(s, actions[0]);
      NotStartedStep(s, actions[0], i);
      CancelledItemsStayUntouched(Perform(s, actions[0]), actions[1..], t, i);
    }
  }

  /** The same from the start of a run: `before` leads to a cancelled state with item `i` waiting or
      dispatched, and whatever follows, its adapter is never called. */
  lemma NoCallAfterCancellation<T>(items: seq<T>, concurrency: int, start: Time, before: seq<Action>, s: State<T>,
                                   after: seq<Action>, t: State<T>, i: nat)
    requires Leads(Init(items, concurrency, start), before, s) && Leads(s, after, t)
    requires s.cancelled && i < |s.slots| && (s.slots[i].phase.Waiting? || s.slots[i].phase.Dispatched?)
    ensures Sized(t) && i < |t.slots| && !Touched(t.slots[i])
    ensures Finished(t) ==> t.results[i] == Some(NotAttempted(t.items[i]))
  {
    InvInit(items, concurrency, start);
    InvAlways(Init(items, concurrency, start), before, s);
    InvAlways(s, after, t);
    CancelledItemsStayUntouched(s, after, t, i);
    if Finished(t) {
      assert t.slots[i] in t.slots;
    }
  }

  /** Every call that was made got the answer that `a` gives. */
  predicate AnsweredBy(calls: seq<Call>, a: Answers) {
    forall c <- calls ::
      match c
      case CallPreflight(p) => p == a.preflight
      case CallMutate(failed) => failed == a.mutateFails
      case CallVerify(failed) => failed == a.verifyFails
  }

  lemma ExplainedByAnswers<T>(calls: seq<Call>, item: T, r: Result<T>, a: Answers)
    requires Explains(calls, item, r) && AnsweredBy(calls, a)
    ensures r == RunOne(item, a)
  {
    assert calls[0] in calls;
    assert |calls| > 1 ==> calls[1] in calls;
    assert |calls| > 2 ==> calls[2] in calls;
  }

  /** Schedule independence.  With an adapter that answers by the item alone, each place of a
      finished run holds what its item alone gives, or the not-attempted result if the context was
      cancelled when its closure began; nothing else of the schedule shows. */
  lemma ResultsDependOnItemsOnly<T>(items: seq<T>, concurrency: int, start: Time, actions: seq<Action>, s: State<T>,
                                    adapter: seq<Answers>, i: nat)
    requires Leads(Init(items, concurrency, start), actions, s) && Finished(s)
    requires |adapter| == |items| == |s.slots| && i < |items|
    requires AnsweredBy(s.slots[i].calls, adapter[i])
    ensures i < |s.results|
    ensures s.results[i] == Some(if s.slots[i].beganCancelled then NotAttempted(items[i]) else RunOne(items[i], adapter[i]))
    ensures s.slots[i].beganCancelled ==> s.cancelled
  {
    InvInit(items, concurrency, start);
    InvAlways(Init(items, concurrency, start), actions, s);
    assert s.slots[i] in s.slots;
    if !s.slots[i].beganCancelled {
      ExplainedByAnswers(s.slots[i].calls, items[i], s.results[i].value, adapter[i]);
    }
  }

  /** Every result of a finished run tells what was done for its item: nothing, and that it was not
      attempted, exactly where the context was cancelled when the closure began, and otherwise its calls. */
  lemma ResultsTellCalls<T>(items: seq<T>, concurrency: int, start: Time, actions: seq<Action>, s: State<T>, i: nat)
    requires Leads(Init(items, concurrency, start), actions, s) && Finished(s) && i < |items|
    ensures i < |s.slots| == |s.results| && s.results[i].Some?
    ensures var slot, r := s.slots[i], s.results[i].value;
            && r.item == items[i]
            && (r.attempted <==> !slot.beganCancelled) && (r.attempted <==> slot.calls != [])
            && (r.attempted ==> TellsCalls(items[i], slot.calls, r))
            && (!r.attempted ==>
                  s.cancelled && r.outcome == Unverified && r.message == NOT_ATTEMPTED_MESSAGE && r.recovery == NOT_ATTEMPTED_RECOVERY)
  {
    InvInit(items, concurrency, start);
    InvAlways(Init(items, concurrency, start), actions, s);
    assert s.slots[i] in s.slots;
    if !s.slots[i].beganCancelled {
      ExplainedTellsCalls(s.slots[i].calls, items[i], s.results[i].value);
    }
  }

  /** Without cancellation the results are the items run one by one, in order. */
  lemma UncancelledIsSequential<T>(items: seq<T>, concurrency: int, start: Time, actions: seq<Action>, s: State<T>,
                                   adapter: seq<Answers>)
    requires Leads(Init(items, concurrency, start), actions, s) && Finished(s) && !s.cancelled
    requires |adapter| == |items| == |s.slots|
    requires forall i :: 0 <= i < |items| ==> AnsweredBy(s.slots[i].calls, adapter[i])
    ensures |s.results| == |items|
    ensures forall i :: 0 <= i < |items| ==> s.results[i] == Some(RunOne(items[i], adapter[i]))
  {
    InvInit(items, concurrency, start);
    InvAlways(Init(items, concurrency, start), actions, s);
    forall i: nat | i < |items|
      ensures s.results[i] == Some(RunOne(items[i], adapter[i]))
    {
      ResultsDependOnItemsOnly(items, concurrency, start, actions, s, adapter, i);
    }
  }

  ghost predicate Distinct(reports: seq<nat>) {
    forall k, l :: 0 <= k < l < |reports| ==> reports[k] != reports[l]
  }

  ghost function Members(reports: seq<nat>): set<nat> {
    set v | v in reports
  }

  lemma {:induction false} DistinctCount(reports: seq<nat>)
    requires Distinct(reports)
    ensures |Members(reports)| == |reports|
  {
    if reports != [] {
      var before, last := reports[..|reports| - 1], reports[|reports| - 1];
      DistinctCount(before);
      assert Members(reports) == Members(before) + {last};
    }
  }

  ghost function Range(n: nat): (r: set<nat>)
    ensures |r| == n && forall v :: v in r <==> 1 <= v <= n
  {
    if n == 0 then {} else Range(n - 1) + {n}
  }

  /** Distinct numbers from 1 to their count are all the numbers from 1 to their count. */
  lemma DistinctFillTheRange(reports: seq<nat>)
    requires Distinct(reports) && forall v <- reports :: 1 <= v <= |reports|
    ensures forall v :: 1 <= v <= |reports| ==> v in reports
  {
    var seen := Members(reports);
    DistinctCount(reports);
    assert seen <= Range(|reports|);
    assert Range(|reports|) == seen + (Range(|reports|) - seen);
    forall v | 1 <= v <= |reports|
      ensures v in reports
    {
      assert v in Range(|reports|);
    }
  }

  /** A finished run has reported each number from 1 to the number of items exactly once. */
  lemma EveryNumberReportedOnce<T>(items: seq<T>, concurrency: int, start: Time, actions: seq<Action>, s: State<T>)
    requires Leads(Init(items, concurrency, start), actions, s) && Finished(s)
    ensures |s.reports| == |items| && Distinct(s.reports)
    ensures forall v :: 1 <= v <= |items| <==> v in s.reports
  {
    InvInit(items, concurrency, start);
    InvAlways(Init(items, concurrency, start), actions, s);
    TotalOfSame(s.slots, Reported, 1);
    TotalOfSame(s.slots, Ticketed, 1);
    forall v | v in s.reports
      ensures 1 <= v <= |items|
    {
      assert DoneWith(s.slots, v);
      var i :| 0 <= i < |s.slots| && s.slots[i].phase == Done(v);
      assert TicketOf(s.slots[i].phase) == v;
    }
    DistinctFillTheRange(s.reports);
  }

  lemma NothingInFlight<T>(s: State<T>)
    requires TimeBounded(s) && Finished(s)
    ensures s.upstream <= s.limit * (s.now - s.started)
  {
    TotalOfSame(s.slots, InFlight(s.now), 0);
  }

  /** The time a finished run spent upstream is at most its workers times the time it took. */
  lemma UpstreamIsBounded<T>(items: seq<T>, concurrency: int, start: Time, actions: seq<Action>, s: State<T>)
    requires Leads(Init(items, concurrency, start), actions, s) && Finished(s)
    ensures s.upstream <= (if concurrency < 1 then 1 else concurrency) * (s.now - start)
  {
    InvInit(items, concurrency, start);
    InvAlways(Init(items, concurrency, start), actions, s);
    NothingInFlight(s);
  }

  // What the upstream time counts

  /** The time item `i` takes in these actions: from the moment its closure began, which is `began` if that
      was before them, to the moment its time is taken. */
  ghost function ItemTime<T>(s: State<T>, actions: seq<Action>, i: nat, began: Time): int
    decreases |actions|
  {
    if actions == [] || !Enabled(s, actions[0]) then 0
    else
      var a, next := actions[0], Perform(s, actions[0]);
      if a == At(i, Begin) then ItemTime(next, actions[1..], i, s.now)
      else if a == At(i, AddTime) then (s.now - began) + ItemTime(next, actions[1..], i, began)
      else ItemTime(next, actions[1..], i, began)
  }

  ghost function ItemTimes<T>(s: State<T>, actions: seq<Action>, n: nat): int {
    if n == 0 then 0 else ItemTimes(s, actions, n - 1) + ItemTime(s, actions, n - 1, BeganAt(s, n - 1))
  }

  function BeganAt<T>(s: State<T>, i: nat): Time {
    if i < |s.slots| && Timed(s.slots[i].phase) then s.slots[i].phase.start else 0
  }

  /** Only an item whose time is being taken depends on when it began. */
  lemma {:induction false} UntimedForgets<T>(s: State<T>, actions: seq<Action>, i: nat, x: Time, y: Time)
    requires i < |s.slots| && !Timed(s.slots[i].phase)
    ensures ItemTime(s, actions, i, x) == ItemTime(s, actions, i, y)
    decreases |actions|
  {
    if actions != [] && Enabled(s, actions[0]) && actions[0] != At(i, Begin) {
      UntimedForgets(Perform(s, actions[0]), actions[1..], i, x, y);
    }
  }

  /** What the first action adds to an item's time. */
  function Taken<T>(s: State<T>, a: Action, i: nat): int {
    if a == At(i, AddTime) then s.now - BeganAt(s, i) else 0
  }

  lemma ItemTimeStep<T>(s: State<T>, actions: seq<Action>, i: nat)
    requires actions != [] && Enabled(s, actions[0]) && i < |s.slots|
    ensures var next := Perform(s, actions[0]);
            ItemTime(s, actions, i, BeganAt(s, i)) == Taken(s, actions[0], i) + ItemTime(next, actions[1..], i, BeganAt(next, i))
  {
    var next := Perform(s, actions[0]);
    assert |next.slots| == |s.slots|;
    if !Timed(next.slots[i].phase) {
      UntimedForgets(next, actions[1..], i, BeganAt(next, i), BeganAt(s, i));
      UntimedForgets(next, actions[1..], i, BeganAt(next, i), s.now);
    }
  }

  lemma {:induction false} ItemTimesStep<T>(s: State<T>, actions: seq<Action>, n: nat)
    requires actions != [] && Enabled(s, actions[0]) && n <= |s.slots|
    ensures ItemTimes(s, actions, n)
         == ItemTimes(Perform(s, actions[0]), actions[1..], n)
            + (if actions[0].At? && actions[0].i < n then Taken(s, actions[0], actions[0].i) else 0)
  {
    if n > 0 {
      ItemTimesStep(s, actions, n - 1);
      ItemTimeStep(s, actions, n - 1);
    }
  }

  lemma {:induction false} UpstreamFrom<T>(s: State<T>, actions: seq<Action>, t: State<T>)
    requires Leads(s, actions, t)
    ensures t.upstream == s.upstream + ItemTimes(s, actions, |s.slots|)
    decreases |actions|
  {
    if actions == [] {
      NoTimes(s, |s.slots|);
    } else {
      ItemTimesStep(s, actions, |s.slots|);
      UpstreamFrom(Perform(s, actions[0]), actions[1..], t);
    }
  }

  lemma {:induction false} NoTimes<T>(s: State<T>, n: nat)
    ensures ItemTimes(s, [], n) == 0
  {
    if n > 0 {
      NoTimes(s, n - 1);
    }
  }

  /** The upstream time is the sum, over the items, of the time from the moment each began to the moment it was done. */
  lemma UpstreamIsSumOfItems<T>(items: seq<T>, concurrency: int, start: Time, actions: seq<Action>, t: State<T>)
    requires Leads(Init(items, concurrency, start), actions, t)
    ensures t.upstream == ItemTimes(Init(items, concurrency, start), actions, |items|)
  {
    UpstreamFrom(Init(items, concurrency, start), actions, t);
  }

  /** A move that a running closure can make. */
  function NextMove(p: Phase): (m: Move)
    requires Active(p)
    ensures CanMove(p, m)
  {
    match p
    case Dispatched => Begin
    case InPreflight(_) => PreflightReturns(Preflight(false, "", false))
    case InMutate(_) => MutateReturns(false)
    case InVerify(_) => VerifyReturns(false)
    case Returned(_) => AddTime
    case Written => Count
    case _ => Report
  }

  lemma BusyIsPositive<T>(s: State<T>, i: nat)
    requires Counters(s) && i < |s.slots| && Active(s.slots[i].phase)
    ensures s.permits > 0
  {
    BusyCounts(s.slots);
    assert i in Running(s);
  }

  /** No run gets stuck: until it is finished some closure can move or be dispatched, and each such
      step brings the end nearer, whatever it answers. */
  lemma NeverStuck<T>(s: State<T>) returns (a: Action)
    requires Inv(s) && !Finished(s)
    ensures (a.Dispatch? || a.At?) && Enabled(s, a)
    ensures 0 <= Total(Perform(s, a).slots, Remaining) < Total(s.slots, Remaining)
  {
    if i: nat :| i < |s.slots| && Active(s.slots[i].phase) {
      BusyIsPositive(s, i);
      a := At(i, NextMove(s.slots[i].phase));
    } else {
      var slot :| slot in s.slots && !slot.phase.Done?;
      TotalOfSame(s.slots, Busy, 0);
      a := Dispatch;
    }
    EndIsNearer(s, a);
  }

  lemma EndIsNearer<T>(s: State<T>, a: Action)
    requires SlotsOk(s) && Enabled(s, a) && (a.Dispatch? || a.At?)
    ensures 0 <= Total(Perform(s, a).slots, Remaining) < Total(s.slots, Remaining)
  {
    TotalStep(s, a, Remaining);
    RemainingIsNatural(Perform(s, a).slots);
    if a.At? {
      MoveWeights(s.slots[a.i], s.items[a.i], a.move, s.now, s.cancelled, s.completed);
    }
  }

  lemma {:induction false} RemainingIsNatural(slots: seq<Slot>)
    ensures Total(slots, Remaining) >= 0
  {
    if slots != [] {
      RemainingIsNatural(slots[..|slots| - 1]);
    }
  }
}
