/** The focus-session ("flight") state machine of background/flight.js.
    A state is the optional current flight plus the most-recent-first history of
    finished flights; every operation is a pure `State -> (State, Result)` step
    that takes the clock reading `now` and the current focus goal as arguments.
    Persistence is a no-op here. */
module Flight {
  import opened Optional
  import C = Constants

  const INFLIGHT: string := "inflight"
  const TURBULENCE: string := "turbulence"

  datatype Outcome = Perfect | Delayed | Fail

  /** The outcome as stored in a record: `'perfect'`, `'delayed'`, `'fail'`. */
  function OutcomeName(o: Outcome): string {
    match o
    case Perfect => "perfect"
    case Delayed => "delayed"
    case Fail => "fail"
  }

  datatype FlightEvent = FlightEvent(kind: string, url: Option<string>, timestamp: int)

  /** The current session. `id` stands for the string `flight-<startedAt>`. */
  datatype Flight = Flight(
    id: int,
    startedAt: int,
    goalSnapshot: Option<string>,
    turbulence: int,
    status: string,
    events: seq<FlightEvent>)

  datatype FlightRecord = FlightRecord(
    id: int,
    goalSnapshot: Option<string>,
    startedAt: int,
    completedAt: int,
    durationMs: int,
    turbulence: int,
    outcome: Outcome)

  datatype State = State(flight: Option<Flight>, history: seq<FlightRecord>)

  /** What `getSnapshot` hands out; absent fields are `None`. */
  datatype Snapshot = Snapshot(
    active: bool,
    status: Option<string>,
    turbulence: int,
    limit: int,
    startedAt: Option<int>,
    goal: Option<string>,
    durationMs: Option<int>,
    id: Option<int>)

  datatype StartResult =
    | Started(flight: Snapshot, history: seq<FlightRecord>)
    | StartRejected(error: string, flight: Snapshot, history: seq<FlightRecord>)

  datatype EndResult =
    | EndRejected(error: string)
    | TooShort(durationMs: int)
    | Landed(record: FlightRecord, flightHistory: seq<FlightRecord>)

  datatype TurbulenceResult =
    | NotApplied
    | Applied
    | ForcedLanding(result: EndResult)

  datatype RollbackResult =
    | RollbackRejected(error: string)
    | RolledBack(flight: Snapshot)

  // ---------------------------------------------------------------- invariant

  /** How many events of the log are turbulence events. */
  function TurbulenceEvents(es: seq<FlightEvent>): nat
    decreases |es|
  {
    if |es| == 0 then 0
    else (if es[0].kind == TURBULENCE then 1 else 0) + TurbulenceEvents(es[1..])
  }

  /** What every reachable state satisfies: an active flight is in flight, its
      turbulence stays below the forced-landing limit and equals the number of
      turbulence events logged; the history never exceeds its cap. */
  predicate Valid(s: State) {
    && |s.history| <= C.HISTORY_LIMIT
    && (s.flight.Some? ==>
          && s.flight.value.status == INFLIGHT
          && 0 <= s.flight.value.turbulence < C.TURBULENCE_LIMIT
          && TurbulenceEvents(s.flight.value.events) == s.flight.value.turbulence)
  }

  // ---------------------------------------------------------------- queries

  /** `isActive()` */
  predicate IsActive(s: State) {
    s.flight.Some? && s.flight.value.status == INFLIGHT
  }

  /** `now - (startedAt || now)`: a zero start time reads as "just now". */
  function Elapsed(f: Flight, now: int): int {
    now - (if f.startedAt == 0 then now else f.startedAt)
  }

  /** `getSnapshot()`: a read-only projection of the current flight. */
  function GetSnapshot(s: State, now: int): (r: Snapshot)
    ensures r.active <==> IsActive(s)
    ensures r.limit == C.TURBULENCE_LIMIT
    ensures s.flight.None? ==>
      r.turbulence == 0 && r.status.None? && r.id.None? && r.startedAt.None? && r.goal.None? && r.durationMs.None?
    ensures s.flight.Some? ==> r.turbulence == s.flight.value.turbulence && r.status == Some(s.flight.value.status)
    ensures s.flight.Some? ==>
      var f := s.flight.value;
      && r.startedAt == Some(f.startedAt)
      && r.goal == f.goalSnapshot
      && r.durationMs == Some(if f.startedAt == 0 then 0 else now - f.startedAt)
      && r.id == Some(f.id)
  {
    match s.flight
    case None => Snapshot(false, None, 0, C.TURBULENCE_LIMIT, None, None, None, None)
    case Some(f) =>
      Snapshot(f.status == INFLIGHT, Some(f.status), f.turbulence, C.TURBULENCE_LIMIT,
               Some(f.startedAt), f.goalSnapshot, Some(Elapsed(f, now)), Some(f.id))
  }

  /** `determineOutcome(turbulence)` */
  function DetermineOutcome(turbulence: int): (o: Outcome)
    ensures o == Perfect <==> turbulence <= 0
    ensures o == Delayed <==> 0 < turbulence < C.TURBULENCE_LIMIT
    ensures o == Fail <==> turbulence >= C.TURBULENCE_LIMIT
  {
    if turbulence <= 0 then Perfect
    else if turbulence < C.TURBULENCE_LIMIT then Delayed
    else Fail
  }

  function Rank(o: Outcome): nat {
    match o
    case Perfect => 0
    case Delayed => 1
    case Fail => 2
  }

  /** More turbulence never gives a better outcome. */
  lemma OutcomeMonotone(t1: int, t2: int)
    requires t1 <= t2
    ensures Rank(DetermineOutcome(t1)) <= Rank(DetermineOutcome(t2))
  {
  }

  // ---------------------------------------------------------------- operations

  /** `start()`: refused while a flight is in progress; otherwise a fresh flight
      with no turbulence that snapshots the current goal. */
  function Start(s: State, task: Option<string>, now: int): (r: (State, StartResult))
    ensures IsActive(s) ==>
      r.0 == s && r.1 == StartRejected("flight-in-progress", GetSnapshot(s, now), s.history)
    ensures !IsActive(s) ==>
      && r.0.flight == Some(Flight(now, now, task, 0, INFLIGHT, []))
      && r.0.history == s.history
      && r.1.Started? && r.1.flight.active && r.1.flight.turbulence == 0
    ensures Valid(s) ==> Valid(r.0)
  {
    if IsActive(s) then
      (s, StartRejected("flight-in-progress", GetSnapshot(s, now), s.history))
    else
      var s' := s.(flight := Some(Flight(now, now, task, 0, INFLIGHT, [])));
      (s', Started(GetSnapshot(s', now), s'.history))
  }

  /** The record `end` writes for flight `f`. */
  function RecordOf(f: Flight, forced: Option<Outcome>, now: int): FlightRecord {
    FlightRecord(f.id, f.goalSnapshot, f.startedAt, now, Elapsed(f, now), f.turbulence,
                 if forced.Some? then forced.value else DetermineOutcome(f.turbulence))
  }

  /** `[record, ...history].slice(0, HISTORY_LIMIT)` */
  function Prepend(rec: FlightRecord, history: seq<FlightRecord>): (h: seq<FlightRecord>)
    ensures |h| == if |history| + 1 <= C.HISTORY_LIMIT then |history| + 1 else C.HISTORY_LIMIT
    ensures h[0] == rec
    ensures forall i :: 1 <= i < |h| ==> h[i] == history[i - 1]
  {
    var all := [rec] + history;
    if |all| <= C.HISTORY_LIMIT then all else all[..C.HISTORY_LIMIT]
  }

  /** `end({forcedOutcome, skipDurationCheck})`: refused without a flight; an
      unforced, unskipped flight shorter than MIN_DURATION_MS is discarded without
      a record; otherwise the flight lands and its record heads the capped history. */
  function End(s: State, forced: Option<Outcome>, skipDurationCheck: bool, now: int): (r: (State, EndResult))
    ensures s.flight.None? ==> r.0 == s && r.1 == EndRejected("no-flight")
    ensures s.flight.Some? && !skipDurationCheck && forced.None?
            && Elapsed(s.flight.value, now) < C.MIN_DURATION_MS ==>
      r.0 == State(None, s.history) && r.1 == TooShort(Elapsed(s.flight.value, now))
    ensures s.flight.Some? && (skipDurationCheck || forced.Some? || Elapsed(s.flight.value, now) >= C.MIN_DURATION_MS)
            ==> r.1.Landed?
    ensures r.1.Landed? ==>
      && r.0.flight.None?
      && r.0.history == r.1.flightHistory
      && 1 <= |r.0.history| <= C.HISTORY_LIMIT
      && |r.0.history| <= |s.history| + 1
      && r.0.history[0] == r.1.record
      && r.0.history[1..] == s.history[..|r.0.history| - 1]
      && r.0.history == Prepend(r.1.record, s.history)
      && r.1.record == RecordOf(s.flight.value, forced, now)
      && r.1.record.turbulence == s.flight.value.turbulence
      && r.1.record.outcome == (if forced.Some? then forced.value else DetermineOutcome(s.flight.value.turbulence))
    ensures s.flight.Some? ==> r.0.flight.None?
    ensures Valid(s) ==> Valid(r.0)
  {
    match s.flight
    case None => (s, EndRejected("no-flight"))
    case Some(f) =>
      var duration := Elapsed(f, now);
      if !skipDurationCheck && forced.None? && duration < C.MIN_DURATION_MS then
        (State(None, s.history), TooShort(duration))
      else
        var rec := RecordOf(f, forced, now);
        var h := Prepend(rec, s.history);
        assert h[1..] == s.history[..|h| - 1];
        (State(None, h), Landed(rec, h))
  }

  /** `registerTurbulence({url})`: nothing happens without an active flight;
      otherwise turbulence goes up by one and one turbulence event is logged, and
      reaching TURBULENCE_LIMIT forces a landing with outcome `fail`. */
  function RegisterTurbulence(s: State, url: Option<string>, now: int): (r: (State, TurbulenceResult))
    ensures !IsActive(s) ==> r == (s, NotApplied)
    ensures IsActive(s) && s.flight.value.turbulence + 1 < C.TURBULENCE_LIMIT ==>
      && r.1 == Applied
      && r.0.history == s.history
      && r.0.flight.Some?
      && r.0.flight.value == s.flight.value.(turbulence := s.flight.value.turbulence + 1,
                                             events := s.flight.value.events + [FlightEvent(TURBULENCE, url, now)])
    ensures IsActive(s) && s.flight.value.turbulence + 1 >= C.TURBULENCE_LIMIT ==>
      && r.0.flight.None?
      && r.1.ForcedLanding? && r.1.result.Landed?
      && r.1.result.record.outcome == Fail
      && r.1.result.record.turbulence == s.flight.value.turbulence + 1
      && r.0.history == Prepend(r.1.result.record, s.history)
    ensures Valid(s) ==> Valid(r.0)
  {
    if !IsActive(s) then (s, NotApplied)
    else
      var f := s.flight.value;
      var f' := f.(turbulence := f.turbulence + 1,
                   events := f.events + [FlightEvent(TURBULENCE, url, now)]);
      TurbulenceEventsAppend(f.events, FlightEvent(TURBULENCE, url, now));
      var s' := s.(flight := Some(f'));
      if f'.turbulence >= C.TURBULENCE_LIMIT then
        var ended := End(s', Some(Fail), true, now);
        (ended.0, ForcedLanding(ended.1))
      else
        (s', Applied)
  }

  /** Index of the last turbulence event, searching from the end of the log. */
  function LastTurbulence(es: seq<FlightEvent>): (r: Option<nat>)
    ensures r.Some? ==> r.value < |es| && es[r.value].kind == TURBULENCE
    ensures r.Some? ==> forall j :: r.value < j < |es| ==> es[j].kind != TURBULENCE
    ensures r.None? ==> forall j :: 0 <= j < |es| ==> es[j].kind != TURBULENCE
    decreases |es|
  {
    if |es| == 0 then None
    else if es[|es| - 1].kind == TURBULENCE then Some(|es| - 1)
    else LastTurbulence(es[..|es| - 1])
  }

  /** The `splice` of `rollbackTurbulence`: remove the most recent turbulence event. */
  function RemoveLastTurbulence(es: seq<FlightEvent>): seq<FlightEvent> {
    match LastTurbulence(es)
    case None => es
    case Some(i) => es[..i] + es[i + 1..]
  }

  /** `rollbackTurbulence()`: refused without an active flight or without
      turbulence; otherwise one unit of turbulence and the last turbulence event
      are taken back. */
  function RollbackTurbulence(s: State, now: int): (r: (State, RollbackResult))
    ensures !IsActive(s) ==> r == (s, RollbackRejected("no-flight"))
    ensures IsActive(s) && s.flight.value.turbulence == 0 ==> r == (s, RollbackRejected("no-turbulence"))
    ensures IsActive(s) && s.flight.value.turbulence != 0 ==>
      && r.1.RolledBack?
      && r.0.history == s.history
      && r.0.flight.Some?
      && r.0.flight.value == s.flight.value.(
           turbulence := if s.flight.value.turbulence - 1 < 0 then 0 else s.flight.value.turbulence - 1,
           events := RemoveLastTurbulence(s.flight.value.events))
    ensures Valid(s) && r.1.RolledBack? ==>
      TurbulenceEvents(r.0.flight.value.events) == TurbulenceEvents(s.flight.value.events) - 1
    ensures Valid(s) ==> Valid(r.0)
  {
    if !IsActive(s) then (s, RollbackRejected("no-flight"))
    else
      var f := s.flight.value;
      if f.turbulence == 0 then (s, RollbackRejected("no-turbulence"))
      else
        var t := if f.turbulence - 1 < 0 then 0 else f.turbulence - 1;
        var f' := f.(turbulence := t, events := RemoveLastTurbulence(f.events));
        var s' := s.(flight := Some(f'));
        assert Valid(s) ==> TurbulenceEvents(f'.events) == TurbulenceEvents(f.events) - 1 by {
          if Valid(s) {
            RemoveLastTurbulenceCount(f.events);
          }
        }
        (s', RolledBack(GetSnapshot(s', now)))
  }

  // ---------------------------------------------------------------- event counting

  lemma {:induction false} TurbulenceEventsConcat(a: seq<FlightEvent>, b: seq<FlightEvent>)
    ensures TurbulenceEvents(a + b) == TurbulenceEvents(a) + TurbulenceEvents(b)
    decreases |a|
  {
    if |a| == 0 {
      assert a + b == b;
    } else {
      assert (a + b)[1..] == a[1..] + b;
      TurbulenceEventsConcat(a[1..], b);
    }
  }

  /** Logging one turbulence event raises the count by exactly one. */
  lemma TurbulenceEventsAppend(es: seq<FlightEvent>, e: FlightEvent)
    requires e.kind == TURBULENCE
    ensures TurbulenceEvents(es + [e]) == TurbulenceEvents(es) + 1
  {
    TurbulenceEventsConcat(es, [e]);
  }

  lemma {:induction false} NoTurbulenceEvents(es: seq<FlightEvent>)
    requires forall j :: 0 <= j < |es| ==> es[j].kind != TURBULENCE
    ensures TurbulenceEvents(es) == 0
    decreases |es|
  {
    if |es| > 0 {
      NoTurbulenceEvents(es[1..]);
    }
  }

  /** The count splits around any position of the log. */
  lemma TurbulenceEventsAround(es: seq<FlightEvent>, i: nat)
    requires i < |es|
    ensures TurbulenceEvents(es) ==
      TurbulenceEvents(es[..i]) + (if es[i].kind == TURBULENCE then 1 else 0) + TurbulenceEvents(es[i + 1..])
  {
    var before, after := es[..i], es[i + 1..];
    assert es == before + ([es[i]] + after);
    TurbulenceEventsConcat(before, [es[i]] + after);
    TurbulenceEventsConcat([es[i]], after);
    assert TurbulenceEvents([es[i]]) == (if es[i].kind == TURBULENCE then 1 else 0) by {
      assert [es[i]][1..] == [];
    }
  }

  /** Rolling back removes exactly one turbulence event whenever there is one. */
  lemma RemoveLastTurbulenceCount(es: seq<FlightEvent>)
    requires TurbulenceEvents(es) > 0
    ensures TurbulenceEvents(RemoveLastTurbulence(es)) == TurbulenceEvents(es) - 1
  {
    var last := LastTurbulence(es);
    if last.None? {
      NoTurbulenceEvents(es);
      assert false;
    }
    var i := last.value;
    TurbulenceEventsAround(es, i);
    TurbulenceEventsConcat(es[..i], es[i + 1..]);
  }

  /** Rolling back only cuts the most recent turbulence event out of the log; the
      events before and after it stay, in order. */
  lemma RemoveLastTurbulenceShape(es: seq<FlightEvent>)
    requires TurbulenceEvents(es) > 0
    ensures LastTurbulence(es).Some?
    ensures var i := LastTurbulence(es).value;
      && es[i].kind == TURBULENCE
      && RemoveLastTurbulence(es) == es[..i] + es[i + 1..]
      && forall j :: i < j < |es| ==> es[j].kind != TURBULENCE
  {
    if LastTurbulence(es).None? {
      NoTurbulenceEvents(es);
      assert false;
    }
  }

  // ---------------------------------------------------------------- scenarios

  /** Register turbulence `n` times in a row (no URL) at the same instant. */
  function RegisterRepeatedly(s: State, n: nat, now: int): State
    decreases n
  {
    if n == 0 then s else RegisterRepeatedly(RegisterTurbulence(s, None, now).0, n - 1, now)
  }

  /** From a fresh flight, fewer than TURBULENCE_LIMIT registrations keep it in
      flight with that much turbulence. */
  lemma {:induction false} RepeatedTurbulenceBelowLimit(s: State, k: nat, n: nat, now: int)
    requires Valid(s) && IsActive(s) && s.flight.value.turbulence == k
    requires k + n < C.TURBULENCE_LIMIT
    ensures IsActive(RegisterRepeatedly(s, n, now))
    ensures RegisterRepeatedly(s, n, now).flight.value.turbulence == k + n
    ensures RegisterRepeatedly(s, n, now).history == s.history
    decreases n
  {
    if n > 0 {
      var s1 := RegisterTurbulence(s, None, now).0;
      RepeatedTurbulenceBelowLimit(s1, k + 1, n - 1, now);
    }
  }

  /** TURBULENCE_LIMIT registrations from a fresh flight force exactly one landing:
      the flight is gone and the history gains one `fail` record carrying
      turbulence == TURBULENCE_LIMIT. */
  lemma LimitRegistrationsForceLanding(s: State, task: Option<string>, now: int)
    requires Valid(s) && !IsActive(s)
    ensures var s0 := Start(s, task, now).0;
            var s4 := RegisterRepeatedly(s0, C.TURBULENCE_LIMIT - 1, now);
            var last := RegisterTurbulence(s4, None, now);
            && last.0.flight.None?
            && last.1.ForcedLanding?
            && last.1.result.Landed?
            && last.1.result.record.outcome == Fail
            && last.1.result.record.turbulence == C.TURBULENCE_LIMIT
            && last.0.history == Prepend(last.1.result.record, s.history)
  {
    var s0 := Start(s, task, now).0;
    RepeatedTurbulenceBelowLimit(s0, 0, C.TURBULENCE_LIMIT - 1, now);
  }
}
