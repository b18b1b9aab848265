/** The shutdown race (`drive_shutdown` of src/server.rs) as a timed step system.

  The serving task may end at any time, with or without the shutdown signal. The driver waits for the
  task or for the grace timer, whichever comes first, and then closes the pool. The timer starts when
  the driver notices the marker, which the task sends when the signal fires and drops when it ends.
  Closing has a start, from which on the pool gives out no connection, and a finish, which waits for
  the connections that are still out.
 */
module Shutdown {
  import opened Wrappers

  // Where the driver is: the race is open, the race is decided, the pool is closing, or it is closed.
  datatype Phase = Racing | Decided | Closing | Closed

  // The clock, what has happened when, how often closing was started, how many connections are out,
  // and since when none is.
  datatype State = State(
    now: nat,
    phase: Phase,
    signalAt: Option<nat>,
    endedAt: Option<nat>,
    timerFrom: Option<nat>,
    forcedAt: Option<nat>,
    closingAt: Option<nat>,
    closedAt: Option<nat>,
    closes: nat,
    out: nat,
    freeSince: nat)

  const INITIAL: State := State(0, Racing, None, None, None, None, None, None, 0, 0, 0)

  // Time passes; the signal fires; the task ends; a connection is taken or given back. The driver
  // notices the marker, forces a stop, joins the ended task, starts closing, or finishes it.
  datatype Event = Tick(d: nat) | Signal | End | Take | GiveBack | Notice | Force | Join | StartClose | Finish

  predicate IsDriver(e: Event) {
    e.Notice? || e.Force? || e.Join? || e.StartClose? || e.Finish?
  }

  // When the marker was sent, or dropped with the task.
  function MarkerAt(s: State): Option<nat> {
    if s.signalAt.Some? then s.signalAt else s.endedAt
  }

  predicate IsOpen(s: State) {
    s.phase.Racing? || s.phase.Decided?
  }

  predicate Enabled(s: State, grace: nat, e: Event) {
    match e
    case Tick(_) => true
    case Signal => s.signalAt.None? && s.endedAt.None?
    case End => s.endedAt.None?
    case Take => IsOpen(s)
    case GiveBack => s.out > 0
    case Notice => s.phase.Racing? && s.timerFrom.None? && MarkerAt(s).Some?
    case Force => s.phase.Racing? && s.timerFrom.Some? && s.timerFrom.value + grace <= s.now
    case Join => s.phase.Racing? && s.endedAt.Some?
    case StartClose => s.phase.Decided?
    case Finish => s.phase.Closing? && s.out == 0
  }

  function Next(s: State, grace: nat, e: Event): State
    requires Enabled(s, grace, e)
  {
    match e
    case Tick(d) => s.(now := s.now + d)
    case Signal => s.(signalAt := Some(s.now))
    case End => s.(endedAt := Some(s.now))
    case Take => s.(out := s.out + 1)
    case GiveBack => s.(out := s.out - 1, freeSince := if s.out == 1 then s.now else s.freeSince)
    case Notice => s.(timerFrom := Some(s.now))
    case Force => s.(phase := Decided, forcedAt := Some(s.now))
    case Join => s.(phase := Decided)
    case StartClose => s.(phase := Closing, closingAt := Some(s.now), closes := s.closes + 1)
    case Finish => s.(phase := Closed, closedAt := Some(s.now))
  }

  ghost predicate IsRun(s: State, grace: nat, events: seq<Event>)
    decreases |events|
  {
    events == [] || (Enabled(s, grace, events[0]) && IsRun(Next(s, grace, events[0]), grace, events[1..]))
  }

  function Final(s: State, grace: nat, events: seq<Event>): State
    requires IsRun(s, grace, events)
    decreases |events|
  {
    if events == [] then s else Final(Next(s, grace, events[0]), grace, events[1..])
  }

  // ---------- Safety in every run ----------

  // Happened no later than now.
  ghost predicate Past(t: Option<nat>, now: nat) {
    t.Some? ==> t.value <= now
  }

  // Every recorded moment has passed.
  ghost predicate ClockIsSound(s: State) {
    && Past(s.signalAt, s.now) && Past(s.endedAt, s.now) && Past(s.timerFrom, s.now)
    && Past(s.closingAt, s.now) && Past(s.closedAt, s.now) && s.freeSince <= s.now
  }

  // The timer runs from the marker on, and a forced stop waits for it.
  ghost predicate TimerIsSound(s: State, grace: nat) {
    && (s.timerFrom.Some? ==> MarkerAt(s).Some? && MarkerAt(s).value <= s.timerFrom.value)
    && (s.forcedAt.Some? ==> s.timerFrom.Some? && s.timerFrom.value + grace <= s.forcedAt.value <= s.now)
  }

  // The race is decided by a forced stop or by the end of the task, and closing comes after that.
  ghost predicate RaceIsSound(s: State) {
    && (s.phase.Racing? ==> s.forcedAt.None?)
    && (!s.phase.Racing? && s.forcedAt.None? ==> s.endedAt.Some?)
    && (s.closingAt.Some? ==> (if s.forcedAt.Some? then s.forcedAt else s.endedAt).Some?)
    && (s.closingAt.Some? ==> (if s.forcedAt.Some? then s.forcedAt else s.endedAt).value <= s.closingAt.value)
  }

  // Closing is started once, and finished when no connection is out.
  ghost predicate CloseIsSound(s: State) {
    && (s.closingAt.None? <==> IsOpen(s))
    && (s.closedAt.Some? <==> s.phase.Closed?)
    && s.closes == (if IsOpen(s) then 0 else 1)
    && (s.phase.Closed? ==> s.out == 0 && s.closingAt.value <= s.closedAt.value && s.freeSince <= s.closedAt.value)
  }

  ghost predicate Sound(s: State, grace: nat) {
    ClockIsSound(s) && TimerIsSound(s, grace) && RaceIsSound(s) && CloseIsSound(s)
  }

  lemma NextClockIsSound(s: State, grace: nat, e: Event)
    requires Sound(s, grace) && Enabled(s, grace, e)
    ensures ClockIsSound(Next(s, grace, e))
  {
  }

  lemma NextTimerIsSound(s: State, grace: nat, e: Event)
    requires Sound(s, grace) && Enabled(s, grace, e)
    ensures TimerIsSound(Next(s, grace, e), grace)
  {
  }

  lemma NextRaceIsSound(s: State, grace: nat, e: Event)
    requires Sound(s, grace) && Enabled(s, grace, e)
    ensures RaceIsSound(Next(s, grace, e))
  {
  }

  lemma NextCloseIsSound(s: State, grace: nat, e: Event)
    requires Sound(s, grace) && Enabled(s, grace, e)
    ensures CloseIsSound(Next(s, grace, e))
  {
  }

  lemma NextIsSound(s: State, grace: nat, e: Event)
    requires Sound(s, grace) && Enabled(s, grace, e)
    ensures Sound(Next(s, grace, e), grace)
  {
    NextClockIsSound(s, grace, e);
    NextTimerIsSound(s, grace, e);
    NextRaceIsSound(s, grace, e);
    NextCloseIsSound(s, grace, e);
  }

  lemma {:induction false} RunIsSound(s: State, grace: nat, events: seq<Event>)
    requires Sound(s, grace) && IsRun(s, grace, events)
    ensures Sound(Final(s, grace, events), grace)
    decreases |events|
  {
    if events != [] {
      NextIsSound(s, grace, events[0]);
      RunIsSound(Next(s, grace, events[0]), grace, events[1..]);
    }
  }

  // What is done to a pool that is still in use.
  predicate UsesPool(e: Event) {
    e.Take? || e.StartClose?
  }

  lemma {:induction false} NothingTakenOnceClosing(s: State, grace: nat, events: seq<Event>)
    requires !IsOpen(s) && IsRun(s, grace, events)
    ensures forall i :: 0 <= i < |events| ==> !UsesPool(events[i])
    decreases |events|
  {
    if events != [] {
      NothingTakenOnceClosing(Next(s, grace, events[0]), grace, events[1..]);
      assert forall i :: 1 <= i < |events| ==> events[i] == events[1..][i - 1];
    }
  }

  // From the start of closing on, the pool gives out nothing and is not closed again.
  lemma {:induction false} StartShutsThePool(s: State, grace: nat, events: seq<Event>, i: nat, j: nat)
    requires IsRun(s, grace, events) && i < j < |events| && events[i] == StartClose
    ensures !UsesPool(events[j])
    decreases |events|
  {
    var next := Next(s, grace, events[0]);
    if i == 0 {
      NothingTakenOnceClosing(next, grace, events[1..]);
      assert events[1..][j - 1] == events[j];
    } else {
      StartShutsThePool(next, grace, events[1..], i - 1, j - 1);
    }
  }

  lemma {:induction false} NoDriverAfterClosed(s: State, grace: nat, events: seq<Event>)
    requires s.phase.Closed? && IsRun(s, grace, events)
    ensures forall i :: 0 <= i < |events| ==> !IsDriver(events[i])
    decreases |events|
  {
    if events != [] {
      NoDriverAfterClosed(Next(s, grace, events[0]), grace, events[1..]);
      assert forall i :: 1 <= i < |events| ==> events[i] == events[1..][i - 1];
    }
  }

  // Nothing the driver does comes after the pool is closed.
  lemma {:induction false} FinishIsLast(s: State, grace: nat, events: seq<Event>, i: nat, j: nat)
    requires IsRun(s, grace, events) && i < j < |events| && events[i] == Finish
    ensures !IsDriver(events[j])
    decreases |events|
  {
    var next := Next(s, grace, events[0]);
    if i == 0 {
      NoDriverAfterClosed(next, grace, events[1..]);
      assert events[1..][j - 1] == events[j];
    } else {
      FinishIsLast(next, grace, events[1..], i - 1, j - 1);
    }
  }

  // In every run: closing is started at most once, and exactly once when the driver is done; a
  // forced stop comes only a full grace period after the signal fired or the task ended; without a
  // forced stop closing starts only after the task has ended; and a closed pool has no connection out.
  lemma RunIsSafe(grace: nat, events: seq<Event>)
    requires IsRun(INITIAL, grace, events)
    ensures var s := Final(INITIAL, grace, events);
            && s.closes == (if IsOpen(s) then 0 else 1)
            && (s.forcedAt.Some? ==>
                  || (s.signalAt.Some? && s.signalAt.value + grace <= s.forcedAt.value)
                  || (s.endedAt.Some? && s.endedAt.value + grace <= s.forcedAt.value))
            && (s.closingAt.Some? && s.forcedAt.None? ==> s.endedAt.Some? && s.endedAt.value <= s.closingAt.value)
            && (s.closingAt.Some? && s.forcedAt.Some? ==> s.forcedAt.value <= s.closingAt.value)
            && (s.closedAt.Some? ==> s.out == 0 && s.closingAt.Some? && s.closingAt.value <= s.closedAt.value)
  {
    RunIsSound(INITIAL, grace, events);
  }

  // ---------- The deadline of a prompt driver ----------

  predicate DriverCanMove(s: State, grace: nat) {
    || Enabled(s, grace, Notice) || Enabled(s, grace, Force) || Enabled(s, grace, Join)
    || Enabled(s, grace, StartClose) || Enabled(s, grace, Finish)
  }

  // Time does not pass while the driver can move, nor beyond the end of a running grace period.
  predicate IsPrompt(s: State, grace: nat, e: Event) {
    e.Tick? && e.d > 0 ==>
      && !DriverCanMove(s, grace)
      && (s.phase.Racing? && s.timerFrom.Some? ==> s.now + e.d <= s.timerFrom.value + grace)
  }

  ghost predicate IsPromptRun(s: State, grace: nat, events: seq<Event>)
    requires IsRun(s, grace, events)
    decreases |events|
  {
    events == [] || (IsPrompt(s, grace, events[0]) && IsPromptRun(Next(s, grace, events[0]), grace, events[1..]))
  }

  // The later of the start of closing and the moment the last connection came back.
  function CanFinishAt(s: State): nat
    requires s.closingAt.Some?
  {
    if s.closingAt.value < s.freeSince then s.freeSince else s.closingAt.value
  }

  // A prompt driver noticed the marker when it came, still races only within the grace period, starts
  // closing at once when it can, and finishes when the last connection comes back.
  ghost predicate RacesOnTime(s: State, grace: nat) {
    && (s.timerFrom.Some? && MarkerAt(s).Some? ==> s.timerFrom.value == MarkerAt(s).value)
    && (s.phase.Racing? && MarkerAt(s).Some? ==>
          if s.timerFrom.Some? then s.now <= s.timerFrom.value + grace else s.now == MarkerAt(s).value)
    && (s.phase.Racing? && s.endedAt.Some? ==> s.now == s.endedAt.value)
  }

  ghost predicate ClosesOnTime(s: State, grace: nat) {
    && (s.phase.Decided? ==> MarkerAt(s).Some? && s.now <= MarkerAt(s).value + grace)
    && (s.closingAt.Some? ==> MarkerAt(s).Some? && s.closingAt.value <= MarkerAt(s).value + grace)
    && (s.phase.Closing? && s.out == 0 ==> s.closingAt.Some? && s.now == CanFinishAt(s))
    && (s.phase.Closed? ==> s.out == 0 && s.closingAt.Some? && s.closedAt == Some(CanFinishAt(s)))
  }

  ghost predicate OnTime(s: State, grace: nat) {
    RacesOnTime(s, grace) && ClosesOnTime(s, grace)
  }

  // Time passes for a prompt driver only when it cannot move.
  lemma TimePassesOnly(s: State, grace: nat, e: Event)
    requires Enabled(s, grace, e) && IsPrompt(s, grace, e) && e.Tick? && e.d > 0
    ensures !Enabled(s, grace, Notice) && !Enabled(s, grace, Join)
    ensures !Enabled(s, grace, StartClose) && !Enabled(s, grace, Finish)
  {
  }

  lemma NextRacesOnTime(s: State, grace: nat, e: Event)
    requires Sound(s, grace) && OnTime(s, grace) && Enabled(s, grace, e) && IsPrompt(s, grace, e)
    ensures RacesOnTime(Next(s, grace, e), grace)
  {
    if e.Tick? && e.d > 0 {
      TimePassesOnly(s, grace, e);
    }
  }

  lemma NextClosesOnTime(s: State, grace: nat, e: Event)
    requires Sound(s, grace) && OnTime(s, grace) && Enabled(s, grace, e) && IsPrompt(s, grace, e)
    ensures ClosesOnTime(Next(s, grace, e), grace)
  {
    if e.Tick? && e.d > 0 {
      TimePassesOnly(s, grace, e);
    }
  }

  lemma NextIsOnTime(s: State, grace: nat, e: Event)
    requires Sound(s, grace) && OnTime(s, grace) && Enabled(s, grace, e) && IsPrompt(s, grace, e)
    ensures OnTime(Next(s, grace, e), grace)
  {
    NextRacesOnTime(s, grace, e);
    NextClosesOnTime(s, grace, e);
  }

  lemma {:induction false} PromptRunIsOnTime(s: State, grace: nat, events: seq<Event>)
    requires Sound(s, grace) && OnTime(s, grace) && IsRun(s, grace, events) && IsPromptRun(s, grace, events)
    ensures Sound(Final(s, grace, events), grace) && OnTime(Final(s, grace, events), grace)
    decreases |events|
  {
    if events != [] {
      NextIsSound(s, grace, events[0]);
      NextIsOnTime(s, grace, events[0]);
      PromptRunIsOnTime(Next(s, grace, events[0]), grace, events[1..]);
    }
  }

  // Once the signal has fired, a prompt driver has started to close the pool by the end of the grace
  // period. The pool is closed as soon as it is closing and no connection is out, however long a
  // connection stays out; so it is closed within the grace period exactly if the last one came back
  // within it.
  lemma ClosesByDeadline(grace: nat, events: seq<Event>)
    requires IsRun(INITIAL, grace, events) && IsPromptRun(INITIAL, grace, events)
    ensures var s := Final(INITIAL, grace, events);
            s.signalAt.Some? ==>
              && (s.now > s.signalAt.value + grace ==> s.closingAt.Some?)
              && (s.closingAt.Some? ==> s.closingAt.value <= s.signalAt.value + grace)
              && (s.closingAt.Some? && s.out == 0 && s.now > CanFinishAt(s) ==> s.phase.Closed?)
              && (s.closedAt.Some? ==> s.closingAt.Some? && s.out == 0 && s.closedAt.value == CanFinishAt(s))
              && (s.closedAt.Some? ==>
                    (s.closedAt.value <= s.signalAt.value + grace <==> s.freeSince <= s.signalAt.value + grace))
  {
    PromptRunIsOnTime(INITIAL, grace, events);
  }

  // What a driver left alone does next: it starts closing, joins the ended task, notices the marker,
  // waits out the grace period, or forces the stop. A closing pool waits for its connections.
  function Onward(s: State, grace: nat): Event
    requires !s.phase.Closed?
  {
    if s.phase.Closing? then (if s.out > 0 then GiveBack else Finish)
    else if s.phase.Decided? then StartClose
    else if s.endedAt.Some? then Join
    else if s.timerFrom.None? then Notice
    else if s.now < s.timerFrom.value + grace then Tick(s.timerFrom.value + grace - s.now)
    else Force
  }

  // The steps that are left before closing starts, and after that.
  function Distance(s: State, grace: nat): nat {
    match s.phase
    case Closed => 0
    case Closing => 1 + s.out
    case Decided => 2 + s.out
    case Racing => s.out + if s.timerFrom.None? then 5 else if s.now < s.timerFrom.value + grace then 4 else 3
  }

  lemma OnwardIsPrompt(s: State, grace: nat)
    requires Sound(s, grace) && OnTime(s, grace) && MarkerAt(s).Some? && !s.phase.Closed?
    ensures var e := Onward(s, grace);
            && Enabled(s, grace, e) && IsPrompt(s, grace, e)
            && MarkerAt(Next(s, grace, e)) == MarkerAt(s)
            && Distance(Next(s, grace, e), grace) < Distance(s, grace)
  {
  }

  // From every state of a prompt run in which the signal has fired or the task has ended, the driver
  // can go on, without help from anyone, and start to close the pool within the grace period.
  lemma {:induction false} CanAlwaysClose(s: State, grace: nat) returns (events: seq<Event>)
    requires Sound(s, grace) && OnTime(s, grace) && MarkerAt(s).Some?
    ensures IsRun(s, grace, events) && IsPromptRun(s, grace, events)
    ensures forall i :: 0 <= i < |events| ==> IsDriver(events[i]) || events[i].Tick?
    ensures var last := Final(s, grace, events);
            last.closingAt.Some? && last.closingAt.value <= MarkerAt(s).value + grace
    decreases Distance(s, grace)
  {
    events := [];
    if IsOpen(s) {
      var e := Onward(s, grace);
      OnwardIsPrompt(s, grace);
      NextIsSound(s, grace, e);
      NextIsOnTime(s, grace, e);
      var rest := CanAlwaysClose(Next(s, grace, e), grace);
      events := [e] + rest;
      assert events[1..] == rest;
    }
  }

  // It gets no further than that while a connection is out, and needs nothing but the connections.
  lemma {:induction false} CanFinishWithConnections(s: State, grace: nat) returns (events: seq<Event>)
    requires Sound(s, grace) && OnTime(s, grace) && MarkerAt(s).Some?
    ensures IsRun(s, grace, events) && IsPromptRun(s, grace, events)
    ensures forall i :: 0 <= i < |events| ==> IsDriver(events[i]) || events[i].Tick? || events[i].GiveBack?
    ensures Final(s, grace, events).phase.Closed?
    decreases Distance(s, grace)
  {
    events := [];
    if !s.phase.Closed? {
      var e := Onward(s, grace);
      OnwardIsPrompt(s, grace);
      NextIsSound(s, grace, e);
      NextIsOnTime(s, grace, e);
      var rest := CanFinishWithConnections(Next(s, grace, e), grace);
      events := [e] + rest;
      assert events[1..] == rest;
    }
  }

  // While no connection comes back, a pool that has one out is not closed, however long the run.
  lemma {:induction false} WaitsForConnections(s: State, grace: nat, events: seq<Event>)
    requires IsRun(s, grace, events) && s.out > 0 && !s.phase.Closed?
    requires forall i :: 0 <= i < |events| ==> !events[i].GiveBack?
    ensures var last := Final(s, grace, events); last.out > 0 && !last.phase.Closed?
    decreases |events|
  {
    if events != [] {
      assert !events[0].GiveBack?;
      assert forall i :: 0 <= i < |events| - 1 ==> events[1..][i] == events[i + 1];
      WaitsForConnections(Next(s, grace, events[0]), grace, events[1..]);
    }
  }
}
