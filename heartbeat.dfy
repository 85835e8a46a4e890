/** The per-connection heartbeat of the websocket handler, as a state machine
    over discrete timer and pong events. Every 5000 ms the interval pings the
    peer and arms a 1000 ms death timer, storing its handle in `deathTimer`
    (overwriting any earlier handle); a pong clears the timer whose handle is
    stored; a death timer that fires sets `isAlive` to false, terminates the
    socket and broadcasts presence. The interval itself is never cleared. */
module Heartbeat {
  import opened Wrappers

  /** A `setTimeout` handle. */
  type TimerId = nat

  /** The heartbeat fields of one connection together with the timer
      runtime's state for it: the death timers still pending (set and not yet
      fired or cleared), the next handle it will hand out, the number of
      `ping()` calls (after termination the ws library sends nothing for
      them) and whether the socket has been terminated. */
  datatype State = State(
    isAlive: bool,
    intervalArmed: bool,
    deathTimer: Option<TimerId>,
    pending: set<TimerId>,
    nextTimer: TimerId,
    pings: nat,
    terminated: bool)

  /** Handles are fresh: every pending or stored handle was handed out earlier. */
  ghost predicate Valid(s: State)
  {
    && (forall t :: t in s.pending ==> t < s.nextTimer)
    && (s.deathTimer.Some? ==> s.deathTimer.value < s.nextTimer)
  }

  /** Right after the `connection` handler: `isAlive = true` and the interval armed. */
  const Start: State := State(true, true, None, {}, 0, 0, false)

  /** The interval fires: ping, then arm a new death timer and overwrite `deathTimer`. */
  function Tick(s: State): State
  {
    s.(pings := s.pings + 1,
       deathTimer := Some(s.nextTimer),
       pending := s.pending + {s.nextTimer},
       nextTimer := s.nextTimer + 1)
  }

  /** A pong arrives: `clearTimeout(deathTimer)`, a no-op when that timer
      already fired, was cleared, or was never set. */
  function Pong(s: State): State
  {
    match s.deathTimer
    case None => s
    case Some(t) => s.(pending := s.pending - {t})
  }

  /** Death timer `t` fires: `isAlive = false` and terminate. */
  function Expire(s: State, t: TimerId): State
    requires t in s.pending
  {
    s.(pending := s.pending - {t}, isAlive := false, terminated := true)
  }

  /** The events a connection sees. A cleared death timer never fires, so a
      `DeathTimeout` for a handle that is not pending changes nothing. */
  datatype Event = Interval | PongReceived | DeathTimeout(t: TimerId)

  function Step(s: State, e: Event): State
  {
    match e
    case Interval => Tick(s)
    case PongReceived => Pong(s)
    case DeathTimeout(t) => if t in s.pending then Expire(s, t) else s
  }

  function Run(s: State, es: seq<Event>): State
    decreases |es|
  {
    if es == [] then s else Run(Step(s, es[0]), es[1..])
  }

  /** Every interval event is answered by a pong before anything else happens. */
  ghost predicate Responsive(es: seq<Event>)
  {
    forall k :: 0 <= k < |es| && es[k] == Interval ==> k + 1 < |es| && es[k + 1] == PongReceived
  }

  // ---------------------------------------------------------------------
  // Lemmas

  lemma StartValid()
    ensures Valid(Start) && Start.isAlive && !Start.terminated && Start.pending == {}
  {
  }

  /** Every event keeps handles fresh. */
  lemma StepValid(s: State, e: Event)
    requires Valid(s)
    ensures Valid(Step(s, e))
  {
  }

  lemma {:induction false} RunValid(s: State, es: seq<Event>)
    requires Valid(s)
    ensures Valid(Run(s, es))
    decreases |es|
  {
    if es != [] {
      StepValid(s, es[0]);
      RunValid(Step(s, es[0]), es[1..]);
    }
  }

  /** A tick pings once and arms a fresh death timer, which is now pending
      and stored; `isAlive` and the interval are untouched. */
  lemma TickArms(s: State)
    requires Valid(s)
    ensures var r := Tick(s);
      && r.deathTimer == Some(s.nextTimer)
      && s.nextTimer !in s.pending
      && r.pending == s.pending + {s.nextTimer}
      && r.pings == s.pings + 1
      && r.isAlive == s.isAlive && r.intervalArmed == s.intervalArmed && r.terminated == s.terminated
  {
  }

  /** A pong after a tick clears exactly the death timer that tick armed:
      the pending timers are those before the tick, and neither `isAlive`
      nor the interval is touched. */
  lemma PongAfterTick(s: State)
    requires Valid(s)
    ensures var r := Pong(Tick(s));
      && r.pending == s.pending
      && r.isAlive == s.isAlive && r.intervalArmed == s.intervalArmed && r.terminated == s.terminated
  {
  }

  /** So, from a state with no death timer pending, tick then pong leaves no
      timer that could fire: no later death timeout changes anything. */
  lemma NoDeathAfterPong(s: State, t: TimerId)
    requires Valid(s) && s.pending == {}
    ensures Step(Pong(Tick(s)), DeathTimeout(t)) == Pong(Tick(s))
  {
  }

  /** A tick not answered before its death timer fires ends the connection:
      one missed pong suffices, there is no grace count. */
  lemma MissedPongKills(s: State)
    requires Valid(s)
    ensures var r := Step(Step(s, Interval), DeathTimeout(s.nextTimer));
      !r.isAlive && r.terminated && r.intervalArmed == s.intervalArmed
  {
  }

  /** `isAlive` becomes false only through a death timeout: a run without one
      leaves it as it was. */
  lemma {:induction false} OnlyDeathClearsAlive(s: State, es: seq<Event>)
    requires forall k :: 0 <= k < |es| ==> !es[k].DeathTimeout?
    ensures Run(s, es).isAlive == s.isAlive
    ensures Run(s, es).terminated == s.terminated
    decreases |es|
  {
    if es != [] {
      OnlyDeathClearsAlive(Step(s, es[0]), es[1..]);
    }
  }

  /** Nothing sets `isAlive` back to true or un-terminates a connection. */
  lemma {:induction false} DeathIsFinal(s: State, es: seq<Event>)
    requires !s.isAlive && s.terminated
    ensures !Run(s, es).isAlive && Run(s, es).terminated
    decreases |es|
  {
    if es != [] {
      DeathIsFinal(Step(s, es[0]), es[1..]);
    }
  }

  /** The interval is never cleared, not even after termination: it keeps
      pinging and arming death timers. */
  lemma {:induction false} IntervalNeverCleared(s: State, es: seq<Event>)
    ensures Run(s, es).intervalArmed == s.intervalArmed
    ensures Run(s, es).pings == s.pings + CountIntervals(es)
    decreases |es|
  {
    if es != [] {
      IntervalNeverCleared(Step(s, es[0]), es[1..]);
    }
  }

  /** The number of interval events in a run. */
  function CountIntervals(es: seq<Event>): nat
    decreases |es|
  {
    if es == [] then 0 else (if es[0] == Interval then 1 else 0) + CountIntervals(es[1..])
  }

  /** A peer that answers every ping before its death timer fires is never
      evicted by the heartbeat, and no death timer is left pending. */
  lemma {:induction false} ResponsiveSurvives(s: State, es: seq<Event>)
    requires Valid(s) && s.pending == {}
    requires Responsive(es)
    ensures Run(s, es).isAlive == s.isAlive
    ensures Run(s, es).terminated == s.terminated
    ensures Run(s, es).pending == {}
    decreases |es|
  {
    if es != [] {
      if es[0] == Interval {
        assert es[1] == PongReceived;
        PongAfterTick(s);
        StepValid(s, Interval);
        StepValid(Tick(s), PongReceived);
        var rest := es[2..];
        assert es[1..][0] == PongReceived && es[1..][1..] == rest;
        assert Responsive(rest) by {
          forall k | 0 <= k < |rest| && rest[k] == Interval
            ensures k + 1 < |rest| && rest[k + 1] == PongReceived
          {
            assert es[k + 2] == Interval;
          }
        }
        ResponsiveSurvives(Pong(Tick(s)), rest);
      } else {
        var rest := es[1..];
        assert Responsive(rest) by {
          forall k | 0 <= k < |rest| && rest[k] == Interval
            ensures k + 1 < |rest| && rest[k + 1] == PongReceived
          {
            assert es[k + 1] == Interval;
          }
        }
        StepValid(s, es[0]);
        ResponsiveSurvives(Step(s, es[0]), rest);
      }
    }
  }
}
