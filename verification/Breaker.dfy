/** The circuit breaker and what whole runs of it guarantee. */
module Breaker {
  import opened Options

  datatype Mode = Closed | Open | HalfOpen

  datatype Settings = Settings(maxFailures: int, resetTimeout: int)

  datatype State = State(mode: Mode, failures: int, lastFail: int)

  const INITIAL: State := State(Closed, 0, 0)

  /**
   * One use of the breaker: it is asked at `start`, and if it runs the protected function that
   * ends at `end`. The mutex is held throughout, so uses do not overlap.
   */
  datatype Use = Use(start: int, end: int, ending: Ending)

  /** A panic unwinds through the breaker: the mutex is released, nothing else happens. */
  datatype Ending = Succeeded | Failed | Panicked

  /** What a use did: `probe` marks the step from open to half-open, `tripped` the opening. */
  datatype Outcome =
    | Rejected(at: int)
    | Ran(start: int, end: int, ending: Ending, probe: bool, tripped: bool)

  predicate Rejects(cfg: Settings, s: State, now: int) {
    s.mode.Open? && now - s.lastFail <= cfg.resetTimeout
  }

  /** The state in which the protected function runs. */
  function Enter(s: State): State {
    if s.mode.Open? then State(HalfOpen, 0, s.lastFail) else s
  }

  /** The state after the protected function ended. */
  function Leave(cfg: Settings, s: State, end: int, ending: Ending): State {
    match ending
    case Failed => State(if s.failures + 1 >= cfg.maxFailures then Open else s.mode, s.failures + 1, end)
    case Succeeded => State(if s.mode.HalfOpen? then Closed else s.mode, 0, s.lastFail)
    case Panicked => s
  }

  function Next(cfg: Settings, s: State, u: Use): State {
    if Rejects(cfg, s, u.start) then s else Leave(cfg, Enter(s), u.end, u.ending)
  }

  function OutcomeOf(cfg: Settings, s: State, u: Use): Outcome {
    if Rejects(cfg, s, u.start) then Rejected(u.start)
    else Ran(u.start, u.end, u.ending, s.mode.Open?, Next(cfg, s, u).mode.Open?)
  }

  function After(cfg: Settings, uses: seq<Use>): State {
    if uses == [] then INITIAL else Next(cfg, After(cfg, uses[..|uses| - 1]), uses[|uses| - 1])
  }

  function History(cfg: Settings, uses: seq<Use>): (h: seq<Outcome>)
    ensures |h| == |uses|
  {
    if uses == [] then []
    else
      var init, u := uses[..|uses| - 1], uses[|uses| - 1];
      History(cfg, init) + [OutcomeOf(cfg, After(cfg, init), u)]
  }

  class CircuitBreaker {
    const cfg: Settings
    var mode: Mode
    var failures: int
    var lastFailTime: int
    ghost var uses: seq<Use>

    ghost predicate Valid()
      reads this
    {
      State(mode, failures, lastFailTime) == After(cfg, uses)
    }

    constructor (maxFailures: int, resetTimeout: int)
      ensures Valid() && cfg == Settings(maxFailures, resetTimeout) && uses == []
    {
      cfg := Settings(maxFailures, resetTimeout);
      mode, failures, lastFailTime, uses := Closed, 0, 0, [];
    }

    /** `u.end` and `u.ending` are what the protected function would do if it is run. */
    method Call(u: Use) returns (outcome: Outcome)
      requires Valid()
      modifies this
      ensures Valid() && uses == old(uses) + [u]
      ensures History(cfg, uses) == History(cfg, old(uses)) + [outcome]
    {
      uses := uses + [u];
      assert uses[..|uses| - 1] == old(uses);
      var probe := false;
      if mode == Open {
        if u.start - lastFailTime > cfg.resetTimeout {
          mode := HalfOpen;
          failures := 0;
          probe := true;
        } else {
          return Rejected(u.start);
        }
      }
      if u.ending == Panicked {
        return Ran(u.start, u.end, Panicked, probe, false);
      }
      if u.ending == Failed {
        failures := failures + 1;
        lastFailTime := u.end;
        if failures >= cfg.maxFailures {
          mode := Open;
        }
        return Ran(u.start, u.end, Failed, probe, mode == Open);
      }
      if mode == HalfOpen {
        mode := Closed;
      }
      failures := 0;
      return Ran(u.start, u.end, Succeeded, probe, false);
    }
  }

  /********** Invariants of every run **********/

  /** Failures that open the breaker: the setting, but at least one. */
  function Limit(cfg: Settings): (r: nat)
    ensures r >= 1
  {
    if cfg.maxFailures < 1 then 1 else cfg.maxFailures
  }

  /** The breaker is open exactly when it has counted its limit of failures. */
  lemma {:induction false} OpenAtLimit(cfg: Settings, uses: seq<Use>)
    ensures var s := After(cfg, uses);
            0 <= s.failures <= Limit(cfg) && (s.mode.Open? <==> s.failures == Limit(cfg))
  {
    if uses != [] {
      OpenAtLimit(cfg, uses[..|uses| - 1]);
    }
  }

  function Trips(h: seq<Outcome>): nat {
    if h == [] then 0
    else Trips(h[..|h| - 1]) + if h[|h| - 1].Ran? && h[|h| - 1].tripped then 1 else 0
  }

  function Failures(h: seq<Outcome>): nat {
    if h == [] then 0
    else Failures(h[..|h| - 1]) + if h[|h| - 1].Ran? && h[|h| - 1].ending == Failed then 1 else 0
  }

  /** Every trip is paid for by its own limit of failed executions. */
  lemma {:induction false} TripsBound(cfg: Settings, uses: seq<Use>)
    ensures Limit(cfg) * Trips(History(cfg, uses)) <= Failures(History(cfg, uses))
  {
    TripsPaid(cfg, uses);
    OpenAtLimit(cfg, uses);
  }

  lemma {:induction false} TripsPaid(cfg: Settings, uses: seq<Use>)
    ensures var h, s := History(cfg, uses), After(cfg, uses);
            Limit(cfg) * Trips(h) + (if s.mode.Open? then 0 else s.failures) <= Failures(h)
  {
    if uses != [] {
      var init, h := uses[..|uses| - 1], History(cfg, uses);
      TripsPaid(cfg, init);
      OpenAtLimit(cfg, init);
      assert h[..|h| - 1] == History(cfg, init);
      assert Limit(cfg) * (Trips(History(cfg, init)) + 1) == Limit(cfg) * Trips(History(cfg, init)) + Limit(cfg);
    }
  }

  /********** Quiet time after a trip **********/

  ghost predicate Timed(uses: seq<Use>) {
    && (forall i :: 0 <= i < |uses| ==> uses[i].start <= uses[i].end)
    && (forall i, j :: 0 <= i < j < |uses| ==> uses[i].end <= uses[j].start)
  }

  lemma {:induction false} HistoryAt(cfg: Settings, uses: seq<Use>, i: nat)
    requires i < |uses|
    ensures History(cfg, uses)[i] == OutcomeOf(cfg, After(cfg, uses[..i]), uses[i])
  {
    var init := uses[..|uses| - 1];
    if i < |init| {
      HistoryAt(cfg, init, i);
      assert init[..i] == uses[..i];
    } else {
      assert uses[..i] == init;
    }
  }

  /** After a trip nothing runs until one execution starts more than the timeout later. */
  lemma {:induction false} StaysOpen(cfg: Settings, uses: seq<Use>, i: nat)
    requires i < |uses|
    requires History(cfg, uses)[i].Ran? && History(cfg, uses)[i].tripped
    requires forall k :: i < k < |uses| ==> History(cfg, uses)[k].Rejected?
    ensures var s := After(cfg, uses); s.mode.Open? && s.lastFail == uses[i].end
  {
    var init := uses[..|uses| - 1];
    HistoryAt(cfg, uses, |uses| - 1);
    assert uses[..|uses| - 1] == init;
    if i < |init| {
      assert forall k :: 0 <= k < |init| ==> History(cfg, init)[k] == History(cfg, uses)[k];
      StaysOpen(cfg, init, i);
      assert History(cfg, uses)[|uses| - 1].Rejected?;
    }
  }

  /** The protected function never runs within the reset timeout after a trip. */
  lemma {:induction false} QuietAfterTrip(cfg: Settings, uses: seq<Use>, i: nat, j: nat)
    requires Timed(uses) && i < j < |uses|
    requires History(cfg, uses)[i].Ran? && History(cfg, uses)[i].tripped && History(cfg, uses)[j].Ran?
    ensures uses[i].end + cfg.resetTimeout < uses[j].start
    decreases j
  {
    HistoryAt(cfg, uses, j);
    if k :| i < k < j && History(cfg, uses)[k].Ran? {
      QuietAfterTrip(cfg, uses, i, k);
      assert uses[k].start <= uses[k].end <= uses[j].start;
    } else {
      var before := uses[..j];
      forall k | 0 <= k < j ensures History(cfg, before)[k] == History(cfg, uses)[k] {
        HistoryAt(cfg, before, k);
        HistoryAt(cfg, uses, k);
        assert before[..k] == uses[..k];
      }
      StaysOpen(cfg, before, i);
    }
  }

  /** So two trips are more than the reset timeout apart. */
  lemma {:induction false} TripsApart(cfg: Settings, uses: seq<Use>, i: nat, j: nat)
    requires Timed(uses) && i < j < |uses|
    requires History(cfg, uses)[i].Ran? && History(cfg, uses)[i].tripped
    requires History(cfg, uses)[j].Ran? && History(cfg, uses)[j].tripped
    ensures uses[i].end + cfg.resetTimeout < uses[j].end
  {
    QuietAfterTrip(cfg, uses, i, j);
  }

  /********** State as a function of history **********/

  /** Failed executions since the later of the last success and the last step to half-open. */
  function FailureRun(h: seq<Outcome>): nat {
    if h == [] then 0
    else
      match h[|h| - 1]
      case Rejected(_) => FailureRun(h[..|h| - 1])
      case Ran(_, _, ending, probe, _) =>
        if ending == Succeeded then 0
        else (if ending == Failed then 1 else 0) + if probe then 0 else FailureRun(h[..|h| - 1])
  }

  /** The latest of all successes and steps to half-open is a step to half-open. */
  predicate Probing(h: seq<Outcome>) {
    h != [] &&
    match h[|h| - 1]
    case Rejected(_) => Probing(h[..|h| - 1])
    case Ran(_, _, ending, probe, _) => ending != Succeeded && (probe || Probing(h[..|h| - 1]))
  }

  function ModeOf(cfg: Settings, h: seq<Outcome>): Mode {
    if FailureRun(h) == Limit(cfg) then Open else if Probing(h) then HalfOpen else Closed
  }

  /** Counter and mode can be read off the history alone. */
  lemma {:induction false} StateFromHistory(cfg: Settings, uses: seq<Use>)
    ensures After(cfg, uses).failures == FailureRun(History(cfg, uses))
    ensures After(cfg, uses).mode == ModeOf(cfg, History(cfg, uses))
  {
    if uses != [] {
      var init, h := uses[..|uses| - 1], History(cfg, uses);
      StateFromHistory(cfg, init);
      OpenAtLimit(cfg, init);
      OpenAtLimit(cfg, uses);
      assert h[..|h| - 1] == History(cfg, init);
    }
  }

  /** When the last failed execution ended. */
  function LastFailure(h: seq<Outcome>): Option<int> {
    if h == [] then None
    else
      match h[|h| - 1]
      case Ran(_, end, Failed, _, _) => Some(end)
      case _ => LastFailure(h[..|h| - 1])
  }

  lemma {:induction false} LastFailureNoted(cfg: Settings, uses: seq<Use>)
    ensures match LastFailure(History(cfg, uses))
            case Some(end) => After(cfg, uses).lastFail == end
            case None => FailureRun(History(cfg, uses)) == 0
  {
    if uses != [] {
      var h := History(cfg, uses);
      LastFailureNoted(cfg, uses[..|uses| - 1]);
      assert h[..|h| - 1] == History(cfg, uses[..|uses| - 1]);
    }
  }

  lemma {:induction false} HistoryPrefix(cfg: Settings, uses: seq<Use>, j: nat)
    requires j <= |uses|
    ensures History(cfg, uses)[..j] == History(cfg, uses[..j])
  {
    if j < |uses| {
      HistoryPrefix(cfg, uses[..|uses| - 1], j);
      assert uses[..|uses| - 1][..j] == uses[..j];
      assert History(cfg, uses)[..j] == History(cfg, uses[..|uses| - 1])[..j];
    } else {
      assert uses[..j] == uses;
    }
  }

  /**
   * Every outcome from the history before it. A use is rejected exactly when the limit of failures
   * has been counted and it starts no later than the reset timeout after the last of them; so the
   * breaker lets the first later use through, and that one is the probe.
   */
  lemma {:induction false} OutcomeExactly(cfg: Settings, uses: seq<Use>, j: nat)
    requires j < |uses|
    ensures var h, u := History(cfg, uses), uses[j];
            var before := h[..j];
            var full := FailureRun(before) == Limit(cfg);
            && (full ==> LastFailure(before).Some?)
            && h[j] == if full && u.start <= LastFailure(before).value + cfg.resetTimeout then Rejected(u.start)
                       else Ran(u.start, u.end, u.ending, full, FailureRun(h[..j + 1]) == Limit(cfg))
  {
    HistoryAt(cfg, uses, j);
    HistoryPrefix(cfg, uses, j);
    HistoryPrefix(cfg, uses, j + 1);
    StateFromHistory(cfg, uses[..j]);
    StateFromHistory(cfg, uses[..j + 1]);
    LastFailureNoted(cfg, uses[..j]);
    assert uses[..j + 1][..j] == uses[..j];
  }

  function RunFrom(cfg: Settings, s: State, uses: seq<Use>): State {
    if uses == [] then s else Next(cfg, RunFrom(cfg, s, uses[..|uses| - 1]), uses[|uses| - 1])
  }

  /**
   * A half-open phase survives one failed probe less than the limit and reopens on the
   * limit-th; a success before that closes the breaker.
   */
  lemma {:induction false} HalfOpenPhase(cfg: Settings, s: State, probes: seq<Use>)
    requires s.mode.Open? && 1 <= |probes| <= Limit(cfg)
    requires s.lastFail + cfg.resetTimeout < probes[0].start
    requires forall i :: 0 <= i < |probes| ==> probes[i].ending == Failed
    ensures RunFrom(cfg, s, probes) ==
            State(if |probes| < Limit(cfg) then HalfOpen else Open, |probes|, probes[|probes| - 1].end)
    ensures forall u: Use :: u.ending == Succeeded && s.lastFail + cfg.resetTimeout < u.start ==>
              Next(cfg, s, u) == State(Closed, 0, s.lastFail)
    ensures |probes| < Limit(cfg) ==> forall u: Use :: u.ending == Succeeded ==>
              Next(cfg, RunFrom(cfg, s, probes), u) == State(Closed, 0, probes[|probes| - 1].end)
  {
    if |probes| > 1 {
      HalfOpenPhase(cfg, s, probes[..|probes| - 1]);
    } else {
      assert probes[..0] == [];
    }
  }
}
