/** Any number of dispatches and health checks, interleaved step by step. */
module Interleaving {
  import opened Options
  import opened Recorder
  import opened Dispatcher
  import Breaker

  /** Where a dispatch stands in its current attempt. */
  datatype Stage =
    | Waiting
    | Entered(start: int)
    | Inside(start: int)
    | Left(start: int, ending: Breaker.Ending)
    | Returned(failed: bool)
    | Finished(length: nat)
    | Unwound

  /** `log` holds the outcomes of the attempts so far, `ops` what the current one has done. */
  datatype Thread = Thread(
    stage: Stage, attempt: nat, backend: nat, rec: Rec, log: seq<Attempt>, ops: seq<Op>)

  datatype Metric = Metric(thread: nat, status: int)

  /** `uses` are the completed uses of the breaker, `users` the dispatches that made them. */
  datatype World = World(
    clock: int,
    breaker: Breaker.State,
    mutex: Option<nat>,
    uses: seq<Breaker.Use>,
    users: seq<nat>,
    connections: map<nat, int>,
    active: int,
    alive: set<nat>,
    threads: map<nat, Thread>,
    metrics: seq<Metric>)

  const START: World := World(0, Breaker.INITIAL, None, [], [], map[], 0, {}, map[], [])

  datatype Step =
    | Tick(d: nat)
    | Health(backend: nat, up: bool)
    | Begin(t: nat, backend: nat)
    | Enter(t: nat)
    | Inc(t: nat)
    | Proxy(t: nat, op: Op)
    | Dec(t: nat, ending: Breaker.Ending)
    | Leave(t: nat)
    | Decide(t: nat, next: Option<nat>, length: nat)

  function Connections(w: World, b: nat): int {
    if b in w.connections then w.connections[b] else 0
  }

  /** Which steps can be taken; the mutex of the breaker is held across the protected call. */
  predicate Enabled(w: World, s: Step) {
    match s
    case Tick(_) => true
    case Health(_, _) => true
    case Begin(t, b) => t !in w.threads && b in w.alive
    case Enter(t) => t in w.threads && w.threads[t].stage.Waiting? && w.mutex.None?
    case Inc(t) => t in w.threads && w.threads[t].stage.Entered?
    case Proxy(t, _) => t in w.threads && w.threads[t].stage.Inside?
    case Dec(t, _) => t in w.threads && w.threads[t].stage.Inside?
    case Leave(t) => t in w.threads && w.threads[t].stage.Left?
    case Decide(t, next, _) => t in w.threads && w.threads[t].stage.Returned? && (next.Some? ==> next.value in w.alive)
  }

  function Put(w: World, t: nat, th: Thread): World {
    w.(threads := w.threads[t := th])
  }

  function EnterStep(cfg: Breaker.Settings, w: World, t: nat): World
    requires t in w.threads
  {
    var th := w.threads[t];
    if Breaker.Rejects(cfg, w.breaker, w.clock) then
      Put(w, t, th.(stage := Returned(true), log := th.log + [Refused]))
        .(uses := w.uses + [Breaker.Use(w.clock, w.clock, Breaker.Failed)], users := w.users + [t])
    else
      Put(w, t, th.(stage := Entered(w.clock))).(mutex := Some(t), breaker := Breaker.Enter(w.breaker))
  }

  /** The mutex is released and the outcome noted; a panic unwinds the whole dispatch. */
  function LeaveStep(cfg: Breaker.Settings, w: World, t: nat): World
    requires t in w.threads && w.threads[t].stage.Left?
  {
    var th := w.threads[t];
    var ending := th.stage.ending;
    var left :=
      if ending == Breaker.Panicked then th.(stage := Unwound, log := th.log + [Aborted(th.ops)], ops := [])
      else
        var failed := ending == Breaker.Failed;
        th.(stage := Returned(failed), log := th.log + [Served(th.ops, failed)], ops := []);
    Put(w, t, left)
      .(mutex := None,
        breaker := Breaker.Leave(cfg, w.breaker, w.clock, ending),
        uses := w.uses + [Breaker.Use(th.stage.start, w.clock, ending)], users := w.users + [t])
  }

  /** Error or success of an attempt, as the retry loop acts on it. */
  function DecideStep(w: World, t: nat, next: Option<nat>, length: nat): World
    requires t in w.threads && w.threads[t].stage.Returned?
  {
    var th := w.threads[t];
    if !th.stage.failed || th.rec.committed then
      Put(w, t, th.(stage := Finished(length))).(metrics := w.metrics + [Metric(t, Status(th.rec))])
    else if th.attempt < MAX_ATTEMPTS - 1 then
      Put(w, t, th.(stage := Waiting, attempt := th.attempt + 1,
                    backend := if next.Some? then next.value else th.backend))
    else
      Put(w, t, th.(stage := Finished(length), rec := Unavailable(th.rec, length)))
        .(metrics := w.metrics + [Metric(t, SERVICE_UNAVAILABLE)])
  }

  function Next(cfg: Breaker.Settings, w: World, s: Step): World
    requires Enabled(w, s)
  {
    match s
    case Tick(d) => w.(clock := w.clock + d)
    case Health(b, up) => w.(alive := if up then w.alive + {b} else w.alive - {b})
    case Begin(t, b) => Put(w, t, Thread(Waiting, 0, b, FRESH, [], []))
    case Enter(t) => EnterStep(cfg, w, t)
    case Inc(t) =>
      var th := w.threads[t];
      Put(w, t, th.(stage := Inside(th.stage.start)))
        .(connections := w.connections[th.backend := Connections(w, th.backend) + 1], active := w.active + 1)
    case Proxy(t, op) => var th := w.threads[t]; Put(w, t, th.(rec := Apply(th.rec, op), ops := th.ops + [op]))
    case Dec(t, ending) =>
      var th := w.threads[t];
      Put(w, t, th.(stage := Left(th.stage.start, ending)))
        .(connections := w.connections[th.backend := Connections(w, th.backend) - 1], active := w.active - 1)
    case Leave(t) => LeaveStep(cfg, w, t)
    case Decide(t, next, length) => DecideStep(w, t, next, length)
  }

  /** The world after an interleaving; a step that cannot be taken is skipped. */
  function After(cfg: Breaker.Settings, run: seq<Step>): World {
    if run == [] then START
    else
      var w := After(cfg, run[..|run| - 1]);
      if Enabled(w, run[|run| - 1]) then Next(cfg, w, run[|run| - 1]) else w
  }

  /********** Mutual exclusion and connection counts **********/

  predicate Holds(p: Stage) {
    p.Entered? || p.Inside? || p.Left?
  }

  /** Exactly the holder of the mutex is within the breaker. */
  ghost predicate Exclusive(w: World) {
    && (w.mutex.Some? ==> w.mutex.value in w.threads && Holds(w.threads[w.mutex.value].stage))
    && (forall t :: t in w.threads && Holds(w.threads[t].stage) ==> w.mutex == Some(t))
  }

  /** The backend of the attempt in flight, if there is one. */
  function Busy(w: World): Option<nat> {
    if w.mutex.Some? && w.mutex.value in w.threads && w.threads[w.mutex.value].stage.Inside?
    then Some(w.threads[w.mutex.value].backend) else None
  }

  ghost predicate Counted(w: World) {
    && (forall b: nat :: Connections(w, b) == if Busy(w) == Some(b) then 1 else 0)
    && w.active == if Busy(w).Some? then 1 else 0
  }

  lemma {:induction false} StepExclusive(cfg: Breaker.Settings, w: World, s: Step)
    requires Exclusive(w) && Enabled(w, s)
    ensures Exclusive(Next(cfg, w, s))
  {
  }

  lemma {:induction false} StepCounted(cfg: Breaker.Settings, w: World, s: Step)
    requires Exclusive(w) && Counted(w) && Enabled(w, s)
    ensures Counted(Next(cfg, w, s))
  {
    var v := Next(cfg, w, s);
    match s
    case Inc(t) => assert w.mutex == Some(t) && Busy(w) == None && Busy(v) == Some(w.threads[t].backend);
    case Dec(t, _) => assert w.mutex == Some(t) && Busy(w) == Some(w.threads[t].backend) && Busy(v) == None;
    case _ => assert Busy(v) == Busy(w) && v.connections == w.connections && v.active == w.active;
  }

  lemma {:induction false} RunCounted(cfg: Breaker.Settings, run: seq<Step>)
    ensures Exclusive(After(cfg, run)) && Counted(After(cfg, run))
  {
    if run != [] {
      var w, s := After(cfg, run[..|run| - 1]), run[|run| - 1];
      RunCounted(cfg, run[..|run| - 1]);
      if Enabled(w, s) {
        StepExclusive(cfg, w, s);
        StepCounted(cfg, w, s);
      }
    }
  }

  /** Dispatches between their Inc and their Dec. */
  ghost function InFlight(w: World): set<nat> {
    set t | t in w.threads && w.threads[t].stage.Inside?
  }

  ghost function InFlightTo(w: World, b: nat): set<nat> {
    set t | t in w.threads && w.threads[t].stage.Inside? && w.threads[t].backend == b
  }

  /**
   * In every interleaving, panics included, each backend's counter is the number of attempts in
   * flight to it, the gauge is the number in flight anywhere, that is never more than one, and
   * the mutex is free exactly when nobody is within the breaker.
   */
  lemma {:induction false} ConnectionsConserved(cfg: Breaker.Settings, run: seq<Step>, b: nat)
    ensures var w := After(cfg, run);
            && Connections(w, b) == |InFlightTo(w, b)|
            && w.active == |InFlight(w)| <= 1
            && (InFlight(w) == {} ==> Connections(w, b) == 0)
            && (w.mutex.None? <==> forall t :: t in w.threads ==> !Holds(w.threads[t].stage))
  {
    var w := After(cfg, run);
    RunCounted(cfg, run);
    match Busy(w)
    case Some(c) =>
      assert InFlight(w) == {w.mutex.value};
      assert InFlightTo(w, b) == if c == b then {w.mutex.value} else {};
    case None =>
      assert InFlight(w) == {} && InFlightTo(w, b) == {};
  }

  /********** The breaker is used sequentially **********/

  /** The uses so far, and the one in progress, form one run of the breaker in time order. */
  ghost predicate Linear(cfg: Breaker.Settings, w: World) {
    && Breaker.Timed(w.uses)
    && (forall i :: 0 <= i < |w.uses| ==> w.uses[i].end <= w.clock)
    && match w.mutex
       case None => w.breaker == Breaker.After(cfg, w.uses)
       case Some(t) =>
         && t in w.threads && Holds(w.threads[t].stage)
         && var start := w.threads[t].stage.start;
            && start <= w.clock
            && (forall i :: 0 <= i < |w.uses| ==> w.uses[i].end <= start)
            && !Breaker.Rejects(cfg, Breaker.After(cfg, w.uses), start)
            && w.breaker == Breaker.Enter(Breaker.After(cfg, w.uses))
  }

  lemma {:induction false} UsesAppend(cfg: Breaker.Settings, uses: seq<Breaker.Use>, u: Breaker.Use)
    ensures Breaker.After(cfg, uses + [u]) == Breaker.Next(cfg, Breaker.After(cfg, uses), u)
  {
  }

  lemma {:induction false} EnterLinear(cfg: Breaker.Settings, w: World, t: nat)
    requires Linear(cfg, w) && w.mutex.None? && t in w.threads
    ensures Linear(cfg, EnterStep(cfg, w, t))
  {
  }

  lemma {:induction false} LeaveLinear(cfg: Breaker.Settings, w: World, t: nat)
    requires Linear(cfg, w) && w.mutex == Some(t) && Enabled(w, Leave(t))
    ensures Linear(cfg, LeaveStep(cfg, w, t))
  {
    var th := w.threads[t];
    UsesAppend(cfg, w.uses, Breaker.Use(th.stage.start, w.clock, th.stage.ending));
  }

  /** The world as the breaker sees it is unchanged, except that time may pass. */
  ghost predicate SameBreaker(w: World, v: World) {
    && v.uses == w.uses && v.users == w.users && v.breaker == w.breaker && v.mutex == w.mutex && v.clock >= w.clock
    && (w.mutex.Some? && w.mutex.value in w.threads && Holds(w.threads[w.mutex.value].stage) ==>
          && w.mutex.value in v.threads && Holds(v.threads[w.mutex.value].stage)
          && v.threads[w.mutex.value].stage.start == w.threads[w.mutex.value].stage.start)
  }

  lemma {:induction false} SameBreakerLinear(cfg: Breaker.Settings, w: World, v: World)
    requires Linear(cfg, w) && SameBreaker(w, v)
    ensures Linear(cfg, v)
  {
  }

  lemma {:induction false} StepLinear(cfg: Breaker.Settings, w: World, s: Step)
    requires Exclusive(w) && Linear(cfg, w) && Enabled(w, s)
    ensures Linear(cfg, Next(cfg, w, s))
  {
    match s
    case Enter(t) => EnterLinear(cfg, w, t);
    case Leave(t) => LeaveLinear(cfg, w, t);
    case _ =>
      assert SameBreaker(w, Next(cfg, w, s));
      SameBreakerLinear(cfg, w, Next(cfg, w, s));
  }

  /** Every interleaving is, for the breaker, one sequential timed run. */
  lemma {:induction false} BreakerLinearised(cfg: Breaker.Settings, run: seq<Step>)
    ensures Linear(cfg, After(cfg, run))
  {
    if run != [] {
      var w, s := After(cfg, run[..|run| - 1]), run[|run| - 1];
      BreakerLinearised(cfg, run[..|run| - 1]);
      RunCounted(cfg, run[..|run| - 1]);
      if Enabled(w, s) {
        StepLinear(cfg, w, s);
      }
    }
  }

  /** A use starts at the time of its entry and ends when it leaves, or at once if it is refused. */
  lemma {:induction false} UsesTimed(cfg: Breaker.Settings, w: World, s: Step)
    requires Enabled(w, s)
    ensures var v := Next(cfg, w, s);
            match s
            case Enter(t) =>
              if Breaker.Rejects(cfg, w.breaker, w.clock)
              then v.uses == w.uses + [Breaker.Use(w.clock, w.clock, Breaker.Failed)]
              else v.uses == w.uses && v.threads[t].stage == Entered(w.clock)
            case Inc(t) => v.uses == w.uses && v.threads[t].stage == Inside(w.threads[t].stage.start)
            case Dec(t, ending) =>
              v.uses == w.uses && v.threads[t].stage == Left(w.threads[t].stage.start, ending)
            case Leave(t) =>
              var stage := w.threads[t].stage;
              v.uses == w.uses + [Breaker.Use(stage.start, w.clock, stage.ending)]
            case Tick(d) => v.uses == w.uses && v.clock == w.clock + d
            case _ => v.uses == w.uses && v.clock == w.clock
  {
  }

  /** So no attempt anywhere starts within the reset timeout after a trip. */
  lemma {:induction false} ConcurrentQuiet(cfg: Breaker.Settings, run: seq<Step>, i: nat, j: nat)
    requires i < j < |After(cfg, run).uses|
    requires var h := Breaker.History(cfg, After(cfg, run).uses); h[i].Ran? && h[i].tripped && h[j].Ran?
    ensures After(cfg, run).uses[i].end + cfg.resetTimeout < After(cfg, run).uses[j].start
  {
    BreakerLinearised(cfg, run);
    Breaker.QuietAfterTrip(cfg, After(cfg, run).uses, i, j);
  }

  /********** Attempts are the uses of the breaker **********/

  /** How a use ended, None if it was rejected. */
  function EndOf(o: Breaker.Outcome): Option<Breaker.Ending> {
    if o.Ran? then Some(o.ending) else None
  }

  /** How an attempt ended, None if it was refused. */
  function EndOfAttempt(a: Attempt): Option<Breaker.Ending> {
    match a
    case Refused => None
    case Served(_, failed) => Some(if failed then Breaker.Failed else Breaker.Succeeded)
    case Aborted(_) => Some(Breaker.Panicked)
  }

  function EndsOf(log: seq<Attempt>): (r: seq<Option<Breaker.Ending>>)
    ensures |r| == |log| && forall k :: 0 <= k < |log| ==> r[k] == EndOfAttempt(log[k])
  {
    seq(|log|, k requires 0 <= k < |log| => EndOfAttempt(log[k]))
  }

  /** The ends of the uses made by dispatch `t`, in order. */
  function MadeBy(h: seq<Breaker.Outcome>, users: seq<nat>, t: nat): seq<Option<Breaker.Ending>>
    requires |h| == |users|
  {
    if h == [] then []
    else
      MadeBy(h[..|h| - 1], users[..|h| - 1], t) +
      if users[|h| - 1] == t then [EndOf(h[|h| - 1])] else []
  }

  function LogOf(w: World, t: nat): seq<Attempt> {
    if t in w.threads then w.threads[t].log else []
  }

  ghost predicate Booked(cfg: Breaker.Settings, w: World) {
    |w.users| == |w.uses| &&
    forall t: nat :: MadeBy(Breaker.History(cfg, w.uses), w.users, t) == EndsOf(LogOf(w, t))
  }

  lemma {:induction false} MadeByAppend(cfg: Breaker.Settings, uses: seq<Breaker.Use>, users: seq<nat>,
            u: Breaker.Use, user: nat, t: nat)
    requires |uses| == |users|
    ensures MadeBy(Breaker.History(cfg, uses + [u]), users + [user], t) ==
            MadeBy(Breaker.History(cfg, uses), users, t) +
            if user == t then [EndOf(Breaker.OutcomeOf(cfg, Breaker.After(cfg, uses), u))] else []
  {
    var h := Breaker.History(cfg, uses + [u]);
    assert (uses + [u])[..|uses|] == uses && (users + [user])[..|users|] == users;
    assert h[..|h| - 1] == Breaker.History(cfg, uses);
  }

  /** A step that ends one use and logs the attempt it was. */
  lemma {:induction false} BookedAppend(cfg: Breaker.Settings, w: World, v: World, u: Breaker.Use, user: nat,
            a: Attempt)
    requires Booked(cfg, w) && v.uses == w.uses + [u] && v.users == w.users + [user]
    requires forall t: nat :: LogOf(v, t) == LogOf(w, t) + if t == user then [a] else []
    requires EndOfAttempt(a) == EndOf(Breaker.OutcomeOf(cfg, Breaker.After(cfg, w.uses), u))
    ensures Booked(cfg, v)
  {
    forall t: nat ensures MadeBy(Breaker.History(cfg, v.uses), v.users, t) == EndsOf(LogOf(v, t)) {
      MadeByAppend(cfg, w.uses, w.users, u, user, t);
      assert MadeBy(Breaker.History(cfg, w.uses), w.users, t) == EndsOf(LogOf(w, t));
    }
  }

  lemma {:induction false} EnterBooked(cfg: Breaker.Settings, w: World, t: nat)
    requires Booked(cfg, w) && Linear(cfg, w) && w.mutex.None? && t in w.threads
    ensures Booked(cfg, EnterStep(cfg, w, t))
  {
    var v := EnterStep(cfg, w, t);
    if Breaker.Rejects(cfg, w.breaker, w.clock) {
      BookedAppend(cfg, w, v, Breaker.Use(w.clock, w.clock, Breaker.Failed), t, Refused);
    } else {
      assert forall i: nat :: LogOf(v, i) == LogOf(w, i);
    }
  }

  lemma {:induction false} LeaveBooked(cfg: Breaker.Settings, w: World, t: nat)
    requires Booked(cfg, w) && Linear(cfg, w) && w.mutex == Some(t) && Enabled(w, Leave(t))
    ensures Booked(cfg, LeaveStep(cfg, w, t))
  {
    var th, v := w.threads[t], LeaveStep(cfg, w, t);
    BookedAppend(cfg, w, v, Breaker.Use(th.stage.start, w.clock, th.stage.ending), t, v.threads[t].log[|th.log|]);
  }

  lemma {:induction false} StepBooked(cfg: Breaker.Settings, w: World, s: Step)
    requires Exclusive(w) && Linear(cfg, w) && Booked(cfg, w) && Enabled(w, s)
    ensures Booked(cfg, Next(cfg, w, s))
  {
    match s
    case Enter(t) => EnterBooked(cfg, w, t);
    case Leave(t) => LeaveBooked(cfg, w, t);
    case _ =>
      LogsUntouched(cfg, w, s);
      BookedSame(cfg, w, Next(cfg, w, s));
  }

  ghost predicate SameLogs(w: World, v: World) {
    v.uses == w.uses && v.users == w.users && forall t: nat :: LogOf(v, t) == LogOf(w, t)
  }

  lemma {:induction false} LogsUntouched(cfg: Breaker.Settings, w: World, s: Step)
    requires Enabled(w, s) && !s.Enter? && !s.Leave?
    ensures SameLogs(w, Next(cfg, w, s))
  {
  }

  lemma {:induction false} BookedSame(cfg: Breaker.Settings, w: World, v: World)
    requires Booked(cfg, w) && SameLogs(w, v)
    ensures Booked(cfg, v)
  {
  }

  /** In every interleaving each dispatch's attempts are exactly its uses of the breaker, in order. */
  lemma {:induction false} AttemptsAreUses(cfg: Breaker.Settings, run: seq<Step>)
    ensures Booked(cfg, After(cfg, run))
  {
    if run != [] {
      var w, s := After(cfg, run[..|run| - 1]), run[|run| - 1];
      AttemptsAreUses(cfg, run[..|run| - 1]);
      RunCounted(cfg, run[..|run| - 1]);
      BreakerLinearised(cfg, run[..|run| - 1]);
      if Enabled(w, s) {
        StepBooked(cfg, w, s);
      }
    } else {
      assert forall t: nat :: EndsOf(LogOf(START, t)) == [];
    }
  }

  /** How many of the first `j` uses dispatch `t` made. */
  function UsesBefore(users: seq<nat>, t: nat, j: nat): nat
    requires j <= |users|
  {
    if j == 0 then 0 else UsesBefore(users, t, j - 1) + if users[j - 1] == t then 1 else 0
  }

  lemma {:induction false} MadeByAt(h: seq<Breaker.Outcome>, users: seq<nat>, t: nat, j: nat)
    requires |h| == |users| && j < |h| && users[j] == t
    ensures |MadeBy(h, users, t)| == UsesBefore(users, t, |h|)
    ensures UsesBefore(users, t, j) < |MadeBy(h, users, t)|
    ensures MadeBy(h, users, t)[UsesBefore(users, t, j)] == EndOf(h[j])
  {
    MadeByCount(h, users, t);
    var n := |h| - 1;
    MadeByCount(h[..n], users[..n], t);
    UsesBeforePrefix(users, t, n, n);
    if j < n {
      MadeByAt(h[..n], users[..n], t, j);
      UsesBeforePrefix(users, t, n, j);
    }
  }

  lemma {:induction false} UsesBeforePrefix(users: seq<nat>, t: nat, n: nat, j: nat)
    requires j <= n <= |users|
    ensures UsesBefore(users[..n], t, j) == UsesBefore(users, t, j)
  {
    if j > 0 {
      UsesBeforePrefix(users, t, n, j - 1);
    }
  }

  lemma {:induction false} MadeByCount(h: seq<Breaker.Outcome>, users: seq<nat>, t: nat)
    requires |h| == |users|
    ensures |MadeBy(h, users, t)| == UsesBefore(users, t, |h|)
  {
    if h != [] {
      MadeByCount(h[..|h| - 1], users[..|h| - 1], t);
      UsesBeforePrefix(users, t, |h| - 1, |h| - 1);
    }
  }

  /**
   * So an attempt of any dispatch is refused exactly when, counting the uses of all dispatches, the
   * limit of failures has been reached and the attempt comes no later than the reset timeout after
   * the last failure.
   */
  lemma {:induction false} RefusedExactly(cfg: Breaker.Settings, run: seq<Step>, j: nat)
    requires j < |After(cfg, run).uses|
    ensures var w := After(cfg, run);
            && |w.users| == |w.uses|
            && var t, before := w.users[j], Breaker.History(cfg, w.uses)[..j];
               var k := UsesBefore(w.users, t, j);
               && t in w.threads && k < |w.threads[t].log|
               && (w.threads[t].log[k].Refused? <==>
                   && Breaker.FailureRun(before) == Breaker.Limit(cfg)
                   && Breaker.LastFailure(before).Some?
                   && w.uses[j].start <= Breaker.LastFailure(before).value + cfg.resetTimeout)
  {
    var w := After(cfg, run);
    AttemptsAreUses(cfg, run);
    var t, h := w.users[j], Breaker.History(cfg, w.uses);
    assert MadeBy(h, w.users, t) == EndsOf(LogOf(w, t));
    MadeByAt(h, w.users, t, j);
    Breaker.OutcomeExactly(cfg, w.uses, j);
  }

  /********** Failover **********/

  /** The last health verdict on the backend is that it is up. */
  predicate LastUp(run: seq<Step>, b: nat) {
    run != [] &&
    match run[|run| - 1]
    case Health(c, up) => if c == b then up else LastUp(run[..|run| - 1], b)
    case _ => LastUp(run[..|run| - 1], b)
  }

  lemma {:induction false} AliveExactly(cfg: Breaker.Settings, run: seq<Step>, b: nat)
    ensures b in After(cfg, run).alive <==> LastUp(run, b)
  {
    if run != [] {
      AliveExactly(cfg, run[..|run| - 1], b);
    }
  }

  /** A dispatch begins on a backend that is up, and a retry goes to the peer offered, which is up. */
  lemma {:induction false} FailsOver(cfg: Breaker.Settings, run: seq<Step>, s: Step)
    requires Enabled(After(cfg, run), s)
    ensures var w, v := After(cfg, run), Next(cfg, After(cfg, run), s);
            match s
            case Begin(t, b) => v.threads[t].backend == b && LastUp(run, b)
            case Decide(t, next, _) =>
              v.threads[t].stage.Waiting? ==>
                if next.Some? then v.threads[t].backend == next.value && LastUp(run, next.value)
                else v.threads[t].backend == w.threads[t].backend
            case _ => forall t :: t in w.threads ==> t in v.threads && v.threads[t].backend == w.threads[t].backend
  {
    match s
    case Begin(_, b) => AliveExactly(cfg, run, b);
    case Decide(_, Some(b), _) => AliveExactly(cfg, run, b);
    case _ =>
  }

  /********** Every dispatch, whatever the others do **********/

  /** The recorder after these attempts. */
  function RecOf(log: seq<Attempt>): Rec {
    RecAfter(log, |log|)
  }

  /** Nothing in the log has ended the dispatch yet. */
  ghost predicate Open(log: seq<Attempt>) {
    forall k :: 0 <= k < |log| ==> !Decisive(log, k)
  }

  /** The log, filled up to three attempts: what is never reached does not matter. */
  function Padded(log: seq<Attempt>): (r: seq<Attempt>)
    requires |log| <= MAX_ATTEMPTS
    ensures |r| == MAX_ATTEMPTS && log <= r
  {
    log + seq(MAX_ATTEMPTS - |log|, i => Refused)
  }

  /** The dispatch is where the sequential retry loop would be after the attempts in its log. */
  ghost predicate Disciplined(th: Thread) {
    && th.attempt < MAX_ATTEMPTS
    && match th.stage
       case Finished(length) =>
         && 1 <= |th.log| <= MAX_ATTEMPTS
         && var res := Retry(Padded(th.log), length, 0);
            res.made == |th.log| && res.rec == th.rec && res.metric == Some(Status(th.rec))
       case Unwound =>
         && 1 <= |th.log| <= MAX_ATTEMPTS
         && var res := Retry(Padded(th.log), 0, 0);
            res.made == |th.log| && res.rec == th.rec && res.metric == None
       case Returned(failed) =>
         && |th.log| == th.attempt + 1 && th.rec == RecOf(th.log) && th.ops == []
         && Open(th.log[..th.attempt]) && failed == Errs(th.log[th.attempt]) && !th.log[th.attempt].Aborted?
       case _ =>
         && |th.log| == th.attempt && th.rec == ApplyAll(RecOf(th.log), th.ops)
         && Open(th.log) && (th.stage.Waiting? || th.stage.Entered? ==> th.ops == [])
  }

  lemma {:induction false} RecAfterPrefix(log: seq<Attempt>, more: seq<Attempt>, k: nat)
    requires log <= more && k <= |log|
    ensures RecAfter(more, k) == RecAfter(log, k)
  {
    if k > 0 {
      RecAfterPrefix(log, more, k - 1);
    }
  }

  lemma {:induction false} OpenPrefix(log: seq<Attempt>, more: seq<Attempt>, k: nat)
    requires log <= more && k < |log|
    ensures Decisive(more, k) == Decisive(log, k)
  {
    RecAfterPrefix(log, more, k + 1);
  }

  /** The loop passes over every attempt that does not end it. */
  lemma {:induction false} RetrySkips(attempts: seq<Attempt>, length: nat, made: nat)
    requires |attempts| == MAX_ATTEMPTS && made <= MAX_ATTEMPTS
    requires forall k :: 0 <= k < made ==> !Decisive(attempts, k)
    ensures Retry(attempts, length, 0) == Retry(attempts, length, made)
  {
    if made > 0 {
      RetrySkips(attempts, length, made - 1);
      assert !Decisive(attempts, made - 1);
    }
  }

  /** When the last logged attempt ends the dispatch, the loop ends there with the same result. */
  lemma {:induction false} FinishesAsRetry(log: seq<Attempt>, length: nat)
    requires 1 <= |log| <= MAX_ATTEMPTS && Open(log[..|log| - 1])
    requires Decisive(log, |log| - 1) || |log| == MAX_ATTEMPTS
    ensures var res := Retry(Padded(log), length, 0);
            && res.made == |log|
            && res.metric == (if log[|log| - 1].Aborted? then None else Some(Status(res.rec)))
            && res.rec == if Decisive(log, |log| - 1) then RecOf(log) else Unavailable(RecOf(log), length)
  {
    var all, n := Padded(log), |log| - 1;
    forall k | 0 <= k < n ensures !Decisive(all, k) {
      OpenPrefix(log[..n], all, k);
      assert !Decisive(log[..n], k);
    }
    RetrySkips(all, length, n);
    OpenPrefix(log, all, n);
    RecAfterPrefix(log, all, n + 1);
    DispatchSafe(all, length);
  }

  lemma {:induction false} OpenAppend(log: seq<Attempt>)
    requires log != [] && Open(log[..|log| - 1]) && !Decisive(log, |log| - 1)
    ensures Open(log)
  {
    forall k | 0 <= k < |log| ensures !Decisive(log, k) {
      if k < |log| - 1 {
        OpenPrefix(log[..|log| - 1], log, k);
        assert !Decisive(log[..|log| - 1], k);
      }
    }
  }

  lemma {:induction false} DecideDisciplined(w: World, t: nat, next: Option<nat>, length: nat)
    requires t in w.threads && w.threads[t].stage.Returned? && Disciplined(w.threads[t])
    ensures Disciplined(DecideStep(w, t, next, length).threads[t])
  {
    var th := w.threads[t];
    assert th.log[..|th.log| - 1] == th.log[..th.attempt];
    if Decisive(th.log, th.attempt) || |th.log| == MAX_ATTEMPTS {
      FinishesAsRetry(th.log, length);
    } else {
      OpenAppend(th.log);
    }
  }

  lemma {:induction false} LoggedDisciplined(th: Thread, a: Attempt)
    requires |th.log| == th.attempt < MAX_ATTEMPTS && Open(th.log)
    ensures Disciplined(th.(stage := if a.Aborted? then Unwound else Returned(Errs(a)),
                            log := th.log + [a], ops := [], rec := AfterAttempt(RecOf(th.log), a)))
  {
    var log := th.log + [a];
    assert log[..th.attempt] == th.log;
    RecAfterPrefix(th.log, log, |th.log|);
    if a.Aborted? {
      FinishesAsRetry(log, 0);
    }
  }

  /**
   * The request metric holds every finished dispatch once, with the status its recorder reports,
   * and nothing else: dispatches that a panic unwound are missed.
   */
  ghost predicate Metered(w: World) {
    && (forall k :: 0 <= k < |w.metrics| ==>
          var m := w.metrics[k];
          m.thread in w.threads && w.threads[m.thread].stage.Finished? && m.status == Status(w.threads[m.thread].rec))
    && (forall i, j :: 0 <= i < j < |w.metrics| ==> w.metrics[i].thread != w.metrics[j].thread)
    && (forall t :: t in w.threads && w.threads[t].stage.Finished? ==>
          exists k :: 0 <= k < |w.metrics| && w.metrics[k].thread == t)
  }

  ghost predicate AllDisciplined(w: World) {
    forall t :: t in w.threads ==> Disciplined(w.threads[t])
  }

  lemma {:induction false} EnterDisciplined(cfg: Breaker.Settings, w: World, t: nat)
    requires t in w.threads && w.threads[t].stage.Waiting? && Disciplined(w.threads[t])
    ensures Disciplined(EnterStep(cfg, w, t).threads[t])
  {
    LoggedDisciplined(w.threads[t], Refused);
  }

  lemma {:induction false} LeaveDisciplined(cfg: Breaker.Settings, w: World, t: nat)
    requires t in w.threads && w.threads[t].stage.Left? && Disciplined(w.threads[t])
    ensures Disciplined(LeaveStep(cfg, w, t).threads[t])
  {
    var th := w.threads[t];
    LoggedDisciplined(th, if th.stage.ending == Breaker.Panicked then Aborted(th.ops)
                          else Served(th.ops, th.stage.ending == Breaker.Failed));
  }

  lemma {:induction false} ProxyDisciplined(th: Thread, op: Op)
    requires th.stage.Inside? && Disciplined(th)
    ensures Disciplined(th.(rec := Apply(th.rec, op), ops := th.ops + [op]))
  {
    var ops := th.ops + [op];
    assert ops[..|ops| - 1] == th.ops;
  }

  lemma {:induction false} InsideDisciplined(th: Thread, ending: Breaker.Ending)
    requires (th.stage.Entered? || th.stage.Inside?) && Disciplined(th)
    ensures Disciplined(th.(stage := Inside(th.stage.start)))
    ensures Disciplined(th.(stage := Left(th.stage.start, ending)))
  {
  }

  lemma {:induction false} FreshDisciplined(backend: nat)
    ensures Disciplined(Thread(Waiting, 0, backend, FRESH, [], []))
  {
  }

  /** The thread a step is about, if it is about one. */
  function Mover(s: Step): Option<nat> {
    if s.Tick? || s.Health? then None else Some(s.t)
  }

  lemma {:induction false} OthersUntouched(cfg: Breaker.Settings, w: World, s: Step)
    requires Enabled(w, s)
    ensures forall t :: t in Next(cfg, w, s).threads && Some(t) != Mover(s) ==>
              t in w.threads && Next(cfg, w, s).threads[t] == w.threads[t]
  {
  }

  lemma {:induction false} MoverDisciplined(cfg: Breaker.Settings, w: World, s: Step, t: nat)
    requires Enabled(w, s) && Mover(s) == Some(t) && (t in w.threads ==> Disciplined(w.threads[t]))
    ensures t in Next(cfg, w, s).threads && Disciplined(Next(cfg, w, s).threads[t])
  {
    match s
    case Begin(_, backend) => FreshDisciplined(backend);
    case Enter(_) => EnterDisciplined(cfg, w, t);
    case Inc(_) => InsideDisciplined(w.threads[t], Breaker.Succeeded);
    case Proxy(_, op) => ProxyDisciplined(w.threads[t], op);
    case Dec(_, ending) => InsideDisciplined(w.threads[t], ending);
    case Leave(_) => LeaveDisciplined(cfg, w, t);
    case Decide(_, next, length) => DecideDisciplined(w, t, next, length);
  }

  /** The thread a step moves is disciplined again; no step touches another thread. */
  lemma {:induction false} StepDisciplined(cfg: Breaker.Settings, w: World, s: Step)
    requires AllDisciplined(w) && Enabled(w, s)
    ensures AllDisciplined(Next(cfg, w, s))
  {
    forall t | t in Next(cfg, w, s).threads ensures Disciplined(Next(cfg, w, s).threads[t]) {
      if Mover(s) == Some(t) {
        MoverDisciplined(cfg, w, s, t);
      } else {
        OthersUntouched(cfg, w, s);
      }
    }
  }

  /** Nothing finished and nothing was counted. */
  ghost predicate SameMetrics(w: World, v: World) {
    && v.metrics == w.metrics
    && (forall t :: t in w.threads && w.threads[t].stage.Finished? ==> t in v.threads && v.threads[t] == w.threads[t])
    && (forall t :: t in v.threads && v.threads[t].stage.Finished? ==> t in w.threads && w.threads[t].stage.Finished?)
  }

  lemma {:induction false} SameMetricsMetered(w: World, v: World)
    requires Metered(w) && SameMetrics(w, v)
    ensures Metered(v)
  {
  }

  /** One dispatch finished and was counted with its status. */
  lemma {:induction false} FinishMetered(w: World, t: nat, th: Thread)
    requires Metered(w) && t in w.threads && !w.threads[t].stage.Finished? && th.stage.Finished?
    ensures Metered(Put(w, t, th).(metrics := w.metrics + [Metric(t, Status(th.rec))]))
  {
    var v := Put(w, t, th).(metrics := w.metrics + [Metric(t, Status(th.rec))]);
    forall u | u in v.threads && v.threads[u].stage.Finished?
      ensures exists k :: 0 <= k < |v.metrics| && v.metrics[k].thread == u
    {
      if u == t {
        assert v.metrics[|w.metrics|].thread == u;
      } else {
        var k :| 0 <= k < |w.metrics| && w.metrics[k].thread == u;
        assert v.metrics[k].thread == u;
      }
    }
  }

  lemma {:induction false} DecideMetered(w: World, t: nat, next: Option<nat>, length: nat)
    requires Metered(w) && t in w.threads && w.threads[t].stage.Returned? && Disciplined(w.threads[t])
    ensures Metered(DecideStep(w, t, next, length))
  {
    var v := DecideStep(w, t, next, length);
    if v.threads[t].stage.Finished? {
      DecideDisciplined(w, t, next, length);
      assert v == Put(w, t, v.threads[t]).(metrics := w.metrics + [Metric(t, Status(v.threads[t].rec))]);
      FinishMetered(w, t, v.threads[t]);
    } else {
      SameMetricsMetered(w, v);
    }
  }

  lemma {:induction false} UncountedStep(cfg: Breaker.Settings, w: World, s: Step)
    requires Enabled(w, s) && !s.Decide?
    ensures SameMetrics(w, Next(cfg, w, s))
  {
  }

  lemma {:induction false} StepMetered(cfg: Breaker.Settings, w: World, s: Step)
    requires Metered(w) && AllDisciplined(w) && Enabled(w, s)
    ensures Metered(Next(cfg, w, s))
  {
    if s.Decide? {
      DecideMetered(w, s.t, s.next, s.length);
    } else {
      UncountedStep(cfg, w, s);
      SameMetricsMetered(w, Next(cfg, w, s));
    }
  }

  lemma {:induction false} DispatchesDisciplined(cfg: Breaker.Settings, run: seq<Step>)
    ensures AllDisciplined(After(cfg, run)) && Metered(After(cfg, run))
  {
    if run != [] {
      var w, s := After(cfg, run[..|run| - 1]), run[|run| - 1];
      DispatchesDisciplined(cfg, run[..|run| - 1]);
      if Enabled(w, s) {
        StepDisciplined(cfg, w, s);
        StepMetered(cfg, w, s);
      }
    }
  }

  /**
   * In every interleaving every dispatch makes at most three attempts, none once its answer has
   * begun, and finishes or unwinds with the result of the sequential retry loop on its own
   * attempts.
   */
  lemma {:induction false} DispatchRefinesRetry(cfg: Breaker.Settings, run: seq<Step>, t: nat)
    requires t in After(cfg, run).threads
    ensures var th := After(cfg, run).threads[t];
            && |th.log| <= MAX_ATTEMPTS
            && (th.stage.Waiting? || th.stage.Entered? ==> !th.rec.committed)
            && (th.stage.Finished? ==>
                  var res := Retry(Padded(th.log), th.stage.length, 0);
                  res.made == |th.log| && res.rec == th.rec && res.metric == Some(Status(th.rec)))
            && (th.stage.Unwound? ==>
                  var res := Retry(Padded(th.log), 0, 0);
                  res.made == |th.log| && res.rec == th.rec && res.metric == None)
  {
    DispatchesDisciplined(cfg, run);
    var th := After(cfg, run).threads[t];
    assert Disciplined(th);
    if (th.stage.Waiting? || th.stage.Entered?) && th.log != [] {
      assert !Decisive(th.log, |th.log| - 1);
    }
  }

  /** In every interleaving a counted status is the client's exactly when the operations agree. */
  lemma {:induction false} MeteredIsClients(cfg: Breaker.Settings, run: seq<Step>, k: nat)
    requires k < |After(cfg, run).metrics|
    ensures var w := After(cfg, run);
            var m := w.metrics[k];
            && m.thread in w.threads && w.threads[m.thread].stage.Finished?
            && var th := w.threads[m.thread];
               && |th.log| <= MAX_ATTEMPTS
               && (AtReturn(th.rec.wire).status == Some(m.status) <==>
                   Agreeing(Answer(Padded(th.log), th.stage.length)))
  {
    DispatchesDisciplined(cfg, run);
    var w := After(cfg, run);
    var th := w.threads[w.metrics[k].thread];
    assert Disciplined(th);
    CountedIsClients(Padded(th.log), th.stage.length);
  }
}
