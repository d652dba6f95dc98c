/** How many requests of one address the two DDoS checks let through, over every interleaving. */
module Admission {
  import opened Text
  import opened DDoS

  /**
   * A request passes two checks that other requests and cleanups may come between: `Arrive`
   * asks IsBlocked, `Proceed` records the request if that answered no.
   */
  datatype Step =
    | Arrive(id: nat, ip: string)
    | Proceed(id: nat)
    | Sweep
    | Exempt(ip: string)
    | Ban(ip: string)

  datatype Moment = Moment(step: Step, at: int)

  datatype Admitted = Admitted(ip: string, at: int)

  datatype Gate = Gate(guard: Guard, cleared: map<nat, string>, admitted: seq<Admitted>)

  function Next(lim: Limits, s: Gate, m: Moment): Gate {
    match m.step
    case Arrive(id, ip) =>
      Gate(AfterCheck(s.guard, ip, m.at),
           if Denied(s.guard, ip, m.at) then s.cleared - {id} else s.cleared[id := ip],
           s.admitted)
    case Proceed(id) =>
      if id !in s.cleared then s
      else
        var ip := s.cleared[id];
        Gate(AfterRecord(lim, s.guard, ip, m.at), s.cleared - {id},
             if Tripped(lim, s.guard, ip, m.at) then s.admitted else s.admitted + [Admitted(ip, m.at)])
    case Sweep => s.(guard := AfterCleanup(s.guard, m.at))
    case Exempt(ip) => s.(guard := s.guard.(whitelist := s.guard.whitelist + {ip}))
    case Ban(ip) => s.(guard := s.guard.(blacklist := s.guard.blacklist + {ip}))
  }

  /** The gate after a run from an empty guard. */
  function After(lim: Limits, run: seq<Moment>): Gate {
    if run == [] then Gate(EMPTY, map[], [])
    else Next(lim, After(lim, run[..|run| - 1]), run[|run| - 1])
  }

  ghost predicate Ordered(run: seq<Moment>) {
    forall i, j :: 0 <= i < j < |run| ==> run[i].at <= run[j].at
  }

  /** When requests of `ip` were let through. */
  function TimesOf(log: seq<Admitted>, ip: string): seq<int> {
    if log == [] then []
    else
      var rest := TimesOf(log[..|log| - 1], ip);
      if log[|log| - 1].ip == ip then rest + [log[|log| - 1].at] else rest
  }

  /** How many of these times lie in the closed interval. */
  function CountIn(times: seq<int>, from: int, to: int): nat {
    if times == [] then 0
    else CountIn(times[..|times| - 1], from, to) + if from <= times[|times| - 1] <= to then 1 else 0
  }

  /** Admissions per counter window: the threshold, but always at least one. */
  function PerWindow(lim: Limits): (r: nat)
    ensures r >= 1
  {
    if lim.threshold < 1 then 1 else lim.threshold
  }

  function Min(a: int, b: int): int {
    if a < b then a else b
  }

  /********** Windows behind a run **********/

  ghost predicate Nondecreasing(s: seq<int>) {
    forall i, j :: 0 <= i < j < |s| ==> s[i] <= s[j]
  }

  ghost predicate Until(times: seq<int>, now: int) {
    forall k :: 0 <= k < |times| ==> times[k] <= now
  }

  /** Window openings are more than a minute apart. */
  ghost predicate Apart(firsts: seq<int>) {
    forall i, j :: 0 <= i < j < |firsts| ==> firsts[i] + MINUTE < firsts[j]
  }

  /** Every admission lies in its window. */
  ghost predicate Placed(times: seq<int>, firsts: seq<int>, win: seq<int>) {
    |win| == |times| &&
    forall k :: 0 <= k < |win| ==> 0 <= win[k] < |firsts| && firsts[win[k]] <= times[k] <= firsts[win[k]] + MINUTE
  }

  /** No window holds more than `per` admissions. */
  ghost predicate Spaced(per: nat, win: seq<int>) {
    forall i, j :: 0 <= i && i + per <= j < |win| ==> win[i] < win[j]
  }

  /** The first admission of a window is the one that opened it. */
  ghost predicate Opened(times: seq<int>, firsts: seq<int>, win: seq<int>)
    requires Placed(times, firsts, win)
  {
    forall k :: 0 <= k < |win| ==> times[k] == firsts[win[k]] || (k > 0 && win[k - 1] == win[k])
  }

  /** The newest window holds exactly the last `size` admissions. */
  ghost predicate Newest(per: nat, firsts: seq<int>, win: seq<int>, size: nat) {
    size <= per && size <= |win| &&
    forall k :: 0 <= k < |win| ==> (win[k] == |firsts| - 1 <==> |win| - size <= k)
  }

  /**
   * `firsts` are the openings of the counter windows so far, `win` the window each admission
   * fell into, and `size` the number of admissions in the newest window.
   */
  ghost predicate Windows(per: nat, times: seq<int>, firsts: seq<int>, win: seq<int>, size: nat) {
    && Nondecreasing(times) && Nondecreasing(win) && Apart(firsts)
    && Placed(times, firsts, win) && Opened(times, firsts, win)
    && Spaced(per, win) && Newest(per, firsts, win, size)
  }

  /** How the guard's counter for the address reflects the newest window. */
  ghost predicate Tracks(per: nat, g: Guard, ip: string, now: int, firsts: seq<int>, size: nat) {
    && (firsts != [] ==> firsts[|firsts| - 1] <= now)
    && if ip in g.requests then
         && firsts != [] && g.requests[ip].firstSeen == firsts[|firsts| - 1]
         && g.requests[ip].count >= 1 && size == Min(g.requests[ip].count, per)
       else
         firsts != [] ==> now - firsts[|firsts| - 1] > MINUTE
  }

  lemma {:induction false} ApartAppend(firsts: seq<int>, now: int)
    requires Apart(firsts) && (firsts != [] ==> firsts[|firsts| - 1] + MINUTE < now)
    ensures Apart(firsts + [now])
    ensures forall i :: 0 <= i < |firsts| ==> firsts[i] + MINUTE < now
  {
  }

  lemma {:induction false} SpacedAppend(per: nat, firsts: seq<int>, win: seq<int>, size: nat, w: int)
    requires Nondecreasing(win) && Spaced(per, win) && Newest(per, firsts, win, size)
    requires forall k :: 0 <= k < |win| ==> win[k] < |firsts|
    requires per >= 1 && (w == |firsts| || (w == |firsts| - 1 && size < per))
    ensures Spaced(per, win + [w]) && Nondecreasing(win + [w])
  {
  }

  lemma {:induction false} PlacedAppend(times: seq<int>, firsts: seq<int>, win: seq<int>, now: int)
    requires Placed(times, firsts, win) && Opened(times, firsts, win)
    ensures var more := firsts + [now];
            Placed(times + [now], more, win + [|firsts|]) && Opened(times + [now], more, win + [|firsts|])
  {
  }

  lemma {:induction false} OpenWindow(per: nat, times: seq<int>, firsts: seq<int>, win: seq<int>, size: nat, now: int)
    requires per >= 1 && Windows(per, times, firsts, win, size)
    requires firsts != [] ==> firsts[|firsts| - 1] + MINUTE < now
    requires Until(times, now)
    ensures Windows(per, times + [now], firsts + [now], win + [|firsts|], 1)
  {
    ApartAppend(firsts, now);
    SpacedAppend(per, firsts, win, size, |firsts|);
    PlacedAppend(times, firsts, win, now);
    assert Nondecreasing(times + [now]);
    assert Newest(per, firsts + [now], win + [|firsts|], 1);
  }

  lemma {:induction false} ExtendWindow(per: nat, times: seq<int>, firsts: seq<int>, win: seq<int>, size: nat, now: int)
    requires Windows(per, times, firsts, win, size) && 1 <= size < per
    requires firsts != [] && firsts[|firsts| - 1] <= now <= firsts[|firsts| - 1] + MINUTE
    requires Until(times, now)
    ensures Windows(per, times + [now], firsts, win + [|firsts| - 1], size + 1)
  {
    assert win[|win| - 1] == |firsts| - 1;
    SpacedAppend(per, firsts, win, size, |firsts| - 1);
    assert Placed(times + [now], firsts, win + [|firsts| - 1]);
    assert Opened(times + [now], firsts, win + [|firsts| - 1]) by {
      assert (win + [|firsts| - 1])[|win| - 1] == |firsts| - 1;
    }
    assert Nondecreasing(times + [now]);
    assert Newest(per, firsts, win + [|firsts| - 1], size + 1);
  }

  /** The step admits a request of `ip`. */
  predicate Admits(lim: Limits, s: Gate, m: Moment, ip: string) {
    m.step.Proceed? && m.step.id in s.cleared && s.cleared[m.step.id] == ip && !Tripped(lim, s.guard, ip, m.at)
  }

  lemma {:induction false} TimesAfter(lim: Limits, s: Gate, m: Moment, ip: string)
    ensures TimesOf(Next(lim, s, m).admitted, ip) ==
            TimesOf(s.admitted, ip) + if Admits(lim, s, m, ip) then [m.at] else []
  {
  }

  lemma {:induction false} QuietStep(lim: Limits, s: Gate, m: Moment, ip: string, firsts: seq<int>, size: nat)
    requires !Admits(lim, s, m, ip) && ip !in Next(lim, s, m).guard.whitelist
    requires Tracks(PerWindow(lim), s.guard, ip, m.at, firsts, size)
    ensures Tracks(PerWindow(lim), Next(lim, s, m).guard, ip, m.at, firsts, size)
  {
  }

  lemma {:induction false} AdmittingStep(lim: Limits, s: Gate, m: Moment, ip: string, firsts: seq<int>,
            win: seq<int>, size: nat)
    returns (firsts': seq<int>, win': seq<int>, size': nat)
    requires Admits(lim, s, m, ip) && ip !in s.guard.whitelist
    requires Windows(PerWindow(lim), TimesOf(s.admitted, ip), firsts, win, size)
    requires Tracks(PerWindow(lim), s.guard, ip, m.at, firsts, size)
    requires Until(TimesOf(s.admitted, ip), m.at)
    ensures Windows(PerWindow(lim), TimesOf(s.admitted, ip) + [m.at], firsts', win', size')
    ensures Tracks(PerWindow(lim), AfterRecord(lim, s.guard, ip, m.at), ip, m.at, firsts', size')
  {
    var times, per := TimesOf(s.admitted, ip), PerWindow(lim);
    if ip !in s.guard.requests || Expired(s.guard.requests[ip], m.at) {
      OpenWindow(per, times, firsts, win, size, m.at);
      firsts', win', size' := firsts + [m.at], win + [|firsts|], 1;
    } else {
      ExtendWindow(per, times, firsts, win, size, m.at);
      firsts', win', size' := firsts, win + [|firsts| - 1], size + 1;
    }
  }

  /** The windows explain the gate: its log for `ip`, its counter, and times up to `now`. */
  ghost predicate Explains(lim: Limits, s: Gate, ip: string, now: int, firsts: seq<int>, win: seq<int>, size: nat) {
    && Windows(PerWindow(lim), TimesOf(s.admitted, ip), firsts, win, size)
    && Tracks(PerWindow(lim), s.guard, ip, now, firsts, size)
    && Until(TimesOf(s.admitted, ip), now)
  }

  lemma {:induction false} ExplainsStep(lim: Limits, s: Gate, m: Moment, ip: string, firsts: seq<int>,
            win: seq<int>, size: nat)
    returns (firsts': seq<int>, win': seq<int>, size': nat)
    requires Explains(lim, s, ip, m.at, firsts, win, size) && ip !in Next(lim, s, m).guard.whitelist
    ensures Explains(lim, Next(lim, s, m), ip, m.at, firsts', win', size')
  {
    TimesAfter(lim, s, m, ip);
    if Admits(lim, s, m, ip) {
      firsts', win', size' := AdmittingStep(lim, s, m, ip, firsts, win, size);
      assert Until(TimesOf(s.admitted, ip) + [m.at], m.at);
    } else {
      firsts', win', size' := firsts, win, size;
      QuietStep(lim, s, m, ip, firsts, size);
      assert TimesOf(s.admitted, ip) + [] == TimesOf(s.admitted, ip);
    }
  }

  lemma {:induction false} ExplainsLater(lim: Limits, s: Gate, ip: string, now: int, later: int,
            firsts: seq<int>, win: seq<int>, size: nat)
    requires Explains(lim, s, ip, now, firsts, win, size) && now <= later
    ensures Explains(lim, s, ip, later, firsts, win, size)
  {
  }

  lemma {:induction false} WhitelistGrows(lim: Limits, s: Gate, m: Moment)
    ensures s.guard.whitelist <= Next(lim, s, m).guard.whitelist
  {
  }

  /** Every run is explained by some windows. */
  lemma {:induction false} RunHasWindows(lim: Limits, run: seq<Moment>, ip: string, now: int)
    returns (firsts: seq<int>, win: seq<int>, size: nat)
    requires Ordered(run) && forall i :: 0 <= i < |run| ==> run[i].at <= now
    requires ip !in After(lim, run).guard.whitelist
    ensures Explains(lim, After(lim, run), ip, now, firsts, win, size)
    decreases |run|
  {
    if run == [] {
      firsts, win, size := [], [], 0;
    } else {
      var init, m := run[..|run| - 1], run[|run| - 1];
      WhitelistGrows(lim, After(lim, init), m);
      firsts, win, size := RunHasWindows(lim, init, ip, m.at);
      firsts, win, size := ExplainsStep(lim, After(lim, init), m, ip, firsts, win, size);
      ExplainsLater(lim, After(lim, run), ip, m.at, now, firsts, win, size);
    }
  }

  /********** Both checks count **********/

  predicate Concerns(step: Step, id: nat) {
    (step.Arrive? || step.Proceed?) && step.id == id
  }

  /** The request `id` of `ip` passed the first check at `i`, and nothing has happened to it since. */
  ghost predicate PassedAt(lim: Limits, run: seq<Moment>, id: nat, ip: string, i: nat) {
    && i < |run| && run[i].step == Arrive(id, ip)
    && !Denied(After(lim, run[..i]).guard, ip, run[i].at)
    && forall k :: i < k < |run| ==> !Concerns(run[k].step, id)
  }

  ghost predicate Passed(lim: Limits, run: seq<Moment>, id: nat, ip: string) {
    exists i: nat :: PassedAt(lim, run, id, ip, i)
  }

  lemma {:induction false} PassedStep(lim: Limits, run: seq<Moment>, id: nat, ip: string)
    requires run != []
    ensures var init, m := run[..|run| - 1], run[|run| - 1];
            Passed(lim, run, id, ip) <==>
            if Concerns(m.step, id) then m.step == Arrive(id, ip) && !Denied(After(lim, init).guard, ip, m.at)
            else Passed(lim, init, id, ip)
  {
    var init, n := run[..|run| - 1], |run| - 1;
    if Passed(lim, run, id, ip) {
      var i: nat :| PassedAt(lim, run, id, ip, i);
      assert i < n ==> init[..i] == run[..i] && PassedAt(lim, init, id, ip, i);
    }
    if !Concerns(run[n].step, id) && Passed(lim, init, id, ip) {
      var i: nat :| PassedAt(lim, init, id, ip, i);
      assert init[..i] == run[..i];
      assert PassedAt(lim, run, id, ip, i);
    }
    if run[n].step == Arrive(id, ip) && !Denied(After(lim, init).guard, ip, run[n].at) {
      assert PassedAt(lim, run, id, ip, n);
    }
  }

  /** A request waits for the second check exactly if the first has let it through. */
  lemma {:induction false} ClearedExactly(lim: Limits, run: seq<Moment>, id: nat, ip: string)
    ensures var s := After(lim, run);
            id in s.cleared && s.cleared[id] == ip <==> Passed(lim, run, id, ip)
  {
    if run != [] {
      ClearedExactly(lim, run[..|run| - 1], id, ip);
      PassedStep(lim, run, id, ip);
    }
  }

  /** Exactly the steps that admit: the second check of a request that passed the first, not tripped. */
  lemma {:induction false} AdmittedExactly(lim: Limits, run: seq<Moment>, m: Moment, ip: string)
    ensures TimesOf(After(lim, run + [m]).admitted, ip) ==
            TimesOf(After(lim, run).admitted, ip) +
            if m.step.Proceed? && Passed(lim, run, m.step.id, ip) && !Tripped(lim, After(lim, run).guard, ip, m.at)
            then [m.at] else []
  {
    assert (run + [m])[..|run|] == run;
    TimesAfter(lim, After(lim, run), m, ip);
    if m.step.Proceed? {
      ClearedExactly(lim, run, m.step.id, ip);
    }
  }

  /** What a step asks of the guard behind the gate. */
  function EventOf(s: Gate, m: Moment): seq<Event> {
    match m.step
    case Arrive(_, ip) => [Event(IsBlocked(ip), m.at)]
    case Proceed(id) => if id in s.cleared then [Event(RecordRequest(s.cleared[id]), m.at)] else []
    case Sweep => [Event(Cleanup, m.at)]
    case Exempt(ip) => [Event(Whitelist(ip), m.at)]
    case Ban(ip) => [Event(Blacklist(ip), m.at)]
  }

  function EventsOf(lim: Limits, run: seq<Moment>): seq<Event> {
    if run == [] then []
    else EventsOf(lim, run[..|run| - 1]) + EventOf(After(lim, run[..|run| - 1]), run[|run| - 1])
  }

  lemma {:induction false} StepRuns(lim: Limits, s: Gate, m: Moment)
    ensures Next(lim, s, m).guard ==
            if EventOf(s, m) == [] then s.guard else DDoS.After(lim, s.guard, EventOf(s, m)[0])
    ensures |EventOf(s, m)| <= 1
  {
  }

  lemma {:induction false} AfterOneMore(lim: Limits, events: seq<Event>, more: seq<Event>)
    requires |more| <= 1
    ensures AfterAll(lim, EMPTY, events + more) ==
            var g := AfterAll(lim, EMPTY, events); if more == [] then g else DDoS.After(lim, g, more[0])
  {
    if more == [] {
      assert events + more == events;
    } else {
      assert (events + more)[..|events|] == events;
    }
  }

  /** The gate's guard is a guard after those events, so its answers are what the events say. */
  lemma {:induction false} GuardRuns(lim: Limits, run: seq<Moment>)
    ensures After(lim, run).guard == AfterAll(lim, EMPTY, EventsOf(lim, run))
  {
    if run != [] {
      var init, m := run[..|run| - 1], run[|run| - 1];
      GuardRuns(lim, init);
      StepRuns(lim, After(lim, init), m);
      AfterOneMore(lim, EventsOf(lim, init), EventOf(After(lim, init), m));
    }
  }

  /********** Bounds **********/

  /** No counter window of a run admits more than the threshold, and the newest is the guard's own. */
  lemma {:induction false} AdmittedPerWindow(lim: Limits, run: seq<Moment>, ip: string, now: int)
    returns (firsts: seq<int>, win: seq<int>, size: nat)
    requires Ordered(run) && forall i :: 0 <= i < |run| ==> run[i].at <= now
    requires ip !in After(lim, run).guard.whitelist
    ensures Explains(lim, After(lim, run), ip, now, firsts, win, size)
    ensures forall w :: Holding(win, w) <= PerWindow(lim)
  {
    firsts, win, size := RunHasWindows(lim, run, ip, now);
    forall w ensures Holding(win, w) <= PerWindow(lim) {
      HoldingAtMost(PerWindow(lim), win, w);
    }
  }

  /** How many admissions fell into window `w`. */
  function Holding(win: seq<int>, w: int): nat {
    CountIn(win, w, w)
  }

  lemma {:induction false} HoldingAtMost(per: nat, win: seq<int>, w: int)
    requires per >= 1 && Nondecreasing(win) && Spaced(per, win)
    ensures Holding(win, w) <= per
  {
    CountAtMost(win, w, w, per);
  }

  /** Two admissions that are 2 * per - 1 apart in order are more than a minute apart in time. */
  lemma {:induction false} FarApart(per: nat, times: seq<int>, firsts: seq<int>, win: seq<int>, size: nat,
            i: nat, j: nat)
    requires per >= 1 && Windows(per, times, firsts, win, size)
    requires i + 2 * per - 1 <= j < |times|
    ensures times[i] + MINUTE < times[j]
  {
    assert times[i] == firsts[win[i]] || (i > 0 && win[i - 1] == win[i]);
    if times[i] == firsts[win[i]] {
      assert win[i] < win[j];
    } else {
      var mid := i - 1 + per;
      assert win[i - 1] < win[mid] && win[mid] < win[j];
      assert firsts[win[i]] + MINUTE < firsts[win[mid]] && firsts[win[mid]] + MINUTE < firsts[win[j]];
    }
  }

  lemma {:induction false} CountAtMost(times: seq<int>, from: int, to: int, most: nat)
    requires most >= 1 && Nondecreasing(times)
    requires forall i, j :: 0 <= i && i + most <= j < |times| ==> times[i] + (to - from) < times[j]
    ensures CountIn(times, from, to) <= most
    decreases |times|
  {
    if times != [] {
      var init, last := times[..|times| - 1], times[|times| - 1];
      CountAtMost(init, from, to, most);
      if from <= last <= to {
        if |times| <= most {
          CountSize(init, from, to);
        } else {
          var cut := |times| - most;
          forall k | 0 <= k < cut ensures times[k] < from {
            assert k + most <= |times| - 1;
          }
          CountSuffix(init, from, to, cut);
        }
      }
    }
  }

  lemma {:induction false} CountSize(times: seq<int>, from: int, to: int)
    ensures CountIn(times, from, to) <= |times|
  {
    if times != [] {
      CountSize(times[..|times| - 1], from, to);
    }
  }

  lemma {:induction false} CountSuffix(times: seq<int>, from: int, to: int, cut: nat)
    requires cut <= |times| && forall k :: 0 <= k < cut ==> times[k] < from
    ensures CountIn(times, from, to) <= |times| - cut
  {
    if times != [] && cut < |times| {
      CountSuffix(times[..|times| - 1], from, to, cut);
    } else if times != [] {
      CountSuffix(times[..|times| - 1], from, to, cut - 1);
    }
  }

  /**
   * Any closed minute admits at most twice the threshold less one, whatever the interleaving,
   * the cleanups and the block duration.
   */
  lemma {:induction false} SlidingBound(lim: Limits, run: seq<Moment>, ip: string, from: int)
    requires Ordered(run)
    requires ip !in After(lim, run).guard.whitelist
    ensures CountIn(TimesOf(After(lim, run).admitted, ip), from, from + MINUTE) <= 2 * PerWindow(lim) - 1
  {
    var times, per := TimesOf(After(lim, run).admitted, ip), PerWindow(lim);
    var now := if run == [] then 0 else run[|run| - 1].at;
    var firsts, win, size := RunHasWindows(lim, run, ip, now);
    forall i, j | 0 <= i && i + (2 * per - 1) <= j < |times| ensures times[i] + MINUTE < times[j] {
      FarApart(per, times, firsts, win, size, i, j);
    }
    CountAtMost(times, from, from + MINUTE, 2 * per - 1);
  }

  /********** The bound is reached **********/

  /** `n` requests of one address, one after the other, at one moment. */
  function Burst(ip: string, n: nat, at: int): seq<Moment> {
    if n == 0 then [] else Burst(ip, n - 1, at) + Pair(ip, at)
  }

  predicate Unlisted(g: Guard, ip: string) {
    ip !in g.whitelist && ip !in g.blacklist && ip !in g.blocked
  }

  /** The address is unlisted, its counter is `c`, and `n` of its requests fell in the second minute. */
  predicate Stands(s: Gate, ip: string, c: RequestCounter, n: nat) {
    && Unlisted(s.guard, ip) && ip in s.guard.requests && s.guard.requests[ip] == c
    && CountIn(TimesOf(s.admitted, ip), MINUTE, MINUTE + MINUTE) == n
  }

  predicate SecondMinute(at: int) {
    MINUTE <= at <= MINUTE + MINUTE
  }

  function Pair(ip: string, at: int): seq<Moment> {
    [Moment(Arrive(0, ip), at), Moment(Proceed(0), at)]
  }

  lemma {:induction false} AfterPair(lim: Limits, run: seq<Moment>, ip: string, at: int)
    ensures After(lim, run + Pair(ip, at)) ==
            Next(lim, Next(lim, After(lim, run), Moment(Arrive(0, ip), at)), Moment(Proceed(0), at))
  {
    var arrived := run + [Moment(Arrive(0, ip), at)];
    var more := run + Pair(ip, at);
    assert more[..|more| - 1] == arrived && arrived[..|arrived| - 1] == run;
  }

  lemma {:induction false} ArrivePasses(lim: Limits, s: Gate, ip: string, at: int)
    requires Unlisted(s.guard, ip)
    ensures Next(lim, s, Moment(Arrive(0, ip), at)) == s.(cleared := s.cleared[0 := ip])
  {
  }

  lemma {:induction false} CountAppend(times: seq<int>, at: int, from: int, to: int)
    ensures CountIn(times + [at], from, to) == CountIn(times, from, to) + if from <= at <= to then 1 else 0
  {
    assert (times + [at])[..|times|] == times;
  }

  lemma {:induction false} ProceedAdmits(lim: Limits, s: Gate, ip: string, at: int)
    requires 0 in s.cleared && s.cleared[0] == ip && Unlisted(s.guard, ip) && !Tripped(lim, s.guard, ip, at)
    ensures Stands(Next(lim, s, Moment(Proceed(0), at)), ip, Counted(s.guard, ip, at),
                   CountIn(TimesOf(s.admitted, ip), MINUTE, MINUTE + MINUTE) + if SecondMinute(at) then 1 else 0)
  {
    TimesAfter(lim, s, Moment(Proceed(0), at), ip);
    CountAppend(TimesOf(s.admitted, ip), at, MINUTE, MINUTE + MINUTE);
  }

  lemma {:induction false} PairAdmitted(lim: Limits, s: Gate, ip: string, at: int)
    requires Unlisted(s.guard, ip) && !Tripped(lim, s.guard, ip, at)
    ensures Stands(Next(lim, Next(lim, s, Moment(Arrive(0, ip), at)), Moment(Proceed(0), at)), ip,
                   Counted(s.guard, ip, at),
                   CountIn(TimesOf(s.admitted, ip), MINUTE, MINUTE + MINUTE) + if SecondMinute(at) then 1 else 0)
  {
    ArrivePasses(lim, s, ip, at);
    ProceedAdmits(lim, s.(cleared := s.cleared[0 := ip]), ip, at);
  }

  /** A burst seen as one step of the gate. */
  function Play(lim: Limits, s: Gate, ip: string, n: nat, at: int): Gate {
    if n == 0 then s
    else Next(lim, Next(lim, Play(lim, s, ip, n - 1, at), Moment(Arrive(0, ip), at)), Moment(Proceed(0), at))
  }

  lemma {:induction false} PlayIsBurst(lim: Limits, run: seq<Moment>, ip: string, n: nat, at: int)
    ensures After(lim, run + Burst(ip, n, at)) == Play(lim, After(lim, run), ip, n, at)
  {
    if n == 0 {
      assert run + [] == run;
    } else {
      PlayIsBurst(lim, run, ip, n - 1, at);
      AfterPair(lim, run + Burst(ip, n - 1, at), ip, at);
      ConcatAssoc(run, Burst(ip, n - 1, at), Pair(ip, at));
    }
  }

  lemma {:induction false} BurstAdmitted(lim: Limits, s: Gate, ip: string, n: nat, at: int, c: RequestCounter, k: nat)
    requires Stands(s, ip, c, k)
    requires !Expired(c, at) && (n == 0 || c.count + n <= lim.threshold)
    ensures Stands(Play(lim, s, ip, n, at), ip, RequestCounter(c.count + n, c.firstSeen),
                   k + if SecondMinute(at) then n else 0)
  {
    if n > 0 {
      BurstAdmitted(lim, s, ip, n - 1, at, c, k);
      PairAdmitted(lim, Play(lim, s, ip, n - 1, at), ip, at);
    }
  }

  lemma {:induction false} BurstAt(ip: string, n: nat, at: int)
    ensures forall i :: 0 <= i < |Burst(ip, n, at)| ==> Burst(ip, n, at)[i].at == at
  {
    if n > 0 {
      BurstAt(ip, n - 1, at);
    }
  }

  ghost predicate UpTo(run: seq<Moment>, at: int) {
    forall i :: 0 <= i < |run| ==> run[i].at <= at
  }

  lemma {:induction false} OrderedConcat(a: seq<Moment>, b: seq<Moment>, at: int)
    requires Ordered(a) && UpTo(a, at) && forall i :: 0 <= i < |b| ==> b[i].at == at
    ensures Ordered(a + b) && UpTo(a + b, at)
  {
  }

  /** A window opens with one request at `at`, then fills at `full`. */
  lemma {:induction false} FillWindow(lim: Limits, run: seq<Moment>, ip: string, at: int, full: int,
            k: nat) returns (more: seq<Moment>)
    requires Ordered(run) && UpTo(run, at) && at <= full <= at + MINUTE
    requires Unlisted(After(lim, run).guard, ip)
    requires ip in After(lim, run).guard.requests ==> Expired(After(lim, run).guard.requests[ip], at)
    requires k == CountIn(TimesOf(After(lim, run).admitted, ip), MINUTE, MINUTE + MINUTE)
    ensures Ordered(more) && UpTo(more, full)
    ensures Stands(After(lim, more), ip, RequestCounter(PerWindow(lim), at),
                   k + (if SecondMinute(at) then 1 else 0) + if SecondMinute(full) then PerWindow(lim) - 1 else 0)
  {
    var n, begun := PerWindow(lim) - 1, run + Pair(ip, at);
    var k' := k + if SecondMinute(at) then 1 else 0;
    AfterPair(lim, run, ip, at);
    PairAdmitted(lim, After(lim, run), ip, at);
    OrderedConcat(run, Pair(ip, at), at);
    BurstAdmitted(lim, After(lim, begun), ip, n, full, RequestCounter(1, at), k');
    PlayIsBurst(lim, begun, ip, n, full);
    BurstAt(ip, n, full);
    OrderedConcat(begun, Burst(ip, n, full), full);
    more := begun + Burst(ip, n, full);
  }

  /**
   * For every threshold some run admits exactly that many requests in one closed minute: a
   * window that opens at 0 fills at the end of its minute, the next one a tick later.
   */
  lemma {:induction false} SlidingBoundReached(lim: Limits, ip: string) returns (run: seq<Moment>)
    ensures Ordered(run) && ip !in After(lim, run).guard.whitelist
    ensures CountIn(TimesOf(After(lim, run).admitted, ip), MINUTE, MINUTE + MINUTE) == 2 * PerWindow(lim) - 1
  {
    run := FillWindow(lim, [], ip, 0, MINUTE, 0);
    run := FillWindow(lim, run, ip, MINUTE + 1, MINUTE + 1, PerWindow(lim) - 1);
  }
}
