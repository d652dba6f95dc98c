/** DDoS protection: windowed request counters, blocking and background cleanup. */
module DDoS {
  /** One minute in nanoseconds, the unit of all times here. */
  const MINUTE: int := 60_000_000_000

  datatype RequestCounter = RequestCounter(count: int, firstSeen: int)

  datatype Limits = Limits(threshold: int, duration: int)

  datatype Guard = Guard(
    requests: map<string, RequestCounter>,
    blocked: map<string, int>,
    whitelist: set<string>,
    blacklist: set<string>)

  const EMPTY: Guard := Guard(map[], map[], {}, {})

  /********** One step of each operation **********/

  datatype Op =
    | IsBlocked(ip: string)
    | RecordRequest(ip: string)
    | Cleanup
    | Whitelist(ip: string)
    | Blacklist(ip: string)

  datatype Event = Event(op: Op, at: int)

  predicate Expired(c: RequestCounter, now: int) {
    now - c.firstSeen > MINUTE
  }

  /** The answer of IsBlocked. */
  predicate Denied(g: Guard, ip: string, now: int) {
    ip !in g.whitelist && (ip in g.blacklist || (ip in g.blocked && now < g.blocked[ip]))
  }

  function AfterCheck(g: Guard, ip: string, now: int): Guard {
    if ip !in g.whitelist && ip !in g.blacklist && ip in g.blocked && g.blocked[ip] <= now
    then g.(blocked := g.blocked - {ip}) else g
  }

  /** The counter RecordRequest leaves behind for a counted address. */
  function Counted(g: Guard, ip: string, now: int): RequestCounter {
    if ip !in g.requests || Expired(g.requests[ip], now) then RequestCounter(1, now)
    else RequestCounter(g.requests[ip].count + 1, g.requests[ip].firstSeen)
  }

  /** The answer of RecordRequest: this request exceeded the threshold. */
  predicate Tripped(lim: Limits, g: Guard, ip: string, now: int) {
    && ip !in g.whitelist
    && ip in g.requests && !Expired(g.requests[ip], now)
    && g.requests[ip].count + 1 > lim.threshold
  }

  function AfterRecord(lim: Limits, g: Guard, ip: string, now: int): Guard {
    if ip in g.whitelist then g
    else g.(requests := g.requests[ip := Counted(g, ip, now)],
            blocked := if Tripped(lim, g, ip, now) then g.blocked[ip := now + lim.duration] else g.blocked)
  }

  function AfterCleanup(g: Guard, now: int): Guard {
    g.(requests := map ip | ip in g.requests && !Expired(g.requests[ip], now) :: g.requests[ip],
       blocked := map ip | ip in g.blocked && now <= g.blocked[ip] :: g.blocked[ip])
  }

  function After(lim: Limits, g: Guard, e: Event): Guard {
    match e.op
    case IsBlocked(ip) => AfterCheck(g, ip, e.at)
    case RecordRequest(ip) => AfterRecord(lim, g, ip, e.at)
    case Cleanup => AfterCleanup(g, e.at)
    case Whitelist(ip) => g.(whitelist := g.whitelist + {ip})
    case Blacklist(ip) => g.(blacklist := g.blacklist + {ip})
  }

  function Answer(lim: Limits, g: Guard, e: Event): seq<bool> {
    match e.op
    case IsBlocked(ip) => [Denied(g, ip, e.at)]
    case RecordRequest(ip) => [Tripped(lim, g, ip, e.at)]
    case _ => []
  }

  /********** The guard as it is updated in place **********/

  class DDoSProtection {
    const limits: Limits
    var requests: map<string, RequestCounter>
    var blocked: map<string, int>
    var whitelist: set<string>
    var blacklist: set<string>

    ghost function State(): Guard
      reads this
    {
      Guard(requests, blocked, whitelist, blacklist)
    }

    constructor (threshold: int, duration: int)
      ensures limits == Limits(threshold, duration) && State() == EMPTY
    {
      limits := Limits(threshold, duration);
      requests, blocked, whitelist, blacklist := map[], map[], {}, {};
    }

    method AddToWhitelist(ip: string, now: int)
      modifies this
      ensures State() == After(limits, old(State()), Event(Whitelist(ip), now))
    {
      whitelist := whitelist + {ip};
    }

    method AddToBlacklist(ip: string, now: int)
      modifies this
      ensures State() == After(limits, old(State()), Event(Blacklist(ip), now))
    {
      blacklist := blacklist + {ip};
    }

    method IsBlocked(ip: string, now: int) returns (denied: bool)
      modifies this
      ensures State() == After(limits, old(State()), Event(Op.IsBlocked(ip), now))
      ensures [denied] == Answer(limits, old(State()), Event(Op.IsBlocked(ip), now))
    {
      if ip in whitelist {
        return false;
      }
      if ip in blacklist {
        return true;
      }
      if ip in blocked {
        if now < blocked[ip] {
          return true;
        }
        blocked := blocked - {ip};
      }
      return false;
    }

    method RecordRequest(ip: string, now: int) returns (tripped: bool)
      modifies this
      ensures State() == After(limits, old(State()), Event(Op.RecordRequest(ip), now))
      ensures [tripped] == Answer(limits, old(State()), Event(Op.RecordRequest(ip), now))
    {
      if ip in whitelist {
        return false;
      }
      if ip !in requests {
        requests := requests[ip := RequestCounter(1, now)];
        return false;
      }
      var counter := requests[ip];
      if now - counter.firstSeen > MINUTE {
        requests := requests[ip := RequestCounter(1, now)];
        return false;
      }
      requests := requests[ip := RequestCounter(counter.count + 1, counter.firstSeen)];
      if counter.count + 1 > limits.threshold {
        blocked := blocked[ip := now + limits.duration];
        return true;
      }
      return false;
    }

    /** The maps are walked in any order, as Go walks them. */
    method Cleanup(now: int)
      modifies this
      ensures State() == After(limits, old(State()), Event(Op.Cleanup, now))
      ensures forall ip :: ip in requests <==>
                ip in old(requests) && now - old(requests)[ip].firstSeen <= 60_000_000_000
      ensures forall ip :: ip in blocked <==> ip in old(blocked) && now <= old(blocked)[ip]
    {
      var todo := requests.Keys;
      while todo != {}
        invariant todo <= old(requests.Keys)
        invariant requests == map ip | ip in old(requests) && (ip in todo || !Expired(old(requests)[ip], now)) ::
                                old(requests)[ip]
        invariant blocked == old(blocked) && whitelist == old(whitelist) && blacklist == old(blacklist)
        decreases todo
      {
        var ip :| ip in todo;
        if now - requests[ip].firstSeen > MINUTE {
          requests := requests - {ip};
        }
        todo := todo - {ip};
      }
      todo := blocked.Keys;
      while todo != {}
        invariant todo <= old(blocked.Keys)
        invariant blocked == map ip | ip in old(blocked) && (ip in todo || now <= old(blocked)[ip]) :: old(blocked)[ip]
        invariant requests == AfterCleanup(old(State()), now).requests
        invariant whitelist == old(whitelist) && blacklist == old(blacklist)
        decreases todo
      {
        var ip :| ip in todo;
        if now > blocked[ip] {
          blocked := blocked - {ip};
        }
        todo := todo - {ip};
      }
    }
  }

  /********** Cleanup is unobservable **********/

  /** All answers of a run, in order. */
  function Answers(lim: Limits, g: Guard, run: seq<Event>): seq<bool>
    decreases |run|
  {
    if run == [] then [] else Answer(lim, g, run[0]) + Answers(lim, After(lim, g, run[0]), run[1..])
  }

  /** The same run with every cleanup left out. */
  function WithoutCleanup(run: seq<Event>): seq<Event> {
    if run == [] then []
    else (if run[0].op.Cleanup? then [] else [run[0]]) + WithoutCleanup(run[1..])
  }

  /** Times never go back, and none is before `now`. */
  ghost predicate Timed(run: seq<Event>, now: int) {
    (forall i :: 0 <= i < |run| ==> now <= run[i].at) &&
    (forall i, j :: 0 <= i < j < |run| ==> run[i].at <= run[j].at)
  }

  /** The two counters of one address agree, or the pruned one is gone and the full one has expired. */
  ghost predicate SameWindow(pruned: Guard, full: Guard, now: int, ip: string) {
    if ip in pruned.requests then ip in full.requests && pruned.requests[ip] == full.requests[ip]
    else ip in full.requests ==> Expired(full.requests[ip], now)
  }

  ghost predicate SameBlock(pruned: Guard, full: Guard, now: int, ip: string) {
    if ip in pruned.blocked then ip in full.blocked && pruned.blocked[ip] == full.blocked[ip]
    else ip in full.blocked ==> full.blocked[ip] <= now
  }

  ghost predicate Bisimilar(pruned: Guard, full: Guard, now: int) {
    && pruned.whitelist == full.whitelist && pruned.blacklist == full.blacklist
    && forall ip :: SameWindow(pruned, full, now, ip) && SameBlock(pruned, full, now, ip)
  }

  /** An ordinary step answers alike on both sides and keeps them related. */
  lemma {:induction false} StepBisimilar(lim: Limits, pruned: Guard, full: Guard, now: int, e: Event)
    requires Bisimilar(pruned, full, now) && now <= e.at && !e.op.Cleanup?
    ensures Answer(lim, pruned, e) == Answer(lim, full, e)
    ensures Bisimilar(After(lim, pruned, e), After(lim, full, e), e.at)
  {
    if e.op.IsBlocked? || e.op.RecordRequest? {
      assert SameWindow(pruned, full, now, e.op.ip) && SameBlock(pruned, full, now, e.op.ip);
    }
    forall ip
      ensures SameWindow(After(lim, pruned, e), After(lim, full, e), e.at, ip)
      ensures SameBlock(After(lim, pruned, e), After(lim, full, e), e.at, ip)
    {
      assert SameWindow(pruned, full, now, ip) && SameBlock(pruned, full, now, ip);
    }
  }

  /** Cleaning one side only keeps them related. */
  lemma {:induction false} CleanupBisimilar(pruned: Guard, full: Guard, now: int, at: int)
    requires Bisimilar(pruned, full, now) && now <= at
    ensures Bisimilar(AfterCleanup(pruned, at), full, at)
  {
    forall ip
      ensures SameWindow(AfterCleanup(pruned, at), full, at, ip)
      ensures SameBlock(AfterCleanup(pruned, at), full, at, ip)
    {
      assert SameWindow(pruned, full, now, ip) && SameBlock(pruned, full, now, ip);
    }
  }

  lemma {:induction false} BisimilarAnswers(lim: Limits, pruned: Guard, full: Guard, now: int, run: seq<Event>)
    requires Bisimilar(pruned, full, now) && Timed(run, now)
    ensures Answers(lim, pruned, run) == Answers(lim, full, WithoutCleanup(run))
    decreases |run|
  {
    if run != [] {
      var e, rest := run[0], run[1..];
      assert Timed(rest, e.at);
      if e.op.Cleanup? {
        CleanupBisimilar(pruned, full, now, e.at);
        BisimilarAnswers(lim, AfterCleanup(pruned, e.at), full, e.at, rest);
        assert WithoutCleanup(run) == WithoutCleanup(rest);
        assert Answers(lim, pruned, run) == Answers(lim, AfterCleanup(pruned, e.at), rest);
      } else {
        StepBisimilar(lim, pruned, full, now, e);
        BisimilarAnswers(lim, After(lim, pruned, e), After(lim, full, e), e.at, rest);
        assert WithoutCleanup(run)[0] == e && WithoutCleanup(run)[1..] == WithoutCleanup(rest);
      }
    }
  }

  /** Wherever cleanups fall in a run, every answer is what it would be with none at all. */
  lemma {:induction false} CleanupUnobservable(lim: Limits, g: Guard, now: int, run: seq<Event>)
    requires Timed(run, now)
    ensures Answers(lim, g, run) == Answers(lim, g, WithoutCleanup(run))
  {
    assert forall ip :: SameWindow(g, g, now, ip) && SameBlock(g, g, now, ip);
    BisimilarAnswers(lim, g, g, now, run);
  }

  /********** A block lasts its full duration **********/

  function AfterAll(lim: Limits, g: Guard, run: seq<Event>): Guard {
    if run == [] then g else After(lim, AfterAll(lim, g, run[..|run| - 1]), run[|run| - 1])
  }

  ghost predicate BlockedUntil(g: Guard, ip: string, deadline: int) {
    ip in g.blocked && deadline <= g.blocked[ip]
  }

  lemma {:induction false} BlockKept(lim: Limits, g: Guard, ip: string, since: int, run: seq<Event>)
    requires BlockedUntil(g, ip, since + lim.duration)
    requires forall i :: 0 <= i < |run| ==> since <= run[i].at < since + lim.duration
    ensures BlockedUntil(AfterAll(lim, g, run), ip, since + lim.duration)
  {
    if run != [] {
      BlockKept(lim, g, ip, since, run[..|run| - 1]);
    }
  }

  /** From the request that trips it, an address is denied for the duration, whatever happens. */
  lemma {:induction false} BlockHolds(lim: Limits, g: Guard, ip: string, since: int, run: seq<Event>, at: int)
    requires Tripped(lim, g, ip, since) && since <= at < since + lim.duration
    requires forall i :: 0 <= i < |run| ==> since <= run[i].at <= at
    ensures var h := AfterAll(lim, AfterRecord(lim, g, ip, since), run);
            ip !in h.whitelist ==> Denied(h, ip, at)
  {
    BlockKept(lim, AfterRecord(lim, g, ip, since), ip, since, run);
  }

  /********** Answers from events alone **********/

  ghost predicate Chronological(run: seq<Event>) {
    forall i, j :: 0 <= i < j < |run| ==> run[i].at <= run[j].at
  }

  /** The operation at `j` of a run from an empty guard is answered yes. */
  predicate Affirmed(lim: Limits, run: seq<Event>, j: nat)
    requires j < |run|
  {
    Answer(lim, AfterAll(lim, EMPTY, run[..j]), run[j]) == [true]
  }

  predicate Earlier(run: seq<Event>, k: nat, op: Op)
    requires k <= |run|
  {
    exists i :: 0 <= i < k && run[i].op == op
  }

  /** A request among the first `k` events tripped the guard, and its block lasts beyond `t`. */
  predicate Punished(lim: Limits, run: seq<Event>, k: nat, ip: string, t: int)
    requires k <= |run|
  {
    exists i: nat :: i < k && run[i].op == RecordRequest(ip) && Affirmed(lim, run, i) && t < run[i].at + lim.duration
  }

  ghost predicate UpTo(run: seq<Event>, k: nat, now: int)
    requires k <= |run|
  {
    forall i :: 0 <= i < k ==> run[i].at <= now
  }

  lemma {:induction false} PrefixStep(lim: Limits, run: seq<Event>, k: nat)
    requires k < |run|
    ensures AfterAll(lim, EMPTY, run[..k + 1]) == After(lim, AfterAll(lim, EMPTY, run[..k]), run[k])
  {
    assert run[..k + 1][..k] == run[..k];
  }

  lemma {:induction false} ListsFromEvents(lim: Limits, run: seq<Event>, k: nat, ip: string)
    requires k <= |run|
    ensures var g := AfterAll(lim, EMPTY, run[..k]);
            && (ip in g.whitelist <==> Earlier(run, k, Whitelist(ip)))
            && (ip in g.blacklist <==> Earlier(run, k, Blacklist(ip)))
  {
    if k > 0 {
      ListsFromEvents(lim, run, k - 1, ip);
      PrefixStep(lim, run, k - 1);
    }
  }

  predicate BlockedAt(g: Guard, ip: string, t: int) {
    ip in g.blocked && t < g.blocked[ip]
  }

  /** One event changes who is blocked from then on only if it is a request that trips. */
  lemma {:induction false} BlockStep(lim: Limits, g: Guard, e: Event, ip: string, t: int)
    requires e.at <= t
    ensures BlockedAt(After(lim, g, e), ip, t) ==>
              || BlockedAt(g, ip, t)
              || (e.op == RecordRequest(ip) && Answer(lim, g, e) == [true] && t < e.at + lim.duration)
    ensures BlockedAt(g, ip, t) && !(e.op == RecordRequest(ip) && Answer(lim, g, e) == [true]) ==>
              BlockedAt(After(lim, g, e), ip, t)
    ensures e.op == RecordRequest(ip) && Answer(lim, g, e) == [true] ==>
              (BlockedAt(After(lim, g, e), ip, t) <==> t < e.at + lim.duration)
  {
  }

  lemma {:induction false} BlocksFromEvents(lim: Limits, run: seq<Event>, k: nat, ip: string, t: int)
    requires k <= |run| && Chronological(run) && UpTo(run, k, t)
    ensures BlockedAt(AfterAll(lim, EMPTY, run[..k]), ip, t) <==> Punished(lim, run, k, ip, t)
  {
    if k > 0 {
      BlocksFromEvents(lim, run, k - 1, ip, t);
      BlocksNext(lim, run, k - 1, ip, t);
    }
  }

  lemma {:induction false} BlocksNext(lim: Limits, run: seq<Event>, k: nat, ip: string, t: int)
    requires k < |run| && Chronological(run) && run[k].at <= t
    requires BlockedAt(AfterAll(lim, EMPTY, run[..k]), ip, t) <==> Punished(lim, run, k, ip, t)
    ensures BlockedAt(AfterAll(lim, EMPTY, run[..k + 1]), ip, t) <==> Punished(lim, run, k + 1, ip, t)
  {
    PrefixStep(lim, run, k);
    BlockStep(lim, AfterAll(lim, EMPTY, run[..k]), run[k], ip, t);
    PunishedStep(lim, run, k, ip, t);
  }

  lemma {:induction false} PunishedStep(lim: Limits, run: seq<Event>, k: nat, ip: string, t: int)
    requires k < |run| && Chronological(run)
    ensures Punished(lim, run, k + 1, ip, t) <==>
            if run[k].op == RecordRequest(ip) && Affirmed(lim, run, k) then t < run[k].at + lim.duration
            else Punished(lim, run, k, ip, t)
  {
    if Punished(lim, run, k + 1, ip, t) {
      var i: nat :| i < k + 1 && run[i].op == RecordRequest(ip) && Affirmed(lim, run, i) &&
                    t < run[i].at + lim.duration;
      assert run[i].at <= run[k].at;
    }
  }

  /**
   * Who is denied, from events and answers alone: an address that was never exempted, and was
   * banned or tripped the guard less than the block duration ago.
   */
  lemma {:induction false} DeniedExactly(lim: Limits, run: seq<Event>, j: nat, ip: string)
    requires Chronological(run) && j < |run| && run[j].op == IsBlocked(ip)
    ensures Affirmed(lim, run, j) <==>
            && !Earlier(run, j, Whitelist(ip))
            && (Earlier(run, j, Blacklist(ip)) || Punished(lim, run, j, ip, run[j].at))
  {
    ListsFromEvents(lim, run, j, ip);
    BlocksFromEvents(lim, run, j, ip, run[j].at);
  }

  /** The request at `i` opens a counting window: every earlier one opened more than a minute before. */
  predicate Opens(run: seq<Event>, ip: string, i: nat)
    requires i < |run|
    decreases i
  {
    run[i].op == RecordRequest(ip) &&
    forall k: nat :: k < i && Opens(run, ip, k) ==> run[i].at - run[k].at > 60_000_000_000
  }

  /** The requests of an address among the events from `i` up to `j`. */
  function Requests(run: seq<Event>, ip: string, i: nat, j: nat): nat
    requires i <= j <= |run|
  {
    if i == j then 0 else Requests(run, ip, i, j - 1) + if run[j - 1].op == RecordRequest(ip) then 1 else 0
  }

  /** `o` is the last of the first `k` events to open a window. */
  ghost predicate LastOpening(run: seq<Event>, ip: string, o: nat, k: nat)
    requires k <= |run|
  {
    o < k && Opens(run, ip, o) && forall i: nat :: o < i < k ==> !Opens(run, ip, i)
  }

  /** What the counter of an address says about the events, at any time from `now` on. */
  ghost predicate Tallied(run: seq<Event>, k: nat, g: Guard, ip: string, now: int)
    requires k <= |run|
  {
    if ip in g.requests then
      exists o: nat :: LastOpening(run, ip, o, k) &&
        g.requests[ip] == RequestCounter(Requests(run, ip, o, k), run[o].at)
    else forall o: nat :: o < k && Opens(run, ip, o) ==> now - run[o].at > 60_000_000_000
  }

  /** An earlier window is older than a later one. */
  lemma {:induction false} OpeningsApart(run: seq<Event>, ip: string, o: nat, k: nat, j: nat)
    requires Chronological(run) && k <= j < |run| && LastOpening(run, ip, o, k)
    ensures forall i: nat :: i < k && Opens(run, ip, i) ==> i == o || run[j].at - run[i].at > 60_000_000_000
  {
    forall i: nat | i < k && Opens(run, ip, i) && i != o ensures run[j].at - run[i].at > 60_000_000_000 {
      assert run[o].at <= run[j].at;
      assert i < o;
    }
  }

  lemma {:induction false} RecordTallied(lim: Limits, run: seq<Event>, k: nat, g: Guard, ip: string)
    requires Chronological(run) && k < |run| && run[k].op == RecordRequest(ip) && ip !in g.whitelist
    requires Tallied(run, k, g, ip, run[k].at)
    ensures Tallied(run, k + 1, AfterRecord(lim, g, ip, run[k].at), ip, run[k].at)
  {
    if ip in g.requests && !Expired(g.requests[ip], run[k].at) {
      var o: nat :| LastOpening(run, ip, o, k) && g.requests[ip] == RequestCounter(Requests(run, ip, o, k), run[o].at);
      assert !Opens(run, ip, k);
      assert LastOpening(run, ip, o, k + 1);
    } else {
      if ip in g.requests {
        var o: nat :| LastOpening(run, ip, o, k) &&
                      g.requests[ip] == RequestCounter(Requests(run, ip, o, k), run[o].at);
        OpeningsApart(run, ip, o, k, k);
      }
      assert Opens(run, ip, k);
      assert LastOpening(run, ip, k, k + 1);
      assert Requests(run, ip, k, k + 1) == 1;
    }
  }

  /** `h` has the counter of `g`, or has dropped it as expired. */
  predicate Retained(g: Guard, h: Guard, ip: string, now: int) {
    if ip in h.requests then ip in g.requests && h.requests[ip] == g.requests[ip]
    else ip in g.requests ==> Expired(g.requests[ip], now)
  }

  lemma {:induction false} OthersRetain(lim: Limits, g: Guard, e: Event, ip: string)
    requires e.op != RecordRequest(ip)
    ensures Retained(g, After(lim, g, e), ip, e.at)
  {
  }

  lemma {:induction false} RetainedTallied(run: seq<Event>, k: nat, g: Guard, h: Guard, ip: string)
    requires Chronological(run) && k < |run| && run[k].op != RecordRequest(ip)
    requires Tallied(run, k, g, ip, run[k].at) && Retained(g, h, ip, run[k].at)
    ensures Tallied(run, k + 1, h, ip, run[k].at)
  {
    assert !Opens(run, ip, k);
    if ip in g.requests {
      var o: nat :| LastOpening(run, ip, o, k) && g.requests[ip] == RequestCounter(Requests(run, ip, o, k), run[o].at);
      OpeningsApart(run, ip, o, k, k);
      assert LastOpening(run, ip, o, k + 1);
      assert Requests(run, ip, o, k + 1) == Requests(run, ip, o, k);
    }
  }

  lemma {:induction false} TallyStep(lim: Limits, run: seq<Event>, k: nat, g: Guard, ip: string, now: int)
    requires Chronological(run) && k < |run| && ip !in g.whitelist && run[k].at <= now
    requires Tallied(run, k, g, ip, run[k].at)
    ensures Tallied(run, k + 1, After(lim, g, run[k]), ip, now)
  {
    if run[k].op == RecordRequest(ip) {
      RecordTallied(lim, run, k, g, ip);
    } else {
      OthersRetain(lim, g, run[k], ip);
      RetainedTallied(run, k, g, After(lim, g, run[k]), ip);
    }
  }

  lemma {:induction false} TallyNext(lim: Limits, run: seq<Event>, k: nat, ip: string, now: int)
    requires Chronological(run) && k < |run| && run[k].at <= now
    requires ip !in AfterAll(lim, EMPTY, run[..k]).whitelist
    requires Tallied(run, k, AfterAll(lim, EMPTY, run[..k]), ip, run[k].at)
    ensures Tallied(run, k + 1, AfterAll(lim, EMPTY, run[..k + 1]), ip, now)
  {
    PrefixStep(lim, run, k);
    TallyStep(lim, run, k, AfterAll(lim, EMPTY, run[..k]), ip, now);
  }

  lemma {:induction false} NotExempted(lim: Limits, run: seq<Event>, k: nat, ip: string)
    requires k < |run| && !Earlier(run, k + 1, Whitelist(ip))
    ensures !Earlier(run, k, Whitelist(ip)) && ip !in AfterAll(lim, EMPTY, run[..k]).whitelist
  {
    ListsFromEvents(lim, run, k, ip);
  }

  lemma {:induction false} NothingTallied(lim: Limits, run: seq<Event>, ip: string, now: int)
    ensures Tallied(run, 0, AfterAll(lim, EMPTY, run[..0]), ip, now)
  {
  }

  lemma {:induction false} TallyFromEvents(lim: Limits, run: seq<Event>, k: nat, ip: string, now: int)
    requires Chronological(run) && k <= |run| && UpTo(run, k, now) && !Earlier(run, k, Whitelist(ip))
    ensures Tallied(run, k, AfterAll(lim, EMPTY, run[..k]), ip, now)
    decreases k
  {
    if k == 0 {
      NothingTallied(lim, run, ip, now);
    } else {
      NotExempted(lim, run, k - 1, ip);
      TallyFromEvents(lim, run, k - 1, ip, run[k - 1].at);
      TallyNext(lim, run, k - 1, ip, now);
    }
  }

  /**
   * Which requests trip the guard, from events alone: those of an address never exempted that come
   * within a minute of the opening of a window as more than the threshold's number in it.
   */
  lemma {:induction false} TripsExactly(lim: Limits, run: seq<Event>, j: nat, ip: string)
    requires Chronological(run) && j < |run| && run[j].op == RecordRequest(ip)
    ensures Affirmed(lim, run, j) <==>
            && !Earlier(run, j, Whitelist(ip))
            && exists o: nat :: o < j && Opens(run, ip, o) && run[j].at - run[o].at <= 60_000_000_000 &&
                 Requests(run, ip, o, j + 1) > lim.threshold
  {
    ListsFromEvents(lim, run, j, ip);
    if !Earlier(run, j, Whitelist(ip)) {
      TallyFromEvents(lim, run, j, ip, run[j].at);
      var g := AfterAll(lim, EMPTY, run[..j]);
      if ip in g.requests {
        var o: nat :| LastOpening(run, ip, o, j) &&
                      g.requests[ip] == RequestCounter(Requests(run, ip, o, j), run[o].at);
        OpeningsApart(run, ip, o, j, j);
        assert Requests(run, ip, o, j + 1) == Requests(run, ip, o, j) + 1;
      }
    }
  }
}
