/** The per-address rate limiter: token buckets and the eviction of idle ones. */
module Limiter {
  /** Tokens per unit of time, and the bucket size. */
  datatype Settings = Settings(rate: real, burst: int)

  ghost predicate Proper(cfg: Settings) {
    cfg.rate > 0.0
  }

  /** A token bucket: `tokens` were in it at `last`. */
  datatype Bucket = Bucket(tokens: real, last: real)

  type Buckets = map<string, Bucket>

  function Min(a: real, b: real): real {
    if a < b then a else b
  }

  /** A new bucket is full; its time is the zero time, before every clock reading. */
  function NewBucket(cfg: Settings): Bucket {
    Bucket(cfg.burst as real, 0.0)
  }

  /** Tokens that come in from the zero time up to `t`. */
  function Inflow(cfg: Settings, t: real): real {
    cfg.rate * t
  }

  /** The tokens in a bucket at `now`: refilled at the rate since `last`, up to the burst. */
  function TokensAt(cfg: Settings, b: Bucket, now: real): real {
    Min(cfg.burst as real, b.tokens + (Inflow(cfg, now) - Inflow(cfg, b.last)))
  }

  predicate Grants(cfg: Settings, b: Bucket, now: real) {
    TokensAt(cfg, b, now) >= 1.0
  }

  function Take(cfg: Settings, b: Bucket, now: real): Bucket {
    if Grants(cfg, b, now) then Bucket(TokensAt(cfg, b, now) - 1.0, now) else b
  }

  /********** The map of buckets **********/

  function BucketOf(cfg: Settings, ips: Buckets, ip: string): Bucket {
    if ip in ips then ips[ip] else NewBucket(cfg)
  }

  function AfterRequest(cfg: Settings, ips: Buckets, ip: string, now: real): Buckets {
    ips[ip := Take(cfg, BucketOf(cfg, ips, ip), now)]
  }

  predicate Full(cfg: Settings, b: Bucket, now: real) {
    TokensAt(cfg, b, now) == cfg.burst as real
  }

  function AfterEviction(cfg: Settings, ips: Buckets, now: real): Buckets {
    map ip | ip in ips && !Full(cfg, ips[ip], now) :: ips[ip]
  }

  class IPRateLimiter {
    const cfg: Settings
    var ips: Buckets

    constructor (cfg: Settings)
      ensures this.cfg == cfg && ips == map[]
    {
      this.cfg, ips := cfg, map[];
    }

    method GetLimiter(ip: string) returns (b: Bucket)
      modifies this
      ensures b == BucketOf(cfg, old(ips), ip) && ips == old(ips)[ip := b]
    {
      if ip !in ips {
        ips := ips[ip := NewBucket(cfg)];
      }
      b := ips[ip];
    }

    /** GetLimiter and Allow as ServeHTTP uses them, taken as one step. */
    method Request(ip: string, now: real) returns (allowed: bool)
      modifies this
      ensures allowed == Grants(cfg, BucketOf(cfg, old(ips), ip), now)
      ensures ips == AfterRequest(cfg, old(ips), ip, now)
    {
      var b := GetLimiter(ip);
      allowed := Grants(cfg, b, now);
      ips := ips[ip := Take(cfg, b, now)];
    }

    /** The map is walked in any order, as Go walks it. */
    method Cleanup(now: real)
      modifies this
      ensures ips == AfterEviction(cfg, old(ips), now)
    {
      var todo := ips.Keys;
      while todo != {}
        invariant todo <= old(ips.Keys)
        invariant ips == map ip | ip in old(ips) && (ip in todo || !Full(cfg, old(ips)[ip], now)) :: old(ips)[ip]
        decreases todo
      {
        var ip :| ip in todo;
        if Full(cfg, ips[ip], now) {
          ips := ips - {ip};
        }
        todo := todo - {ip};
      }
    }
  }

  /********** Runs **********/

  datatype Event = Request(ip: string, at: real) | Evict(at: real)

  function Apply(cfg: Settings, ips: Buckets, e: Event): Buckets {
    match e
    case Request(ip, at) => AfterRequest(cfg, ips, ip, at)
    case Evict(at) => AfterEviction(cfg, ips, at)
  }

  function After(cfg: Settings, run: seq<Event>): Buckets {
    if run == [] then map[] else Apply(cfg, After(cfg, run[..|run| - 1]), run[|run| - 1])
  }

  /** The answers to all requests, in order. */
  function Answers(cfg: Settings, run: seq<Event>): seq<bool> {
    if run == [] then []
    else
      var init := run[..|run| - 1];
      match run[|run| - 1]
      case Request(ip, at) => Answers(cfg, init) + [Grants(cfg, BucketOf(cfg, After(cfg, init), ip), at)]
      case Evict(_) => Answers(cfg, init)
  }

  function WithoutEvictions(run: seq<Event>): seq<Event> {
    if run == [] then []
    else WithoutEvictions(run[..|run| - 1]) + if run[|run| - 1].Evict? then [] else [run[|run| - 1]]
  }

  ghost predicate UpTo(run: seq<Event>, now: real) {
    forall i :: 0 <= i < |run| ==> run[i].at <= now
  }

  ghost predicate Timed(run: seq<Event>) {
    && (forall i :: 0 <= i < |run| ==> run[i].at >= 0.0)
    && (forall i, j :: 0 <= i < j < |run| ==> run[i].at <= run[j].at)
  }

  /** What an address has to spend: its bucket's tokens, or a full bucket if it has none. */
  function Credit(cfg: Settings, ips: Buckets, ip: string, now: real): real {
    TokensAt(cfg, BucketOf(cfg, ips, ip), now)
  }

  ghost predicate Past(ips: Buckets, now: real) {
    forall ip :: ip in ips ==> ips[ip].last <= now
  }

  lemma {:induction false} InflowGrows(cfg: Settings, t: real, later: real)
    requires Proper(cfg) && t <= later
    ensures Inflow(cfg, t) <= Inflow(cfg, later)
  {
  }

  /** Refilling in two steps is refilling in one. */
  lemma {:induction false} CreditLater(cfg: Settings, ips: Buckets, ip: string, now: real, later: real)
    requires Proper(cfg) && Past(ips, now) && 0.0 <= now <= later
    ensures Credit(cfg, ips, ip, later) ==
            Min(cfg.burst as real, Credit(cfg, ips, ip, now) + (Inflow(cfg, later) - Inflow(cfg, now)))
  {
  }

  lemma {:induction false} RunPast(cfg: Settings, run: seq<Event>, now: real)
    requires Timed(run) && now >= 0.0 && UpTo(run, now)
    ensures Past(After(cfg, run), now)
    decreases |run|
  {
    if run != [] {
      RunPast(cfg, run[..|run| - 1], now);
    }
  }

  /** The token an event takes from an address with this credit. */
  function Spent(e: Event, ip: string, credit: real): real {
    if e.Request? && e.ip == ip && credit >= 1.0 then 1.0 else 0.0
  }

  /** An event changes a credit by what it spends; evicting a full bucket changes nothing. */
  lemma {:induction false} CreditAfterEvent(cfg: Settings, ips: Buckets, e: Event, ip: string)
    requires Proper(cfg) && e.at >= 0.0 && Past(ips, e.at)
    ensures Past(Apply(cfg, ips, e), e.at)
    ensures Credit(cfg, Apply(cfg, ips, e), ip, e.at) ==
            Credit(cfg, ips, ip, e.at) - Spent(e, ip, Credit(cfg, ips, ip, e.at))
  {
  }

  lemma {:induction false} NewBucketFull(cfg: Settings, now: real)
    requires Proper(cfg) && now >= 0.0
    ensures Full(cfg, NewBucket(cfg), now)
  {
  }

  /** The same fact, at any later time. */
  lemma {:induction false} CreditAfter(cfg: Settings, ips: Buckets, e: Event, ip: string, now: real)
    requires Proper(cfg) && 0.0 <= e.at <= now && Past(ips, e.at)
    ensures var c := Credit(cfg, ips, ip, e.at);
            Credit(cfg, Apply(cfg, ips, e), ip, now) ==
            Min(cfg.burst as real, c - Spent(e, ip, c) + (Inflow(cfg, now) - Inflow(cfg, e.at)))
  {
    CreditAfterEvent(cfg, ips, e, ip);
    CreditLater(cfg, Apply(cfg, ips, e), ip, e.at, now);
  }

  /********** Eviction is transparent **********/

  lemma {:induction false} WithoutEvictionsTimed(run: seq<Event>, now: real)
    requires Timed(run) && UpTo(run, now)
    ensures Timed(WithoutEvictions(run)) && UpTo(WithoutEvictions(run), now)
    decreases |run|
  {
    if run != [] {
      WithoutEvictionsTimed(run[..|run| - 1], run[|run| - 1].at);
    }
  }

  /** One event, seen by the evicting map and by the one that never evicts. */
  lemma {:induction false} SameCreditStep(cfg: Settings, pruned: Buckets, full: Buckets, e: Event, ip: string,
            now: real)
    requires Proper(cfg) && 0.0 <= e.at <= now && Past(pruned, e.at) && Past(full, e.at)
    requires Credit(cfg, pruned, ip, e.at) == Credit(cfg, full, ip, e.at)
    ensures Credit(cfg, Apply(cfg, pruned, e), ip, now) ==
            Credit(cfg, if e.Evict? then full else Apply(cfg, full, e), ip, now)
  {
    CreditAfter(cfg, pruned, e, ip, now);
    if e.Evict? {
      CreditLater(cfg, full, ip, e.at, now);
    } else {
      CreditAfter(cfg, full, e, ip, now);
    }
  }

  lemma {:induction false} SameCredit(cfg: Settings, run: seq<Event>, ip: string, now: real)
    requires Proper(cfg) && Timed(run) && now >= 0.0 && UpTo(run, now)
    ensures Credit(cfg, After(cfg, run), ip, now) == Credit(cfg, After(cfg, WithoutEvictions(run)), ip, now)
    decreases |run|
  {
    if run != [] {
      var init, e := run[..|run| - 1], run[|run| - 1];
      var kept := WithoutEvictions(init);
      SameCredit(cfg, init, ip, e.at);
      WithoutEvictionsTimed(init, e.at);
      RunPast(cfg, init, e.at);
      RunPast(cfg, kept, e.at);
      SameCreditStep(cfg, After(cfg, init), After(cfg, kept), e, ip, now);
      if e.Evict? {
        assert kept + [] == kept;
      } else {
        assert (kept + [e])[..|kept|] == kept;
      }
    }
  }

  /** With evictions anywhere in the run, every request is answered as if there were none. */
  lemma {:induction false} EvictionTransparent(cfg: Settings, run: seq<Event>)
    requires Proper(cfg) && Timed(run)
    ensures Answers(cfg, run) == Answers(cfg, WithoutEvictions(run))
  {
    if run != [] {
      var init, e := run[..|run| - 1], run[|run| - 1];
      var kept := WithoutEvictions(init);
      EvictionTransparent(cfg, init);
      if e.Request? {
        SameCredit(cfg, init, e.ip, e.at);
        assert (kept + [e])[..|kept|] == kept;
      } else {
        assert kept + [] == kept;
      }
    }
  }

  /********** Admission bound **********/

  predicate GrantedBy(cfg: Settings, ips: Buckets, e: Event, ip: string, from: real, to: real) {
    e.Request? && e.ip == ip && from <= e.at <= to && Grants(cfg, BucketOf(cfg, ips, ip), e.at)
  }

  /** Requests of `ip` granted in the closed interval. */
  function Granted(cfg: Settings, run: seq<Event>, ip: string, from: real, to: real): nat {
    if run == [] then 0
    else
      var init := run[..|run| - 1];
      Granted(cfg, init, ip, from, to) + if GrantedBy(cfg, After(cfg, init), run[|run| - 1], ip, from, to) then 1 else 0
  }

  /** Grants since `from` plus the credit left never exceed one bucket plus the inflow. */
  ghost predicate Paid(cfg: Settings, credit: real, from: real, now: real, granted: nat) {
    && 0.0 <= credit <= cfg.burst as real
    && (now < from ==> granted == 0)
    && (from <= now ==> granted as real + credit <= cfg.burst as real + (Inflow(cfg, now) - Inflow(cfg, from)))
  }

  lemma {:induction false} PaidStep(cfg: Settings, c: real, spends: bool, from: real, at: real, now: real, granted: nat)
    requires Proper(cfg) && cfg.burst >= 0 && at <= now
    requires Paid(cfg, c, from, at, granted) && (spends ==> c >= 1.0)
    ensures var spent := if spends then 1.0 else 0.0;
            Paid(cfg, Min(cfg.burst as real, c - spent + (Inflow(cfg, now) - Inflow(cfg, at))), from, now,
                 granted + if spends && from <= at then 1 else 0)
  {
    InflowGrows(cfg, at, now);
    if from <= now {
      InflowGrows(cfg, from, now);
    }
  }

  lemma {:induction false} GrantsPaid(cfg: Settings, run: seq<Event>, ip: string, from: real, to: real, now: real)
    requires Proper(cfg) && cfg.burst >= 0 && Timed(run)
    requires 0.0 <= now <= to && UpTo(run, now)
    ensures Paid(cfg, Credit(cfg, After(cfg, run), ip, now), from, now, Granted(cfg, run, ip, from, to))
    decreases |run|
  {
    if run == [] {
      NewBucketFull(cfg, now);
      if from <= now {
        InflowGrows(cfg, from, now);
      }
    } else {
      var init, e := run[..|run| - 1], run[|run| - 1];
      var c := Credit(cfg, After(cfg, init), ip, e.at);
      GrantsPaid(cfg, init, ip, from, to, e.at);
      RunPast(cfg, init, e.at);
      CreditAfter(cfg, After(cfg, init), e, ip, now);
      PaidStep(cfg, c, e.Request? && e.ip == ip && c >= 1.0, from, e.at, now, Granted(cfg, init, ip, from, to));
    }
  }

  lemma {:induction false} NothingFromEmptyBucket(cfg: Settings, run: seq<Event>, ip: string, from: real, to: real)
    requires cfg.burst < 1
    ensures Granted(cfg, run, ip, from, to) == 0
  {
    if run != [] {
      NothingFromEmptyBucket(cfg, run[..|run| - 1], ip, from, to);
    }
  }

  lemma {:induction false} GrantsWithinInflow(cfg: Settings, run: seq<Event>, ip: string, from: real, to: real)
    requires Proper(cfg) && cfg.burst >= 0 && Timed(run) && 0.0 <= from <= to
    ensures Granted(cfg, run, ip, from, to) as real <= cfg.burst as real + (Inflow(cfg, to) - Inflow(cfg, from))
    decreases |run|
  {
    if run != [] && run[|run| - 1].at > to {
      GrantsWithinInflow(cfg, run[..|run| - 1], ip, from, to);
    } else {
      GrantsPaid(cfg, run, ip, from, to, to);
    }
  }

  lemma {:induction false} InflowOver(cfg: Settings, from: real, to: real)
    ensures Inflow(cfg, to) - Inflow(cfg, from) == cfg.rate * (to - from)
  {
  }

  /** In any interval an address is granted at most the burst plus the rate times its length. */
  lemma {:induction false} GrantBound(cfg: Settings, run: seq<Event>, ip: string, from: real, to: real)
    requires Proper(cfg) && Timed(run) && 0.0 <= from <= to
    ensures cfg.burst < 1 ==> Granted(cfg, run, ip, from, to) == 0
    ensures cfg.burst >= 0 ==> Granted(cfg, run, ip, from, to) as real <= cfg.burst as real + cfg.rate * (to - from)
  {
    if cfg.burst < 1 {
      NothingFromEmptyBucket(cfg, run, ip, from, to);
    }
    if cfg.burst >= 0 {
      GrantsWithinInflow(cfg, run, ip, from, to);
      InflowOver(cfg, from, to);
    }
  }

  /********** The bound is the only reason to refuse **********/

  lemma {:induction false} GrantedSo(cfg: Settings, run: seq<Event>, ip: string, from: real, to: real, later: real)
    requires UpTo(run, to) && to <= later
    ensures Granted(cfg, run, ip, from, later) == Granted(cfg, run, ip, from, to)
    decreases |run|
  {
    if run != [] {
      GrantedSo(cfg, run[..|run| - 1], ip, from, to, later);
    }
  }

  lemma {:induction false} NoneGrantedSince(cfg: Settings, run: seq<Event>, ip: string, from: real, to: real)
    requires forall i :: 0 <= i < |run| ==> run[i].at < from
    ensures Granted(cfg, run, ip, from, to) == 0
    decreases |run|
  {
    if run != [] {
      NoneGrantedSince(cfg, run[..|run| - 1], ip, from, to);
    }
  }

  /** Since some moment grants and credit together use up the burst and the inflow. */
  lemma {:induction false} CreditUsedUp(cfg: Settings, run: seq<Event>, ip: string, now: real) returns (from: real)
    requires Proper(cfg) && Timed(run) && now >= 0.0 && UpTo(run, now)
    ensures 0.0 <= from <= now
    ensures Granted(cfg, run, ip, from, now) as real + Credit(cfg, After(cfg, run), ip, now) ==
            cfg.burst as real + (Inflow(cfg, now) - Inflow(cfg, from))
    decreases |run|
  {
    if run == [] {
      from := now;
      NewBucketFull(cfg, now);
    } else {
      var init, e := run[..|run| - 1], run[|run| - 1];
      from := CreditUsedUp(cfg, init, ip, e.at);
      RunPast(cfg, init, e.at);
      CreditAfter(cfg, After(cfg, init), e, ip, now);
      InflowGrows(cfg, e.at, now);
      GrantedSo(cfg, init, ip, from, e.at, now);
      if Credit(cfg, After(cfg, run), ip, now) == cfg.burst as real && e.at < now {
        from := now;
        NoneGrantedSince(cfg, run, ip, now, now);
      }
    }
  }

  lemma {:induction false} CreditBounds(cfg: Settings, run: seq<Event>, ip: string, from: real, now: real)
    requires Proper(cfg) && Timed(run) && 0.0 <= from <= now && UpTo(run, now) && cfg.burst >= 0
    ensures Granted(cfg, run, ip, from, now) as real + Credit(cfg, After(cfg, run), ip, now) <=
            cfg.burst as real + cfg.rate * (now - from)
  {
    GrantsPaid(cfg, run, ip, from, now, now);
    InflowOver(cfg, from, now);
  }

  /**
   * Exactly when a request is granted, evictions or not: when with it no interval that ends here
   * holds more grants than the burst plus the rate times its length.
   */
  lemma {:induction false} GrantedExactly(cfg: Settings, run: seq<Event>, ip: string, at: real)
    requires Proper(cfg) && Timed(run) && at >= 0.0 && UpTo(run, at)
    ensures Grants(cfg, BucketOf(cfg, After(cfg, run), ip), at) <==>
            forall from: real :: 0.0 <= from <= at ==>
              Granted(cfg, run, ip, from, at) as real + 1.0 <= cfg.burst as real + cfg.rate * (at - from)
  {
    var since := CreditUsedUp(cfg, run, ip, at);
    InflowOver(cfg, since, at);
    if Credit(cfg, After(cfg, run), ip, at) >= 1.0 {
      forall from: real | 0.0 <= from <= at
        ensures Granted(cfg, run, ip, from, at) as real + 1.0 <= cfg.burst as real + cfg.rate * (at - from)
      {
        CreditBounds(cfg, run, ip, from, at);
      }
    }
  }

  /**
   * Exactly which addresses an eviction keeps: those that in some interval up to it were granted
   * more than the rate times its length, and so have not regained a full bucket.
   */
  lemma {:induction false} KeptExactly(cfg: Settings, run: seq<Event>, ip: string, at: real)
    requires Proper(cfg) && Timed(run) && at >= 0.0 && UpTo(run, at)
    ensures ip in AfterEviction(cfg, After(cfg, run), at) <==>
            exists from: real :: 0.0 <= from <= at &&
              Granted(cfg, run, ip, from, at) as real > cfg.rate * (at - from)
  {
    var since := CreditUsedUp(cfg, run, ip, at);
    InflowOver(cfg, since, at);
    NewBucketFull(cfg, at);
    if from: real :| 0.0 <= from <= at && Granted(cfg, run, ip, from, at) as real > cfg.rate * (at - from) {
      if cfg.burst < 0 {
        NothingFromEmptyBucket(cfg, run, ip, from, at);
        InflowGrows(cfg, from, at);
        InflowOver(cfg, from, at);
      } else {
        CreditBounds(cfg, run, ip, from, at);
      }
    }
  }
}
