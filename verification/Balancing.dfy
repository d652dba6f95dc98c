/** What the four selectors choose, and how choices share out over consecutive selections. */
module Balancing {
  import opened Options

  /********** Cyclic scan: round-robin and ip-hash **********/

  /** Liveness at a counter value, read around the cycle. */
  predicate Up(live: seq<bool>, k: nat)
    requires live != []
  {
    live[k % |live|]
  }

  /** No counter value from `from` up to `to` falls on a live backend. */
  ghost predicate AllDown(live: seq<bool>, from: nat, to: nat)
    requires live != []
  {
    forall k: nat :: from <= k < to ==> !Up(live, k)
  }

  /** The first live position at or after offset `i` of the cycle that begins at `start`. */
  function Scan(live: seq<bool>, start: nat, i: nat): (r: Option<nat>)
    requires live != []
    ensures r.Some? ==> r.value < |live| && live[r.value]
    decreases |live| - i
  {
    if i >= |live| then None
    else
      var at := (start + i) % |live|;
      if live[at] then Some(at) else Scan(live, start, i + 1)
  }

  function FirstLive(live: seq<bool>, start: nat): (r: Option<nat>)
    requires live != []
    ensures r.Some? ==> r.value < |live| && live[r.value]
  {
    Scan(live, start, 0)
  }

  /** Steps forward from `from` to `to` around a cycle of `n`. */
  function Distance(from: nat, to: nat, n: nat): nat
    requires from < n && to < n
  {
    if from <= to then to - from else to - from + n
  }

  lemma {:induction false} ModWrap(x: nat, i: nat, n: nat)
    requires 0 < n && i < n
    ensures (x + i) % n == if x % n + i < n then x % n + i else x % n + i - n
  {
    var q, r := x / n, x % n;
    assert x + i == q * n + (r + i);
    if r + i < n {
      ModUnique(x + i, q, r + i, n);
    } else {
      assert (q + 1) * n == q * n + n;
      ModUnique(x + i, q + 1, r + i - n, n);
    }
  }

  lemma {:induction false} ModUnique(x: int, q: int, r: int, n: int)
    requires 0 < n && 0 <= r < n && x == q * n + r
    ensures x % n == r
  {
    var d := x / n - q;
    assert d * n == r - x % n by { assert (x / n - q) * n == n * (x / n) - q * n; }
    assert d >= 1 ==> d * n >= n;
    assert d <= -1 ==> d * n <= -n;
  }

  lemma {:induction false} ModPeriodic(x: nat, n: nat)
    requires 0 < n
    ensures (x + n) % n == x % n
  {
    assert x + n == (x / n + 1) * n + x % n;
    ModUnique(x + n, x / n + 1, x % n, n);
  }

  /** The counter value, at most one turn from `start`, at which the scan would reach `b`. */
  function Arrival(live: seq<bool>, start: nat, b: nat): nat
    requires b < |live|
  {
    start + Distance(start % |live|, b, |live|)
  }

  lemma {:induction false} ArrivalLands(live: seq<bool>, start: nat, b: nat, k: nat)
    requires b < |live| && start <= k < start + |live|
    ensures k % |live| == b <==> k == Arrival(live, start, b)
  {
    ModWrap(start, k - start, |live|);
  }

  /** The scan answers `b` exactly when `b` is live and all positions it passes are dead. */
  lemma {:induction false} ScanFinds(live: seq<bool>, start: nat, i: nat, b: nat)
    requires b < |live| && i <= |live|
    requires AllDown(live, start, start + i)
    ensures Scan(live, start, i) == Some(b) <==> live[b] && AllDown(live, start, Arrival(live, start, b))
    decreases |live| - i
  {
    ArrivalLands(live, start, b, Arrival(live, start, b));
    assert Up(live, Arrival(live, start, b)) == live[b];
    if i < |live| {
      ArrivalLands(live, start, b, start + i);
      if !Up(live, start + i) {
        ScanFinds(live, start, i + 1, b);
      }
    }
  }

  /** The selector finds `b` exactly when `b` is live and nothing live lies on the way to it. */
  lemma {:induction false} FirstLiveFinds(live: seq<bool>, start: nat, b: nat)
    requires b < |live|
    ensures FirstLive(live, start) == Some(b) <==> live[b] && AllDown(live, start, Arrival(live, start, b))
  {
    ScanFinds(live, start, 0, b);
  }

  /** It finds nothing exactly when nothing is live. */
  lemma {:induction false} FirstLiveNone(live: seq<bool>, start: nat)
    requires live != []
    ensures FirstLive(live, start) == None <==> forall b :: 0 <= b < |live| ==> !live[b]
  {
    if FirstLive(live, start) == None {
      ScanMisses(live, start, 0);
      forall b | 0 <= b < |live| ensures !live[b] {
        ArrivalLands(live, start, b, Arrival(live, start, b));
        assert !Up(live, Arrival(live, start, b));
      }
    }
  }

  lemma {:induction false} ScanMisses(live: seq<bool>, start: nat, i: nat)
    requires live != [] && i <= |live| && Scan(live, start, i) == None
    ensures AllDown(live, start + i, start + |live|)
    decreases |live| - i
  {
    if i < |live| {
      ScanMisses(live, start, i + 1);
      assert !Up(live, start + i);
    }
  }

  /********** ip-hash **********/

  /** Every backend up under `fewer` is up under `more`. */
  predicate FewerLive(fewer: seq<bool>, more: seq<bool>) {
    |fewer| == |more| && forall i :: 0 <= i < |more| ==> (fewer[i] ==> more[i])
  }

  /** However many backends go down together, only clients of those backends move. */
  lemma {:induction false} MinimalDisruption(fewer: seq<bool>, more: seq<bool>, hash: nat)
    requires more != [] && FewerLive(fewer, more)
    ensures match FirstLive(more, hash)
            case Some(b) => fewer[b] ==> FirstLive(fewer, hash) == Some(b)
            case None => FirstLive(fewer, hash) == None
  {
    match FirstLive(more, hash)
    case Some(b) =>
      FirstLiveFinds(more, hash, b);
      FirstLiveFinds(fewer, hash, b);
      assert forall k: nat :: Up(fewer, k) ==> Up(more, k);
    case None =>
      FirstLiveNone(more, hash);
      FirstLiveNone(fewer, hash);
  }

  datatype Flip = Flip(backend: nat, up: bool)

  /** Liveness after a run of health-check verdicts. */
  function AfterFlips(live: seq<bool>, flips: seq<Flip>): (r: seq<bool>)
    ensures |r| == |live|
  {
    if flips == [] then live
    else
      var now := AfterFlips(live, flips[..|flips| - 1]);
      var f := flips[|flips| - 1];
      if f.backend < |now| then now[f.backend := f.up] else now
  }

  /** The last verdict on each backend decides, whatever came before. */
  ghost predicate LastVerdict(flips: seq<Flip>, b: nat, up: bool) {
    exists k :: 0 <= k < |flips| && flips[k] == Flip(b, up) &&
                forall j :: k < j < |flips| ==> flips[j].backend != b
  }

  ghost predicate Untouched(flips: seq<Flip>, b: nat) {
    forall k :: 0 <= k < |flips| ==> flips[k].backend != b
  }

  lemma {:induction false} AfterFlipsAt(live: seq<bool>, flips: seq<Flip>, b: nat, up: bool)
    requires b < |live|
    requires LastVerdict(flips, b, up) || (Untouched(flips, b) && live[b] == up)
    ensures AfterFlips(live, flips)[b] == up
  {
    if flips != [] {
      var init, f := flips[..|flips| - 1], flips[|flips| - 1];
      if f.backend != b {
        if LastVerdict(flips, b, up) {
          var k :| 0 <= k < |flips| && flips[k] == Flip(b, up) &&
                   forall j :: k < j < |flips| ==> flips[j].backend != b;
          assert init[k] == Flip(b, up);
          assert LastVerdict(init, b, up);
        } else {
          assert Untouched(init, b);
        }
        AfterFlipsAt(live, init, b, up);
      }
    }
  }

  lemma {:induction false} VerdictAppend(flips: seq<Flip>, f: Flip, b: nat)
    ensures f.backend == b ==> LastVerdict(flips + [f], b, f.up)
    ensures f.backend != b ==> forall up :: LastVerdict(flips, b, up) ==> LastVerdict(flips + [f], b, up)
    ensures f.backend != b && Untouched(flips, b) ==> Untouched(flips + [f], b)
  {
    var more := flips + [f];
    if f.backend == b {
      assert more[|flips|] == Flip(b, f.up);
    } else {
      forall up | LastVerdict(flips, b, up) ensures LastVerdict(more, b, up) {
        var k :| 0 <= k < |flips| && flips[k] == Flip(b, up) &&
                 forall j :: k < j < |flips| ==> flips[j].backend != b;
        assert more[k] == Flip(b, up);
      }
    }
  }

  lemma {:induction false} VerdictOrNone(flips: seq<Flip>, b: nat)
    ensures LastVerdict(flips, b, true) || LastVerdict(flips, b, false) || Untouched(flips, b)
  {
    if flips != [] {
      var init, f := flips[..|flips| - 1], flips[|flips| - 1];
      assert flips == init + [f];
      VerdictOrNone(init, b);
      VerdictAppend(init, f, b);
    }
  }

  /** A backend is up exactly after a last verdict that says so, or untouched and up before. */
  lemma {:induction false} AfterFlipsExactly(live: seq<bool>, flips: seq<Flip>, b: nat)
    requires b < |live|
    ensures AfterFlips(live, flips)[b] <==> LastVerdict(flips, b, true) || (Untouched(flips, b) && live[b])
    ensures !AfterFlips(live, flips)[b] <==> LastVerdict(flips, b, false) || (Untouched(flips, b) && !live[b])
  {
    VerdictOrNone(flips, b);
    if up :| LastVerdict(flips, b, up) {
      AfterFlipsAt(live, flips, b, up);
    } else {
      AfterFlipsAt(live, flips, b, live[b]);
    }
  }

  /**
   * Which clients a run of verdicts moves: those whose backend ends down, and those with a
   * backend on the way to theirs that ends up; without a backend, all as soon as one comes up.
   */
  lemma {:induction false} MovesExactly(live: seq<bool>, flips: seq<Flip>, hash: nat)
    requires live != []
    ensures var n, moves := |live|, FirstLive(AfterFlips(live, flips), hash) != FirstLive(live, hash);
            match FirstLive(live, hash)
            case Some(b) =>
              moves <==> LastVerdict(flips, b, false) ||
                         exists p: nat :: hash <= p < Arrival(live, hash, b) && LastVerdict(flips, p % n, true)
            case None => moves <==> exists c: nat :: c < n && LastVerdict(flips, c, true)
  {
    var now := AfterFlips(live, flips);
    match FirstLive(live, hash)
    case Some(b) =>
      FirstLiveFinds(live, hash, b);
      FirstLiveFinds(now, hash, b);
      AfterFlipsExactly(live, flips, b);
      forall p: nat | hash <= p < Arrival(live, hash, b)
        ensures Up(now, p) <==> LastVerdict(flips, p % |live|, true)
      {
        assert !Up(live, p);
        AfterFlipsExactly(live, flips, p % |live|);
      }
    case None =>
      FirstLiveNone(live, hash);
      FirstLiveNone(now, hash);
      forall c: nat | c < |live| ensures now[c] <==> LastVerdict(flips, c, true) {
        AfterFlipsExactly(live, flips, c);
      }
  }

  /********** Counting over consecutive selections **********/

  /** How many of the `len` consecutive counter values from `from` on satisfy `f`. */
  function Count(f: nat -> bool, from: nat, len: nat): nat {
    if len == 0 then 0 else Count(f, from, len - 1) + if f(from + len - 1) then 1 else 0
  }

  lemma {:induction false} CountFront(f: nat -> bool, from: nat, len: nat)
    requires len > 0
    ensures Count(f, from, len) == (if f(from) then 1 else 0) + Count(f, from + 1, len - 1)
  {
    if len > 1 {
      CountFront(f, from, len - 1);
    }
  }

  ghost predicate Periodic(f: nat -> bool, n: nat) {
    forall k: nat :: f(k + n) == f(k)
  }

  /** A full period holds the same number of hits wherever it begins. */
  lemma {:induction false} AnyWindow(f: nat -> bool, n: nat, from: nat)
    requires Periodic(f, n) && n > 0
    ensures Count(f, from, n) == Count(f, 0, n)
  {
    if from > 0 {
      AnyWindow(f, n, from - 1);
      CountFront(f, from - 1, n);
      assert f(from - 1 + n) == f(from - 1);
    }
  }

  lemma {:induction false} CountInterval(f: nat -> bool, from: nat, len: nat, lo: nat, hi: nat)
    requires lo <= hi
    requires forall k: nat :: from <= k < from + len ==> (f(k) <==> lo <= k < hi)
    ensures from <= lo && hi <= from + len ==> Count(f, from, len) == hi - lo
    ensures hi <= from || from + len <= lo ==> Count(f, from, len) == 0
    ensures from <= lo <= from + len <= hi ==> Count(f, from, len) == from + len - lo
  {
    if len > 0 {
      CountInterval(f, from, len - 1, lo, hi);
    }
  }

  /********** Round-robin shares **********/

  /** The length, at least `d`, of the cyclic run of dead backends just before `b`. */
  function DeadRun(live: seq<bool>, b: nat, d: nat): (r: nat)
    requires b < |live| && d < |live|
    requires AllDown(live, b + |live| - d, b + |live|)
    ensures d <= r < |live|
    ensures AllDown(live, b + |live| - r, b + |live|)
    ensures r == |live| - 1 || Up(live, b + |live| - r - 1)
    decreases |live| - d
  {
    if d == |live| - 1 || Up(live, b + |live| - d - 1) then d else DeadRun(live, b, d + 1)
  }

  function Chooses(live: seq<bool>, b: nat): nat -> bool
    requires live != []
  {
    (k: nat) => FirstLive(live, k) == Some(b)
  }

  lemma {:induction false} SmallMod(x: nat, n: nat)
    requires 0 < n && x < 2 * n
    ensures x % n == if x < n then x else x - n
  {
  }

  lemma {:induction false} DownToExactlyRun(live: seq<bool>, b: nat, k: nat)
    requires b < |live| && b < k <= b + |live|
    ensures AllDown(live, k, b + |live|) <==> b + |live| - k <= DeadRun(live, b, 0)
  {
  }

  lemma {:induction false} ArrivalAtEnd(live: seq<bool>, b: nat, k: nat)
    requires b < |live| && b < k <= b + |live|
    ensures Arrival(live, k, b) == b + |live|
  {
  }

  /** Within the period that ends at `b`, the counter values that choose `b` are the last ones. */
  lemma {:induction false} ChoosesNear(live: seq<bool>, b: nat, k: nat)
    requires b < |live| && live[b] && b < k <= b + |live|
    ensures FirstLive(live, k) == Some(b) <==> b + |live| - k <= DeadRun(live, b, 0)
  {
    ArrivalAtEnd(live, b, k);
    FirstLiveFinds(live, k, b);
    DownToExactlyRun(live, b, k);
  }

  lemma {:induction false} FirstLivePeriodic(live: seq<bool>, b: nat)
    requires b < |live|
    ensures Periodic(Chooses(live, b), |live|)
  {
    var n := |live|;
    forall k: nat ensures Chooses(live, b)(k + n) == Chooses(live, b)(k) {
      ScanPeriodic(live, k, 0);
    }
  }

  lemma {:induction false} ScanPeriodic(live: seq<bool>, k: nat, i: nat)
    requires live != []
    ensures Scan(live, k + |live|, i) == Scan(live, k, i)
    decreases |live| - i
  {
    if i < |live| {
      ModPeriodic(k + i, |live|);
      assert k + |live| + i == k + i + |live|;
      ScanPeriodic(live, k, i + 1);
    }
  }

  /** Over any n selections a live backend is chosen once for itself and once per dead predecessor. */
  lemma {:induction false} RoundRobinShare(live: seq<bool>, b: nat, from: nat)
    requires b < |live| && live[b]
    ensures Count(Chooses(live, b), from, |live|) == 1 + DeadRun(live, b, 0)
  {
    var n, f, run := |live|, Chooses(live, b), DeadRun(live, b, 0);
    FirstLivePeriodic(live, b);
    AnyWindow(f, n, from);
    AnyWindow(f, n, b + 1);
    forall k: nat | b + 1 <= k < b + 1 + n ensures f(k) <==> b + n - run <= k < b + n + 1 {
      ChoosesNear(live, b, k);
    }
    CountInterval(f, b + 1, n, b + n - run, b + n + 1);
  }

  lemma {:induction false} DeadNeverChosen(live: seq<bool>, b: nat, from: nat, len: nat)
    requires b < |live| && !live[b]
    ensures Count(Chooses(live, b), from, len) == 0
  {
    if len > 0 {
      DeadNeverChosen(live, b, from, len - 1);
    }
  }

  /** With every backend up, each is chosen exactly once in any n selections. */
  lemma {:induction false} RoundRobinFair(live: seq<bool>, b: nat, from: nat)
    requires b < |live| && forall i :: 0 <= i < |live| ==> live[i]
    ensures Count(Chooses(live, b), from, |live|) == 1
  {
    RoundRobinShare(live, b, from);
    assert Up(live, b + |live| - 1);
  }

  /********** ip-hash: how many clients move **********/

  /** The clients, by hash, whose backend differs between two states of the pool. */
  function Moved(before: seq<bool>, after: seq<bool>): nat -> bool
    requires before != [] && |before| == |after|
  {
    (k: nat) => FirstLive(after, k) != FirstLive(before, k)
  }

  /** The clients of those among the first `i` backends that are up in `more` but not in `fewer`. */
  function Orphaned(fewer: seq<bool>, more: seq<bool>, i: nat): nat -> bool
    requires more != [] && |fewer| == |more|
  {
    (k: nat) => var b := FirstLive(more, k); b.Some? && b.value < i && !fewer[b.value]
  }

  /** The hash values that lead to those backends: one for each, and one per dead predecessor. */
  function OrphanShare(fewer: seq<bool>, more: seq<bool>, i: nat): nat
    requires more != [] && |fewer| == |more| && i <= |more|
  {
    if i == 0 then 0
    else OrphanShare(fewer, more, i - 1) +
         if more[i - 1] && !fewer[i - 1] then 1 + DeadRun(more, i - 1, 0) else 0
  }

  lemma {:induction false} CountSame(f: nat -> bool, g: nat -> bool, from: nat, len: nat)
    requires forall k: nat :: f(k) == g(k)
    ensures Count(f, from, len) == Count(g, from, len)
  {
    if len > 0 {
      CountSame(f, g, from, len - 1);
    }
  }

  lemma {:induction false} CountDisjoint(f: nat -> bool, g: nat -> bool, h: nat -> bool, from: nat, len: nat)
    requires forall k: nat :: h(k) == (f(k) || g(k)) && !(f(k) && g(k))
    ensures Count(h, from, len) == Count(f, from, len) + Count(g, from, len)
  {
    if len > 0 {
      CountDisjoint(f, g, h, from, len - 1);
    }
  }

  lemma {:induction false} OrphansShare(fewer: seq<bool>, more: seq<bool>, i: nat, from: nat)
    requires more != [] && |fewer| == |more| && i <= |more|
    ensures Count(Orphaned(fewer, more, i), from, |more|) == OrphanShare(fewer, more, i)
  {
    if i == 0 {
      CountInterval(Orphaned(fewer, more, 0), from, |more|, from, from);
    } else {
      OrphansShare(fewer, more, i - 1, from);
      var f, h := Orphaned(fewer, more, i - 1), Orphaned(fewer, more, i);
      if more[i - 1] && !fewer[i - 1] {
        RoundRobinShare(more, i - 1, from);
        CountDisjoint(f, Chooses(more, i - 1), h, from, |more|);
      } else {
        CountSame(f, h, from, |more|);
      }
    }
  }

  /**
   * When any backends go down together, the clients that move are, out of every n consecutive
   * hash values, exactly the shares the lost backends had; coming back moves the same clients.
   */
  lemma {:induction false} Disruption(fewer: seq<bool>, more: seq<bool>, from: nat)
    requires more != [] && FewerLive(fewer, more)
    ensures Count(Moved(more, fewer), from, |more|) == OrphanShare(fewer, more, |more|)
    ensures Count(Moved(fewer, more), from, |more|) == OrphanShare(fewer, more, |more|)
  {
    forall k: nat ensures Moved(more, fewer)(k) == Orphaned(fewer, more, |more|)(k) {
      MinimalDisruption(fewer, more, k);
    }
    CountSame(Moved(more, fewer), Orphaned(fewer, more, |more|), from, |more|);
    CountSame(Moved(fewer, more), Moved(more, fewer), from, |more|);
    OrphansShare(fewer, more, |more|, from);
  }

  /** One backend going down moves its own share and nothing else. */
  lemma {:induction false} DisruptionOfOne(live: seq<bool>, b: nat, from: nat)
    requires b < |live| && live[b]
    ensures Count(Moved(live, live[b := false]), from, |live|) == 1 + DeadRun(live, b, 0)
  {
    Disruption(live[b := false], live, from);
    ShareOfOne(live, b, |live|);
  }

  lemma {:induction false} ShareOfOne(live: seq<bool>, b: nat, i: nat)
    requires b < |live| && live[b] && i <= |live|
    ensures OrphanShare(live[b := false], live, i) == if b < i then 1 + DeadRun(live, b, 0) else 0
  {
    if i > 0 {
      ShareOfOne(live, b, i - 1);
    }
  }

  /********** Weighted shares **********/

  /** The weight of the live backends among the first `i`. */
  function LiveWeight(live: seq<bool>, weights: seq<int>, i: nat): int
    requires |live| == |weights| && i <= |live|
  {
    if i == 0 then 0 else LiveWeight(live, weights, i - 1) + if live[i - 1] then weights[i - 1] else 0
  }

  ghost predicate Positive(weights: seq<int>) {
    forall i :: 0 <= i < |weights| ==> weights[i] > 0
  }

  /** The first live backend, from `i` on, whose cumulative weight passes the target. */
  function Pass(live: seq<bool>, weights: seq<int>, target: int, i: nat): (r: Option<nat>)
    requires |live| == |weights| && i <= |live|
    ensures r.Some? ==> i <= r.value < |live| && live[r.value]
    decreases |live| - i
  {
    if i == |live| then None
    else if live[i] && target < LiveWeight(live, weights, i + 1) then Some(i)
    else Pass(live, weights, target, i + 1)
  }

  /**
   * Each pass reads every backend once, so `first` and `second` are what the two passes saw,
   * whatever changed before, between or during them.
   */
  function WeightedAcross(first: seq<bool>, second: seq<bool>, weights: seq<int>, next: nat): (r: Option<nat>)
    requires |first| == |second| == |weights|
    ensures r.Some? ==> r.value < |second| && second[r.value]
  {
    var total := LiveWeight(first, weights, |first|);
    if total <= 0 then None else Pass(second, weights, next % total, 0)
  }

  function WeightedPick(live: seq<bool>, weights: seq<int>, next: nat): Option<nat>
    requires |live| == |weights|
  {
    WeightedAcross(live, live, weights, next)
  }

  lemma {:induction false} LiveWeightMonotone(live: seq<bool>, weights: seq<int>, i: nat, j: nat)
    requires |live| == |weights| && i <= j <= |live| && Positive(weights)
    ensures 0 <= LiveWeight(live, weights, i) <= LiveWeight(live, weights, j)
  {
    if i < j {
      LiveWeightMonotone(live, weights, i, j - 1);
    } else if i > 0 {
      LiveWeightMonotone(live, weights, i - 1, i - 1);
    }
  }

  lemma {:induction false} LiveWeightZero(live: seq<bool>, weights: seq<int>, i: nat)
    requires |live| == |weights| && i <= |live| && Positive(weights)
    ensures LiveWeight(live, weights, i) >= 0
    ensures LiveWeight(live, weights, i) == 0 <==> forall b :: 0 <= b < i ==> !live[b]
  {
    if i > 0 {
      LiveWeightZero(live, weights, i - 1);
    }
  }

  /** A target picks the backend whose slice of the cumulative weights holds it. */
  lemma {:induction false} PassFinds(live: seq<bool>, weights: seq<int>, target: int, i: nat, b: nat)
    requires |live| == |weights| && i <= |live| && Positive(weights)
    requires b < |live| && live[b]
    requires LiveWeight(live, weights, i) <= target
    ensures Pass(live, weights, target, i) == Some(b) <==>
            i <= b && LiveWeight(live, weights, b) <= target < LiveWeight(live, weights, b + 1)
    decreases |live| - i
  {
    if i < |live| {
      if live[i] && target < LiveWeight(live, weights, i + 1) {
        if b > i {
          LiveWeightMonotone(live, weights, i + 1, b);
        }
      } else {
        PassFinds(live, weights, target, i + 1, b);
      }
    }
  }

  function PicksWeighted(live: seq<bool>, weights: seq<int>, b: nat): nat -> bool
    requires |live| == |weights|
  {
    (k: nat) => WeightedPick(live, weights, k) == Some(b)
  }

  /** Over any totalWeight selections a live backend is chosen exactly as often as its weight says. */
  lemma {:induction false} WeightedShare(live: seq<bool>, weights: seq<int>, b: nat, from: nat)
    requires |live| == |weights| && Positive(weights)
    requires b < |live| && live[b]
    ensures LiveWeight(live, weights, |live|) > 0
    ensures Count(PicksWeighted(live, weights, b), from, LiveWeight(live, weights, |live|)) == weights[b]
  {
    var total := LiveWeight(live, weights, |live|);
    var lo, hi := LiveWeight(live, weights, b), LiveWeight(live, weights, b + 1);
    LiveWeightMonotone(live, weights, b, b);
    LiveWeightMonotone(live, weights, b + 1, |live|);
    var f := PicksWeighted(live, weights, b);
    forall k: nat ensures f(k + total) == f(k) {
      ModPeriodic(k, total);
    }
    AnyWindow(f, total, from);
    forall k: nat | k < total ensures f(k) <==> lo <= k < hi {
      ModUnique(k, 0, k, total);
      PassFinds(live, weights, k, 0, b);
    }
    CountInterval(f, 0, total, lo, hi);
  }

  /** With positive weights the weighted selector fails only when nothing is live. */
  lemma {:induction false} WeightedNone(live: seq<bool>, weights: seq<int>, next: nat)
    requires |live| == |weights| && Positive(weights)
    ensures WeightedPick(live, weights, next) == None <==> forall b :: 0 <= b < |live| ==> !live[b]
  {
    var total := LiveWeight(live, weights, |live|);
    if b :| 0 <= b < |live| && live[b] {
      LiveWeightMonotone(live, weights, b, b);
      LiveWeightMonotone(live, weights, b + 1, |live|);
      PassReaches(live, weights, next % total, 0);
    }
  }

  lemma {:induction false} PassReaches(live: seq<bool>, weights: seq<int>, target: int, i: nat)
    requires |live| == |weights| && i <= |live|
    requires LiveWeight(live, weights, i) <= target < LiveWeight(live, weights, |live|)
    ensures Pass(live, weights, target, i).Some?
    decreases |live| - i
  {
    if !(live[i] && target < LiveWeight(live, weights, i + 1)) {
      PassReaches(live, weights, target, i + 1);
    }
  }

  /********** Weighted choice while liveness changes **********/

  /** A pass finds nothing exactly when the target is beyond all live weight. */
  lemma {:induction false} PassNone(live: seq<bool>, weights: seq<int>, target: int, i: nat)
    requires |live| == |weights| && i <= |live| && Positive(weights)
    requires LiveWeight(live, weights, i) <= target
    ensures Pass(live, weights, target, i) == None <==> LiveWeight(live, weights, |live|) <= target
    decreases |live| - i
  {
    if i < |live| {
      if live[i] && target < LiveWeight(live, weights, i + 1) {
        LiveWeightMonotone(live, weights, i + 1, |live|);
      } else {
        PassNone(live, weights, target, i + 1);
      }
    }
  }

  function Misses(first: seq<bool>, second: seq<bool>, weights: seq<int>): nat -> bool
    requires |first| == |second| == |weights|
  {
    (k: nat) => WeightedAcross(first, second, weights, k) == None
  }

  lemma {:induction false} MissesExactly(first: seq<bool>, second: seq<bool>, weights: seq<int>, k: nat)
    requires |first| == |second| == |weights| && Positive(weights)
    requires LiveWeight(first, weights, |first|) > 0
    ensures Misses(first, second, weights)(k) <==>
            LiveWeight(second, weights, |second|) <= k % LiveWeight(first, weights, |first|)
  {
    PassNone(second, weights, k % LiveWeight(first, weights, |first|), 0);
  }

  lemma {:induction false} CountBeyond(f: nat -> bool, total: nat, left: nat, from: nat)
    requires total > 0 && forall k: nat :: f(k) <==> left <= k % total
    ensures Count(f, from, total) == if left < total then total - left else 0
  {
    forall k: nat ensures f(k + total) == f(k) {
      ModPeriodic(k, total);
    }
    AnyWindow(f, total, from);
    forall k: nat | k < total ensures f(k) <==> left <= k < total + left {
      ModUnique(k, 0, k, total);
    }
    CountInterval(f, 0, total, left, total + left);
  }

  /**
   * With something live in the first pass, nil is answered exactly for the targets beyond the
   * weight left in the second: out of any totalWeight selections, as many as the weight lost.
   */
  lemma {:induction false} WeightLost(first: seq<bool>, second: seq<bool>, weights: seq<int>, from: nat)
    requires |first| == |second| == |weights| && Positive(weights)
    requires LiveWeight(first, weights, |first|) > 0
    ensures var total, left := LiveWeight(first, weights, |first|), LiveWeight(second, weights, |second|);
            && (forall k: nat :: Misses(first, second, weights)(k) <==> left <= k % total)
            && Count(Misses(first, second, weights), from, total) == if left < total then total - left else 0
  {
    var total, left := LiveWeight(first, weights, |first|), LiveWeight(second, weights, |second|);
    LiveWeightZero(second, weights, |second|);
    forall k: nat ensures Misses(first, second, weights)(k) <==> left <= k % total {
      MissesExactly(first, second, weights, k);
    }
    CountBeyond(Misses(first, second, weights), total, left, from);
  }

  /********** Least connections **********/

  const MAX_INT64: int := 0x7fff_ffff_ffff_ffff

  /** `r` is the earliest live backend with the fewest connections among the first `n`. */
  ghost predicate LeastLoaded(live: seq<bool>, conns: seq<int>, n: nat, r: Option<nat>)
    requires |live| == |conns| && n <= |live|
  {
    match r
    case Some(b) =>
      && b < n && live[b] && conns[b] < MAX_INT64
      && (forall i :: 0 <= i < n && live[i] ==> conns[b] <= conns[i])
      && (forall i :: 0 <= i < b && live[i] ==> conns[b] < conns[i])
    case None => forall i :: 0 <= i < n && live[i] ==> conns[i] >= MAX_INT64
  }

  lemma {:induction false} LeastLoadedUnique(live: seq<bool>, conns: seq<int>, n: nat, r: Option<nat>, q: Option<nat>)
    requires |live| == |conns| && n <= |live|
    requires LeastLoaded(live, conns, n, r) && LeastLoaded(live, conns, n, q)
    ensures r == q
  {
  }
}
