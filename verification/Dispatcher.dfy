/** The retry and failover loop around one request. */
module Dispatcher {
  import opened Options
  import opened Recorder
  import opened Pool

  const MAX_ATTEMPTS: nat := 3

  /**
   * One turn of the loop as the environment decides it: the breaker refuses, or the proxy does
   * any operations on the recorder and then reports an error, reports none, or panics.
   */
  datatype Attempt = Refused | Served(ops: seq<Op>, failed: bool) | Aborted(ops: seq<Op>)

  predicate Errs(a: Attempt) {
    a.Refused? || (a.Served? && a.failed)
  }

  function AfterAttempt(r: Rec, a: Attempt): Rec {
    if a.Refused? then r else ApplyAll(r, a.ops)
  }

  /** The recorder after the first `k` attempts. */
  function RecAfter(attempts: seq<Attempt>, k: nat): Rec
    requires k <= |attempts|
  {
    if k == 0 then FRESH else AfterAttempt(RecAfter(attempts, k - 1), attempts[k - 1])
  }

  /** The final error answer, with a body of `length` bytes. */
  function Unavailable(r: Rec, length: nat): Rec {
    Apply(Apply(r, WriteHeader(SERVICE_UNAVAILABLE)), Write(length))
  }

  /**
   * How a dispatch ended: attempts made, the recorder, the counted status, and if it gave up.
   * A panic ends it without counting it.
   */
  datatype Result = Result(made: nat, rec: Rec, metric: Option<int>, exhausted: bool)

  function Retry(attempts: seq<Attempt>, length: nat, made: nat): (res: Result)
    requires |attempts| == MAX_ATTEMPTS && made <= MAX_ATTEMPTS
    ensures made <= res.made <= MAX_ATTEMPTS
    decreases MAX_ATTEMPTS - made
  {
    if made == MAX_ATTEMPTS then
      Result(made, Unavailable(RecAfter(attempts, made), length), Some(SERVICE_UNAVAILABLE), true)
    else
      var r := RecAfter(attempts, made + 1);
      if attempts[made].Aborted? then Result(made + 1, r, None, false)
      else if !Errs(attempts[made]) || r.committed then Result(made + 1, r, Some(Status(r)), false)
      else Retry(attempts, length, made + 1)
  }

  ghost function Candidates(first: Backend, peers: seq<Backend?>): set<Backend> {
    {first} + set b: Backend | b in peers
  }

  /** The backend of attempt `k`: the peer offered after the failure before, or the same again. */
  ghost function PeerFor(first: Backend, peers: seq<Backend?>, k: nat): (b: Backend)
    requires k <= |peers|
    ensures b in Candidates(first, peers)
  {
    if k == 0 then first
    else if peers[k - 1] != null then peers[k - 1]
    else PeerFor(first, peers, k - 1)
  }

  /** The failure record of `b` after the first `n` attempts: those that failed on it, and when. */
  ghost function Charged(first: Backend, peers: seq<Backend?>, attempts: seq<Attempt>, times: seq<int>,
            n: nat, b: Backend, prior: Failures): Failures
    requires n <= |attempts| && n <= |peers| + 1 && n <= |times|
  {
    if n == 0 then prior
    else
      var f := Charged(first, peers, attempts, times, n - 1, b, prior);
      if PeerFor(first, peers, n - 1) == b && Errs(attempts[n - 1]) then Failures(f.count + 1, Some(times[n - 1]))
      else f
  }

  /** `p` was the last peer offered before attempt `k`. */
  ghost predicate LastOffered(peers: seq<Backend?>, k: nat, p: Backend)
    requires k <= |peers|
  {
    exists i :: 0 <= i < k && peers[i] == p && forall j :: i < j < k ==> peers[j] == null
  }

  /** Every attempt runs on the last peer offered before it, on the first backend if there was none. */
  lemma {:induction false} FailsOver(first: Backend, peers: seq<Backend?>, k: nat)
    requires k <= |peers|
    ensures if forall j :: 0 <= j < k ==> peers[j] == null then PeerFor(first, peers, k) == first
            else LastOffered(peers, k, PeerFor(first, peers, k))
  {
    if k > 0 && peers[k - 1] == null {
      FailsOver(first, peers, k - 1);
    }
  }

  /** The attempts among the first `n` that ran on `b` and failed. */
  ghost function FailedOn(first: Backend, peers: seq<Backend?>, attempts: seq<Attempt>, n: nat, b: Backend): set<nat>
    requires n <= |attempts| && n <= |peers| + 1
  {
    set k: nat | k < n && PeerFor(first, peers, k) == b &&
                 (attempts[k].Refused? || (attempts[k].Served? && attempts[k].failed))
  }

  /** A backend is charged for exactly the attempts that failed on it, at the time of the last. */
  lemma {:induction false} ChargedExactly(first: Backend, peers: seq<Backend?>, attempts: seq<Attempt>,
            times: seq<int>, n: nat, b: Backend, prior: Failures)
    requires n <= |attempts| && n <= |peers| + 1 && n <= |times|
    ensures var f := Charged(first, peers, attempts, times, n, b, prior);
            var failed := FailedOn(first, peers, attempts, n, b);
            && f.count == prior.count + |failed|
            && (failed == {} ==> f == prior)
            && (forall k :: k in failed && (forall j :: j in failed ==> j <= k) ==> f.last == Some(times[k]))
  {
    if n > 0 {
      ChargedExactly(first, peers, attempts, times, n - 1, b, prior);
      FailedOnStep(first, peers, attempts, n - 1, b);
    }
  }

  lemma {:induction false} FailedOnStep(first: Backend, peers: seq<Backend?>, attempts: seq<Attempt>, n: nat,
            b: Backend)
    requires n < |attempts| && n <= |peers|
    ensures n !in FailedOn(first, peers, attempts, n, b)
    ensures forall k :: k in FailedOn(first, peers, attempts, n, b) ==> k < n
    ensures FailedOn(first, peers, attempts, n + 1, b) ==
            FailedOn(first, peers, attempts, n, b) +
            if PeerFor(first, peers, n) == b && Errs(attempts[n]) then {n} else {}
  {
  }

  class Gateway {
    /** The request counter, as the log of the statuses it was incremented with. */
    var requestsTotal: seq<int>

    constructor ()
      ensures requestsTotal == []
    {
      requestsTotal := [];
    }

    /**
     * One attempt through the breaker: the connection is counted while the proxy runs, also if
     * that panics, and a failure is recorded against the backend.
     */
    method Serve(rec: ResponseRecorder, backend: Backend, a: Attempt, now: int) returns (err: bool)
      modifies rec, backend`connections, backend`failCount, backend`lastFail
      ensures rec.State() == AfterAttempt(old(rec.State()), a)
      ensures backend.connections == old(backend.connections)
      ensures backend.Record() ==
                if err then Failures(old(backend.failCount) + 1, Some(now)) else old(backend.Record())
      ensures err == Errs(a)
    {
      if a.Refused? {
        err := true;
      } else {
        backend.IncConnections();
        rec.Perform(a.ops);
        backend.DecConnections();
        err := a.Served? && a.failed;
      }
      if err {
        backend.RecordFailure(now);
      }
    }

    /** `peers` are NextPeer's answers after the first and the second failure, `times` when attempts end. */
    method Dispatch(rec: ResponseRecorder, first: Backend, peers: seq<Backend?>, attempts: seq<Attempt>,
            times: seq<int>, length: nat)
      returns (made: nat)
      requires |attempts| == |times| == MAX_ATTEMPTS && |peers| == MAX_ATTEMPTS - 1
      requires rec.State() == FRESH
      modifies this, rec, Candidates(first, peers)
      ensures made == Retry(attempts, length, 0).made <= MAX_ATTEMPTS
      ensures rec.State() == Retry(attempts, length, 0).rec
      ensures match Retry(attempts, length, 0).metric
              case Some(status) => requestsTotal == old(requestsTotal) + [status]
              case None => requestsTotal == old(requestsTotal)
      ensures forall b :: b in Candidates(first, peers) ==>
                && b.connections == old(b.connections)
                && b.Record() == Charged(first, peers, attempts, times, made, b, old(b.Record()))
    {
      var backend: Backend := first;
      for attempt := 0 to MAX_ATTEMPTS
        invariant rec.State() == RecAfter(attempts, attempt)
        invariant requestsTotal == old(requestsTotal)
        invariant Retry(attempts, length, 0) == Retry(attempts, length, attempt)
        invariant attempt < MAX_ATTEMPTS ==> backend == PeerFor(first, peers, attempt)
        invariant forall b :: b in Candidates(first, peers) ==>
                    && b.connections == old(b.connections)
                    && b.Record() == Charged(first, peers, attempts, times, attempt, b, old(b.Record()))
      {
        var err := Serve(rec, backend, attempts[attempt], times[attempt]);
        if attempts[attempt].Aborted? {
          return attempt + 1;
        }
        if !err || rec.committed {
          requestsTotal := requestsTotal + [rec.CurrentStatus()];
          return attempt + 1;
        }
        if attempt < MAX_ATTEMPTS - 1 {
          var next := peers[attempt];
          if next != null {
            backend := next;
          }
        }
      }
      rec.WriteHeader(SERVICE_UNAVAILABLE);
      rec.Write(length);
      requestsTotal := requestsTotal + [SERVICE_UNAVAILABLE];
      made := MAX_ATTEMPTS;
    }
  }

  /********** Every sequence of attempt outcomes **********/

  /** Attempt `k` ends the dispatch: it did not fail, or the client has seen part of an answer. */
  predicate Decisive(attempts: seq<Attempt>, k: nat)
    requires k < |attempts|
  {
    || attempts[k].Aborted? || (attempts[k].Served? && !attempts[k].failed)
    || RecAfter(attempts, k + 1).committed
  }

  lemma {:induction false} RecAfterCommitsOnce(attempts: seq<Attempt>, k: nat)
    requires k <= |attempts|
    ensures CommittedOnce(RecAfter(attempts, k))
  {
    if k > 0 {
      RecAfterCommitsOnce(attempts, k - 1);
      if !attempts[k - 1].Refused? {
        OpsCommitOnce(RecAfter(attempts, k - 1), attempts[k - 1].ops);
      }
    }
  }

  /** The loop stops at the first decisive attempt, or gives up after three. */
  lemma {:induction false} StopsAtDecisive(attempts: seq<Attempt>, length: nat, made: nat)
    requires |attempts| == MAX_ATTEMPTS && made <= MAX_ATTEMPTS
    requires forall k :: 0 <= k < made ==> !Decisive(attempts, k)
    ensures var res := Retry(attempts, length, made);
            && made <= res.made <= MAX_ATTEMPTS
            && (res.exhausted ==> res.made == MAX_ATTEMPTS)
            && (forall k :: 0 <= k < res.made - (if res.exhausted then 0 else 1) ==> !Decisive(attempts, k))
            && (!res.exhausted ==> 0 < res.made && Decisive(attempts, res.made - 1))
            && res.rec == (var r := RecAfter(attempts, res.made); if res.exhausted then Unavailable(r, length) else r)
            && res.metric ==
               (if res.exhausted then Some(SERVICE_UNAVAILABLE)
                else if attempts[res.made - 1].Aborted? then None else Some(Status(res.rec)))
    decreases MAX_ATTEMPTS - made
  {
    if made < MAX_ATTEMPTS && !Decisive(attempts, made) {
      StopsAtDecisive(attempts, length, made + 1);
    }
  }

  /**
   * Whatever the attempts do: one to three of them, none after a commit, a success or a panic, at
   * most one status forwarded, and the counted status is the reported one, missed exactly by a
   * panic. Giving up means nothing was committed, so the 503 is the status that is forwarded.
   */
  lemma {:induction false} DispatchSafe(attempts: seq<Attempt>, length: nat)
    requires |attempts| == 3
    ensures var res := Retry(attempts, length, 0);
            && 1 <= res.made <= 3
            && (forall k :: 0 <= k < res.made ==> !RecAfter(attempts, k).committed)
            && (forall k :: 0 <= k < res.made - 1 ==>
                  attempts[k].Refused? || (attempts[k].Served? && attempts[k].failed))
            && (res.exhausted <==> forall k :: 0 <= k < 3 ==> !Decisive(attempts, k))
            && CommittedOnce(res.rec)
            && res.metric == (if attempts[res.made - 1].Aborted? then None else Some(Status(res.rec)))
            && (res.exhausted ==>
                  res.made == 3 && res.rec.forwarded == [503] &&
                  res.rec.bytes == RecAfter(attempts, 3).bytes + length)
  {
    var res := Retry(attempts, length, 0);
    StopsAtDecisive(attempts, length, 0);
    RecAfterCommitsOnce(attempts, res.made);
    forall k | 0 <= k < res.made ensures !RecAfter(attempts, k).committed {
      assert k > 0 ==> !Decisive(attempts, k - 1);
    }
  }

  /********** When the 503 reaches the client **********/

  /** Nothing committed means the operations were flushes and refused takeovers only. */
  lemma {:induction false} UncommittedWire(r: Rec, ops: seq<Op>)
    requires CommittedOnce(r) && !ApplyAll(r, ops).committed
    ensures !r.committed
    ensures ApplyAll(r, ops).wire.status ==
            if Flush(true) in ops && r.wire.status.None? then Some(OK) else r.wire.status
  {
    if ops != [] {
      var init := ops[..|ops| - 1];
      OpsCommitOnce(r, init);
      UncommittedWire(r, init);
      assert Flush(true) in ops <==> Flush(true) in init || ops[|ops| - 1] == Flush(true);
    }
  }

  predicate Flushed(a: Attempt) {
    !a.Refused? && Flush(true) in a.ops
  }

  lemma {:induction false} UncommittedAttempts(attempts: seq<Attempt>, k: nat)
    requires k <= |attempts| && forall j :: 0 <= j <= k ==> !RecAfter(attempts, j).committed
    ensures RecAfter(attempts, k).wire.status ==
            if exists j :: 0 <= j < k && Flushed(attempts[j]) then Some(OK) else None
  {
    if k > 0 {
      UncommittedAttempts(attempts, k - 1);
      RecAfterCommitsOnce(attempts, k - 1);
      assert !RecAfter(attempts, k).committed;
      if !attempts[k - 1].Refused? {
        UncommittedWire(RecAfter(attempts, k - 1), attempts[k - 1].ops);
      }
    }
  }

  /** A dispatch that gives up shows the client its 503 exactly when no attempt flushed. */
  lemma {:induction false} ExhaustedReachesClient(attempts: seq<Attempt>, length: nat)
    requires |attempts| == MAX_ATTEMPTS && Retry(attempts, length, 0).exhausted
    ensures Retry(attempts, length, 0).rec.wire.status == Some(503) <==>
            forall k :: 0 <= k < MAX_ATTEMPTS ==> !Flushed(attempts[k])
  {
    DispatchSafe(attempts, length);
    StopsAtDecisive(attempts, length, 0);
    RecAfterCommitsOnce(attempts, MAX_ATTEMPTS);
    forall j | 0 <= j <= MAX_ATTEMPTS ensures !RecAfter(attempts, j).committed {
      assert j > 0 ==> !Decisive(attempts, j - 1);
    }
    UncommittedAttempts(attempts, MAX_ATTEMPTS);
  }

  /********** When the counted status is the client's **********/

  function OpsOf(a: Attempt): seq<Op> {
    if a.Refused? then [] else a.ops
  }

  /** What the first `k` attempts did to the recorder, in order. */
  function Trace(attempts: seq<Attempt>, k: nat): seq<Op>
    requires k <= |attempts|
  {
    if k == 0 then [] else Trace(attempts, k - 1) + OpsOf(attempts[k - 1])
  }

  lemma {:induction false} AttemptIsOps(before: seq<Op>, a: Attempt)
    ensures AfterAttempt(ApplyAll(FRESH, before), a) == ApplyAll(FRESH, before + OpsOf(a))
  {
    ApplyConcat(FRESH, before, OpsOf(a));
  }

  lemma {:induction false} RecIsTrace(attempts: seq<Attempt>, k: nat)
    requires k <= |attempts|
    ensures RecAfter(attempts, k) == ApplyAll(FRESH, Trace(attempts, k))
  {
    if k > 0 {
      RecIsTrace(attempts, k - 1);
      AttemptIsOps(Trace(attempts, k - 1), attempts[k - 1]);
    }
  }

  /** The error answer, as operations. */
  function Giveup(length: nat): seq<Op> {
    [WriteHeader(SERVICE_UNAVAILABLE), Write(length)]
  }

  lemma {:induction false} GiveupIsUnavailable(r: Rec, length: nat)
    ensures ApplyAll(r, Giveup(length)) == Unavailable(r, length)
  {
    ApplyAllFront(r, Giveup(length));
    ApplyAllFront(Apply(r, Giveup(length)[0]), Giveup(length)[1..]);
  }

  /** Everything a dispatch did to the recorder. */
  function Answer(attempts: seq<Attempt>, length: nat): seq<Op>
    requires |attempts| == MAX_ATTEMPTS
  {
    var res := Retry(attempts, length, 0);
    Trace(attempts, res.made) + if res.exhausted then Giveup(length) else []
  }

  lemma {:induction false} AnswerRecorded(attempts: seq<Attempt>, length: nat)
    requires |attempts| == MAX_ATTEMPTS
    ensures Retry(attempts, length, 0).rec == ApplyAll(FRESH, Answer(attempts, length))
  {
    var res := Retry(attempts, length, 0);
    StopsAtDecisive(attempts, length, 0);
    RecIsTrace(attempts, res.made);
    if res.exhausted {
      ApplyConcat(FRESH, Trace(attempts, res.made), Giveup(length));
      GiveupIsUnavailable(RecAfter(attempts, res.made), length);
    } else {
      assert Trace(attempts, res.made) + [] == Trace(attempts, res.made);
    }
  }

  /** The status counted for a dispatch is the one its client ends up with, exactly when they agree. */
  lemma {:induction false} CountedIsClients(attempts: seq<Attempt>, length: nat)
    requires |attempts| == MAX_ATTEMPTS && Retry(attempts, length, 0).metric.Some?
    ensures var res := Retry(attempts, length, 0);
            AtReturn(res.rec.wire).status == res.metric <==> Agreeing(Answer(attempts, length))
  {
    DispatchSafe(attempts, length);
    AnswerRecorded(attempts, length);
    ReportedIsClients(FRESH, Answer(attempts, length));
  }

  /**
   * An attempt that begins with an interim status is the last one even if it fails: no 503 is
   * sent, the interim code is counted, and the client gets 200 unless the connection is taken over.
   */
  lemma {:induction false} InterimHidesFailure(attempts: seq<Attempt>, length: nat, code: StatusCode, rest: seq<Op>)
    requires |attempts| == MAX_ATTEMPTS && 100 <= code < 200 && code != 101
    requires attempts[0].Served? && attempts[0].ops == [WriteHeader(code)] + rest
    ensures var res := Retry(attempts, length, 0);
            && res.made == 1 && !res.exhausted && res.rec.forwarded == [code] && res.metric == Some(code)
            && AtReturn(res.rec.wire).status == LeftToServer(rest)
  {
    var ops := attempts[0].ops;
    assert ops[0] == WriteHeader(code) && ops[1..] == rest;
    ApplyAllFront(FRESH, ops);
    InterimSwallowsFinal(FRESH, code, rest);
    assert RecAfter(attempts, 1) == ApplyAll(FRESH, ops);
  }
}
