/** Backends and the pools that choose among them. */
module Pool {
  import opened Options
  import opened Balancing

  /** How often a backend failed since the last reset, and when it last did. */
  datatype Failures = Failures(count: int, last: Option<int>)

  class Backend {
    const url: string
    const weight: int
    var alive: bool
    var connections: int
    var failCount: int
    var lastFail: Option<int>

    constructor (url: string, weight: int)
      ensures this.url == url && this.weight == weight
      ensures alive && connections == 0 && failCount == 0 && lastFail == None
    {
      this.url, this.weight := url, weight;
      alive, connections, failCount, lastFail := true, 0, 0, None;
    }

    ghost function Record(): Failures
      reads this
    {
      Failures(failCount, lastFail)
    }

    method SetAlive(up: bool)
      modifies this`alive
      ensures alive == up
    {
      alive := up;
    }

    method IncConnections()
      modifies this`connections
      ensures connections == old(connections) + 1
    {
      connections := connections + 1;
    }

    method DecConnections()
      modifies this`connections
      ensures connections == old(connections) - 1
    {
      connections := connections - 1;
    }

    /** Counts the failure and notes its time; liveness is left to the health checks. */
    method RecordFailure(now: int)
      modifies this`failCount, this`lastFail
      ensures Record() == Failures(old(failCount) + 1, Some(now))
    {
      failCount := failCount + 1;
      lastFail := Some(now);
    }

    method ResetFailures()
      modifies this`failCount
      ensures failCount == 0
    {
      failCount := 0;
    }
  }

  ghost function Liveness(backends: seq<Backend>): (r: seq<bool>)
    reads backends
    ensures |r| == |backends| && forall i :: 0 <= i < |r| ==> r[i] == backends[i].alive
  {
    seq(|backends|, i requires 0 <= i < |backends| reads backends => backends[i].alive)
  }

  ghost function Connections(backends: seq<Backend>): (r: seq<int>)
    reads backends
    ensures |r| == |backends| && forall i :: 0 <= i < |r| ==> r[i] == backends[i].connections
  {
    seq(|backends|, i requires 0 <= i < |backends| reads backends => backends[i].connections)
  }

  ghost function Weights(backends: seq<Backend>): (r: seq<int>)
    ensures |r| == |backends| && forall i :: 0 <= i < |r| ==> r[i] == backends[i].weight
  {
    seq(|backends|, i requires 0 <= i < |backends| => backends[i].weight)
  }

  /** A selector's answer names the backend at the chosen position, or nil for no choice. */
  ghost predicate Names(backends: seq<Backend>, choice: Option<nat>, peer: Backend?) {
    match choice
    case Some(i) => i < |backends| && peer == backends[i]
    case None => peer == null
  }

  ghost predicate NoneLive(backends: seq<Backend>)
    reads backends
  {
    forall i :: 0 <= i < |backends| ==> !backends[i].alive
  }

  /** A live member of the pool, or nil exactly when none is live. */
  ghost predicate Serves(backends: seq<Backend>, peer: Backend?)
    reads backends
  {
    (peer == null <==> NoneLive(backends)) && (peer != null ==> peer in backends && peer.alive)
  }

  lemma {:induction false} CyclicServes(backends: seq<Backend>, start: nat, peer: Backend?)
    requires backends != [] && Names(backends, FirstLive(Liveness(backends), start), peer)
    ensures Serves(backends, peer)
  {
    FirstLiveNone(Liveness(backends), start);
  }

  lemma {:induction false} WeightedServes(backends: seq<Backend>, next: nat, peer: Backend?)
    requires Positive(Weights(backends))
    ensures Names(backends, WeightedPick(Liveness(backends), Weights(backends), next), peer) ==> Serves(backends, peer)
    ensures NoneLive(backends) && peer == null ==>
              Names(backends, WeightedPick(Liveness(backends), Weights(backends), next), peer)
  {
    WeightedNone(Liveness(backends), Weights(backends), next);
  }

  class ServicePool {
    const algo: string
    var backends: seq<Backend>
    var current: nat

    ghost predicate Valid()
      reads this
    {
      Positive(Weights(backends))
    }

    constructor (algo: string)
      ensures this.algo == algo && backends == [] && current == 0
      ensures Valid()
    {
      this.algo, backends, current := algo, [], 0;
    }

    method AddBackend(backend: Backend)
      requires Valid() && backend.weight > 0
      modifies this`backends
      ensures Valid() && backends == old(backends) + [backend]
    {
      backends := backends + [backend];
    }

    method RoundRobin() returns (peer: Backend?)
      requires backends != []
      modifies this`current
      ensures current == old(current) + 1
      ensures Names(backends, FirstLive(Liveness(backends), current), peer)
    {
      current := current + 1;
      ghost var live := Liveness(backends);
      for i := 0 to |backends|
        invariant live == Liveness(backends)
        invariant FirstLive(live, current) == Scan(live, current, i)
      {
        var idx := (current + i) % |backends|;
        if backends[idx].alive {
          return backends[idx];
        }
      }
      return null;
    }

    method LeastConnections() returns (peer: Backend?)
      ensures exists choice :: Names(backends, choice, peer) &&
                LeastLoaded(Liveness(backends), Connections(backends), |backends|, choice)
    {
      ghost var live, conns := Liveness(backends), Connections(backends);
      ghost var choice: Option<nat> := None;
      peer := null;
      var minConn := MAX_INT64;
      for i := 0 to |backends|
        invariant Names(backends, choice, peer) && LeastLoaded(live, conns, i, choice)
        invariant minConn == if choice.Some? then conns[choice.value] else MAX_INT64
      {
        if backends[i].alive {
          var conn := backends[i].connections;
          if conn < minConn {
            minConn := conn;
            peer := backends[i];
            choice := Some(i);
          }
        }
      }
    }

    /** `firstByte` is the first byte of the hash of the client address. */
    method IpHash(firstByte: nat) returns (peer: Backend?)
      requires backends != []
      ensures Names(backends, FirstLive(Liveness(backends), firstByte), peer)
    {
      ghost var live := Liveness(backends);
      var idx := firstByte % |backends|;
      for i := 0 to |backends|
        invariant FirstLive(live, firstByte) == Scan(live, firstByte, i)
      {
        var checkIdx := (idx + i) % |backends|;
        assert checkIdx == (firstByte + i) % |backends| by {
          ModWrap(firstByte, i, |backends|);
          SmallMod(idx + i, |backends|);
        }
        if backends[checkIdx].alive {
          return backends[checkIdx];
        }
      }
      return null;
    }

    /** The first pass: the weight of the live backends. */
    method TotalWeight() returns (total: int)
      ensures total == LiveWeight(Liveness(backends), Weights(backends), |backends|)
    {
      total := 0;
      for i := 0 to |backends|
        invariant total == LiveWeight(Liveness(backends), Weights(backends), i)
      {
        if backends[i].alive {
          total := total + backends[i].weight;
        }
      }
    }

    /** The second pass: the live backend whose slice of the cumulative weight holds the target. */
    method PassTarget(target: int) returns (peer: Backend?)
      ensures Names(backends, Pass(Liveness(backends), Weights(backends), target, 0), peer)
    {
      ghost var live, weights := Liveness(backends), Weights(backends);
      var cumWeight := 0;
      for i := 0 to |backends|
        invariant cumWeight == LiveWeight(live, weights, i)
        invariant Pass(live, weights, target, 0) == Pass(live, weights, target, i)
      {
        if backends[i].alive {
          cumWeight := cumWeight + backends[i].weight;
          if target < cumWeight {
            return backends[i];
          }
        }
      }
      return null;
    }

    method Weighted() returns (peer: Backend?)
      requires Valid()
      modifies this`current
      ensures current == old(current) + if NoneLive(backends) then 0 else 1
      ensures Names(backends, WeightedPick(Liveness(backends), Weights(backends), current), peer)
    {
      ghost var live, weights := Liveness(backends), Weights(backends);
      var totalWeight := TotalWeight();
      LiveWeightZero(live, weights, |live|);
      if totalWeight == 0 {
        assert NoneLive(backends);
        return null;
      }
      current := current + 1;
      peer := PassTarget(current % totalWeight);
    }

    /** Under every algorithm: a live member of the pool, or nil exactly when none is live. */
    method NextPeer(firstByte: nat) returns (peer: Backend?)
      requires Valid()
      requires forall i :: 0 <= i < |backends| ==> backends[i].connections < MAX_INT64
      modifies this`current
      ensures Valid()
      ensures Serves(backends, peer)
      ensures backends != [] && algo == "round-robin" ==>
                Names(backends, FirstLive(Liveness(backends), old(current) + 1), peer)
      ensures backends != [] && algo == "ip-hash" ==>
                Names(backends, FirstLive(Liveness(backends), firstByte), peer)
      ensures algo == "weighted" ==>
                Names(backends, WeightedPick(Liveness(backends), Weights(backends), old(current) + 1), peer)
      ensures backends != [] && algo !in {"round-robin", "ip-hash", "weighted"} ==>
                exists choice :: Names(backends, choice, peer) &&
                  LeastLoaded(Liveness(backends), Connections(backends), |backends|, choice)
      ensures current == old(current) +
                if backends != [] && (algo == "round-robin" || (algo == "weighted" && peer != null)) then 1 else 0
    {
      if |backends| == 0 {
        return null;
      }
      if algo == "round-robin" {
        peer := RoundRobin();
        CyclicServes(backends, current, peer);
      } else if algo == "ip-hash" {
        peer := IpHash(firstByte);
        CyclicServes(backends, firstByte, peer);
      } else if algo == "weighted" {
        peer := Weighted();
        WeightedServes(backends, current, peer);
        WeightedServes(backends, old(current) + 1, peer);
      } else {
        peer := LeastConnections();
      }
    }
  }
}
