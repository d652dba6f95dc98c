/** The service router: building pools, registering routes and resolving requests. */
module Router {
  import opened Options
  import opened Config
  import Text
  import opened Hosts
  import opened Paths
  import opened Table
  import opened Pool

  /********** Upstreams of a route **********/

  datatype Upstream = Upstream(url: string, weight: int)

  /** The single- and multi-upstream forms, merged. */
  function Raw(cfg: ServiceRoute): seq<string> {
    (if cfg.targetURL != "" then [cfg.targetURL] else []) + cfg.targets
  }

  function DefaultWeight(cfg: ServiceRoute): int {
    if cfg.weight <= 0 then 1 else cfg.weight
  }

  function WeightAt(cfg: ServiceRoute, i: nat): int {
    if i < |cfg.weights| && cfg.weights[i] > 0 then cfg.weights[i] else DefaultWeight(cfg)
  }

  function Urls(ups: seq<Upstream>): set<string> {
    set u | u in ups :: u.url
  }

  /** `normalize` stands for upstream parsing: None where it rejects the text. */
  function Upstreams(cfg: ServiceRoute, normalize: string -> Option<string>, n: nat): seq<Upstream>
    requires n <= |Raw(cfg)|
  {
    if n == 0 then []
    else
      var prior := Upstreams(cfg, normalize, n - 1);
      match normalize(Raw(cfg)[n - 1])
      case None => prior
      case Some(url) => if url in Urls(prior) then prior else prior + [Upstream(url, WeightAt(cfg, n - 1))]
  }

  /** Position `i` holds a usable upstream that no earlier position names. */
  ghost predicate FirstUse(cfg: ServiceRoute, normalize: string -> Option<string>, i: nat)
    requires i < |Raw(cfg)|
  {
    normalize(Raw(cfg)[i]).Some? &&
    forall j :: 0 <= j < i ==> normalize(Raw(cfg)[j]) != normalize(Raw(cfg)[i])
  }

  /** `idx` lists the first uses among the first `n` positions in order, and `ups` what they name. */
  ghost predicate Deduplicated(cfg: ServiceRoute, normalize: string -> Option<string>, n: nat,
            ups: seq<Upstream>, idx: seq<nat>)
    requires n <= |Raw(cfg)|
  {
    && |idx| == |ups|
    && (forall k :: 0 <= k < |idx| ==> idx[k] < n)
    && (forall k :: 0 <= k < |idx| ==> FirstUse(cfg, normalize, idx[k]))
    && (forall k :: 0 <= k < |idx| ==>
          ups[k] == Upstream(normalize(Raw(cfg)[idx[k]]).value, WeightAt(cfg, idx[k])))
    && (forall i, k :: 0 <= i < k < |idx| ==> idx[i] < idx[k])
    && (forall i: nat :: i < n && FirstUse(cfg, normalize, i) ==> i in idx)
  }

  /** Upstreams are de-duplicated to their first occurrence, in order, each with its own weight. */
  lemma {:induction false} UpstreamsDeduplicated(cfg: ServiceRoute, normalize: string -> Option<string>, n: nat)
    returns (idx: seq<nat>)
    requires n <= |Raw(cfg)|
    ensures Deduplicated(cfg, normalize, n, Upstreams(cfg, normalize, n), idx)
  {
    if n == 0 {
      idx := [];
    } else {
      idx := UpstreamsDeduplicated(cfg, normalize, n - 1);
      SeenBefore(cfg, normalize, n - 1, idx);
      UpstreamsStep(cfg, normalize, n - 1);
      if FirstUse(cfg, normalize, n - 1) {
        DeduplicatedAppend(cfg, normalize, n - 1, Upstreams(cfg, normalize, n - 1), idx);
        idx := idx + [n - 1];
      } else {
        DeduplicatedSkip(cfg, normalize, n - 1, Upstreams(cfg, normalize, n - 1), idx);
      }
    }
  }

  lemma {:induction false} DeduplicatedAppend(cfg: ServiceRoute, normalize: string -> Option<string>, n: nat,
            ups: seq<Upstream>, idx: seq<nat>)
    requires n < |Raw(cfg)| && Deduplicated(cfg, normalize, n, ups, idx) && FirstUse(cfg, normalize, n)
    ensures Deduplicated(cfg, normalize, n + 1,
                         ups + [Upstream(normalize(Raw(cfg)[n]).value, WeightAt(cfg, n))], idx + [n])
  {
  }

  lemma {:induction false} DeduplicatedSkip(cfg: ServiceRoute, normalize: string -> Option<string>, n: nat,
            ups: seq<Upstream>, idx: seq<nat>)
    requires n < |Raw(cfg)| && Deduplicated(cfg, normalize, n, ups, idx) && !FirstUse(cfg, normalize, n)
    ensures Deduplicated(cfg, normalize, n + 1, ups, idx)
  {
  }

  lemma {:induction false} SeenBefore(cfg: ServiceRoute, normalize: string -> Option<string>, n: nat, idx: seq<nat>)
    requires n < |Raw(cfg)|
    requires Deduplicated(cfg, normalize, n, Upstreams(cfg, normalize, n), idx)
    ensures FirstUse(cfg, normalize, n) <==>
            var u := normalize(Raw(cfg)[n]); u.Some? && u.value !in Urls(Upstreams(cfg, normalize, n))
  {
    var ups, u := Upstreams(cfg, normalize, n), normalize(Raw(cfg)[n]);
    if u.Some? {
      if u.value in Urls(ups) {
        var k :| 0 <= k < |ups| && ups[k].url == u.value;
        assert normalize(Raw(cfg)[idx[k]]) == u;
      }
      if j :| 0 <= j < n && normalize(Raw(cfg)[j]) == u {
        var i := EarliestUse(cfg, normalize, j);
        var k :| 0 <= k < |idx| && idx[k] == i;
        assert ups[k] in ups && ups[k].url == u.value;
      }
    }
  }

  lemma {:induction false} EarliestUse(cfg: ServiceRoute, normalize: string -> Option<string>, j: nat) returns (i: nat)
    requires j < |Raw(cfg)| && normalize(Raw(cfg)[j]).Some?
    ensures i <= j && FirstUse(cfg, normalize, i) && normalize(Raw(cfg)[i]) == normalize(Raw(cfg)[j])
  {
    if k :| 0 <= k < j && normalize(Raw(cfg)[k]) == normalize(Raw(cfg)[j]) {
      i := EarliestUse(cfg, normalize, k);
    } else {
      i := j;
    }
  }

  /** The weight of the upstream at position `i`: its own if that is positive, else the route's, else 1. */
  ghost predicate Weighs(cfg: ServiceRoute, i: nat, weight: int) {
    if i < |cfg.weights| && cfg.weights[i] > 0 then weight == cfg.weights[i]
    else if cfg.weight > 0 then weight == cfg.weight
    else weight == 1
  }

  /** The configuration names this upstream, in the single-upstream form or in the list. */
  ghost predicate NamesUpstream(cfg: ServiceRoute, normalize: string -> Option<string>, url: string) {
    || (cfg.targetURL != "" && normalize(cfg.targetURL) == Some(url))
    || (exists j :: 0 <= j < |cfg.targets| && normalize(cfg.targets[j]) == Some(url))
  }

  /** The target at `j` names the upstream, and nothing before it does. */
  ghost predicate ListedFirst(cfg: ServiceRoute, normalize: string -> Option<string>, j: nat, url: string) {
    && j < |cfg.targets| && normalize(cfg.targets[j]) == Some(url)
    && (cfg.targetURL != "" ==> normalize(cfg.targetURL) != Some(url))
    && forall i :: 0 <= i < j ==> normalize(cfg.targets[i]) != Some(url)
  }

  /** The upstream has the weight of the position that names it first. */
  ghost predicate FairlyWeighed(cfg: ServiceRoute, normalize: string -> Option<string>, u: Upstream) {
    if cfg.targetURL != "" && normalize(cfg.targetURL) == Some(u.url) then Weighs(cfg, 0, u.weight)
    else exists j: nat :: ListedFirst(cfg, normalize, j, u.url) &&
           Weighs(cfg, if cfg.targetURL == "" then j else j + 1, u.weight)
  }

  /**
   * What a pool holds, from the configuration alone: every upstream that is named, once, with the
   * weight of the position that names it first; the single upstream comes before the list.
   */
  lemma {:induction false} PoolFromConfig(cfg: ServiceRoute, normalize: string -> Option<string>)
    ensures var ups := Upstreams(cfg, normalize, |Raw(cfg)|);
            && (forall url :: url in Urls(ups) <==> NamesUpstream(cfg, normalize, url))
            && (forall i, k :: 0 <= i < k < |ups| ==> ups[i].url != ups[k].url)
            && (forall k :: 0 <= k < |ups| ==> FairlyWeighed(cfg, normalize, ups[k]))
  {
    var raw, ups := Raw(cfg), Upstreams(cfg, normalize, |Raw(cfg)|);
    var idx := UpstreamsDeduplicated(cfg, normalize, |raw|);
    forall url ensures url in Urls(ups) <==> NamesUpstream(cfg, normalize, url) {
      UpstreamNamed(cfg, normalize, idx, url);
    }
    forall k | 0 <= k < |ups| ensures FairlyWeighed(cfg, normalize, ups[k]) {
      if cfg.targetURL != "" && normalize(cfg.targetURL) == Some(ups[k].url) {
        assert raw[0] == cfg.targetURL;
        assert idx[k] == 0;
      } else {
        FirstUseListed(cfg, normalize, idx[k], ups[k].url);
      }
    }
  }

  lemma {:induction false} RawPositions(cfg: ServiceRoute, j: nat)
    requires j < |cfg.targets|
    ensures var i := if cfg.targetURL == "" then j else j + 1;
            i < |Raw(cfg)| && Raw(cfg)[i] == cfg.targets[j]
  {
  }

  lemma {:induction false} UpstreamNamed(cfg: ServiceRoute, normalize: string -> Option<string>, idx: seq<nat>,
            url: string)
    requires Deduplicated(cfg, normalize, |Raw(cfg)|, Upstreams(cfg, normalize, |Raw(cfg)|), idx)
    ensures url in Urls(Upstreams(cfg, normalize, |Raw(cfg)|)) <==> NamesUpstream(cfg, normalize, url)
  {
    var ups := Upstreams(cfg, normalize, |Raw(cfg)|);
    if url in Urls(ups) {
      var k :| 0 <= k < |ups| && ups[k].url == url;
      PositionNamed(cfg, normalize, idx[k], url);
    }
    if NamesUpstream(cfg, normalize, url) {
      var i := PositionOf(cfg, normalize, url);
      i := EarliestUse(cfg, normalize, i);
      var k :| 0 <= k < |idx| && idx[k] == i;
      assert ups[k] in ups;
    }
  }

  lemma {:induction false} PositionNamed(cfg: ServiceRoute, normalize: string -> Option<string>, i: nat, url: string)
    requires i < |Raw(cfg)| && normalize(Raw(cfg)[i]) == Some(url)
    ensures NamesUpstream(cfg, normalize, url)
  {
    assert Raw(cfg)[i] == if cfg.targetURL == "" then cfg.targets[i] else if i == 0 then cfg.targetURL
                          else cfg.targets[i - 1];
  }

  lemma {:induction false} PositionOf(cfg: ServiceRoute, normalize: string -> Option<string>, url: string)
    returns (i: nat)
    requires NamesUpstream(cfg, normalize, url)
    ensures i < |Raw(cfg)| && normalize(Raw(cfg)[i]) == Some(url)
  {
    if cfg.targetURL != "" && normalize(cfg.targetURL) == Some(url) {
      i := 0;
    } else {
      var j :| 0 <= j < |cfg.targets| && normalize(cfg.targets[j]) == Some(url);
      RawPositions(cfg, j);
      i := if cfg.targetURL == "" then j else j + 1;
    }
  }

  lemma {:induction false} FirstUseListed(cfg: ServiceRoute, normalize: string -> Option<string>, i: nat, url: string)
    requires i < |Raw(cfg)| && FirstUse(cfg, normalize, i) && normalize(Raw(cfg)[i]) == Some(url)
    requires !(cfg.targetURL != "" && normalize(cfg.targetURL) == Some(url))
    ensures exists j: nat :: ListedFirst(cfg, normalize, j, url) &&
              Weighs(cfg, if cfg.targetURL == "" then j else j + 1, WeightAt(cfg, i))
  {
    var shift := if cfg.targetURL == "" then 0 else 1;
    assert shift == 1 ==> Raw(cfg)[0] == cfg.targetURL;
    var j := i - shift;
    RawPositions(cfg, j);
    forall k | 0 <= k < j ensures normalize(cfg.targets[k]) != Some(url) {
      RawPositions(cfg, k);
      assert normalize(Raw(cfg)[k + shift]) != normalize(Raw(cfg)[i]);
    }
    assert ListedFirst(cfg, normalize, j, url);
  }

  /********** The router **********/

  const HOUR: int := 3_600_000_000_000

  function Entry(cfg: ServiceRoute, pool: ServicePool): RouteEntry<ServicePool> {
    RouteEntry(cfg.name, NormalizeHost(cfg.host), if cfg.prefix == "" then "/" else cfg.prefix, pool,
               cfg.stripPrefix, cfg.requireAuth,
               if cfg.timeoutSecs <= 0 then HOUR else cfg.timeoutSecs * 1_000_000_000)
  }

  /** A new pool that holds exactly these upstreams, all up and idle. */
  ghost predicate Holds(backends: seq<Backend>, ups: seq<Upstream>)
    reads backends
  {
    && |backends| == |ups|
    && forall i :: 0 <= i < |ups| ==>
         && backends[i].url == ups[i].url && backends[i].weight == ups[i].weight
         && backends[i].alive && backends[i].connections == 0 && backends[i].failCount == 0
  }

  method AddUpstream(pool: ServicePool, url: string, weight: int, ghost ups: seq<Upstream>) returns (backend: Backend)
    requires pool.Valid() && Holds(pool.backends, ups) && weight > 0
    modifies pool`backends
    ensures pool.Valid() && Holds(pool.backends, ups + [Upstream(url, weight)])
    ensures fresh(backend) && pool.backends == old(pool.backends) + [backend]
  {
    backend := new Backend(url, weight);
    pool.AddBackend(backend);
  }

  method BuildPool(cfg: ServiceRoute, algo: string, normalize: string -> Option<string>) returns (pool: ServicePool)
    ensures fresh(pool) && fresh(pool.backends) && pool.Valid() && pool.algo == algo && pool.current == 0
    ensures Holds(pool.backends, Upstreams(cfg, normalize, |Raw(cfg)|))
  {
    pool := new ServicePool(algo);
    var raw := Raw(cfg);
    var seen: set<string> := {};
    for i := 0 to |raw|
      invariant fresh(pool) && fresh(pool.backends) && pool.Valid() && pool.algo == algo && pool.current == 0
      invariant seen == Urls(Upstreams(cfg, normalize, i))
      invariant Holds(pool.backends, Upstreams(cfg, normalize, i))
    {
      ghost var added;
      seen, added := AddTarget(cfg, normalize, i, pool, seen);
    }
  }

  /** One turn of the loop: the target at `i` joins the pool unless it is unusable or in it already. */
  method AddTarget(cfg: ServiceRoute, normalize: string -> Option<string>, i: nat, pool: ServicePool, seen: set<string>)
    returns (more: set<string>, ghost added: seq<Backend>)
    requires i < |Raw(cfg)| && pool.Valid() && seen == Urls(Upstreams(cfg, normalize, i))
    requires Holds(pool.backends, Upstreams(cfg, normalize, i))
    modifies pool`backends
    ensures pool.Valid() && more == Urls(Upstreams(cfg, normalize, i + 1))
    ensures Holds(pool.backends, Upstreams(cfg, normalize, i + 1))
    ensures fresh(added) && pool.backends == old(pool.backends) + added
  {
    more, added := seen, [];
    UpstreamsStep(cfg, normalize, i);
    var target := normalize(Raw(cfg)[i]);
    if target.Some? && target.value !in seen {
      more := seen + {target.value};
      var backend := AddUpstream(pool, target.value, WeightAt(cfg, i), Upstreams(cfg, normalize, i));
      added := [backend];
    }
  }

  lemma {:induction false} UpstreamsStep(cfg: ServiceRoute, normalize: string -> Option<string>, i: nat)
    requires i < |Raw(cfg)|
    ensures var u, prior := normalize(Raw(cfg)[i]), Upstreams(cfg, normalize, i);
            var next := Upstreams(cfg, normalize, i + 1);
            if u.Some? && u.value !in Urls(prior)
            then next == prior + [Upstream(u.value, WeightAt(cfg, i))] && Urls(next) == Urls(prior) + {u.value}
            else next == prior
  {
    var u := normalize(Raw(cfg)[i]);
    if u.Some? {
      UrlsAppend(Upstreams(cfg, normalize, i), Upstream(u.value, WeightAt(cfg, i)));
    }
  }

  lemma {:induction false} UrlsAppend(ups: seq<Upstream>, u: Upstream)
    ensures Urls(ups + [u]) == Urls(ups) + {u.url}
  {
  }

  /** The answer is what the configuration says. */
  ghost predicate AnsweredAs(cfg: ServiceRoute, pool: ServicePool, path: string, m: MatchedRoute<ServicePool>) {
    && m.name == cfg.name && m.pool == pool && m.requireAuth == cfg.requireAuth
    && m.timeout == (if cfg.timeoutSecs > 0 then cfg.timeoutSecs * 1_000_000_000 else 3_600_000_000_000)
    && if !cfg.stripPrefix || cfg.prefix == "" || cfg.prefix == "/" then m.backendPath == path
       else exists rest :: path == cfg.prefix + rest && m.backendPath == Slashed(rest)
  }

  /** An entry matches the paths below the configured prefix and answers as configured. */
  lemma {:induction false} EntryAnswers(cfg: ServiceRoute, pool: ServicePool, path: string)
    ensures PathMatches(Entry(cfg, pool).prefix, path) <==> Below(cfg.prefix, path)
    ensures Below(cfg.prefix, path) ==> AnsweredAs(cfg, pool, path, Resolve(Entry(cfg, pool), path))
  {
    var prefix := Entry(cfg, pool).prefix;
    MatchesBelow(cfg.prefix, path);
    MatchesBelow(prefix, path);
    if Below(cfg.prefix, path) && prefix != "/" {
      Unstripped(prefix, path);
    }
  }

  /** The request's host is the pattern's, or one label or more below a wildcard, or any for none. */
  ghost predicate Addressed(pattern: Spelling, request: Spelling) {
    var p, host := Text.Lower(pattern.body), Text.Lower(request.body);
    p == "" || host == p || ("*." <= p && exists sub: string :: sub != "" && host == sub + p[1..])
  }

  lemma {:induction false} EntryAddressed(cfg: ServiceRoute, pool: ServicePool, pattern: Spelling, request: Spelling)
    requires WellFormed(pattern) && ("*" <= pattern.body ==> "*." <= pattern.body)
    requires cfg.host == Written(pattern) && WellFormed(request)
    ensures HostMatches(Entry(cfg, pool).host, NormalizeHost(Written(request))) <==> Addressed(pattern, request)
  {
    NormalizeWritten(pattern);
    NormalizeWritten(request);
    RegisteredPatternDocumented(pattern);
    DocumentedMatches(Text.Lower(pattern.body), Text.Lower(request.body));
  }

  class ServiceRouter {
    var routes: seq<RouteEntry<ServicePool>>
    ghost var registered: seq<RouteEntry<ServicePool>>
    ghost var configs: seq<ServiceRoute>

    /** The table is the stable sort of everything registered, each entry from its configuration. */
    ghost predicate Valid()
      reads this
    {
      && routes == StableSort(registered)
      && |configs| == |registered|
      && forall i :: 0 <= i < |registered| ==> registered[i] == Entry(configs[i], registered[i].pool)
    }

    constructor ()
      ensures Valid() && registered == []
    {
      routes, registered, configs := [], [], [];
    }

    /** A route with a usable upstream is registered with a new pool; any other changes nothing. */
    method AddRoute(cfg: ServiceRoute, algo: string, normalize: string -> Option<string>)
      requires Valid()
      modifies this
      ensures Valid()
      ensures var ups := Upstreams(cfg, normalize, |Raw(cfg)|);
              if ups == [] then registered == old(registered) && configs == old(configs)
              else
                && configs == old(configs) + [cfg]
                && |registered| == |old(registered)| + 1
                && var pool := registered[|old(registered)|].pool;
                   && registered == old(registered) + [Entry(cfg, pool)]
                   && fresh(pool) && pool.Valid() && pool.algo == algo && pool.current == 0
                   && Holds(pool.backends, ups)
    {
      var pool := BuildPool(cfg, algo, normalize);
      if |pool.backends| == 0 {
        return;
      }
      var entry := Entry(cfg, pool);
      IncrementalSort(registered, entry);
      routes := StableSort(routes + [entry]);
      registered, configs := registered + [entry], configs + [cfg];
    }

    /**
     * The earliest registered route of maximal rank among all that match, answered as configured,
     * or nil if none matches.
     */
    method Route(host: string, path: string) returns (found: Option<MatchedRoute<ServicePool>>)
      requires Valid()
      ensures match found
              case Some(m) => exists i :: IsBest(registered, Request(NormalizeHost(host), path), i) &&
                                          AnsweredAs(configs[i], registered[i].pool, path, m)
              case None => forall i :: 0 <= i < |registered| ==> !Matches(registered[i], NormalizeHost(host), path)
    {
      var h := NormalizeHost(host);
      ghost var hit := Request<ServicePool>(h, path);
      FirstMatchIsBest(registered, hit);
      for i := 0 to |routes|
        invariant FirstMatch(routes, hit) == FirstMatch(routes[i..], hit)
      {
        var entry := routes[i];
        if HostMatches(entry.host, h) && PathMatches(entry.prefix, path) {
          assert hit(entry);
          ghost var k :| IsBest(registered, hit, k) && registered[k] == entry;
          EntryAnswers(configs[k], entry.pool, path);
          return Some(Resolve(entry, path));
        }
      }
      found := None;
      assert forall i :: 0 <= i < |registered| ==> !hit(registered[i]);
    }
  }

  /** Some upstream is given, in either form, that can be parsed. */
  ghost predicate Usable(cfg: ServiceRoute, normalize: string -> Option<string>) {
    exists url :: NamesUpstream(cfg, normalize, url)
  }

  /** The upstreams that the configuration names, and no other. */
  ghost predicate HoldsNamed(cfg: ServiceRoute, normalize: string -> Option<string>, backends: seq<Backend>) {
    forall url :: NamesUpstream(cfg, normalize, url) <==> exists k :: 0 <= k < |backends| && backends[k].url == url
  }

  lemma {:induction false} PoolHoldsNamed(cfg: ServiceRoute, normalize: string -> Option<string>,
            backends: seq<Backend>)
    requires Holds(backends, Upstreams(cfg, normalize, |Raw(cfg)|))
    ensures HoldsNamed(cfg, normalize, backends)
  {
    var ups := Upstreams(cfg, normalize, |Raw(cfg)|);
    PoolFromConfig(cfg, normalize);
    forall url ensures url in Urls(ups) <==> exists k :: 0 <= k < |backends| && backends[k].url == url {
      if k :| 0 <= k < |backends| && backends[k].url == url {
        assert ups[k] in ups;
      }
      if k :| 0 <= k < |ups| && ups[k].url == url {
        assert backends[k].url == url;
      }
    }
  }

  lemma {:induction false} UsableHasUpstreams(cfg: ServiceRoute, normalize: string -> Option<string>)
    ensures Usable(cfg, normalize) <==> Upstreams(cfg, normalize, |Raw(cfg)|) != []
  {
    var ups := Upstreams(cfg, normalize, |Raw(cfg)|);
    PoolFromConfig(cfg, normalize);
    if ups != [] {
      assert ups[0].url in Urls(ups);
    }
  }

  /**
   * End to end, from the configuration alone: a router with this one route answers a request
   * exactly when the route has a usable upstream, the host is addressed and the path is below the
   * prefix, and then as configured, with a pool of its own.
   */
  method SingleRoute(cfg: ServiceRoute, algo: string, normalize: string -> Option<string>,
            pattern: Spelling, request: Spelling, path: string)
    returns (found: Option<MatchedRoute<ServicePool>>)
    requires WellFormed(pattern) && ("*" <= pattern.body ==> "*." <= pattern.body)
    requires cfg.host == Written(pattern) && WellFormed(request)
    ensures found.Some? <==> Usable(cfg, normalize) && Addressed(pattern, request) && Below(cfg.prefix, path)
    ensures found.Some? ==>
              && fresh(found.value.pool) && found.value.pool.algo == algo
              && AnsweredAs(cfg, found.value.pool, path, found.value)
              && HoldsNamed(cfg, normalize, found.value.pool.backends)
  {
    var router := new ServiceRouter();
    UsableHasUpstreams(cfg, normalize);
    router.AddRoute(cfg, algo, normalize);
    if router.registered != [] {
      PoolHoldsNamed(cfg, normalize, router.registered[0].pool.backends);
      EntryAnswers(cfg, router.registered[0].pool, path);
      EntryAddressed(cfg, router.registered[0].pool, pattern, request);
    }
    found := router.Route(Written(request), path);
  }

  /** What AddRoute registers for a documented host pattern is a documented registration. */
  lemma {:induction false} EntryRegistrable(cfg: ServiceRoute, pool: ServicePool, sp: Spelling)
    requires WellFormed(sp) && ("*" <= sp.body ==> "*." <= sp.body) && cfg.host == Written(sp)
    ensures Registrable(Entry(cfg, pool))
  {
    RegisteredPatternDocumented(sp);
  }

  /**
   * Two configured routes with upstreams of their own, registered in either order: some request
   * sees the order exactly when the normalised hosts rank alike and overlap and the prefixes are
   * the same, which can be checked when a route is added.
   */
  lemma {:induction false} RegistrationOrder(x: ServiceRoute, p: ServicePool, y: ServiceRoute, q: ServicePool)
    requires p != q
    ensures var a, b := Entry(x, p), Entry(y, q);
            (exists host, path :: RequestPath(path) &&
               FirstMatch(StableSort([a, b]), Request(NormalizeHost(host), path)) !=
               FirstMatch(StableSort([b, a]), Request(NormalizeHost(host), path)))
            <==> Conflicts(a, b)
  {
    PairOrder(Entry(x, p), Entry(y, q));
  }

  /** On hosts as clients and operators write them: one prefix, and one host or two that clash. */
  lemma {:induction false} RegistrationConflicts(x: ServiceRoute, p: ServicePool, hx: Spelling,
            y: ServiceRoute, q: ServicePool, hy: Spelling)
    requires WellFormed(hx) && WellFormed(hy) && x.host == Written(hx) && y.host == Written(hy)
    ensures var a, b, hosts := Entry(x, p), Entry(y, q), (Text.Lower(hx.body), Text.Lower(hy.body));
            Conflicts(a, b) <==>
            a.prefix == b.prefix && "/" <= a.prefix && (hosts.0 == hosts.1 || Clash(hosts.0, hosts.1))
  {
    NormalizeWritten(hx);
    NormalizeWritten(hy);
    NormalizeIdempotent(hx);
    NormalizeIdempotent(hy);
    NormalizedConflicts(Entry(x, p), Entry(y, q));
  }

  /** Every spelling of a host reaches the same route. */
  lemma {:induction false} SpellingsRouteAlike<P>(table: seq<RouteEntry<P>>, a: Spelling, b: Spelling, path: string)
    requires WellFormed(a) && WellFormed(b) && Text.Lower(a.body) == Text.Lower(b.body)
    ensures FirstMatch(table, Request(NormalizeHost(Written(a)), path)) ==
            FirstMatch(table, Request(NormalizeHost(Written(b)), path))
  {
    NormalizeWritten(a);
    NormalizeWritten(b);
  }

  /** So does every way of writing it in capital and small letters, on either side. */
  lemma {:induction false} CaseRoutesAlike(x: ServiceRoute, y: ServiceRoute, pool: ServicePool, s: string, t: string,
            path: string)
    requires Text.SameButCase(x.host, y.host) && x == y.(host := x.host) && Text.SameButCase(s, t)
    ensures Matches(Entry(x, pool), NormalizeHost(s), path) <==> Matches(Entry(y, pool), NormalizeHost(t), path)
    ensures Entry(x, pool) == Entry(y, pool)
  {
    CaseBlind(x.host, y.host);
    CaseBlind(s, t);
  }
}
