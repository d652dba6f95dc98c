/** The ordered routing table and the naive best match it refines. */
module Table {
  import opened Options
  import opened Text
  import opened Hosts
  import opened Paths

  datatype RouteEntry<+P> = RouteEntry(
    name: string, host: string, prefix: string, pool: P,
    stripPrefix: bool, requireAuth: bool, timeout: int)

  datatype MatchedRoute<+P> = MatchedRoute(
    name: string, pool: P, backendPath: string, requireAuth: bool, timeout: int)

  /** What the ordering looks at: host class, then host length, then prefix length. */
  datatype Rank = Rank(specificity: int, hostLength: int, prefixLength: int)

  predicate Above(a: Rank, b: Rank) {
    if a.specificity != b.specificity then a.specificity > b.specificity
    else if a.hostLength != b.hostLength then a.hostLength > b.hostLength
    else a.prefixLength > b.prefixLength
  }

  function RankOf<P>(e: RouteEntry<P>): Rank {
    Rank(HostSpecificity(e.host), |e.host|, |e.prefix|)
  }

  predicate Outranks<P>(a: RouteEntry<P>, b: RouteEntry<P>) {
    Above(RankOf(a), RankOf(b))
  }

  predicate Matches<P>(e: RouteEntry<P>, host: string, path: string) {
    HostMatches(e.host, host) && PathMatches(e.prefix, path)
  }

  /** The test one request puts to every entry. */
  function Request<P>(host: string, path: string): RouteEntry<P> -> bool {
    (e: RouteEntry<P>) => Matches(e, host, path)
  }

  function Resolve<P>(e: RouteEntry<P>, path: string): MatchedRoute<P> {
    MatchedRoute(e.name, e.pool, BackendPath(e.stripPrefix, e.prefix, path), e.requireAuth, e.timeout)
  }

  /********** The table **********/

  /** Put `e` behind everything it does not outrank. */
  function Insert<P>(s: seq<RouteEntry<P>>, e: RouteEntry<P>): seq<RouteEntry<P>> {
    if s == [] then [e]
    else if Outranks(e, s[0]) then [e] + s
    else [s[0]] + Insert(s[1..], e)
  }

  function StableSort<P>(s: seq<RouteEntry<P>>): seq<RouteEntry<P>> {
    if s == [] then [] else Insert(StableSort(s[..|s| - 1]), s[|s| - 1])
  }

  function FirstMatch<P>(s: seq<RouteEntry<P>>, hit: RouteEntry<P> -> bool): Option<RouteEntry<P>> {
    if s == [] then None
    else if hit(s[0]) then Some(s[0])
    else FirstMatch(s[1..], hit)
  }

  ghost predicate Sorted<P>(s: seq<RouteEntry<P>>) {
    forall i, j :: 0 <= i < j < |s| ==> !Outranks(s[j], s[i])
  }

  ghost function IfOfRank<P>(e: RouteEntry<P>, r: Rank): seq<RouteEntry<P>> {
    if RankOf(e) == r then [e] else []
  }

  /** The entries of one rank, in order. */
  ghost function OfRank<P>(s: seq<RouteEntry<P>>, r: Rank): seq<RouteEntry<P>> {
    if s == [] then [] else IfOfRank(s[0], r) + OfRank(s[1..], r)
  }

  lemma {:induction false} OfRankCons<P>(e: RouteEntry<P>, s: seq<RouteEntry<P>>, r: Rank)
    ensures OfRank([e] + s, r) == IfOfRank(e, r) + OfRank(s, r)
  {
  }

  lemma {:induction false} OfRankAppend<P>(s: seq<RouteEntry<P>>, e: RouteEntry<P>, r: Rank)
    ensures OfRank(s + [e], r) == OfRank(s, r) + IfOfRank(e, r)
  {
    if s == [] {
      OfRankCons(e, [], r);
      assert s + [e] == [e] + [];
    } else {
      OfRankAppend(s[1..], e, r);
      OfRankCons(s[0], s[1..] + [e], r);
      assert s + [e] == [s[0]] + (s[1..] + [e]);
      ConcatAssoc(IfOfRank(s[0], r), OfRank(s[1..], r), IfOfRank(e, r));
    }
  }

  lemma {:induction false} OfRankPresent<P>(s: seq<RouteEntry<P>>, i: nat)
    requires i < |s|
    ensures s[i] in OfRank(s, RankOf(s[i]))
  {
    if i > 0 {
      OfRankPresent(s[1..], i - 1);
    }
  }

  lemma {:induction false} OfRankMember<P>(s: seq<RouteEntry<P>>, r: Rank, e: RouteEntry<P>)
    requires e in OfRank(s, r)
    ensures e in s && RankOf(e) == r
  {
    if !(RankOf(s[0]) == r && e == s[0]) {
      OfRankMember(s[1..], r, e);
    }
  }

  lemma {:induction false} InsertElements<P>(s: seq<RouteEntry<P>>, e: RouteEntry<P>)
    ensures multiset(Insert(s, e)) == multiset(s) + multiset{e}
  {
    if s != [] && !Outranks(e, s[0]) {
      InsertElements(s[1..], e);
      assert s == [s[0]] + s[1..];
      assert multiset(Insert(s, e)) == multiset{s[0]} + multiset(Insert(s[1..], e));
    }
  }

  lemma {:induction false} InsertMembers<P>(s: seq<RouteEntry<P>>, e: RouteEntry<P>)
    ensures forall x :: x in Insert(s, e) ==> x == e || x in s
  {
    if s != [] && !Outranks(e, s[0]) {
      InsertMembers(s[1..], e);
    }
  }

  lemma {:induction false} InsertSorted<P>(s: seq<RouteEntry<P>>, e: RouteEntry<P>)
    requires Sorted(s)
    ensures Sorted(Insert(s, e))
  {
    if s != [] && !Outranks(e, s[0]) {
      InsertSorted(s[1..], e);
      InsertMembers(s[1..], e);
      SortedCons(s[0], Insert(s[1..], e));
    } else if s != [] {
      SortedCons(e, s);
    }
  }

  lemma {:induction false} SortedCons<P>(e: RouteEntry<P>, s: seq<RouteEntry<P>>)
    requires Sorted(s) && forall x :: x in s ==> !Outranks(x, e)
    ensures Sorted([e] + s)
  {
  }

  lemma {:induction false} InsertKeepsRank<P>(s: seq<RouteEntry<P>>, e: RouteEntry<P>, r: Rank)
    requires Sorted(s)
    ensures OfRank(Insert(s, e), r) == OfRank(s, r) + IfOfRank(e, r)
  {
    if s == [] {
      OfRankAppend(s, e, r);
    } else if Outranks(e, s[0]) {
      OfRankCons(e, s, r);
      HeadOutranked(s, e);
      if RankOf(e) == r {
        NothingOfRank(s, r);
      }
    } else {
      InsertKeepsRank(s[1..], e, r);
      OfRankCons(s[0], Insert(s[1..], e), r);
      ConcatAssoc(IfOfRank(s[0], r), OfRank(s[1..], r), IfOfRank(e, r));
    }
  }

  lemma {:induction false} HeadOutranked<P>(s: seq<RouteEntry<P>>, e: RouteEntry<P>)
    requires Sorted(s) && s != [] && Outranks(e, s[0])
    ensures forall i :: 0 <= i < |s| ==> RankOf(s[i]) != RankOf(e)
  {
  }

  lemma {:induction false} NothingOfRank<P>(s: seq<RouteEntry<P>>, r: Rank)
    requires forall i :: 0 <= i < |s| ==> RankOf(s[i]) != r
    ensures OfRank(s, r) == []
  {
    if s != [] {
      NothingOfRank(s[1..], r);
    }
  }

  /** The sort orders by rank and keeps the order, and so the contents, within every rank. */
  lemma {:induction false} StableSortSorts<P>(s: seq<RouteEntry<P>>)
    ensures Sorted(StableSort(s))
    ensures forall r :: OfRank(StableSort(s), r) == OfRank(s, r)
    ensures multiset(StableSort(s)) == multiset(s)
  {
    if s != [] {
      var init, e := s[..|s| - 1], s[|s| - 1];
      assert s == init + [e];
      StableSortSorts(init);
      InsertSorted(StableSort(init), e);
      InsertElements(StableSort(init), e);
      forall r ensures OfRank(StableSort(s), r) == OfRank(s, r) {
        InsertKeepsRank(StableSort(init), e, r);
        OfRankAppend(init, e, r);
      }
    }
  }

  /** Those two properties leave no choice, so every stable sorting algorithm gives this table. */
  lemma {:induction false} StableSortUnique<P>(a: seq<RouteEntry<P>>, b: seq<RouteEntry<P>>)
    requires Sorted(a) && Sorted(b)
    requires forall r :: OfRank(a, r) == OfRank(b, r)
    ensures a == b
  {
    if a == [] {
      if b != [] { OfRankPresent(b, 0); }
    } else if b == [] {
      OfRankPresent(a, 0);
    } else {
      HeadRankAtLeast(a, b);
      HeadRankAtLeast(b, a);
      assert RankOf(a[0]) == RankOf(b[0]);
      assert OfRank(a, RankOf(a[0]))[0] == a[0] && OfRank(b, RankOf(a[0]))[0] == b[0];
      forall r ensures OfRank(a[1..], r) == OfRank(b[1..], r) {
        var head := IfOfRank(a[0], r);
        assert head == IfOfRank(b[0], r) && OfRank(a, r) == OfRank(b, r);
        assert OfRank(a, r)[|head|..] == OfRank(a[1..], r) && OfRank(b, r)[|head|..] == OfRank(b[1..], r);
      }
      StableSortUnique(a[1..], b[1..]);
      assert a == [a[0]] + a[1..] && b == [b[0]] + b[1..];
    }
  }

  lemma {:induction false} HeadRankAtLeast<P>(a: seq<RouteEntry<P>>, b: seq<RouteEntry<P>>)
    requires Sorted(b) && a != [] && b != []
    requires forall r :: OfRank(a, r) == OfRank(b, r)
    ensures !Outranks(a[0], b[0])
  {
    var r := RankOf(a[0]);
    OfRankPresent(a, 0);
    assert a[0] in OfRank(b, r);
    OfRankMember(b, r, a[0]);
    var k :| 0 <= k < |b| && b[k] == a[0];
  }

  /** Re-sorting after each append gives the stable sort of everything appended so far. */
  lemma {:induction false} IncrementalSort<P>(registered: seq<RouteEntry<P>>, e: RouteEntry<P>)
    ensures StableSort(StableSort(registered) + [e]) == StableSort(registered + [e])
  {
    var table := StableSort(registered);
    StableSortSorts(registered);
    StableSortSorts(table + [e]);
    StableSortSorts(registered + [e]);
    forall r ensures OfRank(StableSort(table + [e]), r) == OfRank(StableSort(registered + [e]), r) {
      OfRankAppend(table, e, r);
      OfRankAppend(registered, e, r);
      assert OfRank(table, r) == OfRank(registered, r);
    }
    StableSortUnique(StableSort(table + [e]), StableSort(registered + [e]));
  }

  /********** Best match **********/

  /** `i` is the earliest registration of maximal rank among all that match. */
  ghost predicate IsBest<P>(s: seq<RouteEntry<P>>, hit: RouteEntry<P> -> bool, i: int) {
    && 0 <= i < |s|
    && hit(s[i])
    && (forall j :: 0 <= j < |s| && hit(s[j]) ==> !Outranks(s[j], s[i]))
    && (forall j :: 0 <= j < i && hit(s[j]) ==> Outranks(s[i], s[j]))
  }

  /** One more registration replaces the current winner exactly when it matches and outranks it. */
  lemma {:induction false} FirstMatchInsert<P>(s: seq<RouteEntry<P>>, e: RouteEntry<P>, hit: RouteEntry<P> -> bool)
    requires Sorted(s)
    ensures var prior := FirstMatch(s, hit);
            FirstMatch(Insert(s, e), hit) ==
            if hit(e) && (prior.None? || Outranks(e, prior.value)) then Some(e) else prior
  {
    if s == [] {
    } else if Outranks(e, s[0]) {
      assert ([e] + s)[1..] == s;
      FirstMatchMember(s, hit);
    } else {
      FirstMatchInsert(s[1..], e, hit);
      assert ([s[0]] + Insert(s[1..], e))[1..] == Insert(s[1..], e);
    }
  }

  lemma {:induction false} FirstMatchMember<P>(s: seq<RouteEntry<P>>, hit: RouteEntry<P> -> bool)
    ensures FirstMatch(s, hit).Some? ==>
              FirstMatch(s, hit).value in s && hit(FirstMatch(s, hit).value)
    ensures FirstMatch(s, hit).None? ==> forall e :: e in s ==> !hit(e)
  {
    if s != [] {
      FirstMatchMember(s[1..], hit);
    }
  }

  /** `winner` is the best match over `s`, or None where nothing matches. */
  ghost predicate BestOf<P>(s: seq<RouteEntry<P>>, hit: RouteEntry<P> -> bool, winner: Option<RouteEntry<P>>) {
    match winner
    case Some(e) => exists i :: IsBest(s, hit, i) && s[i] == e
    case None => forall i :: 0 <= i < |s| ==> !hit(s[i])
  }

  lemma {:induction false} BestOfAppend<P>(s: seq<RouteEntry<P>>, e: RouteEntry<P>, hit: RouteEntry<P> -> bool,
            prior: Option<RouteEntry<P>>)
    requires BestOf(s, hit, prior)
    ensures BestOf(s + [e], hit, if hit(e) && (prior.None? || Outranks(e, prior.value)) then Some(e) else prior)
  {
    var t := s + [e];
    if prior.Some? {
      var i :| IsBest(s, hit, i) && s[i] == prior.value;
      if hit(e) && Outranks(e, prior.value) {
        assert IsBest(t, hit, |s|);
      } else {
        assert IsBest(t, hit, i);
      }
    } else if hit(e) {
      assert IsBest(t, hit, |s|);
    }
  }

  /** The first-match scan of the sorted table finds the naive best match over all registrations. */
  lemma {:induction false} FirstMatchIsBest<P>(s: seq<RouteEntry<P>>, hit: RouteEntry<P> -> bool)
    ensures BestOf(s, hit, FirstMatch(StableSort(s), hit))
  {
    if s != [] {
      var init, e := s[..|s| - 1], s[|s| - 1];
      FirstMatchIsBest(init, hit);
      StableSortSorts(init);
      FirstMatchInsert(StableSort(init), e, hit);
      BestOfAppend(init, e, hit, FirstMatch(StableSort(init), hit));
      assert s == init + [e];
    }
  }

  lemma {:induction false} BestUnique<P>(s: seq<RouteEntry<P>>, hit: RouteEntry<P> -> bool, i: int, k: int)
    requires IsBest(s, hit, i) && IsBest(s, hit, k)
    ensures i == k
  {
  }

  /********** Order of registration **********/

  ghost predicate RequestPath(path: string) {
    path == "" || path[0] == '/'
  }

  /** Two registrations that some request matches with equal rank. */
  predicate Conflicts<P>(a: RouteEntry<P>, b: RouteEntry<P>) {
    RankOf(a) == RankOf(b) && Overlap(a.host, b.host) && a.prefix == b.prefix && "/" <= a.prefix
  }

  lemma {:induction false} TiesConflict<P>(a: RouteEntry<P>, b: RouteEntry<P>, host: string, path: string)
    requires a.prefix != "" && b.prefix != "" && RequestPath(path)
    requires Matches(a, host, path) && Matches(b, host, path) && RankOf(a) == RankOf(b)
    ensures Conflicts(a, b)
  {
    OverlapMeets(a.host, b.host, host);
    SameLengthPrefixesCoincide(a.prefix, b.prefix, path);
  }

  lemma {:induction false} ConflictTies<P>(a: RouteEntry<P>, b: RouteEntry<P>) returns (raw: string)
    requires Conflicts(a, b)
    ensures Matches(a, NormalizeHost(raw), a.prefix) && Matches(b, NormalizeHost(raw), a.prefix)
  {
    OverlapExact(a.host, b.host);
    raw :| HostMatches(a.host, NormalizeHost(raw)) && HostMatches(b.host, NormalizeHost(raw));
  }

  ghost predicate Normalized<P>(e: RouteEntry<P>) {
    NormalizeHost(e.host) == e.host
  }

  /** Registrations the documentation allows: hosts in a documented form, a non-empty prefix. */
  ghost predicate Registrable<P>(e: RouteEntry<P>) {
    Documented(e.host) && e.prefix != ""
  }

  predicate SameKey<P>(a: RouteEntry<P>, b: RouteEntry<P>) {
    a.host == b.host && a.prefix == b.prefix
  }

  /** Normalised registrations conflict exactly on one prefix with one host or two that clash. */
  lemma {:induction false} NormalizedConflicts<P>(a: RouteEntry<P>, b: RouteEntry<P>)
    requires Normalized(a) && Normalized(b)
    ensures Conflicts(a, b) <==>
            a.prefix == b.prefix && "/" <= a.prefix && (a.host == b.host || Clash(a.host, b.host))
  {
    OverlapExact(a.host, b.host);
    if a.host != b.host {
      BareStarTies(a.host, b.host);
    }
  }

  /** Documented registrations conflict exactly when host pattern and prefix are the same. */
  lemma {:induction false} DocumentedConflicts<P>(a: RouteEntry<P>, b: RouteEntry<P>)
    requires Registrable(a) && Registrable(b)
    ensures Conflicts(a, b) <==> SameKey(a, b) && "/" <= a.prefix
  {
    CanonicalFixed(a.host);
    CanonicalFixed(b.host);
    NormalizedConflicts(a, b);
    DocumentedNoClash(a.host, b.host);
  }

  /** Two documented registrations that tie on one request have the same host pattern and prefix. */
  lemma {:induction false} TiesShareKey<P>(a: RouteEntry<P>, b: RouteEntry<P>, host: string, path: string)
    requires Registrable(a) && Registrable(b) && RequestPath(path)
    requires Matches(a, host, path) && Matches(b, host, path) && RankOf(a) == RankOf(b)
    ensures SameKey(a, b)
  {
    TiesConflict(a, b, host, path);
    DocumentedConflicts(a, b);
  }

  /** `e` matches and nothing that matches outranks it. */
  ghost predicate Top<P>(s: seq<RouteEntry<P>>, hit: RouteEntry<P> -> bool, e: RouteEntry<P>) {
    e in s && hit(e) && forall x :: x in s && hit(x) ==> !Outranks(x, e)
  }

  /** No two entries top the request. */
  ghost predicate UniqueTop<P>(s: seq<RouteEntry<P>>, hit: RouteEntry<P> -> bool) {
    forall a, b :: a in s && b in s && Top(s, hit, a) && Top(s, hit, b) ==> a == b
  }

  /** With a single top-ranked match, the winner does not depend on the order. */
  lemma {:induction false} OneTopOneWinner<P>(s: seq<RouteEntry<P>>, t: seq<RouteEntry<P>>, hit: RouteEntry<P> -> bool,
                           x: Option<RouteEntry<P>>, y: Option<RouteEntry<P>>)
    requires forall e :: e in s <==> e in t
    requires UniqueTop(s, hit)
    requires BestOf(s, hit, x) && BestOf(t, hit, y)
    ensures x == y
  {
    if x.Some? {
      var i :| IsBest(s, hit, i) && s[i] == x.value;
      assert s[i] in t;
      var k :| IsBest(t, hit, k) && t[k] == y.value;
      assert t[k] in s;
      assert Top(s, hit, s[i]) && Top(s, hit, t[k]);
    } else {
      assert forall k :: 0 <= k < |t| ==> t[k] in s;
    }
  }

  lemma {:induction false} SameElements<T>(s: seq<T>, t: seq<T>)
    requires multiset(s) == multiset(t)
    ensures forall e :: e in s <==> e in t
  {
    forall e ensures e in s <==> e in t {
      assert e in s <==> e in multiset(s);
      assert e in t <==> e in multiset(t);
    }
  }

  /** Where no two registrations conflict, any two orders of registration route alike. */
  lemma {:induction false} OrderIrrelevant<P>(s: seq<RouteEntry<P>>, t: seq<RouteEntry<P>>, host: string, path: string)
    requires multiset(s) == multiset(t)
    requires forall e :: e in s ==> e.prefix != ""
    requires forall a, b :: a in s && b in s && Conflicts(a, b) ==> a == b
    requires RequestPath(path)
    ensures FirstMatch(StableSort(s), Request(host, path)) == FirstMatch(StableSort(t), Request(host, path))
  {
    var hit := Request<P>(host, path);
    forall a, b | a in s && b in s && Top(s, hit, a) && Top(s, hit, b) ensures a == b {
      assert RankOf(a) == RankOf(b);
      TiesConflict(a, b, host, path);
    }
    UniqueTopOneAnswer(s, t, hit);
  }

  lemma {:induction false} UniqueTopOneAnswer<P>(s: seq<RouteEntry<P>>, t: seq<RouteEntry<P>>,
            hit: RouteEntry<P> -> bool)
    requires multiset(s) == multiset(t) && UniqueTop(s, hit)
    ensures FirstMatch(StableSort(s), hit) == FirstMatch(StableSort(t), hit)
  {
    SameElements(s, t);
    FirstMatchIsBest(s, hit);
    FirstMatchIsBest(t, hit);
    OneTopOneWinner(s, t, hit, FirstMatch(StableSort(s), hit), FirstMatch(StableSort(t), hit));
  }

  /** Registered first, any top-ranked match wins; so two distinct ones make order observable. */
  lemma {:induction false} TopCanWin<P>(s: seq<RouteEntry<P>>, hit: RouteEntry<P> -> bool, e: RouteEntry<P>)
    returns (t: seq<RouteEntry<P>>)
    requires Top(s, hit, e)
    ensures multiset(t) == multiset(s)
    ensures FirstMatch(StableSort(t), hit) == Some(e)
  {
    var k :| 0 <= k < |s| && s[k] == e;
    t := [e] + s[..k] + s[k + 1..];
    assert s == s[..k] + [e] + s[k + 1..];
    SameElements(s, t);
    assert IsBest(t, hit, 0);
    FirstMatchIsBest(t, hit);
    var i :| IsBest(t, hit, i) && Some(t[i]) == FirstMatch(StableSort(t), hit);
    BestUnique(t, hit, 0, i);
  }

  /**
   * Every order of registration answers a request alike exactly when one entry tops it: with a
   * single one any order `r` answers as `s` does, with more `t` and `u` answer differently.
   */
  lemma {:induction false} OrderMatters<P>(s: seq<RouteEntry<P>>, hit: RouteEntry<P> -> bool, r: seq<RouteEntry<P>>)
    returns (t: seq<RouteEntry<P>>, u: seq<RouteEntry<P>>)
    requires multiset(r) == multiset(s)
    ensures multiset(t) == multiset(s) == multiset(u)
    ensures UniqueTop(s, hit) ==> FirstMatch(StableSort(r), hit) == FirstMatch(StableSort(s), hit)
    ensures FirstMatch(StableSort(t), hit) == FirstMatch(StableSort(u), hit) <==> UniqueTop(s, hit)
  {
    if UniqueTop(s, hit) {
      t, u := s, s;
      UniqueTopOneAnswer(s, r, hit);
    } else {
      var a, b :| a in s && b in s && Top(s, hit, a) && Top(s, hit, b) && a != b;
      t := TopCanWin(s, hit, a);
      u := TopCanWin(s, hit, b);
    }
  }

  /** Two registrations alone: some request sees their order exactly when they conflict. */
  lemma {:induction false} PairOrder<P>(a: RouteEntry<P>, b: RouteEntry<P>)
    requires a != b && a.prefix != "" && b.prefix != ""
    ensures (exists raw, path :: RequestPath(path) &&
               FirstMatch(StableSort([a, b]), Request(NormalizeHost(raw), path)) !=
               FirstMatch(StableSort([b, a]), Request(NormalizeHost(raw), path)))
            <==> Conflicts(a, b)
  {
    if Conflicts(a, b) {
      var raw := ConflictTies(a, b);
      var hit := Request<P>(NormalizeHost(raw), a.prefix);
      FirstOfTies(a, b, hit);
      FirstOfTies(b, a, hit);
      assert RequestPath(a.prefix);
    } else {
      forall raw, path | RequestPath(path)
        ensures FirstMatch(StableSort([a, b]), Request(NormalizeHost(raw), path)) ==
                FirstMatch(StableSort([b, a]), Request(NormalizeHost(raw), path))
      {
        ConflictsSymmetric(a, b);
        OrderIrrelevant([a, b], [b, a], NormalizeHost(raw), path);
      }
    }
  }

  lemma {:induction false} ConflictsSymmetric<P>(a: RouteEntry<P>, b: RouteEntry<P>)
    ensures Conflicts(a, b) <==> Conflicts(b, a)
  {
  }

  lemma {:induction false} FirstOfTies<P>(a: RouteEntry<P>, b: RouteEntry<P>, hit: RouteEntry<P> -> bool)
    requires RankOf(a) == RankOf(b) && hit(a) && hit(b)
    ensures FirstMatch(StableSort([a, b]), hit) == Some(a)
  {
    var s := [a, b];
    FirstMatchIsBest(s, hit);
    assert IsBest(s, hit, 0);
    var i :| IsBest(s, hit, i) && Some(s[i]) == FirstMatch(StableSort(s), hit);
    BestUnique(s, hit, 0, i);
  }

  /** Two distinct registrations of one host and prefix. */
  ghost predicate KeyTwice<P>(s: seq<RouteEntry<P>>) {
    exists a, b :: a in s && b in s && a != b && SameKey(a, b) && "/" <= a.prefix
  }

  function LongestHost<P>(s: seq<RouteEntry<P>>): (m: nat)
    ensures forall e :: e in s ==> |e.host| <= m
  {
    if s == [] then 0
    else
      var m := LongestHost(s[1..]);
      if |s[0].host| > m then |s[0].host| else m
  }

  /** On a host and path of its own nothing registered outranks a documented entry. */
  lemma {:induction false} OwnRequest<P>(s: seq<RouteEntry<P>>, a: RouteEntry<P>)
    requires (forall e :: e in s ==> Registrable(e)) && a in s && "/" <= a.prefix
    ensures var raw := OwnHost(a.host, LongestHost(s));
            forall b :: b in s && SameKey(a, b) ==> Top(s, Request(NormalizeHost(raw), a.prefix), b)
  {
    var m := LongestHost(s);
    var raw := OwnHost(a.host, m);
    OwnHostBelongs(a.host, m);
    forall b, x | b in s && SameKey(a, b) && x in s && Matches(x, raw, a.prefix) ensures !Outranks(x, b) {
      assert NoMoreSpecific(x.host, a.host);
      assert |x.prefix| <= |a.prefix|;
    }
  }

  /**
   * A whole table of documented registrations: if some host and prefix is registered twice, two
   * orders answer one request differently; otherwise any order `r` answers any request as `s` does.
   */
  lemma {:induction false} TableOrder<P>(s: seq<RouteEntry<P>>, r: seq<RouteEntry<P>>, host: string, path: string)
    returns (own: string, below: string, t: seq<RouteEntry<P>>, u: seq<RouteEntry<P>>)
    requires (forall e :: e in s ==> Registrable(e)) && multiset(r) == multiset(s) && RequestPath(path)
    ensures RequestPath(below) && multiset(t) == multiset(s) == multiset(u)
    ensures (FirstMatch(StableSort(t), Request(NormalizeHost(own), below)) !=
             FirstMatch(StableSort(u), Request(NormalizeHost(own), below)))
            <==> KeyTwice(s)
    ensures !KeyTwice(s) ==>
              FirstMatch(StableSort(r), Request(host, path)) == FirstMatch(StableSort(s), Request(host, path))
  {
    if KeyTwice(s) {
      var a, b :| a in s && b in s && a != b && SameKey(a, b) && "/" <= a.prefix;
      own, below := OwnHost(a.host, LongestHost(s)), a.prefix;
      var hit := Request<P>(NormalizeHost(own), below);
      OwnRequest(s, a);
      t := TopCanWin(s, hit, a);
      u := TopCanWin(s, hit, b);
    } else {
      own, below, t, u := "", "", s, s;
      forall a, b | a in s && b in s && Conflicts(a, b) ensures a == b {
        DocumentedConflicts(a, b);
      }
      OrderIrrelevant(s, r, host, path);
    }
  }

  /** An exact host beats a wildcard, a wildcard beats a catch-all, a longer wildcard a shorter. */
  lemma {:induction false} HostTierWins<P>(s: seq<RouteEntry<P>>, hit: RouteEntry<P> -> bool, other: RouteEntry<P>)
    requires other in s && hit(other)
    ensures match FirstMatch(StableSort(s), hit)
            case None => false
            case Some(e) =>
              && e in s && hit(e)
              && (other.host != "" ==> e.host != "")
              && (other.host != "" && !("*." <= other.host) ==> !("*." <= e.host))
              && ("*." <= e.host && "*." <= other.host ==> |e.host| >= |other.host|)
  {
    FirstMatchIsBest(s, hit);
    var j :| 0 <= j < |s| && s[j] == other;
    var i :| IsBest(s, hit, i) && Some(s[i]) == FirstMatch(StableSort(s), hit);
  }

  /** Among the matching routes of one host pattern the deepest prefix wins. */
  lemma {:induction false} DeepestPrefixWins<P>(s: seq<RouteEntry<P>>, host: string, path: string, other: RouteEntry<P>)
    requires FirstMatch(StableSort(s), Request(host, path)).Some?
    requires other in s && Matches(other, host, path) && other.prefix != ""
    requires var e := FirstMatch(StableSort(s), Request(host, path)).value; other.host == e.host && e.prefix != ""
    requires RequestPath(path)
    ensures PathMatches(other.prefix, FirstMatch(StableSort(s), Request(host, path)).value.prefix)
  {
    var hit := Request<P>(host, path);
    FirstMatchIsBest(s, hit);
    var i :| IsBest(s, hit, i) && Some(s[i]) == FirstMatch(StableSort(s), hit);
    var j :| 0 <= j < |s| && s[j] == other;
    DeepestOfTwo(s[i], s[j], host, path);
  }

  lemma {:induction false} DeepestOfTwo<P>(best: RouteEntry<P>, other: RouteEntry<P>, host: string, path: string)
    requires Matches(best, host, path) && Matches(other, host, path) && !Outranks(other, best)
    requires best.host == other.host && best.prefix != "" && other.prefix != ""
    requires RequestPath(path)
    ensures PathMatches(other.prefix, best.prefix)
  {
  }
}
