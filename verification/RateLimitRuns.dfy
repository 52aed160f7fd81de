/** Runs of the limiter: what it grants, when a denied caller may come back, and what evicting a live key costs. */
module RateLimitRuns {
  import opened RateLimitSpec
  import opened RateLimit

  /** The admissions the limiter itself grants over a run. */
  function Granted(b: Buckets, h: History, max: nat, rs: seq<Request>, window: int): History
    decreases |rs|
  {
    if rs == [] then h else
    var r := rs[0];
    var (d, after) := Check(b, max, r.key, r.limit, window, r.now);
    Granted(after, if d.Allowed? then h[r.key := Of(h, r.key) + [r.now]] else h, max, rs[1..], window)
  }

  /** At every check of the run the keys with a live timestamp fit the capacity. */
  predicate FewLiveKeys(h: History, rs: seq<Request>, window: int, max: nat)
    decreases |rs|
  {
    rs == [] ||
    var next := Step(h, rs[0], window);
    |LiveSet(next, rs[0].now - window as real)| <= max && FewLiveKeys(next, rs[1..], window, max)
  }

  lemma GrantStep(b: Buckets, h: History, max: nat, r: Request, window: int)
    requires b.Consistent() && Remembers(b, h, window, r.now) && r.limit >= 1 && window >= 1
    requires |LiveSet(Step(h, r, window), r.now - window as real)| <= max
    ensures var (d, after) := Check(b, max, r.key, r.limit, window, r.now);
      && (if d.Allowed? then h[r.key := Of(h, r.key) + [r.now]] else h) == Step(h, r, window)
      && after.Consistent() && Remembers(after, Step(h, r, window), window, r.now)
  {
    DecidesLikeHistory(b, h, max, r, window);
    CheckRemembersIff(b, h, max, r, window);
  }

  lemma GrantedUnfolds(b: Buckets, h: History, max: nat, rs: seq<Request>, window: int)
    requires rs != [] && b.Consistent() && Remembers(b, h, window, rs[0].now) && rs[0].limit >= 1 && window >= 1
    requires |LiveSet(Step(h, rs[0], window), rs[0].now - window as real)| <= max
    ensures var r := rs[0];
      Granted(b, h, max, rs, window)
        == Granted(Check(b, max, r.key, r.limit, window, r.now).1, Step(h, r, window), max, rs[1..], window)
  {
    GrantStep(b, h, max, rs[0], window);
  }

  predicate Proper(rs: seq<Request>, t: real) { Monotone(rs, t) && forall i :: 0 <= i < |rs| ==> rs[i].limit >= 1 }

  lemma ProperTail(rs: seq<Request>, t: real)
    requires rs != [] && Proper(rs, t)
    ensures Proper(rs[1..], rs[0].now) && rs[0].now >= t && rs[0].limit >= 1
  {
  }

  /** As long as the live keys fit the capacity, the limiter grants exactly what the full history admits. */
  lemma {:induction false} GrantsLikeHistory(b: Buckets, h: History, max: nat, rs: seq<Request>, window: int, t: real)
    requires b.Consistent() && Remembers(b, h, window, t) && Proper(rs, t) && window >= 1
    requires FewLiveKeys(h, rs, window, max)
    ensures Granted(b, h, max, rs, window) == Run(h, rs, window)
    decreases |rs|
  {
    if rs != [] {
      var r := rs[0];
      ProperTail(rs, t);
      RemembersLater(b, h, window, t, r.now);
      GrantStep(b, h, max, r, window);
      GrantedUnfolds(b, h, max, rs, window);
      GrantsLikeHistory(Check(b, max, r.key, r.limit, window, r.now).1,
        Step(h, r, window), max, rs[1..], window, r.now);
    }
  }

  /** The limiter never grants a key more than its limit within any window of the configured length, over any
      run on a monotone clock in which the live keys fit the capacity. */
  lemma LimiterHoldsEveryWindow(
    max: nat, rs: seq<Request>, window: int, from: real, key: Key, limit: nat, lo: real)
    requires window >= 1 && Proper(rs, from)
    requires forall i :: 0 <= i < |rs| && rs[i].key == key ==> rs[i].limit <= limit
    requires FewLiveKeys(map[], rs, window, max)
    ensures CountIn(Of(Granted(Buckets([], map[]), map[], max, rs, window), key), lo, lo + window as real) <= limit
  {
    GrantsLikeHistory(Buckets([], map[]), map[], max, rs, window, from);
    EveryWindowIsLimited(map[], rs, window, from, key, limit, lo);
  }

  // ---------- a denied caller comes back ----------

  /** The dictionary after the checks of a run. */
  function After(b: Buckets, max: nat, rs: seq<Request>, window: int): Buckets
    decreases |rs|
  {
    if rs == [] then b
    else After(Check(b, max, rs[0].key, rs[0].limit, window, rs[0].now).1, max, rs[1..], window)
  }

  function EndTime(rs: seq<Request>, from: real): real { if rs == [] then from else rs[|rs| - 1].now }

  /** The limiter is in step with a history in which a key has kept its fixed limit. */
  ghost predicate InStep(b: Buckets, h: History, window: int, t: real, key: Key, limit: nat) {
    b.Consistent() && Remembers(b, h, window, t) && UpTo(Of(h, key), t) && Spaced(Of(h, key), limit, window)
  }

  predicate FixedLimit(rs: seq<Request>, key: Key, limit: nat) {
    forall i :: 0 <= i < |rs| && rs[i].key == key ==> rs[i].limit == limit
  }

  lemma KeyStaysSpaced(h: History, r: Request, window: int, t: real, key: Key, limit: nat)
    requires window >= 1 && t <= r.now && UpTo(Of(h, key), t) && Spaced(Of(h, key), limit, window)
    requires r.key == key ==> r.limit == limit
    ensures UpTo(Of(Step(h, r, window), key), r.now) && Spaced(Of(Step(h, r, window), key), limit, window)
  {
    if r.key == key && Admits(h, r, window) { AdmissionKeepsSpaced(Of(h, key), limit, window, r.now); }
  }

  lemma CheckStaysInStep(b: Buckets, h: History, max: nat, r: Request, window: int, t: real, key: Key, limit: nat)
    requires window >= 1 && r.limit >= 1 && t <= r.now && InStep(b, h, window, t, key, limit)
    requires r.key == key ==> r.limit == limit
    requires |LiveSet(Step(h, r, window), r.now - window as real)| <= max
    ensures InStep(Check(b, max, r.key, r.limit, window, r.now).1, Step(h, r, window), window, r.now, key, limit)
  {
    RemembersLater(b, h, window, t, r.now);
    GrantStep(b, h, max, r, window);
    KeyStaysSpaced(h, r, window, t, key, limit);
  }

  lemma RunUnfolds(b: Buckets, h: History, max: nat, rs: seq<Request>, window: int, t: real, after: Buckets)
    requires rs != [] && after == Check(b, max, rs[0].key, rs[0].limit, window, rs[0].now).1
    ensures After(b, max, rs, window) == After(after, max, rs[1..], window)
    ensures Run(h, rs, window) == Run(Step(h, rs[0], window), rs[1..], window)
    ensures EndTime(rs, t) == EndTime(rs[1..], rs[0].now)
  {
  }

  lemma RunTail(h: History, rs: seq<Request>, window: int, max: nat, t: real, key: Key, limit: nat)
    requires rs != [] && Proper(rs, t) && FixedLimit(rs, key, limit) && FewLiveKeys(h, rs, window, max)
    ensures var next := Step(h, rs[0], window);
      && Proper(rs[1..], rs[0].now) && FixedLimit(rs[1..], key, limit) && FewLiveKeys(next, rs[1..], window, max)
      && |LiveSet(next, rs[0].now - window as real)| <= max
      && rs[0].now >= t && rs[0].limit >= 1 && (rs[0].key == key ==> rs[0].limit == limit)
  {
  }

  /** A run whose live keys fit leaves the limiter in step. */
  lemma {:induction false} RunStaysInStep(
    b: Buckets, h: History, max: nat, rs: seq<Request>, window: int, t: real, key: Key, limit: nat)
    requires window >= 1 && InStep(b, h, window, t, key, limit)
    requires Proper(rs, t) && FixedLimit(rs, key, limit) && FewLiveKeys(h, rs, window, max)
    ensures InStep(After(b, max, rs, window), Run(h, rs, window), window, EndTime(rs, t), key, limit)
    ensures t <= EndTime(rs, t)
    decreases |rs|
  {
    if rs != [] {
      var r := rs[0];
      var after := Check(b, max, r.key, r.limit, window, r.now).1;
      RunTail(h, rs, window, max, t, key, limit);
      CheckStaysInStep(b, h, max, r, window, t, key, limit);
      RunUnfolds(b, h, max, rs, window, t, after);
      RunStaysInStep(after, Step(h, r, window), max, rs[1..], window, r.now, key, limit);
    }
  }

  lemma {:induction false} OtherKeysLeaveItAlone(h: History, rs: seq<Request>, window: int, key: Key)
    requires forall i :: 0 <= i < |rs| ==> rs[i].key != key
    ensures Of(Run(h, rs, window), key) == Of(h, key)
    decreases |rs|
  {
    if rs != [] { OtherKeysLeaveItAlone(Step(h, rs[0], window), rs[1..], window, key); }
  }

  /** A denial under a fixed limit means exactly `limit` live timestamps, and changes nothing in the history. */
  lemma {:induction false} DenialMeansFull(b: Buckets, h: History, max: nat, r: Request, window: int)
    requires window >= 1 && r.limit >= 1 && InStep(b, h, window, r.now, r.key, r.limit)
    requires !Check(b, max, r.key, r.limit, window, r.now).0.Allowed?
    ensures CountIn(Of(h, r.key), r.now - window as real, r.now) == r.limit
    ensures Step(h, r, window) == h
  {
    DecidesLikeHistory(b, h, max, r, window);
    SpacedWindow(Of(h, r.key), r.limit, window, r.now - window as real);
  }

  /** After a denial, with any checks of other keys in between whose live keys fit, the next check of the key is
      allowed if and only if the oldest live timestamp has left the window; in whole seconds, if and only if
      `retryAfter` has passed. */
  lemma {:induction false} RetryAfterIsExact(
    b: Buckets, h: History, max: nat, r: Request, later: seq<Request>, next: Request, window: int, seconds: nat)
    requires window >= 1 && r.limit >= 1 && InStep(b, h, window, r.now, r.key, r.limit)
    requires !Check(b, max, r.key, r.limit, window, r.now).0.Allowed?
    requires Proper(later, r.now) && FewLiveKeys(h, later, window, max) &&
      forall i :: 0 <= i < |later| ==> later[i].key != r.key
    requires next.key == r.key && next.limit == r.limit && next.now >= EndTime(later, r.now)
    ensures var (d, after) := Check(b, max, r.key, r.limit, window, r.now);
      var oldest := DropExpired(Of(h, r.key), r.now - window as real);
      var again := Check(After(after, max, later, window), max, next.key, next.limit, window, next.now).0;
      && d.Denied? && oldest != []
      && (again.Allowed? <==> next.now >= oldest[0] + window as real)
      && (next.now == r.now + seconds as real ==> (again.Allowed? <==> seconds >= d.retryAfter))
  {
    var after := Check(b, max, r.key, r.limit, window, r.now).1;
    var key, limit := r.key, r.limit;
    DenialMeansFull(b, h, max, r, window);
    DeniedRemembers(b, h, max, r, window);
    RunStaysInStep(after, h, max, later, window, r.now, key, limit);
    OtherKeysLeaveItAlone(h, later, window, key);
    var b2, h2 := After(after, max, later, window), Run(h, later, window);
    RemembersLater(b2, h2, window, EndTime(later, r.now), next.now);
    DecidesLikeHistory(b2, h2, max, next, window);
    HistoryAdmitsAgain(b, h, max, r, window, next.now, seconds);
  }

  /** The premise of the theorem holds after every run from the empty limiter whose live keys fit, for every key checked
      against one limit. */
  lemma {:induction false} ReachedInStep(max: nat, past: seq<Request>, window: int, from: real, r: Request)
    requires window >= 1 && r.limit >= 1 && Proper(past, from) && r.now >= EndTime(past, from)
    requires FixedLimit(past, r.key, r.limit) && FewLiveKeys(map[], past, window, max)
    ensures InStep(After(Buckets([], map[]), max, past, window),
      Run(map[], past, window), window, r.now, r.key, r.limit)
  {
    RunStaysInStep(Buckets([], map[]), map[], max, past, window, from, r.key, r.limit);
    RemembersLater(After(Buckets([], map[]), max, past, window),
      Run(map[], past, window), window, EndTime(past, from), r.now);
  }

  // ---------- what eviction costs ----------

  /** From time `t` on the next check, whatever its key and limit, is decided as the history decides it. */
  ghost predicate DecidesAlike(b: Buckets, h: History, max: nat, window: int, t: real) {
    forall q: Request {:trigger Admits(h, q, window)} :: q.now >= t && q.limit >= 1 ==>
      (Check(b, max, q.key, q.limit, window, q.now).0.Allowed? <==> Admits(h, q, window))
  }

  lemma RememberingDecides(b: Buckets, h: History, max: nat, window: int, t: real)
    requires window >= 1 && b.Consistent() && Remembers(b, h, window, t)
    ensures DecidesAlike(b, h, max, window, t)
  {
    forall q: Request | q.now >= t && q.limit >= 1
      ensures Check(b, max, q.key, q.limit, window, q.now).0.Allowed? <==> Admits(h, q, window)
    {
      RemembersLater(b, h, window, t, q.now);
      DecidesLikeHistory(b, h, max, q, window);
    }
  }

  /** A key whose deque is gone is admitted whatever the history holds against it. */
  lemma ForgottenIsAllowed(b: Buckets, max: nat, key: Key, limit: int, window: int, now: real)
    requires b.Consistent() && Of(b.deques, key) == [] && limit >= 1
    ensures Check(b, max, key, limit, window, now).0.Allowed?
  {
    DropFromNothing(now - window as real);
  }

  lemma EvictedKey(c: Buckets, max: nat, cutoff: real) returns (k: Key)
    requires c.Consistent() && |LiveKeys(c.order, c.deques, cutoff)| > max
    ensures var e := RemoveExpired(c, cutoff, max); e.Consistent() && Of(e.deques, k) == []
    ensures LiveDeque(Of(c.deques, k), cutoff)
  {
    k := LiveKeys(c.order, c.deques, cutoff)[0];
    CleanedDeque(c, max, cutoff, k);
  }

  lemma LiveCounts(deque: seq<real>, ts: seq<real>, cutoff: real, t: real)
    requires Agrees(deque, ts, cutoff, t) && LiveDeque(deque, cutoff)
    ensures CountIn(ts, cutoff, t) >= 1
  {
    LiveAgrees(deque, ts, cutoff, t);
    DropKeepsLive(ts, cutoff, t);
  }

  /** When live keys exceed the capacity, tidying evicts one that the history still holds something against. */
  lemma EvictedLiveKey(c: Buckets, h: History, max: nat, window: int, t: real) returns (k: Key)
    requires c.Consistent() && Remembers(c, h, window, t) && |LiveSet(h, t - window as real)| > max
    ensures var after := Tidied(c, max, t - window as real); after.Consistent() && Of(after.deques, k) == []
    ensures CountIn(Of(h, k), t - window as real, t) >= 1
  {
    var cutoff := t - window as real;
    LiveSetFits(c, h, window, t);
    LiveSetCount(c, h, window, t);
    k := EvictedKey(c, max, cutoff);
    assert KeyAgrees(c, h, window, t, k);
    LiveCounts(Of(c.deques, k), Of(h, k), cutoff, t);
  }

  lemma ForgettingMisdecides(c: Buckets, h: History, max: nat, window: int, t: real, after: Buckets)
    requires c.Consistent() && Remembers(c, h, window, t) && |LiveSet(h, t - window as real)| > max
    requires after == Tidied(c, max, t - window as real)
    ensures !DecidesAlike(after, h, max, window, t)
  {
    var k := EvictedLiveKey(c, h, max, window, t);
    var q := Request(k, CountIn(Of(h, k), t - window as real, t), t);
    ForgottenIsAllowed(after, max, k, q.limit, window, t);
    assert !Admits(h, q, window);
  }

  lemma TidiedDecidesIff(c: Buckets, h: History, max: nat, window: int, t: real, after: Buckets)
    requires c.Consistent() && Remembers(c, h, window, t) && window >= 1
    requires after == Tidied(c, max, t - window as real)
    ensures DecidesAlike(after, h, max, window, t) <==> |LiveSet(h, t - window as real)| <= max
  {
    if |LiveSet(h, t - window as real)| <= max {
      TidiedRemembersIff(c, h, max, window, t, after);
      RememberingDecides(after, h, max, window, t);
    } else {
      ForgettingMisdecides(c, h, max, window, t, after);
    }
  }

  /** After a check of a limiter in step, every next check is decided as the full history decides it if and only if this
      one was denied or the live keys, the one just charged included, fit the capacity. */
  lemma CheckDecidesIff(b: Buckets, h: History, max: nat, r: Request, window: int)
    requires b.Consistent() && Remembers(b, h, window, r.now) && r.limit >= 1 && window >= 1
    ensures var (d, after) := Check(b, max, r.key, r.limit, window, r.now); var next := Step(h, r, window);
      DecidesAlike(after, next, max, window, r.now) <==> d.Denied? || |LiveSet(next, r.now - window as real)| <= max
  {
    DecidesLikeHistory(b, h, max, r, window);
    var after := Check(b, max, r.key, r.limit, window, r.now).1;
    if Admits(h, r, window) {
      var c := AllowedCheck(b, h, max, r, window);
      TidiedDecidesIff(c, Step(h, r, window), max, window, r.now, after);
    } else {
      DeniedRemembers(b, h, max, r, window);
      RememberingDecides(after, h, max, window, r.now);
    }
  }

  // ---------- eviction of a live key ----------

  lemma FirstCheck(a: Key)
    ensures Check(Buckets([], map[]), 1, a, 1, 60, 0.0) == (Allowed, Buckets([a], map[a := [0.0]]))
  {
    DropFromNothing(-60.0);
    var empty := Buckets([], map[]);
    assert WithKey(empty, a) == Buckets([a], map[a := []]);
    assert [] + [0.0] == [0.0];
    assert map[a := []][a := [0.0]] == map[a := [0.0]];
  }

  lemma SecondCheck(a: Key, b: Key)
    requires a != b
    ensures Check(Buckets([a], map[a := [0.0]]), 1, b, 1, 60, 1.0) == (Allowed, Buckets([b], map[b := [1.0]]))
  {
    DropFromNothing(-59.0);
    var one := Buckets([a], map[a := [0.0]]);
    assert WithKey(one, b) == Buckets([a, b], map[a := [0.0], b := []]);
    assert [] + [1.0] == [1.0];
    assert map[a := [0.0], b := []][b := [1.0]] == map[a := [0.0], b := [1.0]];
    BothLive(a, b);
  }

  lemma BothLive(a: Key, b: Key)
    requires a != b
    ensures RemoveExpired(Buckets([a, b], map[a := [0.0], b := [1.0]]), -59.0, 1) == Buckets([b], map[b := [1.0]])
  {
    var full := Buckets([a, b], map[a := [0.0], b := [1.0]]);
    assert full.order[..1] == [a] && [a][..0] == [];
    assert LiveKeys([a], full.deques, -59.0) == [a];
    assert LiveKeys(full.order, full.deques, -59.0) == [a, b];
    assert Restrict(full.deques, full.order) == full.deques;
    var rest := Buckets([b], map[b := [1.0]]);
    assert full.order[1..] == rest.order && full.deques - {a} == rest.deques;
    assert Evict(rest, 1) == rest;
  }

  lemma TwoAdmitted(a: Key, b: Key)
    requires a != b
    ensures Of(Run(map[], [Request(a, 1, 0.0), Request(b, 1, 1.0)], 60), a) == [0.0]
  {
    var rs := [Request(a, 1, 0.0), Request(b, 1, 1.0)];
    assert rs[1..] == [rs[1]] && [rs[1]][1..] == [];
    var h0: History := map[];
    var h1 := Step(h0, rs[0], 60);
    assert Of(h1, a) == [] + [0.0] == [0.0];
    var h2 := Step(h1, rs[1], 60);
    assert Run(h0, rs, 60) == Run(h1, [rs[1]], 60) == Run(h2, [], 60) == h2;
  }

  /** Once live keys exceed the capacity a key can be admitted beyond its limit: with room for one key and a limit
      of one in sixty seconds, checks of a, b and a again within two seconds are all allowed, and the history
      would deny the third. */
  lemma EvictionOverAdmits(a: Key, b: Key)
    requires a != b
    ensures var (d1, s1) := Check(Buckets([], map[]), 1, a, 1, 60, 0.0);
      var (d2, s2) := Check(s1, 1, b, 1, 60, 1.0);
      var d3 := Check(s2, 1, a, 1, 60, 2.0).0;
      d1.Allowed? && d2.Allowed? && d3.Allowed?
    ensures !Admits(Run(map[], [Request(a, 1, 0.0), Request(b, 1, 1.0)], 60), Request(a, 1, 2.0), 60)
  {
    FirstCheck(a);
    SecondCheck(a, b);
    DropFromNothing(-58.0);
    TwoAdmitted(a, b);
    assert CountIn([0.0], -58.0, 2.0) == 1;
  }
}
