/** The process-local limiter: one deque per key in a dictionary that remembers insertion order. */
module RateLimit {
  import Spec = RateLimitSpec
  import opened RateLimitSpec

  datatype Decision = Allowed | Denied(retryAfter: int) | IndexError

  /** The dictionary of deques; `order` lists its keys as they were inserted. */
  datatype Buckets = Buckets(order: seq<Key>, deques: map<Key, seq<real>>)
  {
    ghost predicate Consistent() {
      && (forall i, j :: 0 <= i < j < |order| ==> order[i] != order[j])
      && (forall k :: k in order <==> k in deques)
    }
  }

  function Ceil(x: real): int { -((-x).Floor) }

  function DropExpired(ts: seq<real>, cutoff: real): seq<real> {
    if ts != [] && ts[0] <= cutoff then DropExpired(ts[1..], cutoff) else ts
  }

  /** setdefault: a new key goes to the end of the order. */
  function WithKey(b: Buckets, key: Key): Buckets {
    if key in b.deques then b else Buckets(b.order + [key], b.deques[key := []])
  }

  predicate LiveDeque(ts: seq<real>, cutoff: real) { ts != [] && ts[|ts| - 1] > cutoff }

  function LiveKeys(order: seq<Key>, deques: map<Key, seq<real>>, cutoff: real): seq<Key> {
    if order == [] then [] else
    LiveKeys(order[..|order| - 1], deques, cutoff)
    + if LiveDeque(Of(deques, order[|order| - 1]), cutoff) then [order[|order| - 1]] else []
  }

  /** Pops the oldest keys until the dictionary fits. */
  function Evict(b: Buckets, max: nat): Buckets
    decreases |b.order|
  {
    if |b.order| <= max then b else Evict(Buckets(b.order[1..], b.deques - {b.order[0]}), max)
  }

  function Restrict(deques: map<Key, seq<real>>, order: seq<Key>): map<Key, seq<real>> {
    map k | k in order && k in deques :: deques[k]
  }

  function RemoveExpired(b: Buckets, cutoff: real, max: nat): Buckets {
    var live := LiveKeys(b.order, b.deques, cutoff);
    Evict(Buckets(live, Restrict(b.deques, live)), max)
  }

  function Charged(b: Buckets, key: Key, window: int, now: real): Buckets {
    var c := WithKey(b, key);
    c.(deques := c.deques[key := DropExpired(c.deques[key], now - window as real) + [now]])
  }

  /** The clean-up after a timestamp was added, needed only when the dictionary has outgrown its capacity. */
  function Tidied(b: Buckets, max: nat, cutoff: real): Buckets {
    if |b.order| > max then RemoveExpired(b, cutoff, max) else b
  }

  /** One check, as a function of the dictionary before it. */
  function Check(b: Buckets, max: nat, key: Key, limit: int, window: int, now: real): (Decision, Buckets) {
    var cutoff := now - window as real;
    var c := WithKey(b, key);
    var deque := DropExpired(c.deques[key], cutoff);
    if |deque| >= limit then
      (if deque == [] then IndexError
       else Denied(var r := Ceil(deque[0] + window as real - now); if r > 1 then r else 1),
       c.(deques := c.deques[key := deque]))
    else
      (Allowed, Tidied(Charged(b, key, window, now), max, cutoff))
  }

  class InMemoryRateLimiter {
    const maxBuckets: nat
    var order: seq<Key>
    var deques: map<Key, seq<real>>

    ghost function Value(): Buckets
      reads this
    {
      Buckets(order, deques)
    }

    constructor (maxBuckets: nat)
      ensures this.maxBuckets == maxBuckets && Value() == Buckets([], map[])
    {
      this.maxBuckets := maxBuckets;
      order, deques := [], map[];
    }

    method CheckKey(key: Key, limit: int, window: int, now: real) returns (decision: Decision)
      requires Value().Consistent()
      modifies this
      ensures (decision, Value()) == Check(old(Value()), maxBuckets, key, limit, window, now)
      ensures Value().Consistent()
    {
      var cutoff := now - window as real;
      if key !in deques {
        order := order + [key];
        deques := deques[key := []];
      }
      PopExpired(key, cutoff);
      if |deques[key]| >= limit {
        if deques[key] == [] {
          return IndexError;
        }
        var wait := Ceil(deques[key][0] + window as real - now);
        return Denied(if wait > 1 then wait else 1);
      }
      deques := deques[key := deques[key] + [now]];
      assert Value() == Charged(old(Value()), key, window, now);
      if |order| > maxBuckets {
        RemoveExpiredKeys(cutoff);
      }
      return Allowed;
    }

    /** Pops the timestamps that have left the window from the front of one deque. */
    method PopExpired(key: Key, cutoff: real)
      requires key in deques
      modifies this`deques
      ensures deques == old(deques)[key := DropExpired(old(deques)[key], cutoff)]
    {
      ghost var before := deques;
      while deques[key] != [] && deques[key][0] <= cutoff
        invariant key in deques && deques == before[key := deques[key]]
        invariant DropExpired(deques[key], cutoff) == DropExpired(before[key], cutoff)
        decreases |deques[key]|
      {
        deques := deques[key := deques[key][1..]];
      }
    }

    method RemoveExpiredKeys(cutoff: real)
      requires Value().Consistent()
      modifies this
      ensures Value() == RemoveExpired(old(Value()), cutoff, maxBuckets) && Value().Consistent()
    {
      var live: seq<Key> := [];
      var i := 0;
      while i < |order|
        invariant 0 <= i <= |order|
        invariant live == LiveKeys(order[..i], deques, cutoff)
        invariant Value() == old(Value())
      {
        assert order[..i + 1][..i] == order[..i];
        if LiveDeque(deques[order[i]], cutoff) {
          live := live + [order[i]];
        }
        i := i + 1;
      }
      assert order[..i] == order;
      LiveKeysAre(order, deques, cutoff);
      deques := Restrict(deques, live);
      order := live;
      assert Value().Consistent();
      EvictOldest();
    }

    method EvictOldest()
      requires Value().Consistent()
      modifies this
      ensures Value() == Evict(old(Value()), maxBuckets) && Value().Consistent()
    {
      while |order| > maxBuckets
        invariant Value().Consistent()
        invariant Evict(Value(), maxBuckets) == Evict(old(Value()), maxBuckets)
        decreases |order|
      {
        FirstEvicted(Value());
        deques := deques - {order[0]};
        order := order[1..];
      }
    }

    method BucketCount() returns (n: nat)
      requires Value().Consistent()
      ensures n == |deques|
    {
      DistinctCount(order, deques.Keys);
      n := |order|;
    }
  }

  lemma {:induction false} LiveKeysHave(order: seq<Key>, deques: map<Key, seq<real>>, cutoff: real, k: Key)
    ensures k in LiveKeys(order, deques, cutoff) <==> k in order && LiveDeque(Of(deques, k), cutoff)
  {
    if order != [] {
      LiveKeysHave(order[..|order| - 1], deques, cutoff, k);
      assert order == order[..|order| - 1] + [order[|order| - 1]];
    }
  }

  lemma {:induction false} LiveKeysDiffer(order: seq<Key>, deques: map<Key, seq<real>>, cutoff: real)
    requires forall i, j :: 0 <= i < j < |order| ==> order[i] != order[j]
    ensures var live := LiveKeys(order, deques, cutoff); forall i, j :: 0 <= i < j < |live| ==> live[i] != live[j]
  {
    if order != [] {
      var before, last := order[..|order| - 1], order[|order| - 1];
      LiveKeysDiffer(before, deques, cutoff);
      LiveKeysHave(before, deques, cutoff, last);
    }
  }

  lemma LiveKeysAre(order: seq<Key>, deques: map<Key, seq<real>>, cutoff: real)
    requires forall i, j :: 0 <= i < j < |order| ==> order[i] != order[j]
    ensures var live := LiveKeys(order, deques, cutoff);
      && (forall k :: k in live <==> k in order && LiveDeque(Of(deques, k), cutoff))
      && (forall i, j :: 0 <= i < j < |live| ==> live[i] != live[j])
    ensures order != [] && LiveDeque(Of(deques, order[|order| - 1]), cutoff) ==>
      var live := LiveKeys(order, deques, cutoff); live != [] && live[|live| - 1] == order[|order| - 1]
  {
    LiveKeysDiffer(order, deques, cutoff);
    forall k ensures k in LiveKeys(order, deques, cutoff) <==> k in order && LiveDeque(Of(deques, k), cutoff) {
      LiveKeysHave(order, deques, cutoff, k);
    }
  }

  lemma {:induction false} DistinctCount(s: seq<Key>, elements: set<Key>)
    requires forall i, j :: 0 <= i < j < |s| ==> s[i] != s[j]
    requires forall x :: x in s <==> x in elements
    ensures |elements| == |s|
  {
    if s == [] {
      assert elements == {};
    } else {
      assert s == [s[0]] + s[1..];
      DistinctCount(s[1..], elements - {s[0]});
    }
  }

  lemma FirstEvicted(b: Buckets)
    requires b.Consistent() && b.order != []
    ensures Buckets(b.order[1..], b.deques - {b.order[0]}).Consistent()
  {
    assert b.order == [b.order[0]] + b.order[1..];
  }

  // ---------- agreement with the full history ----------

  /** A deque and a key's history hold the same timestamps from the cutoff on. */
  predicate Agrees(deque: seq<real>, ts: seq<real>, cutoff: real, t: real) {
    UpTo(deque, t) && UpTo(ts, t) && DropExpired(deque, cutoff) == DropExpired(ts, cutoff)
  }

  predicate KeyAgrees(b: Buckets, h: History, window: int, t: real, key: Key) {
    Agrees(Of(b.deques, key), Of(h, key), t - window as real, t)
  }

  /** The limiter's memory agrees with the history from the current window on. */
  ghost predicate Remembers(b: Buckets, h: History, window: int, t: real) {
    forall key :: KeyAgrees(b, h, window, t, key)
  }

  /** The keys the history still constrains. */
  function LiveSet(h: History, cutoff: real): set<Key> {
    set k | k in h && LiveDeque(h[k], cutoff)
  }

  /** Dropping from the front leaves exactly the live timestamps. */
  lemma {:induction false} DropKeepsLive(ts: seq<real>, cutoff: real, t: real)
    requires UpTo(ts, t)
    ensures |DropExpired(ts, cutoff)| == CountIn(ts, cutoff, t)
    ensures UpTo(DropExpired(ts, cutoff), t)
    ensures forall i :: 0 <= i < |DropExpired(ts, cutoff)| ==> DropExpired(ts, cutoff)[i] > cutoff
    ensures DropExpired(ts, cutoff) != [] <==> LiveDeque(ts, cutoff)
    ensures DropExpired(ts, cutoff) != [] ==> DropExpired(ts, cutoff)[|DropExpired(ts, cutoff)| - 1] == ts[|ts| - 1]
  {
    var rest := DropExpired(ts, cutoff);
    if ts != [] {
      if ts[0] <= cutoff {
        DropKeepsLive(ts[1..], cutoff, t);
        CountFirst(ts, cutoff, t);
      } else {
        CountAtLeast(ts, 0, cutoff, t);
        CountAtMost(ts, 0, cutoff, t);
      }
    }
  }

  lemma {:induction false} CountFirst(ts: seq<real>, lo: real, hi: real)
    requires ts != []
    ensures CountIn(ts, lo, hi) == CountIn(ts[1..], lo, hi) + if lo < ts[0] <= hi then 1 else 0
  {
    if |ts| > 1 {
      CountFirst(ts[..|ts| - 1], lo, hi);
      assert ts[1..][..|ts| - 2] == ts[..|ts| - 1][1..];
    } else {
      assert ts[..0] == [] && ts[1..] == [];
    }
  }

  lemma {:induction false} DropLater(ts: seq<real>, early: real, late: real)
    requires early <= late
    ensures DropExpired(DropExpired(ts, early), late) == DropExpired(ts, late)
  {
    if ts != [] && ts[0] <= early { DropLater(ts[1..], early, late); }
  }

  lemma {:induction false} DropAppend(ts: seq<real>, now: real, cutoff: real)
    requires now > cutoff
    ensures DropExpired(ts + [now], cutoff) == DropExpired(ts, cutoff) + [now]
  {
    if ts == [] {
      assert ts + [now] == [now];
    } else {
      assert (ts + [now])[1..] == ts[1..] + [now];
      if ts[0] <= cutoff { DropAppend(ts[1..], now, cutoff); }
    }
  }

  /** Time passing loses nothing. */
  lemma RemembersLater(b: Buckets, h: History, window: int, t: real, now: real)
    requires Remembers(b, h, window, t) && t <= now
    ensures Remembers(b, h, window, now)
  {
    forall key ensures KeyAgrees(b, h, window, now, key) {
      assert KeyAgrees(b, h, window, t, key);
      DropLater(Of(b.deques, key), t - window as real, now - window as real);
      DropLater(Of(h, key), t - window as real, now - window as real);
    }
  }

  /** A limiter that remembers decides as the history does, and says how long to wait otherwise. */
  lemma DecidesLikeHistory(b: Buckets, h: History, max: nat, r: Request, window: int)
    requires b.Consistent() && Remembers(b, h, window, r.now) && r.limit >= 1 && window >= 1
    ensures var d := Check(b, max, r.key, r.limit, window, r.now).0;
      && (d.Allowed? <==> Admits(h, r, window))
      && (!d.Allowed? ==> d.Denied? && 1 <= d.retryAfter <= window)
  {
    var cutoff := r.now - window as real;
    var deque := DropExpired(Of(b.deques, r.key), cutoff);
    assert KeyAgrees(b, h, window, r.now, r.key);
    DropKeepsLive(Of(h, r.key), cutoff, r.now);
    DropKeepsLive(Of(b.deques, r.key), cutoff, r.now);
    if deque != [] {
      assert 0.0 < deque[0] + window as real - r.now <= window as real;
    }
  }

  /** The history of a key that holds exactly `limit` live timestamps admits again precisely once the oldest of them
      has left the window; in whole seconds that is after `retryAfter` and no sooner. */
  lemma HistoryAdmitsAgain(b: Buckets, h: History, max: nat, r: Request, window: int, t: real, seconds: int)
    requires b.Consistent() && Remembers(b, h, window, r.now) && r.limit >= 1 && window >= 1
    requires CountIn(Of(h, r.key), r.now - window as real, r.now) == r.limit
    requires t >= r.now && seconds >= 0
    ensures var oldest := DropExpired(Of(h, r.key), r.now - window as real);
      && oldest != []
      && (Admits(h, r.(now := t), window) <==> t >= oldest[0] + window as real)
    ensures var d := Check(b, max, r.key, r.limit, window, r.now).0;
      && d.Denied?
      && (Admits(h, r.(now := r.now + seconds as real), window) <==> seconds >= d.retryAfter)
  {
    assert KeyAgrees(b, h, window, r.now, r.key);
    DropKeepsLive(Of(h, r.key), r.now - window as real, r.now);
    AdmittedOnceOldestLeaves(Of(h, r.key), r.now, window, t);
    AdmittedOnceOldestLeaves(Of(h, r.key), r.now, window, r.now + seconds as real);
  }

  lemma AdmittedOnceOldestLeaves(ts: seq<real>, now: real, window: int, t: real)
    requires UpTo(ts, now) && t >= now && window >= 1
    requires DropExpired(ts, now - window as real) != []
    ensures var live := DropExpired(ts, now - window as real);
      CountIn(ts, t - window as real, t) < |live| <==> live[0] <= t - window as real
  {
    var live := DropExpired(ts, now - window as real);
    DropKeepsLive(ts, t - window as real, t);
    DropLater(ts, now - window as real, t - window as real);
    if live[0] <= t - window as real {
      DropShortens(live[1..], t - window as real);
    }
  }

  lemma {:induction false} DropShortens(ts: seq<real>, cutoff: real)
    ensures |DropExpired(ts, cutoff)| <= |ts|
  {
    if ts != [] && ts[0] <= cutoff { DropShortens(ts[1..], cutoff); }
  }

  // ---------- capacity ----------

  /** Eviction drops the keys inserted first and keeps the deques of the others. */
  lemma {:induction false} EvictKeepsNewest(b: Buckets, max: nat)
    requires b.Consistent()
    ensures var e := Evict(b, max); var dropped := if |b.order| > max then |b.order| - max else 0;
      && e.Consistent() && e.order == b.order[dropped..]
      && forall k :: k in e.order ==> k in e.deques && k in b.deques && e.deques[k] == b.deques[k]
    decreases |b.order|
  {
    if |b.order| > max {
      FirstEvicted(b);
      EvictKeepsNewest(Buckets(b.order[1..], b.deques - {b.order[0]}), max);
    }
  }

  lemma EvictIs(b: Buckets, max: nat)
    requires b.Consistent()
    ensures var e := Evict(b, max);
      && e.Consistent()
      && |e.order| == (if |b.order| <= max then |b.order| else max)
      && (forall k :: k in e.deques ==> k in b.deques && e.deques[k] == b.deques[k])
      && (|b.order| <= max ==> e == b)
      && (|b.order| > max ==> b.order[0] !in e.deques)
      && (max >= 1 && b.order != [] ==> b.order[|b.order| - 1] in e.deques)
  {
    EvictKeepsNewest(b, max);
  }

  lemma KeyAdded(b: Buckets, key: Key)
    requires b.Consistent()
    ensures WithKey(b, key).Consistent()
  {
  }

  predicate EndsWith(ts: seq<real>, t: real) { ts != [] && ts[|ts| - 1] == t }

  lemma CleanedFits(c: Buckets, max: nat, cutoff: real)
    requires c.Consistent()
    ensures var e := RemoveExpired(c, cutoff, max);
      && e.Consistent() && |e.order| <= max
      && (c.order != [] && max >= 1 && LiveDeque(Of(c.deques, c.order[|c.order| - 1]), cutoff) ==>
            var key := c.order[|c.order| - 1]; Of(e.deques, key) == Of(c.deques, key) != [])
  {
    var live := LiveKeys(c.order, c.deques, cutoff);
    LiveKeysAre(c.order, c.deques, cutoff);
    EvictIs(Buckets(live, Restrict(c.deques, live)), max);
  }

  lemma DropFromNothing(cutoff: real)
    ensures DropExpired([], cutoff) == []
  {
  }

  lemma UpToAppend(ts: seq<real>, now: real)
    requires UpTo(ts, now)
    ensures UpTo(ts + [now], now)
  {
  }

  lemma ChargedAgrees(deque: seq<real>, ts: seq<real>, cutoff: real, now: real)
    requires Agrees(deque, ts, cutoff, now) && cutoff < now
    ensures Agrees(DropExpired(deque, cutoff) + [now], ts + [now], cutoff, now)
  {
    var live := DropExpired(deque, cutoff);
    DropKeepsLive(deque, cutoff, now);
    UpToAppend(live, now);
    UpToAppend(ts, now);
    DropAppend(live, now, cutoff);
    DropLater(deque, cutoff, cutoff);
    DropAppend(ts, now, cutoff);
  }

  lemma TrimmedAgrees(deque: seq<real>, ts: seq<real>, cutoff: real, now: real)
    requires Agrees(deque, ts, cutoff, now)
    ensures Agrees(DropExpired(deque, cutoff), ts, cutoff, now)
  {
    DropKeepsLive(deque, cutoff, now);
    DropLater(deque, cutoff, cutoff);
  }

  lemma ChargedDeque(b: Buckets, key: Key, window: int, now: real, k: Key)
    requires b.Consistent()
    ensures Charged(b, key, window, now).Consistent()
    ensures Of(Charged(b, key, window, now).deques, k)
      == if k == key then DropExpired(Of(b.deques, k), now - window as real) + [now] else Of(b.deques, k)
  {
    KeyAdded(b, key);
  }

  lemma SteppedHistory(h: History, r: Request, window: int, k: Key)
    ensures Of(Step(h, r, window), k) == if k == r.key && Admits(h, r, window) then Of(h, k) + [r.now] else Of(h, k)
  {
  }

  lemma EntryAgrees(
    charged: bool, deque: seq<real>, ts: seq<real>, deque': seq<real>, ts': seq<real>, cutoff: real, now: real)
    requires Agrees(deque, ts, cutoff, now) && cutoff < now
    requires deque' == if charged then DropExpired(deque, cutoff) + [now] else deque
    requires ts' == if charged then ts + [now] else ts
    ensures Agrees(deque', ts', cutoff, now)
  {
    if charged { ChargedAgrees(deque, ts, cutoff, now); }
  }

  lemma LiveAgrees(deque: seq<real>, ts: seq<real>, cutoff: real, t: real)
    requires Agrees(deque, ts, cutoff, t)
    ensures LiveDeque(deque, cutoff) <==> LiveDeque(ts, cutoff)
    ensures Agrees([], ts, cutoff, t) <==> !LiveDeque(ts, cutoff)
  {
    DropKeepsLive(deque, cutoff, t);
    DropKeepsLive(ts, cutoff, t);
    DropFromNothing(cutoff);
  }

  lemma IsLiveKey(c: Buckets, cutoff: real, k: Key)
    requires c.Consistent()
    ensures k in LiveKeys(c.order, c.deques, cutoff) <==> LiveDeque(Of(c.deques, k), cutoff)
  {
    LiveKeysAre(c.order, c.deques, cutoff);
  }

  lemma InLiveSet(h: History, cutoff: real, k: Key)
    ensures k in LiveSet(h, cutoff) <==> LiveDeque(Of(h, k), cutoff)
  {
  }

  lemma LiveKeyIff(c: Buckets, h: History, window: int, t: real, k: Key)
    requires c.Consistent() && Remembers(c, h, window, t)
    ensures k in LiveKeys(c.order, c.deques, t - window as real) <==> k in LiveSet(h, t - window as real)
  {
    var cutoff := t - window as real;
    IsLiveKey(c, cutoff, k);
    InLiveSet(h, cutoff, k);
    assert KeyAgrees(c, h, window, t, k);
    LiveAgrees(Of(c.deques, k), Of(h, k), cutoff, t);
  }

  /** The keys a remembering dictionary would keep are the live keys of the history. */
  lemma LiveKeysAreLiveSet(c: Buckets, h: History, window: int, t: real)
    requires c.Consistent() && Remembers(c, h, window, t)
    ensures var live := LiveKeys(c.order, c.deques, t - window as real);
      && (forall k :: k in live <==> k in LiveSet(h, t - window as real))
      && |live| == |LiveSet(h, t - window as real)| <= |c.order|
  {
    var cutoff := t - window as real;
    var live := LiveKeys(c.order, c.deques, cutoff);
    LiveKeysDiffer(c.order, c.deques, cutoff);
    forall k ensures k in live <==> k in LiveSet(h, cutoff) { LiveKeyIff(c, h, window, t, k); }
    DistinctCount(live, LiveSet(h, cutoff));
    LiveKeysCount(c.order, c.deques, cutoff);
  }

  lemma {:induction false} LiveKeysCount(order: seq<Key>, deques: map<Key, seq<real>>, cutoff: real)
    ensures |LiveKeys(order, deques, cutoff)| <= |order|
  {
    if order != [] { LiveKeysCount(order[..|order| - 1], deques, cutoff); }
  }

  /** What clean-up leaves of one key. */
  lemma CleanedDeque(c: Buckets, max: nat, cutoff: real, k: Key)
    requires c.Consistent()
    ensures var e := RemoveExpired(c, cutoff, max); var live := LiveKeys(c.order, c.deques, cutoff);
      && e.Consistent()
      && (|live| <= max ==> Of(e.deques, k) == if LiveDeque(Of(c.deques, k), cutoff) then Of(c.deques, k) else [])
      && (|live| > max ==> Of(e.deques, live[0]) == [] && LiveDeque(Of(c.deques, live[0]), cutoff))
  {
    var live := LiveKeys(c.order, c.deques, cutoff);
    LiveKeysAre(c.order, c.deques, cutoff);
    EvictIs(Buckets(live, Restrict(c.deques, live)), max);
    if |live| > max { assert live[0] in live; }
  }

  lemma OldestEvicted(c: Buckets, max: nat, cutoff: real, k: Key)
    requires c.Consistent() && |LiveKeys(c.order, c.deques, cutoff)| > max
    requires k == LiveKeys(c.order, c.deques, cutoff)[0]
    ensures Of(RemoveExpired(c, cutoff, max).deques, k) == [] && LiveDeque(Of(c.deques, k), cutoff)
  {
    CleanedDeque(c, max, cutoff, k);
  }

  lemma CleanedKeyAgrees(c: Buckets, h: History, max: nat, window: int, t: real, k: Key)
    requires c.Consistent() && KeyAgrees(c, h, window, t, k)
    requires |LiveKeys(c.order, c.deques, t - window as real)| <= max
    ensures KeyAgrees(RemoveExpired(c, t - window as real, max), h, window, t, k)
  {
    LiveAgrees(Of(c.deques, k), Of(h, k), t - window as real, t);
    CleanedDeque(c, max, t - window as real, k);
  }

  lemma EmptiedKeyDisagrees(c: Buckets, e: Buckets, h: History, window: int, t: real, k: Key)
    requires KeyAgrees(c, h, window, t, k)
    requires LiveDeque(Of(c.deques, k), t - window as real) && Of(e.deques, k) == []
    ensures !KeyAgrees(e, h, window, t, k)
  {
    LiveAgrees(Of(c.deques, k), Of(h, k), t - window as real, t);
  }

  lemma EvictedKeyDisagrees(c: Buckets, h: History, max: nat, window: int, t: real) returns (k: Key)
    requires c.Consistent() && Remembers(c, h, window, t)
    requires |LiveKeys(c.order, c.deques, t - window as real)| > max
    ensures !KeyAgrees(RemoveExpired(c, t - window as real, max), h, window, t, k)
  {
    var cutoff := t - window as real;
    k := LiveKeys(c.order, c.deques, cutoff)[0];
    OldestEvicted(c, max, cutoff, k);
    EmptiedKeyDisagrees(c, RemoveExpired(c, cutoff, max), h, window, t, k);
  }

  lemma FewLiveKeysSurvive(c: Buckets, h: History, max: nat, window: int, t: real)
    requires c.Consistent() && Remembers(c, h, window, t)
    requires |LiveKeys(c.order, c.deques, t - window as real)| <= max
    ensures Remembers(RemoveExpired(c, t - window as real, max), h, window, t)
  {
    var after := RemoveExpired(c, t - window as real, max);
    forall k ensures KeyAgrees(after, h, window, t, k) {
      assert KeyAgrees(c, h, window, t, k);
      CleanedKeyAgrees(c, h, max, window, t, k);
    }
  }

  lemma ManyLiveKeysForget(c: Buckets, h: History, max: nat, window: int, t: real)
    requires c.Consistent() && Remembers(c, h, window, t)
    requires |LiveKeys(c.order, c.deques, t - window as real)| > max
    ensures !Remembers(RemoveExpired(c, t - window as real, max), h, window, t)
  {
    var _ := EvictedKeyDisagrees(c, h, max, window, t);
  }

  lemma CleanedRemembersIff(c: Buckets, h: History, max: nat, window: int, t: real)
    requires c.Consistent() && Remembers(c, h, window, t)
    ensures Remembers(RemoveExpired(c, t - window as real, max), h, window, t)
      <==> |LiveSet(h, t - window as real)| <= max
  {
    LiveSetCount(c, h, window, t);
    if |LiveKeys(c.order, c.deques, t - window as real)| <= max {
      FewLiveKeysSurvive(c, h, max, window, t);
    } else {
      ManyLiveKeysForget(c, h, max, window, t);
    }
  }

  lemma LiveSetCount(c: Buckets, h: History, window: int, t: real)
    requires c.Consistent() && Remembers(c, h, window, t)
    ensures |LiveKeys(c.order, c.deques, t - window as real)| == |LiveSet(h, t - window as real)|
  {
    LiveKeysAreLiveSet(c, h, window, t);
  }

  lemma DeniedDeque(b: Buckets, max: nat, r: Request, window: int, k: Key)
    requires b.Consistent() && !Check(b, max, r.key, r.limit, window, r.now).0.Allowed?
    ensures var after := Check(b, max, r.key, r.limit, window, r.now).1;
      && after.Consistent()
      && Of(after.deques, k) ==
         if k == r.key then DropExpired(Of(b.deques, k), r.now - window as real) else Of(b.deques, k)
  {
    KeyAdded(b, r.key);
  }

  lemma DeniedRemembers(b: Buckets, h: History, max: nat, r: Request, window: int)
    requires b.Consistent() && Remembers(b, h, window, r.now)
    requires !Check(b, max, r.key, r.limit, window, r.now).0.Allowed?
    ensures var after := Check(b, max, r.key, r.limit, window, r.now).1;
      after.Consistent() && Remembers(after, h, window, r.now)
  {
    var cutoff := r.now - window as real;
    var after := Check(b, max, r.key, r.limit, window, r.now).1;
    DeniedDeque(b, max, r, window, r.key);
    forall k ensures KeyAgrees(after, h, window, r.now, k) {
      assert KeyAgrees(b, h, window, r.now, k);
      DeniedDeque(b, max, r, window, k);
      TrimmedAgrees(Of(b.deques, k), Of(h, k), cutoff, r.now);
    }
  }

  lemma ChargedKeyAgrees(b: Buckets, h: History, r: Request, window: int, k: Key)
    requires b.Consistent() && KeyAgrees(b, h, window, r.now, k) && window >= 1 && Admits(h, r, window)
    ensures KeyAgrees(Charged(b, r.key, window, r.now), Step(h, r, window), window, r.now, k)
  {
    var c, next := Charged(b, r.key, window, r.now), Step(h, r, window);
    var cutoff := r.now - window as real;
    ChargedDeque(b, r.key, window, r.now, k);
    SteppedHistory(h, r, window, k);
    EntryAgrees(k == r.key, Of(b.deques, k), Of(h, k), Of(c.deques, k), Of(next, k), cutoff, r.now);
  }

  lemma ChargedRemembers(b: Buckets, h: History, r: Request, window: int)
    requires b.Consistent() && Remembers(b, h, window, r.now) && window >= 1 && Admits(h, r, window)
    ensures var c := Charged(b, r.key, window, r.now);
      c.Consistent() && Remembers(c, Step(h, r, window), window, r.now)
  {
    var c, next := Charged(b, r.key, window, r.now), Step(h, r, window);
    ChargedDeque(b, r.key, window, r.now, r.key);
    forall k ensures KeyAgrees(c, next, window, r.now, k) {
      assert KeyAgrees(b, h, window, r.now, k);
      ChargedKeyAgrees(b, h, r, window, k);
    }
  }

  lemma LiveSetFits(c: Buckets, h: History, window: int, t: real)
    requires c.Consistent() && Remembers(c, h, window, t)
    ensures |LiveSet(h, t - window as real)| <= |c.order|
  {
    LiveKeysAreLiveSet(c, h, window, t);
  }

  lemma CleanedConsistent(c: Buckets, max: nat, cutoff: real)
    requires c.Consistent()
    ensures RemoveExpired(c, cutoff, max).Consistent()
  {
    CleanedDeque(c, max, cutoff, Key(""));
  }

  lemma TidiedRemembersIff(c: Buckets, next: History, max: nat, window: int, t: real, after: Buckets)
    requires c.Consistent() && Remembers(c, next, window, t) && after == Tidied(c, max, t - window as real)
    ensures after.Consistent()
    ensures Remembers(after, next, window, t) <==> |LiveSet(next, t - window as real)| <= max
  {
    if |c.order| > max {
      CleanedRemembersIff(c, next, max, window, t);
      CleanedConsistent(c, max, t - window as real);
    } else {
      LiveSetFits(c, next, window, t);
    }
  }

  /** The dictionary an allowed check leaves is the charged one, tidied. */
  lemma AllowedCheck(b: Buckets, h: History, max: nat, r: Request, window: int) returns (c: Buckets)
    requires b.Consistent() && Remembers(b, h, window, r.now) && window >= 1 && Admits(h, r, window)
    requires Check(b, max, r.key, r.limit, window, r.now).0.Allowed?
    ensures Check(b, max, r.key, r.limit, window, r.now).1 == Tidied(c, max, r.now - window as real)
    ensures c.Consistent() && Remembers(c, Step(h, r, window), window, r.now)
  {
    c := Charged(b, r.key, window, r.now);
    ChargedRemembers(b, h, r, window);
  }

  /** A check keeps the limiter in step with the full history exactly when it is denied or the keys with a live
      timestamp, the one just charged included, fit the capacity: the only thing that ever loses an
      admission is evicting a live key. */
  lemma CheckRemembersIff(b: Buckets, h: History, max: nat, r: Request, window: int)
    requires b.Consistent() && Remembers(b, h, window, r.now) && r.limit >= 1 && window >= 1
    ensures var (d, after) := Check(b, max, r.key, r.limit, window, r.now);
      && after.Consistent()
      && (Remembers(after, Step(h, r, window), window, r.now)
          <==> d.Denied? || |LiveSet(Step(h, r, window), r.now - window as real)| <= max)
  {
    DecidesLikeHistory(b, h, max, r, window);
    if Admits(h, r, window) {
      var c := AllowedCheck(b, h, max, r, window);
      TidiedRemembersIff(c, Step(h, r, window), max, window, r.now, Check(b, max, r.key, r.limit, window, r.now).1);
    } else {
      DeniedRemembers(b, h, max, r, window);
    }
  }

  lemma AllowedIsTidied(b: Buckets, max: nat, r: Request, window: int)
    requires Check(b, max, r.key, r.limit, window, r.now).0.Allowed?
    ensures Check(b, max, r.key, r.limit, window, r.now).1
      == Tidied(Charged(b, r.key, window, r.now), max, r.now - window as real)
  {
  }

  lemma ChargedTail(b: Buckets, r: Request, window: int)
    requires b.Consistent()
    ensures var c := Charged(b, r.key, window, r.now);
      && c.Consistent() && EndsWith(Of(c.deques, r.key), r.now)
      && (c.order == b.order || (c.order != [] && c.order[|c.order| - 1] == r.key))
  {
    ChargedDeque(b, r.key, window, r.now, r.key);
  }

  lemma AllowedTail(b: Buckets, max: nat, r: Request, window: int) returns (c: Buckets)
    requires b.Consistent() && Check(b, max, r.key, r.limit, window, r.now).0.Allowed?
    ensures Check(b, max, r.key, r.limit, window, r.now).1 == Tidied(c, max, r.now - window as real)
    ensures c.Consistent() && EndsWith(Of(c.deques, r.key), r.now)
    ensures c.order == b.order || (c.order != [] && c.order[|c.order| - 1] == r.key)
  {
    c := Charged(b, r.key, window, r.now);
    AllowedIsTidied(b, max, r, window);
    ChargedTail(b, r, window);
  }

  lemma TidiedFits(c: Buckets, max: nat, key: Key, cutoff: real, now: real, after: Buckets)
    requires c.Consistent() && EndsWith(Of(c.deques, key), now) && now > cutoff && after == Tidied(c, max, cutoff)
    requires |c.order| <= max || (c.order != [] && c.order[|c.order| - 1] == key)
    ensures after.Consistent() && |after.order| <= max
    ensures max >= 1 ==> EndsWith(Of(after.deques, key), now)
  {
    CleanedFits(c, max, cutoff);
  }

  /** A key that is not there yet has nothing live, so a denial never adds one. */
  lemma DeniedFits(b: Buckets, max: nat, r: Request, window: int)
    requires b.Consistent() && r.limit >= 1
    requires !Check(b, max, r.key, r.limit, window, r.now).0.Allowed?
    ensures var after := Check(b, max, r.key, r.limit, window, r.now).1;
      after.Consistent() && after.order == b.order
  {
    KeyAdded(b, r.key);
    DropFromNothing(r.now - window as real);
  }

  /** After a check the dictionary fits its capacity again, and the key just charged is never the one evicted. */
  lemma CapacityIsKept(b: Buckets, max: nat, r: Request, window: int)
    requires b.Consistent() && |b.order| <= max && r.limit >= 1 && window >= 1
    ensures var (d, after) := Check(b, max, r.key, r.limit, window, r.now);
      && after.Consistent() && |after.order| <= max
      && (d.Allowed? && max >= 1 ==> EndsWith(Of(after.deques, r.key), r.now))
  {
    if Check(b, max, r.key, r.limit, window, r.now).0.Allowed? {
      var c := AllowedTail(b, max, r, window);
      var after := Check(b, max, r.key, r.limit, window, r.now).1;
      TidiedFits(c, max, r.key, r.now - window as real, r.now, after);
    } else {
      DeniedFits(b, max, r, window);
    }
  }

  // ---------- the order of the live keys, and what a limit of zero does ----------

  /** The keys with a live timestamp keep their order. */
  lemma {:induction false} LiveKeysInOrder(
    order: seq<Key>, deques: map<Key, seq<real>>, cutoff: real)
    returns (at: seq<nat>)
    ensures var live := LiveKeys(order, deques, cutoff);
      && |at| == |live| && (forall i, j :: 0 <= i < j < |at| ==> at[i] < at[j])
      && forall i :: 0 <= i < |at| ==> at[i] < |order| && live[i] == order[at[i]]
  {
    if order == [] {
      at := [];
    } else {
      var n := |order| - 1;
      at := LiveKeysInOrder(order[..n], deques, cutoff);
      if LiveDeque(Of(deques, order[n]), cutoff) { at := at + [n]; }
    }
  }

  /** The empty deque is indexed exactly when a limit of zero or less meets a key without a live timestamp. */
  lemma IndexErrorIff(b: Buckets, h: History, max: nat, r: Request, window: int)
    requires b.Consistent() && Remembers(b, h, window, r.now)
    ensures Check(b, max, r.key, r.limit, window, r.now).0.IndexError?
      <==> r.limit <= 0 && CountIn(Of(h, r.key), r.now - window as real, r.now) == 0
  {
    var cutoff := r.now - window as real;
    assert KeyAgrees(b, h, window, r.now, r.key);
    DropKeepsLive(Of(h, r.key), cutoff, r.now);
  }
}
