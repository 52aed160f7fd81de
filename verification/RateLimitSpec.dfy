/**
 The limiter's specification: every admitted timestamp of every key is remembered for ever, and a request
 is admitted when fewer than `limit` of its key's timestamps lie in the window that ends now.
*/
module RateLimitSpec {
  /** The limiter's dictionary key: bucket name and hashed identity. */
  datatype Key = Key(text: string)

  type History = map<Key, seq<real>>

  datatype Request = Request(key: Key, limit: int, now: real)

  function Of(h: map<Key, seq<real>>, key: Key): seq<real> {
    if key in h then h[key] else []
  }

  predicate Sorted(ts: seq<real>) { forall i, j :: 0 <= i < j < |ts| ==> ts[i] <= ts[j] }

  /** How many timestamps lie in (lo, hi]. */
  function CountIn(ts: seq<real>, lo: real, hi: real): nat {
    if ts == [] then 0 else
    CountIn(ts[..|ts| - 1], lo, hi) + if lo < ts[|ts| - 1] <= hi then 1 else 0
  }

  predicate Admits(h: History, r: Request, window: int) {
    CountIn(Of(h, r.key), r.now - window as real, r.now) < r.limit
  }

  function Step(h: History, r: Request, window: int): History {
    if Admits(h, r, window) then h[r.key := Of(h, r.key) + [r.now]] else h
  }

  function Run(h: History, rs: seq<Request>, window: int): History
    decreases |rs|
  {
    if rs == [] then h else Run(Step(h, rs[0], window), rs[1..], window)
  }

  /** The process clock never runs backwards. */
  predicate Monotone(rs: seq<Request>, from: real) {
    && (forall i :: 0 <= i < |rs| ==> from <= rs[i].now)
    && (forall i, j :: 0 <= i < j < |rs| ==> rs[i].now <= rs[j].now)
  }

  predicate UpTo(ts: seq<real>, t: real) { Sorted(ts) && forall i :: 0 <= i < |ts| ==> ts[i] <= t }

  /** Any `limit + 1` consecutive admissions span at least a window. */
  predicate Spaced(ts: seq<real>, limit: nat, window: int) {
    forall i, j :: 0 <= i && i + limit <= j < |ts| ==> ts[i] <= ts[j] - window as real
  }

  lemma {:induction false} CountAtMost(ts: seq<real>, skipped: nat, lo: real, hi: real)
    requires skipped <= |ts| && forall i :: 0 <= i < skipped ==> ts[i] <= lo
    ensures CountIn(ts, lo, hi) <= |ts| - skipped
  {
    if ts != [] {
      var n := |ts| - 1;
      CountAtMost(ts[..n], if skipped <= n then skipped else n, lo, hi);
    }
  }

  lemma {:induction false} CountAtLeast(ts: seq<real>, from: nat, lo: real, hi: real)
    requires from <= |ts| && forall i :: from <= i < |ts| ==> lo < ts[i] <= hi
    ensures CountIn(ts, lo, hi) >= |ts| - from
  {
    if |ts| > from { CountAtLeast(ts[..|ts| - 1], from, lo, hi); }
  }

  lemma {:induction false} SpacedWindow(ts: seq<real>, limit: nat, window: int, lo: real)
    requires Sorted(ts) && Spaced(ts, limit, window)
    ensures CountIn(ts, lo, lo + window as real) <= limit
  {
    if ts != [] {
      var n := |ts| - 1;
      if lo < ts[n] <= lo + window as real {
        if n + 1 > limit {
          forall i | 0 <= i < n + 1 - limit ensures ts[i] <= lo { assert limit == 0 || i + limit <= n; }
          CountAtMost(ts, n + 1 - limit, lo, lo + window as real);
        } else {
          CountAtMost(ts, 0, lo, lo + window as real);
        }
      } else {
        SpacedWindow(ts[..n], limit, window, lo);
      }
    }
  }

  lemma AdmissionKeepsSpaced(ts: seq<real>, limit: nat, window: int, now: real)
    requires UpTo(ts, now) && Spaced(ts, limit, window) && window >= 0
    requires CountIn(ts, now - window as real, now) < limit
    ensures UpTo(ts + [now], now) && Spaced(ts + [now], limit, window)
  {
    var n := |ts|;
    forall i | 0 <= i && i + limit <= n ensures ts[i] <= now - window as real {
      if ts[i] > now - window as real {
        CountAtLeast(ts, i, now - window as real, now);
      }
    }
  }

  /** Over any run on a monotone clock, no window of the configured length, wherever it starts, holds more
      admissions of a key than the largest limit that key was checked against. */
  lemma {:induction false} EveryWindowIsLimited(h: History, rs: seq<Request>, window: int, from: real,
                                                key: Key, limit: nat, lo: real)
    requires window >= 0 && Monotone(rs, from)
    requires UpTo(Of(h, key), from) && Spaced(Of(h, key), limit, window)
    requires forall i :: 0 <= i < |rs| && rs[i].key == key ==> rs[i].limit <= limit
    ensures CountIn(Of(Run(h, rs, window), key), lo, lo + window as real) <= limit
    decreases |rs|
  {
    if rs == [] {
      SpacedWindow(Of(h, key), limit, window, lo);
    } else {
      var next := Step(h, rs[0], window);
      if rs[0].key == key && Admits(h, rs[0], window) {
        AdmissionKeepsSpaced(Of(h, key), limit, window, rs[0].now);
      }
      EveryWindowIsLimited(next, rs[1..], window, rs[0].now, key, limit, lo);
    }
  }
}
