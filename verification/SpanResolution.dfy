/** Which of the overlapping candidate spans are masked. */
module SpanResolution {
  import opened MaskTokens
  import opened Sorting

  datatype Candidate = Candidate(start: nat, end: nat, entityType: EntityType, detectionOrder: int)

  function Max(a: nat, b: nat): nat { if a > b then a else b }
  function Min(a: nat, b: nat): nat { if a < b then a else b }

  predicate Overlaps(a: Candidate, b: Candidate) { Max(a.start, b.start) < Min(a.end, b.end) }

  predicate OverlapsSpan(c: Candidate, span: Found) { Max(c.start, span.start) < Min(c.end, span.end) }

  /** Two stretches overlap when some place lies in both. */
  lemma OverlapIff(a: Candidate, b: Candidate, f: Found)
    ensures Overlaps(a, b) <==> exists p: nat :: Inside(p, a.start, a.end) && Inside(p, b.start, b.end)
    ensures OverlapsSpan(a, f) <==> exists p: nat :: Inside(p, a.start, a.end) && Inside(p, f.start, f.end)
  {
    if Overlaps(a, b) { assert Inside(Max(a.start, b.start), a.start, a.end); }
    if OverlapsSpan(a, f) { assert Inside(Max(a.start, f.start), a.start, a.end); }
  }

  predicate Inside(p: nat, start: nat, end: nat) { start <= p < end }

  function Priority(t: EntityType): int {
    match t
    case Person => 10
    case Address => 10
    case DateOfBirth => 10
    case Phone => 9
    case AccountNumber => 6
    case BusinessRegistration => 9
    case NationalId => 8
    case Email => 7
    case _ => 0
  }

  /** Leftmost first, then longest, then by priority, then in order of detection. */
  predicate Precedes(a: Candidate, b: Candidate) {
    if a.start != b.start then a.start < b.start
    else if a.end != b.end then a.end > b.end
    else if Priority(a.entityType) != Priority(b.entityType) then Priority(a.entityType) > Priority(b.entityType)
    else a.detectionOrder <= b.detectionOrder
  }

  predicate Blocked(c: Candidate, protected: seq<Found>, selected: seq<Candidate>) {
    || (exists k :: 0 <= k < |protected| && OverlapsSpan(c, protected[k]))
    || (exists k :: 0 <= k < |selected| && c.start == selected[k].start && c.end == selected[k].end
          && c.entityType == selected[k].entityType)
    || (exists k :: 0 <= k < |selected| && Overlaps(c, selected[k]))
  }

  /** The greedy pass over candidates already in order. */
  function Greedy(ordered: seq<Candidate>, protected: seq<Found>): seq<Candidate> {
    if ordered == [] then [] else
    var selected := Greedy(ordered[..|ordered| - 1], protected);
    var c := ordered[|ordered| - 1];
    if Blocked(c, protected, selected) then selected else selected + [c]
  }

  predicate NonEmpty(cs: seq<Candidate>) { forall k :: 0 <= k < |cs| ==> cs[k].start < cs[k].end }

  predicate Apart(cs: seq<Candidate>) { forall i, j :: 0 <= i < j < |cs| ==> cs[i].end <= cs[j].start }

  predicate Clear(c: Candidate, protected: seq<Found>) {
    forall k :: 0 <= k < |protected| ==> !OverlapsSpan(c, protected[k])
  }

  /** A dropped candidate has an excuse: a protected span, or a selected candidate that precedes it. */
  ghost predicate Excused(c: Candidate, protected: seq<Found>, selected: seq<Candidate>) {
    !Clear(c, protected) || exists s :: s in selected && Overlaps(c, s) && Precedes(s, c)
  }

  /** What the resolver promises about its result. */
  ghost predicate Resolved(candidates: seq<Candidate>, protected: seq<Found>, result: seq<Candidate>) {
    && Apart(result)
    && (forall c :: c in result ==> c in candidates && Clear(c, protected))
    && (forall c :: c in candidates ==> c in result || Excused(c, protected, result))
  }

  lemma DropBlocked(before: seq<Candidate>, c: Candidate, protected: seq<Found>, selected: seq<Candidate>)
    requires Resolved(before, protected, selected) && Blocked(c, protected, selected)
    requires c.start < c.end && forall s :: s in selected ==> Precedes(s, c)
    ensures Resolved(before + [c], protected, selected)
  {
    if Clear(c, protected) {
      var k :| 0 <= k < |selected| && Overlaps(c, selected[k]);
      assert selected[k] in selected;
    }
    assert Excused(c, protected, selected);
  }

  lemma KeepClear(before: seq<Candidate>, c: Candidate, protected: seq<Found>, selected: seq<Candidate>)
    requires Resolved(before, protected, selected) && !Blocked(c, protected, selected)
    requires NonEmpty(selected) && c.start < c.end && forall s :: s in selected ==> Precedes(s, c)
    ensures Resolved(before + [c], protected, selected + [c])
  {
    forall k | 0 <= k < |selected| ensures selected[k].end <= c.start {
      assert selected[k] in selected;
      assert !Overlaps(c, selected[k]);
    }
    forall d | d in before + [c] ensures d in selected + [c] || Excused(d, protected, selected + [c]) {
      if d != c && d !in selected { assert Excused(d, protected, selected); }
    }
  }

  lemma {:induction false} GreedyResolves(ordered: seq<Candidate>, protected: seq<Found>)
    requires NonEmpty(ordered) && SortedBy(ordered, Precedes)
    ensures Resolved(ordered, protected, Greedy(ordered, protected))
    ensures NonEmpty(Greedy(ordered, protected))
  {
    if ordered != [] {
      var n := |ordered| - 1;
      var before, c := ordered[..n], ordered[n];
      GreedyResolves(before, protected);
      var selected := Greedy(before, protected);
      assert ordered == before + [c];
      forall s | s in selected ensures Precedes(s, c) { assert s in before; }
      if Blocked(c, protected, selected) {
        DropBlocked(before, c, protected, selected);
      } else {
        KeepClear(before, c, protected, selected);
      }
    }
  }

  lemma PrecedesIsOrder()
    ensures TotalPreorder(Precedes)
  {
  }

  predicate StartsFirst(a: Candidate, b: Candidate) { a.start <= b.start }

  /** The result is in text order, pairwise disjoint, clear of every protected span, made of candidates only, and
      maximal; of two overlapping candidates the one that precedes is the one that can be kept. */
  method DeduplicateAndResolve(candidates: seq<Candidate>, protected: seq<Found>) returns (result: seq<Candidate>)
    requires NonEmpty(candidates)
    ensures Resolved(candidates, protected, result) && NonEmpty(result)
  {
    PrecedesIsOrder();
    SortSorts(candidates, Precedes);
    var ordered := Sort(candidates, Precedes);
    forall k | 0 <= k < |ordered| ensures ordered[k].start < ordered[k].end { assert ordered[k] in ordered; }
    var selected: seq<Candidate> := [];
    var i := 0;
    while i < |ordered|
      invariant 0 <= i <= |ordered|
      invariant selected == Greedy(ordered[..i], protected)
    {
      assert ordered[..i + 1][..i] == ordered[..i];
      if !Blocked(ordered[i], protected, selected) {
        selected := selected + [ordered[i]];
      }
      i := i + 1;
    }
    assert ordered[..i] == ordered;
    GreedyResolves(ordered, protected);
    SortedIsFixed(selected, StartsFirst);
    result := Sort(selected, StartsFirst);
  }

  // ---------- which of two overlapping candidates is kept ----------

  /** People, addresses and birth dates before phones and business numbers, these before national identity numbers,
      these before e-mail addresses, these before account numbers, and these before everything else. */
  predicate Outranks(a: EntityType, b: EntityType) {
    || (a in {Person, Address, DateOfBirth} && b !in {Person, Address, DateOfBirth})
    || (a in {Phone, BusinessRegistration} && b !in {Person, Address, DateOfBirth, Phone, BusinessRegistration})
    || (a == NationalId && (b in {Email, AccountNumber} || Unranked(b)))
    || (a == Email && (b == AccountNumber || Unranked(b)))
    || (a == AccountNumber && Unranked(b))
  }

  predicate Unranked(t: EntityType) {
    t in {PersonName, UrlQuery, ForeignerRegistration, CorporateRegistration, CardNumber, PostalCode, IpAddress,
          Passport, DriverLicense}
  }

  /** `a` starts further left, or starts there too and is longer, or is the same span of a type of higher rank, or of
      equal rank and was detected earlier. */
  predicate Beats(a: Candidate, b: Candidate) {
    || a.start < b.start
    || (a.start == b.start && a.end > b.end)
    || (a.start == b.start && a.end == b.end && Outranks(a.entityType, b.entityType))
    || (a.start == b.start && a.end == b.end && !Outranks(a.entityType, b.entityType)
        && !Outranks(b.entityType, a.entityType) && a.detectionOrder <= b.detectionOrder)
  }

  lemma RankIsPriority(a: EntityType, b: EntityType)
    ensures Outranks(a, b) <==> Priority(a) > Priority(b)
  {
  }

  lemma PrecedesIsBeats(a: Candidate, b: Candidate)
    ensures Precedes(a, b) <==> Beats(a, b)
  {
    RankIsPriority(a.entityType, b.entityType);
    RankIsPriority(b.entityType, a.entityType);
  }

  /** A candidate clear of the protected spans is masked if it beats every other candidate that overlaps it, and one
      that is not masked overlaps a masked one that beats it. */
  lemma KeptIfBest(candidates: seq<Candidate>, protected: seq<Found>, result: seq<Candidate>, c: Candidate)
    requires Resolved(candidates, protected, result) && c in candidates && Clear(c, protected)
    ensures (forall o :: o in candidates && o != c && Overlaps(c, o) ==> !Beats(o, c)) ==> c in result
    ensures c !in result ==> exists s :: s in result && Overlaps(c, s) && Beats(s, c)
  {
    if c !in result {
      var s :| s in result && Overlaps(c, s) && Precedes(s, c);
      PrecedesIsBeats(s, c);
    }
  }

  /** The longest of several candidates that start at one place, if nothing to its left reaches it, is masked; and of
      equal spans the one of the highest rank. */
  lemma LeftmostLongestKept(candidates: seq<Candidate>, protected: seq<Found>, result: seq<Candidate>, c: Candidate)
    requires Resolved(candidates, protected, result) && c in candidates && Clear(c, protected)
    requires forall o :: o in candidates && o != c && Overlaps(c, o) ==>
      || c.start < o.start
      || (c.start == o.start && o.end < c.end)
      || (c.start == o.start && c.end == o.end && Outranks(c.entityType, o.entityType))
    ensures c in result
  {
    forall o | o in candidates && o != c && Overlaps(c, o) ensures !Beats(o, c) {
      RankIsPriority(c.entityType, o.entityType);
      RankIsPriority(o.entityType, c.entityType);
    }
    KeptIfBest(candidates, protected, result, c);
  }

  /** A card number is masked whole although its first three groups look like an account number. */
  lemma CardBeatsAccount(result: seq<Candidate>)
    requires Resolved([Candidate(0, 19, CardNumber, 0), Candidate(0, 14, AccountNumber, 1)], [], result)
    ensures result == [Candidate(0, 19, CardNumber, 0)]
  {
    var card, account := Candidate(0, 19, CardNumber, 0), Candidate(0, 14, AccountNumber, 1);
    LeftmostLongestKept([card, account], [], result, card);
    OnlyOne(result, card, account);
  }

  /** "010-1234-5678" is a phone number, not an account number. */
  lemma PhoneBeatsAccount(result: seq<Candidate>)
    requires Resolved([Candidate(0, 13, AccountNumber, 0), Candidate(0, 13, Phone, 1)], [], result)
    ensures result == [Candidate(0, 13, Phone, 1)]
  {
    var account, phone := Candidate(0, 13, AccountNumber, 0), Candidate(0, 13, Phone, 1);
    LeftmostLongestKept([account, phone], [], result, phone);
    OnlyOne(result, phone, account);
  }

  lemma OnlyOne(result: seq<Candidate>, kept: Candidate, other: Candidate)
    requires Apart(result) && kept in result && forall c :: c in result ==> c == kept || c == other
    requires Overlaps(kept, other) && kept.start < kept.end
    ensures result == [kept]
  {
    if |result| > 1 { MembersMeet(result, kept, other, 1, 0); }
  }

  lemma MembersMeet(result: seq<Candidate>, kept: Candidate, other: Candidate, i: nat, j: nat)
    requires i < |result| && j < |result| && forall c :: c in result ==> c == kept || c == other
    requires Overlaps(kept, other)
    ensures result[i].start < result[j].end && result[i] in {kept, other}
  {
    assert result[i] in result && result[j] in result;
  }

  /** The promise determines the result: with detection orders all different, no other selection meets it. */
  lemma ResolutionIsUnique(candidates: seq<Candidate>, protected: seq<Found>, a: seq<Candidate>, b: seq<Candidate>)
    requires NonEmpty(candidates)
    requires forall x, y :: x in candidates && y in candidates && x.detectionOrder == y.detectionOrder ==> x == y
    requires Resolved(candidates, protected, a) && Resolved(candidates, protected, b)
    ensures forall c :: c in a <==> c in b
  {
    PrecedesIsOrder();
    SortSorts(candidates, Precedes);
    var ordered := Sort(candidates, Precedes);
    forall k | 0 <= k < |ordered| ensures ordered[k].start < ordered[k].end { assert ordered[k] in ordered; }
    assert Contest(ordered, protected, a, b);
    forall c ensures c in a <==> c in b {
      if c in a || c in b {
        var k :| 0 <= k < |ordered| && ordered[k] == c;
        SameAt(ordered, protected, a, b, k);
      }
    }
  }

  /** Two selections from the same sorted candidates, no two of which precede each other. */
  ghost predicate Contest(ordered: seq<Candidate>, protected: seq<Found>, a: seq<Candidate>, b: seq<Candidate>) {
    && NonEmpty(ordered) && SortedBy(ordered, Precedes)
    && Strict(ordered) && Resolved(ordered, protected, a) && Resolved(ordered, protected, b)
  }

  predicate Strict(ordered: seq<Candidate>) {
    forall x, y :: x in ordered && y in ordered && Precedes(x, y) && Precedes(y, x) ==> x == y
  }

  predicate Same(ordered: seq<Candidate>, a: seq<Candidate>, b: seq<Candidate>, k: nat)
    requires k < |ordered|
  {
    ordered[k] in a <==> ordered[k] in b
  }

  lemma SameNext(ordered: seq<Candidate>, protected: seq<Found>, a: seq<Candidate>, b: seq<Candidate>, n: nat)
    requires Contest(ordered, protected, a, b) && n < |ordered|
    requires forall k {:trigger Same(ordered, a, b, k)} :: 0 <= k < n ==> Same(ordered, a, b, k)
    ensures Same(ordered, a, b, n)
  {
    forall k | 0 <= k < n ensures ordered[k] in a <==> ordered[k] in b { assert Same(ordered, a, b, k); }
    ExcludedByEarlier(ordered, protected, a, b, n);
    ExcludedByEarlier(ordered, protected, b, a, n);
  }

  lemma {:induction false} SameAt(
    ordered: seq<Candidate>, protected: seq<Found>, a: seq<Candidate>, b: seq<Candidate>, n: nat)
    requires Contest(ordered, protected, a, b) && n < |ordered|
    ensures Same(ordered, a, b, n)
  {
    forall k | 0 <= k < n ensures Same(ordered, a, b, k) { SameAt(ordered, protected, a, b, k); }
    SameNext(ordered, protected, a, b, n);
  }

  /** A selected candidate that overlaps one of the other selection, and precedes it, is that candidate. */
  lemma {:induction false} NoRival(ordered: seq<Candidate>, a: seq<Candidate>, b: seq<Candidate>, n: nat, s: Candidate)
    requires NonEmpty(ordered) && SortedBy(ordered, Precedes) && n < |ordered| && Apart(a)
    requires forall x, y :: x in ordered && y in ordered && Precedes(x, y) && Precedes(y, x) ==> x == y
    requires forall k :: 0 <= k < n ==> (ordered[k] in a <==> ordered[k] in b)
    requires ordered[n] in a && s in b && s in ordered && Overlaps(ordered[n], s) && Precedes(s, ordered[n])
    ensures s == ordered[n]
  {
    var c := ordered[n];
    var k :| 0 <= k < |ordered| && ordered[k] == s;
    if k < n {
      var i :| 0 <= i < |a| && a[i] == s;
      var j :| 0 <= j < |a| && a[j] == c;
      assert i == j;
    } else if k > n {
      assert Precedes(c, s);
    }
  }

  lemma {:induction false} ExcludedByEarlier(
    ordered: seq<Candidate>, protected: seq<Found>, a: seq<Candidate>, b: seq<Candidate>, n: nat)
    requires Contest(ordered, protected, a, b) && n < |ordered|
    requires forall k :: 0 <= k < n ==> (ordered[k] in a <==> ordered[k] in b)
    ensures ordered[n] in a ==> ordered[n] in b
  {
    var c := ordered[n];
    if c in a {
      forall s | s in b && Overlaps(c, s) && Precedes(s, c) ensures s == c { NoRival(ordered, a, b, n, s); }
      assert c in b || Excused(c, protected, b);
    }
  }

  /** A selection in text order is determined by its members. */
  lemma {:induction false} SameSelection(a: seq<Candidate>, b: seq<Candidate>)
    requires Apart(a) && Apart(b) && NonEmpty(a) && NonEmpty(b) && forall c :: c in a <==> c in b
    ensures a == b
  {
    if a == [] {
      HeadIsMember(b);
    } else {
      assert a[0] in b;
      var j :| 0 <= j < |b| && b[j] == a[0];
      assert b[0] in a;
      var i :| 0 <= i < |a| && a[i] == b[0];
      assert a[0] == b[0];
      forall c ensures c in a[1..] <==> c in b[1..] { InRest(a, c); InRest(b, c); }
      SameSelection(a[1..], b[1..]);
    }
  }

  lemma HeadIsMember<T>(s: seq<T>)
    ensures s != [] ==> s[0] in s
  {
  }

  lemma InRest(a: seq<Candidate>, c: Candidate)
    requires a != [] && Apart(a) && NonEmpty(a)
    ensures c in a[1..] <==> c in a && c != a[0]
  {
    if c in a && c != a[0] {
      var k :| 0 <= k < |a| && a[k] == c;
      assert a[1..][k - 1] == c;
    }
    if c in a[1..] {
      var k :| 0 <= k < |a[1..]| && a[1..][k] == c;
      assert a[k + 1] == c && a[0].end <= a[k + 1].start;
    }
  }
}
