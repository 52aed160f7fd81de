/**
 Ordinals for values: the same value of the same type keeps its ordinal, a new one gets the next.
*/
module TokenAllocation {
  import opened MaskTokens

  datatype Value<T> = Value(entityType: EntityType, content: T)

  /** The largest ordinal of a type already present. */
  function Highest(found: seq<Found>, t: EntityType): nat {
    if found == [] then 0 else
    var rest := Highest(found[..|found| - 1], t);
    var last := found[|found| - 1];
    if last.entityType == t && last.ordinal > rest then last.ordinal else rest
  }

  lemma {:induction false} HighestIsBound(found: seq<Found>, f: Found)
    requires f in found
    ensures f.ordinal <= Highest(found, f.entityType)
  {
    var n := |found| - 1;
    if f != found[n] {
      assert found == found[..n] + [found[n]];
      HighestIsBound(found[..n], f);
    }
  }

  /** The position where the value at `i` occurs first. */
  function FirstAt<T(==)>(values: seq<Value<T>>, i: nat): (j: nat)
    requires i < |values|
    ensures j <= i && values[j] == values[i]
    ensures forall k :: 0 <= k < j ==> values[k] != values[i]
  {
    FirstFrom(values, i, 0)
  }

  function FirstFrom<T(==)>(values: seq<Value<T>>, i: nat, from: nat): (j: nat)
    requires from <= i < |values| && forall k :: 0 <= k < from ==> values[k] != values[i]
    ensures j <= i && values[j] == values[i]
    ensures forall k :: 0 <= k < j ==> values[k] != values[i]
    decreases i - from
  {
    if values[from] == values[i] then from else FirstFrom(values, i, from + 1)
  }

  /** How many different values of a type occur among the first `n`. */
  function Distinct<T(==)>(values: seq<Value<T>>, t: EntityType, n: nat): nat
    requires n <= |values|
  {
    if n == 0 then 0 else
    Distinct(values, t, n - 1) + if values[n - 1].entityType == t && FirstAt(values, n - 1) == n - 1 then 1 else 0
  }

  /** The ordinal of the value at `i`: one above everything present, then one more per new value of its type. */
  function Number<T(==)>(values: seq<Value<T>>, existing: seq<Found>, i: nat): nat
    requires i < |values|
  {
    var t := values[i].entityType;
    Highest(existing, t) + 1 + Distinct(values, t, FirstAt(values, i))
  }

  lemma {:induction false} DistinctGrows<T>(values: seq<Value<T>>, t: EntityType, m: nat, n: nat)
    requires m <= n <= |values|
    ensures Distinct(values, t, m) <= Distinct(values, t, n)
    ensures m < n && values[m].entityType == t && FirstAt(values, m) == m ==>
      Distinct(values, t, m) < Distinct(values, t, n)
  {
    if m < n { DistinctGrows(values, t, m, n - 1); }
  }

  /** Equal type and ordinal mean equal type and content, and the other way round. */
  lemma NumbersAreInjective<T>(values: seq<Value<T>>, existing: seq<Found>, i: nat, j: nat)
    requires i < |values| && j < |values| && values[i].entityType == values[j].entityType
    ensures Number(values, existing, i) == Number(values, existing, j) <==> values[i] == values[j]
  {
    var a, b := FirstAt(values, i), FirstAt(values, j);
    if values[i] == values[j] {
      assert a == b;
    } else {
      FirstIsFirst(values, i);
      FirstIsFirst(values, j);
      if a < b {
        DistinctGrows(values, values[i].entityType, a, b);
      } else {
        DistinctGrows(values, values[i].entityType, b, a);
      }
    }
  }

  lemma FirstIsFirst<T>(values: seq<Value<T>>, i: nat)
    requires i < |values|
    ensures FirstAt(values, FirstAt(values, i)) == FirstAt(values, i)
  {
  }

  lemma NumberInBlock<T>(values: seq<Value<T>>, existing: seq<Found>, i: nat, n: nat)
    requires i < n <= |values|
    ensures var t := values[i].entityType;
      Highest(existing, t) < Number(values, existing, i) <= Highest(existing, t) + Distinct(values, t, n)
  {
    FirstIsFirst(values, i);
    DistinctGrows(values, values[i].entityType, FirstAt(values, i), n);
  }

  lemma {:induction false} NumberIsUsed<T>(
    values: seq<Value<T>>, existing: seq<Found>, t: EntityType, n: nat, m: nat)
    returns (i: nat)
    requires n <= |values| && Highest(existing, t) < m <= Highest(existing, t) + Distinct(values, t, n)
    ensures i < n && values[i].entityType == t && Number(values, existing, i) == m
  {
    var last := n - 1;
    if m <= Highest(existing, t) + Distinct(values, t, last) {
      i := NumberIsUsed(values, existing, t, last, m);
    } else {
      i := last;
    }
  }

  /** The new ordinals of a type are exactly the consecutive block above the ones present. */
  lemma NumbersAreConsecutive<T>(values: seq<Value<T>>, existing: seq<Found>, t: EntityType, m: nat)
    ensures Highest(existing, t) < m <= Highest(existing, t) + Distinct(values, t, |values|)
      <==> exists i :: 0 <= i < |values| && values[i].entityType == t && Number(values, existing, i) == m
  {
    if Highest(existing, t) < m <= Highest(existing, t) + Distinct(values, t, |values|) {
      var _ := NumberIsUsed(values, existing, t, |values|, m);
    }
    forall i | 0 <= i < |values| && values[i].entityType == t && Number(values, existing, i) == m
      ensures Highest(existing, t) < m <= Highest(existing, t) + Distinct(values, t, |values|)
    {
      NumberInBlock(values, existing, i, |values|);
    }
  }


  /** The counters after the first `i` values. */
  ghost predicate NextIs<T>(values: seq<Value<T>>, existing: seq<Found>, i: nat, next: map<EntityType, nat>)
    requires i <= |values|
  {
    forall t :: t in next && next[t] == Highest(existing, t) + 1 + Distinct(values, t, i)
  }

  /** The ordinals handed out after the first `i` values. */
  ghost predicate NumbersAre<T>(values: seq<Value<T>>, existing: seq<Found>, i: nat, numbers: map<Value<T>, nat>)
    requires i <= |values|
  {
    && numbers.Keys == (set k | 0 <= k < i :: values[k])
    && (forall k {:trigger Number(values, existing, k)} ::
          0 <= k < i ==> values[k] in numbers && numbers[values[k]] == Number(values, existing, k))
  }

  lemma DistinctNext<T>(values: seq<Value<T>>, t: EntityType, i: nat)
    requires i < |values|
    ensures Distinct(values, t, i + 1)
      == Distinct(values, t, i) + if values[i].entityType == t && FirstAt(values, i) == i then 1 else 0
  {
  }

  lemma NextSame<T>(values: seq<Value<T>>, existing: seq<Found>, i: nat, next: map<EntityType, nat>)
    requires i < |values| && NextIs(values, existing, i, next) && FirstAt(values, i) < i
    ensures NextIs(values, existing, i + 1, next)
  {
    forall t ensures t in next && next[t] == Highest(existing, t) + 1 + Distinct(values, t, i + 1) {
      DistinctNext(values, t, i);
    }
  }

  lemma NextBumped<T>(values: seq<Value<T>>, existing: seq<Found>, i: nat, next: map<EntityType, nat>)
    requires i < |values| && NextIs(values, existing, i, next) && FirstAt(values, i) == i
    ensures var t := values[i].entityType;
      && t in next && next[t] == Number(values, existing, i)
      && NextIs(values, existing, i + 1, next[t := next[t] + 1])
  {
    forall t ensures t in next && next[t] == Highest(existing, t) + 1 + Distinct(values, t, i) {}
    forall t ensures Distinct(values, t, i + 1) == Distinct(values, t, i) + if values[i].entityType == t then 1 else 0 {
      DistinctNext(values, t, i);
    }
  }

  lemma FirstSeen<T>(values: seq<Value<T>>, i: nat)
    requires i < |values|
    ensures FirstAt(values, i) < i <==> values[i] in values[..i]
  {
    var first := FirstAt(values, i);
    if first < i { assert values[..i][first] == values[first]; }
  }

  lemma NumbersSame<T>(values: seq<Value<T>>, existing: seq<Found>, i: nat, numbers: map<Value<T>, nat>)
    requires i < |values| && NumbersAre(values, existing, i, numbers) && values[i] in numbers
    ensures FirstAt(values, i) < i && numbers[values[i]] == Number(values, existing, i)
    ensures NumbersAre(values, existing, i + 1, numbers)
  {
    FirstSeen(values, i);
    var first := FirstAt(values, i);
    NumbersAreInjective(values, existing, first, i);
    assert values[..i + 1] == values[..i] + [values[i]];
  }

  lemma NumbersExtended<T>(values: seq<Value<T>>, existing: seq<Found>, i: nat, numbers: map<Value<T>, nat>)
    requires i < |values| && NumbersAre(values, existing, i, numbers) && values[i] !in numbers
    ensures FirstAt(values, i) == i
    ensures NumbersAre(values, existing, i + 1, numbers[values[i] := Number(values, existing, i)])
  {
    FirstSeen(values, i);
    assert values[..i + 1] == values[..i] + [values[i]];
    forall k | 0 <= k < i ensures values[k] != values[i] { assert values[..i][k] == values[k]; }
  }
}
