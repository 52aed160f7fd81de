/** Where one string occurs in another. */
module Substrings {
  import opened Options

  predicate OccursAt(s: string, part: string, k: nat) { k + |part| <= |s| && s[k..k + |part|] == part }

  /** `s.find(part, from)`: the first occurrence at or after `from`; None stands for -1. */
  function Find(s: string, part: string, from: nat): (r: Option<nat>)
    ensures r.Some? ==> from <= r.value && r.value + |part| <= |s|
    decreases |s| - from
  {
    if from + |part| > |s| then None
    else if OccursAt(s, part, from) then Some(from)
    else Find(s, part, from + 1)
  }

  lemma {:induction false} FindOccurs(s: string, part: string, from: nat)
    requires Find(s, part, from).Some?
    ensures OccursAt(s, part, Find(s, part, from).value)
    decreases |s| - from
  {
    if !OccursAt(s, part, from) { FindOccurs(s, part, from + 1); }
  }

  /** Nothing before what is found, and nothing at all if nothing is found. */
  lemma {:induction false} FindIsFirst(s: string, part: string, from: nat, k: nat)
    requires from <= k && OccursAt(s, part, k)
    ensures Find(s, part, from).Some? && Find(s, part, from).value <= k
    decreases |s| - from
  {
    if !OccursAt(s, part, from) { FindIsFirst(s, part, from + 1, k); }
  }
}
