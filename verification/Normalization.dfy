/** Line-ending normalisation; every stage normalises again, which changes nothing. */
module Normalization {
  import opened Options

  const BOM := '\U{FEFF}'

  function CrLfToLf(s: string): string {
    if s == "" then ""
    else if |s| >= 2 && s[0] == '\r' && s[1] == '\n' then "\n" + CrLfToLf(s[2..])
    else [s[0]] + CrLfToLf(s[1..])
  }

  function CrToLf(s: string): (r: string)
    ensures |r| == |s|
  {
    if s == "" then "" else [if s[0] == '\r' then '\n' else s[0]] + CrToLf(s[1..])
  }

  /** None stands for the ValueError raised on a byte order mark. */
  function Normalize(text: string): Option<string> {
    if text != "" && text[0] == BOM then None else Some(CrToLf(CrLfToLf(text)))
  }

  predicate NoCr(s: string) { forall i :: 0 <= i < |s| ==> s[i] != '\r' }

  lemma {:induction false} CrToLfRemovesCr(s: string)
    ensures NoCr(CrToLf(s))
  {
    if s != "" { CrToLfRemovesCr(s[1..]); }
  }

  lemma {:induction false} NoCrIsFixed(s: string)
    requires NoCr(s)
    ensures CrLfToLf(s) == s && CrToLf(s) == s
  {
    if s != "" {
      NoCrIsFixed(s[1..]);
      assert s == [s[0]] + s[1..];
    }
  }

  /** A normalised text is accepted and left alone by the next normalisation. */
  lemma NormalizeIdempotent(text: string)
    ensures var n := Normalize(text); n.Some? ==> Normalize(n.value) == n && NoCr(n.value)
  {
    var n := Normalize(text);
    if n.Some? {
      CrToLfRemovesCr(CrLfToLf(text));
      NoCrIsFixed(n.value);
    }
  }

  // ---------- what normalising does ----------

  /** A carriage return that the line feed after it makes superfluous. */
  predicate Swallowed(text: string, i: nat) {
    i + 1 < |text| && text[i] == '\r' && text[i + 1] == '\n'
  }

  function LineFeedFor(c: char): char { if c == '\r' then '\n' else c }

  /** The places from `i` on that are not swallowed, in order. */
  function KeptFrom(text: string, i: nat): seq<nat>
    requires i <= |text|
    decreases |text| - i
  {
    if i == |text| then [] else (if Swallowed(text, i) then [] else [i]) + KeptFrom(text, i + 1)
  }

  lemma {:induction false} KeptFromHas(text: string, i: nat, p: nat)
    requires i <= |text|
    ensures p in KeptFrom(text, i) <==> i <= p < |text| && !Swallowed(text, p)
    decreases |text| - i
  {
    if i < |text| { KeptFromHas(text, i + 1, p); }
  }

  predicate Ascends(kept: seq<nat>) { forall a, b :: 0 <= a < b < |kept| ==> kept[a] < kept[b] }

  lemma FrontAscends(i: nat, rest: seq<nat>)
    requires Ascends(rest) && forall j :: 0 <= j < |rest| ==> i < rest[j]
    ensures Ascends([i] + rest)
  {
  }

  lemma {:induction false} KeptFromAscends(text: string, i: nat)
    requires i <= |text|
    ensures Ascends(KeptFrom(text, i))
    decreases |text| - i
  {
    if i < |text| {
      KeptFromAscends(text, i + 1);
      var rest := KeptFrom(text, i + 1);
      forall j | 0 <= j < |rest| ensures i < rest[j] {
        assert rest[j] in rest;
        KeptFromHas(text, i + 1, rest[j]);
      }
      assert [] + rest == rest;
      FrontAscends(i, rest);
    }
  }

  lemma KeptFromIs(text: string, i: nat)
    requires i <= |text|
    ensures var kept := KeptFrom(text, i);
      && (forall p: nat :: p in kept <==> i <= p < |text| && !Swallowed(text, p))
      && Ascends(kept)
  {
    forall p: nat ensures p in KeptFrom(text, i) <==> i <= p < |text| && !Swallowed(text, p) {
      KeptFromHas(text, i, p);
    }
    KeptFromAscends(text, i);
  }

  predicate Within(text: string, kept: seq<nat>) { forall j :: 0 <= j < |kept| ==> kept[j] < |text| }

  /** What stands at the kept places, every line break as a line feed. */
  function Chars(text: string, kept: seq<nat>): (out: string)
    requires Within(text, kept)
    ensures |out| == |kept| && forall j :: 0 <= j < |out| ==> out[j] == LineFeedFor(text[kept[j]])
  {
    seq(|kept|, j requires 0 <= j < |kept| => LineFeedFor(text[kept[j]]))
  }

  lemma KeptFromWithin(text: string, i: nat)
    requires i <= |text|
    ensures Within(text, KeptFrom(text, i))
  {
    KeptFromIs(text, i);
    var kept := KeptFrom(text, i);
    forall j | 0 <= j < |kept| ensures kept[j] < |text| { assert kept[j] in kept; }
  }

  lemma CharsGrow(text: string, p: nat, kept: seq<nat>)
    requires p < |text| && Within(text, kept)
    ensures Within(text, [p] + kept) && Chars(text, [p] + kept) == [LineFeedFor(text[p])] + Chars(text, kept)
  {
  }

  lemma {:induction false} RestNormalised(text: string, i: nat)
    requires i <= |text|
    ensures Within(text, KeptFrom(text, i)) && CrToLf(CrLfToLf(text[i..])) == Chars(text, KeptFrom(text, i))
    decreases |text| - i
  {
    KeptFromWithin(text, i);
    if i < |text| {
      var next := if Swallowed(text, i) then i + 2 else i + 1;
      RestNormalised(text, next);
      TurnFirst(text[i..], next - i);
      assert text[i..][next - i..] == text[next..];
      assert KeptFrom(text, i) == [next - 1] + KeptFrom(text, next);
      CharsGrow(text, next - 1, KeptFrom(text, next));
    }
  }

  lemma TurnFirst(s: string, width: nat)
    requires s != "" && width == if Swallowed(s, 0) then 2 else 1
    ensures width <= |s|
    ensures CrToLf(CrLfToLf(s)) == [LineFeedFor(s[width - 1])] + CrToLf(CrLfToLf(s[width..]))
  {
    var rest := CrLfToLf(s[width..]);
    var first := [s[width - 1]];
    assert CrLfToLf(s) == first + rest;
    assert (first + rest)[1..] == rest;
  }

  /** Every CRLF, lone carriage return and line feed becomes exactly one line feed, and all other characters stay, in
      their order: `kept` lists every place but the carriage returns before a line feed. */
  lemma LineBreaksBecomeLineFeeds(text: string) returns (kept: seq<nat>)
    requires Normalize(text).Some?
    ensures Ascends(kept) && forall p: nat :: p in kept <==> p < |text| && !Swallowed(text, p)
    ensures Within(text, kept) && |Normalize(text).value| == |kept|
    ensures forall j :: 0 <= j < |kept| ==> Normalize(text).value[j] == LineFeedFor(text[kept[j]])
  {
    kept := KeptFrom(text, 0);
    KeptFromIs(text, 0);
    RestNormalised(text, 0);
    assert text[0..] == text;
  }

  /** Only a text that begins with a byte order mark is refused. */
  lemma RefusedIff(text: string)
    ensures Normalize(text).None? <==> |text| > 0 && text[0] == '\U{FEFF}'
  {
  }
}
