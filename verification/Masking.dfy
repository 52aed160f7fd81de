/** Tokens for the selected spans, and the text with the spans replaced. */
module Masking {
  import opened Options
  import opened MaskTokens
  import opened SpanResolution
  import opened TokenAllocation
  import opened Sorting
  import opened Substrings
  import opened Normalization

  datatype Entity = Entity(start: nat, end: nat, entityType: EntityType, token: string, repeated: bool)

  type TextValue = Value<string>

  function TokenAt(values: seq<TextValue>, existing: seq<Found>, i: nat): string
    requires i < |values|
  {
    Token(values[i].entityType, Number(values, existing, i))
  }

  /** Equal tokens mean equal type and equal text, and the other way round. */
  lemma TokensAreBijective(values: seq<TextValue>, existing: seq<Found>, i: nat, j: nat)
    requires i < |values| && j < |values|
    ensures TokenAt(values, existing, i) == TokenAt(values, existing, j) <==> values[i] == values[j]
  {
    TokenRoundTrip(values[i].entityType, Number(values, existing, i));
    TokenRoundTrip(values[j].entityType, Number(values, existing, j));
    if values[i].entityType == values[j].entityType {
      NumbersAreInjective(values, existing, i, j);
    }
  }

  predicate InText(cs: seq<Candidate>, text: string) {
    forall k :: 0 <= k < |cs| ==> cs[k].start <= cs[k].end <= |text|
  }

  function Values(text: string, cs: seq<Candidate>): (vs: seq<TextValue>)
    requires InText(cs, text)
    ensures |vs| == |cs|
    ensures forall k :: 0 <= k < |cs| ==> vs[k] == Value(cs[k].entityType, text[cs[k].start..cs[k].end])
  {
    seq(|cs|, k requires 0 <= k < |cs| => Value(cs[k].entityType, text[cs[k].start..cs[k].end]))
  }

  function EntityAt(c: Candidate, values: seq<TextValue>, existing: seq<Found>, k: nat): Entity
    requires k < |values|
  {
    Entity(c.start, c.end, c.entityType, TokenAt(values, existing, k), FirstAt(values, k) < k)
  }

  /** One entity per candidate, in order; `repeated` marks every occurrence of a value after the first. */
  function Entities(cs: seq<Candidate>, values: seq<TextValue>, existing: seq<Found>, n: nat): (entities: seq<Entity>)
    requires n <= |cs| == |values|
    ensures |entities| == n
  {
    seq(n, k requires 0 <= k < n => EntityAt(cs[k], values, existing, k))
  }

  lemma EntityIs(cs: seq<Candidate>, values: seq<TextValue>, existing: seq<Found>, n: nat, k: nat)
    requires k < n <= |cs| == |values|
    ensures Entities(cs, values, existing, n)[k] == EntityAt(cs[k], values, existing, k)
  {
  }

  lemma EntitiesGrow(cs: seq<Candidate>, values: seq<TextValue>, existing: seq<Found>, n: nat)
    requires n < |cs| == |values|
    ensures Entities(cs, values, existing, n + 1)
      == Entities(cs, values, existing, n) + [EntityAt(cs[n], values, existing, n)]
  {
    var more := Entities(cs, values, existing, n) + [EntityAt(cs[n], values, existing, n)];
    forall k | 0 <= k < n + 1 ensures Entities(cs, values, existing, n + 1)[k] == more[k] {
      EntityIs(cs, values, existing, n + 1, k);
      if k < n { EntityIs(cs, values, existing, n, k); }
    }
  }

  /** The allocator's two dictionaries after the first `i` values; tokens are printed numbers. */
  ghost predicate Allocating(values: seq<TextValue>, existing: seq<Found>, i: nat, next: map<EntityType, nat>,
                             numbers: map<TextValue, nat>, tokenByValue: map<TextValue, string>)
    requires i <= |values|
  {
    && NextIs(values, existing, i, next) && NumbersAre(values, existing, i, numbers)
    && Printed(numbers, tokenByValue)
  }

  predicate Printed(numbers: map<TextValue, nat>, tokenByValue: map<TextValue, string>) {
    tokenByValue == map v | v in numbers :: Token(v.entityType, numbers[v])
  }

  lemma AllocatedAgain(values: seq<TextValue>, existing: seq<Found>, i: nat, next: map<EntityType, nat>,
                       numbers: map<TextValue, nat>, tokenByValue: map<TextValue, string>)
    requires i < |values| && Allocating(values, existing, i, next, numbers, tokenByValue) && values[i] in tokenByValue
    ensures Allocating(values, existing, i + 1, next, numbers, tokenByValue)
    ensures tokenByValue[values[i]] == TokenAt(values, existing, i) && FirstAt(values, i) < i
  {
    NumbersSame(values, existing, i, numbers);
    NextSame(values, existing, i, next);
  }

  lemma AllocatedNew(values: seq<TextValue>, existing: seq<Found>, i: nat, next: map<EntityType, nat>,
                     numbers: map<TextValue, nat>, tokenByValue: map<TextValue, string>)
    requires i < |values| && Allocating(values, existing, i, next, numbers, tokenByValue) && values[i] !in tokenByValue
    ensures var t := values[i].entityType;
      && t in next && FirstAt(values, i) == i && Token(t, next[t]) == TokenAt(values, existing, i)
      && Allocating(values, existing, i + 1, next[t := next[t] + 1], numbers[values[i] := next[t]],
                    tokenByValue[values[i] := Token(t, next[t])])
  {
    NumbersExtended(values, existing, i, numbers);
    NextBumped(values, existing, i, next);
  }

  /** The allocator's dictionaries as the loop leaves them after `i` values. */
  datatype Allocator = Allocator(next: map<EntityType, nat>, tokenByValue: map<TextValue, string>)

  function Start(existing: seq<Found>): (a: Allocator)
    ensures forall t: EntityType :: t in a.next
  {
    Allocator(map t: EntityType | true :: Highest(existing, t) + 1, map[])
  }

  function Remember(a: Allocator, v: TextValue): Allocator
    requires v.entityType in a.next
  {
    if v in a.tokenByValue then a
    else Allocator(a.next[v.entityType := a.next[v.entityType] + 1],
                   a.tokenByValue[v := Token(v.entityType, a.next[v.entityType])])
  }

  function Allot(values: seq<TextValue>, existing: seq<Found>, i: nat): (a: Allocator)
    requires i <= |values|
    ensures forall t: EntityType :: t in a.next
  {
    if i == 0 then Start(existing) else Remember(Allot(values, existing, i - 1), values[i - 1])
  }

  lemma NothingAllotted(values: seq<TextValue>, existing: seq<Found>)
    ensures var a := Start(existing); Allocating(values, existing, 0, a.next, map[], a.tokenByValue)
  {
  }

  lemma {:induction false} AllotIs(values: seq<TextValue>, existing: seq<Found>, i: nat)
    returns (numbers: map<TextValue, nat>)
    requires i <= |values|
    ensures var a := Allot(values, existing, i); Allocating(values, existing, i, a.next, numbers, a.tokenByValue)
  {
    if i == 0 {
      numbers := map[];
      NothingAllotted(values, existing);
    } else {
      numbers := AllotIs(values, existing, i - 1);
      var a, r := Allot(values, existing, i - 1), Allot(values, existing, i);
      numbers := RememberIs(values, existing, i - 1, a, r, numbers);
    }
  }

  lemma RememberIs(
    values: seq<TextValue>, existing: seq<Found>, i: nat, a: Allocator, r: Allocator, numbers: map<TextValue, nat>)
    returns (numbers': map<TextValue, nat>)
    requires i < |values| && Allocating(values, existing, i, a.next, numbers, a.tokenByValue)
    requires values[i].entityType in a.next && r == Remember(a, values[i])
    ensures Allocating(values, existing, i + 1, r.next, numbers', r.tokenByValue)
  {
    numbers' := numbers;
    if values[i] in a.tokenByValue {
      AllocatedAgain(values, existing, i, a.next, numbers, a.tokenByValue);
    } else {
      AllocatedNew(values, existing, i, a.next, numbers, a.tokenByValue);
      numbers' := numbers[values[i] := a.next[values[i].entityType]];
    }
  }

  /** What one turn of the loop assigns is the closed form. */
  lemma AllotEntity(c: Candidate, values: seq<TextValue>, existing: seq<Found>, i: nat)
    requires i < |values|
    ensures var before, after := Allot(values, existing, i), Allot(values, existing, i + 1);
      && values[i] in after.tokenByValue
      && Entity(c.start, c.end, c.entityType, after.tokenByValue[values[i]], values[i] in before.tokenByValue)
         == EntityAt(c, values, existing, i)
  {
    var before := Allot(values, existing, i);
    var numbers := AllotIs(values, existing, i);
    if values[i] in before.tokenByValue {
      AllocatedAgain(values, existing, i, before.next, numbers, before.tokenByValue);
    } else {
      AllocatedNew(values, existing, i, before.next, numbers, before.tokenByValue);
    }
  }

  /** Whether the i-th entity's token can be printed. */
  predicate PrintableAt(values: seq<TextValue>, existing: seq<Found>, i: nat) {
    i < |values| ==> Printable(Number(values, existing, i))
  }

  /** The ordinal printed for a new value is its closed form, and a repeated value has been printed before. */
  lemma AllotNumber(values: seq<TextValue>, existing: seq<Found>, i: nat)
    requires i < |values|
    ensures var a, t := Allot(values, existing, i), values[i].entityType;
      && (values[i] !in a.tokenByValue ==> t in a.next && a.next[t] == Number(values, existing, i))
      && (values[i] in a.tokenByValue ==>
            exists k :: 0 <= k < i && Number(values, existing, k) == Number(values, existing, i))
  {
    var a := Allot(values, existing, i);
    var numbers := AllotIs(values, existing, i);
    if values[i] in a.tokenByValue {
      NumbersSame(values, existing, i, numbers);
      var first := FirstAt(values, i);
      NumbersAreInjective(values, existing, first, i);
      assert Number(values, existing, first) == Number(values, existing, i);
    } else {
      NumbersExtended(values, existing, i, numbers);
      NextBumped(values, existing, i, a.next);
    }
  }

  /** One turn of the loop; None when the ordinal is too long to be printed. */
  method AssignNext(
    c: Candidate, value: TextValue, before: Allocator, existing: seq<Found>, ghost values: seq<TextValue>, ghost i: nat)
    returns (r: Option<(Allocator, Entity)>)
    requires i < |values| && value == values[i] && before == Allot(values, existing, i)
    requires forall k :: 0 <= k < i ==> PrintableAt(values, existing, k)
    ensures r.Some? <==> PrintableAt(values, existing, i)
    ensures r.Some? ==> r.value == (Allot(values, existing, i + 1), EntityAt(c, values, existing, i))
  {
    AllotNumber(values, existing, i);
    var repeated := value in before.tokenByValue;
    if !repeated && !Printable(before.next[value.entityType]) {
      return None;
    }
    if repeated {
      ghost var k :| 0 <= k < i && Number(values, existing, k) == Number(values, existing, i);
      assert PrintableAt(values, existing, k);
    }
    var a := Remember(before, value);
    AllotEntity(c, values, existing, i);
    r := Some((a, Entity(c.start, c.end, c.entityType, a.tokenByValue[value], repeated)));
  }

  /** The first `n` entities and the allocator behind them, all of them printed. */
  ghost predicate Assigned(
    a: Allocator, entities: seq<Entity>, text: string, cs: seq<Candidate>, existing: seq<Found>, n: nat) {
    && InText(cs, text) && n <= |cs|
    && a == Allot(Values(text, cs), existing, n) && entities == Entities(cs, Values(text, cs), existing, n)
    && forall k :: 0 <= k < n ==> PrintableAt(Values(text, cs), existing, k)
  }

  method AssignAt(text: string, cs: seq<Candidate>, existing: seq<Found>, i: nat, before: Allocator, done: seq<Entity>)
    returns (r: Option<(Allocator, seq<Entity>)>)
    requires i < |cs| && Assigned(before, done, text, cs, existing, i)
    ensures r.Some? <==> PrintableAt(Values(text, cs), existing, i)
    ensures r.Some? ==> Assigned(r.value.0, r.value.1, text, cs, existing, i + 1)
  {
    var value := Value(cs[i].entityType, text[cs[i].start..cs[i].end]);
    var next := AssignNext(cs[i], value, before, existing, Values(text, cs), i);
    if next.None? {
      return None;
    }
    EntitiesGrow(cs, Values(text, cs), existing, i);
    r := Some((next.value.0, done + [next.value.1]));
  }

  /** Every ordinal the entities are given can be printed. */
  ghost predicate AllPrintable(text: string, cs: seq<Candidate>, existing: seq<Found>)
    requires InText(cs, text)
  {
    forall k :: PrintableAt(Values(text, cs), existing, k)
  }

  /** None stands for the error on an ordinal that is too long to be printed. */
  method AssignMaskTokens(text: string, cs: seq<Candidate>, existing: seq<Found>) returns (r: Option<seq<Entity>>)
    requires InText(cs, text)
    ensures r.Some? <==> AllPrintable(text, cs, existing)
    ensures r.Some? ==> r.value == Entities(cs, Values(text, cs), existing, |cs|)
  {
    var a := Start(existing);
    var entities: seq<Entity> := [];
    var i := 0;
    while i < |cs|
      invariant 0 <= i <= |cs| && Assigned(a, entities, text, cs, existing, i)
    {
      var next := AssignAt(text, cs, existing, i, a, entities);
      if next.None? {
        return None;
      }
      a, entities := next.value.0, next.value.1;
      i := i + 1;
    }
    r := Some(entities);
  }

  // ---------- rewriting the text ----------

  /** Spans in text order, apart, inside the text from `cursor` on. */
  predicate Ordered(entities: seq<Entity>, cursor: nat, n: nat) {
    if entities == [] then cursor <= n
    else cursor <= entities[0].start < entities[0].end <= n && Ordered(entities[1..], entities[0].end, n)
  }

  lemma {:induction false} OrderedBounds(entities: seq<Entity>, cursor: nat, n: nat)
    requires Ordered(entities, cursor, n)
    ensures cursor <= n
    decreases |entities|
  {
    if entities != [] { OrderedBounds(entities[1..], entities[0].end, n); }
  }

  /** The text from `cursor` on with every span replaced by its token. */
  function MaskFrom(text: string, cursor: nat, entities: seq<Entity>): string
    requires Ordered(entities, cursor, |text|)
    decreases |entities|
  {
    if entities == [] then text[cursor..]
    else text[cursor..entities[0].start] + entities[0].token + MaskFrom(text, entities[0].end, entities[1..])
  }

  predicate EntityStartsFirst(a: Entity, b: Entity) { a.start <= b.start }

  lemma {:induction false} OrderedIsSorted(entities: seq<Entity>, cursor: nat, n: nat)
    requires Ordered(entities, cursor, n)
    ensures forall k :: 0 <= k < |entities| ==> cursor <= entities[k].start
    ensures SortedBy(entities, EntityStartsFirst)
    decreases |entities|
  {
    if entities != [] {
      OrderedIsSorted(entities[1..], entities[0].end, n);
      assert entities == [entities[0]] + entities[1..];
    }
  }

  lemma {:induction false} MaskSplits(text: string, cursor: nat, entities: seq<Entity>, i: nat, parts: string)
    requires i < |entities| && Ordered(entities[i..], cursor, |text|)
    ensures Ordered(entities[i + 1..], entities[i].end, |text|)
    ensures cursor <= entities[i].start <= |text|
    ensures parts + MaskFrom(text, cursor, entities[i..])
      == parts + text[cursor..entities[i].start] + entities[i].token
        + MaskFrom(text, entities[i].end, entities[i + 1..])
  {
    assert entities[i..][1..] == entities[i + 1..];
    OrderedBounds(entities[i + 1..], entities[i].end, |text|);
  }

  /** The exact interleaving of untouched gaps and tokens. */
  method MaskText(text: string, entities: seq<Entity>) returns (masked: string)
    requires Ordered(entities, 0, |text|)
    ensures masked == MaskFrom(text, 0, entities)
  {
    OrderedIsSorted(entities, 0, |text|);
    SortedIsFixed(entities, EntityStartsFirst);
    var inOrder := Sort(entities, EntityStartsFirst);
    var parts := "";
    var cursor: nat := 0;
    var i := 0;
    assert inOrder[0..] == entities;
    while i < |inOrder|
      invariant 0 <= i <= |inOrder| && inOrder == entities
      invariant Ordered(inOrder[i..], cursor, |text|)
      invariant parts + MaskFrom(text, cursor, inOrder[i..]) == MaskFrom(text, 0, entities)
    {
      MaskSplits(text, cursor, inOrder, i, parts);
      parts := parts + text[cursor..inOrder[i].start] + inOrder[i].token;
      cursor := inOrder[i].end;
      i := i + 1;
    }
    OrderedBounds(inOrder[i..], cursor, |text|);
    masked := parts + text[cursor..];
  }

  /** The slices the spans cut out of the text, put back where the tokens stand. */
  function PutBack(masked: string, cursor: nat, entities: seq<Entity>, text: string): string
    requires Ordered(entities, cursor, |text|)
    decreases |entities|
  {
    if entities == [] then masked else
    var e := entities[0];
    var at := e.start - cursor;
    if |masked| < at + |e.token| then masked
    else masked[..at] + text[e.start..e.end] + PutBack(masked[at + |e.token|..], e.end, entities[1..], text)
  }

  function GrowthOf(entities: seq<Entity>): int {
    if entities == [] then 0 else |entities[0].token| - (entities[0].end - entities[0].start) + GrowthOf(entities[1..])
  }

  lemma CutThree(a: string, b: string, c: string)
    ensures (a + b + c)[..|a|] == a && (a + b + c)[|a| + |b|..] == c
  {
  }

  lemma JoinThree(s: string, i: nat, j: nat, k: nat)
    requires i <= j <= k <= |s|
    ensures s[i..j] + s[j..k] + s[k..] == s[i..]
  {
  }

  /** Masking is invertible by position, whatever the tokens, and its length is what the spans and tokens say. */
  lemma {:induction false} MaskedPositions(text: string, cursor: nat, entities: seq<Entity>)
    requires Ordered(entities, cursor, |text|)
    ensures cursor <= |text|
    ensures |MaskFrom(text, cursor, entities)| == |text| - cursor + GrowthOf(entities)
    ensures PutBack(MaskFrom(text, cursor, entities), cursor, entities, text) == text[cursor..]
    decreases |entities|
  {
    OrderedBounds(entities, cursor, |text|);
    if entities != [] {
      var e := entities[0];
      MaskedPositions(text, e.end, entities[1..]);
      PutBackStep(text, cursor, entities, MaskFrom(text, e.end, entities[1..]));
    }
  }

  lemma PutBackStep(text: string, cursor: nat, entities: seq<Entity>, rest: string)
    requires entities != [] && Ordered(entities, cursor, |text|)
    requires PutBack(rest, entities[0].end, entities[1..], text) == text[entities[0].end..]
    ensures var e := entities[0];
      PutBack(text[cursor..e.start] + e.token + rest, cursor, entities, text) == text[cursor..]
  {
    var e := entities[0];
    CutThree(text[cursor..e.start], e.token, rest);
    JoinThree(text, cursor, e.start, e.end);
  }

  // ---------- reading the masked text back ----------

  /** Replaces every token of the table by its value, looking at nothing but the masked text. */
  function Unmask(s: string, table: map<string, string>): string
    decreases |s|
  {
    if s == [] then [] else
    var n := TokenLen(s);
    if n == 0 then [s[0]] + Unmask(s[1..], table)
    else (if s[..n] in table then table[s[..n]] else s[..n]) + Unmask(s[n..], table)
  }

  /** A match at `p`, if there is one, is not a token of the table. */
  predicate ForeignAt(text: string, table: map<string, string>, p: nat) {
    p <= |text| ==> var s := text[p..]; TokenLen(s) > 0 ==> s[..TokenLen(s)] !in table
  }

  /** No match anywhere in the text is a token of the table. */
  ghost predicate Foreign(text: string, table: map<string, string>) { forall p :: ForeignAt(text, table, p) }

  lemma SliceTail<T>(s: seq<T>, from: nat, to: nat, p: nat)
    requires from + p <= to <= |s|
    ensures s[from + p..] == s[from..to][p..] + s[to..]
  {
    assert s[from..to][p..] == s[from + p..to];
  }

  lemma CutConcat<T>(a: seq<T>, b: seq<T>, n: nat)
    requires n <= |a|
    ensures (a + b)[..n] == a[..n] && (a + b)[n..] == a[n..] + b
  {
  }

  lemma Regroup<T>(a: seq<T>, n: nat, b: seq<T>)
    requires n <= |a|
    ensures a[..n] + (a[n..] + b) == a + b
  {
  }

  lemma ForeignSliceAt(text: string, table: map<string, string>, from: nat, to: nat, p: nat)
    requires from <= to <= |text| && p <= to - from && ForeignAt(text, table, from + p)
    ensures ForeignAt(text[from..to], table, p)
  {
    var s := text[from..to][p..];
    if TokenLen(s) > 0 {
      SliceTail(text, from, to, p);
      TokenExtends(s, text[to..]);
      assert text[from + p..][..TokenLen(s)] == s[..TokenLen(s)];
    }
  }

  lemma ForeignSlice(text: string, table: map<string, string>, from: nat, to: nat)
    requires from <= to <= |text| && Foreign(text, table)
    ensures Foreign(text[from..to], table)
  {
    forall p: nat ensures ForeignAt(text[from..to], table, p) {
      if p <= to - from {
        assert ForeignAt(text, table, from + p);
        ForeignSliceAt(text, table, from, to, p);
      }
    }
  }

  lemma ForeignTail(text: string, table: map<string, string>, from: nat)
    requires from <= |text| && Foreign(text, table)
    ensures Foreign(text[from..], table)
  {
    assert text[from..|text|] == text[from..];
    ForeignSlice(text, table, from, |text|);
  }

  /** One turn of the reader inside a gap copies it. */
  lemma UnmaskStep(gap: string, rest: string, table: map<string, string>) returns (n: nat)
    requires gap != [] && ForeignAt(gap, table, 0) && (rest == [] || rest[0] == '[')
    ensures 0 < n <= |gap|
    ensures Unmask(gap + rest, table) == gap[..n] + Unmask(gap[n..] + rest, table)
  {
    var s := gap + rest;
    TokenStopsBefore(gap, rest);
    assert gap[0..] == gap;
    n := if TokenLen(gap) == 0 then 1 else TokenLen(gap);
    CutConcat(gap, rest, n);
    if TokenLen(gap) == 0 { assert gap[..1] == [s[0]]; }
  }

  lemma {:induction false} UnmaskGap(gap: string, rest: string, table: map<string, string>)
    requires Foreign(gap, table) && (rest == [] || rest[0] == '[')
    ensures Unmask(gap + rest, table) == gap + Unmask(rest, table)
    decreases |gap|
  {
    if gap == [] {
      assert gap + rest == rest;
    } else {
      assert ForeignAt(gap, table, 0);
      var n := UnmaskStep(gap, rest, table);
      ForeignTail(gap, table, n);
      UnmaskGap(gap[n..], rest, table);
      Regroup(gap, n, Unmask(rest, table));
    }
  }

  /** Each entity's token is a token and stands for its slice in the table. */
  predicate Tabled(entities: seq<Entity>, text: string, table: map<string, string>) {
    forall k :: 0 <= k < |entities| ==>
      && entities[k].start <= entities[k].end <= |text|
      && IsToken(entities[k].token)
      && entities[k].token in table && table[entities[k].token] == text[entities[k].start..entities[k].end]
  }

  lemma UnmaskToken(token: string, rest: string, table: map<string, string>)
    requires IsToken(token) && token in table
    ensures Unmask(token + rest, table) == table[token] + Unmask(rest, table)
  {
    TokenExtends(token, rest);
    assert (token + rest)[..|token|] == token && (token + rest)[|token|..] == rest;
  }

  /** When no token of the table occurs in the source, reading the masked text against the table gives the source
      back: no gap, token or boundary between them can be mistaken for another token. */
  lemma {:induction false} UnmaskInverts(text: string, cursor: nat, entities: seq<Entity>, table: map<string, string>)
    requires Ordered(entities, cursor, |text|) && Tabled(entities, text, table) && Foreign(text, table)
    ensures cursor <= |text| && Unmask(MaskFrom(text, cursor, entities), table) == text[cursor..]
    decreases |entities|
  {
    OrderedBounds(entities, cursor, |text|);
    if entities == [] {
      ForeignTail(text, table, cursor);
      assert text[cursor..] + [] == text[cursor..];
      UnmaskGap(text[cursor..], [], table);
    } else {
      assert forall k :: 0 <= k < |entities[1..]| ==> entities[1..][k] == entities[k + 1];
      UnmaskInverts(text, entities[0].end, entities[1..], table);
      UnmaskEntity(text, cursor, entities[0], MaskFrom(text, entities[0].end, entities[1..]), table);
    }
  }

  lemma UnmaskEntity(text: string, cursor: nat, e: Entity, rest: string, table: map<string, string>)
    requires cursor <= e.start <= e.end <= |text| && Foreign(text, table)
    requires IsToken(e.token) && e.token in table && table[e.token] == text[e.start..e.end]
    requires Unmask(rest, table) == text[e.end..]
    ensures Unmask(text[cursor..e.start] + e.token + rest, table) == text[cursor..]
  {
    ForeignSlice(text, table, cursor, e.start);
    UnmaskParts(text[cursor..e.start], e.token, rest, table);
    JoinFromRight(text, cursor, e.start, e.end);
  }

  lemma UnmaskParts(gap: string, token: string, rest: string, table: map<string, string>)
    requires Foreign(gap, table) && IsToken(token) && token in table
    ensures Unmask(gap + token + rest, table) == gap + (table[token] + Unmask(rest, table))
  {
    assert gap + token + rest == gap + (token + rest);
    UnmaskGap(gap, token + rest, table);
    UnmaskToken(token, rest, table);
  }

  lemma JoinFromRight(s: string, i: nat, j: nat, k: nat)
    requires i <= j <= k <= |s|
    ensures s[i..j] + (s[j..k] + s[k..]) == s[i..]
  {
  }

  // ---------- end to end ----------

  /** The token dictionary turned round. */
  function TableOf(text: string, entities: seq<Entity>): map<string, string>
    requires forall k :: 0 <= k < |entities| ==> entities[k].start <= entities[k].end <= |text|
  {
    if entities == [] then map[] else
    var last := entities[|entities| - 1];
    TableOf(text, entities[..|entities| - 1])[last.token := text[last.start..last.end]]
  }

  lemma {:induction false} TableIs(text: string, entities: seq<Entity>)
    requires forall k :: 0 <= k < |entities| ==> entities[k].start <= entities[k].end <= |text|
    requires forall i, k :: 0 <= i < k < |entities| && entities[i].token == entities[k].token ==>
      text[entities[i].start..entities[i].end] == text[entities[k].start..entities[k].end]
    ensures forall k :: 0 <= k < |entities| ==>
      && entities[k].token in TableOf(text, entities)
      && TableOf(text, entities)[entities[k].token] == text[entities[k].start..entities[k].end]
  {
    if entities != [] { TableIs(text, entities[..|entities| - 1]); }
  }

  predicate TokenIs(e: Entity, s: string) { e.token == s }

  lemma {:induction false} TableIsOf(text: string, entities: seq<Entity>, s: string)
    requires forall k :: 0 <= k < |entities| ==> entities[k].start <= entities[k].end <= |text|
    requires s in TableOf(text, entities)
    ensures exists k :: 0 <= k < |entities| && TokenIs(entities[k], s)
  {
    var n := |entities| - 1;
    if TokenIs(entities[n], s) {
    } else {
      TableIsOf(text, entities[..n], s);
      var k :| 0 <= k < n && TokenIs(entities[..n][k], s);
      assert TokenIs(entities[k], s);
    }
  }

  ghost predicate Contains(s: string, part: string) { exists k :: OccursAt(s, part, k) }

  lemma ContainsExtended(s: string, part: string, before: string, after: string)
    requires Contains(s, part)
    ensures Contains(before + s + after, part)
  {
    var k: nat :| OccursAt(s, part, k);
    forall i | 0 <= i < |part| ensures (before + s + after)[|before| + k + i] == part[i] {
      assert s[k..k + |part|][i] == s[k + i];
    }
    assert OccursAt(before + s + after, part, |before| + k);
  }

  lemma SliceContained(s: string, from: nat, to: nat, a: nat, b: nat)
    requires from <= a <= b <= to <= |s|
    ensures Contains(s[from..to], s[a..b])
  {
    forall i | 0 <= i < b - a ensures s[from..to][a - from + i] == s[a..b][i] {}
    assert OccursAt(s[from..to], s[a..b], a - from);
  }

  /** A stretch no span overlaps survives masking. */
  lemma {:induction false} UntouchedSurvives(text: string, cursor: nat, entities: seq<Entity>, a: nat, b: nat)
    requires Ordered(entities, cursor, |text|) && cursor <= a < b <= |text|
    requires forall k :: 0 <= k < |entities| ==> b <= entities[k].start || entities[k].end <= a
    ensures Contains(MaskFrom(text, cursor, entities), text[a..b])
    decreases |entities|
  {
    if entities == [] {
      assert text[cursor..|text|] == text[cursor..];
      SliceContained(text, cursor, |text|, a, b);
    } else {
      var e := entities[0];
      var rest := MaskFrom(text, e.end, entities[1..]);
      var gap := text[cursor..e.start];
      if b <= e.start {
        SliceContained(text, cursor, e.start, a, b);
        ContainsExtended(gap, text[a..b], [], e.token + rest);
        assert [] + gap + (e.token + rest) == gap + e.token + rest;
      } else {
        UntouchedSurvives(text, e.end, entities[1..], a, b);
        ContainsExtended(rest, text[a..b], gap + e.token, []);
        assert gap + e.token + rest + [] == gap + e.token + rest;
      }
    }
  }

  /** Resolved candidates, once they carry tokens, are ordered spans. */
  lemma {:induction false} ApartIsOrdered(entities: seq<Entity>, cursor: nat, n: nat)
    requires forall k :: 0 <= k < |entities| ==> cursor <= entities[k].start < entities[k].end <= n
    requires forall i, k :: 0 <= i < k < |entities| ==> entities[i].end <= entities[k].start
    requires cursor <= n
    ensures Ordered(entities, cursor, n)
    decreases |entities|
  {
    if entities != [] {
      assert forall k :: 0 <= k < |entities[1..]| ==> entities[1..][k] == entities[k + 1];
      ApartIsOrdered(entities[1..], entities[0].end, n);
    }
  }

  /** A new token never occurs in the source: everything found there has a smaller ordinal of its type. */
  lemma NewTokenIsForeign(text: string, t: EntityType, number: nat, p: nat)
    requires number > Highest(Scan(text, 0), t) && p <= |text|
    requires TokenLen(text[p..]) > 0
    ensures text[p..][..TokenLen(text[p..])] != Token(t, number)
  {
    if text[p..][..TokenLen(text[p..])] == Token(t, number) {
      var f := PrintedTokenIsFound(text, p, t, number);
      ScanFindsAll(text, 0);
      HighestIsBound(Scan(text, 0), f);
      assert false;
    }
  }

  /** The entities of a resolved selection. */
  function Masked(text: string, cs: seq<Candidate>, existing: seq<Found>): (entities: seq<Entity>)
    requires InText(cs, text)
    ensures |entities| == |cs|
  {
    Entities(cs, Values(text, cs), existing, |cs|)
  }

  lemma EntityFacts(text: string, cs: seq<Candidate>, existing: seq<Found>, k: nat)
    requires InText(cs, text) && k < |cs|
    ensures var e := Masked(text, cs, existing); var values := Values(text, cs);
      && |e| == |cs| && e[k].start == cs[k].start && e[k].end == cs[k].end && e[k].entityType == cs[k].entityType
      && e[k].token == TokenAt(values, existing, k)
      && values[k] == Value(cs[k].entityType, text[cs[k].start..cs[k].end])
      && IsToken(e[k].token) && TokenOrdinal(e[k].token) == Number(values, existing, k)
      && Number(values, existing, k) > Highest(existing, cs[k].entityType)
  {
    var values := Values(text, cs);
    EntityIs(cs, values, existing, |cs|, k);
    assert Masked(text, cs, existing)[k] == EntityAt(cs[k], values, existing, k);
    TokenRoundTrip(cs[k].entityType, Number(values, existing, k));
  }

  lemma MaskedIsOrdered(text: string, cs: seq<Candidate>, existing: seq<Found>)
    requires InText(cs, text) && NonEmpty(cs) && Apart(cs)
    ensures |Masked(text, cs, existing)| == |cs|
    ensures Ordered(Masked(text, cs, existing), 0, |text|)
  {
    var e := Masked(text, cs, existing);
    forall k | 0 <= k < |cs| ensures e[k].start == cs[k].start && e[k].end == cs[k].end {
      EntityFacts(text, cs, existing, k);
    }
    ApartIsOrdered(e, 0, |text|);
  }

  /** Tokens found in the source survive in the masked text. */
  lemma PreexistingSurvive(text: string, cs: seq<Candidate>, existing: seq<Found>, f: Found)
    requires InText(cs, text) && NonEmpty(cs) && Apart(cs) && f.start < f.end <= |text|
    requires forall c :: c in cs ==> !OverlapsSpan(c, f)
    ensures Ordered(Masked(text, cs, existing), 0, |text|)
    ensures Contains(MaskFrom(text, 0, Masked(text, cs, existing)), text[f.start..f.end])
  {
    MaskedIsOrdered(text, cs, existing);
    forall k | 0 <= k < |cs| ensures Beside(Masked(text, cs, existing)[k], f) {
      StandsBeside(text, cs, existing, f, k);
    }
    BesideSurvives(text, Masked(text, cs, existing), f);
  }

  predicate Beside(e: Entity, f: Found) { f.end <= e.start || e.end <= f.start }

  lemma StandsBeside(text: string, cs: seq<Candidate>, existing: seq<Found>, f: Found, k: nat)
    requires InText(cs, text) && k < |cs| && cs[k].start < cs[k].end && f.start < f.end && !OverlapsSpan(cs[k], f)
    ensures Beside(Masked(text, cs, existing)[k], f)
  {
    EntityFacts(text, cs, existing, k);
  }

  lemma BesideSurvives(text: string, e: seq<Entity>, f: Found)
    requires Ordered(e, 0, |text|) && f.start < f.end <= |text| &&
      forall k {:trigger e[k]} :: 0 <= k < |e| ==> Beside(e[k], f)
    ensures Contains(MaskFrom(text, 0, e), text[f.start..f.end])
  {
    UntouchedSurvives(text, 0, e, f.start, f.end);
  }

  lemma MaskedIsTabled(text: string, cs: seq<Candidate>, existing: seq<Found>)
    requires InText(cs, text)
    ensures var e := Masked(text, cs, existing);
      && |e| == |cs|
      && (forall k :: 0 <= k < |e| ==> e[k].start <= e[k].end <= |text|)
      && Tabled(e, text, TableOf(text, e))
      && forall s :: s in TableOf(text, e) ==> exists k :: 0 <= k < |e| && TokenIs(e[k], s)
  {
    var e, values := Masked(text, cs, existing), Values(text, cs);
    forall k | 0 <= k < |e| ensures e[k].start <= e[k].end <= |text| && IsToken(e[k].token) {
      EntityFacts(text, cs, existing, k);
    }
    forall i, k | 0 <= i < k < |e| && e[i].token == e[k].token
      ensures text[e[i].start..e[i].end] == text[e[k].start..e[k].end]
    {
      EntityFacts(text, cs, existing, i);
      EntityFacts(text, cs, existing, k);
      TokensAreBijective(values, existing, i, k);
    }
    TableIs(text, e);
    forall s | s in TableOf(text, e) ensures exists k :: 0 <= k < |e| && TokenIs(e[k], s) { TableIsOf(text, e, s); }
  }

  lemma AssignedTokenIsForeign(text: string, cs: seq<Candidate>, k: nat, p: nat)
    requires InText(cs, text) && k < |cs| && p <= |text| && TokenLen(text[p..]) > 0
    ensures |Masked(text, cs, Scan(text, 0))| == |cs|
    ensures text[p..][..TokenLen(text[p..])] != Masked(text, cs, Scan(text, 0))[k].token
  {
    EntityFacts(text, cs, Scan(text, 0), k);
    NewTokenIsForeign(text, cs[k].entityType, Number(Values(text, cs), Scan(text, 0), k), p);
  }

  lemma MaskedForeignAt(text: string, cs: seq<Candidate>, e: seq<Entity>, p: nat)
    requires InText(cs, text) && e == Masked(text, cs, Scan(text, 0)) && |e| == |cs|
    requires forall k :: 0 <= k < |e| ==> e[k].start <= e[k].end <= |text|
    requires forall s :: s in TableOf(text, e) ==> exists k :: 0 <= k < |e| && TokenIs(e[k], s)
    ensures ForeignAt(text, TableOf(text, e), p)
  {
    if p <= |text| && TokenLen(text[p..]) > 0 {
      var s := text[p..][..TokenLen(text[p..])];
      if s in TableOf(text, e) {
        var k :| 0 <= k < |e| && TokenIs(e[k], s);
        AssignedTokenIsForeign(text, cs, k, p);
      }
    }
  }

  lemma MaskedIsForeign(text: string, cs: seq<Candidate>)
    requires InText(cs, text)
    ensures var e := Masked(text, cs, Scan(text, 0));
      && (forall k :: 0 <= k < |e| ==> e[k].start <= e[k].end <= |text|)
      && Foreign(text, TableOf(text, e))
  {
    var e := Masked(text, cs, Scan(text, 0));
    MaskedIsTabled(text, cs, Scan(text, 0));
    EverywhereForeign(text, cs, e);
  }

  lemma EverywhereForeign(text: string, cs: seq<Candidate>, e: seq<Entity>)
    requires InText(cs, text) && e == Masked(text, cs, Scan(text, 0)) && |e| == |cs|
    requires forall k :: 0 <= k < |e| ==> e[k].start <= e[k].end <= |text|
    requires forall s :: s in TableOf(text, e) ==> exists k :: 0 <= k < |e| && TokenIs(e[k], s)
    ensures Foreign(text, TableOf(text, e))
  {
    forall p: nat ensures ForeignAt(text, TableOf(text, e), p) { MaskedForeignAt(text, cs, e, p); }
  }

  /** Masking against the tokens found in the text loses nothing and confuses nothing: the masked text alone, read
      against the token table, gives the text back. */
  lemma MaskedTextReadsBack(text: string, cs: seq<Candidate>)
    requires InText(cs, text) && NonEmpty(cs) && Apart(cs)
    ensures var e := Masked(text, cs, Scan(text, 0));
      && Ordered(e, 0, |text|)
      && (forall k :: 0 <= k < |e| ==> e[k].start <= e[k].end <= |text|)
      && Unmask(MaskFrom(text, 0, e), TableOf(text, e)) == text
  {
    var e := Masked(text, cs, Scan(text, 0));
    MaskedIsOrdered(text, cs, Scan(text, 0));
    MaskedIsTabled(text, cs, Scan(text, 0));
    MaskedIsForeign(text, cs);
    UnmaskInverts(text, 0, e, TableOf(text, e));
    assert text[0..] == text;
  }

  // ---------- the masked text is normalised ----------

  lemma {:induction false} MaskHasNoCr(text: string, cursor: nat, entities: seq<Entity>)
    requires Ordered(entities, cursor, |text|) && NoCr(text)
    requires forall k {:trigger entities[k]} :: 0 <= k < |entities| ==> NoCr(entities[k].token)
    ensures NoCr(MaskFrom(text, cursor, entities))
    decreases |entities|
  {
    if entities != [] {
      MaskHasNoCr(text, entities[0].end, entities[1..]);
    }
  }

  /** Normalising the masked text of a normalised text changes nothing; in particular it never starts with a byte
      order mark. */
  lemma MaskedIsNormalized(text: string, entities: seq<Entity>)
    requires Normalize(text) == Some(text) && NoCr(text) && Ordered(entities, 0, |text|)
    requires forall k {:trigger entities[k]} :: 0 <= k < |entities| ==> IsToken(entities[k].token)
    ensures Normalize(MaskFrom(text, 0, entities)) == Some(MaskFrom(text, 0, entities))
  {
    var masked := MaskFrom(text, 0, entities);
    forall k | 0 <= k < |entities| ensures NoCr(entities[k].token) { TokenHasNoCr(entities[k].token); }
    MaskHasNoCr(text, 0, entities);
    NoCrIsFixed(masked);
    if entities != [] && entities[0].start == 0 { TokenHasNoCr(entities[0].token); }
  }

  lemma TokenHasNoCr(s: string)
    requires IsToken(s)
    ensures NoCr(s) && s[0] == '['
  {
    forall i | 0 <= i < |s| ensures s[i] != '\r' { if i > 0 { TokenCharacter(s, i); } }
  }
}
