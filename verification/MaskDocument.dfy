/** Detection, masking and the collision check of one document, and the input prepared for a provider. */
module MaskDocument {
  import opened Options
  import opened MaskTokens
  import opened SpanResolution
  import opened TokenAllocation
  import opened Substrings
  import opened Normalization
  import opened Masking
  import opened TokenLimits
  import D = Detection

  /** The two errors of masking: a byte order mark, and an ordinal of too many digits. */
  datatype MaskError = ByteOrderMark | DigitLimit

  datatype Result<T> = Ok(value: T) | Err(error: MaskError)

  // ---------- detection ----------

  function Existing(n: string, avoid: bool): seq<Found> { if avoid then Scan(n, 0) else [] }

  /** The resolution of the text's candidates around the tokens already there. */
  ghost predicate Selected(n: string, groups: seq<D.LabelGroup>, patterns: seq<D.TextPattern>, avoid: bool,
                           selected: seq<Candidate>)
    requires D.AllNamed(groups)
  {
    && Resolved(D.CandidatesOf(n, groups, patterns), Existing(n, avoid), selected)
    && NonEmpty(selected) && InText(selected, n)
  }

  /** The entities are the selected candidates with tokens assigned. */
  ghost predicate Detected(n: string, groups: seq<D.LabelGroup>, patterns: seq<D.TextPattern>, avoid: bool,
                           selected: seq<Candidate>, entities: seq<Entity>)
    requires D.AllNamed(groups)
  {
    && Selected(n, groups, patterns, avoid, selected)
    && AllPrintable(n, selected, Existing(n, avoid)) && entities == Masked(n, selected, Existing(n, avoid))
  }

  /** The text, the groups and the patterns leave no choice of entities. */
  lemma DetectionIsDetermined(n: string, groups: seq<D.LabelGroup>, patterns: seq<D.TextPattern>, avoid: bool,
                              a: seq<Candidate>, x: seq<Entity>, b: seq<Candidate>, y: seq<Entity>)
    requires D.AllNamed(groups)
    requires Detected(n, groups, patterns, avoid, a, x) && Detected(n, groups, patterns, avoid, b, y)
    ensures a == b && x == y
  {
    ChoiceIsDetermined(n, groups, patterns, avoid, a, b);
  }

  lemma ChoiceIsDetermined(n: string, groups: seq<D.LabelGroup>, patterns: seq<D.TextPattern>, avoid: bool,
                           a: seq<Candidate>, b: seq<Candidate>)
    requires D.AllNamed(groups)
    requires Selected(n, groups, patterns, avoid, a) && Selected(n, groups, patterns, avoid, b)
    ensures a == b
  {
    D.CandidatesWellDetected(n, groups, patterns);
    SelectionIsDetermined(n, D.CandidatesOf(n, groups, patterns), Existing(n, avoid), a, b);
  }

  lemma SelectionIsDetermined(n: string, cs: seq<Candidate>, existing: seq<Found>, a: seq<Candidate>, b: seq<Candidate>)
    requires D.WellDetected(n, cs) && Resolved(cs, existing, a) && Resolved(cs, existing, b) && NonEmpty(a)
    requires NonEmpty(b)
    ensures a == b
  {
    forall x, y | x in cs && y in cs && x.detectionOrder == y.detectionOrder ensures x == y {
      D.OrdersDiffer(n, cs, x, y);
    }
    ResolutionIsUnique(cs, existing, a, b);
    SameSelection(a, b);
  }

  /** What detection makes of a text: an error exactly on a byte order mark, on a known token whose ordinal cannot be
      read, and when a new ordinal cannot be printed; otherwise the entities. */
  ghost predicate EntitiesOf(text: string, groups: seq<D.LabelGroup>, patterns: seq<D.TextPattern>, avoid: bool,
                             selected: seq<Candidate>, r: Result<seq<Entity>>)
    requires D.AllNamed(groups)
  {
    match Normalize(text)
    case None => r == Err(ByteOrderMark)
    case Some(n) =>
      if avoid && !Readable(n) then r == Err(DigitLimit) else
      && Selected(n, groups, patterns, avoid, selected)
      && if AllPrintable(n, selected, Existing(n, avoid)) then
           r.Ok? && Detected(n, groups, patterns, avoid, selected, r.value)
         else r == Err(DigitLimit)
  }

  /** detect_entities */
  method DetectEntities(text: string, groups: seq<D.LabelGroup>, patterns: seq<D.TextPattern>, avoid: bool)
    returns (r: Result<seq<Entity>>, ghost selected: seq<Candidate>)
    requires D.AllNamed(groups)
    ensures EntitiesOf(text, groups, patterns, avoid, selected, r)
    ensures r == Err(ByteOrderMark) <==> Normalize(text).None?
  {
    selected := [];
    if Normalize(text).None? {
      return Err(ByteOrderMark), selected;
    }
    var n := Normalize(text).value;
    var existing: seq<Found> := [];
    if avoid {
      var found := FindPreexistingMaskTokens(n);
      if found.None? {
        return Err(DigitLimit), selected;
      }
      existing := found.value;
    }
    var cs := D.DetectCandidates(n, groups, patterns);
    var resolved := DeduplicateAndResolve(cs, existing);
    selected := resolved;
    forall k | 0 <= k < |resolved| ensures resolved[k].start <= resolved[k].end <= |n| { assert resolved[k] in cs; }
    var entities := AssignMaskTokens(n, resolved, existing);
    r := if entities.Some? then Ok(entities.value) else Err(DigitLimit);
  }

  // ---------- masking ----------

  datatype MaskingResult = MaskingResult(
    entities: seq<Entity>,
    maskedText: string,
    preexistingCount: nat,
    tokenCollisionAvoided: bool,
    preservationFailures: int,
    reusedReserved: int)

  /** Reading the masked text against the entities' token table gives the source. */
  predicate ReadsBack(masked: string, source: string, entities: seq<Entity>) {
    && (forall k :: 0 <= k < |entities| ==> entities[k].start <= entities[k].end <= |source|)
    && Unmask(masked, TableOf(source, entities)) == source
  }

  /** The entities are the text's, the masked text is the text with them replaced. */
  ghost predicate IsMasked(n: string, groups: seq<D.LabelGroup>, patterns: seq<D.TextPattern>, avoid: bool,
                           selected: seq<Candidate>, entities: seq<Entity>, masked: string)
    requires D.AllNamed(groups)
  {
    && Detected(n, groups, patterns, avoid, selected, entities)
    && Ordered(entities, 0, |n|) && masked == MaskFrom(n, 0, entities)
  }

  /** With collision avoidance on, the result never reports a collision, whatever the text and whatever the patterns
      match, and the masked text determines the source. */
  ghost predicate IsMasking(n: string, groups: seq<D.LabelGroup>, patterns: seq<D.TextPattern>, avoid: bool,
                            selected: seq<Candidate>, m: MaskingResult)
    requires D.AllNamed(groups)
  {
    && IsMasked(n, groups, patterns, avoid, selected, m.entities, m.maskedText)
    && m.preexistingCount == |Existing(n, avoid)|
    && (avoid ==>
          && m.tokenCollisionAvoided && m.reusedReserved == 0 && m.preservationFailures == 0
          && ReadsBack(m.maskedText, n, m.entities))
  }

  /** What masking makes of a text; it fails exactly when detection does. */
  ghost predicate MaskingOf(text: string, groups: seq<D.LabelGroup>, patterns: seq<D.TextPattern>, avoid: bool,
                            selected: seq<Candidate>, r: Result<MaskingResult>)
    requires D.AllNamed(groups)
  {
    match Normalize(text)
    case None => r == Err(ByteOrderMark)
    case Some(n) =>
      if avoid && !Readable(n) then r == Err(DigitLimit) else
      && Selected(n, groups, patterns, avoid, selected)
      && if AllPrintable(n, selected, Existing(n, avoid)) then
           r.Ok? && IsMasking(n, groups, patterns, avoid, selected, r.value)
         else r == Err(DigitLimit)
  }

  /** detect_and_mask */
  method DetectAndMask(text: string, groups: seq<D.LabelGroup>, patterns: seq<D.TextPattern>, avoid: bool)
    returns (r: Result<MaskingResult>, ghost selected: seq<Candidate>)
    requires D.AllNamed(groups)
    ensures MaskingOf(text, groups, patterns, avoid, selected, r)
    ensures r == Err(ByteOrderMark) <==> Normalize(text).None?
  {
    selected := [];
    if Normalize(text).None? {
      return Err(ByteOrderMark), selected;
    }
    var n := Normalize(text).value;
    NormalizeIdempotent(text);
    var existing: seq<Found> := [];
    if avoid {
      var found := FindPreexistingMaskTokens(n);
      if found.None? {
        return Err(DigitLimit), selected;
      }
      existing := found.value;
    }
    var detected: Result<seq<Entity>>;
    detected, selected := DetectEntities(n, groups, patterns, avoid);
    if detected.Err? {
      return Err(detected.error), selected;
    }
    r := MaskDetected(n, groups, patterns, avoid, existing, detected.value, selected);
  }

  /** From the entities on: rewriting and the two counters. */
  method MaskDetected(n: string, groups: seq<D.LabelGroup>, patterns: seq<D.TextPattern>, avoid: bool,
                      existing: seq<Found>, entities: seq<Entity>, ghost selected: seq<Candidate>)
    returns (r: Result<MaskingResult>)
    requires D.AllNamed(groups) && existing == Existing(n, avoid)
    requires Detected(n, groups, patterns, avoid, selected, entities)
    ensures r.Ok? && IsMasking(n, groups, patterns, avoid, selected, r.value)
  {
    MaskedIsOrdered(n, selected, existing);
    var masked := MaskText(n, entities);
    NothingReused(n, selected, existing, entities);
    var reused := CountReused(existing, entities);
    if avoid { ScanFindsAll(n, 0); }
    var failures := CountFailures(n, existing, masked);
    NothingLost(n, selected, existing, |existing|);
    if avoid {
      MaskedTextReadsBack(n, selected);
    }
    r := Ok(MaskingResult(entities, masked, |existing|, reused == 0 && failures == 0, failures, reused));
  }

  // ---------- the provider's input ----------

  datatype ProviderInput =
    | Prepared(referenceId: string, maskedText: string)
    | MaskingFailed(error: MaskError)
    | TokenCollision
    | ResidualPersonalData

  /** Every candidate of the text overlaps a token that stands in it. */
  ghost predicate NothingLeft(text: string, groups: seq<D.LabelGroup>, patterns: seq<D.TextPattern>)
    requires D.AllNamed(groups)
  {
    forall c :: c in D.CandidatesOf(text, groups, patterns) ==> !Clear(c, Scan(text, 0))
  }

  /** Nothing is selected exactly when every candidate overlaps a token. */
  lemma NoEntityIff(
    n: string, groups: seq<D.LabelGroup>, patterns: seq<D.TextPattern>, selected: seq<Candidate>)
    requires D.AllNamed(groups) && Selected(n, groups, patterns, true, selected)
    ensures selected == [] <==> NothingLeft(n, groups, patterns)
  {
    if selected != [] { assert selected[0] in selected; }
  }

  /** What the second detection makes of the masked text: nothing left, or an error.  The masked text itself can always
      be read; the digit limit can only be met by an ordinal that would have to be assigned in it. */
  ghost predicate SecondPass(referenceId: string, masked: string, groups: seq<D.LabelGroup>,
                             patterns: seq<D.TextPattern>, rest: seq<Candidate>, input: ProviderInput)
    requires D.AllNamed(groups)
  {
    if NothingLeft(masked, groups, patterns) then input == Prepared(referenceId, masked) else
    && Selected(masked, groups, patterns, true, rest)
    && input == if AllPrintable(masked, rest, Scan(masked, 0)) then ResidualPersonalData else MaskingFailed(DigitLimit)
  }

  /** The input a clause body becomes: an error when it cannot be masked, otherwise what the second detection makes of
      the masked text, which reads back as the body. */
  ghost predicate Built(referenceId: string, body: string, groups: seq<D.LabelGroup>, patterns: seq<D.TextPattern>,
                        input: ProviderInput, entities: seq<Entity>, masked: string, selected: seq<Candidate>,
                        rest: seq<Candidate>)
    requires D.AllNamed(groups)
  {
    match Normalize(body)
    case None => input == MaskingFailed(ByteOrderMark)
    case Some(n) =>
      if !Readable(n) then input == MaskingFailed(DigitLimit) else
      && Selected(n, groups, patterns, true, selected)
      && if !AllPrintable(n, selected, Scan(n, 0)) then input == MaskingFailed(DigitLimit) else
         && IsMasked(n, groups, patterns, true, selected, entities, masked) && ReadsBack(masked, n, entities)
         && SecondPass(referenceId, masked, groups, patterns, rest, input)
  }

  /** The body, the groups and the patterns leave no choice of input. */
  lemma InputIsDetermined(referenceId: string, body: string, groups: seq<D.LabelGroup>, patterns: seq<D.TextPattern>,
                          a: ProviderInput, ea: seq<Entity>, ma: string, sa: seq<Candidate>, ra: seq<Candidate>,
                          b: ProviderInput, eb: seq<Entity>, mb: string, sb: seq<Candidate>, rb: seq<Candidate>)
    requires D.AllNamed(groups)
    requires Built(referenceId, body, groups, patterns, a, ea, ma, sa, ra)
    requires Built(referenceId, body, groups, patterns, b, eb, mb, sb, rb)
    ensures a == b
  {
    if Normalize(body).Some? && Readable(Normalize(body).value) {
      var n := Normalize(body).value;
      ChoiceIsDetermined(n, groups, patterns, true, sa, sb);
      if AllPrintable(n, sa, Scan(n, 0)) && !NothingLeft(ma, groups, patterns) {
        ChoiceIsDetermined(ma, groups, patterns, true, ra, rb);
      }
    }
  }

  /** build_provider_input; the collision error never occurs. */
  method BuildProviderInput(referenceId: string, body: string, groups: seq<D.LabelGroup>, patterns: seq<D.TextPattern>)
    returns (input: ProviderInput, ghost entities: seq<Entity>, ghost masked: string, ghost selected: seq<Candidate>,
             ghost rest: seq<Candidate>)
    requires D.AllNamed(groups)
    ensures Built(referenceId, body, groups, patterns, input, entities, masked, selected, rest)
    ensures !input.TokenCollision?
  {
    entities, masked, rest := [], [], [];
    var masking: Result<MaskingResult>;
    masking, selected := DetectAndMask(body, groups, patterns, true);
    if masking.Err? {
      return MaskingFailed(masking.error), entities, masked, selected, rest;
    }
    entities, masked := masking.value.entities, masking.value.maskedText;
    if !masking.value.tokenCollisionAvoided {
      return TokenCollision, entities, masked, selected, rest;
    }
    MaskingIsNormalized(body, groups, patterns, selected, entities, masked);
    MaskingIsReadable(Normalize(body).value, groups, patterns, selected, entities, masked);
    var residual: Result<seq<Entity>>;
    residual, rest := DetectEntities(masking.value.maskedText, groups, patterns, true);
    NoEntityIff(masked, groups, patterns, rest);
    if residual.Err? {
      return MaskingFailed(residual.error), entities, masked, selected, rest;
    }
    if residual.value != [] {
      return ResidualPersonalData, entities, masked, selected, rest;
    }
    input := Prepared(referenceId, masking.value.maskedText);
  }

  lemma MaskingIsReadable(n: string, groups: seq<D.LabelGroup>, patterns: seq<D.TextPattern>,
                          selected: seq<Candidate>, entities: seq<Entity>, masked: string)
    requires D.AllNamed(groups) && Readable(n)
    requires IsMasked(n, groups, patterns, true, selected, entities, masked)
    ensures Readable(masked)
  {
    var existing := Existing(n, true);
    forall k | 0 <= k < |entities| ensures IsToken(entities[k].token) && !TooLong(entities[k].token) {
      EntityFacts(n, selected, existing, k);
      assert PrintableAt(Values(n, selected), existing, k);
      PrintableIsNotTooLong(selected[k].entityType, Number(Values(n, selected), existing, k));
    }
    MaskedIsReadable(n, 0, entities);
  }

  lemma MaskingIsNormalized(
    body: string, groups: seq<D.LabelGroup>, patterns: seq<D.TextPattern>,
    selected: seq<Candidate>, entities: seq<Entity>, masked: string)
    requires D.AllNamed(groups) && Normalize(body).Some?
    requires IsMasked(Normalize(body).value, groups, patterns, true, selected, entities, masked)
    ensures Normalize(masked) == Some(masked)
  {
    var n := Normalize(body).value;
    NormalizeIdempotent(body);
    NothingReused(n, selected, Existing(n, true), entities);
    MaskedIsNormalized(n, entities);
  }

  // ---------- the counters ----------

  predicate ReusesReserved(e: Entity, existing: seq<Found>)
    requires IsToken(e.token)
  {
    var highest := Highest(existing, e.entityType);
    highest > 0 && TokenOrdinal(e.token) <= highest
  }

  /** New tokens whose ordinal does not exceed the reserved one of their type. */
  function Reused(entities: seq<Entity>, existing: seq<Found>, n: nat): nat
    requires n <= |entities| && forall k :: 0 <= k < |entities| ==> IsToken(entities[k].token)
  {
    if n == 0 then 0 else Reused(entities, existing, n - 1) + if ReusesReserved(entities[n - 1], existing) then 1 else 0
  }

  method CountReused(existing: seq<Found>, entities: seq<Entity>) returns (reused: int)
    requires forall k :: 0 <= k < |entities| ==> IsToken(entities[k].token)
    ensures reused == Reused(entities, existing, |entities|)
  {
    reused := 0;
    for i := 0 to |entities|
      invariant reused == Reused(entities, existing, i)
    {
      if ReusesReserved(entities[i], existing) {
        reused := reused + 1;
      }
    }
  }

  lemma {:induction false} NoneCounted(entities: seq<Entity>, existing: seq<Found>, n: nat)
    requires n <= |entities| && forall k :: 0 <= k < |entities| ==> IsToken(entities[k].token)
    requires forall k :: 0 <= k < |entities| ==> !ReusesReserved(entities[k], existing)
    ensures Reused(entities, existing, n) == 0
  {
    if n > 0 { NoneCounted(entities, existing, n - 1); }
  }

  lemma NothingReused(text: string, cs: seq<Candidate>, existing: seq<Found>, e: seq<Entity>)
    requires InText(cs, text) && e == Masked(text, cs, existing)
    ensures (forall k :: 0 <= k < |e| ==> IsToken(e[k].token)) && Reused(e, existing, |e|) == 0
  {
    forall k | 0 <= k < |e| ensures IsToken(e[k].token) && !ReusesReserved(e[k], existing) {
      EntityFacts(text, cs, existing, k);
    }
    NoneCounted(e, existing, |e|);
  }

  predicate OccursFrom(s: string, part: string, k: nat)
    decreases |s| - k
  {
    k <= |s| && (OccursAt(s, part, k) || OccursFrom(s, part, k + 1))
  }

  lemma {:induction false} OccursIsContains(s: string, part: string, k: nat)
    ensures OccursFrom(s, part, k) <==> exists i :: k <= i && OccursAt(s, part, i)
    decreases |s| - k
  {
    if k <= |s| { OccursIsContains(s, part, k + 1); }
  }

  /** Tokens found in the source that no longer occur in the masked text. */
  function Lost(text: string, existing: seq<Found>, masked: string, n: nat): nat
    requires n <= |existing| && forall f :: f in existing ==> f.start <= f.end <= |text|
  {
    if n == 0 then 0 else
    assert existing[n - 1] in existing;
    Lost(text, existing, masked, n - 1)
    + if OccursFrom(masked, text[existing[n - 1].start..existing[n - 1].end], 0) then 0 else 1
  }

  method CountFailures(text: string, existing: seq<Found>, masked: string) returns (failures: int)
    requires forall f :: f in existing ==> f.start <= f.end <= |text|
    ensures failures == Lost(text, existing, masked, |existing|)
  {
    failures := 0;
    for i := 0 to |existing|
      invariant failures == Lost(text, existing, masked, i)
    {
      assert existing[i] in existing;
      if !OccursFrom(masked, text[existing[i].start..existing[i].end], 0) {
        failures := failures + 1;
      }
    }
  }

  lemma {:induction false} NothingLost(text: string, cs: seq<Candidate>, existing: seq<Found>, n: nat)
    requires InText(cs, text) && NonEmpty(cs) && Apart(cs) && n <= |existing|
    requires forall f :: f in existing ==> f.start < f.end <= |text|
    requires forall c :: c in cs ==> Clear(c, existing)
    requires Ordered(Masked(text, cs, existing), 0, |text|)
    ensures Lost(text, existing, MaskFrom(text, 0, Masked(text, cs, existing)), n) == 0
  {
    if n > 0 {
      var f := existing[n - 1];
      assert f in existing;
      NothingLost(text, cs, existing, n - 1);
      PreexistingSurvive(text, cs, existing, f);
      OccursIsContains(MaskFrom(text, 0, Masked(text, cs, existing)), text[f.start..f.end], 0);
    }
  }
}
