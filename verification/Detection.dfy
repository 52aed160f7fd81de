/** All candidates of a text: what the label groups and the patterns find, numbered in the order of detection. */
module Detection {
  import opened Options
  import opened MaskTokens
  import opened SpanResolution
  import opened Sorting
  import opened LabelledValues

  datatype LabelGroup = LabelGroup(labels: seq<string>, entityType: EntityType, rules: Rules)

  predicate AllNamed(groups: seq<LabelGroup>) { forall i :: 0 <= i < |groups| ==> Named(groups[i].labels) }

  /** A pattern searched for in the whole text. */
  datatype TextPattern = TextPattern(find: string -> seq<Span>, entityType: EntityType)

  predicate SpanFits(text: string, s: Span) { s.start < s.end <= |text| }

  /** All matches in order; a match lies inside the text and is not empty. */
  function Fitting(text: string, spans: seq<Span>): (fitting: seq<Span>)
    ensures forall s :: s in fitting <==> s in spans && SpanFits(text, s)
  {
    if spans == [] then []
    else (if SpanFits(text, spans[0]) then [spans[0]] else []) + Fitting(text, spans[1..])
  }

  lemma ReaderFits(text: string, line: LineSpan, rules: Rules, end: nat, s: Span)
    requires LineFits(text, line) && ReaderOf(text, line, rules)(end) == Some(s)
    ensures SpanFits(text, s)
  {
  }

  lemma ReadingOf(line: string, labels: seq<string>, read: Reader, s: Span) returns (end: nat)
    requires Named(labels) && s in LineValues(line, labels, read)
    ensures read(end) == Some(s)
  {
    var ss := PerLabel(line, labels, read);
    FlattenAre(ss, |labels|, s);
    var k :| 0 <= k < |labels| && s in ss[k];
    var p := ScanIsSound(line, labels[k], FinderOf(line, labels[k]), read, 0, s);
    end := p + |labels[k]|;
  }

  lemma ValueFits(text: string, lines: seq<LineSpan>, labels: seq<string>, rules: Rules, s: Span)
    requires LinesFit(text, lines) && Named(labels) && s in AllValues(text, lines, labels, rules)
    ensures SpanFits(text, s)
  {
    var ss := PerLine(text, lines, labels, rules);
    FlattenAre(ss, |lines|, s);
    var i :| 0 <= i < |lines| && s in ss[i];
    var end := ReadingOf(lines[i].body, labels, ReaderOf(text, lines[i], rules), s);
    ReaderFits(text, lines[i], rules, end, s);
  }

  // ---------- one detection after the other ----------

  /** What one label group or one pattern finds. */
  datatype Find = Find(spans: seq<Span>, entityType: EntityType)

  function GroupFind(text: string, g: LabelGroup): Find
    requires Named(g.labels)
  {
    SortedLabels(g.labels);
    LineSpansFit(text);
    Find(AllValues(text, LineSpans(text), Sort(g.labels, LongerFirst), g.rules), g.entityType)
  }

  function PatternFind(text: string, p: TextPattern): Find { Find(Fitting(text, p.find(text)), p.entityType) }

  /** The finds in order: the label groups first, then the patterns. */
  function FindsOf(text: string, groups: seq<LabelGroup>, patterns: seq<TextPattern>): (finds: seq<Find>)
    requires AllNamed(groups)
    ensures |finds| == |groups| + |patterns|
  {
    seq(|groups| + |patterns|, i requires 0 <= i < |groups| + |patterns| =>
      if i < |groups| then GroupFind(text, groups[i]) else PatternFind(text, patterns[i - |groups|]))
  }

  predicate IsGroupFind(text: string, g: LabelGroup, find: Find) { Named(g.labels) && find == GroupFind(text, g) }

  ghost predicate FoundByGroups(text: string, groups: seq<LabelGroup>, finds: seq<Find>) {
    && |groups| <= |finds|
    && forall i {:trigger IsGroupFind(text, groups[i], finds[i])} ::
         0 <= i < |groups| ==> IsGroupFind(text, groups[i], finds[i])
  }

  ghost predicate FoundByPatterns(text: string, patterns: seq<TextPattern>, finds: seq<Find>, n: nat) {
    |finds| == n + |patterns| && forall i :: 0 <= i < |patterns| ==> finds[n + i] == PatternFind(text, patterns[i])
  }

  /** The first `n` finds as candidates, numbered through. */
  function Chained(finds: seq<Find>, n: nat): seq<Candidate>
    requires n <= |finds|
  {
    if n == 0 then []
    else
      var before := Chained(finds, n - 1);
      before + Numbered(finds[n - 1].spans, finds[n - 1].entityType, |before|)
  }

  lemma ChainGrows(finds: seq<Find>, n: nat)
    requires n < |finds|
    ensures Chained(finds, n + 1)
      == Chained(finds, n) + Numbered(finds[n].spans, finds[n].entityType, |Chained(finds, n)|)
  {
  }

  /** The candidates of a text. */
  function CandidatesOf(text: string, groups: seq<LabelGroup>, patterns: seq<TextPattern>): seq<Candidate>
    requires AllNamed(groups)
  {
    Chained(FindsOf(text, groups, patterns), |groups| + |patterns|)
  }

  lemma FindIs(text: string, groups: seq<LabelGroup>, patterns: seq<TextPattern>, i: nat)
    requires AllNamed(groups) && i < |groups| + |patterns|
    ensures FindsOf(text, groups, patterns)[i]
      == if i < |groups| then GroupFind(text, groups[i]) else PatternFind(text, patterns[i - |groups|])
  {
  }

  lemma FindsAre(text: string, groups: seq<LabelGroup>, patterns: seq<TextPattern>) returns (finds: seq<Find>)
    requires AllNamed(groups)
    ensures FoundByGroups(text, groups, finds) && FoundByPatterns(text, patterns, finds, |groups|)
    ensures CandidatesOf(text, groups, patterns) == Chained(finds, |finds|)
  {
    finds := FindsOf(text, groups, patterns);
    forall i | 0 <= i < |groups| ensures IsGroupFind(text, groups[i], finds[i]) {
      FindIs(text, groups, patterns, i);
    }
    forall i | 0 <= i < |patterns| ensures finds[|groups| + i] == PatternFind(text, patterns[i]) {
      FindIs(text, groups, patterns, |groups| + i);
    }
  }

  predicate Has(cs: seq<Candidate>, s: Span, t: EntityType) {
    exists k :: 0 <= k < |cs| && cs[k].start == s.start && cs[k].end == s.end && cs[k].entityType == t
  }

  predicate FindHas(find: Find, s: Span, t: EntityType) { find.entityType == t && s in find.spans }

  predicate FindAt(finds: seq<Find>, i: nat, s: Span, t: EntityType) { i < |finds| && FindHas(finds[i], s, t) }

  lemma NumberedHas(before: seq<Candidate>, find: Find, s: Span, t: EntityType)
    ensures Has(before + Numbered(find.spans, find.entityType, |before|), s, t)
      <==> Has(before, s, t) || FindHas(find, s, t)
  {
    var more := Numbered(find.spans, find.entityType, |before|);
    var all := before + more;
    if k :| 0 <= k < |before| && before[k].start == s.start && before[k].end == s.end && before[k].entityType == t {
      assert all[k] == before[k];
    }
    if k :| 0 <= k < |find.spans| && find.spans[k] == s && find.entityType == t {
      assert all[|before| + k] == more[k];
    }
    if k :| 0 <= k < |all| && all[k].start == s.start && all[k].end == s.end && all[k].entityType == t {
      assert k < |before| ==> all[k] == before[k];
      assert k >= |before| ==> all[k] == more[k - |before|] && find.spans[k - |before|] == s;
    }
  }

  lemma {:induction false} ChainedHas(finds: seq<Find>, n: nat, s: Span, t: EntityType)
    requires n <= |finds|
    ensures Has(Chained(finds, n), s, t) <==> exists i: nat :: i < n && FindAt(finds, i, s, t)
  {
    if n > 0 {
      ChainedHas(finds, n - 1, s, t);
      NumberedHas(Chained(finds, n - 1), finds[n - 1], s, t);
      assert FindAt(finds, n - 1, s, t) <==> FindHas(finds[n - 1], s, t);
    }
  }

  ghost predicate GroupFinds(text: string, g: LabelGroup, s: Span) {
    LinesFit(text, LineSpans(text)) &&
    exists i :: 0 <= i < |LineSpans(text)| &&
      Labelled(LineSpans(text)[i].body, g.labels, ReaderOf(text, LineSpans(text)[i], g.rules), s)
  }

  lemma GroupFindIs(text: string, g: LabelGroup, s: Span)
    requires Named(g.labels) && AllBorderless(g.labels)
    ensures s in GroupFind(text, g).spans <==> GroupFinds(text, g, s)
  {
    var lines, sorted := LineSpans(text), Sort(g.labels, LongerFirst);
    SortedLabels(g.labels);
    LineSpansFit(text);
    forall k | 0 <= k < |sorted| ensures Borderless(sorted[k]) {
      assert sorted[k] in g.labels;
    }
    LabelledValuesAre(text, lines, sorted, g.rules, s);
    forall i | 0 <= i < |lines|
      ensures Labelled(lines[i].body, sorted, ReaderOf(text, lines[i], g.rules), s)
        <==> Labelled(lines[i].body, g.labels, ReaderOf(text, lines[i], g.rules), s)
    {
      SameLabels(lines[i].body, sorted, g.labels, ReaderOf(text, lines[i], g.rules), s);
    }
  }

  lemma SameLabels(line: string, a: seq<string>, b: seq<string>, read: Reader, s: Span)
    requires forall name :: name in a <==> name in b
    ensures Labelled(line, a, read, s) <==> Labelled(line, b, read, s)
  {
  }

  ghost predicate GroupHas(text: string, g: LabelGroup, s: Span, t: EntityType) {
    g.entityType == t && GroupFinds(text, g, s)
  }

  predicate PatternHas(text: string, p: TextPattern, s: Span, t: EntityType) {
    p.entityType == t && s in p.find(text) && SpanFits(text, s)
  }

  ghost predicate GroupAt(text: string, groups: seq<LabelGroup>, i: nat, s: Span, t: EntityType) {
    i < |groups| && GroupHas(text, groups[i], s, t)
  }

  predicate PatternAt(text: string, patterns: seq<TextPattern>, i: nat, s: Span, t: EntityType) {
    i < |patterns| && PatternHas(text, patterns[i], s, t)
  }

  lemma GroupFindAt(text: string, groups: seq<LabelGroup>, finds: seq<Find>, i: nat, s: Span, t: EntityType)
    requires FoundByGroups(text, groups, finds) && i < |groups| && AllBorderless(groups[i].labels)
    ensures FindAt(finds, i, s, t) <==> GroupAt(text, groups, i, s, t)
  {
    assert IsGroupFind(text, groups[i], finds[i]);
    GroupFindIs(text, groups[i], s);
  }

  lemma PatternFindAt(
    text: string, patterns: seq<TextPattern>, finds: seq<Find>, n: nat, i: nat, s: Span, t: EntityType)
    requires FoundByPatterns(text, patterns, finds, n) && i < |patterns|
    ensures FindAt(finds, n + i, s, t) <==> PatternAt(text, patterns, i, s, t)
  {
  }

  lemma FindsHave(
    text: string, groups: seq<LabelGroup>, patterns: seq<TextPattern>, finds: seq<Find>, s: Span, t: EntityType)
    requires FoundByGroups(text, groups, finds) && FoundByPatterns(text, patterns, finds, |groups|)
    requires forall i :: 0 <= i < |groups| ==> AllBorderless(groups[i].labels)
    ensures (exists i: nat :: FindAt(finds, i, s, t))
      <==> (exists i: nat :: GroupAt(text, groups, i, s, t)) || (exists i: nat :: PatternAt(text, patterns, i, s, t))
  {
    var n := |groups|;
    forall i: nat | i < n ensures FindAt(finds, i, s, t) <==> GroupAt(text, groups, i, s, t) {
      GroupFindAt(text, groups, finds, i, s, t);
    }
    forall i: nat | i < |patterns| ensures FindAt(finds, n + i, s, t) <==> PatternAt(text, patterns, i, s, t) {
      PatternFindAt(text, patterns, finds, n, i, s, t);
    }
    if i: nat :| FindAt(finds, i, s, t) {
      if i >= n { assert FindAt(finds, n + (i - n), s, t) && PatternAt(text, patterns, i - n, s, t); }
    }
    if i: nat :| PatternAt(text, patterns, i, s, t) { assert FindAt(finds, n + i, s, t); }
  }

  /** The candidates are exactly what is there to find: a span of a type is one if and only if it is the value of a
      label of a group of that type on some line, or a match of a pattern of that type. */
  lemma CandidatesAre(text: string, groups: seq<LabelGroup>, patterns: seq<TextPattern>, s: Span, t: EntityType)
    requires AllNamed(groups) && forall i :: 0 <= i < |groups| ==> AllBorderless(groups[i].labels)
    ensures Has(CandidatesOf(text, groups, patterns), s, t) <==>
      (exists i: nat :: GroupAt(text, groups, i, s, t)) || (exists i: nat :: PatternAt(text, patterns, i, s, t))
  {
    var finds := FindsAre(text, groups, patterns);
    ChainedHas(finds, |finds|, s, t);
    FindsHave(text, groups, patterns, finds, s, t);
  }

  // ---------- what the resolver needs ----------

  /** Not empty, inside the text, and numbered from zero in order of detection. */
  predicate WellDetected(text: string, cs: seq<Candidate>) {
    forall k {:trigger cs[k]} :: 0 <= k < |cs| ==> cs[k].start < cs[k].end <= |text| && cs[k].detectionOrder == k
  }

  lemma OrdersDiffer(text: string, cs: seq<Candidate>, x: Candidate, y: Candidate)
    requires WellDetected(text, cs) && x in cs && y in cs && x.detectionOrder == y.detectionOrder
    ensures x == y
  {
    var i :| 0 <= i < |cs| && cs[i] == x;
    var j :| 0 <= j < |cs| && cs[j] == y;
    assert i == cs[i].detectionOrder && j == cs[j].detectionOrder;
  }

  lemma MoreDetected(text: string, cs: seq<Candidate>, spans: seq<Span>, entityType: EntityType)
    requires WellDetected(text, cs) && forall s :: s in spans ==> SpanFits(text, s)
    ensures WellDetected(text, cs + Numbered(spans, entityType, |cs|))
  {
    var more := Numbered(spans, entityType, |cs|);
    forall k | 0 <= k < |spans| ensures more[k].start < more[k].end <= |text| { assert spans[k] in spans; }
  }

  ghost predicate FindFits(text: string, find: Find) { forall s :: s in find.spans ==> SpanFits(text, s) }

  lemma GroupFindFits(text: string, g: LabelGroup)
    requires Named(g.labels)
    ensures FindFits(text, GroupFind(text, g))
  {
    SortedLabels(g.labels);
    LineSpansFit(text);
    forall s | s in GroupFind(text, g).spans ensures SpanFits(text, s) {
      ValueFits(text, LineSpans(text), Sort(g.labels, LongerFirst), g.rules, s);
    }
  }

  lemma PatternFindFits(text: string, p: TextPattern)
    ensures FindFits(text, PatternFind(text, p))
  {
  }

  lemma AllFit(text: string, groups: seq<LabelGroup>, patterns: seq<TextPattern>, finds: seq<Find>, i: nat)
    requires FoundByGroups(text, groups, finds) && FoundByPatterns(text, patterns, finds, |groups|) && i < |finds|
    ensures FindFits(text, finds[i])
  {
    if i < |groups| {
      assert IsGroupFind(text, groups[i], finds[i]);
      GroupFindFits(text, groups[i]);
    } else {
      PatternFindFits(text, patterns[i - |groups|]);
      assert finds[|groups| + (i - |groups|)] == finds[i];
    }
  }

  lemma {:induction false} ChainedWellDetected(text: string, finds: seq<Find>, n: nat)
    requires n <= |finds| && forall i :: 0 <= i < n ==> FindFits(text, finds[i])
    ensures WellDetected(text, Chained(finds, n))
  {
    if n > 0 {
      ChainedWellDetected(text, finds, n - 1);
      MoreDetected(text, Chained(finds, n - 1), finds[n - 1].spans, finds[n - 1].entityType);
    }
  }

  lemma FoundWellDetected(text: string, groups: seq<LabelGroup>, patterns: seq<TextPattern>, finds: seq<Find>)
    requires FoundByGroups(text, groups, finds) && FoundByPatterns(text, patterns, finds, |groups|)
    ensures WellDetected(text, Chained(finds, |finds|))
  {
    forall i | 0 <= i < |finds| ensures FindFits(text, finds[i]) { AllFit(text, groups, patterns, finds, i); }
    ChainedWellDetected(text, finds, |finds|);
  }

  lemma CandidatesWellDetected(text: string, groups: seq<LabelGroup>, patterns: seq<TextPattern>)
    requires AllNamed(groups)
    ensures WellDetected(text, CandidatesOf(text, groups, patterns))
  {
    var finds := FindsAre(text, groups, patterns);
    FoundWellDetected(text, groups, patterns, finds);
  }

  // ---------- the operation ----------

  method DetectInGroup(
    text: string, g: LabelGroup, order: int, ghost find: Find)
    returns (cs: seq<Candidate>, next: int)
    requires IsGroupFind(text, g, find)
    ensures cs == Numbered(find.spans, find.entityType, order) && next == order + |cs|
  {
    cs, next := LabelledValueCandidates(text, g.labels, g.entityType, order, g.rules);
  }

  method DetectPattern(
    text: string, p: TextPattern, order: int, ghost find: Find)
    returns (cs: seq<Candidate>, next: int)
    requires find == PatternFind(text, p)
    ensures cs == Numbered(find.spans, find.entityType, order) && next == order + |cs|
  {
    cs, next := RegexCandidates(Fitting(text, p.find(text)), p.entityType, order);
  }

  method DetectNextGroup(
    text: string, groups: seq<LabelGroup>, i: nat, before: seq<Candidate>, order: int, ghost finds: seq<Find>)
    returns (cs: seq<Candidate>, next: int)
    requires FoundByGroups(text, groups, finds) && i < |groups| && before == Chained(finds, i) && order == |before|
    ensures cs == Chained(finds, i + 1) && next == |cs|
  {
    cs, next := DetectInGroup(text, groups[i], order, finds[i]);
    ChainGrows(finds, i);
    cs := before + cs;
  }

  method DetectGroups(text: string, groups: seq<LabelGroup>, ghost finds: seq<Find>)
    returns (cs: seq<Candidate>, order: int)
    requires FoundByGroups(text, groups, finds)
    ensures cs == Chained(finds, |groups|) && order == |cs|
  {
    cs, order := [], 0;
    for i := 0 to |groups|
      invariant cs == Chained(finds, i) && order == |cs|
    {
      cs, order := DetectNextGroup(text, groups, i, cs, order, finds);
    }
  }

  method DetectPatterns(
    text: string, patterns: seq<TextPattern>, before: seq<Candidate>, ghost finds: seq<Find>, ghost n: nat)
    returns (cs: seq<Candidate>)
    requires FoundByPatterns(text, patterns, finds, n) && before == Chained(finds, n)
    ensures cs == Chained(finds, |finds|)
  {
    cs := before;
    var order := |cs|;
    for i := 0 to |patterns|
      invariant cs == Chained(finds, n + i) && order == |cs|
    {
      var more: seq<Candidate>;
      ChainGrows(finds, n + i);
      more, order := DetectPattern(text, patterns[i], order, finds[n + i]);
      cs := cs + more;
    }
  }

  method DetectCandidates(
    text: string, groups: seq<LabelGroup>, patterns: seq<TextPattern>)
    returns (cs: seq<Candidate>)
    requires AllNamed(groups)
    ensures cs == CandidatesOf(text, groups, patterns) && WellDetected(text, cs)
  {
    ghost var finds := FindsAre(text, groups, patterns);
    var found, _ := DetectGroups(text, groups, finds);
    cs := DetectPatterns(text, patterns, found, finds, |groups|);
    CandidatesWellDetected(text, groups, patterns);
  }
}
