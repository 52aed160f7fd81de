/**
 Splitting a contract into clauses, recognised non-clause sections and unclassified stretches, with exact
 offsets.  What a paragraph's first line announces is a parameter.
*/
module ClauseSplit {
  import opened TextLayout

  /** What detect_marker and detect_non_clause_type make of a paragraph's first line. */
  datatype Kind = ClauseStart(marker: string) | NonClauseStart(sectionType: string) | Plain

  type Classifier = string -> Kind

  /** The stretch a section takes of the text. */
  datatype Extent = Extent(start: nat, end: nat, startLine: nat, endLine: nat, text: string)

  datatype Clause = Clause(ordinal: nat, marker: string, extent: Extent)

  datatype Section = Section(sectionType: string, extent: Extent)

  datatype Split = Split(clauses: seq<Clause>, nonClauses: seq<Section>, unclassified: seq<Section>)

  const UNCLASSIFIED := "unclassified"

  /** A section of the result, by the list that holds it. */
  datatype Home = InClauses(i: nat) | InNonClauses(i: nat) | InUnclassified(i: nat)

  predicate Has(r: Split, h: Home) {
    match h
    case InClauses(i) => i < |r.clauses|
    case InNonClauses(i) => i < |r.nonClauses|
    case InUnclassified(i) => i < |r.unclassified|
  }

  function ExtentOf(r: Split, h: Home): Extent
    requires Has(r, h)
  {
    match h
    case InClauses(i) => r.clauses[i].extent
    case InNonClauses(i) => r.nonClauses[i].extent
    case InUnclassified(i) => r.unclassified[i].extent
  }

  // ---------- what a split has to satisfy ----------

  /** The section runs from the start of one paragraph to the end of the same or a later one. */
  predicate Spans(text: string, ps: seq<Paragraph>, a: nat, b: nat, e: Extent) {
    && a <= b < |ps| && e.start == ps[a].start && e.end == ps[b].end
    && e.startLine == ps[a].startLine && e.endLine == ps[b].endLine
    && e.start < e.end <= |text| && e.text == text[e.start..e.end]
  }

  ghost predicate Snug(text: string, ps: seq<Paragraph>, e: Extent) { exists a, b :: Spans(text, ps, a, b, e) }

  predicate Apart(r: Split, h: Home, g: Home)
    requires Has(r, h) && Has(r, g)
  {
    ExtentOf(r, h).end <= ExtentOf(r, g).start || ExtentOf(r, g).end <= ExtentOf(r, h).start
  }

  predicate Holds(r: Split, h: Home, i: int) { Has(r, h) && ExtentOf(r, h).start <= i < ExtentOf(r, h).end }

  /** Sections are slices of the text made of whole paragraphs, no two overlap, and every character that is not white
      space is in one. */
  ghost predicate Tiles(text: string, ps: seq<Paragraph>, r: Split, space: Spacing) {
    && (forall h {:trigger ExtentOf(r, h)} :: Has(r, h) ==> Snug(text, ps, ExtentOf(r, h)))
    && (forall h, g {:trigger Apart(r, h, g)} :: Has(r, h) && Has(r, g) && h != g ==> Apart(r, h, g))
    && (forall i :: 0 <= i < |text| && !space(text[i]) ==> exists h :: Holds(r, h, i))
  }

  predicate Separated(text: string, a: Section, b: Section, space: Spacing) {
    a.extent.end <= b.extent.start <= |text| && !BlankText(text[a.extent.end..b.extent.start], space)
  }

  /** Each list runs forward through the text, clauses are numbered from one, and what lies between two consecutive
      unclassified sections is never blank. */
  predicate Ordered(text: string, r: Split, space: Spacing) {
    && (forall i, j :: 0 <= i < j < |r.clauses| ==> r.clauses[i].extent.end <= r.clauses[j].extent.start)
    && (forall i, j :: 0 <= i < j < |r.nonClauses| ==> r.nonClauses[i].extent.end <= r.nonClauses[j].extent.start)
    && (forall i :: 0 <= i < |r.clauses| ==> r.clauses[i].ordinal == i + 1)
    && (forall i :: 0 <= i < |r.unclassified| - 1 ==> Separated(text, r.unclassified[i], r.unclassified[i + 1], space))
  }

  /** The section is of the kind the paragraph's first line announces. */
  predicate Fits(r: Split, h: Home, p: Paragraph, classify: Classifier) {
    && p.lines != [] && Has(r, h)
    && match classify(p.lines[0].text)
       case ClauseStart(marker) => h.InClauses? && r.clauses[h.i].marker == marker
       case NonClauseStart(sectionType) => h.InNonClauses? && r.nonClauses[h.i].sectionType == sectionType
       case Plain => h.InUnclassified? && r.unclassified[h.i].sectionType == UNCLASSIFIED
  }

  /** The paragraph lies in a section of its kind, and is all of it unless that section is unclassified. */
  predicate Settled(r: Split, h: Home, p: Paragraph, classify: Classifier) {
    && Fits(r, h, p, classify)
    && ExtentOf(r, h).start <= p.start && p.end <= ExtentOf(r, h).end
    && (!h.InUnclassified? ==> ExtentOf(r, h).start == p.start && ExtentOf(r, h).end == p.end)
  }

  ghost predicate AllSettled(ps: seq<Paragraph>, r: Split, classify: Classifier) {
    forall j :: 0 <= j < |ps| ==> HasHome(r, ps[j], classify)
  }

  ghost predicate HasHome(r: Split, p: Paragraph, classify: Classifier) { exists h :: Settled(r, h, p, classify) }

  // ---------- the loop's bookkeeping ----------

  /** Which section each paragraph went to, and the paragraphs of each section. */
  datatype Plan = Plan(homes: seq<Home>, cs: seq<nat>, ns: seq<nat>, us: seq<(nat, nat)>)

  predicate Matches(r: Split, plan: Plan) {
    |plan.cs| == |r.clauses| && |plan.ns| == |r.nonClauses| && |plan.us| == |r.unclassified|
  }

  function First(r: Split, plan: Plan, h: Home): nat
    requires Matches(r, plan) && Has(r, h)
  {
    match h
    case InClauses(i) => plan.cs[i]
    case InNonClauses(i) => plan.ns[i]
    case InUnclassified(i) => plan.us[i].0
  }

  function Last(r: Split, plan: Plan, h: Home): nat
    requires Matches(r, plan) && Has(r, h)
  {
    match h
    case InClauses(i) => plan.cs[i]
    case InNonClauses(i) => plan.ns[i]
    case InUnclassified(i) => plan.us[i].1
  }

  predicate Sits(text: string, ps: seq<Paragraph>, r: Split, plan: Plan, h: Home)
    requires Matches(r, plan) && Has(r, h)
  {
    && Spans(text, ps, First(r, plan, h), Last(r, plan, h), ExtentOf(r, h))
    && Last(r, plan, h) < |plan.homes|
    && forall j :: First(r, plan, h) <= j <= Last(r, plan, h) ==> plan.homes[j] == h
  }

  predicate Housed(ps: seq<Paragraph>, r: Split, plan: Plan, classify: Classifier, j: int)
    requires Matches(r, plan) && 0 <= j < |plan.homes| <= |ps|
  {
    && Fits(r, plan.homes[j], ps[j], classify)
    && First(r, plan, plan.homes[j]) <= j <= Last(r, plan, plan.homes[j])
  }

  ghost predicate Planned(text: string, ps: seq<Paragraph>, r: Split, plan: Plan, classify: Classifier) {
    && Matches(r, plan) && |plan.homes| <= |ps|
    && (forall h {:trigger ExtentOf(r, h)} {:trigger Sits(text, ps, r, plan, h)} ::
        Has(r, h) ==> Sits(text, ps, r, plan, h))
    && (forall j {:trigger Housed(ps, r, plan, classify, j)} ::
        0 <= j < |plan.homes| ==> Housed(ps, r, plan, classify, j))
  }

  /** Paragraphs are taken in order, and two unclassified sections in a row have another paragraph between them. */
  predicate Forward(r: Split, plan: Plan) {
    && (forall i, j :: 0 <= i < j < |plan.cs| ==> plan.cs[i] < plan.cs[j])
    && (forall i, j :: 0 <= i < j < |plan.ns| ==> plan.ns[i] < plan.ns[j])
    && (forall i :: 0 <= i < |plan.us| - 1 ==> plan.us[i].1 + 1 < plan.us[i + 1].0)
    && (forall i :: 0 <= i < |r.clauses| ==> r.clauses[i].ordinal == i + 1)
  }

  predicate Same(r: Split, plan: Plan, r': Split, plan': Plan, g: Home)
    requires Matches(r, plan) && Matches(r', plan')
  {
    && Has(r', g) == Has(r, g)
    && (Has(r, g) ==>
          && ExtentOf(r', g) == ExtentOf(r, g)
          && First(r', plan', g) == First(r, plan, g)
          && Last(r', plan', g) == Last(r, plan, g))
  }

  /** Everything but section `h` is as before, and the next paragraph went to `h`. */
  ghost predicate Grows(r: Split, plan: Plan, r': Split, plan': Plan, h: Home)
    requires Matches(r, plan) && Matches(r', plan')
  {
    && plan'.homes == plan.homes + [h]
    && (forall g {:trigger Same(r, plan, r', plan', g)} :: g != h ==> Same(r, plan, r', plan', g))
    && (forall g, p, classify {:trigger Fits(r', g, p, classify)} ::
        Fits(r, g, p, classify) ==> Fits(r', g, p, classify))
  }

  lemma GrowthIsPlanned(
    text: string, ps: seq<Paragraph>, r: Split, plan: Plan, r': Split, plan': Plan, h: Home, classify: Classifier)
    requires Planned(text, ps, r, plan, classify) && |plan.homes| < |ps|
    requires Matches(r', plan') && Has(r', h) && Grows(r, plan, r', plan', h)
    requires Sits(text, ps, r', plan', h) && Last(r', plan', h) == |plan.homes|
    requires Has(r, h) ==> First(r', plan', h) == First(r, plan, h) && Last(r, plan, h) < |plan.homes|
    requires Fits(r', h, ps[|plan.homes|], classify)
    ensures Planned(text, ps, r', plan', classify)
  {
    forall g | Has(r', g) ensures Sits(text, ps, r', plan', g) {
      if g != h { assert Same(r, plan, r', plan', g); assert Sits(text, ps, r, plan, g); }
    }
    forall j | 0 <= j < |plan'.homes| ensures Housed(ps, r', plan', classify, j) {
      if j < |plan.homes| {
        assert Housed(ps, r, plan, classify, j);
        var g := plan.homes[j];
        assert plan'.homes[j] == g && Fits(r', g, ps[j], classify);
        if g != h { assert Same(r, plan, r', plan', g); }
      }
    }
  }

  function ParagraphExtent(text: string, p: Paragraph): Extent
    requires p.start <= p.end <= |text|
  {
    Extent(p.start, p.end, p.startLine, p.endLine, text[p.start..p.end])
  }

  predicate Arrives(text: string, ps: seq<Paragraph>, n: nat, kind: Kind, classify: Classifier, space: Spacing) {
    && n < |ps| && Bounded(text, ps[n], space)
    && ps[n].lines != [] && classify(ps[n].lines[0].text) == kind
  }

  lemma ClauseAdded(
    text: string, ps: seq<Paragraph>, r: Split, plan: Plan, c: Clause, classify: Classifier, space: Spacing)
    requires Layout(text, ps, space) && Planned(text, ps, r, plan, classify) && Forward(r, plan)
    requires Arrives(text, ps, |plan.homes|, ClauseStart(c.marker), classify, space)
    requires c.ordinal == |r.clauses| + 1 && c.extent == ParagraphExtent(text, ps[|plan.homes|])
    ensures var n := |plan.homes|;
            var r', plan' := r.(clauses := r.clauses + [c]),
              plan.(homes := plan.homes + [InClauses(|r.clauses|)], cs := plan.cs + [n]);
            Planned(text, ps, r', plan', classify) && Forward(r', plan')
  {
    var n := |plan.homes|;
    var h := InClauses(|r.clauses|);
    var r', plan' := r.(clauses := r.clauses + [c]), plan.(homes := plan.homes + [h], cs := plan.cs + [n]);
    forall g | g != h ensures Same(r, plan, r', plan', g) { }
    GrowthIsPlanned(text, ps, r, plan, r', plan', h, classify);
    forall i | 0 <= i < |plan.cs| ensures plan.cs[i] < n { assert Sits(text, ps, r, plan, InClauses(i)); }
  }

  lemma NonClauseAdded(
    text: string, ps: seq<Paragraph>, r: Split, plan: Plan, s: Section, classify: Classifier, space: Spacing)
    requires Layout(text, ps, space) && Planned(text, ps, r, plan, classify) && Forward(r, plan)
    requires Arrives(text, ps, |plan.homes|, NonClauseStart(s.sectionType), classify, space)
    requires s.extent == ParagraphExtent(text, ps[|plan.homes|])
    ensures var n := |plan.homes|;
            var r', plan' := r.(nonClauses := r.nonClauses + [s]),
              plan.(homes := plan.homes + [InNonClauses(|r.nonClauses|)], ns := plan.ns + [n]);
            Planned(text, ps, r', plan', classify) && Forward(r', plan')
  {
    var n := |plan.homes|;
    var h := InNonClauses(|r.nonClauses|);
    var r', plan' := r.(nonClauses := r.nonClauses + [s]), plan.(homes := plan.homes + [h], ns := plan.ns + [n]);
    forall g | g != h ensures Same(r, plan, r', plan', g) { }
    GrowthIsPlanned(text, ps, r, plan, r', plan', h, classify);
    forall i | 0 <= i < |plan.ns| ensures plan.ns[i] < n { assert Sits(text, ps, r, plan, InNonClauses(i)); }
  }

  lemma UnclassifiedAdded(
    text: string, ps: seq<Paragraph>, r: Split, plan: Plan, s: Section, classify: Classifier, space: Spacing)
    requires Layout(text, ps, space) && Planned(text, ps, r, plan, classify) && Forward(r, plan)
    requires plan.us != [] ==> plan.us[|plan.us| - 1].1 + 1 < |plan.homes|
    requires Arrives(text, ps, |plan.homes|, Plain, classify, space)
    requires s == Section(UNCLASSIFIED, ParagraphExtent(text, ps[|plan.homes|]))
    ensures var n := |plan.homes|;
            var r', plan' := r.(unclassified := r.unclassified + [s]),
              plan.(homes := plan.homes + [InUnclassified(|r.unclassified|)], us := plan.us + [(n, n)]);
            Planned(text, ps, r', plan', classify) && Forward(r', plan')
  {
    var n := |plan.homes|;
    var h := InUnclassified(|r.unclassified|);
    var r', plan' := r.(unclassified := r.unclassified + [s]),
      plan.(homes := plan.homes + [h], us := plan.us + [(n, n)]);
    forall g | g != h ensures Same(r, plan, r', plan', g) { }
    GrowthIsPlanned(text, ps, r, plan, r', plan', h, classify);
  }

  /** The last unclassified section, made to reach to the end of the paragraph. */
  function Reaching(text: string, s: Section, p: Paragraph): Section
    requires s.extent.start <= p.end <= |text|
  {
    s.(extent := Extent(s.extent.start, p.end, s.extent.startLine, p.endLine, text[s.extent.start..p.end]))
  }

  lemma UnclassifiedMerged(text: string, ps: seq<Paragraph>, r: Split, plan: Plan, classify: Classifier, space: Spacing)
    requires Layout(text, ps, space) && Planned(text, ps, r, plan, classify) && Forward(r, plan)
    requires plan.us != [] && plan.us[|plan.us| - 1].1 + 1 == |plan.homes|
    requires r.unclassified[|plan.us| - 1].sectionType == UNCLASSIFIED
    requires Arrives(text, ps, |plan.homes|, Plain, classify, space)
    ensures var n, i := |plan.homes|, |plan.us| - 1;
            && r.unclassified[i].extent.end <= ps[n].start && r.unclassified[i].extent.start <= ps[n].end
            && var r', plan' := r.(unclassified := r.unclassified[i := Reaching(text, r.unclassified[i], ps[n])]),
                                plan.(homes := plan.homes + [InUnclassified(i)], us := plan.us[i := (plan.us[i].0, n)]);
               Planned(text, ps, r', plan', classify) && Forward(r', plan')
  {
    var n, i := |plan.homes|, |plan.us| - 1;
    var h := InUnclassified(i);
    assert Sits(text, ps, r, plan, h);
    var r' := r.(unclassified := r.unclassified[i := Reaching(text, r.unclassified[i], ps[n])]);
    var plan' := plan.(homes := plan.homes + [h], us := plan.us[i := (plan.us[i].0, n)]);
    forall g | g != h ensures Same(r, plan, r', plan', g) { }
    GrowthIsPlanned(text, ps, r, plan, r', plan', h, classify);
  }

  // ---------- the end of the loop ----------

  lemma SectionsAreApart(
    text: string, ps: seq<Paragraph>, r: Split, plan: Plan, h: Home, g: Home, classify: Classifier, space: Spacing)
    requires Layout(text, ps, space) && Planned(text, ps, r, plan, classify)
    requires Has(r, h) && Has(r, g) && h != g
    ensures Apart(r, h, g)
    ensures First(r, plan, h) < First(r, plan, g) ==> ExtentOf(r, h).end <= ExtentOf(r, g).start
  {
    assert Sits(text, ps, r, plan, h) && Sits(text, ps, r, plan, g);
    var a, b, c, d := First(r, plan, h), Last(r, plan, h), First(r, plan, g), Last(r, plan, g);
    assert plan.homes[a] == h && plan.homes[c] == g;
  }

  lemma PlanTiles(text: string, ps: seq<Paragraph>, r: Split, plan: Plan, classify: Classifier, space: Spacing)
    requires Layout(text, ps, space) && Planned(text, ps, r, plan, classify) && |plan.homes| == |ps|
    ensures Tiles(text, ps, r, space)
  {
    forall h | Has(r, h) ensures Snug(text, ps, ExtentOf(r, h)) {
      assert Sits(text, ps, r, plan, h);
      assert Spans(text, ps, First(r, plan, h), Last(r, plan, h), ExtentOf(r, h));
    }
    forall h, g | Has(r, h) && Has(r, g) && h != g ensures Apart(r, h, g) {
      SectionsAreApart(text, ps, r, plan, h, g, classify, space);
    }
    forall i | 0 <= i < |text| && !space(text[i]) ensures exists h :: Holds(r, h, i) {
      assert InParagraph(ps, i);
      var j :| 0 <= j < |ps| && ps[j].start <= i < ps[j].end;
      HomeSettles(text, ps, r, plan, j, classify, space);
      assert Holds(r, plan.homes[j], i);
    }
  }

  lemma HomeSettles(
    text: string, ps: seq<Paragraph>, r: Split, plan: Plan, j: nat, classify: Classifier, space: Spacing)
    requires Layout(text, ps, space) && Planned(text, ps, r, plan, classify) && j < |plan.homes| == |ps|
    ensures Settled(r, plan.homes[j], ps[j], classify) && HasHome(r, ps[j], classify)
  {
    var h := plan.homes[j];
    assert Housed(ps, r, plan, classify, j);
    assert Sits(text, ps, r, plan, h) && Bounded(text, ps[j], space);
    var a, b := First(r, plan, h), Last(r, plan, h);
    assert Bounded(text, ps[a], space) && Bounded(text, ps[b], space);
    assert Settled(r, h, ps[j], classify);
  }

  lemma PlanIsOrdered(text: string, ps: seq<Paragraph>, r: Split, plan: Plan, classify: Classifier, space: Spacing)
    requires Layout(text, ps, space) && Planned(text, ps, r, plan, classify) && Forward(r, plan)
    ensures Ordered(text, r, space)
  {
    forall i, j | 0 <= i < j < |r.clauses| ensures r.clauses[i].extent.end <= r.clauses[j].extent.start {
      SectionsAreApart(text, ps, r, plan, InClauses(i), InClauses(j), classify, space);
    }
    forall i, j | 0 <= i < j < |r.nonClauses| ensures r.nonClauses[i].extent.end <= r.nonClauses[j].extent.start {
      SectionsAreApart(text, ps, r, plan, InNonClauses(i), InNonClauses(j), classify, space);
    }
    forall i | 0 <= i < |r.unclassified| - 1 ensures Separated(text, r.unclassified[i], r.unclassified[i + 1], space) {
      assert Sits(text, ps, r, plan, InUnclassified(i)) && Sits(text, ps, r, plan, InUnclassified(i + 1));
      BlankBetween(text, ps, plan.us[i].1, plan.us[i + 1].0, space);
    }
  }

  /** A paragraph has only one section: two that both hold it are the same. */
  lemma HomeIsUnique(
    text: string, ps: seq<Paragraph>, r: Split, p: Paragraph, h: Home, g: Home, classify: Classifier, space: Spacing)
    requires Tiles(text, ps, r, space) && p.start < p.end
    requires Settled(r, h, p, classify) && Holds(r, g, p.start)
    ensures h == g
  {
    assert h != g ==> Apart(r, h, g);
  }

  // ---------- the operations ----------

  predicate Appended(text: string, sections: seq<Section>, p: Paragraph, result: seq<Section>, space: Spacing)
    requires p.start <= p.end <= |text|
    requires sections != [] ==> sections[|sections| - 1].extent.start <= sections[|sections| - 1].extent.end <= p.start
  {
    var last := |sections| - 1;
    if sections != [] && BlankText(text[sections[last].extent.end..p.start], space)
    then result == sections[last := Reaching(text, sections[last], p)]
    else result == sections + [Section(UNCLASSIFIED, ParagraphExtent(text, p))]
  }

  /** append_unclassified: reach on from the last section when only white space lies between. */
  method AppendUnclassified(
    sections: seq<Section>, p: Paragraph, text: string, space: Spacing)
    returns (result: seq<Section>)
    requires p.start <= p.end <= |text|
    requires sections != [] ==> sections[|sections| - 1].extent.start <= sections[|sections| - 1].extent.end <= p.start
    ensures Appended(text, sections, p, result, space)
  {
    result := sections;
    if sections != [] {
      var previous := sections[|sections| - 1];
      var between := text[previous.extent.end..p.start];
      if BlankText(between, space) {
        var extent := previous.extent.(text := text[previous.extent.start..p.end], end := p.end, endLine := p.endLine);
        result := result[|result| - 1 := previous.(extent := extent)];
        return;
      }
    }
    result := result + [Section(UNCLASSIFIED, ParagraphExtent(text, p))];
  }

  lemma LastUnclassified(text: string, ps: seq<Paragraph>, r: Split, plan: Plan, classify: Classifier, space: Spacing)
    requires Layout(text, ps, space) && Planned(text, ps, r, plan, classify) && |plan.homes| < |ps|
    requires r.unclassified != []
    ensures var last, n := r.unclassified[|r.unclassified| - 1], |plan.homes|;
            && last.extent.start <= last.extent.end <= ps[n].start <= ps[n].end <= |text|
            && (BlankText(text[last.extent.end..ps[n].start], space) <==> plan.us[|plan.us| - 1].1 + 1 == n)
            && (plan.us[|plan.us| - 1].1 + 1 == n ==> last.sectionType == UNCLASSIFIED)
            && plan.us[|plan.us| - 1].1 + 1 <= n
  {
    var i, n := |r.unclassified| - 1, |plan.homes|;
    var h := InUnclassified(i);
    assert Sits(text, ps, r, plan, h) && Bounded(text, ps[n], space);
    BlankBetween(text, ps, plan.us[i].1, n, space);
    assert plan.homes[plan.us[i].1] == h;
    assert Housed(ps, r, plan, classify, plan.us[i].1);
  }

  lemma UnclassifiedAppended(
    text: string, ps: seq<Paragraph>, r: Split, plan: Plan, sections: seq<Section>, classify: Classifier,
    space: Spacing)
    returns (plan': Plan)
    requires Layout(text, ps, space) && Planned(text, ps, r, plan, classify) && Forward(r, plan)
    requires Arrives(text, ps, |plan.homes|, Plain, classify, space)
    requires var last, p := |r.unclassified| - 1, ps[|plan.homes|];
             && (last >= 0 ==> r.unclassified[last].extent.start <= r.unclassified[last].extent.end <= p.start)
             && Appended(text, r.unclassified, p, sections, space)
    ensures Planned(text, ps, r.(unclassified := sections), plan', classify)
    ensures Forward(r.(unclassified := sections), plan')
    ensures |plan'.homes| == |plan.homes| + 1
  {
    var i, n := |plan.us| - 1, |plan.homes|;
    if i >= 0 { LastUnclassified(text, ps, r, plan, classify, space); }
    if i >= 0 && plan.us[i].1 + 1 == n {
      UnclassifiedMerged(text, ps, r, plan, classify, space);
      plan' := plan.(homes := plan.homes + [InUnclassified(i)], us := plan.us[i := (plan.us[i].0, n)]);
    } else {
      UnclassifiedAdded(text, ps, r, plan, Section(UNCLASSIFIED, ParagraphExtent(text, ps[n])), classify, space);
      plan' := plan.(homes := plan.homes + [InUnclassified(i + 1)], us := plan.us + [(n, n)]);
    }
  }

  predicate AnyClauseStart(ps: seq<Paragraph>, classify: Classifier) {
    exists j :: 0 <= j < |ps| && ps[j].lines != [] && classify(ps[j].lines[0].text).ClauseStart?
  }

  lemma ClausesIff(text: string, ps: seq<Paragraph>, r: Split, plan: Plan, classify: Classifier)
    requires Planned(text, ps, r, plan, classify) && |plan.homes| == |ps|
    ensures r.clauses != [] <==> AnyClauseStart(ps, classify)
  {
    if r.clauses != [] {
      assert Sits(text, ps, r, plan, InClauses(0));
      assert Housed(ps, r, plan, classify, plan.cs[0]);
    }
    if AnyClauseStart(ps, classify) {
      var j :| 0 <= j < |ps| && ps[j].lines != [] && classify(ps[j].lines[0].text).ClauseStart?;
      assert Housed(ps, r, plan, classify, j);
    }
  }

  lemma LinesAreNumbered(text: string, lines: seq<Line>)
    requires LinesOf(text, lines)
    ensures Numbered(lines)
  {
    forall k | 0 <= k < |lines| ensures lines[k].number == k + 1 { assert LineAt(text, lines[k], k); }
  }

  /** The paragraph list the splitter works through, with each paragraph's own text. */
  lemma ParagraphArrives(
    text: string, lines: seq<Line>, ps: seq<Paragraph>, n: nat, classify: Classifier, space: Spacing)
    requires LinesOf(text, lines) && ParagraphsUpTo(lines, ps, |lines|, space) && n < |ps|
    ensures ps[n].lines != [] && Arrives(text, ps, n, classify(ps[n].lines[0].text), classify, space)
    ensures Join(ps[n].lines) == text[ps[n].start..ps[n].end]
  {
    assert ParagraphAt(lines, ps[n], space);
    ParagraphIsBounded(text, lines, ps[n], space);
  }

  method SplitText(text: string, classify: Classifier, space: Spacing)
    returns (r: Split, noClauseMarker: bool, ghost lines: seq<Line>, ghost ps: seq<Paragraph>)
    requires space('\n')
    ensures LinesOf(text, lines) && ParagraphsUpTo(lines, ps, |lines|, space)
    ensures Tiles(text, ps, r, space)
    ensures Ordered(text, r, space)
    ensures AllSettled(ps, r, classify)
    ensures noClauseMarker <==> !AnyClauseStart(ps, classify)
  {
    var textLines := BuildLines(text);
    LinesAreNumbered(text, textLines);
    var paragraphs := BuildParagraphs(textLines, space);
    ParagraphsLayOutTheText(text, textLines, paragraphs, space);
    lines, ps := textLines, paragraphs;
    r := Split([], [], []);
    ghost var plan := Plan([], [], [], []);
    for n := 0 to |paragraphs|
      invariant Planned(text, paragraphs, r, plan, classify) && Forward(r, plan) && |plan.homes| == n
    {
      var p := paragraphs[n];
      ParagraphArrives(text, textLines, paragraphs, n, classify, space);
      match classify(p.lines[0].text)
      case ClauseStart(marker) =>
        var c := Clause(|r.clauses| + 1, marker, ParagraphExtent(text, p));
        ClauseAdded(text, paragraphs, r, plan, c, classify, space);
        plan := plan.(homes := plan.homes + [InClauses(|r.clauses|)], cs := plan.cs + [n]);
        r := r.(clauses := r.clauses + [c]);
      case NonClauseStart(sectionType) =>
        var s := Section(sectionType, Extent(p.start, p.end, p.startLine, p.endLine, Join(p.lines)));
        NonClauseAdded(text, paragraphs, r, plan, s, classify, space);
        plan := plan.(homes := plan.homes + [InNonClauses(|r.nonClauses|)], ns := plan.ns + [n]);
        r := r.(nonClauses := r.nonClauses + [s]);
      case Plain =>
        if r.unclassified != [] { LastUnclassified(text, paragraphs, r, plan, classify, space); }
        var sections := AppendUnclassified(r.unclassified, p, text, space);
        plan := UnclassifiedAppended(text, paragraphs, r, plan, sections, classify, space);
        r := r.(unclassified := sections);
    }
    PlanTiles(text, paragraphs, r, plan, classify, space);
    forall j | 0 <= j < |paragraphs| ensures HasHome(r, paragraphs[j], classify) {
      HomeSettles(text, paragraphs, r, plan, j, classify, space);
    }
    PlanIsOrdered(text, paragraphs, r, plan, classify, space);
    ClausesIff(text, paragraphs, r, plan, classify);
    noClauseMarker := r.clauses == [];
  }
}
