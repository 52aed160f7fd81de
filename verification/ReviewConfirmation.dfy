/** When a review can be confirmed, what can_confirm has to do with it, and what a second confirmation answers. */
module ReviewConfirmation {
  import opened Options
  import opened Sorting
  import opened TextLayout
  import opened ReviewState
  import opened ReviewRuns
  import Decimal

  // ---------- when a confirmation succeeds ----------

  lemma {:induction false} CountNone<T>(s: seq<T>, f: T -> bool)
    ensures Count(s, f) == 0 <==> forall i :: 0 <= i < |s| ==> !f(s[i])
  {
    if s != [] {
      CountNone(s[..|s| - 1], f);
      assert forall i :: 0 <= i < |s| - 1 ==> s[..|s| - 1][i] == s[i];
    }
  }

  /** Counts of a condition and of a stronger one agree exactly when the first never holds without the second. */
  lemma {:induction false} CountsAgree<T>(s: seq<T>, f: T -> bool, g: T -> bool)
    requires forall i :: 0 <= i < |s| && g(s[i]) ==> f(s[i])
    ensures Count(s, g) <= Count(s, f)
    ensures Count(s, f) == Count(s, g) <==> forall i :: 0 <= i < |s| && f(s[i]) ==> g(s[i])
  {
    if s != [] {
      assert forall i :: 0 <= i < |s| - 1 ==> s[..|s| - 1][i] == s[i];
      CountsAgree(s[..|s| - 1], f, g);
    }
  }

  predicate NoFailures(r: Review) { forall k :: 0 <= k < |r.pages| ==> !Failed(r.pages[k].sheet) }

  predicate AllReviewed(r: Review) {
    forall k :: 0 <= k < |r.pages| && IsRequired(r.pages[k]) ==> IsReviewed(r.pages[k])
  }

  /** can_confirm says: nothing failed, and every page that has to be is reviewed or the extraction asks for no
      review. */
  lemma CanConfirmMeans(r: Review)
    requires r.status == ReviewRequired
    ensures CanConfirm(r) <==> NoFailures(r) && (!r.requiresUserReview || AllReviewed(r))
  {
    CountNone(r.pages, IsFailed);
    CountsAgree(r.pages, IsRequired, IsReviewed);
  }

  /** The review status, in terms of the pages. */
  lemma ReviewStatusMeans(r: Review)
    requires r.status == ReviewRequired
    ensures ReviewStatusOf(r) == NoReviewRequired <==> forall k :: 0 <= k < |r.pages| ==> !IsRequired(r.pages[k])
    ensures ReviewStatusOf(r) == ReadyToConfirm <==>
      AllReviewed(r) && exists k :: 0 <= k < |r.pages| && IsRequired(r.pages[k])
    ensures ReviewStatusOf(r) == PartiallyReviewed <==>
      !AllReviewed(r) && exists k :: 0 <= k < |r.pages| && IsReviewed(r.pages[k])
  {
    CountNone(r.pages, IsRequired);
    CountNone(r.pages, IsReviewed);
    CountsAgree(r.pages, IsRequired, IsReviewed);
  }

  function FinalLength(p: Page): nat { if FinalText(p).Some? then |FinalText(p).value| else 0 }

  function SumLengths(pages: seq<Page>): nat {
    if pages == [] then 0 else FinalLength(pages[0]) + SumLengths(pages[1..])
  }

  lemma {:induction false} SumAppend(pages: seq<Page>, p: Page)
    ensures SumLengths(pages + [p]) == SumLengths(pages) + FinalLength(p)
  {
    if pages == [] {
      assert pages + [p] == [p];
    } else {
      SumAppend(pages[1..], p);
      assert (pages + [p])[1..] == pages[1..] + [p];
    }
  }

  lemma {:induction false} SumPlaced(p: Page, pages: seq<Page>)
    ensures SumLengths(Place(p, pages, PageBefore)) == FinalLength(p) + SumLengths(pages)
  {
    if pages != [] && !PageBefore(p, pages[0]) { SumPlaced(p, pages[1..]); }
  }

  lemma {:induction false} SumSorted(pages: seq<Page>)
    ensures SumLengths(Sort(pages, PageBefore)) == SumLengths(pages)
  {
    if pages != [] {
      SumSorted(pages[1..]);
      SumPlaced(pages[0], Sort(pages[1..], PageBefore));
    }
  }

  lemma {:induction false} SnapshotLength(pages: seq<Page>, space: Spacing)
    requires SnapshotPages(pages, space).Ok?
    ensures TotalLength(SnapshotPages(pages, space).value) == SumLengths(pages)
  {
    if pages != [] {
      var n := |pages| - 1;
      SnapshotLength(pages[..n], space);
      SumAppend(pages[..n], pages[n]);
      assert pages[..n] + [pages[n]] == pages;
      var all := SnapshotPages(pages, space).value;
      SnapshotPageByPage(pages[..n], space);
      assert all[..|all| - 1] == SnapshotPages(pages[..n], space).value;
    }
  }

  /** The pages are numbered 1, 2, ... without gaps or repeats and have different identifiers. */
  predicate WellNumbered(pages: seq<Page>) {
    && pages != [] && NumberedFromOne(Sort(pages, PageBefore)) && Distinct(Ids(Sort(pages, PageBefore)))
  }

  predicate PageReady(p: Page, space: Spacing) { SnapshotPageOf(p, space).Ok? }

  lemma SnapshotIff(pages: seq<Page>, space: Spacing)
    ensures SnapshotOf(pages, space).Ok? <==>
      && WellNumbered(pages) && (forall k :: 0 <= k < |pages| ==> PageReady(pages[k], space))
      && SumLengths(pages) <= MAX_DOCUMENT_REVIEW_TEXT
  {
    var sorted := Sort(pages, PageBefore);
    PageOrder();
    SortSorts(pages, PageBefore);
    SnapshotPageByPage(sorted, space);
    SumSorted(pages);
    if SnapshotPages(sorted, space).Ok? {
      SnapshotLength(sorted, space);
      forall k | 0 <= k < |pages| ensures PageReady(pages[k], space) { assert pages[k] in sorted; }
    } else {
      var i :| 0 <= i < |sorted| && !SnapshotPageOf(sorted[i], space).Ok?;
      assert sorted[i] in pages;
      var k :| 0 <= k < |pages| && pages[k] == sorted[i];
      assert !PageReady(pages[k], space);
    }
  }

  /** A first confirmation succeeds exactly when it names the current version, the pages are well numbered, each is
      ready and all together are not too long. */
  lemma ConfirmsIff(r0: Review, qs: seq<Request>, ifMatch: IfMatch, space: Spacing)
    requires Fresh(r0) && Run(r0, qs, space).status == ReviewRequired
    ensures var r := Run(r0, qs, space);
      DecideConfirmation(r, ifMatch, space).New? <==>
        && ifMatch == Number(r.version) && WellNumbered(r.pages) && SumLengths(r.pages) <= MAX_DOCUMENT_REVIEW_TEXT
        && forall k :: 0 <= k < |r0.pages| ==> Ready(r0.pages[k].sheet, LastAccepted(r0, qs, k, space), space)
  {
    var r := Run(r0, qs, space);
    RunTracks(r0, qs, space);
    SnapshotIff(r.pages, space);
    forall k | 0 <= k < |r0.pages|
      ensures PageReady(r.pages[k], space) <==> Ready(r0.pages[k].sheet, LastAccepted(r0, qs, k, space), space)
    {
      assert TrackedPage(r0, qs, r, space, k);
      TrackedPageConfirms(r0.pages[k].sheet, r.pages[k],
        LastAccepted(r0, qs, k, space), Edits(r0, qs, k, space), space);
    }
  }

  /** When can_confirm is shown, confirming at the current version succeeds exactly when the pages are well numbered,
      no page is left that was required yet never accepted, and the texts nobody reviewed are neither blank nor too
      long. */
  lemma CanConfirmSufficesIff(r0: Review, qs: seq<Request>, space: Spacing)
    requires Fresh(r0) && Run(r0, qs, space).status == ReviewRequired && CanConfirm(Run(r0, qs, space))
    ensures var r := Run(r0, qs, space);
      DecideConfirmation(r, Number(r.version), space).New? <==>
        && WellNumbered(r.pages) && SumLengths(r.pages) <= MAX_DOCUMENT_REVIEW_TEXT
        && forall k :: 0 <= k < |r0.pages| && LastAccepted(r0, qs, k, space).None? ==>
           FitsUnreviewed(r0.pages[k].sheet, space)
  {
    var r := Run(r0, qs, space);
    RunTracks(r0, qs, space);
    ConfirmsIff(r0, qs, Number(r.version), space);
    CanConfirmMeans(r);
    forall k | 0 <= k < |r0.pages|
      ensures Ready(r0.pages[k].sheet, LastAccepted(r0, qs, k, space), space)
        <==> (LastAccepted(r0, qs, k, space).None? ==> FitsUnreviewed(r0.pages[k].sheet, space))
    {
      assert TrackedPage(r0, qs, r, space, k);
      assert !Failed(r.pages[k].sheet);
    }
  }

  predicate FitsUnreviewed(s: Sheet, space: Spacing) {
    !s.required && !BlankText(s.text, space) && |s.text| <= MAX_PAGE_REVIEW_TEXT
  }

  /** Confirming again at the new version gives the same snapshot, versions and length as the first time, but the same
      counts only if every page was required and none was changed. */
  lemma SecondReceipt(r: Review, ifMatch: IfMatch, at: real, space: Spacing)
    requires DecideConfirmation(r, ifMatch, space).New?
    ensures var first := DecideConfirmation(r, ifMatch, space);
      var again := DecideConfirmation(Serve(r, ConfirmAll(ifMatch, at), space), Number(first.receipt.version), space);
      && again.Stored? && again.receipt.snapshot == first.receipt.snapshot
      && again.receipt.version == first.receipt.version
      && again.receipt.snapshotVersion == first.receipt.snapshotVersion
      && again.receipt.totalLength == first.receipt.totalLength
      && again.receipt.changedPages == 0 && again.receipt.confirmedPages == Count(r.pages, IsRequired)
      && (again.receipt == first.receipt <==>
          AllRequired(r.pages) && forall i :: 0 <= i < |first.snapshot| ==> !IsChanged(first.snapshot[i]))
  {
    var snapshot := DecideConfirmation(r, ifMatch, space).snapshot;
    SnapshotHasEveryPage(r.pages, space);
    CountNone(snapshot, IsChanged);
    CountsAfterSealing(r.pages, at);
  }

  predicate AllRequired(pages: seq<Page>) { forall k :: 0 <= k < |pages| ==> IsRequired(pages[k]) }

  lemma SnapshotHasEveryPage(pages: seq<Page>, space: Spacing)
    requires SnapshotOf(pages, space).Ok?
    ensures |SnapshotOf(pages, space).value| == |pages| > 0
  {
    PageOrder();
    SortSorts(pages, PageBefore);
    SnapshotPageByPage(Sort(pages, PageBefore), space);
  }

  lemma CountsAfterSealing(pages: seq<Page>, at: real)
    ensures var done := ConfirmedPages(pages, at);
      && Count(done, IsEdited) == 0 && Count(done, IsRequired) == Count(pages, IsRequired)
      && (Count(done, IsRequired) == |pages| <==> AllRequired(pages))
  {
    var done := ConfirmedPages(pages, at);
    CountNone(done, IsEdited);
    SealingKeepsRequired(pages, at);
    CountsAgree(done, AnyPage, IsRequired);
    CountAny(done);
    assert forall k :: 0 <= k < |pages| ==> done[k].sheet == pages[k].sheet;
  }

  lemma {:induction false} SealingKeepsRequired(pages: seq<Page>, at: real)
    ensures Count(ConfirmedPages(pages, at), IsRequired) == Count(pages, IsRequired)
  {
    if pages != [] {
      var n := |pages| - 1;
      SealingKeepsRequired(pages[..n], at);
      assert ConfirmedPages(pages, at)[..n] == ConfirmedPages(pages[..n], at);
    }
  }

  predicate AnyPage(p: Page) { true }

  lemma {:induction false} CountAny(pages: seq<Page>)
    ensures Count(pages, AnyPage) == |pages|
  {
    if pages != [] { CountAny(pages[..|pages| - 1]); }
  }

  /** After a confirmation the stored flag is off, yet can_confirm computed afresh is on unless a page was required. */
  lemma FlagAfterConfirmation(r0: Review, qs: seq<Request>, space: Spacing)
    requires Fresh(r0) && Run(r0, qs, space).status == Confirmed
    ensures var r := Run(r0, qs, space);
      && !r.canConfirm
      && (CanConfirm(r) <==> !r.requiresUserReview || forall k :: 0 <= k < |r.pages| ==> !r.pages[k].sheet.required)
  {
    var r := Run(r0, qs, space);
    RunTracks(r0, qs, space);
    forall k | 0 <= k < |r.pages| ensures !IsReviewed(r.pages[k]) && !IsFailed(r.pages[k]) {
      assert TrackedPage(r0, qs, r, space, k) && CapturedPage(r0, qs, r, space, k);
    }
    CountNone(r.pages, IsFailed);
    CountNone(r.pages, IsReviewed);
    CountNone(r.pages, IsRequired);
  }

  // ---------- extractions as the uploads store them ----------

  /** Pages numbered in order with different identifiers; review is asked for when some page requires it; and a page
      that does not, because its text layer was usable, has a text that is neither blank nor too long. */
  predicate Storable(r: Review, space: Spacing) {
    && Fresh(r) && r.pages != [] && NumberedFromOne(r.pages) && Distinct(Ids(r.pages))
    && (r.requiresUserReview <==> exists k :: 0 <= k < |r.pages| && IsRequired(r.pages[k]))
    && (forall k {:trigger Usable(r.pages[k].sheet, space)} ::
          0 <= k < |r.pages| && !r.pages[k].sheet.required ==> Usable(r.pages[k].sheet, space))
    && r.canConfirm == CanConfirm(r)
  }

  predicate Usable(s: Sheet, space: Spacing) {
    !Failed(s) && !BlankText(s.text, space) && |s.text| <= MAX_PAGE_REVIEW_TEXT
  }

  predicate Passed(s: Sheet, last: Option<string>) { !Failed(s) && (s.required ==> last.Some?) }

  lemma SameSheetsStayNumbered(a: seq<Page>, b: seq<Page>)
    requires |a| == |b| && forall k :: 0 <= k < |a| ==> b[k].sheet == a[k].sheet
    requires a != [] && NumberedFromOne(a) && Distinct(Ids(a))
    ensures WellNumbered(b)
  {
    SortedIsFixed(b, PageBefore);
    assert Ids(b) == Ids(a);
  }

  /** Of a stored extraction a first confirmation succeeds if and only if it names the current version, no page
      failed, every required page was accepted, and all texts together are not too long. */
  lemma StoredConfirmsIff(r0: Review, qs: seq<Request>, ifMatch: IfMatch, space: Spacing)
    requires Storable(r0, space) && Run(r0, qs, space).status == ReviewRequired
    ensures var r := Run(r0, qs, space);
      DecideConfirmation(r, ifMatch, space).New? <==>
        && ifMatch == Number(r.version) && SumLengths(r.pages) <= MAX_DOCUMENT_REVIEW_TEXT
        && forall k :: 0 <= k < |r0.pages| ==> Passed(r0.pages[k].sheet, LastAccepted(r0, qs, k, space))
  {
    var r := Run(r0, qs, space);
    RunTracks(r0, qs, space);
    forall k | 0 <= k < |r0.pages|
      ensures r.pages[k].sheet == r0.pages[k].sheet
      ensures Ready(r0.pages[k].sheet, LastAccepted(r0, qs, k, space), space)
        <==> Passed(r0.pages[k].sheet, LastAccepted(r0, qs, k, space))
    {
      assert TrackedPage(r0, qs, r, space, k);
      assert r0.pages[k].sheet.required || Usable(r0.pages[k].sheet, space);
    }
    SameSheetsStayNumbered(r0.pages, r.pages);
    ConfirmsIff(r0, qs, ifMatch, space);
  }

  /** For a stored extraction that shows can_confirm, only the total length can keep a confirmation from succeeding. */
  lemma StoredCanConfirmSufficesIff(r0: Review, qs: seq<Request>, space: Spacing)
    requires Storable(r0, space) && Run(r0, qs, space).status == ReviewRequired && CanConfirm(Run(r0, qs, space))
    ensures var r := Run(r0, qs, space);
      DecideConfirmation(r, Number(r.version), space).New? <==> SumLengths(r.pages) <= MAX_DOCUMENT_REVIEW_TEXT
  {
    var r := Run(r0, qs, space);
    RunTracks(r0, qs, space);
    CanConfirmMeans(r);
    StoredConfirmsIff(r0, qs, Number(r.version), space);
    forall k | 0 <= k < |r0.pages|
      ensures Passed(r0.pages[k].sheet, LastAccepted(r0, qs, k, space))
    {
      assert TrackedPage(r0, qs, r, space, k);
      assert !Failed(r.pages[k].sheet);
      if r0.pages[k].sheet.required { assert IsRequired(r.pages[k]) && IsRequired(r0.pages[k]); }
    }
  }

  // ---------- concrete extractions ----------

  /** A page as the uploads store it. */
  function StoredPage(number: nat, required: bool, text: string): Page {
    Page(Sheet(number, Some("page-" + Decimal.Print(number)), required, None, required, text),
         Mark(if required then Pending else NotRequired, 1, None, None, false, None, None))
  }

  function StoredExtraction(pages: seq<Page>, requiresUserReview: bool): Review {
    Review(ReviewRequired, requiresUserReview, 1, if requiresUserReview then PendingReview else ConfirmedReview,
           !requiresUserReview, [], None, [], 0, 0, pages)
  }

  function LongText(): (text: string)
    ensures |text| == MAX_PAGE_REVIEW_TEXT && forall i :: 0 <= i < |text| ==> text[i] == 'x'
  {
    seq(MAX_PAGE_REVIEW_TEXT, i => 'x')
  }

  function DirectPages(n: nat): (pages: seq<Page>)
    ensures |pages| == n && forall i :: 0 <= i < n ==> pages[i] == StoredPage(i + 1, false, LongText())
  {
    seq(n, i requires 0 <= i < n => StoredPage(i + 1, false, LongText()))
  }

  lemma PageIdsDiffer(a: nat, b: nat)
    requires "page-" + Decimal.Print(a) == "page-" + Decimal.Print(b)
    ensures a == b
  {
    assert ("page-" + Decimal.Print(a))[5..] == Decimal.Print(a);
    assert ("page-" + Decimal.Print(b))[5..] == Decimal.Print(b);
    Decimal.ParsePrint(a);
    Decimal.ParsePrint(b);
  }

  lemma {:induction false} SumOfEqual(pages: seq<Page>, length: nat)
    requires forall i :: 0 <= i < |pages| ==> FinalLength(pages[i]) == length
    ensures SumLengths(pages) == |pages| * length
  {
    if pages != [] { SumOfEqual(pages[1..], length); }
  }

  lemma DirectExtractionIsStorable(n: nat, space: Spacing)
    requires n >= 1 && !space('x')
    ensures Storable(StoredExtraction(DirectPages(n), false), space)
    ensures SumLengths(DirectPages(n)) == n * MAX_PAGE_REVIEW_TEXT
  {
    var pages := DirectPages(n);
    forall i, j | 0 <= i < j < n ensures Ids(pages)[i] != Ids(pages)[j] {
      if Ids(pages)[i] == Ids(pages)[j] { PageIdsDiffer(i + 1, j + 1); }
    }
    assert LongText()[0] == 'x';
    CountNone(pages, IsFailed);
    SumOfEqual(pages, MAX_PAGE_REVIEW_TEXT);
  }

  /** can_confirm does not promise that confirming succeeds.  A PDF of n usable pages of the full page length is
      stored, up to the ten that extraction allows, and shows can_confirm; it can be confirmed if and only if n is at
      most five. */
  lemma CanConfirmIsNotEnough(n: nat, space: Spacing)
    requires 1 <= n <= 10 && !space('x')
    ensures var r := StoredExtraction(DirectPages(n), false);
      && Storable(r, space) && r.canConfirm && CanConfirm(r)
      && (DecideConfirmation(r, Number(r.version), space).New? <==> n <= 5)
  {
    var r := StoredExtraction(DirectPages(n), false);
    DirectExtractionIsStorable(n, space);
    assert Run(r, [], space) == r;
    StoredCanConfirmSufficesIff(r, [], space);
  }

  function OnePage(): Review { StoredExtraction([StoredPage(1, true, "x")], true) }

  lemma OnePageIsStorable(space: Spacing)
    ensures Storable(OnePage(), space)
  {
    assert IsRequired(OnePage().pages[0]);
    CanConfirmMeans(OnePage());
    assert !IsReviewed(OnePage().pages[0]);
  }

  lemma EditedConfirms(space: Spacing) returns (r: Review)
    requires !space('y')
    ensures r == Run(OnePage(), [EditRequest()], space)
    ensures DecideConfirmation(r, Number(r.version), space).New?
  {
    r := EditedPage(space);
    OnePageIsStorable(space);
    StoredConfirmsIff(OnePage(), [EditRequest()], Number(r.version), space);
  }

  lemma EditedSnapshot(r: Review, space: Spacing)
    requires !space('y') && r == Run(OnePage(), [EditRequest()], space)
    requires DecideConfirmation(r, Number(r.version), space).New?
    ensures var snapshot := DecideConfirmation(r, Number(r.version), space).snapshot;
      |snapshot| == 1 && IsChanged(snapshot[0])
  {
    var _ := EditedPage(space);
    var snapshot := DecideConfirmation(r, Number(r.version), space).snapshot;
    SnapshotHasEveryPage(r.pages, space);
    RunTracks(OnePage(), [EditRequest()], space);
    assert TrackedPage(OnePage(), [EditRequest()], r, space, 0);
    CapturedAtItsNumber(r.pages, snapshot, 0, OnePage().pages[0].sheet, Some("y"), 1, space);
  }

  /** The second receipt can differ: after one page has been edited the first confirmation counts one changed page, the
      repeated one none. */
  lemma SecondReceiptCanDiffer(space: Spacing, at: real)
    requires !space('y')
    ensures var r := Run(OnePage(), [EditRequest()], space);
      var first := DecideConfirmation(r, Number(r.version), space);
      && first.New?
      && var after := Serve(r, ConfirmAll(Number(r.version), at), space);
         var again := DecideConfirmation(after, Number(first.receipt.version), space);
         again.Stored? && first.receipt.changedPages == 1 && again.receipt.changedPages == 0
  {
    var r := EditedConfirms(space);
    EditedSnapshot(r, space);
    SecondReceipt(r, Number(r.version), at, space);
    var snapshot := DecideConfirmation(r, Number(r.version), space).snapshot;
    assert snapshot[..0] == [];
  }

  function EditRequest(): Request { PatchPage("page-1", Absent, PatchPayload(Some(1), None, Some("y")), 0.0) }

  lemma EditedPage(space: Spacing) returns (r: Review)
    requires !space('y')
    ensures r == Run(OnePage(), [EditRequest()], space)
    ensures r.status == ReviewRequired && |r.pages| == 1 && SumLengths(r.pages) == 1
    ensures LastAccepted(OnePage(), [EditRequest()], 0, space) == Some("y")
    ensures Edits(OnePage(), [EditRequest()], 0, space) == 1
  {
    var q, r0 := EditRequest(), OnePage();
    r := Serve(r0, q, space);
    assert Decimal.Print(1) == "1";
    assert "page-" + "1" == "page-1";
    assert FirstWithId(r0.pages, "page-1", 0);
    assert ValidReviewText("y", space) by { assert !space("y"[0]); }
    SavesIff(r0, "page-1", Absent, q.payload, 0, "y", space);
    assert [q][..0] == [];
    assert SavedOn(r0, q, 0, space) == Some("y");
  }

  /** The stored flag and the computed one can disagree: a PDF that needed no review, once confirmed, still computes
      can_confirm. */
  lemma FlagsCanDisagree(space: Spacing, at: real)
    requires !space('x')
    ensures var r := Run(StoredExtraction(DirectPages(1), false), [ConfirmAll(Number(1), at)], space);
      r.status == Confirmed && CanConfirm(r) && !r.canConfirm
  {
    var r0, q := StoredExtraction(DirectPages(1), false), ConfirmAll(Number(1), at);
    CanConfirmIsNotEnough(1, space);
    assert [q][..0] == [];
    assert Run(r0, [q], space) == Serve(r0, q, space);
    FlagAfterConfirmation(r0, [q], space);
  }
}
