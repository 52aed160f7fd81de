/**
 What an extraction stores about its review, in terms of its pages, and which refusal a request gets.
*/
module ReviewStored {
  import opened Options
  import opened Sorting
  import opened TextLayout
  import opened ReviewState
  import opened ReviewRuns
  import opened ReviewConfirmation
  import Decimal

  // ---------- the stored flag ----------

  lemma ServeKeepsFlag(r: Review, q: Request, space: Spacing)
    requires r.status == ReviewRequired ==> r.canConfirm == CanConfirm(r)
    ensures var s := Serve(r, q, space); s.status == ReviewRequired ==> s.canConfirm == CanConfirm(s)
  {
  }

  lemma {:induction false} RunKeepsFlag(r0: Review, qs: seq<Request>, space: Spacing)
    requires r0.canConfirm == CanConfirm(r0)
    ensures var r := Run(r0, qs, space); r.status == ReviewRequired ==> r.canConfirm == CanConfirm(r)
  {
    if qs != [] {
      var n := |qs| - 1;
      RunKeepsFlag(r0, qs[..n], space);
      ServeKeepsFlag(Run(r0, qs[..n], space), qs[n], space);
    }
  }

  /** Until it is confirmed, what the extraction shows is true: can_confirm is stored exactly when nothing failed and
      every page that has to be is reviewed or no review is asked for. */
  lemma StoredFlagIff(r0: Review, qs: seq<Request>, space: Spacing)
    requires Storable(r0, space) && Run(r0, qs, space).status == ReviewRequired
    ensures var r := Run(r0, qs, space);
      r.canConfirm <==> NoFailures(r) && (!r.requiresUserReview || AllReviewed(r))
  {
    RunKeepsFlag(r0, qs, space);
    CanConfirmMeans(Run(r0, qs, space));
  }

  // ---------- the blocking reasons ----------

  /** A blocked page failed for this reason. */
  predicate BlockedBy(p: Page, reason: string) { p.sheet.blocked && Failed(p.sheet) && p.sheet.failure == Some(reason) }

  predicate SomeBlockedBy(pages: seq<Page>, reason: string) {
    exists k :: 0 <= k < |pages| && BlockedBy(pages[k], reason)
  }

  predicate NoRepeats(reasons: seq<string>) { forall i, j :: 0 <= i < j < |reasons| ==> reasons[i] != reasons[j] }

  lemma {:induction false} BlockingFailuresAre(pages: seq<Page>, reason: string)
    ensures reason in BlockingFailures(pages) <==> SomeBlockedBy(pages, reason)
    decreases |pages|
  {
    if pages != [] {
      var n := |pages| - 1;
      BlockingFailuresAre(pages[..n], reason);
      assert BlockedBy(pages[n], reason) ==> SomeBlockedBy(pages, reason);
      if k :| 0 <= k < n && BlockedBy(pages[..n][k], reason) { assert BlockedBy(pages[k], reason); }
      if k :| 0 <= k < |pages| && BlockedBy(pages[k], reason) {
        if k < n { assert BlockedBy(pages[..n][k], reason); }
      }
    }
  }

  lemma {:induction false} BlockingFailuresDiffer(pages: seq<Page>)
    ensures NoRepeats(BlockingFailures(pages))
    decreases |pages|
  {
    if pages != [] { BlockingFailuresDiffer(pages[..|pages| - 1]); }
  }

  /** The reasons are the failures of the blocked pages, each once, and the general one when a required page exists,
      review is asked for and some page failed. */
  lemma BlockingReasonsAre(pages: seq<Page>, requiresUserReview: bool, reason: string)
    ensures var reasons := BlockingReasons(pages, requiresUserReview);
      && NoRepeats(reasons)
      && (reason in reasons <==>
          || SomeBlockedBy(pages, reason)
          || (reason == "extraction_has_failed_pages" && requiresUserReview
              && (exists k :: 0 <= k < |pages| && IsRequired(pages[k]))
              && (exists k :: 0 <= k < |pages| && IsFailed(pages[k]))))
  {
    BlockingFailuresDiffer(pages);
    BlockingFailuresAre(pages, reason);
    BlockingFailuresAre(pages, FAILED_PAGES);
    CountNone(pages, IsRequired);
    CountNone(pages, IsFailed);
  }

  // ---------- what an accepted request stores ----------

  /** An accepted patch writes its page and brings flag, reasons and status in line with the pages. */
  lemma PatchStores(r: Review, q: Request, k: nat, space: Spacing)
    requires SavedOn(r, q, k, space).Some?
    ensures k < |r.pages| && |Serve(r, q, space).pages| == |r.pages|
    ensures var s := Serve(r, q, space); var text := SavedOn(r, q, k, space).value; var p := s.pages[k];
      && p.sheet == r.pages[k].sheet && p.mark.reviewedText == Some(text) && p.mark.finalText == Some(text)
      && (p.mark.textChanged <==> text != p.sheet.text)
      && p.mark.status == (if text != p.sheet.text then Edited else Reviewed)
      && p.mark.version == r.pages[k].mark.version + 1
      && p.mark.reviewedAt == Some(q.at) && p.mark.confirmedAt == None
    ensures var s := Serve(r, q, space);
      && (forall j :: 0 <= j < |r.pages| && j != k ==> s.pages[j] == r.pages[j])
      && s.status == r.status && s.version == r.version + 1 && s.requiresUserReview == r.requiresUserReview
      && s.snapshot == r.snapshot && s.snapshotVersion == r.snapshotVersion && s.confirmedAt == r.confirmedAt
  {
  }

  /** After an accepted patch the stored status says whether required pages are left, and the stored flag and reasons
      are those of the pages. */
  lemma PatchRefreshes(r: Review, q: Request, k: nat, reason: string, space: Spacing)
    requires SavedOn(r, q, k, space).Some?
    ensures var s := Serve(r, q, space);
      && s.reviewStatus == (if AllReviewed(s) then ReadyToConfirm else PartiallyReviewed)
      && (s.canConfirm <==> NoFailures(s) && AllReviewed(s))
      && NoRepeats(s.blockingReasons)
      && (reason in s.blockingReasons <==>
          || SomeBlockedBy(s.pages, reason)
          || (reason == "extraction_has_failed_pages" && !NoFailures(s)))
  {
    PatchStores(r, q, k, space);
    var s := Serve(r, q, space);
    PatchLeavesOpen(r, q, k, space);
    assert IsRequired(s.pages[k]) && IsReviewed(s.pages[k]);
    ReviewStatusMeans(s);
    CanConfirmMeans(s);
    BlockingReasonsAre(s.pages, s.requiresUserReview, reason);
    if !NoFailures(s) {
      var j :| 0 <= j < |s.pages| && Failed(s.pages[j].sheet);
      assert IsFailed(s.pages[j]);
    }
  }

  lemma PatchLeavesOpen(r: Review, q: Request, k: nat, space: Spacing)
    requires SavedOn(r, q, k, space).Some?
    ensures var s := Serve(r, q, space);
      && s.status == ReviewRequired && s.requiresUserReview && r.pages[k].sheet.required
      && s.canConfirm == CanConfirm(s) && s.reviewStatus == ReviewStatusOf(s)
      && s.blockingReasons == BlockingReasons(s.pages, s.requiresUserReview)
  {
  }

  /** A confirmation stamps every page and the extraction, and leaves nothing to confirm. */
  lemma ConfirmationStores(r: Review, q: Request, space: Spacing)
    requires q.ConfirmAll? && DecideConfirmation(r, q.ifMatch, space).New?
    ensures var s := Serve(r, q, space);
      && s.status == Confirmed && s.reviewStatus == ConfirmedReview && s.confirmedAt == Some(q.at) && !s.canConfirm
      && s.snapshot == DecideConfirmation(r, q.ifMatch, space).snapshot && s.snapshotVersion == r.snapshotVersion + 1
      && s.version == r.version + 1 && |s.pages| == |r.pages|
      && forall k :: 0 <= k < |r.pages| ==>
           && s.pages[k].sheet == r.pages[k].sheet && s.pages[k].mark.status == PageConfirmed
           && s.pages[k].mark.confirmedAt == Some(q.at) && s.pages[k].mark.version == r.pages[k].mark.version + 1
           && s.pages[k].mark.reviewedText == r.pages[k].mark.reviewedText
  {
  }

  // ---------- which refusal a patch gets ----------

  predicate Open(r: Review) { r.status == ReviewRequired && r.requiresUserReview }

  /** The identifier names the required page `k` of an extraction open for review, in the version the request names. */
  predicate Addresses(r: Review, id: string, ifMatch: IfMatch, payload: PatchPayload, k: nat) {
    && Open(r) && FirstWithId(r.pages, id, k) && r.pages[k].sheet.required
    && RequestVersion(ifMatch, payload.version) == Some(r.pages[k].mark.version)
    && r.pages[k].mark.status != PageConfirmed
  }

  predicate HasText(payload: PatchPayload) { payload.asIs == Some(true) || payload.text.Some? }

  function TextOf(s: Sheet, payload: PatchPayload): string
    requires HasText(payload)
  {
    if payload.asIs == Some(true) then s.text else payload.text.value
  }

  /** The version a patch names: the one of its payload, and without one the header's. */
  lemma NamedVersion(ifMatch: IfMatch, version: Option<int>, v: int)
    ensures RequestVersion(ifMatch, version) == Some(v)
      <==> version == Some(v) || (version.None? && ifMatch == Number(v))
  {
  }

  /** Each refusal has its own cause, the first that applies in the order below. */
  lemma PatchRefusals(r: Review, id: string, ifMatch: IfMatch, payload: PatchPayload, k: nat, space: Spacing)
    ensures var d := Decide(r, id, ifMatch, payload, space);
      && (d == Refuse(AlreadyConfirmed) <==> r.status == Confirmed)
      && (d == Refuse(NotReviewable) <==> r.status == ReviewRequired && !r.requiresUserReview)
      && (d == Refuse(PageNotFound) <==>
            Open(r) && forall j :: 0 <= j < |r.pages| ==> r.pages[j].sheet.pageId != Some(id))
    ensures Open(r) && FirstWithId(r.pages, id, k) ==>
      var d, p, v := Decide(r, id, ifMatch, payload, space), r.pages[k], RequestVersion(ifMatch, payload.version);
      && (d == Refuse(PageNotReviewable) <==>
            !p.sheet.required
            || (Addresses(r, id, ifMatch, payload, k) && HasText(payload) && Failed(p.sheet)))
      && (d == Refuse(VersionUnusable) <==> p.sheet.required && v.None?)
      && (d == Refuse(PageConflict) <==> p.sheet.required && v.Some? && v != Some(p.mark.version))
      && (d == Show(k) <==> p.sheet.required && v == Some(p.mark.version) && p.mark.status == PageConfirmed)
      && (d == Refuse(TextMissing) <==> Addresses(r, id, ifMatch, payload, k) && !HasText(payload))
      && (d == Refuse(TextInvalid) <==>
            Addresses(r, id, ifMatch, payload, k) && HasText(payload) && !Failed(p.sheet)
            && !ValidReviewText(TextOf(p.sheet, payload), space))
  {
    if FirstWithId(r.pages, id, k) { FirstIsFound(r.pages, id, k); }
  }

  /** A valid text has no null character, is not blank, and has at most 200,000 characters. */
  lemma ValidTextIff(text: string, space: Spacing)
    ensures ValidReviewText(text, space) <==>
      && (forall i :: 0 <= i < |text| ==> text[i] != '\0')
      && |text| <= 200_000 && exists i :: 0 <= i < |text| && !space(text[i])
  {
  }

  // ---------- which refusal a confirmation gets ----------

  /** The first cause of refusal of a page: failed, not reviewed, blank, too long. */
  lemma PageRefusals(p: Page, space: Spacing)
    ensures var d := SnapshotPageOf(p, space); var edited := p.mark.status == Edited;
      var text := if edited then p.mark.reviewedText else Some(p.sheet.text);
      var reviewed := !p.sheet.required || p.mark.status == Reviewed || edited;
      var blank := text.None? || forall i :: 0 <= i < |text.value| ==> space(text.value[i]);
      && (d == Err(HasFailedPages) <==> Failed(p.sheet))
      && (d == Err(ReviewIncomplete) <==> !Failed(p.sheet) && !reviewed)
      && (d == Err(FinalTextBlank) <==> !Failed(p.sheet) && reviewed && blank)
      && (d == Err(FinalTextTooLong) <==> !Failed(p.sheet) && reviewed && !blank && |text.value| > 200_000)
  {
  }

  lemma {:induction false} PagesRefuse(pages: seq<Page>, space: Spacing)
    ensures var d := SnapshotPages(pages, space);
      d.Err? ==> d.why in {HasFailedPages, ReviewIncomplete, FinalTextBlank, FinalTextTooLong}
    decreases |pages|
  {
    if pages != [] { PagesRefuse(pages[..|pages| - 1], space); }
  }

  /** A confirmation of an open extraction is refused for its version, for its page numbers, for its first page in
      number order that is not ready, and for the length of all texts, in this order. */
  lemma ConfirmationRefusals(r: Review, ifMatch: IfMatch, space: Spacing)
    requires r.status == ReviewRequired
    ensures var d, sorted := DecideConfirmation(r, ifMatch, space), Sort(r.pages, PageBefore);
      && (d == Refused(VersionUnusable) <==> !ifMatch.Number?)
      && (d == Refused(ConfirmationStale) <==> ifMatch.Number? && ifMatch.n != r.version)
      && (ifMatch == Number(r.version) ==>
            if !WellNumbered(r.pages) then d == Refused(ReviewIncomplete)
            else match SnapshotPages(sorted, space)
              case Err(why) => d == Refused(why)
              case Ok(snapshot) => d == Refused(FinalTextTooLong) <==> TotalLength(snapshot) > 1_000_000)
  {
    PagesRefuse(Sort(r.pages, PageBefore), space);
  }

  /** The refusal of a list of pages is that of its first page that is not ready. */
  lemma {:induction false} FirstRefusal(pages: seq<Page>, k: nat, space: Spacing)
    requires k < |pages| && SnapshotPageOf(pages[k], space).Err?
    requires forall i {:trigger pages[i]} :: 0 <= i < k ==> SnapshotPageOf(pages[i], space).Ok?
    ensures SnapshotPages(pages, space) == Err(SnapshotPageOf(pages[k], space).why)
    decreases |pages|
  {
    var n := |pages| - 1;
    if k < n {
      assert pages[..n][k] == pages[k];
      FirstRefusal(pages[..n], k, space);
    } else {
      SnapshotPageByPage(pages[..n], space);
      assert forall i {:trigger pages[..n][i]} :: 0 <= i < n ==> pages[..n][i] == pages[i];
    }
  }

  // ---------- what a first confirmation answers ----------

  /** The first receipt names the new versions, all pages as confirmed, and as changed those edited to another text. */
  lemma FirstReceiptMeans(r: Review, ifMatch: IfMatch, space: Spacing)
    requires DecideConfirmation(r, ifMatch, space).New?
    ensures var first := DecideConfirmation(r, ifMatch, space); var receipt := first.receipt;
      && receipt.version == r.version + 1 && receipt.snapshotVersion == r.snapshotVersion + 1
      && receipt.confirmedPages == |r.pages| && receipt.snapshot == first.snapshot
      && receipt.totalLength == TotalLength(first.snapshot) <= 1_000_000
      && (receipt.changedPages == 0 <==> forall i :: 0 <= i < |first.snapshot| ==> !first.snapshot[i].textChanged)
  {
    var snapshot := DecideConfirmation(r, ifMatch, space).snapshot;
    SnapshotHasEveryPage(r.pages, space);
    CountNone(snapshot, IsChanged);
    assert forall i :: 0 <= i < |snapshot| ==> (IsChanged(snapshot[i]) <==> snapshot[i].textChanged);
  }

  /** A snapshot names a page by its identifier, and one without by its number, so such pages differ when their
      numbers do. */
  lemma SnapshotIdsAre(a: Sheet, b: Sheet)
    ensures a.pageId.Some? ==> SnapshotId(a) == a.pageId.value
    ensures a.pageId.None? && b.pageId.None? ==> (SnapshotId(a) == SnapshotId(b) <==> a.number == b.number)
  {
    Decimal.PrintIntDiffers(a.number, b.number);
  }

  /** A page has failed when extraction left a reason, and an empty one is none. */
  lemma FailedIff(s: Sheet)
    ensures Failed(s) <==> exists reason :: s.failure == Some(reason) && |reason| > 0
  {
  }
}
