/** The extraction a request works on: its fields are updated in place, and each request is proved to do what
    ReviewState says. */
module ExtractionReview {
  import opened Options
  import opened Sorting
  import opened TextLayout
  import opened ReviewState

  datatype Summary = Summary(
    required: nat, reviewed: nat, edited: nat, failed: nat, reasons: seq<string>, status: ReviewStatus)

  datatype PatchReply = Rejected(why: Refusal) | PageView(page: Page)

  datatype ConfirmReply = NotConfirmed(why: Refusal) | Confirmation(receipt: Receipt)

  class Extraction {
    const space: Spacing
    const requiresUserReview: bool
    var status: ExtractionStatus
    var version: int
    var reviewStatus: ReviewStatus
    var canConfirm: bool
    var blockingReasons: seq<string>
    var confirmedAt: Option<real>
    var snapshot: seq<SnapshotPage>
    var snapshotVersion: int
    var totalLength: int
    var pages: seq<Page>

    constructor (r: Review, space: Spacing)
      ensures State() == r && this.space == space
    {
      this.space := space;
      requiresUserReview := r.requiresUserReview;
      status, version, reviewStatus, canConfirm := r.status, r.version, r.reviewStatus, r.canConfirm;
      blockingReasons, confirmedAt, snapshot := r.blockingReasons, r.confirmedAt, r.snapshot;
      snapshotVersion, totalLength, pages := r.snapshotVersion, r.totalLength, r.pages;
    }

    ghost function State(): Review
      reads this
    {
      Review(status, requiresUserReview, version, reviewStatus, canConfirm, blockingReasons, confirmedAt, snapshot,
             snapshotVersion, totalLength, pages)
    }

    method BuildReviewSummary() returns (s: Summary)
      ensures s.required == Count(pages, IsRequired) && s.reviewed == Count(pages, IsReviewed)
      ensures s.edited == Count(pages, IsEdited) && s.failed == Count(pages, IsFailed)
      ensures s.reasons == BlockingReasons(pages, requiresUserReview)
      ensures s.status == ReviewStatusOf(State())
    {
      var required, reviewed, edited, failed := 0, 0, 0, 0;
      var reasons: seq<string> := [];
      for i := 0 to |pages|
        invariant required == Count(pages[..i], IsRequired) && reviewed == Count(pages[..i], IsReviewed)
        invariant edited == Count(pages[..i], IsEdited) && failed == Count(pages[..i], IsFailed)
        invariant reasons == BlockingFailures(pages[..i])
      {
        var page := pages[i];
        assert pages[..i + 1][..i] == pages[..i];
        if page.sheet.blocked && Failed(page.sheet) && page.sheet.failure.value !in reasons {
          reasons := reasons + [page.sheet.failure.value];
        }
        if page.sheet.required {
          required := required + 1;
          if page.mark.status == Reviewed || page.mark.status == Edited {
            reviewed := reviewed + 1;
          }
        }
        if page.mark.status == Edited {
          edited := edited + 1;
        }
        if Failed(page.sheet) {
          failed := failed + 1;
        }
      }
      assert pages[..|pages|] == pages;
      if required > 0 && requiresUserReview && failed > 0 && FAILED_PAGES !in reasons {
        reasons := reasons + [FAILED_PAGES];
      }
      var state := ReadyToConfirm;
      if status == Confirmed {
        state := ConfirmedReview;
      } else if required == 0 {
        state := NoReviewRequired;
      } else if reviewed == 0 {
        state := PendingReview;
      } else if reviewed < required {
        state := PartiallyReviewed;
      }
      s := Summary(required, reviewed, edited, failed, reasons, state);
    }

    method BuildCanConfirm(s: Summary) returns (can: bool)
      requires s.required == Count(pages, IsRequired) && s.reviewed == Count(pages, IsReviewed)
      requires s.failed == Count(pages, IsFailed)
      ensures can == CanConfirm(State())
    {
      if !requiresUserReview && s.failed == 0 {
        return true;
      }
      var again := BuildReviewSummary();
      can := s.required == s.reviewed && s.failed == 0
        && again.status != PendingReview && again.status != PartiallyReviewed;
    }

    /** The writes of an accepted patch. */
    method SavePage(k: nat, reviewedText: string, now: real)
      requires k < |pages|
      modifies this
      ensures State() == Patched(old(State()), k, reviewedText, now)
    {
      var page := pages[k];
      var textChanged := reviewedText != page.sheet.text;
      var mark := page.mark.(textChanged := textChanged, reviewedAt := Some(now), version := page.mark.version + 1,
                             status := if textChanged then Edited else Reviewed, confirmedAt := None);
      mark := mark.(reviewedText := Some(reviewedText));
      mark := mark.(finalText := Some(reviewedText));
      pages := pages[k := page.(mark := mark)];
      version := version + 1;
      Refresh();
    }

    /** Brings what is stored about the review in line with the pages. */
    method Refresh()
      modifies this`canConfirm, this`blockingReasons, this`reviewStatus
      ensures canConfirm == CanConfirm(old(State()))
      ensures blockingReasons == BlockingReasons(pages, requiresUserReview)
      ensures reviewStatus == ReviewStatusOf(old(State()))
    {
      var summary := BuildReviewSummary();
      canConfirm := BuildCanConfirm(summary);
      blockingReasons := summary.reasons;
      reviewStatus := summary.status;
    }

    method PatchPageReview(id: string, ifMatch: IfMatch, payload: PatchPayload, now: real) returns (reply: PatchReply)
      modifies this
      ensures match Decide(old(State()), id, ifMatch, payload, space)
        case Refuse(why) => State() == old(State()) && reply == Rejected(why)
        case Show(k) => State() == old(State()) && reply == PageView(old(pages)[k])
        case Save(k, text) => State() == Patched(old(State()), k, text, now) && reply == PageView(pages[k])
    {
      if status == Confirmed { return Rejected(AlreadyConfirmed); }
      if !requiresUserReview { return Rejected(NotReviewable); }
      var found := FindPage(pages, id);
      if found.None? { return Rejected(PageNotFound); }
      var k := found.value;
      var page := pages[k];
      if !page.sheet.required { return Rejected(PageNotReviewable); }
      var requested := RequestVersion(ifMatch, payload.version);
      if requested.None? { return Rejected(VersionUnusable); }
      if requested.value != page.mark.version { return Rejected(PageConflict); }
      if page.mark.status == PageConfirmed { return PageView(page); }
      var asIs := payload.asIs == Some(true);
      if !asIs && payload.text.None? { return Rejected(TextMissing); }
      var reviewedText := if asIs then page.sheet.text else payload.text.value;
      if Failed(page.sheet) { return Rejected(PageNotReviewable); }
      if NUL in reviewedText { return Rejected(TextInvalid); }
      if |reviewedText| > MAX_PAGE_REVIEW_TEXT { return Rejected(TextInvalid); }
      if BlankText(reviewedText, space) { return Rejected(TextInvalid); }
      SavePage(k, reviewedText, now);
      reply := PageView(pages[k]);
    }

    /** The checks of one page and its entry. */
    method SnapshotOne(page: Page) returns (res: Result<SnapshotPage>)
      ensures res == SnapshotPageOf(page, space)
    {
      if Failed(page.sheet) { return Err(HasFailedPages); }
      if page.sheet.required && page.mark.status != Reviewed && page.mark.status != Edited {
        return Err(ReviewIncomplete);
      }
      var finalText := if page.mark.status == Edited then page.mark.reviewedText else Some(page.sheet.text);
      if finalText.None? || BlankText(finalText.value, space) { return Err(FinalTextBlank); }
      if |finalText.value| > MAX_PAGE_REVIEW_TEXT { return Err(FinalTextTooLong); }
      res := Ok(SnapshotPage(SnapshotId(page.sheet), page.sheet.number, finalText.value,
                             if page.mark.textChanged then FromEdit else FromOriginal, page.mark.textChanged));
    }

    method BuildConfirmationSnapshot() returns (res: Result<seq<SnapshotPage>>, changed: nat)
      ensures res == SnapshotOf(pages, space)
      ensures res.Ok? ==> |res.value| == |pages| && changed == Count(res.value, IsChanged)
    {
      changed := 0;
      var sorted := Sort(pages, PageBefore);
      SortKeepsLength(pages);
      if sorted == [] { return Err(ReviewIncomplete), 0; }
      if !NumberedFromOne(sorted) { return Err(ReviewIncomplete), 0; }
      if !Distinct(Ids(sorted)) { return Err(ReviewIncomplete), 0; }
      var snap: seq<SnapshotPage> := [];
      var total := 0;
      for i := 0 to |sorted|
        invariant SnapshotPages(sorted[..i], space) == Ok(snap) && |snap| == i
        invariant changed == Count(snap, IsChanged) && total == TotalLength(snap)
      {
        var item := SnapshotOne(sorted[i]);
        StopsAtTheFirst(sorted, i, space);
        if item.Err? { return Err(item.why), 0; }
        SnapshotGrows(sorted, i, snap, item.value, space);
        CountsGrow(snap, item.value);
        if item.value.textChanged { changed := changed + 1; }
        snap := snap + [item.value];
        total := total + |item.value.finalText|;
      }
      assert sorted[..|sorted|] == sorted;
      if total > MAX_DOCUMENT_REVIEW_TEXT { return Err(FinalTextTooLong), 0; }
      res := Ok(snap);
    }

    /** Every page becomes confirmed with its final text. */
    method ConfirmPages(now: real)
      modifies this`pages
      ensures pages == ConfirmedPages(old(pages), now)
    {
      ghost var before := pages;
      var i := 0;
      while i < |pages|
        invariant 0 <= i <= |pages| == |before|
        invariant pages == ConfirmedPages(before, now)[..i] + before[i..]
      {
        var page := pages[i];
        var wasEdited := page.mark.status == Edited;
        var mark := page.mark.(status := PageConfirmed, confirmedAt := Some(now));
        mark := mark.(finalText := if wasEdited then page.mark.reviewedText else Some(page.sheet.text));
        mark := mark.(version := page.mark.version + 1);
        assert page == before[i] && page.(mark := mark) == ConfirmedPage(before[i], now);
        pages := pages[i := page.(mark := mark)];
        i := i + 1;
      }
      assert pages == ConfirmedPages(before, now);
    }

    /** The writes of an accepted confirmation. */
    method Seal(snap: seq<SnapshotPage>, total: nat, now: real)
      requires total == TotalLength(snap)
      modifies this
      ensures State() == Sealed(old(State()), snap, now)
    {
      ConfirmPages(now);
      reviewStatus, confirmedAt, version, snapshot := ConfirmedReview, Some(now), version + 1, snap;
      snapshotVersion, totalLength, canConfirm := snapshotVersion + 1, total, false;
      status := Confirmed;
    }

    /** A confirmation that finds no stored snapshot. */
    method ConfirmFirst(now: real) returns (reply: ConfirmReply)
      modifies this
      ensures match SnapshotOf(old(pages), space)
        case Err(why) => State() == old(State()) && reply == NotConfirmed(why)
        case Ok(snap) => (State() == Sealed(old(State()), snap, now)
           && reply == Confirmation(FirstReceipt(old(State()), snap)))
    {
      var requestVersion := version;
      var res, changed := BuildConfirmationSnapshot();
      if res.Err? { return NotConfirmed(res.why); }
      var total := TotalLength(res.value);
      Seal(res.value, total, now);
      reply := Confirmation(Receipt(requestVersion + 1, snapshotVersion, |res.value|, changed, total, res.value));
    }

    method ConfirmExtraction(ifMatch: IfMatch, now: real) returns (reply: ConfirmReply)
      modifies this
      ensures match DecideConfirmation(old(State()), ifMatch, space)
        case Refused(why) => State() == old(State()) && reply == NotConfirmed(why)
        case Stored(receipt) => State() == old(State()) && reply == Confirmation(receipt)
        case New(snap, receipt) => State() == Sealed(old(State()), snap, now) && reply == Confirmation(receipt)
    {
      if !ifMatch.Number? { return NotConfirmed(VersionUnusable); }
      if ifMatch.n != version { return NotConfirmed(ConfirmationStale); }
      var requestVersion := version;
      var summary := BuildReviewSummary();
      if summary.status == ConfirmedReview {
        if snapshot != [] {
          return Confirmation(Receipt(requestVersion, snapshotVersion,
            summary.required, summary.edited, totalLength, snapshot));
        }
      }
      reply := ConfirmFirst(now);
    }
  }

  lemma SortKeepsLength(pages: seq<Page>)
    ensures |Sort(pages, PageBefore)| == |pages|
  {
    SortSorts(pages, PageBefore);
  }

  /** A page that cannot be confirmed decides the answer, whatever comes after it. */
  lemma SnapshotGrows(pages: seq<Page>, i: nat, done: seq<SnapshotPage>, item: SnapshotPage, space: Spacing)
    requires i < |pages| && SnapshotPages(pages[..i], space) == Ok(done) && SnapshotPageOf(pages[i], space) == Ok(item)
    ensures SnapshotPages(pages[..i + 1], space) == Ok(done + [item])
  {
    assert pages[..i + 1][..i] == pages[..i];
  }

  lemma CountsGrow(done: seq<SnapshotPage>, item: SnapshotPage)
    ensures Count(done + [item], IsChanged) == Count(done, IsChanged) + if IsChanged(item) then 1 else 0
    ensures TotalLength(done + [item]) == TotalLength(done) + |item.finalText|
  {
    assert (done + [item])[..|done|] == done;
  }

  lemma {:induction false} StopsAtTheFirst(pages: seq<Page>, i: nat, space: Spacing)
    requires i < |pages| && SnapshotPages(pages[..i], space).Ok?
    ensures var one := SnapshotPageOf(pages[i], space);
            one.Err? ==> SnapshotPages(pages, space) == Err(one.why)
    decreases |pages|
  {
    if i + 1 < |pages| {
      assert pages[..|pages| - 1][..i] == pages[..i];
      StopsAtTheFirst(pages[..|pages| - 1], i, space);
    }
  }
}
