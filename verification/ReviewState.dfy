/**
 The review of an extraction as a value: what a page patch and a confirmation do to it.
 White space is a parameter, encryption is transparent, and every request is one atomic step.
*/
module ReviewState {
  import opened Options
  import opened Sorting
  import opened TextLayout
  import Decimal

  const MAX_PAGE_REVIEW_TEXT := 200_000
  const MAX_DOCUMENT_REVIEW_TEXT := 1_000_000
  const NUL := 0 as char

  datatype PageStatus = Pending | NotRequired | Reviewed | Edited | PageConfirmed

  /** What extraction fixed about a page. */
  datatype Sheet = Sheet(
    number: int, pageId: Option<string>, required: bool, failure: Option<string>, blocked: bool, text: string)

  /** What review writes on a page. */
  datatype Mark = Mark(status: PageStatus, version: int, reviewedText: Option<string>, finalText: Option<string>,
                       textChanged: bool, reviewedAt: Option<real>, confirmedAt: Option<real>)

  datatype Page = Page(sheet: Sheet, mark: Mark)

  datatype ExtractionStatus = ReviewRequired | Confirmed

  datatype ReviewStatus = ConfirmedReview | NoReviewRequired | PendingReview | PartiallyReviewed | ReadyToConfirm

  datatype TextSource = FromEdit | FromOriginal

  datatype SnapshotPage = SnapshotPage(
    pageId: string, number: int, finalText: string, textSource: TextSource, textChanged: bool)

  datatype Review = Review(status: ExtractionStatus, requiresUserReview: bool, version: int, reviewStatus: ReviewStatus,
                           canConfirm: bool, blockingReasons: seq<string>, confirmedAt: Option<real>,
                           snapshot: seq<SnapshotPage>, snapshotVersion: int, totalLength: int, pages: seq<Page>)

  datatype Refusal =
    | AlreadyConfirmed | NotReviewable | PageNotFound | PageNotReviewable
    | VersionUnusable | PageConflict | ConfirmationStale
    | TextMissing | TextInvalid | ReviewIncomplete | HasFailedPages | FinalTextBlank | FinalTextTooLong

  datatype Result<T> = Ok(value: T) | Err(why: Refusal)

  /** The If-Match header, once read. */
  datatype IfMatch = Absent | Unreadable | Number(n: int)

  datatype PatchPayload = PatchPayload(version: Option<int>, asIs: Option<bool>, text: Option<string>)

  predicate Failed(s: Sheet) { s.failure.Some? && s.failure.value != "" }

  predicate ValidReviewText(text: string, space: Spacing) {
    NUL !in text && |text| <= MAX_PAGE_REVIEW_TEXT && !BlankText(text, space)
  }

  // ---------- the summary ----------

  function Count<T>(s: seq<T>, f: T -> bool): (n: nat)
    ensures n <= |s|
  {
    if s == [] then 0 else Count(s[..|s| - 1], f) + (if f(s[|s| - 1]) then 1 else 0)
  }

  predicate IsRequired(p: Page) { p.sheet.required }

  predicate IsReviewed(p: Page) { p.sheet.required && (p.mark.status == Reviewed || p.mark.status == Edited) }

  predicate IsEdited(p: Page) { p.mark.status == Edited }

  predicate IsFailed(p: Page) { Failed(p.sheet) }

  const FAILED_PAGES := "extraction_has_failed_pages"

  /** The failures of the pages that block analysis, each once, in page order. */
  function BlockingFailures(pages: seq<Page>): seq<string> {
    if pages == [] then []
    else
      var rest, s := BlockingFailures(pages[..|pages| - 1]), pages[|pages| - 1].sheet;
      if s.blocked && Failed(s) && s.failure.value !in rest then rest + [s.failure.value] else rest
  }

  function BlockingReasons(pages: seq<Page>, requiresUserReview: bool): seq<string> {
    var failures := BlockingFailures(pages);
    if Count(pages, IsRequired) > 0 && requiresUserReview && Count(pages, IsFailed) > 0 && FAILED_PAGES !in failures
    then failures + [FAILED_PAGES] else failures
  }

  function StatusFor(status: ExtractionStatus, required: nat, reviewed: nat): ReviewStatus {
    if status == Confirmed then ConfirmedReview
    else if required == 0 then NoReviewRequired
    else if reviewed == 0 then PendingReview
    else if reviewed < required then PartiallyReviewed
    else ReadyToConfirm
  }

  function ReviewStatusOf(r: Review): ReviewStatus {
    StatusFor(r.status, Count(r.pages, IsRequired), Count(r.pages, IsReviewed))
  }

  predicate CanConfirm(r: Review) {
    || (!r.requiresUserReview && Count(r.pages, IsFailed) == 0)
    || (&& Count(r.pages, IsRequired) == Count(r.pages, IsReviewed)
        && Count(r.pages, IsFailed) == 0
        && ReviewStatusOf(r) != PendingReview && ReviewStatusOf(r) != PartiallyReviewed)
  }

  // ---------- patching a page ----------

  function RequestVersion(ifMatch: IfMatch, payload: Option<int>): Option<int> {
    if payload.Some? then payload
    else match ifMatch
      case Number(n) => Some(n)
      case _ => None
  }

  predicate FirstWithId(pages: seq<Page>, id: string, k: nat) {
    && k < |pages| && pages[k].sheet.pageId == Some(id)
    && forall j :: 0 <= j < k ==> pages[j].sheet.pageId != Some(id)
  }

  function FindPage(pages: seq<Page>, id: string): (k: Option<nat>)
    ensures match k case Some(i) => FirstWithId(pages, id, i)
                    case None => forall j :: 0 <= j < |pages| ==> pages[j].sheet.pageId != Some(id)
  {
    if pages == [] then None
    else match FindPage(pages[..|pages| - 1], id)
      case Some(i) => Some(i)
      case None => if pages[|pages| - 1].sheet.pageId == Some(id) then Some(|pages| - 1) else None
  }

  datatype Decision = Refuse(why: Refusal) | Show(k: nat) | Save(k: nat, text: string)

  /** What becomes of a patch: refused, answered with a confirmed page as it is, or saved. */
  function Decide(r: Review, id: string, ifMatch: IfMatch, payload: PatchPayload, space: Spacing): (d: Decision)
    ensures d.Save? ==> d.k < |r.pages| && r.pages[d.k].sheet.required && !Failed(r.pages[d.k].sheet)
    ensures d.Save? ==> ValidReviewText(d.text, space) && r.status != Confirmed && r.requiresUserReview
    ensures d.Save? ==> r.pages[d.k].mark.status != PageConfirmed
    ensures d.Show? ==> d.k < |r.pages|
  {
    if r.status == Confirmed then Refuse(AlreadyConfirmed)
    else if !r.requiresUserReview then Refuse(NotReviewable)
    else match FindPage(r.pages, id)
      case None => Refuse(PageNotFound)
      case Some(k) =>
        var p := r.pages[k];
        if !p.sheet.required then Refuse(PageNotReviewable)
        else match RequestVersion(ifMatch, payload.version)
          case None => Refuse(VersionUnusable)
          case Some(v) =>
            var asIs := payload.asIs == Some(true);
            if v != p.mark.version then Refuse(PageConflict)
            else if p.mark.status == PageConfirmed then Show(k)
            else if !asIs && payload.text.None? then Refuse(TextMissing)
            else
              var text := if asIs then p.sheet.text else payload.text.value;
              if Failed(p.sheet) then Refuse(PageNotReviewable)
              else if !ValidReviewText(text, space) then Refuse(TextInvalid)
              else Save(k, text)
  }

  function SavedMark(p: Page, text: string, now: real): Mark {
    var changed := text != p.sheet.text;
    Mark(if changed then Edited else Reviewed, p.mark.version + 1, Some(text), Some(text), changed, Some(now), None)
  }

  function Patched(r: Review, k: nat, text: string, now: real): Review
    requires k < |r.pages|
  {
    var p := r.pages[k];
    var s := r.(pages := r.pages[k := p.(mark := SavedMark(p, text, now))], version := r.version + 1);
    s.(canConfirm := CanConfirm(s), blockingReasons := BlockingReasons(s.pages, s.requiresUserReview),
      reviewStatus := ReviewStatusOf(s))
  }

  // ---------- confirming ----------

  function SnapshotId(s: Sheet): string {
    match s.pageId
    case Some(id) => id
    case None => Decimal.PrintInt(s.number)
  }

  function FinalText(p: Page): Option<string> {
    if p.mark.status == Edited then p.mark.reviewedText else Some(p.sheet.text)
  }

  function SnapshotPageOf(p: Page, space: Spacing): Result<SnapshotPage> {
    if Failed(p.sheet) then Err(HasFailedPages)
    else if p.sheet.required && p.mark.status != Reviewed && p.mark.status != Edited then Err(ReviewIncomplete)
    else match FinalText(p)
      case None => Err(FinalTextBlank)
      case Some(text) =>
        if BlankText(text, space) then Err(FinalTextBlank)
        else if |text| > MAX_PAGE_REVIEW_TEXT then Err(FinalTextTooLong)
        else Ok(SnapshotPage(SnapshotId(p.sheet), p.sheet.number, text,
                             if p.mark.textChanged then FromEdit else FromOriginal, p.mark.textChanged))
  }

  /** The pages in turn, up to the first that cannot be confirmed. */
  function SnapshotPages(pages: seq<Page>, space: Spacing): Result<seq<SnapshotPage>> {
    if pages == [] then Ok([])
    else match SnapshotPages(pages[..|pages| - 1], space)
      case Err(why) => Err(why)
      case Ok(done) =>
        match SnapshotPageOf(pages[|pages| - 1], space)
        case Err(why) => Err(why)
        case Ok(s) => Ok(done + [s])
  }

  function TotalLength(snapshot: seq<SnapshotPage>): nat {
    if snapshot == [] then 0 else TotalLength(snapshot[..|snapshot| - 1]) + |snapshot[|snapshot| - 1].finalText|
  }

  predicate PageBefore(a: Page, b: Page) { a.sheet.number <= b.sheet.number }

  predicate NumberedFromOne(pages: seq<Page>) { forall i :: 0 <= i < |pages| ==> pages[i].sheet.number == i + 1 }

  function Ids(pages: seq<Page>): (ids: seq<string>)
    ensures |ids| == |pages| && forall i :: 0 <= i < |ids| ==> ids[i] == SnapshotId(pages[i].sheet)
  {
    seq(|pages|, i requires 0 <= i < |pages| => SnapshotId(pages[i].sheet))
  }

  predicate Distinct(ids: seq<string>) { forall i, j :: 0 <= i < j < |ids| ==> ids[i] != ids[j] }

  function SnapshotOf(pages: seq<Page>, space: Spacing): Result<seq<SnapshotPage>> {
    var sorted := Sort(pages, PageBefore);
    if pages == [] then Err(ReviewIncomplete)
    else if !NumberedFromOne(sorted) then Err(ReviewIncomplete)
    else if !Distinct(Ids(sorted)) then Err(ReviewIncomplete)
    else match SnapshotPages(sorted, space)
      case Err(why) => Err(why)
      case Ok(snapshot) =>
        if TotalLength(snapshot) > MAX_DOCUMENT_REVIEW_TEXT then Err(FinalTextTooLong) else Ok(snapshot)
  }

  function ConfirmedPage(p: Page, now: real): Page {
    p.(mark := p.mark.(status := PageConfirmed, confirmedAt := Some(now),
      finalText := FinalText(p), version := p.mark.version + 1))
  }

  function ConfirmedPages(pages: seq<Page>, now: real): (done: seq<Page>)
    ensures |done| == |pages| && forall i :: 0 <= i < |pages| ==> done[i] == ConfirmedPage(pages[i], now)
  {
    seq(|pages|, i requires 0 <= i < |pages| => ConfirmedPage(pages[i], now))
  }

  function Sealed(r: Review, snapshot: seq<SnapshotPage>, now: real): Review {
    r.(status := Confirmed, reviewStatus := ConfirmedReview, confirmedAt := Some(now),
      version := r.version + 1, snapshot := snapshot,
       snapshotVersion := r.snapshotVersion + 1, totalLength := TotalLength(snapshot), canConfirm := false,
       pages := ConfirmedPages(r.pages, now))
  }

  datatype Receipt = Receipt(
    version: int, snapshotVersion: int, confirmedPages: nat, changedPages: nat, totalLength: int,
    snapshot: seq<SnapshotPage>)

  predicate IsChanged(s: SnapshotPage) { s.textChanged }

  function FirstReceipt(r: Review, snapshot: seq<SnapshotPage>): Receipt {
    Receipt(r.version + 1, r.snapshotVersion + 1, |snapshot|,
      Count(snapshot, IsChanged), TotalLength(snapshot), snapshot)
  }

  datatype Confirmation =
    | Stored(receipt: Receipt)
    | New(snapshot: seq<SnapshotPage>, receipt: Receipt)
    | Refused(why: Refusal)

  /** What becomes of a confirmation: the stored snapshot again, a new one, or a refusal. */
  function DecideConfirmation(r: Review, ifMatch: IfMatch, space: Spacing): (c: Confirmation)
    ensures c.New? ==> ifMatch == Number(r.version) && SnapshotOf(r.pages, space) == Ok(c.snapshot)
    ensures c.Stored? ==> ifMatch == Number(r.version) && r.status == Confirmed && c.receipt.snapshot == r.snapshot
  {
    match ifMatch
    case Absent => Refused(VersionUnusable)
    case Unreadable => Refused(VersionUnusable)
    case Number(v) =>
      if v != r.version then Refused(ConfirmationStale)
      else if ReviewStatusOf(r) == ConfirmedReview && r.snapshot != [] then
        Stored(Receipt(v, r.snapshotVersion,
          Count(r.pages, IsRequired), Count(r.pages, IsEdited), r.totalLength, r.snapshot))
      else match SnapshotOf(r.pages, space)
        case Err(why) => Refused(why)
        case Ok(snapshot) =>
          New(snapshot, FirstReceipt(r, snapshot))
  }
}
