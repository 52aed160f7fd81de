/** Whole runs of review requests: what a confirmation seals, and what versions rule out. */
module ReviewRuns {
  import opened Options
  import opened Sorting
  import opened TextLayout
  import opened ReviewState

  datatype Request =
    | PatchPage(id: string, ifMatch: IfMatch, payload: PatchPayload, at: real)
    | ConfirmAll(ifMatch: IfMatch, at: real)

  function Serve(r: Review, q: Request, space: Spacing): Review {
    match q
    case PatchPage(id, ifMatch, payload, at) =>
      (match Decide(r, id, ifMatch, payload, space)
       case Save(k, text) => Patched(r, k, text, at)
       case _ => r)
    case ConfirmAll(ifMatch, at) =>
      match DecideConfirmation(r, ifMatch, space)
      case New(snapshot, _) => Sealed(r, snapshot, at)
      case _ => r
  }

  function Run(r: Review, qs: seq<Request>, space: Spacing): Review {
    if qs == [] then r else Serve(Run(r, qs[..|qs| - 1], space), qs[|qs| - 1], space)
  }

  // ---------- what the requests of a run saved ----------

  function SavedOn(r: Review, q: Request, k: nat, space: Spacing): Option<string> {
    if q.PatchPage? then
      var d := Decide(r, q.id, q.ifMatch, q.payload, space);
      if d.Save? && d.k == k then Some(d.text) else None
    else None
  }

  predicate Saves(r: Review, q: Request, space: Spacing) {
    q.PatchPage? && Decide(r, q.id, q.ifMatch, q.payload, space).Save?
  }

  /** The text of the last patch of page `k` that was accepted. */
  function LastAccepted(r: Review, qs: seq<Request>, k: nat, space: Spacing): Option<string> {
    if qs == [] then None
    else
      var n := |qs| - 1;
      var saved := SavedOn(Run(r, qs[..n], space), qs[n], k, space);
      if saved.Some? then saved else LastAccepted(r, qs[..n], k, space)
  }

  function Edits(r: Review, qs: seq<Request>, k: nat, space: Spacing): nat {
    if qs == [] then 0
    else
      var n := |qs| - 1;
      Edits(r, qs[..n], k, space) + (if SavedOn(Run(r, qs[..n], space), qs[n], k, space).Some? then 1 else 0)
  }

  function AllEdits(r: Review, qs: seq<Request>, space: Spacing): nat {
    if qs == [] then 0
    else
      var n := |qs| - 1;
      AllEdits(r, qs[..n], space) + (if Saves(Run(r, qs[..n], space), qs[n], space) then 1 else 0)
  }

  /** An extraction as it is stored: nothing reviewed, every version one. */
  predicate Fresh(r: Review) {
    && r.status == ReviewRequired && r.version == 1 && r.snapshot == [] && r.snapshotVersion == 0
    && forall k {:trigger FreshPage(r.pages[k])} :: 0 <= k < |r.pages| ==> FreshPage(r.pages[k])
  }

  predicate FreshPage(p: Page) {
    p.mark == Mark(if p.sheet.required then Pending else NotRequired, 1, None, None, false, None, None)
  }

  /** When a patch is saved, and with which text: the extraction is open for review, the page is the first with the
      identifier, required and not failed, the version named is the page's, and the text is the page's own if it is to
      stay as it is and otherwise the one sent, and a valid one. */
  lemma SavesIff(
    r: Review, id: string, ifMatch: IfMatch, payload: PatchPayload, k: nat, text: string, space: Spacing)
    ensures Decide(r, id, ifMatch, payload, space) == Save(k, text) <==>
      && r.status == ReviewRequired && r.requiresUserReview && FirstWithId(r.pages, id, k)
      && var p := r.pages[k];
         && p.sheet.required && !Failed(p.sheet) && p.mark.status != PageConfirmed
         && RequestVersion(ifMatch, payload.version) == Some(p.mark.version)
         && (if payload.asIs == Some(true) then text == p.sheet.text else payload.text == Some(text))
         && ValidReviewText(text, space)
  {
    if FirstWithId(r.pages, id, k) { FirstIsFound(r.pages, id, k); }
  }

  lemma FirstIsFound(pages: seq<Page>, id: string, k: nat)
    requires FirstWithId(pages, id, k)
    ensures FindPage(pages, id) == Some(k)
  {
    var found := FindPage(pages, id);
    assert found.Some?;
    assert FirstWithId(pages, id, found.value);
  }

  // ---------- what every reachable state remembers ----------

  function AcceptedText(s: Sheet, last: Option<string>): string { if last.Some? then last.value else s.text }

  predicate Changed(s: Sheet, last: Option<string>) { AcceptedText(s, last) != s.text }

  function StatusAfter(s: Sheet, last: Option<string>): PageStatus {
    if last.None? then (if s.required then Pending else NotRequired)
    else if Changed(s, last) then Edited else Reviewed
  }

  predicate PageTracks(s: Sheet, p: Page, last: Option<string>, edits: nat, sealed: bool, space: Spacing) {
    && p.sheet == s && (edits == 0 <==> last.None?)
    && (last.Some? ==> s.required && !Failed(s) && ValidReviewText(last.value, space))
    && p.mark.version == 1 + edits + (if sealed then 1 else 0)
    && p.mark.reviewedText == last && p.mark.textChanged == Changed(s, last)
    && p.mark.finalText == (if sealed then Some(AcceptedText(s, last)) else last)
    && p.mark.status == (if sealed then PageConfirmed else StatusAfter(s, last))
  }

  function Expected(s: Sheet, last: Option<string>): SnapshotPage {
    SnapshotPage(SnapshotId(s), s.number, AcceptedText(s, last),
      if Changed(s, last) then FromEdit else FromOriginal, Changed(s, last))
  }

  /** The snapshot holds the page at its number, with the text last accepted for it or, failing that, its original. */
  predicate Captures(s: Sheet, last: Option<string>, snapshot: seq<SnapshotPage>, space: Spacing) {
    && 1 <= s.number <= |snapshot| && snapshot[s.number - 1] == Expected(s, last)
    && !Failed(s) && (s.required ==> last.Some?) && !BlankText(AcceptedText(s, last), space)
  }

  predicate TrackedPage(r0: Review, qs: seq<Request>, r: Review, space: Spacing, k: nat)
    requires k < |r.pages| == |r0.pages|
  {
    PageTracks(r0.pages[k].sheet, r.pages[k],
      LastAccepted(r0, qs, k, space), Edits(r0, qs, k, space), r.status == Confirmed, space)
  }

  predicate CapturedPage(r0: Review, qs: seq<Request>, r: Review, space: Spacing, k: nat)
    requires k < |r0.pages|
  {
    Captures(r0.pages[k].sheet, LastAccepted(r0, qs, k, space), r.snapshot, space)
  }

  predicate Tracks(r0: Review, qs: seq<Request>, r: Review, space: Spacing) {
    && |r.pages| == |r0.pages| && r.requiresUserReview == r0.requiresUserReview
    && (forall k {:trigger TrackedPage(r0, qs, r, space, k)} :: 0 <= k < |r.pages| ==> TrackedPage(r0, qs, r, space, k))
    && r.version == 1 + AllEdits(r0, qs, space) + (if r.status == Confirmed then 1 else 0)
    && r.snapshotVersion == (if r.status == Confirmed then 1 else 0)
    && (r.status == Confirmed ==>
        |r.snapshot| == |r.pages| > 0 && r.totalLength == TotalLength(r.snapshot) && !r.canConfirm)
    && (r.status == Confirmed ==>
          forall k {:trigger CapturedPage(r0, qs, r, space, k)} ::
            0 <= k < |r.pages| ==> CapturedPage(r0, qs, r, space, k))
  }

  // ---------- the snapshot of sorted pages ----------

  lemma {:induction false} SnapshotPageByPage(pages: seq<Page>, space: Spacing)
    ensures var all := SnapshotPages(pages, space);
            && (all.Ok? <==> forall i {:trigger pages[i]} :: 0 <= i < |pages| ==> SnapshotPageOf(pages[i], space).Ok?)
            && (all.Ok? ==>
                  && |all.value| == |pages|
                  && forall i {:trigger pages[i]} ::
                       0 <= i < |pages| ==> SnapshotPageOf(pages[i], space) == Ok(all.value[i]))
  {
    if pages != [] {
      var n := |pages| - 1;
      SnapshotPageByPage(pages[..n], space);
      assert forall i {:trigger pages[i]} :: 0 <= i < n ==> pages[..n][i] == pages[i];
    }
  }

  lemma PageOrder()
    ensures TotalPreorder(PageBefore)
  {
  }

  /** When the sorted pages are numbered from one, a page stands at its number. */
  lemma StandsAtItsNumber(pages: seq<Page>, k: nat)
    requires k < |pages| && NumberedFromOne(Sort(pages, PageBefore))
    ensures |Sort(pages, PageBefore)| == |pages|
    ensures 1 <= pages[k].sheet.number <= |pages| && Sort(pages, PageBefore)[pages[k].sheet.number - 1] == pages[k]
  {
    PageOrder();
    var sorted := Sort(pages, PageBefore);
    SortSorts(pages, PageBefore);
    assert pages[k] in sorted;
    var i :| 0 <= i < |sorted| && sorted[i] == pages[k];
  }

  // ---------- one request ----------

  lemma SavingTracks(s: Sheet, p: Page, last: Option<string>, edits: nat, text: string, now: real, space: Spacing)
    requires PageTracks(s, p, last, edits, false, space)
    requires s.required && !Failed(s) && ValidReviewText(text, space)
    ensures PageTracks(s, p.(mark := SavedMark(p, text, now)), Some(text), edits + 1, false, space)
  {
  }

  lemma SealingTracks(s: Sheet, p: Page, last: Option<string>, edits: nat, now: real, space: Spacing)
    requires PageTracks(s, p, last, edits, false, space)
    ensures PageTracks(s, ConfirmedPage(p, now), last, edits, true, space)
    ensures FinalText(p) == Some(AcceptedText(s, last))
  {
  }

  predicate Ready(s: Sheet, last: Option<string>, space: Spacing) {
    && !Failed(s) && (s.required ==> last.Some?)
    && !BlankText(AcceptedText(s, last), space) && |AcceptedText(s, last)| <= MAX_PAGE_REVIEW_TEXT
  }

  /** The page goes into the snapshot exactly when it did not fail, was reviewed if it had to be, and its text will
      do. */
  lemma TrackedPageConfirms(s: Sheet, p: Page, last: Option<string>, edits: nat, space: Spacing)
    requires PageTracks(s, p, last, edits, false, space)
    ensures SnapshotPageOf(p, space).Ok? <==> Ready(s, last, space)
    ensures SnapshotPageOf(p, space).Ok? ==> SnapshotPageOf(p, space).value == Expected(s, last)
  {
  }

  lemma PatchTracks(r0: Review, qs: seq<Request>, b: Review, q: Request, space: Spacing)
    requires Tracks(r0, qs, b, space) && b == Run(r0, qs, space)
    requires q.PatchPage? && Decide(b, q.id, q.ifMatch, q.payload, space).Save?
    ensures Tracks(r0, qs + [q], Serve(b, q, space), space)
  {
    var all, r := qs + [q], Serve(b, q, space);
    assert all[..|all| - 1] == qs;
    var d := Decide(b, q.id, q.ifMatch, q.payload, space);
    forall k | 0 <= k < |r.pages| ensures TrackedPage(r0, all, r, space, k) {
      assert TrackedPage(r0, qs, b, space, k);
      if k == d.k {
        var last, edits := LastAccepted(r0, qs, k, space), Edits(r0, qs, k, space);
        SavingTracks(r0.pages[k].sheet, b.pages[k], last, edits, d.text, q.at, space);
      }
    }
  }

  lemma NothingTracks(r0: Review, qs: seq<Request>, b: Review, q: Request, space: Spacing)
    requires Tracks(r0, qs, b, space) && b == Run(r0, qs, space)
    requires q.PatchPage? ==> !Decide(b, q.id, q.ifMatch, q.payload, space).Save?
    requires q.ConfirmAll? ==> !DecideConfirmation(b, q.ifMatch, space).New?
    ensures Tracks(r0, qs + [q], Serve(b, q, space), space)
  {
    var all, r := qs + [q], Serve(b, q, space);
    assert all[..|all| - 1] == qs && r == b;
    forall k | 0 <= k < |r.pages| ensures TrackedPage(r0, all, r, space, k) { assert TrackedPage(r0, qs, b, space, k); }
    if r.status == Confirmed {
      forall k | 0 <= k < |r.pages| ensures CapturedPage(r0, all, r, space, k) {
        assert CapturedPage(r0, qs, b, space, k);
      }
    }
  }

  lemma {:induction false} StepTracks(r0: Review, qs: seq<Request>, b: Review, q: Request, space: Spacing)
    requires Tracks(r0, qs, b, space) && b == Run(r0, qs, space)
    ensures Tracks(r0, qs + [q], Serve(b, q, space), space)
  {
    if q.PatchPage? && Decide(b, q.id, q.ifMatch, q.payload, space).Save? {
      PatchTracks(r0, qs, b, q, space);
    } else if q.ConfirmAll? && DecideConfirmation(b, q.ifMatch, space).New? {
      ConfirmationTracks(r0, qs, b, q, space);
    } else {
      NothingTracks(r0, qs, b, q, space);
    }
  }

  lemma CapturedAtItsNumber(
    pages: seq<Page>, snapshot: seq<SnapshotPage>, k: nat, s: Sheet, last: Option<string>, edits: nat, space: Spacing)
    requires k < |pages| && PageTracks(s, pages[k], last, edits, false, space)
    requires SnapshotOf(pages, space) == Ok(snapshot)
    ensures Captures(s, last, snapshot, space)
  {
    var sorted := Sort(pages, PageBefore);
    StandsAtItsNumber(pages, k);
    SnapshotPageByPage(sorted, space);
    TrackedPageConfirms(s, pages[k], last, edits, space);
    assert SnapshotPageOf(sorted[s.number - 1], space) == Ok(snapshot[s.number - 1]);
  }

  lemma ConfirmationTracks(r0: Review, qs: seq<Request>, b: Review, q: Request, space: Spacing)
    requires Tracks(r0, qs, b, space) && b == Run(r0, qs, space)
    requires q.ConfirmAll? && DecideConfirmation(b, q.ifMatch, space).New?
    ensures Tracks(r0, qs + [q], Serve(b, q, space), space)
  {
    var all, r := qs + [q], Serve(b, q, space);
    assert all[..|all| - 1] == qs;
    var sorted := Sort(b.pages, PageBefore);
    SnapshotPageByPage(sorted, space);
    forall k | 0 <= k < |r.pages| ensures TrackedPage(r0, all, r, space, k) && CapturedPage(r0, all, r, space, k) {
      assert TrackedPage(r0, qs, b, space, k);
      var s, last, edits := r0.pages[k].sheet, LastAccepted(r0, qs, k, space), Edits(r0, qs, k, space);
      SealingTracks(s, b.pages[k], last, edits, q.at, space);
      CapturedAtItsNumber(b.pages, r.snapshot, k, s, last, edits, space);
    }
    assert |sorted| == |b.pages| by { PageOrder(); SortSorts(b.pages, PageBefore); }
  }

  // ---------- runs ----------

  /** Every reachable state remembers, page by page, what was last accepted, how often, and what a confirmation
      sealed. */
  lemma {:induction false} RunTracks(r0: Review, qs: seq<Request>, space: Spacing)
    requires Fresh(r0)
    ensures Tracks(r0, qs, Run(r0, qs, space), space)
  {
    if qs == [] {
      forall k | 0 <= k < |r0.pages| ensures TrackedPage(r0, qs, r0, space, k) { assert FreshPage(r0.pages[k]); }
    } else {
      var n := |qs| - 1;
      RunTracks(r0, qs[..n], space);
      StepTracks(r0, qs[..n], Run(r0, qs[..n], space), qs[n], space);
      assert qs[..n] + [qs[n]] == qs;
    }
  }

  /** What a confirmed extraction holds is what was accepted: for every page the text of its last accepted patch, or the
      original if none was, marked as edited exactly when it differs from the original; and every required page was
      accepted at least once. */
  lemma ConfirmedIsWhatWasAccepted(r0: Review, qs: seq<Request>, k: nat, space: Spacing)
    requires Fresh(r0) && k < |r0.pages|
    requires Run(r0, qs, space).status == Confirmed
    ensures var r, s, last := Run(r0, qs, space), r0.pages[k].sheet, LastAccepted(r0, qs, k, space);
      && |r.snapshot| == |r.pages| == |r0.pages| && 1 <= s.number <= |r.snapshot|
      && r.pages[k].mark.finalText == Some(AcceptedText(s, last))
      && r.snapshot[s.number - 1].finalText == AcceptedText(s, last) && r.snapshot[s.number - 1].number == s.number
      && (r.snapshot[s.number - 1].textSource == FromEdit <==> AcceptedText(s, last) != s.text)
      && (s.required ==> last.Some?)
      && !Failed(s) && !BlankText(AcceptedText(s, last), space)
  {
    RunTracks(r0, qs, space);
    var r := Run(r0, qs, space);
    assert TrackedPage(r0, qs, r, space, k) && CapturedPage(r0, qs, r, space, k);
  }

  /** An extraction with a failed page is never confirmed, whatever is asked of it. */
  lemma FailedPageIsNeverConfirmed(r0: Review, qs: seq<Request>, k: nat, space: Spacing)
    requires Fresh(r0) && k < |r0.pages| && Failed(r0.pages[k].sheet)
    ensures Run(r0, qs, space).status == ReviewRequired
    ensures LastAccepted(r0, qs, k, space) == None
  {
    RunTracks(r0, qs, space);
    var r := Run(r0, qs, space);
    assert TrackedPage(r0, qs, r, space, k);
    assert r.status == Confirmed ==> CapturedPage(r0, qs, r, space, k);
  }

  /** Versions count: a page's is one more than its accepted patches, the extraction's one more than all of them, and a
      confirmation adds one to each. */
  lemma VersionsCount(r0: Review, qs: seq<Request>, k: nat, space: Spacing)
    requires Fresh(r0) && k < |r0.pages|
    ensures var r := Run(r0, qs, space);
      var sealed := if r.status == Confirmed then 1 else 0;
      && |r.pages| == |r0.pages|
      && r.pages[k].mark.version == 1 + Edits(r0, qs, k, space) + sealed
      && r.version == 1 + AllEdits(r0, qs, space) + sealed && r.snapshotVersion == sealed
  {
    RunTracks(r0, qs, space);
    assert TrackedPage(r0, qs, Run(r0, qs, space), space, k);
  }

  lemma ConfirmedServesNothingNew(r: Review, q: Request, space: Spacing)
    requires r.status == Confirmed && r.snapshot != []
    ensures Serve(r, q, space) == r
  {
  }

  lemma RunAppend(r: Review, qs: seq<Request>, q: Request, space: Spacing)
    ensures Run(r, qs + [q], space) == Serve(Run(r, qs, space), q, space)
  {
    assert (qs + [q])[..|qs + [q]| - 1] == qs;
  }

  predicate Settled(r: Review) { r.status == Confirmed && r.snapshot != [] }

  lemma SettledAppend(r: Review, qs: seq<Request>, q: Request, space: Spacing)
    requires Settled(Run(r, qs, space))
    ensures Run(r, qs + [q], space) == Run(r, qs, space)
  {
    RunAppend(r, qs, q, space);
    ConfirmedServesNothingNew(Run(r, qs, space), q, space);
  }

  lemma SplitLast<T>(a: seq<T>, b: seq<T>)
    requires b != []
    ensures a + b == (a + b[..|b| - 1]) + [b[|b| - 1]]
  {
  }

  lemma {:induction false} ConfirmedStays(r: Review, qs: seq<Request>, more: seq<Request>, space: Spacing)
    requires Settled(Run(r, qs, space))
    ensures Run(r, qs + more, space) == Run(r, qs, space)
    decreases |more|
  {
    if more == [] {
      assert qs + more == qs;
    } else {
      var n := |more| - 1;
      ConfirmedStays(r, qs, more[..n], space);
      SettledAppend(r, qs + more[..n], more[n], space);
      SplitLast(qs, more);
    }
  }

  /** Once confirmed, no later request changes anything, every patch is refused, and confirming again at the current
      version gives the stored snapshot. */
  lemma ConfirmationIsFinal(r0: Review, qs: seq<Request>, more: seq<Request>, space: Spacing)
    requires Fresh(r0) && Run(r0, qs, space).status == Confirmed
    ensures Run(r0, qs + more, space) == Run(r0, qs, space)
    ensures var r := Run(r0, qs + more, space);
      && (forall id, ifMatch, payload :: Decide(r, id, ifMatch, payload, space) == Refuse(AlreadyConfirmed))
      && DecideConfirmation(r, Number(r.version), space).Stored?
      && DecideConfirmation(r, Number(r.version), space).receipt.snapshot == Run(r0, qs, space).snapshot
  {
    RunTracks(r0, qs, space);
    ConfirmedStays(r0, qs, more, space);
  }

  // ---------- versions as locks ----------

  lemma ServeRaisesVersions(r: Review, q: Request, k: nat, space: Spacing)
    requires k < |r.pages|
    ensures var s := Serve(r, q, space);
      && |s.pages| == |r.pages| && s.pages[k].mark.version >= r.pages[k].mark.version && s.version >= r.version
      && (SavedOn(r, q, k, space).Some? ==>
          s.pages[k].mark.version == r.pages[k].mark.version + 1 && s.version == r.version + 1)
  {
  }

  lemma {:induction false} RunRaisesVersions(r: Review, qs: seq<Request>, k: nat, space: Spacing)
    requires k < |r.pages|
    ensures var s := Run(r, qs, space);
      |s.pages| == |r.pages| && s.pages[k].mark.version >= r.pages[k].mark.version && s.version >= r.version
  {
    if qs != [] {
      var n := |qs| - 1;
      RunRaisesVersions(r, qs[..n], k, space);
      ServeRaisesVersions(Run(r, qs[..n], space), qs[n], k, space);
    }
  }

  /** Of two patches of a page that name the same version only the first can be accepted, however long after it the
      second comes; and a confirmation that names the version an accepted patch found is refused. */
  lemma OneWinnerPerVersion(r: Review, first: Request, qs: seq<Request>, second: Request, k: nat, space: Spacing)
    requires k < |r.pages| && SavedOn(r, first, k, space).Some?
    ensures var s := Run(Serve(r, first, space), qs, space);
      && (second.PatchPage? && RequestVersion(second.ifMatch, second.payload.version)
          == RequestVersion(first.ifMatch, first.payload.version)
          ==> SavedOn(s, second, k, space).None?)
      && DecideConfirmation(s, Number(r.version), space) == Refused(ConfirmationStale)
  {
    ServeRaisesVersions(r, first, k, space);
    RunRaisesVersions(Serve(r, first, space), qs, k, space);
  }
}
