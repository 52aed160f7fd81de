/**
 Review requests that overlap in time.  A request loads the extraction, decides on its copy, and writes by
 primary key: no version stands in a WHERE clause and no row is locked.
*/
module ReviewOverlap {
  import opened Options
  import opened TextLayout
  import opened ReviewState
  import opened ReviewRuns
  import opened ReviewConfirmation
  import Decimal

  /** The commit of a request that decided on the copy `l`, on what is stored by then.  A patch writes its page and the
      extraction's review data, a confirmation every page and the status. */
  function Write(s: Review, l: Review, q: Request, space: Spacing): Review {
    match q
    case PatchPage(id, ifMatch, payload, at) =>
      (match Decide(l, id, ifMatch, payload, space)
       case Save(k, text) => PatchedOver(s, Patched(l, k, text, at), k)
       case _ => s)
    case ConfirmAll(ifMatch, at) =>
      match DecideConfirmation(l, ifMatch, space)
      case New(snapshot, _) => Sealed(l, snapshot, at)
      case _ => s
  }

  function PatchedOver(s: Review, p: Review, k: nat): Review
    requires k < |p.pages|
  {
    p.(status := s.status, pages := if k < |s.pages| then s.pages[k := p.pages[k]] else s.pages)
  }

  // ---------- requests that do not overlap ----------

  type Handler = string

  datatype Step = Load(h: Handler) | Commit(h: Handler, q: Request)

  datatype State = State(stored: Review, copies: map<Handler, Review>)

  function Apply(s: State, step: Step, space: Spacing): State {
    match step
    case Load(h) => s.(copies := s.copies[h := s.stored])
    case Commit(h, q) =>
      if h in s.copies then State(Write(s.stored, s.copies[h], q, space), s.copies - {h}) else s
  }

  function After(r0: Review, steps: seq<Step>, space: Spacing): State {
    if steps == [] then State(r0, map[])
    else Apply(After(r0, steps[..|steps| - 1], space), steps[|steps| - 1], space)
  }

  /** The requests in the order of their commits. */
  function Requests(steps: seq<Step>): seq<Request> {
    if steps == [] then []
    else
      var before, last := Requests(steps[..|steps| - 1]), steps[|steps| - 1];
      if last.Commit? then before + [last.q] else before
  }

  /** Who has loaded since the last commit. */
  function Loaded(steps: seq<Step>): set<Handler> {
    if steps == [] then {}
    else
      match steps[|steps| - 1]
      case Load(h) => Loaded(steps[..|steps| - 1]) + {h}
      case Commit(_, _) => {}
  }

  /** Nobody commits between a request's load and its commit. */
  predicate NoneBetween(steps: seq<Step>) {
    steps == [] ||
    (var before, last := steps[..|steps| - 1], steps[|steps| - 1];
     NoneBetween(before) && (last.Commit? ==> last.h in Loaded(before)))
  }

  /** A copy that is still current makes the commit what the atomic request is. */
  lemma CurrentCopyIsAtomic(s: Review, q: Request, space: Spacing)
    ensures Write(s, s, q, space) == Serve(s, q, space)
  {
  }

  lemma {:induction false} LoadedIsCurrent(r0: Review, steps: seq<Step>, space: Spacing)
    ensures var s := After(r0, steps, space);
      forall h :: h in Loaded(steps) ==> h in s.copies && s.copies[h] == s.stored
  {
    if steps != [] { LoadedIsCurrent(r0, steps[..|steps| - 1], space); }
  }

  /** As long as nobody commits between a request's load and its commit, requests may overlap as they like: what is
      stored is what the same requests do one after the other, and everything proved of such runs holds. */
  lemma {:induction false} NoneBetweenIsAtomic(r0: Review, steps: seq<Step>, space: Spacing)
    requires NoneBetween(steps)
    ensures After(r0, steps, space).stored == Run(r0, Requests(steps), space)
  {
    if steps != [] {
      var before, last := steps[..|steps| - 1], steps[|steps| - 1];
      NoneBetweenIsAtomic(r0, before, space);
      LoadedIsCurrent(r0, before, space);
      if last.Commit? {
        CurrentCopyIsAtomic(After(r0, before, space).stored, last.q, space);
        RunAppend(r0, Requests(before), last.q, space);
      }
    }
  }

  // ---------- when two patches of one version both win ----------

  lemma ServeKeepsConfirmed(r: Review, q: Request, space: Spacing)
    requires r.status == Confirmed
    ensures Serve(r, q, space).status == Confirmed
  {
  }

  /** Over a run of whole requests page versions never fall and a confirmation stays. */
  lemma {:induction false} PrefixRaises(r0: Review, qs: seq<Request>, a: nat, b: nat, k: nat, space: Spacing)
    requires a <= b <= |qs| && k < |Run(r0, qs[..a], space).pages|
    ensures var x, y := Run(r0, qs[..a], space), Run(r0, qs[..b], space);
      && |x.pages| == |y.pages| && x.pages[k].mark.version <= y.pages[k].mark.version
      && (x.status == Confirmed ==> y.status == Confirmed)
    decreases b
  {
    if a < b {
      PrefixRaises(r0, qs, a, b - 1, k, space);
      var r := Run(r0, qs[..b - 1], space);
      assert qs[..b - 1] + [qs[b - 1]] == qs[..b];
      RunAppend(r0, qs[..b - 1], qs[b - 1], space);
      ServeRaisesVersions(r, qs[b - 1], k, space);
      if r.status == Confirmed { ServeKeepsConfirmed(r, qs[b - 1], space); }
    }
  }

  predicate Sends(s: Sheet, payload: PatchPayload, space: Spacing) {
    if payload.asIs == Some(true) then ValidReviewText(s.text, space)
    else payload.text.Some? && ValidReviewText(payload.text.value, space)
  }

  /** The identifier names page `k`, and the page can be patched while the extraction is open. */
  predicate Patchable(r0: Review, id: string, k: nat) {
    && Fresh(r0) && k < |r0.pages| && r0.requiresUserReview && FirstWithId(r0.pages, id, k)
    && r0.pages[k].sheet.required && !Failed(r0.pages[k].sheet)
  }

  /** When a patch that could be saved on an open page is saved on the copy loaded after `i` requests. */
  lemma SavedOnCopyIff(r0: Review, qs: seq<Request>, k: nat, q: Request, space: Spacing)
    requires q.PatchPage? && Patchable(r0, q.id, k) && Sends(r0.pages[k].sheet, q.payload, space)
    ensures var l := Run(r0, qs, space);
      SavedOn(l, q, k, space).Some?
      <==> (l.status == ReviewRequired
            && RequestVersion(q.ifMatch, q.payload.version) == Some(1 + Edits(r0, qs, k, space)))
  {
    var l := Run(r0, qs, space);
    SameIds(r0, qs, q.id, k, space);
    PageInRun(r0, qs, k, space);
    SavedHereIff(l, q, k, space);
  }

  lemma PageInRun(r0: Review, qs: seq<Request>, k: nat, space: Spacing)
    requires Fresh(r0) && k < |r0.pages|
    ensures var l := Run(r0, qs, space);
      && |l.pages| == |r0.pages| && l.requiresUserReview == r0.requiresUserReview
      && l.pages[k].sheet == r0.pages[k].sheet
      && (l.status == ReviewRequired ==>
            l.pages[k].mark.status != PageConfirmed && l.pages[k].mark.version == 1 + Edits(r0, qs, k, space))
  {
    RunTracks(r0, qs, space);
    assert TrackedPage(r0, qs, Run(r0, qs, space), space, k);
  }

  lemma SavedHereIff(l: Review, q: Request, k: nat, space: Spacing)
    requires q.PatchPage? && l.requiresUserReview && FirstWithId(l.pages, q.id, k)
    requires var s := l.pages[k].sheet; s.required && !Failed(s) && Sends(s, q.payload, space)
    ensures SavedOn(l, q, k, space).Some?
      <==> (l.status == ReviewRequired && l.pages[k].mark.status != PageConfirmed
            && RequestVersion(q.ifMatch, q.payload.version) == Some(l.pages[k].mark.version))
  {
    var text := if q.payload.asIs == Some(true) then l.pages[k].sheet.text else q.payload.text.value;
    SavesIff(l, q.id, q.ifMatch, q.payload, k, text, space);
    var d := Decide(l, q.id, q.ifMatch, q.payload, space);
    if d.Save? { SavesIff(l, q.id, q.ifMatch, q.payload, d.k, d.text, space); }
  }

  lemma SameIds(r0: Review, qs: seq<Request>, id: string, k: nat, space: Spacing)
    requires Fresh(r0) && k < |r0.pages|
    ensures FirstWithId(r0.pages, id, k) <==> FirstWithId(Run(r0, qs, space).pages, id, k)
  {
    var l := Run(r0, qs, space);
    RunTracks(r0, qs, space);
    forall j | 0 <= j < |r0.pages| ensures l.pages[j].sheet == r0.pages[j].sheet {
      assert TrackedPage(r0, qs, l, space, j);
    }
  }

  /** After the requests `before`, `first` is a patch of page `k` that is accepted. */
  predicate Wins(r0: Review, before: seq<Request>, first: Request, k: nat, space: Spacing) {
    && Fresh(r0) && k < |r0.pages| && |Run(r0, before, space).pages| == |r0.pages|
    && SavedOn(Run(r0, before, space), first, k, space).Some?
  }

  /** A patch of the same page that names the same version and sends a valid text. */
  predicate Rivals(s: Sheet, first: Request, second: Request, space: Spacing)
    requires first.PatchPage?
  {
    && second.PatchPage? && second.id == first.id && Sends(s, second.payload, space)
    && RequestVersion(second.ifMatch, second.payload.version) == RequestVersion(first.ifMatch, first.payload.version)
  }

  /** A rival of an accepted patch that decides on the copy loaded after the first `i` requests is accepted too if and
      only if it loaded before the other's commit and after the page's last accepted patch before that. */
  lemma BothWinIff(r0: Review, qs: seq<Request>, j: nat, i: nat, second: Request, k: nat, space: Spacing)
    requires j < |qs| && i <= |qs| && Wins(r0, qs[..j], qs[j], k, space)
    requires Rivals(r0.pages[k].sheet, qs[j], second, space)
    ensures SavedOn(Run(r0, qs[..i], space), second, k, space).Some?
      <==> i <= j && Edits(r0, qs[..i], k, space) == Edits(r0, qs[..j], k, space)
  {
    RivalSavedIff(r0, qs[..j], qs[j], qs[..i], second, k, space);
    if i <= j {
      OpenBefore(r0, qs, i, j, k, space);
    } else {
      MoreEditsAfter(r0, qs, i, j, k, space);
    }
  }

  lemma RivalSavedIff(r0: Review, before: seq<Request>, first: Request, loaded: seq<Request>, second: Request, k: nat,
                      space: Spacing)
    requires Wins(r0, before, first, k, space) && Rivals(r0.pages[k].sheet, first, second, space)
    ensures SavedOn(Run(r0, loaded, space), second, k, space).Some?
      <==> (Run(r0, loaded, space).status == ReviewRequired
            && Edits(r0, loaded, k, space) == Edits(r0, before, k, space))
    ensures Run(r0, before, space).status == ReviewRequired
  {
    var v := RivalNames(r0, before, first, second, k, space);
    SavedOnCopyIff(r0, loaded, k, second, space);
  }

  lemma RivalNames(r0: Review, before: seq<Request>, first: Request, second: Request, k: nat, space: Spacing)
    returns (v: int)
    requires Wins(r0, before, first, k, space) && Rivals(r0.pages[k].sheet, first, second, space)
    ensures v == 1 + Edits(r0, before, k, space) && Run(r0, before, space).status == ReviewRequired
    ensures second.PatchPage? && Patchable(r0, second.id, k) && Sends(r0.pages[k].sheet, second.payload, space)
    ensures RequestVersion(second.ifMatch, second.payload.version) == Some(v)
  {
    WinnerNames(r0, before, first, k, space);
    v := 1 + Edits(r0, before, k, space);
  }

  lemma WinnerNames(r0: Review, before: seq<Request>, first: Request, k: nat, space: Spacing)
    requires Wins(r0, before, first, k, space)
    ensures Run(r0, before, space).status == ReviewRequired && Patchable(r0, first.id, k)
    ensures RequestVersion(first.ifMatch, first.payload.version) == Some(1 + Edits(r0, before, k, space))
  {
    var won := Run(r0, before, space);
    var text := SavedOn(won, first, k, space).value;
    SavesIff(won, first.id, first.ifMatch, first.payload, k, text, space);
    SameIds(r0, before, first.id, k, space);
    PageInRun(r0, before, k, space);
  }

  /** An accepted patch raises its page's version. */
  lemma WinnerRaises(r0: Review, before: seq<Request>, first: Request, k: nat, space: Spacing)
    requires Wins(r0, before, first, k, space)
    ensures var after := Run(r0, before + [first], space);
      |after.pages| == |r0.pages| && after.pages[k].mark.version == 2 + Edits(r0, before, k, space)
  {
    WinnerNames(r0, before, first, k, space);
    PageInRun(r0, before, k, space);
    RunAppend(r0, before, first, space);
    ServeRaisesVersions(Run(r0, before, space), first, k, space);
  }

  lemma OpenBefore(r0: Review, qs: seq<Request>, i: nat, j: nat, k: nat, space: Spacing)
    requires Fresh(r0) && k < |r0.pages| && i <= j <= |qs| && Run(r0, qs[..j], space).status == ReviewRequired
    ensures Run(r0, qs[..i], space).status == ReviewRequired
  {
    PageInRun(r0, qs[..i], k, space);
    PrefixRaises(r0, qs, i, j, k, space);
  }

  lemma MoreEditsAfter(r0: Review, qs: seq<Request>, i: nat, j: nat, k: nat, space: Spacing)
    requires j < i <= |qs| && Wins(r0, qs[..j], qs[j], k, space)
    ensures Run(r0, qs[..i], space).status == ReviewRequired ==>
      Edits(r0, qs[..i], k, space) > Edits(r0, qs[..j], k, space)
  {
    WinnerRaises(r0, qs[..j], qs[j], k, space);
    assert qs[..j] + [qs[j]] == qs[..j + 1];
    PrefixRaises(r0, qs, j + 1, i, k, space);
    PageInRun(r0, qs[..i], k, space);
  }

  // ---------- what a commit on a stale copy destroys ----------

  /** A patch accepted on a copy is refused by a fresh read of the same extraction if and only if by then the extraction
      has been confirmed or the page has another version; the commit asks neither. */
  lemma StaleAcceptIff(s: Review, l: Review, q: Request, k: nat, space: Spacing)
    requires SavedOn(l, q, k, space).Some? && s.requiresUserReview == l.requiresUserReview && |s.pages| == |l.pages|
    requires forall j :: 0 <= j < |l.pages| ==> s.pages[j].sheet == l.pages[j].sheet
    requires s.pages[k].mark.status == PageConfirmed ==> s.status == Confirmed
    ensures SavedOn(s, q, k, space).None?
      <==> s.status == Confirmed || s.pages[k].mark.version != l.pages[k].mark.version
  {
    var text := SavedOn(l, q, k, space).value;
    SavesIff(l, q.id, q.ifMatch, q.payload, k, text, space);
    SavesIff(s, q.id, q.ifMatch, q.payload, k, text, space);
    var d := Decide(s, q.id, q.ifMatch, q.payload, space);
    if d.Save? { SavesIff(s, q.id, q.ifMatch, q.payload, d.k, d.text, space); }
  }

  /** Such a commit leaves the page as it would have been without whatever was stored since the load, and takes the
      extraction's review data, the confirmed snapshot included, back to the copy's; only the status stays. */
  lemma StaleCommitRevives(s: Review, l: Review, q: Request, k: nat, space: Spacing)
    requires SavedOn(l, q, k, space).Some? && |s.pages| == |l.pages|
    ensures var t := Write(s, l, q, space); var text := SavedOn(l, q, k, space).value;
      && t.status == s.status && t.snapshot == l.snapshot && t.version == l.version + 1
      && |t.pages| == |s.pages| && t.pages[k].mark == SavedMark(l.pages[k], text, q.at)
      && forall j :: 0 <= j < |s.pages| && j != k ==> t.pages[j] == s.pages[j]
  {
  }

  /** A confirmation that decided on a stale copy writes the copy's pages over whatever was stored since: a patch
      committed meanwhile is gone, and the snapshot does not hold it. */
  lemma StaleConfirmationRevives(s: Review, l: Review, q: Request, space: Spacing)
    requires q.ConfirmAll? && DecideConfirmation(l, q.ifMatch, space).New?
    ensures var t := Write(s, l, q, space);
      && t.status == Confirmed && t.snapshot == DecideConfirmation(l, q.ifMatch, space).snapshot
      && t.version == l.version + 1 && |t.pages| == |l.pages|
      && forall k :: 0 <= k < |l.pages| ==>
           && t.pages[k].sheet == l.pages[k].sheet && t.pages[k].mark.reviewedText == l.pages[k].mark.reviewedText
           && t.pages[k].mark.version == l.pages[k].mark.version + 1 && t.pages[k].mark.status == PageConfirmed
  {
  }

  function PatchTo(text: string, version: int): Request {
    PatchPage("page-1", Absent, PatchPayload(Some(version), None, Some(text)), 0.0)
  }

  lemma ShortTextIsValid(c: char, space: Spacing)
    requires !space(c) && c != NUL
    ensures ValidReviewText([c], space)
  {
    assert !space([c][0]);
  }

  lemma SavesTheText(l: Review, q: Request, k: nat, text: string, space: Spacing)
    requires SavedOn(l, q, k, space).Some? && q.payload.asIs.None? && q.payload.text == Some(text)
    ensures SavedOn(l, q, k, space) == Some(text)
  {
    var d := Decide(l, q.id, q.ifMatch, q.payload, space);
    SavesIff(l, q.id, q.ifMatch, q.payload, d.k, d.text, space);
  }

  lemma OnePageHasThePage(space: Spacing)
    ensures var r0 := OnePage();
      |r0.pages| == 1 && Patchable(r0, "page-1", 0)
  {
    assert Decimal.Print(1) == "1";
    assert "page-" + "1" == "page-1";
    OnePageIsStorable(space);
  }

  lemma OnePageSaves(qs: seq<Request>, q: Request, space: Spacing)
    requires q.PatchPage? && q.id == "page-1" && Sends(OnePage().pages[0].sheet, q.payload, space)
    requires Run(OnePage(), qs, space).status == ReviewRequired
    requires RequestVersion(q.ifMatch, q.payload.version) == Some(1 + Edits(OnePage(), qs, 0, space))
    ensures SavedOn(Run(OnePage(), qs, space), q, 0, space).Some?
  {
    OnePageHasThePage(space);
    SavedOnCopyIff(OnePage(), qs, 0, q, space);
  }

  lemma OnePageTakes(version: int, c: char, qs: seq<Request>, space: Spacing)
    requires !space(c) && c != NUL && Run(OnePage(), qs, space).status == ReviewRequired
    requires version == 1 + Edits(OnePage(), qs, 0, space)
    ensures SavedOn(Run(OnePage(), qs, space), PatchTo([c], version), 0, space) == Some([c])
  {
    var q := PatchTo([c], version);
    ShortTextIsValid(c, space);
    OnePageSaves(qs, q, space);
    SavesTheText(Run(OnePage(), qs, space), q, 0, [c], space);
  }

  /** Two patches that both load before either commits are both accepted at version one; the second erases the first,
      and the version counts one of them. */
  lemma SecondPatchErasesFirst(space: Spacing)
    requires !space('y') && !space('z')
    ensures var steps := [Load("a"), Load("b"), Commit("a", PatchTo("y", 1)), Commit("b", PatchTo("z", 1))];
      var s := After(OnePage(), steps, space).stored;
      && SavedOn(OnePage(), PatchTo("y", 1), 0, space) == Some("y")
      && SavedOn(OnePage(), PatchTo("z", 1), 0, space) == Some("z")
      && |s.pages| == 1 && s.pages[0].mark.reviewedText == Some("z") && s.pages[0].mark.version == 2 && s.version == 2
  {
    var r0 := OnePage();
    var a, b := PatchTo("y", 1), PatchTo("z", 1);
    OnePageTakes(1, 'y', [], space);
    OnePageTakes(1, 'z', [], space);
    var s2 := FourSteps(r0, a, b, space);
    StaleCommitRevives(r0, r0, a, 0, space);
    StaleCommitRevives(Write(r0, r0, a, space), r0, b, 0, space);
  }

  /** A patch that loads before a confirmation commits and commits after it erases the confirmed snapshot: the
      extraction stays confirmed and has none. */
  lemma PatchErasesSnapshot(space: Spacing, at: real)
    requires !space('y') && !space('z')
    ensures var r := Run(OnePage(), [EditRequest()], space);
      var confirm := ConfirmAll(Number(2), at);
      var steps := [Load("a"), Load("b"), Commit("a", confirm), Commit("b", PatchTo("z", 2))];
      var s := After(r, steps, space).stored;
      && Serve(r, confirm, space).status == Confirmed && Serve(r, confirm, space).snapshot != []
      && s.status == Confirmed && s.snapshot == [] && |s.pages| == 1
      && s.pages[0].mark.status == Edited && s.pages[0].mark.reviewedText == Some("z")
  {
    var r := EditedPage(space);
    var confirm, patch := ConfirmAll(Number(2), at), PatchTo("z", 2);
    OnePageTakes(2, 'z', [EditRequest()], space);
    RunTracks(OnePage(), [EditRequest()], space);
    SecondReceiptCanDiffer(space, at);
    assert [EditRequest()][..0] == [];
    assert AllEdits(OnePage(), [EditRequest()], space) == 1;
    SnapshotHasEveryPage(r.pages, space);
    var s := FourSteps(r, confirm, patch, space);
    StaleCommitRevives(Write(r, r, confirm, space), r, patch, 0, space);
  }

  lemma FourSteps(r0: Review, a: Request, b: Request, space: Spacing) returns (s: State)
    ensures s == After(r0, [Load("a"), Load("b"), Commit("a", a), Commit("b", b)], space)
    ensures s.stored == Write(Write(r0, r0, a, space), r0, b, space)
  {
    var steps := [Load("a"), Load("b"), Commit("a", a), Commit("b", b)];
    assert steps[..3][..2] == steps[..2] && steps[..2][..1] == steps[..1] && steps[..1][..0] == [];
    s := After(r0, steps, space);
    var s1 := Apply(State(r0, map[]), steps[0], space);
    assert After(r0, steps[..1], space) == s1 && s1.stored == r0 && "a" in s1.copies && s1.copies["a"] == r0;
    var s2 := Apply(s1, steps[1], space);
    assert After(r0, steps[..2], space) == s2 && s2.stored == r0 && "a" in s2.copies && s2.copies["a"] == r0;
    assert "b" in s2.copies && s2.copies["b"] == r0;
    var s3 := Apply(s2, steps[2], space);
    assert After(r0, steps[..3], space) == s3;
    assert s3.stored == Write(r0, r0, a, space) && "b" in s3.copies && s3.copies["b"] == r0;
  }
}
