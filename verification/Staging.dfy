/** Staging a captured corpus: pages split until they fit, every decoded unit
    staged in order, and the sealed result accepted by the exhaustive check. */
module Staging {
  import opened Wrappers
  import opened Control
  import opened Graph
  import opened Protocol
  import opened Verify
  import opened UnitSpans
  import opened Store
  import Acceptance
  import BuildSteps
  import PendingSteps
  import Progress

  const MAX_REQUEST_BYTES: nat := 1_048_576

  datatype Failure = Stored(error: Error) | UnitTooLarge | WireFailed | Unreadable | NotPrepared | Unmatched | Overflow

  /** Measured size of the backend request a page would become. */
  datatype Wire = Size(bytes: nat) | RequestTooLarge | Broken

  /** The point still names the unit of the decoded artifact it was made from. */
  predicate Hydrates(units: seq<UnitSpan>, e: Evidence) {
    && e.unit < |units|
    && units[e.unit] == UnitSpan(e.start, e.end, e.lineStart, e.lineEnd, e.startsAtLine, e.endsAtLine)
  }

  /** Whether a page must be split before it can be staged. */
  predicate Oversized(points: seq<Point>, wire: seq<Point> -> Wire) {
    match PageSize(Page(points, None))
    case Err(e) => e == Limit
    case Ok(size) => size > MAX_PAGE_BYTES || wire(points) == RequestTooLarge
                     || (wire(points).Size? && wire(points).bytes > MAX_REQUEST_BYTES)
  }

  /** Points of a stack of pages, the top page first. */
  function StackPoints(stack: seq<seq<Point>>): seq<Point> {
    if stack == [] then [] else stack[|stack|-1] + StackPoints(stack[..|stack|-1])
  }

  function Weight(stack: seq<seq<Point>>): nat {
    if stack == [] then 0
    else Weight(stack[..|stack|-1]) + if |stack[|stack|-1]| == 0 then 1 else 2 * |stack[|stack|-1]| - 1
  }

  function Flat(pages: seq<Page>): seq<Point> {
    if pages == [] then [] else Flat(pages[..|pages|-1]) + pages[|pages|-1].points
  }

  /** A page that was staged fitted both limits as it stood. */
  predicate Fitted(page: Page, wire: seq<Point> -> Wire) {
    && EncodePage(page).Ok? && EncodePage(page).value <= MAX_PAGE_BYTES
    && wire(page.points).Size? && wire(page.points).bytes <= MAX_REQUEST_BYTES
    && page.requestBytes == Some(wire(page.points).bytes)
  }

  // ------------------------------------------------ the build being staged

  /** The pending build of `handle` holds exactly these points so far. */
  ghost predicate Staged(db: Db, handle: Pending, content: map<Id, Captured>, points: seq<Point>, finished: set<Id>) {
    var q := handle.generation.sequence;
    && db.Header().pending.Some?
    && var g := db.Header().pending.value.generation;
    && g.sequence == q && g.namespace == handle.generation.namespace
    && db.Header().pending.value.inFlight.None?
    && g.pointCount == |points| && Points(At(db.pages, q), g.pageCount) == points
    && At(db.sources, q).Keys == content.Keys
    && (forall id :: id in content ==>
          At(db.sources, q)[id].captured == content[id] && (At(db.sources, q)[id].complete <==> id in finished))
  }

  lemma StagedMore(s: Sys, handle: Pending, content: map<Id, Captured>, points: seq<Point>, finished: set<Id>, page: Page)
    requires Inv(s) && StagePage(s.db, handle, page).Ok? && Staged(s.db, handle, content, points, finished)
    ensures Staged(Next(s, PutPage(handle, page)).db, handle, content, points + page.points, finished)
    ensures EncodePage(page).Ok?
  {
    hide CorpusInv, HeaderInv, FreshInv, LedgerInv, RetireInv, StagePage, EncodePage, Next, StagePoints,
         PendingSteps.EditsPending, Coherent, StageInv, At, OwnershipInv;
    var t := Next(s, PutPage(handle, page));
    PendingSteps.PutPageEffect(s, handle, page);
    var p := s.db.Header().pending.value;
    var q := p.generation.sequence;
    assert CoherentAt(s.db, p.generation);
    StagePageKeeps(q, At(s.db.sources, q), At(s.db.pages, q), At(s.db.evidence, q),
                   p.generation.pointCount, p.generation.pageCount, page);
  }

  lemma FinishedMore(s: Sys, handle: Pending, content: map<Id, Captured>, points: seq<Point>, finished: set<Id>,
                     id: Id, units: nat)
    requires FinishSource(s.db, handle, id, units).Ok? && Staged(s.db, handle, content, points, finished)
    ensures Staged(Next(s, Finish(handle, id, units)).db, handle, content, points, finished + {id})
  {
    hide FinishSource, Next, Points;
    PendingSteps.FinishEffect(s, handle, id, units);
  }

  lemma SealedStill(s: Sys, handle: Pending, content: map<Id, Captured>, points: seq<Point>, finished: set<Id>)
    requires CompleteCapture(s.db, handle).Ok? && Staged(s.db, handle, content, points, finished)
    ensures var t := Next(s, Seal(handle)).db;
            && Staged(t, handle, content, points, finished)
            && t.Header().pending == Some(CompleteCapture(s.db, handle).value.1)
            && CompleteCapture(s.db, handle).value.1.captureComplete
            && CompleteCapture(s.db, handle).value.1.inFlight.None?
  {
    hide Decodes, Points;
  }

  // ------------------------------------------------------- what goes on

  /** The same open build of the same capture, with more of its rows staged. */
  predicate SameCourse(before: Db, after: Db) {
    && BesidePending(before, after)
    && before.Header().pending.Some? && after.Header().pending.Some?
    && var p, l := before.Header().pending.value, after.Header().pending.value;
    && PendingSteps.SameGeneration(p.generation, l.generation) && l.sourceNamespace == p.sourceNamespace
    && l.captureComplete == p.captureComplete && l.inFlight == p.inFlight
  }

  lemma CourseTrans(a: Db, b: Db, c: Db)
    requires SameCourse(a, b) && SameCourse(b, c)
    ensures SameCourse(a, c)
  {
  }

  lemma StageCourse(s: Sys, handle: Pending, page: Page)
    requires StagePage(s.db, handle, page).Ok?
    ensures SameCourse(s.db, Next(s, PutPage(handle, page)).db)
  {
    PendingSteps.PutPageEffect(s, handle, page);
    hide StagePage, StagePoints, EncodePage, At, Next;
  }

  lemma FinishCourse(s: Sys, handle: Pending, id: Id, units: nat)
    requires FinishSource(s.db, handle, id, units).Ok?
    ensures SameCourse(s.db, Next(s, Finish(handle, id, units)).db)
  {
    PendingSteps.FinishEffect(s, handle, id, units);
    hide FinishSource, At, Next;
  }

  /** The build may still be sealed: it is open, and the corpus is the one it
      captured. */
  predicate Open(db: Db, sources: nat) {
    && db.Header().pending.Some?
    && var p := db.Header().pending.value;
    && !p.captureComplete && WantedIs(db, p.sourceNamespace, p.generation.wanted) && p.generation.sourceCount == sources
  }

  lemma StillOpen(before: Db, after: Db, sources: nat)
    requires SameCourse(before, after)
    ensures Open(after, sources) <==> Open(before, sources)
  {
  }

  /** The point is the next one of a captured source that is not finished. */
  predicate NextIn(q: nat, content: map<Id, Captured>, finished: set<Id>, before: seq<Point>, point: Point) {
    var e := point.evidence;
    && point.id == PointId(q, |before|)
    && e.source in content && e.source !in finished && Binds(Entry(content[e.source], 0, false), e)
    && e.unit == |UnitsOf(before, e.source)|
  }

  predicate NextAll(q: nat, content: map<Id, Captured>, finished: set<Id>, before: seq<Point>, points: seq<Point>) {
    forall i :: 0 <= i < |points| ==> NextIn(q, content, finished, before + points[..i], points[i])
  }

  lemma NextPart(q: nat, content: map<Id, Captured>, finished: set<Id>, before: seq<Point>, points: seq<Point>,
                 at: nat, page: seq<Point>)
    requires NextAll(q, content, finished, before, points)
    requires at + |page| <= |points| && page == points[at..at + |page|]
    ensures NextAll(q, content, finished, before + points[..at], page)
  {
    hide NextIn;
    forall i | 0 <= i < |page| ensures NextIn(q, content, finished, before + points[..at] + page[..i], page[i]) {
      assert points[..at] + page[..i] == points[..at + i];
      assert before + points[..at] + page[..i] == before + (points[..at] + page[..i]);
      assert points[at + i] == page[i];
    }
  }

  /** Such points are accepted in any page that encodes. */
  lemma PutSucceeds(s: Sys, handle: Pending, content: map<Id, Captured>, before: seq<Point>, finished: set<Id>, page: Page)
    requires Inv(s) && Staged(s.db, handle, content, before, finished) && EncodePage(page).Ok?
    requires !s.db.Header().pending.value.captureComplete && |before| + |page.points| <= MAX_POINTS
    requires NextAll(handle.generation.sequence, content, finished, before, page.points)
    ensures StagePage(s.db, handle, page).Ok?
  {
    hide CorpusInv, FreshInv, LedgerInv, RetireInv, HeaderInv, RowsInv, EncodePage, StagePage, Points, UnitsOf;
    var q := handle.generation.sequence;
    Progress.PendingLoads(s.db, handle);
    forall i | 0 <= i < |page.points|
      ensures Progress.NextPoint(q, At(s.db.sources, q), before + page.points[..i], page.points[i])
    {
      assert NextIn(q, content, finished, before + page.points[..i], page.points[i]);
    }
    hide NextAll, NextIn;
    Progress.StagePageSucceeds(s.db, handle, page, before);
  }

  /** Every point can be sent alone: its evidence encodes and its request is
      not too large. */
  predicate Sendable(points: seq<Point>, units: seq<UnitSpan>, wire: seq<Point> -> Wire) {
    forall i :: 0 <= i < |points| ==>
      Hydrates(units, points[i].evidence) && ValidEvidence(points[i].evidence) && !Oversized([points[i]], wire)
  }

  /** The request of any points can be measured, and is never empty. */
  ghost predicate Measures(wire: seq<Point> -> Wire) {
    forall points :: wire(points) != Broken && (wire(points).Size? ==> wire(points).bytes > 0)
  }

  lemma SendablePart(points: seq<Point>, units: seq<UnitSpan>, wire: seq<Point> -> Wire, at: nat, page: seq<Point>)
    requires Sendable(points, units, wire) && at + |page| <= |points| && page == points[at..at + |page|]
    ensures Sendable(page, units, wire)
  {
    hide Hydrates, ValidEvidence, Oversized;
    forall i | 0 <= i < |page|
      ensures Hydrates(units, page[i].evidence) && ValidEvidence(page[i].evidence) && !Oversized([page[i]], wire)
    {
      assert points[at + i] == page[i];
    }
  }

  /** A page that is not too large encodes with its measured size. */
  lemma PageEncodes(points: seq<Point>, units: seq<UnitSpan>, wire: seq<Point> -> Wire, bytes: nat)
    requires points != [] && Sendable(points, units, wire) && Measures(wire)
    requires !Oversized(points, wire) && wire(points) == Size(bytes)
    ensures EncodePage(Page(points, Some(bytes))).Ok?
  {
    hide Hydrates, ValidEvidence;
    assert forall i :: 0 <= i < |points| ==> ValidEvidence(points[i].evidence);
  }

  // --------------------------------------------------------- one page

  lemma StackPush(stack: seq<seq<Point>>, page: seq<Point>)
    ensures StackPoints(stack + [page]) == page + StackPoints(stack)
    ensures Weight(stack + [page]) == Weight(stack) + if |page| == 0 then 1 else 2 * |page| - 1
  {
    assert (stack + [page])[..|stack|] == stack;
  }

  lemma FlatPush(pages: seq<Page>, page: Page)
    ensures Flat(pages + [page]) == Flat(pages) + page.points
  {
    assert (pages + [page])[..|pages|] == pages;
  }

  /** The staged pages and the pages still on the stack are the page's points
      in order, and no part is empty unless the page was. */
  predicate Splitting(points: seq<Point>, staged: seq<Page>, stack: seq<seq<Point>>) {
    && Flat(staged) + StackPoints(stack) == points
    && (points != [] ==> forall k :: 0 <= k < |stack| ==> stack[k] != [])
  }

  lemma SplitStart(points: seq<Point>)
    ensures Splitting(points, [], [points]) && Flat([]) == []
  {
  }

  lemma Top(points: seq<Point>, staged: seq<Page>, stack: seq<seq<Point>>)
    requires Splitting(points, staged, stack) && stack != []
    ensures var page := stack[|stack|-1];
            var at := |Flat(staged)|;
            at + |page| <= |points| && page == points[at..at + |page|] && (points != [] ==> page != [])
    ensures Flat(staged) <= points
  {
  }

  lemma Split(points: seq<Point>, staged: seq<Page>, rest: seq<seq<Point>>, page: seq<Point>)
    requires Splitting(points, staged, rest + [page]) && |page| > 1
    ensures var middle := |page| / 2;
            && Splitting(points, staged, rest + [page[middle..]] + [page[..middle]])
            && Weight(rest + [page[middle..]] + [page[..middle]]) < Weight(rest + [page])
  {
    var middle := |page| / 2;
    var left, right := page[..middle], page[middle..];
    StackPush(rest, page);
    StackPush(rest, right);
    StackPush(rest + [right], left);
    hide StackPoints, Weight, Flat;
    assert page == left + right;
    assert left + (right + StackPoints(rest)) == (left + right) + StackPoints(rest);
    forall k | points != [] && 0 <= k < |rest| ensures rest[k] != [] {
      assert (rest + [page])[k] == rest[k];
    }
  }

  lemma Unstack(points: seq<Point>, staged: seq<Page>, rest: seq<seq<Point>>, page: Page)
    requires Splitting(points, staged, rest + [page.points])
    ensures Splitting(points, staged + [page], rest) && Weight(rest) < Weight(rest + [page.points])
    ensures Flat(staged + [page]) == Flat(staged) + page.points
  {
    StackPush(rest, page.points);
    FlatPush(staged, page);
    assert (Flat(staged) + page.points) + StackPoints(rest) == Flat(staged) + (page.points + StackPoints(rest));
    forall k | points != [] && 0 <= k < |rest| ensures rest[k] != [] {
      assert (rest + [page.points])[k] == rest[k];
    }
  }

  lemma SplitDone(points: seq<Point>, staged: seq<Page>)
    requires Splitting(points, staged, [])
    ensures Flat(staged) == points
  {
  }

  /** Stages one page if it fits both limits; says that it does not fit
      otherwise, and then changes nothing. */
  method StagePart(store: ControlStore, handle: Pending, page: seq<Point>, units: seq<UnitSpan>, wire: seq<Point> -> Wire,
                   ghost content: map<Id, Captured>, ghost before: seq<Point>, ghost finished: set<Id>)
    returns (r: Result<bool, Failure>, full: Page)
    requires store.Valid() && Staged(store.View(), handle, content, before, finished)
    modifies store
    ensures store.Valid() && old(store.history) <= store.history
    ensures r.Ok? ==>
              if r.value then
                && full.points == page && Fitted(full, wire) && SameCourse(old(store.View()), store.View())
                && Staged(store.View(), handle, content, before + page, finished)
              else Oversized(page, wire) && store.View() == old(store.View())
    ensures r == Err(Unmatched) ==> SomeUnmatched(page, units)
    ensures r != Err(UnitTooLarge)
    ensures store.calm && CanStage(old(store.View()), handle, content, before, finished, page, units, wire) ==>
              r.Ok? && (|page| == 1 ==> r.value)
  {
    hide Inv, Init, Run, Next, StagePage, Staged, Oversized, Fitted, Hydrates, SameCourse, CanStage, EncodePage,
         ValidEvidence;
    ghost var go := store.calm && CanStage(store.View(), handle, content, before, finished, page, units, wire);
    if go { Alone(store.View(), handle, content, before, finished, page, units, wire); }
    full := Page(page, None);
    var interrupted := store.Interrupt();
    if interrupted.Some? { return Err(Stored(interrupted.value)), full; }
    var measured := MeasurePage(page, units, wire);
    if measured.Err? { return Err(measured.error), full; }
    if measured.value.None? { return Ok(false), full; }
    full := Page(page, measured.value);
    if go { FullCanStage(store.sys, handle, content, before, finished, page, units, wire, measured.value.value); }
    label call:
    var put := store.StagePage(handle, full);
    if put.Err? { return Err(Stored(put.error)), full; }
    StageCourse(old@call(store.sys), handle, full);
    StagedMore(old@call(store.sys), handle, content, before, finished, full);
    FitsNow(full, wire);
    return Ok(true), full;
  }

  /** Splits a page in half until each part fits, staging the parts from the
      left. The staged pages are the page's points in order, each within both
      limits; only a single point that does not fit alone is refused. */
  method StageCompletePage(store: ControlStore, handle: Pending, points: seq<Point>, units: seq<UnitSpan>,
                           wire: seq<Point> -> Wire, ghost content: map<Id, Captured>, ghost before: seq<Point>,
                           ghost finished: set<Id>)
    returns (r: Result<(), Failure>, ghost staged: seq<Page>)
    requires store.Valid() && Staged(store.View(), handle, content, before, finished)
    modifies store
    ensures store.Valid() && old(store.history) <= store.history
    ensures forall page :: page in staged ==> Fitted(page, wire)
    ensures Flat(staged) <= points
    ensures r.Ok? ==> Flat(staged) == points && Staged(store.View(), handle, content, before + points, finished)
    ensures r == Err(UnitTooLarge) ==> SomeTooLarge(points, wire)
    ensures r == Err(Unmatched) ==> SomeUnmatched(points, units)
    ensures r.Ok? ==> SameCourse(old(store.View()), store.View())
    ensures store.calm && CanStage(old(store.View()), handle, content, before, finished, points, units, wire) ==> r.Ok?
  {
    hide Inv, Init, Run, Next, StagePage, Staged, Oversized, Fitted, Hydrates, Splitting, StackPoints, Weight, Flat,
         SameCourse, CanStage, EncodePage, ValidEvidence, SomeUnmatched, SomeTooLarge;
    CourseStarts(store.View(), handle, content, before, finished);
    var stack: seq<seq<Point>> := [points];
    staged := [];
    SplitStart(points);
    assert before + [] == before;
    while stack != []
      invariant store.Valid() && old(store.history) <= store.history
      invariant Staged(store.View(), handle, content, before + Flat(staged), finished)
      invariant Splitting(points, staged, stack)
      invariant forall page :: page in staged ==> Fitted(page, wire)
      invariant SameCourse(old(store.View()), store.View())
      decreases Weight(stack)
    {
      var page, rest := stack[|stack|-1], stack[..|stack|-1];
      assert stack == rest + [page];
      PartOf(old(store.View()), store.View(), handle, content, before, finished, points, units, wire, staged, rest, page);
      label part:
      var put, full := StagePart(store, handle, page, units, wire, content, before + Flat(staged), finished);
      if put.Err? { return Err(put.error), staged; }
      if !put.value {
        if |page| <= 1 { return Err(UnitTooLarge), staged; }
        Split(points, staged, rest, page);
        stack := rest + [page[|page| / 2..]] + [page[..|page| / 2]];
      } else {
        CourseTrans(old(store.View()), old@part(store.View()), store.View());
        Unstack(points, staged, rest, full);
        MoreBefore(before, staged, page);
        staged, stack := staged + [full], rest;
      }
    }
    SplitDone(points, staged);
    r := Ok(());
  }

  lemma MoreBefore(before: seq<Point>, staged: seq<Page>, page: seq<Point>)
    ensures before + Flat(staged) + page == before + (Flat(staged) + page)
  {
  }

  predicate SomeUnmatched(points: seq<Point>, units: seq<UnitSpan>) {
    exists i :: 0 <= i < |points| && !Hydrates(units, points[i].evidence)
  }

  predicate SomeTooLarge(points: seq<Point>, wire: seq<Point> -> Wire) {
    points == [] || exists i :: 0 <= i < |points| && Oversized([points[i]], wire)
  }

  /** What is known of a page taken off the stack. */
  lemma PartOf(start: Db, db: Db, handle: Pending, content: map<Id, Captured>, before: seq<Point>, finished: set<Id>,
               points: seq<Point>, units: seq<UnitSpan>, wire: seq<Point> -> Wire, staged: seq<Page>,
               rest: seq<seq<Point>>, page: seq<Point>)
    requires Splitting(points, staged, rest + [page]) && SameCourse(start, db)
    ensures Flat(staged) <= points
    ensures CanStage(start, handle, content, before, finished, points, units, wire) ==>
              CanStage(db, handle, content, before + Flat(staged), finished, page, units, wire) && page != []
    ensures SomeUnmatched(page, units) ==> SomeUnmatched(points, units)
    ensures |page| <= 1 && Oversized(page, wire) ==> SomeTooLarge(points, wire)
  {
    Top(points, staged, rest + [page]);
    hide Splitting, SameCourse, Oversized, SomeUnmatched, SomeTooLarge, Flat;
    var done := Flat(staged);
    PartUnmatched(points, |done|, page, units);
    if |page| <= 1 && Oversized(page, wire) { PartTooLarge(points, |done|, page, wire); }
    if CanStage(start, handle, content, before, finished, points, units, wire) {
      CanStageSome(start, handle, content, before, finished, points, units, wire);
      hide CanStage;
      PartCanStage(start, db, handle, content, before, finished, points, units, wire, done, page);
    }
  }

  lemma CanStageSome(db: Db, handle: Pending, content: map<Id, Captured>, before: seq<Point>, finished: set<Id>,
                     points: seq<Point>, units: seq<UnitSpan>, wire: seq<Point> -> Wire)
    requires CanStage(db, handle, content, before, finished, points, units, wire)
    ensures points != []
  {
  }

  /** Everything a page of points needs to be staged whole. */
  ghost predicate CanStage(db: Db, handle: Pending, content: map<Id, Captured>, before: seq<Point>, finished: set<Id>,
                           points: seq<Point>, units: seq<UnitSpan>, wire: seq<Point> -> Wire)
  {
    && points != [] && Sendable(points, units, wire) && Measures(wire)
    && NextAll(handle.generation.sequence, content, finished, before, points) && |before| + |points| <= MAX_POINTS
    && db.Header().pending.Some? && !db.Header().pending.value.captureComplete
  }

  lemma CourseStarts(db: Db, handle: Pending, content: map<Id, Captured>, before: seq<Point>, finished: set<Id>)
    requires Staged(db, handle, content, before, finished)
    ensures SameCourse(db, db)
  {
    hide Points;
  }

  lemma PartCanStage(start: Db, db: Db, handle: Pending, content: map<Id, Captured>, before: seq<Point>,
                     finished: set<Id>, points: seq<Point>, units: seq<UnitSpan>, wire: seq<Point> -> Wire,
                     done: seq<Point>, page: seq<Point>)
    requires CanStage(start, handle, content, before, finished, points, units, wire) && SameCourse(start, db)
    requires done <= points && |done| + |page| <= |points| && page == points[|done|..|done| + |page|] && page != []
    ensures CanStage(db, handle, content, before + done, finished, page, units, wire)
  {
    hide NextAll, Sendable, Measures;
    assert points[..|done|] == done;
    NextPart(handle.generation.sequence, content, finished, before, points, |done|, page);
    SendablePart(points, units, wire, |done|, page);
  }

  lemma Alone(db: Db, handle: Pending, content: map<Id, Captured>, before: seq<Point>, finished: set<Id>,
              page: seq<Point>, units: seq<UnitSpan>, wire: seq<Point> -> Wire)
    requires CanStage(db, handle, content, before, finished, page, units, wire)
    ensures forall i :: 0 <= i < |page| ==> Hydrates(units, page[i].evidence) && ValidEvidence(page[i].evidence)
    ensures |page| == 1 ==> !Oversized(page, wire)
    ensures wire(page) != Broken
  {
    assert |page| == 1 ==> page == [page[0]];
    hide NextAll, Hydrates, ValidEvidence, Oversized;
  }

  lemma FullCanStage(s: Sys, handle: Pending, content: map<Id, Captured>, before: seq<Point>, finished: set<Id>,
                     page: seq<Point>, units: seq<UnitSpan>, wire: seq<Point> -> Wire, bytes: nat)
    requires Inv(s) && Staged(s.db, handle, content, before, finished)
    requires CanStage(s.db, handle, content, before, finished, page, units, wire)
    requires !Oversized(page, wire) && wire(page) == Size(bytes)
    ensures StagePage(s.db, handle, Page(page, Some(bytes))).Ok?
  {
    PageEncodes(page, units, wire, bytes);
    hide Inv, Staged, Sendable, Measures, NextAll, Oversized, EncodePage;
    PutSucceeds(s, handle, content, before, finished, Page(page, Some(bytes)));
  }

  lemma PartUnmatched(points: seq<Point>, at: nat, page: seq<Point>, units: seq<UnitSpan>)
    requires at + |page| <= |points| && page == points[at..at + |page|]
    ensures SomeUnmatched(page, units) ==> SomeUnmatched(points, units)
  {
    hide Hydrates;
    if SomeUnmatched(page, units) {
      var i :| 0 <= i < |page| && !Hydrates(units, page[i].evidence);
      assert points[at + i] == page[i];
    }
  }

  lemma PartTooLarge(points: seq<Point>, at: nat, page: seq<Point>, wire: seq<Point> -> Wire)
    requires at + |page| <= |points| && page == points[at..at + |page|] && (points != [] ==> page != [])
    requires |page| <= 1 && Oversized(page, wire)
    ensures SomeTooLarge(points, wire)
  {
    hide Oversized;
    if points != [] {
      assert page == [points[at]];
    }
  }

  lemma FitsNow(page: Page, wire: seq<Point> -> Wire)
    requires EncodePage(page).Ok? && !Oversized(page.points, wire)
    requires wire(page.points).Size? && page.requestBytes == Some(wire(page.points).bytes)
    ensures Fitted(page, wire)
  {
  }

  /** The request size of a page that fits, nothing for one that must be
      split, or the failure that stops staging. */
  method MeasurePage(points: seq<Point>, units: seq<UnitSpan>, wire: seq<Point> -> Wire)
    returns (r: Result<Option<nat>, Failure>)
    ensures r.Ok? ==> (r.value.None? <==> Oversized(points, wire))
    ensures r.Ok? && r.value.Some? ==> wire(points) == Size(r.value.value)
    ensures r == Err(Unmatched) <==> SomeUnmatched(points, units)
    ensures r.Err? && r.error != Unmatched ==>
              || (r.error == Stored(Corrupt) && exists i :: 0 <= i < |points| && !ValidEvidence(points[i].evidence))
              || (r.error == WireFailed && wire(points) == Broken)
  {
    for i := 0 to |points|
      invariant forall k :: 0 <= k < i ==> Hydrates(units, points[k].evidence)
    {
      if !Hydrates(units, points[i].evidence) { return Err(Unmatched); }
    }
    var size := PageSize(Page(points, None));
    if size.Err? {
      if size.error == Limit { return Ok(None); }
      return Err(Stored(Corrupt));
    }
    if size.value > MAX_PAGE_BYTES { return Ok(None); }
    match wire(points) {
      case Size(n) => return Ok(if n > MAX_REQUEST_BYTES then None else Some(n));
      case RequestTooLarge => return Ok(None);
      case Broken => return Err(WireFailed);
    }
  }

  // ------------------------------------------------------- one source

  function EvidenceOf(c: Captured, artifact: ObjectRef, ordinal: nat, unit: UnitSpan): Evidence {
    Evidence(c.source.namespace, c.source.id, c.source.objectRef, artifact, ordinal, unit.start, unit.end,
             unit.lineStart, unit.lineEnd, unit.startsAtLine, unit.endsAtLine)
  }

  /** Evidence of a source hydrates exactly when it is the evidence of one of
      the decoded units, coordinates and marks alike. */
  lemma HydratesOwn(c: Captured, artifact: ObjectRef, units: seq<UnitSpan>, e: Evidence)
    requires e.namespace == c.source.namespace && e.source == c.source.id
    requires e.input == c.source.objectRef && e.prepared == artifact
    ensures Hydrates(units, e) <==> e.unit < |units| && e == EvidenceOf(c, artifact, e.unit, units[e.unit])
  {
  }

  /** The points staged for one prepared source, numbered from `first`. */
  function PointsFor(q: nat, first: nat, c: Captured, artifact: ObjectRef, units: seq<UnitSpan>): seq<Point> {
    if units == [] then []
    else
      var last := |units| - 1;
      PointsFor(q, first, c, artifact, units[..last])
      + [Point(PointId(q, first + last), EvidenceOf(c, artifact, last, units[last]))]
  }

  /** The artifact behind a row that is not a gap. */
  function Artifact(c: Captured): Option<ObjectRef> {
    match c.preparation.outcome
    case Some(outcome) => if outcome.result.Ready? then Some(outcome.result.artifact) else None
    case None => None
  }

  function Added(q: nat, first: nat, c: Captured, units: seq<UnitSpan>): seq<Point> {
    match Artifact(c)
    case Some(artifact) => PointsFor(q, first, c, artifact, units)
    case None => []
  }

  lemma PointsForNext(q: nat, first: nat, c: Captured, artifact: ObjectRef, units: seq<UnitSpan>, i: nat)
    requires i < |units|
    ensures PointsFor(q, first, c, artifact, units[..i + 1])
            == PointsFor(q, first, c, artifact, units[..i])
               + [Point(PointId(q, first + i), EvidenceOf(c, artifact, i, units[i]))]
  {
    assert units[..i + 1][..i] == units[..i];
  }

  /** The units behind a row: those of its decoded artifact, or none. */
  function UnitsBehind(c: Captured, decode: Captured -> Option<seq<UnitSpan>>): seq<UnitSpan> {
    if Artifact(c).Some? && decode(c).Some? then decode(c).value else []
  }

  /** A prepared source whose artifact is read and whose every unit can be sent
      alone, or a gap. */
  ghost predicate Stageable(c: Captured, decode: Captured -> Option<seq<UnitSpan>>, wire: seq<Point> -> Wire) {
    && c.preparation.outcome.Some?
    && (Artifact(c).Some? ==>
          && decode(c).Some?
          && forall i, point: Point :: 0 <= i < |decode(c).value| ==>
               (point.evidence == EvidenceOf(c, Artifact(c).value, i, decode(c).value[i]) ==>
                  ValidEvidence(point.evidence) && !Oversized([point], wire)))
  }

  /** Everything a source needs to be staged whole. */
  ghost predicate SourceReady(db: Db, c: Captured, nextPoint: nat, decode: Captured -> Option<seq<UnitSpan>>,
                              wire: seq<Point> -> Wire, content: map<Id, Captured>, before: seq<Point>, finished: set<Id>)
  {
    && Stageable(c, decode, wire) && Measures(wire)
    && nextPoint == |before| && UnitsOf(before, c.source.id) == []
    && c.source.id in content && content[c.source.id] == c && c.source.id !in finished
    && |before| + |UnitsBehind(c, decode)| <= MAX_POINTS
    && db.Header().pending.Some? && !db.Header().pending.value.captureComplete
  }

  lemma ReadyReads(db: Db, c: Captured, nextPoint: nat, decode: Captured -> Option<seq<UnitSpan>>,
                   wire: seq<Point> -> Wire, content: map<Id, Captured>, before: seq<Point>, finished: set<Id>)
    requires SourceReady(db, c, nextPoint, decode, wire, content, before, finished)
    ensures c.preparation.outcome.Some? && (Artifact(c).Some? ==> decode(c).Some?)
    ensures nextPoint + |UnitsBehind(c, decode)| <= MAX_POINTS
  {
  }

  lemma {:induction false} PointsForPrefix(q: nat, first: nat, c: Captured, artifact: ObjectRef, units: seq<UnitSpan>, i: nat)
    requires i <= |units|
    ensures |PointsFor(q, first, c, artifact, units)| == |units|
    ensures PointsFor(q, first, c, artifact, units)[..i] == PointsFor(q, first, c, artifact, units[..i])
    ensures i < |units| ==>
              PointsFor(q, first, c, artifact, units)[i] == Point(PointId(q, first + i), EvidenceOf(c, artifact, i, units[i]))
    decreases |units|
  {
    if i < |units| {
      PointsForPrefix(q, first, c, artifact, units[..|units|-1], i);
      assert units[..|units|-1][..i] == units[..i];
    } else {
      assert units[..i] == units;
      if units != [] { PointsForPrefix(q, first, c, artifact, units[..|units|-1], 0); }
    }
  }

  lemma OwnPointFollows(q: nat, c: Captured, artifact: ObjectRef, units: seq<UnitSpan>, content: map<Id, Captured>,
                        before: seq<Point>, finished: set<Id>, i: nat)
    requires Artifact(c) == Some(artifact) && UnitsOf(before, c.source.id) == [] && i < |units|
    requires c.source.id in content && content[c.source.id] == c && c.source.id !in finished
    ensures var done := PointsFor(q, |before|, c, artifact, units[..i]);
            NextIn(q, content, finished, before + done,
                   Point(PointId(q, |before| + i), EvidenceOf(c, artifact, i, units[i])))
  {
    var done := PointsFor(q, |before|, c, artifact, units[..i]);
    PointsForPrefix(q, |before|, c, artifact, units[..i], 0);
    OwnUnits(q, |before|, c, artifact, units[..i]);
    UnitsOfAppend(before, done, c.source.id);
    hide UnitsOf, PointsFor;
  }

  /** The points of a source follow those staged before it. */
  lemma OwnPointsFollow(q: nat, c: Captured, artifact: ObjectRef, units: seq<UnitSpan>, content: map<Id, Captured>,
                        before: seq<Point>, finished: set<Id>)
    requires Artifact(c) == Some(artifact) && UnitsOf(before, c.source.id) == []
    requires c.source.id in content && content[c.source.id] == c && c.source.id !in finished
    ensures NextAll(q, content, finished, before, PointsFor(q, |before|, c, artifact, units))
  {
    hide UnitsOf, PointsFor, NextIn, EvidenceOf, Artifact;
    var points := PointsFor(q, |before|, c, artifact, units);
    PointsForPrefix(q, |before|, c, artifact, units, 0);
    forall i | 0 <= i < |points| ensures NextIn(q, content, finished, before + points[..i], points[i]) {
      PointsForPrefix(q, |before|, c, artifact, units, i);
      OwnPointFollows(q, c, artifact, units, content, before, finished, i);
    }
  }

  lemma OwnPointsSendable(q: nat, first: nat, c: Captured, artifact: ObjectRef, units: seq<UnitSpan>,
                          decode: Captured -> Option<seq<UnitSpan>>, wire: seq<Point> -> Wire)
    requires Stageable(c, decode, wire) && Artifact(c) == Some(artifact) && decode(c) == Some(units)
    ensures Sendable(PointsFor(q, first, c, artifact, units), units, wire)
  {
    var points := PointsFor(q, first, c, artifact, units);
    PointsForPrefix(q, first, c, artifact, units, 0);
    hide Oversized, ValidEvidence;
    forall i | 0 <= i < |points|
      ensures Hydrates(units, points[i].evidence) && ValidEvidence(points[i].evidence) && !Oversized([points[i]], wire)
    {
      PointsForPrefix(q, first, c, artifact, units, i);
    }
  }

  lemma Slice(all: seq<Point>, done: seq<Point>, page: seq<Point>)
    requires done + page <= all
    ensures |done| + |page| <= |all| && page == all[|done|..|done| + |page|] && all[..|done|] == done
  {
    assert all[..|done + page|] == done + page;
  }

  /** Any slice of the points of a source can be staged after those before. */
  lemma SliceReady(q: nat, content: map<Id, Captured>, before: seq<Point>, finished: set<Id>, all: seq<Point>,
                   units: seq<UnitSpan>, wire: seq<Point> -> Wire, done: seq<Point>, page: seq<Point>)
    requires done + page <= all && NextAll(q, content, finished, before, all) && Sendable(all, units, wire)
    ensures NextAll(q, content, finished, before + done, page) && Sendable(page, units, wire)
  {
    hide NextAll, Sendable;
    Slice(all, done, page);
    NextPart(q, content, finished, before, all, |done|, page);
    SendablePart(all, units, wire, |done|, page);
  }

  /** The page collected so far can be staged. */
  lemma FlushReady(start: Db, db: Db, handle: Pending, c: Captured, nextPoint: nat,
                   decode: Captured -> Option<seq<UnitSpan>>, wire: seq<Point> -> Wire, content: map<Id, Captured>,
                   before: seq<Point>, finished: set<Id>, i: nat, done: seq<Point>, page: seq<Point>)
    requires SourceReady(start, c, nextPoint, decode, wire, content, before, finished) && SameCourse(start, db)
    requires Artifact(c).Some? && decode(c).Some? && i <= |decode(c).value| && page != []
    requires done + page == PointsFor(handle.generation.sequence, nextPoint, c, Artifact(c).value, decode(c).value[..i])
    ensures CanStage(db, handle, content, before + done, finished, page, decode(c).value, wire)
  {
    hide Stageable, Sendable, NextAll, Measures, PointsFor, UnitsOf, Artifact;
    var q, units, artifact := handle.generation.sequence, decode(c).value, Artifact(c).value;
    var all := PointsFor(q, nextPoint, c, artifact, units);
    PointsForPrefix(q, nextPoint, c, artifact, units, i);
    PointsForPrefix(q, nextPoint, c, artifact, units[..i], 0);
    assert done + page <= all;
    OwnPointsFollow(q, c, artifact, units, content, before, finished);
    OwnPointsSendable(q, nextPoint, c, artifact, units, decode, wire);
    SliceReady(q, content, before, finished, all, units, wire, done, page);
  }

  lemma OwnCount(q: nat, c: Captured, decode: Captured -> Option<seq<UnitSpan>>, before: seq<Point>)
    requires UnitsOf(before, c.source.id) == []
    ensures |UnitsOf(before + Added(q, |before|, c, UnitsBehind(c, decode)), c.source.id)| == |UnitsBehind(c, decode)|
  {
    var units := UnitsBehind(c, decode);
    UnitsOfAppend(before, Added(q, |before|, c, units), c.source.id);
    if Artifact(c).Some? { OwnUnits(q, |before|, c, Artifact(c).value, units); }
  }

  /** With all its points staged the source can be marked complete. */
  lemma FinishReady(start: Db, s: Sys, handle: Pending, c: Captured, nextPoint: nat,
                    decode: Captured -> Option<seq<UnitSpan>>, wire: seq<Point> -> Wire, content: map<Id, Captured>,
                    before: seq<Point>, finished: set<Id>)
    requires SourceReady(start, c, nextPoint, decode, wire, content, before, finished) && SameCourse(start, s.db)
    requires Inv(s)
    requires var q := handle.generation.sequence;
             Staged(s.db, handle, content, before + Added(q, nextPoint, c, UnitsBehind(c, decode)), finished)
    ensures FinishSource(s.db, handle, c.source.id, |UnitsBehind(c, decode)|).Ok?
  {
    OwnCount(handle.generation.sequence, c, decode, before);
    hide CorpusInv, FreshInv, LedgerInv, RetireInv, HeaderInv, RowsInv, Stageable, Measures, FinishSource, Points,
         UnitsOf, Added, UnitsBehind;
    Progress.PendingLoads(s.db, handle);
    Progress.FinishSucceeds(s.db, handle, c.source.id, |UnitsBehind(c, decode)|);
  }

  /** Marks one source complete in the build being staged. */
  method MarkComplete(store: ControlStore, handle: Pending, id: Id, units: nat, ghost content: map<Id, Captured>,
                      ghost points: seq<Point>, ghost finished: set<Id>)
    returns (r: Result<(), Failure>)
    requires store.Valid() && Staged(store.View(), handle, content, points, finished)
    modifies store
    ensures store.Valid() && old(store.history) <= store.history
    ensures r.Ok? ==> Staged(store.View(), handle, content, points, finished + {id})
                      && SameCourse(old(store.View()), store.View())
    ensures store.calm && FinishSource(old(store.View()), handle, id, units).Ok? ==> r.Ok?
    ensures r.Err? ==> r.error.Stored?
  {
    hide Inv, Init, Run, Next, Staged, FinishSource, SameCourse;
    var marked := store.FinishSource(handle, id, units);
    if marked.Err? { return Err(Stored(marked.error)); }
    FinishCourse(old(store.sys), handle, id, units);
    FinishedMore(old(store.sys), handle, content, points, finished, id, units);
    return Ok(());
  }

  /** Stages every decoded unit of one prepared source, a page at a time. */
  method StageUnits(store: ControlStore, handle: Pending, c: Captured, artifact: ObjectRef, units: seq<UnitSpan>,
                    nextPoint: nat, ghost decode: Captured -> Option<seq<UnitSpan>>, wire: seq<Point> -> Wire,
                    ghost content: map<Id, Captured>, ghost before: seq<Point>, ghost finished: set<Id>)
    returns (r: Result<(), Failure>)
    requires store.Valid() && Staged(store.View(), handle, content, before, finished)
    requires Artifact(c) == Some(artifact) && decode(c) == Some(units)
    modifies store
    ensures store.Valid() && old(store.history) <= store.history
    ensures r.Ok? ==>
              && Staged(store.View(), handle, content,
                        before + PointsFor(handle.generation.sequence, nextPoint, c, artifact, units), finished)
              && SameCourse(old(store.View()), store.View())
    ensures r != Err(Unmatched)
    ensures store.calm && SourceReady(old(store.View()), c, nextPoint, decode, wire, content, before, finished) ==> r.Ok?
  {
    hide Inv, Init, Run, Next, Staged, Oversized, PointsFor, PageSize, SameCourse, CanStage, SourceReady, Artifact;
    CourseStarts(store.View(), handle, content, before, finished);
    ghost var go := store.calm && SourceReady(store.View(), c, nextPoint, decode, wire, content, before, finished);
    if go { ReadyReads(store.View(), c, nextPoint, decode, wire, content, before, finished); }
    assert before + [] == before;
    var q := handle.generation.sequence;
    var page: seq<Point> := [];
    ghost var done: seq<Point> := [];
    NoUnits(q, nextPoint, c, artifact);
    var i := 0;
    while i < |units|
      invariant 0 <= i <= |units|
      invariant store.Valid() && old(store.history) <= store.history
      invariant done + page == PointsFor(q, nextPoint, c, artifact, units[..i])
      invariant Staged(store.View(), handle, content, before + done, finished)
      invariant forall k :: 0 <= k < |page| ==> Hydrates(units, page[k].evidence)
      invariant SameCourse(old(store.View()), store.View())
    {
      if nextPoint + i >= U64_MAX { return Err(Overflow); }
      var point := Point(PointId(q, nextPoint + i), EvidenceOf(c, artifact, i, units[i]));
      PointsForNext(q, nextPoint, c, artifact, units, i);
      assert done + (page + [point]) == (done + page) + [point];
      page := page + [point];
      i := i + 1;
      if |page| == MAX_PAGE_POINTS || PageSize(Page(page, None)) == Err(Limit) {
        if go {
          FlushReady(old(store.View()), store.View(), handle, c, nextPoint, decode, wire, content, before, finished, i,
                     done, page);
        }
        label flush:
        var put, _ := StageCompletePage(store, handle, page, units, wire, content, before + done, finished);
        if put.Err? { return Err(put.error); }
        CourseTrans(old(store.View()), old@flush(store.View()), store.View());
        assert before + done + page == before + (done + page);
        done, page := done + page, [];
        assert done + [] == done;
      }
    }
    assert units[..i] == units;
    if page != [] {
      if go {
        FlushReady(old(store.View()), store.View(), handle, c, nextPoint, decode, wire, content, before, finished, i,
                   done, page);
      }
      label rest:
      var put, _ := StageCompletePage(store, handle, page, units, wire, content, before + done, finished);
      if put.Err? { return Err(put.error); }
      CourseTrans(old(store.View()), old@rest(store.View()), store.View());
      assert before + done + page == before + (done + page);
    } else {
      assert done + page == done;
    }
    return Ok(());
  }

  /** Stages one source and marks it complete; a preparation gap is only
      marked. */
  method StageSource(store: ControlStore, handle: Pending, c: Captured, nextPoint: nat,
                     decode: Captured -> Option<seq<UnitSpan>>, wire: seq<Point> -> Wire,
                     ghost content: map<Id, Captured>, ghost before: seq<Point>, ghost finished: set<Id>)
    returns (r: Result<nat, Failure>)
    requires store.Valid() && Staged(store.View(), handle, content, before, finished)
    modifies store
    ensures store.Valid() && old(store.history) <= store.history
    ensures r.Ok? ==>
              var units := UnitsBehind(c, decode);
              && (Artifact(c).Some? ==> decode(c).Some?)
              && r.value == nextPoint + |units|
              && Staged(store.View(), handle, content,
                        before + Added(handle.generation.sequence, nextPoint, c, units), finished + {c.source.id})
    ensures r != Err(Unmatched)
    ensures r.Ok? ==> SameCourse(old(store.View()), store.View())
    ensures store.calm && SourceReady(old(store.View()), c, nextPoint, decode, wire, content, before, finished) ==> r.Ok?
  {
    hide Inv, Init, Run, Next, Staged, FinishSource, PointsFor, SameCourse, SourceReady;
    CourseStarts(store.View(), handle, content, before, finished);
    ghost var go := store.calm && SourceReady(store.View(), c, nextPoint, decode, wire, content, before, finished);
    if go { ReadyReads(store.View(), c, nextPoint, decode, wire, content, before, finished); }
    assert before + [] == before;
    if c.preparation.outcome.None? { return Err(NotPrepared); }
    if Artifact(c).None? {
      if go { FinishReady(old(store.View()), store.sys, handle, c, nextPoint, decode, wire, content, before, finished); }
      var _ :- MarkComplete(store, handle, c.source.id, 0, content, before, finished);
      return Ok(nextPoint);
    }
    var artifact := Artifact(c).value;
    if decode(c).None? { return Err(Unreadable); }
    var units := decode(c).value;
    ghost var points := before + PointsFor(handle.generation.sequence, nextPoint, c, artifact, units);
    var _ :- StageUnits(store, handle, c, artifact, units, nextPoint, decode, wire, content, before, finished);
    if go { FinishReady(old(store.View()), store.sys, handle, c, nextPoint, decode, wire, content, before, finished); }
    label last:
    var _ :- MarkComplete(store, handle, c.source.id, |units|, content, points, finished);
    CourseTrans(old(store.View()), old@last(store.View()), store.View());
    return Ok(nextPoint + |units|);
  }

  lemma NoUnits(q: nat, first: nat, c: Captured, artifact: ObjectRef)
    ensures PointsFor(q, first, c, artifact, []) == []
  {
  }

  // ------------------------------------------------------ whole corpus

  /** Every artifact the reader accepts decodes to a partition of its source;
      the preparation modules prove this of the artifact decoder. */
  ghost predicate Partitions(decode: Captured -> Option<seq<UnitSpan>>) {
    forall c: Captured :: decode(c).Some? ==> Partition(decode(c).value, c.source.objectRef.length)
  }

  predicate Tiles(units: seq<Evidence>, length: nat) {
    Abut(units) && EndOf(units) == length
  }

  lemma {:induction false} UnitsOfAppend(a: seq<Point>, b: seq<Point>, id: Id)
    ensures UnitsOf(a + b, id) == UnitsOf(a, id) + UnitsOf(b, id)
  {
    if b == [] {
      assert a + b == a;
    } else {
      var front := b[..|b|-1];
      UnitsOfAppend(a, front, id);
      assert (a + b)[..|a + b|-1] == a + front;
    }
  }

  /** A source's points are its own units, one for each decoded unit. */
  lemma {:induction false} OwnUnits(q: nat, first: nat, c: Captured, artifact: ObjectRef, units: seq<UnitSpan>)
    ensures var own := UnitsOf(PointsFor(q, first, c, artifact, units), c.source.id);
            && |own| == |units|
            && (forall i :: 0 <= i < |units| ==> own[i] == EvidenceOf(c, artifact, i, units[i]))
    ensures forall id :: id != c.source.id ==> UnitsOf(PointsFor(q, first, c, artifact, units), id) == []
  {
    if units != [] {
      var last := |units| - 1;
      OwnUnits(q, first, c, artifact, units[..last]);
      var front := PointsFor(q, first, c, artifact, units[..last]);
      var point := Point(PointId(q, first + last), EvidenceOf(c, artifact, last, units[last]));
      assert forall id :: UnitsOf(front + [point], id)
                          == UnitsOf(front, id) + if id == c.source.id then [point.evidence] else [] by {
        forall id { UnitsOfSnoc(front, point, id); }
      }
    }
  }

  lemma OwnUnitsTile(q: nat, first: nat, c: Captured, units: seq<UnitSpan>)
    requires Artifact(c).Some? ==> Partition(units, c.source.objectRef.length)
    ensures Artifact(c).Some? ==> Tiles(UnitsOf(Added(q, first, c, units), c.source.id), c.source.objectRef.length)
    ensures forall id :: id != c.source.id ==> UnitsOf(Added(q, first, c, units), id) == []
  {
    if Artifact(c).Some? {
      OwnUnits(q, first, c, Artifact(c).value, units);
    }
  }

  /** The first `k` sources have their units in `points`; the others none. */
  predicate TiledSoFar(sources: seq<Captured>, k: nat, points: seq<Point>)
    requires k <= |sources|
  {
    && (forall j :: 0 <= j < k && Artifact(sources[j]).Some? ==>
          Tiles(UnitsOf(points, sources[j].source.id), sources[j].source.objectRef.length))
    && (forall j :: k <= j < |sources| ==> UnitsOf(points, sources[j].source.id) == [])
  }

  lemma TiledNext(sources: seq<Captured>, k: nat, points: seq<Point>, q: nat, first: nat, units: seq<UnitSpan>)
    requires k < |sources| && TiledSoFar(sources, k, points) && Ascending(sources)
    requires Artifact(sources[k]).Some? ==> Partition(units, sources[k].source.objectRef.length)
    ensures TiledSoFar(sources, k + 1, points + Added(q, first, sources[k], units))
  {
    hide Partition, Tiles, UnitsOf, PointsFor, Added;
    var added := Added(q, first, sources[k], units);
    OwnUnitsTile(q, first, sources[k], units);
    forall j | 0 <= j < |sources|
      ensures UnitsOf(points + added, sources[j].source.id)
              == if j == k then UnitsOf(added, sources[j].source.id) else UnitsOf(points, sources[j].source.id)
    {
      UnitsOfAppend(points, added, sources[j].source.id);
      assert j != k ==> sources[j].source.id != sources[k].source.id;
    }
  }

  lemma {:induction false} SavedContent(sources: seq<Captured>)
    ensures Saved(sources).Keys == ToMap(sources).Keys
    ensures forall id :: id in ToMap(sources) ==>
              Saved(sources)[id].captured == ToMap(sources)[id] && !Saved(sources)[id].complete
  {
    if sources != [] { SavedContent(sources[..|sources|-1]); }
  }

  lemma StartedIsStaged(db: Db, p: Pending, c: Capture)
    requires Started(db, p, c)
    ensures Staged(db, p, ToMap(c.sources), [], {})
  {
    SavedContent(c.sources);
    hide ToMap, Saved;
  }

  lemma StagedIsTiled(db: Db, handle: Pending, sources: seq<Captured>, points: seq<Point>, finished: set<Id>)
    requires Staged(db, handle, ToMap(sources), points, finished) && Ascending(sources)
    requires TiledSoFar(sources, |sources|, points) && forall x :: x in sources ==> x.Consistent()
    ensures Acceptance.Tiled(At(db.sources, handle.generation.sequence), points)
  {
    hide Abut, EndOf, UnitsOf, Points, ToMap;
    BuildSteps.ToMapContent(sources);
    var rows := At(db.sources, handle.generation.sequence);
    forall id | id in rows && !rows[id].captured.IsGap()
      ensures Abut(UnitsOf(points, id)) && EndOf(UnitsOf(points, id)) == rows[id].captured.source.objectRef.length
    {
      assert id in BuildSteps.Ids(sources);
      var j :| 0 <= j < |sources| && sources[j].source.id == id;
      assert sources[j] in sources && Artifact(sources[j]).Some?;
    }
  }

  /** Stages one source after those before it. */
  method StageNext(store: ControlStore, handle: Pending, sources: seq<Captured>, k: nat, nextPoint: nat,
                   decode: Captured -> Option<seq<UnitSpan>>, wire: seq<Point> -> Wire, ghost start: Db,
                   ghost points: seq<Point>)
    returns (r: Result<nat, Failure>, ghost more: seq<Point>)
    requires store.Valid() && Open(start, |sources|) && Ascending(sources) && Partitions(decode) && k < |sources|
    requires Through(start, store.View(), handle, sources, k, points, decode) && nextPoint == |points|
    modifies store
    ensures store.Valid() && old(store.history) <= store.history
    ensures r.Ok? ==> Through(start, store.View(), handle, sources, k + 1, more, decode) && r.value == |more|
    ensures store.calm && CorpusReady(sources, decode, wire) ==> r.Ok?
  {
    hide Inv, Init, Run, Next, Staged, Partitions, Ascending, Open, SameCourse, SourceReady, CorpusReady, Through, ToMap,
         Added, UnitsBehind, BuildSteps.Ids, Artifact;
    more := points;
    ThroughReads(start, store.View(), handle, sources, k, points, decode, wire);
    r := StageSource(store, handle, sources[k], nextPoint, decode, wire, ToMap(sources), points,
                     BuildSteps.Ids(sources[..k]));
    if r.Ok? { more := ThroughNext(start, old(store.View()), store.View(), handle, sources, k, points, decode); }
  }

  /** Stages every captured source, in order. */
  method StageAll(store: ControlStore, handle: Pending, c: Capture, decode: Captured -> Option<seq<UnitSpan>>,
                  wire: seq<Point> -> Wire)
    returns (r: Result<(), Failure>, ghost points: seq<Point>)
    requires store.Valid() && Started(store.View(), handle, c) && Ascending(c.sources) && Partitions(decode)
    modifies store
    ensures store.Valid() && old(store.history) <= store.history
    ensures r.Ok? ==> Through(old(store.View()), store.View(), handle, c.sources, |c.sources|, points, decode)
    ensures store.calm && CorpusReady(c.sources, decode, wire) ==> r.Ok?
  {
    hide Inv, Init, Run, Started, Partitions, Ascending, Open, CorpusReady, Through;
    StartedIsOpen(store.View(), handle, c);
    points := [];
    NothingThrough(store.View(), handle, c, decode);
    var nextPoint, k := 0, 0;
    while k < |c.sources|
      invariant 0 <= k <= |c.sources| && nextPoint == |points|
      invariant store.Valid() && old(store.history) <= store.history
      invariant Through(old(store.View()), store.View(), handle, c.sources, k, points, decode)
    {
      var staged, more := StageNext(store, handle, c.sources, k, nextPoint, decode, wire, old(store.View()), points);
      if staged.Err? { return Err(staged.error), points; }
      nextPoint, points, k := staged.value, more, k + 1;
    }
    return Ok(()), points;
  }

  /** Stages a captured corpus and seals it. Whenever this returns the sealed
      build, the exhaustive check accepts what was staged, and every ready
      artifact was read and decoded; undisturbed, it does so whenever every
      source can be staged. */
  method StageCapture(store: ControlStore, handle: Pending, c: Capture,
                      decode: Captured -> Option<seq<UnitSpan>>, wire: seq<Point> -> Wire)
    returns (r: Result<Pending, Failure>)
    requires store.Valid() && Started(store.View(), handle, c) && Ascending(c.sources) && Partitions(decode)
    requires forall x :: x in c.sources ==> x.Consistent()
    modifies store
    ensures store.Valid() && old(store.history) <= store.history
    ensures r.Ok? ==>
              && store.View().Header().pending == Some(r.value) && r.value.captureComplete && r.value.inFlight.None?
              && var g := r.value.generation;
                 GraphOk(g, At(store.View().sources, g.sequence), At(store.View().pages, g.sequence),
                         At(store.View().evidence, g.sequence))
    ensures r.Ok? ==> forall x :: x in c.sources && Artifact(x).Some? ==> decode(x).Some?
    ensures r.Ok? ==> BesidePending(old(store.View()), store.View()) && Unsent(store.View(), r.value)
    ensures store.calm && CorpusReady(c.sources, decode, wire) ==> r.Ok?
  {
    hide Inv, Init, Run, Next, Staged, Started, CompleteCapture, GraphOk, Partitions, Ascending, Open, BesidePending,
         CorpusReady, Unsent, Through, ToMap, BuildSteps.Ids, Artifact, TiledSoFar, At;
    StartedIsOpen(store.View(), handle, c);
    var staged, points := StageAll(store, handle, c, decode, wire);
    if staged.Err? { return Err(staged.error); }
    ThroughAll(old(store.View()), store.sys, handle, c.sources, points, decode);
    label sealing:
    var seal := store.CompleteCapture(handle);
    if seal.Err? { return Err(Stored(seal.error)); }
    SealedUnsent(old@sealing(store.sys), handle, |c.sources|);
    BesideTrans(old(store.View()), old@sealing(store.View()), store.View());
    SealedAccepted(old@sealing(store.sys), store.sys, handle, c.sources, points);
    r := Ok(seal.value);
  }

  /** The first `k` sources are staged, in order, each with its own units. */
  ghost predicate Through(start: Db, db: Db, handle: Pending, sources: seq<Captured>, k: nat, points: seq<Point>,
                          decode: Captured -> Option<seq<UnitSpan>>)
    requires k <= |sources|
  {
    && |points| == TotalUnits(sources[..k], decode)
    && Staged(db, handle, ToMap(sources), points, BuildSteps.Ids(sources[..k]))
    && TiledSoFar(sources, k, points) && SameCourse(start, db)
    && (forall j :: 0 <= j < k && Artifact(sources[j]).Some? ==> decode(sources[j]).Some?)
  }

  lemma NothingThrough(db: Db, handle: Pending, c: Capture, decode: Captured -> Option<seq<UnitSpan>>)
    requires Started(db, handle, c)
    ensures Through(db, db, handle, c.sources, 0, [], decode)
  {
    StartedIsStaged(db, handle, c);
    NothingTiled(c.sources);
    NoneDone(c.sources, decode);
    CourseStarts(db, handle, ToMap(c.sources), [], {});
    hide Started, Staged, SameCourse, TiledSoFar, ToMap, TotalUnits, BuildSteps.Ids;
  }

  lemma ThroughReads(start: Db, db: Db, handle: Pending, sources: seq<Captured>, k: nat, points: seq<Point>,
                     decode: Captured -> Option<seq<UnitSpan>>, wire: seq<Point> -> Wire)
    requires k < |sources| && Ascending(sources) && Open(start, |sources|)
    requires Through(start, db, handle, sources, k, points, decode)
    ensures Staged(db, handle, ToMap(sources), points, BuildSteps.Ids(sources[..k]))
    ensures CorpusReady(sources, decode, wire) ==>
              SourceReady(db, sources[k], |points|, decode, wire, ToMap(sources), points, BuildSteps.Ids(sources[..k]))
  {
    hide Staged, SameCourse, TiledSoFar, ToMap, TotalUnits, BuildSteps.Ids, CorpusReady, SourceReady, Open, Ascending;
    StillOpen(start, db, |sources|);
    if CorpusReady(sources, decode, wire) { SourceIsReady(db, sources, k, decode, wire, points); }
  }

  lemma ThroughNext(start: Db, before: Db, after: Db, handle: Pending, sources: seq<Captured>, k: nat,
                    points: seq<Point>, decode: Captured -> Option<seq<UnitSpan>>)
    returns (more: seq<Point>)
    requires k < |sources| && Ascending(sources) && Partitions(decode)
    requires Through(start, before, handle, sources, k, points, decode) && SameCourse(before, after)
    requires Artifact(sources[k]).Some? ==> decode(sources[k]).Some?
    requires Staged(after, handle, ToMap(sources),
                    points + Added(handle.generation.sequence, |points|, sources[k], UnitsBehind(sources[k], decode)),
                    BuildSteps.Ids(sources[..k]) + {sources[k].source.id})
    ensures Through(start, after, handle, sources, k + 1, more, decode)
    ensures |more| == |points| + |UnitsBehind(sources[k], decode)|
  {
    hide Staged, SameCourse, TiledSoFar, ToMap, TotalUnits, BuildSteps.Ids, Added, UnitsBehind, Partitions, Ascending,
         Partition;
    more := points + Added(handle.generation.sequence, |points|, sources[k], UnitsBehind(sources[k], decode));
    CourseTrans(start, before, after);
    BehindPartition(sources[k], decode);
    OneMoreDone(sources, k, decode, handle.generation.sequence, |points|);
    TiledNext(sources, k, points, handle.generation.sequence, |points|, UnitsBehind(sources[k], decode));
  }

  /** With every source staged the build can be sealed and is tiled. */
  lemma ThroughAll(start: Db, s: Sys, handle: Pending, sources: seq<Captured>, points: seq<Point>,
                   decode: Captured -> Option<seq<UnitSpan>>)
    requires Inv(s) && Through(start, s.db, handle, sources, |sources|, points, decode)
    requires Ascending(sources) && Open(start, |sources|)
    ensures CompleteCapture(s.db, handle).Ok? && BesidePending(start, s.db) && Open(s.db, |sources|)
    ensures Staged(s.db, handle, ToMap(sources), points, BuildSteps.Ids(sources)) && TiledSoFar(sources, |sources|, points)
    ensures forall x :: x in sources && Artifact(x).Some? ==> decode(x).Some?
  {
    hide Inv, Staged, SameCourse, TiledSoFar, ToMap, TotalUnits, BuildSteps.Ids, Open, Ascending, CompleteCapture,
         BesidePending;
    assert sources[..|sources|] == sources;
    StillOpen(start, s.db, |sources|);
    CourseBeside(start, s.db);
    SealReady(s, handle, sources, points);
  }

  lemma SealedAccepted(before: Sys, after: Sys, handle: Pending, sources: seq<Captured>, points: seq<Point>)
    requires after == Next(before, Seal(handle)) && CompleteCapture(before.db, handle).Ok? && Inv(after)
    requires Staged(before.db, handle, ToMap(sources), points, BuildSteps.Ids(sources))
    requires TiledSoFar(sources, |sources|, points) && Ascending(sources) && forall x :: x in sources ==> x.Consistent()
    ensures var p := CompleteCapture(before.db, handle).value.1;
            && after.db.Header().pending == Some(p) && p.captureComplete && p.inFlight.None?
            && GraphOk(p.generation, At(after.db.sources, p.generation.sequence), At(after.db.pages, p.generation.sequence),
                       At(after.db.evidence, p.generation.sequence))
  {
    hide Staged, TiledSoFar, ToMap, BuildSteps.Ids, Ascending, CompleteCapture, GraphOk, Acceptance.Tiled, Next, Inv, Points;
    SealedStill(before, handle, ToMap(sources), points, BuildSteps.Ids(sources));
    StagedIsTiled(after.db, handle, sources, points, BuildSteps.Ids(sources));
    StagedPoints(after.db, handle, ToMap(sources), points, BuildSteps.Ids(sources));
    Acceptance.PendingAccepted(after);
  }

  function TotalUnits(sources: seq<Captured>, decode: Captured -> Option<seq<UnitSpan>>): nat {
    if sources == [] then 0
    else TotalUnits(sources[..|sources|-1], decode) + |UnitsBehind(sources[|sources|-1], decode)|
  }

  /** Every source can be staged, and all their units fit one generation. */
  ghost predicate CorpusReady(sources: seq<Captured>, decode: Captured -> Option<seq<UnitSpan>>,
                              wire: seq<Point> -> Wire)
  {
    && Measures(wire) && (forall x :: x in sources ==> Stageable(x, decode, wire))
    && TotalUnits(sources, decode) <= MAX_POINTS
  }

  /** A sealed build of the present corpus of which nothing was sent. */
  predicate Unsent(db: Db, p: Pending) {
    WantedIs(db, p.sourceNamespace, p.generation.wanted) && !p.created && p.uploaded == 0 && p.operationRevision == 0
  }

  lemma StartedIsOpen(db: Db, p: Pending, c: Capture)
    requires Started(db, p, c)
    ensures Open(db, |c.sources|)
  {
    hide Saved;
  }

  lemma NoneDone(sources: seq<Captured>, decode: Captured -> Option<seq<UnitSpan>>)
    ensures TotalUnits(sources[..0], decode) == 0 && BuildSteps.Ids(sources[..0]) == {}
  {
  }

  lemma BehindPartition(c: Captured, decode: Captured -> Option<seq<UnitSpan>>)
    requires Partitions(decode) && (Artifact(c).Some? ==> decode(c).Some?)
    ensures Artifact(c).Some? ==> Partition(UnitsBehind(c, decode), c.source.objectRef.length)
  {
  }

  lemma OneMoreDone(sources: seq<Captured>, k: nat, decode: Captured -> Option<seq<UnitSpan>>, q: nat, first: nat)
    requires k < |sources|
    ensures TotalUnits(sources[..k + 1], decode) == TotalUnits(sources[..k], decode) + |UnitsBehind(sources[k], decode)|
    ensures BuildSteps.Ids(sources[..k + 1]) == BuildSteps.Ids(sources[..k]) + {sources[k].source.id}
    ensures |Added(q, first, sources[k], UnitsBehind(sources[k], decode))| == |UnitsBehind(sources[k], decode)|
  {
    var c := sources[k];
    assert sources[..k + 1] == sources[..k] + [c] && sources[..k + 1][..k] == sources[..k];
    if Artifact(c).Some? { PointsForPrefix(q, first, c, Artifact(c).value, UnitsBehind(c, decode), 0); }
  }

  lemma {:induction false} TotalGrows(sources: seq<Captured>, k: nat, decode: Captured -> Option<seq<UnitSpan>>)
    requires k <= |sources|
    ensures TotalUnits(sources[..k], decode) <= TotalUnits(sources, decode)
    decreases |sources|
  {
    if k < |sources| {
      TotalGrows(sources[..|sources|-1], k, decode);
      assert sources[..|sources|-1][..k] == sources[..k];
    } else {
      assert sources[..k] == sources;
    }
  }

  lemma SourceIsReady(db: Db, sources: seq<Captured>, k: nat, decode: Captured -> Option<seq<UnitSpan>>,
                      wire: seq<Point> -> Wire, points: seq<Point>)
    requires k < |sources| && Ascending(sources) && Open(db, |sources|) && CorpusReady(sources, decode, wire)
    requires TiledSoFar(sources, k, points) && |points| == TotalUnits(sources[..k], decode)
    ensures SourceReady(db, sources[k], |points|, decode, wire, ToMap(sources), points, BuildSteps.Ids(sources[..k]))
  {
    BuildSteps.ToMapContent(sources);
    OneMoreDone(sources, k, decode, 0, 0);
    TotalGrows(sources, k + 1, decode);
    assert sources[k] in sources;
    assert sources[k].source.id !in BuildSteps.Ids(sources[..k]);
    hide TotalUnits, Stageable, Measures, ToMap, Tiles, UnitsOf, UnitsBehind;
  }

  lemma CompleteAll(db: Db, handle: Pending, content: map<Id, Captured>, points: seq<Point>, finished: set<Id>)
    requires Staged(db, handle, content, points, finished) && finished == content.Keys
    ensures |CompleteIds(At(db.sources, handle.generation.sequence))| == |content|
  {
    hide Points;
    assert CompleteIds(At(db.sources, handle.generation.sequence)) == content.Keys;
    assert |content.Keys| == |content|;
  }

  /** With every source complete the build can be sealed. */
  lemma SealReady(s: Sys, handle: Pending, sources: seq<Captured>, points: seq<Point>)
    requires Inv(s) && Ascending(sources) && Open(s.db, |sources|)
    requires Staged(s.db, handle, ToMap(sources), points, BuildSteps.Ids(sources))
    ensures CompleteCapture(s.db, handle).Ok?
  {
    BuildSteps.ToMapContent(sources);
    BuildSteps.ToMapSizes(sources);
    CompleteAll(s.db, handle, ToMap(sources), points, BuildSteps.Ids(sources));
    hide CorpusInv, FreshInv, LedgerInv, RetireInv, HeaderInv, RowsInv, ToMap, Ascending, Points, CompleteCapture, At,
         BuildSteps.Ids, CompleteIds;
    Progress.PendingLoads(s.db, handle);
    Progress.SealSucceeds(s.db, handle);
  }

  lemma CourseBeside(before: Db, after: Db)
    requires SameCourse(before, after)
    ensures BesidePending(before, after)
  {
  }

  lemma SealedUnsent(s: Sys, handle: Pending, sources: nat)
    requires Inv(s) && CompleteCapture(s.db, handle).Ok? && Open(s.db, sources)
    ensures var (db, p) := CompleteCapture(s.db, handle).value;
            Next(s, Seal(handle)).db == db && BesidePending(s.db, db) && Unsent(db, p)
  {
    hide CorpusInv, RowsInv, FreshInv, LedgerInv, RetireInv, RetiredDecodes;
  }

  lemma NothingTiled(sources: seq<Captured>)
    ensures TiledSoFar(sources, 0, [])
  {
  }

  lemma StagedPoints(db: Db, handle: Pending, content: map<Id, Captured>, points: seq<Point>, finished: set<Id>)
    requires Staged(db, handle, content, points, finished)
    ensures db.Header().pending.Some? &&
            var g := db.Header().pending.value.generation;
            g.sequence == handle.generation.sequence && Points(At(db.pages, g.sequence), g.pageCount) == points
  {
  }
}
