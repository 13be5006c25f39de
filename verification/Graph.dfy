/** The source/page/evidence graph of one generation: what its saved rows say
    about each other while pages are being staged. */
module Graph {
  import opened Wrappers
  import opened Control

  /** All points of the first `n` pages in page order. */
  function Points(pages: map<nat, Page>, n: nat): seq<Point> {
    if n == 0 then []
    else Points(pages, n - 1) + if n - 1 in pages then pages[n - 1].points else []
  }

  /** The evidence of one source, in point order. */
  function UnitsOf(points: seq<Point>, id: Id): seq<Evidence> {
    if points == [] then []
    else
      var last := points[|points|-1].evidence;
      UnitsOf(points[..|points|-1], id) + if last.source == id then [last] else []
  }

  /** Staged units summed over all saved sources. */
  ghost function UnitTotal(rows: map<Id, Entry>): nat
    decreases |rows|
  {
    if rows == map[] then 0
    else
      var id :| id in rows;
      rows[id].stagedUnits + UnitTotal(rows - {id})
  }

  lemma {:induction false} UnitTotalRemove(rows: map<Id, Entry>, id: Id)
    requires id in rows
    ensures UnitTotal(rows) == rows[id].stagedUnits + UnitTotal(rows - {id})
    decreases |rows|
  {
    var pick :| pick in rows && UnitTotal(rows) == rows[pick].stagedUnits + UnitTotal(rows - {pick});
    if pick != id {
      UnitTotalRemove(rows - {pick}, id);
      UnitTotalRemove(rows - {id}, pick);
      assert rows - {pick} - {id} == rows - {id} - {pick};
    }
  }

  lemma UnitTotalUpdate(rows: map<Id, Entry>, id: Id, entry: Entry)
    ensures id in rows ==> UnitTotal(rows[id := entry]) == UnitTotal(rows) - rows[id].stagedUnits + entry.stagedUnits
    ensures id !in rows ==> UnitTotal(rows[id := entry]) == UnitTotal(rows) + entry.stagedUnits
  {
    UnitTotalRemove(rows[id := entry], id);
    assert rows[id := entry] - {id} == rows - {id};
    if id in rows {
      UnitTotalRemove(rows, id);
    } else {
      assert rows - {id} == rows;
    }
  }

  /** Point ids are consecutive and the evidence rows are exactly theirs. */
  predicate EvidenceMatches(q: nat, evidence: map<PointId, Evidence>, points: seq<Point>) {
    && (forall i :: 0 <= i < |points| ==>
          && points[i].id == PointId(q, i)
          && points[i].id in evidence && evidence[points[i].id] == points[i].evidence)
    && (forall pid :: pid in evidence ==> pid.sequence == q && pid.ordinal < |points|)
  }

  /** Every point is bound to a saved source. */
  predicate Bound(rows: map<Id, Entry>, points: seq<Point>) {
    forall i :: 0 <= i < |points| ==>
      points[i].evidence.source in rows && Binds(rows[points[i].evidence.source], points[i].evidence)
  }

  predicate Numbered(units: seq<Evidence>) {
    forall u :: 0 <= u < |units| ==> units[u].unit == u
  }

  /** Each source's units are numbered from zero and counted by its row. */
  predicate Counted(rows: map<Id, Entry>, points: seq<Point>) {
    forall id :: id in rows ==>
      rows[id].stagedUnits == |UnitsOf(points, id)| && Numbered(UnitsOf(points, id))
  }

  ghost predicate StageInv(q: nat, stage: Stage, points: seq<Point>) {
    && stage.pointCount == |points|
    && EvidenceMatches(q, stage.evidence, points)
    && Bound(stage.sources, points)
    && Counted(stage.sources, points)
    && UnitTotal(stage.sources) == |points|
  }

  /** A saved row is keyed by the source it captured. */
  predicate Keyed(rows: map<Id, Entry>) {
    forall id :: id in rows ==> rows[id].captured.source.id == id
  }

  /** Staging touches no binding and no completion mark. */
  predicate SameInputs(before: map<Id, Entry>, after: map<Id, Entry>) {
    && after.Keys == before.Keys
    && (forall id :: id in before ==>
          after[id].captured == before[id].captured && after[id].complete == before[id].complete)
  }

  /** What one accepted point does to the staged rows. */
  lemma StagePointEffect(q: nat, stage: Stage, point: Point)
    requires StagePoint(stage, q, point).Ok?
    ensures var e := point.evidence;
            && point.id == PointId(q, stage.pointCount)
            && e.source in stage.sources
            && (Keyed(stage.sources) ==> Binds(stage.sources[e.source], e))
            && e.unit == stage.sources[e.source].stagedUnits
            && !stage.sources[e.source].complete
            && StagePoint(stage, q, point).value == Stage(
                 stage.pointCount + 1,
                 stage.sources[e.source := OneMore(stage.sources[e.source])],
                 stage.evidence[point.id := e])
            && stage.pointCount < MAX_POINTS
  {
  }

  function OneMore(entry: Entry): Entry {
    entry.(stagedUnits := entry.stagedUnits + 1)
  }

  lemma EvidenceGrows(q: nat, evidence: map<PointId, Evidence>, points: seq<Point>, point: Point)
    requires EvidenceMatches(q, evidence, points) && point.id == PointId(q, |points|)
    ensures EvidenceMatches(q, evidence[point.id := point.evidence], points + [point])
  {
  }

  lemma BoundGrows(rows: map<Id, Entry>, points: seq<Point>, point: Point)
    requires Bound(rows, points)
    requires point.evidence.source in rows && Binds(rows[point.evidence.source], point.evidence)
    ensures Bound(rows[point.evidence.source := OneMore(rows[point.evidence.source])], points + [point])
  {
  }

  lemma UnitsOfSnoc(points: seq<Point>, point: Point, id: Id)
    ensures UnitsOf(points + [point], id)
            == UnitsOf(points, id) + if point.evidence.source == id then [point.evidence] else []
  {
    assert (points + [point])[..|points|] == points;
  }

  lemma CountedGrows(rows: map<Id, Entry>, points: seq<Point>, point: Point)
    requires Counted(rows, points)
    requires point.evidence.source in rows && point.evidence.unit == rows[point.evidence.source].stagedUnits
    ensures Counted(rows[point.evidence.source := OneMore(rows[point.evidence.source])], points + [point])
  {
    forall id | id in rows
      ensures UnitsOf(points + [point], id)
              == UnitsOf(points, id) + if point.evidence.source == id then [point.evidence] else []
    {
      UnitsOfSnoc(points, point, id);
    }
  }

  lemma OneMoreKeeps(rows: map<Id, Entry>, id: Id)
    requires id in rows
    ensures Keyed(rows) ==> Keyed(rows[id := OneMore(rows[id])])
    ensures SameInputs(rows, rows[id := OneMore(rows[id])])
  {
  }

  lemma StagePointKeeps(q: nat, stage: Stage, points: seq<Point>, point: Point)
    requires StageInv(q, stage, points) && Keyed(stage.sources)
    requires StagePoint(stage, q, point).Ok?
    ensures var after := StagePoint(stage, q, point).value;
            && StageInv(q, after, points + [point]) && Keyed(after.sources)
            && SameInputs(stage.sources, after.sources)
  {
    StagePointEffect(q, stage, point);
    hide StagePoint, EvidenceMatches, Bound, Counted, UnitTotal, Keyed, SameInputs;
    OneMoreKeeps(stage.sources, point.evidence.source);
    EvidenceGrows(q, stage.evidence, points, point);
    BoundGrows(stage.sources, points, point);
    CountedGrows(stage.sources, points, point);
    UnitTotalUpdate(stage.sources, point.evidence.source, OneMore(stage.sources[point.evidence.source]));
  }

  lemma StagePointsSnoc(stage: Stage, q: nat, page: seq<Point>)
    requires page != [] && StagePoints(stage, q, page).Ok?
    ensures var front := StagePoints(stage, q, page[..|page|-1]);
            && front.Ok? && StagePoint(front.value, q, page[|page|-1]).Ok?
            && StagePoints(stage, q, page) == StagePoint(front.value, q, page[|page|-1])
  {
  }

  lemma {:induction false} StagePointsKeep(q: nat, stage: Stage, points: seq<Point>, page: seq<Point>)
    requires StageInv(q, stage, points) && Keyed(stage.sources)
    requires StagePoints(stage, q, page).Ok?
    ensures StageInv(q, StagePoints(stage, q, page).value, points + page)
    ensures Keyed(StagePoints(stage, q, page).value.sources)
    ensures SameInputs(stage.sources, StagePoints(stage, q, page).value.sources)
    decreases |page|
  {
    hide StageInv;
    if page == [] {
      assert points + page == points;
    } else {
      var front, last := page[..|page|-1], page[|page|-1];
      StagePointsSnoc(stage, q, page);
      var before := StagePoints(stage, q, front).value;
      StagePointsKeep(q, stage, points, front);
      StagePointKeeps(q, before, points + front, last);
      assert points + front + [last] == points + page;
    }
  }

  lemma {:induction false} StagePointsCount(q: nat, stage: Stage, page: seq<Point>)
    requires StagePoints(stage, q, page).Ok?
    ensures StagePoints(stage, q, page).value.pointCount == stage.pointCount + |page|
    ensures page != [] ==> StagePoints(stage, q, page).value.pointCount <= MAX_POINTS
  {
    if page != [] {
      StagePointsSnoc(stage, q, page);
      StagePointsCount(q, stage, page[..|page|-1]);
    }
  }

  /** Encoded bytes of `pageCount` pages holding `pointCount` points. */
  function StagedBytes(pageCount: nat, pointCount: nat): nat {
    20 * pageCount + (16 + EVIDENCE_BYTES) * pointCount
  }

  ghost predicate PagesFit(pages: map<nat, Page>, n: nat) {
    && (forall k: nat :: k in pages <==> k < n)
    && (forall k: nat :: k in pages ==> EncodePage(pages[k]).Ok?)
  }

  /** The saved rows of one generation agree with each other and with the
      counts in its header. */
  ghost predicate Coherent(q: nat, rows: map<Id, Entry>, pages: map<nat, Page>,
                           evidence: map<PointId, Evidence>, pointCount: nat, pageCount: nat)
  {
    && PagesFit(pages, pageCount)
    && Keyed(rows)
    && StageInv(q, Stage(pointCount, rows, evidence), Points(pages, pageCount))
    && pageCount <= pointCount
  }

  lemma CoherentCounts(q: nat, rows: map<Id, Entry>, pages: map<nat, Page>, evidence: map<PointId, Evidence>,
                       pointCount: nat, pageCount: nat)
    requires Coherent(q, rows, pages, evidence, pointCount, pageCount)
    ensures pageCount <= pointCount == |Points(pages, pageCount)|
    ensures UnitTotal(rows) == pointCount
  {
  }

  lemma {:induction false} PointsExtend(pages: map<nat, Page>, n: nat, k: nat, page: Page)
    requires k >= n
    ensures Points(pages[k := page], n) == Points(pages, n)
  {
    if n > 0 { PointsExtend(pages, n - 1, k, page); }
  }

  /** Staging one accepted page keeps the graph coherent. */
  lemma StagePageKeeps(q: nat, rows: map<Id, Entry>, pages: map<nat, Page>,
                       evidence: map<PointId, Evidence>, pointCount: nat, pageCount: nat, page: Page)
    requires Coherent(q, rows, pages, evidence, pointCount, pageCount)
    requires EncodePage(page).Ok?
    requires StagePoints(Stage(pointCount, rows, evidence), q, page.points).Ok?
    ensures var after := StagePoints(Stage(pointCount, rows, evidence), q, page.points).value;
            && Coherent(q, after.sources, pages[pageCount := page], after.evidence, after.pointCount, pageCount + 1)
            && SameInputs(rows, after.sources)
            && after.pointCount == pointCount + |page.points|
            && Points(pages[pageCount := page], pageCount + 1) == Points(pages, pageCount) + page.points
  {
    hide StageInv, StagePoints;
    StagePointsKeep(q, Stage(pointCount, rows, evidence), Points(pages, pageCount), page.points);
    StagePointsCount(q, Stage(pointCount, rows, evidence), page.points);
    PointsExtend(pages, pageCount, pageCount, page);
  }

  /** Rows added before any page keep the graph coherent. */
  lemma InsertKeeps(q: nat, rows: map<Id, Entry>, pages: map<nat, Page>, evidence: map<PointId, Evidence>,
                    pointCount: nat, pageCount: nat, captured: Captured)
    requires Coherent(q, rows, pages, evidence, pointCount, pageCount)
    requires captured.source.id !in rows
    ensures Coherent(q, rows[captured.source.id := Entry(captured, 0, false)], pages, evidence, pointCount, pageCount)
  {
    hide EvidenceMatches, PagesFit, UnitTotal, Points;
    var id := captured.source.id;
    var points := Points(pages, pageCount);
    UnitTotalUpdate(rows, id, Entry(captured, 0, false));
    NoUnits(rows, points, id);
  }

  lemma {:induction false} NoUnits(rows: map<Id, Entry>, points: seq<Point>, id: Id)
    requires Bound(rows, points) && id !in rows
    ensures UnitsOf(points, id) == []
  {
    if points != [] {
      var front := points[..|points|-1];
      assert Bound(rows, front) by {
        forall i | 0 <= i < |front|
          ensures front[i].evidence.source in rows && Binds(rows[front[i].evidence.source], front[i].evidence)
        {
          assert front[i] == points[i];
        }
      }
      NoUnits(rows, front, id);
      assert points[|points|-1].evidence.source in rows;
    }
  }

  /** Marking one source complete changes nothing the graph depends on. */
  lemma CompleteKeeps(q: nat, rows: map<Id, Entry>, pages: map<nat, Page>, evidence: map<PointId, Evidence>,
                      pointCount: nat, pageCount: nat, id: Id)
    requires Coherent(q, rows, pages, evidence, pointCount, pageCount)
    requires id in rows
    ensures Coherent(q, rows[id := rows[id].(complete := true)], pages, evidence, pointCount, pageCount)
  {
    hide EvidenceMatches, PagesFit, UnitTotal, Points, UnitsOf;
    UnitTotalUpdate(rows, id, rows[id].(complete := true));
  }
}
