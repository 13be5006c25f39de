/** Exhaustive acceptance of one saved generation: a walk over its source,
    page and evidence rows that keeps one progress record per source. */
module Verify {
  import opened Wrappers
  import opened Control
  import opened Graph

  /** Consecutive units share their boundary and the first starts at zero. */
  predicate Abut(units: seq<Evidence>) {
    && (units != [] ==> units[0].start == 0)
    && (forall u, v :: 0 <= u < |units| && 0 <= v < |units| && v == u + 1 ==> units[v].start == units[u].end)
  }

  function EndOf(units: seq<Evidence>): nat {
    if units == [] then 0 else units[|units|-1].end
  }

  /** The acceptance of one saved source row, before any page is read. */
  predicate RowOk(id: Id, entry: Entry) {
    var c := entry.captured;
    && c.source.id == id && c.Reads() && c.Consistent()
    && entry.complete && entry.stagedUnits <= MAX_POINTS
    && (c.IsGap() ==> entry.stagedUnits == 0)
    && (!c.IsGap() ==> (c.source.objectRef.length == 0 <==> entry.stagedUnits == 0))
  }

  function GapIds(rows: map<Id, Entry>): set<Id> {
    set id | id in rows && rows[id].captured.IsGap()
  }

  /** The saved inventory agrees with the generation's counts. */
  ghost predicate InventoryOk(g: Generation, rows: map<Id, Entry>) {
    && |rows| == g.sourceCount <= MAX_SOURCES
    && (forall id :: id in rows ==> RowOk(id, rows[id]))
    && (forall a, b :: a in rows && b in rows ==>
          rows[a].captured.source.namespace == rows[b].captured.source.namespace)
    && |GapIds(rows)| == g.gapCount
    && UnitTotal(rows) == g.pointCount <= MAX_POINTS
  }

  /** A source's units are numbered 0..n and tile its bytes: no gap, no
      overlap, nothing missing at the end; a preparation gap has none. */
  predicate UnitsTile(entry: Entry, units: seq<Evidence>) {
    && |units| == entry.stagedUnits
    && Numbered(units) && Abut(units)
    && (!entry.captured.IsGap() ==> EndOf(units) == entry.captured.source.objectRef.length)
  }

  /** What an accepted generation is, said without a walk. */
  ghost predicate GraphOk(g: Generation, rows: map<Id, Entry>, pages: map<nat, Page>, evidence: map<PointId, Evidence>) {
    var points := Points(pages, g.pageCount);
    && InventoryOk(g, rows)
    && PagesFit(pages, g.pageCount)
    && |points| == g.pointCount
    && StagedBytes(g.pageCount, g.pointCount) <= MAX_STAGED_BYTES
    && EvidenceMatches(g.sequence, evidence, points)
    && Bound(rows, points)
    && (forall id :: id in rows ==> UnitsTile(rows[id], UnitsOf(points, id)))
  }

  // ------------------------------------------------------------- the walk

  /** Units seen so far and the byte where the next one must start. */
  datatype Progress = Progress(seen: nat, end: nat)

  /** One point offered to its source's progress record. */
  function Accept(entry: Entry, p: Progress, e: Evidence): Option<Progress> {
    if Binds(entry, e) && e.unit == p.seen && e.start == p.end
       && e.end <= entry.captured.source.objectRef.length && p.seen < entry.stagedUnits
    then Some(Progress(p.seen + 1, e.end))
    else None
  }

  predicate InRange(points: seq<Point>) {
    forall i :: 0 <= i < |points| ==> points[i].evidence.end <= points[i].evidence.input.length
  }

  predicate SourceOrderly(entry: Entry, units: seq<Evidence>) {
    Numbered(units) && Abut(units) && |units| <= entry.stagedUnits
  }

  /** The points so far could begin an accepted generation. */
  predicate Orderly(rows: map<Id, Entry>, points: seq<Point>) {
    && Bound(rows, points)
    && InRange(points)
    && (forall id :: id in rows ==> SourceOrderly(rows[id], UnitsOf(points, id)))
  }

  /** Each record counts and ends the units its source has had so far. */
  predicate Accounts(rows: map<Id, Entry>, points: seq<Point>, progress: map<Id, Progress>) {
    && progress.Keys == rows.Keys
    && (forall id :: id in rows ==>
          progress[id] == Progress(|UnitsOf(points, id)|, EndOf(UnitsOf(points, id))))
  }

  lemma AppendUnit(units: seq<Evidence>, e: Evidence)
    ensures Numbered(units + [e]) && Abut(units + [e])
            <==> Numbered(units) && Abut(units) && e.unit == |units| && e.start == EndOf(units)
  {
    var grown := units + [e];
    assert forall u :: 0 <= u < |units| ==> grown[u] == units[u];
    assert grown[|units|] == e;
  }

  lemma AppendBound(rows: map<Id, Entry>, points: seq<Point>, point: Point)
    ensures Bound(rows, points + [point])
            <==> Bound(rows, points) && point.evidence.source in rows
                 && Binds(rows[point.evidence.source], point.evidence)
  {
    var grown := points + [point];
    assert grown[|points|] == point;
    assert forall i :: 0 <= i < |points| ==> points[i] == grown[i];
  }

  lemma AppendInRange(points: seq<Point>, point: Point)
    ensures InRange(points + [point]) <==> InRange(points) && point.evidence.end <= point.evidence.input.length
  {
    var grown := points + [point];
    assert grown[|points|] == point;
    assert forall i :: 0 <= i < |points| ==> points[i] == grown[i];
  }

  lemma UnitsOfOther(points: seq<Point>, point: Point, id: Id)
    ensures UnitsOf(points + [point], id)
            == if point.evidence.source == id then UnitsOf(points, id) + [point.evidence] else UnitsOf(points, id)
  {
    UnitsOfSnoc(points, point, id);
  }

  /** The source rule, one point at a time. */
  lemma SourcesSnoc(rows: map<Id, Entry>, points: seq<Point>, point: Point)
    requires point.evidence.source in rows
    ensures var e := point.evidence;
            (forall id :: id in rows ==> SourceOrderly(rows[id], UnitsOf(points + [point], id)))
            <==> && (forall id :: id in rows ==> SourceOrderly(rows[id], UnitsOf(points, id)))
                 && e.unit == |UnitsOf(points, e.source)| && e.start == EndOf(UnitsOf(points, e.source))
                 && |UnitsOf(points, e.source)| < rows[e.source].stagedUnits
  {
    hide Numbered, Abut, EndOf, UnitsOf;
    var e := point.evidence;
    AppendUnit(UnitsOf(points, e.source), e);
    forall id
      ensures UnitsOf(points + [point], id)
              == if e.source == id then UnitsOf(points, id) + [e] else UnitsOf(points, id)
    {
      UnitsOfOther(points, point, id);
    }
    assert SourceOrderly(rows[e.source], UnitsOf(points + [point], e.source))
      <==> SourceOrderly(rows[e.source], UnitsOf(points, e.source))
           && e.unit == |UnitsOf(points, e.source)| && e.start == EndOf(UnitsOf(points, e.source))
           && |UnitsOf(points, e.source)| < rows[e.source].stagedUnits;
    forall id | id in rows && id != e.source
      ensures SourceOrderly(rows[id], UnitsOf(points + [point], id)) <==> SourceOrderly(rows[id], UnitsOf(points, id))
    {
    }
  }

  /** Accepting one more point is exactly staying orderly. */
  lemma AcceptIsOrderly(rows: map<Id, Entry>, points: seq<Point>, point: Point, progress: map<Id, Progress>)
    requires Accounts(rows, points, progress)
    ensures var e := point.evidence;
            Orderly(rows, points + [point])
            <==> && Orderly(rows, points)
                 && e.source in rows && Accept(rows[e.source], progress[e.source], e).Some?
  {
    hide Bound, InRange, SourceOrderly, UnitsOf, EndOf;
    AppendInRange(points, point);
    AppendBound(rows, points, point);
    if point.evidence.source in rows { SourcesSnoc(rows, points, point); }
  }

  lemma AcceptAccounts(rows: map<Id, Entry>, points: seq<Point>, point: Point, progress: map<Id, Progress>)
    requires Accounts(rows, points, progress)
    requires point.evidence.source in rows
    requires Accept(rows[point.evidence.source], progress[point.evidence.source], point.evidence).Some?
    ensures var e := point.evidence;
            Accounts(rows, points + [point], progress[e.source := Accept(rows[e.source], progress[e.source], e).value])
  {
    forall id | id in rows
      ensures UnitsOf(points + [point], id)
              == UnitsOf(points, id) + if point.evidence.source == id then [point.evidence] else []
    {
      UnitsOfSnoc(points, point, id);
    }
  }

  // --------------------------------------------------- prefixes of a graph

  /** Ids are consecutive and each has its own evidence row. */
  predicate Listed(q: nat, evidence: map<PointId, Evidence>, points: seq<Point>) {
    forall i :: 0 <= i < |points| ==>
      points[i].id == PointId(q, i) && points[i].id in evidence && evidence[points[i].id] == points[i].evidence
  }

  /** What reading some leading points of a generation must have found. */
  predicate Good(g: Generation, rows: map<Id, Entry>, evidence: map<PointId, Evidence>, points: seq<Point>) {
    Orderly(rows, points) && Listed(g.sequence, evidence, points) && |points| <= g.pointCount
  }

  function ProgressOf(rows: map<Id, Entry>, points: seq<Point>): (p: map<Id, Progress>)
    ensures Accounts(rows, points, p)
  {
    map id | id in rows :: Progress(|UnitsOf(points, id)|, EndOf(UnitsOf(points, id)))
  }

  lemma GoodFront(g: Generation, rows: map<Id, Entry>, evidence: map<PointId, Evidence>, points: seq<Point>)
    requires Good(g, rows, evidence, points) && points != []
    ensures Good(g, rows, evidence, points[..|points|-1])
  {
    var front, last := points[..|points|-1], points[|points|-1];
    assert front + [last] == points;
    AcceptIsOrderly(rows, front, last, ProgressOf(rows, front));
    hide Orderly, Accept, UnitsOf, EndOf;
  }

  lemma {:induction false} GoodPrefix(g: Generation, rows: map<Id, Entry>, evidence: map<PointId, Evidence>,
                                      points: seq<Point>, k: nat)
    requires Good(g, rows, evidence, points) && k <= |points|
    ensures Good(g, rows, evidence, points[..k])
    decreases |points|
  {
    hide Good;
    if k == |points| {
      assert points[..k] == points;
    } else {
      GoodFront(g, rows, evidence, points);
      GoodPrefix(g, rows, evidence, points[..|points|-1], k);
      assert points[..|points|-1][..k] == points[..k];
    }
  }

  lemma {:induction false} PointsPrefix(pages: map<nat, Page>, k: nat, n: nat)
    requires k <= n
    ensures |Points(pages, k)| <= |Points(pages, n)| && Points(pages, k) == Points(pages, n)[..|Points(pages, k)|]
    decreases n - k
  {
    if k < n { PointsPrefix(pages, k, n - 1); }
  }

  lemma {:induction false} PagesInRange(pages: map<nat, Page>, n: nat)
    requires forall k :: 0 <= k < n ==> k in pages && EncodePage(pages[k]).Ok?
    ensures InRange(Points(pages, n))
  {
    if n > 0 {
      PagesInRange(pages, n - 1);
      var page := pages[n - 1];
      assert forall i :: 0 <= i < |page.points| ==> ValidEvidence(page.points[i].evidence);
    }
  }

  lemma TiledIsOrderly(rows: map<Id, Entry>, points: seq<Point>)
    requires Bound(rows, points) && InRange(points)
    requires forall id :: id in rows ==> UnitsTile(rows[id], UnitsOf(points, id))
    ensures Orderly(rows, points)
  {
    hide Bound, InRange, UnitsOf, EndOf, Numbered, Abut;
  }

  lemma GraphIsGood(g: Generation, rows: map<Id, Entry>, pages: map<nat, Page>, evidence: map<PointId, Evidence>)
    requires GraphOk(g, rows, pages, evidence)
    ensures Good(g, rows, evidence, Points(pages, g.pageCount))
  {
    hide InRange, EncodePage, Points, UnitsOf, InventoryOk, UnitsTile, Bound, Orderly;
    PagesInRange(pages, g.pageCount);
    TiledIsOrderly(rows, Points(pages, g.pageCount));
  }

  lemma GraphPrefixGood(g: Generation, rows: map<Id, Entry>, pages: map<nat, Page>,
                        evidence: map<PointId, Evidence>, n: nat)
    requires GraphOk(g, rows, pages, evidence) && n <= g.pageCount
    ensures Good(g, rows, evidence, Points(pages, n))
    ensures StagedBytes(n, |Points(pages, n)|) <= MAX_STAGED_BYTES
  {
    GraphIsGood(g, rows, pages, evidence);
    PointsPrefix(pages, n, g.pageCount);
    GoodPrefix(g, rows, evidence, Points(pages, g.pageCount), |Points(pages, n)|);
    hide InventoryOk, Good, EvidenceMatches, Bound, PagesFit;
  }

  // ----------------------------------------------------------- inventory

  lemma {:induction false} UnitTotalRest(rows: map<Id, Entry>, keys: set<Id>)
    requires keys <= rows.Keys
    ensures UnitTotal(rows - keys) <= UnitTotal(rows)
    decreases |keys|
  {
    if keys == {} {
      assert rows - keys == rows;
    } else {
      var id :| id in keys;
      UnitTotalRest(rows, keys - {id});
      UnitTotalRemove(rows - (keys - {id}), id);
      assert rows - (keys - {id}) - {id} == rows - keys;
    }
  }

  lemma GapIdsGrow(rows: map<Id, Entry>, todo: set<Id>, id: Id)
    requires id in todo && id in rows
    ensures |GapIds(rows - (todo - {id}))|
            == |GapIds(rows - todo)| + if rows[id].captured.IsGap() then 1 else 0
  {
    var gap := if rows[id].captured.IsGap() then {id} else {};
    assert GapIds(rows - (todo - {id})) == GapIds(rows - todo) + gap;
  }

  lemma UnitTotalGrow(rows: map<Id, Entry>, todo: set<Id>, id: Id)
    requires id in todo && todo <= rows.Keys
    ensures UnitTotal(rows - (todo - {id})) == UnitTotal(rows - todo) + rows[id].stagedUnits <= UnitTotal(rows)
  {
    var after := rows - (todo - {id});
    UnitTotalRemove(after, id);
    assert after - {id} == rows - todo;
    UnitTotalRest(rows, todo - {id});
  }

  /** The rows read so far, all but `todo`, were each acceptable and belong
      to one source namespace. */
  predicate RowsRead(rows: map<Id, Entry>, todo: set<Id>, namespace: Option<Id>) {
    && todo <= rows.Keys
    && (namespace.None? <==> todo == rows.Keys)
    && (forall id :: id in rows && id !in todo ==>
          RowOk(id, rows[id]) && namespace == Some(rows[id].captured.source.namespace))
  }

  /** The walk cannot end well once a row is bad or crosses namespaces. */
  lemma RowRejected(g: Generation, rows: map<Id, Entry>, todo: set<Id>, namespace: Option<Id>, id: Id)
    requires RowsRead(rows, todo, namespace) && id in todo && id in rows && InventoryOk(g, rows)
    ensures RowOk(id, rows[id])
    ensures namespace.Some? ==> namespace.value == rows[id].captured.source.namespace
  {
    hide RowOk, GapIds, UnitTotal;
    if namespace.Some? {
      var other :| other in rows && other !in todo;
    }
  }

  lemma InventoryCounts(g: Generation, rows: map<Id, Entry>)
    requires InventoryOk(g, rows)
    ensures |rows| == g.sourceCount <= MAX_SOURCES && |GapIds(rows)| == g.gapCount
    ensures UnitTotal(rows) == g.pointCount <= MAX_POINTS
  {
  }

  lemma AllRead(g: Generation, rows: map<Id, Entry>, namespace: Option<Id>)
    requires RowsRead(rows, {}, namespace)
    requires |rows| == g.sourceCount <= MAX_SOURCES && |GapIds(rows)| == g.gapCount
    requires UnitTotal(rows) == g.pointCount <= MAX_POINTS
    ensures InventoryOk(g, rows)
  {
    hide RowOk, GapIds, UnitTotal;
  }

  /** Reads every saved source row of the generation once. */
  method VerifySources(g: Generation, rows: map<Id, Entry>) returns (r: Result<map<Id, Progress>, Error>)
    ensures r.Ok? <==> InventoryOk(g, rows)
    ensures r.Ok? ==> Accounts(rows, [], r.value)
    ensures r.Err? ==> r.error == Corrupt
  {
    hide RowsRead, RowOk, GapIds, UnitTotal, InventoryOk;
    if InventoryOk(g, rows) { InventoryCounts(g, rows); }
    if g.sourceCount > MAX_SOURCES { return Err(Corrupt); }
    var progress: map<Id, Progress> := map[];
    var gaps: nat, units: nat := 0, 0;
    var namespace: Option<Id> := None;
    var todo := rows.Keys;
    NothingRead(rows);
    while todo != {}
      invariant todo <= rows.Keys
      invariant RowsRead(rows, todo, namespace)
      invariant gaps == |GapIds(rows - todo)| && units == UnitTotal(rows - todo) <= MAX_POINTS
      invariant progress == (map id | id in rows && id !in todo :: Progress(0, 0))
      invariant |progress| <= g.sourceCount && |progress| + |todo| == |rows|
      decreases |todo|
    {
      var id :| id in todo;
      var entry := rows[id];
      UnitTotalGrow(rows, todo, id);
      GapIdsGrow(rows, todo, id);
      if InventoryOk(g, rows) { RowRejected(g, rows, todo, namespace, id); }
      if |progress| >= g.sourceCount { return Err(Corrupt); }
      if !RowOk(id, entry) || (namespace.Some? && namespace.value != entry.captured.source.namespace) {
        return Err(Corrupt);
      }
      if units + entry.stagedUnits > MAX_POINTS { return Err(Corrupt); }
      RowRead(rows, todo, namespace, id);
      namespace := Some(entry.captured.source.namespace);
      gaps := gaps + if entry.captured.IsGap() then 1 else 0;
      units := units + entry.stagedUnits;
      progress := progress[id := Progress(0, 0)];
      todo := todo - {id};
    }
    assert rows - todo == rows;
    if |progress| != g.sourceCount || gaps != g.gapCount || units != g.pointCount { return Err(Corrupt); }
    AllRead(g, rows, namespace);
    return Ok(progress);
  }

  lemma NothingRead(rows: map<Id, Entry>)
    ensures RowsRead(rows, rows.Keys, None)
    ensures |GapIds(rows - rows.Keys)| == 0 && UnitTotal(rows - rows.Keys) == 0
  {
    assert rows - rows.Keys == map[];
    assert GapIds(map[]) == {};
  }

  lemma RowRead(rows: map<Id, Entry>, todo: set<Id>, namespace: Option<Id>, id: Id)
    requires RowsRead(rows, todo, namespace) && id in todo && id in rows && RowOk(id, rows[id])
    requires namespace.None? || namespace == Some(rows[id].captured.source.namespace)
    ensures RowsRead(rows, todo - {id}, Some(rows[id].captured.source.namespace))
  {
    hide RowOk;
  }

  // ------------------------------------------------------------ the pages

  /** Accepts the points of one page after the points before it. */
  method VerifyPage(g: Generation, rows: map<Id, Entry>, evidence: map<PointId, Evidence>,
                    ghost before: seq<Point>, page: Page, count: nat, start: map<Id, Progress>)
    returns (r: Result<map<Id, Progress>, Error>)
    requires Good(g, rows, evidence, before) && count == |before| && Accounts(rows, before, start)
    ensures r.Ok? <==> Good(g, rows, evidence, before + page.points)
    ensures r.Ok? ==> Accounts(rows, before + page.points, r.value)
    ensures r.Err? ==> r.error == Corrupt
  {
    hide Orderly, Accounts, Accept;
    var progress: map<Id, Progress> := start;
    var i := 0;
    assert before + page.points[..0] == before;
    while i < |page.points|
      invariant 0 <= i <= |page.points|
      invariant Good(g, rows, evidence, before + page.points[..i])
      invariant Accounts(rows, before + page.points[..i], progress)
    {
      ghost var done := before + page.points[..i];
      var point := page.points[i];
      assert done + [point] == before + page.points[..i + 1];
      assert (before + page.points)[..|before| + i + 1] == done + [point];
      if Good(g, rows, evidence, before + page.points) {
        GoodPrefix(g, rows, evidence, before + page.points, |before| + i + 1);
      }
      AcceptIsOrderly(rows, done, point, progress);
      assert (done + [point])[|done|] == point;
      AccountsKeys(rows, done, progress);
      var e := point.evidence;
      if count + i >= g.pointCount { return Err(Corrupt); }
      if point.id !in evidence || point.id != PointId(g.sequence, count + i) || evidence[point.id] != e {
        return Err(Corrupt);
      }
      if e.source !in progress { return Err(Corrupt); }
      var accepted := Accept(rows[e.source], progress[e.source], e);
      if accepted.None? { return Err(Corrupt); }
      AcceptAccounts(rows, done, point, progress);
      progress := progress[e.source := accepted.value];
      i := i + 1;
    }
    assert page.points[..i] == page.points;
    return Ok(progress);
  }

  lemma AccountsKeys(rows: map<Id, Entry>, points: seq<Point>, progress: map<Id, Progress>)
    requires Accounts(rows, points, progress)
    ensures progress.Keys == rows.Keys
  {
  }

  /** Every source has had all its units and, unless it is a gap, its end. */
  predicate AllComplete(rows: map<Id, Entry>, progress: map<Id, Progress>) {
    forall id :: id in rows && id in progress ==>
      && progress[id].seen == rows[id].stagedUnits
      && (!rows[id].captured.IsGap() ==> progress[id].end == rows[id].captured.source.objectRef.length)
  }

  lemma CompleteIsTiled(rows: map<Id, Entry>, points: seq<Point>, progress: map<Id, Progress>)
    requires Orderly(rows, points) && Accounts(rows, points, progress)
    ensures AllComplete(rows, progress) <==> forall id :: id in rows ==> UnitsTile(rows[id], UnitsOf(points, id))
  {
    hide Numbered, Abut, UnitsOf, EndOf, Bound, InRange;
    assert forall id :: id in rows ==> SourceOrderly(rows[id], UnitsOf(points, id));
  }

  /** What the page loop has established after `n` pages. */
  ghost predicate PagesRead(g: Generation, rows: map<Id, Entry>, pages: map<nat, Page>,
                            evidence: map<PointId, Evidence>, n: nat)
  {
    && n <= g.pageCount
    && (forall k: nat :: k < n ==> k in pages && EncodePage(pages[k]).Ok?)
    && Good(g, rows, evidence, Points(pages, n))
    && StagedBytes(n, |Points(pages, n)|) <= MAX_STAGED_BYTES
  }

  lemma GraphPagesRead(g: Generation, rows: map<Id, Entry>, pages: map<nat, Page>,
                       evidence: map<PointId, Evidence>, n: nat)
    requires GraphOk(g, rows, pages, evidence) && n <= g.pageCount
    ensures PagesRead(g, rows, pages, evidence, n)
  {
    hide InventoryOk, Good, EvidenceMatches, Bound, Points, UnitsTile, UnitsOf, EncodePage, StagedBytes;
    GraphPrefixGood(g, rows, pages, evidence, n);
  }

  lemma {:induction false} LeastExists(s: set<nat>, k: nat)
    requires k in s
    ensures exists least :: least in s && forall j :: j in s ==> least <= j
    decreases k
  {
    if j :| j in s && j < k {
      LeastExists(s, j);
    }
  }

  /** The first row of a prefix scan. */
  method FirstKey(keys: set<nat>) returns (k: nat)
    requires keys != {}
    ensures k in keys && forall j :: j in keys ==> k <= j
  {
    k :| k in keys;
    LeastExists(keys, k);
    k :| k in keys && forall j :: j in keys ==> k <= j;
  }

  /** The page rows as a whole: consecutive keys, all of them accepted. */
  ghost predicate PagesOk(g: Generation, rows: map<Id, Entry>, pages: map<nat, Page>, evidence: map<PointId, Evidence>) {
    && PagesRead(g, rows, pages, evidence, g.pageCount)
    && PagesFit(pages, g.pageCount)
    && |Points(pages, g.pageCount)| == g.pointCount
  }

  /** The next page key of an acceptable generation is the page count, and
      that page is acceptable after the pages before it. */
  lemma PageNeeded(g: Generation, rows: map<Id, Entry>, pages: map<nat, Page>, evidence: map<PointId, Evidence>,
                   n: nat, k: nat)
    requires PagesOk(g, rows, pages, evidence) && n <= k && k in pages
    requires forall j: nat :: j in pages && n <= j ==> k <= j
    ensures k == n < g.pageCount && PagesRead(g, rows, pages, evidence, n + 1)
  {
    hide Good, EncodePage, Points, StagedBytes;
    assert k < g.pageCount && n in pages;
    PagesReadPrefix(g, rows, pages, evidence, n + 1);
  }

  lemma PageAdded(g: Generation, rows: map<Id, Entry>, pages: map<nat, Page>, evidence: map<PointId, Evidence>, n: nat)
    requires PagesRead(g, rows, pages, evidence, n) && n in pages
    ensures Points(pages, n + 1) == Points(pages, n) + pages[n].points
    ensures StagedBytes(n + 1, |Points(pages, n + 1)|)
            == StagedBytes(n, |Points(pages, n)|) + EncodedBytes(|pages[n].points|)
    ensures PagesRead(g, rows, pages, evidence, n + 1)
            <==> && n < g.pageCount && EncodePage(pages[n]).Ok?
                 && Good(g, rows, evidence, Points(pages, n) + pages[n].points)
                 && StagedBytes(n + 1, |Points(pages, n + 1)|) <= MAX_STAGED_BYTES
  {
    hide Good, EncodePage;
  }

  lemma PagesDone(g: Generation, rows: map<Id, Entry>, pages: map<nat, Page>, evidence: map<PointId, Evidence>, n: nat)
    requires PagesRead(g, rows, pages, evidence, n)
    requires forall k: nat :: k in pages ==> k < n
    ensures PagesOk(g, rows, pages, evidence)
            <==> n == g.pageCount && |Points(pages, n)| == g.pointCount
  {
    hide Good, EncodePage, Points;
    assert PagesFit(pages, g.pageCount) && n < g.pageCount ==> n in pages;
  }

  /** Reads the page rows in key order and every point in them. */
  method VerifyPages(g: Generation, rows: map<Id, Entry>, pages: map<nat, Page>, evidence: map<PointId, Evidence>,
                     start: map<Id, Progress>)
    returns (r: Result<map<Id, Progress>, Error>)
    requires Accounts(rows, [], start)
    ensures r.Ok? <==> PagesOk(g, rows, pages, evidence)
    ensures r.Ok? ==> Accounts(rows, Points(pages, g.pageCount), r.value)
    ensures r.Err? ==> r.error == Corrupt
  {
    NoPoints(g, rows, pages, evidence);
    hide Accounts, EncodePage, Points, PagesOk, PagesRead, StagedBytes, EncodedBytes, Good;
    var progress: map<Id, Progress> := start;
    var pageCount: nat, pointCount: nat, charged: nat := 0, 0, 0;
    var todo: set<nat> := pages.Keys;
    while todo != {}
      invariant PagesRead(g, rows, pages, evidence, pageCount)
      invariant forall k: nat :: k in todo <==> k in pages && pageCount <= k
      invariant pointCount == |Points(pages, pageCount)| && charged == StagedBytes(pageCount, pointCount)
      invariant Accounts(rows, Points(pages, pageCount), progress)
      decreases |todo|
    {
      var k := FirstKey(todo);
      if PagesOk(g, rows, pages, evidence) { PageNeeded(g, rows, pages, evidence, pageCount, k); }
      if pageCount >= g.pageCount || k != pageCount { return Err(Corrupt); }
      var page := pages[k];
      PageAdded(g, rows, pages, evidence, pageCount);
      if charged + EncodedBytes(|page.points|) > MAX_STAGED_BYTES { return Err(Corrupt); }
      if EncodePage(page).Err? { return Err(Corrupt); }
      ReadIsGood(g, rows, pages, evidence, pageCount);
      var accepted := VerifyPage(g, rows, evidence, Points(pages, pageCount), page, pointCount, progress);
      if accepted.Err? { return Err(Corrupt); }
      progress := accepted.value;
      charged := charged + EncodedBytes(|page.points|);
      pointCount := pointCount + |page.points|;
      pageCount := pageCount + 1;
      todo := todo - {k};
    }
    PagesDone(g, rows, pages, evidence, pageCount);
    if pageCount != g.pageCount || pointCount != g.pointCount { return Err(Corrupt); }
    return Ok(progress);
  }

  lemma ReadIsGood(g: Generation, rows: map<Id, Entry>, pages: map<nat, Page>,
                   evidence: map<PointId, Evidence>, n: nat)
    requires PagesRead(g, rows, pages, evidence, n)
    ensures Good(g, rows, evidence, Points(pages, n))
  {
  }

  lemma NoPoints(g: Generation, rows: map<Id, Entry>, pages: map<nat, Page>, evidence: map<PointId, Evidence>)
    ensures PagesRead(g, rows, pages, evidence, 0)
    ensures Points(pages, 0) == [] && StagedBytes(0, 0) == 0
  {
  }

  lemma PagesReadPrefix(g: Generation, rows: map<Id, Entry>, pages: map<nat, Page>,
                        evidence: map<PointId, Evidence>, n: nat)
    requires PagesRead(g, rows, pages, evidence, g.pageCount) && n <= g.pageCount
    ensures PagesRead(g, rows, pages, evidence, n)
  {
    PointsPrefix(pages, n, g.pageCount);
    GoodPrefix(g, rows, evidence, Points(pages, g.pageCount), |Points(pages, n)|);
    hide Good, EncodePage;
  }

  /** Evidence keys are ids of this generation, one for each point. */
  predicate EvidenceKeysOk(g: Generation, keys: set<PointId>) {
    && (forall id :: id in keys ==> id.sequence == g.sequence && id.ordinal < g.pointCount)
    && |keys| == g.pointCount
  }

  method VerifyEvidence(g: Generation, evidence: map<PointId, Evidence>) returns (r: Result<(), Error>)
    ensures r.Ok? <==> EvidenceKeysOk(g, evidence.Keys)
    ensures r.Err? ==> r.error == Corrupt
  {
    var todo, count := evidence.Keys, 0;
    while todo != {}
      invariant todo <= evidence.Keys && count + |todo| == |evidence.Keys| && count <= g.pointCount
      invariant forall id :: id in evidence && id !in todo ==> id.sequence == g.sequence && id.ordinal < g.pointCount
      decreases |todo|
    {
      var id :| id in todo;
      if id.sequence != g.sequence || id.ordinal >= g.pointCount { return Err(Corrupt); }
      if count + 1 > g.pointCount { return Err(Corrupt); }
      count := count + 1;
      todo := todo - {id};
    }
    if count != g.pointCount { return Err(Corrupt); }
    return Ok(());
  }

  function Ids(q: nat, n: nat): set<PointId> {
    set i | 0 <= i < n :: PointId(q, i)
  }

  lemma {:induction false} IdsCount(q: nat, n: nat)
    ensures |Ids(q, n)| == n
  {
    if n > 0 {
      IdsCount(q, n - 1);
      assert Ids(q, n) == Ids(q, n - 1) + {PointId(q, n - 1)};
    }
  }

  lemma KeysAreTheIds(g: Generation, evidence: map<PointId, Evidence>, points: seq<Point>)
    requires Listed(g.sequence, evidence, points) && |points| == g.pointCount
    ensures EvidenceKeysOk(g, evidence.Keys) <==> EvidenceMatches(g.sequence, evidence, points)
  {
    IdsCount(g.sequence, g.pointCount);
    if EvidenceMatches(g.sequence, evidence, points) {
      forall i | 0 <= i < g.pointCount ensures PointId(g.sequence, i) in evidence {
        assert points[i].id in evidence;
      }
      assert evidence.Keys == Ids(g.sequence, g.pointCount);
    }
  }

  /** The exhaustive check made before a generation is served accepts exactly
      the saved graphs that `GraphOk` describes. */
  method VerifyGeneration(g: Generation, rows: map<Id, Entry>, pages: map<nat, Page>,
                          evidence: map<PointId, Evidence>)
    returns (r: Result<(), Error>)
    ensures r.Ok? <==> GraphOk(g, rows, pages, evidence)
    ensures r.Err? ==> r.error == Corrupt
  {
    hide InventoryOk, Accounts, AllComplete, EvidenceKeysOk, GraphOk, PagesOk;
    ghost var points := Points(pages, g.pageCount);
    var start := VerifySources(g, rows);
    if start.Err? { GraphParts(g, rows, pages, evidence, map[]); return Err(Corrupt); }
    var progress := VerifyPages(g, rows, pages, evidence, start.value);
    if progress.Err? { GraphParts(g, rows, pages, evidence, map[]); return Err(Corrupt); }
    GraphParts(g, rows, pages, evidence, progress.value);
    if !AllComplete(rows, progress.value) { return Err(Corrupt); }
    r := VerifyEvidence(g, evidence);
  }

  /** The declarative graph is the conjunction of the walk's stages. */
  lemma GraphParts(g: Generation, rows: map<Id, Entry>, pages: map<nat, Page>, evidence: map<PointId, Evidence>,
                   progress: map<Id, Progress>)
    ensures GraphOk(g, rows, pages, evidence) ==> InventoryOk(g, rows) && PagesOk(g, rows, pages, evidence)
    ensures PagesOk(g, rows, pages, evidence) && Accounts(rows, Points(pages, g.pageCount), progress) ==>
              (GraphOk(g, rows, pages, evidence)
               <==> InventoryOk(g, rows) && AllComplete(rows, progress) && EvidenceKeysOk(g, evidence.Keys))
  {
    hide InventoryOk, Accounts, AllComplete, EvidenceKeysOk, EvidenceMatches, UnitsTile, UnitsOf, Points,
         PagesFit, Bound, Orderly, Listed;
    var points := Points(pages, g.pageCount);
    if GraphOk(g, rows, pages, evidence) { GraphPagesRead(g, rows, pages, evidence, g.pageCount); }
    if PagesOk(g, rows, pages, evidence) && Accounts(rows, points, progress) {
      CompleteIsTiled(rows, points, progress);
      KeysAreTheIds(g, evidence, points);
      OrderlyIsBound(rows, points);
    }
  }

  lemma OrderlyIsBound(rows: map<Id, Entry>, points: seq<Point>)
    requires Orderly(rows, points)
    ensures Bound(rows, points)
  {
  }
}
