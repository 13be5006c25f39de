/** When each publication transaction succeeds, in any state of a run: the
    conditions a caller can read off the header, the corpus and the rows. */
module Progress {
  import opened Wrappers
  import opened Control
  import opened Graph
  import opened Protocol

  lemma HeaderLoads(db: Db)
    requires HeaderInv(db)
    ensures Load(db) == Ok(db.Header())
  {
    hide RetiredDecodes, PendingInv;
  }

  /** A handle finds the pending build exactly when it names it. */
  lemma PendingLoads(db: Db, handle: Pending)
    requires HeaderInv(db)
    ensures LoadPending(db, handle).Ok? <==>
              && db.Header().pending.Some?
              && db.Header().pending.value.generation.sequence == handle.generation.sequence
              && db.Header().pending.value.generation.namespace == handle.generation.namespace
    ensures LoadPending(db, handle).Ok? ==> LoadPending(db, handle).value == (db.Header(), db.Header().pending.value)
  {
    HeaderLoads(db);
    hide Load, HeaderInv;
  }

  // --------------------------------------------------------- reservation

  /** Under a capture of the present database a build starts exactly when none
      is pending, the retired table has room and a sequence is left. */
  lemma StartSucceeds(db: Db, c: Capture, drawn: Id)
    requires HeaderInv(db) && IsCapture(c, db)
    ensures StartBuild(db, c, drawn).Ok? <==>
              db.Header().pending.None? && |db.retired| < MAX_RETIRED && db.Header().nextSequence < U64_MAX
  {
    HeaderLoads(db);
    hide Load, HeaderInv, Ascending, Charged, GapCount;
  }

  predicate Distinct(chunk: seq<Captured>) {
    forall i, j :: 0 <= i < j < |chunk| ==> chunk[i].source.id != chunk[j].source.id
  }

  lemma {:induction false} InsertSucceeds(rows: map<Id, Entry>, chunk: seq<Captured>)
    requires Distinct(chunk) && forall x :: x in chunk ==> x.source.id !in rows
    ensures InsertInputs(rows, chunk).Ok?
    ensures forall id :: id in InsertInputs(rows, chunk).value <==> id in rows || exists x :: x in chunk && x.source.id == id
  {
    if chunk != [] {
      var front, last := chunk[..|chunk|-1], chunk[|chunk|-1];
      assert chunk == front + [last];
      InsertSucceeds(rows, front);
    }
  }

  /** A chunk of captured rows is saved when none of them is saved yet. */
  lemma PersistSucceeds(db: Db, handle: Pending, chunk: seq<Captured>)
    requires HeaderInv(db) && db.Header().pending == Some(handle)
    requires Distinct(chunk) && forall x :: x in chunk ==> x.source.id !in At(db.sources, handle.generation.sequence)
    ensures PersistInputs(db, handle, chunk).Ok?
  {
    PendingLoads(db, handle);
    InsertSucceeds(At(db.sources, handle.generation.sequence), chunk);
    hide LoadPending, HeaderInv, InsertInputs;
  }

  // ------------------------------------------------------------- staging

  /** The point is the next one of an unfinished source of these rows. */
  predicate NextPoint(q: nat, rows: map<Id, Entry>, before: seq<Point>, point: Point) {
    var e := point.evidence;
    && point.id == PointId(q, |before|)
    && e.source in rows && !rows[e.source].complete && Binds(rows[e.source], e)
    && e.unit == |UnitsOf(before, e.source)|
  }

  lemma StagePointSucceeds(q: nat, stage: Stage, before: seq<Point>, point: Point)
    requires StageInv(q, stage, before) && |before| < MAX_POINTS
    requires NextPoint(q, stage.sources, before, point)
    ensures StagePoint(stage, q, point).Ok?
  {
    hide Bound, UnitTotal, UnitsOf;
    var id := point.evidence.source;
    assert stage.sources[id].stagedUnits == |UnitsOf(before, id)|;
    UnitsBounded(before, id);
  }

  lemma {:induction false} UnitsBounded(points: seq<Point>, id: Id)
    ensures |UnitsOf(points, id)| <= |points|
  {
    if points != [] { UnitsBounded(points[..|points|-1], id); }
  }

  /** Each point is the next one after those before it. */
  predicate NextPoints(q: nat, rows: map<Id, Entry>, before: seq<Point>, points: seq<Point>) {
    forall i :: 0 <= i < |points| ==> NextPoint(q, rows, before + points[..i], points[i])
  }

  lemma SameBindings(q: nat, rows: map<Id, Entry>, after: map<Id, Entry>, before: seq<Point>, point: Point)
    requires SameInputs(rows, after) && NextPoint(q, rows, before, point)
    ensures NextPoint(q, after, before, point)
  {
  }

  lemma {:induction false} StagePointsSucceeds(q: nat, stage: Stage, before: seq<Point>, points: seq<Point>)
    requires StageInv(q, stage, before) && Keyed(stage.sources) && |before| + |points| <= MAX_POINTS
    requires NextPoints(q, stage.sources, before, points)
    ensures StagePoints(stage, q, points).Ok?
    decreases |points|
  {
    hide StageInv, StagePoint, NextPoint, SameInputs;
    if points != [] {
      var front, last := points[..|points|-1], points[|points|-1];
      forall i | 0 <= i < |front| ensures NextPoint(q, stage.sources, before + front[..i], front[i]) {
        assert front[..i] == points[..i];
      }
      StagePointsSucceeds(q, stage, before, front);
      StagePointsKeep(q, stage, before, front);
      var staged := StagePoints(stage, q, front).value;
      SameBindings(q, stage.sources, staged.sources, before + front, last);
      StagePointSucceeds(q, staged, before + front, last);
    }
  }

  /** The bytes of all staged pages never reach their own ceiling: a page is
      refused for its own size or its points, not for the sum. */
  lemma RoomForPage(db: Db, page: Page)
    requires HeaderInv(db) && RowsInv(db) && db.Header().pending.Some? && EncodePage(page).Ok?
    ensures db.Header().pending.value.stagedBytes + EncodePage(page).value <= MAX_STAGED_BYTES
    ensures db.Header().pending.value.generation.pageCount < U64_MAX
  {
    hide CoherentAt, Sealed, OwnershipInv, RetiredDecodes, PendingInv;
  }

  /** A page is staged when it encodes, the build is open and each of its
      points is the next one of an unfinished source. */
  lemma StagePageSucceeds(db: Db, handle: Pending, page: Page, before: seq<Point>)
    requires HeaderInv(db) && RowsInv(db) && EncodePage(page).Ok? && LoadPending(db, handle).Ok?
    requires var p := db.Header().pending.value;
             var q := p.generation.sequence;
             && !p.captureComplete && p.inFlight.None?
             && Points(At(db.pages, q), p.generation.pageCount) == before
             && |before| + |page.points| <= MAX_POINTS
             && NextPoints(q, At(db.sources, q), before, page.points)
    ensures StagePage(db, handle, page).Ok?
  {
    PendingLoads(db, handle);
    RoomForPage(db, page);
    var p := db.Header().pending.value;
    var q := p.generation.sequence;
    assert CoherentAt(db, p.generation);
    hide HeaderInv, RowsInv, LoadPending, EncodePage, StagePoints, NextPoints, At, Points, StageInv;
    StagePointsSucceeds(q, Stage(p.generation.pointCount, At(db.sources, q), At(db.evidence, q)), before, page.points);
  }

  /** A source is marked complete exactly while the build is open, the source
      is saved and not yet complete, and it has that many units. */
  lemma FinishSucceeds(db: Db, handle: Pending, id: Id, units: nat)
    requires HeaderInv(db) && RowsInv(db) && LoadPending(db, handle).Ok?
    ensures var p := db.Header().pending.value;
            var q := p.generation.sequence;
            FinishSource(db, handle, id, units).Ok? <==>
              && !p.captureComplete && id in At(db.sources, q) && !At(db.sources, q)[id].complete
              && |UnitsOf(Points(At(db.pages, q), p.generation.pageCount), id)| == units
  {
    PendingLoads(db, handle);
    CompletedFits(db);
    var p := db.Header().pending.value;
    assert CoherentAt(db, p.generation);
    hide HeaderInv, RowsInv, LoadPending, At, Points, UnitsOf, UnitTotal, EvidenceMatches, Bound, PagesFit;
  }

  lemma CompletedFits(db: Db)
    requires HeaderInv(db) && db.Header().pending.Some?
    ensures db.Header().pending.value.completedSources < U64_MAX
  {
    hide RetiredDecodes, PendingInv;
  }

  /** A build is sealed exactly when the corpus is the one it captured and as
      many sources are complete as were captured. */
  lemma SealSucceeds(db: Db, handle: Pending)
    requires HeaderInv(db) && RowsInv(db) && LoadPending(db, handle).Ok?
    ensures var p := db.Header().pending.value;
            CompleteCapture(db, handle).Ok? <==>
              && WantedIs(db, p.sourceNamespace, p.generation.wanted)
              && |CompleteIds(At(db.sources, p.generation.sequence))| == p.generation.sourceCount
  {
    PendingLoads(db, handle);
    hide HeaderInv, LoadPending, CoherentAt, OwnershipInv, Sealed;
  }

  // ------------------------------------------------------------ dispatch

  /** The mutation a sealed build needs next. */
  predicate NextOperation(p: Pending, op: Operation) {
    match op
    case Create => !p.created
    case Insert(page) => p.created && page == p.uploaded && page < p.generation.pageCount
  }

  /** A mutation is recorded exactly when the corpus is the captured one, none
      is in flight, the build is sealed and this one is next. */
  lemma DispatchSucceeds(db: Db, p: Pending, op: Operation)
    requires HeaderInv(db) && db.Header().pending == Some(p)
    ensures RecordDispatch(db, p, op).Ok? <==>
              && WantedIs(db, p.sourceNamespace, p.generation.wanted) && p.inFlight.None?
              && p.captureComplete && NextOperation(p, op) && p.operationRevision < U64_MAX
  {
    PendingLoads(db, p);
    hide HeaderInv, LoadPending;
  }

  /** An answer is recorded exactly for the mutation in flight. */
  lemma SettleSucceeds(db: Db, handle: Pending, p: Pending, op: Operation, revision: nat, applied: bool)
    requires HeaderInv(db) && db.Header().pending == Some(p)
    requires handle.generation == p.generation
    ensures FinishDispatch(db, handle, op, revision, applied).Ok? <==>
              p.inFlight == Some(op) && p.operationRevision == revision
  {
    PendingLoads(db, handle);
    hide RetiredDecodes, LoadPending;
  }

  // --------------------------------------------------------- publication

  /** A commit under the pending header succeeds exactly for a build that is
      sealed, created and uploaded whole with nothing in flight, while the
      corpus is still the captured one and a revision is left. */
  lemma CommitSucceeds(db: Db, p: Pending)
    requires HeaderInv(db) && db.Header().pending == Some(p)
    ensures CommitGeneration(db, p).Ok? <==>
              && p.inFlight.None? && p.captureComplete && p.created && p.uploaded == p.generation.pageCount
              && db.Namespace() == p.sourceNamespace && db.Wanted() == p.generation.wanted
              && db.Header().currentRevision < U64_MAX
  {
    PendingLoads(db, p);
    hide RetiredDecodes, LoadPending;
  }

  /** A build is abandoned exactly when nothing is in flight. */
  lemma AbandonSucceeds(db: Db, p: Pending)
    requires HeaderInv(db) && db.Header().pending == Some(p)
    ensures AbandonBuild(db, p).Ok? <==> p.inFlight.None?
  {
    PendingLoads(db, p);
    hide HeaderInv, LoadPending;
  }

  /** And set aside exactly when something is: there is always room for it. */
  lemma SupersedeSucceeds(db: Db, p: Pending)
    requires HeaderInv(db) && db.Header().pending == Some(p)
    ensures SupersedeUnknown(db, p).Ok? <==> p.inFlight.Some?
  {
    PendingLoads(db, p);
    assert p.generation.sequence in db.retired ==>
        RetiredDecodes(db.Header(), p.generation.sequence, db.retired[p.generation.sequence]);
    hide LoadPending, Decodes;
  }

  // --------------------------------------------------------- retirement

  predicate IsRetired(db: Db, r: Retired) {
    r.generation.sequence in db.retired && db.retired[r.generation.sequence] == r
  }

  /** Rows of a retired generation, and its retired row, may be removed exactly
      while that retired row stands. */
  lemma RemoveSucceeds(db: Db, r: Retired, keys: RowKeys)
    requires HeaderInv(db)
    ensures RemoveRows(db, r, keys).Ok? <==> IsRetired(db, r)
    ensures RemoveRetired(db, r).Ok? <==> IsRetired(db, r)
  {
    HeaderLoads(db);
    if IsRetired(db, r) { assert RetiredDecodes(db.Header(), r.generation.sequence, r); }
    hide Load, Decodes, PendingInv;
  }

  /** The retired rows of a state of a run are always read. */
  lemma RetirementsRead(db: Db)
    requires HeaderInv(db)
    ensures ReadRetirements(db).Ok?
    ensures forall q :: q in db.retired ==> db.retired[q] in ReadRetirements(db).value
  {
    HeaderLoads(db);
    hide Load, Decodes, PendingInv, RetiredDecodes;
  }
}
