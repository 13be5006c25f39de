/** The control database: its rows, its header and one function per
    transaction. Every function takes the database a transaction sees and
    returns either the database it commits together with its result, or the
    error for which the transaction is dropped and nothing changes. */
module Control {
  import opened Wrappers

  const U64_MAX: nat := 0xFFFF_FFFF_FFFF_FFFF
  const MAX_SOURCES: nat := 4096
  const MAX_STAGED_BYTES: nat := 512 * 1024 * 1024
  const MAX_POINTS: nat := 1_000_000
  const MAX_RETIRED: nat := 8
  const MAX_CAPTURE_BYTES: nat := 16 * 1024 * 1024
  const MAX_PAGE_POINTS: nat := 128
  const MAX_PAGE_BYTES: nat := 1_048_576
  const MAX_TEXT_BYTES: nat := 65_536
  const MAX_SOURCE_BYTES: nat := 8 * 1024 * 1024
  const MAX_PREPARED_BYTES: nat := 64 * 1024 * 1024
  const MAX_LOCATOR_BYTES: nat := 32 * 1024
  const EVIDENCE_BYTES: nat := 160

  /** Closed failures of the control transactions. */
  datatype Error =
    | Unprepared | NotPublished | Stale | Unresolved | Corrupt | Limit | Database
    | RevisionExhausted | InventoryLimit | NotRetained | InvalidSettings | InvalidOutcome
    | Cancelled | Deadline

  // ---------------------------------------------------------------- rows

  /** Sixteen identifier bytes read as one big-endian number, so that the
      numeric order is the table's key order. */
  type Id = nat

  datatype ObjectKind = SourceObject | PreparedObject

  datatype ObjectRef = ObjectRef(version: nat, kind: ObjectKind, digest: nat, length: nat)

  datatype SourceRecord = SourceRecord(
    namespace: Id, id: Id, rowRevision: nat, registrationRevision: nat,
    locator: seq<nat>, fileKey: nat, objectRef: ObjectRef)

  datatype Settings = Settings(utf8Version: nat, unitizerVersion: nat, preferred: nat, hard: nat) {
    predicate Supported() {
      utf8Version == 1 && unitizerVersion == 1 && 0 < preferred <= hard <= MAX_TEXT_BYTES
    }
  }

  datatype Outcome = Ready(artifact: ObjectRef) | Gap(reason: nat)

  datatype BoundOutcome = BoundOutcome(
    rowRevision: nat, registrationRevision: nat, input: ObjectRef, settings: Settings, result: Outcome)
  {
    /** Whether the artifact's inputs are still those of a captured row. */
    predicate MatchesInput(source: SourceRecord, selected: Settings) {
      registrationRevision == source.registrationRevision && input == source.objectRef && settings == selected
    }
  }

  datatype Preparation = Preparation(
    namespace: Id, id: Id, settingsRevision: nat, settings: Settings,
    outcomeRevision: nat, outcome: Option<BoundOutcome>)

  /** What decoding a saved source row enforces; its revisions are 64 bits
      wide, and the encoder has no ceiling on the object. */
  predicate RowReads(r: SourceRecord) {
    && 0 < r.rowRevision <= U64_MAX && 0 < r.registrationRevision <= U64_MAX
    && IsSourceObject(r.objectRef)
  }

  predicate IsSourceObject(o: ObjectRef) {
    o.version == 1 && o.kind == SourceObject && o.length <= MAX_SOURCE_BYTES
  }

  /** A saved outcome's artifact has no ceiling. */
  predicate IsArtifact(o: ObjectRef) {
    o.version == 1 && o.kind == PreparedObject && o.length > 0
  }

  /** What decoding a saved preparation row enforces. */
  predicate PreparationReads(p: Preparation) {
    && p.settingsRevision != 0 && p.settings.Supported()
    && (p.outcome.Some? ==>
          var o := p.outcome.value;
          && p.outcomeRevision != 0 && o.rowRevision != 0 && o.registrationRevision != 0
          && o.settings.Supported() && IsSourceObject(o.input)
          && (o.result.Ready? ==> IsArtifact(o.result.artifact)))
  }

  /** One source row together with the preparation row selected for it. */
  datatype Captured = Captured(source: SourceRecord, preparation: Preparation) {
    predicate IsGap() {
      preparation.outcome.Some? && preparation.outcome.value.result.Gap?
    }
    /** Both rows decode. */
    predicate Reads() {
      RowReads(source) && PreparationReads(preparation)
    }
    predicate Consistent() {
      && preparation.id == source.id
      && preparation.namespace == source.namespace
      && preparation.outcome.Some?
      && preparation.outcome.value.MatchesInput(source, preparation.settings)
    }
  }

  datatype Generation = Generation(
    namespace: Id, sequence: nat, wanted: nat, sourceCount: nat, gapCount: nat,
    pointCount: nat, pageCount: nat)

  datatype Operation = Create | Insert(page: nat)

  datatype Pending = Pending(
    generation: Generation, captureComplete: bool, created: bool, uploaded: nat,
    inFlight: Option<Operation>, operationRevision: nat, completedSources: nat,
    stagedBytes: nat, sourceNamespace: Option<Id>, expectedRevision: nat,
    expectedCurrent: Option<Generation>)

  datatype State = State(
    namespace: Option<Id>, nextSequence: nat, currentRevision: nat,
    current: Option<Generation>, pending: Option<Pending>)

  const DefaultState := State(None, 0, 0, None, None)

  datatype Retired = Retired(generation: Generation, remoteOwned: bool, unresolved: Option<Pending>)

  datatype PointId = PointId(sequence: nat, ordinal: nat)

  datatype Evidence = Evidence(
    namespace: Id, source: Id, input: ObjectRef, prepared: ObjectRef, unit: nat,
    start: nat, end: nat, lineStart: nat, lineEnd: nat, startsAtLine: bool, endsAtLine: bool)

  datatype Point = Point(id: PointId, evidence: Evidence)

  datatype Page = Page(points: seq<Point>, requestBytes: Option<nat>)

  datatype Entry = Entry(captured: Captured, stagedUnits: nat, complete: bool)

  /** The source catalogue: the three source tables, the preparation table
      and the wanted-corpus revision stored beside the namespace. */
  datatype Corpus = Corpus(
    namespace: Id, wanted: nat, rows: map<Id, SourceRecord>,
    locators: map<seq<nat>, Id>, preparations: map<Id, Preparation>)

  /** A publication table. Each key is the eight big-endian bytes of a
      generation sequence followed by a suffix; the rows are grouped by that
      prefix, which is what a prefix scan walks. */
  type Table<K, V> = map<nat, map<K, V>>

  function At<K, V>(table: Table<K, V>, q: nat): map<K, V> {
    if q in table then table[q] else map[]
  }

  function Put<K, V>(table: Table<K, V>, q: nat, key: K, value: V): Table<K, V> {
    table[q := At(table, q)[key := value]]
  }

  function Drop<K, V>(table: Table<K, V>, q: nat, keys: set<K>): Table<K, V> {
    table[q := At(table, q) - keys]
  }

  /** The whole database as one transaction sees it. No `state` row means
      that the publication tables have not been created. */
  datatype Db = Db(
    corpus: Option<Corpus>, state: Option<State>,
    sources: Table<Id, Entry>, pages: Table<nat, Page>,
    evidence: Table<PointId, Evidence>, retired: map<nat, Retired>)
  {
    function Header(): State {
      if state.Some? then state.value else DefaultState
    }
    function Rows(): map<Id, SourceRecord> {
      if corpus.Some? then corpus.value.rows else map[]
    }
    function Preparations(): map<Id, Preparation> {
      if corpus.Some? then corpus.value.preparations else map[]
    }
    function Wanted(): nat {
      if corpus.Some? then corpus.value.wanted else 0
    }
    function Namespace(): Option<Id> {
      if corpus.Some? then Some(corpus.value.namespace) else None
    }
    /** The rows a capture joins: each source with its preparation. */
    function Join(): map<Id, Captured> {
      map id | id in Rows() && id in Preparations() :: Captured(Rows()[id], Preparations()[id])
    }
  }

  /** What a transaction commits, or why it is dropped. */
  type Edit<T> = Result<(Db, T), Error>

  function CheckedNext(n: nat, error: Error): Result<nat, Error> {
    if n >= U64_MAX then Err(error) else Ok(n + 1)
  }

  // ------------------------------------------------- source catalogue

  /** The guard read before a file is acquired. */
  datatype SourceCapture = SourceCapture(
    namespace: Id, id: Id, locator: seq<nat>, expectedNamespace: Option<Id>,
    expectedRow: Option<nat>, expectedRegistration: Option<nat>)
  {
    /** A guard read under an existing namespace carries that namespace. */
    predicate WellFormed() {
      expectedNamespace.Some? ==> expectedNamespace.value == namespace
    }
  }

  function SourceRevisions(db: Db, c: SourceCapture): Result<(nat, nat), Error> {
    var _ :- Need(c.expectedNamespace == db.Namespace(), Stale);
    var locators := if db.corpus.Some? then db.corpus.value.locators else map[];
    if c.expectedRow == None && c.expectedRegistration == None && c.locator !in locators then
      var _ :- Need(c.id !in db.Rows(), Stale);
      Ok((1, 1))
    else if c.expectedRow.Some? && c.expectedRegistration.Some? && c.locator in locators
            && locators[c.locator] == c.id then
      var _ :- Need(c.id in db.Rows(), Stale);
      var row := db.Rows()[c.id];
      var _ :- Need(
        && row.namespace == c.namespace && row.id == c.id && row.locator == c.locator
        && row.rowRevision == c.expectedRow.value
        && row.registrationRevision == c.expectedRegistration.value, Stale);
      var next :- CheckedNext(row.rowRevision, RevisionExhausted);
      Ok((next, row.registrationRevision))
    else
      Err(Stale)
  }

  function Advance(c: Corpus): Result<Corpus, Error> {
    var next :- CheckedNext(c.wanted, RevisionExhausted);
    Ok(c.(wanted := next))
  }

  /** The corpus a source commit starts from: the stored one, or the empty
      one whose namespace the capture drew. */
  function CorpusOr(db: Db, namespace: Id): Corpus {
    if db.corpus.Some? then db.corpus.value else Corpus(namespace, 0, map[], map[], map[])
  }

  function CommitSource(db: Db, c: SourceCapture, fileKey: nat, objectRef: ObjectRef): Edit<SourceRecord> {
    var revisions :- SourceRevisions(db, c);
    if c.expectedRow.Some? && c.id in db.Rows()
       && db.Rows()[c.id].objectRef == objectRef && db.Rows()[c.id].fileKey == fileKey then
      Ok((db, db.Rows()[c.id]))
    else
      var record := SourceRecord(c.namespace, c.id, revisions.0, revisions.1, c.locator, fileKey, objectRef);
      var _ :- Need(
        && record.objectRef.kind == SourceObject && record.objectRef.version == 1
        && 0 < |record.locator| <= MAX_LOCATOR_BYTES
        && record.rowRevision != 0 && record.registrationRevision != 0, Corrupt);
      var base := CorpusOr(db, c.namespace);
      var next :- Advance(base.(rows := base.rows[c.id := record],
                                locators := base.locators[c.locator := c.id]));
      Ok((db.(corpus := Some(next)), record))
  }

  predicate Removable(c: Corpus, expected: seq<SourceRecord>) {
    && (forall i, j :: 0 <= i < j < |expected| ==>
          expected[i].id != expected[j].id && expected[i].locator != expected[j].locator)
    && (forall r :: r in expected ==>
          && r.namespace == c.namespace
          && r.id in c.rows && c.rows[r.id] == r
          && r.locator in c.locators && c.locators[r.locator] == r.id)
  }

  function RemoveSources(db: Db, expected: seq<SourceRecord>): Edit<()> {
    if expected == [] then Ok((db, ()))
    else
      var _ :- Need(|expected| <= MAX_SOURCES, InventoryLimit);
      var _ :- Need(db.corpus.Some? && Removable(db.corpus.value, expected), Stale);
      var ids := set r | r in expected :: r.id;
      var locators := set r | r in expected :: r.locator;
      var c := db.corpus.value;
      var next :- Advance(c.(rows := c.rows - ids, locators := c.locators - locators,
                             preparations := c.preparations - ids));
      Ok((db.(corpus := Some(next)), ()))
  }

  /** Admitting a selection creates the source schema and draws its
      namespace; the wanted revision is not touched. */
  function Admit(db: Db, namespace: Id): Edit<()> {
    Ok((db.(corpus := Some(CorpusOr(db, namespace))), ()))
  }

  function FindPreparation(c: Corpus, id: Id): Option<Preparation> {
    if id in c.preparations then Some(c.preparations[id]) else None
  }

  function WriteSource(db: Db, id: Id): Result<SourceRecord, Error> {
    var _ :- Need(db.corpus.Some?, Corrupt);
    var _ :- Need(id in db.Rows(), NotRetained);
    var row := db.Rows()[id];
    var _ :- Need(row.id == id && row.namespace == db.corpus.value.namespace, Corrupt);
    Ok(row)
  }

  function SelectSettings(db: Db, id: Id, settings: Settings, source: SourceRecord,
                          previous: Option<Preparation>): Edit<Preparation>
  {
    var _ :- Need(settings.Supported(), InvalidSettings);
    var row :- WriteSource(db, id);
    var _ :- Need(row.namespace == source.namespace
                  && row.registrationRevision == source.registrationRevision, Stale);
    var c := db.corpus.value;
    var found := FindPreparation(c, id);
    var _ :- Need(found == previous, Stale);
    var prepared :-
      if found.Some? then
        (var next :- CheckedNext(found.value.settingsRevision, RevisionExhausted);
         Ok(found.value.(settingsRevision := next, settings := settings)))
      else
        Ok(Preparation(source.namespace, id, 1, settings, 0, None));
    var next :- Advance(c.(preparations := c.preparations[id := prepared]));
    Ok((db.(corpus := Some(next)), prepared))
  }

  datatype PreparationCapture = PreparationCapture(
    source: SourceRecord, settings: Settings, settingsRevision: nat,
    expectedRevision: nat, expected: Option<BoundOutcome>)

  function CommitOutcome(db: Db, capture: PreparationCapture, result: Outcome): Edit<Preparation> {
    var _ :- Need(result.Ready? ==> result.artifact.kind == PreparedObject
                                    && result.artifact.version == 1 && result.artifact.length > 0, InvalidOutcome);
    var source :- WriteSource(db, capture.source.id);
    var _ :- Need(source == capture.source, Stale);
    var c := db.corpus.value;
    var _ :- Need(source.id in c.preparations, Stale);
    var row := c.preparations[source.id];
    var _ :- Need(
      && row.namespace == source.namespace && row.id == source.id
      && row.settingsRevision == capture.settingsRevision && row.settings == capture.settings
      && row.outcomeRevision == capture.expectedRevision && row.outcome == capture.expected, Stale);
    var outcome := BoundOutcome(source.rowRevision, source.registrationRevision, source.objectRef,
                                capture.settings, result);
    if result.Gap? && row.outcome.Some? && row.outcome.value.MatchesInput(source, capture.settings)
       && row.outcome.value.result.Ready? then
      Ok((db, row))
    else if row.outcome == Some(outcome) then
      Ok((db, row))
    else
      var next :- CheckedNext(row.outcomeRevision, RevisionExhausted);
      var updated := row.(outcomeRevision := next, outcome := Some(outcome));
      var corpus :- Advance(c.(preparations := c.preparations[source.id := updated]));
      Ok((db.(corpus := Some(corpus)), updated))
  }

  // ---------------------------------------------------- publication

  predicate GenerationFits(s: State, g: Generation) {
    && s.namespace == Some(g.namespace)
    && 0 < g.sequence <= s.nextSequence
    && g.sourceCount <= MAX_SOURCES
    && g.gapCount <= g.sourceCount
    && g.pointCount <= MAX_POINTS
    && g.pageCount <= MAX_POINTS
  }

  /** The header checks made every time the state row is read back. */
  predicate Decodes(s: State) {
    && s.namespace.Some? && s.nextSequence != 0
    && (s.current.Some? ==> GenerationFits(s, s.current.value))
    && (s.pending.Some? ==> GenerationFits(s, s.pending.value.generation))
    && (s.current.Some? <==> s.currentRevision != 0)
    && (s.pending.Some? ==>
          var p := s.pending.value;
          && p.completedSources <= p.generation.sourceCount
          && p.uploaded <= p.generation.pageCount
          && p.stagedBytes <= MAX_STAGED_BYTES
          && (s.current.Some? ==> s.current.value.sequence != p.generation.sequence)
          && (p.captureComplete ==> p.completedSources == p.generation.sourceCount))
  }

  function Load(db: Db): Result<State, Error> {
    if db.state.None? then Ok(DefaultState)
    else if Decodes(db.state.value) then Ok(db.state.value)
    else Err(Corrupt)
  }

  function LoadPending(db: Db, handle: Pending): Result<(State, Pending), Error> {
    var s :- Load(db);
    var _ :- Need(s.pending.Some?, Stale);
    var p := s.pending.value;
    var _ :- Need(p.generation.namespace == handle.generation.namespace
                  && p.generation.sequence == handle.generation.sequence, Stale);
    Ok((s, p))
  }

  predicate WantedIs(db: Db, namespace: Option<Id>, wanted: nat) {
    db.Namespace() == namespace && db.Wanted() == wanted
  }

  /** One consistent read of the corpus and the header. */
  datatype Capture = Capture(
    sources: seq<Captured>, namespace: Option<Id>, wanted: nat, state: State)
  {
    /** Whether the current generation was built from this wanted revision. */
    predicate CurrentMatches() {
      state.current.Some? && state.current.value.wanted == wanted
    }
    predicate PendingMatches() {
      state.pending.Some? &&
      var p := state.pending.value;
      && p.sourceNamespace == namespace
      && p.generation.wanted == wanted
      && p.expectedRevision == state.currentRevision
      && p.expectedCurrent == state.current
    }
  }

  function RowBytes(s: SourceRecord): nat {
    113 + |s.locator|
  }

  function PreparationBytes(p: Preparation): nat {
    62 + match p.outcome
         case None => 0
         case Some(o) => 71 + if o.result.Ready? then 43 else 1
  }

  function Charged(sources: seq<Captured>): nat {
    if sources == [] then 0
    else Charged(sources[..|sources|-1])
         + RowBytes(sources[|sources|-1].source)
         + PreparationBytes(sources[|sources|-1].preparation)
  }

  predicate Ascending(sources: seq<Captured>) {
    forall i, j :: 0 <= i < j < |sources| ==> sources[i].source.id < sources[j].source.id
  }

  /** What a successful capture of `db` returned. */
  predicate IsCapture(c: Capture, db: Db) {
    && Load(db) == Ok(c.state)
    && c.namespace == db.Namespace() && c.wanted == db.Wanted()
    && Ascending(c.sources)
    && |c.sources| <= MAX_SOURCES && Charged(c.sources) <= MAX_CAPTURE_BYTES
    && db.Rows().Keys <= db.Preparations().Keys
    && (forall x :: x in c.sources ==>
          x.Consistent() && x.source.id in db.Join() && db.Join()[x.source.id] == x)
    && (forall id :: id in db.Rows() ==> exists i :: 0 <= i < |c.sources| && c.sources[i].source.id == id)
  }

  function GapCount(sources: seq<Captured>): nat {
    if sources == [] then 0
    else GapCount(sources[..|sources|-1]) + if sources[|sources|-1].IsGap() then 1 else 0
  }

  function StartBuild(db: Db, c: Capture, drawn: Id): Edit<Pending> {
    var s :- Load(db);
    var _ :- Need(WantedIs(db, c.namespace, c.wanted), Stale);
    var _ :- Need(
      && s.currentRevision == c.state.currentRevision && s.current == c.state.current
      && s.pending.None? && c.state.pending.None?
      && s.namespace == c.state.namespace && s.nextSequence == c.state.nextSequence, Stale);
    var _ :- Need(|db.retired| < MAX_RETIRED, Limit);
    var namespace := if c.state.namespace.Some? then c.state.namespace.value else drawn;
    var next :- CheckedNext(s.nextSequence, Limit);
    var p := Pending(
      Generation(namespace, next, c.wanted, |c.sources|, GapCount(c.sources), 0, 0),
      false, false, 0, None, 0, 0, 0, c.namespace, s.currentRevision, s.current);
    Ok((db.(state := Some(s.(namespace := Some(namespace), nextSequence := next, pending := Some(p)))), p))
  }

  /** Inserts captured rows; an existing key is corruption. */
  function InsertInputs(rows: map<Id, Entry>, chunk: seq<Captured>): Result<map<Id, Entry>, Error> {
    if chunk == [] then Ok(rows)
    else
      var before :- InsertInputs(rows, chunk[..|chunk|-1]);
      var last := chunk[|chunk|-1];
      var _ :- Need(last.source.id !in before, Corrupt);
      Ok(before[last.source.id := Entry(last, 0, false)])
  }

  function PersistInputs(db: Db, handle: Pending, chunk: seq<Captured>): Edit<()> {
    var loaded :- LoadPending(db, handle);
    var q := handle.generation.sequence;
    var rows :- InsertInputs(At(db.sources, q), chunk);
    Ok((db.(state := Some(loaded.0), sources := db.sources[q := rows]), ()))
  }

  predicate ValidEvidence(e: Evidence) {
    && e.input.version == 1 && e.input.kind == SourceObject && e.input.length <= MAX_SOURCE_BYTES
    && e.prepared.version == 1 && e.prepared.kind == PreparedObject
    && 0 < e.prepared.length <= MAX_PREPARED_BYTES
    && e.start < e.end <= e.input.length
    && e.end - e.start <= MAX_TEXT_BYTES
    && e.lineStart < e.lineEnd
  }

  /** Bytes of a complete page encoding: magic, version, count and request
      size, then an identifier and an evidence record for every point. */
  function EncodedBytes(points: nat): nat {
    20 + points * (16 + EVIDENCE_BYTES)
  }

  function PageSize(page: Page): Result<nat, Error> {
    if |page.points| == 0 || |page.points| > MAX_PAGE_POINTS then Err(Limit)
    else if exists i :: 0 <= i < |page.points| && !ValidEvidence(page.points[i].evidence) then Err(Corrupt)
    else Ok(EncodedBytes(|page.points|))
  }

  function EncodePage(page: Page): Result<nat, Error> {
    var size :- PageSize(page);
    var _ :- Need(page.requestBytes.Some? && 0 < page.requestBytes.value <= MAX_PAGE_BYTES, Corrupt);
    Ok(size)
  }

  /** The part of the database that staging a page rewrites. */
  datatype Stage = Stage(pointCount: nat, sources: map<Id, Entry>, evidence: map<PointId, Evidence>)

  predicate Binds(entry: Entry, e: Evidence) {
    var c := entry.captured;
    && e.namespace == c.source.namespace
    && e.source == c.source.id
    && e.input == c.source.objectRef
    && c.preparation.outcome.Some?
    && c.preparation.outcome.value.result == Ready(e.prepared)
  }

  function StagePoint(stage: Stage, q: nat, point: Point): Result<Stage, Error> {
    var _ :- Need(point.id == PointId(q, stage.pointCount), Corrupt);
    var e := point.evidence;
    var _ :- Need(e.source in stage.sources, Corrupt);
    var entry := stage.sources[e.source];
    var _ :- Need(!entry.complete && e.namespace == entry.captured.source.namespace
                  && e.input == entry.captured.source.objectRef && e.unit == entry.stagedUnits
                  && entry.captured.preparation.outcome.Some?
                  && entry.captured.preparation.outcome.value.result == Ready(e.prepared), Corrupt);
    var units :- CheckedNext(entry.stagedUnits, Limit);
    var _ :- Need(point.id !in stage.evidence, Corrupt);
    var count :- CheckedNext(stage.pointCount, Limit);
    var _ :- Need(count <= MAX_POINTS, Limit);
    Ok(Stage(count, stage.sources[e.source := entry.(stagedUnits := units)],
             stage.evidence[point.id := e]))
  }

  function StagePoints(stage: Stage, q: nat, points: seq<Point>): Result<Stage, Error> {
    if points == [] then Ok(stage)
    else
      var before :- StagePoints(stage, q, points[..|points|-1]);
      StagePoint(before, q, points[|points|-1])
  }

  function StagePage(db: Db, handle: Pending, page: Page): Edit<()> {
    var bytes :- EncodePage(page);
    var loaded :- LoadPending(db, handle);
    var (s, p) := loaded;
    var q := p.generation.sequence;
    var _ :- Need(!p.captureComplete && p.inFlight.None?, Stale);
    var _ :- Need(p.stagedBytes + bytes <= MAX_STAGED_BYTES, Limit);
    var stage :- StagePoints(Stage(p.generation.pointCount, At(db.sources, q), At(db.evidence, q)), q, page.points);
    var count :- CheckedNext(p.generation.pageCount, Limit);
    var p' := p.(stagedBytes := p.stagedBytes + bytes,
                 generation := p.generation.(pointCount := stage.pointCount, pageCount := count));
    Ok((db.(state := Some(s.(pending := Some(p'))),
            sources := db.sources[q := stage.sources],
            evidence := db.evidence[q := stage.evidence],
            pages := Put(db.pages, q, p.generation.pageCount, page)), ()))
  }

  function FinishSource(db: Db, handle: Pending, id: Id, units: nat): Edit<()> {
    var loaded :- LoadPending(db, handle);
    var (s, p) := loaded;
    var q := p.generation.sequence;
    var _ :- Need(!p.captureComplete, Stale);
    var _ :- Need(id in At(db.sources, q), Corrupt);
    var entry := At(db.sources, q)[id];
    var _ :- Need(!entry.complete && entry.stagedUnits == units, Corrupt);
    var count :- CheckedNext(p.completedSources, Limit);
    Ok((db.(state := Some(s.(pending := Some(p.(completedSources := count)))),
            sources := Put(db.sources, q, id, entry.(complete := true))), ()))
  }

  function CompleteCapture(db: Db, handle: Pending): Edit<Pending> {
    var loaded :- LoadPending(db, handle);
    var (s, p) := loaded;
    var _ :- Need(WantedIs(db, p.sourceNamespace, p.generation.wanted), Stale);
    var _ :- Need(p.completedSources == p.generation.sourceCount, Corrupt);
    var p' := p.(captureComplete := true);
    Ok((db.(state := Some(s.(pending := Some(p')))), p'))
  }

  function RecordDispatch(db: Db, handle: Pending, op: Operation): Edit<nat> {
    var loaded :- LoadPending(db, handle);
    var (s, p) := loaded;
    var _ :- Need(WantedIs(db, p.sourceNamespace, p.generation.wanted), Stale);
    var _ :- Need(p.inFlight.None?, Unresolved);
    var _ :- Need(p.operationRevision == handle.operationRevision && p.uploaded == handle.uploaded
                  && p.created == handle.created, Stale);
    var _ :- Need(p.captureComplete && (match op
                  case Create => !p.created
                  case Insert(page) => p.created && page == p.uploaded && page < p.generation.pageCount), Stale);
    var revision :- CheckedNext(p.operationRevision, Limit);
    Ok((db.(state := Some(s.(pending := Some(p.(operationRevision := revision, inFlight := Some(op)))))), revision))
  }

  function FinishDispatch(db: Db, handle: Pending, op: Operation, revision: nat, applied: bool): Edit<()> {
    var loaded :- LoadPending(db, handle);
    var (s, p) := loaded;
    var _ :- Need(p.inFlight == Some(op) && p.operationRevision == revision, Stale);
    var settled :-
      if !applied then Ok(p)
      else if op.Create? then Ok(p.(created := true))
      else (var next :- CheckedNext(p.uploaded, Limit); Ok(p.(uploaded := next)));
    Ok((db.(state := Some(s.(pending := Some(settled.(inFlight := None))))), ()))
  }

  function Retire(db: Db, r: Retired): map<nat, Retired> {
    db.retired[r.generation.sequence := r]
  }

  function CommitGeneration(db: Db, handle: Pending): Edit<Generation> {
    var loaded :- LoadPending(db, handle);
    var (s, p) := loaded;
    var _ :- Need(p == handle, Stale);
    var _ :- Need(WantedIs(db, p.sourceNamespace, p.generation.wanted), Stale);
    var _ :- Need(p.inFlight.None?, Unresolved);
    var _ :- Need(p.captureComplete && p.created && p.uploaded == p.generation.pageCount
                  && s.currentRevision == p.expectedRevision && s.current == p.expectedCurrent, Stale);
    var retired := if s.current.Some? then Retire(db, Retired(s.current.value, true, None)) else db.retired;
    var revision :- CheckedNext(s.currentRevision, Limit);
    Ok((db.(retired := retired,
            state := Some(s.(currentRevision := revision, current := Some(p.generation), pending := None))),
        p.generation))
  }

  function AbandonBuild(db: Db, handle: Pending): Edit<()> {
    var loaded :- LoadPending(db, handle);
    var (s, p) := loaded;
    var _ :- Need(p == handle, Stale);
    var _ :- Need(p.inFlight.None?, Unresolved);
    Ok((db.(retired := Retire(db, Retired(p.generation, p.created, None)),
            state := Some(s.(pending := None))), ()))
  }

  /** A build header whose one mutation is neither acknowledged nor refused. */
  predicate UnknownEffect(p: Pending) {
    && p.captureComplete && p.operationRevision != 0
    && p.inFlight.Some?
    && match p.inFlight.value
       case Create => !p.created && p.uploaded == 0
       case Insert(page) => p.created && page == p.uploaded && page < p.generation.pageCount
  }

  function SupersedeUnknown(db: Db, handle: Pending): Edit<()> {
    var loaded :- LoadPending(db, handle);
    var (s, p) := loaded;
    var _ :- Need(p == handle, Stale);
    var _ :- Need(UnknownEffect(p), Unresolved);
    var _ :- Need(|db.retired| < MAX_RETIRED, Limit);
    var _ :- Need(p.generation.sequence !in db.retired, Corrupt);
    Ok((db.(retired := Retire(db, Retired(p.generation, p.created, Some(p))),
            state := Some(s.(pending := None))), ()))
  }

  /** The acceptance made of every retired row before any of them is used. */
  predicate RetiredDecodes(s: State, q: nat, r: Retired) {
    && r.generation.sequence == q
    && s.namespace == Some(r.generation.namespace)
    && 0 < q <= s.nextSequence
    && (s.current.Some? ==> s.current.value.sequence != q)
    && (s.pending.Some? ==> s.pending.value.generation.sequence != q)
    && (r.unresolved.Some? ==>
          && r.remoteOwned == r.unresolved.value.created
          && r.unresolved.value.generation == r.generation
          && UnknownEffect(r.unresolved.value))
  }

  function ReadRetirements(db: Db): Result<set<Retired>, Error> {
    var s :- Load(db);
    if s.namespace.None? then Ok({})
    else
      var _ :- Need(|db.retired| <= MAX_RETIRED, Limit);
      var _ :- Need(forall q :: q in db.retired ==> RetiredDecodes(s, q, db.retired[q]), Corrupt);
      Ok(db.retired.Values)
  }

  /** Every retirement transaction first finds its exact row again. */
  function LoadRetired(db: Db, r: Retired): Result<State, Error> {
    var s :- Load(db);
    var g := r.generation;
    var _ :- Need(
      && s.namespace == Some(g.namespace)
      && (s.current.Some? ==> s.current.value.sequence != g.sequence)
      && (s.pending.Some? ==> s.pending.value.generation.sequence != g.sequence)
      && g.sequence in db.retired && db.retired[g.sequence] == r, Stale);
    Ok(s)
  }

  datatype RowKeys = SourceKeys(ids: set<Id>) | PageKeys(numbers: set<nat>) | EvidenceKeys(points: set<PointId>)

  function RemoveRows(db: Db, r: Retired, keys: RowKeys): Edit<()> {
    var s :- LoadRetired(db, r);
    var q := r.generation.sequence;
    Ok((match keys
        case SourceKeys(ids) => db.(state := Some(s), sources := Drop(db.sources, q, ids))
        case PageKeys(numbers) => db.(state := Some(s), pages := Drop(db.pages, q, numbers))
        case EvidenceKeys(points) => db.(state := Some(s), evidence := Drop(db.evidence, q, points)), ()))
  }

  function RemoveRetired(db: Db, r: Retired): Edit<()> {
    var s :- LoadRetired(db, r);
    Ok((db.(state := Some(s), retired := db.retired - {r.generation.sequence}), ()))
  }
}
