/** The publication protocol as a transition system: the database, the remote
    backend's answers, and everything a client may ever have read.

    History variables (`captures`, `inputs`, `retirees`, `cleared`) only grow,
    and an action may use any value in them. A crash forgets values, so it
    never enables an action that was not enabled before it: every run with
    crashes, lost replies and several clients is a run of this system. */
module Protocol {
  import opened Wrappers
  import opened Control
  import opened Graph

  /** What the backend is known to have done with one dispatched mutation. */
  datatype Verdict = Unknown | Acked | Refused
  datatype Ticket = Ticket(op: Operation, verdict: Verdict)

  datatype TableName = SourceTable | PageTable | EvidenceTable

  datatype Sys = Sys(
    db: Db,
    captures: set<Capture>,
    inputs: map<nat, map<Id, Captured>>,
    ledger: map<nat, seq<Ticket>>,
    retirees: set<Retired>,
    cleared: set<(TableName, nat)>,
    deleted: set<nat>)

  datatype Action =
    | SourceCommit(guard: SourceCapture, fileKey: nat, objectRef: ObjectRef)
    | SourceRemove(expected: seq<SourceRecord>)
    | SourceAdmit(namespace: Id)
    | PreparationSelect(id: Id, settings: Settings, source: SourceRecord, previous: Option<Preparation>)
    | PreparationCommit(prepared: PreparationCapture, result: Outcome)
    | TakeCapture(capture: Capture)
    | Start(capture: Capture, drawn: Id)
    | Persist(handle: Pending, chunk: seq<Captured>)
    | PutPage(handle: Pending, page: Page)
    | Finish(handle: Pending, id: Id, units: nat)
    | Seal(handle: Pending)
    | Dispatch(handle: Pending, op: Operation)
    | Answer(q: nat, index: nat, verdict: Verdict)
    | Settle(handle: Pending, index: nat)
    | Commit(handle: Pending)
    | Abandon(handle: Pending)
    | Supersede(handle: Pending)
    | ReadRetired
    | DeleteRemote(retiree: Retired)
    | Observe(retiree: Retired, table: TableName)
    | Remove(retiree: Retired, keys: RowKeys)
    | Forget(retiree: Retired)

  function Log(s: Sys, q: nat): seq<Ticket> {
    if q in s.ledger then s.ledger[q] else []
  }

  /** A captured sequence as the rows it stands for. */
  function ToMap(sources: seq<Captured>): map<Id, Captured> {
    if sources == [] then map[]
    else ToMap(sources[..|sources|-1])[sources[|sources|-1].source.id := sources[|sources|-1]]
  }

  /** The database after a transaction, committed or dropped. */
  function After<T>(db: Db, edit: Edit<T>): Db {
    if edit.Ok? then edit.value.0 else db
  }

  predicate Empty(db: Db, table: TableName, q: nat) {
    match table
    case SourceTable => At(db.sources, q) == map[]
    case PageTable => At(db.pages, q) == map[]
    case EvidenceTable => At(db.evidence, q) == map[]
  }

  /** Cleanup touches a retired row it has read, never an unresolved one, and
      an owned collection is gone before its rows are removed. */
  predicate MayClean(s: Sys, r: Retired) {
    && r in s.retirees && r.unresolved.None?
    && (r.remoteOwned ==> r.generation.sequence in s.deleted)
  }

  function Next(s: Sys, a: Action): Sys {
    match a
    case SourceCommit(guard, fileKey, objectRef) =>
      if objectRef.length > MAX_SOURCE_BYTES || !guard.WellFormed() then s
      else s.(db := After(s.db, CommitSource(s.db, guard, fileKey, objectRef)))
    case SourceRemove(expected) => s.(db := After(s.db, RemoveSources(s.db, expected)))
    case SourceAdmit(namespace) => s.(db := After(s.db, Admit(s.db, namespace)))
    case PreparationSelect(id, settings, source, previous) =>
      s.(db := After(s.db, SelectSettings(s.db, id, settings, source, previous)))
    case PreparationCommit(prepared, result) => s.(db := After(s.db, CommitOutcome(s.db, prepared, result)))
    case TakeCapture(capture) =>
      if IsCapture(capture, s.db) then s.(captures := s.captures + {capture}) else s
    case Start(capture, drawn) =>
      if capture in s.captures then
        match StartBuild(s.db, capture, drawn)
        case Ok((db, p)) => s.(db := db, inputs := s.inputs[p.generation.sequence := ToMap(capture.sources)])
        case Err(_) => s
      else s
    case Persist(handle, chunk) =>
      var q := handle.generation.sequence;
      if q in s.inputs && forall x :: x in chunk ==> x.source.id in s.inputs[q] && s.inputs[q][x.source.id] == x
      then s.(db := After(s.db, PersistInputs(s.db, handle, chunk)))
      else s
    case PutPage(handle, page) => s.(db := After(s.db, StagePage(s.db, handle, page)))
    case Finish(handle, id, units) => s.(db := After(s.db, FinishSource(s.db, handle, id, units)))
    case Seal(handle) => s.(db := After(s.db, CompleteCapture(s.db, handle)))
    case Dispatch(handle, op) =>
      (match RecordDispatch(s.db, handle, op)
       case Ok((db, _)) =>
         var q := handle.generation.sequence;
         s.(db := db, ledger := s.ledger[q := Log(s, q) + [Ticket(op, Unknown)]])
       case Err(_) => s)
    case Answer(q, index, verdict) =>
      var log := Log(s, q);
      if index < |log| && log[index].verdict == Unknown then
        s.(ledger := s.ledger[q := log[index := log[index].(verdict := verdict)]])
      else s
    case Settle(handle, index) =>
      var log := Log(s, handle.generation.sequence);
      if index < |log| && log[index].verdict != Unknown then
        s.(db := After(s.db, FinishDispatch(s.db, handle, log[index].op, index + 1, log[index].verdict == Acked)))
      else s
    case Commit(handle) => s.(db := After(s.db, CommitGeneration(s.db, handle)))
    case Abandon(handle) => s.(db := After(s.db, AbandonBuild(s.db, handle)))
    case Supersede(handle) => s.(db := After(s.db, SupersedeUnknown(s.db, handle)))
    case ReadRetired =>
      (match ReadRetirements(s.db)
       case Ok(rows) => s.(retirees := s.retirees + rows)
       case Err(_) => s)
    case DeleteRemote(r) =>
      if r in s.retirees && r.unresolved.None? && r.remoteOwned
      then s.(deleted := s.deleted + {r.generation.sequence}) else s
    case Observe(r, table) =>
      if MayClean(s, r) && Empty(s.db, table, r.generation.sequence)
      then s.(cleared := s.cleared + {(table, r.generation.sequence)}) else s
    case Remove(r, keys) =>
      if MayClean(s, r) then s.(db := After(s.db, RemoveRows(s.db, r, keys))) else s
    case Forget(r) =>
      if MayClean(s, r) && (forall t: TableName :: (t, r.generation.sequence) in s.cleared)
      then s.(db := After(s.db, RemoveRetired(s.db, r))) else s
  }

  /** The state after performing actions in order. */
  function Run(s: Sys, actions: seq<Action>): Sys {
    if actions == [] then s else Next(Run(s, actions[..|actions|-1]), actions[|actions|-1])
  }

  // -------------------------------------------------------- invariant

  /** The source tables index each other exactly. */
  predicate CorpusInv(db: Db) {
    db.corpus.Some? ==>
      var c := db.corpus.value;
      && (forall id :: id in c.rows ==>
            && c.rows[id].id == id && c.rows[id].namespace == c.namespace
            && RowReads(c.rows[id])
            && c.rows[id].locator in c.locators && c.locators[c.rows[id].locator] == id)
      && (forall l :: l in c.locators ==> c.locators[l] in c.rows && c.rows[c.locators[l]].locator == l)
      && (forall id :: id in c.preparations ==>
            && id in c.rows && c.preparations[id].id == id && c.preparations[id].namespace == c.namespace
            && PreparationReads(c.preparations[id]))
  }

  function IsPending(s: State, q: nat): bool {
    s.pending.Some? && s.pending.value.generation.sequence == q
  }

  function IsCurrent(s: State, q: nat): bool {
    s.current.Some? && s.current.value.sequence == q
  }

  predicate Owned(db: Db, q: nat) {
    IsCurrent(db.Header(), q) || IsPending(db.Header(), q) || q in db.retired
  }

  /** A pending header is always one its own transactions can have written. */
  predicate PendingInv(s: State, p: Pending) {
    && p.expectedCurrent == s.current && p.expectedRevision == s.currentRevision
    && (!p.created ==> p.uploaded == 0)
    && (!p.captureComplete ==> !p.created && p.inFlight.None? && p.operationRevision == 0)
    && (p.inFlight.Some? ==> UnknownEffect(p))
  }

  /** Sequences are distinct and bounded, the header decodes again, and the
      retired table leaves room for the pending build. */
  predicate HeaderInv(db: Db) {
    && (db.state.Some? ==> Decodes(db.state.value))
    && (db.state.None? ==> db.retired == map[])
    && (forall q :: q in db.retired ==> RetiredDecodes(db.Header(), q, db.retired[q]))
    && |db.retired| + (if db.Header().pending.Some? then 1 else 0) <= MAX_RETIRED
    && (db.Header().pending.Some? ==> PendingInv(db.Header(), db.Header().pending.value))
  }

  predicate NoRows(db: Db, q: nat) {
    At(db.sources, q) == map[] && At(db.pages, q) == map[] && At(db.evidence, q) == map[]
  }

  /** No row of the three data tables is orphaned. */
  ghost predicate OwnershipInv(db: Db) {
    forall q: nat :: !Owned(db, q) ==> NoRows(db, q)
  }

  function CompleteIds(rows: map<Id, Entry>): set<Id> {
    set id | id in rows && rows[id].complete
  }

  ghost predicate CoherentAt(db: Db, g: Generation) {
    Coherent(g.sequence, At(db.sources, g.sequence), At(db.pages, g.sequence), At(db.evidence, g.sequence),
             g.pointCount, g.pageCount)
  }

  /** Every captured source is saved and complete. */
  predicate Sealed(db: Db, g: Generation) {
    var rows := At(db.sources, g.sequence);
    |rows| == g.sourceCount && CompleteIds(rows) == rows.Keys
  }

  ghost predicate RowsInv(db: Db) {
    var s := db.Header();
    && OwnershipInv(db)
    && (s.current.Some? ==> CoherentAt(db, s.current.value) && Sealed(db, s.current.value))
    && (s.pending.Some? ==>
          var p := s.pending.value;
          && CoherentAt(db, p.generation)
          && p.stagedBytes == StagedBytes(p.generation.pageCount, p.generation.pointCount)
          && p.completedSources == |CompleteIds(At(db.sources, p.generation.sequence))|
          && (p.captureComplete ==> Sealed(db, p.generation)))
  }

  function Gaps(content: map<Id, Captured>): set<Id> {
    set id | id in content && content[id].IsGap()
  }

  /** `content` is exactly the current source and preparation tables. */
  predicate ContentIs(db: Db, content: map<Id, Captured>) {
    content == db.Join() && content.Keys == db.Rows().Keys
  }

  /** A build's inputs: one consistent, fully prepared snapshot. */
  predicate InputsInv(g: Generation, content: map<Id, Captured>) {
    && |content| == g.sourceCount && |Gaps(content)| == g.gapCount
    && (forall id :: id in content ==>
          content[id].source.id == id && content[id].Consistent() && content[id].Reads())
    && (forall a, b :: a in content && b in content ==>
          content[a].source.namespace == content[b].source.namespace)
  }

  predicate FreshBuild(s: Sys, g: Generation) {
    && g.sequence in s.inputs
    && InputsInv(g, s.inputs[g.sequence])
    && g.wanted <= s.db.Wanted()
    && (g.wanted == s.db.Wanted() ==> ContentIs(s.db, s.inputs[g.sequence]))
    && (forall id :: id in At(s.db.sources, g.sequence) ==>
          && id in s.inputs[g.sequence]
          && At(s.db.sources, g.sequence)[id].captured == s.inputs[g.sequence][id])
  }

  predicate FreshCapture(s: Sys, c: Capture) {
    && c.wanted <= s.db.Wanted()
    && (c.wanted == s.db.Wanted() ==> ContentIs(s.db, ToMap(c.sources)))
    && InputsInv(Generation(0, 0, 0, |c.sources|, GapCount(c.sources), 0, 0), ToMap(c.sources))
    && |c.sources| <= MAX_SOURCES
  }

  /** The wanted revision determines the content of a snapshot. */
  predicate FreshInv(s: Sys) {
    && (forall c :: c in s.captures ==> FreshCapture(s, c))
    && (s.db.Header().current.Some? ==> FreshBuild(s, s.db.Header().current.value))
    && (s.db.Header().pending.Some? ==> FreshBuild(s, s.db.Header().pending.value.generation))
  }

  predicate Settled(log: seq<Ticket>) {
    forall i :: 0 <= i < |log| ==> log[i].verdict != Unknown
  }

  /** Mutations the backend acknowledged, in dispatch order. */
  function AckedOps(log: seq<Ticket>): seq<Operation> {
    if log == [] then []
    else
      var last := log[|log|-1];
      AckedOps(log[..|log|-1]) + if last.verdict == Acked then [last.op] else []
  }

  function Inserts(n: nat): seq<Operation> {
    if n == 0 then [] else Inserts(n - 1) + [Insert(n - 1)]
  }

  /** The acknowledgements a header claims: creation, then pages in order. */
  function Claimed(created: bool, uploaded: nat): seq<Operation> {
    if created then [Create] + Inserts(uploaded) else []
  }

  /** The build header is an exact account of its dispatch log: everything is
      settled except the one mutation recorded as in flight. */
  predicate BuildLog(p: Pending, log: seq<Ticket>) {
    && |log| == p.operationRevision
    && match p.inFlight
       case None => Settled(log) && AckedOps(log) == Claimed(p.created, p.uploaded)
       case Some(op) =>
         && |log| > 0 && log[|log|-1].op == op
         && Settled(log[..|log|-1]) && AckedOps(log[..|log|-1]) == Claimed(p.created, p.uploaded)
  }

  predicate RetiredLog(r: Retired, log: seq<Ticket>) {
    match r.unresolved
    case Some(p) => BuildLog(p, log)
    case None => Settled(log) && (r.remoteOwned <==> Create in AckedOps(log))
  }

  predicate DeletedInv(s: Sys) {
    forall q :: q in s.deleted ==>
      && 0 < q <= s.db.Header().nextSequence
      && !IsCurrent(s.db.Header(), q) && !IsPending(s.db.Header(), q)
      && (q in s.db.retired ==> s.db.retired[q].unresolved.None?)
      && Settled(Log(s, q))
  }

  /** Every header and every retired row accounts for its own log. */
  predicate LogsInv(s: Sys) {
    var h := s.db.Header();
    && (forall q :: q in s.ledger ==> 0 < q <= h.nextSequence)
    && (h.pending.Some? ==> BuildLog(h.pending.value, Log(s, h.pending.value.generation.sequence)))
    && (h.current.Some? ==>
          && Settled(Log(s, h.current.value.sequence))
          && AckedOps(Log(s, h.current.value.sequence)) == Claimed(true, h.current.value.pageCount))
    && (forall q :: q in s.db.retired ==> RetiredLog(s.db.retired[q], Log(s, q)))
  }

  /** A forgotten sequence has no mutation outstanding and no collection left. */
  predicate RemoteInv(s: Sys) {
    forall q :: q in s.ledger && !Owned(s.db, q) ==>
      Settled(Log(s, q)) && (Create in AckedOps(Log(s, q)) ==> q in s.deleted)
  }

  predicate LedgerInv(s: Sys) {
    LogsInv(s) && RemoteInv(s) && DeletedInv(s)
  }

  /** Cleanup knowledge stays true: a retired sequence never comes back. */
  predicate RetireInv(s: Sys) {
    var h := s.db.Header();
    && (forall r :: r in s.retirees ==>
          var q := r.generation.sequence;
          && 0 < q <= h.nextSequence && !IsCurrent(h, q) && !IsPending(h, q)
          && (q in s.db.retired ==> s.db.retired[q] == r)
          && (r.unresolved.Some? ==> q in s.db.retired))
    && (forall c :: c in s.cleared ==>
          && 0 < c.1 <= h.nextSequence && !IsCurrent(h, c.1) && !IsPending(h, c.1)
          && Empty(s.db, c.0, c.1))
  }

  ghost predicate Inv(s: Sys) {
    && CorpusInv(s.db)
    && HeaderInv(s.db)
    && RowsInv(s.db)
    && FreshInv(s)
    && LedgerInv(s)
    && RetireInv(s)
  }

  /** A root before its first publication; its source tables may be older
      than the wanted revision's introduction. */
  ghost predicate Init(s: Sys) {
    && CorpusInv(s.db)
    && s.db.state.None? && s.db.retired == map[]
    && (forall q: nat :: NoRows(s.db, q))
    && s.captures == {} && s.inputs == map[] && s.ledger == map[]
    && s.retirees == {} && s.cleared == {} && s.deleted == {}
  }

  lemma InitInv(s: Sys)
    requires Init(s)
    ensures Inv(s)
  {
  }
}
