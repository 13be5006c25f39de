/** Edits of the one pending build: a frame argument for everything else, then
    the local obligations of each transaction. */
module PendingSteps {
  import opened Wrappers
  import opened Control
  import opened Graph
  import opened Protocol
  import BuildSteps
  import Sets

  predicate SameGeneration(g: Generation, h: Generation) {
    && g.namespace == h.namespace && g.sequence == h.sequence && g.wanted == h.wanted
    && g.sourceCount == h.sourceCount && g.gapCount == h.gapCount
  }

  /** `t` differs from `s` only in the pending header, in the rows of its
      sequence and in its dispatch log. */
  ghost predicate EditsPending(s: Sys, t: Sys, p: Pending, edited: Pending) {
    var q := p.generation.sequence;
    && s.db.Header().pending == Some(p)
    && t.db.state == Some(s.db.Header().(pending := Some(edited)))
    && SameGeneration(p.generation, edited.generation)
    && edited.expectedCurrent == p.expectedCurrent && edited.expectedRevision == p.expectedRevision
    && t.db.corpus == s.db.corpus && t.db.retired == s.db.retired
    && (forall k: nat :: k != q ==>
          && At(t.db.sources, k) == At(s.db.sources, k)
          && At(t.db.pages, k) == At(s.db.pages, k)
          && At(t.db.evidence, k) == At(s.db.evidence, k)
          && Log(t, k) == Log(s, k))
    && t.ledger.Keys <= s.ledger.Keys + {q}
    && t.captures == s.captures && t.inputs == s.inputs && t.retirees == s.retirees
    && t.cleared == s.cleared && t.deleted == s.deleted
  }

  /** The header part of what an edit owes. */
  predicate HeaderOk(t: Sys, p: Pending) {
    && p.completedSources <= p.generation.sourceCount
    && p.uploaded <= p.generation.pageCount && p.stagedBytes <= MAX_STAGED_BYTES
    && (p.captureComplete ==> p.completedSources == p.generation.sourceCount)
    && p.generation.pointCount <= MAX_POINTS && p.generation.pageCount <= MAX_POINTS
    && PendingInv(t.db.Header(), p)
  }

  ghost predicate RowsOk(t: Sys, p: Pending) {
    && CoherentAt(t.db, p.generation)
    && p.stagedBytes == StagedBytes(p.generation.pageCount, p.generation.pointCount)
    && p.completedSources == |CompleteIds(At(t.db.sources, p.generation.sequence))|
    && (p.captureComplete ==> Sealed(t.db, p.generation))
  }

  predicate InputsOk(t: Sys, p: Pending) {
    var q := p.generation.sequence;
    q in t.inputs &&
    forall id :: id in At(t.db.sources, q) ==>
      id in t.inputs[q] && At(t.db.sources, q)[id].captured == t.inputs[q][id]
  }

  lemma EditHeader(s: Sys, t: Sys, p: Pending, edited: Pending)
    requires HeaderInv(s.db) && EditsPending(s, t, p, edited) && HeaderOk(t, edited)
    ensures HeaderInv(t.db)
  {
    hide PendingInv, At;
    forall q | q in t.db.retired ensures RetiredDecodes(t.db.Header(), q, t.db.retired[q]) {
      assert RetiredDecodes(s.db.Header(), q, s.db.retired[q]);
    }
  }

  lemma EditRows(s: Sys, t: Sys, p: Pending, edited: Pending)
    requires HeaderInv(s.db) && RowsInv(s.db) && EditsPending(s, t, p, edited) && RowsOk(t, edited)
    ensures RowsInv(t.db)
  {
    hide PendingInv, RetiredDecodes, Coherent, At, CompleteIds, StagedBytes;
    assert t.db.Header().current == s.db.Header().current;
    forall q: nat | !Owned(t.db, q) ensures NoRows(t.db, q) {
      assert !Owned(s.db, q);
    }
  }

  lemma EditFresh(s: Sys, t: Sys, p: Pending, edited: Pending)
    requires HeaderInv(s.db) && FreshInv(s) && EditsPending(s, t, p, edited) && InputsOk(t, edited)
    ensures FreshInv(t)
  {
    hide PendingInv, RetiredDecodes, At, ContentIs, InputsInv, ToMap;
    assert t.db.Header().current == s.db.Header().current;
    forall content ensures ContentIs(t.db, content) == ContentIs(s.db, content) {
      BuildSteps.ContentSame(s.db, t.db, content);
    }
    forall c | c in t.captures ensures FreshCapture(t, c) {
      assert FreshCapture(s, c);
    }
    assert FreshBuild(s, p.generation);
    SameInputsInv(p.generation, edited.generation, t.inputs[p.generation.sequence]);
    if s.db.Header().current.Some? {
      assert FreshBuild(s, s.db.Header().current.value);
    }
  }

  lemma SameInputsInv(g: Generation, h: Generation, content: map<Id, Captured>)
    requires SameGeneration(g, h) && InputsInv(g, content)
    ensures InputsInv(h, content)
  {
  }

  lemma EditLedger(s: Sys, t: Sys, p: Pending, edited: Pending)
    requires HeaderInv(s.db) && LedgerInv(s) && EditsPending(s, t, p, edited)
    requires BuildLog(edited, Log(t, p.generation.sequence))
    ensures LedgerInv(t)
  {
    hide PendingInv, RetiredDecodes, At, BuildLog, RetiredLog, Settled, AckedOps, Claimed;
    var q := p.generation.sequence;
    assert t.db.Header().current == s.db.Header().current && t.db.Header().nextSequence == s.db.Header().nextSequence;
    PendingNotRetired(s.db, q);
    assert 0 < q <= s.db.Header().nextSequence;
    assert LogsInv(t);
    forall k | k in t.ledger && !Owned(t.db, k)
      ensures Settled(Log(t, k)) && (Create in AckedOps(Log(t, k)) ==> k in t.deleted)
    {
      assert k != q && !Owned(s.db, k) && k in s.ledger;
      assert Log(t, k) == Log(s, k);
    }
    forall k | k in t.deleted ensures Settled(Log(t, k)) {
      assert Log(t, k) == Log(s, k);
    }
  }

  lemma PendingNotRetired(db: Db, q: nat)
    requires HeaderInv(db) && IsPending(db.Header(), q)
    ensures q !in db.retired && !IsCurrent(db.Header(), q)
  {
    assert q in db.retired ==> RetiredDecodes(db.Header(), q, db.retired[q]);
  }

  lemma EditRetire(s: Sys, t: Sys, p: Pending, edited: Pending)
    requires RetireInv(s) && EditsPending(s, t, p, edited)
    ensures RetireInv(t)
  {
    hide At;
    assert t.db.Header().current == s.db.Header().current;
    forall c | c in t.cleared ensures Empty(t.db, c.0, c.1) {
      assert c.1 != p.generation.sequence;
    }
  }

  /** An edit that meets its local obligations keeps the invariant. */
  lemma EditKeeps(s: Sys, t: Sys, p: Pending, edited: Pending)
    requires Inv(s) && EditsPending(s, t, p, edited)
    requires HeaderOk(t, edited) && RowsOk(t, edited) && InputsOk(t, edited)
    requires BuildLog(edited, Log(t, p.generation.sequence))
    ensures Inv(t)
  {
    assert CorpusInv(t.db) by { SameCorpus(s.db, t.db); }
    hide CorpusInv, HeaderInv, RowsInv, FreshInv, LedgerInv, RetireInv, HeaderOk, RowsOk, InputsOk, BuildLog;
    EditHeader(s, t, p, edited);
    EditRows(s, t, p, edited);
    EditFresh(s, t, p, edited);
    EditLedger(s, t, p, edited);
    EditRetire(s, t, p, edited);
  }

  lemma SameCorpus(a: Db, b: Db)
    requires a.corpus == b.corpus && CorpusInv(a)
    ensures CorpusInv(b)
  {
  }

  // -------------------------------------------- the build's transactions

  /** What the invariant says about the pending build alone. */
  lemma PendingFacts(s: Sys)
    requires HeaderInv(s.db) && RowsInv(s.db) && FreshInv(s) && LedgerInv(s)
    requires s.db.Header().pending.Some?
    ensures var p := s.db.Header().pending.value;
            var q := p.generation.sequence;
            && s.db.state.Some?
            && HeaderOk(s, p) && RowsOk(s, p) && InputsOk(s, p)
            && BuildLog(p, Log(s, q))
            && |s.inputs[q]| == p.generation.sourceCount
            && |At(s.db.sources, q)| <= p.generation.sourceCount
  {
    hide RetiredDecodes, Coherent, ContentIs, BuildLog, RetiredLog, Settled, AckedOps, Claimed, ToMap, DeletedInv;
    var p := s.db.Header().pending.value;
    assert FreshBuild(s, p.generation);
    Sets.SubsetSize(At(s.db.sources, p.generation.sequence).Keys, s.inputs[p.generation.sequence].Keys);
  }

  /** Inserted inputs extend the saved rows without disturbing any of them. */
  lemma {:induction false} InsertInputsKeep(
    q: nat, rows: map<Id, Entry>, chunk: seq<Captured>, content: map<Id, Captured>,
    pages: map<nat, Page>, evidence: map<PointId, Evidence>, pointCount: nat, pageCount: nat)
    requires Coherent(q, rows, pages, evidence, pointCount, pageCount)
    requires InsertInputs(rows, chunk).Ok?
    requires forall x :: x in chunk ==> x.source.id in content && content[x.source.id] == x
    requires forall id :: id in rows ==> id in content && rows[id].captured == content[id]
    ensures var after := InsertInputs(rows, chunk).value;
            && Coherent(q, after, pages, evidence, pointCount, pageCount)
            && |after| == |rows| + |chunk|
            && CompleteIds(after) == CompleteIds(rows)
            && (forall id :: id in after ==> id in content && after[id].captured == content[id])
  {
    hide Coherent;
    if chunk != [] {
      var front, last := chunk[..|chunk|-1], chunk[|chunk|-1];
      InsertInputsKeep(q, rows, front, content, pages, evidence, pointCount, pageCount);
      var before := InsertInputs(rows, front).value;
      InsertKeeps(q, before, pages, evidence, pointCount, pageCount, last);
      assert CompleteIds(before[last.source.id := Entry(last, 0, false)]) == CompleteIds(before);
    }
  }

  /** What committed inputs wrote. */
  lemma PersistEffect(s: Sys, handle: Pending, chunk: seq<Captured>)
    requires PersistInputs(s.db, handle, chunk).Ok?
    ensures var t := s.(db := PersistInputs(s.db, handle, chunk).value.0);
            && s.db.Header().pending.Some? &&
            var p := s.db.Header().pending.value;
            var q := p.generation.sequence;
            && q == handle.generation.sequence
            && EditsPending(s, t, p, p)
            && InsertInputs(At(s.db.sources, q), chunk).Ok?
            && At(t.db.sources, q) == InsertInputs(At(s.db.sources, q), chunk).value
            && t.db.pages == s.db.pages && t.db.evidence == s.db.evidence
  {
    hide Decodes, InsertInputs;
  }

  lemma PersistKeeps(s: Sys, handle: Pending, chunk: seq<Captured>)
    requires Inv(s)
    ensures Inv(Next(s, Persist(handle, chunk)))
    ensures var t := Next(s, Persist(handle, chunk));
            s.db.Header().pending.Some? && s.db.Header().pending.value.captureComplete ==>
              forall q: nat :: At(t.db.sources, q) == At(s.db.sources, q)
  {
    hide CorpusInv, HeaderInv, RowsInv, FreshInv, LedgerInv, RetireInv, Coherent, BuildLog, InsertInputs, StagedBytes,
         EditsPending, PersistInputs;
    var t := Next(s, Persist(handle, chunk));
    if t != s && PersistInputs(s.db, handle, chunk).Ok? {
      PersistEffect(s, handle, chunk);
      var p := s.db.Header().pending.value;
      var q := p.generation.sequence;
      PendingFacts(s);
      EditedHeader(s, t, p, p);
      var rows := At(s.db.sources, q);
      InsertInputsKeep(q, rows, chunk, s.inputs[q], At(s.db.pages, q), At(s.db.evidence, q),
                       p.generation.pointCount, p.generation.pageCount);
      var after := InsertInputs(rows, chunk).value;
      Sets.SubsetSize(after.Keys, s.inputs[q].Keys);
      if p.captureComplete {
        assert chunk == [];
        InsertNothing(rows);
        EditedRows(s, t, p, p);
      }
      EditKeeps(s, t, p, p);
    }
  }

  lemma EditedRows(s: Sys, t: Sys, p: Pending, edited: Pending)
    requires EditsPending(s, t, p, edited)
    ensures forall k: nat :: k != p.generation.sequence ==>
              At(t.db.sources, k) == At(s.db.sources, k) && At(t.db.pages, k) == At(s.db.pages, k)
              && At(t.db.evidence, k) == At(s.db.evidence, k)
  {
  }

  lemma InsertNothing(rows: map<Id, Entry>)
    ensures InsertInputs(rows, []) == Result<map<Id, Entry>, Error>.Ok(rows)
  {
  }

  lemma StagePageValue(db: Db, handle: Pending, page: Page)
    requires StagePage(db, handle, page).Ok?
    ensures db.state.Some? && db.state.value.pending.Some? &&
            var h := db.state.value;
            var p := h.pending.value;
            var q := p.generation.sequence;
            var stage := Stage(p.generation.pointCount, At(db.sources, q), At(db.evidence, q));
            && !p.captureComplete && p.inFlight.None?
            && EncodePage(page).Ok? && StagePoints(stage, q, page.points).Ok? &&
            var staged := StagePoints(stage, q, page.points).value;
            var edited := p.(stagedBytes := p.stagedBytes + EncodePage(page).value,
                             generation := p.generation.(pointCount := staged.pointCount,
                                                         pageCount := p.generation.pageCount + 1));
            && edited.stagedBytes <= MAX_STAGED_BYTES
            && StagePage(db, handle, page).value.0 == db.(
                 state := Some(h.(pending := Some(edited))), sources := db.sources[q := staged.sources],
                 evidence := db.evidence[q := staged.evidence],
                 pages := Put(db.pages, q, p.generation.pageCount, page))
  {
    hide StagePoints, Decodes, EncodePage, At;
  }

  /** What a committed page transaction wrote. */
  lemma PutPageEffect(s: Sys, handle: Pending, page: Page)
    requires StagePage(s.db, handle, page).Ok?
    ensures var t := Next(s, PutPage(handle, page));
            && s.db.Header().pending.Some? && t.db.Header().pending.Some? &&
            var p, edited := s.db.Header().pending.value, t.db.Header().pending.value;
            var q := p.generation.sequence;
            var stage := Stage(p.generation.pointCount, At(s.db.sources, q), At(s.db.evidence, q));
            && EncodePage(page).Ok? && StagePoints(stage, q, page.points).Ok? &&
            var staged := StagePoints(stage, q, page.points).value;
            && !p.captureComplete && p.inFlight.None?
            && EditsPending(s, t, p, edited)
            && At(t.db.sources, q) == staged.sources && At(t.db.evidence, q) == staged.evidence
            && At(t.db.pages, q) == At(s.db.pages, q)[p.generation.pageCount := page]
            && edited == p.(stagedBytes := p.stagedBytes + EncodePage(page).value,
                            generation := p.generation.(pointCount := staged.pointCount,
                                                        pageCount := p.generation.pageCount + 1))
            && edited.stagedBytes <= MAX_STAGED_BYTES
  {
    StagePageValue(s.db, handle, page);
    PutPageDb(s, handle, page);
    hide StagePage, StagePoints, EncodePage, Next, EditsPending, At;
    var t := Next(s, PutPage(handle, page));
    var p, edited := s.db.Header().pending.value, t.db.Header().pending.value;
    var q := p.generation.sequence;
    var staged := StagePoints(Stage(p.generation.pointCount, At(s.db.sources, q), At(s.db.evidence, q)), q, page.points).value;
    RowsEdited(s, t, p, edited, staged.sources, At(s.db.pages, q)[p.generation.pageCount := page], staged.evidence);
  }

  /** Writing the header and the rows of its sequence is an edit. */
  lemma RowsEdited(s: Sys, t: Sys, p: Pending, edited: Pending, sources: map<Id, Entry>, pages: map<nat, Page>,
                   evidence: map<PointId, Evidence>)
    requires s.db.Header().pending == Some(p) && SameGeneration(p.generation, edited.generation)
    requires edited.expectedCurrent == p.expectedCurrent && edited.expectedRevision == p.expectedRevision
    requires var q := p.generation.sequence;
             t == s.(db := s.db.(state := Some(s.db.Header().(pending := Some(edited))),
                                 sources := s.db.sources[q := sources], pages := s.db.pages[q := pages],
                                 evidence := s.db.evidence[q := evidence]))
    ensures EditsPending(s, t, p, edited)
    ensures var q := p.generation.sequence;
            At(t.db.sources, q) == sources && At(t.db.pages, q) == pages && At(t.db.evidence, q) == evidence
  {
  }

  lemma PutPageDb(s: Sys, handle: Pending, page: Page)
    requires StagePage(s.db, handle, page).Ok?
    ensures Next(s, PutPage(handle, page)) == s.(db := StagePage(s.db, handle, page).value.0)
  {
    hide StagePage;
  }

  lemma StageKeeps(s: Sys, handle: Pending, page: Page)
    requires Inv(s)
    ensures Inv(Next(s, PutPage(handle, page)))
  {
    hide CorpusInv, HeaderInv, RowsInv, FreshInv, LedgerInv, RetireInv, Coherent, BuildLog, StagePoints, StagePage,
         EncodePage, EditsPending;
    if StagePage(s.db, handle, page).Ok? {
      PutPageEffect(s, handle, page);
      PendingFacts(s);
      var t := Next(s, PutPage(handle, page));
      var p, edited := s.db.Header().pending.value, t.db.Header().pending.value;
      var q := p.generation.sequence;
      StagePageKeeps(q, At(s.db.sources, q), At(s.db.pages, q), At(s.db.evidence, q),
                     p.generation.pointCount, p.generation.pageCount, page);
      StagePointsCount(q, Stage(p.generation.pointCount, At(s.db.sources, q), At(s.db.evidence, q)), page.points);
      PageFacts(page);
      assert CompleteIds(At(t.db.sources, q)) == CompleteIds(At(s.db.sources, q));
      CoherentCounts(q, At(t.db.sources, q), At(t.db.pages, q), At(t.db.evidence, q),
                     edited.generation.pointCount, edited.generation.pageCount);
      BuildLogSame(p, edited, Log(s, q));
      EditedHeader(s, t, p, edited);
      EditKeeps(s, t, p, edited);
    } else {
      NoEdit(s, handle, page);
    }
  }

  lemma NoEdit(s: Sys, handle: Pending, page: Page)
    requires StagePage(s.db, handle, page).Err?
    ensures Next(s, PutPage(handle, page)) == s
  {
  }

  lemma EditedHeader(s: Sys, t: Sys, p: Pending, edited: Pending)
    requires EditsPending(s, t, p, edited)
    ensures t.db.Header() == s.db.Header().(pending := Some(edited)) && t.inputs == s.inputs
  {
  }

  lemma PageFacts(page: Page)
    requires EncodePage(page).Ok?
    ensures 0 < |page.points| <= MAX_PAGE_POINTS && EncodePage(page).value == EncodedBytes(|page.points|)
  {
  }

  /** What a committed completion wrote. */
  lemma FinishEffect(s: Sys, handle: Pending, id: Id, units: nat)
    requires FinishSource(s.db, handle, id, units).Ok?
    ensures var t := Next(s, Finish(handle, id, units));
            && s.db.Header().pending.Some? &&
            var p := s.db.Header().pending.value;
            var q := p.generation.sequence;
            var rows := At(s.db.sources, q);
            && !p.captureComplete
            && EditsPending(s, t, p, p.(completedSources := p.completedSources + 1))
            && id in rows && !rows[id].complete
            && At(t.db.sources, q) == rows[id := rows[id].(complete := true)]
            && t.db.pages == s.db.pages && t.db.evidence == s.db.evidence
  {
    hide Decodes;
  }

  lemma CompleteOne(rows: map<Id, Entry>, id: Id)
    requires id in rows && !rows[id].complete
    ensures |CompleteIds(rows[id := rows[id].(complete := true)])| == |CompleteIds(rows)| + 1 <= |rows|
  {
    var after := rows[id := rows[id].(complete := true)];
    assert CompleteIds(after) == CompleteIds(rows) + {id};
    Sets.SubsetSize(CompleteIds(after), rows.Keys);
  }

  lemma FinishKeeps(s: Sys, handle: Pending, id: Id, units: nat)
    requires Inv(s)
    ensures Inv(Next(s, Finish(handle, id, units)))
  {
    hide CorpusInv, HeaderInv, RowsInv, FreshInv, LedgerInv, RetireInv, Coherent, BuildLog, CompleteIds, FinishSource,
         EditsPending, StagedBytes;
    if FinishSource(s.db, handle, id, units).Ok? {
      FinishEffect(s, handle, id, units);
      PendingFacts(s);
      var t := Next(s, Finish(handle, id, units));
      var p := s.db.Header().pending.value;
      var q := p.generation.sequence;
      var rows := At(s.db.sources, q);
      CompleteKeeps(q, rows, At(s.db.pages, q), At(s.db.evidence, q), p.generation.pointCount, p.generation.pageCount, id);
      CompleteOne(rows, id);
      var edited := p.(completedSources := p.completedSources + 1);
      BuildLogSame(p, edited, Log(s, q));
      EditedHeader(s, t, p, edited);
      EditKeeps(s, t, p, edited);
    } else {
      NoFinish(s, handle, id, units);
    }
  }

  lemma NoFinish(s: Sys, handle: Pending, id: Id, units: nat)
    requires FinishSource(s.db, handle, id, units).Err?
    ensures Next(s, Finish(handle, id, units)) == s
  {
  }

  /** An edit of the header alone. */
  predicate HeaderEdit(s: Sys, t: Sys, p: Pending, edited: Pending) {
    && s.db.Header().pending == Some(p) && SameGeneration(p.generation, edited.generation)
    && edited.expectedCurrent == p.expectedCurrent && edited.expectedRevision == p.expectedRevision
    && t == s.(db := s.db.(state := Some(s.db.Header().(pending := Some(edited)))), ledger := t.ledger)
    && (t.ledger == s.ledger || t.ledger == s.ledger[p.generation.sequence := Log(t, p.generation.sequence)])
  }

  lemma HeaderEdited(s: Sys, t: Sys, p: Pending, edited: Pending)
    requires HeaderEdit(s, t, p, edited)
    ensures EditsPending(s, t, p, edited)
    ensures At(t.db.sources, p.generation.sequence) == At(s.db.sources, p.generation.sequence)
    ensures t.db.Header() == s.db.Header().(pending := Some(edited)) && t.inputs == s.inputs
    ensures Sealed(t.db, p.generation) == Sealed(s.db, p.generation)
    ensures CoherentAt(t.db, p.generation) == CoherentAt(s.db, p.generation)
    ensures forall k: nat :: At(t.db.sources, k) == At(s.db.sources, k) && At(t.db.pages, k) == At(s.db.pages, k)
                             && At(t.db.evidence, k) == At(s.db.evidence, k)
  {
    hide Coherent, CompleteIds;
  }

  lemma SealEffect(s: Sys, handle: Pending) returns (p: Pending)
    requires CompleteCapture(s.db, handle).Ok?
    ensures s.db.Header().pending == Some(p)
    ensures HeaderEdit(s, Next(s, Seal(handle)), p, p.(captureComplete := true))
    ensures p.completedSources == p.generation.sourceCount
  {
    hide Decodes;
    p := s.db.Header().pending.value;
  }

  lemma SealKeeps(s: Sys, handle: Pending)
    requires Inv(s)
    ensures Inv(Next(s, Seal(handle)))
  {
    hide CorpusInv, HeaderInv, RowsInv, FreshInv, LedgerInv, RetireInv, CoherentAt, BuildLog, CompleteCapture,
         EditsPending, HeaderEdit, StagedBytes;
    if CompleteCapture(s.db, handle).Ok? {
      var t := Next(s, Seal(handle));
      var p := SealEffect(s, handle);
      var edited := p.(captureComplete := true);
      HeaderEdited(s, t, p, edited);
      PendingFacts(s);
      var rows := At(s.db.sources, p.generation.sequence);
      Sets.SubsetSize(CompleteIds(rows), rows.Keys);
      BuildLogSame(p, edited, Log(s, p.generation.sequence));
      EditKeeps(s, t, p, edited);
    }
  }

  lemma BuildLogSame(p: Pending, edited: Pending, log: seq<Ticket>)
    requires BuildLog(p, log)
    requires edited.inFlight == p.inFlight && edited.operationRevision == p.operationRevision
    requires edited.created == p.created && edited.uploaded == p.uploaded
    ensures BuildLog(edited, log)
  {
  }

  lemma DispatchEffect(s: Sys, handle: Pending, op: Operation) returns (p: Pending)
    requires RecordDispatch(s.db, handle, op).Ok?
    ensures var t := Next(s, Dispatch(handle, op));
            var edited := p.(operationRevision := p.operationRevision + 1, inFlight := Some(op));
            && s.db.Header().pending == Some(p)
            && HeaderEdit(s, t, p, edited)
            && p.inFlight.None? && p.captureComplete
            && (PendingInv(s.db.Header(), p) ==> UnknownEffect(edited))
            && Log(t, p.generation.sequence) == Log(s, p.generation.sequence) + [Ticket(op, Unknown)]
  {
    hide Decodes;
    p := s.db.Header().pending.value;
  }

  lemma DispatchKeeps(s: Sys, handle: Pending, op: Operation)
    requires Inv(s)
    ensures Inv(Next(s, Dispatch(handle, op)))
  {
    hide CorpusInv, HeaderInv, RowsInv, FreshInv, LedgerInv, RetireInv, CoherentAt, BuildLog, Sealed, StagedBytes,
         RecordDispatch, EditsPending, HeaderEdit;
    if RecordDispatch(s.db, handle, op).Ok? {
      var t := Next(s, Dispatch(handle, op));
      var p := DispatchEffect(s, handle, op);
      var edited := p.(operationRevision := p.operationRevision + 1, inFlight := Some(op));
      HeaderEdited(s, t, p, edited);
      PendingFacts(s);
      DispatchLog(p, op, Log(s, p.generation.sequence));
      EditKeeps(s, t, p, edited);
    }
  }

  lemma SealedSame(a: Db, b: Db, g: Generation)
    requires a.sources == b.sources && a.pages == b.pages && a.evidence == b.evidence
    ensures Sealed(a, g) == Sealed(b, g) && CoherentAt(a, g) == CoherentAt(b, g)
  {
    hide Coherent;
  }

  lemma DispatchLog(p: Pending, op: Operation, log: seq<Ticket>)
    requires BuildLog(p, log) && p.inFlight.None?
    ensures BuildLog(p.(operationRevision := p.operationRevision + 1, inFlight := Some(op)), log + [Ticket(op, Unknown)])
  {
    assert (log + [Ticket(op, Unknown)])[..|log|] == log;
  }

  lemma SettleLog(p: Pending, log: seq<Ticket>, edited: Pending)
    requires BuildLog(p, log) && p.inFlight.Some? && UnknownEffect(p) && log[|log|-1].verdict != Unknown
    requires edited.inFlight.None? && edited.operationRevision == p.operationRevision
    requires log[|log|-1].verdict == Refused ==> edited.created == p.created && edited.uploaded == p.uploaded
    requires log[|log|-1].verdict == Acked && p.inFlight.value.Create? ==> edited.created && edited.uploaded == p.uploaded
    requires log[|log|-1].verdict == Acked && p.inFlight.value.Insert? ==>
               edited.created == p.created && edited.uploaded == p.uploaded + 1
    ensures BuildLog(edited, log)
  {
    var front := log[..|log|-1];
    forall i | 0 <= i < |log| ensures log[i].verdict != Unknown {
      if i < |front| { assert front[i] == log[i]; }
    }
  }

  lemma SettleEffect(s: Sys, handle: Pending, index: nat) returns (p: Pending, edited: Pending)
    requires Next(s, Settle(handle, index)).db != s.db
    ensures var t := Next(s, Settle(handle, index));
            var log := Log(s, p.generation.sequence);
            && s.db.Header().pending == Some(p)
            && HeaderEdit(s, t, p, edited) && t.ledger == s.ledger
            && index < |log| && index + 1 == p.operationRevision && log[index].verdict != Unknown
            && p.inFlight == Some(log[index].op)
            && edited == p.(inFlight := None, created := edited.created, uploaded := edited.uploaded)
            && (log[index].verdict == Refused ==> edited.created == p.created && edited.uploaded == p.uploaded)
            && (log[index].verdict == Acked && p.inFlight.value.Create? ==> edited.created && edited.uploaded == p.uploaded)
            && (log[index].verdict == Acked && p.inFlight.value.Insert? ==>
                  edited.created == p.created && edited.uploaded == p.uploaded + 1)
  {
    hide Decodes;
    p := s.db.Header().pending.value;
    edited := Next(s, Settle(handle, index)).db.Header().pending.value;
  }

  lemma SettleKeeps(s: Sys, handle: Pending, index: nat)
    requires Inv(s)
    ensures Inv(Next(s, Settle(handle, index)))
  {
    hide CorpusInv, HeaderInv, RowsInv, FreshInv, LedgerInv, RetireInv, CoherentAt, Sealed, StagedBytes, BuildLog,
         EditsPending, HeaderEdit, FinishDispatch;
    var t := Next(s, Settle(handle, index));
    if t.db != s.db {
      var p, edited := SettleEffect(s, handle, index);
      HeaderEdited(s, t, p, edited);
      PendingFacts(s);
      var log := Log(s, p.generation.sequence);
      BuildLogLength(p, log);
      SettleLog(p, log, edited);
      EditKeeps(s, t, p, edited);
    }
  }

  lemma BuildLogLength(p: Pending, log: seq<Ticket>)
    requires BuildLog(p, log)
    ensures |log| == p.operationRevision
  {
  }
}
