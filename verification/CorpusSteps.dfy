/** Every transaction on the source tables either changes no row or advances
    the wanted-corpus revision. */
module CorpusSteps {
  import opened Wrappers
  import opened Control
  import opened Graph
  import opened Protocol
  import Catalogue

  /** What one source or preparation transaction may do. */
  predicate CorpusMoves(before: Db, after: Db) {
    && after == before.(corpus := after.corpus)
    && before.Wanted() <= after.Wanted()
    && (before.Wanted() == after.Wanted() ==>
          after.Rows() == before.Rows() && after.Preparations() == before.Preparations())
    && (before.corpus.Some? ==> after.Namespace() == before.Namespace())
  }

  lemma CommitSourceMoves(db: Db, c: SourceCapture, fileKey: nat, objectRef: ObjectRef)
    requires CorpusInv(db) && objectRef.length <= MAX_SOURCE_BYTES && c.WellFormed()
    ensures var after := After(db, CommitSource(db, c, fileKey, objectRef));
            CorpusMoves(db, after) && CorpusInv(after)
  {
    var edit := CommitSource(db, c, fileKey, objectRef);
    if edit.Ok? && edit.value.0 != db {
      var base := CorpusOr(db, c.namespace);
      var after := edit.value.0.corpus.value;
      var record := edit.value.1;
      assert after.rows == base.rows[c.id := record];
      assert after.locators == base.locators[c.locator := c.id];
      assert after.preparations == base.preparations;
      forall id | id in after.rows
        ensures after.rows[id].locator in after.locators && after.locators[after.rows[id].locator] == id
      {
        if id != c.id { assert base.rows[id].locator != c.locator; }
      }
    }
  }

  lemma RemoveSourcesMoves(db: Db, expected: seq<SourceRecord>)
    requires CorpusInv(db)
    ensures var after := After(db, RemoveSources(db, expected));
            CorpusMoves(db, after) && CorpusInv(after)
  {
    var edit := RemoveSources(db, expected);
    if edit.Ok? && expected != [] {
      var c := db.corpus.value;
      var ids := set r | r in expected :: r.id;
      var locators := set r | r in expected :: r.locator;
      var after := edit.value.0.corpus.value;
      assert after == Corpus(c.namespace, c.wanted + 1, c.rows - ids, c.locators - locators, c.preparations - ids);
      assert forall r :: r in expected ==> c.locators[r.locator] == r.id && c.rows[r.id].locator == r.locator;
    }
  }

  /** What a preparation transaction writes is read back. */
  lemma SettingsRead(db: Db, id: Id, settings: Settings, source: SourceRecord, previous: Option<Preparation>)
    requires CorpusInv(db) && SelectSettings(db, id, settings, source, previous).Ok?
    ensures PreparationReads(SelectSettings(db, id, settings, source, previous).value.1)
  {
    hide RowReads;
  }

  lemma OutcomeReads(db: Db, capture: PreparationCapture, result: Outcome)
    requires CorpusInv(db) && CommitOutcome(db, capture, result).Ok?
    ensures PreparationReads(CommitOutcome(db, capture, result).value.1)
  {
  }

  lemma SelectSettingsMoves(db: Db, id: Id, settings: Settings, source: SourceRecord, previous: Option<Preparation>)
    requires CorpusInv(db)
    ensures var after := After(db, SelectSettings(db, id, settings, source, previous));
            CorpusMoves(db, after) && CorpusInv(after)
  {
    hide RowReads, PreparationReads;
    var edit := SelectSettings(db, id, settings, source, previous);
    if edit.Ok? {
      SettingsRead(db, id, settings, source, previous);
      var c := db.corpus.value;
      assert edit.value.0.corpus.value
          == c.(wanted := c.wanted + 1, preparations := c.preparations[id := edit.value.1]);
    }
  }

  lemma CommitOutcomeMoves(db: Db, capture: PreparationCapture, result: Outcome)
    requires CorpusInv(db)
    ensures var after := After(db, CommitOutcome(db, capture, result));
            CorpusMoves(db, after) && CorpusInv(after)
  {
    hide RowReads, PreparationReads;
    var edit := CommitOutcome(db, capture, result);
    if edit.Ok? && edit.value.0 != db {
      OutcomeReads(db, capture, result);
      var c := db.corpus.value;
      assert edit.value.0.corpus.value
          == c.(wanted := c.wanted + 1, preparations := c.preparations[capture.source.id := edit.value.1]);
    }
  }

  lemma AdmitMoves(db: Db, namespace: Id)
    requires CorpusInv(db)
    ensures CorpusMoves(db, After(db, Admit(db, namespace))) && CorpusInv(After(db, Admit(db, namespace)))
  {
  }

  predicate CorpusAction(a: Action) {
    a.SourceCommit? || a.SourceRemove? || a.SourceAdmit? || a.PreparationSelect? || a.PreparationCommit?
  }

  /** The revision rule: a transaction that leaves the wanted revision alone
      leaves every source row and every preparation row alone. */
  lemma RevisionRule(s: Sys, a: Action)
    requires CorpusInv(s.db) && CorpusAction(a)
    ensures Next(s, a) == s.(db := Next(s, a).db)
    ensures CorpusMoves(s.db, Next(s, a).db) && CorpusInv(Next(s, a).db)
  {
    hide CorpusMoves, CorpusInv, CommitSource, RemoveSources, SelectSettings, CommitOutcome, Admit;
    match a {
      case SourceCommit(guard, fileKey, objectRef) =>
        if objectRef.length <= MAX_SOURCE_BYTES && guard.WellFormed() { CommitSourceMoves(s.db, guard, fileKey, objectRef); }
        else { NoMove(s.db); }
      case SourceRemove(expected) => RemoveSourcesMoves(s.db, expected);
      case SourceAdmit(namespace) => AdmitMoves(s.db, namespace);
      case PreparationSelect(id, settings, source, previous) =>
        SelectSettingsMoves(s.db, id, settings, source, previous);
      case PreparationCommit(prepared, result) =>
        CommitOutcomeMoves(s.db, prepared, result);
    }
  }

  lemma NoMove(db: Db)
    ensures CorpusMoves(db, db)
  {
  }

  lemma HeaderKept(before: Db, after: Db)
    requires after == before.(corpus := after.corpus) && HeaderInv(before)
    ensures HeaderInv(after)
  {
    hide Decodes, RetiredDecodes, PendingInv;
    assert after.Header() == before.Header();
  }

  lemma RowsKept(before: Db, after: Db)
    requires after == before.(corpus := after.corpus) && RowsInv(before)
    ensures RowsInv(after)
  {
    hide Coherent;
    assert after.Header() == before.Header();
    forall q: nat ensures Owned(after, q) == Owned(before, q) {}
  }

  lemma FreshKept(s: Sys, t: Sys)
    requires t == s.(db := t.db) && CorpusMoves(s.db, t.db) && FreshInv(s)
    ensures FreshInv(t)
  {
    hide InputsInv, ToMap;
    assert t.db.Header() == s.db.Header();
    if t.db.Wanted() == s.db.Wanted() {
      assert t.db.Join() == s.db.Join();
    }
    forall c | c in t.captures ensures FreshCapture(t, c) { assert FreshCapture(s, c); }
  }

  lemma LedgerKept(s: Sys, t: Sys)
    requires t == s.(db := t.db) && CorpusMoves(s.db, t.db) && LedgerInv(s) && RetireInv(s)
    ensures LedgerInv(t) && RetireInv(t)
  {
    hide BuildLog, RetiredLog, Settled, AckedOps, Claimed;
    assert t.db.Header() == s.db.Header();
    forall q ensures Owned(t.db, q) == Owned(s.db, q) && Log(t, q) == Log(s, q) {}
  }

  /** Rows a publication already depends on survive any source transaction. */
  lemma CorpusActionKeeps(s: Sys, a: Action)
    requires Inv(s) && CorpusAction(a)
    ensures Inv(Next(s, a))
  {
    hide CorpusInv, HeaderInv, RowsInv, FreshInv, LedgerInv, RetireInv, Next;
    RevisionRule(s, a);
    var t := Next(s, a);
    HeaderKept(s.db, t.db);
    RowsKept(s.db, t.db);
    FreshKept(s, t);
    LedgerKept(s, t);
  }

  // ------------------------------------------------------------ guards

  /** The row encoder has no ceiling where the decoder has one: a row over
      the ceiling is written and refused by every later read, and that is the
      only way a written row can be unreadable. */
  lemma CeilingOnRead(db: Db, c: SourceCapture, fileKey: nat, objectRef: ObjectRef)
    requires CorpusInv(db) && c.WellFormed() && CommitSource(db, c, fileKey, objectRef).Ok?
    requires CommitSource(db, c, fileKey, objectRef).value.0 != db
    ensures var (after, r) := CommitSource(db, c, fileKey, objectRef).value;
            after.Rows()[c.id] == r && (RowReads(after.Rows()[c.id]) <==> objectRef.length <= MAX_SOURCE_BYTES)
  {
    Catalogue.CommitSourceWrites(db, c, fileKey, objectRef);
  }

  /** The first commit of an object one byte over the ceiling is accepted. */
  lemma OverCeilingIsWritten()
    ensures var db := Db(None, None, map[], map[], map[], map[]);
            var c := SourceCapture(1, 2, [47], None, None, None);
            var o := ObjectRef(1, SourceObject, 0, MAX_SOURCE_BYTES + 1);
            && CorpusInv(db) && CommitSource(db, c, 0, o).Ok?
            && !RowReads(CommitSource(db, c, 0, o).value.1)
  {
  }

  /** A guard admits at most one change: once a commit wrote anything, every
      further commit under the same guard is stale. */
  lemma SourceGuardSpent(db: Db, c: SourceCapture, fileKey: nat, objectRef: ObjectRef, key: nat, input: ObjectRef)
    requires CorpusInv(db) && c.WellFormed() && CommitSource(db, c, fileKey, objectRef).Ok?
    requires CommitSource(db, c, fileKey, objectRef).value.0 != db
    ensures CommitSource(CommitSource(db, c, fileKey, objectRef).value.0, c, key, input) == Err(Stale)
  {
    Catalogue.CommitSourceWrites(db, c, fileKey, objectRef);
  }

  lemma SettingsGuardSpent(db: Db, id: Id, settings: Settings, source: SourceRecord, previous: Option<Preparation>,
                           other: Settings)
    requires SelectSettings(db, id, settings, source, previous).Ok? && other.Supported()
    ensures var (after, p) := SelectSettings(db, id, settings, source, previous).value;
            && p.settings == settings && after.Preparations() == db.Preparations()[id := p]
            && (previous.Some? ==> p.outcome == previous.value.outcome
                                   && p.settingsRevision == previous.value.settingsRevision + 1)
            && SelectSettings(after, id, other, source, previous) == Err(Stale)
  {
    var (after, p) := SelectSettings(db, id, settings, source, previous).value;
    assert after.Rows() == db.Rows() && FindPreparation(after.corpus.value, id) == Some(p);
  }

  /** The same for an outcome; what is saved is bound to the inputs the guard
      was read with, and to no others. */
  lemma OutcomeGuardSpent(db: Db, capture: PreparationCapture, result: Outcome, other: Outcome)
    requires CommitOutcome(db, capture, result).Ok? && CommitOutcome(db, capture, result).value.0 != db
    ensures var (after, p) := CommitOutcome(db, capture, result).value;
            && p.outcome == Some(BoundOutcome(capture.source.rowRevision, capture.source.registrationRevision,
                                              capture.source.objectRef, capture.settings, result))
            && p.settings == capture.settings && db.Rows()[capture.source.id] == capture.source
            && CommitOutcome(after, capture, other).Err?
  {
    var (after, p) := CommitOutcome(db, capture, result).value;
    assert after.Rows() == db.Rows() && after.Preparations()[capture.source.id] == p;
  }

  // ----------------------------------------------------- usable artifact

  /** The saved outcome is an artifact of the source's present inputs. */
  predicate Usable(db: Db, id: Id) {
    && id in db.Rows() && id in db.Preparations()
    && var p := db.Preparations()[id];
       p.outcome.Some? && p.outcome.value.result.Ready? && p.outcome.value.MatchesInput(db.Rows()[id], p.settings)
  }

  /** The source has the same registration, object and settings in both. */
  predicate SameInputs(before: Db, after: Db, id: Id) {
    && id in before.Rows() && id in after.Rows() && id in before.Preparations() && id in after.Preparations()
    && after.Rows()[id].registrationRevision == before.Rows()[id].registrationRevision
    && after.Rows()[id].objectRef == before.Rows()[id].objectRef
    && after.Preparations()[id].settings == before.Preparations()[id].settings
  }

  lemma OutcomeKeepsReady(db: Db, capture: PreparationCapture, result: Outcome, id: Id)
    requires Usable(db, id) && SameInputs(db, After(db, CommitOutcome(db, capture, result)), id)
    ensures Usable(After(db, CommitOutcome(db, capture, result)), id)
  {
  }

  /** No transaction takes a usable artifact away while its inputs stay: a gap
      saved later does not replace it. */
  lemma ReadyIsKept(s: Sys, a: Action, id: Id)
    requires CorpusAction(a) && Usable(s.db, id) && SameInputs(s.db, Next(s, a).db, id)
    ensures Usable(Next(s, a).db, id)
  {
    hide CommitOutcome;
    if a.PreparationCommit? { OutcomeKeepsReady(s.db, a.prepared, a.result, id); }
  }
}
