/** When each source or preparation transaction commits, and exactly what it
    writes: a guard is honoured exactly while it is what a read would return. */
module Catalogue {
  import opened Wrappers
  import opened Control
  import opened Protocol

  /** The locator index, or nothing before the source tables exist. */
  function Locators(db: Db): map<seq<nat>, Id> {
    if db.corpus.Some? then db.corpus.value.locators else map[]
  }

  /** The same row, or none, under one key of two tables. */
  predicate SameAt<K, V(==)>(before: map<K, V>, after: map<K, V>, key: K) {
    && (key in after <==> key in before)
    && (key in before ==> after[key] == before[key])
  }

  /** Whether one more transaction that changes a row can be counted. */
  predicate Counts(db: Db) {
    db.Wanted() < U64_MAX
  }

  // ------------------------------------------------------ source commits

  /** What is read before a file is acquired: the row the locator names now,
      or a drawn identifier, and a drawn namespace before the first commit. */
  function ReadGuard(db: Db, locator: seq<nat>, namespace: Id, drawn: Id): SourceCapture
    requires CorpusInv(db)
  {
    if db.corpus.None? then SourceCapture(namespace, drawn, locator, None, None, None)
    else if locator in Locators(db) then
      var row := db.Rows()[Locators(db)[locator]];
      SourceCapture(row.namespace, row.id, locator, db.Namespace(), Some(row.rowRevision), Some(row.registrationRevision))
    else SourceCapture(db.corpus.value.namespace, drawn, locator, db.Namespace(), None, None)
  }

  /** The guard is what a read would return now, and an identifier it drew is
      not taken. */
  predicate GuardStands(db: Db, c: SourceCapture)
    requires CorpusInv(db)
  {
    c == ReadGuard(db, c.locator, c.namespace, c.id) && (c.expectedRow.None? ==> c.id !in db.Rows())
  }

  /** The row already has this object under this file key. */
  predicate Unchanged(db: Db, c: SourceCapture, fileKey: nat, objectRef: ObjectRef) {
    c.expectedRow.Some? && c.id in db.Rows() && db.Rows()[c.id].objectRef == objectRef && db.Rows()[c.id].fileKey == fileKey
  }

  /** What a row encoder takes, apart from its ceiling on nothing. */
  predicate Writable(c: SourceCapture, objectRef: ObjectRef) {
    objectRef.kind == SourceObject && objectRef.version == 1 && 0 < |c.locator| <= MAX_LOCATOR_BYTES
  }

  lemma RevisionsRead(db: Db, c: SourceCapture)
    requires CorpusInv(db) && c.WellFormed()
    ensures SourceRevisions(db, c).Ok? <==>
              GuardStands(db, c) && (c.expectedRow.Some? ==> db.Rows()[c.id].rowRevision < U64_MAX)
    ensures SourceRevisions(db, c).Ok? ==>
              SourceRevisions(db, c).value
              == if c.expectedRow.Some? then (db.Rows()[c.id].rowRevision + 1, db.Rows()[c.id].registrationRevision)
                 else (1, 1)
  {
    hide RowReads, PreparationReads;
  }

  /** A source commit succeeds exactly under a guard that still stands, with
      revisions left to count. */
  lemma CommitSourceSucceeds(db: Db, c: SourceCapture, fileKey: nat, objectRef: ObjectRef)
    requires CorpusInv(db) && c.WellFormed()
    ensures CommitSource(db, c, fileKey, objectRef).Ok? <==>
              && GuardStands(db, c)
              && (c.expectedRow.Some? ==> db.Rows()[c.id].rowRevision < U64_MAX)
              && (Unchanged(db, c, fileKey, objectRef) || (Writable(c, objectRef) && Counts(db)))
  {
    RevisionsRead(db, c);
    hide SourceRevisions;
    if GuardStands(db, c) && c.expectedRow.Some? { assert RowReads(db.Rows()[c.id]); }
  }

  /** One row and one locator written under the guard's identifier, a new row
      as its first revision, an old one as its next under the registration it
      had; nothing when nothing changed. */
  predicate SourceWritten(db: Db, after: Db, c: SourceCapture, fileKey: nat, objectRef: ObjectRef, r: SourceRecord) {
    if Unchanged(db, c, fileKey, objectRef) then after == db && r == db.Rows()[c.id]
    else
      && c.expectedRow.Some? == c.expectedRegistration.Some?
      && r == SourceRecord(c.namespace, c.id,
                           if c.expectedRow.Some? then c.expectedRow.value + 1 else 1,
                           if c.expectedRegistration.Some? then c.expectedRegistration.value else 1,
                           c.locator, fileKey, objectRef)
      && after == db.(corpus := after.corpus)
      && after.Namespace() == Some(c.namespace) && after.Wanted() == db.Wanted() + 1
      && after.Rows() == db.Rows()[c.id := r] && Locators(after) == Locators(db)[c.locator := c.id]
      && after.Preparations() == db.Preparations()
  }

  lemma CommitSourceWrites(db: Db, c: SourceCapture, fileKey: nat, objectRef: ObjectRef)
    requires CorpusInv(db) && c.WellFormed() && CommitSource(db, c, fileKey, objectRef).Ok?
    ensures var (after, r) := CommitSource(db, c, fileKey, objectRef).value;
            SourceWritten(db, after, c, fileKey, objectRef, r)
  {
    RevisionsRead(db, c);
    hide SourceRevisions, RowReads, PreparationReads;
  }

  // ------------------------------------------------------------- removal

  predicate NamesId(expected: seq<SourceRecord>, id: Id) {
    exists i :: 0 <= i < |expected| && expected[i].id == id
  }

  predicate NamesLocator(expected: seq<SourceRecord>, locator: seq<nat>) {
    exists i :: 0 <= i < |expected| && expected[i].locator == locator
  }

  /** Every expected row is stored exactly so, and none is named twice. */
  predicate StoredOnce(db: Db, expected: seq<SourceRecord>) {
    && (forall i :: 0 <= i < |expected| ==> expected[i].id in db.Rows() && db.Rows()[expected[i].id] == expected[i])
    && (forall i, j :: 0 <= i < j < |expected| ==> expected[i].id != expected[j].id)
  }

  lemma RemovableIsStored(db: Db, expected: seq<SourceRecord>)
    requires CorpusInv(db) && db.corpus.Some?
    ensures Removable(db.corpus.value, expected) <==> StoredOnce(db, expected)
  {
    hide RowReads, PreparationReads;
    if StoredOnce(db, expected) {
      forall r | r in expected ensures r.id in db.Rows() && db.Rows()[r.id] == r {
        var i :| 0 <= i < |expected| && expected[i] == r;
      }
    }
    if Removable(db.corpus.value, expected) {
      forall i | 0 <= i < |expected| ensures expected[i].id in db.Rows() && db.Rows()[expected[i].id] == expected[i] {
        assert expected[i] in expected;
      }
    }
  }

  /** A removal succeeds exactly when there is nothing to remove, or every
      expected row is stored exactly so and the removal can be counted. */
  lemma RemoveSucceeds(db: Db, expected: seq<SourceRecord>)
    requires CorpusInv(db)
    ensures RemoveSources(db, expected).Ok? <==>
              expected == [] || (|expected| <= MAX_SOURCES && StoredOnce(db, expected) && Counts(db))
  {
    hide Removable, RowReads, PreparationReads;
    if db.corpus.Some? { RemovableIsStored(db, expected); }
    else if expected != [] { assert expected[0].id !in db.Rows(); }
  }

  /** What a removal takes away: under every identifier and every locator, the
      rows as they were if it is not among those expected, and none if it is. */
  ghost predicate RemovedFrom(db: Db, after: Db, expected: seq<SourceRecord>) {
    && after == db.(corpus := after.corpus) && after.Namespace() == db.Namespace()
    && after.Wanted() == db.Wanted() + (if expected == [] then 0 else 1)
    && (forall id: Id ::
          if NamesId(expected, id) then id !in after.Rows() && id !in after.Preparations()
          else SameAt(db.Rows(), after.Rows(), id) && SameAt(db.Preparations(), after.Preparations(), id))
    && (forall locator: seq<nat> ::
          if NamesLocator(expected, locator) then locator !in Locators(after)
          else SameAt(Locators(db), Locators(after), locator))
  }

  lemma NamedSets(expected: seq<SourceRecord>)
    ensures forall id: Id :: id in (set r | r in expected :: r.id) <==> NamesId(expected, id)
    ensures forall locator: seq<nat> :: locator in (set r | r in expected :: r.locator) <==> NamesLocator(expected, locator)
  {
    forall id: Id | id in (set r | r in expected :: r.id) ensures NamesId(expected, id) {
      var r :| r in expected && r.id == id;
      var i :| 0 <= i < |expected| && expected[i] == r;
    }
    forall locator: seq<nat> | locator in (set r | r in expected :: r.locator) ensures NamesLocator(expected, locator) {
      var r :| r in expected && r.locator == locator;
      var i :| 0 <= i < |expected| && expected[i] == r;
    }
  }

  lemma Dropped<K, V>(m: map<K, V>, keys: set<K>)
    ensures forall k: K :: if k in keys then k !in m - keys else SameAt(m, m - keys, k)
  {
  }

  lemma RemovedExactly(db: Db, expected: seq<SourceRecord>)
    requires CorpusInv(db) && RemoveSources(db, expected).Ok?
    ensures RemovedFrom(db, RemoveSources(db, expected).value.0, expected)
  {
    hide CorpusInv, Removable;
    if expected != [] {
      var ids := set r | r in expected :: r.id;
      var locators := set r | r in expected :: r.locator;
      var after := RemoveSources(db, expected).value.0;
      assert after.Rows() == db.Rows() - ids && after.Preparations() == db.Preparations() - ids
             && Locators(after) == Locators(db) - locators;
      NamedSets(expected);
      Dropped(db.Rows(), ids);
      Dropped(db.Preparations(), ids);
      Dropped(Locators(db), locators);
      hide SameAt, NamesId, NamesLocator;
    }
  }

  // -------------------------------------------------------- preparations

  /** A settings selection succeeds exactly for supported settings of a
      retained source whose registration and preparation are those seen. */
  lemma SelectSettingsSucceeds(db: Db, id: Id, settings: Settings, source: SourceRecord, previous: Option<Preparation>)
    requires CorpusInv(db)
    ensures SelectSettings(db, id, settings, source, previous).Ok? <==>
              && settings.Supported() && id in db.Rows() && db.Namespace() == Some(source.namespace)
              && db.Rows()[id].registrationRevision == source.registrationRevision
              && previous == (if id in db.Preparations() then Some(db.Preparations()[id]) else None)
              && (previous.Some? ==> previous.value.settingsRevision < U64_MAX) && Counts(db)
  {
    hide RowReads, PreparationReads;
  }

  /** That one preparation is written: the settings under the next revision,
      with whatever outcome there was. */
  predicate SettingsWritten(db: Db, after: Db, id: Id, settings: Settings, source: SourceRecord,
                            previous: Option<Preparation>, p: Preparation)
  {
    && after == db.(corpus := after.corpus) && after.Namespace() == db.Namespace()
    && after.Wanted() == db.Wanted() + 1
    && after.Rows() == db.Rows() && Locators(after) == Locators(db)
    && after.Preparations() == db.Preparations()[id := p]
    && p == match previous
            case Some(before) => before.(settingsRevision := before.settingsRevision + 1, settings := settings)
            case None => Preparation(source.namespace, id, 1, settings, 0, None)
  }

  lemma SelectSettingsWrites(db: Db, id: Id, settings: Settings, source: SourceRecord, previous: Option<Preparation>)
    requires CorpusInv(db) && SelectSettings(db, id, settings, source, previous).Ok?
    ensures var (after, p) := SelectSettings(db, id, settings, source, previous).value;
            SettingsWritten(db, after, id, settings, source, previous, p)
  {
    hide RowReads, PreparationReads;
  }

  /** What is read before a source is prepared. */
  function ReadPreparation(db: Db, id: Id): PreparationCapture
    requires id in db.Rows() && id in db.Preparations()
  {
    var p := db.Preparations()[id];
    PreparationCapture(db.Rows()[id], p.settings, p.settingsRevision, p.outcomeRevision, p.outcome)
  }

  /** The outcome an attempt under this guard saves. */
  function Attempted(capture: PreparationCapture, result: Outcome): BoundOutcome {
    BoundOutcome(capture.source.rowRevision, capture.source.registrationRevision, capture.source.objectRef,
                 capture.settings, result)
  }

  /** Saving the result would change nothing, or would replace a usable
      artifact by a gap. */
  predicate Keeps(capture: PreparationCapture, result: Outcome) {
    || capture.expected == Some(Attempted(capture, result))
    || (result.Gap? && capture.expected.Some? && capture.expected.value.result.Ready?
        && capture.expected.value.MatchesInput(capture.source, capture.settings))
  }

  /** An outcome is accepted exactly under a guard that a read would return
      again, with revisions left if it is to be written. */
  lemma CommitOutcomeSucceeds(db: Db, capture: PreparationCapture, result: Outcome)
    requires CorpusInv(db)
    ensures CommitOutcome(db, capture, result).Ok? <==>
              && (result.Ready? ==> IsArtifact(result.artifact))
              && var id := capture.source.id;
              && id in db.Rows() && id in db.Preparations() && capture == ReadPreparation(db, id)
              && (Keeps(capture, result) || (capture.expectedRevision < U64_MAX && Counts(db)))
  {
    hide RowReads, PreparationReads;
  }

  /** That one preparation's outcome is written, or nothing. */
  predicate OutcomeWritten(db: Db, after: Db, capture: PreparationCapture, result: Outcome, p: Preparation) {
    var id := capture.source.id;
    && id in db.Preparations()
    && if Keeps(capture, result) then after == db && p == db.Preparations()[id]
       else
         && after == db.(corpus := after.corpus) && after.Namespace() == db.Namespace()
         && after.Wanted() == db.Wanted() + 1
         && after.Rows() == db.Rows() && Locators(after) == Locators(db)
         && after.Preparations() == db.Preparations()[id := p]
         && p == db.Preparations()[id].(outcomeRevision := capture.expectedRevision + 1,
                                        outcome := Some(Attempted(capture, result)))
  }

  lemma CommitOutcomeWrites(db: Db, capture: PreparationCapture, result: Outcome)
    requires CorpusInv(db) && CommitOutcome(db, capture, result).Ok?
    ensures var (after, p) := CommitOutcome(db, capture, result).value;
            OutcomeWritten(db, after, capture, result, p)
  {
    hide RowReads, PreparationReads;
  }
}
