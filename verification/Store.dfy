/** The control writer: one mutable database, one method per transaction.

    A transaction takes effect completely or not at all, and its caller may
    not learn which: it can be interrupted before it commits, and a commit that
    reached the disk can still be reported as failed. */
module Store {
  import opened Wrappers
  import opened Control
  import opened Graph
  import opened Protocol
  import opened Verify
  import PublicationTheorems
  import Catalogue
  import Progress
  import BuildSteps
  import Sets
  import PendingSteps
  import ClosingSteps

  /** Failures that can happen at any `check` or database call. */
  predicate Interruption(e: Error) {
    e in {Cancelled, Deadline, Database}
  }

  /** What the caller of one transaction knows when it returns. When the store
      is calm nothing interrupts it, and it returns what the transaction did. */
  ghost predicate Transacted<T>(calm: bool, before: Sys, after: Sys, a: Action, edit: Edit<T>, r: Result<T, Error>) {
    match r
    case Ok(v) => edit.Ok? && v == edit.value.1 && after == Next(before, a)
    case Err(e) =>
      || (after == before && edit == Err(e))
      || (!calm && after == before && Interruption(e))
      || (!calm && after == Next(before, a) && e == Database && edit.Ok?)
  }

  /** Stages one page's points in order on the rows its transaction sees. */
  method StageEach(start: Stage, q: nat, points: seq<Point>) returns (r: Result<Stage, Error>)
    ensures r == StagePoints(start, q, points)
  {
    hide StagePoints;
    var stage, i := start, 0;
    NoPoints(start, q, points);
    while i < |points|
      invariant 0 <= i <= |points|
      invariant StagePoints(start, q, points[..i]) == Ok(stage)
    {
      var point := points[i];
      OnePoint(start, q, points, i);
      PrefixFails(start, q, points, i + 1);
      if point.id != PointId(q, stage.pointCount) { return Err(Corrupt); }
      var e := point.evidence;
      if e.source !in stage.sources { return Err(Corrupt); }
      var entry := stage.sources[e.source];
      var c := entry.captured;
      if entry.complete || e.namespace != c.source.namespace || e.input != c.source.objectRef
         || e.unit != entry.stagedUnits || c.preparation.outcome.None?
         || c.preparation.outcome.value.result != Ready(e.prepared) {
        return Err(Corrupt);
      }
      if entry.stagedUnits >= U64_MAX { return Err(Limit); }
      var sources := stage.sources[e.source := entry.(stagedUnits := entry.stagedUnits + 1)];
      if point.id in stage.evidence { return Err(Corrupt); }
      if stage.pointCount >= U64_MAX || stage.pointCount + 1 > MAX_POINTS { return Err(Limit); }
      stage := Stage(stage.pointCount + 1, sources, stage.evidence[point.id := e]);
      i := i + 1;
    }
    assert points[..i] == points;
    return Ok(stage);
  }

  lemma NoPoints(start: Stage, q: nat, points: seq<Point>)
    ensures StagePoints(start, q, points[..0]) == Ok(start)
  {
  }

  lemma OnePoint(start: Stage, q: nat, points: seq<Point>, i: nat)
    requires i < |points| && StagePoints(start, q, points[..i]).Ok?
    ensures StagePoints(start, q, points[..i + 1]) == StagePoint(StagePoints(start, q, points[..i]).value, q, points[i])
  {
    hide StagePoint;
    assert points[..i + 1][..i] == points[..i];
  }

  /** A page is staged whole or not at all: its first bad point decides. */
  lemma {:induction false} PrefixFails(start: Stage, q: nat, points: seq<Point>, k: nat)
    requires k <= |points|
    ensures StagePoints(start, q, points[..k]).Err? ==> StagePoints(start, q, points) == StagePoints(start, q, points[..k])
    decreases |points|
  {
    if k < |points| {
      var front := points[..|points|-1];
      PrefixFails(start, q, front, k);
      assert front[..k] == points[..k];
    } else {
      assert points[..k] == points;
    }
  }

  /** Inserts one chunk of captured inputs; an existing key is corruption. */
  method InsertEach(start: map<Id, Entry>, chunk: seq<Captured>) returns (r: Result<map<Id, Entry>, Error>)
    ensures r == InsertInputs(start, chunk)
  {
    var rows, i := start, 0;
    while i < |chunk|
      invariant 0 <= i <= |chunk|
      invariant InsertInputs(start, chunk[..i]) == Ok(rows)
    {
      assert chunk[..i + 1][..i] == chunk[..i];
      InsertPrefixFails(start, chunk, i + 1);
      var id := chunk[i].source.id;
      if id in rows { return Err(Corrupt); }
      rows := rows[id := Entry(chunk[i], 0, false)];
      i := i + 1;
    }
    assert chunk[..i] == chunk;
    return Ok(rows);
  }

  lemma {:induction false} InsertPrefixFails(start: map<Id, Entry>, chunk: seq<Captured>, k: nat)
    requires k <= |chunk|
    ensures InsertInputs(start, chunk[..k]).Err? ==> InsertInputs(start, chunk) == InsertInputs(start, chunk[..k])
    decreases |chunk|
  {
    if k < |chunk| {
      var front := chunk[..|chunk|-1];
      InsertPrefixFails(start, front, k);
      assert front[..k] == chunk[..k];
    } else {
      assert chunk[..k] == chunk;
    }
  }

  // ------------------------------------------------------------- capture

  /** The row of `id` has a preparation of exactly these inputs. */
  predicate Prepared(db: Db, id: Id)
    requires id in db.Rows()
  {
    && id in db.Preparations()
    && db.Preparations()[id].outcome.Some?
    && db.Preparations()[id].outcome.value.MatchesInput(db.Rows()[id], db.Preparations()[id].settings)
  }

  /** `read` is the join of the rows in `ids`, in ascending order. */
  predicate Joined(db: Db, read: seq<Captured>, ids: set<Id>) {
    && Ascending(read)
    && (forall x :: x in read ==>
          x.source.id in ids && x.source.id in db.Join() && db.Join()[x.source.id] == x && x.Consistent())
    && (forall id :: id in ids ==> exists i :: 0 <= i < |read| && read[i].source.id == id)
  }

  lemma JoinedOne(db: Db, read: seq<Captured>, ids: set<Id>, id: Id)
    requires Joined(db, read, ids) && id in db.Join()
    requires db.Join()[id].Consistent() && db.Join()[id].source.id == id
    requires forall x :: x in read ==> x.source.id < id
    ensures Joined(db, read + [db.Join()[id]], ids + {id})
  {
    var more := read + [db.Join()[id]];
    assert forall i :: 0 <= i < |read| ==> read[i] in read;
    assert more[|read|].source.id == id;
    forall k | k in ids + {id} ensures exists i :: 0 <= i < |more| && more[i].source.id == k {
      if k != id {
        var i :| 0 <= i < |read| && read[i].source.id == k;
        assert more[i].source.id == k;
      }
    }
  }

  lemma JoinedStart(db: Db)
    ensures ReadSoFar(db, [], db.Rows().Keys, 0)
  {
  }

  lemma JoinedNone(db: Db, c: Capture)
    requires db.corpus.None? && c.sources == [] && c.namespace == None && c.wanted == 0 && Load(db) == Ok(c.state)
    ensures IsCapture(c, db)
  {
  }

  lemma ChargedOne(read: seq<Captured>, x: Captured)
    ensures Charged(read + [x]) == Charged(read) + RowBytes(x.source) + PreparationBytes(x.preparation)
  {
    assert (read + [x])[..|read|] == read;
  }

  lemma JoinedAll(db: Db, c: Capture)
    requires Joined(db, c.sources, db.Rows().Keys) && Load(db) == Ok(c.state)
    requires c.namespace == db.Namespace() && c.wanted == db.Wanted()
    requires |c.sources| <= MAX_SOURCES && Charged(c.sources) <= MAX_CAPTURE_BYTES
    ensures IsCapture(c, db)
  {
    hide Load, Charged, Ascending;
    forall id | id in db.Rows() ensures id in db.Preparations() {
      var i :| 0 <= i < |c.sources| && c.sources[i].source.id == id;
      assert c.sources[i] in c.sources;
    }
  }

  /** What one row adds to the charge of a capture. */
  function JoinBytes(db: Db, id: Id): nat
    requires id in db.Rows()
  {
    RowBytes(db.Rows()[id]) + if id in db.Preparations() then PreparationBytes(db.Preparations()[id]) else 0
  }

  /** Both rows of `id` decode and name what they are stored under. */
  predicate RowJoins(db: Db, id: Id)
    requires db.corpus.Some? && id in db.Rows()
  {
    var row := db.Rows()[id];
    && RowReads(row) && row.id == id && row.namespace == db.corpus.value.namespace
    && (id in db.Preparations() ==>
          var p := db.Preparations()[id];
          PreparationReads(p) && p.namespace == row.namespace && p.id == row.id)
  }

  /** Joins one source row with its preparation within the capture's bounds. */
  method JoinRow(db: Db, id: Id, count: nat, before: nat) returns (r: Result<(Captured, nat), Error>)
    requires db.corpus.Some? && id in db.Rows()
    ensures r.Ok? ==>
              && id in db.Join() && r.value.0 == db.Join()[id]
              && r.value.0.source.id == id && r.value.0.Consistent()
              && r.value.1 == before + RowBytes(r.value.0.source) + PreparationBytes(r.value.0.preparation)
              && r.value.1 <= MAX_CAPTURE_BYTES && count < MAX_SOURCES
    ensures r == Err(Unprepared) ==> !Prepared(db, id)
    ensures r == Err(Limit) ==> count >= MAX_SOURCES || before + JoinBytes(db, id) > MAX_CAPTURE_BYTES
    ensures r == Err(Corrupt) ==> !RowJoins(db, id)
    ensures r.Err? ==> r.error in {Unprepared, Limit, Corrupt}
  {
    var corpus := db.corpus.value;
    var source := corpus.rows[id];
    var charged := before + RowBytes(source);
    if count >= MAX_SOURCES || charged > MAX_CAPTURE_BYTES { return Err(Limit); }
    if !RowReads(source) || source.id != id || source.namespace != corpus.namespace { return Err(Corrupt); }
    if id !in corpus.preparations { return Err(Unprepared); }
    var preparation := corpus.preparations[id];
    charged := charged + PreparationBytes(preparation);
    if charged > MAX_CAPTURE_BYTES { return Err(Limit); }
    if !PreparationReads(preparation) || preparation.namespace != source.namespace || preparation.id != source.id {
      return Err(Corrupt);
    }
    if preparation.outcome.None? || !preparation.outcome.value.MatchesInput(source, preparation.settings) {
      return Err(Unprepared);
    }
    return Ok((Captured(source, preparation), charged));
  }

  /** The rows read before `todo`: their join, all below every row to come. */
  ghost predicate ReadSoFar(db: Db, read: seq<Captured>, todo: set<Id>, charged: nat) {
    && todo <= db.Rows().Keys
    && Joined(db, read, db.Rows().Keys - todo)
    && (forall x, id :: x in read && id in todo ==> x.source.id < id)
    && charged == Charged(read) <= MAX_CAPTURE_BYTES && |read| <= MAX_SOURCES
  }

  lemma ReadOne(db: Db, read: seq<Captured>, todo: set<Id>, charged: nat, id: Id, row: Captured)
    requires ReadSoFar(db, read, todo, charged) && id in todo && (forall j :: j in todo ==> id <= j)
    requires id in db.Join() && row == db.Join()[id] && row.source.id == id && row.Consistent()
    requires charged + RowBytes(row.source) + PreparationBytes(row.preparation) <= MAX_CAPTURE_BYTES
    requires |read| < MAX_SOURCES
    ensures ReadSoFar(db, read + [row], todo - {id}, charged + RowBytes(row.source) + PreparationBytes(row.preparation))
  {
    hide Joined, Charged, RowBytes, PreparationBytes;
    JoinedOne(db, read, db.Rows().Keys - todo, id);
    ChargedOne(read, row);
    assert db.Rows().Keys - todo + {id} == db.Rows().Keys - (todo - {id});
  }

  lemma ReadAll(db: Db, c: Capture, charged: nat)
    requires ReadSoFar(db, c.sources, {}, charged) && Load(db) == Ok(c.state)
    requires c.namespace == db.Namespace() && c.wanted == db.Wanted()
    ensures IsCapture(c, db)
  {
    hide Joined, Charged, Load;
    assert db.Rows().Keys - {} == db.Rows().Keys;
    JoinedAll(db, c);
  }

  /** The rows read before `id`, with that of `id`, pass one of a capture's
      bounds. */
  predicate PassesBounds(db: Db, read: seq<Captured>, todo: set<Id>, id: Id) {
    && Joined(db, read, db.Rows().Keys - todo) && id in todo && id in db.Rows()
    && (|read| >= MAX_SOURCES || Charged(read) + JoinBytes(db, id) > MAX_CAPTURE_BYTES)
  }

  /** Some first rows in key order already pass one of a capture's bounds. */
  ghost predicate TooMuch(db: Db) {
    exists read: seq<Captured>, todo: set<Id>, id: Id :: PassesBounds(db, read, todo, id)
  }

  /** One ordered pass over the source rows, joining each with its
      preparation; each refusal has its cause. */
  method ReadCorpus(db: Db) returns (r: Result<Capture, Error>)
    ensures r.Ok? ==> IsCapture(r.value, db)
    ensures r == Err(Unprepared) ==> exists id :: id in db.Rows() && !Prepared(db, id)
    ensures r == Err(Limit) ==> TooMuch(db)
    ensures r == Err(Corrupt) ==>
              Load(db).Err? || (db.corpus.Some? && exists id :: id in db.Rows() && !RowJoins(db, id))
    ensures r.Err? ==> r.error in {Unprepared, Limit, Corrupt}
  {
    hide IsCapture, Load, Prepared, Decodes, Charged, RowJoins, JoinBytes, Joined;
    if Load(db).Err? { return Err(Corrupt); }
    var s := Load(db).value;
    if db.corpus.None? {
      r := Ok(Capture([], None, 0, s));
      JoinedNone(db, r.value);
      return;
    }
    var read: seq<Captured>, charged: nat := [], 0;
    var todo: set<Id> := db.Rows().Keys;
    JoinedStart(db);
    while todo != {}
      invariant todo <= db.Rows().Keys && ReadSoFar(db, read, todo, charged)
      decreases |todo|
    {
      var id := FirstKey(todo);
      var joined := JoinRow(db, id, |read|, charged);
      assert joined == Err(Limit) ==> PassesBounds(db, read, todo, id);
      if joined.Err? { return Err(joined.error); }
      var row := joined.value;
      ReadOne(db, read, todo, charged, id, row.0);
      read, charged, todo := read + [row.0], row.1, todo - {id};
    }
    r := Ok(Capture(read, Some(db.corpus.value.namespace), db.corpus.value.wanted, s));
    ReadAll(db, r.value, charged);
  }

  // --------------------------------------------------------- reservation

  /** Captured inputs as they are first saved. */
  function Saved(sources: seq<Captured>): map<Id, Entry> {
    if sources == [] then map[]
    else
      var last := sources[|sources|-1];
      Saved(sources[..|sources|-1])[last.source.id := Entry(last, 0, false)]
  }

  /** A reserved build whose first rows are saved and nothing else. */
  ghost predicate StartedWith(db: Db, p: Pending, c: Capture, sources: seq<Captured>) {
    var q := p.generation.sequence;
    && db.Header().pending == Some(p)
    && p.generation.pointCount == 0 && p.generation.pageCount == 0 && !p.captureComplete && p.inFlight.None?
    && p.generation.sourceCount == |c.sources| && WantedIs(db, p.sourceNamespace, p.generation.wanted)
    && At(db.pages, q) == map[] && At(db.sources, q) == Saved(sources)
  }

  ghost predicate Started(db: Db, p: Pending, c: Capture) {
    StartedWith(db, p, c, c.sources)
  }

  /** A build can be reserved under this capture. */
  predicate Startable(db: Db, c: Capture) {
    IsCapture(c, db) && db.Header().pending.None? && |db.retired| < MAX_RETIRED && db.Header().nextSequence < U64_MAX
  }

  /** Nothing moved but the pending build and its rows. */
  predicate BesidePending(before: Db, after: Db) {
    && after.corpus == before.corpus && after.retired == before.retired
    && after.Header().current == before.Header().current
    && after.Header().currentRevision == before.Header().currentRevision
  }

  lemma StartedEmpty(s: Sys, c: Capture, drawn: Id)
    requires Inv(s) && Control.StartBuild(s.db, c, drawn).Ok? && c in s.captures
    ensures var t := Next(s, Start(c, drawn));
            var p := Control.StartBuild(s.db, c, drawn).value.1;
            && StartedWith(t.db, p, c, [])
            && p.generation.sequence in t.inputs && t.inputs[p.generation.sequence] == ToMap(c.sources)
  {
    hide Inv, GapCount, Decodes, Owned, Log;
    PublicationTheorems.ReservationIsNew(s, c, drawn);
  }

  lemma ChunkCaptured(sources: seq<Captured>, i: nat, j: nat)
    requires Ascending(sources) && i <= j <= |sources|
    ensures forall x :: x in sources[i..j] ==> x.source.id in ToMap(sources) && ToMap(sources)[x.source.id] == x
  {
    hide Ascending, ToMap;
    BuildSteps.ToMapContent(sources);
    assert forall x :: x in sources[i..j] ==> x in sources;
  }

  lemma {:induction false} InsertedMore(first: seq<Captured>, chunk: seq<Captured>)
    requires InsertInputs(Saved(first), chunk).Ok?
    ensures InsertInputs(Saved(first), chunk).value == Saved(first + chunk)
  {
    if chunk == [] {
      assert first + chunk == first;
    } else {
      var front := chunk[..|chunk|-1];
      InsertedMore(first, front);
      assert (first + chunk)[..|first + chunk|-1] == first + front;
    }
  }

  lemma PersistedMore(s: Sys, p: Pending, c: Capture, first: seq<Captured>, chunk: seq<Captured>)
    requires PersistInputs(s.db, p, chunk).Ok? && StartedWith(s.db, p, c, first)
    requires Next(s, Persist(p, chunk)).db == PersistInputs(s.db, p, chunk).value.0
    ensures StartedWith(Next(s, Persist(p, chunk)).db, p, c, first + chunk)
    ensures Next(s, Persist(p, chunk)).inputs == s.inputs
  {
    hide InsertInputs, PersistInputs, Saved;
    PendingSteps.PersistEffect(s, p, chunk);
    InsertedMore(first, chunk);
  }

  lemma BesideTrans(a: Db, b: Db, c: Db)
    requires BesidePending(a, b) && BesidePending(b, c)
    ensures BesidePending(a, c)
  {
  }

  lemma StartBeside(db: Db, c: Capture, drawn: Id)
    ensures Control.StartBuild(db, c, drawn).Ok? ==> BesidePending(db, Control.StartBuild(db, c, drawn).value.0)
  {
    hide Decodes, GapCount;
  }

  lemma PersistBeside(db: Db, p: Pending, chunk: seq<Captured>)
    ensures PersistInputs(db, p, chunk).Ok? ==> BesidePending(db, PersistInputs(db, p, chunk).value.0)
  {
    hide Decodes, InsertInputs;
  }

  lemma {:induction false} SavedIds(sources: seq<Captured>)
    ensures forall id :: id in Saved(sources) <==> exists k :: 0 <= k < |sources| && sources[k].source.id == id
  {
    if sources != [] {
      var front, last := sources[..|sources|-1], sources[|sources|-1];
      SavedIds(front);
      assert forall k :: 0 <= k < |front| ==> sources[k] == front[k];
      assert sources[|sources|-1] == last;
    }
  }

  lemma ChunkUnsaved(sources: seq<Captured>, i: nat, j: nat)
    requires Ascending(sources) && i <= j <= |sources|
    ensures Progress.Distinct(sources[i..j])
    ensures forall x :: x in sources[i..j] ==> x.source.id !in Saved(sources[..i])
  {
    hide Saved;
    SavedIds(sources[..i]);
    forall x | x in sources[i..j] ensures x.source.id !in Saved(sources[..i]) {
      var k :| 0 <= k < j - i && sources[i..j][k] == x;
      assert sources[i + k] == x;
    }
  }

  /** The next chunk of an ascending capture holds none of the saved rows. */
  lemma ChunkIsNew(db: Db, p: Pending, c: Capture, i: nat, j: nat)
    requires HeaderInv(db) && Ascending(c.sources) && i <= j <= |c.sources|
    requires StartedWith(db, p, c, c.sources[..i])
    ensures PersistInputs(db, p, c.sources[i..j]).Ok?
  {
    hide Saved, HeaderInv, WantedIs;
    ChunkUnsaved(c.sources, i, j);
    Progress.PersistSucceeds(db, p, c.sources[i..j]);
  }

  // ---------------------------------------------------------- retirement

  /** Cleaning `q` touches its rows and its retired row, nothing else. */
  ghost predicate CleansOnly(before: Db, after: Db, q: nat) {
    && after.Header() == before.Header() && after.corpus == before.corpus
    && (forall k: nat :: k != q ==> PublicationTheorems.SameRows(before, after, k))
    && (forall k: nat :: k != q ==> (k in after.retired <==> k in before.retired))
    && (forall k: nat :: k != q && k in before.retired && k in after.retired ==> after.retired[k] == before.retired[k])
  }

  /** What has been captured and read stays known. */
  predicate SameHistory(before: Sys, after: Sys) {
    after.captures == before.captures && after.retirees == before.retirees
  }

  lemma CleansNothing(db: Db, q: nat)
    ensures CleansOnly(db, db, q)
  {
  }

  lemma CleansTrans(a: Db, b: Db, c: Db, q: nat)
    requires CleansOnly(a, b, q) && CleansOnly(b, c, q)
    ensures CleansOnly(a, c, q)
  {
    forall k: nat | k != q ensures PublicationTheorems.SameRows(a, c, k) {
      assert PublicationTheorems.SameRows(a, b, k) && PublicationTheorems.SameRows(b, c, k);
    }
    hide PublicationTheorems.SameRows;
  }

  /** Rows of one table that still carry the prefix. */
  function KeyCount(db: Db, table: TableName, q: nat): nat {
    match table
    case SourceTable => |At(db.sources, q)|
    case PageTable => |At(db.pages, q)|
    case EvidenceTable => |At(db.evidence, q)|
  }

  /** At most 32 of the keys a prefix scan would find. */
  method TakeKeys<K(==)>(keys: set<K>) returns (some: set<K>)
    ensures some <= keys && |some| <= 32 && (some == {} ==> keys == {})
  {
    some := {};
    while keys - some != {} && |some| < 32
      invariant some <= keys && |some| <= 32
      invariant keys != {} && some == {} ==> keys - some != {}
      decreases keys - some
    {
      var k :| k in keys - some;
      some := some + {k};
    }
  }

  /** Whether `keys` are some rows of `table` under the prefix `q`. */
  predicate KeysIn(db: Db, table: TableName, q: nat, keys: RowKeys) {
    match table
    case SourceTable => keys.SourceKeys? && {} < keys.ids <= At(db.sources, q).Keys
    case PageTable => keys.PageKeys? && {} < keys.numbers <= At(db.pages, q).Keys
    case EvidenceTable => keys.EvidenceKeys? && {} < keys.points <= At(db.evidence, q).Keys
  }

  method FirstKeys(db: Db, table: TableName, q: nat) returns (keys: Option<RowKeys>)
    ensures keys.None? ==> Empty(db, table, q)
    ensures keys.Some? ==> KeysIn(db, table, q, keys.value)
  {
    match table {
      case SourceTable =>
        var ids := TakeKeys(At(db.sources, q).Keys);
        keys := if ids == {} then None else Some(SourceKeys(ids));
      case PageTable =>
        var numbers := TakeKeys(At(db.pages, q).Keys);
        keys := if numbers == {} then None else Some(PageKeys(numbers));
      case EvidenceTable =>
        var points := TakeKeys(At(db.evidence, q).Keys);
        keys := if points == {} then None else Some(EvidenceKeys(points));
    }
  }

  lemma DropShrinks<K, V>(m: map<K, V>, keys: set<K>)
    requires {} < keys <= m.Keys
    ensures |m - keys| < |m|
  {
    var k :| k in keys;
    assert k !in (m - keys).Keys && (m - keys).Keys <= m.Keys - {k};
    Sets.SubsetSize((m - keys).Keys, m.Keys - {k});
    assert |(m - keys).Keys| == |m - keys| && |m.Keys| == |m|;
  }

  lemma RemoveCount(db: Db, r: Retired, table: TableName, keys: RowKeys)
    requires KeysIn(db, table, r.generation.sequence, keys) && RemoveRows(db, r, keys).Ok?
    ensures KeyCount(RemoveRows(db, r, keys).value.0, table, r.generation.sequence)
            < KeyCount(db, table, r.generation.sequence)
  {
    hide Decodes;
    var q := r.generation.sequence;
    match keys {
      case SourceKeys(ids) => DropShrinks(At(db.sources, q), ids);
      case PageKeys(numbers) => DropShrinks(At(db.pages, q), numbers);
      case EvidenceKeys(points) => DropShrinks(At(db.evidence, q), points);
    }
  }

  lemma RemoveCleans(s: Sys, r: Retired, table: TableName, keys: RowKeys)
    requires KeysIn(s.db, table, r.generation.sequence, keys)
    ensures CleansOnly(s.db, s.db, r.generation.sequence)
    ensures var edit := RemoveRows(s.db, r, keys);
            edit.Ok? ==>
              && CleansOnly(s.db, edit.value.0, r.generation.sequence) && edit.value.0.retired == s.db.retired
              && KeyCount(edit.value.0, table, r.generation.sequence) < KeyCount(s.db, table, r.generation.sequence)
  {
    hide KeyCount, Decodes, KeysIn, RemoveRows;
    if RemoveRows(s.db, r, keys).Ok? {
      RemoveCount(s.db, r, table, keys);
      ClosingSteps.RemoveEffect(s, r, keys);
    }
  }

  lemma ForgetCleans(s: Sys, r: Retired)
    requires Inv(s) && RemoveRetired(s.db, r).Ok?
    ensures var db := RemoveRetired(s.db, r).value.0;
            CleansOnly(s.db, db, r.generation.sequence) && r.generation.sequence !in db.retired
            && (NoRows(s.db, r.generation.sequence) ==> NoRows(db, r.generation.sequence))
  {
    ClosingSteps.ForgetEffect(s, r);
    hide Inv, RemoveRetired;
  }

  lemma AllCleared(s: Sys, q: nat)
    requires Inv(s) && forall t: TableName :: (t, q) in s.cleared
    ensures NoRows(s.db, q)
  {
    hide CorpusInv, HeaderInv, RowsInv, FreshInv, LedgerInv, IsCurrent, IsPending;
    assert (SourceTable, q) in s.cleared && (PageTable, q) in s.cleared && (EvidenceTable, q) in s.cleared;
  }

  /** No state of a run is corrupt: its header and every row of it decode. */
  lemma ReadsBack(s: Sys)
    requires Inv(s)
    ensures Load(s.db).Ok? && (s.db.corpus.Some? ==> forall id :: id in s.db.Rows() ==> RowJoins(s.db, id))
  {
    hide RowsInv, FreshInv, LedgerInv, RetireInv, RetiredDecodes;
  }

  lemma CorpusOf(s: Sys)
    requires Inv(s)
    ensures CorpusInv(s.db)
  {
  }

  lemma HeaderOf(s: Sys)
    requires Inv(s)
    ensures HeaderInv(s.db)
  {
  }

  class ControlStore {
    var corpus: Option<Corpus>
    var state: Option<State>
    var sources: Table<Id, Entry>
    var pages: Table<nat, Page>
    var evidence: Table<PointId, Evidence>
    var retired: map<nat, Retired>

    /** Whether nothing interrupts this store: no cancellation, no deadline, no
        failure of the database, and no commit whose result is lost. */
    const calm: bool

    /** The protocol run this database is the latest state of: from `origin`
        through `history` to `sys`. */
    ghost const origin: Sys
    ghost var history: seq<Action>
    ghost var sys: Sys

    function View(): Db
      reads this
    {
      Db(corpus, state, sources, pages, evidence, retired)
    }

    ghost predicate Valid()
      reads this
    {
      && sys.db == View() && Inv(sys)
      && Init(origin) && sys == Run(origin, history)
    }

    /** A control file before its first publication. */
    constructor (corpus: Option<Corpus>, calm: bool)
      requires CorpusInv(Db(corpus, None, map[], map[], map[], map[]))
      ensures Valid() && View() == Db(corpus, None, map[], map[], map[], map[]) && this.calm == calm
    {
      this.corpus := corpus;
      this.calm := calm;
      state := None;
      sources, pages, evidence, retired := map[], map[], map[], map[];
      origin := Sys(Db(corpus, None, map[], map[], map[], map[]), {}, map[], map[], {}, {}, {});
      sys := Sys(Db(corpus, None, map[], map[], map[], map[]), {}, map[], map[], {}, {}, {});
      history := [];
      new;
      InitInv(sys);
    }

    /** Runs one write transaction whose effect on the rows is `edit`. */
    method EditDatabase<T>(edit: Edit<T>, ghost a: Action) returns (r: Result<T, Error>)
      requires Valid() && Next(sys, a).db == After(View(), edit)
      requires edit.Err? ==> Next(sys, a) == sys
      modifies this
      ensures Valid() && Transacted(calm, old(sys), sys, a, edit, r) && old(history) <= history
    {
      hide Inv, Next, Init;
      var interrupted := Interrupt();
      if interrupted.Some? { return Err(interrupted.value); }
      if edit.Err? { return Err(edit.error); }
      var db := edit.value.0;
      corpus, state, sources := db.corpus, db.state, db.sources;
      pages, evidence, retired := db.pages, db.evidence, db.retired;
      Record(a);
      var lost: bool := *;
      return if lost && !calm then Err(Database) else Ok(edit.value.1);
    }

    /** Any interruption, unless the store is calm. */
    method Interrupt() returns (failure: Option<Error>)
      ensures failure.Some? ==> !calm && Interruption(failure.value)
    {
      var early: bool, e: Error := *, *;
      return if early && !calm && Interruption(e) then Some(e) else None;
    }

    /** Notes one step of the run; the rows were already written. */
    ghost method Record(a: Action)
      requires Inv(sys) && Init(origin) && sys == Run(origin, history) && View() == Next(sys, a).db
      modifies this`sys, this`history
      ensures Valid() && sys == Next(old(sys), a) && history == old(history) + [a]
    {
      hide Inv, Next, Init;
      PublicationTheorems.NextKeeps(sys, a);
      assert (history + [a])[..|history|] == history;
      sys := Next(sys, a);
      history := history + [a];
    }

    // -------------------------------------------------- source catalogue

    method CommitSource(guard: SourceCapture, fileKey: nat, objectRef: ObjectRef) returns (r: Result<SourceRecord, Error>)
      requires Valid() && guard.WellFormed() && objectRef.length <= MAX_SOURCE_BYTES
      modifies this
      ensures Valid() && old(history) <= history
      ensures Transacted(calm, old(sys), sys, SourceCommit(guard, fileKey, objectRef),
                         Control.CommitSource(old(View()), guard, fileKey, objectRef), r)
      ensures r.Ok? ==> Catalogue.SourceWritten(old(View()), View(), guard, fileKey, objectRef, r.value)
    {
      CorpusOf(sys);
      if Control.CommitSource(View(), guard, fileKey, objectRef).Ok? {
        Catalogue.CommitSourceWrites(View(), guard, fileKey, objectRef);
      }
      hide Inv, Control.CommitSource, Catalogue.SourceWritten, CorpusInv;
      r := EditDatabase(Control.CommitSource(View(), guard, fileKey, objectRef), SourceCommit(guard, fileKey, objectRef));
    }

    method RemoveSources(expected: seq<SourceRecord>) returns (r: Result<(), Error>)
      requires Valid()
      modifies this
      ensures Valid() && old(history) <= history
      ensures Transacted(calm, old(sys), sys, SourceRemove(expected), Control.RemoveSources(old(View()), expected), r)
      ensures r.Ok? ==> Catalogue.RemovedFrom(old(View()), View(), expected)
    {
      CorpusOf(sys);
      if Control.RemoveSources(View(), expected).Ok? { Catalogue.RemovedExactly(View(), expected); }
      hide Inv, Control.RemoveSources, Catalogue.RemovedFrom, CorpusInv;
      r := EditDatabase(Control.RemoveSources(View(), expected), SourceRemove(expected));
    }

    method SelectSettings(id: Id, settings: Settings, source: SourceRecord, previous: Option<Preparation>)
      returns (r: Result<Preparation, Error>)
      requires Valid()
      modifies this
      ensures Valid() && old(history) <= history
      ensures Transacted(calm, old(sys), sys, PreparationSelect(id, settings, source, previous),
                         Control.SelectSettings(old(View()), id, settings, source, previous), r)
      ensures r.Ok? ==> Catalogue.SettingsWritten(old(View()), View(), id, settings, source, previous, r.value)
    {
      CorpusOf(sys);
      if Control.SelectSettings(View(), id, settings, source, previous).Ok? {
        Catalogue.SelectSettingsWrites(View(), id, settings, source, previous);
      }
      hide Inv, Control.SelectSettings, Catalogue.SettingsWritten, CorpusInv;
      r := EditDatabase(Control.SelectSettings(View(), id, settings, source, previous),
                        PreparationSelect(id, settings, source, previous));
    }

    method CommitOutcome(prepared: PreparationCapture, result: Outcome) returns (r: Result<Preparation, Error>)
      requires Valid()
      modifies this
      ensures Valid() && old(history) <= history
      ensures Transacted(calm, old(sys), sys, PreparationCommit(prepared, result),
                         Control.CommitOutcome(old(View()), prepared, result), r)
      ensures r.Ok? ==> Catalogue.OutcomeWritten(old(View()), View(), prepared, result, r.value)
    {
      CorpusOf(sys);
      if Control.CommitOutcome(View(), prepared, result).Ok? { Catalogue.CommitOutcomeWrites(View(), prepared, result); }
      hide Inv, Control.CommitOutcome, Catalogue.OutcomeWritten, CorpusInv;
      r := EditDatabase(Control.CommitOutcome(View(), prepared, result), PreparationCommit(prepared, result));
    }

    // ------------------------------------------------------- publication

    method StagePage(handle: Pending, page: Page) returns (r: Result<(), Error>)
      requires Valid()
      modifies this
      ensures Valid() && old(history) <= history
      ensures Transacted(calm, old(sys), sys, PutPage(handle, page), Control.StagePage(old(View()), handle, page), r)
    {
      hide Inv, StagePoints, Next;
      var edit := StageRows(handle, page);
      PutPageDb(handle, page);
      r := EditDatabase(edit, PutPage(handle, page));
    }

    lemma PutPageDb(handle: Pending, page: Page)
      requires sys.db == View()
      ensures var edit := Control.StagePage(View(), handle, page);
              Next(sys, PutPage(handle, page)).db == After(View(), edit)
              && (edit.Err? ==> Next(sys, PutPage(handle, page)) == sys)
    {
      hide Control.StagePage;
    }

    /** The body of a staging transaction: the build header and three tables,
        changed point by point and dropped as a whole on the first refusal. */
    method StageRows(handle: Pending, page: Page) returns (edit: Edit<()>)
      ensures edit == Control.StagePage(View(), handle, page)
    {
      var bytes :- EncodePage(page);
      var loaded :- LoadPending(View(), handle);
      var s, p := loaded.0, loaded.1;
      var q := p.generation.sequence;
      if p.captureComplete || p.inFlight.Some? { return Err(Stale); }
      if p.stagedBytes + bytes > MAX_STAGED_BYTES { return Err(Limit); }
      p := p.(stagedBytes := p.stagedBytes + bytes);
      var stage :- StageEach(Stage(p.generation.pointCount, At(sources, q), At(evidence, q)), q, page.points);
      var number := p.generation.pageCount;
      var count :- CheckedNext(number, Limit);
      p := p.(generation := p.generation.(pointCount := stage.pointCount, pageCount := count));
      edit := Ok((Db(corpus, Some(s.(pending := Some(p))), sources[q := stage.sources], Put(pages, q, number, page),
                     evidence[q := stage.evidence], retired), ()));
    }

    method FinishSource(handle: Pending, id: Id, units: nat) returns (r: Result<(), Error>)
      requires Valid()
      modifies this
      ensures Valid() && old(history) <= history
      ensures Transacted(calm, old(sys), sys, Finish(handle, id, units), Control.FinishSource(old(View()), handle, id, units), r)
    {
      hide Inv, Control.FinishSource;
      r := EditDatabase(Control.FinishSource(View(), handle, id, units), Finish(handle, id, units));
    }

    method CompleteCapture(handle: Pending) returns (r: Result<Pending, Error>)
      requires Valid()
      modifies this
      ensures Valid() && old(history) <= history
      ensures Transacted(calm, old(sys), sys, Seal(handle), Control.CompleteCapture(old(View()), handle), r)
    {
      hide Inv, Control.CompleteCapture;
      r := EditDatabase(Control.CompleteCapture(View(), handle), Seal(handle));
    }

    method RecordDispatch(handle: Pending, op: Operation) returns (r: Result<nat, Error>)
      requires Valid()
      modifies this
      ensures Valid() && old(history) <= history
      ensures Transacted(calm, old(sys), sys, Dispatch(handle, op), Control.RecordDispatch(old(View()), handle, op), r)
    {
      hide Inv, Control.RecordDispatch;
      r := EditDatabase(Control.RecordDispatch(View(), handle, op), Dispatch(handle, op));
    }

    /** Records the terminal result of the mutation logged as `index`. */
    method FinishDispatch(handle: Pending, op: Operation, revision: nat, applied: bool) returns (r: Result<(), Error>)
      requires Valid() && revision > 0
      requires var log := Log(sys, handle.generation.sequence);
               revision <= |log| && log[revision-1] == Ticket(op, if applied then Acked else Refused)
      modifies this
      ensures Valid() && old(history) <= history
      ensures Transacted(calm, old(sys), sys, Settle(handle, revision - 1),
                         Control.FinishDispatch(old(View()), handle, op, revision, applied), r)
    {
      hide Inv, Control.FinishDispatch;
      r := EditDatabase(Control.FinishDispatch(View(), handle, op, revision, applied), Settle(handle, revision - 1));
    }

    method AbandonBuild(handle: Pending) returns (r: Result<(), Error>)
      requires Valid()
      modifies this
      ensures Valid() && old(history) <= history
      ensures Transacted(calm, old(sys), sys, Abandon(handle), Control.AbandonBuild(old(View()), handle), r)
    {
      hide Inv, Control.AbandonBuild;
      r := EditDatabase(Control.AbandonBuild(View(), handle), Abandon(handle));
    }

    method SupersedeUnknown(handle: Pending) returns (r: Result<(), Error>)
      requires Valid()
      modifies this
      ensures Valid() && old(history) <= history
      ensures Transacted(calm, old(sys), sys, Supersede(handle), Control.SupersedeUnknown(old(View()), handle), r)
    {
      hide Inv, Control.SupersedeUnknown;
      r := EditDatabase(Control.SupersedeUnknown(View(), handle), Supersede(handle));
    }

    // ----------------------------------------------------------- reading

    /** Joins the source and preparation tables in one read transaction. */
    method CaptureCorpus() returns (r: Result<Capture, Error>)
      requires Valid()
      modifies this`sys, this`history
      ensures Valid() && old(history) <= history
      ensures r.Ok? ==> IsCapture(r.value, View()) && sys == Next(old(sys), TakeCapture(r.value)) && r.value in sys.captures
      ensures r.Err? ==> sys == old(sys)
      ensures r == Err(Unprepared) ==> exists id :: id in View().Rows() && !Prepared(View(), id)
      ensures r == Err(Limit) ==> TooMuch(View())
      ensures r != Err(Corrupt)
      ensures calm && r.Err? ==> r.error == Unprepared || r.error == Limit
    {
      hide Inv, IsCapture, Next, Init, TooMuch, RowJoins;
      ReadsBack(sys);
      var interrupted := Interrupt();
      if interrupted.Some? { return Err(interrupted.value); }
      r := ReadCorpus(View());
      if r.Ok? {
        CaptureDb(r.value);
        Record(TakeCapture(r.value));
      }
    }

    lemma CaptureDb(c: Capture)
      requires IsCapture(c, View()) && sys.db == View()
      ensures Next(sys, TakeCapture(c)).db == View() && c in Next(sys, TakeCapture(c)).captures
    {
      hide IsCapture;
    }

    // -------------------------------------------------------- reservation

    /** The body of one chunk's transaction: rows are added one by one and the
        whole chunk is dropped on the first that is already there. */
    method PersistRows(handle: Pending, chunk: seq<Captured>) returns (edit: Edit<()>)
      ensures edit == PersistInputs(View(), handle, chunk)
    {
      var loaded :- LoadPending(View(), handle);
      var q := handle.generation.sequence;
      var rows :- InsertEach(At(sources, q), chunk);
      edit := Ok((Db(corpus, Some(loaded.0), sources[q := rows], pages, evidence, retired), ()));
    }

    /** Reserves a generation, then saves the captured rows in chunks of 32. */
    method StartBuild(c: Capture) returns (r: Result<Pending, Error>)
      requires Valid() && c in sys.captures && Ascending(c.sources)
      modifies this
      ensures Valid() && old(history) <= history
      ensures r.Ok? ==> Started(View(), r.value, c) && BesidePending(old(View()), View())
      ensures calm && Startable(old(View()), c) ==> r.Ok?
    {
      hide Inv, Init, Run, Next, Control.StartBuild, PersistInputs, IsCapture, Ascending, StartedWith, ToMap,
           BesidePending, HeaderInv;
      var drawn: Id := *;
      HeaderOf(sys);
      if Startable(View(), c) { Progress.StartSucceeds(View(), c, drawn); }
      StartBeside(View(), c, drawn);
      StartDb(c, drawn);
      var started := EditDatabase(Control.StartBuild(View(), c, drawn), Start(c, drawn));
      if started.Err? { return started; }
      var p := started.value;
      assert StartedWith(View(), p, c, []) && p.generation.sequence in sys.inputs
             && sys.inputs[p.generation.sequence] == ToMap(c.sources) by {
        StartedEmpty(old(sys), c, drawn);
      }
      var i := 0;
      while i < |c.sources|
        invariant 0 <= i <= |c.sources| && Valid() && old(history) <= history
        invariant StartedWith(View(), p, c, c.sources[..i]) && BesidePending(old(View()), View())
        invariant p.generation.sequence in sys.inputs && sys.inputs[p.generation.sequence] == ToMap(c.sources)
      {
        var j := if |c.sources| - i <= 32 then |c.sources| else i + 32;
        var chunk := c.sources[i..j];
        assert c.sources[..i] + chunk == c.sources[..j];
        ChunkCaptured(c.sources, i, j);
        label before:
        PersistDb(p, chunk);
        HeaderOf(sys);
        ChunkIsNew(View(), p, c, i, j);
        PersistBeside(View(), p, chunk);
        var edit := PersistRows(p, chunk);
        var saved := EditDatabase(edit, Persist(p, chunk));
        if saved.Err? { return Err(saved.error); }
        BesideTrans(old(View()), old@before(View()), View());
        PersistedMore(old@before(sys), p, c, c.sources[..i], chunk);
        i := j;
      }
      assert c.sources[..i] == c.sources;
      return Ok(p);
    }

    lemma StartDb(c: Capture, drawn: Id)
      requires sys.db == View() && c in sys.captures
      ensures var edit := Control.StartBuild(View(), c, drawn);
              Next(sys, Start(c, drawn)).db == After(View(), edit)
              && (edit.Err? ==> Next(sys, Start(c, drawn)) == sys)
    {
      hide Control.StartBuild;
    }

    lemma PersistDb(handle: Pending, chunk: seq<Captured>)
      requires sys.db == View()
      requires var q := handle.generation.sequence;
               q in sys.inputs && forall x :: x in chunk ==> x.source.id in sys.inputs[q] && sys.inputs[q][x.source.id] == x
      ensures var edit := PersistInputs(View(), handle, chunk);
              Next(sys, Persist(handle, chunk)).db == After(View(), edit)
              && (edit.Err? ==> Next(sys, Persist(handle, chunk)) == sys)
    {
      hide PersistInputs;
    }

    // -------------------------------------------------------- publication

    /** Publishes the verified build. When the commit's own result is lost,
        the header is read back to learn what happened. */
    method CommitGeneration(handle: Pending) returns (r: Result<Generation, Error>)
      requires Valid()
      modifies this
      ensures Valid() && old(history) <= history
      ensures sys == old(sys) || sys == Next(old(sys), Commit(handle))
      ensures r.Ok? ==> r.value == handle.generation && View().Header().current == Some(handle.generation)
      ensures r.Ok? && old(View()).Header().pending.Some? ==>
                PublicationTheorems.SnapshotOf(View(), handle.generation)
      ensures calm && Control.CommitGeneration(old(View()), handle).Ok? ==> r.Ok?
    {
      hide Inv, Init, Control.CommitGeneration, Next, PublicationTheorems.SnapshotOf, Run;
      CommitDb(handle);
      var edit := Control.CommitGeneration(View(), handle);
      var committed := EditDatabase(edit, Commit(handle));
      if sys != old(sys) || committed.Ok? { CommittedIsFresh(old(sys), old(history), handle); }
      if committed != Err(Database) { return committed; }
      var interrupted := Interrupt();
      if interrupted.Some? { return Err(interrupted.value); }
      var s :- Load(View());
      assert s == View().Header();
      if s.current == Some(handle.generation) && s.pending.None? && handle.expectedRevision < U64_MAX
         && s.currentRevision == handle.expectedRevision + 1 {
        return Ok(handle.generation);
      }
      return Err(Database);
    }

    lemma CommitDb(handle: Pending)
      requires sys.db == View()
      ensures var edit := Control.CommitGeneration(View(), handle);
              Next(sys, Commit(handle)).db == After(View(), edit)
              && (edit.Err? ==> Next(sys, Commit(handle)) == sys)
    {
      hide Control.CommitGeneration;
    }

    lemma CommittedIsFresh(before: Sys, actions: seq<Action>, handle: Pending)
      requires Init(origin) && before == Run(origin, actions) && sys == Next(before, Commit(handle)) && sys.db == View()
      requires Control.CommitGeneration(before.db, handle).Ok?
      ensures PublicationTheorems.SnapshotOf(View(), handle.generation)
      ensures View().Header().current == Some(handle.generation)
      ensures Control.CommitGeneration(before.db, handle).value.1 == handle.generation
    {
      hide Init, Control.CommitGeneration, PublicationTheorems.SnapshotOf, Run;
      PublicationTheorems.CommitIsFresh(origin, actions, handle);
      ClosingSteps.CommitEffect(before, handle);
    }

    method ReadPending() returns (r: Result<Option<Pending>, Error>)
      ensures r.Ok? ==> r.value == View().Header().pending
      ensures calm && Load(View()).Ok? ==> r.Ok?
    {
      var interrupted := Interrupt();
      if interrupted.Some? { return Err(interrupted.value); }
      var s :- Load(View());
      return Ok(s.pending);
    }

    // --------------------------------------------------------- retirement

    method RetiredGenerations() returns (r: Result<set<Retired>, Error>)
      requires Valid()
      modifies this`sys, this`history
      ensures Valid() && old(history) <= history
      ensures r.Ok? ==> ReadRetirements(View()) == r && r.value <= sys.retirees && sys == Next(old(sys), ReadRetired)
      ensures r.Err? ==> sys == old(sys)
      ensures calm ==> r.Ok?
    {
      HeaderOf(sys);
      Progress.RetirementsRead(View());
      hide Inv, Init, ReadRetirements, HeaderInv;
      var interrupted := Interrupt();
      if interrupted.Some? { return Err(interrupted.value); }
      r := ReadRetirements(View());
      if r.Ok? { Record(ReadRetired); }
    }

    /** Removes the rows of a retired generation, 32 keys a transaction and
        one table after another, then its retired row. */
    method FinishRetirement(r: Retired) returns (result: Result<(), Error>)
      requires Valid() && r in sys.retirees
      requires r.unresolved.None? && r.remoteOwned ==> r.generation.sequence in sys.deleted
      modifies this
      ensures Valid() && old(history) <= history
      ensures CleansOnly(old(View()), View(), r.generation.sequence) && SameHistory(old(sys), sys)
      ensures r.unresolved.Some? ==> result == Err(Unresolved) && sys == old(sys)
      ensures result.Ok? ==> NoRows(View(), r.generation.sequence) && r.generation.sequence !in View().retired
      ensures calm && r.unresolved.None? && Progress.IsRetired(old(View()), r) ==> result.Ok?
    {
      hide Inv, Init, Run, RemoveRetired, CleansOnly, MayClean, Next, NoRows, HeaderInv;
      if r.unresolved.Some? { CleansNothing(View(), r.generation.sequence); return Err(Unresolved); }
      MayCleanNow(r);
      CleansNothing(View(), r.generation.sequence);
      label start:
      var cleared := ClearTable(r, SourceTable);
      if cleared.Err? { return cleared; }
      label one:
      cleared := ClearTable(r, PageTable);
      CleansTrans(old(View()), old@one(View()), View(), r.generation.sequence);
      if cleared.Err? { return cleared; }
      label two:
      cleared := ClearTable(r, EvidenceTable);
      CleansTrans(old(View()), old@two(View()), View(), r.generation.sequence);
      if cleared.Err? { return cleared; }
      label three:
      forall t: TableName ensures (t, r.generation.sequence) in sys.cleared {
        match t { case SourceTable => case PageTable => case EvidenceTable => }
      }
      ForgetDb(r);
      AllCleared(sys, r.generation.sequence);
      HeaderOf(sys);
      Progress.RemoveSucceeds(View(), r, SourceKeys({}));
      var edit := RemoveRetired(View(), r);
      result := EditDatabase(edit, Protocol.Forget(r));
      if edit.Ok? { ForgetCleans(old@three(sys), r); }
      CleansNothing(old@three(View()), r.generation.sequence);
      CleansTrans(old(View()), old@three(View()), View(), r.generation.sequence);
    }

    lemma MayCleanNow(r: Retired)
      requires r in sys.retirees && r.unresolved.None? && (r.remoteOwned ==> r.generation.sequence in sys.deleted)
      ensures MayClean(sys, r)
    {
    }

    lemma ForgetDb(r: Retired)
      requires sys.db == View() && MayClean(sys, r)
      requires forall t: TableName :: (t, r.generation.sequence) in sys.cleared
      ensures var edit := RemoveRetired(View(), r);
              Next(sys, Protocol.Forget(r)) == sys.(db := After(View(), edit))
              && (edit.Err? ==> Next(sys, Protocol.Forget(r)) == sys)
    {
      hide RemoveRetired, MayClean;
    }

    /** Empties one table's rows of a retired generation. */
    method ClearTable(r: Retired, table: TableName) returns (result: Result<(), Error>)
      requires Valid() && MayClean(sys, r)
      modifies this
      ensures Valid() && old(history) <= history && MayClean(sys, r)
      ensures CleansOnly(old(View()), View(), r.generation.sequence)
      ensures old(sys).cleared <= sys.cleared && SameHistory(old(sys), sys)
      ensures result.Ok? ==> (table, r.generation.sequence) in sys.cleared
      ensures retired == old(retired)
      ensures calm && Progress.IsRetired(View(), r) ==> result.Ok?
    {
      hide Inv, Init, Run, RemoveRows, CleansOnly, MayClean, Empty, Next, KeyCount, HeaderInv;
      var q := r.generation.sequence;
      CleansNothing(View(), q);
      while true
        invariant Valid() && old(history) <= history && MayClean(sys, r) && retired == old(retired)
        invariant CleansOnly(old(View()), View(), q) && sys.cleared == old(sys).cleared && SameHistory(old(sys), sys)
        decreases KeyCount(View(), table, q)
      {
        label before:
        var keys := FirstKeys(View(), table, q);
        if keys.None? {
          ObserveDb(r, table);
          Record(Observe(r, table));
          return Ok(());
        }
        RemoveDb(r, keys.value);
        HeaderOf(sys);
        Progress.RemoveSucceeds(View(), r, keys.value);
        var edit := RemoveRows(View(), r, keys.value);
        var removed := EditDatabase(edit, Remove(r, keys.value));
        RemoveCleans(old@before(sys), r, table, keys.value);
        CleansTrans(old(View()), old@before(View()), View(), q);
        if removed.Err? { return removed; }
      }
    }

    lemma ObserveDb(r: Retired, table: TableName)
      requires sys.db == View() && MayClean(sys, r) && Empty(View(), table, r.generation.sequence)
      ensures var t := Next(sys, Observe(r, table));
              t == sys.(cleared := sys.cleared + {(table, r.generation.sequence)}) && MayClean(t, r)
    {
    }

    lemma RemoveDb(r: Retired, keys: RowKeys)
      requires sys.db == View() && MayClean(sys, r)
      ensures var edit := RemoveRows(View(), r, keys);
              var t := Next(sys, Remove(r, keys));
              t == sys.(db := After(View(), edit)) && MayClean(t, r) && (edit.Err? ==> t == sys)
    {
      hide RemoveRows;
    }
  }
}
