/** The source inventory of the published generation, and exact search over
    it. */
module Published {
  import opened Wrappers
  import opened Control
  import opened Graph
  import opened Protocol
  import opened Verify
  import opened Store
  import Acceptance
  import Decoded
  import Exact
  import Publish
  import PublicationTheorems
  import Text

  /** The captured sources of the saved rows, once each in key order. */
  predicate IsInventory(rows: map<Id, Entry>, cs: seq<Captured>) {
    Lists(rows, cs, rows.Keys)
  }

  /** The captured sources of some of the rows, once each in key order. */
  predicate Lists(rows: map<Id, Entry>, cs: seq<Captured>, ids: set<Id>) {
    && Ascending(cs)
    && (forall c :: c in cs ==> c.source.id in ids && c.source.id in rows && rows[c.source.id].captured == c)
    && Covers(cs, ids)
  }

  lemma AscendingMore(cs: seq<Captured>, c: Captured)
    requires Ascending(cs) && Below(cs, c.source.id)
    ensures Ascending(cs + [c])
  {
    assert forall i :: 0 <= i < |cs| ==> cs[i] in cs;
  }

  /** Every listed source comes before `id`. */
  predicate Below(cs: seq<Captured>, id: Id) {
    forall c :: c in cs ==> c.source.id < id
  }

  /** Every one of `ids` is listed. */
  predicate Covers(cs: seq<Captured>, ids: set<Id>) {
    forall id :: id in ids ==> exists i :: 0 <= i < |cs| && cs[i].source.id == id
  }

  lemma CoversMore(cs: seq<Captured>, ids: set<Id>, c: Captured)
    requires Covers(cs, ids)
    ensures Covers(cs + [c], ids + {c.source.id})
  {
    var more := cs + [c];
    assert more[|cs|] == c;
    forall id | id in ids + {c.source.id} ensures exists i :: 0 <= i < |more| && more[i].source.id == id {
      if id in ids {
        var i :| 0 <= i < |cs| && cs[i].source.id == id;
        assert more[i] == cs[i];
      }
    }
  }

  lemma ListsMore(rows: map<Id, Entry>, cs: seq<Captured>, ids: set<Id>, id: Id)
    requires Lists(rows, cs, ids) && id in rows && rows[id].captured.source.id == id && Below(cs, id)
    ensures Lists(rows, cs + [rows[id].captured], ids + {id})
  {
    AscendingMore(cs, rows[id].captured);
    CoversMore(cs, ids, rows[id].captured);
    hide Ascending, Covers, Below;
  }

  /** An ascending list of rows is no longer than the table. */
  lemma {:induction false} ListSize(rows: map<Id, Entry>, cs: seq<Captured>)
    requires Ascending(cs) && forall c :: c in cs ==> c.source.id in rows
    ensures |cs| <= |rows|
    decreases |cs|
  {
    if cs != [] {
      var front, last := cs[..|cs|-1], cs[|cs|-1];
      assert last in cs && forall c :: c in front ==> c in cs && c.source.id < last.source.id;
      ListSize(rows - {last.source.id}, front);
      assert |rows - {last.source.id}| == |rows| - 1 by { Dropped(rows, last.source.id); }
    }
  }

  lemma Dropped(rows: map<Id, Entry>, id: Id)
    requires id in rows
    ensures |rows - {id}| == |rows| - 1
  {
    assert (rows - {id}).Keys == rows.Keys - {id};
  }

  /** What the exhaustive check says of the saved rows is what a search needs
      of its inventory. */
  lemma SoundInventory(g: Generation, rows: map<Id, Entry>, cs: seq<Captured>)
    requires InventoryOk(g, rows) && IsInventory(rows, cs)
    ensures Exact.Inventory(cs)
  {
    hide UnitTotal, GapIds;
    ListSize(rows, cs);
    forall i | 0 <= i < |cs| ensures Exact.Readable(cs[i]) {
      assert cs[i] in cs && RowOk(cs[i].source.id, rows[cs[i].source.id]);
    }
    forall i, j | 0 <= i < j < |cs|
      ensures cs[i].source.namespace == cs[j].source.namespace && cs[i].source.id < cs[j].source.id
    {
      assert cs[i] in cs && cs[j] in cs;
    }
  }

  /** The inventory of an accepted generation is one exact search accepts, and
      only its empty sources can name an artifact above the ceiling. */
  lemma AcceptedInventory(g: Generation, rows: map<Id, Entry>, pages: map<nat, Page>, evidence: map<PointId, Evidence>,
                          cs: seq<Captured>)
    requires GraphOk(g, rows, pages, evidence) && IsInventory(rows, cs)
    ensures Exact.Inventory(cs)
    ensures forall c :: c in cs && Decoded.NamesLong(c) ==> c.source.objectRef.length == 0
  {
    SoundInventory(g, rows, cs);
    hide Exact.Inventory;
    forall c | c in cs && Decoded.NamesLong(c) ensures c.source.objectRef.length == 0 {
      if c.source.objectRef.length > 0 {
        Acceptance.AcceptedArtifact(g, rows, pages, evidence, c.source.id);
      }
    }
  }

  lemma RowNamed(id: Id, entry: Entry)
    requires RowOk(id, entry)
    ensures entry.captured.source.id == id
  {
  }

  /** The rows before `todo` in key order have been listed. */
  ghost predicate ListedSoFar(rows: map<Id, Entry>, cs: seq<Captured>, todo: set<Id>) {
    && todo <= rows.Keys && |cs| + |todo| == |rows|
    && Lists(rows, cs, rows.Keys - todo)
    && forall id :: id in todo ==> Below(cs, id)
  }

  lemma BelowMore(cs: seq<Captured>, c: Captured, id: Id)
    requires Below(cs, id) && c.source.id < id
    ensures Below(cs + [c], id)
  {
  }

  lemma OneTaken(keys: set<Id>, todo: set<Id>, id: Id)
    requires todo <= keys && id in todo
    ensures keys - todo + {id} == keys - (todo - {id})
    ensures |todo - {id}| == |todo| - 1 && todo - {id} <= keys
  {
  }

  lemma BelowAll(cs: seq<Captured>, c: Captured, todo: set<Id>)
    requires forall j :: j in todo ==> Below(cs, j)
    requires c.source.id in todo && (forall j :: j in todo ==> c.source.id <= j)
    ensures forall j :: j in todo - {c.source.id} ==> Below(cs + [c], j)
  {
    hide Below;
    forall j | j in todo - {c.source.id} ensures Below(cs + [c], j) { BelowMore(cs, c, j); }
  }

  lemma ListedMore(rows: map<Id, Entry>, cs: seq<Captured>, todo: set<Id>, id: Id)
    requires ListedSoFar(rows, cs, todo) && id in todo && (forall j :: j in todo ==> id <= j)
    requires RowOk(id, rows[id])
    ensures ListedSoFar(rows, cs + [rows[id].captured], todo - {id})
  {
    var c := rows[id].captured;
    RowNamed(id, rows[id]);
    hide RowOk, Lists, Below;
    OneTaken(rows.Keys, todo, id);
    BelowAll(cs, c, todo);
    ListsMore(rows, cs, rows.Keys - todo, id);
  }

  lemma ListedNothing(rows: map<Id, Entry>)
    ensures ListedSoFar(rows, [], rows.Keys)
  {
  }

  lemma ListedAll(rows: map<Id, Entry>, cs: seq<Captured>)
    requires ListedSoFar(rows, cs, {})
    ensures IsInventory(rows, cs) && |cs| == |rows|
  {
    assert rows.Keys - {} == rows.Keys;
  }

  lemma ListedCount(rows: map<Id, Entry>, cs: seq<Captured>, todo: set<Id>)
    requires ListedSoFar(rows, cs, todo)
    ensures |cs| + |todo| == |rows| && todo <= rows.Keys
  {
  }

  /** Reads the complete source inventory of a generation in key order: it
      succeeds exactly when the rows and the generation's counts agree. */
  method SourceInventory(g: Generation, rows: map<Id, Entry>) returns (r: Result<seq<Captured>, Error>)
    ensures r.Ok? <==> InventoryOk(g, rows)
    ensures r.Ok? ==> IsInventory(rows, r.value)
    ensures r.Err? ==> r.error == Corrupt
  {
    hide RowsRead, RowOk, GapIds, UnitTotal, InventoryOk, ListedSoFar, Lists;
    if InventoryOk(g, rows) { InventoryCounts(g, rows); }
    if g.sourceCount > MAX_SOURCES { return Err(Corrupt); }
    var cs: seq<Captured>, gaps: nat, units: nat := [], 0, 0;
    var namespace: Option<Id> := None;
    var todo := rows.Keys;
    NothingRead(rows);
    ListedNothing(rows);
    while todo != {}
      invariant todo <= rows.Keys && RowsRead(rows, todo, namespace)
      invariant gaps == |GapIds(rows - todo)| && units == UnitTotal(rows - todo) <= MAX_POINTS
      invariant ListedSoFar(rows, cs, todo) && |cs| <= g.sourceCount
      decreases |todo|
    {
      ListedCount(rows, cs, todo);
      var id := FirstKey(todo);
      var entry := rows[id];
      UnitTotalGrow(rows, todo, id);
      GapIdsGrow(rows, todo, id);
      if InventoryOk(g, rows) { RowRejected(g, rows, todo, namespace, id); }
      if |cs| >= g.sourceCount { return Err(Corrupt); }
      if !RowOk(id, entry) || (namespace.Some? && namespace.value != entry.captured.source.namespace) {
        return Err(Corrupt);
      }
      if units + entry.stagedUnits > MAX_POINTS { return Err(Corrupt); }
      RowRead(rows, todo, namespace, id);
      ListedMore(rows, cs, todo, id);
      namespace := Some(entry.captured.source.namespace);
      gaps := gaps + if entry.captured.IsGap() then 1 else 0;
      units := units + entry.stagedUnits;
      cs := cs + [entry.captured];
      todo := todo - {id};
    }
    assert rows - todo == rows;
    ListedAll(rows, cs);
    if |cs| != g.sourceCount || gaps != g.gapCount || units != g.pointCount { return Err(Corrupt); }
    AllRead(g, rows, namespace);
    return Ok(cs);
  }

  lemma AcceptedRows(db: Db, g: Generation)
    requires Publish.Accepted(db, g)
    ensures InventoryOk(g, At(db.sources, g.sequence))
  {
  }

  lemma HeaderLoads(s: Sys)
    requires Inv(s)
    ensures Load(s.db) == Ok(s.db.Header())
  {
    hide RowsInv, FreshInv, LedgerInv, RetireInv;
  }

  lemma CurrentNumbered(s: Sys, g: Generation)
    requires Inv(s) && s.db.Header().current == Some(g)
    ensures g.sequence != 0
  {
    hide RowsInv, FreshInv, LedgerInv, RetireInv;
  }

  /** Opens the published generation and searches it: a result accounts for
      exactly the sources selected from the generation publication serves. */
  method Search(store: ControlStore, kind: Exact.Kind, request: Exact.Request, o: Decoded.Objects)
    returns (r: Result<Exact.ExactResult, Exact.ExactError>, g: Option<Generation>, cs: seq<Captured>)
    requires store.Valid() && Exact.Verified(o.read) && (kind.DecodedKind? ==> Text.Valid(request.literal))
    ensures g.Some? ==>
              && store.View().Header().current == g && Publish.Accepted(store.View(), g.value)
              && IsInventory(At(store.View().sources, g.value.sequence), cs) && Exact.Inventory(cs)
    ensures g.Some? <==> (store.View().Header().current.Some?
                          && Publish.Accepted(store.View(), store.View().Header().current.value))
    ensures r.Ok? ==> g.Some?
    ensures var selected := Exact.Selection(cs, request.ids);
            var xs := if kind.RawKind? then Exact.RawReadings(selected, o.read) else Decoded.TextReadings(selected, o);
            && (r.Ok? ==> Exact.Accounts(r.value, g.value.sequence, xs, request.literal, request.limit)
                          && Exact.ValidatesRequest(r.value, kind, request))
            && (g.Some? && r == Err(Exact.InvalidResult) ==> Exact.Refused(xs, request.literal, request.limit))
  {
    hide Inv, Init, Run, GraphOk, Exact.Inventory, Exact.Verified, IsInventory, Exact.Pinned, Exact.Refused,
         Exact.Accounts, Exact.ValidatesRequest, Exact.Published, Exact.Selection, Exact.RawReadings,
         Decoded.TextReadings, Exact.RawContent, Decoded.TextContent;
    cs := [];
    assert Load(store.View()) == Ok(store.View().Header()) by { HeaderLoads(store.sys); }
    var opening := Publish.OpenPublished(store);
    if opening.Err? { return Err(Exact.ReadFailed), None, cs; }
    var generation := opening.value;
    CurrentNumbered(store.sys, generation);
    AcceptedRows(store.View(), generation);
    var listed := SourceInventory(generation, At(store.sources, generation.sequence));
    if listed.Err? { return Err(Exact.ReadFailed), None, cs; }
    cs := listed.value;
    SoundInventory(generation, At(store.sources, generation.sequence), cs);
    g := Some(generation);
    if kind.RawKind? {
      r := Exact.Execute(generation.sequence, cs, request, o.read);
    } else {
      r := Decoded.Execute(generation.sequence, cs, request, o);
    }
  }
}
