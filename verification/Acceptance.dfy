/** What acceptance of a saved generation means for its readers, and exactly
    which sealed builds are accepted. */
module Acceptance {
  import opened Wrappers
  import opened Control
  import opened Graph
  import opened Protocol
  import opened Verify
  import PublicationTheorems
  import Sets

  lemma {:induction false} UnitsOfMember(points: seq<Point>, id: Id, u: nat) returns (i: nat)
    requires u < |UnitsOf(points, id)|
    ensures i < |points| && points[i].evidence == UnitsOf(points, id)[u] && points[i].evidence.source == id
  {
    var front := points[..|points|-1];
    if u < |UnitsOf(front, id)| {
      i := UnitsOfMember(front, id, u);
    } else {
      i := |points| - 1;
    }
  }

  predicate Positive(units: seq<Evidence>) {
    forall u :: 0 <= u < |units| ==> units[u].start < units[u].end
  }

  /** Every saved page was encodable, so every unit it holds has bytes. */
  lemma {:induction false} PagesValid(pages: map<nat, Page>, n: nat, i: nat)
    requires PagesFit(pages, n) && i < |Points(pages, n)|
    ensures ValidEvidence(Points(pages, n)[i].evidence)
  {
    assert forall k: nat :: k < n ==> k in pages && EncodePage(pages[k]).Ok?;
    PointValid(pages, n, i);
  }

  lemma {:induction false} PointValid(pages: map<nat, Page>, n: nat, i: nat)
    requires forall k: nat :: k < n ==> k in pages && EncodePage(pages[k]).Ok?
    requires i < |Points(pages, n)|
    ensures ValidEvidence(Points(pages, n)[i].evidence)
  {
    hide ValidEvidence;
    if i < |Points(pages, n - 1)| {
      PointValid(pages, n - 1, i);
    } else {
      var page := pages[n - 1];
      assert ValidEvidence(page.points[i - |Points(pages, n - 1)|].evidence);
    }
  }

  lemma UnitsPositive(pages: map<nat, Page>, n: nat, id: Id)
    requires PagesFit(pages, n)
    ensures Positive(UnitsOf(Points(pages, n), id))
  {
    forall u | 0 <= u < |UnitsOf(Points(pages, n), id)|
      ensures UnitsOf(Points(pages, n), id)[u].start < UnitsOf(Points(pages, n), id)[u].end
    {
      var i := UnitsOfMember(Points(pages, n), id, u);
      PagesValid(pages, n, i);
    }
  }

  lemma {:induction false} FindUnit(units: seq<Evidence>, b: nat) returns (u: nat)
    requires Abut(units) && Positive(units) && b < EndOf(units)
    ensures u < |units| && units[u].start <= b < units[u].end
  {
    var last := |units| - 1;
    if units[last].start <= b {
      u := last;
    } else {
      var front := units[..last];
      assert units[last].start == units[last - 1].end;
      u := FindUnit(front, b);
    }
  }

  lemma {:induction false} EarlierEndsBefore(units: seq<Evidence>, u: nat, v: nat)
    requires Abut(units) && Positive(units) && u < v < |units|
    ensures units[u].end <= units[v].start
  {
    if u + 1 < v { EarlierEndsBefore(units, u, v - 1); }
    assert units[v].start == units[v - 1].end;
  }

  /** Whether unit `u` holds byte `b`. */
  predicate Holds(units: seq<Evidence>, u: nat, b: nat) {
    u < |units| && units[u].start <= b < units[u].end
  }

  lemma CoversOnce(units: seq<Evidence>, b: nat)
    requires Abut(units) && Positive(units)
    ensures b < EndOf(units) <==> exists u: nat :: Holds(units, u, b)
    ensures forall u: nat, v: nat :: Holds(units, u, b) && Holds(units, v, b) ==> u == v
  {
    if b < EndOf(units) {
      var u := FindUnit(units, b);
      assert Holds(units, u, b);
    }
    forall u: nat | Holds(units, u, b) ensures b < EndOf(units) {
      if u < |units| - 1 { EarlierEndsBefore(units, u, |units| - 1); }
    }
    forall u: nat, v: nat | Holds(units, u, b) && Holds(units, v, b) ensures u == v {
      if u < v { EarlierEndsBefore(units, u, v); }
      if v < u { EarlierEndsBefore(units, v, u); }
    }
  }

  /** In an accepted generation every byte of every prepared source lies in
      exactly one unit, and a gap has no unit. */
  lemma AcceptedCoversOnce(g: Generation, rows: map<Id, Entry>, pages: map<nat, Page>,
                           evidence: map<PointId, Evidence>, id: Id, b: nat, units: seq<Evidence>)
    requires GraphOk(g, rows, pages, evidence) && id in rows
    requires units == UnitsOf(Points(pages, g.pageCount), id)
    ensures rows[id].captured.IsGap() ==> units == []
    ensures !rows[id].captured.IsGap() ==>
              (b < rows[id].captured.source.objectRef.length <==> exists u: nat :: Holds(units, u, b))
    ensures forall u: nat, v: nat :: Holds(units, u, b) && Holds(units, v, b) ==> u == v
  {
    UnitsPositive(pages, g.pageCount, id);
    assert UnitsTile(rows[id], units) && RowOk(id, rows[id]);
    hide GraphOk, UnitsOf, Points, Positive;
    CoversOnce(units, b);
  }

  /** In an accepted generation only an empty source can name an artifact
      above the ceiling: any other has a unit, whose evidence names it. */
  lemma AcceptedArtifact(g: Generation, rows: map<Id, Entry>, pages: map<nat, Page>,
                         evidence: map<PointId, Evidence>, id: Id)
    requires GraphOk(g, rows, pages, evidence) && id in rows && rows[id].captured.source.objectRef.length > 0
    ensures var outcome := rows[id].captured.preparation.outcome;
            outcome.Some? && outcome.value.result.Ready? ==> outcome.value.result.artifact.length <= MAX_PREPARED_BYTES
  {
    var points := Points(pages, g.pageCount);
    assert RowOk(id, rows[id]) && UnitsTile(rows[id], UnitsOf(points, id));
    if !rows[id].captured.IsGap() {
      var i := UnitsOfMember(points, id, 0);
      PagesValid(pages, g.pageCount, i);
      assert Binds(rows[id], points[i].evidence);
    }
  }

  /** The point ids of an accepted generation are its sequence paired with
      0, 1, 2, ... in page order, and the evidence table holds only those. */
  lemma AcceptedIds(g: Generation, rows: map<Id, Entry>, pages: map<nat, Page>,
                    evidence: map<PointId, Evidence>)
    requires GraphOk(g, rows, pages, evidence)
    ensures var points := Points(pages, g.pageCount);
            && |points| == g.pointCount
            && (forall i :: 0 <= i < g.pointCount ==> points[i].id == PointId(g.sequence, i))
            && evidence.Keys == Ids(g.sequence, g.pointCount)
            && (forall i :: 0 <= i < g.pointCount ==> evidence[PointId(g.sequence, i)] == points[i].evidence)
  {
    hide Points, InventoryOk, PagesFit, Bound, UnitsTile, UnitsOf;
    var points := Points(pages, g.pageCount);
    forall i | 0 <= i < g.pointCount
      ensures PointId(g.sequence, i) in evidence && evidence[PointId(g.sequence, i)] == points[i].evidence
    {
      assert points[i].id in evidence;
    }
  }

  // ------------------------------------------------------- sealed builds

  /** The staged units of every prepared source tile its bytes. */
  predicate Tiled(rows: map<Id, Entry>, points: seq<Point>) {
    forall id :: id in rows && !rows[id].captured.IsGap() ==>
      Abut(UnitsOf(points, id)) && EndOf(UnitsOf(points, id)) == rows[id].captured.source.objectRef.length
  }

  lemma GapHasNoUnits(rows: map<Id, Entry>, points: seq<Point>, id: Id)
    requires Bound(rows, points) && id in rows && rows[id].captured.IsGap()
    ensures UnitsOf(points, id) == []
  {
    if UnitsOf(points, id) != [] {
      var i := UnitsOfMember(points, id, 0);
    }
  }

  lemma StagedAtMostTotal(rows: map<Id, Entry>, id: Id)
    requires id in rows
    ensures rows[id].stagedUnits <= UnitTotal(rows)
  {
    UnitTotalRemove(rows, id);
  }

  lemma RowAccepted(id: Id, entry: Entry, units: seq<Evidence>)
    requires entry.captured.source.id == id && entry.captured.Consistent() && entry.captured.Reads() && entry.complete
    requires entry.stagedUnits == |units| <= MAX_POINTS && Positive(units)
    requires if entry.captured.IsGap() then units == []
             else EndOf(units) == entry.captured.source.objectRef.length
    ensures RowOk(id, entry)
  {
  }

  /** What a sealed build's rows are known to satisfy. */
  ghost predicate SealedBuild(s: Sys, g: Generation) {
    && CoherentAt(s.db, g) && Sealed(s.db, g) && FreshBuild(s, g)
    && g.sourceCount <= MAX_SOURCES && g.pointCount <= MAX_POINTS
    && StagedBytes(g.pageCount, g.pointCount) <= MAX_STAGED_BYTES
  }

  /** The saved inventory is the captured one, every source complete. */
  predicate InputsCounted(g: Generation, rows: map<Id, Entry>) {
    && |rows| == g.sourceCount && |GapIds(rows)| == g.gapCount
    && (forall id :: id in rows ==>
          && rows[id].complete && rows[id].captured.Consistent() && rows[id].captured.Reads()
          && rows[id].captured.source.id == id)
    && (forall a, b :: a in rows && b in rows ==>
          rows[a].captured.source.namespace == rows[b].captured.source.namespace)
  }

  lemma SealedInputs(s: Sys, g: Generation)
    requires SealedBuild(s, g)
    ensures InputsCounted(g, At(s.db.sources, g.sequence))
  {
    hide CoherentAt, StagedBytes;
    var rows, content := At(s.db.sources, g.sequence), s.inputs[g.sequence];
    Sets.SubsetSize(rows.Keys, content.Keys);
    assert |rows| == |rows.Keys| && |content| == |content.Keys|;
    assert GapIds(rows) == Gaps(content);
    forall id | id in rows ensures rows[id].complete {
      assert id in CompleteIds(rows);
    }
  }

  /** Each source's staged units, as coherence counts and binds them. */
  predicate UnitsStaged(rows: map<Id, Entry>, points: seq<Point>) {
    forall id :: id in rows ==>
      var units := UnitsOf(points, id);
      && Positive(units) && Numbered(units) && rows[id].stagedUnits == |units| <= MAX_POINTS
      && (rows[id].captured.IsGap() ==> units == [])
  }

  lemma CoherentUnits(q: nat, rows: map<Id, Entry>, pages: map<nat, Page>, evidence: map<PointId, Evidence>,
                      pointCount: nat, pageCount: nat)
    requires Coherent(q, rows, pages, evidence, pointCount, pageCount) && pointCount <= MAX_POINTS
    ensures UnitsStaged(rows, Points(pages, pageCount))
  {
    hide Points, UnitsOf, UnitTotal, EvidenceMatches, Numbered;
    var points := Points(pages, pageCount);
    forall id | id in rows
      ensures Positive(UnitsOf(points, id)) && rows[id].stagedUnits <= MAX_POINTS
      ensures rows[id].captured.IsGap() ==> UnitsOf(points, id) == []
    {
      UnitsPositive(pages, pageCount, id);
      StagedAtMostTotal(rows, id);
      if rows[id].captured.IsGap() { GapHasNoUnits(rows, points, id); }
    }
  }

  lemma RowsAccepted(g: Generation, rows: map<Id, Entry>, points: seq<Point>)
    requires InputsCounted(g, rows) && UnitsStaged(rows, points)
    ensures Tiled(rows, points) <==>
              forall id :: id in rows ==> RowOk(id, rows[id]) && UnitsTile(rows[id], UnitsOf(points, id))
  {
    hide UnitsOf, Abut, EndOf, Numbered, Positive, GapIds;
    if Tiled(rows, points) {
      forall id | id in rows ensures RowOk(id, rows[id]) && UnitsTile(rows[id], UnitsOf(points, id)) {
        RowAccepted(id, rows[id], UnitsOf(points, id));
        NoUnitsTile(rows[id], UnitsOf(points, id));
      }
    }
    assert (forall id :: id in rows ==> UnitsTile(rows[id], UnitsOf(points, id))) ==> Tiled(rows, points);
  }

  lemma SealedAccepted(s: Sys, g: Generation)
    requires SealedBuild(s, g)
    ensures var rows, pages := At(s.db.sources, g.sequence), At(s.db.pages, g.sequence);
            GraphOk(g, rows, pages, At(s.db.evidence, g.sequence))
            <==> Tiled(rows, Points(pages, g.pageCount))
  {
    var rows, pages := At(s.db.sources, g.sequence), At(s.db.pages, g.sequence);
    SealedInputs(s, g);
    assert Coherent(g.sequence, rows, pages, At(s.db.evidence, g.sequence), g.pointCount, g.pageCount);
    CoherentUnits(g.sequence, rows, pages, At(s.db.evidence, g.sequence), g.pointCount, g.pageCount);
    RowsAccepted(g, rows, Points(pages, g.pageCount));
    hide Points, UnitsOf, UnitTotal, GapIds, StagedBytes, EvidenceMatches, At, Tiled, UnitsStaged, Counted,
         PagesFit, Bound, RowOk, UnitsTile, Sealed, FreshBuild;
  }

  lemma NoUnitsTile(entry: Entry, units: seq<Evidence>)
    requires entry.stagedUnits == |units| && Numbered(units)
    requires if entry.captured.IsGap() then units == []
             else Abut(units) && EndOf(units) == entry.captured.source.objectRef.length
    ensures UnitsTile(entry, units)
  {
  }

  /** In every reachable state, the exhaustive check accepts a sealed build
      exactly when each prepared source's staged units tile its bytes: no
      count, key, binding or evidence row can be what it rejects. */
  lemma SealedBuildAccepted(s0: Sys, actions: seq<Action>)
    requires Init(s0)
    requires var h := Run(s0, actions).db.Header(); h.pending.Some? && h.pending.value.captureComplete
    ensures var db := Run(s0, actions).db;
            var g := db.Header().pending.value.generation;
            var pages := At(db.pages, g.sequence);
            GraphOk(g, At(db.sources, g.sequence), pages, At(db.evidence, g.sequence))
            <==> Tiled(At(db.sources, g.sequence), Points(pages, g.pageCount))
  {
    PublicationTheorems.Reachable(s0, actions);
    hide Run, Inv, GraphOk, Tiled, Points;
    PendingAccepted(Run(s0, actions));
  }

  lemma PendingAccepted(s: Sys)
    requires Inv(s) && s.db.Header().pending.Some? && s.db.Header().pending.value.captureComplete
    ensures var g := s.db.Header().pending.value.generation;
            var pages := At(s.db.pages, g.sequence);
            GraphOk(g, At(s.db.sources, g.sequence), pages, At(s.db.evidence, g.sequence))
            <==> Tiled(At(s.db.sources, g.sequence), Points(pages, g.pageCount))
  {
    assert SealedBuild(s, s.db.Header().pending.value.generation) by {
      hide CorpusInv, LedgerInv, RetireInv, OwnershipInv, CoherentAt, Sealed, FreshBuild, RetiredDecodes;
    }
    SealedAccepted(s, s.db.Header().pending.value.generation);
  }

  /** A sealed generation accepted once is accepted for as long as it is
      uploaded or served, whatever else runs meanwhile. */
  lemma StaysAccepted(s: Sys, actions: seq<Action>, g: Generation)
    requires Inv(s) && PublicationTheorems.SealedAs(s, g)
    requires GraphOk(g, At(s.db.sources, g.sequence), At(s.db.pages, g.sequence), At(s.db.evidence, g.sequence))
    requires var h := Run(s, actions).db.Header(); IsCurrent(h, g.sequence) || IsPending(h, g.sequence)
    ensures var t := Run(s, actions).db;
            GraphOk(g, At(t.sources, g.sequence), At(t.pages, g.sequence), At(t.evidence, g.sequence))
  {
    hide Inv, Run, GraphOk, At;
    PublicationTheorems.SealedRowsFrozen(s, actions, g);
  }
}
