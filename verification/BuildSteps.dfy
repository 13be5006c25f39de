/** Capturing the corpus, reserving a sequence, and every edit of the pending
    build keep the protocol invariant. */
module BuildSteps {
  import opened Wrappers
  import opened Control
  import opened Graph
  import opened Protocol
  import Sets

  // ------------------------------------------------------------ captures

  function Ids(sources: seq<Captured>): set<Id> {
    set x | x in sources :: x.source.id
  }

  lemma AscendingFront(sources: seq<Captured>)
    requires sources != [] && Ascending(sources)
    ensures var front, last := sources[..|sources|-1], sources[|sources|-1];
            && Ascending(front) && last.source.id !in Ids(front)
            && Ids(sources) == Ids(front) + {last.source.id}
  {
    var front, last := sources[..|sources|-1], sources[|sources|-1];
    assert sources == front + [last];
    forall x | x in front ensures x.source.id < last.source.id {
      var i :| 0 <= i < |front| && front[i] == x;
      assert sources[i] == x;
    }
  }

  /** A captured sequence lists each of its rows once. */
  lemma {:induction false} ToMapContent(sources: seq<Captured>)
    requires Ascending(sources)
    ensures ToMap(sources).Keys == Ids(sources)
    ensures forall x :: x in sources ==> x.source.id in ToMap(sources) && ToMap(sources)[x.source.id] == x
  {
    if sources != [] {
      var front, last := sources[..|sources|-1], sources[|sources|-1];
      AscendingFront(sources);
      ToMapContent(front);
      forall x | x in sources ensures x.source.id in ToMap(sources) && ToMap(sources)[x.source.id] == x {
        if x in front {
          assert x.source.id in Ids(front);
        }
      }
    }
  }

  lemma {:induction false} ToMapSizes(sources: seq<Captured>)
    requires Ascending(sources)
    ensures |ToMap(sources)| == |sources| && |Gaps(ToMap(sources))| == GapCount(sources)
  {
    if sources != [] {
      var front, last := sources[..|sources|-1], sources[|sources|-1];
      AscendingFront(sources);
      ToMapContent(front);
      ToMapSizes(front);
      GapsAdd(ToMap(front), last);
    }
  }

  lemma GapsAdd(content: map<Id, Captured>, last: Captured)
    requires last.source.id !in content
    ensures |content[last.source.id := last]| == |content| + 1
    ensures |Gaps(content[last.source.id := last])| == |Gaps(content)| + if last.IsGap() then 1 else 0
  {
    var id := last.source.id;
    var grown := content[id := last];
    assert grown.Keys == content.Keys + {id} && |grown| == |grown.Keys| && |content| == |content.Keys|;
    if last.IsGap() {
      assert Gaps(grown) == Gaps(content) + {id};
    } else {
      assert Gaps(grown) == Gaps(content);
    }
  }

  /** What a capture returned is the join of the two tables it read. */
  lemma CaptureIsJoin(c: Capture, db: Db)
    requires IsCapture(c, db)
    ensures ContentIs(db, ToMap(c.sources))
    ensures forall id :: id in ToMap(c.sources) ==>
              ToMap(c.sources)[id].source.id == id && ToMap(c.sources)[id].Consistent()
  {
    hide Charged, ToMap, Load, Ascending;
    ToMapContent(c.sources);
    var content := ToMap(c.sources);
    forall id | id in content
      ensures id in db.Join() && content[id] == db.Join()[id] && content[id].source.id == id && content[id].Consistent()
    {
      var x :| x in c.sources && x.source.id == id;
      assert content[x.source.id] == x;
    }
    forall id | id in db.Rows() ensures id in content {
      var i :| 0 <= i < |c.sources| && c.sources[i].source.id == id;
      assert c.sources[i] in c.sources;
    }
  }

  lemma CaptureIsFresh(s: Sys, c: Capture)
    requires CorpusInv(s.db) && IsCapture(c, s.db)
    ensures FreshCapture(s, c)
  {
    CaptureIsJoin(c, s.db);
    ToMapSizes(c.sources);
    hide Charged, GapCount, ToMap, Load, Ascending, Gaps;
    CorpusNamespace(s.db, ToMap(c.sources));
  }

  lemma CorpusNamespace(db: Db, content: map<Id, Captured>)
    requires CorpusInv(db) && content == db.Join()
    ensures forall id :: id in content ==> content[id].Reads()
    ensures forall a, b :: a in content && b in content ==> content[a].source.namespace == content[b].source.namespace
  {
  }

  lemma HistoryKeeps(s: Sys, a: Action)
    requires Inv(s) && (a.TakeCapture? || a.ReadRetired? || a.Observe?)
    ensures Inv(Next(s, a))
  {
    hide CorpusInv, HeaderInv, RowsInv, LedgerInv, FreshBuild, FreshCapture, InputsInv, IsCapture;
    var t := Next(s, a);
    assert t.db == s.db && t.inputs == s.inputs && t.ledger == s.ledger && t.deleted == s.deleted;
    assert LedgerInv(t) by { LedgerSame(s, t); }
    assert FreshInv(t) by {
      FreshSame(s, t);
      if a.TakeCapture? && IsCapture(a.capture, s.db) { CaptureIsFresh(s, a.capture); FreshCaptureSame(s, t, a.capture); }
    }
    assert RetireInv(t) by {
      if a.ReadRetired? { RetirementsRead(s); }
    }
  }

  lemma LedgerSame(s: Sys, t: Sys)
    requires LedgerInv(s) && t.db == s.db && t.ledger == s.ledger && t.deleted == s.deleted
    ensures LedgerInv(t)
  {
    hide BuildLog, RetiredLog, Settled, AckedOps, Claimed;
    assert forall q :: Log(t, q) == Log(s, q);
  }

  lemma FreshSame(s: Sys, t: Sys)
    requires FreshInv(s) && t.db == s.db && t.inputs == s.inputs
    ensures forall c :: c in s.captures ==> FreshCapture(t, c)
    ensures t.db.Header().current.Some? ==> FreshBuild(t, t.db.Header().current.value)
    ensures t.db.Header().pending.Some? ==> FreshBuild(t, t.db.Header().pending.value.generation)
  {
    hide InputsInv, ContentIs, ToMap;
    forall c | c in s.captures ensures FreshCapture(t, c) { assert FreshCapture(s, c); }
  }

  lemma FreshCaptureSame(s: Sys, t: Sys, c: Capture)
    requires FreshCapture(s, c) && t.db == s.db
    ensures FreshCapture(t, c)
  {
  }

  /** A retired row is never served or pending. */
  lemma RetirementKnown(db: Db, r: Retired)
    requires HeaderInv(db) && ReadRetirements(db).Ok? && r in ReadRetirements(db).value
    ensures var q := r.generation.sequence;
            && 0 < q <= db.Header().nextSequence && !IsCurrent(db.Header(), q) && !IsPending(db.Header(), q)
            && q in db.retired && db.retired[q] == r
  {
    hide Decodes, PendingInv;
    var q :| q in db.retired && db.retired[q] == r;
    assert RetiredDecodes(db.Header(), q, db.retired[q]);
  }

  lemma RetirementsRead(s: Sys)
    requires HeaderInv(s.db) && RetireInv(s)
    ensures RetireInv(Next(s, ReadRetired))
  {
    hide HeaderInv, ReadRetirements, Empty, IsCurrent, IsPending;
    if ReadRetirements(s.db).Ok? {
      forall r | r in ReadRetirements(s.db).value
        ensures var q := r.generation.sequence;
                && 0 < q <= s.db.Header().nextSequence && !IsCurrent(s.db.Header(), q) && !IsPending(s.db.Header(), q)
                && q in s.db.retired && s.db.retired[q] == r
      {
        RetirementKnown(s.db, r);
      }
    }
  }

  // --------------------------------------------------------- reservation

  lemma StartHeader(s: Sys, c: Capture, drawn: Id)
    requires HeaderInv(s.db) && FreshCapture(s, c) && StartBuild(s.db, c, drawn).Ok?
    ensures HeaderInv(StartBuild(s.db, c, drawn).value.0)
  {
    hide ContentIs, ToMap, GapCount, RowReads, PreparationReads;
    var before, after := s.db.Header(), StartBuild(s.db, c, drawn).value.0.Header();
    GapsBounded(ToMap(c.sources));
    assert after.current == before.current && after.nextSequence == before.nextSequence + 1;
    assert before.namespace.Some? ==> after.namespace == before.namespace;
    forall q | q in s.db.retired ensures RetiredDecodes(after, q, s.db.retired[q]) {
      assert RetiredDecodes(before, q, s.db.retired[q]);
    }
  }

  lemma GapsBounded(content: map<Id, Captured>)
    ensures |Gaps(content)| <= |content|
  {
    Sets.SubsetSize(Gaps(content), content.Keys);
  }

  lemma StartRows(s: Sys, c: Capture, drawn: Id)
    requires HeaderInv(s.db) && RowsInv(s.db) && StartBuild(s.db, c, drawn).Ok?
    ensures RowsInv(StartBuild(s.db, c, drawn).value.0)
  {
    hide Coherent, GapCount;
    var (t, p) := StartBuild(s.db, c, drawn).value;
    var q := p.generation.sequence;
    assert !Owned(s.db, q);
    assert NoRows(s.db, q);
    assert t.Header().current == s.db.Header().current;
    EmptyIsCoherent(q);
    assert CompleteIds(At(t.sources, q)) == {};
    forall k: nat | !Owned(t, k) ensures NoRows(t, k) {
      assert !Owned(s.db, k);
    }
  }

  lemma EmptyIsCoherent(q: nat)
    ensures Coherent(q, map[], map[], map[], 0, 0)
  {
  }

  lemma StartFresh(s: Sys, c: Capture, drawn: Id)
    requires HeaderInv(s.db) && RowsInv(s.db) && FreshInv(s) && c in s.captures && StartBuild(s.db, c, drawn).Ok?
    ensures FreshInv(Next(s, Start(c, drawn)))
  {
    hide InputsInv, ContentIs, ToMap, GapCount, CoherentAt, Decodes, RetiredDecodes;
    var t := Next(s, Start(c, drawn));
    var q := StartBuild(s.db, c, drawn).value.1.generation.sequence;
    assert FreshCapture(s, c);
    forall k | k in t.captures ensures FreshCapture(t, k) {
      assert FreshCapture(s, k);
      ContentSame(s.db, t.db, ToMap(k.sources));
    }
    assert InputsInv(t.db.Header().pending.value.generation, ToMap(c.sources)) by { InputsCounts(c, t.db.Header().pending.value.generation); }
    ContentSame(s.db, t.db, ToMap(c.sources));
    assert !Owned(s.db, q) by { hide NoRows; SequenceIsNew(s.db, q); }
    assert At(t.db.sources, q) == map[];
    if s.db.Header().current.Some? {
      var g := s.db.Header().current.value;
      assert FreshBuild(s, g);
      assert g.sequence != q;
      ContentSame(s.db, t.db, s.inputs[g.sequence]);
    }
  }

  lemma SequenceIsNew(db: Db, q: nat)
    requires HeaderInv(db) && q > db.Header().nextSequence
    ensures !Owned(db, q)
  {
  }

  lemma ContentSame(a: Db, b: Db, content: map<Id, Captured>)
    requires a.corpus == b.corpus
    ensures ContentIs(a, content) == ContentIs(b, content)
  {
    assert a.Join() == b.Join();
  }

  lemma InputsCounts(c: Capture, g: Generation)
    requires g.sourceCount == |c.sources| && g.gapCount == GapCount(c.sources)
    requires InputsInv(Generation(0, 0, 0, |c.sources|, GapCount(c.sources), 0, 0), ToMap(c.sources))
    ensures InputsInv(g, ToMap(c.sources))
  {
  }

  lemma StartLedger(s: Sys, c: Capture, drawn: Id)
    requires HeaderInv(s.db) && LedgerInv(s) && c in s.captures && StartBuild(s.db, c, drawn).Ok?
    ensures LedgerInv(Next(s, Start(c, drawn)))
  {
    hide RetiredLog, GapCount, ToMap, Decodes, RetiredDecodes, PendingInv, Settled, AckedOps, Claimed;
    var t := Next(s, Start(c, drawn));
    var q := StartBuild(s.db, c, drawn).value.1.generation.sequence;
    assert t.db.Header().current == s.db.Header().current && t.db.retired == s.db.retired;
    assert t.db.Header().nextSequence == q == s.db.Header().nextSequence + 1;
    assert forall k :: Log(t, k) == Log(s, k);
    assert Log(t, q) == [];
    EmptyLog();
    forall k | k != q ensures Owned(t.db, k) == Owned(s.db, k) {}
  }

  lemma EmptyLog()
    ensures Settled([]) && AckedOps([]) == Claimed(false, 0)
  {
  }

  lemma StartRetire(s: Sys, c: Capture, drawn: Id)
    requires RetireInv(s) && c in s.captures && StartBuild(s.db, c, drawn).Ok?
    ensures RetireInv(Next(s, Start(c, drawn)))
  {
    hide GapCount, ToMap, Decodes;
    var t := Next(s, Start(c, drawn));
    assert t.db.Header().current == s.db.Header().current && t.db.retired == s.db.retired;
    assert t.db.Header().pending.value.generation.sequence == s.db.Header().nextSequence + 1;
    assert t.db.sources == s.db.sources && t.db.pages == s.db.pages && t.db.evidence == s.db.evidence;
  }

  lemma StartKeeps(s: Sys, c: Capture, drawn: Id)
    requires Inv(s)
    ensures Inv(Next(s, Start(c, drawn)))
  {
    hide HeaderInv, RowsInv, FreshInv, LedgerInv, RetireInv, FreshCapture, StartBuild;
    if c in s.captures && StartBuild(s.db, c, drawn).Ok? {
      assert FreshCapture(s, c) by { CapturesFresh(s, c); }
      StartHeader(s, c, drawn);
      StartRows(s, c, drawn);
      StartFresh(s, c, drawn);
      StartLedger(s, c, drawn);
      StartRetire(s, c, drawn);
      StartCorpus(s, c, drawn);
    }
  }

  lemma CapturesFresh(s: Sys, c: Capture)
    requires FreshInv(s) && c in s.captures
    ensures FreshCapture(s, c)
  {
  }

  lemma StartCorpus(s: Sys, c: Capture, drawn: Id)
    requires CorpusInv(s.db) && StartBuild(s.db, c, drawn).Ok?
    ensures CorpusInv(StartBuild(s.db, c, drawn).value.0)
  {
    assert StartBuild(s.db, c, drawn).value.0.corpus == s.db.corpus;
  }
}
