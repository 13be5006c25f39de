/** Backend answers, the three ways a build leaves the pending slot, and
    cleanup keep the protocol invariant. */
module ClosingSteps {
  import opened Wrappers
  import opened Control
  import opened Graph
  import opened Protocol
  import BuildSteps
  import Sets
  import PendingSteps

  // ------------------------------------------------------------- backend

  predicate Answered(log: seq<Ticket>, index: nat, verdict: Verdict, after: seq<Ticket>) {
    && index < |log| && log[index].verdict == Unknown
    && after == log[index := log[index].(verdict := verdict)]
  }

  /** Only the in-flight mutation can still be answered, so an answer never
      changes what a header has accounted for. */
  lemma AnswerBuildLog(p: Pending, log: seq<Ticket>, index: nat, verdict: Verdict, after: seq<Ticket>)
    requires BuildLog(p, log) && Answered(log, index, verdict, after)
    ensures BuildLog(p, after) && p.inFlight.Some? && index == |log| - 1
  {
    assert forall k :: 0 <= k < |log| - 1 ==> log[..|log|-1][k] == log[k];
    assert after[..|after|-1] == log[..|log|-1];
  }

  lemma ClaimedCreates(created: bool, uploaded: nat)
    ensures Create in Claimed(created, uploaded) <==> created
  {
  }

  lemma AnswerKeeps(s: Sys, q: nat, index: nat, verdict: Verdict)
    requires Inv(s)
    ensures Inv(Next(s, Answer(q, index, verdict)))
  {
    hide CorpusInv, HeaderInv, RowsInv, RetireInv, FreshCapture, FreshBuild;
    var t := Next(s, Answer(q, index, verdict));
    if t != s {
      assert LedgerInv(t) by { AnswerLedger(s, q, index, verdict); }
      hide LedgerInv;
      BuildSteps.FreshSame(s, t);
      assert RetireInv(t) by { RetireSame(s, t); }
    }
  }

  lemma RetireSame(s: Sys, t: Sys)
    requires RetireInv(s) && t.db == s.db && t.retirees == s.retirees && t.cleared == s.cleared
    ensures RetireInv(t)
  {
  }

  lemma AnswerLedger(s: Sys, q: nat, index: nat, verdict: Verdict)
    requires HeaderInv(s.db) && LedgerInv(s) && Next(s, Answer(q, index, verdict)) != s
    ensures LedgerInv(Next(s, Answer(q, index, verdict)))
  {
    var t := Next(s, Answer(q, index, verdict));
    hide Decodes, RetiredDecodes, PendingInv, Settled, AckedOps, Claimed, BuildLog;
    assert Answered(Log(s, q), index, verdict, Log(t, q));
    NotSettled(Log(s, q), index);
    forall k: nat | k != q ensures Log(t, k) == Log(s, k) {}
    assert t.ledger.Keys == s.ledger.Keys && t.db == s.db && t.deleted == s.deleted;
    hide Next;
    AnswerLogs(s, t, q, index, verdict);
  }

  lemma AnswerLogs(s: Sys, t: Sys, q: nat, index: nat, verdict: Verdict)
    requires HeaderInv(s.db) && LedgerInv(s) && Answered(Log(s, q), index, verdict, Log(t, q)) && !Settled(Log(s, q))
    requires forall k: nat :: k != q ==> Log(t, k) == Log(s, k)
    requires t.ledger.Keys == s.ledger.Keys && t.db == s.db && t.deleted == s.deleted
    ensures LedgerInv(t)
  {
    hide HeaderInv, Settled, AckedOps, Claimed, BuildLog, Answered;
    var log, after := Log(s, q), Log(t, q);
    if IsPending(s.db.Header(), q) {
      AnswerBuildLog(s.db.Header().pending.value, log, index, verdict, after);
    }
    if q in s.db.retired {
      assert RetiredLog(s.db.retired[q], log);
      AnswerBuildLog(s.db.retired[q].unresolved.value, log, index, verdict, after);
    }
    assert LogsInv(t);
    if !Owned(s.db, q) { UnownedSettled(s, q); }
  }

  lemma NotSettled(log: seq<Ticket>, index: nat)
    requires index < |log| && log[index].verdict == Unknown
    ensures !Settled(log)
  {
  }

  /** A sequence nobody owns any more has no outstanding mutation. */
  lemma UnownedSettled(s: Sys, q: nat)
    requires LedgerInv(s) && !Owned(s.db, q)
    ensures Settled(Log(s, q))
  {
  }

  // ------------------------------------------- leaving the pending slot

  /** `t` has no pending build; its old one is current, or retired as `r`. */
  predicate Closes(s: Sys, t: Sys, p: Pending) {
    var h := s.db.Header();
    && h.pending == Some(p)
    && t.db.corpus == s.db.corpus && t.db.sources == s.db.sources && t.db.pages == s.db.pages
    && t.db.evidence == s.db.evidence
    && t.db.Header().pending.None? && t.db.state.Some?
    && t.db.Header().namespace == h.namespace && t.db.Header().nextSequence == h.nextSequence
    && t == s.(db := t.db)
  }

  /** The pending build becomes a retired row and nothing else changes. */
  predicate Retires(s: Sys, t: Sys, p: Pending, r: Retired) {
    && Closes(s, t, p)
    && t.db.Header().current == s.db.Header().current
    && t.db.Header().currentRevision == s.db.Header().currentRevision
    && r.generation == p.generation
    && t.db.retired == s.db.retired[p.generation.sequence := r]
  }

  lemma RetiresHeader(s: Sys, t: Sys, p: Pending, r: Retired)
    requires HeaderInv(s.db) && Retires(s, t, p, r)
    requires RetiredDecodes(t.db.Header(), p.generation.sequence, r)
    ensures HeaderInv(t.db)
  {
    hide UnknownEffect;
    var q := p.generation.sequence;
    PendingSteps.PendingNotRetired(s.db, q);
    assert t.db.retired.Keys == s.db.retired.Keys + {q};
    assert |t.db.retired| == |t.db.retired.Keys| == |s.db.retired.Keys| + 1;
    forall k | k in t.db.retired ensures RetiredDecodes(t.db.Header(), k, t.db.retired[k]) {
      if k != q { assert RetiredDecodes(s.db.Header(), k, s.db.retired[k]); }
    }
  }

  lemma RetiresOwned(s: Sys, t: Sys, p: Pending, r: Retired)
    requires Retires(s, t, p, r)
    ensures forall k :: Owned(t.db, k) <==> Owned(s.db, k)
  {
  }

  lemma RetiresRows(s: Sys, t: Sys, p: Pending, r: Retired)
    requires RowsInv(s.db) && Retires(s, t, p, r)
    ensures RowsInv(t.db)
  {
    hide Coherent;
    RetiresOwned(s, t, p, r);
    forall k: nat | !Owned(t.db, k) ensures NoRows(t.db, k) { assert !Owned(s.db, k); }
  }

  lemma ClosesFresh(s: Sys, t: Sys, p: Pending)
    requires FreshInv(s) && Closes(s, t, p)
    requires t.db.Header().current == s.db.Header().current || t.db.Header().current == Some(p.generation)
    ensures FreshInv(t)
  {
    hide InputsInv, ToMap, ContentIs;
    forall content ensures ContentIs(t.db, content) == ContentIs(s.db, content) {
      BuildSteps.ContentSame(s.db, t.db, content);
    }
    forall c | c in t.captures ensures FreshCapture(t, c) { assert FreshCapture(s, c); }
    assert FreshBuild(s, p.generation);
  }

  lemma RetiresLedger(s: Sys, t: Sys, p: Pending, r: Retired)
    requires LedgerInv(s) && HeaderInv(s.db) && Retires(s, t, p, r)
    requires RetiredLog(r, Log(s, p.generation.sequence))
    ensures LedgerInv(t)
  {
    hide RetiredLog, BuildLog, Settled, AckedOps, Claimed, Decodes, RetiredDecodes, PendingInv;
    RetiresOwned(s, t, p, r);
    assert forall k :: Log(t, k) == Log(s, k);
  }

  lemma ClosesRetire(s: Sys, t: Sys, p: Pending)
    requires HeaderInv(s.db) && RetireInv(s) && Closes(s, t, p)
    requires forall k :: k in s.db.retired ==> k in t.db.retired && t.db.retired[k] == s.db.retired[k]
    requires forall k :: k in t.db.retired && k !in s.db.retired ==> IsPending(s.db.Header(), k) || IsCurrent(s.db.Header(), k)
    requires t.db.Header().current == s.db.Header().current || t.db.Header().current == Some(p.generation)
    ensures RetireInv(t)
  {
    hide Decodes, RetiredDecodes, PendingInv;
  }

  /** What closing a build keeps whatever becomes of its row. */
  lemma RetiresFacts(s: Sys, t: Sys, p: Pending, r: Retired)
    requires Inv(s) && Retires(s, t, p, r)
    ensures CorpusInv(t.db) && FreshInv(t) && RetireInv(t)
  {
    hide RetiredDecodes, RetiredLog, RowsInv, LedgerInv;
    assert CorpusInv(t.db) by { PendingSteps.SameCorpus(s.db, t.db); }
    hide CorpusInv;
    PendingSteps.PendingNotRetired(s.db, p.generation.sequence);
    hide HeaderInv, FreshInv, RetireInv;
    ClosesFresh(s, t, p);
    ClosesRetire(s, t, p);
  }

  lemma RetiresKeeps(s: Sys, t: Sys, p: Pending, r: Retired)
    requires Inv(s) && Retires(s, t, p, r)
    requires RetiredDecodes(t.db.Header(), p.generation.sequence, r)
    requires RetiredLog(r, Log(s, p.generation.sequence))
    ensures Inv(t)
  {
    hide CorpusInv, HeaderInv, RowsInv, FreshInv, LedgerInv, RetireInv, RetiredDecodes, RetiredLog, Retires;
    RetiresFacts(s, t, p, r);
    RetiresHeader(s, t, p, r);
    RetiresRows(s, t, p, r);
    RetiresLedger(s, t, p, r);
  }

  lemma AbandonEffect(s: Sys, handle: Pending)
    requires HeaderInv(s.db) && AbandonBuild(s.db, handle).Ok?
    ensures var t := Next(s, Abandon(handle));
            && s.db.Header().pending == Some(handle) && handle.inFlight.None?
            && Retires(s, t, handle, Retired(handle.generation, handle.created, None))
            && RetiredDecodes(t.db.Header(), handle.generation.sequence, Retired(handle.generation, handle.created, None))
  {
  }

  lemma SupersedeEffect(s: Sys, handle: Pending)
    requires HeaderInv(s.db) && SupersedeUnknown(s.db, handle).Ok?
    ensures var t := Next(s, Supersede(handle));
            && s.db.Header().pending == Some(handle) && UnknownEffect(handle)
            && Retires(s, t, handle, Retired(handle.generation, handle.created, Some(handle)))
            && RetiredDecodes(t.db.Header(), handle.generation.sequence,
                              Retired(handle.generation, handle.created, Some(handle)))
  {
  }

  lemma AbandonLog(s: Sys, p: Pending)
    requires LedgerInv(s) && s.db.Header().pending == Some(p)
    ensures RetiredLog(Retired(p.generation, p.created, Some(p)), Log(s, p.generation.sequence))
    ensures p.inFlight.None? ==> RetiredLog(Retired(p.generation, p.created, None), Log(s, p.generation.sequence))
  {
    ClaimedCreates(p.created, p.uploaded);
  }

  lemma AbandonKeeps(s: Sys, handle: Pending)
    requires Inv(s)
    ensures Inv(Next(s, Abandon(handle)))
  {
    hide AbandonBuild, CorpusInv, HeaderInv, RowsInv, FreshInv, LedgerInv, RetireInv, RetiredDecodes, RetiredLog, Retires;
    if AbandonBuild(s.db, handle).Ok? {
      AbandonEffect(s, handle);
      AbandonLog(s, handle);
      RetiresKeeps(s, Next(s, Abandon(handle)), handle, Retired(handle.generation, handle.created, None));
    }
  }

  lemma SupersedeKeeps(s: Sys, handle: Pending)
    requires Inv(s)
    ensures Inv(Next(s, Supersede(handle)))
  {
    hide SupersedeUnknown, CorpusInv, HeaderInv, RowsInv, FreshInv, LedgerInv, RetireInv, RetiredDecodes, RetiredLog, Retires;
    if SupersedeUnknown(s.db, handle).Ok? {
      SupersedeEffect(s, handle);
      AbandonLog(s, handle);
      RetiresKeeps(s, Next(s, Supersede(handle)), handle, Retired(handle.generation, handle.created, Some(handle)));
    }
  }

  // --------------------------------------------------------- publication

  /** The pending build becomes current; a predecessor becomes retired. */
  predicate Publishes(s: Sys, t: Sys, p: Pending) {
    var h, g := s.db.Header(), t.db.Header();
    && p.inFlight.None? && p.captureComplete && p.created && p.uploaded == p.generation.pageCount
    && p.generation.wanted == s.db.Wanted() && p.sourceNamespace == s.db.Namespace()
    && Closes(s, t, p)
    && g.current == Some(p.generation) && g.currentRevision == h.currentRevision + 1
    && t.db.retired == (if h.current.None? then s.db.retired
                        else s.db.retired[h.current.value.sequence := Retired(h.current.value, true, None)])
  }

  lemma CommitEffect(s: Sys, handle: Pending)
    requires CommitGeneration(s.db, handle).Ok?
    ensures Publishes(s, Next(s, Commit(handle)), handle)
    ensures CommitGeneration(s.db, handle).value == (Next(s, Commit(handle)).db, handle.generation)
  {
    hide Decodes;
  }

  lemma PublishHeader(s: Sys, t: Sys, p: Pending)
    requires HeaderInv(s.db) && Publishes(s, t, p)
    ensures HeaderInv(t.db)
  {
    hide UnknownEffect, PendingInv;
    var h := s.db.Header();
    if h.current.Some? {
      CurrentNotRetired(s.db, h.current.value.sequence);
      assert t.db.retired.Keys == s.db.retired.Keys + {h.current.value.sequence};
      assert |t.db.retired| == |t.db.retired.Keys|;
    }
    forall k | k in t.db.retired ensures RetiredDecodes(t.db.Header(), k, t.db.retired[k]) {
      if k in s.db.retired { assert RetiredDecodes(h, k, s.db.retired[k]); }
    }
  }

  lemma CurrentNotRetired(db: Db, q: nat)
    requires HeaderInv(db) && IsCurrent(db.Header(), q)
    ensures q !in db.retired && !IsPending(db.Header(), q)
  {
    assert q in db.retired ==> RetiredDecodes(db.Header(), q, db.retired[q]);
  }

  lemma PublishOwned(s: Sys, t: Sys, p: Pending)
    requires HeaderInv(s.db) && Publishes(s, t, p)
    ensures forall k: nat :: Owned(t.db, k) <==> Owned(s.db, k)
  {
    hide Decodes, RetiredDecodes, PendingInv;
  }

  lemma PublishRows(s: Sys, t: Sys, p: Pending)
    requires HeaderInv(s.db) && RowsInv(s.db) && Publishes(s, t, p)
    ensures RowsInv(t.db)
  {
    PublishOwned(s, t, p);
    hide HeaderInv, Coherent, Owned;
    forall k: nat | !Owned(t.db, k) ensures NoRows(t.db, k) { assert !Owned(s.db, k); }
    PendingSteps.SealedSame(s.db, t.db, p.generation);
  }

  lemma PublishLogs(s: Sys, t: Sys, p: Pending)
    requires HeaderInv(s.db) && LogsInv(s) && Publishes(s, t, p)
    ensures LogsInv(t)
  {
    hide HeaderInv, Settled, AckedOps, Claimed;
    assert forall k: nat :: Log(t, k) == Log(s, k);
    if s.db.Header().current.Some? {
      ClaimedCreates(true, s.db.Header().current.value.pageCount);
    }
  }

  lemma PublishDeleted(s: Sys, t: Sys, p: Pending)
    requires HeaderInv(s.db) && RemoteInv(s) && DeletedInv(s) && Publishes(s, t, p)
    ensures RemoteInv(t) && DeletedInv(t)
  {
    PublishOwned(s, t, p);
    hide HeaderInv, Settled, AckedOps, Owned;
    assert forall k: nat :: Log(t, k) == Log(s, k);
  }

  lemma CommitKeeps(s: Sys, handle: Pending)
    requires Inv(s)
    ensures Inv(Next(s, Commit(handle)))
  {
    hide CommitGeneration, CorpusInv, HeaderInv, RowsInv, FreshInv, LogsInv, RemoteInv, DeletedInv, RetireInv;
    if CommitGeneration(s.db, handle).Ok? {
      var t := Next(s, Commit(handle));
      CommitEffect(s, handle);
      PendingSteps.SameCorpus(s.db, t.db);
      PublishHeader(s, t, handle);
      PublishRows(s, t, handle);
      ClosesFresh(s, t, handle);
      PublishLogs(s, t, handle);
      PublishDeleted(s, t, handle);
      if s.db.Header().current.Some? { CurrentNotRetired(s.db, s.db.Header().current.value.sequence); }
      ClosesRetire(s, t, handle);
    }
  }

  // -------------------------------------------------------------- cleanup

  lemma DeleteKeeps(s: Sys, r: Retired)
    requires Inv(s)
    ensures Inv(Next(s, DeleteRemote(r)))
  {
    hide CorpusInv, HeaderInv, RowsInv, FreshCapture, FreshBuild;
    var t := Next(s, DeleteRemote(r));
    if t != s {
      assert LedgerInv(t) by { DeleteLedger(s, r); }
      BuildSteps.FreshSame(s, t);
      RetireSame(s, t);
    }
  }

  lemma DeleteLedger(s: Sys, r: Retired)
    requires LedgerInv(s) && RetireInv(s) && r in s.retirees && r.unresolved.None?
    ensures LedgerInv(s.(deleted := s.deleted + {r.generation.sequence}))
  {
    hide Empty, BuildLog, AckedOps, Claimed, Settled;
    var q := r.generation.sequence;
    var t := s.(deleted := s.deleted + {q});
    assert forall k :: Log(t, k) == Log(s, k);
    if q in s.db.retired {
      assert RetiredLog(s.db.retired[q], Log(s, q));
    } else if q in s.ledger {
      assert !Owned(s.db, q);
    } else {
      EmptyLogSettled();
    }
  }

  lemma EmptyLogSettled()
    ensures Settled([])
  {
  }

  lemma RemoveEffect(s: Sys, r: Retired, keys: RowKeys)
    requires RemoveRows(s.db, r, keys).Ok?
    ensures var t := After(s.db, RemoveRows(s.db, r, keys));
            var q := r.generation.sequence;
            && t.state.Some? && t.Header() == s.db.Header() && t.corpus == s.db.corpus && t.retired == s.db.retired
            && q in s.db.retired && !IsCurrent(t.Header(), q) && !IsPending(t.Header(), q)
            && (forall k: nat :: k != q ==>
                  && At(t.sources, k) == At(s.db.sources, k) && At(t.pages, k) == At(s.db.pages, k)
                  && At(t.evidence, k) == At(s.db.evidence, k))
            && At(t.sources, q).Keys <= At(s.db.sources, q).Keys
            && At(t.pages, q).Keys <= At(s.db.pages, q).Keys
            && At(t.evidence, q).Keys <= At(s.db.evidence, q).Keys
  {
    hide Decodes;
  }

  lemma RemoveRowsInv(s: Sys, r: Retired, keys: RowKeys)
    requires RowsInv(s.db) && RemoveRows(s.db, r, keys).Ok?
    ensures RowsInv(After(s.db, RemoveRows(s.db, r, keys)))
  {
    RemoveEffect(s, r, keys);
    hide RemoveRows, Coherent, At;
    var t := After(s.db, RemoveRows(s.db, r, keys));
    forall k: nat | !Owned(t, k) ensures NoRows(t, k) { assert !Owned(s.db, k); }
  }

  lemma RemoveRetire(s: Sys, r: Retired, keys: RowKeys)
    requires RetireInv(s) && RemoveRows(s.db, r, keys).Ok?
    ensures RetireInv(s.(db := After(s.db, RemoveRows(s.db, r, keys))))
  {
    RemoveEffect(s, r, keys);
    hide RemoveRows, At;
    var t := s.(db := After(s.db, RemoveRows(s.db, r, keys)));
    forall c | c in t.cleared ensures Empty(t.db, c.0, c.1) {
      assert Empty(s.db, c.0, c.1);
    }
  }

  /** Rewriting rows of a retired sequence leaves every header alone. */
  lemma SameHeaders(s: Sys, t: Sys)
    requires t == s.(db := t.db) && t.db.Header() == s.db.Header() && t.db.state.Some? == s.db.state.Some?
    requires t.db.corpus == s.db.corpus && t.db.retired == s.db.retired
    requires forall k: nat :: k !in s.db.retired ==> At(t.db.sources, k) == At(s.db.sources, k)
    requires HeaderInv(s.db) && FreshInv(s) && LedgerInv(s)
    ensures HeaderInv(t.db) && FreshInv(t) && LedgerInv(t)
  {
    assert HeaderInv(t.db) by { hide Decodes, RetiredDecodes, PendingInv; }
    assert LedgerInv(t) by {
      hide BuildLog, RetiredLog, Settled, AckedOps, Claimed;
      assert forall k :: Log(t, k) == Log(s, k) && Owned(t.db, k) == Owned(s.db, k);
    }
    assert FreshInv(t) by { SameHeadersFresh(s, t); }
  }

  lemma SameHeadersFresh(s: Sys, t: Sys)
    requires t == s.(db := t.db) && t.db.Header() == s.db.Header()
    requires t.db.corpus == s.db.corpus && t.db.retired == s.db.retired
    requires forall k: nat :: k !in s.db.retired ==> At(t.db.sources, k) == At(s.db.sources, k)
    requires HeaderInv(s.db) && FreshInv(s)
    ensures FreshInv(t)
  {
    hide InputsInv, ContentIs, ToMap, At, Decodes, PendingInv;
    forall content ensures ContentIs(t.db, content) == ContentIs(s.db, content) {
      BuildSteps.ContentSame(s.db, t.db, content);
    }
    forall c | c in t.captures ensures FreshCapture(t, c) { assert FreshCapture(s, c); }
    var h := s.db.Header();
    if h.current.Some? { CurrentNotRetired(s.db, h.current.value.sequence); }
    if h.pending.Some? { PendingSteps.PendingNotRetired(s.db, h.pending.value.generation.sequence); }
  }

  lemma RemoveKeeps(s: Sys, r: Retired, keys: RowKeys)
    requires Inv(s)
    ensures Inv(Next(s, Remove(r, keys)))
  {
    hide RemoveRows, CorpusInv, HeaderInv, RowsInv, FreshInv, LedgerInv, RetireInv;
    var t := Next(s, Remove(r, keys));
    if MayClean(s, r) && RemoveRows(s.db, r, keys).Ok? {
      RemoveEffect(s, r, keys);
      StateExists(s.db);
      PendingSteps.SameCorpus(s.db, t.db);
      RemoveRowsInv(s, r, keys);
      RemoveRetire(s, r, keys);
      SameHeaders(s, t);
    }
  }

  lemma StateExists(db: Db)
    requires HeaderInv(db) && db.retired != map[]
    ensures db.state.Some?
  {
  }

  lemma ForgetEffect(s: Sys, r: Retired)
    requires HeaderInv(s.db) && RemoveRetired(s.db, r).Ok?
    ensures var t := After(s.db, RemoveRetired(s.db, r));
            var q := r.generation.sequence;
            && s.db.state.Some? && t.state == s.db.state && t.corpus == s.db.corpus
            && t.sources == s.db.sources && t.pages == s.db.pages && t.evidence == s.db.evidence
            && q in s.db.retired && s.db.retired[q] == r && t.retired == s.db.retired - {q}
  {
  }

  lemma ForgetHeader(s: Sys, r: Retired)
    requires HeaderInv(s.db) && RemoveRetired(s.db, r).Ok?
    ensures HeaderInv(After(s.db, RemoveRetired(s.db, r)))
  {
    ForgetEffect(s, r);
    hide RemoveRetired, Decodes, RetiredDecodes, PendingInv;
    var t := After(s.db, RemoveRetired(s.db, r));
    Sets.SubsetSize(t.retired.Keys, s.db.retired.Keys);
    assert |t.retired| == |t.retired.Keys| && |s.db.retired| == |s.db.retired.Keys|;
  }

  lemma ForgetLedger(s: Sys, r: Retired)
    requires HeaderInv(s.db) && LedgerInv(s) && MayClean(s, r) && RemoveRetired(s.db, r).Ok?
    ensures LedgerInv(s.(db := After(s.db, RemoveRetired(s.db, r))))
  {
    ForgetEffect(s, r);
    hide RemoveRetired, Decodes, RetiredDecodes, PendingInv, BuildLog, Settled, AckedOps, Claimed;
    var t := s.(db := After(s.db, RemoveRetired(s.db, r)));
    var q := r.generation.sequence;
    assert forall k :: Log(t, k) == Log(s, k);
    assert RetiredLog(r, Log(s, q));
    forall k | k != q ensures Owned(t.db, k) == Owned(s.db, k) {}
  }

  lemma ForgetRows(s: Sys, r: Retired)
    requires HeaderInv(s.db) && RowsInv(s.db) && RemoveRetired(s.db, r).Ok? && NoRows(s.db, r.generation.sequence)
    ensures RowsInv(After(s.db, RemoveRetired(s.db, r)))
  {
    ForgetEffect(s, r);
    hide RemoveRetired, Coherent, Decodes, RetiredDecodes, PendingInv;
    var t := After(s.db, RemoveRetired(s.db, r));
    forall k: nat | !Owned(t, k) ensures NoRows(t, k) {
      assert k == r.generation.sequence || !Owned(s.db, k);
    }
  }

  lemma ForgetFresh(s: Sys, r: Retired)
    requires HeaderInv(s.db) && FreshInv(s) && RemoveRetired(s.db, r).Ok?
    ensures FreshInv(s.(db := After(s.db, RemoveRetired(s.db, r))))
  {
    ForgetEffect(s, r);
    hide RemoveRetired, InputsInv, ContentIs, ToMap, Decodes, RetiredDecodes, PendingInv;
    var t := s.(db := After(s.db, RemoveRetired(s.db, r)));
    forall content ensures ContentIs(t.db, content) == ContentIs(s.db, content) {
      BuildSteps.ContentSame(s.db, t.db, content);
    }
    forall c | c in t.captures ensures FreshCapture(t, c) { assert FreshCapture(s, c); }
  }

  lemma ForgetRetire(s: Sys, r: Retired)
    requires HeaderInv(s.db) && RetireInv(s) && RemoveRetired(s.db, r).Ok? && r.unresolved.None?
    ensures RetireInv(s.(db := After(s.db, RemoveRetired(s.db, r))))
  {
    ForgetEffect(s, r);
    hide RemoveRetired, Decodes, RetiredDecodes, PendingInv;
    var t := s.(db := After(s.db, RemoveRetired(s.db, r)));
    forall c | c in t.cleared ensures Empty(t.db, c.0, c.1) { assert Empty(s.db, c.0, c.1); }
  }

  lemma ClearedMeansNoRows(s: Sys, q: nat)
    requires RetireInv(s) && forall table: TableName :: (table, q) in s.cleared
    ensures NoRows(s.db, q)
  {
    assert Empty(s.db, SourceTable, q) by { assert (SourceTable, q) in s.cleared; }
    assert Empty(s.db, PageTable, q) by { assert (PageTable, q) in s.cleared; }
    assert Empty(s.db, EvidenceTable, q) by { assert (EvidenceTable, q) in s.cleared; }
  }

  lemma ForgetKeeps(s: Sys, r: Retired)
    requires Inv(s)
    ensures Inv(Next(s, Forget(r)))
  {
    hide RemoveRetired, CorpusInv, HeaderInv, RowsInv, FreshInv, LedgerInv, RetireInv, NoRows;
    var t := Next(s, Forget(r));
    if MayClean(s, r) && (forall table: TableName :: (table, r.generation.sequence) in s.cleared)
       && RemoveRetired(s.db, r).Ok?
    {
      ForgetEffect(s, r);
      ClearedMeansNoRows(s, r.generation.sequence);
      PendingSteps.SameCorpus(s.db, t.db);
      ForgetHeader(s, r);
      ForgetRows(s, r);
      ForgetFresh(s, r);
      ForgetLedger(s, r);
      ForgetRetire(s, r);
    }
  }
}
