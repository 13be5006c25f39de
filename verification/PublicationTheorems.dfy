/** What holds in every state of every run of the publication protocol. */
module PublicationTheorems {
  import opened Wrappers
  import opened Control
  import opened Graph
  import opened Protocol
  import CorpusSteps
  import BuildSteps
  import Sets
  import PendingSteps
  import ClosingSteps

  lemma NextKeeps(s: Sys, a: Action)
    requires Inv(s)
    ensures Inv(Next(s, a))
  {
    hide Inv, Next;
    match a {
      case SourceCommit(_, _, _) => CorpusSteps.CorpusActionKeeps(s, a);
      case SourceRemove(_) => CorpusSteps.CorpusActionKeeps(s, a);
      case SourceAdmit(_) => CorpusSteps.CorpusActionKeeps(s, a);
      case PreparationSelect(_, _, _, _) => CorpusSteps.CorpusActionKeeps(s, a);
      case PreparationCommit(_, _) => CorpusSteps.CorpusActionKeeps(s, a);
      case TakeCapture(_) => BuildSteps.HistoryKeeps(s, a);
      case Start(c, drawn) => BuildSteps.StartKeeps(s, c, drawn);
      case Persist(handle, chunk) => PendingSteps.PersistKeeps(s, handle, chunk);
      case PutPage(handle, page) => PendingSteps.StageKeeps(s, handle, page);
      case Finish(handle, id, units) => PendingSteps.FinishKeeps(s, handle, id, units);
      case Seal(handle) => PendingSteps.SealKeeps(s, handle);
      case Dispatch(handle, op) => PendingSteps.DispatchKeeps(s, handle, op);
      case Answer(q, index, verdict) => ClosingSteps.AnswerKeeps(s, q, index, verdict);
      case Settle(handle, index) => PendingSteps.SettleKeeps(s, handle, index);
      case Commit(handle) => ClosingSteps.CommitKeeps(s, handle);
      case Abandon(handle) => ClosingSteps.AbandonKeeps(s, handle);
      case Supersede(handle) => ClosingSteps.SupersedeKeeps(s, handle);
      case ReadRetired => BuildSteps.HistoryKeeps(s, a);
      case DeleteRemote(r) => ClosingSteps.DeleteKeeps(s, r);
      case Observe(_, _) => BuildSteps.HistoryKeeps(s, a);
      case Remove(r, keys) => ClosingSteps.RemoveKeeps(s, r, keys);
      case Forget(r) => ClosingSteps.ForgetKeeps(s, r);
    }
  }

  lemma {:induction false} RunKeeps(s: Sys, actions: seq<Action>)
    requires Inv(s)
    ensures Inv(Run(s, actions))
  {
    hide Inv;
    if actions != [] {
      RunKeeps(s, actions[..|actions|-1]);
      NextKeeps(Run(s, actions[..|actions|-1]), actions[|actions|-1]);
    }
  }

  /** A state of some run that started before the first publication. */
  lemma Reachable(s: Sys, actions: seq<Action>)
    requires Init(s)
    ensures Inv(Run(s, actions))
  {
    InitInv(s);
    RunKeeps(s, actions);
  }

  // ------------------------------------------------- snapshot freshness

  /** The saved rows of `g` are exactly the current source and preparation
      tables: the same sources, each complete with its current two rows. */
  predicate SnapshotOf(db: Db, g: Generation) {
    var saved := At(db.sources, g.sequence);
    && saved.Keys == db.Rows().Keys
    && db.Rows().Keys <= db.Preparations().Keys
    && (forall id :: id in saved ==>
          saved[id].complete && saved[id].captured == Captured(db.Rows()[id], db.Preparations()[id]))
    && g.sourceCount == |db.Rows()|
  }

  lemma SealedSnapshot(s: Sys, g: Generation)
    requires FreshBuild(s, g) && Sealed(s.db, g) && g.wanted == s.db.Wanted()
    ensures SnapshotOf(s.db, g)
  {
    var saved := At(s.db.sources, g.sequence);
    var content := s.inputs[g.sequence];
    Sets.SubsetSize(saved.Keys, content.Keys);
    assert |saved| == |saved.Keys| && |content| == |content.Keys| && |s.db.Rows()| == |s.db.Rows().Keys|;
    assert saved.Keys == content.Keys;
    forall id | id in saved ensures saved[id].complete {
      assert id in CompleteIds(saved);
    }
  }

  /** Whenever a commit succeeds, under any interleaving with source and
      preparation transactions, what it publishes is the corpus of that
      instant and every effect it needs was acknowledged. */
  lemma CommitIsFresh(s0: Sys, actions: seq<Action>, handle: Pending)
    requires Init(s0)
    requires CommitGeneration(Run(s0, actions).db, handle).Ok?
    ensures var s := Run(s0, actions);
            var (db, g) := CommitGeneration(s.db, handle).value;
            && db.Header().current == Some(g)
            && SnapshotOf(db, g)
            && Settled(Log(s, g.sequence))
            && AckedOps(Log(s, g.sequence)) == [Create] + Inserts(g.pageCount)
  {
    Reachable(s0, actions);
    var s := Run(s0, actions);
    assert HeaderInv(s.db);
    hide Run, CommitGeneration, Inv, Next, HeaderInv, SnapshotOf, Settled, AckedOps, Inserts;
    ClosingSteps.CommitEffect(s, handle);
    ClosingSteps.CommitKeeps(s, handle);
    CommitPublishes(s, Next(s, Commit(handle)), handle);
  }

  lemma CommitPublishes(s: Sys, t: Sys, handle: Pending)
    requires Inv(s) && Inv(t) && s.db.Header().pending == Some(handle) && handle.inFlight.None?
    requires handle.created && handle.uploaded == handle.generation.pageCount
    requires handle.generation.wanted == s.db.Wanted() && t.db.corpus == s.db.corpus
    requires t.db.Header().current == Some(handle.generation)
    ensures SnapshotOf(t.db, handle.generation)
    ensures Settled(Log(s, handle.generation.sequence))
    ensures AckedOps(Log(s, handle.generation.sequence)) == [Create] + Inserts(handle.generation.pageCount)
  {
    hide CorpusInv, HeaderInv, OwnershipInv, Coherent, SnapshotOf, AckedOps, Sealed, FreshBuild;
    assert BuildLog(handle, Log(s, handle.generation.sequence));
    SealedSnapshot(t, handle.generation);
  }

  /** A capture whose `CurrentMatches` holds was read while the current
      generation was exactly the current corpus. */
  lemma CurrentMatchIsFresh(s0: Sys, actions: seq<Action>, c: Capture)
    requires Init(s0)
    requires IsCapture(c, Run(s0, actions).db) && c.CurrentMatches()
    ensures var db := Run(s0, actions).db;
            db.Header().current.Some? && SnapshotOf(db, db.Header().current.value)
  {
    Reachable(s0, actions);
    var s := Run(s0, actions);
    hide CorpusInv, HeaderInv, OwnershipInv, Coherent, SnapshotOf, Charged, Ascending;
    SealedSnapshot(s, s.db.Header().current.value);
  }

  // ---------------------------------------------------- dispatch safety

  /** A build has at most one mutation nobody has accounted for, and it is
      the one its header names. */
  lemma OneOutstanding(s0: Sys, actions: seq<Action>, q: nat, i: nat)
    requires Init(s0)
    requires i < |Log(Run(s0, actions), q)| && Log(Run(s0, actions), q)[i].verdict == Unknown
    ensures var s := Run(s0, actions);
            && i == |Log(s, q)| - 1
            && ((IsPending(s.db.Header(), q) && s.db.Header().pending.value.inFlight == Some(Log(s, q)[i].op))
                || (q in s.db.retired && s.db.retired[q].unresolved.Some?
                    && s.db.retired[q].unresolved.value.inFlight == Some(Log(s, q)[i].op)))
  {
    Reachable(s0, actions);
    var s := Run(s0, actions);
    var log := Log(s, q);
    hide Run, Next, CorpusInv, HeaderInv, RowsInv, FreshInv, RetireInv, Settled, AckedOps, Claimed, BuildLog;
    ClosingSteps.NotSettled(log, i);
    if IsPending(s.db.Header(), q) {
      BuildLogUnknown(s.db.Header().pending.value, log, i);
    } else {
      if !Owned(s.db, q) { ClosingSteps.UnownedSettled(s, q); }
      assert RetiredLog(s.db.retired[q], log);
      BuildLogUnknown(s.db.retired[q].unresolved.value, log, i);
    }
  }

  lemma BuildLogUnknown(p: Pending, log: seq<Ticket>, i: nat)
    requires BuildLog(p, log) && i < |log| && log[i].verdict == Unknown
    ensures i == |log| - 1 && p.inFlight == Some(log[i].op)
  {
    assert forall k :: 0 <= k < |log| - 1 ==> log[..|log|-1][k] == log[k];
  }

  /** `uploaded` is exactly the in-order acknowledged prefix, and a page is
      never acknowledged before the collection or out of turn. */
  lemma UploadedIsAcknowledged(s0: Sys, actions: seq<Action>)
    requires Init(s0) && Run(s0, actions).db.Header().pending.Some?
    ensures var s := Run(s0, actions);
            var p := s.db.Header().pending.value;
            var log := Log(s, p.generation.sequence);
            var settled := if p.inFlight.None? || log == [] then log else log[..|log|-1];
            && |log| == p.operationRevision && (p.inFlight.Some? ==> log != [])
            && AckedOps(settled) == (if p.created then [Create] + Inserts(p.uploaded) else [])
            && p.uploaded <= p.generation.pageCount
  {
    Reachable(s0, actions);
    hide CorpusInv, RowsInv, FreshInv, RetireInv, RemoteInv, DeletedInv, AckedOps, Run, Next;
  }

  /** No acknowledged collection is lost: its sequence is current, pending or
      retired, or the collection was deleted. A deleted collection is never
      served, never pending again and has nothing outstanding. */
  lemma CollectionsAccounted(s0: Sys, actions: seq<Action>, q: nat)
    requires Init(s0)
    ensures var s := Run(s0, actions);
            && (Create in AckedOps(Log(s, q)) ==> Owned(s.db, q) || q in s.deleted)
            && (q in s.deleted ==>
                  && !IsCurrent(s.db.Header(), q) && !IsPending(s.db.Header(), q)
                  && Settled(Log(s, q))
                  && (q in s.db.retired ==> s.db.retired[q].unresolved.None?))
  {
    Reachable(s0, actions);
    hide CorpusInv, HeaderInv, RowsInv, FreshInv, RetireInv, LogsInv, Run, Next;
  }

  // ------------------------------------------------- life of a sequence

  predicate SameRows(a: Db, b: Db, q: nat) {
    At(a.sources, q) == At(b.sources, q) && At(a.pages, q) == At(b.pages, q) && At(a.evidence, q) == At(b.evidence, q)
  }

  /** The rows of `q` may still change: it is being staged, or cleaned. */
  predicate Editable(db: Db, q: nat) {
    || (IsPending(db.Header(), q) && !db.Header().pending.value.captureComplete)
    || (q in db.retired && db.retired[q].unresolved.None?)
  }

  /** Every move a sequence can make in one step. */
  ghost predicate Moves(s: Sys, t: Sys) {
    var h, g := s.db.Header(), t.db.Header();
    && h.nextSequence <= g.nextSequence
    && s.deleted <= t.deleted
    && (forall q: nat :: IsCurrent(g, q) ==> IsCurrent(h, q) || IsPending(h, q))
    && (forall q: nat :: IsPending(g, q) ==> IsPending(h, q) || q > h.nextSequence)
    && (forall q: nat :: IsPending(h, q) && IsPending(g, q) && h.pending.value.captureComplete ==>
          g.pending.value.captureComplete && g.pending.value.generation == h.pending.value.generation)
    && (forall q: nat :: IsPending(h, q) && !IsCurrent(h, q) && IsCurrent(g, q) ==>
          h.pending.value.captureComplete && g.current.value == h.pending.value.generation)
    && (forall q: nat :: IsCurrent(h, q) && !IsPending(h, q) && IsCurrent(g, q) ==> g.current == h.current)
    && (forall q: nat :: q in t.db.retired ==>
          || (q in s.db.retired && t.db.retired[q] == s.db.retired[q])
          || IsCurrent(h, q) || IsPending(h, q))
    && (forall q: nat :: q in s.db.retired && s.db.retired[q].unresolved.Some? ==>
          q in t.db.retired && t.db.retired[q] == s.db.retired[q])
    && (forall q: nat :: !Editable(s.db, q) ==> SameRows(s.db, t.db, q))
  }

  lemma SameDbMoves(s: Sys, t: Sys)
    requires t.db == s.db && s.deleted <= t.deleted
    ensures Moves(s, t)
  {
    hide Editable;
  }

  lemma CorpusMovesOn(s: Sys, t: Sys)
    requires t == s.(db := t.db) && CorpusSteps.CorpusMoves(s.db, t.db)
    ensures Moves(s, t)
  {
    hide Editable;
    assert t.db.Header() == s.db.Header();
  }

  lemma EditMoves(s: Sys, t: Sys, p: Pending, edited: Pending)
    requires PendingSteps.EditsPending(s, t, p, edited)
    requires p.captureComplete ==> edited.captureComplete && edited.generation == p.generation
    requires p.captureComplete ==> SameRows(s.db, t.db, p.generation.sequence)
    ensures Moves(s, t)
  {
    hide At;
    assert t.db.Header().current == s.db.Header().current;
  }

  lemma EditActionMoves(s: Sys, a: Action)
    requires Inv(s)
    requires a.Persist? || a.PutPage? || a.Finish? || a.Seal? || a.Dispatch? || a.Settle?
    ensures Moves(s, Next(s, a))
  {
    hide Inv, Moves, StagePage, FinishSource, PersistInputs;
    var t := Next(s, a);
    match a {
      case PutPage(handle, page) =>
        if StagePage(s.db, handle, page).Ok? {
          PendingSteps.PutPageEffect(s, handle, page);
          EditMoves(s, t, s.db.Header().pending.value, t.db.Header().pending.value);
        } else { SameDbMoves(s, t); }
      case Finish(handle, id, units) =>
        if FinishSource(s.db, handle, id, units).Ok? {
          PendingSteps.FinishEffect(s, handle, id, units);
          var p := s.db.Header().pending.value;
          EditMoves(s, t, p, p.(completedSources := p.completedSources + 1));
        } else { SameDbMoves(s, t); }
      case Persist(handle, chunk) =>
        if t != s && PersistInputs(s.db, handle, chunk).Ok? {
          PendingSteps.PersistEffect(s, handle, chunk);
          PendingSteps.PersistKeeps(s, handle, chunk);
          EditMoves(s, t, s.db.Header().pending.value, s.db.Header().pending.value);
        } else { SameDbMoves(s, t); }
      case _ => HeaderEditMoves(s, a);
    }
  }

  lemma HeaderEditMoves(s: Sys, a: Action)
    requires a.Seal? || a.Dispatch? || a.Settle?
    ensures Moves(s, Next(s, a))
  {
    hide Moves, CompleteCapture, RecordDispatch, FinishDispatch, SameRows;
    var t := Next(s, a);
    match a {
      case Seal(handle) =>
        if CompleteCapture(s.db, handle).Ok? {
          var p := PendingSteps.SealEffect(s, handle);
          HeaderOnlyMoves(s, t, p, p.(captureComplete := true));
        } else { SameDbMoves(s, t); }
      case Dispatch(handle, op) =>
        if RecordDispatch(s.db, handle, op).Ok? {
          var p := PendingSteps.DispatchEffect(s, handle, op);
          HeaderOnlyMoves(s, t, p, p.(operationRevision := p.operationRevision + 1, inFlight := Some(op)));
        } else { SameDbMoves(s, t); }
      case Settle(handle, index) =>
        if t.db == s.db { SameDbMoves(s, t); }
        else {
          var p, edited := PendingSteps.SettleEffect(s, handle, index);
          HeaderOnlyMoves(s, t, p, edited);
        }
    }
  }

  lemma HeaderOnlyMoves(s: Sys, t: Sys, p: Pending, edited: Pending)
    requires PendingSteps.HeaderEdit(s, t, p, edited)
    requires edited.generation == p.generation && (p.captureComplete ==> edited.captureComplete)
    ensures Moves(s, t)
  {
    PendingSteps.HeaderEdited(s, t, p, edited);
    EditMoves(s, t, p, edited);
  }

  lemma RetireMoves(s: Sys, t: Sys, p: Pending, r: Retired)
    requires HeaderInv(s.db) && ClosingSteps.Retires(s, t, p, r)
    ensures Moves(s, t)
  {
    PendingSteps.PendingNotRetired(s.db, p.generation.sequence);
    hide HeaderInv, Editable;
  }

  lemma PublishMoves(s: Sys, t: Sys, p: Pending)
    requires HeaderInv(s.db) && ClosingSteps.Publishes(s, t, p)
    ensures Moves(s, t)
  {
    PendingSteps.PendingNotRetired(s.db, p.generation.sequence);
    if s.db.Header().current.Some? { ClosingSteps.CurrentNotRetired(s.db, s.db.Header().current.value.sequence); }
    hide HeaderInv, Editable;
  }

  lemma CloseMoves(s: Sys, a: Action)
    requires Inv(s) && (a.Commit? || a.Abandon? || a.Supersede?)
    ensures Moves(s, Next(s, a))
  {
    hide CommitGeneration, AbandonBuild, SupersedeUnknown, CorpusInv, RowsInv, FreshInv, LedgerInv, RetireInv,
         HeaderInv, Moves, ClosingSteps.Retires, ClosingSteps.Publishes, RetiredDecodes;
    var t := Next(s, a);
    match a {
      case Commit(handle) =>
        if CommitGeneration(s.db, handle).Ok? {
          ClosingSteps.CommitEffect(s, handle);
          PublishMoves(s, t, handle);
        } else { SameDbMoves(s, t); }
      case Abandon(handle) =>
        if AbandonBuild(s.db, handle).Ok? {
          ClosingSteps.AbandonEffect(s, handle);
          RetireMoves(s, t, handle, Retired(handle.generation, handle.created, None));
        } else { SameDbMoves(s, t); }
      case Supersede(handle) =>
        if SupersedeUnknown(s.db, handle).Ok? {
          ClosingSteps.SupersedeEffect(s, handle);
          RetireMoves(s, t, handle, Retired(handle.generation, handle.created, Some(handle)));
        } else { SameDbMoves(s, t); }
    }
  }

  lemma CleanMoves(s: Sys, a: Action)
    requires Inv(s) && (a.Remove? || a.Forget? || a.DeleteRemote? || a.Observe? || a.ReadRetired?)
    ensures Moves(s, Next(s, a))
  {
    hide RemoveRows, RemoveRetired, CorpusInv, RowsInv, FreshInv, LedgerInv, Moves, Empty, HeaderInv;
    var t := Next(s, a);
    if a.Remove? && MayClean(s, a.retiree) && RemoveRows(s.db, a.retiree, a.keys).Ok? {
      ClosingSteps.RemoveEffect(s, a.retiree, a.keys);
      RemoveMoves(s, t, a.retiree);
    } else if a.Forget? && t.db != s.db {
      ClosingSteps.ForgetEffect(s, a.retiree);
      ForgetMoves(s, t, a.retiree);
    } else {
      SameDbMoves(s, t);
    }
  }

  lemma RemoveMoves(s: Sys, t: Sys, r: Retired)
    requires t == s.(db := t.db) && t.db.Header() == s.db.Header() && t.db.retired == s.db.retired
    requires r.generation.sequence in s.db.retired && s.db.retired[r.generation.sequence].unresolved.None?
    requires forall k: nat :: k != r.generation.sequence ==> SameRows(s.db, t.db, k)
    ensures Moves(s, t)
  {
    hide SameRows;
  }

  lemma ForgetMoves(s: Sys, t: Sys, r: Retired)
    requires t == s.(db := t.db) && t.db.Header() == s.db.Header() && r.unresolved.None?
    requires r.generation.sequence in s.db.retired && s.db.retired[r.generation.sequence] == r
    requires t.db.retired == s.db.retired - {r.generation.sequence}
    requires t.db.sources == s.db.sources && t.db.pages == s.db.pages && t.db.evidence == s.db.evidence
    ensures Moves(s, t)
  {
  }

  lemma StartMoves(s: Sys, c: Capture, drawn: Id)
    ensures Moves(s, Next(s, Start(c, drawn)))
  {
    hide GapCount, ToMap, Decodes;
  }

  lemma NextMoves(s: Sys, a: Action)
    requires Inv(s)
    ensures Moves(s, Next(s, a))
  {
    if CorpusSteps.CorpusAction(a) { CorpusSteps.RevisionRule(s, a); }
    hide Inv, Moves, CorpusSteps.CorpusMoves;
    match a {
      case TakeCapture(_) => SameDbMoves(s, Next(s, a));
      case Answer(_, _, _) => SameDbMoves(s, Next(s, a));
      case Start(c, drawn) => StartMoves(s, c, drawn);
      case Commit(_) => CloseMoves(s, a);
      case Abandon(_) => CloseMoves(s, a);
      case Supersede(_) => CloseMoves(s, a);
      case ReadRetired => CleanMoves(s, a);
      case DeleteRemote(_) => CleanMoves(s, a);
      case Observe(_, _) => CleanMoves(s, a);
      case Remove(_, _) => CleanMoves(s, a);
      case Forget(_) => CleanMoves(s, a);
      case Persist(_, _) => EditActionMoves(s, a);
      case PutPage(_, _) => EditActionMoves(s, a);
      case Finish(_, _, _) => EditActionMoves(s, a);
      case Seal(_) => EditActionMoves(s, a);
      case Dispatch(_, _) => EditActionMoves(s, a);
      case Settle(_, _) => EditActionMoves(s, a);
      case _ => CorpusMovesOn(s, Next(s, a));
    }
  }

  lemma EditCorpusStays(s: Sys, a: Action)
    requires a.Persist? || a.PutPage? || a.Finish? || a.Seal? || a.Dispatch?
    ensures Next(s, a).db.corpus == s.db.corpus
  {
    hide Decodes;
  }

  /** Only source and preparation transactions change the source tables. */
  lemma CorpusStays(s: Sys, a: Action)
    requires !CorpusSteps.CorpusAction(a)
    ensures Next(s, a).db.corpus == s.db.corpus
  {
    if a.Persist? || a.PutPage? || a.Finish? || a.Seal? || a.Dispatch? { EditCorpusStays(s, a); }
    hide GapCount, ToMap, Decodes, PersistInputs, StagePage, FinishSource, CompleteCapture, RecordDispatch;
  }

  /** Over any run in which a source keeps its registration, object and
      settings, an artifact usable for them stays usable: neither a failed
      preparation nor any publication step takes it away. */
  lemma {:induction false} UsableForever(s: Sys, actions: seq<Action>, id: Id)
    requires CorpusSteps.Usable(s.db, id)
    requires forall k :: 0 <= k <= |actions| ==> CorpusSteps.SameInputs(s.db, Run(s, actions[..k]).db, id)
    ensures CorpusSteps.Usable(Run(s, actions).db, id)
  {
    hide Next, CorpusSteps.Usable;
    if actions != [] {
      var front, last := actions[..|actions|-1], actions[|actions|-1];
      forall k | 0 <= k <= |front| ensures CorpusSteps.SameInputs(s.db, Run(s, front[..k]).db, id) {
        assert front[..k] == actions[..k];
      }
      UsableForever(s, front, id);
      assert actions[..|actions|] == actions && actions[..|front|] == front;
      if CorpusSteps.CorpusAction(last) {
        CorpusSteps.ReadyIsKept(Run(s, front), last, id);
      } else {
        CorpusStays(Run(s, front), last);
        SameCorpus(Run(s, front).db, Run(s, actions).db, id);
      }
    }
  }

  lemma SameCorpus(a: Db, b: Db, id: Id)
    requires a.corpus == b.corpus
    ensures CorpusSteps.Usable(a, id) ==> CorpusSteps.Usable(b, id)
  {
  }

  /** A build superseded with an in-flight mutation never becomes current or
      pending again, never has its collection deleted and never loses a row. */
  lemma {:induction false} InDoubtForever(s: Sys, actions: seq<Action>, q: nat)
    requires Inv(s) && q in s.db.retired && s.db.retired[q].unresolved.Some?
    ensures var t := Run(s, actions);
            && q in t.db.retired && t.db.retired[q] == s.db.retired[q]
            && SameRows(s.db, t.db, q)
            && !IsCurrent(t.db.Header(), q) && !IsPending(t.db.Header(), q) && q !in t.deleted
  {
    InDoubtFacts(s, q);
    hide Inv, Next, Moves, IsCurrent, IsPending, SameRows;
    SameRowsTrans();
    if actions != [] {
      var front := Run(s, actions[..|actions|-1]);
      InDoubtForever(s, actions[..|actions|-1], q);
      RunKeeps(s, actions[..|actions|-1]);
      NextMoves(front, actions[|actions|-1]);
      NextKeeps(front, actions[|actions|-1]);
      InDoubtStep(front, Next(front, actions[|actions|-1]), q);
    }
  }

  lemma SameRowsTrans()
    ensures forall a, b, c, q :: SameRows(a, b, q) && SameRows(b, c, q) ==> SameRows(a, c, q)
    ensures forall a, q :: SameRows(a, a, q)
  {
  }

  lemma InDoubtStep(s: Sys, t: Sys, q: nat)
    requires Inv(s) && Inv(t) && Moves(s, t) && q in s.db.retired && s.db.retired[q].unresolved.Some?
    ensures q in t.db.retired && t.db.retired[q] == s.db.retired[q] && SameRows(s.db, t.db, q)
    ensures !IsCurrent(t.db.Header(), q) && !IsPending(t.db.Header(), q) && q !in t.deleted
  {
    InDoubtFacts(s, q);
    hide Inv, Editable, SameRows;
    InDoubtFacts(t, q);
  }

  lemma InDoubtFacts(s: Sys, q: nat)
    requires Inv(s) && q in s.db.retired && s.db.retired[q].unresolved.Some?
    ensures !IsCurrent(s.db.Header(), q) && !IsPending(s.db.Header(), q) && q !in s.deleted && !Editable(s.db, q)
  {
    hide CorpusInv, RowsInv, FreshInv, LogsInv, RemoteInv, RetireInv, Decodes;
    assert RetiredDecodes(s.db.Header(), q, s.db.retired[q]);
  }

  /** A sequence that left the database never comes back, and a retired one
      never serves or builds again. */
  lemma {:induction false} NeverReused(s: Sys, actions: seq<Action>, q: nat)
    requires Inv(s) && q <= s.db.Header().nextSequence && !IsCurrent(s.db.Header(), q) && !IsPending(s.db.Header(), q)
    ensures var t := Run(s, actions);
            && q <= t.db.Header().nextSequence
            && !IsCurrent(t.db.Header(), q) && !IsPending(t.db.Header(), q)
            && (q in t.db.retired ==> q in s.db.retired && t.db.retired[q] == s.db.retired[q])
  {
    if actions != [] {
      var front := Run(s, actions[..|actions|-1]);
      NeverReused(s, actions[..|actions|-1], q);
      RunKeeps(s, actions[..|actions|-1]);
      NextMoves(front, actions[|actions|-1]);
    }
  }

  /** A reservation draws a sequence nothing has ever owned. */
  lemma ReservationIsNew(s: Sys, c: Capture, drawn: Id)
    requires Inv(s) && StartBuild(s.db, c, drawn).Ok?
    ensures var q := StartBuild(s.db, c, drawn).value.1.generation.sequence;
            !Owned(s.db, q) && NoRows(s.db, q) && Log(s, q) == [] && q !in s.deleted
  {
    hide CorpusInv, FreshInv, RetireInv, RemoteInv, GapCount, Decodes, PendingInv;
    BuildSteps.SequenceIsNew(s.db, StartBuild(s.db, c, drawn).value.1.generation.sequence);
  }

  /** A sealed generation that is being uploaded or served. */
  predicate SealedAs(s: Sys, g: Generation) {
    || s.db.Header().current == Some(g)
    || (s.db.Header().pending.Some? && s.db.Header().pending.value.generation == g
        && s.db.Header().pending.value.captureComplete)
  }

  /** What was verified before a commit is what is served after it: from
      sealing on, no row changes for as long as the generation is in use. */
  lemma {:induction false} SealedRowsFrozen(s: Sys, actions: seq<Action>, g: Generation)
    requires Inv(s) && SealedAs(s, g)
    requires var h := Run(s, actions).db.Header(); IsCurrent(h, g.sequence) || IsPending(h, g.sequence)
    ensures SealedAs(Run(s, actions), g) && SameRows(s.db, Run(s, actions).db, g.sequence)
  {
    hide Inv, Next, Moves;
    var q := g.sequence;
    if actions != [] {
      var front, last := Run(s, actions[..|actions|-1]), actions[|actions|-1];
      RunKeeps(s, actions[..|actions|-1]);
      NextMoves(front, last);
      UsedIsBounded(s, q);
      RunMonotone(s, actions[..|actions|-1]);
      StillUsed(front, Next(front, last), q);
      SealedRowsFrozen(s, actions[..|actions|-1], g);
      SealedStep(front, Next(front, last), g);
    }
  }

  lemma StillUsed(s: Sys, t: Sys, q: nat)
    requires Moves(s, t) && q <= s.db.Header().nextSequence
    requires IsCurrent(t.db.Header(), q) || IsPending(t.db.Header(), q)
    ensures IsCurrent(s.db.Header(), q) || IsPending(s.db.Header(), q)
  {
    hide Editable, SameRows;
  }

  lemma SealedStep(s: Sys, t: Sys, g: Generation)
    requires Inv(s) && Moves(s, t) && SealedAs(s, g)
    requires IsCurrent(t.db.Header(), g.sequence) || IsPending(t.db.Header(), g.sequence)
    ensures SealedAs(t, g) && SameRows(s.db, t.db, g.sequence)
  {
    NotEditable(s, g);
    hide CorpusInv, RowsInv, FreshInv, LedgerInv, RetireInv, PendingInv, Editable, SameRows;
  }

  lemma UsedIsBounded(s: Sys, q: nat)
    requires Inv(s) && (IsCurrent(s.db.Header(), q) || IsPending(s.db.Header(), q))
    ensures q <= s.db.Header().nextSequence
  {
  }

  lemma {:induction false} RunMonotone(s: Sys, actions: seq<Action>)
    requires Inv(s)
    ensures s.db.Header().nextSequence <= Run(s, actions).db.Header().nextSequence
  {
    if actions != [] {
      RunMonotone(s, actions[..|actions|-1]);
      RunKeeps(s, actions[..|actions|-1]);
      NextMoves(Run(s, actions[..|actions|-1]), actions[|actions|-1]);
    }
  }

  lemma NotEditable(s: Sys, g: Generation)
    requires Inv(s) && SealedAs(s, g)
    ensures !Editable(s.db, g.sequence)
  {
    hide CorpusInv, RowsInv, FreshInv, LedgerInv, RetireInv, Decodes, PendingInv;
    if s.db.Header().current == Some(g) { ClosingSteps.CurrentNotRetired(s.db, g.sequence); }
    else { PendingSteps.PendingNotRetired(s.db, g.sequence); }
  }

  /** Every header written is accepted again, every retired row is readable,
      and superseding never meets a full retired table. */
  lemma HeadersReadBack(s0: Sys, actions: seq<Action>, handle: Pending)
    requires Init(s0)
    ensures var db := Run(s0, actions).db;
            && Load(db) == Ok(db.Header())
            && ReadRetirements(db).Ok?
            && |db.retired| + (if db.Header().pending.Some? then 1 else 0) <= MAX_RETIRED
            && SupersedeUnknown(db, handle) != Err(Limit)
  {
    Reachable(s0, actions);
    hide CorpusInv, RowsInv, FreshInv, LedgerInv, RetireInv, Run;
  }
}
