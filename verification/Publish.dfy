/** One publication, end to end: recover, clean, build, upload, verify and
    switch. The backend is any sequence of answers. */
module Publish {
  import opened Wrappers
  import opened Control
  import opened Graph
  import opened Protocol
  import opened Verify
  import opened UnitSpans
  import opened Store
  import opened Staging
  import PublicationTheorems
  import PendingSteps
  import ClosingSteps
  import Progress
  import Sets

  /** What one backend mutation is known to have done. */
  datatype Reply = Applied | Rejected | InDoubt

  datatype Failed = Step(failure: Failure) | Control(error: Error) | Backend | UnknownDispatch | Conflict | Unverified

  /** A sealed build with no mutation outstanding. */
  predicate Ready(db: Db, p: Pending) {
    db.Header().pending == Some(p) && p.captureComplete && p.inFlight.None?
  }

  predicate SameBuild(before: Db, after: Db, p: Pending, later: Pending) {
    && later.generation == p.generation && later.sourceNamespace == p.sourceNamespace
    && BesidePending(before, after)
    && PublicationTheorems.SameRows(before, after, p.generation.sequence)
  }

  /** The build is of the corpus as it is now. */
  predicate OfPresent(db: Db, p: Pending) {
    WantedIs(db, p.sourceNamespace, p.generation.wanted)
  }

  lemma PendingLog(s: Sys)
    requires Inv(s) && s.db.Header().pending.Some?
    ensures BuildLog(s.db.Header().pending.value, Log(s, s.db.Header().pending.value.generation.sequence))
  {
    hide CorpusInv, HeaderInv, RowsInv, FreshInv, RemoteInv, DeletedInv, RetireInv, BuildLog;
  }

  lemma DispatchedLog(s: Sys, handle: Pending, op: Operation)
    requires Inv(s) && RecordDispatch(s.db, handle, op).Ok? && s.db.Header().pending == Some(handle)
    ensures var log := Log(Next(s, Dispatch(handle, op)), handle.generation.sequence);
            |log| == handle.operationRevision + 1 && log[handle.operationRevision] == Ticket(op, Unknown)
  {
    PendingLog(s);
    hide Inv, RecordDispatch, Next, BuildLog, PendingInv, UnknownEffect, PendingSteps.HeaderEdit, Log;
    var p := PendingSteps.DispatchEffect(s, handle, op);
    PendingSteps.BuildLogLength(p, Log(s, p.generation.sequence));
  }

  lemma DispatchedHeader(s: Sys, handle: Pending, op: Operation)
    requires RecordDispatch(s.db, handle, op).Ok? && s.db.Header().pending == Some(handle)
    ensures var t := Next(s, Dispatch(handle, op));
            && t.db.Header().pending
               == Some(handle.(operationRevision := handle.operationRevision + 1, inFlight := Some(op)))
            && SameBuild(s.db, t.db, handle, handle)
  {
    hide RecordDispatch, Next, PendingInv, UnknownEffect, PendingSteps.HeaderEdit, Log, SameBuild;
    var p := PendingSteps.DispatchEffect(s, handle, op);
    HeaderOnly(s, Next(s, Dispatch(handle, op)), p, handle.(operationRevision := p.operationRevision + 1, inFlight := Some(op)));
  }

  /** A recorded dispatch opens exactly one ticket, numbered by its revision. */
  lemma Dispatched(s: Sys, handle: Pending, op: Operation)
    requires Inv(s) && RecordDispatch(s.db, handle, op).Ok? && s.db.Header().pending == Some(handle)
    ensures var t := Next(s, Dispatch(handle, op));
            var revision := RecordDispatch(s.db, handle, op).value.1;
            var q := handle.generation.sequence;
            && revision == handle.operationRevision + 1
            && |Log(t, q)| == revision && Log(t, q)[revision - 1] == Ticket(op, Unknown)
            && t.db.Header().pending == Some(handle.(operationRevision := revision, inFlight := Some(op)))
            && SameBuild(s.db, t.db, handle, handle)
  {
    hide Inv, RecordDispatch, Next, Log, SameBuild;
    DispatchedLog(s, handle, op);
    DispatchedHeader(s, handle, op);
    RevisionIs(s.db, handle, op);
  }

  lemma HeaderOnly(s: Sys, t: Sys, p: Pending, edited: Pending)
    requires PendingSteps.HeaderEdit(s, t, p, edited)
    ensures SameBuild(s.db, t.db, p, p) && t.db.Header().pending == Some(edited)
  {
  }

  lemma RevisionIs(db: Db, handle: Pending, op: Operation)
    requires RecordDispatch(db, handle, op).Ok? && db.Header().pending == Some(handle)
    ensures RecordDispatch(db, handle, op).value.1 == handle.operationRevision + 1
  {
    hide Decodes;
  }

  lemma Replied(s: Sys, q: nat, index: nat, verdict: Verdict)
    requires index < |Log(s, q)| && Log(s, q)[index].verdict == Unknown
    ensures var t := Next(s, Answer(q, index, verdict));
            t.db == s.db && Log(t, q) == Log(s, q)[index := Log(s, q)[index].(verdict := verdict)]
  {
  }

  /** How a settled mutation advances its build header. */
  function Advanced(p: Pending, op: Operation): Pending {
    match op
    case Create => p.(created := true, inFlight := None)
    case Insert(_) => p.(uploaded := p.uploaded + 1, inFlight := None)
  }

  lemma Finished(db: Db, handle: Pending, p: Pending, op: Operation, revision: nat)
    requires db.Header().pending == Some(p) && FinishDispatch(db, handle, op, revision, true).Ok?
    ensures var after := FinishDispatch(db, handle, op, revision, true).value.0;
            after.Header().pending == Some(Advanced(p, op)) && SameBuild(db, after, p, Advanced(p, op))
  {
    hide Decodes;
  }

  lemma SettledDb(s: Sys, handle: Pending, op: Operation, revision: nat, applied: bool)
    requires revision > 0 && revision <= |Log(s, handle.generation.sequence)|
    requires Log(s, handle.generation.sequence)[revision - 1] == Ticket(op, if applied then Acked else Refused)
    requires FinishDispatch(s.db, handle, op, revision, applied).Ok?
    ensures Next(s, Settle(handle, revision - 1)).db == FinishDispatch(s.db, handle, op, revision, applied).value.0
  {
    hide FinishDispatch;
  }

  /** Records a definite answer; an unknown one leaves the mutation in flight. */
  method SettleReply(store: ControlStore, handle: Pending, op: Operation, revision: nat, reply: Reply)
    returns (r: Result<(), Failed>)
    requires store.Valid() && revision == handle.operationRevision + 1
    requires store.View().Header().pending == Some(handle.(operationRevision := revision, inFlight := Some(op)))
    requires var log := Log(store.sys, handle.generation.sequence);
             |log| == revision && log[revision - 1] == Ticket(op, Unknown)
    modifies store
    ensures store.Valid() && old(store.history) <= store.history
    ensures r.Ok? ==>
              && reply == Applied
              && var later := Advanced(handle.(operationRevision := revision), op);
                 store.View().Header().pending == Some(later)
                 && SameBuild(old(store.View()), store.View(), handle, later)
    ensures reply == InDoubt ==> r == Err(UnknownDispatch) && store.sys == old(store.sys)
    ensures store.calm && reply == Applied ==> r.Ok?
  {
    hide Inv, Init, Run, Next, FinishDispatch, HeaderInv;
    if reply == InDoubt { return Err(UnknownDispatch); }
    var applied := reply == Applied;
    ghost var q := handle.generation.sequence;
    ghost var verdict := if applied then Acked else Refused;
    Replied(store.sys, q, revision - 1, verdict);
    store.Record(Answer(q, revision - 1, verdict));
    HeaderOf(store.sys);
    Progress.SettleSucceeds(store.View(), handle, handle.(operationRevision := revision, inFlight := Some(op)), op, revision,
                            applied);
    label answered:
    var settled := store.FinishDispatch(handle, op, revision, applied);
    if settled.Err? { return Err(Control(settled.error)); }
    SettledDb(old@answered(store.sys), handle, op, revision, applied);
    if !applied { return Err(Backend); }
    Finished(old@answered(store.View()), handle, handle.(operationRevision := revision, inFlight := Some(op)), op, revision);
    return Ok(());
  }

  /** Sends one mutation: recorded first, then dispatched, then settled. */
  method Send(store: ControlStore, handle: Pending, op: Operation) returns (r: Result<Pending, Failed>)
    requires store.Valid() && Ready(store.View(), handle)
    modifies store
    ensures store.Valid() && old(store.history) <= store.history
    ensures r.Ok? ==>
              && Ready(store.View(), r.value) && SameBuild(old(store.View()), store.View(), handle, r.value)
              && r.value == Advanced(handle.(operationRevision := handle.operationRevision + 1), op)
    ensures store.calm && Progress.NextOperation(handle, op) && OfPresent(old(store.View()), handle)
            && handle.operationRevision < U64_MAX
            ==> r.Ok?
  {
    hide Inv, Init, Run, Next, RecordDispatch, HeaderInv;
    HeaderOf(store.sys);
    Progress.DispatchSucceeds(store.View(), handle, op);
    var revision := store.RecordDispatch(handle, op);
    if revision.Err? { return Err(Control(revision.error)); }
    Dispatched(old(store.sys), handle, op);
    var reply: Reply :| store.calm ==> reply == Applied;
    var settled := SettleReply(store, handle, op, revision.value, reply);
    if settled.Err? { return Err(settled.error); }
    var interrupted := store.Interrupt();
    if interrupted.Some? { return Err(Control(interrupted.value)); }
    HeaderOf(store.sys);
    Progress.HeaderLoads(store.View());
    var pending := store.ReadPending();
    if pending.Err? { return Err(Control(pending.error)); }
    if pending.value.None? { return Err(Control(Stale)); }
    return Ok(pending.value.value);
  }

  /** Mutations a sealed build still needs. */
  function Remaining(p: Pending): int {
    (if p.created then 0 else 1) + p.generation.pageCount - p.uploaded
  }

  /** The build is of the present corpus, and its mutations can be counted. */
  predicate Uploadable(db: Db, p: Pending) {
    OfPresent(db, p) && p.operationRevision + Remaining(p) <= U64_MAX
  }

  /** Creates the collection once, then inserts the remaining pages in order. */
  method Upload(store: ControlStore, handle: Pending) returns (r: Result<Pending, Failed>)
    requires store.Valid() && Ready(store.View(), handle) && handle.uploaded <= handle.generation.pageCount
    modifies store
    ensures store.Valid() && old(store.history) <= store.history
    ensures r.Ok? ==>
              && Ready(store.View(), r.value) && SameBuild(old(store.View()), store.View(), handle, r.value)
              && r.value.created && r.value.uploaded == r.value.generation.pageCount
    ensures store.calm && Uploadable(old(store.View()), handle) ==> r.Ok?
  {
    hide Inv, Init, Run, PublicationTheorems.SameRows, SameBuild, OfPresent;
    SameBuildRefl(store.View(), handle);
    ghost var go := store.calm && Uploadable(store.View(), handle);
    var pending := handle;
    if !pending.created {
      var conflict: bool :| store.calm ==> !conflict;
      if conflict { return Err(Conflict); }
      pending :- Send(store, pending, Create);
      StillPresent(old(store.View()), store.View(), handle, pending);
    }
    var unverified: bool :| store.calm ==> !unverified;
    if unverified { return Err(Backend); }
    var number := pending.uploaded;
    while number < handle.generation.pageCount
      invariant store.Valid() && old(store.history) <= store.history
      invariant Ready(store.View(), pending) && SameBuild(old(store.View()), store.View(), handle, pending)
      invariant pending.created && pending.uploaded == number <= handle.generation.pageCount
      invariant pending.generation == handle.generation
      invariant go ==> Uploadable(store.View(), pending)
    {
      var unreadable: bool :| store.calm ==> !unreadable;
      if unreadable { return Err(Step(Unreadable)); }
      label page:
      ghost var last := pending;
      pending :- Send(store, pending, Insert(number));
      StillPresent(old@page(store.View()), store.View(), last, pending);
      SameBuildTrans(old(store.View()), old@page(store.View()), store.View(), handle, last, pending);
      number := number + 1;
    }
    return Ok(pending);
  }

  lemma StillPresent(before: Db, after: Db, p: Pending, later: Pending)
    requires SameBuild(before, after, p, later)
    ensures OfPresent(before, p) <==> OfPresent(after, later)
    ensures later.generation == p.generation
  {
  }

  lemma SameBuildRefl(db: Db, p: Pending)
    ensures SameBuild(db, db, p, p)
  {
  }

  lemma SameBuildTrans(a: Db, b: Db, c: Db, p: Pending, m: Pending, l: Pending)
    requires SameBuild(a, b, p, m) && SameBuild(b, c, m, l)
    ensures SameBuild(a, c, p, l)
  {
  }

  // ------------------------------------------------------------ cleanup

  /** Cleanup leaves the header, the corpus, every sequence that is not
      retired and every unresolved build exactly as they were. */
  ghost predicate CleansRetired(before: Db, after: Db) {
    && after.Header() == before.Header() && after.corpus == before.corpus
    && (forall k :: k in after.retired ==> k in before.retired)
    && (forall k: nat :: k !in before.retired || before.retired[k].unresolved.Some? ==>
          PublicationTheorems.SameRows(before, after, k))
    && (forall k :: k in before.retired && before.retired[k].unresolved.Some? ==>
          k in after.retired && after.retired[k] == before.retired[k])
  }

  lemma CleansMore(before: Db, mid: Db, after: Db, r: Retired)
    requires CleansRetired(before, mid) && CleansOnly(mid, after, r.generation.sequence)
    requires r.generation.sequence in before.retired && before.retired[r.generation.sequence] == r && r.unresolved.None?
    ensures CleansRetired(before, after)
  {
    var q := r.generation.sequence;
    forall k: nat | k !in before.retired || before.retired[k].unresolved.Some?
      ensures PublicationTheorems.SameRows(before, after, k)
    {
      assert PublicationTheorems.SameRows(before, mid, k) && PublicationTheorems.SameRows(mid, after, k);
    }
    hide PublicationTheorems.SameRows;
  }

  lemma RetiredKeys(db: Db)
    requires ReadRetirements(db).Ok?
    ensures forall r :: r in ReadRetirements(db).value ==>
              r.generation.sequence in db.retired && db.retired[r.generation.sequence] == r
  {
    hide Load;
    if Load(db).value.namespace.Some? {
      forall r | r in ReadRetirements(db).value
        ensures r.generation.sequence in db.retired && db.retired[r.generation.sequence] == r
      {
        var q :| q in db.retired && db.retired[q] == r;
        assert RetiredDecodes(Load(db).value, q, db.retired[q]);
      }
    }
  }

  lemma DeleteDb(s: Sys, r: Retired)
    requires r in s.retirees && r.unresolved.None? && r.remoteOwned
    ensures Next(s, DeleteRemote(r)) == s.(deleted := s.deleted + {r.generation.sequence})
  {
  }

  /** Nothing of a retired generation is left. */
  predicate Gone(db: Db, q: nat) {
    q !in db.retired && NoRows(db, q)
  }

  lemma GoneStays(mid: Db, after: Db, cleaned: nat, q: nat)
    requires CleansOnly(mid, after, cleaned) && Gone(mid, q) && q != cleaned
    ensures Gone(after, q)
  {
    assert PublicationTheorems.SameRows(mid, after, q);
  }

  /** Every settled row already dealt with is gone. */
  predicate Done(db: Db, read: set<Retired>, todo: set<Retired>) {
    forall x :: x in read && x !in todo && x.unresolved.None? ==> Gone(db, x.generation.sequence)
  }

  lemma DoneMore(base: Db, mid: Db, after: Db, read: set<Retired>, todo: set<Retired>, r: Retired)
    requires forall x :: x in read ==> x.generation.sequence in base.retired && base.retired[x.generation.sequence] == x
    requires r in read && Done(mid, read, todo + {r}) && CleansOnly(mid, after, r.generation.sequence)
    requires NoRows(after, r.generation.sequence) && r.generation.sequence !in after.retired
    ensures Done(after, read, todo)
  {
    hide CleansOnly;
    forall x | x in read && x !in todo && x.unresolved.None? ensures Gone(after, x.generation.sequence) {
      if x != r { GoneStays(mid, after, r.generation.sequence, x.generation.sequence); }
    }
  }

  /** Cleaning one retired row leaves the others to be cleaned. */
  lemma OthersRetired(before: Db, after: Db, r: Retired, todo: set<Retired>)
    requires CleansOnly(before, after, r.generation.sequence) && Progress.IsRetired(before, r) && r !in todo
    requires forall x :: x in todo ==> Progress.IsRetired(before, x)
    ensures forall x :: x in todo ==> Progress.IsRetired(after, x)
  {
    forall x | x in todo ensures Progress.IsRetired(after, x) {
      assert x.generation.sequence != r.generation.sequence;
    }
  }

  /** A read of the retired rows returns all of them. */
  lemma AllRetiredRead(db: Db)
    requires HeaderInv(db) && ReadRetirements(db).Ok?
    ensures forall q :: q in db.retired ==>
              db.retired[q] in ReadRetirements(db).value && db.retired[q].generation.sequence == q
  {
  }

  /** Deletes owned collections of settled retired generations, and their
      rows once the backend reports the collection absent. Success leaves
      nothing of any retired generation that was not in doubt. */
  method Cleanup(store: ControlStore) returns (r: Result<(), Failed>)
    requires store.Valid()
    modifies store
    ensures store.Valid() && old(store.history) <= store.history
    ensures CleansRetired(old(store.View()), store.View()) && old(store.sys).captures <= store.sys.captures
    ensures r.Ok? ==>
              forall q :: q in old(store.View()).retired && old(store.View()).retired[q].unresolved.None? ==>
                Gone(store.View(), q)
    ensures store.calm ==> r.Ok?
  {
    hide Inv, Init, Run, Next, CleansRetired, CleansOnly, ReadRetirements, NoRows;
    CleansNone(store.View());
    var read := store.RetiredGenerations();
    if read.Err? { return Err(Control(read.error)); }
    RetiredKeys(store.View());
    HeaderOf(store.sys);
    AllRetiredRead(store.View());
    hide HeaderInv;
    ReadKeeps(old(store.sys));
    var todo := read.value;
    hide Gone;
    while todo != {}
      invariant store.Valid() && old(store.history) <= store.history
      invariant CleansRetired(old(store.View()), store.View()) && old(store.sys).captures <= store.sys.captures
      invariant todo <= read.value <= store.sys.retirees
      invariant Done(store.View(), read.value, todo)
      invariant forall x :: x in todo ==> Progress.IsRetired(store.View(), x)
      decreases |todo|
    {
      var retired :| retired in todo;
      todo := todo - {retired};
      if retired.unresolved.None? {
        if retired.remoteOwned {
          DeleteDb(store.sys, retired);
          store.Record(DeleteRemote(retired));
          var present: bool :| store.calm ==> !present;
          if present { return Err(Backend); }
        }
        label finishing:
        var finished := store.FinishRetirement(retired);
        CleansMore(old(store.View()), old@finishing(store.View()), store.View(), retired);
        if finished.Err? { return Err(Control(finished.error)); }
        DoneMore(old(store.View()), old@finishing(store.View()), store.View(), read.value, todo, retired);
        OthersRetired(old@finishing(store.View()), store.View(), retired, todo);
      }
    }
    return Ok(());
  }

  lemma CleansNone(db: Db)
    ensures CleansRetired(db, db)
  {
  }

  lemma ReadKeeps(s: Sys)
    ensures Next(s, ReadRetired).captures == s.captures
  {
    hide ReadRetirements;
  }

  // -------------------------------------------------------- verification

  ghost predicate Accepted(db: Db, g: Generation) {
    GraphOk(g, At(db.sources, g.sequence), At(db.pages, g.sequence), At(db.evidence, g.sequence))
  }

  /** A generation the header names as current, or as sealed and pending. */
  predicate Named(s: State, g: Generation) {
    s.current == Some(g) || (s.pending.Some? && s.pending.value.captureComplete && s.pending.value.generation == g)
  }

  /** Checks the graph of the current generation or of a sealed build:
      succeeds exactly for a named generation whose rows are accepted. */
  method ValidateGeneration(store: ControlStore, g: Generation) returns (r: Result<(), Failed>)
    ensures r.Ok? <==> Load(store.View()).Ok? && Named(Load(store.View()).value, g) && Accepted(store.View(), g)
    ensures r == Err(Control(Stale)) <==> Load(store.View()).Ok? && !Named(Load(store.View()).value, g)
    ensures r.Err? ==> r.error == Control(Stale) || r.error == Control(Corrupt)
  {
    hide GraphOk;
    var state := Load(store.View());
    if state.Err? { return Err(Control(state.error)); }
    var s := state.value;
    if s.current != Some(g) && !(s.pending.Some? && s.pending.value.captureComplete && s.pending.value.generation == g) {
      return Err(Control(Stale));
    }
    var checked := VerifyGeneration(g, At(store.sources, g.sequence), At(store.pages, g.sequence),
                                    At(store.evidence, g.sequence));
    if checked.Err? { return Err(Control(checked.error)); }
    return Ok(());
  }

  /** Opens the served generation after the same exhaustive check: succeeds
      exactly when there is one and its rows are accepted. */
  method OpenPublished(store: ControlStore) returns (r: Result<Generation, Failed>)
    ensures r.Ok? <==>
              && Load(store.View()).Ok? && Load(store.View()).value.current.Some?
              && Accepted(store.View(), Load(store.View()).value.current.value)
    ensures r.Ok? ==> store.View().Header().current == Some(r.value)
    ensures r == Err(Control(NotPublished)) <==> Load(store.View()).Ok? && Load(store.View()).value.current.None?
    ensures r.Err? ==> r.error == Control(NotPublished) || r.error == Control(Corrupt)
  {
    hide GraphOk;
    var state := Load(store.View());
    if state.Err? { return Err(Control(state.error)); }
    if state.value.current.None? { return Err(Control(NotPublished)); }
    var g := state.value.current.value;
    var checked := VerifyGeneration(g, At(store.sources, g.sequence), At(store.pages, g.sequence),
                                    At(store.evidence, g.sequence));
    if checked.Err? { return Err(Control(checked.error)); }
    return Ok(g);
  }

  // ------------------------------------------------------------- driver

  lemma SnapshotSame(before: Db, after: Db, g: Generation)
    requires PublicationTheorems.SnapshotOf(before, g)
    requires PublicationTheorems.SameRows(before, after, g.sequence) && after.corpus == before.corpus
    ensures PublicationTheorems.SnapshotOf(after, g)
  {
  }

  lemma CurrentStillFresh(s: Sys, after: Db, g: Generation)
    requires Inv(s) && s.db.Header().current == Some(g) && PublicationTheorems.SnapshotOf(s.db, g)
    requires CleansRetired(s.db, after)
    ensures PublicationTheorems.SnapshotOf(after, g)
  {
    hide CorpusInv, RowsInv, FreshInv, LedgerInv, RetireInv, PublicationTheorems.SnapshotOf,
         PublicationTheorems.SameRows, HeaderInv;
    ClosingSteps.CurrentNotRetired(s.db, g.sequence);
    SnapshotSame(s.db, after, g);
  }

  lemma PendingBounded(s: Sys)
    requires Inv(s) && s.db.Header().pending.Some?
    ensures s.db.Header().pending.value.uploaded <= s.db.Header().pending.value.generation.pageCount
  {
    hide CorpusInv, RowsInv, FreshInv, LedgerInv, RetireInv;
  }

  lemma SupersededDb(s: Sys, handle: Pending)
    ensures Next(s, Supersede(handle)).db == After(s.db, SupersedeUnknown(s.db, handle))
  {
    hide SupersedeUnknown;
  }

  lemma CapturedState(c: Capture, db: Db)
    requires IsCapture(c, db)
    ensures c.state == db.Header() && Ascending(c.sources) && forall x :: x in c.sources ==> x.Consistent()
  {
    hide Charged, Decodes, Ascending;
  }

  lemma CurrentAcknowledged(s: Sys, g: Generation)
    requires Inv(s) && s.db.Header().current == Some(g)
    ensures Settled(Log(s, g.sequence)) && AckedOps(Log(s, g.sequence)) == [Create] + Inserts(g.pageCount)
  {
    hide CorpusInv, HeaderInv, RowsInv, FreshInv, RemoteInv, DeletedInv, RetireInv, Settled, AckedOps, Inserts;
  }

  /** A pending build's one mutation has no known result. */
  predicate LeftOpen(s: State) {
    s.pending.Some? && s.pending.value.inFlight.Some?
  }

  /** Every source is prepared, and all of it can be captured. */
  ghost predicate Capturable(db: Db) {
    (forall id :: id in db.Rows() ==> Prepared(db, id)) && !TooMuch(db)
  }

  /** The build that is pending was sealed from the present corpus. */
  predicate Resumable(db: Db, p: Pending) {
    p.captureComplete && OfPresent(db, p)
  }

  /** What setting aside a build in doubt does, or nothing. */
  predicate SetAside(before: Db, after: Db) {
    if LeftOpen(before.Header()) then
      var p := before.Header().pending.value;
      && after == before.(state := after.state, retired := after.retired)
      && after.Header() == before.Header().(pending := None)
      && p.generation.sequence !in before.retired
      && after.retired == before.retired[p.generation.sequence := Retired(p.generation, p.created, Some(p))]
    else after == before
  }

  lemma SupersedeSetsAside(s: Sys, handle: Pending)
    requires Inv(s) && s.db.Header().pending == Some(handle) && handle.inFlight.Some?
    requires SupersedeUnknown(s.db, handle).Ok?
    ensures SetAside(s.db, SupersedeUnknown(s.db, handle).value.0)
  {
    hide CorpusInv, RowsInv, FreshInv, LedgerInv, RetireInv, Decodes, RetiredDecodes;
  }

  lemma StillCapturable(before: Db, after: Db)
    requires after.corpus == before.corpus && Capturable(before)
    ensures Capturable(after)
  {
    hide PassesBounds;
    forall id | id in after.Rows() ensures Prepared(after, id) { assert Prepared(before, id); }
    forall read: seq<Captured>, todo: set<Id>, id: Id | PassesBounds(after, read, todo, id)
      ensures PassesBounds(before, read, todo, id)
    {
      SameJoin(before, after, read, todo, id);
    }
  }

  lemma SameJoin(before: Db, after: Db, read: seq<Captured>, todo: set<Id>, id: Id)
    requires after.corpus == before.corpus
    ensures PassesBounds(after, read, todo, id) <==> PassesBounds(before, read, todo, id)
  {
    hide Charged, Ascending;
    assert after.Rows() == before.Rows() && after.Preparations() == before.Preparations();
    assert after.Join() == before.Join();
  }

  /** A capture finds the pending build to be of its corpus exactly when it is
      of the present one. */
  lemma CaptureMatches(s: Sys, c: Capture)
    requires Inv(s) && IsCapture(c, s.db) && s.db.Header().pending.Some?
    ensures c.state == s.db.Header() && (c.PendingMatches() <==> OfPresent(s.db, s.db.Header().pending.value))
  {
    hide CorpusInv, RowsInv, FreshInv, LedgerInv, RetireInv, Charged, Ascending, Decodes, RetiredDecodes;
  }

  /** Captures the corpus after any build left in doubt has been set aside,
      and reports whether there was one. An unfinished or outdated build is
      abandoned and the caller told to come again. */
  method Recover(store: ControlStore) returns (r: Result<(Capture, bool), Failed>)
    requires store.Valid()
    modifies store
    ensures store.Valid() && old(store.history) <= store.history
    ensures r.Ok? ==>
              var c := r.value.0;
              && IsCapture(c, store.View()) && c in store.sys.captures
              && (c.state.pending.Some? ==>
                    c.state.pending.value.inFlight.None? && c.state.pending.value.captureComplete && c.PendingMatches())
              && (r.value.1 <==> LeftOpen(old(store.View()).Header())) && (r.value.1 ==> c.state.pending.None?)
              && SetAside(old(store.View()), store.View())
    ensures store.calm && Capturable(old(store.View())) ==>
              var h := old(store.View()).Header();
              if h.pending.Some? && h.pending.value.inFlight.None? && !Resumable(old(store.View()), h.pending.value) then
                && r == Err(Control(Stale)) && store.View().Header().pending.None?
                && store.View().corpus == old(store.View()).corpus
              else r.Ok?
  {
    hide Inv, Init, Run, Next, IsCapture, SupersedeUnknown, AbandonBuild, HeaderInv, Capturable, OfPresent, SetAside,
         TooMuch, Prepared;
    ghost var go := store.calm && Capturable(store.View());
    var first := store.CaptureCorpus();
    if first.Err? {
      if store.calm { CaptureRefused(store.View()); }
      return Err(Control(first.error));
    }
    var c, superseded := first.value, false;
    CapturedState(c, store.View());
    HeaderOf(store.sys);
    if c.state.pending.Some? && c.state.pending.value.inFlight.Some? {
      var handle := c.state.pending.value;
      Progress.SupersedeSucceeds(store.View(), handle);
      label doubt:
      var released := store.SupersedeUnknown(handle);
      if released.Err? { return Err(Control(released.error)); }
      SupersedeSetsAside(old@doubt(store.sys), handle);
      SupersededDb(old@doubt(store.sys), handle);
      AsideFacts(old@doubt(store.View()), store.View());
      if go { StillCapturable(old(store.View()), store.View()); }
      superseded := true;
      var second := store.CaptureCorpus();
      if second.Err? {
        if store.calm { CaptureRefused(store.View()); }
        return Err(Control(second.error));
      }
      c := second.value;
      CapturedState(c, store.View());
      return Ok((c, superseded));
    }
    NothingAside(store.View());
    if c.state.pending.Some? {
      CaptureMatches(store.sys, c);
      Progress.AbandonSucceeds(store.View(), c.state.pending.value);
      if !c.state.pending.value.captureComplete || !c.PendingMatches() {
        label stale:
        var abandoned := store.AbandonBuild(c.state.pending.value);
        if abandoned.Err? { return Err(Control(abandoned.error)); }
        AbandonedDb(old@stale(store.sys), c.state.pending.value);
        return Err(Control(Stale));
      }
    }
    return Ok((c, superseded));
  }

  lemma CaptureRefused(db: Db)
    requires (exists id :: id in db.Rows() && !Prepared(db, id)) || TooMuch(db)
    ensures !Capturable(db)
  {
    hide TooMuch, Prepared;
  }

  lemma NothingAside(db: Db)
    requires !LeftOpen(db.Header())
    ensures SetAside(db, db)
  {
  }

  lemma AsideFacts(before: Db, after: Db)
    requires SetAside(before, after) && LeftOpen(before.Header())
    ensures after.Header().pending.None? && after.corpus == before.corpus
  {
  }

  lemma AbandonedDb(s: Sys, p: Pending)
    requires AbandonBuild(s.db, p).Ok?
    ensures var db := Next(s, Abandon(p)).db; db.Header().pending.None? && db.corpus == s.db.corpus
  {
    hide Decodes;
  }

  /** A capture can be built and uploaded whole, or its sealed build can. */
  ghost predicate CanBuild(db: Db, c: Capture, decode: Captured -> Option<seq<UnitSpan>>, wire: seq<Point> -> Wire) {
    match c.state.pending
    case Some(p) => Uploadable(db, p)
    case None => Startable(db, c) && CorpusReady(c.sources, decode, wire)
  }

  lemma UnsentUploads(s: Sys, p: Pending)
    requires Inv(s) && s.db.Header().pending == Some(p) && Unsent(s.db, p)
    ensures Uploadable(s.db, p)
  {
    hide CorpusInv, RowsInv, FreshInv, LedgerInv, RetireInv, RetiredDecodes, WantedIs;
  }

  lemma AcceptedStays(before: Db, after: Db, p: Pending, later: Pending)
    requires SameBuild(before, after, p, later)
    ensures Accepted(before, p.generation) <==> Accepted(after, later.generation)
  {
    hide GraphOk;
  }

  lemma BuildBeside(before: Db, after: Db, p: Pending, later: Pending)
    requires SameBuild(before, after, p, later)
    ensures BesidePending(before, after) && later.generation == p.generation
  {
  }

  /** Builds from a capture, or resumes the sealed build it found, and uploads
      everything. */
  method BuildAndUpload(store: ControlStore, c: Capture, decode: Captured -> Option<seq<UnitSpan>>,
                        wire: seq<Point> -> Wire)
    returns (r: Result<Pending, Failed>)
    requires store.Valid() && Partitions(decode) && c in store.sys.captures && c.state == store.View().Header()
    requires Ascending(c.sources) && forall x :: x in c.sources ==> x.Consistent()
    requires c.state.pending.Some? ==>
               c.state.pending.value.inFlight.None? && c.state.pending.value.captureComplete
    modifies store
    ensures store.Valid() && old(store.history) <= store.history
    ensures r.Ok? ==>
              && Ready(store.View(), r.value) && r.value.created && r.value.uploaded == r.value.generation.pageCount
              && (c.state.pending.Some? ==> r.value.generation == c.state.pending.value.generation)
              && BesidePending(old(store.View()), store.View())
    ensures r.Ok? && (c.state.pending.Some? ==> OfPresent(old(store.View()), c.state.pending.value)) ==>
              OfPresent(store.View(), r.value)
    ensures r.Ok? && (c.state.pending.Some? ==> Accepted(old(store.View()), c.state.pending.value.generation)) ==>
              Accepted(store.View(), r.value.generation)
    ensures store.calm && CanBuild(old(store.View()), c, decode, wire) ==> r.Ok?
  {
    hide Inv, Init, Run, Ascending, Started, Partitions, GraphOk, PublicationTheorems.SameRows, SameBuild, Accepted,
         OfPresent, Uploadable, Startable, CorpusReady, BesidePending, Unsent;
    var pending: Pending;
    if c.state.pending.Some? {
      pending := c.state.pending.value;
      BesideSelf(store.View());
    } else {
      var started := store.StartBuild(c);
      if started.Err? { return Err(Control(started.error)); }
      label staging:
      var staged := StageCapture(store, started.value, c, decode, wire);
      if staged.Err? { return Err(Step(staged.error)); }
      pending := staged.value;
      BesideTrans(old(store.View()), old@staging(store.View()), store.View());
      UnsentUploads(store.sys, pending);
      StagedPresent(store.View(), pending);
    }
    PendingBounded(store.sys);
    label sending:
    r := Upload(store, pending);
    if r.Ok? {
      AcceptedStays(old@sending(store.View()), store.View(), pending, r.value);
      StillPresent(old@sending(store.View()), store.View(), pending, r.value);
      BuildBeside(old@sending(store.View()), store.View(), pending, r.value);
      BesideTrans(old(store.View()), old@sending(store.View()), store.View());
    }
  }

  lemma BesideSelf(db: Db)
    ensures BesidePending(db, db)
  {
  }

  lemma StagedPresent(db: Db, p: Pending)
    requires Unsent(db, p)
    requires GraphOk(p.generation, At(db.sources, p.generation.sequence), At(db.pages, p.generation.sequence),
                     At(db.evidence, p.generation.sequence))
    ensures OfPresent(db, p) && Accepted(db, p.generation)
  {
    hide GraphOk;
  }

  /** Retired builds whose effect is not known; cleanup keeps them. */
  function DoubtfulBuilds(db: Db): set<nat> {
    set q | q in db.retired && db.retired[q].unresolved.Some?
  }

  /** The current generation was built from the present corpus. */
  predicate Served(db: Db) {
    db.Header().current.Some? && db.Header().current.value.wanted == db.Wanted()
  }

  /** What is left to do succeeds when nothing interrupts it: the corpus is
      prepared and within the limits, and what is served or resumed is sound.
      A new build needs every source to be staged, a free place in the retired
      table and a sequence; a commit needs a revision. */
  ghost predicate CanPublish(db: Db, decode: Captured -> Option<seq<UnitSpan>>, wire: seq<Point> -> Wire) {
    var h := db.Header();
    && Capturable(db)
    && if h.pending.Some? && h.pending.value.inFlight.None? then
         && Resumable(db, h.pending.value) && Uploadable(db, h.pending.value) && Accepted(db, h.pending.value.generation)
         && h.currentRevision < U64_MAX
       else if h.pending.None? && Served(db) then Accepted(db, h.current.value)
       else
         && |DoubtfulBuilds(db)| + (if h.pending.Some? then 1 else 0) < MAX_RETIRED
         && h.nextSequence < U64_MAX && h.currentRevision < U64_MAX
         && forall sources: seq<Captured> :: Joined(db, sources, db.Rows().Keys) ==> CorpusReady(sources, decode, wire)
  }

  /** A root that was never published can publish a corpus of which nothing
      could be prepared: every source a gap. */
  lemma GapsCanPublish(db: Db, decode: Captured -> Option<seq<UnitSpan>>, wire: seq<Point> -> Wire)
    requires db.state.None? && db.retired == map[] && Capturable(db) && Measures(wire)
    requires forall id :: id in db.Join() ==> db.Join()[id].IsGap()
    ensures CanPublish(db, decode, wire)
  {
    hide Capturable, Measures, Ascending;
    forall sources: seq<Captured> | Joined(db, sources, db.Rows().Keys) ensures CorpusReady(sources, decode, wire) {
      forall x | x in sources ensures Artifact(x).None? && x.preparation.outcome.Some? {
        assert x.source.id in db.Join() && db.Join()[x.source.id] == x;
      }
      NoUnitsBehind(sources, decode);
    }
    assert DoubtfulBuilds(db) == {};
  }

  lemma {:induction false} NoUnitsBehind(sources: seq<Captured>, decode: Captured -> Option<seq<UnitSpan>>)
    requires forall x :: x in sources ==> Artifact(x).None?
    ensures TotalUnits(sources, decode) == 0
  {
    if sources != [] { NoUnitsBehind(sources[..|sources|-1], decode); }
  }

  /** After recovery and cleanup only the builds in doubt are still retired. */
  lemma RoomLeft(before: Db, aside: Db, cleaned: Db)
    requires SetAside(before, aside) && CleansRetired(aside, cleaned)
    requires forall q :: q in aside.retired && aside.retired[q].unresolved.None? ==> Gone(cleaned, q)
    ensures |cleaned.retired| <= |DoubtfulBuilds(before)| + if LeftOpen(before.Header()) then 1 else 0
  {
    hide NoRows, PublicationTheorems.SameRows;
    var doubt :=
      DoubtfulBuilds(before)
      + if LeftOpen(before.Header()) then {before.Header().pending.value.generation.sequence} else {};
    assert cleaned.retired.Keys <= doubt;
    Sets.SubsetSize(cleaned.retired.Keys, doubt);
    assert |cleaned.retired.Keys| == |cleaned.retired|;
  }

  lemma CaptureStands(c: Capture, db: Db, cleaned: Db)
    requires IsCapture(c, db) && cleaned.corpus == db.corpus && Load(cleaned) == Load(db)
    ensures IsCapture(c, cleaned) && c.wanted == db.Wanted()
    ensures Joined(cleaned, c.sources, cleaned.Rows().Keys)
  {
    hide Load, Ascending, Charged;
    assert cleaned.Rows() == db.Rows() && cleaned.Preparations() == db.Preparations();
    assert cleaned.Join() == db.Join();
  }

  lemma SameJoined(before: Db, after: Db, sources: seq<Captured>)
    requires after.corpus == before.corpus
    ensures Joined(after, sources, after.Rows().Keys) <==> Joined(before, sources, before.Rows().Keys)
  {
    hide Ascending;
    assert after.Rows() == before.Rows() && after.Preparations() == before.Preparations();
    assert after.Join() == before.Join();
  }

  /** What recovery and cleanup leave of the conditions to publish. */
  lemma ReadyToBuild(before: Db, aside: Db, s: Sys, c: Capture, decode: Captured -> Option<seq<UnitSpan>>,
                     wire: seq<Point> -> Wire)
    requires CanPublish(before, decode, wire) && SetAside(before, aside) && CleansRetired(aside, s.db) && Inv(s)
    requires forall q :: q in aside.retired && aside.retired[q].unresolved.None? ==> Gone(s.db, q)
    requires IsCapture(c, aside) && c.state == aside.Header() && HeaderInv(aside)
    ensures if c.state.pending.None? && c.CurrentMatches() && !LeftOpen(before.Header()) then
              c.state.current.Some? && Accepted(s.db, c.state.current.value)
            else
              && CanBuild(s.db, c, decode, wire) && s.db.Header().currentRevision < U64_MAX
              && (c.state.pending.Some? ==>
                    OfPresent(s.db, c.state.pending.value) && Accepted(s.db, c.state.pending.value.generation))
  {
    hide Inv, CleansRetired, Gone, Capturable, CorpusReady, Joined, Accepted, IsCapture, Charged, HeaderInv,
         DoubtfulBuilds;
    RoomLeft(before, aside, s.db);
    Progress.HeaderLoads(aside);
    CleanedFacts(aside, s);
    CaptureStands(c, aside, s.db);
    SameJoined(before, s.db, c.sources);
    HeaderRows(before, aside, s.db);
    hide Load;
  }

  lemma CleanedFacts(aside: Db, s: Sys)
    requires CleansRetired(aside, s.db) && Inv(s)
    ensures s.db.corpus == aside.corpus && s.db.Header() == aside.Header()
    ensures Load(s.db) == Ok(s.db.Header())
  {
    HeaderOf(s);
    Progress.HeaderLoads(s.db);
  }

  lemma SameAcceptance(before: Db, after: Db, g: Generation)
    requires PublicationTheorems.SameRows(before, after, g.sequence)
    ensures Accepted(before, g) <==> Accepted(after, g)
  {
    hide GraphOk;
  }

  lemma AsideRows(before: Db, aside: Db, q: nat)
    requires SetAside(before, aside)
    ensures PublicationTheorems.SameRows(before, aside, q)
  {
  }

  /** The rows of the current and of the pending generation stay as they are. */
  lemma HeaderRows(before: Db, aside: Db, cleaned: Db)
    requires SetAside(before, aside) && CleansRetired(aside, cleaned) && HeaderInv(aside)
    ensures var h := aside.Header();
            && (h.current.Some? ==> (Accepted(cleaned, h.current.value) <==> Accepted(before, h.current.value)))
            && (h.pending.Some? ==>
                  (Accepted(cleaned, h.pending.value.generation) <==> Accepted(before, h.pending.value.generation)))
  {
    hide Accepted, SetAside, PublicationTheorems.SameRows, HeaderInv;
    var h := aside.Header();
    if h.current.Some? {
      var g := h.current.value;
      ClosingSteps.CurrentNotRetired(aside, g.sequence);
      AsideRows(before, aside, g.sequence);
      SameAcceptance(before, aside, g);
      SameAcceptance(aside, cleaned, g);
    }
    if h.pending.Some? {
      var g := h.pending.value.generation;
      PendingSteps.PendingNotRetired(aside, g.sequence);
      AsideRows(before, aside, g.sequence);
      SameAcceptance(before, aside, g);
      SameAcceptance(aside, cleaned, g);
    }
  }

  /** An uploaded build of the present corpus can be committed. */
  lemma CommitReady(before: Db, after: Db, p: Pending)
    requires BesidePending(before, after) && HeaderInv(after) && Ready(after, p) && OfPresent(after, p)
    requires p.created && p.uploaded == p.generation.pageCount && before.Header().currentRevision < U64_MAX
    ensures CommitGeneration(after, p).Ok?
  {
    Progress.CommitSucceeds(after, p);
    hide HeaderInv, CommitGeneration;
  }

  /** A commit leaves the rows it publishes as they were checked. */
  lemma CommittedAccepted(s: Sys, p: Pending)
    requires Accepted(s.db, p.generation)
    ensures Accepted(Next(s, Commit(p)).db, p.generation)
  {
    hide Accepted, CommitGeneration;
    if CommitGeneration(s.db, p).Ok? {
      ClosingSteps.CommitEffect(s, p);
      SameAcceptance(s.db, Next(s, Commit(p)).db, p.generation);
    }
  }

  /** Finds the generation to verify: the current one if it is of the present
      corpus, or a build, new or resumed, uploaded whole. */
  method PrepareGeneration(store: ControlStore, decode: Captured -> Option<seq<UnitSpan>>, wire: seq<Point> -> Wire)
    returns (r: Result<(Generation, Option<Pending>), Failed>)
    requires store.Valid() && Partitions(decode)
    modifies store
    ensures store.Valid() && old(store.history) <= store.history
    ensures r.Ok? ==>
              match r.value.1
              case Some(p) => Ready(store.View(), p) && p.generation == r.value.0
              case None => store.View().Header().current == Some(r.value.0)
                           && PublicationTheorems.SnapshotOf(store.View(), r.value.0)
    ensures store.calm && CanPublish(old(store.View()), decode, wire) ==>
              && r.Ok? && Accepted(store.View(), r.value.0)
              && (r.value.1.Some? ==> CommitGeneration(store.View(), r.value.1.value).Ok?)
  {
    hide Inv, Init, Run, IsCapture, Accepted, PublicationTheorems.SnapshotOf, CleansRetired, Partitions, Ascending,
         CanPublish, SetAside, CanBuild, Gone, OfPresent, BesidePending, HeaderInv, CommitGeneration, Next, Capturable,
         Resumable;
    ghost var go := store.calm && CanPublish(store.View(), decode, wire);
    if go { PublishCaptures(store.View(), decode, wire); }
    var recovered := Recover(store);
    if recovered.Err? { return Err(recovered.error); }
    var c, superseded := recovered.value.0, recovered.value.1;
    CapturedState(c, store.View());
    HeaderOf(store.sys);
    label captured:
    var cleaned := Cleanup(store);
    if cleaned.Err? { return Err(cleaned.error); }
    HeaderSame(old@captured(store.View()), store.View());
    if go { ReadyToBuild(old(store.View()), old@captured(store.View()), store.sys, c, decode, wire); }
    if c.state.pending.None? && c.CurrentMatches() && !superseded {
      var generation := c.state.current.value;
      PublicationTheorems.CurrentMatchIsFresh(store.origin, old@captured(store.history), c);
      CurrentStillFresh(old@captured(store.sys), store.View(), generation);
      return Ok((generation, None));
    }
    label building:
    var uploaded := BuildAndUpload(store, c, decode, wire);
    if uploaded.Err? { return Err(uploaded.error); }
    HeaderOf(store.sys);
    if go { CommitReady(old@building(store.View()), store.View(), uploaded.value); }
    return Ok((uploaded.value.generation, Some(uploaded.value)));
  }

  /** Publishes the corpus and opens the result. Whatever interrupts it, the
      database is left in a state of the protocol; when it succeeds, the
      generation it opened is current, is exactly the present source and
      preparation tables, passed the exhaustive check on the rows as they now
      stand, and was fully acknowledged by the backend. When nothing interrupts
      it and every mutation is acknowledged, it succeeds whenever the corpus is
      prepared and within the limits. */
  method PrepareView(store: ControlStore, decode: Captured -> Option<seq<UnitSpan>>, wire: seq<Point> -> Wire)
    returns (r: Result<Generation, Failed>)
    requires store.Valid() && Partitions(decode)
    modifies store
    ensures store.Valid() && old(store.history) <= store.history
    ensures r.Ok? ==>
              && store.View().Header().current == Some(r.value)
              && PublicationTheorems.SnapshotOf(store.View(), r.value)
              && Accepted(store.View(), r.value)
              && Settled(Log(store.sys, r.value.sequence))
              && AckedOps(Log(store.sys, r.value.sequence)) == [Create] + Inserts(r.value.pageCount)
    ensures store.calm && CanPublish(old(store.View()), decode, wire) ==> r.Ok?
  {
    hide Inv, Init, Run, Accepted, PublicationTheorems.SnapshotOf, Partitions, Settled, AckedOps, Inserts, CanPublish,
         HeaderInv, CommitGeneration, Next;
    var prepared := PrepareGeneration(store, decode, wire);
    if prepared.Err? { return Err(prepared.error); }
    var generation, build := prepared.value.0, prepared.value.1;
    HeaderOf(store.sys);
    Progress.HeaderLoads(store.View());
    var valid := ValidateGeneration(store, generation);
    if valid.Err? { return Err(valid.error); }
    var unverified: bool :| store.calm ==> !unverified;
    if unverified { return Err(Unverified); }
    if build.Some? {
      CommittedAccepted(store.sys, build.value);
      var committed := store.CommitGeneration(build.value);
      if committed.Err? { return Err(Control(committed.error)); }
      generation := committed.value;
    }
    HeaderOf(store.sys);
    Progress.HeaderLoads(store.View());
    var view := OpenPublished(store);
    if view.Err? { return Err(view.error); }
    if view.value != generation { return Err(Control(Stale)); }
    CurrentAcknowledged(store.sys, generation);
    return Ok(generation);
  }

  lemma PublishCaptures(db: Db, decode: Captured -> Option<seq<UnitSpan>>, wire: seq<Point> -> Wire)
    requires CanPublish(db, decode, wire)
    ensures Capturable(db)
    ensures var h := db.Header();
            h.pending.Some? && h.pending.value.inFlight.None? ==> Resumable(db, h.pending.value)
  {
    hide Capturable, CorpusReady, Joined, Accepted;
  }

  lemma HeaderSame(before: Db, after: Db)
    requires CleansRetired(before, after)
    ensures after.Header() == before.Header()
  {
  }
}
