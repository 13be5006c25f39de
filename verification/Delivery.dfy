/** What the client holds after any run of a session: the flushed pages, cut as
    the window cuts them, are accepted one by one and add up to the committed
    prefix of the result. */
module Delivery {
  import opened Wrappers
  import opened Session
  import opened Window

  /** Every page the worker makes asks for an item, as cutting a page at the
      cursor does: what is left then decides how many it gets. */
  predicate CutByWindow(events: seq<Event>) {
    forall i :: 0 <= i < |events| && events[i].Work? && events[i].work.PageOf? ==> events[i].work.count > 0
  }

  /** A range with an item in it, unless it starts at the end. */
  predicate Full(start: nat, next: nat, retained: nat) {
    start < next || start >= retained
  }

  predicate ReadyFull(ready: Ready, retained: nat) {
    ready.commit.Some? ==> Full(ready.commit.value.0, ready.commit.value.1, retained)
  }

  predicate IoFull(io: Io, retained: nat) {
    && (io.output.Some? ==> ReadyFull(io.output.value.ready, retained))
    && (forall i :: 0 <= i < |io.sent| && io.sent[i].Commit? ==> Full(io.sent[i].expected, io.sent[i].next, retained))
  }

  predicate PagesFull(s: Conversation, retained: nat) {
    && IoFull(s.io, retained)
    && (forall job :: job in s.replies ==> ReadyFull(s.replies[job], retained))
  }

  lemma AcceptFull(io: Io, m: Message, retained: nat)
    requires IoFull(io, retained) && Accept(io, m).Ok?
    ensures IoFull(Accept(io, m).value, retained)
  {
  }

  lemma FlushedFull(io: Io, retained: nat)
    requires IoFull(io, retained) && Flushed(io).Ok?
    ensures IoFull(Flushed(io).value.0, retained)
  {
    hide Accept;
    var out := io.output.value;
    var sent := if out.ready.commit.Some?
                then io.sent + [Commit(out.ready.commit.value.0, out.ready.commit.value.1, out.job)] else io.sent;
    var after := io.(output := None, sent := sent, completed := Some(out.id));
    assert IoFull(after, retained);
    if !out.ready.end && after.deferred.Some? && !after.deferred.value.cancelled {
      AcceptFull(after.(deferred := None), after.deferred.value.message, retained);
    }
  }

  lemma WorkFull(s: Conversation, work: Work, retained: nat)
    requires PagesFull(s, retained) && (work.PageOf? ==> work.count > 0)
    ensures PagesFull(WorkerStep(s, work, retained), retained)
  {
    WorkerLeavesIo(s, work, retained);
  }

  lemma NextFull(s: Conversation, e: Event, retained: nat)
    requires PagesFull(s, retained) && (e.Work? && e.work.PageOf? ==> e.work.count > 0)
    ensures PagesFull(Next(s, e, retained), retained)
  {
    hide Accept, Flushed, WorkerStep;
    if !s.over {
      match e
      case Frame(m) => if Accept(s.io, m).Ok? { AcceptFull(s.io, m, retained); }
      case Flush => if s.io.output.Some? && Flushed(s.io).Ok? { FlushedFull(s.io, retained); }
      case Work(work) => WorkFull(s, work, retained);
      case _ =>
    }
  }

  lemma {:induction false} RunFull(events: seq<Event>, retained: nat)
    requires CutByWindow(events)
    ensures PagesFull(Run(FreshSession, events, retained), retained)
  {
    if events != [] {
      hide PagesFull, Next;
      RunFull(events[..|events|-1], retained);
      NextFull(Run(FreshSession, events[..|events|-1], retained), events[|events|-1], retained);
    } else {
      FreshFull(retained);
    }
  }

  lemma FreshFull(retained: nat)
    ensures PagesFull(FreshSession, retained)
  {
  }

  /** The entries of all flushed pages, in flush order. */
  function Held(sent: seq<Command>, items: seq<Item>): seq<Entry> {
    if sent == [] then []
    else
      var last := sent[|sent|-1];
      Held(sent[..|sent|-1], items)
      + if last.Commit? && last.expected <= last.next <= |items| then Entries(items, last.expected, last.next) else []
  }

  lemma {:induction false} HeldIsPrefix(sent: seq<Command>, items: seq<Item>)
    requires Chained(sent, |items|)
    ensures End(sent) <= |items| && Held(sent, items) == Entries(items, 0, End(sent))
  {
    if sent != [] { HeldIsPrefix(sent[..|sent|-1], items); }
  }

  lemma {:induction false} ChainedFront(sent: seq<Command>, i: nat, retained: nat)
    requires Chained(sent, retained) && i <= |sent|
    ensures Chained(sent[..i], retained)
    decreases |sent|
  {
    if i < |sent| {
      ChainedFront(sent[..|sent|-1], i, retained);
      assert sent[..|sent|-1][..i] == sent[..i];
    } else {
      assert sent[..i] == sent;
    }
  }

  /** The page behind a cursor move, as it was cut for some page size. */
  function PageOfMove(c: Command, items: seq<Item>, summary: Summary, pageSize: nat): Page
    requires c.Commit? && c.expected <= c.next <= |items|
  {
    PageAt(items, summary, c.expected, c.next - c.expected, Wanted(|items|, c.expected, pageSize))
  }

  /** If this command moves the cursor, the client accepts its page against the
      pages flushed before it, had it been asked for that page size. */
  predicate MoveAccepted(sent: seq<Command>, i: nat, items: seq<Item>, summary: Summary, query: Query, pageSize: nat)
    requires i < |sent|
  {
    sent[i].Commit? && sent[i].next - sent[i].expected <= pageSize ==>
      && sent[i].expected <= sent[i].next <= |items|
      && PageAccepted(PageOfMove(sent[i], items, summary, pageSize), query, Held(sent[..i], items), pageSize)
  }

  lemma HeldBefore(sent: seq<Command>, i: nat, items: seq<Item>)
    requires Chained(sent, |items|) && i < |sent| && sent[i].Commit?
    ensures sent[i].expected <= sent[i].next <= |items|
    ensures Held(sent[..i], items) == Entries(items, 0, sent[i].expected)
  {
    ChainedAt(sent, i, |items|);
    ChainedFront(sent, i, |items|);
    HeldIsPrefix(sent[..i], items);
    hide Chained, Held, End;
  }

  lemma MoveIsAccepted(sent: seq<Command>, i: nat, items: seq<Item>, summary: Summary, query: Query, pageSize: nat)
    requires Retained(items, summary, query) && Chained(sent, |items|) && i < |sent| && 0 < pageSize <= MAX_ITEMS
    requires sent[i].Commit? ==> Full(sent[i].expected, sent[i].next, |items|)
    ensures MoveAccepted(sent, i, items, summary, query, pageSize)
  {
    hide Retained, PageAccepted, Chained, Held, PageAt;
    if sent[i].Commit? && sent[i].next - sent[i].expected <= pageSize {
      HeldBefore(sent, i, items);
      ClientAccepts(items, summary, query, sent[i].expected, sent[i].next - sent[i].expected, pageSize);
    }
  }

  /** In every run whose pages are cut as the window cuts them, the client
      accepts every flushed page against what it then holds, for every page
      size it may have been asked for, and ends up holding exactly the
      committed prefix of the result. */
  lemma ClientHoldsFlushed(events: seq<Event>, items: seq<Item>, summary: Summary, query: Query)
    requires Retained(items, summary, query) && CutByWindow(events)
    ensures var sent := Run(FreshSession, events, |items|).io.sent;
            && End(sent) <= |items| && Held(sent, items) == Entries(items, 0, End(sent))
            && (forall i: nat, pageSize: nat :: i < |sent| && 0 < pageSize <= MAX_ITEMS ==>
                  MoveAccepted(sent, i, items, summary, query, pageSize))
  {
    RunKeeps(events, |items|);
    RunFull(events, |items|);
    var sent := Run(FreshSession, events, |items|).io.sent;
    HeldIsPrefix(sent, items);
    hide Retained, MoveAccepted, Held, End, Run, Chained, Entries;
    forall i: nat, pageSize: nat | i < |sent| && 0 < pageSize <= MAX_ITEMS
      ensures MoveAccepted(sent, i, items, summary, query, pageSize)
    {
      MoveIsAccepted(sent, i, items, summary, query, pageSize);
    }
  }
}
