/** Every request of a session and its one answer: in any run, under any
    interleaving, each admitted request is answered once under its own
    identifier, in the order asked, unless a Close takes its place. */
module Requests {
  import opened Wrappers
  import opened Session

  // ---------------------------------------------------------- identifiers

  /** The request that a job was sent for. */
  function RequestOf(io: Io, job: nat): Option<nat> {
    if job < |io.sent| && io.sent[job].Execute? then Some(io.sent[job].message.id) else None
  }

  /** What a job is for is what it is answered as. */
  predicate IdsKnown(io: Io) {
    && (io.active.Some? ==> RequestOf(io, io.active.value.job) == Some(io.active.value.id))
    && (io.output.Some? && io.output.value.job.Some? ==>
          RequestOf(io, io.output.value.job.value) == Some(io.output.value.id))
  }

  lemma CancelIds(io: Io, id: nat)
    requires IdsKnown(io) && CancelRequest(io, id).Ok?
    ensures IdsKnown(CancelRequest(io, id).value)
  {
  }

  lemma BeginIds(io: Io, m: Message)
    requires io.active.None? && io.output.None?
    ensures IdsKnown(Begin(io, m))
  {
  }

  lemma AcceptIds(io: Io, m: Message)
    requires IdsKnown(io) && Accept(io, m).Ok?
    ensures IdsKnown(Accept(io, m).value)
  {
    hide Begin, CancelRequest;
    if m.Cancel? {
      CancelIds(io, m.id);
    } else {
      var base := if io.output.Some? then io.(output := None, deferred := None) else io;
      var quiet :=
        if base.active.Some?
        then base.(active := None, cancelled := base.cancelled + {base.active.value.job}) else base;
      BeginIds(quiet, m);
    }
  }

  lemma FlushedIds(io: Io)
    requires IdsKnown(io) && Flushed(io).Ok?
    ensures IdsKnown(Flushed(io).value.0)
  {
    hide Accept;
    var out := io.output.value;
    var sent := if out.ready.commit.Some?
                then io.sent + [Commit(out.ready.commit.value.0, out.ready.commit.value.1, out.job)] else io.sent;
    var after := io.(output := None, sent := sent, completed := Some(out.id));
    assert IdsKnown(after);
    if !out.ready.end && after.deferred.Some? && !after.deferred.value.cancelled {
      AcceptIds(after.(deferred := None), after.deferred.value.message);
    }
  }

  /** In every run, an output made by a job carries the identifier of the
      request that job was sent for, and so does the active job. */
  lemma {:induction false} AnsweredAsAsked(events: seq<Event>, retained: nat)
    ensures IdsKnown(Run(FreshSession, events, retained).io)
  {
    if events != [] {
      hide Accept, Flushed, WorkerStep;
      var front, e := events[..|events|-1], events[|events|-1];
      var s := Run(FreshSession, front, retained);
      AnsweredAsAsked(front, retained);
      match e
      case Frame(m) => if Accept(s.io, m).Ok? { AcceptIds(s.io, m); }
      case Flush => if Flushed(s.io).Ok? { FlushedIds(s.io); }
      case Work(work) => WorkerLeavesIo(s, work, retained);
      case _ =>
    }
  }

  // --------------------------------------------------------- conservation

  /** The requests admitted and not yet answered whole, oldest first. */
  function Waiting(io: Io): seq<nat> {
    (if io.active.Some? then [io.active.value.id] else [])
    + (if io.output.Some? then [io.output.value.id] else [])
    + (if io.deferred.Some? then [io.deferred.value.message.id] else [])
  }

  /** One request is worked on or answered at a time, and only a request that
      waits for the answer on its way out is deferred. */
  predicate Orderly(io: Io) {
    && (io.active.Some? ==> io.output.None?)
    && (io.deferred.Some? ==> io.output.Some? && !io.deferred.value.message.Cancel?)
  }

  /** Identifiers of the replies that left the process whole, in order. */
  function Answered(events: seq<Event>, retained: nat): seq<nat> {
    if events == [] then []
    else
      var front := events[..|events|-1];
      var s := Run(FreshSession, front, retained);
      Answered(front, retained)
      + if !s.over && events[|events|-1].Flush? && s.io.output.Some?
           && s.io.output.value.cursor == s.io.output.value.ready.size
        then [s.io.output.value.id] else []
  }

  /** How many of the requests that wait a Close takes the place of: all of
      them if nothing of an answer was written, else the deferred one. */
  function Replaced(io: Io, m: Message): nat {
    if !m.Close? || m.id <= io.lastId then 0
    else if io.output.Some? && io.output.value.cursor > 0 then (if io.deferred.Some? then 1 else 0)
    else |Waiting(io)|
  }

  /** A cancellation with nothing to cancel is answered like a request. */
  predicate AnswersCancel(io: Io, id: nat) {
    Waiting(io) == [] && (io.completed.None? || id > io.completed.value)
  }

  /** A frame the session goes on after. */
  predicate Admits(s: Conversation, m: Message, retained: nat) {
    !s.over && !Next(s, Frame(m), retained).over
  }

  function Without(ids: seq<nat>, n: nat): seq<nat> {
    if n <= |ids| then ids[..|ids| - n] else []
  }

  /** The requests admitted so far, in order, less those a Close replaced. */
  function Asked(events: seq<Event>, retained: nat): seq<nat> {
    if events == [] then []
    else
      var front, e := events[..|events|-1], events[|events|-1];
      var s := Run(FreshSession, front, retained);
      if !e.Frame? || !Admits(s, e.message, retained) then Asked(front, retained)
      else if e.message.Cancel? then
        Asked(front, retained) + if AnswersCancel(s.io, e.message.id) then [e.message.id] else []
      else Without(Asked(front, retained), Replaced(s.io, e.message)) + [e.message.id]
  }

  lemma CancelWaiting(io: Io, id: nat)
    requires Orderly(io) && CancelRequest(io, id).Ok?
    ensures var after := CancelRequest(io, id).value;
            Orderly(after) && Waiting(after) == Waiting(io) + if AnswersCancel(io, id) then [id] else []
  {
  }

  lemma AcceptWaiting(io: Io, m: Message)
    requires Orderly(io) && Accept(io, m).Ok?
    ensures Orderly(Accept(io, m).value)
    ensures Waiting(Accept(io, m).value)
            == if m.Cancel? then Waiting(io) + (if AnswersCancel(io, m.id) then [m.id] else [])
               else Without(Waiting(io), Replaced(io, m)) + [m.id]
    ensures Replaced(io, m) <= |Waiting(io)|
  {
    if m.Cancel? { CancelWaiting(io, m.id); }
    hide CancelRequest, AnswersCancel;
  }

  lemma FlushedWaiting(io: Io)
    requires Orderly(io) && io.output.Some? && Flushed(io).Ok?
    ensures Flushed(io).value.1 || Orderly(Flushed(io).value.0)
    ensures Waiting(io) == [io.output.value.id] + Waiting(Flushed(io).value.0)
  {
  }

  lemma QuietWaiting(io: Io)
    requires Orderly(io)
    ensures TimedOut(io).Ok? ==> Orderly(TimedOut(io).value) && Waiting(TimedOut(io).value) == Waiting(io)
    ensures forall reply :: io.output.None? && Received(io, reply).Ok? ==>
              Orderly(Received(io, reply).value) && Waiting(Received(io, reply).value) == Waiting(io)
  {
  }

  lemma WithoutTail(answered: seq<nat>, waiting: seq<nat>, n: nat)
    requires n <= |waiting|
    ensures Without(answered + waiting, n) == answered + Without(waiting, n)
  {
  }

  /** One event against the account of all requests. */
  lemma NextAccount(s: Conversation, e: Event, asked: seq<nat>, answered: seq<nat>, retained: nat)
    requires !s.over && Orderly(s.io) && asked == answered + Waiting(s.io)
    ensures var t := Next(s, e, retained);
            && (t.over || Orderly(t.io))
            && (if e.Frame? && !t.over then
                  (if e.message.Cancel? then
                     asked + (if AnswersCancel(s.io, e.message.id) then [e.message.id] else [])
                   else Without(asked, Replaced(s.io, e.message)) + [e.message.id])
                  == answered + Waiting(t.io)
                else if e.Flush? && s.io.output.Some? && s.io.output.value.cursor == s.io.output.value.ready.size then
                  Flushed(s.io).Ok? ==> asked == answered + [s.io.output.value.id] + Waiting(t.io)
                else asked == answered + Waiting(t.io))
  {
    hide Accept, Flushed, Received, TimedOut, WorkerStep, Waiting, Orderly, Without, AnswersCancel;
    match e
    case Frame(m) =>
      if Accept(s.io, m).Ok? {
        AcceptWaiting(s.io, m);
        if !m.Cancel? { WithoutTail(answered, Waiting(s.io), Replaced(s.io, m)); }
      }
    case Reply => QuietWaiting(s.io);
    case Wrote(count) => if s.io.output.Some? { WroteWaiting(s.io, count); }
    case Flush =>
      if s.io.output.Some? && Flushed(s.io).Ok? { FlushedWaiting(s.io); }
    case Deadline => QuietWaiting(s.io);
    case Work(work) => WorkerLeavesIo(s, work, retained);
  }

  lemma WroteWaiting(io: Io, count: nat)
    requires Orderly(io) && io.output.Some?
    ensures var t := io.(output := Some(io.output.value.(cursor := io.output.value.cursor + count)));
            Orderly(t) && Waiting(t) == Waiting(io)
  {
  }

  /** In every run, the requests asked are exactly those answered whole, in
      the same order, and then those that still wait: none is dropped, none is
      answered twice and none under another identifier. */
  lemma {:induction false} AnsweredOnce(events: seq<Event>, retained: nat)
    ensures var s := Run(FreshSession, events, retained);
            && Asked(events, retained) == Answered(events, retained) + Waiting(s.io)
            && (s.over || Orderly(s.io))
  {
    if events != [] {
      hide Next, Waiting, Orderly, Without, AnswersCancel, Replaced;
      var front, e := events[..|events|-1], events[|events|-1];
      var s := Run(FreshSession, front, retained);
      AnsweredOnce(front, retained);
      FlushSucceeds(front, retained);
      if s.over {
        assert Next(s, e, retained) == s by { Stopped(s, e, retained); }
      } else {
        NextAccount(s, e, Asked(front, retained), Answered(front, retained), retained);
      }
    } else {
      assert Waiting(FreshIo) == [] && Orderly(FreshIo);
    }
  }

  lemma Stopped(s: Conversation, e: Event, retained: nat)
    requires s.over
    ensures Next(s, e, retained) == s
  {
  }

  // ------------------------------------------------------------ progress

  /** In every run that goes on, a reply the worker made for the active job
      becomes the output under that request's identifier, unchanged unless the
      job was stopped and the reply does not end the session. */
  lemma ReplyIsTaken(events: seq<Event>, retained: nat)
    ensures var s := Run(FreshSession, events, retained);
            !s.over && s.io.active.Some? && s.io.active.value.job in s.replies ==>
              var a := s.io.active.value;
              var t := Next(s, Reply, retained);
              && !t.over && t.io.active.None? && t.io.output.Some?
              && RequestOf(s.io, a.job) == Some(t.io.output.value.id) && t.io.output.value.job == Some(a.job)
              && t.io.output.value.cursor == 0
              && t.io.output.value.ready
                 == if a.job in s.io.cancelled && !s.replies[a.job].end then FailureReply() else s.replies[a.job]
  {
    AnsweredAsAsked(events, retained);
    RunStops(events, retained);
    AnsweredOnce(events, retained);
    hide Run, Waiting, Asked, Answered;
  }

  /** What a frame must not be, for the session to go on: a cancellation of
      something else than what is worked on, or of an answer already begun; a
      spent identifier or a second request beside the one worked on; a second
      request waiting; a Close in the middle of an answer. */
  predicate Breaks(io: Io, m: Message) {
    var working, writing := io.active.Some?, io.output.Some?;
    if m.Cancel? then
      && (io.completed.Some? ==> m.id > io.completed.value)
      && !(io.deferred.Some? && io.deferred.value.message.id == m.id && !io.deferred.value.message.Close?)
      && ((working && io.active.value.id != m.id)
          || (writing && (io.output.value.id != m.id || io.output.value.cursor > 0)))
    else if m.id <= io.lastId then working || writing
    else if m.Close? then writing && 0 < io.output.value.cursor < io.output.value.ready.size
    else working || (writing && io.deferred.Some?)
  }

  /** No more of an output is written than there is. */
  predicate WithinReply(io: Io) {
    io.output.Some? ==> io.output.value.cursor <= io.output.value.ready.size
  }

  lemma FlushedWithin(io: Io)
    ensures Flushed(io).Ok? && WithinReply(io.(output := None)) ==> WithinReply(Flushed(io).value.0)
  {
  }

  lemma {:induction false} WrittenWithin(events: seq<Event>, retained: nat)
    ensures WithinReply(Run(FreshSession, events, retained).io)
  {
    if events != [] {
      hide Flushed, WorkerStep;
      var front, e := events[..|events|-1], events[|events|-1];
      var s := Run(FreshSession, front, retained);
      WrittenWithin(front, retained);
      match e
      case Flush => FlushedWithin(s.io);
      case Work(work) => WorkerLeavesIo(s, work, retained);
      case _ =>
    }
  }

  /** In every run, the session ends with exactly these events: a frame that
      breaks the exchange, the whole flush of an ending reply, or a deadline
      with nothing to stop or with what was stopped still not answered. */
  lemma EndsExactly(events: seq<Event>, e: Event, retained: nat)
    ensures var s := Run(FreshSession, events, retained);
            !s.over ==>
              (Next(s, e, retained).over <==>
                 match e
                 case Frame(m) => Breaks(s.io, m)
                 case Flush => s.io.output.Some? && s.io.output.value.cursor == s.io.output.value.ready.size
                               && s.io.output.value.ready.end
                 case Deadline => s.io.active.None? || s.io.active.value.cleanup
                 case _ => false)
  {
    AnsweredOnce(events, retained);
    WrittenWithin(events, retained);
    FlushSucceeds(events, retained);
    var s := Run(FreshSession, events, retained);
    hide Run, Waiting, Asked, Answered;
    match e
    case Work(work) => WorkOver(s, work, retained);
    case Flush => FlushedEnds(s.io);
    case _ =>
  }

  lemma WorkOver(s: Conversation, work: Work, retained: nat)
    ensures WorkerStep(s, work, retained).over == s.over
  {
  }

  lemma FlushedEnds(io: Io)
    ensures Flushed(io).Ok? ==> (Flushed(io).value.1 <==> io.output.value.ready.end)
  {
  }

  // -------------------------------------------------------------- effects

  /** A window was asked for. */
  predicate Opened(sent: seq<Command>) {
    exists i :: 0 <= i < |sent| && sent[i].Execute? && sent[i].message.Open?
  }

  /** The owner's flag tells whether a window was asked for, and what waits is
      newer than everything begun. */
  predicate Remembers(io: Io) {
    && (io.windowOpen <==> Opened(io.sent))
    && (io.deferred.Some? ==> io.deferred.value.message.id > io.lastId)
  }

  lemma OpenedSnoc(sent: seq<Command>, c: Command)
    ensures Opened(sent + [c]) <==> Opened(sent) || (c.Execute? && c.message.Open?)
  {
    if Opened(sent) {
      var i :| 0 <= i < |sent| && sent[i].Execute? && sent[i].message.Open?;
      assert (sent + [c])[i] == sent[i];
    }
    if c.Execute? && c.message.Open? { assert (sent + [c])[|sent|] == c; }
  }

  /** A request that comes to its turn: refused without a job if it opens a
      second window or uses one that was never opened, else a new job. */
  predicate TakenUp(sent: seq<Command>, after: Io, m: Message) {
    && after.lastId == m.id && after.deferred.None?
    && if (m.Open? && Opened(sent)) || ((m.Continue? || m.Expand?) && !Opened(sent)) then
         after.sent == sent && after.active.None? && after.output == Some(Output(m.id, FailureReply(), 0, None))
       else
         after.sent == sent + [Execute(m)] && after.output.None?
         && after.active == Some(Active(m.id, |sent|, None, false))
  }

  lemma BeginTakes(io: Io, m: Message)
    requires Remembers(io) && io.output.None? && io.active.None? && io.deferred.None? && !m.Cancel?
    ensures TakenUp(io.sent, Begin(io, m), m) && Remembers(Begin(io, m))
  {
    hide Opened;
    OpenedSnoc(io.sent, Execute(m));
  }

  /** What a cancellation that is not refused does: the job at work is flagged,
      an unsent answer becomes a failure, a waiting request will be answered by
      one, and an unknown identifier is; a completed one changes nothing. */
  predicate Cancels(before: Io, after: Io, id: nat) {
    && after.sent == before.sent && after.lastId == before.lastId && after.completed == before.completed
    && if before.completed.Some? && id <= before.completed.value then after == before
       else if before.deferred.Some? && before.deferred.value.message.id == id && !before.deferred.value.message.Close? then
         after == before.(deferred := Some(Deferred(before.deferred.value.message, true)))
       else
         && after.deferred == before.deferred
         && (before.active.Some? ==>
               && after.active.Some? && after.active.value.job == before.active.value.job && after.active.value.cleanup
               && after.cancelled == before.cancelled + {before.active.value.job})
         && (before.active.None? ==>
               after.output == Some(Output(id, FailureReply(), 0,
                                           if before.output.Some? then before.output.value.job else None)))
  }

  /** What a frame the session goes on after does. */
  predicate Takes(before: Io, after: Io, m: Message) {
    if m.Cancel? then Cancels(before, after, m.id)
    else if m.id <= before.lastId then after == before.(output := Some(Output(m.id, FailureReply(), 0, None)))
    else if before.output.Some? && !(m.Close? && before.output.value.cursor == 0) then
      after == before.(deferred := Some(Deferred(m, false)))
    else
      && TakenUp(before.sent, after, m) && after.completed == before.completed
      && after.cancelled == before.cancelled + if before.active.Some? then {before.active.value.job} else {}
  }

  lemma AcceptTakes(io: Io, m: Message)
    requires Remembers(io) && Orderly(io) && Accept(io, m).Ok?
    ensures Takes(io, Accept(io, m).value, m) && Remembers(Accept(io, m).value)
  {
    hide Opened, TakenUp, Begin;
    if !m.Cancel? && m.id > io.lastId && !(io.output.Some? && !(m.Close? && io.output.value.cursor == 0)) {
      var base := if io.output.Some? then io.(output := None, deferred := None) else io;
      var quiet :=
        if base.active.Some?
        then base.(active := None, cancelled := base.cancelled + {base.active.value.job}) else base;
      BeginTakes(quiet, m);
      BeginFlags(quiet, m);
    }
  }

  lemma BeginFlags(io: Io, m: Message)
    ensures Begin(io, m).cancelled == io.cancelled && Begin(io, m).completed == io.completed
  {
  }

  /** The commands a whole reply leaves behind it. */
  function Moved(io: Io): seq<Command>
    requires io.output.Some?
  {
    match io.output.value.ready.commit
    case Some(move) => io.sent + [Commit(move.0, move.1, io.output.value.job)]
    case None => io.sent
  }

  /** What the whole flush of a reply does: its cursor move is sent, and the
      request that waited comes to its turn, or fails if it was cancelled. */
  predicate Flushes(before: Io, after: Io)
    requires before.output.Some?
  {
    && after.completed == Some(before.output.value.id)
    && if before.output.value.ready.end || before.deferred.None? then
         after.sent == Moved(before) && after.output.None? && after.active == before.active
         && after.lastId == before.lastId
       else
         var d := before.deferred.value;
         if d.cancelled then
           after.sent == Moved(before) && after.lastId == d.message.id && after.deferred.None?
           && after.active == before.active
           && after.output == Some(Output(d.message.id, FailureReply(), 0, None))
         else TakenUp(Moved(before), after, d.message)
  }

  lemma MovedOpens(io: Io)
    requires io.output.Some?
    ensures Opened(Moved(io)) <==> Opened(io.sent)
  {
    if io.output.value.ready.commit.Some? {
      var move := io.output.value.ready.commit.value;
      OpenedSnoc(io.sent, Commit(move.0, move.1, io.output.value.job));
    }
  }

  lemma FlushedTakes(io: Io)
    requires Remembers(io) && Orderly(io) && io.output.Some? && Flushed(io).Ok?
    ensures Flushes(io, Flushed(io).value.0)
    ensures Flushed(io).value.1 || Remembers(Flushed(io).value.0)
  {
    hide Opened, TakenUp, Accept;
    MovedOpens(io);
    var after := io.(output := None, sent := Moved(io), completed := Some(io.output.value.id));
    if !io.output.value.ready.end && after.deferred.Some? && !after.deferred.value.cancelled {
      AcceptTakes(after.(deferred := None), after.deferred.value.message);
    }
  }

  /** In every run the owner's flag and its last identifier are right. */
  lemma {:induction false} RunRemembers(events: seq<Event>, retained: nat)
    ensures var s := Run(FreshSession, events, retained);
            s.over || Remembers(s.io)
  {
    if events != [] {
      hide Accept, Flushed, WorkerStep, Opened, Orderly, Asked, Answered, Waiting;
      var front, e := events[..|events|-1], events[|events|-1];
      var s := Run(FreshSession, front, retained);
      RunRemembers(front, retained);
      AnsweredOnce(front, retained);
      match e
      case Frame(m) => if !s.over && Accept(s.io, m).Ok? { AcceptTakes(s.io, m); }
      case Flush => if !s.over && s.io.output.Some? && Flushed(s.io).Ok? { FlushedTakes(s.io); }
      case Work(work) => WorkerLeavesIo(s, work, retained);
      case _ =>
    }
  }

  /** The events of the I/O owner, in every run that goes on: what a frame, the
      whole flush of a reply and a deadline do to the work and the answers. */
  lemma EventTakes(events: seq<Event>, e: Event, retained: nat)
    ensures var s := Run(FreshSession, events, retained);
            var t := Next(s, e, retained);
            !s.over && !t.over ==>
              match e
              case Frame(m) => Takes(s.io, t.io, m)
              case Flush =>
                s.io.output.Some? && s.io.output.value.cursor == s.io.output.value.ready.size ==> Flushes(s.io, t.io)
              case Deadline =>
                && s.io.active.Some? && t.io.active.Some? && t.io.active.value.cleanup
                && t.io.active.value.job == s.io.active.value.job
                && t.io.cancelled == s.io.cancelled + {s.io.active.value.job}
              case _ => t.io.sent == s.io.sent && t.io.cancelled == s.io.cancelled
  {
    hide Run, Accept, Flushed, WorkerStep, Remembers, Orderly, Asked, Answered, Waiting, Takes, Flushes;
    var s := Run(FreshSession, events, retained);
    RunRemembers(events, retained);
    AnsweredOnce(events, retained);
    match e
    case Frame(m) => if !s.over && Accept(s.io, m).Ok? { AcceptTakes(s.io, m); }
    case Flush => if !s.over && s.io.output.Some? && Flushed(s.io).Ok? { FlushedTakes(s.io); }
    case Work(work) => WorkerLeavesIo(s, work, retained);
    case _ =>
  }

  // ------------------------------------------------------------ the worker

  /** The range a page of `count` items covers. */
  function Range(from: nat, count: nat, retained: nat): (nat, nat) {
    (from, if from + count <= retained then from + count else retained)
  }

  /** What a job against an open window, or one that opens it, is answered. */
  predicate Performed(s: Conversation, m: Message, from: nat, count: nat, size: nat, retained: nat) {
    var job := s.worker.done;
    var t := WorkerStep(s, PageOf(count, size), retained);
    && job in t.replies
    && ((m.Open? || (m.Continue? && s.worker.window.Some?)) ==>
          && t.worker.window == Some(from)
          && (job !in s.io.cancelled ==> t.replies[job] == Ready(size, Some(Range(from, count, retained)), false)))
    && (t.replies[job].end <==> m.Close?) && (t.worker.alive <==> !m.Close?)
  }

  lemma JobIsPerformed(s: Conversation, m: Message, from: nat, count: nat, size: nat, retained: nat)
    requires s.worker.alive && s.worker.done < |s.io.sent| && s.io.sent[s.worker.done] == Execute(m)
    requires m.Open? ==> from == 0
    requires s.worker.window.Some? ==> s.worker.window.value == from
    ensures Performed(s, m, from, count, size, retained)
  {
  }

  lemma WindowStands(s: Conversation, retained: nat)
    requires Inv(s, retained) && s.worker.alive && s.worker.done < |s.io.sent|
    ensures s.worker.window.Some? ==> s.worker.window.value == End(s.io.sent[..s.worker.done])
    ensures s.io.sent[s.worker.done].Execute? && s.io.sent[s.worker.done].message.Open? ==>
              End(s.io.sent[..s.worker.done]) == 0
  {
    hide Chained, End, NoCommits;
    if s.io.sent[s.worker.done].Execute? && s.io.sent[s.worker.done].message.Open? {
      OpenAtZero(s.io.sent, s.worker.done);
    }
  }

  /** In every run, a page job against an open window is answered by the range
      that starts where the flushed pages ended, and a Close by the reply that
      ends the session. Only a job its owner gave up, a window that is not
      open, or the fixed lifetime makes it otherwise. */
  lemma PageIsMade(events: seq<Event>, count: nat, size: nat, retained: nat)
    ensures var s := Run(FreshSession, events, retained);
            var job := s.worker.done;
            s.worker.alive && job < |s.io.sent| && s.io.sent[job].Execute? ==>
              Performed(s, s.io.sent[job].message, End(s.io.sent[..job]), count, size, retained)
  {
    RunKeeps(events, retained);
    hide Run, Inv, Performed, End;
    var s := Run(FreshSession, events, retained);
    var job := s.worker.done;
    if s.worker.alive && job < |s.io.sent| && s.io.sent[job].Execute? {
      WindowStands(s, retained);
      JobIsPerformed(s, s.io.sent[job].message, End(s.io.sent[..job]), count, size, retained);
    }
  }

  /** How every command at its turn ends: a move takes the window where it
      says, a job that fails is told so and disturbs nothing, and the fixed
      lifetime ends the worker with the reply that ends the session. */
  ghost predicate Treated(s: Conversation, work: Work, retained: nat) {
    var job := s.worker.done;
    var t := WorkerStep(s, work, retained);
    && t.worker.done == job + 1 && !t.stale && t.io == s.io && t.over == s.over
    && (forall other :: other != job ==>
          (other in t.replies <==> other in s.replies)
          && (other in t.replies && other in s.replies ==> t.replies[other] == s.replies[other]))
    && (job < |s.io.sent| ==>
          match s.io.sent[job]
          case Commit(_, next, _) =>
            (t.worker.alive <==> !work.Expires?) && (!work.Expires? ==> t.worker.window == Some(next))
          case Execute(m) =>
            && job in t.replies
            && (work.Expires? ==> t.replies[job].end && t.replies[job].commit.None? && !t.worker.alive)
            && (work.Fails? || work.FailsOpened? ==>
                  (!m.Close? ==>
                     && t.replies[job] == FailureReply() && t.worker.alive
                     && (work.Fails? || !m.Open? ==> t.worker.window == s.worker.window)
                     && (work.FailsOpened? && m.Open? ==> t.worker.window == Some(0)))))
  }

  lemma MoveIsMade(s: Conversation, work: Work, retained: nat)
    requires Inv(s, retained) && s.worker.alive && s.worker.done < |s.io.sent| && s.io.sent[s.worker.done].Commit?
    ensures Treated(s, work, retained)
  {
    hide Chained, End, OpensFirst;
    CommitFits(s, retained);
  }

  lemma CommitFits(s: Conversation, retained: nat)
    requires Inv(s, retained) && s.worker.alive && s.worker.done < |s.io.sent| && s.io.sent[s.worker.done].Commit?
    ensures var c := s.io.sent[s.worker.done];
            s.worker.window == Some(c.expected) && c.expected <= c.next <= retained
  {
    hide Chained, End, OpensFirst;
    ChainedAt(s.io.sent, s.worker.done, retained);
  }

  lemma JobIsTreated(s: Conversation, m: Message, work: Work, retained: nat)
    requires !s.stale && s.worker.alive && s.worker.done < |s.io.sent| && s.io.sent[s.worker.done] == Execute(m)
    ensures Treated(s, work, retained)
  {
  }

  /** In every run, whatever the worker takes off its queue ends that way. */
  lemma CommandIsTreated(events: seq<Event>, work: Work, retained: nat)
    ensures var s := Run(FreshSession, events, retained);
            s.worker.alive && s.worker.done < |s.io.sent| ==> Treated(s, work, retained)
  {
    hide Run, Treated, WorkerStep, Chained, End, OpensFirst;
    RunKeeps(events, retained);
    var s := Run(FreshSession, events, retained);
    if s.worker.alive && s.worker.done < |s.io.sent| {
      match s.io.sent[s.worker.done]
      case Commit(_, _, _) => MoveIsMade(s, work, retained);
      case Execute(m) => JobIsTreated(s, m, work, retained);
    }
  }
}
