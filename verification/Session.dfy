/** One framed session: the I/O owner, its command queue and the worker that
    owns the window. Each function is one event of the I/O owner; a failed
    event ends the session. */
module Session {
  import opened Wrappers

  datatype Message =
    | Open(id: nat)
    | Continue(id: nat)
    | Expand(id: nat)
    | Cancel(id: nat)
    | Close(id: nat)

  /** A whole encoded reply; `commit` is the cursor move its flush allows. */
  datatype Ready = Ready(size: nat, commit: Option<(nat, nat)>, end: bool)

  /** A job is named by its place among the commands ever sent; a cursor move
      remembers the job whose reply allowed it. */
  datatype Command =
    | Execute(message: Message)
    | Commit(expected: nat, next: nat, origin: Option<nat>)

  datatype Stop = StoppedByCancel | StoppedByDeadline

  datatype Active = Active(id: nat, job: nat, stopped: Option<Stop>, cleanup: bool)
  /** A reply on its way out, with the job it answers if a job made it. */
  datatype Output = Output(id: nat, ready: Ready, cursor: nat, job: Option<nat>)
  datatype Deferred = Deferred(message: Message, cancelled: bool)

  datatype Failure =
    | RequestIdInvalid | PartialOutputClose | RequestInFlight | ResponseMismatch | PartialOutputCancelled
    | CleanupExpired | DeadlinePassed | NoActiveRequest | OutputMissing | WorkerFailed

  /** The I/O owner, with everything it ever sent to the worker in order and
      the cancel flags it has raised. */
  datatype Io = Io(
    windowOpen: bool, lastId: nat, completed: Option<nat>, active: Option<Active>, output: Option<Output>,
    deferred: Option<Deferred>, sent: seq<Command>, cancelled: set<nat>)

  const FreshIo := Io(false, 0, None, None, None, None, [], {})

  /** A typed failure reply: it never moves the cursor and never ends. */
  function FailureReply(): Ready {
    Ready(1, None, false)
  }

  function Reject(io: Io, id: nat): Io {
    io.(output := Some(Output(id, FailureReply(), 0, None)))
  }

  function CancelRequest(io: Io, id: nat): Result<Io, Failure> {
    if io.completed.Some? && id <= io.completed.value then Ok(io)
    else if io.deferred.Some? && io.deferred.value.message.id == id && !io.deferred.value.message.Close? then
      Ok(io.(deferred := Some(io.deferred.value.(cancelled := true))))
    else if io.active.Some? then
      var a := io.active.value;
      if a.id != id then Err(ResponseMismatch)
      else Ok(io.(active := Some(a.(stopped := if a.stopped.Some? then a.stopped else Some(StoppedByCancel), cleanup := true)),
                  cancelled := io.cancelled + {a.job}))
    else if io.output.Some? then
      if io.output.value.id != id then Err(ResponseMismatch)
      else if io.output.value.cursor != 0 then Err(PartialOutputCancelled)
      else Ok(io.(output := Some(io.output.value.(ready := FailureReply()))))
    else
      Ok(Reject(io, id))
  }

  /** Starts the accepted operation, after older work was dealt with. */
  function Begin(io: Io, m: Message): Io {
    var io := io.(lastId := m.id);
    if (m.Open? && io.windowOpen) || ((m.Continue? || m.Expand?) && !io.windowOpen) then Reject(io, m.id)
    else io.(windowOpen := io.windowOpen || m.Open?,
             active := Some(Active(m.id, |io.sent|, None, false)),
             sent := io.sent + [Execute(m)])
  }

  function Accept(io: Io, m: Message): Result<Io, Failure> {
    if m.Cancel? then CancelRequest(io, m.id)
    else if m.id <= io.lastId then
      if io.active.Some? || io.output.Some? then Err(RequestIdInvalid) else Ok(Reject(io, m.id))
    else if io.output.Some? && !(m.Close? && io.output.value.cursor == 0) then
      if m.Close? && io.output.value.cursor != io.output.value.ready.size then Err(PartialOutputClose)
      else if io.deferred.Some? && !m.Close? then Err(RequestInFlight)
      else Ok(io.(deferred := Some(Deferred(m, false))))
    else
      var io := if io.output.Some? then io.(output := None, deferred := None) else io;
      if io.active.Some? then
        if !m.Close? then Err(RequestInFlight)
        else Ok(Begin(io.(active := None, cancelled := io.cancelled + {io.active.value.job}), m))
      else Ok(Begin(io, m))
  }

  function Received(io: Io, reply: Option<Ready>): Result<Io, Failure> {
    if io.active.None? then Err(NoActiveRequest)
    else if reply.None? then Err(WorkerFailed)
    else
      var a := io.active.value;
      var ready := if a.stopped.Some? && !reply.value.end then FailureReply() else reply.value;
      Ok(io.(active := None, output := Some(Output(a.id, ready, 0, Some(a.job)))))
  }

  function TimedOut(io: Io): Result<Io, Failure> {
    if io.active.None? then Err(DeadlinePassed)
    else
      var a := io.active.value;
      if a.cleanup then Err(CleanupExpired)
      else Ok(io.(active := Some(a.(stopped := Some(StoppedByDeadline), cleanup := true)),
                  cancelled := io.cancelled + {a.job}))
  }

  /** The whole reply left the process: its page is committed, then the one
      request that waited for it begins. The flag says the session is over. */
  function Flushed(io: Io): Result<(Io, bool), Failure> {
    if io.output.None? then Err(OutputMissing)
    else
      var out := io.output.value;
      var sent := if out.ready.commit.Some?
                  then io.sent + [Commit(out.ready.commit.value.0, out.ready.commit.value.1, out.job)] else io.sent;
      var after := io.(output := None, sent := sent, completed := Some(out.id));
      if out.ready.end then Ok((after, true))
      else if after.deferred.None? then Ok((after, false))
      else
        var d := after.deferred.value;
        var next := after.(deferred := None);
        if d.cancelled then
          Ok((next.(lastId := d.message.id, output := Some(Output(d.message.id, FailureReply(), 0, None))), false))
        else
          match Accept(next, d.message)
          case Ok(begun) => Ok((begun, false))
          case Err(e) => Err(e)
  }

  // -------------------------------------------------------------- worker

  /** The worker: its place in the queue, and the window it owns. */
  datatype Worker = Worker(alive: bool, done: nat, window: Option<nat>)

  /** How one job turns out; the time left and the query decide. */
  datatype Work =
    | PageOf(count: nat, size: nat)   // a page of that many whole items
    | Fails                           // a typed failure before the window changed
    | FailsOpened                     // the window opened, its first page failed
    | Expires                         // the fixed lifetime ended

  /** The queue, worker and replies around the I/O owner. `stale` would record
      a refused cursor move. */
  datatype Conversation = Conversation(io: Io, worker: Worker, replies: map<nat, Ready>, stale: bool, over: bool)

  const FreshSession := Conversation(FreshIo, Worker(true, 0, None), map[], false, false)

  function PageReady(cursor: nat, retained: nat, work: Work): Ready {
    match work
    case PageOf(count, size) => Ready(size, Some((cursor, if cursor + count <= retained then cursor + count else retained)), false)
    case _ => FailureReply()
  }

  /** One job against the window: the window afterwards and the reply. */
  function Perform(window: Option<nat>, m: Message, work: Work, retained: nat): (Option<nat>, Ready) {
    match m
    case Open(_) => if work.Fails? then (window, FailureReply()) else (Some(0), PageReady(0, retained, work))
    case Continue(_) => (window, if window.None? then FailureReply() else PageReady(window.value, retained, work))
    case Expand(_) => (window, Ready(1, None, false))
    case Close(_) => (None, Ready(1, None, true))
    case Cancel(_) => (window, FailureReply())
  }

  /** The worker takes the next command off its queue. */
  function WorkerStep(s: Conversation, work: Work, retained: nat): Conversation {
    if !s.worker.alive || s.worker.done >= |s.io.sent| then s
    else
      var job := s.worker.done;
      var w := s.worker.(done := job + 1);
      match s.io.sent[job]
      case Commit(expected, next, _) =>
        if work.Expires? then s.(worker := w.(alive := false))
        else if w.window.None? || w.window.value != expected || next < expected || next > retained then
          s.(worker := w.(alive := false), stale := true)
        else s.(worker := w.(window := Some(next)))
      case Execute(m) =>
        if work.Expires? then
          s.(worker := w.(alive := false, window := None), replies := s.replies[job := Ready(1, None, true)])
        else
          var (window, ready) := Perform(w.window, m, work, retained);
          var reply := if job in s.io.cancelled && !m.Close? then FailureReply() else ready;
          s.(worker := w.(window := window, alive := !reply.end), replies := s.replies[job := reply])
  }

  datatype Event =
    | Frame(message: Message)
    | Reply
    | Wrote(count: nat)
    | Flush
    | Deadline
    | Work(work: Work)

  function Settle(s: Conversation, r: Result<Io, Failure>): Conversation {
    match r
    case Ok(io) => s.(io := io)
    case Err(_) => s.(over := true)
  }

  /** One event. Once the session is over nothing more is read or written. */
  function Next(s: Conversation, e: Event, retained: nat): Conversation {
    if s.over then s
    else
      match e
      case Frame(m) => Settle(s, Accept(s.io, m))
      case Reply =>
        if s.io.output.None? && s.io.active.Some? && s.io.active.value.job in s.replies
        then Settle(s, Received(s.io, Some(s.replies[s.io.active.value.job]))) else s
      case Wrote(count) =>
        if s.io.output.Some? && s.io.output.value.cursor + count <= s.io.output.value.ready.size
        then s.(io := s.io.(output := Some(s.io.output.value.(cursor := s.io.output.value.cursor + count)))) else s
      case Flush =>
        if s.io.output.Some? && s.io.output.value.cursor == s.io.output.value.ready.size then
          match Flushed(s.io)
          case Ok((io, end)) => s.(io := io, over := end)
          case Err(_) => s.(over := true)
        else s
      case Deadline => Settle(s, TimedOut(s.io))
      case Work(work) => WorkerStep(s, work, retained)
  }

  function Run(s: Conversation, events: seq<Event>, retained: nat): Conversation {
    if events == [] then s else Next(Run(s, events[..|events|-1], retained), events[|events|-1], retained)
  }

  // ----------------------------------------------------------- invariant

  /** Where the cursor stands after the commits among these commands. */
  function End(sent: seq<Command>): nat {
    if sent == [] then 0
    else if sent[|sent|-1].Commit? then sent[|sent|-1].next else End(sent[..|sent|-1])
  }

  /** Every commit moves the cursor on from where the one before left it. */
  predicate Chained(sent: seq<Command>, retained: nat) {
    sent == [] ||
    (Chained(sent[..|sent|-1], retained)
     && (sent[|sent|-1].Commit? ==> sent[|sent|-1].expected == End(sent[..|sent|-1]) <= sent[|sent|-1].next <= retained))
  }

  predicate NoCommits(sent: seq<Command>) {
    forall i :: 0 <= i < |sent| ==> !sent[i].Commit?
  }

  /** The opening command precedes every commit. */
  predicate OpensFirst(sent: seq<Command>) {
    forall i, j :: 0 <= i < |sent| && 0 <= j < |sent| && sent[i].Commit? && sent[j].Execute? && sent[j].message.Open? ==> j < i
  }

  /** A page that is still on its way out starts at the committed cursor. */
  predicate InFlight(s: Conversation, ready: Ready, retained: nat) {
    ready.commit.Some? ==>
      && ready.commit.value.0 == End(s.io.sent) <= ready.commit.value.1 <= retained
      && s.io.windowOpen && (s.worker.alive ==> s.worker.window.Some?)
  }

  predicate Inv(s: Conversation, retained: nat) {
    && Chained(s.io.sent, retained) && OpensFirst(s.io.sent)
    && !s.stale
    && s.worker.done <= |s.io.sent|
    && (s.worker.alive ==>
          if s.worker.window.Some? then s.worker.window.value == End(s.io.sent[..s.worker.done])
          else NoCommits(s.io.sent))
    && (!s.io.windowOpen ==> NoCommits(s.io.sent))
    && (s.io.output.Some? ==> s.io.active.None? && InFlight(s, s.io.output.value.ready, retained))
    && (s.io.active.Some? ==>
          && s.io.active.value.job == |s.io.sent| - 1 && s.io.sent[|s.io.sent|-1].Execute?
          && (s.io.sent[|s.io.sent|-1].message.Open? || s.io.sent[|s.io.sent|-1].message.Continue? ==> s.io.windowOpen)
          && (s.io.active.value.job in s.replies ==> InFlight(s, s.replies[s.io.active.value.job], retained)))
    && (forall job :: job in s.replies ==> job < s.worker.done)
  }

  lemma EndSnoc(sent: seq<Command>, c: Command)
    ensures End(sent + [c]) == if c.Commit? then c.next else End(sent)
  {
    assert (sent + [c])[..|sent|] == sent;
  }

  lemma ChainedSnoc(sent: seq<Command>, c: Command, retained: nat)
    ensures Chained(sent + [c], retained)
            <==> Chained(sent, retained) && (c.Commit? ==> c.expected == End(sent) <= c.next <= retained)
  {
    assert (sent + [c])[..|sent|] == sent;
  }

  lemma {:induction false} ChainedAt(sent: seq<Command>, i: nat, retained: nat)
    requires Chained(sent, retained) && i < |sent|
    ensures End(sent[..i + 1]) == if sent[i].Commit? then sent[i].next else End(sent[..i])
    ensures sent[i].Commit? ==> sent[i].expected == End(sent[..i]) <= sent[i].next <= retained
    decreases |sent|
  {
    assert sent[..i + 1] == sent[..i] + [sent[i]];
    EndSnoc(sent[..i], sent[i]);
    if i + 1 < |sent| {
      ChainedAt(sent[..|sent|-1], i, retained);
      assert sent[..|sent|-1][..i] == sent[..i];
    } else {
      assert sent[..i] == sent[..|sent|-1];
    }
  }

  lemma {:induction false} EndBounded(sent: seq<Command>, retained: nat)
    requires Chained(sent, retained)
    ensures End(sent) <= retained
  {
    if sent != [] { EndBounded(sent[..|sent|-1], retained); }
  }

  lemma {:induction false} NoCommitsEnd(sent: seq<Command>)
    requires NoCommits(sent)
    ensures End(sent) == 0
  {
    if sent != [] { NoCommitsEnd(sent[..|sent|-1]); }
  }

  /** The I/O owner's obligations, apart from the worker. */
  predicate IoOk(io: Io, retained: nat) {
    && Chained(io.sent, retained) && OpensFirst(io.sent)
    && (!io.windowOpen ==> NoCommits(io.sent))
    && (io.output.Some? ==> io.active.None?)
    && (io.active.Some? ==>
          && io.active.value.job == |io.sent| - 1 && io.sent[|io.sent|-1].Execute?
          && (io.sent[|io.sent|-1].message.Open? || io.sent[|io.sent|-1].message.Continue? ==> io.windowOpen))
  }

  /** An I/O step that sends at most one job and moves no cursor. */
  predicate Quiet(before: Io, after: Io, retained: nat) {
    && IoOk(after, retained)
    && (before.windowOpen ==> after.windowOpen)
    && (after.output.Some? ==>
          (after.output.value.ready == FailureReply()
           || (before.output.Some? && after.output.value.ready == before.output.value.ready)))
    && if after.sent == before.sent then
         after.active.Some? ==> before.active.Some? && after.active.value.job == before.active.value.job
       else
         && |after.sent| == |before.sent| + 1 && after.sent[..|before.sent|] == before.sent
         && after.sent[|before.sent|].Execute?
         && after.active.Some? && after.output.None?
  }

  lemma BeginQuiet(io: Io, m: Message, retained: nat)
    requires IoOk(io, retained) && io.active.None? && io.output.None?
    ensures Quiet(io, Begin(io, m), retained)
  {
    ChainedSnoc(io.sent, Execute(m), retained);
    hide Chained;
  }

  lemma AcceptQuiet(io: Io, m: Message, retained: nat)
    requires IoOk(io, retained) && Accept(io, m).Ok?
    ensures Quiet(io, Accept(io, m).value, retained)
  {
    hide Chained, NoCommits, OpensFirst, Begin;
    if !m.Cancel? && m.id > io.lastId && !(io.output.Some? && !(m.Close? && io.output.value.cursor == 0)) {
      var cleared := if io.output.Some? then io.(output := None, deferred := None) else io;
      if cleared.active.Some? {
        BeginQuiet(cleared.(active := None, cancelled := cleared.cancelled + {cleared.active.value.job}), m, retained);
      } else {
        BeginQuiet(cleared, m, retained);
      }
    }
  }

  lemma InvIsIoOk(s: Conversation, retained: nat)
    requires Inv(s, retained)
    ensures IoOk(s.io, retained)
  {
    hide Chained, OpensFirst, NoCommits;
  }

  lemma QuietKeeps(s: Conversation, after: Io, retained: nat)
    requires Inv(s, retained) && Quiet(s.io, after, retained)
    ensures Inv(s.(io := after), retained)
  {
    hide Chained, OpensFirst;
    var t := s.(io := after);
    if after.sent != s.io.sent {
      EndSnoc(s.io.sent, after.sent[|s.io.sent|]);
      assert after.sent == s.io.sent + [after.sent[|s.io.sent|]];
    }
    assert after.sent[..s.worker.done] == s.io.sent[..s.worker.done];
    assert forall ready: Ready :: InFlight(s, ready, retained) ==> InFlight(t, ready, retained);
  }

  lemma ReceivedKeeps(s: Conversation, retained: nat)
    requires Inv(s, retained) && s.io.active.Some? && s.io.active.value.job in s.replies && s.io.output.None?
    ensures Inv(Settle(s, Received(s.io, Some(s.replies[s.io.active.value.job]))), retained)
  {
    hide Chained, OpensFirst, NoCommits, End;
  }

  lemma TimedOutKeeps(s: Conversation, retained: nat)
    requires Inv(s, retained)
    ensures Inv(Settle(s, TimedOut(s.io)), retained)
  {
    hide Chained, OpensFirst, NoCommits, End;
  }

  lemma WroteKeeps(s: Conversation, count: nat, retained: nat)
    requires Inv(s, retained) && s.io.output.Some?
    ensures Inv(s.(io := s.io.(output := Some(s.io.output.value.(cursor := s.io.output.value.cursor + count)))), retained)
  {
    hide Chained, OpensFirst, NoCommits, End;
  }

  /** A flush commits exactly the page it finished. */
  lemma CommittedKeeps(s: Conversation, retained: nat)
    requires Inv(s, retained) && s.io.output.Some?
    ensures var out := s.io.output.value;
            var sent := if out.ready.commit.Some?
                        then s.io.sent + [Commit(out.ready.commit.value.0, out.ready.commit.value.1, out.job)] else s.io.sent;
            Inv(s.(io := s.io.(output := None, sent := sent, completed := Some(out.id))), retained)
  {
    var out := s.io.output.value;
    if out.ready.commit.Some? {
      var c := Commit(out.ready.commit.value.0, out.ready.commit.value.1, out.job);
      ChainedSnoc(s.io.sent, c, retained);
      assert (s.io.sent + [c])[..s.worker.done] == s.io.sent[..s.worker.done];
    }
    hide Chained, NoCommits, End;
  }

  lemma InvOver(s: Conversation, over: bool, retained: nat)
    requires Inv(s, retained)
    ensures Inv(s.(over := over), retained)
  {
    hide Chained, OpensFirst, NoCommits, End;
  }

  lemma FlushedKeeps(s: Conversation, retained: nat)
    requires Inv(s, retained) && s.io.output.Some?
    ensures match Flushed(s.io)
            case Ok((io, end)) => Inv(s.(io := io, over := end), retained)
            case Err(_) => true
  {
    CommittedKeeps(s, retained);
    var out := s.io.output.value;
    var sent := if out.ready.commit.Some?
                then s.io.sent + [Commit(out.ready.commit.value.0, out.ready.commit.value.1, out.job)] else s.io.sent;
    var after := s.(io := s.io.(output := None, sent := sent, completed := Some(out.id)));
    hide Inv, Accept;
    InvOver(after, true, retained);
    InvOver(after, false, retained);
    if !out.ready.end && after.io.deferred.Some? {
      var d := after.io.deferred.value;
      var next := after.(io := after.io.(deferred := None));
      NoDeferral(after, retained);
      if d.cancelled {
        FailureKeeps(next, d.message.id, retained);
        InvOver(next.(io := next.io.(lastId := d.message.id, output := Some(Output(d.message.id, FailureReply(), 0, None)))), false, retained);
      } else if Accept(next.io, d.message).Ok? {
        InvIsIoOk(next, retained);
        AcceptQuiet(next.io, d.message, retained);
        QuietKeeps(next, Accept(next.io, d.message).value, retained);
        InvOver(next.(io := Accept(next.io, d.message).value), false, retained);
      }
    }
  }

  lemma NoDeferral(s: Conversation, retained: nat)
    requires Inv(s, retained)
    ensures Inv(s.(io := s.io.(deferred := None)), retained)
  {
    hide Chained, OpensFirst, NoCommits, End;
  }

  lemma FailureKeeps(s: Conversation, id: nat, retained: nat)
    requires Inv(s, retained) && s.io.active.None?
    ensures Inv(s.(io := s.io.(lastId := id, output := Some(Output(id, FailureReply(), 0, None)))), retained)
  {
    hide Chained, OpensFirst, NoCommits, End;
  }

  /** The worker's cursor is where the commits it has taken leave it; no
      commit it takes is stale, and a page it makes starts where the last
      flushed page ended. */
  lemma WorkerKeeps(s: Conversation, work: Work, retained: nat)
    requires Inv(s, retained)
    ensures Inv(WorkerStep(s, work, retained), retained)
  {
    if s.worker.alive && s.worker.done < |s.io.sent| {
      var job := s.worker.done;
      ChainedAt(s.io.sent, job, retained);
      hide Chained, End;
      match s.io.sent[job] {
        case Commit(_, _, _) =>
        case Execute(m) => ExecuteKeeps(s, m, work, retained);
      }
    }
  }

  /** A page starts and its window stands where the cursor does. */
  lemma PerformFits(window: Option<nat>, m: Message, work: Work, retained: nat, at: nat)
    requires (window.Some? ==> window.value == at) && (m.Open? ==> at == 0)
    ensures var (after, ready) := Perform(window, m, work, retained);
            && (after.Some? ==> after.value == at)
            && (after.None? && !ready.end ==> window.None?)
            && (after.Some? && window.None? ==> m.Open?)
            && (ready.commit.Some? ==>
                  && (m.Open? || m.Continue?) && after.Some? && ready.commit.value.0 == at
                  && (at <= retained ==> at <= ready.commit.value.1 <= retained))
  {
  }

  /** Taking a job off the queue, as far as the invariant is concerned. */
  lemma TakenKeeps(s: Conversation, m: Message, alive: bool, window: Option<nat>, reply: Ready, retained: nat)
    requires Inv(s, retained) && s.worker.alive && s.worker.done < |s.io.sent|
    requires s.io.sent[s.worker.done] == Execute(m)
    requires End(s.io.sent[..s.worker.done + 1]) == End(s.io.sent[..s.worker.done])
    requires window.Some? ==> window.value == End(s.io.sent[..s.worker.done])
    requires alive && window.None? ==> s.worker.window.None?
    requires reply.commit.Some? ==>
               && (m.Open? || m.Continue?) && (alive ==> window.Some?)
               && reply.commit.value.0 == End(s.io.sent[..s.worker.done])
               && (reply.commit.value.0 <= retained ==> reply.commit.value.0 <= reply.commit.value.1 <= retained)
    ensures Inv(s.(worker := Worker(alive, s.worker.done + 1, window), replies := s.replies[s.worker.done := reply]), retained)
  {
    var job := s.worker.done;
    assert job + 1 == |s.io.sent| ==> s.io.sent[..job + 1] == s.io.sent;
    EndBounded(s.io.sent, retained);
    hide Chained, End, OpensFirst, NoCommits;
  }

  lemma ExecuteKeeps(s: Conversation, m: Message, work: Work, retained: nat)
    requires Inv(s, retained) && s.worker.alive && s.worker.done < |s.io.sent|
    requires s.io.sent[s.worker.done] == Execute(m)
    requires End(s.io.sent[..s.worker.done + 1]) == End(s.io.sent[..s.worker.done])
    ensures Inv(WorkerStep(s, work, retained), retained)
  {
    var job := s.worker.done;
    if m.Open? { OpenAtZero(s.io.sent, job); }
    if work.Expires? {
      TakenKeeps(s, m, false, None, Ready(1, None, true), retained);
    } else {
      PerformFits(s.worker.window, m, work, retained, End(s.io.sent[..job]));
      var (window, ready) := Perform(s.worker.window, m, work, retained);
      var reply := if job in s.io.cancelled && !m.Close? then FailureReply() else ready;
      hide Perform, Inv;
      TakenKeeps(s, m, !reply.end, window, reply, retained);
    }
  }

  /** Nothing was committed before the window opened. */
  lemma OpenAtZero(sent: seq<Command>, job: nat)
    requires OpensFirst(sent) && job < |sent| && sent[job].Execute? && sent[job].message.Open?
    ensures End(sent[..job]) == 0
  {
    NoCommitsEnd(sent[..job]);
  }

  lemma NextKeeps(s: Conversation, e: Event, retained: nat)
    requires Inv(s, retained)
    ensures Inv(Next(s, e, retained), retained)
  {
    hide Inv, Accept, Received, TimedOut, Flushed, WorkerStep;
    InvOver(s, true, retained);
    if !s.over {
      match e {
        case Frame(m) =>
          if Accept(s.io, m).Ok? {
            InvIsIoOk(s, retained);
            AcceptQuiet(s.io, m, retained);
            QuietKeeps(s, Accept(s.io, m).value, retained);
          }
        case Reply =>
          if s.io.output.None? && s.io.active.Some? && s.io.active.value.job in s.replies { ReceivedKeeps(s, retained); }
        case Wrote(count) =>
          if s.io.output.Some? { WroteKeeps(s, count, retained); }
        case Flush =>
          if s.io.output.Some? { FlushedKeeps(s, retained); }
        case Deadline => TimedOutKeeps(s, retained);
        case Work(work) => WorkerKeeps(s, work, retained);
      }
    }
  }

  lemma {:induction false} RunKeeps(events: seq<Event>, retained: nat)
    ensures Inv(Run(FreshSession, events, retained), retained)
  {
    hide Inv, Next;
    if events == [] {
      FreshInv(retained);
    } else {
      RunKeeps(events[..|events|-1], retained);
      NextKeeps(Run(FreshSession, events[..|events|-1], retained), events[|events|-1], retained);
    }
  }

  lemma FreshInv(retained: nat)
    ensures Inv(FreshSession, retained)
  {
  }

  // ------------------------------------------------------------- theorems

  /** The items of every page that was flushed whole, in flush order. */
  function FlushedItems<T>(sent: seq<Command>, items: seq<T>): seq<T> {
    if sent == [] then []
    else
      var last := sent[|sent|-1];
      FlushedItems(sent[..|sent|-1], items)
      + if last.Commit? && last.expected <= last.next <= |items| then items[last.expected..last.next] else []
  }

  lemma {:induction false} ChainIsPrefix<T>(sent: seq<Command>, items: seq<T>)
    requires Chained(sent, |items|)
    ensures End(sent) <= |items| && FlushedItems(sent, items) == items[..End(sent)]
  {
    if sent != [] { ChainIsPrefix(sent[..|sent|-1], items); }
  }

  /** In every run, under any interleaving of frames, cancels, deadlines,
      close, deferral and expiry, the pages flushed so far are exactly a
      prefix of the result: nothing is skipped and nothing repeated. And the
      worker never refuses a cursor move. */
  lemma FlushedIsPrefix<T>(events: seq<Event>, items: seq<T>)
    ensures var s := Run(FreshSession, events, |items|);
            && End(s.io.sent) <= |items|
            && FlushedItems(s.io.sent, items) == items[..End(s.io.sent)]
            && !s.stale
  {
    RunKeeps(events, |items|);
    var s := Run(FreshSession, events, |items|);
    assert Chained(s.io.sent, |items|) && !s.stale by { hide Run, Chained; }
    ChainIsPrefix(s.io.sent, items);
  }

  /** Whatever is about to be flushed continues that prefix. */
  lemma OutputContinues(events: seq<Event>, retained: nat)
    ensures var io := Run(FreshSession, events, retained).io;
            io.output.Some? && io.output.value.ready.commit.Some? ==>
              io.output.value.ready.commit.value.0 == End(io.sent) <= io.output.value.ready.commit.value.1 <= retained
  {
    RunKeeps(events, retained);
    hide Run, Chained, OpensFirst, NoCommits, End;
  }

  /** The owner knows exactly which work it has given up: the active job's
      flag is raised if and only if the job was stopped. */
  predicate StopsKnown(io: Io) {
    && (io.active.Some? ==>
          && io.active.value.job < |io.sent|
          && (io.active.value.stopped.Some? <==> io.active.value.job in io.cancelled))
    && (forall job :: job in io.cancelled ==> job < |io.sent|)
  }

  lemma AcceptStops(io: Io, m: Message)
    requires StopsKnown(io) && Accept(io, m).Ok?
    ensures StopsKnown(Accept(io, m).value)
  {
  }

  lemma FlushedStops(io: Io)
    requires StopsKnown(io) && Flushed(io).Ok?
    ensures StopsKnown(Flushed(io).value.0)
  {
    hide Accept;
    var out := io.output.value;
    var sent := if out.ready.commit.Some?
                then io.sent + [Commit(out.ready.commit.value.0, out.ready.commit.value.1, out.job)] else io.sent;
    var after := io.(output := None, sent := sent, completed := Some(out.id));
    assert StopsKnown(after);
    if !out.ready.end && after.deferred.Some? && !after.deferred.value.cancelled {
      AcceptStops(after.(deferred := None), after.deferred.value.message);
    }
  }

  lemma {:induction false} RunStops(events: seq<Event>, retained: nat)
    ensures StopsKnown(Run(FreshSession, events, retained).io)
  {
    if events != [] {
      hide Accept, Flushed, WorkerStep;
      var front, e := events[..|events|-1], events[|events|-1];
      var s := Run(FreshSession, front, retained);
      RunStops(front, retained);
      match e
      case Frame(m) => if Accept(s.io, m).Ok? { AcceptStops(s.io, m); }
      case Flush => if Flushed(s.io).Ok? { FlushedStops(s.io); }
      case Work(work) => WorkerLeavesIo(s, work, retained);
      case _ =>
    }
  }

  lemma WorkerLeavesIo(s: Conversation, work: Work, retained: nat)
    ensures WorkerStep(s, work, retained).io == s.io
  {
  }

  /** The latest job sent; only cursor moves follow it. */
  predicate LatestJob(sent: seq<Command>, job: nat) {
    job < |sent| && sent[job].Execute? && forall k :: job < k < |sent| ==> sent[k].Commit?
  }

  /** A job whose page may move the cursor. */
  predicate Moves(io: Io, job: nat) {
    && job < |io.sent| && io.sent[job].Execute?
    && (io.sent[job].message.Open? || io.sent[job].message.Continue?)
    && job !in io.cancelled
  }

  /** Where every cursor move comes from, sent or still to be flushed. */
  predicate MovesKnown(io: Io) {
    && StopsKnown(io)
    && (forall i :: 0 <= i < |io.sent| && io.sent[i].Commit? ==>
          io.sent[i].origin.Some? && io.sent[i].origin.value < i && Moves(io, io.sent[i].origin.value))
    && (io.active.Some? ==>
          && io.output.None?
          && io.active.value.job == |io.sent| - 1 && io.sent[|io.sent|-1].Execute?)
    && (io.output.Some? ==>
          && (io.output.value.job.Some? ==> LatestJob(io.sent, io.output.value.job.value))
          && (io.output.value.ready.commit.Some? ==>
                !io.output.value.ready.end && io.output.value.job.Some? && Moves(io, io.output.value.job.value)))
  }

  /** A reply with a cursor move answers a page request and ends nothing. */
  predicate RepliesKnown(s: Conversation) {
    forall job :: job in s.replies && s.replies[job].commit.Some? ==>
      && !s.replies[job].end
      && job < |s.io.sent| && s.io.sent[job].Execute?
      && (s.io.sent[job].message.Open? || s.io.sent[job].message.Continue?)
  }

  lemma CancelMoves(io: Io, id: nat)
    requires MovesKnown(io) && CancelRequest(io, id).Ok?
    ensures MovesKnown(CancelRequest(io, id).value)
  {
  }

  lemma BeginMoves(io: Io, m: Message)
    requires MovesKnown(io) && io.active.None? && io.output.None?
    ensures MovesKnown(Begin(io, m))
  {
  }

  lemma AcceptMoves(io: Io, m: Message)
    requires MovesKnown(io) && Accept(io, m).Ok?
    ensures MovesKnown(Accept(io, m).value)
  {
    hide Begin;
    if m.Cancel? {
      CancelMoves(io, m.id);
    } else if m.id > io.lastId && !(io.output.Some? && !(m.Close? && io.output.value.cursor == 0)) {
      var base := if io.output.Some? then io.(output := None, deferred := None) else io;
      if base.active.Some? {
        var dropped := base.(active := None, cancelled := base.cancelled + {base.active.value.job});
        assert MovesKnown(dropped);
        BeginMoves(dropped, m);
      } else {
        BeginMoves(base, m);
      }
    }
  }

  lemma FlushedMoves(io: Io)
    requires MovesKnown(io) && Flushed(io).Ok?
    ensures MovesKnown(Flushed(io).value.0)
  {
    hide Accept;
    var out := io.output.value;
    var sent := if out.ready.commit.Some?
                then io.sent + [Commit(out.ready.commit.value.0, out.ready.commit.value.1, out.job)] else io.sent;
    var after := io.(output := None, sent := sent, completed := Some(out.id));
    assert MovesKnown(after);
    if !out.ready.end && after.deferred.Some? && !after.deferred.value.cancelled {
      AcceptMoves(after.(deferred := None), after.deferred.value.message);
    }
  }

  lemma ReceivedMoves(s: Conversation)
    requires MovesKnown(s.io) && RepliesKnown(s) && s.io.active.Some? && s.io.active.value.job in s.replies
    ensures MovesKnown(Received(s.io, Some(s.replies[s.io.active.value.job])).value)
  {
  }

  lemma WorkerReplies(s: Conversation, work: Work, retained: nat)
    requires RepliesKnown(s)
    ensures RepliesKnown(WorkerStep(s, work, retained)) && WorkerStep(s, work, retained).io == s.io
  {
  }

  /** Commands are only ever added. */
  lemma NextGrows(s: Conversation, e: Event, retained: nat)
    ensures s.io.sent <= Next(s, e, retained).io.sent
  {
    hide WorkerStep;
    match e
    case Flush => if s.io.output.Some? { FlushedGrows(s.io); }
    case Work(work) => WorkerLeavesIo(s, work, retained);
    case _ =>
  }

  lemma FlushedGrows(io: Io)
    ensures Flushed(io).Ok? ==> io.sent <= Flushed(io).value.0.sent
  {
  }

  lemma NextMoves(s: Conversation, e: Event, retained: nat)
    requires MovesKnown(s.io) && RepliesKnown(s)
    ensures MovesKnown(Next(s, e, retained).io) && RepliesKnown(Next(s, e, retained))
  {
    NextGrows(s, e, retained);
    hide Accept, Flushed, WorkerStep, MovesKnown;
    if !s.over {
      match e
      case Frame(m) => if Accept(s.io, m).Ok? { AcceptMoves(s.io, m); }
      case Reply =>
        if s.io.output.None? && s.io.active.Some? && s.io.active.value.job in s.replies { ReceivedMoves(s); }
      case Wrote(count) => WroteMoves(s, count);
      case Flush => if s.io.output.Some? && Flushed(s.io).Ok? { FlushedMoves(s.io); }
      case Deadline => DeadlineMoves(s.io);
      case Work(work) => WorkerReplies(s, work, retained);
    }
  }

  lemma WroteMoves(s: Conversation, count: nat)
    requires MovesKnown(s.io)
    ensures s.io.output.Some? ==>
              MovesKnown(s.io.(output := Some(s.io.output.value.(cursor := s.io.output.value.cursor + count))))
  {
  }

  lemma DeadlineMoves(io: Io)
    requires MovesKnown(io)
    ensures TimedOut(io).Ok? ==> MovesKnown(TimedOut(io).value)
  {
  }

  lemma {:induction false} RunMoves(events: seq<Event>, retained: nat)
    ensures MovesKnown(Run(FreshSession, events, retained).io) && RepliesKnown(Run(FreshSession, events, retained))
  {
    if events != [] {
      hide MovesKnown, RepliesKnown, Next;
      RunMoves(events[..|events|-1], retained);
      NextMoves(Run(FreshSession, events[..|events|-1], retained), events[|events|-1], retained);
    }
  }

  /** In every run, every cursor move ever sent, and every one still on its
      way out, comes from a page job that was never cancelled, timed out or
      replaced, and from a reply that does not end the session. */
  lemma StoppedMovesNothing(events: seq<Event>, retained: nat)
    ensures var io := Run(FreshSession, events, retained).io;
            && (forall i :: 0 <= i < |io.sent| && io.sent[i].Commit? ==>
                  io.sent[i].origin.Some? && io.sent[i].origin.value < i && Moves(io, io.sent[i].origin.value))
            && (io.output.Some? && io.output.value.ready.commit.Some? ==>
                  !io.output.value.ready.end && io.output.value.job.Some? && Moves(io, io.output.value.job.value))
  {
    RunMoves(events, retained);
  }

  lemma {:induction false} RunGrows(events: seq<Event>, more: seq<Event>, retained: nat)
    ensures Run(FreshSession, events, retained).io.sent <= Run(FreshSession, events + more, retained).io.sent
    decreases |more|
  {
    hide Next;
    if more == [] {
      assert events + more == events;
    } else {
      var all := events + more;
      assert all[..|all|-1] == events + more[..|more|-1];
      RunGrows(events, more[..|more|-1], retained);
      NextGrows(Run(FreshSession, all[..|all|-1], retained), all[|all|-1], retained);
    }
  }

  /** Once a later job was sent, by a Close that replaced it or otherwise, no
      reply of an earlier job ever goes out. */
  lemma ReplacedIsSilent(events: seq<Event>, more: seq<Event>, job: nat, later: nat, retained: nat)
    requires var sent := Run(FreshSession, events, retained).io.sent; job < later < |sent| && sent[later].Execute?
    ensures var io := Run(FreshSession, events + more, retained).io;
            io.output.Some? ==> io.output.value.job != Some(job)
  {
    RunGrows(events, more, retained);
    RunMoves(events + more, retained);
    hide Run;
  }

  /** A whole flush always succeeds: the request that waited is admitted. */
  lemma FlushSucceeds(events: seq<Event>, retained: nat)
    ensures var io := Run(FreshSession, events, retained).io; io.output.Some? ==> Flushed(io).Ok?
  {
    RunMoves(events, retained);
    hide Run;
  }
}
