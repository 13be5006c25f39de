/** The I/O owner and the worker as the objects they are: fields updated
    event by event, each event proved to be the session's own step. */
module Exchange {
  import opened Wrappers
  import opened Session
  import S = Session

  class Exchange {
    var windowOpen: bool
    var lastId: nat
    var completed: Option<nat>
    var active: Option<Active>
    var output: Option<Output>
    var deferred: Option<Deferred>
    var sent: seq<Command>
    var cancelled: set<nat>

    function View(): Io
      reads this
    {
      Io(windowOpen, lastId, completed, active, output, deferred, sent, cancelled)
    }

    constructor ()
      ensures View() == FreshIo
    {
      windowOpen, lastId, completed := false, 0, None;
      active, output, deferred := None, None, None;
      sent, cancelled := [], {};
    }

    /** A step that succeeds leaves exactly the session's next state. */
    predicate Follows(r: Result<(), Failure>, step: Result<Io, Failure>)
      reads this
    {
      match r
      case Ok(_) => step == Ok(View())
      case Err(e) => step == Err(e)
    }

    method RejectWith(id: nat)
      modifies this`output
      ensures View() == Reject(old(View()), id)
    {
      output := Some(Output(id, FailureReply(), 0, None));
    }

    method CancelActive()
      modifies this`cancelled
      ensures cancelled == old(cancelled) + if active.Some? then {active.value.job} else {}
    {
      if active.Some? { cancelled := cancelled + {active.value.job}; }
    }

    method Cancel(id: nat) returns (r: Result<(), Failure>)
      modifies this
      ensures Follows(r, CancelRequest(old(View()), id))
    {
      if completed.Some? && id <= completed.value { return Ok(()); }
      if deferred.Some? && deferred.value.message.id == id && !deferred.value.message.Close? {
        deferred := Some(deferred.value.(cancelled := true));
        return Ok(());
      }
      if active.Some? {
        if active.value.id != id { return Err(ResponseMismatch); }
        CancelActive();
        if active.value.stopped.None? { active := Some(active.value.(stopped := Some(StoppedByCancel))); }
        active := Some(active.value.(cleanup := true));
        return Ok(());
      }
      if output.Some? {
        if output.value.id != id { return Err(ResponseMismatch); }
        if output.value.cursor != 0 { return Err(PartialOutputCancelled); }
        output := Some(output.value.(ready := FailureReply()));
        return Ok(());
      }
      RejectWith(id);
      return Ok(());
    }

    /** Admits one decoded frame: control, a deferred request, a refusal, or a
        job for the worker. */
    method Accept(m: Message) returns (r: Result<(), Failure>)
      modifies this
      ensures Follows(r, S.Accept(old(View()), m))
    {
      if m.Cancel? { r := Cancel(m.id); return; }
      if m.id <= lastId {
        if active.Some? || output.Some? { return Err(RequestIdInvalid); }
        RejectWith(m.id);
        return Ok(());
      }
      if output.Some? {
        if m.Close? && output.value.cursor == 0 {
          output, deferred := None, None;
        } else {
          if m.Close? && output.value.cursor != output.value.ready.size { return Err(PartialOutputClose); }
          if deferred.Some? && !m.Close? { return Err(RequestInFlight); }
          deferred := Some(Deferred(m, false));
          return Ok(());
        }
      }
      if active.Some? {
        if !m.Close? { return Err(RequestInFlight); }
        CancelActive();
        active := None;
      }
      lastId := m.id;
      match m {
        case Open(_) =>
          if windowOpen { RejectWith(m.id); return Ok(()); }
          windowOpen := true;
        case Continue(_) => if !windowOpen { RejectWith(m.id); return Ok(()); }
        case Expand(_) => if !windowOpen { RejectWith(m.id); return Ok(()); }
        case Close(_) =>
      }
      active := Some(Active(m.id, |sent|, None, false));
      sent := sent + [Execute(m)];
      return Ok(());
    }

    /** Takes the worker's reply as the next output. */
    method Received(reply: Option<Ready>) returns (r: Result<(), Failure>)
      modifies this
      ensures Follows(r, S.Received(old(View()), reply))
    {
      if active.None? { return Err(NoActiveRequest); }
      if reply.None? { return Err(WorkerFailed); }
      var taken := active.value;
      active := None;
      var ready := reply.value;
      if taken.stopped.Some? && !ready.end { ready := FailureReply(); }
      output := Some(Output(taken.id, ready, 0, Some(taken.job)));
      return Ok(());
    }

    method TimedOut() returns (r: Result<(), Failure>)
      modifies this
      ensures Follows(r, S.TimedOut(old(View())))
    {
      if active.None? { return Err(DeadlinePassed); }
      if active.value.cleanup { return Err(CleanupExpired); }
      CancelActive();
      active := Some(active.value.(stopped := Some(StoppedByDeadline), cleanup := true));
      return Ok(());
    }

    /** The whole output was flushed: commit it, then start what waited. */
    method Flushed() returns (r: Result<bool, Failure>)
      modifies this
      ensures match r
              case Ok(end) => S.Flushed(old(View())) == Ok((View(), end))
              case Err(e) => S.Flushed(old(View())) == Err(e)
    {
      if output.None? { return Err(OutputMissing); }
      var out := output.value;
      output := None;
      if out.ready.commit.Some? {
        sent := sent + [Commit(out.ready.commit.value.0, out.ready.commit.value.1, out.job)];
      }
      completed := Some(out.id);
      if out.ready.end { return Ok(true); }
      if deferred.Some? {
        var waiting := deferred.value;
        deferred := None;
        if waiting.cancelled {
          lastId := waiting.message.id;
          output := Some(Output(waiting.message.id, FailureReply(), 0, None));
        } else {
          var begun := Accept(waiting.message);
          if begun.Err? { return Err(begun.error); }
        }
      }
      return Ok(false);
    }
  }

  /** The synchronous owner of the window. */
  class WorkerLoop {
    var alive: bool
    var done: nat
    var window: Option<nat>
    var stale: bool

    constructor ()
      ensures alive && done == 0 && window == None && !stale
    {
      alive, done, window, stale := true, 0, None, false;
    }

    function View(): Worker
      reads this
    {
      Worker(alive, done, window)
    }

    /** Moves the cursor after a flush; refuses a move that does not start
        where the cursor stands. */
    method CommitPage(expected: nat, next: nat, retained: nat) returns (ok: bool)
      requires window.Some?
      modifies this`window
      ensures ok <==> old(window) == Some(expected) && expected <= next <= retained
      ensures window == if ok then Some(next) else old(window)
    {
      if window.value != expected || next < expected || next > retained { return false; }
      window := Some(next);
      return true;
    }

    /** One pass of the command loop. */
    method Step(command: Command, work: Work, wasCancelled: bool, retained: nat) returns (reply: Option<Ready>)
      requires alive
      modifies this
      ensures forall s: Conversation ::
                s.worker == old(View()) && s.stale == old(stale) && old(done) < |s.io.sent|
                && s.io.sent[old(done)] == command && (old(done) in s.io.cancelled <==> wasCancelled) ==>
                  WorkerStep(s, work, retained)
                  == s.(worker := View(), stale := stale,
                        replies := if reply.Some? then s.replies[old(done) := reply.value] else s.replies)
    {
      done := done + 1;
      match command {
        case Commit(expected, next, _) =>
          if work.Expires? { alive := false; return None; }
          var moved := false;
          if window.Some? { moved := CommitPage(expected, next, retained); }
          if !moved { alive, stale := false, true; }
          return None;
        case Execute(m) =>
          if work.Expires? {
            alive, window := false, None;
            return Some(Ready(1, None, true));
          }
          var performed := Perform(window, m, work, retained);
          window := performed.0;
          var ready := if wasCancelled && !m.Close? then FailureReply() else performed.1;
          if ready.end { alive := false; }
          return Some(ready);
      }
    }
  }
}
