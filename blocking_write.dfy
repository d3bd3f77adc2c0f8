/**
  What `StackAndSocket::write_str` (src/stack/tcp.rs:193-203) does to a
  driver, as a function of the driver's send script: the loop keeps a cursor
  into the message, offers the driver the unsent rest `message[cursor..]`,
  retries on WouldBlock (the `nb::block!`), advances the cursor by the count
  a Ready reply reports, and gives up on the first error (the `?`).

  Drive returns None when the loop would never end: the script is used up
  while bytes remain, so every later call answers WouldBlock. The lemmas
  below state what the loop promises about the calls it makes.
 */
module BlockingWrite {
  import opened Results
  import opened Driver

  /** How one write ended, the send calls it made in order, and the part of the script left unused. */
  datatype WriteRun<S, E> = WriteRun(result: Result<(), E>, calls: seq<Call<S, E>>, rest: seq<SendOutcome<E>>)

  function Drive<S, E>(script: seq<SendOutcome<E>>, socket: S, message: seq<byte>, cursor: nat): (r: Option<WriteRun<S, E>>)
    requires cursor <= |message|
    ensures r.Some? ==> |r.value.calls| <= |script| && r.value.rest == script[|r.value.calls|..]
    decreases |script|
  {
    if cursor == |message| then Some(WriteRun(Ok(()), [], script))
    else if script == [] then None
    else
      var reply := SendReply(script[0], |message| - cursor);
      var call := SendCall(socket, message[cursor..], reply);
      match reply
      case Other(e) => Some(WriteRun(Err(e), [call], script[1..]))
      case Ready(n) =>
        (match Drive(script[1..], socket, message, cursor + n)
         case None => None
         case Some(run) => Some(run.(calls := [call] + run.calls)))
      case WouldBlock =>
        (match Drive(script[1..], socket, message, cursor)
         case None => None
         case Some(run) => Some(run.(calls := [call] + run.calls)))
  }

  /** The driver's state once a write has run: the script entries used up and the calls logged. */
  function After<S, E>(st: DriverState<S, E>, run: WriteRun<S, E>): DriverState<S, E> {
    st.(sendScript := run.rest, log := st.log + run.calls)
  }

  /** The cursor a call leaves behind: advanced by the count of a Ready reply, else unchanged. */
  function Advance<E>(cursor: nat, reply: NbResult<nat, E>): nat {
    if reply.Ready? then cursor + reply.value else cursor
  }

  /** The number of script entries that make a write progress: a positive limit, or an error. */
  function Progress<E>(script: seq<SendOutcome<E>>): nat {
    if script == [] then 0
    else (if script[0] == Busy || script[0] == Accepts(0) then 0 else 1) + Progress(script[1..])
  }

  /** `next` is what the loop sends after `prev`: the same bytes after WouldBlock, the unsent rest after Ready. */
  ghost predicate Retries<S, E>(prev: Call<S, E>, next: Call<S, E>) {
    && prev.SendCall? && next.SendCall?
    && !prev.reply.Other?
    && (prev.reply.WouldBlock? ==> next.buffer == prev.buffer)
    && (prev.reply.Ready? ==> prev.reply.value < |prev.buffer| && next.buffer == prev.buffer[prev.reply.value..])
  }

  /** A call that does not fail, followed by the run of the rest of the loop. */
  lemma DriveTakes<S, E>(first: SendOutcome<E>, rest: seq<SendOutcome<E>>, socket: S, message: seq<byte>, cursor: nat,
                         later: WriteRun<S, E>)
    requires cursor < |message|
    requires !SendReply(first, |message| - cursor).Other?
    requires Drive(rest, socket, message, Advance(cursor, SendReply(first, |message| - cursor))) == Some(later)
    ensures var reply := SendReply(first, |message| - cursor);
            Drive([first] + rest, socket, message, cursor)
            == Some(later.(calls := [SendCall(socket, message[cursor..], reply)] + later.calls))
  {
    var script := [first] + rest;
    assert script[0] == first && script[1..] == rest;
    DriveStep(script, socket, message, cursor, later);
  }

  /** DriveTakes for a script given whole. */
  lemma DriveStep<S, E>(script: seq<SendOutcome<E>>, socket: S, message: seq<byte>, cursor: nat, later: WriteRun<S, E>)
    requires cursor < |message| && script != []
    requires !SendReply(script[0], |message| - cursor).Other?
    requires Drive(script[1..], socket, message, Advance(cursor, SendReply(script[0], |message| - cursor))) == Some(later)
    ensures var reply := SendReply(script[0], |message| - cursor);
            Drive(script, socket, message, cursor) == Some(later.(calls := [SendCall(socket, message[cursor..], reply)] + later.calls))
  {
  }

  /** One unfolding of Drive on a run that ends: the first call and the run of the rest of the loop. */
  lemma DriveUnfold<S, E>(script: seq<SendOutcome<E>>, socket: S, message: seq<byte>, cursor: nat)
    requires cursor < |message|
    requires Drive(script, socket, message, cursor).Some?
    ensures script != []
    ensures var reply := SendReply(script[0], |message| - cursor);
            var run := Drive(script, socket, message, cursor).value;
            && run.calls != []
            && run.calls[0] == SendCall(socket, message[cursor..], reply)
            && (reply.Other? ==> run == WriteRun(Err(reply.error), [run.calls[0]], script[1..]))
            && (!reply.Other? ==>
                  && Advance(cursor, reply) <= |message|
                  && Drive(script[1..], socket, message, Advance(cursor, reply)).Some?
                  && var later := Drive(script[1..], socket, message, Advance(cursor, reply)).value;
                     && run.result == later.result && run.rest == later.rest
                     && run.calls == [run.calls[0]] + later.calls)
  {
  }

  /**
    Order, no gaps and no repeats for `calls` made from `cursor` on: call i
    is a send on `socket` of exactly the part of the message not yet
    reported written, and that part is never empty.
   */
  ghost predicate SendsRemainder<S, E>(calls: seq<Call<S, E>>, socket: S, message: seq<byte>, cursor: nat) {
    forall i :: 0 <= i < |calls| ==>
      && calls[i].SendCall? && calls[i].socket == socket
      && cursor + Accepted(calls[..i]) < |message|
      && calls[i].buffer == message[cursor + Accepted(calls[..i])..]
  }

  /** Every call of a write is a send on `socket` of exactly the unsent rest of the message. */
  lemma {:induction false} DriveSendsRemainder<S, E>(script: seq<SendOutcome<E>>, socket: S, message: seq<byte>, cursor: nat)
    requires cursor <= |message|
    requires Drive(script, socket, message, cursor).Some?
    ensures SendsRemainder(Drive(script, socket, message, cursor).value.calls, socket, message, cursor)
    decreases |script|
  {
    if cursor < |message| {
      DriveUnfold(script, socket, message, cursor);
      var reply := SendReply(script[0], |message| - cursor);
      var calls := Drive(script, socket, message, cursor).value.calls;
      var next := Advance(cursor, reply);
      if reply.Other? {
        var none: seq<Call<S, E>> := [];
        assert calls == [calls[0]] + none;
        RemainderStep(calls[0], none, socket, message, cursor, next);
      } else {
        var rest := Drive(script[1..], socket, message, next).value.calls;
        assert calls == [calls[0]] + rest;
        DriveSendsRemainder(script[1..], socket, message, next);
        RemainderStep(calls[0], rest, socket, message, cursor, next);
      }
    }
  }

  /** A send of the unsent rest in front of calls that send the rest after it. */
  lemma RemainderStep<S, E>(call: Call<S, E>, rest: seq<Call<S, E>>, socket: S, message: seq<byte>, cursor: nat, next: nat)
    requires cursor < |message| && call.SendCall? && call.socket == socket && call.buffer == message[cursor..]
    requires next == cursor + |Chunk(call)|
    requires SendsRemainder(rest, socket, message, next)
    ensures SendsRemainder([call] + rest, socket, message, cursor)
  {
    var calls := [call] + rest;
    assert calls[..0] == [];
    forall i | 1 <= i < |calls|
      ensures calls[i] == rest[i - 1]
      ensures cursor + Accepted(calls[..i]) == next + Accepted(rest[..i - 1])
    {
      assert calls[..i][1..] == rest[..i - 1];
    }
  }

  /**
    Before each of `calls`, and after the last, the bytes reported written
    are exactly the message's bytes from `cursor` up to where the next call
    starts, and that point is never past the end.
   */
  ghost predicate DeliversPrefixes<S, E>(calls: seq<Call<S, E>>, socket: S, message: seq<byte>, cursor: nat) {
    forall i :: 0 <= i <= |calls| ==>
      && cursor + Accepted(calls[..i]) <= |message|
      && Delivered(calls[..i], socket) == message[cursor..cursor + Accepted(calls[..i])]
  }

  /**
    The bytes reported written before call i are exactly the message's bytes
    from the cursor up to the point call i starts from.
   */
  lemma {:induction false} DriveDeliversPrefix<S, E>(script: seq<SendOutcome<E>>, socket: S, message: seq<byte>, cursor: nat)
    requires cursor <= |message|
    requires Drive(script, socket, message, cursor).Some?
    ensures DeliversPrefixes(Drive(script, socket, message, cursor).value.calls, socket, message, cursor)
    decreases |script|
  {
    var calls := Drive(script, socket, message, cursor).value.calls;
    if cursor == |message| {
      assert calls == [] && calls[..0] == [] && message[cursor..cursor] == [];
    } else {
      DriveUnfold(script, socket, message, cursor);
      var reply := SendReply(script[0], |message| - cursor);
      var next := Advance(cursor, reply);
      if reply.Other? {
        var none: seq<Call<S, E>> := [];
        assert calls == [calls[0]] + none;
        assert none[..0] == [] && message[next..next] == [];
        assert DeliversPrefixes(none, socket, message, next);
        PrefixesStep(calls[0], none, socket, message, cursor, next);
      } else {
        var rest := Drive(script[1..], socket, message, next).value.calls;
        assert calls == [calls[0]] + rest;
        DriveDeliversPrefix(script[1..], socket, message, next);
        PrefixesStep(calls[0], rest, socket, message, cursor, next);
      }
    }
  }

  /** The prefix property of the calls after the first, moved in front of the first call. */
  lemma PrefixesStep<S, E>(call: Call<S, E>, rest: seq<Call<S, E>>, socket: S, message: seq<byte>, cursor: nat, next: nat)
    requires call.SendCall? && call.socket == socket
    requires cursor <= next <= |message| && Chunk(call) == message[cursor..next]
    requires DeliversPrefixes(rest, socket, message, next)
    ensures DeliversPrefixes([call] + rest, socket, message, cursor)
  {
    var calls := [call] + rest;
    assert calls[..0] == [] && message[cursor..cursor] == [];
    forall i | 1 <= i <= |calls|
      ensures cursor + Accepted(calls[..i]) <= |message|
      ensures Delivered(calls[..i], socket) == message[cursor..cursor + Accepted(calls[..i])]
    {
      assert calls[..i] == [call] + rest[..i - 1];
      PrefixStep(call, rest[..i - 1], socket, message, cursor, next);
    }
  }

  /** One more send in front of a delivered prefix: the delivered bytes stay a prefix of the message. */
  lemma PrefixStep<S, E>(call: Call<S, E>, calls: seq<Call<S, E>>, socket: S, message: seq<byte>, cursor: nat, next: nat)
    requires call.SendCall? && call.socket == socket
    requires cursor <= next <= |message| && Chunk(call) == message[cursor..next]
    requires next + Accepted(calls) <= |message|
    requires Delivered(calls, socket) == message[next..next + Accepted(calls)]
    ensures cursor + Accepted([call] + calls) <= |message|
    ensures Delivered([call] + calls, socket) == message[cursor..cursor + Accepted([call] + calls)]
  {
    var all := [call] + calls;
    assert all[0] == call && all[1..] == calls;
    var k := Accepted(calls);
    assert Accepted(all) == (next - cursor) + k;
    assert Delivered(all, socket) == message[cursor..next] + Delivered(calls, socket);
    assert message[cursor..next] + message[next..next + k] == message[cursor..next + k];
  }

  /**
    The loop's step relation between consecutive calls: after a WouldBlock
    the same remainder is offered again, after Ready(n) the remainder
    shrinks by exactly the n bytes reported, and no call other than the
    last one answered with an error.
   */
  lemma {:induction false} DriveNextCall<S, E>(script: seq<SendOutcome<E>>, socket: S, message: seq<byte>, cursor: nat)
    requires cursor <= |message|
    requires Drive(script, socket, message, cursor).Some?
    ensures var calls := Drive(script, socket, message, cursor).value.calls;
            forall i :: 0 <= i < |calls| - 1 ==> Retries(calls[i], calls[i + 1])
    decreases |script|
  {
    if cursor < |message| {
      DriveUnfold(script, socket, message, cursor);
      var reply := SendReply(script[0], |message| - cursor);
      var calls := Drive(script, socket, message, cursor).value.calls;
      if !reply.Other? {
        var next := Advance(cursor, reply);
        var rest := Drive(script[1..], socket, message, next).value.calls;
        DriveNextCall(script[1..], socket, message, next);
        if next < |message| {
          DriveUnfold(script[1..], socket, message, next);
          assert Retries(calls[0], calls[1]);
        }
        forall i | 1 <= i < |calls| - 1
          ensures Retries(calls[i], calls[i + 1])
        {
          assert calls[i] == rest[i - 1] && calls[i + 1] == rest[i];
        }
      }
    }
  }

  /**
    The first error ends a run at once and is what the run returns: the run
    fails exactly when its last call answered with an error, that error is
    the one `script` held for that call, and no other call answered with an
    error.
   */
  ghost predicate StopsAtError<S, E>(run: WriteRun<S, E>, script: seq<SendOutcome<E>>) {
    && |run.calls| <= |script|
    && (forall i :: 0 <= i < |run.calls| ==> run.calls[i].SendCall?)
    && (forall i :: 0 <= i < |run.calls| - 1 ==> !run.calls[i].reply.Other?)
    && (run.result.Err? <==> run.calls != [] && run.calls[|run.calls| - 1].reply.Other?)
    && (run.result.Err? ==>
          && run.calls[|run.calls| - 1].reply == Other(run.result.error)
          && script[|run.calls| - 1] == Fails(run.result.error))
  }

  /** A write stops at its first error, and that error is the driver's. */
  lemma {:induction false} DriveStopsAtError<S, E>(script: seq<SendOutcome<E>>, socket: S, message: seq<byte>, cursor: nat)
    requires cursor <= |message|
    requires Drive(script, socket, message, cursor).Some?
    ensures StopsAtError(Drive(script, socket, message, cursor).value, script)
    decreases |script|
  {
    if cursor < |message| {
      DriveUnfold(script, socket, message, cursor);
      var reply := SendReply(script[0], |message| - cursor);
      var run := Drive(script, socket, message, cursor).value;
      if reply.Other? {
        assert script[0] == Fails(reply.error);
        assert run == WriteRun(Err(reply.error), [run.calls[0]], script[1..]);
        ErrorFirst(run.calls[0], reply.error, script);
      } else {
        var next := Advance(cursor, reply);
        var later := Drive(script[1..], socket, message, next).value;
        DriveStopsAtError(script[1..], socket, message, next);
        ErrorStep(run.calls[0], later, script);
        assert run == later.(calls := [run.calls[0]] + later.calls);
      }
    }
  }

  /** A call that failed with the script's own error ends the run with that error. */
  lemma ErrorFirst<S, E>(call: Call<S, E>, e: E, script: seq<SendOutcome<E>>)
    requires call.SendCall? && call.reply == Other(e)
    requires script != [] && script[0] == Fails(e)
    ensures StopsAtError(WriteRun(Err(e), [call], script[1..]), script)
  {
  }

  /** A call that did not fail in front of a run that stops at its first error. */
  lemma ErrorStep<S, E>(call: Call<S, E>, later: WriteRun<S, E>, script: seq<SendOutcome<E>>)
    requires call.SendCall? && !call.reply.Other?
    requires script != [] && StopsAtError(later, script[1..])
    ensures StopsAtError(later.(calls := [call] + later.calls), script)
  {
    var calls := [call] + later.calls;
    forall i | 1 <= i < |calls|
      ensures calls[i] == later.calls[i - 1]
    {
    }
    if later.calls != [] {
      assert calls[|calls| - 1] == later.calls[|later.calls| - 1];
      assert script[|calls| - 1] == script[1..][|later.calls| - 1];
    }
  }

  /**
    A write that returns Ok has had the driver report every byte written,
    and the peer of `socket` received exactly the message from the cursor
    on, neither more nor less.
   */
  lemma {:induction false} DriveOkDelivers<S, E>(script: seq<SendOutcome<E>>, socket: S, message: seq<byte>, cursor: nat)
    requires cursor <= |message|
    requires Drive(script, socket, message, cursor).Some?
    requires Drive(script, socket, message, cursor).value.result.Ok?
    ensures var calls := Drive(script, socket, message, cursor).value.calls;
            && Accepted(calls) == |message| - cursor
            && Delivered(calls, socket) == message[cursor..]
    decreases |script|
  {
    if cursor < |message| {
      DriveUnfold(script, socket, message, cursor);
      var reply := SendReply(script[0], |message| - cursor);
      if reply.Other? {
        assert false;  // the write would have returned that error
      } else {
        var calls := Drive(script, socket, message, cursor).value.calls;
        var next := Advance(cursor, reply);
        var rest := Drive(script[1..], socket, message, next).value.calls;
        DriveOkDelivers(script[1..], socket, message, next);
        assert calls == [calls[0]] + rest;
        OkStep(calls[0], rest, socket, message, cursor, next);
      }
    }
  }

  /** One more send of the unsent rest in front of calls that deliver all of the rest after it. */
  lemma OkStep<S, E>(call: Call<S, E>, rest: seq<Call<S, E>>, socket: S, message: seq<byte>, cursor: nat, next: nat)
    requires call.SendCall? && call.socket == socket
    requires cursor <= next <= |message| && Chunk(call) == message[cursor..next]
    requires Accepted(rest) == |message| - next && Delivered(rest, socket) == message[next..]
    ensures Accepted([call] + rest) == |message| - cursor
    ensures Delivered([call] + rest, socket) == message[cursor..]
  {
    var calls := [call] + rest;
    assert calls[0] == call && calls[1..] == rest;
    assert Accepted(calls) == (next - cursor) + Accepted(rest);
    assert Delivered(calls, socket) == message[cursor..next] + Delivered(rest, socket);
    assert message[cursor..next] + message[next..] == message[cursor..];
  }

  /**
    The loop invariant of write_str: the driver state `st` differs from the
    starting state `start` only in the send script and in the calls `done`
    so far, and the run that starts at `cursor` from `st` finishes the run
    `run` that started from `start`.
   */
  ghost predicate Finishes<S, E>(start: DriverState<S, E>, run: WriteRun<S, E>, st: DriverState<S, E>,
                                 socket: S, message: seq<byte>, cursor: nat, done: seq<Call<S, E>>)
  {
    && cursor <= |message|
    && Drive(st.sendScript, socket, message, cursor).Some?
    && var later := Drive(st.sendScript, socket, message, cursor).value;
       && st == start.(sendScript := st.sendScript, log := start.log + done)
       && later.result == run.result && later.rest == run.rest
       && run.calls == done + later.calls
  }

  /** One driver `send` on the unsent rest keeps the invariant, or ends the run with the error it reports. */
  lemma SendKeepsFinishes<S, E>(start: DriverState<S, E>, run: WriteRun<S, E>, st: DriverState<S, E>,
                                socket: S, message: seq<byte>, cursor: nat, done: seq<Call<S, E>>)
    requires Finishes(start, run, st, socket, message, cursor, done)
    requires cursor < |message|
    ensures var step := Send(st, socket, message[cursor..]);
            var done' := done + [SendCall(socket, message[cursor..], step.reply)];
            && |step.after.sendScript| < |st.sendScript|
            && (step.reply.Other? ==> run.result == Err(step.reply.error) && step.after == After(start, run))
            && (!step.reply.Other? ==> Finishes(start, run, step.after, socket, message, Advance(cursor, step.reply), done'))
  {
    DriveUnfold(st.sendScript, socket, message, cursor);
    var step := Send(st, socket, message[cursor..]);
    assert step.reply == SendReply(st.sendScript[0], |message| - cursor);
    var done' := done + [SendCall(socket, message[cursor..], step.reply)];
    assert start.log + done' == st.log + [SendCall(socket, message[cursor..], step.reply)];
  }

  /** The invariant at the loop's exit: the driver is in the state the whole run leads to. */
  lemma FinishesAtEnd<S, E>(start: DriverState<S, E>, run: WriteRun<S, E>, st: DriverState<S, E>,
                            socket: S, message: seq<byte>, done: seq<Call<S, E>>)
    requires Finishes(start, run, st, socket, message, |message|, done)
    ensures run.result == Ok(()) && st == After(start, run)
  {
  }

  /** Once nothing remains (in particular for an empty message) no send is made and the write is Ok. */
  lemma DriveDone<S, E>(script: seq<SendOutcome<E>>, socket: S, message: seq<byte>)
    ensures Drive(script, socket, message, |message|) == Some(WriteRun(Ok(()), [], script))
  {
  }

  /**
    Termination needs progress: if the script holds, before it is used up,
    at least as many entries that make progress (a positive limit or an
    error) as bytes remain, then the write ends.
   */
  lemma {:induction false} DriveSettles<S, E>(script: seq<SendOutcome<E>>, socket: S, message: seq<byte>, cursor: nat)
    requires cursor <= |message|
    requires Progress(script) >= |message| - cursor
    ensures Drive(script, socket, message, cursor).Some?
    decreases |script|
  {
    if cursor < |message| {
      var reply := SendReply(script[0], |message| - cursor);
      if !reply.Other? {
        DriveSettles(script[1..], socket, message, Advance(cursor, reply));
      }
    }
  }

  /**
    Whether a write with `remaining` bytes to go ends on this script: an
    error ends it, a limit takes off what it can, Busy changes nothing, and a
    script used up with bytes still to go leaves the loop spinning.
   */
  function Settles<E>(script: seq<SendOutcome<E>>, remaining: nat): bool {
    if remaining == 0 then true
    else if script == [] then false
    else match script[0]
      case Fails(_) => true
      case Busy => Settles(script[1..], remaining)
      case Accepts(limit) => Settles(script[1..], remaining - Min(limit, remaining))
  }

  /**
    Termination depends only on the counts the driver reports, not on the
    bytes or the socket: the write ends exactly when Settles holds.
   */
  lemma {:induction false} DriveEndsIffSettles<S, E>(script: seq<SendOutcome<E>>, socket: S, message: seq<byte>, cursor: nat)
    requires cursor <= |message|
    ensures Drive(script, socket, message, cursor).Some? <==> Settles(script, |message| - cursor)
    decreases |script|
  {
    if cursor < |message| && script != [] {
      var reply := SendReply(script[0], |message| - cursor);
      if !reply.Other? {
        DriveEndsIffSettles(script[1..], socket, message, Advance(cursor, reply));
      }
    }
  }

  /**
    Without progress the write never ends: if bytes remain and every entry
    left in the script is Busy or a zero limit (a Ready(0) reply), Drive
    reports that the loop would spin forever.
   */
  lemma {:induction false} DriveStalls<S, E>(script: seq<SendOutcome<E>>, socket: S, message: seq<byte>, cursor: nat)
    requires cursor < |message|
    requires Progress(script) == 0
    ensures Drive(script, socket, message, cursor).None?
    decreases |script|
  {
    if script != [] {
      assert script[0] == Busy || script[0] == Accepts(0);
      DriveStalls(script[1..], socket, message, cursor);
    }
  }
}
