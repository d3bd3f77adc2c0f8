/**
  The objects of src/stack/tcp.rs: a stack object that owns the driver state,
  the forwarding implementation of the client trait for a borrowed stack
  (`impl TcpClientStack for &mut T`), and `StackAndSocket`, which bundles a
  stack and one socket and writes whole messages.
 */
module Tcp {
  import opened Results
  import Driver
  import opened BlockingWrite

  type byte = Driver.byte

  /** The effect of one `receive` into a buffer that held `was` and now holds `now`. */
  ghost predicate Received<S, E>(before: Driver.DriverState<S, E>, after: Driver.DriverState<S, E>, socket: S,
                                 was: seq<byte>, now: seq<byte>, r: NbResult<nat, E>)
  {
    var step := Driver.Receive(before, socket, |was|);
    && after == step.after
    && |now| == |was|
    && match step.reply
       case Ready(data) => r == Ready(|data|) && now[..|data|] == data && now[|data|..] == was[|data|..]
       case WouldBlock => r == WouldBlock && now == was
       case Other(e) => r == Other(e) && now == was
  }

  /**
    A stack implementing `TcpClientStack` and `TcpFullStack`: each method is
    one call into the driver, whose state the object holds.
   */
  class TcpStack<S, E> {
    var state: Driver.DriverState<S, E>

    constructor (initial: Driver.DriverState<S, E>)
      ensures state == initial
    {
      state := initial;
    }

    method Socket() returns (r: Result<S, E>)
      modifies this
      ensures Driver.Step(r, state) == Driver.Socket(old(state))
    {
      var step := Driver.Socket(state);
      r, state := step.reply, step.after;
    }

    method Connect(socket: S, remote: Driver.SocketAddr) returns (r: NbResult<(), E>)
      modifies this
      ensures Driver.Step(r, state) == Driver.Connect(old(state), socket, remote)
    {
      var step := Driver.Connect(state, socket, remote);
      r, state := step.reply, step.after;
    }

    method IsConnected(socket: S) returns (r: Result<bool, E>)
      modifies this
      ensures Driver.Step(r, state) == Driver.IsConnected(old(state), socket)
    {
      var step := Driver.IsConnected(state, socket);
      r, state := step.reply, step.after;
    }

    method Send(socket: S, buffer: seq<byte>) returns (r: NbResult<nat, E>)
      modifies this
      ensures Driver.Step(r, state) == Driver.Send(old(state), socket, buffer)
      ensures r.Ready? ==> r.value <= |buffer|
    {
      var step := Driver.Send(state, socket, buffer);
      r, state := step.reply, step.after;
    }

    /** Places the bytes received in `buffer[..n]` and leaves the rest of `buffer` as it was. */
    method Receive(socket: S, buffer: array<byte>) returns (r: NbResult<nat, E>)
      modifies this, buffer
      ensures Received(old(state), state, socket, old(buffer[..]), buffer[..], r)
      ensures r.Ready? ==> r.value <= buffer.Length
    {
      var step := Driver.Receive(state, socket, buffer.Length);
      state := step.after;
      match step.reply
      case Ready(data) =>
        forall i | 0 <= i < |data| {
          buffer[i] := data[i];
        }
        r := Ready(|data|);
      case WouldBlock =>
        r := WouldBlock;
      case Other(e) =>
        r := Other(e);
    }

    method Close(socket: S) returns (r: Result<(), E>)
      modifies this
      ensures Driver.Step(r, state) == Driver.Close(old(state), socket)
    {
      var step := Driver.Close(state, socket);
      r, state := step.reply, step.after;
    }

    method Bind(socket: S, localPort: Driver.u16) returns (r: Result<(), E>)
      modifies this
      ensures Driver.Step(r, state) == Driver.Bind(old(state), socket, localPort)
    {
      var step := Driver.Bind(state, socket, localPort);
      r, state := step.reply, step.after;
    }

    method Listen(socket: S) returns (r: Result<(), E>)
      modifies this
      ensures Driver.Step(r, state) == Driver.Listen(old(state), socket)
    {
      var step := Driver.Listen(state, socket);
      r, state := step.reply, step.after;
    }

    method Accept(socket: S) returns (r: NbResult<(S, Driver.SocketAddr), E>)
      modifies this
      ensures Driver.Step(r, state) == Driver.Accept(old(state), socket)
    {
      var step := Driver.Accept(state, socket);
      r, state := step.reply, step.after;
    }

    /** `with_socket`: bundle this stack with `socket`; the stack is not touched. */
    method WithSocket(socket: S) returns (s: StackAndSocket<S, E>)
      ensures fresh(s) && s.tcpStack == this && s.socket == socket
    {
      s := new StackAndSocket(this, socket);
    }
  }

  /**
    The client trait for a borrowed stack: every method hands its arguments
    unchanged to the stack it borrows and returns that stack's answer.
   */
  class StackRef<S, E> {
    const target: TcpStack<S, E>

    constructor (target: TcpStack<S, E>)
      ensures this.target == target
    {
      this.target := target;
    }

    method Socket() returns (r: Result<S, E>)
      modifies target
      ensures Driver.Step(r, target.state) == Driver.Socket(old(target.state))
    {
      r := target.Socket();
    }

    method Connect(socket: S, remote: Driver.SocketAddr) returns (r: NbResult<(), E>)
      modifies target
      ensures Driver.Step(r, target.state) == Driver.Connect(old(target.state), socket, remote)
    {
      r := target.Connect(socket, remote);
    }

    method IsConnected(socket: S) returns (r: Result<bool, E>)
      modifies target
      ensures Driver.Step(r, target.state) == Driver.IsConnected(old(target.state), socket)
    {
      r := target.IsConnected(socket);
    }

    method Send(socket: S, buffer: seq<byte>) returns (r: NbResult<nat, E>)
      modifies target
      ensures Driver.Step(r, target.state) == Driver.Send(old(target.state), socket, buffer)
    {
      r := target.Send(socket, buffer);
    }

    method Receive(socket: S, buffer: array<byte>) returns (r: NbResult<nat, E>)
      modifies target, buffer
      ensures Received(old(target.state), target.state, socket, old(buffer[..]), buffer[..], r)
    {
      r := target.Receive(socket, buffer);
    }

    method Close(socket: S) returns (r: Result<(), E>)
      modifies target
      ensures Driver.Step(r, target.state) == Driver.Close(old(target.state), socket)
    {
      r := target.Close(socket);
    }
  }

  /** A stack and one of its sockets, bundled so that one handle can read and write that socket. */
  class StackAndSocket<S, E> {
    const tcpStack: TcpStack<S, E>
    const socket: S

    /** `new`: bundle the two references; nothing is called on the stack. */
    constructor (tcpStack: TcpStack<S, E>, socket: S)
      ensures this.tcpStack == tcpStack && this.socket == socket
    {
      this.tcpStack := tcpStack;
      this.socket := socket;
    }

    method Connect(remote: Driver.SocketAddr) returns (r: NbResult<(), E>)
      modifies tcpStack
      ensures Driver.Step(r, tcpStack.state) == Driver.Connect(old(tcpStack.state), socket, remote)
    {
      r := tcpStack.Connect(socket, remote);
    }

    method IsConnected() returns (r: Result<bool, E>)
      modifies tcpStack
      ensures Driver.Step(r, tcpStack.state) == Driver.IsConnected(old(tcpStack.state), socket)
    {
      r := tcpStack.IsConnected(socket);
    }

    method Receive(buffer: array<byte>) returns (r: NbResult<nat, E>)
      modifies tcpStack, buffer
      ensures Received(old(tcpStack.state), tcpStack.state, socket, old(buffer[..]), buffer[..], r)
    {
      r := tcpStack.Receive(socket, buffer);
    }

    method Send(buffer: seq<byte>) returns (r: NbResult<nat, E>)
      modifies tcpStack
      ensures Driver.Step(r, tcpStack.state) == Driver.Send(old(tcpStack.state), socket, buffer)
    {
      r := tcpStack.Send(socket, buffer);
    }

    /**
      `write_str`: send the whole message, retrying on WouldBlock and after
      short writes, and stop at the first error. The loop only ends if the
      driver keeps making progress; the precondition says it does.
     */
    method WriteStr(message: seq<byte>) returns (r: Result<(), E>)
      requires Drive(tcpStack.state.sendScript, socket, message, 0).Some?
      modifies tcpStack
      ensures var run := Drive(old(tcpStack.state.sendScript), socket, message, 0).value;
              r == run.result && tcpStack.state == After(old(tcpStack.state), run)
      ensures r.Ok? ==> Driver.Delivered(tcpStack.state.log, socket)
                        == Driver.Delivered(old(tcpStack.state.log), socket) + message
      ensures |message| == 0 ==> r.Ok? && tcpStack.state == old(tcpStack.state)
    {
      ghost var start := tcpStack.state;
      ghost var run := Drive(start.sendScript, socket, message, 0).value;
      ghost var done: seq<Driver.Call<S, E>> := [];
      var cursor := 0;
      assert start.log + done == start.log;
      assert start == start.(sendScript := start.sendScript, log := start.log + done);
      while cursor < |message|
        invariant Finishes(start, run, tcpStack.state, socket, message, cursor, done)
        decreases |tcpStack.state.sendScript|
      {
        SendKeepsFinishes(start, run, tcpStack.state, socket, message, cursor, done);
        var reply := tcpStack.Send(socket, message[cursor..]);
        done := done + [Driver.SendCall(socket, message[cursor..], reply)];
        while reply.WouldBlock?
          invariant cursor < |message|
          invariant reply.Other? ==> run.result == Err(reply.error) && tcpStack.state == After(start, run)
          invariant !reply.Other? ==> Finishes(start, run, tcpStack.state, socket, message, Advance(cursor, reply), done)
          decreases |tcpStack.state.sendScript|
        {
          SendKeepsFinishes(start, run, tcpStack.state, socket, message, cursor, done);
          reply := tcpStack.Send(socket, message[cursor..]);
          done := done + [Driver.SendCall(socket, message[cursor..], reply)];
        }
        match reply
        case Other(e) =>
          r := Err(e);
          return;
        case Ready(n) =>
          assert Advance(cursor, reply) == cursor + n;
          cursor := cursor + n;
      }
      FinishesAtEnd(start, run, tcpStack.state, socket, message, done);
      DriveOkDelivers(start.sendScript, socket, message, 0);
      Driver.DeliveredConcat(start.log, run.calls, socket);
      r := Ok(());
    }
  }
}
