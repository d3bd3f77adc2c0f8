/**
  Concrete runs of the blocking write against a driver that first blocks,
  then takes the message a few bytes at a time, or fails part way.
 */
module Scenarios {
  import opened Results
  import opened Driver
  import opened BlockingWrite
  import Tcp

  /** The bytes of "ping". */
  const PING: seq<byte> := [0x70, 0x69, 0x6e, 0x67]

  function PingScript(): seq<SendOutcome<int>> {
    [Busy] + ([Accepts(1)] + PingLater())
  }

  /** The ping script after its first two entries. */
  function PingLater(): seq<SendOutcome<int>> {
    [Accepts(0)] + ([Accepts(2)] + ([Accepts(10)] + [Busy]))
  }

  function EmptyDriver<S>(sends: seq<SendOutcome<int>>): DriverState<S, int> {
    DriverState([], [], [], sends, [], [], [], [], [], -1, [])
  }

  /** The send calls the ping write makes, with the replies the driver gives. */
  function PingCalls(socket: nat): seq<Call<nat, int>> {
    [SendCall(socket, PING, WouldBlock)] + ([SendCall(socket, PING, Ready(1))] + PingLaterCalls(socket))
  }

  /** The calls after the first byte is written. */
  function PingLaterCalls(socket: nat): seq<Call<nat, int>> {
    [SendCall(socket, PING[1..], Ready(0))] + ([SendCall(socket, PING[1..], Ready(2))] + [SendCall(socket, PING[3..], Ready(1))])
  }

  /** Once "p" is written: a zero count, then 2 bytes, then the last byte. */
  lemma PingAfterFirstByte(socket: nat)
    ensures Drive(PingLater(), socket, PING, 1) == Some(WriteRun(Ok(()), PingLaterCalls(socket), [Busy]))
  {
    var busy: seq<SendOutcome<int>> := [Busy];
    var a0: SendOutcome<int>, a2: SendOutcome<int>, a10: SendOutcome<int> := Accepts(0), Accepts(2), Accepts(10);
    var done: WriteRun<nat, int> := WriteRun(Ok(()), [], busy);
    assert Drive(busy, socket, PING, 4) == Some(done);
    assert Advance(3, SendReply(a10, 1)) == 4;
    DriveTakes(a10, busy, socket, PING, 3, done);
    var c4 := [SendCall(socket, PING[3..], Ready(1))];
    assert SendReply(a10, |PING| - 3) == Ready(1) && c4 == c4 + done.calls;
    assert Advance(1, SendReply(a2, 3)) == 3;
    DriveTakes(a2, [a10] + busy, socket, PING, 1, done.(calls := c4));
    var c3 := [SendCall(socket, PING[1..], Ready(2))] + c4;
    assert SendReply(a2, |PING| - 1) == Ready(2);
    assert Advance(1, SendReply(a0, 3)) == 1;
    DriveTakes(a0, [a2] + ([a10] + busy), socket, PING, 1, done.(calls := c3));
    assert SendReply(a0, |PING| - 1) == Ready(0);
  }

  /**
    Blocked once, then short writes of 1, 0 and 2 bytes, then the last byte:
    five calls, each offered the unsent rest, and the last script entry is
    left unused.
   */
  lemma PingIsWrittenInPieces(socket: nat)
    ensures Drive(PingScript(), socket, PING, 0) == Some(WriteRun(Ok(()), PingCalls(socket), [Busy]))
  {
    var a1: SendOutcome<int>, busy: SendOutcome<int> := Accepts(1), Busy;
    var done: WriteRun<nat, int> := WriteRun(Ok(()), PingLaterCalls(socket), [Busy]);
    PingAfterFirstByte(socket);
    assert PING[0..] == PING;
    assert Advance(0, SendReply(a1, 4)) == 1;
    DriveTakes(a1, PingLater(), socket, PING, 0, done);
    assert SendReply(a1, |PING|) == Ready(1);
    assert Advance(0, SendReply(busy, 4)) == 0;
    DriveTakes(busy, [a1] + PingLater(), socket, PING, 0,
               done.(calls := [SendCall(socket, PING, Ready(1))] + PingLaterCalls(socket)));
    assert SendReply(busy, |PING|) == WouldBlock;
  }

  /** The peer of the socket receives exactly "ping" from those calls. */
  lemma PingIsDelivered(socket: nat)
    ensures Delivered(PingCalls(socket), socket) == PING
  {
    PingIsWrittenInPieces(socket);
    DriveOkDelivers(PingScript(), socket, PING, 0);
  }

  /** An error after one byte went out ends the write with that error; nothing more is sent. */
  lemma FailureStopsTheWrite(socket: nat)
    ensures var r := Drive([Accepts(1), Fails(7), Accepts(10)], socket, PING, 0);
            && r.Some? && r.value.result == Err(7)
            && |r.value.calls| == 2
            && r.value.rest == [Accepts(10)]
  {
    DriveEndsIffSettles([Accepts(1), Fails(7), Accepts(10)], socket, PING, 0);
    DriveStopsAtError([Accepts(1), Fails(7), Accepts(10)], socket, PING, 0);
  }

  /** The same write through the objects: Ok, and the peer of the socket receives exactly "ping". */
  method PingThroughStack() returns (written: Result<(), int>, log: seq<Call<nat, int>>)
    ensures written == Ok(())
    ensures Delivered(log, 3) == PING
  {
    var stack := new Tcp.TcpStack<nat, int>(EmptyDriver(PingScript()));
    var bundle := stack.WithSocket(3);
    PingIsWrittenInPieces(3);
    assert Delivered(stack.state.log, 3) == [];
    written := bundle.WriteStr(PING);
    log := stack.state.log;
  }
}
