/**
  A driver standing for any implementation of `TcpClientStack` and
  `TcpFullStack` (src/stack/tcp.rs:7-90). The traits give the operations no
  bodies, only doc comments, so the driver here is scripted: each operation
  answers with the next entry of its own script. Running a proof over every
  script is running it over every sequence of answers a driver may give, as
  long as those answers keep the doc comments' promises (for `send`, at most
  the bytes it was offered). Every call is appended to a log, so a proof can
  see which arguments reached the driver and in which order.

  The socket handle type S and the error type E are left generic, as the
  associated types `TcpSocket` and `Error` are.
 */
module Driver {
  import opened Results

  newtype byte = x: int | 0 <= x < 0x100
  newtype u16 = x: int | 0 <= x < 0x1_0000

  /** A remote endpoint; the model never looks inside it. */
  datatype SocketAddr = SocketAddr(ip: seq<byte>, port: u16)

  /** How the driver answers one `send` call. */
  datatype SendOutcome<+E> =
    | Accepts(limit: nat)   // takes up to `limit` bytes of the buffer now
    | Busy                  // cannot take anything now: WouldBlock
    | Fails(error: E)       // reports a transport error

  /** One call the driver has seen, with its arguments. */
  datatype Call<+S, +E> =
    | SocketCall
    | ConnectCall(socket: S, remote: SocketAddr)
    | IsConnectedCall(socket: S)
    | SendCall(socket: S, buffer: seq<byte>, reply: NbResult<nat, E>)
    | ReceiveCall(socket: S, capacity: nat)
    | CloseCall(socket: S)
    | BindCall(socket: S, localPort: u16)
    | ListenCall(socket: S)
    | AcceptCall(socket: S)

  /**
    The whole state of the driver: the answers still to come for each
    operation, the error a plain (non-`nb`) operation reports once its script
    is used up, and the log of calls so far. A non-blocking operation whose
    script is used up answers WouldBlock from then on.
   */
  datatype DriverState<S, E> = DriverState(
    socketScript: seq<Result<S, E>>,
    connectScript: seq<NbResult<(), E>>,
    isConnectedScript: seq<Result<bool, E>>,
    sendScript: seq<SendOutcome<E>>,
    receiveScript: seq<NbResult<seq<byte>, E>>,
    closeScript: seq<Result<(), E>>,
    bindScript: seq<Result<(), E>>,
    listenScript: seq<Result<(), E>>,
    acceptScript: seq<NbResult<(S, SocketAddr), E>>,
    exhausted: E,
    log: seq<Call<S, E>>)

  /** What one operation returns, and the driver's state after it. */
  datatype Step<T, S, E> = Step(reply: T, after: DriverState<S, E>)

  /** The smaller of two counts. */
  function Min(a: nat, b: nat): (m: nat)
    ensures m <= a && m <= b && (m == a || m == b)
  {
    if a <= b then a else b
  }

  /** What is left of a script once its first entry is used. */
  function Tail<T>(s: seq<T>): seq<T> {
    if s == [] then [] else s[1..]
  }

  function NextResult<T, E>(script: seq<Result<T, E>>, exhausted: E): Result<T, E> {
    if script == [] then Err(exhausted) else script[0]
  }

  function NextNb<T, E>(script: seq<NbResult<T, E>>): NbResult<T, E> {
    if script == [] then WouldBlock else script[0]
  }

  // ---- TcpClientStack (src/stack/tcp.rs:7-64) ----

  /** `socket`: open a socket for use as a TCP client. */
  function Socket<S, E>(st: DriverState<S, E>): Step<Result<S, E>, S, E> {
    Step(NextResult(st.socketScript, st.exhausted),
         st.(socketScript := Tail(st.socketScript), log := st.log + [SocketCall]))
  }

  /** `connect`: Ok once connected, WouldBlock while the connection is under way. */
  function Connect<S, E>(st: DriverState<S, E>, socket: S, remote: SocketAddr): Step<NbResult<(), E>, S, E> {
    Step(NextNb(st.connectScript),
         st.(connectScript := Tail(st.connectScript), log := st.log + [ConnectCall(socket, remote)]))
  }

  /** `is_connected`: never WouldBlock, only a value or an error. */
  function IsConnected<S, E>(st: DriverState<S, E>, socket: S): Step<Result<bool, E>, S, E> {
    Step(NextResult(st.isConnectedScript, st.exhausted),
         st.(isConnectedScript := Tail(st.isConnectedScript), log := st.log + [IsConnectedCall(socket)]))
  }

  /** The count a send outcome reports for a buffer of `len` bytes. */
  function SendReply<E>(outcome: SendOutcome<E>, len: nat): NbResult<nat, E> {
    match outcome
    case Accepts(limit) => Ready(Min(limit, len))
    case Busy => WouldBlock
    case Fails(e) => Other(e)
  }

  /** The reply of the next send call on a buffer of `len` bytes; a used-up script only blocks. */
  function NextSend<E>(script: seq<SendOutcome<E>>, len: nat): NbResult<nat, E> {
    if script == [] then WouldBlock else SendReply(script[0], len)
  }

  /**
    `send`: write a prefix of `buffer` and report how many bytes that was,
    which may be fewer than `buffer.len()` but never more; WouldBlock if
    nothing could be written now; or an error.
   */
  function Send<S, E>(st: DriverState<S, E>, socket: S, buffer: seq<byte>): (r: Step<NbResult<nat, E>, S, E>)
    ensures r.reply.Ready? ==> r.reply.value <= |buffer|
  {
    var reply := NextSend(st.sendScript, |buffer|);
    Step(reply, st.(sendScript := Tail(st.sendScript), log := st.log + [SendCall(socket, buffer, reply)]))
  }

  /**
    `receive`: hand over at most `capacity` bytes of the data that has
    arrived; what does not fit stays queued for the next call. WouldBlock if
    no data has arrived.
   */
  function Receive<S, E>(st: DriverState<S, E>, socket: S, capacity: nat): (r: Step<NbResult<seq<byte>, E>, S, E>)
    ensures r.reply.Ready? ==>
              && |r.reply.value| <= capacity
              && st.receiveScript != [] && st.receiveScript[0].Ready?
              && r.reply.value <= st.receiveScript[0].value
    ensures r.reply.Ready? && |r.reply.value| < |st.receiveScript[0].value| ==>
              r.after.receiveScript == [Ready(st.receiveScript[0].value[|r.reply.value|..])] + st.receiveScript[1..]
    ensures r.after.log == st.log + [ReceiveCall(socket, capacity)]
  {
    var log := st.log + [ReceiveCall(socket, capacity)];
    if st.receiveScript == [] then
      Step(WouldBlock, st.(log := log))
    else
      match st.receiveScript[0]
      case Ready(data) =>
        var n := Min(|data|, capacity);
        var rest := if n < |data| then [Ready(data[n..])] + st.receiveScript[1..] else st.receiveScript[1..];
        Step(Ready(data[..n]), st.(receiveScript := rest, log := log))
      case WouldBlock => Step(WouldBlock, st.(receiveScript := st.receiveScript[1..], log := log))
      case Other(e) => Step(Other(e), st.(receiveScript := st.receiveScript[1..], log := log))
  }

  /** `close`: give the socket back to the driver. */
  function Close<S, E>(st: DriverState<S, E>, socket: S): Step<Result<(), E>, S, E> {
    Step(NextResult(st.closeScript, st.exhausted),
         st.(closeScript := Tail(st.closeScript), log := st.log + [CloseCall(socket)]))
  }

  // ---- TcpFullStack (src/stack/tcp.rs:69-90) ----

  /** `bind`: attach the socket to a local port. */
  function Bind<S, E>(st: DriverState<S, E>, socket: S, localPort: u16): Step<Result<(), E>, S, E> {
    Step(NextResult(st.bindScript, st.exhausted),
         st.(bindScript := Tail(st.bindScript), log := st.log + [BindCall(socket, localPort)]))
  }

  /** `listen`: start listening on a bound socket. */
  function Listen<S, E>(st: DriverState<S, E>, socket: S): Step<Result<(), E>, S, E> {
    Step(NextResult(st.listenScript, st.exhausted),
         st.(listenScript := Tail(st.listenScript), log := st.log + [ListenCall(socket)]))
  }

  /** `accept`: a new connection and its peer, or WouldBlock if none is pending. */
  function Accept<S, E>(st: DriverState<S, E>, socket: S): Step<NbResult<(S, SocketAddr), E>, S, E> {
    Step(NextNb(st.acceptScript),
         st.(acceptScript := Tail(st.acceptScript), log := st.log + [AcceptCall(socket)]))
  }

  // ---- What the peer sees ----

  /** The bytes one logged call put on the wire: the prefix its reply counted. */
  function Chunk<S, E>(c: Call<S, E>): seq<byte> {
    if c.SendCall? && c.reply.Ready? then c.buffer[..Min(c.reply.value, |c.buffer|)] else []
  }

  /** The number of bytes the logged send calls reported as written. */
  function Accepted<S, E>(calls: seq<Call<S, E>>): nat {
    if calls == [] then 0 else |Chunk(calls[0])| + Accepted(calls[1..])
  }

  /** The bytes one logged call sent to the peer of `socket`. */
  ghost function SentTo<S, E>(c: Call<S, E>, socket: S): seq<byte> {
    if c.SendCall? && c.socket == socket then Chunk(c) else []
  }

  /** The byte stream the peer of `socket` has been sent, in order. */
  ghost function Delivered<S, E>(log: seq<Call<S, E>>, socket: S): seq<byte> {
    if log == [] then [] else SentTo(log[0], socket) + Delivered(log[1..], socket)
  }

  lemma {:induction false} AcceptedConcat<S, E>(a: seq<Call<S, E>>, b: seq<Call<S, E>>)
    ensures Accepted(a + b) == Accepted(a) + Accepted(b)
  {
    if a != [] {
      assert (a + b)[1..] == a[1..] + b;
      AcceptedConcat(a[1..], b);
    } else {
      assert a + b == b;
    }
  }

  lemma {:induction false} DeliveredConcat<S, E>(a: seq<Call<S, E>>, b: seq<Call<S, E>>, socket: S)
    ensures Delivered(a + b, socket) == Delivered(a, socket) + Delivered(b, socket)
  {
    if a != [] {
      assert (a + b)[0] == a[0] && (a + b)[1..] == a[1..] + b;
      DeliveredConcat(a[1..], b, socket);
    } else {
      assert a + b == b;
    }
  }
}
