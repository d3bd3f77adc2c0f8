# embedded-nal TCP stack traits: a Dafny model

embedded-nal defines the interface between portable network code and a
concrete TCP/IP stack driver (`TcpClientStack`, `TcpFullStack`). `connect`,
`send`, `receive` and `accept` are non-blocking: they return `Ok`,
`WouldBlock` or an error, and on `WouldBlock` the caller retries. The other
operations (`socket`, `is_connected`, `close`, `bind`, `listen`) return `Ok`
or an error. The one piece of logic in src/stack/tcp.rs is
`StackAndSocket::write_str`. It turns the driver's short-write-allowed `send`
into "write the whole message or fail": it keeps a cursor into the message,
offers the driver the unsent rest, and retries on `WouldBlock`
(`nb::block!`). It advances the cursor by the count each `Ready` reports and
returns the first error unchanged (`?`). Around it are thin forwarding
layers: the blanket `impl TcpClientStack for &mut T`, and `StackAndSocket`'s
own `new`, `connect`, `is_connected`, `receive` and `send`.

The model:

- `results.dfy` (module `Results`): `Option`, `Result`, and `NbResult`,
  which stands for `nb::Result<T, E>` and has the cases `Ready`,
  `WouldBlock` and `Other(e)`.
- `driver.dfy` (module `Driver`): the traits declare their operations
  without bodies, so a scripted driver stands for every implementation. Each
  operation is a pure function of a `DriverState`. It answers with the next
  entry of its own script and logs the call with its arguments. A `send`
  entry `Accepts(k)` takes `min(k, |buffer|)` bytes, `Busy` answers
  `WouldBlock`, and `Fails(e)` answers `Other(e)`. Quantifying over all
  scripts covers every sequence of answers that keeps the doc comments'
  promise: `send` reports at most `buffer.len()` bytes. When a non-blocking
  operation's script is used up, it answers `WouldBlock` from then on. When
  a plain operation's script is used up, it reports the state's `exhausted`
  error. `Delivered(log, socket)` is the byte stream the peer of `socket` has
  received.
- `blocking_write.dfy` (module `BlockingWrite`): `Drive` is the reference
  semantics of the `write_str` loop over a send script. It returns `None`
  when the loop would spin forever. It has lemmas for order, no gaps and no
  repeats, the retry step, stopping at the first error, exact delivery on
  `Ok`, and termination.
- `tcp.dfy` (module `Tcp`): the objects.
  - `TcpStack` holds the driver state and has one method per trait
    operation.
  - `StackRef` is the `&mut T` forwarding implementation.
  - `StackAndSocket` bundles a stack and a socket. Its `WriteStr` is the
    imperative loop: an outer `while` over the cursor and an inner `while`
    for `nb::block!`, proved against `Drive`.
- `scenarios.dfy` (module `Scenarios`): concrete runs. One run blocks once,
  then writes "ping" in short pieces. Another fails part way through.

`StackAndSocket::send` (src/stack/tcp.rs:180-185) forwards one non-blocking
call. The blocking loop is `write_str` (src/stack/tcp.rs:193-203).

## Model

| member | source | states |
|---|---|---|
| `Driver.Send` | src/stack/tcp.rs:33-40 | a `send` that completes reports at most `buffer.len()` bytes written |
| `Driver.Receive` | src/stack/tcp.rs:42-52 | a `receive` that completes hands over at most `buffer.len()` bytes, taken from the front of the data that arrived; what does not fit stays queued |
| `Tcp.TcpStack.Socket` | src/stack/tcp.rs:13-18 | `socket` returns the driver's answer and only that operation's script and the log change |
| `Tcp.TcpStack.Connect` | src/stack/tcp.rs:20-28 | `connect` returns the driver's `Ok`/`WouldBlock`/error answer for this socket and remote |
| `Tcp.TcpStack.IsConnected` | src/stack/tcp.rs:30-31 | `is_connected` returns a value or an error and never WouldBlock |
| `Tcp.TcpStack.Send` | src/stack/tcp.rs:33-40 | `send` returns the driver's answer, and a `Ready(n)` has `n <= buffer.len()` |
| `Tcp.TcpStack.Receive` | src/stack/tcp.rs:42-52 | on `Ready(n)` the received bytes are in `buffer[..n]`, `n <= buffer.len()`, and the rest of the buffer is untouched; on WouldBlock or an error the buffer is untouched |
| `Tcp.TcpStack.Close` | src/stack/tcp.rs:54-55 | `close` returns the driver's answer for this socket |
| `Tcp.TcpStack.Bind` | src/stack/tcp.rs:70-74 | `bind` returns the driver's answer for this socket and port |
| `Tcp.TcpStack.Listen` | src/stack/tcp.rs:76-80 | `listen` returns the driver's answer for this socket |
| `Tcp.TcpStack.Accept` | src/stack/tcp.rs:82-89 | `accept` returns a new socket and peer address, WouldBlock, or an error, as the driver answers |
| `Tcp.TcpStack.WithSocket` | src/stack/tcp.rs:57-63 | `with_socket` gives a fresh bundle of exactly this stack and this socket and calls nothing on the stack |
| `Tcp.StackRef.Socket` | src/stack/tcp.rs:97-99 | the borrowed stack's `socket` has the same result and the same effect on the driver as the stack's own |
| `Tcp.StackRef.Connect` | src/stack/tcp.rs:101-107 | forwards `connect` with the same socket and remote: same result, same effect |
| `Tcp.StackRef.IsConnected` | src/stack/tcp.rs:109-111 | forwards `is_connected`: same result, same effect |
| `Tcp.StackRef.Send` | src/stack/tcp.rs:113-119 | forwards `send` with the same socket and buffer: same result, same effect |
| `Tcp.StackRef.Receive` | src/stack/tcp.rs:121-127 | forwards `receive`: same result, same bytes placed in the buffer, same effect |
| `Tcp.StackRef.Close` | src/stack/tcp.rs:129-131 | forwards `close`: same result, same effect |
| `Tcp.StackAndSocket.constructor` | src/stack/tcp.rs:152-155 | `new` holds exactly the given stack and socket |
| `Tcp.StackAndSocket.Connect` | src/stack/tcp.rs:157-163 | `connect` on the bundle is the stack's `connect` on the bundled socket |
| `Tcp.StackAndSocket.IsConnected` | src/stack/tcp.rs:165-168 | `is_connected` on the bundle is the stack's `is_connected` on the bundled socket |
| `Tcp.StackAndSocket.Receive` | src/stack/tcp.rs:170-178 | `receive` on the bundle is the stack's `receive` on the bundled socket, buffer included |
| `Tcp.StackAndSocket.Send` | src/stack/tcp.rs:180-185 | `send` on the bundle is one non-blocking `send` of the stack on the bundled socket |
| `Tcp.StackAndSocket.WriteStr` | src/stack/tcp.rs:193-203 | the result and the new driver state are those of `Drive`; on Ok the peer of the socket has received its earlier bytes followed by exactly the message; an empty message changes nothing and returns Ok |
| `BlockingWrite.Drive` | src/stack/tcp.rs:193-203 | a write that ends uses one script entry per `send` call and leaves the rest of the script unused |
| `BlockingWrite.DriveSendsRemainder` | src/stack/tcp.rs:195-198 | every call is a `send` on the bundled socket of exactly `message[cursor..]`, where cursor is the start plus the bytes reported so far and is below `message.len()` (predicate `SendsRemainder`) |
| `BlockingWrite.DriveDeliversPrefix` | src/stack/tcp.rs:195-200 | before each call, and at the end, the bytes reported written are exactly the message's bytes up to the cursor: no gaps, no repeats, never past the end (predicate `DeliversPrefixes`) |
| `BlockingWrite.DriveNextCall` | src/stack/tcp.rs:196-200 | after WouldBlock the same remainder is offered again; after `Ready(n)` with bytes left, the next call gets the remainder less exactly n bytes; no call before the last answered with an error |
| `BlockingWrite.DriveStopsAtError` | src/stack/tcp.rs:197-199 | the write fails if and only if its last call answered with an error; that error is the one returned and the one the driver gave for that call; no call follows it (predicate `StopsAtError`) |
| `BlockingWrite.DriveOkDelivers` | src/stack/tcp.rs:193-202 | when the write returns Ok, the counts sum to the message length and the bytes delivered are exactly the message |
| `BlockingWrite.DriveDone` | src/stack/tcp.rs:196-202 | with nothing left to send, in particular for an empty message, no `send` is made and the result is Ok |
| `BlockingWrite.DriveSettles` | src/stack/tcp.rs:196-201 | if the driver gives at least as many progress-making answers (a positive count or an error) as there are bytes, the loop ends |
| `BlockingWrite.DriveEndsIffSettles` | src/stack/tcp.rs:196-201 | the loop ends exactly when the reported counts use up the message or an error comes first, whatever the bytes and the socket |
| `BlockingWrite.DriveStalls` | src/stack/tcp.rs:196-201 | if bytes remain and the driver only answers WouldBlock or `Ready(0)`, the loop never ends |
| `BlockingWrite.SendKeepsFinishes` | src/stack/tcp.rs:196-200 | one `send` on the remainder either ends the write with the driver's error or keeps the loop invariant at the advanced cursor, and always uses up one script entry |
| `BlockingWrite.DriveTakes` | src/stack/tcp.rs:196-200 | a `send` that answers WouldBlock or `Ready(n)` on the unsent rest is followed by the loop from the advanced cursor, and the write's calls are that call followed by the rest of the loop's calls |
| `Scenarios.PingAfterFirstByte` | src/stack/tcp.rs:193-203 | once "p" is written, counts 0, 2 and 1 finish "ping" in three calls: the rest "ing" twice, then "g" |
| `Scenarios.PingIsWrittenInPieces` | src/stack/tcp.rs:193-203 | "ping" written through WouldBlock, then counts 1, 0, 2 and 1: the run is Ok, its five calls are exactly `PingCalls` (each offered the unsent rest), and the last script entry is unused |
| `Scenarios.PingIsDelivered` | src/stack/tcp.rs:193-203 | the peer of the socket receives exactly "ping" from those five calls |
| `Scenarios.FailureStopsTheWrite` | src/stack/tcp.rs:197-199 | an error after one byte ends the write with that error after two calls, and later script entries are unused |
| `Scenarios.PingThroughStack` | src/stack/tcp.rs:58-63 | the objects together: `with_socket` then `write_str("ping")` returns Ok, and the driver's log shows the peer received exactly "ping" |

## Left out

- `Tcp.StackAndSocket.WriteStr` requires that the loop ends (`Drive(...).Some?`). The source has no such requirement: when the driver never makes progress, `write_str` spins forever. `WriteStr` is proved to terminate, so it needs the run to end. `BlockingWrite.DriveStalls` describes that case and `BlockingWrite.DriveEndsIffSettles` gives the exact condition.
- `nb::block!`'s unbounded busy-wait: each retry uses up one script entry. A used-up send script answers WouldBlock forever.
- A driver that breaks the `send` contract by reporting more bytes than it was given is not modelled. The scripted driver cannot give such an answer. In the source, the loop would then stop with Ok.
- The bodies of the driver operations (`socket`, `connect`, `is_connected`, `send`, `receive`, `close`, `bind`, `listen`, `accept`) have no logic in this repository. They are modelled only by the scripted driver and their doc-comment promises. Driver-side properties are not modelled: each pending connection accepted once, `is_connected` only after `connect`, use after `close`.
- Socket handles are passed as values. The `&mut` access the driver has to a handle, which would let it change the handle, is not modelled.
- `with_socket` as the `&mut T` implementation inherits it is not modelled: `StackAndSocket` is built over `TcpStack` only, not over a `StackRef`.
- `ufmt::uWrite` plumbing and `str::as_bytes`: the message is a sequence of bytes, and UTF-8 is not modelled.
- `no_std_net::SocketAddr` is a plain record that the model never inspects.
- `usize` arithmetic: `cursor += n` cannot overflow, because `n` never exceeds the bytes left, so unbounded integers are used.
- Rust lifetimes and borrowing: an object reference stands for each `&mut`.
- src/stack/share.rs (the shared-stack wrapper) and src/stack/udp.rs (the UDP traits) are not part of this model. src/stack/mod.rs only declares modules.
