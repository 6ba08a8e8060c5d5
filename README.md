# pync netcat core in Dafny

This project models the core of pync, a netcat clone written in Python (`src/pync/nc.py`). It covers:

- **Port arguments.** `PORT` parses one command-line token into a range of ports. `PortAction` merges the ranges into one port or a sorted chain of ports.
- **The session pump.** `NetcatConnection.readwrite` moves bytes between a connected socket and the local stdin/stdout. It handles stdin EOF, the optional write-half shutdown (`-N`) and the quit timer (`-q`).
- **The TCP client.** It tries each port in turn. A refused or failed connection moves it on to the next port. In zero-I/O mode (`-z`) it closes every connection instead of handing it out.
- **The servers.** The TCP and UDP servers run accept loops. Without `-k` they serve one client and stop listening. The UDP server serves one peer whatever `-k` says, because its connection shares the server's socket.
- **Mode dispatch.** `Netcat.__init__` picks one of the four client/server variants from `-l` and `-u`.

I/O is modelled as recorded outcomes rather than calls:

- Each socket, stream and clock call becomes a value in a trace (a `Tick` for the pump, a `Poll` or `Datagram` for the servers, an `Attempt` for the client).
- Each loop is a method over such a trace. It is proved equal to a specification function, and the properties are proved about that function.

Modules:

- `Wrappers`: the `Option` type.
- `PortSpec`: `PORT`, Python's `int()` on the accepted forms, `str.split`, and `PortAction`'s stable sort and chaining.
- `Pump`: `readwrite` as a tick loop (`ReadWrite`) and its specification `Run`.
- `Client`: `NetcatClient.__iter__`/`__next__` and `NetcatTCPClient.create_connection`, as a class holding the remaining ports.
- `Server`: `NetcatTCPServer` and `NetcatUDPServer`, as classes over a `Socket` class that can be closed. `__iter__` is the subject of a finding below.
- `Netcat`: the dispatch in `Netcat.__init__`, and which options reach the connections.

Two behaviours of the code worth noting, which the model follows:

- **Client errors.** `NetcatClient.__iter__` catches every `socket.error`, not only a refused connection (src/pync/nc.py:500-502, whose comment says so). Any failed attempt therefore moves on to the next port and is never fatal.
- **Merged ports.** `PortAction` sorts the ranges by start only and chains them (src/pync/nc.py:80-83). Overlapping or repeated ports are kept, so the merged list is sorted by range start but not strictly ascending.

## Model

| member | source | states |
|---|---|---|
| PortSpec.SplitThenJoin | src/pync/nc.py:51 | Splitting on `-` and joining back gives the token back, and no part contains the separator. |
| PortSpec.SplitAtSeparator | src/pync/nc.py:51 | A token `a-b` with no other dash splits into exactly `[a, b]`; this is the two-part case `PORT` unpacks. |
| PortSpec.ParseInt | src/pync/nc.py:51-54 | `int()` succeeds iff the text is an optional sign followed by at least one digit. A `-` sign never gives a positive value, and no sign never gives a negative one. |
| PortSpec.IntTextRoundTrip | src/pync/nc.py:51-54 | Parsing an integer's decimal text gives that integer back, so `int()` and rendering are inverse. |
| PortSpec.ParsePort | src/pync/nc.py:35-66 | Every range `PORT` returns is nonempty, and both of its ends are ports in 1..65535. |
| PortSpec.SinglePortParses | src/pync/nc.py:52-57 | A valid single port p gives `range(p, p+1)`, whose only element is p. |
| PortSpec.OutOfRangeRejected | src/pync/nc.py:44-46 | Every integer outside 1..65535 is rejected, including zero and negative integers. |
| PortSpec.RangeParses | src/pync/nc.py:51-66 | `a-b` gives the inclusive range from min(a,b) to max(a,b) when both are ports; otherwise it is rejected. |
| PortSpec.RangeSymmetric | src/pync/nc.py:59-60 | Writing the bounds of a range token in either order gives the same result. |
| PortSpec.NonNumericRejected | src/pync/nc.py:51-56 | With `int()` restricted to a sign and ASCII digits, a token containing any other character is rejected. |
| PortSpec.SortByStartFacts | src/pync/nc.py:81 | The sort used by `PortAction` orders the ranges by start and is a permutation. It keeps ranges with equal starts in their input order (stable, like Python's `sorted`) and keeps the multiset of ports. |
| PortSpec.Merge | src/pync/nc.py:71-85 | A single-port result means the input was exactly that one port. A chained result holds exactly the input's ports, counted with multiplicity. |
| PortSpec.MergeCollapsesIffOnePort | src/pync/nc.py:75-78 | For nonempty ranges, `PortAction` yields a plain port iff the tokens name exactly one port in total. |
| PortSpec.MergeKeepsPorts | src/pync/nc.py:81-84 | A port is in the merged argument iff some token's range contains it. |
| PortSpec.ParsePortArgs | src/pync/nc.py:35-85 | The port argument is accepted iff there is at least one token and every token parses. Every port it then yields is in 1..65535. |
| Pump.ReadWrite | src/pync/nc.py:334-411 | The loop's calls, its exit reason and the number of passes it ran equal those of the specification `Run` over the same input trace. |
| Pump.RunConsumed | src/pync/nc.py:356-411 | A loop that has not ended has used every pass offered; one that ended did so on a pass it ran. |
| Pump.StoppedStays | src/pync/nc.py:356-411 | Once any `break` is taken, later input changes nothing. |
| Pump.RunKeepsDiscipline | src/pync/nc.py:379-398 | The EOF time is recorded iff EOF was read. After EOF, stdin is never read and nothing is sent again. The write half is shut down once iff `N` is set and EOF was read, and only right after the EOF read. |
| Pump.OutputInArrivalOrder | src/pync/nc.py:358-365 | What is written to stdout is exactly the data received, in arrival order, chunk for chunk. |
| Pump.TimerDisabled | src/pync/nc.py:399-407 | With a negative `q`, the quit timer never ends the loop. |
| Pump.TimerNotYetDue | src/pync/nc.py:399-405 | While the loop runs with `q >= 0`, every pass after EOF was less than `q` seconds past the EOF time. |
| Pump.QuitTimeoutJustified | src/pync/nc.py:399-405 | A quit-timer exit happens only with `q >= 0`, after EOF on an earlier pass, on the first pass at least `q` seconds past the EOF time. |
| Pump.QuitTimerStep | src/pync/nc.py:399-405 | After EOF, a pass that gets past its receive ends the loop iff the timer is enabled and due; otherwise the loop goes on. |
| Pump.IdleKeepsRunning | src/pync/nc.py:356-407 | After EOF, the loop survives any number of passes on which the receive goes on and the timer is disabled or not yet due. The EOF time stays unchanged. |
| Pump.ReceiveOutcome | src/pync/nc.py:357-411 | An empty receive ends the loop as peer closed. A stop request ends it. A failing stdout write ends it, and none of these writes anything. Nothing ready goes on to the stdin read. |
| Pump.StdinOutcome | src/pync/nc.py:379-411 | Before EOF, once the receive lets the loop go on: a StopNetcat from the stdin read (as a finished command's output raises) ends the loop as a stop request without leaving `readwrite`. An OSError from the read or a failing send escapes. Nothing ready keeps the loop running without EOF. Data is sent. Each case gives the exact calls made. |
| Pump.ShutdownErrorIgnored | src/pync/nc.py:391-398 | A failing shutdown makes no difference to how the loop continues. The EOF pass keeps the loop running and records the EOF time. |
| Client.DialAttemptsEveryPort | src/pync/nc.py:492-517 | The client attempts every port of its list once, in order, whatever the outcomes. |
| Client.DialYieldsSuccesses | src/pync/nc.py:492-508 | Without `z`, the connections handed out are exactly the successful ones, in order, each closed once. With `z`, none are handed out and each successful one is closed twice. |
| Client.YieldedThenClosed | src/pync/nc.py:504-508 | Every connection handed out is closed right after its use. |
| Client.NetcatClient.constructor | src/pync/nc.py:476-490 | The client starts with the port list: a single port becomes a one-element list, and a chain is used as it is. |
| Client.NetcatClient.Next | src/pync/nc.py:514-552 | With no port left, the result is StopIteration. Otherwise it takes the next port and attempts it, giving a connection, a refusal or a socket error. In zero-I/O mode the connection is closed before it is returned. |
| Client.NetcatClient.Iterate | src/pync/nc.py:492-508 | Iterating uses up all ports, and its calls are those of the specification `Dial`. |
| Server.TcpServer.constructor | src/pync/nc.py:606-628 | The server starts with a fresh, open listening socket and the given `k`. |
| Server.TcpServer.NextConnection | src/pync/nc.py:650-669 | A closed listener gives StopIteration without polling. Otherwise it polls until the first waiting client, accepts it on a fresh socket and closes the listener unless `k` is set. With no client it keeps polling. |
| Server.TcpServer.Run | src/pync/nc.py:638-669 | The events and the ending of `run` equal those of the specification `TcpRun`. The listener ends open exactly when it started open and either `k` is set or no client came. |
| Server.TcpListenerFinalState | src/pync/nc.py:650-669 | The listener state `run` leaves is open iff it started open and either `k` is set or no poll found a client. |
| Server.TcpKeepOpenServesAll | src/pync/nc.py:638-666 | With `k`, every waiting client is accepted and served to the end before the next, and `run` never stops by itself. |
| Server.TcpSingleShot | src/pync/nc.py:638-669 | Without `k`, `run` serves the first waiting client and then stops. With no client it goes on polling. |
| Server.UdpServer.constructor | src/pync/nc.py:674-680 | The server starts with a fresh, open socket and the given `k`. |
| Server.UdpServer.NextConnection | src/pync/nc.py:702-718 | A dropped or closed socket gives StopIteration. Otherwise it polls until the first datagram and echoes at most 1024 bytes of it. The connection uses the server's own socket, which the server drops unless `k` is set. |
| Server.UdpServer.Run | src/pync/nc.py:690-718 | The events and the ending of `run` equal those of the specification `UdpRun`, including a server whose socket is already dropped. Without `k`, after a datagram, the server's socket ends as `None`; otherwise it is the same object. That socket ends closed iff it was closed at the start or a datagram arrived. |
| Server.UdpServesOnePeer | src/pync/nc.py:690-718 | Whatever `k` is, `run` serves exactly the first peer that sends a datagram and then stops, because closing the session closes the shared socket. |
| Server.TcpIterAsWritten | src/pync/nc.py:630-636 | As written, iterating over the server never ends cleanly. |
| Server.OneShotIterationRaises | src/pync/nc.py:630-636 | A one-shot server in a `for` loop yields its client and then raises instead of ending. |
| Server.AsWrittenRaisesInsteadOfEnding | src/pync/nc.py:630-636 | The as-written iteration yields the same connections as the corrected one. It raises exactly where the corrected one would end. |
| Server.TcpIter | src/pync/nc.py:571-581 | The intended iteration, which ends on StopIteration, never raises. |
| Server.TcpIterAgreesWithRun | src/pync/nc.py:638-648 | The intended iteration yields exactly the clients `run` serves, in order. It ends exactly when `run` returns. |
| Netcat.Dispatch | src/pync/nc.py:133-180 | `-l` selects a server and `-u` selects UDP. Servers get `k` and clients get `z`. Every variant gets the port argument, the destination and the (intended) session settings. |
| Netcat.FlagsOnlyWhereTheyApply | src/pync/nc.py:148-180 | `z` changes nothing for a server, and `k` nothing for a client. |
| Netcat.NeverShutsDownAsWritten | src/pync/nc.py:148-180 | As written, no session started through `Netcat` ever shuts down its write half, whatever its input. |
| Netcat.ShutdownLostOnEof | src/pync/nc.py:135-180 | With `-N` and stdin at EOF on the first pass, the as-written settings shut down zero times and the intended settings once. |
| Netcat.ShutdownFollowsFlag | src/pync/nc.py:391-398 | With the intended settings, a session shuts down its write half once iff `-N` is given and stdin reached EOF; otherwise never. |

## Left out

- Sockets, `select`, `getaddrinfo`, `bind`/`listen` and `create_connection` are not modelled as calls. Their outcomes are inputs: a `Tick`, `Poll`, `Datagram` or `Attempt`.
- Time is whole seconds (`Clock`), not a float. `-q` is compared against integer differences.
- Streams: the `buffer` vs text write fallback, `flush`, `NonBlockingConsoleInput` for a console stdin, and `-e` command execution through `Process`/`execute` are left out. A stream's only effect is the outcome recorded in the trace.
- Logging and verbose (`-v`) messages are left out, since they have no effect on behaviour.
- Command-line handling is partly left out. `argparse` usage errors, `shlex.split`, `from_args` and the `pync()` entry point are left out; only the port argument's parsing (`ParsePortArgs`) is modelled.
- PortSpec.NonNumericRejected: holds only for the modelled `int()`. Python's `int()` also accepts surrounding whitespace, `_` digit separators and non-ASCII digits, so `PORT(" 80")` gives `range(80, 81)` in the source, while the model rejects it.
- `PortSpec.ParseInt` does not accept Python `int()`'s surrounding whitespace, `_` digit separators or non-ASCII digits; only a sign and ASCII digits are modelled.
- `NetcatServer` and `NetcatConnection.listen`/`connect` are left out, because nothing calls them. `NetcatUDPClient.create_connection` (src/pync/nc.py:559-566) is abstracted into the same `Client.Attempt` outcomes as the TCP dial: its `socket()`/`connect` either succeeds (`Connected`, closed at once with `-z`) or raises a socket error (`SocketError`); it never raises `ConnectionRefused`, and its log lines are left out.
- Server construction is left out beyond its socket. The constructors take no port or destination, because `getaddrinfo`, `bind` and `listen` are foreign calls. What they do with a chained port argument is not modelled.
- Exceptions raised by a session's `run` inside a server's or client's loop are left out. Each session is one step that completes.
- `Client.NetcatClient.Iterate` requires exactly one recorded attempt outcome per remaining port. This fixes the input trace's length; it is not a demand on the caller.
- The UDP echo is the raw bytes. The `data.decode()` at src/pync/nc.py:712 is left out. In the source, a first datagram that is not valid UTF-8 makes `decode()` raise UnicodeDecodeError. That error escapes `next_connection` and `run` before the `connect`. The model instead echoes such a datagram and serves the session.
- `NetcatUDPServer.__iter__` (src/pync/nc.py:682-688) has the same shape and the same finding as the TCP one. Only the TCP version is modelled.

## Findings

| source | as written | input that shows it | evidently intended | confidence | as-written member | corrected member |
|---|---|---|---|---|---|---|
| src/pync/nc.py:148-180 | `Netcat.__init__` takes `N` as a named parameter and passes it to none of the four variants. A connection therefore always falls back to `N=False` (src/pync/nc.py:269), and `-N` never shuts the write half down. | Options with `N` set; the peer is quiet and stdin reports EOF on the first pass. | `N` is forwarded like `q`, so the write half is shut down on stdin EOF. | high; not executed | Netcat.NeverShutsDownAsWritten, Netcat.ShutdownLostOnEof | Netcat.ShutdownFollowsFlag |
| src/pync/nc.py:630-636 | `NetcatTCPServer.__iter__` calls `next_connection` with no handler. Its `StopIteration` escapes the generator body, and Python 3.7+ turns that into `RuntimeError`. | A server without `k` and one waiting client, iterated with `for`. | The generator returns on `StopIteration`, as the unused `NetcatServer.__iter__` (src/pync/nc.py:571-581) does. | high; not executed | Server.TcpIterAsWritten, Server.OneShotIterationRaises | Server.TcpIter, Server.TcpIterAgreesWithRun |
