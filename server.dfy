/**
 * The servers (src/pync/nc.py): `NetcatTCPServer` and `NetcatUDPServer`, their
 * `next_connection` accept loops and their `run` loops. Each `select` round is an input: a
 * Poll for TCP (is a client waiting?), a Datagram for UDP (has one arrived?). The session run
 * on each connection is the pump of module Pump and appears here as one step.
 */
module Server {
  import Pump

  /** A socket object; it can be closed, and a closed one makes `select` raise ValueError. */
  class Socket {
    var open: bool

    constructor ()
      ensures open
    {
      open := true;
    }

    method Close()
      modifies this
      ensures !open
    {
      open := false;
    }
  }

  /** One `select` round on the TCP listening socket. */
  datatype Poll = Idle | Incoming

  /** One `select` round on the UDP socket. */
  datatype Datagram = Quiet | Arrives(data: Pump.Bytes)

  /** What `next_connection` ends with: a connection on a socket, StopIteration, or (trace exhausted) still polling. */
  datatype Accept = Accepted(conn: Socket) | NoMore | Polling

  /** Observable steps of a server's `run`. */
  datatype ServerEvent =
    | Connected(client: nat)         // accept() (TCP) or connect() to the first sender (UDP)
    | Echoed(data: Pump.Bytes)            // UDP: the first datagram is written to stdout
    | ListenerClosed                 // TCP without k: self.close()
    | ListenerDropped                // UDP without k: self.sock = None
    | Session(client: nat)           // conn.run()
    | SessionClosed(client: nat)     // conn.close() in run's finally

  /** The events of a `run` over a poll trace, and whether it ended (StopIteration) rather than still polling. */
  datatype Trace = Trace(events: seq<ServerEvent>, stopped: bool)

  function Prepend(evs: seq<ServerEvent>, t: Trace): Trace {
    Trace(evs + t.events, t.stopped)
  }

  // ---------------------------------------------------------------------------
  // TCP
  // ---------------------------------------------------------------------------

  /** What serving one TCP client adds: accept, close the listener unless k, run the session, close it. */
  function TcpSession(k: bool, n: nat): seq<ServerEvent> {
    [Connected(n)] + (if k then [] else [ListenerClosed]) + [Session(n), SessionClosed(n)]
  }

  /** `NetcatTCPServer.run` from a listening socket that is open or closed, with n clients served so far. */
  function TcpRun(k: bool, listening: bool, polls: seq<Poll>, n: nat): Trace
    decreases |polls|
  {
    if !listening then Trace([], true)
    else if |polls| == 0 then Trace([], false)
    else if polls[0] == Idle then TcpRun(k, listening, polls[1..], n)
    else Prepend(TcpSession(k, n), TcpRun(k, k, polls[1..], n + 1))
  }

  function CountIncoming(polls: seq<Poll>): nat {
    if |polls| == 0 then 0 else (if polls[0] == Incoming then 1 else 0) + CountIncoming(polls[1..])
  }

  function FirstIncoming(polls: seq<Poll>): (i: nat)
    requires Incoming in polls
    ensures i < |polls| && polls[i] == Incoming && forall j :: 0 <= j < i ==> polls[j] == Idle
  {
    if polls[0] == Incoming then 0 else FirstIncoming(polls[1..]) + 1
  }

  /** The sessions of clients n, n + 1, ..., n + m - 1, one after the other, with the listener kept open. */
  function KeptOpenSessions(n: nat, m: nat): seq<ServerEvent>
    decreases m
  {
    if m == 0 then [] else TcpSession(true, n) + KeptOpenSessions(n + 1, m - 1)
  }

  /**
   * With k the listener stays open: every waiting client is accepted and served to the end
   * before the next one is accepted, and `run` never stops by itself.
   */
  lemma {:induction false} TcpKeepOpenServesAll(polls: seq<Poll>, n: nat)
    ensures TcpRun(true, true, polls, n) == Trace(KeptOpenSessions(n, CountIncoming(polls)), false)
    decreases |polls|
  {
    if |polls| > 0 {
      TcpKeepOpenServesAll(polls[1..], if polls[0] == Incoming then n + 1 else n);
    }
  }

  /**
   * Without k the listener is closed right after the first accept: `run` serves the first
   * waiting client, then the next select on the closed socket ends it; with no client it keeps polling.
   */
  lemma {:induction false} TcpSingleShot(polls: seq<Poll>)
    ensures TcpRun(false, true, polls, 0)
         == if Incoming in polls then Trace(TcpSession(false, 0), true) else Trace([], false)
    decreases |polls|
  {
    if |polls| > 0 {
      TcpSingleShot(polls[1..]);
      assert Incoming in polls <==> polls[0] == Incoming || Incoming in polls[1..];
      assert TcpSession(false, 0) + [] == TcpSession(false, 0);
    }
  }

  /** Whether the listening socket is still open once `run` has been offered the polls. */
  function TcpListening(k: bool, listening: bool, polls: seq<Poll>): bool
    decreases |polls|
  {
    if !listening || |polls| == 0 then listening
    else if polls[0] == Idle then TcpListening(k, listening, polls[1..])
    else TcpListening(k, k, polls[1..])
  }

  /** The listener ends closed exactly when it started closed, or when k is off and a client came. */
  lemma {:induction false} TcpListenerFinalState(k: bool, listening: bool, polls: seq<Poll>)
    ensures TcpListening(k, listening, polls) == (listening && (k || Incoming !in polls))
    decreases |polls|
  {
    if listening && |polls| > 0 {
      TcpListenerFinalState(k, if polls[0] == Incoming then k else listening, polls[1..]);
      assert Incoming in polls <==> polls[0] == Incoming || Incoming in polls[1..];
    }
  }

  lemma {:induction false} SkipIdle(k: bool, polls: seq<Poll>, n: nat, i: nat)
    requires i <= |polls| && forall j :: 0 <= j < i ==> polls[j] == Idle
    ensures TcpRun(k, true, polls, n) == TcpRun(k, true, polls[i..], n)
    ensures TcpListening(k, true, polls) == TcpListening(k, true, polls[i..])
    decreases i
  {
    if i > 0 {
      assert polls[1..][i - 1..] == polls[i..];
      SkipIdle(k, polls[1..], n, i - 1);
    }
  }

  class TcpServer {
    const k: bool
    /** The listening socket, created by `__init__` (address resolution, bind and listen are not modelled). */
    const sock: Socket

    constructor (k: bool)
      ensures this.k == k && fresh(sock) && sock.open
    {
      this.k := k;
      sock := new Socket();
    }

    /**
     * `next_connection`: a select on a closed socket raises, which becomes StopIteration; otherwise
     * poll until a client is waiting, accept it on a fresh socket, and close the listener unless k.
     */
    method NextConnection(polls: seq<Poll>) returns (r: Accept, used: nat)
      modifies sock
      ensures used <= |polls|
      ensures !old(sock.open) ==> r == NoMore && used == 0 && !sock.open
      ensures old(sock.open) && Incoming !in polls ==> r == Polling && used == |polls| && sock.open
      ensures old(sock.open) && Incoming in polls ==>
        && used == FirstIncoming(polls) + 1
        && r.Accepted? && fresh(r.conn) && r.conn.open
        && sock.open == k
    {
      used := 0;
      while true
        invariant used <= |polls| && sock.open == old(sock.open)
        invariant used > 0 ==> sock.open
        invariant forall j :: 0 <= j < used ==> polls[j] == Idle
        decreases |polls| - used
      {
        if !sock.open {
          return NoMore, used;
        }
        if used == |polls| {
          return Polling, used;
        }
        var ready := polls[used] == Incoming;
        used := used + 1;
        if ready {
          var cli := new Socket();
          r := Accepted(cli);
          break;
        }
      }
      if !k {
        sock.Close();
      }
    }

    /** `run`: accept, run the session, close it; until next_connection raises StopIteration. */
    method Run(polls: seq<Poll>) returns (t: Trace)
      modifies sock
      ensures t == TcpRun(k, old(sock.open), polls, 0)
      ensures sock.open == TcpListening(k, old(sock.open), polls)
      ensures sock.open == (old(sock.open) && (k || Incoming !in polls))
    {
      TcpListenerFinalState(k, sock.open, polls);
      var rest := polls;
      var served: nat := 0;
      var events: seq<ServerEvent> := [];
      while true
        invariant Prepend(events, TcpRun(k, sock.open, rest, served)) == TcpRun(k, old(sock.open), polls, 0)
        invariant TcpListening(k, sock.open, rest) == TcpListening(k, old(sock.open), polls)
        decreases |rest|
      {
        var r, used := NextConnection(rest);
        if r == NoMore {
          return Trace(events, true);
        }
        if r == Polling {
          SkipIdle(k, rest, served, |rest|);
          return Trace(events, false);
        }
        assert rest[used - 1] == Incoming && sock.open == k && r.conn != sock;
        RunStep(k, old(sock.open), polls, events, rest, served, used);
        r.conn.Close();
        events := events + TcpSession(k, served);
        rest := rest[used..];
        served := served + 1;
      }
    }
  }

  /** `run`'s loop invariant carried over one served client. */
  lemma RunStep(k: bool, l0: bool, polls: seq<Poll>, events: seq<ServerEvent>, rest: seq<Poll>, served: nat, used: nat)
    requires 1 <= used <= |rest| && rest[used - 1] == Incoming
    requires forall j :: 0 <= j < used - 1 ==> rest[j] == Idle
    requires Prepend(events, TcpRun(k, true, rest, served)) == TcpRun(k, l0, polls, 0)
    requires TcpListening(k, true, rest) == TcpListening(k, l0, polls)
    ensures Prepend(events + TcpSession(k, served), TcpRun(k, k, rest[used..], served + 1)) == TcpRun(k, l0, polls, 0)
    ensures TcpListening(k, k, rest[used..]) == TcpListening(k, l0, polls)
  {
    AcceptedStep(k, rest, served, used);
    var after := TcpRun(k, k, rest[used..], served + 1);
    assert (events + TcpSession(k, served)) + after.events == events + (TcpSession(k, served) + after.events);
  }

  /** Serving the client found after used - 1 idle polls, and going on from the poll after it. */
  lemma AcceptedStep(k: bool, rest: seq<Poll>, served: nat, used: nat)
    requires 1 <= used <= |rest| && rest[used - 1] == Incoming
    requires forall j :: 0 <= j < used - 1 ==> rest[j] == Idle
    ensures TcpRun(k, true, rest, served) == Prepend(TcpSession(k, served), TcpRun(k, k, rest[used..], served + 1))
    ensures TcpListening(k, true, rest) == TcpListening(k, k, rest[used..])
  {
    SkipIdle(k, rest, served, used - 1);
    assert rest[used - 1..][1..] == rest[used..];
  }

  // ---------------------------------------------------------------------------
  // Iterating over a TCP server: `for conn in server`
  // ---------------------------------------------------------------------------

  /** How a `for` loop over the server's generator ends, if it has ended. */
  datatype IterEnd = StillPolling | Exhausted | GeneratorError

  /** The connections a `for` loop receives, in order, and how the loop ends. */
  datatype Iteration = Iteration(yielded: seq<nat>, end: IterEnd)

  function PrependYield(n: nat, it: Iteration): Iteration {
    Iteration([n] + it.yielded, it.end)
  }

  /**
   * `NetcatTCPServer.__iter__` as written: `next_connection` is called with no handler, so its
   * StopIteration escapes the generator body, which Python 3.7+ turns into a RuntimeError.
   */
  function TcpIterAsWritten(k: bool, listening: bool, polls: seq<Poll>, n: nat): (it: Iteration)
    ensures it.end != Exhausted
    decreases |polls|
  {
    if !listening then Iteration([], GeneratorError)
    else if |polls| == 0 then Iteration([], StillPolling)
    else if polls[0] == Idle then TcpIterAsWritten(k, listening, polls[1..], n)
    else PrependYield(n, TcpIterAsWritten(k, k, polls[1..], n + 1))
  }

  /** The one-shot server in a `for` loop: the first client is served, and then the loop raises. */
  lemma OneShotIterationRaises()
    ensures TcpIterAsWritten(false, true, [Incoming], 0) == Iteration([0], GeneratorError)
  {
    assert [Incoming][1..] == [];
  }

  /** `__iter__` as intended, with StopIteration ending the generator (as `run` does). */
  function TcpIter(k: bool, listening: bool, polls: seq<Poll>, n: nat): (it: Iteration)
    ensures it.end != GeneratorError
    decreases |polls|
  {
    if !listening then Iteration([], Exhausted)
    else if |polls| == 0 then Iteration([], StillPolling)
    else if polls[0] == Idle then TcpIter(k, listening, polls[1..], n)
    else PrependYield(n, TcpIter(k, k, polls[1..], n + 1))
  }

  /** The clients whose sessions a `run` trace contains, in order. */
  function Served(evs: seq<ServerEvent>): seq<nat> {
    if |evs| == 0 then [] else (if evs[0].Session? then [evs[0].client] else []) + Served(evs[1..])
  }

  lemma {:induction false} ServedAppend(a: seq<ServerEvent>, b: seq<ServerEvent>)
    ensures Served(a + b) == Served(a) + Served(b)
    decreases |a|
  {
    if |a| == 0 {
      assert a + b == b;
    } else {
      assert (a + b)[0] == a[0] && (a + b)[1..] == a[1..] + b;
      ServedAppend(a[1..], b);
    }
  }

  lemma TcpSessionServes(k: bool, n: nat)
    ensures Served(TcpSession(k, n)) == [n]
  {
    var s := TcpSession(k, n);
    if k {
      assert s == [Connected(n), Session(n), SessionClosed(n)];
      assert s[1..][1..][1..] == [];
    } else {
      assert s == [Connected(n), ListenerClosed, Session(n), SessionClosed(n)];
      assert s[1..][1..][1..][1..] == [];
      assert Served(s[1..][1..][1..]) == [];
      assert Served(s[1..][1..]) == [n];
      assert Served(s[1..]) == [n];
    }
  }

  /**
   * The corrected iteration hands out exactly the connections `run` serves, in the same
   * order, and it is exhausted exactly when `run` returns.
   */
  lemma {:induction false} TcpIterAgreesWithRun(k: bool, listening: bool, polls: seq<Poll>, n: nat)
    ensures TcpIter(k, listening, polls, n).yielded == Served(TcpRun(k, listening, polls, n).events)
    ensures TcpIter(k, listening, polls, n).end == Exhausted <==> TcpRun(k, listening, polls, n).stopped
    decreases |polls|
  {
    if listening && |polls| > 0 {
      var n' := if polls[0] == Incoming then n + 1 else n;
      var l' := if polls[0] == Incoming then k else listening;
      TcpIterAgreesWithRun(k, l', polls[1..], n');
      if polls[0] == Incoming {
        ServedAppend(TcpSession(k, n), TcpRun(k, k, polls[1..], n + 1).events);
        TcpSessionServes(k, n);
      }
    }
  }

  /** The as-written iteration yields the same connections, but ends in an error wherever the corrected one is exhausted. */
  lemma {:induction false} AsWrittenRaisesInsteadOfEnding(k: bool, listening: bool, polls: seq<Poll>, n: nat)
    ensures TcpIterAsWritten(k, listening, polls, n).yielded == TcpIter(k, listening, polls, n).yielded
    ensures TcpIterAsWritten(k, listening, polls, n).end == GeneratorError
        <==> TcpIter(k, listening, polls, n).end == Exhausted
    decreases |polls|
  {
    if listening && |polls| > 0 {
      AsWrittenRaisesInsteadOfEnding(k, if polls[0] == Incoming then k else listening, polls[1..],
                                     if polls[0] == Incoming then n + 1 else n);
    }
  }

  // ---------------------------------------------------------------------------
  // UDP
  // ---------------------------------------------------------------------------

  /** `recvfrom(1024)`: the first datagram as read, at most this many bytes of it. */
  const RecvSize := 1024

  function Received(data: Pump.Bytes): (r: Pump.Bytes)
    ensures |r| <= RecvSize && r <= data
    ensures |data| <= RecvSize ==> r == data
  {
    if |data| <= RecvSize then data else data[..RecvSize]
  }

  /** What serving the one UDP peer adds: echo its first datagram, connect, drop the socket unless k, run, close. */
  function UdpSession(k: bool, data: Pump.Bytes): seq<ServerEvent> {
    [Echoed(data), Connected(0)] + (if k then [] else [ListenerDropped]) + [Session(0), SessionClosed(0)]
  }

  /**
   * `NetcatUDPServer.run`. Its connection wraps the server's own socket, so closing the
   * session closes that socket: with k the next select raises ValueError, without k it
   * raises TypeError on None, and either way `run` stops.
   */
  function UdpRun(k: bool, present: bool, open: bool, polls: seq<Datagram>): Trace
    decreases |polls|
  {
    if !present || !open then Trace([], true)
    else if |polls| == 0 then Trace([], false)
    else match polls[0]
      case Quiet => UdpRun(k, present, open, polls[1..])
      case Arrives(data) => Prepend(UdpSession(k, Received(data)), UdpRun(k, k, false, polls[1..]))
  }

  predicate SomeDatagram(polls: seq<Datagram>) {
    exists i :: 0 <= i < |polls| && polls[i].Arrives?
  }

  function FirstDatagram(polls: seq<Datagram>): (i: nat)
    requires SomeDatagram(polls)
    ensures i < |polls| && polls[i].Arrives? && forall j :: 0 <= j < i ==> polls[j] == Quiet
  {
    if polls[0].Arrives? then 0 else FirstDatagram(polls[1..]) + 1
  }

  /**
   * A UDP server serves exactly one peer whether or not k is set: `run` ends after the
   * first session; k only decides whether the socket is dropped or left to be closed by the session.
   */
  lemma {:induction false} UdpServesOnePeer(k: bool, polls: seq<Datagram>)
    ensures UdpRun(k, true, true, polls)
         == if SomeDatagram(polls) then Trace(UdpSession(k, Received(polls[FirstDatagram(polls)].data)), true)
            else Trace([], false)
    decreases |polls|
  {
    if |polls| > 0 {
      UdpServesOnePeer(k, polls[1..]);
      if polls[0] == Quiet && SomeDatagram(polls) {
        var i :| 0 <= i < |polls| && polls[i].Arrives?;
        assert polls[1..][i - 1].Arrives?;
      }
      if polls[0] == Quiet && SomeDatagram(polls[1..]) {
        var i :| 0 <= i < |polls[1..]| && polls[1..][i].Arrives?;
        assert polls[i + 1].Arrives?;
      }
      if polls[0].Arrives? {
        assert UdpSession(k, Received(polls[0].data)) + [] == UdpSession(k, Received(polls[0].data));
      }
    }
  }

  lemma {:induction false} SkipQuiet(k: bool, polls: seq<Datagram>, i: nat)
    requires i <= |polls| && forall j :: 0 <= j < i ==> polls[j] == Quiet
    ensures UdpRun(k, true, true, polls) == UdpRun(k, true, true, polls[i..])
    decreases i
  {
    if i > 0 {
      assert polls[1..][i - 1..] == polls[i..];
      SkipQuiet(k, polls[1..], i - 1);
    }
  }

  class UdpServer {
    const k: bool
    /** `self.sock`: the bound socket, or null once dropped. */
    var sock: Socket?

    constructor (k: bool)
      ensures this.k == k && fresh(sock) && sock != null && sock.open
    {
      this.k := k;
      sock := new Socket();
    }

    /**
     * `next_connection`: select on None (TypeError) or on a closed socket (ValueError) becomes
     * StopIteration; otherwise poll until a datagram arrives, echo it, connect the socket to its
     * sender and make that same socket the connection; without k the server drops it.
     */
    method NextConnection(polls: seq<Datagram>) returns (r: Accept, used: nat, echoed: Pump.Bytes)
      modifies this
      ensures used <= |polls|
      ensures old(sock) == null || !old(sock.open) ==> r == NoMore && used == 0 && sock == old(sock)
      ensures old(sock) != null && old(sock.open) && !SomeDatagram(polls) ==>
        r == Polling && used == |polls| && sock == old(sock)
      ensures old(sock) != null && old(sock.open) && SomeDatagram(polls) ==>
        && used == FirstDatagram(polls) + 1 && echoed == Received(polls[used - 1].data)
        && r == Accepted(old(sock)) && sock == (if k then old(sock) else null)
    {
      used, echoed := 0, [];
      while true
        invariant used <= |polls| && sock == old(sock)
        invariant used > 0 ==> sock != null && sock.open
        invariant forall j :: 0 <= j < used ==> polls[j] == Quiet
        decreases |polls| - used
      {
        if sock == null || !sock.open {
          return NoMore, used, echoed;
        }
        if used == |polls| {
          assert !SomeDatagram(polls);
          return Polling, used, echoed;
        }
        var p := polls[used];
        used := used + 1;
        if p.Arrives? {
          echoed := Received(p.data);
          r := Accepted(sock);
          break;
        }
      }
      if !k {
        sock := null;
      }
    }

    /** `run`: the same loop as the TCP server's; closing the session closes the shared socket. */
    method Run(polls: seq<Datagram>) returns (t: Trace)
      modifies this, sock
      ensures t == UdpRun(k, old(sock) != null, old(sock) != null && old(sock.open), polls)
      ensures sock == (if !k && old(sock) != null && old(sock.open) && SomeDatagram(polls) then null else old(sock))
      ensures old(sock) != null ==> old(sock).open == (old(sock.open) && !SomeDatagram(polls))
    {
      var r, used, echoed := NextConnection(polls);
      if r == NoMore {
        return Trace([], true);
      }
      if r == Polling {
        SkipQuiet(k, polls, |polls|);
        return Trace([], false);
      }
      SkipQuiet(k, polls, used - 1);
      assert polls[used - 1..][1..] == polls[used..];
      ghost var shared := r.conn;
      r.conn.Close();
      // The loop's second round: the session's close has closed the shared socket (k) or the
      // server has dropped it (no k), so this select raises and `run` returns.
      var after, _, _ := NextConnection(polls[used..]);
      assert after == NoMore && !shared.open;
      t := Trace(UdpSession(k, echoed), true);
    }
  }
}
