/**
 * The client side (src/pync/nc.py): `NetcatClient.__iter__` and `__next__`, which draw ports
 * from the port iterator one at a time, and `create_connection`, which dials one of them.
 * Whether a dial succeeds is an input: one Attempt per port the iterator hands out.
 */
module Client {
  import opened PortSpec

  /** How one `create_connection` call ends: TCP's `socket.create_connection`, or UDP's `socket()`/`connect`, which can only fail with a socket error. */
  datatype Attempt = Connected | Refused | SocketError

  /** What `__next__` hands back: StopIteration, a connection, or the exception create_connection raised. */
  datatype NextResult = Exhausted | Connection(port: int) | ConnectionRefused(port: int) | Failed(port: int)

  /** Observable steps of the dialer: a dial, a connection yielded to the consumer, a connection closed. */
  datatype DialEvent = Attempted(port: int) | Yielded(port: int) | Closed(port: int)

  /**
   * The events of one iteration of `__iter__`'s loop: the dial; with zero-I/O, create_connection
   * closes the connection and the `finally` closes it again; otherwise it is yielded and closed
   * once the consumer is done with it. Every failed dial is skipped.
   */
  function AttemptEvents(z: bool, port: int, a: Attempt): seq<DialEvent> {
    [Attempted(port)] +
    match a
    case Connected => if z then [Closed(port), Closed(port)] else [Yielded(port), Closed(port)]
    case Refused => []
    case SocketError => []
  }

  /** The whole iteration over the remaining ports, with outcomes[i] the outcome of the i-th dial. */
  function Dial(z: bool, ports: seq<int>, outcomes: seq<Attempt>): seq<DialEvent>
    requires |outcomes| == |ports|
  {
    if |ports| == 0 then [] else AttemptEvents(z, ports[0], outcomes[0]) + Dial(z, ports[1..], outcomes[1..])
  }

  /**
   * One dial peeled off the front of an iteration that still has `outcomes[i..]` to go: if the
   * events so far followed by the rest of the iteration make up `total`, they still do once that
   * dial's events have moved from the rest to the events so far.
   */
  lemma DialUnfold(z: bool, events: seq<DialEvent>, before: seq<int>, outcomes: seq<Attempt>, i: nat,
                   total: seq<DialEvent>)
    requires 0 < |before| && i < |outcomes| && |outcomes| - i == |before|
    requires events + Dial(z, before, outcomes[i..]) == total
    ensures (events + AttemptEvents(z, before[0], outcomes[i])) + Dial(z, before[1..], outcomes[i + 1..])
         == total
  {
    assert outcomes[i..][1..] == outcomes[i + 1..];
    var evs, rest := AttemptEvents(z, before[0], outcomes[i]), Dial(z, before[1..], outcomes[i + 1..]);
    assert Dial(z, before, outcomes[i..]) == evs + rest;
    assert (events + evs) + rest == events + (evs + rest);
  }

  /** What `__iter__` adds after `__next__` returned: a yield (unless zero-I/O) and the close of a connection. */
  lemma YieldEvents(z: bool, p: int, a: Attempt, r: NextResult, evs: seq<DialEvent>)
    requires r == (match a case Connected => Connection(p) case Refused => ConnectionRefused(p) case SocketError => Failed(p))
    requires evs == [Attempted(p)] + if a == Connected && z then [Closed(p)] else []
    ensures (if r.Connection? then (if z then evs + [Closed(p)] else evs + [Yielded(p), Closed(p)]) else evs)
         == AttemptEvents(z, p, a)
  {
  }

  /** The ports of the successful dials, in dialing order. */
  function Successes(ports: seq<int>, outcomes: seq<Attempt>): seq<int>
    requires |outcomes| == |ports|
  {
    if |ports| == 0 then []
    else (if outcomes[0] == Connected then [ports[0]] else []) + Successes(ports[1..], outcomes[1..])
  }

  function Attempts(events: seq<DialEvent>): seq<int> {
    if |events| == 0 then [] else (if events[0].Attempted? then [events[0].port] else []) + Attempts(events[1..])
  }

  function Yields(events: seq<DialEvent>): seq<int> {
    if |events| == 0 then [] else (if events[0].Yielded? then [events[0].port] else []) + Yields(events[1..])
  }

  function Closes(events: seq<DialEvent>): seq<int> {
    if |events| == 0 then [] else (if events[0].Closed? then [events[0].port] else []) + Closes(events[1..])
  }

  function Twice(ps: seq<int>): seq<int> {
    if |ps| == 0 then [] else [ps[0], ps[0]] + Twice(ps[1..])
  }

  lemma ProjectionsAppend(a: seq<DialEvent>, b: seq<DialEvent>)
    ensures Attempts(a + b) == Attempts(a) + Attempts(b)
    ensures Yields(a + b) == Yields(a) + Yields(b)
    ensures Closes(a + b) == Closes(a) + Closes(b)
  {
    AttemptsAppend(a, b);
    YieldsAppend(a, b);
    ClosesAppend(a, b);
  }

  lemma {:induction false} AttemptsAppend(a: seq<DialEvent>, b: seq<DialEvent>)
    ensures Attempts(a + b) == Attempts(a) + Attempts(b)
    decreases |a|
  {
    if |a| == 0 {
      assert a + b == b;
    } else {
      assert (a + b)[0] == a[0] && (a + b)[1..] == a[1..] + b;
      AttemptsAppend(a[1..], b);
    }
  }

  lemma {:induction false} YieldsAppend(a: seq<DialEvent>, b: seq<DialEvent>)
    ensures Yields(a + b) == Yields(a) + Yields(b)
    decreases |a|
  {
    if |a| == 0 {
      assert a + b == b;
    } else {
      assert (a + b)[0] == a[0] && (a + b)[1..] == a[1..] + b;
      YieldsAppend(a[1..], b);
    }
  }

  lemma {:induction false} ClosesAppend(a: seq<DialEvent>, b: seq<DialEvent>)
    ensures Closes(a + b) == Closes(a) + Closes(b)
    decreases |a|
  {
    if |a| == 0 {
      assert a + b == b;
    } else {
      assert (a + b)[0] == a[0] && (a + b)[1..] == a[1..] + b;
      ClosesAppend(a[1..], b);
    }
  }

  lemma AttemptEventsProjections(z: bool, port: int, a: Attempt)
    ensures Attempts(AttemptEvents(z, port, a)) == [port]
    ensures Yields(AttemptEvents(z, port, a)) == if a == Connected && !z then [port] else []
    ensures Closes(AttemptEvents(z, port, a)) == if a != Connected then [] else if z then [port, port] else [port]
  {
    var e := AttemptEvents(z, port, a);
    Singleton(Attempted(port));
    if a == Connected {
      var x, y := if z then Closed(port) else Yielded(port), Closed(port);
      assert e == [Attempted(port)] + [x] + [y];
      Singleton(x);
      Singleton(y);
      ProjectionsAppend([Attempted(port)], [x]);
      ProjectionsAppend([Attempted(port)] + [x], [y]);
    } else {
      assert e == [Attempted(port)];
    }
  }

  lemma Singleton(e: DialEvent)
    ensures Attempts([e]) == if e.Attempted? then [e.port] else []
    ensures Yields([e]) == if e.Yielded? then [e.port] else []
    ensures Closes([e]) == if e.Closed? then [e.port] else []
  {
    assert [e][1..] == [];
  }

  lemma {:induction false} TwiceAppend(a: seq<int>, b: seq<int>)
    ensures Twice(a + b) == Twice(a) + Twice(b)
    decreases |a|
  {
    if |a| == 0 {
      assert a + b == b;
    } else {
      assert (a + b)[1..] == a[1..] + b;
      TwiceAppend(a[1..], b);
    }
  }

  /**
   * Every port is dialed, in iteration order, whatever the earlier dials did: a refused or
   * failed dial never stops the scan.
   */
  lemma {:induction false} DialAttemptsEveryPort(z: bool, ports: seq<int>, outcomes: seq<Attempt>)
    requires |outcomes| == |ports|
    ensures Attempts(Dial(z, ports, outcomes)) == ports
    decreases |ports|
  {
    if |ports| > 0 {
      DialAttemptsEveryPort(z, ports[1..], outcomes[1..]);
      AttemptEventsProjections(z, ports[0], outcomes[0]);
      ProjectionsAppend(AttemptEvents(z, ports[0], outcomes[0]), Dial(z, ports[1..], outcomes[1..]));
    }
  }

  /**
   * Only the successful dials reach the consumer, in dialing order, and none does in
   * zero-I/O mode; each successful connection is closed once, or twice with zero-I/O
   * (by create_connection and then by the iterator's `finally`).
   */
  lemma {:induction false} DialYieldsSuccesses(z: bool, ports: seq<int>, outcomes: seq<Attempt>)
    requires |outcomes| == |ports|
    ensures Yields(Dial(z, ports, outcomes)) == if z then [] else Successes(ports, outcomes)
    ensures Closes(Dial(z, ports, outcomes)) == if z then Twice(Successes(ports, outcomes)) else Successes(ports, outcomes)
    decreases |ports|
  {
    if |ports| > 0 {
      DialYieldsSuccesses(z, ports[1..], outcomes[1..]);
      AttemptEventsProjections(z, ports[0], outcomes[0]);
      ProjectionsAppend(AttemptEvents(z, ports[0], outcomes[0]), Dial(z, ports[1..], outcomes[1..]));
      var first := if outcomes[0] == Connected then [ports[0]] else [];
      TwiceAppend(first, Successes(ports[1..], outcomes[1..]));
      assert Twice([ports[0]]) == [ports[0], ports[0]] by {
        assert [ports[0]][1..] == [];
      }
    }
  }

  predicate ClosedAfterYield(evs: seq<DialEvent>) {
    forall i :: 0 <= i < |evs| && evs[i].Yielded? ==> i + 1 < |evs| && evs[i + 1] == Closed(evs[i].port)
  }

  /** A yielded connection is closed right after the consumer's loop body, before the next dial. */
  lemma {:induction false} YieldedThenClosed(z: bool, ports: seq<int>, outcomes: seq<Attempt>)
    requires |outcomes| == |ports|
    ensures ClosedAfterYield(Dial(z, ports, outcomes))
    decreases |ports|
  {
    if |ports| > 0 {
      YieldedThenClosed(z, ports[1..], outcomes[1..]);
      var head := AttemptEvents(z, ports[0], outcomes[0]);
      var rest := Dial(z, ports[1..], outcomes[1..]);
      var evs := head + rest;
      forall i | 0 <= i < |evs| && evs[i].Yielded? ensures i + 1 < |evs| && evs[i + 1] == Closed(evs[i].port) {
        if i >= |head| {
          var k := i - |head|;
          assert evs[i] == rest[k];
          assert rest[k].Yielded?;
          assert k + 1 < |rest| && rest[k + 1] == Closed(rest[k].port);
          assert evs[i + 1] == rest[k + 1];
        } else {
          assert outcomes[0] == Connected && !z && i == 1;
          assert evs[2] == head[2];
        }
      }
    }
  }

  /** A TCP or UDP client: the protocols share `__iter__` and `__next__` and differ only in how a dial can fail. */
  class NetcatClient {
    const z: bool
    /** What `self._iterports` still has to hand out. */
    var pending: seq<int>

    /** `__init__`: a single port is wrapped in a list. */
    constructor (port: PortArg, z: bool)
      ensures this.z == z && pending == PortList(port)
    {
      this.z := z;
      pending := PortList(port);
    }

    /** `__next__` with `create_connection`: draw the next port and dial it; zero-I/O closes a connection at once. */
    method Next(outcome: Attempt) returns (r: NextResult, events: seq<DialEvent>)
      modifies this
      ensures old(pending) == [] ==> r == Exhausted && events == [] && pending == []
      ensures old(pending) != [] ==>
        var p := old(pending)[0];
        && pending == old(pending)[1..]
        && r == (match outcome
                 case Connected => Connection(p)
                 case Refused => ConnectionRefused(p)
                 case SocketError => Failed(p))
        && events == [Attempted(p)] + if outcome == Connected && z then [Closed(p)] else []
    {
      if pending == [] {
        return Exhausted, [];
      }
      var port := pending[0];
      pending := pending[1..];
      events := [Attempted(port)];
      match outcome {
        case Refused => r := ConnectionRefused(port);
        case SocketError => r := Failed(port);
        case Connected =>
          r := Connection(port);
          if z {
            events := events + [Closed(port)];
          }
      }
    }

    /**
     * `__iter__` driven to the end by its consumer (`run`): dial every remaining port, skip
     * the failures, yield or (zero-I/O) drop each connection, closing it afterwards.
     */
    method Iterate(outcomes: seq<Attempt>) returns (events: seq<DialEvent>)
      requires |outcomes| == |pending|
      modifies this
      ensures pending == []
      ensures events == Dial(z, old(pending), outcomes)
    {
      events := [];
      var i := 0;
      while true
        invariant 0 <= i <= |outcomes| && |pending| == |outcomes| - i
        invariant events + Dial(z, pending, outcomes[i..]) == Dial(z, old(pending), outcomes)
        decreases |pending|
      {
        ghost var before := pending;
        var r, evs := Next(if i < |outcomes| then outcomes[i] else Connected);
        if r == Exhausted {
          break;
        }
        assert i < |outcomes|;
        ghost var evs0 := evs;
        if r.Connection? {
          if z {
            evs := evs + [Closed(r.port)];
          } else {
            evs := evs + [Yielded(r.port), Closed(r.port)];
          }
        }
        YieldEvents(z, before[0], outcomes[i], r, evs0);
        DialUnfold(z, events, before, outcomes, i, Dial(z, old(pending), outcomes));
        assert before[1..] == pending;
        events := events + evs;
        i := i + 1;
      }
    }
  }
}
