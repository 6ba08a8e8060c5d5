/**
 * `NetcatConnection.readwrite` (src/pync/nc.py): the loop that pumps bytes between one
 * connected socket and the local input/output pair, one tick at a time. Every call into
 * the socket, the streams and the clock is replaced by the outcome recorded in a Tick.
 */
module Pump {
  import opened Wrappers

  type Bytes = seq<bv8>

  /** A wall-clock reading in whole seconds since the epoch; `time.time()` is positive on a running system. */
  type Clock = t: int | t > 0 witness 1

  /**
   * What a non-blocking read hands back: bytes, `b''`, `None` (nothing ready), or the
   * exception it raised — `StopNetcat`, or an OSError nothing in the loop catches.
   */
  datatype IoResult = Returned(value: Option<Bytes>) | RaisedStop | RaisedOsError

  /** One pass of the loop: the socket receive, the stdout write, the stdin read, the send, the shutdown, the clock. */
  datatype Tick = Tick(
    recv: IoResult,
    writeFails: bool,
    stdin: IoResult,
    sendFails: bool,
    shutdownFails: bool,
    now: Clock)

  /** Calls the loop makes on the local streams and the socket, in order. */
  datatype Event = Wrote(data: Bytes) | ReadStdin(result: IoResult) | Sent(data: Bytes) | ShutdownWr(failed: bool)

  /** Why the loop ended: one of its four `break`s, or an exception that leaves readwrite. */
  datatype Exit = PeerClosed | OutputFailed | StopRequested | QuitTimeout | Raised

  /** The `N` (shutdown writes on EOF) and `q` (quit delay after EOF, negative: never) settings. */
  datatype Config = Config(N: bool, q: int)

  /** The loop's locals (`eof_reached`), what it did so far, how many ticks it ran, and whether it ended. */
  datatype State = State(eofAt: Option<int>, events: seq<Event>, consumed: nat, exit: Option<Exit>)

  const Initial: State := State(None, [], 0, None)

  /** The socket receive and the stdout write that follows it. */
  function ReceivePhase(st: State, t: Tick): State {
    match t.recv
    case RaisedStop => st.(exit := Some(StopRequested))
    case RaisedOsError => st.(exit := Some(Raised))
    case Returned(None) => st
    case Returned(Some(data)) =>
      if data == [] then st.(exit := Some(PeerClosed))
      else if t.writeFails then st.(exit := Some(OutputFailed))
      else st.(events := st.events + [Wrote(data)])
  }

  /** Before EOF: the stdin read and the send, EOF handling and shutdown; after EOF: the quit timer. */
  function LocalPhase(cfg: Config, st: State, t: Tick): State {
    if st.eofAt.None? then
      var read := st.(events := st.events + [ReadStdin(t.stdin)]);
      match t.stdin
      case RaisedStop => read.(exit := Some(StopRequested))
      case RaisedOsError => read.(exit := Some(Raised))
      case Returned(None) => read
      case Returned(Some(data)) =>
        if data != [] then
          if t.sendFails then read.(exit := Some(Raised)) else read.(events := read.events + [Sent(data)])
        else
          read.(eofAt := Some(t.now as int),
                events := read.events + if cfg.N then [ShutdownWr(t.shutdownFails)] else [])
    else if cfg.q >= 0 && t.now - st.eofAt.value >= cfg.q then
      st.(exit := Some(QuitTimeout))
    else
      st
  }

  function Step(cfg: Config, st: State, t: Tick): State {
    var received := ReceivePhase(st, t);
    var done := if received.exit.Some? then received else LocalPhase(cfg, received, t);
    done.(consumed := st.consumed + 1)
  }

  /** The state after the loop has been offered the ticks in order; once it has ended it ignores the rest. */
  function Run(cfg: Config, ticks: seq<Tick>): State
    decreases |ticks|
  {
    if |ticks| == 0 then Initial
    else
      var prev := Run(cfg, ticks[..|ticks| - 1]);
      if prev.exit.Some? then prev else Step(cfg, prev, ticks[|ticks| - 1])
  }

  lemma {:induction false} RunConsumed(cfg: Config, ticks: seq<Tick>)
    ensures Run(cfg, ticks).consumed <= |ticks|
    ensures Run(cfg, ticks).exit.None? ==> Run(cfg, ticks).consumed == |ticks|
    ensures Run(cfg, ticks).exit.Some? ==> Run(cfg, ticks).consumed >= 1
    decreases |ticks|
  {
    if |ticks| > 0 {
      RunConsumed(cfg, ticks[..|ticks| - 1]);
    }
  }

  /** Once the loop has ended, later ticks change nothing. */
  lemma {:induction false} StoppedStays(cfg: Config, ticks: seq<Tick>, k: nat)
    requires k <= |ticks|
    requires Run(cfg, ticks[..k]).exit.Some?
    ensures Run(cfg, ticks) == Run(cfg, ticks[..k])
    decreases |ticks| - k
  {
    if k < |ticks| {
      var next := ticks[..k + 1];
      assert next[..k] == ticks[..k];
      StoppedStays(cfg, ticks, k + 1);
    } else {
      assert ticks[..k] == ticks;
    }
  }

  /**
   * The loop itself, over a finite trace of ticks. It stops at the first `break` (or the
   * first exception); when the trace runs out first it is still running (`exit` is None).
   */
  method ReadWrite(cfg: Config, ticks: seq<Tick>) returns (events: seq<Event>, exit: Option<Exit>, consumed: nat)
    ensures consumed <= |ticks| && (exit.None? ==> consumed == |ticks|)
    ensures events == Run(cfg, ticks).events && exit == Run(cfg, ticks).exit && consumed == Run(cfg, ticks).consumed
  {
    var eofReached: Option<int> := None;
    events, exit, consumed := [], None, 0;
    while consumed < |ticks|
      invariant consumed <= |ticks|
      invariant Run(cfg, ticks[..consumed]) == State(eofReached, events, consumed, None)
    {
      var t := ticks[consumed];
      assert ticks[..consumed + 1][..consumed] == ticks[..consumed];
      var stop: Option<Exit> := None;
      match t.recv {
        case RaisedStop => stop := Some(StopRequested);
        case RaisedOsError => stop := Some(Raised);
        case Returned(netData) =>
          if netData.Some? && netData.value != [] {
            if t.writeFails {
              stop := Some(OutputFailed);
            } else {
              events := events + [Wrote(netData.value)];
            }
          } else if netData.Some? {
            stop := Some(PeerClosed);
          }
      }
      if stop.None? {
        if eofReached.None? {
          events := events + [ReadStdin(t.stdin)];
          match t.stdin {
            case RaisedStop => stop := Some(StopRequested);
            case RaisedOsError => stop := Some(Raised);
            case Returned(stdinData) =>
              if stdinData.Some? && stdinData.value != [] {
                if t.sendFails {
                  stop := Some(Raised);
                } else {
                  events := events + [Sent(stdinData.value)];
                }
              } else if stdinData.Some? {
                eofReached := Some(t.now as int);
                if cfg.N {
                  events := events + [ShutdownWr(t.shutdownFails)];
                }
              }
          }
        } else if cfg.q >= 0 {
          if t.now - eofReached.value >= cfg.q {
            stop := Some(QuitTimeout);
          }
        }
      }
      consumed := consumed + 1;
      if stop.Some? {
        exit := stop;
        break;
      }
    }
    if exit.Some? {
      StoppedStays(cfg, ticks, consumed);
    } else {
      assert ticks[..consumed] == ticks;
    }
  }

  // ---------------------------------------------------------------------------
  // EOF on stdin: no read and no send afterwards, one shutdown when N is set
  // ---------------------------------------------------------------------------

  predicate IsEof(e: Event) {
    e == ReadStdin(Returned(Some([])))
  }

  function ShutdownCount(events: seq<Event>): nat {
    if |events| == 0 then 0 else (if events[0].ShutdownWr? then 1 else 0) + ShutdownCount(events[1..])
  }

  lemma {:induction false} ShutdownCountAppend(a: seq<Event>, b: seq<Event>)
    ensures ShutdownCount(a + b) == ShutdownCount(a) + ShutdownCount(b)
    decreases |a|
  {
    if |a| > 0 {
      assert (a + b)[1..] == a[1..] + b;
      ShutdownCountAppend(a[1..], b);
    } else {
      assert a + b == b;
    }
  }

  lemma {:induction false} NoShutdownCounted(events: seq<Event>)
    requires ShutdownCount(events) == 0
    ensures forall j :: 0 <= j < |events| ==> !events[j].ShutdownWr?
    decreases |events|
  {
    if |events| > 0 {
      NoShutdownCounted(events[1..]);
      forall j | 1 <= j < |events| ensures !events[j].ShutdownWr? {
        assert events[j] == events[1..][j - 1];
      }
    }
  }

  lemma {:induction false} NoShutdownNoCount(events: seq<Event>)
    requires forall j :: 0 <= j < |events| ==> !events[j].ShutdownWr?
    ensures ShutdownCount(events) == 0
    decreases |events|
  {
    if |events| > 0 {
      NoShutdownNoCount(events[1..]);
    }
  }

  /**
   * The ordering rules around stdin EOF: the loop has recorded an EOF time exactly when it has
   * read EOF; after the EOF read it neither reads stdin nor sends again; it has shut the socket's
   * write half once if N is set and EOF was read, and never otherwise, right after the EOF read.
   */
  ghost predicate EofDiscipline(cfg: Config, st: State) {
    && (st.eofAt.Some? <==> exists i :: 0 <= i < |st.events| && IsEof(st.events[i]))
    && (forall i, j :: 0 <= i < j < |st.events| && IsEof(st.events[i]) ==> !st.events[j].ReadStdin? && !st.events[j].Sent?)
    && ShutdownCount(st.events) == (if cfg.N && st.eofAt.Some? then 1 else 0)
    && (forall j :: 0 <= j < |st.events| && st.events[j].ShutdownWr? ==> 0 < j && IsEof(st.events[j - 1]))
  }

  lemma ReceivePhaseKeepsDiscipline(cfg: Config, st: State, t: Tick)
    requires EofDiscipline(cfg, st)
    ensures EofDiscipline(cfg, ReceivePhase(st, t))
  {
    var r := ReceivePhase(st, t);
    if t.recv.Returned? && t.recv.value.Some? && t.recv.value.value != [] && !t.writeFails {
      AppendWrite(cfg, st, t.recv.value.value);
    } else {
      assert r.events == st.events && r.eofAt == st.eofAt;
    }
  }

  /** A stdout write, the only call the receive half adds, keeps the EOF rules. */
  lemma AppendWrite(cfg: Config, st: State, data: Bytes)
    requires EofDiscipline(cfg, st)
    ensures EofDiscipline(cfg, st.(events := st.events + [Wrote(data)]))
  {
    var evs := st.events + [Wrote(data)];
    var n := |st.events|;
    ShutdownCountAppend(st.events, [Wrote(data)]);
    assert [Wrote(data)][1..] == [];
    assert ShutdownCount([Wrote(data)]) == 0;
    assert !IsEof(evs[n]) && !evs[n].ShutdownWr? && !evs[n].ReadStdin? && !evs[n].Sent?;
    if st.eofAt.Some? {
      var i :| 0 <= i < n && IsEof(st.events[i]);
      assert IsEof(evs[i]);
    }
    forall i, j | 0 <= i < j < |evs| && IsEof(evs[i]) ensures !evs[j].ReadStdin? && !evs[j].Sent? {
      if j < n {
        assert evs[i] == st.events[i] && evs[j] == st.events[j];
      }
    }
    forall j | 0 <= j < |evs| && evs[j].ShutdownWr? ensures 0 < j && IsEof(evs[j - 1]) {
      assert j < n && evs[j] == st.events[j];
      assert evs[j - 1] == st.events[j - 1];
    }
  }

  /** Appending calls other than an EOF read or a shutdown to a state that has not seen EOF. */
  lemma AppendBeforeEof(cfg: Config, st: State, added: seq<Event>)
    requires EofDiscipline(cfg, st) && st.eofAt.None?
    requires forall i :: 0 <= i < |added| ==> !IsEof(added[i]) && !added[i].ShutdownWr?
    ensures EofDiscipline(cfg, st.(events := st.events + added))
  {
    var n := |st.events|;
    var evs := st.events + added;
    assert forall i :: 0 <= i < n ==> !IsEof(st.events[i]);
    NoShutdownCounted(st.events);
    NoShutdownNoCount(added);
    ShutdownCountAppend(st.events, added);
    assert forall i :: 0 <= i < |evs| ==> !IsEof(evs[i]) by {
      forall i | 0 <= i < |evs| ensures !IsEof(evs[i]) {
        if i >= n {
          assert evs[i] == added[i - n];
        }
      }
    }
    forall j | 0 <= j < |evs| ensures !evs[j].ShutdownWr? {
      if j >= n {
        assert evs[j] == added[j - n];
      }
    }
  }

  /** Appending the EOF read, and the shutdown when N is set, to a state that has not seen EOF. */
  lemma AppendEof(cfg: Config, st: State, now: int, failed: bool)
    requires EofDiscipline(cfg, st) && st.eofAt.None?
    ensures var added := [ReadStdin(Returned(Some([])))] + if cfg.N then [ShutdownWr(failed)] else [];
            EofDiscipline(cfg, st.(eofAt := Some(now), events := st.events + added))
  {
    var added := [ReadStdin(Returned(Some([])))] + if cfg.N then [ShutdownWr(failed)] else [];
    var n := |st.events|;
    var evs := st.events + added;
    assert forall i :: 0 <= i < n ==> !IsEof(st.events[i]);
    NoShutdownCounted(st.events);
    ShutdownCountAppend(st.events, added);
    if cfg.N {
      assert added[1..] == [ShutdownWr(failed)] && added[1..][1..] == [];
      assert ShutdownCount(added[1..][1..]) == 0;
      assert ShutdownCount(added[1..]) == 1;
      assert ShutdownCount(added) == 1;
    } else {
      assert added[1..] == [];
      assert ShutdownCount(added) == 0;
    }
    assert IsEof(evs[n]);
    forall i, j | 0 <= i < j < |evs| && IsEof(evs[i]) ensures !evs[j].ReadStdin? && !evs[j].Sent? {
      assert i == n;
    }
  }

  lemma LocalPhaseKeepsDiscipline(cfg: Config, st: State, t: Tick)
    requires EofDiscipline(cfg, st)
    ensures EofDiscipline(cfg, LocalPhase(cfg, st, t))
  {
    if st.eofAt.None? {
      var l := LocalPhase(cfg, st, t);
      var read := [ReadStdin(t.stdin)];
      if t.stdin == Returned(Some([])) {
        AppendEof(cfg, st, t.now as int, t.shutdownFails);
        var added := [ReadStdin(Returned(Some([])))] + if cfg.N then [ShutdownWr(t.shutdownFails)] else [];
        assert l == st.(eofAt := Some(t.now as int), events := st.events + added);
      } else if t.stdin.Returned? && t.stdin.value.Some? && !t.sendFails {
        var both := read + [Sent(t.stdin.value.value)];
        assert l == st.(events := st.events + both);
        AppendBeforeEof(cfg, st, both);
      } else {
        assert l.events == st.events + read && l.eofAt == st.eofAt;
        AppendBeforeEof(cfg, st, read);
      }
    }
  }

  lemma StepKeepsDiscipline(cfg: Config, st: State, t: Tick)
    requires EofDiscipline(cfg, st)
    ensures EofDiscipline(cfg, Step(cfg, st, t))
  {
    var r := ReceivePhase(st, t);
    ReceivePhaseKeepsDiscipline(cfg, st, t);
    if r.exit.None? {
      LocalPhaseKeepsDiscipline(cfg, r, t);
    }
  }

  /** Every reachable state of the loop obeys the EOF ordering rules. */
  lemma {:induction false} RunKeepsDiscipline(cfg: Config, ticks: seq<Tick>)
    ensures EofDiscipline(cfg, Run(cfg, ticks))
    decreases |ticks|
  {
    if |ticks| > 0 {
      var prev := Run(cfg, ticks[..|ticks| - 1]);
      RunKeepsDiscipline(cfg, ticks[..|ticks| - 1]);
      if prev.exit.None? {
        StepKeepsDiscipline(cfg, prev, ticks[|ticks| - 1]);
      }
    }
  }

  // ---------------------------------------------------------------------------
  // Received data reaches stdout in arrival order
  // ---------------------------------------------------------------------------

  /** The chunks written to stdout, in order. */
  function Writes(events: seq<Event>): seq<Bytes> {
    if |events| == 0 then [] else (if events[0].Wrote? then [events[0].data] else []) + Writes(events[1..])
  }

  lemma {:induction false} WritesAppend(a: seq<Event>, b: seq<Event>)
    ensures Writes(a + b) == Writes(a) + Writes(b)
    decreases |a|
  {
    if |a| > 0 {
      assert (a + b)[1..] == a[1..] + b;
      WritesAppend(a[1..], b);
    } else {
      assert a + b == b;
    }
  }

  /** What a tick delivers to stdout: the non-empty data its receive returned, when the write succeeds. */
  function Chunk(t: Tick): seq<Bytes> {
    if t.recv.Returned? && t.recv.value.Some? && t.recv.value.value != [] && !t.writeFails
    then [t.recv.value.value] else []
  }

  /** The data a sequence of ticks delivers, oldest first. */
  function Delivered(ticks: seq<Tick>): seq<Bytes>
    decreases |ticks|
  {
    if |ticks| == 0 then [] else Delivered(ticks[..|ticks| - 1]) + Chunk(ticks[|ticks| - 1])
  }

  lemma StepWrites(cfg: Config, st: State, t: Tick)
    ensures Writes(Step(cfg, st, t).events) == Writes(st.events) + Chunk(t)
  {
    var r := ReceivePhase(st, t);
    ReceivePhaseWrites(st, t);
    if r.exit.None? {
      LocalPhaseWrites(cfg, r, t);
    }
  }

  lemma ReceivePhaseWrites(st: State, t: Tick)
    ensures Writes(ReceivePhase(st, t).events) == Writes(st.events) + Chunk(t)
  {
    if Chunk(t) != [] {
      WritesAppend(st.events, [Wrote(t.recv.value.value)]);
      assert [Wrote(t.recv.value.value)][1..] == [];
    } else {
      assert ReceivePhase(st, t).events == st.events;
    }
  }

  /** The stdin half writes nothing to stdout. */
  lemma LocalPhaseWrites(cfg: Config, st: State, t: Tick)
    ensures Writes(LocalPhase(cfg, st, t).events) == Writes(st.events)
  {
    var l := LocalPhase(cfg, st, t);
    if st.eofAt.None? {
      var added := l.events[|st.events|..];
      assert l.events == st.events + added;
      assert |added| <= 2;
      assert forall i :: 0 <= i < |added| ==> !added[i].Wrote?;
      WritesAppend(st.events, added);
      NoWrites(added);
    } else {
      assert l.events == st.events;
    }
  }

  lemma {:induction false} NoWrites(events: seq<Event>)
    requires forall i :: 0 <= i < |events| ==> !events[i].Wrote?
    ensures Writes(events) == []
    decreases |events|
  {
    if |events| > 0 {
      NoWrites(events[1..]);
    }
  }

  /**
   * Everything written to stdout is exactly the data received on the ticks the loop ran, in
   * arrival order: a chunk whose write failed is the last thing the loop touched.
   */
  lemma {:induction false} OutputInArrivalOrder(cfg: Config, ticks: seq<Tick>)
    ensures Run(cfg, ticks).consumed <= |ticks|
    ensures Writes(Run(cfg, ticks).events) == Delivered(ticks[..Run(cfg, ticks).consumed])
    decreases |ticks|
  {
    RunConsumed(cfg, ticks);
    if |ticks| > 0 {
      var init, last := ticks[..|ticks| - 1], ticks[|ticks| - 1];
      assert ticks == init + [last];
      OutputInArrivalOrder(cfg, init);
      RunConsumed(cfg, init);
      if Run(cfg, init).exit.Some? {
        OutputAfterStop(cfg, init, last);
      } else {
        OutputAfterStep(cfg, init, last);
      }
    }
  }

  /** A tick offered to a loop that has ended adds nothing to stdout. */
  lemma OutputAfterStop(cfg: Config, init: seq<Tick>, last: Tick)
    requires Run(cfg, init).exit.Some? && Run(cfg, init).consumed <= |init|
    requires Writes(Run(cfg, init).events) == Delivered(init[..Run(cfg, init).consumed])
    ensures Writes(Run(cfg, init + [last]).events) == Delivered((init + [last])[..Run(cfg, init + [last]).consumed])
  {
    RunSnoc(cfg, init, last);
    var c := Run(cfg, init).consumed;
    assert (init + [last])[..c] == init[..c];
  }

  /** A tick the running loop takes adds exactly what that tick delivers. */
  lemma OutputAfterStep(cfg: Config, init: seq<Tick>, last: Tick)
    requires Run(cfg, init).exit.None? && Run(cfg, init).consumed == |init|
    requires Writes(Run(cfg, init).events) == Delivered(init[..Run(cfg, init).consumed])
    ensures Writes(Run(cfg, init + [last]).events) == Delivered((init + [last])[..Run(cfg, init + [last]).consumed])
  {
    RunSnoc(cfg, init, last);
    StepWrites(cfg, Run(cfg, init), last);
    var ticks := init + [last];
    assert init[..|init|] == init;
    assert Run(cfg, ticks).consumed == |ticks|;
    assert ticks[..|ticks|] == ticks;
    assert ticks[..|ticks| - 1] == init;
  }

  // ---------------------------------------------------------------------------
  // The quit timer
  // ---------------------------------------------------------------------------

  /** With a negative q the timer never ends the loop. */
  lemma {:induction false} TimerDisabled(cfg: Config, ticks: seq<Tick>)
    requires cfg.q < 0
    ensures Run(cfg, ticks).exit != Some(QuitTimeout)
    decreases |ticks|
  {
    if |ticks| > 0 {
      TimerDisabled(cfg, ticks[..|ticks| - 1]);
    }
  }

  /** Every tick before position c that the loop spent after EOF was less than q seconds past the EOF time. */
  ghost predicate NotDueBefore(cfg: Config, ticks: seq<Tick>, c: nat)
    requires c <= |ticks|
  {
    forall j :: 0 <= j < c && Run(cfg, ticks[..j]).eofAt.Some? ==>
      ticks[j].now - Run(cfg, ticks[..j]).eofAt.value < cfg.q
  }

  lemma NotDueBeforeExtends(cfg: Config, ticks: seq<Tick>, n: nat, c: nat)
    requires c <= n <= |ticks| && NotDueBefore(cfg, ticks[..n], c)
    ensures NotDueBefore(cfg, ticks, c)
  {
    forall j | 0 <= j < c ensures ticks[..n][..j] == ticks[..j] && ticks[..n][j] == ticks[j] { }
  }

  /**
   * While the loop runs with q >= 0, every tick it has spent after EOF was less than q seconds
   * past the EOF time.
   */
  lemma {:induction false} TimerNotYetDue(cfg: Config, ticks: seq<Tick>)
    requires cfg.q >= 0 && Run(cfg, ticks).exit.None?
    ensures NotDueBefore(cfg, ticks, |ticks|)
    decreases |ticks|
  {
    if |ticks| > 0 {
      var n := |ticks| - 1;
      var init := ticks[..n];
      assert ticks == init + [ticks[n]];
      RunSnoc(cfg, init, ticks[n]);
      TimerNotYetDue(cfg, init);
      NotDueBeforeExtends(cfg, ticks, n, n);
      if Run(cfg, init).eofAt.Some? {
        TimerNotFired(cfg, Run(cfg, init), ticks[n]);
      }
      NotDueBeforeSnoc(cfg, ticks, n);
    }
  }

  lemma NotDueBeforeSnoc(cfg: Config, ticks: seq<Tick>, n: nat)
    requires n < |ticks| && NotDueBefore(cfg, ticks, n)
    requires Run(cfg, ticks[..n]).eofAt.Some? ==> ticks[n].now - Run(cfg, ticks[..n]).eofAt.value < cfg.q
    ensures NotDueBefore(cfg, ticks, n + 1)
  {
  }

  /** A step of a running loop after EOF that keeps it running was not yet q seconds late. */
  lemma TimerNotFired(cfg: Config, st: State, t: Tick)
    requires cfg.q >= 0 && st.exit.None? && st.eofAt.Some? && Step(cfg, st, t).exit.None?
    ensures t.now - st.eofAt.value < cfg.q
  {
    assert ReceivePhase(st, t).eofAt == st.eofAt && ReceivePhase(st, t).exit.None?;
  }

  /**
   * When the timer ends the loop, q >= 0, EOF was read on an earlier tick, the stopping tick is
   * at least q seconds past the EOF time, and every post-EOF tick before it was not: the loop
   * quits on the first late tick and never before.
   */
  lemma {:induction false} QuitTimeoutJustified(cfg: Config, ticks: seq<Tick>)
    requires Run(cfg, ticks).exit == Some(QuitTimeout)
    ensures var s := Run(cfg, ticks); var c := s.consumed;
      && cfg.q >= 0 && 1 <= c <= |ticks|
      && Run(cfg, ticks[..c - 1]).exit.None?
      && Run(cfg, ticks[..c - 1]).eofAt.Some? && s.eofAt == Run(cfg, ticks[..c - 1]).eofAt
      && ticks[c - 1].now - s.eofAt.value >= cfg.q
      && NotDueBefore(cfg, ticks, c - 1)
    decreases |ticks|
  {
    RunConsumed(cfg, ticks);
    var n := |ticks| - 1;
    var init := ticks[..n];
    if Run(cfg, init).exit.Some? {
      QuitTimeoutJustified(cfg, init);
      var c := Run(cfg, init).consumed;
      assert init[..c - 1] == ticks[..c - 1] && init[c - 1] == ticks[c - 1];
      NotDueBeforeExtends(cfg, ticks, n, c - 1);
    } else {
      RunConsumed(cfg, init);
      TimerStops(cfg, Run(cfg, init), ticks[n]);
      TimerNotYetDue(cfg, init);
      NotDueBeforeExtends(cfg, ticks, n, n);
    }
  }

  /** A step of a running loop quits by the timer only after EOF, with q >= 0 and the timer due. */
  lemma TimerStops(cfg: Config, st: State, t: Tick)
    requires st.exit.None? && Step(cfg, st, t).exit == Some(QuitTimeout)
    ensures cfg.q >= 0 && st.eofAt.Some? && t.now - st.eofAt.value >= cfg.q
    ensures Step(cfg, st, t).eofAt == st.eofAt
  {
    assert ReceivePhase(st, t).eofAt == st.eofAt && ReceivePhase(st, t).exit.None?;
  }

  /** A tick whose receive lets the loop go on to its stdin/timer half. */
  predicate ReceiveContinues(t: Tick) {
    t.recv == Returned(None) || (t.recv.Returned? && t.recv.value.Some? && t.recv.value.value != [] && !t.writeFails)
  }

  /** After EOF, a tick that gets past its receive ends the loop by the timer exactly when q >= 0 and it is q seconds late. */
  lemma QuitTimerStep(cfg: Config, ticks: seq<Tick>, t: Tick)
    requires Run(cfg, ticks).exit.None? && Run(cfg, ticks).eofAt.Some? && ReceiveContinues(t)
    ensures var due := cfg.q >= 0 && t.now - Run(cfg, ticks).eofAt.value >= cfg.q;
      && (Run(cfg, ticks + [t]).exit == Some(QuitTimeout) <==> due)
      && (Run(cfg, ticks + [t]).exit.None? <==> !due)
  {
    assert (ticks + [t])[..|ticks|] == ticks;
  }

  /**
   * After EOF the loop keeps running through any number of ticks on which the peer sends
   * nothing (or data that is written) while the timer is disabled or not yet due.
   */
  lemma {:induction false} IdleKeepsRunning(cfg: Config, ticks: seq<Tick>, idle: seq<Tick>)
    requires Run(cfg, ticks).exit.None? && Run(cfg, ticks).eofAt.Some?
    requires forall i :: 0 <= i < |idle| ==> ReceiveContinues(idle[i])
    requires forall i :: 0 <= i < |idle| ==> cfg.q < 0 || idle[i].now - Run(cfg, ticks).eofAt.value < cfg.q
    ensures Run(cfg, ticks + idle).exit.None?
    ensures Run(cfg, ticks + idle).eofAt == Run(cfg, ticks).eofAt
    decreases |idle|
  {
    if |idle| == 0 {
      assert ticks + idle == ticks;
    } else {
      var init := idle[..|idle| - 1];
      IdleKeepsRunning(cfg, ticks, init);
      assert (ticks + idle)[..|ticks + idle| - 1] == ticks + init;
      assert (ticks + idle)[|ticks + idle| - 1] == idle[|idle| - 1];
    }
  }

  // ---------------------------------------------------------------------------
  // One tick's receive outcome, and the best-effort shutdown
  // ---------------------------------------------------------------------------

  /**
   * What the receive does to a running loop: `b''` ends it (peer closed), a StopNetcat ends it,
   * data with a failing stdout write ends it, none of them by an escaping exception; `None`
   * goes on to the stdin read (or the timer after EOF).
   */
  lemma ReceiveOutcome(cfg: Config, ticks: seq<Tick>, t: Tick)
    requires Run(cfg, ticks).exit.None?
    ensures var prev := Run(cfg, ticks); var s := Run(cfg, ticks + [t]);
      && (t.recv == Returned(Some([])) ==> s.exit == Some(PeerClosed) && s.events == prev.events)
      && (t.recv == RaisedStop ==> s.exit == Some(StopRequested) && s.events == prev.events)
      && (t.recv.Returned? && t.recv.value.Some? && t.recv.value.value != [] && t.writeFails ==>
            s.exit == Some(OutputFailed) && s.events == prev.events)
      && (t.recv == Returned(None) && prev.eofAt.None? ==>
            |s.events| > |prev.events| && s.events[|prev.events|] == ReadStdin(t.stdin))
      && (t.recv == Returned(None) ==> s.exit != Some(PeerClosed) && s.exit != Some(OutputFailed))
  {
    RunSnoc(cfg, ticks, t);
    ReceiveStep(cfg, Run(cfg, ticks), t);
  }

  lemma ReceiveStep(cfg: Config, prev: State, t: Tick)
    requires prev.exit.None?
    ensures var s := Step(cfg, prev, t);
      && (t.recv == Returned(Some([])) ==> s.exit == Some(PeerClosed) && s.events == prev.events)
      && (t.recv == RaisedStop ==> s.exit == Some(StopRequested) && s.events == prev.events)
      && (t.recv.Returned? && t.recv.value.Some? && t.recv.value.value != [] && t.writeFails ==>
            s.exit == Some(OutputFailed) && s.events == prev.events)
      && (t.recv == Returned(None) && prev.eofAt.None? ==>
            |s.events| > |prev.events| && s.events[|prev.events|] == ReadStdin(t.stdin))
      && (t.recv == Returned(None) ==> s.exit != Some(PeerClosed) && s.exit != Some(OutputFailed))
  {
    if t.recv == Returned(None) {
      assert ReceivePhase(prev, t) == prev;
      var l := LocalPhase(cfg, prev, t);
      if prev.eofAt.None? {
        assert l.events[..|prev.events| + 1] == prev.events + [ReadStdin(t.stdin)];
      }
    }
  }

  /** The stdout write a tick's receive makes when the loop goes on past it. */
  function WriteOf(t: Tick): seq<Event>
    requires ReceiveContinues(t)
  {
    if t.recv == Returned(None) then [] else [Wrote(t.recv.value.value)]
  }

  /**
   * What the stdin read does before EOF, once the receive has let the loop go on: a StopNetcat
   * (as a command's output raises when the command ends) ends the loop as a stop request,
   * without the exception leaving readwrite; an OSError from the read or a failing send
   * escapes; nothing ready reads again on the next tick; data is sent.
   */
  lemma StdinOutcome(cfg: Config, ticks: seq<Tick>, t: Tick)
    requires Run(cfg, ticks).exit.None? && Run(cfg, ticks).eofAt.None? && ReceiveContinues(t)
    ensures var prev := Run(cfg, ticks); var s := Run(cfg, ticks + [t]);
      var read := prev.events + WriteOf(t) + [ReadStdin(t.stdin)];
      && (t.stdin == RaisedStop ==> s.exit == Some(StopRequested) && s.events == read)
      && (t.stdin == RaisedOsError ==> s.exit == Some(Raised) && s.events == read)
      && (t.stdin == Returned(None) ==> s.exit.None? && s.eofAt.None? && s.events == read)
      && (t.stdin.Returned? && t.stdin.value.Some? && t.stdin.value.value != [] ==>
            if t.sendFails then s.exit == Some(Raised) && s.events == read
            else s.exit.None? && s.eofAt.None? && s.events == read + [Sent(t.stdin.value.value)])
  {
    RunSnoc(cfg, ticks, t);
    var prev := Run(cfg, ticks);
    assert ReceivePhase(prev, t) == prev.(events := prev.events + WriteOf(t));
  }

  lemma RunSnoc(cfg: Config, ticks: seq<Tick>, t: Tick)
    ensures Run(cfg, ticks + [t]) == if Run(cfg, ticks).exit.Some? then Run(cfg, ticks) else Step(cfg, Run(cfg, ticks), t)
  {
    assert (ticks + [t])[..|ticks|] == ticks;
  }

  /** Whether the shutdown on EOF fails makes no difference to how the loop goes on. */
  lemma ShutdownErrorIgnored(cfg: Config, ticks: seq<Tick>, t: Tick)
    requires Run(cfg, ticks).exit.None?
    ensures var u := t.(shutdownFails := !t.shutdownFails);
      Run(cfg, ticks + [t]).exit == Run(cfg, ticks + [u]).exit &&
      Run(cfg, ticks + [t]).eofAt == Run(cfg, ticks + [u]).eofAt
    ensures Run(cfg, ticks).eofAt.None? && ReceiveContinues(t) && t.stdin == Returned(Some([])) ==>
      Run(cfg, ticks + [t]).exit.None? && Run(cfg, ticks + [t]).eofAt == Some(t.now as int)
  {
    var u := t.(shutdownFails := !t.shutdownFails);
    RunSnoc(cfg, ticks, t);
    RunSnoc(cfg, ticks, u);
    StepIgnoresShutdownFailure(cfg, Run(cfg, ticks), t);
  }

  lemma StepIgnoresShutdownFailure(cfg: Config, st: State, t: Tick)
    requires st.exit.None?
    ensures var u := t.(shutdownFails := !t.shutdownFails);
      Step(cfg, st, t).exit == Step(cfg, st, u).exit && Step(cfg, st, t).eofAt == Step(cfg, st, u).eofAt
    ensures st.eofAt.None? && ReceiveContinues(t) && t.stdin == Returned(Some([])) ==>
      Step(cfg, st, t).exit.None? && Step(cfg, st, t).eofAt == Some(t.now as int)
  {
    var u := t.(shutdownFails := !t.shutdownFails);
    assert ReceivePhase(st, t) == ReceivePhase(st, u);
  }
}
