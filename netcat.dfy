/**
 * `Netcat.__init__` (src/pync/nc.py): the parsed command-line options pick one of four
 * variants, TCP or UDP, client or server, and decide which options each variant receives.
 */
module Netcat {
  import opened Wrappers
  import opened PortSpec
  import opened Pump

  /** The options `Netcat.__init__` takes (`e` and `v` are passed through and not modelled). */
  datatype Options = Options(
    port: PortArg,
    dest: string,
    k: bool,     // keep a server listening after its first client
    l: bool,     // listen mode
    N: bool,     // shut down the socket's write half on stdin EOF
    q: int,      // quit this many seconds after stdin EOF; negative: never
    z: bool,     // zero-I/O mode: connect, then close
    u: bool)     // UDP instead of TCP

  /** The object `Netcat` delegates to, with the options it is built with and the session settings its connections get. */
  datatype Variant =
    | TcpConnect(dest: string, port: PortArg, z: bool, session: Config)
    | UdpConnect(dest: string, port: PortArg, z: bool, session: Config)
    | TcpListen(port: PortArg, dest: string, k: bool, session: Config)
    | UdpListen(port: PortArg, dest: string, k: bool, session: Config)

  predicate IsServer(v: Variant) {
    v.TcpListen? || v.UdpListen?
  }

  predicate IsUdp(v: Variant) {
    v.UdpConnect? || v.UdpListen?
  }

  /**
   * The connection settings as the source builds them: `N` is a named parameter of
   * `Netcat.__init__` that is passed to no variant, so every connection falls back to its
   * default of no shutdown.
   */
  function SessionConfigAsWritten(o: Options): (c: Config)
  {
    Config(false, o.q)
  }

  /** The connection settings as intended: both `N` and `q` reach the connections. */
  function SessionConfig(o: Options): (c: Config)
  {
    Config(o.N, o.q)
  }

  /**
   * `-l` selects a server and `-u` selects UDP; servers get `k`, clients get `z`; every
   * variant gets the port argument, the destination and the session settings.
   */
  function Dispatch(o: Options): (v: Variant)
    ensures IsServer(v) <==> o.l
    ensures IsUdp(v) <==> o.u
    ensures v.port == o.port && v.dest == o.dest && v.session == SessionConfig(o)
    ensures IsServer(v) ==> v.k == o.k
    ensures !IsServer(v) ==> v.z == o.z
  {
    var session := SessionConfig(o);
    if o.l then
      if o.u then UdpListen(o.port, o.dest, o.k, session)
      else TcpListen(o.port, o.dest, o.k, session)
    else
      if o.u then UdpConnect(o.dest, o.port, o.z, session)
      else TcpConnect(o.dest, o.port, o.z, session)
  }

  /** `z` makes no difference to a server and `k` none to a client. */
  lemma FlagsOnlyWhereTheyApply(o: Options, flag: bool)
    ensures o.l ==> Dispatch(o.(z := flag)) == Dispatch(o)
    ensures !o.l ==> Dispatch(o.(k := flag)) == Dispatch(o)
  {
  }

  /** No session started from the command line ever shuts down its write half, whatever its input. */
  lemma NeverShutsDownAsWritten(o: Options, ticks: seq<Tick>)
    ensures ShutdownCount(Run(SessionConfigAsWritten(o), ticks).events) == 0
  {
    RunKeepsDiscipline(SessionConfigAsWritten(o), ticks);
  }

  /** A tick on which the peer is quiet and stdin reports EOF. */
  const EofTick: Tick := Tick(Returned(None), false, Returned(Some([])), false, false, 1)

  /** With `-N` given and stdin at EOF on the first tick, the source never shuts down; the intended settings shut down once. */
  lemma ShutdownLostOnEof(o: Options)
    requires o.N
    ensures Run(SessionConfigAsWritten(o), [EofTick]).eofAt.Some?
    ensures ShutdownCount(Run(SessionConfigAsWritten(o), [EofTick]).events) == 0
    ensures ShutdownCount(Run(SessionConfig(o), [EofTick]).events) == 1
  {
    assert [EofTick][..0] == [];
    RunKeepsDiscipline(SessionConfigAsWritten(o), [EofTick]);
    RunKeepsDiscipline(SessionConfig(o), [EofTick]);
  }

  /** With the intended settings a session shuts down its write half once exactly when `-N` is given and stdin reached EOF. */
  lemma ShutdownFollowsFlag(o: Options, ticks: seq<Tick>)
    ensures ShutdownCount(Run(Dispatch(o).session, ticks).events)
         == if o.N && Run(Dispatch(o).session, ticks).eofAt.Some? then 1 else 0
  {
    RunKeepsDiscipline(Dispatch(o).session, ticks);
  }
}
