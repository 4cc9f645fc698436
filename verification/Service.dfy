/**
 The whole daemon as one run: start events, commands, iterations of its loop and everything its clients'
 writers do, in any order. What reaches a client is judged against this run alone.
 */
module Service {
  import opened Words
  import opened Names
  import opened StatsTypes
  import opened Codec
  import opened Layout
  import opened Framing
  import opened Delivery
  import opened Collector
  import B = Broadcast
  import D = Daemon
  import R = CollectorRuns

  /** The collector's calls, the clock's inputs, the network's events, and the snapshots published. */
  datatype State = State(trace: R.Trace, log: D.Log, wire: seq<B.Event>, msgs: seq<SnapshotData>, stopped: bool)

  datatype Move =
    | Start(pid: u32, name: Name)
    | Command(cmd: DaemonCommand)
    | Tick(input: R.Input, snapshot: SnapshotData)
    | Client(event: B.Event)
    | Panic

  datatype Run = Boot | Then(past: Run, move: Move, state: State)

  function Now(run: Run): State {
    match run case Boot => State(R.Begin, D.Boot, [], [], false) case Then(_, _, s) => s
  }

  /** The collector took one call. */
  ghost predicate Called(t: R.Trace, input: R.Input, d: R.Trace) {
    d.Then? && d.past == t && d.input == input && R.Next(R.StateOf(t), input, d.state)
  }

  /** What an iteration publishes: the clock after its tick, the rows it collected, the dead list as it stands. */
  ghost predicate Describes(snapshot: SnapshotData, log: D.Log, t: R.Trace) {
    && D.Allowed(log)
    && snapshot.interval == D.TimeAfter(log).interval && snapshot.tick == D.TimeAfter(log).tick
    && t.Then? && t.input.Collect? && snapshot.rows == t.input.rows && snapshot.deadProcs == t.state.dead
  }

  /**
   One move. A snapshot that fits a frame is broadcast as that frame; one that does not ends the daemon's
   loop. So does a panic in a connection that holds the lock: the loop finds it poisoned. After that
   nothing is applied or published any more.
   */
  ghost predicate Moves(c: Codec<SnapshotData>, s: State, m: Move, d: State) {
    match m
    case Start(pid, name) => !s.stopped && Called(s.trace, R.Started(pid, name), d.trace) && d == s.(trace := d.trace)
    case Command(cmd) =>
      && !s.stopped && !cmd.Run?
      && (if cmd.Reset? then Called(s.trace, R.ResetAll, d.trace) else d.trace == s.trace)
      && d == s.(trace := d.trace, log := D.Then(s.log, D.Command(cmd)))
    case Tick(input, snapshot) =>
      && !s.stopped && input.Collect? && Called(s.trace, input, d.trace)
      && Describes(snapshot, D.Then(s.log, D.Iteration), d.trace)
      && d == (if Fits(c, snapshot)
               then State(d.trace, D.Then(s.log, D.Iteration), s.wire + [B.Publish(Frame(c, snapshot))],
                          s.msgs + [snapshot], false)
               else s.(trace := d.trace, log := D.Then(s.log, D.Iteration), stopped := true))
    case Client(e) => !e.Publish? && d == s.(wire := s.wire + [e])
    case Panic => d == s.(stopped := true)
  }

  ghost predicate Legal(c: Codec<SnapshotData>, run: Run) {
    run.Then? ==> Legal(c, run.past) && Moves(c, Now(run.past), run.move, run.state)
  }

  // What every run keeps

  lemma ExecMore(wire: seq<B.Event>, e: B.Event)
    ensures B.Exec(wire + [e]) == B.Step(B.Exec(wire), e)
  {
    assert (wire + [e])[..|wire|] == wire;
  }

  lemma CarriesOne<T>(c: Codec<T>, packets: seq<B.Packet>, msgs: seq<T>, x: T)
    requires Carries(c, packets, msgs) && Fits(c, x)
    ensures Carries(c, packets + [Frame(c, x)], msgs + [x])
  {
  }

  /** Each broadcast is the frame of one snapshot, snapshot `i` made by iteration `i`. */
  ghost predicate Faithful(c: Codec<SnapshotData>, s: State) {
    && R.Legal(s.trace)
    && Carries(c, B.Exec(s.wire).published, s.msgs)
    && FromRun(s.msgs, s.log)
    && (!s.stopped ==> |s.msgs| == |D.Published(s.log)|)
  }

  lemma TickFromRun(msgs: seq<SnapshotData>, log: D.Log, snapshot: SnapshotData, t: R.Trace)
    requires FromRun(msgs, log) && |msgs| == |D.Published(log)| && Describes(snapshot, D.Then(log, D.Iteration), t)
    ensures FromRun(msgs, D.Then(log, D.Iteration))
    ensures FromRun(msgs + [snapshot], D.Then(log, D.Iteration))
  {
  }

  lemma TickFaithful(c: Codec<SnapshotData>, s: State, input: R.Input, snapshot: SnapshotData, d: State)
    requires Faithful(c, s) && Moves(c, s, Tick(input, snapshot), d)
    ensures Faithful(c, d)
  {
    TickFromRun(s.msgs, s.log, snapshot, d.trace);
    CallIsLegal(s.trace, input, d.trace);
    if Fits(c, snapshot) {
      TickCarries(c, s.wire, s.msgs, snapshot);
    }
  }

  lemma TickCarries(c: Codec<SnapshotData>, wire: seq<B.Event>, msgs: seq<SnapshotData>, snapshot: SnapshotData)
    requires Carries(c, B.Exec(wire).published, msgs) && Fits(c, snapshot)
    ensures Carries(c, B.Exec(wire + [B.Publish(Frame(c, snapshot))]).published, msgs + [snapshot])
  {
    ExecMore(wire, B.Publish(Frame(c, snapshot)));
    CarriesOne(c, B.Exec(wire).published, msgs, snapshot);
  }

  lemma CommandFromRun(msgs: seq<SnapshotData>, log: D.Log, cmd: DaemonCommand)
    requires FromRun(msgs, log) && !cmd.Run?
    ensures FromRun(msgs, D.Then(log, D.Command(cmd)))
    ensures D.Published(D.Then(log, D.Command(cmd))) == D.Published(log)
  {
  }

  lemma CallIsLegal(t: R.Trace, input: R.Input, d: R.Trace)
    requires R.Legal(t) && Called(t, input, d)
    ensures R.Legal(d)
  {
  }

  lemma CommandFaithful(c: Codec<SnapshotData>, s: State, cmd: DaemonCommand, d: State)
    requires Faithful(c, s) && Moves(c, s, Command(cmd), d)
    ensures Faithful(c, d)
  {
    CommandFromRun(s.msgs, s.log, cmd);
    if cmd.Reset? {
      CallIsLegal(s.trace, R.ResetAll, d.trace);
    }
  }

  lemma ClientFaithful(c: Codec<SnapshotData>, s: State, e: B.Event, d: State)
    requires Faithful(c, s) && Moves(c, s, Client(e), d)
    ensures Faithful(c, d)
  {
    ExecMore(s.wire, e);
  }

  lemma MoveFaithful(c: Codec<SnapshotData>, s: State, m: Move, d: State)
    requires Faithful(c, s) && Moves(c, s, m, d)
    ensures Faithful(c, d)
  {
    match m
    case Start(pid, name) => CallIsLegal(s.trace, R.Started(pid, name), d.trace);
    case Command(cmd) => CommandFaithful(c, s, cmd, d);
    case Tick(input, snapshot) => TickFaithful(c, s, input, snapshot, d);
    case Client(e) => ClientFaithful(c, s, e, d);
    case Panic =>
  }

  lemma {:induction false} RunsAreFaithful(c: Codec<SnapshotData>, run: Run)
    requires Legal(c, run)
    ensures Faithful(c, Now(run))
  {
    if run.Then? {
      RunsAreFaithful(c, run.past);
      MoveFaithful(c, Now(run.past), run.move, run.state);
    }
  }

  /**
   What a snapshot says is how things stand when it is published: a row for every process then tracked, under the
   name of its last start event, the newest twenty deaths since the last reset, and the clock.
   */
  lemma PublishedIsCurrent(c: Codec<SnapshotData>, run: Run)
    requires Legal(c, run) && run.Then? && |Now(run).msgs| > |Now(run.past).msgs|
    ensures var s := Now(run);
            s.msgs[..|s.msgs| - 1] == Now(run.past).msgs && Current(s.msgs[|s.msgs| - 1], s.trace, s.log)
  {
    var s, past := Now(run), Now(run.past);
    assert Moves(c, past, run.move, s);
    RunsAreFaithful(c, run);
    R.HistoryExact(s.trace);
    D.ClockOverRuns(s.log);
    forall i | 0 <= i < |s.trace.input.rows|
      ensures s.trace.input.rows[i].name == LowerBytes(R.LastName(s.trace, s.trace.input.rows[i].pid))
    {
      R.RowsAreNamed(s.trace, i);
    }
    forall pid ensures Row(s.trace.input.rows, pid) <==> R.ShouldTrack(s.trace, pid) {
      RowsAreTracked(s.trace, pid);
    }
  }

  ghost predicate Row(rows: seq<StatsRow>, pid: u32) {
    exists i :: 0 <= i < |rows| && rows[i].pid == pid
  }

  ghost predicate Current(m: SnapshotData, t: R.Trace, log: D.Log) {
    && (forall pid :: Row(m.rows, pid) <==> R.ShouldTrack(t, pid))
    && (forall i :: 0 <= i < |m.rows| ==> m.rows[i].name == LowerBytes(R.LastName(t, m.rows[i].pid)))
    && NewestOf(m.deadProcs, R.Deaths(t))
    && m.tick == D.Iterations(log) % U64_LIMIT
    && D.Allowed(log) && m.interval == D.TimeAfter(log).interval
  }

  lemma RowsAreTracked(t: R.Trace, pid: u32)
    requires R.Legal(t) && t.Then? && t.input.Collect?
    ensures Row(t.input.rows, pid) <==> R.ShouldTrack(t, pid)
  {
    R.HistoryExact(t);
    var rows, procs := t.input.rows, t.state.procs;
    assert |rows| == |procs| && forall i :: 0 <= i < |rows| ==> rows[i].pid == procs[i].pid;
    if R.ShouldTrack(t, pid) {
      var i :| 0 <= i < |procs| && procs[i].pid == pid;
      assert rows[i].pid == pid;
    }
  }

  // Which moves publish

  /** A snapshot was published, with the rows of a collect. */
  ghost predicate Published(s: State, d: State) {
    && d.trace.Then? && d.trace.past == s.trace && d.trace.input.Collect? && !d.stopped
    && |d.msgs| == |s.msgs| + 1 && d.msgs[..|s.msgs|] == s.msgs
    && d.msgs[|s.msgs|].rows == d.trace.input.rows
  }

  /** None was: no collect, or one too large to send. */
  ghost predicate Silent(s: State, d: State) {
    d.msgs == s.msgs && (d.stopped || d.trace == s.trace || (d.trace.Then? && !d.trace.input.Collect?))
  }

  lemma PublishedOrSilent(c: Codec<SnapshotData>, s: State, m: Move, d: State)
    requires Moves(c, s, m, d)
    ensures Published(s, d) || Silent(s, d)
    ensures s.stopped ==> d.stopped
  {
  }

  // What a client sees of a run

  ghost function ClientOf(run: Run, id: B.ClientId): B.Client
    requires id in B.Exec(Now(run).wire).clients
  {
    B.Exec(Now(run).wire).clients[id]
  }

  /** What a client decodes from the first `k` bytes on its socket. */
  ghost function Decoded(run: Run, id: B.ClientId, k: nat): seq<SnapshotData>
    requires id in B.Exec(Now(run).wire).clients && k <= |ClientOf(run, id).written|
  {
    ReadAll(SNAPSHOT, ClientOf(run, id).written[..k]).0
  }

  lemma DecodedAreReceived(run: Run, id: B.ClientId, k: nat)
    requires Legal(SNAPSHOT, run)
    requires id in B.Exec(Now(run).wire).clients && k <= |ClientOf(run, id).written|
    ensures Received(Now(run).msgs, ClientOf(run, id).since, ClientOf(run, id).taken, Decoded(run, id, k))
  {
    RunsAreFaithful(SNAPSHOT, run);
    SnapshotExact();
    var s, cl := Now(run), ClientOf(run, id);
    var n := ClientDecodes(SNAPSHOT, s.wire, s.msgs, id, k);
    PickedAreReceived(s.msgs, cl.since, cl.taken, n);
  }

  /**
   In every run of the daemon, whatever was dropped, cut or evicted: the snapshots a client decodes from
   any prefix of its bytes are published ones, in order, none from before it registered; their intervals
   are in range, their ticks are at least 1, and of two with no reset between them the later has the
   larger tick (in a daemon that has looped fewer than 2^64 times).
   */
  lemma DecodedTicksIncrease(run: Run, id: B.ClientId, k: nat)
    requires Legal(SNAPSHOT, run) && |D.Published(Now(run).log)| < U64_LIMIT
    requires id in B.Exec(Now(run).wire).clients && k <= |ClientOf(run, id).written|
    ensures Received(Now(run).msgs, ClientOf(run, id).since, ClientOf(run, id).taken, Decoded(run, id, k))
    ensures ClockIsTrue(Now(run).log, ClientOf(run, id).taken, Decoded(run, id, k))
  {
    DecodedAreReceived(run, id, k);
    RunsAreFaithful(SNAPSHOT, run);
    ReceivedClock(Now(run).msgs, Now(run).log, ClientOf(run, id).since, ClientOf(run, id).taken, Decoded(run, id, k));
  }
}
