/**
 The daemon's loop (`procnetd/src/app.rs`) and what runs beside it: drain, apply, collect, advance, frame,
 broadcast, with commands and clients in between. Every call is a move of the run in `Service`.
 */
module App {
  import opened Words
  import opened Names
  import opened StatsTypes
  import opened Codec
  import opened Collector
  import opened Framing
  import opened Reader
  import opened Daemon
  import opened Handover
  import opened Server
  import B = Broadcast
  import R = CollectorRuns
  import S = Service

  datatype ProcStart = ProcStart(pid: u32, name: Name)

  /** Values below `n` that are all different are at most `n`. */
  lemma {:induction false} Pigeonhole(s: seq<nat>, n: nat)
    requires NoDuplicates(s) && forall i :: 0 <= i < |s| ==> s[i] < n
    ensures |s| <= n
    decreases n
  {
    if s != [] {
      if n - 1 in s {
        var k :| 0 <= k < |s| && s[k] == n - 1;
        var t := Without(s, k);
        assert forall i :: 0 <= i < |t| ==> t[i] == if i < k then s[i] else s[i + 1];
        Pigeonhole(t, n - 1);
      } else {
        Pigeonhole(s, n - 1);
      }
    }
  }

  /** The tracked list is bounded by the number of PIDs, so its length fits the wire's 64-bit count. */
  lemma TrackedIsVec(procs: seq<ProcInfo>)
    requires DistinctPids(procs)
    ensures |procs| <= U64_MAX
  {
    var pids: seq<nat> := seq(|procs|, i requires 0 <= i < |procs| => procs[i].pid);
    Pigeonhole(pids, 0x1_0000_0000);
  }

  // The objects, against the run they are in

  ghost predicate HeldIs(run: S.Run, h: Held) {
    && Allowed(S.Now(run).log) && TimeAfter(S.Now(run).log) == h.time
    && R.StateOf(S.Now(run).trace) == R.State(h.procs, h.dead)
  }

  /** The run is legal, and the daemon's state is where the run leaves it. */
  ghost predicate StateIs(c: Codec<SnapshotData>, run: S.Run, d: DaemonState)
    reads d, d.stats
  {
    S.Legal(c, run) && d.Valid() && HeldIs(run, HeldBy(d))
  }

  /** And so are its clients. */
  ghost predicate ClientsAre(run: S.Run, senders: SenderList)
    reads senders, senders.clients.Values
  {
    senders.Valid() && senders.net == B.Exec(S.Now(run).wire)
  }

  /** What the run's collects asked the map for, and what it answered, in order. */
  ghost function AskedIn(run: S.Run): seq<Call> {
    match run
    case Boot => []
    case Then(past, Tick(input, _), _) =>
      if !input.Collect? then AskedIn(past)
      else AskedIn(past) + Lookups(R.StateOf(S.Now(past).trace).procs, input.answers)
    case Then(past, _, _) => AskedIn(past)
  }

  // One iteration of the loop

  /** `after` is `run` with these start events added, in order. */
  ghost predicate StartsApplied(run: S.Run, events: seq<ProcStart>, after: S.Run)
    decreases |events|
  {
    if events == [] then after == run
    else
      var n := |events| - 1;
      after.Then? && after.move == S.Start(events[n].pid, events[n].name) && StartsApplied(run, events[..n], after.past)
  }

  lemma {:induction false} StartsAskNothing(run: S.Run, events: seq<ProcStart>, after: S.Run)
    requires StartsApplied(run, events, after)
    ensures AskedIn(after) == AskedIn(run)
    decreases |events|
  {
    if events != [] {
      StartsAskNothing(run, events[..|events| - 1], after.past);
    }
  }

  /** One start event is one move. */
  method ApplyOne(c: Codec<SnapshotData>, d: DaemonState, event: ProcStart, ghost run: S.Run)
    returns (ghost next: S.Run)
    requires StateIs(c, run, d) && !S.Now(run).stopped
    modifies d.stats
    ensures StateIs(c, next, d)
    ensures next.Then? && next.past == run && next.move == S.Start(event.pid, event.name)
    ensures S.Now(next) == S.Now(run).(trace := S.Now(next).trace)
  {
    ghost var s := S.Now(run);
    d.stats.ApplyEvent(event.pid, event.name);
    ghost var t := R.Then(s.trace, R.Started(event.pid, event.name), R.State(d.stats.procs, d.stats.deadProcs));
    next := S.Then(run, S.Start(event.pid, event.name), s.(trace := t));
  }

  method ApplyEvents(c: Codec<SnapshotData>, d: DaemonState, events: seq<ProcStart>, ghost run: S.Run)
    returns (ghost next: S.Run)
    requires StateIs(c, run, d) && !S.Now(run).stopped
    modifies d.stats
    ensures StateIs(c, next, d)
    ensures StartsApplied(run, events, next) && S.Now(next) == S.Now(run).(trace := S.Now(next).trace)
  {
    next := run;
    for i := 0 to |events|
      invariant StateIs(c, next, d)
      invariant StartsApplied(run, events[..i], next) && S.Now(next) == S.Now(run).(trace := S.Now(next).trace)
    {
      next := ApplyOne(c, d, events[i], next);
      assert events[..i + 1][..i] == events[..i];
    }
    assert events[..|events|] == events;
  }

  /**
   The scan of an iteration, in which every tracked PID was asked for once, with the clock moved on. The
   answers are those that the map gave.
   */
  method Sample(d: DaemonState, stats: LiveMap) returns (rows: seq<StatsRow>, ghost input: R.Input)
    requires d.Valid() && stats.Valid()
    modifies d`tick, d.stats, stats
    ensures d.Valid() && stats.Valid() && d.Time() == Ticked(old(d.Time()))
    ensures input.Collect? && input.rows == rows
    ensures stats.calls == old(stats.calls) + Lookups(old(d.stats.procs), input.answers)
    ensures AskedOnce(Lookups(old(d.stats.procs), input.answers), input.at, input.answers)
    ensures R.Next(old(R.State(d.stats.procs, d.stats.deadProcs)), input, R.State(d.stats.procs, d.stats.deadProcs))
    ensures |rows| <= U64_MAX
  {
    ghost var at, answers, kept, removed;
    rows, at, answers, kept, removed := d.stats.CollectRows(stats);
    input := R.Collect(answers, at, kept, removed, rows);
    TrackedIsVec(d.stats.procs);
    d.AdvanceTick();
  }

  /** The rest: the message goes out as one frame, or not at all. */
  method Send<T>(c: Codec<T>, msg: T, buf: ByteBuf, senders: SenderList) returns (sent: bool)
    requires senders.Valid()
    modifies buf, senders`senders, senders`net, senders.senders`queue
    ensures senders.Valid() && senders.clients == old(senders.clients)
    ensures sent <==> Fits(c, msg)
    ensures senders.net == if sent then B.Step(old(senders.net), B.Publish(Frame(c, msg))) else old(senders.net)
  {
    var w := WriteMsg(buf, c, msg);
    if w.Oversized? {
      return false;
    }
    senders.UpdateStreams(buf.bytes);
    return true;
  }

  /** The run after a tick, once the snapshot is sent or refused. */
  ghost function Ticking(c: Codec<SnapshotData>, run: S.Run, input: R.Input, after: R.State,
                         snapshot: SnapshotData): S.Run {
    var s := S.Now(run);
    var t, log := R.Then(s.trace, input, after), Log.Then(s.log, Iteration);
    S.Then(run, S.Tick(input, snapshot),
           if Fits(c, snapshot)
           then S.State(t, log, s.wire + [B.Publish(Frame(c, snapshot))], s.msgs + [snapshot], false)
           else s.(trace := t, log := log, stopped := true))
  }

  lemma TickingLegal(c: Codec<SnapshotData>, run: S.Run, input: R.Input, after: R.State, snapshot: SnapshotData)
    requires S.Legal(c, run) && !S.Now(run).stopped
    requires input.Collect? && R.Next(R.StateOf(S.Now(run).trace), input, after)
    requires Allowed(S.Now(run).log) && snapshot.rows == input.rows && snapshot.deadProcs == after.dead
    requires snapshot.interval == Ticked(TimeAfter(S.Now(run).log)).interval
    requires snapshot.tick == Ticked(TimeAfter(S.Now(run).log)).tick
    ensures S.Legal(c, Ticking(c, run, input, after, snapshot))
    ensures var d := S.Now(Ticking(c, run, input, after, snapshot));
            && R.StateOf(d.trace) == after && Allowed(d.log) && TimeAfter(d.log) == Ticked(TimeAfter(S.Now(run).log))
            && NetAfter(c, snapshot, B.Exec(S.Now(run).wire), B.Exec(d.wire))
  {
    S.ExecMore(S.Now(run).wire, B.Publish(Frame(c, snapshot)));
  }

  ghost predicate NetAfter(c: Codec<SnapshotData>, snapshot: SnapshotData, before: B.Net, after: B.Net) {
    after == if Fits(c, snapshot) then B.Step(before, B.Publish(Frame(c, snapshot))) else before
  }

  /** `next` is `run` with these start events and then a tick that made this snapshot. */
  ghost predicate Iterated(c: Codec<SnapshotData>, run: S.Run, events: seq<ProcStart>, snapshot: SnapshotData,
                           next: S.Run) {
    && next.Then? && next.move.Tick? && next.move.snapshot == snapshot && StartsApplied(run, events, next.past)
    && S.Now(next).stopped == !Fits(c, snapshot)
    && NetAfter(c, snapshot, B.Exec(S.Now(run).wire), B.Exec(S.Now(next).wire))
  }

  /**
   What the lock guards: all of a tick but the sending. The lookups are the run's, on top of those in
   `base`.
   */
  method Locked(c: Codec<SnapshotData>, d: DaemonState, events: seq<ProcStart>, stats: LiveMap, ghost base: seq<Call>,
                ghost run: S.Run)
    returns (snapshot: SnapshotData, ghost next: S.Run)
    requires StateIs(c, run, d) && !S.Now(run).stopped && stats.Valid() && stats.calls == base + AskedIn(run)
    modifies d`tick, d.stats, stats
    ensures StateIs(c, next, d) && stats.Valid() && stats.calls == base + AskedIn(next)
    ensures Iterated(c, run, events, snapshot, next)
  {
    ghost var mid := ApplyEvents(c, d, events, run);
    StartsAskNothing(run, events, mid);
    var rows;
    ghost var input;
    rows, input := Sample(d, stats);
    snapshot := SnapshotData(d.interval, d.tick, rows, d.stats.deadProcs);
    ghost var after := R.State(d.stats.procs, d.stats.deadProcs);
    next := Ticking(c, mid, input, after, snapshot);
    TickingLegal(c, mid, input, after, snapshot);
    AskedMore(base, mid, input, next);
  }

  lemma AskedMore(base: seq<Call>, mid: S.Run, input: R.Input, next: S.Run)
    requires next.Then? && next.past == mid && next.move.Tick? && next.move.input == input && input.Collect?
    ensures base + AskedIn(mid) + Lookups(R.StateOf(S.Now(mid).trace).procs, input.answers) == base + AskedIn(next)
  {
  }

  /**
   The loop body is the run's next tick, after its start events. The published snapshot carries the
   advanced tick, the rows just collected and the dead list as it stands; it goes to the senders as one
   frame. A snapshot too large for a frame stops the daemon instead, and then nothing is sent.
   */
  method Iterate(c: Codec<SnapshotData>, d: DaemonState, events: seq<ProcStart>, stats: LiveMap, buf: ByteBuf,
                 senders: SenderList, ghost base: seq<Call>, ghost run: S.Run)
    returns (stopped: bool, ghost snapshot: SnapshotData, ghost next: S.Run)
    requires StateIs(c, run, d) && ClientsAre(run, senders) && !S.Now(run).stopped
    requires stats.Valid() && stats.calls == base + AskedIn(run)
    modifies d`tick, d.stats, stats, buf, senders`senders, senders`net, senders.senders`queue
    ensures StateIs(c, next, d) && ClientsAre(next, senders) && senders.clients == old(senders.clients)
    ensures stats.Valid() && stats.calls == base + AskedIn(next)
    ensures Iterated(c, run, events, snapshot, next) && stopped == !Fits(c, snapshot)
  {
    var made;
    ghost var valid := senders.Valid();
    made, next := Locked(c, d, events, stats, base, run);
    assert senders.Valid() == valid;
    ghost var settled := stats.Valid();
    stopped := Publish(c, made, buf, senders, d, run, next);
    assert stats.Valid() == settled;
    snapshot := made;
  }

  /** The snapshot goes out, as the run after the tick has it. */
  method Publish(c: Codec<SnapshotData>, snapshot: SnapshotData, buf: ByteBuf, senders: SenderList,
                 ghost d: DaemonState, ghost run: S.Run, ghost next: S.Run)
    returns (stopped: bool)
    requires d.Valid() && ClientsAre(run, senders)
    requires NetAfter(c, snapshot, B.Exec(S.Now(run).wire), B.Exec(S.Now(next).wire))
    modifies buf, senders`senders, senders`net, senders.senders`queue
    ensures d.Valid() && HeldBy(d) == old(HeldBy(d))
    ensures ClientsAre(next, senders) && senders.clients == old(senders.clients)
    ensures stopped == !Fits(c, snapshot)
  {
    var sent := Send(c, snapshot, buf, senders);
    stopped := !sent;
  }

  // The daemon under an arbitrary schedule

  /**
   What may happen next: the first command of a new connection, a later command that a connection's loop
   hands to the daemon, an iteration of the daemon's loop, or a step of some client's writer.
   */
  datatype Job =
    | Accept(first: DaemonCommand, id: B.ClientId)
    | Obey(cmd: DaemonCommand)
    | Loop(events: seq<ProcStart>)
    | Attend(event: B.Event)

  /**
   What a job makes of a run: its own move, or nothing when the daemon has stopped. A connection becomes a
   client's by saying `Run` first; a later `Run` panics. Only the loop broadcasts.
   */
  ghost predicate Did(run: S.Run, job: Job, next: S.Run) {
    match job
    case Obey(cmd) =>
      if S.Now(run).stopped then next == run
      else next.Then? && next.past == run && next.move == if cmd.Run? then S.Panic else S.Command(cmd)
    case Accept(first, id) =>
      if first.Run? then next.Then? && next.past == run && next.move == S.Client(B.Register(id))
      else if S.Now(run).stopped then next == run
      else next.Then? && next.past == run && next.move == S.Command(first)
    case Loop(events) =>
      if S.Now(run).stopped then next == run
      else next.Then? && next.move.Tick? && StartsApplied(run, events, next.past)
    case Attend(e) =>
      if e.Publish? || e.Register? then next == run else next.Then? && next.past == run && next.move == S.Client(e)
  }

  /** The run does these jobs and no others, in this order. */
  ghost predicate Performed(jobs: seq<Job>, run: S.Run)
    decreases |jobs|
  {
    if jobs == [] then run == S.Boot
    else exists past {:trigger Did(past, jobs[|jobs| - 1], run)} ::
           Performed(jobs[..|jobs| - 1], past) && Did(past, jobs[|jobs| - 1], run)
  }

  lemma PerformedMore(jobs: seq<Job>, i: nat, run: S.Run, next: S.Run)
    requires i < |jobs| && Performed(jobs[..i], run) && Did(run, jobs[i], next)
    ensures Performed(jobs[..i + 1], next)
  {
    var more := jobs[..i + 1];
    assert more[..|more| - 1] == jobs[..i] && more[|more| - 1] == jobs[i];
    assert Did(run, more[|more| - 1], next);
  }

  /** A command is one move. */
  method Command(c: Codec<SnapshotData>, d: DaemonState, cmd: DaemonCommand, ghost run: S.Run)
    returns (ghost next: S.Run)
    requires StateIs(c, run, d) && !S.Now(run).stopped && !cmd.Run?
    modifies d, d.stats
    ensures StateIs(c, next, d)
    ensures next.Then? && next.past == run && next.move == S.Command(cmd)
    ensures S.Now(next).wire == S.Now(run).wire && !S.Now(next).stopped
  {
    ghost var s := S.Now(run);
    d.Update(cmd);
    ghost var after := R.State(d.stats.procs, d.stats.deadProcs);
    ghost var t := if cmd.Reset? then R.Then(s.trace, R.ResetAll, after) else s.trace;
    next := S.Then(run, S.Command(cmd), s.(trace := t, log := Log.Then(s.log, Input.Command(cmd))));
  }

  /** A job that a connection does; `stopped` is whether the daemon goes down with it. */
  method DoObey(c: Codec<SnapshotData>, d: DaemonState, cmd: DaemonCommand, stopped: bool, ghost senders: SenderList,
                ghost run: S.Run)
    returns (stopped': bool, ghost next: S.Run)
    requires StateIs(c, run, d) && stopped == S.Now(run).stopped && senders.Valid()
    modifies d, d.stats
    ensures senders.Valid()
    ensures StateIs(c, next, d) && stopped' == S.Now(next).stopped && Did(run, Obey(cmd), next)
    ensures S.Now(next).wire == S.Now(run).wire && AskedIn(next) == AskedIn(run)
  {
    stopped', next := stopped, run;
    if !stopped {
      if cmd.Run? {
        stopped', next := true, S.Then(run, S.Panic, S.Now(run).(stopped := true));
      } else {
        next := Command(c, d, cmd, run);
      }
    }
  }

  /** Whatever a client's thread does is one step of the network. */
  method Client(senders: SenderList, e: B.Event)
    requires senders.Valid() && !e.Publish?
    modifies senders, senders.clients.Values
    ensures senders.Valid() && senders.net == B.Step(old(senders.net), e)
    ensures fresh(senders.clients.Values - old(senders.clients.Values))
  {
    match e {
      case Register(id) => senders.Register(id);
      case Receive(id) => senders.Receive(id);
      case Write(id, count) => senders.Write(id, count);
      case Fail(id) => senders.Fail(id);
    }
  }

  /** And one move of the run. */
  method DoAttend(c: Codec<SnapshotData>, senders: SenderList, e: B.Event, ghost d: DaemonState, ghost run: S.Run)
    returns (ghost next: S.Run)
    requires S.Legal(c, run) && d.Valid() && ClientsAre(run, senders)
    modifies senders, senders.clients.Values
    ensures d.Valid() && HeldBy(d) == old(HeldBy(d))
    ensures S.Legal(c, next) && ClientsAre(next, senders)
    ensures next == if e.Publish? then run else S.Then(run, S.Client(e), S.Now(next))
    ensures S.Now(next) == S.Now(run).(wire := S.Now(next).wire) && AskedIn(next) == AskedIn(run)
    ensures fresh(senders.clients.Values - old(senders.clients.Values))
  {
    next := run;
    if !e.Publish? {
      ghost var valid := d.Valid();
      Client(senders, e);
      assert d.Valid() == valid;
      S.ExecMore(S.Now(run).wire, e);
      next := S.Then(run, S.Client(e), S.Now(run).(wire := S.Now(run).wire + [e]));
    }
  }

  method Do(c: Codec<SnapshotData>, d: DaemonState, stats: LiveMap, buf: ByteBuf, senders: SenderList, job: Job,
            stopped: bool, ghost base: seq<Call>, ghost run: S.Run)
    returns (stopped': bool, ghost next: S.Run)
    requires StateIs(c, run, d) && ClientsAre(run, senders) && stopped == S.Now(run).stopped
    requires stats.Valid() && stats.calls == base + AskedIn(run)
    modifies d, d.stats, stats, buf, senders, senders.clients.Values
    ensures StateIs(c, next, d) && ClientsAre(next, senders) && stopped' == S.Now(next).stopped
    ensures stats.Valid() && stats.calls == base + AskedIn(next)
    ensures Did(run, job, next)
    ensures fresh(senders.clients.Values - old(senders.clients.Values))
  {
    stopped', next := stopped, run;
    match job {
      case Accept(first, id) =>
        if first.Run? {
          next := DoAttend(c, senders, B.Register(id), d, run);
        } else {
          stopped', next := DoObey(c, d, first, stopped, senders, run);
        }
      case Obey(cmd) => stopped', next := DoObey(c, d, cmd, stopped, senders, run);
      case Attend(e) =>
        if !e.Register? {
          next := DoAttend(c, senders, e, d, run);
        }
      case Loop(events) =>
        if !stopped {
          ghost var snapshot;
          stopped', snapshot, next := Iterate(c, d, events, stats, buf, senders, base, run);
        }
    }
  }

  /**
   The daemon from its start, under any schedule: it does these jobs, as moves of a legal run, and no
   others. Its state and its clients are where that run leaves them, the bytes on every client's socket
   are those the run has written, and the answers in the run are those the map gave, lookup by lookup.
   */
  method RunDaemon(c: Codec<SnapshotData>, stats: LiveMap, jobs: seq<Job>)
    returns (d: DaemonState, senders: SenderList, ghost run: S.Run)
    requires stats.Valid()
    modifies stats
    ensures Performed(jobs, run)
    ensures StateIs(c, run, d) && ClientsAre(run, senders)
    ensures stats.Valid() && stats.calls == old(stats.calls) + AskedIn(run)
    ensures forall id :: id in senders.clients ==>
              && id in B.Exec(S.Now(run).wire).clients
              && senders.clients[id].socket == B.Exec(S.Now(run).wire).clients[id].written
  {
    d, senders := Start(c);
    var buf := new ByteBuf();
    run := S.Boot;
    var stopped := false;
    assert stats.calls + [] == stats.calls;
    for i := 0 to |jobs|
      invariant fresh(d) && fresh(d.stats) && fresh(senders) && fresh(buf) && fresh(senders.clients.Values)
      invariant StateIs(c, run, d) && ClientsAre(run, senders) && stopped == S.Now(run).stopped
      invariant stats.Valid() && stats.calls == old(stats.calls) + AskedIn(run)
      invariant Performed(jobs[..i], run)
    {
      ghost var before := run;
      stopped, run := Do(c, d, stats, buf, senders, jobs[i], stopped, old(stats.calls), run);
      PerformedMore(jobs, i, before, run);
    }
    assert jobs[..|jobs|] == jobs;
    SocketsAreWritten(senders, S.Now(run).wire);
  }

  /** A new daemon, where every run begins. */
  method Start(c: Codec<SnapshotData>) returns (d: DaemonState, senders: SenderList)
    ensures fresh(d) && fresh(d.stats) && fresh(senders) && senders.clients == map[]
    ensures StateIs(c, S.Boot, d) && ClientsAre(S.Boot, senders)
  {
    d := new DaemonState();
    senders := new SenderList();
  }

  /** What is on a client's socket is what the run wrote there. */
  lemma SocketsAreWritten(senders: SenderList, wire: seq<B.Event>)
    requires senders.Valid() && senders.net == B.Exec(wire)
    ensures forall id :: id in senders.clients ==>
              id in B.Exec(wire).clients && senders.clients[id].socket == B.Exec(wire).clients[id].written
  {
    assert forall id :: id in senders.clients ==> senders.Mirrored(id);
  }

  // Who is a client

  lemma StepClients(net: B.Net, e: B.Event, id: B.ClientId)
    ensures id in B.Step(net, e).clients <==> id in net.clients || e == B.Register(id)
  {
  }

  lemma {:induction false} StartsKeep(c: Codec<SnapshotData>, run: S.Run, events: seq<ProcStart>, after: S.Run)
    requires S.Legal(c, after) && StartsApplied(run, events, after)
    ensures S.Legal(c, run) && S.Now(after).wire == S.Now(run).wire
    decreases |events|
  {
    if events != [] {
      StartsKeep(c, run, events[..|events| - 1], after.past);
    }
  }

  /** A move adds the client that it registers, and takes none away. */
  lemma MoveClients(c: Codec<SnapshotData>, next: S.Run, id: B.ClientId)
    requires S.Legal(c, next) && next.Then?
    ensures id in B.Exec(S.Now(next).wire).clients <==>
              id in B.Exec(S.Now(next.past).wire).clients || next.move == S.Client(B.Register(id))
  {
    var wire, wire' := S.Now(next.past).wire, S.Now(next).wire;
    assert S.Moves(c, S.Now(next.past), next.move, S.Now(next));
    if wire' != wire {
      var e := wire'[|wire'| - 1];
      S.ExecMore(wire, e);
      StepClients(B.Exec(wire), e, id);
    }
  }

  /** Only one kind of job makes a client. */
  lemma DidClients(c: Codec<SnapshotData>, run: S.Run, job: Job, next: S.Run, id: B.ClientId)
    requires S.Legal(c, next) && Did(run, job, next)
    ensures S.Legal(c, run)
    ensures id in B.Exec(S.Now(next).wire).clients <==> id in B.Exec(S.Now(run).wire).clients || job == Accept(Run, id)
  {
    if next != run {
      if job.Loop? {
        StartsKeep(c, run, job.events, next.past);
      }
      MoveClients(c, next, id);
    }
  }

  ghost predicate SaidRun(jobs: seq<Job>, id: B.ClientId) {
    exists i :: 0 <= i < |jobs| && jobs[i] == Accept(Run, id)
  }

  lemma SaidRunMore(jobs: seq<Job>, id: B.ClientId)
    requires jobs != []
    ensures SaidRun(jobs, id) <==> SaidRun(jobs[..|jobs| - 1], id) || jobs[|jobs| - 1] == Accept(Run, id)
  {
    assert forall i :: 0 <= i < |jobs| - 1 ==> jobs[i] == jobs[..|jobs| - 1][i];
  }

  /** The last job, and the run before it. */
  lemma LastJob(c: Codec<SnapshotData>, jobs: seq<Job>, run: S.Run, id: B.ClientId) returns (past: S.Run)
    requires S.Legal(c, run) && jobs != [] && Performed(jobs, run)
    ensures S.Legal(c, past) && Performed(jobs[..|jobs| - 1], past)
    ensures id in B.Exec(S.Now(run).wire).clients
            <==> id in B.Exec(S.Now(past).wire).clients || jobs[|jobs| - 1] == Accept(Run, id)
  {
    past :| Performed(jobs[..|jobs| - 1], past) && Did(past, jobs[|jobs| - 1], run);
    DidClients(c, past, jobs[|jobs| - 1], run, id);
  }

  /** Whoever is a client said `Run` first; and whoever says `Run` first is a client. */
  lemma {:induction false} ClientsSaidRun(c: Codec<SnapshotData>, jobs: seq<Job>, run: S.Run, id: B.ClientId)
    requires S.Legal(c, run) && Performed(jobs, run)
    ensures id in B.Exec(S.Now(run).wire).clients <==> SaidRun(jobs, id)
    decreases |jobs|
  {
    if jobs != [] {
      var past := LastJob(c, jobs, run, id);
      ClientsSaidRun(c, jobs[..|jobs| - 1], past, id);
      SaidRunMore(jobs, id);
    }
  }

  // A whole connection

  /** `after` is `run` with these commands added, in order. */
  ghost predicate CommandsApplied(run: S.Run, cmds: seq<DaemonCommand>, after: S.Run)
    decreases |cmds|
  {
    if cmds == [] then after == run
    else
      var n := |cmds| - 1;
      after.Then? && after.move == S.Command(cmds[n]) && CommandsApplied(run, cmds[..n], after.past)
  }

  function ZeroedSeq(procs: seq<ProcInfo>): (r: seq<ProcInfo>)
    ensures ZeroedAll(procs, r)
  {
    seq(|procs|, i requires 0 <= i < |procs| => Zeroed(procs[i]))
  }

  /** What one command makes of a run. */
  ghost function Obeying(run: S.Run, cmd: DaemonCommand): S.Run {
    var s := S.Now(run);
    var c := R.StateOf(s.trace);
    var t := if cmd.Reset? then R.Then(s.trace, R.ResetAll, R.State(ZeroedSeq(c.procs), [])) else s.trace;
    S.Then(run, S.Command(cmd), s.(trace := t, log := Log.Then(s.log, Input.Command(cmd))))
  }

  /** What one command makes of what it acts on. */
  ghost function ObeyedBy(h: Held, cmd: DaemonCommand): Held
    requires !cmd.Run?
  {
    Held(Commanded(h.time, cmd), if cmd.Reset? then ZeroedSeq(h.procs) else h.procs, if cmd.Reset? then [] else h.dead)
  }

  lemma ObeyingOne(c: Codec<SnapshotData>, run: S.Run, h: Held, cmd: DaemonCommand)
    requires S.Legal(c, run) && !S.Now(run).stopped && HeldIs(run, h) && !cmd.Run?
    ensures S.Legal(c, Obeying(run, cmd)) && HeldIs(Obeying(run, cmd), ObeyedBy(h, cmd))
    ensures Updated(h, cmd, ObeyedBy(h, cmd))
    ensures S.Now(Obeying(run, cmd)).wire == S.Now(run).wire && !S.Now(Obeying(run, cmd)).stopped
  {
  }

  lemma FollowsUnique(a: Held, cmds: seq<DaemonCommand>, b: Held, b': Held)
    requires Follows(a, cmds, b) && Follows(a, cmds, b')
    ensures b == b'
  {
    assert b.procs == b'.procs;
  }

  /** Commands that a connection applied are moves of the run. */
  lemma {:induction false} FollowsIsRun(c: Codec<SnapshotData>, run: S.Run, a: Held, cmds: seq<DaemonCommand>)
    returns (next: S.Run, b: Held)
    requires S.Legal(c, run) && !S.Now(run).stopped && HeldIs(run, a) && NoRun(cmds)
    ensures S.Legal(c, next) && CommandsApplied(run, cmds, next) && Follows(a, cmds, b) && HeldIs(next, b)
    ensures S.Now(next).wire == S.Now(run).wire && !S.Now(next).stopped
    decreases |cmds|
  {
    if cmds == [] {
      next, b := run, a;
      FollowsNone(a);
    } else {
      var init, last := cmds[..|cmds| - 1], cmds[|cmds| - 1];
      var mid, h := FollowsIsRun(c, run, a, init);
      ObeyingOne(c, mid, h, last);
      next, b := Obeying(mid, last), ObeyedBy(h, last);
      assert cmds == init + [last];
      FollowsMore(a, init, h, last, b);
    }
  }

  /**
   What a connection makes of a run: the commands it applied, in order, a panic if it met a second `Run`,
   and its registration if its first command was `Run`.
   */
  ghost predicate Connected(run: S.Run, id: B.ClientId, client: bool, applied: seq<DaemonCommand>, panicked: bool,
                            next: S.Run) {
    if client then next.Then? && next.move == S.Client(B.Register(id)) && Answered(run, applied, panicked, next.past)
    else Answered(run, applied, panicked, next)
  }

  ghost predicate Answered(run: S.Run, applied: seq<DaemonCommand>, panicked: bool, next: S.Run) {
    if panicked then next.Then? && next.move.Panic? && CommandsApplied(run, applied, next.past)
    else CommandsApplied(run, applied, next)
  }

  /**
   A connection served from its first byte is a stretch of the run, and the daemon and its clients are where
   that leaves them. (What happens between two of its commands is up to the schedule.)
   */
  method ServeConnection(c: Codec<SnapshotData>, commands: Codec<DaemonCommand>, socket: Socket, d: DaemonState,
                         senders: SenderList, id: B.ClientId, ghost run: S.Run)
    returns (client: bool, applied: seq<DaemonCommand>, panicked: bool, ghost fetched: nat, ghost next: S.Run)
    requires StateIs(c, run, d) && ClientsAre(run, senders) && !S.Now(run).stopped
    modifies socket, d, d.stats, senders, senders.clients.Values
    ensures StateIs(c, next, d) && ClientsAre(next, senders) && S.Now(next).stopped == panicked
    ensures Handled(commands, old(socket.pending), client, applied, panicked, fetched)
    ensures Connected(run, id, client, applied, panicked, next)
  {
    ghost var valid := senders.Valid();
    client, applied, panicked, fetched, next := ServeAndAnswer(c, commands, socket, d, run);
    assert senders.Valid() == valid;
    if client {
      next := DoAttend(c, senders, B.Register(id), d, next);
    }
  }

  method ServeAndAnswer(c: Codec<SnapshotData>, commands: Codec<DaemonCommand>, socket: Socket, d: DaemonState,
                        ghost run: S.Run)
    returns (client: bool, applied: seq<DaemonCommand>, panicked: bool, ghost fetched: nat, ghost next: S.Run)
    requires StateIs(c, run, d) && !S.Now(run).stopped
    modifies socket, d, d.stats
    ensures StateIs(c, next, d) && S.Now(next).stopped == panicked && S.Now(next).wire == S.Now(run).wire
    ensures Handled(commands, old(socket.pending), client, applied, panicked, fetched)
    ensures Answered(run, applied, panicked, next)
  {
    ghost var start := HeldBy(d);
    client, applied, panicked, fetched := Serve(commands, socket, d);
    ghost var h;
    next, h := FollowsIsRun(c, run, start, applied);
    FollowsUnique(start, applied, h, HeldBy(d));
    if panicked {
      next := S.Then(next, S.Panic, S.Now(next).(stopped := true));
    }
  }
}
