/**
 The daemon against its schedule. What its run contains is read off the jobs alone: every command reaches the
 clock, every start event the collector, every iteration publishes, until something stops the daemon.
 */
module AppRuns {
  import opened Words
  import opened Names
  import opened StatsTypes
  import opened Codec
  import opened Framing
  import opened App
  import B = Broadcast
  import D = Daemon
  import R = CollectorRuns
  import S = Service

  /** What the collector is made to do. */
  datatype Deed = Hear(event: ProcStart) | Scan | Zero

  function DeedOf(i: R.Input): Deed {
    match i
    case Started(pid, name) => Hear(ProcStart(pid, name))
    case Collect(_, _, _, _, _) => Scan
    case ResetAll => Zero
  }

  /** The collector's calls in a run, in order. */
  function Deeds(t: R.Trace): seq<Deed> {
    match t
    case Begin => []
    case Then(past, input, _) => Deeds(past) + [DeedOf(input)]
  }

  function HearAll(events: seq<ProcStart>): (r: seq<Deed>)
    ensures |r| == |events| && forall i :: 0 <= i < |r| ==> r[i] == Hear(events[i])
  {
    seq(|events|, i requires 0 <= i < |events| => Hear(events[i]))
  }

  /** The network events that are the clients' own. */
  function FromClients(wire: seq<B.Event>): seq<B.Event> {
    if wire == [] then []
    else
      var last := wire[|wire| - 1];
      FromClients(wire[..|wire| - 1]) + if last.Publish? then [] else [last]
  }

  // What a job asks for

  function DeedsFor(job: Job): seq<Deed> {
    match job
    case Accept(first, _) => if first.Reset? then [Zero] else []
    case Obey(cmd) => if cmd.Reset? then [Zero] else []
    case Loop(events) => HearAll(events) + [Scan]
    case Attend(_) => []
  }

  function InputsFor(job: Job): seq<D.Input> {
    match job
    case Accept(first, _) => if first.Run? then [] else [D.Command(first)]
    case Obey(cmd) => [D.Command(cmd)]
    case Loop(_) => [D.Iteration]
    case Attend(_) => []
  }

  function EventsFor(job: Job): seq<B.Event> {
    match job
    case Accept(first, id) => if first.Run? then [B.Register(id)] else []
    case Attend(e) => if e.Publish? || e.Register? then [] else [e]
    case _ => []
  }

  function Inputs(l: D.Log): seq<D.Input> {
    match l
    case Boot => []
    case Then(past, input) => Inputs(past) + [input]
  }

  // One job

  /** The state has had these calls, inputs and client events, and published as often as it iterated. */
  ghost predicate Had(s: S.State, deeds: seq<Deed>, inputs: seq<D.Input>, events: seq<B.Event>, published: nat) {
    Deeds(s.trace) == deeds && Inputs(s.log) == inputs && FromClients(s.wire) == events && |s.msgs| == published
  }

  function Published(job: Job): nat {
    if job.Loop? then 1 else 0
  }

  lemma FromClientsMore(wire: seq<B.Event>, e: B.Event)
    ensures FromClients(wire + [e]) == FromClients(wire) + if e.Publish? then [] else [e]
  {
    assert (wire + [e])[..|wire|] == wire;
  }

  lemma {:induction false} StartsAreHeard(c: Codec<SnapshotData>, run: S.Run, events: seq<ProcStart>, after: S.Run)
    requires S.Legal(c, after) && StartsApplied(run, events, after)
    ensures S.Legal(c, run) && Deeds(S.Now(after).trace) == Deeds(S.Now(run).trace) + HearAll(events)
    ensures S.Now(after) == S.Now(run).(trace := S.Now(after).trace)
    decreases |events|
  {
    if events != [] {
      var n := |events| - 1;
      StartsAreHeard(c, run, events[..n], after.past);
      assert HearAll(events) == HearAll(events[..n]) + [Hear(events[n])];
    }
  }

  /** What one move of a run that goes on adds to it. */
  lemma MoveAdds(c: Codec<SnapshotData>, s: S.State, m: S.Move, d: S.State)
    requires S.Moves(c, s, m, d) && !d.stopped
    ensures Deeds(d.trace) == Deeds(s.trace) + (match m
                                                case Start(pid, name) => [Hear(ProcStart(pid, name))]
                                                case Command(cmd) => if cmd.Reset? then [Zero] else []
                                                case Tick(_, _) => [Scan]
                                                case Client(_) => []
                                                case Panic => [])
    ensures Inputs(d.log) == Inputs(s.log) + (match m
                                              case Command(cmd) => [D.Command(cmd)]
                                              case Tick(_, _) => [D.Iteration]
                                              case _ => [])
    ensures FromClients(d.wire) == FromClients(s.wire) + if m.Client? then [m.event] else []
    ensures |d.msgs| == |s.msgs| + if m.Tick? then 1 else 0
    ensures !s.stopped && !m.Panic?
  {
    if m.Client? {
      FromClientsMore(s.wire, m.event);
    } else if m.Tick? {
      FromClientsMore(s.wire, B.Publish(Frame(c, m.snapshot)));
    }
  }

  ghost predicate Adds(s: S.State, d: S.State, deeds: seq<Deed>, inputs: seq<D.Input>, events: seq<B.Event>,
                       published: nat) {
    Had(d, Deeds(s.trace) + deeds, Inputs(s.log) + inputs, FromClients(s.wire) + events, |s.msgs| + published)
  }

  lemma LoopAdds(c: Codec<SnapshotData>, run: S.Run, events: seq<ProcStart>, next: S.Run)
    requires S.Legal(c, next) && !S.Now(next).stopped
    requires next.Then? && next.move.Tick? && StartsApplied(run, events, next.past)
    ensures S.Legal(c, run) && !S.Now(run).stopped
    ensures Adds(S.Now(run), S.Now(next), HearAll(events) + [Scan], [D.Iteration], [], 1)
  {
    StartsAreHeard(c, run, events, next.past);
    MoveAdds(c, S.Now(next.past), next.move, next.state);
    PushAssociative(Deeds(S.Now(run).trace), HearAll(events), Scan);
  }

  /** A job of a daemon that is still up has had its whole effect. */
  lemma JobAdds(c: Codec<SnapshotData>, run: S.Run, job: Job, next: S.Run)
    requires S.Legal(c, next) && Did(run, job, next) && !S.Now(next).stopped
    ensures S.Legal(c, run) && !S.Now(run).stopped && job != Obey(Run)
    ensures Adds(S.Now(run), S.Now(next), DeedsFor(job), InputsFor(job), EventsFor(job), Published(job))
  {
    if job.Loop? {
      LoopAdds(c, run, job.events, next);
    } else if next != run {
      MoveAdds(c, S.Now(run), next.move, next.state);
    }
  }

  // All jobs

  function AllDeeds(jobs: seq<Job>): seq<Deed> {
    if jobs == [] then [] else AllDeeds(jobs[..|jobs| - 1]) + DeedsFor(jobs[|jobs| - 1])
  }

  function AllInputs(jobs: seq<Job>): seq<D.Input> {
    if jobs == [] then [] else AllInputs(jobs[..|jobs| - 1]) + InputsFor(jobs[|jobs| - 1])
  }

  function AllEvents(jobs: seq<Job>): seq<B.Event> {
    if jobs == [] then [] else AllEvents(jobs[..|jobs| - 1]) + EventsFor(jobs[|jobs| - 1])
  }

  function Loops(jobs: seq<Job>): nat {
    if jobs == [] then 0 else Loops(jobs[..|jobs| - 1]) + Published(jobs[|jobs| - 1])
  }

  /** The state has had all that these jobs ask for. */
  ghost predicate HadAll(s: S.State, jobs: seq<Job>) {
    Had(s, AllDeeds(jobs), AllInputs(jobs), AllEvents(jobs), Loops(jobs))
  }

  lemma HadMore(s: S.State, jobs: seq<Job>, d: S.State)
    requires jobs != [] && HadAll(s, jobs[..|jobs| - 1])
    requires var job := jobs[|jobs| - 1];
             Adds(s, d, DeedsFor(job), InputsFor(job), EventsFor(job), Published(job))
    ensures HadAll(d, jobs)
  {
  }

  ghost predicate NoSecondRun(jobs: seq<Job>) {
    forall i :: 0 <= i < |jobs| ==> jobs[i] != Obey(Run)
  }

  lemma NoSecondRunMore(jobs: seq<Job>)
    requires jobs != [] && jobs[|jobs| - 1] != Obey(Run)
    ensures NoSecondRun(jobs[..|jobs| - 1]) ==> NoSecondRun(jobs)
  {
    assert forall i :: 0 <= i < |jobs| - 1 ==> jobs[i] == jobs[..|jobs| - 1][i];
  }

  lemma LastJobAdds(c: Codec<SnapshotData>, jobs: seq<Job>, run: S.Run) returns (past: S.Run)
    requires S.Legal(c, run) && jobs != [] && Performed(jobs, run) && !S.Now(run).stopped
    ensures S.Legal(c, past) && Performed(jobs[..|jobs| - 1], past) && !S.Now(past).stopped
    ensures NoSecondRun(jobs[..|jobs| - 1]) ==> NoSecondRun(jobs)
    ensures HadAll(S.Now(past), jobs[..|jobs| - 1]) ==> HadAll(S.Now(run), jobs)
  {
    past :| Performed(jobs[..|jobs| - 1], past) && Did(past, jobs[|jobs| - 1], run);
    JobAdds(c, past, jobs[|jobs| - 1], run);
    NoSecondRunMore(jobs);
    if HadAll(S.Now(past), jobs[..|jobs| - 1]) {
      HadMore(S.Now(past), jobs, S.Now(run));
    }
  }

  /**
   Under any schedule, as long as the daemon is up: its collector has heard every start event, scanned once an
   iteration and been zeroed at every reset, its clock has had every command and iteration, its clients have done
   all they did, each in the order of the schedule and nothing else, and every iteration has published. No
   connection has said `Run` twice.
   */
  lemma {:induction false} JobsAreDone(c: Codec<SnapshotData>, jobs: seq<Job>, run: S.Run)
    requires S.Legal(c, run) && Performed(jobs, run) && !S.Now(run).stopped
    ensures HadAll(S.Now(run), jobs)
    ensures NoSecondRun(jobs)
    decreases |jobs|
  {
    if jobs != [] {
      var past := LastJobAdds(c, jobs, run);
      JobsAreDone(c, jobs[..|jobs| - 1], past);
    }
  }

  // What stops the daemon

  /** What a daemon that has stopped does not touch any more. */
  ghost predicate Idles(s: S.State, d: S.State) {
    d.trace == s.trace && d.log == s.log && d.msgs == s.msgs && d.stopped
  }

  lemma StoppedIdles(c: Codec<SnapshotData>, run: S.Run, job: Job, next: S.Run)
    requires S.Legal(c, next) && Did(run, job, next) && S.Now(run).stopped
    ensures Idles(S.Now(run), S.Now(next)) && S.Legal(c, run)
  {
  }

  lemma JobStops(c: Codec<SnapshotData>, run: S.Run, job: Job, next: S.Run)
    requires S.Legal(c, next) && Did(run, job, next) && !S.Now(run).stopped && S.Now(next).stopped
    ensures S.Legal(c, run) && S.Now(next).msgs == S.Now(run).msgs
    ensures job == Obey(Run) || (job.Loop? && next.Then? && next.move.Tick? && !Fits(c, next.move.snapshot))
  {
    if job.Loop? {
      StartsAreHeard(c, run, job.events, next.past);
    }
  }

  /**
   Under any schedule a daemon that is down went down at one job: a connection's second `Run`, or an iteration
   whose snapshot does not fit a frame. Up to there every job was done, and nothing was applied or published
   from there on.
   */
  lemma {:induction false} StoppedAt(c: Codec<SnapshotData>, jobs: seq<Job>, run: S.Run)
    returns (i: nat, before: S.Run, at: S.Run)
    requires S.Legal(c, run) && Performed(jobs, run) && S.Now(run).stopped
    ensures i < |jobs| && S.Legal(c, at) && S.Legal(c, before)
    ensures Performed(jobs[..i], before) && Did(before, jobs[i], at)
    ensures !S.Now(before).stopped
    ensures HadAll(S.Now(before), jobs[..i])
    ensures jobs[i] == Obey(Run) || (jobs[i].Loop? && at.Then? && at.move.Tick? && !Fits(c, at.move.snapshot))
    ensures S.Now(at).msgs == S.Now(before).msgs && Idles(S.Now(at), S.Now(run))
    decreases |jobs|
  {
    var n := |jobs| - 1;
    var past :| Performed(jobs[..n], past) && Did(past, jobs[n], run);
    if S.Now(past).stopped {
      StoppedIdles(c, past, jobs[n], run);
      i, before, at := StoppedAt(c, jobs[..n], past);
      assert jobs[..n][..i] == jobs[..i];
    } else {
      JobStops(c, past, jobs[n], run);
      JobsAreDone(c, jobs[..n], past);
      i, before, at := n, past, run;
    }
  }
}
