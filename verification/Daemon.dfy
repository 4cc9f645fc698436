/** `DaemonState` (`procnetd/src/state.rs`): the interval, the tick and the collector behind one lock. */
module Daemon {
  import opened Words
  import opened StatsTypes
  import opened Collector

  const DEFAULT_INTERVAL_MILLIS: u64 := 1000
  const MIN_INTERVAL_MILLIS: u64 := 100
  const MAX_INTERVAL_MILLIS: u64 := 5000

  datatype Clock = Clock(interval: u64, tick: u64)

  predicate InRange(c: Clock) {
    MIN_INTERVAL_MILLIS <= c.interval <= MAX_INTERVAL_MILLIS
  }

  /** `Ord::clamp` */
  function Clamp(millis: int): u64 {
    Max(MIN_INTERVAL_MILLIS, Min(millis, MAX_INTERVAL_MILLIS))
  }

  /** What a command does to the clock. */
  function Commanded(c: Clock, cmd: DaemonCommand): Clock
    requires !cmd.Run?
  {
    match cmd
    case Interval(ms) => c.(interval := Clamp(ms))
    case IntervalIncrease => c.(interval := Clamp(c.interval + 100))
    case IntervalDecrease => c.(interval := Clamp(c.interval - 100))
    case Reset => c.(tick := 0)
  }

  function Ticked(c: Clock): Clock {
    c.(tick := WrapAdd(c.tick, 1))
  }

  class DaemonState {
    var interval: u64
    var tick: u64
    const stats: StatsCollector

    ghost predicate Valid()
      reads this, stats
    {
      InRange(Time()) && stats.Valid()
    }

    function Time(): Clock
      reads this
    {
      Clock(interval, tick)
    }

    constructor ()
      ensures Valid() && fresh(stats)
      ensures Time() == Clock(DEFAULT_INTERVAL_MILLIS, 0) && stats.procs == [] && stats.deadProcs == []
    {
      interval := DEFAULT_INTERVAL_MILLIS;
      tick := 0;
      stats := new StatsCollector();
    }

    method SetInterval(millis: u64)
      modifies this`interval
      ensures interval == Clamp(millis)
    {
      interval := if millis < MIN_INTERVAL_MILLIS then MIN_INTERVAL_MILLIS
                  else if millis > MAX_INTERVAL_MILLIS then MAX_INTERVAL_MILLIS
                  else millis;
    }

    method AdvanceTick()
      modifies this`tick
      ensures tick == Ticked(old(Time())).tick
    {
      tick := WrapAdd(tick, 1);
    }

    /** `update`. `Run` never reaches it: the server keeps that command for itself. */
    method Update(command: DaemonCommand)
      requires Valid() && !command.Run?
      modifies this, stats
      ensures Valid() && Time() == Commanded(old(Time()), command)
      ensures if command.Reset? then ZeroedAll(old(stats.procs), stats.procs) && stats.deadProcs == []
              else stats.procs == old(stats.procs) && stats.deadProcs == old(stats.deadProcs)
    {
      match command {
        case Reset =>
          stats.Reset();
          tick := 0;
        case Interval(ms) => SetInterval(ms);
        case IntervalIncrease => SetInterval(interval + 100);
        case IntervalDecrease => SetInterval(interval - 100);
      }
    }
  }

  // Runs of commands and iterations

  datatype Input = Command(cmd: DaemonCommand) | Iteration

  datatype Log = Boot | Then(past: Log, input: Input)

  ghost predicate Allowed(l: Log) {
    l.Then? ==> Allowed(l.past) && (l.input.Command? ==> !l.input.cmd.Run?)
  }

  function TimeAfter(l: Log): Clock
    requires Allowed(l)
  {
    match l
    case Boot => Clock(DEFAULT_INTERVAL_MILLIS, 0)
    case Then(past, Command(cmd)) => Commanded(TimeAfter(past), cmd)
    case Then(past, Iteration) => Ticked(TimeAfter(past))
  }

  /** Iterations of the daemon's loop since it started or was last reset. */
  function Iterations(l: Log): nat {
    match l
    case Boot => 0
    case Then(past, Command(Reset)) => 0
    case Then(past, Command(_)) => Iterations(past)
    case Then(past, Iteration) => Iterations(past) + 1
  }

  /** The interval never leaves its range, and the tick counts iterations, modulo its width. */
  lemma {:induction false} ClockOverRuns(l: Log)
    requires Allowed(l)
    ensures InRange(TimeAfter(l))
    ensures TimeAfter(l).tick == Iterations(l) % U64_LIMIT
  {
    if l.Then? {
      ClockOverRuns(l.past);
      WrapIsModulo(Iterations(l.past), 1);
    }
  }

  /** A published tick is the number of iterations since the start or the last reset, and at least 1. */
  lemma PublishedTick(l: Log)
    requires Allowed(l) && l.Then? && l.input.Iteration? && Iterations(l) < U64_LIMIT
    ensures TimeAfter(l).tick == Iterations(l) && TimeAfter(l).tick >= 1
  {
    ClockOverRuns(l);
  }

  /** A requested interval is granted when it is in range, and otherwise the nearest one that is. */
  lemma IntervalIsNearest(c: Clock, ms: u64, other: u64)
    requires MIN_INTERVAL_MILLIS <= other <= MAX_INTERVAL_MILLIS
    ensures var granted := Commanded(c, Interval(ms)).interval;
            && (InRange(Clock(ms, 0)) ==> granted == ms)
            && (other != granted ==> (if ms < granted then granted - ms else ms - granted)
                                     < (if ms < other then other - ms else ms - other))
  {
  }

  /** The interval commands of a run, without resets and iterations. */
  function Settings(l: Log): Log {
    match l
    case Boot => Boot
    case Then(past, Iteration) => Settings(past)
    case Then(past, Command(Reset)) => Settings(past)
    case Then(past, Command(cmd)) => Then(Settings(past), Command(cmd))
  }

  /** Time and resets leave the interval alone: it is what the interval commands make of 1000 milliseconds. */
  lemma {:induction false} IntervalIgnoresTime(l: Log)
    requires Allowed(l)
    ensures Allowed(Settings(l)) && TimeAfter(l).interval == TimeAfter(Settings(l)).interval
    ensures Settings(l).Boot? ==> TimeAfter(l).interval == 1000
  {
    if l.Then? {
      IntervalIgnoresTime(l.past);
    }
  }

  function Repeat(c: Clock, cmd: DaemonCommand, n: nat): Clock
    requires !cmd.Run?
  {
    if n == 0 then c else Commanded(Repeat(c, cmd, n - 1), cmd)
  }

  /** `n` steps up stop at the ceiling, `n` steps down at the floor; neither step can under- or overflow. */
  lemma {:induction false} RepeatedSteps(c: Clock, n: nat)
    requires InRange(c)
    ensures Repeat(c, IntervalIncrease, n) == c.(interval := Min(5000, c.interval + 100 * n))
    ensures Repeat(c, IntervalDecrease, n) == c.(interval := Max(100, c.interval - 100 * n))
  {
    if n > 0 {
      RepeatedSteps(c, n - 1);
    }
  }

  // Ticks of published snapshots

  /** The run as it stood at each published snapshot, oldest first. */
  function Published(l: Log): seq<Log> {
    match l
    case Boot => []
    case Then(past, Command(_)) => Published(past)
    case Then(past, Iteration) => Published(past) + [l]
  }

  function Resets(l: Log): nat {
    match l
    case Boot => 0
    case Then(past, Command(Reset)) => Resets(past) + 1
    case Then(past, _) => Resets(past)
  }

  lemma {:induction false} PublishedGrows(l: Log, i: nat)
    requires i < |Published(l)|
    ensures Published(l)[i].Then? && Published(l)[i].input.Iteration?
    ensures Allowed(l) ==> Allowed(Published(l)[i])
    ensures Resets(Published(l)[i]) <= Resets(l)
    ensures Resets(Published(l)[i]) == Resets(l) ==> Iterations(Published(l)[i]) <= Iterations(l)
  {
    if !(l.input.Iteration? && i == |Published(l)| - 1) {
      PublishedGrows(l.past, i);
    }
  }

  /** Between resets, published snapshots carry strictly increasing iteration counts. */
  lemma {:induction false} IterationsIncrease(l: Log, i: nat, j: nat)
    requires i < j < |Published(l)|
    requires Resets(Published(l)[i]) == Resets(Published(l)[j])
    ensures Iterations(Published(l)[i]) < Iterations(Published(l)[j])
  {
    if l.input.Iteration? && j == |Published(l)| - 1 {
      PublishedGrows(l.past, i);
    } else {
      IterationsIncrease(l.past, i, j);
    }
  }

  lemma {:induction false} FewIterations(l: Log)
    ensures Iterations(l) <= |Published(l)|
  {
    if l.Then? {
      FewIterations(l.past);
    }
  }

  lemma {:induction false} PublishedPrefix(l: Log, i: nat)
    requires i < |Published(l)|
    ensures |Published(Published(l)[i])| == i + 1
  {
    if !(l.input.Iteration? && i == |Published(l)| - 1) {
      PublishedPrefix(l.past, i);
    }
  }

  /** So their ticks strictly increase, as long as the daemon has looped fewer than 2^64 times. */
  lemma TicksIncrease(l: Log, i: nat, j: nat)
    requires Allowed(l) && i < j < |Published(l)| < U64_LIMIT
    requires Resets(Published(l)[i]) == Resets(Published(l)[j])
    ensures Allowed(Published(l)[i]) && Allowed(Published(l)[j])
    ensures TimeAfter(Published(l)[i]).tick < TimeAfter(Published(l)[j]).tick
  {
    PublishedGrows(l, i);
    PublishedGrows(l, j);
    IterationsIncrease(l, i, j);
    FewIterations(Published(l)[i]);
    FewIterations(Published(l)[j]);
    PublishedPrefix(l, i);
    PublishedPrefix(l, j);
    PublishedTick(Published(l)[i]);
    PublishedTick(Published(l)[j]);
  }
}
