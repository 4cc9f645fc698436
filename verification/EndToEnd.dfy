/**
 From a byte counted in the kernel to a byte reported to a client: the BPF programs and the collector
 run side by side, with one process followed through one lifetime of its map entry.
 */
module EndToEnd {
  import opened Words
  import opened StatsTypes
  import opened Layout
  import opened Merge
  import K = Kernel
  import P = KernelProofs
  import C = Collector
  import R = CollectorRuns

  // Counters of bounded width against exact ones

  function Remainders(exact: seq<nat>): seq<nat> {
    seq(|exact|, i requires 0 <= i < |exact| => exact[i] % U64_LIMIT)
  }

  /** What merging the slots gives when they have been credited `exact` bytes, CPU by CPU. */
  function Shown(exact: seq<nat>): u64 {
    Cap(Sum(Remainders(exact)))
  }

  lemma ModuloGrowth(c: nat, d: nat)
    requires c <= d
    ensures d % U64_LIMIT - c % U64_LIMIT <= d - c
  {
  }

  lemma {:induction false} RemaindersGrowth(c: seq<nat>, d: seq<nat>)
    requires |c| == |d| && forall i :: 0 <= i < |c| ==> c[i] <= d[i]
    ensures Sum(Remainders(d)) - Sum(Remainders(c)) <= Sum(d) - Sum(c)
  {
    if c != [] {
      ModuloGrowth(c[0], d[0]);
      RemaindersGrowth(c[1..], d[1..]);
      assert Remainders(c)[1..] == Remainders(c[1..]);
      assert Remainders(d)[1..] == Remainders(d[1..]);
    }
  }

  lemma {:induction false} RemaindersExact(c: seq<nat>)
    ensures Sum(Remainders(c)) <= Sum(c)
    ensures Sum(c) < U64_LIMIT ==> Sum(Remainders(c)) == Sum(c)
  {
    if c != [] {
      RemaindersExact(c[1..]);
      assert Remainders(c)[1..] == Remainders(c[1..]);
    }
  }

  /**
   One more report on top of a sum that was right: it stays below the truth, and is the truth exactly
   while the truth fits 64 bits. Wrapped slots and a capped merge can only hide bytes, never invent any.
   */
  lemma ReportStep(c: seq<nat>, d: seq<nat>, sum: nat)
    requires |c| == |d| && forall i :: 0 <= i < |c| ==> c[i] <= d[i]
    requires sum <= Sum(c) && (sum == Sum(c) <==> Sum(c) < U64_LIMIT)
    ensures sum + SatSub(Shown(d), Shown(c)) <= Sum(d)
    ensures sum + SatSub(Shown(d), Shown(c)) == Sum(d) <==> Sum(d) < U64_LIMIT
  {
    RemaindersGrowth(c, d);
    RemaindersExact(c);
    RemaindersExact(d);
    SumMonotone(c, d);
  }

  // The kernel entry during one lifetime

  ghost predicate Survives(actions: seq<K.Action>, g: u32) {
    forall i :: 0 <= i < |actions| ==> actions[i] != K.Exit(K.Thread(g, g))
  }

  lemma StepCredits(s: K.State, a: K.Action, g: u32, cpu: nat, ctr: Counter)
    requires P.Inv(s) && g in s.stats && a != K.Exit(K.Thread(g, g))
    ensures g in K.Step(s, a).stats
    ensures K.Credited(s.history, g, cpu, ctr) <= K.Credited(K.Step(s, a).history, g, cpu, ctr)
  {
    if a.Run? {
      RunCredits(s, a.thread, a.ok, a.comm, g, cpu, ctr);
    }
  }

  lemma LogCredits(h: K.History, e: K.Event, g: u32, cpu: nat, ctr: Counter)
    requires e.thread.tgid == g ==> !e.Exited? && !e.Created?
    ensures K.Credited(h, g, cpu, ctr) <= K.Credited(K.Then(h, e), g, cpu, ctr)
  {
  }

  /** A step logs at most one event, its thread's own; none of an entry that exists creates or removes it. */
  lemma RunLogs(s: K.State, t: K.Thread, ok: bool, comm: seq<byte>)
    ensures var d := K.RunStep(s, t, ok, comm);
            || d.history == s.history
            || (&& d.history.Then? && d.history.past == s.history && d.history.event.thread == t
                && !d.history.event.Exited? && (t.tgid in s.stats ==> !d.history.event.Created?))
  {
  }

  lemma RunKeeps(s: K.State, t: K.Thread, ok: bool, comm: seq<byte>, g: u32)
    requires g in s.stats
    ensures g in K.RunStep(s, t, ok, comm).stats
  {
  }

  lemma RunCredits(s: K.State, t: K.Thread, ok: bool, comm: seq<byte>, g: u32, cpu: nat, ctr: Counter)
    requires g in s.stats
    ensures g in K.RunStep(s, t, ok, comm).stats
    ensures K.Credited(s.history, g, cpu, ctr) <= K.Credited(K.RunStep(s, t, ok, comm).history, g, cpu, ctr)
  {
    RunKeeps(s, t, ok, comm, g);
    RunLogs(s, t, ok, comm);
    var h := K.RunStep(s, t, ok, comm).history;
    if h != s.history {
      LogCredits(s.history, h.event, g, cpu, ctr);
    }
  }

  lemma {:induction false} ExecCredits(s: K.State, actions: seq<K.Action>, g: u32, cpu: nat, ctr: Counter)
    requires P.Inv(s) && g in s.stats && Survives(actions, g)
    ensures P.Inv(K.Exec(s, actions)) && g in K.Exec(s, actions).stats && K.Exec(s, actions).cpus == s.cpus
    ensures K.Credited(s.history, g, cpu, ctr) <= K.Credited(K.Exec(s, actions).history, g, cpu, ctr)
  {
    P.ExecInv(s, actions);
    P.ExecCpus(s, actions);
    if actions != [] {
      var init, last := actions[..|actions| - 1], actions[|actions| - 1];
      ExecCredits(s, init, g, cpu, ctr);
      StepCredits(K.Exec(s, init), last, g, cpu, ctr);
    }
  }

  // A lookup that copies the slots one CPU at a time, while the kernel keeps running

  /** Slot `i` is copied after `cuts[i]` of the actions that run during the lookup. */
  ghost predicate CutsOk(k: K.State, actions: seq<K.Action>, cuts: seq<nat>) {
    |cuts| == k.cpus && forall i :: 0 <= i < |cuts| ==> cuts[i] <= |actions|
  }

  ghost function AtCut(k: K.State, actions: seq<K.Action>, cut: nat): K.State
    requires cut <= |actions|
  {
    K.Exec(k, actions[..cut])
  }

  /** The bytes credited to `g` on each CPU when that CPU's slot was copied. */
  ghost function CopiedCredits(k: K.State, actions: seq<K.Action>, cuts: seq<nat>, g: u32, ctr: Counter): (r: seq<nat>)
    requires CutsOk(k, actions, cuts)
    ensures |r| == |cuts|
    ensures forall i :: 0 <= i < |cuts| ==> r[i] == K.Credited(AtCut(k, actions, cuts[i]).history, g, i, ctr)
  {
    seq(|cuts|, i requires 0 <= i < |cuts| => K.Credited(AtCut(k, actions, cuts[i]).history, g, i, ctr))
  }

  /** `values` is what such a lookup hands to the daemon. */
  ghost predicate Copied(k: K.State, actions: seq<K.Action>, cuts: seq<nat>, g: u32, values: seq<Raw>) {
    && CutsOk(k, actions, cuts)
    && |values| == |cuts|
    && forall i :: 0 <= i < |cuts| ==>
         var s := AtCut(k, actions, cuts[i]);
         g in s.stats && i < |s.stats[g]| && values[i] == RECORD.enc(s.stats[g][i])
  }

  lemma CopiedSlot(s: K.State, g: u32, cpu: nat, value: Raw, ctr: Counter)
    requires P.Inv(s) && g in s.stats && cpu < |s.stats[g]| && value == RECORD.enc(s.stats[g][cpu])
    ensures Amount(FromBytes(value), ctr) == K.Credited(s.history, g, cpu, ctr) % U64_LIMIT
  {
    FromBytesExact(value, s.stats[g][cpu]);
    assert P.SlotAgrees(s, g, cpu, ctr);
  }

  lemma SurvivesPrefix(actions: seq<K.Action>, g: u32, n: nat)
    requires n <= |actions| && Survives(actions, g)
    ensures Survives(actions[..n], g) && Survives(actions[n..], g)
  {
  }

  /** What the daemon reads is the credited bytes, seen through the counters' width. */
  lemma LookupShowsCredits(k: K.State, actions: seq<K.Action>, cuts: seq<nat>, g: u32, values: seq<Raw>, ctr: Counter)
    requires P.Inv(k) && g in k.stats && Survives(actions, g) && Copied(k, actions, cuts, g, values)
    ensures StatsCount(Merged(Records(values)), ctr) == Shown(CopiedCredits(k, actions, cuts, g, ctr))
  {
    var exact, records := CopiedCredits(k, actions, cuts, g, ctr), Records(values);
    forall i | 0 <= i < |records| ensures Amount(records[i], ctr) == Remainders(exact)[i] {
      P.ExecInv(k, actions[..cuts[i]]);
      CopiedSlot(AtCut(k, actions, cuts[i]), g, i, values[i], ctr);
    }
    SumsAgree((v: Record) => Amount(v, ctr), records, Remainders(exact));
    MergedCount(records, ctr);
  }

  /** The address of the last credit of `g` on each CPU when that CPU's slot was copied. */
  ghost function CopiedAddrs(k: K.State, actions: seq<K.Action>, cuts: seq<nat>, g: u32, p: K.Protocol)
    : (r: seq<StatsAddr>)
    requires CutsOk(k, actions, cuts)
    ensures |r| == |cuts|
    ensures forall i :: 0 <= i < |cuts| ==> r[i] == K.LastAddr(AtCut(k, actions, cuts[i]).history, g, i, p)
  {
    seq(|cuts|, i requires 0 <= i < |cuts| => K.LastAddr(AtCut(k, actions, cuts[i]).history, g, i, p))
  }

  lemma CopiedAddr(s: K.State, g: u32, cpu: nat, value: Raw, p: K.Protocol)
    requires P.Inv(s) && g in s.stats && cpu < |s.stats[g]| && value == RECORD.enc(s.stats[g][cpu])
    ensures AddrOf(FromBytes(value), p.Tcp?) == K.LastAddr(s.history, g, cpu, p)
  {
    FromBytesExact(value, s.stats[g][cpu]);
    assert P.AddrAgrees(s, g, cpu, p);
  }

  /** The address the daemon reads is the first of those, in CPU order, that says anything. */
  lemma LookupShowsAddr(k: K.State, actions: seq<K.Action>, cuts: seq<nat>, g: u32, values: seq<Raw>, p: K.Protocol)
    requires P.Inv(k) && g in k.stats && Survives(actions, g) && Copied(k, actions, cuts, g, values)
    ensures AddrOf(Some(Merged(Records(values))), p.Tcp?) == FirstOf(CopiedAddrs(k, actions, cuts, g, p))
  {
    var records := Records(values);
    forall i | 0 <= i < |records|
      ensures AddrOf(records[i], p.Tcp?) == CopiedAddrs(k, actions, cuts, g, p)[i]
    {
      P.ExecInv(k, actions[..cuts[i]]);
      CopiedAddr(AtCut(k, actions, cuts[i]), g, i, values[i], p);
    }
    FirstAddrOf(records, p.Tcp?, CopiedAddrs(k, actions, cuts, g, p));
  }

  /** The copied credits lie between those when the lookup began and those when it ended. */
  lemma CopyIsBetween(k: K.State, actions: seq<K.Action>, cuts: seq<nat>, g: u32, ctr: Counter, i: nat)
    requires P.Inv(k) && g in k.stats && Survives(actions, g) && CutsOk(k, actions, cuts) && i < |cuts|
    ensures K.Credited(k.history, g, i, ctr) <= CopiedCredits(k, actions, cuts, g, ctr)[i]
    ensures CopiedCredits(k, actions, cuts, g, ctr)[i] <= K.Credited(K.Exec(k, actions).history, g, i, ctr)
  {
    SurvivesPrefix(actions, g, cuts[i]);
    P.ExecSplit(k, actions, cuts[i]);
    ExecCredits(k, actions[..cuts[i]], g, i, ctr);
    ExecCredits(AtCut(k, actions, cuts[i]), actions[cuts[i]..], g, i, ctr);
  }

  // Kernel and collector together

  datatype Sys = Sys(kernel: K.State, trace: R.Trace)

  datatype Move =
    | Kernel(action: K.Action)
    | Daemon(input: R.Input)                                                       // a start event or a reset
    | Collect(actions: seq<K.Action>, cuts: seq<nat>, values: seq<Raw>, input: R.Input)  // with the kernel running on

  /** A run: the moves since `g`'s start event was applied, latest outermost. */
  datatype Run = Start(sys: Sys) | Go(past: Run, move: Move, sys: Sys)

  /** The collector took one legal call. */
  ghost predicate Called(s: Sys, input: R.Input, d: Sys) {
    d.trace.Then? && d.trace.past == s.trace && d.trace.input == input && R.Legal(d.trace)
  }

  /**
   One move. `g`'s process does not exit. During a collect the answer for `g` is its slots, copied one
   by one while the kernel runs; the answers for other processes are whatever they are.
   */
  ghost predicate Moves(s: Sys, m: Move, d: Sys, g: u32) {
    match m
    case Kernel(a) => a != K.Exit(K.Thread(g, g)) && d.kernel == K.Step(s.kernel, a) && d.trace == s.trace
    case Daemon(input) => !input.Collect? && d.kernel == s.kernel && Called(s, input, d)
    case Collect(actions, cuts, values, input) =>
      && Survives(actions, g) && d.kernel == K.Exec(s.kernel, actions)
      && input.Collect? && Called(s, input, d)
      && Copied(s.kernel, actions, cuts, g, values)
      && (g in input.answers ==> input.answers[g] == Some(Merged(Records(values))))
  }

  /** A run of one entry's lifetime, from the moment its start event is applied. */
  ghost predicate Lifetime(run: Run, g: u32) {
    match run
    case Start(s) =>
      && P.Inv(s.kernel) && g in s.kernel.stats
      && R.Legal(s.trace) && s.trace.Then? && s.trace.input.Started? && s.trace.input.pid == g
    case Go(past, m, d) => Lifetime(past, g) && Moves(past.sys, m, d, g)
  }

  /** The credits the last collect saw, CPU by CPU; none when the baseline was zeroed after it. */
  ghost function Seen(run: Run, g: u32, ctr: Counter): (r: seq<nat>)
    requires Lifetime(run, g)
    ensures |r| == Cpus(run)
  {
    match run
    case Start(s) => seq(s.kernel.cpus, _ => 0)
    case Go(past, Kernel(a), _) => Seen(past, g, ctr)
    case Go(past, Daemon(input), _) =>
      if input.ResetAll? || input.pid == g then seq(Cpus(past), _ => 0) else Seen(past, g, ctr)
    case Go(past, Collect(actions, cuts, values, input), _) =>
      LifetimeCpus(past, g);
      CopiedCredits(past.sys.kernel, actions, cuts, g, ctr)
  }

  ghost function Cpus(run: Run): nat {
    match run case Start(s) => s.kernel.cpus case Go(past, _, _) => Cpus(past)
  }

  /** The entry stays where it is, and the process stays tracked. */
  lemma {:induction false} LifetimeCpus(run: Run, g: u32)
    requires Lifetime(run, g)
    ensures run.sys.kernel.cpus == Cpus(run)
    ensures P.Inv(run.sys.kernel) && g in run.sys.kernel.stats && R.Legal(run.sys.trace)
  {
    if run.Go? {
      LifetimeCpus(run.past, g);
      var k := run.past.sys.kernel;
      match run.move
      case Kernel(a) =>
        P.StepInv(k, a);
        P.SameCpus(k, a);
        StepCredits(k, a, g, 0, TcpSent);
      case Daemon(_) =>
      case Collect(actions, _, _, _) => ExecCredits(k, actions, g, 0, TcpSent);
    }
  }

  /** The relation every move keeps between what was reported and what was credited. */
  ghost predicate Honest(run: Run, g: u32, ctr: Counter)
    requires Lifetime(run, g)
  {
    var seen, t := Seen(run, g, ctr), run.sys.trace;
    && R.ShouldTrack(t, g)
    && Baseline(R.Remembered(t, g), ctr) == Shown(seen)
    && R.Reported(t, g, ctr) <= Sum(seen)
    && (R.Reported(t, g, ctr) == Sum(seen) <==> Sum(seen) < U64_LIMIT)
    && forall i :: 0 <= i < |seen| ==> seen[i] <= K.Credited(run.sys.kernel.history, g, i, ctr)
  }

  lemma {:induction false} SumZeros(n: nat)
    ensures Sum(seq(n, _ => 0)) == 0 && Shown(seq(n, _ => 0)) == 0
  {
    var z := seq(n, _ => 0);
    SumAtMost(Itself, z, 0);
    RemaindersExact(z);
  }

  /** A tracked process is asked about, and reported against its baseline. */
  lemma CollectSees(run: Run, g: u32, ctr: Counter)
    requires run.Go? && run.move.Collect? && Lifetime(run, g)
    requires R.ShouldTrack(run.past.sys.trace, g)
    ensures g in run.move.input.answers
    ensures R.Reported(run.sys.trace, g, ctr)
            == R.Reported(run.past.sys.trace, g, ctr)
               + SatSub(Shown(Seen(run, g, ctr)), Baseline(R.Remembered(run.past.sys.trace, g), ctr))
    ensures Baseline(R.Remembered(run.sys.trace, g), ctr) == Shown(Seen(run, g, ctr))
  {
    LifetimeCpus(run.past, g);
    var t := run.sys.trace;
    var Collect(actions, cuts, values, input) := run.move;
    R.HistoryExact(t.past);
    assert C.Tracked(R.StateOf(t.past).procs, g);
    R.CollectReports(t, g, ctr);
    LookupShowsCredits(run.past.sys.kernel, actions, cuts, g, values, ctr);
  }

  /** On every CPU a collect sees at least what the last one saw, and at most what is credited now. */
  lemma CollectGrows(run: Run, g: u32, ctr: Counter, i: nat)
    requires run.Go? && run.move.Collect? && Lifetime(run, g) && i < Cpus(run.past)
    requires Seen(run.past, g, ctr)[i] <= K.Credited(run.past.sys.kernel.history, g, i, ctr)
    ensures Seen(run.past, g, ctr)[i] <= Seen(run, g, ctr)[i] <= K.Credited(run.sys.kernel.history, g, i, ctr)
  {
    LifetimeCpus(run.past, g);
    CopyIsBetween(run.past.sys.kernel, run.move.actions, run.move.cuts, g, ctr, i);
  }

  lemma CollectHonest(run: Run, g: u32, ctr: Counter)
    requires run.Go? && run.move.Collect? && Lifetime(run, g) && Honest(run.past, g, ctr)
    ensures Honest(run, g, ctr)
  {
    CollectSees(run, g, ctr);
    var before, after := Seen(run.past, g, ctr), Seen(run, g, ctr);
    forall i | 0 <= i < |after|
      ensures before[i] <= after[i] && after[i] <= K.Credited(run.sys.kernel.history, g, i, ctr)
    {
      CollectGrows(run, g, ctr, i);
    }
    ReportStep(before, after, R.Reported(run.past.sys.trace, g, ctr));
  }

  lemma KernelHonest(run: Run, g: u32, ctr: Counter)
    requires run.Go? && run.move.Kernel? && Lifetime(run, g) && Honest(run.past, g, ctr)
    ensures Honest(run, g, ctr)
  {
    LifetimeCpus(run.past, g);
    forall i | 0 <= i < |Seen(run, g, ctr)|
      ensures Seen(run, g, ctr)[i] <= K.Credited(run.sys.kernel.history, g, i, ctr)
    {
      StepCredits(run.past.sys.kernel, run.move.action, g, i, ctr);
    }
  }

  lemma DaemonHonest(run: Run, g: u32, ctr: Counter)
    requires run.Go? && run.move.Daemon? && Lifetime(run, g) && Honest(run.past, g, ctr)
    ensures Honest(run, g, ctr)
  {
    SumZeros(Cpus(run.past));
  }

  lemma {:induction false} StaysHonest(run: Run, g: u32, ctr: Counter)
    requires Lifetime(run, g)
    ensures Honest(run, g, ctr)
  {
    match run
    case Start(s) => SumZeros(s.kernel.cpus);
    case Go(past, m, _) =>
      StaysHonest(past, g, ctr);
      match m {
        case Kernel(_) => KernelHonest(run, g, ctr);
        case Daemon(_) => DaemonHonest(run, g, ctr);
        case Collect(_, _, _, _) => CollectHonest(run, g, ctr);
      }
  }

  /**
   End to end: after any collect in the lifetime of an entry, whatever the kernel did meanwhile on
   whatever CPUs, the traffic reported since the baseline was last zeroed never exceeds the bytes the
   kernel had credited to the entry when its slots were copied, and equals them exactly when they fit
   in 64 bits. Those bytes lie between all that was credited to the entry when the lookup began and
   when it ended.
   */
  lemma ReportedEqualsCredited(run: Run, g: u32, ctr: Counter)
    requires Lifetime(run, g) && run.Go? && run.move.Collect?
    ensures R.Reported(run.sys.trace, g, ctr) <= Sum(Seen(run, g, ctr))
    ensures R.Reported(run.sys.trace, g, ctr) == Sum(Seen(run, g, ctr)) <==> Sum(Seen(run, g, ctr)) < U64_LIMIT
    ensures K.CreditedTotal(run.past.sys.kernel.history, g, ctr) <= Sum(Seen(run, g, ctr))
    ensures Sum(Seen(run, g, ctr)) <= K.CreditedTotal(run.sys.kernel.history, g, ctr)
  {
    StaysHonest(run, g, ctr);
    SeenIsBetween(run, g, ctr);
  }

  /** What a collect saw lies between all that was credited when its lookup began and when it ended. */
  lemma SeenIsBetween(run: Run, g: u32, ctr: Counter)
    requires Lifetime(run, g) && run.Go? && run.move.Collect?
    ensures K.CreditedTotal(run.past.sys.kernel.history, g, ctr) <= Sum(Seen(run, g, ctr))
    ensures Sum(Seen(run, g, ctr)) <= K.CreditedTotal(run.sys.kernel.history, g, ctr)
  {
    LifetimeCpus(run.past, g);
    LifetimeCpus(run, g);
    CopyIsBetweenTotals(run.past.sys.kernel, run.move.actions, run.move.cuts, g, ctr);
  }

  lemma CopyIsBetweenTotals(k: K.State, actions: seq<K.Action>, cuts: seq<nat>, g: u32, ctr: Counter)
    requires P.Inv(k) && g in k.stats && Survives(actions, g) && CutsOk(k, actions, cuts)
    ensures K.CreditedTotal(k.history, g, ctr) <= Sum(CopiedCredits(k, actions, cuts, g, ctr))
    ensures Sum(CopiedCredits(k, actions, cuts, g, ctr)) <= K.CreditedTotal(K.Exec(k, actions).history, g, ctr)
  {
    var d, n := K.Exec(k, actions), k.cpus;
    var before, copied, after := K.Credits(k.history, g, ctr, n), CopiedCredits(k, actions, cuts, g, ctr),
                                 K.Credits(d.history, g, ctr, n);
    forall i | 0 <= i < n ensures before[i] <= copied[i] <= after[i] {
      CopyIsBetween(k, actions, cuts, g, ctr, i);
    }
    SumMonotone(before, copied);
    SumMonotone(copied, after);
    P.ExecInv(k, actions);
    P.ExecCpus(k, actions);
    P.CreditsAddUp(k.history, g, ctr, n);
    P.CreditsAddUp(d.history, g, ctr, n);
  }

  /** With the kernel idle during the lookup: reported is credited, exactly when that fits in 64 bits. */
  lemma QuietCollectIsExact(run: Run, g: u32, ctr: Counter)
    requires Lifetime(run, g) && run.Go? && run.move.Collect? && run.move.actions == []
    ensures var credited := K.CreditedTotal(run.sys.kernel.history, g, ctr);
            && R.Reported(run.sys.trace, g, ctr) <= credited
            && (R.Reported(run.sys.trace, g, ctr) == credited <==> credited < U64_LIMIT)
  {
    ReportedEqualsCredited(run, g, ctr);
  }

  /** The address a collect shows for one protocol. */
  ghost function SeenAddr(run: Run, g: u32, p: K.Protocol): StatsAddr
    requires Lifetime(run, g) && run.Go? && run.move.Collect?
  {
    FirstOf(CopiedAddrs(run.past.sys.kernel, run.move.actions, run.move.cuts, g, p))
  }

  /**
   A collect in the lifetime reports the process in a row. Its cumulative counts are the credits the
   collect copied; its addresses are those of the last credits on the first CPU that has any.
   */
  lemma RowShowsCredits(run: Run, g: u32, ctr: Counter) returns (k: nat)
    requires Lifetime(run, g) && run.Go? && run.move.Collect?
    ensures run.move.input.Collect? && k < |run.move.input.rows| && run.move.input.rows[k].pid == g
    ensures forall i :: 0 <= i < |run.move.input.rows| && run.move.input.rows[i].pid == g ==>
              && Count(run.move.input.rows[i].tcpCum, run.move.input.rows[i].udpCum, ctr) == Shown(Seen(run, g, ctr))
              && run.move.input.rows[i].tcp.addr == SeenAddr(run, g, K.Tcp)
              && run.move.input.rows[i].udp.addr == SeenAddr(run, g, K.Udp)
  {
    ReadingShows(run, g, ctr);
    var t := run.sys.trace;
    k := RowsOfFound(R.StateOf(t.past), run.move.input, t.state, g);
  }

  /** A collect in the lifetime finds the process, and reads its credits and addresses as copied. */
  lemma ReadingShows(run: Run, g: u32, ctr: Counter)
    requires Lifetime(run, g) && run.Go? && run.move.Collect?
    ensures run.move.input.Collect? && g in run.move.input.answers && run.move.input.answers[g].Some?
    ensures var s := run.move.input.answers[g].value;
            && StatsCount(s, ctr) == Shown(Seen(run, g, ctr))
            && s.tcp.addr == SeenAddr(run, g, K.Tcp) && s.udp.addr == SeenAddr(run, g, K.Udp)
  {
    StaysHonest(run.past, g, ctr);
    LifetimeCpus(run.past, g);
    CollectSees(run, g, ctr);
    var m, kernel := run.move, run.past.sys.kernel;
    LookupShowsCredits(kernel, m.actions, m.cuts, g, m.values, ctr);
    LookupShowsAddr(kernel, m.actions, m.cuts, g, m.values, K.Tcp);
    LookupShowsAddr(kernel, m.actions, m.cuts, g, m.values, K.Udp);
  }

  /** The rows of a process that was found carry what was read of it. */
  ghost predicate RowsCarry(rows: seq<StatsRow>, g: u32, s: ProcStats) {
    forall i :: 0 <= i < |rows| && rows[i].pid == g ==>
      && rows[i].tcpCum == s.tcp.bytes && rows[i].udpCum == s.udp.bytes
      && rows[i].tcp.addr == s.tcp.addr && rows[i].udp.addr == s.udp.addr
  }

  lemma RowsOfFound(c: R.State, input: R.Input, d: R.State, g: u32) returns (k: nat)
    requires input.Collect? && R.Next(c, input, d) && g in input.answers && input.answers[g].Some?
    ensures k < |input.rows| && input.rows[k].pid == g
    ensures RowsCarry(input.rows, g, input.answers[g].value)
  {
    var Collect(answers, at, kept, removed, rows) := input;
    k := R.FoundIsKept(c.procs, answers, at, kept, removed, d.procs, rows, g);
    forall i | 0 <= i < |rows| && rows[i].pid == g
      ensures rows[i] == C.RowOf(kept[i], answers[g].value)
    {
      assert rows[i] == C.RowOf(kept[i], answers[kept[i].pid].value);
    }
  }
}
