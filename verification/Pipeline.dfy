/**
 From the probe to the client: the kernel, the whole daemon and its clients in one run, following one
 process through one lifetime of its map entry.
 */
module Pipeline {
  import opened Words
  import opened StatsTypes
  import opened Layout
  import opened Delivery
  import B = Broadcast
  import R = CollectorRuns
  import E = EndToEnd
  import K = Kernel
  import S = Service

  /** The daemon's run beside that of kernel and collector; the collector's calls are the same in both. */
  datatype Story = Birth(run: E.Run, served: S.Run) | Step(past: Story, run: E.Run, served: S.Run)

  ghost predicate KernelOrCall(before: E.Run, after: E.Run, g: u32) {
    after == before || (after.Go? && after.past == before && E.Moves(before.sys, after.move, after.sys, g))
  }

  ghost predicate Serves(before: S.Run, after: S.Run) {
    after == before || (after.Then? && after.past == before)
  }

  ghost predicate Told(st: Story, g: u32) {
    && S.Legal(SNAPSHOT, st.served)
    && st.run.sys.trace == S.Now(st.served).trace
    && match st
       case Birth(run, _) => run.Start? && E.Lifetime(run, g)
       case Step(past, run, served) => Told(past, g) && KernelOrCall(past.run, run, g) && Serves(past.served, served)
  }

  ghost function Msgs(st: Story): seq<SnapshotData> {
    S.Now(st.served).msgs
  }

  /** How many snapshots had been published when the process was first heard of. */
  ghost function Earlier(st: Story): nat {
    match st case Birth(_, served) => |S.Now(served).msgs| case Step(past, _, _) => Earlier(past)
  }

  /** The run as it stood at each snapshot published since. */
  ghost function Ticks(st: Story): seq<E.Run> {
    match st
    case Birth(_, _) => []
    case Step(past, run, _) => if |Msgs(st)| > |Msgs(past)| then Ticks(past) + [run] else Ticks(past)
  }

  /** Collects since the process's baseline was last zeroed. */
  ghost function SinceZeroed(run: E.Run, g: u32): nat {
    match run
    case Start(_) => 0
    case Go(past, Kernel(_), _) => SinceZeroed(past, g)
    case Go(past, Daemon(input), _) => if input.Started? && input.pid != g then SinceZeroed(past, g) else 0
    case Go(past, Collect(_, _, _, _), _) => SinceZeroed(past, g) + 1
  }

  lemma {:induction false} StoryIsLifetime(st: Story, g: u32)
    requires Told(st, g)
    ensures E.Lifetime(st.run, g)
  {
    if st.Step? {
      StoryIsLifetime(st.past, g);
    }
  }

  ghost function Daemon(st: Story): S.State {
    S.Now(st.served)
  }

  /** The daemon publishes or is silent, and stays stopped once it is. */
  lemma ServedStep(st: Story, g: u32)
    requires Told(st, g) && st.Step?
    ensures S.Published(Daemon(st.past), Daemon(st)) || S.Silent(Daemon(st.past), Daemon(st))
    ensures Daemon(st.past).stopped ==> Daemon(st).stopped
  {
    if st.served != st.past.served {
      S.PublishedOrSilent(SNAPSHOT, Daemon(st.past), st.served.move, Daemon(st));
    }
  }

  /** The rows a collect reported. */
  ghost function RowsOf(run: E.Run): seq<StatsRow> {
    if run.Go? && run.move.Collect? && run.move.input.Collect? then run.move.input.rows else []
  }

  ghost predicate Collects(before: E.Run, after: E.Run) {
    after.Go? && after.past == before && after.move.Collect?
  }

  /** One step, as far as snapshots go: a collect whose rows are published, or neither (unless the daemon stopped). */
  ghost predicate Link(past: Story, st: Story) {
    && (Daemon(past).stopped ==> Daemon(st).stopped)
    && if |Msgs(st)| > |Msgs(past)|
       then && |Msgs(st)| == |Msgs(past)| + 1 && Msgs(st)[..|Msgs(past)|] == Msgs(past)
            && Collects(past.run, st.run) && Msgs(st)[|Msgs(past)|].rows == RowsOf(st.run) && !Daemon(st).stopped
       else Msgs(st) == Msgs(past) && (Daemon(st).stopped || !Collects(past.run, st.run))
  }

  ghost predicate Linked(st: Story) {
    st.Step? ==> Linked(st.past) && Link(st.past, st)
  }

  /** A step of kernel and collector collects exactly when the collector's calls say so. */
  ghost predicate CallCollects(before: R.Trace, after: R.Trace) {
    after.Then? && after.past == before && after.input.Collect?
  }

  lemma RunCollects(before: E.Run, after: E.Run, g: u32)
    requires KernelOrCall(before, after, g)
    ensures Collects(before, after) <==> CallCollects(before.sys.trace, after.sys.trace)
    ensures Collects(before, after) ==> RowsOf(after) == after.sys.trace.input.rows
  {
    if after.Go? {
      NotOwnPast(after);
    }
    if after.sys.trace.Then? {
      NotOwnTrace(after.sys.trace);
    }
  }

  lemma DaemonCollects(s: S.State, d: S.State)
    requires S.Published(s, d) || S.Silent(s, d)
    ensures S.Published(s, d) ==> CallCollects(s.trace, d.trace)
    ensures S.Silent(s, d) ==> d.stopped || !CallCollects(s.trace, d.trace)
  {
    if d.trace.Then? {
      NotOwnTrace(d.trace);
    }
  }

  lemma StepLink(past: Story, st: Story)
    requires Daemon(past).stopped ==> Daemon(st).stopped
    requires || (S.Published(Daemon(past), Daemon(st)) && Collects(past.run, st.run)
                 && RowsOf(st.run) == Daemon(st).trace.input.rows)
             || (S.Silent(Daemon(past), Daemon(st)) && (Daemon(st).stopped || !Collects(past.run, st.run)))
    ensures Link(past, st)
  {
  }

  lemma ToldLink(st: Story, g: u32)
    requires Told(st, g) && st.Step?
    ensures Link(st.past, st)
  {
    ServedStep(st, g);
    DaemonCollects(Daemon(st.past), Daemon(st));
    RunCollects(st.past.run, st.run, g);
    StepLink(st.past, st);
  }

  ghost function Length(run: E.Run): nat {
    match run case Start(_) => 0 case Go(past, _, _) => Length(past) + 1
  }

  ghost function Calls(t: R.Trace): nat {
    match t case Begin => 0 case Then(past, _, _) => Calls(past) + 1
  }

  lemma NotOwnPast(run: E.Run)
    requires run.Go?
    ensures run.past != run
  {
    assert Length(run) == Length(run.past) + 1;
  }

  lemma NotOwnTrace(t: R.Trace)
    requires t.Then?
    ensures t.past != t
  {
    assert Calls(t) == Calls(t.past) + 1;
  }

  lemma {:induction false} ToldIsLinked(st: Story, g: u32)
    requires Told(st, g)
    ensures Linked(st)
  {
    if st.Step? {
      ToldIsLinked(st.past, g);
      ToldLink(st, g);
    }
  }

  lemma {:induction false} CountTicks(st: Story)
    requires Linked(st)
    ensures |Msgs(st)| == Earlier(st) + |Ticks(st)|
  {
    if st.Step? {
      CountTicks(st.past);
    }
  }

  /** Published snapshots stay where they are. */
  lemma KeepsMsgs(past: Story, st: Story, k: nat)
    requires Link(past, st) && k < |Msgs(past)|
    ensures k < |Msgs(st)| && Msgs(st)[k] == Msgs(past)[k]
  {
    if |Msgs(st)| > |Msgs(past)| {
      assert Msgs(st)[..|Msgs(past)|][k] == Msgs(past)[k];
    }
  }

  /** The ticks line up with the snapshots. */
  lemma {:induction false} TicksLineUp(st: Story, i: nat)
    requires Linked(st) && i < |Ticks(st)|
    ensures |Msgs(st)| == Earlier(st) + |Ticks(st)|
    ensures Msgs(st)[Earlier(st) + i].rows == RowsOf(Ticks(st)[i])
  {
    CountTicks(st);
    CountTicks(st.past);
    if i < |Ticks(st.past)| {
      TicksLineUp(st.past, i);
      KeepsMsgs(st.past, st, Earlier(st) + i);
    }
  }

  lemma {:induction false} TickIsCollect(st: Story, g: u32, i: nat)
    requires Told(st, g) && i < |Ticks(st)|
    ensures E.Lifetime(Ticks(st)[i], g) && Ticks(st)[i].Go? && Ticks(st)[i].move.Collect?
  {
    if i < |Ticks(st.past)| {
      TickIsCollect(st.past, g, i);
    } else {
      ToldLink(st, g);
      StoryIsLifetime(st, g);
    }
  }

  // What the snapshots say about the process

  /** The traffic of `g` in the snapshots from `from` up to, not including, `to`. */
  ghost function Adds(msgs: seq<SnapshotData>, from: nat, to: nat, g: u32, ctr: Counter): nat
    requires from <= to <= |msgs|
  {
    SumBy((m: SnapshotData) => R.ReportedIn(m.rows, g, ctr), msgs[from..to])
  }

  lemma AddsMore(msgs: seq<SnapshotData>, from: nat, to: nat, g: u32, ctr: Counter)
    requires from <= to < |msgs|
    ensures Adds(msgs, from, to + 1, g, ctr) == Adds(msgs, from, to, g, ctr) + R.ReportedIn(msgs[to].rows, g, ctr)
  {
    assert msgs[from..to + 1] == msgs[from..to] + [msgs[to]];
    SumAppend((m: SnapshotData) => R.ReportedIn(m.rows, g, ctr), msgs[from..to], [msgs[to]]);
  }

  /** The last `k` of the first `n` snapshots, all of them since the process was heard of, add up to `reported`. */
  ghost predicate Tally(msgs: seq<SnapshotData>, earlier: nat, n: nat, k: nat, reported: nat, g: u32, ctr: Counter) {
    earlier + k <= n <= |msgs| && reported == Adds(msgs, n - k, n, g, ctr)
  }

  lemma TallyNone(msgs: seq<SnapshotData>, earlier: nat, n: nat, g: u32, ctr: Counter)
    requires earlier <= n <= |msgs|
    ensures Tally(msgs, earlier, n, 0, 0, g, ctr)
  {
    assert msgs[n..n] == [];
  }

  lemma TallyKept(msgs: seq<SnapshotData>, more: seq<SnapshotData>, earlier: nat, n: nat, k: nat, reported: nat,
                  g: u32, ctr: Counter)
    requires Tally(msgs, earlier, n, k, reported, g, ctr) && |msgs| <= |more| && more[..|msgs|] == msgs
    ensures Tally(more, earlier, n, k, reported, g, ctr)
  {
    assert more[n - k..n] == more[..|msgs|][n - k..n];
  }

  lemma TallyMore(msgs: seq<SnapshotData>, earlier: nat, n: nat, k: nat, reported: nat, g: u32, ctr: Counter)
    requires Tally(msgs, earlier, n, k, reported, g, ctr) && n < |msgs|
    ensures Tally(msgs, earlier, n + 1, k + 1, reported + R.ReportedIn(msgs[n].rows, g, ctr), g, ctr)
  {
    AddsMore(msgs, n - k, n, g, ctr);
  }

  /** What a step of kernel and collector does to the reports about the process. */
  ghost predicate ReportsOn(before: E.Run, after: E.Run, g: u32, ctr: Counter) {
    var r, r' := R.Reported(before.sys.trace, g, ctr), R.Reported(after.sys.trace, g, ctr);
    var k, k' := SinceZeroed(before, g), SinceZeroed(after, g);
    if Collects(before, after) then k' == k + 1 && r' == r + R.ReportedIn(RowsOf(after), g, ctr)
    else (k' == k && r' == r) || (k' == 0 && r' == 0)
  }

  lemma ReportsStep(before: E.Run, after: E.Run, g: u32, ctr: Counter)
    requires KernelOrCall(before, after, g)
    ensures ReportsOn(before, after, g, ctr)
  {
    if Collects(before, after) {
      NotOwnPast(after);
    }
  }

  /** The deltas published since the baseline was last zeroed are those reported since then. */
  ghost predicate AddsUp(st: Story, g: u32, ctr: Counter) {
    Tally(Msgs(st), Earlier(st), |Msgs(st)|, SinceZeroed(st.run, g), R.Reported(st.run.sys.trace, g, ctr), g, ctr)
  }

  lemma CollectAddsUp(past: Story, st: Story, g: u32, ctr: Counter)
    requires ReportsOn(past.run, st.run, g, ctr) && Collects(past.run, st.run) && Earlier(st) == Earlier(past)
    requires |Msgs(st)| == |Msgs(past)| + 1 && Msgs(st)[..|Msgs(past)|] == Msgs(past)
    requires Msgs(st)[|Msgs(past)|].rows == RowsOf(st.run)
    requires AddsUp(past, g, ctr)
    ensures AddsUp(st, g, ctr)
  {
    var n, k, r := |Msgs(past)|, SinceZeroed(past.run, g), R.Reported(past.run.sys.trace, g, ctr);
    TallyKept(Msgs(past), Msgs(st), Earlier(past), n, k, r, g, ctr);
    TallyMore(Msgs(st), Earlier(past), n, k, r, g, ctr);
  }

  lemma OtherAddsUp(past: Story, st: Story, g: u32, ctr: Counter)
    requires ReportsOn(past.run, st.run, g, ctr) && !Collects(past.run, st.run) && Earlier(st) == Earlier(past)
    requires Msgs(st) == Msgs(past)
    requires AddsUp(past, g, ctr)
    ensures AddsUp(st, g, ctr)
  {
    TallyNone(Msgs(past), Earlier(past), |Msgs(past)|, g, ctr);
  }

  lemma {:induction false} StoryAddsUp(st: Story, g: u32, ctr: Counter)
    requires Told(st, g) && !Daemon(st).stopped
    ensures AddsUp(st, g, ctr)
  {
    if st.Step? {
      ToldLink(st, g);
      StoryAddsUp(st.past, g, ctr);
      ReportsStep(st.past.run, st.run, g, ctr);
      if Collects(st.past.run, st.run) {
        CollectAddsUp(st.past, st, g, ctr);
      } else {
        OtherAddsUp(st.past, st, g, ctr);
      }
    } else {
      TallyNone(Msgs(st), Earlier(st), |Msgs(st)|, g, ctr);
    }
  }

  /** That the deltas add up, all along the story. */
  ghost predicate AddsUpAlong(st: Story, g: u32, ctr: Counter) {
    && (!Daemon(st).stopped ==> AddsUp(st, g, ctr))
    && (st.Step? ==> AddsUpAlong(st.past, g, ctr))
  }

  lemma {:induction false} StoryAddsUpAlong(st: Story, g: u32, ctr: Counter)
    requires Told(st, g)
    ensures AddsUpAlong(st, g, ctr)
  {
    if !Daemon(st).stopped {
      StoryAddsUp(st, g, ctr);
    }
    if st.Step? {
      StoryAddsUpAlong(st.past, g, ctr);
    }
  }

  ghost predicate TickAddsUp(st: Story, i: nat, g: u32, ctr: Counter)
    requires i < |Ticks(st)|
  {
    var run := Ticks(st)[i];
    Tally(Msgs(st), Earlier(st), Earlier(st) + i + 1, SinceZeroed(run, g), R.Reported(run.sys.trace, g, ctr), g, ctr)
  }

  /** So they do at every published snapshot: it and those before it, back to the last zeroing. */
  lemma {:induction false} TicksAddUp(st: Story, g: u32, i: nat, ctr: Counter)
    requires Linked(st) && AddsUpAlong(st, g, ctr) && i < |Ticks(st)|
    ensures TickAddsUp(st, i, g, ctr)
  {
    if i < |Ticks(st.past)| {
      TicksAddUp(st.past, g, i, ctr);
      TickKept(st.past, st, g, i, ctr);
    } else {
      CountTicks(st);
    }
  }

  lemma TickKept(past: Story, st: Story, g: u32, i: nat, ctr: Counter)
    requires Link(past, st) && Earlier(st) == Earlier(past)
    requires i < |Ticks(past)| <= |Ticks(st)| && Ticks(st)[i] == Ticks(past)[i] && TickAddsUp(past, i, g, ctr)
    ensures TickAddsUp(st, i, g, ctr)
  {
    var run := Ticks(past)[i];
    assert Msgs(st)[..|Msgs(past)|] == Msgs(past);
    TallyKept(Msgs(past), Msgs(st), Earlier(past), Earlier(past) + i + 1, SinceZeroed(run, g),
              R.Reported(run.sys.trace, g, ctr), g, ctr);
  }

  // What each published snapshot has to do with the kernel's credits

  /** The bytes credited to the process when a collect copied its slots, over all CPUs. */
  ghost function CreditsCopied(run: E.Run, g: u32, ctr: Counter): nat {
    if E.Lifetime(run, g) then Sum(E.Seen(run, g, ctr)) else 0
  }

  /** What a row shows of a process: one cumulative count, and its addresses. */
  datatype Display = Display(count: nat, tcp: StatsAddr, udp: StatsAddr)

  /** The credits a collect copied, as the counters' width lets them show, and the addresses that came with them. */
  ghost function CreditsShown(run: E.Run, g: u32, ctr: Counter): Display {
    if E.Lifetime(run, g) && run.Go? && run.move.Collect?
    then Display(E.Shown(E.Seen(run, g, ctr)), E.SeenAddr(run, g, K.Tcp), E.SeenAddr(run, g, K.Udp))
    else Display(0, DEFAULT_ADDR, DEFAULT_ADDR)
  }

  /**
   The run ends in a collect in the process's lifetime, and the credits it copied lie between all that was
   credited to the entry when its lookup began and when it ended.
   */
  ghost predicate Bracketed(run: E.Run, g: u32, ctr: Counter) {
    && E.Lifetime(run, g) && run.Go? && run.move.Collect?
    && CreditsCopied(run, g, ctr) == Sum(E.Seen(run, g, ctr))
    && K.CreditedTotal(run.past.sys.kernel.history, g, ctr) <= CreditsCopied(run, g, ctr)
    && CreditsCopied(run, g, ctr) <= K.CreditedTotal(run.sys.kernel.history, g, ctr)
  }

  lemma CollectBracketed(run: E.Run, g: u32, ctr: Counter)
    requires E.Lifetime(run, g) && run.Go? && run.move.Collect?
    ensures Bracketed(run, g, ctr)
  {
    E.SeenIsBetween(run, g, ctr);
  }

  ghost predicate Exact(reported: nat, credited: nat) {
    reported <= credited && (reported == credited <==> credited < U64_LIMIT)
  }

  ghost predicate ShowsCredits(rows: seq<StatsRow>, g: u32, shown: Display, ctr: Counter) {
    && (exists i :: 0 <= i < |rows| && rows[i].pid == g)
    && (forall i :: 0 <= i < |rows| && rows[i].pid == g ==>
          && Count(rows[i].tcpCum, rows[i].udpCum, ctr) == shown.count
          && rows[i].tcp.addr == shown.tcp && rows[i].udp.addr == shown.udp)
  }

  ghost predicate CollectIsExact(run: E.Run, credited: nat, shown: Display, g: u32, ctr: Counter) {
    && SinceZeroed(run, g) > 0
    && Exact(R.Reported(run.sys.trace, g, ctr), credited)
    && ShowsCredits(RowsOf(run), g, shown, ctr)
  }

  lemma CollectReportsExactly(run: E.Run, g: u32, ctr: Counter)
    requires E.Lifetime(run, g) && run.Go? && run.move.Collect?
    ensures SinceZeroed(run, g) > 0 && Exact(R.Reported(run.sys.trace, g, ctr), CreditsCopied(run, g, ctr))
  {
    E.ReportedEqualsCredited(run, g, ctr);
  }

  lemma CollectShows(run: E.Run, g: u32, ctr: Counter)
    requires E.Lifetime(run, g) && run.Go? && run.move.Collect?
    ensures ShowsCredits(RowsOf(run), g, CreditsShown(run, g, ctr), ctr)
  {
    var j := E.RowShowsCredits(run, g, ctr);
  }

  ghost predicate IsExact(run: E.Run, g: u32, ctr: Counter) {
    CollectIsExact(run, CreditsCopied(run, g, ctr), CreditsShown(run, g, ctr), g, ctr)
  }

  lemma CollectExact(run: E.Run, g: u32, ctr: Counter)
    requires E.Lifetime(run, g) && run.Go? && run.move.Collect?
    ensures IsExact(run, g, ctr)
  {
    CollectReportsExactly(run, g, ctr);
    CollectShows(run, g, ctr);
  }

  lemma TickExact(st: Story, g: u32, i: nat, run: E.Run, ctr: Counter)
    requires Told(st, g) && i < |Ticks(st)| && run == Ticks(st)[i]
    ensures IsExact(run, g, ctr)
  {
    TickIsCollect(st, g, i);
    CollectExact(run, g, ctr);
  }

  lemma TickBracketed(st: Story, g: u32, i: nat, run: E.Run, ctr: Counter)
    requires Told(st, g) && i < |Ticks(st)| && run == Ticks(st)[i]
    ensures Bracketed(run, g, ctr)
  {
    TickIsCollect(st, g, i);
    CollectBracketed(run, g, ctr);
  }

  /** Snapshots since the process was heard of come from collects in its lifetime. */
  lemma OriginBracketed(st: Story, m: nat, g: u32, ctr: Counter)
    requires Told(st, g) && Earlier(st) <= m < |Msgs(st)|
    ensures Bracketed(Origin(st, m), g, ctr)
  {
    ToldIsLinked(st, g);
    var i := OriginIsTick(st, m);
    TickBracketed(st, g, i, Origin(st, m), ctr);
  }

  /** The run in which snapshot `m` was collected, when the process had been heard of by then. */
  ghost function Origin(st: Story, m: nat): E.Run {
    if Earlier(st) <= m < Earlier(st) + |Ticks(st)| then Ticks(st)[m - Earlier(st)] else st.run
  }

  /** What every snapshot since then says of the process. */
  ghost predicate SnapshotIsExact(st: Story, m: nat, g: u32, ctr: Counter)
    requires m < |Msgs(st)|
  {
    var run := Origin(st, m);
    SaysExactly(Msgs(st), m, SinceZeroed(run, g), CreditsCopied(run, g, ctr), CreditsShown(run, g, ctr), g, ctr)
  }

  /** Snapshot `m` shows `shown`, and with the `z - 1` before it adds up to `credited`. */
  ghost predicate SaysExactly(msgs: seq<SnapshotData>, m: nat, z: nat, credited: nat, shown: Display, g: u32,
                              ctr: Counter)
    requires m < |msgs|
  {
    && 0 < z <= m + 1
    && Exact(Adds(msgs, m + 1 - z, m + 1, g, ctr), credited)
    && ShowsCredits(msgs[m].rows, g, shown, ctr)
  }

  lemma TallySays(msgs: seq<SnapshotData>, earlier: nat, m: nat, z: nat, reported: nat, credited: nat, shown: Display,
                  g: u32, ctr: Counter)
    requires m < |msgs| && z > 0 && Tally(msgs, earlier, m + 1, z, reported, g, ctr) && Exact(reported, credited)
    requires ShowsCredits(msgs[m].rows, g, shown, ctr)
    ensures SaysExactly(msgs, m, z, credited, shown, g, ctr)
  {
  }

  lemma OriginExact(st: Story, m: nat, credited: nat, shown: Display, g: u32, ctr: Counter)
    requires Linked(st) && AddsUpAlong(st, g, ctr) && Earlier(st) <= m < |Msgs(st)|
    requires CollectIsExact(Origin(st, m), credited, shown, g, ctr)
    ensures SaysExactly(Msgs(st), m, SinceZeroed(Origin(st, m), g), credited, shown, g, ctr)
  {
    CountTicks(st);
    var i := m - Earlier(st);
    TicksLineUp(st, i);
    TicksAddUp(st, g, i, ctr);
    var run := Ticks(st)[i];
    TallySays(Msgs(st), Earlier(st), m, SinceZeroed(run, g), R.Reported(run.sys.trace, g, ctr), credited, shown,
              g, ctr);
  }

  /** In every story every snapshot is exact. */
  lemma SnapshotsExact(st: Story, m: nat, g: u32, ctr: Counter)
    requires Told(st, g) && Earlier(st) <= m < |Msgs(st)|
    ensures SnapshotIsExact(st, m, g, ctr)
  {
    ToldIsLinked(st, g);
    StoryAddsUpAlong(st, g, ctr);
    var i := OriginIsTick(st, m);
    TickExact(st, g, i, Origin(st, m), ctr);
    LinkedExact(st, m, g, ctr);
  }

  lemma OriginIsTick(st: Story, m: nat) returns (i: nat)
    requires Linked(st) && Earlier(st) <= m < |Msgs(st)|
    ensures i < |Ticks(st)| && Origin(st, m) == Ticks(st)[i]
  {
    CountTicks(st);
    i := m - Earlier(st);
  }

  lemma LinkedExact(st: Story, m: nat, g: u32, ctr: Counter)
    requires Linked(st) && AddsUpAlong(st, g, ctr) && Earlier(st) <= m < |Msgs(st)| && IsExact(Origin(st, m), g, ctr)
    ensures SnapshotIsExact(st, m, g, ctr)
  {
    var run := Origin(st, m);
    OriginExact(st, m, CreditsCopied(run, g, ctr), CreditsShown(run, g, ctr), g, ctr);
  }

  // What the client makes of it

  lemma {:induction false} AtLeastApart(s: seq<nat>, i: nat, j: nat)
    requires Increasing(s) && i <= j < |s|
    ensures s[j] - s[i] >= j - i
  {
    if i < j {
      AtLeastApart(s, i, j - 1);
    }
  }

  lemma Consecutive(s: seq<nat>, a: nat, b: nat, y: nat)
    requires Increasing(s) && a <= y <= b < |s| && s[b] - s[a] == b - a
    ensures s[y] == s[a] + (y - a)
  {
    AtLeastApart(s, a, y);
    AtLeastApart(s, y, b);
  }

  /** Snapshots picked without a gap are a stretch of those published. */
  lemma PickedStretch(msgs: seq<SnapshotData>, which: seq<nat>, got: seq<SnapshotData>, a: nat, b: nat)
    requires Increasing(which) && |got| <= |which| && a <= b < |got|
    requires forall y :: 0 <= y < |got| ==> which[y] < |msgs| && got[y] == msgs[which[y]]
    requires which[b] - which[a] == b - a
    ensures got[a..b + 1] == msgs[which[a]..which[b] + 1]
  {
    forall y | a <= y <= b ensures which[y] == which[a] + (y - a) {
      Consecutive(which, a, b, y);
    }
  }

  ghost predicate Connected(st: Story, id: B.ClientId, k: nat) {
    id in B.Exec(Daemon(st).wire).clients && k <= |S.ClientOf(st.served, id).written|
  }

  ghost function Since(st: Story, id: B.ClientId): nat {
    if id in B.Exec(Daemon(st).wire).clients then S.ClientOf(st.served, id).since else 0
  }

  ghost function TakenBy(st: Story, id: B.ClientId): seq<nat> {
    if id in B.Exec(Daemon(st).wire).clients then S.ClientOf(st.served, id).taken else []
  }

  ghost function DecodedBy(st: Story, id: B.ClientId, k: nat): seq<SnapshotData> {
    if Connected(st, id, k) then S.Decoded(st.served, id, k) else []
  }

  /** What a client decodes from any prefix of its bytes are published snapshots, in order. */
  lemma DecodedAreReceived(st: Story, g: u32, id: B.ClientId, k: nat)
    requires Told(st, g)
    ensures Received(Msgs(st), Since(st, id), TakenBy(st, id), DecodedBy(st, id, k))
  {
    if Connected(st, id, k) {
      S.DecodedAreReceived(st.served, id, k);
    } else if id in B.Exec(Daemon(st).wire).clients {
      S.DecodedAreReceived(st.served, id, 0);
    }
  }

  /**
   Whatever was dropped: a snapshot that a client decodes, published since the process was heard of, comes
   from a collect in its lifetime and shows the process in a row. Its cumulative counts are the bytes the
   kernel had credited, wrapped per slot and capped once, when the slots were copied for it; its
   addresses are those that came with the last credits on the first CPU that has any.
   */
  lemma DecodedRowsShowCredits(st: Story, g: u32, id: B.ClientId, k: nat, x: nat, ctr: Counter)
    requires Told(st, g) && x < |DecodedBy(st, id, k)|
    ensures x < |TakenBy(st, id)|
    ensures var m := TakenBy(st, id)[x];
            m >= Earlier(st) ==>
              && Bracketed(Origin(st, m), g, ctr)
              && ShowsCredits(DecodedBy(st, id, k)[x].rows, g, CreditsShown(Origin(st, m), g, ctr), ctr)
  {
    DecodedAreReceived(st, g, id, k);
    var m := TakenBy(st, id)[x];
    if m >= Earlier(st) {
      SnapshotsExact(st, m, g, ctr);
      OriginBracketed(st, m, g, ctr);
    }
  }

  /** The snapshots since the baseline was last zeroed, up to the one decoded as number `x`, all arrived. */
  ghost predicate Gapless(st: Story, g: u32, taken: seq<nat>, x: nat) {
    && x < |taken| && Earlier(st) <= taken[x]
    && var z := SinceZeroed(Origin(st, taken[x]), g);
       z <= x + 1 && (z > 0 ==> taken[x + 1 - z] + z == taken[x] + 1)
  }

  /** Their deltas add up to the bytes credited when the slots were copied for the last of them. */
  ghost predicate StretchIsExact(st: Story, g: u32, taken: seq<nat>, got: seq<SnapshotData>, x: nat, ctr: Counter) {
    && x < |taken| && x < |got|
    && var run := Origin(st, taken[x]);
       var z := SinceZeroed(run, g);
       z <= x + 1 && Exact(Adds(got, x + 1 - z, x + 1, g, ctr), CreditsCopied(run, g, ctr))
  }

  lemma StretchExact(st: Story, g: u32, since: nat, taken: seq<nat>, got: seq<SnapshotData>, x: nat, ctr: Counter)
    requires Received(Msgs(st), since, taken, got) && Gapless(st, g, taken, x)
    requires x < |got| && SnapshotIsExact(st, taken[x], g, ctr)
    ensures StretchIsExact(st, g, taken, got, x, ctr)
  {
    PickedStretch(Msgs(st), taken, got, x + 1 - SinceZeroed(Origin(st, taken[x]), g), x);
  }

  /**
   From probe to client. Let a client decode a snapshot and, without a gap, all those since the process's
   baseline was last zeroed. The deltas it saw for the process add up to at most the bytes the kernel
   had credited when the slots were copied for that snapshot, and to exactly these if and only if
   they are below 2^64; and these bytes lie between all that was credited to the entry when the lookup
   began and when it ended.
   */
  lemma ClientAddsUp(st: Story, g: u32, id: B.ClientId, k: nat, x: nat, ctr: Counter)
    requires Told(st, g) && x < |DecodedBy(st, id, k)| && Gapless(st, g, TakenBy(st, id), x)
    ensures StretchIsExact(st, g, TakenBy(st, id), DecodedBy(st, id, k), x, ctr)
    ensures Bracketed(Origin(st, TakenBy(st, id)[x]), g, ctr)
  {
    DecodedAreReceived(st, g, id, k);
    OriginBracketed(st, TakenBy(st, id)[x], g, ctr);
    SnapshotsExact(st, TakenBy(st, id)[x], g, ctr);
    StretchExact(st, g, Since(st, id), TakenBy(st, id), DecodedBy(st, id, k), x, ctr);
  }
}
