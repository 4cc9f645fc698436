/**
 Whether the daemon hears of every process: the BPF programs and the collector side by side, with the
 collector's start events being exactly those taken out of the ring.
 */
module Watch {
  import opened Words
  import opened Names
  import C = Collector
  import K = Kernel
  import P = KernelProofs
  import T = KernelTheorems
  import R = CollectorRuns
  import E = EndToEnd

  datatype State = State(kernel: K.State, trace: R.Trace)

  datatype Move =
    | Kernel(action: K.Action)
    | Drain(names: seq<Name>)                                              // the names found for the events
    | Collect(actions: seq<K.Action>, cuts: map<u32, nat>, input: R.Input) // with the kernel running on
    | Reset

  datatype Run = Boot(cpus: nat) | Go(past: Run, move: Move, state: State)

  function Now(run: Run): State {
    match run case Boot(cpus) => State(K.Init(cpus), R.Begin) case Go(_, _, s) => s
  }

  ghost predicate Called(t: R.Trace, input: R.Input, d: R.Trace) {
    d.Then? && d.past == t && d.input == input && R.Next(R.StateOf(t), input, d.state)
  }

  /** These events were applied, one after the other, each under some name. */
  ghost predicate Heard(t: R.Trace, events: seq<K.StartEvent>, names: seq<Name>, d: R.Trace)
    requires |names| == |events|
    decreases |events|
  {
    if events == [] then d == t
    else
      var n := |events| - 1;
      && d.Then? && Heard(t, events[..n], names[..n], d.past)
      && Called(d.past, R.Started(events[n].tgid, names[n]), d)
  }

  ghost predicate NoDrain(actions: seq<K.Action>) {
    forall i :: 0 <= i < |actions| ==> !actions[i].Drain?
  }

  /**
   One move. Only the daemon empties the ring, and what it takes out it applies. During a collect the kernel
   runs on; each process is found or not as the map was at some moment of the scan.
   */
  ghost predicate Moves(s: State, m: Move, d: State) {
    match m
    case Kernel(a) => !a.Drain? && d == s.(kernel := K.Step(s.kernel, a))
    case Drain(names) =>
      && |names| == |s.kernel.ring| && d.kernel == K.Step(s.kernel, K.Action.Drain)
      && Heard(s.trace, s.kernel.ring, names, d.trace)
    case Collect(actions, cuts, input) =>
      && NoDrain(actions) && d.kernel == K.Exec(s.kernel, actions)
      && input.Collect? && Called(s.trace, input, d.trace)
      && forall pid :: pid in input.answers ==>
           && pid in cuts && cuts[pid] <= |actions|
           && (input.answers[pid].Some? <==> pid in K.Exec(s.kernel, actions[..cuts[pid]]).stats)
    case Reset => d.kernel == s.kernel && Called(s.trace, R.ResetAll, d.trace)
  }

  ghost predicate Legal(run: Run) {
    run.Go? ==> Legal(run.past) && Moves(Now(run.past), run.move, run.state)
  }

  // An entry the daemon has not heard of yet

  /** Its creator is about to announce it. */
  ghost predicate Pending(s: K.State, g: u32) {
    exists t :: t in s.pcs && t.tgid == g && s.pcs[t].Announce?
  }

  ghost predicate InRing(s: K.State, g: u32) {
    exists i :: 0 <= i < |s.ring| && s.ring[i].tgid == g
  }

  /** The ring refused its event since it was created. */
  function RefusedSince(h: K.History, g: u32): bool {
    match h
    case Empty => false
    case Then(past, e) =>
      if e.thread.tgid != g then RefusedSince(past, g)
      else if e.Refused? then true
      else if e.Created? || e.Exited? then false
      else RefusedSince(past, g)
  }

  ghost predicate Awaited(s: K.State, g: u32) {
    Pending(s, g) || InRing(s, g) || RefusedSince(s.history, g)
  }

  // What one step of the kernel does to it

  lemma PendingElsewhere(s: K.State, d: K.State, t: K.Thread, g: u32)
    requires d.pcs == s.pcs || (t in d.pcs && d.pcs == s.pcs[t := d.pcs[t]])
    requires t.tgid == g ==> !K.PcOf(s, t).Announce?
    requires Pending(s, g)
    ensures Pending(d, g)
  {
    var u :| u in s.pcs && u.tgid == g && s.pcs[u].Announce?;
    assert u in d.pcs && d.pcs[u] == s.pcs[u];
  }

  /** An event that is neither a refusal nor the end of an entry changes nothing about refusals. */
  lemma RefusedElsewhere(s: K.State, d: K.State, g: u32)
    requires || d.history == s.history
             || (&& d.history.Then? && d.history.past == s.history
                 && (d.history.event.thread.tgid == g ==>
                       !d.history.event.Created? && !d.history.event.Exited?))
    requires RefusedSince(s.history, g)
    ensures RefusedSince(d.history, g)
  {
  }

  /** A thread at work on its own entry, but not announcing it. */
  lemma RunAwaited(s: K.State, t: K.Thread, ok: bool, comm: seq<byte>, g: u32)
    requires g in s.stats ==> Awaited(s, g)
    requires !K.PcOf(s, t).Announce? && !K.PcOf(s, t).Insert?
    ensures g in K.RunStep(s, t, ok, comm).stats ==> Awaited(K.RunStep(s, t, ok, comm), g)
  {
    var d := K.RunStep(s, t, ok, comm);
    assert d.ring == s.ring;
    if g in d.stats {
      if Pending(s, g) {
        PendingElsewhere(s, d, t, g);
      } else if RefusedSince(s.history, g) {
        RefusedElsewhere(s, d, g);
      }
    }
  }

  lemma InsertAwaited(s: K.State, t: K.Thread, ok: bool, comm: seq<byte>, g: u32)
    requires g in s.stats ==> Awaited(s, g)
    requires K.PcOf(s, t).Insert?
    ensures g in K.RunStep(s, t, ok, comm).stats ==> Awaited(K.RunStep(s, t, ok, comm), g)
  {
    var d := K.RunStep(s, t, ok, comm);
    if g in d.stats {
      if g == t.tgid && d.pcs[t].Announce? {
        assert t in d.pcs && t.tgid == g;
      } else if Pending(s, g) {
        PendingElsewhere(s, d, t, g);
      } else if RefusedSince(s.history, g) {
        RefusedElsewhere(s, d, g);
      }
    }
  }

  lemma AnnounceAwaited(s: K.State, t: K.Thread, ok: bool, comm: seq<byte>, g: u32)
    requires g in s.stats ==> Awaited(s, g)
    requires K.PcOf(s, t).Announce?
    ensures g in K.RunStep(s, t, ok, comm).stats ==> Awaited(K.RunStep(s, t, ok, comm), g)
  {
    var d := K.RunStep(s, t, ok, comm);
    if g in d.stats {
      if g == t.tgid {
        if ok {
          assert d.ring[|s.ring|].tgid == g;
        }
      } else if Pending(s, g) {
        PendingElsewhere(s, d, t, g);
      } else if InRing(s, g) {
        var i :| 0 <= i < |s.ring| && s.ring[i].tgid == g;
        assert d.ring[i].tgid == g;
      } else {
        RefusedElsewhere(s, d, g);
      }
    }
  }

  /** Every other step, of any thread. */
  lemma ProbeAwaited(s: K.State, a: K.Action, g: u32)
    requires g in s.stats ==> Awaited(s, g)
    requires !a.Run? && !a.Drain?
    ensures g in K.Step(s, a).stats ==> Awaited(K.Step(s, a), g)
  {
    var d := K.Step(s, a);
    assert d.ring == s.ring;
    if g in d.stats {
      if d.pcs == s.pcs && Pending(s, g) {
        var u :| u in s.pcs && u.tgid == g && s.pcs[u].Announce?;
        assert u in d.pcs;
      } else if Pending(s, g) {
        PendingElsewhere(s, d, a.thread, g);
      } else if RefusedSince(s.history, g) {
        RefusedElsewhere(s, d, g);
      }
    }
  }

  lemma StepAwaited(s: K.State, a: K.Action, g: u32)
    requires (g in s.stats ==> Awaited(s, g)) && !a.Drain?
    ensures g in K.Step(s, a).stats ==> Awaited(K.Step(s, a), g)
  {
    if !a.Run? {
      ProbeAwaited(s, a, g);
    } else if K.PcOf(s, a.thread).Insert? {
      InsertAwaited(s, a.thread, a.ok, a.comm, g);
    } else if K.PcOf(s, a.thread).Announce? {
      AnnounceAwaited(s, a.thread, a.ok, a.comm, g);
    } else {
      RunAwaited(s, a.thread, a.ok, a.comm, g);
    }
  }

  lemma {:induction false} ExecAwaited(s: K.State, actions: seq<K.Action>, g: u32)
    requires (g in s.stats ==> Awaited(s, g)) && NoDrain(actions)
    ensures g in K.Exec(s, actions).stats ==> Awaited(K.Exec(s, actions), g)
  {
    if actions != [] {
      var init := actions[..|actions| - 1];
      ExecAwaited(s, init, g);
      StepAwaited(K.Exec(s, init), actions[|actions| - 1], g);
    }
  }

  // What the daemon does to it

  /** Hearing of a process is tracking it, and nobody is forgotten by it. */
  lemma {:induction false} HeardTracks(t: R.Trace, events: seq<K.StartEvent>, names: seq<Name>, d: R.Trace, g: u32)
    requires |names| == |events| && Heard(t, events, names, d)
    ensures R.ShouldTrack(d, g) <==> R.ShouldTrack(t, g) || exists i :: 0 <= i < |events| && events[i].tgid == g
    decreases |events|
  {
    if events != [] {
      var n := |events| - 1;
      HeardTracks(t, events[..n], names[..n], d.past, g);
      assert forall i :: 0 <= i < n ==> events[..n][i] == events[i];
    }
  }

  /** An entry that was not there when it was looked up, and is there when the scan is over, is a new one. */
  lemma MissedIsAwaited(s: K.State, actions: seq<K.Action>, cut: nat, g: u32)
    requires NoDrain(actions) && cut <= |actions| && g !in K.Exec(s, actions[..cut]).stats
    ensures g in K.Exec(s, actions).stats ==> Awaited(K.Exec(s, actions), g)
  {
    P.ExecSplit(s, actions, cut);
    ExecAwaited(K.Exec(s, actions[..cut]), actions[cut..], g);
  }

  ghost predicate Covered(s: State, g: u32) {
    g in s.kernel.stats ==> R.ShouldTrack(s.trace, g) || Awaited(s.kernel, g)
  }

  lemma DrainCovers(s: State, names: seq<Name>, d: State, g: u32)
    requires Covered(s, g) && Moves(s, Drain(names), d)
    ensures Covered(d, g)
  {
    HeardTracks(s.trace, s.kernel.ring, names, d.trace, g);
    if g in d.kernel.stats && Pending(s.kernel, g) {
      assert d.kernel.pcs == s.kernel.pcs;
    }
  }

  lemma CollectCovers(s: State, actions: seq<K.Action>, cuts: map<u32, nat>, input: R.Input, d: State, g: u32)
    requires Covered(s, g) && Moves(s, Collect(actions, cuts, input), d)
    ensures Covered(d, g)
  {
    if R.ShouldTrack(s.trace, g) {
      if g in input.answers && input.answers[g].None? {
        MissedIsAwaited(s.kernel, actions, cuts[g], g);
      }
    } else {
      ExecAwaited(s.kernel, actions, g);
    }
  }

  lemma {:induction false} RunsCover(run: Run, g: u32)
    requires Legal(run)
    ensures Covered(Now(run), g)
  {
    if run.Go? {
      RunsCover(run.past, g);
      var s := Now(run.past);
      match run.move
      case Kernel(a) =>
        if !R.ShouldTrack(s.trace, g) {
          StepAwaited(s.kernel, a, g);
        }
      case Drain(names) => DrainCovers(s, names, run.state, g);
      case Collect(actions, cuts, input) => CollectCovers(s, actions, cuts, input, run.state, g);
      case Reset =>
    }
  }

  lemma {:induction false} TraceIsLegal(run: Run)
    requires Legal(run)
    ensures R.Legal(Now(run).trace)
  {
    if run.Go? {
      TraceIsLegal(run.past);
      if run.move.Drain? {
        HeardLegal(Now(run.past).trace, Now(run.past).kernel.ring, run.move.names, run.state.trace);
      }
    }
  }

  lemma {:induction false} HeardLegal(t: R.Trace, events: seq<K.StartEvent>, names: seq<Name>, d: R.Trace)
    requires |names| == |events| && Heard(t, events, names, d) && R.Legal(t)
    ensures R.Legal(d)
    decreases |events|
  {
    if events != [] {
      var n := |events| - 1;
      HeardLegal(t, events[..n], names[..n], d.past);
    }
  }

  /**
   Nobody goes unnoticed. In every run of the programs and the daemon, under any races, exits, full rings and
   collects that overlap with all of this: every process with an entry in the map is on the daemon's list,
   or its event is in the ring or about to go there, or the ring refused it.
   */
  lemma EveryEntryIsHeardOf(run: Run, g: u32)
    requires Legal(run) && g in Now(run).kernel.stats
    ensures C.Tracked(R.StateOf(Now(run).trace).procs, g) || Awaited(Now(run).kernel, g)
  {
    RunsCover(run, g);
    TraceIsLegal(run);
    R.HistoryExact(Now(run).trace);
  }

  /** So after a drain, when no thread is about to announce, only a refusal hides a process. */
  lemma OnlyRefusalsHide(run: Run, g: u32)
    requires Legal(run) && run.Go? && run.move.Drain? && g in Now(run).kernel.stats
    requires T.Announcing(Now(run).kernel, g) == {} && !RefusedSince(Now(run).kernel.history, g)
    ensures C.Tracked(R.StateOf(Now(run).trace).procs, g)
  {
    EveryEntryIsHeardOf(run, g);
    PendingIsAnnouncing(Now(run).kernel, g);
  }

  lemma PendingIsAnnouncing(s: K.State, g: u32)
    ensures Pending(s, g) <==> T.Announcing(s, g) != {}
  {
    if Pending(s, g) {
      var t :| t in s.pcs && t.tgid == g && s.pcs[t].Announce?;
      assert t in T.Announcing(s, g);
    }
    if T.Announcing(s, g) != {} {
      var t :| t in T.Announcing(s, g);
    }
  }

  // Where the accounting of a process begins

  lemma {:induction false} KernelIsSound(run: Run)
    requires Legal(run)
    ensures P.Inv(Now(run).kernel)
  {
    match run
    case Boot(cpus) => P.InitInv(cpus);
    case Go(past, m, s) =>
      KernelIsSound(past);
      match m {
        case Kernel(a) => P.StepInv(Now(past).kernel, a);
        case Drain(_) => P.StepInv(Now(past).kernel, K.Action.Drain);
        case Collect(actions, _, _) => P.ExecInv(Now(past).kernel, actions);
        case Reset =>
      }
  }

  lemma HeardAfter(mid: R.Trace, events: seq<K.StartEvent>, names: seq<Name>, d: R.Trace, i: nat)
    requires |names| == |events| && i < |events| && d.Then?
    requires Heard(mid, events[..|events| - 1][i..], names[..|events| - 1][i..], d.past)
    requires Called(d.past, R.Started(events[|events| - 1].tgid, names[|events| - 1]), d)
    ensures Heard(mid, events[i..], names[i..], d)
  {
    var n, es, ns := |events| - 1, events[i..], names[i..];
    assert es[..|es| - 1] == events[..n][i..] && ns[..|es| - 1] == names[..n][i..];
  }

  /** The moment at which event `i` of a batch is applied, with the others still to come. */
  lemma {:induction false} HeardAt(t: R.Trace, events: seq<K.StartEvent>, names: seq<Name>, d: R.Trace, i: nat)
    returns (mid: R.Trace)
    requires |names| == |events| && Heard(t, events, names, d) && R.Legal(t) && i < |events|
    ensures mid.Then? && mid.input == R.Started(events[i].tgid, names[i]) && R.Legal(mid)
    ensures Heard(t, events[..i + 1], names[..i + 1], mid) && Heard(mid, events[i + 1..], names[i + 1..], d)
    decreases |events|
  {
    var n := |events| - 1;
    if i == n {
      mid := d;
      HeardLegal(t, events, names, d);
      assert events[..i + 1] == events && names[..i + 1] == names && events[i + 1..] == [];
    } else {
      mid := HeardAt(t, events[..n], names[..n], d.past, i);
      assert events[..n][..i + 1] == events[..i + 1] && names[..n][..i + 1] == names[..i + 1];
      HeardAfter(mid, events, names, d, i + 1);
    }
  }

  /**
   A drained event of a process whose entry is there begins a lifetime as the end-to-end accounting takes it:
   that its start event was applied is no assumption about the daemon, but what a drain does.
   */
  lemma LifetimeBegins(run: Run, g: u32, i: nat) returns (mid: R.Trace)
    requires Legal(run) && run.Go? && run.move.Drain? && g in Now(run).kernel.stats
    requires i < |Now(run.past).kernel.ring| && Now(run.past).kernel.ring[i].tgid == g
    ensures E.Lifetime(E.Start(E.Sys(Now(run).kernel, mid)), g)
    ensures Heard(mid, Now(run.past).kernel.ring[i + 1..], run.move.names[i + 1..], Now(run).trace)
  {
    KernelIsSound(run);
    TraceIsLegal(run.past);
    mid := HeardAt(Now(run.past).trace, Now(run.past).kernel.ring, run.move.names, Now(run).trace, i);
  }
}
