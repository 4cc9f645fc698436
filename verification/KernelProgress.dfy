/**
 What the BPF programs do with what they are given. The log is judged against the schedule alone: every event
 has its cause there, every call that moved bytes is settled for them, and a call that runs undisturbed is
 credited.
 */
module KernelProgress {
  import opened Words
  import opened StatsTypes
  import opened Kernel
  import opened KernelProofs
  import opened KernelTheorems

  // Every event has its cause in the schedule

  /** The action that an event must come from. */
  ghost predicate Causes(a: Action, e: Event) {
    match e
    case Captured(t, kind, addr) => a == Enter(t, kind, addr)
    case Consumed(t, kind, _, ret, cpu) => a == Return(t, kind, ret, cpu)
    case Unmatched(t, kind) => a.Return? && a.thread == t && a.kind == kind
    case Evicted(t, kind) => a == Evict(CaptureKey(kind, t))
    case Exited(t) => a == Exit(t)
    case Asked(t, r) =>
      if r.origin.CleanupRbuf?
      then a.Cleanup? && a.copied > 0 && a == Cleanup(t, r.addr, a.copied, r.cpu) && AsksFor(r, TcpRecv, a.copied)
      else a.Run? && a.thread == t
    case InsertFailed(t, _, refused) => a.Run? && a.thread == t && (refused ==> !a.ok)
    case Created(t, _) => a.Run? && a.thread == t && a.ok
    case Announced(t, comm) => a == Action.Run(t, true, comm)
    case Refused(t) => a.Run? && a.thread == t && !a.ok
    case _ => a.Run? && a.thread == e.thread
  }

  lemma RunCauses(s: State, t: Thread, ok: bool, comm: seq<byte>)
    ensures var h := RunStep(s, t, ok, comm).history;
            h == s.history || (h.Then? && h.past == s.history && Causes(Action.Run(t, ok, comm), h.event))
  {
    match PcOf(s, t)
    case Idle =>
    case Taken(kind, addr, ret, cpu) =>
    case Find(r) =>
    case Insert(r) =>
    case FindAgain(r) =>
    case Announce =>
  }

  /** A step logs at most one event, and only what its action causes. */
  lemma StepLogs(s: State, a: Action)
    ensures var h := Step(s, a).history;
            h == s.history || (h.Then? && h.past == s.history && Causes(a, h.event))
  {
    if a.Run? {
      RunCauses(s, a.thread, a.ok, a.comm);
    }
  }

  /** How far into the schedule each event of a run was logged, and by which action. */
  lemma {:induction false} EveryEventHasCause(cpus: nat, actions: seq<Action>, p: History) returns (i: nat)
    requires Prefix(p, Exec(Init(cpus), actions).history) && p.Then?
    ensures i < |actions| && Exec(Init(cpus), actions[..i]).history == p.past && Causes(actions[i], p.event)
  {
    var n := |actions| - 1;
    var s := Exec(Init(cpus), actions[..n]);
    StepLogs(s, actions[n]);
    if Prefix(p, s.history) {
      i := EveryEventHasCause(cpus, actions[..n], p);
      assert actions[..n][..i] == actions[..i];
    } else {
      i := n;
    }
  }

  // Every byte that a call moved is asked for, and then added or lost

  /** The bytes that an action brings to be accounted: those of a call that returned, or of a buffer cleaned up. */
  function Moved(s: State, a: Action, t: Thread, ctr: Counter): nat {
    match a
    case Return(u, kind, ret, cpu) =>
      if u == t && PcOf(s, t).Idle? && cpu < s.cpus && ret > 0 && Outstanding(s.history, CaptureKey(kind, t)).Some?
         && ctr == CounterOf(kind)
      then ret else 0
    case Cleanup(u, _, copied, cpu) =>
      if u == t && PcOf(s, t).Idle? && cpu < s.cpus && copied > 0 && ctr == TcpRecv then copied else 0
    case _ => 0
  }

  /** All of a thread's bytes in a run. */
  function MovedIn(s: State, actions: seq<Action>, t: Thread, ctr: Counter): nat {
    if actions == [] then 0
    else
      var init := actions[..|actions| - 1];
      MovedIn(s, init, t, ctr) + Moved(Exec(s, init), actions[|actions| - 1], t, ctr)
  }

  /** The bytes of a call between its exit probe's two map operations. */
  function Due(pc: Pc, ctr: Counter): nat {
    if pc.Taken? && pc.ret > 0 && ctr == CounterOf(pc.kind) then pc.ret else 0
  }

  ghost function AskedOrDue(s: State, t: Thread, ctr: Counter): nat {
    AskedBytes(s.history, t, ctr) + Due(PcOf(s, t), ctr)
  }

  lemma TakenAsks(s: State, t: Thread, ok: bool, comm: seq<byte>, ctr: Counter)
    requires PcOf(s, t).Taken?
    ensures AskedOrDue(RunStep(s, t, ok, comm), t, ctr) == AskedOrDue(s, t, ctr)
  {
  }

  lemma RunAsks(s: State, t: Thread, ok: bool, comm: seq<byte>, ctr: Counter)
    ensures AskedOrDue(RunStep(s, t, ok, comm), t, ctr) == AskedOrDue(s, t, ctr)
  {
    if PcOf(s, t).Taken? {
      TakenAsks(s, t, ok, comm, ctr);
    }
  }

  /** An event of another thread asks for nothing of this one's. */
  lemma OthersAsk(s: State, a: Action, t: Thread, ctr: Counter)
    requires Actor(a) != Some(t)
    ensures AskedBytes(Step(s, a).history, t, ctr) == AskedBytes(s.history, t, ctr)
    ensures PcOf(Step(s, a), t) == PcOf(s, t)
  {
    StepLogs(s, a);
    StepElsewhere(s, a, CaptureKey(TcpSend, t));
  }

  lemma ReturnAsks(s: State, t: Thread, kind: CallKind, ret: i32, cpu: nat, ctr: Counter)
    requires CaptureAgrees(s, CaptureKey(kind, t))
    ensures var a := Return(t, kind, ret, cpu);
            AskedOrDue(Step(s, a), t, ctr) == AskedOrDue(s, t, ctr) + Moved(s, a, t, ctr)
  {
  }

  lemma StepAsks(s: State, a: Action, t: Thread, ctr: Counter)
    requires Captures(s)
    ensures AskedOrDue(Step(s, a), t, ctr) == AskedOrDue(s, t, ctr) + Moved(s, a, t, ctr)
  {
    if Actor(a) != Some(t) {
      OthersAsk(s, a, t, ctr);
    } else if a.Run? {
      RunAsks(s, t, a.ok, a.comm, ctr);
    } else if a.Return? {
      assert CaptureAgrees(s, CaptureKey(a.kind, t));
      ReturnAsks(s, t, a.kind, a.ret, a.cpu, ctr);
    }
  }

  lemma {:induction false} ExecAsks(cpus: nat, actions: seq<Action>, t: Thread, ctr: Counter)
    ensures AskedOrDue(Exec(Init(cpus), actions), t, ctr) == MovedIn(Init(cpus), actions, t, ctr)
  {
    if actions != [] {
      var init := actions[..|actions| - 1];
      ExecAsks(cpus, init, t, ctr);
      InitInv(cpus);
      ExecInv(Init(cpus), init);
      StepAsks(Exec(Init(cpus), init), actions[|actions| - 1], t, ctr);
    }
  }

  /**
   Conservation from the schedule to the maps. In every run, for every thread and counter: the bytes that its
   calls moved are those added to some slot, those lost, and those of the one call it may still be in.
   */
  lemma EveryByteIsSettled(cpus: nat, actions: seq<Action>, t: Thread, ctr: Counter)
    ensures var s := Exec(Init(cpus), actions);
            MovedIn(Init(cpus), actions, t, ctr)
            == AddedBytes(s.history, t, ctr) + LostBytes(s.history, t, ctr)
               + OpenBytes(s.history, t, ctr) + Due(PcOf(s, t), ctr)
  {
    ExecAsks(cpus, actions, t, ctr);
    RunsAreOrdered(cpus, actions);
    CallsSettleOnce(Exec(Init(cpus), actions).history, t, ctr);
  }

  // No call stays in progress

  /** The most map operations that a thread still has to do before its probe is over. */
  function StepsLeft(pc: Pc): nat {
    match pc
    case Idle => 0
    case Announce => 1
    case FindAgain(_) => 1
    case Insert(_) => 2
    case Find(_) => 3
    case Taken(_, _, _, _) => 4
  }

  function Turns(actions: seq<Action>, t: Thread): nat {
    if actions == [] then 0
    else
      var last := actions[|actions| - 1];
      Turns(actions[..|actions| - 1], t) + if last.Run? && last.thread == t then 1 else 0
  }

  /** The thread begins no new probe. */
  ghost predicate BeginsNone(actions: seq<Action>, t: Thread) {
    forall i :: 0 <= i < |actions| ==> !((actions[i].Return? || actions[i].Cleanup?) && actions[i].thread == t)
  }

  lemma StepTurns(s: State, a: Action, t: Thread)
    requires !((a.Return? || a.Cleanup?) && a.thread == t)
    ensures StepsLeft(PcOf(Step(s, a), t))
            <= if a.Run? && a.thread == t then Max(0, StepsLeft(PcOf(s, t)) - 1) else StepsLeft(PcOf(s, t))
  {
    if Actor(a) != Some(t) {
      StepElsewhere(s, a, CaptureKey(TcpSend, t));
    }
  }

  lemma {:induction false} TurnsEndProbe(s: State, actions: seq<Action>, t: Thread)
    requires BeginsNone(actions, t)
    ensures StepsLeft(PcOf(Exec(s, actions), t)) <= Max(0, StepsLeft(PcOf(s, t)) - Turns(actions, t))
  {
    if actions != [] {
      var init := actions[..|actions| - 1];
      assert forall i :: 0 <= i < |init| ==> init[i] == actions[i];
      TurnsEndProbe(s, init, t);
      StepTurns(Exec(s, init), actions[|actions| - 1], t);
    }
  }

  lemma IdleOwesNothing(s: State, t: Thread, ctr: Counter)
    requires PcAgrees(s, t) && PcOf(s, t).Idle?
    ensures OpenBytes(s.history, t, ctr) == 0 && Due(PcOf(s, t), ctr) == 0
  {
  }

  lemma FourTurnsIdle(s: State, actions: seq<Action>, n: nat, t: Thread)
    requires n <= |actions| && BeginsNone(actions[n..], t) && Turns(actions[n..], t) >= 4
    ensures PcOf(Exec(s, actions), t).Idle?
  {
    ExecSplit(s, actions, n);
    TurnsEndProbe(Exec(s, actions[..n]), actions[n..], t);
  }

  /**
   So whatever the other threads do meanwhile, once a thread has had four turns without beginning another
   probe, all that its calls ever moved was added or lost, to the last byte.
   */
  lemma FourTurnsSettle(cpus: nat, actions: seq<Action>, n: nat, t: Thread, ctr: Counter)
    requires n <= |actions| && BeginsNone(actions[n..], t) && Turns(actions[n..], t) >= 4
    ensures var s := Exec(Init(cpus), actions);
            && PcOf(s, t).Idle?
            && MovedIn(Init(cpus), actions, t, ctr) == AddedBytes(s.history, t, ctr) + LostBytes(s.history, t, ctr)
  {
    FourTurnsIdle(Init(cpus), actions, n, t);
    EveryByteIsSettled(cpus, actions, t, ctr);
    InitInv(cpus);
    ExecInv(Init(cpus), actions);
    IdleOwesNothing(Exec(Init(cpus), actions), t, ctr);
  }

  // Nothing is lost while nothing stands in the way

  lemma {:induction false} LostFound(h: History, t: Thread, ctr: Counter) returns (p: History)
    requires LostBytes(h, t, ctr) > 0
    ensures Prefix(p, h) && p.Then? && p.event.Lost? && p.event.thread == t
  {
    if h.event.Lost? && h.event.thread == t {
      p := h;
    } else {
      p := LostFound(h.past, t, ctr);
    }
  }

  /** Nothing refuses the thread an insert, its leader does not exit, and the map always has room. */
  ghost predicate Unhindered(cpus: nat, actions: seq<Action>, t: Thread) {
    && (forall i :: 0 <= i < |actions| ==>
          actions[i] != Exit(Thread(t.tgid, t.tgid)) && !(actions[i].Run? && actions[i].thread == t && !actions[i].ok))
    && (forall i :: 0 <= i <= |actions| ==> |Exec(Init(cpus), actions[..i]).stats| < 512)
  }

  lemma {:induction false} PrefixOfPrefix(p: History, q: History, h: History)
    requires Prefix(p, q) && Prefix(q, h)
    ensures Prefix(p, h)
  {
    if q != h {
      PrefixOfPrefix(p, q, h.past);
    }
  }

  /** A failed insert by an unhindered thread met an entry. */
  lemma HinderedInsert(cpus: nat, actions: seq<Action>, t: Thread, q: History)
    requires Unhindered(cpus, actions, t) && Prefix(q, Exec(Init(cpus), actions).history)
    requires q.Then? && q.event.InsertFailed? && q.event.thread == t
    ensures !q.event.refused && |LiveSet(q.past)| < 512
  {
    var i := EveryEventHasCause(cpus, actions, q);
    InitInv(cpus);
    ExecInv(Init(cpus), actions[..i]);
    KeysAreLive(Exec(Init(cpus), actions[..i]));
  }

  lemma NothingLost(cpus: nat, actions: seq<Action>, t: Thread, ctr: Counter)
    requires Unhindered(cpus, actions, t)
    ensures LostBytes(Exec(Init(cpus), actions).history, t, ctr) == 0
  {
    var h := Exec(Init(cpus), actions).history;
    if LostBytes(h, t, ctr) > 0 {
      var p := LostFound(h, t, ctr);
      RunsAreOrdered(cpus, actions);
      var q, why := LossHasReason(h, p);
      assert Prefix(p.past, h) by { PrefixOfPrefix(p.past, p, h); }
      PrefixOfPrefix(q, p.past, h);
      HinderedInsert(cpus, actions, t, q);
      PrefixOfPrefix(why.exit, p.past, h);
      var i := EveryEventHasCause(cpus, actions, why.exit);
      assert false;
    }
  }

  /**
   In every interleaving: a thread that nothing stands in the way of, and that has had its four turns, has had
   every byte of its calls added to its process's entry.
   */
  lemma EveryByteIsAdded(cpus: nat, actions: seq<Action>, n: nat, t: Thread, ctr: Counter)
    requires n <= |actions| && BeginsNone(actions[n..], t) && Turns(actions[n..], t) >= 4
    requires Unhindered(cpus, actions, t)
    ensures MovedIn(Init(cpus), actions, t, ctr) == AddedBytes(Exec(Init(cpus), actions).history, t, ctr)
  {
    FourTurnsSettle(cpus, actions, n, t, ctr);
    NothingLost(cpus, actions, t, ctr);
  }

  // A call on its own

  lemma ExecMore(s: State, actions: seq<Action>, a: Action)
    ensures Exec(s, actions + [a]) == Step(Exec(s, actions), a)
  {
    assert (actions + [a])[..|actions|] == actions;
  }

  lemma ThreeSteps(s: State, a: Action, b: Action, c: Action)
    ensures Exec(s, [a, b, c]) == Step(Step(Step(s, a), b), c)
  {
    ExecMore(s, [], a);
    ExecMore(s, [a], b);
    ExecMore(s, [a, b], c);
    assert [] + [a] == [a] && [a] + [b] == [a, b] && [a, b] + [c] == [a, b, c];
  }

  /** A slot that took one call's bytes and address, and nothing else. */
  ghost predicate TookCall(was: ProcStats, now: ProcStats, kind: CallKind, addr: StatsAddr, n: nat) {
    match kind
    case TcpSend =>
      now == was.(tcp := ProtocolStats(StatsBytes((was.tcp.bytes.sent + n) % U64_LIMIT, was.tcp.bytes.recv), addr))
    case UdpSend =>
      now == was.(udp := ProtocolStats(StatsBytes((was.udp.bytes.sent + n) % U64_LIMIT, was.udp.bytes.recv), addr))
    case UdpRecv =>
      now == was.(udp := ProtocolStats(StatsBytes(was.udp.bytes.sent, (was.udp.bytes.recv + n) % U64_LIMIT), addr))
  }

  /** The slots of a process: zero when it has none. */
  function SlotOf(s: State, g: Tgid, cpu: nat): ProcStats {
    if g in s.stats && cpu < |s.stats[g]| then s.stats[g][cpu] else EMPTY_STATS
  }

  /** One slot of one entry may change; if the entry is new, its start event is the last in the ring. */
  ghost predicate OnlySlot(s: State, d: State, g: Tgid, cpu: nat, comm: seq<byte>) {
    && d.cpus == s.cpus && g in d.stats && |d.stats[g]| == s.cpus
    && (forall x :: x in d.stats <==> x in s.stats || x == g)
    && (forall x :: x in s.stats && x != g ==> d.stats[x] == s.stats[x])
    && (forall i :: 0 <= i < s.cpus && i != cpu ==> SlotOf(d, g, i) == SlotOf(s, g, i))
    && d.ring == if g in s.stats then s.ring else s.ring + [StartEvent(g, comm)]
  }

  /** A slot that took cleaned-up bytes, and nothing else. */
  ghost predicate TookCleanup(was: ProcStats, now: ProcStats, addr: StatsAddr, n: nat) {
    now == was.(tcp := ProtocolStats(StatsBytes(was.tcp.bytes.sent, (was.tcp.bytes.recv + n) % U64_LIMIT), addr))
  }

  /** The maps that accounting touches, and the bytes credited so far, are as they were. */
  ghost predicate SameAccounts(s: State, c: State, g: Tgid) {
    && c.cpus == s.cpus && c.stats == s.stats && c.ring == s.ring
    && forall ctr :: CreditedTotal(c.history, g, ctr) == CreditedTotal(s.history, g, ctr)
  }

  /** One accounting call is done: one slot has taken its bytes, and they are to the process's credit. */
  ghost predicate Accounted(s: State, d: State, t: Thread, r: Request, comm: seq<byte>) {
    && PcOf(d, t).Idle? && OnlySlot(s, d, t.tgid, r.cpu, comm)
    && SlotOf(d, t.tgid, r.cpu) == Update(SlotOf(s, t.tgid, r.cpu), r)
    && forall ctr :: CreditedTotal(d.history, t.tgid, ctr)
                     == (if t.tgid in s.stats then CreditedTotal(s.history, t.tgid, ctr) else 0) + Bytes(r, ctr)
  }

  lemma AccountedSince(s: State, c: State, d: State, t: Thread, r: Request, comm: seq<byte>)
    requires SameAccounts(s, c, t.tgid) && Accounted(c, d, t, r, comm)
    ensures Accounted(s, d, t, r, comm)
  {
    forall i: nat ensures SlotOf(c, t.tgid, i) == SlotOf(s, t.tgid, i) {
    }
  }

  /** The first lookup hits. */
  lemma HitAccounts(s: State, t: Thread, r: Request, comm: seq<byte>)
    requires Shape(s) && PcOf(s, t) == Find(r) && r.cpu < s.cpus && t.tgid in s.stats
    ensures Accounted(s, RunStep(s, t, true, comm), t, r, comm) && RunStep(s, t, true, comm).saved == s.saved
  {
  }

  lemma MissGoesOn(s: State, t: Thread, r: Request, comm: seq<byte>)
    requires PcOf(s, t) == Find(r) && t.tgid !in s.stats
    ensures var a := RunStep(s, t, true, comm);
            PcOf(a, t) == Insert(r) && SameAccounts(s, a, t.tgid) && a.saved == s.saved
  {
  }

  /** The insert fills one slot of a new entry. */
  ghost predicate Inserted(s: State, b: State, t: Thread, r: Request) {
    && PcOf(b, t) == Announce && b.cpus == s.cpus && b.ring == s.ring
    && b.stats == s.stats[t.tgid := NewEntry(s.cpus, r)]
    && forall ctr :: CreditedTotal(b.history, t.tgid, ctr) == Bytes(r, ctr)
  }

  lemma InsertCreates(s: State, t: Thread, r: Request, comm: seq<byte>)
    requires PcOf(s, t) == Insert(r) && t.tgid !in s.stats && |s.stats| < 512
    ensures Inserted(s, RunStep(s, t, true, comm), t, r) && RunStep(s, t, true, comm).saved == s.saved
  {
  }

  lemma AnnounceEnds(s: State, b: State, t: Thread, r: Request, comm: seq<byte>)
    requires Inserted(s, b, t, r) && t.tgid !in s.stats && r.cpu < s.cpus
    ensures Accounted(s, RunStep(b, t, true, comm), t, r, comm) && RunStep(b, t, true, comm).saved == b.saved
  {
    var d := RunStep(b, t, true, comm);
    assert d.stats == b.stats && d.ring == s.ring + [StartEvent(t.tgid, comm)];
    forall ctr ensures CreditedTotal(d.history, t.tgid, ctr) == Bytes(r, ctr) {
    }
  }

  /** Three turns of one thread's. */
  function RunThrice(s: State, t: Thread, comm: seq<byte>): State {
    RunStep(RunStep(RunStep(s, t, true, comm), t, true, comm), t, true, comm)
  }

  /** An `account_bytes` call that runs undisturbed. */
  lemma AccountAlone(s: State, t: Thread, r: Request, comm: seq<byte>)
    requires Shape(s) && PcOf(s, t) == Find(r) && r.cpu < s.cpus && (t.tgid in s.stats || |s.stats| < 512)
    ensures Accounted(s, RunThrice(s, t, comm), t, r, comm) && RunThrice(s, t, comm).saved == s.saved
  {
    var a := RunStep(s, t, true, comm);
    if t.tgid in s.stats {
      HitAccounts(s, t, r, comm);
      assert RunThrice(s, t, comm) == a;
    } else {
      MissGoesOn(s, t, r, comm);
      InsertCreates(a, t, r, comm);
      var b := RunStep(a, t, true, comm);
      AnnounceEnds(a, b, t, r, comm);
      AccountedSince(s, a, RunStep(b, t, true, comm), t, r, comm);
    }
  }

  /** The two probes of a call, up to the accounting. */
  function Reached(s: State, t: Thread, kind: CallKind, addr: StatsAddr, n: i32, cpu: nat, comm: seq<byte>): State {
    RunStep(Step(Step(s, Enter(t, kind, addr)), Return(t, kind, n, cpu)), t, true, comm)
  }

  lemma CallReachesAccounting(s: State, t: Thread, kind: CallKind, addr: StatsAddr, n: i32, cpu: nat, comm: seq<byte>)
    requires PcOf(s, t).Idle? && cpu < s.cpus && n > 0
    ensures var c := Reached(s, t, kind, addr, n, cpu, comm);
            && PcOf(c, t) == Find(ReturnRequest(kind, addr, n, cpu)) && SameAccounts(s, c, t.tgid)
            && CaptureKey(kind, t) !in c.saved
  {
    var a := Step(s, Enter(t, kind, addr));
    assert PcOf(a, t).Idle? && SameAccounts(s, a, t.tgid) && a.saved[CaptureKey(kind, t)] == addr;
    var b := Step(a, Return(t, kind, n, cpu));
    assert PcOf(b, t) == Taken(kind, addr, n, cpu) && SameAccounts(s, b, t.tgid);
  }

  lemma UpdateTookCall(was: ProcStats, kind: CallKind, addr: StatsAddr, n: i32, cpu: nat)
    requires n > 0
    ensures TookCall(was, Update(was, ReturnRequest(kind, addr, n, cpu)), kind, addr, n)
  {
  }

  lemma CallIsAccounted(s: State, c: State, d: State, t: Thread, kind: CallKind, addr: StatsAddr, n: i32, cpu: nat,
                        comm: seq<byte>)
    requires n > 0 && SameAccounts(s, c, t.tgid) && CaptureKey(kind, t) !in c.saved
    requires Accounted(c, d, t, ReturnRequest(kind, addr, n, cpu), comm) && d.saved == c.saved
    ensures LeavesCredit(s, d, t, kind, addr, n, cpu, comm)
  {
    var r := ReturnRequest(kind, addr, n, cpu);
    AccountedSince(s, c, d, t, r, comm);
    UpdateTookCall(SlotOf(s, t.tgid, cpu), kind, addr, n, cpu);
    assert Bytes(r, CounterOf(kind)) == n;
  }

  /**
   What a call that returned `n` bytes leaves behind: the entry is there, this CPU's slot has grown by `n` in the
   counter of that call and holds the address captured on entry, nothing else in the map has changed, a
   new entry's event is in the ring, and the process has `n` more bytes to its credit.
   */
  ghost predicate LeavesCredit(s: State, d: State, t: Thread, kind: CallKind, addr: StatsAddr, n: nat, cpu: nat,
                               comm: seq<byte>) {
    && PcOf(d, t).Idle? && OnlySlot(s, d, t.tgid, cpu, comm)
    && TookCall(SlotOf(s, t.tgid, cpu), SlotOf(d, t.tgid, cpu), kind, addr, n)
    && CaptureKey(kind, t) !in d.saved
    && CreditedTotal(d.history, t.tgid, CounterOf(kind))
       == (if t.tgid in s.stats then CreditedTotal(s.history, t.tgid, CounterOf(kind)) else 0) + n
  }

  lemma ExecCall(s: State, t: Thread, kind: CallKind, addr: StatsAddr, n: i32, cpu: nat, comm: seq<byte>)
    ensures var run := Action.Run(t, true, comm);
            Exec(s, [Enter(t, kind, addr), Return(t, kind, n, cpu), run, run, run, run])
            == RunThrice(Reached(s, t, kind, addr, n, cpu, comm), t, comm)
  {
    var run := Action.Run(t, true, comm);
    var first: seq<Action> := [Enter(t, kind, addr), Return(t, kind, n, cpu), run];
    var all := first + [run, run, run];
    assert all == [Enter(t, kind, addr), Return(t, kind, n, cpu), run, run, run, run];
    ExecSplit(s, all, 3);
    assert all[..3] == first && all[3..] == [run, run, run];
    ThreeSteps(s, Enter(t, kind, addr), Return(t, kind, n, cpu), run);
    ThreeSteps(Exec(s, first), run, run, run);
  }

  /**
   A call that returned bytes and runs undisturbed is credited, whatever happened before, if its process has an
   entry or the map has room.
   */
  lemma CallAloneIsCredited(s: State, t: Thread, kind: CallKind, addr: StatsAddr, n: i32, cpu: nat, comm: seq<byte>)
    requires Shape(s) && PcOf(s, t).Idle? && cpu < s.cpus && n > 0 && (t.tgid in s.stats || |s.stats| < 512)
    ensures var run := Action.Run(t, true, comm);
            LeavesCredit(s, Exec(s, [Enter(t, kind, addr), Return(t, kind, n, cpu), run, run, run, run]),
                         t, kind, addr, n, cpu, comm)
  {
    var c := Reached(s, t, kind, addr, n, cpu, comm);
    ExecCall(s, t, kind, addr, n, cpu, comm);
    CallReachesAccounting(s, t, kind, addr, n, cpu, comm);
    AccountAlone(c, t, ReturnRequest(kind, addr, n, cpu), comm);
    CallIsAccounted(s, c, RunThrice(c, t, comm), t, kind, addr, n, cpu, comm);
  }

  /** And cleaned-up bytes, which are received TCP bytes. */
  ghost predicate LeavesCleanup(s: State, d: State, t: Thread, addr: StatsAddr, n: nat, cpu: nat, comm: seq<byte>) {
    && PcOf(d, t).Idle? && OnlySlot(s, d, t.tgid, cpu, comm)
    && TookCleanup(SlotOf(s, t.tgid, cpu), SlotOf(d, t.tgid, cpu), addr, n)
    && CreditedTotal(d.history, t.tgid, TcpRecv)
       == (if t.tgid in s.stats then CreditedTotal(s.history, t.tgid, TcpRecv) else 0) + n
  }

  lemma CleanupIsAccounted(s: State, c: State, d: State, t: Thread, addr: StatsAddr, n: i32, cpu: nat, comm: seq<byte>)
    requires n > 0 && SameAccounts(s, c, t.tgid) && Accounted(c, d, t, CleanupRequest(addr, n, cpu), comm)
    ensures LeavesCleanup(s, d, t, addr, n, cpu, comm)
  {
    var r := CleanupRequest(addr, n, cpu);
    AccountedSince(s, c, d, t, r, comm);
    UpdateTookCleanup(SlotOf(s, t.tgid, cpu), addr, n, cpu);
    assert Bytes(r, TcpRecv) == n;
  }

  lemma ExecCleanup(s: State, t: Thread, addr: StatsAddr, n: i32, cpu: nat, comm: seq<byte>)
    ensures var run := Action.Run(t, true, comm);
            Exec(s, [Cleanup(t, addr, n, cpu), run, run, run]) == RunThrice(Step(s, Cleanup(t, addr, n, cpu)), t, comm)
  {
    var run, first := Action.Run(t, true, comm), Cleanup(t, addr, n, cpu);
    var all := [first, run, run, run];
    ExecSplit(s, all, 1);
    assert all[..1] == [] + [first] && all[1..] == [run, run, run];
    ExecMore(s, [], first);
    ThreeSteps(Step(s, first), run, run, run);
  }

  /** The same for received TCP bytes, which one probe accounts. */
  lemma CleanupAloneIsCredited(s: State, t: Thread, addr: StatsAddr, n: i32, cpu: nat, comm: seq<byte>)
    requires Shape(s) && PcOf(s, t).Idle? && cpu < s.cpus && n > 0 && (t.tgid in s.stats || |s.stats| < 512)
    ensures var run := Action.Run(t, true, comm);
            LeavesCleanup(s, Exec(s, [Cleanup(t, addr, n, cpu), run, run, run]), t, addr, n, cpu, comm)
  {
    var c := Step(s, Cleanup(t, addr, n, cpu));
    ExecCleanup(s, t, addr, n, cpu, comm);
    CleanupReachesAccounting(s, t, addr, n, cpu);
    AccountAlone(c, t, CleanupRequest(addr, n, cpu), comm);
    CleanupIsAccounted(s, c, RunThrice(c, t, comm), t, addr, n, cpu, comm);
  }

  lemma CleanupReachesAccounting(s: State, t: Thread, addr: StatsAddr, n: i32, cpu: nat)
    requires PcOf(s, t).Idle? && cpu < s.cpus && n > 0
    ensures var c := Step(s, Cleanup(t, addr, n, cpu));
            PcOf(c, t) == Find(CleanupRequest(addr, n, cpu)) && SameAccounts(s, c, t.tgid)
  {
  }

  lemma UpdateTookCleanup(was: ProcStats, addr: StatsAddr, n: i32, cpu: nat)
    requires n > 0
    ensures TookCleanup(was, Update(was, CleanupRequest(addr, n, cpu)), addr, n)
  {
  }

  // Exits and drains

  /** When a group leader exits, its process's entry goes and no other; the exit of another thread removes none. */
  lemma ExitTakesEntry(s: State, t: Thread)
    requires PcOf(s, t).Idle?
    ensures var d := Step(s, Exit(t));
            forall g :: (g in d.stats <==> g in s.stats && !(g == t.tgid == t.pid))
                     && (g in d.stats ==> d.stats[g] == s.stats[g])
  {
  }

  /** Eviction takes one saved address and touches nothing else. */
  lemma EvictForgets(s: State, k: CaptureKey)
    ensures Step(s, Evict(k)) == s.(saved := s.saved - {k}, history := Step(s, Evict(k)).history)
  {
  }

  /** The daemon takes every event that is there, once. */
  lemma DrainTakesAll(s: State)
    ensures Step(s, Drain).ring == [] && TakenOut(s, Drain) == s.ring
    ensures Step(s, Drain).stats == s.stats
  {
  }
}
