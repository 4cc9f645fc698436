/** What every interleaving of the BPF programs keeps. */
module KernelProofs {
  import opened Words
  import opened StatsTypes
  import opened Kernel

  // The inductive invariant, in parts

  ghost predicate Shape(s: State) {
    |s.stats| <= MAP_SIZE && forall g :: g in s.stats ==> |s.stats[g]| == s.cpus
  }

  /** A thread's position agrees with the last thing it did. */
  ghost predicate PcAgrees(s: State, t: Thread) {
    var own := Own(s.history, t);
    match PcOf(s, t)
    case Idle => Quiet(s.history, t)
    case Taken(kind, addr, ret, cpu) => cpu < s.cpus && own == Some(Consumed(t, kind, addr, ret, cpu))
    case Find(r) => r.cpu < s.cpus && own == Some(Asked(t, r))
    case Insert(r) => r.cpu < s.cpus && own == Some(Missed(t, r))
    case FindAgain(r) => r.cpu < s.cpus && FailedToInsert(s.history, t, r)
    case Announce => own.Some? && own.value.Created?
  }

  ghost predicate Threads(s: State) {
    forall t :: PcAgrees(s, t)
  }

  ghost predicate EntryAgrees(s: State, g: Tgid) {
    g in s.stats <==> Live(s.history, g)
  }

  ghost predicate Entries(s: State) {
    forall g :: EntryAgrees(s, g)
  }

  /** A slot holds, modulo its width, the bytes credited on its CPU since the entry was created. */
  ghost predicate SlotAgrees(s: State, g: Tgid, cpu: nat, ctr: Counter) {
    g in s.stats && cpu < |s.stats[g]| ==>
      StatsCount(s.stats[g][cpu], ctr) == Credited(s.history, g, cpu, ctr) % U64_LIMIT
  }

  ghost predicate Slots(s: State) {
    forall g, cpu, ctr :: SlotAgrees(s, g, cpu, ctr)
  }

  /** A slot holds, for each protocol, the address of the last credit on its CPU. */
  ghost predicate AddrAgrees(s: State, g: Tgid, cpu: nat, p: Protocol) {
    g in s.stats && cpu < |s.stats[g]| ==> SlotAddr(s.stats[g][cpu], p) == LastAddr(s.history, g, cpu, p)
  }

  ghost predicate Addrs(s: State) {
    forall g, cpu, p :: AddrAgrees(s, g, cpu, p)
  }

  /**
   An address is saved exactly as long as a capture is outstanding, and is the one captured; a thread that
   is just deleting it may still have it.
   */
  ghost predicate CaptureAgrees(s: State, k: CaptureKey) {
    var mine := if k in s.saved then Some(s.saved[k]) else None;
    Outstanding(s.history, k)
    == if PcOf(s, k.thread).Taken? && PcOf(s, k.thread).kind == k.kind then None else mine
  }

  ghost predicate Captures(s: State) {
    forall k :: CaptureAgrees(s, k)
  }

  ghost predicate Inv(s: State) {
    && Shape(s) && Threads(s) && Entries(s) && Slots(s) && Addrs(s) && Captures(s)
    && WellOrdered(s.history) && OnCpus(s.history, s.cpus)
  }

  // Preservation

  lemma StepShape(s: State, a: Action)
    requires Shape(s)
    ensures Shape(Step(s, a)) && Step(s, a).cpus == s.cpus
  {
    if a.Exit? {
      assert (s.stats - {a.thread.tgid}).Keys <= s.stats.Keys;
      CardinalitySubset((s.stats - {a.thread.tgid}).Keys, s.stats.Keys);
    }
  }

  lemma CardinalitySubset(a: set<Tgid>, b: set<Tgid>)
    requires a <= b
    ensures |a| <= |b|
  {
    assert b == a + (b - a);
  }

  function Actor(a: Action): Option<Thread> {
    match a
    case Enter(t, _, _) => Some(t)
    case Return(t, _, _, _) => Some(t)
    case Cleanup(t, _, _, _) => Some(t)
    case Run(t, _, _) => Some(t)
    case Exit(t) => Some(t)
    case _ => None
  }

  /** Everything the machine holds about one thread and one kind of call. */
  datatype Local = Local(pc: Pc, own: Option<Event>, outstanding: Option<StatsAddr>, saved: Option<StatsAddr>)

  function LocalOf(s: State, k: CaptureKey): Local {
    Local(PcOf(s, k.thread), Own(s.history, k.thread), Outstanding(s.history, k),
          if k in s.saved then Some(s.saved[k]) else None)
  }

  lemma GotoElsewhere(s: State, t: Thread, pc: Pc, k: CaptureKey)
    requires k.thread != t
    ensures LocalOf(Goto(s, t, pc), k) == LocalOf(s, k)
  {
  }

  lemma LogElsewhere(s: State, e: Event, t: Thread, pc: Pc, k: CaptureKey)
    requires e.thread == t != k.thread
    ensures LocalOf(Goto(Log(s, e), t, pc), k) == LocalOf(s, k)
  {
    GotoElsewhere(Log(s, e), t, pc, k);
  }

  lemma RunElsewhere(s: State, t: Thread, ok: bool, comm: seq<byte>, k: CaptureKey)
    requires k.thread != t
    ensures LocalOf(RunStep(s, t, ok, comm), k) == LocalOf(s, k)
  {
    match PcOf(s, t)
    case Idle =>
    case Taken(kind, addr, ret, cpu) =>
      var d := s.(saved := s.saved - {CaptureKey(kind, t)});
      assert LocalOf(d, k) == LocalOf(s, k);
      GotoElsewhere(d, t, Idle, k);
      if ret > 0 {
        var r := ReturnRequest(kind, addr, ret, cpu);
        LogElsewhere(d, Asked(t, r), t, Find(r), k);
      }
    case Find(r) =>
      FindElsewhere(s, t, r, k);
      LogElsewhere(s, Missed(t, r), t, Insert(r), k);
    case FindAgain(r) =>
      FindElsewhere(s, t, r, k);
      LogElsewhere(s, Lost(t, r), t, Idle, k);
    case Insert(r) =>
      var d := s.(stats := s.stats[t.tgid := NewEntry(s.cpus, r)]);
      assert LocalOf(d, k) == LocalOf(s, k);
      LogElsewhere(d, Created(t, r), t, Announce, k);
      LogElsewhere(s, InsertFailed(t, r, !ok), t, FindAgain(r), k);
    case Announce =>
      var d := s.(ring := s.ring + [StartEvent(t.tgid, comm)]);
      assert LocalOf(d, k) == LocalOf(s, k);
      LogElsewhere(d, Announced(t, comm), t, Idle, k);
      LogElsewhere(s, Refused(t), t, Idle, k);
  }

  lemma FindElsewhere(s: State, t: Thread, r: Request, k: CaptureKey)
    requires k.thread != t
    ensures t.tgid in s.stats ==> LocalOf(AddTo(s, t, r), k) == LocalOf(s, k)
  {
    if t.tgid in s.stats {
      var d := s.(stats := AddTo(s, t, r).stats);
      assert LocalOf(d, k) == LocalOf(s, k);
      LogElsewhere(d, Added(t, r), t, Idle, k);
    }
  }

  /** A step leaves every other thread where it was; only eviction may take its saved address. */
  lemma StepElsewhere(s: State, a: Action, k: CaptureKey)
    requires Actor(a) != Some(k.thread)
    ensures LocalOf(Step(s, a), k)
            == if a == Evict(k) && k in s.saved
               then LocalOf(s, k).(saved := None, outstanding := None)
               else LocalOf(s, k)
  {
    if a.Run? {
      RunElsewhere(s, a.thread, a.ok, a.comm, k);
    }
  }

  lemma RunAgrees(s: State, t: Thread, ok: bool, comm: seq<byte>)
    requires PcAgrees(s, t)
    ensures PcAgrees(RunStep(s, t, ok, comm), t)
  {
  }

  lemma StepAgrees(s: State, a: Action, t: Thread)
    requires PcAgrees(s, t)
    ensures PcAgrees(Step(s, a), t)
  {
    if Actor(a) != Some(t) {
      StepElsewhere(s, a, CaptureKey(TcpSend, t));
      SameCpus(s, a);
    } else if a.Run? {
      RunAgrees(s, t, a.ok, a.comm);
    }
  }

  lemma SameCpus(s: State, a: Action)
    ensures Step(s, a).cpus == s.cpus
  {
  }

  lemma StepThreads(s: State, a: Action)
    requires Threads(s)
    ensures Threads(Step(s, a))
  {
    forall t ensures PcAgrees(Step(s, a), t) {
      StepAgrees(s, a, t);
    }
  }

  lemma RunEntry(s: State, t: Thread, ok: bool, comm: seq<byte>, g: Tgid)
    requires EntryAgrees(s, g)
    ensures EntryAgrees(RunStep(s, t, ok, comm), g)
  {
  }

  lemma StepEntries(s: State, a: Action)
    requires Entries(s)
    ensures Entries(Step(s, a))
  {
    forall g ensures EntryAgrees(Step(s, a), g) {
      assert EntryAgrees(s, g);
      if a.Run? {
        RunEntry(s, a.thread, a.ok, a.comm, g);
      }
    }
  }

  lemma RunCapture(s: State, t: Thread, ok: bool, comm: seq<byte>, kind: CallKind)
    requires PcAgrees(s, t) && CaptureAgrees(s, CaptureKey(kind, t))
    ensures CaptureAgrees(RunStep(s, t, ok, comm), CaptureKey(kind, t))
  {
  }

  lemma StepCapture(s: State, a: Action, k: CaptureKey)
    requires PcAgrees(s, k.thread) && CaptureAgrees(s, k)
    ensures CaptureAgrees(Step(s, a), k)
  {
    if Actor(a) != Some(k.thread) {
      StepElsewhere(s, a, k);
    } else if a.Run? {
      RunCapture(s, k.thread, a.ok, a.comm, k.kind);
    }
  }

  lemma StepCaptures(s: State, a: Action)
    requires Threads(s) && Captures(s)
    ensures Captures(Step(s, a))
  {
    forall k ensures CaptureAgrees(Step(s, a), k) {
      assert PcAgrees(s, k.thread);
      StepCapture(s, a, k);
    }
  }

  lemma {:induction false} LiveSetIsLive(h: History, g: Tgid)
    ensures g in LiveSet(h) <==> Live(h, g)
  {
    if h.Then? {
      LiveSetIsLive(h.past, g);
    }
  }

  /** The processes in the map are those with an entry, by the log. */
  lemma KeysAreLive(s: State)
    requires Entries(s)
    ensures s.stats.Keys == LiveSet(s.history) && |s.stats| == |LiveSet(s.history)|
  {
    forall g ensures g in s.stats.Keys <==> g in LiveSet(s.history) {
      assert EntryAgrees(s, g);
      LiveSetIsLive(s.history, g);
    }
    assert |s.stats| == |s.stats.Keys|;
  }

  lemma RunOrdered(s: State, t: Thread, ok: bool, comm: seq<byte>)
    requires PcAgrees(s, t) && EntryAgrees(s, t.tgid) && WellOrdered(s.history)
    requires |s.stats| == |LiveSet(s.history)|
    ensures WellOrdered(RunStep(s, t, ok, comm).history)
  {
    var d := RunStep(s, t, ok, comm);
    if d.history != s.history {
      RunInOrder(s, t, ok, comm);
    }
  }

  /** At most one event was logged, and in order. */
  ghost predicate LoggedInOrder(h: History, d: History) {
    d == h || (d.Then? && d.past == h && InOrder(h, d.event))
  }

  lemma TakenInOrder(s: State, t: Thread, ok: bool, comm: seq<byte>)
    requires PcAgrees(s, t) && PcOf(s, t).Taken?
    ensures LoggedInOrder(s.history, RunStep(s, t, ok, comm).history)
  {
    var Taken(kind, addr, ret, cpu) := PcOf(s, t);
    if ret > 0 {
      var r := ReturnRequest(kind, addr, ret, cpu);
      assert r == ReturnRequest(kind, r.addr, ret, r.cpu);
      assert Own(s.history, t) == Some(Consumed(t, kind, r.addr, ret, r.cpu));
    }
  }

  lemma InsertInOrder(s: State, t: Thread, ok: bool, comm: seq<byte>)
    requires PcAgrees(s, t) && EntryAgrees(s, t.tgid) && |s.stats| == |LiveSet(s.history)| && PcOf(s, t).Insert?
    ensures LoggedInOrder(s.history, RunStep(s, t, ok, comm).history)
  {
  }

  lemma RunInOrder(s: State, t: Thread, ok: bool, comm: seq<byte>)
    requires PcAgrees(s, t) && EntryAgrees(s, t.tgid) && |s.stats| == |LiveSet(s.history)|
    ensures LoggedInOrder(s.history, RunStep(s, t, ok, comm).history)
  {
    if PcOf(s, t).Taken? {
      TakenInOrder(s, t, ok, comm);
    } else if PcOf(s, t).Insert? {
      InsertInOrder(s, t, ok, comm);
    }
  }

  lemma StepOrdered(s: State, a: Action)
    requires Threads(s) && Entries(s) && Captures(s) && WellOrdered(s.history)
    ensures WellOrdered(Step(s, a).history)
  {
    if Actor(a).Some? {
      assert PcAgrees(s, a.thread);
      assert EntryAgrees(s, a.thread.tgid);
      if a.Run? {
        KeysAreLive(s);
        RunOrdered(s, a.thread, a.ok, a.comm);
      } else if a.Return? {
        assert CaptureAgrees(s, CaptureKey(a.kind, a.thread));
      }
    } else if a.Evict? {
      assert CaptureAgrees(s, a.key) && PcAgrees(s, a.key.thread);
    }
  }

  lemma UpdateCount(slot: ProcStats, r: Request, ctr: Counter)
    ensures StatsCount(Update(slot, r), ctr) == WrapAdd(StatsCount(slot, ctr), Bytes(r, ctr))
  {
  }

  lemma AddSlot(s: State, t: Thread, r: Request, g: Tgid, cpu: nat, ctr: Counter)
    requires t.tgid in s.stats && SlotAgrees(s, g, cpu, ctr)
    ensures SlotAgrees(AddTo(s, t, r), g, cpu, ctr)
  {
    if g == t.tgid && cpu == r.cpu && cpu < |s.stats[g]| {
      UpdateCount(s.stats[g][cpu], r, ctr);
      WrapIsModulo(Credited(s.history, g, cpu, ctr), Bytes(r, ctr));
    }
  }

  lemma CreateSlot(s: State, t: Thread, r: Request, g: Tgid, cpu: nat, ctr: Counter)
    requires t.tgid !in s.stats && SlotAgrees(s, g, cpu, ctr)
    ensures SlotAgrees(Log(s.(stats := s.stats[t.tgid := NewEntry(s.cpus, r)]), Created(t, r)), g, cpu, ctr)
  {
    UpdateCount(EMPTY_STATS, r, ctr);
  }

  lemma RunSlot(s: State, t: Thread, ok: bool, comm: seq<byte>, g: Tgid, cpu: nat, ctr: Counter)
    requires SlotAgrees(s, g, cpu, ctr)
    ensures SlotAgrees(RunStep(s, t, ok, comm), g, cpu, ctr)
  {
    match PcOf(s, t)
    case Idle =>
    case Taken(_, _, _, _) =>
    case Find(r) => if t.tgid in s.stats { AddSlot(s, t, r, g, cpu, ctr); }
    case Insert(r) => if t.tgid !in s.stats { CreateSlot(s, t, r, g, cpu, ctr); }
    case FindAgain(r) => if t.tgid in s.stats { AddSlot(s, t, r, g, cpu, ctr); }
    case Announce =>
  }

  lemma StepSlot(s: State, a: Action, g: Tgid, cpu: nat, ctr: Counter)
    requires SlotAgrees(s, g, cpu, ctr)
    ensures SlotAgrees(Step(s, a), g, cpu, ctr)
  {
    if a.Run? {
      RunSlot(s, a.thread, a.ok, a.comm, g, cpu, ctr);
    }
  }

  lemma StepSlots(s: State, a: Action)
    requires Slots(s)
    ensures Slots(Step(s, a))
  {
    forall g, cpu, ctr ensures SlotAgrees(Step(s, a), g, cpu, ctr) {
      StepSlot(s, a, g, cpu, ctr);
    }
  }

  lemma AddAddr(s: State, t: Thread, r: Request, g: Tgid, cpu: nat, p: Protocol)
    requires t.tgid in s.stats && AddrAgrees(s, g, cpu, p)
    ensures AddrAgrees(AddTo(s, t, r), g, cpu, p)
  {
  }

  lemma CreateAddr(s: State, t: Thread, r: Request, g: Tgid, cpu: nat, p: Protocol)
    requires t.tgid !in s.stats && AddrAgrees(s, g, cpu, p)
    ensures AddrAgrees(Log(s.(stats := s.stats[t.tgid := NewEntry(s.cpus, r)]), Created(t, r)), g, cpu, p)
  {
    if g == t.tgid && cpu < s.cpus {
      assert NewEntry(s.cpus, r)[cpu] == if cpu == r.cpu then Update(EMPTY_STATS, r) else EMPTY_STATS;
    }
  }

  lemma RunAddr(s: State, t: Thread, ok: bool, comm: seq<byte>, g: Tgid, cpu: nat, p: Protocol)
    requires AddrAgrees(s, g, cpu, p)
    ensures AddrAgrees(RunStep(s, t, ok, comm), g, cpu, p)
  {
    match PcOf(s, t)
    case Idle =>
    case Taken(_, _, _, _) =>
    case Find(r) => if t.tgid in s.stats { AddAddr(s, t, r, g, cpu, p); }
    case Insert(r) => if t.tgid !in s.stats { CreateAddr(s, t, r, g, cpu, p); }
    case FindAgain(r) => if t.tgid in s.stats { AddAddr(s, t, r, g, cpu, p); }
    case Announce =>
  }

  lemma StepAddr(s: State, a: Action, g: Tgid, cpu: nat, p: Protocol)
    requires AddrAgrees(s, g, cpu, p)
    ensures AddrAgrees(Step(s, a), g, cpu, p)
  {
    if a.Run? {
      RunAddr(s, a.thread, a.ok, a.comm, g, cpu, p);
    }
  }

  lemma StepAddrs(s: State, a: Action)
    requires Addrs(s)
    ensures Addrs(Step(s, a))
  {
    forall g, cpu, p ensures AddrAgrees(Step(s, a), g, cpu, p) {
      StepAddr(s, a, g, cpu, p);
    }
  }

  lemma RunOnCpus(s: State, t: Thread, ok: bool, comm: seq<byte>)
    requires PcAgrees(s, t) && OnCpus(s.history, s.cpus)
    ensures OnCpus(RunStep(s, t, ok, comm).history, s.cpus)
  {
  }

  lemma StepOnCpus(s: State, a: Action)
    requires Threads(s) && OnCpus(s.history, s.cpus)
    ensures OnCpus(Step(s, a).history, Step(s, a).cpus)
  {
    SameCpus(s, a);
    if a.Run? {
      RunOnCpus(s, a.thread, a.ok, a.comm);
    }
  }

  lemma StepInv(s: State, a: Action)
    requires Inv(s)
    ensures Inv(Step(s, a))
  {
    StepShape(s, a);
    StepThreads(s, a);
    StepEntries(s, a);
    StepSlots(s, a);
    StepAddrs(s, a);
    StepCaptures(s, a);
    StepOrdered(s, a);
    StepOnCpus(s, a);
  }

  lemma {:induction false} ExecInv(s: State, actions: seq<Action>)
    requires Inv(s)
    ensures Inv(Exec(s, actions))
  {
    if actions != [] {
      ExecInv(s, actions[..|actions| - 1]);
      StepInv(Exec(s, actions[..|actions| - 1]), actions[|actions| - 1]);
    }
  }

  lemma InitInv(cpus: nat)
    ensures Inv(Init(cpus))
  {
  }

  // What the invariant means for whoever reads the maps

  /**
   In every reachable state the map holds at most 512 entries, one slot per CPU each, and every slot
   holds exactly the bytes credited on its CPU since the entry was created, modulo 2^64.
   */
  lemma SlotsConserveBytes(cpus: nat, actions: seq<Action>, g: Tgid)
    ensures var s := Exec(Init(cpus), actions);
            |s.stats| <= 512
            && (g in s.stats ==>
                  |s.stats[g]| == cpus
                  && forall cpu, ctr :: 0 <= cpu < cpus ==>
                       StatsCount(s.stats[g][cpu], ctr) == Credited(s.history, g, cpu, ctr) % U64_LIMIT)
  {
    var s := Exec(Init(cpus), actions);
    InitInv(cpus);
    ExecInv(Init(cpus), actions);
    ExecCpus(Init(cpus), actions);
    if g in s.stats {
      forall cpu, ctr | 0 <= cpu < cpus
        ensures StatsCount(s.stats[g][cpu], ctr) == Credited(s.history, g, cpu, ctr) % U64_LIMIT
      {
        assert SlotAgrees(s, g, cpu, ctr);
      }
    }
  }

  /** And for each protocol the address of the last credit there, or none. */
  lemma SlotsHoldLastAddr(cpus: nat, actions: seq<Action>, g: Tgid, cpu: nat, p: Protocol)
    requires g in Exec(Init(cpus), actions).stats && cpu < cpus
    ensures var s := Exec(Init(cpus), actions);
            cpu < |s.stats[g]| && SlotAddr(s.stats[g][cpu], p) == LastAddr(s.history, g, cpu, p)
  {
    var s := Exec(Init(cpus), actions);
    InitInv(cpus);
    ExecInv(Init(cpus), actions);
    ExecCpus(Init(cpus), actions);
    assert AddrAgrees(s, g, cpu, p);
  }

  lemma CreationAddsUp(h: History, g: Tgid, ctr: Counter, cpus: nat)
    requires h.Then? && h.event.Created? && h.event.thread.tgid == g && h.event.req.cpu < cpus
    ensures Sum(Credits(h, g, ctr, cpus)) == Bytes(h.event.req, ctr)
  {
    var none: seq<nat> := seq(cpus, _ => 0);
    SumAtMost(Itself, none, 0);
    SumRaise(none, h.event.req.cpu, Bytes(h.event.req, ctr));
    assert Credits(h, g, ctr, cpus) == none[h.event.req.cpu := Bytes(h.event.req, ctr)];
  }

  lemma AdditionAddsUp(h: History, g: Tgid, ctr: Counter, cpus: nat)
    requires h.Then? && h.event.Added? && h.event.thread.tgid == g && h.event.req.cpu < cpus
    ensures Sum(Credits(h, g, ctr, cpus)) == Sum(Credits(h.past, g, ctr, cpus)) + Bytes(h.event.req, ctr)
  {
    var before, cpu := Credits(h.past, g, ctr, cpus), h.event.req.cpu;
    SumRaise(before, cpu, Bytes(h.event.req, ctr));
    assert Credits(h, g, ctr, cpus) == before[cpu := before[cpu] + Bytes(h.event.req, ctr)];
  }

  /** Call by call or slot by slot, the credits are the same: every credit is in exactly one slot. */
  lemma {:induction false} CreditsAddUp(h: History, g: Tgid, ctr: Counter, cpus: nat)
    requires OnCpus(h, cpus)
    ensures Sum(Credits(h, g, ctr, cpus)) == CreditedTotal(h, g, ctr)
  {
    if h.Empty? || (h.event.thread.tgid == g && h.event.Exited?) {
      SumAtMost(Itself, Credits(h, g, ctr, cpus), 0);
    } else if h.event.thread.tgid == g && h.event.Created? {
      CreationAddsUp(h, g, ctr, cpus);
    } else {
      CreditsAddUp(h.past, g, ctr, cpus);
      if h.event.thread.tgid == g && h.event.Added? {
        AdditionAddsUp(h, g, ctr, cpus);
      } else {
        assert Credits(h, g, ctr, cpus) == Credits(h.past, g, ctr, cpus);
      }
    }
  }

  lemma RunsStayOnCpus(cpus: nat, actions: seq<Action>)
    ensures OnCpus(Exec(Init(cpus), actions).history, cpus)
  {
    InitInv(cpus);
    ExecInv(Init(cpus), actions);
    ExecCpus(Init(cpus), actions);
  }

  ghost predicate NoneWrapped(credits: seq<nat>) {
    forall i :: 0 <= i < |credits| ==> credits[i] < U64_LIMIT
  }

  lemma {:induction false} SlotsSumToCredits(slots: seq<ProcStats>, credits: seq<nat>, ctr: Counter)
    requires |slots| == |credits|
    requires forall i :: 0 <= i < |slots| ==> StatsCount(slots[i], ctr) == credits[i] % U64_LIMIT
    ensures SumBy((slot: ProcStats) => StatsCount(slot, ctr), slots) <= Sum(credits)
    ensures SumBy((slot: ProcStats) => StatsCount(slot, ctr), slots) == Sum(credits)
            <==> NoneWrapped(credits)
  {
    if slots != [] {
      SlotsSumToCredits(slots[1..], credits[1..], ctr);
      assert forall i :: 0 < i < |credits| ==> credits[i] == credits[1..][i - 1];
    }
  }

  /**
   In every run the slots of a live entry add up to at most the bytes credited since its creation, and
   to exactly these as long as no slot was credited 2^64 bytes or more.
   */
  lemma EntryHoldsEveryCredit(cpus: nat, actions: seq<Action>, g: Tgid, ctr: Counter)
    requires g in Exec(Init(cpus), actions).stats
    ensures var s := Exec(Init(cpus), actions);
            var held := SumBy((slot: ProcStats) => StatsCount(slot, ctr), s.stats[g]);
            && held <= CreditedTotal(s.history, g, ctr)
            && (held == CreditedTotal(s.history, g, ctr)
                <==> NoneWrapped(Credits(s.history, g, ctr, cpus)))
  {
    var s := Exec(Init(cpus), actions);
    RunsStayOnCpus(cpus, actions);
    CreditsAddUp(s.history, g, ctr, cpus);
    SlotsConserveBytes(cpus, actions, g);
    SlotsSumToCredits(s.stats[g], Credits(s.history, g, ctr, cpus), ctr);
  }

  lemma {:induction false} ExecSplit(s: State, actions: seq<Action>, n: nat)
    requires n <= |actions|
    ensures Exec(s, actions) == Exec(Exec(s, actions[..n]), actions[n..])
  {
    if n == |actions| {
      assert actions[..n] == actions && actions[n..] == [];
    } else {
      var init := actions[..|actions| - 1];
      ExecSplit(s, init, n);
      assert init[..n] == actions[..n];
      assert actions[n..][..|actions| - n - 1] == init[n..];
    }
  }

  lemma {:induction false} ExecCpus(s: State, actions: seq<Action>)
    ensures Exec(s, actions).cpus == s.cpus
  {
    if actions != [] {
      ExecCpus(s, actions[..|actions| - 1]);
      SameCpus(Exec(s, actions[..|actions| - 1]), actions[|actions| - 1]);
    }
  }
}
