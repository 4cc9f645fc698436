/**
 The BPF programs of `procnet.bpf.c` as a step machine. Each thread runs one probe at a time on some
 CPU; a step is one map operation, and steps of different threads interleave freely. Looking an entry
 up and adding to this CPU's slot of it is one step. Every step that matters is written to a history,
 against which the state is later judged.
 */
module Kernel {
  import opened Words
  import opened StatsTypes

  type Tgid = u32

  /** `bpf_get_current_pid_tgid` */
  datatype Thread = Thread(pid: u32, tgid: Tgid)

  /** The traced calls whose address is saved on entry and used on return. */
  datatype CallKind = TcpSend | UdpSend | UdpRecv

  datatype Protocol = Tcp | Udp

  /** Where the bytes of an `account_bytes` call came from. */
  datatype Origin = Returned(kind: CallKind) | CleanupRbuf

  /** One `account_bytes` call: what it is asked to add, and on which CPU. */
  datatype Request = Request(origin: Origin, addr: StatsAddr, sent: u64, recv: u64, protocol: Protocol, cpu: nat)

  /** What the exit probe of a call that returned `ret > 0` asks for. */
  function ReturnRequest(kind: CallKind, addr: StatsAddr, ret: i32, cpu: nat): Request
    requires ret > 0
  {
    match kind
    case TcpSend => Request(Returned(kind), addr, ret, 0, Tcp, cpu)
    case UdpSend => Request(Returned(kind), addr, ret, 0, Udp, cpu)
    case UdpRecv => Request(Returned(kind), addr, 0, ret, Udp, cpu)
  }

  function CleanupRequest(addr: StatsAddr, copied: i32, cpu: nat): Request
    requires copied > 0
  {
    Request(CleanupRbuf, addr, 0, copied, Tcp, cpu)
  }

  /** The bytes a request adds to one counter. */
  function Bytes(r: Request, ctr: Counter): u64 {
    match ctr
    case TcpSent => if r.protocol == Tcp then r.sent else 0
    case TcpRecv => if r.protocol == Tcp then r.recv else 0
    case UdpSent => if r.protocol == Udp then r.sent else 0
    case UdpRecv => if r.protocol == Udp then r.recv else 0
  }

  /** Where a thread stands inside a probe. */
  datatype Pc =
    | Idle
    | Taken(kind: CallKind, addr: StatsAddr, ret: i32, cpu: nat)  // address copied, not yet deleted
    | Find(req: Request)       // before the first lookup
    | Insert(req: Request)     // it missed
    | FindAgain(req: Request)  // the insert failed
    | Announce                 // the insert succeeded

  datatype Event =
    | Captured(thread: Thread, kind: CallKind, addr: StatsAddr)
    | Consumed(thread: Thread, kind: CallKind, addr: StatsAddr, ret: i32, cpu: nat)
    | Unmatched(thread: Thread, kind: CallKind)
    | Evicted(thread: Thread, kind: CallKind)  // its saved address went, by no step of its own
    | Asked(thread: Thread, req: Request)
    | Missed(thread: Thread, req: Request)
    | InsertFailed(thread: Thread, req: Request, refused: bool)
    | Created(thread: Thread, req: Request)
    | Added(thread: Thread, req: Request)
    | Lost(thread: Thread, req: Request)
    | Announced(thread: Thread, comm: seq<byte>)
    | Refused(thread: Thread)
    | Exited(thread: Thread)

  datatype History = Empty | Then(past: History, event: Event)

  datatype StartEvent = StartEvent(tgid: Tgid, comm: seq<byte>)

  datatype CaptureKey = CaptureKey(kind: CallKind, thread: Thread)

  datatype State = State(
    cpus: nat,
    stats: map<Tgid, seq<ProcStats>>,      // STATS: one slot per CPU
    ring: seq<StartEvent>,                 // EVENTS, not yet consumed
    saved: map<CaptureKey, StatsAddr>,     // the three *_ADDRS maps
    pcs: map<Thread, Pc>,
    history: History)

  datatype Action =
    | Enter(thread: Thread, kind: CallKind, addr: StatsAddr)
    | Return(thread: Thread, kind: CallKind, ret: i32, cpu: nat)
    | Cleanup(thread: Thread, addr: StatsAddr, copied: i32, cpu: nat)
    | Run(thread: Thread, ok: bool, comm: seq<byte>)   // the thread's next map operation
    | Exit(thread: Thread)
    | Evict(key: CaptureKey)                           // LRU pressure
    | Drain                                            // the daemon empties the ring

  function Init(cpus: nat): State {
    State(cpus, map[], [], map[], map[], Empty)
  }

  function PcOf(s: State, t: Thread): Pc {
    if t in s.pcs then s.pcs[t] else Idle
  }

  function Log(s: State, e: Event): State {
    s.(history := Then(s.history, e))
  }

  function Goto(s: State, t: Thread, pc: Pc): State {
    s.(pcs := s.pcs[t := pc])
  }

  /** `update_stats` on one slot: the counters wrap. */
  function Update(slot: ProcStats, r: Request): ProcStats {
    match r.protocol
    case Tcp => slot.(tcp := ProtocolStats(AddBytes(slot.tcp.bytes, r), r.addr))
    case Udp => slot.(udp := ProtocolStats(AddBytes(slot.udp.bytes, r), r.addr))
  }

  function AddBytes(b: StatsBytes, r: Request): StatsBytes {
    StatsBytes(WrapAdd(b.sent, r.sent), WrapAdd(b.recv, r.recv))
  }

  /** A new entry: only the inserting CPU's slot is filled. */
  function NewEntry(cpus: nat, r: Request): (slots: seq<ProcStats>)
    ensures |slots| == cpus
  {
    seq(cpus, i => if i == r.cpu then Update(EMPTY_STATS, r) else EMPTY_STATS)
  }

  /** The entry was found: add to this CPU's slot. */
  function AddTo(s: State, t: Thread, r: Request): State
    requires t.tgid in s.stats
  {
    var slots := s.stats[t.tgid];
    var updated := if r.cpu < |slots| then slots[r.cpu := Update(slots[r.cpu], r)] else slots;
    Goto(Log(s.(stats := s.stats[t.tgid := updated]), Added(t, r)), t, Idle)
  }

  /** The next map operation of a thread that is inside a probe. */
  function RunStep(s: State, t: Thread, ok: bool, comm: seq<byte>): State {
    match PcOf(s, t)
    case Idle => s
    case Taken(kind, addr, ret, cpu) =>
      var d := s.(saved := s.saved - {CaptureKey(kind, t)});
      if ret > 0
      then Goto(Log(d, Asked(t, ReturnRequest(kind, addr, ret, cpu))), t, Find(ReturnRequest(kind, addr, ret, cpu)))
      else Goto(d, t, Idle)
    case Find(r) =>
      if t.tgid in s.stats then AddTo(s, t, r) else Goto(Log(s, Missed(t, r)), t, Insert(r))
    case Insert(r) =>
      if ok && t.tgid !in s.stats && |s.stats| < MAP_SIZE
      then Goto(Log(s.(stats := s.stats[t.tgid := NewEntry(s.cpus, r)]), Created(t, r)), t, Announce)
      else Goto(Log(s, InsertFailed(t, r, !ok)), t, FindAgain(r))
    case FindAgain(r) =>
      if t.tgid in s.stats then AddTo(s, t, r) else Goto(Log(s, Lost(t, r)), t, Idle)
    case Announce =>
      if ok then Goto(Log(s.(ring := s.ring + [StartEvent(t.tgid, comm)]), Announced(t, comm)), t, Idle)
      else Goto(Log(s, Refused(t)), t, Idle)
  }

  /** One step. A step that its thread or CPU cannot take changes nothing. */
  function Step(s: State, a: Action): State {
    match a
    case Enter(t, kind, addr) =>
      if PcOf(s, t).Idle? then Log(s.(saved := s.saved[CaptureKey(kind, t) := addr]), Captured(t, kind, addr)) else s
    case Return(t, kind, ret, cpu) =>
      if !PcOf(s, t).Idle? || cpu >= s.cpus then s
      else if CaptureKey(kind, t) !in s.saved then Log(s, Unmatched(t, kind))
      else
        var addr := s.saved[CaptureKey(kind, t)];
        Goto(Log(s, Consumed(t, kind, addr, ret, cpu)), t, Taken(kind, addr, ret, cpu))
    case Cleanup(t, addr, copied, cpu) =>
      if !PcOf(s, t).Idle? || cpu >= s.cpus || copied <= 0 then s
      else Goto(Log(s, Asked(t, CleanupRequest(addr, copied, cpu))), t, Find(CleanupRequest(addr, copied, cpu)))
    case Run(t, ok, comm) => RunStep(s, t, ok, comm)
    case Exit(t) =>
      if !PcOf(s, t).Idle? || t.pid != t.tgid then s
      else Log(s.(stats := s.stats - {t.tgid}), Exited(t))
    case Evict(key) =>
      if key in s.saved then Log(s.(saved := s.saved - {key}), Evicted(key.thread, key.kind)) else s
    case Drain => s.(ring := [])
  }

  function Exec(s: State, actions: seq<Action>): State {
    if actions == [] then s
    else Step(Exec(s, actions[..|actions| - 1]), actions[|actions| - 1])
  }

  // Reading a history

  /** The last thing a thread did. */
  function Own(h: History, t: Thread): Option<Event> {
    match h
    case Empty => None
    case Then(past, e) => if e.thread == t && !e.Evicted? then Some(e) else Own(past, t)
  }

  /** The last entry or matched exit probe of a thread for one kind of call. */
  function LastProbe(h: History, k: CaptureKey): Option<Event> {
    match h
    case Empty => None
    case Then(past, e) =>
      if (e.Captured? || e.Consumed?) && CaptureKey(e.kind, e.thread) == k then Some(e) else LastProbe(past, k)
  }

  /** The address that was captured and neither used nor evicted since. */
  function Outstanding(h: History, k: CaptureKey): Option<StatsAddr> {
    match h
    case Empty => None
    case Then(past, e) =>
      if e.Captured? && CaptureKey(e.kind, e.thread) == k then Some(e.addr)
      else if (e.Consumed? || e.Evicted?) && CaptureKey(e.kind, e.thread) == k then None
      else Outstanding(past, k)
  }

  /** The address of its last entry probe. */
  function LastCapture(h: History, k: CaptureKey): Option<StatsAddr> {
    match h
    case Empty => None
    case Then(past, e) =>
      if e.Captured? && CaptureKey(e.kind, e.thread) == k then Some(e.addr) else LastCapture(past, k)
  }

  /** Whether an entry for `g` was created and not deleted since. */
  function Live(h: History, g: Tgid): bool {
    match h
    case Empty => false
    case Then(past, e) =>
      if e.thread.tgid == g && e.Created? then true
      else if e.thread.tgid == g && e.Exited? then false
      else Live(past, g)
  }

  /** The processes with an entry. */
  function LiveSet(h: History): set<Tgid> {
    match h
    case Empty => {}
    case Then(past, e) =>
      if e.Created? then LiveSet(past) + {e.thread.tgid}
      else if e.Exited? then LiveSet(past) - {e.thread.tgid}
      else LiveSet(past)
  }

  function CreditOf(e: Event, cpu: nat, ctr: Counter): nat {
    if (e.Created? || e.Added?) && e.req.cpu == cpu then Bytes(e.req, ctr) else 0
  }

  /** The bytes credited to `g` on one CPU since its entry was created, as an unbounded number. */
  function Credited(h: History, g: Tgid, cpu: nat, ctr: Counter): nat {
    match h
    case Empty => 0
    case Then(past, e) =>
      if e.thread.tgid != g then Credited(past, g, cpu, ctr)
      else if e.Exited? then 0
      else if e.Created? then CreditOf(e, cpu, ctr)
      else Credited(past, g, cpu, ctr) + CreditOf(e, cpu, ctr)
  }

  /** The same on every CPU, one number per slot. */
  function Credits(h: History, g: Tgid, ctr: Counter, cpus: nat): (r: seq<nat>)
    ensures |r| == cpus
    ensures forall i :: 0 <= i < cpus ==> r[i] == Credited(h, g, i, ctr)
  {
    seq(cpus, i requires 0 <= i < cpus => Credited(h, g, i, ctr))
  }

  /** All the bytes credited to `g` since its entry was created, counted call by call. */
  function CreditedTotal(h: History, g: Tgid, ctr: Counter): nat {
    match h
    case Empty => 0
    case Then(past, e) =>
      if e.thread.tgid != g then CreditedTotal(past, g, ctr)
      else if e.Exited? then 0
      else if e.Created? then Bytes(e.req, ctr)
      else CreditedTotal(past, g, ctr) + if e.Added? then Bytes(e.req, ctr) else 0
  }

  /** The address of the last credit of one protocol to `g` on one CPU since its entry was created. */
  function LastAddr(h: History, g: Tgid, cpu: nat, p: Protocol): StatsAddr {
    match h
    case Empty => DEFAULT_ADDR
    case Then(past, e) =>
      if e.thread.tgid != g then LastAddr(past, g, cpu, p)
      else if e.Exited? then DEFAULT_ADDR
      else if (e.Created? || e.Added?) && e.req.cpu == cpu && e.req.protocol == p then e.req.addr
      else if e.Created? then DEFAULT_ADDR
      else LastAddr(past, g, cpu, p)
  }

  function SlotAddr(slot: ProcStats, p: Protocol): StatsAddr {
    match p case Tcp => slot.tcp.addr case Udp => slot.udp.addr
  }

  /** Every credit names one of the machine's CPUs. */
  ghost predicate OnCpus(h: History, cpus: nat) {
    h.Then? ==> OnCpus(h.past, cpus) && (h.event.Created? || h.event.Added? ==> h.event.req.cpu < cpus)
  }

  /** An `account_bytes` call in progress: asked for and not yet resolved. */
  function Open(h: History, t: Thread): Option<Request> {
    match Own(h, t)
    case Some(Asked(_, r)) => Some(r)
    case Some(Missed(_, r)) => Some(r)
    case Some(InsertFailed(_, r, _)) => Some(r)
    case _ => None
  }

  /** The thread is between probes, or in one that owes nothing. */
  predicate Quiet(h: History, t: Thread) {
    match Own(h, t)
    case Some(Asked(_, _)) => false
    case Some(Missed(_, _)) => false
    case Some(InsertFailed(_, _, _)) => false
    case Some(Created(_, _)) => false
    case Some(Consumed(_, _, _, ret, _)) => ret <= 0
    case _ => true
  }

  /**
   What must have happened before an event for it to be in order. Nothing goes wrong without a reason: an exit
   probe that finds no address had none outstanding, and an insert fails only on a present entry, a
   full map or a refusal.
   */
  ghost predicate InOrder(h: History, e: Event) {
    match e
    case Captured(t, _, _) => Quiet(h, t)
    case Unmatched(t, kind) => Quiet(h, t) && Outstanding(h, CaptureKey(kind, t)).None?
    case Evicted(t, kind) => Outstanding(h, CaptureKey(kind, t)).Some? || JustUsed(h, CaptureKey(kind, t))
    case Exited(t) => Quiet(h, t) && t.pid == t.tgid
    case Consumed(t, kind, addr, _, _) =>
      Quiet(h, t) && Outstanding(h, CaptureKey(kind, t)) == Some(addr)
    case Asked(t, r) =>
      (match r.origin
       case CleanupRbuf => Quiet(h, t) && exists n: i32 :: n > 0 && r == CleanupRequest(r.addr, n, r.cpu)
       case Returned(kind) =>
         exists n: i32 :: n > 0 && r == ReturnRequest(kind, r.addr, n, r.cpu)
                       && Own(h, t) == Some(Consumed(t, kind, r.addr, n, r.cpu)))
    case Missed(t, r) => Own(h, t) == Some(Asked(t, r)) && !Live(h, t.tgid)
    case InsertFailed(t, r, refused) =>
      Own(h, t) == Some(Missed(t, r)) && (refused || Live(h, t.tgid) || |LiveSet(h)| >= 512)
    case Created(t, r) => Own(h, t) == Some(Missed(t, r)) && !Live(h, t.tgid) && |LiveSet(h)| < 512
    case Added(t, r) => (Own(h, t) == Some(Asked(t, r)) || FailedToInsert(h, t, r)) && Live(h, t.tgid)
    case Lost(t, r) => FailedToInsert(h, t, r) && !Live(h, t.tgid)
    case Announced(t, _) => Own(h, t).Some? && Own(h, t).value.Created?
    case Refused(t) => Own(h, t).Some? && Own(h, t).value.Created?
  }

  /** The last thing the thread did was to use its saved address, which it deletes next. */
  ghost predicate JustUsed(h: History, k: CaptureKey) {
    Own(h, k.thread).Some? && Own(h, k.thread).value.Consumed? && Own(h, k.thread).value.kind == k.kind
  }

  ghost predicate FailedToInsert(h: History, t: Thread, r: Request) {
    Own(h, t).Some? && Own(h, t).value.InsertFailed? && Own(h, t).value.thread == t && Own(h, t).value.req == r
  }

  ghost predicate WellOrdered(h: History) {
    h.Then? ==> WellOrdered(h.past) && InOrder(h.past, h.event)
  }
}
