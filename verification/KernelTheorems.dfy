/** What the order of events in every kernel history implies: calls, start events and probe pairs. */
module KernelTheorems {
  import opened Words
  import opened StatsTypes
  import opened Kernel
  import opened KernelProofs

  /** Every kernel run, from boot, keeps its history in order. */
  lemma RunsAreOrdered(cpus: nat, actions: seq<Action>)
    ensures WellOrdered(Exec(Init(cpus), actions).history)
  {
    InitInv(cpus);
    ExecInv(Init(cpus), actions);
  }

  ghost predicate Prefix(p: History, h: History) {
    p == h || (h.Then? && Prefix(p, h.past))
  }

  /** So every event in it happened when it was allowed to. */
  lemma {:induction false} EveryEventInOrder(p: History, h: History)
    requires WellOrdered(h) && Prefix(p, h) && p.Then?
    ensures WellOrdered(p) && InOrder(p.past, p.event)
  {
    if p != h {
      EveryEventInOrder(p, h.past);
    }
  }

  // Every accounting call is settled once

  function AskedBytes(h: History, t: Thread, ctr: Counter): nat {
    match h
    case Empty => 0
    case Then(past, e) => AskedBytes(past, t, ctr) + if e.thread == t && e.Asked? then Bytes(e.req, ctr) else 0
  }

  function AddedBytes(h: History, t: Thread, ctr: Counter): nat {
    match h
    case Empty => 0
    case Then(past, e) =>
      AddedBytes(past, t, ctr) + if e.thread == t && (e.Created? || e.Added?) then Bytes(e.req, ctr) else 0
  }

  function LostBytes(h: History, t: Thread, ctr: Counter): nat {
    match h
    case Empty => 0
    case Then(past, e) => LostBytes(past, t, ctr) + if e.thread == t && e.Lost? then Bytes(e.req, ctr) else 0
  }

  function OpenBytes(h: History, t: Thread, ctr: Counter): nat {
    match Open(h, t) case None => 0 case Some(r) => Bytes(r, ctr)
  }

  function AskedCalls(h: History, t: Thread): nat {
    match h
    case Empty => 0
    case Then(past, e) => AskedCalls(past, t) + if e.thread == t && e.Asked? then 1 else 0
  }

  function SettledCalls(h: History, t: Thread): nat {
    match h
    case Empty => 0
    case Then(past, e) => SettledCalls(past, t) + if e.thread == t && (e.Created? || e.Added? || e.Lost?) then 1 else 0
  }

  /**
   A thread's calls and their bytes, to the last byte: what it asked to account is what was added to
   some slot, plus what was lost, plus the one call it may still be in.
   */
  lemma {:induction false} CallsSettleOnce(h: History, t: Thread, ctr: Counter)
    requires WellOrdered(h)
    ensures AskedCalls(h, t) == SettledCalls(h, t) + if Open(h, t).Some? then 1 else 0
    ensures AskedBytes(h, t, ctr) == AddedBytes(h, t, ctr) + LostBytes(h, t, ctr) + OpenBytes(h, t, ctr)
  {
    if h.Then? {
      CallsSettleOnce(h.past, t, ctr);
    }
  }

  // Entries and their start events

  /** An entry that was there and is not was taken by its leader's exit, in between. */
  lemma {:induction false} DeathNeedsExit(h: History, p: History, g: Tgid) returns (q: History)
    requires WellOrdered(h) && Prefix(p, h) && Live(p, g) && !Live(h, g)
    ensures Prefix(q, h) && q.Then? && Prefix(p, q.past) && q.event == Exited(Thread(g, g))
  {
    if h.event.Exited? && h.event.thread.tgid == g {
      q := h;
    } else {
      q := DeathNeedsExit(h.past, p, g);
    }
  }

  /** The failed insert that a call in its second lookup comes from. */
  lemma {:induction false} InsertBehind(h: History, t: Thread, r: Request) returns (q: History)
    requires WellOrdered(h) && FailedToInsert(h, t, r)
    ensures Prefix(q, h) && q.Then? && q.event.InsertFailed? && q.event.thread == t && q.event.req == r
    ensures q.event.refused || Live(q.past, t.tgid) || |LiveSet(q.past)| >= 512
  {
    if h.event.thread == t && !h.event.Evicted? {
      q := h;
    } else {
      q := InsertBehind(h.past, t, r);
    }
  }

  /** What made an insert fail. */
  datatype Reason = MapFull | InsertRefused | LeaderLeft(exit: History)

  /**
   Bytes are never lost without a reason. The call's own insert failed (`q`), and then: 512 other processes had
   an entry, or the map refused, or the entry was there and the process's leader exited before the call
   looked again.
   */
  lemma LossHasReason(h: History, p: History) returns (q: History, why: Reason)
    requires WellOrdered(h) && Prefix(p, h) && p.Then? && p.event.Lost?
    ensures var t := p.event.thread;
            && Prefix(q, p.past) && q.Then? && q.event.InsertFailed?
            && q.event.thread == t && q.event.req == p.event.req
            && match why
               case InsertRefused => q.event.refused
               case MapFull => |LiveSet(q.past)| >= 512 && t.tgid !in LiveSet(q.past)
               case LeaderLeft(x) =>
                 Prefix(x, p.past) && x.Then? && Prefix(q, x.past) && x.event == Exited(Thread(t.tgid, t.tgid))
  {
    var t, r := p.event.thread, p.event.req;
    EveryEventInOrder(p, h);
    q := InsertBehind(p.past, t, r);
    LiveSetIsLive(q.past, t.tgid);
    if q.event.refused {
      why := InsertRefused;
    } else if Live(q.past, t.tgid) {
      var x := DeathNeedsExit(p.past, q, t.tgid);
      why := LeaderLeft(x);
    } else {
      why := MapFull;
    }
  }

  /** Racing first senders: between two creations of one entry its process's leader exited. */
  lemma CreatedTwiceMeansExit(h: History, later: History, earlier: History, g: Tgid) returns (q: History)
    requires WellOrdered(h) && Prefix(later, h) && later.Then? && Prefix(earlier, later.past)
    requires later.event.Created? && later.event.thread.tgid == g
    requires earlier.Then? && earlier.event.Created? && earlier.event.thread.tgid == g
    ensures Prefix(q, later.past) && q.Then? && Prefix(earlier, q.past) && q.event == Exited(Thread(g, g))
  {
    EveryEventInOrder(later, h);
    q := DeathNeedsExit(later.past, earlier, g);
  }

  function Creations(h: History, g: Tgid): nat {
    match h
    case Empty => 0
    case Then(past, e) => Creations(past, g) + if e.Created? && e.thread.tgid == g then 1 else 0
  }

  function Announcements(h: History, g: Tgid): nat {
    match h
    case Empty => 0
    case Then(past, e) => Announcements(past, g) + if e.Announced? && e.thread.tgid == g then 1 else 0
  }

  function Refusals(h: History, g: Tgid): nat {
    match h
    case Empty => 0
    case Then(past, e) => Refusals(past, g) + if e.Refused? && e.thread.tgid == g then 1 else 0
  }

  /** The threads that have created an entry for `g` and not yet announced it. */
  function Announcing(s: State, g: Tgid): set<Thread> {
    set t | t in s.pcs && t.tgid == g && s.pcs[t].Announce?
  }

  ghost predicate EventsBalance(s: State, g: Tgid) {
    Creations(s.history, g) == Announcements(s.history, g) + Refusals(s.history, g) + |Announcing(s, g)|
  }

  lemma GotoAnnouncing(s: State, t: Thread, pc: Pc, g: Tgid)
    ensures Announcing(Goto(s, t, pc), g)
            == if pc.Announce? && t.tgid == g then Announcing(s, g) + {t} else Announcing(s, g) - {t}
  {
  }

  /** A step that creates and announces nothing moves a thread between positions that owe no event. */
  lemma MoveBalance(s: State, d: State, t: Thread, pc: Pc, g: Tgid)
    requires EventsBalance(s, g) && !PcOf(s, t).Announce? && !pc.Announce?
    requires d.pcs == s.pcs[t := pc]
    requires d.history == s.history
          || (d.history.Then? && d.history.past == s.history
              && !d.history.event.Created? && !d.history.event.Announced? && !d.history.event.Refused?)
    ensures EventsBalance(d, g)
  {
    GotoAnnouncing(s, t, pc, g);
    assert Announcing(d, g) == Announcing(s, g);
  }

  lemma CreateBalance(s: State, d: State, t: Thread, r: Request, g: Tgid)
    requires EventsBalance(s, g) && !PcOf(s, t).Announce?
    requires d.pcs == s.pcs[t := Announce] && d.history == Then(s.history, Created(t, r))
    ensures EventsBalance(d, g)
  {
    GotoAnnouncing(s, t, Announce, g);
    assert Announcing(d, g) == Announcing(Goto(s, t, Announce), g);
    assert t !in Announcing(s, g);
  }

  lemma AnnounceBalance(s: State, d: State, t: Thread, e: Event, g: Tgid)
    requires EventsBalance(s, g) && PcOf(s, t).Announce?
    requires d.pcs == s.pcs[t := Idle] && d.history == Then(s.history, e)
    requires e.thread == t && (e.Announced? || e.Refused?)
    ensures EventsBalance(d, g)
  {
    GotoAnnouncing(s, t, Idle, g);
    assert Announcing(d, g) == Announcing(s, g) - {t};
    assert t.tgid == g ==> t in Announcing(s, g);
  }

  /** A step that is not an insert or an announcement settles nothing about start events. */
  lemma PlainRunBalance(s: State, t: Thread, ok: bool, comm: seq<byte>, g: Tgid)
    requires EventsBalance(s, g) && (PcOf(s, t).Taken? || PcOf(s, t).Find? || PcOf(s, t).FindAgain?)
    ensures EventsBalance(RunStep(s, t, ok, comm), g)
  {
    var d := RunStep(s, t, ok, comm);
    MoveBalance(s, d, t, d.pcs[t], g);
  }

  lemma RunBalance(s: State, t: Thread, ok: bool, comm: seq<byte>, g: Tgid)
    requires EventsBalance(s, g)
    ensures EventsBalance(RunStep(s, t, ok, comm), g)
  {
    var d := RunStep(s, t, ok, comm);
    if PcOf(s, t).Insert? {
      if d.pcs[t].Announce? {
        CreateBalance(s, d, t, PcOf(s, t).req, g);
      } else {
        MoveBalance(s, d, t, d.pcs[t], g);
      }
    } else if PcOf(s, t).Announce? {
      AnnounceBalance(s, d, t, if ok then Announced(t, comm) else Refused(t), g);
    } else if !PcOf(s, t).Idle? {
      PlainRunBalance(s, t, ok, comm, g);
    }
  }

  /** A step that logs nothing about start events and leaves every thread where it is. */
  lemma StillBalance(s: State, d: State, g: Tgid)
    requires EventsBalance(s, g) && d.pcs == s.pcs
    requires d.history == s.history
          || (d.history.Then? && d.history.past == s.history
              && !d.history.event.Created? && !d.history.event.Announced? && !d.history.event.Refused?)
    ensures EventsBalance(d, g)
  {
    assert Announcing(d, g) == Announcing(s, g);
  }

  lemma StepBalance(s: State, a: Action, g: Tgid)
    requires EventsBalance(s, g)
    ensures EventsBalance(Step(s, a), g)
  {
    var d := Step(s, a);
    if a.Run? {
      RunBalance(s, a.thread, a.ok, a.comm, g);
    } else if d.pcs == s.pcs {
      StillBalance(s, d, g);
    } else {
      MoveBalance(s, d, a.thread, d.pcs[a.thread], g);
    }
  }

  /**
   One start event per entry lifetime: creations are announced, refused by a full ring, or about to be
   one of the two. So announcements never outnumber creations, and match them once none is pending
   and the ring refused none.
   */
  lemma {:induction false} StartEventsMatchCreations(cpus: nat, actions: seq<Action>, g: Tgid)
    ensures EventsBalance(Exec(Init(cpus), actions), g)
  {
    if actions != [] {
      StartEventsMatchCreations(cpus, actions[..|actions| - 1], g);
      StepBalance(Exec(Init(cpus), actions[..|actions| - 1]), actions[|actions| - 1], g);
    }
  }

  // The events themselves: in the ring, or taken out of it

  /** The start events that were announced, in order. */
  function AnnouncedEvents(h: History): seq<StartEvent> {
    match h
    case Empty => []
    case Then(past, e) =>
      if e.Announced? then AnnouncedEvents(past) + [StartEvent(e.thread.tgid, e.comm)] else AnnouncedEvents(past)
  }

  /** What a step takes out of the ring. */
  function TakenOut(s: State, a: Action): seq<StartEvent> {
    if a.Drain? then s.ring else []
  }

  /** Everything the daemon took out of the ring, in order. */
  function Drained(s: State, actions: seq<Action>): seq<StartEvent> {
    if actions == [] then []
    else
      var init := actions[..|actions| - 1];
      Drained(s, init) + TakenOut(Exec(s, init), actions[|actions| - 1])
  }

  lemma RunRing(s: State, t: Thread, ok: bool, comm: seq<byte>, drained: seq<StartEvent>)
    requires drained + s.ring == AnnouncedEvents(s.history)
    ensures drained + RunStep(s, t, ok, comm).ring == AnnouncedEvents(RunStep(s, t, ok, comm).history)
  {
    if PcOf(s, t).Announce? && ok {
      PushAssociative(drained, s.ring, StartEvent(t.tgid, comm));
    }
  }

  lemma StepRing(s: State, a: Action, drained: seq<StartEvent>)
    requires drained + s.ring == AnnouncedEvents(s.history)
    ensures drained + TakenOut(s, a) + Step(s, a).ring == AnnouncedEvents(Step(s, a).history)
  {
    assert drained + [] == drained;
    if a.Run? {
      RunRing(s, a.thread, a.ok, a.comm, drained);
    } else if a.Drain? {
      assert drained + s.ring + [] == drained + s.ring;
    }
  }

  /** In every run the ring is a queue: what was taken out and what is still there are the announcements, in order. */
  lemma {:induction false} RingIsQueue(cpus: nat, actions: seq<Action>)
    ensures var s := Exec(Init(cpus), actions);
            Drained(Init(cpus), actions) + s.ring == AnnouncedEvents(s.history)
  {
    if actions != [] {
      var init := actions[..|actions| - 1];
      RingIsQueue(cpus, init);
      StepRing(Exec(Init(cpus), init), actions[|actions| - 1], Drained(Init(cpus), init));
    }
  }

  function EventsOf(events: seq<StartEvent>, g: Tgid): nat {
    if events == [] then 0 else EventsOf(events[..|events| - 1], g) + if events[|events| - 1].tgid == g then 1 else 0
  }

  lemma {:induction false} CountAnnouncements(h: History, g: Tgid)
    ensures EventsOf(AnnouncedEvents(h), g) == Announcements(h, g)
  {
    if h.Then? {
      CountAnnouncements(h.past, g);
      if h.event.Announced? {
        assert AnnouncedEvents(h)[..|AnnouncedEvents(h)| - 1] == AnnouncedEvents(h.past);
      }
    }
  }

  /**
   One start event per entry lifetime, counted where the daemon finds them: the events of `g` never
   outnumber the creations of its entry, and equal them when the ring refused none and none is pending.
   */
  lemma StartEventsPerLifetime(cpus: nat, actions: seq<Action>, g: Tgid)
    ensures var s := Exec(Init(cpus), actions);
            EventsOf(Drained(Init(cpus), actions) + s.ring, g) + Refusals(s.history, g) + |Announcing(s, g)|
            == Creations(s.history, g)
  {
    var s := Exec(Init(cpus), actions);
    StartEventsMatchCreations(cpus, actions, g);
    RingIsQueue(cpus, actions);
    CountAnnouncements(s.history, g);
  }

  // Entry and exit probes

  /** What is outstanding is the address of the last entry probe, with no exit probe after it. */
  lemma {:induction false} OutstandingIsLast(h: History, k: CaptureKey)
    ensures Outstanding(h, k).Some? ==> && LastCapture(h, k) == Outstanding(h, k)
                                        && LastProbe(h, k) == Some(Captured(k.thread, k.kind, Outstanding(h, k).value))
  {
    if h.Then? {
      OutstandingIsLast(h.past, k);
    }
  }

  lemma {:induction false} ConsumedUsesCapture(h: History, k: CaptureKey, addr: StatsAddr, ret: i32, cpu: nat)
    requires WellOrdered(h) && Own(h, k.thread) == Some(Consumed(k.thread, k.kind, addr, ret, cpu))
    ensures LastProbe(h, k) == Some(Consumed(k.thread, k.kind, addr, ret, cpu))
    ensures LastCapture(h, k) == Some(addr)
  {
    if h.event.thread == k.thread && !h.event.Evicted? {
      OutstandingIsLast(h.past, k);
    } else {
      ConsumedUsesCapture(h.past, k, addr, ret, cpu);
    }
  }

  /** A call in progress carries the address of its own thread's last entry probe, and the bytes its call returned. */
  lemma {:induction false} OpenUsesCapture(h: History, k: CaptureKey, r: Request)
    requires WellOrdered(h) && Open(h, k.thread) == Some(r) && r.origin == Returned(k.kind)
    ensures LastCapture(h, k) == Some(r.addr)
    ensures exists ret: i32 :: ret > 0 && r == ReturnRequest(k.kind, r.addr, ret, r.cpu)
                            && LastProbe(h, k) == Some(Consumed(k.thread, k.kind, r.addr, ret, r.cpu))
  {
    var e := h.event;
    if e.thread == k.thread && e.Asked? {
      var ret: i32 :| ret > 0 && r == ReturnRequest(k.kind, r.addr, ret, r.cpu)
                   && Own(h.past, k.thread) == Some(Consumed(k.thread, k.kind, r.addr, ret, r.cpu));
      ConsumedUsesCapture(h.past, k, r.addr, ret, r.cpu);
    } else {
      OpenUsesCapture(h.past, k, r);
    }
  }

  /** The one counter that a call's bytes belong to. */
  function CounterOf(kind: CallKind): Counter {
    match kind case TcpSend => TcpSent case UdpSend => UdpSent case UdpRecv => Counter.UdpRecv
  }

  /** A request asks for these bytes in this counter and for none in any other. */
  ghost predicate AsksFor(r: Request, ctr: Counter, bytes: nat) {
    forall other :: Bytes(r, other) == if other == ctr then bytes else 0
  }

  /** Bytes that were received on TCP and then cleaned up are counted as such. */
  lemma CleanupCounts(h: History, p: History)
    requires WellOrdered(h) && Prefix(p, h) && p.Then? && p.event.Asked? && p.event.req.origin.CleanupRbuf?
    ensures exists n: i32 :: n > 0 && p.event.req == CleanupRequest(p.event.req.addr, n, p.event.req.cpu)
                          && AsksFor(p.event.req, TcpRecv, n)
  {
    EveryEventInOrder(p, h);
  }

  /**
   Whatever an exit probe credits or loses carries the address that the same thread's most recent entry
   probe for that call captured, and that call's byte count in that call's counter.
   */
  lemma CreditUsesOwnCapture(h: History, p: History, kind: CallKind)
    requires WellOrdered(h) && Prefix(p, h) && p.Then?
    requires p.event.Created? || p.event.Added? || p.event.Lost?
    requires p.event.req.origin == Returned(kind)
    ensures LastCapture(p.past, CaptureKey(kind, p.event.thread)) == Some(p.event.req.addr)
    ensures exists ret: i32 :: ret > 0 && AsksFor(p.event.req, CounterOf(kind), ret)
              && LastProbe(p.past, CaptureKey(kind, p.event.thread))
                 == Some(Consumed(p.event.thread, kind, p.event.req.addr, ret, p.event.req.cpu))
  {
    EveryEventInOrder(p, h);
    OpenUsesCapture(p.past, CaptureKey(kind, p.event.thread), p.event.req);
    var ret: i32 :| ret > 0 && p.event.req == ReturnRequest(kind, p.event.req.addr, ret, p.event.req.cpu)
                 && LastProbe(p.past, CaptureKey(kind, p.event.thread))
                    == Some(Consumed(p.event.thread, kind, p.event.req.addr, ret, p.event.req.cpu));
    assert AsksFor(p.event.req, CounterOf(kind), ret);
  }

  /** A credit of one protocol to `g` on one CPU. */
  ghost predicate CreditsTo(e: Event, g: Tgid, cpu: nat, p: Protocol) {
    (e.Created? || e.Added?) && e.thread.tgid == g && e.req.cpu == cpu && e.req.protocol == p
  }

  /** The last address, traced to the credit that brought it, if there was any since the entry's creation. */
  lemma {:induction false} LastAddrOrigin(h: History, g: Tgid, cpu: nat, p: Protocol) returns (q: Option<History>)
    ensures q.None? ==> LastAddr(h, g, cpu, p) == DEFAULT_ADDR
    ensures q.Some? ==> && Prefix(q.value, h) && q.value.Then? && CreditsTo(q.value.event, g, cpu, p)
                        && LastAddr(h, g, cpu, p) == q.value.event.req.addr
  {
    q := None;
    if h.Then? {
      if CreditsTo(h.event, g, cpu, p) {
        q := Some(h);
      } else if !(h.event.thread.tgid == g && (h.event.Exited? || h.event.Created?)) {
        q := LastAddrOrigin(h.past, g, cpu, p);
      }
    }
  }

  /**
   What a slot stores as an address is what an entry probe captured: in every run it is empty, or it came
   with a credit, and if that credit was an exit probe's, it is the address that the same thread's most
   recent entry probe for that call had captured.
   */
  lemma SlotAddrIsCaptured(cpus: nat, actions: seq<Action>, g: Tgid, cpu: nat, p: Protocol) returns (q: Option<History>)
    requires g in Exec(Init(cpus), actions).stats && cpu < cpus
    ensures cpu < |Exec(Init(cpus), actions).stats[g]|
    ensures var s := Exec(Init(cpus), actions);
            var addr := SlotAddr(s.stats[g][cpu], p);
            match q
            case None => addr == DEFAULT_ADDR
            case Some(h) =>
              && Prefix(h, s.history) && h.Then? && CreditsTo(h.event, g, cpu, p) && addr == h.event.req.addr
              && (h.event.req.origin.Returned? ==>
                    LastCapture(h.past, CaptureKey(h.event.req.origin.kind, h.event.thread)) == Some(addr))
  {
    var s := Exec(Init(cpus), actions);
    SlotsHoldLastAddr(cpus, actions, g, cpu, p);
    RunsAreOrdered(cpus, actions);
    q := LastAddrOrigin(s.history, g, cpu, p);
    if q.Some? && q.value.event.req.origin.Returned? {
      CreditUsesOwnCapture(s.history, q.value, q.value.event.req.origin.kind);
    }
  }

  function CaptureCount(h: History, k: CaptureKey): nat {
    match h
    case Empty => 0
    case Then(past, e) => CaptureCount(past, k) + if e.Captured? && CaptureKey(e.kind, e.thread) == k then 1 else 0
  }

  function ConsumeCount(h: History, k: CaptureKey): nat {
    match h
    case Empty => 0
    case Then(past, e) => ConsumeCount(past, k) + if e.Consumed? && CaptureKey(e.kind, e.thread) == k then 1 else 0
  }

  /** Those of calls that returned bytes. */
  function PaidCount(h: History, k: CaptureKey): nat {
    match h
    case Empty => 0
    case Then(past, e) =>
      PaidCount(past, k) + if e.Consumed? && CaptureKey(e.kind, e.thread) == k && e.ret > 0 then 1 else 0
  }

  function ReturnCount(h: History, k: CaptureKey): nat {
    match h
    case Empty => 0
    case Then(past, e) =>
      ReturnCount(past, k) + if e.Asked? && e.thread == k.thread && e.req.origin == Returned(k.kind) then 1 else 0
  }

  ghost predicate OwesReturn(h: History, k: CaptureKey) {
    var own := Own(h, k.thread);
    own.Some? && own.value.Consumed? && own.value.kind == k.kind && own.value.ret > 0
  }

  /**
   Each capture is consumed at most once, and each consumption by a call that returned bytes accounts them
   exactly once, as soon as the thread gets to it.
   */
  lemma {:induction false} CapturesConsumedOnce(h: History, k: CaptureKey)
    requires WellOrdered(h)
    ensures ConsumeCount(h, k) + (if Outstanding(h, k).Some? then 1 else 0) <= CaptureCount(h, k)
    ensures ReturnCount(h, k) + (if OwesReturn(h, k) then 1 else 0) == PaidCount(h, k) <= ConsumeCount(h, k)
  {
    if h.Then? {
      CapturesConsumedOnce(h.past, k);
    }
  }

  /** An exit probe that finds no saved address accounts for nothing. */
  lemma UnmatchedExitCreditsNothing(s: State, t: Thread, kind: CallKind, ret: i32, cpu: nat)
    requires CaptureKey(kind, t) !in s.saved
    ensures var d := Step(s, Return(t, kind, ret, cpu));
            d.stats == s.stats && d.pcs == s.pcs
            && forall u, ctr :: AskedBytes(d.history, u, ctr) == AskedBytes(s.history, u, ctr)
  {
  }
}
