/** The BPF programs as code over shared maps, one method per stretch between two map operations. */
module Probes {
  import opened Words
  import opened StatsTypes
  import opened Kernel
  import opened KernelProofs
  import opened KernelTheorems
  import opened KernelProgress

  class BpfMaps {
    const cpus: nat
    var stats: map<Tgid, seq<ProcStats>>
    var ring: seq<StartEvent>
    var saved: map<CaptureKey, StatsAddr>
    var pcs: map<Thread, Pc>
    ghost var history: History

    ghost function Now(): State
      reads this
    {
      State(cpus, stats, ring, saved, pcs, history)
    }

    /** The maps agree with everything that has happened. */
    ghost predicate Valid()
      reads this
    {
      Inv(Now())
    }

    constructor (cpus: nat)
      ensures Valid() && Now() == Init(cpus)
    {
      this.cpus := cpus;
      stats, ring, saved, pcs, history := map[], [], map[], map[], Empty;
      new;
      InitInv(cpus);
    }

    function At(t: Thread): Pc
      reads this
    {
      if t in pcs then pcs[t] else Idle
    }

    /** The entry probes: remember the address under the thread's id. */
    method EntryProbe(t: Thread, kind: CallKind, addr: StatsAddr)
      requires Valid() && At(t).Idle?
      modifies this
      ensures Valid() && Now() == Step(old(Now()), Enter(t, kind, addr))
      ensures saved == old(saved)[CaptureKey(kind, t) := addr] && stats == old(stats) && pcs == old(pcs)
    {
      StepInv(Now(), Enter(t, kind, addr));
      saved := saved[CaptureKey(kind, t) := addr];
      history := Then(history, Captured(t, kind, addr));
    }

    /** The exit probes, up to copying the saved address. */
    method ExitProbe(t: Thread, kind: CallKind, ret: i32, cpu: nat)
      requires Valid() && At(t).Idle? && cpu < cpus
      modifies this
      ensures Valid() && Now() == Step(old(Now()), Return(t, kind, ret, cpu))
      ensures stats == old(stats) && saved == old(saved)
      ensures At(t) == if CaptureKey(kind, t) in saved then Taken(kind, saved[CaptureKey(kind, t)], ret, cpu) else Idle
    {
      StepInv(Now(), Return(t, kind, ret, cpu));
      var key := CaptureKey(kind, t);
      if key !in saved {
        history := Then(history, Unmatched(t, kind));
        return;
      }
      var addr := saved[key];
      history := Then(history, Consumed(t, kind, addr, ret, cpu));
      pcs := pcs[t := Taken(kind, addr, ret, cpu)];
    }

    /** Then the saved address is deleted, and bytes are accounted if the call returned any. */
    method ExitProbeDelete(t: Thread)
      requires Valid() && At(t).Taken?
      modifies this
      ensures Valid() && Now() == RunStep(old(Now()), t, true, [])
      ensures saved == old(saved) - {CaptureKey(old(At(t)).kind, t)} && stats == old(stats)
      ensures At(t).Find? <==> old(At(t)).ret > 0
      ensures At(t).Find? ==> AsksFor(At(t).req, CounterOf(old(At(t)).kind), old(At(t)).ret)
                              && At(t).req.addr == old(At(t)).addr && At(t).req.cpu == old(At(t)).cpu
    {
      StepInv(Now(), Action.Run(t, true, []));
      var pc := pcs[t];
      saved := saved - {CaptureKey(pc.kind, t)};
      if pc.ret > 0 {
        var protocol := if pc.kind == TcpSend then Tcp else Udp;
        var sent: u64 := if pc.kind == CallKind.UdpRecv then 0 else pc.ret;
        var recv: u64 := if pc.kind == CallKind.UdpRecv then pc.ret else 0;
        var r := Request(Returned(pc.kind), pc.addr, sent, recv, protocol, pc.cpu);
        history := Then(history, Asked(t, r));
        pcs := pcs[t := Find(r)];
      } else {
        pcs := pcs[t := Idle];
      }
    }

    /** `procnet_tcp_cleanup_rbuf` */
    method CleanupProbe(t: Thread, addr: StatsAddr, copied: i32, cpu: nat)
      requires Valid() && At(t).Idle? && cpu < cpus
      modifies this
      ensures Valid() && Now() == Step(old(Now()), Cleanup(t, addr, copied, cpu))
      ensures At(t).Find? <==> copied > 0
      ensures At(t).Find? ==> AsksFor(At(t).req, TcpRecv, copied) && At(t).req.addr == addr && At(t).req.cpu == cpu
    {
      StepInv(Now(), Cleanup(t, addr, copied, cpu));
      if copied <= 0 {
        return;
      }
      var r := Request(CleanupRbuf, addr, 0, copied, Tcp, cpu);
      history := Then(history, Asked(t, r));
      pcs := pcs[t := Find(r)];
    }

    /** `update_stats` through the pointer a lookup returned. */
    method UpdateStats(g: Tgid, cpu: nat, r: Request)
      requires g in stats && cpu < |stats[g]|
      modifies this`stats
      ensures stats == old(stats)[g := old(stats)[g][cpu := Update(old(stats)[g][cpu], r)]]
    {
      var slot := stats[g][cpu];
      if r.protocol == Tcp {
        var bytes := StatsBytes(WrapAdd(slot.tcp.bytes.sent, r.sent), WrapAdd(slot.tcp.bytes.recv, r.recv));
        slot := slot.(tcp := ProtocolStats(bytes, r.addr));
      } else {
        var bytes := StatsBytes(WrapAdd(slot.udp.bytes.sent, r.sent), WrapAdd(slot.udp.bytes.recv, r.recv));
        slot := slot.(udp := ProtocolStats(bytes, r.addr));
      }
      stats := stats[g := stats[g][cpu := slot]];
    }

    /** The slot a lookup points to exists: a new entry has one for every CPU. */
    lemma SlotThere(t: Thread)
      requires Valid() && t.tgid in stats && (At(t).Find? || At(t).FindAgain?)
      ensures At(t).req.cpu < |stats[t.tgid]|
    {
      assert PcAgrees(Now(), t);
    }

    /** `account_bytes`, first lookup. */
    method AccountLookup(t: Thread)
      requires Valid() && At(t).Find?
      modifies this
      ensures Valid() && Now() == RunStep(old(Now()), t, true, [])
      ensures At(t) == if t.tgid in old(stats) then Idle else Insert(old(At(t)).req)
    {
      StepInv(Now(), Action.Run(t, true, []));
      var pc := pcs[t];
      if t.tgid in stats {
        SlotThere(t);
        UpdateStats(t.tgid, pc.req.cpu, pc.req);
        history := Then(history, Added(t, pc.req));
        pcs := pcs[t := Idle];
      } else {
        history := Then(history, Missed(t, pc.req));
        pcs := pcs[t := Insert(pc.req)];
      }
    }

    /** `account_bytes`, insert if absent; `ok` is whether the map had room to spare. */
    method AccountInsert(t: Thread, ok: bool)
      requires Valid() && At(t).Insert?
      modifies this
      ensures Valid() && Now() == RunStep(old(Now()), t, ok, [])
      ensures At(t).Announce? <==> ok && t.tgid !in old(stats) && |old(stats)| < 512
      ensures if At(t).Announce? then t.tgid in stats && stats == old(stats)[t.tgid := stats[t.tgid]]
              else At(t) == FindAgain(old(At(t)).req) && stats == old(stats)
    {
      StepInv(Now(), Action.Run(t, ok, []));
      var pc := pcs[t];
      if ok && t.tgid !in stats && |stats| < MAP_SIZE {
        var entry := NewEntry(cpus, pc.req);
        stats := stats[t.tgid := entry];
        history := Then(history, Created(t, pc.req));
        pcs := pcs[t := Announce];
      } else {
        history := Then(history, InsertFailed(t, pc.req, !ok));
        pcs := pcs[t := FindAgain(pc.req)];
      }
    }

    /** `account_bytes`, second lookup. */
    method AccountLookupAgain(t: Thread)
      requires Valid() && At(t).FindAgain?
      modifies this
      ensures Valid() && Now() == RunStep(old(Now()), t, true, [])
      ensures At(t).Idle? && history.Then?
      ensures history.event == if t.tgid in old(stats) then Added(t, old(At(t)).req) else Lost(t, old(At(t)).req)
    {
      StepInv(Now(), Action.Run(t, true, []));
      var pc := pcs[t];
      if t.tgid in stats {
        SlotThere(t);
        UpdateStats(t.tgid, pc.req.cpu, pc.req);
        history := Then(history, Added(t, pc.req));
      } else {
        history := Then(history, Lost(t, pc.req));
      }
      pcs := pcs[t := Idle];
    }

    /** `emit_start_event`; `reserved` is whether the ring had room. */
    method EmitStartEvent(t: Thread, reserved: bool, comm: seq<byte>)
      requires Valid() && At(t).Announce?
      modifies this
      ensures Valid() && Now() == RunStep(old(Now()), t, reserved, comm)
      ensures ring == (if reserved then old(ring) + [StartEvent(t.tgid, comm)] else old(ring)) && At(t).Idle?
    {
      StepInv(Now(), Action.Run(t, reserved, comm));
      if reserved {
        ring := ring + [StartEvent(t.tgid, comm)];
        history := Then(history, Announced(t, comm));
      } else {
        history := Then(history, Refused(t));
      }
      pcs := pcs[t := Idle];
    }

    /** `procnet_sched_process_exit`: only the group leader takes the entry with it. */
    method ProcessExit(t: Thread)
      requires Valid() && At(t).Idle?
      modifies this
      ensures Valid() && Now() == Step(old(Now()), Exit(t))
      ensures stats == if t.pid == t.tgid then old(stats) - {t.tgid} else old(stats)
    {
      StepInv(Now(), Exit(t));
      if t.pid != t.tgid {
        return;
      }
      stats := stats - {t.tgid};
      history := Then(history, Exited(t));
    }

    // A scheduler that knows no order

    /** A thread inside a probe goes on to its next map operation. */
    method Resume(t: Thread, ok: bool, comm: seq<byte>)
      requires Valid()
      modifies this
      ensures Valid() && Now() == Step(old(Now()), Action.Run(t, ok, comm))
    {
      match At(t) {
        case Idle =>
        case Taken(_, _, _, _) => ExitProbeDelete(t);
        case Find(_) => AccountLookup(t);
        case Insert(_) => AccountInsert(t, ok);
        case FindAgain(_) => AccountLookupAgain(t);
        case Announce => EmitStartEvent(t, ok, comm);
      }
    }

    /** One step of whoever is next; one that cannot be taken now is skipped. */
    method Dispatch(a: Action) returns (taken: seq<StartEvent>)
      requires Valid()
      modifies this
      ensures Valid() && Now() == Step(old(Now()), a) && taken == TakenOut(old(Now()), a)
      ensures a.Drain? ==> taken == old(ring) && ring == []
    {
      taken := [];
      match a {
        case Run(t, ok, comm) => Resume(t, ok, comm);
        case Enter(t, kind, addr) =>
          if At(t).Idle? {
            EntryProbe(t, kind, addr);
          }
        case Return(t, kind, ret, cpu) =>
          if At(t).Idle? && cpu < cpus {
            ExitProbe(t, kind, ret, cpu);
          }
        case Cleanup(t, addr, copied, cpu) =>
          if At(t).Idle? && cpu < cpus {
            CleanupProbe(t, addr, copied, cpu);
          }
        case Exit(t) =>
          if At(t).Idle? {
            ProcessExit(t);
          }
        case Evict(key) =>
          StepInv(Now(), a);
          if key in saved {
            saved := saved - {key};
            history := Then(history, Evicted(key.thread, key.kind));
          }
        case Drain =>
          StepInv(Now(), a);
          taken, ring := ring, [];
      }
    }
  }

  /** What the maps hold for one process is what was credited to it. */
  ghost predicate HoldsCredits(s: State, g: Tgid, ctr: Counter) {
    g in s.stats ==>
      var held := SumBy((slot: ProcStats) => StatsCount(slot, ctr), s.stats[g]);
      && held <= CreditedTotal(s.history, g, ctr)
      && (held == CreditedTotal(s.history, g, ctr) <==> NoneWrapped(Credits(s.history, g, ctr, s.cpus)))
  }

  /** The bytes that a thread's calls moved in this schedule were added, were lost or are in progress. */
  ghost predicate Settles(cpus: nat, schedule: seq<Action>, t: Thread, ctr: Counter) {
    var s := Exec(Init(cpus), schedule);
    MovedIn(Init(cpus), schedule, t, ctr)
    == AddedBytes(s.history, t, ctr) + LostBytes(s.history, t, ctr) + OpenBytes(s.history, t, ctr)
       + Due(PcOf(s, t), ctr)
  }

  /** A process's start events, in `drained` or still in the ring, against the creations of its entry. */
  ghost predicate EventsMatch(s: State, drained: seq<StartEvent>, g: Tgid) {
    EventsOf(drained + s.ring, g) + Refusals(s.history, g) + |Announcing(s, g)| == Creations(s.history, g)
  }

  lemma RunConserves(cpus: nat, schedule: seq<Action>)
    ensures var s := Exec(Init(cpus), schedule);
            && (forall g, ctr :: HoldsCredits(s, g, ctr))
            && (forall g, cpu, p :: AddrAgrees(s, g, cpu, p))
            && (forall g :: EventsMatch(s, Drained(Init(cpus), schedule), g))
            && Drained(Init(cpus), schedule) + s.ring == AnnouncedEvents(s.history)
            && (forall t, ctr :: Settles(cpus, schedule, t, ctr))
  {
    var s := Exec(Init(cpus), schedule);
    ExecCpus(Init(cpus), schedule);
    forall g, ctr ensures HoldsCredits(s, g, ctr) {
      if g in s.stats {
        EntryHoldsEveryCredit(cpus, schedule, g, ctr);
      }
    }
    forall g ensures EventsMatch(s, Drained(Init(cpus), schedule), g) {
      StartEventsPerLifetime(cpus, schedule, g);
    }
    RingIsQueue(cpus, schedule);
    InitInv(cpus);
    ExecInv(Init(cpus), schedule);
    forall t, ctr ensures Settles(cpus, schedule, t, ctr) {
      EveryByteIsSettled(cpus, schedule, t, ctr);
    }
  }

  /**
   The programs under an arbitrary schedule of threads, CPUs, exits, evictions and refusals. Whatever the
   schedule, the maps they leave behind conserve bytes, hold the addresses of the last credits, and
   with what was `drained` from the ring conserve start events.
   */
  method RunSchedule(cpus: nat, schedule: seq<Action>) returns (maps: BpfMaps, drained: seq<StartEvent>)
    ensures fresh(maps) && maps.Valid() && maps.Now() == Exec(Init(cpus), schedule)
    ensures forall g, ctr :: HoldsCredits(maps.Now(), g, ctr)
    ensures forall g, cpu, p :: AddrAgrees(maps.Now(), g, cpu, p)
    ensures drained + maps.ring == AnnouncedEvents(maps.history) && forall g :: EventsMatch(maps.Now(), drained, g)
    ensures forall t, ctr :: Settles(cpus, schedule, t, ctr)
  {
    maps := new BpfMaps(cpus);
    drained := [];
    for i := 0 to |schedule|
      invariant fresh(maps) && maps.Valid() && maps.Now() == Exec(Init(cpus), schedule[..i])
      invariant drained == Drained(Init(cpus), schedule[..i])
    {
      var taken := maps.Dispatch(schedule[i]);
      drained := drained + taken;
      assert schedule[..i + 1][..i] == schedule[..i];
    }
    assert schedule[..|schedule|] == schedule;
    RunConserves(cpus, schedule);
  }
}
