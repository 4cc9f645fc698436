/** `StatsCollector` (`stats.rs`): the tracked processes, the recently dead ones, and the scan that reports them. */
module Collector {
  import opened Words
  import opened Names
  import opened StatsTypes
  import opened Merge

  datatype Call = Call(pid: u32, reply: Option<ProcStats>)

  /**
   The kernel map as the daemon sees it: it changes under the scan, so lookup number `k` may answer
   anything. `calls` records what was asked and what came back, per-CPU records merged.
   */
  class LiveMap {
    const lookup: (nat, u32) -> Option<seq<Raw>>
    var calls: seq<Call>

    ghost predicate Valid()
      reads this
    {
      forall k {:trigger lookup(k, calls[k].pid)} ::
        0 <= k < |calls| ==> calls[k].reply == Reading(lookup(k, calls[k].pid))
    }

    constructor (lookup: (nat, u32) -> Option<seq<Raw>>)
      ensures Valid() && this.lookup == lookup && calls == []
    {
      this.lookup := lookup;
      calls := [];
    }

    /** `merge_values_for_pid` */
    method Read(pid: u32) returns (r: Option<ProcStats>)
      requires Valid()
      modifies this
      ensures Valid() && calls == old(calls) + [Call(pid, r)]
      ensures r.Some? <==> lookup(|old(calls)|, pid).Some?
      ensures r.Some? ==> r.value == Merged(Records(lookup(|old(calls)|, pid).value))
    {
      var values := lookup(|calls|, pid);
      if values.None? {
        r := None;
      } else {
        var merged := MergeValues(values.value);
        r := Some(merged);
      }
      calls := calls + [Call(pid, r)];
    }
  }

  function Reading(values: Option<seq<Raw>>): Option<ProcStats> {
    match values case None => None case Some(v) => Some(Merged(Records(v)))
  }

  /**
   Every PID in `answers` was asked for exactly once among the calls `looked`, at the position `at`
   gives, with that answer; nothing else was asked for.
   */
  ghost predicate AskedOnce(looked: seq<Call>, at: map<u32, nat>, answers: Answers) {
    && (forall pid :: pid in answers <==> pid in at)
    && (forall k :: 0 <= k < |looked| ==> looked[k].pid in at && at[looked[k].pid] == k)
    && (forall pid :: pid in at ==> at[pid] < |looked| && looked[at[pid]] == Call(pid, answers[pid]))
  }

  lemma AskOne(looked: seq<Call>, at: map<u32, nat>, answers: Answers, pid: u32, a: Option<ProcStats>)
    requires AskedOnce(looked, at, answers) && pid !in answers
    ensures AskedOnce(looked + [Call(pid, a)], at[pid := |looked|], answers[pid := a])
  {
  }

  /** The next process looked up comes after all that were found, and after all that were not. */
  lemma NextInOrder(looked: seq<Call>, at: map<u32, nat>, answers: Answers, procs: seq<ProcInfo>, p: ProcInfo)
    requires AskedOnce(looked, at, answers) && p.pid !in answers && InLookupOrder(at, procs)
    ensures InLookupOrder(at[p.pid := |looked|], procs) && InLookupOrder(at[p.pid := |looked|], procs + [p])
  {
  }

  type Answers = map<u32, Option<ProcStats>>

  ghost predicate DistinctPids(procs: seq<ProcInfo>) {
    forall i, j :: 0 <= i < j < |procs| ==> procs[i].pid != procs[j].pid
  }

  ghost predicate Tracked(procs: seq<ProcInfo>, pid: u32) {
    exists i :: 0 <= i < |procs| && procs[i].pid == pid
  }

  function Fresh(pid: u32, name: Name): ProcInfo {
    ProcInfo(pid, name, ZERO_BYTES, ZERO_BYTES)
  }

  function Zeroed(p: ProcInfo): ProcInfo {
    Fresh(p.pid, p.name)
  }

  function Refresh(p: ProcInfo, s: ProcStats): ProcInfo {
    ProcInfo(p.pid, p.name, s.tcp.bytes, s.udp.bytes)
  }

  function Since(now: StatsBytes, before: StatsBytes): StatsBytes {
    StatsBytes(SatSub(now.sent, before.sent), SatSub(now.recv, before.recv))
  }

  function RowOf(p: ProcInfo, s: ProcStats): StatsRow {
    StatsRow(p.pid, p.name,
             ProtocolStats(Since(s.tcp.bytes, p.tcpCum), s.tcp.addr),
             ProtocolStats(Since(s.udp.bytes, p.udpCum), s.udp.addr),
             s.tcp.bytes, s.udp.bytes)
  }

  /** The effect of a start event on the tracked list. */
  ghost predicate Applied(before: seq<ProcInfo>, pid: u32, name: Name, after: seq<ProcInfo>) {
    if Tracked(before, pid) then
      && |after| == |before|
      && forall i :: 0 <= i < |before| ==>
           after[i] == if before[i].pid == pid then Fresh(pid, name) else before[i]
    else
      after == before + [Fresh(pid, name)]
  }

  ghost predicate ZeroedAll(before: seq<ProcInfo>, after: seq<ProcInfo>) {
    && |after| == |before|
    && forall i :: 0 <= i < |before| ==> after[i] == Zeroed(before[i])
  }

  /** The dead list against all deaths: at most twenty of them, the newest, the last one last. */
  ghost predicate NewestOf(dead: seq<ProcInfo>, deaths: seq<ProcInfo>) {
    && |dead| == Min(20, |deaths|)
    && forall i :: 0 <= i < |dead| ==> dead[i] == deaths[i + |deaths| - |dead|]
  }

  lemma LastAreNewest(dead: seq<ProcInfo>, deaths: seq<ProcInfo>)
    requires dead == LastN(DEAD_PROC_LIMIT, deaths)
    ensures NewestOf(dead, deaths)
  {
  }

  // The order of a scan

  /** `Vec::swap_remove` */
  function SwapRemove(s: seq<ProcInfo>, k: nat): (r: seq<ProcInfo>)
    requires k < |s|
    ensures |r| == |s| - 1
  {
    s[k := s[|s| - 1]][..|s| - 1]
  }

  /** The last element fills the gap, and every other one stays where it is. */
  lemma SwapRemoveAt(s: seq<ProcInfo>, k: nat, i: nat)
    requires k < |s| && i < |s| - 1
    ensures SwapRemove(s, k)[i] == s[if i == k then |s| - 1 else i]
  {
  }

  /** What is left to visit after the first of `rest`: on a miss the last one takes its place. */
  function Onward(rest: seq<ProcInfo>, found: bool): seq<ProcInfo>
    requires rest != []
  {
    if found then rest[1..] else SwapRemove(rest, 0)
  }

  predicate Found(answers: Answers, pid: u32) {
    pid in answers && answers[pid].Some?
  }

  /** The PIDs in the order in which a scan of `rest` asks for them, when the map answers `answers`. */
  function VisitOrder(rest: seq<ProcInfo>, answers: Answers): seq<u32>
    decreases |rest|
  {
    if rest == [] then []
    else [rest[0].pid] + VisitOrder(Onward(rest, Found(answers, rest[0].pid)), answers)
  }

  /** `at` is the position of every PID in that order. */
  ghost predicate InVisitOrder(before: seq<ProcInfo>, answers: Answers, at: map<u32, nat>) {
    var order := VisitOrder(before, answers);
    && (forall k :: 0 <= k < |order| ==> order[k] in at && at[order[k]] == k)
    && (forall pid :: pid in at ==> at[pid] < |order| && order[at[pid]] == pid)
  }

  /** These processes were looked up in this order. */
  ghost predicate InLookupOrder(at: map<u32, nat>, procs: seq<ProcInfo>) {
    && (forall i :: 0 <= i < |procs| ==> procs[i].pid in at)
    && (forall i, j :: 0 <= i < j < |procs| ==> at[procs[i].pid] < at[procs[j].pid])
  }

  /**
   What one scan is meant to do. `answers` says what the map answered for each tracked PID, and `at`
   when it was asked, which these answers decide; the processes found are `kept` and reported, the
   others are `removed`, both in the order in which they were looked up. Nothing is lost, repeated or
   reported against another process.
   */
  ghost predicate Scanned(before: seq<ProcInfo>, answers: Answers, at: map<u32, nat>, kept: seq<ProcInfo>,
                          removed: seq<ProcInfo>, after: seq<ProcInfo>, rows: seq<StatsRow>) {
    && InVisitOrder(before, answers, at) && InLookupOrder(at, kept) && InLookupOrder(at, removed)
    && multiset(kept) + multiset(removed) == multiset(before)
    && (forall p :: p in before ==> p.pid in answers)
    && (forall pid :: pid in answers ==> Tracked(before, pid))
    && (forall i :: 0 <= i < |kept| ==> kept[i].pid in answers && answers[kept[i].pid].Some?)
    && (forall i :: 0 <= i < |removed| ==> removed[i].pid in answers && answers[removed[i].pid].None?)
    && |after| == |rows| == |kept|
    && (forall i :: 0 <= i < |kept| ==> after[i] == Refresh(kept[i], answers[kept[i].pid].value))
    && (forall i :: 0 <= i < |kept| ==> rows[i] == RowOf(kept[i], answers[kept[i].pid].value))
  }

  lemma OnwardCounts(rest: seq<ProcInfo>, found: bool)
    requires rest != []
    ensures multiset(rest) == multiset(Onward(rest, found)) + multiset{rest[0]}
  {
    var first, n := [rest[0]], |rest| - 1;
    assert rest == first + rest[1..];
    if !found && n > 0 {
      var middle, last := rest[1..n], [rest[n]];
      assert rest[1..] == middle + last && SwapRemove(rest, 0) == last + middle;
    }
  }

  // The state of a scan in progress: `rest` has not been visited yet

  ghost predicate Unvisited(answers: Answers, rest: seq<ProcInfo>) {
    DistinctPids(rest) && forall i :: 0 <= i < |rest| ==> rest[i].pid !in answers
  }

  ghost predicate Sorted(answers: Answers, kept: seq<ProcInfo>, removed: seq<ProcInfo>) {
    && DistinctPids(kept)
    && (forall i :: 0 <= i < |kept| ==> kept[i].pid in answers && answers[kept[i].pid].Some?)
    && (forall i :: 0 <= i < |removed| ==> removed[i].pid in answers && answers[removed[i].pid].None?)
    && (forall pid :: pid in answers ==> Tracked(kept, pid) || Tracked(removed, pid))
  }

  ghost predicate Reported(answers: Answers, kept: seq<ProcInfo>, done: seq<ProcInfo>, rows: seq<StatsRow>) {
    && |done| == |rows| == |kept|
    && (forall i :: 0 <= i < |kept| ==> kept[i].pid in answers && answers[kept[i].pid].Some?)
    && (forall i :: 0 <= i < |kept| ==> done[i] == Refresh(kept[i], answers[kept[i].pid].value))
    && (forall i :: 0 <= i < |kept| ==> rows[i] == RowOf(kept[i], answers[kept[i].pid].value))
  }

  ghost predicate Accounted(before: seq<ProcInfo>, kept: seq<ProcInfo>, removed: seq<ProcInfo>, rest: seq<ProcInfo>) {
    multiset(kept) + multiset(removed) + multiset(rest) == multiset(before)
  }

  lemma AccountOne(before: seq<ProcInfo>, kept: seq<ProcInfo>, removed: seq<ProcInfo>, rest: seq<ProcInfo>,
                   p: ProcInfo, next: seq<ProcInfo>)
    requires Accounted(before, kept, removed, rest)
    requires multiset(rest) == multiset(next) + multiset{p}
    ensures Accounted(before, kept + [p], removed, next)
    ensures Accounted(before, kept, removed + [p], next)
  {
  }

  lemma VisitNext(answers: Answers, rest: seq<ProcInfo>, a: Option<ProcStats>)
    requires rest != [] && Unvisited(answers, rest)
    ensures Unvisited(answers[rest[0].pid := a], Onward(rest, a.Some?))
  {
    var next := Onward(rest, a.Some?);
    if a.None? {
      assert forall i :: 0 <= i < |next| ==> next[i] == if i == 0 then rest[|rest| - 1] else rest[i];
    }
  }

  lemma KeepOne(answers: Answers, kept: seq<ProcInfo>, removed: seq<ProcInfo>, p: ProcInfo, a: Option<ProcStats>)
    requires Sorted(answers, kept, removed) && p.pid !in answers && a.Some?
    ensures Sorted(answers[p.pid := a], kept + [p], removed)
  {
    var next := answers[p.pid := a];
    forall pid | pid in next ensures Tracked(kept + [p], pid) || Tracked(removed, pid) {
      if pid == p.pid {
        assert (kept + [p])[|kept|].pid == pid;
      } else if Tracked(kept, pid) {
        var i :| 0 <= i < |kept| && kept[i].pid == pid;
        assert (kept + [p])[i].pid == pid;
      }
    }
  }

  lemma ReportOne(answers: Answers, kept: seq<ProcInfo>, done: seq<ProcInfo>, rows: seq<StatsRow>,
                  p: ProcInfo, a: Option<ProcStats>)
    requires Reported(answers, kept, done, rows) && p.pid !in answers && a.Some?
    ensures Reported(answers[p.pid := a], kept + [p], done + [Refresh(p, a.value)], rows + [RowOf(p, a.value)])
  {
  }

  lemma StillReported(answers: Answers, kept: seq<ProcInfo>, done: seq<ProcInfo>, rows: seq<StatsRow>,
                      pid: u32, a: Option<ProcStats>)
    requires Reported(answers, kept, done, rows) && pid !in answers
    ensures Reported(answers[pid := a], kept, done, rows)
  {
  }

  lemma RemoveOne(answers: Answers, kept: seq<ProcInfo>, removed: seq<ProcInfo>, p: ProcInfo, a: Option<ProcStats>)
    requires Sorted(answers, kept, removed) && p.pid !in answers && a.None?
    ensures Sorted(answers[p.pid := a], kept, removed + [p])
  {
    var next := answers[p.pid := a];
    forall pid | pid in next ensures Tracked(kept, pid) || Tracked(removed + [p], pid) {
      if pid == p.pid {
        assert (removed + [p])[|removed|].pid == pid;
      } else if Tracked(removed, pid) {
        var i :| 0 <= i < |removed| && removed[i].pid == pid;
        assert (removed + [p])[i].pid == pid;
      }
    }
  }

  /** The PIDs answered for are those tracked. */
  lemma AnsweredAreTracked(before: seq<ProcInfo>, answers: Answers, kept: seq<ProcInfo>, removed: seq<ProcInfo>)
    requires multiset(kept) + multiset(removed) == multiset(before) && Sorted(answers, kept, removed)
    ensures forall p :: p in before ==> p.pid in answers
    ensures forall pid :: pid in answers ==> Tracked(before, pid)
  {
    forall p | p in before ensures p.pid in answers {
      assert p in multiset(kept) + multiset(removed);
      assert p in kept || p in removed;
    }
    forall pid | pid in answers ensures Tracked(before, pid) {
      var p :| (p in kept || p in removed) && p.pid == pid;
      assert p in multiset(kept) + multiset(removed);
      assert p in before;
    }
  }

  lemma DoneDistinct(answers: Answers, kept: seq<ProcInfo>, after: seq<ProcInfo>, rows: seq<StatsRow>)
    requires DistinctPids(kept) && Reported(answers, kept, after, rows)
    ensures DistinctPids(after)
  {
    assert forall i :: 0 <= i < |after| ==> after[i].pid == kept[i].pid;
  }

  /** A scan in progress: what was asked and answered, and what came of it. */
  datatype Scan = Scan(answers: Answers, looked: seq<Call>, at: map<u32, nat>, kept: seq<ProcInfo>,
                       removed: seq<ProcInfo>, done: seq<ProcInfo>, rows: seq<StatsRow>, rest: seq<ProcInfo>) {
    /** The map answered `a` for the first of those left. */
    function Saw(a: Option<ProcStats>): Scan
      requires rest != []
    {
      var p := rest[0];
      Scan(answers[p.pid := a], looked + [Call(p.pid, a)], at[p.pid := |looked|],
           if a.Some? then kept + [p] else kept,
           if a.Some? then removed else removed + [p],
           if a.Some? then done + [Refresh(p, a.value)] else done,
           if a.Some? then rows + [RowOf(p, a.value)] else rows,
           Onward(rest, a.Some?))
    }
  }

  /** What a turn does to the list itself. */
  lemma TurnMoves(done: seq<ProcInfo>, rest: seq<ProcInfo>, a: Option<ProcStats>)
    requires rest != []
    ensures (done + rest)[|done|] == rest[0]
    ensures a.Some? ==> (done + rest)[|done| := Refresh(rest[0], a.value)]
                        == done + [Refresh(rest[0], a.value)] + rest[1..]
    ensures a.None? ==> SwapRemove(done + rest, |done|) == done + SwapRemove(rest, 0)
  {
  }

  /** The scan of `before` when the map's answers come in this order. */
  function Scanning(before: seq<ProcInfo>, replies: seq<Option<ProcStats>>): Scan {
    if replies == [] then Scan(map[], [], map[], [], [], [], [], before)
    else
      var sc := Scanning(before, replies[..|replies| - 1]);
      if sc.rest == [] then sc else sc.Saw(replies[|replies| - 1])
  }

  lemma ScanningMore(before: seq<ProcInfo>, replies: seq<Option<ProcStats>>, a: Option<ProcStats>)
    requires Scanning(before, replies).rest != []
    ensures Scanning(before, replies + [a]) == Scanning(before, replies).Saw(a)
  {
    assert (replies + [a])[..|replies|] == replies;
  }

  ghost predicate ScanSound(before: seq<ProcInfo>, sc: Scan) {
    && Accounted(before, sc.kept, sc.removed, sc.rest)
    && Unvisited(sc.answers, sc.rest)
    && AskedOnce(sc.looked, sc.at, sc.answers)
    && Sorted(sc.answers, sc.kept, sc.removed)
    && Reported(sc.answers, sc.kept, sc.done, sc.rows)
    && InLookupOrder(sc.at, sc.kept) && InLookupOrder(sc.at, sc.removed)
  }

  lemma SawSound(before: seq<ProcInfo>, sc: Scan, a: Option<ProcStats>)
    requires sc.rest != [] && ScanSound(before, sc)
    ensures ScanSound(before, sc.Saw(a))
  {
    var p := sc.rest[0];
    OnwardCounts(sc.rest, a.Some?);
    AccountOne(before, sc.kept, sc.removed, sc.rest, p, Onward(sc.rest, a.Some?));
    VisitNext(sc.answers, sc.rest, a);
    AskOne(sc.looked, sc.at, sc.answers, p.pid, a);
    NextInOrder(sc.looked, sc.at, sc.answers, sc.kept, p);
    NextInOrder(sc.looked, sc.at, sc.answers, sc.removed, p);
    if a.Some? {
      KeepOne(sc.answers, sc.kept, sc.removed, p, a);
      ReportOne(sc.answers, sc.kept, sc.done, sc.rows, p, a);
    } else {
      RemoveOne(sc.answers, sc.kept, sc.removed, p, a);
      StillReported(sc.answers, sc.kept, sc.done, sc.rows, p.pid, a);
    }
  }

  lemma {:induction false} ScanningSound(before: seq<ProcInfo>, replies: seq<Option<ProcStats>>)
    requires DistinctPids(before)
    ensures ScanSound(before, Scanning(before, replies))
  {
    if replies != [] {
      var init := replies[..|replies| - 1];
      ScanningSound(before, init);
      if Scanning(before, init).rest != [] {
        SawSound(before, Scanning(before, init), replies[|replies| - 1]);
      }
    }
  }

  // Lookups made in turn follow the visiting order

  ghost function PidsOf(looked: seq<Call>): (r: seq<u32>)
    ensures |r| == |looked| && forall k :: 0 <= k < |looked| ==> r[k] == looked[k].pid
  {
    seq(|looked|, k requires 0 <= k < |looked| => looked[k].pid)
  }

  ghost predicate Answered(looked: seq<Call>, answers: Answers) {
    forall k :: 0 <= k < |looked| ==> looked[k].pid in answers && answers[looked[k].pid] == looked[k].reply
  }

  lemma OrderOnward(done: seq<u32>, rest: seq<ProcInfo>, answers: Answers, found: bool)
    requires rest != [] && found == Found(answers, rest[0].pid)
    ensures done + VisitOrder(rest, answers) == done + [rest[0].pid] + VisitOrder(Onward(rest, found), answers)
  {
  }

  lemma {:induction false} TurnsAreOrder(before: seq<ProcInfo>, replies: seq<Option<ProcStats>>, answers: Answers)
    requires Answered(Scanning(before, replies).looked, answers)
    ensures var sc := Scanning(before, replies);
            VisitOrder(before, answers) == PidsOf(sc.looked) + VisitOrder(sc.rest, answers)
  {
    var sc := Scanning(before, replies);
    if replies == [] {
      assert PidsOf(sc.looked) == [];
    } else {
      var init, a := replies[..|replies| - 1], replies[|replies| - 1];
      var was := Scanning(before, init);
      if was.rest == [] {
        TurnsAreOrder(before, init, answers);
      } else {
        assert forall k :: 0 <= k < |was.looked| ==> sc.looked[k] == was.looked[k];
        TurnsAreOrder(before, init, answers);
        assert sc.looked[|was.looked|] == Call(was.rest[0].pid, a);
        OrderOnward(PidsOf(was.looked), was.rest, answers, a.Some?);
        assert PidsOf(sc.looked) == PidsOf(was.looked) + [was.rest[0].pid];
      }
    }
  }

  /** The lookups of a scan: in the visiting order, with these answers. */
  ghost function Lookups(before: seq<ProcInfo>, answers: Answers): (r: seq<Call>)
    ensures |r| == |VisitOrder(before, answers)|
  {
    var order := VisitOrder(before, answers);
    seq(|order|, k requires 0 <= k < |order| => Call(order[k], if order[k] in answers then answers[order[k]] else None))
  }

  lemma LookedIsLookups(before: seq<ProcInfo>, looked: seq<Call>, at: map<u32, nat>, answers: Answers)
    requires AskedOnce(looked, at, answers) && InVisitOrder(before, answers, at)
    ensures looked == Lookups(before, answers)
  {
    var order := VisitOrder(before, answers);
    if looked != [] {
      assert looked[|looked| - 1].pid in at;
    }
    if order != [] {
      assert order[|order| - 1] in at;
    }
    forall k | 0 <= k < |looked| ensures looked[k] == Lookups(before, answers)[k] {
      assert looked[k].pid in at && at[looked[k].pid] == k;
      assert looked[at[looked[k].pid]] == Call(looked[k].pid, answers[looked[k].pid]);
    }
  }

  /** A finished scan did what a scan is meant to do. */
  lemma ScanFinished(before: seq<ProcInfo>, replies: seq<Option<ProcStats>>)
    requires DistinctPids(before) && Scanning(before, replies).rest == []
    ensures var sc := Scanning(before, replies);
            && Scanned(before, sc.answers, sc.at, sc.kept, sc.removed, sc.done, sc.rows)
            && AskedOnce(sc.looked, sc.at, sc.answers) && DistinctPids(sc.done)
  {
    var sc := Scanning(before, replies);
    ScanningSound(before, replies);
    TurnsAreOrder(before, replies, sc.answers);
    AskedInVisitOrder(before, sc.looked, sc.at, sc.answers);
    assert multiset(sc.kept) + multiset(sc.removed) == multiset(before);
    AnsweredAreTracked(before, sc.answers, sc.kept, sc.removed);
    DoneDistinct(sc.answers, sc.kept, sc.done, sc.rows);
  }

  lemma AskedInVisitOrder(before: seq<ProcInfo>, looked: seq<Call>, at: map<u32, nat>, answers: Answers)
    requires VisitOrder(before, answers) == PidsOf(looked) + [] && AskedOnce(looked, at, answers)
    ensures InVisitOrder(before, answers, at)
  {
    assert VisitOrder(before, answers) == PidsOf(looked);
  }

  class StatsCollector {
    var procs: seq<ProcInfo>
    var deadProcs: seq<ProcInfo>

    ghost predicate Valid()
      reads this
    {
      DistinctPids(procs) && |deadProcs| <= DEAD_PROC_LIMIT
    }

    constructor ()
      ensures Valid() && procs == [] && deadProcs == []
    {
      procs := [];
      deadProcs := [];
    }

    /** `reset`: baselines go to zero; the kernel's counters are not touched. */
    method Reset()
      requires Valid()
      modifies this
      ensures Valid() && deadProcs == [] && ZeroedAll(old(procs), procs)
    {
      var i := 0;
      while i < |procs|
        invariant 0 <= i <= |procs| == |old(procs)|
        invariant deadProcs == old(deadProcs)
        invariant forall k :: 0 <= k < i ==> procs[k] == Zeroed(old(procs)[k])
        invariant forall k :: i <= k < |procs| ==> procs[k] == old(procs)[k]
      {
        procs := procs[i := ProcInfo(procs[i].pid, procs[i].name, ZERO_BYTES, ZERO_BYTES)];
        i := i + 1;
      }
      deadProcs := [];
    }

    /** `apply_event` */
    method ApplyEvent(pid: u32, name: Name)
      requires Valid()
      modifies this
      ensures Valid() && deadProcs == old(deadProcs)
      ensures Applied(old(procs), pid, Lower(name), procs)
    {
      var lower := Lower(name);
      var i := 0;
      while i < |procs| && procs[i].pid != pid
        invariant 0 <= i <= |procs|
        invariant forall k :: 0 <= k < i ==> procs[k].pid != pid
      {
        i := i + 1;
      }
      if i < |procs| {
        procs := procs[i := ProcInfo(pid, lower, ZERO_BYTES, ZERO_BYTES)];
      } else {
        procs := procs + [ProcInfo(pid, lower, ZERO_BYTES, ZERO_BYTES)];
      }
    }

    /**
     `collect_rows`. Although removal moves the last process into the gap while the scan is running,
     every tracked PID is asked for exactly once, in an order that the answers decide, so the answers of
     a changing map read as one consistent set of answers.
     */
    method CollectRows(stats: LiveMap)
      returns (rows: seq<StatsRow>, ghost at: map<u32, nat>, ghost answers: Answers,
               ghost kept: seq<ProcInfo>, ghost removed: seq<ProcInfo>)
      requires Valid() && stats.Valid()
      modifies this, stats
      ensures Valid() && stats.Valid()
      ensures Scanned(old(procs), answers, at, kept, removed, procs, rows)
      ensures deadProcs == LastN(DEAD_PROC_LIMIT, old(deadProcs) + removed)
      ensures NewestOf(deadProcs, old(deadProcs) + removed)
      ensures stats.calls == old(stats.calls) + Lookups(old(procs), answers)
      ensures AskedOnce(Lookups(old(procs), answers), at, answers)
    {
      rows := [];
      ghost var replies: seq<Option<ProcStats>> := [];
      var idx: nat := 0;
      assert old(deadProcs) + [] == deadProcs;
      while idx < |procs|
        invariant stats.Valid()
        invariant InScan(stats, Scanning(old(procs), replies), old(deadProcs), old(stats.calls), idx, rows)
        decreases |procs| - idx
      {
        ghost var sc, a := Scanning(old(procs), replies), None;
        idx, rows, a := Visit(stats, sc, old(deadProcs), old(stats.calls), idx, rows);
        ScanningMore(old(procs), replies, a);
        replies := replies + [a];
      }
      ghost var sc := Scanning(old(procs), replies);
      at, answers, kept, removed := sc.at, sc.answers, sc.kept, sc.removed;
      assert procs == sc.done;
      ScanFinished(old(procs), replies);
      LookedIsLookups(old(procs), sc.looked, at, answers);
      LastAreNewest(deadProcs, old(deadProcs) + removed);
    }

    /** The list is what was done and what is left; rows, deaths and lookups are those of the scan so far. */
    ghost predicate InScan(stats: LiveMap, sc: Scan, dead: seq<ProcInfo>, calls: seq<Call>, idx: nat,
                           rows: seq<StatsRow>)
      reads this, stats
    {
      && procs == sc.done + sc.rest && idx == |sc.done| && rows == sc.rows
      && deadProcs == LastN(DEAD_PROC_LIMIT, dead + sc.removed)
      && stats.calls == calls + sc.looked
    }

    /** One turn of the scan's loop. */
    method Visit(stats: LiveMap, ghost sc: Scan, ghost dead: seq<ProcInfo>, ghost calls: seq<Call>, idx: nat,
                 rows: seq<StatsRow>)
      returns (idx': nat, rows': seq<StatsRow>, ghost a: Option<ProcStats>)
      requires stats.Valid() && InScan(stats, sc, dead, calls, idx, rows) && sc.rest != []
      modifies this, stats
      ensures stats.Valid() && InScan(stats, sc.Saw(a), dead, calls, idx', rows')
      ensures |procs| - idx' < |old(procs)| - idx
    {
      var p := procs[idx];
      var reading := stats.Read(p.pid);
      a := reading;
      PushAssociative(calls, sc.looked, Call(p.pid, reading));
      LastNPush(DEAD_PROC_LIMIT, dead, sc.removed, p);
      TurnMoves(sc.done, sc.rest, a);
      if reading.Some? {
        var row := Update(idx, reading.value);
        idx', rows' := idx + 1, rows + [row];
      } else {
        procs := SwapRemove(procs, idx);
        PushDead(p);
        idx', rows' := idx, rows;
      }
    }

    /** The branch of the scan that found the process: report it and move its baseline. */
    method Update(idx: nat, s: ProcStats) returns (row: StatsRow)
      requires idx < |procs|
      modifies this`procs
      ensures procs == old(procs)[idx := Refresh(old(procs)[idx], s)]
      ensures row == RowOf(old(procs)[idx], s)
    {
      var p := procs[idx];
      var tcpDelta := StatsBytes(SatSub(s.tcp.bytes.sent, p.tcpCum.sent), SatSub(s.tcp.bytes.recv, p.tcpCum.recv));
      var udpDelta := StatsBytes(SatSub(s.udp.bytes.sent, p.udpCum.sent), SatSub(s.udp.bytes.recv, p.udpCum.recv));
      var q := ProcInfo(p.pid, p.name, s.tcp.bytes, s.udp.bytes);
      procs := procs[idx := q];
      row := StatsRow(q.pid, q.name, ProtocolStats(tcpDelta, s.tcp.addr), ProtocolStats(udpDelta, s.udp.addr),
                      q.tcpCum, q.udpCum);
    }

    /** The dead list forgets its oldest process when it outgrows its limit. */
    method PushDead(p: ProcInfo)
      requires |deadProcs| <= DEAD_PROC_LIMIT
      modifies this`deadProcs
      ensures deadProcs == LastN(DEAD_PROC_LIMIT, old(deadProcs) + [p])
      ensures deadProcs == (if |old(deadProcs)| < 20 then old(deadProcs) else old(deadProcs)[1..]) + [p]
    {
      deadProcs := deadProcs + [p];
      if |deadProcs| > DEAD_PROC_LIMIT {
        deadProcs := deadProcs[1..];
      }
    }
  }
}
