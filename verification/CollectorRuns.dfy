/** The collector over whole runs: any mix of start events, collects and resets, from an empty collector. */
module CollectorRuns {
  import opened Words
  import opened Names
  import opened StatsTypes
  import opened Collector

  datatype State = State(procs: seq<ProcInfo>, dead: seq<ProcInfo>)

  datatype Input =
    | Started(pid: u32, name: Name)
    | Collect(answers: Answers, at: map<u32, nat>, kept: seq<ProcInfo>, removed: seq<ProcInfo>, rows: seq<StatsRow>)
    | ResetAll

  /** One call on the collector, exactly as the methods of `StatsCollector` promise it. */
  ghost predicate Next(c: State, i: Input, d: State) {
    match i
    case Started(pid, name) => Applied(c.procs, pid, Lower(name), d.procs) && d.dead == c.dead
    case Collect(answers, at, kept, removed, rows) =>
      && Scanned(c.procs, answers, at, kept, removed, d.procs, rows)
      && d.dead == LastN(DEAD_PROC_LIMIT, c.dead + removed)
    case ResetAll => ZeroedAll(c.procs, d.procs) && d.dead == []
  }

  /** A run, latest call outermost, with the state after each call. */
  datatype Trace = Begin | Then(past: Trace, input: Input, state: State)

  function StateOf(t: Trace): State {
    match t case Begin => State([], []) case Then(_, _, s) => s
  }

  ghost predicate Legal(t: Trace) {
    t.Then? ==> Legal(t.past) && Next(StateOf(t.past), t.input, t.state)
  }

  // What a reader of the calls alone would expect, without looking at any state

  /** The PID's last call decides whether it is tracked: a start event, or a collect that did not find it. */
  function ShouldTrack(t: Trace, pid: u32): bool {
    match t
    case Begin => false
    case Then(past, Started(p, _), _) => p == pid || ShouldTrack(past, pid)
    case Then(past, Collect(answers, _, _, _, _), _) =>
      if pid in answers then answers[pid].Some? else ShouldTrack(past, pid)
    case Then(past, ResetAll, _) => ShouldTrack(past, pid)
  }

  /** The name of its last start event, and the totals of the last collect that found it since its start or a reset. */
  function Remembered(t: Trace, pid: u32): ProcInfo {
    match t
    case Begin => Fresh(pid, [])
    case Then(past, Started(p, name), _) => if p == pid then Fresh(pid, Lower(name)) else Remembered(past, pid)
    case Then(past, Collect(answers, _, _, _, _), _) =>
      if pid in answers && answers[pid].Some? then Refresh(Remembered(past, pid), answers[pid].value)
      else Remembered(past, pid)
    case Then(past, ResetAll, _) => Zeroed(Remembered(past, pid))
  }

  /** Every process removed since the last reset, in order of removal. */
  function Deaths(t: Trace): seq<ProcInfo> {
    match t
    case Begin => []
    case Then(past, Started(_, _), _) => Deaths(past)
    case Then(past, Collect(_, _, _, removed, _), _) => Deaths(past) + removed
    case Then(_, ResetAll, _) => []
  }

  /**
   Each collect in the run removed exactly the processes that stopped being tracked by it, in the order
   in which it looked them up, each as remembered at that moment.
   */
  ghost predicate DeathsRecorded(t: Trace) {
    match t
    case Begin => true
    case Then(past, Collect(_, at, _, removed, _), _) =>
      && DeathsRecorded(past)
      && InLookupOrder(at, removed)
      && (forall pid :: Tracked(removed, pid) <==> ShouldTrack(past, pid) && !ShouldTrack(t, pid))
      && (forall i :: 0 <= i < |removed| ==> removed[i] == Remembered(past, removed[i].pid))
    case Then(past, _, _) => DeathsRecorded(past)
  }

  ghost predicate Faithful(t: Trace) {
    var c := StateOf(t);
    && DistinctPids(c.procs)
    && (forall pid :: Tracked(c.procs, pid) <==> ShouldTrack(t, pid))
    && (forall i :: 0 <= i < |c.procs| ==> c.procs[i] == Remembered(t, c.procs[i].pid))
  }

  // One scan, seen from a single process

  lemma InMultiset<T>(a: seq<T>, b: seq<T>, c: seq<T>, x: T)
    requires multiset(a) + multiset(b) == multiset(c)
    ensures x in c <==> x in a || x in b
  {
    assert x in multiset(a) <==> x in a;
    assert x in multiset(b) <==> x in b;
    assert x in multiset(c) <==> x in c;
  }

  lemma KeptFromBefore(before: seq<ProcInfo>, answers: Answers, at: map<u32, nat>, kept: seq<ProcInfo>,
                       removed: seq<ProcInfo>, after: seq<ProcInfo>, rows: seq<StatsRow>)
    requires Scanned(before, answers, at, kept, removed, after, rows)
    ensures forall i :: 0 <= i < |kept| ==> kept[i] in before
    ensures forall i :: 0 <= i < |removed| ==> removed[i] in before
  {
    forall i | 0 <= i < |kept| ensures kept[i] in before {
      InMultiset(kept, removed, before, kept[i]);
    }
    forall i | 0 <= i < |removed| ensures removed[i] in before {
      InMultiset(kept, removed, before, removed[i]);
    }
  }

  lemma SamePidSame(procs: seq<ProcInfo>, p: ProcInfo, q: ProcInfo)
    requires DistinctPids(procs) && p in procs && q in procs && p.pid == q.pid
    ensures p == q
  {
  }

  /** A tracked process that the map answered for is kept, once. */
  lemma FoundIsKept(before: seq<ProcInfo>, answers: Answers, at: map<u32, nat>, kept: seq<ProcInfo>,
                    removed: seq<ProcInfo>, after: seq<ProcInfo>, rows: seq<StatsRow>, pid: u32) returns (k: nat)
    requires Scanned(before, answers, at, kept, removed, after, rows)
    requires pid in answers && answers[pid].Some?
    ensures k < |kept| && kept[k].pid == pid
  {
    assert Tracked(before, pid);
    var i :| 0 <= i < |before| && before[i].pid == pid;
    InMultiset(kept, removed, before, before[i]);
    assert forall j :: 0 <= j < |removed| ==> removed[j].pid != pid;
    k :| 0 <= k < |kept| && kept[k] == before[i];
  }

  /** A tracked process that the map did not answer for is removed. */
  lemma MissedIsRemoved(before: seq<ProcInfo>, answers: Answers, at: map<u32, nat>, kept: seq<ProcInfo>,
                        removed: seq<ProcInfo>, after: seq<ProcInfo>, rows: seq<StatsRow>, pid: u32)
    requires Scanned(before, answers, at, kept, removed, after, rows)
    ensures Tracked(removed, pid) <==> pid in answers && answers[pid].None?
  {
    if pid in answers && answers[pid].None? {
      assert Tracked(before, pid);
      var i :| 0 <= i < |before| && before[i].pid == pid;
      InMultiset(kept, removed, before, before[i]);
      assert before[i] !in kept;
    }
  }

  /** Distinct PIDs survive a scan: a process is neither copied nor kept twice. */
  lemma KeptDistinct(before: seq<ProcInfo>, kept: seq<ProcInfo>, removed: seq<ProcInfo>)
    requires multiset(kept) + multiset(removed) == multiset(before) && DistinctPids(before)
    ensures DistinctPids(kept)
  {
    forall i, j | 0 <= i < j < |kept| ensures kept[i].pid != kept[j].pid {
      InMultiset(kept, removed, before, kept[i]);
      InMultiset(kept, removed, before, kept[j]);
      if kept[i].pid == kept[j].pid {
        SamePidSame(before, kept[i], kept[j]);
        TwiceInSeq(kept, i, j);
        assert multiset(before)[kept[i]] >= multiset(kept)[kept[i]];
        OnceInDistinct(before, kept[i]);
      }
    }
  }

  lemma TwiceInSeq(s: seq<ProcInfo>, i: nat, j: nat)
    requires i < j < |s| && s[i] == s[j]
    ensures multiset(s)[s[i]] >= 2
  {
    assert s == s[..i] + [s[i]] + s[i + 1..j] + [s[j]] + s[j + 1..];
  }

  lemma OnceInDistinct(s: seq<ProcInfo>, p: ProcInfo)
    requires DistinctPids(s)
    ensures multiset(s)[p] <= 1
  {
    if p in s {
      var i :| 0 <= i < |s| && s[i] == p;
      assert s == s[..i] + [p] + s[i + 1..];
      assert p !in s[..i] && p !in s[i + 1..];
    }
  }

  // What was tracked and what the map answered determine a scan

  lemma SameFirst(at: map<u32, nat>, a: seq<ProcInfo>, b: seq<ProcInfo>)
    requires InLookupOrder(at, a) && InLookupOrder(at, b) && multiset(a) == multiset(b) && a != []
    ensures b != [] && a[0] == b[0]
  {
    assert a[0] in multiset(b);
    var i :| 0 <= i < |b| && b[i] == a[0];
    assert b[0] in multiset(a);
    var j :| 0 <= j < |a| && a[j] == b[0];
  }

  lemma DropFirst(a: seq<ProcInfo>)
    requires a != []
    ensures multiset(a[1..]) == multiset(a) - multiset{a[0]}
  {
    assert a == [a[0]] + a[1..];
  }

  lemma {:induction false} LookupOrderUnique(at: map<u32, nat>, a: seq<ProcInfo>, b: seq<ProcInfo>)
    requires InLookupOrder(at, a) && InLookupOrder(at, b) && multiset(a) == multiset(b)
    ensures a == b
  {
    if a == [] {
      assert |multiset(b)| == 0;
    } else {
      SameFirst(at, a, b);
      DropFirst(a);
      DropFirst(b);
      LookupOrderUnique(at, a[1..], b[1..]);
      assert a == [a[0]] + a[1..];
    }
  }

  lemma CountOfRemoved(before: seq<ProcInfo>, answers: Answers, kept: seq<ProcInfo>, removed: seq<ProcInfo>,
                       p: ProcInfo)
    requires multiset(kept) + multiset(removed) == multiset(before)
    requires forall i :: 0 <= i < |kept| ==> kept[i].pid in answers && answers[kept[i].pid].Some?
    requires forall i :: 0 <= i < |removed| ==> removed[i].pid in answers && answers[removed[i].pid].None?
    ensures multiset(removed)[p] == if p.pid in answers && answers[p.pid].None? then multiset(before)[p] else 0
    ensures multiset(kept)[p] == if p.pid in answers && answers[p.pid].Some? then multiset(before)[p] else 0
  {
    assert multiset(before)[p] == multiset(kept)[p] + multiset(removed)[p];
    if multiset(kept)[p] > 0 {
      assert p in kept;
    }
    if multiset(removed)[p] > 0 {
      assert p in removed;
    }
  }

  lemma SameOrderSameTimes(before: seq<ProcInfo>, answers: Answers, at: map<u32, nat>, at': map<u32, nat>)
    requires InVisitOrder(before, answers, at) && InVisitOrder(before, answers, at')
    ensures at == at'
  {
    forall pid ensures pid in at <==> pid in at' {
      if pid in at {
        assert VisitOrder(before, answers)[at[pid]] in at';
      }
      if pid in at' {
        assert VisitOrder(before, answers)[at'[pid]] in at;
      }
    }
  }

  /**
   What was tracked and what the map answered decide everything else about a scan: so which processes the
   dead list keeps when more than it holds die at once is not left open.
   */
  lemma ScanDetermined(before: seq<ProcInfo>, answers: Answers,
                       at: map<u32, nat>, kept: seq<ProcInfo>, removed: seq<ProcInfo>, after: seq<ProcInfo>,
                       rows: seq<StatsRow>,
                       at': map<u32, nat>, kept': seq<ProcInfo>, removed': seq<ProcInfo>, after': seq<ProcInfo>,
                       rows': seq<StatsRow>)
    requires Scanned(before, answers, at, kept, removed, after, rows)
    requires Scanned(before, answers, at', kept', removed', after', rows')
    ensures at == at' && kept == kept' && removed == removed' && after == after' && rows == rows'
  {
    SameOrderSameTimes(before, answers, at, at');
    forall p ensures multiset(removed)[p] == multiset(removed')[p] && multiset(kept)[p] == multiset(kept')[p] {
      CountOfRemoved(before, answers, kept, removed, p);
      CountOfRemoved(before, answers, kept', removed', p);
    }
    assert multiset(removed) == multiset(removed') && multiset(kept) == multiset(kept');
    LookupOrderUnique(at, removed, removed');
    LookupOrderUnique(at, kept, kept');
  }

  // The run theorem

  /** A start event adds its PID to those tracked. */
  lemma AppliedTracks(before: seq<ProcInfo>, pid: u32, name: Name, after: seq<ProcInfo>, q: u32)
    requires Applied(before, pid, name, after)
    ensures Tracked(after, q) <==> q == pid || Tracked(before, q)
  {
    if Tracked(before, q) {
      var i :| 0 <= i < |before| && before[i].pid == q;
      assert after[i].pid == q;
    } else if q == pid {
      assert after[|before|].pid == q;
    }
    if Tracked(after, q) {
      var i :| 0 <= i < |after| && after[i].pid == q;
      assert i < |before| ==> before[i].pid == q;
    }
  }

  lemma AppliedDistinct(before: seq<ProcInfo>, pid: u32, name: Name, after: seq<ProcInfo>)
    requires Applied(before, pid, name, after) && DistinctPids(before)
    ensures DistinctPids(after)
  {
    assert forall i :: 0 <= i < |before| ==> after[i].pid == before[i].pid;
  }

  lemma StartedFaithful(t: Trace)
    requires t.Then? && t.input.Started? && Legal(t) && Faithful(t.past)
    ensures Faithful(t)
  {
    var before, after, pid, name := StateOf(t.past).procs, t.state.procs, t.input.pid, Lower(t.input.name);
    AppliedDistinct(before, pid, name, after);
    forall q ensures Tracked(after, q) <==> ShouldTrack(t, q) {
      AppliedTracks(before, pid, name, after, q);
    }
  }

  lemma ResetFaithful(t: Trace)
    requires t.Then? && t.input.ResetAll? && Legal(t) && Faithful(t.past)
    ensures Faithful(t)
  {
    var c, d := StateOf(t.past), t.state;
    forall q ensures Tracked(d.procs, q) <==> ShouldTrack(t, q) {
      if Tracked(c.procs, q) {
        var i :| 0 <= i < |c.procs| && c.procs[i].pid == q;
        assert d.procs[i].pid == q;
      }
      if Tracked(d.procs, q) {
        var i :| 0 <= i < |d.procs| && d.procs[i].pid == q;
        assert c.procs[i].pid == q;
      }
    }
  }

  /** A scan keeps tracking exactly the processes it found. */
  lemma ScannedTracks(before: seq<ProcInfo>, answers: Answers, at: map<u32, nat>, kept: seq<ProcInfo>,
                      removed: seq<ProcInfo>, after: seq<ProcInfo>, rows: seq<StatsRow>, q: u32)
    requires Scanned(before, answers, at, kept, removed, after, rows)
    ensures Tracked(after, q) <==> q in answers && answers[q].Some?
    ensures q in answers <==> Tracked(before, q)
  {
    if Tracked(after, q) {
      var i :| 0 <= i < |after| && after[i].pid == q;
      assert kept[i].pid == q;
    }
    if q in answers && answers[q].Some? {
      var k := FoundIsKept(before, answers, at, kept, removed, after, rows, q);
      assert after[k].pid == q;
    }
  }

  lemma ScannedDistinct(before: seq<ProcInfo>, answers: Answers, at: map<u32, nat>, kept: seq<ProcInfo>,
                        removed: seq<ProcInfo>, after: seq<ProcInfo>, rows: seq<StatsRow>)
    requires Scanned(before, answers, at, kept, removed, after, rows) && DistinctPids(before)
    ensures DistinctPids(after)
  {
    KeptDistinct(before, kept, removed);
    assert forall i :: 0 <= i < |after| ==> after[i].pid == kept[i].pid;
  }

  /** Its processes are those of before, each with its new totals. */
  lemma ScannedRemembers(t: Trace)
    requires t.Then? && t.input.Collect? && Legal(t) && Faithful(t.past)
    ensures forall i :: 0 <= i < |t.state.procs| ==> t.state.procs[i] == Remembered(t, t.state.procs[i].pid)
    ensures forall i :: 0 <= i < |t.input.removed| ==> t.input.removed[i] == Remembered(t.past, t.input.removed[i].pid)
  {
    var before, after := StateOf(t.past).procs, t.state.procs;
    var Collect(answers, at, kept, removed, rows) := t.input;
    KeptFromBefore(before, answers, at, kept, removed, after, rows);
    forall i | 0 <= i < |after| ensures after[i] == Remembered(t, after[i].pid) {
      assert kept[i] in before;
      assert kept[i] == Remembered(t.past, kept[i].pid);
    }
  }

  lemma CollectFaithful(t: Trace)
    requires t.Then? && t.input.Collect? && Legal(t) && Faithful(t.past)
    ensures Faithful(t)
    ensures forall i :: 0 <= i < |t.input.removed| ==> t.input.removed[i] == Remembered(t.past, t.input.removed[i].pid)
  {
    var before, after := StateOf(t.past).procs, t.state.procs;
    var Collect(answers, at, kept, removed, rows) := t.input;
    ScannedDistinct(before, answers, at, kept, removed, after, rows);
    ScannedRemembers(t);
    forall q ensures Tracked(after, q) <==> ShouldTrack(t, q) {
      ScannedTracks(before, answers, at, kept, removed, after, rows, q);
    }
  }

  lemma CollectBuries(t: Trace, pid: u32)
    requires t.Then? && t.input.Collect? && Legal(t) && Faithful(t.past)
    ensures Tracked(t.input.removed, pid) <==> ShouldTrack(t.past, pid) && !ShouldTrack(t, pid)
  {
    var Collect(answers, at, kept, removed, rows) := t.input;
    var before := StateOf(t.past).procs;
    MissedIsRemoved(before, answers, at, kept, removed, t.state.procs, rows, pid);
    assert pid in answers <==> Tracked(before, pid);
  }

  lemma {:induction false} CallsDecide(t: Trace)
    requires Legal(t)
    ensures Faithful(t) && DeathsRecorded(t) && StateOf(t).dead == LastN(DEAD_PROC_LIMIT, Deaths(t))
  {
    if t.Then? {
      CallsDecide(t.past);
      match t.input {
        case Started(_, _) => StartedFaithful(t);
        case ResetAll => ResetFaithful(t);
        case Collect(_, _, _, removed, _) =>
          CollectFaithful(t);
          forall pid {
            CollectBuries(t, pid);
          }
          LastNAppend(DEAD_PROC_LIMIT, Deaths(t.past), removed);
      }
    }
  }

  /**
   Over every run the collector's state is what the calls alone dictate: PIDs stay distinct, a PID is
   tracked exactly when it should be, with the name and totals it should have, and the dead list is
   the newest twenty deaths since the last reset, the latest last, each recorded as it was remembered.
   */
  lemma HistoryExact(t: Trace)
    requires Legal(t)
    ensures Faithful(t)
    ensures DeathsRecorded(t)
    ensures NewestOf(StateOf(t).dead, Deaths(t))
  {
    CallsDecide(t);
    LastAreNewest(StateOf(t).dead, Deaths(t));
  }

  // The names in the table

  /** The name in the last start event of a PID. */
  function LastName(t: Trace, pid: u32): Name {
    match t
    case Begin => []
    case Then(past, Started(p, name), _) => if p == pid then name else LastName(past, pid)
    case Then(past, _, _) => LastName(past, pid)
  }

  lemma {:induction false} RememberedName(t: Trace, pid: u32)
    ensures Remembered(t, pid).pid == pid && Remembered(t, pid).name == LowerBytes(LastName(t, pid))
  {
    if t.Then? {
      RememberedName(t.past, pid);
    }
  }

  /** Every row of a collect carries the name of its PID's last start event, in lower case. */
  lemma RowsAreNamed(t: Trace, i: nat)
    requires Legal(t) && t.Then? && t.input.Collect? && i < |t.input.rows|
    ensures t.input.rows[i].name == LowerBytes(LastName(t.past, t.input.rows[i].pid))
  {
    var Collect(answers, at, kept, removed, rows) := t.input;
    HistoryExact(t.past);
    KeptFromBefore(StateOf(t.past).procs, answers, at, kept, removed, t.state.procs, rows);
    assert kept[i] in StateOf(t.past).procs;
    RememberedName(t.past, kept[i].pid);
  }

  lemma RemovedAreNamed(t: Trace, i: nat)
    requires Legal(t) && t.Then? && t.input.Collect? && i < |t.input.removed|
    ensures ShouldTrack(t.past, t.input.removed[i].pid)
    ensures t.input.removed[i].name == LowerBytes(LastName(t.past, t.input.removed[i].pid))
  {
    HistoryExact(t);
    assert Tracked(t.input.removed, t.input.removed[i].pid);
    RememberedName(t.past, t.input.removed[i].pid);
  }

  /** A process that was tracked after these calls, under the name of its last start event. */
  ghost predicate NamedIn(past: Trace, p: ProcInfo) {
    Legal(past) && ShouldTrack(past, p.pid) && p.name == LowerBytes(LastName(past, p.pid))
  }

  lemma NewDeathIsNamed(t: Trace, k: nat)
    requires Legal(t) && t.Then? && t.input.Collect? && k < |t.input.removed|
    ensures NamedIn(t.past, t.input.removed[k])
  {
    RemovedAreNamed(t, k);
  }

  /** A death is one of the last collect's, or an older one. */
  lemma DeathIsNewOrOld(t: Trace, i: nat)
    requires i < |Deaths(t)|
    ensures t.Then? && !t.input.ResetAll?
    ensures if i < |Deaths(t.past)| then Deaths(t)[i] == Deaths(t.past)[i]
            else && t.input.Collect? && i - |Deaths(t.past)| < |t.input.removed|
                 && Deaths(t)[i] == t.input.removed[i - |Deaths(t.past)|]
  {
  }

  /** `q` is how far the run had come at some call. */
  ghost predicate Earlier(q: Trace, t: Trace) {
    q == t || (t.Then? && Earlier(q, t.past))
  }

  lemma {:induction false} EarlierIsLegal(q: Trace, t: Trace)
    requires Legal(t) && Earlier(q, t)
    ensures Legal(q)
  {
    if q != t {
      EarlierIsLegal(q, t.past);
    }
  }

  /** The collect that a death is from. */
  lemma {:induction false} DeathFound(t: Trace, i: nat) returns (q: Trace, k: nat)
    requires i < |Deaths(t)|
    ensures Earlier(q, t) && q.Then? && q.input.Collect? && k < |q.input.removed|
    ensures Deaths(t)[i] == q.input.removed[k]
  {
    DeathIsNewOrOld(t, i);
    if i < |Deaths(t.past)| {
      q, k := DeathFound(t.past, i);
    } else {
      q, k := t, i - |Deaths(t.past)|;
    }
  }

  /** And so does every process that died, as of its death. */
  lemma DeathsAreNamed(t: Trace, i: nat) returns (q: Trace)
    requires Legal(t) && i < |Deaths(t)|
    ensures Earlier(q, t) && q.Then? && q.input.Collect? && NamedIn(q.past, Deaths(t)[i])
  {
    var k;
    q, k := DeathFound(t, i);
    EarlierIsLegal(q, t);
    NewDeathIsNamed(q, k);
  }

  // What is reported for one process

  function RowDelta(r: StatsRow, pid: u32, ctr: Counter): nat {
    if r.pid == pid then Delta(r, ctr) else 0
  }

  /** All the traffic a snapshot reports for `pid`. */
  function ReportedIn(rows: seq<StatsRow>, pid: u32, ctr: Counter): nat {
    SumBy((r: StatsRow) => RowDelta(r, pid, ctr), rows)
  }

  /** The traffic reported for `pid` since its baseline was last zeroed. */
  function Reported(t: Trace, pid: u32, ctr: Counter): nat {
    match t
    case Begin => 0
    case Then(past, Started(p, _), _) => if p == pid then 0 else Reported(past, pid, ctr)
    case Then(past, Collect(_, _, _, _, rows), _) => Reported(past, pid, ctr) + ReportedIn(rows, pid, ctr)
    case Then(_, ResetAll, _) => 0
  }

  lemma {:induction false} SumSingle<T>(f: T -> nat, s: seq<T>, k: nat)
    requires k < |s|
    requires forall i :: 0 <= i < |s| && i != k ==> f(s[i]) == 0
    ensures SumBy(f, s) == f(s[k])
  {
    if k == 0 {
      SumAtMost(f, s[1..], 0);
    } else {
      SumSingle(f, s[1..], k - 1);
    }
  }

  /** The one row of a process that was found. */
  lemma FoundRow(before: seq<ProcInfo>, answers: Answers, at: map<u32, nat>, kept: seq<ProcInfo>,
                 removed: seq<ProcInfo>, after: seq<ProcInfo>, rows: seq<StatsRow>, pid: u32) returns (k: nat)
    requires Scanned(before, answers, at, kept, removed, after, rows) && DistinctPids(before)
    requires pid in answers && answers[pid].Some?
    ensures k < |rows| && kept[k] in before && kept[k].pid == pid && rows[k] == RowOf(kept[k], answers[pid].value)
    ensures forall i :: 0 <= i < |rows| && i != k ==> rows[i].pid != pid
  {
    KeptFromBefore(before, answers, at, kept, removed, after, rows);
    KeptDistinct(before, kept, removed);
    k := FoundIsKept(before, answers, at, kept, removed, after, rows, pid);
    forall i | 0 <= i < |rows| && i != k ensures rows[i].pid != pid {
      assert rows[i].pid == kept[i].pid;
    }
  }

  /** A collect that finds a process reports exactly its growth over the remembered baseline. */
  lemma CollectReports(t: Trace, pid: u32, ctr: Counter)
    requires t.Then? && t.input.Collect? && Legal(t)
    requires pid in t.input.answers && t.input.answers[pid].Some?
    ensures ReportedIn(t.input.rows, pid, ctr)
            == SatSub(StatsCount(t.input.answers[pid].value, ctr), Baseline(Remembered(t.past, pid), ctr))
  {
    var before := StateOf(t.past).procs;
    var Collect(answers, at, kept, removed, rows) := t.input;
    HistoryExact(t.past);
    var k := FoundRow(before, answers, at, kept, removed, t.state.procs, rows, pid);
    var i :| 0 <= i < |before| && before[i] == kept[k];
    assert kept[k] == Remembered(t.past, pid);
    SumSingle((r: StatsRow) => RowDelta(r, pid, ctr), rows, k);
  }

  /** The merged readings of `pid` since its baseline was last zeroed. */
  function Readings(t: Trace, pid: u32, ctr: Counter): seq<u64> {
    match t
    case Begin => []
    case Then(past, Started(p, _), _) => if p == pid then [] else Readings(past, pid, ctr)
    case Then(past, Collect(answers, _, _, _, _), _) =>
      if pid in answers && answers[pid].Some?
      then Readings(past, pid, ctr) + [StatsCount(answers[pid].value, ctr)]
      else Readings(past, pid, ctr)
    case Then(_, ResetAll, _) => []
  }

  function Latest(rs: seq<u64>): u64 {
    if rs == [] then 0 else rs[|rs| - 1]
  }

  /** How far the readings fell, added up over every fall. */
  function Falls(rs: seq<u64>): nat {
    if rs == [] then 0
    else Falls(rs[..|rs| - 1]) + SatSub(Latest(rs[..|rs| - 1]), Latest(rs))
  }

  ghost predicate NeverFell(rs: seq<u64>) {
    forall i :: 0 < i < |rs| ==> rs[i - 1] <= rs[i]
  }

  lemma {:induction false} FallsZero(rs: seq<u64>)
    ensures Falls(rs) == 0 <==> NeverFell(rs)
  {
    if rs != [] {
      var init := rs[..|rs| - 1];
      FallsZero(init);
      assert forall i :: 0 <= i < |init| ==> init[i] == rs[i];
      if NeverFell(init) && Latest(init) <= Latest(rs) {
        assert NeverFell(rs);
      }
    }
  }

  lemma FallsPush(rs: seq<u64>, r: u64)
    ensures Latest(rs + [r]) == r
    ensures Falls(rs + [r]) == Falls(rs) + SatSub(Latest(rs), r)
  {
    assert (rs + [r])[..|rs|] == rs;
  }

  lemma {:induction false} BaselineIsLatest(t: Trace, pid: u32, ctr: Counter)
    requires Legal(t)
    ensures Baseline(Remembered(t, pid), ctr) == Latest(Readings(t, pid, ctr))
  {
    if t.Then? {
      BaselineIsLatest(t.past, pid, ctr);
      if t.input.Collect? && pid in t.input.answers && t.input.answers[pid].Some? {
        RefreshedBaseline(Remembered(t.past, pid), t.input.answers[pid].value, ctr);
        FallsPush(Readings(t.past, pid, ctr), StatsCount(t.input.answers[pid].value, ctr));
      }
    }
  }

  lemma RefreshedBaseline(p: ProcInfo, s: ProcStats, ctr: Counter)
    ensures Baseline(Refresh(p, s), ctr) == StatsCount(s, ctr)
  {
  }

  /** One more reading: what it rose was reported, what it fell was not. */
  ghost predicate Grew(t: Trace, pid: u32, ctr: Counter)
    requires t.Then?
  {
    var now, before := Readings(t, pid, ctr), Readings(t.past, pid, ctr);
    && Reported(t, pid, ctr) == Reported(t.past, pid, ctr) + SatSub(Latest(now), Latest(before))
    && Falls(now) == Falls(before) + SatSub(Latest(before), Latest(now))
  }

  lemma FoundAddsGrowth(t: Trace, pid: u32, ctr: Counter)
    requires Legal(t) && t.Then? && t.input.Collect? && pid in t.input.answers && t.input.answers[pid].Some?
    ensures Grew(t, pid, ctr)
  {
    BaselineIsLatest(t.past, pid, ctr);
    CollectReports(t, pid, ctr);
    FallsPush(Readings(t.past, pid, ctr), StatsCount(t.input.answers[pid].value, ctr));
  }

  lemma MissAddsNothing(t: Trace, pid: u32, ctr: Counter)
    requires Legal(t) && t.Then? && t.input.Collect? && (pid in t.input.answers ==> t.input.answers[pid].None?)
    ensures Reported(t, pid, ctr) == Reported(t.past, pid, ctr)
    ensures Readings(t, pid, ctr) == Readings(t.past, pid, ctr)
  {
    NotReported(t, pid, ctr);
  }

  /** Outside collects nothing is reported or read; the baseline is kept or zeroed with both. */
  lemma OthersAddNothing(t: Trace, pid: u32, ctr: Counter)
    requires t.Then? && !t.input.Collect?
    ensures || (Reported(t, pid, ctr) == 0 && Readings(t, pid, ctr) == [])
            || (&& Reported(t, pid, ctr) == Reported(t.past, pid, ctr)
                && Readings(t, pid, ctr) == Readings(t.past, pid, ctr))
  {
  }

  ghost predicate Explained(t: Trace, pid: u32, ctr: Counter) {
    Reported(t, pid, ctr) == Latest(Readings(t, pid, ctr)) + Falls(Readings(t, pid, ctr))
  }

  lemma GrewExplained(t: Trace, pid: u32, ctr: Counter)
    requires t.Then? && Grew(t, pid, ctr) && Explained(t.past, pid, ctr)
    ensures Explained(t, pid, ctr)
  {
  }

  lemma {:induction false} ReportedIsLatestPlusFalls(t: Trace, pid: u32, ctr: Counter)
    requires Legal(t)
    ensures Explained(t, pid, ctr)
  {
    if t.Then? {
      ReportedIsLatestPlusFalls(t.past, pid, ctr);
      if !t.input.Collect? {
        OthersAddNothing(t, pid, ctr);
      } else if pid in t.input.answers && t.input.answers[pid].Some? {
        FoundAddsGrowth(t, pid, ctr);
        GrewExplained(t, pid, ctr);
      } else {
        MissAddsNothing(t, pid, ctr);
      }
    }
  }

  /**
   For arbitrary readings, what was reported since the baseline was zeroed is the latest reading plus
   every fall; so it is at least the latest reading, and equal to it exactly when no reading fell.
   */
  lemma ReportedSum(t: Trace, pid: u32, ctr: Counter)
    requires Legal(t)
    ensures Reported(t, pid, ctr) >= Latest(Readings(t, pid, ctr))
    ensures Reported(t, pid, ctr) == Latest(Readings(t, pid, ctr)) <==> NeverFell(Readings(t, pid, ctr))
  {
    ReportedIsLatestPlusFalls(t, pid, ctr);
    FallsZero(Readings(t, pid, ctr));
  }

  lemma RowsAreAnswered(c: State, input: Input, d: State, pid: u32)
    requires input.Collect? && Next(c, input, d) && (pid in input.answers ==> input.answers[pid].None?)
    ensures forall i :: 0 <= i < |input.rows| ==> input.rows[i].pid != pid
  {
    forall i | 0 <= i < |input.rows| ensures input.rows[i].pid != pid {
      assert input.kept[i].pid in input.answers && input.answers[input.kept[i].pid].Some?;
    }
  }

  lemma NotReported(t: Trace, pid: u32, ctr: Counter)
    requires t.Then? && t.input.Collect? && Legal(t)
    requires pid in t.input.answers ==> t.input.answers[pid].None?
    ensures ReportedIn(t.input.rows, pid, ctr) == 0
  {
    var Collect(answers, at, kept, removed, rows) := t.input;
    RowsAreAnswered(StateOf(t.past), t.input, t.state, pid);
    SumAtMost((r: StatsRow) => RowDelta(r, pid, ctr), rows, 0);
  }
}
