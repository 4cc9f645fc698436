/** Folding the per-CPU records of one process into one (`stats.rs`, `merge_values_for_pid`). */
module Merge {
  import opened Words
  import opened StatsTypes
  import opened Layout

  /** A per-CPU value as the map hands it out: raw bytes. */
  type Raw = seq<byte>

  /** A per-CPU value once read; `None` when its length is wrong. */
  type Record = Option<ProcStats>

  function Records(values: seq<Raw>): (r: seq<Record>)
    ensures |r| == |values|
    ensures forall i :: 0 <= i < |values| ==> r[i] == FromBytes(values[i])
  {
    seq(|values|, i requires 0 <= i < |values| => FromBytes(values[i]))
  }

  // What the fold is meant to compute

  function Amount(v: Record, ctr: Counter): nat {
    match v case None => 0 case Some(s) => StatsCount(s, ctr)
  }

  /** The true sum of one counter over the readable records. */
  function Total(values: seq<Record>, ctr: Counter): nat {
    SumBy((v: Record) => Amount(v, ctr), values)
  }

  function Cap(n: nat): u64 {
    Min(n, U64_MAX)
  }

  function AddrOf(v: Record, tcp: bool): StatsAddr {
    match v
    case None => DEFAULT_ADDR
    case Some(s) => if tcp then s.tcp.addr else s.udp.addr
  }

  /** The first address that says anything, in CPU order. */
  function FirstAddr(values: seq<Record>, tcp: bool): StatsAddr {
    if values == [] then DEFAULT_ADDR
    else if AddrOf(values[0], tcp) != DEFAULT_ADDR then AddrOf(values[0], tcp)
    else FirstAddr(values[1..], tcp)
  }

  /** The same of plain addresses. */
  function FirstOf(addrs: seq<StatsAddr>): StatsAddr {
    if addrs == [] then DEFAULT_ADDR else if addrs[0] != DEFAULT_ADDR then addrs[0] else FirstOf(addrs[1..])
  }

  lemma {:induction false} FirstAddrOf(values: seq<Record>, tcp: bool, addrs: seq<StatsAddr>)
    requires |values| == |addrs| && forall i :: 0 <= i < |values| ==> AddrOf(values[i], tcp) == addrs[i]
    ensures FirstAddr(values, tcp) == FirstOf(addrs)
  {
    if values != [] {
      FirstAddrOf(values[1..], tcp, addrs[1..]);
    }
  }

  function Merged(values: seq<Record>): ProcStats {
    ProcStats(
      ProtocolStats(StatsBytes(Cap(Total(values, TcpSent)), Cap(Total(values, TcpRecv))), FirstAddr(values, true)),
      ProtocolStats(StatsBytes(Cap(Total(values, UdpSent)), Cap(Total(values, UdpRecv))), FirstAddr(values, false)))
  }

  // The fold itself

  /** `merge_stats` */
  function MergeStats(merged: ProtocolStats, stats: ProtocolStats): ProtocolStats {
    ProtocolStats(
      StatsBytes(SatAdd(merged.bytes.sent, stats.bytes.sent), SatAdd(merged.bytes.recv, stats.bytes.recv)),
      if merged.addr == DEFAULT_ADDR && stats.addr != DEFAULT_ADDR then stats.addr else merged.addr)
  }

  lemma {:induction false} FirstAddrAppend(values: seq<Record>, v: Record, tcp: bool)
    ensures FirstAddr(values + [v], tcp)
            == if FirstAddr(values, tcp) != DEFAULT_ADDR then FirstAddr(values, tcp) else AddrOf(v, tcp)
  {
    if values != [] {
      assert (values + [v])[1..] == values[1..] + [v];
      FirstAddrAppend(values[1..], v, tcp);
    }
  }

  lemma TotalAppend(values: seq<Record>, v: Record, ctr: Counter)
    ensures Total(values + [v], ctr) == Total(values, ctr) + Amount(v, ctr)
  {
    SumAppend((w: Record) => Amount(w, ctr), values, [v]);
  }

  function MergeRecord(merged: ProcStats, record: Record): ProcStats {
    match record
    case None => merged
    case Some(s) => ProcStats(MergeStats(merged.tcp, s.tcp), MergeStats(merged.udp, s.udp))
  }

  lemma MergedAppend(values: seq<Record>, v: Record)
    ensures Merged(values + [v]) == MergeRecord(Merged(values), v)
  {
    forall ctr { TotalAppend(values, v, ctr); }
    FirstAddrAppend(values, v, true);
    FirstAddrAppend(values, v, false);
  }

  lemma MergedStep(values: seq<Record>, i: nat)
    requires i < |values|
    ensures Merged(values[..i + 1]) == MergeRecord(Merged(values[..i]), values[i])
  {
    MergedAppend(values[..i], values[i]);
    assert values[..i] + [values[i]] == values[..i + 1];
  }

  /**
   `merge_values_for_pid`, after the lookup succeeded. However the sums overflow on the way, each
   counter comes out as the true sum capped once, and each address whole from one record.
   */
  method MergeValues(values: seq<Raw>) returns (merged: ProcStats)
    ensures merged == Merged(Records(values))
  {
    merged := EMPTY_STATS;
    ghost var records := Records(values);
    MergedNone(records);
    for i := 0 to |values|
      invariant merged == Merged(records[..i])
    {
      MergedStep(records, i);
      merged := MergeRecord(merged, FromBytes(values[i]));
    }
    assert records[..|values|] == records;
  }

  lemma MergedNone(values: seq<Record>)
    ensures Merged(values[..0]) == EMPTY_STATS
  {
    assert values[..0] == [];
  }

  lemma MergedCount(values: seq<Record>, ctr: Counter)
    ensures StatsCount(Merged(values), ctr) == Cap(Total(values, ctr))
  {
  }

  /** The order in which CPUs are visited does not change any counter. */
  lemma MergeIgnoresCpuOrder(a: seq<Record>, b: seq<Record>, ctr: Counter)
    requires multiset(a) == multiset(b)
    ensures StatsCount(Merged(a), ctr) == StatsCount(Merged(b), ctr)
  {
    SumPermutation((v: Record) => Amount(v, ctr), a, b);
  }

  /** A merged address is one record's address, never a mix; it is empty only when all are. */
  lemma {:induction false} MergedAddrIsWhole(values: seq<Record>, tcp: bool)
    ensures FirstAddr(values, tcp) == DEFAULT_ADDR
            <==> forall i :: 0 <= i < |values| ==> AddrOf(values[i], tcp) == DEFAULT_ADDR
    ensures FirstAddr(values, tcp) != DEFAULT_ADDR
            ==> exists k :: 0 <= k < |values| && FirstAddr(values, tcp) == AddrOf(values[k], tcp)
                         && forall i :: 0 <= i < k ==> AddrOf(values[i], tcp) == DEFAULT_ADDR
  {
    if values != [] && AddrOf(values[0], tcp) == DEFAULT_ADDR {
      var t := values[1..];
      MergedAddrIsWhole(t, tcp);
      if FirstAddr(t, tcp) != DEFAULT_ADDR {
        var k :| 0 <= k < |t| && FirstAddr(t, tcp) == AddrOf(t[k], tcp)
              && forall i :: 0 <= i < k ==> AddrOf(t[i], tcp) == DEFAULT_ADDR;
        assert values[k + 1] == t[k];
        assert forall i :: 0 <= i < k + 1 ==> AddrOf(values[i], tcp) == DEFAULT_ADDR;
      } else {
        assert forall i :: 1 <= i < |values| ==> values[i] == t[i - 1];
      }
    }
  }
}
