/** The records of `procnet-core/src/stats.rs` and `ipc.rs`, shared by kernel, daemon and client. */
module StatsTypes {
  import opened Words
  import opened Names

  datatype StatsBytes = StatsBytes(sent: u64, recv: u64) {
    /** `StatsBytes::merge` */
    function Merge(other: StatsBytes): StatsBytes {
      StatsBytes(SatAdd(sent, other.sent), SatAdd(recv, other.recv))
    }

    /** `StatsBytes::combine` */
    function Combine(): u64 {
      SatAdd(sent, recv)
    }
  }

  const ZERO_BYTES := StatsBytes(0, 0)

  type Ipv6 = s: seq<byte> | |s| == 16 witness ZERO_IPV6

  const ZERO_IPV6: seq<byte> := [0, 0, 0, 0, 0, 0, 0, 0, 0, 0, 0, 0, 0, 0, 0, 0]

  datatype StatsAddr = StatsAddr(dstPort: u16, srcPort: u16, dstIpv4: u32, dstIpv6: Ipv6)

  const DEFAULT_ADDR := StatsAddr(0, 0, 0, ZERO_IPV6)

  datatype ProtocolStats = ProtocolStats(bytes: StatsBytes, addr: StatsAddr)

  const EMPTY_PROTOCOL := ProtocolStats(ZERO_BYTES, DEFAULT_ADDR)

  datatype ProcStats = ProcStats(tcp: ProtocolStats, udp: ProtocolStats)

  const EMPTY_STATS := ProcStats(EMPTY_PROTOCOL, EMPTY_PROTOCOL)

  datatype ProcInfo = ProcInfo(pid: u32, name: Name, tcpCum: StatsBytes, udpCum: StatsBytes)

  datatype StatsRow = StatsRow(pid: u32, name: Name, tcp: ProtocolStats, udp: ProtocolStats,
                               tcpCum: StatsBytes, udpCum: StatsBytes)

  datatype SnapshotData = SnapshotData(interval: u64, tick: u64, rows: Vec<StatsRow>, deadProcs: Vec<ProcInfo>)

  datatype DaemonCommand = Run | Interval(interval: u64) | IntervalIncrease | IntervalDecrease | Reset

  const MAP_SIZE: nat := 512
  const DEAD_PROC_LIMIT: nat := 20

  /** One of the four byte counters kept for a process. */
  datatype Counter = TcpSent | TcpRecv | UdpSent | UdpRecv

  function Count(tcp: StatsBytes, udp: StatsBytes, ctr: Counter): u64 {
    match ctr
    case TcpSent => tcp.sent
    case TcpRecv => tcp.recv
    case UdpSent => udp.sent
    case UdpRecv => udp.recv
  }

  function StatsCount(s: ProcStats, ctr: Counter): u64 {
    Count(s.tcp.bytes, s.udp.bytes, ctr)
  }

  /** The baseline a tracked process was last reported against. */
  function Baseline(p: ProcInfo, ctr: Counter): u64 {
    Count(p.tcpCum, p.udpCum, ctr)
  }

  /** The traffic a row reports for its tick. */
  function Delta(r: StatsRow, ctr: Counter): u64 {
    Count(r.tcp.bytes, r.udp.bytes, ctr)
  }
}
