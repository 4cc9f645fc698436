/**
 The byte layouts procnet uses: bincode messages between daemon and client, and the `repr(C)` record
 the kernel keeps per CPU (both supported targets are little-endian, and the record has no padding).
 */
module Layout {
  import opened Words
  import opened Names
  import opened StatsTypes
  import opened Codec

  // Field order of each record, as nested pairs.

  type BytesFields = (u64, u64)
  type AddrFields = ((u16, u16), (u32, Ipv6))
  type ProtocolFields = (StatsBytes, StatsAddr)
  type RecordFields = (ProtocolStats, ProtocolStats)
  type InfoFields = ((u32, Name), (StatsBytes, StatsBytes))
  type RowFields = ((u32, Name), ((ProtocolStats, ProtocolStats), (StatsBytes, StatsBytes)))
  type SnapshotFields = ((u64, u64), (Vec<StatsRow>, Vec<ProcInfo>))

  function ToBytes(p: BytesFields): StatsBytes { StatsBytes(p.0, p.1) }
  function OfBytes(b: StatsBytes): BytesFields { (b.sent, b.recv) }

  function ToAddr(p: AddrFields): StatsAddr { StatsAddr(p.0.0, p.0.1, p.1.0, p.1.1) }
  function OfAddr(a: StatsAddr): AddrFields { ((a.dstPort, a.srcPort), (a.dstIpv4, a.dstIpv6)) }

  function ToProtocol(p: ProtocolFields): ProtocolStats { ProtocolStats(p.0, p.1) }
  function OfProtocol(s: ProtocolStats): ProtocolFields { (s.bytes, s.addr) }

  function ToRecord(p: RecordFields): ProcStats { ProcStats(p.0, p.1) }
  function OfRecord(s: ProcStats): RecordFields { (s.tcp, s.udp) }

  function ToInfo(p: InfoFields): ProcInfo { ProcInfo(p.0.0, p.0.1, p.1.0, p.1.1) }
  function OfInfo(i: ProcInfo): InfoFields { ((i.pid, i.name), (i.tcpCum, i.udpCum)) }

  function ToRow(p: RowFields): StatsRow {
    StatsRow(p.0.0, p.0.1, p.1.0.0, p.1.0.1, p.1.1.0, p.1.1.1)
  }
  function OfRow(r: StatsRow): RowFields { ((r.pid, r.name), ((r.tcp, r.udp), (r.tcpCum, r.udpCum))) }

  function ToSnapshot(p: SnapshotFields): SnapshotData { SnapshotData(p.0.0, p.0.1, p.1.0, p.1.1) }
  function OfSnapshot(s: SnapshotData): SnapshotFields { ((s.interval, s.tick), (s.rows, s.deadProcs)) }

  function DecIpv6(s: seq<byte>): Option<(Ipv6, seq<byte>)> {
    if |s| < 16 then None else Some((s[..16], s[16..]))
  }

  /** An array has no length prefix. */
  const IPV6: Codec<Ipv6> := Codec((a: Ipv6) => a, DecIpv6)
  const BYTES: Codec<StatsBytes> := As(Pair(U64, U64), ToBytes, OfBytes)
  const ADDR: Codec<StatsAddr> := As(Pair(Pair(U16, U16), Pair(U32, IPV6)), ToAddr, OfAddr)
  const PROTOCOL: Codec<ProtocolStats> := As(Pair(BYTES, ADDR), ToProtocol, OfProtocol)
  /** The kernel's per-CPU record: TCP then UDP. */
  const RECORD: Codec<ProcStats> := As(Pair(PROTOCOL, PROTOCOL), ToRecord, OfRecord)
  const INFO: Codec<ProcInfo> := As(Pair(Pair(U32, NAME), Pair(BYTES, BYTES)), ToInfo, OfInfo)
  const ROW: Codec<StatsRow> :=
    As(Pair(Pair(U32, NAME), Pair(Pair(PROTOCOL, PROTOCOL), Pair(BYTES, BYTES))), ToRow, OfRow)
  const SNAPSHOT: Codec<SnapshotData> :=
    As(Pair(Pair(U64, U64), Pair(VecOf(ROW), VecOf(INFO))), ToSnapshot, OfSnapshot)

  /** An enum: its variant number as a `u32`, then the variant's fields. */
  function EncCommand(c: DaemonCommand): seq<byte> {
    match c
    case Run => ToLe(4, 0)
    case Interval(ms) => ToLe(4, 1) + ToLe(8, ms)
    case IntervalIncrease => ToLe(4, 2)
    case IntervalDecrease => ToLe(4, 3)
    case Reset => ToLe(4, 4)
  }

  function DecCommand(s: seq<byte>): Option<(DaemonCommand, seq<byte>)> {
    match DecU32(s)
    case None => None
    case Some((tag, r)) =>
      if tag == 0 then Some((Run, r))
      else if tag == 1 then
        (match DecU64(r) case None => None case Some((ms, rest)) => Some((Interval(ms), rest)))
      else if tag == 2 then Some((IntervalIncrease, r))
      else if tag == 3 then Some((IntervalDecrease, r))
      else if tag == 4 then Some((Reset, r))
      else None
  }

  const COMMAND: Codec<DaemonCommand> := Codec(EncCommand, DecCommand)

  lemma Ipv6Exact()
    ensures Exact(IPV6)
  {
    forall x: Ipv6, rest: seq<byte> ensures IPV6.dec(IPV6.enc(x) + rest) == Some((x, rest)) {
      assert (x + rest)[..16] == x && (x + rest)[16..] == rest;
    }
  }

  lemma BytesExact()
    ensures Exact(BYTES)
  {
    WordsExact();
    PairExact(U64, U64);
    AsExact(Pair(U64, U64), ToBytes, OfBytes);
  }

  lemma ProtocolExact()
    ensures Exact(PROTOCOL)
  {
    WordsExact();
    Ipv6Exact();
    PairExact(U16, U16);
    PairExact(U32, IPV6);
    PairExact(Pair(U16, U16), Pair(U32, IPV6));
    AsExact(Pair(Pair(U16, U16), Pair(U32, IPV6)), ToAddr, OfAddr);
    BytesExact();
    PairExact(BYTES, ADDR);
    AsExact(Pair(BYTES, ADDR), ToProtocol, OfProtocol);
  }

  /** Reading a kernel record back gives the counters and addresses that were stored. */
  lemma RecordExact()
    ensures Exact(RECORD)
  {
    ProtocolExact();
    PairExact(PROTOCOL, PROTOCOL);
    AsExact(Pair(PROTOCOL, PROTOCOL), ToRecord, OfRecord);
  }

  lemma InfoExact()
    ensures Exact(INFO)
  {
    WordsExact();
    NameExact();
    BytesExact();
    PairExact(U32, NAME);
    PairExact(BYTES, BYTES);
    PairExact(Pair(U32, NAME), Pair(BYTES, BYTES));
    AsExact(Pair(Pair(U32, NAME), Pair(BYTES, BYTES)), ToInfo, OfInfo);
  }

  lemma RowExact()
    ensures Exact(ROW)
  {
    WordsExact();
    NameExact();
    BytesExact();
    ProtocolExact();
    PairExact(U32, NAME);
    PairExact(BYTES, BYTES);
    PairExact(PROTOCOL, PROTOCOL);
    PairExact(Pair(PROTOCOL, PROTOCOL), Pair(BYTES, BYTES));
    PairExact(Pair(U32, NAME), Pair(Pair(PROTOCOL, PROTOCOL), Pair(BYTES, BYTES)));
    AsExact(Pair(Pair(U32, NAME), Pair(Pair(PROTOCOL, PROTOCOL), Pair(BYTES, BYTES))), ToRow, OfRow);
  }

  /** A snapshot survives the wire, and no other bytes decode to it. */
  lemma SnapshotExact()
    ensures Exact(SNAPSHOT)
  {
    WordsExact();
    RowExact();
    InfoExact();
    VecExact(ROW);
    VecExact(INFO);
    PairExact(U64, U64);
    PairExact(VecOf(ROW), VecOf(INFO));
    PairExact(Pair(U64, U64), Pair(VecOf(ROW), VecOf(INFO)));
    AsExact(Pair(Pair(U64, U64), Pair(VecOf(ROW), VecOf(INFO))), ToSnapshot, OfSnapshot);
  }

  lemma TagDecodes(tag: nat, rest: seq<byte>)
    requires tag < 5
    ensures DecU32(ToLe(4, tag) + rest) == Some((tag, rest))
  {
    Pow256Widths();
    TakeToLe(4, tag, rest);
  }

  lemma IntervalRoundTrip(ms: u64, rest: seq<byte>)
    ensures DecCommand(EncCommand(Interval(ms)) + rest) == Some((Interval(ms), rest))
  {
    assert EncCommand(Interval(ms)) + rest == ToLe(4, 1) + (ToLe(8, ms) + rest);
    TagDecodes(1, ToLe(8, ms) + rest);
    Pow256Widths();
    TakeToLe(8, ms, rest);
  }

  lemma CommandRoundTrip(c: DaemonCommand, rest: seq<byte>)
    ensures DecCommand(EncCommand(c) + rest) == Some((c, rest))
  {
    match c {
      case Run => TagDecodes(0, rest);
      case Interval(ms) => IntervalRoundTrip(ms, rest);
      case IntervalIncrease => TagDecodes(2, rest);
      case IntervalDecrease => TagDecodes(3, rest);
      case Reset => TagDecodes(4, rest);
    }
  }

  /** So does a command; an unknown variant number is refused. */
  lemma CommandExact()
    ensures Exact(COMMAND)
  {
    forall c: DaemonCommand, rest: seq<byte> ensures COMMAND.dec(COMMAND.enc(c) + rest) == Some((c, rest)) {
      CommandRoundTrip(c, rest);
    }
    forall s | COMMAND.dec(s).Some? ensures s == COMMAND.enc(COMMAND.dec(s).value.0) + COMMAND.dec(s).value.1 {
      CommandCanonical(s);
    }
  }

  lemma CommandCanonical(s: seq<byte>)
    requires DecCommand(s).Some?
    ensures s == EncCommand(DecCommand(s).value.0) + DecCommand(s).value.1
  {
    var (tag, r) := DecU32(s).value;
    if tag == 1 {
      var (ms, rest) := DecU64(r).value;
      assert s == ToLe(4, 1) + (ToLe(8, ms) + rest);
    }
  }

  // The layouts written out, and their sizes

  /** The commands' bytes: the variant number in four bytes, lowest first, and for `Interval` eight more. */
  lemma CommandLayout(ms: u64)
    ensures COMMAND.enc(Run) == [0, 0, 0, 0]
    ensures COMMAND.enc(Interval(ms)) == [1, 0, 0, 0] + ToLe(8, ms)
    ensures COMMAND.enc(IntervalIncrease) == [2, 0, 0, 0]
    ensures COMMAND.enc(IntervalDecrease) == [3, 0, 0, 0]
    ensures COMMAND.enc(Reset) == [4, 0, 0, 0]
  {
    SmallTag(0);
    SmallTag(1);
    SmallTag(2);
    SmallTag(3);
    SmallTag(4);
  }

  lemma SmallTag(tag: byte)
    ensures ToLe(4, tag) == [tag, 0, 0, 0]
  {
    assert ToLe(1, 0) == [0] + ToLe(0, 0);
    assert ToLe(2, 0) == [0] + ToLe(1, 0);
    assert ToLe(3, 0) == [0] + ToLe(2, 0);
    assert ToLe(4, tag) == [tag] + ToLe(3, 0);
  }

  lemma BytesLayout(b: StatsBytes)
    ensures BYTES.enc(b) == ToLe(8, b.sent) + ToLe(8, b.recv)
  {
    AsEnc(Pair(U64, U64), ToBytes, OfBytes, b);
    PairEnc(U64, U64, b.sent, b.recv);
  }

  lemma AddrLayout(a: StatsAddr)
    ensures ADDR.enc(a) == (ToLe(2, a.dstPort) + ToLe(2, a.srcPort)) + (ToLe(4, a.dstIpv4) + a.dstIpv6)
  {
    AsEnc(Pair(Pair(U16, U16), Pair(U32, IPV6)), ToAddr, OfAddr, a);
    PairEnc(Pair(U16, U16), Pair(U32, IPV6), (a.dstPort, a.srcPort), (a.dstIpv4, a.dstIpv6));
    PairEnc(U16, U16, a.dstPort, a.srcPort);
    PairEnc(U32, IPV6, a.dstIpv4, a.dstIpv6);
  }

  lemma ProtocolLayout(s: ProtocolStats)
    ensures PROTOCOL.enc(s) == BYTES.enc(s.bytes) + ADDR.enc(s.addr)
    ensures |PROTOCOL.enc(s)| == 40
  {
    AsEnc(Pair(BYTES, ADDR), ToProtocol, OfProtocol, s);
    PairEnc(BYTES, ADDR, s.bytes, s.addr);
    BytesLayout(s.bytes);
    AddrLayout(s.addr);
  }

  const RECORD_SIZE := 80

  lemma RecordLayout(s: ProcStats)
    ensures RECORD.enc(s) == PROTOCOL.enc(s.tcp) + PROTOCOL.enc(s.udp)
    ensures |RECORD.enc(s)| == RECORD_SIZE
  {
    AsEnc(Pair(PROTOCOL, PROTOCOL), ToRecord, OfRecord, s);
    PairEnc(PROTOCOL, PROTOCOL, s.tcp, s.udp);
    ProtocolLayout(s.tcp);
    ProtocolLayout(s.udp);
  }

  function RowSize(r: StatsRow): nat { 124 + |r.name| }

  function InfoSize(i: ProcInfo): nat { 44 + |i.name| }

  lemma RowLayout(r: StatsRow)
    ensures ROW.enc(r)
            == (ToLe(4, r.pid) + (ToLe(8, |r.name|) + r.name))
             + ((PROTOCOL.enc(r.tcp) + PROTOCOL.enc(r.udp)) + (BYTES.enc(r.tcpCum) + BYTES.enc(r.udpCum)))
    ensures |ROW.enc(r)| == RowSize(r)
  {
    AsEnc(Pair(Pair(U32, NAME), Pair(Pair(PROTOCOL, PROTOCOL), Pair(BYTES, BYTES))), ToRow, OfRow, r);
    PairEnc(Pair(U32, NAME), Pair(Pair(PROTOCOL, PROTOCOL), Pair(BYTES, BYTES)),
            (r.pid, r.name), ((r.tcp, r.udp), (r.tcpCum, r.udpCum)));
    PairEnc(U32, NAME, r.pid, r.name);
    PairEnc(Pair(PROTOCOL, PROTOCOL), Pair(BYTES, BYTES), (r.tcp, r.udp), (r.tcpCum, r.udpCum));
    PairEnc(PROTOCOL, PROTOCOL, r.tcp, r.udp);
    PairEnc(BYTES, BYTES, r.tcpCum, r.udpCum);
    ProtocolLayout(r.tcp);
    ProtocolLayout(r.udp);
    BytesLayout(r.tcpCum);
    BytesLayout(r.udpCum);
  }

  lemma InfoLayout(i: ProcInfo)
    ensures INFO.enc(i)
            == (ToLe(4, i.pid) + (ToLe(8, |i.name|) + i.name)) + (BYTES.enc(i.tcpCum) + BYTES.enc(i.udpCum))
    ensures |INFO.enc(i)| == InfoSize(i)
  {
    AsEnc(Pair(Pair(U32, NAME), Pair(BYTES, BYTES)), ToInfo, OfInfo, i);
    PairEnc(Pair(U32, NAME), Pair(BYTES, BYTES), (i.pid, i.name), (i.tcpCum, i.udpCum));
    PairEnc(U32, NAME, i.pid, i.name);
    PairEnc(BYTES, BYTES, i.tcpCum, i.udpCum);
    BytesLayout(i.tcpCum);
    BytesLayout(i.udpCum);
  }

  lemma SnapshotLayout(s: SnapshotData)
    ensures SNAPSHOT.enc(s)
            == (ToLe(8, s.interval) + ToLe(8, s.tick))
             + ((ToLe(8, |s.rows|) + EncAll(ROW, s.rows)) + (ToLe(8, |s.deadProcs|) + EncAll(INFO, s.deadProcs)))
  {
    AsEnc(Pair(Pair(U64, U64), Pair(VecOf(ROW), VecOf(INFO))), ToSnapshot, OfSnapshot, s);
    PairEnc(Pair(U64, U64), Pair(VecOf(ROW), VecOf(INFO)), (s.interval, s.tick), (s.rows, s.deadProcs));
    PairEnc(U64, U64, s.interval, s.tick);
    PairEnc(VecOf(ROW), VecOf(INFO), s.rows, s.deadProcs);
  }

  ghost function SnapshotSize(s: SnapshotData): nat {
    32 + SumBy(RowSize, s.rows) + SumBy(InfoSize, s.deadProcs)
  }

  /** The exact size of an encoded snapshot. */
  lemma SnapshotLength(s: SnapshotData)
    ensures |SNAPSHOT.enc(s)| == SnapshotSize(s)
  {
    SnapshotLayout(s);
    forall r ensures |ROW.enc(r)| == RowSize(r) {
      RowLayout(r);
    }
    forall i ensures |INFO.enc(i)| == InfoSize(i) {
      InfoLayout(i);
    }
    EncAllLength(ROW, RowSize, s.rows);
    EncAllLength(INFO, InfoSize, s.deadProcs);
  }

  lemma BytesFixed()
    ensures FixedWidth(BYTES, 16)
  {
    assert FixedWidth(U64, 8);
    PairFixed(U64, U64, 8, 8);
    AsFixed(Pair(U64, U64), ToBytes, OfBytes, 16);
  }

  lemma PortsFixed()
    ensures FixedWidth(Pair(U16, U16), 4)
  {
    assert FixedWidth(U16, 2);
    PairFixed(U16, U16, 2, 2);
  }

  lemma IpsFixed()
    ensures FixedWidth(Pair(U32, IPV6), 20)
  {
    assert FixedWidth(U32, 4) && FixedWidth(IPV6, 16);
    PairFixed(U32, IPV6, 4, 16);
  }

  lemma ProtocolFixed()
    ensures FixedWidth(PROTOCOL, 40)
  {
    BytesFixed();
    PortsFixed();
    IpsFixed();
    PairFixed(Pair(U16, U16), Pair(U32, IPV6), 4, 20);
    AsFixed(Pair(Pair(U16, U16), Pair(U32, IPV6)), ToAddr, OfAddr, 24);
    PairFixed(BYTES, ADDR, 16, 24);
    AsFixed(Pair(BYTES, ADDR), ToProtocol, OfProtocol, 40);
  }

  lemma RecordFixed()
    ensures FixedWidth(RECORD, RECORD_SIZE)
  {
    ProtocolFixed();
    PairFixed(PROTOCOL, PROTOCOL, 40, 40);
    AsFixed(Pair(PROTOCOL, PROTOCOL), ToRecord, OfRecord, 80);
  }

  /** `proc_stats_from_bytes`: a record of any other length is skipped. */
  function FromBytes(data: seq<byte>): Option<ProcStats> {
    Cast(RECORD, RECORD_SIZE, data)
  }

  /** Exactly the values of the record's size are read, and each is read as what was stored. */
  lemma FromBytesExact(data: seq<byte>, s: ProcStats)
    ensures FromBytes(data).Some? <==> |data| == RECORD_SIZE
    ensures FromBytes(data) == Some(s) <==> data == RECORD.enc(s)
  {
    RecordFixed();
    RecordExact();
    RecordLayout(s);
    CastExact(RECORD, RECORD_SIZE, data, s);
  }
}
