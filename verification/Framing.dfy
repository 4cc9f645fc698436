/** Length-prefixed messages over a byte stream (`procnet-core/src/ipc.rs`). */
module Framing {
  import opened Words
  import opened StatsTypes
  import opened Codec
  import opened Layout

  const PREFIX_LEN: nat := 2

  datatype WriteResult = Written | Oversized

  /** `Vec<u8>`, reused from message to message. */
  class ByteBuf {
    var bytes: seq<byte>

    constructor ()
      ensures bytes == []
    {
      bytes := [];
    }
  }

  ghost predicate Fits<T>(c: Codec<T>, msg: T) {
    |c.enc(msg)| <= U16_MAX
  }

  ghost function Frame<T>(c: Codec<T>, msg: T): seq<byte> {
    ToLe(PREFIX_LEN, |c.enc(msg)|) + c.enc(msg)
  }

  /** `write_msg`: whatever the buffer held, it ends up holding one frame, or the message was too large. */
  method WriteMsg<T>(buf: ByteBuf, c: Codec<T>, msg: T) returns (r: WriteResult)
    modifies buf
    ensures r == if Fits(c, msg) then Written else Oversized
    ensures r.Written? ==> buf.bytes == Frame(c, msg)
    ensures r.Oversized? ==> buf.bytes == [0, 0] + c.enc(msg)
  {
    buf.bytes := [];
    buf.bytes := buf.bytes + [0, 0];
    buf.bytes := buf.bytes + c.enc(msg);
    var payloadLen := |buf.bytes| - PREFIX_LEN;
    if payloadLen > U16_MAX {
      return Oversized;
    }
    var prefix := ToLe(PREFIX_LEN, payloadLen);
    assert prefix == [prefix[0], prefix[1]];
    buf.bytes := buf.bytes[0 := prefix[0]][1 := prefix[1]];
    return Written;
  }

  /** A frame's bytes: two for the length of the payload, the low one first, and the payload. */
  lemma FrameLayout<T>(c: Codec<T>, msg: T)
    requires Fits(c, msg)
    ensures Frame(c, msg) == [|c.enc(msg)| % 256, |c.enc(msg)| / 256] + c.enc(msg)
  {
    var n := |c.enc(msg)|;
    assert ToLe(1, n / 256) == [n / 256] + ToLe(0, n / 256 / 256);
    assert ToLe(2, n) == [n % 256] + ToLe(1, n / 256);
  }

  // Reading, as a function of the bytes that are left

  datatype Outcome<T> = Message(value: T, rest: seq<byte>) | Undecodable | OutOfBytes

  /** `read_msg` on a stream that will deliver exactly `s`. Bytes after a decoded value inside its frame are ignored. */
  function ReadOne<T>(c: Codec<T>, s: seq<byte>): Outcome<T> {
    if |s| < PREFIX_LEN then OutOfBytes
    else
      var n := FromLe(s[..PREFIX_LEN]);
      if |s| - PREFIX_LEN < n then OutOfBytes
      else
        match c.dec(s[PREFIX_LEN..PREFIX_LEN + n])
        case None => Undecodable
        case Some((x, _)) => Message(x, s[PREFIX_LEN + n..])
  }

  datatype End = OutOfInput | BadMessage

  /** What a read loop gets out of a stream before it stops. */
  function ReadAll<T>(c: Codec<T>, s: seq<byte>): (seq<T>, End)
    decreases |s|
  {
    match ReadOne(c, s)
    case OutOfBytes => ([], OutOfInput)
    case Undecodable => ([], BadMessage)
    case Message(x, rest) =>
      var (xs, end) := ReadAll(c, rest);
      ([x] + xs, end)
  }

  // Frames one after another

  ghost predicate AllFit<T>(c: Codec<T>, msgs: seq<T>) {
    forall i :: 0 <= i < |msgs| ==> Fits(c, msgs[i])
  }

  ghost function Stream<T>(c: Codec<T>, msgs: seq<T>): seq<byte> {
    if msgs == [] then [] else Frame(c, msgs[0]) + Stream(c, msgs[1..])
  }

  lemma {:induction false} StreamAppend<T>(c: Codec<T>, a: seq<T>, b: seq<T>)
    ensures Stream(c, a + b) == Stream(c, a) + Stream(c, b)
  {
    if a == [] {
      assert a + b == b;
    } else {
      assert (a + b)[0] == a[0] && (a + b)[1..] == a[1..] + b;
      StreamAppend(c, a[1..], b);
      var f, x, y := Frame(c, a[0]), Stream(c, a[1..]), Stream(c, b);
      assert f + (x + y) == (f + x) + y;
    }
  }

  lemma ReadFrame<T(!new)>(c: Codec<T>, msg: T, rest: seq<byte>)
    requires RoundTrips(c) && Fits(c, msg)
    ensures ReadOne(c, Frame(c, msg) + rest) == Message(msg, rest)
  {
    var s, body := Frame(c, msg) + rest, c.enc(msg);
    Pow256Widths();
    FromToLe(PREFIX_LEN, |body|);
    assert s[..PREFIX_LEN] == ToLe(PREFIX_LEN, |body|);
    assert s[PREFIX_LEN..PREFIX_LEN + |body|] == body == body + [];
    assert c.dec(body + []) == Some((msg, []));
    assert s[PREFIX_LEN + |body|..] == rest;
  }

  /** Inside a frame there is no message to read. */
  lemma ReadPartial<T>(c: Codec<T>, msg: T, k: nat)
    requires Fits(c, msg) && k < |Frame(c, msg)|
    ensures ReadOne(c, Frame(c, msg)[..k]) == OutOfBytes
  {
    Pow256Widths();
    FromToLe(PREFIX_LEN, |c.enc(msg)|);
    if k >= PREFIX_LEN {
      assert Frame(c, msg)[..k][..PREFIX_LEN] == ToLe(PREFIX_LEN, |c.enc(msg)|);
    }
  }

  /** How many whole frames the first `k` bytes of a stream hold. */
  ghost function WholeFrames<T>(c: Codec<T>, msgs: seq<T>, k: nat): (n: nat)
    ensures n <= |msgs|
  {
    if msgs == [] || k < |Frame(c, msgs[0])| then 0
    else 1 + WholeFrames(c, msgs[1..], k - |Frame(c, msgs[0])|)
  }

  /** It is the number of frames that lie wholly before byte `k`. */
  lemma {:induction false} WholeFramesExact<T>(c: Codec<T>, msgs: seq<T>, k: nat)
    ensures |Stream(c, msgs[..WholeFrames(c, msgs, k)])| <= k
    ensures WholeFrames(c, msgs, k) < |msgs| ==> k < |Stream(c, msgs[..WholeFrames(c, msgs, k) + 1])|
  {
    var n := WholeFrames(c, msgs, k);
    if msgs != [] && k >= |Frame(c, msgs[0])| {
      WholeFramesExact(c, msgs[1..], k - |Frame(c, msgs[0])|);
      assert msgs[..n][1..] == msgs[1..][..n - 1];
      if n < |msgs| {
        assert msgs[..n + 1][1..] == msgs[1..][..n];
      }
    } else if msgs != [] {
      assert msgs[..1] == [msgs[0]];
      assert Stream(c, [msgs[0]]) == Frame(c, msgs[0]) + Stream(c, [msgs[0]][1..]);
    }
  }

  /**
   Cut a stream of frames at any byte: the reader gets exactly the messages whose frames lie wholly
   before the cut, and then runs out of input.
   */
  lemma {:induction false} CutStream<T(!new)>(c: Codec<T>, msgs: seq<T>, k: nat)
    requires RoundTrips(c) && AllFit(c, msgs) && k <= |Stream(c, msgs)|
    ensures ReadAll(c, Stream(c, msgs)[..k]) == (msgs[..WholeFrames(c, msgs, k)], OutOfInput)
  {
    if msgs != [] {
      var f := Frame(c, msgs[0]);
      var s := Stream(c, msgs);
      if k < |f| {
        assert s[..k] == f[..k];
        ReadPartial(c, msgs[0], k);
      } else {
        assert s[..k] == f + Stream(c, msgs[1..])[..k - |f|];
        ReadFrame(c, msgs[0], Stream(c, msgs[1..])[..k - |f|]);
        CutStream(c, msgs[1..], k - |f|);
        var n := WholeFrames(c, msgs, k);
        assert msgs[..n] == [msgs[0]] + msgs[1..][..n - 1];
      }
    }
  }

  lemma {:induction false} WholeStream<T>(c: Codec<T>, msgs: seq<T>, k: nat)
    requires k >= |Stream(c, msgs)|
    ensures WholeFrames(c, msgs, k) == |msgs|
  {
    if msgs != [] {
      WholeStream(c, msgs[1..], k - |Frame(c, msgs[0])|);
    }
  }

  /** Any list of messages that fit reads back as that list, then end of input. */
  lemma StreamRoundTrip<T(!new)>(c: Codec<T>, msgs: seq<T>)
    requires RoundTrips(c) && AllFit(c, msgs)
    ensures ReadAll(c, Stream(c, msgs)) == (msgs, OutOfInput)
  {
    var s := Stream(c, msgs);
    CutStream(c, msgs, |s|);
    WholeStream(c, msgs, |s|);
    assert s[..|s|] == s && msgs[..|msgs|] == msgs;
  }

  lemma ReadFirst<T(!new)>(c: Codec<T>, msg: T, rest: seq<byte>)
    requires RoundTrips(c) && Fits(c, msg)
    ensures ReadAll(c, Frame(c, msg) + rest) == ([msg] + ReadAll(c, rest).0, ReadAll(c, rest).1)
  {
    ReadFrame(c, msg, rest);
  }

  lemma StreamCons<T>(c: Codec<T>, msgs: seq<T>, tail: seq<byte>)
    requires msgs != []
    ensures Stream(c, msgs) + tail == Frame(c, msgs[0]) + (Stream(c, msgs[1..]) + tail)
  {
    Associative(Frame(c, msgs[0]), Stream(c, msgs[1..]), tail);
  }

  lemma HeadAndRest<T>(a: seq<T>, b: seq<T>)
    requires a != []
    ensures [a[0]] + (a[1..] + b) == a + b
  {
  }

  /** Whatever follows a list of frames, a reader gets the whole list and then what that says. */
  lemma {:induction false} ReadAllAfter<T(!new)>(c: Codec<T>, msgs: seq<T>, tail: seq<byte>)
    requires RoundTrips(c) && AllFit(c, msgs)
    ensures ReadAll(c, Stream(c, msgs) + tail) == (msgs + ReadAll(c, tail).0, ReadAll(c, tail).1)
  {
    if msgs == [] {
      assert Stream(c, msgs) + tail == tail && [] + ReadAll(c, tail).0 == ReadAll(c, tail).0;
    } else {
      StreamCons(c, msgs, tail);
      ReadFirst(c, msgs[0], Stream(c, msgs[1..]) + tail);
      ReadAllAfter(c, msgs[1..], tail);
      HeadAndRest(msgs, ReadAll(c, tail).0);
    }
  }

  /** So a frame that does not decode ends the reading with an error, and nothing after it is read. */
  lemma BadFrameEnds<T(!new)>(c: Codec<T>, msgs: seq<T>, tail: seq<byte>)
    requires RoundTrips(c) && AllFit(c, msgs) && ReadOne(c, tail).Undecodable?
    ensures ReadAll(c, Stream(c, msgs) + tail) == (msgs, BadMessage)
  {
    ReadAllAfter(c, msgs, tail);
    assert msgs + [] == msgs;
  }

  // How large a snapshot may be

  /** `write_msg` accepts a snapshot exactly up to this size. */
  lemma SnapshotFits(s: SnapshotData)
    ensures Fits(SNAPSHOT, s) <==> 32 + SumBy(RowSize, s.rows) + SumBy(InfoSize, s.deadProcs) <= 65535
  {
    SnapshotLength(s);
  }

  /** A full map of processes with names of four bytes or more never fits in a frame. */
  lemma FullMapNeverFits(s: SnapshotData)
    requires |s.rows| >= MAP_SIZE && forall i :: 0 <= i < |s.rows| ==> |s.rows[i].name| >= 4
    ensures !Fits(SNAPSHOT, s)
  {
    SnapshotFits(s);
    SumAtLeast(RowSize, s.rows, 128);
    assert |s.rows| * 128 >= 512 * 128;
  }

  /** With names of at most `n` bytes, this many rows and dead processes always fit. */
  lemma SmallEnoughFits(s: SnapshotData, n: nat)
    requires forall i :: 0 <= i < |s.rows| ==> |s.rows[i].name| <= n
    requires forall i :: 0 <= i < |s.deadProcs| ==> |s.deadProcs[i].name| <= n
    requires 32 + |s.rows| * (124 + n) + |s.deadProcs| * (44 + n) <= 65535
    ensures Fits(SNAPSHOT, s)
  {
    SnapshotFits(s);
    SumAtMost(RowSize, s.rows, 124 + n);
    SumAtMost(InfoSize, s.deadProcs, 44 + n);
  }
}
