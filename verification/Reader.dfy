/** Buffered reading from a socket that delivers its bytes in chunks of any size (`ipc.rs`, `read_msg`). */
module Reader {
  import opened Words
  import opened Codec
  import opened Framing

  lemma SliceTwice(s: seq<byte>, a: nat, n: nat)
    requires a + n <= |s|
    ensures s[a..][..n] == s[a..a + n] && s[a..][n..] == s[a + n..]
  {
  }

  datatype Chunk = Data(bytes: seq<byte>) | Failed

  /**
   A connection: `pending` is all the peer will ever have sent that was not read yet. After it the
   stream ends, or fails when `broken`. Read number `k` delivers at most `chunk(k)` bytes.
   */
  class Socket {
    var pending: seq<byte>
    var turn: nat
    const chunk: nat -> nat
    const broken: bool

    constructor (pending: seq<byte>, chunk: nat -> nat, broken: bool)
      ensures this.pending == pending && this.chunk == chunk && this.broken == broken && turn == 0
    {
      this.pending := pending;
      this.chunk := chunk;
      this.broken := broken;
      this.turn := 0;
    }

    method Read(max: nat) returns (r: Chunk)
      requires max > 0
      modifies this
      ensures old(pending) == [] ==> pending == [] && turn == old(turn) && r == if broken then Failed else Data([])
      ensures old(pending) != [] ==>
                var n := Delivered(chunk(old(turn)), max, |old(pending)|);
                r == Data(old(pending)[..n]) && pending == old(pending)[n..] && turn == old(turn) + 1
    {
      if pending == [] {
        return if broken then Failed else Data([]);
      }
      var n := Delivered(chunk(turn), max, |pending|);
      r := Data(pending[..n]);
      pending := pending[n..];
      turn := turn + 1;
    }
  }

  /** How many bytes a read delivers: at least one, at most `max`. */
  function Delivered(chunk: nat, max: nat, left: nat): (n: nat)
    requires max > 0 && left > 0
    ensures 0 < n <= max && n <= left
  {
    Min(Min(Max(1, chunk), max), left)
  }

  datatype Exactly = Filled(bytes: seq<byte>) | Short | Broken

  const BUF_CAPACITY: nat := 8192

  // How far a buffered reader has got, in numbers: reads made, bytes buffered, bytes not fetched yet

  datatype Meter = Meter(turn: nat, have: nat, left: nat)

  /** A read for `max` bytes: where it leaves the meter, and how many bytes it gives. */
  function Took(chunk: nat -> nat, m: Meter, max: nat): (r: (Meter, nat))
    requires max > 0
    ensures r.1 <= max
  {
    if m.have > 0 then (m.(have := m.have - Min(max, m.have)), Min(max, m.have))
    else if m.left == 0 then (m, 0)
    else
      var n := Delivered(chunk(m.turn), Max(max, BUF_CAPACITY), m.left);
      if max >= BUF_CAPACITY then (Meter(m.turn + 1, 0, m.left - n), n)
      else (Meter(m.turn + 1, n - Min(max, n), m.left - n), Min(max, n))
  }

  /** Where reading exactly `n` bytes leaves it. */
  function After(chunk: nat -> nat, m: Meter, n: nat): Meter
    decreases m.left
  {
    if n <= m.have then m.(have := m.have - n)
    else if m.left == 0 then Meter(m.turn, 0, 0)
    else
      var need := n - m.have;
      var got := Delivered(chunk(m.turn), Max(need, BUF_CAPACITY), m.left);
      if need >= BUF_CAPACITY then After(chunk, Meter(m.turn + 1, 0, m.left - got), need - got)
      else After(chunk, Meter(m.turn + 1, got, m.left - got), need)
  }

  /** Reading exactly is reading again for what is missing. */
  lemma AfterTook(chunk: nat -> nat, m: Meter, n: nat)
    requires n > 0
    ensures var (m', k) := Took(chunk, m, n);
            After(chunk, m, n) == if k == 0 then m' else After(chunk, m', n - k)
  {
  }

  /** It never leaves a full buffer behind. */
  lemma {:induction false} AfterHave(chunk: nat -> nat, m: Meter, n: nat)
    requires m.have < BUF_CAPACITY
    ensures After(chunk, m, n).have < BUF_CAPACITY
    decreases m.left
  {
    if n > m.have && m.left > 0 {
      var need := n - m.have;
      var got := Delivered(chunk(m.turn), Max(need, BUF_CAPACITY), m.left);
      if need >= BUF_CAPACITY {
        AfterHave(chunk, Meter(m.turn + 1, 0, m.left - got), need - got);
      } else if need <= got {
        assert After(chunk, Meter(m.turn + 1, got, m.left - got), need).have == got - need;
      } else {
        AfterHave(chunk, Meter(m.turn + 1, got, m.left - got), need);
      }
    }
  }

  /** `std::io::BufReader` */
  class BufReader {
    const socket: Socket
    var buf: seq<byte>

    constructor (socket: Socket)
      ensures this.socket == socket && buf == [] && Content() == socket.pending
    {
      this.socket := socket;
      buf := [];
      new;
      assert [] + socket.pending == socket.pending;
    }

    /** The bytes a reader of this object will see. */
    ghost function Content(): seq<byte>
      reads this, socket
    {
      buf + socket.pending
    }

    function Now(): Meter
      reads this, socket
    {
      Meter(socket.turn, |buf|, |socket.pending|)
    }

    /** Fill the empty buffer with one read; at the end of the stream it stays empty. */
    method Fill() returns (failed: bool)
      requires buf == []
      modifies this, socket
      ensures Content() == old(Content()) && failed == (Content() == [] && socket.broken)
      ensures var m := old(Now());
              if m.left == 0 then Now() == m
              else
                var n := Delivered(socket.chunk(m.turn), BUF_CAPACITY, m.left);
                Now() == Meter(m.turn + 1, n, m.left - n)
    {
      var r := socket.Read(BUF_CAPACITY);
      if r.Failed? {
        return true;
      }
      buf := r.bytes;
      return false;
    }

    /** Bytes that are in the buffer. */
    method TakeBuffered(max: nat) returns (bytes: seq<byte>)
      modifies this`buf
      ensures |bytes| == Min(max, |old(buf)|) && old(Content()) == bytes + Content()
      ensures Now() == old(Now()).(have := |old(buf)| - |bytes|)
    {
      var n := Min(max, |buf|);
      bytes := buf[..n];
      Associative(bytes, buf[n..], socket.pending);
      buf := buf[n..];
    }

    method Read(max: nat) returns (r: Chunk)
      requires max > 0
      modifies this, socket
      ensures old(Content()) == [] ==> Content() == [] && r == if socket.broken then Failed else Data([])
      ensures old(Content()) != [] ==> r.Data? && 0 < |r.bytes| <= max && old(Content()) == r.bytes + Content()
      ensures Now() == Took(socket.chunk, old(Now()), max).0
      ensures r.Data? ==> |r.bytes| == Took(socket.chunk, old(Now()), max).1
    {
      if buf == [] && max >= BUF_CAPACITY {
        r := socket.Read(max);
        return;
      }
      if buf == [] {
        var failed := Fill();
        if failed {
          return Failed;
        }
      }
      var bytes := TakeBuffered(max);
      r := Data(bytes);
    }

    /** One read on the way to exactly `n` bytes. */
    method ReadTowards(n: nat) returns (r: Chunk)
      requires n > 0
      modifies this, socket
      ensures old(Content()) == [] ==> Content() == [] && r == if socket.broken then Failed else Data([])
      ensures old(Content()) != [] ==> r.Data? && 0 < |r.bytes| <= n && old(Content()) == r.bytes + Content()
      ensures After(socket.chunk, old(Now()), n)
              == if r.Failed? || r.bytes == [] then Now() else After(socket.chunk, Now(), n - |r.bytes|)
    {
      AfterTook(socket.chunk, Now(), n);
      r := Read(n);
    }

    /** The same with the `got` bytes that are there already. */
    method ReadOn(got: seq<byte>, n: nat) returns (more: seq<byte>, r: Chunk)
      requires |got| < n
      modifies this, socket
      ensures got + old(Content()) == more + Content() && |more| <= n
      ensures if r.Data? && r.bytes != [] then |got| < |more|
              else more == got && Content() == [] && r.Failed? == socket.broken
      ensures After(socket.chunk, old(Now()), n - |got|)
              == if r.Failed? || r.bytes == [] then Now() else After(socket.chunk, Now(), n - |more|)
    {
      r := ReadTowards(n - |got|);
      if r.Failed? || r.bytes == [] {
        return got, r;
      }
      more := got + r.bytes;
      Associative(got, r.bytes, Content());
      assert |more| == |got| + |r.bytes|;
    }

    /** `read_exact`: chunking never shows in what is read, only in how much was fetched for it. */
    method ReadExact(n: nat) returns (r: Exactly)
      modifies this, socket
      ensures |old(Content())| >= n ==> r == Filled(old(Content())[..n]) && Content() == old(Content())[n..]
      ensures |old(Content())| < n ==> Content() == [] && r == if socket.broken then Broken else Short
      ensures Now() == After(socket.chunk, old(Now()), n)
    {
      var got: seq<byte> := [];
      ghost var all, meter := Content(), After(socket.chunk, Now(), n);
      while |got| < n
        invariant |got| <= n && all == got + Content()
        invariant meter == After(socket.chunk, Now(), n - |got|)
        decreases n - |got|
      {
        var c;
        got, c := ReadOn(got, n);
        if c.Failed? {
          return Broken;
        }
        if c.bytes == [] {
          return Short;
        }
      }
      r := Filled(got);
      FirstPart(got, Content());
    }
  }

  lemma FirstPart(a: seq<byte>, b: seq<byte>)
    ensures (a + b)[..|a|] == a && (a + b)[|a|..] == b
  {
  }

  datatype ReadResult<T> = Got(value: T) | Eof | Io | Decode

  /** The length a frame at the head of `s` claims to have. */
  function FrameLength(s: seq<byte>): nat {
    if |s| < PREFIX_LEN then PREFIX_LEN else PREFIX_LEN + FromLe(s[..PREFIX_LEN])
  }

  /** Where reading one frame of `length` bytes leaves the meter. */
  function AfterFrame(chunk: nat -> nat, m: Meter, length: nat): Meter
    requires length >= PREFIX_LEN
  {
    After(chunk, After(chunk, m, PREFIX_LEN), length - PREFIX_LEN)
  }

  /** The bytes of `read_msg`: one frame, without its prefix. */
  method NextFrame(reader: BufReader) returns (r: Exactly)
    modifies reader, reader.socket
    ensures var s := old(reader.Content());
            if FrameLength(s) <= |s|
            then r == Filled(s[PREFIX_LEN..FrameLength(s)]) && reader.Content() == s[FrameLength(s)..]
            else r == if reader.socket.broken then Broken else Short
    ensures var s := old(reader.Content());
            |s| >= PREFIX_LEN ==> reader.Now() == AfterFrame(reader.socket.chunk, old(reader.Now()), FrameLength(s))
  {
    ghost var s := reader.Content();
    r := reader.ReadExact(PREFIX_LEN);
    if r.Filled? {
      r := ReadBody(reader, FromLe(r.bytes), s);
    }
  }

  /** The payload, once the prefix of the frame at the head of `s` was read. */
  method ReadBody(reader: BufReader, n: nat, ghost s: seq<byte>) returns (r: Exactly)
    requires |s| >= PREFIX_LEN && reader.Content() == s[PREFIX_LEN..] && FrameLength(s) == PREFIX_LEN + n
    modifies reader, reader.socket
    ensures if FrameLength(s) <= |s|
            then r == Filled(s[PREFIX_LEN..FrameLength(s)]) && reader.Content() == s[FrameLength(s)..]
            else r == if reader.socket.broken then Broken else Short
    ensures reader.Now() == After(reader.socket.chunk, old(reader.Now()), n)
  {
    r := reader.ReadExact(n);
    if r.Filled? {
      SliceTwice(s, PREFIX_LEN, n);
    }
  }

  /** `read_msg` */
  method ReadMsg<T>(reader: BufReader, c: Codec<T>) returns (r: ReadResult<T>)
    modifies reader, reader.socket
    ensures match ReadOne(c, old(reader.Content()))
            case Message(x, rest) => r == Got(x) && reader.Content() == rest
            case Undecodable => r == Decode
            case OutOfBytes => r == if reader.socket.broken then Io else Eof
    ensures var s := old(reader.Content());
            |s| >= PREFIX_LEN ==> reader.Now() == AfterFrame(reader.socket.chunk, old(reader.Now()), FrameLength(s))
  {
    var frame := NextFrame(reader);
    match frame {
      case Short => return Eof;
      case Broken => return Io;
      case Filled(body) =>
        var decoded := c.dec(body);
        r := match decoded case None => Decode case Some((x, _)) => Got(x);
    }
  }

  lemma ReadOneMore<T>(c: Codec<T>, s: seq<byte>, x: T, rest: seq<byte>, msgs: seq<T>)
    requires ReadOne(c, s) == Message(x, rest)
    ensures msgs + ReadAll(c, s).0 == msgs + [x] + ReadAll(c, rest).0 && ReadAll(c, s).1 == ReadAll(c, rest).1
  {
  }

  /** The read loop of a client: every message until the first error. */
  method ReadLoop<T>(reader: BufReader, c: Codec<T>) returns (msgs: seq<T>, last: ReadResult<T>)
    modifies reader, reader.socket
    ensures msgs == ReadAll(c, old(reader.Content())).0
    ensures last == if ReadAll(c, old(reader.Content())).1.BadMessage? then Decode
                    else if reader.socket.broken then Io else Eof
  {
    msgs := [];
    assert msgs + ReadAll(c, reader.Content()).0 == ReadAll(c, reader.Content()).0;
    while true
      invariant ReadAll(c, old(reader.Content())) ==
                (msgs + ReadAll(c, reader.Content()).0, ReadAll(c, reader.Content()).1)
      decreases |reader.Content()|
    {
      ghost var s := reader.Content();
      var r := ReadMsg(reader, c);
      if !r.Got? {
        return msgs, r;
      }
      ReadOneMore(c, s, r.value, reader.Content(), msgs);
      msgs := msgs + [r.value];
    }
  }
}
