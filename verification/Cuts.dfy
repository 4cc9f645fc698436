/**
 What replacing the first reader of a connection does to the commands that follow `Run`: the bytes it
 had read ahead are gone, so the second reader starts somewhere in the client's stream, on a frame
 boundary or inside a frame.
 */
module Cuts {
  import opened Words
  import opened StatsTypes
  import opened Codec
  import opened Layout
  import opened Framing
  import opened Reader
  import opened Daemon
  import opened Handover

  // On a frame boundary

  lemma {:induction false} StreamPrefix<T>(c: Codec<T>, msgs: seq<T>, j: nat)
    requires j <= |msgs|
    ensures |Stream(c, msgs)| == |Stream(c, msgs[..j])| + |Stream(c, msgs[j..])|
    ensures Stream(c, msgs)[|Stream(c, msgs[..j])|..] == Stream(c, msgs[j..])
  {
    assert msgs == msgs[..j] + msgs[j..];
    StreamAppend(c, msgs[..j], msgs[j..]);
  }

  /** Every command fits in a frame of at most 14 bytes. */
  lemma CommandsFit(cmds: seq<DaemonCommand>)
    ensures AllFit(COMMAND, cmds)
  {
  }

  /**
   When the read-ahead ends on a frame boundary, after `j` of the client's messages, the second reader
   sees exactly the messages from there on: a suffix of those sent.
   */
  lemma AlignedHandoverIsSuffix(sent: seq<DaemonCommand>, j: nat)
    requires j <= |sent|
    ensures |Stream(COMMAND, sent[..j])| <= |Stream(COMMAND, sent)|
    ensures ReadAll(COMMAND, Stream(COMMAND, sent)[|Stream(COMMAND, sent[..j])|..]) == (sent[j..], OutOfInput)
  {
    StreamPrefix(COMMAND, sent, j);
    CommandExact();
    CommandsFit(sent[j..]);
    StreamRoundTrip(COMMAND, sent[j..]);
  }

  // Nothing is lost exactly when nothing was read ahead

  /** What is read from some bytes needs no more bytes than these to write. */
  lemma {:induction false} ReadNeedsBytes<T(!new)>(c: Codec<T>, s: seq<byte>)
    requires Canonical(c)
    ensures |Stream(c, ReadAll(c, s).0)| <= |s|
    decreases |s|
  {
    match ReadOne(c, s)
    case Message(x, rest) =>
      ReadNeedsBytes(c, rest);
      var n := FromLe(s[..PREFIX_LEN]);
      var body := s[PREFIX_LEN..PREFIX_LEN + n];
      assert body == c.enc(c.dec(body).value.0) + c.dec(body).value.1;
      var xs := ReadAll(c, rest).0;
      assert ([x] + xs)[1..] == xs;
      assert |Stream(c, [x] + xs)| == |Frame(c, x)| + |Stream(c, xs)|;
    case _ =>
  }

  /** The whole of what followed the first command arrives exactly when nothing of it had been read ahead. */
  lemma NothingLostIffNothingBuffered(sent: seq<DaemonCommand>, fetched: nat)
    requires sent != [] && |Frame(COMMAND, sent[0])| <= fetched <= |Stream(COMMAND, sent)|
    ensures ReadAll(COMMAND, Stream(COMMAND, sent)[fetched..]).0 == sent[1..] <==> fetched == |Frame(COMMAND, sent[0])|
  {
    CommandExact();
    var s := Stream(COMMAND, sent);
    ReadNeedsBytes(COMMAND, s[fetched..]);
    assert sent[..1] == [sent[0]] && [sent[0]][1..] == [];
    assert Stream(COMMAND, sent[..1]) == Frame(COMMAND, sent[0]) + Stream(COMMAND, []);
    AlignedHandoverIsSuffix(sent, 1);
  }

  // The bytes of a command's frame

  function Tag(cmd: DaemonCommand): byte {
    match cmd
    case Run => 0
    case Interval(_) => 1
    case IntervalIncrease => 2
    case IntervalDecrease => 3
    case Reset => 4
  }

  /** The length and the variant number. */
  function Head(cmd: DaemonCommand): seq<byte> {
    [if cmd.Interval? then 12 else 4, 0, Tag(cmd), 0, 0, 0]
  }

  function FrameBytes(cmd: DaemonCommand): seq<byte> {
    Head(cmd) + if cmd.Interval? then ToLe(8, cmd.interval) else []
  }

  lemma Le2(x: byte)
    ensures ToLe(2, x) == [x, 0]
  {
    assert ToLe(2, x) == [x] + ToLe(1, 0);
    assert ToLe(1, 0) == [0] + ToLe(0, 0);
  }

  lemma Le4(x: byte)
    ensures ToLe(4, x) == [x, 0, 0, 0]
  {
    assert ToLe(4, x) == [x] + ToLe(3, 0);
    assert ToLe(3, 0) == [0] + ToLe(2, 0);
    Le2(0);
  }

  lemma FrameIs(cmd: DaemonCommand)
    ensures Frame(COMMAND, cmd) == FrameBytes(cmd)
  {
    Le2(|EncCommand(cmd)|);
    Le4(Tag(cmd));
  }

  /** How the bytes after a frame begin: with nothing, or with another frame's head. */
  ghost predicate FrameStarts(rest: seq<byte>) {
    rest != [] ==>
      && |rest| >= 6 && rest[1] == 0 && rest[3] == 0 && rest[4] == 0 && rest[5] == 0
      && if rest[0] == 12 then rest[2] == 1 else rest[0] == 4 && (rest[2] == 0 || 2 <= rest[2] <= 4)
  }

  lemma StreamStarts(cmds: seq<DaemonCommand>)
    ensures FrameStarts(Stream(COMMAND, cmds))
    ensures cmds == [] <==> Stream(COMMAND, cmds) == []
    ensures cmds != [] ==> (Stream(COMMAND, cmds)[2] == 0 <==> cmds[0].Run?)
  {
    if cmds != [] {
      FrameIs(cmds[0]);
      var rest := Stream(COMMAND, cmds[1..]);
      assert Stream(COMMAND, cmds) == FrameBytes(cmds[0]) + rest;
      assert FrameBytes(cmds[0])[..6] == Head(cmds[0]);
      assert forall i :: 0 <= i < 6 ==> (FrameBytes(cmds[0]) + rest)[i] == Head(cmds[0])[i];
    }
  }

  // Reading from an arbitrary byte

  function Half(a: byte, b: byte): nat {
    a + 256 * b
  }

  function Word(a: byte, b: byte, c: byte, d: byte): nat {
    a + 256 * (b + 256 * (c + 256 * d))
  }

  lemma FromLe2(s: seq<byte>)
    requires |s| == 2
    ensures FromLe(s) == Half(s[0], s[1])
  {
    assert s[1..][1..] == [];
    assert FromLe(s[1..]) == s[1] + 256 * FromLe([]);
  }

  lemma FromLe4(s: seq<byte>)
    requires |s| == 4
    ensures FromLe(s) == Word(s[0], s[1], s[2], s[3])
  {
    var t := s[2..];
    FromLe2(t);
    assert s[1..][1..] == t;
    assert FromLe(s) == s[0] + 256 * FromLe(s[1..]);
    assert FromLe(s[1..]) == s[1] + 256 * FromLe(t);
  }

  /** A length and a variant number under which a command decodes. */
  predicate Decodes(length: nat, tag: nat) {
    (length >= 4 && (tag == 0 || 2 <= tag <= 4)) || (length >= 12 && tag == 1)
  }

  /** A command can be read at the head of `s`. */
  ghost predicate Yields(s: seq<byte>) {
    && |s| >= 6
    && 2 + Half(s[0], s[1]) <= |s|
    && Decodes(Half(s[0], s[1]), Word(s[2], s[3], s[4], s[5]))
  }

  lemma TagOf(body: seq<byte>)
    requires |body| >= 4
    ensures DecU32(body) == Some((Word(body[0], body[1], body[2], body[3]), body[4..]))
  {
    FromLe4(body[..4]);
  }

  lemma DecodesByTag(body: seq<byte>, tag: u32, r: seq<byte>)
    requires DecU32(body) == Some((tag, r))
    ensures COMMAND.dec(body).Some? <==> Decodes(4 + |r|, tag)
    ensures COMMAND.dec(body).Some? ==> (COMMAND.dec(body).value.0.Run? <==> tag == 0)
  {
    var eight := DecU64(r);
    assert eight.Some? <==> |r| >= 8;
  }

  /** What a payload decodes to, as far as it matters here. */
  lemma DecodesExactly(body: seq<byte>)
    ensures COMMAND.dec(body).Some? <==> |body| >= 4 && Decodes(|body|, Word(body[0], body[1], body[2], body[3]))
    ensures COMMAND.dec(body).Some? ==>
              (COMMAND.dec(body).value.0.Run? <==> Word(body[0], body[1], body[2], body[3]) == 0)
  {
    if |body| >= 4 {
      TagOf(body);
      DecodesByTag(body, DecU32(body).value.0, body[4..]);
    }
  }

  lemma ReadsExactly(s: seq<byte>)
    ensures ReadOne(COMMAND, s).Message? <==> Yields(s)
    ensures Yields(s) ==> (ReadOne(COMMAND, s).value.Run? <==> Word(s[2], s[3], s[4], s[5]) == 0)
  {
    if |s| >= PREFIX_LEN {
      FromLe2(s[..PREFIX_LEN]);
      var n := Half(s[0], s[1]);
      if PREFIX_LEN + n <= |s| {
        var body := s[PREFIX_LEN..PREFIX_LEN + n];
        DecodesExactly(body);
        if n >= 4 {
          assert body[0] == s[2] && body[1] == s[3] && body[2] == s[4] && body[3] == s[5];
        }
      }
    }
  }

  // Inside a frame

  /** The length that the bytes at offset `o` of an interval's frame would announce; `b` are the interval's bytes. */
  function Claimed(b: seq<byte>, o: nat): nat
    requires |b| == 8 && 5 <= o <= 12
  {
    if o == 5 then Half(0, b[0]) else Half(b[o - 6], b[o - 5])
  }

  /** The variant number they would announce, when it is inside the interval too. */
  function ClaimedTag(b: seq<byte>, o: nat): nat
    requires |b| == 8 && 5 <= o <= 8
  {
    Word(b[o - 4], b[o - 3], b[o - 2], b[o - 1])
  }

  /** The length announced at offset `o` of an interval's frame, where one can be. */
  function LengthIn(b: seq<byte>, o: nat): nat
    requires |b| == 8
  {
    if o == 1 then 256 else if o == 13 then Half(b[7], 4) else if 5 <= o <= 12 then Claimed(b, o) else 0
  }

  /** From offset `o` on, an interval's frame spells a frame of another command. */
  predicate SpellsIn(b: seq<byte>, o: nat, runNext: bool)
    requires |b| == 8
  {
    || (o == 1 && b[0] == 0)
    || (5 <= o <= 8 && Decodes(Claimed(b, o), ClaimedTag(b, o)))
    || (runNext && ((o == 12 && Claimed(b, o) >= 4) || o == 13))
  }

  /** That command is a `Run`. */
  predicate SpellsRunIn(b: seq<byte>, o: nat)
    requires |b| == 8
  {
    o == 1 || o == 13 || (5 <= o <= 8 && ClaimedTag(b, o) == 0)
  }

  /**
   The same of any command's frame. Only intervals spell a frame by themselves; before a `Run` every
   command does in its last byte, and an interval in its last two.
   */
  predicate Spells(cmd: DaemonCommand, o: nat, runNext: bool) {
    if cmd.Interval? then SpellsIn(ToLe(8, cmd.interval), o, runNext) else o == 5 && runNext
  }

  function SpelledLength(cmd: DaemonCommand, o: nat): nat {
    if cmd.Interval? then LengthIn(ToLe(8, cmd.interval), o) else Half(0, 4)
  }

  predicate SpellsRun(cmd: DaemonCommand, o: nat) {
    cmd.Interval? ==> SpellsRunIn(ToLe(8, cmd.interval), o)
  }

  /** `s` yields a command when `spelled`, and then a `Run` when `run`. */
  ghost predicate YieldsWhen(s: seq<byte>, spelled: bool, run: bool) {
    && (Yields(s) <==> spelled)
    && (Yields(s) ==> (Word(s[2], s[3], s[4], s[5]) == 0 <==> run))
  }

  /** A number with anything above its lowest byte is no variant number. */
  lemma WordParts(a: byte, b: byte, c: byte, d: byte)
    ensures if b == 0 && c == 0 && d == 0 then Word(a, b, c, d) == a else Word(a, b, c, d) >= 256
  {
  }

  /** `s` is the frame of another command, with variant number `t`, from offset `o` on, and what follows it. */
  ghost predicate ShortFrom(t: byte, o: nat, rest: seq<byte>, s: seq<byte>) {
    && o < 6 && |s| == 6 - o + |rest|
    && forall i :: 0 <= i < |s| ==> s[i] == if o + i < 6 then [4, 0, t, 0, 0, 0][o + i] else rest[o + i - 6]
  }

  lemma InsideShort(t: byte, o: nat, rest: seq<byte>, s: seq<byte>)
    requires ShortFrom(t, o, rest, s) && 0 < o < 6 && t <= 4 && FrameStarts(rest)
    ensures YieldsWhen(s, o == 5 && rest != [] && rest[2] == 0 && o + 2 + Half(0, 4) <= 6 + |rest|, true)
  {
    if rest != [] {
      WordParts(s[2], s[3], s[4], s[5]);
      if o == 5 {
        assert s[0] == 0 && s[1] == rest[0] && s[2] == 0 && s[3] == rest[2] && s[4] == 0 && s[5] == 0;
      } else if o <= 2 {
        assert s[6 - o] == rest[0] && 4 <= 6 - o <= 5;
      } else {
        assert s[0] == 0 && s[1] == 0;
      }
    }
  }

  /** `s` is the frame of an interval with bytes `b` from offset `o` on, and what follows it. */
  ghost predicate LongFrom(b: seq<byte>, o: nat, rest: seq<byte>, s: seq<byte>)
    requires |b| == 8
  {
    && o < 14 && |s| == 14 - o + |rest|
    && forall i :: 0 <= i < |s| ==> s[i] == ByteAt(b, rest, o + i)
  }

  function ByteAt(b: seq<byte>, rest: seq<byte>, i: nat): byte
    requires |b| == 8 && i < 14 + |rest|
  {
    if i < 6 then [12, 0, 1, 0, 0, 0][i] else if i < 14 then b[i - 6] else rest[i - 14]
  }

  ghost predicate YieldsAsSpelled(b: seq<byte>, o: nat, rest: seq<byte>, s: seq<byte>)
    requires |b| == 8 && FrameStarts(rest)
  {
    YieldsWhen(s, SpellsIn(b, o, rest != [] && rest[2] == 0) && o + 2 + LengthIn(b, o) <= 14 + |rest|,
               SpellsRunIn(b, o))
  }

  lemma InsideEarly(b: seq<byte>, o: nat, rest: seq<byte>, s: seq<byte>)
    requires |b| == 8 && LongFrom(b, o, rest, s) && 0 < o < 5 && FrameStarts(rest)
    ensures YieldsAsSpelled(b, o, rest, s)
  {
    WordParts(s[2], s[3], s[4], s[5]);
  }

  lemma InsideMiddle(b: seq<byte>, o: nat, rest: seq<byte>, s: seq<byte>)
    requires |b| == 8 && LongFrom(b, o, rest, s) && 5 <= o <= 8 && FrameStarts(rest)
    ensures YieldsAsSpelled(b, o, rest, s)
  {
    assert s[2] == b[o - 4] && s[3] == b[o - 3] && s[4] == b[o - 2] && s[5] == b[o - 1];
  }

  lemma InsideLate(b: seq<byte>, o: nat, rest: seq<byte>, s: seq<byte>)
    requires |b| == 8 && LongFrom(b, o, rest, s) && 9 <= o < 14 && FrameStarts(rest)
    ensures YieldsAsSpelled(b, o, rest, s)
  {
    if rest != [] {
      WordParts(s[2], s[3], s[4], s[5]);
      if o < 12 {
        assert s[14 - o] == rest[0] && 3 <= 14 - o <= 5;
      } else if o == 12 {
        assert s[2] == rest[0] && s[3] == 0 && s[4] == rest[2] && s[5] == 0;
      } else {
        assert s[1] == rest[0] && s[2] == 0 && s[3] == rest[2] && s[4] == 0 && s[5] == 0;
      }
    }
  }

  lemma LongFrame(cmd: DaemonCommand, o: nat, rest: seq<byte>)
    requires cmd.Interval? && o < 14
    ensures LongFrom(ToLe(8, cmd.interval), o, rest, FrameBytes(cmd)[o..] + rest)
  {
    var b := ToLe(8, cmd.interval);
    assert FrameBytes(cmd) == [12, 0, 1, 0, 0, 0] + b;
  }

  lemma Inside(cmd: DaemonCommand, o: nat, rest: seq<byte>)
    requires 0 < o < |FrameBytes(cmd)| && FrameStarts(rest)
    ensures YieldsWhen(FrameBytes(cmd)[o..] + rest,
                       Spells(cmd, o, rest != [] && rest[2] == 0)
                       && o + 2 + SpelledLength(cmd, o) <= |FrameBytes(cmd)| + |rest|,
                       SpellsRun(cmd, o))
  {
    if !cmd.Interval? {
      assert FrameBytes(cmd) == [4, 0, Tag(cmd), 0, 0, 0];
      InsideShort(Tag(cmd), o, rest, FrameBytes(cmd)[o..] + rest);
    } else {
      var b, s := ToLe(8, cmd.interval), FrameBytes(cmd)[o..] + rest;
      LongFrame(cmd, o, rest);
      if o < 5 {
        InsideEarly(b, o, rest, s);
      } else if o <= 8 {
        InsideMiddle(b, o, rest, s);
      } else {
        InsideLate(b, o, rest, s);
      }
    }
  }

  /**
   A cut at offset `o` of the client's message `k` invents a command, possibly a `Run`: from there on the
   bytes spell a frame of their own, and the stream is long enough to hold it.
   */
  ghost predicate Invents(sent: seq<DaemonCommand>, k: nat, o: nat) {
    && k < |sent|
    && Spells(sent[k], o, k + 1 < |sent| && sent[k + 1].Run?)
    && o + 2 + SpelledLength(sent[k], o) <= |Stream(COMMAND, sent[k..])|
  }

  /** Where byte `o` of message `k` is in the stream. */
  ghost function Place(sent: seq<DaemonCommand>, k: nat, o: nat): nat
    requires k <= |sent|
  {
    |Stream(COMMAND, sent[..k])| + o
  }

  lemma PlaceInside(sent: seq<DaemonCommand>, k: nat, o: nat)
    requires k < |sent| && o <= |Frame(COMMAND, sent[k])|
    ensures Place(sent, k, o) <= |Stream(COMMAND, sent)|
    ensures Stream(COMMAND, sent)[Place(sent, k, o)..] == Frame(COMMAND, sent[k])[o..] + Stream(COMMAND, sent[k + 1..])
  {
    StreamPrefix(COMMAND, sent, k);
    var s, f, rest := Stream(COMMAND, sent), Frame(COMMAND, sent[k]), Stream(COMMAND, sent[k + 1..]);
    assert sent[k..][1..] == sent[k + 1..];
    assert Stream(COMMAND, sent[k..]) == f + rest;
    assert (f + rest)[o..] == f[o..] + rest;
    assert s[Place(sent, k, o)..] == s[Place(sent, k, 0)..][o..];
  }

  /** Inside a frame the second reader reads nothing, exactly unless the cut invents a command; and when a `Run`. */
  lemma CutInside(sent: seq<DaemonCommand>, k: nat, o: nat)
    requires k < |sent| && 0 < o < |Frame(COMMAND, sent[k])|
    ensures Place(sent, k, o) <= |Stream(COMMAND, sent)|
    ensures var r := ReadOne(COMMAND, Stream(COMMAND, sent)[Place(sent, k, o)..]);
            && (r.Message? <==> Invents(sent, k, o))
            && (r.Message? ==> (r.value.Run? <==> SpellsRun(sent[k], o)))
  {
    PlaceInside(sent, k, o);
    FrameIs(sent[k]);
    var rest := Stream(COMMAND, sent[k + 1..]);
    StreamStarts(sent[k + 1..]);
    ReadsExactly(FrameBytes(sent[k])[o..] + rest);
    assert sent[k..][1..] == sent[k + 1..];
    assert |Stream(COMMAND, sent[k..])| == |FrameBytes(sent[k])| + |rest|;
    Inside(sent[k], o, rest);
  }

  // Every cut

  /**
   The second reader invents nothing: it starts on a boundary and reads the messages from there on, or it
   starts inside a frame and reads none. So it applies a suffix of what was sent or nothing, and panics
   only at a `Run` that was sent.
   */
  ghost predicate ServedFrom(sent: seq<DaemonCommand>, fetched: nat)
    requires fetched <= |Stream(COMMAND, sent)|
  {
    var j := WholeFrames(COMMAND, sent, fetched);
    ReadAll(COMMAND, Stream(COMMAND, sent)[fetched..]).0 == if fetched == Place(sent, j, 0) then sent[j..] else []
  }

  /** What that means for what is applied and for the panic. */
  lemma ServedMeans(sent: seq<DaemonCommand>, fetched: nat)
    requires fetched <= |Stream(COMMAND, sent)| && ServedFrom(sent, fetched)
    ensures var s, j := Stream(COMMAND, sent)[fetched..], WholeFrames(COMMAND, sent, fetched);
            && Left(COMMAND, s) == (if fetched == Place(sent, j, 0) then BeforeRun(sent[j..]) else [])
            && (RunAhead(COMMAND, s) <==> fetched == Place(sent, j, 0) && !NoRun(sent[j..]))
  {
    RunAheadExact(ReadAll(COMMAND, Stream(COMMAND, sent)[fetched..]).0);
  }

  lemma {:induction false} WholeFramesAt(sent: seq<DaemonCommand>, k: nat, o: nat)
    requires k < |sent| && o < |Frame(COMMAND, sent[k])|
    ensures WholeFrames(COMMAND, sent, Place(sent, k, o)) == k
  {
    if k > 0 {
      assert sent[..k][1..] == sent[1..][..k - 1];
      WholeFramesAt(sent[1..], k - 1, o);
    }
  }

  /** Where a cut falls: offset `o` of message `j`, or the end. */
  lemma Locate(sent: seq<DaemonCommand>, fetched: nat) returns (j: nat, o: nat)
    requires fetched <= |Stream(COMMAND, sent)|
    ensures j == WholeFrames(COMMAND, sent, fetched) && fetched == Place(sent, j, o)
    ensures j < |sent| ==> o < |Frame(COMMAND, sent[j])|
    ensures j == |sent| ==> o == 0
  {
    j := WholeFrames(COMMAND, sent, fetched);
    WholeFramesExact(COMMAND, sent, fetched);
    o := fetched - Place(sent, j, 0);
    if j < |sent| {
      assert sent[..j + 1] == sent[..j] + [sent[j]];
      StreamAppend(COMMAND, sent[..j], [sent[j]]);
      assert [sent[j]][1..] == [];
      assert Stream(COMMAND, [sent[j]]) == Frame(COMMAND, sent[j]) + Stream(COMMAND, []);
    } else {
      assert sent[..j] == sent;
    }
  }

  lemma CutAnywhere(sent: seq<DaemonCommand>, fetched: nat) returns (j: nat, o: nat)
    requires fetched <= |Stream(COMMAND, sent)|
    ensures j == WholeFrames(COMMAND, sent, fetched) && fetched == Place(sent, j, o)
    ensures j < |sent| ==> o < |Frame(COMMAND, sent[j])|
    ensures ServedFrom(sent, fetched) <==> o == 0 || !Invents(sent, j, o)
  {
    j, o := Locate(sent, fetched);
    if o == 0 {
      AlignedHandoverIsSuffix(sent, j);
    } else {
      CutInside(sent, j, o);
      ReadsSome(Stream(COMMAND, sent)[fetched..]);
    }
  }

  lemma ReadsSome(s: seq<byte>)
    ensures ReadAll(COMMAND, s).0 == [] <==> !ReadOne(COMMAND, s).Message?
  {
  }

  /**
   The exact condition. Wherever the read-ahead ends beyond the first command, up to byte `limit`, the
   second reader invents nothing, if and only if no command after the first spells a frame, in those
   bytes, that the rest of the stream can hold.
   */
  lemma HandoverExact(sent: seq<DaemonCommand>, limit: nat)
    requires sent != []
    ensures (forall fetched :: |Frame(COMMAND, sent[0])| <= fetched <= Min(limit, |Stream(COMMAND, sent)|) ==>
               ServedFrom(sent, fetched))
            <==> (forall k, o :: 0 < k < |sent| && Place(sent, k, o) <= limit ==> !Invents(sent, k, o))
  {
    if k, o :| 0 < k < |sent| && Place(sent, k, o) <= limit && Invents(sent, k, o) {
      InventedIsServed(sent, k, o);
    } else {
      forall fetched | |Frame(COMMAND, sent[0])| <= fetched <= Min(limit, |Stream(COMMAND, sent)|)
        ensures ServedFrom(sent, fetched)
      {
        var j, o := CutAnywhere(sent, fetched);
        BeyondFirst(sent, fetched);
      }
    }
  }

  /** Commands are spelled strictly inside a frame. */
  lemma SpelledInside(cmd: DaemonCommand, o: nat, runNext: bool)
    requires Spells(cmd, o, runNext)
    ensures 0 < o < |Frame(COMMAND, cmd)|
  {
    FrameIs(cmd);
  }

  lemma InventedIsServed(sent: seq<DaemonCommand>, k: nat, o: nat)
    requires 0 < k && Invents(sent, k, o)
    ensures |Frame(COMMAND, sent[0])| <= Place(sent, k, o) <= |Stream(COMMAND, sent)|
    ensures !ServedFrom(sent, Place(sent, k, o))
  {
    SpelledInside(sent[k], o, k + 1 < |sent| && sent[k + 1].Run?);
    PlaceInside(sent, k, o);
    WholeFramesAt(sent, k, o);
    AfterFirst(sent, k, o);
    var j, p := CutAnywhere(sent, Place(sent, k, o));
  }

  lemma BeyondFirst(sent: seq<DaemonCommand>, fetched: nat)
    requires sent != [] && fetched >= |Frame(COMMAND, sent[0])|
    ensures WholeFrames(COMMAND, sent, fetched) > 0
  {
  }

  lemma AfterFirst(sent: seq<DaemonCommand>, k: nat, o: nat)
    requires 0 < k < |sent|
    ensures Place(sent, k, o) >= |Frame(COMMAND, sent[0])|
  {
    assert sent[..k][0] == sent[0];
  }

  ghost predicate NoInterval(cmds: seq<DaemonCommand>) {
    forall i :: 0 <= i < |cmds| ==> !cmds[i].Interval?
  }

  /**
   A client that sends no interval after its first command: wherever the read-ahead ends, what is applied
   is a suffix of what was sent (up to a `Run`), and nothing off a boundary. If it sends no `Run` either,
   as the shipped client, nothing is invented at all, and the second reader never panics.
   */
  lemma NoIntervalNoMisread(sent: seq<DaemonCommand>, fetched: nat) returns (j: nat)
    requires sent != [] && NoInterval(sent[1..])
    requires |Frame(COMMAND, sent[0])| <= fetched <= |Stream(COMMAND, sent)|
    ensures j <= |sent| && Left(COMMAND, Stream(COMMAND, sent)[fetched..]) == BeforeRun(sent[j..])
    ensures fetched != Place(sent, WholeFrames(COMMAND, sent, fetched), 0) ==> j == |sent|
    ensures NoRun(sent[1..]) ==> ServedFrom(sent, fetched) && !RunAhead(COMMAND, Stream(COMMAND, sent)[fetched..])
  {
    var o;
    j, o := CutAnywhere(sent, fetched);
    BeyondFirst(sent, fetched);
    assert forall k :: 0 < k < |sent| ==> sent[k] == sent[1..][k - 1];
    if o > 0 {
      if j < |sent| {
        CutInside(sent, j, o);
      }
      LeftEmpty(COMMAND, Stream(COMMAND, sent)[fetched..]);
      if NoRun(sent[1..]) {
        ServedMeans(sent, fetched);
      }
      j := |sent|;
    } else {
      ServedMeans(sent, fetched);
    }
  }

  lemma LeftEmpty(c: Codec<DaemonCommand>, s: seq<byte>)
    ensures Left(c, s) == [] <==> (ReadOne(c, s).Message? ==> ReadOne(c, s).value.Run?)
  {
    var r := ReadOne(c, s);
    if r.Message? && !r.value.Run? {
      LeftOne(c, s, r.value, r.rest, []);
      assert [] + Left(c, s) == Left(c, s);
    } else {
      LeftNone(c, s);
    }
  }

  // Every cut happens

  lemma FirstFrame(c: Codec<DaemonCommand>, sent: seq<DaemonCommand>)
    requires RoundTrips(c) && sent != [] && Fits(c, sent[0])
    ensures ReadOne(c, Stream(c, sent)) == Message(sent[0], Stream(c, sent[1..]))
    ensures FrameLength(Stream(c, sent)) == |Frame(c, sent[0])|
  {
    var s, rest := Stream(c, sent), Stream(c, sent[1..]);
    assert s == Frame(c, sent[0]) + rest;
    ReadFrame(c, sent[0], rest);
    Pow256Widths();
    FromToLe(PREFIX_LEN, |c.enc(sent[0])|);
    assert s[..PREFIX_LEN] == ToLe(PREFIX_LEN, |c.enc(sent[0])|);
  }

  /** Chunks that bring the second reader to byte `fetched`: all at once, or a few first and then a whole buffer. */
  function ChunksTo(fetched: nat): nat -> nat {
    k => if fetched <= BUF_CAPACITY then fetched else if k == 0 then fetched - BUF_CAPACITY else BUF_CAPACITY
  }

  lemma ChunksReach(fetched: nat, all: nat)
    requires 6 <= fetched <= all && fetched < 6 + BUF_CAPACITY
    ensures AfterFrame(ChunksTo(fetched), Meter(0, 0, all), 6).left == all - fetched
  {
    var chunk := ChunksTo(fetched);
    var a := if fetched <= BUF_CAPACITY then fetched else fetched - BUF_CAPACITY;
    assert Delivered(chunk(0), BUF_CAPACITY, all) == a;
    if fetched <= BUF_CAPACITY {
      assert After(chunk, Meter(1, a, all - a), 2) == Meter(1, a - 2, all - a);
    } else {
      assert Delivered(chunk(1), BUF_CAPACITY, all - a) == BUF_CAPACITY;
      var m := Meter(2, BUF_CAPACITY, all - fetched);
      if a == 1 {
        assert After(chunk, Meter(1, 1, all - 1), 2) == After(chunk, m, 1) == Meter(2, BUF_CAPACITY - 1, all - fetched);
      } else {
        assert After(chunk, Meter(1, a, all - a), 2) == Meter(1, a - 2, all - a);
        assert After(chunk, Meter(1, a - 2, all - a), 4) == After(chunk, m, 6 - a);
      }
    }
  }

  /** Every end of the read-ahead that a reader can have happens. */
  method ServeInChunks(c: Codec<DaemonCommand>, bytes: seq<byte>, ghost sent: seq<DaemonCommand>, fetched: nat,
                       daemon: DaemonState)
    returns (applied: seq<DaemonCommand>, panicked: bool)
    requires RoundTrips(c) && AllFit(c, sent) && sent != [] && sent[0].Run? && bytes == Stream(c, sent)
    requires |Frame(c, sent[0])| == 6 <= fetched <= |bytes| && fetched < 6 + BUF_CAPACITY
    requires daemon.Valid()
    modifies daemon, daemon.stats
    ensures daemon.Valid() && Follows(old(HeldBy(daemon)), applied, HeldBy(daemon))
    ensures applied == Left(c, bytes[fetched..]) && panicked == RunAhead(c, bytes[fetched..])
  {
    FirstFrame(c, sent);
    ChunksReach(fetched, |bytes|);
    var socket := new Socket(bytes, ChunksTo(fetched), false);
    var client;
    ghost var taken;
    client, applied, panicked, taken := Serve(c, socket, daemon);
  }

  /**
   What a connection on which `sent` arrives comes to, in terms of what was sent. A first command other than
   `Run` is applied, and nothing after it. After `Run`, if nothing was read ahead, all that follows is applied, in
   order, up to the next `Run`; and wherever the read-ahead ended without inventing a command, all from there on.
   */
  lemma ConnectionMeans(sent: seq<DaemonCommand>, client: bool, applied: seq<DaemonCommand>, panicked: bool,
                        fetched: nat)
    requires Handled(COMMAND, Stream(COMMAND, sent), client, applied, panicked, fetched)
    ensures client <==> sent != [] && sent[0].Run?
    ensures !client ==> applied == sent[..Min(1, |sent|)] && !panicked
    ensures client && fetched == 6 ==> AppliesFrom(sent, 1, applied, panicked)
    ensures client ==> fetched <= |Stream(COMMAND, sent)| && WholeFrames(COMMAND, sent, fetched) <= |sent|
    ensures client && ServedFrom(sent, fetched) ==>
              var j := WholeFrames(COMMAND, sent, fetched);
              if fetched == Place(sent, j, 0) then AppliesFrom(sent, j, applied, panicked)
              else applied == [] && !panicked
  {
    CommandExact();
    CommandsFit(sent);
    if sent != [] {
      FirstFrame(COMMAND, sent);
      if client {
        ConnectedMeans(sent, applied, panicked, fetched);
      }
    }
  }

  /** From message `j` on all are applied, in order, up to a `Run`, which panics. */
  ghost predicate AppliesFrom(sent: seq<DaemonCommand>, j: nat, applied: seq<DaemonCommand>, panicked: bool) {
    && j + |applied| <= |sent| && applied == sent[j..j + |applied|] && NoRun(applied)
    && (panicked <==> j + |applied| < |sent|)
    && (panicked ==> sent[j + |applied|].Run?)
  }

  lemma SuffixApplies(sent: seq<DaemonCommand>, j: nat)
    requires j <= |sent|
    ensures AppliesFrom(sent, j, BeforeRun(sent[j..]), !NoRun(sent[j..]))
  {
    BeforeRunMeans(sent[j..]);
    RunAheadExact(sent[j..]);
  }

  lemma ConnectedMeans(sent: seq<DaemonCommand>, applied: seq<DaemonCommand>, panicked: bool, fetched: nat)
    requires sent != [] && sent[0].Run? && fetched <= |Stream(COMMAND, sent)|
    requires var rest := Stream(COMMAND, sent)[fetched..];
             applied == Left(COMMAND, rest) && panicked == RunAhead(COMMAND, rest)
    ensures fetched == 6 ==> AppliesFrom(sent, 1, applied, panicked)
    ensures WholeFrames(COMMAND, sent, fetched) <= |sent|
    ensures ServedFrom(sent, fetched) ==>
              var j := WholeFrames(COMMAND, sent, fetched);
              if fetched == Place(sent, j, 0) then AppliesFrom(sent, j, applied, panicked)
              else applied == [] && !panicked
  {
    if fetched == 6 {
      FrameIs(sent[0]);
      NothingLostIffNothingBuffered(sent, fetched);
      RunAheadExact(sent[1..]);
      SuffixApplies(sent, 1);
    }
    var j, o := Locate(sent, fetched);
    if ServedFrom(sent, fetched) {
      ServedMeans(sent, fetched);
      SuffixApplies(sent, j);
    }
  }

  /** A connection on which `sent` arrives can come to this. */
  ghost predicate CanCome(sent: seq<DaemonCommand>, fetched: nat) {
    fetched <= |Stream(COMMAND, sent)|
    && exists client, applied, panicked :: Handled(COMMAND, Stream(COMMAND, sent), client, applied, panicked, fetched)
  }

  lemma CanComeExactly(sent: seq<DaemonCommand>, fetched: nat)
    requires sent != [] && sent[0].Run?
    ensures CanCome(sent, fetched) <==> 6 <= fetched <= |Stream(COMMAND, sent)| && fetched < 6 + 8192
  {
    CommandExact();
    CommandsFit(sent);
    FirstFrame(COMMAND, sent);
    FrameIs(sent[0]);
    var s := Stream(COMMAND, sent);
    if 6 <= fetched <= |s| && fetched < 6 + BUF_CAPACITY {
      assert Handled(COMMAND, s, true, Left(COMMAND, s[fetched..]), RunAhead(COMMAND, s[fetched..]), fetched);
    }
  }

  /**
   The exact condition for a client: whatever chunks its bytes arrive in, its connection invents no command
   and no panic, if and only if nothing it sends after `Run` spells a frame that the rest of its stream can
   hold, within a buffer's reach.
   */
  lemma ConnectionExact(sent: seq<DaemonCommand>)
    requires sent != [] && sent[0].Run?
    ensures (forall fetched :: CanCome(sent, fetched) ==> ServedFrom(sent, fetched))
            <==> (forall k, o :: 0 < k < |sent| && Place(sent, k, o) <= 5 + BUF_CAPACITY ==> !Invents(sent, k, o))
  {
    FrameIs(sent[0]);
    forall fetched {
      CanComeExactly(sent, fetched);
    }
    HandoverExact(sent, 5 + BUF_CAPACITY);
  }

  const MISREAD := Interval(0x4_0004)

  /** Twenty bytes: `Run`, then an interval that spells `Reset` from its own first byte on. */
  const MISREAD_BYTES: seq<byte> := [4, 0, 0, 0, 0, 0, 12, 0, 1, 0, 0, 0] + [4, 0, 4, 0, 0, 0, 0, 0]

  lemma MisreadInterval()
    ensures ToLe(8, 0x4_0004) == [4, 0, 4, 0, 0, 0, 0, 0]
  {
    var v := 4 + 0x100 * 0x400;
    Unfold(8, v);
    Unfold(7, 0x400);
    Unfold(6, 4);
    Unfold(5, 0);
    Le4(0);
  }

  lemma Unfold(n: nat, x: nat)
    requires n > 0
    ensures ToLe(n, x) == [x % 256] + ToLe(n - 1, x / 256)
  {
  }

  lemma StreamOfTwo<T>(c: Codec<T>, a: T, b: T)
    ensures Stream(c, [a, b]) == Frame(c, a) + Frame(c, b)
  {
    assert [a, b][1..] == [b] && [b][1..] == [];
    assert Stream(c, [b]) == Frame(c, b) + Stream(c, []);
  }

  lemma RunThenInterval(v: u64)
    ensures Stream(COMMAND, [Run, Interval(v)]) == [4, 0, 0, 0, 0, 0, 12, 0, 1, 0, 0, 0] + ToLe(8, v)
  {
    StreamOfTwo(COMMAND, Run, Interval(v));
    FrameIs(Run);
    FrameIs(Interval(v));
  }

  lemma MisreadTail(c: Codec<DaemonCommand>, tail: seq<byte>)
    requires RoundTrips(c) && c.enc(Reset) == [4, 0, 0, 0] && c.dec([]).None?
    requires tail == [4, 0, 4, 0, 0, 0, 0, 0]
    ensures Left(c, tail) == [Reset]
  {
    FromLe2(tail[..2]);
    assert tail[2..6] == c.enc(Reset) + [] && tail[6..] == [0, 0];
    assert c.dec(c.enc(Reset) + []) == Some((Reset, []));
    assert ReadOne(c, tail) == Message(Reset, [0, 0]);
    FromLe2([0, 0]);
    assert [0, 0][..2] == [0, 0] && [0, 0][2..2] == [];
    LeftNone(c, [0, 0]);
    LeftOne(c, tail, Reset, [0, 0], []);
    assert [] + Left(c, tail) == Left(c, tail);
  }

  lemma MisreadFacts()
    ensures RoundTrips(COMMAND) && AllFit(COMMAND, [Run, MISREAD])
    ensures Stream(COMMAND, [Run, MISREAD]) == MISREAD_BYTES && |Frame(COMMAND, Run)| == 6
    ensures Left(COMMAND, MISREAD_BYTES[12..]) == [Reset]
  {
    RunThenInterval(0x4_0004);
    MisreadInterval();
    CommandExact();
    CommandsFit([Run, MISREAD]);
    FrameIs(Run);
    Le4(4);
    MisreadTail(COMMAND, MISREAD_BYTES[12..]);
  }

  /**
   A misread from end to end: the client sends `Run` and one interval, the socket delivers twelve bytes
   at a time, and the daemon resets itself.
   */
  method MisreadServed(daemon: DaemonState) returns (applied: seq<DaemonCommand>)
    requires daemon.Valid()
    modifies daemon, daemon.stats
    ensures Stream(COMMAND, [Run, MISREAD]) == MISREAD_BYTES
    ensures applied == [Reset] && daemon.Valid() && Follows(old(HeldBy(daemon)), applied, HeldBy(daemon))
  {
    MisreadFacts();
    var panicked;
    applied, panicked := ServeInChunks(COMMAND, MISREAD_BYTES, [Run, MISREAD], 12, daemon);
  }

  const PHANTOM := Interval(4)

  const PHANTOM_BYTES: seq<byte> := [4, 0, 0, 0, 0, 0, 12, 0, 1, 0, 0, 0] + [4, 0, 0, 0, 0, 0, 0, 0]

  lemma PhantomInterval()
    ensures ToLe(8, 4) == [4, 0, 0, 0, 0, 0, 0, 0]
  {
    Unfold(8, 4);
    Unfold(7, 0);
    Unfold(6, 0);
    Unfold(5, 0);
    Le4(0);
  }

  lemma PhantomFacts()
    ensures RoundTrips(COMMAND) && AllFit(COMMAND, [Run, PHANTOM])
    ensures Stream(COMMAND, [Run, PHANTOM]) == PHANTOM_BYTES && |Frame(COMMAND, Run)| == 6
    ensures Left(COMMAND, PHANTOM_BYTES[12..]) == [] && RunAhead(COMMAND, PHANTOM_BYTES[12..])
  {
    RunThenInterval(4);
    PhantomInterval();
    CommandExact();
    CommandsFit([Run, PHANTOM]);
    FrameIs(Run);
    var tail := PHANTOM_BYTES[12..];
    assert tail == [4, 0, 0, 0, 0, 0, 0, 0];
    ReadsExactly(tail);
    LeftNone(COMMAND, tail);
    RunAheadOne(COMMAND, tail);
  }

  /**
   The worst misread: the client sends `Run` once and one interval, and the daemon goes down on a second
   `Run` that was never sent.
   */
  method PhantomRunServed(daemon: DaemonState) returns (applied: seq<DaemonCommand>, panicked: bool)
    requires daemon.Valid()
    modifies daemon, daemon.stats
    ensures Stream(COMMAND, [Run, PHANTOM]) == PHANTOM_BYTES
    ensures applied == [] && panicked
  {
    PhantomFacts();
    applied, panicked := ServeInChunks(COMMAND, PHANTOM_BYTES, [Run, PHANTOM], 12, daemon);
  }
}
