/**
 A connection to the daemon (`server.rs`, inside `accept_loop`): the first command decides what the
 connection is; after `Run` the first reader is thrown away, with whatever it had read ahead, and a
 second one serves the rest.
 */
module Handover {
  import opened Words
  import opened StatsTypes
  import opened Codec
  import opened Framing
  import opened Reader
  import opened Collector
  import opened Daemon

  /** The commands a serving loop applies: up to the first `Run`, which is not meant to come again. */
  function BeforeRun(cmds: seq<DaemonCommand>): (r: seq<DaemonCommand>)
    ensures forall i :: 0 <= i < |r| ==> !r[i].Run?
  {
    if cmds == [] || cmds[0].Run? then [] else [cmds[0]] + BeforeRun(cmds[1..])
  }

  /** They are the commands before it, all of them and in order. */
  lemma {:induction false} BeforeRunMeans(cmds: seq<DaemonCommand>)
    ensures |BeforeRun(cmds)| <= |cmds| && BeforeRun(cmds) == cmds[..|BeforeRun(cmds)|]
    ensures |BeforeRun(cmds)| < |cmds| ==> cmds[|BeforeRun(cmds)|].Run?
  {
    if cmds != [] && !cmds[0].Run? {
      BeforeRunMeans(cmds[1..]);
    }
  }

  lemma {:induction false} BeforeNoRun(cmds: seq<DaemonCommand>)
    requires NoRun(cmds)
    ensures BeforeRun(cmds) == cmds
  {
    if cmds != [] {
      BeforeNoRun(cmds[1..]);
      assert cmds == [cmds[0]] + cmds[1..];
    }
  }

  ghost predicate NoRun(cmds: seq<DaemonCommand>) {
    forall i :: 0 <= i < |cmds| ==> !cmds[i].Run?
  }

  function CommandedAll(c: Clock, cmds: seq<DaemonCommand>): Clock
    requires NoRun(cmds)
    decreases |cmds|
  {
    if cmds == [] then c
    else Commanded(CommandedAll(c, cmds[..|cmds| - 1]), cmds[|cmds| - 1])
  }

  ghost predicate HasReset(cmds: seq<DaemonCommand>) {
    exists i :: 0 <= i < |cmds| && cmds[i].Reset?
  }

  /** What commands act on: the clock and the collector's two lists. */
  datatype Held = Held(time: Clock, procs: seq<ProcInfo>, dead: seq<ProcInfo>)

  ghost function HeldBy(daemon: DaemonState): Held
    reads daemon, daemon.stats
  {
    Held(daemon.Time(), daemon.stats.procs, daemon.stats.deadProcs)
  }

  /** The commands were applied: the clock took each in turn, and any `Reset` zeroed the baselines and the dead list. */
  ghost predicate Follows(before: Held, cmds: seq<DaemonCommand>, after: Held) {
    && NoRun(cmds)
    && after.time == CommandedAll(before.time, cmds)
    && if HasReset(cmds) then ZeroedAll(before.procs, after.procs) && after.dead == []
       else after.procs == before.procs && after.dead == before.dead
  }

  /** What `DaemonState.Update` promises. */
  ghost predicate Updated(before: Held, cmd: DaemonCommand, after: Held) {
    && !cmd.Run?
    && after.time == Commanded(before.time, cmd)
    && if cmd.Reset? then ZeroedAll(before.procs, after.procs) && after.dead == []
       else after.procs == before.procs && after.dead == before.dead
  }

  lemma HasResetMore(cmds: seq<DaemonCommand>, x: DaemonCommand)
    ensures HasReset(cmds + [x]) <==> HasReset(cmds) || x.Reset?
  {
    var all := cmds + [x];
    assert all[|cmds|] == x && forall i :: 0 <= i < |cmds| ==> all[i] == cmds[i];
  }

  lemma FollowsMore(a: Held, cmds: seq<DaemonCommand>, b: Held, x: DaemonCommand, c: Held)
    requires Follows(a, cmds, b) && Updated(b, x, c)
    ensures Follows(a, cmds + [x], c)
  {
    assert (cmds + [x])[..|cmds|] == cmds;
    HasResetMore(cmds, x);
  }

  lemma FollowsNone(a: Held)
    ensures Follows(a, [], a)
  {
  }

  // The methods take the command layout as a parameter; the daemon uses `COMMAND`

  /** What is left to apply when `s` is left to read. */
  ghost function Left(c: Codec<DaemonCommand>, s: seq<byte>): seq<DaemonCommand> {
    BeforeRun(ReadAll(c, s).0)
  }

  /** Whether a `Run` comes before the end or an error. */
  ghost predicate RunAhead(c: Codec<DaemonCommand>, s: seq<byte>) {
    |Left(c, s)| < |ReadAll(c, s).0|
  }

  lemma RunAheadOne(c: Codec<DaemonCommand>, s: seq<byte>)
    ensures match ReadOne(c, s)
            case Message(x, rest) => RunAhead(c, s) <==> x.Run? || RunAhead(c, rest)
            case _ => !RunAhead(c, s)
  {
    var r := ReadOne(c, s);
    if r.Message? {
      var xs := ReadAll(c, r.rest).0;
      assert ReadAll(c, s).0 == [r.value] + xs && ([r.value] + xs)[1..] == xs;
    }
  }

  /** `RunAhead` is what it says: some message that can be read is a `Run`. */
  lemma {:induction false} RunAheadExact(cmds: seq<DaemonCommand>)
    ensures |BeforeRun(cmds)| < |cmds| <==> !NoRun(cmds)
    ensures |BeforeRun(cmds)| <= |cmds|
  {
    if cmds != [] && !cmds[0].Run? {
      RunAheadExact(cmds[1..]);
      assert forall i :: 0 < i < |cmds| ==> cmds[i] == cmds[1..][i - 1];
    }
  }

  lemma LeftOne(c: Codec<DaemonCommand>, s: seq<byte>, x: DaemonCommand, rest: seq<byte>, applied: seq<DaemonCommand>)
    requires ReadOne(c, s) == Message(x, rest) && !x.Run?
    ensures applied + Left(c, s) == (applied + [x]) + Left(c, rest)
  {
    var xs := ReadAll(c, rest).0;
    assert ReadAll(c, s).0 == [x] + xs && ([x] + xs)[1..] == xs;
  }

  lemma LeftNone(c: Codec<DaemonCommand>, s: seq<byte>)
    requires ReadOne(c, s).Message? ==> ReadOne(c, s).value.Run?
    ensures Left(c, s) == []
  {
  }

  datatype Turn = Applied(cmd: DaemonCommand) | Ended | Panicked

  /** One turn of the second reader's loop. A `Run` panics in `DaemonState::update`, with the lock held. */
  method ServeOne(c: Codec<DaemonCommand>, reader: BufReader, daemon: DaemonState) returns (turn: Turn)
    requires daemon.Valid()
    modifies reader, reader.socket, daemon, daemon.stats
    ensures daemon.Valid()
    ensures match ReadOne(c, old(reader.Content()))
            case Message(x, rest) => turn == (if x.Run? then Panicked else Applied(x)) && reader.Content() == rest
            case _ => turn == Ended
    ensures match turn
            case Applied(x) => Updated(old(HeldBy(daemon)), x, HeldBy(daemon))
            case _ => HeldBy(daemon) == old(HeldBy(daemon))
  {
    var msg := ReadMsg(reader, c);
    if !msg.Got? {
      return Ended;
    }
    if msg.value.Run? {
      return Panicked;
    }
    daemon.Update(msg.value);
    return Applied(msg.value);
  }

  /** Having applied `applied`, with `s` left to read, out of `all`; `run` is whether a `Run` is to come. */
  ghost predicate Serving(c: Codec<DaemonCommand>, all: seq<DaemonCommand>, run: bool, start: Held,
                          applied: seq<DaemonCommand>, s: seq<byte>, now: Held) {
    Follows(start, applied, now) && all == applied + Left(c, s) && run == RunAhead(c, s)
  }

  lemma ServeMore(c: Codec<DaemonCommand>, all: seq<DaemonCommand>, run: bool, start: Held, applied: seq<DaemonCommand>,
                  s: seq<byte>, now: Held, x: DaemonCommand, rest: seq<byte>, next: Held)
    requires Serving(c, all, run, start, applied, s, now)
    requires ReadOne(c, s) == Message(x, rest) && Updated(now, x, next)
    ensures Serving(c, all, run, start, applied + [x], rest, next)
    ensures |rest| < |s|
  {
    LeftOne(c, s, x, rest, applied);
    RunAheadOne(c, s);
    FollowsMore(start, applied, now, x, next);
  }

  lemma ServeLast(c: Codec<DaemonCommand>, all: seq<DaemonCommand>, run: bool, start: Held, applied: seq<DaemonCommand>,
                  s: seq<byte>, now: Held)
    requires Serving(c, all, run, start, applied, s, now) && (ReadOne(c, s).Message? ==> ReadOne(c, s).value.Run?)
    ensures all == applied && run == ReadOne(c, s).Message?
  {
    LeftNone(c, s);
    RunAheadOne(c, s);
  }

  /**
   The loop of the second reader. It applies what it reads until the end of the stream or an error, or
   panics at a second `Run`.
   */
  method ServeCommands(c: Codec<DaemonCommand>, reader: BufReader, daemon: DaemonState)
    returns (applied: seq<DaemonCommand>, panicked: bool)
    requires daemon.Valid()
    modifies reader, reader.socket, daemon, daemon.stats
    ensures daemon.Valid()
    ensures applied == Left(c, old(reader.Content())) && panicked == RunAhead(c, old(reader.Content()))
    ensures Follows(old(HeldBy(daemon)), applied, HeldBy(daemon))
  {
    applied := [];
    ghost var all, run, start := Left(c, reader.Content()), RunAhead(c, reader.Content()), HeldBy(daemon);
    FollowsNone(start);
    assert Serving(c, all, run, start, applied, reader.Content(), start);
    while true
      invariant daemon.Valid() && Serving(c, all, run, start, applied, reader.Content(), HeldBy(daemon))
      decreases |reader.Content()|
    {
      ghost var s, now := reader.Content(), HeldBy(daemon);
      var turn := ServeOne(c, reader, daemon);
      if !turn.Applied? {
        ServeLast(c, all, run, start, applied, s, now);
        return applied, turn.Panicked?;
      }
      ServeMore(c, all, run, start, applied, s, now, turn.cmd, reader.Content(), HeldBy(daemon));
      applied := applied + [turn.cmd];
    }
  }

  /** What a reader that read one message has not fetched yet is the end of what was sent. */
  lemma RestOfRest(c: Codec<DaemonCommand>, sent: seq<byte>, buf: seq<byte>, pending: seq<byte>)
    requires ReadOne(c, sent).Message? && ReadOne(c, sent).rest == buf + pending
    ensures |pending| <= |buf + pending| <= |sent| && pending == sent[|sent| - |pending|..]
  {
    var rest := ReadOne(c, sent).rest;
    assert rest == sent[|sent| - |rest|..];
    assert pending == rest[|buf|..];
  }

  /**
   What a connection on which `sent` arrives comes to: a first command other than `Run` is applied alone;
   after `Run`, what the bytes that were not fetched yet say, up to another `Run`, which panics.
   */
  ghost predicate Handled(c: Codec<DaemonCommand>, sent: seq<byte>, client: bool, applied: seq<DaemonCommand>,
                          panicked: bool, fetched: nat) {
    && client == (ReadOne(c, sent).Message? && ReadOne(c, sent).value.Run?)
    && match ReadOne(c, sent)
    case Message(cmd, rest) =>
      if cmd.Run? then
        && |sent| - |rest| <= fetched <= |sent| && fetched < |sent| - |rest| + BUF_CAPACITY
        && applied == Left(c, sent[fetched..]) && panicked == RunAhead(c, sent[fetched..])
      else applied == [cmd] && !panicked
    case _ => applied == [] && !panicked
  }

  /**
   One connection from its first byte. `fetched` is how many bytes the first reader had taken from the
   socket when it was replaced; it depends on the chunks the socket happened to deliver, and never runs
   a whole buffer ahead of the first command. `client` is whether the connection became a client's.
   */
  method Serve(c: Codec<DaemonCommand>, socket: Socket, daemon: DaemonState)
    returns (client: bool, applied: seq<DaemonCommand>, panicked: bool, ghost fetched: nat)
    requires daemon.Valid()
    modifies socket, daemon, daemon.stats
    ensures daemon.Valid() && Follows(old(HeldBy(daemon)), applied, HeldBy(daemon))
    ensures Handled(c, old(socket.pending), client, applied, panicked, fetched)
    ensures client ==> fetched == FetchedFirst(socket.chunk, old(socket.turn), old(socket.pending))
  {
    client, applied, panicked := false, [], false;
    ghost var start := HeldBy(daemon);
    FollowsNone(start);
    var msg;
    msg, fetched := FirstCommand(c, socket);
    if msg.Got? {
      if !msg.value.Run? {
        daemon.Update(msg.value);
        applied := [] + [msg.value];
        FollowsMore(start, [], start, msg.value, HeldBy(daemon));
      } else {
        client := true;
        var second := new BufReader(socket);
        applied, panicked := ServeCommands(c, second, daemon);
      }
    }
  }

  /** The first reader, up to its replacement. */
  method FirstCommand(c: Codec<DaemonCommand>, socket: Socket)
    returns (msg: ReadResult<DaemonCommand>, ghost fetched: nat)
    modifies socket
    ensures var sent := old(socket.pending);
            match ReadOne(c, sent)
            case Message(x, rest) =>
              && msg == Got(x)
              && |sent| - |rest| <= fetched <= |sent| && fetched < |sent| - |rest| + BUF_CAPACITY
              && socket.pending == sent[fetched..]
              && fetched == FetchedFirst(socket.chunk, old(socket.turn), sent)
            case _ => !msg.Got?
  {
    ghost var sent, start := socket.pending, Meter(socket.turn, 0, |socket.pending|);
    var first := new BufReader(socket);
    msg := ReadMsg(first, c);
    fetched := if msg.Got? then |sent| - |socket.pending| else 0;
    if msg.Got? {
      RestOfRest(c, sent, first.buf, socket.pending);
      AfterHave(socket.chunk, start, PREFIX_LEN);
      AfterHave(socket.chunk, After(socket.chunk, start, PREFIX_LEN), FrameLength(sent) - PREFIX_LEN);
    }
  }

  /** How many bytes reading the first frame of `sent` takes from a socket with these chunks. */
  ghost function FetchedFirst(chunk: nat -> nat, turn: nat, sent: seq<byte>): int {
    |sent| - AfterFrame(chunk, Meter(turn, 0, |sent|), FrameLength(sent)).left
  }
}
