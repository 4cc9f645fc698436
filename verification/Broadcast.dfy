/** Fan-out of frames to clients through bounded queues (`procnetd/src/server.rs`), as a step machine. */
module Broadcast {
  import opened Words

  /** A frame shared by all clients, `Arc<[u8]>`. */
  type Packet = seq<byte>

  const QUEUE_CAPACITY: nat := 4

  datatype SendResult = Sent | Full | Disconnected

  function Attempt(depth: nat, receiver: bool): SendResult {
    if !receiver then Disconnected else if depth >= QUEUE_CAPACITY then Full else Sent
  }

  // Whole runs, every client at once

  /** What one broadcast met at one client: how deep its queue was, and whether there was room. */
  datatype Offer = Offer(depth: nat, accepted: bool)

  /**
   A client from the moment it registered. Broadcasts are known by their number; `taken` are those its
   writer received, the last of which may be partly written.
   */
  datatype Client = Client(
    since: nat,
    offers: seq<Offer>,
    queue: seq<nat>,
    taken: seq<nat>,
    progress: nat,
    written: seq<byte>,
    receiver: bool,
    gone: nat,
    listed: bool)

  type ClientId = nat

  datatype Net = Net(published: seq<Packet>, clients: map<ClientId, Client>)

  datatype Event =
    | Publish(packet: Packet)
    | Register(id: ClientId)
    | Receive(id: ClientId)
    | Write(id: ClientId, count: nat)
    | Fail(id: ClientId)

  function NewClient(since: nat): Client {
    Client(since, [], [], [], 0, [], true, 0, true)
  }

  /** Broadcast number `n` reaches a client that is still on the list. */
  function OfferTo(c: Client, n: nat): Client {
    if !c.listed then c
    else
      match Attempt(|c.queue|, c.receiver)
      case Disconnected => c.(listed := false)
      case Full => c.(offers := c.offers + [Offer(|c.queue|, false)])
      case Sent => c.(offers := c.offers + [Offer(|c.queue|, true)], queue := c.queue + [n])
  }

  function Current(packets: seq<Packet>, c: Client): Packet {
    if c.taken == [] || c.taken[|c.taken| - 1] >= |packets| then [] else packets[c.taken[|c.taken| - 1]]
  }

  /** The writer asks for the next frame once the last one is out. */
  function ReceiveNext(packets: seq<Packet>, c: Client): Client {
    if c.receiver && c.queue != [] && c.progress == |Current(packets, c)|
    then c.(queue := c.queue[1..], taken := c.taken + [c.queue[0]], progress := 0)
    else c
  }

  /** `write_all` gets some more bytes of the current frame out. */
  function WriteMore(packets: seq<Packet>, c: Client, count: nat): Client {
    var p := Current(packets, c);
    if c.receiver && c.progress + count <= |p|
    then c.(progress := c.progress + count, written := c.written + p[c.progress..c.progress + count])
    else c
  }

  function Step(s: Net, e: Event): Net {
    match e
    case Publish(p) =>
      Net(s.published + [p], map id | id in s.clients :: OfferTo(s.clients[id], |s.published|))
    case Register(id) =>
      if id in s.clients then s else s.(clients := s.clients[id := NewClient(|s.published|)])
    case Receive(id) =>
      if id in s.clients then s.(clients := s.clients[id := ReceiveNext(s.published, s.clients[id])]) else s
    case Write(id, count) =>
      if id in s.clients then s.(clients := s.clients[id := WriteMore(s.published, s.clients[id], count)]) else s
    case Fail(id) =>
      if id in s.clients && s.clients[id].receiver
      then s.(clients := s.clients[id := s.clients[id].(receiver := false, gone := |s.published|)])
      else s
  }

  function Exec(events: seq<Event>): Net {
    if events == [] then Net([], map[])
    else Step(Exec(events[..|events| - 1]), events[|events| - 1])
  }

  // What should hold of a client, in terms of its offers

  /** The broadcasts that found room, in order. */
  function Accepted(since: nat, offers: seq<Offer>): seq<nat> {
    if offers == [] then []
    else
      var n := |offers| - 1;
      if offers[n].accepted then Accepted(since, offers[..n]) + [since + n] else Accepted(since, offers[..n])
  }

  function Dropped(offers: seq<Offer>): nat {
    if offers == [] then 0
    else Dropped(offers[..|offers| - 1]) + if offers[|offers| - 1].accepted then 0 else 1
  }

  function Joined(packets: seq<Packet>, which: seq<nat>): seq<byte>
    requires forall i :: 0 <= i < |which| ==> which[i] < |packets|
  {
    if which == [] then []
    else Joined(packets, which[..|which| - 1]) + packets[which[|which| - 1]]
  }

  /** The broadcasts made while its receiver was there to be offered them. */
  function Until(packets: seq<Packet>, c: Client): nat {
    if c.receiver then |packets| else c.gone
  }

  ghost predicate QueueSound(packets: seq<Packet>, c: Client) {
    && |c.queue| <= QUEUE_CAPACITY
    && c.since <= Until(packets, c) <= |packets|
    && |c.offers| == Until(packets, c) - c.since
    && c.taken + c.queue == Accepted(c.since, c.offers)
    && (forall i :: 0 <= i < |c.offers| ==> (c.offers[i].accepted <==> c.offers[i].depth < QUEUE_CAPACITY))
    && (forall i :: 0 <= i < |c.offers| ==> c.offers[i].depth <= Min(i, QUEUE_CAPACITY))
    && (c.listed <==> c.receiver || c.gone == |packets|)
  }

  ghost predicate InBounds(packets: seq<Packet>, which: seq<nat>) {
    forall i :: 0 <= i < |which| ==> which[i] < |packets|
  }

  ghost predicate BytesSound(packets: seq<Packet>, c: Client) {
    && InBounds(packets, c.taken)
    && c.progress <= |Current(packets, c)|
    && if c.taken == [] then c.written == []
       else c.written == Joined(packets, c.taken[..|c.taken| - 1]) + Current(packets, c)[..c.progress]
  }

  ghost predicate ClientSound(packets: seq<Packet>, c: Client) {
    QueueSound(packets, c) && BytesSound(packets, c)
  }

  ghost predicate Sound(s: Net) {
    forall id :: id in s.clients ==> ClientSound(s.published, s.clients[id])
  }

  lemma {:induction false} AcceptedInOrder(since: nat, offers: seq<Offer>)
    ensures forall i :: 0 <= i < |Accepted(since, offers)| ==> since <= Accepted(since, offers)[i] < since + |offers|
    ensures forall i, j :: 0 <= i < j < |Accepted(since, offers)| ==>
              Accepted(since, offers)[i] < Accepted(since, offers)[j]
    ensures |Accepted(since, offers)| + Dropped(offers) == |offers|
  {
    if offers != [] {
      AcceptedInOrder(since, offers[..|offers| - 1]);
    }
  }

  lemma AcceptedPush(since: nat, offers: seq<Offer>, o: Offer)
    ensures Accepted(since, offers + [o])
            == if o.accepted then Accepted(since, offers) + [since + |offers|] else Accepted(since, offers)
  {
    assert (offers + [o])[..|offers|] == offers;
  }

  lemma OfferListening(packets: seq<Packet>, p: Packet, c: Client)
    requires QueueSound(packets, c) && c.listed && c.receiver
    ensures QueueSound(packets + [p], OfferTo(c, |packets|))
  {
    var ok := |c.queue| < QUEUE_CAPACITY;
    AcceptedPush(c.since, c.offers, Offer(|c.queue|, ok));
    AcceptedInOrder(c.since, c.offers);
    assert |c.queue| <= |c.taken + c.queue| <= |c.offers|;
    if ok {
      PushAssociative(c.taken, c.queue, |packets|);
    }
  }

  lemma OfferQueue(packets: seq<Packet>, p: Packet, c: Client)
    requires QueueSound(packets, c)
    ensures QueueSound(packets + [p], OfferTo(c, |packets|))
  {
    if c.listed && c.receiver {
      OfferListening(packets, p, c);
    }
  }

  lemma {:induction false} JoinedGrows(packets: seq<Packet>, p: Packet, which: seq<nat>)
    requires InBounds(packets, which)
    ensures Joined(packets + [p], which) == Joined(packets, which)
  {
    if which != [] {
      JoinedGrows(packets, p, which[..|which| - 1]);
    }
  }

  lemma OfferBytes(packets: seq<Packet>, p: Packet, c: Client)
    requires BytesSound(packets, c)
    ensures BytesSound(packets + [p], OfferTo(c, |packets|))
  {
    if c.taken != [] {
      JoinedGrows(packets, p, c.taken[..|c.taken| - 1]);
    }
  }

  lemma ReceiveSound(packets: seq<Packet>, c: Client)
    requires QueueSound(packets, c) && BytesSound(packets, c)
    ensures QueueSound(packets, ReceiveNext(packets, c)) && BytesSound(packets, ReceiveNext(packets, c))
  {
    var d := ReceiveNext(packets, c);
    if d != c {
      assert d.taken + d.queue == c.taken + c.queue;
      AcceptedInOrder(c.since, c.offers);
      assert (c.taken + c.queue)[|c.taken|] == c.queue[0];
      assert d.taken[..|d.taken| - 1] == c.taken;
      if c.taken != [] {
        assert Current(packets, c)[..c.progress] == Current(packets, c);
      }
      assert Current(packets, d)[..0] == [];
    }
  }

  lemma WriteSound(packets: seq<Packet>, c: Client, count: nat)
    requires BytesSound(packets, c)
    ensures BytesSound(packets, WriteMore(packets, c, count))
  {
    var p := Current(packets, c);
    if c.receiver && c.progress + count <= |p| && c.taken != [] {
      SliceOn(Joined(packets, c.taken[..|c.taken| - 1]), p, c.progress, count);
    }
  }

  lemma SliceOn(before: seq<byte>, p: Packet, a: nat, n: nat)
    requires a + n <= |p|
    ensures before + p[..a] + p[a..a + n] == before + p[..a + n]
  {
  }

  lemma PublishSound(s: Net, p: Packet)
    requires Sound(s)
    ensures Sound(Step(s, Publish(p)))
  {
    var d := Step(s, Publish(p));
    forall id | id in d.clients ensures ClientSound(d.published, d.clients[id]) {
      OfferQueue(s.published, p, s.clients[id]);
      OfferBytes(s.published, p, s.clients[id]);
    }
  }

  /** Replacing one client by a sound one. */
  lemma ReplaceSound(s: Net, id: ClientId, c: Client)
    requires Sound(s) && ClientSound(s.published, c)
    ensures Sound(s.(clients := s.clients[id := c]))
  {
  }

  lemma FailSound(packets: seq<Packet>, c: Client)
    requires ClientSound(packets, c) && c.receiver
    ensures ClientSound(packets, c.(receiver := false, gone := |packets|))
  {
  }

  lemma NewSound(packets: seq<Packet>)
    ensures ClientSound(packets, NewClient(|packets|))
  {
  }

  lemma StepSound(s: Net, e: Event)
    requires Sound(s)
    ensures Sound(Step(s, e))
  {
    match e
    case Publish(p) => PublishSound(s, p);
    case Register(id) =>
      NewSound(s.published);
      ReplaceSound(s, id, NewClient(|s.published|));
    case Receive(id) =>
      if id in s.clients {
        ReceiveSound(s.published, s.clients[id]);
        ReplaceSound(s, id, ReceiveNext(s.published, s.clients[id]));
      }
    case Write(id, count) =>
      if id in s.clients {
        WriteSound(s.published, s.clients[id], count);
        ReplaceSound(s, id, WriteMore(s.published, s.clients[id], count));
      }
    case Fail(id) =>
      if id in s.clients && s.clients[id].receiver {
        FailSound(s.published, s.clients[id]);
        ReplaceSound(s, id, s.clients[id].(receiver := false, gone := |s.published|));
      }
  }

  lemma {:induction false} RunsAreSound(events: seq<Event>)
    ensures Sound(Exec(events))
  {
    if events != [] {
      RunsAreSound(events[..|events| - 1]);
      StepSound(Exec(events[..|events| - 1]), events[|events| - 1]);
    }
  }

  /**
   In every run and for every client: at most four frames wait; frames taken, waiting and dropped add up
   to the broadcasts since it registered (until its receiver went away); a frame was dropped exactly
   when four were waiting, so never among the first four; and the client is on the list exactly
   until the first broadcast after its receiver is gone.
   */
  lemma BroadcastConserves(events: seq<Event>, id: ClientId)
    requires id in Exec(events).clients
    ensures var s := Exec(events);
            var c := s.clients[id];
            && |c.queue| <= 4
            && |c.taken| + |c.queue| + Dropped(c.offers) == Until(s.published, c) - c.since
            && (forall i :: 0 <= i < |c.offers| ==> (!c.offers[i].accepted <==> c.offers[i].depth == 4))
            && (forall i :: 0 <= i < |c.offers| && i < 4 ==> c.offers[i].accepted)
            && (c.listed <==> c.receiver || c.gone == |s.published|)
  {
    RunsAreSound(events);
    var c := Exec(events).clients[id];
    AcceptedInOrder(c.since, c.offers);
    assert |c.taken + c.queue| == |c.taken| + |c.queue|;
  }

  // What a writer that is let run gets out

  /** A run that goes on from `s`. */
  function ExecFrom(s: Net, events: seq<Event>): Net
    decreases |events|
  {
    if events == [] then s else ExecFrom(Step(s, events[0]), events[1..])
  }

  lemma {:induction false} ExecOn(events: seq<Event>, more: seq<Event>)
    ensures Exec(events + more) == ExecFrom(Exec(events), more)
    decreases |more|
  {
    if more == [] {
      assert events + more == events;
    } else {
      assert events + more == events + [more[0]] + more[1..];
      assert (events + [more[0]])[..|events|] == events;
      ExecOn(events + [more[0]], more[1..]);
    }
  }

  /** `recv` hands over the oldest frame that waits, as soon as the last one is out. */
  lemma ReceiveTakesOldest(s: Net, id: ClientId)
    requires id in s.clients && s.clients[id].receiver && s.clients[id].queue != []
    requires s.clients[id].progress == |Current(s.published, s.clients[id])|
    ensures var c, d := s.clients[id], Step(s, Receive(id)).clients[id];
            && d.taken == c.taken + [c.queue[0]] && d.queue == c.queue[1..] && d.progress == 0
            && d.written == c.written && d.receiver && d.offers == c.offers
  {
  }

  /** `write_all` gets any next bytes of the current frame out, up to all of them. */
  lemma WriteGetsOut(s: Net, id: ClientId, count: nat)
    requires id in s.clients && s.clients[id].receiver
    requires s.clients[id].progress + count <= |Current(s.published, s.clients[id])|
    ensures var c, d := s.clients[id], Step(s, Write(id, count)).clients[id];
            && d.written == c.written + Current(s.published, c)[c.progress..c.progress + count]
            && d.progress == c.progress + count
            && d == c.(written := d.written, progress := d.progress)
  {
  }

  /** Receive and write in turn, one waiting frame after the other. */
  function Emptying(packets: seq<Packet>, queue: seq<nat>, id: ClientId): seq<Event>
    requires InBounds(packets, queue)
  {
    if queue == [] then []
    else [Receive(id), Write(id, |packets[queue[0]]|)] + Emptying(packets, queue[1..], id)
  }

  /** The same, after the rest of the current frame. */
  function Flushing(packets: seq<Packet>, c: Client, id: ClientId): seq<Event>
    requires InBounds(packets, c.queue) && c.progress <= |Current(packets, c)|
  {
    [Write(id, |Current(packets, c)| - c.progress)] + Emptying(packets, c.queue, id)
  }

  /** The writer is between two frames. */
  ghost predicate Ready(s: Net, id: ClientId) {
    && id in s.clients && s.clients[id].receiver && InBounds(s.published, s.clients[id].queue)
    && s.clients[id].progress == |Current(s.published, s.clients[id])|
  }

  /** Nothing was published or offered meanwhile; these frames are left to be received. */
  ghost predicate LeftWith(s: Net, d: Net, id: ClientId, queue: seq<nat>) {
    && d.published == s.published && id in s.clients && Ready(d, id)
    && d.clients[id].queue == queue && d.clients[id].offers == s.clients[id].offers
  }

  lemma ExecFromCons(s: Net, e: Event, rest: seq<Event>)
    ensures ExecFrom(s, [e] + rest) == ExecFrom(Step(s, e), rest)
  {
    assert ([e] + rest)[1..] == rest;
  }

  lemma OneFrameOut(s: Net, id: ClientId)
    requires Ready(s, id) && s.clients[id].queue != []
    ensures var c := s.clients[id];
            LeftWith(s, Step(Step(s, Receive(id)), Write(id, |s.published[c.queue[0]]|)), id, c.queue[1..])
  {
    var m := Step(s, Receive(id));
    ReceiveTakesOldest(s, id);
    assert Current(m.published, m.clients[id]) == s.published[s.clients[id].queue[0]];
    WriteGetsOut(m, id, |s.published[s.clients[id].queue[0]]|);
  }

  lemma {:induction false} EmptyingEmpties(s: Net, id: ClientId)
    requires Ready(s, id)
    ensures LeftWith(s, ExecFrom(s, Emptying(s.published, s.clients[id].queue, id)), id, [])
    decreases |s.clients[id].queue|
  {
    var c := s.clients[id];
    if c.queue != [] {
      OneFrameOut(s, id);
      var write, rest := Write(id, |s.published[c.queue[0]]|), Emptying(s.published, c.queue[1..], id);
      EmptyingEmpties(Step(Step(s, Receive(id)), write), id);
      assert Emptying(s.published, c.queue, id) == [Receive(id)] + ([write] + rest);
      ExecFromCons(s, Receive(id), [write] + rest);
      ExecFromCons(Step(s, Receive(id)), write, rest);
    }
  }

  lemma QueueInBounds(packets: seq<Packet>, c: Client)
    requires ClientSound(packets, c)
    ensures InBounds(packets, c.queue) && c.progress <= |Current(packets, c)|
  {
    AcceptedInOrder(c.since, c.offers);
    forall i | 0 <= i < |c.queue| ensures c.queue[i] < |packets| {
      assert (c.taken + c.queue)[|c.taken| + i] == c.queue[i];
    }
  }

  /** Finishing the current frame. */
  lemma FinishFrame(s: Net, id: ClientId)
    requires id in s.clients && s.clients[id].receiver && InBounds(s.published, s.clients[id].queue)
    requires s.clients[id].progress <= |Current(s.published, s.clients[id])|
    ensures LeftWith(s, Step(s, Write(id, |Current(s.published, s.clients[id])| - s.clients[id].progress)), id,
                     s.clients[id].queue)
  {
    WriteGetsOut(s, id, |Current(s.published, s.clients[id])| - s.clients[id].progress);
  }

  lemma FlushingFlushes(s: Net, id: ClientId)
    requires id in s.clients && s.clients[id].receiver && InBounds(s.published, s.clients[id].queue)
    requires s.clients[id].progress <= |Current(s.published, s.clients[id])|
    ensures LeftWith(s, ExecFrom(s, Flushing(s.published, s.clients[id], id)), id, [])
  {
    FinishFrame(s, id);
    FlushOn(s, Write(id, |Current(s.published, s.clients[id])| - s.clients[id].progress), id);
  }

  lemma FlushOn(s: Net, first: Event, id: ClientId)
    requires id in s.clients && InBounds(s.published, s.clients[id].queue)
    requires LeftWith(s, Step(s, first), id, s.clients[id].queue)
    ensures LeftWith(s, ExecFrom(s, [first] + Emptying(s.published, s.clients[id].queue, id)), id, [])
  {
    EmptyingEmpties(Step(s, first), id);
    ExecFromCons(s, first, Emptying(s.published, s.clients[id].queue, id));
  }

  /**
   A writer that is let run gets everything out. From any moment of any run on which its receiver is there, the
   steps of `Flushing`, at most nine, leave nothing waiting: every frame that was ever accepted for the
   client has been taken, and the bytes on its socket are exactly those frames, whole and in order.
   */
  lemma WriterGetsAllOut(events: seq<Event>, id: ClientId)
    requires id in Exec(events).clients && Exec(events).clients[id].receiver
    ensures InBounds(Exec(events).published, Exec(events).clients[id].queue)
    ensures Exec(events).clients[id].progress <= |Current(Exec(events).published, Exec(events).clients[id])|
    ensures var s := Exec(events);
            var d := Exec(events + Flushing(s.published, s.clients[id], id));
            && d.published == s.published && id in d.clients && d.clients[id].offers == s.clients[id].offers
            && d.clients[id].receiver && d.clients[id].queue == []
            && d.clients[id].taken == Accepted(d.clients[id].since, d.clients[id].offers)
            && InBounds(d.published, d.clients[id].taken)
            && d.clients[id].written == Joined(d.published, d.clients[id].taken)
  {
    var s := Exec(events);
    RunsAreSound(events);
    QueueInBounds(s.published, s.clients[id]);
    FlushingFlushes(s, id);
    var more := Flushing(s.published, s.clients[id], id);
    ExecOn(events, more);
    RunsAreSound(events + more);
    AllOut(Exec(events + more), id);
  }

  lemma AllOut(d: Net, id: ClientId)
    requires Sound(d) && Ready(d, id) && d.clients[id].queue == []
    ensures var c := d.clients[id];
            && c.taken == Accepted(c.since, c.offers) && InBounds(d.published, c.taken)
            && c.written == Joined(d.published, c.taken)
  {
    var c := d.clients[id];
    assert c.taken + [] == c.taken;
    if c.taken != [] {
      var cur := Current(d.published, c);
      assert cur[..|cur|] == cur;
    }
  }

  /** One of these events was the client's failure. */
  ghost predicate FailedIn(events: seq<Event>, id: ClientId) {
    exists i :: 0 <= i < |events| && events[i] == Fail(id) && id in Exec(events[..i]).clients
  }

  lemma ReceiverStep(s: Net, e: Event, id: ClientId)
    requires id in s.clients
    ensures var c, d := s.clients[id], Step(s, e).clients[id];
            && (d.receiver <==> c.receiver && e != Fail(id))
            && (d.receiver && c.listed ==> d.listed)
  {
  }

  lemma NewReceiver(s: Net, e: Event, id: ClientId)
    requires id !in s.clients && id in Step(s, e).clients
    ensures Step(s, e).clients[id].receiver && Step(s, e).clients[id].listed && e != Fail(id)
  {
  }

  /** A client's receiver is there from its registration until its write fails, and on the list as long. */
  lemma {:induction false} ReceiverUntilFail(events: seq<Event>, id: ClientId)
    requires id in Exec(events).clients
    ensures Exec(events).clients[id].receiver <==> !FailedIn(events, id)
    ensures Exec(events).clients[id].receiver ==> Exec(events).clients[id].listed
  {
    if events != [] {
      var init, last := events[..|events| - 1], events[|events| - 1];
      FailedInMore(init, last, id);
      assert events == init + [last];
      if id in Exec(init).clients {
        ReceiverUntilFail(init, id);
        ReceiverStep(Exec(init), last, id);
      } else {
        NotYetFailed(init, id);
        NewReceiver(Exec(init), last, id);
      }
    }
  }

  lemma FailedInMore(init: seq<Event>, last: Event, id: ClientId)
    ensures FailedIn(init + [last], id) <==> FailedIn(init, id) || (last == Fail(id) && id in Exec(init).clients)
  {
    var all := init + [last];
    assert all[..|init|] == init && all[|init|] == last;
    forall i | 0 <= i < |init| ensures all[i] == init[i] && all[..i] == init[..i] {
    }
    if FailedIn(init, id) {
      var i :| 0 <= i < |init| && init[i] == Fail(id) && id in Exec(init[..i]).clients;
      assert all[i] == Fail(id);
    }
  }

  /** Clients are never forgotten. */
  lemma {:induction false} NotYetFailed(events: seq<Event>, id: ClientId)
    requires id !in Exec(events).clients
    ensures !FailedIn(events, id)
  {
    if events != [] {
      var init, last := events[..|events| - 1], events[|events| - 1];
      NotYetFailed(init, id);
      FailedInMore(init, last, id);
      assert events == init + [last];
    }
  }

  // And one that failed

  ghost predicate Publishes(events: seq<Event>) {
    exists i :: 0 <= i < |events| && events[i].Publish?
  }

  /** Whatever happens to a client without a receiver: it leaves the list at the next broadcast. */
  lemma {:induction false} GoneFrom(s: Net, more: seq<Event>, id: ClientId)
    requires id in s.clients && !s.clients[id].receiver
    ensures var d := ExecFrom(s, more);
            id in d.clients && d.clients[id] == s.clients[id].(listed := s.clients[id].listed && !Publishes(more))
    decreases |more|
  {
    if more != [] {
      GoneFrom(Step(s, more[0]), more[1..], id);
      assert forall i :: 0 < i < |more| ==> more[i] == more[1..][i - 1];
      assert Publishes(more) <==> more[0].Publish? || Publishes(more[1..]);
    }
  }

  lemma FailStep(s: Net, id: ClientId)
    requires Sound(s) && id in s.clients && s.clients[id].receiver
    ensures var d := Step(s, Fail(id));
            && id in d.clients && !d.clients[id].receiver && d.clients[id].listed
            && d.clients[id].written == s.clients[id].written && d.clients[id].taken == s.clients[id].taken
            && d.clients[id].queue == s.clients[id].queue
  {
  }

  /**
   Once a client's write has failed, nothing reaches it any more, whatever happens: its bytes, its queue and what
   it took stay as they are, and the next broadcast takes it off the list.
   */
  lemma FailedStaysSilent(events: seq<Event>, id: ClientId, more: seq<Event>)
    requires id in Exec(events).clients && Exec(events).clients[id].receiver
    ensures var c := Exec(events).clients[id];
            var s := Exec(events + ([Fail(id)] + more));
            && id in s.clients && !s.clients[id].receiver
            && s.clients[id].written == c.written && s.clients[id].taken == c.taken && s.clients[id].queue == c.queue
            && (s.clients[id].listed <==> !Publishes(more))
  {
    RunsAreSound(events);
    ExecOn(events, [Fail(id)] + more);
    ExecFromCons(Exec(events), Fail(id), more);
    FailStep(Exec(events), id);
    GoneFrom(Step(Exec(events), Fail(id)), more, id);
  }
}
