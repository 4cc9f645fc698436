/** The server's clients and the list of senders (`procnetd/src/server.rs`), each call one step of a broadcast run. */
module Server {
  import opened Words
  import opened Broadcast

  datatype Ends = Ends(queue: seq<Packet>, receiver: bool, sending: Packet, out: nat, socket: seq<byte>)

  /** A client: both ends of `mpsc::sync_channel(4)`, and how far its writer has come. */
  class Channel {
    var queue: seq<Packet>
    var receiver: bool
    var sending: Packet
    var out: nat
    var socket: seq<byte>

    constructor ()
      ensures State() == Ends([], true, [], 0, [])
    {
      queue, receiver, sending, out, socket := [], true, [], 0, [];
    }

    ghost function State(): Ends
      reads this
    {
      Ends(queue, receiver, sending, out, socket)
    }

    method TrySend(p: Packet) returns (r: SendResult)
      modifies this`queue
      ensures r == Attempt(|old(queue)|, receiver)
      ensures queue == if r.Sent? then old(queue) + [p] else old(queue)
    {
      if !receiver {
        return Disconnected;
      }
      if |queue| >= QUEUE_CAPACITY {
        return Full;
      }
      queue := queue + [p];
      return Sent;
    }

    /** `recv`, once the last frame is out. */
    method Take()
      modifies this
      ensures State() == Taken(old(State()))
    {
      if receiver && queue != [] && out == |sending| {
        sending, out, queue := queue[0], 0, queue[1..];
      }
    }

    /** `write_all` gets `count` more bytes out. */
    method Put(count: nat)
      modifies this
      ensures State() == Written(old(State()), count)
    {
      if receiver && out + count <= |sending| {
        socket := socket + sending[out..out + count];
        out := out + count;
      }
    }

    /** The writer gave up. */
    method Drop()
      modifies this
      ensures State() == old(State()).(receiver := false)
    {
      receiver := false;
    }
  }

  function Taken(e: Ends): Ends {
    if e.receiver && e.queue != [] && e.out == |e.sending|
    then e.(sending := e.queue[0], out := 0, queue := e.queue[1..])
    else e
  }

  function Written(e: Ends, count: nat): Ends {
    if e.receiver && e.out + count <= |e.sending|
    then e.(socket := e.socket + e.sending[e.out..e.out + count], out := e.out + count)
    else e
  }

  ghost function Listening(channels: seq<Channel>): seq<Channel>
    reads channels
  {
    if channels == [] then []
    else
      var init, last := channels[..|channels| - 1], channels[|channels| - 1];
      if last.receiver then Listening(init) + [last] else Listening(init)
  }

  // The server's list, against the run it is in

  ghost predicate Numbered(queue: seq<Packet>, packets: seq<Packet>, numbers: seq<nat>) {
    |queue| == |numbers| && forall i :: 0 <= i < |numbers| ==> numbers[i] < |packets| && queue[i] == packets[numbers[i]]
  }

  /** A client's channel and writer hold what the run says, packets for their numbers. */
  ghost predicate Mirrors(e: Ends, packets: seq<Packet>, c: Client) {
    && e.receiver == c.receiver && e.out == c.progress && e.socket == c.written
    && e.sending == Current(packets, c)
    && (c.taken != [] ==> c.taken[|c.taken| - 1] < |packets|)
    && Numbered(e.queue, packets, c.queue)
  }

  function OfferedEnds(e: Ends, p: Packet): Ends {
    if Attempt(|e.queue|, e.receiver).Sent? then e.(queue := e.queue + [p]) else e
  }

  /** A broadcast, seen by a client on the list and by one that is not. */
  lemma OfferMirrors(e: Ends, net: Net, id: ClientId, p: Packet)
    requires id in net.clients && Mirrors(e, net.published, net.clients[id])
    ensures Mirrors(if net.clients[id].listed then OfferedEnds(e, p) else e,
                    Step(net, Publish(p)).published, Step(net, Publish(p)).clients[id])
  {
  }

  lemma TakeMirrors(e: Ends, net: Net, id: ClientId)
    requires id in net.clients && Mirrors(e, net.published, net.clients[id])
    ensures Mirrors(Taken(e), net.published, Step(net, Event.Receive(id)).clients[id])
  {
  }

  lemma WriteMirrors(e: Ends, net: Net, id: ClientId, count: nat)
    requires id in net.clients && Mirrors(e, net.published, net.clients[id])
    ensures Mirrors(Written(e, count), net.published, Step(net, Event.Write(id, count)).clients[id])
  {
  }

  lemma FailMirrors(e: Ends, net: Net, id: ClientId)
    requires id in net.clients && Mirrors(e, net.published, net.clients[id])
    ensures Mirrors(e.(receiver := false), net.published, Step(net, Event.Fail(id)).clients[id])
  {
  }

  lemma {:induction false} ListeningMembers(channels: seq<Channel>)
    ensures forall i :: 0 <= i < |Listening(channels)| ==>
              Listening(channels)[i] in channels && Listening(channels)[i].receiver
    ensures forall i :: 0 <= i < |channels| && channels[i].receiver ==> channels[i] in Listening(channels)
    ensures NoDuplicates(channels) ==> NoDuplicates(Listening(channels))
  {
    if channels != [] {
      var init, last := channels[..|channels| - 1], channels[|channels| - 1];
      ListeningMembers(init);
      assert channels == init + [last];
      if NoDuplicates(channels) {
        assert last !in init;
      }
    }
  }

  /** The list holds one sender for every client that is on it in the run, and no other. */
  ghost predicate Lists(senders: seq<Channel>, clients: map<ClientId, Channel>, net: Net) {
    && NoDuplicates(senders)
    && clients.Keys == net.clients.Keys
    && (forall a, b :: a in clients && b in clients && a != b ==> clients[a] != clients[b])
    && (forall id :: id in clients ==> (clients[id] in senders <==> net.clients[id].listed))
    && (forall i :: 0 <= i < |senders| ==> senders[i] in clients.Values)
  }

  /** One client's writer moves; the list does not notice. */
  lemma WriterStep(senders: seq<Channel>, clients: map<ClientId, Channel>, net: Net, e: Event)
    requires Lists(senders, clients, net) && !e.Publish? && !e.Register?
    ensures Lists(senders, clients, Step(net, e)) && Step(net, e).published == net.published
    ensures forall x :: x in net.clients && x != e.id ==> Step(net, e).clients[x] == net.clients[x]
  {
  }

  lemma AddOne(senders: seq<Channel>, clients: map<ClientId, Channel>, net: Net, id: ClientId, ch: Channel)
    requires Lists(senders, clients, net) && id !in net.clients && ch !in clients.Values
    ensures Lists(senders + [ch], clients[id := ch], Step(net, Event.Register(id)))
  {
    assert ch !in senders;
    forall i | 0 <= i < |senders + [ch]| ensures (senders + [ch])[i] in clients[id := ch].Values {
      if i < |senders| {
        assert senders[i] in clients.Values;
        var y :| y in clients && clients[y] == senders[i];
        assert clients[id := ch][y] == senders[i];
      } else {
        assert clients[id := ch][id] == ch;
      }
    }
  }

  lemma PublishLists(senders: seq<Channel>, clients: map<ClientId, Channel>, net: Net, p: Packet, next: seq<Channel>)
    requires Lists(senders, clients, net) && NoDuplicates(next)
    requires forall i :: 0 <= i < |next| ==> next[i] in senders
    requires forall id :: id in clients ==>
               (clients[id] in next <==> clients[id] in senders && net.clients[id].receiver)
    ensures Lists(next, clients, Step(net, Publish(p)))
  {
    forall id | id in clients ensures clients[id] in next <==> OfferTo(net.clients[id], |net.published|).listed {
    }
  }

  class SenderList {
    var senders: seq<Channel>
    var clients: map<ClientId, Channel>
    ghost var net: Net

    ghost predicate Mirrored(id: ClientId)
      reads this, clients.Values
    {
      id in clients && id in net.clients && Mirrors(clients[id].State(), net.published, net.clients[id])
    }

    ghost predicate Valid()
      reads this, clients.Values
    {
      Lists(senders, clients, net) && forall id :: id in clients ==> Mirrored(id)
    }

    constructor ()
      ensures Valid() && net == Exec([]) && clients == map[]
    {
      senders, clients, net := [], map[], Net([], map[]);
    }

    /** `retain` over `try_send`: every listening client is offered the frame once, full ones miss it, the others go. */
    method OfferAll(bytes: Packet)
      requires NoDuplicates(senders)
      modifies this`senders, senders`queue
      ensures senders == old(Listening(senders))
      ensures forall ch :: ch in old(senders) ==> ch.State() == OfferedEnds(old(ch.State()), bytes)
    {
      var all := senders;
      var kept: seq<Channel> := [];
      var i := 0;
      while i < |all|
        invariant 0 <= i <= |all|
        invariant senders == all == old(senders)
        invariant forall k :: i <= k < |all| ==> all[k].State() == old(all[k].State())
        invariant forall k :: 0 <= k < i ==> all[k].State() == OfferedEnds(old(all[k].State()), bytes)
        invariant kept == old(Listening(all[..i]))
      {
        var r := all[i].TrySend(bytes);
        if !r.Disconnected? {
          kept := kept + [all[i]];
        }
        assert all[..i + 1][..i] == all[..i];
        i := i + 1;
      }
      assert all[..i] == all;
      senders := kept;
    }

    /** `update_streams`: the run's next broadcast. */
    method UpdateStreams(bytes: Packet)
      requires Valid()
      modifies this`senders, this`net, senders`queue
      ensures Valid() && net == Step(old(net), Publish(bytes)) && clients == old(clients)
    {
      ghost var was, before := net, senders;
      assert forall id :: id in clients ==> Mirrored(id) && clients[id].receiver == net.clients[id].receiver;
      ListeningMembers(senders);
      OfferAll(bytes);
      PublishLists(before, clients, net, bytes, senders);
      forall id | id in clients
        ensures clients[id].State() == if was.clients[id].listed then OfferedEnds(old(clients[id].State()), bytes)
                                       else old(clients[id].State())
      {
        assert clients[id] in before <==> was.clients[id].listed;
      }
      net := Step(net, Publish(bytes));
      forall id | id in clients ensures Mirrored(id) {
        OfferMirrors(old(clients[id].State()), was, id, bytes);
      }
    }

    /** A new client, as `accept_loop` adds it. */
    method Register(id: ClientId)
      requires Valid()
      modifies this
      ensures Valid() && net == Step(old(net), Event.Register(id))
      ensures fresh(clients.Values - old(clients.Values))
    {
      if id !in clients {
        var ch := new Channel();
        AddOne(senders, clients, net, id, ch);
        senders := senders + [ch];
        clients := clients[id := ch];
        net := Step(net, Event.Register(id));
        forall x | x in clients ensures Mirrored(x) {
          assert x != id ==> old(Mirrored(x));
        }
      }
    }

    /** The writer thread takes the next frame, when it is done with the last. */
    method Receive(id: ClientId)
      requires Valid()
      modifies this`net, if id in clients then {clients[id]} else {}
      ensures Valid() && net == Step(old(net), Event.Receive(id)) && clients == old(clients)
      ensures id in clients
              && old(clients[id].receiver && clients[id].queue != [] && clients[id].out == |clients[id].sending|)
              ==> && clients[id].sending == old(clients[id].queue)[0] && clients[id].out == 0
                  && clients[id].queue == old(clients[id].queue)[1..]
    {
      WriterStep(senders, clients, net, Event.Receive(id));
      if id in clients {
        assert Mirrored(id);
        TakeMirrors(clients[id].State(), net, id);
        clients[id].Take();
        net := Step(net, Event.Receive(id));
        forall x | x in clients ensures Mirrored(x) {
          assert old(Mirrored(x));
        }
      }
    }

    /** The writer thread gets `count` more bytes out. */
    method Write(id: ClientId, count: nat)
      requires Valid()
      modifies this`net, if id in clients then {clients[id]} else {}
      ensures Valid() && net == Step(old(net), Event.Write(id, count)) && clients == old(clients)
      ensures id in clients && old(clients[id].receiver && clients[id].out + count <= |clients[id].sending|)
              ==> && clients[id].out == old(clients[id].out) + count
                  && clients[id].socket
                     == old(clients[id].socket + clients[id].sending[clients[id].out..clients[id].out + count])
    {
      WriterStep(senders, clients, net, Event.Write(id, count));
      if id in clients {
        assert Mirrored(id);
        WriteMirrors(clients[id].State(), net, id, count);
        clients[id].Put(count);
        net := Step(net, Event.Write(id, count));
        forall x | x in clients ensures Mirrored(x) {
          assert old(Mirrored(x));
        }
      }
    }

    /** The writer's write failed, and its receiver is dropped. */
    method Fail(id: ClientId)
      requires Valid()
      modifies this`net, if id in clients then {clients[id]} else {}
      ensures Valid() && net == Step(old(net), Event.Fail(id)) && clients == old(clients)
      ensures id in clients ==> !clients[id].receiver
    {
      WriterStep(senders, clients, net, Event.Fail(id));
      if id in clients {
        assert Mirrored(id);
        FailMirrors(clients[id].State(), net, id);
        clients[id].Drop();
        net := Step(net, Event.Fail(id));
        forall x | x in clients ensures Mirrored(x) {
          assert old(Mirrored(x));
        }
      }
    }
  }
}
