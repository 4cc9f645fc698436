/** What a client decodes: framing, broadcast and the daemon's clock put together. */
module Delivery {
  import opened Words
  import opened StatsTypes
  import opened Codec
  import opened Layout
  import opened Framing
  import B = Broadcast
  import D = Daemon

  /** Each broadcast packet is the frame of one message. */
  ghost predicate Carries<T>(c: Codec<T>, packets: seq<B.Packet>, msgs: seq<T>) {
    && |packets| == |msgs|
    && AllFit(c, msgs)
    && forall i :: 0 <= i < |msgs| ==> packets[i] == Frame(c, msgs[i])
  }

  ghost function Pick<T>(msgs: seq<T>, which: seq<nat>): (r: seq<T>)
    requires forall i :: 0 <= i < |which| ==> which[i] < |msgs|
    ensures |r| == |which| && forall i :: 0 <= i < |which| ==> r[i] == msgs[which[i]]
  {
    seq(|which|, i requires 0 <= i < |which| => msgs[which[i]])
  }

  lemma {:induction false} JoinedIsStream<T>(c: Codec<T>, packets: seq<B.Packet>, msgs: seq<T>, which: seq<nat>)
    requires Carries(c, packets, msgs) && B.InBounds(packets, which)
    ensures B.Joined(packets, which) == Stream(c, Pick(msgs, which))
  {
    if which != [] {
      var init, last := which[..|which| - 1], which[|which| - 1];
      JoinedIsStream(c, packets, msgs, init);
      assert Pick(msgs, which) == Pick(msgs, init) + [msgs[last]];
      StreamAppend(c, Pick(msgs, init), [msgs[last]]);
      assert Stream(c, [msgs[last]]) == Frame(c, msgs[last]) + Stream(c, [msgs[last]][1..]);
    }
  }

  lemma PrefixOfJoin(a: seq<byte>, b: seq<byte>, n: nat)
    requires n <= |b|
    ensures (a + b)[..|a| + n] == a + b[..n]
  {
  }

  lemma WrittenIsPrefixOfTaken(packets: seq<B.Packet>, cl: B.Client)
    requires B.BytesSound(packets, cl)
    ensures |cl.written| <= |B.Joined(packets, cl.taken)|
    ensures cl.written == B.Joined(packets, cl.taken)[..|cl.written|]
  {
    if cl.taken != [] {
      var before, cur := B.Joined(packets, cl.taken[..|cl.taken| - 1]), B.Current(packets, cl);
      PrefixOfJoin(before, cur, cl.progress);
      assert |cl.written| == |before| + cl.progress;
    }
  }

  /** The bytes on a client's socket are a prefix of the stream of the messages its writer took. */
  lemma WrittenIsPrefix<T>(c: Codec<T>, packets: seq<B.Packet>, msgs: seq<T>, cl: B.Client)
    requires Carries(c, packets, msgs) && B.BytesSound(packets, cl)
    ensures var s := Stream(c, Pick(msgs, cl.taken));
            |cl.written| <= |s| && cl.written == s[..|cl.written|]
  {
    JoinedIsStream(c, packets, msgs, cl.taken);
    WrittenIsPrefixOfTaken(packets, cl);
  }

  ghost predicate Increasing(s: seq<nat>) {
    forall i, j :: 0 <= i < j < |s| ==> s[i] < s[j]
  }

  /** The broadcasts a writer took are in order and no older than its registration. */
  lemma TakenInOrder(packets: seq<B.Packet>, cl: B.Client)
    requires B.QueueSound(packets, cl)
    ensures Increasing(cl.taken) && forall i :: 0 <= i < |cl.taken| ==> cl.since <= cl.taken[i] < |packets|
  {
    B.AcceptedInOrder(cl.since, cl.offers);
    var all := cl.taken + cl.queue;
    forall i | 0 <= i < |cl.taken| ensures cl.since <= cl.taken[i] < |packets| {
      assert all[i] == cl.taken[i];
    }
    forall i, j | 0 <= i < j < |cl.taken| ensures cl.taken[i] < cl.taken[j] {
      assert all[i] == cl.taken[i] && all[j] == cl.taken[j];
    }
  }

  /**
   For every run of broadcasts, drops, registrations, partial writes and failures: what any prefix of a
   client's bytes decodes to is the first messages its writer took, which are in order among those
   published since it registered; then the input runs out. Nothing is garbled, repeated or reordered.
   */
  lemma ClientDecodes<T(!new)>(c: Codec<T>, events: seq<B.Event>, msgs: seq<T>, id: B.ClientId, k: nat) returns (n: nat)
    requires RoundTrips(c) && Carries(c, B.Exec(events).published, msgs)
    requires id in B.Exec(events).clients && k <= |B.Exec(events).clients[id].written|
    ensures var cl := B.Exec(events).clients[id];
            && n <= |cl.taken| && Increasing(cl.taken)
            && (forall i :: 0 <= i < |cl.taken| ==> cl.since <= cl.taken[i] < |msgs|)
            && ReadAll(c, cl.written[..k]) == (Pick(msgs, cl.taken[..n]), OutOfInput)
  {
    B.RunsAreSound(events);
    var packets, cl := B.Exec(events).published, B.Exec(events).clients[id];
    assert B.ClientSound(packets, cl);
    TakenInOrder(packets, cl);
    WrittenIsPrefix(c, packets, msgs, cl);
    var picked := Pick(msgs, cl.taken);
    var s := Stream(c, picked);
    assert s[..|cl.written|][..k] == s[..k];
    CutStream(c, picked, k);
    n := WholeFrames(c, picked, k);
    assert picked[..n] == Pick(msgs, cl.taken[..n]);
  }

  // What a client that keeps up decodes

  lemma {:induction false} AcceptedAll(since: nat, offers: seq<B.Offer>)
    requires B.Dropped(offers) == 0
    ensures |B.Accepted(since, offers)| == |offers|
    ensures forall i :: 0 <= i < |offers| ==> B.Accepted(since, offers)[i] == since + i
  {
    if offers != [] {
      AcceptedAll(since, offers[..|offers| - 1]);
    }
  }

  /** A client's bytes once its writer has been let run: those of every message accepted for it. */
  lemma FlushedDecodes<T(!new)>(c: Codec<T>, packets: seq<B.Packet>, msgs: seq<T>, which: seq<nat>)
    requires RoundTrips(c) && Carries(c, packets, msgs) && B.InBounds(packets, which)
    ensures ReadAll(c, B.Joined(packets, which)) == (Pick(msgs, which), OutOfInput)
  {
    JoinedIsStream(c, packets, msgs, which);
    StreamRoundTrip(c, Pick(msgs, which));
  }

  lemma PickFrom<T>(msgs: seq<T>, since: nat, which: seq<nat>)
    requires since <= |msgs| && |which| == |msgs| - since
    requires forall i :: 0 <= i < |which| ==> which[i] == since + i
    ensures Pick(msgs, which) == msgs[since..]
  {
  }

  /**
   The other half of delivery. From any moment of any run, once its writer is let run, a client decodes every
   message that found room in its queue, and if none was dropped, every message published since it registered.
   */
  lemma KeptUpDecodesAll<T(!new)>(c: Codec<T>, events: seq<B.Event>, msgs: seq<T>, id: B.ClientId)
    returns (more: seq<B.Event>)
    requires RoundTrips(c) && Carries(c, B.Exec(events).published, msgs)
    requires id in B.Exec(events).clients && B.Exec(events).clients[id].receiver
    ensures |more| <= 9 && id in B.Exec(events + more).clients
    ensures var cl := B.Exec(events + more).clients[id];
            && cl.offers == B.Exec(events).clients[id].offers && cl.taken == B.Accepted(cl.since, cl.offers)
            && (forall i :: 0 <= i < |cl.taken| ==> cl.taken[i] < |msgs|)
            && ReadAll(c, cl.written) == (Pick(msgs, cl.taken), OutOfInput)
            && (B.Dropped(cl.offers) == 0 ==> cl.since <= |msgs| && ReadAll(c, cl.written).0 == msgs[cl.since..])
  {
    var s := B.Exec(events);
    B.WriterGetsAllOut(events, id);
    more := B.Flushing(s.published, s.clients[id], id);
    B.RunsAreSound(events);
    EmptyingShort(s.published, s.clients[id].queue, id);
    var cl := B.Exec(events + more).clients[id];
    FlushedDecodes(c, s.published, msgs, cl.taken);
    B.RunsAreSound(events + more);
    assert B.QueueSound(s.published, cl);
    if B.Dropped(cl.offers) == 0 {
      AcceptedAll(cl.since, cl.offers);
      PickFrom(msgs, cl.since, cl.taken);
    }
  }

  lemma {:induction false} EmptyingShort(packets: seq<B.Packet>, queue: seq<nat>, id: B.ClientId)
    requires B.InBounds(packets, queue)
    ensures |B.Emptying(packets, queue, id)| == 2 * |queue|
  {
    if queue != [] {
      EmptyingShort(packets, queue[1..], id);
    }
  }

  /** A client registered at `since` decoded `got`, whose message `y` is number `taken[y]` of those published. */
  ghost predicate Received<T>(msgs: seq<T>, since: nat, taken: seq<nat>, got: seq<T>) {
    && Increasing(taken) && |got| <= |taken|
    && forall y :: 0 <= y < |got| ==> since <= taken[y] < |msgs| && got[y] == msgs[taken[y]]
  }

  lemma PickedAreReceived<T>(msgs: seq<T>, since: nat, taken: seq<nat>, n: nat)
    requires Increasing(taken) && n <= |taken| && forall i :: 0 <= i < |taken| ==> since <= taken[i] < |msgs|
    ensures Received(msgs, since, taken, Pick(msgs, taken[..n]))
  {
  }

  /** The snapshots of a daemon run: message `i` was made in iteration `i`. The last iteration may have made none. */
  ghost predicate FromRun(msgs: seq<SnapshotData>, l: D.Log) {
    && D.Allowed(l)
    && |msgs| <= |D.Published(l)|
    && forall i :: 0 <= i < |msgs| ==>
         && D.Allowed(D.Published(l)[i])
         && msgs[i].tick == D.TimeAfter(D.Published(l)[i]).tick
         && msgs[i].interval == D.TimeAfter(D.Published(l)[i]).interval
  }

  /**
   What a client can trust of the clock in the snapshots it decoded: each interval is in range, each tick
   is the number of iterations since the start or the last reset, and between resets ticks increase.
   */
  ghost predicate ClockIsTrue(l: D.Log, taken: seq<nat>, got: seq<SnapshotData>) {
    && |got| <= |taken|
    && (forall y :: 0 <= y < |got| ==>
          && taken[y] < |D.Published(l)| && 100 <= got[y].interval <= 5000
          && got[y].tick == D.Iterations(D.Published(l)[taken[y]]) && got[y].tick >= 1)
    && (forall i, j :: 0 <= i < j < |got| ==>
          (D.Resets(D.Published(l)[taken[i]]) == D.Resets(D.Published(l)[taken[j]]) ==> got[i].tick < got[j].tick))
  }

  lemma OneClock(msgs: seq<SnapshotData>, l: D.Log, m: nat)
    requires FromRun(msgs, l) && |D.Published(l)| < U64_LIMIT && m < |msgs|
    ensures 100 <= msgs[m].interval <= 5000
    ensures msgs[m].tick == D.Iterations(D.Published(l)[m]) && msgs[m].tick >= 1
  {
    D.ClockOverRuns(D.Published(l)[m]);
    D.PublishedGrows(l, m);
    D.FewIterations(D.Published(l)[m]);
    D.PublishedPrefix(l, m);
    D.PublishedTick(D.Published(l)[m]);
  }

  lemma ReceivedClock(msgs: seq<SnapshotData>, l: D.Log, since: nat, taken: seq<nat>, got: seq<SnapshotData>)
    requires FromRun(msgs, l) && |D.Published(l)| < U64_LIMIT && Received(msgs, since, taken, got)
    ensures ClockIsTrue(l, taken, got)
  {
    forall y | 0 <= y < |got|
      ensures 100 <= got[y].interval <= 5000
      ensures got[y].tick == D.Iterations(D.Published(l)[taken[y]]) && got[y].tick >= 1
    {
      OneClock(msgs, l, taken[y]);
    }
    forall i, j | 0 <= i < j < |got| && D.Resets(D.Published(l)[taken[i]]) == D.Resets(D.Published(l)[taken[j]])
      ensures got[i].tick < got[j].tick
    {
      D.TicksIncrease(l, taken[i], taken[j]);
    }
  }
}
