/** The in-memory event bus: filtered subscriptions with bounded buffers that drop
    rather than block the publisher. */
module EventBus {

  datatype Event = Event(kind: string, gameUri: string, body: string)

  /** Empty fields match everything. */
  datatype Options = Options(gameUri: string, kinds: seq<string>)

  const BUFFER_SIZE := 256

  predicate Matches(opts: Options, ev: Event) {
    && (opts.gameUri == "" || opts.gameUri == ev.gameUri)
    && (opts.kinds == [] || ev.kind in opts.kinds)
  }

  /** One matching publication: the event, and whether the buffer had room for it. */
  datatype Offer = Offer(event: Event, delivered: bool)

  function Delivered(offers: seq<Offer>): seq<Event> {
    if offers == [] then []
    else
      var n := |offers| - 1;
      Delivered(offers[..n]) + if offers[n].delivered then [offers[n].event] else []
  }

  /** One subscription's channel, its drop counter, and its history: every matching event
      published while it was open, in order, and every event received from it. */
  datatype Stream = Stream(opts: Options, buffer: seq<Event>, dropped: nat, offers: seq<Offer>, consumed: seq<Event>)

  /** Nothing is reordered, invented or lost uncounted. */
  ghost predicate Sound(s: Stream) {
    && s.consumed + s.buffer == Delivered(s.offers)
    && |s.consumed| + |s.buffer| + s.dropped == |s.offers|
    && |s.buffer| <= BUFFER_SIZE
    && (forall o :: o in s.offers ==> Matches(s.opts, o.event))
  }

  /** A send that never blocks: a full buffer drops and counts. */
  function Send(s: Stream, ev: Event): (r: Stream)
    ensures Sound(s) && Matches(s.opts, ev) ==> Sound(r)
  {
    var room := |s.buffer| < BUFFER_SIZE;
    var offers := s.offers + [Offer(ev, room)];
    assert offers[..|offers| - 1] == s.offers;
    if room then s.(buffer := s.buffer + [ev], offers := offers)
    else s.(dropped := s.dropped + 1, offers := offers)
  }

  /** One publication, as one open subscription sees it. */
  function See(s: Stream, ev: Event): (r: Stream)
    ensures Sound(s) ==> Sound(r)
  {
    if Matches(s.opts, ev) then Send(s, ev) else s
  }

  /** One publication, as the given subscriptions see it. */
  function SeeAll(streams: map<nat, Stream>, subs: set<nat>, ev: Event): map<nat, Stream> {
    map id | id in streams :: if id in subs then See(streams[id], ev) else streams[id]
  }

  lemma SeeOneMore(streams: map<nat, Stream>, subs: set<nat>, id: nat, ev: Event)
    requires id in streams && id !in subs
    ensures SeeAll(streams, subs, ev)[id := See(streams[id], ev)] == SeeAll(streams, subs + {id}, ev)
  {
  }

  class Bus {
    var nextId: nat
    /** Registered subscriptions. */
    var subs: set<nat>
    /** Every channel handed out, open or closed: a subscriber may still drain a closed one. */
    var streams: map<nat, Stream>

    constructor ()
      ensures Valid() && subs == {} && streams == map[]
    {
      nextId, subs, streams := 0, {}, map[];
    }

    ghost predicate Valid()
      reads this
    {
      && subs <= streams.Keys
      && forall id :: id in streams ==> id <= nextId && Sound(streams[id])
    }

    method Subscribe(opts: Options) returns (id: nat)
      requires Valid()
      modifies this
      ensures Valid()
      ensures id !in old(streams)
      ensures subs == old(subs) + {id}
      ensures streams == old(streams)[id := Stream(opts, [], 0, [], [])]
    {
      nextId := nextId + 1;
      id := nextId;
      streams := streams[id := Stream(opts, [], 0, [], [])];
      subs := subs + {id};
    }

    /** Cancelling twice, or a subscription the bus does not know, does nothing. */
    method Close(id: nat)
      requires Valid()
      modifies this`subs
      ensures Valid() && subs == old(subs) - {id}
    {
      subs := subs - {id};
    }

    /** Every open matching subscription is offered the event exactly once; every other
        stream, and every closed one, is left alone. */
    method Publish(ev: Event)
      requires Valid()
      modifies this`streams
      ensures Valid()
      ensures streams == SeeAll(old(streams), subs, ev)
    {
      var id := 0;
      var sent: set<nat> := {};
      while id <= nextId
        invariant 0 <= id <= nextId + 1
        invariant sent == set k | k in subs && k < id
        invariant streams == SeeAll(old(streams), sent, ev)
      {
        if id in subs {
          SeeOneMore(old(streams), sent, id, ev);
          streams := streams[id := See(streams[id], ev)];
          sent := sent + {id};
        }
        id := id + 1;
      }
      assert sent == subs;
      forall k | k in streams ensures Sound(streams[k]) {
        assert Sound(old(streams)[k]);
      }
    }

    /** A subscriber takes the oldest buffered event, if there is one. */
    method Receive(id: nat) returns (ok: bool, ev: Event)
      requires Valid() && id in streams
      modifies this`streams
      ensures Valid()
      ensures ok == (old(streams)[id].buffer != [])
      ensures ok ==> var s := old(streams)[id];
                ev == s.buffer[0] &&
                streams == old(streams)[id := s.(buffer := s.buffer[1..], consumed := s.consumed + [ev])]
      ensures !ok ==> streams == old(streams)
    {
      var s := streams[id];
      ok := s.buffer != [];
      if !ok { return false, Event("", "", ""); }
      ev := s.buffer[0];
      assert s.consumed + [ev] + s.buffer[1..] == s.consumed + s.buffer;
      streams := streams[id := s.(buffer := s.buffer[1..], consumed := s.consumed + [ev])];
    }
  }

  // ---- what a subscriber sees --------------------------------------------

  function Events(offers: seq<Offer>): (r: seq<Event>) {
    seq(|offers|, i requires 0 <= i < |offers| => offers[i].event)
  }

  /** `picks` are ascending positions of `all` at which `part` is found, in order. */
  ghost predicate PicksOut(part: seq<Event>, all: seq<Event>, picks: seq<int>) {
    && |picks| == |part|
    && (forall i, j :: 0 <= i < j < |picks| ==> picks[i] < picks[j])
    && (forall i :: 0 <= i < |picks| ==> 0 <= picks[i] < |all| && part[i] == all[picks[i]])
  }

  /** What was consumed and what is buffered, together, is an in-order subsequence of the
      matching events published since subscribing. */
  lemma {:induction false} DeliveredInOrder(offers: seq<Offer>) returns (picks: seq<int>)
    ensures PicksOut(Delivered(offers), Events(offers), picks)
  {
    if offers == [] {
      picks := [];
    } else {
      var n := |offers| - 1;
      picks := DeliveredInOrder(offers[..n]);
      assert Events(offers) == Events(offers[..n]) + [offers[n].event];
      if offers[n].delivered {
        picks := picks + [n];
      }
    }
  }

  /** An event is missed only when a full buffer dropped it. */
  lemma {:induction false} NothingMissedUnlessDropped(offers: seq<Offer>)
    ensures |Delivered(offers)| <= |offers|
    ensures |Delivered(offers)| == |offers| <==> Delivered(offers) == Events(offers)
  {
    if offers != [] {
      var n := |offers| - 1;
      NothingMissedUnlessDropped(offers[..n]);
      assert Events(offers) == Events(offers[..n]) + [offers[n].event];
    }
  }

  // ---- which events, and how many ----------------------------------------

  /** An event of the subscription's game, or of any if it names none, and of a kind it lists, or of
      any if it lists none. */
  predicate Wants(opts: Options, ev: Event) {
    && (|opts.gameUri| == 0 || ev.gameUri == opts.gameUri)
    && (|opts.kinds| == 0 || exists i :: 0 <= i < |opts.kinds| && opts.kinds[i] == ev.kind)
  }

  function Wanted(opts: Options, evs: seq<Event>): seq<Event> {
    if evs == [] then [] else Wanted(opts, evs[..|evs| - 1]) + if Wants(opts, evs[|evs| - 1]) then [evs[|evs| - 1]] else []
  }

  /** One publication after the other, as one open subscription sees them. */
  function SeeInTurn(s: Stream, evs: seq<Event>): Stream {
    if evs == [] then s else See(SeeInTurn(s, evs[..|evs| - 1]), evs[|evs| - 1])
  }

  /** Every wanted event is offered, in order, and no other, whatever the buffer holds. */
  lemma {:induction false} OfferedAsWanted(s: Stream, evs: seq<Event>)
    ensures var r := SeeInTurn(s, evs); Events(r.offers) == Events(s.offers) + Wanted(s.opts, evs) && r.opts == s.opts
  {
    if evs != [] {
      var before, ev := SeeInTurn(s, evs[..|evs| - 1]), evs[|evs| - 1];
      OfferedAsWanted(s, evs[..|evs| - 1]);
      var r := SeeInTurn(s, evs);
      if Wants(s.opts, ev) {
        assert Events(r.offers) == Events(before.offers) + [ev];
      }
    }
  }

  /** A subscriber that reads nothing keeps the first 256 of them and is told how many it missed. */
  lemma {:induction false} UnreadKeepsFirst(opts: Options, evs: seq<Event>)
    ensures var s, w := SeeInTurn(Stream(opts, [], 0, [], []), evs), Wanted(opts, evs);
      s.buffer == (if |w| <= 256 then w else w[..256]) && s.dropped == |w| - |s.buffer| && s.opts == opts
  {
    if evs != [] { UnreadKeepsFirst(opts, evs[..|evs| - 1]); }
  }
}
