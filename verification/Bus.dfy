/**
 * The in-process bus, bus.go 49-97: publishing and subscribing each take the lock once, and hand out messages
 * after they have let go of it, so that deliveries of several callers may come in any order.
 */
module Buses {
  import opened Wrappers
  import opened Sorting

  type Topic = string
  type Payload = string

  /** A message, numbered by when it was published. */
  datatype Msg = Msg(number: nat, body: Payload)

  datatype Delivery = Delivery(sub: nat, msg: Msg)

  datatype Durability = Volatile | TransientLocal

  /** How many messages a publisher leaves for late subscribers. */
  function Keep(durability: Durability, depth: int): nat {
    if durability == Volatile then 0 else if depth <= 0 then 1 else depth
  }

  /** Subscribers, numbered by when they joined, by topic; the messages kept, by topic; what each critical
      section left its caller to hand out; and what was handed out. */
  datatype Bus = Bus(
    published: nat, joined: nat, subs: map<Topic, seq<nat>>, latched: map<Topic, seq<Msg>>,
    flights: seq<seq<Delivery>>, delivered: seq<Delivery>)

  const NEW_BUS := Bus(0, 0, map[], map[], [], [])

  /** Two critical sections, and one step of a caller that hands out what is left for it to hand out. */
  datatype Event =
    | Publish(topic: Topic, keep: nat, body: Payload)
    | Subscribe(topic: Topic, durable: bool)
    | Deliver(f: nat)

  function Of<V>(m: map<Topic, seq<V>>, topic: Topic): seq<V> {
    if topic in m then m[topic] else []
  }

  /** One message for many subscribers. */
  function Fan(subs: seq<nat>, m: Msg): seq<Delivery> {
    seq(|subs|, i requires 0 <= i < |subs| => Delivery(subs[i], m))
  }

  lemma FanLength(subs: seq<nat>, m: Msg)
    ensures |Fan(subs, m)| == |subs| && forall i :: 0 <= i < |subs| ==> Fan(subs, m)[i] == Delivery(subs[i], m)
  {
  }

  /** Many messages for one subscriber. */
  function Replay(s: nat, ms: seq<Msg>): seq<Delivery> {
    seq(|ms|, i requires 0 <= i < |ms| => Delivery(s, ms[i]))
  }

  function Step(b: Bus, e: Event): Bus {
    match e
    case Publish(topic, keep, body) =>
      var m := Msg(b.published, body);
      b.(published := b.published + 1,
         latched := if keep > 0 then b.latched[topic := Last(Of(b.latched, topic) + [m], keep)] else b.latched,
         flights := b.flights + [Fan(Of(b.subs, topic), m)])
    case Subscribe(topic, durable) =>
      b.(joined := b.joined + 1,
         subs := b.subs[topic := Of(b.subs, topic) + [b.joined]],
         flights := b.flights + [if durable then Replay(b.joined, Of(b.latched, topic)) else []])
    case Deliver(f) =>
      if f < |b.flights| && b.flights[f] != [] then
        b.(delivered := b.delivered + [b.flights[f][0]], flights := b.flights[f := b.flights[f][1..]])
      else b
  }

  function Steps(events: seq<Event>): Bus {
    if events == [] then NEW_BUS else Step(Steps(events[..|events| - 1]), events[|events| - 1])
  }

  // ----- what a subscriber is owed, said by the run alone -----

  function Published(events: seq<Event>): nat {
    if events == [] then 0
    else Published(events[..|events| - 1]) + if events[|events| - 1].Publish? then 1 else 0
  }

  /** All messages published on the topic. */
  function Publications(events: seq<Event>, topic: Topic): seq<Msg> {
    if events == [] then []
    else
      var before := events[..|events| - 1];
      var last := events[|events| - 1];
      Publications(before, topic)
      + if last.Publish? && last.topic == topic then [Msg(Published(before), last.body)] else []
  }

  /** Those among them that publishers keep. */
  function Durables(events: seq<Event>, topic: Topic): seq<Msg> {
    if events == [] then []
    else
      var before := events[..|events| - 1];
      var last := events[|events| - 1];
      Durables(before, topic)
      + if last.Publish? && last.topic == topic && last.keep > 0 then [Msg(Published(before), last.body)] else []
  }

  /** What is kept: each publisher that keeps adds its message and cuts the history to its own depth. */
  function Retained(events: seq<Event>, topic: Topic): seq<Msg> {
    if events == [] then []
    else
      var before := events[..|events| - 1];
      var last := events[|events| - 1];
      if last.Publish? && last.topic == topic && last.keep > 0 then
        Last(Retained(before, topic) + [Msg(Published(before), last.body)], last.keep)
      else Retained(before, topic)
  }

  function Joined(events: seq<Event>): nat {
    if events == [] then 0
    else Joined(events[..|events| - 1]) + if events[|events| - 1].Subscribe? then 1 else 0
  }

  /** The events up to the one that subscriber s joined by, that one included. */
  function JoinRun(events: seq<Event>, s: nat): (r: seq<Event>)
    requires s < Joined(events)
    ensures |r| > 0 && r[|r| - 1].Subscribe?
  {
    var before := events[..|events| - 1];
    if s < Joined(before) then JoinRun(before, s) else events
  }

  function TopicOf(events: seq<Event>, s: nat): Topic
    requires s < Joined(events)
  {
    var run := JoinRun(events, s);
    run[|run| - 1].topic
  }

  /** From before it joined: what was kept then, if it asked for that. */
  function History(events: seq<Event>, s: nat): seq<Msg>
    requires s < Joined(events)
  {
    var run := JoinRun(events, s);
    if run[|run| - 1].durable then Retained(run[..|run| - 1], run[|run| - 1].topic) else []
  }

  /** From after it joined: everything on its topic. */
  function Live(events: seq<Event>, s: nat): seq<Msg>
    requires s < Joined(events)
  {
    var before := events[..|events| - 1];
    var last := events[|events| - 1];
    if s >= Joined(before) then []
    else
      Live(before, s) + if last.Publish? && last.topic == TopicOf(events, s) then [Msg(Published(before), last.body)]
        else []
  }

  function Owed(events: seq<Event>, s: nat): seq<Msg> {
    if s < Joined(events) then History(events, s) + Live(events, s) else []
  }

  /** Live is what the topic carried since: its publications now, without those of when the subscriber joined. */
  lemma {:induction false} LiveIsTheRest(events: seq<Event>, s: nat)
    requires s < Joined(events)
    ensures Publications(events, TopicOf(events, s)) ==
      Publications(JoinRun(events, s), TopicOf(events, s)) + Live(events, s)
  {
    var before := events[..|events| - 1];
    JoinedSame(events, s);
    JoinRunSame(events, s);
    if s < Joined(before) {
      hide Joined, JoinRun, TopicOf, History;
      LiveIsTheRest(before, s);
    } else {
      hide Publications;
    }
  }

  // ----- what a subscriber gets -----

  function Received(ds: seq<Delivery>, s: nat): seq<Msg> {
    if ds == [] then []
    else Received(ds[..|ds| - 1], s) + if ds[|ds| - 1].sub == s then [ds[|ds| - 1].msg] else []
  }

  /** Still to be handed out to s. */
  function Pending(flights: seq<seq<Delivery>>, s: nat): multiset<Msg> {
    if flights == [] then multiset{}
    else Pending(flights[..|flights| - 1], s) + multiset(Received(flights[|flights| - 1], s))
  }

  lemma {:induction false} ReceivedAppend(a: seq<Delivery>, b: seq<Delivery>, s: nat)
    ensures Received(a + b, s) == Received(a, s) + Received(b, s)
  {
    if b == [] {
      assert a + b == a;
    } else {
      ReceivedAppend(a, b[..|b| - 1], s);
      assert (a + b)[..|a + b| - 1] == a + b[..|b| - 1];
    }
  }

  lemma ReceivedOne(d: Delivery, s: nat)
    ensures Received([d], s) == if d.sub == s then [d.msg] else []
  {
    assert [d][..0] == [];
    assert Received([], s) == [];
  }

  lemma {:induction false} ReceivedFan(subs: seq<nat>, m: Msg, s: nat)
    requires Distinct(subs)
    ensures Received(Fan(subs, m), s) == if s in subs then [m] else []
  {
    if subs != [] {
      var last := |subs| - 1;
      assert Fan(subs, m)[..last] == Fan(subs[..last], m);
      assert subs == subs[..last] + [subs[last]];
      DistinctSnoc(subs[..last], subs[last]);
      ReceivedFan(subs[..last], m, s);
    }
  }

  lemma {:induction false} ReceivedReplay(r: nat, ms: seq<Msg>, s: nat)
    ensures Received(Replay(r, ms), s) == if s == r then ms else []
  {
    if ms != [] {
      var last := |ms| - 1;
      assert Replay(r, ms)[..last] == Replay(r, ms[..last]);
      ReceivedReplay(r, ms[..last], s);
      assert ms == ms[..last] + [ms[last]];
    }
  }

  lemma PendingSnoc(flights: seq<seq<Delivery>>, f: seq<Delivery>, s: nat)
    ensures Pending(flights + [f], s) == Pending(flights, s) + multiset(Received(f, s))
  {
    assert (flights + [f])[..|flights|] == flights;
  }

  lemma Regroup(a: multiset<Msg>, b: multiset<Msg>, c: multiset<Msg>, d: multiset<Msg>, t: multiset<Msg>)
    requires a + b == d + t
    ensures (a + c) + b == (d + c) + t
  {
    assert (a + c) + b == (a + b) + c;
    assert (d + c) + t == (d + t) + c;
  }

  lemma {:induction false} PendingUpdate(flights: seq<seq<Delivery>>, f: nat, to: seq<Delivery>, s: nat)
    requires f < |flights|
    ensures Pending(flights[f := to], s) + multiset(Received(flights[f], s)) ==
      Pending(flights, s) + multiset(Received(to, s))
  {
    hide Received;
    var last := |flights| - 1;
    if f == last {
      assert flights[f := to][..last] == flights[..last];
    } else {
      PendingUpdate(flights[..last], f, to, s);
      var changed := flights[f := to];
      assert changed[..last] == flights[..last][f := to] && changed[last] == flights[last];
      assert Pending(changed, s) == Pending(flights[..last][f := to], s) + multiset(Received(flights[last], s));
      assert Pending(flights, s) == Pending(flights[..last], s) + multiset(Received(flights[last], s));
      Regroup(Pending(flights[..last][f := to], s), multiset(Received(flights[f], s)),
        multiset(Received(flights[last], s)),
        Pending(flights[..last], s), multiset(Received(to, s)));
    }
  }

  /** All that s was or will be handed. */
  function Total(b: Bus, s: nat): multiset<Msg> {
    multiset(Received(b.delivered, s)) + Pending(b.flights, s)
  }

  /** The bus agrees with the run. */
  ghost predicate Agrees(b: Bus, events: seq<Event>) {
    && b.published == Published(events) && b.joined == Joined(events)
    && (forall topic :: Of(b.latched, topic) == Retained(events, topic))
    && (forall topic :: Joiners(Of(b.subs, topic), events, topic))
  }

  /** These are the subscribers of the topic, each once. */
  ghost predicate Joiners(subs: seq<nat>, events: seq<Event>, topic: Topic) {
    && Distinct(subs)
    && forall s: nat :: s in subs <==> s < Joined(events) && TopicOf(events, s) == topic
  }

  lemma {:induction false} BusAgrees(events: seq<Event>)
    ensures Agrees(Steps(events), events)
  {
    if events != [] {
      var before := events[..|events| - 1];
      var last := events[|events| - 1];
      BusAgrees(before);
      var b := Steps(before);
      SubsAgree(b, last, events);
    }
  }

  lemma SubsAgree(b: Bus, e: Event, events: seq<Event>)
    requires events != [] && events[|events| - 1] == e && Agrees(b, events[..|events| - 1])
    ensures forall topic :: Joiners(Of(Step(b, e).subs, topic), events, topic)
  {
    var before := events[..|events| - 1];
    forall topic ensures Joiners(Of(Step(b, e).subs, topic), events, topic) {
      assert Joiners(Of(b.subs, topic), before, topic);
      TopicAgrees(b, e, events, topic);
    }
  }

  lemma TopicAgrees(b: Bus, e: Event, events: seq<Event>, topic: Topic)
    requires events != [] && events[|events| - 1] == e && b.joined == Joined(events[..|events| - 1])
    requires Joiners(Of(b.subs, topic), events[..|events| - 1], topic)
    ensures Joiners(Of(Step(b, e).subs, topic), events, topic)
  {
    hide Distinct, Joined, TopicOf;
    var before, subs, after := events[..|events| - 1], Of(b.subs, topic), Of(Step(b, e).subs, topic);
    DistinctSnoc(subs, b.joined);
    var joins := e.Subscribe? && e.topic == topic;
    assert after == if joins then subs + [b.joined] else subs;
    forall s: nat ensures s in after <==> s < Joined(events) && TopicOf(events, s) == topic {
      JoinerStep(events, topic, s);
      assert s in after <==> s in subs || (joins && s == b.joined);
    }
  }

  lemma JoinerStep(events: seq<Event>, topic: Topic, s: nat)
    requires events != []
    ensures var before, e := events[..|events| - 1], events[|events| - 1];
      (s < Joined(events) && TopicOf(events, s) == topic) <==>
        (s < Joined(before) && TopicOf(before, s) == topic) || (e.Subscribe? && e.topic == topic && s == Joined(before))
  {
    hide Joined, JoinRun;
    JoinRunSame(events, s);
  }

  // ----- exactly once -----

  /** One critical section or delivery, seen from subscriber s. */
  lemma OneStep(b: Bus, e: Event, events: seq<Event>, s: nat)
    requires events != [] && events[|events| - 1] == e && Agrees(b, events[..|events| - 1])
    requires Total(b, s) == multiset(Owed(events[..|events| - 1], s))
    ensures Total(Step(b, e), s) == multiset(Owed(events, s))
  {
    hide *;
    match e
    case Publish(topic, keep, body) => OnePublished(b, e, events, s);
    case Subscribe(topic, durable) => OneSubscribed(b, e, events, s);
    case Deliver(f) =>
      OneDelivered(b, f, s);
      DeliveredOwed(e, events, s);
  }

  lemma DeliveredOwed(e: Event, events: seq<Event>, s: nat)
    requires e.Deliver? && events != [] && events[|events| - 1] == e
    ensures Owed(events, s) == Owed(events[..|events| - 1], s)
  {
    hide *;
    JoinedSame(events, s);
    LiveMore(events, s);
  }

  /** A subscriber of before is the same subscriber now. */
  lemma JoinedSame(events: seq<Event>, s: nat)
    requires events != []
    ensures Joined(events) == Joined(events[..|events| - 1]) + if events[|events| - 1].Subscribe? then 1 else 0
    ensures s < Joined(events[..|events| - 1]) ==> TopicOf(events, s) == TopicOf(events[..|events| - 1], s)
    ensures s < Joined(events[..|events| - 1]) ==> History(events, s) == History(events[..|events| - 1], s)
  {
    hide *;
    JoinRunSame(events, s);
    if s < Joined(events[..|events| - 1]) {
      SameRun(events, events[..|events| - 1], s);
    }
  }

  lemma SameRun(a: seq<Event>, b: seq<Event>, s: nat)
    requires s < Joined(a) && s < Joined(b) && JoinRun(a, s) == JoinRun(b, s)
    ensures TopicOf(a, s) == TopicOf(b, s) && History(a, s) == History(b, s)
  {
    hide Joined, JoinRun, Retained;
  }

  lemma JoinRunSame(events: seq<Event>, s: nat)
    requires events != []
    ensures Joined(events) == Joined(events[..|events| - 1]) + if events[|events| - 1].Subscribe? then 1 else 0
    ensures s < Joined(events[..|events| - 1]) ==> JoinRun(events, s) == JoinRun(events[..|events| - 1], s)
    ensures s == Joined(events[..|events| - 1]) < Joined(events) ==> JoinRun(events, s) == events
  {
  }

  /** One more flight. */
  lemma TotalGrows(b: Bus, b': Bus, flight: seq<Delivery>, s: nat)
    requires b'.delivered == b.delivered && b'.flights == b.flights + [flight]
    ensures Total(b', s) == Total(b, s) + multiset(Received(flight, s))
  {
    hide Received, Pending;
    PendingSnoc(b.flights, flight, s);
  }

  lemma OnePublished(b: Bus, e: Event, events: seq<Event>, s: nat)
    requires e.Publish? && events != [] && events[|events| - 1] == e && Agrees(b, events[..|events| - 1])
    requires Total(b, s) == multiset(Owed(events[..|events| - 1], s))
    ensures Total(Step(b, e), s) == multiset(Owed(events, s))
  {
    hide Distinct, Received, Total;
    var before, m := events[..|events| - 1], Msg(b.published, e.body);
    assert Joiners(Of(b.subs, e.topic), before, e.topic);
    ReceivedFan(Of(b.subs, e.topic), m, s);
    TotalGrows(b, Step(b, e), Fan(Of(b.subs, e.topic), m), s);
    PublishedOwed(e, events, s);
    hide Step, Owed, Agrees, Fan, Of, Joiners;
  }

  /** What a publication adds to what is owed. */
  lemma PublishedOwed(e: Event, events: seq<Event>, s: nat)
    requires e.Publish? && events != [] && events[|events| - 1] == e
    ensures var before := events[..|events| - 1];
      Owed(events, s) == Owed(before, s)
        + if s < Joined(before) && TopicOf(before, s) == e.topic then [Msg(Published(before), e.body)] else []
  {
    hide *;
    JoinedSame(events, s);
    LiveMore(events, s);
  }

  lemma LiveMore(events: seq<Event>, s: nat)
    requires events != [] && !events[|events| - 1].Subscribe?
    requires Joined(events) == Joined(events[..|events| - 1])
    requires s < Joined(events) ==>
      && History(events, s) == History(events[..|events| - 1], s)
      && TopicOf(events, s) == TopicOf(events[..|events| - 1], s)
    ensures var before, e := events[..|events| - 1], events[|events| - 1];
      Owed(events, s) == Owed(before, s)
        + if e.Publish? && s < Joined(before) && TopicOf(before, s) == e.topic then [Msg(Published(before), e.body)]
          else []
  {
    hide Published, Joined, TopicOf, History, Live;
    if s < Joined(events) {
      LiveStep(events, s);
    }
  }

  lemma LiveStep(events: seq<Event>, s: nat)
    requires events != [] && s < Joined(events[..|events| - 1]) && s < Joined(events)
    requires TopicOf(events, s) == TopicOf(events[..|events| - 1], s)
    ensures var before, e := events[..|events| - 1], events[|events| - 1];
      Live(events, s) == Live(before, s)
        + if e.Publish? && TopicOf(before, s) == e.topic then [Msg(Published(before), e.body)] else []
  {
    hide Published, Joined, TopicOf;
  }

  lemma OneSubscribed(b: Bus, e: Event, events: seq<Event>, s: nat)
    requires e.Subscribe? && events != [] && events[|events| - 1] == e && Agrees(b, events[..|events| - 1])
    requires Total(b, s) == multiset(Owed(events[..|events| - 1], s))
    ensures Total(Step(b, e), s) == multiset(Owed(events, s))
  {
    hide Received, Total;
    var kept := Of(b.latched, e.topic);
    var history := if e.durable then kept else [];
    assert (if e.durable then Replay(b.joined, kept) else []) == Replay(b.joined, history);
    ReceivedReplay(b.joined, history, s);
    TotalGrows(b, Step(b, e), Replay(b.joined, history), s);
    SubscribedOwed(e, events, s);
    hide Step, Owed, Agrees, Replay, Of;
  }

  /** What a subscription adds to what is owed. */
  lemma SubscribedOwed(e: Event, events: seq<Event>, s: nat)
    requires e.Subscribe? && events != [] && events[|events| - 1] == e
    ensures var before := events[..|events| - 1];
      Owed(events, s) == Owed(before, s) + if s == Joined(before) && e.durable then Retained(before, e.topic) else []
  {
    hide Retained, Publications, Durables, Published, Received, Pending, Steps;
    var before := events[..|events| - 1];
    JoinedSame(events, s);
    if s == Joined(before) {
      assert JoinRun(events, s) == events;
    }
  }

  lemma Shift(a: multiset<Msg>, x: multiset<Msg>, y: multiset<Msg>, p: multiset<Msg>, p': multiset<Msg>)
    requires p' + (x + y) == p + y
    ensures (a + x) + p' == a + p
  {
    assert p' + x + y == p + y;
    assert p' + x == p by {
      assert (p' + x + y) - y == p' + x;
      assert (p + y) - y == p;
    }
  }

  lemma OneDelivered(b: Bus, f: nat, s: nat)
    ensures Total(Step(b, Deliver(f)), s) == Total(b, s)
  {
    hide Received, Pending;
    if f < |b.flights| && b.flights[f] != [] {
      var flight := b.flights[f];
      var first, rest := [flight[0]], flight[1..];
      assert flight == first + rest;
      ReceivedAppend(first, rest, s);
      ReceivedAppend(b.delivered, first, s);
      PendingUpdate(b.flights, f, rest, s);
      Shift(multiset(Received(b.delivered, s)), multiset(Received(first, s)), multiset(Received(rest, s)),
        Pending(b.flights, s), Pending(b.flights[f := rest], s));
    }
  }

  /** Every interleaving: what a subscriber was handed, and what is on its way to it, is what it is owed. */
  lemma {:induction false} EachIsOwed(events: seq<Event>, s: nat)
    ensures Total(Steps(events), s) == multiset(Owed(events, s))
  {
    if events == [] {
      assert Received([], s) == [] && Owed(events, s) == [];
    } else {
      EachIsOwed(events[..|events| - 1], s);
      BusAgrees(events[..|events| - 1]);
      OneStep(Steps(events[..|events| - 1]), events[|events| - 1], events, s);
    }
  }

  ghost predicate Quiet(b: Bus) {
    forall f :: 0 <= f < |b.flights| ==> b.flights[f] == []
  }

  lemma {:induction false} NothingPending(flights: seq<seq<Delivery>>, s: nat)
    requires forall f :: 0 <= f < |flights| ==> flights[f] == []
    ensures Pending(flights, s) == multiset{}
  {
    if flights != [] {
      NothingPending(flights[..|flights| - 1], s);
      assert Received([], s) == [];
    }
  }

  /** When everybody is done handing out, each subscriber has exactly what was kept for it when it joined and
      what its topic carried since, each message as often as it stands there. */
  lemma ExactlyOnce(events: seq<Event>, s: nat)
    requires Quiet(Steps(events))
    ensures multiset(Received(Steps(events).delivered, s)) == multiset(Owed(events, s))
  {
    EachIsOwed(events, s);
    NothingPending(Steps(events).flights, s);
  }

  // ----- at most once, and which ones -----

  ghost predicate Numbered(ms: seq<Msg>, below: nat) {
    && (forall i :: 0 <= i < |ms| ==> ms[i].number < below)
    && (forall i, j :: 0 <= i < j < |ms| ==> ms[i].number < ms[j].number)
  }

  lemma {:induction false} RetainedNumbered(events: seq<Event>, topic: Topic)
    ensures Numbered(Retained(events, topic), Published(events))
  {
    if events != [] {
      RetainedNumbered(events[..|events| - 1], topic);
    }
  }

  /** History or live, a message stands there once: numbers only go up. */
  lemma {:induction false} OwedNumbered(events: seq<Event>, s: nat)
    ensures Numbered(Owed(events, s), Published(events))
  {
    hide Owed, Joined, TopicOf, Retained, JoinRun, Live, History;
    if events == [] {
      NothingOwed(s);
    } else {
      var before := events[..|events| - 1];
      OwedNumbered(before, s);
      var last := events[|events| - 1];
      RetainedNumbered(before, if last.Publish? || last.Subscribe? then last.topic else "");
      match last {
        case Publish(topic, keep, body) => PublishedOwed(last, events, s);
        case Subscribe(topic, durable) => SubscribedOwed(last, events, s);
          JoinedOwed(before, s);
        case Deliver(f) => DeliveredOwed(last, events, s);
      }
    }
  }

  lemma NothingOwed(s: nat)
    ensures Owed([], s) == []
  {
  }

  lemma JoinedOwed(events: seq<Event>, s: nat)
    ensures s >= Joined(events) ==> Owed(events, s) == []
  {
  }

  lemma {:induction false} NumberedOnce(ms: seq<Msg>, below: nat, m: Msg)
    requires Numbered(ms, below)
    ensures multiset(ms)[m] <= 1
  {
    if ms != [] {
      var last := |ms| - 1;
      assert ms == ms[..last] + [ms[last]];
      NumberedOnce(ms[..last], below, m);
      if m == ms[last] {
        assert m !in ms[..last];
      }
    }
  }

  /** At any moment of any run, no subscriber was handed a message twice. */
  lemma AtMostOnce(events: seq<Event>, s: nat, m: Msg)
    ensures multiset(Received(Steps(events).delivered, s))[m] <= 1
  {
    EachIsOwed(events, s);
    OwedNumbered(events, s);
    NumberedOnce(Owed(events, s), Published(events), m);
  }

  ghost predicate SameKeep(events: seq<Event>, topic: Topic, keep: nat) {
    forall e :: e in events && e.Publish? && e.topic == topic && e.keep > 0 ==> e.keep == keep
  }

  /** Publishers that keep alike keep the last of the messages that any of them sent. */
  lemma {:induction false} RetainedIsLast(events: seq<Event>, topic: Topic, keep: nat)
    requires keep > 0 && SameKeep(events, topic, keep)
    ensures Retained(events, topic) == Last(Durables(events, topic), keep)
  {
    hide Published, Last;
    if events == [] {
      LastAll<Msg>([], keep);
    } else {
      var before := events[..|events| - 1];
      SameKeepBefore(events, topic, keep);
      RetainedIsLast(before, topic, keep);
      var last := events[|events| - 1];
      if last.Publish? && last.topic == topic && last.keep > 0 {
        LastSnoc(Durables(before, topic), Msg(Published(before), last.body), keep);
      } else {
        assert Durables(events, topic) == Durables(before, topic);
      }
    }
  }

  lemma LastAll<T>(s: seq<T>, n: nat)
    requires |s| <= n
    ensures Last(s, n) == s
  {
  }

  lemma SameKeepBefore(events: seq<Event>, topic: Topic, keep: nat)
    requires events != [] && SameKeep(events, topic, keep)
    ensures SameKeep(events[..|events| - 1], topic, keep)
    ensures var last := events[|events| - 1]; last.Publish? && last.topic == topic && last.keep > 0 ==>
      last.keep == keep
  {
    assert forall e :: e in events[..|events| - 1] ==> e in events;
    assert events[|events| - 1] in events;
  }

  // ----- the bus as the runtime keeps it -----

  /** One caller has handed out n of its messages, all others wait. */
  function Handed(b: Bus, f: nat, n: nat): Bus
    requires f < |b.flights| && n <= |b.flights[f]|
  {
    b.(delivered := b.delivered + b.flights[f][..n], flights := b.flights[f := b.flights[f][n..]])
  }

  /** One caller hands out all that it has left. */
  function Drained(b: Bus, f: nat): Bus
    requires f < |b.flights|
  {
    b.(delivered := b.delivered + b.flights[f], flights := b.flights[f := []])
  }

  lemma HandedNext(b: Bus, f: nat, n: nat)
    requires f < |b.flights| && n < |b.flights[f]|
    ensures Handed(b, f, n).flights[f] != [] && Handed(b, f, n).flights[f][0] == b.flights[f][n]
    ensures Step(Handed(b, f, n), Deliver(f)) == Handed(b, f, n + 1)
  {
    var flight := b.flights[f];
    assert flight[n..][1..] == flight[n + 1..];
    assert b.delivered + flight[..n] + [flight[n]] == b.delivered + flight[..n + 1];
  }

  lemma HandedEnds(b: Bus, f: nat)
    requires f < |b.flights|
    ensures Handed(b, f, 0) == b && Handed(b, f, |b.flights[f]|) == Drained(b, f)
  {
    assert b.flights[f := b.flights[f]] == b.flights;
    assert b.flights[f][|b.flights[f]|..] == [];
  }

  class Inproc {
    var subs: map<Topic, seq<nat>>
    var latched: map<Topic, seq<Msg>>
    var published: nat
    var joined: nat
    ghost var flights: seq<seq<Delivery>>
    /** What subscribers were handed. */
    var delivered: seq<Delivery>

    ghost function Model(): Bus
      reads this
    {
      Bus(published, joined, subs, latched, flights, delivered)
    }

    constructor ()
      ensures Model() == NEW_BUS
    {
      subs, latched, published, joined, flights, delivered := map[], map[], 0, 0, [], [];
    }

    /** The critical section of publishing: the subscribers to hand the message to. */
    method PublishLocked(topic: Topic, keep: nat, body: Payload) returns (m: Msg, captured: seq<nat>)
      modifies this
      ensures Model() == Step(old(Model()), Event.Publish(topic, keep, body))
      ensures flights == old(flights) + [Fan(captured, m)]
    {
      m := Msg(published, body);
      published := published + 1;
      if keep > 0 {
        var history := Of(latched, topic) + [m];
        if |history| > keep {
          history := history[|history| - keep..];
        }
        latched := latched[topic := history];
      }
      captured := Of(subs, topic);
      flights := flights + [Fan(captured, m)];
    }

    /** The critical section of subscribing: the messages to hand over first. */
    method SubscribeLocked(topic: Topic, durability: Durability) returns (s: nat, history: seq<Msg>)
      modifies this
      ensures Model() == Step(old(Model()), Event.Subscribe(topic, durability == TransientLocal))
      ensures flights == old(flights) + [Replay(s, history)] && s == old(joined)
    {
      s := joined;
      joined := joined + 1;
      subs := subs[topic := Of(subs, topic) + [s]];
      history := [];
      if durability == TransientLocal {
        history := Of(latched, topic);
      }
      flights := flights + [Replay(s, history)];
      assert Replay(s, []) == [];
    }

    /** One message handed to one subscriber by caller f, out of what it has left. */
    method Hand(ghost f: nat, d: Delivery)
      requires f < |flights| && flights[f] != [] && d == flights[f][0]
      modifies this`delivered, this`flights
      ensures Model() == Step(old(Model()), Deliver(f))
    {
      delivered := delivered + [d];
      flights := flights[f := flights[f][1..]];
    }

    /** A whole publish by one caller: the closure that Publisher returns. */
    method Publish(topic: Topic, durability: Durability, depth: int, body: Payload)
      modifies this
      ensures Model() == Drained(Step(old(Model()), Event.Publish(topic, Keep(durability, depth), body)),
        |old(flights)|)
      ensures delivered == old(delivered) + Fan(Of(old(subs), topic), Msg(old(published), body))
      ensures durability == Volatile ==> latched == old(latched)
      ensures durability == TransientLocal ==> latched == old(latched)[topic :=
        Last(Of(old(latched), topic) + [Msg(old(published), body)], if depth <= 0 then 1 else depth)]
    {
      var keep := 0;
      if durability == TransientLocal {
        keep := depth;
        if keep <= 0 {
          keep := 1;
        }
      }
      var m, captured := PublishLocked(topic, keep, body);
      ghost var b, f := Model(), |flights| - 1;
      assert b.flights[f] == Fan(captured, m);
      hide Step, Fan;
      HandedEnds(b, f);
      FanLength(captured, m);
      for i := 0 to |captured|
        invariant Model() == Handed(b, f, i)
      {
        HandedNext(b, f, i);
        Hand(f, Delivery(captured[i], m));
      }
    }

    /** A whole subscription by one caller. */
    method Subscribe(topic: Topic, durability: Durability) returns (s: nat)
      modifies this
      ensures Model() == Drained(Step(old(Model()), Event.Subscribe(topic, durability == TransientLocal)),
        |old(flights)|)
      ensures s == old(joined) && subs == old(subs)[topic := Of(old(subs), topic) + [s]]
      ensures durability == Volatile ==> delivered == old(delivered)
      ensures durability == TransientLocal ==> delivered == old(delivered) + Replay(s, Of(old(latched), topic))
    {
      var history;
      s, history := SubscribeLocked(topic, durability);
      ghost var b, f := Model(), |flights| - 1;
      assert b.flights[f] == Replay(s, history);
      hide Step;
      HandedEnds(b, f);
      for i := 0 to |history|
        invariant Model() == Handed(b, f, i)
      {
        HandedNext(b, f, i);
        Hand(f, Delivery(s, history[i]));
      }
    }
  }
}
