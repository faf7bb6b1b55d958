/**
 * In which order a subscriber is handed what it is owed, bus.go 91-96. Both critical sections let go of the lock
 * before they hand out, so the order is up to the callers: here are the exact conditions on a run under which
 * whatever they do comes out in order.
 */
module BusOrder {
  import opened Sorting
  import opened Buses

  /** The run does first what events does, and from some moment on callers only hand out what they have left. */
  ghost predicate Continues(run: seq<Event>, events: seq<Event>) {
    exists k :: 0 <= k <= |events| && ContinuesFrom(run, events, k)
  }

  ghost predicate ContinuesFrom(run: seq<Event>, events: seq<Event>, k: nat) {
    k <= |events| && k <= |run| && run[..k] == events[..k] && forall j :: k <= j < |run| ==> run[j].Deliver?
  }

  /** The event is a publication that s is to be handed live. */
  predicate Concerns(before: seq<Event>, e: Event, s: nat) {
    e.Publish? && s < Joined(before) && TopicOf(before, s) == e.topic
  }

  /** The flight that the subscription of s left its caller with. */
  function Own(events: seq<Event>, s: nat): nat
    requires s < Joined(events)
  {
    var run := JoinRun(events, s);
    |Steps(run[..|run| - 1]).flights|
  }

  /** History that s has still to be handed. */
  function HistoryLeft(events: seq<Event>, s: nat): seq<Delivery> {
    if s < Joined(events) && Own(events, s) < |Steps(events).flights| then Steps(events).flights[Own(events, s)] else []
  }

  /** Whenever something is published for s, all its history was handed out. */
  ghost predicate Undisturbed(events: seq<Event>, s: nat) {
    forall k :: 0 <= k < |events| && Concerns(events[..k], events[k], s) ==> HistoryLeft(events[..k], s) == []
  }

  /** Whenever something is published for s, nothing else is on its way to s. */
  ghost predicate Calm(events: seq<Event>, s: nat) {
    forall k :: 0 <= k < |events| && Concerns(events[..k], events[k], s) ==>
      Pending(Steps(events[..k]).flights, s) == multiset{}
  }

  /** Nothing comes before all of the first messages. */
  predicate InTurn(got: seq<Msg>, first: seq<Msg>) {
    got <= first || first <= got
  }

  ghost predicate HistoryComesFirst(run: seq<Event>, s: nat) {
    s < Joined(run) ==> InTurn(Received(Steps(run).delivered, s), History(run, s))
  }

  ghost predicate AllInOrder(run: seq<Event>, s: nat) {
    Received(Steps(run).delivered, s) <= Owed(run, s)
  }

  // ----- pending -----

  lemma {:induction false} PendingCovers(flights: seq<seq<Delivery>>, f: nat, s: nat)
    requires f < |flights|
    ensures multiset(Received(flights[f], s)) <= Pending(flights, s)
  {
    hide Received;
    var last := |flights| - 1;
    if f < last {
      PendingCovers(flights[..last], f, s);
    }
  }

  lemma NoneIn(got: seq<Msg>)
    ensures multiset(got) <= multiset{} ==> got == []
  {
    if got != [] {
      assert multiset(got)[got[0]] > 0;
    }
  }

  lemma NonePending(flights: seq<seq<Delivery>>, s: nat)
    requires Pending(flights, s) == multiset{}
    ensures forall f :: 0 <= f < |flights| ==> Received(flights[f], s) == []
  {
    hide *;
    forall f | 0 <= f < |flights| ensures Received(flights[f], s) == [] {
      PendingCovers(flights, f, s);
      NoneIn(Received(flights[f], s));
    }
  }

  /** Before it joins, nothing goes to s. */
  lemma NotYet(events: seq<Event>, s: nat)
    requires s >= Joined(events)
    ensures Received(Steps(events).delivered, s) == [] && Pending(Steps(events).flights, s) == multiset{}
    ensures Owed(events, s) == []
  {
    hide Received, Pending, Steps, Joined;
    EachIsOwed(events, s);
    JoinedOwed(events, s);
    NoneIn(Received(Steps(events).delivered, s));
  }

  /** What a critical section leaves to hand out. */
  function Flight(b: Bus, e: Event): seq<Delivery>
    requires !e.Deliver?
  {
    var flights := Step(b, e).flights;
    flights[|flights| - 1]
  }

  lemma Grows(b: Bus, e: Event)
    requires !e.Deliver?
    ensures Step(b, e).flights == b.flights + [Flight(b, e)] && Step(b, e).delivered == b.delivered
  {
  }

  /** What a critical section leaves for s is what it adds to what s is owed. */
  lemma FlightIsOwed(events: seq<Event>, s: nat)
    requires events != [] && !events[|events| - 1].Deliver?
    ensures var before, e := events[..|events| - 1], events[|events| - 1];
      Owed(events, s) == Owed(before, s) + Received(Flight(Steps(before), e), s)
  {
    hide Owed, Received, Steps;
    var before, e := events[..|events| - 1], events[|events| - 1];
    BusAgrees(before);
    if e.Publish? {
      FlightPublished(Steps(before), e, events, s);
    } else {
      FlightSubscribed(Steps(before), e, events, s);
    }
  }

  /** After it joined only a publication on its topic leaves something for s. */
  lemma OnlyConcerned(events: seq<Event>, s: nat)
    requires events != [] && !events[|events| - 1].Deliver?
    ensures var before, e := events[..|events| - 1], events[|events| - 1];
      s < Joined(before) && !Concerns(before, e, s) ==> Received(Flight(Steps(before), e), s) == []
  {
    hide Owed, Received, Steps, Flight, Joined, TopicOf;
    var before, e := events[..|events| - 1], events[|events| - 1];
    FlightIsOwed(events, s);
    if e.Publish? {
      PublishedOwed(e, events, s);
    } else {
      SubscribedOwed(e, events, s);
    }
  }

  lemma FlightPublished(b: Bus, e: Event, events: seq<Event>, s: nat)
    requires e.Publish? && events != [] && events[|events| - 1] == e && Agrees(b, events[..|events| - 1])
    ensures Owed(events, s) == Owed(events[..|events| - 1], s)
      + Received(Fan(Of(b.subs, e.topic), Msg(b.published, e.body)), s)
  {
    hide Distinct, Received;
    assert Joiners(Of(b.subs, e.topic), events[..|events| - 1], e.topic);
    ReceivedFan(Of(b.subs, e.topic), Msg(b.published, e.body), s);
    PublishedOwed(e, events, s);
    hide Owed, Fan, Of;
  }

  lemma FlightSubscribed(b: Bus, e: Event, events: seq<Event>, s: nat)
    requires e.Subscribe? && events != [] && events[|events| - 1] == e && Agrees(b, events[..|events| - 1])
    ensures Owed(events, s) == Owed(events[..|events| - 1], s)
      + Received(if e.durable then Replay(b.joined, Of(b.latched, e.topic)) else [], s)
  {
    hide Received;
    var history := if e.durable then Of(b.latched, e.topic) else [];
    assert (if e.durable then Replay(b.joined, Of(b.latched, e.topic)) else []) == Replay(b.joined, history);
    ReceivedReplay(b.joined, history, s);
    SubscribedOwed(e, events, s);
    hide Owed, Replay, Of;
  }

  // ----- history before live -----

  /** What s got and what its own flight still holds are its history; while that flight holds any, no other holds
      anything for s. */
  ghost predicate HistoryTurn(b: Bus, s: nat, own: nat, history: seq<Msg>) {
    && own < |b.flights|
    && if b.flights[own] == [] then history <= Received(b.delivered, s)
       else
         && history == Received(b.delivered, s) + Received(b.flights[own], s)
         && forall f :: 0 <= f < |b.flights| && f != own ==> Received(b.flights[f], s) == []
  }

  lemma TurnDelivered(b: Bus, f: nat, s: nat, own: nat, history: seq<Msg>)
    requires HistoryTurn(b, s, own, history)
    ensures HistoryTurn(Step(b, Deliver(f)), s, own, history)
  {
    hide Received;
    if f < |b.flights| && b.flights[f] != [] {
      TakenApart(b, f, s);
      assert Received([], s) == [] by { NoneReceived(s); }
    }
  }

  lemma NoneReceived(s: nat)
    ensures Received([], s) == []
  {
  }

  /** Handing out one message of a flight. */
  lemma TakenApart(b: Bus, f: nat, s: nat)
    requires f < |b.flights| && b.flights[f] != []
    ensures var b' := Step(b, Deliver(f)); var first := Received([b.flights[f][0]], s);
      && b'.flights == b.flights[f := b.flights[f][1..]]
      && Received(b'.delivered, s) == Received(b.delivered, s) + first
      && Received(b.flights[f], s) == first + Received(b'.flights[f], s)
  {
    hide Received;
    var flight := b.flights[f];
    assert flight == [flight[0]] + flight[1..];
    ReceivedAppend([flight[0]], flight[1..], s);
    ReceivedAppend(b.delivered, [flight[0]], s);
  }

  lemma TurnGrows(b: Bus, b': Bus, flight: seq<Delivery>, s: nat, own: nat, history: seq<Msg>)
    requires HistoryTurn(b, s, own, history)
    requires b'.delivered == b.delivered && b'.flights == b.flights + [flight]
    requires b.flights[own] == [] || Received(flight, s) == []
    ensures HistoryTurn(b', s, own, history)
  {
    hide Received;
  }

  lemma TurnBegins(b: Bus, b': Bus, s: nat, history: seq<Msg>)
    requires Received(b.delivered, s) == [] && forall f :: 0 <= f < |b.flights| ==> Received(b.flights[f], s) == []
    requires b'.delivered == b.delivered && b'.flights == b.flights + [Replay(s, history)]
    ensures HistoryTurn(b', s, |b.flights|, history)
  {
    hide Received;
    ReceivedReplay(s, history, s);
    NoneReceived(s);
    hide Replay;
  }

  lemma StepsLast(events: seq<Event>)
    requires events != []
    ensures Steps(events) == Step(Steps(events[..|events| - 1]), events[|events| - 1])
  {
  }

  /** The flight that s joins with. */
  lemma JoinFlight(events: seq<Event>, s: nat)
    requires events != [] && events[|events| - 1].Subscribe? && s == Joined(events[..|events| - 1])
    ensures s < Joined(events) && Own(events, s) == |Steps(events[..|events| - 1]).flights|
    ensures var b := Steps(events[..|events| - 1]);
      && Steps(events).delivered == b.delivered
      && Steps(events).flights == b.flights + [Replay(s, History(events, s))]
  {
    hide *;
    var before, e := events[..|events| - 1], events[|events| - 1];
    JoinRunSame(events, s);
    BusAgrees(before);
    StepsLast(events);
    JoinSettles(events, s);
    SubscribeFlight(Steps(before), before, e, s);
  }

  /** What is settled when s joins. */
  lemma JoinSettles(events: seq<Event>, s: nat)
    requires events != [] && events[|events| - 1].Subscribe? && s < Joined(events) && JoinRun(events, s) == events
    ensures Own(events, s) == |Steps(events[..|events| - 1]).flights|
    ensures var before, e := events[..|events| - 1], events[|events| - 1];
      History(events, s) == if e.durable then Retained(before, e.topic) else []
  {
    hide JoinRun, Joined, Retained, Steps;
  }

  lemma SubscribeFlight(b: Bus, before: seq<Event>, e: Event, s: nat)
    requires e.Subscribe? && Agrees(b, before) && s == Joined(before)
    ensures Step(b, e).delivered == b.delivered
    ensures Step(b, e).flights == b.flights + [Replay(s, if e.durable then Retained(before, e.topic) else [])]
  {
    hide Joined, Retained, Joiners, Published;
    assert Of(b.latched, e.topic) == Retained(before, e.topic);
    assert Replay(b.joined, []) == [];
  }

  lemma TurnJoined(events: seq<Event>, s: nat)
    requires events != [] && events[|events| - 1].Subscribe? && s == Joined(events[..|events| - 1])
    ensures s < Joined(events) && HistoryTurn(Steps(events), s, Own(events, s), History(events, s))
  {
    hide *;
    var before := events[..|events| - 1];
    JoinFlight(events, s);
    NotYet(before, s);
    NonePending(Steps(before).flights, s);
    TurnBegins(Steps(before), Steps(events), s, History(events, s));
  }

  /** Own and History are settled when s joins. */
  lemma Settled(events: seq<Event>, s: nat)
    requires events != [] && s < Joined(events[..|events| - 1])
    ensures s < Joined(events) && Own(events, s) == Own(events[..|events| - 1], s)
    ensures History(events, s) == History(events[..|events| - 1], s)
  {
    hide Joined, Steps, Retained, JoinRun;
    JoinedSame(events, s);
    JoinRunSame(events, s);
  }

  lemma UndisturbedBefore(events: seq<Event>, k: nat, s: nat)
    requires k <= |events| && Undisturbed(events, s)
    ensures Undisturbed(events[..k], s)
  {
    hide Concerns, HistoryLeft;
    forall j | 0 <= j < k && Concerns(events[..k][..j], events[..k][j], s)
      ensures HistoryLeft(events[..k][..j], s) == [] {
      assert events[..k][..j] == events[..j];
    }
  }

  lemma {:induction false} UndisturbedTurns(events: seq<Event>, s: nat)
    requires s < Joined(events) && Undisturbed(events, s)
    ensures HistoryTurn(Steps(events), s, Own(events, s), History(events, s))
  {
    hide Received, Retained, JoinRun, HistoryTurn, History, Own, TopicOf;
    var before, e := events[..|events| - 1], events[|events| - 1];
    if s == Joined(before) {
      TurnJoined(events, s);
    } else {
      hide Joined, Steps;
      JoinedSame(events, s);
      UndisturbedBefore(events, |events| - 1, s);
      UndisturbedTurns(before, s);
      Settled(events, s);
      TurnStep(events, s);
    }
  }

  lemma TurnStep(events: seq<Event>, s: nat)
    requires events != [] && s < Joined(events[..|events| - 1]) && Undisturbed(events, s)
    requires var before := events[..|events| - 1];
      HistoryTurn(Steps(before), s, Own(before, s), History(before, s))
    ensures var before := events[..|events| - 1];
      HistoryTurn(Steps(events), s, Own(before, s), History(before, s))
  {
    var before, e := events[..|events| - 1], events[|events| - 1];
    assert Steps(events) == Step(Steps(before), e);
    hide Received, Joined, History, Own, TopicOf, Steps, Concerns;
    if e.Deliver? {
      TurnDelivered(Steps(before), e.f, s, Own(before, s), History(before, s));
    } else {
      Grows(Steps(before), e);
      OnlyConcerned(events, s);
      assert Concerns(before, e, s) ==> HistoryLeft(before, s) == [];
      TurnGrows(Steps(before), Steps(events), Flight(Steps(before), e), s, Own(before, s), History(before, s));
    }
  }

  // ----- everything in order -----

  function At(b: Bus, f: nat): seq<Delivery> {
    if f < |b.flights| then b.flights[f] else []
  }

  /** Only flight f holds anything for s, and it is the rest of what s is owed. */
  ghost predicate Sole(b: Bus, s: nat, f: nat, owed: seq<Msg>) {
    && (forall g :: 0 <= g < |b.flights| && g != f ==> Received(b.flights[g], s) == [])
    && owed == Received(b.delivered, s) + Received(At(b, f), s)
  }

  ghost predicate InOneHand(b: Bus, s: nat, owed: seq<Msg>) {
    exists f: nat :: Sole(b, s, f, owed)
  }

  lemma SoleDelivered(b: Bus, f: nat, s: nat, h: nat, owed: seq<Msg>)
    requires Sole(b, s, h, owed)
    ensures Sole(Step(b, Deliver(f)), s, h, owed)
  {
    hide Received;
    if f < |b.flights| && b.flights[f] != [] {
      TakenApart(b, f, s);
    }
  }

  lemma SoleGrows(b: Bus, b': Bus, flight: seq<Delivery>, s: nat, h: nat, owed: seq<Msg>)
    requires Sole(b, s, h, owed)
    requires b'.delivered == b.delivered && b'.flights == b.flights + [flight] && Received(flight, s) == []
    ensures Sole(b', s, h, owed)
  {
    hide Received;
    NoneReceived(s);
  }

  lemma SoleNext(b: Bus, b': Bus, flight: seq<Delivery>, s: nat, h: nat, owed: seq<Msg>)
    requires Sole(b, s, h, owed) && Pending(b.flights, s) == multiset{}
    requires b'.delivered == b.delivered && b'.flights == b.flights + [flight]
    ensures Sole(b', s, |b.flights|, owed + Received(flight, s))
  {
    hide Received, Pending;
    NoneReceived(s);
    NonePending(b.flights, s);
  }

  lemma CalmBefore(events: seq<Event>, k: nat, s: nat)
    requires k <= |events| && Calm(events, s)
    ensures Calm(events[..k], s)
  {
    hide Concerns, Pending, Steps;
    forall j | 0 <= j < k && Concerns(events[..k][..j], events[..k][j], s)
      ensures Pending(Steps(events[..k][..j]).flights, s) == multiset{}
    {
      assert events[..k][..j] == events[..j];
    }
  }

  lemma {:induction false} CalmInOneHand(events: seq<Event>, s: nat)
    requires Calm(events, s)
    ensures InOneHand(Steps(events), s, Owed(events, s))
  {
    hide Received, Pending, Owed, Joined;
    NoneReceived(s);
    if events == [] {
      NothingOwed(s);
      assert Sole(Steps(events), s, 0, Owed(events, s));
    } else {
      CalmBefore(events, |events| - 1, s);
      CalmInOneHand(events[..|events| - 1], s);
      hide Steps, Sole;
      var h: nat :| Sole(Steps(events[..|events| - 1]), s, h, Owed(events[..|events| - 1], s));
      OneHandStep(events, s, h);
    }
  }

  lemma OneHandStep(events: seq<Event>, s: nat, h: nat)
    requires events != [] && Calm(events, s)
    requires Sole(Steps(events[..|events| - 1]), s, h, Owed(events[..|events| - 1], s))
    ensures InOneHand(Steps(events), s, Owed(events, s))
  {
    var before, e := events[..|events| - 1], events[|events| - 1];
    var b, owed := Steps(before), Owed(before, s);
    assert Steps(events) == Step(b, e);
    if e.Deliver? {
      hide *;
      DeliveredOwed(e, events, s);
      SoleDelivered(b, e.f, s, h, owed);
      HandIs(Steps(events), s, h, Owed(events, s));
    } else {
      CalmNow(events, s);
      hide *;
      Grows(b, e);
      FlightIsOwed(events, s);
      if Received(Flight(b, e), s) == [] {
        SoleGrows(b, Steps(events), Flight(b, e), s, h, owed);
        HandIs(Steps(events), s, h, Owed(events, s));
      } else {
        SoleNext(b, Steps(events), Flight(b, e), s, h, owed);
        HandIs(Steps(events), s, |b.flights|, Owed(events, s));
      }
    }
  }

  lemma HandIs(b: Bus, s: nat, h: nat, owed: seq<Msg>)
    requires Sole(b, s, h, owed)
    ensures InOneHand(b, s, owed)
  {
  }

  /** In a calm run something is left for s only when nothing else is on its way to it. */
  lemma CalmNow(events: seq<Event>, s: nat)
    requires events != [] && Calm(events, s) && !events[|events| - 1].Deliver?
    ensures var before, e := events[..|events| - 1], events[|events| - 1];
      Received(Flight(Steps(before), e), s) == [] || Pending(Steps(before).flights, s) == multiset{}
  {
    hide Received, Pending, Steps, Flight, Concerns, Joined;
    var before, e := events[..|events| - 1], events[|events| - 1];
    OnlyConcerned(events, s);
    if s >= Joined(before) {
      NotYet(before, s);
    }
  }

  // ----- the callers that get it wrong -----

  function Deliveries(f: nat, n: nat): (ds: seq<Event>)
    ensures |ds| == n && forall i :: 0 <= i < n ==> ds[i] == Deliver(f)
  {
    seq(n, i => Deliver(f))
  }

  /** One caller hands out n of its messages, all others wait. */
  lemma {:induction false} OneCaller(events: seq<Event>, f: nat, n: nat, s: nat)
    requires f < |Steps(events).flights| && n <= |Steps(events).flights[f]|
    ensures var b, after := Steps(events), events + Deliveries(f, n);
      && Steps(after) == Handed(b, f, n)
      && Owed(after, s) == Owed(events, s)
  {
    hide Steps, Owed;
    if n == 0 {
      assert events + Deliveries(f, n) == events;
      HandedEnds(Steps(events), f);
    } else {
      HandedNext(Steps(events), f, n - 1);
      OneCaller(events, f, n - 1, s);
      var r := events + Deliveries(f, n - 1);
      assert events + Deliveries(f, n) == r + [Deliver(f)];
      assert (r + [Deliver(f)])[..|r|] == r;
      StepsSnoc(r, Deliver(f));
      DeliveredOwed(Deliver(f), r + [Deliver(f)], s);
    }
  }

  lemma FanUpTo(subs: seq<nat>, m: Msg, i: nat)
    requires Distinct(subs) && i < |subs|
    ensures Received(Fan(subs, m)[..i + 1], subs[i]) == [m]
  {
    hide Received;
    assert Fan(subs, m)[..i + 1] == Fan(subs[..i + 1], m);
    assert subs[..i + 1][i] == subs[i];
    ReceivedFan(subs[..i + 1], m, subs[i]);
  }

  /** Where s stands among the subscribers that the publication was captured for. */
  lemma Captured(before: seq<Event>, e: Event, s: nat) returns (i: nat)
    requires Concerns(before, e, s)
    ensures var b := Steps(before); var subs := Of(b.subs, e.topic);
      && Distinct(subs) && i < |subs| && subs[i] == s
      && Step(b, e).delivered == b.delivered
      && Step(b, e).flights == b.flights + [Fan(subs, Msg(Published(before), e.body))]
  {
    BusAgrees(before);
    hide Distinct, Published, Joined, TopicOf, Steps, Retained, Fan;
    var subs := Of(Steps(before).subs, e.topic);
    assert Joiners(subs, before, e.topic);
    i :| 0 <= i < |subs| && subs[i] == s;
  }

  /** Whatever else is on its way to s, the publisher can get to s before anybody hands out anything else. */
  lemma PublisherFirst(events: seq<Event>, s: nat) returns (run: seq<Event>)
    requires events != [] && Concerns(events[..|events| - 1], events[|events| - 1], s)
    ensures ContinuesFrom(run, events, |events|)
    ensures var before, e := events[..|events| - 1], events[|events| - 1];
      && Received(Steps(run).delivered, s) ==
           Received(Steps(before).delivered, s) + [Msg(Published(before), e.body)]
      && Owed(run, s) == Owed(before, s) + [Msg(Published(before), e.body)]
  {
    hide *;
    var before, e := events[..|events| - 1], events[|events| - 1];
    ConcernsSays(before, e, s);
    var b, m := Steps(before), Msg(Published(before), e.body);
    StepsLast(events);
    var i := Captured(before, e, s);
    PublishedOwed(e, events, s);
    var f, subs := |b.flights|, Of(b.subs, e.topic);
    assert Steps(events).flights[f] == Fan(subs, m);
    FanLength(subs, m);
    OneCaller(events, f, i + 1, s);
    FanUpTo(subs, m, i);
    run := events + Deliveries(f, i + 1);
    HandedSays(Steps(events), f, i + 1);
    ReceivedAppend(b.delivered, Fan(subs, m)[..i + 1], s);
    Handing(events, f, i + 1);
  }

  lemma ConcernsSays(before: seq<Event>, e: Event, s: nat)
    requires Concerns(before, e, s)
    ensures e.Publish? && s < Joined(before) && TopicOf(before, s) == e.topic
  {
  }

  lemma HandedSays(b: Bus, f: nat, n: nat)
    requires f < |b.flights| && n <= |b.flights[f]|
    ensures Handed(b, f, n).delivered == b.delivered + b.flights[f][..n]
  {
  }

  lemma Handing(events: seq<Event>, f: nat, n: nat)
    ensures ContinuesFrom(events + Deliveries(f, n), events, |events|)
  {
    assert (events + Deliveries(f, n))[..|events|] == events;
  }

  /** What is on its way to s was not handed to it yet, and is older than what is published now. */
  lemma OnItsWay(events: seq<Event>, s: nat, h: Msg)
    requires h in Pending(Steps(events).flights, s)
    ensures h !in Received(Steps(events).delivered, s)
    ensures forall m :: m in Owed(events, s) ==> m.number < Published(events)
    ensures h in Owed(events, s)
  {
    hide Received, Pending, Owed, Steps, Published;
    EachIsOwed(events, s);
    OwedNumbered(events, s);
    NumberedOnce(Owed(events, s), Published(events), h);
    assert h in Total(Steps(events), s);
    assert h in Received(Steps(events).delivered, s) ==> Total(Steps(events), s)[h] >= 2;
    assert h in multiset(Owed(events, s));
  }

  lemma {:induction false} OwnIsHistory(events: seq<Event>, s: nat)
    requires s < Joined(events)
    ensures Own(events, s) < |Steps(events).flights|
    ensures forall d :: d in HistoryLeft(events, s) ==> d.sub == s && d.msg in History(events, s)
  {
    var before, e := events[..|events| - 1], events[|events| - 1];
    JoinRunSame(events, s);
    if s == Joined(before) {
      hide JoinRun, Joined, Steps, History, Own;
      JoinFlight(events, s);
      assert HistoryLeft(events, s) == Replay(s, History(events, s));
    } else {
      hide JoinRun, Joined, Steps, History, Own, HistoryLeft;
      OwnIsHistory(before, s);
      Settled(events, s);
      LeftShrinks(events, s);
    }
  }

  lemma LeftShrinks(events: seq<Event>, s: nat)
    requires events != [] && s < Joined(events[..|events| - 1])
    requires Own(events[..|events| - 1], s) < |Steps(events[..|events| - 1]).flights|
    ensures Own(events, s) < |Steps(events).flights|
    ensures forall d :: d in HistoryLeft(events, s) ==> d in HistoryLeft(events[..|events| - 1], s)
  {
    var before, e := events[..|events| - 1], events[|events| - 1];
    assert Steps(events) == Step(Steps(before), e);
    Settled(events, s);
    hide Joined, Steps, Own;
    if !e.Deliver? {
      Grows(Steps(before), e);
    }
  }

  lemma {:induction false} ReceivedHas(ds: seq<Delivery>, d: Delivery)
    requires d in ds
    ensures d.msg in Received(ds, d.sub)
  {
    var last := |ds| - 1;
    if d != ds[last] {
      assert ds == ds[..last] + [ds[last]];
      ReceivedHas(ds[..last], d);
    }
  }

  /** What is left of the history of s is on its way to it. */
  lemma LeftIsPending(events: seq<Event>, s: nat) returns (h: Msg)
    requires HistoryLeft(events, s) != []
    ensures s < Joined(events) && h in History(events, s) && h in Pending(Steps(events).flights, s)
  {
    var d := HistoryLeft(events, s)[0];
    h := d.msg;
    OwnIsHistory(events, s);
    hide Received, Steps, Joined, Own, History, Pending;
    ReceivedHas(HistoryLeft(events, s), d);
    PendingCovers(Steps(events).flights, Own(events, s), s);
    assert h in multiset(Received(HistoryLeft(events, s), s));
  }

  /** Published for s when history is left: then s can be handed the publication first. */
  lemma Overtakes(events: seq<Event>, s: nat) returns (run: seq<Event>)
    requires events != [] && Concerns(events[..|events| - 1], events[|events| - 1], s)
    requires HistoryLeft(events[..|events| - 1], s) != []
    ensures ContinuesFrom(run, events, |events|) && !HistoryComesFirst(run, s)
  {
    var before, e := events[..|events| - 1], events[|events| - 1];
    assert e.Publish?;
    hide *;
    var h := LeftIsPending(before, s);
    OnItsWay(before, s, h);
    run := PublisherFirst(events, s);
    After(run, events);
    KeptHistory(run, before, s);
    OwedHistory(before, s);
    var m := Msg(Published(before), e.body);
    NotInTurn(Received(Steps(before).delivered, s), History(before, s), h, m);
    NotFirst(run, s);
  }

  lemma NotFirst(run: seq<Event>, s: nat)
    requires s < Joined(run) && !InTurn(Received(Steps(run).delivered, s), History(run, s))
    ensures !HistoryComesFirst(run, s)
  {
  }

  lemma After(run: seq<Event>, events: seq<Event>)
    requires events != [] && ContinuesFrom(run, events, |events|)
    ensures events[..|events| - 1] <= run
  {
    assert events == run[..|events|];
  }

  lemma NotInTurn(had: seq<Msg>, history: seq<Msg>, h: Msg, m: Msg)
    requires h in history && h !in had && m !in history
    ensures !InTurn(had + [m], history)
  {
    assert (had + [m])[|had|] == m;
    assert h !in had + [m];
  }

  lemma OwedHistory(events: seq<Event>, s: nat)
    requires s < Joined(events)
    ensures forall m :: m in History(events, s) ==> m in Owed(events, s)
  {
    hide History, Live;
  }

  /** Whatever happens after, history stays what it was. */
  lemma {:induction false} KeptHistory(run: seq<Event>, events: seq<Event>, s: nat)
    requires s < Joined(events) && events <= run
    ensures s < Joined(run) && History(run, s) == History(events, s)
  {
    hide Joined, History;
    if |run| == |events| {
      assert run == events;
    } else {
      KeptHistory(run[..|run| - 1], events, s);
      JoinedSame(run, s);
    }
  }

  /** Published for s when anything is on its way to it: then s can be handed the publication first. */
  lemma OutOfOrder(events: seq<Event>, s: nat) returns (run: seq<Event>)
    requires events != [] && Concerns(events[..|events| - 1], events[|events| - 1], s)
    requires Pending(Steps(events[..|events| - 1]).flights, s) != multiset{}
    ensures ContinuesFrom(run, events, |events|) && !AllInOrder(run, s)
  {
    hide Received, Owed, Steps, Joined, Published, Pending, TopicOf;
    var before, e := events[..|events| - 1], events[|events| - 1];
    var h :| h in Pending(Steps(before).flights, s);
    OnItsWay(before, s, h);
    run := PublisherFirst(events, s);
    var m := Msg(Published(before), e.body);
    var had, owed := Received(Steps(before).delivered, s), Owed(before, s);
    assert m !in owed && h in owed && h !in had;
    if had + [m] <= owed + [m] {
      SnocPrefix(had, owed, m);
    }
  }

  lemma SnocPrefix(a: seq<Msg>, b: seq<Msg>, m: Msg)
    requires a + [m] <= b + [m] && m !in b
    ensures a == b
  {
    assert (b + [m])[|a|] == (a + [m])[|a|];
    assert a == (a + [m])[..|a|] && b == (b + [m])[..|b|];
  }

  // ----- both conditions are exact -----

  lemma Rerun(run: seq<Event>, events: seq<Event>, k: nat, s: nat)
    requires ContinuesFrom(run, events, k)
    ensures Undisturbed(events, s) ==> Undisturbed(run, s)
    ensures Calm(events, s) ==> Calm(run, s)
  {
    hide HistoryLeft, Pending, Steps, Joined, TopicOf;
    forall j | 0 <= j < |run| && Concerns(run[..j], run[j], s)
      ensures j < k && Concerns(events[..j], events[j], s) && run[..j] == events[..j]
    {
      assert run[..j] == run[..k][..j] == events[..k][..j] == events[..j];
      assert run[j] == run[..k][j] == events[..k][j];
    }
  }

  lemma UpTo(run: seq<Event>, events: seq<Event>, k: nat)
    requires k < |events| && ContinuesFrom(run, events[..k + 1], k + 1)
    ensures Continues(run, events)
    ensures events[..k + 1][..k] == events[..k] && events[..k + 1][k] == events[k]
  {
    assert ContinuesFrom(run, events, k + 1);
  }

  /** However callers hand out from any moment of a run on, a subscriber gets all of its history before anything
      live, if and only if nothing was published on its topic while its history was being handed to it. */
  lemma HistoryFirst(events: seq<Event>, s: nat)
    ensures Undisturbed(events, s) <==> forall run :: Continues(run, events) ==> HistoryComesFirst(run, s)
  {
    hide HistoryComesFirst, Concerns, HistoryLeft, ContinuesFrom;
    if Undisturbed(events, s) {
      forall run | Continues(run, events) ensures HistoryComesFirst(run, s) {
        var k :| 0 <= k <= |events| && ContinuesFrom(run, events, k);
        Rerun(run, events, k, s);
        UndisturbedInTurn(run, s);
      }
    } else {
      var k :| 0 <= k < |events| && Concerns(events[..k], events[k], s) && HistoryLeft(events[..k], s) != [];
      assert events[..k + 1][..k] == events[..k];
      var run := Overtakes(events[..k + 1], s);
      UpTo(run, events, k);
    }
  }

  lemma UndisturbedInTurn(run: seq<Event>, s: nat)
    requires Undisturbed(run, s)
    ensures HistoryComesFirst(run, s)
  {
    hide Received, Steps, Joined, Undisturbed, History, Own;
    if s < Joined(run) {
      UndisturbedTurns(run, s);
    }
  }

  /** However callers hand out from any moment of a run on, a subscriber gets what it is owed in order, history and
      then live messages as published, if and only if nothing was published on its topic while anything was on its
      way to it. */
  lemma OrderKept(events: seq<Event>, s: nat)
    ensures Calm(events, s) <==> forall run :: Continues(run, events) ==> AllInOrder(run, s)
  {
    hide AllInOrder, Concerns, Pending, Steps, ContinuesFrom;
    if Calm(events, s) {
      forall run | Continues(run, events) ensures AllInOrder(run, s) {
        var k :| 0 <= k <= |events| && ContinuesFrom(run, events, k);
        Rerun(run, events, k, s);
        CalmInOrder(run, s);
      }
    } else {
      var k :| 0 <= k < |events| && Concerns(events[..k], events[k], s)
        && Pending(Steps(events[..k]).flights, s) != multiset{};
      assert events[..k + 1][..k] == events[..k];
      var run := OutOfOrder(events[..k + 1], s);
      UpTo(run, events, k);
    }
  }

  lemma CalmInOrder(run: seq<Event>, s: nat)
    requires Calm(run, s)
    ensures AllInOrder(run, s)
  {
    hide Received, Steps, Joined, Calm, Owed;
    CalmInOneHand(run, s);
  }

  // ----- an input on which the documented order fails -----

  lemma StepsSnoc(events: seq<Event>, e: Event)
    ensures Steps(events + [e]) == Step(Steps(events), e)
  {
    assert (events + [e])[..|events|] == events;
  }

  /** A subscriber joins late, and a message is published before it was handed what was kept for it. */
  function Overlap(): seq<Event> {
    [Publish("tf_static", 1, "old")] + [Subscribe("tf_static", true)] + [Publish("tf_static", 1, "new")]
  }

  function Overtaking(): seq<Event> {
    Overlap() + [Deliver(2)] + [Deliver(1)]
  }

  lemma OverlapFlights(early: Msg, late: Msg)
    requires early == Msg(0, "old") && late == Msg(1, "new")
    ensures Steps(Overlap()).delivered == []
    ensures Steps(Overlap()).flights == [[], [Delivery(0, early)], [Delivery(0, late)]]
  {
    hide Received, Owed, Published, Retained;
    var first := [Publish("tf_static", 1, "old")];
    assert [] + first == first && Steps([]) == NEW_BUS;
    StepsSnoc([], first[0]);
    StepsSnoc(first, Subscribe("tf_static", true));
    StepsSnoc(first + [Subscribe("tf_static", true)], Publish("tf_static", 1, "new"));
    assert Fan([], early) == [] && Replay(0, [early]) == [Delivery(0, early)] && Fan([0], late) == [Delivery(0, late)];
    assert Of(NEW_BUS.subs, "tf_static") == [] && [] + [early] == [early];
    var b := Steps(first);
    assert Of(b.latched, "tf_static") == [early] && b.flights == [[]];
    assert Of(b.subs, "tf_static") + [0] == [0];
  }

  lemma OverlapOwed()
    ensures Owed(Overlap(), 0) == [Msg(0, "old"), Msg(1, "new")]
  {
    hide Received, Steps, Pending, Durables, Publications;
    var first := [Publish("tf_static", 1, "old")];
    var second := first + [Subscribe("tf_static", true)];
    assert second[..1] == first && Overlap()[..2] == second;
    KeptFirst(first);
    JoinRunSame(second, 0);
    assert Joined(second) == 1 && TopicOf(second, 0) == "tf_static" && Published(second) == 1;
    hide *;
    JoinedOwed(first, 0);
    SubscribedOwed(second[1], second, 0);
    PublishedOwed(Overlap()[2], Overlap(), 0);
  }

  lemma KeptFirst(first: seq<Event>)
    requires first == [Publish("tf_static", 1, "old")]
    ensures Joined(first) == 0 && Published(first) == 1 && Retained(first, "tf_static") == [Msg(0, "old")]
  {
    assert first[..0] == [];
  }

  /** With overlap it does not: a message published while a late subscriber's history is on its way overtakes it. */
  lemma LiveMayComeFirst()
    ensures Received(Steps(Overtaking()).delivered, 0) == [Msg(1, "new"), Msg(0, "old")]
    ensures Owed(Overtaking(), 0) == [Msg(0, "old"), Msg(1, "new")]
  {
    var early, late := Msg(0, "old"), Msg(1, "new");
    OverlapFlights(early, late);
    OvertakenDelivered(Steps(Overlap()), early, late);
    OverlapOwed();
    hide *;
    StepsSnoc(Overlap(), Deliver(2));
    StepsSnoc(Overlap() + [Deliver(2)], Deliver(1));
    OvertakingOwed();
  }

  lemma OvertakenDelivered(b: Bus, early: Msg, late: Msg)
    requires b.delivered == [] && b.flights == [[], [Delivery(0, early)], [Delivery(0, late)]]
    ensures Received(Step(Step(b, Deliver(2)), Deliver(1)).delivered, 0) == [late, early]
  {
    hide Received;
    var b2 := Step(b, Deliver(2));
    assert b2.delivered == [Delivery(0, late)] && b2.flights[1] == [Delivery(0, early)];
    assert Step(b2, Deliver(1)).delivered == [Delivery(0, late)] + [Delivery(0, early)];
    ReceivedAppend([Delivery(0, late)], [Delivery(0, early)], 0);
    ReceivedOne(Delivery(0, late), 0);
    ReceivedOne(Delivery(0, early), 0);
  }

  lemma OvertakingOwed()
    ensures Overtaking() == Overlap() + [Deliver(2)] + [Deliver(1)]
    ensures Owed(Overtaking(), 0) == Owed(Overlap(), 0)
  {
    hide Steps, Owed, Received, Overlap;
    var r := Overlap();
    assert (r + [Deliver(2)])[..|r|] == r;
    DeliveredOwed(Deliver(2), r + [Deliver(2)], 0);
    assert Overtaking()[..|r| + 1] == r + [Deliver(2)];
    DeliveredOwed(Deliver(1), Overtaking(), 0);
  }
}
