/**
 * What durability means on the in-process bus, bus.go 49-97 and qos.go: which messages a late subscriber is handed.
 */
module BusDurability {
  import opened Wrappers
  import opened Sorting
  import opened Buses

  /** What callers do, as they say it: publish and subscribe with a quality of service, or hand out one message. */
  datatype Call =
    | Sends(topic: Topic, durability: Durability, depth: int, body: Payload)
    | Joins(topic: Topic, durability: Durability)
    | Hands(f: nat)

  function EventOf(c: Call): Event {
    match c
    case Sends(topic, durability, depth, body) => Publish(topic, Keep(durability, depth), body)
    case Joins(topic, durability) => Subscribe(topic, durability == TransientLocal)
    case Hands(f) => Deliver(f)
  }

  function EventsOf(calls: seq<Call>): seq<Event> {
    seq(|calls|, i requires 0 <= i < |calls| => EventOf(calls[i]))
  }

  lemma EventsSnoc(calls: seq<Call>)
    requires calls != []
    ensures var before, events := calls[..|calls| - 1], EventsOf(calls);
      events != [] && events[..|events| - 1] == EventsOf(before) && events[|events| - 1] == EventOf(calls[|calls| - 1])
  {
  }

  /** The messages that were sent on the topic as transient local. */
  function SentDurably(calls: seq<Call>, topic: Topic): seq<Msg> {
    if calls == [] then []
    else
      var before, last := calls[..|calls| - 1], calls[|calls| - 1];
      SentDurably(before, topic)
      + if last.Sends? && last.topic == topic && last.durability == TransientLocal
        then [Msg(Published(EventsOf(before)), last.body)] else []
  }

  /** All transient local publishers of the topic have this depth. */
  ghost predicate Depth(calls: seq<Call>, topic: Topic, depth: int) {
    forall c :: c in calls && c.Sends? && c.topic == topic && c.durability == TransientLocal ==> c.depth == depth
  }

  lemma {:induction false} DurablesAre(calls: seq<Call>, topic: Topic)
    ensures Durables(EventsOf(calls), topic) == SentDurably(calls, topic)
  {
    if calls != [] {
      EventsSnoc(calls);
      DurablesAre(calls[..|calls| - 1], topic);
      hide EventsOf, Published;
    }
  }

  lemma DepthKeeps(calls: seq<Call>, topic: Topic, depth: int)
    requires Depth(calls, topic, depth)
    ensures SameKeep(EventsOf(calls), topic, if depth <= 0 then 1 else depth)
  {
    var events := EventsOf(calls);
    forall e | e in events && e.Publish? && e.topic == topic && e.keep > 0
      ensures e.keep == if depth <= 0 then 1 else depth
    {
      var i :| 0 <= i < |events| && events[i] == e;
      assert calls[i] in calls && e == EventOf(calls[i]);
    }
  }

  /** What is kept on a topic: the last messages that transient local publishers sent, as many as their depth says but
      one at least. */
  lemma KeptIsLastSent(calls: seq<Call>, topic: Topic, depth: int)
    requires Depth(calls, topic, depth)
    ensures Of(Steps(EventsOf(calls)).latched, topic) ==
      Last(SentDurably(calls, topic), if depth <= 0 then 1 else depth)
    ensures Retained(EventsOf(calls), topic) == Last(SentDurably(calls, topic), if depth <= 0 then 1 else depth)
  {
    DepthKeeps(calls, topic, depth);
    DurablesAre(calls, topic);
    hide Keep, EventsOf, Last, SameKeep;
    RetainedIsLast(EventsOf(calls), topic, if depth <= 0 then 1 else depth);
    BusAgrees(EventsOf(calls));
  }

  lemma {:induction false} JoinedAt(before: seq<Event>, e: Event, after: seq<Event>)
    requires e.Subscribe?
    ensures var s := Joined(before);
      s < Joined(before + [e] + after) && JoinRun(before + [e] + after, s) == before + [e]
  {
    var events := before + [e] + after;
    if after == [] {
      assert events == before + [e] && events[..|events| - 1] == before;
    } else {
      assert events[..|events| - 1] == before + [e] + after[..|after| - 1];
      JoinedAt(before, e, after[..|after| - 1]);
    }
  }

  lemma HistoryAt(before: seq<Event>, topic: Topic, durable: bool, after: seq<Event>)
    ensures var events := before + [Subscribe(topic, durable)] + after;
      var s := Joined(before);
      && s < Joined(events) && TopicOf(events, s) == topic
      && History(events, s) == if durable then Retained(before, topic) else []
  {
    var e := Subscribe(topic, durable);
    JoinedAt(before, e, after);
    assert (before + [e])[..|before|] == before;
    hide Joined, JoinRun, Retained;
  }

  lemma JoinEvents(before: seq<Call>, topic: Topic, durability: Durability, after: seq<Call>)
    ensures EventsOf(before + [Joins(topic, durability)] + after) ==
      EventsOf(before) + [Subscribe(topic, durability == TransientLocal)] + EventsOf(after)
  {
  }

  /** Whoever joins a topic is handed, besides what the topic carries from then on, the last of those messages that
      were sent durably, if it asked for them, and else nothing. */
  lemma LateJoiner(before: seq<Call>, topic: Topic, durability: Durability, depth: int, after: seq<Call>)
    requires Depth(before, topic, depth)
    ensures var events := EventsOf(before + [Joins(topic, durability)] + after);
      var s := Joined(EventsOf(before));
      && s < Joined(events) && TopicOf(events, s) == topic
      && History(events, s) ==
        if durability == Volatile then [] else Last(SentDurably(before, topic), if depth <= 0 then 1 else depth)
  {
    hide *;
    JoinEvents(before, topic, durability, after);
    HistoryAt(EventsOf(before), topic, durability == TransientLocal, EventsOf(after));
    KeptIsLastSent(before, topic, depth);
  }

  /** So once everybody is done handing out, it has exactly those and the live ones. */
  lemma LateJoinerGets(before: seq<Call>, topic: Topic, durability: Durability, depth: int, after: seq<Call>)
    requires Depth(before, topic, depth)
    requires Quiet(Steps(EventsOf(before + [Joins(topic, durability)] + after)))
    ensures var events := EventsOf(before + [Joins(topic, durability)] + after);
      var s := Joined(EventsOf(before));
      var history := if durability == Volatile then []
        else Last(SentDurably(before, topic), if depth <= 0 then 1 else depth);
      s < Joined(events) && multiset(Received(Steps(events).delivered, s)) == multiset(history + Live(events, s))
  {
    hide EventsOf, Last, Steps, Live, History;
    LateJoiner(before, topic, durability, depth, after);
    ExactlyOnce(EventsOf(before + [Joins(topic, durability)] + after), Joined(EventsOf(before)));
  }

  /** A volatile message leaves what is kept as it was, on its own topic and all others. */
  lemma VolatileLeavesNothing(calls: seq<Call>, topic: Topic, depth: int, body: Payload)
    ensures Steps(EventsOf(calls + [Sends(topic, Volatile, depth, body)])).latched == Steps(EventsOf(calls)).latched
  {
    var more := calls + [Sends(topic, Volatile, depth, body)];
    EventsSnoc(more);
    assert more[..|calls|] == calls;
    hide EventsOf;
  }
}
