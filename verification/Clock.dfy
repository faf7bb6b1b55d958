/**
 * The simulated clock, clock.go 55-190: it moves only when it is set, and fires what was waiting for that.
 */
module Clocks {
  import opened Wrappers
  import opened Sorting

  /** Times and durations in nanoseconds; the time a clock shows before it was ever set is ZERO_TIME. */
  type Time = int

  const ZERO_TIME: Time := 0

  /** An After (period 0 or less) or a Ticker, with the times it has fired at. */
  datatype Waiter = Waiter(at: Time, after: int, anchored: bool, period: int, stopped: bool, firings: seq<Time>)

  /** All waiters there ever were, and the numbers of those the clock still holds, in the order it holds them. */
  datatype Clock = Clock(now: Time, started: bool, all: seq<Waiter>, held: seq<nat>)

  const NEW_CLOCK := Clock(ZERO_TIME, false, [], [])

  datatype Event = Set(t: Time) | After(d: int) | Ticker(period: int) | Stop(k: nat)

  // ----- the three passes of Set, waiter by waiter -----

  function Anchor(w: Waiter, t: Time): Waiter {
    if w.anchored then w else w.(at := t + w.after, anchored := true)
  }

  function Clamp(w: Waiter, t: Time): Waiter {
    if w.at > t then w.(at := t) else w
  }

  predicate Due(w: Waiter, t: Time) {
    !w.stopped && w.anchored && w.at <= t
  }

  function Fire(w: Waiter, t: Time): Waiter {
    if Due(w, t) then
      w.(firings := w.firings + [t], at := if w.period > 0 then t + w.period else w.at)
    else w
  }

  /** Whether the clock goes on holding w. */
  predicate Stays(w: Waiter, t: Time) {
    !w.stopped && (Due(w, t) ==> w.period > 0)
  }

  function Anchoring(t: Time): Waiter -> Waiter {
    w => Anchor(w, t)
  }

  function Clamping(t: Time): Waiter -> Waiter {
    w => Clamp(w, t)
  }

  function Firing(t: Time): Waiter -> Waiter {
    w => Fire(w, t)
  }

  /** f of every waiter that is held, others untouched. */
  function Each(all: seq<Waiter>, held: seq<nat>, f: Waiter -> Waiter): (r: seq<Waiter>)
    ensures |r| == |all|
  {
    seq(|all|, k requires 0 <= k < |all| => if k in held then f(all[k]) else all[k])
  }

  predicate Within(held: seq<nat>, n: nat) {
    forall i :: 0 <= i < |held| ==> held[i] < n
  }

  /** Those of the held ones that stay, in the same order. */
  function Kept(all: seq<Waiter>, held: seq<nat>, t: Time): seq<nat>
    requires Within(held, |all|)
  {
    if held == [] then []
    else
      var last := held[|held| - 1];
      Kept(all, held[..|held| - 1], t) + if Stays(all[last], t) then [last] else []
  }

  /** The waiters as they are after the first two passes of Set. */
  function Adjusted(c: Clock, t: Time): seq<Waiter> {
    var anchored := if c.started then c.all else Each(c.all, c.held, Anchoring(t));
    if c.started && t < c.now then Each(anchored, c.held, Clamping(t)) else anchored
  }

  predicate Held(c: Clock) {
    Within(c.held, |c.all|)
  }

  function NewWaiter(c: Clock, d: int, period: int): Waiter {
    Waiter(c.now + d, d, c.started, period, false, [])
  }

  function Step(c: Clock, e: Event): Clock
    requires Held(c)
  {
    match e
    case Set(t) =>
      var all := Adjusted(c, t);
      assert |all| == |c.all|;
      Clock(t, true, Each(all, c.held, Firing(t)), Kept(all, c.held, t))
    case After(d) => c.(all := c.all + [NewWaiter(c, d, 0)], held := c.held + [|c.all|])
    case Ticker(p) => c.(all := c.all + [NewWaiter(c, p, p)], held := c.held + [|c.all|])
    case Stop(k) =>
      if k < |c.all| then c.(all := c.all[k := c.all[k].(stopped := true)]) else c
  }

  /** What becomes of one waiter that is held. */
  function Ticked(c: Clock, w: Waiter, t: Time): Waiter {
    var a := if c.started then w else Anchor(w, t);
    if c.started && t < c.now then Clamp(a, t) else a
  }

  lemma AdjustedAt(c: Clock, t: Time, k: nat)
    requires k < |c.all|
    ensures |Adjusted(c, t)| == |c.all|
    ensures Adjusted(c, t)[k] == if k in c.held then Ticked(c, c.all[k], t) else c.all[k]
  {
  }

  lemma {:induction false} KeptAre(all: seq<Waiter>, held: seq<nat>, t: Time)
    requires Within(held, |all|)
    ensures forall k :: k in Kept(all, held, t) <==> k in held && k < |all| && Stays(all[k], t)
  {
    if held != [] {
      var last := |held| - 1;
      KeptAre(all, held[..last], t);
      assert held == held[..last] + [held[last]];
    }
  }

  ghost predicate Increasing(s: seq<nat>) {
    forall i, j :: 0 <= i < j < |s| ==> s[i] < s[j]
  }

  lemma {:induction false} KeptInOrder(all: seq<Waiter>, held: seq<nat>, t: Time)
    requires Increasing(held) && Within(held, |all|)
    ensures Increasing(Kept(all, held, t))
  {
    if held != [] {
      var last := |held| - 1;
      KeptInOrder(all, held[..last], t);
      KeptAre(all, held[..last], t);
      var front := Kept(all, held[..last], t);
      forall i | 0 <= i < |front| ensures front[i] < held[last] {
        assert front[i] in held[..last];
      }
    }
  }

  lemma StepHeld(c: Clock, e: Event)
    requires Held(c)
    ensures Held(Step(c, e)) && |c.all| <= |Step(c, e).all|
  {
    if e.Set? {
      var kept := Kept(Adjusted(c, e.t), c.held, e.t);
      KeptAre(Adjusted(c, e.t), c.held, e.t);
      forall i | 0 <= i < |kept| ensures kept[i] < |c.all| {
        assert kept[i] in kept;
      }
    }
  }

  ghost function Steps(events: seq<Event>): (c: Clock)
    ensures Held(c)
  {
    if events == [] then NEW_CLOCK
    else
      var c := Steps(events[..|events| - 1]);
      StepHeld(c, events[|events| - 1]);
      Step(c, events[|events| - 1])
  }

  // ----- what a waiter should do, said without any clock -----

  /** A waiter's life: the time when it was made, if there was one yet, its wait and period, and the times the
      clock was set to since, until it was stopped. */
  datatype Life = Life(born: Option<Time>, after: int, period: int, times: seq<Time>)

  /** Its first deadline: counted from its birth, or from the first time there was. */
  function Deadline(l: Life): Time
    requires l.born.Some? || l.times != []
  {
    (if l.born.Some? then l.born.value else l.times[0]) + l.after
  }

  /** Time went backwards there. */
  predicate Backwards(l: Life, i: nat)
    requires i < |l.times|
  {
    if i > 0 then l.times[i] < l.times[i - 1] else l.born.Some? && l.times[0] < l.born.value
  }

  /** A one-shot waiter that has fired before time i, and fires no more. */
  predicate Over(l: Life, i: nat)
    requires i <= |l.times|
    decreases i, 0
  {
    i > 0 && l.period <= 0 && (Over(l, i - 1) || Fires(l, i - 1))
  }

  /** When it is to fire next, as of time i: its deadline at first, and one period after each firing. */
  function Next(l: Life, i: nat): Time
    requires i <= |l.times| && (l.born.Some? || l.times != [])
    decreases i, 0
  {
    if i == 0 then Deadline(l)
    else if Fires(l, i - 1) && l.period > 0 then l.times[i - 1] + l.period
    else Next(l, i - 1)
  }

  /** It fires at time i if it was due by then, or time went backwards. */
  predicate Fires(l: Life, i: nat)
    requires i < |l.times|
    decreases i, 1
  {
    !Over(l, i) && (Backwards(l, i) || Next(l, i) <= l.times[i])
  }

  function FiringsUpTo(l: Life, n: nat): seq<Time>
    requires n <= |l.times|
  {
    if n == 0 then [] else FiringsUpTo(l, n - 1) + if Fires(l, n - 1) then [l.times[n - 1]] else []
  }

  // ----- the life of waiter k in a run -----

  function Made(events: seq<Event>): nat {
    if events == [] then 0
    else
      var last := events[|events| - 1];
      Made(events[..|events| - 1]) + if last.After? || last.Ticker? then 1 else 0
  }

  /** The time after these events, if there is one. */
  function LastSet(events: seq<Event>): Option<Time> {
    if events == [] then None
    else
      var last := events[|events| - 1];
      if last.Set? then Some(last.t) else LastSet(events[..|events| - 1])
  }

  predicate Stopped(events: seq<Event>, k: nat) {
    k < Made(events)
    && var last := events[|events| - 1];
    var before := events[..|events| - 1];
    k < Made(before) && (Stopped(before, k) || last == Stop(k))
  }

  function LifeOf(events: seq<Event>, k: nat): Life
    requires k < Made(events)
  {
    var last := events[|events| - 1];
    var before := events[..|events| - 1];
    if k < Made(before) then
      var l := LifeOf(before, k);
      if last.Set? && !Stopped(before, k) then l.(times := l.times + [last.t]) else l
    else if last.After? then Life(LastSet(before), last.d, 0, [])
    else Life(LastSet(before), last.period, last.period, [])
  }

  // ----- the clock does what it should -----

  /** A longer life agrees with a shorter one up to there. */
  lemma {:induction false} LongerLife(l: Life, t: Time, i: nat)
    requires i <= |l.times|
    ensures var m := l.(times := l.times + [t]);
      && Over(m, i) == Over(l, i)
      && (l.born.Some? || l.times != [] ==> Next(m, i) == Next(l, i))
      && (i < |l.times| ==> Fires(m, i) == Fires(l, i))
  {
    if i > 0 {
      LongerLife(l, t, i - 1);
    }
  }

  lemma {:induction false} LongerFirings(l: Life, t: Time, n: nat)
    requires n <= |l.times|
    ensures FiringsUpTo(l.(times := l.times + [t]), n) == FiringsUpTo(l, n)
  {
    if n > 0 {
      LongerFirings(l, t, n - 1);
      LongerLife(l, t, n - 1);
    }
  }

  /** Waiter w, held or not, of a clock at now (if it has started), has lived l so far. */
  ghost predicate Lived(w: Waiter, held: bool, stopped: bool, now: Option<Time>, l: Life) {
    && w.after == l.after && w.period == l.period && w.stopped == stopped
    && w.firings == FiringsUpTo(l, |l.times|)
    && (!stopped ==> (held <==> !Over(l, |l.times|)))
    && (!stopped ==> now == if l.times != [] then Some(l.times[|l.times| - 1]) else l.born)
    && (held && !stopped ==> (w.anchored <==> now.Some?) && (now.Some? ==> w.at == Next(l, |l.times|)))
  }

  /** One Set, seen from one waiter that was not stopped. */
  lemma SetKeepsLived(c: Clock, w: Waiter, held: bool, now: Option<Time>, l: Life, t: Time)
    requires Lived(w, held, false, now, l)
    requires now == if c.started then Some(c.now) else None
    ensures var a := Ticked(c, w, t);
      Lived(if held then Fire(a, t) else w, held && Stays(a, t), false, Some(t), l.(times := l.times + [t]))
  {
    var m := l.(times := l.times + [t]);
    var n := |l.times|;
    LongerLife(l, t, n);
    LongerFirings(l, t, n);
    assert m.times[n] == t;
    assert FiringsUpTo(m, n + 1) == FiringsUpTo(l, n) + if Fires(m, n) then [t] else [];
    assert n > 0 ==> m.times[n - 1] == l.times[n - 1];
    assert Over(m, n) == Over(l, n);
    if held {
      var a := Ticked(c, w, t);
      assert Next(m, n) == if now.Some? then w.at else t + l.after;
      assert Backwards(m, n) <==> c.started && t < c.now;
      assert Fires(m, n) <==> Due(a, t);
    } else {
      assert !Fires(m, n);
    }
  }

  /** The clock agrees with the run: it has started once it was set, it shows the last time it was set to, and it
      holds waiters in the order they were made in. */
  ghost predicate Agrees(c: Clock, events: seq<Event>) {
    && (if c.started then Some(c.now) else None) == LastSet(events)
    && (!c.started ==> c.now == ZERO_TIME)
    && |c.all| == Made(events) && Increasing(c.held) && Held(c)
  }

  lemma {:induction false} ClockAgrees(events: seq<Event>)
    ensures Agrees(Steps(events), events)
  {
    if events != [] {
      var last := |events| - 1;
      ClockAgrees(events[..last]);
      var c := Steps(events[..last]);
      StepHeld(c, events[last]);
      if events[last].Set? {
        KeptInOrder(Adjusted(c, events[last].t), c.held, events[last].t);
      }
    }
  }

  /** A waiter that was there already, and one event. */
  lemma OldWaiter(c: Clock, e: Event, events: seq<Event>, k: nat)
    requires Agrees(c, events) && k < |c.all|
    requires Lived(c.all[k], k in c.held, Stopped(events, k), LastSet(events), LifeOf(events, k))
    ensures Held(Step(c, e)) && k < |Step(c, e).all|
    ensures Made(events + [e]) > k
    ensures Lived(Step(c, e).all[k], k in Step(c, e).held, Stopped(events + [e], k), LastSet(events + [e]),
      LifeOf(events + [e], k))
  {
    assert (events + [e])[..|events|] == events;
    StepHeld(c, e);
    var l := LifeOf(events, k);
    if e.Set? {
      var a := Adjusted(c, e.t);
      AdjustedAt(c, e.t, k);
      KeptAre(a, c.held, e.t);
      if !Stopped(events, k) {
        SetKeepsLived(c, c.all[k], k in c.held, LastSet(events), l, e.t);
      }
    }
  }

  /** A waiter that is just being made. */
  lemma NewestWaiter(c: Clock, e: Event, events: seq<Event>)
    requires Agrees(c, events) && (e.After? || e.Ticker?)
    ensures var k := |c.all|;
      && k < |Step(c, e).all| && k < Made(events + [e])
      && Lived(Step(c, e).all[k], k in Step(c, e).held, Stopped(events + [e], k), LastSet(events + [e]),
        LifeOf(events + [e], k))
  {
    assert (events + [e])[..|events|] == events;
  }

  /**
   * Every run: each waiter has fired at exactly the times its life says, and is held just as long as it may
   * still fire; while it is held its deadline is the one its life says, and it has none before time began.
   */
  lemma {:induction false} EveryWaiter(events: seq<Event>, k: nat)
    requires k < Made(events)
    ensures k < |Steps(events).all|
    ensures Lived(Steps(events).all[k], k in Steps(events).held, Stopped(events, k), LastSet(events), LifeOf(events, k))
  {
    var last := |events| - 1;
    ClockAgrees(events);
    ClockAgrees(events[..last]);
    assert events == events[..last] + [events[last]];
    if k < Made(events[..last]) {
      EveryWaiter(events[..last], k);
      OldWaiter(Steps(events[..last]), events[last], events[..last], k);
    } else {
      NewestWaiter(Steps(events[..last]), events[last], events[..last]);
    }
  }

  /** Just after the clock was set, it holds exactly the waiters that were not stopped and are not over, in the
      order they were made in, every one with a deadline that is still to come. */
  lemma AfterSet(events: seq<Event>, t: Time)
    ensures var c, run := Steps(events + [Set(t)]), events + [Set(t)];
      && c.started && c.now == t && Increasing(c.held)
      && (forall k :: k in c.held ==> k < |c.all| && c.all[k].anchored && c.all[k].at > t)
      && (forall k: nat :: k in c.held <==>
        k < Made(run) && !Stopped(run, k) && !Over(LifeOf(run, k), |LifeOf(run, k).times|))
  {
    var run := events + [Set(t)];
    assert run[..|events|] == events;
    ClockAgrees(run);
    ClockAgrees(events);
    var c := Steps(events);
    var a := Adjusted(c, t);
    KeptAre(a, c.held, t);
    HeldExist(Steps(run));
    forall k: nat
      ensures k in Steps(run).held ==>
        k < |c.all| && Steps(run).all[k].anchored && Steps(run).all[k].at > t && !Stopped(run, k)
      ensures k in Steps(run).held <==>
        k < Made(run) && !Stopped(run, k) && !Over(LifeOf(run, k), |LifeOf(run, k).times|)
    {
      if k < Made(run) {
        AdjustedAt(c, t, k);
        EveryWaiter(events, k);
        EveryWaiter(run, k);
        if k in c.held {
          StaysUnstopped(c, events, k, t);
        }
      }
    }
  }

  lemma HeldExist(c: Clock)
    requires Held(c)
    ensures forall k :: k in c.held ==> k < |c.all|
  {
  }

  lemma StaysUnstopped(c: Clock, events: seq<Event>, k: nat, t: Time)
    requires Agrees(c, events) && k < |c.all| && k in c.held
    requires Lived(c.all[k], k in c.held, Stopped(events, k), LastSet(events), LifeOf(events, k))
    ensures var a := Adjusted(c, t);
      k < |a| && a[k].stopped == Stopped(events, k)
      && (Stays(a[k], t) ==> Fire(a[k], t).anchored && Fire(a[k], t).at > t)
  {
    AdjustedAt(c, t, k);
  }

  // ----- what that means -----

  /** Time i is one where a one-shot waiter could fire: its deadline is reached, or time goes backwards. */
  predicate Hit(l: Life, i: nat)
    requires i < |l.times|
  {
    Backwards(l, i) || Deadline(l) <= l.times[i]
  }

  ghost predicate NoHit(l: Life, n: nat)
    requires n <= |l.times|
  {
    forall i :: 0 <= i < n ==> !Hit(l, i)
  }

  /** A one-shot waiter does not fire before its deadline is reached or time goes backwards, and then at once. */
  lemma {:induction false} NotBefore(l: Life, n: nat)
    requires l.period <= 0 && n <= |l.times| && NoHit(l, n)
    ensures FiringsUpTo(l, n) == [] && !Over(l, n)
    ensures n < |l.times| ==> (Fires(l, n) <==> Hit(l, n))
  {
    if n > 0 {
      NotBefore(l, n - 1);
      assert !Hit(l, n - 1);
    }
    if n < |l.times| {
      NextIsDeadline(l, n);
    }
  }

  /** An After fires exactly once: the first time its deadline is reached, or time goes backwards. */
  lemma {:induction false} OneShotOnce(l: Life, first: nat, n: nat)
    requires l.period <= 0 && first < n <= |l.times| && NoHit(l, first) && Hit(l, first)
    ensures FiringsUpTo(l, n) == [l.times[first]] && Over(l, n)
  {
    if n == first + 1 {
      NotBefore(l, first);
    } else {
      OneShotOnce(l, first, n - 1);
    }
  }

  lemma {:induction false} NextIsDeadline(l: Life, i: nat)
    requires l.period <= 0 && i < |l.times|
    ensures Next(l, i) == Deadline(l)
  {
    if i > 0 {
      NextIsDeadline(l, i - 1);
    }
  }

  /** A Ticker is never over, and fires whenever time goes backwards. */
  lemma TickerGoesOn(l: Life, i: nat)
    requires l.period > 0 && i < |l.times|
    ensures !Over(l, i) && (Backwards(l, i) ==> Fires(l, i))
    ensures Fires(l, i) <==> Backwards(l, i) || Next(l, i) <= l.times[i]
  {
  }

  /** No burst: as long as time does not go backwards, two firings of a Ticker are a whole period apart. */
  lemma {:induction false} PeriodApart(l: Life, i: nat, j: nat)
    requires l.period > 0 && i < j < |l.times| && Fires(l, i)
    requires forall m: nat :: i < m <= j ==> !Backwards(l, m)
    ensures Next(l, j) >= l.times[i] + l.period
    ensures Fires(l, j) ==> l.times[j] >= l.times[i] + l.period
  {
    if j > i + 1 {
      PeriodApart(l, i, j - 1);
    }
  }

  /** Nor is one missed: a Ticker that has not fired since time i is not a whole period later than that yet. */
  lemma {:induction false} NoneMissed(l: Life, i: nat, j: nat)
    requires l.period > 0 && i < j < |l.times| && Fires(l, i)
    requires forall m: nat :: i < m <= j ==> !Fires(l, m)
    ensures Next(l, j) == l.times[i] + l.period && l.times[j] < l.times[i] + l.period
  {
    if j > i + 1 {
      NoneMissed(l, i, j - 1);
    }
    assert !Fires(l, j) && !Over(l, j);
  }

  // ----- the clock as the runtime keeps it -----

  /** One more of the held waiters done. */
  lemma EachNext(all: seq<Waiter>, held: seq<nat>, f: Waiter -> Waiter, i: nat)
    requires Within(held, |all|) && Increasing(held) && i < |held|
    ensures Each(all, held[..i], f)[held[i]] == all[held[i]]
    ensures Each(all, held[..i + 1], f) == Each(all, held[..i], f)[held[i] := f(all[held[i]])]
  {
    assert held[..i + 1] == held[..i] + [held[i]];
    assert held[i] !in held[..i];
  }

  lemma EachNone(all: seq<Waiter>, f: Waiter -> Waiter)
    ensures Each(all, [], f) == all
  {
  }

  class SimWaiter {
    ghost const number: nat
    const after: int
    const period: int
    var at: Time
    var anchored: bool
    var stopped: bool
    /** The channel, which has room for one time. */
    var c: Option<Time>
    ghost var firings: seq<Time>

    ghost function Model(): Waiter
      reads this
    {
      Waiter(at, after, anchored, period, stopped, firings)
    }

    constructor (at: Time, after: int, anchored: bool, period: int, ghost number: nat)
      ensures Model() == Waiter(at, after, anchored, period, false, []) && this.number == number && c == None
    {
      this.number := number;
      this.at, this.after, this.anchored, this.period, stopped, c := at, after, anchored, period, false, None;
      firings := [];
    }

    /** What the first pass of Set does to one waiter, when time begins. */
    method AnchorAt(t: Time)
      modifies this`at, this`anchored
      ensures Model() == Anchor(old(Model()), t)
    {
      if !anchored {
        at := t + after;
        anchored := true;
      }
    }

    /** What the second pass does, when time goes backwards. */
    method ClampAt(t: Time)
      modifies this`at
      ensures Model() == Clamp(old(Model()), t)
    {
      if at > t {
        at := t;
      }
    }

    /** What the third pass of Set does to one waiter: whether it fires, and whether the clock keeps it. */
    method FireAt(t: Time) returns (fires: bool, stays: bool)
      modifies this`at, this`firings
      ensures Model() == Fire(old(Model()), t)
      ensures fires == Due(old(Model()), t) && stays == Stays(old(Model()), t)
    {
      if stopped {
        return false, false;
      }
      if !anchored {
        return false, true;
      }
      if at <= t {
        firings := firings + [t];
        if period > 0 {
          at := t + period;
          return true, true;
        }
        return true, false;
      }
      return false, true;
    }
  }

  lemma KeptNone(all: seq<Waiter>, t: Time)
    ensures Kept(all, [], t) == []
  {
  }

  lemma KeptNext(all: seq<Waiter>, held: seq<nat>, t: Time, i: nat)
    requires Within(held, |all|) && i < |held|
    ensures Kept(all, held[..i + 1], t) == Kept(all, held[..i], t) + if Stays(all[held[i]], t) then [held[i]] else []
  {
    assert held[..i + 1][..i] == held[..i];
  }

  lemma PassIs(t: Time, w: Waiter)
    ensures Anchoring(t)(w) == Anchor(w, t) && Clamping(t)(w) == Clamp(w, t) && Firing(t)(w) == Fire(w, t)
  {
  }

  /** Those fired are the ones that were due among the first i held. */
  ghost predicate FiredSoFar(fired: seq<SimWaiter>, all: seq<SimWaiter>, before: Clock, t: Time, i: nat)
    requires i <= |before.held|
  {
    && (forall w :: w in fired ==> w in all && MustFire(w.number, before, t, i))
    && (forall w :: w in all && MustFire(w.number, before, t, i) ==> w in fired)
  }

  ghost predicate MustFire(k: nat, before: Clock, t: Time, i: nat)
    requires i <= |before.held|
  {
    k in before.held[..i] && k < |before.all| && Due(before.all[k], t)
  }

  lemma FiredNext(fired: seq<SimWaiter>, all: seq<SimWaiter>, before: Clock, t: Time, i: nat, w: SimWaiter, fires: bool)
    requires i < |before.held| && FiredSoFar(fired, all, before, t, i)
    requires (forall k :: 0 <= k < |all| ==> all[k].number == k) && w in all
      && w.number == before.held[i] < |before.all|
    requires fires == Due(before.all[before.held[i]], t)
    ensures FiredSoFar(if fires then fired + [w] else fired, all, before, t, i + 1)
  {
    hide Due;
    assert before.held[..i + 1] == before.held[..i] + [w.number];
    assert forall u :: u in all && u.number == w.number ==> u == w;
    assert forall k: nat :: MustFire(k, before, t, i + 1) <==> MustFire(k, before, t, i) || (fires && k == w.number);
    hide MustFire;
  }

  lemma FiredAll(fired: seq<SimWaiter>, all: seq<SimWaiter>, before: Clock, t: Time)
    requires FiredSoFar(fired, all, before, t, |before.held|)
    ensures forall w :: w in fired ==>
      w in all && w.number in before.held && w.number < |before.all| && Due(before.all[w.number], t)
    ensures forall w ::
      w in all && w.number in before.held && w.number < |before.all| && Due(before.all[w.number], t) ==> w in fired
  {
    assert before.held[..|before.held|] == before.held;
  }

  class SimClock {
    var now: Time
    var started: bool
    /** The waiters, in the first count slots of an array that is compacted in place. */
    var waiters: array<SimWaiter?>
    var count: nat
    ghost var all: seq<SimWaiter>

    ghost predicate Shape()
      reads this`waiters, this`count, this`all, waiters
    {
      && count <= waiters.Length
      && (forall k :: 0 <= k < |all| ==> all[k].number == k)
      && (forall i :: 0 <= i < count ==>
        waiters[i] != null && waiters[i].number < |all| && all[waiters[i].number] == waiters[i])
    }

    ghost function Numbers(): (r: seq<nat>)
      requires Shape()
      reads this`waiters, this`count, this`all, waiters
      ensures |r| == count && Within(r, |all|)
    {
      var slots, n := waiters, count;
      seq(n, i requires 0 <= i < n <= slots.Length && slots[i] != null reads slots => slots[i].number)
    }

    ghost function Values(): (r: seq<Waiter>)
      reads this`all, all
      ensures |r| == |all|
    {
      var ws := all;
      seq(|ws|, k requires 0 <= k < |ws| reads ws => ws[k].Model())
    }

    ghost function Model(): (m: Clock)
      requires Shape()
      reads this, waiters, all
      ensures Held(m)
    {
      Clock(now, started, Values(), Numbers())
    }

    ghost predicate Valid()
      reads this`waiters, this`count, this`all, waiters
    {
      Shape() && Increasing(Numbers())
    }

    constructor ()
      ensures Valid() && Model() == NEW_CLOCK && fresh(waiters)
    {
      now, started, count, all := ZERO_TIME, false, 0, [];
      waiters := new SimWaiter?[4](i => null);
      new;
      assert Numbers() == [] && Values() == [];
    }

    /** Whose fields these are, and what the three passes do to them. */
    ghost predicate Passed(before: Clock, i: nat, f: Waiter -> Waiter)
      requires i <= |before.held|
      reads this, waiters, all
    {
      Valid() && Model() == before.(all := Each(before.all, before.held[..i], f))
    }

    method AnchorNext(ghost before: Clock, t: Time, i: nat)
      requires Held(before) && i < |before.held| == count && Valid() && before.held == Numbers()
        && Passed(before, i, Anchoring(t))
      modifies all
      ensures Passed(before, i + 1, Anchoring(t)) && Numbers() == before.held
      ensures forall w :: w in all ==> w.c == old(w.c)
    {
      hide Each, Anchor, Anchoring, Increasing;
      EachNext(before.all, before.held, Anchoring(t), i);
      var w := waiters[i];
      assert Values()[w.number] == w.Model();
      w.AnchorAt(t);
      PassIs(t, before.all[w.number]);
      assert Values() == Each(before.all, before.held[..i + 1], Anchoring(t));
    }

    method AnchorAll(t: Time)
      requires Valid()
      modifies all
      ensures Valid() && Model() == old(Model()).(all := Each(old(Values()), Numbers(), Anchoring(t)))
      ensures forall w :: w in all ==> w.c == old(w.c)
    {
      hide Each, Anchor, Anchoring;
      ghost var before := Model();
      EachNone(before.all, Anchoring(t));
      for i := 0 to count
        invariant Passed(before, i, Anchoring(t)) && Numbers() == before.held
        invariant forall w :: w in all ==> w.c == old(w.c)
      {
        AnchorNext(before, t, i);
      }
      assert before.held[..count] == before.held;
    }

    method ClampNext(ghost before: Clock, t: Time, i: nat)
      requires Held(before) && i < |before.held| == count && Valid() && before.held == Numbers()
        && Passed(before, i, Clamping(t))
      modifies all
      ensures Passed(before, i + 1, Clamping(t)) && Numbers() == before.held
      ensures forall w :: w in all ==> w.c == old(w.c)
    {
      hide Each, Clamp, Clamping, Increasing;
      EachNext(before.all, before.held, Clamping(t), i);
      var w := waiters[i];
      assert Values()[w.number] == w.Model();
      w.ClampAt(t);
      PassIs(t, before.all[w.number]);
      assert Values() == Each(before.all, before.held[..i + 1], Clamping(t));
    }

    method ClampAll(t: Time)
      requires Valid()
      modifies all
      ensures Valid() && Model() == old(Model()).(all := Each(old(Values()), Numbers(), Clamping(t)))
      ensures forall w :: w in all ==> w.c == old(w.c)
    {
      hide Each, Clamp, Clamping;
      ghost var before := Model();
      EachNone(before.all, Clamping(t));
      for i := 0 to count
        invariant Passed(before, i, Clamping(t)) && Numbers() == before.held
        invariant forall w :: w in all ==> w.c == old(w.c)
      {
        ClampNext(before, t, i);
      }
      assert before.held[..count] == before.held;
    }

    /** Halfway through the third pass: kept slots are filled, the slots from i on are as they were. */
    ghost predicate Filtered(before: Clock, slots: seq<SimWaiter?>, t: Time, i: nat, kept: nat)
      requires Held(before) && i <= |before.held|
      reads this, waiters, all
    {
      && kept <= i <= |slots| && |slots| == waiters.Length && |before.held| == count <= waiters.Length
      && (forall k :: 0 <= k < |all| ==> all[k].number == k)
      && Values() == Each(before.all, before.held[..i], Firing(t))
      && (forall j :: i <= j < waiters.Length ==> waiters[j] == slots[j])
      && |Kept(before.all, before.held[..i], t)| == kept
      && (forall j :: 0 <= j < kept ==> IsNumber(waiters[j], Kept(before.all, before.held[..i], t)[j]))
    }

    /** w is the waiter of that number. */
    ghost predicate IsNumber(w: SimWaiter?, k: nat)
      reads this
    {
      k < |all| && w == all[k]
    }

    /** One turn of the third pass. */
    method FireNext(ghost before: Clock, ghost slots: seq<SimWaiter?>, t: Time, i: nat, kept: nat)
        returns (w: SimWaiter, fires: bool, next: nat)
      requires Held(before) && Increasing(before.held) && i < count == |before.held|
      requires Filtered(before, slots, t, i, kept) && slots[i] != null && IsNumber(slots[i], before.held[i])
      modifies waiters, all
      ensures Filtered(before, slots, t, i + 1, next)
      ensures w == slots[i] && fires == Due(before.all[before.held[i]], t)
      ensures forall u :: u in all ==> u.c == old(u.c)
    {
      hide Each, Kept, Due, Fire, Stays, Firing;
      EachNext(before.all, before.held, Firing(t), i);
      KeptNext(before.all, before.held, t, i);
      w := waiters[i];
      assert Values()[w.number] == w.Model();
      var stays;
      fires, stays := w.FireAt(t);
      PassIs(t, before.all[w.number]);
      next := kept;
      if stays {
        waiters[kept] := w;
        next := kept + 1;
      }
      assert Values() == Each(before.all, before.held[..i + 1], Firing(t));
    }

    /** The third pass has been over all of them. */
    method Compact(ghost before: Clock, ghost slots: seq<SimWaiter?>, t: Time, kept: nat)
      requires Held(before) && Increasing(before.held) && |before.held| == count
      requires Filtered(before, slots, t, count, kept)
      modifies this`count
      ensures Valid() && Values() == Each(before.all, before.held, Firing(t))
        && Numbers() == Kept(before.all, before.held, t)
    {
      hide Each, Kept, Due, Fire, Stays, Firing;
      assert before.held[..count] == before.held;
      count := kept;
      KeptInOrder(before.all, before.held, t);
      assert Numbers() == Kept(before.all, before.held, t);
    }

    /** The third pass. */
    method FireAll(t: Time) returns (fired: seq<SimWaiter>)
      requires Valid()
      modifies this`count, waiters, all
      ensures Valid() && waiters == old(waiters)
      ensures Model() == old(Model()).(all := Each(old(Values()), old(Numbers()), Firing(t)),
        held := Kept(old(Values()), old(Numbers()), t))
      ensures forall w :: w in all ==> w.c == old(w.c)
      ensures forall w :: w in fired <==> w in all && w.number in old(Numbers()) && Due(old(w.Model()), t)
    {
      hide Each, Kept, Due, Fire, Stays, Firing;
      ghost var before, slots := Model(), waiters[..];
      EachNone(before.all, Firing(t));
      KeptNone(before.all, t);
      fired := [];
      var kept := 0;
      for i := 0 to count
        invariant Filtered(before, slots, t, i, kept)
        invariant forall w :: w in all ==> w.c == old(w.c)
        invariant FiredSoFar(fired, all, before, t, i)
      {
        var w, fires;
        w, fires, kept := FireNext(before, slots, t, i, kept);
        FiredNext(fired, all, before, t, i, w, fires);
        if fires {
          fired := fired + [w];
        }
      }
      FiredAll(fired, all, before, t);
      Compact(before, slots, t, kept);
    }

    /** The sends, outside the lock: a full channel misses this one. */
    method Send(fired: seq<SimWaiter>, t: Time)
      requires Valid() && forall w :: w in fired ==> w in all
      modifies all
      ensures Valid() && Values() == old(Values())
      ensures forall w :: w in all ==> w.c == if w in fired && old(w.c).None? then Some(t) else old(w.c)
    {
      ghost var values := Values();
      for i := 0 to |fired|
        invariant Values() == values
        invariant forall w :: w in all ==> w.c == if w in fired[..i] && old(w.c).None? then Some(t) else old(w.c)
      {
        var w := fired[i];
        assert fired[..i + 1] == fired[..i] + [w];
        if w.c == None {
          w.c := Some(t);
        }
        assert Values() == values;
      }
      assert fired[..|fired|] == fired;
    }

    /** The passes of Set that come before anything fires. */
    method Adjust(t: Time)
      requires Valid()
      modifies this`now, this`started, all
      ensures Valid() && forall w :: w in all ==> w.c == old(w.c)
      ensures Model() == Clock(t, true, Adjusted(old(Model()), t), old(Numbers()))
    {
      hide Each, Anchoring, Clamping;
      var first := !started;
      var reset := started && t < now;
      now, started := t, true;
      if first {
        AnchorAll(t);
      }
      if reset {
        ClampAll(t);
      }
    }

    /** Set: the waiters that fire get the time, except those whose channel is full. */
    method Set(t: Time)
      requires Valid()
      modifies this`now, this`started, this`count, waiters, all
      ensures Valid() && Model() == Step(old(Model()), Event.Set(t))
      ensures forall w :: w in all ==>
        w.c == if w.number in old(Numbers()) && Due(Adjusted(old(Model()), t)[w.number], t) && old(w.c).None? then
          Some(t) else old(w.c)
    {
      hide Each, Kept, Due, Adjusted;
      Adjust(t);
      ghost var adjusted := Values();
      assert forall w :: w in all ==> w.Model() == adjusted[w.number];
      var fired := FireAll(t);
      Send(fired, t);
    }

    /** Room for one more. */
    method Grow()
      requires Valid()
      modifies this`waiters
      ensures Valid() && Numbers() == old(Numbers()) && count < waiters.Length
      ensures waiters == old(waiters) || fresh(waiters)
    {
      if count < waiters.Length {
        return;
      }
      ghost var before := Numbers();
      var more := new SimWaiter?[2 * count + 1](i requires 0 <= i reads this, waiters =>
        if i < count <= waiters.Length then waiters[i] else null);
      waiters := more;
      assert Numbers() == before;
    }

    /** One more waiter at the end of the list, in a bigger array when this one is full. */
    method Append(w: SimWaiter)
      requires Valid() && w.number == |all| && w !in all
      modifies this`waiters, this`count, this`all, waiters
      ensures Valid() && all == old(all) + [w]
      ensures Numbers() == old(Numbers()) + [w.number]
      ensures waiters == old(waiters) || fresh(waiters)
    {
      ghost var before := Numbers();
      assert Increasing(before + [w.number]);
      Grow();
      hide Increasing;
      waiters[count] := w;
      all := all + [w];
      count := count + 1;
      assert Numbers() == before + [w.number];
    }

    /** After. */
    method After(d: int) returns (w: SimWaiter)
      requires Valid()
      modifies this`waiters, this`count, this`all, waiters
      ensures Valid() && all == old(all) + [w] && fresh(w) && (waiters == old(waiters) || fresh(waiters))
      ensures Model() == Step(old(Model()), Event.After(d))
    {
      ghost var before := Model();
      w := new SimWaiter(now + d, d, started, 0, |all|);
      Append(w);
      assert Values() == before.all + [NewWaiter(before, d, 0)];
    }

    /** Ticker; the caller stops it by Stop of the waiter. */
    method Ticker(period: int) returns (w: SimWaiter)
      requires Valid()
      modifies this`waiters, this`count, this`all, waiters
      ensures Valid() && all == old(all) + [w] && fresh(w) && (waiters == old(waiters) || fresh(waiters))
      ensures Model() == Step(old(Model()), Event.Ticker(period))
    {
      ghost var before := Model();
      w := new SimWaiter(now + period, period, started, period, |all|);
      Append(w);
      assert Values() == before.all + [NewWaiter(before, period, period)];
    }

    method Stop(w: SimWaiter)
      requires Valid() && w in all
      modifies w`stopped
      ensures Valid() && Model() == Step(old(Model()), Event.Stop(w.number))
    {
      ghost var before := Model();
      w.stopped := true;
      assert Values() == before.all[w.number := before.all[w.number].(stopped := true)];
    }

    /** pending: how many held waiters are not stopped. */
    method Pending() returns (n: nat)
      requires Valid()
      ensures n == Unstopped(Values(), Numbers())
    {
      n := 0;
      for i := 0 to count
        invariant n == Unstopped(Values(), Numbers()[..i])
      {
        assert Numbers()[..i + 1][..i] == Numbers()[..i];
        assert Values()[Numbers()[i]] == waiters[i].Model();
        if !waiters[i].stopped {
          n := n + 1;
        }
      }
      assert Numbers()[..count] == Numbers();
    }
  }

  function Unstopped(all: seq<Waiter>, held: seq<nat>): nat
    requires Within(held, |all|)
  {
    if held == [] then 0
    else Unstopped(all, held[..|held| - 1]) + if all[held[|held| - 1]].stopped then 0 else 1
  }
}
