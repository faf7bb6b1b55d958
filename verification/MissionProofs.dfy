/**
 * Every run of a wired mission is a walk of the declared machine, whatever the handlers do.
 */
module MissionProofs {
  import opened Wrappers
  import opened Sorting
  import opened Missions

  /** What wiring guarantees about a step, and about a machine. */
  ghost predicate StepSound(m: Machine, n: Name)
    requires n in m.steps
  {
    && m.steps[n].name == n
    && (m.steps[n].next in m.steps || Terminal(m.steps[n].next))
    && (m.steps[n].fail == "" || m.steps[n].fail in m.steps || Terminal(m.steps[n].fail))
  }

  ghost predicate Sound(m: Machine) {
    m.start in m.steps && forall n {:trigger StepSound(m, n)} :: n in m.steps ==> StepSound(m, n)
  }

  lemma WiredIsSound(m: Machine, tags: seq<StepTags>, start: Name)
    requires WellWired(tags, start) && Wired(m, tags, start)
    ensures Sound(m)
  {
    forall n | n in m.steps ensures StepSound(m, n) {
      assert Declared(tags, n);
      var i :| 0 <= i < |tags| && tags[i].name == n;
      assert TargetOk(tags, Bind(tags[i]).next) && TargetOk(tags, tags[i].fail);
    }
  }

  /** b is what must come after the call a: a retry, or the first attempt of the step a's outcome leads to. */
  ghost predicate Follows(m: Machine, a: Entry, b: Entry) {
    && a.step in m.steps && a.outcome.Some?
    && match After(m, a, a.outcome.value)
       case Again => b.step == a.step && b.attempt == a.attempt + 1 && b.cause == None
       case Go(step, cause) => b.step == step && b.attempt == 1 && b.cause == cause
       case Stop(_) => false
  }

  /** A call is of a declared step, within its retries. */
  ghost predicate Called(m: Machine, e: Entry) {
    e.step in m.steps && !Terminal(e.step) && 1 <= e.attempt <= m.steps[e.step].retry + 1
  }

  /** A walk: from the start, each call following the one before, attempts within the retries. */
  ghost predicate Walk(m: Machine, h: seq<Entry>) {
    && (forall i :: 0 <= i < |h| ==> Called(m, h[i]))
    && (h != [] ==> h[0].step == m.start && h[0].attempt == 1 && h[0].cause == None)
    && (forall i :: 0 < i < |h| ==> Follows(m, h[i - 1], h[i]))
  }

  /** Where the run goes after its last call. */
  ghost function Lead(m: Machine, h: seq<Entry>): Option<Move> {
    if h == [] then Some(Go(m.start, None))
    else
      var last := h[|h| - 1];
      if last.step in m.steps && last.outcome.Some? then Some(After(m, last, last.outcome.value)) else None
  }

  /** The next call, if the lead is another call. */
  ghost predicate LeadsTo(m: Machine, h: seq<Entry>, step: Name, attempt: nat, cause: Option<Error>) {
    match Lead(m, h)
    case Some(Again) => h != [] && step == h[|h| - 1].step && attempt == h[|h| - 1].attempt + 1 && cause == None
    case Some(Go(s, c)) => step == s && attempt == 1 && cause == c
    case _ => false
  }

  /** The verdict that the history justifies. */
  ghost predicate Verdict(m: Machine, r: Run) {
    match r.status
    case Completed => Lead(m, r.history).Some? && Lead(m, r.history).value.Go? && Lead(m, r.history).value.step == DONE
      && r.step == DONE
    case Broken =>
      Lead(m, r.history).Some? && r.step == FAILED &&
      (match Lead(m, r.history).value
       case Go(s, _) => s == FAILED
       case Stop(err) => r.err == Some(err)
       case Again => false)
    case Canceled => r.canceled
    case _ => false
  }

  /** What holds in every state of every run. */
  ghost predicate Inv(m: Machine, r: Run) {
    && Walk(m, r.history)
    && match r.thread
       case NotStarted => r.status == Idle && r.history == [] && r.finishes == 0
       case Top(s, a, c) =>
         r.status == Running && r.finishes == 0 && LeadsTo(m, r.history, s, a, c)
         && (s in m.steps || Terminal(s)) && (s in m.steps ==> 1 <= a <= m.steps[s].retry + 1)
       case InHandler => r.status == Running && r.finishes == 0 && InProgress(m, r)
         && r.history[|r.history| - 1].outcome == None
       case Sleeping(s, a) =>
         r.status == Running && r.finishes == 0 && LeadsTo(m, r.history, s, a, None)
         && s in m.steps && 1 <= a <= m.steps[s].retry + 1
       case Returned => r.finishes == 1 && Verdict(m, r)
  }

  lemma WalkGrows(m: Machine, h: seq<Entry>, e: Entry)
    requires Walk(m, h) && LeadsTo(m, h, e.step, e.attempt, e.cause)
    requires Called(m, e)
    ensures Walk(m, h + [e])
  {
    var h' := h + [e];
    forall i | 0 < i < |h'| ensures Follows(m, h'[i - 1], h'[i]) {
      if i < |h| {
        assert Follows(m, h[i - 1], h[i]);
      }
    }
  }

  lemma WalkReturns(m: Machine, h: seq<Entry>, outcome: Outcome)
    requires Walk(m, h) && h != [] && h[|h| - 1].outcome == None
    ensures Walk(m, h[|h| - 1 := h[|h| - 1].(outcome := Some(outcome))])
  {
    var h' := h[|h| - 1 := h[|h| - 1].(outcome := Some(outcome))];
    forall i | 0 < i < |h'| ensures Follows(m, h'[i - 1], h'[i]) {
      assert Follows(m, h[i - 1], h[i]);
    }
  }

  lemma LastCalled(m: Machine, h: seq<Entry>)
    requires Walk(m, h) && h != []
    ensures Called(m, h[|h| - 1])
  {
  }

  lemma EnterKeepsInv(m: Machine, r: Run)
    requires Sound(m) && Inv(m, r) && r.thread.Top?
    ensures Inv(m, EnterStep(m, r))
  {
    var Top(step, attempt, cause) := r.thread;
    if r.canceled {
      hide Walk;
      hide LeadsTo;
    } else if Terminal(step) {
      TerminalLead(m, r.history, step, attempt, cause);
      hide Walk;
      hide LeadsTo;
      hide Lead;
    } else {
      WalkGrows(m, r.history, Entry(step, attempt, cause, None));
      hide Walk;
      hide LeadsTo;
    }
  }

  lemma TerminalLead(m: Machine, h: seq<Entry>, step: Name, attempt: nat, cause: Option<Error>)
    requires Walk(m, h) && LeadsTo(m, h, step, attempt, cause) && Terminal(step)
    ensures Lead(m, h) == Some(Go(step, cause))
  {
    if h != [] {
      LastCalled(m, h);
    }
  }

  lemma DispatchKeepsInv(m: Machine, r: Run, e: Entry, outcome: Outcome)
    requires Sound(m) && Walk(m, r.history) && Called(m, e) && r.status == Running && r.finishes == 0
    requires r.history != [] && r.history[|r.history| - 1] == e && e.outcome == Some(outcome)
    ensures Inv(m, Dispatch(m, r, e, After(m, e, outcome)))
  {
    hide Walk;
    assert StepSound(m, e.step);
    assert Lead(m, r.history) == Some(After(m, e, outcome));
    match After(m, e, outcome)
    case Again =>
    case Go(step, cause) => assert step in m.steps || Terminal(step);
    case Stop(err) =>
  }

  lemma ReturnKeepsInv(m: Machine, r: Run, outcome: Outcome)
    requires Sound(m) && Inv(m, r) && r.thread == InHandler
    ensures Inv(m, HandlerReturned(m, r, outcome))
  {
    var n := |r.history| - 1;
    var e := r.history[n].(outcome := Some(outcome));
    var r' := r.(history := r.history[n := e]);
    WalkReturns(m, r.history, outcome);
    LastCalled(m, r.history);
    hide Walk;
    assert r'.history[|r'.history| - 1] == e;
    assert After(m, r.history[n], outcome) == After(m, e, outcome);
    hide After;
    DispatchKeepsInv(m, r', e, outcome);
  }

  lemma StepKeepsInv(m: Machine, r: Run, e: Event)
    requires Sound(m) && Inv(m, r)
    ensures Inv(m, Next(m, r, e))
  {
    match e
    case Start =>
    case Cancel => hide Walk; hide LeadsTo; hide Verdict; CancelKeepsVerdict(m, r);
    case Enter =>
      if r.thread.Top? {
        EnterKeepsInv(m, r);
      }
    case Return(outcome) =>
      if r.thread == InHandler {
        ReturnKeepsInv(m, r, outcome);
      }
    case Wake(fired) => hide Walk; hide LeadsTo;
  }

  lemma CancelKeepsVerdict(m: Machine, r: Run)
    ensures Verdict(m, r) ==> Verdict(m, r.(canceled := true))
  {
  }

  /** The invariant holds after any events whatever: every run is a walk, and finishes at most once. */
  lemma {:induction false} EveryRunIsAWalk(m: Machine, events: seq<Event>)
    requires Sound(m)
    ensures Inv(m, RunAll(m, INITIAL, events))
  {
    if events != [] {
      EveryRunIsAWalk(m, events[..|events| - 1]);
      StepKeepsInv(m, RunAll(m, INITIAL, events[..|events| - 1]), events[|events| - 1]);
    }
  }

  /** The head of the loop never meets a step that is not declared. */
  lemma NeverLost(m: Machine, events: seq<Event>)
    requires Sound(m)
    ensures var r := RunAll(m, INITIAL, events);
      && (r.status == Broken ==> Lead(m, r.history).Some?)
      && (r.thread.Top? ==> r.thread.step in m.steps || Terminal(r.thread.step))
      && (r.status == Broken && Lead(m, r.history).value.Stop? ==>
        r.err.Some? && (r.err.value.BadGoto? || r.err.value.StepError?))
  {
    EveryRunIsAWalk(m, events);
  }

  /** The mission is started only while its run is in progress, so none of the starts does anything. */
  ghost predicate NoNewStart(m: Machine, r: Run, events: seq<Event>) {
    events == []
    || (var before, e := events[..|events| - 1], events[|events| - 1];
        NoNewStart(m, r, before) && (e == Start ==> RunAll(m, r, before).status == Running))
  }

  /** Once canceled, no further handler is entered, until the mission is started again after the run has ended. */
  lemma {:induction false} CanceledEntersNothing(m: Machine, r: Run, events: seq<Event>)
    requires r.canceled && r.thread != NotStarted && NoNewStart(m, r, events)
    ensures var r' := RunAll(m, r, events);
      r'.canceled && r'.thread != NotStarted && |r'.history| == |r.history|
  {
    if events != [] {
      CanceledEntersNothing(m, r, events[..|events| - 1]);
    }
  }

  /** A verdict is final: nothing but a new start changes a run that has returned. */
  lemma {:induction false} ReturnedIsFinal(m: Machine, r: Run, events: seq<Event>)
    requires r.thread == Returned && Start !in events
    ensures RunAll(m, r, events).(canceled := r.canceled) == r
  {
    if events != [] {
      ReturnedIsFinal(m, r, events[..|events| - 1]);
    }
  }

  // ----- machines without loops -----

  /** What the declaration, with the Gotos of each handler, lets follow a step. */
  ghost predicate Edge(m: Machine, gotos: map<Name, set<Name>>, a: Name, b: Name) {
    a in m.steps &&
    (b == m.steps[a].next || (m.steps[a].fail != "" && b == m.steps[a].fail) || (a in gotos && b in gotos[a]))
  }

  /** Handlers only Goto where they are known to. */
  ghost predicate GotosWithin(gotos: map<Name, set<Name>>, h: seq<Entry>) {
    forall i :: 0 <= i < |h| && h[i].outcome.Some? && h[i].outcome.value.Goto? ==>
      h[i].step in gotos && h[i].outcome.value.target in gotos[h[i].step]
  }

  ghost predicate Path(m: Machine, gotos: map<Name, set<Name>>, p: seq<Name>) {
    forall i :: 0 <= i < |p| - 1 ==> Edge(m, gotos, p[i], p[i + 1])
  }

  ghost predicate Acyclic(m: Machine, gotos: map<Name, set<Name>>) {
    forall p :: Path(m, gotos, p) && |p| >= 2 ==> p[0] != p[|p| - 1]
  }

  /** The steps visited, one for each first attempt. */
  function Visits(h: seq<Entry>): seq<Name> {
    if h == [] then []
    else
      var last := h[|h| - 1];
      Visits(h[..|h| - 1]) + if last.attempt == 1 then [last.step] else []
  }

  /** What steps weigh together. */
  function Sum(m: Machine, steps: seq<Name>, weight: StepDef -> nat): nat {
    if steps == [] then 0
    else
      var last := steps[|steps| - 1];
      Sum(m, steps[..|steps| - 1], weight) + if last in m.steps then weight(m.steps[last]) else 0
  }

  function Attempts(def: StepDef): nat {
    def.retry + 1
  }

  /** The calls that visiting the steps once each allows. */
  function Allowance(m: Machine, steps: seq<Name>): nat {
    Sum(m, steps, Attempts)
  }

  lemma FollowsEdge(m: Machine, gotos: map<Name, set<Name>>, a: Entry, b: Entry)
    requires Follows(m, a, b) && Called(m, a) && GotosWithin(gotos, [a])
    ensures if b.attempt == 1 then Edge(m, gotos, a.step, b.step) else b.step == a.step && b.attempt == a.attempt + 1
  {
    assert [a][0] == a;
  }

  lemma {:induction false} WalkVisits(m: Machine, gotos: map<Name, set<Name>>, h: seq<Entry>)
    requires Walk(m, h) && GotosWithin(gotos, h) && h != []
    ensures Visits(h) != [] && Visits(h)[|Visits(h)| - 1] == h[|h| - 1].step
    ensures Path(m, gotos, Visits(h)) && forall n :: n in Visits(h) ==> n in m.steps
    ensures |h| <= Allowance(m, Visits(h)[..|Visits(h)| - 1]) + h[|h| - 1].attempt
  {
    hide *;
    CalledWithin(m, h);
    VisitsLast(h);
    if |h| == 1 {
      OneVisit(m, gotos, h);
    } else {
      var init, a, b := h[..|h| - 1], h[|h| - 2], h[|h| - 1];
      WalkSplits(m, gotos, h);
      WalkVisits(m, gotos, init);
      CalledWithin(m, init);
      FollowsEdge(m, gotos, a, b);
      VisitsMore(m, gotos, Visits(init), a, b);
    }
  }

  lemma OneVisit(m: Machine, gotos: map<Name, set<Name>>, h: seq<Entry>)
    requires Walk(m, h) && |h| == 1
    ensures Visits(h) == [h[0].step] && Path(m, gotos, Visits(h)) && h[0].attempt == 1 && h[0].step in m.steps
    ensures Allowance(m, Visits(h)[..0]) == 0
  {
    assert Called(m, h[0]);
    assert h[..0] == [];
  }

  /** A walk of several calls, without its last. */
  lemma WalkSplits(m: Machine, gotos: map<Name, set<Name>>, h: seq<Entry>)
    requires Walk(m, h) && GotosWithin(gotos, h) && |h| > 1
    ensures Walk(m, h[..|h| - 1]) && GotosWithin(gotos, h[..|h| - 1])
    ensures Follows(m, h[|h| - 2], h[|h| - 1]) && GotosWithin(gotos, [h[|h| - 2]])
  {
    hide Follows, Called;
    WalkPrefix(m, h);
  }

  /** A call b after a: one more visit, or one more attempt. */
  lemma VisitsMore(m: Machine, gotos: map<Name, set<Name>>, v: seq<Name>, a: Entry, b: Entry)
    requires v != [] && v[|v| - 1] == a.step && Path(m, gotos, v) && forall n :: n in v ==> n in m.steps
    requires b.step in m.steps && a.attempt <= m.steps[a.step].retry + 1
    requires if b.attempt == 1 then Edge(m, gotos, a.step, b.step) else b.step == a.step && b.attempt == a.attempt + 1
    ensures var v' := v + if b.attempt == 1 then [b.step] else [];
      && v'[|v'| - 1] == b.step && Path(m, gotos, v') && (forall n :: n in v' ==> n in m.steps)
      && Allowance(m, v[..|v| - 1]) + a.attempt + 1 <= Allowance(m, v'[..|v'| - 1]) + b.attempt
  {
    hide Path, Edge, Sum;
    if b.attempt == 1 {
      assert (v + [b.step])[..|v|] == v;
      SumLast(m, v, Attempts);
      PathSnoc(m, gotos, v, b.step);
    } else {
      assert v + [] == v;
    }
  }

  lemma VisitsLast(h: seq<Entry>)
    requires h != []
    ensures Visits(h) == Visits(h[..|h| - 1]) + if h[|h| - 1].attempt == 1 then [h[|h| - 1].step] else []
  {
  }

  lemma CalledWithin(m: Machine, h: seq<Entry>)
    requires Walk(m, h) && h != []
    ensures var last := h[|h| - 1];
      Called(m, last) && last.step in m.steps && last.attempt <= m.steps[last.step].retry + 1
  {
  }

  lemma PathSnoc(m: Machine, gotos: map<Name, set<Name>>, p: seq<Name>, n: Name)
    requires Path(m, gotos, p) && p != [] && Edge(m, gotos, p[|p| - 1], n)
    ensures Path(m, gotos, p + [n])
  {
  }

  lemma SumLast(m: Machine, v: seq<Name>, weight: StepDef -> nat)
    requires v != [] && v[|v| - 1] in m.steps
    ensures Sum(m, v, weight) == Sum(m, v[..|v| - 1], weight) + weight(m.steps[v[|v| - 1]])
  {
  }

  lemma WalkPrefix(m: Machine, h: seq<Entry>)
    requires Walk(m, h) && h != []
    ensures Walk(m, h[..|h| - 1])
  {
    var p := h[..|h| - 1];
    forall i | 0 < i < |p| ensures Follows(m, p[i - 1], p[i]) {
      assert Follows(m, h[i - 1], h[i]);
    }
  }

  lemma AcyclicDistinct(m: Machine, gotos: map<Name, set<Name>>, p: seq<Name>)
    requires Acyclic(m, gotos) && Path(m, gotos, p)
    ensures Distinct(p)
  {
    hide Acyclic, Path;
    forall i, j | 0 <= i < j < |p| ensures p[i] != p[j] {
      PathSlice(m, gotos, p, i, j + 1);
      NoReturn(m, gotos, p[i..j + 1]);
    }
  }

  lemma NoReturn(m: Machine, gotos: map<Name, set<Name>>, p: seq<Name>)
    requires Acyclic(m, gotos) && Path(m, gotos, p) && |p| >= 2
    ensures p[0] != p[|p| - 1]
  {
    hide Path;
  }

  lemma PathSlice(m: Machine, gotos: map<Name, set<Name>>, p: seq<Name>, i: nat, j: nat)
    requires Path(m, gotos, p) && i <= j <= |p|
    ensures Path(m, gotos, p[i..j])
  {
    hide Edge;
    var q := p[i..j];
    forall k | 0 <= k < |q| - 1 ensures Edge(m, gotos, q[k], q[k + 1]) {
      assert q[k] == p[i + k] && q[k + 1] == p[i + k + 1];
      assert Edge(m, gotos, p[i + k], p[i + k + 1]);
    }
  }

  lemma {:induction false} SumRemove(m: Machine, steps: seq<Name>, i: nat, weight: StepDef -> nat)
    requires i < |steps|
    ensures Sum(m, steps, weight) ==
      Sum(m, steps[..i] + steps[i + 1..], weight) + if steps[i] in m.steps then weight(m.steps[steps[i]]) else 0
    decreases |steps|
  {
    var n := |steps| - 1;
    if i == n {
      assert steps[..i] + steps[i + 1..] == steps[..n];
    } else {
      SumRemove(m, steps[..n], i, weight);
      var r, r' := steps[..i] + steps[i + 1..], steps[..n][..i] + steps[..n][i + 1..];
      assert r[..|r| - 1] == r' && r[|r| - 1] == steps[n];
    }
  }

  /** Visiting steps at most once each weighs no more than visiting all of them. */
  lemma {:induction false} SumBound(m: Machine, v: seq<Name>, order: seq<Name>, weight: StepDef -> nat)
    requires Distinct(v) && forall n :: n in v ==> n in order
    ensures Sum(m, v, weight) <= Sum(m, order, weight)
    decreases |v|
  {
    if v != [] {
      var init, last := v[..|v| - 1], v[|v| - 1];
      assert v == init + [last];
      DistinctSnoc(init, last);
      assert last in v;
      var i :| 0 <= i < |order| && order[i] == last;
      SumRemove(m, order, i, weight);
      var rest := order[..i] + order[i + 1..];
      forall n | n in init ensures n in rest {
        assert n in v;
        var j :| 0 <= j < |order| && order[j] == n;
        assert n == rest[if j < i then j else j - 1];
      }
      SumBound(m, init, rest, weight);
    }
  }

  /** If next, fail and Goto have no loop, no run makes more calls than each step's attempts, summed. */
  lemma AcyclicRunsEnd(m: Machine, gotos: map<Name, set<Name>>, order: seq<Name>, events: seq<Event>)
    requires Sound(m) && Acyclic(m, gotos)
    requires forall n :: n in m.steps ==> n in order
    requires GotosWithin(gotos, RunAll(m, INITIAL, events).history)
    ensures |RunAll(m, INITIAL, events).history| <= Allowance(m, order)
  {
    var h := RunAll(m, INITIAL, events).history;
    EveryRunIsAWalk(m, events);
    if h != [] {
      WalkVisits(m, gotos, h);
      var v := Visits(h);
      AcyclicDistinct(m, gotos, v);
      SumLast(m, v, Attempts);
      LastCalled(m, h);
      SumBound(m, v, order, Attempts);
    }
  }

  // ----- runs come to an end -----

  /** How many of the events change anything. */
  function Changes(m: Machine, r: Run, events: seq<Event>): nat {
    if events == [] then 0
    else
      var before := RunAll(m, r, events[..|events| - 1]);
      Changes(m, r, events[..|events| - 1]) + if Next(m, before, events[|events| - 1]) != before then 1 else 0
  }

  /** Whether a step sleeps before it is tried again. */
  function Naps(def: StepDef): nat {
    if def.backoff > 0 then 1 else 0
  }

  /** The events that trying a step so many times takes: each call is entered and returns, and retries may sleep. */
  function Spent(def: StepDef, attempts: nat): nat {
    2 * attempts + (if attempts <= def.retry then attempts else def.retry) * Naps(def)
  }

  function Cost(def: StepDef): nat {
    Spent(def, def.retry + 1)
  }

  /** The events that visiting the steps once each may take. */
  function Budget(m: Machine, steps: seq<Name>): nat {
    Sum(m, steps, Cost)
  }

  /** The call is to be tried again after a sleep. */
  function Sleep(m: Machine, e: Entry): nat {
    if e.step in m.steps && e.outcome.Some? && After(m, e, e.outcome.value).Again? then Naps(m.steps[e.step]) else 0
  }

  function Sleeps(m: Machine, h: seq<Entry>): nat {
    if h == [] then 0 else Sleeps(m, h[..|h| - 1]) + Sleep(m, h[|h| - 1])
  }

  /** How far a run has come. */
  function Progress(m: Machine, r: Run): int {
    2 * |r.history| + Sleeps(m, r.history)
    + (match r.thread
       case Returned => 1
       case Top(_, _, _) => 0
       case _ => -1)
    + if r.canceled then 1 else 0
  }

  lemma SleepsSnoc(m: Machine, h: seq<Entry>, e: Entry)
    ensures Sleeps(m, h + [e]) == Sleeps(m, h) + Sleep(m, e)
  {
    assert (h + [e])[..|h|] == h;
  }

  /** A handler's outcome counts for its own call only. */
  lemma SleepsReturned(m: Machine, h: seq<Entry>, e: Entry)
    requires h != []
    ensures Sleeps(m, h[|h| - 1 := e]) == Sleeps(m, h) - Sleep(m, h[|h| - 1]) + Sleep(m, e)
  {
    assert h[|h| - 1 := e][..|h| - 1] == h[..|h| - 1];
  }

  lemma EnterIsProgress(m: Machine, r: Run)
    requires r.thread.Top?
    ensures Progress(m, EnterStep(m, r)) > Progress(m, r)
  {
    hide Sleeps;
    SleepsSnoc(m, r.history, Entry(r.thread.step, r.thread.attempt, r.thread.cause, None));
  }

  lemma ReturnIsProgress(m: Machine, r: Run, outcome: Outcome)
    requires InProgress(m, r) && r.history[|r.history| - 1].outcome == None
    ensures Progress(m, HandlerReturned(m, r, outcome)) > Progress(m, r)
  {
    hide Sleeps;
    var e := r.history[|r.history| - 1];
    SleepsReturned(m, r.history, e.(outcome := Some(outcome)));
  }

  lemma ChangeIsProgress(m: Machine, r: Run, e: Event)
    requires (e == Start ==> r.status == Running) && r.thread != NotStarted && Inv(m, r)
    ensures Next(m, r, e) != r ==> Progress(m, Next(m, r, e)) > Progress(m, r)
    ensures Next(m, r, e).thread != NotStarted
  {
    hide Sleeps, Walk, Verdict, LeadsTo;
    match e
    case Enter =>
      if r.thread.Top? {
        EnterIsProgress(m, r);
      }
    case Return(outcome) =>
      if InProgress(m, r) {
        ReturnIsProgress(m, r, outcome);
      }
    case _ =>
  }

  lemma {:induction false} ChangesAreProgress(m: Machine, r: Run, events: seq<Event>)
    requires Sound(m) && Inv(m, r) && NoNewStart(m, r, events) && r.thread != NotStarted
    ensures RunAll(m, r, events).thread != NotStarted && Inv(m, RunAll(m, r, events))
    ensures Progress(m, RunAll(m, r, events)) >= Progress(m, r) + Changes(m, r, events)
  {
    hide Next, Progress, Inv, Sound;
    if events != [] {
      ChangesAreProgress(m, r, events[..|events| - 1]);
      ChangeIsProgress(m, RunAll(m, r, events[..|events| - 1]), events[|events| - 1]);
      StepKeepsInv(m, RunAll(m, r, events[..|events| - 1]), events[|events| - 1]);
    }
  }

  lemma FollowsOn(m: Machine, a: Entry, b: Entry)
    requires Follows(m, a, b) && Called(m, a)
    ensures b.attempt == 1 || (b.step == a.step && b.attempt == a.attempt + 1)
  {
  }

  /** A call that is tried again was not the last that its step is allowed. */
  lemma SleepWithin(m: Machine, e: Entry)
    requires e.step in m.steps && e.attempt >= 1
    ensures Spent(m.steps[e.step], e.attempt - 1) + 2 + Sleep(m, e) <= Spent(m.steps[e.step], e.attempt)
  {
  }

  lemma SpentWithin(def: StepDef, attempts: nat)
    requires attempts <= def.retry + 1
    ensures Spent(def, attempts) <= Cost(def)
  {
  }

  /** What a walk has taken is within what its visits may take. */
  lemma {:induction false} WalkCosts(m: Machine, gotos: map<Name, set<Name>>, h: seq<Entry>)
    requires Walk(m, h) && GotosWithin(gotos, h) && h != []
    ensures Visits(h) != [] && h[|h| - 1].step in m.steps
    ensures 2 * |h| + Sleeps(m, h) <=
      Budget(m, Visits(h)[..|Visits(h)| - 1]) + Spent(m.steps[h[|h| - 1].step], h[|h| - 1].attempt)
  {
    WalkVisits(m, gotos, h);
    CalledWithin(m, h);
    VisitsLast(h);
    var init, b := h[..|h| - 1], h[|h| - 1];
    assert b.attempt >= 1;
    SleepWithin(m, b);
    if |h| == 1 {
      assert h[..0] == [] && b.attempt == 1;
    } else {
      var a := h[|h| - 2];
      assert Follows(m, a, b);
      WalkPrefix(m, h);
      assert GotosWithin(gotos, init);
      WalkCosts(m, gotos, init);
      WalkVisits(m, gotos, init);
      CalledWithin(m, init);
      FollowsOn(m, a, b);
      CostsMore(m, init, a, b);
    }
  }

  lemma CostsMore(m: Machine, init: seq<Entry>, a: Entry, b: Entry)
    requires init != [] && a == init[|init| - 1] && a.step in m.steps && a.attempt <= m.steps[a.step].retry + 1
    requires b.step in m.steps && b.attempt >= 1
    requires b.attempt == 1 || (b.step == a.step && b.attempt == a.attempt + 1)
    requires Visits(init) != [] && Visits(init)[|Visits(init)| - 1] == a.step
    requires 2 * |init| + Sleeps(m, init) <=
      Budget(m, Visits(init)[..|Visits(init)| - 1]) + Spent(m.steps[a.step], a.attempt)
    ensures var v := Visits(init) + if b.attempt == 1 then [b.step] else [];
      2 * |init| + Sleeps(m, init) + 2 + Sleep(m, b) <=
      Budget(m, v[..|v| - 1]) + Spent(m.steps[b.step], b.attempt)
  {
    hide Visits, Sleeps, Sum, Sleep, Spent, Cost;
    var v := Visits(init);
    SleepWithin(m, b);
    if b.attempt == 1 {
      assert (v + [b.step])[..|v|] == v;
      SumLast(m, v, Cost);
      SpentWithin(m.steps[a.step], a.attempt);
    } else {
      assert v + [] == v;
    }
  }

  /** Every changing event but a cancellation and the return is paid for by a step that was visited; so if next, fail
      and Goto have no loop, a run has as many at most as its steps may take. */
  lemma AcyclicRunsAreShort(m: Machine, gotos: map<Name, set<Name>>, order: seq<Name>, events: seq<Event>)
    requires Sound(m) && Acyclic(m, gotos)
    requires forall n :: n in m.steps ==> n in order
    requires var started := Next(m, INITIAL, Start);
      NoNewStart(m, started, events) && GotosWithin(gotos, RunAll(m, started, events).history)
    ensures var started := Next(m, INITIAL, Start);
      var r := RunAll(m, started, events);
      Changes(m, started, events) <=
        Budget(m, order) + (if r.canceled then 1 else 0) + (if r.thread == Returned then 1 else 0)
  {
    var started := Next(m, INITIAL, Start);
    StartedInv(m);
    hide *;
    ChangesAreProgress(m, started, events);
    WithinBudget(m, gotos, order, RunAll(m, started, events));
    ProgressSays(m, RunAll(m, started, events));
  }

  lemma StartedInv(m: Machine)
    requires Sound(m)
    ensures var started := Next(m, INITIAL, Start);
      Inv(m, started) && started.thread != NotStarted && !started.canceled && Progress(m, started) == 0
  {
  }

  lemma ProgressSays(m: Machine, r: Run)
    ensures Progress(m, r) <= 2 * |r.history| + Sleeps(m, r.history)
      + (if r.canceled then 1 else 0) + (if r.thread == Returned then 1 else 0)
  {
  }

  lemma WithinBudget(m: Machine, gotos: map<Name, set<Name>>, order: seq<Name>, r: Run)
    requires Inv(m, r) && Acyclic(m, gotos) && GotosWithin(gotos, r.history)
    requires forall n :: n in m.steps ==> n in order
    ensures 2 * |r.history| + Sleeps(m, r.history) <= Budget(m, order)
  {
    var h := r.history;
    assert Walk(m, h);
    hide Inv, Walk, Acyclic, GotosWithin, Path, Sum, Spent, Cost;
    if h != [] {
      WalkCosts(m, gotos, h);
      WalkVisits(m, gotos, h);
      CalledWithin(m, h);
      hide Visits, Sleeps;
      var v := Visits(h);
      AcyclicDistinct(m, gotos, v);
      SumLast(m, v, Cost);
      SpentWithin(m.steps[h[|h| - 1].step], h[|h| - 1].attempt);
      SumBound(m, v, order, Cost);
    }
  }

  /** Every event finds something to do, unless the run is over. */
  ghost predicate Busy(m: Machine, r: Run, events: seq<Event>) {
    events == []
    || (var before, e := events[..|events| - 1], events[|events| - 1];
        var r' := RunAll(m, r, before);
        Busy(m, r, before) && (Next(m, r', e) != r' || r'.thread == Returned))
  }

  lemma {:induction false} BusyChanges(m: Machine, r: Run, events: seq<Event>)
    requires Busy(m, r, events) && NoNewStart(m, r, events) && RunAll(m, r, events).thread != Returned
    requires Sound(m) && Inv(m, r)
    ensures Changes(m, r, events) == |events| && Inv(m, RunAll(m, r, events))
  {
    hide Sound, Inv, Next;
    if events != [] {
      var before, e := events[..|events| - 1], events[|events| - 1];
      InvAlong(m, r, before);
      StepKeepsInv(m, RunAll(m, r, before), e);
      OverIsOver(m, RunAll(m, r, before), e);
      BusyChanges(m, r, before);
    }
  }

  lemma {:induction false} InvAlong(m: Machine, r: Run, events: seq<Event>)
    requires Sound(m) && Inv(m, r)
    ensures Inv(m, RunAll(m, r, events))
  {
    hide Sound, Inv, Next;
    if events != [] {
      InvAlong(m, r, events[..|events| - 1]);
      StepKeepsInv(m, RunAll(m, r, events[..|events| - 1]), events[|events| - 1]);
    }
  }

  /** Only a new start makes a run that is over go on. */
  lemma OverIsOver(m: Machine, r: Run, e: Event)
    requires Inv(m, r) && (e == Start ==> r.status == Running)
    ensures r.thread == Returned ==> Next(m, r, e).thread == Returned
  {
  }

  /** If next, fail and Goto have no loop, a mission ends: a run that is kept busy for more events than its steps may
      take, and a cancellation, has returned. */
  lemma AcyclicRunsReturn(m: Machine, gotos: map<Name, set<Name>>, order: seq<Name>, events: seq<Event>)
    requires Sound(m) && Acyclic(m, gotos)
    requires forall n :: n in m.steps ==> n in order
    requires var started := Next(m, INITIAL, Start);
      && NoNewStart(m, started, events) && Busy(m, started, events)
      && GotosWithin(gotos, RunAll(m, started, events).history)
    ensures var r := RunAll(m, Next(m, INITIAL, Start), events);
      |events| > Budget(m, order) + (if r.canceled then 1 else 0) ==> r.thread == Returned
  {
    var started := Next(m, INITIAL, Start);
    StartedInv(m);
    hide *;
    if RunAll(m, started, events).thread != Returned {
      BusyChanges(m, started, events);
      AcyclicRunsAreShort(m, gotos, order, events);
    }
  }

  /** A run that has not ended is never stuck: the loop goes on, the handler may return, the backoff may end. */
  lemma GoesOn(m: Machine, r: Run, outcome: Outcome)
    requires Inv(m, r) && r.thread != NotStarted && r.thread != Returned
    ensures Next(m, r, Turn(r, outcome)) != r
  {
    if r.thread.Top? && !r.canceled && r.thread.step in m.steps && !Terminal(r.thread.step) {
      assert EnterStep(m, r).thread == InHandler;
    }
  }

  /** What happens next to a run that nobody interferes with, if its handler returns this. */
  function Turn(r: Run, outcome: Outcome): Event {
    if r.thread == InHandler then Return(outcome) else if r.thread.Sleeping? then Wake(true) else Enter
  }

  /** The run left to itself for n events, its handlers returning what they may. */
  function Driven(m: Machine, r: Run, outcomes: nat -> Outcome, n: nat): (events: seq<Event>)
    ensures |events| == n
  {
    if n == 0 then []
    else
      var before := Driven(m, r, outcomes, n - 1);
      before + [Turn(RunAll(m, r, before), outcomes(n - 1))]
  }

  lemma {:induction false} DrivenBusy(m: Machine, r: Run, outcomes: nat -> Outcome, n: nat)
    requires Sound(m) && Inv(m, r) && r.thread != NotStarted
    ensures var events := Driven(m, r, outcomes, n);
      && Busy(m, r, events) && NoNewStart(m, r, events)
      && RunAll(m, r, events).thread != NotStarted && RunAll(m, r, events).canceled == r.canceled
  {
    hide Sound, Inv, Next;
    if n > 0 {
      var before := Driven(m, r, outcomes, n - 1);
      var events := Driven(m, r, outcomes, n);
      assert events[..|events| - 1] == before;
      DrivenBusy(m, r, outcomes, n - 1);
      InvAlong(m, r, before);
      var r' := RunAll(m, r, before);
      if r'.thread != Returned {
        GoesOn(m, r', outcomes(n - 1));
      }
      LeftAlone(m, r', outcomes(n - 1));
    }
  }

  lemma LeftAlone(m: Machine, r: Run, outcome: Outcome)
    requires r.thread != NotStarted
    ensures var r' := Next(m, r, Turn(r, outcome)); r'.thread != NotStarted && r'.canceled == r.canceled
  {
  }

  /** Whatever its handlers return, an acyclic mission that is left to itself has ended after one event more than its
      steps may take. */
  lemma MissionsEnd(m: Machine, gotos: map<Name, set<Name>>, order: seq<Name>, outcomes: nat -> Outcome, n: nat)
    requires Sound(m) && Acyclic(m, gotos) && n > Budget(m, order)
    requires forall x :: x in m.steps ==> x in order
    requires var started := Next(m, INITIAL, Start);
      GotosWithin(gotos, RunAll(m, started, Driven(m, started, outcomes, n)).history)
    ensures var started := Next(m, INITIAL, Start);
      RunAll(m, started, Driven(m, started, outcomes, n)).thread == Returned
  {
    var started := Next(m, INITIAL, Start);
    StartedInv(m);
    hide *;
    DrivenBusy(m, started, outcomes, n);
    AcyclicRunsReturn(m, gotos, order, Driven(m, started, outcomes, n));
  }

  /** Handlers that never Goto. */
  ghost predicate Straight(outcomes: nat -> Outcome) {
    forall i :: !outcomes(i).Goto?
  }

  lemma StraightStep(m: Machine, gotos: map<Name, set<Name>>, r: Run, outcome: Outcome)
    requires GotosWithin(gotos, r.history) && !outcome.Goto?
    ensures GotosWithin(gotos, Next(m, r, Turn(r, outcome)).history)
  {
  }

  lemma {:induction false} StraightWithin(m: Machine, gotos: map<Name, set<Name>>, r: Run, outcomes: nat -> Outcome,
      n: nat)
    requires GotosWithin(gotos, r.history) && Straight(outcomes)
    ensures GotosWithin(gotos, RunAll(m, r, Driven(m, r, outcomes, n)).history)
  {
    hide Next, GotosWithin;
    if n > 0 {
      var events := Driven(m, r, outcomes, n);
      StraightWithin(m, gotos, r, outcomes, n - 1);
      assert events[..|events| - 1] == Driven(m, r, outcomes, n - 1);
      StraightStep(m, gotos, RunAll(m, r, Driven(m, r, outcomes, n - 1)), outcomes(n - 1));
    }
  }

  /** So a mission without Gotos whose next and fail tags have no loop ends, whatever its handlers return. */
  lemma StraightMissionsEnd(m: Machine, order: seq<Name>, outcomes: nat -> Outcome, n: nat)
    requires Sound(m) && Acyclic(m, map[]) && Straight(outcomes) && n > Budget(m, order)
    requires forall x :: x in m.steps ==> x in order
    ensures var started := Next(m, INITIAL, Start);
      RunAll(m, started, Driven(m, started, outcomes, n)).thread == Returned
  {
    var started := Next(m, INITIAL, Start);
    assert started.history == [] && GotosWithin(map[], started.history);
    hide *;
    StraightWithin(m, map[], started, outcomes, n);
    MissionsEnd(m, map[], order, outcomes, n);
  }

  /** The events of a step are three for each of its attempts, but for the last, which is not followed by a sleep. */
  lemma {:induction false} BudgetOfAllowance(m: Machine, steps: seq<Name>)
    ensures Budget(m, steps) <= 3 * Allowance(m, steps)
    ensures (exists n :: n in steps && n in m.steps) ==> Budget(m, steps) < 3 * Allowance(m, steps)
  {
    if steps != [] {
      var init, last := steps[..|steps| - 1], steps[|steps| - 1];
      BudgetOfAllowance(m, init);
      assert steps == init + [last];
    }
  }

  /** Counted by calls alone: three changes at most for each call that the steps allow, and one. */
  lemma ShortByAllowance(m: Machine, gotos: map<Name, set<Name>>, order: seq<Name>, events: seq<Event>)
    requires Sound(m) && Acyclic(m, gotos)
    requires forall n :: n in m.steps ==> n in order
    requires var started := Next(m, INITIAL, Start);
      NoNewStart(m, started, events) && GotosWithin(gotos, RunAll(m, started, events).history)
    ensures var started := Next(m, INITIAL, Start);
      && Changes(m, started, events) <= 3 * Allowance(m, order) + 1
      && (Changes(m, started, events) > 3 * Allowance(m, order) ==> RunAll(m, started, events).thread == Returned)
  {
    assert m.start in m.steps;
    hide *;
    AcyclicRunsAreShort(m, gotos, order, events);
    BudgetOfAllowance(m, order);
  }

  // ----- a run that takes all it may -----

  /** One step that is tried twice, with a sleep in between. */
  const TWICE := Machine("a", map["a" := StepDef("a", DONE, "", 1, 1)])

  function AllItMay(): seq<Event> {
    [Enter, Return(Failure(HandlerError(1))), Wake(true), Enter, Return(Success), Cancel, Enter]
  }

  /** The run after k of these events. */
  function Stage(k: nat): Run
    requires k <= 7
  {
    var first, second := Entry("a", 1, None, Some(Failure(HandlerError(1)))), Entry("a", 2, None, Some(Success));
    var started := Run(Running, "a", 1, None, false, Top("a", 1, None), [], 0);
    if k == 0 then started
    else if k == 1 then started.(thread := InHandler, history := [first.(outcome := None)])
    else if k == 2 then started.(thread := Sleeping("a", 2), history := [first])
    else if k == 3 then started.(thread := Top("a", 2, None), history := [first])
    else if k == 4 then started.(attempt := 2, thread := InHandler, history := [first, second.(outcome := None)])
    else
      var done := started.(attempt := 2, thread := Top(DONE, 1, None), history := [first, second], canceled := k > 5);
      if k < 7 then done else Finish(done, Canceled, None)
  }

  lemma StageNext(k: nat)
    requires k < 7
    ensures Next(TWICE, Stage(k), AllItMay()[k]) == Stage(k + 1) != Stage(k)
  {
  }

  lemma {:induction false} Stages(k: nat)
    requires k <= 7
    ensures RunAll(TWICE, Stage(0), AllItMay()[..k]) == Stage(k)
    ensures Changes(TWICE, Stage(0), AllItMay()[..k]) == k && NoNewStart(TWICE, Stage(0), AllItMay()[..k])
  {
    hide Next, Stage;
    if k > 0 {
      Stages(k - 1);
      StageNext(k - 1);
      assert AllItMay()[..k][..k - 1] == AllItMay()[..k - 1];
    }
  }

  lemma OnlyEdge(a: Name, b: Name)
    ensures Edge(TWICE, map[], a, b) ==> a == "a" && b == DONE
  {
  }

  lemma TwiceIsAcyclic()
    ensures Sound(TWICE) && Acyclic(TWICE, map[]) && Budget(TWICE, ["a"]) == 5
  {
    assert StepSound(TWICE, "a");
    assert ["a"][..0] == [];
    assert Sum(TWICE, [], Cost) == 0;
    forall p | Path(TWICE, map[], p) && |p| >= 2 ensures p[0] != p[|p| - 1] {
      assert Edge(TWICE, map[], p[0], p[1]);
      OnlyEdge(p[|p| - 2], p[|p| - 1]);
    }
  }

  /** The bound is attained: failing once, succeeding, canceled at the last moment. */
  lemma BoundAttained()
    ensures Sound(TWICE) && Acyclic(TWICE, map[])
    ensures var started, events := Next(TWICE, INITIAL, Start), AllItMay();
      var r := RunAll(TWICE, started, events);
      && NoNewStart(TWICE, started, events) && GotosWithin(map[], r.history)
      && r.thread == Returned && r.canceled && Changes(TWICE, started, events) == Budget(TWICE, ["a"]) + 2
  {
    TwiceIsAcyclic();
    Stages(7);
    assert AllItMay()[..7] == AllItMay();
    assert Next(TWICE, INITIAL, Start) == Stage(0);
    hide *;
    LastStage();
  }

  lemma LastStage()
    ensures Stage(7).thread == Returned && Stage(7).canceled && GotosWithin(map[], Stage(7).history)
  {
  }
}
