/**
 * What a run of a mission does, read off its step tags: where each outcome leads, and how a run ends.
 */
module MissionRuns {
  import opened Wrappers
  import opened Missions
  import opened MissionProofs

  /** After the call a of a step with these tags comes this attempt of that step, and this error is passed on. */
  ghost predicate LedTo(next: Name, fail: Name, retry: nat, a: Entry, step: Name, attempt: nat, cause: Option<Error>) {
    match a.outcome
    case None => false
    case Some(Success) => step == next && attempt == 1 && cause == None
    case Some(Failure(e)) =>
      if a.attempt <= retry then step == a.step && attempt == a.attempt + 1 && cause == None
      else a.attempt == retry + 1 && fail != "" && step == fail && attempt == 1 && cause == Some(e)
    case Some(Goto(target)) => step == target && attempt == 1 && cause == None
  }

  /** The same of a declared step: without a next tag a success leads to done. */
  ghost predicate TagsLeadTo(tags: seq<StepTags>, a: Entry, step: Name, attempt: nat, cause: Option<Error>) {
    exists k :: 0 <= k < |tags| && tags[k].name == a.step
      && var next := if tags[k].next == "" then "done" else tags[k].next;
         LedTo(next, tags[k].fail, tags[k].retry, a, step, attempt, cause)
  }

  /** The error of the last call that took a fail branch. */
  ghost function Recorded(m: Machine, h: seq<Entry>): Option<Error> {
    if h == [] then None
    else
      var last := h[|h| - 1];
      if last.step in m.steps && last.outcome.Some? && last.outcome.value.Failure?
        && last.attempt > m.steps[last.step].retry && m.steps[last.step].fail != ""
      then Some(last.outcome.value.err)
      else Recorded(m, h[..|h| - 1])
  }

  /** The run ended at a terminal step. */
  ghost predicate EndedAt(m: Machine, r: Run, step: Name) {
    || (step == "done" && r.status == Completed && r.step == "done")
    || (step == "failed" && r.status == Broken && r.step == "failed" && r.err == Recorded(m, r.history))
  }

  ghost predicate EndedBy(r: Run, err: Error) {
    r.status == Broken && r.step == "failed" && r.err == Some(err)
  }

  /** How a run that was not canceled ended, by the outcome of its last call. */
  ghost predicate Ended(m: Machine, r: Run) {
    if r.history == [] then EndedAt(m, r, m.start)
    else
      var last := r.history[|r.history| - 1];
      && last.step in m.steps
      && var def := m.steps[last.step];
         match last.outcome
         case None => false
         case Some(Success) => EndedAt(m, r, def.next)
         case Some(Failure(e)) =>
           && last.attempt == def.retry + 1
           && if def.fail != "" then EndedAt(m, r, def.fail) else EndedBy(r, StepError(last.step, e))
         case Some(Goto(target)) =>
           if target == "done" || target == "failed" then EndedAt(m, r, target)
           else target !in m.steps && EndedBy(r, BadGoto(last.step, target))
  }

  // ----- where an outcome leads -----

  lemma FollowsIsLed(m: Machine, a: Entry, b: Entry)
    requires Called(m, a) && Follows(m, a, b)
    ensures var def := m.steps[a.step]; LedTo(def.next, def.fail, def.retry, a, b.step, b.attempt, b.cause)
  {
  }

  lemma LeadIsLed(m: Machine, h: seq<Entry>, step: Name, attempt: nat, cause: Option<Error>)
    requires h != [] && Walk(m, h) && LeadsTo(m, h, step, attempt, cause)
    ensures var a := h[|h| - 1]; a.step in m.steps
    ensures var a := h[|h| - 1];
      var def := m.steps[a.step]; LedTo(def.next, def.fail, def.retry, a, step, attempt, cause)
  {
    LastCalled(m, h);
    hide Walk;
  }

  /** In every run: a call comes first at the start, and then where the call before it leads. */
  lemma CallsFollow(m: Machine, events: seq<Event>, i: nat)
    requires Sound(m) && i < |RunAll(m, INITIAL, events).history|
    ensures var h := RunAll(m, INITIAL, events).history;
      if i == 0 then h[0].step == m.start && h[0].attempt == 1 && h[0].cause == None
      else h[i - 1].step in m.steps
    ensures var h := RunAll(m, INITIAL, events).history;
      i > 0 ==>
        (var def := m.steps[h[i - 1].step];
         LedTo(def.next, def.fail, def.retry, h[i - 1], h[i].step, h[i].attempt, h[i].cause))
  {
    EveryRunIsAWalk(m, events);
    var h := RunAll(m, INITIAL, events).history;
    if i > 0 {
      FollowsIsLed(m, h[i - 1], h[i]);
    }
  }

  /** And so does the run go on after its last call. */
  lemma GoesWhereLed(m: Machine, events: seq<Event>)
    requires Sound(m) && RunAll(m, INITIAL, events).thread.Top?
    ensures var r := RunAll(m, INITIAL, events);
      if r.history == [] then r.thread == Top(m.start, 1, None)
      else r.history[|r.history| - 1].step in m.steps
    ensures var r := RunAll(m, INITIAL, events);
      r.history != [] ==>
        (var a := r.history[|r.history| - 1];
         var def := m.steps[a.step];
         LedTo(def.next, def.fail, def.retry, a, r.thread.step, r.thread.attempt, r.thread.cause))
  {
    EveryRunIsAWalk(m, events);
    var r := RunAll(m, INITIAL, events);
    hide Walk;
    if r.history != [] {
      LeadIsLed(m, r.history, r.thread.step, r.thread.attempt, r.thread.cause);
    }
  }

  /** The step that a wired machine has for tags. */
  lemma StepsAsTagged(m: Machine, tags: seq<StepTags>, start: Name, n: Name)
    requires Wired(m, tags, start)
    ensures n in m.steps <==> exists k :: 0 <= k < |tags| && tags[k].name == n
    ensures forall k :: 0 <= k < |tags| && tags[k].name == n ==>
      && n in m.steps && m.steps[n].name == n
      && m.steps[n].next == (if tags[k].next == "" then "done" else tags[k].next)
      && m.steps[n].fail == tags[k].fail && m.steps[n].retry == tags[k].retry && m.steps[n].backoff == tags[k].backoff
  {
  }

  /** In every run of an accepted declaration each call is where the tags lead from the call before it. */
  lemma CallsFollowTags(m: Machine, tags: seq<StepTags>, start: Name, events: seq<Event>, i: nat)
    requires WellWired(tags, start) && Wired(m, tags, start)
    requires i < |RunAll(m, INITIAL, events).history|
    ensures var h := RunAll(m, INITIAL, events).history;
      if i == 0 then h[0].step == start && h[0].attempt == 1 && h[0].cause == None
      else TagsLeadTo(tags, h[i - 1], h[i].step, h[i].attempt, h[i].cause)
  {
    WiredIsSound(m, tags, start);
    CallsFollow(m, events, i);
    hide RunAll, Sound, LedTo, WellWired;
    if i > 0 {
      StepsAsTagged(m, tags, start, RunAll(m, INITIAL, events).history[i - 1].step);
    }
  }

  // ----- backoffs -----

  lemma FailedNext(m: Machine, r: Run, e: Error)
    requires InProgress(m, r) && !r.canceled
    requires var a := r.history[|r.history| - 1]; a.attempt <= m.steps[a.step].retry
    ensures var a := r.history[|r.history| - 1];
      Next(m, r, Return(Failure(e))).thread ==
        if m.steps[a.step].backoff > 0 then Sleeping(a.step, a.attempt + 1) else Top(a.step, a.attempt + 1, None)
  {
  }

  /** A failed attempt is followed by a backoff, where the step has one, and then by the next attempt. */
  lemma SleepsBeforeRetry(m: Machine, events: seq<Event>, e: Error)
    requires Sound(m)
    requires var r := RunAll(m, INITIAL, events); r.thread == InHandler && !r.canceled
    ensures InProgress(m, RunAll(m, INITIAL, events))
    ensures var r := RunAll(m, INITIAL, events);
      var a := r.history[|r.history| - 1];
      var backoff := m.steps[a.step].backoff;
      a.attempt <= m.steps[a.step].retry ==>
        && RunAll(m, INITIAL, events + [Return(Failure(e))]).thread ==
          (if backoff > 0 then Sleeping(a.step, a.attempt + 1) else Top(a.step, a.attempt + 1, None))
        && (backoff > 0 ==>
          RunAll(m, INITIAL, events + [Return(Failure(e))] + [Wake(true)]).thread == Top(a.step, a.attempt + 1, None))
  {
    EveryRunIsAWalk(m, events);
    hide Sound, Inv, RunAll;
    var r := RunAll(m, INITIAL, events);
    InHandlerInProgress(m, r);
    var a := r.history[|r.history| - 1];
    if a.attempt <= m.steps[a.step].retry {
      FailedNext(m, r, e);
      Onward(m, INITIAL, events, Return(Failure(e)));
      Onward(m, INITIAL, events + [Return(Failure(e))], Wake(true));
      hide InProgress;
    }
  }

  lemma InHandlerInProgress(m: Machine, r: Run)
    requires Inv(m, r) && r.thread == InHandler
    ensures InProgress(m, r)
  {
  }

  lemma Onward(m: Machine, r: Run, events: seq<Event>, e: Event)
    ensures RunAll(m, r, events + [e]) == Next(m, RunAll(m, r, events), e)
  {
    assert (events + [e])[..|events|] == events;
  }

  // ----- how a run ends -----

  /** While a run goes on its error is the recorded one, and when it has returned it ended as its last call says. */
  ghost predicate Accounted(m: Machine, r: Run) {
    match r.thread
    case NotStarted => true
    case Returned => r.status == Canceled || Ended(m, r)
    case _ => r.err == Recorded(m, r.history)
  }

  lemma RecordedSnoc(m: Machine, h: seq<Entry>, e: Entry)
    ensures Recorded(m, h + [e]) ==
      if e.step in m.steps && e.outcome.Some? && e.outcome.value.Failure?
        && e.attempt > m.steps[e.step].retry && m.steps[e.step].fail != ""
      then Some(e.outcome.value.err)
      else Recorded(m, h)
  {
    assert (h + [e])[..|h|] == h;
  }

  lemma EnterAccounted(m: Machine, r: Run)
    requires Sound(m) && Inv(m, r) && r.thread.Top? && Accounted(m, r)
    ensures Accounted(m, EnterStep(m, r))
  {
    var Top(step, attempt, cause) := r.thread;
    if r.canceled {
    } else if step == DONE || step == FAILED {
      EndsAtTerminal(m, r);
    } else {
      hide Walk;
      RecordedSnoc(m, r.history, Entry(step, attempt, cause, None));
    }
  }

  lemma EndsAtTerminal(m: Machine, r: Run)
    requires Sound(m) && Inv(m, r) && r.thread.Top? && Accounted(m, r) && Terminal(r.thread.step) && !r.canceled
    ensures Accounted(m, EnterStep(m, r))
  {
    if r.history != [] {
      LeadIsLed(m, r.history, r.thread.step, r.thread.attempt, r.thread.cause);
      LastCalled(m, r.history);
      hide Walk, LeadsTo;
      hide Recorded;
    }
  }

  lemma DispatchAccounted(m: Machine, r: Run, init: seq<Entry>, e: Entry, outcome: Outcome)
    requires StepInBounds(m, e) && e.outcome == Some(outcome) && m.steps[e.step].name == e.step
    requires r.history == init + [e] && r.err == Recorded(m, init)
    ensures Accounted(m, Dispatch(m, r, e, After(m, e, outcome)))
  {
    RecordedSnoc(m, init, e);
    hide Recorded;
  }

  ghost predicate StepInBounds(m: Machine, e: Entry) {
    e.step in m.steps && e.attempt <= m.steps[e.step].retry + 1
  }

  lemma CallReturned(m: Machine, r: Run, outcome: Outcome)
    requires Sound(m) && Inv(m, r) && r.thread == InHandler
    ensures var n := |r.history| - 1;
      n >= 0 && StepInBounds(m, r.history[n]) && m.steps[r.history[n].step].name == r.history[n].step
      && r.history[n].outcome == None
  {
    LastCalled(m, r.history);
    assert StepSound(m, r.history[|r.history| - 1].step);
    hide Walk;
  }

  lemma ReturnSplits(m: Machine, r: Run, outcome: Outcome) returns (init: seq<Entry>, a: Entry)
    requires InProgress(m, r)
    ensures r.history == init + [a] && a.step in m.steps
    ensures var e := a.(outcome := Some(outcome));
      var r' := r.(history := init + [e]);
      HandlerReturned(m, r, outcome) ==
        if outcome.Failure? && r.canceled then Finish(r', Canceled, None) else Dispatch(m, r', e, After(m, e, outcome))
  {
    var n := |r.history| - 1;
    init, a := r.history[..n], r.history[n];
    var e := a.(outcome := Some(outcome));
    assert r.history == init + [a] && r.history[n := e] == init + [e];
    assert After(m, a, outcome) == After(m, e, outcome);
    hide Dispatch, After, Finish;
  }

  lemma ReturnAccounted(m: Machine, r: Run, outcome: Outcome)
    requires Sound(m) && Inv(m, r) && r.thread == InHandler && Accounted(m, r)
    ensures Accounted(m, HandlerReturned(m, r, outcome))
  {
    CallReturned(m, r, outcome);
    InHandlerInProgress(m, r);
    hide Sound, Inv, Recorded, Ended, HandlerReturned, InProgress;
    var init, a := ReturnSplits(m, r, outcome);
    var e := a.(outcome := Some(outcome));
    RecordedSnoc(m, init, a);
    if !(outcome.Failure? && r.canceled) {
      DispatchAccounted(m, r.(history := init + [e]), init, e, outcome);
    }
    hide After, Dispatch;
  }

  lemma StepAccounted(m: Machine, r: Run, e: Event)
    requires Sound(m) && Inv(m, r) && Accounted(m, r)
    ensures Accounted(m, Next(m, r, e))
  {
    match e
    case Start =>
    case Cancel => hide Recorded, Inv;
    case Enter =>
      if r.thread.Top? {
        EnterAccounted(m, r);
      }
    case Return(outcome) =>
      if r.thread == InHandler {
        ReturnAccounted(m, r, outcome);
      }
    case Wake(fired) => hide Inv;
  }

  lemma {:induction false} EveryRunAccounted(m: Machine, events: seq<Event>)
    requires Sound(m)
    ensures Accounted(m, RunAll(m, INITIAL, events))
  {
    if events != [] {
      var before := events[..|events| - 1];
      EveryRunIsAWalk(m, before);
      EveryRunAccounted(m, before);
      StepAccounted(m, RunAll(m, INITIAL, before), events[|events| - 1]);
    }
  }

  /** A run that has returned was canceled, or ended as the outcome of its last call says. */
  lemma HowRunsEnd(m: Machine, events: seq<Event>)
    requires Sound(m) && RunAll(m, INITIAL, events).thread == Returned
    ensures var r := RunAll(m, INITIAL, events);
      (r.status == Canceled && r.canceled) || (r.status != Canceled && Ended(m, r))
  {
    EveryRunAccounted(m, events);
    EveryRunIsAWalk(m, events);
    hide Walk, RunAll;
  }

  /** It completed exactly if its last call leads to done. */
  lemma CompletedIff(m: Machine, events: seq<Event>)
    requires Sound(m)
    requires RunAll(m, INITIAL, events).thread == Returned && RunAll(m, INITIAL, events).status != Canceled
    ensures var r := RunAll(m, INITIAL, events);
      r.status == Completed <==>
        if r.history == [] then m.start == "done"
        else
          var a := r.history[|r.history| - 1];
          && a.step in m.steps
          && var def := m.steps[a.step];
             exists attempt, cause :: LedTo(def.next, def.fail, def.retry, a, "done", attempt, cause)
  {
    HowRunsEnd(m, events);
    EveryRunIsAWalk(m, events);
    var r := RunAll(m, INITIAL, events);
    if r.history != [] {
      var a := r.history[|r.history| - 1];
      LastCalled(m, r.history);
      hide Walk, RunAll, Sound;
      var def := m.steps[a.step];
      if r.status == Completed {
        var cause := if a.outcome.value.Failure? then Some(a.outcome.value.err) else None;
        assert LedTo(def.next, def.fail, def.retry, a, "done", 1, cause);
      }
    }
  }
}
