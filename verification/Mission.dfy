/**
 * The mission machine of mission.go: a declared state machine with retries, fail branches and Goto,
 * run against handlers that may do anything.
 *
 * The goroutine's loop is cut where another goroutine can be seen: at the head of the loop, when a
 * handler returns, and when a backoff ends.  A handler is nothing but the outcome it returns; its
 * timeout is one more way of failing.
 */
module Missions {
  import opened Wrappers
  import opened Sorting

  type Name = string

  const DONE: Name := "done"
  const FAILED: Name := "failed"

  /** A step as its tags declare it. */
  datatype StepTags = StepTags(name: Name, next: Name, fail: Name, retry: nat, backoff: nat)

  datatype StepDef = StepDef(name: Name, next: Name, fail: Name, retry: nat, backoff: nat)

  datatype WireError = NoSteps | TwoSteps(name: Name) | BadStart(name: Name) | BadTarget(step: Name, target: Name)

  datatype Error =
    | HandlerError(code: int)
    | StepError(step: Name, err: Error)
    | NoSuchStep(step: Name)
    | BadGoto(step: Name, target: Name)

  datatype Outcome = Success | Failure(err: Error) | Goto(target: Name)

  datatype Status = Idle | Running | Completed | Broken | Canceled

  /** One call of a handler: the step, its attempt, the error that led here, and what it returned. */
  datatype Entry = Entry(step: Name, attempt: nat, cause: Option<Error>, outcome: Option<Outcome>)

  /** Where the mission's goroutine is. */
  datatype Thread =
    | NotStarted
    | Top(step: Name, attempt: nat, cause: Option<Error>)
    | InHandler
    | Sleeping(step: Name, attempt: nat)
    | Returned

  datatype Machine = Machine(start: Name, steps: map<Name, StepDef>)

  datatype Run = Run(status: Status, step: Name, attempt: nat, err: Option<Error>, canceled: bool,
                     thread: Thread, history: seq<Entry>, finishes: nat)

  datatype Event = Start | Cancel | Enter | Return(outcome: Outcome) | Wake(fired: bool)

  // ----- wiring -----

  /** bind: an absent next tag means done. */
  function Bind(t: StepTags): StepDef {
    StepDef(t.name, if t.next == "" then DONE else t.next, t.fail, t.retry, t.backoff)
  }

  predicate Terminal(n: Name) {
    n == DONE || n == FAILED
  }

  ghost predicate Declared(tags: seq<StepTags>, n: Name) {
    exists i :: 0 <= i < |tags| && tags[i].name == n
  }

  ghost predicate TargetOk(tags: seq<StepTags>, n: Name) {
    n == "" || Terminal(n) || Declared(tags, n)
  }

  /** What a mission must declare: distinct steps, at least one, a declared start, declared targets. */
  ghost predicate WellWired(tags: seq<StepTags>, start: Name) {
    && DistinctSteps(tags)
    && Declared(tags, start)
    && forall i :: 0 <= i < |tags| ==> TargetOk(tags, Bind(tags[i]).next) && TargetOk(tags, tags[i].fail)
  }

  /** The machine that tags declare. */
  ghost predicate Wired(m: Machine, tags: seq<StepTags>, start: Name) {
    m.start == start && TableOf(tags, m.steps)
  }

  ghost predicate TableOf(tags: seq<StepTags>, steps: map<Name, StepDef>) {
    && (forall n :: n in steps <==> Declared(tags, n))
    && forall i :: 0 <= i < |tags| ==> tags[i].name in steps && steps[tags[i].name] == Bind(tags[i])
  }

  ghost predicate DistinctSteps(tags: seq<StepTags>) {
    forall i, j :: 0 <= i < j < |tags| ==> tags[i].name != tags[j].name
  }

  /** Step i is the first whose name was there before. */
  ghost predicate FirstTwice(tags: seq<StepTags>, i: nat) {
    i < |tags| && DistinctSteps(tags[..i]) && exists j :: 0 <= j < i && tags[j].name == tags[i].name
  }

  /** Step i is the first with a target that is no step; its next target is looked at before its fail target. */
  ghost predicate FirstBad(tags: seq<StepTags>, i: nat, target: Name) {
    && i < |tags| && !TargetOk(tags, target)
    && (forall j :: 0 <= j < i ==> TargetOk(tags, Bind(tags[j]).next) && TargetOk(tags, tags[j].fail))
    && (target == Bind(tags[i]).next || (TargetOk(tags, Bind(tags[i]).next) && target == tags[i].fail))
  }

  /** The one error that a declaration is refused with. */
  ghost predicate Refused(tags: seq<StepTags>, start: Name, e: WireError) {
    match e
    case TwoSteps(name) => exists i: nat :: FirstTwice(tags, i) && tags[i].name == name
    case NoSteps => tags == []
    case BadStart(name) => DistinctSteps(tags) && tags != [] && name == start && !Declared(tags, start)
    case BadTarget(step, target) =>
      DistinctSteps(tags) && Declared(tags, start) && exists i: nat :: FirstBad(tags, i, target) && tags[i].name == step
  }

  /** The step table, unless a name comes twice. */
  method Table(tags: seq<StepTags>) returns (r: Result<map<Name, StepDef>, WireError>)
    ensures r.Ok? <==> DistinctSteps(tags)
    ensures r.Ok? ==> TableOf(tags, r.value)
    ensures r.Err? ==> exists i: nat :: FirstTwice(tags, i) && r.error == TwoSteps(tags[i].name)
  {
    hide TableOf;
    var steps: map<Name, StepDef> := map[];
    assert TableOf(tags[..0], steps) by {
      TableEmpty();
    }
    for i := 0 to |tags|
      invariant TableOf(tags[..i], steps)
      invariant forall j, k :: 0 <= j < k < i ==> tags[j].name != tags[k].name
    {
      TableSnoc(tags, i, steps);
      if tags[i].name in steps {
        assert FirstTwice(tags, i);
        return Err(TwoSteps(tags[i].name));
      }
      steps := steps[tags[i].name := Bind(tags[i])];
    }
    assert tags[..|tags|] == tags;
    r := Ok(steps);
  }

  /** The first next or fail target that is no step, if any. */
  method FindBadTarget(tags: seq<StepTags>, steps: map<Name, StepDef>) returns (r: Option<WireError>)
    requires TableOf(tags, steps)
    ensures r.None? <==> forall i :: 0 <= i < |tags| ==>
      TargetOk(tags, Bind(tags[i]).next) && TargetOk(tags, tags[i].fail)
    ensures r.Some? ==>
      r.value.BadTarget? && exists i: nat :: FirstBad(tags, i, r.value.target) && tags[i].name == r.value.step
  {
    hide Declared;
    for i := 0 to |tags|
      invariant forall j :: 0 <= j < i ==> TargetOk(tags, Bind(tags[j]).next) && TargetOk(tags, tags[j].fail)
    {
      var def := Bind(tags[i]);
      if def.next != "" && !Terminal(def.next) && def.next !in steps {
        assert FirstBad(tags, i, def.next);
        return Some(BadTarget(def.name, def.next));
      }
      if def.fail != "" && !Terminal(def.fail) && def.fail !in steps {
        assert FirstBad(tags, i, def.fail);
        return Some(BadTarget(def.name, def.fail));
      }
    }
    r := None;
  }

  /** wireMission: accepts exactly the well-wired declarations. */
  method WireMission(tags: seq<StepTags>, start: Name) returns (r: Result<Machine, WireError>)
    ensures r.Ok? <==> WellWired(tags, start)
    ensures r.Ok? ==> Wired(r.value, tags, start)
    ensures r.Err? ==> Refused(tags, start, r.error)
  {
    hide FirstTwice, FirstBad, DistinctSteps;
    var table := Table(tags);
    if table.Err? {
      return Err(table.error);
    }
    var steps := table.value;
    if |tags| == 0 {
      return Err(NoSteps);
    }
    if start !in steps {
      return Err(BadStart(start));
    }
    var bad := FindBadTarget(tags, steps);
    r := if bad.Some? then Err(bad.value) else Ok(Machine(start, steps));
  }

  lemma TableEmpty()
    ensures TableOf([], map[])
  {
  }

  lemma TableSnoc(tags: seq<StepTags>, i: nat, steps: map<Name, StepDef>)
    requires i < |tags| && TableOf(tags[..i], steps)
    ensures tags[i].name in steps <==> exists j :: 0 <= j < i && tags[j].name == tags[i].name
    ensures tags[i].name !in steps ==> TableOf(tags[..i + 1], steps[tags[i].name := Bind(tags[i])])
  {
    hide Bind;
    DeclaredSnoc(tags, i);
    DeclaredThere(tags, i);
    var p, q := tags[..i], tags[..i + 1];
    hide Declared;
    if tags[i].name !in steps {
      var steps' := steps[tags[i].name := Bind(tags[i])];
      forall j | 0 <= j < |q| ensures q[j].name in steps' && steps'[q[j].name] == Bind(q[j]) {
        assert q[j] == if j < i then p[j] else tags[i];
      }
    }
  }

  lemma DeclaredThere(tags: seq<StepTags>, i: nat)
    requires i <= |tags|
    ensures forall n :: Declared(tags[..i], n) <==> exists j :: 0 <= j < i && tags[j].name == n
  {
    var p := tags[..i];
    forall n | Declared(p, n) ensures exists j :: 0 <= j < i && tags[j].name == n {
      var j :| 0 <= j < |p| && p[j].name == n;
      assert tags[j].name == n;
    }
    forall n | exists j :: 0 <= j < i && tags[j].name == n ensures Declared(p, n) {
      var j :| 0 <= j < i && tags[j].name == n;
      assert p[j].name == n;
    }
  }

  lemma DeclaredSnoc(tags: seq<StepTags>, i: nat)
    requires i < |tags|
    ensures forall n :: Declared(tags[..i + 1], n) <==> Declared(tags[..i], n) || n == tags[i].name
  {
    var p, q := tags[..i], tags[..i + 1];
    forall n | Declared(p, n) ensures Declared(q, n) {
      var j :| 0 <= j < |p| && p[j].name == n;
      assert q[j].name == n;
    }
    assert q[i].name == tags[i].name;
    forall n | Declared(q, n) && n != tags[i].name ensures Declared(p, n) {
      var j :| 0 <= j < |q| && q[j].name == n;
      assert p[j].name == n;
    }
  }

  // ----- one run -----

  const INITIAL := Run(Idle, "", 0, None, false, NotStarted, [], 0)

  /** finish. */
  function Finish(r: Run, status: Status, err: Option<Error>): Run {
    r.(status := status,
       err := if err.Some? then err else r.err,
       step := if status == Completed then DONE else if status == Broken then FAILED else r.step,
       thread := Returned,
       finishes := r.finishes + 1)
  }

  /** The head of the loop. */
  function EnterStep(m: Machine, r: Run): Run
    requires r.thread.Top?
  {
    var Top(step, attempt, cause) := r.thread;
    if r.canceled then Finish(r, Canceled, None)
    else if step == DONE then Finish(r, Completed, None)
    else if step == FAILED then Finish(r, Broken, r.err)
    else if step !in m.steps then Finish(r, Broken, Some(NoSuchStep(step)))
    else r.(step := step, attempt := attempt, thread := InHandler,
            history := r.history + [Entry(step, attempt, cause, None)])
  }

  /** Where an outcome leads. */
  datatype Move = Again | Go(step: Name, cause: Option<Error>) | Stop(err: Error)

  function After(m: Machine, e: Entry, outcome: Outcome): Move
    requires e.step in m.steps
  {
    var def := m.steps[e.step];
    match outcome
    case Goto(t) => if t in m.steps || Terminal(t) then Go(t, None) else Stop(BadGoto(e.step, t))
    case Success => Go(def.next, None)
    case Failure(err) =>
      if e.attempt <= def.retry then Again
      else if def.fail != "" then Go(def.fail, Some(err))
      else Stop(StepError(def.name, err))
  }

  predicate InProgress(m: Machine, r: Run) {
    r.thread == InHandler && r.history != [] && r.history[|r.history| - 1].step in m.steps
  }

  /** The handler has returned. */
  function HandlerReturned(m: Machine, r: Run, outcome: Outcome): Run
    requires InProgress(m, r)
  {
    var n := |r.history| - 1;
    var e := r.history[n];
    var r' := r.(history := r.history[n := e.(outcome := Some(outcome))]);
    if outcome.Failure? && r.canceled then Finish(r', Canceled, None)
    else Dispatch(m, r', e, After(m, e, outcome))
  }

  /** Acting on where an outcome leads. */
  function Dispatch(m: Machine, r: Run, e: Entry, move: Move): Run
    requires e.step in m.steps
  {
    match move
    case Stop(err) => Finish(r, Broken, Some(err))
    case Again =>
      r.(thread := if m.steps[e.step].backoff > 0 then Sleeping(e.step, e.attempt + 1)
        else Top(e.step, e.attempt + 1, None))
    case Go(step, cause) =>
      r.(thread := Top(step, 1, cause), err := if cause.Some? then cause else r.err)
  }

  /** Events that the state does not enable change nothing. */
  function Next(m: Machine, r: Run, e: Event): Run {
    match e
    case Start =>
      if r.status == Running then r
      else Run(Running, m.start, 1, None, false, Top(m.start, 1, None), [], 0)
    case Cancel => if r.thread == NotStarted then r else r.(canceled := true)
    case Enter => if r.thread.Top? then EnterStep(m, r) else r
    case Return(outcome) => if InProgress(m, r) then HandlerReturned(m, r, outcome) else r
    case Wake(fired) =>
      if !r.thread.Sleeping? then r
      else if fired then r.(thread := Top(r.thread.step, r.thread.attempt, None))
      else if r.canceled then Finish(r, Canceled, None)
      else r
  }

  lemma EnterIs(m: Machine, r: Run)
    ensures Next(m, r, Enter) == if r.thread.Top? then EnterStep(m, r) else r
  {
  }

  lemma ReturnIs(m: Machine, r: Run, outcome: Outcome)
    ensures Next(m, r, Return(outcome)) == if InProgress(m, r) then HandlerReturned(m, r, outcome) else r
  {
  }

  function RunAll(m: Machine, r: Run, events: seq<Event>): Run {
    if events == [] then r
    else Next(m, RunAll(m, r, events[..|events| - 1]), events[|events| - 1])
  }

  // ----- the runner, as it keeps its state -----

  class MissionRunner {
    const machine: Machine
    // state, as snapshot() reads it
    var status: Status
    var step: Name
    var attempt: nat
    var err: Option<Error>
    // the current run: its context, its goroutine, and what it has done
    var canceled: bool
    var thread: Thread
    ghost var history: seq<Entry>
    ghost var finishes: nat
    // the call in progress, when there is one
    var calling: Name
    var calls: nat

    ghost predicate Valid()
      reads this
    {
      thread == InHandler ==>
        history != [] && history[|history| - 1].step == calling && history[|history| - 1].attempt == calls
          && calling in machine.steps
    }

    ghost function Model(): Run
      reads this
    {
      Run(status, step, attempt, err, canceled, thread, history, finishes)
    }

    constructor (machine: Machine)
      ensures this.machine == machine && Valid() && Model() == INITIAL
    {
      this.machine := machine;
      status, step, attempt, err := Idle, "", 0, None;
      canceled, thread, history, finishes := false, NotStarted, [], 0;
      calling, calls := "", 0;
    }

    /** start_: nothing while a run is under way. */
    method Begin()
      requires Valid()
      modifies this
      ensures Valid() && Model() == Next(machine, old(Model()), Start)
    {
      if status == Running {
        return;
      }
      status, step, attempt, err := Running, machine.start, 1, None;
      canceled, thread := false, Top(machine.start, 1, None);
      history, finishes := [], 0;
    }

    /** stop: cancels the context of the last run, if there was one. */
    method CancelRun()
      requires Valid()
      modifies this
      ensures Valid() && Model() == Next(machine, old(Model()), Cancel)
    {
      if thread != NotStarted {
        canceled := true;
      }
    }

    method FinishRun(outcome: Status, cause: Option<Error>)
      modifies this
      ensures Valid() && Model() == Finish(old(Model()), outcome, cause)
    {
      status := outcome;
      if cause.Some? {
        err := cause;
      }
      if outcome == Completed {
        step := DONE;
      } else if outcome == Broken {
        step := FAILED;
      }
      thread := Returned;
      finishes := finishes + 1;
    }

    /** The head of the loop: stop, or enter the step and call its handler. */
    method LoopHead()
      requires Valid()
      modifies this
      ensures Valid() && Model() == Next(machine, old(Model()), Enter)
    {
      EnterIs(machine, Model());
      hide Next;
      if !thread.Top? {
        return;
      }
      var Top(next, n, cause) := thread;
      if canceled {
        FinishRun(Canceled, None);
      } else if next == DONE {
        FinishRun(Completed, None);
      } else if next == FAILED {
        FinishRun(Broken, err);
      } else if next !in machine.steps {
        FinishRun(Broken, Some(NoSuchStep(next)));
      } else {
        step, attempt, thread := next, n, InHandler;
        calling, calls := next, n;
        history := history + [Entry(next, n, cause, None)];
      }
    }

    /** The switch after a handler has returned. */
    method HandlerDone(outcome: Outcome)
      requires Valid()
      modifies this
      ensures Valid() && Model() == Next(machine, old(Model()), Return(outcome))
    {
      ReturnIs(machine, Model(), outcome);
      hide Next;
      if thread != InHandler {
        return;
      }
      var def := machine.steps[calling];
      history := history[|history| - 1 := history[|history| - 1].(outcome := Some(outcome))];
      match outcome
      case Goto(target) =>
        if target !in machine.steps && target != DONE && target != FAILED {
          FinishRun(Broken, Some(BadGoto(calling, target)));
        } else {
          thread := Top(target, 1, None);
        }
      case Success =>
        thread := Top(def.next, 1, None);
      case Failure(e) =>
        if canceled {
          FinishRun(Canceled, None);
        } else if calls <= def.retry {
          thread := if def.backoff > 0 then Sleeping(calling, calls + 1) else Top(calling, calls + 1, None);
        } else if def.fail != "" {
          err := Some(e);
          thread := Top(def.fail, 1, Some(e));
        } else {
          FinishRun(Broken, Some(StepError(def.name, e)));
        }
    }

    /** A backoff ends: its timer fired, or the context was canceled first. */
    method BackoffDone(fired: bool)
      requires Valid()
      modifies this
      ensures Valid() && Model() == Next(machine, old(Model()), Wake(fired))
    {
      if !thread.Sleeping? {
        return;
      }
      if fired {
        thread := Top(thread.step, thread.attempt, None);
      } else if canceled {
        FinishRun(Canceled, None);
      }
    }

    /** Any sequence of events, one after another. */
    method Drive(events: seq<Event>)
      requires Valid()
      modifies this
      ensures Valid() && Model() == RunAll(machine, old(Model()), events)
    {
      for i := 0 to |events|
        invariant Valid() && Model() == RunAll(machine, old(Model()), events[..i])
      {
        assert events[..i + 1][..i] == events[..i];
        match events[i]
        case Start => Begin();
        case Cancel => CancelRun();
        case Enter => LoopHead();
        case Return(outcome) => HandlerDone(outcome);
        case Wake(fired) => BackoffDone(fired);
      }
      assert events[..|events|] == events;
    }
  }
}
