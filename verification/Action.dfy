/**
 * An action server, action.go 127-259: goals sent, canceled, completed, asked about and forgotten, each in
 * critical sections that callers and handlers interleave as they please.
 */
module Actions {
  import opened Wrappers
  import opened Sorting

  /** A goal id; the zero id stands for every goal in a cancel request. */
  type Uuid = nat

  const ZERO: Uuid := 0

  /** What a handler produces, on which nothing depends. */
  type Payload = string

  datatype Status = Executing | Canceling | Succeeded | Canceled | Aborted

  predicate Terminal(s: Status) {
    s == Succeeded || s == Canceled || s == Aborted
  }

  /** What the handler of a goal came back with. */
  datatype Outcome = Outcome(result: Payload, failed: bool)

  /** A goal record, with what has happened to it: how often done was closed, how many cancel requests were
      accepted before the handler came back, with what it did, and whether it was forgotten. */
  datatype Goal = Goal(
    id: Uuid, status: Status, result: Payload, ctxCanceled: bool, closes: nat,
    cancels: nat, outcome: Option<Outcome>, expired: bool)

  /** All records ever made, and the one that each known id stands for. */
  datatype Server = Server(records: seq<Goal>, goals: map<Uuid, nat>)

  const NEW_SERVER := Server([], map[])

  /**
   * One critical section: Send is the first one of handleSendGoal, Complete the one after the handler,
   * Release its deferred cancel, Expire what the timer does, Cancel the one of handleCancel.
   */
  datatype Event =
    | Send(id: Uuid)
    | Complete(k: nat, outcome: Outcome)
    | Release(k: nat)
    | Expire(k: nat)
    | Cancel(id: Uuid)

  function NewGoal(id: Uuid): Goal {
    Goal(id, Executing, "", false, 0, 0, None, false)
  }

  function Ended(g: Goal, o: Outcome): Goal {
    var status := if o.failed && g.ctxCanceled then Canceled else if o.failed then Aborted else Succeeded;
    g.(status := status, result := o.result, closes := g.closes + 1, outcome := Some(o))
  }

  function CanceledOnce(g: Goal): Goal {
    if Terminal(g.status) then g else g.(status := Canceling, ctxCanceled := true, cancels := g.cancels + 1)
  }

  /** A cancel request means this goal. */
  predicate Meant(s: Server, id: Uuid, k: nat)
    requires k < |s.records|
  {
    var own := s.records[k].id;
    own in s.goals && s.goals[own] == k && (id == ZERO || id == own)
  }

  function Step(s: Server, e: Event): Server {
    match e
    case Send(id) =>
      if id in s.goals then s else Server(s.records + [NewGoal(id)], s.goals[id := |s.records|])
    case Complete(k, o) =>
      if k < |s.records| && s.records[k].outcome.None? then s.(records := s.records[k := Ended(s.records[k], o)]) else s
    case Release(k) =>
      if k < |s.records| && s.records[k].outcome.Some? then
        s.(records := s.records[k := s.records[k].(ctxCanceled := true)]) else s
    case Expire(k) =>
      if k < |s.records| && s.records[k].outcome.Some? && !s.records[k].expired then
        Server(s.records[k := s.records[k].(expired := true)], s.goals - {s.records[k].id})
      else s
    case Cancel(id) =>
      s.(records := seq(|s.records|, k requires 0 <= k < |s.records| =>
        if Meant(s, id, k) then CanceledOnce(s.records[k]) else s.records[k]))
  }

  function Steps(s: Server, events: seq<Event>): Server {
    if events == [] then s else Step(Steps(s, events[..|events| - 1]), events[|events| - 1])
  }

  // ----- what holds in every run -----

  /** A record agrees with what has happened to it. */
  ghost predicate Agrees(g: Goal) {
    match g.outcome
    case None =>
      && g.status == (if g.cancels > 0 then Canceling else Executing)
      && (g.ctxCanceled <==> g.cancels > 0) && g.closes == 0 && !g.expired
    case Some(o) =>
      && g.status == (if !o.failed then Succeeded else if g.cancels > 0 then Canceled else Aborted)
      && g.result == o.result && g.closes == 1
  }

  /** Ids stand for the records that were not forgotten, one each. */
  ghost predicate Inv(s: Server) {
    && (forall k :: 0 <= k < |s.records| ==> Agrees(s.records[k]))
    && (forall id :: id in s.goals ==>
      s.goals[id] < |s.records| && s.records[s.goals[id]].id == id && !s.records[s.goals[id]].expired)
    && (forall k :: 0 <= k < |s.records| && !s.records[k].expired ==>
      s.records[k].id in s.goals && s.goals[s.records[k].id] == k)
  }

  lemma StepKeepsInv(s: Server, e: Event)
    requires Inv(s)
    ensures Inv(Step(s, e))
  {
    hide Inv, Step;
    match e
    case Send(id) => SendKeepsInv(s, id);
    case Complete(k, o) => CompleteKeepsInv(s, k, o);
    case Release(k) => ReleaseKeepsInv(s, k);
    case Expire(k) => ExpireKeepsInv(s, k);
    case Cancel(id) => CancelKeepsInv(s, id);
  }

  lemma SendKeepsInv(s: Server, id: Uuid)
    requires Inv(s)
    ensures Inv(Step(s, Send(id)))
  {
  }

  /** A record that changes but keeps its id, and stays as known as it was. */
  lemma ChangeKeepsInv(s: Server, k: nat, g: Goal)
    requires Inv(s) && k < |s.records| && Agrees(g) && g.id == s.records[k].id && g.expired == s.records[k].expired
    ensures Inv(s.(records := s.records[k := g]))
  {
    hide Agrees;
  }

  lemma CompleteKeepsInv(s: Server, k: nat, o: Outcome)
    requires Inv(s)
    ensures Inv(Step(s, Complete(k, o)))
  {
    if k < |s.records| && s.records[k].outcome.None? {
      assert Agrees(s.records[k]);
      ChangeKeepsInv(s, k, Ended(s.records[k], o));
    }
    hide Inv;
  }

  lemma ReleaseKeepsInv(s: Server, k: nat)
    requires Inv(s)
    ensures Inv(Step(s, Release(k)))
  {
    if k < |s.records| && s.records[k].outcome.Some? {
      assert Agrees(s.records[k]);
      ChangeKeepsInv(s, k, s.records[k].(ctxCanceled := true));
    }
    hide Inv;
  }

  /** The id of a record that is not forgotten stands for it. */
  lemma KnownByItsId(s: Server, k: nat)
    requires Inv(s) && k < |s.records| && !s.records[k].expired
    ensures s.records[k].id in s.goals && s.goals[s.records[k].id] == k
  {
    hide Agrees;
  }

  lemma ExpireKeepsInv(s: Server, k: nat)
    requires Inv(s)
    ensures Inv(Step(s, Expire(k)))
  {
    if k < |s.records| && s.records[k].outcome.Some? && !s.records[k].expired {
      KnownByItsId(s, k);
      assert Agrees(s.records[k]);
      ForgottenKeepsInv(s, k);
    }
    hide Inv;
  }

  lemma ForgottenKeepsInv(s: Server, k: nat)
    requires Inv(s) && k < |s.records| && Agrees(s.records[k].(expired := true))
    requires s.records[k].id in s.goals && s.goals[s.records[k].id] == k
    ensures Inv(Server(s.records[k := s.records[k].(expired := true)], s.goals - {s.records[k].id}))
  {
    hide Agrees;
    forall id | id in s.goals - {s.records[k].id} ensures s.goals[id] != k {
      assert s.records[s.goals[id]].id == id;
    }
  }

  lemma CancelKeepsInv(s: Server, id: Uuid)
    requires Inv(s)
    ensures Inv(Step(s, Cancel(id)))
  {
    forall k | 0 <= k < |s.records|
      ensures Agrees(CanceledOnce(s.records[k])) && CanceledOnce(s.records[k]).id == s.records[k].id
        && CanceledOnce(s.records[k]).expired == s.records[k].expired
    {
      assert Agrees(s.records[k]);
    }
    hide Agrees, CanceledOnce;
  }

  lemma {:induction false} EveryInterleaving(events: seq<Event>)
    ensures Inv(Steps(NEW_SERVER, events))
  {
    if events != [] {
      EveryInterleaving(events[..|events| - 1]);
      StepKeepsInv(Steps(NEW_SERVER, events[..|events| - 1]), events[|events| - 1]);
    }
  }

  /**
   * However the critical sections interleave, for every goal there ever was: done is closed once, exactly when
   * its status is terminal, which is exactly when its handler has come back; until then its context is canceled
   * just when its status is CANCELING; it is CANCELED just when a cancel was accepted and the handler failed,
   * SUCCEEDED just when the handler did not fail, and it reports what the handler returned.
   */
  lemma GoalStates(events: seq<Event>, k: nat)
    requires k < |Steps(NEW_SERVER, events).records|
    ensures var g := Steps(NEW_SERVER, events).records[k];
      && (Terminal(g.status) <==> g.outcome.Some?)
      && g.closes == (if Terminal(g.status) then 1 else 0)
      && (!Terminal(g.status) ==> (g.ctxCanceled <==> g.status == Canceling))
      && (g.status == Canceled <==> g.cancels > 0 && g.outcome.Some? && g.outcome.value.failed)
      && (g.status == Succeeded <==> g.outcome.Some? && !g.outcome.value.failed)
      && (g.status == Aborted <==> g.cancels == 0 && g.outcome.Some? && g.outcome.value.failed)
      && (g.outcome.Some? ==> g.result == g.outcome.value.result)
      && (g.expired ==> Terminal(g.status))
  {
    EveryInterleaving(events);
  }

  /** The moves of the goal state machine. */
  predicate Moves(a: Status, b: Status) {
    || a == b
    || (a == Executing && (b == Canceling || b == Succeeded || b == Aborted))
    || (a == Canceling && (b == Succeeded || b == Canceled))
  }

  /** One critical section moves a goal along the state machine, and closes done just as it becomes terminal. */
  lemma StatusMoves(s: Server, e: Event, k: nat)
    requires Inv(s) && k < |s.records|
    ensures k < |Step(s, e).records|
    ensures var g, g' := s.records[k], Step(s, e).records[k];
      && g'.id == g.id && g.cancels <= g'.cancels && Moves(g.status, g'.status)
      && (Terminal(g.status) ==> g'.status == g.status && g'.result == g.result && g'.outcome == g.outcome)
      && g'.closes == g.closes + (if !Terminal(g.status) && Terminal(g'.status) then 1 else 0)
  {
  }

  /** What get_result answers once done is closed. */
  function Answer(g: Goal): (Status, Payload) {
    (g.status, g.result)
  }

  /** A terminal goal reads the same for ever. */
  lemma {:induction false} TerminalForever(s: Server, k: nat, events: seq<Event>)
    requires Inv(s) && k < |s.records| && Terminal(s.records[k].status)
    ensures Inv(Steps(s, events)) && k < |Steps(s, events).records|
    ensures Answer(Steps(s, events).records[k]) == Answer(s.records[k]) && Steps(s, events).records[k].closes == 1
  {
    if events != [] {
      var last := |events| - 1;
      TerminalForever(s, k, events[..last]);
      StatusMoves(Steps(s, events[..last]), events[last], k);
      StepKeepsInv(Steps(s, events[..last]), events[last]);
    }
  }

  /** Runs compose. */
  lemma {:induction false} StepsAppend(s: Server, a: seq<Event>, b: seq<Event>)
    ensures Steps(s, a + b) == Steps(Steps(s, a), b)
  {
    if b == [] {
      assert a + b == a;
    } else {
      StepsAppend(s, a, b[..|b| - 1]);
      assert (a + b)[..|a + b| - 1] == a + b[..|b| - 1];
    }
  }

  /** Whoever looks a goal up, whenever, and whenever done lets them read it, they all read the same terminal
      status and result, though the goal may be forgotten by then: b and c are any two moments after a. */
  lemma ResultsAgree(a: seq<Event>, b: seq<Event>, c: seq<Event>, id: Uuid)
    requires id in Steps(NEW_SERVER, a).goals
    ensures var k := Steps(NEW_SERVER, a).goals[id];
      && k < |Steps(NEW_SERVER, a + b).records| && k < |Steps(NEW_SERVER, a + b + c).records|
      && (Steps(NEW_SERVER, a + b).records[k].closes > 0 ==>
          && Terminal(Steps(NEW_SERVER, a + b).records[k].status)
          && Answer(Steps(NEW_SERVER, a + b + c).records[k]) == Answer(Steps(NEW_SERVER, a + b).records[k]))
  {
    EveryInterleaving(a);
    var k := Steps(NEW_SERVER, a).goals[id];
    RecordsStay(Steps(NEW_SERVER, a), b, k);
    StepsAppend(NEW_SERVER, a, b);
    RecordsStay(Steps(NEW_SERVER, a + b), c, k);
    StepsAppend(NEW_SERVER, a + b, c);
    EveryInterleaving(a + b);
    var g := Steps(NEW_SERVER, a + b).records[k];
    if g.closes > 0 {
      assert Agrees(g);
      TerminalForever(Steps(NEW_SERVER, a + b), k, c);
    }
  }

  lemma {:induction false} RecordsStay(s: Server, events: seq<Event>, k: nat)
    requires k < |s.records|
    ensures k < |Steps(s, events).records| && Steps(s, events).records[k].id == s.records[k].id
  {
    if events != [] {
      RecordsStay(s, events[..|events| - 1], k);
    }
  }

  /** A timer forgets its own goal and no other: the id it deletes stands for the record the timer was set for,
      whatever was sent under the same id before; every other known goal stays known. */
  lemma ExpiryForgetsItsOwn(events: seq<Event>, k: nat)
    requires var s := Steps(NEW_SERVER, events);
      k < |s.records| && s.records[k].outcome.Some? && !s.records[k].expired
    ensures var s := Steps(NEW_SERVER, events);
      var id := s.records[k].id;
      && id in s.goals && s.goals[id] == k
      && Step(s, Expire(k)).goals == s.goals - {id}
      && forall other :: other in s.goals && s.goals[other] != k ==> other in Step(s, Expire(k)).goals
  {
    EveryInterleaving(events);
  }

  /** Two goals known at once have different ids, and an unfinished goal is always known. */
  lemma UnfinishedIsKnown(events: seq<Event>, k: nat)
    requires k < |Steps(NEW_SERVER, events).records| && !Terminal(Steps(NEW_SERVER, events).records[k].status)
    ensures var s := Steps(NEW_SERVER, events); s.records[k].id in s.goals && s.goals[s.records[k].id] == k
  {
    EveryInterleaving(events);
    assert Agrees(Steps(NEW_SERVER, events).records[k]);
  }

  /** From an accepted cancel on, a goal can end as CANCELED or SUCCEEDED only, never ABORTED. */
  lemma {:induction false} CancelIsNotLost(s: Server, id: Uuid, k: nat, events: seq<Event>)
    requires Inv(s) && k < |s.records| && Meant(s, id, k) && !Terminal(s.records[k].status)
    ensures var after := Steps(Step(s, Cancel(id)), events);
      && Inv(after) && k < |after.records| && after.records[k].cancels > 0
      && after.records[k].status in {Canceling, Succeeded, Canceled}
  {
    if events == [] {
      StepKeepsInv(s, Cancel(id));
      assert Agrees(Step(s, Cancel(id)).records[k]);
    } else {
      var last := |events| - 1;
      CancelIsNotLost(s, id, k, events[..last]);
      OneMore(Steps(Step(s, Cancel(id)), events[..last]), events[last], k);
    }
  }

  lemma OneMore(s: Server, e: Event, k: nat)
    requires Inv(s) && k < |s.records| && s.records[k].cancels > 0
    ensures var after := Step(s, e);
      && Inv(after) && k < |after.records| && after.records[k].cancels > 0
      && after.records[k].status in {Canceling, Succeeded, Canceled}
  {
    StepKeepsInv(s, e);
    StatusMoves(s, e, k);
    hide Step;
    assert Agrees(Step(s, e).records[k]);
  }

  /** Of the known goals, only those still in rest have not had the cancel request yet. */
  ghost predicate Halfway(before: Server, now: Server, rest: set<Uuid>) {
    && now.goals == before.goals && |now.records| == |before.records|
    && forall k {:trigger now.records[k]} :: 0 <= k < |now.records| ==>
         now.records[k] == if before.records[k].id !in rest && Meant(before, ZERO, k) then
           CanceledOnce(before.records[k]) else before.records[k]
  }

  lemma OneMoreCanceled(before: Server, now: Server, rest: set<Uuid>, g: Uuid)
    requires Inv(before) && Halfway(before, now, rest) && g in rest && g in before.goals
    ensures before.goals[g] < |now.records| && now.records[before.goals[g]] == before.records[before.goals[g]]
    ensures var k := before.goals[g];
      Halfway(before, now.(records := now.records[k := CanceledOnce(now.records[k])]), rest - {g})
  {
    var k := before.goals[g];
    assert before.records[k].id == g;
  }

  lemma SameGoals(before: Server, now: Server, rest: set<Uuid>)
    requires Halfway(before, now, rest)
    ensures now.goals == before.goals && |now.records| == |before.records|
  {
  }

  lemma SendStep(s: Server, id: Uuid)
    ensures Step(s, Send(id)) == if id in s.goals then s
      else Server(s.records + [NewGoal(id)], s.goals[id := |s.records|])
  {
  }

  lemma ExpireStep(s: Server, k: nat)
    requires k < |s.records| && s.records[k].outcome.Some? && !s.records[k].expired
    ensures Step(s, Expire(k)) == Server(s.records[k := s.records[k].(expired := true)], s.goals - {s.records[k].id})
  {
  }

  lemma NoneYet(before: Server)
    ensures Halfway(before, before, before.goals.Keys)
  {
  }

  lemma NoneTwice()
    ensures Distinct<Uuid>([])
  {
  }

  lemma AllCanceled(before: Server, now: Server)
    requires Halfway(before, now, {})
    ensures now == Step(before, Cancel(ZERO))
  {
    assert now.records == Step(before, Cancel(ZERO)).records;
  }

  lemma OneCanceled(before: Server, id: Uuid)
    requires Inv(before) && id != ZERO
    ensures Step(before, Cancel(id)) ==
      if id !in before.goals then before
      else before.(records := before.records[before.goals[id] := CanceledOnce(before.records[before.goals[id]])])
  {
    var after := Step(before, Cancel(id)).records;
    if id in before.goals {
      var k := before.goals[id];
      assert after == before.records[k := CanceledOnce(before.records[k])];
    } else {
      assert after == before.records;
    }
  }

  // ----- the server as the runtime keeps it -----

  class GoalRecord {
    const id: Uuid
    /** Which of all the records ever made this is. */
    ghost const number: nat
    var status: Status
    var result: Payload
    var done: bool
    var canceled: bool
    ghost var closes: nat
    ghost var cancels: nat
    ghost var outcome: Option<Outcome>
    ghost var expired: bool

    ghost function Model(): Goal
      reads this
    {
      Goal(id, status, result, canceled, closes, cancels, outcome, expired)
    }

    constructor (id: Uuid, ghost number: nat)
      ensures Model() == NewGoal(id) && !done && this.number == number
    {
      this.number := number;
      this.id, status, result, done, canceled := id, Executing, "", false, false;
      closes, cancels, outcome, expired := 0, 0, None, false;
    }

    /** A cancel request for this goal: taken up unless the goal is over. */
    method Cancel() returns (taken: bool)
      modifies this
      ensures Model() == CanceledOnce(old(Model())) && done == old(done) && (taken <==> !Terminal(old(status)))
    {
      taken := !Terminal(status);
      if taken {
        status := Canceling;
        canceled := true;
        cancels := cancels + 1;
      }
    }

    /** The end of a goal; closing done twice would stop the program. */
    method End(o: Outcome)
      requires !done
      modifies this
      ensures Model() == Ended(old(Model()), o) && done
    {
      if o.failed && canceled {
        status := Canceled;
      } else if o.failed {
        status := Aborted;
      } else {
        status := Succeeded;
      }
      result := o.result;
      outcome := Some(o);
      done := true;
      closes := closes + 1;
    }
  }

  class ActionServer {
    var goals: map<Uuid, GoalRecord>
    ghost var records: seq<GoalRecord>

    ghost predicate Shape()
      reads this, records
    {
      && (forall k :: 0 <= k < |records| ==> records[k].number == k)
      && (forall k :: 0 <= k < |records| ==> (records[k].done <==> records[k].outcome.Some?))
      && (forall id :: id in goals ==> goals[id] in records)
    }

    ghost predicate Valid()
      reads this, records
    {
      Shape() && Inv(Model())
    }

    ghost function Model(): Server
      requires Shape()
      reads this, records
    {
      Server(seq(|records|, k requires 0 <= k < |records| reads this, records => records[k].Model()),
             map id | id in goals :: goals[id].number)
    }

    constructor ()
      ensures Valid() && Model() == NEW_SERVER
    {
      goals, records := map[], [];
      new;
      assert Model().records == [];
    }

    /** handleSendGoal, up to starting the handler: the new record, or none when the id is taken. */
    method HandleSendGoal(id: Uuid) returns (r: Option<GoalRecord>)
      requires Valid()
      modifies this
      ensures Valid() && Model() == Step(old(Model()), Send(id))
      ensures r.Some? <==> id !in old(goals)
      ensures r.Some? ==> fresh(r.value) && records == old(records) + [r.value] && r.value.id == id && !r.value.done
    {
      hide Inv, Step;
      ghost var before := Model();
      SendStep(before, id);
      StepKeepsInv(before, Send(id));
      if id in goals {
        return None;
      }
      var rec := new GoalRecord(id, |records|);
      Record(rec);
      Enter(rec);
      r := Some(rec);
    }

    ghost method Record(rec: GoalRecord)
      requires Shape() && rec.number == |records| && !rec.done && rec.outcome.None?
      modifies this`records
      ensures Shape() && records == old(records) + [rec]
      ensures Model() == old(Model()).(records := old(Model()).records + [rec.Model()])
    {
      ghost var before := Model();
      records := records + [rec];
      assert Model().records == before.records + [rec.Model()];
    }

    /** Its id stands for it from now on. */
    method Enter(rec: GoalRecord)
      requires Shape() && rec in records
      modifies this`goals
      ensures Shape() && Model() == old(Model()).(goals := old(Model()).goals[rec.id := rec.number])
    {
      ghost var before := Model();
      goals := goals[rec.id := rec];
      assert forall id :: id in goals ==> goals[id] in records;
      assert Model().goals == before.goals[rec.id := rec.number];
    }

    /** The critical section after the handler. */
    method Complete(rec: GoalRecord, o: Outcome)
      requires Valid() && rec in records && !rec.done
      modifies rec
      ensures Valid() && Model() == Step(old(Model()), Event.Complete(rec.number, o)) && rec.done
    {
      ghost var before, k := Model(), rec.number;
      rec.End(o);
      assert Model().records == before.records[k := Ended(before.records[k], o)];
      StepKeepsInv(before, Event.Complete(k, o));
    }

    /** The deferred cancel, when the handler goroutine is over. */
    method Release(rec: GoalRecord)
      requires Valid() && rec in records && rec.done
      modifies rec`canceled
      ensures Valid() && Model() == Step(old(Model()), Event.Release(rec.number))
    {
      hide Inv;
      ghost var before, k := Model(), rec.number;
      rec.canceled := true;
      assert Model().records == before.records[k := before.records[k].(ctxCanceled := true)];
      StepKeepsInv(before, Event.Release(k));
    }

    /** What the timer does, once for each goal: delete whatever its id stands for. */
    method Expire(rec: GoalRecord)
      requires Valid() && rec in records && rec.done && !rec.expired
      modifies this`goals, rec`expired
      ensures Valid() && Model() == Step(old(Model()), Event.Expire(rec.number))
      ensures rec.id in old(goals) && old(goals)[rec.id] == rec
    {
      hide Inv, Step;
      ghost var before, k := Model(), rec.number;
      KnownByItsId(before, k);
      ExpireStep(before, k);
      goals := goals - {rec.id};
      rec.expired := true;
      assert Model().records == before.records[k := before.records[k].(expired := true)];
      assert Model().goals == before.goals - {rec.id};
      StepKeepsInv(before, Event.Expire(k));
    }

    /** handleGetResult, its first half: None is an unknown goal. */
    method LookUp(id: Uuid) returns (r: Option<GoalRecord>)
      requires Valid()
      ensures r.Some? <==> id in Model().goals
      ensures r.Some? ==> r.value in records && r.value.number == Model().goals[id]
    {
      r := if id in goals then Some(goals[id]) else None;
    }

    /** handleGetResult, its second half, once done is closed. */
    method ReadResult(rec: GoalRecord) returns (status: Status, result: Payload)
      requires Valid() && rec in records && rec.done
      ensures (status, result) == Answer(Model().records[rec.number]) && Terminal(status)
    {
      assert Agrees(Model().records[rec.number]);
      status, result := rec.status, rec.result;
    }

    /** One known goal gets a cancel request. */
    method CancelOne(g: Uuid) returns (taken: bool)
      requires Shape() && g in goals
      modifies goals[g]
      ensures Shape()
      ensures taken <==> !Terminal(old(Model()).records[goals[g].number].status)
      ensures var k := goals[g].number;
        Model() == old(Model()).(records := old(Model()).records[k := CanceledOnce(old(Model()).records[k])])
    {
      ghost var before, k := Model(), goals[g].number;
      taken := goals[g].Cancel();
      assert Model().records == before.records[k := CanceledOnce(before.records[k])];
      assert Model().goals == before.goals;
    }

    /** The records that the ids stand for, by number. */
    lemma Known()
      requires Shape()
      ensures |Model().records| == |records| && Model().goals.Keys == goals.Keys
      ensures forall g :: g in goals ==>
        goals[g] in records && goals[g].number < |records| && Model().goals[g] == goals[g].number
    {
    }

    /** The zero id: every goal that is not over. */
    method CancelAll() returns (canceling: seq<Uuid>)
      requires Valid()
      modifies records
      ensures Shape() && Model() == Step(old(Model()), Event.Cancel(ZERO))
      ensures Distinct(canceling)
      ensures forall g :: g in canceling <==>
        g in goals && !Terminal(old(Model()).records[old(Model()).goals[g]].status)
    {
      hide Inv, Step, Distinct, Halfway, CanceledOnce, Terminal, Shape, Model;
      ghost var before := Model();
      Known();
      ghost var now := before;
      canceling := [];
      NoneYet(before);
      NoneTwice();
      var rest := goals.Keys;
      while rest != {}
        invariant rest <= goals.Keys && Shape() && now == Model()
        invariant forall g :: g in goals ==> g in before.goals && before.goals[g] < |before.records|
        invariant Halfway(before, now, rest)
        invariant Distinct(canceling)
        invariant forall g :: g in canceling <==>
          g in goals && g !in rest && !Terminal(before.records[before.goals[g]].status)
        decreases rest
      {
        var g :| g in rest;
        Known();
        OneMoreCanceled(before, now, rest, g);
        SameGoals(before, now, rest);
        var taken := CancelOne(g);
        now := Model();
        rest := rest - {g};
        if taken {
          DistinctSnoc(canceling, g);
          canceling := canceling + [g];
        }
      }
      AllCanceled(before, now);
    }

    /** handleCancel: the return code, and the goals that are canceling now. */
    method HandleCancel(id: Uuid) returns (code: int, canceling: seq<Uuid>)
      requires Valid()
      modifies records
      ensures Valid() && Model() == Step(old(Model()), Event.Cancel(id))
      ensures code == if id == ZERO then 0 else if id !in goals then 2 else if Terminal(old(goals[id].status)) then 3
        else 0
      ensures Distinct(canceling)
      ensures forall g :: g in canceling <==> g in goals && (id == ZERO || g == id) && !Terminal(old(goals[g].status))
    {
      hide Step, Inv;
      ghost var before := Model();
      Known();
      code, canceling := 0, [];
      if id == ZERO {
        canceling := CancelAll();
      } else if id !in goals {
        code := 2;
      } else {
        var taken := CancelOne(id);
        if taken {
          canceling := [id];
        } else {
          code := 3;
        }
      }
      if id != ZERO {
        OneCanceled(before, id);
      }
      StepKeepsInv(before, Event.Cancel(id));
    }
  }
}
