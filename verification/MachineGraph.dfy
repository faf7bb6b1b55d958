/**
 * The static view of a mission in internal/graph/mission.go: which steps can be reached at all, and why
 * that answer covers every run.
 */
module MachineGraph {
  import opened Wrappers
  import opened Sorting
  import opened Missions
  import opened MissionProofs

  datatype MachineStep = MachineStep(name: Name, next: Name, fail: Name, gotos: seq<Name>, reachable: bool)

  /** Everything a step can lead to by its tags and Gotos. */
  ghost function TargetSet(s: MachineStep): set<Name> {
    ({s.next, s.fail} + Elements(s.gotos)) - {""}
  }

  /** Names in the order they first come in, without the empty one. */
  function OnceEach(all: seq<Name>): seq<Name> {
    if all == [] then []
    else
      var out, last := OnceEach(all[..|all| - 1]), all[|all| - 1];
      if last == "" || last in out then out else out + [last]
  }

  lemma {:induction false} OnceEachAre(all: seq<Name>)
    ensures Distinct(OnceEach(all)) && forall n :: n in OnceEach(all) <==> n in all && n != ""
  {
    if all != [] {
      var init, last := all[..|all| - 1], all[|all| - 1];
      OnceEachAre(init);
      assert all == init + [last];
      DistinctSnoc(OnceEach(init), last);
    }
  }

  /** Targets: next, fail and the Gotos, in this order, each once. */
  method Targets(s: MachineStep) returns (out: seq<Name>)
    ensures out == OnceEach([s.next, s.fail] + s.gotos)
    ensures Elements(out) == TargetSet(s) && Distinct(out)
  {
    var all := [s.next, s.fail] + s.gotos;
    out := [];
    for i := 0 to |all|
      invariant out == OnceEach(all[..i])
    {
      assert all[..i + 1][..i] == all[..i];
      if all[i] == "" {
        continue;
      }
      if all[i] !in out {
        out := out + [all[i]];
      }
    }
    assert all[..|all|] == all;
    OnceEachAre(all);
    assert forall n :: n in all <==> n in [s.next, s.fail] || n in s.gotos;
  }

  /** Each name's step: the last one declared with it. */
  ghost predicate IndexOf(g: seq<MachineStep>, index: map<Name, nat>) {
    && (forall n :: n in index ==> index[n] < |g| && g[index[n]].name == n)
    && (forall i :: 0 <= i < |g| ==> g[i].name in index && i <= index[g[i].name])
  }

  ghost predicate Leads(g: seq<MachineStep>, index: map<Name, nat>, a: Name, b: Name)
    requires IndexOf(g, index)
  {
    a in index && b in index && b in TargetSet(g[index[a]])
  }

  ghost predicate ReachIn(g: seq<MachineStep>, index: map<Name, nat>, a: Name, b: Name, k: nat)
    requires IndexOf(g, index)
    decreases k
  {
    if k == 0 then a == b && a in index
    else exists c :: Leads(g, index, a, c) && ReachIn(g, index, c, b, k - 1)
  }

  ghost predicate Reaches(g: seq<MachineStep>, index: map<Name, nat>, a: Name, b: Name)
    requires IndexOf(g, index)
  {
    exists k: nat :: ReachIn(g, index, a, b, k)
  }

  /** Everything v leads to is in seen. */
  ghost predicate Closed(g: seq<MachineStep>, index: map<Name, nat>, v: Name, seen: set<Name>)
    requires IndexOf(g, index)
  {
    forall t :: Leads(g, index, v, t) ==> t in seen
  }

  /** The targets of a step, as far as they are steps, are what it leads to. */
  lemma TargetsLead(g: seq<MachineStep>, index: map<Name, nat>, name: Name, targets: seq<Name>)
    requires IndexOf(g, index) && name in index && Elements(targets) == TargetSet(g[index[name]])
    ensures forall t :: t in index ==> (Leads(g, index, name, t) <==> t in targets)
    ensures forall k :: 0 <= k < |targets| && targets[k] in index ==> Leads(g, index, name, targets[k])
  {
    assert forall t :: t in targets <==> t in Elements(targets);
  }

  lemma ClosedMore(g: seq<MachineStep>, index: map<Name, nat>, v: Name, seen: set<Name>, more: set<Name>)
    requires IndexOf(g, index) && Closed(g, index, v, seen) && seen <= more
    ensures Closed(g, index, v, more)
  {
  }

  lemma AllSeen(g: seq<MachineStep>, index: map<Name, nat>, name: Name, targets: seq<Name>, seen: set<Name>)
    requires IndexOf(g, index) && forall t :: t in index ==> (Leads(g, index, name, t) <==> t in targets)
    requires forall k :: 0 <= k < |targets| && targets[k] in index ==> targets[k] in seen
    ensures Closed(g, index, name, seen)
  {
  }

  lemma LeadsReach(g: seq<MachineStep>, index: map<Name, nat>, a: Name, b: Name, c: Name)
    requires IndexOf(g, index) && Leads(g, index, a, b) && Reaches(g, index, b, c)
    ensures Reaches(g, index, a, c)
  {
    var k: nat :| ReachIn(g, index, b, c, k);
    assert ReachIn(g, index, a, c, k + 1);
  }

  lemma {:induction false} ClosedReach(g: seq<MachineStep>, index: map<Name, nat>, a: Name, b: Name, k: nat,
      seen: set<Name>)
    requires IndexOf(g, index) && a in seen && ReachIn(g, index, a, b, k)
    requires forall v :: v in seen ==> Closed(g, index, v, seen)
    ensures b in seen
    decreases k
  {
    if k > 0 {
      var c :| Leads(g, index, a, c) && ReachIn(g, index, c, b, k - 1);
      ClosedReach(g, index, c, b, k - 1, seen);
    }
  }

  /** marked is g with exactly the steps reachable from start marked, over and above those already marked. */
  ghost predicate MarksReachable(g: seq<MachineStep>, index: map<Name, nat>, start: Name, marked: seq<MachineStep>)
    requires IndexOf(g, index)
  {
    |marked| == |g| && forall i :: 0 <= i < |g| ==>
      marked[i] == g[i].(reachable := g[i].reachable || (index[g[i].name] == i && Reaches(g, index, start, g[i].name)))
  }

  class Graph {
    const start: Name
    var steps: seq<MachineStep>

    constructor (start: Name, steps: seq<MachineStep>)
      ensures this.start == start && this.steps == steps
    {
      this.start := start;
      this.steps := steps;
    }

    /** Nothing but the marks differs from g, and step i is marked if it was or if its name is in fresh. */
    ghost predicate Marked(g: seq<MachineStep>, index: map<Name, nat>, seen: set<Name>)
      requires IndexOf(g, index)
      reads this
    {
      |steps| == |g| && forall i :: 0 <= i < |g| ==>
        steps[i] == g[i].(reachable := g[i].reachable || (g[i].name in seen && index[g[i].name] == i))
    }

    method Mark(ghost g: seq<MachineStep>, index: map<Name, nat>, ghost seen: set<Name>, name: Name)
        returns (targets: seq<Name>)
      requires IndexOf(g, index) && name in index && seen <= index.Keys && Marked(g, index, seen)
      modifies this
      ensures Marked(g, index, seen + {name}) && Elements(targets) == TargetSet(g[index[name]])
    {
      hide Distinct, Elements;
      var i := index[name];
      steps := steps[i := steps[i].(reachable := true)];
      targets := Targets(steps[i]);
    }

    /** The inner walk of markReachable: marks what can be reached from name without passing what was seen. */
    method Walk(ghost g: seq<MachineStep>, index: map<Name, nat>, seen: set<Name>, name: Name)
        returns (seen': set<Name>)
      requires IndexOf(g, index) && seen <= index.Keys
      requires Marked(g, index, seen)
      modifies this
      ensures Marked(g, index, seen')
      ensures seen <= seen' <= index.Keys && (name in index ==> name in seen')
      ensures forall v :: v in seen' && v !in seen ==> Closed(g, index, v, seen') && Reaches(g, index, name, v)
      decreases index.Keys - seen
    {
      hide Reaches, Leads, Closed, ReachIn, Distinct, Elements;
      if name !in index || name in seen {
        return seen;
      }
      seen' := seen + {name};
      var targets := Mark(g, index, seen, name);
      TargetsLead(g, index, name, targets);
      ReachesSelf(g, index, name);
      for j := 0 to |targets|
        invariant Marked(g, index, seen')
        invariant seen + {name} <= seen' <= index.Keys
        invariant AllReached(g, index, name, seen, seen')
        invariant forall k :: 0 <= k < j && targets[k] in index ==> targets[k] in seen'
      {
        hide Marked, AllReached;
        ghost var before := seen';
        seen' := Walk(g, index, seen', targets[j]);
        ReachedMore(g, index, name, targets[j], seen, before, seen');
      }
      AllSeen(g, index, name, targets, seen');
    }

    /** What was seen on the way is reached from name, and but for name itself leads only to what was seen. */
    static ghost predicate AllReached(g: seq<MachineStep>, index: map<Name, nat>, name: Name, seen: set<Name>,
        seen': set<Name>)
      requires IndexOf(g, index)
    {
      forall v :: v in seen' && v !in seen ==>
        Reaches(g, index, name, v) && (v != name ==> Closed(g, index, v, seen'))
    }

    static lemma ReachedMore(g: seq<MachineStep>, index: map<Name, nat>, name: Name, target: Name, seen: set<Name>,
        before: set<Name>, seen': set<Name>)
      requires IndexOf(g, index) && AllReached(g, index, name, seen, before) && before <= seen' <= index.Keys
      requires name in index && (target in index ==> Leads(g, index, name, target))
      requires forall v :: v in seen' && v !in before ==> Closed(g, index, v, seen') && Reaches(g, index, target, v)
      ensures AllReached(g, index, name, seen, seen')
    {
      hide Reaches, Leads, Closed;
      forall v | v in seen' && v !in before ensures Reaches(g, index, name, v) {
        ReachesDeclared(g, index, target, v);
        LeadsReach(g, index, name, target, v);
      }
      forall v | v in before && v !in seen && v != name ensures Closed(g, index, v, seen') {
        ClosedMore(g, index, v, before, seen');
      }
    }

    /** markReachable: marks exactly the steps that some path leads to from the start. */
    method MarkReachable()
      modifies this
      ensures forall index :: IndexOf(old(steps), index) ==> MarksReachable(old(steps), index, start, steps)
    {
      ghost var g := steps;
      var index: map<Name, nat> := map[];
      for i := 0 to |steps|
        invariant steps == g && IndexOf(g[..i], index)
      {
        assert g[..i + 1] == g[..i] + [g[i]];
        index := index[steps[i].name := i];
      }
      assert g[..|g|] == g;
      var seen := Walk(g, index, {}, start);
      forall index' | IndexOf(g, index') ensures index' == index {
        IndexUnique(g, index, index');
      }
      forall i | 0 <= i < |g| ensures g[i].name in seen <==> Reaches(g, index, start, g[i].name) {
        if Reaches(g, index, start, g[i].name) {
          var k: nat :| ReachIn(g, index, start, g[i].name, k);
          ReachesDeclared(g, index, start, g[i].name);
          ClosedReach(g, index, start, g[i].name, k, seen);
        }
      }
    }
  }

  lemma ReachesDeclared(g: seq<MachineStep>, index: map<Name, nat>, a: Name, b: Name)
    requires IndexOf(g, index) && Reaches(g, index, a, b)
    ensures a in index
  {
    var k: nat :| ReachIn(g, index, a, b, k);
  }

  lemma IndexUnique(g: seq<MachineStep>, index: map<Name, nat>, index': map<Name, nat>)
    requires IndexOf(g, index) && IndexOf(g, index')
    ensures index == index'
  {
    forall n ensures n in index <==> n in index' {
      if n in index {
        assert g[index[n]].name == n;
      }
      if n in index' {
        assert g[index'[n]].name == n;
      }
    }
    forall n | n in index ensures index[n] == index'[n] {
      assert g[index[n]].name == n && g[index'[n]].name == n;
    }
  }

  // ----- the static answer covers every run -----

  /** The static analysis and the runtime read the same declaration. */
  ghost predicate Mirrors(g: seq<MachineStep>, m: Machine) {
    && (forall i, j :: 0 <= i < j < |g| ==> g[i].name != g[j].name)
    && (forall i :: 0 <= i < |g| ==>
          g[i].name in m.steps && m.steps[g[i].name].next == g[i].next && m.steps[g[i].name].fail == g[i].fail)
    && (forall n :: n in m.steps ==> n != "" && exists i :: 0 <= i < |g| && g[i].name == n)
  }

  /** The Gotos the static analysis found written in the handlers. */
  ghost function ListedGotos(g: seq<MachineStep>, index: map<Name, nat>): map<Name, set<Name>>
    requires IndexOf(g, index)
  {
    map n | n in index :: Elements(g[index[n]].gotos)
  }

  // ----- both from one declaration -----

  /** A step as it is declared: the field and its tags. */
  datatype StepField = StepField(field: string, tags: StepTags)

  /** A call with literal arguments, and the method it is written in. */
  datatype Call = Call(callee: string, inside: string, args: seq<Name>)

  function TagsOf(fields: seq<StepField>): (r: seq<StepTags>)
    ensures |r| == |fields| && forall i :: 0 <= i < |r| ==> r[i] == fields[i].tags
  {
    seq(|fields|, i requires 0 <= i < |fields| => fields[i].tags)
  }

  /** A Goto written in the handler of that field. */
  predicate IsGoto(c: Call, field: string) {
    c.callee == "Goto" && c.inside == "On" + field && |c.args| == 1
  }

  ghost predicate Written(calls: seq<Call>, field: string, t: Name) {
    exists c :: c in calls && IsGoto(c, field) && c.args[0] == t
  }

  /** gotoTargets: what the handler of a step is written to go to, each once. */
  method GotoTargets(calls: seq<Call>, field: string) returns (out: seq<Name>)
    ensures Distinct(out) && forall t :: t in out <==> Written(calls, field, t)
  {
    hide IsGoto;
    out := [];
    for i := 0 to |calls|
      invariant Distinct(out) && forall t :: t in out <==> Written(calls[..i], field, t)
    {
      WrittenSnoc(calls, field, i);
      if IsGoto(calls[i], field) {
        var t := Argument(calls[i], field);
        DistinctSnoc(out, t);
        if t !in out {
          out := out + [t];
        }
      }
    }
    assert calls[..|calls|] == calls;
  }

  function Argument(c: Call, field: string): Name
    requires IsGoto(c, field)
  {
    c.args[0]
  }

  lemma WrittenSnoc(calls: seq<Call>, field: string, i: nat)
    requires i < |calls|
    ensures forall t :: Written(calls[..i + 1], field, t) <==>
      Written(calls[..i], field, t) || (IsGoto(calls[i], field) && Argument(calls[i], field) == t)
  {
    assert calls[..i + 1] == calls[..i] + [calls[i]];
    forall t | Written(calls[..i], field, t) ensures Written(calls[..i + 1], field, t) {
      var c :| c in calls[..i] && IsGoto(c, field) && c.args[0] == t;
      assert c in calls[..i + 1];
    }
    assert calls[i] in calls[..i + 1];
  }

  ghost predicate Resolves(f: StepField, calls: seq<Call>, s: MachineStep) {
    && s.name == f.tags.name && s.next == Bind(f.tags).next && s.fail == f.tags.fail && !s.reachable
    && Distinct(s.gotos) && forall t :: t in s.gotos <==> Written(calls, f.field, t)
  }

  ghost predicate AllResolve(fields: seq<StepField>, calls: seq<Call>, g: seq<MachineStep>) {
    |g| == |fields| && forall i :: 0 <= i < |g| ==> Resolves(fields[i], calls, g[i])
  }

  /** Machines, for one node: its steps resolved, and marked from the start. */
  method Resolve(start: Name, fields: seq<StepField>, calls: seq<Call>)
      returns (machine: Graph, ghost g: seq<MachineStep>)
    ensures fresh(machine) && machine.start == start && AllResolve(fields, calls, g)
    ensures forall index :: IndexOf(g, index) ==> MarksReachable(g, index, start, machine.steps)
  {
    hide Resolves, MarksReachable, IndexOf;
    var steps: seq<MachineStep> := [];
    for i := 0 to |fields|
      invariant |steps| == i && forall j :: 0 <= j < i ==> Resolves(fields[j], calls, steps[j])
    {
      var s := ResolveStep(fields[i], calls);
      steps := steps + [s];
    }
    g := steps;
    machine := new Graph(start, steps);
    machine.MarkReachable();
  }

  method ResolveStep(f: StepField, calls: seq<Call>) returns (s: MachineStep)
    ensures Resolves(f, calls, s)
  {
    var next := f.tags.next;
    if next == "" {
      next := DONE;
    }
    var gotos := GotoTargets(calls, f.field);
    s := MachineStep(f.tags.name, next, f.tags.fail, gotos, false);
  }

  /** What the runtime wires and what the analysis resolves mirror each other. */
  lemma WiredMirrors(fields: seq<StepField>, calls: seq<Call>, g: seq<MachineStep>, m: Machine, start: Name)
    requires DistinctSteps(TagsOf(fields)) && Wired(m, TagsOf(fields), start) && AllResolve(fields, calls, g)
    requires forall i :: 0 <= i < |fields| ==> fields[i].tags.name != ""
    ensures Mirrors(g, m)
  {
    var tags := TagsOf(fields);
    forall i | 0 <= i < |g|
      ensures g[i].name == tags[i].name && g[i].name in m.steps
      ensures m.steps[g[i].name].next == g[i].next && m.steps[g[i].name].fail == g[i].fail
    {
      StepMirrors(fields, calls, g, m, start, i);
    }
    hide AllResolve;
    forall n | n in m.steps ensures n != "" && exists i :: 0 <= i < |g| && g[i].name == n {
      var i := DeclaredAt(tags, m, start, n);
      assert g[i].name == n;
    }
    hide Wired;
  }

  lemma DeclaredAt(tags: seq<StepTags>, m: Machine, start: Name, n: Name) returns (i: nat)
    requires Wired(m, tags, start) && n in m.steps
    ensures i < |tags| && tags[i].name == n
  {
    assert Declared(tags, n);
    i :| 0 <= i < |tags| && tags[i].name == n;
  }

  lemma StepMirrors(fields: seq<StepField>, calls: seq<Call>, g: seq<MachineStep>, m: Machine, start: Name, i: nat)
    requires Wired(m, TagsOf(fields), start) && AllResolve(fields, calls, g) && i < |g|
    ensures g[i].name == TagsOf(fields)[i].name && g[i].name in m.steps
    ensures m.steps[g[i].name].next == g[i].next && m.steps[g[i].name].fail == g[i].fail
  {
    hide Written;
    assert Resolves(fields[i], calls, g[i]);
    assert TagsOf(fields)[i].name in m.steps && m.steps[TagsOf(fields)[i].name] == Bind(TagsOf(fields)[i]);
  }

  /** A mission that the runtime accepts and whose written Gotos are all declared: if its handlers perform only those,
      every step that any run enters is one the analysis marks, and no run fails for want of a step. */
  lemma DeclarationSound(fields: seq<StepField>, calls: seq<Call>, g: seq<MachineStep>, index: map<Name, nat>,
                         marked: seq<MachineStep>, m: Machine, start: Name, events: seq<Event>)
    requires WellWired(TagsOf(fields), start) && Wired(m, TagsOf(fields), start)
    requires forall i :: 0 <= i < |fields| ==> fields[i].tags.name != ""
    requires AllResolve(fields, calls, g) && IndexOf(g, index) && MarksReachable(g, index, start, marked)
    requires forall i, t :: 0 <= i < |fields| && Written(calls, fields[i].field, t) ==>
      Declared(TagsOf(fields), t) || Terminal(t)
    requires GotosWithin(ListedGotos(g, index), RunAll(m, INITIAL, events).history)
    ensures var r := RunAll(m, INITIAL, events);
      && (forall i :: 0 <= i < |r.history| ==> MarkedIn(marked, r.history[i].step))
      && (r.status == Broken ==> Lead(m, r.history).Some?)
      && (r.status == Broken && Lead(m, r.history).value.Stop? ==> r.err.Some? && r.err.value.StepError?)
  {
    hide *;
    WellWiredSays(TagsOf(fields), start);
    WiredMirrors(fields, calls, g, m, start);
    WiredIsSound(m, TagsOf(fields), start);
    GotosDeclared(fields, calls, g, m, start);
    StaticSoundness(g, index, m, events);
    StartOf(m, TagsOf(fields), start);
    var r := RunAll(m, INITIAL, events);
    forall i | 0 <= i < |r.history| ensures MarkedIn(marked, r.history[i].step) {
      IsMarked(g, index, start, marked, r.history[i].step);
    }
  }

  lemma WellWiredSays(tags: seq<StepTags>, start: Name)
    requires WellWired(tags, start)
    ensures DistinctSteps(tags)
  {
  }

  ghost predicate MarkedIn(marked: seq<MachineStep>, n: Name) {
    exists j :: 0 <= j < |marked| && marked[j].name == n && marked[j].reachable
  }

  lemma StartOf(m: Machine, tags: seq<StepTags>, start: Name)
    requires Wired(m, tags, start)
    ensures m.start == start
  {
  }

  lemma IsMarked(g: seq<MachineStep>, index: map<Name, nat>, start: Name, marked: seq<MachineStep>, n: Name)
    requires IndexOf(g, index) && MarksReachable(g, index, start, marked) && n in index && Reaches(g, index, start, n)
    ensures MarkedIn(marked, n)
  {
    hide Reaches;
    var j := index[n];
    assert g[j].name == n;
    assert marked[j].name == n && marked[j].reachable;
  }

  lemma GotosDeclared(fields: seq<StepField>, calls: seq<Call>, g: seq<MachineStep>, m: Machine, start: Name)
    requires Wired(m, TagsOf(fields), start) && AllResolve(fields, calls, g)
    requires forall i, t :: 0 <= i < |fields| && Written(calls, fields[i].field, t) ==>
      Declared(TagsOf(fields), t) || Terminal(t)
    ensures forall i, t :: 0 <= i < |g| && t in g[i].gotos ==> t in m.steps || Terminal(t)
  {
    hide Written, Declared;
    forall i, t | 0 <= i < |g| && t in g[i].gotos ensures t in m.steps || Terminal(t) {
      assert Resolves(fields[i], calls, g[i]);
      assert Written(calls, fields[i].field, t);
    }
  }

  /** If handlers only perform Gotos the static analysis lists, no run enters a step it would not mark. */
  lemma {:induction false} EntersOnlyReachable(g: seq<MachineStep>, index: map<Name, nat>, m: Machine, h: seq<Entry>,
      i: nat)
    requires IndexOf(g, index) && Mirrors(g, m) && Walk(m, h)
    requires GotosWithin(ListedGotos(g, index), h)
    requires i < |h|
    ensures h[i].step in index && Reaches(g, index, m.start, h[i].step)
    decreases i
  {
    hide IndexOf, Mirrors, ReachIn, Reaches, Called, Follows, GotosWithin, ListedGotos;
    assert Called(m, h[i]);
    CalledDeclared(g, index, m, h[i]);
    if i == 0 {
      ReachesSelf(g, index, m.start);
    } else {
      EntersOnlyReachable(g, index, m, h, i - 1);
      assert Called(m, h[i - 1]) && Follows(m, h[i - 1], h[i]);
      GotosAt(ListedGotos(g, index), h, i - 1);
      NextReachable(g, index, m, h[i - 1], h[i]);
    }
  }

  lemma CalledDeclared(g: seq<MachineStep>, index: map<Name, nat>, m: Machine, e: Entry)
    requires IndexOf(g, index) && Mirrors(g, m) && Called(m, e)
    ensures e.step in index
  {
    DeclaredIndex(g, index, m, e.step);
  }

  lemma ReachesSelf(g: seq<MachineStep>, index: map<Name, nat>, n: Name)
    requires IndexOf(g, index) && n in index
    ensures Reaches(g, index, n, n)
  {
    assert ReachIn(g, index, n, n, 0);
  }

  lemma GotosAt(gotos: map<Name, set<Name>>, h: seq<Entry>, i: nat)
    requires GotosWithin(gotos, h) && i < |h|
    ensures GotosWithin(gotos, [h[i]])
  {
  }

  /** A call and the one that follows it. */
  lemma NextReachable(g: seq<MachineStep>, index: map<Name, nat>, m: Machine, a: Entry, b: Entry)
    requires IndexOf(g, index) && Mirrors(g, m) && Called(m, a) && Called(m, b) && Follows(m, a, b)
    requires GotosWithin(ListedGotos(g, index), [a]) && Reaches(g, index, m.start, a.step)
    ensures Reaches(g, index, m.start, b.step)
  {
    hide ReachIn, Reaches, Follows, GotosWithin, Mirrors;
    FollowsEdge(m, ListedGotos(g, index), a, b);
    DeclaredIndex(g, index, m, a.step);
    DeclaredIndex(g, index, m, b.step);
    if b.attempt == 1 {
      assert Leads(g, index, a.step, b.step);
      ReachSnoc(g, index, m.start, a.step, b.step);
    }
  }

  lemma DeclaredIndex(g: seq<MachineStep>, index: map<Name, nat>, m: Machine, n: Name)
    requires IndexOf(g, index) && Mirrors(g, m) && n in m.steps
    ensures n in index && g[index[n]].next == m.steps[n].next && g[index[n]].fail == m.steps[n].fail && n != ""
  {
  }

  lemma ReachSnoc(g: seq<MachineStep>, index: map<Name, nat>, a: Name, b: Name, c: Name)
    requires IndexOf(g, index) && Reaches(g, index, a, b) && Leads(g, index, b, c)
    ensures Reaches(g, index, a, c)
  {
    var k: nat :| ReachIn(g, index, a, b, k);
    ReachInSnoc(g, index, a, b, c, k);
  }

  lemma {:induction false} ReachInSnoc(g: seq<MachineStep>, index: map<Name, nat>, a: Name, b: Name, c: Name, k: nat)
    requires IndexOf(g, index) && ReachIn(g, index, a, b, k) && Leads(g, index, b, c)
    ensures ReachIn(g, index, a, c, k + 1)
    decreases k
  {
    if k == 0 {
      assert ReachIn(g, index, c, c, 0);
    } else {
      var d :| Leads(g, index, a, d) && ReachIn(g, index, d, b, k - 1);
      ReachInSnoc(g, index, d, b, c, k - 1);
    }
  }

  /** A mission the static analysis passes without an unreachable or undeclared step, run anyhow: every call is of a
      reachable step, and the run never fails for want of a step. */
  lemma StaticSoundness(g: seq<MachineStep>, index: map<Name, nat>, m: Machine, events: seq<Event>)
    requires IndexOf(g, index) && Mirrors(g, m) && Sound(m)
    requires GotosWithin(ListedGotos(g, index), RunAll(m, INITIAL, events).history)
    requires forall i, t :: 0 <= i < |g| && t in g[i].gotos ==> t in m.steps || Terminal(t)
    ensures var r := RunAll(m, INITIAL, events);
      && (forall i :: 0 <= i < |r.history| ==>
        r.history[i].step in index && Reaches(g, index, m.start, r.history[i].step))
      && (r.thread.Top? ==> r.thread.step in m.steps || Terminal(r.thread.step))
      && (r.status == Broken ==> Lead(m, r.history).Some?)
      && (r.status == Broken && Lead(m, r.history).value.Stop? ==> r.err.Some? && r.err.value.StepError?)
  {
    hide RunAll, Walk, Sound, IndexOf, Mirrors, Reaches, GotosWithin, Verdict, Lead;
    var r := RunAll(m, INITIAL, events);
    EveryRunIsAWalk(m, events);
    NeverLost(m, events);
    forall i | 0 <= i < |r.history|
      ensures r.history[i].step in index && Reaches(g, index, m.start, r.history[i].step)
    {
      EntersOnlyReachable(g, index, m, r.history, i);
    }
    NoBadGoto(g, index, m, r);
  }

  /** With listed Gotos all declared, what stops a run is a step's own error. */
  lemma NoBadGoto(g: seq<MachineStep>, index: map<Name, nat>, m: Machine, r: Run)
    requires IndexOf(g, index) && Mirrors(g, m) && Inv(m, r)
    requires GotosWithin(ListedGotos(g, index), r.history)
    requires forall i, t :: 0 <= i < |g| && t in g[i].gotos ==> t in m.steps || Terminal(t)
    ensures r.status == Broken && Lead(m, r.history).Some? && Lead(m, r.history).value.Stop? ==>
      r.err.Some? && r.err.value.StepError?
  {
    hide Walk, Mirrors, GotosWithin, Called;
    if r.status == Broken && r.history != [] && Lead(m, r.history).Some? && Lead(m, r.history).value.Stop? {
      var h := r.history;
      LastCalled(m, h);
      GotosAt(ListedGotos(g, index), h, |h| - 1);
      StopsByItself(g, index, m, h[|h| - 1]);
    }
  }

  lemma StopsByItself(g: seq<MachineStep>, index: map<Name, nat>, m: Machine, e: Entry)
    requires IndexOf(g, index) && Mirrors(g, m) && Called(m, e) && GotosWithin(ListedGotos(g, index), [e])
    requires forall i, t :: 0 <= i < |g| && t in g[i].gotos ==> t in m.steps || Terminal(t)
    requires e.outcome.Some? && After(m, e, e.outcome.value).Stop?
    ensures After(m, e, e.outcome.value).err.StepError?
  {
    DeclaredIndex(g, index, m, e.step);
    hide Mirrors;
    assert [e][0] == e;
  }
}
