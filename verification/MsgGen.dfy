/**
 * Interface descriptions, internal/msggen: a type with every type it refers to, directly or not, which is what
 * its RIHS01 hash is computed from.
 */
module MsgGen {
  import opened Wrappers
  import opened Sorting

  datatype Kind = Scalar | Array | BoundedSeq | UnboundedSeq

  /** A field's type; nested is the full name of a message type, or empty for a built-in one. */
  datatype FieldType = FieldType(kind: Kind, builtin: string, nested: string, strCapacity: int, capacity: int)

  datatype Field = Field(name: string, ty: FieldType)

  datatype Message = Message(name: string, fields: seq<Field>)

  datatype Service = Service(name: string, request: Message, response: Message, event: Message)

  datatype Action = Action(
    name: string, goal: Message, result: Message, feedback: Message,
    sendGoal: Service, getResult: Service, feedbackMessage: Message)

  /** One type in the form that is hashed. */
  datatype DescField = DescField(name: string, typeID: int, capacity: int, stringCapacity: int, nested: string)

  datatype Individual = Individual(typeName: string, fields: seq<DescField>)

  datatype TypeDescription = TypeDescription(individual: Individual, referenced: seq<Individual>)

  // ----- type ids -----

  const ID_NESTED := 1
  const ID_BOUNDED_STRING := 21

  /** Ids of built-in types; 0 is what an unknown name gets. */
  function BuiltinID(name: string): int {
    if name == "int8" then 2 else if name == "uint8" then 3
    else if name == "int16" then 4 else if name == "uint16" then 5
    else if name == "int32" then 6 else if name == "uint32" then 7
    else if name == "int64" then 8 else if name == "uint64" then 9
    else if name == "float32" then 10 else if name == "float64" then 11
    else if name == "bool" then 15 else if name == "byte" then 16
    else if name == "string" then 17 else if name == "wstring" then 18
    else 0
  }

  function Offset(kind: Kind): int {
    match kind
    case Scalar => 0
    case Array => 48
    case BoundedSeq => 96
    case UnboundedSeq => 144
  }

  function TypeID(ft: FieldType): int {
    var base := if ft.nested != "" then ID_NESTED else if ft.strCapacity > 0 then ID_BOUNDED_STRING
      else BuiltinID(ft.builtin);
    base + Offset(ft.kind)
  }

  /** What a type is made of, apart from its container. */
  datatype Base = Nested | BoundedString | Builtin(name: string) | Unknown

  function BaseOf(ft: FieldType): Base {
    if ft.nested != "" then Nested
    else if ft.strCapacity > 0 then BoundedString
    else if BuiltinID(ft.builtin) != 0 then Builtin(ft.builtin)
    else Unknown
  }

  lemma BuiltinIDs(a: string, b: string)
    ensures 0 <= BuiltinID(a) <= 18 && BuiltinID(a) != ID_NESTED
    ensures BuiltinID(a) == BuiltinID(b) && BuiltinID(a) != 0 ==> a == b
  {
  }

  /** A type id tells the container and the base apart from all others. */
  lemma TypeIDInjective(a: FieldType, b: FieldType)
    ensures TypeID(a) == TypeID(b) <==> a.kind == b.kind && BaseOf(a) == BaseOf(b)
  {
    hide BuiltinID;
    BuiltinIDs(a.builtin, b.builtin);
    BuiltinIDs(b.builtin, a.builtin);
  }

  // ----- individuals -----

  function DescOf(f: Field): DescField {
    DescField(f.name, TypeID(f.ty), f.ty.capacity, f.ty.strCapacity, f.ty.nested)
  }

  function Described(m: Message): Individual {
    Individual(m.name, seq(|m.fields|, i requires 0 <= i < |m.fields| => DescOf(m.fields[i])))
  }

  method IndividualOf(m: Message) returns (ind: Individual)
    ensures ind == Described(m)
    ensures ind.typeName == m.name && |ind.fields| == |m.fields|
    ensures forall i :: 0 <= i < |m.fields| ==>
      && ind.fields[i].name == m.fields[i].name && ind.fields[i].typeID == TypeID(m.fields[i].ty)
      && ind.fields[i].capacity == m.fields[i].ty.capacity
      && ind.fields[i].stringCapacity == m.fields[i].ty.strCapacity && ind.fields[i].nested == m.fields[i].ty.nested
  {
    var fields := [];
    for i := 0 to |m.fields|
      invariant fields == Described(m).fields[..i]
    {
      var f := m.fields[i];
      fields := fields + [DescField(f.name, TypeID(f.ty), f.ty.capacity, f.ty.strCapacity, f.ty.nested)];
    }
    ind := Individual(m.name, fields);
  }

  function NestedField(name: string, of: string): DescField {
    DescField(name, ID_NESTED, 0, 0, of)
  }

  function ServiceIndividual(s: Service): Individual {
    Individual(s.name, [
      NestedField("request_message", s.request.name),
      NestedField("response_message", s.response.name),
      NestedField("event_message", s.event.name)])
  }

  function ActionIndividual(a: Action): Individual {
    Individual(a.name, [
      NestedField("goal", a.goal.name), NestedField("result", a.result.name), NestedField("feedback", a.feedback.name),
      NestedField("send_goal_service", a.sendGoal.name), NestedField("get_result_service", a.getResult.name),
      NestedField("feedback_message", a.feedbackMessage.name)])
  }

  /** The types an individual refers to itself. */
  ghost predicate RefersTo(ind: Individual, name: string) {
    name != "" && exists i :: 0 <= i < |ind.fields| && ind.fields[i].nested == name
  }

  // ----- references of references -----

  type Graph = map<string, Individual>

  /** Each name on the path is a type of g that refers to the next; the first is one that ind refers to. */
  ghost predicate Path(g: Graph, ind: Individual, p: seq<string>) {
    && p != [] && RefersTo(ind, p[0])
    && forall i :: 0 < i < |p| ==> LinkTo(g, p, i)
  }

  ghost predicate LinkTo(g: Graph, p: seq<string>, i: nat)
    requires 0 < i < |p|
  {
    p[i - 1] in g && RefersTo(g[p[i - 1]], p[i])
  }

  ghost predicate PathTo(g: Graph, ind: Individual, p: seq<string>, name: string) {
    Path(g, ind, p) && p[|p| - 1] == name
  }

  ghost predicate Reaches(g: Graph, ind: Individual, name: string) {
    exists p :: PathTo(g, ind, p, name)
  }

  lemma ReachesDirectly(g: Graph, ind: Individual, name: string)
    requires RefersTo(ind, name)
    ensures Reaches(g, ind, name)
  {
    assert PathTo(g, ind, [name], name);
  }

  lemma ReachesThrough(g: Graph, ind: Individual, via: string, name: string)
    requires RefersTo(ind, via) && via in g && Reaches(g, g[via], name)
    ensures Reaches(g, ind, name)
  {
    var p :| PathTo(g, g[via], p, name);
    var q := [via] + p;
    forall i | 0 < i < |q| ensures LinkTo(g, q, i) {
      if i > 1 {
        assert LinkTo(g, p, i - 1);
      }
    }
    assert PathTo(g, ind, q, name);
  }

  /** Whatever the types in refs refer to is in refs too, except where their turn is still to come. */
  ghost predicate Closed(refs: Graph, open: set<string>) {
    forall k, name :: k in refs && k !in open && RefersTo(refs[k], name) ==> name in refs
  }

  ghost predicate Within(refs: Graph, g: Graph) {
    forall k :: k in refs ==> k in g && refs[k] == g[k]
  }

  ghost predicate Covers(refs: Graph, ind: Individual) {
    forall name :: RefersTo(ind, name) ==> name in refs
  }

  lemma {:induction false} ClosedHasPath(refs: Graph, g: Graph, ind: Individual, p: seq<string>)
    requires Within(refs, g) && Closed(refs, {}) && Covers(refs, ind) && Path(g, ind, p)
    ensures p[|p| - 1] in refs
  {
    if |p| > 1 {
      var init := p[..|p| - 1];
      forall i | 0 < i < |init| ensures LinkTo(g, init, i) {
        assert LinkTo(g, p, i);
      }
      ClosedHasPath(refs, g, ind, init);
      assert LinkTo(g, p, |p| - 1);
    }
  }

  /** A closed part of the graph has all that can be reached. */
  lemma ClosedHasAll(refs: Graph, g: Graph, ind: Individual)
    requires Within(refs, g) && Closed(refs, {}) && Covers(refs, ind)
    ensures forall name :: Reaches(g, ind, name) ==> name in refs
  {
    forall name | Reaches(g, ind, name) ensures name in refs {
      var p :| PathTo(g, ind, p, name);
      ClosedHasPath(refs, g, ind, p);
    }
  }

  /** From before to after, only types were added, and only ones that ind reaches. */
  ghost predicate Grown(g: Graph, ind: Individual, before: Graph, after: Graph) {
    && (forall k :: k in before ==> k in after && after[k] == before[k])
    && (forall k :: k in after && k !in before ==> Reaches(g, ind, k))
  }

  /** What can be resolved: messages by name, those that services and actions are made of included. */
  datatype World = World(known: map<string, Message>, services: map<string, Service>, actions: map<string, Action>)

  ghost predicate HasService(w: World, s: Service) {
    s.name in w.services && w.services[s.name] == s
  }

  ghost predicate HasMessage(w: World, m: Message) {
    m.name in w.known && w.known[m.name] == m
  }

  /** Definitions go by their own names, bring what they are made of, and have fields of message types only. */
  ghost predicate Sound(w: World) {
    && (forall n :: n in w.known ==> n != "" && w.known[n].name == n && n !in w.services)
    && (forall n, name :: n in w.known && RefersTo(Described(w.known[n]), name) ==> name !in w.services)
    && (forall n :: n in w.services ==> n != "" && SoundService(w, n))
    && (forall n :: n in w.actions ==> SoundAction(w, n))
  }

  ghost predicate SoundService(w: World, n: string)
    requires n in w.services
  {
    var s := w.services[n];
    s.name == n && HasMessage(w, s.request) && HasMessage(w, s.response) && HasMessage(w, s.event)
  }

  ghost predicate SoundAction(w: World, n: string)
    requires n in w.actions
  {
    var a := w.actions[n];
    && a.name == n && HasMessage(w, a.goal) && HasMessage(w, a.result) && HasMessage(w, a.feedback)
    && HasMessage(w, a.feedbackMessage) && HasService(w, a.sendGoal) && HasService(w, a.getResult)
  }

  /** Every type there is, by name. */
  ghost function GraphOf(w: World): Graph {
    map n | n in w.known.Keys + w.services.Keys ::
      if n in w.known then Described(w.known[n]) else ServiceIndividual(w.services[n])
  }

  /** Nothing that ind reaches is missing. */
  ghost predicate Complete(g: Graph, ind: Individual) {
    forall name :: Reaches(g, ind, name) ==> name in g
  }

  class Collector {
    const w: World
    var refs: Graph

    constructor (w: World)
      ensures this.w == w && refs == map[]
    {
      this.w, refs := w, map[];
    }

    /** collectRefs; open are the types whose fields are being gone through. */
    method CollectRefs(m: Message, ghost open: set<string>) returns (ok: bool)
      requires Sound(w) && HasMessage(w, m) && Within(refs, GraphOf(w)) && Closed(refs, open)
      modifies this
      ensures Within(refs, GraphOf(w)) && Grown(GraphOf(w), Described(m), old(refs), refs)
      ensures ok ==> Closed(refs, open) && Covers(refs, Described(m))
      ensures !ok ==> !Complete(GraphOf(w), Described(m))
      decreases |w.known.Keys - refs.Keys|, 1
    {
      hide *;
      ghost var before, g, ind := refs, GraphOf(w), Described(m);
      NothingGrown(g, ind, refs);
      for i := 0 to |m.fields|
        invariant Within(refs, g) && Grown(g, ind, before, refs) && Closed(refs, open)
        invariant forall j :: 0 <= j < i && m.fields[j].ty.nested != "" ==> m.fields[j].ty.nested in refs
      {
        var name := m.fields[i].ty.nested;
        if name == "" || name in refs {
          continue;
        }
        FieldRefers(m, i);
        GrownKeys(g, ind, before, refs, w.known.Keys);
        ghost var now := refs;
        var rest := CollectNew(name, m, open);
        GrownTwice(g, ind, before, now, refs);
        if !rest {
          return false;
        }
        GrownHas(g, ind, now, refs);
      }
      CoveredAll(refs, m);
      return true;
    }

    /** One name that a field of m refers to, for the first time. */
    method CollectNew(name: string, ghost m: Message, ghost open: set<string>) returns (ok: bool)
      requires Sound(w) && HasMessage(w, m) && Within(refs, GraphOf(w)) && Closed(refs, open)
      requires RefersTo(Described(m), name) && name !in refs
      modifies this
      ensures Within(refs, GraphOf(w)) && Grown(GraphOf(w), Described(m), old(refs), refs)
      ensures ok ==> Closed(refs, open) && name in refs
      ensures !ok ==> !Complete(GraphOf(w), Described(m))
      decreases |w.known.Keys - refs.Keys|, 0
    {
      hide *;
      ghost var without, g, ind := refs, GraphOf(w), Described(m);
      NamedBy(w, m, name);
      ReachesDirectly(g, ind, name);
      if name !in w.known {
        Missing(g, ind, name);
        NothingGrown(g, ind, refs);
        return false;
      }
      var ref := w.known[name];
      var described := IndividualOf(ref);
      refs := refs[name := described];
      OpenNew(without, open, name, described, g);
      FewerLeft(w.known.Keys, without, name, described);
      ghost var asked := refs;
      ok := CollectRefs(ref, open + {name});
      GrownHas(g, described, asked, refs);
      if ok {
        ClosedNow(refs, open, name, described);
      } else {
        MissingThrough(g, ind, name);
      }
      GrownThrough(g, ind, name, without, refs);
    }

    /** A message that ind is made of, and what it refers to. */
    method AddMessage(m: Message, ghost ind: Individual, ghost open: set<string>) returns (ok: bool)
      requires Sound(w) && HasMessage(w, m) && Within(refs, GraphOf(w)) && Closed(refs, open) && RefersTo(ind, m.name)
      modifies this
      ensures Within(refs, GraphOf(w)) && Grown(GraphOf(w), ind, old(refs), refs)
      ensures ok ==> Closed(refs, open) && m.name in refs
      ensures !ok ==> !Complete(GraphOf(w), ind)
    {
      hide *;
      ghost var without, g := refs, GraphOf(w);
      MessageIn(w, m);
      var described := IndividualOf(m);
      refs := refs[m.name := described];
      OpenNew(without, open, m.name, described, g);
      ghost var asked := refs;
      ok := CollectRefs(m, open + {m.name});
      GrownHas(g, described, asked, refs);
      if ok {
        ClosedNow(refs, open, m.name, described);
      } else {
        MissingThrough(g, ind, m.name);
      }
      WithinSame(without, g, m.name);
      GrownThrough(g, ind, m.name, without, refs);
    }

    /** addServiceRefs. */
    method AddServiceRefs(s: Service) returns (ok: bool)
      requires Sound(w) && HasService(w, s) && Within(refs, GraphOf(w)) && Closed(refs, {})
      modifies this
      ensures Within(refs, GraphOf(w)) && Grown(GraphOf(w), ServiceIndividual(s),
        old(refs)[s.name := ServiceIndividual(s)], refs)
      ensures ok ==> Closed(refs, {}) && s.name in refs && Covers(refs, ServiceIndividual(s))
      ensures !ok ==> !Complete(GraphOf(w), ServiceIndividual(s))
    {
      hide *;
      ghost var before, g, ind := refs, GraphOf(w), ServiceIndividual(s);
      ServiceIn(w, s);
      refs := refs[s.name := Individual(s.name, [
        NestedField("request_message", s.request.name),
        NestedField("response_message", s.response.name),
        NestedField("event_message", s.event.name)])];
      ServiceLiteral(s);
      OpenNew(before, {}, s.name, ind, g);
      ghost var start := refs;
      assert {} + {s.name} == {s.name};
      NothingGrown(g, ind, refs);
      ghost var messages := [s.request, s.response, s.event];
      for i := 0 to 3
        invariant Within(refs, g) && Grown(g, ind, start, refs) && Closed(refs, {s.name})
        invariant forall j :: 0 <= j < i ==> messages[j].name in refs
      {
        var m := [s.request, s.response, s.event][i];
        ghost var now := refs;
        var more := AddMessage(m, ind, {s.name});
        GrownTwice(g, ind, start, now, refs);
        GrownHas(g, ind, now, refs);
        if !more {
          return false;
        }
      }
      GrownHas(g, ind, start, refs);
      assert messages[0].name in refs && messages[1].name in refs && messages[2].name in refs;
      ServiceCovered(refs, s);
      assert {} + {s.name} == {s.name};
      ClosedNow(refs, {}, s.name, ind);
      return true;
    }

    /** Describe, for a message. */
    method DescribeMessage(name: string) returns (r: Option<TypeDescription>)
      requires Sound(w) && refs == map[]
      modifies this
      ensures r.Some? <==> name in w.known && Complete(GraphOf(w), Described(w.known[name]))
      ensures r.Some? ==> Describes(GraphOf(w), Described(w.known[name]), r.value)
    {
      hide *;
      if name !in w.known {
        return None;
      }
      var root := w.known[name];
      MessageKnown(w, name);
      Start(GraphOf(w));
      var ok := CollectRefs(root, {});
      if !ok {
        return None;
      }
      var ind := IndividualOf(root);
      AllCollected(w, ind, refs);
      var td := Assemble(ind, refs);
      DescribedBy(GraphOf(w), ind, refs, td);
      r := Some(td);
    }

    /** Describe, for a service. */
    method DescribeService(name: string) returns (r: Option<TypeDescription>)
      requires Sound(w) && refs == map[]
      modifies this
      ensures r.Some? <==> name in w.services && Complete(GraphOf(w), ServiceIndividual(w.services[name]))
      ensures r.Some? ==> Describes(GraphOf(w), ServiceIndividual(w.services[name]), r.value)
    {
      hide *;
      if name !in w.services {
        return None;
      }
      var s := w.services[name];
      ServiceKnown(w, name);
      Start(GraphOf(w));
      var ok := AddServiceRefs(s);
      if !ok {
        return None;
      }
      ghost var ind := ServiceIndividual(s);
      ghost var all := refs;
      refs := refs - {s.name};
      ServiceCollected(w, s, all, refs);
      var td := Assemble(ServiceIndividual(s), refs);
      DescribedBy(GraphOf(w), ind, refs, td);
      r := Some(td);
    }

    /** describeAction. */
    method DescribeAction(name: string) returns (r: Option<TypeDescription>)
      requires Sound(w) && refs == map[]
      modifies this
      ensures r.Some? <==> name in w.actions && Complete(GraphOf(w), ActionIndividual(w.actions[name]))
      ensures r.Some? ==> Describes(GraphOf(w), ActionIndividual(w.actions[name]), r.value)
    {
      hide *;
      if name !in w.actions {
        return None;
      }
      var a := w.actions[name];
      ActionKnown(w, name);
      ghost var g, ind := GraphOf(w), ActionIndividual(a);
      Start(g);
      NothingGrown(g, ind, refs);
      ghost var messages := [a.goal, a.result, a.feedback, a.feedbackMessage];
      for i := 0 to 4
        invariant Within(refs, g) && Grown(g, ind, map[], refs) && Closed(refs, {})
        invariant forall j :: 0 <= j < i ==> messages[j].name in refs
      {
        var m := [a.goal, a.result, a.feedback, a.feedbackMessage][i];
        ghost var now := refs;
        var more := AddMessage(m, ind, {});
        GrownTwice(g, ind, map[], now, refs);
        GrownHas(g, ind, now, refs);
        if !more {
          return None;
        }
      }
      assert messages[0].name in refs && messages[1].name in refs && messages[2].name in refs
        && messages[3].name in refs;
      var ok := AddActionService(a.sendGoal, ind);
      if !ok {
        return None;
      }
      ok := AddActionService(a.getResult, ind);
      if !ok {
        return None;
      }
      ActionCovered(refs, a);
      AllCollected(w, ind, refs);
      var td := Assemble(ActionIndividual(a), refs);
      DescribedBy(g, ind, refs, td);
      r := Some(td);
    }

    /** One of the two services of an action. */
    method AddActionService(s: Service, ghost ind: Individual) returns (ok: bool)
      requires Sound(w) && HasService(w, s) && Within(refs, GraphOf(w)) && Closed(refs, {})
      requires RefersTo(ind, s.name) && Grown(GraphOf(w), ind, map[], refs)
      modifies this
      ensures Within(refs, GraphOf(w)) && Grown(GraphOf(w), ind, map[], refs)
      ensures forall k :: k in old(refs) ==> k in refs
      ensures ok ==> Closed(refs, {}) && s.name in refs
      ensures !ok ==> !Complete(GraphOf(w), ind)
    {
      hide *;
      ghost var before, g := refs, GraphOf(w);
      ok := AddServiceRefs(s);
      ServiceIn(w, s);
      WithinSame(before, g, s.name);
      GrownThrough(g, ind, s.name, before, refs);
      GrownHas(g, ind, before, refs);
      GrownTwice(g, ind, map[], before, refs);
      if !ok {
        MissingThrough(g, ind, s.name);
      }
    }
  }

  /** assemble: the types in order of their names. */
  method Assemble(ind: Individual, refs: Graph) returns (td: TypeDescription)
    requires forall k :: k in refs ==> refs[k].typeName == k
    ensures td.individual == ind
    ensures SortedBy(StringLe, Names(td.referenced)) && Distinct(Names(td.referenced))
    ensures forall k :: k in Names(td.referenced) <==> k in refs
    ensures forall d :: d in td.referenced ==> d.typeName in refs && d == refs[d.typeName]
  {
    hide SortedBy, Distinct, Names;
    var keys := KeysOf(refs);
    var names := SortStrings(keys);
    SamePermutation(names, keys);
    DistinctPermutation(names, keys);
    var referenced := Found(names, refs);
    td := TypeDescription(ind, referenced);
  }

  /** The keys of the map, in whatever order it is ranged over. */
  method KeysOf(refs: Graph) returns (keys: seq<string>)
    ensures Distinct(keys) && forall k :: k in keys <==> k in refs
  {
    hide Distinct;
    keys := [];
    var rest := refs.Keys;
    NoneDistinct();
    while rest != {}
      invariant rest <= refs.Keys && Distinct(keys)
      invariant forall k :: k in keys <==> k in refs && k !in rest
      decreases rest
    {
      var k :| k in rest;
      rest := rest - {k};
      DistinctSnoc(keys, k);
      keys := keys + [k];
    }
  }

  lemma NoneDistinct()
    ensures Distinct<string>([])
  {
  }

  /** The types of these names. */
  method Found(names: seq<string>, refs: Graph) returns (referenced: seq<Individual>)
    requires forall k :: k in refs ==> refs[k].typeName == k
    requires forall n :: n in names ==> n in refs
    ensures Names(referenced) == names
    ensures forall d :: d in referenced ==> d.typeName in refs && d == refs[d.typeName]
  {
    referenced := [];
    for i := 0 to |names|
      invariant |referenced| == i
      invariant forall j :: 0 <= j < i ==> names[j] in refs && referenced[j] == refs[names[j]]
    {
      assert names[i] in names;
      referenced := referenced + [refs[names[i]]];
    }
    forall d | d in referenced ensures d.typeName in refs && d == refs[d.typeName] {
      var j :| 0 <= j < |referenced| && referenced[j] == d;
    }
  }

  function Names(ds: seq<Individual>): (r: seq<string>)
    ensures |r| == |ds|
  {
    seq(|ds|, i requires 0 <= i < |ds| => ds[i].typeName)
  }

  /** The description of ind: with exactly the types it reaches, in order of their names, none twice. */
  ghost predicate Describes(g: Graph, ind: Individual, td: TypeDescription) {
    && td.individual == ind
    && SortedBy(StringLe, Names(td.referenced)) && Distinct(Names(td.referenced))
    && (forall k :: k in Names(td.referenced) <==> Reaches(g, ind, k))
    && (forall d :: d in td.referenced ==> d.typeName in g && d == g[d.typeName])
  }

  /** There is one description: nothing depends on the order in which references were found. */
  lemma DescriptionUnique(g: Graph, ind: Individual, a: TypeDescription, b: TypeDescription)
    requires Describes(g, ind, a) && Describes(g, ind, b)
    ensures a == b
  {
    AscendingUnique(Names(a.referenced), Names(b.referenced));
    forall i | 0 <= i < |a.referenced| ensures a.referenced[i] == b.referenced[i] {
      assert a.referenced[i] in a.referenced && b.referenced[i] in b.referenced;
      assert Names(a.referenced)[i] == Names(b.referenced)[i];
    }
  }

  // ----- what was collected is what is reached -----

  lemma Start(g: Graph)
    ensures Within(map[], g) && Closed(map[], {})
  {
  }

  lemma MessageIn(w: World, m: Message)
    requires Sound(w) && HasMessage(w, m)
    ensures m.name in GraphOf(w) && GraphOf(w)[m.name] == Described(m)
  {
  }

  lemma MessageKnown(w: World, name: string)
    requires Sound(w) && name in w.known
    ensures HasMessage(w, w.known[name])
  {
  }

  lemma ServiceIn(w: World, s: Service)
    requires Sound(w) && HasService(w, s)
    ensures s.name in GraphOf(w) && GraphOf(w)[s.name] == ServiceIndividual(s)
    ensures HasMessage(w, s.request) && HasMessage(w, s.response) && HasMessage(w, s.event)
    ensures RefersTo(ServiceIndividual(s), s.request.name) && RefersTo(ServiceIndividual(s), s.response.name)
    ensures RefersTo(ServiceIndividual(s), s.event.name)
  {
    assert SoundService(w, s.name);
    var fields := ServiceIndividual(s).fields;
    assert fields[0].nested == s.request.name && fields[1].nested == s.response.name
      && fields[2].nested == s.event.name;
  }

  lemma ServiceLiteral(s: Service)
    ensures ServiceIndividual(s) == Individual(s.name, [
      NestedField("request_message", s.request.name),
      NestedField("response_message", s.response.name),
      NestedField("event_message", s.event.name)])
  {
  }

  lemma ServiceKnown(w: World, name: string)
    requires Sound(w) && name in w.services
    ensures HasService(w, w.services[name])
  {
    assert SoundService(w, name);
  }

  lemma ServiceCovered(refs: Graph, s: Service)
    requires s.request.name in refs && s.response.name in refs && s.event.name in refs
    ensures Covers(refs, ServiceIndividual(s))
  {
  }

  lemma ActionKnown(w: World, name: string)
    requires Sound(w) && name in w.actions
    ensures var a, ind := w.actions[name], ActionIndividual(w.actions[name]);
      && HasMessage(w, a.goal) && HasMessage(w, a.result) && HasMessage(w, a.feedback)
        && HasMessage(w, a.feedbackMessage)
      && HasService(w, a.sendGoal) && HasService(w, a.getResult)
      && RefersTo(ind, a.goal.name) && RefersTo(ind, a.result.name) && RefersTo(ind, a.feedback.name)
      && RefersTo(ind, a.feedbackMessage.name) && RefersTo(ind, a.sendGoal.name) && RefersTo(ind, a.getResult.name)
  {
    assert SoundAction(w, name);
    var a := w.actions[name];
    var fields := ActionIndividual(a).fields;
    assert fields[0].nested == a.goal.name && fields[1].nested == a.result.name && fields[2].nested == a.feedback.name;
    assert fields[3].nested == a.sendGoal.name && fields[4].nested == a.getResult.name
      && fields[5].nested == a.feedbackMessage.name;
  }

  lemma ActionCovered(refs: Graph, a: Action)
    requires a.goal.name in refs && a.result.name in refs && a.feedback.name in refs && a.feedbackMessage.name in refs
    requires a.sendGoal.name in refs && a.getResult.name in refs
    ensures Covers(refs, ActionIndividual(a))
  {
  }

  lemma WithinSame(refs: Graph, g: Graph, name: string)
    requires Within(refs, g) && name in g
    ensures name in refs ==> refs[name] == g[name]
  {
  }

  lemma GraphNames(w: World)
    requires Sound(w)
    ensures forall k :: k in GraphOf(w) ==> GraphOf(w)[k].typeName == k
  {
    forall k | k in w.services ensures ServiceIndividual(w.services[k]).typeName == k {
      assert SoundService(w, k);
    }
  }

  /** What refs holds is what ind reaches. */
  ghost predicate Holds(g: Graph, ind: Individual, refs: Graph) {
    && Within(refs, g) && (forall k :: k in refs <==> Reaches(g, ind, k))
    && forall k :: k in refs ==> refs[k].typeName == k
  }

  lemma AllCollected(w: World, ind: Individual, refs: Graph)
    requires Sound(w) && Within(refs, GraphOf(w)) && Closed(refs, {}) && Covers(refs, ind)
    requires Grown(GraphOf(w), ind, map[], refs)
    ensures Holds(GraphOf(w), ind, refs) && Complete(GraphOf(w), ind)
    ensures forall k :: k in refs ==> refs[k].typeName == k
  {
    ClosedHasAll(refs, GraphOf(w), ind);
    GraphNames(w);
  }

  /** No service is reached by way of messages. */
  lemma {:induction false} PathOfMessages(w: World, s: Service, p: seq<string>)
    requires Sound(w) && HasService(w, s) && Path(GraphOf(w), ServiceIndividual(s), p)
    ensures p[|p| - 1] !in w.services
  {
    hide *;
    PathSplits(GraphOf(w), ServiceIndividual(s), p);
    if |p| == 1 {
      MessageOfService(w, s, p[0]);
    } else {
      var init := p[..|p| - 1];
      PathOfMessages(w, s, init);
      LinkOfMessages(w, init[|init| - 1], p[|p| - 1]);
    }
  }

  lemma PathSplits(g: Graph, ind: Individual, p: seq<string>)
    requires Path(g, ind, p)
    ensures p != [] && RefersTo(ind, p[0])
    ensures |p| > 1 ==> Path(g, ind, p[..|p| - 1]) && p[|p| - 2] in g && RefersTo(g[p[|p| - 2]], p[|p| - 1])
  {
    hide RefersTo;
    if |p| > 1 {
      var init := p[..|p| - 1];
      forall i | 0 < i < |init| ensures LinkTo(g, init, i) {
        assert LinkTo(g, p, i);
      }
      assert LinkTo(g, p, |p| - 1);
    }
  }

  lemma MessageOfService(w: World, s: Service, name: string)
    requires Sound(w) && HasService(w, s) && RefersTo(ServiceIndividual(s), name)
    ensures name !in w.services
  {
    ServiceIn(w, s);
    NamesOfService(s, name);
    hide ServiceIndividual, RefersTo, SoundService, SoundAction;
    assert name in w.known;
  }

  lemma NamesOfService(s: Service, name: string)
    requires RefersTo(ServiceIndividual(s), name)
    ensures name == s.request.name || name == s.response.name || name == s.event.name
  {
  }

  lemma LinkOfMessages(w: World, n: string, name: string)
    requires Sound(w) && n in GraphOf(w) && n !in w.services && RefersTo(GraphOf(w)[n], name)
    ensures name !in w.services
  {
    hide RefersTo, SoundService, SoundAction, Described, ServiceIndividual;
  }

  lemma ServiceCollected(w: World, s: Service, all: Graph, refs: Graph)
    requires Sound(w) && HasService(w, s) && Within(all, GraphOf(w)) && Closed(all, {})
      && Covers(all, ServiceIndividual(s))
    requires Grown(GraphOf(w), ServiceIndividual(s), map[][s.name := ServiceIndividual(s)], all)
      && refs == all - {s.name}
    ensures Holds(GraphOf(w), ServiceIndividual(s), refs) && Complete(GraphOf(w), ServiceIndividual(s))
    ensures forall k :: k in refs ==> refs[k].typeName == k
  {
    ClosedHasAll(all, GraphOf(w), ServiceIndividual(s));
    GraphNames(w);
    forall k | Reaches(GraphOf(w), ServiceIndividual(s), k) ensures k != s.name {
      var p :| PathTo(GraphOf(w), ServiceIndividual(s), p, k);
      PathOfMessages(w, s, p);
    }
  }

  lemma DescribedBy(g: Graph, ind: Individual, refs: Graph, td: TypeDescription)
    requires Holds(g, ind, refs) && td.individual == ind
    requires SortedBy(StringLe, Names(td.referenced)) && Distinct(Names(td.referenced))
    requires forall k :: k in Names(td.referenced) <==> k in refs
    requires forall d :: d in td.referenced ==> d.typeName in refs && d == refs[d.typeName]
    ensures Describes(g, ind, td)
  {
    hide SortedBy, Distinct, Reaches;
  }

  lemma NothingGrown(g: Graph, ind: Individual, refs: Graph)
    ensures Grown(g, ind, refs, refs)
  {
  }

  lemma OpenNew(refs: Graph, open: set<string>, name: string, ind: Individual, g: Graph)
    requires Closed(refs, open) && Within(refs, g) && name in g && g[name] == ind
    ensures Closed(refs[name := ind], open + {name}) && Within(refs[name := ind], g)
  {
    var after := refs[name := ind];
    forall k, n | k in after && k !in open + {name} && RefersTo(after[k], n) ensures n in after {
      assert k in refs && RefersTo(refs[k], n);
    }
  }

  /** A name that a message refers to is a message's, or nothing's. */
  lemma NamedBy(w: World, m: Message, name: string)
    requires Sound(w) && HasMessage(w, m) && RefersTo(Described(m), name)
    ensures name in w.known <==> name in GraphOf(w)
    ensures name in w.known ==> HasMessage(w, w.known[name]) && GraphOf(w)[name] == Described(w.known[name])
  {
    assert m.name in w.known;
    assert name !in w.services;
  }

  lemma Missing(g: Graph, ind: Individual, name: string)
    requires Reaches(g, ind, name) && name !in g
    ensures !Complete(g, ind)
  {
  }

  lemma GrownKeys(g: Graph, ind: Individual, before: Graph, after: Graph, all: set<string>)
    requires Grown(g, ind, before, after)
    ensures |all - after.Keys| <= |all - before.Keys|
  {
    SubsetCount(all - after.Keys, all - before.Keys);
  }

  lemma CoveredAll(refs: Graph, m: Message)
    requires forall j :: 0 <= j < |m.fields| && m.fields[j].ty.nested != "" ==> m.fields[j].ty.nested in refs
    ensures Covers(refs, Described(m))
  {
  }

  /** Field i of m refers to it. */
  lemma FieldRefers(m: Message, i: nat)
    requires i < |m.fields| && m.fields[i].ty.nested != ""
    ensures RefersTo(Described(m), m.fields[i].ty.nested)
  {
    assert Described(m).fields[i].nested == m.fields[i].ty.nested;
  }

  lemma GrownHas(g: Graph, ind: Individual, a: Graph, b: Graph)
    requires Grown(g, ind, a, b)
    ensures forall k :: k in a ==> k in b && b[k] == a[k]
  {
  }

  lemma GrownTwice(g: Graph, ind: Individual, a: Graph, b: Graph, c: Graph)
    requires Grown(g, ind, a, b) && Grown(g, ind, b, c)
    ensures Grown(g, ind, a, c)
  {
  }

  lemma ClosedNow(refs: Graph, open: set<string>, name: string, ind: Individual)
    requires Closed(refs, open + {name}) && name in refs && refs[name] == ind && Covers(refs, ind)
    ensures Closed(refs, open) && name in refs
  {
  }

  lemma FewerLeft(all: set<string>, refs: Graph, name: string, ind: Individual)
    requires name in all && name !in refs
    ensures |all - refs[name := ind].Keys| < |all - refs.Keys|
  {
    assert refs[name := ind].Keys == refs.Keys + {name};
    assert all - refs.Keys == (all - refs[name := ind].Keys) + {name};
  }

  /** A type and then what it reaches were added. */
  lemma GrownThrough(g: Graph, ind: Individual, via: string, without: Graph, after: Graph)
    requires RefersTo(ind, via) && via in g && (via in without ==> without[via] == g[via])
    requires Grown(g, g[via], without[via := g[via]], after)
    ensures Grown(g, ind, without, after)
  {
    hide RefersTo, Reaches;
    ReachesDirectly(g, ind, via);
    forall k | k in after && k !in without ensures Reaches(g, ind, k) {
      if k != via {
        ReachesThrough(g, ind, via, k);
      }
    }
  }

  lemma MissingThrough(g: Graph, ind: Individual, via: string)
    requires RefersTo(ind, via) && via in g && !Complete(g, g[via])
    ensures !Complete(g, ind)
  {
    var name :| Reaches(g, g[via], name) && name !in g;
    ReachesThrough(g, ind, via, name);
  }
}
