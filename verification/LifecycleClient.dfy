/**
 * Driving other managed nodes, lifecycle_client.go: BringUp and Shutdown against servers that follow the
 * transition table, but may fail, may be slow, and may take effect without saying so.
 */
module LifecycleClient {
  import opened Wrappers
  import opened Sorting
  import opened Lifecycles

  type Name = string

  /** A managed node as seen from outside: where it rests, a transition still running after its caller gave up,
      requests still on their way to it after their callers gave up, where it rested at first, and every transition
      that has taken effect since. */
  datatype Server = Server(
    origin: State, rest: State, flight: Option<Transition>, late: multiset<Transition>, committed: seq<Transition>)

  type Servers = map<Name, Server>

  /** A transition that took effect, and all servers at that moment. */
  datatype Effect = Effect(node: Name, t: Transition, servers: Servers)

  datatype World = World(servers: Servers, effects: seq<Effect>)

  function Shown(s: Server): State {
    if s.flight.Some? then Intermediate(s.flight.value) else s.rest
  }

  predicate CanMake(s: Server, t: Transition) {
    s.flight.None? && Table(s.rest, t).Some?
  }

  /** s after transition t has taken effect. */
  function Committed(s: Server, t: Transition): Server
    requires Table(s.rest, t).Some?
  {
    s.(rest := Table(s.rest, t).value, flight := None, committed := s.committed + [t])
  }

  /** What a server may do with a request that reaches it: nothing, or make the transition at once, or begin it. */
  ghost predicate Takes(s: Server, t: Transition, s': Server, made: Option<Transition>) {
    || (s' == s && made == None)
    || (CanMake(s, t) && s' == Committed(s, t) && made == Some(t))
    || (CanMake(s, t) && s' == s.(flight := Some(t)) && made == None)
  }

  function Delivered(s: Server, t: Transition): Server {
    s.(late := s.late - multiset{t})
  }

  /** What may happen at a server at any moment: a transition that runs ends, well or badly, or a request that is
      still on its way arrives. */
  ghost predicate Moves(s: Server, s': Server, made: Option<Transition>) {
    || (s.flight.Some? && Table(s.rest, s.flight.value).Some? && s' == Committed(s, s.flight.value) && made == s.flight)
    || (s.flight.Some? && s' == s.(flight := None) && made == None)
    || exists t :: t in s.late && Takes(Delivered(s, t), t, s', made)
  }

  function Became(w: World, n: Name, s: Server, made: Option<Transition>): World {
    World(w.servers[n := s], if made.Some? then w.effects + [Effect(n, made.value, w.servers)] else w.effects)
  }

  ghost predicate Happens(w: World, w': World) {
    w' == w || exists n, s, made :: n in w.servers && Moves(w.servers[n], s, made) && w' == Became(w, n, s, made)
  }

  ghost predicate SettlesIn(w: World, w': World, k: nat)
    decreases k
  {
    if k == 0 then w' == w else exists m :: SettlesIn(w, m, k - 1) && Happens(m, w')
  }

  /** Any number of such things have happened, one after another. */
  ghost predicate Settles(w: World, w': World) {
    exists k: nat :: SettlesIn(w, w', k)
  }

  /** What may come of asking s for t: None is no answer in time, Some(ok) the server's verdict. */
  ghost predicate Answers(s: Server, t: Transition, s': Server, made: Option<Transition>, r: Option<bool>) {
    || (s' == s.(late := s.late + multiset{t}) && made == None && r == None)
    || (Takes(s, t, s', made)
        && (if made.Some? then r != Some(false) else r != Some(true))
        && (s'.flight != s.flight ==> r == None))
  }

  /** One change_state request: the world in which its node last answered get_state, if it ever did, the world in
      which the request was sent, and what was heard of it. */
  datatype Sent = Sent(node: Name, t: Transition, told: Option<World>, at: World, answer: Option<bool>)

  /** A service call, and what was heard of it: None is no answer in time. */
  datatype Call = Told(node: Name, state: Option<State>) | Put(node: Name, t: Transition, done: Option<bool>)

  /** All calls of a process, how many went without an answer, and how many were answered with a refusal. */
  datatype Tally = Tally(calls: seq<Call>, silences: nat, refusals: nat)

  /** The service calls of a process, with everything that can go wrong with them. */
  class Network {
    var servers: Servers
    ghost var effects: seq<Effect>
    ghost var sent: seq<Sent>
    ghost var calls: seq<Call>
    /** For each node the world in which it last answered get_state. */
    ghost var told: map<Name, World>
    /** Where the servers were at first. */
    ghost const origin: Servers
    /** How many calls went without an answer, and how many were answered with a refusal. */
    ghost var silences: nat
    ghost var refusals: nat

    /** What has been heard so far. */
    ghost function Heard(): Tally
      reads this
    {
      Tally(calls, silences, refusals)
    }

    ghost function Now(): World
      reads this
    {
      World(servers, effects)
    }

    constructor (servers: Servers)
      requires forall n :: n in servers ==> servers[n].committed == []
      ensures this.servers == servers == origin && effects == [] && sent == [] && calls == [] && told == map[]
    {
      origin, told := servers, map[];
      this.servers, effects, sent, calls, silences, refusals := servers, [], [], [], 0, 0;
    }

    method Become(n: Name, s: Server, ghost made: Option<Transition>)
      modifies this`servers, this`effects
      ensures Now() == Became(old(Now()), n, s, made)
    {
      effects := if made.Some? then effects + [Effect(n, made.value, servers)] else effects;
      servers := servers[n := s];
    }

    /** A request for t reaches n. */
    method Arrive(n: Name, s: Server, t: Transition) returns (s': Server, ghost made: Option<Transition>)
      ensures Takes(s, t, s', made)
    {
      var well: bool, slow: bool := *, *;
      if !CanMake(s, t) || !well {
        return s, None;
      } else if slow {
        return s.(flight := Some(t)), None;
      }
      return Committed(s, t), Some(t);
    }

    method Happen()
      modifies this`servers, this`effects
      ensures Happens(old(Now()), Now())
    {
      if servers.Keys == {} {
        return;
      }
      var n :| n in servers.Keys;
      var s := servers[n];
      var ends: bool, well: bool, arrives: bool := *, *, *;
      if s.flight.Some? && ends {
        if well && Table(s.rest, s.flight.value).Some? {
          Become(n, Committed(s, s.flight.value), s.flight);
        } else {
          Become(n, s.(flight := None), None);
        }
      } else if s.late != multiset{} && arrives {
        var t :| t in s.late;
        var s', made := Arrive(n, Delivered(s, t), t);
        Become(n, s', made);
      }
    }

    method Settle()
      modifies this`servers, this`effects
      ensures Settles(old(Now()), Now())
    {
      ghost var start := Now();
      var chance: int := *;
      var k: nat := if chance < 0 then 0 else chance;
      for j := 0 to k
        invariant SettlesIn(start, Now(), j)
      {
        ghost var before := Now();
        Happen();
        SettlesMore(start, before, Now(), j);
      }
    }

    /** get_state: None when there is no answer in time; what n answers was so in the world it is told of, and
        whatever was under way goes on until the caller hears it. */
    method GetState(n: Name) returns (r: Option<State>, ghost met: World)
      requires n in servers
      modifies this`servers, this`effects, this`silences, this`told, this`calls
      ensures calls == old(calls) + [Told(n, r)]
      ensures Settles(old(Now()), met) && Settles(met, Now()) && n in met.servers && n in servers
      ensures r.Some? ==> r.value == Shown(met.servers[n])
      ensures told == if r.Some? then old(told)[n := met] else old(told)
      ensures silences == old(silences) + if r.None? then 1 else 0
    {
      hide Settles, Quiet, Shown;
      ghost var start := Now();
      Settle();
      SettleStill(start, Now());
      SameKeys(start.servers, servers);
      hide Still;
      met := Now();
      var heard: bool := *;
      if heard {
        r := Some(Shown(servers[n]));
        told := told[n := met];
      } else {
        silences := silences + 1;
        r := None;
      }
      calls := calls + [Told(n, r)];
      Settle();
      SettleStill(met, Now());
      SameKeys(met.servers, servers);
    }

    /** change_state: whatever was under way goes on until the request arrives, if its caller still waits then, and
        again until the answer does. */
    method ChangeState(n: Name, t: Transition) returns (r: Option<bool>, ghost met: World, ghost left: World)
      requires n in servers
      modifies this
      ensures sent == old(sent) + [Sent(n, t, if n in told then Some(told[n]) else None, old(Now()), r)]
      ensures told == old(told) && calls == old(calls) + [Put(n, t, r)]
      ensures Settles(old(Now()), met) && Asked(met, n, t, left, r) && Settles(left, Now())
      ensures silences == old(silences) + if r.None? then 1 else 0
      ensures refusals == old(refusals) + if r == Some(false) then 1 else 0
    {
      hide Settles, Quiet, Asked;
      ghost var start := Now();
      Settle();
      SettleStill(start, Now());
      SameKeys(start.servers, servers);
      hide Still;
      met := Now();
      r := Ask(n, t);
      left := Now();
      Settle();
      sent := sent + [Sent(n, t, if n in told then Some(told[n]) else None, start, r)];
      calls := calls + [Put(n, t, r)];
      silences := silences + if r.None? then 1 else 0;
      refusals := refusals + if r == Some(false) then 1 else 0;
    }

    /** A request reaches n while its caller still waits, or the caller gives up and it is still on its way. */
    method Ask(n: Name, t: Transition) returns (r: Option<bool>)
      requires n in servers
      modifies this`servers, this`effects
      ensures Asked(old(Now()), n, t, Now(), r)
    {
      var s := servers[n];
      var arrives: bool, heard: bool := *, *;
      r := None;
      if !arrives {
        Become(n, s.(late := s.late + multiset{t}), None);
        return;
      }
      var s', made := Arrive(n, s, t);
      if heard && s'.flight == s.flight {
        r := Some(s' != s);
      }
      NothingMade(s, t, s', made);
      Become(n, s', made);
    }
  }

  lemma NothingMade(s: Server, t: Transition, s': Server, made: Option<Transition>)
    requires Takes(s, t, s', made)
    ensures s'.flight == s.flight ==> (made.Some? <==> s' != s)
  {
    if CanMake(s, t) {
      assert |Committed(s, t).committed| == |s.committed| + 1;
    }
  }

  /** The request was answered in this world, and left it like that. */
  ghost predicate Asked(w: World, n: Name, t: Transition, w': World, r: Option<bool>) {
    n in w.servers && exists s, made :: Answers(w.servers[n], t, s, made, r) && w' == Became(w, n, s, made)
  }

  lemma SettlesMore(w: World, m: World, w': World, k: nat)
    requires SettlesIn(w, m, k) && Happens(m, w')
    ensures SettlesIn(w, w', k + 1)
  {
  }

  /** Nothing runs there, and nothing is on its way. */
  ghost predicate Quiet(s: Server) {
    s.flight.None? && s.late == multiset{}
  }

  /** Nothing changes where nothing is under way. */
  ghost predicate Still(a: Servers, b: Servers) {
    a.Keys == b.Keys && forall n :: n in a && Quiet(a[n]) ==> b[n] == a[n]
  }

  lemma SettleStill(w: World, w': World)
    requires Settles(w, w')
    ensures Still(w.servers, w'.servers)
  {
    hide SettlesIn, Still;
    var k: nat :| SettlesIn(w, w', k);
    StillIn(w, w', k);
  }

  lemma {:induction false} StillIn(w: World, w': World, k: nat)
    requires SettlesIn(w, w', k)
    ensures Still(w.servers, w'.servers)
    decreases k
  {
    hide Happens;
    if k > 0 {
      var m :| SettlesIn(w, m, k - 1) && Happens(m, w');
      StillIn(w, m, k - 1);
      HappensStill(m, w');
    }
  }

  lemma HappensStill(w: World, w': World)
    requires Happens(w, w')
    ensures Still(w.servers, w'.servers)
  {
    hide Takes;
  }

  // ----- what is promised of requests -----

  /** Every request that was sent to n was answered. */
  ghost predicate AllAnswered(sent: seq<Sent>, n: Name) {
    forall j :: 0 <= j < |sent| && sent[j].node == n ==> sent[j].answer.Some?
  }

  /** Request number j is one its node could make when it last told its state, and since then nothing has happened but
      what was under way; if all requests before it were answered, the node could make it when it was sent. */
  ghost predicate Founded(origin: Servers, sent: seq<Sent>, j: nat)
    requires j < |sent|
  {
    var s := sent[j];
    && s.told.Some? && s.node in s.told.value.servers && CanMake(s.told.value.servers[s.node], s.t)
    && Settles(s.told.value, s.at) && s.node in s.at.servers
    && (s.node in origin && Quiet(origin[s.node]) && AllAnswered(sent[..j], s.node) ==>
      CanMake(s.at.servers[s.node], s.t))
  }

  /** None of the requests under way can be made where the server rests. */
  predicate NothingDue(s: Server) {
    forall u :: u in s.late ==> Table(s.rest, u).None?
  }

  ghost predicate Up(s: Server) {
    s.rest == Inactive || s.rest == Active
  }

  ghost predicate AllUp(nodes: seq<Name>, servers: Servers) {
    forall n :: n in nodes ==> n in servers && Up(servers[n])
  }

  /** A bring-up request: configure or activate, founded, and activate only when every node is configured. */
  ghost predicate GoodRequest(nodes: seq<Name>, origin: Servers, sent: seq<Sent>, j: nat)
    requires j < |sent|
  {
    && Founded(origin, sent, j) && BringsUp(sent[j].t)
    && (sent[j].t == Activate ==> AllUp(nodes, sent[j].at.servers))
  }

  /** Where every request to a node that was quiet at first was answered, it is quiet. */
  ghost predicate Accounted(origin: Servers, sent: seq<Sent>, servers: Servers) {
    && origin.Keys == servers.Keys
    && forall n :: n in servers && Quiet(origin[n]) && AllAnswered(sent, n) ==> Quiet(servers[n])
  }

  lemma AccountedStill(origin: Servers, sent: seq<Sent>, a: Servers, b: Servers)
    requires Accounted(origin, sent, a) && Still(a, b)
    ensures Accounted(origin, sent, b)
  {
    hide Quiet, AllAnswered;
  }

  lemma AccountedAsked(origin: Servers, sent: seq<Sent>, a: Servers, met: World, s: Sent, left: World, b: Servers)
    requires Accounted(origin, sent, a) && Still(a, met.servers) && Still(left.servers, b)
    requires Asked(met, s.node, s.t, left, s.answer)
    ensures Accounted(origin, sent + [s], b)
  {
    hide Quiet, Asked, AllAnswered;
    AskedOnly(met, s.node, s.t, left, s.answer);
    AskedKeys(met, s.node, s.t, left, s.answer);
    forall n | n in b && Quiet(origin[n]) && AllAnswered(sent + [s], n) ensures Quiet(b[n]) {
      AnsweredBefore(sent, s, n);
      if n == s.node {
        AnsweredQuiet(met, s.node, s.t, left, s.answer);
      }
    }
  }

  lemma AnsweredBefore(sent: seq<Sent>, s: Sent, n: Name)
    requires AllAnswered(sent + [s], n)
    ensures AllAnswered(sent, n) && (s.node == n ==> s.answer.Some?)
  {
    var more := sent + [s];
    assert more[|sent|] == s;
    forall j | 0 <= j < |sent| && sent[j].node == n ensures sent[j].answer.Some? {
      assert more[j] == sent[j];
    }
  }

  lemma AnsweredQuiet(w: World, n: Name, t: Transition, w': World, r: Option<bool>)
    requires Asked(w, n, t, w', r) && r.Some? && Quiet(w.servers[n])
    ensures n in w'.servers && Quiet(w'.servers[n])
  {
  }

  // ----- how long an answer of get_state is good for -----

  /** Server s' is s but for requests that came to nothing. */
  ghost predicate Idled(s: Server, s': Server) {
    s'.rest == s.rest && s'.flight == s.flight && forall u :: u in s'.late ==> u in s.late
  }

  lemma MovesIdled(s: Server, s': Server, made: Option<Transition>)
    requires s.flight.None? && NothingDue(s) && Moves(s, s', made)
    ensures Idled(s, s')
  {
    var t :| t in s.late && Takes(Delivered(s, t), t, s', made);
  }

  lemma {:induction false} SettlesIdled(w: World, w': World, k: nat, n: Name)
    requires n in w.servers && w.servers[n].flight.None? && NothingDue(w.servers[n]) && SettlesIn(w, w', k)
    ensures n in w'.servers && Idled(w.servers[n], w'.servers[n])
    decreases k
  {
    hide Happens;
    if k > 0 {
      var m :| SettlesIn(w, m, k - 1) && Happens(m, w');
      SettlesIdled(w, m, k - 1, n);
      HappensIdled(m, w', n);
    }
  }

  lemma HappensIdled(w: World, w': World, n: Name)
    requires n in w.servers && w.servers[n].flight.None? && NothingDue(w.servers[n]) && Happens(w, w')
    ensures n in w'.servers && Idled(w.servers[n], w'.servers[n])
  {
    hide Moves, NothingDue;
    if x, s, made :| x in w.servers && Moves(w.servers[x], s, made) && w' == Became(w, x, s, made) {
      if x == n {
        MovesIdled(w.servers[n], s, made);
      }
    }
  }

  /** A request that is under way begins. */
  lemma Begins(w: World, n: Name, u: Transition) returns (w': World)
    requires n in w.servers && u in w.servers[n].late && CanMake(w.servers[n], u)
    ensures Settles(w, w') && n in w'.servers && w'.servers[n].flight == Some(u)
  {
    var s := Delivered(w.servers[n], u);
    var s' := s.(flight := Some(u));
    w' := Became(w, n, s', None);
    assert Takes(s, u, s', None);
    assert Moves(w.servers[n], s', None);
    assert SettlesIn(w, w, 0) && Happens(w, w');
    assert SettlesIn(w, w', 1);
  }

  /** What a node can make stays so, whatever is under way comes to, if and only if none of the requests still on
      their way to it can be made where it rests. */
  lemma StaysValid(w: World, n: Name, t: Transition)
    requires n in w.servers && CanMake(w.servers[n], t)
    ensures (forall w' :: Settles(w, w') ==> n in w'.servers && CanMake(w'.servers[n], t)) <==> NothingDue(w.servers[n])
  {
    hide SettlesIn;
    if NothingDue(w.servers[n]) {
      forall w' | Settles(w, w') ensures n in w'.servers && CanMake(w'.servers[n], t) {
        var k: nat :| SettlesIn(w, w', k);
        SettlesIdled(w, w', k, n);
      }
    } else {
      var u :| u in w.servers[n].late && Table(w.servers[n].rest, u).Some?;
      var w' := Begins(w, n, u);
    }
  }

  /** In a bring-up: the transition of the pass stays valid if and only if the same one is not on its way already. */
  lemma PassStaysValid(nodes: seq<Name>, w: World, n: Name, first: bool, from: nat)
    requires Orderly(nodes, w, from) && n in w.servers && Shown(w.servers[n]) == From(first)
    ensures (forall w' :: Settles(w, w') ==> n in w'.servers && CanMake(w'.servers[n], By(first)))
      <==> By(first) !in w.servers[n].late
  {
    assert OnlyBroughtUp(w.servers[n]);
    hide Orderly, Settles, Path;
    StaysValid(w, n, By(first));
  }

  /** And a request that was not answered is enough for it to fail: wherever a node shows the state that the pass moves
      from, asking it in vain can leave it showing that still, and unable to make the transition when it is sent
      again. */
  lemma UnansweredSpoils(nodes: seq<Name>, w: World, n: Name, first: bool, from: nat) returns (told: World, at: World)
    requires Orderly(nodes, w, from) && n in w.servers && Shown(w.servers[n]) == From(first)
    requires !first ==> AllUp(nodes, w.servers)
    ensures Asked(w, n, By(first), told, None) && Orderly(nodes, told, from)
    ensures n in told.servers && Shown(told.servers[n]) == From(first) && CanMake(told.servers[n], By(first))
    ensures Settles(told, at) && Orderly(nodes, at, from) && n in at.servers && !CanMake(at.servers[n], By(first))
  {
    ShownFrom(w.servers[n], first);
    hide *;
    told := Unheard(w, n, By(first));
    PassAsks(first);
    AskedKeeps(nodes, w, n, By(first), told, None, from);
    ShownFrom(told.servers[n], first);
    at := Begins(told, n, By(first));
    SettleKeeps(nodes, told, at, from);
    BegunCannot(at.servers[n], By(first));
  }

  lemma ShownFrom(s: Server, first: bool)
    ensures Shown(s) == From(first) <==> s.flight.None? && s.rest == From(first)
    ensures Shown(s) == From(first) ==> CanMake(s, By(first))
  {
  }

  lemma BegunCannot(s: Server, t: Transition)
    requires s.flight.Some?
    ensures !CanMake(s, t)
  {
  }

  /** A request whose caller gives up before it arrives. */
  lemma Unheard(w: World, n: Name, t: Transition) returns (told: World)
    requires n in w.servers
    ensures Asked(w, n, t, told, None) && n in told.servers
    ensures told.servers[n] == w.servers[n].(late := w.servers[n].late + multiset{t}) && t in told.servers[n].late
  {
    var waiting := w.servers[n].(late := w.servers[n].late + multiset{t});
    told := Became(w, n, waiting, None);
    assert Answers(w.servers[n], t, waiting, None, None);
  }

  /** A node, and a server of it that goes by what it is given. */
  const NODE: Name := "node"

  function Alone(rest: State, late: multiset<Transition>, committed: seq<Transition>): Servers {
    map[NODE := Server(Unconfigured, rest, None, late, committed)]
  }

  /** It does not stay valid: a Configure whose caller gave up takes effect between the answer Unconfigured and the
      next Configure, which is then sent to an Inactive node. */
  lemma ConfiguredTwice()
    ensures var quiet := World(Alone(Unconfigured, multiset{}, []), []);
      var told := World(Alone(Unconfigured, multiset{Configure}, []), []);
      var at := World(Alone(Inactive, multiset{}, [Configure]), [Effect(NODE, Configure, told.servers)]);
      && Orderly([NODE], quiet, 0) && Orderly([NODE], told, 0) && Orderly([NODE], at, 0)
      && Asked(quiet, NODE, Configure, told, None)
      && Shown(told.servers[NODE]) == Unconfigured && CanMake(told.servers[NODE], Configure)
      && Settles(told, at) && !CanMake(at.servers[NODE], Configure)
  {
    var quiet := World(Alone(Unconfigured, multiset{}, []), []);
    var told := World(Alone(Unconfigured, multiset{Configure}, []), []);
    var at := World(Alone(Inactive, multiset{}, [Configure]), [Effect(NODE, Configure, told.servers)]);
    QuietIsOrderly(quiet);
    AskedLate(quiet, told);
    ConfiguresLate(told, at);
    AskedKeeps([NODE], quiet, NODE, Configure, told, None, 0);
    SettleKeeps([NODE], told, at, 0);
  }

  lemma QuietIsOrderly(w: World)
    requires w == World(Alone(Unconfigured, multiset{}, []), [])
    ensures Orderly([NODE], w, 0)
  {
    assert Path(Unconfigured, []) == Some(Unconfigured) && TakenBy([], NODE) == [];
  }

  lemma AskedLate(quiet: World, told: World)
    requires quiet == World(Alone(Unconfigured, multiset{}, []), [])
    requires told == World(Alone(Unconfigured, multiset{Configure}, []), [])
    ensures Asked(quiet, NODE, Configure, told, None)
  {
    var s := quiet.servers[NODE];
    assert Answers(s, Configure, s.(late := s.late + multiset{Configure}), None, None);
    assert told == Became(quiet, NODE, told.servers[NODE], None);
  }

  lemma ConfiguresLate(told: World, at: World)
    requires told == World(Alone(Unconfigured, multiset{Configure}, []), [])
    requires at == World(Alone(Inactive, multiset{}, [Configure]), [Effect(NODE, Configure, told.servers)])
    ensures Settles(told, at)
  {
    var s, s' := told.servers[NODE], at.servers[NODE];
    assert Takes(Delivered(s, Configure), Configure, s', Some(Configure));
    assert Moves(s, s', Some(Configure)) && at == Became(told, NODE, s', Some(Configure));
    assert SettlesIn(told, told, 0) && Happens(told, at);
    assert SettlesIn(told, at, 1);
  }

  /** The state that transitions lead to from origin, one after another. */
  function Path(origin: State, ts: seq<Transition>): Option<State> {
    if ts == [] then Some(origin)
    else
      match Path(origin, ts[..|ts| - 1])
      case None => None
      case Some(s) => Table(s, ts[|ts| - 1])
  }

  predicate BringsUp(t: Transition) {
    t == Configure || t == Activate
  }

  predicate AllBringUp(ts: seq<Transition>) {
    forall k :: 0 <= k < |ts| ==> BringsUp(ts[k])
  }

  /** Nothing but bring-up transitions has been made, is being made or is on its way. */
  ghost predicate OnlyBroughtUp(s: Server) {
    && Path(s.origin, s.committed) == Some(s.rest)
    && AllBringUp(s.committed)
    && (forall t :: t in s.late ==> BringsUp(t))
    && (s.flight.Some? ==> BringsUp(s.flight.value) && Table(s.rest, s.flight.value).Some?)
  }

  /** No activation runs or is on its way. */
  ghost predicate NoActivate(s: Server) {
    s.flight != Some(Activate) && Activate !in s.late
  }

  /** The transitions among the effects that are those of n. */
  function TakenBy(effects: seq<Effect>, n: Name): seq<Transition> {
    if effects == [] then []
    else
      var last := effects[|effects| - 1];
      TakenBy(effects[..|effects| - 1], n) + if last.node == n then [last.t] else []
  }

  lemma TakenBySnoc(effects: seq<Effect>, e: Effect, n: Name)
    ensures TakenBy(effects + [e], n) == TakenBy(effects, n) + if e.node == n then [e.t] else []
  {
    assert (effects + [e])[..|effects|] == effects;
  }

  function MadeSeq(made: Option<Transition>): seq<Transition> {
    if made.Some? then [made.value] else []
  }

  lemma MovesCommits(s: Server, s': Server, made: Option<Transition>)
    requires Moves(s, s', made)
    ensures s'.committed == s.committed + MadeSeq(made)
  {
  }

  lemma AnswersCommits(s: Server, t: Transition, s': Server, made: Option<Transition>, r: Option<bool>)
    requires Answers(s, t, s', made, r)
    ensures s'.committed == s.committed + MadeSeq(made)
  {
  }

  lemma BecameLogged(w: World, n: Name, s: Server, made: Option<Transition>)
    requires n in w.servers && Logged(w) && s.committed == w.servers[n].committed + MadeSeq(made)
    ensures Logged(Became(w, n, s, made)) && w.effects <= Became(w, n, s, made).effects
  {
    hide TakenBy;
    var w' := Became(w, n, s, made);
    forall m | m in w'.servers ensures w'.servers[m].committed == TakenBy(w'.effects, m) {
      if made.Some? {
        TakenBySnoc(w.effects, Effect(n, made.value, w.servers), m);
      }
    }
  }

  lemma BecameTimely(nodes: seq<Name>, w: World, n: Name, s: Server, made: Option<Transition>, from: nat)
    requires n in w.servers && Timely(nodes, w.servers) && AllTimely(nodes, w.effects, from)
    requires forall m :: m in nodes ==> m in w.servers
    requires Up(w.servers[n]) ==> Up(s)
    requires AllUp(nodes, w.servers) || (NoActivate(s) && made != Some(Activate))
    ensures var w' := Became(w, n, s, made); Timely(nodes, w'.servers) && AllTimely(nodes, w'.effects, from)
  {
    hide Up, NoActivate;
  }

  /** Nothing but bring-up transitions anywhere and the effects all there are, activations only when all nodes are
      configured; and from effect number from on, activations took effect only when they were. */
  ghost predicate Orderly(nodes: seq<Name>, w: World, from: nat) {
    && (forall n :: n in nodes ==> n in w.servers)
    && (forall n :: n in w.servers ==> OnlyBroughtUp(w.servers[n]))
    && Logged(w) && Timely(nodes, w.servers) && AllTimely(nodes, w.effects, from)
  }

  /** The effects are all that took effect. */
  ghost predicate Logged(w: World) {
    forall n :: n in w.servers ==> w.servers[n].committed == TakenBy(w.effects, n)
  }

  ghost predicate Timely(nodes: seq<Name>, servers: Servers) {
    AllUp(nodes, servers) || forall n :: n in servers ==> NoActivate(servers[n])
  }

  ghost predicate AllTimely(nodes: seq<Name>, effects: seq<Effect>, from: nat) {
    forall k :: from <= k < |effects| && effects[k].t == Activate ==> AllUp(nodes, effects[k].servers)
  }

  /** What one server may do in an orderly world. */
  ghost predicate Onward(s: Server, s': Server) {
    OnlyBroughtUp(s') && (Up(s) ==> Up(s')) && (Running(s) ==> Running(s'))
  }

  lemma CommitKeeps(s: Server, t: Transition)
    requires OnlyBroughtUp(s) && Table(s.rest, t).Some? && BringsUp(t)
    ensures Onward(s, Committed(s, t)) && !Running(s)
  {
    CommittedBroughtUp(s, t);
    hide OnlyBroughtUp;
  }

  lemma CommittedBroughtUp(s: Server, t: Transition)
    requires OnlyBroughtUp(s) && Table(s.rest, t).Some? && BringsUp(t)
    ensures OnlyBroughtUp(Committed(s, t))
  {
    hide Path, Table, BringsUp, AllBringUp;
    PathSnoc(s.origin, s.committed, t);
    BringUpSnoc(s.committed, t);
  }

  lemma BringUpSnoc(ts: seq<Transition>, t: Transition)
    requires AllBringUp(ts) && BringsUp(t)
    ensures AllBringUp(ts + [t])
  {
  }

  lemma PathSnoc(origin: State, ts: seq<Transition>, t: Transition)
    requires Path(origin, ts).Some?
    ensures Path(origin, ts + [t]) == Table(Path(origin, ts).value, t)
  {
    assert (ts + [t])[..|ts|] == ts;
  }

  lemma BeginKeeps(s: Server, t: Transition)
    requires OnlyBroughtUp(s) && CanMake(s, t) && BringsUp(t)
    ensures Onward(s, s.(flight := Some(t)))
  {
    hide Path;
  }

  lemma TakesKeeps(s: Server, t: Transition, s': Server, made: Option<Transition>)
    requires OnlyBroughtUp(s) && BringsUp(t) && Takes(s, t, s', made)
    ensures Onward(s, s')
    ensures NoActivate(s) && t != Activate ==> NoActivate(s') && made != Some(Activate)
  {
    hide OnlyBroughtUp, Onward;
    if s' == s {
      OnwardSame(s);
    } else if made.Some? {
      CommitKeeps(s, t);
    } else {
      BeginKeeps(s, t);
    }
  }

  lemma OnwardSame(s: Server)
    requires OnlyBroughtUp(s)
    ensures Onward(s, s)
  {
  }

  lemma FlightKeeps(s: Server)
    requires OnlyBroughtUp(s) && s.flight.Some?
    ensures BringsUp(s.flight.value) && Table(s.rest, s.flight.value).Some? && Onward(s, s.(flight := None))
  {
    hide Path;
  }

  lemma LateKeeps(s: Server, t: Transition)
    requires OnlyBroughtUp(s) && t in s.late
    ensures BringsUp(t) && Onward(s, Delivered(s, t))
      && (NoActivate(s) ==> t != Activate && NoActivate(Delivered(s, t)))
  {
    hide Path;
  }

  lemma OnwardAgain(a: Server, b: Server, c: Server)
    requires Onward(a, b) && Onward(b, c)
    ensures Onward(a, c)
  {
    hide OnlyBroughtUp, Up, Running;
  }

  lemma MoveKeeps(s: Server, s': Server, made: Option<Transition>)
    requires OnlyBroughtUp(s) && Moves(s, s', made)
    ensures Onward(s, s')
    ensures NoActivate(s) ==> NoActivate(s') && made != Some(Activate)
  {
    hide OnlyBroughtUp, Onward, Takes, Delivered;
    if t :| t in s.late && Takes(Delivered(s, t), t, s', made) {
      LateKeeps(s, t);
      DeliveredKeeps(s, t);
      TakesKeeps(Delivered(s, t), t, s', made);
      OnwardAgain(s, Delivered(s, t), s');
    } else {
      FlightKeeps(s);
      CommitKeeps(s, s.flight.value);
    }
  }

  lemma DeliveredKeeps(s: Server, t: Transition)
    requires Onward(s, Delivered(s, t))
    ensures OnlyBroughtUp(Delivered(s, t))
  {
  }

  /** A step at one server of an orderly world, which may activate it only if all nodes are configured. */
  lemma StepOrderly(nodes: seq<Name>, w: World, n: Name, s: Server, made: Option<Transition>, from: nat)
    requires Orderly(nodes, w, from) && n in w.servers && Onward(w.servers[n], s)
    requires AllUp(nodes, w.servers) || (NoActivate(s) && made != Some(Activate))
    requires s.committed == w.servers[n].committed + MadeSeq(made)
    ensures Orderly(nodes, Became(w, n, s, made), from) && AllOnward(w, Became(w, n, s, made))
  {
    hide OnlyBroughtUp, Up, Running, NoActivate, Logged, Timely, AllTimely, MadeSeq, Onward, AllUp, AllOnward;
    OnwardSays(w.servers[n], s);
    OrderlyOnward(nodes, w, n, s, made, from);
    BecameLogged(w, n, s, made);
    BecameTimely(nodes, w, n, s, made, from);
  }

  /** Whatever the step is, no other server goes back. */
  lemma OrderlyOnward(nodes: seq<Name>, w: World, n: Name, s: Server, made: Option<Transition>, from: nat)
    requires Orderly(nodes, w, from) && n in w.servers && Onward(w.servers[n], s)
    ensures AllOnward(w, Became(w, n, s, made))
    ensures forall m :: m in Became(w, n, s, made).servers ==> OnlyBroughtUp(Became(w, n, s, made).servers[m])
  {
    hide OnlyBroughtUp, Onward, Logged, Timely, AllTimely;
    forall m | m in w.servers
      ensures OnlyBroughtUp(w.servers[n := s][m]) && Onward(w.servers[m], w.servers[n := s][m])
    {
      OnwardSame(w.servers[m]);
      OnwardSays(w.servers[n], s);
    }
  }

  lemma OnwardSays(s: Server, s': Server)
    requires Onward(s, s')
    ensures OnlyBroughtUp(s') && (Up(s) ==> Up(s')) && (Running(s) ==> Running(s'))
  {
  }

  ghost predicate AllOnward(a: World, b: World) {
    && a.servers.Keys == b.servers.Keys && a.effects <= b.effects
    && forall n :: n in a.servers ==> Onward(a.servers[n], b.servers[n])
  }

  lemma HappensOrderly(nodes: seq<Name>, w: World, w': World, from: nat)
    requires Orderly(nodes, w, from) && Happens(w, w')
    ensures Orderly(nodes, w', from) && AllOnward(w, w')
  {
    hide OnlyBroughtUp, Up, Running, NoActivate, Moves, Became, AllUp, Logged, AllTimely, MadeSeq, AllOnward, Onward;
    if n, s, made :| n in w.servers && Moves(w.servers[n], s, made) && w' == Became(w, n, s, made) {
      MoveKeeps(w.servers[n], s, made);
      MovesCommits(w.servers[n], s, made);
      StepOrderly(nodes, w, n, s, made, from);
    } else {
      AllOnwardSame(nodes, w, from);
    }
  }

  lemma AllOnwardSame(nodes: seq<Name>, w: World, from: nat)
    requires Orderly(nodes, w, from)
    ensures AllOnward(w, w)
  {
    hide OnlyBroughtUp, Onward, Logged, Timely, AllTimely;
    forall n | n in w.servers ensures Onward(w.servers[n], w.servers[n]) {
      OnwardSame(w.servers[n]);
    }
  }

  lemma {:induction false} SettlesOrderly(nodes: seq<Name>, w: World, w': World, k: nat, from: nat)
    requires Orderly(nodes, w, from) && SettlesIn(w, w', k)
    ensures Orderly(nodes, w', from) && AllOnward(w, w')
    decreases k
  {
    hide OnlyBroughtUp, Up, Running, NoActivate, Happens, AllUp, Logged, Timely, AllTimely;
    if k > 0 {
      var m :| SettlesIn(w, m, k - 1) && Happens(m, w');
      SettlesOrderly(nodes, w, m, k - 1, from);
      HappensOrderly(nodes, m, w', from);
    }
  }

  lemma SettleKeeps(nodes: seq<Name>, w: World, w': World, from: nat)
    requires Orderly(nodes, w, from) && Settles(w, w')
    ensures Orderly(nodes, w', from) && AllOnward(w, w')
  {
    hide Orderly, AllOnward, SettlesIn;
    var k: nat :| SettlesIn(w, w', k);
    SettlesOrderly(nodes, w, w', k, from);
  }

  /** The last of several transitions starts where the others lead. */
  lemma PathLast(origin: State, ts: seq<Transition>, k: nat)
    requires Path(origin, ts).Some? && k < |ts|
    ensures Path(origin, ts[..k]).Some? && Path(origin, ts[..k + 1]) == Table(Path(origin, ts[..k]).value, ts[k])
  {
    PathPrefix(origin, ts, k + 1);
    PathPrefix(origin, ts, k);
    assert ts[..k + 1][..k] == ts[..k];
  }

  /** A node configured and activated only: each took effect at most once, however often it was asked. */
  lemma EachAtMostOnce(s: Server)
    requires OnlyBroughtUp(s)
    ensures s.committed in {[], [Configure], [Activate], [Configure, Activate]}
    ensures s.committed == [] ==> s.rest == s.origin
  {
    var c := s.committed;
    FewSteps(s.origin, c);
    if |c| == 1 {
      assert c == [c[0]];
    } else if |c| == 2 {
      assert c == [c[0], c[1]];
    }
  }

  /** Two bring-up transitions at most, and two only as configure and activate. */
  lemma FewSteps(origin: State, c: seq<Transition>)
    requires Path(origin, c).Some? && AllBringUp(c)
    ensures |c| <= 2 && (|c| == 2 ==> c[0] == Configure && c[1] == Activate)
    ensures c == [] ==> Path(origin, c) == Some(origin)
  {
    if |c| >= 2 {
      PathLast(origin, c, 0);
      PathLast(origin, c, 1);
    }
    if |c| >= 3 {
      PathPrefix(origin, c, 3);
      PathLast(origin, c, 2);
    }
  }

  lemma {:induction false} PathPrefix(origin: State, ts: seq<Transition>, k: nat)
    requires Path(origin, ts).Some? && k <= |ts|
    ensures Path(origin, ts[..k]).Some?
  {
    if k == |ts| {
      assert ts[..k] == ts;
    } else {
      PathPrefix(origin, ts[..|ts| - 1], k);
      assert ts[..|ts| - 1][..k] == ts[..k];
    }
  }

  /** Asking for a bring-up transition, of a node and for activation only with all nodes configured. */
  lemma AskedKeeps(nodes: seq<Name>, w: World, n: Name, t: Transition, w': World, r: Option<bool>, from: nat)
    requires Orderly(nodes, w, from) && Asked(w, n, t, w', r) && BringsUp(t)
      && (t == Activate ==> AllUp(nodes, w.servers))
    ensures Orderly(nodes, w', from) && AllOnward(w, w')
  {
    hide OnlyBroughtUp, Up, Running, NoActivate, Answers, Became, AllUp, AllOnward, Onward, Logged, AllTimely, MadeSeq;
    var s, made :| Answers(w.servers[n], t, s, made, r) && w' == Became(w, n, s, made);
    AnswerKeeps(w.servers[n], t, s, made, r);
    AnswersCommits(w.servers[n], t, s, made, r);
    StepOrderly(nodes, w, n, s, made, from);
  }

  lemma AnswerKeeps(s: Server, t: Transition, s': Server, made: Option<Transition>, r: Option<bool>)
    requires OnlyBroughtUp(s) && BringsUp(t) && Answers(s, t, s', made, r)
    ensures Onward(s, s')
    ensures NoActivate(s) && t != Activate ==> NoActivate(s') && made != Some(Activate)
  {
    hide Path;
    if Takes(s, t, s', made) {
      hide Takes, OnlyBroughtUp;
      TakesKeeps(s, t, s', made);
    }
  }

  /** An acknowledged transition has been made. */
  lemma Acknowledged(w: World, n: Name, t: Transition, w': World, r: Option<bool>)
    requires Asked(w, n, t, w', r) && r == Some(true)
    ensures n in w.servers && CanMake(w.servers[n], t)
    ensures w'.servers == w.servers[n := Committed(w.servers[n], t)]
  {
  }

  // ----- the field that drives them -----

  /** How a bring-up ended. */
  datatype Outcome =
    | Done
    | Canceled
    | Unreachable(node: Name)
    | Refused(node: Name)
    | Blocked(node: Name, state: State)

  /** Could be brought up by somebody with patience: quiet, and not finalized. */
  ghost predicate Ready(s: Server) {
    Quiet(s) && (s.rest == Unconfigured || s.rest == Inactive || s.rest == Active)
  }

  ghost predicate Running(s: Server) {
    s.flight.None? && s.rest == Active
  }

  /** Pass 1 moves nodes from Unconfigured by Configure, pass 2 from Inactive by Activate. */
  function From(first: bool): State {
    if first then Unconfigured else Inactive
  }

  function To(first: bool): State {
    if first then Inactive else Active
  }

  function By(first: bool): Transition {
    if first then Configure else Activate
  }

  ghost predicate Reached(first: bool, s: Server) {
    if first then Up(s) else Running(s)
  }

  /** Every request from number k on is a good one. */
  ghost predicate AllGood(nodes: seq<Name>, origin: Servers, sent: seq<Sent>, k: nat) {
    forall j :: k <= j < |sent| ==> GoodRequest(nodes, origin, sent, j)
  }

  /** The first i nodes are past this pass, and in the second pass all are past the first. */
  ghost predicate Progress(nodes: seq<Name>, servers: Servers, first: bool, i: nat)
    requires i <= |nodes|
  {
    && (forall n :: n in nodes[..i] ==> n in servers && Reached(first, servers[n]))
    && (!first ==> AllUp(nodes, servers))
  }

  lemma OnwardProgress(nodes: seq<Name>, a: World, b: World, first: bool, i: nat)
    requires i <= |nodes| && Progress(nodes, a.servers, first, i) && AllOnward(a, b)
    ensures Progress(nodes, b.servers, first, i) && a.effects <= b.effects
  {
    hide OnlyBroughtUp, Up, Running;
  }

  lemma MoreProgress(nodes: seq<Name>, servers: Servers, first: bool, i: nat)
    requires i < |nodes| && Progress(nodes, servers, first, i) && nodes[i] in servers
      && Reached(first, servers[nodes[i]])
    ensures Progress(nodes, servers, first, i + 1)
  {
    hide Reached;
    assert nodes[..i + 1] == nodes[..i] + [nodes[i]];
  }

  /** A node that shows where this pass leads, or more. */
  lemma ShownReached(s: Server, first: bool)
    requires Shown(s) == To(first) || Shown(s) == Active
    ensures Reached(first, s)
  {
  }

  /** A node that shows what this pass has no use for. */
  lemma ShownBlocked(nodes: seq<Name>, servers: Servers, first: bool, i: nat)
    requires i < |nodes| && nodes[i] in servers && (!first ==> AllUp(nodes, servers))
    requires var s := Shown(servers[nodes[i]]); s != To(first) && s != Active && s != From(first)
    ensures var s := Shown(servers[nodes[i]]); s != Unconfigured && s != Inactive && s != Active
    ensures !AllReady(nodes, servers)
  {
    assert nodes[i] in nodes;
  }

  /** A request made of a node that told the state this pass moves from. */
  lemma AskedWell(nodes: seq<Name>, origin: Servers, sent: seq<Sent>, start: Servers, s: Sent, first: bool)
    requires Accounted(origin, sent, start) && s.node in start
    requires s.t == By(first) && s.told.Some? && Still(start, s.told.value.servers) && Settles(s.told.value, s.at)
    requires Still(s.told.value.servers, s.at.servers) && (!first ==> AllUp(nodes, s.at.servers))
    requires Shown(s.told.value.servers[s.node]) == From(first)
    ensures GoodRequest(nodes, origin, sent + [s], |sent|)
  {
    hide AllUp, Settles, Quiet, AllAnswered;
    FoundedOnTold(origin, sent, start, s);
  }

  lemma NoneBad(nodes: seq<Name>, origin: Servers, sent: seq<Sent>)
    ensures AllGood(nodes, origin, sent, |sent|)
  {
  }

  lemma OneGood(nodes: seq<Name>, origin: Servers, sent: seq<Sent>, s: Sent)
    requires GoodRequest(nodes, origin, sent + [s], |sent|)
    ensures AllGood(nodes, origin, sent + [s], |sent|)
  {
    hide GoodRequest;
  }

  lemma FoundedOnTold(origin: Servers, sent: seq<Sent>, start: Servers, s: Sent)
    requires Accounted(origin, sent, start) && s.node in start
    requires s.told.Some? && Still(start, s.told.value.servers) && Settles(s.told.value, s.at)
    requires Still(s.told.value.servers, s.at.servers) && CanMake(s.told.value.servers[s.node], s.t)
    ensures Founded(origin, sent + [s], |sent|)
  {
    hide Settles, Quiet, AllAnswered, CanMake;
    assert (sent + [s])[..|sent|] == sent;
  }

  /** Requests are judged by those before them. */
  lemma FoundedBefore(origin: Servers, before: seq<Sent>, sent: seq<Sent>, j: nat)
    requires j < |before| && before <= sent
    ensures sent[j] == before[j] && sent[..j] == before[..j]
    ensures Founded(origin, before, j) == Founded(origin, sent, j)
  {
    hide Settles, Quiet, AllAnswered, CanMake;
    assert sent[..|before|] == before;
    assert sent[..j] == sent[..|before|][..j];
  }

  /** The transition of this pass leads where the pass leads. */
  lemma MadeReached(s: Server, first: bool)
    requires CanMake(s, By(first))
    ensures Reached(first, Committed(s, By(first)))
    ensures Ready(s) ==> Ready(Committed(s, By(first)))
  {
  }

  // ----- shutdown -----

  ghost predicate Down(s: Server) {
    Quiet(s) && s.rest == Finalized
  }

  /** One turn of Shutdown: the node, the state it told, and its verdict if it was asked to shut down. */
  datatype Turn = Turn(node: Name, told: Option<State>, answer: Option<bool>)

  /** The calls of a turn: a declared node is asked for its state, and where it rests for the shutdown from there. */
  ghost function CallsOf(nodes: seq<Name>, turn: Turn): seq<Call> {
    var Turn(node, told, answer) := turn;
    if node !in nodes then []
    else
      match told
      case Some(Unconfigured) => [Told(node, told), Put(node, UnconfiguredShutdown, answer)]
      case Some(Inactive) => [Told(node, told), Put(node, InactiveShutdown, answer)]
      case Some(Active) => [Told(node, told), Put(node, ActiveShutdown, answer)]
      case _ => [Told(node, told)]
  }

  /** It failed: there is no such node, or a call to it was not answered or refused. */
  ghost predicate Failed(nodes: seq<Name>, turn: Turn) {
    || turn.node !in nodes
    || turn.told == None
    || ((turn.told == Some(Unconfigured) || turn.told == Some(Inactive) || turn.told == Some(Active))
        && turn.answer != Some(true))
  }

  ghost function AllCalls(nodes: seq<Name>, turns: seq<Turn>): seq<Call> {
    if turns == [] then []
    else AllCalls(nodes, turns[..|turns| - 1]) + CallsOf(nodes, turns[|turns| - 1])
  }

  /** The nodes of the turns that failed, in order. */
  ghost function Failures(nodes: seq<Name>, turns: seq<Turn>): seq<Name> {
    if turns == [] then []
    else
      var last := turns[|turns| - 1];
      Failures(nodes, turns[..|turns| - 1]) + if Failed(nodes, last) then [last.node] else []
  }

  /** How many calls of these turns were not answered or refused. */
  ghost function Harms(nodes: seq<Name>, turns: seq<Turn>): nat {
    if turns == [] then 0
    else
      var last := turns[|turns| - 1];
      Harms(nodes, turns[..|turns| - 1]) + if Failed(nodes, last) && last.node in nodes then 1 else 0
  }

  /** One turn for each target, from the last to the first. */
  ghost predicate TurnsBack(targets: seq<Name>, turns: seq<Turn>) {
    |turns| == |targets| && forall k :: 0 <= k < |turns| ==> turns[k].node == targets[|targets| - 1 - k]
  }

  /** What one turn adds to what was heard, and whether it failed. */
  ghost predicate Took(nodes: seq<Name>, turn: Turn, failed: bool, a: Tally, b: Tally) {
    && failed == Failed(nodes, turn)
    && b.calls == a.calls + CallsOf(nodes, turn)
    && a.silences <= b.silences && a.refusals <= b.refusals
    && b.silences + b.refusals == a.silences + a.refusals + if failed && turn.node in nodes then 1 else 0
  }

  /** What these turns have added, and which nodes failed. */
  ghost predicate TookAll(nodes: seq<Name>, turns: seq<Turn>, errs: seq<Name>, a: Tally, b: Tally) {
    && errs == Failures(nodes, turns)
    && b.calls == a.calls + AllCalls(nodes, turns)
    && a.silences <= b.silences && a.refusals <= b.refusals
    && b.silences + b.refusals == a.silences + a.refusals + Harms(nodes, turns)
  }

  lemma TookNone(nodes: seq<Name>, a: Tally)
    ensures TookAll(nodes, [], [], a, a)
  {
  }

  lemma TookMore(nodes: seq<Name>, turns: seq<Turn>, turn: Turn, errs: seq<Name>, failed: bool, a: Tally, b: Tally,
                 c: Tally)
    requires TookAll(nodes, turns, errs, a, b) && Took(nodes, turn, failed, b, c)
    ensures TookAll(nodes, turns + [turn], if failed then errs + [turn.node] else errs, a, c)
  {
    hide Failed, CallsOf, AllCalls, Failures, Harms;
    TurnSnoc(nodes, turns, turn);
    assert a.calls + AllCalls(nodes, turns) + CallsOf(nodes, turn)
        == a.calls + (AllCalls(nodes, turns) + CallsOf(nodes, turn));
  }

  /** A node that was asked for its state, and for the shutdown from there. */
  lemma AskedTwice(nodes: seq<Name>, node: Name, s: State, t: Transition, r: Option<bool>, a: Tally, b: Tally, c: Tally)
    requires node in nodes && ShutdownFor(s) == Some(t)
    requires b == Tally(a.calls + [Told(node, Some(s))], a.silences, a.refusals)
    requires c == Tally(b.calls + [Put(node, t, r)], b.silences + (if r.None? then 1 else 0),
                        b.refusals + if r == Some(false) then 1 else 0)
    ensures Took(nodes, Turn(node, Some(s), r), r != Some(true), a, c)
  {
    if r.Some? && r.value {
      assert r == Some(true);
    } else if r.Some? {
      assert r == Some(false);
    }
  }

  /** A node that was asked for its state only. */
  lemma AskedOnce(nodes: seq<Name>, node: Name, state: Option<State>, a: Tally, b: Tally)
    requires state.Some? ==> node in nodes && ShutdownFor(state.value) == None
    requires b == Tally(a.calls + (if node in nodes then [Told(node, state)] else []),
                        a.silences + (if node in nodes && state.None? then 1 else 0), a.refusals)
    ensures Took(nodes, Turn(node, state, None), state.None?, a, b)
  {
  }

  /** Every call of the turns was answered, and none refused, exactly if nothing more went wrong. */
  lemma TookWell(nodes: seq<Name>, targets: seq<Name>, turns: seq<Turn>, errs: seq<Name>, a: Tally, b: Tally)
    requires TookAll(nodes, turns, errs, a, b) && TurnsBack(targets, turns)
    ensures ErrsIn(nodes, targets, errs, a.silences == b.silences && a.refusals == b.refusals)
  {
    hide Failed, Harms, Failures, AllCalls;
    forall n ensures n in errs ==> n in targets
             ensures n in targets && n !in nodes ==> n in errs
             ensures Harms(nodes, turns) == 0 ==> (n in errs <==> n in targets && n !in nodes)
    {
      FailureIsTarget(nodes, targets, turns, n);
    }
  }

  ghost predicate TurnsFor(order: seq<Name>, turns: seq<Turn>) {
    |turns| <= |order| && forall k :: 0 <= k < |turns| ==> turns[k].node == order[k]
  }

  lemma NoTurns(order: seq<Name>)
    ensures TurnsFor(order, [])
  {
  }

  lemma TurnsForMore(order: seq<Name>, turns: seq<Turn>, turn: Turn)
    requires TurnsFor(order, turns) && |turns| < |order| && turn.node == order[|turns|]
    ensures TurnsFor(order, turns + [turn])
  {
  }

  lemma TurnsAll(targets: seq<Name>, order: seq<Name>, turns: seq<Turn>)
    requires |order| == |targets| && forall c :: 0 <= c < |targets| ==> order[c] == targets[|targets| - 1 - c]
    requires TurnsFor(order, turns) && |turns| == |order|
    ensures TurnsBack(targets, turns)
  {
  }

  lemma TurnSnoc(nodes: seq<Name>, turns: seq<Turn>, turn: Turn)
    ensures AllCalls(nodes, turns + [turn]) == AllCalls(nodes, turns) + CallsOf(nodes, turn)
    ensures Failures(nodes, turns + [turn]) == Failures(nodes, turns) + if Failed(nodes, turn) then [turn.node] else []
    ensures Harms(nodes, turns + [turn]) ==
      Harms(nodes, turns) + if Failed(nodes, turn) && turn.node in nodes then 1 else 0
  {
    assert (turns + [turn])[..|turns|] == turns;
  }

  /** The undeclared fail, and without such a call nobody else. */
  lemma {:induction false} FailedTurns(nodes: seq<Name>, turns: seq<Turn>, n: Name)
    ensures n in Failures(nodes, turns) ==> exists k :: 0 <= k < |turns| && turns[k].node == n
    ensures (exists k :: 0 <= k < |turns| && turns[k].node == n) && n !in nodes ==> n in Failures(nodes, turns)
    ensures Harms(nodes, turns) == 0 && n in Failures(nodes, turns) ==> n !in nodes
  {
    if turns != [] {
      var init, last := turns[..|turns| - 1], turns[|turns| - 1];
      FailedTurns(nodes, init, n);
      if last.node == n {
        assert turns[|turns| - 1].node == n;
      } else if k :| 0 <= k < |turns| && turns[k].node == n {
        assert init[k].node == n;
      }
    }
  }

  lemma FailureIsTarget(nodes: seq<Name>, targets: seq<Name>, turns: seq<Turn>, n: Name)
    requires TurnsBack(targets, turns)
    ensures n in Failures(nodes, turns) ==> n in targets
    ensures n in targets && n !in nodes ==> n in Failures(nodes, turns)
    ensures Harms(nodes, turns) == 0 && n in Failures(nodes, turns) ==> n !in nodes
  {
    hide Failed, Harms, Failures;
    FailedTurns(nodes, turns, n);
    if n in targets {
      var j :| 0 <= j < |targets| && targets[j] == n;
      assert turns[|targets| - 1 - j].node == n;
    }
  }

  /** reversed. */
  method Reversed(input: seq<Name>) returns (out: seq<Name>)
    ensures |out| == |input| && forall k :: 0 <= k < |input| ==> out[k] == input[|input| - 1 - k]
  {
    var slots := new Name[|input|](i => "");
    for i := 0 to |input|
      invariant forall k :: 0 <= k < i ==> slots[|input| - 1 - k] == input[k]
    {
      slots[|input| - 1 - i] := input[i];
    }
    out := slots[..];
    forall k | 0 <= k < |input| ensures out[k] == input[|input| - 1 - k] {
      assert slots[|input| - 1 - (|input| - 1 - k)] == input[|input| - 1 - k];
    }
  }

  /** A shutdown that was valid where its node last told it was. */
  ghost predicate ValidShutdown(origin: Servers, sent: seq<Sent>, j: nat)
    requires j < |sent|
  {
    var s := sent[j];
    Founded(origin, sent, j) && Table(s.told.value.servers[s.node].rest, s.t) == Some(Finalized)
  }

  /** x stands before y somewhere in targets. */
  ghost predicate Ahead(targets: seq<Name>, x: Name, y: Name) {
    exists a, b :: 0 <= a < b < |targets| && targets[a] == x && targets[b] == y
  }

  /** The requests from number k on are valid shutdowns, and of the targets listed last come first. */
  ghost predicate LastFirst(targets: seq<Name>, origin: Servers, sent: seq<Sent>, k: nat) {
    && (forall j :: k <= j < |sent| ==> ValidShutdown(origin, sent, j) && sent[j].node in targets)
    && (forall j, m :: k <= j < m < |sent| ==> Ahead(targets, sent[m].node, sent[j].node))
  }

  /** Halfway: requests from number k on went to some of the first i nodes of order, one after another. */
  ghost predicate InOrder(order: seq<Name>, origin: Servers, sent: seq<Sent>, k: nat, i: nat)
    requires i <= |order|
  {
    && (forall j :: k <= j < |sent| ==> ValidShutdown(origin, sent, j) && sent[j].node in order[..i])
    && (forall j, m :: k <= j < m < |sent| ==> Ahead(order[..i], sent[j].node, sent[m].node))
  }

  /** Halfway: nodes that were ready are down if their turn has come, unless they failed, else untouched. */
  ghost predicate Closing(nodes: seq<Name>, order: seq<Name>, origin: Servers, servers: Servers, errs: seq<Name>,
      i: nat)
    requires i <= |order|
  {
    && (forall n :: n in errs ==> n in order[..i])
    && (forall n :: n in order[..i] && n !in nodes ==> n in errs)
    && (forall n :: n in nodes ==> n in origin && n in servers)
    && (forall n :: n in nodes && Ready(origin[n]) && n !in errs ==>
      if n in order[..i] then Down(servers[n]) else servers[n] == origin[n])
  }

  lemma NoneClosed(nodes: seq<Name>, order: seq<Name>, servers: Servers, origin: Servers, sent: seq<Sent>)
    requires forall n :: n in nodes ==> n in servers
    ensures Closing(nodes, order, servers, servers, [], 0) && InOrder(order, origin, sent, |sent|, 0)
  {
  }

  lemma SettleClosing(nodes: seq<Name>, order: seq<Name>, origin: Servers, a: Servers, b: Servers, errs: seq<Name>,
      i: nat)
    requires i <= |order| && Closing(nodes, order, origin, a, errs, i) && Still(a, b)
    ensures Closing(nodes, order, origin, b, errs, i)
  {
    hide Quiet;
  }

  /** Node i has had its turn. */
  lemma Closed(nodes: seq<Name>, order: seq<Name>, origin: Servers, a: Servers, b: Servers, errs: seq<Name>,
      errs': seq<Name>, i: nat)
    requires i < |order| && Closing(nodes, order, origin, a, errs, i)
    requires b == a || (order[i] in b && b == a[order[i] := b[order[i]]])
    requires errs' == errs + [order[i]]
      || (errs' == errs && order[i] in nodes && order[i] in b
          && ((Quiet(a[order[i]]) ==> Down(b[order[i]])) || (b == a && ShutdownFor(Shown(b[order[i]])).None?)))
    ensures Closing(nodes, order, origin, b, errs', i + 1)
  {
    assert order[..i + 1] == order[..i] + [order[i]];
    forall n | n in nodes && Ready(origin[n]) && n !in errs'
      ensures if n in order[..i + 1] then Down(b[n]) else b[n] == origin[n]
    {
      assert n !in errs;
      assert if n in order[..i] then Down(a[n]) else a[n] == origin[n];
      if n == order[i] {
        assert errs' == errs by {
          assert (errs + [order[i]])[|errs|] == n;
        }
      }
    }
  }

  lemma AskedDown(origin: Servers, sent: seq<Sent>, start: Servers, s: Sent)
    requires Accounted(origin, sent, start) && s.node in start
    requires s.told.Some? && Still(start, s.told.value.servers) && Settles(s.told.value, s.at)
    requires Still(s.told.value.servers, s.at.servers) && ShutdownFor(Shown(s.told.value.servers[s.node])) == Some(s.t)
    ensures ValidShutdown(origin, sent + [s], |sent|)
  {
    hide Settles, Accounted, Quiet, Founded;
    TablesAgree(Shown(s.told.value.servers[s.node]), s.t);
    FoundedOnTold(origin, sent, start, s);
  }

  /** An acknowledged shutdown of a quiet node. */
  lemma GoneDown(s0: State, w: World, n: Name, t: Transition, w': World, r: Option<bool>)
    requires ShutdownFor(s0) == Some(t) && Asked(w, n, t, w', r) && r == Some(true)
    ensures n in w'.servers && (Quiet(w.servers[n]) ==> Down(w'.servers[n]))
  {
    Acknowledged(w, n, t, w', r);
    ShutdownTo(w.servers[n].rest, t);
  }

  /** Shutdown transitions lead to one place. */
  lemma ShutdownTo(s: State, t: Transition)
    requires Table(s, t).Some? && exists s0 :: ShutdownFor(s0) == Some(t)
    ensures Table(s, t) == Some(Finalized)
  {
  }

  lemma Skipped(order: seq<Name>, origin: Servers, sent: seq<Sent>, k: nat, i: nat)
    requires i < |order| && InOrder(order, origin, sent, k, i)
    ensures InOrder(order, origin, sent, k, i + 1)
  {
    hide ValidShutdown, Ahead;
    assert order[..i + 1] == order[..i] + [order[i]];
    forall j, m | k <= j < m < |sent| ensures Ahead(order[..i + 1], sent[j].node, sent[m].node) {
      AheadGrows(order, i, sent[j].node, sent[m].node);
    }
  }

  lemma AheadGrows(order: seq<Name>, i: nat, x: Name, y: Name)
    requires i < |order| && Ahead(order[..i], x, y)
    ensures Ahead(order[..i + 1], x, y)
  {
    var a, b :| 0 <= a < b < i && order[..i][a] == x && order[..i][b] == y;
    assert order[..i + 1][a] == x && order[..i + 1][b] == y;
  }

  lemma Requested(order: seq<Name>, origin: Servers, before: seq<Sent>, s: Sent, k: nat, i: nat)
    requires i < |order| && InOrder(order, origin, before, k, i) && k <= |before|
    requires s.node == order[i] && ValidShutdown(origin, before + [s], |before|)
    ensures InOrder(order, origin, before + [s], k, i + 1)
  {
    Skipped(order, origin, before, k, i);
    var sent := before + [s];
    assert order[..i + 1][i] == order[i];
    forall j | k <= j < |before|
      ensures sent[j] == before[j] && ValidShutdown(origin, sent, j) && Ahead(order[..i + 1], sent[j].node, order[i])
    {
      hide Founded, Ahead;
      FoundedBefore(origin, before, sent, j);
      AheadOf(order, i, before[j].node);
    }
    hide ValidShutdown, Ahead;
  }

  lemma AheadOf(order: seq<Name>, i: nat, x: Name)
    requires i < |order| && x in order[..i]
    ensures Ahead(order[..i + 1], x, order[i])
  {
    var a :| 0 <= a < i && order[..i][a] == x;
    assert order[..i + 1][a] == x && order[..i + 1][i] == order[i];
  }

  lemma BackwardsSame(targets: seq<Name>, order: seq<Name>)
    requires |order| == |targets| && forall c :: 0 <= c < |targets| ==> order[c] == targets[|targets| - 1 - c]
    ensures order[..|order|] == order && forall n :: n in order <==> n in targets
  {
    forall n | n in targets ensures n in order {
      var k :| 0 <= k < |targets| && targets[k] == n;
      assert order[|targets| - 1 - k] == n;
    }
  }

  /** Every declared target that was quiet and at rest is down, unless it failed. */
  ghost predicate AllDown(nodes: seq<Name>, targets: seq<Name>, origin: Servers, servers: Servers, errs: seq<Name>) {
    forall n :: n in targets && n in nodes && n !in errs ==>
      n in origin && n in servers && (Ready(origin[n]) ==> Down(servers[n]))
  }

  /** Those that are not declared fail, and no others unless something went wrong. */
  ghost predicate ErrsIn(nodes: seq<Name>, targets: seq<Name>, errs: seq<Name>, well: bool) {
    && (forall n :: n in errs ==> n in targets)
    && (forall n :: n in targets && n !in nodes ==> n in errs)
    && (well ==> forall n :: n in errs ==> n !in nodes)
  }

  lemma ClosedAll(nodes: seq<Name>, targets: seq<Name>, order: seq<Name>, origin: Servers, servers: Servers,
      errs: seq<Name>)
    requires |order| == |targets| && forall c :: 0 <= c < |targets| ==> order[c] == targets[|targets| - 1 - c]
    requires Closing(nodes, order, origin, servers, errs, |order|)
    ensures AllDown(nodes, targets, origin, servers, errs)
  {
    hide Ready, Down;
    BackwardsSame(targets, order);
  }

  lemma AllLastFirst(targets: seq<Name>, order: seq<Name>, origin: Servers, sent: seq<Sent>, k: nat)
    requires |order| == |targets| && forall c :: 0 <= c < |targets| ==> order[c] == targets[|targets| - 1 - c]
    requires InOrder(order, origin, sent, k, |order|)
    ensures LastFirst(targets, origin, sent, k)
  {
    hide ValidShutdown, Ahead;
    BackwardsSame(targets, order);
    forall j, m | k <= j < m < |sent| ensures Ahead(targets, sent[m].node, sent[j].node) {
      BackwardsAhead(targets, order, origin, sent, k, j, m);
    }
  }

  lemma BackwardsAhead(targets: seq<Name>, order: seq<Name>, origin: Servers, sent: seq<Sent>, k: nat, j: nat, m: nat)
    requires |order| == |targets| && forall c :: 0 <= c < |targets| ==> order[c] == targets[|targets| - 1 - c]
    requires InOrder(order, origin, sent, k, |order|) && k <= j < m < |sent|
    ensures Ahead(targets, sent[m].node, sent[j].node)
  {
    assert order[..|order|] == order;
    var a, b :| 0 <= a < b < |order| && order[a] == sent[j].node && order[b] == sent[m].node;
    assert targets[|targets| - 1 - b] == order[b] && targets[|targets| - 1 - a] == order[a];
  }

  class Lifecycle {
    const nodes: seq<Name>
    const net: Network
    var seen: map<Name, State>

    ghost predicate Valid()
      reads net
    {
      Distinct(nodes) && (forall n :: n in nodes ==> n in net.servers) && Accounted(net.origin, net.sent, net.servers)
    }

    constructor (nodes: seq<Name>, net: Network)
      requires Distinct(nodes) && (forall n :: n in nodes ==> n in net.servers)
      requires Accounted(net.origin, net.sent, net.servers)
      ensures this.nodes == nodes && this.net == net && seen == map[] && Valid()
    {
      this.nodes, this.net, seen := nodes, net, map[];
    }

    /** State: None when the call fails, and for a node that was not declared; else what the node showed when it was
        met. */
    method State(node: Name) returns (r: Option<State>, ghost met: World)
      requires Valid()
      modifies this, net`servers, net`effects, net`silences, net`told, net`calls
      ensures net.calls == old(net.calls) + if node in nodes then [Told(node, r)] else []
      ensures Valid() && Settles(old(net.Now()), met) && Settles(met, net.Now())
      ensures Still(old(net.servers), met.servers) && Still(met.servers, net.servers)
      ensures node !in nodes ==> r == None && seen == old(seen) && net.silences == old(net.silences)
      ensures node in nodes ==>
        && node in met.servers && seen == old(seen)[node := (if r.Some? then r.value else Unknown)]
        && (r.Some? ==> r.value == Shown(met.servers[node]) && net.told == old(net.told)[node := met])
        && net.silences == old(net.silences) + if r.None? then 1 else 0
    {
      hide Settles, Still, Accounted;
      met := net.Now();
      ghost var start := met;
      if node !in nodes {
        SettlesAtOnce(start);
        SettleStill(start, start);
        return None, met;
      }
      r, met := net.GetState(node);
      SettleStill(start, met);
      SettleStill(met, net.Now());
      AccountedStill(net.origin, net.sent, start.servers, met.servers);
      AccountedStill(net.origin, net.sent, met.servers, net.servers);
      SameKeys(start.servers, met.servers);
      SameKeys(met.servers, net.servers);
      seen := seen[node := (if r.Some? then r.value else Unknown)];
    }

    /** Transition: None when the call fails, and for a node that was not declared; else the node's verdict. */
    method Transition(node: Name, t: Transition) returns (r: Option<bool>, ghost met: World, ghost left: World)
      requires Valid()
      modifies this, net
      ensures Valid() && (node !in nodes ==> r == None && Untouched(old(seen), old(net.Now()), old(net.sent)))
      ensures node in nodes ==>
        && net.sent == old(net.sent)
             + [Sent(node, t, if node in net.told then Some(net.told[node]) else None, old(net.Now()), r)]
        && Settles(old(net.Now()), met) && Asked(met, node, t, left, r) && Settles(left, net.Now())
        && Still(old(net.servers), met.servers) && Still(left.servers, net.servers)
      ensures net.told == old(net.told)
      ensures net.calls == old(net.calls) + if node in nodes then [Put(node, t, r)] else []
      ensures net.silences == old(net.silences) + if node in nodes && r.None? then 1 else 0
      ensures net.refusals == old(net.refusals) + if r == Some(false) then 1 else 0
      ensures seen == if r == Some(true) && ResultOf(t).Some? then old(seen)[node := ResultOf(t).value] else old(seen)
    {
      hide Settles, Still, Accounted, Asked;
      ghost var start, sent := net.Now(), net.sent;
      if node !in nodes {
        return None, start, start;
      }
      r, met, left := net.ChangeState(node, t);
      SettleStill(start, met);
      SettleStill(left, net.Now());
      AskedKeys(met, node, t, left, r);
      SameKeys(start.servers, met.servers);
      SameKeys(left.servers, net.servers);
      AccountedAsked(net.origin, sent, start.servers, met, net.sent[|sent|], left, net.servers);
      if r == Some(true) && ResultOf(t).Some? {
        seen := seen[node := ResultOf(t).value];
      }
    }

    ghost predicate Untouched(seen: map<Name, State>, now: World, sent: seq<Sent>)
      reads this, net
    {
      this.seen == seen && net.Now() == now && net.sent == sent
    }

    /** One turn of the inner loop of BringUp; Done says to go on. */
    method Visit(first: bool, i: nat, ghost from: nat) returns (o: Outcome)
      requires Valid() && i < |nodes| && Orderly(nodes, net.Now(), from) && Progress(nodes, net.servers, first, i)
      modifies this, net
      ensures Valid() && Orderly(nodes, net.Now(), from) && old(net.effects) <= net.effects
      ensures old(net.sent) <= net.sent && AllGood(nodes, net.origin, net.sent, |old(net.sent)|)
      ensures o == Done ==> Progress(nodes, net.servers, first, i + 1) && Unharmed(old(net.silences), old(net.refusals))
      ensures Justified(o, old(net.silences), old(net.refusals)) && o != Canceled
      ensures AllReady(nodes, old(net.servers)) ==> !o.Blocked? && (o == Done ==> AllReady(nodes, net.servers))
    {
      hide Orderly, Progress, AllReady, GoodRequest, Settles, Still, Asked, AllUp, AllOnward, Reached, CanMake,
        Accounted;
      hide AllGood, Distinct;
      assert nodes[i] in nodes;
      var node := nodes[i];
      NoneBad(nodes, net.origin, net.sent);
      ghost var start := net.Now();
      var state;
      ghost var met;
      state, met := State(node);
      ghost var asked := net.Now();
      Looked(nodes, start, met, asked, first, i, from);
      if state.None? {
        return Unreachable(node);
      }
      if state.value == To(first) || state.value == Active {
        Seen(nodes, met, asked, first, i);
        return Done;
      }
      if state.value != From(first) {
        ShownBlocked(nodes, met.servers, first, i);
        return Blocked(node, state.value);
      }
      var r := Advance(first, i, start.servers, from);
      if r.None? {
        return Unreachable(node);
      }
      if !r.value {
        return Refused(node);
      }
      return Done;
    }

    /** The request of this turn, made of a node that has just told the state it starts from. */
    method Advance(first: bool, i: nat, ghost start: Servers, ghost from: nat) returns (r: Option<bool>)
      requires Valid() && i < |nodes| && Orderly(nodes, net.Now(), from) && Progress(nodes, net.servers, first, i)
      requires nodes[i] in net.told && JustTold(start, net.told[nodes[i]], nodes[i], From(first))
      modifies this, net
      ensures Valid() && Orderly(nodes, net.Now(), from) && old(net.effects) <= net.effects
      ensures old(net.sent) <= net.sent && AllGood(nodes, net.origin, net.sent, |old(net.sent)|)
      ensures r == Some(true) ==> Progress(nodes, net.servers, first, i + 1)
      ensures r == Some(true) && AllReady(nodes, old(net.servers)) ==> AllReady(nodes, net.servers)
      ensures net.silences == old(net.silences) + if r.None? then 1 else 0
      ensures net.refusals == old(net.refusals) + if r == Some(false) then 1 else 0
    {
      hide Orderly, Progress, AllReady, GoodRequest, Settles, Still, Asked, AllUp, Accounted, AllGood, Distinct;
      ghost var asked, sent := net.Now(), net.sent;
      ProgressUp(nodes, net.servers, first, i);
      ghost var there, left;
      r, there, left := Transition(nodes[i], By(first));
      AskedWell(nodes, net.origin, sent, start, net.sent[|sent|], first);
      OneGood(nodes, net.origin, sent, net.sent[|sent|]);
      AskedAndKept(nodes, asked, there, nodes[i], left, net.Now(), r, first, i, from);
    }

    /** Since the start of this turn nothing has happened but what was under way, and in between n showed s. */
    ghost predicate JustTold(start: Servers, met: World, n: Name, s: State)
      reads net
    {
      && Accounted(net.origin, net.sent, start) && n in start && n in met.servers && Shown(met.servers[n]) == s
      && Still(start, met.servers) && Settles(met, net.Now()) && Still(met.servers, net.servers)
    }

    /** No call has failed since. */
    ghost predicate Unharmed(silences: nat, refusals: nat)
      reads net
    {
      net.silences == silences && net.refusals == refusals
    }

    /** What must have happened for a bring-up to end like this. */
    ghost predicate Justified(o: Outcome, silences: nat, refusals: nat)
      reads net
    {
      match o
      case Done => Unharmed(silences, refusals)
      case Canceled => Unharmed(silences, refusals)
      case Unreachable(n) => n in nodes && Unharmed(silences + 1, refusals)
      case Refused(n) => n in nodes && Unharmed(silences, refusals + 1)
      case Blocked(n, s) =>
        && n in nodes && n in net.told && n in net.told[n].servers && s == Shown(net.told[n].servers[n])
        && s != Unconfigured && s != Inactive && s != Active && Unharmed(silences, refusals)
    }

    /** BringUp: configure every node in order, then activate every node in order. The context ends after
        so many of its checks, or never. */
    method BringUp(patience: Option<nat>, ghost from: nat) returns (o: Outcome)
      requires Valid() && Orderly(nodes, net.Now(), from)
      modifies this, net
      ensures Valid() && Orderly(nodes, net.Now(), from)
      ensures old(net.sent) <= net.sent && AllGood(nodes, net.origin, net.sent, |old(net.sent)|)
      ensures old(net.effects) <= net.effects
      ensures o == Done ==> forall n :: n in nodes ==> Running(net.servers[n])
      ensures Justified(o, old(net.silences), old(net.refusals))
      ensures o == Canceled ==> patience.Some? && patience.value < 2 * |nodes|
      ensures AllReady(nodes, old(net.servers)) ==> !o.Blocked?
    {
      hide Orderly, AllReady, AllUp, Progress, GoodRequest;
      ghost var start := net.sent;
      var checks: nat := 0;
      for pass := 0 to 2
        invariant checks == pass * |nodes|
        invariant pass > 0 ==> Progress(nodes, net.servers, pass == 1, |nodes|)
        invariant Valid() && Orderly(nodes, net.Now(), from)
        invariant start <= net.sent && AllGood(nodes, net.origin, net.sent, |start|)
        invariant old(net.effects) <= net.effects
        invariant Unharmed(old(net.silences), old(net.refusals))
        invariant AllReady(nodes, old(net.servers)) ==> AllReady(nodes, net.servers)
      {
        var first := pass == 0;
        PassBegins(nodes, net.servers, first);
        for i := 0 to |nodes|
          invariant checks == pass * |nodes| + i
          invariant Progress(nodes, net.servers, first, i)
          invariant Valid() && Orderly(nodes, net.Now(), from)
          invariant start <= net.sent && AllGood(nodes, net.origin, net.sent, |start|)
          invariant old(net.effects) <= net.effects
          invariant Unharmed(old(net.silences), old(net.refusals))
          invariant AllReady(nodes, old(net.servers)) ==> AllReady(nodes, net.servers)
        {
          if patience.Some? && patience.value <= checks {
            return Canceled;
          }
          checks := checks + 1;
          ghost var before := net.sent;
          o := Visit(first, i, from);
          GoodSoFar(nodes, net.origin, start, before, net.sent);
          if o != Done {
            return;
          }
        }
      }
      AllRunning(nodes, net.servers);
      return Done;
    }

    /** A mission step with a retry tag: bring-up again and again, until it works. */
    method RetryBringUp(attempts: nat, ghost from: nat) returns (o: Outcome)
      requires Valid() && Orderly(nodes, net.Now(), from)
      modifies this, net
      ensures Valid() && Orderly(nodes, net.Now(), from)
      ensures old(net.sent) <= net.sent && AllGood(nodes, net.origin, net.sent, |old(net.sent)|)
      ensures old(net.effects) <= net.effects
      ensures forall n :: n in nodes ==>
        net.servers[n].committed in {[], [Configure], [Activate], [Configure, Activate]}
      ensures o == Done ==> forall n :: n in nodes ==> Running(net.servers[n])
    {
      hide GoodRequest, Orderly;
      ghost var start := net.sent;
      o := BringUp(None, from);
      for k := 0 to attempts
        invariant Valid() && Orderly(nodes, net.Now(), from)
        invariant start <= net.sent && AllGood(nodes, net.origin, net.sent, |start|)
        invariant old(net.effects) <= net.effects
        invariant o == Done ==> forall n :: n in nodes ==> Running(net.servers[n])
      {
        if o == Done {
          break;
        }
        ghost var before := net.sent;
        o := BringUp(None, from);
        GoodSoFar(nodes, net.origin, start, before, net.sent);
      }
      forall n | n in nodes ensures net.servers[n].committed in {[], [Configure], [Activate], [Configure, Activate]} {
        OrderlyAt(nodes, net.Now(), from, n);
        EachAtMostOnce(net.servers[n]);
      }
    }

    /** Shutdown of the named nodes, or of all of them: in reverse order, each by the shutdown that is valid
        where it is. The nodes that failed are returned. */
    method Shutdown(names: seq<Name>) returns (errs: seq<Name>, ghost turns: seq<Turn>)
      requires Valid()
      modifies this, net
      ensures Valid() && old(net.sent) <= net.sent
      ensures TurnsBack(if names == [] then nodes else names, turns)
      ensures TookAll(nodes, turns, errs, old(net.Heard()), net.Heard())
      ensures var targets := if names == [] then nodes else names;
        && ErrsIn(nodes, targets, errs, net.silences == old(net.silences) && net.refusals == old(net.refusals))
        && LastFirst(targets, net.origin, net.sent, |old(net.sent)|)
        && AllDown(nodes, targets, old(net.servers), net.servers, errs)
    {
      var targets := if names == [] then nodes else names;
      var backwards := Reversed(targets);
      ghost var origin, start := net.servers, net.sent;
      errs, turns := [], [];
      hide Closing, InOrder, LastFirst, ValidShutdown, Settles, Still, Asked, Quiet, Ready, Down, Accounted;
      hide Took, TookAll, ErrsIn, AllDown, TurnsFor, TurnsBack;
      NoneClosed(nodes, backwards, origin, net.origin, net.sent);
      hide Valid;
      NoTurns(backwards);
      TookNone(nodes, net.Heard());
      for i := 0 to |backwards|
        invariant Valid() && start <= net.sent
        invariant Closing(nodes, backwards, origin, net.servers, errs, i)
        invariant InOrder(backwards, net.origin, net.sent, |start|, i)
        invariant |turns| == i && TurnsFor(backwards, turns)
        invariant TookAll(nodes, turns, errs, old(net.Heard()), net.Heard())
      {
        ghost var before := net.Heard();
        var failed;
        ghost var turn;
        failed, turn := StopOne(backwards, i, origin, |start|, errs);
        TookMore(nodes, turns, turn, errs, failed, old(net.Heard()), before, net.Heard());
        TurnsForMore(backwards, turns, turn);
        turns := turns + [turn];
        if failed {
          errs := errs + [backwards[i]];
        }
      }
      TurnsAll(targets, backwards, turns);
      ClosedAll(nodes, targets, backwards, origin, net.servers, errs);
      AllLastFirst(targets, backwards, net.origin, net.sent, |start|);
      TookWell(nodes, targets, turns, errs, old(net.Heard()), net.Heard());
    }

    /** One turn of the loop of Shutdown: whether it failed. */
    method StopOne(order: seq<Name>, i: nat, ghost origin: Servers, ghost k: nat, ghost errs: seq<Name>)
        returns (failed: bool, ghost turn: Turn)
      requires Valid() && i < |order| && k <= |net.sent|
      requires Closing(nodes, order, origin, net.servers, errs, i) && InOrder(order, net.origin, net.sent, k, i)
      modifies this, net
      ensures Valid() && old(net.sent) <= net.sent
      ensures turn.node == order[i] && Took(nodes, turn, failed, old(net.Heard()), net.Heard())
      ensures Closing(nodes, order, origin, net.servers, if failed then errs + [order[i]] else errs, i + 1)
      ensures InOrder(order, net.origin, net.sent, k, i + 1)
    {
      hide Closing, InOrder, ValidShutdown, Settles, Still, Asked, Quiet, Ready, Down, Accounted, Took;
      var node := order[i];
      ghost var start, sent := net.Now(), net.sent;
      var state;
      ghost var met;
      state, met := State(node);
      ghost var heard := net.Heard();
      SettleClosing(nodes, order, origin, start.servers, met.servers, errs, i);
      Skipped(order, net.origin, sent, k, i);
      if state.None? {
        Closed(nodes, order, origin, met.servers, met.servers, errs, errs + [node], i);
        SettleClosing(nodes, order, origin, met.servers, net.servers, errs + [node], i + 1);
        AskedOnce(nodes, node, state, old(net.Heard()), heard);
        return true, Turn(node, None, None);
      }
      var t := ShutdownFor(state.value);
      if t.None? {
        Closed(nodes, order, origin, met.servers, met.servers, errs, errs, i);
        SettleClosing(nodes, order, origin, met.servers, net.servers, errs, i + 1);
        AskedOnce(nodes, node, state, old(net.Heard()), heard);
        return false, Turn(node, state, None);
      }
      SettleClosing(nodes, order, origin, met.servers, net.servers, errs, i);
      ghost var asked := net.servers;
      var r;
      ghost var there, left;
      r, there, left := Transition(node, t.value);
      SettleClosing(nodes, order, origin, asked, there.servers, errs, i);
      AskedDown(net.origin, sent, start.servers, net.sent[|sent|]);
      Requested(order, net.origin, sent, net.sent[|sent|], k, i);
      AskedOnly(there, node, t.value, left, r);
      failed, turn := r != Some(true), Turn(node, state, r);
      AskedTwice(nodes, node, state.value, t.value, r, old(net.Heard()), heard, net.Heard());
      if !failed {
        GoneDown(state.value, there, node, t.value, left, r);
      }
      ghost var errs' := if failed then errs + [node] else errs;
      Closed(nodes, order, origin, there.servers, left.servers, errs, errs', i);
      SettleClosing(nodes, order, origin, left.servers, net.servers, errs', i + 1);
    }
  }

  ghost predicate AllReady(nodes: seq<Name>, servers: Servers) {
    forall n :: n in nodes ==> n in servers && Ready(servers[n])
  }

  lemma StillReady(nodes: seq<Name>, a: Servers, b: Servers)
    requires Still(a, b)
    ensures AllReady(nodes, a) ==> AllReady(nodes, b)
  {
    hide Quiet;
  }

  lemma SameKeys(a: Servers, b: Servers)
    requires Still(a, b)
    ensures a.Keys == b.Keys
  {
  }

  lemma SettlesAtOnce(w: World)
    ensures Settles(w, w)
  {
    assert SettlesIn(w, w, 0);
  }

  /** Only the node that was asked changes. */
  lemma AskedOnly(w: World, n: Name, t: Transition, w': World, r: Option<bool>)
    requires Asked(w, n, t, w', r)
    ensures n in w'.servers && w'.servers == w.servers[n := w'.servers[n]]
  {
    hide Answers;
  }

  lemma AskedKeys(w: World, n: Name, t: Transition, w': World, r: Option<bool>)
    requires Asked(w, n, t, w', r)
    ensures w'.servers.Keys == w.servers.Keys
  {
    hide Answers;
  }

  lemma ProgressUp(nodes: seq<Name>, servers: Servers, first: bool, i: nat)
    requires i <= |nodes| && Progress(nodes, servers, first, i)
    ensures !first ==> AllUp(nodes, servers)
  {
    hide AllUp;
  }

  /** What a pass has reached when the last one is complete. */
  lemma PassBegins(nodes: seq<Name>, servers: Servers, first: bool)
    requires !first ==> Progress(nodes, servers, true, |nodes|)
    ensures Progress(nodes, servers, first, 0)
  {
    assert nodes[..|nodes|] == nodes;
  }

  lemma AllRunning(nodes: seq<Name>, servers: Servers)
    requires Progress(nodes, servers, false, |nodes|)
    ensures forall n :: n in nodes ==> n in servers && Running(servers[n])
  {
    assert nodes[..|nodes|] == nodes;
  }

  lemma OrderlyAt(nodes: seq<Name>, w: World, from: nat, n: Name)
    requires Orderly(nodes, w, from) && n in nodes
    ensures n in w.servers && OnlyBroughtUp(w.servers[n])
  {
    hide OnlyBroughtUp;
  }

  /** Between the start of a turn, the answer of the node and the moment it is heard. */
  lemma Looked(nodes: seq<Name>, start: World, met: World, now: World, first: bool, i: nat, from: nat)
    requires i <= |nodes| && Orderly(nodes, start, from) && Progress(nodes, start.servers, first, i)
    requires Settles(start, met) && Settles(met, now)
    requires Still(start.servers, met.servers) && Still(met.servers, now.servers)
    ensures Progress(nodes, met.servers, first, i) && AllOnward(met, now)
    ensures Orderly(nodes, now, from) && Progress(nodes, now.servers, first, i) && start.effects <= now.effects
    ensures !first ==> AllUp(nodes, met.servers) && AllUp(nodes, now.servers)
    ensures AllReady(nodes, start.servers) ==> AllReady(nodes, met.servers) && AllReady(nodes, now.servers)
  {
    hide *;
    SettleKeeps(nodes, start, met, from);
    OnwardProgress(nodes, start, met, first, i);
    StillReady(nodes, start.servers, met.servers);
    SettleKeeps(nodes, met, now, from);
    OnwardProgress(nodes, met, now, first, i);
    StillReady(nodes, met.servers, now.servers);
    ProgressUp(nodes, met.servers, first, i);
    ProgressUp(nodes, now.servers, first, i);
  }

  /** Node i was past this pass when it answered. */
  lemma Seen(nodes: seq<Name>, met: World, now: World, first: bool, i: nat)
    requires i < |nodes| && nodes[i] in met.servers && Progress(nodes, met.servers, first, i) && AllOnward(met, now)
    requires Shown(met.servers[nodes[i]]) == To(first) || Shown(met.servers[nodes[i]]) == Active
    ensures Progress(nodes, now.servers, first, i + 1)
  {
    hide Progress, AllOnward, Reached, Shown;
    ShownReached(met.servers[nodes[i]], first);
    MoreProgress(nodes, met.servers, first, i);
    OnwardProgress(nodes, met, now, first, i + 1);
  }

  /** Asking node i for the transition of this pass. */
  lemma AskedAndKept(nodes: seq<Name>, w: World, met: World, node: Name, left: World, now: World, r: Option<bool>,
                     first: bool, i: nat, from: nat)
    requires i < |nodes| && node == nodes[i] && Orderly(nodes, w, from) && Progress(nodes, w.servers, first, i)
    requires Settles(w, met) && Still(w.servers, met.servers) && Asked(met, node, By(first), left, r)
    requires Settles(left, now) && Still(left.servers, now.servers)
    ensures Orderly(nodes, now, from) && w.effects <= now.effects
    ensures r == Some(true) ==> Progress(nodes, now.servers, first, i + 1)
    ensures r == Some(true) && AllReady(nodes, w.servers) ==> AllReady(nodes, now.servers)
  {
    hide *;
    PassAsks(first);
    SettleKeeps(nodes, w, met, from);
    OnwardProgress(nodes, w, met, first, i);
    StillReady(nodes, w.servers, met.servers);
    ProgressUp(nodes, met.servers, first, i);
    AskedKeeps(nodes, met, node, By(first), left, r, from);
    OnwardProgress(nodes, met, left, first, i);
    SettleKeeps(nodes, left, now, from);
    OnwardProgress(nodes, left, now, first, i);
    if r == Some(true) {
      Acknowledged(met, node, By(first), left, r);
      MadeReached(met.servers[node], first);
      MoreProgress(nodes, left.servers, first, i);
      OnwardProgress(nodes, left, now, first, i + 1);
      OneReady(nodes, met.servers, node, left.servers[node]);
      StillReady(nodes, left.servers, now.servers);
    }
  }

  lemma PassAsks(first: bool)
    ensures BringsUp(By(first)) && (By(first) == Activate <==> !first)
  {
  }

  lemma OneReady(nodes: seq<Name>, servers: Servers, node: Name, s: Server)
    requires node in nodes && node in servers && (Ready(servers[node]) ==> Ready(s))
    ensures AllReady(nodes, servers) ==> AllReady(nodes, servers[node := s])
  {
    hide Ready;
  }

  lemma GoodSoFar(nodes: seq<Name>, origin: Servers, start: seq<Sent>, before: seq<Sent>, sent: seq<Sent>)
    requires start <= before <= sent
    requires AllGood(nodes, origin, before, |start|) && AllGood(nodes, origin, sent, |before|)
    ensures start <= sent && AllGood(nodes, origin, sent, |start|)
  {
    hide Founded;
    forall j | |start| <= j < |before| ensures GoodRequest(nodes, origin, sent, j) {
      FoundedBefore(origin, before, sent, j);
      assert GoodRequest(nodes, origin, before, j);
    }
  }
}
