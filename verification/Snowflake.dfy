/** Ids tagged with the application and the machine they come from. Time, node and step
  * sit next to each other in one word; the node number is the application and the machine. */
module Snowflake {
  import opened Wrappers

  datatype Error = ExceedNode | ExceedApp | BadNode | UnknownApp

  const MAX_NODE: nat := 31
  const MAX_APP: nat := 31

  // ----- the layout: 42 bits of time, 10 of node, 12 of step -----

  function Pack(time: nat, node: nat, step: nat): nat {
    time * 0x40_0000 + node * 0x1000 + step
  }

  function NodeOf(id: nat): nat {
    id / 0x1000 % 0x400
  }

  function AppID(id: nat): nat {
    NodeOf(id) / 32
  }

  function Nid(app: nat, nodeId: nat): nat {
    app * 32 + nodeId
  }

  /** On words, the shifts, masks and unions are this arithmetic; the node survives even a time
    * that does not fit. */
  lemma PackOnWords(time: bv64, node: bv64, step: bv64)
    requires node < 0x400 && step < 0x1000
    ensures (time << 22) | (node << 12) | step == time * 0x40_0000 + node * 0x1000 + step
    ensures (((time << 22) | (node << 12) | step) & 0x3F_F000) >> 12 == node
  {}

  lemma NodeOnWords(id: bv64)
    ensures (id & 0x3F_F000) >> 12 == id / 0x1000 % 0x400
  {}

  lemma TagOnWords(app: bv64, nodeId: bv64)
    requires app <= 31 && nodeId <= 31
    ensures (app << 5) | nodeId == app * 32 + nodeId && ((app << 5) | nodeId) >> 5 == app
  {}

  lemma PackReadsBack(time: nat, node: nat, step: nat)
    requires node < 0x400 && step < 0x1000
    ensures NodeOf(Pack(time, node, step)) == node
    ensures Pack(time, node, step) % 0x1000 == step
    ensures Pack(time, node, step) / 0x40_0000 == time
  {
    assert Pack(time, node, step) / 0x1000 == time * 0x400 + node;
  }

  /** An id says where it comes from: ids of different applications or machines differ,
    * whatever their times and steps are. */
  lemma NeverCollide(app: nat, nodeId: nat, time: nat, step: nat, app': nat, nodeId': nat, time': nat, step': nat)
    requires app <= MAX_APP && nodeId <= MAX_NODE && step < 0x1000
    requires app' <= MAX_APP && nodeId' <= MAX_NODE && step' < 0x1000
    ensures Pack(time, Nid(app, nodeId), step) == Pack(time', Nid(app', nodeId'), step') <==>
              app == app' && nodeId == nodeId' && time == time' && step == step'
    ensures AppID(Pack(time, Nid(app, nodeId), step)) == app
  {
    PackReadsBack(time, Nid(app, nodeId), step);
    PackReadsBack(time', Nid(app', nodeId'), step');
  }

  // ----- one node -----

  datatype State = State(time: nat, step: nat)

  /** What the clock shows when an id is asked for, and what it shows once it moves on. */
  datatype Reading = Reading(now: nat, next: nat)

  /** Within a millisecond the step counts; when it is used up, the next one is awaited. */
  function Advance(s: State, r: Reading): State {
    if r.now != s.time then State(r.now, 0)
    else
      var step := (s.step + 1) % 0x1000;
      State(if step == 0 then r.next else r.now, step)
  }

  function IdOf(s: State, node: nat): nat {
    Pack(s.time, node, s.step)
  }

  predicate Precedes(s: State, t: State) {
    s.time < t.time || (s.time == t.time && s.step < t.step)
  }

  /** While the clock does not run backwards, the state of a node only moves on. */
  lemma StatesMoveOn(s: State, r: Reading)
    requires s.step < 0x1000 && s.time <= r.now < r.next
    ensures Advance(s, r).step < 0x1000 && Precedes(s, Advance(s, r))
  {}

  lemma IdsGrow(s: State, t: State, node: nat)
    requires node < 0x400 && s.step < 0x1000 && t.step < 0x1000
    ensures IdOf(s, node) < IdOf(t, node) <==> Precedes(s, t)
  {}

  // ----- a generator, as values -----

  datatype Request = Request(app: nat, reading: Reading)

  datatype Issue = Issue(app: nat, state: State)

  function After(nodes: map<nat, State>, q: Request): map<nat, State> {
    if q.app in nodes then nodes[q.app := Advance(nodes[q.app], q.reading)] else nodes
  }

  /** What is issued in a run, by application and node state; unknown applications get nothing. */
  function Issues(nodes: map<nat, State>, qs: seq<Request>): seq<Issue> {
    if qs == [] then []
    else
      var q := qs[0];
      var first := if q.app in nodes then [Issue(q.app, Advance(nodes[q.app], q.reading))] else [];
      first + Issues(After(nodes, q), qs[1..])
  }

  function Latest(nodes: map<nat, State>, q: Request): nat {
    if q.app in nodes then Advance(nodes[q.app], q.reading).time else q.reading.now
  }

  /** The clock never shows less than it did before. */
  predicate Clocked(nodes: map<nat, State>, qs: seq<Request>, since: nat)
    decreases |qs|
  {
    qs == [] || (since <= qs[0].reading.now < qs[0].reading.next
                 && Clocked(After(nodes, qs[0]), qs[1..], Latest(nodes, qs[0])))
  }

  predicate Started(nodes: map<nat, State>, since: nat) {
    forall a | a in nodes :: a <= MAX_APP && nodes[a].step < 0x1000 && nodes[a].time <= since
  }

  lemma StepStaysStarted(nodes: map<nat, State>, q: Request, since: nat)
    requires Started(nodes, since) && since <= q.reading.now < q.reading.next
    ensures Started(After(nodes, q), Latest(nodes, q))
  {
    if q.app in nodes { StatesMoveOn(nodes[q.app], q.reading); }
  }

  ghost predicate IssuedAfter(nodes: map<nat, State>, x: Issue) {
    x.app in nodes && x.state.step < 0x1000 && Precedes(nodes[x.app], x.state)
  }

  /** Whatever a node issues comes after its present state. */
  lemma {:induction false} IssuesComeAfter(nodes: map<nat, State>, qs: seq<Request>, since: nat, i: nat)
    requires Started(nodes, since) && Clocked(nodes, qs, since) && i < |Issues(nodes, qs)|
    ensures IssuedAfter(nodes, Issues(nodes, qs)[i])
    decreases |qs|
  {
    var q := qs[0];
    StepStaysStarted(nodes, q, since);
    if q.app in nodes { StatesMoveOn(nodes[q.app], q.reading); }
    var first := if q.app in nodes then 1 else 0;
    if i >= first { IssuesComeAfter(After(nodes, q), qs[1..], Latest(nodes, q), i - first); }
  }

  /** In every run, what one node issues is in order. */
  lemma {:induction false} IssuesAreOrdered(nodes: map<nat, State>, qs: seq<Request>, since: nat, i: nat, j: nat)
    requires Started(nodes, since) && Clocked(nodes, qs, since) && i < j < |Issues(nodes, qs)|
    ensures var x, y := Issues(nodes, qs)[i], Issues(nodes, qs)[j];
            x.app == y.app ==> Precedes(x.state, y.state)
    decreases |qs|
  {
    var q, after := qs[0], After(nodes, qs[0]);
    StepStaysStarted(nodes, q, since);
    if q.app !in nodes {
      IssuesAreOrdered(after, qs[1..], Latest(nodes, q), i, j);
    } else if i > 0 {
      IssuesAreOrdered(after, qs[1..], Latest(nodes, q), i - 1, j - 1);
    } else {
      IssuesComeAfter(after, qs[1..], Latest(nodes, q), j - 1);
    }
  }

  function IssuedId(x: Issue, nodeId: nat): nat {
    IdOf(x.state, Nid(x.app, nodeId))
  }

  /** In every run in which the clock does not run backwards, no id is issued twice, and the ids
    * of one application only grow. */
  lemma IdsNeverRepeat(nodes: map<nat, State>, nodeId: nat, qs: seq<Request>, since: nat, i: nat, j: nat)
    requires nodeId <= MAX_NODE && Started(nodes, since) && Clocked(nodes, qs, since)
    requires i < j < |Issues(nodes, qs)|
    ensures var x, y := Issues(nodes, qs)[i], Issues(nodes, qs)[j];
            && IssuedId(x, nodeId) != IssuedId(y, nodeId)
            && (x.app == y.app ==> IssuedId(x, nodeId) < IssuedId(y, nodeId))
  {
    var x, y := Issues(nodes, qs)[i], Issues(nodes, qs)[j];
    IssuesComeAfter(nodes, qs, since, i);
    IssuesComeAfter(nodes, qs, since, j);
    IssuesAreOrdered(nodes, qs, since, i, j);
    NeverCollide(x.app, nodeId, x.state.time, x.state.step, y.app, nodeId, y.state.time, y.state.step);
    IdsGrow(x.state, y.state, Nid(x.app, nodeId));
  }

  // ----- the generator -----

  class Node {
    const node: nat
    var time: nat
    var step: nat

    constructor (node: nat)
      ensures this.node == node && Now() == State(0, 0)
    {
      this.node, time, step := node, 0, 0;
    }

    function Now(): State
      reads this
    {
      State(time, step)
    }

    method Generate(r: Reading) returns (id: nat)
      modifies this
      ensures Now() == Advance(old(Now()), r) && id == IdOf(Now(), node)
    {
      if r.now == time {
        step := (step + 1) % 0x1000;
        time := if step == 0 then r.next else r.now;
      } else {
        step, time := 0, r.now;
      }
      id := Pack(time, node, step);
    }
  }

  class UIDGenerator {
    ghost const nodeId: nat
    const nodes: map<nat, Node>

    ghost predicate Valid()
      reads nodes.Values
    {
      && nodeId <= MAX_NODE
      && forall a | a in nodes :: a <= MAX_APP && nodes[a].node == Nid(a, nodeId) && nodes[a].step < 0x1000
    }

    ghost function States(): map<nat, State>
      reads nodes.Values
    {
      map a | a in nodes :: nodes[a].Now()
    }

    constructor (ghost nodeId: nat, nodes: map<nat, Node>)
      ensures this.nodeId == nodeId && this.nodes == nodes
    {
      this.nodeId, this.nodes := nodeId, nodes;
    }

    method Generate(app: nat, r: Reading) returns (id: Result<nat, Error>)
      requires Valid()
      modifies nodes.Values
      ensures Valid() && States() == After(old(States()), Request(app, r))
      ensures app !in nodes ==> id == Failure(UnknownApp)
      ensures app in nodes ==> id == Success(IssuedId(Issue(app, States()[app]), nodeId)) && AppID(id.value) == app
    {
      if app !in nodes { return Failure(UnknownApp); }
      var n := nodes[app];
      assert forall a | a in nodes && a != app :: nodes[a] != n;
      var i := n.Generate(r);
      NeverCollide(app, nodeId, n.time, n.step, app, nodeId, n.time, n.step);
      return Success(i);
    }
  }

  /** Both limits are checked first; within them every node number is accepted. */
  method NewUIDGenerator(nodeId: nat, apps: nat) returns (g: Result<UIDGenerator, Error>)
    ensures g.Success? <==> nodeId <= 31 && apps <= 32
    ensures g.Failure? ==> g.error == if nodeId > 31 then ExceedNode else ExceedApp
    ensures g.Success? ==> g.value.Valid() && g.value.nodeId == nodeId
    ensures g.Success? ==> forall a: nat :: a in g.value.nodes <==> a < apps
    ensures g.Success? ==>
              forall a | a in g.value.nodes :: fresh(g.value.nodes[a]) && g.value.nodes[a].Now() == State(0, 0)
  {
    if nodeId > MAX_NODE { return Failure(ExceedNode); }
    if apps > MAX_APP + 1 { return Failure(ExceedApp); }
    var nodeMap: map<nat, Node> := map[];
    for i := 0 to apps
      invariant forall a: nat :: a in nodeMap <==> a < i
      invariant forall a | a in nodeMap ::
                  fresh(nodeMap[a]) && nodeMap[a].node == Nid(a, nodeId) && nodeMap[a].Now() == State(0, 0)
    {
      var n := NewNode(Nid(i, nodeId));
      if n.Failure? { return Failure(BadNode); }
      nodeMap := nodeMap[i := n.value];
    }
    var made := new UIDGenerator(nodeId, nodeMap);
    return Success(made);
  }

  /** Node numbers have ten bits. */
  method NewNode(node: nat) returns (n: Result<Node, Error>)
    ensures n.Success? <==> node < 0x400
    ensures n.Success? ==> fresh(n.value) && n.value.node == node && n.value.Now() == State(0, 0)
    ensures n.Failure? ==> n.error == BadNode
  {
    if node >= 0x400 { return Failure(BadNode); }
    var made := new Node(node);
    return Success(made);
  }
}
