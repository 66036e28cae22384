/** How far ahead on-demand construction works.  A level comes from a request, or is one below
    that of a node with an edge to it; so a node is expanded only within LEVEL edges of node 0 or
    of a requested node and, at rest, wherever edges lead along single predecessors, all such
    nodes are. */
module DemandLevels {
  import opened Ldds
  import opened PetriNets
  import opened SogGraphs
  import opened DemandSogs

  // ---- where levels come from ----

  /** An edge leads to node i from node m, whose level is one more. */
  ghost predicate OneAbove(s: State, m: nat, t: nat, i: nat) {
    && m < |s.levels| && i < |s.levels| && s.graph.Link(m, t, i)
    && s.levels[m] == s.levels[i] + 1
  }

  ghost predicate LevelOk(s: State, i: nat)
    requires Shaped(s) && i < |s.levels|
  {
    && s.levels[i] <= LEVEL && (s.levels[i] == LEVEL ==> s.visited[i])
    && (0 < s.levels[i] < LEVEL ==> exists m: nat, t: nat :: OneAbove(s, m, t, i))
  }

  /** A node that the client is to expand has been visited. */
  ghost predicate AskOk(s: State, k: nat)
    requires k < |s.threads|
  {
    match s.threads[k]
    case Asked(i) => i < |s.visited| && s.visited[i]
    case Leveling(origin, pos) => origin.Client? ==> pos < |s.visited| && s.visited[pos]
    case _ => true
  }

  ghost predicate LevelsOk(s: State) {
    && Shaped(s)
    && (forall i {:trigger LevelOk(s, i)} :: 0 <= i < |s.levels| ==> LevelOk(s, i))
    && (forall k {:trigger AskOk(s, k)} :: 0 <= k < |s.threads| ==> AskOk(s, k))
  }

  /** New nodes have level 0; levels and edges stay, visited nodes stay visited. */
  ghost predicate Grows(s: State, s': State) {
    && Shaped(s) && Shaped(s') && s.levels <= s'.levels
    && (forall i :: |s.levels| <= i < |s'.levels| ==> s'.levels[i] == 0)
    && (forall i :: 0 <= i < |s.levels| && s.visited[i] ==> s'.visited[i])
    && (forall m: nat, t: nat, i: nat {:trigger s'.graph.Link(m, t, i)} ::
          s.graph.Link(m, t, i) ==> s'.graph.Link(m, t, i))
  }

  /** Only thread k moves, and nothing happens to the levels of stored nodes. */
  ghost predicate Keeps(s: State, s': State, k: nat) {
    && Grows(s, s') && k < |s.threads| == |s'.threads| && s'.threads == s.threads[k := s'.threads[k]]
    && AskOk(s', k)
  }

  lemma LevelsKept(s: State, s': State, k: nat)
    requires LevelsOk(s) && Keeps(s, s', k)
    ensures LevelsOk(s')
  {
    forall i | 0 <= i < |s'.levels| ensures LevelOk(s', i) {
      if i < |s.levels| {
        assert LevelOk(s, i);
        if 0 < s.levels[i] < LEVEL {
          var m: nat, t: nat :| OneAbove(s, m, t, i);
          assert s'.graph.Link(m, t, i) && OneAbove(s', m, t, i);
        }
      }
    }
    forall m | 0 <= m < |s'.threads| ensures AskOk(s', m) { assert m != k ==> AskOk(s, m); }
  }

  lemma RequestKeeps(net: Net, s: State, i: nat)
    requires Enabled(s, Request(i))
    ensures Keeps(s, Apply(net, s, Request(i)), 0)
  {
  }

  lemma PopKeeps(net: Net, s: State, k: nat, task: Task)
    requires Enabled(s, Pop(k, task))
    ensures Keeps(s, Apply(net, s, Pop(k, task)), k)
  {
  }

  lemma PushKeeps(net: Net, s: State, k: nat, t: nat)
    requires Enabled(s, Push(k, t))
    ensures Keeps(s, Apply(net, s, Push(k, t)), k)
  {
  }

  lemma InsertKeeps(net: Net, s: State, k: nat)
    requires Enabled(s, Advance(k)) && s.threads[k].Popped?
    ensures Keeps(s, Apply(net, s, Advance(k)), k)
  {
    var s' := Apply(net, s, Advance(k));
    assert forall i :: 0 <= i < |s.graph.edges| ==> s'.graph.edges[i] == s.graph.edges[i];
  }

  lemma ConnectKeeps(net: Net, s: State, k: nat)
    requires Enabled(s, Advance(k)) && s.threads[k].Found?
    ensures Keeps(s, Apply(net, s, Advance(k)), k)
  {
  }

  lemma CountKeeps(net: Net, s: State, k: nat)
    requires Enabled(s, Advance(k)) && s.threads[k].Linked?
    ensures Keeps(s, Apply(net, s, Advance(k)), k)
  {
  }

  lemma CheckKeeps(net: Net, s: State, k: nat)
    requires Enabled(s, Advance(k)) && s.threads[k].Counted?
    ensures Keeps(s, Apply(net, s, Advance(k)), k)
  {
  }

  lemma TestKeeps(net: Net, s: State, k: nat)
    requires Enabled(s, Advance(k)) && s.threads[k].Checked?
    ensures Keeps(s, Apply(net, s, Advance(k)), k)
  {
  }

  lemma AskKeeps(net: Net, s: State, k: nat)
    requires Enabled(s, Advance(k)) && s.threads[k].Asked? && AskOk(s, k)
    ensures Keeps(s, Apply(net, s, Advance(k)), k)
  {
  }

  lemma SizeKeeps(net: Net, s: State, k: nat)
    requires Enabled(s, Advance(k)) && s.threads[k].Sizing?
    ensures Keeps(s, Apply(net, s, Advance(k)), k)
  {
  }

  lemma IdleLevelKeeps(net: Net, s: State, k: nat)
    requires Enabled(s, Advance(k)) && s.threads[k].Leveling? && !Effective(s, s.threads[k].origin)
    ensures Keeps(s, Apply(net, s, Advance(k)), k)
  {
    var origin, pos := s.threads[k].origin, s.threads[k].pos;
    assert Raised(s, origin, pos) == s.levels;
  }

  /** Levels above a node with tasks are those of expanded nodes, which stay. */
  lemma ParentStays(net: Net, s: State, aux: Aux, m: nat, t: nat, i: nat)
    requires Inv(net, s, aux) && s.graph.Link(m, t, i)
    ensures m < |s.levels| && s.levels[m] > 0 && Firing(net, s, m)
  {
    assert t in s.graph.Labels(m) && NodeOk(net, s, aux, m) && TaskOk(net, s, aux, m, t);
  }

  /** A worker that goes on to expand a node has linked it to the node of its task. */
  lemma OriginLinks(net: Net, s: State, aux: Aux, k: nat)
    requires Inv(net, s, aux) && k < |s.threads| && s.threads[k].Leveling? && s.threads[k].origin.Worker?
    ensures var task := s.threads[k].origin.task; s.graph.Link(task.node, task.t, s.threads[k].pos)
  {
    var task, pos := s.threads[k].origin.task, s.threads[k].pos;
    assert ThreadOk(net, s, aux, k) && PlaceOk(s, aux, task);
    var e :| e in s.graph.edges[task.node] && e.t == task.t;
    SameTarget(net, s, task.node, e, pos);
    assert e == Edge(pos, task.t);
  }

  lemma RaiseLevels(net: Net, s: State, aux: Aux, k: nat)
    requires Inv(net, s, aux) && LevelsOk(s) && Enabled(s, Advance(k)) && s.threads[k].Leveling?
    requires Effective(s, s.threads[k].origin)
    ensures LevelsOk(Apply(net, s, Advance(k)))
  {
    var s', origin, pos := Apply(net, s, Advance(k)), s.threads[k].origin, s.threads[k].pos;
    LevelFacts(net, s, aux, k);
    assert AskOk(s, k);
    forall i | 0 <= i < |s'.levels| ensures LevelOk(s', i) {
      assert LevelOk(s, i);
      if i != pos || s'.levels[pos] == s.levels[pos] {
        if 0 < s.levels[i] < LEVEL {
          var m: nat, t: nat :| OneAbove(s, m, t, i);
          ParentStays(net, s, aux, m, t, i);
          assert OneAbove(s', m, t, i);
        }
      } else if origin.Worker? {
        OriginLinks(net, s, aux, k);
        assert LevelOk(s, origin.task.node);
        assert OneAbove(s', origin.task.node, origin.task.t, pos);
      }
    }
    forall m | 0 <= m < |s'.threads| ensures AskOk(s', m) { assert AskOk(s, m); }
  }

  lemma OnlyKeeps(net: Net, s: State, k: nat)
    requires LevelsOk(s) && Enabled(s, Advance(k))
    requires s.threads[k].Leveling? ==> !Effective(s, s.threads[k].origin)
    ensures Keeps(s, Apply(net, s, Advance(k)), k)
  {
    assert AskOk(s, k);
    match s.threads[k]
    case Popped(_) => InsertKeeps(net, s, k);
    case Found(_, _) => ConnectKeeps(net, s, k);
    case Linked(_, _) => CountKeeps(net, s, k);
    case Counted(_, _) => CheckKeeps(net, s, k);
    case Checked(_, _) => TestKeeps(net, s, k);
    case Asked(_) => AskKeeps(net, s, k);
    case Leveling(_, _) => IdleLevelKeeps(net, s, k);
    case Sizing(_, _) => SizeKeeps(net, s, k);
  }

  lemma StepLevels(net: Net, s: State, aux: Aux, a: Action)
    requires Inv(net, s, aux) && LevelsOk(s) && Enabled(s, a)
    ensures LevelsOk(Apply(net, s, a))
  {
    match a
    case Request(i) =>
      RequestKeeps(net, s, i);
      LevelsKept(s, Apply(net, s, a), 0);
    case Pop(k, task) =>
      PopKeeps(net, s, k, task);
      LevelsKept(s, Apply(net, s, a), k);
    case Push(k, t) =>
      PushKeeps(net, s, k, t);
      LevelsKept(s, Apply(net, s, a), k);
    case Advance(k) =>
      if s.threads[k].Leveling? && Effective(s, s.threads[k].origin) {
        RaiseLevels(net, s, aux, k);
      } else {
        OnlyKeeps(net, s, k);
        LevelsKept(s, Apply(net, s, a), k);
      }
  }

  lemma {:induction false} RunLevels(net: Net, s: State, aux: Aux, acts: seq<Action>, s': State)
    requires Inv(net, s, aux) && LevelsOk(s) && Runs(net, s, acts, s') && !s'.overlapped
    ensures LevelsOk(s')
    decreases |acts|
  {
    if acts != [] {
      var s1 := Apply(net, s, acts[0]);
      if s1.overlapped { OverlapStays(net, s1, acts[1..], s'); }
      var aux1 := StepInv(net, s, aux, acts[0]);
      StepLevels(net, s, aux, acts[0]);
      RunLevels(net, s1, aux1, acts[1..], s');
    }
  }

  lemma StartLevels(net: Net, x0: Marking, threads: nat) returns (aux: Aux)
    requires net.Ok() && x0 in net.Universe() && threads > 0
    ensures Inv(net, Start(net, x0, threads), aux) && LevelsOk(Start(net, x0, threads))
  {
    aux := StartInv(net, x0, threads);
    var s := Start(net, x0, threads);
    assert LevelOk(s, 0);
    forall k | 0 <= k < |s.threads| ensures AskOk(s, k) {}
  }

  lemma ReachedLevels(net: Net, x0: Marking, threads: nat, acts: seq<Action>, s: State)
    requires Reached(net, x0, threads, acts, s)
    ensures LevelsOk(s)
  {
    var aux := StartLevels(net, x0, threads);
    RunLevels(net, Start(net, x0, threads), aux, acts, s);
  }

  /** No level exceeds LEVEL, and only visited nodes have that one; any other expanded node has
      an edge from a node whose level is exactly one more. */
  lemma LevelSource(net: Net, x0: Marking, threads: nat, acts: seq<Action>, s: State, i: nat)
    requires Reached(net, x0, threads, acts, s) && i < |s.levels|
    ensures Shaped(s) && s.levels[i] <= LEVEL && (s.levels[i] == LEVEL ==> s.visited[i])
    ensures 0 < s.levels[i] < LEVEL ==>
              exists m: nat, t: nat :: m < |s.levels| && s.graph.Link(m, t, i) && s.levels[m] == s.levels[i] + 1
  {
    ReachedLevels(net, x0, threads, acts, s);
    assert LevelOk(s, i);
    if 0 < s.levels[i] < LEVEL {
      var m: nat, t: nat :| OneAbove(s, m, t, i);
    }
  }

  // ---- not further ----

  lemma {:induction false} PathSnoc(g: Graph, i: nat, w: seq<nat>, m: nat, t: nat, j: nat)
    requires g.Path(i, w, m) && g.Link(m, t, j)
    ensures g.Path(i, w + [t], j)
    decreases |w|
  {
    if w == [] {
      assert [t][1..] == [] && g.Path(j, [], j);
    } else {
      var k :| g.Link(i, w[0], k) && g.Path(k, w[1..], m);
      PathSnoc(g, k, w[1..], m, t, j);
      assert (w + [t])[1..] == w[1..] + [t];
    }
  }

  /** An expanded node of level l lies at the end of a path of LEVEL - l edges from a visited node. */
  lemma {:induction false} ExpandedNear(net: Net, x0: Marking, threads: nat, acts: seq<Action>, s: State, i: nat)
    returns (m: nat, w: seq<nat>)
    requires Reached(net, x0, threads, acts, s) && i < |s.levels| && s.levels[i] > 0
    ensures m < |s.visited| && s.visited[m] && |w| == LEVEL - s.levels[i] && s.graph.Path(m, w, i)
    decreases LEVEL - s.levels[i]
  {
    LevelSource(net, x0, threads, acts, s, i);
    if s.levels[i] == LEVEL { return i, []; }
    var j: nat, t: nat :| j < |s.levels| && s.graph.Link(j, t, i) && s.levels[j] == s.levels[i] + 1;
    LevelSource(net, x0, threads, acts, s, j);
    m, w := ExpandedNear(net, x0, threads, acts, s, j);
    PathSnoc(s.graph, m, w, j, t, i);
    w := w + [t];
  }

  /** Nodes become visited by requests only. */
  lemma {:induction false} VisitedRequested(net: Net, s: State, acts: seq<Action>, s': State, i: nat)
    requires Runs(net, s, acts, s') && i < |s'.visited| && s'.visited[i] && !(i < |s.visited| && s.visited[i])
    ensures exists n :: 0 <= n < |acts| && acts[n] == Request(i)
    decreases |acts|
  {
    var s1 := Apply(net, s, acts[0]);
    if i < |s1.visited| && s1.visited[i] {
      assert acts[0] == Request(i);
    } else {
      VisitedRequested(net, s1, acts[1..], s', i);
      var n :| 0 <= n < |acts[1..]| && acts[1..][n] == Request(i);
      assert acts[n + 1] == Request(i);
    }
  }

  /** A completed node is fewer than LEVEL edges from node 0 or from a node that was requested. */
  lemma CompletedNear(net: Net, x0: Marking, threads: nat, acts: seq<Action>, s: State, i: nat)
    returns (m: nat, w: seq<nat>)
    requires Reached(net, x0, threads, acts, s) && i < |s.completed| && s.completed[i]
    ensures |w| < LEVEL && s.graph.Path(m, w, i)
    ensures m == 0 || exists n :: 0 <= n < |acts| && acts[n] == Request(m)
  {
    var aux := ReachedInv(net, x0, threads, acts, s);
    assert NodeOk(net, s, aux, i);
    m, w := ExpandedNear(net, x0, threads, acts, s, i);
    if m > 0 { VisitedRequested(net, Start(net, x0, threads), acts, s, m); }
  }

  // ---- no less ----

  ghost predicate Precedes(g: Graph, m: nat, i: nat) {
    exists t: nat :: g.Link(m, t, i)
  }

  /** No node has edges from two others. */
  ghost predicate SinglePredecessors(g: Graph) {
    forall m: nat, m': nat, i: nat :: Precedes(g, m, i) && Precedes(g, m', i) ==> m == m'
  }

  /** At rest, the successor of a node of level two or more is of at least one level less. */
  lemma NextLevel(net: Net, x0: Marking, threads: nat, acts: seq<Action>, s: State, m: nat, t: nat, i: nat)
    requires Reached(net, x0, threads, acts, s) && Quiescent(s) && SinglePredecessors(s.graph)
    requires m < |s.levels| && s.levels[m] > 1 && s.graph.Link(m, t, i)
    ensures i < |s.levels| && s.levels[i] >= s.levels[m] - 1
  {
    QuiescentAhead(net, x0, threads, acts, s, m);
    assert Edge(i, t) in s.graph.edges[m] && Edge(i, t).state == i;
    QuiescentAhead(net, x0, threads, acts, s, i);
    LevelSource(net, x0, threads, acts, s, i);
    LevelSource(net, x0, threads, acts, s, m);
    if s.levels[i] < LEVEL {
      var j: nat, u: nat :| j < |s.levels| && s.graph.Link(j, u, i) && s.levels[j] == s.levels[i] + 1;
      assert Precedes(s.graph, m, i) && Precedes(s.graph, j, i);
    }
  }

  /** At rest, all nodes at fewer edges from a node than its level are completed. */
  lemma {:induction false} LevelAhead(net: Net, x0: Marking, threads: nat, acts: seq<Action>, s: State,
      m: nat, w: seq<nat>, i: nat)
    requires Reached(net, x0, threads, acts, s) && Quiescent(s) && SinglePredecessors(s.graph)
    requires m < |s.levels| && |w| < s.levels[m] && s.graph.Path(m, w, i)
    ensures i < |s.completed| && s.completed[i]
    decreases |w|
  {
    if w == [] {
      QuiescentAhead(net, x0, threads, acts, s, m);
    } else {
      var k :| s.graph.Link(m, w[0], k) && s.graph.Path(k, w[1..], i);
      NextLevel(net, x0, threads, acts, s, m, w[0], k);
      LevelAhead(net, x0, threads, acts, s, k, w[1..], i);
    }
  }

  lemma RaiseNeverFalls(net: Net, s: State, k: nat)
    requires Enabled(s, Advance(k)) && s.threads[k].Leveling?
    ensures var s' := Apply(net, s, Advance(k)); |s'.levels| == |s.levels|
    ensures var s' := Apply(net, s, Advance(k)); forall i :: 0 <= i < |s.levels| ==> s'.levels[i] >= s.levels[i]
  {
  }

  /** Node 0 keeps the level it starts with. */
  lemma {:induction false} FirstLevel(net: Net, s: State, aux: Aux, acts: seq<Action>, s': State)
    requires Inv(net, s, aux) && LevelsOk(s) && Runs(net, s, acts, s') && !s'.overlapped
    requires 0 < |s.levels| && s.levels[0] == LEVEL
    ensures 0 < |s'.levels| && s'.levels[0] == LEVEL
    decreases |acts|
  {
    if acts != [] {
      var s1 := Apply(net, s, acts[0]);
      if s1.overlapped { OverlapStays(net, s1, acts[1..], s'); }
      StepLevels(net, s, aux, acts[0]);
      FirstStays(net, s, acts[0]);
      assert LevelOk(s1, 0);
      var aux1 := StepInv(net, s, aux, acts[0]);
      FirstLevel(net, s1, aux1, acts[1..], s');
    }
  }

  lemma FirstStays(net: Net, s: State, a: Action)
    requires LevelsOk(s) && Enabled(s, a) && 0 < |s.levels|
    ensures var s' := Apply(net, s, a); 0 < |s'.levels| && s'.levels[0] >= s.levels[0]
  {
    match a
    case Request(i) => RequestKeeps(net, s, i);
    case Pop(k, task) => PopKeeps(net, s, k, task);
    case Push(k, t) => PushKeeps(net, s, k, t);
    case Advance(k) => if s.threads[k].Leveling? { RaiseNeverFalls(net, s, k); } else { OnlyKeeps(net, s, k); }
  }

  /** At rest and without requests, in a graph without second predecessors, exactly the nodes
      fewer than LEVEL edges from node 0 are completed. */
  lemma LookAhead(net: Net, x0: Marking, threads: nat, acts: seq<Action>, s: State, i: nat)
    requires Reached(net, x0, threads, acts, s) && Quiescent(s) && i < |s.completed|
    ensures SinglePredecessors(s.graph) && (exists w :: |w| < LEVEL && s.graph.Path(0, w, i)) ==> s.completed[i]
    ensures (forall n :: 0 <= n < |acts| ==> !acts[n].Request?) && s.completed[i] ==>
              exists w :: |w| < LEVEL && s.graph.Path(0, w, i)
  {
    var aux := StartLevels(net, x0, threads);
    FirstLevel(net, Start(net, x0, threads), aux, acts, s);
    if SinglePredecessors(s.graph) {
      if w :| |w| < LEVEL && s.graph.Path(0, w, i) { LevelAhead(net, x0, threads, acts, s, 0, w, i); }
    }
    if (forall n :: 0 <= n < |acts| ==> !acts[n].Request?) && s.completed[i] {
      var m, w := CompletedNear(net, x0, threads, acts, s, i);
    }
  }
}
