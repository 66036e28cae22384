/** Symbolic observation graphs as values, and what they say about the net: paths of a
    complete graph are exactly the observable traces of firing sequences. */
module SogGraphs {
  import opened Ldds
  import opened PetriNets

  /** Observable transitions of a firing sequence, in order. */
  function Observed(net: Net, u: seq<nat>): seq<nat> {
    if u == [] then []
    else (if u[0] in net.visible then [u[0]] else []) + Observed(net, u[1..])
  }

  /** Aggregate reached from s by one observable transition. */
  ghost function Successor(net: Net, s: set<Marking>, t: nat): set<Marking>
    requires net.Ok() && t < |net.transitions|
  {
    assert net.TransitionOk(t);
    net.Closure(net.FireAll(s, t))
  }

  /** Aggregate reached from s by an observable word; empty when the word is not firable. */
  ghost function Aggregate(net: Net, s: set<Marking>, w: seq<nat>): set<Marking>
    requires net.Ok()
    decreases |w|
  {
    if w == [] then s
    else if w[0] !in net.visible then {}
    else assert net.Classified(w[0]); Aggregate(net, Successor(net, s, w[0]), w[1..])
  }

  /** s is a set of markings closed under unobservable firings. */
  ghost predicate Closed(net: Net, s: set<Marking>) {
    s <= net.Universe() && net.Image(s) <= s
  }

  /** y is reached from s by a firing sequence whose observable part is w. */
  ghost predicate ReachedBy(net: Net, s: set<Marking>, w: seq<nat>, y: Marking) {
    exists x, u :: Traces(net, s, w, x, u, y)
  }

  ghost predicate Traces(net: Net, s: set<Marking>, w: seq<nat>, x: Marking, u: seq<nat>, y: Marking) {
    x in s && net.Run(x, u, y) && Observed(net, u) == w
  }

  lemma SuccessorClosed(net: Net, s: set<Marking>, t: nat)
    requires net.Ok() && s <= net.Universe() && t < |net.transitions|
    ensures Closed(net, Successor(net, s, t))
  {
    net.FireAllMembers(s, t);
    net.ClosureClosed(net.FireAll(s, t));
  }

  lemma {:induction false} ObservedConcat(net: Net, u: seq<nat>, v: seq<nat>)
    ensures Observed(net, u + v) == Observed(net, u) + Observed(net, v)
  {
    if u == [] {
      assert u + v == v;
    } else {
      ObservedConcat(net, u[1..], v);
      assert (u + v)[1..] == u[1..] + v;
    }
  }

  lemma {:induction false} SilentObserved(net: Net, u: seq<nat>)
    requires net.Ok() && net.Silent(u)
    ensures Observed(net, u) == []
  {
    if u != [] {
      assert net.Classified(u[0]) && u[0] in net.hidden;
      SilentObserved(net, u[1..]);
    }
  }

  lemma {:induction false} TraceInAggregate(net: Net, s: set<Marking>, w: seq<nat>, x: Marking, u: seq<nat>, y: Marking)
    requires net.Ok() && Closed(net, s) && Traces(net, s, w, x, u, y)
    ensures y in Aggregate(net, s, w)
    decreases |u|
  {
    if u != [] {
      var t, z := u[0], net.Fire(x, u[0]);
      assert net.Classified(t);
      if t in net.visible {
        assert w[0] == t && Observed(net, u[1..]) == w[1..];
        net.FireAllMembers(s, t);
        net.ClosureContains(net.FireAll(s, t));
        SuccessorClosed(net, s, t);
        TraceInAggregate(net, Successor(net, s, t), w[1..], z, u[1..], y);
      } else {
        assert net.StepBy(t, x, z);
        net.InImage(s, x, z);
        TraceInAggregate(net, s, w, z, u[1..], y);
      }
    }
  }

  /** A member of the successor aggregate is reached by the transition and silent firings. */
  lemma SuccessorFrom(net: Net, s: set<Marking>, t: nat, y: Marking) returns (x: Marking, u: seq<nat>)
    requires net.Ok() && s <= net.Universe() && t in net.visible && t < |net.transitions|
    requires y in Successor(net, s, t)
    ensures Traces(net, s, [t], x, u, y)
  {
    net.FireAllMembers(s, t);
    var z := net.ClosureFrom(net.FireAll(s, t), y);
    x :| x in s && net.Enabled(x, t) && z == net.Fire(x, t);
    var v :| net.Silent(v) && net.Run(z, v, y);
    SilentObserved(net, v);
    u := [t] + v;
    assert u[1..] == v;
  }

  lemma {:induction false} AggregateTraced(net: Net, s: set<Marking>, w: seq<nat>, y: Marking)
    returns (x: Marking, u: seq<nat>)
    requires net.Ok() && Closed(net, s) && y in Aggregate(net, s, w)
    ensures Traces(net, s, w, x, u, y)
    decreases |w|
  {
    if w == [] {
      assert net.Run(y, [], y);
      return y, [];
    }
    assert net.Classified(w[0]);
    SuccessorClosed(net, s, w[0]);
    var z, v := AggregateTraced(net, Successor(net, s, w[0]), w[1..], y);
    var v0;
    x, v0 := SuccessorFrom(net, s, w[0], z);
    net.RunConcat(x, v0, z, v, y);
    ObservedConcat(net, v0, v);
    u := v0 + v;
    assert [w[0]] + w[1..] == w;
  }

  /** The aggregate of a word holds exactly the markings reached by firing sequences that
      project to it. */
  lemma AggregateExact(net: Net, s: set<Marking>, w: seq<nat>, y: Marking)
    requires net.Ok() && Closed(net, s)
    ensures y in Aggregate(net, s, w) <==> ReachedBy(net, s, w, y)
  {
    if y in Aggregate(net, s, w) {
      var x, u := AggregateTraced(net, s, w, y);
    }
    if ReachedBy(net, s, w, y) {
      var x, u :| Traces(net, s, w, x, u, y);
      TraceInAggregate(net, s, w, x, u, y);
    }
  }

  /** Some firing sequence from x0 to y projects to w. */
  ghost predicate Firable(net: Net, x0: Marking, w: seq<nat>, y: Marking) {
    exists u :: net.Run(x0, u, y) && Observed(net, u) == w
  }

  ghost predicate Observes(net: Net, x0: Marking, w: seq<nat>) {
    exists y :: Firable(net, x0, w, y)
  }

  lemma FromInitial(net: Net, x0: Marking, w: seq<nat>, y: Marking)
    requires net.Ok() && x0 in net.Universe()
    ensures Closed(net, net.Closure({x0})) && x0 in net.Closure({x0})
    ensures y in Aggregate(net, net.Closure({x0}), w) <==> Firable(net, x0, w, y)
  {
    var s := net.Closure({x0});
    net.ClosureContains({x0});
    net.ClosureClosed({x0});
    AggregateExact(net, s, w, y);
    if Firable(net, x0, w, y) {
      var u :| net.Run(x0, u, y) && Observed(net, u) == w;
      assert Traces(net, s, w, x0, u, y);
    }
    if ReachedBy(net, s, w, y) {
      var x, u :| Traces(net, s, w, x, u, y);
      var z := net.ClosureFrom({x0}, x);
      var v :| net.Silent(v) && net.Run(x0, v, x);
      SilentObserved(net, v);
      net.RunConcat(x0, v, x, u, y);
      ObservedConcat(net, v, u);
      assert net.Run(x0, v + u, y) && Observed(net, v + u) == w;
    }
  }

  // ---- graphs ----

  datatype Edge = Edge(state: nat, t: nat)

  /** Aggregates by node number, and the edges leaving each node. */
  datatype Graph = Graph(sets: seq<set<Marking>>, edges: seq<seq<Edge>>)
  {
    ghost predicate EdgeOk(net: Net, i: nat, e: Edge)
      requires net.Ok() && i < |sets|
    {
      && e.state < |sets| && e.t in net.FirableIn(sets[i])
      && e.t < |net.transitions| && sets[e.state] == Successor(net, sets[i], e.t)
    }

    ghost predicate NodeOk(net: Net, i: nat)
      requires net.Ok() && i < |sets| == |edges|
    {
      && Closed(net, sets[i])
      && (forall e {:trigger EdgeOk(net, i, e)} :: e in edges[i] ==> EdgeOk(net, i, e))
      && (forall k, l :: 0 <= k < l < |edges[i]| ==> edges[i][k].t != edges[i][l].t)
    }

    /** Nodes are distinct closed sets; edges lead to successor aggregates, one at most for a transition. */
    ghost predicate Ok(net: Net) {
      && net.Ok() && |sets| == |edges|
      && (forall i {:trigger NodeOk(net, i)} :: 0 <= i < |sets| ==> NodeOk(net, i))
      && (forall i, j :: 0 <= i < j < |sets| ==> sets[i] != sets[j])
    }

    ghost function Labels(i: nat): set<nat>
      requires i < |edges|
    {
      set e | e in edges[i] :: e.t
    }

    ghost predicate FullNode(net: Net, i: nat)
      requires i < |sets| == |edges|
    {
      Labels(i) == net.FirableIn(sets[i])
    }

    /** Every node has an edge for every observable transition firable in it. */
    ghost predicate Complete(net: Net) {
      Ok(net) && forall i {:trigger FullNode(net, i)} :: 0 <= i < |sets| ==> FullNode(net, i)
    }

    ghost predicate Link(i: nat, t: nat, j: nat) {
      i < |edges| && Edge(j, t) in edges[i]
    }

    /** The word w labels a path from node i to node j. */
    ghost predicate Path(i: nat, w: seq<nat>, j: nat)
      decreases |w|
    {
      if w == [] then i == j else exists k :: Link(i, w[0], k) && Path(k, w[1..], j)
    }

    lemma {:induction false} PathAggregate(net: Net, i: nat, w: seq<nat>, j: nat)
      requires Ok(net) && i < |sets| && Path(i, w, j)
      ensures j < |sets| && sets[j] == Aggregate(net, sets[i], w)
      decreases |w|
    {
      if w != [] {
        var k :| Link(i, w[0], k) && Path(k, w[1..], j);
        assert NodeOk(net, i) && EdgeOk(net, i, Edge(k, w[0]));
        PathAggregate(net, k, w[1..], j);
      }
    }

    /** At most one path for a word. */
    lemma {:induction false} PathUnique(net: Net, i: nat, w: seq<nat>, j: nat, j': nat)
      requires Ok(net) && i < |sets| && Path(i, w, j) && Path(i, w, j')
      ensures j == j'
      ensures forall k, k' :: w != [] && Link(i, w[0], k) && Link(i, w[0], k') ==> k == k'
      decreases |w|
    {
      if w != [] {
        assert NodeOk(net, i);
        var k :| Link(i, w[0], k) && Path(k, w[1..], j);
        var k' :| Link(i, w[0], k') && Path(k', w[1..], j');
        assert EdgeOk(net, i, Edge(k, w[0]));
        PathUnique(net, k, w[1..], j, j');
      }
    }

    lemma {:induction false} EmptyAggregate(net: Net, w: seq<nat>)
      requires net.Ok()
      ensures Aggregate(net, {}, w) == {}
      decreases |w|
    {
      if w != [] && w[0] in net.visible {
        assert net.Classified(w[0]);
        net.FireAllMembers({}, w[0]);
        net.ClosureEmpty();
        assert net.FireAll({}, w[0]) == {};
        EmptyAggregate(net, w[1..]);
      }
    }

    lemma {:induction false} PathExists(net: Net, i: nat, w: seq<nat>) returns (j: nat)
      requires Complete(net) && i < |sets| && Aggregate(net, sets[i], w) != {}
      ensures Path(i, w, j)
      decreases |w|
    {
      if w == [] { return i; }
      var t := w[0];
      assert net.Classified(t) && NodeOk(net, i) && FullNode(net, i);
      net.FirableMore(sets[i], [], t);
      if net.FireAll(sets[i], t) == {} {
        net.ClosureEmpty();
        EmptyAggregate(net, w[1..]);
      }
      assert t in Labels(i) by { assert t in net.FirableAmong(sets[i], [] + [t]); }
      var e :| e in edges[i] && e.t == t;
      assert EdgeOk(net, i, e) && e == Edge(e.state, t);
      j := PathExists(net, e.state, w[1..]);
      assert Link(i, t, e.state);
    }

    /** The word labels a path from node 0. */
    ghost predicate Accepts(w: seq<nat>) {
      exists j: nat :: Path(0, w, j)
    }

    /** The words of the graph are the observable parts of the firing sequences from x0. */
    ghost predicate SameLanguage(net: Net, x0: Marking) {
      forall w {:trigger Accepts(w)} :: Accepts(w) <==> Observes(net, x0, w)
    }

    /** In a complete graph whose node 0 is the closure of x0, a word labels a path from
        node 0 exactly when some firing sequence from x0 projects to it. */
    lemma Language(net: Net, x0: Marking, w: seq<nat>)
      requires Complete(net) && |sets| > 0 && x0 in net.Universe() && sets[0] == net.Closure({x0})
      ensures Accepts(w) <==> Observes(net, x0, w)
    {
      if Accepts(w) {
        var j: nat :| Path(0, w, j);
        FromInitial(net, x0, [], x0);
        PathAggregate(net, 0, w, j);
        ReachedNonEmpty(net, 0, w, j);
        var y :| y in sets[j];
        FromInitial(net, x0, w, y);
      }
      if Observes(net, x0, w) {
        var y :| Firable(net, x0, w, y);
        FromInitial(net, x0, w, y);
        var j := PathExists(net, 0, w);
        assert Path(0, w, j);
      }
    }

    /** The path of a word is unique, and its end node holds exactly the markings reached by
        firing sequences that project to the word. */
    lemma PathMeaning(net: Net, x0: Marking, w: seq<nat>, j: nat, y: Marking)
      requires Ok(net) && |sets| > 0 && x0 in net.Universe() && sets[0] == net.Closure({x0}) && Path(0, w, j)
      ensures forall j': nat :: Path(0, w, j') ==> j == j'
      ensures j < |sets| && (y in sets[j] <==> Firable(net, x0, w, y))
    {
      forall j': nat | Path(0, w, j') ensures j == j' { PathUnique(net, 0, w, j, j'); }
      PathAggregate(net, 0, w, j);
      FromInitial(net, x0, w, y);
    }

    /** In a graph where edges are firable, no reached aggregate is empty. */
    lemma {:induction false} ReachedNonEmpty(net: Net, i: nat, w: seq<nat>, j: nat)
      requires Ok(net) && i < |sets| && sets[i] != {} && Path(i, w, j)
      ensures j < |sets| && sets[j] != {}
      decreases |w|
    {
      if w != [] {
        var k :| Link(i, w[0], k) && Path(k, w[1..], j);
        assert NodeOk(net, i) && EdgeOk(net, i, Edge(k, w[0]));
        EdgeNonEmpty(net, i, Edge(k, w[0]));
        ReachedNonEmpty(net, k, w[1..], j);
      }
    }

    lemma EdgeNonEmpty(net: Net, i: nat, e: Edge)
      requires net.Ok() && i < |sets| && Closed(net, sets[i]) && EdgeOk(net, i, e)
      ensures sets[e.state] != {}
    {
      SuccessorNonEmpty(net, sets[i], e.t);
    }
  }

  lemma SuccessorNonEmpty(net: Net, s: set<Marking>, t: nat)
    requires net.Ok() && s <= net.Universe() && t < |net.transitions| && net.FirableAt(s, t)
    ensures Successor(net, s, t) != {}
  {
    var x :| x in s && net.Enabled(x, t);
    net.FireAllMembers(s, t);
    net.ClosureContains(net.FireAll(s, t));
    assert net.Fire(x, t) in net.FireAll(s, t);
  }

  // ---- graphs under construction ----

  /** A node with observable transitions left to fire. */
  datatype Item = Item(node: nat, fire: set<nat>)

  ghost predicate PendingAt(net: Net, g: Graph, todo: seq<set<nat>>, i: nat)
    requires i < |todo| == |g.sets| == |g.edges|
  {
    todo[i] <= net.FirableIn(g.sets[i]) && g.Labels(i) == net.FirableIn(g.sets[i]) - todo[i]
  }

  /** todo holds the transitions without an edge yet. */
  ghost predicate Pending(net: Net, g: Graph, todo: seq<set<nat>>) {
    && g.Ok(net) && |todo| == |g.sets|
    && forall i {:trigger PendingAt(net, g, todo, i)} :: 0 <= i < |todo| ==> PendingAt(net, g, todo, i)
  }

  ghost function WithNode(g: Graph, s: set<Marking>): Graph {
    Graph(g.sets + [s], g.edges + [[]])
  }

  ghost function WithEdge(g: Graph, i: nat, t: nat, j: nat): Graph
    requires i < |g.edges|
  {
    g.(edges := g.edges[i := [Edge(j, t)] + g.edges[i]])
  }

  lemma GrowGraph(net: Net, g: Graph, s: set<Marking>)
    requires g.Ok(net) && Closed(net, s) && s !in g.sets
    ensures WithNode(g, s).Ok(net) && WithNode(g, s).Labels(|g.sets|) == {}
    ensures forall i :: 0 <= i < |g.sets| ==> WithNode(g, s).Labels(i) == g.Labels(i)
  {
    var g' := WithNode(g, s);
    forall i | 0 <= i < |g'.sets| ensures g'.NodeOk(net, i) {
      if i < |g.sets| {
        assert g.NodeOk(net, i);
        forall e | e in g'.edges[i] ensures g'.EdgeOk(net, i, e) { assert g.EdgeOk(net, i, e); }
      }
    }
  }

  lemma LinkGraph(net: Net, g: Graph, i: nat, t: nat, j: nat)
    requires g.Ok(net) && i < |g.sets| && t in net.FirableIn(g.sets[i]) && t < |net.transitions|
    requires t !in g.Labels(i) && j < |g.sets| && g.sets[j] == Successor(net, g.sets[i], t)
    ensures WithEdge(g, i, t, j).Ok(net) && WithEdge(g, i, t, j).Labels(i) == g.Labels(i) + {t}
    ensures forall m :: 0 <= m < |g.sets| && m != i ==> WithEdge(g, i, t, j).Labels(m) == g.Labels(m)
  {
    var g' := WithEdge(g, i, t, j);
    assert g'.Labels(i) == g.Labels(i) + {t} by {
      assert forall e :: e in g'.edges[i] <==> e == Edge(j, t) || e in g.edges[i];
    }
    forall m | 0 <= m < |g'.sets| ensures g'.NodeOk(net, m) {
      assert g.NodeOk(net, m);
      forall e | e in g'.edges[m] ensures g'.EdgeOk(net, m, e) {
        if e in g.edges[m] { assert g.EdgeOk(net, m, e); }
      }
      if m == i {
        forall k | 0 < k < |g'.edges[i]| ensures g'.edges[i][k].t != t { assert g'.edges[i][k] in g.edges[i]; }
      }
    }
  }

  lemma AddNode(net: Net, g: Graph, todo: seq<set<nat>>, s: set<Marking>)
    requires Pending(net, g, todo) && Closed(net, s) && s !in g.sets
    ensures Pending(net, WithNode(g, s), todo + [net.FirableIn(s)])
  {
    var g', todo' := WithNode(g, s), todo + [net.FirableIn(s)];
    GrowGraph(net, g, s);
    forall i | 0 <= i < |g'.sets| ensures PendingAt(net, g', todo', i) {
      if i < |g.sets| { assert PendingAt(net, g, todo, i); }
    }
  }

  lemma AddLink(net: Net, g: Graph, todo: seq<set<nat>>, i: nat, t: nat, j: nat)
    requires Pending(net, g, todo) && i < |g.sets| && t in todo[i] && t < |net.transitions|
    requires j < |g.sets| && g.sets[j] == Successor(net, g.sets[i], t)
    ensures Pending(net, WithEdge(g, i, t, j), todo[i := todo[i] - {t}])
  {
    var g', todo' := WithEdge(g, i, t, j), todo[i := todo[i] - {t}];
    assert PendingAt(net, g, todo, i);
    LinkGraph(net, g, i, t, j);
    forall m | 0 <= m < |g'.sets| ensures PendingAt(net, g', todo', m) { assert PendingAt(net, g, todo, m); }
  }

  /** Node i is a non-empty aggregate, reached from node 0 by its word. */
  ghost predicate WordOk(net: Net, sets: seq<set<Marking>>, words: seq<seq<nat>>, i: nat)
    requires net.Ok() && i < |sets| == |words|
  {
    sets[i] != {} && sets[i] == Aggregate(net, sets[0], words[i])
  }

  ghost predicate Reachable(net: Net, sets: seq<set<Marking>>, words: seq<seq<nat>>)
    requires net.Ok()
  {
    0 < |sets| == |words| && forall i {:trigger WordOk(net, sets, words, i)} :: 0 <= i < |sets| ==>
      WordOk(net, sets, words, i)
  }

  /** Aggregates not stored yet. */
  ghost function Unseen(net: Net, sets: seq<set<Marking>>): set<set<Marking>> {
    set s | s <= net.Universe() && s !in sets
  }

  lemma UnseenShrinks(net: Net, sets: seq<set<Marking>>, s: set<Marking>)
    requires s <= net.Universe() && s !in sets
    ensures Unseen(net, sets + [s]) < Unseen(net, sets)
  {
    assert s in Unseen(net, sets) && s !in Unseen(net, sets + [s]);
    assert forall x :: x in sets ==> x in sets + [s];
  }

  lemma {:induction false} AggregateSnoc(net: Net, s: set<Marking>, w: seq<nat>, t: nat)
    requires net.Ok() && t in net.visible && t < |net.transitions|
    ensures Aggregate(net, s, w + [t]) == Successor(net, Aggregate(net, s, w), t)
    decreases |w|
  {
    if w == [] {
      assert [t][1..] == [];
      assert [] + [t] == [t];
    } else if w[0] in net.visible {
      assert net.Classified(w[0]);
      AggregateSnoc(net, Successor(net, s, w[0]), w[1..], t);
      assert (w + [t])[1..] == w[1..] + [t];
    } else {
      net.FireAllMembers({}, t);
      assert net.FireAll({}, t) == {};
      net.ClosureEmpty();
    }
  }

  // ---- number of edges ----

  ghost function Total(edges: seq<seq<Edge>>): nat {
    if edges == [] then 0 else |edges[0]| + Total(edges[1..])
  }

  lemma {:induction false} TotalAppend(edges: seq<seq<Edge>>)
    ensures Total(edges + [[]]) == Total(edges)
  {
    if edges == [] {
      var none: seq<Edge> := [];
      assert edges + [none] == [none] && [none][1..] == [];
    } else {
      TotalAppend(edges[1..]);
      assert (edges + [[]])[1..] == edges[1..] + [[]];
    }
  }

  lemma {:induction false} TotalUpdate(edges: seq<seq<Edge>>, i: nat, e: Edge)
    requires i < |edges|
    ensures Total(edges[i := [e] + edges[i]]) == Total(edges) + 1
  {
    if i > 0 {
      TotalUpdate(edges[1..], i - 1, e);
      assert edges[i := [e] + edges[i]][1..] == edges[1..][i - 1 := [e] + edges[i]];
    } else {
      assert edges[i := [e] + edges[i]][1..] == edges[1..];
    }
  }

  // ---- looking up an aggregate ----

  ghost predicate InGraph(g: Graph, c: set<Marking>, i: nat) {
    i < |g.sets| && g.sets[i] == c
  }

  /** Position of an aggregate, or that of a new node. */
  ghost function Lookup(g: Graph, c: set<Marking>): nat {
    if exists i: nat :: InGraph(g, c, i) then var i: nat :| InGraph(g, c, i); i else |g.sets|
  }

  // ---- uniqueness ----

  /** In two complete reachable graphs with the same initial aggregate, every node of one has
      a node of the other with the same aggregate. */
  lemma TwinNode(net: Net, g: Graph, words: seq<seq<nat>>, i: nat, g': Graph) returns (i': nat)
    requires g.Ok(net) && Reachable(net, g.sets, words) && i < |g.sets|
    requires g'.Complete(net) && |g'.sets| > 0 && g.sets[0] == g'.sets[0]
    ensures i' < |g'.sets| && g'.sets[i'] == g.sets[i]
  {
    assert WordOk(net, g.sets, words, i);
    i' := g'.PathExists(net, 0, words[i]);
    g'.PathAggregate(net, 0, words[i], i');
  }

  /** Nodes with the same aggregate have the same edges, up to the numbering of nodes. */
  lemma TwinEdge(net: Net, g: Graph, i: nat, e: Edge, g': Graph, i': nat) returns (e': Edge)
    requires g.Ok(net) && i < |g.sets| && e in g.edges[i]
    requires g'.Complete(net) && i' < |g'.sets| && g.sets[i] == g'.sets[i']
    ensures e' in g'.edges[i'] && e'.t == e.t && e'.state < |g'.sets| && e.state < |g.sets|
    ensures g'.sets[e'.state] == g.sets[e.state]
  {
    assert g.NodeOk(net, i) && g.EdgeOk(net, i, e) && g'.FullNode(net, i') && g'.NodeOk(net, i');
    assert e.t in g'.Labels(i');
    e' :| e' in g'.edges[i'] && e'.t == e.t;
    assert g'.EdgeOk(net, i', e');
  }

  /** g' has, at node i', the edge e of g up to node numbers. */
  ghost predicate TwinIn(g: Graph, e: Edge, g': Graph, i': nat) {
    i' < |g'.edges| && exists e' :: e' in g'.edges[i'] && e'.t == e.t && e.state < |g.sets| && e'.state < |g'.sets|
                                    && g'.sets[e'.state] == g.sets[e.state]
  }

  /** Every edge of g is found in g' at the nodes of the same aggregates. */
  ghost predicate Simulated(g: Graph, g': Graph) {
    |g.sets| == |g.edges| && forall i, e, i' {:trigger e in g.edges[i], g'.sets[i']} ::
      (0 <= i < |g.sets| && 0 <= i' < |g'.sets| && g.sets[i] == g'.sets[i'] && e in g.edges[i]) ==> TwinIn(g, e, g', i')
  }

  /** Same aggregates, one node for each, and the same edges, up to the numbering of nodes. */
  ghost predicate Isomorphic(g: Graph, g': Graph) {
    (forall s :: s in g.sets <==> s in g'.sets) && |g.sets| == |g'.sets| && Simulated(g, g') && Simulated(g', g)
  }

  lemma Simulation(net: Net, g: Graph, g': Graph)
    requires g.Complete(net) && g'.Complete(net)
    ensures Simulated(g, g')
  {
    forall i, e, i' | 0 <= i < |g.sets| && 0 <= i' < |g'.sets| && g.sets[i] == g'.sets[i'] && e in g.edges[i]
      ensures TwinIn(g, e, g', i')
    {
      var e' := TwinEdge(net, g, i, e, g', i');
    }
  }

  /** The graph is determined by the net and its initial aggregate. */
  lemma Unique(net: Net, g: Graph, words: seq<seq<nat>>, g': Graph, words': seq<seq<nat>>)
    requires g.Complete(net) && Reachable(net, g.sets, words)
    requires g'.Complete(net) && Reachable(net, g'.sets, words') && g.sets[0] == g'.sets[0]
    ensures Isomorphic(g, g')
  {
    forall i | 0 <= i < |g.sets| ensures g.sets[i] in g'.sets { var i' := TwinNode(net, g, words, i, g'); }
    forall i | 0 <= i < |g'.sets| ensures g'.sets[i] in g.sets { var i' := TwinNode(net, g', words', i, g); }
    DistinctCount(g.sets);
    DistinctCount(g'.sets);
    assert (set s | s in g.sets) == (set s | s in g'.sets);
    Simulation(net, g, g');
    Simulation(net, g', g);
  }
}
