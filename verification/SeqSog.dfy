/** The node store of the observation graph, and its sequential construction by a stack of
    nodes with transitions left to fire. */
module SeqSogs {
  import opened Ldds
  import opened LddPackages
  import opened PetriNets
  import opened SogGraphs
  import opened CommonSogs
  import opened OpCaches

  /** Each edge is recorded at both ends. */
  ghost predicate Mirrored(succ: seq<seq<Edge>>, pred: seq<seq<Edge>>) {
    && |succ| == |pred|
    && forall i: nat, t: nat, j: nat {:trigger Edge(j, t) in succ[i]} {:trigger Edge(i, t) in pred[j]} ::
         i < |succ| && j < |succ| ==> (Edge(j, t) in succ[i] <==> Edge(i, t) in pred[j])
  }

  ghost predicate InRangeEdges(edges: seq<seq<Edge>>) {
    forall j, e :: 0 <= j < |edges| && e in edges[j] ==> e.state < |edges|
  }

  lemma MirrorNode(succ: seq<seq<Edge>>, pred: seq<seq<Edge>>)
    requires Mirrored(succ, pred) && InRangeEdges(succ) && InRangeEdges(pred)
    ensures Mirrored(succ + [[]], pred + [[]])
  {
  }

  lemma MirrorEdge(succ: seq<seq<Edge>>, pred: seq<seq<Edge>>, i: nat, t: nat, j: nat)
    requires Mirrored(succ, pred) && i < |succ| && j < |succ|
    ensures Mirrored(succ[i := [Edge(j, t)] + succ[i]], pred[j := [Edge(i, t)] + pred[j]])
  {
    var succ', pred' := succ[i := [Edge(j, t)] + succ[i]], pred[j := [Edge(i, t)] + pred[j]];
    forall i': nat, t': nat, j': nat | i' < |succ| && j' < |succ|
      ensures Edge(j', t') in succ'[i'] <==> Edge(i', t') in pred'[j']
    {
      assert Edge(j', t') in succ[i'] <==> Edge(i', t') in pred[j'];
    }
  }

  class LddGraph {
    var states: seq<nat>                // diagram handle of each node
    var loops: seq<bool>                // divergence flag of each node
    var successors: seq<seq<Edge>>
    var predecessors: seq<seq<Edge>>
    var arcs: nat
    ghost var sets: seq<set<Marking>>   // aggregate of each node
    ghost var words: seq<seq<nat>>      // an observable word that leads to it

    ghost function View(): Graph
      reads this
    {
      Graph(sets, successors)
    }

    ghost predicate StoredAt(t: Forest, places: nat, i: nat)
      requires i < |states| == |sets|
      reads this
    {
      states[i] in t && Wf(t[states[i]], places) && Den(t[states[i]]) == sets[i]
    }

    /** The handles denote the aggregates. */
    ghost predicate Stored(t: Forest, places: nat)
      reads this
    {
      && |states| == |loops| == |sets| == |successors| == |predecessors| == |words|
      && forall i {:trigger StoredAt(t, places, i)} :: 0 <= i < |states| ==> StoredAt(t, places, i)
    }

    ghost predicate LoopOk(net: Net, i: nat)
      requires i < |loops| == |sets|
      reads this
    {
      loops[i] <==> i != 0 && net.Diverges(sets[i])
    }

    /** Divergence flags: exact, except that node 0 is never examined. */
    ghost predicate LoopsOk(net: Net)
      reads this
    {
      |loops| == |sets| && forall i {:trigger LoopOk(net, i)} :: 0 <= i < |loops| ==> LoopOk(net, i)
    }

    constructor ()
      ensures states == [] && loops == [] && successors == [] && predecessors == [] && arcs == 0
      ensures sets == [] && words == []
    {
      states, loops, successors, predecessors, arcs := [], [], [], [], 0;
      sets, words := [], [];
    }

    /** First node with a given handle. */
    method Find(h: nat) returns (pos: Option<nat>)
      ensures match pos
              case Some(i) => i < |states| && states[i] == h
              case None => h !in states
    {
      for i := 0 to |states|
        invariant h !in states[..i]
      {
        if states[i] == h { return Some(i); }
      }
      return None;
    }

    method Insert(h: nat, loop: bool, ghost s: set<Marking>, ghost w: seq<nat>) returns (i: nat)
      modifies this
      ensures i == |old(states)| && states == old(states) + [h] && loops == old(loops) + [loop]
      ensures successors == old(successors) + [[]] && predecessors == old(predecessors) + [[]]
      ensures sets == old(sets) + [s] && words == old(words) + [w] && arcs == old(arcs)
    {
      i := |states|;
      states, loops := states + [h], loops + [loop];
      successors, predecessors := successors + [[]], predecessors + [[]];
      sets, words := sets + [s], words + [w];
    }

    method AddEdge(i: nat, t: nat, j: nat)
      requires i < |successors| && j < |predecessors|
      modifies this`successors, this`predecessors, this`arcs
      ensures successors == old(successors)[i := [Edge(j, t)] + old(successors)[i]]
      ensures predecessors == old(predecessors)[j := [Edge(i, t)] + old(predecessors)[j]]
      ensures arcs == old(arcs) + 1
    {
      successors := successors[i := [Edge(j, t)] + successors[i]];
      predecessors := predecessors[j := [Edge(i, t)] + predecessors[j]];
      arcs := arcs + 1;
    }
  }

  /** The work items are the nodes with transitions left, each at most once. */
  ghost predicate WorkOk(items: seq<Item>, todo: seq<set<nat>>) {
    && (forall k :: 0 <= k < |items| ==> items[k].node < |todo| && items[k].fire == todo[items[k].node])
    && (forall k, l :: 0 <= k < l < |items| ==> items[k].node != items[l].node)
    && (forall i :: 0 <= i < |todo| && todo[i] != {} ==> Item(i, todo[i]) in items)
  }

  /** One item takes a transition. */
  lemma TakeTransition(items: seq<Item>, todo: seq<set<nat>>, i: nat, fire: set<nat>, t: nat)
    requires WorkOk(items + [Item(i, fire)], todo) && t in fire
    ensures i < |todo| && WorkOk(items + [Item(i, fire - {t})], todo[i := todo[i] - {t}])
  {
    var work, work' := items + [Item(i, fire)], items + [Item(i, fire - {t})];
    var todo' := todo[i := todo[i] - {t}];
    assert work[|items|] == Item(i, fire) && work'[|items|] == Item(i, fire - {t});
    forall k | 0 <= k < |items| ensures work'[k] == work[k] && work[k].node != i {}
    forall m | 0 <= m < |todo'| && todo'[m] != {} ensures Item(m, todo'[m]) in work' {
      assert Item(m, todo[m]) in work;
    }
  }

  lemma PushItem(items: seq<Item>, current: Item, todo: seq<set<nat>>, fire: set<nat>)
    requires WorkOk(items + [current], todo)
    ensures WorkOk(items + [Item(|todo|, fire)] + [current], todo + [fire])
  {
    var work, todo' := items + [current], todo + [fire];
    var work' := items + [Item(|todo|, fire)] + [current];
    assert work[|items|] == current;
    forall k | 0 <= k < |items| ensures work'[k] == items[k] == work[k] {}
    assert work'[|items|] == Item(|todo|, fire) && work'[|items| + 1] == current;
    forall m | 0 <= m < |todo'| && todo'[m] != {} ensures Item(m, todo'[m]) in work' {
      if m < |todo| { assert Item(m, todo[m]) in work; }
    }
  }

  lemma DropItem(items: seq<Item>, i: nat, todo: seq<set<nat>>)
    requires WorkOk(items + [Item(i, {})], todo)
    ensures WorkOk(items, todo)
  {
    var work := items + [Item(i, {})];
    forall k | 0 <= k < |items| ensures items[k] == work[k] {}
    forall m | 0 <= m < |todo| && todo[m] != {} ensures Item(m, todo[m]) in items { assert Item(m, todo[m]) in work; }
  }

  /** Nothing left to do: the graph is complete. */
  lemma WorkDone(net: Net, g: Graph, todo: seq<set<nat>>)
    requires Pending(net, g, todo) && WorkOk([], todo)
    ensures g.Complete(net)
  {
    forall i | 0 <= i < |g.sets| ensures g.FullNode(net, i) {
      assert PendingAt(net, g, todo, i) && todo[i] == {};
    }
  }

  // ---- the construction ----

  /** What holds of the graph, of its handles and of the work left between two steps. */
  ghost predicate Building(sog: CommonSog, g: LddGraph, todo: seq<set<nat>>, x0: Marking)
    reads sog.p.Repr(), g
  {
    && sog.Ready() && g !in sog.p.Repr()
    && g.Stored(sog.p.tree, sog.net.places) && Pending(sog.net, g.View(), todo)
    && Reachable(sog.net, g.sets, g.words) && g.LoopsOk(sog.net) && Mirrored(g.successors, g.predecessors)
    && InRangeEdges(g.predecessors) && g.arcs == Total(g.successors)
    && g.sets[0] == sog.net.Closure({x0})
  }

  lemma StoredMore(g: LddGraph, t: Forest, t': Forest, places: nat)
    requires g.Stored(t, places) && Extends(t, t')
    ensures g.Stored(t', places)
  {
    forall i | 0 <= i < |g.states| ensures g.StoredAt(t', places, i) { assert g.StoredAt(t, places, i); }
  }

  /** The successor aggregate of a node by a transition. */
  method SuccessorOf(sog: CommonSog, g: LddGraph, i: nat, t: nat, ghost todo: seq<set<nat>>, ghost x0: Marking)
    returns (r: Result<nat>)
    requires Building(sog, g, todo, x0) && i < |g.states| && t < |sog.net.transitions|
    modifies sog.p.Repr()
    ensures sog.Ready() && (r.TableFull? ==> sog.p.Full())
    ensures r.Success? ==> Building(sog, g, todo, x0)
    ensures r.Success? ==> sog.Is(r.value) && sog.Set(r.value) == Successor(sog.net, g.sets[i], t)
  {
    assert g.StoredAt(sog.p.tree, sog.net.places, i);
    ghost var tree := sog.p.tree;
    var succ :- sog.GetSuccessor(g.states[i], t);
    StoredMore(g, tree, sog.p.tree, sog.net.places);
    ghost var tree' := sog.p.tree;
    r := sog.AccessibleEpsilon(succ);
    StoredMore(g, tree', sog.p.tree, sog.net.places);
  }

  /** Stores a new aggregate with its divergence flag, and its firable transitions as work. */
  method NewNode(sog: CommonSog, g: LddGraph, h: nat, ghost w: seq<nat>, ghost todo: seq<set<nat>>, ghost x0: Marking)
    returns (r: Result<Item>)
    requires Building(sog, g, todo, x0) && sog.Is(h) && Closed(sog.net, sog.Set(h)) && sog.Set(h) !in g.sets
    requires sog.Set(h) != {} && sog.Set(h) == Aggregate(sog.net, g.sets[0], w)
    modifies sog.p.Repr(), g
    ensures sog.Ready() && (r.TableFull? ==> sog.p.Full())
    ensures r.Success? ==> r.value.node == |todo| && Building(sog, g, todo + [r.value.fire], x0)
    ensures r.Success? ==> g.sets == old(g.sets) + [old(sog.Set(h))]
  {
    ghost var tree, net := sog.p.tree, sog.net;
    var div :- sog.SetDiv(h);
    StoredMore(g, tree, sog.p.tree, net.places);
    ghost var tree' := sog.p.tree;
    var fire :- sog.FirableObs(h);
    StoredMore(g, tree', sog.p.tree, net.places);
    var i := Store(sog, g, h, div, w, todo, x0);
    return Success(Item(i, fire));
  }

  method Store(sog: CommonSog, g: LddGraph, h: nat, div: bool, ghost w: seq<nat>, ghost todo: seq<set<nat>>,
          ghost x0: Marking)
    returns (i: nat)
    requires Building(sog, g, todo, x0) && sog.Is(h) && Closed(sog.net, sog.Set(h)) && sog.Set(h) !in g.sets
    requires sog.Set(h) != {} && sog.Set(h) == Aggregate(sog.net, g.sets[0], w)
    requires div <==> sog.net.Diverges(sog.Set(h))
    modifies g
    ensures i == |todo| && Building(sog, g, todo + [sog.net.FirableIn(sog.Set(h))], x0)
    ensures g.sets == old(g.sets) + [sog.Set(h)]
  {
    ghost var s, net := sog.Set(h), sog.net;
    AddNode(net, g.View(), todo, s);
    GrowOk(sog, g, todo, x0);
    label Before:
    i := g.Insert(h, div, s, w);
    forall m | 0 <= m < |g.states|
      ensures g.StoredAt(sog.p.tree, net.places, m) && WordOk(net, g.sets, g.words, m) && g.LoopOk(net, m)
    {
      if m < i {
        assert old@Before(g.StoredAt(sog.p.tree, net.places, m) && WordOk(net, g.sets, g.words, m) && g.LoopOk(net, m));
      }
    }
  }

  lemma GrowOk(sog: CommonSog, g: LddGraph, todo: seq<set<nat>>, x0: Marking)
    requires Building(sog, g, todo, x0)
    ensures InRangeEdges(g.successors)
    ensures Mirrored(g.successors + [[]], g.predecessors + [[]]) && InRangeEdges(g.predecessors + [[]])
    ensures Total(g.successors + [[]]) == Total(g.successors)
  {
    forall i, e | 0 <= i < |g.successors| && e in g.successors[i] ensures e.state < |g.successors| {
      assert g.View().NodeOk(sog.net, i) && g.View().EdgeOk(sog.net, i, e);
    }
    MirrorNode(g.successors, g.predecessors);
    TotalAppend(g.successors);
  }

  /** Links two stored nodes. */
  method NewEdge(sog: CommonSog, g: LddGraph, i: nat, t: nat, j: nat, ghost todo: seq<set<nat>>, ghost x0: Marking)
    requires Building(sog, g, todo, x0) && i < |todo| && t in todo[i] && t < |sog.net.transitions|
    requires j < |todo| && g.sets[j] == Successor(sog.net, g.sets[i], t)
    modifies g
    ensures Building(sog, g, todo[i := todo[i] - {t}], x0) && g.sets == old(g.sets)
  {
    ghost var net := sog.net;
    AddLink(net, g.View(), todo, i, t, j);
    MirrorEdge(g.successors, g.predecessors, i, t, j);
    TotalUpdate(g.successors, i, Edge(j, t));
    label Before:
    g.AddEdge(i, t, j);
    forall m | 0 <= m < |g.states|
      ensures g.StoredAt(sog.p.tree, net.places, m) && WordOk(net, g.sets, g.words, m) && g.LoopOk(net, m)
    {
      assert old@Before(g.StoredAt(sog.p.tree, net.places, m) && WordOk(net, g.sets, g.words, m) && g.LoopOk(net, m));
    }
  }

  /** Equal handle or new aggregate. */
  lemma FoundOrNew(sog: CommonSog, g: LddGraph, todo: seq<set<nat>>, x0: Marking, h: nat)
    requires Building(sog, g, todo, x0) && sog.Is(h)
    ensures forall i :: 0 <= i < |g.states| && g.states[i] == h ==> g.sets[i] == sog.Set(h)
    ensures h !in g.states ==> sog.Set(h) !in g.sets
  {
    forall i | 0 <= i < |g.states| ensures g.states[i] == h <==> g.sets[i] == sog.Set(h) {
      assert g.StoredAt(sog.p.tree, sog.net.places, i);
      sog.p.HandlesCanonical(g.states[i], h, sog.net.places);
    }
  }

  method VisitNew(sog: CommonSog, g: LddGraph, i: nat, t: nat, h: nat, ghost todo: seq<set<nat>>, ghost x0: Marking)
    returns (r: Result<Item>)
    requires Building(sog, g, todo, x0) && i < |todo| && t in todo[i] && t < |sog.net.transitions|
    requires sog.Is(h) && sog.Set(h) !in g.sets && sog.Set(h) == Successor(sog.net, g.sets[i], t)
    modifies sog.p.Repr(), g
    ensures sog.Ready() && (r.TableFull? ==> sog.p.Full())
    ensures r.Success? ==> r.value.node == |todo| && Unseen(sog.net, g.sets) < Unseen(sog.net, old(g.sets))
    ensures r.Success? ==> Building(sog, g, todo[i := todo[i] - {t}] + [r.value.fire], x0)
  {
    VisitFacts(sog, g, i, t, todo, x0);
    UnseenShrinks(sog.net, g.sets, sog.Set(h));
    var item :- NewNode(sog, g, h, g.words[i] + [t], todo, x0);
    NewEdge(sog, g, i, t, item.node, todo + [item.fire], x0);
    assert (todo + [item.fire])[i := todo[i] - {t}] == todo[i := todo[i] - {t}] + [item.fire];
    return Success(item);
  }

  /** The node of an aggregate, if it has one. */
  method Locate(sog: CommonSog, g: LddGraph, h: nat, ghost todo: seq<set<nat>>, ghost x0: Marking)
    returns (pos: Option<nat>)
    requires Building(sog, g, todo, x0) && sog.Is(h)
    ensures pos.Some? ==> pos.value < |todo| && g.sets[pos.value] == sog.Set(h)
    ensures pos.None? ==> sog.Set(h) !in g.sets
  {
    FoundOrNew(sog, g, todo, x0, h);
    pos := g.Find(h);
  }

  /** Fires transition t from node i: an edge to the node of the successor aggregate, which
      is stored first if it is new. */
  method Visit(sog: CommonSog, g: LddGraph, i: nat, t: nat, ghost todo: seq<set<nat>>, ghost x0: Marking)
    returns (r: Result<Option<Item>>)
    requires Building(sog, g, todo, x0) && i < |todo| && t in todo[i]
    modifies sog.p.Repr(), g
    ensures sog.Ready() && (r.TableFull? ==> sog.p.Full())
    ensures r.Success? && r.value.None? ==> Building(sog, g, todo[i := todo[i] - {t}], x0) && g.sets == old(g.sets)
    ensures r.Success? && r.value.Some? ==>
              && r.value.value.node == |todo|
              && Building(sog, g, todo[i := todo[i] - {t}] + [r.value.value.fire], x0)
              && Unseen(sog.net, g.sets) < Unseen(sog.net, old(g.sets))
  {
    VisitFacts(sog, g, i, t, todo, x0);
    var meta :- SuccessorOf(sog, g, i, t, todo, x0);
    var pos := Locate(sog, g, meta, todo, x0);
    match pos
    case Some(j) =>
      NewEdge(sog, g, i, t, j, todo, x0);
      return Success(None);
    case None =>
      var item :- VisitNew(sog, g, i, t, meta, todo, x0);
      return Success(Some(item));
  }

  lemma VisitFacts(sog: CommonSog, g: LddGraph, i: nat, t: nat, todo: seq<set<nat>>, x0: Marking)
    requires Building(sog, g, todo, x0) && i < |todo| && t in todo[i]
    ensures t < |sog.net.transitions| && Closed(sog.net, Successor(sog.net, g.sets[i], t))
    ensures Successor(sog.net, g.sets[i], t) != {}
    ensures Successor(sog.net, g.sets[i], t) == Aggregate(sog.net, g.sets[0], g.words[i] + [t])
  {
    assert PendingAt(sog.net, g.View(), todo, i) && g.View().NodeOk(sog.net, i) && WordOk(sog.net, g.sets, g.words, i);
    assert sog.net.Classified(t);
    SuccessorClosed(sog.net, g.sets[i], t);
    SuccessorNonEmpty(sog.net, g.sets[i], t);
    AggregateSnoc(sog.net, g.sets[0], g.words[i], t);
  }

  /** Fires the transitions left at the popped item, pushing the new nodes. */
  method Expand(sog: CommonSog, g: LddGraph, stack: seq<Item>, current: Item, ghost todo0: seq<set<nat>>,
          ghost x0: Marking)
    returns (r: Result<seq<Item>>, ghost todo: seq<set<nat>>)
    requires Building(sog, g, todo0, x0) && WorkOk(stack + [current], todo0)
    modifies sog.p.Repr(), g
    ensures sog.Ready() && (r.TableFull? ==> sog.p.Full())
    ensures r.Success? ==> Building(sog, g, todo, x0) && WorkOk(r.value, todo)
    ensures r.Success? ==> Unseen(sog.net, g.sets) < Unseen(sog.net, old(g.sets))
                           || (Unseen(sog.net, g.sets) == Unseen(sog.net, old(g.sets)) && r.value == stack)
  {
    var st, fire, i := stack, current.fire, current.node;
    todo := todo0;
    while fire != {}
      invariant Building(sog, g, todo, x0) && WorkOk(st + [Item(i, fire)], todo)
      invariant Unseen(sog.net, g.sets) < Unseen(sog.net, old(g.sets))
                || (Unseen(sog.net, g.sets) == Unseen(sog.net, old(g.sets)) && st == stack)
      decreases fire
    {
      var t :| t in fire;
      assert (st + [Item(i, fire)])[|st|] == Item(i, fire);
      TakeTransition(st, todo, i, fire, t);
      fire := fire - {t};
      var item := Visit(sog, g, i, t, todo, x0);
      if item.TableFull? { return TableFull, todo; }
      todo := todo[i := todo[i] - {t}];
      if item.value.Some? {
        PushItem(st, Item(i, fire), todo, item.value.value.fire);
        st := st + [item.value.value];
        todo := todo + [item.value.value.fire];
      }
    }
    DropItem(st, i, todo);
    return Success(st), todo;
  }

  /** Stores the initial aggregate as node 0, unexamined for divergence. */
  method Begin(sog: CommonSog, g: LddGraph, meta: nat, ghost x0: Marking) returns (ghost todo: seq<set<nat>>)
    requires sog.Ready() && sog.Is(meta) && x0 in sog.net.Universe() && sog.Set(meta) == sog.net.Closure({x0})
    requires g !in sog.p.Repr() && g.states == [] && g.loops == [] && g.successors == [] && g.predecessors == []
    requires g.arcs == 0 && g.sets == [] && g.words == []
    modifies g
    ensures Building(sog, g, todo, x0) && todo == [sog.net.FirableIn(sog.Set(meta))]
  {
    ghost var net := sog.net;
    FromInitial(net, x0, [], x0);
    ghost var none: Graph := Graph([], []);
    AddNode(net, none, [], sog.Set(meta));
    var c := g.Insert(meta, false, sog.Set(meta), []);
    assert g.View() == Graph([] + [sog.Set(meta)], [] + [[]]);
    todo := [net.FirableIn(sog.Set(meta))];
    assert g.StoredAt(sog.p.tree, net.places, 0) && WordOk(net, g.sets, g.words, 0) && g.LoopOk(net, 0);
  }

  /** Expands items until the stack is empty. */
  method Exhaust(sog: CommonSog, g: LddGraph, stack: seq<Item>, ghost todo0: seq<set<nat>>, ghost x0: Marking)
    returns (r: Result<seq<Item>>, ghost todo: seq<set<nat>>)
    requires Building(sog, g, todo0, x0) && WorkOk(stack, todo0)
    modifies sog.p.Repr(), g
    ensures sog.Ready() && (r.TableFull? ==> sog.p.Full())
    ensures r.Success? ==> r.value == [] && Building(sog, g, todo, x0) && WorkOk([], todo)
  {
    var st := stack;
    todo := todo0;
    while st != []
      invariant Building(sog, g, todo, x0) && WorkOk(st, todo)
      decreases Unseen(sog.net, g.sets), |st|
    {
      var e := st[|st| - 1];
      assert st[..|st| - 1] + [e] == st;
      var pushed;
      pushed, todo := Expand(sog, g, st[..|st| - 1], e, todo, x0);
      if pushed.TableFull? { return TableFull, todo; }
      st := pushed.value;
    }
    return Success([]), todo;
  }

  /** Sequential construction from the single initial marking x0. */
  method ComputeSeqSog(sog: CommonSog, m0: nat, ghost x0: Marking) returns (r: Result<LddGraph>)
    requires sog.Ready() && sog.Is(m0) && sog.Set(m0) == {x0}
    modifies sog.p.Repr()
    ensures sog.Ready() && (r.TableFull? ==> sog.p.Full())
    ensures r.Success? ==> var g := r.value; var net := sog.net;
              && fresh(g) && g.Stored(sog.p.tree, net.places)
              && g.View().Complete(net) && Reachable(net, g.sets, g.words) && g.sets[0] == net.Closure({x0})
              && g.LoopsOk(net) && Mirrored(g.successors, g.predecessors) && g.arcs == Total(g.successors)
  {
    sog.InUniverse(m0);
    assert x0 in sog.Set(m0);
    var g := new LddGraph();
    var meta :- sog.AccessibleEpsilon(m0);
    var fire :- sog.FirableObs(meta);
    ghost var todo := Begin(sog, g, meta, x0);
    var st := [Item(0, fire)];
    var rest;
    rest, todo := Exhaust(sog, g, st, todo, x0);
    if rest.TableFull? { return TableFull; }
    WorkDone(sog.net, g.View(), todo);
    return Success(g);
  }

  /** The divergence flag of the initial node is not computed: it is false even for a net
      whose initial aggregate has an unobservable loop. */
  lemma InitialDivergenceMissed(g: LddGraph)
    requires |g.sets| > 0
    ensures var net := Net(1, [Transition([0], [0])], [0], []);
            net.Ok() && [0] in net.Universe()
            && (g.LoopsOk(net) && g.sets[0] == net.Closure({[0]}) ==> !g.loops[0] && net.Diverges(g.sets[0]))
  {
    var net := Net(1, [Transition([0], [0])], [0], []);
    assert net.TransitionOk(0);
    assert net.hidden[0] == 0;
    assert forall t :: t in net.hidden <==> t == 0;
    assert net.Enabled([0], 0) && net.Fire([0], 0) == [0];
    assert net.StepBy(0, [0], [0]);
    net.EpsSelf([0]);
    assert net.OnCycle([0]);
    net.ClosureContains({[0]});
    net.CycleDiverges(net.Closure({[0]}), [0]);
    if g.LoopsOk(net) { assert g.LoopOk(net, 0); }
  }
}
