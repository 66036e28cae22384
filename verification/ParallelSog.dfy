/** Construction of the observation graph by several threads that share a queue of nodes, as
    a transition system.  Popping, find-or-insert, counting an arc, pushing and inserting an
    edge are each one atomic step, as the program's locks make them.  Any queued node may be
    popped; the program pops the oldest. */
module ParallelSogs {
  import opened Ldds
  import opened PetriNets
  import opened SogGraphs

  datatype Phase =
    | Idle
    | Holding(node: nat, fire: set<nat>)
    | Fired(node: nat, fire: set<nat>, t: nat)
    | Found(node: nat, fire: set<nat>, t: nat, pos: nat, isNew: bool)
    | Counted(node: nat, fire: set<nat>, t: nat, pos: nat, isNew: bool)
    | Pushed(node: nat, fire: set<nat>, t: nat, pos: nat)

  datatype State = State(graph: Graph, completed: seq<bool>, arcs: nat, queue: seq<Item>, threads: seq<Phase>)

  datatype Action =
    | Pop(k: nat, q: nat)
    | Take(k: nat, t: nat)
    | Insert(k: nat)
    | Count(k: nat)
    | Push(k: nat)
    | Connect(k: nat)
    | Finish(k: nat)

  /** The first thread has stored and pushed the initial aggregate. */
  ghost function Start(net: Net, x0: Marking, threads: nat): State {
    var s := net.Closure({x0});
    State(Graph([s], [[]]), [false], 0, [Item(0, net.FirableIn(s))], seq(threads, _ => Idle))
  }

  ghost predicate Enabled(net: Net, s: State, a: Action) {
    && a.k < |s.threads|
    && match a
       case Pop(k, q) => s.threads[k].Idle? && q < |s.queue|
       case Take(k, t) => s.threads[k].Holding? && t in s.threads[k].fire
       case Insert(k) => s.threads[k].Fired?
       case Count(k) => s.threads[k].Found?
       case Push(k) => s.threads[k].Counted?
       case Connect(k) => s.threads[k].Pushed? && s.threads[k].node < |s.graph.edges|
       case Finish(k) => s.threads[k].Holding? && s.threads[k].fire == {} && s.threads[k].node < |s.completed|
  }

  /** Aggregate that thread k is about to look up. */
  ghost function Meta(net: Net, s: State, node: nat, t: nat): set<Marking> {
    if net.Ok() && t < |net.transitions| && node < |s.graph.sets| then Successor(net, s.graph.sets[node], t) else {}
  }

  ghost function Apply(net: Net, s: State, a: Action): State
    requires Enabled(net, s, a)
  {
    var p := s.threads[a.k];
    match a
    case Pop(k, q) =>
      s.(queue := s.queue[..q] + s.queue[q + 1..], threads := s.threads[k := Holding(s.queue[q].node, s.queue[q].fire)])
    case Take(k, t) =>
      s.(threads := s.threads[k := Fired(p.node, p.fire - {t}, t)])
    case Insert(k) =>
      var c := Meta(net, s, p.node, p.t);
      var pos := Lookup(s.graph, c);
      var isNew := pos == |s.graph.sets|;
      var s' := s.(threads := s.threads[k := Found(p.node, p.fire, p.t, pos, isNew)]);
      if isNew then s'.(graph := Graph(s.graph.sets + [c], s.graph.edges + [[]]), completed := s.completed + [false])
        else s'
    case Count(k) =>
      s.(arcs := s.arcs + 1, threads := s.threads[k := Counted(p.node, p.fire, p.t, p.pos, p.isNew)])
    case Push(k) =>
      var s' := s.(threads := s.threads[k := Pushed(p.node, p.fire, p.t, p.pos)]);
      if p.isNew && p.pos < |s.graph.sets|
        then s'.(queue := s.queue + [Item(p.pos, net.FirableIn(s.graph.sets[p.pos]))]) else s'
    case Connect(k) =>
      s.(graph := s.graph.(edges := s.graph.edges[p.node := [Edge(p.pos, p.t)] + s.graph.edges[p.node]]),
         threads := s.threads[k := Holding(p.node, p.fire)])
    case Finish(k) =>
      s.(completed := s.completed[p.node := true], threads := s.threads[k := Idle])
  }

  ghost predicate NextAt(net: Net, run: seq<State>, i: nat)
    requires i + 1 < |run|
  {
    exists a :: Enabled(net, run[i], a) && run[i + 1] == Apply(net, run[i], a)
  }

  /** The states of some interleaving of the threads' steps. */
  ghost predicate IsRun(net: Net, x0: Marking, threads: nat, run: seq<State>) {
    && 0 < |run| && run[0] == Start(net, x0, threads)
    && forall i {:trigger NextAt(net, run, i)} :: 0 <= i < |run| - 1 ==> NextAt(net, run, i)
  }

  // ---- the invariant ----

  datatype Owner = Queued | Held(k: nat) | Fresh(k: nat) | Done

  /** Who is in charge of each node, its transitions without an edge yet, and a word leading to it. */
  datatype Aux = Aux(owner: seq<Owner>, todo: seq<set<nat>>, words: seq<seq<nat>>)

  /** Transitions the thread still has to give its node an edge for. */
  function Left(p: Phase): set<nat> {
    match p
    case Idle => {}
    case Holding(_, fire) => fire
    case Fired(_, fire, t) => fire + {t}
    case Found(_, fire, t, _, _) => fire + {t}
    case Counted(_, fire, t, _, _) => fire + {t}
    case Pushed(_, fire, t, _) => fire + {t}
  }

  predicate HasFresh(p: Phase) {
    (p.Found? || p.Counted?) && p.isNew
  }

  ghost predicate ThreadOk(net: Net, s: State, aux: Aux, k: nat)
    requires net.Ok() && |aux.owner| == |aux.todo| == |s.graph.sets| && k < |s.threads|
  {
    var p := s.threads[k];
    !p.Idle? ==>
      && p.node < |aux.owner| && aux.owner[p.node] == Held(k) && aux.todo[p.node] == Left(p)
      && (!p.Holding? ==> p.t !in p.fire)
      && (p.Found? || p.Counted? || p.Pushed? ==>
            p.pos < |aux.owner| && p.t < |net.transitions|
              && s.graph.sets[p.pos] == Successor(net, s.graph.sets[p.node], p.t))
      && (HasFresh(p) ==> aux.owner[p.pos] == Fresh(k) && aux.todo[p.pos] == net.FirableIn(s.graph.sets[p.pos]))
  }

  /** Every node is queued once, held by one thread, just inserted by one thread, or completed. */
  ghost predicate OwnerOk(s: State, aux: Aux, i: nat)
    requires i < |aux.owner| == |aux.todo| == |s.completed|
  {
    && (s.completed[i] <==> aux.owner[i] == Done)
    && match aux.owner[i]
       case Queued => Item(i, aux.todo[i]) in s.queue
       case Held(k) => k < |s.threads| && !s.threads[k].Idle? && s.threads[k].node == i
       case Fresh(k) => k < |s.threads| && HasFresh(s.threads[k]) && s.threads[k].pos == i
       case Done => aux.todo[i] == {}
  }

  ghost predicate QueueOk(s: State, aux: Aux)
    requires |aux.owner| == |aux.todo|
  {
    && (forall q :: 0 <= q < |s.queue| ==> s.queue[q].node < |aux.owner|)
    && (forall q :: 0 <= q < |s.queue| ==>
         aux.owner[s.queue[q].node] == Queued && s.queue[q].fire == aux.todo[s.queue[q].node])
    && (forall q, q' :: 0 <= q < q' < |s.queue| ==> s.queue[q].node != s.queue[q'].node)
  }

  function CountedArc(p: Phase): nat { if p.Counted? || p.Pushed? then 1 else 0 }

  ghost function CountedArcs(threads: seq<Phase>): nat {
    if threads == [] then 0 else CountedArc(threads[0]) + CountedArcs(threads[1..])
  }

  lemma {:induction false} CountedUpdate(threads: seq<Phase>, k: nat, p: Phase)
    requires k < |threads|
    ensures CountedArcs(threads[k := p]) + CountedArc(threads[k]) == CountedArcs(threads) + CountedArc(p)
  {
    if k > 0 {
      CountedUpdate(threads[1..], k - 1, p);
      assert threads[k := p][1..] == threads[1..][k - 1 := p];
    } else {
      assert threads[k := p][1..] == threads[1..];
    }
  }

  ghost predicate Inv(net: Net, s: State, aux: Aux) {
    && Pending(net, s.graph, aux.todo) && |aux.owner| == |aux.todo| == |s.completed|
    && Reachable(net, s.graph.sets, aux.words)
    && s.arcs == Total(s.graph.edges) + CountedArcs(s.threads)
    && QueueOk(s, aux)
    && (forall k {:trigger ThreadOk(net, s, aux, k)} :: 0 <= k < |s.threads| ==> ThreadOk(net, s, aux, k))
    && (forall i {:trigger OwnerOk(s, aux, i)} :: 0 <= i < |aux.owner| ==> OwnerOk(s, aux, i))
  }

  lemma {:induction false} NoneCounted(threads: seq<Phase>)
    requires forall k :: 0 <= k < |threads| ==> threads[k].Idle?
    ensures CountedArcs(threads) == 0
  {
    if threads != [] { NoneCounted(threads[1..]); }
  }

  lemma StartGraph(net: Net, x0: Marking)
    requires net.Ok() && x0 in net.Universe()
    ensures var c := net.Closure({x0}); var g := Graph([c], [[]]);
            Pending(net, g, [net.FirableIn(c)]) && Reachable(net, g.sets, [[]]) && Total(g.edges) == 0
  {
    var c := net.Closure({x0});
    FromInitial(net, x0, [], x0);
    var none: Graph := Graph([], []);
    AddNode(net, none, [], c);
    var g := Graph([c], [[]]);
    assert g == WithNode(none, c) && [net.FirableIn(c)] == [] + [net.FirableIn(c)];
    assert g.edges[1..] == [];
    assert WordOk(net, g.sets, [[]], 0);
  }

  lemma StartInv(net: Net, x0: Marking, threads: nat) returns (aux: Aux)
    requires net.Ok() && x0 in net.Universe()
    ensures Inv(net, Start(net, x0, threads), aux)
  {
    var s, c := Start(net, x0, threads), net.Closure({x0});
    StartGraph(net, x0);
    aux := Aux([Queued], [net.FirableIn(c)], [[]]);
    NoneCounted(s.threads);
    assert s.queue[0] == Item(0, aux.todo[0]);
    assert OwnerOk(s, aux, 0);
  }

  // ---- one step ----

  lemma PopInv(net: Net, s: State, aux: Aux, k: nat, q: nat) returns (aux': Aux)
    requires Inv(net, s, aux) && Enabled(net, s, Pop(k, q))
    ensures Inv(net, Apply(net, s, Pop(k, q)), aux')
  {
    var s', item := Apply(net, s, Pop(k, q)), s.queue[q];
    aux' := aux.(owner := aux.owner[item.node := Held(k)]);
    CountedUpdate(s.threads, k, s'.threads[k]);
    forall m | 0 <= m < |s.threads| ensures ThreadOk(net, s', aux', m) { assert ThreadOk(net, s, aux, m); }
    PopOwners(net, s, aux, k, q, aux');
  }

  lemma PopOwners(net: Net, s: State, aux: Aux, k: nat, q: nat, aux': Aux)
    requires Inv(net, s, aux) && Enabled(net, s, Pop(k, q)) && s.queue[q].node < |aux.owner|
    requires aux' == aux.(owner := aux.owner[s.queue[q].node := Held(k)])
    ensures forall i :: 0 <= i < |aux.owner| ==> OwnerOk(Apply(net, s, Pop(k, q)), aux', i)
  {
    var s' := Apply(net, s, Pop(k, q));
    forall i | 0 <= i < |aux.owner| ensures OwnerOk(s', aux', i) {
      assert OwnerOk(s, aux, i);
      if i != s.queue[q].node && aux.owner[i].Queued? { StillQueued(s.queue, q, Item(i, aux.todo[i])); }
    }
  }

  lemma StillQueued(queue: seq<Item>, q: nat, item: Item)
    requires q < |queue| && item in queue && item != queue[q]
    ensures item in queue[..q] + queue[q + 1..]
  {
    var n :| 0 <= n < |queue| && queue[n] == item;
    var rest := queue[..q] + queue[q + 1..];
    assert rest[if n < q then n else n - 1] == item;
  }

  lemma TakeInv(net: Net, s: State, aux: Aux, k: nat, t: nat) returns (aux': Aux)
    requires Inv(net, s, aux) && Enabled(net, s, Take(k, t))
    ensures Inv(net, Apply(net, s, Take(k, t)), aux')
  {
    var s' := Apply(net, s, Take(k, t));
    aux' := aux;
    CountedUpdate(s.threads, k, s'.threads[k]);
    assert s.threads[k].fire - {t} + {t} == s.threads[k].fire;
    forall m | 0 <= m < |s.threads| ensures ThreadOk(net, s', aux', m) { assert ThreadOk(net, s, aux, m); }
    forall i | 0 <= i < |aux.owner| ensures OwnerOk(s', aux', i) { assert OwnerOk(s, aux, i); }
  }

  lemma CountInv(net: Net, s: State, aux: Aux, k: nat) returns (aux': Aux)
    requires Inv(net, s, aux) && Enabled(net, s, Count(k))
    ensures Inv(net, Apply(net, s, Count(k)), aux')
  {
    var s' := Apply(net, s, Count(k));
    aux' := aux;
    CountedUpdate(s.threads, k, s'.threads[k]);
    forall m | 0 <= m < |s.threads| ensures ThreadOk(net, s', aux', m) { assert ThreadOk(net, s, aux, m); }
    forall i | 0 <= i < |aux.owner| ensures OwnerOk(s', aux', i) { assert OwnerOk(s, aux, i); }
  }

  lemma PushInv(net: Net, s: State, aux: Aux, k: nat) returns (aux': Aux)
    requires Inv(net, s, aux) && Enabled(net, s, Push(k))
    ensures Inv(net, Apply(net, s, Push(k)), aux')
  {
    var s', p := Apply(net, s, Push(k)), s.threads[k];
    assert ThreadOk(net, s, aux, k);
    aux' := if p.isNew then aux.(owner := aux.owner[p.pos := Queued]) else aux;
    CountedUpdate(s.threads, k, s'.threads[k]);
    forall m | 0 <= m < |s.threads| ensures ThreadOk(net, s', aux', m) { assert ThreadOk(net, s, aux, m); }
    PushOwners(net, s, aux, k, aux');
  }

  lemma PushOwners(net: Net, s: State, aux: Aux, k: nat, aux': Aux)
    requires Inv(net, s, aux) && Enabled(net, s, Push(k)) && ThreadOk(net, s, aux, k)
    requires var p := s.threads[k];
             aux' == if p.isNew then aux.(owner := aux.owner[p.pos := Queued]) else aux
    ensures var s' := Apply(net, s, Push(k));
            QueueOk(s', aux') && forall i :: 0 <= i < |aux.owner| ==> OwnerOk(s', aux', i)
  {
    forall i | 0 <= i < |aux.owner| ensures OwnerOk(Apply(net, s, Push(k)), aux', i) { assert OwnerOk(s, aux, i); }
  }

  lemma FinishInv(net: Net, s: State, aux: Aux, k: nat) returns (aux': Aux)
    requires Inv(net, s, aux) && Enabled(net, s, Finish(k))
    ensures Inv(net, Apply(net, s, Finish(k)), aux')
  {
    var s', p := Apply(net, s, Finish(k)), s.threads[k];
    assert ThreadOk(net, s, aux, k);
    aux' := aux.(owner := aux.owner[p.node := Done]);
    CountedUpdate(s.threads, k, s'.threads[k]);
    forall m | 0 <= m < |s.threads| ensures ThreadOk(net, s', aux', m) { assert ThreadOk(net, s, aux, m); }
    forall i | 0 <= i < |aux.owner| ensures OwnerOk(s', aux', i) { assert OwnerOk(s, aux, i); }
  }

  lemma ConnectInv(net: Net, s: State, aux: Aux, k: nat) returns (aux': Aux)
    requires Inv(net, s, aux) && Enabled(net, s, Connect(k))
    ensures Inv(net, Apply(net, s, Connect(k)), aux')
  {
    var s', p := Apply(net, s, Connect(k)), s.threads[k];
    assert ThreadOk(net, s, aux, k);
    aux' := aux.(todo := aux.todo[p.node := aux.todo[p.node] - {p.t}]);
    assert aux.todo[p.node] - {p.t} == p.fire;
    AddLink(net, s.graph, aux.todo, p.node, p.t, p.pos);
    TotalUpdate(s.graph.edges, p.node, Edge(p.pos, p.t));
    CountedUpdate(s.threads, k, s'.threads[k]);
    ConnectOthers(net, s, aux, k, aux');
  }

  lemma ConnectOthers(net: Net, s: State, aux: Aux, k: nat, aux': Aux)
    requires Inv(net, s, aux) && Enabled(net, s, Connect(k)) && ThreadOk(net, s, aux, k)
    requires aux' == aux.(todo := aux.todo[s.threads[k].node := s.threads[k].fire])
    ensures var s' := Apply(net, s, Connect(k));
            && QueueOk(s', aux') && Reachable(net, s'.graph.sets, aux'.words)
            && (forall m :: 0 <= m < |s.threads| ==> ThreadOk(net, s', aux', m))
            && (forall i :: 0 <= i < |aux.owner| ==> OwnerOk(s', aux', i))
  {
    var s' := Apply(net, s, Connect(k));
    forall m | 0 <= m < |s.threads| ensures ThreadOk(net, s', aux', m) { assert ThreadOk(net, s, aux, m); }
    forall i | 0 <= i < |aux.owner| ensures OwnerOk(s', aux', i) { assert OwnerOk(s, aux, i); }
  }

  lemma InsertInv(net: Net, s: State, aux: Aux, k: nat) returns (aux': Aux)
    requires Inv(net, s, aux) && Enabled(net, s, Insert(k))
    ensures Inv(net, Apply(net, s, Insert(k)), aux')
  {
    var s', p := Apply(net, s, Insert(k)), s.threads[k];
    assert ThreadOk(net, s, aux, k) && PendingAt(net, s.graph, aux.todo, p.node);
    assert net.Classified(p.t);
    var c := Meta(net, s, p.node, p.t);
    CountedUpdate(s.threads, k, s'.threads[k]);
    if exists i :: InGraph(s.graph, c, i) {
      aux' := aux;
    } else {
      aux' := InsertNew(net, s, aux, p.node, p.t, k);
    }
    InsertOthers(net, s, aux, k, aux');
  }

  /** The part of InsertInv about threads and owners. */
  lemma InsertOthers(net: Net, s: State, aux: Aux, k: nat, aux': Aux)
    requires Inv(net, s, aux) && Enabled(net, s, Insert(k))
    requires var s' := Apply(net, s, Insert(k)); var p := s'.threads[k];
             && s.threads[k].node < |s.graph.sets| && s.threads[k].t < |net.transitions|
             && InGraph(s'.graph, Successor(net, s.graph.sets[s.threads[k].node], s.threads[k].t), p.pos)
             && aux'.owner == aux.owner + (if p.isNew then [Fresh(k)] else [])
             && aux'.todo == aux.todo + (if p.isNew then [net.FirableIn(s'.graph.sets[p.pos])] else [])
    ensures var s' := Apply(net, s, Insert(k));
            && (forall m :: 0 <= m < |s.threads| ==> ThreadOk(net, s', aux', m))
            && (forall i :: 0 <= i < |aux'.owner| ==> OwnerOk(s', aux', i))
  {
    var s' := Apply(net, s, Insert(k));
    assert ThreadOk(net, s, aux, k);
    forall m | 0 <= m < |s.threads| ensures ThreadOk(net, s', aux', m) { assert ThreadOk(net, s, aux, m); }
    forall i | 0 <= i < |aux'.owner| ensures OwnerOk(s', aux', i) { if i < |aux.owner| { assert OwnerOk(s, aux, i); } }
  }

  /** The part of InsertInv about a new node. */
  lemma InsertNew(net: Net, s: State, aux: Aux, node: nat, t: nat, k: nat) returns (aux': Aux)
    requires Pending(net, s.graph, aux.todo) && Reachable(net, s.graph.sets, aux.words) && |aux.owner| == |aux.todo|
    requires node < |s.graph.sets| && t in aux.todo[node] && t < |net.transitions|
    requires !exists i :: InGraph(s.graph, Successor(net, s.graph.sets[node], t), i)
    ensures var c := Successor(net, s.graph.sets[node], t); var g' := Graph(s.graph.sets + [c], s.graph.edges + [[]]);
            && aux'.owner == aux.owner + [Fresh(k)] && aux'.todo == aux.todo + [net.FirableIn(c)]
            && Pending(net, g', aux'.todo) && Reachable(net, g'.sets, aux'.words)
            && Total(g'.edges) == Total(s.graph.edges)
  {
    var g, c := s.graph, Successor(net, s.graph.sets[node], t);
    assert PendingAt(net, g, aux.todo, node) && g.NodeOk(net, node) && WordOk(net, g.sets, aux.words, node);
    assert net.Classified(t);
    SuccessorClosed(net, g.sets[node], t);
    SuccessorNonEmpty(net, g.sets[node], t);
    AggregateSnoc(net, g.sets[0], aux.words[node], t);
    forall i | 0 <= i < |g.sets| ensures g.sets[i] != c { assert !InGraph(g, c, i); }
    AddNode(net, g, aux.todo, c);
    TotalAppend(g.edges);
    aux' := Aux(aux.owner + [Fresh(k)], aux.todo + [net.FirableIn(c)], aux.words + [aux.words[node] + [t]]);
    forall i | 0 <= i <= |g.sets| ensures WordOk(net, g.sets + [c], aux'.words, i) {
      if i < |g.sets| { assert WordOk(net, g.sets, aux.words, i); }
    }
  }

  lemma StepInv(net: Net, s: State, aux: Aux, a: Action) returns (aux': Aux)
    requires Inv(net, s, aux) && Enabled(net, s, a)
    ensures Inv(net, Apply(net, s, a), aux')
  {
    match a
    case Pop(k, q) => aux' := PopInv(net, s, aux, k, q);
    case Take(k, t) => aux' := TakeInv(net, s, aux, k, t);
    case Insert(k) => aux' := InsertInv(net, s, aux, k);
    case Count(k) => aux' := CountInv(net, s, aux, k);
    case Push(k) => aux' := PushInv(net, s, aux, k);
    case Connect(k) => aux' := ConnectInv(net, s, aux, k);
    case Finish(k) => aux' := FinishInv(net, s, aux, k);
  }

  /** The invariant holds in every state of every run. */
  lemma {:induction false} RunInv(net: Net, x0: Marking, threads: nat, run: seq<State>, n: nat) returns (aux: Aux)
    requires net.Ok() && x0 in net.Universe() && IsRun(net, x0, threads, run) && n < |run|
    ensures Inv(net, run[n], aux)
  {
    if n == 0 {
      aux := StartInv(net, x0, threads);
    } else {
      assert NextAt(net, run, n - 1);
      var a :| Enabled(net, run[n - 1], a) && run[n] == Apply(net, run[n - 1], a);
      aux := RunInv(net, x0, threads, run, n - 1);
      aux := StepInv(net, run[n - 1], aux, a);
    }
  }

  lemma {:induction false} FirstNode(net: Net, x0: Marking, threads: nat, run: seq<State>, n: nat)
    requires net.Ok() && IsRun(net, x0, threads, run) && n < |run|
    ensures 0 < |run[n].graph.sets| && run[n].graph.sets[0] == net.Closure({x0})
    ensures |run[n].threads| == threads
  {
    if n > 0 {
      assert NextAt(net, run, n - 1);
      var a :| Enabled(net, run[n - 1], a) && run[n] == Apply(net, run[n - 1], a);
      FirstNode(net, x0, threads, run, n - 1);
    }
  }

  // ---- what the runs guarantee ----

  ghost predicate InQueue(s: State, i: nat) {
    exists q :: 0 <= q < |s.queue| && s.queue[q].node == i
  }

  /** Thread k works on node i. */
  predicate HeldBy(s: State, k: nat, i: nat) {
    k < |s.threads| && !s.threads[k].Idle? && s.threads[k].node == i
  }

  /** Thread k has inserted node i and not pushed it yet. */
  predicate FreshAt(s: State, k: nat, i: nat) {
    k < |s.threads| && HasFresh(s.threads[k]) && s.threads[k].pos == i
  }

  predicate CompletedAt(s: State, i: nat) {
    i < |s.completed| && s.completed[i]
  }

  /** Every stored aggregate is queued, held by one thread, just inserted by one thread, or
      completed, and only one of these. */
  lemma OnePlace(net: Net, x0: Marking, threads: nat, run: seq<State>, n: nat, i: nat)
    requires net.Ok() && x0 in net.Universe() && IsRun(net, x0, threads, run) && n < |run| && i < |run[n].graph.sets|
    ensures var s := run[n];
      && (InQueue(s, i) || CompletedAt(s, i) || exists k: nat :: HeldBy(s, k, i) || FreshAt(s, k, i))
      && !(InQueue(s, i) && CompletedAt(s, i))
      && (forall k: nat :: HeldBy(s, k, i) || FreshAt(s, k, i) ==> !InQueue(s, i) && !CompletedAt(s, i))
      && (forall k: nat, k': nat ::
            (HeldBy(s, k, i) || FreshAt(s, k, i)) && (HeldBy(s, k', i) || FreshAt(s, k', i)) ==> k == k')
  {
    var s := run[n];
    var aux := RunInv(net, x0, threads, run, n);
    assert OwnerOk(s, aux, i);
    forall k: nat | HeldBy(s, k, i) || FreshAt(s, k, i) ensures aux.owner[i] == Held(k) || aux.owner[i] == Fresh(k) {
      assert ThreadOk(net, s, aux, k);
    }
    match aux.owner[i]
    case Held(k) => assert HeldBy(s, k, i);
    case Fresh(k) => assert FreshAt(s, k, i);
    case _ =>
  }

  /** A completed node has exactly one edge for each observable transition firable in it,
      leading to the successor aggregate; nodes never share an aggregate. */
  lemma CompletedNode(net: Net, x0: Marking, threads: nat, run: seq<State>, n: nat, i: nat)
    requires net.Ok() && x0 in net.Universe() && IsRun(net, x0, threads, run) && n < |run| && CompletedAt(run[n], i)
    ensures run[n].graph.Ok(net) && i < |run[n].graph.sets| && run[n].graph.FullNode(net, i)
  {
    var aux := RunInv(net, x0, threads, run, n);
    assert OwnerOk(run[n], aux, i) && PendingAt(net, run[n].graph, aux.todo, i);
  }

  ghost predicate Quiescent(s: State) {
    s.queue == [] && forall k :: 0 <= k < |s.threads| ==> s.threads[k].Idle?
  }

  /** When nothing is queued and no thread works, the graph is the observation graph of the
      net, every node is completed and every arc has been counted once. */
  lemma QuiescentComplete(net: Net, x0: Marking, threads: nat, run: seq<State>, n: nat) returns (words: seq<seq<nat>>)
    requires net.Ok() && x0 in net.Universe() && IsRun(net, x0, threads, run) && n < |run| && Quiescent(run[n])
    ensures var s := run[n];
      && s.graph.Complete(net) && Reachable(net, s.graph.sets, words) && s.graph.sets[0] == net.Closure({x0})
      && s.arcs == Total(s.graph.edges) && forall i :: 0 <= i < |s.graph.sets| ==> CompletedAt(s, i)
  {
    var s := run[n];
    var aux := RunInv(net, x0, threads, run, n);
    FirstNode(net, x0, threads, run, n);
    words := aux.words;
    NoneCounted(s.threads);
    forall i | 0 <= i < |s.graph.sets| ensures s.graph.FullNode(net, i) && CompletedAt(s, i) {
      assert OwnerOk(s, aux, i) && PendingAt(net, s.graph, aux.todo, i);
    }
  }

  /** All runs end in the same graph, whatever the interleaving and the number of threads. */
  lemma Confluent(net: Net, x0: Marking, m: nat, run: seq<State>, n: nat, m': nat, run': seq<State>, n': nat)
    requires net.Ok() && x0 in net.Universe()
    requires IsRun(net, x0, m, run) && n < |run| && Quiescent(run[n])
    requires IsRun(net, x0, m', run') && n' < |run'| && Quiescent(run'[n'])
    ensures Isomorphic(run[n].graph, run'[n'].graph)
  {
    var words := QuiescentComplete(net, x0, m, run, n);
    var words' := QuiescentComplete(net, x0, m', run', n');
    Unique(net, run[n].graph, words, run'[n'].graph, words');
  }

  /** And that graph is the one the sequential construction ends with. */
  lemma MatchesSequential(net: Net, x0: Marking, m: nat, run: seq<State>, n: nat, g: Graph, words: seq<seq<nat>>)
    requires net.Ok() && x0 in net.Universe() && IsRun(net, x0, m, run) && n < |run| && Quiescent(run[n])
    requires g.Complete(net) && Reachable(net, g.sets, words) && g.sets[0] == net.Closure({x0})
    ensures Isomorphic(g, run[n].graph)
  {
    var words' := QuiescentComplete(net, x0, m, run, n);
    Unique(net, g, words, run[n].graph, words');
  }

  /** No deadlock: with at least one thread, some step is possible until the state is quiescent. */
  lemma Progress(net: Net, x0: Marking, threads: nat, run: seq<State>, n: nat) returns (a: Action)
    requires net.Ok() && x0 in net.Universe() && IsRun(net, x0, threads, run) && n < |run|
    requires threads > 0 && !Quiescent(run[n])
    ensures Enabled(net, run[n], a)
  {
    var s := run[n];
    var aux := RunInv(net, x0, threads, run, n);
    FirstNode(net, x0, threads, run, n);
    if k :| 0 <= k < |s.threads| && !s.threads[k].Idle? {
      assert ThreadOk(net, s, aux, k);
      match s.threads[k]
      case Holding(_, fire) =>
        if fire == {} { a := Finish(k); } else { var t :| t in fire; a := Take(k, t); }
      case Fired(_, _, _) => a := Insert(k);
      case Found(_, _, _, _, _) => a := Count(k);
      case Counted(_, _, _, _, _) => a := Push(k);
      case Pushed(_, _, _, _) => a := Connect(k);
    } else {
      a := Pop(0, 0);
    }
  }

  // ---- every run ends ----

  /** Steps left for a queued node, apart from the nodes it may lead to. */
  function ItemWeight(fire: set<nat>): nat { 2 + 6 * |fire| }

  /** Steps left for what a thread holds, with the node it has inserted and not pushed yet. */
  ghost function PhaseWeight(net: Net, sets: seq<set<Marking>>, p: Phase): nat {
    (match p
     case Idle => 0
     case Holding(_, fire) => 1 + 6 * |fire|
     case Fired(_, fire, _) => 6 + 6 * |fire|
     case Found(_, fire, _, _, _) => 5 + 6 * |fire|
     case Counted(_, fire, _, _, _) => 4 + 6 * |fire|
     case Pushed(_, fire, _, _) => 3 + 6 * |fire|)
    + (if HasFresh(p) && p.pos < |sets| then ItemWeight(net.FirableIn(sets[p.pos])) else 0)
  }

  ghost function QueueWeight(queue: seq<Item>): nat {
    if queue == [] then 0 else ItemWeight(queue[0].fire) + QueueWeight(queue[1..])
  }

  ghost function ThreadsWeight(net: Net, sets: seq<set<Marking>>, threads: seq<Phase>): nat {
    if threads == [] then 0 else PhaseWeight(net, sets, threads[0]) + ThreadsWeight(net, sets, threads[1..])
  }

  /** What a new node may cost. */
  function NodeCost(net: Net): nat { 2 + 6 * |net.visible| }

  function Times(n: nat, cost: nat): nat {
    if n == 0 then 0 else cost + Times(n - 1, cost)
  }

  /** Bound on the number of steps left. */
  ghost function StepsLeft(net: Net, s: State): nat {
    Times(|Unseen(net, s.graph.sets)|, NodeCost(net)) + QueueWeight(s.queue)
    + ThreadsWeight(net, s.graph.sets, s.threads)
  }

  lemma {:induction false} WeightUpdate(net: Net, sets: seq<set<Marking>>, threads: seq<Phase>, k: nat, p: Phase)
    requires k < |threads|
    ensures ThreadsWeight(net, sets, threads[k := p]) + PhaseWeight(net, sets, threads[k])
         == ThreadsWeight(net, sets, threads) + PhaseWeight(net, sets, p)
  {
    if k > 0 {
      WeightUpdate(net, sets, threads[1..], k - 1, p);
      assert threads[k := p][1..] == threads[1..][k - 1 := p];
    } else {
      assert threads[k := p][1..] == threads[1..];
    }
  }

  /** A new node changes nothing for the nodes that threads hold. */
  lemma {:induction false} WeightGrows(net: Net, sets: seq<set<Marking>>, c: set<Marking>, threads: seq<Phase>)
    requires forall k :: 0 <= k < |threads| && HasFresh(threads[k]) ==> threads[k].pos < |sets|
    ensures ThreadsWeight(net, sets + [c], threads) == ThreadsWeight(net, sets, threads)
  {
    if threads != [] { WeightGrows(net, sets, c, threads[1..]); }
  }

  lemma RestTail(queue: seq<Item>, q: nat)
    requires 0 < q < |queue|
    ensures (queue[..q] + queue[q + 1..])[0] == queue[0]
    ensures (queue[..q] + queue[q + 1..])[1..] == queue[1..][..q - 1] + queue[1..][q - 1 + 1..]
  {
  }

  lemma {:induction false} QueueRemoved(queue: seq<Item>, q: nat)
    requires q < |queue|
    ensures QueueWeight(queue[..q] + queue[q + 1..]) + ItemWeight(queue[q].fire) == QueueWeight(queue)
  {
    if q > 0 {
      QueueRemoved(queue[1..], q - 1);
      RestTail(queue, q);
    } else {
      assert queue[..0] + queue[1..] == queue[1..];
    }
  }

  lemma {:induction false} QueueAppended(queue: seq<Item>, item: Item)
    ensures QueueWeight(queue + [item]) == QueueWeight(queue) + ItemWeight(item.fire)
  {
    if queue == [] { assert queue + [item] == [item]; } else {
      QueueAppended(queue[1..], item);
      assert (queue + [item])[1..] == queue[1..] + [item];
    }
  }

  lemma {:induction false} AtMostListed(ts: seq<nat>, s: set<nat>)
    requires forall t :: t in s ==> t in ts
    ensures |s| <= |ts|
  {
    if ts == [] { assert s == {}; } else {
      AtMostListed(ts[1..], s - {ts[0]});
      assert s <= (s - {ts[0]}) + {ts[0]};
      assert |s| <= |s - {ts[0]}| + 1;
    }
  }

  lemma NodeCosts(net: Net, c: set<Marking>)
    ensures ItemWeight(net.FirableIn(c)) <= NodeCost(net)
  {
    AtMostListed(net.visible, net.FirableIn(c));
  }

  lemma FewerUnseen(net: Net, sets: seq<set<Marking>>, c: set<Marking>)
    requires c <= net.Universe() && c !in sets
    ensures Times(|Unseen(net, sets + [c])|, NodeCost(net)) + NodeCost(net) <=
              Times(|Unseen(net, sets)|, NodeCost(net))
  {
    UnseenShrinks(net, sets, c);
    var less, more := Unseen(net, sets + [c]), Unseen(net, sets);
    assert more == less + (more - less) && |more - less| > 0;
    TimesLess(|less|, |more|, NodeCost(net));
  }

  lemma {:induction false} TimesLess(a: nat, b: nat, cost: nat)
    requires a < b
    ensures Times(a, cost) + cost <= Times(b, cost)
  {
    if a < b - 1 { TimesLess(a, b - 1, cost); }
  }

  lemma FreshInRange(net: Net, s: State, aux: Aux)
    requires Inv(net, s, aux)
    ensures forall m :: 0 <= m < |s.threads| && HasFresh(s.threads[m]) ==> s.threads[m].pos < |s.graph.sets|
  {
    forall m | 0 <= m < |s.threads| && HasFresh(s.threads[m]) ensures s.threads[m].pos < |s.graph.sets| {
      assert ThreadOk(net, s, aux, m);
    }
  }

  lemma InsertLowers(net: Net, s: State, aux: Aux, k: nat)
    requires Inv(net, s, aux) && Enabled(net, s, Insert(k))
    ensures StepsLeft(net, Apply(net, s, Insert(k))) < StepsLeft(net, s)
  {
    var s', p := Apply(net, s, Insert(k)), s.threads[k];
    WeightUpdate(net, s'.graph.sets, s.threads, k, s'.threads[k]);
    InsertedNodes(net, s, aux, k);
    assert PhaseWeight(net, s'.graph.sets, p) == 6 + 6 * |p.fire|;
  }

  /** A new node costs no more than an aggregate not yet stored. */
  lemma InsertedNodes(net: Net, s: State, aux: Aux, k: nat)
    requires Inv(net, s, aux) && Enabled(net, s, Insert(k))
    ensures var s' := Apply(net, s, Insert(k)); var sets, sets' := s.graph.sets, s'.graph.sets;
            && ThreadsWeight(net, sets', s.threads) == ThreadsWeight(net, sets, s.threads)
            && Times(|Unseen(net, sets')|, NodeCost(net)) + PhaseWeight(net, sets', s'.threads[k]) <=
                 Times(|Unseen(net, sets)|, NodeCost(net)) + 5 + 6 * |s.threads[k].fire|
  {
    var sets, p := s.graph.sets, s.threads[k];
    var c := Meta(net, s, p.node, p.t);
    if !(exists i :: InGraph(s.graph, c, i)) {
      NewAggregate(net, s, aux, k);
      FreshInRange(net, s, aux);
      FewerUnseen(net, sets, c);
      WeightGrows(net, sets, c, s.threads);
      NodeCosts(net, c);
    }
  }

  lemma NewAggregate(net: Net, s: State, aux: Aux, k: nat)
    requires Inv(net, s, aux) && Enabled(net, s, Insert(k))
    requires var c := Meta(net, s, s.threads[k].node, s.threads[k].t); !(exists i :: InGraph(s.graph, c, i))
    ensures var c := Meta(net, s, s.threads[k].node, s.threads[k].t); c <= net.Universe() && c !in s.graph.sets
  {
    var sets, p := s.graph.sets, s.threads[k];
    assert ThreadOk(net, s, aux, k) && PendingAt(net, s.graph, aux.todo, p.node);
    assert net.Classified(p.t) && s.graph.NodeOk(net, p.node);
    SuccessorClosed(net, sets[p.node], p.t);
    forall i | 0 <= i < |sets| ensures sets[i] != Meta(net, s, p.node, p.t) {
      assert !InGraph(s.graph, Meta(net, s, p.node, p.t), i);
    }
  }

  /** Every step lowers the bound. */
  lemma StepLowers(net: Net, s: State, aux: Aux, a: Action)
    requires Inv(net, s, aux) && Enabled(net, s, a)
    ensures StepsLeft(net, Apply(net, s, a)) < StepsLeft(net, s)
  {
    if a.Insert? {
      InsertLowers(net, s, aux, a.k);
    } else if a.Push? {
      PushLowers(net, s, aux, a.k);
    } else if a.Pop? {
      PopLowers(net, s, a.k, a.q);
    } else {
      PhaseLowers(net, s, a);
    }
  }

  lemma PopLowers(net: Net, s: State, k: nat, q: nat)
    requires Enabled(net, s, Pop(k, q))
    ensures StepsLeft(net, Apply(net, s, Pop(k, q))) < StepsLeft(net, s)
  {
    WeightUpdate(net, s.graph.sets, s.threads, k, Apply(net, s, Pop(k, q)).threads[k]);
    QueueRemoved(s.queue, q);
  }

  /** Steps in which only the phase of the thread counts. */
  lemma PhaseLowers(net: Net, s: State, a: Action)
    requires Enabled(net, s, a) && (a.Take? || a.Count? || a.Connect? || a.Finish?)
    ensures StepsLeft(net, Apply(net, s, a)) < StepsLeft(net, s)
  {
    var p := Apply(net, s, a).threads[a.k];
    WeightUpdate(net, s.graph.sets, s.threads, a.k, p);
    if a.Take? { assert |s.threads[a.k].fire - {a.t}| == |s.threads[a.k].fire| - 1; }
    assert PhaseWeight(net, s.graph.sets, p) < PhaseWeight(net, s.graph.sets, s.threads[a.k]);
  }

  lemma PushLowers(net: Net, s: State, aux: Aux, k: nat)
    requires Inv(net, s, aux) && Enabled(net, s, Push(k))
    ensures StepsLeft(net, Apply(net, s, Push(k))) < StepsLeft(net, s)
  {
    var s', p := Apply(net, s, Push(k)), s.threads[k];
    assert ThreadOk(net, s, aux, k);
    WeightUpdate(net, s.graph.sets, s.threads, k, s'.threads[k]);
    if p.isNew { QueueAppended(s.queue, Item(p.pos, net.FirableIn(s.graph.sets[p.pos]))); }
  }

  /** Runs are no longer than the bound at their start. */
  lemma {:induction false} RunBounded(net: Net, x0: Marking, threads: nat, run: seq<State>, n: nat)
    requires net.Ok() && x0 in net.Universe() && IsRun(net, x0, threads, run) && n < |run|
    ensures n + StepsLeft(net, run[n]) <= StepsLeft(net, Start(net, x0, threads))
  {
    if n > 0 {
      RunBounded(net, x0, threads, run, n - 1);
      assert NextAt(net, run, n - 1);
      var a :| Enabled(net, run[n - 1], a) && run[n] == Apply(net, run[n - 1], a);
      var aux := RunInv(net, x0, threads, run, n - 1);
      StepLowers(net, run[n - 1], aux, a);
    }
  }

  /** No thread can step. */
  ghost predicate Stuck(net: Net, s: State) {
    forall a {:trigger Enabled(net, s, a)} :: !Enabled(net, s, a)
  }

  /** So every run ends, and one that cannot go on has built the sequential graph. */
  lemma EveryRunEnds(net: Net, x0: Marking, threads: nat, run: seq<State>, g: Graph, words: seq<seq<nat>>)
    requires net.Ok() && x0 in net.Universe() && IsRun(net, x0, threads, run) && threads > 0
    requires g.Complete(net) && Reachable(net, g.sets, words) && g.sets[0] == net.Closure({x0})
    ensures |run| <= StepsLeft(net, Start(net, x0, threads)) + 1
    ensures Stuck(net, run[|run| - 1]) ==> Quiescent(run[|run| - 1]) && Isomorphic(g, run[|run| - 1].graph)
  {
    var n := |run| - 1;
    RunBounded(net, x0, threads, run, n);
    if Stuck(net, run[n]) {
      if !Quiescent(run[n]) { var a := Progress(net, x0, threads, run, n); }
      MatchesSequential(net, x0, threads, run, n, g, words);
    }
  }
}
