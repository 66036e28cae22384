/** On-demand construction of the observation graph: a node's successors are computed when
    the model checker asks for them, LEVEL steps ahead, by workers that share a queue of
    (node, transition) tasks.  Whoever reads level 0 of a node goes on to expand it: raise
    its level, set its counter, push its tasks, one step each, and without a lock.  The
    theorems hold of runs in which no two of them have read level 0 of the same node at once
    (overlapped is false); DemandRaces.dfy shows what happens otherwise. */
module DemandSogs {
  import opened Ldds
  import opened PetriNets
  import opened SogGraphs

  const LEVEL: nat := 3

  datatype Task = Task(node: nat, t: nat)

  /** Who expands a node: the model checker, or the worker of a task. */
  datatype Origin = Client | Worker(task: Task)

  /** Thread 0 is the model checker; Asked is its request, the window phases are shared. */
  datatype Phase =
    | Idle
    | Popped(task: Task)
    | Found(task: Task, pos: nat)
    | Linked(task: Task, pos: nat)
    | Counted(task: Task, pos: nat)
    | Checked(task: Task, pos: nat)
    | Asked(node: nat)                                   // to read the level
    | Leveling(origin: Origin, pos: nat)                 // level 0 was read: to raise it
    | Sizing(origin: Origin, pos: nat)                   // to set the counter
    | Pushing(origin: Origin, pos: nat, rest: set<nat>)  // to push the tasks left

  /** For each node: aggregate and edges, level, successors to be processed, flags.  For the
      proof: all tasks pushed so far, and whether two threads have been about to expand one node. */
  datatype State = State(graph: Graph, levels: seq<nat>, pending: seq<nat>, completed: seq<bool>, visited: seq<bool>,
                         queue: multiset<Task>, threads: seq<Phase>, pushed: multiset<Task>, overlapped: bool)

  datatype Action =
    | Request(node: nat)
    | Pop(k: nat, task: Task)
    | Push(k: nat, t: nat)
    | Advance(k: nat)

  ghost predicate Shaped(s: State) {
    |s.graph.sets| == |s.graph.edges| == |s.levels| == |s.pending| == |s.completed| == |s.visited|
  }

  /** The initial aggregate is stored, visited and expanded; its tasks are to be pushed. */
  ghost function Start(net: Net, x0: Marking, threads: nat): State
    requires threads > 0
  {
    var c := net.Closure({x0});
    var fire := net.FirableIn(c);
    State(Graph([c], [[]]), [LEVEL], [|fire|], [fire == {}], [true], multiset{},
          seq(threads, k => if k == 0 && fire != {} then Pushing(Client, 0, fire) else Idle), multiset{}, false)
  }

  /** Nodes the next step of a thread uses are stored. */
  ghost predicate InBounds(s: State, p: Phase) {
    match p
    case Idle => false
    case Popped(task) => task.node < |s.levels|
    case Found(task, pos) => task.node < |s.levels|
    case Linked(task, pos) => task.node < |s.levels|
    case Counted(task, pos) => task.node < |s.levels|
    case Checked(task, pos) => task.node < |s.levels| && pos < |s.levels|
    case Asked(node) => node < |s.levels|
    case Leveling(origin, pos) => pos < |s.levels| && (origin.Worker? ==> origin.task.node < |s.levels|)
    case Sizing(_, pos) => pos < |s.levels|
    case Pushing(_, _, _) => false
  }

  ghost predicate Enabled(s: State, a: Action) {
    && Shaped(s) && 0 < |s.threads|
    && match a
       case Request(i) => s.threads[0].Idle? && i < |s.visited| && !s.visited[i]
       case Pop(k, task) => 0 < k < |s.threads| && s.threads[k].Idle? && task in s.queue
       case Push(k, t) => k < |s.threads| && s.threads[k].Pushing? && t in s.threads[k].rest
       case Advance(k) => k < |s.threads| && InBounds(s, s.threads[k])
  }

  ghost function Meta(net: Net, s: State, task: Task): set<Marking> {
    if net.Ok() && task.t < |net.transitions| && task.node < |s.graph.sets|
    then Successor(net, s.graph.sets[task.node], task.t) else {}
  }

  /** Stores a new aggregate. */
  ghost function Grow(s: State, c: set<Marking>): State {
    s.(graph := WithNode(s.graph, c), levels := s.levels + [0], pending := s.pending + [0],
       completed := s.completed + [false], visited := s.visited + [false])
  }

  function To(s: State, k: nat, p: Phase): State
    requires k < |s.threads|
  {
    s.(threads := s.threads[k := p])
  }

  /** The expansion goes on after the level: for a worker, if its node's level is above one. */
  predicate Effective(s: State, origin: Origin) {
    origin.Worker? ==> origin.task.node < |s.levels| && s.levels[origin.task.node] > 1
  }

  /** Thread m has read level 0 of node i and is about to expand it. */
  predicate About(s: State, m: nat, i: nat) {
    m < |s.threads| && s.threads[m].Leveling? && s.threads[m].pos == i && Effective(s, s.threads[m].origin)
  }

  /** Node i has tasks. */
  ghost predicate Firing(net: Net, s: State, i: nat) {
    i < |s.graph.sets| && net.FirableIn(s.graph.sets[i]) != {}
  }

  /** Another thread is about to expand the node, which has tasks. */
  ghost predicate Contested(net: Net, s: State, k: nat, pos: nat) {
    Firing(net, s, pos) && exists m: nat :: m != k && About(s, m, pos)
  }

  /** Thread k has read level 0 of node pos. */
  ghost function OpenWindow(net: Net, s: State, k: nat, origin: Origin, pos: nat): State
    requires k < |s.threads|
  {
    To(s, k, Leveling(origin, pos)).(overlapped := s.overlapped || (Effective(s, origin) && Contested(net, s, k, pos)))
  }

  /** Raises the level, which never falls; a counter decremented at zero wraps. */
  function Raised(s: State, origin: Origin, pos: nat): seq<nat>
    requires pos < |s.levels| && (origin.Worker? ==> origin.task.node < |s.levels|)
  {
    var level :=
      if origin.Client? then LEVEL
      else if s.levels[origin.task.node] == 0 then 0
      else s.levels[origin.task.node] - 1;
    s.levels[pos := if level > s.levels[pos] then level else s.levels[pos]]
  }

  function Decremented(n: nat): nat { if n == 0 then TOKENS - 1 else n - 1 }

  ghost function Step(net: Net, s: State, k: nat): State
    requires Enabled(s, Advance(k))
  {
    match s.threads[k]
    case Popped(task) =>
      var c := Meta(net, s, task);
      var pos := Lookup(s.graph, c);
      var s' := To(s, k, Found(task, pos));
      if pos < |s.graph.sets| then s' else Grow(s', c)
    case Found(task, pos) => To(s, k, Linked(task, pos)).(graph := WithEdge(s.graph, task.node, task.t, pos))
    case Linked(task, pos) =>
      To(s, k, Counted(task, pos)).(pending := s.pending[task.node := Decremented(s.pending[task.node])])
    case Counted(task, pos) =>
      var s' := To(s, k, Checked(task, pos));
      if s.pending[task.node] == 0 then s'.(completed := s.completed[task.node := true]) else s'
    case Checked(task, pos) =>
      if s.levels[task.node] > 0 && s.levels[pos] == 0 then OpenWindow(net, s, k, Worker(task), pos) else To(s, k, Idle)
    case Asked(i) => if s.levels[i] == 0 then OpenWindow(net, s, k, Client, i) else To(s, k, Idle)
    case Leveling(origin, pos) =>
      var s' := s.(levels := Raised(s, origin, pos));
      To(s', k, if Effective(s', origin) then Sizing(origin, pos) else Idle)
    case Sizing(origin, pos) =>
      var fire := net.FirableIn(s.graph.sets[pos]);
      To(s, k, if fire == {} then Idle else Pushing(origin, pos, fire))
        .(pending := s.pending[pos := |fire|], completed := s.completed[pos := s.completed[pos] || fire == {}])
    case _ => s
  }

  ghost function Apply(net: Net, s: State, a: Action): State
    requires Enabled(s, a)
  {
    match a
    case Request(i) => To(s, 0, Asked(i)).(visited := s.visited[i := true])
    case Pop(k, task) => To(s, k, Popped(task)).(queue := s.queue - multiset{task})
    case Push(k, t) =>
      var p := s.threads[k];
      var rest := p.rest - {t};
      To(s, k, if rest == {} then Idle else Pushing(p.origin, p.pos, rest))
        .(queue := s.queue + multiset{Task(p.pos, t)}, pushed := s.pushed + multiset{Task(p.pos, t)})
    case Advance(k) => Step(net, s, k)
  }

  /** The actions lead from s to s'. */
  ghost predicate Runs(net: Net, s: State, acts: seq<Action>, s': State)
    decreases |acts|
  {
    if acts == [] then s == s' else Enabled(s, acts[0]) && Runs(net, Apply(net, s, acts[0]), acts[1..], s')
  }

  // ---- the invariant ----

  datatype Place = Waiting | Open(k: nat) | Joined(k: nat) | Ending(k: nat) | Done

  /** Where each task is that has been pushed, and a word that leads to each node. */
  datatype Aux = Aux(places: map<Task, Place>, words: seq<seq<nat>>)

  predicate Unlinked(p: Place) { p.Waiting? || p.Open? }

  predicate Uncounted(p: Place) { Unlinked(p) || p.Joined? }

  /** Thread k has raised the level of node i and has not pushed all its tasks. */
  predicate Expands(s: State, k: nat, i: nat) {
    k < |s.threads| && (s.threads[k].Sizing? || s.threads[k].Pushing?) && s.threads[k].pos == i
  }

  /** Thread k is still to push the task. */
  predicate ToPush(s: State, k: nat, i: nat, t: nat) {
    Expands(s, k, i) && (s.threads[k].Pushing? ==> t in s.threads[k].rest)
  }

  ghost predicate Unpushed(s: State, i: nat, t: nat) {
    exists k: nat :: ToPush(s, k, i, t)
  }

  ghost predicate SizingAt(s: State, i: nat) {
    exists k: nat :: k < |s.threads| && s.threads[k].Sizing? && s.threads[k].pos == i
  }

  /** Transitions of node i whose task has not been counted as processed. */
  ghost function OpenOf(places: map<Task, Place>, fire: set<nat>, i: nat): set<nat> {
    set t | t in fire && (Task(i, t) in places ==> Uncounted(places[Task(i, t)]))
  }

  /** Tasks have been pushed for the firable transitions of the expanded nodes, but those that
      are still to be pushed; each once. */
  ghost predicate TaskOk(net: Net, s: State, aux: Aux, i: nat, t: nat)
    requires Shaped(s)
  {
    && (Task(i, t) in aux.places <==>
          i < |s.levels| && s.levels[i] > 0 && t in net.FirableIn(s.graph.sets[i]) && !Unpushed(s, i, t))
    && s.pushed[Task(i, t)] == if Task(i, t) in aux.places then 1 else 0
  }

  /** A task is queued once, run by one thread, or processed; it has an edge once it is linked. */
  ghost predicate PlaceOk(s: State, aux: Aux, task: Task)
    requires task in aux.places
  {
    && s.queue[task] == (if aux.places[task].Waiting? then 1 else 0)
    && task.node < |s.graph.edges| && (task.t in s.graph.Labels(task.node) <==> !Unlinked(aux.places[task]))
    && (aux.places[task].Waiting? || aux.places[task].Done? ||
        (aux.places[task].k < |s.threads| && Works(s.threads[aux.places[task].k], task)
         && aux.places[task] == PlaceIn(s.threads[aux.places[task].k], aux.places[task].k)))
  }

  /** The thread runs the task. */
  predicate Works(p: Phase, task: Task) {
    match p
    case Idle => false
    case Asked(_) => false
    case Leveling(origin, _) => origin == Worker(task)
    case Sizing(origin, _) => origin == Worker(task)
    case Pushing(origin, _, _) => origin == Worker(task)
    case _ => p.task == task
  }

  function PlaceIn(p: Phase, k: nat): Place {
    match p
    case Popped(_) => Open(k)
    case Found(_, _) => Open(k)
    case Linked(_, _) => Joined(k)
    case _ => Ending(k)
  }

  /** The node the thread's task leads to is known. */
  ghost predicate TargetOk(net: Net, s: State, task: Task, pos: nat)
    requires net.Ok()
  {
    && task.node < |s.graph.sets| && pos < |s.graph.sets| && task.t < |net.transitions|
    && s.graph.sets[pos] == Successor(net, s.graph.sets[task.node], task.t)
  }

  ghost predicate TaskThread(net: Net, s: State, aux: Aux, k: nat, task: Task)
    requires net.Ok() && k < |s.threads|
  {
    task in aux.places && aux.places[task] == PlaceIn(s.threads[k], k)
  }

  predicate InWindow(p: Phase) { p.Leveling? || p.Sizing? || p.Pushing? }

  /** A node with tasks is expanded by one thread at a time, and is about to be while its level
      is 0. */
  ghost predicate WindowOk(net: Net, s: State, k: nat)
    requires k < |s.threads| && InWindow(s.threads[k])
  {
    var p := s.threads[k];
    && (About(s, k, p.pos) ==> p.pos < |s.levels| && (Firing(net, s, p.pos) ==> s.levels[p.pos] == 0))
    && (Expands(s, k, p.pos) ==> p.pos < |s.levels| && s.levels[p.pos] > 0 && Effective(s, p.origin))
    && (p.Pushing? ==> p.pos < |s.graph.sets| && p.rest != {} && p.rest <= net.FirableIn(s.graph.sets[p.pos]))
    && (Firing(net, s, p.pos) && (About(s, k, p.pos) || Expands(s, k, p.pos)) ==>
          forall m: nat :: m < |s.threads| && m != k ==> !About(s, m, p.pos) && !Expands(s, m, p.pos))
  }

  ghost predicate ThreadOk(net: Net, s: State, aux: Aux, k: nat)
    requires net.Ok() && k < |s.threads|
  {
    match s.threads[k]
    case Idle => true
    case Popped(task) => TaskThread(net, s, aux, k, task)
    case Asked(i) => i < |s.levels|
    case Leveling(origin, pos) =>
      && pos < |s.levels| && WindowOk(net, s, k)
      && (origin.Worker? ==> TaskThread(net, s, aux, k, origin.task) && TargetOk(net, s, origin.task, pos))
    case Sizing(origin, pos) =>
      WindowOk(net, s, k) && (origin.Worker? ==>
        TaskThread(net, s, aux, k, origin.task) && TargetOk(net, s, origin.task, pos))
    case Pushing(origin, pos, _) =>
      WindowOk(net, s, k) && (origin.Worker? ==>
        TaskThread(net, s, aux, k, origin.task) && TargetOk(net, s, origin.task, pos))
    case _ => TaskThread(net, s, aux, k, s.threads[k].task) && TargetOk(net, s, s.threads[k].task, s.threads[k].pos)
  }

  ghost predicate Checking(s: State, i: nat) {
    exists k: nat :: k < |s.threads| && s.threads[k].Counted? && s.threads[k].task.node == i
  }

  /** Once it is set, the counter is the number of tasks not counted as processed; completed
      means there are none, and conversely unless a thread is about to notice. */
  ghost predicate NodeOk(net: Net, s: State, aux: Aux, i: nat)
    requires Shaped(s) && i < |s.levels|
  {
    var open := OpenOf(aux.places, net.FirableIn(s.graph.sets[i]), i);
    && (s.levels[i] > 0 && !SizingAt(s, i) ==> s.pending[i] == |open|)
    && (s.completed[i] ==> s.levels[i] > 0 && open == {} && (Firing(net, s, i) ==> !SizingAt(s, i)))
    && (s.levels[i] > 0 && open == {} && !SizingAt(s, i) ==> s.completed[i] || Checking(s, i))
    && (forall t :: t in s.graph.Labels(i) ==> Task(i, t) in aux.places)
  }

  /** A node of level two or more has expanded successors, once their tasks are done. */
  ghost predicate AheadOk(s: State, aux: Aux, i: nat, e: Edge)
    requires Shaped(s) && i < |s.levels|
  {
    && e.state < |s.levels|
    && (s.levels[i] > 1 && Task(i, e.t) in aux.places && aux.places[Task(i, e.t)].Done? ==> s.levels[e.state] > 0)
  }

  ghost predicate QueueOk(s: State, aux: Aux) {
    forall task :: task in s.queue ==> task in aux.places
  }

  ghost predicate Inv(net: Net, s: State, aux: Aux) {
    && s.graph.Ok(net) && Shaped(s) && QueueOk(s, aux) && Reachable(net, s.graph.sets, aux.words) && 0 < |s.threads|
    && (forall i: nat, t: nat {:trigger TaskOk(net, s, aux, i, t)} :: TaskOk(net, s, aux, i, t))
    && (forall task {:trigger PlaceOk(s, aux, task)} :: task in aux.places ==> PlaceOk(s, aux, task))
    && (forall k {:trigger ThreadOk(net, s, aux, k)} :: 0 <= k < |s.threads| ==> ThreadOk(net, s, aux, k))
    && (forall i {:trigger NodeOk(net, s, aux, i)} :: 0 <= i < |s.levels| ==> NodeOk(net, s, aux, i))
    && (forall i, e {:trigger AheadOk(s, aux, i, e)} :: 0 <= i < |s.levels| && e in s.graph.edges[i] ==>
         AheadOk(s, aux, i, e))
  }

  // ---- what a step leaves alone ----

  /** Only thread k differs, and it does not enter or leave an expansion. */
  ghost predicate OutsideWindows(s: State, s': State, k: nat) {
    && k < |s.threads| == |s'.threads| && s'.threads == s.threads[k := s'.threads[k]]
    && !InWindow(s.threads[k]) && !InWindow(s'.threads[k]) && s'.levels == s.levels
  }

  lemma SameWindows(s: State, s': State, k: nat)
    requires OutsideWindows(s, s', k)
    ensures forall m: nat, i: nat :: About(s', m, i) <==> About(s, m, i)
    ensures forall m: nat, i: nat :: Expands(s', m, i) <==> Expands(s, m, i)
    ensures forall i: nat, t: nat :: Unpushed(s', i, t) <==> Unpushed(s, i, t)
    ensures forall i: nat :: SizingAt(s', i) <==> SizingAt(s, i)
  {
    forall i: nat, t: nat ensures Unpushed(s', i, t) <==> Unpushed(s, i, t) {
      if Unpushed(s, i, t) { var m: nat :| ToPush(s, m, i, t); assert ToPush(s', m, i, t); }
      if Unpushed(s', i, t) { var m: nat :| ToPush(s', m, i, t); assert ToPush(s, m, i, t); }
    }
    forall i: nat ensures SizingAt(s', i) <==> SizingAt(s, i) {
      if SizingAt(s, i) {
        var m: nat :| m < |s.threads| && s.threads[m].Sizing? && s.threads[m].pos == i;
        assert s'.threads[m].Sizing?;
      }
      if SizingAt(s', i) {
        var m: nat :| m < |s'.threads| && s'.threads[m].Sizing? && s'.threads[m].pos == i;
        assert s.threads[m].Sizing?;
      }
    }
  }

  /** Another thread is not affected when its own task and the nodes it knows stay. */
  lemma OtherThread(net: Net, s: State, aux: Aux, s': State, aux': Aux, m: nat)
    requires net.Ok() && m < |s.threads| == |s'.threads| && ThreadOk(net, s, aux, m) && s'.threads[m] == s.threads[m]
    requires |s.levels| <= |s'.levels| && s.graph.sets <= s'.graph.sets
    requires forall task :: task in aux.places && Works(s.threads[m], task) ==>
               task in aux'.places && aux'.places[task] == aux.places[task]
    requires InWindow(s.threads[m]) ==> WindowOk(net, s', m)
    ensures ThreadOk(net, s', aux', m)
  {
  }

  lemma SameWindowOk(net: Net, s: State, s': State, m: nat)
    requires m < |s.threads| == |s'.threads| && s'.threads[m] == s.threads[m] && InWindow(s.threads[m])
    requires WindowOk(net, s, m)
    requires s'.levels == s.levels && s'.graph.sets == s.graph.sets
    requires forall n: nat, i: nat :: (About(s', n, i) ==> About(s, n, i)) && (Expands(s', n, i) ==> Expands(s, n, i))
    ensures WindowOk(net, s', m)
  {
  }

  /** A step of thread k with its own task, outside expansions, keeps what is not about it. */
  lemma TaskStep(net: Net, s: State, aux: Aux, s': State, aux': Aux, k: nat, task: Task)
    requires Inv(net, s, aux) && OutsideWindows(s, s', k) && Shaped(s') && task in aux.places
    requires if s.threads[k].Idle? then aux.places[task].Waiting? else Works(s.threads[k], task)
    requires s'.graph.sets == s.graph.sets && s'.pushed == s.pushed
    requires forall i :: 0 <= i < |s.graph.sets| && i != task.node ==> s'.graph.edges[i] == s.graph.edges[i]
    requires forall other :: other != task ==> s'.queue[other] == s.queue[other]
    requires task in aux'.places && aux' == aux.(places := aux.places[task := aux'.places[task]])
    requires forall t :: t != task.t && task.node < |s.graph.edges| ==>
               (t in s'.graph.Labels(task.node) <==> t in s.graph.Labels(task.node))
    ensures forall i: nat, t: nat :: TaskOk(net, s', aux', i, t)
    ensures forall m :: 0 <= m < |s.threads| && m != k ==> ThreadOk(net, s', aux', m)
    ensures forall other :: other in aux.places && other != task ==> PlaceOk(s', aux', other)
  {
    SameWindows(s, s', k);
    assert PlaceOk(s, aux, task) && ThreadOk(net, s, aux, k);
    forall i: nat, t: nat ensures TaskOk(net, s', aux', i, t) { assert TaskOk(net, s, aux, i, t); }
    forall m | 0 <= m < |s.threads| && m != k ensures ThreadOk(net, s', aux', m) {
      assert ThreadOk(net, s, aux, m);
      if InWindow(s.threads[m]) { SameWindowOk(net, s, s', m); }
      OtherThread(net, s, aux, s', aux', m);
    }
    forall other | other in aux.places && other != task ensures PlaceOk(s', aux', other) {
      assert PlaceOk(s, aux, other);
      OtherPlace(net, s, aux, s', k, task, other);
    }
  }

  lemma OtherPlace(net: Net, s: State, aux: Aux, s': State, k: nat, task: Task, other: Task)
    requires Shaped(s) && Shaped(s') && k < |s.threads| == |s'.threads| && s'.threads == s.threads[k := s'.threads[k]]
    requires task in aux.places && other in aux.places && other != task
    requires if s.threads[k].Idle? then aux.places[task].Waiting? else Works(s.threads[k], task)
    requires PlaceOk(s, aux, other) && |s'.graph.sets| == |s.graph.sets|
    requires forall i :: 0 <= i < |s.graph.edges| && i != task.node ==> s'.graph.edges[i] == s.graph.edges[i]
    requires s'.queue[other] == s.queue[other]
    requires forall t :: t != task.t && task.node < |s.graph.edges| ==>
               (t in s'.graph.Labels(task.node) <==> t in s.graph.Labels(task.node))
    ensures PlaceOk(s', aux.(places := aux.places[task := Done]), other)
    ensures PlaceOk(s', aux, other)
  {
    if other.node != task.node { assert s'.graph.Labels(other.node) == s.graph.Labels(other.node); }
  }

  lemma CheckingKept(s: State, s': State, k: nat, i: nat)
    requires k < |s.threads| == |s'.threads|
    requires forall m :: 0 <= m < |s.threads| && m != k ==> s'.threads[m] == s.threads[m]
    requires Checking(s, i) && (s.threads[k].Counted? ==> s.threads[k].task.node != i)
    ensures Checking(s', i)
  {
    var m: nat :| m < |s.threads| && s.threads[m].Counted? && s.threads[m].task.node == i;
    assert s'.threads[m].Counted?;
  }

  /** Node i when none of its tasks is counted or linked. */
  lemma SameNode(net: Net, s: State, aux: Aux, s': State, aux': Aux, k: nat, i: nat)
    requires Shaped(s) && Shaped(s') && i < |s.levels| && k < |s.threads| && NodeOk(net, s, aux, i)
    requires |s'.threads| == |s.threads| && s'.threads == s.threads[k := s'.threads[k]]
    requires i < |s'.levels| && s'.graph.sets[i] == s.graph.sets[i]
    requires s'.levels[i] == s.levels[i] && s'.pending[i] == s.pending[i] && s'.completed[i] == s.completed[i]
    requires SizingAt(s', i) <==> SizingAt(s, i)
    requires s.threads[k].Counted? ==> s.threads[k].task.node != i || s.completed[i]
    requires OpenOf(aux'.places, net.FirableIn(s.graph.sets[i]), i) ==
      OpenOf(aux.places, net.FirableIn(s.graph.sets[i]), i)
    requires forall t :: t in s'.graph.Labels(i) ==> Task(i, t) in aux'.places
    ensures NodeOk(net, s', aux', i)
  {
    if Checking(s, i) && !s.completed[i] { CheckingKept(s, s', k, i); }
  }

  lemma PopInv(net: Net, s: State, aux: Aux, k: nat, task: Task) returns (aux': Aux)
    requires Inv(net, s, aux) && Enabled(s, Pop(k, task))
    ensures Inv(net, Apply(net, s, Pop(k, task)), aux')
  {
    var s' := Apply(net, s, Pop(k, task));
    assert PlaceOk(s, aux, task) && TaskOk(net, s, aux, task.node, task.t);
    aux' := aux.(places := aux.places[task := Open(k)]);
    TaskStep(net, s, aux, s', aux', k, task);
    SameWindows(s, s', k);
    NodesSame(net, s, aux, s', aux', k, task);
  }

  /** Nodes and edges, when the step moves a task from one uncounted place to another. */
  lemma NodesSame(net: Net, s: State, aux: Aux, s': State, aux': Aux, k: nat, task: Task)
    requires Inv(net, s, aux) && Shaped(s') && k < |s.threads| == |s'.threads|
    requires s'.threads == s.threads[k := s'.threads[k]]
    requires s'.graph == s.graph && s'.levels == s.levels && s'.pending == s.pending && s'.completed == s.completed
    requires forall i: nat :: SizingAt(s', i) <==> SizingAt(s, i)
    requires !s.threads[k].Counted? && task in aux.places && task in aux'.places
    requires aux' == aux.(places := aux.places[task := aux'.places[task]])
    requires Uncounted(aux.places[task]) <==> Uncounted(aux'.places[task])
    requires aux'.places[task].Done? ==> aux.places[task].Done?
    ensures forall i :: 0 <= i < |s.levels| ==> NodeOk(net, s', aux', i)
    ensures forall i, e :: 0 <= i < |s.levels| && e in s.graph.edges[i] ==> AheadOk(s', aux', i, e)
  {
    forall i | 0 <= i < |s.levels| ensures NodeOk(net, s', aux', i) {
      assert NodeOk(net, s, aux, i);
      var fire := net.FirableIn(s.graph.sets[i]);
      assert OpenOf(aux'.places, fire, i) == OpenOf(aux.places, fire, i);
      SameNode(net, s, aux, s', aux', k, i);
    }
    forall i, e | 0 <= i < |s.levels| && e in s.graph.edges[i] ensures AheadOk(s', aux', i, e) {
      assert AheadOk(s, aux, i, e);
    }
  }

  /** The counter of a node with a linked task is positive. */
  lemma PendingPositive(net: Net, s: State, aux: Aux, k: nat)
    requires Inv(net, s, aux) && k < |s.threads| && s.threads[k].Linked?
    ensures var task := s.threads[k].task;
            task.node < |s.levels| && s.pending[task.node] > 0 && !SizingAt(s, task.node) && s.levels[task.node] > 0
            && task.t in OpenOf(aux.places, net.FirableIn(s.graph.sets[task.node]), task.node)
  {
    var task := s.threads[k].task;
    assert ThreadOk(net, s, aux, k) && TaskOk(net, s, aux, task.node, task.t);
    NotSizing(net, s, aux, task);
    assert NodeOk(net, s, aux, task.node);
    assert task.t in OpenOf(aux.places, net.FirableIn(s.graph.sets[task.node]), task.node);
  }

  /** While the counter is not set, no task of the node has been pushed. */
  lemma NotSizing(net: Net, s: State, aux: Aux, task: Task)
    requires Shaped(s) && task in aux.places && TaskOk(net, s, aux, task.node, task.t)
    ensures !SizingAt(s, task.node)
  {
    if SizingAt(s, task.node) {
      var m: nat :| m < |s.threads| && s.threads[m].Sizing? && s.threads[m].pos == task.node;
      assert ToPush(s, m, task.node, task.t);
    }
  }

  lemma DecrementInv(net: Net, s: State, aux: Aux, k: nat) returns (aux': Aux)
    requires Inv(net, s, aux) && Enabled(s, Advance(k)) && s.threads[k].Linked?
    ensures Inv(net, Apply(net, s, Advance(k)), aux')
  {
    var s', task := Apply(net, s, Advance(k)), s.threads[k].task;
    assert ThreadOk(net, s, aux, k) && PlaceOk(s, aux, task);
    PendingPositive(net, s, aux, k);
    aux' := aux.(places := aux.places[task := Ending(k)]);
    TaskStep(net, s, aux, s', aux', k, task);
    DecrementNodes(net, s, aux, s', k, task, aux');
  }

  lemma OneLess(net: Net, s: State, aux: Aux, s': State, k: nat, task: Task, aux': Aux)
    requires Inv(net, s, aux) && k < |s.threads| && s.threads[k].Linked? && s.threads[k].task == task
    requires task.node < |s.pending| && s.pending[task.node] > 0 && !SizingAt(s, task.node)
    requires task.t in OpenOf(aux.places, net.FirableIn(s.graph.sets[task.node]), task.node)
    requires s' == To(s, k, Counted(task, s.threads[k].pos)).(
      pending := s.pending[task.node := s.pending[task.node] - 1])
    requires !SizingAt(s', task.node) && aux' == aux.(places := aux.places[task := Ending(k)])
    ensures NodeOk(net, s', aux', task.node)
  {
    var i := task.node;
    var fire := net.FirableIn(s.graph.sets[i]);
    var open, open' := OpenOf(aux.places, fire, i), OpenOf(aux'.places, fire, i);
    assert NodeOk(net, s, aux, i);
    assert open' == open - {task.t} && |open'| == |open| - 1;
    assert s'.threads[k].Counted? && Checking(s', i);
  }

  lemma DecrementNodes(net: Net, s: State, aux: Aux, s': State, k: nat, task: Task, aux': Aux)
    requires Inv(net, s, aux) && k < |s.threads| && s.threads[k].Linked? && s.threads[k].task == task
    requires task.node < |s.pending| && s.pending[task.node] > 0 && !SizingAt(s, task.node)
    requires task.t in OpenOf(aux.places, net.FirableIn(s.graph.sets[task.node]), task.node)
    requires task in aux.places && Uncounted(aux.places[task])
    requires s' == To(s, k, Counted(task, s.threads[k].pos)).(
      pending := s.pending[task.node := s.pending[task.node] - 1])
    requires aux' == aux.(places := aux.places[task := Ending(k)])
    ensures forall i :: 0 <= i < |s.levels| ==> NodeOk(net, s', aux', i)
    ensures forall i, e :: 0 <= i < |s.levels| && e in s.graph.edges[i] ==> AheadOk(s', aux', i, e)
  {
    SameWindows(s, s', k);
    forall i | 0 <= i < |s.levels| ensures NodeOk(net, s', aux', i) {
      assert NodeOk(net, s, aux, i);
      var fire := net.FirableIn(s.graph.sets[i]);
      if i == task.node {
        OneLess(net, s, aux, s', k, task, aux');
      } else {
        assert OpenOf(aux'.places, fire, i) == OpenOf(aux.places, fire, i);
        SameNode(net, s, aux, s', aux', k, i);
      }
    }
    forall i, e | 0 <= i < |s.levels| && e in s.graph.edges[i] ensures AheadOk(s', aux', i, e) {
      assert AheadOk(s, aux, i, e);
    }
  }

  lemma CheckInv(net: Net, s: State, aux: Aux, k: nat)
    requires Inv(net, s, aux) && Enabled(s, Advance(k)) && s.threads[k].Counted?
    ensures Inv(net, Apply(net, s, Advance(k)), aux)
  {
    var s', task := Apply(net, s, Advance(k)), s.threads[k].task;
    assert ThreadOk(net, s, aux, k);
    SamePlaces(net, s, aux, s', k, task);
    CheckNodes(net, s, aux, k);
  }

  /** The thread goes on with its task, at the same place. */
  lemma SamePlaces(net: Net, s: State, aux: Aux, s': State, k: nat, task: Task)
    requires Inv(net, s, aux) && OutsideWindows(s, s', k) && Shaped(s') && task in aux.places
    requires Works(s.threads[k], task) && Works(s'.threads[k], task)
    requires aux.places[task] == PlaceIn(s'.threads[k], k)
    requires s'.graph == s.graph && s'.pushed == s.pushed && s'.queue == s.queue
    ensures forall i: nat, t: nat :: TaskOk(net, s', aux, i, t)
    ensures forall m :: 0 <= m < |s.threads| && m != k ==> ThreadOk(net, s', aux, m)
    ensures forall other :: other in aux.places ==> PlaceOk(s', aux, other)
  {
    assert aux == aux.(places := aux.places[task := aux.places[task]]);
    TaskStep(net, s, aux, s', aux, k, task);
    assert PlaceOk(s, aux, task);
  }

  lemma CheckNodes(net: Net, s: State, aux: Aux, k: nat)
    requires Inv(net, s, aux) && Enabled(s, Advance(k)) && s.threads[k].Counted?
    ensures var s' := Apply(net, s, Advance(k));
            && (forall i :: 0 <= i < |s.levels| ==> NodeOk(net, s', aux, i))
            && (forall i, e :: 0 <= i < |s.levels| && e in s.graph.edges[i] ==> AheadOk(s', aux, i, e))
  {
    var s', task := Apply(net, s, Advance(k)), s.threads[k].task;
    assert ThreadOk(net, s, aux, k) && TaskOk(net, s, aux, task.node, task.t);
    SameWindows(s, s', k);
    NotSizing(net, s, aux, task);
    forall i | 0 <= i < |s.levels| ensures NodeOk(net, s', aux, i) {
      assert NodeOk(net, s, aux, i);
      if i != task.node { SameNode(net, s, aux, s', aux, k, i); }
    }
    forall i, e | 0 <= i < |s.levels| && e in s.graph.edges[i] ensures AheadOk(s', aux, i, e) {
      assert AheadOk(s, aux, i, e);
    }
  }

  lemma ConnectInv(net: Net, s: State, aux: Aux, k: nat) returns (aux': Aux)
    requires Inv(net, s, aux) && Enabled(s, Advance(k)) && s.threads[k].Found?
    ensures Inv(net, Apply(net, s, Advance(k)), aux')
  {
    var s', task, pos := Apply(net, s, Advance(k)), s.threads[k].task, s.threads[k].pos;
    assert ThreadOk(net, s, aux, k) && PlaceOk(s, aux, task) && TaskOk(net, s, aux, task.node, task.t);
    aux' := aux.(places := aux.places[task := Joined(k)]);
    LinkGraph(net, s.graph, task.node, task.t, pos);
    ConnectTasks(net, s, aux, k, aux');
    ConnectNodes(net, s, aux, k, aux');
  }

  lemma ConnectTasks(net: Net, s: State, aux: Aux, k: nat, aux': Aux)
    requires Inv(net, s, aux) && Enabled(s, Advance(k)) && s.threads[k].Found?
    requires s.threads[k].pos < |s.levels| && s.threads[k].task in aux.places
    requires aux.places[s.threads[k].task] == Open(k)
    requires aux' == aux.(places := aux.places[s.threads[k].task := Joined(k)])
    requires var task := s.threads[k].task;
             Apply(net, s, Advance(k)).graph.Labels(task.node) == s.graph.Labels(task.node) + {task.t}
    ensures var s' := Apply(net, s, Advance(k));
            && (forall i: nat, t: nat :: TaskOk(net, s', aux', i, t))
            && (forall m :: 0 <= m < |s.threads| ==> ThreadOk(net, s', aux', m))
            && (forall other :: other in aux'.places ==> PlaceOk(s', aux', other))
  {
    var s', task := Apply(net, s, Advance(k)), s.threads[k].task;
    assert ThreadOk(net, s, aux, k) && PlaceOk(s, aux, task);
    TaskStep(net, s, aux, s', aux', k, task);
  }

  lemma ConnectNodes(net: Net, s: State, aux: Aux, k: nat, aux': Aux)
    requires Inv(net, s, aux) && Enabled(s, Advance(k)) && s.threads[k].Found?
    requires s.threads[k].pos < |s.levels| && s.threads[k].task in aux.places
    requires Uncounted(aux.places[s.threads[k].task])
    requires aux' == aux.(places := aux.places[s.threads[k].task := Joined(k)])
    requires var task := s.threads[k].task;
             forall i :: 0 <= i < |s.levels| ==>
               Apply(net, s, Advance(k)).graph.Labels(i) <= s.graph.Labels(i) + if i == task.node then {task.t} else {}
    ensures var s' := Apply(net, s, Advance(k));
            && (forall i :: 0 <= i < |s.levels| ==> NodeOk(net, s', aux', i))
            && (forall i, e :: 0 <= i < |s.levels| && e in s'.graph.edges[i] ==> AheadOk(s', aux', i, e))
  {
    var s' := Apply(net, s, Advance(k));
    SameWindows(s, s', k);
    forall i | 0 <= i < |s.levels| ensures NodeOk(net, s', aux', i) {
      assert NodeOk(net, s, aux, i);
      var fire := net.FirableIn(s.graph.sets[i]);
      assert OpenOf(aux'.places, fire, i) == OpenOf(aux.places, fire, i);
      SameNode(net, s, aux, s', aux', k, i);
    }
    forall i, e | 0 <= i < |s.levels| && e in s'.graph.edges[i] ensures AheadOk(s', aux', i, e) {
      if e in s.graph.edges[i] { assert AheadOk(s, aux, i, e); }
    }
  }

  /** A new node of level 0 changes nothing for the others. */
  lemma GrowInv(net: Net, s: State, aux: Aux, c: set<Marking>, w: seq<nat>) returns (aux': Aux)
    requires Inv(net, s, aux) && Closed(net, c) && c !in s.graph.sets
    requires c != {} && c == Aggregate(net, s.graph.sets[0], w)
    ensures Inv(net, Grow(s, c), aux') && aux'.places == aux.places
  {
    var s' := Grow(s, c);
    aux' := aux.(words := aux.words + [w]);
    GrowGraph(net, s.graph, c);
    forall i | 0 <= i < |s'.graph.sets| ensures WordOk(net, s'.graph.sets, aux'.words, i) {
      if i < |s.graph.sets| { assert WordOk(net, s.graph.sets, aux.words, i); }
    }
    GrowRest(net, s, aux, c, aux');
  }

  lemma GrowRest(net: Net, s: State, aux: Aux, c: set<Marking>, aux': Aux)
    requires Inv(net, s, aux) && aux'.places == aux.places
    requires WithNode(s.graph, c).Labels(|s.graph.sets|) == {}
    requires forall i :: 0 <= i < |s.graph.sets| ==> WithNode(s.graph, c).Labels(i) == s.graph.Labels(i)
    ensures var s' := Grow(s, c);
            && (forall i: nat, t: nat :: TaskOk(net, s', aux', i, t))
            && (forall m :: 0 <= m < |s.threads| ==> ThreadOk(net, s', aux', m))
            && (forall task :: task in aux.places ==> PlaceOk(s', aux', task))
            && (forall i :: 0 <= i < |s'.levels| ==> NodeOk(net, s', aux', i))
            && (forall i, e :: 0 <= i < |s'.levels| && e in s'.graph.edges[i] ==> AheadOk(s', aux', i, e))
  {
    var s' := Grow(s, c);
    forall i: nat, t: nat ensures Unpushed(s', i, t) <==> Unpushed(s, i, t) {
      if Unpushed(s, i, t) { var m: nat :| ToPush(s, m, i, t); assert ToPush(s', m, i, t); }
      if Unpushed(s', i, t) { var m: nat :| ToPush(s', m, i, t); assert ToPush(s, m, i, t); }
    }
    forall i: nat, t: nat ensures TaskOk(net, s', aux', i, t) {
      assert TaskOk(net, s, aux, i, t);
      if i >= |s.levels| { GrowUnpushed(net, s, aux, i, t); }
    }
    forall m: nat, i: nat ensures About(s', m, i) <==> About(s, m, i) {}
    forall m | 0 <= m < |s.threads| ensures ThreadOk(net, s', aux', m) {
      assert ThreadOk(net, s, aux, m);
      if InWindow(s.threads[m]) { GrowWindow(net, s, aux, c, m); }
      OtherThread(net, s, aux, s', aux', m);
    }
    forall other | other in aux.places ensures PlaceOk(s', aux', other) { assert PlaceOk(s, aux, other); }
    forall i, e | 0 <= i < |s'.levels| && e in s'.graph.edges[i] ensures AheadOk(s', aux', i, e) {
      if i < |s.levels| { assert AheadOk(s, aux, i, e); }
    }
    forall i | 0 <= i < |s'.levels| ensures NodeOk(net, s', aux', i) {
      if i < |s.levels| {
        assert NodeOk(net, s, aux, i);
        assert SizingAt(s', i) <==> SizingAt(s, i);
        assert Checking(s, i) ==> Checking(s', i);
      }
    }
  }

  /** Nobody expands a node that is not stored. */
  lemma GrowUnpushed(net: Net, s: State, aux: Aux, i: nat, t: nat)
    requires Inv(net, s, aux) && i >= |s.levels|
    ensures !Unpushed(s, i, t)
  {
    forall m: nat ensures !ToPush(s, m, i, t) {
      if m < |s.threads| { assert ThreadOk(net, s, aux, m); }
    }
  }

  lemma GrowWindow(net: Net, s: State, aux: Aux, c: set<Marking>, m: nat)
    requires Inv(net, s, aux) && m < |s.threads| && InWindow(s.threads[m])
    ensures WindowOk(net, Grow(s, c), m)
  {
    assert ThreadOk(net, s, aux, m);
    var s' := Grow(s, c);
    forall n: nat, i: nat ensures (About(s', n, i) <==> About(s, n, i)) && (Expands(s', n, i) <==> Expands(s, n, i)) {}
  }

  lemma FoundInv(net: Net, s: State, aux: Aux, k: nat, pos: nat)
    requires Inv(net, s, aux) && k < |s.threads| && s.threads[k].Popped?
    requires InGraph(s.graph, Meta(net, s, s.threads[k].task), pos)
    ensures Inv(net, To(s, k, Found(s.threads[k].task, pos)), aux)
  {
    var task := s.threads[k].task;
    var s' := To(s, k, Found(task, pos));
    assert ThreadOk(net, s, aux, k) && PlaceOk(s, aux, task) && TaskOk(net, s, aux, task.node, task.t);
    assert net.Classified(task.t);
    SamePlaces(net, s, aux, s', k, task);
    assert aux == aux.(places := aux.places[task := aux.places[task]]);
    SameWindows(s, s', k);
    NodesSame(net, s, aux, s', aux, k, task);
  }

  lemma InsertInv(net: Net, s: State, aux: Aux, k: nat) returns (aux': Aux)
    requires Inv(net, s, aux) && Enabled(s, Advance(k)) && s.threads[k].Popped?
    ensures Inv(net, Apply(net, s, Advance(k)), aux')
  {
    var task := s.threads[k].task;
    assert ThreadOk(net, s, aux, k) && PlaceOk(s, aux, task) && TaskOk(net, s, aux, task.node, task.t);
    assert net.Classified(task.t);
    var c, i := Meta(net, s, task), task.node;
    aux' := aux;
    if exists i: nat :: InGraph(s.graph, c, i) {
      FoundInv(net, s, aux, k, Lookup(s.graph, c));
    } else {
      assert s.graph.NodeOk(net, i) && WordOk(net, s.graph.sets, aux.words, i);
      SuccessorClosed(net, s.graph.sets[i], task.t);
      SuccessorNonEmpty(net, s.graph.sets[i], task.t);
      AggregateSnoc(net, s.graph.sets[0], aux.words[i], task.t);
      forall i | 0 <= i < |s.graph.sets| ensures s.graph.sets[i] != c { assert !InGraph(s.graph, c, i); }
      aux' := GrowInv(net, s, aux, c, aux.words[i] + [task.t]);
      FoundInv(net, Grow(s, c), aux', k, |s.graph.sets|);
    }
  }

  // ---- expanding a node ----

  /** The last step of a task: its thread becomes idle. */
  lemma FinishInv(net: Net, s: State, aux: Aux, k: nat) returns (aux': Aux)
    requires Inv(net, s, aux) && k < |s.threads| && s.threads[k].Checked?
    requires s.threads[k].task.node < |s.levels| && s.threads[k].pos < |s.levels|
    requires s.levels[s.threads[k].task.node] > 1 ==> s.levels[s.threads[k].pos] > 0
    ensures Inv(net, To(s, k, Idle), aux')
  {
    var s', task, pos := To(s, k, Idle), s.threads[k].task, s.threads[k].pos;
    assert ThreadOk(net, s, aux, k) && PlaceOk(s, aux, task);
    aux' := aux.(places := aux.places[task := Done]);
    TaskStep(net, s, aux, s', aux', k, task);
    FinishNodes(net, s, aux, s', k, task, pos, aux');
  }

  lemma FinishNodes(net: Net, s: State, aux: Aux, s': State, k: nat, task: Task, pos: nat, aux': Aux)
    requires Inv(net, s, aux) && k < |s.threads| && s.threads[k] == Checked(task, pos) && s' == To(s, k, Idle)
    requires TargetOk(net, s, task, pos) && (s.levels[task.node] > 1 ==> s.levels[pos] > 0)
    requires task in aux.places && !Uncounted(aux.places[task])
    requires aux' == aux.(places := aux.places[task := Done])
    ensures forall i :: 0 <= i < |s.levels| ==> NodeOk(net, s', aux', i)
    ensures forall i, e :: 0 <= i < |s.levels| && e in s.graph.edges[i] ==> AheadOk(s', aux', i, e)
  {
    SameWindows(s, s', k);
    forall i, e | 0 <= i < |s.levels| && e in s.graph.edges[i] ensures AheadOk(s', aux', i, e) {
      assert AheadOk(s, aux, i, e);
      if Task(i, e.t) == task { SameTarget(net, s, i, e, pos); }
    }
    forall i | 0 <= i < |s.levels| ensures NodeOk(net, s', aux', i) {
      assert NodeOk(net, s, aux, i);
      var fire := net.FirableIn(s.graph.sets[i]);
      assert OpenOf(aux'.places, fire, i) == OpenOf(aux.places, fire, i);
      SameNode(net, s, aux, s', aux', k, i);
    }
  }

  /** An edge leads to the only node of the successor aggregate. */
  lemma SameTarget(net: Net, s: State, i: nat, e: Edge, pos: nat)
    requires s.graph.Ok(net) && i < |s.graph.sets| && e in s.graph.edges[i] && pos < |s.graph.sets|
    requires e.t < |net.transitions| && s.graph.sets[pos] == Successor(net, s.graph.sets[i], e.t)
    ensures e.state == pos
  {
    assert s.graph.NodeOk(net, i) && s.graph.EdgeOk(net, i, e);
  }

  /** What the thread was before the expansion: a worker still has its task. */
  function Before(origin: Origin, pos: nat): Phase {
    match origin
    case Client => Asked(pos)
    case Worker(task) => Checked(task, pos)
  }

  /** Thread k moves between phases with the same task, if any; nothing else changes. */
  ghost predicate OnlyPhase(s: State, s': State, k: nat) {
    && k < |s.threads| == |s'.threads| && s'.threads == s.threads[k := s'.threads[k]]
    && s'.graph == s.graph && s'.levels == s.levels && s'.pending == s.pending && s'.completed == s.completed
    && |s'.visited| == |s.visited| && s'.queue == s.queue && s'.pushed == s.pushed
    && (forall task :: Works(s.threads[k], task) <==> Works(s'.threads[k], task))
    && (forall task :: Works(s.threads[k], task) ==> PlaceIn(s'.threads[k], k) == PlaceIn(s.threads[k], k))
    && !s.threads[k].Counted? && !s.threads[k].Sizing? && !s'.threads[k].Sizing?
    && !s.threads[k].Pushing? && !s'.threads[k].Pushing?
  }

  lemma PhaseInv(net: Net, s: State, aux: Aux, s': State, k: nat)
    requires Inv(net, s, aux) && OnlyPhase(s, s', k) && ThreadOk(net, s', aux, k)
    requires forall m :: 0 <= m < |s.threads| && m != k && InWindow(s.threads[m]) ==> WindowOk(net, s', m)
    ensures Inv(net, s', aux)
  {
    forall i: nat, t: nat ensures TaskOk(net, s', aux, i, t) {
      assert TaskOk(net, s, aux, i, t);
      SameUnpushed(s, s', k, i, t);
    }
    forall m | 0 <= m < |s.threads| && m != k ensures ThreadOk(net, s', aux, m) {
      assert ThreadOk(net, s, aux, m);
      OtherThread(net, s, aux, s', aux, m);
    }
    forall task | task in aux.places ensures PlaceOk(s', aux, task) { assert PlaceOk(s, aux, task); }
    forall i | 0 <= i < |s.levels| ensures NodeOk(net, s', aux, i) {
      assert NodeOk(net, s, aux, i);
      SameSizing(s, s', k, i);
      SameNode(net, s, aux, s', aux, k, i);
    }
    forall i, e | 0 <= i < |s.levels| && e in s.graph.edges[i] ensures AheadOk(s', aux, i, e) {
      assert AheadOk(s, aux, i, e);
    }
  }

  lemma SameUnpushed(s: State, s': State, k: nat, i: nat, t: nat)
    requires k < |s.threads| == |s'.threads| && s'.threads == s.threads[k := s'.threads[k]]
    requires ToPush(s, k, i, t) <==> ToPush(s', k, i, t)
    ensures Unpushed(s', i, t) <==> Unpushed(s, i, t)
  {
    forall m: nat ensures ToPush(s', m, i, t) <==> ToPush(s, m, i, t) {}
  }

  lemma SameSizing(s: State, s': State, k: nat, i: nat)
    requires k < |s.threads| == |s'.threads| && s'.threads == s.threads[k := s'.threads[k]]
    requires (s.threads[k].Sizing? && s.threads[k].pos == i) <==> (s'.threads[k].Sizing? && s'.threads[k].pos == i)
    ensures SizingAt(s', i) <==> SizingAt(s, i)
  {
    if SizingAt(s, i) {
      var m: nat :| m < |s.threads| && s.threads[m].Sizing? && s.threads[m].pos == i;
      assert s'.threads[m].Sizing?;
    }
    if SizingAt(s', i) {
      var m: nat :| m < |s'.threads| && s'.threads[m].Sizing? && s'.threads[m].pos == i;
      assert s.threads[m].Sizing?;
    }
  }

  /** Nobody else was about to expand the node. */
  lemma OpenInv(net: Net, s: State, aux: Aux, k: nat, origin: Origin, pos: nat)
    requires Inv(net, s, aux) && k < |s.threads|
    requires s.threads[k] == Before(origin, pos) && pos < |s.levels| && s.levels[pos] == 0
    requires !OpenWindow(net, s, k, origin, pos).overlapped
    ensures Inv(net, OpenWindow(net, s, k, origin, pos), aux)
  {
    var s' := OpenWindow(net, s, k, origin, pos);
    assert ThreadOk(net, s, aux, k);
    OpenWindows(net, s, aux, k, origin, pos);
    forall m | 0 <= m < |s.threads| && m != k && InWindow(s.threads[m]) ensures WindowOk(net, s', m) {
      assert ThreadOk(net, s, aux, m);
    }
    PhaseInv(net, s, aux, s', k);
  }

  lemma OpenWindows(net: Net, s: State, aux: Aux, k: nat, origin: Origin, pos: nat)
    requires Inv(net, s, aux) && k < |s.threads|
    requires s.threads[k] == Before(origin, pos) && pos < |s.levels| && s.levels[pos] == 0
    requires !OpenWindow(net, s, k, origin, pos).overlapped
    ensures var s' := OpenWindow(net, s, k, origin, pos);
            && (forall m: nat :: m < |s.threads| && m != k && Firing(net, s, pos) ==>
                  (Effective(s, origin) ==> !About(s', m, pos)) && !Expands(s', m, pos))
            && (forall n: nat, i: nat :: About(s', n, i) <==>
                 if n == k then i == pos && Effective(s, origin) else About(s, n, i))
            && (forall n: nat, i: nat :: Expands(s', n, i) <==> Expands(s, n, i))
  {
    var s' := OpenWindow(net, s, k, origin, pos);
    forall m: nat | m < |s.threads| && m != k
      ensures Firing(net, s, pos) ==> (Effective(s, origin) ==> !About(s', m, pos)) && !Expands(s', m, pos)
    {
      assert ThreadOk(net, s, aux, m);
      assert About(s', m, pos) <==> About(s, m, pos);
    }
  }

  /** An expansion that is over, or has no effect. */
  lemma CloseInv(net: Net, s: State, aux: Aux, k: nat, origin: Origin, pos: nat) returns (aux': Aux)
    requires Inv(net, s, aux) && k < |s.threads| && s.threads[k] == Before(origin, pos)
    requires pos < |s.levels|
    requires origin.Worker? && origin.task.node < |s.levels| && s.levels[origin.task.node] > 1 ==> s.levels[pos] > 0
    ensures Inv(net, To(s, k, Idle), aux')
  {
    assert ThreadOk(net, s, aux, k);
    if origin.Client? {
      aux' := aux;
      var s' := To(s, k, Idle);
      SameWindows(s, s', k);
      forall m | 0 <= m < |s.threads| && m != k && InWindow(s.threads[m]) ensures WindowOk(net, s', m) {
        assert ThreadOk(net, s, aux, m);
        SameWindowOk(net, s, s', m);
      }
      PhaseInv(net, s, aux, s', k);
    } else {
      aux' := FinishInv(net, s, aux, k);
    }
  }

  lemma TestInv(net: Net, s: State, aux: Aux, k: nat, origin: Origin, pos: nat) returns (aux': Aux)
    requires Inv(net, s, aux) && Enabled(s, Advance(k)) && s.threads[k] == Before(origin, pos)
    requires !Apply(net, s, Advance(k)).overlapped
    ensures Inv(net, Apply(net, s, Advance(k)), aux')
  {
    assert ThreadOk(net, s, aux, k);
    if origin.Worker? { assert PlaceOk(s, aux, origin.task) && TaskOk(net, s, aux, origin.task.node, origin.task.t); }
    aux' := aux;
    if s.levels[pos] == 0 {
      OpenInv(net, s, aux, k, origin, pos);
    } else {
      aux' := CloseInv(net, s, aux, k, origin, pos);
    }
  }

  /** The worker of a task works for an expanded node. */
  lemma OriginExpanded(net: Net, s: State, aux: Aux, m: nat, task: Task)
    requires Inv(net, s, aux) && m < |s.threads| && Works(s.threads[m], task)
    ensures task in aux.places && task.node < |s.levels| && s.levels[task.node] > 0 && Firing(net, s, task.node)
  {
    assert ThreadOk(net, s, aux, m) && TaskOk(net, s, aux, task.node, task.t);
  }

  /** A thread that has read level 0, seen as one that has not. */
  lemma BackInv(net: Net, s: State, aux: Aux, k: nat)
    requires Inv(net, s, aux) && k < |s.threads| && s.threads[k].Leveling?
    ensures Inv(net, To(s, k, Before(s.threads[k].origin, s.threads[k].pos)), aux)
  {
    assert ThreadOk(net, s, aux, k);
    var s1 := To(s, k, Before(s.threads[k].origin, s.threads[k].pos));
    forall m: nat, i: nat ensures (About(s1, m, i) ==> About(s, m, i)) && (Expands(s1, m, i) ==> Expands(s, m, i)) {}
    forall m | 0 <= m < |s.threads| && m != k && InWindow(s.threads[m]) ensures WindowOk(net, s1, m) {
      assert ThreadOk(net, s, aux, m);
      SameWindowOk(net, s, s1, m);
    }
    PhaseInv(net, s, aux, s1, k);
  }

  /** Without effect, the level stays and the expansion ends. */
  lemma IdleLevelInv(net: Net, s: State, aux: Aux, k: nat) returns (aux': Aux)
    requires Inv(net, s, aux) && Enabled(s, Advance(k)) && s.threads[k].Leveling? && !Effective(s, s.threads[k].origin)
    ensures Inv(net, Apply(net, s, Advance(k)), aux')
  {
    var origin, pos := s.threads[k].origin, s.threads[k].pos;
    assert ThreadOk(net, s, aux, k);
    var s1 := To(s, k, Before(origin, pos));
    BackInv(net, s, aux, k);
    OriginExpanded(net, s, aux, k, origin.task);
    aux' := CloseInv(net, s1, aux, k, origin, pos);
    assert Raised(s, origin, pos) == s.levels;
    assert To(s1, k, Idle) == Apply(net, s, Advance(k));
  }

  /** The level is raised from 0: the node's tasks are now to be pushed. */
  lemma LevelInv(net: Net, s: State, aux: Aux, k: nat)
    requires Inv(net, s, aux) && Enabled(s, Advance(k)) && s.threads[k].Leveling? && Effective(s, s.threads[k].origin)
    ensures Inv(net, Apply(net, s, Advance(k)), aux)
  {
    var s', origin, pos := Apply(net, s, Advance(k)), s.threads[k].origin, s.threads[k].pos;
    assert ThreadOk(net, s, aux, k) && About(s, k, pos);
    LevelFacts(net, s, aux, k);
    LevelWindows(net, s, aux, k);
    LevelTasks(net, s, aux, s', k, origin, pos);
    LevelThreads(net, s, aux, s', k);
    LevelNodes(net, s, aux, k);
  }

  lemma LevelThreads(net: Net, s: State, aux: Aux, s': State, k: nat)
    requires Inv(net, s, aux) && k < |s.threads| && s.threads[k].Leveling?
    requires s' == To(s, k, Sizing(s.threads[k].origin, s.threads[k].pos)).(levels := s'.levels)
    requires |s'.levels| == |s.levels|
    requires forall m :: 0 <= m < |s.threads| && InWindow(s.threads[m]) ==> WindowOk(net, s', m)
    ensures forall m :: 0 <= m < |s.threads| ==> ThreadOk(net, s', aux, m)
    ensures forall task :: task in aux.places ==> PlaceOk(s', aux, task)
  {
    forall m | 0 <= m < |s.threads| ensures ThreadOk(net, s', aux, m) {
      assert ThreadOk(net, s, aux, m);
      if m != k { OtherThread(net, s, aux, s', aux, m); }
    }
    forall task | task in aux.places ensures PlaceOk(s', aux, task) { assert PlaceOk(s, aux, task); }
  }

  lemma LevelTasks(net: Net, s: State, aux: Aux, s': State, k: nat, origin: Origin, pos: nat)
    requires Inv(net, s, aux) && k < |s.threads| && s.threads[k] == Leveling(origin, pos) && pos < |s.levels|
    requires s' == To(s, k, Sizing(origin, pos)).(levels := s'.levels)
    requires |s'.levels| == |s.levels| && s'.levels == s.levels[pos := s'.levels[pos]]
    requires Firing(net, s, pos) ==> s.levels[pos] == 0
    ensures forall i: nat, t: nat :: TaskOk(net, s', aux, i, t)
  {
    forall i: nat, t: nat ensures TaskOk(net, s', aux, i, t) {
      assert TaskOk(net, s, aux, i, t);
      if i == pos { assert ToPush(s', k, pos, t); } else { SameUnpushed(s, s', k, i, t); }
    }
  }

  lemma LevelFacts(net: Net, s: State, aux: Aux, k: nat)
    requires Inv(net, s, aux) && Enabled(s, Advance(k)) && s.threads[k].Leveling? && Effective(s, s.threads[k].origin)
    ensures var s', origin, pos := Apply(net, s, Advance(k)), s.threads[k].origin, s.threads[k].pos;
            && (Firing(net, s, pos) ==> s.levels[pos] == 0) && s'.levels == s.levels[pos := s'.levels[pos]]
            && s'.levels[pos] > 0
            && s' == To(s, k, Sizing(origin, pos)).(levels := s'.levels)
            && (origin.Worker? ==> origin.task.node != pos) && Effective(s', origin)
  {
    var origin, pos := s.threads[k].origin, s.threads[k].pos;
    assert ThreadOk(net, s, aux, k) && About(s, k, pos);
    if origin.Worker? { OriginExpanded(net, s, aux, k, origin.task); }
  }

  /** The other expansions are of other nodes, for tasks of other nodes. */
  lemma LevelWindows(net: Net, s: State, aux: Aux, k: nat)
    requires Inv(net, s, aux) && Enabled(s, Advance(k)) && s.threads[k].Leveling? && Effective(s, s.threads[k].origin)
    ensures forall m :: 0 <= m < |s.threads| && InWindow(s.threads[m]) ==>
              InWindow(Apply(net, s, Advance(k)).threads[m]) && WindowOk(net, Apply(net, s, Advance(k)), m)
  {
    var s', pos := Apply(net, s, Advance(k)), s.threads[k].pos;
    assert ThreadOk(net, s, aux, k) && About(s, k, pos);
    LevelFacts(net, s, aux, k);
    LevelOthers(net, s, aux, s', k, pos);
    forall m | 0 <= m < |s.threads| && m != k && InWindow(s.threads[m]) ensures WindowOk(net, s', m) {
      LevelWindow(net, s, aux, s', k, pos, m);
    }
  }

  lemma LevelWindow(net: Net, s: State, aux: Aux, s': State, k: nat, pos: nat, m: nat)
    requires Inv(net, s, aux) && k < |s.threads| == |s'.threads| && s'.threads == s.threads[k := s'.threads[k]]
    requires pos < |s.levels| == |s'.levels| && s'.levels == s.levels[pos := s'.levels[pos]] && s'.levels[pos] > 0
    requires s'.graph == s.graph && (Firing(net, s, pos) ==> s.levels[pos] == 0)
    requires About(s, k, pos) && s'.threads[k].Sizing? && s'.threads[k].pos == pos
    requires forall m: nat, i: nat :: m != k ==>
      (About(s', m, i) <==> About(s, m, i)) && (Expands(s', m, i) <==> Expands(s, m, i))
    requires m < |s.threads| && m != k && InWindow(s.threads[m])
    ensures WindowOk(net, s', m)
  {
    assert ThreadOk(net, s, aux, m);
    if s.threads[m].origin.Worker? { OriginExpanded(net, s, aux, m, s.threads[m].origin.task); }
  }

  lemma LevelOthers(net: Net, s: State, aux: Aux, s': State, k: nat, pos: nat)
    requires Inv(net, s, aux) && k < |s.threads| == |s'.threads| && s'.threads == s.threads[k := s'.threads[k]]
    requires pos < |s.levels| == |s'.levels| && s'.levels == s.levels[pos := s'.levels[pos]]
    requires Firing(net, s, pos) ==> s.levels[pos] == 0
    ensures forall m: nat, i: nat :: m != k ==>
      (About(s', m, i) <==> About(s, m, i)) && (Expands(s', m, i) <==> Expands(s, m, i))
  {
    forall m: nat, i: nat | m != k
      ensures (About(s', m, i) <==> About(s, m, i)) && (Expands(s', m, i) <==> Expands(s, m, i))
    {
      if m < |s.threads| && s.threads[m].Leveling? && s.threads[m].origin.Worker? {
        OriginExpanded(net, s, aux, m, s.threads[m].origin.task);
      }
    }
  }

  lemma LevelNodes(net: Net, s: State, aux: Aux, k: nat)
    requires Inv(net, s, aux) && Enabled(s, Advance(k)) && s.threads[k].Leveling? && Effective(s, s.threads[k].origin)
    ensures var s' := Apply(net, s, Advance(k));
            && (forall i :: 0 <= i < |s.levels| ==> NodeOk(net, s', aux, i))
            && (forall i, e :: 0 <= i < |s.levels| && e in s.graph.edges[i] ==> AheadOk(s', aux, i, e))
  {
    var s', pos := Apply(net, s, Advance(k)), s.threads[k].pos;
    LevelFacts(net, s, aux, k);
    forall i | 0 <= i < |s.levels| ensures NodeOk(net, s', aux, i) {
      assert NodeOk(net, s, aux, i);
      if i == pos { assert s'.threads[k].Sizing?; } else {
        SameSizing(s, s', k, i);
        SameNode(net, s, aux, s', aux, k, i);
      }
    }
    forall i, e | 0 <= i < |s.levels| && e in s.graph.edges[i] ensures AheadOk(s', aux, i, e) {
      assert AheadOk(s, aux, i, e) && TaskOk(net, s, aux, i, e.t);
    }
  }

  /** Sets the counter of node pos; the thread pushes the tasks or, if there are none, is done. */
  ghost function Sized(net: Net, s: State, k: nat, origin: Origin, pos: nat): State
    requires Shaped(s) && k < |s.threads| && pos < |s.levels|
  {
    var fire := net.FirableIn(s.graph.sets[pos]);
    To(s, k, if fire == {} then Before(origin, pos) else Pushing(origin, pos, fire))
      .(pending := s.pending[pos := |fire|], completed := s.completed[pos := s.completed[pos] || fire == {}])
  }

  /** Expansions and tasks to be pushed, when thread k's own have become no more. */
  lemma FewerWindows(net: Net, s: State, aux: Aux, s': State, aux': Aux, k: nat, pos: nat)
    requires Inv(net, s, aux) && k < |s.threads| == |s'.threads| && s'.threads == s.threads[k := s'.threads[k]]
    requires s'.levels == s.levels && s'.graph == s.graph
    requires Expands(s, k, pos) && !s'.threads[k].Leveling? && forall i: nat :: Expands(s', k, i) ==> i == pos
    requires forall task :: task in aux.places ==> task in aux'.places && aux'.places[task] == aux.places[task]
    ensures forall m :: 0 <= m < |s.threads| && m != k ==> ThreadOk(net, s', aux', m)
    ensures forall m: nat :: m < |s.threads| && m != k && Firing(net, s, pos) ==>
      !About(s', m, pos) && !Expands(s', m, pos)
  {
    assert ThreadOk(net, s, aux, k);
    forall m | 0 <= m < |s.threads| && m != k
      ensures ThreadOk(net, s', aux', m) && (Firing(net, s, pos) ==> !About(s', m, pos) && !Expands(s', m, pos))
    {
      assert ThreadOk(net, s, aux, m);
      assert About(s', m, pos) <==> About(s, m, pos);
      if InWindow(s.threads[m]) {
        forall n: nat, i: nat
          ensures (About(s', n, i) ==> About(s, n, i)) && (Expands(s', n, i) ==> Expands(s, n, i))
        {
        }
        SameWindowOk(net, s, s', m);
      }
      OtherThread(net, s, aux, s', aux', m);
    }
  }

  lemma SizedInv(net: Net, s: State, aux: Aux, k: nat)
    requires Inv(net, s, aux) && k < |s.threads| && s.threads[k].Sizing? && s.threads[k].pos < |s.levels|
    ensures Inv(net, Sized(net, s, k, s.threads[k].origin, s.threads[k].pos), aux)
  {
    SizedThreads(net, s, aux, k);
    SizedTasks(net, s, aux, k);
    SizedNodes(net, s, aux, k);
  }

  lemma SizedThreads(net: Net, s: State, aux: Aux, k: nat)
    requires Inv(net, s, aux) && k < |s.threads| && s.threads[k].Sizing? && s.threads[k].pos < |s.levels|
    ensures var s' := Sized(net, s, k, s.threads[k].origin, s.threads[k].pos);
            && (forall m :: 0 <= m < |s.threads| ==> ThreadOk(net, s', aux, m))
            && (forall task :: task in aux.places ==> PlaceOk(s', aux, task))
  {
    var origin, pos := s.threads[k].origin, s.threads[k].pos;
    var s' := Sized(net, s, k, origin, pos);
    assert ThreadOk(net, s, aux, k) && Expands(s, k, pos);
    FewerWindows(net, s, aux, s', aux, k, pos);
    forall task | task in aux.places ensures PlaceOk(s', aux, task) { assert PlaceOk(s, aux, task); }
  }

  lemma SizedTasks(net: Net, s: State, aux: Aux, k: nat)
    requires Inv(net, s, aux) && k < |s.threads| && s.threads[k].Sizing? && s.threads[k].pos < |s.levels|
    ensures var s' := Sized(net, s, k, s.threads[k].origin, s.threads[k].pos);
            forall i: nat, t: nat :: TaskOk(net, s', aux, i, t)
  {
    var pos := s.threads[k].pos;
    var s' := Sized(net, s, k, s.threads[k].origin, pos);
    forall i: nat, t: nat ensures TaskOk(net, s', aux, i, t) {
      assert TaskOk(net, s, aux, i, t);
      if i != pos || t in net.FirableIn(s.graph.sets[pos]) { SameUnpushed(s, s', k, i, t); }
    }
  }

  lemma SizedNodes(net: Net, s: State, aux: Aux, k: nat)
    requires Inv(net, s, aux) && k < |s.threads| && s.threads[k].Sizing? && s.threads[k].pos < |s.levels|
    ensures var s' := Sized(net, s, k, s.threads[k].origin, s.threads[k].pos);
            && (forall i :: 0 <= i < |s.levels| ==> NodeOk(net, s', aux, i))
            && (forall i, e :: 0 <= i < |s.levels| && e in s.graph.edges[i] ==> AheadOk(s', aux, i, e))
  {
    var pos := s.threads[k].pos;
    var s', fire := Sized(net, s, k, s.threads[k].origin, pos), net.FirableIn(s.graph.sets[pos]);
    assert ThreadOk(net, s, aux, k) && Expands(s, k, pos);
    forall t: nat ensures Task(pos, t) !in aux.places {
      assert TaskOk(net, s, aux, pos, t);
      assert ToPush(s, k, pos, t);
    }
    forall i | 0 <= i < |s.levels| ensures NodeOk(net, s', aux, i) {
      assert NodeOk(net, s, aux, i);
      if i == pos {
        assert OpenOf(aux.places, fire, pos) == fire;
        if fire != {} { OnlySizing(net, s, aux, s', k, pos); }
      } else {
        SameSizing(s, s', k, i);
        SameNode(net, s, aux, s', aux, k, i);
      }
    }
    forall i, e | 0 <= i < |s.levels| && e in s.graph.edges[i] ensures AheadOk(s', aux, i, e) {
      assert AheadOk(s, aux, i, e);
    }
  }

  lemma OnlySizing(net: Net, s: State, aux: Aux, s': State, k: nat, pos: nat)
    requires Inv(net, s, aux) && k < |s.threads| && Expands(s, k, pos) && Firing(net, s, pos)
    requires |s'.threads| == |s.threads| && s'.threads == s.threads[k := s'.threads[k]] && !s'.threads[k].Sizing?
    ensures !SizingAt(s', pos)
  {
    assert ThreadOk(net, s, aux, k);
    if SizingAt(s', pos) {
      var m: nat :| m < |s'.threads| && s'.threads[m].Sizing? && s'.threads[m].pos == pos;
      assert Expands(s, m, pos);
    }
  }

  lemma SizeInv(net: Net, s: State, aux: Aux, k: nat) returns (aux': Aux)
    requires Inv(net, s, aux) && Enabled(s, Advance(k)) && s.threads[k].Sizing?
    ensures Inv(net, Apply(net, s, Advance(k)), aux')
  {
    var origin, pos := s.threads[k].origin, s.threads[k].pos;
    assert ThreadOk(net, s, aux, k) && Expands(s, k, pos);
    SizedInv(net, s, aux, k);
    var s1 := Sized(net, s, k, origin, pos);
    aux' := aux;
    if net.FirableIn(s.graph.sets[pos]) == {} {
      aux' := CloseInv(net, s1, aux, k, origin, pos);
      assert To(s1, k, Idle) == Apply(net, s, Advance(k));
    } else {
      assert s1 == Apply(net, s, Advance(k));
    }
  }

  /** Pushes a task; after the last one the thread is done. */
  ghost function PushedTo(s: State, k: nat, origin: Origin, pos: nat, rest: set<nat>, t: nat): State
    requires k < |s.threads|
  {
    To(s, k, if rest == {} then Before(origin, pos) else Pushing(origin, pos, rest))
      .(queue := s.queue + multiset{Task(pos, t)}, pushed := s.pushed + multiset{Task(pos, t)})
  }

  lemma PushedInv(net: Net, s: State, aux: Aux, k: nat, t: nat)
    requires Inv(net, s, aux) && k < |s.threads| && s.threads[k].Pushing? && t in s.threads[k].rest
    ensures var p := s.threads[k];
            Inv(net, PushedTo(s, k, p.origin, p.pos, p.rest - {t}, t),
              aux.(places := aux.places[Task(p.pos, t) := Waiting]))
  {
    PushedThreads(net, s, aux, k, t);
    PushedTasks(net, s, aux, k, t);
    PushedPlaces(net, s, aux, k, t);
    PushedRest(net, s, aux, k, t);
  }

  lemma PushedThreads(net: Net, s: State, aux: Aux, k: nat, t: nat)
    requires Inv(net, s, aux) && k < |s.threads| && s.threads[k].Pushing? && t in s.threads[k].rest
    ensures var p := s.threads[k];
            var s' := PushedTo(s, k, p.origin, p.pos, p.rest - {t}, t);
            var aux' := aux.(places := aux.places[Task(p.pos, t) := Waiting]);
            p.pos < |s.levels| && forall m :: 0 <= m < |s.threads| ==> ThreadOk(net, s', aux', m)
  {
    var origin, pos, rest := s.threads[k].origin, s.threads[k].pos, s.threads[k].rest;
    var s', aux' := PushedTo(s, k, origin, pos, rest - {t}, t), aux.(places := aux.places[Task(pos, t) := Waiting]);
    assert ThreadOk(net, s, aux, k) && Expands(s, k, pos) && TaskOk(net, s, aux, pos, t);
    assert ToPush(s, k, pos, t);
    FewerWindows(net, s, aux, s', aux', k, pos);
  }

  lemma PushedTasks(net: Net, s: State, aux: Aux, k: nat, t: nat)
    requires Inv(net, s, aux) && k < |s.threads| && s.threads[k].Pushing? && t in s.threads[k].rest
    ensures var p := s.threads[k];
            var s' := PushedTo(s, k, p.origin, p.pos, p.rest - {t}, t);
            var aux' := aux.(places := aux.places[Task(p.pos, t) := Waiting]);
            forall i: nat, u: nat :: TaskOk(net, s', aux', i, u)
  {
    var origin, pos, rest := s.threads[k].origin, s.threads[k].pos, s.threads[k].rest;
    var s', aux' := PushedTo(s, k, origin, pos, rest - {t}, t), aux.(places := aux.places[Task(pos, t) := Waiting]);
    assert ThreadOk(net, s, aux, k) && Expands(s, k, pos) && TaskOk(net, s, aux, pos, t);
    assert ToPush(s, k, pos, t);
    forall i: nat, u: nat ensures TaskOk(net, s', aux', i, u) {
      assert TaskOk(net, s, aux, i, u);
      if i == pos && u == t {
        forall m: nat ensures !ToPush(s', m, pos, t) { if m != k && m < |s.threads| { assert !Expands(s, m, pos); } }
      } else {
        SameUnpushed(s, s', k, i, u);
      }
    }
  }

  lemma PushedPlaces(net: Net, s: State, aux: Aux, k: nat, t: nat)
    requires Inv(net, s, aux) && k < |s.threads| && s.threads[k].Pushing? && t in s.threads[k].rest
    ensures var p := s.threads[k];
            var s' := PushedTo(s, k, p.origin, p.pos, p.rest - {t}, t);
            var aux' := aux.(places := aux.places[Task(p.pos, t) := Waiting]);
            QueueOk(s', aux') && forall task :: task in aux'.places ==> PlaceOk(s', aux', task)
  {
    var origin, pos, rest := s.threads[k].origin, s.threads[k].pos, s.threads[k].rest;
    var s', aux' := PushedTo(s, k, origin, pos, rest - {t}, t), aux.(places := aux.places[Task(pos, t) := Waiting]);
    assert ThreadOk(net, s, aux, k) && Expands(s, k, pos) && TaskOk(net, s, aux, pos, t) && NodeOk(net, s, aux, pos);
    assert ToPush(s, k, pos, t);
    forall task | task in aux'.places ensures PlaceOk(s', aux', task) {
      if task != Task(pos, t) { assert PlaceOk(s, aux, task); }
    }
  }

  lemma PushedRest(net: Net, s: State, aux: Aux, k: nat, t: nat)
    requires Inv(net, s, aux) && k < |s.threads| && s.threads[k].Pushing? && t in s.threads[k].rest
    ensures var p := s.threads[k];
            var s' := PushedTo(s, k, p.origin, p.pos, p.rest - {t}, t);
            var aux' := aux.(places := aux.places[Task(p.pos, t) := Waiting]);
            && (forall i :: 0 <= i < |s.levels| ==> NodeOk(net, s', aux', i))
            && (forall i, e :: 0 <= i < |s.levels| && e in s.graph.edges[i] ==> AheadOk(s', aux', i, e))
  {
    var origin, pos, rest := s.threads[k].origin, s.threads[k].pos, s.threads[k].rest;
    var s', aux' := PushedTo(s, k, origin, pos, rest - {t}, t), aux.(places := aux.places[Task(pos, t) := Waiting]);
    assert ThreadOk(net, s, aux, k) && Expands(s, k, pos) && TaskOk(net, s, aux, pos, t) && NodeOk(net, s, aux, pos);
    assert ToPush(s, k, pos, t);
    forall i | 0 <= i < |s.levels| ensures NodeOk(net, s', aux', i) {
      assert NodeOk(net, s, aux, i);
      var fire := net.FirableIn(s.graph.sets[i]);
      assert OpenOf(aux'.places, fire, i) == OpenOf(aux.places, fire, i);
      SameSizing(s, s', k, i);
      SameNode(net, s, aux, s', aux', k, i);
    }
    forall i, e | 0 <= i < |s.levels| && e in s.graph.edges[i] ensures AheadOk(s', aux', i, e) {
      assert AheadOk(s, aux, i, e);
    }
  }

  lemma PushInv(net: Net, s: State, aux: Aux, k: nat, t: nat) returns (aux': Aux)
    requires Inv(net, s, aux) && Enabled(s, Push(k, t))
    ensures Inv(net, Apply(net, s, Push(k, t)), aux')
  {
    var origin, pos, rest := s.threads[k].origin, s.threads[k].pos, s.threads[k].rest;
    assert ThreadOk(net, s, aux, k) && Expands(s, k, pos);
    PushedInv(net, s, aux, k, t);
    var aux1 := aux.(places := aux.places[Task(pos, t) := Waiting]);
    var s1 := PushedTo(s, k, origin, pos, rest - {t}, t);
    PushStep(net, s, k, t);
    if rest - {t} == {} {
      aux' := CloseInv(net, s1, aux1, k, origin, pos);
    } else {
      aux' := aux1;
    }
  }

  lemma PushStep(net: Net, s: State, k: nat, t: nat)
    requires Enabled(s, Push(k, t))
    ensures var p := s.threads[k]; var s1 := PushedTo(s, k, p.origin, p.pos, p.rest - {t}, t);
            Apply(net, s, Push(k, t)) == if p.rest - {t} == {} then To(s1, k, Idle) else s1
  {
  }

  lemma RequestInv(net: Net, s: State, aux: Aux, i: nat)
    requires Inv(net, s, aux) && Enabled(s, Request(i))
    ensures Inv(net, Apply(net, s, Request(i)), aux)
  {
    var s' := Apply(net, s, Request(i));
    SameWindows(s, s', 0);
    forall m | 0 <= m < |s.threads| && m != 0 && InWindow(s.threads[m]) ensures WindowOk(net, s', m) {
      assert ThreadOk(net, s, aux, m);
      SameWindowOk(net, s, s', m);
    }
    PhaseInv(net, s, aux, s', 0);
  }

  // ---- runs ----

  lemma StepInv(net: Net, s: State, aux: Aux, a: Action) returns (aux': Aux)
    requires Inv(net, s, aux) && Enabled(s, a) && !Apply(net, s, a).overlapped
    ensures Inv(net, Apply(net, s, a), aux')
  {
    match a
    case Request(i) => RequestInv(net, s, aux, i); aux' := aux;
    case Pop(k, task) => aux' := PopInv(net, s, aux, k, task);
    case Push(k, t) => aux' := PushInv(net, s, aux, k, t);
    case Advance(k) =>
      match s.threads[k]
      case Popped(_) => aux' := InsertInv(net, s, aux, k);
      case Found(_, _) => aux' := ConnectInv(net, s, aux, k);
      case Linked(_, _) => aux' := DecrementInv(net, s, aux, k);
      case Counted(_, _) => CheckInv(net, s, aux, k); aux' := aux;
      case Checked(task, pos) => aux' := TestInv(net, s, aux, k, Worker(task), pos);
      case Asked(i) => aux' := TestInv(net, s, aux, k, Client, i);
      case Leveling(origin, _) =>
        if Effective(s, origin) {
          LevelInv(net, s, aux, k);
          aux' := aux;
        } else {
          aux' := IdleLevelInv(net, s, aux, k);
        }
      case Sizing(_, _) => aux' := SizeInv(net, s, aux, k);
  }

  lemma StartInv(net: Net, x0: Marking, threads: nat) returns (aux: Aux)
    requires net.Ok() && x0 in net.Universe() && threads > 0
    ensures Inv(net, Start(net, x0, threads), aux)
  {
    var s, c := Start(net, x0, threads), net.Closure({x0});
    FromInitial(net, x0, [], x0);
    var none: Graph := Graph([], []);
    GrowGraph(net, none, c);
    assert s.graph == WithNode(none, c);
    aux := Aux(map[], [[]]);
    assert WordOk(net, s.graph.sets, aux.words, 0);
    var fire := net.FirableIn(c);
    forall i: nat, t: nat ensures TaskOk(net, s, aux, i, t) {
      if i == 0 && t in fire { assert ToPush(s, 0, 0, t); }
    }
    assert OpenOf(aux.places, fire, 0) == fire;
    assert !SizingAt(s, 0);
    assert NodeOk(net, s, aux, 0);
    forall k | 0 <= k < |s.threads| ensures ThreadOk(net, s, aux, k) {}
  }

  lemma {:induction false} OverlapStays(net: Net, s: State, acts: seq<Action>, s': State)
    requires Runs(net, s, acts, s') && s.overlapped
    ensures s'.overlapped
    decreases |acts|
  {
    if acts != [] { OverlapStays(net, Apply(net, s, acts[0]), acts[1..], s'); }
  }

  lemma {:induction false} RunInv(net: Net, s: State, aux: Aux, acts: seq<Action>, s': State) returns (aux': Aux)
    requires Inv(net, s, aux) && Runs(net, s, acts, s') && !s'.overlapped
    ensures Inv(net, s', aux')
    decreases |acts|
  {
    aux' := aux;
    if acts != [] {
      var s1 := Apply(net, s, acts[0]);
      if s1.overlapped { OverlapStays(net, s1, acts[1..], s'); }
      aux' := StepInv(net, s, aux, acts[0]);
      aux' := RunInv(net, s1, aux', acts[1..], s');
    }
  }

  /** s is reached by some interleaving of requests and worker steps in which no two threads
      were about to expand the same node. */
  ghost predicate Reached(net: Net, x0: Marking, threads: nat, acts: seq<Action>, s: State) {
    && net.Ok() && x0 in net.Universe() && threads > 0
    && Runs(net, Start(net, x0, threads), acts, s) && !s.overlapped
  }

  lemma ReachedInv(net: Net, x0: Marking, threads: nat, acts: seq<Action>, s: State) returns (aux: Aux)
    requires Reached(net, x0, threads, acts, s)
    ensures Inv(net, s, aux)
  {
    aux := StartInv(net, x0, threads);
    aux := RunInv(net, Start(net, x0, threads), aux, acts, s);
  }

  /** A task has been pushed at most once, and exactly once if and only if its node has a level
      above zero, its transition is observable and firable there, and no thread is still to
      push it. */
  lemma PushedOnce(net: Net, x0: Marking, threads: nat, acts: seq<Action>, s: State, task: Task)
    requires Reached(net, x0, threads, acts, s)
    ensures s.pushed[task] <= 1 && Shaped(s)
    ensures s.pushed[task] == 1 <==>
              && task.node < |s.levels| && s.levels[task.node] > 0 && task.t in net.FirableIn(s.graph.sets[task.node])
              && !Unpushed(s, task.node, task.t)
  {
    var aux := ReachedInv(net, x0, threads, acts, s);
    assert TaskOk(net, s, aux, task.node, task.t);
  }

  /** Thread k runs the task and has not yet counted it as processed. */
  predicate RunningAt(s: State, k: nat, task: Task) {
    k < |s.threads| && (s.threads[k].Popped? || s.threads[k].Found? || s.threads[k].Linked?)
      && s.threads[k].task == task
  }

  ghost predicate InProgress(s: State, task: Task) {
    task in s.queue || Unpushed(s, task.node, task.t) || exists k: nat :: RunningAt(s, k, task)
  }

  lemma OpenMeans(net: Net, s: State, aux: Aux, task: Task)
    requires Inv(net, s, aux)
    requires task.node < |s.levels| && s.levels[task.node] > 0 && task.t in net.FirableIn(s.graph.sets[task.node])
    ensures (task in aux.places ==> Uncounted(aux.places[task])) <==> InProgress(s, task)
  {
    assert TaskOk(net, s, aux, task.node, task.t);
    if task in aux.places {
      assert PlaceOk(s, aux, task);
      match aux.places[task]
      case Open(k) => assert RunningAt(s, k, task);
      case Joined(k) => assert RunningAt(s, k, task);
      case _ =>
    }
    if k: nat :| RunningAt(s, k, task) { assert ThreadOk(net, s, aux, k); }
  }

  /** Of an expanded node, once it is set, the counter is the number of its tasks that are to be
      pushed, queued or running; no task is queued twice. */
  lemma PendingCounts(net: Net, x0: Marking, threads: nat, acts: seq<Action>, s: State, i: nat)
    requires Reached(net, x0, threads, acts, s) && i < |s.levels| && s.levels[i] > 0 && !SizingAt(s, i)
    ensures Shaped(s)
    ensures s.pending[i] == |set t | t in net.FirableIn(s.graph.sets[i]) && InProgress(s, Task(i, t))|
    ensures forall task :: task in s.queue ==> s.queue[task] == 1
  {
    var aux := ReachedInv(net, x0, threads, acts, s);
    assert NodeOk(net, s, aux, i);
    var fire := net.FirableIn(s.graph.sets[i]);
    forall t: nat | t in fire
      ensures (Task(i, t) in aux.places ==> Uncounted(aux.places[Task(i, t)])) <==> InProgress(s, Task(i, t))
    {
      OpenMeans(net, s, aux, Task(i, t));
    }
    assert OpenOf(aux.places, fire, i) == set t | t in fire && InProgress(s, Task(i, t));
    forall task | task in s.queue ensures s.queue[task] == 1 { assert PlaceOk(s, aux, task); }
  }

  /** A completed node has exactly one edge for each observable transition firable in it,
      leading to the successor aggregate; nodes never share an aggregate. */
  lemma CompletedNode(net: Net, x0: Marking, threads: nat, acts: seq<Action>, s: State, i: nat)
    requires Reached(net, x0, threads, acts, s) && i < |s.completed| && s.completed[i]
    ensures s.graph.Ok(net) && i < |s.graph.sets| && s.graph.FullNode(net, i)
  {
    var aux := ReachedInv(net, x0, threads, acts, s);
    CompletedFull(net, s, aux, i);
  }

  lemma CompletedFull(net: Net, s: State, aux: Aux, i: nat)
    requires Inv(net, s, aux) && i < |s.completed| && s.completed[i]
    ensures s.graph.FullNode(net, i)
  {
    assert NodeOk(net, s, aux, i) && s.graph.NodeOk(net, i);
    var fire := net.FirableIn(s.graph.sets[i]);
    forall t ensures t in fire <==> t in s.graph.Labels(i) {
      if t in fire {
        assert t !in OpenOf(aux.places, fire, i);
        assert PlaceOk(s, aux, Task(i, t));
      }
      if t in s.graph.Labels(i) { assert TaskOk(net, s, aux, i, t); }
    }
  }

  ghost predicate Quiescent(s: State) {
    s.queue == multiset{} && forall k :: 0 <= k < |s.threads| ==> s.threads[k].Idle?
  }

  lemma NoneOpen(net: Net, s: State, aux: Aux, i: nat)
    requires Inv(net, s, aux) && Quiescent(s) && i < |s.levels| && s.levels[i] > 0
    ensures OpenOf(aux.places, net.FirableIn(s.graph.sets[i]), i) == {} && !SizingAt(s, i)
  {
    var fire := net.FirableIn(s.graph.sets[i]);
    forall t | t in fire ensures t !in OpenOf(aux.places, fire, i) {
      OpenMeans(net, s, aux, Task(i, t));
    }
  }

  /** When nothing is queued or running, the completed nodes are exactly the expanded ones,
      and the successors of a node of level two or more are expanded too. */
  lemma QuiescentAhead(net: Net, x0: Marking, threads: nat, acts: seq<Action>, s: State, i: nat)
    requires Reached(net, x0, threads, acts, s) && Quiescent(s) && i < |s.levels|
    ensures Shaped(s) && (s.completed[i] <==> s.levels[i] > 0)
    ensures s.levels[i] > 1 ==> forall e :: e in s.graph.edges[i] ==> e.state < |s.completed| && s.completed[e.state]
  {
    var aux := ReachedInv(net, x0, threads, acts, s);
    forall m | 0 <= m < |s.levels| ensures s.completed[m] <==> s.levels[m] > 0 { RestCompleted(net, s, aux, m); }
    forall e | e in s.graph.edges[i] && s.levels[i] > 1 ensures e.state < |s.completed| && s.completed[e.state] {
      assert AheadOk(s, aux, i, e) && NodeOk(net, s, aux, i) && e.t in s.graph.Labels(i);
      assert PlaceOk(s, aux, Task(i, e.t));
    }
  }

  lemma RestCompleted(net: Net, s: State, aux: Aux, i: nat)
    requires Inv(net, s, aux) && Quiescent(s) && i < |s.levels|
    ensures s.completed[i] <==> s.levels[i] > 0
  {
    assert NodeOk(net, s, aux, i);
    if s.levels[i] > 0 { NoneOpen(net, s, aux, i); }
  }

  /** At rest with every stored node expanded, the graph is the one the sequential construction
      ends with. */
  lemma AllExpanded(net: Net, x0: Marking, threads: nat, acts: seq<Action>, s: State, g: Graph, words: seq<seq<nat>>)
    requires Reached(net, x0, threads, acts, s) && Quiescent(s) && forall i :: 0 <= i < |s.levels| ==> s.levels[i] > 0
    requires g.Complete(net) && Reachable(net, g.sets, words) && g.sets[0] == net.Closure({x0})
    ensures s.graph.Complete(net) && Isomorphic(g, s.graph)
  {
    var aux := ReachedInv(net, x0, threads, acts, s);
    FirstNode(net, Start(net, x0, threads), acts, s);
    forall i | 0 <= i < |s.graph.sets| ensures s.graph.FullNode(net, i) {
      RestCompleted(net, s, aux, i);
      CompletedFull(net, s, aux, i);
    }
    Unique(net, g, words, s.graph, aux.words);
  }

  lemma {:induction false} FirstNode(net: Net, s: State, acts: seq<Action>, s': State)
    requires Runs(net, s, acts, s') && 0 < |s.graph.sets|
    ensures 0 < |s'.graph.sets| && s'.graph.sets[0] == s.graph.sets[0]
    decreases |acts|
  {
    if acts != [] {
      assert s.graph.sets <= Apply(net, s, acts[0]).graph.sets;
      FirstNode(net, Apply(net, s, acts[0]), acts[1..], s');
    }
  }

  /** A thread waiting for an expanded node to be completed is not stuck: some thread can step
      other than by a request. */
  lemma Progress(net: Net, x0: Marking, threads: nat, acts: seq<Action>, s: State, i: nat) returns (a: Action)
    requires Reached(net, x0, threads, acts, s) && threads > 1
    requires Shaped(s) && i < |s.levels| && s.levels[i] > 0 && !s.completed[i]
    ensures Enabled(s, a) && !a.Request?
  {
    var aux := ReachedInv(net, x0, threads, acts, s);
    SameThreads(net, Start(net, x0, threads), acts, s);
    if k :| 0 <= k < |s.threads| && !s.threads[k].Idle? {
      assert ThreadOk(net, s, aux, k);
      a := Advance(k);
      if s.threads[k].Pushing? {
        assert Expands(s, k, s.threads[k].pos);
        var t :| t in s.threads[k].rest;
        a := Push(k, t);
      } else {
        CanAdvance(net, s, aux, k);
      }
    } else {
      assert NodeOk(net, s, aux, i);
      assert !SizingAt(s, i);
      var t :| t in OpenOf(aux.places, net.FirableIn(s.graph.sets[i]), i);
      OpenMeans(net, s, aux, Task(i, t));
      a := Pop(1, Task(i, t));
    }
  }

  lemma CanAdvance(net: Net, s: State, aux: Aux, k: nat)
    requires Inv(net, s, aux) && k < |s.threads| && !s.threads[k].Idle? && !s.threads[k].Pushing?
    ensures Enabled(s, Advance(k))
  {
    var p := s.threads[k];
    assert ThreadOk(net, s, aux, k);
    if p.Popped? { assert PlaceOk(s, aux, p.task); }
    if p.Sizing? { assert Expands(s, k, p.pos); }
  }

  lemma StepThreads(net: Net, s: State, a: Action)
    requires Enabled(s, a)
    ensures |Apply(net, s, a).threads| == |s.threads|
  {
  }

  lemma {:induction false} SameThreads(net: Net, s: State, acts: seq<Action>, s': State)
    requires Runs(net, s, acts, s')
    ensures |s'.threads| == |s.threads|
    decreases |acts|
  {
    if acts != [] {
      StepThreads(net, s, acts[0]);
      SameThreads(net, Apply(net, s, acts[0]), acts[1..], s');
    }
  }
}
