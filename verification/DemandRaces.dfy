/** When on-demand expansion pushes a task twice: exactly when two threads have read level 0 of
    one node, and which nets let them. */
module DemandRaces {
  import opened Ldds
  import opened PetriNets
  import opened SogGraphs
  import opened DemandSogs

  // ---- runs of a client that may wait ----

  /** The client asks for a node only when all nodes it asked for before are completed. */
  ghost predicate Waits(net: Net, s: State, acts: seq<Action>)
    decreases |acts|
  {
    acts == [] ||
    (Enabled(s, acts[0]) && (acts[0].Request? ==> AllCompleted(s)) && Waits(net, Apply(net, s, acts[0]), acts[1..]))
  }

  ghost predicate AllCompleted(s: State)
    requires Shaped(s)
  {
    forall i :: 0 <= i < |s.visited| && s.visited[i] ==> s.completed[i]
  }

  /** Some run leads from s to s', with a client that waits if waiting is set. */
  ghost predicate Leads(net: Net, waiting: bool, s: State, s': State) {
    exists acts :: Runs(net, s, acts, s') && (waiting ==> Waits(net, s, acts))
  }

  lemma ConcatStep(net: Net, s: State, acts: seq<Action>, acts': seq<Action>, u: State)
    requires acts != [] && Enabled(s, acts[0]) && Runs(net, Apply(net, s, acts[0]), acts[1..] + acts', u)
    ensures Runs(net, s, acts + acts', u)
    ensures Waits(net, s, acts) && Waits(net, Apply(net, s, acts[0]), acts[1..] + acts') ==> Waits(net, s, acts + acts')
  {
    assert (acts + acts')[1..] == acts[1..] + acts';
  }

  lemma FirstStep(net: Net, s: State, acts: seq<Action>, t: State)
    requires acts != [] && Runs(net, s, acts, t)
    ensures Enabled(s, acts[0]) && Runs(net, Apply(net, s, acts[0]), acts[1..], t)
    ensures Waits(net, s, acts) ==> Waits(net, Apply(net, s, acts[0]), acts[1..])
    ensures Waits(net, s, acts) && acts[0].Request? ==> AllCompleted(s)
  {
  }

  lemma {:induction false} RunsConcat(net: Net, s: State, acts: seq<Action>, t: State, acts': seq<Action>, u: State)
    requires Runs(net, s, acts, t) && Runs(net, t, acts', u)
    ensures Runs(net, s, acts + acts', u)
    ensures Waits(net, s, acts) && Waits(net, t, acts') ==> Waits(net, s, acts + acts')
    decreases |acts|
  {
    if acts == [] {
      assert acts + acts' == acts';
    } else {
      FirstStep(net, s, acts, t);
      RunsConcat(net, Apply(net, s, acts[0]), acts[1..], t, acts', u);
      ConcatStep(net, s, acts, acts', u);
    }
  }

  lemma LeadsTrans(net: Net, waiting: bool, s: State, t: State, u: State)
    requires Leads(net, waiting, s, t) && Leads(net, waiting, t, u)
    ensures Leads(net, waiting, s, u)
  {
    var acts :| Runs(net, s, acts, t) && (waiting ==> Waits(net, s, acts));
    var acts' :| Runs(net, t, acts', u) && (waiting ==> Waits(net, t, acts'));
    RunsConcat(net, s, acts, t, acts', u);
  }

  lemma LeadsSelf(net: Net, waiting: bool, s: State)
    ensures Leads(net, waiting, s, s)
  {
    assert Runs(net, s, [], s) && Waits(net, s, []);
  }

  lemma OneStep(net: Net, waiting: bool, s: State, a: Action)
    requires Enabled(s, a) && (waiting && a.Request? ==> AllCompleted(s))
    ensures Leads(net, waiting, s, Apply(net, s, a))
  {
    var u := Apply(net, s, a);
    assert Runs(net, u, [a][1..], u) && Waits(net, u, [a][1..]);
    assert Runs(net, s, [a], u) && (waiting ==> Waits(net, s, [a]));
  }

  /** One more step. */
  lemma Then(net: Net, waiting: bool, s: State, t: State, a: Action)
    requires Leads(net, waiting, s, t) && Enabled(t, a) && (waiting && a.Request? ==> AllCompleted(t))
    ensures Leads(net, waiting, s, Apply(net, t, a))
  {
    OneStep(net, waiting, t, a);
    LeadsTrans(net, waiting, s, t, Apply(net, t, a));
  }

  // ---- two expansions of one node ----

  /** Two threads have read level 0 of a node that has tasks, and are about to expand it. */
  ghost predicate Clash(net: Net, s: State, k: nat, m: nat, i: nat) {
    Shaped(s) && k != m && About(s, k, i) && About(s, m, i) && Firing(net, s, i)
  }

  /** A thread about to expand a node pushes the task of any transition firable there. */
  lemma Expansion(net: Net, waiting: bool, s: State, k: nat, i: nat, t: nat) returns (s': State)
    requires Shaped(s) && About(s, k, i) && i < |s.levels| && t in net.FirableIn(s.graph.sets[i])
    ensures Leads(net, waiting, s, s') && Shaped(s') && s'.pushed == s.pushed + multiset{Task(i, t)}
    ensures s'.graph == s.graph && |s'.threads| == |s.threads|
    ensures forall m :: 0 <= m < |s.threads| && m != k ==> s'.threads[m] == s.threads[m]
    ensures |s'.levels| == |s.levels| && forall n :: 0 <= n < |s.levels| ==> s.levels[n] <= s'.levels[n]
  {
    var origin := s.threads[k].origin;
    OneStep(net, waiting, s, Advance(k));
    var s1 := Apply(net, s, Advance(k));
    assert s1.threads[k] == Sizing(origin, i);
    Then(net, waiting, s, s1, Advance(k));
    var s2 := Apply(net, s1, Advance(k));
    assert s2.threads[k] == Pushing(origin, i, net.FirableIn(s.graph.sets[i]));
    Then(net, waiting, s, s2, Push(k, t));
    s' := Apply(net, s2, Push(k, t));
  }

  /** Two threads about to expand a node push each of its tasks twice. */
  lemma ClashDoubles(net: Net, waiting: bool, s: State, k: nat, m: nat, i: nat, t: nat) returns (s': State)
    requires Clash(net, s, k, m, i) && t in net.FirableIn(s.graph.sets[i])
    ensures Leads(net, waiting, s, s') && s'.pushed[Task(i, t)] == s.pushed[Task(i, t)] + 2
  {
    var s1 := Expansion(net, waiting, s, k, i, t);
    s' := Expansion(net, waiting, s1, m, i, t);
    LeadsTrans(net, waiting, s, s1, s');
  }

  /** No run pushes a task twice. */
  ghost predicate AlwaysOnce(net: Net, waiting: bool, s0: State) {
    forall s, task {:trigger Leads(net, waiting, s0, s), s.pushed[task]} ::
      Leads(net, waiting, s0, s) ==> s.pushed[task] <= 1
  }

  /** In no run are two threads about to expand the same node with tasks. */
  ghost predicate NeverClash(net: Net, waiting: bool, s0: State) {
    forall s, k: nat, m: nat, i: nat {:trigger Leads(net, waiting, s0, s), Clash(net, s, k, m, i)} ::
      Leads(net, waiting, s0, s) ==> !Clash(net, s, k, m, i)
  }

  /** The step that sets the flag is the second one to read level 0. */
  lemma StepClashes(net: Net, s: State, a: Action) returns (k: nat, m: nat, i: nat)
    requires Enabled(s, a) && !s.overlapped && Apply(net, s, a).overlapped
    ensures Clash(net, Apply(net, s, a), k, m, i)
  {
    var s' := Apply(net, s, a);
    k := a.k;
    i := s'.threads[k].pos;
    assert Contested(net, s, k, i);
    m :| m != k && About(s, m, i);
    assert s'.threads[m] == s.threads[m];
  }

  lemma {:induction false} FlagClashes(net: Net, waiting: bool, s: State, acts: seq<Action>, s': State)
    returns (t: State, k: nat, m: nat, i: nat)
    requires Runs(net, s, acts, s') && (waiting ==> Waits(net, s, acts)) && !s.overlapped && s'.overlapped
    ensures Leads(net, waiting, s, t) && Clash(net, t, k, m, i)
    decreases |acts|
  {
    FirstStep(net, s, acts, s');
    var s1 := Apply(net, s, acts[0]);
    OneStep(net, waiting, s, acts[0]);
    if s1.overlapped {
      t := s1;
      k, m, i := StepClashes(net, s, acts[0]);
    } else {
      t, k, m, i := FlagClashes(net, waiting, s1, acts[1..], s');
      LeadsTrans(net, waiting, s, s1, t);
    }
  }

  /** Tasks are pushed once in all runs if and only if no two threads are ever about to expand
      the same node with tasks. */
  lemma OnceIffApart(net: Net, waiting: bool, x0: Marking, threads: nat)
    requires net.Ok() && x0 in net.Universe() && threads > 0
    ensures AlwaysOnce(net, waiting, Start(net, x0, threads)) <==> NeverClash(net, waiting, Start(net, x0, threads))
  {
    var s0 := Start(net, x0, threads);
    if NeverClash(net, waiting, s0) {
      forall s, task | Leads(net, waiting, s0, s) ensures s.pushed[task] <= 1 {
        var acts :| Runs(net, s0, acts, s) && (waiting ==> Waits(net, s0, acts));
        if s.overlapped { var t, k, m, i := FlagClashes(net, waiting, s0, acts, s); assert false; }
        PushedOnce(net, x0, threads, acts, s, task);
      }
    } else {
      var s, k: nat, m: nat, i: nat :| Leads(net, waiting, s0, s) && Clash(net, s, k, m, i);
      ClashMeansTwice(net, waiting, s0, s, k, m, i);
    }
  }

  lemma ClashMeansTwice(net: Net, waiting: bool, s0: State, s: State, k: nat, m: nat, i: nat)
    requires Leads(net, waiting, s0, s) && Clash(net, s, k, m, i)
    ensures !AlwaysOnce(net, waiting, s0)
  {
    var t :| t in net.FirableIn(s.graph.sets[i]);
    var s' := ClashDoubles(net, waiting, s, k, m, i, t);
    LeadsTrans(net, waiting, s0, s, s');
    assert s'.pushed[Task(i, t)] >= 2;
  }

  // ---- nets in which no clash is possible ----

  /** The transition leads from aggregate c to another one, in which something is firable. */
  ghost predicate Onward(net: Net, c: set<Marking>, t: nat) {
    && net.Ok() && t < |net.transitions| && t in net.FirableIn(c)
    && Successor(net, c, t) != c && net.FirableIn(Successor(net, c, t)) != {}
  }

  /** Only the first node has tasks, and it is expanded; a client alone runs no task. */
  ghost predicate Shallow(net: Net, s: State, c: set<Marking>, alone: bool) {
    && Shaped(s) && 0 < |s.graph.sets| && s.graph.sets[0] == c && s.levels[0] > 0 && !s.overlapped
    && (forall i {:trigger s.graph.sets[i]} :: 1 <= i < |s.graph.sets| ==> net.FirableIn(s.graph.sets[i]) == {})
    && 0 < |s.threads| && (alone ==> |s.threads| == 1 && !s.threads[0].Popped?)
  }

  /** The aggregate a worker inserts is the first one, or nothing is firable in it. */
  lemma ShallowInsert(net: Net, s: State, aux: Aux, c: set<Marking>, alone: bool, k: nat)
    requires Inv(net, s, aux) && Enabled(s, Advance(k)) && s.threads[k].Popped? && Shallow(net, s, c, alone)
    requires alone || forall t :: !Onward(net, c, t)
    ensures Shallow(net, Apply(net, s, Advance(k)), c, alone)
  {
    var task := s.threads[k].task;
    assert ThreadOk(net, s, aux, k) && TaskOk(net, s, aux, task.node, task.t);
    assert task.node == 0 && !Onward(net, c, task.t) && net.Classified(task.t);
    if Meta(net, s, task) == c { assert InGraph(s.graph, c, 0); }
  }

  lemma ShallowStep(net: Net, s: State, aux: Aux, c: set<Marking>, alone: bool, a: Action)
    requires Inv(net, s, aux) && Enabled(s, a) && Shallow(net, s, c, alone)
    requires alone || forall t :: !Onward(net, c, t)
    ensures Shallow(net, Apply(net, s, a), c, alone)
  {
    if a.Advance? && s.threads[a.k].Popped? {
      ShallowInsert(net, s, aux, c, alone, a.k);
    } else {
      NoInsert(net, s, a);
      SameLengths(net, s, a);
      StepThreads(net, s, a);
      if alone { StillAlone(net, s, a); }
      FirstStays(net, s, a);
      NoOverlap(net, s, c, a);
    }
  }

  lemma NoInsert(net: Net, s: State, a: Action)
    requires Enabled(s, a) && !(a.Advance? && s.threads[a.k].Popped?)
    ensures var s' := Apply(net, s, a);
            s'.graph.sets == s.graph.sets && |s'.graph.edges| == |s.graph.edges| && |s'.levels| == |s.levels|
  {
  }

  lemma SameLengths(net: Net, s: State, a: Action)
    requires Enabled(s, a) && !(a.Advance? && s.threads[a.k].Popped?)
    ensures var s' := Apply(net, s, a);
            |s'.pending| == |s.pending| && |s'.completed| == |s.completed| && |s'.visited| == |s.visited|
  {
  }

  lemma StillAlone(net: Net, s: State, a: Action)
    requires Enabled(s, a) && |s.threads| == 1 && !s.threads[0].Popped?
    ensures |Apply(net, s, a).threads| == 1 && !Apply(net, s, a).threads[0].Popped?
  {
    StepThreads(net, s, a);
    if a.Advance? { StepsOn(net, s); }
  }

  lemma StepsOn(net: Net, s: State)
    requires Enabled(s, Advance(0)) && !s.threads[0].Popped?
    ensures 0 < |Step(net, s, 0).threads| && !Step(net, s, 0).threads[0].Popped?
  {
  }

  lemma FirstStays(net: Net, s: State, a: Action)
    requires Enabled(s, a) && 0 < |s.levels| && s.levels[0] > 0
    ensures 0 < |Apply(net, s, a).levels| && Apply(net, s, a).levels[0] > 0
  {
  }

  /** A thread reads level 0 of a node without tasks only. */
  lemma NoOverlap(net: Net, s: State, c: set<Marking>, a: Action)
    requires Enabled(s, a) && Shallow(net, s, c, false)
    ensures !Apply(net, s, a).overlapped
  {
    if a.Advance? && (s.threads[a.k].Checked? || s.threads[a.k].Asked?) {
      var pos := if s.threads[a.k].Checked? then s.threads[a.k].pos else s.threads[a.k].node;
      if s.levels[pos] == 0 { assert !Firing(net, s, pos); }
    }
  }

  lemma {:induction false} ShallowRun(net: Net, s: State, aux: Aux, c: set<Marking>, alone: bool,
          acts: seq<Action>, s': State)
    requires Inv(net, s, aux) && Runs(net, s, acts, s') && Shallow(net, s, c, alone)
    requires alone || forall t :: !Onward(net, c, t)
    ensures Shallow(net, s', c, alone)
    decreases |acts|
  {
    if acts != [] {
      FirstStep(net, s, acts, s');
      ShallowStep(net, s, aux, c, alone, acts[0]);
      var aux' := StepInv(net, s, aux, acts[0]);
      ShallowRun(net, Apply(net, s, acts[0]), aux', c, alone, acts[1..], s');
    }
  }

  /** Without workers, or without an onward transition from the initial aggregate, every run is
      one of those that the theorems about on-demand construction speak of. */
  lemma AlwaysReached(net: Net, x0: Marking, threads: nat, acts: seq<Action>, s: State)
    requires net.Ok() && x0 in net.Universe() && threads > 0 && Runs(net, Start(net, x0, threads), acts, s)
    requires threads == 1 || forall t :: !Onward(net, net.Closure({x0}), t)
    ensures Reached(net, x0, threads, acts, s)
  {
    var aux := StartInv(net, x0, threads);
    ShallowRun(net, Start(net, x0, threads), aux, net.Closure({x0}), threads == 1, acts, s);
  }

  // ---- the client meets a worker ----

  /** Thread k pushes all its tasks. */
  lemma {:induction false} PushAll(net: Net, waiting: bool, s: State, k: nat) returns (s': State)
    requires Shaped(s) && k < |s.threads| && s.threads[k].Pushing? && s.threads[k].rest != {}
    ensures Leads(net, waiting, s, s')
    ensures s' == To(s, k, Idle).(queue := s'.queue, pushed := s'.pushed) && s.queue <= s'.queue
    ensures forall t :: t in s.threads[k].rest ==> Task(s.threads[k].pos, t) in s'.queue
    decreases s.threads[k].rest
  {
    var t :| t in s.threads[k].rest;
    OneStep(net, waiting, s, Push(k, t));
    s' := Apply(net, s, Push(k, t));
    var s1 := s';
    if s1.threads[k].Pushing? {
      s' := PushAll(net, waiting, s1, k);
      LeadsTrans(net, waiting, s, s1, s');
      assert s'.threads == s.threads[k := Idle];
    } else {
      assert s.threads[k].rest == {t};
    }
  }

  /** Client and first worker are idle, the first node has the tasks R left, all queued, and no
      node has aggregate c yet. */
  ghost predicate Left(net: Net, s: State, c0: set<Marking>, c: set<Marking>, R: set<nat>) {
    && Shaped(s) && 2 <= |s.threads| && s.threads[0].Idle? && s.threads[1].Idle?
    && 0 < |s.graph.sets| && s.graph.sets[0] == c0 && c !in s.graph.sets
    && s.levels[0] == LEVEL && s.pending[0] == |R| && (forall i :: 1 <= i < |s.visited| ==> !s.visited[i])
    && R <= net.FirableIn(c0) && forall t :: t in R ==> Task(0, t) in s.queue
  }

  /** A worker takes a task of the first node and finds or stores its aggregate. */
  lemma Take(net: Net, waiting: bool, s: State, c0: set<Marking>, c: set<Marking>, R: set<nat>, t: nat)
    returns (s': State, pos: nat)
    requires net.Ok() && Left(net, s, c0, c, R) && t in R && t < |net.transitions|
    ensures Leads(net, waiting, s, s') && Shaped(s') && s'.threads == s.threads[1 := Found(Task(0, t), pos)]
    ensures s'.queue == s.queue - multiset{Task(0, t)} && s'.pushed == s.pushed
    ensures pos < |s'.graph.sets| && s'.graph.sets[pos] == Successor(net, c0, t)
    ensures Successor(net, c0, t) == c ==> pos == |s.graph.sets|
    ensures s'.graph.sets == s.graph.sets ||
      (pos == |s.graph.sets| && s'.graph.sets == s.graph.sets + [s'.graph.sets[pos]])
    ensures s'.levels == if pos < |s.levels| then s.levels else s.levels + [0]
    ensures s'.pending[0] == s.pending[0]
    ensures forall i :: 1 <= i < |s'.visited| ==> !s'.visited[i]
    ensures s'.visited[0] == s.visited[0]
  {
    OneStep(net, waiting, s, Pop(1, Task(0, t)));
    var s1 := Apply(net, s, Pop(1, Task(0, t)));
    Then(net, waiting, s, s1, Advance(1));
    s' := Apply(net, s1, Advance(1));
    pos := Lookup(s1.graph, Meta(net, s1, Task(0, t)));
  }

  /** A worker adds its edge, counts its task and tests the counter. */
  lemma ToTest(net: Net, waiting: bool, s: State, k: nat, task: Task, pos: nat) returns (s': State)
    requires Shaped(s) && k < |s.threads| && s.threads[k] == Found(task, pos) && task.node < |s.levels|
    ensures Leads(net, waiting, s, s') && Shaped(s') && s'.threads == s.threads[k := Checked(task, pos)]
    ensures s'.graph.sets == s.graph.sets && s'.levels == s.levels && s'.queue == s.queue
    ensures s'.visited == s.visited
    ensures s'.pending == s.pending[task.node := Decremented(s.pending[task.node])]
    ensures Decremented(s.pending[task.node]) == 0 ==> s'.completed[task.node]
  {
    OneStep(net, waiting, s, Advance(k));
    var s1 := Apply(net, s, Advance(k));
    Then(net, waiting, s, s1, Advance(k));
    var s2 := Apply(net, s1, Advance(k));
    Then(net, waiting, s, s2, Advance(k));
    s' := Apply(net, s2, Advance(k));
  }

  /** A worker that has processed a task of the first node expands the node it led to, if that
      is not yet done, and is idle again. */
  lemma Ahead(net: Net, waiting: bool, s: State, k: nat, task: Task, pos: nat) returns (s': State)
    requires Shaped(s) && k < |s.threads| && s.threads[k] == Checked(task, pos)
    requires task.node == 0 && pos < |s.levels| && s.levels[0] == LEVEL
    ensures Leads(net, waiting, s, s') && Shaped(s') && s'.threads == s.threads[k := Idle]
    ensures s'.graph == s.graph && s'.visited == s.visited && s.queue <= s'.queue
    ensures s'.levels[0] == LEVEL && s'.pending[0] == s.pending[0]
  {
    OneStep(net, waiting, s, Advance(k));
    s' := Apply(net, s, Advance(k));
    if s'.threads[k].Leveling? {
      var s1 := s';
      s' := Window(net, waiting, s1, k, task, pos);
      LeadsTrans(net, waiting, s, s1, s');
    }
  }

  lemma Window(net: Net, waiting: bool, s: State, k: nat, task: Task, pos: nat) returns (s': State)
    requires Shaped(s) && k < |s.threads| && s.threads[k] == Leveling(Worker(task), pos)
    requires task.node == 0 && 0 < pos < |s.levels| && s.levels[0] == LEVEL
    ensures Leads(net, waiting, s, s') && Shaped(s') && s'.threads == s.threads[k := Idle]
    ensures s'.graph == s.graph && s'.visited == s.visited && s.queue <= s'.queue
    ensures s'.levels[0] == LEVEL && s'.pending[0] == s.pending[0]
  {
    OneStep(net, waiting, s, Advance(k));
    var s1 := Apply(net, s, Advance(k));
    assert s1.threads[k] == Sizing(Worker(task), pos);
    Then(net, waiting, s, s1, Advance(k));
    s' := Apply(net, s1, Advance(k));
    if s'.threads[k].Pushing? {
      var s2 := s';
      s' := PushAll(net, waiting, s2, k);
      LeadsTrans(net, waiting, s, s2, s');
    }
  }

  /** The first worker processes one task that leads elsewhere. */
  lemma OneTask(net: Net, waiting: bool, s: State, c0: set<Marking>, c: set<Marking>, R: set<nat>, t: nat)
    returns (s': State)
    requires net.Ok() && Left(net, s, c0, c, R) && t in R && t < |net.transitions| && Successor(net, c0, t) != c
    ensures Leads(net, waiting, s, s') && Left(net, s', c0, c, R - {t})
  {
    var s1, pos := Take(net, waiting, s, c0, c, R, t);
    var s2 := ToTest(net, waiting, s1, 1, Task(0, t), pos);
    LeadsTrans(net, waiting, s, s1, s2);
    s' := Ahead(net, waiting, s2, 1, Task(0, t), pos);
    LeadsTrans(net, waiting, s, s2, s');
    assert |R - {t}| == |R| - 1;
    forall u | u in R - {t} ensures Task(0, u) in s'.queue { assert Task(0, u) in s1.queue; }
  }

  /** It processes all but the one task that leads to c. */
  lemma {:induction false} AllButOne(net: Net, waiting: bool, s: State, c0: set<Marking>, c: set<Marking>,
          R: set<nat>, t: nat) returns (s': State)
    requires net.Ok() && Left(net, s, c0, c, R) && t in R
    requires forall u :: u in R && u != t ==> u < |net.transitions| && Successor(net, c0, u) != c
    ensures Leads(net, waiting, s, s') && Left(net, s', c0, c, {t})
    decreases R
  {
    if R == {t} {
      LeadsSelf(net, waiting, s);
      s' := s;
    } else {
      var u :| u in R && u != t;
      var s1 := OneTask(net, waiting, s, c0, c, R, u);
      s' := AllButOne(net, waiting, s1, c0, c, R - {u}, t);
      LeadsTrans(net, waiting, s, s1, s');
    }
  }

  /** The worker of a task that leads to c has read level 0 of the new node; then the client asks
      for that node and reads level 0 too.  A waiting client can, if the task was the last one. */
  lemma Meet(net: Net, waiting: bool, s: State, c0: set<Marking>, c: set<Marking>, R: set<nat>, t: nat)
    returns (s': State, pos: nat)
    requires Left(net, s, c0, c, R) && t in R && (waiting ==> R == {t})
    requires Onward(net, c0, t) && c == Successor(net, c0, t)
    ensures Leads(net, waiting, s, s') && Clash(net, s', 0, 1, pos)
  {
    var s1;
    s1, pos := ToNew(net, waiting, s, c0, c, R, t);
    s' := BothAsk(net, waiting, s1, Task(0, t), pos);
    LeadsTrans(net, waiting, s, s1, s');
  }

  /** The worker has stored the new node, and is to read its level. */
  lemma ToNew(net: Net, waiting: bool, s: State, c0: set<Marking>, c: set<Marking>, R: set<nat>, t: nat)
    returns (s': State, pos: nat)
    requires Left(net, s, c0, c, R) && t in R && (waiting ==> R == {t})
    requires Onward(net, c0, t) && c == Successor(net, c0, t)
    ensures Leads(net, waiting, s, s') && Shaped(s') && 0 < pos < |s'.levels| && s'.levels[pos] == 0
    ensures s'.threads == s.threads[1 := Checked(Task(0, t), pos)] && s'.levels[0] == LEVEL
    ensures Firing(net, s', pos) && !s'.visited[pos] && (waiting ==> AllCompleted(s'))
  {
    var s1;
    s1, pos := Take(net, waiting, s, c0, c, R, t);
    assert s1.levels[pos] == 0;
    s' := ToTest(net, waiting, s1, 1, Task(0, t), pos);
    LeadsTrans(net, waiting, s, s1, s');
    if waiting { FirstOnly(s', s1.pending[0]); }
  }

  lemma FirstOnly(s: State, pending: nat)
    requires Shaped(s) && 0 < |s.completed| && pending == 1
    requires Decremented(pending) == 0 ==> s.completed[0]
    requires forall i :: 1 <= i < |s.visited| ==> !s.visited[i]
    ensures AllCompleted(s)
  {
  }

  lemma BothAsk(net: Net, waiting: bool, s: State, task: Task, pos: nat) returns (s': State)
    requires Shaped(s) && 2 <= |s.threads| && s.threads[0].Idle? && s.threads[1] == Checked(task, pos)
    requires task.node < |s.levels| && s.levels[task.node] == LEVEL && pos < |s.levels| && s.levels[pos] == 0
    requires Firing(net, s, pos) && !s.visited[pos] && (waiting ==> AllCompleted(s))
    ensures Leads(net, waiting, s, s') && Clash(net, s', 0, 1, pos)
  {
    OneStep(net, waiting, s, Advance(1));
    var s1 := Apply(net, s, Advance(1));
    assert About(s1, 1, pos);
    Then(net, waiting, s, s1, Request(pos));
    var s2 := Apply(net, s1, Request(pos));
    Then(net, waiting, s, s2, Advance(0));
    s' := Apply(net, s2, Advance(0));
    assert About(s', 0, pos) && About(s', 1, pos);
  }

  /** The client has queued the tasks of the first node. */
  lemma Queued(net: Net, waiting: bool, x0: Marking, threads: nat, c: set<Marking>) returns (s: State)
    requires net.Ok() && 2 <= threads && c != net.Closure({x0}) && net.FirableIn(net.Closure({x0})) != {}
    ensures Leads(net, waiting, Start(net, x0, threads), s)
    ensures Left(net, s, net.Closure({x0}), c, net.FirableIn(net.Closure({x0}))) && |s.threads| == threads
  {
    s := PushAll(net, waiting, Start(net, x0, threads), 0);
  }

  /** Tasks are pushed once in all runs if and only if there is no worker, or no observable
      transition leads from the initial aggregate to another one in which something is firable. */
  lemma OnceIffShallow(net: Net, x0: Marking, threads: nat)
    requires net.Ok() && x0 in net.Universe() && threads > 0
    ensures AlwaysOnce(net, false, Start(net, x0, threads)) <==>
              threads == 1 || forall t :: !Onward(net, net.Closure({x0}), t)
  {
    var c0 := net.Closure({x0});
    if threads == 1 || forall t :: !Onward(net, c0, t) {
      ShallowOnce(net, false, x0, threads);
    } else {
      var t :| Onward(net, c0, t);
      var c := Successor(net, c0, t);
      var s1 := Queued(net, false, x0, threads, c);
      var s2, pos := Meet(net, false, s1, c0, c, net.FirableIn(c0), t);
      LeadsTrans(net, false, Start(net, x0, threads), s1, s2);
      ClashMeansTwice(net, false, Start(net, x0, threads), s2, 0, 1, pos);
    }
  }

  lemma ShallowOnce(net: Net, waiting: bool, x0: Marking, threads: nat)
    requires net.Ok() && x0 in net.Universe() && threads > 0
    requires threads == 1 || forall t :: !Onward(net, net.Closure({x0}), t)
    ensures AlwaysOnce(net, waiting, Start(net, x0, threads))
  {
    var s0 := Start(net, x0, threads);
    forall s, task | Leads(net, waiting, s0, s) ensures s.pushed[task] <= 1 {
      var acts :| Runs(net, s0, acts, s) && (waiting ==> Waits(net, s0, acts));
      AlwaysReached(net, x0, threads, acts, s);
      PushedOnce(net, x0, threads, acts, s, task);
    }
  }

  // ---- two workers meet ----

  /** Two transitions lead from the initial aggregate to one other aggregate. */
  ghost predicate Fork(net: Net, c0: set<Marking>, t: nat, t': nat) {
    && net.Ok() && t != t' && t < |net.transitions| && t' < |net.transitions|
    && {t, t'} <= net.FirableIn(c0) && Successor(net, c0, t) == Successor(net, c0, t') != c0
  }

  /** Both tasks are pushed, and each is taken by a worker. */
  lemma BothPopped(net: Net, x0: Marking, threads: nat, t: nat, t': nat) returns (s: State)
    requires 3 <= threads && Fork(net, net.Closure({x0}), t, t')
    ensures Leads(net, true, Start(net, x0, threads), s) && Shaped(s) && |s.threads| == threads
    ensures s.threads[1] == Popped(Task(0, t)) && s.threads[2] == Popped(Task(0, t'))
    ensures s.graph == Graph([net.Closure({x0})], [[]])
    ensures s.levels == [LEVEL] && s.pending == [|net.FirableIn(net.Closure({x0}))|]
  {
    var s0 := Start(net, x0, threads);
    OneStep(net, true, s0, Push(0, t));
    var s1 := Apply(net, s0, Push(0, t));
    assert t' in net.FirableIn(net.Closure({x0})) - {t};
    Then(net, true, s0, s1, Push(0, t'));
    var s2 := Apply(net, s1, Push(0, t'));
    Then(net, true, s0, s2, Pop(1, Task(0, t)));
    var s3 := Apply(net, s2, Pop(1, Task(0, t)));
    Then(net, true, s0, s3, Pop(2, Task(0, t')));
    s := Apply(net, s3, Pop(2, Task(0, t')));
  }

  /** The first worker stores the aggregate, the second finds it. */
  lemma BothFound(net: Net, c0: set<Marking>, t: nat, t': nat, s: State) returns (s': State)
    requires Fork(net, c0, t, t') && Shaped(s) && 3 <= |s.threads|
    requires s.threads[1] == Popped(Task(0, t)) && s.threads[2] == Popped(Task(0, t'))
    requires s.graph == Graph([c0], [[]]) && s.levels == [LEVEL]
    ensures Leads(net, true, s, s') && Shaped(s') && |s'.threads| == |s.threads|
    ensures s'.threads[1] == Found(Task(0, t), 1) && s'.threads[2] == Found(Task(0, t'), 1)
    ensures s'.graph.sets == [c0, Successor(net, c0, t)] && s'.levels == [LEVEL, 0]
  {
    var c := Successor(net, c0, t);
    assert Meta(net, s, Task(0, t)) == c && !(exists i: nat :: InGraph(s.graph, c, i));
    OneStep(net, true, s, Advance(1));
    var s1 := Apply(net, s, Advance(1));
    assert s1.graph.sets == [c0, c] && s1.levels == [LEVEL, 0];
    assert Meta(net, s1, Task(0, t')) == c && InGraph(s1.graph, c, 1) && !InGraph(s1.graph, c, 0);
    assert Lookup(s1.graph, c) == 1;
    Then(net, true, s, s1, Advance(2));
    s' := Apply(net, s1, Advance(2));
  }

  /** Both workers read level 0 of the new node. */
  lemma BothAbout(net: Net, x0: Marking, threads: nat, t: nat, t': nat) returns (s: State)
    requires 3 <= threads && Fork(net, net.Closure({x0}), t, t')
    requires net.FirableIn(Successor(net, net.Closure({x0}), t)) != {}
    ensures Leads(net, true, Start(net, x0, threads), s) && Clash(net, s, 1, 2, 1)
  {
    var s0 := Start(net, x0, threads);
    var s1 := BothPopped(net, x0, threads, t, t');
    var s2 := BothFound(net, net.Closure({x0}), t, t', s1);
    LeadsTrans(net, true, s0, s1, s2);
    var s3 := ToTest(net, true, s2, 1, Task(0, t), 1);
    LeadsTrans(net, true, s0, s2, s3);
    var s4 := ToTest(net, true, s3, 2, Task(0, t'), 1);
    LeadsTrans(net, true, s0, s3, s4);
    s := BothRead(net, s4, Task(0, t), Task(0, t'));
    LeadsTrans(net, true, s0, s4, s);
  }

  lemma BothRead(net: Net, s: State, task: Task, task': Task) returns (s': State)
    requires Shaped(s) && 3 <= |s.threads| && s.levels == [LEVEL, 0] && Firing(net, s, 1)
    requires s.threads[1] == Checked(task, 1) && s.threads[2] == Checked(task', 1) && task.node == task'.node == 0
    ensures Leads(net, true, s, s') && Clash(net, s', 1, 2, 1)
  {
    OneStep(net, true, s, Advance(1));
    var s1 := Apply(net, s, Advance(1));
    assert About(s1, 1, 1);
    Then(net, true, s, s1, Advance(2));
    s' := Apply(net, s1, Advance(2));
    assert About(s', 1, 1) && About(s', 2, 1);
  }

  /** With two workers, every fork to an aggregate with a firable transition has a run that
      pushes a task twice, without the client asking for anything. */
  lemma ForkDoubles(net: Net, x0: Marking, threads: nat, t: nat, t': nat)
    requires 3 <= threads && Fork(net, net.Closure({x0}), t, t')
    requires net.FirableIn(Successor(net, net.Closure({x0}), t)) != {}
    ensures !AlwaysOnce(net, true, Start(net, x0, threads))
  {
    var s := BothAbout(net, x0, threads, t, t');
    ClashMeansTwice(net, true, Start(net, x0, threads), s, 1, 2, 1);
  }

  // ---- a client that waits ----

  /** The transition leads on, and no other one leads to the same aggregate. */
  ghost predicate Single(net: Net, c: set<Marking>, t: nat) {
    Onward(net, c, t) && forall t' :: t' != t ==> !Fork(net, c, t, t')
  }

  /** The same is exact of runs in which the client waits for each node it asks for, unless a
      single worker expands the targets of forks while the client still waits for the first node. */
  lemma WaitingOnceIffShallow(net: Net, x0: Marking, threads: nat)
    requires net.Ok() && x0 in net.Universe() && threads > 0
    requires threads == 2 ==>
      (exists t :: Single(net, net.Closure({x0}), t)) || forall t :: !Onward(net, net.Closure({x0}), t)
    ensures AlwaysOnce(net, true, Start(net, x0, threads)) <==>
              threads == 1 || forall t :: !Onward(net, net.Closure({x0}), t)
  {
    var c0 := net.Closure({x0});
    if threads == 1 || forall t :: !Onward(net, c0, t) {
      ShallowOnce(net, true, x0, threads);
    } else {
      if t :| Single(net, c0, t) {
        LastDoubles(net, x0, threads, t);
      } else {
        var t :| Onward(net, c0, t);
        assert !Single(net, c0, t);
        var t' :| Fork(net, c0, t, t');
        ForkDoubles(net, x0, threads, t, t');
      }
    }
  }

  /** The only transition to an aggregate in which something is firable: its task is the last one
      processed, and the client asks for the new node as soon as the first one is completed. */
  lemma LastDoubles(net: Net, x0: Marking, threads: nat, t: nat)
    requires net.Ok() && 2 <= threads && Single(net, net.Closure({x0}), t)
    ensures !AlwaysOnce(net, true, Start(net, x0, threads))
  {
    var s0, c0 := Start(net, x0, threads), net.Closure({x0});
    var c := Successor(net, c0, t);
    var s1 := Queued(net, true, x0, threads, c);
    forall u | u in net.FirableIn(c0) && u != t ensures u < |net.transitions| && Successor(net, c0, u) != c {
      assert net.Classified(u) && !Fork(net, c0, t, u);
    }
    var s2 := AllButOne(net, true, s1, c0, c, net.FirableIn(c0), t);
    LeadsTrans(net, true, s0, s1, s2);
    var s3, pos := Meet(net, true, s2, c0, c, {t}, t);
    LeadsTrans(net, true, s0, s2, s3);
    ClashMeansTwice(net, true, s0, s3, 0, 1, pos);
  }

  lemma NoHiddenClosure(net: Net, s: set<Marking>)
    requires net.Ok() && net.hidden == [] && s <= net.Universe()
    ensures net.Closure(s) == s
  {
    if y :| y in net.Image(s) {
      var x := net.ImageFrom(s, y);
      assert false;
    }
    net.ClosureOfClosed(s);
  }

  /** For example: one place, and one transition that adds a token to it. */
  lemma SomeDouble() returns (net: Net, x0: Marking)
    ensures net.Ok() && x0 in net.Universe()
    ensures forall threads: nat :: 2 <= threads ==> !AlwaysOnce(net, true, Start(net, x0, threads))
  {
    net, x0 := Net(1, [Transition([0], [1])], [], [0]), [0];
    Adder(net);
    forall threads: nat | 2 <= threads ensures !AlwaysOnce(net, true, Start(net, x0, threads)) {
      LastDoubles(net, x0, threads, 0);
    }
  }

  lemma Adder(net: Net)
    requires net == Net(1, [Transition([0], [1])], [], [0])
    ensures net.Ok() && [0] in net.Universe() && Single(net, net.Closure({[0]}), 0)
  {
    AdderOk(net);
    NoHiddenClosure(net, {[0]});
    NoHiddenClosure(net, {[1]});
    AddsOne(net);
    assert Successor(net, {[0]}, 0) == {[1]} != {[0]} by { assert [1] in {[1]} && [1] !in {[0]}; }
    assert Onward(net, {[0]}, 0);
  }

  lemma AdderOk(net: Net)
    requires net == Net(1, [Transition([0], [1])], [], [0])
    ensures net.Ok() && [0] in net.Universe() && [1] in net.Universe() && 0 in net.visible
  {
    assert net.visible[0] == 0;
    assert forall t :: t in net.visible <==> t == 0;
    assert net.TransitionOk(0) && forall t :: net.Classified(t);
  }

  lemma AddsOne(net: Net)
    requires net.Ok() && net.places == 1 && net.transitions == [Transition([0], [1])] && 0 in net.visible
    ensures net.FireAll({[0]}, 0) == {[1]} && 0 in net.FirableIn({[0]}) && 0 in net.FirableIn({[1]})
  {
    assert net.Enabled([0], 0) && net.Enabled([1], 0) && net.Fire([0], 0) == [1];
    net.FireAllMembers({[0]}, 0);
    assert [0] in {[0]} && [1] in {[1]};
    assert net.FirableAt({[0]}, 0) && net.FirableAt({[1]}, 0);
  }
}
