/** Petri nets with observable and unobservable transitions, and what unobservable firings
    can reach.  Token counts are 32-bit unsigned words, as in the program, so the markings
    of a net form a finite set whatever the net does; on a bounded net, firing sequences are
    the ordinary ones (BoundedRun). */
module PetriNets {
  import opened Ldds

  datatype Transition = Transition(minus: Marking, plus: Marking)

  ghost predicate AreAll(n: nat, s: set<Marking>) {
    forall x {:trigger x in s} :: x in s <==> |x| == n && InRange(x)
  }

  lemma {:induction false} AllExist(n: nat)
    ensures exists s :: AreAll(n, s)
  {
    if n == 0 {
      assert AreAll(n, {[]});
    } else {
      AllExist(n - 1);
      var s :| AreAll(n - 1, s);
      var t := set v: nat, y | v < TOKENS && y in s :: [v] + y;
      forall x ensures x in t <==> |x| == n && InRange(x) {
        if |x| == n && InRange(x) { assert x == [x[0]] + x[1..] && x[1..] in s; }
      }
      assert AreAll(n, t);
    }
  }

  /** All markings of n places. */
  ghost function AllMarkings(n: nat): (s: set<Marking>)
    ensures AreAll(n, s)
  {
    AllExist(n);
    var s :| AreAll(n, s);
    s
  }

  /** hidden and visible list the unobservable and the observable transitions. */
  datatype Net = Net(places: nat, transitions: seq<Transition>, hidden: seq<nat>, visible: seq<nat>)
  {
    ghost predicate TransitionOk(t: nat)
      requires t < |transitions|
    {
      && |transitions[t].minus| == |transitions[t].plus| == places
      && InRange(transitions[t].minus) && InRange(transitions[t].plus)
    }

    /** Every transition is observable or unobservable, none is both, and there are no others. */
    ghost predicate Classified(t: nat) {
      && (t in hidden <==> t < |transitions| && t !in visible)
      && (t in visible ==> t < |transitions|)
    }

    ghost predicate Ok() {
      && (forall t {:trigger TransitionOk(t)} :: 0 <= t < |transitions| ==> TransitionOk(t))
      && (forall t {:trigger Classified(t)} :: Classified(t))
    }

    ghost function Universe(): set<Marking> { AllMarkings(places) }

    predicate Enabled(x: Marking, t: nat) {
      && t < |transitions| && |transitions[t].plus| == |x|
      && Covers(x, transitions[t].minus)
    }

    function Fire(x: Marking, t: nat): Marking
      requires Enabled(x, t)
    {
      FireMarking(x, transitions[t].minus, transitions[t].plus)
    }

    /** The firing sequence u leads from x to y. */
    predicate Run(x: Marking, u: seq<nat>, y: Marking)
      decreases |u|
    {
      if u == [] then x == y else Enabled(x, u[0]) && Run(Fire(x, u[0]), u[1..], y)
    }

    ghost predicate Silent(u: seq<nat>) {
      forall i :: 0 <= i < |u| ==> u[i] in hidden
    }

    /** y is reached from x by unobservable firings. */
    ghost predicate Eps(x: Marking, y: Marking) {
      exists u :: Silent(u) && Run(x, u, y)
    }

    ghost predicate StepBy(t: nat, x: Marking, y: Marking) {
      t in hidden && Enabled(x, t) && y == Fire(x, t)
    }

    /** One unobservable firing. */
    ghost predicate Step(x: Marking, y: Marking) {
      exists t :: StepBy(t, x, y)
    }

    /** Successors of s by one observable or unobservable transition. */
    function FireAll(s: set<Marking>, t: nat): (r: set<Marking>)
      requires t < |transitions| && |transitions[t].minus| == |transitions[t].plus|
    {
      FireSet(s, transitions[t].minus, transitions[t].plus)
    }

    ghost predicate Stepped(s: set<Marking>, y: Marking) {
      y in Universe() && exists x :: x in s && Step(x, y)
    }

    ghost predicate IsImage(s: set<Marking>, c: set<Marking>) {
      forall y {:trigger Stepped(s, y)} :: y in c <==> Stepped(s, y)
    }

    /** Successors of s by one unobservable firing. */
    ghost function Image(s: set<Marking>): (c: set<Marking>)
      ensures IsImage(s, c) && c <= Universe()
    {
      var c := set y | y in Universe() && Stepped(s, y);
      assert IsImage(s, c) && c <= Universe();
      var c :| IsImage(s, c) && c <= Universe();
      c
    }

    ghost predicate Reached(s: set<Marking>, y: Marking) {
      y in Universe() && exists x :: x in s && Eps(x, y)
    }

    ghost predicate IsClosure(s: set<Marking>, c: set<Marking>) {
      forall y {:trigger Reached(s, y)} :: y in c <==> Reached(s, y)
    }

    /** Everything unobservable firings can reach from s. */
    ghost function Closure(s: set<Marking>): (c: set<Marking>)
      ensures IsClosure(s, c) && c <= Universe()
    {
      var c := set y | y in Universe() && Reached(s, y);
      assert IsClosure(s, c) && c <= Universe();
      var c :| IsClosure(s, c) && c <= Universe();
      c
    }

    // ---- firing ----

    /** The ordinary firing rule, over unbounded token counts. */
    function OrdinaryFire(x: Marking, t: nat): (y: Marking)
      requires Enabled(x, t)
      ensures |y| == |x|
    {
      var tr := transitions[t];
      seq(|x|, i requires 0 <= i < |x| && |tr.plus| == |x| && Covers(x, tr.minus) => x[i] - tr.minus[i] + tr.plus[i])
    }

    predicate OrdinaryRun(x: Marking, u: seq<nat>, y: Marking)
      decreases |u|
    {
      if u == [] then x == y else Enabled(x, u[0]) && OrdinaryRun(OrdinaryFire(x, u[0]), u[1..], y)
    }

    /** No marking reached from x by ordinary firing overflows 32 bits. */
    ghost predicate Bounded(x: Marking) {
      forall u, y :: OrdinaryRun(x, u, y) ==> InRange(y)
    }

    lemma BoundedNext(x: Marking, t: nat)
      requires Bounded(x) && Enabled(x, t)
      ensures Bounded(OrdinaryFire(x, t)) && OrdinaryFire(x, t) == Fire(x, t)
    {
      var z := OrdinaryFire(x, t);
      forall u, y | OrdinaryRun(z, u, y) ensures InRange(y) {
        assert ([t] + u)[1..] == u;
        assert OrdinaryRun(x, [t] + u, y);
      }
      assert OrdinaryRun(z, [], z);
    }

    /** On a bounded net, the program's firing sequences are those of the ordinary rule. */
    lemma {:induction false} BoundedRun(x: Marking, u: seq<nat>, y: Marking)
      requires Bounded(x)
      ensures Run(x, u, y) <==> OrdinaryRun(x, u, y)
      decreases |u|
    {
      if u != [] && Enabled(x, u[0]) {
        BoundedNext(x, u[0]);
        BoundedRun(Fire(x, u[0]), u[1..], y);
      }
    }

    lemma FireInside(x: Marking, t: nat)
      requires Ok() && x in Universe() && Enabled(x, t)
      ensures Fire(x, t) in Universe()
    {
    }

    lemma {:induction false} RunInside(x: Marking, u: seq<nat>, y: Marking)
      requires Ok() && x in Universe() && Run(x, u, y)
      ensures y in Universe()
      decreases |u|
    {
      if u != [] {
        FireInside(x, u[0]);
        RunInside(Fire(x, u[0]), u[1..], y);
      }
    }

    lemma {:induction false} RunConcat(x: Marking, u: seq<nat>, y: Marking, v: seq<nat>, z: Marking)
      requires Run(x, u, y) && Run(y, v, z)
      ensures Run(x, u + v, z)
      decreases |u|
    {
      if u == [] {
        assert u + v == v;
      } else {
        RunConcat(Fire(x, u[0]), u[1..], y, v, z);
        assert (u + v)[1..] == u[1..] + v;
      }
    }

    lemma {:induction false} RunSplit(x: Marking, u: seq<nat>, v: seq<nat>, z: Marking) returns (y: Marking)
      requires Run(x, u + v, z)
      ensures Run(x, u, y) && Run(y, v, z)
      decreases |u|
    {
      if u == [] {
        assert u + v == v;
        return x;
      }
      assert (u + v)[1..] == u[1..] + v;
      y := RunSplit(Fire(x, u[0]), u[1..], v, z);
    }

    // ---- unobservable reachability ----

    lemma EpsSelf(x: Marking)
      ensures Eps(x, x)
    {
      assert Silent([]) && Run(x, [], x);
    }

    lemma EpsTrans(x: Marking, y: Marking, z: Marking)
      requires Eps(x, y) && Eps(y, z)
      ensures Eps(x, z)
    {
      var u :| Silent(u) && Run(x, u, y);
      var v :| Silent(v) && Run(y, v, z);
      RunConcat(x, u, y, v, z);
      assert Silent(u + v);
    }

    lemma StepEps(x: Marking, y: Marking)
      requires Step(x, y)
      ensures Eps(x, y)
    {
      var t :| StepBy(t, x, y);
      assert Run(y, [t][1..], y);
      assert Silent([t]) && Run(x, [t], y);
    }

    /** A non-trivial path has a last step. */
    lemma LastStep(x: Marking, y: Marking) returns (z: Marking)
      requires Eps(x, y) && x != y
      ensures Eps(x, z) && Step(z, y)
    {
      var u :| Silent(u) && Run(x, u, y);
      var n := |u| - 1;
      assert u == u[..n] + u[n..];
      z := RunSplit(x, u[..n], u[n..], y);
      assert Silent(u[..n]);
      assert StepBy(u[n], z, y);
    }

    lemma EpsInside(x: Marking, y: Marking)
      requires Ok() && x in Universe() && Eps(x, y)
      ensures y in Universe()
    {
      var u :| Silent(u) && Run(x, u, y);
      RunInside(x, u, y);
    }

    lemma StepInside(x: Marking, y: Marking)
      requires Ok() && x in Universe() && Step(x, y)
      ensures y in Universe()
    {
      StepEps(x, y);
      EpsInside(x, y);
    }

    // ---- members of images and closures ----

    lemma InImage(s: set<Marking>, x: Marking, y: Marking)
      requires Ok() && x in s && x in Universe() && Step(x, y)
      ensures y in Image(s)
    {
      StepInside(x, y);
      assert Stepped(s, y);
    }

    lemma ImageFrom(s: set<Marking>, y: Marking) returns (x: Marking)
      requires y in Image(s)
      ensures x in s && Step(x, y)
    {
      assert Stepped(s, y);
      x :| x in s && Step(x, y);
    }

    lemma InClosure(s: set<Marking>, x: Marking, y: Marking)
      requires Ok() && x in s && x in Universe() && Eps(x, y)
      ensures y in Closure(s)
    {
      EpsInside(x, y);
      assert Reached(s, y);
    }

    lemma ClosureFrom(s: set<Marking>, y: Marking) returns (x: Marking)
      requires y in Closure(s)
      ensures x in s && Eps(x, y)
    {
      assert Reached(s, y);
      x :| x in s && Eps(x, y);
    }

    /** A set closed under unobservable firings contains all they reach from it. */
    lemma {:induction false} ClosedRun(c: set<Marking>, x: Marking, u: seq<nat>, y: Marking)
      requires Ok() && c <= Universe() && Image(c) <= c && x in c && Silent(u) && Run(x, u, y)
      ensures y in c
      decreases |u|
    {
      if u != [] {
        var z := Fire(x, u[0]);
        assert StepBy(u[0], x, z);
        FireInside(x, u[0]);
        InImage(c, x, z);
        ClosedRun(c, z, u[1..], y);
      }
    }

    // ---- closure ----

    lemma ClosureContains(s: set<Marking>)
      requires Ok() && s <= Universe()
      ensures s <= Closure(s)
    {
      forall x | x in s ensures x in Closure(s) {
        EpsSelf(x);
        InClosure(s, x, x);
      }
    }

    lemma ClosureClosed(s: set<Marking>)
      requires Ok() && s <= Universe()
      ensures Image(Closure(s)) <= Closure(s)
    {
      forall z | z in Image(Closure(s)) ensures z in Closure(s) {
        var y := ImageFrom(Closure(s), z);
        var x := ClosureFrom(s, y);
        StepEps(y, z);
        EpsTrans(x, y, z);
        InClosure(s, x, z);
      }
    }

    /** The closure is the least set that contains s and is closed under unobservable firings. */
    lemma ClosureLeast(s: set<Marking>, c: set<Marking>)
      requires Ok() && s <= c <= Universe() && Image(c) <= c
      ensures Closure(s) <= c
    {
      forall y | y in Closure(s) ensures y in c {
        var x := ClosureFrom(s, y);
        var u :| Silent(u) && Run(x, u, y);
        ClosedRun(c, x, u, y);
      }
    }

    lemma ClosureOfClosed(c: set<Marking>)
      requires Ok() && c <= Universe() && Image(c) <= c
      ensures Closure(c) == c
    {
      ClosureLeast(c, c);
      ClosureContains(c);
    }

    lemma ClosureMono(s: set<Marking>, s': set<Marking>)
      requires s <= s'
      ensures Closure(s) <= Closure(s')
    {
      forall y | y in Closure(s) ensures y in Closure(s') { assert Reached(s, y) && Reached(s', y); }
    }

    lemma ClosureTwice(s: set<Marking>)
      requires Ok() && s <= Universe()
      ensures Closure(Closure(s)) == Closure(s)
    {
      ClosureContains(s);
      ClosureClosed(s);
      ClosureOfClosed(Closure(s));
    }

    /** Generators that reach each other's sets have the same closure. */
    lemma ClosureSame(s: set<Marking>, s': set<Marking>)
      requires Ok() && s <= Universe() && s' <= Universe() && s <= Closure(s') && s' <= Closure(s)
      ensures Closure(s) == Closure(s')
    {
      ClosureMono(s, Closure(s'));
      ClosureMono(s', Closure(s));
      ClosureTwice(s);
      ClosureTwice(s');
    }

    lemma FireAllMembers(s: set<Marking>, t: nat)
      requires Ok() && s <= Universe() && t < |transitions|
      ensures TransitionOk(t) && FireAll(s, t) <= Universe()
      ensures forall y :: y in FireAll(s, t) <==> exists x :: x in s && Enabled(x, t) && y == Fire(x, t)
    {
      assert TransitionOk(t);
      forall y ensures y in FireAll(s, t) <==> exists x :: x in s && Enabled(x, t) && y == Fire(x, t) {
        if y in FireAll(s, t) {
          var x :| x in s && Covers(x, transitions[t].minus)
            && y == FireMarking(x, transitions[t].minus, transitions[t].plus);
          assert Enabled(x, t);
        }
      }
    }

    ghost predicate FirableAt(s: set<Marking>, t: nat) {
      exists x :: x in s && Enabled(x, t)
    }

    ghost function FirableAmong(s: set<Marking>, ts: seq<nat>): set<nat> {
      set t | t in ts && FirableAt(s, t)
    }

    /** Observable transitions firable somewhere in s. */
    ghost function FirableIn(s: set<Marking>): set<nat> { FirableAmong(s, visible) }

    lemma FirableMore(s: set<Marking>, ts: seq<nat>, t: nat)
      requires Ok() && s <= Universe() && t < |transitions|
      ensures TransitionOk(t)
      ensures FirableAmong(s, ts + [t]) == FirableAmong(s, ts) + if FireAll(s, t) != {} then {t} else {}
    {
      FireAllMembers(s, t);
      assert FireAll(s, t) != {} <==> FirableAt(s, t) by {
        if x :| x in s && Enabled(x, t) { assert Fire(x, t) in FireAll(s, t); }
        if FireAll(s, t) != {} { var y :| y in FireAll(s, t); }
      }
      assert forall u :: u in ts + [t] <==> u in ts || u == t;
    }

    /** One round of saturation stays in the closure, and one that adds nothing has reached it. */
    lemma SaturationRound(s: set<Marking>, c: set<Marking>, d: set<Marking>)
      requires Ok() && s <= Universe() && s <= c <= Closure(s) && c <= d <= Closure(c) && Image(c) <= d
      ensures d <= Closure(s)
      ensures if d == c then c == Closure(s) else Closure(s) - d < Closure(s) - c
    {
      ClosureMono(c, Closure(s));
      ClosureTwice(s);
      ClosureContains(s);
      if d == c { ClosureLeast(s, c); } else {
        var x :| x in d && x !in c;
        assert x in Closure(s) - c && x !in Closure(s) - d;
      }
    }

    /** Unobservable firings do not leave the closure. */
    lemma FireInClosure(s: set<Marking>, c: set<Marking>, t: nat)
      requires Ok() && s <= Universe() && c <= Closure(s) && t in hidden && t < |transitions|
      ensures TransitionOk(t) && FireAll(c, t) <= Closure(s)
    {
      ClosureContains(s);
      ClosureClosed(s);
      FireAllMembers(c, t);
      forall y | y in FireAll(c, t) ensures y in Closure(s) {
        var x :| x in c && Enabled(x, t) && y == Fire(x, t);
        assert StepBy(t, x, y);
        InImage(Closure(s), x, y);
      }
    }

    // ---- image, one transition after the other ----

    ghost function ImageUpTo(s: set<Marking>, n: nat): set<Marking>
      requires Ok() && n <= |hidden|
    {
      if n == 0 then {} else
        assert Classified(hidden[n - 1]) && TransitionOk(hidden[n - 1]);
        ImageUpTo(s, n - 1) + FireAll(s, hidden[n - 1])
    }

    lemma FireAllMono(s: set<Marking>, c: set<Marking>, t: nat)
      requires t < |transitions| && |transitions[t].minus| == |transitions[t].plus| && s <= c
      ensures FireAll(s, t) <= FireAll(c, t)
    {
    }

    /** Firing one more unobservable transition from a set between s and its closure. */
    lemma SaturateOne(s: set<Marking>, c: set<Marking>, i: nat)
      requires Ok() && s <= Universe() && s <= c <= Closure(s) && i < |hidden| && ImageUpTo(s, i) <= c
      ensures hidden[i] < |transitions| && TransitionOk(hidden[i])
      ensures c + FireAll(c, hidden[i]) <= Closure(s)
      ensures ImageUpTo(s, i + 1) <= c + FireAll(c, hidden[i])
    {
      var t := hidden[i];
      assert Classified(t);
      FireInClosure(s, c, t);
      FireAllMono(s, c, t);
    }

    ghost predicate Reaches(s: set<Marking>, t: nat, y: Marking) {
      exists x :: x in s && Enabled(x, t) && y == Fire(x, t)
    }

    ghost predicate ReachedBy(s: set<Marking>, ts: seq<nat>, y: Marking) {
      exists t :: t in ts && Reaches(s, t, y)
    }

    lemma ReachedByMore(s: set<Marking>, ts: seq<nat>, t: nat, y: Marking)
      ensures ReachedBy(s, ts + [t], y) <==> ReachedBy(s, ts, y) || Reaches(s, t, y)
    {
      assert forall i :: i in ts + [t] <==> i in ts || i == t;
    }

    lemma {:induction false} ImageUpToMembers(s: set<Marking>, n: nat, y: Marking)
      requires Ok() && s <= Universe() && n <= |hidden|
      ensures y in ImageUpTo(s, n) <==> ReachedBy(s, hidden[..n], y)
    {
      if n > 0 {
        var t := hidden[n - 1];
        ImageUpToMembers(s, n - 1, y);
        assert Classified(t);
        FireAllMembers(s, t);
        ReachedByMore(s, hidden[..n - 1], t, y);
        assert hidden[..n] == hidden[..n - 1] + [t];
      }
    }

    lemma ImageAll(s: set<Marking>)
      requires Ok() && s <= Universe()
      ensures ImageUpTo(s, |hidden|) == Image(s)
    {
      assert hidden[..|hidden|] == hidden;
      forall y ensures y in ImageUpTo(s, |hidden|) <==> y in Image(s) {
        ImageUpToMembers(s, |hidden|, y);
        if ReachedBy(s, hidden, y) {
          var t :| t in hidden && Reaches(s, t, y);
          var x :| x in s && Enabled(x, t) && y == Fire(x, t);
          assert StepBy(t, x, y);
          InImage(s, x, y);
        }
        if y in Image(s) {
          var x := ImageFrom(s, y);
          var t :| StepBy(t, x, y);
          assert Reaches(s, t, y);
        }
      }
    }

    lemma ImageMono(a: set<Marking>, b: set<Marking>)
      requires a <= b
      ensures Image(a) <= Image(b)
    {
      forall y | y in Image(a) ensures y in Image(b) { assert Stepped(a, y) && Stepped(b, y); }
    }

    lemma ImageUnion(a: set<Marking>, b: set<Marking>)
      ensures Image(a + b) == Image(a) + Image(b)
    {
      forall y ensures y in Image(a + b) <==> y in Image(a) + Image(b) {
        assert Stepped(a + b, y) <==> Stepped(a, y) || Stepped(b, y);
      }
    }

    // ---- cycles ----

    /** x lies on a cycle of unobservable firings. */
    ghost predicate OnCycle(x: Marking) {
      exists z :: Eps(x, z) && Step(z, x)
    }

    /** The predecessor of x on its cycle is on a cycle too. */
    lemma CyclePred(x: Marking) returns (z: Marking)
      requires OnCycle(x)
      ensures Eps(x, z) && Step(z, x) && OnCycle(z)
    {
      z :| Eps(x, z) && Step(z, x);
      StepEps(z, x);
      if z != x {
        var y := LastStep(x, z);
        EpsTrans(z, x, y);
      } else {
        assert Step(x, x);
      }
    }

    /** x0 is reached from z by at least one step. */
    ghost predicate Before(z: Marking, x0: Marking) {
      exists y :: Step(z, y) && Eps(y, x0)
    }

    ghost function Predecessors(s: set<Marking>, x0: Marking): (b: set<Marking>)
      ensures forall z :: z in b <==> z in s && Before(z, x0)
      ensures x0 in s && x0 !in b ==> b < s
    {
      set z | z in s && Before(z, x0)
    }

    ghost predicate HasPred(s: set<Marking>, y: Marking) {
      exists z :: z in s && Step(z, y)
    }

    ghost predicate Backward(s: set<Marking>) {
      forall y {:trigger HasPred(s, y)} :: y in s ==> HasPred(s, y)
    }

    lemma BeforeTrans(z: Marking, y: Marking, x0: Marking)
      requires Step(z, y) && Before(y, x0)
      ensures Before(z, x0)
    {
      var y' :| Step(y, y') && Eps(y', x0);
      StepEps(y, y');
      EpsTrans(y, y', x0);
    }

    lemma BeforePreds(s: set<Marking>, x0: Marking, y: Marking)
      requires y in Predecessors(s, x0) && HasPred(s, y)
      ensures HasPred(Predecessors(s, x0), y)
    {
      var z :| z in s && Step(z, y);
      BeforeTrans(z, y, x0);
    }

    /** Either x0 is on a cycle, or its predecessors are a smaller set of the same kind. */
    lemma BackwardStep(s: set<Marking>, x0: Marking)
      requires x0 in s && Backward(s)
      ensures OnCycle(x0) || (Predecessors(s, x0) < s && Predecessors(s, x0) != {})
      ensures Backward(Predecessors(s, x0))
    {
      forall y | y in Predecessors(s, x0) ensures HasPred(Predecessors(s, x0), y) {
        assert HasPred(s, y);
        BeforePreds(s, x0, y);
      }
      if x0 in Predecessors(s, x0) {
        var y :| Step(x0, y) && Eps(y, x0);
        CycleFromFirst(x0, y);
      }
      assert HasPred(s, x0);
      var p :| p in s && Step(p, x0);
      EpsSelf(x0);
      assert p in Predecessors(s, x0);
    }

    /** In a finite non-empty set where everybody has a predecessor, somebody is on a cycle. */
    lemma {:induction false} BackwardCycle(s: set<Marking>) returns (x: Marking)
      requires s != {} && Backward(s)
      ensures x in s && OnCycle(x)
      decreases s
    {
      x :| x in s;
      BackwardStep(s, x);
      if !OnCycle(x) { x := BackwardCycle(Predecessors(s, x)); }
    }

    lemma CycleFromFirst(x: Marking, y: Marking)
      requires Step(x, y) && Eps(y, x)
      ensures OnCycle(x)
    {
      EpsSelf(x);
      if y != x {
        var z := LastStep(y, x);
        StepEps(x, y);
        EpsTrans(x, y, z);
      }
    }

    /** A non-trivial path has a first step. */
    lemma FirstStep(x: Marking, y: Marking) returns (z: Marking)
      requires Eps(x, y) && x != y
      ensures Step(x, z) && Eps(z, y)
    {
      var u :| Silent(u) && Run(x, u, y);
      z := Fire(x, u[0]);
      assert StepBy(u[0], x, z);
      assert Silent(u[1..]);
    }

    lemma CycleNext(x: Marking)
      requires OnCycle(x)
      ensures exists y :: Step(x, y) && OnCycle(y)
    {
      var z :| Eps(x, z) && Step(z, x);
      EpsSelf(x);
      if z != x {
        var y := FirstStep(x, z);
        StepEps(z, x);
        EpsTrans(y, z, x);
        assert OnCycle(y);
      }
    }

    ghost predicate StepAt(f: nat -> Marking, i: nat) {
      Step(f(i), f(i + 1))
    }

    ghost predicate Infinite(f: nat -> Marking) {
      forall i: nat {:trigger StepAt(f, i)} :: StepAt(f, i)
    }

    /** Some infinite run of unobservable firings starts in s. */
    ghost predicate Diverges(s: set<Marking>) {
      exists f: nat -> Marking :: Infinite(f) && f(0) in s
    }

    ghost function Next(x: Marking): (y: Marking)
      requires OnCycle(x)
      ensures Step(x, y) && OnCycle(y)
    {
      CycleNext(x);
      var y :| Step(x, y) && OnCycle(y);
      y
    }

    ghost function Follow(x: Marking, i: nat): (y: Marking)
      requires OnCycle(x)
      ensures OnCycle(y)
    {
      if i == 0 then x else Next(Follow(x, i - 1))
    }

    lemma CycleDiverges(s: set<Marking>, x: Marking)
      requires x in s && OnCycle(x)
      ensures Diverges(s)
    {
      var f := (i: nat) => if OnCycle(x) then Follow(x, i) else x;
      forall i: nat ensures StepAt(f, i) { assert f(i + 1) == Next(f(i)); }
      assert f(0) in s;
    }

    lemma {:induction false} FollowRun(f: nat -> Marking, i: nat, j: nat)
      requires Infinite(f) && i <= j
      ensures Eps(f(i), f(j))
      decreases j
    {
      if i == j {
        EpsSelf(f(i));
      } else {
        FollowRun(f, i, j - 1);
        assert StepAt(f, j - 1);
        StepEps(f(j - 1), f(j));
        EpsTrans(f(i), f(j - 1), f(j));
      }
    }

    /** An infinite run in a finite set comes back somewhere. */
    lemma {:induction false} InfiniteCycle(f: nat -> Marking, n: nat, s: set<Marking>) returns (i: nat)
      requires Infinite(f) && forall j: nat :: n <= j ==> f(j) in s
      ensures i >= n && OnCycle(f(i))
      decreases s
    {
      assert f(n) in s;
      if j: nat :| n < j && f(j) == f(n) {
        FollowRun(f, n, j - 1);
        assert StepAt(f, j - 1);
        return n;
      }
      i := InfiniteCycle(f, n + 1, s - {f(n)});
    }

    lemma {:induction false} InfiniteInside(f: nat -> Marking, c: set<Marking>, i: nat)
      requires Ok() && Infinite(f) && f(0) in c && c <= Universe() && Image(c) <= c
      ensures f(i) in c
    {
      if i > 0 {
        InfiniteInside(f, c, i - 1);
        assert StepAt(f, i - 1);
        InImage(c, f(i - 1), f(i));
      }
    }

    /** In a closed set, an infinite run exists exactly when some member is on a cycle. */
    lemma DivergesIffCycle(c: set<Marking>)
      requires Ok() && c <= Universe() && Image(c) <= c
      ensures Diverges(c) <==> exists x :: x in c && OnCycle(x)
    {
      if x :| x in c && OnCycle(x) { CycleDiverges(c, x); }
      if Diverges(c) {
        var f: nat -> Marking :| Infinite(f) && f(0) in c;
        forall j: nat ensures f(j) in c { InfiniteInside(f, c, j); }
        var i := InfiniteCycle(f, 0, c);
      }
    }

    ghost function Cyclic(s: set<Marking>): set<Marking> {
      set x | x in s && OnCycle(x)
    }

    lemma DivergesIffCyclic(c: set<Marking>)
      requires Ok() && c <= Universe() && Image(c) <= c
      ensures Diverges(c) <==> Cyclic(c) != {}
    {
      DivergesIffCycle(c);
      if x :| x in c && OnCycle(x) { assert x in Cyclic(c); }
    }

    /** Iterating the image of a closed set shrinks it, and loses no marking on a cycle. */
    lemma ImageRound(s: set<Marking>, f: set<Marking>)
      requires Ok() && f <= s <= Universe() && Image(f) <= f && Cyclic(s) <= f
      ensures Image(Image(f)) <= Image(f) && Cyclic(s) <= Image(f)
    {
      ImageMono(Image(f), f);
      forall x | x in Cyclic(s) ensures x in Image(f) {
        var z := CyclePred(x);
        var u :| Silent(u) && Run(x, u, z);
        ClosedRun(f, x, u, z);
        InImage(f, z, x);
      }
    }

    /** A non-empty set that is its own image contains a cycle. */
    lemma FixpointCycle(f: set<Marking>)
      requires f != {} && Image(f) == f
      ensures Cyclic(f) != {}
    {
      forall y | y in f ensures HasPred(f, y) { var z := ImageFrom(f, y); }
      var x := BackwardCycle(f);
      assert x in Cyclic(f);
    }

    lemma NoHiddenNoCycle(s: set<Marking>)
      requires s == {} || |hidden| == 0
      ensures Cyclic(s) == {}
    {
      assert |hidden| == 0 ==> forall z, x :: !Step(z, x);
    }

    // ---- breadth-first search ----

    /** reach holds s and only what s reaches; all of it but the front is expanded. */
    ghost predicate BfsInv(s: set<Marking>, front: set<Marking>, reach: set<Marking>) {
      && s <= reach <= Closure(s) && front <= reach
      && Image(reach - front) <= reach
    }

    lemma BfsStart(s: set<Marking>)
      requires Ok() && s <= Universe()
      ensures BfsInv(s, s, s)
    {
      ClosureContains(s);
      assert s - s == {};
      forall y | y in Image({}) ensures false { var x := ImageFrom({}, y); }
    }

    lemma BfsRound(s: set<Marking>, front: set<Marking>, reach: set<Marking>)
      requires Ok() && s <= Universe() && BfsInv(s, front, reach)
      ensures var front' := Image(front) - reach; var reach' := reach + front';
              && BfsInv(s, front', reach')
              && (if front' == {} then reach' == Closure(s) else Closure(s) - reach' < Closure(s) - reach)
    {
      var front' := Image(front) - reach;
      var reach' := reach + front';
      ImageMono(front, Closure(s));
      ClosureClosed(s);
      ImageUnion(reach - front, front);
      assert (reach - front) + front == reach == reach' - front';
      if front' == {} {
        ClosureLeast(s, reach);
      } else {
        var x :| x in front';
        assert x in Closure(s) - reach && x !in Closure(s) - reach';
      }
    }

    // ---- canonical generating sets ----

    /** No marking of r is reached from another one. */
    ghost predicate Antichain(r: set<Marking>) {
      forall x, y :: x in r && y in r && Eps(x, y) ==> x == y
    }

    /** r is an antichain of s that generates the closure of s. */
    ghost predicate Canon(s: set<Marking>, r: set<Marking>) {
      r <= s && Closure(r) == Closure(s) && Antichain(r)
    }

    lemma CanonSingle(s: set<Marking>)
      requires AtMostOne(s)
      ensures Canon(s, s)
    {
      forall x, y | x in s && y in s ensures x == y { OnlyOne(s, x, y); }
    }

    lemma ClosureEmpty()
      ensures Closure({}) == {}
    {
      forall y | y in Closure({}) ensures false { var x := ClosureFrom({}, y); }
    }

    /** Canonical sets of the two pruned halves make one for the whole. */
    lemma CanonJoin(s0: set<Marking>, s1: set<Marking>, b0: set<Marking>, b1: set<Marking>,
                    r0: set<Marking>, r1: set<Marking>)
      requires Ok() && s0 + s1 <= Universe()
      requires b0 == s0 - Closure(s1) && b1 == s1 - Closure(b0)
      requires Canon(b0, r0) && Canon(b1, r1)
      ensures Canon(s0 + s1, r0 + r1)
    {
      forall x, y | x in r0 + r1 && y in r0 + r1 && Eps(x, y) ensures x == y {
        if x in r0 && y in r1 { InClosure(b0, x, y); }
        if x in r1 && y in r0 { InClosure(s1, x, y); }
      }
      JoinCovers(s0, s1, b0, b1, r0, r1);
      ClosureContains(s0 + s1);
      ClosureSame(s0 + s1, r0 + r1);
    }

    lemma JoinCovers(s0: set<Marking>, s1: set<Marking>, b0: set<Marking>, b1: set<Marking>,
                     r0: set<Marking>, r1: set<Marking>)
      requires Ok() && s0 + s1 <= Universe()
      requires b0 == s0 - Closure(s1) && b1 == s1 - Closure(b0)
      requires Canon(b0, r0) && Canon(b1, r1)
      ensures s0 + s1 <= Closure(r0 + r1)
    {
      var c := Closure(r0 + r1);
      ClosureMono(r0, r0 + r1);
      ClosureMono(r1, r0 + r1);
      ClosureContains(b0);
      ClosureContains(b1);
      assert s1 <= c;
      ClosureTwice(r0 + r1);
      ClosureMono(s1, c);
    }

    /** A canonical marking lies in an initial component: what reaches it is reached from it. */
    lemma CanonInitial(s: set<Marking>, r: set<Marking>, x: Marking, y: Marking)
      requires Ok() && s <= Universe() && Canon(s, r) && x in r && y in Closure(s) && Eps(y, x)
      ensures Eps(x, y)
    {
      var x' := ClosureFrom(r, y);
      EpsTrans(x', y, x);
    }

    /** y is in an initial component of the closure of s: what reaches it is reached from it. */
    ghost predicate Initial(s: set<Marking>, y: Marking) {
      y in Closure(s) && forall z :: z in Closure(s) && Eps(z, y) ==> Eps(y, z)
    }

    /** Each initial component has exactly one canonical marking. */
    lemma CanonComponent(s: set<Marking>, r: set<Marking>, y: Marking) returns (x: Marking)
      requires Ok() && s <= Universe() && Canon(s, r) && Initial(s, y)
      ensures x in r && Eps(x, y) && Eps(y, x)
      ensures forall x' :: x' in r && Eps(x', y) ==> x' == x
    {
      ClosureContains(s);
      x := ClosureFrom(r, y);
      forall x' | x' in r && Eps(x', y) ensures x' == x { EpsTrans(x', y, x); }
    }

    ghost predicate ReachedIn(q: set<Marking>, e: Marking) {
      exists x :: x in q && Eps(x, e)
    }

    ghost predicate AllReachedIn(q: set<Marking>, i: set<Marking>) {
      forall e {:trigger ReachedIn(q, e)} :: e in i ==> ReachedIn(q, e)
    }

    /** A generator of x; the generators of other canonical markings are different. */
    lemma GeneratorOf(s: set<Marking>, r: set<Marking>, g: set<Marking>, x: Marking) returns (e: Marking)
      requires Ok() && s <= Universe() && g <= Universe() && Canon(s, r) && Closure(g) == Closure(s) && x in r
      ensures e in g && Eps(x, e) && !ReachedIn(r - {x}, e)
    {
      ClosureContains(r);
      ClosureContains(g);
      e := ClosureFrom(g, x);
      CanonInitial(s, r, x, e);
      forall x' | x' in r - {x} ensures !Eps(x', e) {
        if Eps(x', e) { EpsTrans(x', e, x); }
      }
    }

    /** The members of a generating set that generate q, one for each. */
    lemma {:induction false} GeneratorsOf(s: set<Marking>, r: set<Marking>, g: set<Marking>, q: set<Marking>)
      returns (i: set<Marking>)
      requires Ok() && s <= Universe() && g <= Universe() && Canon(s, r) && Closure(g) == Closure(s) && q <= r
      ensures i <= g && |i| == |q| && AllReachedIn(q, i)
      decreases q
    {
      if q == {} { return {}; }
      var x :| x in q;
      var p := q - {x};
      i := GeneratorsOf(s, r, g, p);
      var e := GeneratorOf(s, r, g, x);
      assert e in i ==> ReachedIn(p, e);
      forall m | m in i + {e} ensures ReachedIn(q, m) {
        if m in i { assert ReachedIn(p, m); }
      }
      i := i + {e};
    }

    /** No generating set is smaller. */
    lemma CanonMinimal(s: set<Marking>, r: set<Marking>, g: set<Marking>)
      requires Ok() && s <= Universe() && g <= Universe() && Canon(s, r) && Closure(g) == Closure(s)
      ensures |r| <= |g|
    {
      var i := GeneratorsOf(s, r, g, r);
      assert g == i + (g - i);
    }
  }

  /** Why divergence is only tested on closed sets: from one marking of a two-marking cycle,
      the images alternate for ever between two sets that are neither empty nor equal. */
  lemma ImagesAlternate()
    ensures var net := Net(2, [Transition([1, 0], [0, 1]), Transition([0, 1], [1, 0])], [0, 1], []);
            net.Ok() && net.Image({[1, 0]}) == {[0, 1]} && net.Image({[0, 1]}) == {[1, 0]}
  {
    var net := Net(2, [Transition([1, 0], [0, 1]), Transition([0, 1], [1, 0])], [0, 1], []);
    assert net.hidden[0] == 0 && net.hidden[1] == 1;
    assert forall t :: t in net.hidden <==> t == 0 || t == 1;
    assert net.TransitionOk(0) && net.TransitionOk(1);
    OnlyStep(net, [1, 0], 0, [0, 1]);
    OnlyStep(net, [0, 1], 1, [1, 0]);
  }

  /** A marking with one enabled transition has one successor. */
  lemma OnlyStep(net: Net, x: Marking, t: nat, y: Marking)
    requires net.Ok() && x in net.Universe() && t in net.hidden && net.Enabled(x, t) && net.Fire(x, t) == y
    requires forall u :: u in net.hidden && net.Enabled(x, u) ==> u == t
    ensures net.Image({x}) == {y}
  {
    assert net.StepBy(t, x, y);
    net.InImage({x}, x, y);
    forall z | z in net.Image({x}) ensures z == y {
      var w := net.ImageFrom({x}, z);
      var u :| net.StepBy(u, w, z);
    }
  }
}
