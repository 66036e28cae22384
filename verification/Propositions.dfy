/** Reading propositions off an aggregate: the places
    a formula mentions have the same token count in all markings of an aggregate, so the first
    marking of the diagram speaks for all of them. */
module Propositions {
  import opened Ldds
  import opened LddPackages
  import opened PetriNets
  import opened SogGraphs
  import opened NetReading
  import N = NewNets

  // ---- places that unobservable firings do not touch ----

  ghost predicate FrozenBy(net: Net, t: nat, p: nat) {
    t < |net.transitions| && p < |net.transitions[t].minus| && p < |net.transitions[t].plus|
    && net.transitions[t].minus[p] == 0 && net.transitions[t].plus[p] == 0
  }

  /** No unobservable transition takes from or adds to place p. */
  ghost predicate Frozen(net: Net, p: nat) {
    forall t {:trigger FrozenBy(net, t, p)} :: t in net.hidden ==> FrozenBy(net, t, p)
  }

  /** The places of a formula are frozen: all their adjacent transitions were made observable. */
  lemma FormulaFrozen(n: N.NewNet, net: Net, p: nat)
    requires n.Valid() && n.Classifies() && n.Split() && Reads(n, net) && p in n.formulaPlaces && p < |n.places|
    ensures Frozen(net, p)
  {
    forall t | t in net.hidden ensures FrozenBy(net, t, p) {
      assert t in n.nonObservable;
      NothingFrom(net, |n.places|, n.transitions, t, p);
    }
  }

  /** All markings of s have v tokens in place p. */
  ghost predicate Uniform(s: set<Marking>, p: nat, v: nat) {
    forall x :: x in s ==> p < |x| && x[p] == v
  }

  lemma {:induction false} SilentKeeps(net: Net, x: Marking, u: seq<nat>, y: Marking, p: nat)
    requires net.Ok() && x in net.Universe() && net.Silent(u) && net.Run(x, u, y) && Frozen(net, p) && p < net.places
    ensures p < |x| && p < |y| && y[p] == x[p]
    decreases |u|
  {
    if u != [] {
      assert u[0] in net.hidden && FrozenBy(net, u[0], p);
      net.FireInside(x, u[0]);
      SilentKeeps(net, net.Fire(x, u[0]), u[1..], y, p);
    }
  }

  lemma ClosureUniform(net: Net, s: set<Marking>, p: nat, v: nat)
    requires net.Ok() && s <= net.Universe() && Frozen(net, p) && p < net.places && Uniform(s, p, v)
    ensures Uniform(net.Closure(s), p, v)
  {
    forall y | y in net.Closure(s) ensures p < |y| && y[p] == v {
      var x := net.ClosureFrom(s, y);
      var u :| net.Silent(u) && net.Run(x, u, y);
      SilentKeeps(net, x, u, y, p);
    }
  }

  lemma SuccessorUniform(net: Net, s: set<Marking>, t: nat, p: nat, v: nat) returns (w: nat)
    requires net.Ok() && s <= net.Universe() && Frozen(net, p)
    requires p < net.places && Uniform(s, p, v) && t < |net.transitions|
    ensures Uniform(Successor(net, s, t), p, w)
  {
    net.FireAllMembers(s, t);
    w := if net.transitions[t].minus[p] <= v then Shift(v, net.transitions[t].minus[p], net.transitions[t].plus[p])
      else 0;
    ClosureUniform(net, net.FireAll(s, t), p, w);
  }

  /** Every aggregate reached from a single initial marking is uniform in each frozen place. */
  lemma {:induction false} AggregateUniform(net: Net, s: set<Marking>, w: seq<nat>, p: nat, v: nat) returns (v': nat)
    requires net.Ok() && Closed(net, s) && Frozen(net, p) && p < net.places && Uniform(s, p, v)
    ensures Uniform(Aggregate(net, s, w), p, v')
    decreases |w|
  {
    v' := v;
    if w != [] && w[0] in net.visible {
      assert net.Classified(w[0]);
      SuccessorClosed(net, s, w[0]);
      var u := SuccessorUniform(net, s, w[0], p, v);
      v' := AggregateUniform(net, Successor(net, s, w[0]), w[1..], p, u);
    }
  }

  lemma ReachableUniform(net: Net, x0: Marking, w: seq<nat>, p: nat) returns (v: nat)
    requires net.Ok() && x0 in net.Universe() && Frozen(net, p) && p < net.places
    ensures Uniform(Aggregate(net, net.Closure({x0}), w), p, v)
  {
    FromInitial(net, x0, [], x0);
    ClosureUniform(net, {x0}, p, x0[p]);
    v := AggregateUniform(net, net.Closure({x0}), w, p, x0[p]);
  }

  // ---- reading propositions off a diagram ----

  predicate Ascending(ps: seq<nat>) {
    forall i, j :: 0 <= i < j < |ps| ==> ps[i] < ps[j]
  }

  /** The places of ps where the first marking has, or has not, a token. */
  function Filter(x: Marking, ps: seq<nat>, marked: bool): seq<nat> {
    if ps == [] then [] else
      var p := ps[|ps| - 1];
      Filter(x, ps[..|ps| - 1], marked) + if p < |x| && (x[p] != 0) == marked then [p] else []
  }

  lemma {:induction false} FilterMembers(x: Marking, ps: seq<nat>, marked: bool, p: nat)
    ensures p in Filter(x, ps, marked) <==> p in ps && p < |x| && (x[p] != 0) == marked
  {
    if ps != [] {
      var n := |ps| - 1;
      assert ps == ps[..n] + [ps[n]];
      FilterMembers(x, ps[..n], marked, p);
    }
  }

  lemma {:induction false} FirstAt(l: Ldd, depth: nat, k: nat)
    requires Wf(l, depth) && !l.False? && k < depth
    ensures Leftmost(l, k).Node? && |First(l)| == depth && First(l)[k] == Leftmost(l, k).value
    ensures Wf(Leftmost(l, k), depth - k)
  {
    HasFirst(l, depth);
    if k > 0 { FirstAt(l.down, depth - 1, k - 1); }
  }

  lemma {:induction false} LeftmostDown(l: Ldd, depth: nat, k: nat)
    requires Wf(l, depth) && !l.False? && k < depth
    ensures Leftmost(l, k).Node? && Leftmost(l, k + 1) == Leftmost(l, k).down
  {
    if k > 0 { LeftmostDown(l.down, depth - 1, k - 1); }
  }

  /** The proposition places that are marked, or unmarked, on the first path of the diagram. */
  method PlacesOnPath(p: LddPackage, h: nat, ps: seq<nat>, marked: bool, ghost places: nat) returns (result: seq<nat>)
    requires p.Valid() && p.Is(h, places) && h != 0 && Ascending(ps) && forall i :: 0 <= i < |ps| ==> ps[i] < places
    ensures result == Filter(First(p.tree[h]), ps, marked)
  {
    ghost var l := p.tree[h];
    p.Terminals(h);
    var mdd, depth := h, 0;
    result := [];
    for i := 0 to |ps|
      invariant mdd in p.tree && p.tree[mdd] == Leftmost(l, depth)
      invariant (i < |ps| ==> depth <= ps[i]) && result == Filter(First(l), ps[..i], marked)
    {
      while depth < ps[i]
        invariant depth <= ps[i] && mdd in p.tree && p.tree[mdd] == Leftmost(l, depth)
      {
        LeftmostDown(l, places, depth);
        mdd := p.DownOf(mdd);
        depth := depth + 1;
      }
      FirstAt(l, places, depth);
      if (p.ValueOf(mdd) != 0) == marked { result := result + [depth]; }
      assert ps[..i + 1][..i] == ps[..i];
    }
    assert ps[..|ps|] == ps;
  }

  /** The two lists partition the proposition places, and hold for every marking of the
      aggregate: marked in one is marked in all. */
  lemma ListsValid(l: Ldd, places: nat, ps: seq<nat>, p: nat, v: nat)
    requires Wf(l, places) && !l.False? && p in ps && p < places && Uniform(Den(l), p, v)
    ensures p in Filter(First(l), ps, true) <==> p !in Filter(First(l), ps, false)
    ensures p in Filter(First(l), ps, true) <==> forall x :: x in Den(l) ==> p < |x| && x[p] > 0
    ensures p in Filter(First(l), ps, false) <==> forall x :: x in Den(l) ==> p < |x| && x[p] == 0
  {
    HasFirst(l, places);
    assert First(l) in Den(l);
    FilterMembers(First(l), ps, true, p);
    FilterMembers(First(l), ps, false, p);
  }

  /** For every aggregate the construction can reach, the lists read off its first path hold
      for all its markings, in every place the formula mentions. */
  lemma PropositionsHold(n: N.NewNet, net: Net, x0: Marking, w: seq<nat>, l: Ldd, ps: seq<nat>, p: nat)
    requires n.Valid() && n.Classifies() && n.Split() && Reads(n, net) && x0 in net.Universe()
    requires Wf(l, net.places) && !l.False? && Den(l) == (ReadsOk(n, net); Aggregate(net, net.Closure({x0}), w))
    requires p in ps && p in n.formulaPlaces && p < net.places
    ensures p in Filter(First(l), ps, true) <==> p !in Filter(First(l), ps, false)
    ensures p in Filter(First(l), ps, true) <==> forall x :: x in Den(l) ==> p < |x| && x[p] > 0
    ensures p in Filter(First(l), ps, false) <==> forall x :: x in Den(l) ==> p < |x| && x[p] == 0
  {
    ReadsOk(n, net);
    FormulaFrozen(n, net, p);
    var v := ReachableUniform(net, x0, w, p);
    ListsValid(l, net.places, ps, p, v);
  }
}
