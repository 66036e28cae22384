/** The set-level algorithms of the symbolic observation graph, on diagram handles:
    unobservable closure, firable transitions, divergence and canonisation. */
module CommonSogs {
  import opened Ldds
  import opened LddPackages
  import opened LddOps
  import opened PetriNets

  /** Handles of a transition's input and output arcs. */
  datatype Relation = Relation(minus: nat, plus: nat)

  class CommonSog {
    const p: LddPackage
    const net: Net
    const relation: seq<Relation>

    ghost predicate RelationOk(t: nat)
      requires t < |relation| == |net.transitions|
      reads p`tree
    {
      && relation[t].minus in p.tree && p.tree[relation[t].minus] == Cube(net.transitions[t].minus)
      && relation[t].plus in p.tree && p.tree[relation[t].plus] == Cube(net.transitions[t].plus)
    }

    ghost predicate Ready()
      reads p.Repr()
    {
      && p.Valid() && net.Ok() && |relation| == |net.transitions|
      && forall t {:trigger RelationOk(t)} :: 0 <= t < |relation| ==> RelationOk(t)
    }

    /** The markings of a handle. */
    ghost function Set(h: nat): (s: set<Marking>)
      requires h in p.tree
      reads p`tree
    {
      Den(p.tree[h])
    }

    ghost predicate Is(h: nat)
      reads p`tree
    {
      p.Is(h, net.places)
    }

    constructor (p: LddPackage, net: Net, relation: seq<Relation>)
      requires p.Valid() && net.Ok() && |relation| == |net.transitions|
      requires forall t :: 0 <= t < |relation| ==>
                 && relation[t].minus in p.tree && p.tree[relation[t].minus] == Cube(net.transitions[t].minus)
                 && relation[t].plus in p.tree && p.tree[relation[t].plus] == Cube(net.transitions[t].plus)
      ensures Ready() && this.p == p && this.net == net
    {
      this.p := p;
      this.net := net;
      this.relation := relation;
    }

    lemma InUniverse(h: nat)
      requires Is(h)
      ensures Set(h) <= net.Universe()
    {
      forall x | x in Set(h) ensures x in net.Universe() { HasLength(p.tree[h], net.places, x); }
    }

    /** The handle of the empty set is 0. */
    lemma Empty(h: nat)
      requires p.Valid() && Is(h)
      ensures h == 0 <==> Set(h) == {}
    {
      EmptyIsFalse(p.tree[h], net.places);
      p.Terminals(h);
    }

    lemma Nothing()
      requires p.Valid()
      ensures Is(0) && Set(0) == {}
    {
      p.Leaves();
    }

    /** Successors by one transition. */
    method GetSuccessor(from: nat, t: nat) returns (r: Result<nat>)
      requires Ready() && Is(from) && t < |relation|
      modifies p.Repr()
      ensures Ready() && Extends(old(p.tree), p.tree)
      ensures r.TableFull? ==> p.Full()
      ensures net.TransitionOk(t)
      ensures r.Success? ==> Is(r.value) && Set(r.value) == net.FireAll(old(Set(from)), t)
    {
      assert net.TransitionOk(t) && RelationOk(t);
      ghost var tr := net.transitions[t];
      r := FiringMono(p, from, relation[t].minus, relation[t].plus, tr.minus, tr.plus);
      forall u | 0 <= u < |relation| ensures RelationOk(u) { assert old(RelationOk(u)); }
    }

    method UnionWith(a: nat, b: nat) returns (r: Result<nat>)
      requires Ready() && Is(a) && Is(b)
      modifies p.Repr()
      ensures Ready() && Extends(old(p.tree), p.tree)
      ensures r.TableFull? ==> p.Full()
      ensures r.Success? ==> Is(r.value) && Set(r.value) == old(Set(a)) + old(Set(b))
    {
      r := UnionMono(p, a, b, net.places);
      forall u | 0 <= u < |relation| ensures RelationOk(u) { assert old(RelationOk(u)); }
    }

    method Without(a: nat, b: nat) returns (r: Result<nat>)
      requires Ready() && Is(a) && Is(b)
      modifies p.Repr()
      ensures Ready() && Extends(old(p.tree), p.tree)
      ensures r.TableFull? ==> p.Full()
      ensures r.Success? ==> Is(r.value) && Set(r.value) == old(Set(a)) - old(Set(b))
    {
      r := MinusOf(p, a, b, net.places);
      forall u | 0 <= u < |relation| ensures RelationOk(u) { assert old(RelationOk(u)); }
    }

    /** Fires every unobservable transition once, each from what the previous ones gave. */
    method Saturate(from: nat) returns (r: Result<nat>)
      requires Ready() && Is(from)
      modifies p.Repr()
      ensures Ready() && Extends(old(p.tree), p.tree)
      ensures r.TableFull? ==> p.Full()
      ensures r.Success? ==> Is(r.value) && old(Set(from)) <= Set(r.value) <= net.Closure(old(Set(from)))
      ensures r.Success? ==> net.Image(old(Set(from))) <= Set(r.value)
    {
      ghost var s := Set(from);
      InUniverse(from);
      net.ClosureContains(s);
      var m := from;
      for i := 0 to |net.hidden|
        invariant Ready() && Extends(old(p.tree), p.tree) && Is(m)
        invariant s <= Set(m) <= net.Closure(s)
        invariant net.ImageUpTo(s, i) <= Set(m)
      {
        var t := net.hidden[i];
        net.SaturateOne(s, Set(m), i);
        var succ :- GetSuccessor(m, t);
        m :- UnionWith(m, succ);
      }
      net.ImageAll(s);
      return Success(m);
    }

    /** Closure under unobservable firings, by iteration to a fixpoint of handles. */
    method AccessibleEpsilon(from: nat) returns (r: Result<nat>)
      requires Ready() && Is(from)
      modifies p.Repr()
      ensures Ready() && Extends(old(p.tree), p.tree)
      ensures r.TableFull? ==> p.Full()
      ensures r.Success? ==> Is(r.value) && Set(r.value) == net.Closure(old(Set(from)))
    {
      ghost var s := Set(from);
      InUniverse(from);
      net.ClosureContains(s);
      var m2 := from;
      while true
        invariant Ready() && Extends(old(p.tree), p.tree) && Is(m2)
        invariant s <= Set(m2) <= net.Closure(s)
        decreases net.Closure(s) - Set(m2)
      {
        var m1 := m2;
        ghost var c := Set(m1);
        m2 :- Saturate(m1);
        net.SaturationRound(s, c, Set(m2));
        p.HandlesCanonical(m1, m2, net.places);
        if m1 == m2 { return Success(m2); }
      }
    }

    /** Observable transitions firable somewhere in the set. */
    method FirableObs(state: nat) returns (r: Result<set<nat>>)
      requires Ready() && Is(state)
      modifies p.Repr()
      ensures Ready() && Extends(old(p.tree), p.tree)
      ensures r.TableFull? ==> p.Full()
      ensures r.Success? ==> r.value == net.FirableIn(old(Set(state)))
    {
      ghost var s := Set(state);
      InUniverse(state);
      var res: set<nat> := {};
      for i := 0 to |net.visible|
        invariant Ready() && Extends(old(p.tree), p.tree) && Is(state)
        invariant res == net.FirableAmong(s, net.visible[..i])
      {
        var t := net.visible[i];
        assert net.Classified(t);
        var succ :- GetSuccessor(state, t);
        Empty(succ);
        net.FirableMore(s, net.visible[..i], t);
        if succ != 0 { res := res + {t}; }
        assert net.visible[..i + 1] == net.visible[..i] + [t];
      }
      assert net.visible[..|net.visible|] == net.visible;
      return Success(res);
    }

    /** Successors by one unobservable firing. */
    method ImageForward(from: nat) returns (r: Result<nat>)
      requires Ready() && Is(from)
      modifies p.Repr()
      ensures Ready() && Extends(old(p.tree), p.tree)
      ensures r.TableFull? ==> p.Full()
      ensures r.Success? ==> Is(r.value) && Set(r.value) == net.Image(old(Set(from)))
    {
      ghost var s := Set(from);
      InUniverse(from);
      Nothing();
      var res := 0;
      for i := 0 to |net.hidden|
        invariant Ready() && Extends(old(p.tree), p.tree) && Is(res) && Is(from)
        invariant Set(res) == net.ImageUpTo(s, i)
      {
        var t := net.hidden[i];
        assert net.Classified(t) && net.TransitionOk(t);
        var succ :- GetSuccessor(from, t);
        res :- UnionWith(res, succ);
        assert net.ImageUpTo(s, i + 1) == net.ImageUpTo(s, i) + net.FireAll(s, t);
      }
      net.ImageAll(s);
      return Success(res);
    }

    /** Divergence: whether the closed set m contains a cycle of unobservable firings, that is,
        an infinite run.  The images of m shrink to empty or to a set that is its own image. */
    method SetDiv(m: nat) returns (r: Result<bool>)
      requires Ready() && Is(m) && net.Image(Set(m)) <= Set(m)
      modifies p.Repr()
      ensures Ready() && Extends(old(p.tree), p.tree)
      ensures r.TableFull? ==> p.Full()
      ensures r.Success? ==> (r.value <==> net.Cyclic(old(Set(m))) != {})
      ensures r.Success? ==> (r.value <==> net.Diverges(old(Set(m))))
    {
      ghost var s := Set(m);
      InUniverse(m);
      net.DivergesIffCyclic(s);
      Empty(m);
      if |net.hidden| == 0 || m == 0 {
        net.NoHiddenNoCycle(s);
        return Success(false);
      }
      var from := m;
      while true
        invariant Ready() && Extends(old(p.tree), p.tree) && Is(from) && from != 0
        invariant Set(from) <= s && net.Image(Set(from)) <= Set(from) && net.Cyclic(s) <= Set(from)
        decreases Set(from)
      {
        ghost var f := Set(from);
        Empty(from);
        net.ImageRound(s, f);
        var reached :- ImageForward(from);
        p.HandlesCanonical(reached, from, net.places);
        if reached == from {
          net.FixpointCycle(f);
          return Success(true);
        }
        from := reached;
        Empty(from);
        if reached == 0 { return Success(false); }
      }
    }

    /** The targets that unobservable firings do not reach from the sources, by breadth-first
        search that stops early when no target is left. */
    method Unreached(sources: nat, targets: nat) returns (r: Result<nat>)
      requires Ready() && Is(sources) && Is(targets) && Set(sources) !! Set(targets)
      modifies p.Repr()
      ensures Ready() && Extends(old(p.tree), p.tree)
      ensures r.TableFull? ==> p.Full()
      ensures r.Success? ==> Is(r.value) && Set(r.value) == old(Set(targets)) - net.Closure(old(Set(sources)))
    {
      ghost var s, t := Set(sources), Set(targets);
      InUniverse(sources);
      net.BfsStart(s);
      var front, reach, rest := sources, sources, targets;
      while true
        invariant Ready() && Extends(old(p.tree), p.tree) && Is(front) && Is(reach) && Is(rest)
        invariant net.BfsInv(s, Set(front), Set(reach)) && Set(rest) == t - Set(reach)
        decreases net.Closure(s) - Set(reach)
      {
        ghost var f, c := Set(front), Set(reach);
        net.BfsRound(s, f, c);
        var image :- ImageForward(front);
        front :- Without(image, reach);
        reach :- UnionWith(reach, front);
        rest :- Without(rest, front);
        Empty(front);
        Empty(rest);
        if front == 0 || rest == 0 { return Success(rest); }
      }
    }

    /** First level from `level` on where not all markings are alike. */
    method FindLevel(s: nat, level: nat) returns (split: nat)
      requires Ready() && Is(s) && AgreeBelow(Set(s), level) && !AtMostOne(Set(s))
      ensures level <= split < net.places && AgreeBelow(Set(s), split) && !AgreeBelow(Set(s), split + 1)
      ensures First(p.tree[s]) in Set(s)
    {
      ghost var l := p.tree[s];
      Empty(s);
      HasFirst(l, net.places);
      NextLevel(l, net.places, level);
      split := level;
      while true
        invariant level <= split < net.places && AgreeBelow(Den(l), split)
        decreases net.places - split
      {
        NextLevel(l, net.places, split);
        var n := MddNumber(p, s, split, net.places);
        if n > 1 { return; }
        split := split + 1;
      }
    }

    /** Splits a set at a level where its markings differ: those that agree there with the
        first marking, and the others. */
    method Split(s: nat, level: nat) returns (r: Result<(nat, nat)>)
      requires Ready() && Is(s) && level < net.places && First(p.tree[s]) in Set(s)
      requires AgreeBelow(Set(s), level) && !AgreeBelow(Set(s), level + 1)
      modifies p.Repr()
      ensures Ready() && Extends(old(p.tree), p.tree)
      ensures r.TableFull? ==> p.Full()
      ensures r.Success? ==> var (s0, s1) := r.value; Is(s0) && Is(s1) && Parts(old(Set(s)), Set(s0), Set(s1))
    {
      AlikeParts(p.tree[s], net.places, level);
      var s0 :- DivideRec(p, s, level, net.places);
      forall u | 0 <= u < |relation| ensures RelationOk(u) { assert old(RelationOk(u)); }
      var s1 :- Without(s, s0);
      return Success((s0, s1));
    }

    /** Removes from each part what the other reaches: from the first part what the second
        one reaches, then from the second what is left of the first reaches. */
    method Prune(s0: nat, s1: nat) returns (r: Result<(nat, nat)>)
      requires Ready() && Is(s0) && Is(s1) && Set(s0) !! Set(s1) && s0 != 0 && s1 != 0
      modifies p.Repr()
      ensures Ready() && Extends(old(p.tree), p.tree)
      ensures r.TableFull? ==> p.Full()
      ensures r.Success? ==> var (b0, b1) := r.value;
                && Is(b0) && Is(b1)
                && Set(b0) == old(Set(s0)) - net.Closure(old(Set(s1)))
                && Set(b1) == old(Set(s1)) - net.Closure(Set(b0))
    {
      var b0 :- Unreached(s1, s0);
      Empty(b0);
      if b0 == 0 {
        net.ClosureEmpty();
        return Success((b0, s1));
      }
      var b1 :- Unreached(b0, s1);
      return Success((b0, b1));
    }

    /** Canonisation: a subset that generates the same closure, in which no marking is
        reached from another. */
    method Canonize(s: nat, level: nat) returns (r: Result<nat>)
      requires Ready() && Is(s) && AgreeBelow(Set(s), level)
      modifies p.Repr()
      ensures Ready() && Extends(old(p.tree), p.tree)
      ensures r.TableFull? ==> p.Full()
      ensures r.Success? ==> Is(r.value) && net.Canon(old(Set(s)), Set(r.value))
      decreases Set(s), 1
    {
      InUniverse(s);
      Empty(s);
      Nothing();
      if s != 0 { LevelInside(Set(s), net.places, level); }
      if level > net.places || s == 0 {
        net.CanonSingle({});
        return Success(0);
      }
      var single := IsSingle(p, s, net.places);
      if single {
        net.CanonSingle(Set(s));
        return Success(s);
      }
      r := CanonizeParts(s, level);
    }

    method CanonizeParts(s: nat, level: nat) returns (r: Result<nat>)
      requires Ready() && Is(s) && AgreeBelow(Set(s), level) && !AtMostOne(Set(s))
      modifies p.Repr()
      ensures Ready() && Extends(old(p.tree), p.tree)
      ensures r.TableFull? ==> p.Full()
      ensures r.Success? ==> Is(r.value) && net.Canon(old(Set(s)), Set(r.value))
      decreases Set(s), 0
    {
      InUniverse(s);
      ghost var all := Set(s);
      var split := FindLevel(s, level);
      var parts :- Split(s, split);
      var (s0, s1) := parts;
      Empty(s0);
      Empty(s1);
      ghost var t0, t1 := Set(s0), Set(s1);
      var pruned :- Prune(s0, s1);
      var (b0, b1) := pruned;
      ghost var u0, u1 := Set(b0), Set(b1);
      PartsSmaller(all, t0, t1, u0, u1, split);
      var r0 :- CanonizePart(b0, split);
      ghost var v0 := Set(r0);
      var r1 :- CanonizePart(b1, split);
      net.CanonJoin(t0, t1, u0, u1, v0, Set(r1));
      r := UnionWith(r0, r1);
    }

    /** A part of a split set, canonised unless it is a single marking. */
    method CanonizePart(s: nat, level: nat) returns (r: Result<nat>)
      requires Ready() && Is(s) && AgreeBelow(Set(s), level)
      modifies p.Repr()
      ensures Ready() && Extends(old(p.tree), p.tree)
      ensures r.TableFull? ==> p.Full()
      ensures r.Success? ==> Is(r.value) && net.Canon(old(Set(s)), Set(r.value))
      decreases Set(s), 2
    {
      InUniverse(s);
      var single := IsSingle(p, s, net.places);
      if single {
        net.CanonSingle(Set(s));
        return Success(s);
      }
      r := Canonize(s, level);
    }
  }

  // ---- levels ----

  /** All markings of s are alike below `level`. */
  ghost predicate AgreeBelow(s: set<Marking>, level: nat) {
    forall x, y {:trigger Agrees(x, y, level)} :: x in s && y in s ==> Agrees(x, y, level)
  }

  /** s0 and s1 are the two halves of a proper split of s. */
  ghost predicate Parts(s: set<Marking>, s0: set<Marking>, s1: set<Marking>) {
    s0 != {} && s1 != {} && s0 !! s1 && s0 + s1 == s
  }

  lemma PartsSmaller(s: set<Marking>, s0: set<Marking>, s1: set<Marking>, b0: set<Marking>, b1: set<Marking>,
          level: nat)
    requires Parts(s, s0, s1) && b0 <= s0 && b1 <= s1 && AgreeBelow(s, level)
    ensures b0 < s && b1 < s && AgreeBelow(b0, level) && AgreeBelow(b1, level)
  {
    var x, y :| x in s0 && y in s1;
    assert x in s && y in s && y !in s0 && x !in s1;
  }

  lemma SomeLevelLeft(l: Ldd, depth: nat, level: nat)
    requires Wf(l, depth) && AgreeBelow(Den(l), level) && !AtMostOne(Den(l))
    ensures level < depth
  {
    var x :| x in Den(l);
    assert Agrees(x, x, level);
    HasLength(l, depth, x);
    forall y | y in Den(l) && level == depth ensures x == y {
      HasLength(l, depth, y);
      assert Agrees(x, y, level);
    }
    assert level == depth ==> Den(l) == {x};
  }

  lemma NextLevel(l: Ldd, depth: nat, level: nat)
    requires Wf(l, depth) && First(l) in Den(l) && AgreeBelow(Den(l), level) && !AtMostOne(Den(l))
    ensures level < depth
    ensures if AgreeAt(l, level) then AgreeBelow(Den(l), level + 1) && level + 1 < depth
      else !AgreeBelow(Den(l), level + 1)
  {
    SomeLevelLeft(l, depth, level);
    AgreeMore(l, depth, level);
    if AgreeAt(l, level) { SomeLevelLeft(l, depth, level + 1); }
  }

  lemma LevelInside(s: set<Marking>, places: nat, level: nat)
    requires s != {} && AgreeBelow(s, level) && s <= AllMarkings(places)
    ensures level <= places
  {
    var x :| x in s;
    assert Agrees(x, x, level);
  }

  /** The markings that agree with `first` on the first w components. */
  ghost function AlikePart(s: set<Marking>, first: Marking, w: nat): set<Marking> {
    set x | x in s && Agrees(x, first, w)
  }

  lemma AlikeParts(l: Ldd, depth: nat, level: nat)
    requires Wf(l, depth) && level < depth
    requires First(l) in Den(l) && AgreeBelow(Den(l), level) && !AgreeBelow(Den(l), level + 1)
    ensures var part := AlikePart(Den(l), First(l), level + 1); Parts(Den(l), part, Den(l) - part)
  {
    HasLength(l, depth, First(l));
    assert First(l) in AlikePart(Den(l), First(l), level + 1);
    AgreeMore(l, depth, level);
    var x :| x in Den(l) && !Agrees(x, First(l), level + 1);
    assert x in Den(l) - AlikePart(Den(l), First(l), level + 1);
  }

  lemma AgreeMore(l: Ldd, depth: nat, level: nat)
    requires Wf(l, depth) && level < depth && First(l) in Den(l) && AgreeBelow(Den(l), level)
    ensures AgreeAt(l, level) <==> AgreeBelow(Den(l), level + 1)
  {
    var first := First(l);
    forall x | x in Den(l) ensures |x| == depth { HasLength(l, depth, x); }
    if AgreeBelow(Den(l), level + 1) {
      forall x | x in Den(l) ensures Agrees(x, first, level + 1) { assert Agrees(x, first, level + 1); }
    }
    if AgreeAt(l, level) {
      forall x | x in Den(l) ensures Agrees(x, first, level + 1) { assert Agrees(x, first, level); }
      forall x, y | x in Den(l) && y in Den(l) ensures Agrees(x, y, level + 1) {
        assert Agrees(x, first, level + 1) && Agrees(y, first, level + 1);
      }
    }
  }
}
