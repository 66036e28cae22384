/** The package's operations on handles: recursive, memoised in the lossy cache, building
    nodes through the unique table.  Each is proved to return the handle of the tree-level
    result, hence of the set-level result, whatever the cache holds or forgets. */
module LddOps {
  import opened Words
  import opened Ldds
  import opened LddPackages

  /** Handle of the single marking `values`. */
  method CubeOf(p: LddPackage, values: Marking) returns (r: Result<nat>)
    requires p.Valid() && InRange(values)
    modifies p.Repr()
    ensures p.Valid() && Extends(old(p.tree), p.tree)
    ensures r.TableFull? ==> p.Full()
    ensures r.Success? ==>
      p.Is(r.value, |values|) && p.tree[r.value] == Cube(values) && Den(p.tree[r.value]) == {values}
    decreases |values|
  {
    CubeDenotes(values);
    p.Leaves();
    if |values| == 0 { return Success(1); }
    var below :- CubeOf(p, values[1..]);
    p.Leaves();
    r := p.MakeNode(values[0], below, 0, |values|);
  }

  /** Set union. */
  method UnionMono(p: LddPackage, a0: nat, b0: nat, ghost depth: nat) returns (r: Result<nat>)
    requires p.Valid() && p.Is(a0, depth) && p.Is(b0, depth)
    modifies p.Repr()
    ensures p.Valid() && Extends(old(p.tree), p.tree)
    ensures r.TableFull? ==> p.Full()
    ensures r.Success? ==> p.Is(r.value, depth) && p.tree[r.value] == Union(old(p.tree)[a0], old(p.tree)[b0])
    ensures r.Success? ==> Den(p.tree[r.value]) == old(Den(p.tree[a0])) + old(Den(p.tree[b0]))
    decreases Size(p.tree[a0]) + Size(p.tree[b0]), 1
  {
    var a, b := a0, b0;
    ghost var ta, tb := p.tree[a], p.tree[b];
    UnionDen(ta, tb, depth);
    p.Terminals(a);
    p.Terminals(b);
    if a == b {
      UnionSelf(ta, depth);
      return Success(a);
    }
    if a == 0 { return Success(b); }
    if b == 0 { return Success(a); }
    if a < b {
      a, b := b, a;
      UnionCommutes(ta, tb, depth);
    }
    var hit, cached := p.CacheGet(UnionOf, a, b, 0);
    if hit { return Success(cached); }
    var result :- UnionNodes(p, a, b, depth);
    p.CachePut(UnionOf, a, b, 0, result);
    return Success(result);
  }

  method UnionNodes(p: LddPackage, a: nat, b: nat, ghost depth: nat) returns (r: Result<nat>)
    requires p.Valid() && p.Is(a, depth) && p.Is(b, depth)
    requires p.tree[a].Node? && p.tree[b].Node?
    modifies p.Repr()
    ensures p.Valid() && Extends(old(p.tree), p.tree)
    ensures r.TableFull? ==> p.Full()
    ensures r.Success? ==> p.Is(r.value, depth) && p.tree[r.value] == Union(old(p.tree)[a], old(p.tree)[b])
    decreases Size(p.tree[a]) + Size(p.tree[b]), 0
  {
    ghost var ta, tb := p.tree[a], p.tree[b];
    UnionDen(ta, tb, depth);
    var va, vb := p.ValueOf(a), p.ValueOf(b);
    if va < vb {
      var ra, da := p.RightOf(a), p.DownOf(a);
      var right :- UnionMono(p, ra, b, depth);
      assert Union(ta, tb) == Mk(va, p.tree[da], p.tree[right]);
      r := p.MakeNode(va, da, right, depth);
    } else if va == vb {
      var ra, rb, da, db := p.RightOf(a), p.RightOf(b), p.DownOf(a), p.DownOf(b);
      var right :- UnionMono(p, ra, rb, depth);
      var down :- UnionMono(p, da, db, depth - 1);
      assert Union(ta, tb) == Mk(va, p.tree[down], p.tree[right]);
      r := p.MakeNode(va, down, right, depth);
    } else {
      var rb, db := p.RightOf(b), p.DownOf(b);
      var right :- UnionMono(p, a, rb, depth);
      assert Union(ta, tb) == Mk(vb, p.tree[db], p.tree[right]);
      r := p.MakeNode(vb, db, right, depth);
    }
  }

  /** Set difference. */
  method MinusOf(p: LddPackage, a: nat, b: nat, ghost depth: nat) returns (r: Result<nat>)
    requires p.Valid() && p.Is(a, depth) && p.Is(b, depth)
    modifies p.Repr()
    ensures p.Valid() && Extends(old(p.tree), p.tree)
    ensures r.TableFull? ==> p.Full()
    ensures r.Success? ==> p.Is(r.value, depth) && p.tree[r.value] == Minus(old(p.tree)[a], old(p.tree)[b])
    ensures r.Success? ==> Den(p.tree[r.value]) == old(Den(p.tree[a])) - old(Den(p.tree[b]))
    decreases Size(p.tree[a]) + Size(p.tree[b]), 1
  {
    MinusDen(p.tree[a], p.tree[b], depth);
    p.Terminals(a);
    p.Terminals(b);
    if a == b {
      MinusSelf(p.tree[a], depth);
      return Success(0);
    }
    if a == 0 { return Success(0); }
    if b == 0 { return Success(a); }
    var hit, cached := p.CacheGet(Difference, 0, a, b);
    if hit { return Success(cached); }
    var result :- MinusNodes(p, a, b, depth);
    p.CachePut(Difference, 0, a, b, result);
    return Success(result);
  }

  method MinusNodes(p: LddPackage, a: nat, b: nat, ghost depth: nat) returns (r: Result<nat>)
    requires p.Valid() && p.Is(a, depth) && p.Is(b, depth)
    requires p.tree[a].Node? && p.tree[b].Node?
    modifies p.Repr()
    ensures p.Valid() && Extends(old(p.tree), p.tree)
    ensures r.TableFull? ==> p.Full()
    ensures r.Success? ==> p.Is(r.value, depth) && p.tree[r.value] == Minus(old(p.tree)[a], old(p.tree)[b])
    decreases Size(p.tree[a]) + Size(p.tree[b]), 0
  {
    ghost var ta, tb := p.tree[a], p.tree[b];
    MinusDen(ta, tb, depth);
    var va, vb := p.ValueOf(a), p.ValueOf(b);
    if va < vb {
      var ra, da := p.RightOf(a), p.DownOf(a);
      var right :- MinusOf(p, ra, b, depth);
      assert Minus(ta, tb) == Mk(va, p.tree[da], p.tree[right]);
      r := p.MakeNode(va, da, right, depth);
    } else if va == vb {
      var ra, rb, da, db := p.RightOf(a), p.RightOf(b), p.DownOf(a), p.DownOf(b);
      var down :- MinusOf(p, da, db, depth - 1);
      var right :- MinusOf(p, ra, rb, depth);
      assert Minus(ta, tb) == Mk(va, p.tree[down], p.tree[right]);
      r := p.MakeNode(va, down, right, depth);
    } else {
      r := MinusOf(p, a, p.RightOf(b), depth);
    }
  }

  /** Set intersection. */
  method IntersectOf(p: LddPackage, a0: nat, b0: nat, ghost depth: nat) returns (r: Result<nat>)
    requires p.Valid() && p.Is(a0, depth) && p.Is(b0, depth)
    modifies p.Repr()
    ensures p.Valid() && Extends(old(p.tree), p.tree)
    ensures r.TableFull? ==> p.Full()
    ensures r.Success? ==> p.Is(r.value, depth) && p.tree[r.value] == Intersect(old(p.tree)[a0], old(p.tree)[b0])
    ensures r.Success? ==> Den(p.tree[r.value]) == old(Den(p.tree[a0])) * old(Den(p.tree[b0]))
    decreases Size(p.tree[a0]) + Size(p.tree[b0]), 1
  {
    var a, b := a0, b0;
    ghost var ta, tb := p.tree[a], p.tree[b];
    IntersectDen(ta, tb, depth);
    p.Terminals(a);
    p.Terminals(b);
    if a == b {
      IntersectSelf(ta, depth);
      return Success(a);
    }
    if a == 0 || b == 0 { return Success(0); }
    var empty;
    a, b, empty := SkipToCommon(p, a, b, depth);
    if empty { return Success(0); }
    p.Terminals(a);
    var hit, cached := p.CacheGet(Intersection, a, b, 0);
    if hit { return Success(cached); }
    var result :- IntersectNodes(p, a, b, depth);
    p.CachePut(Intersection, a, b, 0, result);
    return Success(result);
  }

  /** Steps the smaller of two siblings to the right until the values meet or one runs out. */
  method SkipToCommon(p: LddPackage, a0: nat, b0: nat, ghost depth: nat) returns (a: nat, b: nat, empty: bool)
    requires p.Valid() && p.Is(a0, depth) && p.Is(b0, depth)
    requires p.tree[a0].Node? && p.tree[b0].Node?
    ensures empty ==> Intersect(p.tree[a0], p.tree[b0]) == False
    ensures !empty ==> p.Is(a, depth) && p.Is(b, depth) && p.tree[a].Node? && p.tree[b].Node?
    ensures !empty ==> p.tree[a].value == p.tree[b].value
    ensures !empty ==> Intersect(p.tree[a], p.tree[b]) == Intersect(p.tree[a0], p.tree[b0])
    ensures !empty ==> Size(p.tree[a]) + Size(p.tree[b]) <= Size(p.tree[a0]) + Size(p.tree[b0])
  {
    a, b, empty := a0, b0, false;
    var va, vb := p.ValueOf(a), p.ValueOf(b);
    while va != vb
      invariant p.Is(a, depth) && p.Is(b, depth) && p.tree[a].Node? && p.tree[b].Node?
      invariant va == p.tree[a].value && vb == p.tree[b].value
      invariant Intersect(p.tree[a], p.tree[b]) == Intersect(p.tree[a0], p.tree[b0])
      invariant Size(p.tree[a]) + Size(p.tree[b]) <= Size(p.tree[a0]) + Size(p.tree[b0])
      decreases Size(p.tree[a]) + Size(p.tree[b])
    {
      Children(p.tree[a], depth);
      Children(p.tree[b], depth);
      if va < vb {
        a := p.RightOf(a);
        p.Terminals(a);
        if a == 0 { return a, b, true; }
        va := p.ValueOf(a);
      }
      if vb < va {
        assert Intersect(p.tree[a], p.tree[b]) == Intersect(p.tree[a], p.tree[b].right);
        b := p.RightOf(b);
        p.Terminals(b);
        if b == 0 { return a, b, true; }
        vb := p.ValueOf(b);
      }
    }
  }

  method IntersectNodes(p: LddPackage, a: nat, b: nat, ghost depth: nat) returns (r: Result<nat>)
    requires p.Valid() && p.Is(a, depth) && p.Is(b, depth)
    requires p.tree[a].Node? && p.tree[b].Node? && p.tree[a].value == p.tree[b].value
    modifies p.Repr()
    ensures p.Valid() && Extends(old(p.tree), p.tree)
    ensures r.TableFull? ==> p.Full()
    ensures r.Success? ==> p.Is(r.value, depth) && p.tree[r.value] == Intersect(old(p.tree)[a], old(p.tree)[b])
    decreases Size(p.tree[a]) + Size(p.tree[b]), 0
  {
    ghost var ta, tb := p.tree[a], p.tree[b];
    IntersectDen(ta, tb, depth);
    var va, ra, rb, da, db := p.ValueOf(a), p.RightOf(a), p.RightOf(b), p.DownOf(a), p.DownOf(b);
    var down :- IntersectOf(p, da, db, depth - 1);
    var right :- IntersectOf(p, ra, rb, depth);
    assert Intersect(ta, tb) == Mk(va, p.tree[down], p.tree[right]);
    r := p.MakeNode(va, down, right, depth);
  }

  /** Markings reached from those of cmark by taking `minus` and adding `plus`, both single markings. */
  method FiringMono(p: LddPackage, cmark: nat, minus: nat, plus: nat, ghost ms: Marking, ghost ps: Marking)
    returns (r: Result<nat>)
    requires p.Valid() && p.Is(cmark, |ms|) && |ms| == |ps| && InRange(ms) && InRange(ps)
    requires minus in p.tree && p.tree[minus] == Cube(ms) && plus in p.tree && p.tree[plus] == Cube(ps)
    modifies p.Repr()
    ensures p.Valid() && Extends(old(p.tree), p.tree)
    ensures r.TableFull? ==> p.Full()
    ensures r.Success? ==>
      p.Is(r.value, |ms|) && p.tree[r.value] == FireOnto(False, old(p.tree)[cmark], Cube(ms), Cube(ps))
    ensures r.Success? ==> Den(p.tree[r.value]) == FireSet(old(Den(p.tree[cmark])), ms, ps)
    decreases Size(p.tree[cmark]), 1
  {
    FireDen(p.tree[cmark], ms, ps);
    p.Terminals(cmark);
    p.Terminals(minus);
    p.Terminals(plus);
    if cmark == 1 { return Success(1); }
    if minus == 0 || plus == 0 || cmark == 0 { return Success(0); }
    var hit, cached := p.CacheGet(Firing, cmark, minus, plus);
    if hit { return Success(cached); }
    var result :- FireSiblings(p, cmark, minus, plus, ms, ps);
    p.CachePut(Firing, cmark, minus, plus, result);
    return Success(result);
  }

  method FireSiblings(p: LddPackage, cmark: nat, minus: nat, plus: nat, ghost ms: Marking, ghost ps: Marking)
    returns (r: Result<nat>)
    requires p.Valid() && p.Is(cmark, |ms|) && p.tree[cmark].Node? && |ms| == |ps| && InRange(ms) && InRange(ps)
    requires minus in p.tree && p.tree[minus] == Cube(ms) && plus in p.tree && p.tree[plus] == Cube(ps)
    modifies p.Repr()
    ensures p.Valid() && Extends(old(p.tree), p.tree)
    ensures r.TableFull? ==> p.Full()
    ensures r.Success? ==>
      p.Is(r.value, |ms|) && p.tree[r.value] == FireOnto(False, old(p.tree)[cmark], Cube(ms), Cube(ps))
    decreases Size(p.tree[cmark]), 0
  {
    var vm, vp, dm, dp := p.ValueOf(minus), p.ValueOf(plus), p.DownOf(minus), p.DownOf(plus);
    var node, result := cmark, 0;
    p.Leaves();
    while true
      invariant p.Valid() && Extends(old(p.tree), p.tree)
      invariant p.Is(node, |ms|) && p.tree[node].Node? && Size(p.tree[node]) <= Size(old(p.tree)[cmark])
      invariant p.Is(result, |ms|)
      invariant FireOnto(p.tree[result], p.tree[node], Cube(ms), Cube(ps))
             == FireOnto(False, old(p.tree)[cmark], Cube(ms), Cube(ps))
      decreases Size(p.tree[node])
    {
      var v, down, right := p.ValueOf(node), p.DownOf(node), p.RightOf(node);
      ghost var acc, l := p.tree[result], p.tree[node];
      if v >= vm {
        result :- FireBelow(p, result, down, Shift(v, vm, vp), dm, dp, ms, ps);
      }
      assert FireOnto(acc, l, Cube(ms), Cube(ps)) == FireOnto(p.tree[result], l.right, Cube(ms), Cube(ps));
      p.Terminals(right);
      if right == 0 { return Success(result); }
      node := right;
    }
  }

  /** Fires the markings below one sibling and joins what that gives, under its new value, to
      the result so far. */
  method FireBelow(p: LddPackage, acc: nat, down: nat, v: nat, minus: nat, plus: nat,
          ghost ms: Marking, ghost ps: Marking)
    returns (r: Result<nat>)
    requires p.Valid() && |ms| == |ps| > 0 && InRange(ms) && InRange(ps)
    requires p.Is(acc, |ms|) && p.Is(down, |ms| - 1) && v < TOKENS
    requires minus in p.tree && p.tree[minus] == Cube(ms[1..]) && plus in p.tree && p.tree[plus] == Cube(ps[1..])
    modifies p.Repr()
    ensures p.Valid() && Extends(old(p.tree), p.tree)
    ensures r.TableFull? ==> p.Full()
    ensures r.Success? ==> p.Is(r.value, |ms|)
    ensures r.Success? ==>
      p.tree[r.value]
      == Union(old(p.tree)[acc], Mk(v, FireOnto(False, old(p.tree)[down], Cube(ms[1..]), Cube(ps[1..])), False))
    decreases Size(p.tree[down]), 2
  {
    var shot :- FiringMono(p, down, minus, plus, ms[1..], ps[1..]);
    p.Leaves();
    var moved :- p.MakeNode(v, shot, 0, |ms|);
    p.Terminals(moved);
    if moved == 0 { return Success(acc); }
    r := UnionMono(p, acc, moved, |ms|);
  }

  /** Some marking of cmark covers the single marking `minus`.  On the empty set the search ends
      only if `minus` takes a token somewhere: without one it would follow the zero words of
      handle 0 for ever. */
  method IsFirable(p: LddPackage, cmark: nat, minus: nat, ghost ms: Marking) returns (result: bool)
    requires p.Valid() && p.Is(cmark, |ms|) && (cmark == 0 ==> exists i :: 0 <= i < |ms| && ms[i] > 0)
    requires minus in p.tree && p.tree[minus] == Cube(ms)
    ensures result <==> exists x :: x in Den(p.tree[cmark]) && Covers(x, ms)
    decreases Size(p.tree[cmark]), |ms|, 0
  {
    p.Terminals(cmark);
    p.Terminals(minus);
    if cmark == 1 {
      assert [] in Den(p.tree[cmark]) && Covers([], ms);
      return true;
    }
    var vm, dm := p.ValueOf(minus), p.DownOf(minus);
    var node := cmark;
    while true
      invariant p.Is(node, |ms|) && (if cmark == 0 then node == 0 else p.tree[node].Node?)
      invariant Size(p.tree[node]) <= Size(p.tree[cmark])
      invariant Covered(p.tree[node], ms) <==> Covered(p.tree[cmark], ms)
      decreases Size(p.tree[node])
    {
      ghost var l := p.tree[node];
      if l.Node? {
        CoverNode(l, |ms|, ms);
        Children(l, |ms|);
      }
      var v, down, right := p.ValueOf(node), p.DownOf(node), p.RightOf(node);
      if v >= vm {
        if down == 0 { TokenBelow(ms); }
        result := FirableBelow(p, down, dm, ms[1..]);
        if result { return true; }
      }
      node := right;
      p.Terminals(node);
      if node == 0 { return false; }
    }
  }

  /** The recursion stops at the leaf. */
  method FirableBelow(p: LddPackage, mark: nat, minus: nat, ghost ms: Marking) returns (result: bool)
    requires p.Valid() && p.Is(mark, |ms|) && (mark == 0 ==> exists i :: 0 <= i < |ms| && ms[i] > 0)
    requires minus in p.tree && p.tree[minus] == Cube(ms)
    ensures result <==> exists x :: x in Den(p.tree[mark]) && Covers(x, ms)
    decreases Size(p.tree[mark]), |ms|, 1
  {
    p.Terminals(mark);
    if mark == 1 {
      assert [] in Den(p.tree[mark]) && Covers([], ms);
      return true;
    }
    result := IsFirable(p, mark, minus, ms);
  }

  ghost predicate Covered(l: Ldd, ms: Marking) {
    exists x :: x in Den(l) && Covers(x, ms)
  }

  lemma TokenBelow(ms: Marking)
    requires exists i :: 0 <= i < |ms| && ms[i] > 0
    ensures ms[0] == 0 ==> exists i :: 0 <= i < |ms[1..]| && ms[1..][i] > 0
  {
    var i :| 0 <= i < |ms| && ms[i] > 0;
    if i > 0 { assert ms[1..][i - 1] > 0; }
  }

  lemma CoverNode(l: Ldd, depth: nat, ms: Marking)
    requires l.Node? && Wf(l, depth) && |ms| == depth
    ensures Covered(l, ms) <==> Covered(l.right, ms) || (l.value >= ms[0] && Covered(l.down, ms[1..]))
  {
    if x :| Has(l, x) && Covers(x, ms) && !Has(l.right, x) {
      assert Has(l.down, x[1..]) && Covers(x[1..], ms[1..]);
    }
    if l.value >= ms[0] {
      if x :| Has(l.down, x) && Covers(x, ms[1..]) {
        var y := [l.value] + x;
        assert y[1..] == x;
        assert Has(l, y) && Covers(y, ms);
      }
    }
  }

  /** Markings that agree with the first one up to `level`. */
  method DivideInternal(p: LddPackage, a: nat, current: nat, level: nat, ghost depth: nat) returns (r: Result<nat>)
    requires p.Valid() && p.Is(a, depth)
    modifies p.Repr()
    ensures p.Valid() && Extends(old(p.tree), p.tree)
    ensures r.TableFull? ==> p.Full()
    ensures r.Success? ==> p.Is(r.value, depth) && p.tree[r.value] == Divide(old(p.tree)[a], current, level)
    decreases Size(p.tree[a]), 1
  {
    ghost var t := p.tree[a];
    DivideWf(t, depth, current, level);
    p.Terminals(a);
    if a <= 1 { return Success(a); }
    var hit, cached := p.CacheGet(Division, a, current, level);
    if hit { return Success(cached); }
    var result :- DivideNode(p, a, current, level, depth);
    p.CachePut(Division, a, current, level, result);
    return Success(result);
  }

  /** The result when the cache has none. */
  method DivideNode(p: LddPackage, a: nat, current: nat, level: nat, ghost depth: nat) returns (r: Result<nat>)
    requires p.Valid() && p.Is(a, depth) && a > 1
    modifies p.Repr()
    ensures p.Valid() && Extends(old(p.tree), p.tree)
    ensures r.TableFull? ==> p.Full()
    ensures r.Success? ==> p.Is(r.value, depth) && p.tree[r.value] == Divide(old(p.tree)[a], current, level)
    decreases Size(p.tree[a]), 0
  {
    ghost var t := p.tree[a];
    DivideWf(t, depth, current, level);
    p.Terminals(a);
    var v, da, ra := p.ValueOf(a), p.DownOf(a), p.RightOf(a);
    if current <= level {
      var down :- DivideInternal(p, da, current + 1, level, depth - 1);
      p.Leaves();
      assert Divide(t, current, level) == Mk(v, p.tree[down], False);
      r := p.MakeNode(v, down, 0, depth);
    } else {
      var right :- DivideInternal(p, ra, current, level, depth);
      var down :- DivideInternal(p, da, current + 1, level, depth - 1);
      assert Divide(t, current, level) == Mk(v, p.tree[down], p.tree[right]);
      r := p.MakeNode(v, down, right, depth);
    }
  }

  method DivideRec(p: LddPackage, a: nat, level: nat, ghost depth: nat) returns (r: Result<nat>)
    requires p.Valid() && p.Is(a, depth) && level < depth
    modifies p.Repr()
    ensures p.Valid() && Extends(old(p.tree), p.tree)
    ensures r.TableFull? ==> p.Full()
    ensures r.Success? ==> p.Is(r.value, depth)
    ensures r.Success? ==>
              Den(p.tree[r.value]) == set x | x in old(Den(p.tree[a])) && Agrees(x, First(old(p.tree[a])), level + 1)
    ensures r.Success? && a != 0 ==> First(old(p.tree[a])) in Den(p.tree[r.value])
  {
    DivideDen(p.tree[a], depth, level);
    p.Terminals(a);
    r := DivideInternal(p, a, 0, level, depth);
  }

  /** At most one marking. */
  method IsSingle(p: LddPackage, a: nat, ghost depth: nat) returns (single: bool)
    requires p.Valid() && p.Is(a, depth)
    ensures single <==> AtMostOne(Den(p.tree[a]))
  {
    ChainSingle(p.tree[a], depth);
    var node := a;
    p.Terminals(node);
    while node > 1
      invariant node in p.tree && (node > 1 <==> p.tree[node].Node?)
      invariant Chain(p.tree[a]) == Chain(p.tree[node])
      decreases Size(p.tree[node])
    {
      var right := p.RightOf(node);
      p.Terminals(right);
      if right != 0 { return false; }
      node := p.DownOf(node);
      p.Terminals(node);
    }
    return true;
  }

  /** Number of siblings reached by following the leftmost path for `level` levels. */
  method MddNumber(p: LddPackage, a: nat, level: nat, ghost depth: nat) returns (count: nat)
    requires p.Valid() && p.Is(a, depth) && level < depth && a != 0
    ensures count <= 1 <==> AgreeAt(p.tree[a], level)
  {
    p.Terminals(a);
    BreadthAgrees(p.tree[a], depth, level);
    var node := a;
    for j := 0 to level
      invariant p.Is(node, depth - j) && node in p.tree && !p.tree[node].False?
      invariant Leftmost(p.tree[node], level - j) == Leftmost(p.tree[a], level)
    {
      node := p.DownOf(node);
      p.Terminals(node);
    }
    count := 0;
    ghost var d := depth - level;
    p.Terminals(node);
    while node != 0
      invariant p.Is(node, d) && (node == 0 <==> p.tree[node] == False)
      invariant count + Breadth(p.tree[node]) == Breadth(Leftmost(p.tree[a], level))
      decreases Size(p.tree[node])
    {
      node := p.RightOf(node);
      p.Terminals(node);
      count := count + 1;
    }
  }
}
