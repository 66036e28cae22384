/** List decision diagrams as immutable trees: what a node handle stands for.

    A diagram denotes a set of markings of one length (its depth).  The package
    in LddPackage.dfy stores these trees hash-consed in arrays; its operations
    are proved to compute the functions of this module, and the lemmas here say
    what those functions mean as operations on sets of markings. */
module Ldds {

  /** Number of values of a 32-bit unsigned token count. */
  const TOKENS: nat := 0x1_0000_0000

  type Marking = seq<nat>

  datatype Ldd = False | True | Node(value: nat, down: Ldd, right: Ldd)

  /** Well-formed diagram of the given depth: values strictly increase to the right,
      no node has an empty child, and every path has the same length. */
  predicate Wf(l: Ldd, depth: nat) {
    match l
    case False => true
    case True => depth == 0
    case Node(v, d, r) =>
      && 0 < depth && v < TOKENS && !d.False?
      && Wf(d, depth - 1) && Wf(r, depth)
      && (r.Node? ==> v < r.value)
  }

  lemma Children(l: Ldd, depth: nat)
    requires l.Node? && Wf(l, depth)
    ensures depth > 0 && Wf(l.down, depth - 1) && Wf(l.right, depth) && !l.right.True?
    ensures l.down.True? <==> depth == 1
  {
  }

  /** x is one of the markings of l. */
  predicate Has(l: Ldd, x: Marking) {
    match l
    case False => false
    case True => x == []
    case Node(v, d, r) => (x != [] && x[0] == v && Has(d, x[1..])) || Has(r, x)
  }

  ghost predicate Denotes(l: Ldd, s: set<Marking>) {
    forall x :: x in s <==> Has(l, x)
  }

  lemma {:induction false} Denotation(l: Ldd)
    ensures exists s :: Denotes(l, s)
  {
    match l
    case False => assert Denotes(l, {});
    case True => assert Denotes(l, {[]});
    case Node(v, d, r) =>
      Denotation(d);
      Denotation(r);
      var sd :| Denotes(d, sd);
      var sr :| Denotes(r, sr);
      var s := (set y | y in sd :: [v] + y) + sr;
      forall x ensures x in s <==> Has(l, x) {
        if x != [] && x[0] == v && Has(d, x[1..]) { assert x == [v] + x[1..]; }
      }
      assert Denotes(l, s);
  }

  /** The set of markings of l. */
  ghost function Den(l: Ldd): (s: set<Marking>)
    ensures forall x :: x in s <==> Has(l, x)
  {
    Denotation(l);
    var s :| Denotes(l, s);
    s
  }

  ghost function Size(l: Ldd): nat {
    match l
    case Node(_, d, r) => 1 + Size(d) + Size(r)
    case _ => 0
  }

  /** A sequence without repetition has as many elements as its set. */
  lemma {:induction false} DistinctCount<T>(xs: seq<T>)
    requires forall i, j :: 0 <= i < j < |xs| ==> xs[i] != xs[j]
    ensures |set x | x in xs| == |xs|
  {
    if xs != [] {
      DistinctCount(xs[1..]);
      assert (set x | x in xs) == (set x | x in xs[1..]) + {xs[0]};
    }
  }

  // ---- shape of members ----

  lemma HasLength(l: Ldd, depth: nat, x: Marking)
    requires Wf(l, depth) && Has(l, x)
    ensures |x| == depth && forall i :: 0 <= i < |x| ==> x[i] < TOKENS
  {
    if l.Node? {
      if x != [] && x[0] == l.value && Has(l.down, x[1..]) {
        HasLength(l.down, depth - 1, x[1..]);
        assert forall i :: 1 <= i < |x| ==> x[i] == x[1..][i - 1];
      } else {
        HasLength(l.right, depth, x);
      }
    }
  }

  /** Every member of a node starts with at least the node's value. */
  lemma HasHead(l: Ldd, depth: nat, x: Marking)
    requires l.Node? && Wf(l, depth) && Has(l, x)
    ensures x != [] && l.value <= x[0]
    ensures Has(l.right, x) ==> l.value < x[0]
  {
    if l.right.Node? && Has(l.right, x) {
      HasHead(l.right, depth, x);
    }
  }

  /** The marking spelled by the leftmost path. */
  function First(l: Ldd): Marking {
    if l.Node? then [l.value] + First(l.down) else []
  }

  lemma HasFirst(l: Ldd, depth: nat)
    requires Wf(l, depth) && !l.False?
    ensures Has(l, First(l)) && |First(l)| == depth
  {
    if l.Node? {
      HasFirst(l.down, depth - 1);
      assert First(l)[1..] == First(l.down);
    }
  }

  /** What membership in a node says about its two children. */
  lemma NodeMembers(l: Ldd, depth: nat)
    requires l.Node? && Wf(l, depth)
    ensures forall y :: Has(l.down, y) <==> Has(l, [l.value] + y)
    ensures forall x :: Has(l.right, x) <==> Has(l, x) && x != [] && x[0] != l.value
  {
    forall y ensures Has(l.down, y) <==> Has(l, [l.value] + y) {
      var x := [l.value] + y;
      assert x[1..] == y;
      if Has(l.right, x) { HasHead(l, depth, x); assert false; }
    }
    forall x ensures Has(l.right, x) <==> Has(l, x) && x != [] && x[0] != l.value {
      if Has(l, x) {
        HasHead(l, depth, x);
      }
    }
  }

  // ---- canonicity ----

  lemma {:induction false} CanonicalHas(a: Ldd, b: Ldd, depth: nat)
    requires Wf(a, depth) && Wf(b, depth)
    requires forall x :: Has(a, x) <==> Has(b, x)
    ensures a == b
    decreases Size(a) + Size(b)
  {
    if a.False? || b.False? {
      if !a.False? { HasFirst(a, depth); }
      if !b.False? { HasFirst(b, depth); }
    } else if depth > 0 {
      HasFirst(a, depth);
      HasFirst(b, depth);
      HasHead(b, depth, First(a));
      HasHead(a, depth, First(b));
      NodeMembers(a, depth);
      NodeMembers(b, depth);
      assert forall y :: Has(a.down, y) <==> Has(b.down, y) by {
        forall y ensures Has(a.down, y) <==> Has(b.down, y) {
          assert Has(a, [a.value] + y) <==> Has(b, [a.value] + y);
        }
      }
      CanonicalHas(a.down, b.down, depth - 1);
      CanonicalHas(a.right, b.right, depth);
    }
  }

  /** Two well-formed diagrams of one depth are the same tree exactly when they denote the same set. */
  lemma Canonical(a: Ldd, b: Ldd, depth: nat)
    requires Wf(a, depth) && Wf(b, depth)
    ensures Den(a) == Den(b) <==> a == b
  {
    if Den(a) == Den(b) {
      forall x ensures Has(a, x) <==> Has(b, x) {
        assert x in Den(a) <==> x in Den(b);
      }
      CanonicalHas(a, b, depth);
    }
  }

  lemma EmptyIsFalse(l: Ldd, depth: nat)
    requires Wf(l, depth)
    ensures Den(l) == {} <==> l.False?
  {
    if !l.False? { HasFirst(l, depth); }
  }

  // ---- building ----

  /** A node unless its child is empty. */
  function Mk(v: nat, down: Ldd, right: Ldd): Ldd {
    if down.False? then right else Node(v, down, right)
  }

  function Cube(values: Marking): (l: Ldd)
    ensures !l.False?
  {
    if values == [] then True else Node(values[0], Cube(values[1..]), False)
  }

  predicate InRange(x: Marking) {
    forall i :: 0 <= i < |x| ==> x[i] < TOKENS
  }

  lemma {:induction false} CubeHas(values: Marking, x: Marking)
    ensures Has(Cube(values), x) <==> x == values
  {
    if values != [] && x != [] {
      CubeHas(values[1..], x[1..]);
      assert x == [x[0]] + x[1..] && values == [values[0]] + values[1..];
    }
  }

  lemma {:induction false} CubeWf(values: Marking)
    requires InRange(values)
    ensures Wf(Cube(values), |values|)
  {
    if values != [] { CubeWf(values[1..]); }
  }

  /** A cube denotes exactly the marking it was built from. */
  lemma CubeDenotes(values: Marking)
    requires InRange(values)
    ensures Wf(Cube(values), |values|)
    ensures Den(Cube(values)) == {values}
  {
    CubeWf(values);
    forall x ensures x in Den(Cube(values)) <==> x == values { CubeHas(values, x); }
  }

  // ---- union ----

  function Union(a: Ldd, b: Ldd): Ldd
    decreases Size(a) + Size(b)
  {
    if a.False? then b
    else if b.False? || a.True? || b.True? then a
    else if a.value < b.value then Mk(a.value, a.down, Union(a.right, b))
    else if a.value == b.value then Mk(a.value, Union(a.down, b.down), Union(a.right, b.right))
    else Mk(b.value, b.down, Union(a, b.right))
  }

  lemma {:induction false} UnionHas(a: Ldd, b: Ldd, depth: nat)
    requires Wf(a, depth) && Wf(b, depth)
    ensures Wf(Union(a, b), depth)
    ensures !a.False? || !b.False? ==> !Union(a, b).False?
    ensures a.Node? && b.Node? ==>
      Union(a, b).Node? && Union(a, b).value == if a.value < b.value then a.value else b.value
    ensures forall x :: Has(Union(a, b), x) <==> Has(a, x) || Has(b, x)
    decreases Size(a) + Size(b)
  {
    if a.Node? && b.Node? {
      if a.value < b.value {
        UnionHas(a.right, b, depth);
      } else if a.value == b.value {
        UnionHas(a.down, b.down, depth - 1);
        UnionHas(a.right, b.right, depth);
      } else {
        UnionHas(a, b.right, depth);
      }
    }
  }

  /** Union of diagrams is union of sets. */
  lemma UnionDen(a: Ldd, b: Ldd, depth: nat)
    requires Wf(a, depth) && Wf(b, depth)
    ensures Wf(Union(a, b), depth)
    ensures Den(Union(a, b)) == Den(a) + Den(b)
  {
    UnionHas(a, b, depth);
  }

  lemma UnionCommutes(a: Ldd, b: Ldd, depth: nat)
    requires Wf(a, depth) && Wf(b, depth)
    ensures Union(a, b) == Union(b, a)
  {
    UnionDen(a, b, depth);
    UnionDen(b, a, depth);
    Canonical(Union(a, b), Union(b, a), depth);
  }

  lemma UnionSelf(a: Ldd, depth: nat)
    requires Wf(a, depth)
    ensures Union(a, a) == a
  {
    UnionDen(a, a, depth);
    Canonical(Union(a, a), a, depth);
  }

  // ---- difference ----

  function Minus(a: Ldd, b: Ldd): Ldd
    decreases Size(a) + Size(b)
  {
    if a.False? || b.False? then a
    else if a.True? || b.True? then False
    else if a.value < b.value then Mk(a.value, a.down, Minus(a.right, b))
    else if a.value == b.value then Mk(a.value, Minus(a.down, b.down), Minus(a.right, b.right))
    else Minus(a, b.right)
  }

  lemma {:induction false} MinusHas(a: Ldd, b: Ldd, depth: nat)
    requires Wf(a, depth) && Wf(b, depth)
    ensures Wf(Minus(a, b), depth)
    ensures a.Node? && Minus(a, b).Node? ==> a.value <= Minus(a, b).value
    ensures forall x :: Has(Minus(a, b), x) <==> Has(a, x) && !Has(b, x)
    decreases Size(a) + Size(b)
  {
    if a.Node? && b.Node? {
      NodeMembers(a, depth);
      NodeMembers(b, depth);
      if a.value < b.value {
        MinusHas(a.right, b, depth);
        forall x | Has(b, x) ensures x != [] && b.value <= x[0] { HasHead(b, depth, x); }
      } else if a.value == b.value {
        MinusHas(a.down, b.down, depth - 1);
        MinusHas(a.right, b.right, depth);
        forall x ensures Has(Minus(a, b), x) <==> Has(a, x) && !Has(b, x) {
          if x != [] && x[0] == a.value {
            assert x == [a.value] + x[1..];
          }
        }
      } else {
        MinusHas(a, b.right, depth);
        forall x | Has(a, x) ensures Has(b, x) == Has(b.right, x) { HasHead(a, depth, x); }
      }
    }
  }

  /** Difference of diagrams is difference of sets. */
  lemma MinusDen(a: Ldd, b: Ldd, depth: nat)
    requires Wf(a, depth) && Wf(b, depth)
    ensures Wf(Minus(a, b), depth)
    ensures Den(Minus(a, b)) == Den(a) - Den(b)
  {
    MinusHas(a, b, depth);
  }

  lemma MinusSelf(a: Ldd, depth: nat)
    requires Wf(a, depth)
    ensures Minus(a, a) == False
  {
    MinusDen(a, a, depth);
    EmptyIsFalse(Minus(a, a), depth);
  }

  // ---- intersection ----

  function Intersect(a: Ldd, b: Ldd): Ldd
    decreases Size(a) + Size(b)
  {
    if a.False? || b.False? then False
    else if a.True? || b.True? then a
    else if a.value < b.value then Intersect(a.right, b)
    else if a.value == b.value then Mk(a.value, Intersect(a.down, b.down), Intersect(a.right, b.right))
    else Intersect(a, b.right)
  }

  lemma {:induction false} IntersectHas(a: Ldd, b: Ldd, depth: nat)
    requires Wf(a, depth) && Wf(b, depth)
    ensures Wf(Intersect(a, b), depth)
    ensures a.Node? && Intersect(a, b).Node? ==> a.value <= Intersect(a, b).value
    ensures forall x :: Has(Intersect(a, b), x) <==> Has(a, x) && Has(b, x)
    decreases Size(a) + Size(b)
  {
    if a.Node? && b.Node? {
      NodeMembers(a, depth);
      NodeMembers(b, depth);
      if a.value < b.value {
        IntersectHas(a.right, b, depth);
        forall x | Has(b, x) ensures Has(a, x) == Has(a.right, x) { HasHead(b, depth, x); }
      } else if a.value == b.value {
        IntersectHas(a.down, b.down, depth - 1);
        IntersectHas(a.right, b.right, depth);
        forall x ensures Has(Intersect(a, b), x) <==> Has(a, x) && Has(b, x) {
          if x != [] && x[0] == a.value {
            assert x == [a.value] + x[1..];
          }
        }
      } else {
        IntersectHas(a, b.right, depth);
        forall x | Has(a, x) ensures Has(b, x) == Has(b.right, x) { HasHead(a, depth, x); }
      }
    }
  }

  /** Intersection of diagrams is intersection of sets. */
  lemma IntersectDen(a: Ldd, b: Ldd, depth: nat)
    requires Wf(a, depth) && Wf(b, depth)
    ensures Wf(Intersect(a, b), depth)
    ensures Den(Intersect(a, b)) == Den(a) * Den(b)
  {
    IntersectHas(a, b, depth);
  }

  lemma IntersectSelf(a: Ldd, depth: nat)
    requires Wf(a, depth)
    ensures Intersect(a, a) == a
  {
    IntersectDen(a, a, depth);
    Canonical(Intersect(a, a), a, depth);
  }

  // ---- firing ----

  /** Token count after taking `minus` and adding `plus` in 32-bit unsigned arithmetic. */
  function Shift(v: nat, minus: nat, plus: nat): (w: nat)
    requires minus <= v
    ensures w < TOKENS
    ensures v - minus + plus < TOKENS ==> w == v - minus + plus
  {
    (v - minus + plus) % TOKENS
  }

  predicate Covers(x: Marking, minus: Marking) {
    |x| == |minus| && forall i :: 0 <= i < |x| ==> minus[i] <= x[i]
  }

  function FireMarking(x: Marking, minus: Marking, plus: Marking): (y: Marking)
    requires Covers(x, minus) && |plus| == |x|
    ensures |y| == |x| && forall i :: 0 <= i < |x| ==> y[i] == Shift(x[i], minus[i], plus[i])
  {
    seq(|x|, i requires 0 <= i < |x| && Covers(x, minus) && |plus| == |x| => Shift(x[i], minus[i], plus[i]))
  }

  /** Fires every marking of l, joining the results to acc; only the leftmost paths of
      minus and plus are read. */
  function FireOnto(acc: Ldd, l: Ldd, minus: Ldd, plus: Ldd): Ldd
    decreases l
  {
    match l
    case False => acc
    case True => if acc.False? then True else acc
    case Node(v, d, r) =>
      if !minus.Node? || !plus.Node? then acc
      else if v >= minus.value then
        FireOnto(Union(acc, Mk(Shift(v, minus.value, plus.value), FireOnto(False, d, minus.down, plus.down), False)),
                 r, minus, plus)
      else FireOnto(acc, r, minus, plus)
  }

  ghost predicate Fired(l: Ldd, minus: Marking, plus: Marking, y: Marking)
    requires |minus| == |plus|
  {
    exists x :: Has(l, x) && Covers(x, minus) && y == FireMarking(x, minus, plus)
  }

  lemma FiredNode(l: Ldd, minus: Marking, plus: Marking, y: Marking)
    requires l.Node? && |minus| == |plus| > 0
    ensures Fired(l, minus, plus, y) <==>
            || Fired(l.right, minus, plus, y)
            || (l.value >= minus[0] && y != [] && y[0] == Shift(l.value, minus[0], plus[0])
                && Fired(l.down, minus[1..], plus[1..], y[1..]))
  {
    if Fired(l, minus, plus, y) {
      var x :| Has(l, x) && Covers(x, minus) && y == FireMarking(x, minus, plus);
      if !Has(l.right, x) {
        assert y[1..] == FireMarking(x[1..], minus[1..], plus[1..]);
      }
    }
    if l.value >= minus[0] && y != [] && y[0] == Shift(l.value, minus[0], plus[0])
       && Fired(l.down, minus[1..], plus[1..], y[1..]) {
      var x :| Has(l.down, x) && Covers(x, minus[1..]) && y[1..] == FireMarking(x, minus[1..], plus[1..]);
      var z := [l.value] + x;
      assert z[1..] == x;
      assert Covers(z, minus);
      assert y == FireMarking(z, minus, plus);
    }
  }

  lemma {:induction false} FireOntoHas(acc: Ldd, l: Ldd, minus: Marking, plus: Marking)
    requires |minus| == |plus| && InRange(minus) && InRange(plus)
    requires Wf(acc, |minus|) && Wf(l, |minus|)
    ensures Wf(FireOnto(acc, l, Cube(minus), Cube(plus)), |minus|)
    ensures forall y :: Has(FireOnto(acc, l, Cube(minus), Cube(plus)), y) <==> Has(acc, y) || Fired(l, minus, plus, y)
    decreases l
  {
    match l
    case False =>
    case True =>
      forall y ensures Fired(l, minus, plus, y) <==> y == [] {
        if y == [] { assert Has(l, []) && Covers([], minus) && y == FireMarking([], minus, plus); }
      }
    case Node(v, d, r) =>
      var n := |minus|;
      var m, p := Cube(minus), Cube(plus);
      assert m == Node(minus[0], Cube(minus[1..]), False) && p == Node(plus[0], Cube(plus[1..]), False);
      var shot := FireOnto(False, d, m.down, p.down);
      FireOntoHas(False, d, minus[1..], plus[1..]);
      if v >= minus[0] {
        var one := Mk(Shift(v, minus[0], plus[0]), shot, False);
        UnionHas(acc, one, n);
        FireOntoHas(Union(acc, one), r, minus, plus);
        assert FireOnto(acc, l, m, p) == FireOnto(Union(acc, one), r, m, p);
        forall y ensures Has(FireOnto(acc, l, m, p), y) <==> Has(acc, y) || Fired(l, minus, plus, y) {
          FiredNode(l, minus, plus, y);
          assert Has(FireOnto(Union(acc, one), r, m, p), y) <==> Has(Union(acc, one), y) || Fired(r, minus, plus, y);
          assert Has(one, y) <==> y != [] && y[0] == Shift(v, minus[0], plus[0]) && Has(shot, y[1..]);
        }
      } else {
        FireOntoHas(acc, r, minus, plus);
        forall y ensures Fired(r, minus, plus, y) <==> Fired(l, minus, plus, y) {
          FiredNode(l, minus, plus, y);
        }
      }
  }

  function FireSet(s: set<Marking>, minus: Marking, plus: Marking): (r: set<Marking>)
    requires |minus| == |plus|
  {
    set x | x in s && Covers(x, minus) :: FireMarking(x, minus, plus)
  }

  /** Firing a diagram fires exactly its markings that cover the input arcs. */
  lemma FireDen(l: Ldd, minus: Marking, plus: Marking)
    requires |minus| == |plus| && InRange(minus) && InRange(plus) && Wf(l, |minus|)
    ensures var f := FireOnto(False, l, Cube(minus), Cube(plus));
            Wf(f, |minus|) && Den(f) == FireSet(Den(l), minus, plus)
  {
    FireOntoHas(False, l, minus, plus);
    var f := FireOnto(False, l, Cube(minus), Cube(plus));
    forall y ensures y in Den(f) <==> y in FireSet(Den(l), minus, plus) {
      if Fired(l, minus, plus, y) {
        var x :| Has(l, x) && Covers(x, minus) && y == FireMarking(x, minus, plus);
        assert x in Den(l);
      }
    }
  }

  // ---- splitting at a level ----

  /** Keeps the first node on every level up to `level`, everything below it. */
  function Divide(l: Ldd, current: nat, level: nat): Ldd {
    match l
    case Node(v, d, r) =>
      if current <= level then Mk(v, Divide(d, current + 1, level), False)
      else Mk(v, Divide(d, current + 1, level), Divide(r, current, level))
    case _ => l
  }

  lemma {:induction false} DivideBelow(l: Ldd, depth: nat, current: nat, level: nat)
    requires Wf(l, depth) && level < current
    ensures Divide(l, current, level) == l
  {
    if l.Node? {
      DivideBelow(l.down, depth - 1, current + 1, level);
      DivideBelow(l.right, depth, current, level);
    }
  }

  lemma {:induction false} DivideWf(l: Ldd, depth: nat, current: nat, level: nat)
    requires Wf(l, depth)
    ensures Wf(Divide(l, current, level), depth)
    ensures Divide(l, current, level).False? <==> l.False?
    ensures l.Node? ==> Divide(l, current, level).Node? && Divide(l, current, level).value == l.value
  {
    if l.Node? {
      DivideWf(l.down, depth - 1, current + 1, level);
      DivideWf(l.right, depth, current, level);
    }
  }

  /** x agrees with p on the first w components. */
  predicate Agrees(x: Marking, p: Marking, w: nat) {
    w <= |x| && w <= |p| && forall i :: 0 <= i < w ==> x[i] == p[i]
  }

  lemma AgreesTail(x: Marking, p: Marking, w: nat)
    requires x != [] && p != [] && w > 0
    ensures Agrees(x, p, w) <==> x[0] == p[0] && Agrees(x[1..], p[1..], w - 1)
  {
    if x[0] == p[0] && Agrees(x[1..], p[1..], w - 1) {
      forall i | 0 <= i < w ensures x[i] == p[i] {
        if i > 0 { assert x[1..][i - 1] == p[1..][i - 1]; }
      }
    }
  }

  lemma {:induction false} DivideHas(l: Ldd, depth: nat, current: nat, level: nat)
    requires Wf(l, depth) && current <= level + 1 <= depth + current
    ensures Wf(Divide(l, current, level), depth)
    ensures Divide(l, current, level).False? <==> l.False?
    ensures forall x :: Has(Divide(l, current, level), x) <==> Has(l, x) && Agrees(x, First(l), level + 1 - current)
    decreases l
  {
    var w := level + 1 - current;
    var s := Divide(l, current, level);
    if current > level {
      DivideBelow(l, depth, current, level);
      forall x | Has(l, x) ensures Agrees(x, First(l), 0) {}
    } else if l.Node? {
      DivideHas(l.down, depth - 1, current + 1, level);
      NodeMembers(l, depth);
      assert First(l)[1..] == First(l.down);
      forall x ensures Has(s, x) <==> Has(l, x) && Agrees(x, First(l), w) {
        if x != [] {
          AgreesTail(x, First(l), w);
          if x[0] == l.value { assert x == [l.value] + x[1..]; }
        }
      }
    }
  }

  /** Dividing keeps the markings that agree with the first one up to `level`. */
  lemma DivideDen(l: Ldd, depth: nat, level: nat)
    requires Wf(l, depth) && level < depth
    ensures Wf(Divide(l, 0, level), depth)
    ensures !l.False? ==> First(l) in Den(Divide(l, 0, level))
    ensures Den(Divide(l, 0, level)) == set x | x in Den(l) && Agrees(x, First(l), level + 1)
  {
    DivideHas(l, depth, 0, level);
    if !l.False? { HasFirst(l, depth); }
  }

  // ---- counting along the leftmost path ----

  ghost predicate AtMostOne(s: set<Marking>) { |s| <= 1 }

  lemma OnlyOne(s: set<Marking>, x: Marking, y: Marking)
    requires x in s && y in s
    ensures AtMostOne(s) ==> x == y
  {
    assert s == {x, y} + (s - {x, y});
  }

  /** No node on the leftmost path has a right sibling. */
  predicate Chain(l: Ldd) {
    l.Node? ==> l.right.False? && Chain(l.down)
  }

  lemma {:induction false} ChainMembers(l: Ldd, depth: nat)
    requires Wf(l, depth) && !l.False?
    ensures if Chain(l) then Den(l) == {First(l)} else exists y :: y in Den(l) && y != First(l)
  {
    HasFirst(l, depth);
    if l.Node? {
      ChainMembers(l.down, depth - 1);
      NodeMembers(l, depth);
      if !l.right.False? {
        var y := First(l.right);
        HasFirst(l.right, depth);
        HasHead(l, depth, y);
        assert y in Den(l);
      } else if Chain(l.down) {
        forall x | x in Den(l) ensures x == First(l) {
          assert x == [l.value] + x[1..] && x[1..] in Den(l.down);
        }
      } else {
        var y :| y in Den(l.down) && y != First(l.down);
        assert ([l.value] + y)[1..] == y && First(l)[1..] == First(l.down);
        assert [l.value] + y in Den(l);
      }
    }
  }

  /** Such a path is the whole diagram: at most one marking, and conversely. */
  lemma ChainSingle(l: Ldd, depth: nat)
    requires Wf(l, depth)
    ensures Chain(l) <==> AtMostOne(Den(l))
  {
    if !l.False? {
      HasFirst(l, depth);
      ChainMembers(l, depth);
      if y :| y in Den(l) && y != First(l) { OnlyOne(Den(l), y, First(l)); }
    }
  }

  /** What is left after following the leftmost path for `level` levels. */
  function Leftmost(l: Ldd, level: nat): Ldd {
    if level == 0 || !l.Node? then l else Leftmost(l.down, level - 1)
  }

  function Breadth(l: Ldd): nat {
    if l.Node? then 1 + Breadth(l.right) else 0
  }

  /** The markings that agree with the first one above a level agree with it there too. */
  ghost predicate AgreeAt(l: Ldd, level: nat) {
    forall x {:trigger Agrees(x, First(l), level)} ::
      x in Den(l) && Agrees(x, First(l), level) ==> Agrees(x, First(l), level + 1)
  }

  lemma AgreesBelow(l: Ldd, depth: nat, level: nat, y: Marking)
    requires l.Node? && Wf(l, depth) && level > 0
    ensures [l.value] + y in Den(l) <==> y in Den(l.down)
    ensures Agrees([l.value] + y, First(l), level) <==> Agrees(y, First(l.down), level - 1)
    ensures Agrees([l.value] + y, First(l), level + 1) <==> Agrees(y, First(l.down), level)
  {
    var x := [l.value] + y;
    NodeMembers(l, depth);
    assert x[1..] == y && First(l)[1..] == First(l.down);
    AgreesTail(x, First(l), level);
    AgreesTail(x, First(l), level + 1);
  }

  lemma AgreeAtBelow(l: Ldd, depth: nat, level: nat)
    requires l.Node? && Wf(l, depth) && level > 0
    ensures AgreeAt(l, level) <==> AgreeAt(l.down, level - 1)
  {
    forall y ensures [l.value] + y in Den(l) && Agrees([l.value] + y, First(l), level)
                     && !Agrees([l.value] + y, First(l), level + 1)
                <==> y in Den(l.down) && Agrees(y, First(l.down), level - 1) && !Agrees(y, First(l.down), level) {
      AgreesBelow(l, depth, level, y);
    }
    forall x | x in Den(l) && Agrees(x, First(l), level) ensures x == [l.value] + x[1..] {
      assert x[0] == First(l)[0];
    }
  }

  /** Only one sibling at a level: the markings that agree with the first one above it
      agree with it there too. */
  lemma {:induction false} BreadthAgrees(l: Ldd, depth: nat, level: nat)
    requires Wf(l, depth) && !l.False? && level < depth
    ensures Leftmost(l, level).Node?
    ensures Breadth(Leftmost(l, level)) <= 1 <==> AgreeAt(l, level)
  {
    if level > 0 {
      BreadthAgrees(l.down, depth - 1, level - 1);
      AgreeAtBelow(l, depth, level);
    } else {
      HasFirst(l, depth);
      NodeMembers(l, depth);
      if !l.right.False? {
        var y := First(l.right);
        HasFirst(l.right, depth);
        HasHead(l, depth, y);
        assert y in Den(l) && Agrees(y, First(l), 0);
      }
    }
  }
}
