/** Garbage collection and node counting: both follow the children of stored nodes, one
    marking buckets in the bitmap, the other setting and clearing the mark bit of the node words. */
module LddGcs {
  import opened Words
  import opened Ldds
  import opened UniqueTables
  import opened LddPackages

  // ---- reachable handles ----

  /** Handles of the nodes reachable from h; the two leaves are not nodes. */
  ghost function Reach(keys: map<nat, Key>, t: Forest, h: nat): (r: set<nat>)
    requires ForestOk(keys, t) && h in t
    ensures r <= keys.Keys
    decreases t[h]
  {
    if h <= 1 then {} else
      assert NodeOk(keys[h], t, t[h]);
      {h} + Reach(keys, t, GetRight(keys[h])) + Reach(keys, t, GetDown(keys[h]))
  }

  lemma {:induction false} ReachSmaller(keys: map<nat, Key>, t: Forest, h: nat, i: nat)
    requires ForestOk(keys, t) && h in t && i in Reach(keys, t, h)
    ensures i == h || Size(t[i]) < Size(t[h])
    decreases t[h]
  {
    assert NodeOk(keys[h], t, t[h]);
    if i in Reach(keys, t, GetRight(keys[h])) { ReachSmaller(keys, t, GetRight(keys[h]), i); }
    else if i in Reach(keys, t, GetDown(keys[h])) { ReachSmaller(keys, t, GetDown(keys[h]), i); }
  }

  lemma {:induction false} ReachTrans(keys: map<nat, Key>, t: Forest, h: nat, i: nat)
    requires ForestOk(keys, t) && h in t && i in Reach(keys, t, h)
    ensures i in t && Reach(keys, t, i) <= Reach(keys, t, h)
    decreases t[h]
  {
    assert NodeOk(keys[h], t, t[h]);
    if i in Reach(keys, t, GetRight(keys[h])) { ReachTrans(keys, t, GetRight(keys[h]), i); }
    else if i in Reach(keys, t, GetDown(keys[h])) { ReachTrans(keys, t, GetDown(keys[h]), i); }
  }

  /** The whole diagram of node i is marked. */
  ghost predicate ClosedAt(keys: map<nat, Key>, t: Forest, marked: set<nat>, i: nat)
    requires ForestOk(keys, t) && i in t
  {
    Reach(keys, t, i) <= marked
  }

  /** The marked nodes below h have their whole diagram marked. */
  ghost predicate ClosedBelow(keys: map<nat, Key>, t: Forest, marked: set<nat>, h: nat)
    requires ForestOk(keys, t) && h in t
  {
    forall i {:trigger ClosedAt(keys, t, marked, i)} :: i in t && i in marked && i in Reach(keys, t, h) ==>
      ClosedAt(keys, t, marked, i)
  }

  /** Marking h first keeps the nodes below its children closed. */
  lemma ClosedChildren(keys: map<nat, Key>, t: Forest, marked: set<nat>, h: nat)
    requires ForestOk(keys, t) && h in t && h > 1 && h !in marked && ClosedBelow(keys, t, marked, h)
    ensures NodeOk(keys[h], t, t[h])
    ensures var right, down := GetRight(keys[h]), GetDown(keys[h]);
            ClosedBelow(keys, t, marked + {h}, right)
            && ClosedBelow(keys, t, marked + {h} + Reach(keys, t, right), down)
            && ClosedBelow(keys, t, marked + {h}, down)
            && ClosedBelow(keys, t, marked + {h} + Reach(keys, t, down), right)
  {
    assert NodeOk(keys[h], t, t[h]);
    var right, down := GetRight(keys[h]), GetDown(keys[h]);
    NotBelow(keys, t, h, right);
    NotBelow(keys, t, h, down);
    ClosedChild(keys, t, marked, h, right, down);
    ClosedChild(keys, t, marked, h, down, right);
  }

  lemma ClosedChild(keys: map<nat, Key>, t: Forest, marked: set<nat>, h: nat, c: nat, other: nat)
    requires ForestOk(keys, t) && h in t && c in t && other in t && ClosedBelow(keys, t, marked, h)
    requires Reach(keys, t, c) <= Reach(keys, t, h) && h !in Reach(keys, t, c)
    ensures ClosedBelow(keys, t, marked + {h}, c) && ClosedBelow(keys, t, marked + {h} + Reach(keys, t, other), c)
  {
    forall i | i in marked + {h} && i in Reach(keys, t, c) ensures ClosedAt(keys, t, marked + {h}, i) {
      assert ClosedAt(keys, t, marked, i);
    }
    var more := marked + {h} + Reach(keys, t, other);
    forall i | i in more && i in Reach(keys, t, c) ensures ClosedAt(keys, t, more, i) {
      if i in marked { assert ClosedAt(keys, t, marked, i); } else { ReachTrans(keys, t, other, i); }
    }
  }

  lemma NotBelow(keys: map<nat, Key>, t: Forest, h: nat, c: nat)
    requires ForestOk(keys, t) && h in t && c in t && Size(t[c]) < Size(t[h])
    ensures h !in Reach(keys, t, c)
  {
    if h in Reach(keys, t, c) { ReachSmaller(keys, t, c, h); }
  }

  ghost function ReachAll(keys: map<nat, Key>, t: Forest, roots: seq<nat>): (r: set<nat>)
    requires ForestOk(keys, t) && forall h :: h in roots ==> h in t
    ensures r <= keys.Keys
  {
    if roots == [] then {} else ReachAll(keys, t, roots[..|roots| - 1]) + Reach(keys, t, roots[|roots| - 1])
  }

  ghost predicate BelowSome(keys: map<nat, Key>, t: Forest, roots: seq<nat>, i: nat)
    requires ForestOk(keys, t) && forall h :: h in roots ==> h in t
  {
    exists h :: h in roots && i in Reach(keys, t, h)
  }

  lemma {:induction false} ReachAllMembers(keys: map<nat, Key>, t: Forest, roots: seq<nat>, i: nat)
    requires ForestOk(keys, t) && forall h :: h in roots ==> h in t
    ensures i in ReachAll(keys, t, roots) <==> BelowSome(keys, t, roots, i)
  {
    if roots != [] {
      var n := |roots| - 1;
      assert roots == roots[..n] + [roots[n]];
      ReachAllMembers(keys, t, roots[..n], i);
      if BelowSome(keys, t, roots, i) {
        var h :| h in roots && i in Reach(keys, t, h);
        assert h in roots[..n] || h == roots[n];
      }
      if BelowSome(keys, t, roots[..n], i) || i in Reach(keys, t, roots[n]) {
        assert forall h :: h in roots[..n] || h == roots[n] ==> h in roots;
      }
    }
  }

  lemma ReachAllSplit(keys: map<nat, Key>, t: Forest, roots: seq<nat>, roots': seq<nat>)
    requires ForestOk(keys, t) && forall h :: h in roots + roots' ==> h in t
    ensures (forall h :: h in roots || h in roots' ==> h in t)
    ensures ReachAll(keys, t, roots + roots') == ReachAll(keys, t, roots) + ReachAll(keys, t, roots')
  {
    assert forall h :: h in roots + roots' <==> h in roots || h in roots';
    forall i
      ensures i in ReachAll(keys, t, roots + roots') <==> i in ReachAll(keys, t, roots) + ReachAll(keys, t, roots')
    {
      ReachAllMembers(keys, t, roots + roots', i);
      ReachAllMembers(keys, t, roots, i);
      ReachAllMembers(keys, t, roots', i);
    }
  }

  /** The diagrams of the marked nodes are marked. */
  ghost predicate AllClosed(keys: map<nat, Key>, t: Forest, marked: set<nat>)
    requires ForestOk(keys, t)
  {
    forall i {:trigger ClosedAt(keys, t, marked, i)} :: i in marked && i in t ==> ClosedAt(keys, t, marked, i)
  }

  lemma ClosedMore(keys: map<nat, Key>, t: Forest, marked: set<nat>, h: nat)
    requires ForestOk(keys, t) && h in t && AllClosed(keys, t, marked)
    ensures AllClosed(keys, t, marked + Reach(keys, t, h))
  {
    var more := marked + Reach(keys, t, h);
    forall i | i in t && i in more ensures ClosedAt(keys, t, more, i) {
      if i in marked { assert ClosedAt(keys, t, marked, i); } else { ReachTrans(keys, t, h, i); }
    }
  }

  // ---- marking buckets ----

  /** Handles of marked nodes. */
  ghost function Marked(p: LddPackage): set<nat>
    requires p.nodes.Shape()
    reads p, p.nodes.bitmap2
  {
    set i | 2 <= i < p.nodes.size && p.nodes.bitmap2[i]
  }

  /** Between clearing the bitmaps and rehashing: data and trees are intact. */
  ghost predicate Tracing(p: LddPackage)
    reads p.Repr()
  {
    && p.nodes.Shape() && p.nodes.DataOk() && ForestOk(p.nodes.keys, p.tree)
    && p.nodes.bitmap2[0] && p.nodes.bitmap2[1]
  }

  /** Marks the nodes reachable from h that are not marked yet. */
  method MarkRec(p: LddPackage, h: nat)
    requires Tracing(p) && h in p.tree && ClosedBelow(p.nodes.keys, p.tree, Marked(p), h)
    modifies p.nodes.bitmap2
    ensures Tracing(p) && Marked(p) == old(Marked(p)) + Reach(p.nodes.keys, p.tree, h)
    decreases p.tree[h]
  {
    if h <= 1 { return; }
    ghost var marked := Marked(p);
    ghost var keys, t := p.nodes.keys, p.tree;
    assert p.nodes.KeyOk(h);
    var first := p.nodes.Mark(h);
    if first {
      ClosedChildren(keys, t, marked, h);
      var k := p.nodes.data[h];
      assert Marked(p) == marked + {h};
      MarkRec(p, GetRight(k));
      MarkRec(p, GetDown(k));
    } else {
      assert h in Reach(keys, t, h) && ClosedAt(keys, t, marked, h);
      assert Marked(p) == marked;
    }
  }

  /** Marks from every protected reference, splitting long lists in two. */
  method MarkRefs(p: LddPackage, roots: seq<nat>)
    requires Tracing(p) && (forall h :: h in roots ==> h in p.tree) && AllClosed(p.nodes.keys, p.tree, Marked(p))
    modifies p.nodes.bitmap2
    ensures Tracing(p) && AllClosed(p.nodes.keys, p.tree, Marked(p))
    ensures Marked(p) == old(Marked(p)) + ReachAll(p.nodes.keys, p.tree, roots)
    decreases |roots|
  {
    if |roots| < 32 {
      MarkFew(p, roots);
    } else {
      var half := |roots| / 2;
      assert roots == roots[..half] + roots[half..];
      ReachAllSplit(p.nodes.keys, p.tree, roots[..half], roots[half..]);
      MarkRefs(p, roots[..half]);
      MarkRefs(p, roots[half..]);
    }
  }

  method MarkFew(p: LddPackage, roots: seq<nat>)
    requires Tracing(p) && (forall h :: h in roots ==> h in p.tree) && AllClosed(p.nodes.keys, p.tree, Marked(p))
    modifies p.nodes.bitmap2
    ensures Tracing(p) && AllClosed(p.nodes.keys, p.tree, Marked(p))
    ensures Marked(p) == old(Marked(p)) + ReachAll(p.nodes.keys, p.tree, roots)
  {
    ghost var keys, t := p.nodes.keys, p.tree;
    for i := 0 to |roots|
      invariant Tracing(p) && AllClosed(keys, t, Marked(p))
      invariant forall h :: h in roots[..i] ==> h in t
      invariant Marked(p) == old(Marked(p)) + ReachAll(keys, t, roots[..i])
    {
      ClosedMore(keys, t, Marked(p), roots[i]);
      ReachAllNext(keys, t, roots, i);
      MarkRec(p, roots[i]);
    }
    assert roots[..|roots|] == roots;
  }

  lemma ReachAllNext(keys: map<nat, Key>, t: Forest, roots: seq<nat>, i: nat)
    requires ForestOk(keys, t) && i < |roots| && forall h :: h in roots ==> h in t
    ensures forall h :: h in roots[..i] || h in roots[..i + 1] ==> h in t
    ensures ReachAll(keys, t, roots[..i + 1]) == ReachAll(keys, t, roots[..i]) + Reach(keys, t, roots[i])
  {
    assert roots[..i + 1][..i] == roots[..i];
  }

  // ---- counting buckets ----

  ghost function SetBits(bits: seq<bool>, first: nat, count: nat): set<nat>
    requires first + count <= |bits|
  {
    set i | first <= i < first + count && bits[i]
  }

  lemma SetBitsSplit(bits: seq<bool>, first: nat, split: nat, count: nat)
    requires split <= count && first + count <= |bits|
    ensures |SetBits(bits, first, count)| ==
      |SetBits(bits, first, split)| + |SetBits(bits, first + split, count - split)|
  {
    var low, high := SetBits(bits, first, split), SetBits(bits, first + split, count - split);
    assert low !! high && SetBits(bits, first, count) == low + high;
  }

  /** Number of set bits among `count` ones: of a long range the upper half first. */
  method CountMarked(bits: array<bool>, first: nat, count: nat) returns (n: nat)
    requires first + count <= bits.Length
    ensures n == |SetBits(bits[..], first, count)|
    decreases count
  {
    if count > 512 {
      var split := count / 2;
      var right := CountMarked(bits, first + split, count - split);
      var left := CountMarked(bits, first, split);
      SetBitsSplit(bits[..], first, split, count);
      return left + right;
    }
    n := 0;
    for k := 0 to count
      invariant n == |SetBits(bits[..], first, k)|
    {
      SetBitsSplit(bits[..], first, k, k + 1);
      assert SetBits(bits[..], first + k, 1) == if bits[first + k] then {first + k} else {};
      if bits[first + k] { n := n + 1; }
    }
  }

  // ---- the collection ----

  /** keys' is keys restricted to the nodes in keep. */
  ghost predicate KeptKeys(keys: map<nat, Key>, keep: set<nat>, keys': map<nat, Key>) {
    keys'.Keys == keep && forall i {:trigger keys'[i]} :: i in keys' ==> i in keys && keys'[i] == keys[i]
  }

  /** t' is t restricted to the leaves and the nodes in keep. */
  ghost predicate KeptTrees(t: Forest, keep: set<nat>, t': Forest) {
    t'.Keys == keep + {0, 1} && forall i {:trigger t'[i]} :: i in t' ==> i in t && t'[i] == t[i]
  }

  ghost function Restrict(t: Forest, keep: set<nat>): (t': Forest)
    requires keep + {0, 1} <= t.Keys
    ensures KeptTrees(t, keep, t')
  {
    map i | i in t && (i in keep || i < 2) :: t[i]
  }

  /** A forest restricted to a set of nodes that contains their children. */
  lemma ForestShrinks(keys: map<nat, Key>, t: Forest, keep: set<nat>, keys': map<nat, Key>, t': Forest)
    requires ForestOk(keys, t) && keep <= keys.Keys && AllClosed(keys, t, keep)
    requires KeptKeys(keys, keep, keys') && KeptTrees(t, keep, t')
    ensures ForestOk(keys', t')
  {
    forall i | i in keys' ensures NodeOk(keys'[i], t', t'[i]) && Packed(keys'[i]) {
      assert NodeOk(keys[i], t, t[i]) && Packed(keys[i]);
      ChildrenKept(keys, t, keep, i);
    }
  }

  lemma ChildrenKept(keys: map<nat, Key>, t: Forest, keep: set<nat>, i: nat)
    requires ForestOk(keys, t) && keep <= keys.Keys && AllClosed(keys, t, keep) && i in keep
    ensures NodeOk(keys[i], t, t[i])
    ensures GetRight(keys[i]) in keep || GetRight(keys[i]) < 2
    ensures GetDown(keys[i]) in keep || GetDown(keys[i]) < 2
  {
    assert NodeOk(keys[i], t, t[i]) && ClosedAt(keys, t, keep, i);
    var right, down := GetRight(keys[i]), GetDown(keys[i]);
    assert Reach(keys, t, i) == {i} + Reach(keys, t, right) + Reach(keys, t, down);
    if right >= 2 { assert NodeOk(keys[right], t, t[right]) && right in Reach(keys, t, right); }
    if down >= 2 { assert NodeOk(keys[down], t, t[down]) && down in Reach(keys, t, down); }
  }

  /** Handles 2 and above whose bit is set. */
  ghost function MarkedIn(bits: seq<bool>): set<nat> {
    set i | 2 <= i < |bits| && bits[i]
  }

  lemma SameKept(keys: map<nat, Key>, bits: seq<bool>)
    requires (forall i :: i in keys ==> 2 <= i < |bits|) && MarkedIn(bits) <= keys.Keys
    ensures KeptKeys(keys, MarkedIn(bits), map i | i in keys && bits[i] :: keys[i])
  {
  }

  lemma CountKept(bits: seq<bool>)
    requires |bits| > 1 && bits[0] && bits[1]
    ensures SetBits(bits, 0, |bits|) == MarkedIn(bits) + {0, 1}
  {
  }

  /** Rehashes the marked nodes: these stay stored, under their old handles. */
  method Rehash(p: LddPackage, ghost keep: set<nat>)
    requires Tracing(p) && 0 < p.nodes.threshold && keep == MarkedIn(p.nodes.bitmap2[..]) && keep <= p.nodes.keys.Keys
    requires -1 <= p.nodes.myRegion < p.nodes.size / REGION
    requires forall r :: 0 <= r < p.nodes.bitmap1.Length ==> !p.nodes.bitmap1[r]
    modifies p.nodes`threshold, p.nodes`keys, p.nodes`index, p.nodes`pos, p.nodes.table
    ensures p.nodes.Valid() && p.nodes.threshold >= old(p.nodes.threshold)
    ensures KeptKeys(old(p.nodes.keys), keep, p.nodes.keys)
  {
    SameKept(p.nodes.keys, p.nodes.bitmap2[..]);
    p.nodes.RehashAll();
  }

  method Recount(p: LddPackage, ghost keep: set<nat>)
    requires p.nodes.bitmap2.Length == p.nodes.size > 1 && p.nodes.bitmap2[0] && p.nodes.bitmap2[1]
    requires keep == MarkedIn(p.nodes.bitmap2[..])
    modifies p`created
    ensures p.created == |keep + {0, 1}| % TOKENS
  {
    var marked := CountMarked(p.nodes.bitmap2, 0, p.nodes.size);
    p.created := marked % TOKENS;
    CountKept(p.nodes.bitmap2[..]);
  }

  /** Forgets the trees of the nodes that are gone. */
  ghost method Forget(p: LddPackage, keys: map<nat, Key>, keep: set<nat>)
    requires p.nodes.Valid() && EmptyCache(p) && p.cache.status != p.nodes.table
    requires OwnLimit(p.nodes.size) <= p.nodes.threshold && p.created < TOKENS
    requires ForestOk(keys, p.tree) && keep <= keys.Keys
    requires AllClosed(keys, p.tree, keep) && KeptKeys(keys, keep, p.nodes.keys)
    modifies p`tree
    ensures p.Inv() && KeptTrees(old(p.tree), keep, p.tree)
  {
    ghost var t := Restrict(p.tree, keep);
    ForestShrinks(keys, p.tree, keep, p.nodes.keys, t);
    p.tree := t;
    EmptySound(p);
  }

  method RehashKept(p: LddPackage, ghost keep: set<nat>)
    requires Tracing(p) && 0 < p.nodes.threshold && keep == MarkedIn(p.nodes.bitmap2[..])
    requires keep <= p.nodes.keys.Keys && AllClosed(p.nodes.keys, p.tree, keep)
    requires -1 <= p.nodes.myRegion < p.nodes.size / REGION
    requires forall r :: 0 <= r < p.nodes.bitmap1.Length ==> !p.nodes.bitmap1[r]
    requires EmptyCache(p) && p.cache.status != p.nodes.table
    requires OwnLimit(p.nodes.size) <= p.nodes.threshold && p.created < TOKENS
    modifies p`tree, p.nodes`threshold, p.nodes`keys, p.nodes`index, p.nodes`pos, p.nodes.table
    ensures p.Inv() && EmptyCache(p) && p.nodes.threshold >= old(p.nodes.threshold)
    ensures KeptKeys(old(p.nodes.keys), keep, p.nodes.keys) && KeptTrees(old(p.tree), keep, p.tree)
  {
    ghost var keys := p.nodes.keys;
    Rehash(p, keep);
    Forget(p, keys, keep);
  }

  /** What a collection keeps: the two leaves and what the roots reach, unchanged. */
  ghost predicate Survivors(keys: map<nat, Key>, t: Forest, roots: seq<nat>, keys': map<nat, Key>, t': Forest)
    requires ForestOk(keys, t) && forall h :: h in roots ==> h in t
  {
    KeptKeys(keys, ReachAll(keys, t, roots), keys') && KeptTrees(t, ReachAll(keys, t, roots), t')
  }

  /** Sequential garbage collection, when more than a thousandth of the table has been
      created since the last one.  Exactly the leaves and the nodes reachable from the
      protected references survive, under their handles and with their words; lookups of
      their keys find them (StoredFound), and the operation cache is empty. */
  method CollectGarbage(p: LddPackage, roots: seq<nat>)
    requires p.Valid() && ForestOk(p.nodes.keys, p.tree) && forall h :: h in roots ==> h in p.tree
    modifies p.Repr()
    ensures p.Valid() && p.nodes.threshold >= old(p.nodes.threshold)
    ensures old(p.created) <= p.nodes.size / 1000 ==> p.tree == old(p.tree) && p.nodes.keys == old(p.nodes.keys)
    ensures old(p.created) > p.nodes.size / 1000 ==>
              && Survivors(old(p.nodes.keys), old(p.tree), roots, p.nodes.keys, p.tree)
              && p.created == |p.tree.Keys| % TOKENS && EmptyCache(p)
  {
    if p.created <= p.nodes.size / 1000 { return; }
    var keep := Trace(p, roots);
    Recount(p, keep);   // rehashing does not change the bits that are counted
    RehashKept(p, keep);
  }

  method ClearAll(p: LddPackage)
    requires p.Valid() && ForestOk(p.nodes.keys, p.tree)
    modifies p.cache.table, p.cache.status, p.nodes.bitmap1, p.nodes.bitmap2
    ensures Tracing(p) && 0 < p.nodes.threshold && EmptyCache(p) && p.cache.status != p.nodes.table
    ensures OwnLimit(p.nodes.size) <= p.nodes.threshold
    ensures Marked(p) == {} && -1 <= p.nodes.myRegion < p.nodes.size / REGION
    ensures forall r :: 0 <= r < p.nodes.bitmap1.Length ==> !p.nodes.bitmap1[r]
  {
    assert p.Opened(0);
    p.cache.Clear();
    p.nodes.ClearData();
  }

  /** Empties the cache and the bitmaps, and marks what the roots reach. */
  method Trace(p: LddPackage, roots: seq<nat>) returns (ghost keep: set<nat>)
    requires p.Valid() && ForestOk(p.nodes.keys, p.tree) && forall h :: h in roots ==> h in p.tree
    modifies p.cache.table, p.cache.status, p.nodes.bitmap1, p.nodes.bitmap2
    ensures Tracing(p) && 0 < p.nodes.threshold && EmptyCache(p) && p.cache.status != p.nodes.table
    ensures OwnLimit(p.nodes.size) <= p.nodes.threshold
    ensures keep == MarkedIn(p.nodes.bitmap2[..]) == ReachAll(p.nodes.keys, p.tree, roots)
    ensures AllClosed(p.nodes.keys, p.tree, keep)
    ensures -1 <= p.nodes.myRegion < p.nodes.size / REGION
    ensures forall r :: 0 <= r < p.nodes.bitmap1.Length ==> !p.nodes.bitmap1[r]
  {
    ClearAll(p);
    MarkRefs(p, roots);
    keep := Marked(p);
    assert keep == MarkedIn(p.nodes.bitmap2[..]);
  }

  /** Only the all-zero key, which no operation uses, is answered. */
  ghost predicate EmptyCache(p: LddPackage)
    reads p.cache.table, p.cache.status
  {
    p.cache.Valid() && forall a: nat, b: nat, c: nat :: (a, b, c) != (0, 0, 0) ==> p.cache.Answer(a, b, c).None?
  }

  lemma EmptySound(p: LddPackage)
    requires p.nodes.Valid() && EmptyCache(p) && p.cache.status != p.nodes.table && ForestOk(p.nodes.keys, p.tree)
    requires OwnLimit(p.nodes.size) <= p.nodes.threshold && p.created < TOKENS
    ensures p.Inv()
  {
    p.EmptySound(p.tree);
  }

  /** The key of a stored node is looked up under its handle. */
  lemma StoredFound(p: LddPackage, i: nat)
    requires p.Valid() && i in p.nodes.keys
    ensures i < p.nodes.data.Length && p.nodes.data[i] == p.nodes.keys[i]
    ensures p.nodes.keys[i] in p.nodes.index && p.nodes.index[p.nodes.keys[i]] == i
  {
    assert p.Opened(0);
    assert p.nodes.KeyOk(i);
  }

  // ---- counting nodes ----

  /** The node words, with the mark bit set on the marked handles. */
  ghost predicate MarkBits(data: array<Key>, orig: seq<Key>, marked: set<nat>)
    reads data
  {
    data.Length == |orig| && forall i :: 0 <= i < |orig| ==>
      data[i] == if i in marked then SetMark(orig[i], true) else orig[i]
  }

  /** The words of the stored nodes, all unmarked. */
  ghost predicate NodeWords(orig: seq<Key>, keys: map<nat, Key>) {
    forall i :: i in keys ==> i < |orig| && orig[i] == keys[i]
  }

  /** Setting the mark of a stored node hides none of its fields, and clearing it restores the word. */
  lemma MarkedKey(keys: map<nat, Key>, t: Forest, i: nat)
    requires ForestOk(keys, t) && i in keys
    ensures NodeOk(keys[i], t, t[i]) && !GetMark(keys[i])
    ensures var m := SetMark(keys[i], true);
            GetMark(m) && GetRight(m) == GetRight(keys[i]) && GetDown(m) == GetDown(keys[i])
              && SetMark(m, false) == keys[i]
  {
    var k := keys[i];
    assert NodeOk(k, t, t[i]) && Packed(k);
    assert GetRight(k) < POINTER_BOUND && GetDown(k) < POINTER_BOUND;
    PackFields(GetValue(k), GetRight(k), GetDown(k));
    MarkKeepsFields(GetValue(k), GetRight(k), GetDown(k), true);
  }

  /** Sets or clears the mark of node h, if it has the other value; returns its children. */
  method SetNodeMark(data: array<Key>, h: nat, mark: bool, ghost keys: map<nat, Key>, ghost t: Forest,
          ghost orig: seq<Key>, ghost marked: set<nat>)
    returns (changed: bool, down: nat, right: nat)
    requires ForestOk(keys, t) && h in keys && NodeWords(orig, keys) && MarkBits(data, orig, marked)
    modifies data
    ensures MarkBits(data, orig, if mark then marked + {h} else marked - {h})
    ensures changed == (mark != (h in marked)) && down == GetDown(keys[h]) && right == GetRight(keys[h])
  {
    MarkedKey(keys, t, h);
    var k := data[h];
    changed := GetMark(k) != mark;
    if changed { data[h] := SetMark(k, mark); }
    down, right := GetDown(data[h]), GetRight(data[h]);
  }

  /** Marks and counts the nodes reachable from h that are not marked yet. */
  method NodeCountMark(data: array<Key>, h: nat, ghost keys: map<nat, Key>, ghost t: Forest, ghost orig: seq<Key>,
          ghost marked: set<nat>)
    returns (n: nat, ghost marked': set<nat>)
    requires ForestOk(keys, t) && h in t && NodeWords(orig, keys)
    requires MarkBits(data, orig, marked) && ClosedBelow(keys, t, marked, h)
    modifies data
    ensures marked' == marked + Reach(keys, t, h) && MarkBits(data, orig, marked')
    ensures n + |marked| == |marked'|
    decreases t[h]
  {
    if h <= 1 { return 0, marked; }
    assert h in Reach(keys, t, h);
    var first, d, r := SetNodeMark(data, h, true, keys, t, orig, marked);
    if !first {
      assert marked + {h} == marked && ClosedAt(keys, t, marked, h);
      return 0, marked;
    }
    ClosedChildren(keys, t, marked, h);
    assert NodeOk(keys[h], t, t[h]);
    assert Reach(keys, t, h) == {h} + Reach(keys, t, r) + Reach(keys, t, d);
    marked' := marked + {h};
    assert |marked'| == |marked| + 1;
    var down, right;
    down, marked' := NodeCountMark(data, d, keys, t, orig, marked');
    right, marked' := NodeCountMark(data, r, keys, t, orig, marked');
    n := 1 + down + right;
  }

  /** Nothing in the diagram of node i is marked. */
  ghost predicate OpenAt(keys: map<nat, Key>, t: Forest, marked: set<nat>, i: nat)
    requires ForestOk(keys, t) && i in t
  {
    Reach(keys, t, i) !! marked
  }

  /** Below h, what is not marked has nothing marked below it. */
  ghost predicate OpenBelow(keys: map<nat, Key>, t: Forest, marked: set<nat>, h: nat)
    requires ForestOk(keys, t) && h in t
  {
    forall i {:trigger OpenAt(keys, t, marked, i)} :: i in t && i in Reach(keys, t, h) && i !in marked ==>
      OpenAt(keys, t, marked, i)
  }

  lemma OpenChildren(keys: map<nat, Key>, t: Forest, marked: set<nat>, h: nat)
    requires ForestOk(keys, t) && h in t && h > 1 && OpenBelow(keys, t, marked, h)
    ensures NodeOk(keys[h], t, t[h])
    ensures var right, down := GetRight(keys[h]), GetDown(keys[h]);
            OpenBelow(keys, t, marked - {h}, right) && OpenBelow(keys, t, marked - {h} - Reach(keys, t, right), down)
  {
    assert NodeOk(keys[h], t, t[h]);
    var right, down := GetRight(keys[h]), GetDown(keys[h]);
    NotBelow(keys, t, h, right);
    NotBelow(keys, t, h, down);
    var less := marked - {h};
    forall i | i in Reach(keys, t, right) && i !in less ensures OpenAt(keys, t, less, i) {
      assert OpenAt(keys, t, marked, i);
    }
    var least := less - Reach(keys, t, right);
    forall i | i in Reach(keys, t, down) && i !in least ensures OpenAt(keys, t, least, i) {
      if i in Reach(keys, t, right) { ReachTrans(keys, t, right, i); } else { assert OpenAt(keys, t, marked, i); }
    }
  }

  /** Clears the marks of the nodes reachable from h. */
  method NodeCountUnmark(data: array<Key>, h: nat, ghost keys: map<nat, Key>, ghost t: Forest, ghost orig: seq<Key>,
          ghost marked: set<nat>)
    returns (ghost marked': set<nat>)
    requires ForestOk(keys, t) && h in t && NodeWords(orig, keys)
    requires MarkBits(data, orig, marked) && OpenBelow(keys, t, marked, h)
    modifies data
    ensures marked' == marked - Reach(keys, t, h) && MarkBits(data, orig, marked')
    decreases t[h]
  {
    if h <= 1 { return marked; }
    assert h in Reach(keys, t, h);
    var was, d, r := SetNodeMark(data, h, false, keys, t, orig, marked);
    if !was {
      assert marked - {h} == marked && OpenAt(keys, t, marked, h);
      return marked;
    }
    OpenChildren(keys, t, marked, h);
    marked' := marked - {h};
    marked' := NodeCountUnmark(data, r, keys, t, orig, marked');
    marked' := NodeCountUnmark(data, d, keys, t, orig, marked');
  }

  /** Number of distinct nodes reachable from h, the leaves not counted; the node words are
      afterwards what they were. */
  method NodeCount(data: array<Key>, h: nat, ghost keys: map<nat, Key>, ghost t: Forest) returns (n: nat)
    requires ForestOk(keys, t) && h in t && NodeWords(data[..], keys)
    modifies data
    ensures n == |Reach(keys, t, h)| && data[..] == old(data[..])
  {
    ghost var marked;
    ghost var orig := data[..];
    n, marked := NodeCountMark(data, h, keys, t, orig, {});
    assert marked == Reach(keys, t, h);
    assert OpenBelow(keys, t, marked, h);
    marked := NodeCountUnmark(data, h, keys, t, orig, marked);
    assert data[..] == orig;
  }

  /** Node count in the package: its state is afterwards what it was. */
  method CountNodes(p: LddPackage, h: nat) returns (n: nat)
    requires p.Valid() && ForestOk(p.nodes.keys, p.tree) && h in p.tree
    modifies p.nodes.data
    ensures p.Valid() && p.nodes.data[..] == old(p.nodes.data[..])
    ensures n == |Reach(p.nodes.keys, p.tree, h)|
  {
    assert p.Opened(0);
    DataKeys(p.nodes);
    n := NodeCount(p.nodes.data, h, p.nodes.keys, p.tree);
    p.nodes.DataRestored();
    p.CacheKept(p.tree);
  }

  lemma DataKeys(nodes: UniqueTable)
    requires nodes.Valid()
    ensures forall i :: i in nodes.keys ==> i < nodes.data.Length && nodes.data[i] == nodes.keys[i]
  {
    forall i | i in nodes.keys ensures i < nodes.data.Length && nodes.data[i] == nodes.keys[i] {
      assert nodes.KeyOk(i);
    }
  }
}
