/** The diagram package: unique table and operation cache together, with a ghost map from
    every stored handle to the tree it stands for. */
module LddPackages {
  import opened Words
  import opened Slots
  import opened Ldds
  import opened UniqueTables
  import opened OpCaches

  /** The package ends the process when the unique table is full; that exit is a failure here. */
  datatype Result<+T> = Success(value: T) | TableFull {
    predicate IsFailure() { TableFull? }

    function PropagateFailure<U>(): Result<U>
      requires TableFull?
    {
      TableFull
    }

    function Extract(): T
      requires Success?
    {
      value
    }
  }

  type Forest = map<nat, Ldd>

  /** Handles keep their trees. */
  ghost predicate Extends(t: Forest, t': Forest) {
    forall i :: i in t ==> i in t' && t'[i] == t[i]
  }

  ghost predicate NodeOk(k: Key, t: Forest, l: Ldd) {
    && GetDown(k) in t && GetRight(k) in t && GetValue(k) < TOKENS
    && l == Node(GetValue(k), t[GetDown(k)], t[GetRight(k)])
    && GetDown(k) != 0
  }

  /** The key holds nothing but its three fields. */
  ghost predicate Packed(k: Key) {
    k == Pack(GetValue(k), GetRight(k), GetDown(k))
  }

  /** Handle 0 is false, handle 1 is true, every other one is the node its key packs. */
  ghost predicate ForestOk(keys: map<nat, Key>, t: Forest) {
    && t.Keys == keys.Keys + {0, 1}
    && (forall i :: i in keys ==> 2 <= i < W40 && t[i].Node?)
    && (forall i {:trigger NodeOk(keys[i], t, t[i])} :: i in keys ==> NodeOk(keys[i], t, t[i]))
    && (forall i {:trigger Packed(keys[i])} :: i in keys ==> Packed(keys[i]))
    && t[0] == False && t[1] == True
  }

  /** A packed node is a key for that node. */
  lemma PackedNode(value: nat, right: nat, down: nat, t: Forest)
    requires value < TOKENS && down != 0 && down in t && right in t
    requires down < POINTER_BOUND && right < POINTER_BOUND
    ensures var k := Pack(value, right, down);
            k != Key(0, 0) && Packed(k) && NodeOk(k, t, Node(value, t[down], t[right]))
  {
    PackExact(value, right, down);
  }

  lemma OkGrows(keys: map<nat, Key>, t: Forest, i: nat, k: Key, l: Ldd)
    requires ForestOk(keys, t) && i !in keys && 2 <= i < W40 && NodeOk(k, t, l) && Packed(k)
    ensures ForestOk(keys[i := k], t[i := l])
  {
    var keys', t' := keys[i := k], t[i := l];
    forall m | m in keys' ensures NodeOk(keys'[m], t', t'[m]) && Packed(keys'[m]) && t'[m].Node? {
      if m != i { assert NodeOk(keys[m], t, t[m]) && Packed(keys[m]); }
    }
  }

  /** A cached result is the tree-level result of its operation. */
  ghost predicate Correct(t: Forest, op: Operation, x: nat, y: nat, z: nat, res: nat) {
    && res in t
    && match op
       case UnionOf => x in t && y in t && t[res] == Union(t[x], t[y])
       case Difference => y in t && z in t && t[res] == Minus(t[y], t[z])
       case Intersection => x in t && y in t && t[res] == Intersect(t[x], t[y])
       case Firing => x in t && y in t && z in t && t[res] == FireOnto(False, t[x], t[y], t[z])
       case Division => x in t && t[res] == Divide(t[x], y, z)
  }

  class LddPackage {
    const nodes: UniqueTable
    const cache: OpCache
    var created: nat          // nodes created since the last collection, a 32-bit counter
    ghost var tree: Forest

    ghost function Repr(): set<object> {
      {this, nodes, nodes.table, nodes.data, nodes.bitmap1, nodes.bitmap2, cache.table, cache.status}
    }

    /** Everything the cache answers is right for the trees of t. */
    ghost predicate SoundFor(t: Forest)
      requires cache.Valid()
      reads cache.table, cache.status
    {
      forall op, x: nat, y: nat, z: nat :: x < W40 && cache.Answer(Tagged(op, x), y, z).Some? ==>
        Correct(t, op, x, y, z, cache.Answer(Tagged(op, x), y, z).value)
    }

    lemma SoundForLarger(t: Forest, t': Forest)
      requires cache.Valid() && SoundFor(t) && Extends(t, t')
      ensures SoundFor(t')
    {
    }

    /** The representation invariant. */
    ghost predicate Inv()
      reads `tree, `created, nodes, nodes.table, nodes.data, nodes.bitmap1, nodes.bitmap2, cache.table, cache.status
    {
      InvOver(nodes.keys)
    }

    /** The invariant, but for the node that a lookup has just stored besides `keys`. */
    ghost predicate InvOver(keys: map<nat, Key>)
      reads `tree, `created, nodes, nodes.table, nodes.data, nodes.bitmap1, nodes.bitmap2, cache.table, cache.status
    {
      && nodes.Valid() && OwnLimit(nodes.size) <= nodes.threshold && created < TOKENS
      && cache.Valid() && cache.status != nodes.table
      && ForestOk(keys, tree)
      && SoundFor(tree)
    }

    /** The invariant behind a key: it unfolds only in proofs that mention Opened, so that
        callers carry Valid() as a whole. */
    ghost predicate Valid()
      reads Repr()
    {
      forall key {:trigger Opened(key)} :: Opened(key) ==> Inv()
    }

    ghost predicate ValidOver(keys: map<nat, Key>)
      reads Repr()
    {
      forall key {:trigger Opened(key)} :: Opened(key) ==> InvOver(keys)
    }

    ghost predicate Opened(key: int) { true }

    /** Key k is not stored and has no room: every bucket is in use, or all slots that its probes
        may visit are filled. */
    ghost predicate NoRoom(k: Key)
      reads nodes, nodes.table, nodes.data, nodes.bitmap2
    {
      && nodes.Shape() && Packed(k) && k != Key(0, 0)
      && (forall i :: i in nodes.keys ==> nodes.keys[i] != k)
      && ((forall i :: 0 <= i < nodes.size ==> nodes.bitmap2[i])
        || nodes.View().FilledBefore(k, 8 * nodes.threshold))
    }

    /** The same behind the key of Valid(). */
    ghost predicate Refuses(k: Key)
      reads Repr()
    {
      forall key {:trigger Opened(key)} :: Opened(key) ==> NoRoom(k)
    }

    /** The table is full: some node that is not stored has no room. */
    ghost predicate Full()
      reads Repr()
    {
      exists k {:trigger Refuses(k)} :: Refuses(k)
    }

    /** A full table holds many nodes: one for every bucket, or at least as many as the slots
        that a new table lets a lookup visit. */
    lemma FullMeans()
      requires Valid() && Full()
      ensures |tree| >= nodes.size || |tree| >= 8 * OwnLimit(nodes.size)
    {
      assert Inv() by { assert Opened(0); }
      var k :| Refuses(k);
      assert NoRoom(k) by { assert Opened(0); }
      if forall i :: 0 <= i < nodes.size ==> nodes.bitmap2[i] {
        AllInUse();
      } else {
        var n := if 8 * OwnLimit(nodes.size) < nodes.size then 8 * OwnLimit(nodes.size) else nodes.size;
        ManyProbes(k, n);
        ManyNodes(k, n);
      }
    }

    lemma AllInUse()
      requires nodes.Valid() && ForestOk(nodes.keys, tree)
      requires forall i :: 0 <= i < nodes.size ==> nodes.bitmap2[i]
      ensures |tree| >= nodes.size
    {
      forall i: nat | i < nodes.size ensures i in tree.Keys { assert nodes.bitmap2[i]; }
      SubsetCount(Below(nodes.size), tree.Keys);
    }

    lemma ManyNodes(k: Key, n: nat)
      requires nodes.Valid() && ForestOk(nodes.keys, tree) && n <= nodes.size && nodes.View().FilledBefore(k, n)
      ensures |tree| >= n
    {
      nodes.FilledMany(k, n);
      forall i | i in nodes.pos ensures i in tree { assert nodes.PosOk(i); }
      SubsetCount(nodes.pos.Keys, tree.Keys);
    }

    lemma ManyProbes(k: Key, n: nat)
      requires nodes.Valid() && n <= 8 * nodes.threshold && nodes.View().FilledBefore(k, 8 * nodes.threshold)
      ensures nodes.View().FilledBefore(k, n)
    {
    }

    /** h is a handle of a well-formed diagram of the given depth. */
    ghost predicate Is(h: nat, depth: nat)
      reads `tree
    {
      h in tree && Wf(tree[h], depth)
    }

    constructor (tableSize: nat, hash: Key -> nat, cacheSize: nat, cacheHash: (nat, nat, nat) -> nat)
      requires ProbeWalk.TableSize(tableSize) && forall k :: hash(k) < W64
      requires 0 < cacheSize && forall a, b, c :: cacheHash(a, b, c) < W64
      ensures Valid() && fresh(Repr()) && tree == map[0 := False, 1 := True]
      ensures nodes.size == tableSize && nodes.threshold == OwnLimit(tableSize) && created == 0
    {
      nodes := new UniqueTable(tableSize, hash);
      cache := new OpCache(cacheSize, cacheHash);
      created := 0;
      tree := map[0 := False, 1 := True];
      new;
      EmptySound(tree);
    }

    /** A new cache answers no operation. */
    lemma EmptySound(t: Forest)
      requires cache.Valid()
      requires forall a: nat, b: nat, c: nat :: (a, b, c) != (0, 0, 0) ==> cache.Answer(a, b, c) == None
      ensures SoundFor(t)
    {
      forall op, x: nat, y: nat, z: nat | x < W40 ensures cache.Answer(Tagged(op, x), y, z) == None {
        TaggedInjective(op, x, op, x);
      }
    }

    // ---- canonicity of handles ----

    lemma {:induction false} TreeInjective(i: nat, j: nat)
      requires nodes.Shape() && nodes.DataOk() && ForestOk(nodes.keys, tree)
      requires i in tree && j in tree && tree[i] == tree[j]
      ensures i == j
      decreases tree[i]
    {
      if i > 1 && j > 1 {
        var k, k' := nodes.keys[i], nodes.keys[j];
        assert NodeOk(k, tree, tree[i]) && NodeOk(k', tree, tree[j]) && Packed(k) && Packed(k');
        TreeInjective(GetDown(k), GetDown(k'));
        TreeInjective(GetRight(k), GetRight(k'));
        assert nodes.KeyOk(i) && nodes.KeyOk(j);
      }
    }

    /** Same handle if and only if same set of markings. */
    lemma HandlesCanonical(a: nat, b: nat, depth: nat)
      requires Valid() && Is(a, depth) && Is(b, depth)
      ensures a == b <==> Den(tree[a]) == Den(tree[b])
    {
      assert Opened(0);
      Canonical(tree[a], tree[b], depth);
      if tree[a] == tree[b] { TreeInjective(a, b); }
    }

    // ---- nodes ----

    // The words of handles 0 and 1 are zero, so the leaves read as nodes of zeros.

    function ValueOf(h: nat): (v: nat)
      requires Valid() && h in tree
      reads Repr()
      ensures v == if tree[h].Node? then tree[h].value else 0
    {
      assert Opened(0);
      assert tree[h].Node? ==> nodes.KeyOk(h) && NodeOk(nodes.keys[h], tree, tree[h]);
      GetValue(nodes.data[h])
    }

    function RightOf(h: nat): (r: nat)
      requires Valid() && h in tree
      reads Repr()
      ensures if tree[h].Node? then r in tree && tree[r] == tree[h].right else r == 0
    {
      assert Opened(0);
      assert tree[h].Node? ==> nodes.KeyOk(h) && NodeOk(nodes.keys[h], tree, tree[h]);
      GetRight(nodes.data[h])
    }

    function DownOf(h: nat): (d: nat)
      requires Valid() && h in tree
      reads Repr()
      ensures if tree[h].Node? then d in tree && d != 0 && tree[d] == tree[h].down else d == 0
    {
      assert Opened(0);
      assert tree[h].Node? ==> nodes.KeyOk(h) && NodeOk(nodes.keys[h], tree, tree[h]);
      GetDown(nodes.data[h])
    }

    /** Handles 0 and 1 are the two leaves, and the only ones. */
    lemma Terminals(h: nat)
      requires Valid() && h in tree
      ensures 0 in tree && tree[0] == False && 1 in tree && tree[1] == True
      ensures h == 0 <==> tree[h] == False
      ensures h == 1 <==> tree[h] == True
      ensures h > 1 <==> tree[h].Node?
      ensures h < W40
    {
      assert Opened(0);
    }

    lemma Leaves()
      requires Valid()
      ensures 0 in tree && tree[0] == False && 1 in tree && tree[1] == True
    {
      assert Opened(0);
    }

    /** Handle of the node (value, ifeq, ifneq); an empty child gives the right sibling itself.
        The siblings must be in order and the diagram of one depth.  Fails only for a node that
        is not stored and has no room. */
    method MakeNode(value: nat, ifeq: nat, ifneq: nat, ghost depth: nat) returns (r: Result<nat>)
      requires Valid() && ifeq in tree && ifneq in tree
      requires Wf(Mk(value, tree[ifeq], tree[ifneq]), depth)
      modifies Repr()
      ensures Valid() && Extends(old(tree), tree)
      ensures r.Success? ==> Is(r.value, depth) && tree[r.value] == Mk(value, old(tree)[ifeq], old(tree)[ifneq])
      ensures r.TableFull? ==> ifeq != 0 && Refuses(Pack(value, ifneq, ifeq)) && Full()
      ensures |tree| <= |old(tree)| + 1
      ensures created == if |tree| == |old(tree)| then old(created) else (old(created) + 1) % TOKENS
    {
      Terminals(ifeq);
      if ifeq == 0 { return Success(ifneq); }
      var i := Intern(value, ifeq, ifneq);
      return if i == 0 then TableFull else Success(i);
    }

    /** Handle of a packed node, 0 when the table is full. */
    method Intern(value: nat, down: nat, right: nat) returns (i: nat)
      requires Valid() && value < TOKENS && down in tree && down != 0 && right in tree
      modifies Repr()
      ensures Valid() && Extends(old(tree), tree)
      ensures i != 0 ==> i in tree && tree[i] == Node(value, old(tree)[down], old(tree)[right])
      ensures i == 0 ==> Refuses(Pack(value, right, down))
      ensures |tree| <= |old(tree)| + 1
      ensures created == if |tree| == |old(tree)| then old(created) else (old(created) + 1) % TOKENS
    {
      Terminals(down);
      Terminals(right);
      PackedNode(value, right, down, tree);
      i := InternKey(Pack(value, right, down), Node(value, tree[down], tree[right]));
      if i != 0 && i !in old(tree) { OneHandle(old(tree), i, tree[i]); }
    }

    method InternKey(k: Key, ghost l: Ldd) returns (i: nat)
      requires Valid() && k != Key(0, 0) && Packed(k) && NodeOk(k, tree, l)
      modifies Repr()
      ensures Valid() && Extends(old(tree), tree)
      ensures i != 0 ==> i in tree && tree[i] == l
      ensures i == 0 ==> Refuses(k)
      ensures tree == if i == 0 || i in old(tree) then old(tree) else old(tree)[i := l]
      ensures created == if i == 0 || i in old(tree) then old(created) else (old(created) + 1) % TOKENS
    {
      var isNew;
      ghost var keys;
      i, isNew, keys := Find(k);
      if isNew {
        Adopt(keys, i, k, l);
      } else if i != 0 {
        Keep(i, k, l);
      }
    }

    lemma OneHandle(t: Forest, i: nat, l: Ldd)
      requires i !in t
      ensures |t[i := l]| == |t| + 1
    {
      assert t[i := l].Keys == t.Keys + {i};
    }

    /** Looks the key up, storing it if it is not and has room; its tree is recorded afterwards. */
    method Find(k: Key) returns (i: nat, isNew: bool, ghost keys: map<nat, Key>)
      requires Valid() && k != Key(0, 0) && Packed(k)
      modifies nodes, nodes.table, nodes.data, nodes.bitmap1, nodes.bitmap2
      ensures if isNew then ValidOver(keys) else Valid()
      ensures isNew ==> nodes.keys == keys[i := k] && i !in keys && i !in tree && 2 <= i < W40
      ensures !isNew ==> if i == 0 then Refuses(k) else i in nodes.keys && i in tree && nodes.keys[i] == k
    {
      assert InvOver(nodes.keys) by { assert Opened(0); }
      keys := nodes.keys;
      i, isNew := LookupTwice(k);
      CacheKept(tree);
      assert InvOver(keys);
    }

    twostate lemma CacheKept(t: Forest)
      requires cache.Valid() && old(SoundFor(t))
      requires unchanged(cache.table) && unchanged(cache.status)
      ensures SoundFor(t)
    {
    }

    /** A key found again stands for the tree it was stored with. */
    lemma Keep(i: nat, k: Key, l: Ldd)
      requires Valid() && NodeOk(k, tree, l) && i in nodes.keys && nodes.keys[i] == k
      ensures i in tree && tree[i] == l
    {
      assert Opened(0);
      assert NodeOk(nodes.keys[i], tree, tree[i]);
    }

    /** Counts a new node and records its tree. */
    method Adopt(ghost keys: map<nat, Key>, ghost i: nat, ghost k: Key, ghost l: Ldd)
      requires ValidOver(keys) && nodes.keys == keys[i := k] && i !in keys && 2 <= i < W40
      requires Packed(k) && NodeOk(k, tree, l)
      modifies `tree, `created
      ensures Valid() && tree == old(tree)[i := l] && created == (old(created) + 1) % TOKENS
    {
      assert InvOver(keys) by { assert Opened(0); }
      ghost var t := tree;
      created := (created + 1) % TOKENS;
      tree := tree[i := l];
      Adopted(keys, t, i, k, l);
    }

    lemma Adopted(keys: map<nat, Key>, t: Forest, i: nat, k: Key, l: Ldd)
      requires nodes.Valid() && OwnLimit(nodes.size) <= nodes.threshold && created < TOKENS
      requires cache.Valid() && cache.status != nodes.table && ForestOk(keys, t) && SoundFor(t)
      requires nodes.keys == keys[i := k] && tree == t[i := l] && i !in keys && 2 <= i < W40
      requires Packed(k) && NodeOk(k, t, l)
      ensures Valid()
    {
      OkGrows(keys, t, i, k, l);
      SoundForLarger(t, tree);
      assert InvOver(nodes.keys);
    }

    /** A refused lookup is tried once more. */
    method LookupTwice(k: Key) returns (i: nat, isNew: bool)
      requires nodes.Valid() && k != Key(0, 0) && Packed(k)
      modifies nodes, nodes.table, nodes.data, nodes.bitmap1, nodes.bitmap2
      ensures nodes.Valid() && nodes.threshold == old(nodes.threshold)
      ensures i == 0 ==> NoRoom(k)
      ensures i != 0 ==> 2 <= i < nodes.size && i in nodes.keys && nodes.keys[i] == k
      ensures nodes.keys == if isNew then old(nodes.keys)[i := k] else old(nodes.keys)
      ensures isNew ==> 2 <= i < W40 && i !in old(nodes.keys)
    {
      i, isNew := nodes.Lookup(k);
      if i == 0 {
        i, isNew := nodes.Lookup(k);
      }
    }

    // ---- cached results ----

    method CacheGet(op: Operation, x: nat, y: nat, z: nat) returns (hit: bool, res: nat)
      requires Valid() && x < W40
      ensures hit ==> Correct(tree, op, x, y, z, res)
    {
      assert Opened(0);
      hit, res := cache.Get(Tagged(op, x), y, z);
    }

    method CachePut(op: Operation, x: nat, y: nat, z: nat, res: nat)
      requires Valid() && x < W40 && Correct(tree, op, x, y, z, res)
      modifies cache.table, cache.status
      ensures Valid()
    {
      assert Opened(0);
      var stored := cache.Put(Tagged(op, x), y, z, res);
      forall op', x': nat, y': nat, z': nat | x' < W40 && cache.Answer(Tagged(op', x'), y', z').Some?
        ensures Correct(tree, op', x', y', z', cache.Answer(Tagged(op', x'), y', z').value)
      {
        TaggedInjective(op, x, op', x');
      }
    }
  }
}
