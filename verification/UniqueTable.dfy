/** The unique table: an open-addressed hash table of 64-bit words (24 hash bits, 40 index
    bits) over a data array of node keys, with a two-level bitmap allocator.

    Sequential view: one thread owns the table, so a compare-and-swap on an empty slot
    succeeds.  ConcurrentTable.dfy treats the interleavings. */
module UniqueTables {
  import opened Words
  import opened ProbeWalk
  import opened Slots

  const REGION: nat := 512

  /** Zero-based position of the highest bit. */
  function Log2(n: nat): nat {
    if n < 2 then 0 else 1 + Log2(n / 2)
  }

  /** Lines a lookup may probe in a table of the given size, before any collection. */
  function OwnLimit(size: nat): nat {
    192 - 2 * (63 - (if Log2(size) > 63 then 63 else Log2(size)))
  }

  function HashTag(h: nat): nat { h - h % W40 }

  /** Slot of the j-th probe for key k. */
  ghost function WalkFor(size: nat, hash: Key -> nat): (walk: (Key, nat) -> nat)
    requires TableSize(size) && forall k :: hash(k) < W64
    ensures forall k, j {:trigger Probe(hash(k), size, j)} :: walk(k, j) == Probe(hash(k), size, j)
    ensures forall k, j :: walk(k, j) < size
  {
    forall k, j ensures Probe(hash(k), size, j) < size { ProbeInTable(hash(k), size, j); }
    (k, j) => Probe(hash(k), size, j)
  }

  lemma RegionsTile(size: nat)
    requires TableSize(size)
    ensures size % REGION == 0
  {
    assert IsPow2(2) && IsPow2(4) && IsPow2(8) && IsPow2(16) && IsPow2(32) && IsPow2(64);
    assert IsPow2(128) && IsPow2(256) && IsPow2(512);
    var c := Pow2Divides(512, size);
  }

  datatype Outcome = At(found: nat) | Empty(slot: nat) | Exhausted

  class UniqueTable {
    const size: nat
    const hash: Key -> nat
    const table: array<nat>
    const data: array<Key>
    const bitmap1: array<bool>   // one bit per region: claimed
    const bitmap2: array<bool>   // one bit per bucket: in use
    var myRegion: int            // -1: none yet
    var threshold: nat           // cache lines probed before giving up
    ghost const walk: (Key, nat) -> nat  // slot of each probe for a key
    ghost var keys: map<nat, Key>        // what the table stores: index to key
    ghost var index: map<Key, nat>       // its inverse
    ghost var pos: map<nat, nat>         // how many probes led to an index

    ghost predicate Shape()
    {
      && TableSize(size) && size % REGION == 0
      && table.Length == data.Length == bitmap2.Length == size
      && bitmap1.Length == size / REGION
      && bitmap1 != bitmap2
      && (forall k :: hash(k) < W64)
      && (forall k, j {:trigger Probe(hash(k), size, j)} :: walk(k, j) == Probe(hash(k), size, j))
      && (forall k, j :: walk(k, j) < size)
    }

    function Tag(): Key -> nat { k => HashTag(hash(k)) }

    ghost function View(): Slotting
      reads `pos, table, data
    {
      Slotting(size, walk, Tag(), table[..], data[..], pos)
    }

    /** All buckets of region r are in use. */
    ghost predicate RegionUsed(r: nat)
      requires Shape() && r < size / REGION
      reads bitmap2
    {
      forall i :: REGION * r <= i < REGION * r + REGION ==> bitmap2[i]
    }

    /** Claimed regions other than the current one have no free bucket. */
    ghost predicate RegionsFull()
      requires Shape()
      reads `myRegion, bitmap1, bitmap2
    {
      && -1 <= myRegion < size / REGION
      && forall r :: 0 <= r < size / REGION && r != myRegion && bitmap1[r] ==> RegionUsed(r)
    }

    /** Bucket i holds the key recorded for it, and no other bucket does. */
    ghost predicate KeyOk(i: nat)
      requires Shape()
      reads `keys, `index, data
    {
      && 2 <= i < size && i in keys && data[i] == keys[i] != Key(0, 0)
      && keys[i] in index && index[keys[i]] == i
    }

    ghost predicate IndexOk(k: Key)
      requires Shape()
      reads `keys, `index, data
    {
      k in index && KeyOk(index[k]) && keys[index[k]] == k
    }

    ghost predicate DataOk()
      requires Shape()
      reads `keys, `index, data
    {
      && (forall i :: i in keys ==> 2 <= i < size)
      && (forall i {:trigger KeyOk(i)} :: i in keys ==> KeyOk(i))
      && (forall k {:trigger IndexOk(k)} :: k in index ==> IndexOk(k))
      && data[0] == data[1] == Key(0, 0)
    }

    /** Probing finds every placed index, within the threshold. */
    ghost predicate SlotsOk()
      requires Shape()
      reads `threshold, `keys, `pos, table, data
    {
      && View().Ok() && 0 < threshold
      && (forall i {:trigger PosOk(i)} :: i in pos ==> PosOk(i))
    }

    ghost predicate PosOk(i: nat)
      reads `threshold, `keys, `pos
    {
      i in pos && (i in keys || i < 2) && pos[i] < 8 * threshold
    }

    /** Every key can be found. */
    ghost predicate Findable()
      reads this, table, data
    {
      Shape() && DataOk() && SlotsOk() && keys.Keys <= pos.Keys
    }

    /** The buckets in use are the two reserved ones and those of the keys. */
    ghost predicate BucketsOk()
      requires Shape()
      reads `keys, bitmap2
    {
      && bitmap2[0] && bitmap2[1]
      && (forall i :: 2 <= i < size ==> (bitmap2[i] <==> i in keys))
    }

    ghost predicate Valid()
      reads this, table, data, bitmap1, bitmap2
    {
      Findable() && RegionsFull() && BucketsOk()
    }

    constructor (size: nat, hash: Key -> nat)
      requires TableSize(size) && forall k :: hash(k) < W64
      ensures Valid() && keys == map[] && this.size == size && this.hash == hash && threshold == OwnLimit(size)
      ensures fresh(table) && fresh(data) && fresh(bitmap1) && fresh(bitmap2)
    {
      this.size := size;
      this.hash := hash;
      table := new nat[size](_ => 0);
      data := new Key[size](_ => Key(0, 0));
      bitmap1 := new bool[size / REGION](_ => false);
      bitmap2 := new bool[size](i => i < 2);
      myRegion := -1;
      threshold := OwnLimit(size);
      walk := WalkFor(size, hash);
      keys := map[];
      index := map[];
      pos := map[];
      new;
      RegionsTile(size);
      EmptyValid();
    }

    /** An empty table is in order. */
    lemma EmptyValid()
      requires Shape() && 0 < threshold && myRegion == -1 && keys == map[] && index == map[] && pos == map[]
      requires forall i :: 0 <= i < size ==> table[i] == 0 && data[i] == Key(0, 0) && (bitmap2[i] <==> i < 2)
      requires forall r :: 0 <= r < bitmap1.Length ==> !bitmap1[r]
      ensures Valid()
    {
      NoSlots();
    }

    /** Giving the data words back their values leaves the table in order. */
    twostate lemma DataRestored()
      requires old(Valid()) && unchanged(this) && unchanged(table) && unchanged(bitmap1) && unchanged(bitmap2)
      requires data[..] == old(data[..])
      ensures Valid()
    {
      assert View() == old(View());
      assert data[0] == old(data[..])[0] && data[1] == old(data[..])[1];
      forall i | i in keys ensures KeyOk(i) { assert old(KeyOk(i)) && data[i] == old(data[..])[i]; }
      forall k | k in index ensures IndexOk(k) { assert old(IndexOk(k)); }
      forall i | i in pos ensures PosOk(i) { assert old(PosOk(i)); }
    }

    /** First free bucket of a region. */
    method ScanRegion(r: nat) returns (found: bool, index: nat)
      requires Shape() && r < size / REGION
      ensures found ==> REGION * r <= index < REGION * r + REGION && !bitmap2[index]
      ensures found ==> forall i :: REGION * r <= i < index ==> bitmap2[i]
      ensures !found <==> RegionUsed(r)
    {
      for i := 0 to REGION
        invariant forall j :: REGION * r <= j < REGION * r + i ==> bitmap2[j]
      {
        index := REGION * r + i;
        if !bitmap2[index] { return true, index; }
      }
      return false, 0;
    }

    /** Moves round the ring of regions to the next unclaimed one and claims it. */
    method NextRegion() returns (found: bool)
      requires Shape() && -1 <= myRegion < size / REGION
      requires forall r :: 0 <= r < size / REGION && bitmap1[r] ==> RegionUsed(r)
      modifies this`myRegion, bitmap1
      ensures RegionsFull()
      ensures !found ==> bitmap1[..] == old(bitmap1[..]) && forall r :: 0 <= r < size / REGION ==> bitmap1[r]
      ensures found ==>
        0 <= myRegion && !old(bitmap1[..])[myRegion] && bitmap1[..] == old(bitmap1[..])[myRegion := true]
    {
      var regions := size / REGION;
      var count := regions;
      ghost var last := myRegion;
      while count > 0
        invariant 0 <= count <= regions && -1 <= myRegion < regions
        invariant myRegion == if last + (regions - count) < regions then last + (regions - count) else last - count
        invariant forall r :: 0 <= r < regions && (last < r <= last + (regions - count) || r <= last - count) ==>
          bitmap1[r]
        invariant bitmap1[..] == old(bitmap1[..])
        decreases count
      {
        count := count - 1;
        myRegion := myRegion + 1;
        if myRegion >= regions { myRegion := 0; }
        if !bitmap1[myRegion] {
          bitmap1[myRegion] := true;
          return true;
        }
      }
      return false;
    }

    /** Takes the first free bucket of the current region, moving to the next unclaimed
        region when it has none.  Fails exactly when every bucket is in use. */
    method ClaimDataBucket() returns (found: bool, index: nat)
      requires Shape() && RegionsFull()
      modifies this`myRegion, bitmap1, bitmap2
      ensures RegionsFull()
      ensures !found <==> forall i :: 0 <= i < size ==> old(bitmap2[..])[i]
      ensures found ==> index < size && !old(bitmap2[..])[index] && bitmap2[..] == old(bitmap2[..])[index := true]
      ensures !found ==> bitmap2[..] == old(bitmap2[..])
    {
      ghost var unclaimed := set r | 0 <= r < size / REGION && !bitmap1[r];
      while true
        invariant RegionsFull()
        invariant bitmap2[..] == old(bitmap2[..])
        invariant unclaimed == set r | 0 <= r < size / REGION && !bitmap1[r]
        decreases unclaimed
      {
        if myRegion != -1 {
          found, index := ScanRegion(myRegion);
          if found {
            bitmap2[index] := true;
            return;
          }
        }
        found := NextRegion();
        if !found {
          forall i | 0 <= i < size ensures bitmap2[i] { assert RegionUsed(i / REGION); }
          return false, 0;
        }
        assert myRegion in unclaimed;
        unclaimed := unclaimed - {myRegion};
      }
    }

    /** Walks the probe sequence of k to its index, to the first empty slot, or to the
        end of the allowed cache lines. */
    method Search(k: Key) returns (outcome: Outcome, ghost j: nat)
      requires Findable() && k != Key(0, 0)
      ensures k in index ==> outcome == At(index[k])
      ensures outcome.At? ==> k in index
      ensures outcome.Empty? ==> outcome.slot == walk(k, j) && j < 8 * threshold && table[outcome.slot] == 0
      ensures outcome.Empty? ==> View().FilledBefore(k, j)
      ensures outcome.Exhausted? ==> View().FilledBefore(k, 8 * threshold)
    {
      var h := hash(k);
      var c := Begin(h, size);
      j := 0;
      StandsFirst(h, size);
      StandsHere(k, c, 0);
      ghost var view := View();
      while true
        invariant Stands(h, size, c, j) && c.line == j / 8 < threshold && c.slot == walk(k, j)
        invariant view.FilledBefore(k, j)
        invariant k in index ==> Distance(k) >= j
        decreases 8 * threshold - j
      {
        ProbeVerdict(k, j);
        var v := table[c.slot];
        if v == 0 { return Empty(c.slot), j; }
        if HashTag(h) == HashTag(v) {
          var d := v % W40;
          if data[d] == k { return At(d), j; }
        }
        StandsNext(h, size, c, j);
        c := Advance(h, size, c);
        j := j + 1;
        StandsHere(k, c, j);
        if c.line == threshold {
          WithinLimit(k);
          return Exhausted, j;
        }
      }
    }

    /** Number of probes that lead to a stored key. */
    ghost function Distance(k: Key): nat
      requires Findable() && k in index
      reads this, table, data
    {
      assert IndexOk(k);
      pos[index[k]]
    }

    lemma StandsHere(k: Key, c: Cursor, j: nat)
      requires Shape() && Stands(hash(k), size, c, j)
      ensures c.slot == walk(k, j) < size && c.line == j / 8
    {
      StandsAt(hash(k), size, c, j);
      assert Probe(hash(k), size, j) == walk(k, j);
    }

    lemma WithinLimit(k: Key)
      requires Findable()
      ensures k in index ==> Distance(k) < 8 * threshold
    {
      assert k in index ==> IndexOk(k) && PosOk(index[k]);
    }

    /** What the word met by the j-th probe says about key k. */
    lemma ProbeVerdict(k: Key, j: nat)
      requires Findable() && k != Key(0, 0)
      requires k in index ==> Distance(k) >= j
      ensures var v := table[walk(k, j)];
              && v % W40 < size
              && (v == 0 ==> k !in index)
              && (v != 0 && HashTag(v) == HashTag(hash(k)) && data[v % W40] == k ==> k in index && index[k] == v % W40)
              && (v != 0 && (HashTag(v) != HashTag(hash(k)) || data[v % W40] != k) && k in index ==> Distance(k) > j)
    {
      assert View().SlotOk(walk(k, j));
      if k in index {
        assert IndexOk(k) && PosOk(index[k]);
        View().Found(index[k], j);
      }
      var v := table[walk(k, j)];
      if v != 0 && data[v % W40] == k { assert PosOk(v % W40) && KeyOk(v % W40); }
    }

    /** The first n probes for a key visit n slots. */
    lemma {:induction false} ProbedSlots(k: Key, n: nat) returns (slots: set<nat>)
      requires Shape() && n <= size
      ensures |slots| == n && forall s :: s in slots <==> exists j: nat :: j < n && walk(k, j) == s
    {
      if n == 0 { return {}; }
      slots := ProbedSlots(k, n - 1);
      forall j: nat | j < n - 1 ensures walk(k, j) != walk(k, n - 1) {
        ProbeInjective(hash(k), size, j, n - 1);
        assert Probe(hash(k), size, j) == walk(k, j) && Probe(hash(k), size, n - 1) == walk(k, n - 1);
      }
      slots := slots + {walk(k, n - 1)};
    }

    /** So when they are all filled, at least n indices are placed. */
    lemma FilledMany(k: Key, n: nat)
      requires Shape() && View().Ok() && n <= size && View().FilledBefore(k, n)
      ensures |pos| >= n
    {
      var slots := ProbedSlots(k, n);
      var filled, used := View().CountFilled(size);
      SubsetCount(slots, filled);
      SubsetCount(used, pos.Keys);
    }

    /** Index of key k, inserting it if absent: the same index for the same key, a fresh
        index for a new one, 0 when no bucket is free or the probe limit is reached. */
    method Lookup(k: Key) returns (i: nat, created: bool)
      requires Valid() && k != Key(0, 0)
      modifies this, table, data, bitmap1, bitmap2
      ensures Valid() && threshold == old(threshold)
      ensures k in old(index) ==> i == old(index)[k] && !created
      ensures i != 0 ==> 2 <= i < size && i in keys && keys[i] == k
      ensures keys == if created then old(keys)[i := k] else old(keys)
      ensures created ==> i != 0 && i !in old(keys)
      ensures i == 0 ==> (forall i :: 0 <= i < size ==> bitmap2[i]) || View().FilledBefore(k, 8 * threshold)
      ensures i == 0 ==> forall m :: m in keys ==> keys[m] != k
    {
      forall m | m in keys ensures keys[m] in index { assert KeyOk(m); }
      var outcome, j := Search(k);
      assert k in index ==> IndexOk(k);
      match outcome
      case At(found) => return found, false;
      case Exhausted => return 0, false;
      case Empty(slot) => i, created := Insert(k, slot, j);
    }

    /** Gives an absent key a bucket and fills the empty slot that probing for it reached. */
    method Insert(k: Key, slot: nat, ghost j: nat) returns (i: nat, created: bool)
      requires Valid() && k != Key(0, 0) && k !in index
      requires slot == walk(k, j) && table[slot] == 0 && j < 8 * threshold && View().FilledBefore(k, j)
      modifies this`myRegion, this`keys, this`index, this`pos, table, data, bitmap1, bitmap2
      ensures Valid()
      ensures created ==> 2 <= i < size && i !in old(keys) && keys == old(keys)[i := k]
      ensures !created ==> i == 0 && keys == old(keys) && forall n :: 0 <= n < size ==> bitmap2[n]
    {
      created, i := ClaimDataBucket();
      if !created { return 0, false; }
      assert i in pos ==> PosOk(i);
      WriteData(i, k);
      assert View().FilledBefore(k, j);
      PlaceWord(i, slot, j);
      assert Findable();
      assert RegionsFull();
    }

    /** Stores key k in a claimed bucket. */
    method WriteData(i: nat, k: Key)
      requires Shape() && DataOk() && SlotsOk()
      requires 2 <= i < size && i !in keys && i !in pos && k != Key(0, 0) && k !in index
      modifies this`keys, this`index, data
      ensures DataOk() && SlotsOk()
      ensures keys == old(keys)[i := k]
      ensures View() == old(View()).(data := old(data[..])[i := k])
    {
      View().DataFrame(i, k);
      data[i] := k;
      keys := keys[i := k];
      index := index[k := i];
      assert View() == old(View()).(data := old(data[..])[i := k]);
      forall m | m in keys ensures KeyOk(m) { assert m != i ==> old(KeyOk(m)); }
      forall x | x in index ensures IndexOk(x) { assert x != k ==> old(IndexOk(x)); }
      forall m | m in pos ensures PosOk(m) { assert old(PosOk(m)); }
    }

    /** Puts the word of an unplaced bucket into the empty slot that probing for it reached. */
    method PlaceWord(i: nat, slot: nat, ghost j: nat)
      requires Shape() && SlotsOk() && i < size && i !in pos && (i in keys || i < 2)
      requires slot == walk(data[i], j) && table[slot] == 0 && j < 8 * threshold && View().FilledBefore(data[i], j)
      modifies this`pos, table
      ensures SlotsOk()
      ensures pos == if i > 0 || View().WordOf(i) != 0 then old(pos)[i := j] else old(pos)
    {
      var word := HashTag(hash(data[i])) + i;
      ghost var view := View();
      table[slot] := word;
      if word != 0 {
        view.PlaceOk(i, slot, j);
        pos := pos[i := j];
        assert View() == view.Place(i, slot, j);
        forall m | m in pos ensures PosOk(m) { assert m != i ==> old(PosOk(m)); }
      } else {
        assert View() == view;
      }
    }

    // ---- garbage collection ----

    /** Frees every bucket and region except the two reserved buckets; keys stay in place. */
    method ClearData()
      requires Shape() && DataOk()
      modifies bitmap1, bitmap2
      ensures DataOk()
      ensures forall r :: 0 <= r < bitmap1.Length ==> !bitmap1[r]
      ensures forall i :: 0 <= i < size ==> (bitmap2[i] <==> i < 2)
    {
      forall r | 0 <= r < bitmap1.Length { bitmap1[r] := false; }
      forall i | 0 <= i < bitmap2.Length { bitmap2[i] := false; }
      bitmap2[0], bitmap2[1] := true, true;
    }

    /** Marks a bucket as in use; says whether it was not. */
    method Mark(i: nat) returns (first: bool)
      requires Shape() && i < size
      modifies bitmap2
      ensures first == !old(bitmap2[..])[i] && bitmap2[..] == old(bitmap2[..])[i := true]
    {
      if bitmap2[i] { return false; }
      bitmap2[i] := true;
      return true;
    }

    ghost predicate Collecting()
      reads this, table, data, bitmap2
    {
      && Shape() && DataOk() && SlotsOk()
      && forall i :: 2 <= i < size && bitmap2[i] ==> i in keys
    }

    lemma EmptySlotAhead(k: Key, filled: set<nat>) returns (n: nat)
      requires Shape() && |filled| < size
      ensures walk(k, n) !in filled
    {
      n := ProbeFindsGap(hash(k), size, filled);
    }

    /** Walks the probe sequence of a bucket to the first empty slot, raising the probe
        limit when the sequence is longer.  There always is one. */
    method FindEmpty(d: nat) returns (slot: nat, ghost j: nat)
      requires Shape() && SlotsOk() && d < size && d !in pos
      modifies this`threshold
      ensures SlotsOk() && threshold >= old(threshold)
      ensures slot == walk(data[d], j) && table[slot] == 0 && j < 8 * threshold && View().FilledBefore(data[d], j)
    {
      var h := hash(data[d]);
      var c := Begin(h, size);
      j := 0;
      StandsFirst(h, size);
      StandsHere(data[d], c, 0);
      ghost var view := View();
      ghost var filled := view.RoomLeft(d);
      ghost var gap := EmptySlotAhead(data[d], filled);
      while true
        invariant Stands(h, size, c, j) && c.line == j / 8 < threshold && c.slot == walk(data[d], j)
        invariant old(threshold) <= threshold
        invariant view.FilledBefore(data[d], j) && j <= gap
        invariant forall m :: m in pos ==> PosOk(m)
        decreases gap - j
      {
        if table[c.slot] == 0 {
          return c.slot, j;
        }
        StandsNext(h, size, c, j);
        c := Advance(h, size, c);
        j := j + 1;
        StandsHere(data[d], c, j);
        if c.line == threshold { RaiseLimit(); }
      }
    }

    method RaiseLimit()
      requires forall m :: m in pos ==> PosOk(m)
      modifies this`threshold
      ensures threshold == old(threshold) + 1 && forall m :: m in pos ==> PosOk(m)
    {
      threshold := threshold + 1;
      forall m | m in pos ensures PosOk(m) { assert old(PosOk(m)); }
    }

    /** The word of bucket i is not that of an empty slot. */
    ghost predicate Worded(i: nat)
      requires i < data.Length
      reads data
    {
      HashTag(hash(data[i])) + i != 0
    }

    method RehashBucket(d: nat)
      requires Collecting() && d < size && bitmap2[d] && d !in pos
      modifies this`threshold, this`pos, table
      ensures Collecting() && threshold >= old(threshold)
      ensures pos.Keys == old(pos).Keys + (if Worded(d) then {d} else {})
    {
      var slot, j := FindEmpty(d);
      PlaceWord(d, slot, j);
    }

    /** Rehashes the marked buckets among `count` ones: of a long range the upper half first. */
    method RehashRange(first: nat, count: nat)
      requires Collecting() && first + count <= size
      requires forall i :: first <= i < first + count ==> i !in pos
      modifies this`threshold, this`pos, table
      ensures Collecting() && threshold >= old(threshold)
      ensures forall i :: i in pos <==>
        i in old(pos) || (first <= i < first + count && bitmap2[i] && Worded(i))
      decreases count
    {
      if count > 512 {
        RehashRange(first + count / 2, count - count / 2);
        RehashRange(first, count / 2);
      } else {
        RehashFew(first, count);
      }
    }

    method RehashFew(first: nat, count: nat)
      requires Collecting() && first + count <= size
      requires forall i :: first <= i < first + count ==> i !in pos
      modifies this`threshold, this`pos, table
      ensures Collecting() && threshold >= old(threshold)
      ensures forall i :: i in pos <==>
        i in old(pos) || (first <= i < first + count && bitmap2[i] && Worded(i))
    {
      for n := 0 to count
        invariant Collecting() && threshold >= old(threshold)
        invariant forall i :: i in pos <==>
          i in old(pos) || (first <= i < first + n && bitmap2[i] && Worded(i))
      {
        if bitmap2[first + n] { RehashBucket(first + n); }
      }
    }

    /** Rebuilds the slots from the marked buckets: exactly these stay stored, under their old indices. */
    method RehashAll()
      requires Shape() && DataOk() && 0 < threshold && bitmap2[0] && bitmap2[1]
      requires forall i :: 2 <= i < size && bitmap2[i] ==> i in keys
      requires -1 <= myRegion < size / REGION && forall r :: 0 <= r < bitmap1.Length ==> !bitmap1[r]
      modifies this`threshold, this`keys, this`index, this`pos, table
      ensures Valid() && threshold >= old(threshold)
      ensures keys == map i | i in old(keys) && bitmap2[i] :: old(keys)[i]
    {
      ClearHashes();
      RehashRange(0, size);
      assert RegionsFull();
      forall i | i in keys ensures i in pos { assert Worded(i); }
    }

    /** Empties all slots and forgets the unmarked keys. */
    method ClearHashes()
      requires Shape() && DataOk() && 0 < threshold
      requires forall i :: 2 <= i < size && bitmap2[i] ==> i in keys
      modifies this`keys, this`index, this`pos, table
      ensures Collecting() && pos == map[]
      ensures keys == map i | i in old(keys) && bitmap2[i] :: old(keys)[i]
    {
      Forget();
      forall s | 0 <= s < table.Length { table[s] := 0; }
      pos := map[];
      NoSlots();
    }

    /** The records of the unmarked keys go. */
    ghost method Forget()
      requires Shape() && DataOk()
      modifies this`keys, this`index
      ensures DataOk() && keys == map i | i in old(keys) && bitmap2[i] :: old(keys)[i]
    {
      keys := map i | i in keys && bitmap2[i] :: keys[i];
      index := map k | k in index && index[k] < size && bitmap2[index[k]] :: index[k];
      forall m | m in keys ensures KeyOk(m) { assert old(KeyOk(m)); }
      forall x | x in index ensures IndexOk(x) { assert old(IndexOk(x)); }
    }

    lemma NoSlots()
      requires Shape() && 0 < threshold && pos == map[] && forall s :: 0 <= s < size ==> table[s] == 0
      ensures SlotsOk()
    {
      assert View().Shape();
      assert forall s :: 0 <= s < size ==> View().SlotOk(s);
    }
  }
}
