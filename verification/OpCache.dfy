/** The lossy operation cache: one entry and one status word per bucket.

    A status word is a lock bit (31), a two-part bit (30), fourteen bits of the key's hash
    (16 to 29) and a 16-bit put counter.  Sequential view; CacheSeqlock.dfy treats
    interleaved readers and writers of one bucket. */
module OpCaches {
  import opened Words

  datatype Option<T> = None | Some(value: T)

  datatype CacheEntry = CacheEntry(a: nat, b: nat, c: nat, res: nat)

  /** Hash bits kept in the status word, in place. */
  function HashBits(h: nat): nat { (h / 0x1_0000_0000_0000 % 0x4000) * W16 }

  function StatusHash(s: nat): nat { (s / W16 % 0x4000) * W16 }

  /** Unlocked status of the next put: counter advanced modulo 2^16, hash bits replaced. */
  function NextStatus(s: nat, h: nat): nat { (s + 1) % W16 + HashBits(h) }

  predicate Locked(s: nat) { s / 0x8000_0000 % 2 == 1 }

  predicate LockedOrPaired(s: nat) { s / 0x4000_0000 % 4 != 0 }

  lemma NextStatusFields(s: nat, h: nat)
    ensures NextStatus(s, h) < 0x4000_0000
    ensures StatusHash(NextStatus(s, h)) == HashBits(h)
    ensures !Locked(NextStatus(s, h)) && !LockedOrPaired(NextStatus(s, h))
  {
    var n, c := h / 0x1_0000_0000_0000 % 0x4000, (s + 1) % W16;
    assert NextStatus(s, h) == n * W16 + c;
    assert (n * W16 + c) / W16 == n;
  }

  class OpCache {
    const size: nat
    const hash: (nat, nat, nat) -> nat
    const table: array<CacheEntry>
    const status: array<nat>

    ghost predicate Valid()
    {
      && 0 < size && table.Length == status.Length == size
      && (forall a, b, c :: hash(a, b, c) < W64)
    }

    function Bucket(a: nat, b: nat, c: nat): nat
      requires size > 0
    {
      hash(a, b, c) % size
    }

    /** What the cache answers for a key. */
    function Answer(a: nat, b: nat, c: nat): Option<nat>
      requires Valid()
      reads table, status
    {
      var i := Bucket(a, b, c);
      var e := table[i];
      if !LockedOrPaired(status[i]) && StatusHash(status[i]) == HashBits(hash(a, b, c)) && e.a == a && e.b == b
        && e.c == c
      then Some(e.res) else None
    }

    constructor (size: nat, hash: (nat, nat, nat) -> nat)
      requires 0 < size && forall a, b, c :: hash(a, b, c) < W64
      ensures Valid() && fresh(table) && fresh(status)
      ensures forall a: nat, b: nat, c: nat :: (a, b, c) != (0, 0, 0) ==> Answer(a, b, c) == None
    {
      this.size := size;
      this.hash := hash;
      table := new CacheEntry[size](_ => CacheEntry(0, 0, 0, 0));
      status := new nat[size](_ => 0);
    }

    method Get(a: nat, b: nat, c: nat) returns (hit: bool, res: nat)
      requires Valid()
      ensures Answer(a, b, c) == if hit then Some(res) else None
    {
      var h := hash(a, b, c);
      var i := h % size;
      var s := status[i];
      if LockedOrPaired(s) { return false, 0; }
      if StatusHash(s) != HashBits(h) { return false, 0; }
      var e := table[i];
      if e.a != a || e.b != b || e.c != c { return false, 0; }
      return true, e.res;
    }

    /** Unless its bucket is locked, the key is answered from now on, and any other key is
        answered as before or forgotten. */
    method Put(a: nat, b: nat, c: nat, res: nat) returns (stored: bool)
      requires Valid()
      modifies table, status
      ensures Valid() && stored == !old(Locked(status[Bucket(a, b, c)]))
      ensures Answer(a, b, c) == if stored then Some(res) else old(Answer(a, b, c))
      ensures forall x: nat, y: nat, z: nat :: (x, y, z) != (a, b, c) ==>
                Answer(x, y, z) == if stored && Bucket(x, y, z) == Bucket(a, b, c) then None else old(Answer(x, y, z))
    {
      var h := hash(a, b, c);
      var i := h % size;
      var s := status[i];
      if Locked(s) { return false; }
      NextStatusFields(s, h);
      table[i] := CacheEntry(a, b, c, res);
      status[i] := NextStatus(s, h);
      return true;
    }

    /** Fresh zeroed memory: only the all-zero key, which no operation uses, is answered. */
    method Clear()
      requires Valid()
      modifies table, status
      ensures Valid()
      ensures forall a: nat, b: nat, c: nat :: (a, b, c) != (0, 0, 0) ==> Answer(a, b, c) == None
    {
      forall i | 0 <= i < table.Length { table[i] := CacheEntry(0, 0, 0, 0); }
      forall i | 0 <= i < status.Length { status[i] := 0; }
    }
  }
}
