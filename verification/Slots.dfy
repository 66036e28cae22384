/** Open addressing as a value: which slot words and data keys make every placed index
    reachable by probing, for any probe walk. */
module Slots {
  import opened Words

  /** A slot table, the data it indexes, and for each placed index the number of probes that led to it. */
  datatype Slotting = Slotting(size: nat, walk: (Key, nat) -> nat, tag: Key -> nat,
                               table: seq<nat>, data: seq<Key>, pos: map<nat, nat>)
  {
    ghost predicate Shape() {
      && |table| == |data| == size <= W40
      && (forall k, j :: walk(k, j) < size)
      && (forall k :: tag(k) % W40 == 0)
    }

    /** Word of an index: hash bits above, index below. */
    function WordOf(i: nat): nat
      requires i < |data|
    {
      tag(data[i]) + i
    }

    /** The first n probes for key k meet filled slots. */
    ghost predicate FilledBefore(k: Key, n: nat)
      requires Shape()
    {
      forall j: nat :: j < n ==> table[walk(k, j)] != 0
    }

    ghost predicate IndexOk(i: nat)
      requires Shape() && i in pos
    {
      && i < size && WordOf(i) != 0
      && table[walk(data[i], pos[i])] == WordOf(i)
      && FilledBefore(data[i], pos[i])
    }

    ghost predicate SlotOk(s: nat)
      requires Shape() && s < size
    {
      table[s] != 0 ==> var i := table[s] % W40; i < size && i in pos && s == walk(data[i], pos[i])
    }

    /** Placed indices and filled slots correspond, and no empty slot precedes a placed index
        on its probe sequence. */
    ghost predicate Ok() {
      && Shape()
      && (forall i {:trigger IndexOk(i)} :: i in pos ==> IndexOk(i))
      && (forall s {:trigger SlotOk(s)} :: 0 <= s < size ==> SlotOk(s))
      && (forall i :: i in pos ==> i < size)
    }

    function Place(i: nat, slot: nat, j: nat): Slotting
      requires i < |data| && slot < |table|
    {
      this.(table := table[slot := WordOf(i)], pos := pos[i := j])
    }

    lemma WordIndex(i: nat)
      requires Shape() && i < size
      ensures WordOf(i) % W40 == i && WordOf(i) - WordOf(i) % W40 == tag(data[i])
    {
    }

    /** Filling the empty slot that probing reached keeps the correspondence. */
    lemma PlaceOk(i: nat, slot: nat, j: nat)
      requires Ok() && i < size && i !in pos && WordOf(i) != 0
      requires slot == walk(data[i], j) && table[slot] == 0 && FilledBefore(data[i], j)
      ensures Place(i, slot, j).Ok()
    {
      var t := Place(i, slot, j);
      WordIndex(i);
      forall m | m in t.pos ensures t.IndexOk(m) {
        if m != i { assert IndexOk(m); }
      }
      forall s | 0 <= s < size ensures t.SlotOk(s) { assert SlotOk(s); }
    }

    /** Data outside the placed indices does not matter. */
    lemma DataFrame(i: nat, k: Key)
      requires Ok() && i < size && i !in pos
      ensures this.(data := data[i := k]).Ok()
    {
      var t := this.(data := data[i := k]);
      forall m | m in t.pos ensures t.IndexOk(m) { assert IndexOk(m); }
      forall s | 0 <= s < size ensures t.SlotOk(s) { assert SlotOk(s); }
      assert t.Shape();
    }

    /** A placed key is met at its own position, and nowhere before. */
    lemma Found(m: nat, j: nat)
      requires Ok() && m in pos && j <= pos[m]
      ensures table[walk(data[m], j)] != 0
      ensures j == pos[m] ==> table[walk(data[m], j)] % W40 == m && table[walk(data[m], j)] - m == tag(data[m])
    {
      assert IndexOk(m);
      WordIndex(m);
    }

    /** Among the first n slots, the filled ones name distinct placed indices. */
    lemma {:induction false} CountFilled(n: nat) returns (filled: set<nat>, used: set<nat>)
      requires Ok() && n <= size
      ensures |filled| == |used| && used <= pos.Keys
      ensures forall s: nat :: s in filled <==> s < n && table[s] != 0
      ensures forall i :: i in used ==> i < size && walk(data[i], pos[i]) < n
    {
      if n == 0 { return {}, {}; }
      filled, used := CountFilled(n - 1);
      if table[n - 1] != 0 {
        assert SlotOk(n - 1);
        filled, used := filled + {n - 1}, used + {table[n - 1] % W40};
      }
    }

    /** With an index unplaced, some slot is empty. */
    lemma RoomLeft(i: nat) returns (filled: set<nat>)
      requires Ok() && i < size && i !in pos
      ensures |filled| < size
      ensures forall s: nat :: s in filled <==> s < size && table[s] != 0
    {
      var used;
      filled, used := CountFilled(size);
      assert forall m :: m in pos ==> IndexOk(m);
      SubsetCount(used, Below(size) - {i});
    }
  }

  ghost function Below(n: nat): (s: set<nat>)
    ensures |s| == n && forall i: nat :: i in s <==> i < n
  {
    if n == 0 then {} else Below(n - 1) + {n - 1}
  }

  lemma SubsetCount<T>(a: set<T>, b: set<T>)
    requires a <= b
    ensures |a| <= |b|
    ensures |a| == |b| ==> a == b
  {
    assert b == a + (b - a);
  }
}
