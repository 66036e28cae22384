/** When concurrent lookups go wrong: runs in which two keys get one index, the exact starts
    that allow them, and a run that loses a bucket. */
module TableRaces {
  import opened Words
  import opened Slots
  import opened ConcurrentTables
  import P = ProbeWalk
  import U = UniqueTables

  /** Some steps lead from s to s'.  The key keeps the run itself out of the proofs that only
      put runs together: it unfolds where Opened is mentioned. */
  ghost predicate Leads(s: State, s': State) {
    forall key {:trigger Opened(key)} :: Opened(key) ==> exists acts :: Runs(s, acts, s')
  }

  ghost predicate Opened(key: int) { true }

  lemma ConcatStep(s: State, acts: seq<Step>, acts': seq<Step>, u: State)
    requires acts != [] && Enabled(s, acts[0]) && Runs(Apply(s, acts[0]), acts[1..] + acts', u)
    ensures Runs(s, acts + acts', u)
  {
    assert (acts + acts')[1..] == acts[1..] + acts';
  }

  lemma {:induction false} RunsConcat(s: State, acts: seq<Step>, t: State, acts': seq<Step>, u: State)
    requires Runs(s, acts, t) && Runs(t, acts', u)
    ensures Runs(s, acts + acts', u)
    decreases |acts|
  {
    if acts == [] {
      assert acts + acts' == acts';
    } else {
      RunsConcat(Apply(s, acts[0]), acts[1..], t, acts', u);
      ConcatStep(s, acts, acts', u);
    }
  }

  lemma LeadsTrans(s: State, t: State, u: State)
    requires Leads(s, t) && Leads(t, u)
    ensures Leads(s, u)
  {
    assert Opened(0);
    var acts :| Runs(s, acts, t);
    var acts' :| Runs(t, acts', u);
    RunsConcat(s, acts, t, acts', u);
  }

  lemma LeadsSelf(s: State)
    ensures Leads(s, s)
  {
    assert Runs(s, [], s);
  }

  /** One more step of thread i. */
  lemma Then(s: State, t: State, x: Step)
    requires Leads(s, t) && Enabled(t, x)
    ensures Leads(s, Apply(t, x))
  {
    var u := Apply(t, x);
    assert Runs(u, [x][1..], u);
    assert Runs(t, [x], u);
    LeadsTrans(s, t, u);
  }

  // ---- one lookup, undisturbed ----

  ghost predicate Absent(s: State, k: Key)
    requires Shaped(s) && s.slots.Ok()
  {
    forall d :: d in s.slots.pos ==> s.slots.data[d] != k
  }

  /** A probe that meets another key. */
  lemma Miss(s: State, i: nat, k: Key, j: nat, c: nat)
    requires Shaped(s) && s.slots.Ok() && i < |s.threads| && s.threads[i] == Probing(k, j, c)
    requires s.slots.table[Slot(s, k, j)] != 0 && j < 8 * s.threshold
    requires s.slots.SlotOk(Slot(s, k, j)) && s.slots.data[s.slots.table[Slot(s, k, j)] % W40] != k
    ensures Leads(s, To(s, i, Probing(k, j + 1, c)))
  {
    var x, d := Advance(i), s.slots.table[Slot(s, k, j)] % W40;
    LeadsSelf(s);
    Then(s, s, x);
    var s1 := To(s, i, ComparingA(k, j, c, d));
    if Apply(s, x) == s1 {
      Passes(s1, i, k, j, c, d);
      assert To(s1, i, Probing(k, j + 1, c)) == To(s, i, Probing(k, j + 1, c));
      LeadsTrans(s, s1, To(s, i, Probing(k, j + 1, c)));
    }
  }

  /** The comparison fails in the first or in the second word. */
  lemma Passes(s: State, i: nat, k: Key, j: nat, c: nat, d: nat)
    requires Shaped(s) && i < |s.threads| && d < s.slots.size && s.threads[i] == ComparingA(k, j, c, d)
    requires s.slots.data[d] != k
    ensures Leads(s, To(s, i, Probing(k, j + 1, c)))
  {
    LeadsSelf(s);
    Then(s, s, Advance(i));
    if s.slots.data[d].a == k.a {
      var s1 := To(s, i, ComparingB(k, j, c, d));
      Then(s, s1, Advance(i));
      assert Apply(s1, Advance(i)) == To(s, i, Probing(k, j + 1, c));
    }
  }

  /** All slots before the J-th are passed. */
  lemma {:induction false} Misses(s: State, i: nat, k: Key, j: nat, J: nat)
    requires Shaped(s) && s.slots.Ok() && i < |s.threads| && s.threads[i] == Probing(k, j, 0)
    requires Absent(s, k) && s.slots.FilledBefore(k, J) && j <= J <= 8 * s.threshold
    ensures Leads(s, To(s, i, Probing(k, J, 0)))
    decreases J - j
  {
    if j == J {
      LeadsSelf(s);
      assert To(s, i, Probing(k, J, 0)) == s;
    } else {
      assert s.slots.SlotOk(Slot(s, k, j));
      Miss(s, i, k, j, 0);
      var s1 := To(s, i, Probing(k, j + 1, 0));
      Misses(s1, i, k, j + 1, J);
      assert To(s1, i, Probing(k, J, 0)) == To(s, i, Probing(k, J, 0));
      LeadsTrans(s, s1, To(s, i, Probing(k, J, 0)));
    }
  }

  /** The key is new, and probing for it meets its first empty slot within the limit. */
  ghost predicate Placeable(s: State, k: Key, j: nat) {
    && Shaped(s) && s.slots.Ok() && k != Key(0, 0) && Absent(s, k) && j < 8 * s.threshold
    && s.slots.FilledBefore(k, j) && s.slots.table[Slot(s, k, j)] == 0
  }

  lemma ToScan(s: State, i: nat, k: Key, j: nat)
    requires Placeable(s, k, j) && i < |s.threads| && s.threads[i].Idle?
    ensures Leads(s, To(s, i, Scanning(k, j, 0)))
  {
    LeadsSelf(s);
    Then(s, s, Begin(i, k));
    var s1 := To(s, i, Probing(k, 0, 0));
    Misses(s1, i, k, 0, j);
    var s2 := To(s, i, Probing(k, j, 0));
    assert To(s1, i, Probing(k, j, 0)) == s2;
    LeadsTrans(s, s1, s2);
    Then(s, s2, Advance(i));
    assert Apply(s2, Advance(i)) == To(s, i, Scanning(k, j, 0));
  }

  /** First free bucket of region r from its w-th word on, -1 if there is none. */
  function FirstFree(s: State, r: nat, w: nat): (c: int)
    requires Shaped(s) && r < Regions(s) && w <= 8
    decreases 8 - w
  {
    if w == 8 then -1
    else
      var b := FirstClear(s.bits[8 * r + w], 0);
      if b < 64 then 64 * (8 * r + w) + b else FirstFree(s, r, w + 1)
  }

  lemma {:induction false} FreeFacts(s: State, r: nat, w: nat)
    requires Shaped(s) && r < Regions(s) && w <= 8
    ensures var c := FirstFree(s, r, w); c == -1 || (0 <= c < s.slots.size && RegionOf(c) == r && !InUse(s, c))
    decreases 8 - w
  {
    if w < 8 {
      var b := FirstClear(s.bits[8 * r + w], 0);
      if b < 64 { BucketParts(r, w, b); } else { FreeFacts(s, r, w + 1); }
    }
  }

  lemma {:induction false} NoneFree(s: State, r: nat, w: nat, c: nat)
    requires Shaped(s) && r < Regions(s) && w <= 8 && FirstFree(s, r, w) == -1
    requires 8 * r + w <= WordOfBucket(c) < 8 * r + 8
    ensures InUse(s, c)
    decreases 8 - w
  {
    var word := s.bits[8 * r + w];
    assert FirstClear(word, 0) == 64;
    if WordOfBucket(c) > 8 * r + w {
      NoneFree(s, r, w + 1, c);
    } else {
      assert c % 64 in word;
    }
  }

  /** No free bucket is found exactly when the region is full. */
  lemma FreeOrFull(s: State, r: nat)
    requires Shaped(s) && r < Regions(s)
    ensures FirstFree(s, r, 0) == -1 <==> FullRegion(s, r)
  {
    FreeFacts(s, r, 0);
    if FirstFree(s, r, 0) == -1 {
      forall c: nat | RegionOf(c) == r ensures InUse(s, c) {
        RegionOfWord(c);
        NoneFree(s, r, 0, c);
      }
    }
  }

  /** What a scan that finds bucket c, or none, goes on with. */
  function FreePhase(k: Key, j: nat, c: int): Phase {
    if c >= 0 then Loading(k, j, c) else Scanning(k, j, 8)
  }

  lemma {:induction false} Scanned(s: State, i: nat, k: Key, j: nat, w: nat)
    requires Shaped(s) && i < |s.threads| && 0 <= s.region[i] && w <= 8 && s.threads[i] == Scanning(k, j, w)
    ensures Leads(s, To(s, i, FreePhase(k, j, FirstFree(s, s.region[i], w))))
    decreases 8 - w, 1
  {
    if w == 8 {
      LeadsSelf(s);
      assert To(s, i, Scanning(k, j, 8)) == s;
    } else {
      ScanWord(s, i, k, j, w);
      if FirstClear(s.bits[8 * s.region[i] + w], 0) == 64 { ScannedRest(s, i, k, j, w); }
    }
  }

  /** A full word: on to the next one. */
  lemma {:induction false} ScannedRest(s: State, i: nat, k: Key, j: nat, w: nat)
    requires Shaped(s) && i < |s.threads| && 0 <= s.region[i] && w < 8 && s.threads[i] == Scanning(k, j, w)
    requires FirstClear(s.bits[8 * s.region[i] + w], 0) == 64
    ensures Leads(s, To(s, i, FreePhase(k, j, FirstFree(s, s.region[i], w))))
    decreases 8 - w, 0
  {
    ScanWord(s, i, k, j, w);
    var s1, r := Scan(s, i, k, j, w), s.region[i];
    assert s1 == To(s, i, Scanning(k, j, w + 1));
    SameFree(s, s1, r, w + 1);
    Scanned(s1, i, k, j, w + 1);
    assert FirstFree(s, r, w) == FirstFree(s, r, w + 1);
    ScanRest(s, s1, i, FreePhase(k, j, FirstFree(s, r, w + 1)));
  }

  lemma ScanRest(s: State, s1: State, i: nat, p: Phase)
    requires i < |s.threads| == |s1.threads| && s1 == To(s, i, s1.threads[i])
    requires Leads(s, s1) && Leads(s1, To(s1, i, p))
    ensures Leads(s, To(s, i, p))
  {
    assert To(s1, i, p) == To(s, i, p);
    LeadsTrans(s, s1, To(s, i, p));
  }

  lemma ScanWord(s: State, i: nat, k: Key, j: nat, w: nat)
    requires Shaped(s) && i < |s.threads| && 0 <= s.region[i] && w < 8 && s.threads[i] == Scanning(k, j, w)
    ensures Leads(s, Scan(s, i, k, j, w))
  {
    LeadsSelf(s);
    Then(s, s, Advance(i));
  }

  lemma {:induction false} SameFree(s: State, s': State, r: nat, w: nat)
    requires Shaped(s) && Shaped(s') && s'.bits == s.bits && s'.slots.size == s.slots.size && r < Regions(s) && w <= 8
    ensures FirstFree(s', r, w) == FirstFree(s, r, w)
    decreases 8 - w
  {
    if w < 8 { SameFree(s, s', r, w + 1); }
  }

  /** The bucket's bit set and its data written. */
  function Claimed(s: State, i: nat, k: Key, j: nat, c: nat): State
    requires Shaped(s) && i < |s.threads| && c < s.slots.size
  {
    To(s, i, Swapping(k, j, c)).(bits := s.bits[WordOfBucket(c) := s.bits[WordOfBucket(c)] + {c % 64}],
                                 slots := s.slots.(data := s.slots.data[c := k]))
  }

  lemma Claim(s: State, i: nat, k: Key, j: nat, c: nat)
    requires Shaped(s) && i < |s.threads| && c < s.slots.size && s.threads[i] == Loading(k, j, c)
    ensures Leads(s, Claimed(s, i, k, j, c)) && Shaped(Claimed(s, i, k, j, c))
  {
    var x, word := Advance(i), s.bits[WordOfBucket(c)];
    LeadsSelf(s);
    Then(s, s, x);
    var s1 := To(s, i, Storing(k, j, c, word));
    Then(s, s1, x);
    var s2 := To(s, i, WritingA(k, j, c)).(bits := s.bits[WordOfBucket(c) := word + {c % 64}]);
    assert Apply(s1, x) == s2;
    WriteKey(s2, i, k, j, c);
    var s3 := To(s2, i, Swapping(k, j, c)).(slots := s2.slots.(data := s2.slots.data[c := k]));
    assert s3 == Claimed(s, i, k, j, c);
    LeadsTrans(s, s2, s3);
  }

  lemma WriteKey(s: State, i: nat, k: Key, j: nat, c: nat)
    requires Shaped(s) && i < |s.threads| && c < s.slots.size && s.threads[i] == WritingA(k, j, c)
    ensures Leads(s, To(s, i, Swapping(k, j, c)).(slots := s.slots.(data := s.slots.data[c := k])))
  {
    var x, b := Advance(i), s.slots.data[c].b;
    LeadsSelf(s);
    Then(s, s, x);
    var s1 := To(s, i, WritingB(k, j, c)).(slots := s.slots.(data := s.slots.data[c := Key(k.a, b)]));
    Then(s, s1, x);
    assert Apply(s1, x) == To(s, i, Swapping(k, j, c)).(slots := s.slots.(data := s.slots.data[c := k]));
  }

  // ---- the race ----

  /** The keys probe the same slots with the same hash bits. */
  ghost predicate Alike(t: Slotting, k: Key, k': Key) {
    t.tag(k) == t.tag(k') && forall j: nat {:trigger t.walk(k, j)} :: t.walk(k, j) == t.walk(k', j)
  }

  /** Two lookups of keys alike are about to scan the same region, whose first free bucket both
      see: both claim it, the second overwrites the first one's key, and both answer with it. */
  lemma Race(s: State, i: nat, m: nat, k: Key, k': Key, j: nat) returns (s': State)
    requires Shaped(s) && s.slots.Shape() && BitsOk(s) && i < |s.threads| && m < |s.threads| && i != m
    requires s.threads[i] == Scanning(k, j, 0) && s.threads[m] == Scanning(k', j, 0)
    requires 0 <= s.region[i] == s.region[m] && FirstFree(s, s.region[i], 0) >= 0
    requires k != k' && Alike(s.slots, k, k') && s.slots.table[Slot(s, k, j)] == 0
    ensures Leads(s, s') && !DistinctAnswers(s') && s'.strayed == s.strayed
  {
    var c := FirstFree(s, s.region[i], 0);
    FreeFacts(s, s.region[i], 0);
    assert InUse(s, 0) && InUse(s, 1) && !InUse(s, c);
    var s1, s2 := BothClaim(s, i, m, k, k', j, c);
    assert s.slots.walk(k, j) == s.slots.walk(k', j);
    s' := BothAnswer(s2, i, m, k, k', j, c);
    LeadsTrans(s, s2, s');
  }

  /** Both see the bucket free before either takes it. */
  lemma BothClaim(s: State, i: nat, m: nat, k: Key, k': Key, j: nat, c: nat) returns (s1: State, s2: State)
    requires Shaped(s) && i < |s.threads| && m < |s.threads| && i != m
    requires s.threads[i] == Scanning(k, j, 0) && s.threads[m] == Scanning(k', j, 0)
    requires 0 <= s.region[i] == s.region[m] && FirstFree(s, s.region[i], 0) == c < s.slots.size
    ensures s1 == To(To(s, i, Loading(k, j, c)), m, Loading(k', j, c))
    ensures s2 == Claimed(Claimed(s1, i, k, j, c), m, k', j, c) && Shaped(s2) && Leads(s, s2)
  {
    Scanned(s, i, k, j, 0);
    var s0 := To(s, i, Loading(k, j, c));
    SameFree(s, s0, s.region[i], 0);
    Scanned(s0, m, k', j, 0);
    s1 := To(s0, m, Loading(k', j, c));
    LeadsTrans(s, s0, s1);
    Claim(s1, i, k, j, c);
    var t := Claimed(s1, i, k, j, c);
    LeadsTrans(s, s1, t);
    Claim(t, m, k', j, c);
    s2 := Claimed(t, m, k', j, c);
    LeadsTrans(s, t, s2);
  }

  /** The first one fills the slot, the second one takes the index found there. */
  lemma BothSwap(s: State, i: nat, m: nat, k: Key, k': Key, j: nat, c: nat) returns (s2: State)
    requires Shaped(s) && s.slots.Shape() && i < |s.threads| && m < |s.threads| && i != m && 2 <= c < s.slots.size
    requires s.threads[i] == Swapping(k, j, c) && s.threads[m] == Swapping(k', j, c)
    requires s.slots.tag(k) == s.slots.tag(k') && Slot(s, k, j) == Slot(s, k', j)
    requires s.slots.table[Slot(s, k, j)] == 0
    ensures Leads(s, s2) && s2 == To(Swap(s, i, k, j, c), m, ComparingA(k', j, c, c))
  {
    var word := s.slots.tag(k) + c;
    LeadsSelf(s);
    Then(s, s, Advance(i));
    var s1 := Swap(s, i, k, j, c);
    assert word % W40 == c && word - word % W40 == s.slots.tag(k');
    LosesSwap(s1, m, k', j, c, word);
    s2 := To(s1, m, ComparingA(k', j, c, c));
    LeadsTrans(s, s1, s2);
  }

  lemma BothAnswer(s: State, i: nat, m: nat, k: Key, k': Key, j: nat, c: nat) returns (s': State)
    requires Shaped(s) && s.slots.Shape() && i < |s.threads| && m < |s.threads| && i != m && 2 <= c < s.slots.size
    requires s.threads[i] == Swapping(k, j, c) && s.threads[m] == Swapping(k', j, c) && s.slots.data[c] == k'
    requires k != k' && s.slots.tag(k) == s.slots.tag(k') && Slot(s, k, j) == Slot(s, k', j)
    requires s.slots.table[Slot(s, k, j)] == 0
    ensures Leads(s, s') && !DistinctAnswers(s') && s'.strayed == s.strayed
  {
    var s2 := BothSwap(s, i, m, k, k', j, c);
    s' := Finds(s2, m, k', j, c);
    LeadsTrans(s, s2, s');
    assert (k, c) in s'.answers && (k', c) in s'.answers;
  }

  /** The slot was filled meanwhile, with a word of the same hash bits. */
  lemma LosesSwap(s: State, m: nat, k: Key, j: nat, c: nat, word: nat)
    requires Shaped(s) && m < |s.threads| && c < s.slots.size && s.threads[m] == Swapping(k, j, c)
    requires Slot(s, k, j) < s.slots.size && s.slots.table[Slot(s, k, j)] == word != 0
    requires word - word % W40 == s.slots.tag(k)
    ensures Leads(s, To(s, m, ComparingA(k, j, c, word % W40)))
  {
    LeadsSelf(s);
    Then(s, s, Advance(m));
    var s1 := To(s, m, Rereading(k, j, c));
    Then(s, s1, Advance(m));
    assert Apply(s1, Advance(m)) == To(s, m, ComparingA(k, j, c, word % W40));
  }

  /** The lookup finds its key at d, gives its unused bucket back and answers. */
  lemma Finds(s: State, m: nat, k: Key, j: nat, c: nat) returns (s': State)
    requires Shaped(s) && m < |s.threads| && 2 <= c < s.slots.size
    requires s.threads[m] == ComparingA(k, j, c, c) && s.slots.data[c] == k
    ensures Leads(s, s') && s'.answers == s.answers + {(k, c)} && s'.strayed == s.strayed
  {
    LeadsSelf(s);
    Then(s, s, Advance(m));
    var s1 := To(s, m, ComparingB(k, j, c, c));
    Then(s, s1, Advance(m));
    var s2 := To(s1, m, Releasing(k, c, c));
    s' := GivesBack(s2, m, k, c);
    LeadsTrans(s, s2, s');
  }

  lemma GivesBack(s: State, m: nat, k: Key, c: nat) returns (s': State)
    requires Shaped(s) && m < |s.threads| && c < s.slots.size && s.threads[m] == Releasing(k, c, c)
    ensures Leads(s, s') && s'.answers == s.answers + {(k, c)} && s'.strayed == s.strayed
  {
    LeadsSelf(s);
    Then(s, s, Advance(m));
    var s1 := To(s, m, Clearing(k, c, c, s.bits[WordOfBucket(c)]));
    Then(s, s1, Advance(m));
    s' := Apply(s1, Advance(m));
  }

  // ---- keys with one hash ----

  /** The n-th of a list of pairwise different keys. */
  function KeyAt(n: nat): Key { Key(n % W64, 1 + n / W64) }

  lemma KeysDiffer(n: nat, n': nat)
    ensures KeyAt(n) == KeyAt(n') <==> n == n'
    ensures KeyAt(n) != Key(0, 0)
  {
  }

  ghost predicate SameHash(hash: Key -> nat, keys: set<Key>) {
    && (forall k, k' :: k in keys && k' in keys ==> hash(k) == hash(k'))
    && (forall k :: k in keys ==> k != Key(0, 0))
  }

  /** Among h * m numbers whose keys have hashes below h, some m keys have one hash. */
  lemma {:induction false} Pigeonhole(hash: Key -> nat, ns: set<nat>, h: nat, m: nat) returns (group: set<nat>)
    requires 0 < h && 0 < m && |ns| >= h * m && forall n :: n in ns ==> hash(KeyAt(n)) < h
    ensures |group| >= m && forall n, n' :: n in group && n' in group ==> hash(KeyAt(n)) == hash(KeyAt(n'))
  {
    group := set n | n in ns && hash(KeyAt(n)) == h - 1;
    assert h * m == (h - 1) * m + m;
    if h == 1 {
      assert group == ns;
      return;
    }
    if |group| < m {
      var rest := ns - group;
      assert |rest| == |ns| - |group|;
      group := Pigeonhole(hash, rest, h - 1, m);
    }
  }

  lemma {:induction false} KeyCount(ns: set<nat>)
    ensures |set n | n in ns :: KeyAt(n)| == |ns|
  {
    if n :| n in ns {
      KeyCount(ns - {n});
      forall n' ensures KeyAt(n) == KeyAt(n') <==> n == n' { KeysDiffer(n, n'); }
      assert (set n' | n' in ns :: KeyAt(n')) == (set n' | n' in ns - {n} :: KeyAt(n')) + {KeyAt(n)};
    }
  }

  /** As many keys with one hash as wanted. */
  lemma HashClass(hash: Key -> nat, m: nat) returns (keys: set<Key>)
    requires 0 < m && forall k :: hash(k) < W64
    ensures |keys| >= m && SameHash(hash, keys)
  {
    var group := Pigeonhole(hash, Below(W64 * m), W64, m);
    keys := set n | n in group :: KeyAt(n);
    KeyCount(group);
    forall n: nat ensures KeyAt(n) != Key(0, 0) { KeysDiffer(n, n); }
  }

  // ---- tables with the program's probe sequence ----

  /** The slots are probed as the unique table probes them. */
  ghost predicate Hashed(t: Slotting, hash: Key -> nat) {
    && P.TableSize(t.size) && (forall k :: hash(k) < W64) && (forall k :: t.tag(k) == U.HashTag(hash(k)))
    && forall k, j: nat {:trigger t.walk(k, j)} :: t.walk(k, j) == P.Probe(hash(k), t.size, j)
  }

  lemma HashAlike(t: Slotting, hash: Key -> nat, k: Key, k': Key)
    requires Hashed(t, hash) && hash(k) == hash(k')
    ensures Alike(t, k, k')
  {
  }

  /** A table whose probe limit covers it. */
  ghost predicate Table(s: State, hash: Key -> nat) {
    && Shaped(s) && s.slots.Ok() && BitsOk(s) && Hashed(s.slots, hash) && s.slots.size <= 8 * s.threshold
  }

  lemma {:induction false} StoredCount(data: seq<Key>, ds: set<nat>)
    requires forall d :: d in ds ==> d < |data|
    ensures |set d | d in ds :: data[d]| <= |ds|
  {
    if d :| d in ds {
      StoredCount(data, ds - {d});
      assert (set e | e in ds :: data[e]) == (set e | e in ds - {d} :: data[e]) + {data[d]};
    }
  }

  /** Of more keys than the table holds, one is not stored and not the one to avoid. */
  lemma NewKey(s: State, keys: set<Key>, avoid: Key) returns (k: Key)
    requires Shaped(s) && s.slots.Ok() && |keys| >= s.slots.size + 2
    ensures k in keys && k != avoid && Absent(s, k)
  {
    var stored := set d | d in s.slots.pos.Keys :: s.slots.data[d];
    StoredCount(s.slots.data, s.slots.pos.Keys);
    SubsetCount(s.slots.pos.Keys, Below(s.slots.size));
    assert |stored + {avoid}| <= |stored| + 1;
    if keys <= stored + {avoid} {
      SubsetCount(keys, stored + {avoid});
      assert false;
    }
    k :| k in keys && k !in stored + {avoid};
    forall d | d in s.slots.pos ensures s.slots.data[d] != k { assert s.slots.data[d] in stored; }
  }

  lemma {:induction false} Least(t: Slotting, k: Key, n: nat) returns (j: nat)
    requires t.Shape() && t.table[t.walk(k, n)] == 0
    ensures j <= n && t.FilledBefore(k, j) && t.table[t.walk(k, j)] == 0
  {
    if t.FilledBefore(k, n) { return n; }
    var m: nat :| m < n && t.table[t.walk(k, m)] == 0;
    j := Least(t, k, m);
  }

  /** While a bucket is free, probing for a new key meets an empty slot. */
  lemma FindPlace(s: State, hash: Key -> nat, k: Key, c: nat) returns (j: nat)
    requires Table(s, hash) && k != Key(0, 0) && Absent(s, k) && c < s.slots.size && !InUse(s, c)
    ensures Placeable(s, k, j)
  {
    assert c in s.slots.pos ==> InUse(s, c);
    var filled := s.slots.RoomLeft(c);
    var n := P.ProbeFindsGap(hash(k), s.slots.size, filled);
    assert s.slots.walk(k, n) !in filled;
    j := Least(s.slots, k, n);
  }

  // ---- a thread on its own ----

  ghost predicate OthersIdle(s: State, m: nat) {
    forall n :: 0 <= n < |s.threads| && n != m ==> s.threads[n].Idle?
  }

  /** Only thread m and the memory it may change differ. */
  ghost predicate Alone(s: State, s': State, m: nat) {
    && |s'.threads| == |s.threads| && (forall n :: 0 <= n < |s.threads| && n != m ==> s'.threads[n] == s.threads[n])
    && |s'.region| == |s.region| && (forall n :: 0 <= n < |s.region| && n != m ==> s'.region[n] == s.region[n])
    && s'.strayed == s.strayed && s'.threshold == s.threshold && s'.slots.size == s.slots.size
    && |s'.bits| == |s.bits|
  }

  /** A whole insertion, from the scan on. */
  lemma Inserted(s: State, hash: Key -> nat, m: nat, k: Key, j: nat, c: nat) returns (s': State)
    requires Table(s, hash) && m < |s.threads| && s.threads[m] == Scanning(k, j, 0) && Placeable(s, k, j)
    requires 0 <= s.region[m] && FirstFree(s, s.region[m], 0) == c
    ensures Leads(s, s') && Table(s', hash) && Alone(s, s', m) && s'.threads[m].Idle?
    ensures s'.region == s.region && s'.claimed == s.claimed
    ensures !InUse(s, c) && RegionOf(c) == s.region[m]
    ensures forall b: nat {:trigger InUse(s', b)} :: InUse(s', b) <==> InUse(s, b) || b == c
  {
    FreshBucket(s, hash, s.region[m], c);
    var s2 := InsertRun(s, m, k, j, c);
    s' := Swap(s2, m, k, j, c);
    Stored(s, s2, m, k, j, c);
    BitsAdded(s, s', c, Slot(s, k, j), j);
  }

  lemma FreshBucket(s: State, hash: Key -> nat, r: nat, c: nat)
    requires Table(s, hash) && r < Regions(s) && FirstFree(s, r, 0) == c
    ensures 2 <= c < s.slots.size && c !in s.slots.pos && !InUse(s, c) && RegionOf(c) == r
  {
    FreeFacts(s, r, 0);
    assert InUse(s, 0) && InUse(s, 1);
    assert c in s.slots.pos ==> InUse(s, c);
  }

  lemma InsertRun(s: State, m: nat, k: Key, j: nat, c: nat) returns (s2: State)
    requires Shaped(s) && m < |s.threads| && s.threads[m] == Scanning(k, j, 0) && c < s.slots.size
    requires 0 <= s.region[m] && FirstFree(s, s.region[m], 0) == c && Slot(s, k, j) < s.slots.size
    ensures s2 == Claimed(To(s, m, Loading(k, j, c)), m, k, j, c) && Leads(s, Swap(s2, m, k, j, c))
  {
    Scanned(s, m, k, j, 0);
    var s1 := To(s, m, Loading(k, j, c));
    Claim(s1, m, k, j, c);
    s2 := Claimed(s1, m, k, j, c);
    LeadsTrans(s, s1, s2);
    Then(s, s2, Advance(m));
  }

  /** The slots after an insertion. */
  lemma Stored(s: State, s2: State, m: nat, k: Key, j: nat, c: nat)
    requires Placeable(s, k, j) && m < |s2.threads| && 2 <= c < s.slots.size && c !in s.slots.pos
    requires s2.slots == s.slots.(data := s.slots.data[c := k])
    ensures Swap(s2, m, k, j, c).slots.Ok()
    ensures Swap(s2, m, k, j, c).slots == s2.slots.Place(c, Slot(s, k, j), j)
  {
    s.slots.DataFrame(c, k);
    s2.slots.PlaceOk(c, Slot(s, k, j), j);
  }

  lemma BitsAdded(s: State, s': State, c: nat, slot: nat, j: nat)
    requires Shaped(s) && Shaped(s') && s.slots.Ok() && BitsOk(s) && c < s.slots.size && slot < s.slots.size
    requires s'.bits == s.bits[WordOfBucket(c) := s.bits[WordOfBucket(c)] + {c % 64}]
    requires s'.slots.pos == s.slots.pos[c := j]
    ensures BitsOk(s') && forall b: nat {:trigger InUse(s', b)} :: InUse(s', b) <==> InUse(s, b) || b == c
  {
    forall b: nat ensures InUse(s', b) <==> InUse(s, b) || b == c { BitAdded(s, s', c, b); }
    forall b | b in s'.slots.pos ensures InUse(s', b) { assert b != c ==> InUse(s, b); }
  }

  lemma BitAdded(s: State, s': State, c: nat, b: nat)
    requires WordOfBucket(c) < |s.bits|
    requires s'.bits == s.bits[WordOfBucket(c) := s.bits[WordOfBucket(c)] + {c % 64}]
    ensures InUse(s', b) <==> InUse(s, b) || b == c
  {
    if WordOfBucket(b) == WordOfBucket(c) && b % 64 == c % 64 { BitPosition(b, c); }
  }

  /** Without a bucket in its region, or without a region, the thread moves to an unclaimed one. */
  lemma Moved(s: State, m: nat, k: Key, j: nat, r: nat) returns (s': State)
    requires Shaped(s) && m < |s.threads| && s.threads[m] == Scanning(k, j, 0) && r < Regions(s) && r !in s.claimed
    requires s.region[m] == -1 || FirstFree(s, s.region[m], 0) == -1
    ensures Leads(s, s') && |s'.region| == |s.region|
    ensures 0 <= s'.region[m] < Regions(s) && s'.region[m] !in s.claimed
    ensures s' == s.(claimed := s.claimed + {s'.region[m]}, region := s.region[m := s'.region[m]])
  {
    var s1 := s;
    if s.region[m] == -1 { LeadsSelf(s); } else {
      Scanned(s, m, k, j, 0);
      s1 := To(s, m, Scanning(k, j, 8));
    }
    Then(s, s1, Advance(m));
    s' := Apply(s1, Advance(m));
    RoundFails(s.claimed, Regions(s), s.region[m]);
  }

  ghost function Unclaimed(s: State): set<nat> {
    set r: nat | r < Regions(s) && r !in s.claimed
  }

  ghost function FreeBuckets(s: State): set<nat> {
    set c: nat | c < s.slots.size && !InUse(s, c)
  }

  /** Thread m is about to scan for a new key of the group, everybody else is idle; thread i
      is in region r, which has a free bucket. */
  ghost predicate Poised(s: State, hash: Key -> nat, keys: set<Key>, i: nat, m: nat, r: nat, k: Key, j: nat) {
    && Table(s, hash) && |keys| >= s.slots.size + 2 && SameHash(hash, keys)
    && i < |s.threads| && m < |s.threads| && i != m && OthersIdle(s, m)
    && k in keys && s.threads[m] == Scanning(k, j, 0) && Placeable(s, k, j)
    && s.region[i] == r < Regions(s) && !FullRegion(s, r)
  }

  lemma {:induction false} ToShared(s: State, hash: Key -> nat, keys: set<Key>, i: nat, m: nat, r: nat, k: Key, j: nat)
    returns (s': State, k': Key, j': nat)
    requires Poised(s, hash, keys, i, m, r, k, j) && (r !in s.claimed || s.region[m] == r)
    ensures Leads(s, s') && Poised(s', hash, keys, i, m, r, k', j') && s'.region[m] == r && s'.strayed == s.strayed
    decreases Unclaimed(s), FreeBuckets(s)
  {
    if s.region[m] == r {
      LeadsSelf(s);
      return s, k, j;
    }
    if s.region[m] >= 0 { FreeFacts(s, s.region[m], 0); }
    var s1, k1, j1;
    if s.region[m] >= 0 && FirstFree(s, s.region[m], 0) >= 0 {
      s1, k1, j1 := InsertAndScan(s, hash, keys, i, m, r, k, j);
    } else {
      s1 := MoveOn(s, hash, keys, i, m, r, k, j);
      k1, j1 := k, j;
    }
    s', k', j' := ToShared(s1, hash, keys, i, m, r, k1, j1);
    LeadsTrans(s, s1, s');
  }

  lemma MoveOn(s: State, hash: Key -> nat, keys: set<Key>, i: nat, m: nat, r: nat, k: Key, j: nat)
    returns (s1: State)
    requires Poised(s, hash, keys, i, m, r, k, j) && r !in s.claimed
    requires s.region[m] == -1 || FirstFree(s, s.region[m], 0) == -1
    ensures Leads(s, s1) && Poised(s1, hash, keys, i, m, r, k, j) && s1.strayed == s.strayed
    ensures r !in s1.claimed || s1.region[m] == r
    ensures Unclaimed(s1) < Unclaimed(s)
  {
    s1 := Moved(s, m, k, j, r);
    assert s1.region[m] in Unclaimed(s) && s1.region[m] !in Unclaimed(s1);
    assert forall c: nat :: InUse(s1, c) <==> InUse(s, c);
  }

  /** Thread m inserts its key and begins with another one. */
  lemma InsertAndScan(s: State, hash: Key -> nat, keys: set<Key>, i: nat, m: nat, r: nat, k: Key, j: nat)
    returns (s': State, k': Key, j': nat)
    requires Poised(s, hash, keys, i, m, r, k, j) && 0 <= s.region[m] != r && FirstFree(s, s.region[m], 0) >= 0
    ensures Leads(s, s') && Poised(s', hash, keys, i, m, r, k', j') && s'.strayed == s.strayed
    ensures s'.region == s.region && s'.claimed == s.claimed && |s'.bits| == |s.bits|
    ensures FreeBuckets(s') < FreeBuckets(s)
  {
    var c := FirstFree(s, s.region[m], 0);
    FreeFacts(s, s.region[m], 0);
    var s1 := Inserted(s, hash, m, k, j, c);
    var f: nat :| RegionOf(f) == r && !InUse(s, f);
    assert !InUse(s1, f);
    InRegion(s1, r, f);
    k', j', s' := NextScan(s1, hash, keys, m, k, f);
    LeadsTrans(s, s1, s');
    assert forall b: nat :: InUse(s', b) <==> InUse(s1, b);
    FewerFree(s, s', c);
  }

  lemma FewerFree(s: State, s': State, c: nat)
    requires s'.slots.size == s.slots.size && c < s.slots.size && !InUse(s, c)
    requires forall b: nat {:trigger InUse(s', b)} :: InUse(s', b) <==> InUse(s, b) || b == c
    ensures FreeBuckets(s') < FreeBuckets(s)
  {
    assert c in FreeBuckets(s) && c !in FreeBuckets(s');
  }

  /** An idle thread begins with a key that is not stored. */
  lemma NextScan(s: State, hash: Key -> nat, keys: set<Key>, m: nat, avoid: Key, f: nat)
    returns (k: Key, j: nat, s': State)
    requires Table(s, hash) && |keys| >= s.slots.size + 2 && SameHash(hash, keys) && f < s.slots.size && !InUse(s, f)
    requires m < |s.threads| && s.threads[m].Idle?
    ensures k in keys && Placeable(s, k, j) && s' == To(s, m, Scanning(k, j, 0)) && Leads(s, s')
    ensures Table(s', hash) && Placeable(s', k, j)
  {
    k := NewKey(s, keys, avoid);
    j := FindPlace(s, hash, k, f);
    ToScan(s, m, k, j);
    s' := To(s, m, Scanning(k, j, 0));
    assert forall c: nat :: InUse(s', c) <==> InUse(s, c);
  }

  lemma InRegion(s: State, r: nat, c: nat)
    requires Shaped(s) && r < Regions(s) && RegionOf(c) == r
    ensures c < s.slots.size
  {
    RegionOfWord(c);
  }

  // ---- which starts are safe ----

  /** In no run do answers collide. */
  ghost predicate Distinct(s0: State) {
    forall acts, s :: Runs(s0, acts, s) ==> DistinctAnswers(s)
  }

  /** In no run, unless a claim fails for a thread without a region, do answers collide. */
  ghost predicate Unique(s0: State) {
    forall acts, s :: Runs(s0, acts, s) && !s.strayed ==> DistinctAnswers(s)
  }

  /** Every thread has a region. */
  predicate Housed(s: State) {
    forall i :: 0 <= i < |s.region| ==> 0 <= s.region[i]
  }

  lemma HousedStep(s: State, x: Step)
    requires Enabled(s, x) && Housed(s) && !s.strayed
    ensures Shaped(Apply(s, x)) && Housed(Apply(s, x)) && !Apply(s, x).strayed
  {
    if x.Advance? && s.threads[x.i].Scanning? {
      RoundFails(s.claimed, Regions(s), s.region[x.i]);
    } else {
      SameRegions(s, x);
    }
  }

  lemma SameRegions(s: State, x: Step)
    requires Enabled(s, x) && !(x.Advance? && s.threads[x.i].Scanning?)
    ensures Shaped(Apply(s, x)) && Apply(s, x).region == s.region && Apply(s, x).strayed == s.strayed
  {
    SameSizes(s, x);
  }

  lemma SameSizes(s: State, x: Step)
    requires Enabled(s, x)
    ensures var s' := Apply(s, x);
            && |s'.bits| == |s.bits| && s'.slots.size == s.slots.size && |s'.threads| == |s.threads|
            && |s'.slots.table| == |s.slots.table| && |s'.slots.data| == |s.slots.data|
  {
    SameSlotSizes(s, x);
  }

  lemma SameSlotSizes(s: State, x: Step)
    requires Enabled(s, x)
    ensures var t, t' := s.slots, Apply(s, x).slots;
            t'.size == t.size && |t'.table| == |t.table| && |t'.data| == |t.data|
  {
  }

  /** Then no claim ever fails for a thread without one. */
  lemma {:induction false} NoStray(s: State, acts: seq<Step>, s': State)
    requires Runs(s, acts, s') && Housed(s) && !s.strayed
    ensures !s'.strayed
    decreases |acts|
  {
    if acts != [] {
      HousedStep(s, acts[0]);
      NoStray(Apply(s, acts[0]), acts[1..], s');
    }
  }

  lemma HousedDistinct(s0: State)
    requires Start(s0) && Housed(s0)
    ensures Distinct(s0) <==> Unique(s0)
  {
    forall acts, s | Runs(s0, acts, s) ensures !s.strayed { NoStray(s0, acts, s); }
  }

  /** A table whose lookups probe up to `limit` lines. */
  function Limited(s: State, limit: nat): State { s.(threshold := limit) }

  /** From an unsafe start, some run gives two keys one index. */
  lemma UnsafeCollides(s0: State, hash: Key -> nat) returns (s: State)
    requires Start(s0) && Table(s0, hash) && !SafeStart(s0)
    ensures Leads(s0, s) && !s.strayed && !DistinctAnswers(s)
  {
    var i: nat :| i < |s0.threads| && !SafeAt(s0, i);
    var r := s0.region[i];
    var m := Partner(s0, i);
    var keys := HashClass(hash, s0.slots.size + 2);
    var f: nat :| RegionOf(f) == r && !InUse(s0, f);
    InRegion(s0, r, f);
    var k, j, s1 := NextScan(s0, hash, keys, m, Key(0, 0), f);
    assert forall c: nat :: InUse(s1, c) <==> InUse(s0, c);
    var s2, k2, j2 := ToShared(s1, hash, keys, i, m, r, k, j);
    s := SharedCollides(s2, hash, keys, i, m, r, k2, j2);
    LeadsTrans(s0, s1, s2);
    LeadsTrans(s0, s2, s);
  }

  /** Another thread in the region, or that may come to it. */
  lemma Partner(s: State, i: nat) returns (m: nat)
    requires Shaped(s) && i < |s.threads| && !SafeAt(s, i)
    ensures m < |s.threads| && m != i && (s.region[i] !in s.claimed || s.region[m] == s.region[i])
    ensures 0 <= s.region[i] < Regions(s) && !FullRegion(s, s.region[i])
  {
    if s.region[i] in s.claimed || |s.threads| == 1 {
      m :| 0 <= m < |s.region| && m != i && s.region[m] == s.region[i];
    } else {
      m := if i == 0 then 1 else 0;
    }
  }

  lemma SharedCollides(s: State, hash: Key -> nat, keys: set<Key>, i: nat, m: nat, r: nat, k: Key, j: nat)
    returns (s': State)
    requires Poised(s, hash, keys, i, m, r, k, j) && s.region[m] == r
    ensures Leads(s, s') && s'.strayed == s.strayed && !DistinctAnswers(s')
  {
    var k' := NewKey(s, keys, k);
    HashAlike(s.slots, hash, k', k);
    assert Placeable(s, k', j) by {
      forall n: nat | n < j ensures s.slots.table[s.slots.walk(k', n)] != 0 {
        assert s.slots.walk(k, n) == s.slots.walk(k', n);
      }
      assert s.slots.walk(k, j) == s.slots.walk(k', j);
    }
    ToScan(s, i, k', j);
    var s1 := To(s, i, Scanning(k', j, 0));
    SameFree(s, s1, r, 0);
    FreeFacts(s, r, 0);
    FreeOrFull(s, r);
    assert InUse(s, 0) && InUse(s, 1);
    assert forall c: nat :: InUse(s1, c) <==> InUse(s, c);
    s' := Race(s1, i, m, k', k, j);
    LeadsTrans(s, s1, s');
  }

  /** In a table whose probe limit covers it, answers never collide if and only if no thread
      starts in a shared or unclaimed region that has a bucket left. */
  lemma UniqueIffSafe(s0: State, hash: Key -> nat)
    requires Start(s0) && Table(s0, hash)
    ensures Unique(s0) <==> SafeStart(s0)
  {
    if SafeStart(s0) {
      forall acts, s | Runs(s0, acts, s) && !s.strayed ensures DistinctAnswers(s) { AnswersUnique(s0, acts, s); }
    } else {
      var s := UnsafeCollides(s0, hash);
      assert Opened(0);
      var acts :| Runs(s0, acts, s);
    }
  }

  /** So whatever the probe limit, if and only if the start is safe. */
  lemma AlwaysUniqueIffSafe(s0: State, hash: Key -> nat)
    requires Start(s0) && Hashed(s0.slots, hash)
    ensures (forall limit: nat :: Unique(Limited(s0, limit))) <==> SafeStart(s0)
  {
    forall limit: nat ensures Start(Limited(s0, limit)) && (SafeStart(Limited(s0, limit)) <==> SafeStart(s0)) {
      SameStart(s0, limit);
    }
    if SafeStart(s0) {
      forall limit: nat ensures Unique(Limited(s0, limit)) {
        SameStart(s0, limit);
        var t := Limited(s0, limit);
        forall acts, s | Runs(t, acts, s) && !s.strayed ensures DistinctAnswers(s) { AnswersUnique(t, acts, s); }
      }
    } else {
      SameStart(s0, s0.slots.size);
      UniqueIffSafe(Limited(s0, s0.slots.size), hash);
    }
  }

  /** If every thread starts in a region, this is so over all runs. */
  lemma DistinctIffSafe(s0: State, hash: Key -> nat)
    requires Start(s0) && Hashed(s0.slots, hash) && Housed(s0)
    ensures (forall limit: nat :: Distinct(Limited(s0, limit))) <==> SafeStart(s0)
    ensures s0.slots.size <= 8 * s0.threshold ==> (Distinct(s0) <==> SafeStart(s0))
  {
    AlwaysUniqueIffSafe(s0, hash);
    forall limit: nat ensures Distinct(Limited(s0, limit)) <==> Unique(Limited(s0, limit)) {
      SameStart(s0, limit);
      HousedDistinct(Limited(s0, limit));
    }
    HousedDistinct(s0);
    if s0.slots.size <= 8 * s0.threshold { UniqueIffSafe(s0, hash); }
  }

  /** The limit a table is created with covers it only if it is of the smallest size. */
  lemma OwnLimitCovers(size: nat)
    requires P.TableSize(size)
    ensures size <= 8 * U.OwnLimit(size) <==> size == 512
  {
    Log512();
    if size > 512 { LimitBelow(size); }
  }

  lemma Log512()
    ensures U.Log2(512) == 9
  {
    assert U.Log2(32) == 1 + U.Log2(16) == 2 + U.Log2(8) == 3 + U.Log2(4) == 4 + U.Log2(2) == 5;
    assert U.Log2(512) == 1 + U.Log2(256) == 2 + U.Log2(128) == 3 + U.Log2(64) == 4 + U.Log2(32);
  }

  lemma {:induction false} LimitBelow(size: nat)
    requires 512 < size && P.IsPow2(size)
    ensures U.Log2(size) >= 10 && 8 * (66 + 2 * U.Log2(size)) < size
    decreases size
  {
    Log512();
    if size / 2 < 512 {
      Size512();
      NoneBetween(512, size);
      assert false;
    }
    if size / 2 > 512 { LimitBelow(size / 2); }
  }

  /** No power of two lies between two consecutive ones. */
  lemma {:induction false} NoneBetween(p: nat, n: nat)
    requires P.IsPow2(p) && p < n < 2 * p
    ensures !P.IsPow2(n)
    decreases p
  {
    if p > 1 && n % 2 == 0 { NoneBetween(p / 2, n / 2); }
  }

  lemma Size512()
    ensures P.IsPow2(512)
  {
    assert P.IsPow2(2) && P.IsPow2(4) && P.IsPow2(8) && P.IsPow2(16) && P.IsPow2(32) && P.IsPow2(64);
    assert P.IsPow2(128) && P.IsPow2(256);
  }

  /** Under any limit, two threads in one region with a free bucket confuse two new keys alike
      whose place lies within the limit. */
  lemma CollidesWithin(s0: State, i: nat, m: nat, k: Key, k': Key, j: nat) returns (s: State)
    requires Start(s0) && i < |s0.threads| && m < |s0.threads| && i != m
    requires 0 <= s0.region[i] == s0.region[m] && !FullRegion(s0, s0.region[i])
    requires k != k' && Alike(s0.slots, k, k') && Placeable(s0, k, j) && Placeable(s0, k', j)
    ensures Leads(s0, s) && !DistinctAnswers(s)
  {
    ToScan(s0, i, k, j);
    var s1 := To(s0, i, Scanning(k, j, 0));
    ToScan(s1, m, k', j);
    var s2 := To(s1, m, Scanning(k', j, 0));
    LeadsTrans(s0, s1, s2);
    FreeOrFull(s0, s0.region[i]);
    SameFree(s0, s2, s0.region[i], 0);
    SameBits(s0, s2);
    s := Race(s2, i, m, k, k', j);
    LeadsTrans(s0, s2, s);
  }

  lemma SameStart(s0: State, limit: nat)
    requires Start(s0)
    ensures Start(Limited(s0, limit)) && (SafeStart(Limited(s0, limit)) <==> SafeStart(s0))
  {
    var t := Limited(s0, limit);
    forall c: nat ensures InUse(t, c) <==> InUse(s0, c) {}
    forall d, d' | d in s0.slots.pos && d' in s0.slots.pos && 2 <= d && 2 <= d' ensures SameKey(t, d, d') {
      assert SameKey(s0, d, d');
    }
    forall i | 0 <= i < |s0.threads| ensures SafeAt(t, i) <==> SafeAt(s0, i) {
      assert FullRegion(t, s0.region[i]) <==> FullRegion(s0, s0.region[i]);
    }
  }

  // ---- the program's start ----

  /** The thread that created the table, thread 0, has loaded the net into it and so has
      claimed its region; the region variables of the worker threads are zero-initialised. */
  ghost predicate WorkersStart(s0: State) {
    && Start(s0) && 2 <= |s0.threads| && 0 <= s0.region[0] && s0.region[0] in s0.claimed
    && forall i :: 1 <= i < |s0.threads| ==> s0.region[i] == 0
  }

  /** With two threads in region 0, answers never collide, in any run, if and only if it is full
      already. */
  lemma WorkersUniqueIffFull(s0: State, hash: Key -> nat)
    requires WorkersStart(s0) && Hashed(s0.slots, hash) && (3 <= |s0.threads| || s0.region[0] == 0)
    ensures (forall limit: nat :: Distinct(Limited(s0, limit))) <==> FullRegion(s0, 0)
    ensures s0.slots.size <= 8 * s0.threshold ==> (Distinct(s0) <==> FullRegion(s0, 0))
  {
    DistinctIffSafe(s0, hash);
    if SafeStart(s0) {
      assert SafeAt(s0, 1);
      assert !Sole(s0, 1) by { assert s0.region[if s0.region[0] == 0 then 0 else 2] == s0.region[1]; }
    }
    if FullRegion(s0, 0) {
      forall i | 0 <= i < |s0.threads| ensures SafeAt(s0, i) {}
    }
  }

  /** The table as it is created: its creator, thread 0, has no region, and the region variables
      of the others are zero-initialised. */
  ghost function EmptyTable(size: nat, hash: Key -> nat, threads: nat, limit: nat): State
    requires P.TableSize(size) && forall k :: hash(k) < W64
  {
    var t := Slotting(size, U.WalkFor(size, hash), k => U.HashTag(hash(k)), seq(size, _ => 0),
      seq(size, _ => Key(0, 0)), map[]);
    var bits := seq(size / 64, w => if w == 0 then {0, 1} else {});
    var region := seq(threads, i => if i == 0 then -1 else 0);
    State(t, limit, bits, {}, region, seq(threads, _ => Idle), {}, {}, false)
  }

  lemma EmptyStarts(size: nat, hash: Key -> nat, threads: nat, limit: nat)
    requires P.TableSize(size) && forall k :: hash(k) < W64
    ensures var s0 := EmptyTable(size, hash, threads, limit);
            Start(s0) && Accounted(s0) && Hashed(s0.slots, hash) && FirstFree(s0, 0, 0) >= 0
  {
    var s0 := EmptyTable(size, hash, threads, limit);
    U.RegionsTile(size);
    EightWords(size);
    forall c: nat ensures InUse(s0, c) <==> c < 2 { if InUse(s0, c) { assert WordOfBucket(c) == 0; } }
    forall x ensures s0.slots.tag(x) % W40 == 0 {}
    assert s0.slots.Shape();
    forall d | 0 <= d < size ensures s0.slots.SlotOk(d) {}
    assert !InUse(s0, 2) && RegionOf(2) == 0;
    FreeOrFull(s0, 0);
    FreeFacts(s0, 0, 0);
  }

  lemma EightWords(size: nat)
    requires size % 512 == 0 && size > 0
    ensures size / 64 * 64 == size && size / 64 == 8 * (size / 64 / 8) && size / 64 / 8 > 0
  {
    var n := size / 512;
    assert size == 64 * (8 * n) && n > 0;
    assert size / 64 == 8 * n;
    assert 8 * n / 8 == n;
  }

  /** In the very first lookups of two threads, whatever the probe limit, the second one's key
      can overwrite the first one's. */
  lemma EmptyTableCollides(size: nat, hash: Key -> nat, threads: nat, limit: nat) returns (s: State)
    requires P.TableSize(size) && (forall k :: hash(k) < W64) && 2 <= threads && 0 < limit
    ensures Leads(EmptyTable(size, hash, threads, limit), s) && !s.strayed && !DistinctAnswers(s)
  {
    var s0 := EmptyTable(size, hash, threads, limit);
    EmptyStarts(size, hash, threads, limit);
    var keys := HashClass(hash, 2);
    var k :| k in keys;
    var k' := OtherKey(keys, k);
    HashAlike(s0.slots, hash, k, k');
    var s1 := CreatorClaims(s0, k);
    ToScan(s1, 1, k', 0);
    var s2 := To(s1, 1, Scanning(k', 0, 0));
    LeadsTrans(s0, s1, s2);
    SameFree(s0, s2, 0, 0);
    SameBits(s0, s2);
    s := Race(s2, 0, 1, k, k', 0);
    LeadsTrans(s0, s2, s);
  }

  /** The first lookup of the creator makes it claim region 0. */
  lemma CreatorClaims(s0: State, k: Key) returns (s: State)
    requires Placeable(s0, k, 0) && 0 < |s0.threads| && s0.threads[0].Idle? && s0.region[0] == -1 && s0.claimed == {}
    ensures Leads(s0, s) && s == To(s0, 0, Scanning(k, 0, 0)).(claimed := {0}, region := s0.region[0 := 0])
  {
    ToScan(s0, 0, k, 0);
    var s1 := To(s0, 0, Scanning(k, 0, 0));
    Then(s0, s1, Advance(0));
    s := Apply(s1, Advance(0));
    assert Round({}, Regions(s0), -1, Regions(s0)) == (0, true);
  }

  lemma SameBits(s: State, s': State)
    requires Shaped(s) && Shaped(s') && s'.bits == s.bits && s'.slots == s.slots && BitsOk(s)
    ensures BitsOk(s')
  {
    forall c: nat ensures InUse(s', c) <==> InUse(s, c) {}
  }

  lemma OtherKey(keys: set<Key>, k: Key) returns (k': Key)
    requires k in keys && |keys| >= 2
    ensures k' in keys && k' != k
  {
    if keys <= {k} {
      SubsetCount(keys, {k});
      assert false;
    }
    k' :| k' in keys && k' != k;
  }

  /** A thread without a region whose claim fails is left in the last region.  If that is
      another thread's, with a bucket left, the repeated lookup collides with the other one. */
  lemma StrayCollides(s0: State, hash: Key -> nat, i: nat, m: nat) returns (s: State)
    requires Start(s0) && Table(s0, hash) && i < |s0.threads| && m < |s0.threads| && i != m
    requires s0.region[i] == s0.region[m] == -1
    requires forall r: nat :: r < Regions(s0) ==> (r !in s0.claimed <==> r == Regions(s0) - 1)
    requires !FullRegion(s0, Regions(s0) - 1)
    ensures Leads(s0, s) && s.strayed && !DistinctAnswers(s)
    ensures (forall n :: 0 <= n < |s0.threads| && n != i && n != m ==> SafeAt(s0, n)) ==> SafeStart(s0)
  {
    var keys := HashClass(hash, s0.slots.size + 2);
    var k, j, s1 := Strays(s0, hash, keys, i, m);
    s := SharedCollides(s1, hash, keys, i, m, Regions(s0) - 1, k, j);
    LeadsTrans(s0, s1, s);
  }

  /** Thread m takes the last region, and thread i strays into it. */
  lemma Strays(s0: State, hash: Key -> nat, keys: set<Key>, i: nat, m: nat) returns (k: Key, j: nat, s: State)
    requires Start(s0) && Table(s0, hash) && i < |s0.threads| && m < |s0.threads| && i != m
    requires |keys| >= s0.slots.size + 2 && SameHash(hash, keys) && s0.region[i] == s0.region[m] == -1
    requires forall r: nat :: r < Regions(s0) ==> (r !in s0.claimed <==> r == Regions(s0) - 1)
    requires !FullRegion(s0, Regions(s0) - 1)
    ensures Leads(s0, s) && s.strayed
    ensures Poised(s, hash, keys, i, m, Regions(s0) - 1, k, j) && s.region[m] == Regions(s0) - 1
  {
    var r := Regions(s0) - 1;
    var f: nat :| RegionOf(f) == r && !InUse(s0, f);
    InRegion(s0, r, f);
    var s1, s2;
    k, j, s1 := NextScan(s0, hash, keys, m, Key(0, 0), f);
    s2 := Moved(s1, m, k, j, r);
    LeadsTrans(s0, s1, s2);
    s := Stray(s2, i, k, j);
    LeadsTrans(s0, s2, s);
    assert forall c: nat :: InUse(s, c) <==> InUse(s0, c);
  }

  /** The lookup of thread i fails for want of a region. */
  lemma Stray(s: State, i: nat, k: Key, j: nat) returns (s': State)
    requires Placeable(s, k, j) && i < |s.threads| && s.threads[i].Idle? && s.region[i] == -1
    requires forall r: nat :: r < Regions(s) ==> r in s.claimed
    ensures Leads(s, s') && s' == s.(region := s.region[i := Regions(s) - 1], strayed := true)
  {
    ToScan(s, i, k, j);
    var s1 := To(s, i, Scanning(k, j, 0));
    RoundFails(s.claimed, Regions(s), -1);
    Then(s, s1, Advance(i));
    s' := Apply(s1, Advance(i));
    assert s'.threads == s.threads;
  }

  // ---- a leak ----

  /** Two lookups, each with a bucket, are about to fill the last slot they may probe: the one
      that comes second gives up, and its bucket is lost. */
  lemma LastSlot(s: State, i: nat, m: nat, k: Key, k': Key, j: nat, c: nat, c': nat) returns (s': State)
    requires Shaped(s) && s.slots.Ok() && i < |s.threads| && m < |s.threads| && i != m
    requires s.threads[i] == Swapping(k, j, c) && s.threads[m] == Swapping(k', j, c')
    requires forall n :: 0 <= n < |s.threads| && n != i && n != m ==> s.threads[n].Idle?
    requires 2 <= c < s.slots.size && 2 <= c' < s.slots.size && c != c' && c !in s.slots.pos && c' !in s.slots.pos
    requires s.slots.data[c] == k != k' && InUse(s, c') && j + 1 == 8 * s.threshold
    requires Slot(s, k, j) == Slot(s, k', j) && s.slots.table[Slot(s, k, j)] == 0 && s.slots.FilledBefore(k, j)
    ensures Leads(s, s') && Leaked(s', c') && s'.strayed == s.strayed
  {
    LeadsSelf(s);
    Then(s, s, Advance(i));
    var s1 := Swap(s, i, k, j, c);
    s.slots.PlaceOk(c, Slot(s, k, j), j);
    assert s1.slots == s.slots.Place(c, Slot(s, k, j), j);
    s.slots.WordIndex(c);
    s' := TooLate(s1, m, k', j, c');
    LeadsTrans(s, s1, s');
    assert forall n :: 0 <= n < |s'.threads| ==> s'.threads[n].Idle?;
  }

  /** The swap fails at the last slot that may be probed, and the lookup gives up. */
  lemma TooLate(s: State, m: nat, k: Key, j: nat, c: nat) returns (s': State)
    requires Shaped(s) && s.slots.Ok() && m < |s.threads| && s.threads[m] == Swapping(k, j, c) && c < s.slots.size
    requires s.slots.table[Slot(s, k, j)] != 0 && s.slots.SlotOk(Slot(s, k, j)) && j + 1 == 8 * s.threshold
    requires s.slots.data[s.slots.table[Slot(s, k, j)] % W40] != k
    ensures Leads(s, s') && s' == GiveUp(s, m, c)
  {
    LeadsSelf(s);
    Then(s, s, Advance(m));
    var s2 := To(s, m, Rereading(k, j, c));
    PassesReread(s2, m, k, j, c);
    var s3 := To(s2, m, Probing(k, j + 1, c));
    LeadsTrans(s, s2, s3);
    Then(s, s3, Advance(m));
    s' := GiveUp(s3, m, c);
    assert s' == GiveUp(s, m, c);
  }

  /** The slot was filled meanwhile, for another key. */
  lemma PassesReread(s: State, m: nat, k: Key, j: nat, c: nat)
    requires Shaped(s) && s.slots.Ok() && m < |s.threads| && s.threads[m] == Rereading(k, j, c)
    requires s.slots.table[Slot(s, k, j)] != 0 && s.slots.SlotOk(Slot(s, k, j))
    requires s.slots.data[s.slots.table[Slot(s, k, j)] % W40] != k
    ensures Leads(s, To(s, m, Probing(k, j + 1, c)))
  {
    var d := s.slots.table[Slot(s, k, j)] % W40;
    LeadsSelf(s);
    Then(s, s, Advance(m));
    var s1 := To(s, m, ComparingA(k, j, c, d));
    if Apply(s, Advance(m)) == s1 {
      Passes(s1, m, k, j, c, d);
      assert To(s1, m, Probing(k, j + 1, c)) == To(s, m, Probing(k, j + 1, c));
      LeadsTrans(s, s1, To(s, m, Probing(k, j + 1, c)));
    }
  }

  /** Two threads in regions of their own look up keys whose only free slot is the last one
      they may probe: one of their buckets leaks. */
  lemma LastSlotLeaks(s0: State, i: nat, m: nat, k: Key, k': Key, j: nat) returns (s: State, c: nat)
    requires Start(s0) && i < |s0.threads| && m < |s0.threads| && i != m && k != k'
    requires 0 <= s0.region[i] && 0 <= s0.region[m] && s0.region[i] != s0.region[m]
    requires FirstFree(s0, s0.region[i], 0) >= 0 && FirstFree(s0, s0.region[m], 0) >= 0
    requires Placeable(s0, k, j) && Placeable(s0, k', j)
    requires Slot(s0, k, j) == Slot(s0, k', j) && j + 1 == 8 * s0.threshold
    ensures Leads(s0, s) && !s.strayed && Leaked(s, c)
  {
    FreeFacts(s0, s0.region[i], 0);
    FreeFacts(s0, s0.region[m], 0);
    var b := FirstFree(s0, s0.region[i], 0);
    c := FirstFree(s0, s0.region[m], 0);
    var s2 := TwoClaims(s0, i, m, k, k', j, b, c);
    s := LastSlot(s2, i, m, k, k', j, b, c);
    LeadsTrans(s0, s2, s);
  }

  lemma TwoClaims(s0: State, i: nat, m: nat, k: Key, k': Key, j: nat, b: nat, c: nat) returns (s2: State)
    requires Start(s0) && i < |s0.threads| && m < |s0.threads| && i != m
    requires 0 <= s0.region[i] && 0 <= s0.region[m] && s0.region[i] != s0.region[m]
    requires FirstFree(s0, s0.region[i], 0) == b && FirstFree(s0, s0.region[m], 0) == c
    requires Placeable(s0, k, j) && Placeable(s0, k', j)
    ensures 2 <= b < |s0.slots.data| && 2 <= c < |s0.slots.data| && b != c
    ensures b !in s0.slots.pos && c !in s0.slots.pos
    ensures s2.slots == s0.slots.(data := s0.slots.data[b := k][c := k'])
    ensures s2.threads == s0.threads[i := Swapping(k, j, b)][m := Swapping(k', j, c)]
    ensures Leads(s0, s2) && Shaped(s2) && s2.slots.Ok() && s2.strayed == s0.strayed && s2.threshold == s0.threshold
    ensures InUse(s2, c) && s2.slots.FilledBefore(k, j)
  {
    FreeFacts(s0, s0.region[i], 0);
    FreeFacts(s0, s0.region[m], 0);
    var s1 := Claiming(s0, i, k, j);
    ClaimedFacts(s0, i, k, k', j, b);
    OtherRegion(s0, s1, s0.region[m], 0, b);
    assert !InUse(s1, c) by { FreeFacts(s1, s0.region[m], 0); }
    s2 := Claiming(s1, m, k', j);
    ClaimedFacts(s1, m, k', k, j, c);
    LeadsTrans(s0, s1, s2);
  }

  /** A claimed bucket is no index, and changes nothing for other keys. */
  lemma ClaimedFacts(s: State, i: nat, k: Key, k': Key, j: nat, c: nat)
    requires Shaped(s) && s.slots.Ok() && BitsOk(s) && i < |s.threads| && c < s.slots.size && !InUse(s, c)
    ensures var s' := Claimed(s, i, k, j, c);
            && 2 <= c && c !in s.slots.pos && Shaped(s') && s'.slots.Ok() && BitsOk(s')
            && InUse(s', c) && (Placeable(s, k', j) ==> Placeable(s', k', j))
            && (s.slots.FilledBefore(k', j) ==> s'.slots.FilledBefore(k', j))
  {
    assert InUse(s, 0) && InUse(s, 1);
    assert c in s.slots.pos ==> InUse(s, c);
    s.slots.DataFrame(c, k);
    var s' := Claimed(s, i, k, j, c);
    forall b: nat ensures InUse(s', b) <==> InUse(s, b) || b == c { BitAdded(s, s', c, b); }
    forall b | b in s'.slots.pos ensures InUse(s', b) { assert InUse(s, b); }
  }

  /** An idle thread goes on to its swap, with the first free bucket of its region. */
  lemma Claiming(s: State, i: nat, k: Key, j: nat) returns (s': State)
    requires Placeable(s, k, j) && i < |s.threads| && s.threads[i].Idle? && 0 <= s.region[i]
    requires 0 <= FirstFree(s, s.region[i], 0) < s.slots.size
    ensures Leads(s, s') && Shaped(s') && s' == Claimed(s, i, k, j, FirstFree(s, s.region[i], 0))
  {
    var c := FirstFree(s, s.region[i], 0);
    ToScan(s, i, k, j);
    var s1 := To(s, i, Scanning(k, j, 0));
    SameFree(s, s1, s.region[i], 0);
    Scanned(s1, i, k, j, 0);
    var s2 := To(s1, i, Loading(k, j, c));
    LeadsTrans(s, s1, s2);
    Claim(s2, i, k, j, c);
    s' := Claimed(s2, i, k, j, c);
    LeadsTrans(s, s2, s');
    assert s' == Claimed(s, i, k, j, c);
  }

  /** A bucket taken in another region does not matter. */
  lemma {:induction false} OtherRegion(s: State, s': State, r: nat, w: nat, b: nat)
    requires Shaped(s) && Shaped(s') && |s'.bits| == |s.bits| && r < Regions(s) && w <= 8 && RegionOf(b) != r
    requires forall n :: 0 <= n < |s.bits| && n != WordOfBucket(b) ==> s'.bits[n] == s.bits[n]
    ensures FirstFree(s', r, w) == FirstFree(s, r, w)
    decreases 8 - w
  {
    if w < 8 {
      RegionOfWord(b);
      OtherRegion(s, s', r, w + 1, b);
    }
  }

  lemma {:induction false} EightApart(line: nat)
    requires line < 88
    ensures P.LineHash(0, 8, line) == 8 * line
  {
    if line > 0 { EightApart(line - 1); }
  }

  lemma StepOfZero()
    ensures P.Step(0) == 8
  {
  }

  lemma SlotInOrder(h: nat, size: nat, line: nat, offset: nat)
    requires 0 < size && offset < 8
    requires P.LineHash(h, P.Step(h), line) == 8 * line && P.Reduce(8 * line, size) == 8 * line
    ensures P.Probe(h, size, 8 * line + offset) == 8 * line + offset
  {
    P.ProbeFormula(h, size, line, offset);
    assert P.InLine(8 * line, offset) == 8 * line + offset by { P.InLineAt(line, 0, offset); }
  }

  /** With hash 0, slots are probed in order. */
  lemma InOrder(line: nat, offset: nat)
    requires line < 88 && offset < 8
    ensures P.Probe(0, 2048, 8 * line + offset) == 8 * line + offset
  {
    StepOfZero();
    EightApart(line);
    InTable(line);
    SlotInOrder(0, 2048, line, offset);
  }

  lemma InTable(line: nat)
    requires line < 88
    ensures P.Reduce(8 * line, 2048) == 8 * line
  {
  }

  lemma Size2048()
    ensures P.TableSize(2048)
  {
    Size512();
    assert P.IsPow2(1024);
  }

  const ZERO_HASH: Key -> nat := k => 0

  /** Walk of a table of 2048 buckets for keys of hash 0. */
  ghost function ZeroWalk(): (walk: (Key, nat) -> nat)
    ensures forall k, j: nat {:trigger walk(k, j)} :: walk(k, j) < 2048 && (j < 704 ==> walk(k, j) == j)
  {
    Size2048();
    var walk := U.WalkFor(2048, ZERO_HASH);
    forall j: nat | j < 704 ensures P.Probe(0, 2048, j) == j { InOrder(j / 8, j % 8); }
    walk
  }

  ghost predicate CrowdedSlotting(t: Slotting) {
    && t.size == |t.table| == |t.data| == 2048 && (forall k: Key :: t.tag(k) == 0)
    && (forall k, j: nat {:trigger t.walk(k, j)} :: t.walk(k, j) < 2048 && (j < 704 ==> t.walk(k, j) == j))
    && (forall n {:trigger t.table[n]} :: 0 <= n < 2048 ==> t.table[n] == if n < 703 then n + 2 else 0)
    && (forall d {:trigger t.data[d]} :: 0 <= d < 2048 ==>
         t.data[d] == if 2 <= d < 705 then Key(d, 1) else Key(0, 0))
    && (forall d: nat {:trigger d in t.pos} :: d in t.pos <==> 2 <= d < 705)
    && (forall d: nat {:trigger t.pos[d]} :: d in t.pos ==> t.pos[d] == d - 2)
  }

  /** 703 keys of hash 0 fill all but one of the slots that a lookup for one more may probe: a
      table of that size starts with a limit of 88 lines.  Two threads have regions of their own. */
  ghost predicate Crowded(s: State) {
    && CrowdedSlotting(s.slots) && s.threshold == 88
    && |s.bits| == 32 && (forall c: nat {:trigger InUse(s, c)} :: InUse(s, c) <==> c < 705)
    && s.claimed == {0, 1, 2, 3} && s.region == [2, 3] && s.threads == [Idle, Idle]
    && s.answers == {} && s.dropped == {} && !s.strayed
  }

  lemma CrowdedBits(bits: seq<set<nat>>, c: nat)
    requires |bits| == 32
    requires forall w {:trigger bits[w]} :: 0 <= w < 32 ==>
      bits[w] == if w < 11 then Below(64) else if w == 11 then {0} else {}
    ensures (c / 64 < 32 && c % 64 in bits[c / 64]) <==> c < 705
  {
    if c / 64 == 11 && c % 64 == 0 { BitPosition(c, 704); }
  }

  lemma SomeSlotting() returns (t: Slotting)
    ensures CrowdedSlotting(t)
  {
    var table := seq(2048, n => if n < 703 then n + 2 else 0);
    var data := seq(2048, d => if 2 <= d < 705 then Key(d, 1) else Key(0, 0));
    var pos := map d | d in Below(705) && 2 <= d :: d - 2;
    t := Slotting(2048, ZeroWalk(), k => 0, table, data, pos);
  }

  lemma SomeCrowded() returns (s: State)
    ensures Crowded(s)
  {
    var bits := seq(32, w => if w < 11 then Below(64) else if w == 11 then {0} else {});
    var t := SomeSlotting();
    s := State(t, 88, bits, {0, 1, 2, 3}, [2, 3], [Idle, Idle], {}, {}, false);
    forall c: nat ensures InUse(s, c) <==> c < 705 { CrowdedBits(bits, c); }
  }

  lemma CrowdedSlots(s: State)
    requires Crowded(s)
    ensures s.slots.Ok()
  {
    var t := s.slots;
    assert t.Shape();
    forall d | d in t.pos ensures t.IndexOk(d) {}
    forall n | 0 <= n < 2048 ensures t.SlotOk(n) {}
  }

  lemma CrowdedStarts(s: State)
    requires Crowded(s)
    ensures Start(s) && SafeStart(s) && Accounted(s)
  {
    CrowdedSlots(s);
    forall d, d' | d in s.slots.pos && d' in s.slots.pos && 2 <= d && 2 <= d' ensures SameKey(s, d, d') {}
    forall i | 0 <= i < 2 ensures SafeAt(s, i) { assert Sole(s, i); }
  }

  lemma CrowdedFree(s: State, r: nat)
    requires Crowded(s) && Shaped(s) && 2 <= r < 4
    ensures FirstFree(s, r, 0) >= 0
  {
    FreeFacts(s, r, 0);
    FreeOrFull(s, r);
    assert RegionOf(512 * r) == r && !InUse(s, 512 * r);
  }

  /** A run, from a safe start, that leaks a bucket. */
  lemma SomeLeak() returns (s0: State, s: State, c: nat)
    ensures Start(s0) && SafeStart(s0) && Accounted(s0) && Leads(s0, s) && !s.strayed && Leaked(s, c)
  {
    s0 := SomeCrowded();
    CrowdedStarts(s0);
    CrowdedFree(s0, 2);
    CrowdedFree(s0, 3);
    s, c := LastSlotLeaks(s0, 0, 1, Key(1000, 1), Key(1001, 1), 703);
  }
}
