/** Lookups in the unique table under arbitrary interleaving, one shared-memory access at a
    time.  Buckets come from a bitmap of 64-bit words that threads update without atomic
    instructions.  That is safe when each thread allocates in a region of eight words of its
    own (AnswersUnique, WordsApart); TableRaces.dfy shows when it is not. */
module ConcurrentTables {
  import opened Words
  import opened Slots

  /** Where a lookup of key k is.  It has passed j probes; bucket is the data bucket it has
      claimed, 0 if none. */
  datatype Phase =
    | Idle
    | Probing(k: Key, j: nat, bucket: nat)                       // to read the j-th slot
    | Scanning(k: Key, j: nat, w: nat)                           // the slot was empty: to read a word of the region
    | Loading(k: Key, j: nat, bucket: nat)                       // free bit found: to load its word for the update
    | Storing(k: Key, j: nat, bucket: nat, word: set<nat>)       // to store the updated word
    | WritingA(k: Key, j: nat, bucket: nat)
    | WritingB(k: Key, j: nat, bucket: nat)
    | Swapping(k: Key, j: nat, bucket: nat)                      // to compare-and-swap the slot
    | Rereading(k: Key, j: nat, bucket: nat)                     // the swap failed
    | ComparingA(k: Key, j: nat, bucket: nat, d: nat)
    | ComparingB(k: Key, j: nat, bucket: nat, d: nat)
    | Releasing(k: Key, bucket: nat, d: nat)                     // found: to load the word of the unused bucket
    | Clearing(k: Key, bucket: nat, d: nat, word: set<nat>)      // to store it without the bit

  /** bits: which buckets of each 64-bit word are in use; claimed: the regions taken; region:
      the region each thread allocates in, -1 if none; threshold: lines a lookup may probe.
      For the proof: the (key, index) pairs answered so far, the buckets claimed by lookups
      that gave up, and whether a claim failed for a thread without a region. */
  datatype State = State(slots: Slotting, threshold: nat, bits: seq<set<nat>>, claimed: set<nat>, region: seq<int>,
                         threads: seq<Phase>, answers: set<(Key, nat)>, dropped: set<nat>, strayed: bool)

  datatype Step =
    | Begin(i: nat, key: Key)
    | Advance(i: nat)

  function WordOfBucket(c: nat): nat { c / 64 }

  function RegionOf(c: nat): nat { c / 512 }

  /** Number of regions. */
  function Regions(s: State): nat { |s.bits| / 8 }

  predicate InUse(s: State, c: nat) {
    WordOfBucket(c) < |s.bits| && c % 64 in s.bits[WordOfBucket(c)]
  }

  predicate Shaped(s: State) {
    && |s.region| == |s.threads| && |s.bits| * 64 == s.slots.size && |s.slots.table| == |s.slots.data| == s.slots.size
    && |s.bits| == 8 * Regions(s) && 0 < Regions(s)
    && forall i :: 0 <= i < |s.region| ==> -1 <= s.region[i] < Regions(s)
  }

  function Slot(s: State, k: Key, j: nat): nat { s.slots.walk(k, j) }

  /** The memory the next step of a lookup touches lies inside the arrays. */
  predicate InBounds(s: State, p: Phase) {
    match p
    case Idle => false
    case Probing(k, j, _) => Slot(s, k, j) < s.slots.size
    case Scanning(_, _, w) => w <= 8
    case Loading(_, _, c) => c < s.slots.size
    case Storing(_, _, c, _) => c < s.slots.size
    case WritingA(_, _, c) => c < s.slots.size
    case WritingB(_, _, c) => c < s.slots.size
    case Swapping(k, j, c) => Slot(s, k, j) < s.slots.size && c < s.slots.size
    case Rereading(k, j, _) => Slot(s, k, j) < s.slots.size
    case ComparingA(_, _, _, d) => d < s.slots.size
    case ComparingB(_, _, _, d) => d < s.slots.size
    case Releasing(_, c, _) => c < s.slots.size
    case Clearing(_, c, _, _) => c < s.slots.size
  }

  predicate Enabled(s: State, x: Step) {
    && Shaped(s) && x.i < |s.threads|
    && match x
       case Begin(i, k) => s.threads[i].Idle? && k != Key(0, 0)
       case Advance(i) => InBounds(s, s.threads[i])
  }

  function To(s: State, i: nat, p: Phase): State
    requires i < |s.threads|
  {
    s.(threads := s.threads[i := p])
  }

  /** What a lookup does with a non-empty slot word v: compare the keys if the hash bits agree. */
  function Inspect(s: State, k: Key, j: nat, bucket: nat, v: nat): Phase {
    if v - v % W40 == s.slots.tag(k) then ComparingA(k, j, bucket, v % W40) else Probing(k, j + 1, bucket)
  }

  function Answer(s: State, i: nat, k: Key, d: nat): State
    requires i < |s.threads|
  {
    To(s, i, Idle).(answers := s.answers + {(k, d)})
  }

  // ---- claiming a bucket ----

  /** First clear bit of a word from position b on, 64 if there is none. */
  function FirstClear(word: set<nat>, b: nat): (f: nat)
    requires b <= 64
    ensures b <= f <= 64 && (f < 64 ==> f !in word)
    ensures forall x :: b <= x < f ==> x in word
    decreases 64 - b
  {
    if b == 64 || b !in word then b else FirstClear(word, b + 1)
  }

  /** Where a thread ends that moves round the ring of n regions from region `from` to the next
      unclaimed one, giving up after `count` regions.  Claimed regions stay claimed and a
      thread's region is its own variable, so the walk is one step: the claim, or its end. */
  function Round(claimed: set<nat>, n: nat, from: int, count: nat): (int, bool)
    requires 0 < n && -1 <= from < n
    decreases count
  {
    if count == 0 then (from, false)
    else
      var next := if from + 1 >= n then 0 else from + 1;
      if next !in claimed then (next, true) else Round(claimed, n, next, count - 1)
  }

  /** The region after a failed claim: a whole turn leads back, or from nowhere to the last region. */
  lemma {:induction false} RoundEnds(claimed: set<nat>, n: nat, from: int, count: nat)
    requires 0 < n && -1 <= from < n && count <= n
    ensures var (at, found) := Round(claimed, n, from, count);
            && (found ==> 0 <= at < n && at !in claimed)
            && (!found ==> at == if from + count < n then from + count else from + count - n)
            && (!found ==> forall r :: from < r <= from + count && r < n ==> r in claimed)
            && (!found ==> forall r :: 0 <= r <= from + count - n ==> r in claimed)
    decreases count
  {
    if count > 0 {
      var next := if from + 1 >= n then 0 else from + 1;
      if next in claimed { RoundEnds(claimed, n, next, count - 1); }
    }
  }

  /** A claim fails exactly when every region is claimed. */
  lemma RoundFails(claimed: set<nat>, n: nat, from: int)
    requires 0 < n && -1 <= from < n
    ensures var (at, found) := Round(claimed, n, from, n);
            && (found ==> 0 <= at < n && at !in claimed)
            && (!found ==> at == (if from == -1 then n - 1 else from) && forall r :: 0 <= r < n ==> r in claimed)
  {
    RoundEnds(claimed, n, from, n);
  }

  /** The region has no free word left: the thread moves to the next one, or the lookup fails. */
  function Move(s: State, i: nat, k: Key, j: nat): State
    requires Shaped(s) && i < |s.threads|
  {
    var from := s.region[i];
    var (at, found) := Round(s.claimed, Regions(s), from, Regions(s));
    if found && 0 <= at then To(s, i, Scanning(k, j, 0)).(claimed := s.claimed + {at}, region := s.region[i := at])
    else To(s, i, Idle).(region := s.region[i := at], strayed := s.strayed || from == -1)
  }

  /** Reads one word of the region: on to the first clear bit, or to the next word. */
  function Scan(s: State, i: nat, k: Key, j: nat, w: nat): State
    requires Shaped(s) && i < |s.threads| && 0 <= s.region[i] && w < 8
  {
    var word := 8 * s.region[i] + w;
    var b := FirstClear(s.bits[word], 0);
    To(s, i, if b < 64 then Loading(k, j, 64 * word + b) else Scanning(k, j, w + 1))
  }

  // ---- steps ----

  /** A lookup that has probed all the lines it may gives up, keeping the bucket it has claimed. */
  function GiveUp(s: State, i: nat, c: nat): State
    requires i < |s.threads|
  {
    To(s, i, Idle).(dropped := if c == 0 then s.dropped else s.dropped + {c})
  }

  function Probe(s: State, i: nat, k: Key, j: nat, c: nat): State
    requires i < |s.threads| && Slot(s, k, j) < |s.slots.table|
  {
    var v := s.slots.table[Slot(s, k, j)];
    if j >= 8 * s.threshold then GiveUp(s, i, c)
    else To(s, i, if v != 0 then Inspect(s, k, j, c, v) else if c == 0 then Scanning(k, j, 0) else Swapping(k, j, c))
  }

  function Swap(s: State, i: nat, k: Key, j: nat, c: nat): State
    requires i < |s.threads| && Slot(s, k, j) < |s.slots.table|
  {
    var slot := Slot(s, k, j);
    if s.slots.table[slot] == 0
    then Answer(s, i, k, c).(
      slots := s.slots.(table := s.slots.table[slot := s.slots.tag(k) + c], pos := s.slots.pos[c := j]))
    else To(s, i, Rereading(k, j, c))
  }

  function Apply(s: State, x: Step): State
    requires Enabled(s, x)
  {
    match x
    case Begin(i, k) => To(s, i, Probing(k, 0, 0))
    case Advance(i) =>
      match s.threads[i]
      case Idle => s
      case Probing(k, j, c) => Probe(s, i, k, j, c)
      case Scanning(k, j, w) => if s.region[i] == -1 || w == 8 then Move(s, i, k, j) else Scan(s, i, k, j, w)
      case Loading(k, j, c) => To(s, i, Storing(k, j, c, s.bits[WordOfBucket(c)]))
      case Storing(k, j, c, word) => To(s, i, WritingA(k, j, c)).(bits := s.bits[WordOfBucket(c) := word + {c % 64}])
      case WritingA(k, j, c) =>
        To(s, i, WritingB(k, j, c)).(slots := s.slots.(data := s.slots.data[c := Key(k.a, s.slots.data[c].b)]))
      case WritingB(k, j, c) =>
        To(s, i, Swapping(k, j, c)).(slots := s.slots.(data := s.slots.data[c := Key(s.slots.data[c].a, k.b)]))
      case Swapping(k, j, c) => Swap(s, i, k, j, c)
      case Rereading(k, j, c) => To(s, i, Inspect(s, k, j, c, s.slots.table[Slot(s, k, j)]))
      case ComparingA(k, j, c, d) =>
        To(s, i, if s.slots.data[d].a == k.a then ComparingB(k, j, c, d) else Probing(k, j + 1, c))
      case ComparingB(k, j, c, d) =>
        if s.slots.data[d].b != k.b then To(s, i, Probing(k, j + 1, c))
        else if c != 0 then To(s, i, Releasing(k, c, d)) else Answer(s, i, k, d)
      case Releasing(k, c, d) => To(s, i, Clearing(k, c, d, s.bits[WordOfBucket(c)]))
      case Clearing(k, c, d, word) => Answer(s, i, k, d).(bits := s.bits[WordOfBucket(c) := word - {c % 64}])
  }

  /** The steps lead from s to s'. */
  ghost predicate Runs(s: State, acts: seq<Step>, s': State)
    decreases |acts|
  {
    if acts == [] then s == s' else Enabled(s, acts[0]) && Runs(Apply(s, acts[0]), acts[1..], s')
  }

  // ---- the invariant ----

  /** The m-th probe for k meets a filled slot of another key. */
  ghost predicate MissAt(s: State, k: Key, m: nat)
    requires s.slots.Ok()
  {
    s.slots.SlotOk(Slot(s, k, m)) && s.slots.table[Slot(s, k, m)] != 0
    && s.slots.data[s.slots.table[Slot(s, k, m)] % W40] != k
  }

  ghost predicate Missed(s: State, k: Key, j: nat)
    requires s.slots.Ok()
  {
    forall m: nat {:trigger MissAt(s, k, m)} :: m < j ==> MissAt(s, k, m)
  }

  /** Bucket the lookup has claimed or is claiming, 0 if none. */
  function Bucket(p: Phase): nat {
    match p
    case Idle => 0
    case Scanning(_, _, _) => 0
    case Probing(_, _, c) => c
    case Loading(_, _, c) => c
    case Storing(_, _, c, _) => c
    case WritingA(_, _, c) => c
    case WritingB(_, _, c) => c
    case Swapping(_, _, c) => c
    case Rereading(_, _, c) => c
    case ComparingA(_, _, c, _) => c
    case ComparingB(_, _, c, _) => c
    case Releasing(_, c, _) => c
    case Clearing(_, c, _, _) => c
  }

  /** The bucket belongs to the thread's region, and no slot refers to it. */
  ghost predicate Holds(s: State, i: nat, c: nat)
    requires Shaped(s) && i < |s.threads|
  {
    2 <= c < s.slots.size && c !in s.slots.pos && c !in s.dropped && s.region[i] == RegionOf(c)
  }

  ghost predicate Owns(s: State, i: nat, k: Key, c: nat)
    requires Shaped(s) && i < |s.threads|
  {
    c != 0 ==> Holds(s, i, c) && InUse(s, c) && s.slots.data[c] == k
  }

  ghost predicate Published(s: State, d: nat)
    requires Shaped(s)
  {
    2 <= d < s.slots.size && d in s.slots.pos
  }

  /** The j-th slot for k holds the index d. */
  ghost predicate Met(s: State, k: Key, j: nat, d: nat)
    requires s.slots.Ok()
  {
    && s.slots.table[Slot(s, k, j)] != 0 && s.slots.table[Slot(s, k, j)] % W40 == d
    && d < s.slots.size && d in s.slots.pos
  }

  ghost predicate PhaseOk(s: State, i: nat, p: Phase)
    requires Shaped(s) && s.slots.Ok() && i < |s.threads|
  {
    match p
    case Idle => true
    case Probing(k, j, c) => k != Key(0, 0) && Missed(s, k, j) && Owns(s, i, k, c)
    case Scanning(k, j, w) => k != Key(0, 0) && Missed(s, k, j) && w <= 8
    case Loading(k, j, c) => k != Key(0, 0) && Missed(s, k, j) && Holds(s, i, c) && !InUse(s, c)
    case Storing(k, j, c, word) =>
      && k != Key(0, 0) && Missed(s, k, j) && Holds(s, i, c) && !InUse(s, c)
      && WordOfBucket(c) < |s.bits| && word == s.bits[WordOfBucket(c)]
    case WritingA(k, j, c) => k != Key(0, 0) && Missed(s, k, j) && Holds(s, i, c) && InUse(s, c)
    case WritingB(k, j, c) =>
      k != Key(0, 0) && Missed(s, k, j) && Holds(s, i, c) && InUse(s, c) && s.slots.data[c].a == k.a
    case Swapping(k, j, c) => k != Key(0, 0) && Missed(s, k, j) && c != 0 && Owns(s, i, k, c)
    case Rereading(k, j, c) =>
      k != Key(0, 0) && Missed(s, k, j) && Owns(s, i, k, c) && s.slots.table[Slot(s, k, j)] != 0
    case ComparingA(k, j, c, d) => k != Key(0, 0) && Missed(s, k, j) && Owns(s, i, k, c) && Met(s, k, j, d)
    case ComparingB(k, j, c, d) =>
      k != Key(0, 0) && Missed(s, k, j) && Owns(s, i, k, c) && Met(s, k, j, d) && s.slots.data[d].a == k.a
    case Releasing(k, c, d) => c != 0 && Owns(s, i, k, c) && Published(s, d) && s.slots.data[d] == k
    case Clearing(k, c, d, word) =>
      && c != 0 && Owns(s, i, k, c) && Published(s, d) && s.slots.data[d] == k
      && word == s.bits[WordOfBucket(c)]
  }

  ghost predicate ThreadOk(s: State, i: nat)
    requires Shaped(s) && s.slots.Ok() && i < |s.threads|
  {
    PhaseOk(s, i, s.threads[i])
  }

  /** No lookup has the bucket. */
  ghost predicate Unheld(s: State, c: nat) {
    c == 0 || forall m :: 0 <= m < |s.threads| ==> Bucket(s.threads[m]) != c
  }

  /** The bucket is in use for ever. */
  ghost predicate Settled(s: State, c: nat) { InUse(s, c) && Unheld(s, c) }

  /** The region has no bucket left, now or later. */
  ghost predicate Dead(s: State, r: int) {
    forall c {:trigger Settled(s, c)} :: RegionOf(c) == r ==> Settled(s, c)
  }

  /** No other thread allocates in the region of thread i, and none can come to. */
  ghost predicate Sole(s: State, i: nat)
    requires |s.region| == |s.threads| && i < |s.threads|
  {
    && (s.region[i] in s.claimed || |s.threads| == 1)
    && forall m :: 0 <= m < |s.region| && m != i ==> s.region[m] != s.region[i]
  }

  ghost predicate RegionOk(s: State, i: nat)
    requires |s.region| == |s.threads| && i < |s.threads|
  {
    s.region[i] == -1 || Dead(s, s.region[i]) || Sole(s, i)
  }

  ghost predicate RegionsOk(s: State)
    requires Shaped(s)
  {
    forall i {:trigger RegionOk(s, i)} :: 0 <= i < |s.threads| ==> RegionOk(s, i)
  }

  /** Buckets that slots refer to, and the two reserved ones, are in use. */
  ghost predicate BitsOk(s: State)
    requires Shaped(s)
  {
    InUse(s, 0) && InUse(s, 1) && forall c {:trigger InUse(s, c)} :: c in s.slots.pos ==> InUse(s, c)
  }

  ghost predicate SameKey(s: State, d: nat, d': nat)
    requires s.slots.Ok() && d in s.slots.pos && d' in s.slots.pos
  {
    d != d' ==> s.slots.data[d] != s.slots.data[d']
  }

  /** A key is stored under one index; the reserved indices hold no node. */
  ghost predicate KeysOk(s: State)
    requires Shaped(s) && s.slots.Ok()
  {
    && (forall d, d' {:trigger SameKey(s, d, d')} ::
          d in s.slots.pos && d' in s.slots.pos && 2 <= d && 2 <= d' ==> SameKey(s, d, d'))
    && (forall d :: d in s.slots.pos && d < 2 ==> s.slots.data[d] == Key(0, 0))
  }

  ghost predicate AnswerOk(s: State, k: Key, d: nat)
    requires Shaped(s)
  {
    Published(s, d) && s.slots.data[d] == k
  }

  ghost predicate DroppedAt(s: State, c: nat) {
    2 <= c && c !in s.slots.pos && Settled(s, c)
  }

  /** Dropped buckets stay in use, and nothing refers to them. */
  ghost predicate DroppedOk(s: State) {
    forall c {:trigger DroppedAt(s, c)} :: c in s.dropped ==> DroppedAt(s, c)
  }

  ghost predicate Inv(s: State) {
    && Shaped(s) && s.slots.Ok() && RegionsOk(s) && BitsOk(s) && KeysOk(s) && DroppedOk(s)
    && (forall i {:trigger ThreadOk(s, i)} :: 0 <= i < |s.threads| ==> ThreadOk(s, i))
    && (forall k, d {:trigger AnswerOk(s, k, d)} :: (k, d) in s.answers ==> AnswerOk(s, k, d))
  }

  // ---- buckets ----

  lemma BucketHeld(s: State, i: nat, p: Phase)
    requires Shaped(s) && s.slots.Ok() && i < |s.threads| && PhaseOk(s, i, p) && Bucket(p) != 0
    ensures Holds(s, i, Bucket(p))
  {
  }

  lemma DifferentWords(c: nat, c': nat)
    requires RegionOf(c) != RegionOf(c')
    ensures WordOfBucket(c) != WordOfBucket(c') && c != c'
  {
    RegionOfWord(c);
    RegionOfWord(c');
  }

  lemma RegionOfWord(c: nat)
    ensures RegionOf(c) == WordOfBucket(c) / 8
  {
  }

  lemma BitPosition(c: nat, c': nat)
    requires WordOfBucket(c) == WordOfBucket(c') && c % 64 == c' % 64
    ensures c == c'
  {
  }

  /** A thread with a bucket is alone in its region. */
  lemma HolderSole(s: State, i: nat, c: nat)
    requires Inv(s) && i < |s.threads| && Holds(s, i, c) && (Bucket(s.threads[i]) == c || !InUse(s, c))
    ensures Sole(s, i)
  {
    assert RegionOk(s, i);
    assert !Settled(s, c);
  }

  /** Another thread's bucket lies in another word. */
  lemma OtherBucket(s: State, i: nat, c: nat, m: nat)
    requires Inv(s) && i < |s.threads| && m < |s.threads| && m != i && Bucket(s.threads[m]) != 0
    requires Holds(s, i, c) && (Bucket(s.threads[i]) == c || !InUse(s, c))
    ensures Holds(s, m, Bucket(s.threads[m]))
    ensures WordOfBucket(Bucket(s.threads[m])) != WordOfBucket(c) && Bucket(s.threads[m]) != c
  {
    HolderSole(s, i, c);
    assert ThreadOk(s, m);
    BucketHeld(s, m, s.threads[m]);
    DifferentWords(Bucket(s.threads[m]), c);
  }

  /** Thread i changes its own phase; what it has or takes is not settled before. */
  ghost predicate Turn(s: State, s': State, i: nat)
    requires i < |s.threads|
  {
    && |s'.threads| == |s.threads| && (forall m :: 0 <= m < |s.threads| && m != i ==> s'.threads[m] == s.threads[m])
    && (Bucket(s'.threads[i]) != 0 && Bucket(s'.threads[i]) != Bucket(s.threads[i]) ==>
         !InUse(s, Bucket(s'.threads[i])))
    && forall c {:trigger InUse(s', c)} :: InUse(s, c) && (c == 0 || c != Bucket(s.threads[i])) ==> InUse(s', c)
  }

  lemma SettledKept(s: State, s': State, i: nat, c: nat)
    requires i < |s.threads| && Turn(s, s', i) && Settled(s, c)
    ensures Settled(s', c)
  {
    if c != 0 {
      assert Bucket(s.threads[i]) != c;
      forall m | 0 <= m < |s'.threads| ensures Bucket(s'.threads[m]) != c {
        if m != i { assert s'.threads[m] == s.threads[m]; }
      }
    }
  }

  /** Regions stay dead or sole while a thread works on its own bucket. */
  lemma RegionsKept(s: State, s': State, i: nat)
    requires Shaped(s) && Shaped(s') && RegionsOk(s) && i < |s.threads| && Turn(s, s', i)
    requires s'.region == s.region && s.claimed <= s'.claimed
    ensures RegionsOk(s')
  {
    forall m | 0 <= m < |s'.threads| ensures RegionOk(s', m) {
      assert RegionOk(s, m);
      DeadKept(s, s', i, s.region[m]);
    }
  }

  lemma DeadKept(s: State, s': State, i: nat, r: int)
    requires i < |s.threads| && Turn(s, s', i)
    ensures Dead(s, r) ==> Dead(s', r)
  {
    if Dead(s, r) {
      forall c: nat | RegionOf(c) == r ensures Settled(s', c) { SettledKept(s, s', i, c); }
    }
  }

  lemma DroppedKept(s: State, s': State, i: nat)
    requires DroppedOk(s) && i < |s.threads| && Turn(s, s', i) && s'.dropped == s.dropped
    requires forall c :: c in s'.slots.pos ==> c in s.slots.pos || c !in s.dropped
    ensures DroppedOk(s')
  {
    forall c | c in s'.dropped ensures DroppedAt(s', c) {
      assert DroppedAt(s, c);
      SettledKept(s, s', i, c);
    }
  }

  // ---- steps that change a thread only ----

  /** Memory is the same; answers may be added. */
  ghost predicate SameMemory(s: State, s': State) {
    && s'.slots == s.slots && s'.bits == s.bits && s'.claimed == s.claimed && s'.region == s.region
    && s'.threshold == s.threshold && |s'.threads| == |s.threads|
  }

  lemma SamePhase(s: State, s': State, i: nat, p: Phase)
    requires Shaped(s) && s.slots.Ok() && Shaped(s') && i < |s.threads| == |s'.threads| && PhaseOk(s, i, p)
    requires SameMemory(s, s')
    requires Bucket(p) != 0 && Bucket(p) in s'.dropped ==> Bucket(p) in s.dropped
    ensures PhaseOk(s', i, p)
  {
    forall k: Key, m: nat | MissAt(s, k, m) ensures MissAt(s', k, m) {}
  }

  /** Thread i goes on to a phase that fits, with its bucket, without one, or with a free one. */
  lemma OwnStep(s: State, s': State, i: nat)
    requires Inv(s) && i < |s.threads| && SameMemory(s, s') && Turn(s, s', i) && s'.dropped == s.dropped
    requires PhaseOk(s, i, s'.threads[i])
    requires forall k, d :: (k, d) in s'.answers ==> (k, d) in s.answers || AnswerOk(s, k, d)
    ensures Inv(s')
  {
    RegionsKept(s, s', i);
    DroppedKept(s, s', i);
    KeysKept(s, s');
    forall c | c in s.slots.pos ensures InUse(s', c) { assert InUse(s, c); }
    assert InUse(s, 0) && InUse(s, 1);
    forall m | 0 <= m < |s.threads| ensures ThreadOk(s', m) {
      assert ThreadOk(s, m);
      SamePhase(s, s', m, s'.threads[m]);
    }
  }

  lemma KeysKept(s: State, s': State)
    requires Inv(s) && Shaped(s') && s'.slots == s.slots
    requires forall k, d :: (k, d) in s'.answers ==> (k, d) in s.answers || AnswerOk(s, k, d)
    ensures KeysOk(s') && forall k, d :: (k, d) in s'.answers ==> AnswerOk(s', k, d)
  {
    forall d, d' | d in s.slots.pos && d' in s.slots.pos && 2 <= d && 2 <= d' ensures SameKey(s', d, d') {
      assert SameKey(s, d, d');
    }
    forall k, d | (k, d) in s'.answers ensures AnswerOk(s', k, d) {
      if (k, d) in s.answers { assert AnswerOk(s, k, d); }
    }
  }

  // ---- steps that change memory ----

  /** Slots only fill, stored data stays, more indices may be stored. */
  ghost predicate Grown(s: State, s': State) {
    && Shaped(s) && Shaped(s') && s.slots.Ok() && s'.slots.Ok()
    && s'.slots.size == s.slots.size && s'.slots.walk == s.slots.walk && |s'.threads| == |s.threads|
    && (forall m :: 0 <= m < s.slots.size && s.slots.table[m] != 0 ==> s'.slots.table[m] == s.slots.table[m])
    && (forall d :: d in s.slots.pos ==> d in s'.slots.pos && s'.slots.data[d] == s.slots.data[d])
  }

  lemma MissKept(s: State, s': State, k: Key, m: nat)
    requires Grown(s, s') && MissAt(s, k, m)
    ensures MissAt(s', k, m)
  {
    assert s'.slots.SlotOk(Slot(s, k, m));
  }

  /** The bucket of thread i and its bitmap word are as before. */
  ghost predicate BucketKept(s: State, s': State, i: nat, c: nat)
    requires Shaped(s) && Shaped(s') && i < |s.threads| == |s'.threads|
  {
    && s'.region[i] == s.region[i]
    && (c != 0 && c < s.slots.size && c < s'.slots.size ==>
          && c !in s'.slots.pos && c !in s'.dropped && s'.slots.data[c] == s.slots.data[c]
          && WordOfBucket(c) < |s.bits| && WordOfBucket(c) < |s'.bits|
          && s'.bits[WordOfBucket(c)] == s.bits[WordOfBucket(c)])
  }

  lemma OtherPhase(s: State, s': State, i: nat, p: Phase)
    requires Grown(s, s') && i < |s.threads| && PhaseOk(s, i, p)
    requires Bucket(p) != 0 ==> BucketKept(s, s', i, Bucket(p))
    ensures PhaseOk(s', i, p)
  {
    forall k: Key, m: nat | MissAt(s, k, m) ensures MissAt(s', k, m) { MissKept(s, s', k, m); }
  }

  /** The other threads, when thread i changes memory at its own bucket c only. */
  lemma OthersOk(s: State, s': State, i: nat, c: nat)
    requires Inv(s) && Grown(s, s') && i < |s.threads| && Holds(s, i, c) && (Bucket(s.threads[i]) == c || !InUse(s, c))
    requires s'.region == s.region && s'.dropped <= s.dropped + {c} && |s'.bits| == |s.bits|
    requires forall m :: 0 <= m < |s.threads| && m != i ==> s'.threads[m] == s.threads[m]
    requires forall w :: 0 <= w < |s.bits| && w != WordOfBucket(c) ==> s'.bits[w] == s.bits[w]
    requires forall d :: 0 <= d < s.slots.size && d != c ==> s'.slots.data[d] == s.slots.data[d]
    requires forall d :: d in s'.slots.pos ==> d in s.slots.pos || d == c
    ensures forall m :: 0 <= m < |s.threads| && m != i ==> ThreadOk(s', m)
  {
    forall m | 0 <= m < |s.threads| && m != i ensures ThreadOk(s', m) {
      assert ThreadOk(s, m);
      if Bucket(s.threads[m]) != 0 { OtherBucket(s, i, c, m); }
      OtherPhase(s, s', m, s.threads[m]);
    }
  }

  /** Thread i changes the bit of its own bucket c, and its phase. */
  ghost predicate BitStep(s: State, s': State, i: nat, c: nat) {
    && Shaped(s) && Shaped(s') && i < |s.threads| == |s'.threads| && s'.slots == s.slots && s'.region == s.region
    && s'.claimed == s.claimed && s'.dropped == s.dropped && c < s.slots.size && |s'.bits| == |s.bits|
    && Bucket(s.threads[i]) == c && Bucket(s'.threads[i]) in {0, c}
    && (forall w :: 0 <= w < |s.bits| && w != WordOfBucket(c) ==> s'.bits[w] == s.bits[w])
    && (forall b :: b != c % 64 && WordOfBucket(c) < |s.bits| ==>
          (b in s'.bits[WordOfBucket(c)] <==> b in s.bits[WordOfBucket(c)]))
    && (forall m :: 0 <= m < |s.threads| && m != i ==> s'.threads[m] == s.threads[m])
  }

  lemma OtherBit(s: State, s': State, i: nat, c: nat, b: nat)
    requires BitStep(s, s', i, c) && b != c
    ensures InUse(s', b) <==> InUse(s, b)
  {
    if WordOfBucket(b) == WordOfBucket(c) && b % 64 == c % 64 { BitPosition(b, c); }
  }

  lemma BitInv(s: State, s': State, i: nat, c: nat)
    requires Inv(s) && BitStep(s, s', i, c) && Holds(s, i, c) && ThreadOk(s', i)
    requires forall k, d :: (k, d) in s'.answers ==> (k, d) in s.answers || AnswerOk(s, k, d)
    ensures Inv(s')
  {
    OthersOk(s, s', i, c);
    forall b: nat | InUse(s, b) && b != c ensures InUse(s', b) { OtherBit(s, s', i, c, b); }
    assert Turn(s, s', i);
    RegionsKept(s, s', i);
    DroppedKept(s, s', i);
    forall b: nat | b in s.slots.pos || b < 2 ensures InUse(s', b) {
      assert InUse(s, b);
      OtherBit(s, s', i, c, b);
    }
    KeysKept(s, s');
  }

  lemma StoreInv(s: State, i: nat)
    requires Inv(s) && Enabled(s, Advance(i)) && s.threads[i].Storing?
    ensures Inv(Apply(s, Advance(i)))
  {
    assert ThreadOk(s, i);
    var s', p := Apply(s, Advance(i)), s.threads[i];
    forall k: Key, m: nat | MissAt(s, k, m) ensures MissAt(s', k, m) {}
    BitInv(s, s', i, p.bucket);
  }

  lemma ClearInv(s: State, i: nat)
    requires Inv(s) && Enabled(s, Advance(i)) && s.threads[i].Clearing?
    ensures Inv(Apply(s, Advance(i)))
  {
    assert ThreadOk(s, i);
    var s', p := Apply(s, Advance(i)), s.threads[i];
    BitInv(s, s', i, p.bucket);
  }

  lemma MissedKept(s: State, s': State, k: Key, j: nat)
    requires Grown(s, s') && Missed(s, k, j)
    ensures Missed(s', k, j)
  {
    forall m: nat | m < j ensures MissAt(s', k, m) {
      assert MissAt(s, k, m);
      MissKept(s, s', k, m);
    }
  }

  /** Thread i writes a word of its own bucket. */
  lemma WriteInv(s: State, i: nat)
    requires Inv(s) && Enabled(s, Advance(i)) && (s.threads[i].WritingA? || s.threads[i].WritingB?)
    ensures Inv(Apply(s, Advance(i)))
  {
    assert ThreadOk(s, i);
    var s', p := Apply(s, Advance(i)), s.threads[i];
    s.slots.DataFrame(p.bucket, s'.slots.data[p.bucket]);
    assert Grown(s, s');
    MissedKept(s, s', p.k, p.j);
    OthersOk(s, s', i, p.bucket);
    WriteRest(s, s', i, p.bucket);
  }

  lemma WriteRest(s: State, s': State, i: nat, c: nat)
    requires Inv(s) && Grown(s, s') && i < |s.threads| && Holds(s, i, c) && Bucket(s.threads[i]) == c
    requires s'.bits == s.bits && s'.region == s.region && s'.claimed == s.claimed && s'.dropped == s.dropped
    requires s'.answers == s.answers && s'.slots.pos == s.slots.pos && Bucket(s'.threads[i]) == c
    requires forall m :: 0 <= m < |s.threads| && m != i ==> s'.threads[m] == s.threads[m]
    ensures RegionsOk(s') && BitsOk(s') && KeysOk(s') && DroppedOk(s')
    ensures forall k, d :: (k, d) in s'.answers ==> AnswerOk(s', k, d)
  {
    assert Turn(s, s', i);
    RegionsKept(s, s', i);
    DroppedKept(s, s', i);
    forall b | b in s.slots.pos ensures InUse(s', b) { assert InUse(s, b); }
    assert InUse(s, 0) && InUse(s, 1);
    forall d, d' | d in s.slots.pos && d' in s.slots.pos && 2 <= d && 2 <= d' ensures SameKey(s', d, d') {
      assert SameKey(s, d, d');
    }
    forall x, d | (x, d) in s.answers ensures AnswerOk(s', x, d) { assert AnswerOk(s, x, d); }
  }

  /** An index already stored for k would have been met by the first j probes, or fills the
      j-th slot or a later one. */
  lemma NotStored(s: State, k: Key, j: nat, d: nat)
    requires Shaped(s) && s.slots.Ok() && Missed(s, k, j)
    requires s.slots.table[Slot(s, k, j)] == 0 && d in s.slots.pos
    ensures s.slots.data[d] != k
  {
    assert s.slots.IndexOk(d);
    s.slots.WordIndex(d);
    assert s.slots.pos[d] < j ==> MissAt(s, k, s.slots.pos[d]);
  }

  /** The swap succeeds: the bucket becomes an index, for a key that had none. */
  lemma PlaceInv(s: State, i: nat)
    requires Inv(s) && Enabled(s, Advance(i)) && s.threads[i].Swapping?
    requires s.slots.table[Slot(s, s.threads[i].k, s.threads[i].j)] == 0
    ensures Inv(Apply(s, Advance(i)))
  {
    assert ThreadOk(s, i);
    var s', p := Apply(s, Advance(i)), s.threads[i];
    PlaceGrows(s, i);
    PlaceKeys(s, s', p.k, p.j, p.bucket);
    OthersOk(s, s', i, p.bucket);
    PlaceRest(s, s', i, p.bucket);
  }

  lemma PlaceGrows(s: State, i: nat)
    requires Inv(s) && Enabled(s, Advance(i)) && s.threads[i].Swapping?
    requires s.slots.table[Slot(s, s.threads[i].k, s.threads[i].j)] == 0
    ensures Grown(s, Apply(s, Advance(i)))
  {
    assert ThreadOk(s, i);
    var p := s.threads[i];
    var slot := Slot(s, p.k, p.j);
    forall m: nat | m < p.j ensures s.slots.table[s.slots.walk(p.k, m)] != 0 { assert MissAt(s, p.k, m); }
    assert s.slots.FilledBefore(p.k, p.j);
    s.slots.PlaceOk(p.bucket, slot, p.j);
    assert Apply(s, Advance(i)).slots == s.slots.Place(p.bucket, slot, p.j);
  }

  /** The new index has a key that no other index has. */
  lemma PlaceKeys(s: State, s': State, k: Key, j: nat, c: nat)
    requires Shaped(s) && s.slots.Ok() && KeysOk(s) && Missed(s, k, j) && s.slots.table[Slot(s, k, j)] == 0
    requires s'.slots.Ok() && s'.slots.data == s.slots.data && c < |s.slots.data| && s.slots.data[c] == k
    requires s'.slots.size == s.slots.size && forall d :: d in s'.slots.pos <==> d in s.slots.pos || d == c
    ensures forall d, d' :: d in s'.slots.pos && d' in s'.slots.pos && 2 <= d && 2 <= d' ==> SameKey(s', d, d')
  {
    forall d, d' | d in s'.slots.pos && d' in s'.slots.pos && 2 <= d && 2 <= d' ensures SameKey(s', d, d') {
      if d in s.slots.pos && d' in s.slots.pos { assert SameKey(s, d, d'); }
      if d in s.slots.pos { NotStored(s, k, j, d); }
      if d' in s.slots.pos { NotStored(s, k, j, d'); }
    }
  }

  lemma PlaceRest(s: State, s': State, i: nat, c: nat)
    requires Inv(s) && Grown(s, s') && i < |s.threads| && Holds(s, i, c) && InUse(s, c) && s'.bits == s.bits
    requires s'.region == s.region && s'.claimed == s.claimed
    requires s'.slots.data == s.slots.data && s'.dropped == s.dropped
    requires (forall d :: d in s'.slots.pos <==> d in s.slots.pos || d == c) && s'.threads == s.threads[i := Idle]
    requires forall k, d :: (k, d) in s'.answers ==> (k, d) in s.answers || (k, d) == (s.slots.data[c], c)
    ensures RegionsOk(s') && BitsOk(s') && DroppedOk(s')
    ensures forall k, d :: (k, d) in s'.answers ==> AnswerOk(s', k, d)
    ensures forall d :: d in s'.slots.pos && d < 2 ==> s'.slots.data[d] == Key(0, 0)
  {
    assert Turn(s, s', i);
    RegionsKept(s, s', i);
    DroppedKept(s, s', i);
    forall b | b in s'.slots.pos ensures InUse(s', b) { assert InUse(s, b); }
    assert InUse(s, 0) && InUse(s, 1);
    forall k, d | (k, d) in s'.answers ensures AnswerOk(s', k, d) {
      if (k, d) in s.answers { assert AnswerOk(s, k, d); }
    }
  }

  /** A lookup gives up: its bucket stays in use for ever. */
  lemma GiveUpInv(s: State, i: nat, c: nat)
    requires Inv(s) && i < |s.threads| && s.threads[i].Probing? && s.threads[i].bucket == c
    ensures Inv(GiveUp(s, i, c))
  {
    assert ThreadOk(s, i);
    var s' := GiveUp(s, i, c);
    assert Turn(s, s', i);
    RegionsKept(s, s', i);
    forall d | d in s'.dropped ensures DroppedAt(s', d) {
      if d in s.dropped { assert DroppedAt(s, d); SettledKept(s, s', i, d); } else { Unshared(s, i, c); }
    }
    KeysKept(s, s');
    forall b | b in s.slots.pos ensures InUse(s', b) { assert InUse(s, b); }
    assert InUse(s, 0) && InUse(s, 1);
    forall m | 0 <= m < |s.threads| ensures ThreadOk(s', m) {
      assert ThreadOk(s, m);
      if m != i && Bucket(s.threads[m]) != 0 && c != 0 { OtherBucket(s, i, c, m); }
      SamePhase(s, s', m, s'.threads[m]);
    }
  }

  /** The bucket of a lookup is no other one's. */
  lemma Unshared(s: State, i: nat, c: nat)
    requires Inv(s) && i < |s.threads| && Bucket(s.threads[i]) == c != 0
    ensures Holds(s, i, c) && forall m :: 0 <= m < |s.threads| && m != i ==> Bucket(s.threads[m]) != c
  {
    assert ThreadOk(s, i);
    BucketHeld(s, i, s.threads[i]);
    forall m | 0 <= m < |s.threads| && m != i ensures Bucket(s.threads[m]) != c {
      if Bucket(s.threads[m]) != 0 { OtherBucket(s, i, c, m); }
    }
  }

  // ---- regions ----

  /** A thread moves to an unclaimed region: nobody else allocates there. */
  lemma MoveInv(s: State, i: nat, k: Key, j: nat)
    requires Inv(s) && i < |s.threads| && s.threads[i].Scanning? && s.threads[i].k == k && s.threads[i].j == j
    ensures !Move(s, i, k, j).strayed ==> Inv(Move(s, i, k, j))
  {
    var s' := Move(s, i, k, j);
    assert ThreadOk(s, i);
    RoundFails(s.claimed, Regions(s), s.region[i]);
    if !s'.strayed {
      assert Turn(s, s', i);
      MovedRegions(s, s', i);
      DroppedKept(s, s', i);
      KeysKept(s, s');
      forall c | c in s.slots.pos ensures InUse(s', c) { assert InUse(s, c); }
      assert InUse(s, 0) && InUse(s, 1);
      MoveThreads(s, s', i, k, j);
    }
  }

  lemma MoveThreads(s: State, s': State, i: nat, k: Key, j: nat)
    requires Inv(s) && Grown(s, s') && i < |s.threads| && s.threads[i].Scanning?
    requires s.threads[i].k == k && s.threads[i].j == j && s'.threads[i] in {Idle, Scanning(k, j, 0)}
    requires s'.slots == s.slots && s'.bits == s.bits && s'.dropped == s.dropped
    requires forall m :: 0 <= m < |s.threads| && m != i ==>
      s'.threads[m] == s.threads[m] && s'.region[m] == s.region[m]
    ensures forall m :: 0 <= m < |s.threads| ==> ThreadOk(s', m)
  {
    forall m | 0 <= m < |s.threads| ensures ThreadOk(s', m) {
      assert ThreadOk(s, m);
      if m == i { MissedKept(s, s', k, j); } else { OtherPhase(s, s', m, s.threads[m]); }
    }
  }

  /** Where thread i is: where it was, or in a region that was not claimed. */
  lemma MovedRegions(s: State, s': State, i: nat)
    requires Shaped(s) && Shaped(s') && RegionsOk(s) && i < |s.threads| && Turn(s, s', i) && s.claimed <= s'.claimed
    requires s'.region == s.region[i := s'.region[i]]
    requires s'.region[i] == s.region[i] || (s'.region[i] !in s.claimed && s'.region[i] in s'.claimed)
    ensures RegionsOk(s')
  {
    forall m | 0 <= m < |s'.threads| ensures RegionOk(s', m) {
      assert RegionOk(s, m) && RegionOk(s, i);
      DeadKept(s, s', i, s.region[m]);
      if m == i && s'.region[i] != s.region[i] && !Sole(s', i) {
        var o :| 0 <= o < |s.region| && o != i && s'.region[o] == s'.region[i];
        assert RegionOk(s, o);
        DeadKept(s, s', i, s.region[o]);
      }
      if m != i && s'.region[m] == s'.region[i] != s.region[i] {
        assert !Sole(s, m);
      }
    }
  }

  /** A free bucket of the thread's own region. */
  lemma ScanInv(s: State, i: nat)
    requires Inv(s) && Enabled(s, Advance(i)) && s.threads[i].Scanning? && s.region[i] != -1 && s.threads[i].w < 8
    ensures Inv(Apply(s, Advance(i)))
  {
    ScannedInv(s, i, s.threads[i].k, s.threads[i].j, s.threads[i].w);
  }

  lemma ScannedInv(s: State, i: nat, k: Key, j: nat, w: nat)
    requires Inv(s) && i < |s.threads| && s.threads[i] == Scanning(k, j, w) && 0 <= s.region[i] && w < 8
    ensures Inv(Scan(s, i, k, j, w))
  {
    assert ThreadOk(s, i);
    var s' := Scan(s, i, k, j, w);
    if s'.threads[i].Loading? { FreeFound(s, i, w); }
    OwnStep(s, s', i);
  }

  lemma FreeFound(s: State, i: nat, w: nat)
    requires Inv(s) && i < |s.threads| && 0 <= s.region[i] && w < 8
    requires FirstClear(s.bits[8 * s.region[i] + w], 0) < 64
    ensures var c := 64 * (8 * s.region[i] + w) + FirstClear(s.bits[8 * s.region[i] + w], 0);
            Holds(s, i, c) && !InUse(s, c)
  {
    var b := FirstClear(s.bits[8 * s.region[i] + w], 0);
    var c := 64 * (8 * s.region[i] + w) + b;
    BucketParts(s.region[i], w, b);
    assert InUse(s, 0) && InUse(s, 1) && !InUse(s, c);
    assert c in s.dropped ==> DroppedAt(s, c);
  }

  lemma BucketParts(r: nat, w: nat, b: nat)
    requires w < 8 && b < 64
    ensures var c := 64 * (8 * r + w) + b; WordOfBucket(c) == 8 * r + w && c % 64 == b && RegionOf(c) == r
  {
    RegionOfWord(64 * (8 * r + w) + b);
  }

  // ---- steps that only read ----

  /** The word met at the j-th slot: its index is stored; different hash bits mean a different key. */
  lemma SlotFacts(s: State, k: Key, j: nat)
    requires Inv(s) && Missed(s, k, j) && s.slots.table[Slot(s, k, j)] != 0
    ensures var v := s.slots.table[Slot(s, k, j)];
            && Met(s, k, j, v % W40)
            && (v - v % W40 != s.slots.tag(k) ==> s.slots.data[v % W40] != k)
            && (s.slots.data[v % W40] != k ==> Missed(s, k, j + 1))
            && (k != Key(0, 0) && s.slots.data[v % W40] == k ==> Published(s, v % W40))
  {
    var v := s.slots.table[Slot(s, k, j)];
    assert s.slots.SlotOk(Slot(s, k, j));
    assert s.slots.IndexOk(v % W40);
    s.slots.WordIndex(v % W40);
    if s.slots.data[v % W40] != k { assert MissAt(s, k, j); }
  }

  /** The lookup looks at the j-th slot and goes on with what it has read. */
  lemma ReadInv(s: State, i: nat)
    requires Inv(s) && Enabled(s, Advance(i)) && (s.threads[i].Probing? || s.threads[i].Rereading?)
    ensures Inv(Apply(s, Advance(i)))
  {
    assert ThreadOk(s, i);
    var s', p := Apply(s, Advance(i)), s.threads[i];
    if p.Probing? && p.j >= 8 * s.threshold { GiveUpInv(s, i, p.bucket); } else {
      if s.slots.table[Slot(s, p.k, p.j)] != 0 { SlotFacts(s, p.k, p.j); }
      OwnStep(s, s', i);
    }
  }

  lemma CompareInv(s: State, i: nat)
    requires Inv(s) && Enabled(s, Advance(i)) && (s.threads[i].ComparingA? || s.threads[i].ComparingB?)
    ensures Inv(Apply(s, Advance(i)))
  {
    assert ThreadOk(s, i);
    var s', p := Apply(s, Advance(i)), s.threads[i];
    SlotFacts(s, p.k, p.j);
    OwnStep(s, s', i);
  }

  lemma AdvanceInv(s: State, i: nat)
    requires Inv(s) && Enabled(s, Advance(i)) && !Apply(s, Advance(i)).strayed
    ensures Inv(Apply(s, Advance(i)))
  {
    match s.threads[i] {
      case Storing(_, _, _, _) => StoreInv(s, i);
      case Clearing(_, _, _, _) => ClearInv(s, i);
      case WritingA(_, _, _) => WriteInv(s, i);
      case WritingB(_, _, _) => WriteInv(s, i);
      case Probing(_, _, _) => ReadInv(s, i);
      case Rereading(_, _, _) => ReadInv(s, i);
      case ComparingA(_, _, _, _) => CompareInv(s, i);
      case ComparingB(_, _, _, _) => CompareInv(s, i);
      case Scanning(_, _, _) => ScanningInv(s, i);
      case Loading(_, _, _) => LoadInv(s, i);
      case Releasing(_, _, _) => LoadInv(s, i);
      case Swapping(_, _, _) => SwapInv(s, i);
    }
  }

  lemma ScanningInv(s: State, i: nat)
    requires Inv(s) && Enabled(s, Advance(i)) && s.threads[i].Scanning? && !Apply(s, Advance(i)).strayed
    ensures Inv(Apply(s, Advance(i)))
  {
    var p := s.threads[i];
    if s.region[i] == -1 || p.w == 8 { MoveInv(s, i, p.k, p.j); } else { ScanInv(s, i); }
  }

  lemma LoadInv(s: State, i: nat)
    requires Inv(s) && Enabled(s, Advance(i)) && (s.threads[i].Loading? || s.threads[i].Releasing?)
    ensures Inv(Apply(s, Advance(i)))
  {
    assert ThreadOk(s, i);
    OwnStep(s, Apply(s, Advance(i)), i);
  }

  lemma SwapInv(s: State, i: nat)
    requires Inv(s) && Enabled(s, Advance(i)) && s.threads[i].Swapping?
    ensures Inv(Apply(s, Advance(i)))
  {
    assert ThreadOk(s, i);
    if s.slots.table[Slot(s, s.threads[i].k, s.threads[i].j)] == 0 {
      PlaceInv(s, i);
    } else {
      OwnStep(s, Apply(s, Advance(i)), i);
    }
  }

  lemma StepInv(s: State, x: Step)
    requires Inv(s) && Enabled(s, x) && !Apply(s, x).strayed
    ensures Inv(Apply(s, x))
  {
    match x
    case Begin(i, k) => OwnStep(s, Apply(s, x), i);
    case Advance(i) => AdvanceInv(s, i);
  }

  /** No lookup is stuck, and none leaves the arrays. */
  lemma NeverStuck(s: State, i: nat)
    requires Inv(s) && i < |s.threads| && !s.threads[i].Idle?
    ensures Enabled(s, Advance(i))
  {
    assert ThreadOk(s, i);
  }

  // ---- runs ----

  /** Any state of a table between lookups, for example an empty one: what slots refer to is
      in use and keys are distinct.  Regions are arbitrary. */
  ghost predicate Start(s: State) {
    && Shaped(s) && s.slots.Ok() && BitsOk(s) && KeysOk(s) && s.answers == {} && s.dropped == {} && !s.strayed
    && forall i :: 0 <= i < |s.threads| ==> s.threads[i].Idle?
  }

  /** All buckets of the region are in use. */
  ghost predicate FullRegion(s: State, r: int) {
    forall c {:trigger InUse(s, c)} :: RegionOf(c) == r ==> InUse(s, c)
  }

  /** The thread has no region, one with no bucket left, or one of its own. */
  ghost predicate SafeAt(s: State, i: nat)
    requires |s.region| == |s.threads| && i < |s.threads|
  {
    s.region[i] == -1 || FullRegion(s, s.region[i]) || Sole(s, i)
  }

  /** No thread starts in a shared or unclaimed region that has a bucket left. */
  ghost predicate SafeStart(s: State)
    requires |s.region| == |s.threads|
  {
    forall i {:trigger SafeAt(s, i)} :: 0 <= i < |s.threads| ==> SafeAt(s, i)
  }

  lemma StartInv(s: State)
    requires Start(s) && SafeStart(s)
    ensures Inv(s)
  {
    forall c | InUse(s, c) ensures Settled(s, c) {}
    forall i | 0 <= i < |s.threads| ensures ThreadOk(s, i) && RegionOk(s, i) {
      assert s.threads[i].Idle? && SafeAt(s, i);
    }
  }

  lemma {:induction false} StrayedStays(s: State, acts: seq<Step>, s': State)
    requires Runs(s, acts, s') && s.strayed
    ensures s'.strayed
    decreases |acts|
  {
    if acts != [] { StrayedStays(Apply(s, acts[0]), acts[1..], s'); }
  }

  /** From a safe start, the invariant holds after any steps, unless a claim failed for a
      thread without a region. */
  lemma {:induction false} RunInv(s: State, acts: seq<Step>, s': State)
    requires Inv(s) && Runs(s, acts, s') && !s'.strayed
    ensures Inv(s')
    decreases |acts|
  {
    if acts != [] {
      if Apply(s, acts[0]).strayed { StrayedStays(Apply(s, acts[0]), acts[1..], s'); }
      StepInv(s, acts[0]);
      RunInv(Apply(s, acts[0]), acts[1..], s');
    }
  }

  /** Two answers are for the same key exactly when they name the same index. */
  ghost predicate DistinctAnswers(s: State) {
    forall k, d, k', d' :: (k, d) in s.answers && (k', d') in s.answers ==> (k == k' <==> d == d')
  }

  /** Of all answers given in a run, two are for the same key exactly when they name the same
      index; every answered index is at least two and holds its key. */
  lemma AnswersUnique(s0: State, acts: seq<Step>, s: State)
    requires Start(s0) && SafeStart(s0) && Runs(s0, acts, s) && !s.strayed
    ensures DistinctAnswers(s)
    ensures forall k, d :: (k, d) in s.answers ==> 2 <= d < |s.slots.data| && s.slots.data[d] == k
  {
    StartInv(s0);
    RunInv(s0, acts, s);
    forall k, d, k', d' | (k, d) in s.answers && (k', d') in s.answers ensures k == k' <==> d == d' {
      assert AnswerOk(s, k, d) && AnswerOk(s, k', d');
      assert SameKey(s, d, d');
    }
    forall k, d | (k, d) in s.answers ensures 2 <= d < |s.slots.data| && s.slots.data[d] == k {
      assert AnswerOk(s, k, d);
    }
  }

  /** In any state whatever, slots only go from empty to filled, and answers are kept. */
  lemma StepGrows(s: State, x: Step, m: nat)
    requires Enabled(s, x) && m < s.slots.size
    ensures |Apply(s, x).slots.table| == |s.slots.table|
    ensures s.slots.table[m] != 0 ==> Apply(s, x).slots.table[m] == s.slots.table[m]
    ensures s.answers <= Apply(s, x).answers
  {
    if x.Advance? && !s.threads[x.i].Swapping? { SameTable(s, x.i); }
    if x.Advance? { AnswersGrow(s, x.i); }
  }

  /** Only a swap changes a slot. */
  lemma SameTable(s: State, i: nat)
    requires Enabled(s, Advance(i)) && !s.threads[i].Swapping?
    ensures Apply(s, Advance(i)).slots.table == s.slots.table
  {
  }

  lemma AnswersGrow(s: State, i: nat)
    requires Enabled(s, Advance(i))
    ensures s.answers <= Apply(s, Advance(i)).answers
  {
  }

  /** Two threads never update the same bitmap word: their buckets lie in different regions. */
  lemma WordsApart(s0: State, acts: seq<Step>, s: State, i: nat, j: nat)
    requires Start(s0) && SafeStart(s0) && Runs(s0, acts, s) && !s.strayed
    requires i < |s.threads| && j < |s.threads| && i != j
    requires Bucket(s.threads[i]) != 0 && Bucket(s.threads[j]) != 0
    ensures WordOfBucket(Bucket(s.threads[i])) != WordOfBucket(Bucket(s.threads[j]))
  {
    StartInv(s0);
    RunInv(s0, acts, s);
    assert ThreadOk(s, i);
    BucketHeld(s, i, s.threads[i]);
    OtherBucket(s, i, Bucket(s.threads[i]), j);
  }

  // ---- leaks ----

  /** The bucket is in use for nothing: not reserved, no index, in no lookup's hands. */
  ghost predicate Leaked(s: State, c: nat) {
    2 <= c < s.slots.size && InUse(s, c) && c !in s.slots.pos && Unheld(s, c)
  }

  /** Every bucket in use is reserved, an index, in a lookup's hands, or was dropped. */
  ghost predicate Accounted(s: State) {
    forall c: nat {:trigger InUse(s, c)} :: InUse(s, c) && c < s.slots.size ==>
      c < 2 || c in s.slots.pos || c in s.dropped || !Unheld(s, c)
  }

  /** One step: the bucket of the thread that makes it may come to be used, and stays in its
      hands until it is an index, dropped, or free again. */
  lemma StepAccounts(s: State, x: Step)
    requires Inv(s) && Accounted(s) && Enabled(s, x)
    ensures Accounted(Apply(s, x))
  {
    var s' := Apply(s, x);
    OwnAccounts(s, x);
    forall c: nat | InUse(s', c) && c < s'.slots.size && c != Bucket(s.threads[x.i])
      ensures c < 2 || c in s'.slots.pos || c in s'.dropped || !Unheld(s', c)
    {
      OtherAccounts(s, x, c);
    }
  }

  lemma OtherAccounts(s: State, x: Step, c: nat)
    requires Inv(s) && Accounted(s) && Enabled(s, x)
    requires InUse(Apply(s, x), c) && c < s.slots.size && c != Bucket(s.threads[x.i])
    ensures var s' := Apply(s, x); c < 2 || c in s'.slots.pos || c in s'.dropped || !Unheld(s', c)
  {
    var s' := Apply(s, x);
    OtherInUse(s, x, c);
    NothingLost(s, x);
    if !Unheld(s, c) {
      var m :| 0 <= m < |s.threads| && Bucket(s.threads[m]) == c;
      OtherWaits(s, x, m);
    }
  }

  /** Another thread stays where it is. */
  lemma OtherWaits(s: State, x: Step, m: nat)
    requires Enabled(s, x) && m < |s.threads| && m != x.i
    ensures m < |Apply(s, x).threads| && Apply(s, x).threads[m] == s.threads[m]
  {
    if x.Advance? {
      var i, p := x.i, s.threads[x.i];
      if p.Scanning? {
        ScanWaits(s, i, p.k, p.j, p.w, m);
      } else if p.Probing? {
        ProbeWaits(s, i, p.k, p.j, p.bucket, m);
      } else if p.Swapping? {
        SwapWaits(s, i, p.k, p.j, p.bucket, m);
      } else {
        StepWaits(s, i, m);
      }
    }
  }

  lemma ScanWaits(s: State, i: nat, k: Key, j: nat, w: nat, m: nat)
    requires Shaped(s) && i < |s.threads| && m < |s.threads| && m != i && w <= 8
    ensures m < |Move(s, i, k, j).threads| && Move(s, i, k, j).threads[m] == s.threads[m]
    ensures 0 <= s.region[i] && w < 8 ==>
      m < |Scan(s, i, k, j, w).threads| && Scan(s, i, k, j, w).threads[m] == s.threads[m]
  {
  }

  lemma ProbeWaits(s: State, i: nat, k: Key, j: nat, c: nat, m: nat)
    requires i < |s.threads| && m < |s.threads| && m != i && Slot(s, k, j) < |s.slots.table|
    ensures m < |Probe(s, i, k, j, c).threads| && Probe(s, i, k, j, c).threads[m] == s.threads[m]
  {
  }

  lemma SwapWaits(s: State, i: nat, k: Key, j: nat, c: nat, m: nat)
    requires i < |s.threads| && m < |s.threads| && m != i && Slot(s, k, j) < |s.slots.table|
    ensures m < |Swap(s, i, k, j, c).threads| && Swap(s, i, k, j, c).threads[m] == s.threads[m]
  {
  }

  lemma StepWaits(s: State, i: nat, m: nat)
    requires Enabled(s, Advance(i)) && m < |s.threads| && m != i
    requires !s.threads[i].Scanning? && !s.threads[i].Probing? && !s.threads[i].Swapping?
    ensures m < |Apply(s, Advance(i)).threads| && Apply(s, Advance(i)).threads[m] == s.threads[m]
  {
  }

  /** Indices and dropped buckets remain. */
  lemma NothingLost(s: State, x: Step)
    requires Enabled(s, x)
    ensures s.slots.pos.Keys <= Apply(s, x).slots.pos.Keys && s.dropped <= Apply(s, x).dropped
  {
    if x.Advance? && !s.threads[x.i].Swapping? { SameIndices(s, x.i); }
  }

  lemma SameIndices(s: State, i: nat)
    requires Enabled(s, Advance(i)) && !s.threads[i].Swapping?
    ensures Apply(s, Advance(i)).slots.pos == s.slots.pos && s.dropped <= Apply(s, Advance(i)).dropped
  {
  }

  lemma OwnAccounts(s: State, x: Step)
    requires Inv(s) && Enabled(s, x)
    ensures var s', c := Apply(s, x), Bucket(s.threads[x.i]);
            c < 2 || !InUse(s', c) || c in s'.slots.pos || c in s'.dropped || !Unheld(s', c)
  {
    assert ThreadOk(s, x.i);
    var s', c := Apply(s, x), Bucket(s.threads[x.i]);
    if c >= 2 && Bucket(s'.threads[x.i]) == c { assert !Unheld(s', c); }
  }

  lemma OtherInUse(s: State, x: Step, c: nat)
    requires Inv(s) && Enabled(s, x) && InUse(Apply(s, x), c) && c != Bucket(s.threads[x.i])
    ensures InUse(s, c)
  {
    assert ThreadOk(s, x.i);
    var own := Bucket(s.threads[x.i]);
    if WordOfBucket(c) == WordOfBucket(own) && c % 64 == own % 64 { BitPosition(c, own); }
  }

  lemma {:induction false} RunAccounts(s: State, acts: seq<Step>, s': State)
    requires Inv(s) && Accounted(s) && Runs(s, acts, s') && !s'.strayed
    ensures Inv(s') && Accounted(s')
    decreases |acts|
  {
    if acts != [] {
      if Apply(s, acts[0]).strayed { StrayedStays(Apply(s, acts[0]), acts[1..], s'); }
      StepInv(s, acts[0]);
      StepAccounts(s, acts[0]);
      RunAccounts(Apply(s, acts[0]), acts[1..], s');
    }
  }

  /** The step ends a lookup at the probe limit, with bucket c claimed. */
  predicate GivesUp(s: State, x: Step, c: nat) {
    && x.Advance? && x.i < |s.threads| && s.threads[x.i].Probing? && s.threads[x.i].bucket == c != 0
    && s.threads[x.i].j >= 8 * s.threshold
  }

  /** Some lookup of the run reaches the probe limit with bucket c claimed. */
  predicate GaveUp(s: State, acts: seq<Step>, c: nat)
    decreases |acts|
  {
    acts != [] && Enabled(s, acts[0]) && (GivesUp(s, acts[0], c) || GaveUp(Apply(s, acts[0]), acts[1..], c))
  }

  lemma {:induction false} DroppedWhen(s: State, acts: seq<Step>, s': State, c: nat)
    requires Runs(s, acts, s')
    ensures c in s'.dropped <==> c in s.dropped || GaveUp(s, acts, c)
    decreases |acts|
  {
    if acts != [] { DroppedWhen(Apply(s, acts[0]), acts[1..], s', c); }
  }

  /** A bucket leaks if and only if some lookup reaches the probe limit with it claimed. */
  lemma LeaksWhen(s0: State, acts: seq<Step>, s: State, c: nat)
    requires Start(s0) && SafeStart(s0) && Accounted(s0) && Runs(s0, acts, s) && !s.strayed
    ensures Leaked(s, c) <==> GaveUp(s0, acts, c)
  {
    StartInv(s0);
    RunAccounts(s0, acts, s);
    DroppedWhen(s0, acts, s, c);
    if c in s.dropped {
      assert DroppedAt(s, c);
    }
  }
}
