/** One bucket of the operation cache under arbitrary interleaving of readers and writers,
    one memory access at a time, in sequentially consistent memory: a hit returns an entry
    written whole by a single put, unless 65536 puts or more happened during the read. */
module CacheSeqlock {
  import opened Words
  import opened OpCaches

  const LOCK: nat := 0x8000_0000

  /** A get has compared or read `fields` words of the entry after reading status s; a put
      has claimed the bucket when written > 0 and then written written - 1 words; a hit
      answers key and result.  For the
      proof, `start` is the number of puts that had claimed the bucket when the get began. */
  datatype Phase =
    | Idle
    | Getting(key: CacheEntry, s: nat, start: nat, fields: nat, res: nat)
    | Putting(data: CacheEntry, seen: nat, written: nat)
    | Hit(answer: CacheEntry)

  /** puts lists the entries of all puts that have claimed the bucket so far. */
  datatype State = State(status: nat, entry: CacheEntry, threads: seq<Phase>, puts: seq<CacheEntry>)

  datatype Step =
    | StartGet(i: nat, key: CacheEntry)
    | StartPut(i: nat, key: CacheEntry)
    | Advance(i: nat)
    | Reset(i: nat)

  datatype Config = Config(hash: (nat, nat, nat) -> nat) {
    function HashOf(e: CacheEntry): nat { hash(e.a, e.b, e.c) }

    /** Unlocked status word after the given puts. */
    function Word(puts: seq<CacheEntry>): nat {
      if puts == [] then 0 else |puts| % W16 + HashBits(HashOf(puts[|puts| - 1]))
    }

    /** Entry of the last of the given puts; zeroed memory before the first. */
    function Last(puts: seq<CacheEntry>): CacheEntry {
      if puts == [] then CacheEntry(0, 0, 0, 0) else puts[|puts| - 1]
    }

    predicate Enabled(s: State, x: Step) {
      && x.i < |s.threads|
      && match x
         case StartGet(i, _) => s.threads[i].Idle?
         case StartPut(i, _) => s.threads[i].Idle?
         case Advance(i) => s.threads[i].Getting? || s.threads[i].Putting?
         case Reset(i) => s.threads[i].Hit?
    }

    function Field(e: CacheEntry, n: nat): nat {
      if n == 0 then e.a else if n == 1 then e.b else if n == 2 then e.c else e.res
    }

    function SetField(e: CacheEntry, n: nat, v: nat): CacheEntry {
      if n == 0 then e.(a := v) else if n == 1 then e.(b := v) else if n == 2 then e.(c := v) else e.(res := v)
    }

    function To(s: State, i: nat, p: Phase): State
      requires i < |s.threads|
    {
      s.(threads := s.threads[i := p])
    }

    /** A get: three comparisons, the result, and the status again. */
    function AdvanceGet(s: State, i: nat, p: Phase): State
      requires i < |s.threads| && p.Getting?
    {
      if p.fields < 3 then
        if Field(s.entry, p.fields) != Field(p.key, p.fields) then To(s, i, Idle)
          else To(s, i, p.(fields := p.fields + 1))
      else if p.fields == 3 then To(s, i, p.(fields := 4, res := s.entry.res))
      else if s.status == p.s then To(s, i, Hit(p.key.(res := p.res))) else To(s, i, Idle)
    }

    /** A put: compare-and-swap on the status, four writes, and the unlocking write. */
    function AdvancePut(s: State, i: nat, p: Phase): State
      requires i < |s.threads| && p.Putting?
    {
      var unlocked := NextStatus(p.seen, HashOf(p.data));
      if p.written == 0 then
        if s.status != p.seen then To(s, i, Idle)
        else To(s, i, p.(written := 1)).(status := unlocked + LOCK, puts := s.puts + [p.data])
      else if p.written <= 4 then
        To(s, i, p.(written := p.written + 1)).(entry := SetField(s.entry, p.written - 1, Field(p.data, p.written - 1)))
      else To(s, i, Idle).(status := unlocked)
    }

    function Apply(s: State, x: Step): State
      requires Enabled(s, x)
    {
      match x
      case StartGet(i, key) =>
        if LockedOrPaired(s.status) || StatusHash(s.status) != HashBits(HashOf(key)) then s
        else To(s, i, Getting(key, s.status, |s.puts|, 0, 0))
      case StartPut(i, entry) =>
        if Locked(s.status) then s else To(s, i, Putting(entry, s.status, 0))
      case Advance(i) =>
        if s.threads[i].Getting? then AdvanceGet(s, i, s.threads[i]) else AdvancePut(s, i, s.threads[i])
      case Reset(i) => To(s, i, Idle)
    }

    predicate Start(s: State) {
      s.status == 0 && s.entry == CacheEntry(0, 0, 0, 0) && s.puts == [] && forall i :: 0 <= i < |s.threads| ==>
        s.threads[i].Idle?
    }

    // ---- the invariant ----

    predicate Writing(p: Phase) { p.Putting? && 0 < p.written }

    /** The entry when the first n words of e have been written over `before`. */
    function Mixed(before: CacheEntry, e: CacheEntry, n: nat): CacheEntry {
      CacheEntry(if n > 0 then e.a else before.a, if n > 1 then e.b else before.b,
                 if n > 2 then e.c else before.c, if n > 3 then e.res else before.res)
    }

    /** owner is the thread that holds the lock, -1 if none. */
    ghost predicate LockOk(s: State, owner: int) {
      && -1 <= owner < |s.threads|
      && (forall i {:trigger Writing(s.threads[i])} :: 0 <= i < |s.threads| && Writing(s.threads[i]) ==> i == owner)
      && if owner == -1 then s.status == Word(s.puts) && s.entry == Last(s.puts)
         else
           var p := s.threads[owner];
           && Writing(p) && p.written <= 5 && s.puts != [] && Last(s.puts) == p.data
           && s.status == Word(s.puts) + LOCK && NextStatus(p.seen, HashOf(p.data)) == Word(s.puts)
           && s.entry == Mixed(Last(s.puts[..|s.puts| - 1]), p.data, p.written - 1)
    }

    /** What the get has read is the last entry as long as no put has begun since. */
    ghost predicate GetOk(s: State, i: nat)
      requires i < |s.threads|
    {
      var p := s.threads[i];
      && (p.Getting? ==>
            && p.fields <= 4 && p.start <= |s.puts| && p.s == Word(s.puts[..p.start])
            && forall n :: 0 <= n < p.fields && n < 3 ==>
                 (p.start == |s.puts| ==> Field(p.key, n) == Field(Last(s.puts), n)))
      && (p.Getting? && p.start == |s.puts| ==>
           s.status == Word(s.puts) && (p.fields == 4 ==> p.res == Last(s.puts).res))
    }

    ghost predicate Inv(s: State, owner: int) {
      LockOk(s, owner) && forall i {:trigger GetOk(s, i)} :: 0 <= i < |s.threads| ==> GetOk(s, i)
    }

    // ---- status words ----

    lemma WordFields(puts: seq<CacheEntry>)
      ensures Word(puts) < 0x4000_0000 && Word(puts) % W16 == |puts| % W16
      ensures puts != [] ==> StatusHash(Word(puts)) == HashBits(HashOf(Last(puts)))
    {
      if puts != [] {
        var n := HashOf(puts[|puts| - 1]) / 0x1_0000_0000_0000 % 0x4000;
        var c := |puts| % W16;
        assert Word(puts) == n * W16 + c;
        assert (n * W16 + c) % W16 == c && (n * W16 + c) / W16 == n;
      }
    }

    lemma WordNext(puts: seq<CacheEntry>, e: CacheEntry)
      ensures NextStatus(Word(puts), HashOf(e)) == Word(puts + [e])
    {
      WordFields(puts);
      SuccModulo(Word(puts), |puts|);
    }

    lemma SuccModulo(x: nat, n: nat)
      requires x % W16 == n % W16
      ensures (x + 1) % W16 == (n + 1) % W16
    {
    }

    /** The final status test of a get succeeds exactly when the bucket is unlocked and a
        multiple of 65536 puts, the last with the same hash bits, has happened since. */
    lemma FinalTest(s: State, owner: int, i: nat)
      requires Inv(s, owner) && i < |s.threads| && s.threads[i].Getting?
      ensures var p := s.threads[i];
              p.start <= |s.puts| && (s.status == p.s <==>
                owner == -1 && (|s.puts| - p.start) % W16 == 0
                && (p.start > 0 && |s.puts| > 0 ==>
                     HashBits(HashOf(Last(s.puts))) == HashBits(HashOf(Last(s.puts[..p.start]))))
                && (p.start == 0 && |s.puts| > 0 ==> HashBits(HashOf(Last(s.puts))) == 0))
    {
      var p := s.threads[i];
      assert GetOk(s, i);
      WordFields(s.puts);
      WordFields(s.puts[..p.start]);
      ModuloDifference(|s.puts|, p.start);
    }

    lemma ModuloDifference(m: nat, n: nat)
      requires n <= m
      ensures (m - n) % W16 == 0 <==> m % W16 == n % W16
    {
    }

    // ---- one step ----

    /** A thread that neither holds nor takes the lock changes its own state only. */
    lemma OwnStep(s: State, owner: int, i: nat, p: Phase)
      requires Inv(s, owner) && i < |s.threads| && i != owner && !Writing(p) && GetOk(To(s, i, p), i)
      ensures Inv(To(s, i, p), owner)
    {
      var s' := To(s, i, p);
      forall j | 0 <= j < |s.threads| ensures GetOk(s', j) { assert j != i ==> GetOk(s, j); }
      assert forall j :: 0 <= j < |s.threads| && j != i ==> s'.threads[j] == s.threads[j];
    }

    lemma GetInv(s: State, owner: int, i: nat)
      requires Inv(s, owner) && i < |s.threads| && s.threads[i].Getting?
      ensures Inv(AdvanceGet(s, i, s.threads[i]), owner)
    {
      var p := s.threads[i];
      assert GetOk(s, i) && !Writing(p);
      assert i != owner;
      WordFields(s.puts);
      var p' := AdvanceGet(s, i, p).threads[i];
      OwnStep(s, owner, i, p');
    }

    lemma ClaimInv(s: State, owner: int, i: nat)
      requires Inv(s, owner) && i < |s.threads| && s.threads[i].Putting? && s.threads[i].written == 0
      requires s.status == s.threads[i].seen && !Locked(s.status)
      ensures owner == -1 && Inv(AdvancePut(s, i, s.threads[i]), i)
    {
      var p, s' := s.threads[i], AdvancePut(s, i, s.threads[i]);
      WordFields(s.puts);
      WordNext(s.puts, p.data);
      assert s'.puts[..|s.puts|] == s.puts;
      forall j | 0 <= j < |s.threads| ensures GetOk(s', j) {
        assert GetOk(s, j);
        if s.threads[j].Getting? { assert s'.puts[..s.threads[j].start] == s.puts[..s.threads[j].start]; }
      }
      assert forall j :: 0 <= j < |s.threads| && j != i ==> s'.threads[j] == s.threads[j];
    }

    lemma WriteInv(s: State, owner: int, i: nat)
      requires Inv(s, owner) && i < |s.threads| && Writing(s.threads[i])
      ensures owner == i && Inv(AdvancePut(s, i, s.threads[i]), if s.threads[i].written <= 4 then i else -1)
    {
      assert owner == i;
      var p, s' := s.threads[i], AdvancePut(s, i, s.threads[i]);
      WordFields(s.puts);
      forall j | 0 <= j < |s.threads| ensures GetOk(s', j) { assert GetOk(s, j); }
      assert forall j :: 0 <= j < |s.threads| && j != i ==> s'.threads[j] == s.threads[j];
    }

    /** A put claims only with an unlocked status word. */
    ghost predicate PutOk(s: State, i: nat)
      requires i < |s.threads|
    {
      s.threads[i].Putting? && s.threads[i].written == 0 ==> !Locked(s.threads[i].seen)
    }

    ghost predicate PutsOk(s: State) {
      forall i {:trigger PutOk(s, i)} :: 0 <= i < |s.threads| ==> PutOk(s, i)
    }

    lemma PutsInv(s: State, x: Step)
      requires PutsOk(s) && Enabled(s, x)
      ensures PutsOk(Apply(s, x))
    {
      forall j | 0 <= j < |s.threads| ensures PutOk(Apply(s, x), j) { assert PutOk(s, j); }
    }

    lemma StepInv(s: State, owner: int, x: Step) returns (owner': int)
      requires Inv(s, owner) && PutsOk(s) && Enabled(s, x)
      ensures Inv(Apply(s, x), owner') && PutsOk(Apply(s, x))
    {
      PutsInv(s, x);
      WordFields(s.puts);
      assert s.puts[..|s.puts|] == s.puts;
      var i, p := x.i, s.threads[x.i];
      owner' := owner;
      if p.Getting? && x.Advance? {
        GetInv(s, owner, i);
      } else if p.Putting? && x.Advance? {
        if Writing(p) {
          WriteInv(s, owner, i);
          owner' := if p.written <= 4 then i else -1;
        } else if s.status == p.seen {
          assert PutOk(s, i);
          ClaimInv(s, owner, i);
          owner' := i;
        } else {
          OwnStep(s, owner, i, Idle);
        }
      } else {
        OtherInv(s, owner, x);
      }
    }

    lemma OtherInv(s: State, owner: int, x: Step)
      requires Inv(s, owner) && Enabled(s, x) && !x.Advance?
      ensures Inv(Apply(s, x), owner)
    {
      WordFields(s.puts);
      assert s.puts[..|s.puts|] == s.puts;
      if Apply(s, x) != s { OwnStep(s, owner, x.i, Apply(s, x).threads[x.i]); }
    }

    // ---- runs ----

    predicate NextAt(run: seq<State>, acts: seq<Step>, n: nat)
      requires |run| == |acts| + 1 && n < |acts|
    {
      Enabled(run[n], acts[n]) && run[n + 1] == Apply(run[n], acts[n])
    }

    ghost predicate IsRun(run: seq<State>, acts: seq<Step>) {
      && |run| == |acts| + 1 && Start(run[0])
      && forall n {:trigger NextAt(run, acts, n)} :: 0 <= n < |acts| ==> NextAt(run, acts, n)
    }

    lemma {:induction false} RunInv(run: seq<State>, acts: seq<Step>, n: nat) returns (owner: int)
      requires IsRun(run, acts) && n < |run|
      ensures Inv(run[n], owner) && PutsOk(run[n])
    {
      if n == 0 {
        owner := -1;
        forall i | 0 <= i < |run[0].threads| ensures GetOk(run[0], i) && PutOk(run[0], i) {
          assert run[0].threads[i].Idle?;
        }
      } else {
        owner := RunInv(run, acts, n - 1);
        assert NextAt(run, acts, n - 1);
        owner := StepInv(run[n - 1], owner, acts[n - 1]);
      }
    }

    /** Step n is the final status test of thread i, and it succeeds. */
    predicate Hits(run: seq<State>, acts: seq<Step>, n: nat, i: nat) {
      && |run| == |acts| + 1 && n < |acts| && acts[n] == Advance(i) && i < |run[n].threads|
      && run[n].threads[i].Getting?
      && i < |run[n + 1].threads| && run[n + 1].threads[i].Hit?
    }

    /** With fewer than 65536 puts since the first status read, a hit returns the key and the
        result that one put, the last before that read, wrote together; zeroed memory if none had. */
    lemma HitIsWhole(run: seq<State>, acts: seq<Step>, n: nat, i: nat)
      requires IsRun(run, acts) && Hits(run, acts, n, i)
      requires |run[n].puts| - run[n].threads[i].start < 0x1_0000
      ensures var p := run[n].threads[i];
              && p.start == |run[n].puts|
              && Last(run[n].puts) == p.key.(res := p.res)
              && run[n + 1].threads[i] == Hit(Last(run[n].puts))
    {
      var owner := RunInv(run, acts, n);
      var s, p := run[n], run[n].threads[i];
      assert NextAt(run, acts, n) && GetOk(s, i);
      FinalTest(s, owner, i);
      assert |s.puts| - p.start == 0;
      assert Field(p.key, 0) == p.key.a && Field(p.key, 1) == p.key.b && Field(p.key, 2) == p.key.c;
    }
  }
}
