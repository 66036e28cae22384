/** The bound of the operation cache's lock-free reads is sharp: 65536 puts during a read can
    make it answer an entry that no put wrote. */
module CacheTears {
  import opened Words
  import opened Slots
  import opened OpCaches
  import opened CacheSeqlock

  function End(run: seq<State>): State
    requires run != []
  {
    run[|run| - 1]
  }

  /** One more step. */
  lemma Extend(c: Config, run: seq<State>, acts: seq<Step>, x: Step) returns (run': seq<State>, acts': seq<Step>)
    requires c.IsRun(run, acts) && c.Enabled(End(run), x)
    ensures c.IsRun(run', acts') && run <= run' && acts <= acts' && |acts'| == |acts| + 1 && acts'[|acts|] == x
    ensures End(run') == c.Apply(End(run), x)
  {
    run', acts' := run + [c.Apply(End(run), x)], acts + [x];
    forall n | 0 <= n < |acts'| ensures c.NextAt(run', acts', n) {
      if n < |acts| { assert c.NextAt(run, acts, n); }
    }
  }

  /** The bucket is unlocked and holds its last entry; thread 1 is idle. */
  ghost predicate Calm(c: Config, s: State) {
    |s.threads| == 2 && s.threads[1].Idle? && s.status == c.Word(s.puts)
  }

  /** The state when thread 1 has claimed the bucket for e and written `written - 1` words. */
  function Written(c: Config, s: State, e: CacheEntry, written: nat): State
    requires |s.threads| == 2 && 1 <= written
  {
    s.(status := c.Word(s.puts + [e]) + LOCK, puts := s.puts + [e], entry := c.Mixed(s.entry, e, written - 1),
       threads := s.threads[1 := Putting(e, s.status, written)])
  }

  lemma Claims(c: Config, run: seq<State>, acts: seq<Step>, e: CacheEntry)
    returns (run': seq<State>, acts': seq<Step>)
    requires c.IsRun(run, acts) && Calm(c, End(run))
    ensures c.IsRun(run', acts') && run <= run' && acts <= acts' && End(run') == Written(c, End(run), e, 1)
  {
    var s := End(run);
    c.WordFields(s.puts);
    c.WordNext(s.puts, e);
    run', acts' := Extend(c, run, acts, StartPut(1, e));
    run', acts' := Extend(c, run', acts', Advance(1));
  }

  lemma {:induction false} Writes(c: Config, run: seq<State>, acts: seq<Step>, s: State, e: CacheEntry, written: nat)
    returns (run': seq<State>, acts': seq<Step>)
    requires c.IsRun(run, acts) && |s.threads| == 2 && 1 <= written <= 5 && End(run) == Written(c, s, e, written)
    ensures c.IsRun(run', acts') && run <= run' && acts <= acts' && End(run') == Written(c, s, e, 5)
    decreases 5 - written
  {
    run', acts' := run, acts;
    if written < 5 {
      run', acts' := Extend(c, run, acts, Advance(1));
      run', acts' := Writes(c, run', acts', s, e, written + 1);
    }
  }

  /** One whole put. */
  lemma OnePut(c: Config, run: seq<State>, acts: seq<Step>, e: CacheEntry)
    returns (run': seq<State>, acts': seq<Step>)
    requires c.IsRun(run, acts) && Calm(c, End(run))
    ensures c.IsRun(run', acts') && run <= run' && acts <= acts' && Calm(c, End(run'))
    ensures End(run').puts == End(run).puts + [e] && End(run').entry == e
    ensures End(run').threads[0] == End(run).threads[0]
  {
    var s := End(run);
    c.WordNext(s.puts, e);
    run', acts' := Claims(c, run, acts, e);
    run', acts' := Writes(c, run', acts', s, e, 1);
    run', acts' := Extend(c, run', acts', Advance(1));
  }

  lemma {:induction false} Puts(c: Config, run: seq<State>, acts: seq<Step>, e: CacheEntry, m: nat)
    returns (run': seq<State>, acts': seq<Step>)
    requires c.IsRun(run, acts) && Calm(c, End(run)) && m > 0
    ensures c.IsRun(run', acts') && run <= run' && acts <= acts' && Calm(c, End(run'))
    ensures |End(run').puts| == |End(run).puts| + m && c.Last(End(run').puts) == End(run').entry == e
    ensures forall x :: x in End(run').puts ==> x in End(run).puts || x == e
    ensures End(run').threads[0] == End(run).threads[0]
    decreases m
  {
    run', acts' := OnePut(c, run, acts, e);
    if m > 1 { run', acts' := Puts(c, run', acts', e, m - 1); }
  }

  /** A get of the stored key compares the three key words. */
  lemma Compares(c: Config, run: seq<State>, acts: seq<Step>, e: CacheEntry)
    returns (run': seq<State>, acts': seq<Step>)
    requires c.IsRun(run, acts) && Calm(c, End(run)) && End(run).threads[0].Idle?
    requires End(run).puts != [] && c.Last(End(run).puts) == End(run).entry == e
    ensures c.IsRun(run', acts') && run <= run' && acts <= acts' && Calm(c, End(run'))
    ensures End(run') == c.To(End(run), 0, Getting(e, End(run).status, |End(run).puts|, 3, 0))
  {
    c.WordFields(End(run).puts);
    run', acts' := Extend(c, run, acts, StartGet(0, e));
    run', acts' := Extend(c, run', acts', Advance(0));
    run', acts' := Extend(c, run', acts', Advance(0));
    run', acts' := Extend(c, run', acts', Advance(0));
  }

  /** The get reads the result and finds its status word again. */
  lemma Answers(c: Config, run: seq<State>, acts: seq<Step>, e: CacheEntry, e': CacheEntry, start: nat)
    returns (run': seq<State>, acts': seq<Step>, n: nat)
    requires c.IsRun(run, acts) && 0 < |End(run).threads| && End(run).entry == e'
    requires End(run).threads[0] == Getting(e, End(run).status, start, 3, 0)
    ensures c.IsRun(run', acts') && c.Hits(run', acts', n, 0)
    ensures run'[n].threads[0].start == start && run'[n].puts == End(run).puts
    ensures run'[n + 1].threads[0] == Hit(e.(res := e'.res))
  {
    run', acts' := Extend(c, run, acts, Advance(0));
    n := |acts'|;
    var s := End(run');
    run', acts' := Extend(c, run', acts', Advance(0));
    assert run'[n] == s;
  }

  /** Between the comparisons and the result, another entry with the same hash bits is put
      65536 times: the status word is the same again, and the answer has the key of one put and
      the result of another. */
  lemma TornHit(c: Config, e: CacheEntry, e': CacheEntry)
    returns (run: seq<State>, acts: seq<Step>, n: nat)
    requires HashBits(c.HashOf(e)) == HashBits(c.HashOf(e'))
    ensures c.IsRun(run, acts) && c.Hits(run, acts, n, 0)
    ensures |run[n].puts| - run[n].threads[0].start == 0x1_0000
    ensures run[n + 1].threads[0] == Hit(e.(res := e'.res))
    ensures forall x :: x in run[n].puts ==> x == e || x == e'
  {
    var s0 := State(0, CacheEntry(0, 0, 0, 0), [Idle, Idle], []);
    run, acts := Puts(c, [s0], [], e, 1);
    run, acts := Compares(c, run, acts, e);
    var s := End(run);
    run, acts := Puts(c, run, acts, e', 0x1_0000);
    SameWord(c, s.puts, End(run).puts);
    run, acts, n := Answers(c, run, acts, e, e', 1);
  }

  lemma SameWord(c: Config, puts: seq<CacheEntry>, puts': seq<CacheEntry>)
    requires |puts| == 1 && |puts'| == 1 + 0x1_0000
    requires HashBits(c.HashOf(c.Last(puts))) == HashBits(c.HashOf(c.Last(puts')))
    ensures c.Word(puts) == c.Word(puts')
  {
  }

  // ---- any hash function ----

  ghost function Image(f: nat -> nat, n: nat): set<nat> {
    if n == 0 then {} else Image(f, n - 1) + {f(n - 1)}
  }

  lemma {:induction false} ImageBelow(f: nat -> nat, n: nat, bound: nat)
    requires forall z :: f(z) < bound
    ensures Image(f, n) <= Below(bound)
  {
    if n > 0 { ImageBelow(f, n - 1, bound); }
  }

  ghost predicate Apart(f: nat -> nat, n: nat) {
    forall x, y :: 0 <= x < y < n ==> f(x) != f(y)
  }

  lemma {:induction false} NotInImage(f: nat -> nat, n: nat, m: nat, y: nat)
    requires Apart(f, n) && m <= y < n
    ensures f(y) !in Image(f, m)
  {
    if m > 0 { NotInImage(f, n, m - 1, y); }
  }

  lemma {:induction false} ImageSize(f: nat -> nat, n: nat)
    requires Apart(f, n)
    ensures |Image(f, n)| == n
  {
    if n > 0 {
      ImageSize(f, n - 1);
      NotInImage(f, n, n - 1, n - 1);
    }
  }

  /** Among more than `bound` values below `bound` two are equal. */
  lemma TwoAlike(f: nat -> nat, bound: nat) returns (x: nat, y: nat)
    requires forall z :: f(z) < bound
    ensures x < y && f(x) == f(y)
  {
    if Apart(f, bound + 1) {
      ImageSize(f, bound + 1);
      ImageBelow(f, bound + 1, bound);
      SubsetCount(Image(f, bound + 1), Below(bound));
      assert false;
    }
    x, y :| 0 <= x < y < bound + 1 && f(x) == f(y);
  }

  /** Whatever the hash function, some hit after exactly 65536 puts answers an entry that no
      put wrote. */
  lemma SomeTear(c: Config) returns (run: seq<State>, acts: seq<Step>, n: nat)
    ensures c.IsRun(run, acts) && c.Hits(run, acts, n, 0)
    ensures |run[n].puts| - run[n].threads[0].start == 0x1_0000
    ensures run[n + 1].threads[0].answer !in run[n].puts
  {
    var f: nat -> nat := x => c.hash(x, 0, 0) / 0x1_0000_0000_0000 % 0x4000;
    var x, y := TwoAlike(f, 0x4000);
    run, acts, n := TornHit(c, CacheEntry(x, 0, 0, 0), CacheEntry(y, 0, 0, 1));
  }
}
