/** Once nothing is left to do, the token waves of the distributed construction come to an end,
    and only by stopping every process. */
module RingEnds {
  import opened RingTermination
  import opened Slots

  // ---- how many steps are left ----

  /** Processes that have not been told to stop. */
  function Running(s: State): set<nat> {
    set i: nat | i < |s.procs| && !s.procs[i].terminated
  }

  /** Steps left in a quiet system of n processes: n for a stop, n each for the two waves before
      it, and a launch; a wave that began too early has to end first. */
  ghost function StepsLeft(s: State, w: Wave): int {
    var n := |s.procs|;
    match w
    case Stopping(_) => |Running(s)|
    case Second(_, snds, _) => (if FinalCounts(s, w) then n else 3 * n + 1) + n + 1 - |snds|
    case First(recs) => (if FinalCounts(s, w) then 2 * n else 4 * n + 1) + n + 1 - |recs|
    case NoWave => 3 * n + 1
  }

  lemma StepsBounded(s: State, w: Wave)
    requires Inv(s, w)
    ensures 0 <= StepsLeft(s, w) <= 5 * |s.procs| + 1
  {
    SubsetCount(Running(s), Below(|s.procs|));
  }

  lemma LaunchLowers(s: State, w: Wave) returns (w': Wave)
    requires Inv(s, w) && Quiet(s) && Enabled(s, Launch)
    ensures Inv(Apply(s, Launch), w') && StepsLeft(Apply(s, Launch), w') < StepsLeft(s, w)
  {
    QuietStable(s, Launch);
    w' := LaunchInv(s, w);
    assert w.NoWave? && w'.recs <= Recvs(s.procs);
  }

  lemma Prefix(xs: seq<nat>, x: nat, ys: seq<nat>)
    requires |xs| < |ys| && ys[|xs|] == x
    ensures xs + [x] <= ys <==> xs <= ys
  {
    if xs <= ys { assert ys[..|xs| + 1] == xs + [x]; }
    if xs + [x] <= ys { assert ys[..|xs|] == (xs + [x])[..|xs|] == xs; }
  }

  lemma RecLowers(s: State, w: Wave, i: nat, v: nat) returns (w': Wave)
    requires Inv(s, w) && Quiet(s) && Enabled(s, PassRec(i, v))
    ensures Inv(Apply(s, PassRec(i, v)), w')
    ensures StepsLeft(Apply(s, PassRec(i, v)), w') < StepsLeft(s, w)
  {
    QuietStable(s, PassRec(i, v));
    if i != 0 {
      w' := RecMoves(s, w, i, v);
      Prefix(w.recs, s.procs[i].nbrecv, Recvs(s.procs));
    } else {
      w' := RecReturns(s, w, v);
      assert QuietAt(s, 0);
    }
  }

  lemma SndLowers(s: State, w: Wave, i: nat, v: nat) returns (w': Wave)
    requires Inv(s, w) && Quiet(s) && Enabled(s, PassSnd(i, v))
    ensures Inv(Apply(s, PassSnd(i, v)), w')
    ensures StepsLeft(Apply(s, PassSnd(i, v)), w') < StepsLeft(s, w)
  {
    QuietStable(s, PassSnd(i, v));
    if i != 0 {
      w' := SndMoves(s, w, i, v);
      assert QuietAt(s, i);
      Prefix(w.snds, s.procs[i].nbsend, Sends(s.procs));
    } else {
      w' := LastLowers(s, w, v);
    }
  }

  lemma LastLowers(s: State, w: Wave, v: nat) returns (w': Wave)
    requires Inv(s, w) && Quiet(s) && Enabled(s, PassSnd(0, v))
    ensures Inv(Apply(s, PassSnd(0, v)), w')
    ensures StepsLeft(Apply(s, PassSnd(0, v)), w') < StepsLeft(s, w)
  {
    w' := SndReturns(s, w, v);
    SubsetCount(Running(Apply(s, PassSnd(0, v))), Below(|s.procs|));
    if FinalCounts(s, w) { FinalSums(s, w); }
  }

  lemma TermLowers(s: State, w: Wave, i: nat, v: nat)
    requires Inv(s, w) && Quiet(s) && Enabled(s, PassTerm(i, v))
    ensures Inv(Apply(s, PassTerm(i, v)), w) && StepsLeft(Apply(s, PassTerm(i, v)), w) < StepsLeft(s, w)
  {
    PassTermInv(s, w, i, v);
    assert Running(Apply(s, PassTerm(i, v))) == Running(s) - {i};
  }

  /** Every step of a quiet system is one of the waves and lowers the bound. */
  lemma StepLowers(s: State, w: Wave, a: Step) returns (w': Wave)
    requires Inv(s, w) && Quiet(s) && Enabled(s, a)
    ensures Inv(Apply(s, a), w') && Quiet(Apply(s, a)) && StepsLeft(Apply(s, a), w') < StepsLeft(s, w)
  {
    OnlyTokens(s, a);
    QuietStable(s, a);
    match a
    case Launch => w' := LaunchLowers(s, w);
    case PassRec(i, v) => w' := RecLowers(s, w, i, v);
    case PassSnd(i, v) => w' := SndLowers(s, w, i, v);
    case PassTerm(i, v) => TermLowers(s, w, i, v); w' := w;
    case _ => assert false;
  }

  // ---- where the stop is ----

  /** The stop has passed processes 1 to k - 1 and is under way to the next one, or has passed all. */
  ghost predicate StopAt(s: State, k: nat) {
    if k > |s.procs|
    then s.tokens == multiset{} && forall i :: 0 <= i < |s.procs| ==> s.procs[i].terminated
    else
      && 1 <= k && s.tokens == multiset{Token(Term, To(s, k), 0)}
      && forall i :: 0 <= i < |s.procs| ==> (s.procs[i].terminated <==> 0 < i < k)
  }

  ghost predicate StopOk(s: State, w: Wave) {
    w.Stopping? ==> exists k: nat :: StopAt(s, k)
  }

  lemma StopSentAt(s: State, w: Wave, v: nat)
    requires Inv(s, w) && Enabled(s, PassSnd(0, v)) && v == s.total
    ensures StopAt(Apply(s, PassSnd(0, v)), 1)
  {
    assert w.Second?;
    OnlyToken(Token(Snd, 0, v), Token(Snd, To(s, |w.snds|), Sum(w.snds)));
  }

  lemma StopMoves(s: State, k: nat, i: nat, v: nat) returns (k': nat)
    requires Shaped(s) && StopAt(s, k) && Enabled(s, PassTerm(i, v))
    ensures StopAt(Apply(s, PassTerm(i, v)), k')
  {
    OnlyToken(Token(Term, i, v), Token(Term, To(s, k), 0));
    k' := k + 1;
  }

  /** Only process 0, on equal sums, sends a stop, and only the others pass it on. */
  lemma StopInv(s: State, w: Wave, a: Step, w': Wave)
    requires Inv(s, w) && StopOk(s, w) && Enabled(s, a) && Inv(Apply(s, a), w')
    ensures StopOk(Apply(s, a), w')
  {
    if a.PassTerm? {
      TermInv(s, w, a.i, a.value);
    } else if a.PassSnd? && a.i == 0 && a.value == s.total {
      StopSentAt(s, w, a.value);
    } else if TokenStep(a) {
      WaveNotStopping(s, a, w');
    } else {
      WorkNotStopping(s, w, a, w');
    }
  }

  lemma TermInv(s: State, w: Wave, i: nat, v: nat)
    requires Inv(s, w) && StopOk(s, w) && Enabled(s, PassTerm(i, v))
    ensures exists k: nat :: StopAt(Apply(s, PassTerm(i, v)), k)
  {
    PassTermInv(s, w, i, v);
    var k: nat :| StopAt(s, k);
    var k' := StopMoves(s, k, i, v);
  }

  lemma WaveNotStopping(s: State, a: Step, w': Wave)
    requires Enabled(s, a) && Inv(Apply(s, a), w') && (a.Launch? || a.PassRec? || a.PassSnd?)
    requires a.PassSnd? && a.i == 0 ==> a.value != s.total
    ensures !w'.Stopping?
  {
    match a
    case Launch => Adds(Apply(s, a), w', s.tokens, Token(Rec, 1, s.procs[0].nbrecv));
    case PassRec(i, v) => RecNotStopping(s, i, v, w');
    case PassSnd(i, v) =>
      if i != 0 {
        var rest := s.tokens - multiset{Token(Snd, i, v)};
        Adds(Apply(s, a), w', rest, Token(Snd, Next(s, i), v + s.procs[i].nbsend));
      }
  }

  lemma RecNotStopping(s: State, i: nat, v: nat, w': Wave)
    requires Enabled(s, PassRec(i, v)) && Inv(Apply(s, PassRec(i, v)), w')
    ensures !w'.Stopping?
  {
    var rest := s.tokens - multiset{Token(Rec, i, v)};
    if i != 0 {
      Adds(Apply(s, PassRec(i, v)), w', rest, Token(Rec, Next(s, i), v + s.procs[i].nbrecv));
    } else {
      Adds(Apply(s, PassRec(i, v)), w', rest, Token(Snd, 1, s.procs[0].nbsend));
    }
  }

  lemma Adds(s': State, w': Wave, rest: multiset<Token>, t: Token)
    requires Inv(s', w') && s'.tokens == rest + multiset{t} && t.kind != Term
    ensures !w'.Stopping?
  {
    NotStopping(s', w', t);
  }

  lemma NotStopping(s: State, w: Wave, t: Token)
    requires Inv(s, w) && t in s.tokens && t.kind != Term
    ensures !w.Stopping?
  {
  }

  lemma WorkNotStopping(s: State, w: Wave, a: Step, w': Wave)
    requires Inv(s, w) && Enabled(s, a) && !TokenStep(a) && Inv(Apply(s, a), w')
    ensures !w'.Stopping?
  {
    var s' := Apply(s, a);
    match w
    case NoWave =>
    case First(recs) => NotStopping(s', w', Token(Rec, To(s, |recs|), Sum(recs)));
    case Second(_, snds, _) => NotStopping(s', w', Token(Snd, To(s, |snds|), Sum(snds)));
    case Stopping(_) => OnlyTokens(s, a);
  }

  // ---- runs from a quiet state ----

  ghost predicate Stuck(s: State) {
    forall a {:trigger Enabled(s, a)} :: !Enabled(s, a)
  }

  predicate AllStopped(s: State) {
    forall i :: 0 <= i < |s.procs| ==> s.procs[i].terminated
  }

  /** Until all processes are stopped some wave can go on. */
  lemma WavesGoOn(s: State, w: Wave) returns (a: Step)
    requires Inv(s, w) && Quiet(s) && StopOk(s, w) && !AllStopped(s)
    ensures Enabled(s, a)
  {
    assert QuietAt(s, 0);
    match w
    case NoWave => a := Launch;
    case First(recs) =>
      assert QuietAt(s, To(s, |recs|));
      a := PassRec(To(s, |recs|), Sum(recs));
    case Second(_, snds, _) =>
      assert QuietAt(s, To(s, |snds|));
      a := PassSnd(To(s, |snds|), Sum(snds));
    case Stopping(_) =>
      var k: nat :| StopAt(s, k);
      assert QuietAt(s, To(s, k));
      a := PassTerm(To(s, k), 0);
  }

  lemma {:induction false} StopRun(run: seq<State>, acts: seq<Step>, n: nat) returns (w: Wave)
    requires IsRun(run, acts) && n < |run|
    ensures Inv(run[n], w) && StopOk(run[n], w)
  {
    if n == 0 {
      StartInv(run[0]);
      w := NoWave;
    } else {
      w := StopRun(run, acts, n - 1);
      assert NextAt(run, acts, n - 1);
      var w' := StepInv(run[n - 1], w, acts[n - 1]);
      StopInv(run[n - 1], w, acts[n - 1], w');
      w := w';
    }
  }

  lemma QuietStep(s: State, w: Wave, a: Step) returns (w': Wave)
    requires Inv(s, w) && StopOk(s, w) && Quiet(s) && Enabled(s, a)
    ensures Inv(Apply(s, a), w') && StopOk(Apply(s, a), w') && Quiet(Apply(s, a))
    ensures |Apply(s, a).procs| == |s.procs| && StepsLeft(Apply(s, a), w') < StepsLeft(s, w)
  {
    w' := StepLowers(s, w, a);
    StopInv(s, w, a, w');
  }

  lemma {:induction false} QuietRun(run: seq<State>, acts: seq<Step>, m: nat, n: nat) returns (w: Wave)
    requires IsRun(run, acts) && m <= n < |run| && Quiet(run[m])
    ensures Inv(run[n], w) && StopOk(run[n], w) && Quiet(run[n]) && |run[n].procs| == |run[m].procs|
    ensures n - m + StepsLeft(run[n], w) <= 5 * |run[m].procs| + 1
    decreases n
  {
    if n == m {
      w := StopRun(run, acts, n);
      StepsBounded(run[n], w);
    } else {
      w := QuietRun(run, acts, m, n - 1);
      assert NextAt(run, acts, n - 1);
      w := QuietStep(run[n - 1], w, acts[n - 1]);
    }
  }

  /** Once all is quiet, n processes make at most 5n + 1 more steps, and a run that cannot go on
      has stopped every process and left no token behind. */
  lemma QuietEnds(run: seq<State>, acts: seq<Step>, m: nat)
    requires IsRun(run, acts) && m < |run| && Quiet(run[m])
    ensures |acts| - m <= 5 * |run[m].procs| + 1
    ensures Stuck(run[|acts|]) <==> AllStopped(run[|acts|])
    ensures AllStopped(run[|acts|]) ==> run[|acts|].tokens == multiset{}
  {
    var w := QuietRun(run, acts, m, |acts|);
    var s := run[|acts|];
    StepsBounded(s, w);
    if !AllStopped(s) {
      var a := WavesGoOn(s, w);
    } else {
      assert s.procs[0].terminated;
      var k: nat :| StopAt(s, k);
    }
  }
}
