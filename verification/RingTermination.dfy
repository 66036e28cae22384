/** Termination detection of the distributed construction: a first token collects the numbers
    of received aggregates, a second one the numbers of sent aggregates; equal sums stop all
    processes.  Processes are abstracted to their stack size, their counters and where they
    are in their loop; what they push and whom they send to is arbitrary. */
module RingTermination {

  /** Where a process is: in the token blocks of its loop, expanding a popped node, or
      between the start of a send and its counting. */
  datatype Phase = Tokens | Working | Sending

  datatype Process = Process(stack: nat, phase: Phase, nbsend: nat, nbrecv: nat, terminated: bool)

  datatype Kind = Rec | Snd | Term

  /** A token under way to process `to`. */
  datatype Token = Token(kind: Kind, to: nat, value: nat)

  /** inflight counts the aggregates sent to each process and not received; total and
      terminating belong to process 0. */
  datatype State = State(procs: seq<Process>, inflight: seq<nat>, tokens: multiset<Token>, terminating: bool,
          total: nat)

  datatype Step =
    | Pop(i: nat)
    | LocalPush(i: nat)
    | Send(i: nat, dest: nat)
    | CountSend(i: nat)
    | Receive(i: nat, isNew: bool)
    | EndWork(i: nat)
    | PassRec(i: nat, value: nat)
    | PassSnd(i: nat, value: nat)
    | PassTerm(i: nat, value: nat)
    | Launch

  predicate Start(s: State) {
    && 2 <= |s.procs| == |s.inflight| && s.tokens == multiset{} && !s.terminating
    && (forall i :: 0 <= i < |s.procs| ==> var p := s.procs[i];
         p.phase != Working && p.nbsend == p.nbrecv == 0 && !p.terminated && s.inflight[i] <= 1)
    // process 0 has pushed the initial aggregate, or is sending it to its owner
    && (forall i :: 0 < i < |s.procs| ==> s.procs[i].stack == 0 && s.procs[i].phase == Tokens)
    && Sum(s.inflight) == (if s.procs[0].phase == Sending then 1 else 0)
  }

  function Sum(xs: seq<nat>): nat {
    if xs == [] then 0 else xs[0] + Sum(xs[1..])
  }

  /** Successor of process i on the ring, (i + 1) modulo the number of processes. */
  function Next(s: State, i: nat): nat {
    To(s, i + 1)
  }

  /** Process number of ring position pos. */
  function To(s: State, pos: nat): nat {
    if pos == |s.procs| then 0 else pos
  }

  predicate Shaped(s: State) {
    2 <= |s.procs| == |s.inflight|
  }

  /** The stack is empty and the process is in its token blocks. */
  predicate AtTokens(s: State, i: nat) {
    i < |s.procs| && !s.procs[i].terminated && s.procs[i].phase == Tokens && s.procs[i].stack == 0
  }

  predicate Active(s: State, i: nat, phase: Phase) {
    i < |s.procs| && !s.procs[i].terminated && s.procs[i].phase == phase
  }

  predicate Enabled(s: State, a: Step) {
    && Shaped(s)
    && match a
       case Pop(i) => Active(s, i, Tokens) && s.procs[i].stack > 0
       case LocalPush(i) => Active(s, i, Working)
       case Send(i, dest) => Active(s, i, Working) && dest < |s.procs| && dest != i
       case CountSend(i) => Active(s, i, Sending)
       case Receive(i, _) => (Active(s, i, Tokens) || Active(s, i, Sending)) && s.inflight[i] > 0
       case EndWork(i) => Active(s, i, Working)
       case PassRec(i, v) => AtTokens(s, i) && Token(Rec, i, v) in s.tokens
       case PassSnd(i, v) => AtTokens(s, i) && Token(Snd, i, v) in s.tokens
       case PassTerm(i, v) => AtTokens(s, i) && Token(Term, i, v) in s.tokens
       case Launch => AtTokens(s, 0) && !s.terminating
  }

  function With(s: State, i: nat, p: Process): State
    requires i < |s.procs|
  {
    s.(procs := s.procs[i := p])
  }

  function Apply(s: State, a: Step): State
    requires Enabled(s, a)
  {
    match a
    case Pop(i) => With(s, i, s.procs[i].(stack := s.procs[i].stack - 1, phase := Working))
    case LocalPush(i) => With(s, i, s.procs[i].(stack := s.procs[i].stack + 1))
    case Send(i, dest) => With(s, i, s.procs[i].(phase := Sending)).(
      inflight := s.inflight[dest := s.inflight[dest] + 1])
    case CountSend(i) => With(s, i, s.procs[i].(phase := Working, nbsend := s.procs[i].nbsend + 1))
    case Receive(i, isNew) =>
      var p := s.procs[i];
      With(s, i, p.(nbrecv := p.nbrecv + 1, stack := p.stack + if isNew then 1 else 0))
        .(inflight := s.inflight[i := s.inflight[i] - 1])
    case EndWork(i) => With(s, i, s.procs[i].(phase := Tokens))
    case PassRec(i, v) =>
      var rest := s.tokens - multiset{Token(Rec, i, v)};
      if i != 0 then s.(tokens := rest + multiset{Token(Rec, Next(s, i), v + s.procs[i].nbrecv)})
      else s.(tokens := rest + multiset{Token(Snd, 1, s.procs[0].nbsend)}, total := v)
    case PassSnd(i, v) =>
      var rest := s.tokens - multiset{Token(Snd, i, v)};
      if i != 0 then s.(tokens := rest + multiset{Token(Snd, Next(s, i), v + s.procs[i].nbsend)})
      else if v == s.total then s.(tokens := rest + multiset{Token(Term, 1, 0)})
      else s.(tokens := rest, terminating := false)
    case PassTerm(i, v) =>
      var rest := s.tokens - multiset{Token(Term, i, v)};
      var s' := With(s, i, s.procs[i].(terminated := true));
      s'.(tokens := if i != 0 then rest + multiset{Token(Term, Next(s, i), v)} else rest)
    case Launch =>
      s.(terminating := true, tokens := s.tokens + multiset{Token(Rec, 1, s.procs[0].nbrecv)})
  }

  // ---- sums ----

  lemma {:induction false} SumUpdate(xs: seq<nat>, i: nat, v: nat)
    requires i < |xs|
    ensures Sum(xs[i := v]) + xs[i] == Sum(xs) + v
  {
    if i == 0 { assert xs[0 := v][1..] == xs[1..]; } else {
      SumUpdate(xs[1..], i - 1, v);
      assert xs[i := v][1..] == xs[1..][i - 1 := v];
    }
  }

  lemma {:induction false} SumAppend(xs: seq<nat>, v: nat)
    ensures Sum(xs + [v]) == Sum(xs) + v
  {
    if xs == [] { assert xs + [v] == [v] && [v][1..] == []; } else {
      SumAppend(xs[1..], v);
      assert (xs + [v])[1..] == xs[1..] + [v];
    }
  }

  lemma {:induction false} SumMono(xs: seq<nat>, ys: seq<nat>)
    requires |xs| == |ys| && forall i :: 0 <= i < |xs| ==> xs[i] <= ys[i]
    ensures Sum(xs) <= Sum(ys)
    ensures Sum(xs) == Sum(ys) ==> xs == ys
  {
    if xs != [] {
      SumMono(xs[1..], ys[1..]);
      assert Sum(xs) == Sum(ys) ==> xs == [xs[0]] + xs[1..] && ys == [ys[0]] + ys[1..];
    }
  }

  lemma {:induction false} SumZero(xs: seq<nat>)
    requires Sum(xs) == 0
    ensures forall i :: 0 <= i < |xs| ==> xs[i] == 0
  {
    if xs != [] {
      SumZero(xs[1..]);
      assert forall i :: 0 < i < |xs| ==> xs[i] == xs[1..][i - 1];
    }
  }

  // ---- counters ----

  /** Messages a process has started to send. */
  function Started(p: Process): nat { p.nbsend + if p.phase == Sending then 1 else 0 }

  function Sends(procs: seq<Process>): (r: seq<nat>)
    ensures |r| == |procs| && forall i :: 0 <= i < |r| ==> r[i] == Started(procs[i])
  {
    seq(|procs|, i requires 0 <= i < |procs| => Started(procs[i]))
  }

  function Recvs(procs: seq<Process>): (r: seq<nat>)
    ensures |r| == |procs| && forall i :: 0 <= i < |r| ==> r[i] == procs[i].nbrecv
  {
    seq(|procs|, i requires 0 <= i < |procs| => procs[i].nbrecv)
  }

  /** No aggregate is lost: what was sent was received or is under way. */
  predicate Conserved(s: State) {
    Shaped(s) && Sum(Sends(s.procs)) == Sum(Recvs(s.procs)) + Sum(s.inflight)
  }

  lemma CountsUpdate(procs: seq<Process>, i: nat, p: Process)
    requires i < |procs|
    ensures Sum(Sends(procs[i := p])) + Started(procs[i]) == Sum(Sends(procs)) + Started(p)
    ensures Sum(Recvs(procs[i := p])) + procs[i].nbrecv == Sum(Recvs(procs)) + p.nbrecv
  {
    SumUpdate(Sends(procs), i, Started(p));
    SumUpdate(Recvs(procs), i, p.nbrecv);
    assert Sends(procs[i := p]) == Sends(procs)[i := Started(p)];
    assert Recvs(procs[i := p]) == Recvs(procs)[i := p.nbrecv];
  }

  predicate TokenStep(a: Step) { a.PassRec? || a.PassSnd? || a.PassTerm? || a.Launch? }

  lemma StepConserves(s: State, a: Step)
    requires Conserved(s) && Enabled(s, a)
    ensures Conserved(Apply(s, a))
  {
    match a
    case Launch =>
    case PassRec(_, _) =>
    case PassSnd(_, _) =>
    case Send(i, dest) => SendConserves(s, i, dest);
    case Receive(i, isNew) => ReceiveConserves(s, i, isNew);
    case _ => CountsKept(s, a);
  }

  lemma SendConserves(s: State, i: nat, dest: nat)
    requires Conserved(s) && Enabled(s, Send(i, dest))
    ensures Conserved(Apply(s, Send(i, dest)))
  {
    CountsUpdate(s.procs, i, s.procs[i].(phase := Sending));
    SumUpdate(s.inflight, dest, s.inflight[dest] + 1);
  }

  lemma ReceiveConserves(s: State, i: nat, isNew: bool)
    requires Conserved(s) && Enabled(s, Receive(i, isNew))
    ensures Conserved(Apply(s, Receive(i, isNew)))
  {
    CountsUpdate(s.procs, i, Apply(s, Receive(i, isNew)).procs[i]);
    SumUpdate(s.inflight, i, s.inflight[i] - 1);
  }

  /** The step changes neither what was started nor what was received. */
  lemma CountsKept(s: State, a: Step)
    requires Conserved(s) && Enabled(s, a) && (a.Pop? || a.LocalPush? || a.CountSend? || a.EndWork? || a.PassTerm?)
    ensures Conserved(Apply(s, a))
  {
    CountsUpdate(s.procs, a.i, Apply(s, a).procs[a.i]);
  }

  // ---- quiet states ----

  predicate QuietAt(s: State, i: nat)
    requires i < |s.procs|
  {
    s.procs[i].stack == 0 && s.procs[i].phase == Tokens
  }

  /** All stacks are empty, nobody works, no aggregate is under way. */
  predicate Quiet(s: State) {
    && (forall i {:trigger QuietAt(s, i)} :: 0 <= i < |s.procs| ==> QuietAt(s, i))
    && (forall i :: 0 <= i < |s.inflight| ==> s.inflight[i] == 0)
  }

  lemma OnlyTokens(s: State, a: Step)
    requires Quiet(s) && Enabled(s, a)
    ensures TokenStep(a)
  {
    assert !a.Launch? ==> QuietAt(s, a.i);
  }

  /** Quiet states stay quiet, and counters stop. */
  lemma QuietStable(s: State, a: Step)
    requires Quiet(s) && Enabled(s, a)
    ensures Quiet(Apply(s, a))
    ensures Sends(Apply(s, a).procs) == Sends(s.procs) && Recvs(Apply(s, a).procs) == Recvs(s.procs)
  {
    OnlyTokens(s, a);
    if a.PassTerm? {
      forall i | 0 <= i < |s.procs| ensures QuietAt(Apply(s, a), i) { assert QuietAt(s, i); }
    } else {
      SamePlaces(s, a);
    }
  }

  lemma SamePlaces(s: State, a: Step)
    requires Enabled(s, a) && (a.PassRec? || a.PassSnd? || a.Launch?)
    ensures Apply(s, a).procs == s.procs && Apply(s, a).inflight == s.inflight
    ensures Quiet(s) ==> Quiet(Apply(s, a))
  {
    if Quiet(s) {
      forall i | 0 <= i < |s.procs| ensures QuietAt(Apply(s, a), i) { assert QuietAt(s, i); }
    }
  }

  // ---- the invariant of the waves ----

  /** How far the current pair of waves is: pos processes have added their counter (the
      token is under way to process pos modulo n).  recs and snds are what they added; snap
      is the state in which the first wave came back to process 0. */
  datatype Wave =
    | NoWave
    | First(recs: seq<nat>)
    | Second(recs: seq<nat>, snds: seq<nat>, snap: State)
    | Stopping(snap: State)

  /** A process that has received nothing since it added its counter is still quiet. */
  ghost predicate RecOk(s: State, recs: seq<nat>, i: nat)
    requires i < |recs| && i < |s.procs|
  {
    recs[i] <= s.procs[i].nbrecv && (recs[i] == s.procs[i].nbrecv ==> QuietAt(s, i))
  }

  ghost predicate RecsOk(s: State, recs: seq<nat>) {
    |recs| <= |s.procs| && forall i {:trigger RecOk(s, recs, i)} :: 0 <= i < |recs| ==> RecOk(s, recs, i)
  }

  ghost predicate SndOk(s: State, snds: seq<nat>, snap: State, i: nat)
    requires i < |s.procs| == |snap.procs|
  {
    && Started(snap.procs[i]) <= Started(s.procs[i])
    && (i < |snds| ==> Started(snap.procs[i]) <= snds[i] && snds[i] <= Started(s.procs[i]))
  }

  ghost predicate SndsOk(s: State, snds: seq<nat>, snap: State) {
    |snds| <= |s.procs| == |snap.procs| && forall i {:trigger SndOk(s, snds, snap, i)} :: 0 <= i < |s.procs| ==>
      SndOk(s, snds, snap, i)
  }

  ghost predicate WaveOk(s: State, w: Wave)
    requires Shaped(s)
  {
    var n := |s.procs|;
    match w
    case NoWave => s.tokens == multiset{} && !s.terminating
    case First(recs) =>
      && s.terminating && 1 <= |recs| <= n && s.tokens == multiset{Token(Rec, To(s, |recs|), Sum(recs))}
      && RecsOk(s, recs)
    case Second(recs, snds, snap) =>
      && s.terminating && 1 <= |snds| <= n == |recs| && s.tokens == multiset{Token(Snd, To(s, |snds|), Sum(snds))}
      && s.total == Sum(recs) && Conserved(snap) && RecsOk(snap, recs) && SndsOk(s, snds, snap)
      && (Quiet(snap) ==> Quiet(s))
    case Stopping(snap) =>
      s.terminating && Quiet(snap) && Quiet(s) && forall t :: t in s.tokens ==> t.kind == Term
  }

  ghost predicate Inv(s: State, w: Wave) {
    && Conserved(s) && WaveOk(s, w)
    && (!w.Stopping? ==> forall i :: 0 <= i < |s.procs| ==> !s.procs[i].terminated)
  }

  // ---- one step ----

  /** Working, sending and receiving leave the tokens alone. */
  lemma WorkKeeps(s: State, w: Wave, a: Step)
    requires Inv(s, w) && Enabled(s, a) && !TokenStep(a)
    ensures Inv(Apply(s, a), w)
  {
    StepConserves(s, a);
    match w
    case First(recs) => WorkKeepsRecs(s, recs, a);
    case Second(recs, snds, snap) =>
      WorkKeepsSnds(s, snds, snap, a);
      if Quiet(s) { OnlyTokens(s, a); }
    case Stopping(snap) => OnlyTokens(s, a);
    case NoWave =>
  }

  lemma WorkKeepsRecs(s: State, recs: seq<nat>, a: Step)
    requires Enabled(s, a) && !TokenStep(a) && RecsOk(s, recs)
    ensures RecsOk(Apply(s, a), recs)
  {
    forall i | 0 <= i < |recs| ensures RecOk(Apply(s, a), recs, i) { assert RecOk(s, recs, i); }
  }

  lemma WorkKeepsSnds(s: State, snds: seq<nat>, snap: State, a: Step)
    requires Enabled(s, a) && !TokenStep(a) && SndsOk(s, snds, snap)
    ensures SndsOk(Apply(s, a), snds, snap)
  {
    forall i | 0 <= i < |s.procs| ensures SndOk(Apply(s, a), snds, snap, i) { assert SndOk(s, snds, snap, i); }
  }

  lemma OnlyToken(t: Token, t': Token)
    requires t in multiset{t'}
    ensures t == t' && multiset{t'} - multiset{t} == multiset{}
  {
  }

  lemma LaunchInv(s: State, w: Wave) returns (w': Wave)
    requires Inv(s, w) && Enabled(s, Launch)
    ensures Inv(Apply(s, Launch), w') && w' == First([s.procs[0].nbrecv])
  {
    StepConserves(s, Launch);
    var s', recs := Apply(s, Launch), [s.procs[0].nbrecv];
    w' := First(recs);
    assert recs[1..] == [] && Sum(recs) == s.procs[0].nbrecv;
    assert s'.tokens == multiset{Token(Rec, 1, Sum(recs))};
    assert RecOk(s', recs, 0);
  }

  /** The first token passes process i. */
  lemma RecMoves(s: State, w: Wave, i: nat, v: nat) returns (w': Wave)
    requires Inv(s, w) && Enabled(s, PassRec(i, v)) && i != 0
    ensures Inv(Apply(s, PassRec(i, v)), w') && w.First? && i == |w.recs| && w' == First(w.recs + [s.procs[i].nbrecv])
  {
    StepConserves(s, PassRec(i, v));
    assert w.First?;
    var s', recs, recs' := Apply(s, PassRec(i, v)), w.recs, w.recs + [s.procs[i].nbrecv];
    OnlyToken(Token(Rec, i, v), Token(Rec, To(s, |recs|), Sum(recs)));
    SumAppend(recs, s.procs[i].nbrecv);
    w' := First(recs');
    forall j | 0 <= j < |recs'| ensures RecOk(s', recs', j) { if j < |recs| { assert RecOk(s, recs, j); } }
  }

  /** It comes back to process 0, which sends the second one. */
  lemma RecReturns(s: State, w: Wave, v: nat) returns (w': Wave)
    requires Inv(s, w) && Enabled(s, PassRec(0, v))
    ensures Inv(Apply(s, PassRec(0, v)), w') && w.First? && |w.recs| == |s.procs|
    ensures w' == Second(w.recs, [s.procs[0].nbsend], s)
  {
    StepConserves(s, PassRec(0, v));
    assert w.First?;
    var s', recs, snds := Apply(s, PassRec(0, v)), w.recs, [s.procs[0].nbsend];
    OnlyToken(Token(Rec, 0, v), Token(Rec, To(s, |recs|), Sum(recs)));
    assert snds[1..] == [] && Sum(snds) == s.procs[0].nbsend;
    w' := Second(recs, snds, s);
    forall j | 0 <= j < |s.procs| ensures SndOk(s', snds, s, j) {}
    if Quiet(s) { QuietStable(s, PassRec(0, v)); }
  }

  /** Equal sums: nothing was under way when the first wave came back, and every process was
      still as it was when it added its counter. */
  lemma Decision(s: State, w: Wave)
    requires Inv(s, w) && w.Second? && |w.snds| == |s.procs| && Sum(w.snds) == Sum(w.recs)
    ensures Quiet(w.snap)
  {
    var recs, snds, snap := w.recs, w.snds, w.snap;
    forall i | 0 <= i < |recs| ensures recs[i] <= Recvs(snap.procs)[i] && Sends(snap.procs)[i] <= snds[i] {
      assert RecOk(snap, recs, i) && SndOk(s, snds, snap, i);
    }
    SumMono(recs, Recvs(snap.procs));
    SumMono(Sends(snap.procs), snds);
    SumZero(snap.inflight);
    forall i | 0 <= i < |recs| ensures QuietAt(snap, i) {
      assert RecOk(snap, recs, i) && recs[i] == Recvs(snap.procs)[i];
    }
  }

  /** The second token passes process i. */
  lemma SndMoves(s: State, w: Wave, i: nat, v: nat) returns (w': Wave)
    requires Inv(s, w) && Enabled(s, PassSnd(i, v)) && i != 0
    ensures Inv(Apply(s, PassSnd(i, v)), w') && w.Second? && i == |w.snds|
    ensures w' == w.(snds := w.snds + [s.procs[i].nbsend])
  {
    StepConserves(s, PassSnd(i, v));
    assert w.Second?;
    var s', snds, snds' := Apply(s, PassSnd(i, v)), w.snds, w.snds + [s.procs[i].nbsend];
    OnlyToken(Token(Snd, i, v), Token(Snd, To(s, |snds|), Sum(snds)));
    SumAppend(snds, s.procs[i].nbsend);
    w' := w.(snds := snds');
    SndsGrow(s, s', snds, w.snap);
    if Quiet(s) { QuietStable(s, PassSnd(i, v)); }
  }

  lemma SndsGrow(s: State, s': State, snds: seq<nat>, snap: State)
    requires SndsOk(s, snds, snap) && |snds| < |s.procs| && s'.procs == s.procs && s.procs[|snds|].phase == Tokens
    ensures SndsOk(s', snds + [s.procs[|snds|].nbsend], snap)
  {
    var snds' := snds + [s.procs[|snds|].nbsend];
    forall j | 0 <= j < |s.procs| ensures SndOk(s', snds', snap, j) { assert SndOk(s, snds, snap, j); }
  }

  /** It comes back to process 0, which stops everybody or lets the waves start again. */
  lemma SndReturns(s: State, w: Wave, v: nat) returns (w': Wave)
    requires Inv(s, w) && Enabled(s, PassSnd(0, v))
    ensures Inv(Apply(s, PassSnd(0, v)), w') && w.Second? && |w.snds| == |s.procs|
    ensures v == Sum(w.snds) && s.total == Sum(w.recs) && w' == if v == s.total then Stopping(w.snap) else NoWave
  {
    StepConserves(s, PassSnd(0, v));
    assert w.Second?;
    OnlyToken(Token(Snd, 0, v), Token(Snd, To(s, |w.snds|), Sum(w.snds)));
    if v == s.total {
      Decision(s, w);
      QuietStable(s, PassSnd(0, v));
      w' := Stopping(w.snap);
    } else {
      w' := NoWave;
    }
  }

  lemma PassTermInv(s: State, w: Wave, i: nat, v: nat)
    requires Inv(s, w) && Enabled(s, PassTerm(i, v))
    ensures w.Stopping? && Inv(Apply(s, PassTerm(i, v)), w)
  {
    StepConserves(s, PassTerm(i, v));
    assert w.Stopping?;
    QuietStable(s, PassTerm(i, v));
  }

  /** The first wave has come back: the snapshot of that moment is kept until the waves start
      again. */
  predicate Snapped(w: Wave) { w.Second? || w.Stopping? }

  predicate SnapKept(s: State, w: Wave, a: Step, w': Wave) {
    Snapped(w') ==> (Snapped(w) && w'.snap == w.snap) || (w'.snap == s && a.PassRec? && a.i == 0)
  }

  lemma StepInv(s: State, w: Wave, a: Step) returns (w': Wave)
    requires Inv(s, w) && Enabled(s, a)
    ensures Inv(Apply(s, a), w') && SnapKept(s, w, a, w')
  {
    match a
    case Launch => w' := LaunchInv(s, w);
    case PassRec(i, v) => w' := RecInv(s, w, i, v);
    case PassSnd(i, v) => w' := SndInv(s, w, i, v);
    case PassTerm(i, v) => PassTermInv(s, w, i, v); w' := w;
    case _ => WorkKeeps(s, w, a); w' := w;
  }

  lemma RecInv(s: State, w: Wave, i: nat, v: nat) returns (w': Wave)
    requires Inv(s, w) && Enabled(s, PassRec(i, v))
    ensures Inv(Apply(s, PassRec(i, v)), w') && SnapKept(s, w, PassRec(i, v), w')
  {
    if i != 0 { w' := RecMoves(s, w, i, v); } else { w' := RecReturns(s, w, v); }
  }

  lemma SndInv(s: State, w: Wave, i: nat, v: nat) returns (w': Wave)
    requires Inv(s, w) && Enabled(s, PassSnd(i, v))
    ensures Inv(Apply(s, PassSnd(i, v)), w') && SnapKept(s, w, PassSnd(i, v), w')
  {
    if i != 0 { w' := SndMoves(s, w, i, v); } else { w' := SndReturns(s, w, v); }
  }

  lemma StartInv(s: State)
    requires Start(s)
    ensures Inv(s, NoWave)
  {
    SumIs(Recvs(s.procs), 0);
    SumIs(Sends(s.procs), Started(s.procs[0]));
  }

  /** A sequence that is zero after its first element. */
  lemma {:induction false} SumIs(xs: seq<nat>, v: nat)
    requires |xs| > 0 && xs[0] == v && forall i :: 0 < i < |xs| ==> xs[i] == 0
    ensures Sum(xs) == v
  {
    if |xs| > 1 { SumIs(xs[1..], 0); }
  }

  // ---- runs ----

  predicate NextAt(run: seq<State>, acts: seq<Step>, i: nat)
    requires |run| == |acts| + 1 && i < |acts|
  {
    Enabled(run[i], acts[i]) && run[i + 1] == Apply(run[i], acts[i])
  }

  ghost predicate IsRun(run: seq<State>, acts: seq<Step>) {
    && |run| == |acts| + 1 && Start(run[0])
    && forall i {:trigger NextAt(run, acts, i)} :: 0 <= i < |acts| ==> NextAt(run, acts, i)
  }

  /** At step m the first token came back to process 0. */
  predicate FirstWaveEnds(run: seq<State>, acts: seq<Step>, m: nat) {
    m < |acts| && m < |run| && acts[m].PassRec? && acts[m].i == 0
  }

  predicate SnapAt(run: seq<State>, acts: seq<Step>, n: nat, w: Wave, m: nat) {
    Snapped(w) ==> m < n && FirstWaveEnds(run, acts, m) && w.snap == run[m]
  }

  lemma {:induction false} RunInv(run: seq<State>, acts: seq<Step>, n: nat) returns (w: Wave, m: nat)
    requires IsRun(run, acts) && n < |run|
    ensures Inv(run[n], w) && SnapAt(run, acts, n, w, m)
  {
    if n == 0 {
      StartInv(run[0]);
      w, m := NoWave, 0;
    } else {
      var v, k := RunInv(run, acts, n - 1);
      assert NextAt(run, acts, n - 1);
      w := StepInv(run[n - 1], v, acts[n - 1]);
      m := if Snapped(w) && !(Snapped(v) && w.snap == v.snap) then n - 1 else k;
    }
  }

  /** Some process has been told to stop, or is about to be. */
  predicate StopSent(s: State) {
    (exists t :: t in s.tokens && t.kind == Term) || exists i :: 0 <= i < |s.procs| && s.procs[i].terminated
  }

  lemma {:induction false} QuietForever(run: seq<State>, acts: seq<Step>, m: nat, k: nat)
    requires IsRun(run, acts) && m <= k < |run| && Quiet(run[m])
    ensures Quiet(run[k])
    decreases k
  {
    if k > m {
      QuietForever(run, acts, m, k - 1);
      assert NextAt(run, acts, k - 1);
      QuietStable(run[k - 1], acts[k - 1]);
    }
  }

  /** Safety of termination: if a stop is ever sent, then already when the first wave came
      back every stack was empty, nobody was working, no aggregate was under way, and it has
      stayed so in every later state. */
  lemma StopIsSafe(run: seq<State>, acts: seq<Step>, n: nat) returns (m: nat)
    requires IsRun(run, acts) && n < |run| && StopSent(run[n])
    ensures m < n && FirstWaveEnds(run, acts, m)
    ensures forall k :: m <= k < |run| ==> Quiet(run[k])
  {
    var w;
    w, m := RunInv(run, acts, n);
    StopMeans(run[n], w);
    forall k | m <= k < |run| ensures Quiet(run[k]) { QuietForever(run, acts, m, k); }
  }

  lemma StopMeans(s: State, w: Wave)
    requires Inv(s, w) && StopSent(s)
    ensures w.Stopping?
  {
    assert w.First? ==> forall t :: t in s.tokens ==> t.kind == Rec;
    assert w.Second? ==> forall t :: t in s.tokens ==> t.kind == Snd;
  }

  // ---- nothing pushed is left behind ----

  /** Items that the steps put on the stack of process i: its own new nodes, and the aggregates
      received that are new to it. */
  function Pushes(acts: seq<Step>, i: nat): nat {
    if acts == [] then 0 else
      var a := acts[|acts| - 1];
      Pushes(acts[..|acts| - 1], i) + if a == LocalPush(i) || a == Receive(i, true) then 1 else 0
  }

  /** Items that process i takes from its stack. */
  function Pops(acts: seq<Step>, i: nat): nat {
    if acts == [] then 0 else
      Pops(acts[..|acts| - 1], i) + if acts[|acts| - 1] == Pop(i) then 1 else 0
  }

  lemma StackStep(s: State, a: Step, i: nat)
    requires Enabled(s, a) && i < |s.procs|
    ensures var s' := Apply(s, a);
            && |s'.procs| == |s.procs|
            && s'.procs[i].stack + (if a == Pop(i) then 1 else 0)
            == s.procs[i].stack + if a == LocalPush(i) || a == Receive(i, true) then 1 else 0
  {
  }

  lemma CountStep(acts: seq<Step>, n: nat, i: nat)
    requires 0 < n <= |acts|
    ensures var a := acts[n - 1];
            && Pushes(acts[..n], i)
            == Pushes(acts[..n - 1], i) + (if a == LocalPush(i) || a == Receive(i, true) then 1 else 0)
            && Pops(acts[..n], i) == Pops(acts[..n - 1], i) + if a == Pop(i) then 1 else 0
  {
    assert acts[..n][..n - 1] == acts[..n - 1];
  }

  /** Stacks lose and gain nothing but by these steps. */
  lemma {:induction false} StackBalance(run: seq<State>, acts: seq<Step>, n: nat, i: nat)
    requires IsRun(run, acts) && n < |run| && i < |run[0].procs|
    ensures |run[n].procs| == |run[0].procs|
    ensures run[n].procs[i].stack + Pops(acts[..n], i) == run[0].procs[i].stack + Pushes(acts[..n], i)
  {
    if n > 0 {
      StackBalance(run, acts, n - 1, i);
      assert NextAt(run, acts, n - 1);
      StackStep(run[n - 1], acts[n - 1], i);
      CountStep(acts, n, i);
    }
  }

  /** When a stop is sent, everything ever put on a stack has been taken and expanded. */
  lemma StopPopsAll(run: seq<State>, acts: seq<Step>, n: nat, i: nat)
    requires IsRun(run, acts) && n < |run| && StopSent(run[n]) && i < |run[0].procs|
    ensures Pops(acts[..n], i) == run[0].procs[i].stack + Pushes(acts[..n], i)
  {
    var m := StopIsSafe(run, acts, n);
    StackBalance(run, acts, n, i);
    assert QuietAt(run[n], i);
  }

  // ---- quiet systems do stop ----

  /** In a quiet system the waves collect the final counters. */
  ghost predicate FinalCounts(s: State, w: Wave) {
    && Shaped(s) && Quiet(s)
    && match w
       case First(recs) => recs <= Recvs(s.procs)
       case Second(recs, snds, _) => recs == Recvs(s.procs) && snds <= Sends(s.procs)
       case _ => true
  }

  lemma FinalRec(s: State, w: Wave, i: nat, v: nat) returns (w': Wave)
    requires Inv(s, w) && FinalCounts(s, w) && Enabled(s, PassRec(i, v))
    ensures Inv(Apply(s, PassRec(i, v)), w') && FinalCounts(Apply(s, PassRec(i, v)), w')
  {
    QuietStable(s, PassRec(i, v));
    if i != 0 { w' := RecMoves(s, w, i, v); } else { w' := RecReturns(s, w, v); }
  }

  lemma FinalSnd(s: State, w: Wave, i: nat, v: nat) returns (w': Wave)
    requires Inv(s, w) && FinalCounts(s, w) && Enabled(s, PassSnd(i, v))
    ensures Inv(Apply(s, PassSnd(i, v)), w') && FinalCounts(Apply(s, PassSnd(i, v)), w')
    ensures i == 0 ==> v == s.total
  {
    QuietStable(s, PassSnd(i, v));
    if i != 0 {
      w' := SndMoves(s, w, i, v);
    } else {
      w' := SndReturns(s, w, v);
      FinalSums(s, w);
    }
  }

  lemma FinalStep(s: State, w: Wave, a: Step) returns (w': Wave)
    requires Inv(s, w) && FinalCounts(s, w) && Enabled(s, a)
    ensures Inv(Apply(s, a), w') && FinalCounts(Apply(s, a), w')
    ensures a.PassSnd? && a.i == 0 ==> a.value == s.total
  {
    OnlyTokens(s, a);
    QuietStable(s, a);
    if a.PassRec? {
      w' := FinalRec(s, w, a.i, a.value);
    } else if a.PassSnd? {
      w' := FinalSnd(s, w, a.i, a.value);
    } else if a.PassTerm? {
      PassTermInv(s, w, a.i, a.value);
      w' := w;
    } else {
      w' := LaunchInv(s, w);
    }
  }

  lemma FinalSums(s: State, w: Wave)
    requires Inv(s, w) && FinalCounts(s, w) && w.Second? && |w.snds| == |s.procs|
    ensures Sum(w.snds) == Sum(w.recs)
  {
    assert w.snds == Sends(s.procs);
    assert forall i :: 0 <= i < |s.inflight| ==> s.inflight[i] == 0;
    SumIs(s.inflight, 0);
  }

  lemma {:induction false} FinalRun(run: seq<State>, acts: seq<Step>, m: nat, n: nat) returns (w: Wave)
    requires IsRun(run, acts) && m <= n < |run| && Quiet(run[m]) && !run[m].terminating
    ensures Inv(run[n], w) && FinalCounts(run[n], w)
    ensures n > m && acts[n - 1].PassSnd? && acts[n - 1].i == 0 ==> acts[n - 1].value == run[n - 1].total
    decreases n
  {
    if n == m {
      var k;
      w, k := RunInv(run, acts, n);
    } else {
      w := FinalRun(run, acts, m, n - 1);
      assert NextAt(run, acts, n - 1);
      w := FinalStep(run[n - 1], w, acts[n - 1]);
    }
  }

  /** No false alarm: waves launched once the system is quiet always end by stopping it. */
  lemma QuietStops(run: seq<State>, acts: seq<Step>, m: nat, n: nat)
    requires IsRun(run, acts) && m <= n < |acts| && Quiet(run[m]) && !run[m].terminating
    requires acts[n].PassSnd? && acts[n].i == 0
    ensures StopSent(run[n + 1])
  {
    var w := FinalRun(run, acts, m, n + 1);
    assert NextAt(run, acts, n);
    assert Token(Term, 1, 0) in run[n + 1].tokens;
  }
}
