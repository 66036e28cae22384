/** Reading a net of named arcs into the construction: the vectors of tokens that transitions
    take and give, what enabling and firing then mean in terms of arcs, and the diagrams. */
module NetReading {
  import opened Ldds
  import opened LddPackages
  import opened LddOps
  import opened PetriNets
  import opened CommonSogs
  import N = NewNets

  // ---- from arcs to vectors ----

  /** Tokens that the arcs carry at place p, without bound. */
  function TokensAt(arcs: seq<N.Arc>, p: nat): nat {
    if arcs == [] then 0 else
      var a := arcs[|arcs| - 1];
      TokensAt(arcs[..|arcs| - 1], p) + if a.node == p then a.valuation else 0
  }

  /** The vector holds them in 32-bit words. */
  ghost predicate VectorOf(x: Marking, arcs: seq<N.Arc>, places: nat) {
    |x| == places && forall p :: 0 <= p < places ==> x[p] == TokensAt(arcs, p) % TOKENS
  }

  /** Accumulates the arcs in an array of places. */
  method Accumulate(arcs: seq<N.Arc>, places: nat) returns (x: Marking)
    requires forall a :: a in arcs ==> a.node < places
    ensures |x| == places && forall p :: 0 <= p < places ==> x[p] == TokensAt(arcs, p) % TOKENS
  {
    var sums := new nat[places](_ => 0);
    for i := 0 to |arcs|
      invariant forall p :: 0 <= p < places ==> sums[p] == TokensAt(arcs[..i], p) % TOKENS
    {
      var a := arcs[i];
      assert a in arcs && arcs[..i + 1][..i] == arcs[..i];
      sums[a.node] := (sums[a.node] + a.valuation) % TOKENS;
    }
    assert arcs[..|arcs|] == arcs;
    return sums[..];
  }

  /** The net takes what the arcs into its transitions carry, and gives what those out of them do. */
  ghost predicate ReadsArcs(net: Net, places: nat, ts: seq<N.Trans>) {
    && net.places == places && |net.transitions| == |ts|
    && forall t :: 0 <= t < |ts| ==>
      VectorOf(net.transitions[t].minus, ts[t].pre, places) && VectorOf(net.transitions[t].plus, ts[t].post, places)
  }

  /** The net of minus and plus vectors behind a net of arcs. */
  ghost predicate Reads(n: N.NewNet, net: Net)
    reads n
  {
    && ReadsArcs(net, |n.places|, n.transitions)
    && (forall t: nat :: t in net.hidden <==> t in n.nonObservable)
    && (forall t: nat :: t in net.visible <==> t in n.observable)
  }

  lemma ReadsOk(n: N.NewNet, net: Net)
    requires n.Valid() && n.Classifies() && Reads(n, net)
    ensures net.Ok()
  {
    forall t | 0 <= t < |net.transitions| ensures net.TransitionOk(t) {}
    forall t ensures net.Classified(t) {}
  }

  /** A set listed in some order. */
  method Listed(s: set<nat>) returns (xs: seq<nat>)
    ensures forall t :: t in xs <==> t in s
  {
    xs := [];
    var rest := s;
    while rest != {}
      invariant rest <= s && forall t :: t in xs <==> t in s && t !in rest
      decreases rest
    {
      var t :| t in rest;
      xs, rest := xs + [t], rest - {t};
    }
  }

  method ReadNet(n: N.NewNet) returns (net: Net)
    requires n.Valid() && n.Classifies()
    ensures Reads(n, net) && net.Ok()
  {
    var hidden := Listed(n.nonObservable);
    var visible := Listed(n.observable);
    var transitions: seq<Transition> := [];
    for t := 0 to |n.transitions|
      invariant |transitions| == t
      invariant forall u :: 0 <= u < t ==> VectorOf(transitions[u].minus, n.transitions[u].pre, |n.places|)
      invariant forall u :: 0 <= u < t ==> VectorOf(transitions[u].plus, n.transitions[u].post, |n.places|)
    {
      var minus := Accumulate(n.transitions[t].pre, |n.places|);
      var plus := Accumulate(n.transitions[t].post, |n.places|);
      transitions := transitions + [Transition(minus, plus)];
    }
    net := Net(|n.places|, transitions, hidden, visible);
    ReadsOk(n, net);
  }

  // ---- what the vectors say about the arcs ----

  lemma {:induction false} NoArcNoTokens(arcs: seq<N.Arc>, p: nat)
    requires forall a :: a in arcs ==> a.node != p
    ensures TokensAt(arcs, p) == 0
  {
    if arcs != [] {
      assert arcs[|arcs| - 1] in arcs;
      NoArcNoTokens(arcs[..|arcs| - 1], p);
    }
  }

  /** A transition without an arc from p takes no token there, and gives none without an arc to p. */
  lemma NothingFrom(net: Net, places: nat, ts: seq<N.Trans>, t: nat, p: nat)
    requires ReadsArcs(net, places, ts) && t < |ts| && p < places
    ensures (forall a :: a in ts[t].pre ==> a.node != p) ==> net.transitions[t].minus[p] == 0
    ensures (forall a :: a in ts[t].post ==> a.node != p) ==> net.transitions[t].plus[p] == 0
  {
    if forall a :: a in ts[t].pre ==> a.node != p { NoArcNoTokens(ts[t].pre, p); }
    if forall a :: a in ts[t].post ==> a.node != p { NoArcNoTokens(ts[t].post, p); }
  }

  lemma OneArcMore(x: Marking, x': Marking, arcs: seq<N.Arc>, a: N.Arc, places: nat)
    requires VectorOf(x, arcs, places) && VectorOf(x', arcs + [a], places) && a.node < places
    ensures x' == x[a.node := (x[a.node] + a.valuation) % TOKENS]
  {
    assert (arcs + [a])[..|arcs|] == arcs;
    forall p | 0 <= p < places ensures x'[p] == if p == a.node then (x[p] + a.valuation) % TOKENS else x[p] {
      assert TokensAt(arcs + [a], p) == TokensAt(arcs, p) + if a.node == p then a.valuation else 0;
    }
  }

  lemma SameVector(x: Marking, x': Marking, arcs: seq<N.Arc>, places: nat)
    requires VectorOf(x, arcs, places) && VectorOf(x', arcs, places)
    ensures x' == x
  {
  }

  /** One arc more from place p to t: t takes that many more tokens there, in 32-bit arithmetic,
      and nothing else is read differently. */
  lemma PreRead(net: Net, net': Net, places: nat, ts: seq<N.Trans>, t: nat, p: nat, valuation: nat)
    requires t < |ts| && p < places && ReadsArcs(net, places, ts)
    requires ReadsArcs(net', places, ts[t := ts[t].(pre := ts[t].pre + [N.Arc(p, valuation)])])
    ensures var before, after := net.transitions[t], net'.transitions[t];
            && after.minus == before.minus[p := (before.minus[p] + valuation) % TOKENS]
            && after.plus == before.plus
    ensures forall u :: 0 <= u < |ts| && u != t ==> net'.transitions[u] == net.transitions[u]
  {
    OneArcMore(net.transitions[t].minus, net'.transitions[t].minus, ts[t].pre, N.Arc(p, valuation), places);
    SameVector(net.transitions[t].plus, net'.transitions[t].plus, ts[t].post, places);
    forall u | 0 <= u < |ts| && u != t ensures net'.transitions[u] == net.transitions[u] {
      SameVector(net.transitions[u].minus, net'.transitions[u].minus, ts[u].pre, places);
      SameVector(net.transitions[u].plus, net'.transitions[u].plus, ts[u].post, places);
    }
  }

  /** One arc more from t to place p: t gives that many more tokens there. */
  lemma PostRead(net: Net, net': Net, places: nat, ts: seq<N.Trans>, t: nat, p: nat, valuation: nat)
    requires t < |ts| && p < places && ReadsArcs(net, places, ts)
    requires ReadsArcs(net', places, ts[t := ts[t].(post := ts[t].post + [N.Arc(p, valuation)])])
    ensures var before, after := net.transitions[t], net'.transitions[t];
            && after.plus == before.plus[p := (before.plus[p] + valuation) % TOKENS]
            && after.minus == before.minus
    ensures forall u :: 0 <= u < |ts| && u != t ==> net'.transitions[u] == net.transitions[u]
  {
    OneArcMore(net.transitions[t].plus, net'.transitions[t].plus, ts[t].post, N.Arc(p, valuation), places);
    SameVector(net.transitions[t].minus, net'.transitions[t].minus, ts[t].pre, places);
    forall u | 0 <= u < |ts| && u != t ensures net'.transitions[u] == net.transitions[u] {
      SameVector(net.transitions[u].minus, net'.transitions[u].minus, ts[u].pre, places);
      SameVector(net.transitions[u].plus, net'.transitions[u].plus, ts[u].post, places);
    }
  }

  // ---- enabling and firing, in terms of arcs ----

  /** Every place holds the tokens that the arcs from it carry. */
  ghost predicate Affords(x: Marking, arcs: seq<N.Arc>) {
    forall p :: 0 <= p < |x| ==> TokensAt(arcs, p) <= x[p]
  }

  /** If those are 32-bit words, a transition is enabled exactly where its input arcs are afforded. */
  lemma EnabledIffAffords(net: Net, places: nat, ts: seq<N.Trans>, t: nat, x: Marking)
    requires ReadsArcs(net, places, ts) && t < |ts| && |x| == places
    requires forall p :: 0 <= p < places ==> TokensAt(ts[t].pre, p) < TOKENS
    ensures net.Enabled(x, t) <==> Affords(x, ts[t].pre)
  {
    var minus := net.transitions[t].minus;
    assert forall p :: 0 <= p < places ==> minus[p] == TokensAt(ts[t].pre, p);
  }

  /** And not otherwise: beyond, the sum wraps around and some marking that cannot afford the
      arcs enables the transition. */
  lemma EnabledRightIffWords(net: Net, places: nat, ts: seq<N.Trans>, t: nat)
    requires ReadsArcs(net, places, ts) && t < |ts|
    ensures (forall x :: x in net.Universe() ==> (net.Enabled(x, t) <==> Affords(x, ts[t].pre)))
       <==> (forall p :: 0 <= p < places ==> TokensAt(ts[t].pre, p) < TOKENS)
  {
    if p: nat :| p < places && TokensAt(ts[t].pre, p) >= TOKENS {
      var full := seq(places, _ => TOKENS - 1);
      assert full in net.Universe() && net.Enabled(full, t);
      assert full[p] < TokensAt(ts[t].pre, p);
    } else {
      forall x | x in net.Universe() ensures net.Enabled(x, t) <==> Affords(x, ts[t].pre) {
        EnabledIffAffords(net, places, ts, t, x);
      }
    }
  }

  /** Firing takes what the input arcs carry and adds what the output arcs do. */
  lemma FiredTokens(net: Net, places: nat, ts: seq<N.Trans>, t: nat, x: Marking, p: nat)
    requires ReadsArcs(net, places, ts) && t < |ts| && p < places && net.Enabled(x, t)
    ensures net.Fire(x, t)[p] == (x[p] - TokensAt(ts[t].pre, p) + TokensAt(ts[t].post, p)) % TOKENS
  {
  }

  // ---- diagrams ----

  ghost predicate Loaded(t: Forest, net: Net, relation: seq<Relation>)
    requires |relation| <= |net.transitions|
  {
    forall i :: 0 <= i < |relation| ==>
      && relation[i].minus in t && t[relation[i].minus] == Cube(net.transitions[i].minus)
      && relation[i].plus in t && t[relation[i].plus] == Cube(net.transitions[i].plus)
  }

  /** Builds the diagrams of the transition relation. */
  method LoadRelation(p: LddPackage, net: Net) returns (r: Result<seq<Relation>>)
    requires p.Valid() && net.Ok()
    modifies p.Repr()
    ensures p.Valid() && Extends(old(p.tree), p.tree)
    ensures r.TableFull? ==> p.Full()
    ensures r.Success? ==> |r.value| == |net.transitions| && Loaded(p.tree, net, r.value)
  {
    var relation: seq<Relation> := [];
    for t := 0 to |net.transitions|
      invariant p.Valid() && Extends(old(p.tree), p.tree)
      invariant |relation| == t && Loaded(p.tree, net, relation)
    {
      assert net.TransitionOk(t);
      var minus :- CubeOf(p, net.transitions[t].minus);
      var plus :- CubeOf(p, net.transitions[t].plus);
      relation := relation + [Relation(minus, plus)];
    }
    return Success(relation);
  }

  /** The construction over a net, with the handle of its initial marking. */
  method Load(p: LddPackage, net: Net, initial: Marking) returns (r: Result<(CommonSog, nat)>)
    requires p.Valid() && net.Ok() && initial in net.Universe()
    modifies p.Repr()
    ensures p.Valid() && (r.TableFull? ==> p.Full())
    ensures r.Success? ==> var (sog, m0) := r.value;
              sog.p == p && sog.net == net && sog.Ready() && sog.Is(m0) && sog.Set(m0) == {initial}
  {
    var m0 :- CubeOf(p, initial);
    var relation :- LoadRelation(p, net);
    var sog := new CommonSog(p, net, relation);
    return Success((sog, m0));
  }
}
