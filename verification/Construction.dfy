/** From a net of places, transitions and arcs to its observation graph. */
module Construction {
  import opened Ldds
  import opened LddPackages
  import opened PetriNets
  import opened SogGraphs
  import opened CommonSogs
  import opened SeqSogs
  import opened NetReading
  import N = NewNets

  /** The initial marking, place by place. */
  method ReadMarking(places: seq<N.Place>) returns (x: Marking)
    ensures |x| == |places| && forall i :: 0 <= i < |places| ==> x[i] == places[i].marking
  {
    var counts := new nat[|places|](_ => 0);
    for i := 0 to |places|
      invariant forall j :: 0 <= j < i ==> counts[j] == places[j].marking
    {
      counts[i] := places[i].marking;
    }
    return counts[..];
  }

  /** The graph that is built from x0: complete, with the language of the net, and with every
      node, edge, flag and handle as the net has them. */
  ghost predicate GraphOf(g: LddGraph, net: Net, x0: Marking, t: Forest)
    requires net.Ok()
    reads g
  {
    && g.View().Complete(net) && Reachable(net, g.sets, g.words) && g.sets[0] == net.Closure({x0})
    && g.View().SameLanguage(net, x0) && g.LoopsOk(net) && g.Stored(t, net.places)
    && Mirrored(g.successors, g.predecessors) && g.arcs == Total(g.successors)
  }

  /** Reads the net, builds its diagrams and its graph.  The words that label the paths of
      the graph are the observable parts of the firing sequences of the net. */
  method Build(n: N.NewNet, p: LddPackage) returns (r: Result<LddGraph>, net: Net, x0: Marking)
    requires n.Valid() && n.Classifies() && p.Valid() && n !in p.Repr()
    requires forall i :: 0 <= i < |n.places| ==> n.places[i].marking < TOKENS
    modifies p.Repr()
    ensures Reads(n, net) && net.Ok()
    ensures |x0| == |n.places| && forall i :: 0 <= i < |n.places| ==> x0[i] == n.places[i].marking
    ensures p.Valid() && (r.TableFull? ==> p.Full())
    ensures r.Success? ==> GraphOf(r.value, net, x0, p.tree)
  {
    net := ReadNet(n);
    x0 := ReadMarking(n.places);
    var loaded := Load(p, net, x0);
    if loaded.TableFull? { return TableFull, net, x0; }
    r := Explore(loaded.value.0, loaded.value.1, x0);
  }

  method Explore(sog: CommonSog, m0: nat, ghost x0: Marking) returns (r: Result<LddGraph>)
    requires sog.Ready() && sog.Is(m0) && sog.Set(m0) == {x0}
    modifies sog.p.Repr()
    ensures sog.Ready() && (r.TableFull? ==> sog.p.Full())
    ensures r.Success? ==> GraphOf(r.value, sog.net, x0, sog.p.tree)
  {
    sog.InUniverse(m0);
    assert x0 in sog.Set(m0);
    r := ComputeSeqSog(sog, m0, x0);
    if r.Success? { Recognises(r.value.View(), sog.net, x0); }
  }

  lemma Recognises(g: Graph, net: Net, x0: Marking)
    requires g.Complete(net) && |g.sets| > 0 && x0 in net.Universe() && g.sets[0] == net.Closure({x0})
    ensures g.SameLanguage(net, x0)
  {
    forall w ensures g.Accepts(w) <==> Observes(net, x0, w) { g.Language(net, x0, w); }
  }
}
