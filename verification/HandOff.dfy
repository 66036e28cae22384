/** Hand-off of an aggregate to another process: the sender canonises and serialises it, the
    receiver decodes the string into its own node table and closes the result. */
module HandOff {
  import opened Ldds
  import opened LddPackages
  import opened PetriNets
  import opened CommonSogs
  import opened Codec

  /** The message for a non-empty aggregate: the string of a canonical generating set. */
  method Send(sog: CommonSog, agg: nat) returns (r: Result<seq<nat>>, ghost rep: Ldd)
    requires sog.Ready() && sog.Is(agg) && agg != 0
    modifies sog.p.Repr()
    ensures sog.Ready() && Extends(old(sog.p.tree), sog.p.tree)
    ensures r.TableFull? ==> sog.p.Full()
    ensures r.Success? ==>
              Wf(rep, sog.net.places) && !rep.False? && sog.net.Canon(old(sog.Set(agg)), Den(rep))
                && r.value == Encode(rep)
  {
    ghost var s := sog.Set(agg);
    sog.InUniverse(agg);
    sog.Empty(agg);
    rep := False;
    AgreeAtZero(s);
    var reduced := sog.Canonize(agg, 0);
    if reduced.TableFull? { return TableFull, False; }
    rep := sog.p.tree[reduced.value];
    CanonNotEmpty(sog.net, s, Den(rep));
    var bytes := Serialise(sog.p, reduced.value, sog.net.places);
    return Success(bytes), rep;
  }

  lemma AgreeAtZero(s: set<Marking>)
    ensures AgreeBelow(s, 0)
  {
  }

  lemma CanonNotEmpty(net: Net, s: set<Marking>, r: set<Marking>)
    requires net.Ok() && s <= net.Universe() && s != {} && net.Canon(s, r)
    ensures r != {}
  {
    net.ClosureContains(s);
    net.ClosureEmpty();
  }

  /** The receiver rebuilds exactly the aggregate, whatever its own table holds. */
  method Receive(sog: CommonSog, bytes: seq<nat>, ghost rep: Ldd, ghost agg: set<Marking>) returns (r: Result<nat>)
    requires sog.Ready() && Wf(rep, sog.net.places) && !rep.False? && Survives(rep) && bytes == Encode(rep)
    requires agg <= sog.net.Universe() && sog.net.Image(agg) <= agg && sog.net.Canon(agg, Den(rep))
    modifies sog.p.Repr()
    ensures sog.Ready() && Extends(old(sog.p.tree), sog.p.tree)
    ensures r.TableFull? ==> sog.p.Full()
    ensures r.Success? ==> sog.Is(r.value) && sog.Set(r.value) == agg
  {
    var m :- Decoded(sog, bytes, rep);
    sog.net.ClosureOfClosed(agg);
    r := sog.AccessibleEpsilon(m);
  }

  /** The generating set in the receiver's table. */
  method Decoded(sog: CommonSog, bytes: seq<nat>, ghost rep: Ldd) returns (r: Result<nat>)
    requires sog.Ready() && Wf(rep, sog.net.places) && !rep.False? && Survives(rep) && bytes == Encode(rep)
    modifies sog.p.Repr()
    ensures sog.Ready() && Extends(old(sog.p.tree), sog.p.tree)
    ensures r.TableFull? ==> sog.p.Full()
    ensures r.Success? ==> sog.Is(r.value) && sog.Set(r.value) == Den(rep)
  {
    RoundTrip(rep, sog.net.places);
    Bytes(rep);
    r := DecodeMessage(sog.p, bytes, sog.net.places);
    forall u | 0 <= u < |sog.relation| ensures sog.RelationOk(u) { assert old(sog.RelationOk(u)); }
  }

  /** If all values of the aggregate survive their byte, and some generating set has at most
      32639 markings, the message survives. */
  lemma MessageFits(net: Net, agg: set<Marking>, rep: Ldd, g: set<Marking>)
    requires net.Ok() && agg <= net.Universe() && net.Canon(agg, Den(rep))
    requires forall x :: x in agg ==> AllCodable(x)
    requires g <= net.Universe() && net.Closure(g) == net.Closure(agg) && |g| <= 32639
    ensures Survives(rep)
  {
    net.CanonMinimal(agg, Den(rep), g);
  }

  /** The whole hand-off between two processes with tables of their own. */
  method Transfer(sender: CommonSog, receiver: CommonSog, agg: nat, ghost g: set<Marking>) returns (r: Result<nat>)
    requires sender.Ready() && receiver.Ready() && sender.net == receiver.net && sender.p.Repr() !! receiver.p.Repr()
    requires sender.Is(agg) && agg != 0 && sender.net.Image(sender.Set(agg)) <= sender.Set(agg)
    requires forall x :: x in sender.Set(agg) ==> AllCodable(x)
    requires g <= sender.net.Universe() && sender.net.Closure(g) == sender.net.Closure(sender.Set(agg)) && |g| <= 32639
    modifies sender.p.Repr(), receiver.p.Repr()
    ensures sender.Ready() && receiver.Ready()
    ensures r.TableFull? ==> sender.p.Full() || receiver.p.Full()
    ensures r.Success? ==> receiver.Is(r.value) && receiver.Set(r.value) == old(sender.Set(agg))
  {
    ghost var s := sender.Set(agg);
    sender.InUniverse(agg);
    var message, rep := Send(sender, agg);
    if message.TableFull? { return TableFull; }
    MessageFits(sender.net, s, rep, g);
    r := Receive(receiver, message.value, rep, s);
  }
}
