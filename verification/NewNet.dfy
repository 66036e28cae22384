/** The Petri net as it is built by name, and its split into observable and unobservable
    transitions for a formula that mentions transitions and places. */
module NewNets {
  import opened Ldds
  import opened PetriNets
  import opened OpCaches

  datatype Arc = Arc(node: nat, valuation: nat)

  datatype Place = Place(name: string, marking: nat, pre: seq<Arc>, post: seq<Arc>)

  datatype Trans = Trans(name: string, pre: seq<Arc>, post: seq<Arc>)

  /** An arc between a place and a transition is recorded equally often at both ends. */
  ghost predicate DualAt(places: seq<Place>, transitions: seq<Trans>, p: nat, t: nat, v: nat)
    requires p < |places| && t < |transitions|
  {
    && multiset(places[p].post)[Arc(t, v)] == multiset(transitions[t].pre)[Arc(p, v)]
    && multiset(places[p].pre)[Arc(t, v)] == multiset(transitions[t].post)[Arc(p, v)]
  }

  /** Every arc is. */
  ghost predicate Dual(places: seq<Place>, transitions: seq<Trans>) {
    forall p: nat, t: nat, v: nat {:trigger DualAt(places, transitions, p, t, v)} ::
      p < |places| && t < |transitions| ==> DualAt(places, transitions, p, t, v)
  }

  ghost predicate ArcsIn(arcs: seq<Arc>, n: nat) {
    forall a :: a in arcs ==> a.node < n
  }

  ghost predicate ArcsOk(places: seq<Place>, transitions: seq<Trans>) {
    && (forall p :: 0 <= p < |places| ==>
         ArcsIn(places[p].pre, |transitions|) && ArcsIn(places[p].post, |transitions|))
    && (forall t :: 0 <= t < |transitions| ==>
         ArcsIn(transitions[t].pre, |places|) && ArcsIn(transitions[t].post, |places|))
  }

  lemma CountOne(arcs: seq<Arc>, a: Arc, b: Arc)
    ensures multiset(arcs + [a])[b] == multiset(arcs)[b] + if a == b then 1 else 0
  {
  }

  /** Recording one more arc from a place keeps this so. */
  lemma PreRecorded(places: seq<Place>, transitions: seq<Trans>, p: nat, t: nat, valuation: nat)
    requires Dual(places, transitions) && p < |places| && t < |transitions|
    ensures var places' := places[p := places[p].(post := places[p].post + [Arc(t, valuation)])];
            var transitions' := transitions[t := transitions[t].(pre := transitions[t].pre + [Arc(p, valuation)])];
            Dual(places', transitions')
  {
    var places' := places[p := places[p].(post := places[p].post + [Arc(t, valuation)])];
    var transitions' := transitions[t := transitions[t].(pre := transitions[t].pre + [Arc(p, valuation)])];
    forall q: nat, u: nat, v: nat | q < |places| && u < |transitions|
      ensures DualAt(places', transitions', q, u, v)
    {
      assert DualAt(places, transitions, q, u, v);
      if q == p { CountOne(places[p].post, Arc(t, valuation), Arc(u, v)); }
      if u == t { CountOne(transitions[t].pre, Arc(p, valuation), Arc(q, v)); }
    }
  }

  lemma PostRecorded(places: seq<Place>, transitions: seq<Trans>, p: nat, t: nat, valuation: nat)
    requires Dual(places, transitions) && p < |places| && t < |transitions|
    ensures var places' := places[p := places[p].(pre := places[p].pre + [Arc(t, valuation)])];
            var transitions' := transitions[t := transitions[t].(post := transitions[t].post + [Arc(p, valuation)])];
            Dual(places', transitions')
  {
    var places' := places[p := places[p].(pre := places[p].pre + [Arc(t, valuation)])];
    var transitions' := transitions[t := transitions[t].(post := transitions[t].post + [Arc(p, valuation)])];
    forall q: nat, u: nat, v: nat | q < |places| && u < |transitions|
      ensures DualAt(places', transitions', q, u, v)
    {
      assert DualAt(places, transitions, q, u, v);
      if q == p { CountOne(places[p].pre, Arc(t, valuation), Arc(u, v)); }
      if u == t { CountOne(transitions[t].post, Arc(p, valuation), Arc(q, v)); }
    }
  }

  lemma StayInRange(places: seq<Place>, transitions: seq<Trans>, p: nat, place: Place, t: nat, trans: Trans)
    requires ArcsOk(places, transitions) && p < |places| && t < |transitions|
    requires ArcsIn(place.pre, |transitions|) && ArcsIn(place.post, |transitions|)
    requires ArcsIn(trans.pre, |places|) && ArcsIn(trans.post, |places|)
    ensures ArcsOk(places[p := place], transitions[t := trans])
  {
  }

  /** A new node without arcs keeps this so. */
  lemma PlaceAdded(places: seq<Place>, transitions: seq<Trans>, place: Place)
    requires Dual(places, transitions) && ArcsOk(places, transitions) && place.pre == place.post == []
    ensures Dual(places + [place], transitions)
  {
    forall p: nat, t: nat, v: nat | p < |places + [place]| && t < |transitions|
      ensures DualAt(places + [place], transitions, p, t, v)
    {
      if p < |places| { assert DualAt(places, transitions, p, t, v); }
    }
  }

  lemma TransAdded(places: seq<Place>, transitions: seq<Trans>, trans: Trans)
    requires Dual(places, transitions) && ArcsOk(places, transitions) && trans.pre == trans.post == []
    ensures Dual(places, transitions + [trans])
  {
    forall p: nat, t: nat, v: nat | p < |places| && t < |transitions + [trans]|
      ensures DualAt(places, transitions + [trans], p, t, v)
    {
      if t < |transitions| { assert DualAt(places, transitions, p, t, v); }
    }
  }

  class NewNet {
    var places: seq<Place>
    var transitions: seq<Trans>
    var placeNames: map<string, nat>
    var transNames: map<string, nat>
    var observable: set<nat>
    var nonObservable: set<nat>
    var formulaTrans: set<nat>
    var formulaPlaces: set<nat>

    /** The name tables give the positions in the vectors. */
    ghost predicate Named()
      reads `places, `transitions, `placeNames, `transNames
    {
      && (forall n :: n in placeNames ==> placeNames[n] < |places| && places[placeNames[n]].name == n)
      && (forall n :: n in transNames ==> transNames[n] < |transitions| && transitions[transNames[n]].name == n)
      && (forall i :: 0 <= i < |places| ==> places[i].name in placeNames && placeNames[places[i].name] == i)
      && (forall i :: 0 <= i < |transitions| ==>
           transitions[i].name in transNames && transNames[transitions[i].name] == i)
    }

    ghost predicate Valid()
      reads `places, `transitions, `placeNames, `transNames
    {
      Named() && Dual(places, transitions) && ArcsOk(places, transitions)
    }

    constructor ()
      ensures Valid() && places == [] && transitions == []
      ensures observable == {} && nonObservable == {} && formulaPlaces == {}
      ensures formulaTrans == {}
    {
      places, transitions, placeNames, transNames := [], [], map[], map[];
      observable, nonObservable, formulaTrans, formulaPlaces := {}, {}, {}, {};
    }

    /** Adds a place; refused if the name is taken. */
    method AddPlace(name: string, marking: nat) returns (added: bool)
      requires Valid()
      modifies this`places, this`placeNames
      ensures Valid() && added == (name !in old(placeNames))
      ensures places == if added then old(places) + [Place(name, marking, [], [])] else old(places)
    {
      if name in placeNames { return false; }
      PlaceAdded(places, transitions, Place(name, marking, [], []));
      placeNames := placeNames[name := |places|];
      places := places + [Place(name, marking, [], [])];
      return true;
    }

    method AddTrans(name: string) returns (added: bool)
      requires Valid()
      modifies this`transitions, this`transNames
      ensures Valid() && added == (name !in old(transNames))
      ensures transitions == if added then old(transitions) + [Trans(name, [], [])] else old(transitions)
    {
      if name in transNames { return false; }
      TransAdded(places, transitions, Trans(name, [], []));
      transNames := transNames[name := |transitions|];
      transitions := transitions + [Trans(name, [], [])];
      return true;
    }

    /** Adds an arc from a place to a transition, at both ends. */
    method AddPre(place: string, trans: string, valuation: nat) returns (added: bool)
      requires Valid()
      modifies this`places, this`transitions
      ensures Valid() && added == (place in placeNames && trans in transNames)
      ensures added ==> var p, t := placeNames[place], transNames[trans];
                && transitions == old(transitions)[t := Trans(trans,
                     old(transitions)[t].pre + [Arc(p, valuation)], old(transitions)[t].post)]
                && places == old(places)[p := Place(place, old(places)[p].marking,
                     old(places)[p].pre, old(places)[p].post + [Arc(t, valuation)])]
      ensures added ==> var p, t := placeNames[place], transNames[trans];
                && multiset(transitions[t].pre) == multiset(old(transitions)[t].pre) + multiset{Arc(p, valuation)}
                && multiset(places[p].post) == multiset(old(places)[p].post) + multiset{Arc(t, valuation)}
      ensures !added ==> places == old(places) && transitions == old(transitions)
    {
      if place !in placeNames { return false; }
      if trans !in transNames { return false; }
      var p, t := placeNames[place], transNames[trans];
      var place' := places[p].(post := places[p].post + [Arc(t, valuation)]);
      var trans' := transitions[t].(pre := transitions[t].pre + [Arc(p, valuation)]);
      PreRecorded(places, transitions, p, t, valuation);
      StayInRange(places, transitions, p, place', t, trans');
      transitions := transitions[t := trans'];
      places := places[p := place'];
      return true;
    }

    /** Adds an arc from a transition to a place, at both ends. */
    method AddPost(place: string, trans: string, valuation: nat) returns (added: bool)
      requires Valid()
      modifies this`places, this`transitions
      ensures Valid() && added == (place in placeNames && trans in transNames)
      ensures added ==> var p, t := placeNames[place], transNames[trans];
                && transitions == old(transitions)[t := Trans(trans,
                     old(transitions)[t].pre, old(transitions)[t].post + [Arc(p, valuation)])]
                && places == old(places)[p := Place(place, old(places)[p].marking,
                     old(places)[p].pre + [Arc(t, valuation)], old(places)[p].post)]
      ensures added ==> var p, t := placeNames[place], transNames[trans];
                && multiset(transitions[t].post) == multiset(old(transitions)[t].post) + multiset{Arc(p, valuation)}
                && multiset(places[p].pre) == multiset(old(places)[p].pre) + multiset{Arc(t, valuation)}
      ensures !added ==> places == old(places) && transitions == old(transitions)
    {
      if place !in placeNames { return false; }
      if trans !in transNames { return false; }
      var p, t := placeNames[place], transNames[trans];
      var place' := places[p].(pre := places[p].pre + [Arc(t, valuation)]);
      var trans' := transitions[t].(post := transitions[t].post + [Arc(p, valuation)]);
      PostRecorded(places, transitions, p, t, valuation);
      StayInRange(places, transitions, p, place', t, trans');
      transitions := transitions[t := trans'];
      places := places[p := place'];
      return true;
    }

    // ---- observability ----

    /** Position of a transition name, by searching the vector. */
    method PosTrans(name: string) returns (pos: Option<nat>)
      requires Valid()
      ensures pos == if name in transNames then Some(transNames[name]) else None
    {
      for i := 0 to |transitions|
        invariant forall k :: 0 <= k < i ==> transitions[k].name != name
      {
        if transitions[i].name == name { return Some(i); }
      }
      return None;
    }

    /** Transitions with an arc from or to place p. */
    function Adjacent(p: nat): set<nat>
      requires p < |places|
      reads `places
    {
      (set a | a in places[p].post :: a.node) + (set a | a in places[p].pre :: a.node)
    }

    /** The name makes transition t observable: t bears it, or is adjacent to the place that does. */
    ghost predicate TouchedBy(n: string, t: nat)
      requires Valid()
      reads `places, `transitions, `placeNames, `transNames
    {
      if n in transNames then transNames[n] == t else n in placeNames && t in Adjacent(placeNames[n])
    }

    /** Transitions that a formula over the given names makes observable. */
    ghost predicate Touched(names: seq<string>, t: nat)
      requires Valid()
      reads `places, `transitions, `placeNames, `transNames
    {
      exists n :: n in names && TouchedBy(n, t)
    }

    /** The name is that of place p, and not that of a transition. */
    ghost predicate Means(n: string, p: nat)
      reads `placeNames, `transNames
    {
      n !in transNames && n in placeNames && placeNames[n] == p
    }

    /** Places that a formula over the given names mentions. */
    ghost predicate Mentioned(names: seq<string>, p: nat)
      reads `placeNames, `transNames
    {
      exists n :: n in names && Means(n, p)
    }

    lemma OneMore(names: seq<string>, i: nat, x: nat)
      requires Valid() && i < |names|
      ensures Touched(names[..i + 1], x) <==> Touched(names[..i], x) || TouchedBy(names[i], x)
      ensures Mentioned(names[..i + 1], x) <==> Mentioned(names[..i], x) || Means(names[i], x)
    {
      assert forall m :: m in names[..i + 1] <==> m in names[..i] || m == names[i];
    }

    /** A transition becomes observable itself; a place, its adjacent transitions. */
    method ObserveName(n: string)
      requires Valid() && (n in transNames || n in placeNames)
      modifies this`observable, this`formulaTrans, this`formulaPlaces
      ensures forall t: nat :: t in observable <==> t in old(observable) || TouchedBy(n, t)
      ensures forall p: nat :: p in formulaPlaces <==> p in old(formulaPlaces) || Means(n, p)
      ensures formulaTrans <= old(formulaTrans) + observable
    {
      var pos := PosTrans(n);
      match pos
      case None =>
        var p := placeNames[n];
        formulaPlaces := formulaPlaces + {p};
        observable := observable + Adjacent(p);
      case Some(t) =>
        formulaTrans := formulaTrans + {t};
        observable := observable + {t};
    }

    /** Makes observable the transitions named, and those adjacent to a place named. */
    method SetListObservable(names: seq<string>)
      requires Valid() && forall n :: n in names ==> n in transNames || n in placeNames
      modifies this`observable, this`formulaTrans, this`formulaPlaces
      ensures Valid()
      ensures forall t: nat :: t in observable <==> Touched(names, t)
      ensures forall p: nat :: p in formulaPlaces <==> p in old(formulaPlaces) || Mentioned(names, p)
      ensures formulaTrans <= old(formulaTrans) + observable
    {
      observable := {};
      for i := 0 to |names|
        invariant forall t: nat :: t in observable <==> Touched(names[..i], t)
        invariant forall p: nat :: p in formulaPlaces <==> p in old(formulaPlaces) || Mentioned(names[..i], p)
        invariant formulaTrans <= old(formulaTrans) + observable
      {
        forall x: nat ensures Touched(names[..i + 1], x) <==> Touched(names[..i], x) || TouchedBy(names[i], x)
                      ensures Mentioned(names[..i + 1], x) <==> Mentioned(names[..i], x) || Means(names[i], x) {
          OneMore(names, i, x);
        }
        ObserveName(names[i]);
      }
      assert names[..|names|] == names;
    }

    method SetNonObservables()
      modifies this`nonObservable
      ensures forall t: nat :: t in nonObservable <==> t < |transitions| && t !in observable
    {
      nonObservable := {};
      for i := 0 to |transitions|
        invariant forall t: nat :: t in nonObservable <==> t < i && t !in observable
      {
        if i !in observable { nonObservable := nonObservable + {i}; }
      }
    }

    method ObserveAll()
      modifies this`observable
      ensures forall t: nat :: t in observable <==> t in old(observable) || t < |transitions|
    {
      for i := 0 to |transitions|
        invariant forall t: nat :: t in observable <==> t in old(observable) || t < i
      {
        observable := observable + {i};
      }
    }

    /** The split for a formula; without a formula everything is observable. */
    method Observe(names: seq<string>)
      requires Valid() && observable == nonObservable == formulaTrans == formulaPlaces == {}
      requires forall n :: n in names ==> n in transNames || n in placeNames
      modifies this`observable, this`nonObservable, this`formulaTrans, this`formulaPlaces
      ensures Valid() && Classifies() && Split()
      ensures forall t: nat :: t in observable <==> t < |transitions| && (names == [] || Touched(names, t))
      ensures forall p: nat :: p in formulaPlaces <==> Mentioned(names, p)
    {
      TouchedInRange(names);
      if names != [] {
        SetListObservable(names);
        observable := observable + formulaTrans;
        SetNonObservables();
        HiddenApart(names);
      } else {
        ObserveAll();
        assert nonObservable == {};
      }
    }

    lemma TouchedInRange(names: seq<string>)
      requires Valid()
      ensures forall t: nat :: Touched(names, t) ==> t < |transitions|
    {
    }

    /** Every transition is observable or unobservable, not both. */
    ghost predicate Classifies()
      reads `transitions, `observable, `nonObservable
    {
      forall t: nat :: (t in nonObservable <==> t < |transitions| && t !in observable)
        && (t in observable ==> t < |transitions|)
    }

    /** No unobservable transition has an arc to or from a formula place. */
    ghost predicate Split()
      reads `transitions, `nonObservable, `formulaPlaces
    {
      forall t: nat, a {:trigger t in nonObservable, a in transitions[t].pre}
        {:trigger t in nonObservable, a in transitions[t].post} ::
        t in nonObservable && t < |transitions| && (a in transitions[t].pre || a in transitions[t].post) ==>
          a.node !in formulaPlaces
    }

    /** A transition with an arc at a place mentioned is touched: its arc is recorded at the place too. */
    lemma NearPlace(names: seq<string>, t: nat, a: Arc)
      requires Valid() && t < |transitions| && (a in transitions[t].pre || a in transitions[t].post)
      ensures Mentioned(names, a.node) ==> Touched(names, t)
    {
      if Mentioned(names, a.node) {
        var n :| n in names && Means(n, a.node);
        assert DualAt(places, transitions, a.node, t, a.valuation) && a == Arc(a.node, a.valuation);
        var b := Arc(t, a.valuation);
        assert b in places[a.node].post || b in places[a.node].pre;
        assert t in Adjacent(a.node);
        assert TouchedBy(n, t);
      }
    }

    lemma HiddenApart(names: seq<string>)
      requires Valid() && forall p: nat :: p in formulaPlaces <==> Mentioned(names, p)
      requires forall t: nat :: t in nonObservable ==> !Touched(names, t)
      ensures Split()
    {
      forall t: nat, a | t in nonObservable && t < |transitions|
        && (a in transitions[t].pre || a in transitions[t].post)
        ensures a.node !in formulaPlaces
      {
        NearPlace(names, t, a);
      }
    }
  }
}
