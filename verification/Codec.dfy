/** The string form of a set of markings, exchanged between processes: a two-byte count and
    one byte for each component of each marking.  Bytes are numbers below 256. */
module Codec {
  import opened Words
  import opened Ldds
  import opened LddPackages
  import opened LddOps

  // ---- markings in order ----

  function Prefixed(v: nat, ms: seq<Marking>): (r: seq<Marking>)
    ensures |r| == |ms| && forall i :: 0 <= i < |r| ==> r[i] == [v] + ms[i]
  {
    seq(|ms|, i requires 0 <= i < |ms| => [v] + ms[i])
  }

  /** The markings of a diagram, along its paths from left to right. */
  function List(l: Ldd): seq<Marking> {
    match l
    case False => []
    case True => [[]]
    case Node(v, d, r) => Prefixed(v, List(d)) + List(r)
  }

  /** Strict lexicographic order. */
  predicate Less(x: Marking, y: Marking) {
    x != [] && y != [] && (x[0] < y[0] || (x[0] == y[0] && Less(x[1..], y[1..])))
  }

  lemma {:induction false} ListMembers(l: Ldd, x: Marking)
    ensures x in List(l) <==> Has(l, x)
  {
    match l
    case Node(v, d, r) =>
      ListMembers(r, x);
      if x != [] && x[0] == v {
        ListMembers(d, x[1..]);
        assert x == [v] + x[1..];
        if x[1..] in List(d) {
          var i :| 0 <= i < |List(d)| && List(d)[i] == x[1..];
          assert Prefixed(v, List(d))[i] == x;
        }
      }
      if x in Prefixed(v, List(d)) {
        var i :| 0 <= i < |List(d)| && Prefixed(v, List(d))[i] == x;
        assert x[1..] == List(d)[i];
      }
    case _ =>
  }

  /** The list is in strictly increasing order, hence without repetition. */
  lemma {:induction false} ListSorted(l: Ldd, depth: nat, i: nat, j: nat)
    requires Wf(l, depth) && i < j < |List(l)|
    ensures Less(List(l)[i], List(l)[j])
  {
    if l.Node? {
      var n := |List(l.down)|;
      var x, y := List(l)[i], List(l)[j];
      if j < n {
        ListSorted(l.down, depth - 1, i, j);
        assert x[1..] == List(l.down)[i] && y[1..] == List(l.down)[j];
      } else if i < n {
        ListMembers(l.right, y);
        HasHead(l, depth, y);
      } else {
        ListSorted(l.right, depth, i - n, j - n);
      }
    }
  }

  lemma {:induction false} LessIrreflexive(x: Marking)
    ensures !Less(x, x)
  {
    if x != [] { LessIrreflexive(x[1..]); }
  }

  /** Every marking once: as many list elements as markings. */
  lemma ListCounts(l: Ldd, depth: nat)
    requires Wf(l, depth)
    ensures (set m | m in List(l)) == Den(l) && |List(l)| == |Den(l)|
  {
    forall x ensures x in List(l) <==> x in Den(l) { ListMembers(l, x); }
    forall i, j | 0 <= i < j < |List(l)| ensures List(l)[i] != List(l)[j] {
      ListSorted(l, depth, i, j);
      LessIrreflexive(List(l)[i]);
    }
    DistinctCount(List(l));
  }

  // ---- bytes ----

  /** The low byte of the value plus one, as an unsigned char. */
  function EncodeByte(v: nat): nat { (v % 256 + 1) % 256 }

  /** A byte minus one, converted to 32 bits. */
  function DecodeByte(b: nat): nat { if b == 0 then TOKENS - 1 else b - 1 }

  /** Values that survive: up to 254, and the largest 32-bit word. */
  predicate Codable(v: nat) { v <= 254 || v == TOKENS - 1 }

  lemma ByteRoundTrip(v: nat)
    requires v < TOKENS
    ensures DecodeByte(EncodeByte(v)) == v <==> Codable(v)
    ensures EncodeByte(v) == 0 <==> v % 256 == 255
    ensures Codable(DecodeByte(EncodeByte(v)))
  {
  }

  function EncodeMarking(x: Marking): seq<nat> {
    seq(|x|, i requires 0 <= i < |x| => EncodeByte(x[i]))
  }

  function DecodeMarking(bytes: seq<nat>): (x: Marking)
    ensures |x| == |bytes|
  {
    seq(|bytes|, i requires 0 <= i < |bytes| => DecodeByte(bytes[i]))
  }

  /** The 32-bit counter, shifted and tagged, split in two bytes. */
  function Header(count: nat): seq<nat> {
    var c := (2 * (count % TOKENS) + 1) % TOKENS;
    [c % 256, (c / 256 + 1) % 256]
  }

  function HeaderCount(b0: nat, b1: nat): nat {
    if b1 == 0 then TOKENS - 128 + b0 / 2 else (b1 - 1) * 128 + b0 / 2
  }

  /** Counts that survive: up to 32639, and, as 32-bit arithmetic wraps, the 128 largest words. */
  predicate CountCodable(n: nat) { n <= 32639 || TOKENS - 128 <= n < TOKENS }

  lemma HeaderRoundTrip(count: nat)
    ensures HeaderCount(Header(count)[0], Header(count)[1]) == count <==> CountCodable(count)
    ensures Header(count)[0] != 0
    ensures count <= 32639 ==> Header(count)[1] != 0
  {
    var m := count % TOKENS;
    var q, r := m / 128, m % 128;
    assert m == 128 * q + r;
    HeaderBytes(count, q, r);
    BackFromBytes(q, r);
  }

  /** The header of the count 128q + r. */
  lemma HeaderBytes(count: nat, q: nat, r: nat)
    requires r < 128 && count % TOKENS == 128 * q + r
    ensures Header(count) == [2 * r + 1, (q + 1) % 256]
  {
    var m := 128 * q + r;
    Shifted(m);
    if m < 0x8000_0000 {
      WordBytes(count, q, r);
    } else {
      WordBytes(count, q - 0x100_0000, r);
      WholeTurns(q - 0x100_0000 + 1, 0x1_0000);
    }
  }

  lemma Shifted(m: nat)
    requires m < TOKENS
    ensures (2 * m + 1) % TOKENS == if m < 0x8000_0000 then 2 * m + 1 else 2 * m + 1 - TOKENS
  {
  }

  lemma WordBytes(count: nat, q: nat, r: nat)
    requires r < 128 && (2 * (count % TOKENS) + 1) % TOKENS == 256 * q + 2 * r + 1
    ensures Header(count) == [2 * r + 1, (q + 1) % 256]
  {
    TwoBytes(q, r);
  }

  lemma TwoBytes(q: nat, r: nat)
    requires r < 128
    ensures (256 * q + 2 * r + 1) % 256 == 2 * r + 1 && (256 * q + 2 * r + 1) / 256 == q
  {
  }

  lemma WholeTurns(x: nat, n: nat)
    ensures (x + 256 * n) % 256 == x % 256
  {
  }

  lemma BackFromBytes(q: nat, r: nat)
    requires r < 128 && 128 * q + r < TOKENS
    ensures HeaderCount(2 * r + 1, (q + 1) % 256) == 128 * q + r <==> CountCodable(128 * q + r)
    ensures 128 * q + r <= 32639 ==> (q + 1) % 256 != 0
  {
    assert (2 * r + 1) / 2 == r;
    if q <= 254 { assert (q + 1) % 256 == q + 1; }
  }

  /** The bytes of all markings, one after the other. */
  function Body(ms: seq<Marking>): seq<nat> {
    if ms == [] then [] else EncodeMarking(ms[0]) + Body(ms[1..])
  }

  /** What the serialiser writes for a diagram; the empty one counts for one marking. */
  function Encode(l: Ldd): seq<nat> {
    Header(if l.False? then 1 else |List(l)|) + Body(List(l))
  }

  /** The string holds n groups of bytes. */
  predicate Enough(bytes: seq<nat>, places: nat, n: nat)
    decreases n
  {
    n == 0 || (|bytes| >= places && Enough(bytes[places..], places, n - 1))
  }

  /** The first n markings spelled by a string. */
  function Parse(bytes: seq<nat>, places: nat, n: nat): (r: seq<Marking>)
    requires Enough(bytes, places, n)
    ensures |r| == n
    decreases n
  {
    if n == 0 then [] else [DecodeMarking(bytes[..places])] + Parse(bytes[places..], places, n - 1)
  }

  /** The string announces no more markings than it holds. */
  predicate Decodable(bytes: seq<nat>, places: nat) {
    |bytes| >= 2 && Enough(bytes[2..], places, HeaderCount(bytes[0], bytes[1]))
  }

  function Decode(bytes: seq<nat>, places: nat): seq<Marking>
    requires Decodable(bytes, places)
  {
    Parse(bytes[2..], places, HeaderCount(bytes[0], bytes[1]))
  }

  // ---- round trip ----

  predicate SameLength(ms: seq<Marking>, places: nat) {
    forall i :: 0 <= i < |ms| ==> |ms[i]| == places
  }

  function Recoded(x: Marking): Marking { DecodeMarking(EncodeMarking(x)) }

  lemma BodyParts(ms: seq<Marking>, places: nat)
    requires ms != [] && SameLength(ms, places)
    ensures |Body(ms)| >= places && Body(ms)[..places] == EncodeMarking(ms[0]) && Body(ms)[places..] == Body(ms[1..])
    ensures SameLength(ms[1..], places)
  {
  }

  lemma {:induction false} ParseBody(ms: seq<Marking>, places: nat, n: nat)
    requires SameLength(ms, places) && n <= |ms|
    ensures Enough(Body(ms), places, n)
    ensures forall i :: 0 <= i < n ==> Parse(Body(ms), places, n)[i] == Recoded(ms[i])
    decreases n
  {
    if n > 0 {
      BodyParts(ms, places);
      ParseBody(ms[1..], places, n - 1);
    }
  }

  lemma {:induction false} NoMoreThan(ms: seq<Marking>, places: nat, n: nat)
    requires SameLength(ms, places) && places > 0 && Enough(Body(ms), places, n)
    ensures n <= |ms|
    decreases n
  {
    if n > 0 && ms != [] {
      BodyParts(ms, places);
      NoMoreThan(ms[1..], places, n - 1);
    }
  }

  predicate AllCodable(x: Marking) {
    forall i :: 0 <= i < |x| ==> Codable(x[i])
  }

  lemma MarkingRoundTrip(x: Marking)
    requires InRange(x)
    ensures Recoded(x) == x <==> AllCodable(x)
    ensures AllCodable(Recoded(x))
  {
    forall i | 0 <= i < |x| ensures (Recoded(x)[i] == x[i] <==> Codable(x[i])) && Codable(Recoded(x)[i]) {
      ByteRoundTrip(x[i]);
    }
    if AllCodable(x) { assert Recoded(x) == x; }
  }

  ghost function SetOf(ms: seq<Marking>): set<Marking> { set m | m in ms }

  lemma {:induction false} AtMost(ms: seq<Marking>)
    ensures |SetOf(ms)| <= |ms|
  {
    if ms != [] {
      AtMost(ms[1..]);
      assert SetOf(ms) == SetOf(ms[1..]) + {ms[0]};
    }
  }

  lemma ListLengths(l: Ldd, depth: nat)
    requires Wf(l, depth)
    ensures SameLength(List(l), depth) && forall x :: x in List(l) ==> InRange(x)
  {
    forall i | 0 <= i < |List(l)| ensures |List(l)[i]| == depth && InRange(List(l)[i]) {
      ListMembers(l, List(l)[i]);
      HasLength(l, depth, List(l)[i]);
    }
  }

  lemma EncodeParts(l: Ldd)
    ensures |Encode(l)| >= 2 && Encode(l)[2..] == Body(List(l))
    ensures Encode(l)[..2] == Header(if l.False? then 1 else |List(l)|)
  {
  }

  /** The count of the markings survives the header, and each value its byte. */
  ghost predicate Survives(l: Ldd) {
    CountCodable(|Den(l)|) && forall x :: x in Den(l) ==> AllCodable(x)
  }

  /** The string can be decoded, to the set it was made from, exactly when the count and every
      value survive. */
  lemma RoundTrip(l: Ldd, places: nat)
    requires Wf(l, places) && !l.False?
    ensures Decodable(Encode(l), places) && SetOf(Decode(Encode(l), places)) == Den(l) <==> Survives(l)
  {
    var ms, bytes := List(l), Encode(l);
    EncodeParts(l);
    ListLengths(l, places);
    ListCounts(l, places);
    var n := HeaderCount(bytes[0], bytes[1]);
    assert bytes[0] == Header(|ms|)[0] && bytes[1] == Header(|ms|)[1];
    HeaderRoundTrip(|ms|);
    if CountCodable(|ms|) { ParseBody(ms, places, |ms|); }
    if Decodable(bytes, places) {
      if places == 0 { TrueList(l); } else { NoMoreThan(ms, places, n); }
      ParseBody(ms, places, n);
      var out := Decode(bytes, places);
      AtMost(out);
      if n == |ms| { ListRoundTrip(l, places, out); }
    }
  }

  lemma TrueList(l: Ldd)
    requires Wf(l, 0) && !l.False?
    ensures List(l) == [[]] && CountCodable(1)
  {
  }

  lemma ListRoundTrip(l: Ldd, places: nat, out: seq<Marking>)
    requires Wf(l, places) && |out| == |List(l)| && forall i :: 0 <= i < |out| ==> out[i] == Recoded(List(l)[i])
    ensures SetOf(out) == Den(l) <==> forall x :: x in Den(l) ==> AllCodable(x)
  {
    var ms := List(l);
    ListLengths(l, places);
    ListCounts(l, places);
    assert forall x :: x in Den(l) <==> x in ms by { forall x ensures x in Den(l) <==> x in ms { ListMembers(l, x); } }
    forall i | 0 <= i < |ms| ensures (out[i] == ms[i] <==> AllCodable(ms[i])) && AllCodable(out[i]) {
      assert ms[i] in ms;
      MarkingRoundTrip(ms[i]);
    }
    if forall x :: x in Den(l) ==> AllCodable(x) {
      forall i | 0 <= i < |ms| ensures out[i] == ms[i] { assert ms[i] in ms; }
      assert out == ms;
    } else {
      var x :| x in Den(l) && !AllCodable(x);
      assert x !in out;
    }
  }

  /** What the program promises: up to 254 tokens in a place, up to 32639 markings. */
  ghost predicate Small(l: Ldd) {
    |Den(l)| <= 32639 && forall x, i :: x in Den(l) && 0 <= i < |x| ==> x[i] <= 254
  }

  lemma SmallRoundTrip(l: Ldd, places: nat)
    requires Wf(l, places) && !l.False? && Small(l)
    ensures Decodable(Encode(l), places) && SetOf(Decode(Encode(l), places)) == Den(l)
  {
    forall x | x in Den(l) ensures AllCodable(x) {}
    RoundTrip(l, places);
  }

  /** Equal strings mean equal sets, whichever node tables the diagrams come from. */
  lemma EncodeInjective(l: Ldd, l': Ldd, places: nat)
    requires Wf(l, places) && Wf(l', places) && !l.False? && !l'.False? && Small(l) && Small(l')
    ensures Encode(l) == Encode(l') <==> Den(l) == Den(l')
  {
    SmallRoundTrip(l, places);
    SmallRoundTrip(l', places);
    if Den(l) == Den(l') { Canonical(l, l', places); }
  }

  lemma {:induction false} BodyNoZero(ms: seq<Marking>)
    requires forall x, i :: x in ms && 0 <= i < |x| ==> x[i] <= 254
    ensures forall k :: 0 <= k < |Body(ms)| ==> 0 < Body(ms)[k] < 256
  {
    if ms != [] {
      assert ms[0] in ms;
      BodyNoZero(ms[1..]);
    }
  }

  lemma {:induction false} BodyBytes(ms: seq<Marking>)
    ensures forall k :: 0 <= k < |Body(ms)| ==> Body(ms)[k] < 256
  {
    if ms != [] { BodyBytes(ms[1..]); }
  }

  lemma Bytes(l: Ldd)
    ensures forall k :: 0 <= k < |Encode(l)| ==> Encode(l)[k] < 256
  {
    BodyBytes(List(l));
    EncodeParts(l);
  }

  /** A string of bytes with no zero byte. */
  lemma NoZeroByte(l: Ldd, places: nat)
    requires Wf(l, places) && Small(l)
    ensures forall k :: 0 <= k < |Encode(l)| ==> 0 < Encode(l)[k] < 256
  {
    ListCounts(l, places);
    forall x | x in List(l) ensures x in Den(l) { ListMembers(l, x); }
    BodyNoZero(List(l));
    HeaderRoundTrip(if l.False? then 1 else |List(l)|);
    EncodeParts(l);
  }

  // ---- the serialiser ----

  /** Bytes of all markings of l, each after the same prefix. */
  function Rest(chain: seq<nat>, l: Ldd): seq<nat>
    decreases l
  {
    match l
    case False => []
    case True => chain
    case Node(v, d, r) => Rest(chain + [EncodeByte(v)], d) + Rest(chain, r)
  }

  function Glue(chain: seq<nat>, ms: seq<Marking>): seq<nat> {
    if ms == [] then [] else chain + EncodeMarking(ms[0]) + Glue(chain, ms[1..])
  }

  lemma {:induction false} GlueConcat(chain: seq<nat>, ms: seq<Marking>, ms': seq<Marking>)
    ensures Glue(chain, ms + ms') == Glue(chain, ms) + Glue(chain, ms')
  {
    if ms == [] {
      assert ms + ms' == ms';
    } else {
      GlueConcat(chain, ms[1..], ms');
      assert (ms + ms')[1..] == ms[1..] + ms';
    }
  }

  lemma {:induction false} GluePrefixed(chain: seq<nat>, v: nat, ms: seq<Marking>)
    ensures Glue(chain, Prefixed(v, ms)) == Glue(chain + [EncodeByte(v)], ms)
  {
    if ms != [] {
      GluePrefixed(chain, v, ms[1..]);
      assert Prefixed(v, ms)[1..] == Prefixed(v, ms[1..]);
      assert EncodeMarking([v] + ms[0]) == [EncodeByte(v)] + EncodeMarking(ms[0]);
      assert chain + ([EncodeByte(v)] + EncodeMarking(ms[0])) == chain + [EncodeByte(v)] + EncodeMarking(ms[0]);
    }
  }

  lemma {:induction false} RestList(chain: seq<nat>, l: Ldd)
    ensures Rest(chain, l) == Glue(chain, List(l))
    decreases l
  {
    match l
    case False =>
    case True =>
      var one: seq<Marking> := [[]];
      assert one[1..] == [] && EncodeMarking([]) == [];
      assert chain + EncodeMarking([]) + Glue(chain, one[1..]) == chain;
    case Node(v, d, r) =>
      RestList(chain + [EncodeByte(v)], d);
      RestList(chain, r);
      GluePrefixed(chain, v, List(d));
      GlueConcat(chain, Prefixed(v, List(d)), List(r));
  }

  lemma {:induction false} GlueBody(ms: seq<Marking>)
    ensures Glue([], ms) == Body(ms)
  {
    if ms != [] {
      GlueBody(ms[1..]);
      assert [] + EncodeMarking(ms[0]) == EncodeMarking(ms[0]);
    }
  }

  /** A path prefix and the node it leads to. */
  datatype Pending = Pending(chain: seq<nat>, node: nat)

  /** Loop turns spent on a diagram: one a marking, and one for the empty diagram. */
  function Turns(l: Ldd): nat { if l.False? then 1 else |List(l)| }

  /** e leads to a well-formed diagram, which is empty only at the very start. */
  ghost predicate EntryOk(t: Forest, e: Pending) {
    e.node in t && (e.node == 0 ==> e.chain == []) && exists d :: Wf(t[e.node], d)
  }

  ghost predicate InForest(t: Forest, stack: seq<Pending>) {
    forall e {:trigger EntryOk(t, e)} {:trigger e in stack} :: e in stack ==> EntryOk(t, e)
  }

  ghost function PendingBytes(t: Forest, stack: seq<Pending>): seq<nat>
    requires InForest(t, stack)
  {
    if stack == [] then [] else
      var e := stack[|stack| - 1];
      assert e in stack;
      Rest(e.chain, t[e.node]) + PendingBytes(t, stack[..|stack| - 1])
  }

  ghost function PendingTurns(t: Forest, stack: seq<Pending>): nat
    requires InForest(t, stack)
  {
    if stack == [] then 0 else
      var e := stack[|stack| - 1];
      assert e in stack;
      Turns(t[e.node]) + PendingTurns(t, stack[..|stack| - 1])
  }

  /** Nodes still to be visited, and one for each entry. */
  ghost function PendingSize(t: Forest, stack: seq<Pending>): nat
    requires InForest(t, stack)
  {
    if stack == [] then 0 else
      var e := stack[|stack| - 1];
      assert e in stack;
      1 + Size(t[e.node]) + PendingSize(t, stack[..|stack| - 1])
  }

  lemma Pushed(t: Forest, stack: seq<Pending>, e: Pending)
    requires InForest(t, stack) && EntryOk(t, e)
    ensures InForest(t, stack + [e])
    ensures PendingBytes(t, stack + [e]) == Rest(e.chain, t[e.node]) + PendingBytes(t, stack)
    ensures PendingTurns(t, stack + [e]) == Turns(t[e.node]) + PendingTurns(t, stack)
    ensures PendingSize(t, stack + [e]) == 1 + Size(t[e.node]) + PendingSize(t, stack)
  {
    assert (stack + [e])[..|stack|] == stack;
  }

  lemma TopEntry(t: Forest, stack: seq<Pending>)
    requires InForest(t, stack) && stack != []
    ensures EntryOk(t, stack[|stack| - 1]) && InForest(t, stack[..|stack| - 1])
  {
    assert stack[|stack| - 1] in stack;
    forall x | x in stack[..|stack| - 1] ensures EntryOk(t, x) { assert x in stack; }
  }

  lemma OneEntry(t: Forest, e: Pending)
    requires EntryOk(t, e)
    ensures InForest(t, [e])
    ensures PendingBytes(t, [e]) == Rest(e.chain, t[e.node]) && PendingTurns(t, [e]) == Turns(t[e.node])
  {
    assert [] + [e] == [e];
    Pushed(t, [], e);
    assert Rest(e.chain, t[e.node]) + [] == Rest(e.chain, t[e.node]);
  }

  /** One node down: its right sibling, if any, is what remains of it. */
  lemma NodeDown(t: Forest, stack: seq<Pending>, chain: seq<nat>, l: Ldd, right: nat, depth: nat)
    requires InForest(t, stack) && l.Node? && Wf(l, depth) && right in t
    requires t[right] == l.right && (right == 0 <==> l.right == False)
    ensures var stack' := if right != 0 then stack + [Pending(chain, right)] else stack;
            && InForest(t, stack')
            && Rest(chain + [EncodeByte(l.value)], l.down) + PendingBytes(t, stack') ==
                 Rest(chain, l) + PendingBytes(t, stack)
            && Turns(l.down) + PendingTurns(t, stack') == Turns(l) + PendingTurns(t, stack)
            && Size(l.down) + PendingSize(t, stack') <= Size(l) + PendingSize(t, stack)
  {
    assert List(l) == Prefixed(l.value, List(l.down)) + List(l.right);
    if right != 0 {
      assert EntryOk(t, Pending(chain, right));
      Pushed(t, stack, Pending(chain, right));
    }
  }

  /** Goes down the leftmost path, leaving the right siblings on the stack. */
  method Descend(p: LddPackage, e: Pending, stack: seq<Pending>) returns (chain: seq<nat>, stack': seq<Pending>)
    requires p.Valid() && EntryOk(p.tree, e) && InForest(p.tree, stack)
    ensures InForest(p.tree, stack')
    ensures chain + PendingBytes(p.tree, stack') == Rest(e.chain, p.tree[e.node]) + PendingBytes(p.tree, stack)
    ensures 1 + PendingTurns(p.tree, stack') == Turns(p.tree[e.node]) + PendingTurns(p.tree, stack)
    ensures PendingSize(p.tree, stack') <= Size(p.tree[e.node]) + PendingSize(p.tree, stack)
  {
    var node := e.node;
    chain, stack' := e.chain, stack;
    ghost var t := p.tree;
    ghost var d :| Wf(t[node], d);
    p.Terminals(node);
    while node > 1
      invariant node in t && Wf(t[node], d) && InForest(t, stack') && (node == 0 ==> chain == [])
      invariant (node > 1 <==> t[node].Node?) && (node == 0 <==> t[node] == False)
      invariant Rest(chain, t[node]) + PendingBytes(t, stack') == Rest(e.chain, t[e.node]) + PendingBytes(t, stack)
      invariant Turns(t[node]) + PendingTurns(t, stack') == Turns(t[e.node]) + PendingTurns(t, stack)
      invariant Size(t[node]) + PendingSize(t, stack') <= Size(t[e.node]) + PendingSize(t, stack)
      decreases Size(t[node])
    {
      Children(t[node], d);
      var right, down := p.RightOf(node), p.DownOf(node);
      p.Terminals(right);
      NodeDown(t, stack', chain, t[node], right, d);
      if right != 0 { stack' := stack' + [Pending(chain, right)]; }
      chain := chain + [EncodeByte(p.ValueOf(node))];
      node := down;
      d := d - 1;
      p.Terminals(node);
    }
  }

  /** The string of a set of markings. */
  method Serialise(p: LddPackage, cmark: nat, ghost depth: nat) returns (res: seq<nat>)
    requires p.Valid() && p.Is(cmark, depth)
    ensures res == Encode(p.tree[cmark])
  {
    ghost var t := p.tree;
    var stack, count, body := [Pending([], cmark)], 0, [];
    OneEntry(t, Pending([], cmark));
    while stack != []
      invariant InForest(t, stack)
      invariant body + PendingBytes(t, stack) == Rest([], t[cmark])
      invariant count + PendingTurns(t, stack) == Turns(t[cmark])
      decreases PendingSize(t, stack)
    {
      var e := stack[|stack| - 1];
      TopEntry(t, stack);
      count := count + 1;
      var chain;
      chain, stack := Descend(p, e, stack[..|stack| - 1]);
      body := body + chain;
    }
    RestList([], t[cmark]);
    GlueBody(List(t[cmark]));
    return Header(count) + body;
  }

  /** Number of markings; the empty set counts for one. */
  method MarksCount(p: LddPackage, cmark: nat, ghost depth: nat) returns (count: nat)
    requires p.Valid() && p.Is(cmark, depth)
    ensures count == if cmark == 0 then 1 else |Den(p.tree[cmark])|
  {
    ghost var t := p.tree;
    p.Terminals(cmark);
    ListCounts(t[cmark], depth);
    var stack := [Pending([], cmark)];
    count := 0;
    OneEntry(t, Pending([], cmark));
    while stack != []
      invariant InForest(t, stack)
      invariant count + PendingTurns(t, stack) == Turns(t[cmark])
      decreases PendingSize(t, stack)
    {
      var e := stack[|stack| - 1];
      TopEntry(t, stack);
      count := count + 1;
      var chain;
      chain, stack := Descend(p, e, stack[..|stack| - 1]);
    }
  }

  // ---- the deserialiser ----

  /** One more marking. */
  method AddMarking(p: LddPackage, m: nat, values: Marking, places: nat) returns (r: Result<nat>)
    requires p.Valid() && p.Is(m, places) && |values| == places && InRange(values)
    modifies p.Repr()
    ensures p.Valid() && Extends(old(p.tree), p.tree)
    ensures r.TableFull? ==> p.Full()
    ensures r.Success? ==> p.Is(r.value, places) && Den(p.tree[r.value]) == old(Den(p.tree[m])) + {values}
  {
    var one :- CubeOf(p, values);
    r := UnionMono(p, m, one, places);
  }

  lemma NextParsed(bytes: seq<nat>, index: nat, places: nat, n: nat, all: seq<Marking>, i: nat)
    requires index <= |bytes| && n > 0 && Enough(bytes[index..], places, n) && i < |all|
    requires all[i..] == Parse(bytes[index..], places, n)
    ensures index + places <= |bytes| && Enough(bytes[index + places..], places, n - 1)
    ensures all[i + 1..] == Parse(bytes[index + places..], places, n - 1)
    ensures SetOf(all[..i + 1]) == SetOf(all[..i]) + {DecodeMarking(bytes[index..index + places])}
  {
    assert bytes[index..][..places] == bytes[index..index + places];
    assert bytes[index..][places..] == bytes[index + places..];
    assert all[i] == all[i..][0] && all[i + 1..] == all[i..][1..];
    assert all[..i + 1] == all[..i] + [all[i]];
  }

  /** The set of markings a string spells. */
  method DecodeMessage(p: LddPackage, bytes: seq<nat>, places: nat) returns (r: Result<nat>)
    requires p.Valid() && Decodable(bytes, places) && forall k :: 0 <= k < |bytes| ==> bytes[k] < 256
    modifies p.Repr()
    ensures p.Valid() && Extends(old(p.tree), p.tree)
    ensures r.TableFull? ==> p.Full()
    ensures r.Success? ==> p.Is(r.value, places) && Den(p.tree[r.value]) == SetOf(Decode(bytes, places))
  {
    var n := HeaderCount(bytes[0], bytes[1]);
    var index: nat := 2;
    p.Leaves();
    var m := 0;
    ghost var all := Decode(bytes, places);
    for i := 0 to n
      invariant p.Valid() && Extends(old(p.tree), p.tree) && p.Is(m, places)
      invariant index <= |bytes| && Enough(bytes[index..], places, n - i)
      invariant all[i..] == Parse(bytes[index..], places, n - i)
      invariant Den(p.tree[m]) == SetOf(all[..i])
    {
      NextParsed(bytes, index, places, n - i, all, i);
      var values := DecodeMarking(bytes[index..index + places]);
      index := index + places;
      m :- AddMarking(p, m, values, places);
    }
    assert all[..n] == all;
    return Success(m);
  }
}
