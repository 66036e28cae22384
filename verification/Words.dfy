/** The 64-bit words of the node table and of the operation cache, as natural numbers
    below 2^64 with every shift, mask and truncation written out. */
module Words {

  const W16: nat := 0x1_0000
  const W40: nat := 0x100_0000_0000
  const W48: nat := 0x1_0000_0000_0000
  const W64: nat := 0x1_0000_0000_0000_0000

  /** Largest pointer that survives packing into a node. */
  const POINTER_BOUND: nat := 0x8000_0000_0000

  /** The two words of a node. */
  datatype Key = Key(a: nat, b: nat)

  /** Packs a node: right and down are shifted into place in 64-bit arithmetic, then the
      four value bytes overwrite the top half-word of a (so that only 48 bits of the shifted
      right stay) and the bottom half-word of b (where the shifted down has only zeros). */
  function Pack(value: nat, right: nat, down: nat): Key {
    Key((right * 2) % W48 + (value % W16) * W48, (down * 0x2_0000) % W64 + (value / W16) % W16)
  }

  function GetRight(k: Key): nat { (k.a % W48) / 2 }

  function GetDown(k: Key): nat { k.b / 0x2_0000 }

  function GetValue(k: Key): nat { k.a / W48 + (k.b % W16) * W16 }

  function GetMark(k: Key): bool { k.a % 2 == 1 }

  function SetMark(k: Key, mark: bool): Key {
    Key(k.a - k.a % 2 + (if mark then 1 else 0), k.b)
  }

  function GetCopy(k: Key): bool { (k.b / W16) % 2 == 1 }

  lemma FirstWord(right: nat, low: nat)
    requires low < W16
    ensures var a := (right * 2) % W48 + low * W48;
            a < W64 && a / W48 == low && (a % W48) / 2 == right % POINTER_BOUND && a % 2 == 0
  {
    var r := right % POINTER_BOUND;
    Doubled(right);
    Halves(2 * r, low);
  }

  lemma Doubled(x: nat)
    ensures (x * 2) % W48 == 2 * (x % POINTER_BOUND)
  {
    var q, r := x / POINTER_BOUND, x % POINTER_BOUND;
    Remainder(q, 2 * r);
    assert x * 2 == q * W48 + 2 * r;
  }

  lemma Remainder(q: nat, r: nat)
    requires r < W48
    ensures (q * W48 + r) % W48 == r
  {
  }

  lemma Halves(x: nat, low: nat)
    requires x < W48 && low < W16
    ensures (x + low * W48) / W48 == low && (x + low * W48) % W48 == x && (x + low * W48) % 2 == x % 2
  {
  }

  lemma SecondWord(down: nat, high: nat)
    requires high < W16
    ensures var b := (down * 0x2_0000) % W64 + high;
            b < W64 && b % W16 == high && b / 0x2_0000 == down % POINTER_BOUND && (b / W16) % 2 == 0
  {
    var d := down % POINTER_BOUND;
    assert (down * 0x2_0000) % W64 == 0x2_0000 * d;
    assert (0x2_0000 * d + high) / W16 == 2 * d;
  }

  /** What is read back from a packed node: values always, pointers modulo 2^47. */
  lemma PackFields(value: nat, right: nat, down: nat)
    requires value < 0x1_0000_0000
    ensures var k := Pack(value, right, down);
            && k.a < W64 && k.b < W64
            && GetValue(k) == value
            && GetRight(k) == right % POINTER_BOUND
            && GetDown(k) == down % POINTER_BOUND
            && !GetMark(k) && !GetCopy(k)
  {
    assert value / W16 < W16;
    FirstWord(right, value % W16);
    SecondWord(down, value / W16);
  }

  /** Unpacking inverts packing exactly when both pointers fit 47 bits. */
  lemma PackRoundTrip(value: nat, right: nat, down: nat)
    requires value < 0x1_0000_0000
    ensures (GetValue(Pack(value, right, down)) == value && GetRight(Pack(value, right, down)) == right
             && GetDown(Pack(value, right, down)) == down)
            <==> right < POINTER_BOUND && down < POINTER_BOUND
  {
    PackFields(value, right, down);
    SmallPointer(right);
    SmallPointer(down);
  }

  /** Marking hides nothing: every field survives, and unmarking restores the word. */
  lemma MarkKeepsFields(value: nat, right: nat, down: nat, mark: bool)
    requires value < 0x1_0000_0000 && right < POINTER_BOUND && down < POINTER_BOUND
    ensures var k := Pack(value, right, down); var m := SetMark(k, mark);
            && GetMark(m) == mark && GetRight(m) == right && GetDown(m) == down && GetValue(m) == value
            && SetMark(m, false) == k
  {
    PackFields(value, right, down);
    SmallPointer(right);
    SmallPointer(down);
    MarkKeepsWord(Pack(value, right, down), mark);
  }

  lemma SmallPointer(p: nat)
    ensures p % POINTER_BOUND == p <==> p < POINTER_BOUND
  {
  }

  lemma MarkKeepsWord(k: Key, mark: bool)
    requires !GetMark(k)
    ensures var m := SetMark(k, mark);
            && GetMark(m) == mark && GetRight(m) == GetRight(k) && GetDown(m) == GetDown(k)
            && GetValue(m) == GetValue(k) && SetMark(m, false) == k
  {
    SetMarkFields(k, if mark then 1 else 0);
  }

  /** With pointers in range, a packed node is exactly its three fields. */
  lemma PackExact(value: nat, right: nat, down: nat)
    requires value < 0x1_0000_0000 && right < POINTER_BOUND && down < POINTER_BOUND
    ensures var k := Pack(value, right, down);
            GetValue(k) == value && GetRight(k) == right && GetDown(k) == down
            && k == Pack(GetValue(k), GetRight(k), GetDown(k))
  {
    PackFields(value, right, down);
    assert right % POINTER_BOUND == right && down % POINTER_BOUND == down;
  }

  lemma SetMarkFields(k: Key, bit: nat)
    requires bit < 2
    ensures var a := k.a - k.a % 2 + bit;
            a % 2 == bit && (a % W48) / 2 == (k.a % W48) / 2 && a / W48 == k.a / W48
  {
    var a := k.a - k.a % 2 + bit;
    assert a / 2 == k.a / 2;
    HalfWord(k.a);
    HalfWord(a);
  }

  lemma HalfWord(a: nat)
    ensures (a % W48) / 2 == (a / 2) % POINTER_BOUND && a / W48 == (a / 2) / POINTER_BOUND
  {
  }

  // ---- operation cache keys ----

  /** Tag of a cached operation, as placed above the 40-bit node index. */
  datatype Operation = Intersection | Division | Difference | Firing | UnionOf

  function Code(op: Operation): nat {
    match op
    case Intersection => 13
    case Division => 19
    case Difference => 20
    case Firing => 21
    case UnionOf => 22
  }

  /** First key word of an operation whose first operand fits 40 bits (tag OR operand). */
  function Tagged(op: Operation, operand: nat): nat
    requires operand < W40
  {
    Code(op) * W40 + operand
  }

  /** Keys of different operations, or of different first operands, never collide. */
  lemma TaggedInjective(op: Operation, x: nat, op': Operation, x': nat)
    requires x < W40 && x' < W40
    ensures Tagged(op, x) == Tagged(op', x') <==> op == op' && x == x'
    ensures Tagged(op, x) != 0
  {
    assert Tagged(op, x) / W40 == Code(op) && Tagged(op', x') / W40 == Code(op');
  }
}
