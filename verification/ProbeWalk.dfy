/** The order in which the unique table probes its slots: eight slots of a cache line,
    then a jump of eight times an odd number. */
module ProbeWalk {
  import opened Words
  import opened Slots

  predicate IsPow2(n: nat) {
    n == 1 || (n > 0 && n % 2 == 0 && IsPow2(n / 2))
  }

  /** Sizes the table is created with: powers of two of at least one region, indexable in 40 bits. */
  predicate TableSize(size: nat) {
    512 <= size <= W40 && IsPow2(size)
  }

  function Odd(h: nat): nat {
    var x := h / 0x10_0000;
    if x % 2 == 0 then x + 1 else x
  }

  function Step(h: nat): nat { (Odd(h) * 8) % W64 }

  /** x modulo the table size (ReduceMod), by repeated subtraction. */
  function Reduce(x: nat, size: nat): (r: nat)
    requires size > 0
    ensures r < size
  {
    if x < size then x else Reduce(x - size, size)
  }

  /** Slot inspected `offset` slots after the slot `start` of the same line of eight. */
  function InLine(start: nat, offset: nat): nat {
    8 * (start / 8) + (start % 8 + offset) % 8
  }

  /** Where a probing loop stands: rolling hash, slot where the line was entered, current slot, lines left behind. */
  datatype Cursor = Cursor(rolling: nat, start: nat, slot: nat, line: nat)

  function Enter(rolling: nat, size: nat, line: nat): Cursor
    requires size > 0
  {
    Cursor(rolling, Reduce(rolling, size), Reduce(rolling, size), line)
  }

  function Begin(h: nat, size: nat): Cursor
    requires size > 0
  {
    Enter(h, size, 0)
  }

  /** Next slot of the line; from the last one, first slot of the next line. */
  function Advance(h: nat, size: nat, c: Cursor): Cursor
    requires size > 0
  {
    var slot := InLine(c.slot, 1);
    if slot != c.start then c.(slot := slot)
    else Enter((c.rolling + Step(h)) % W64, size, c.line + 1)
  }

  function After(h: nat, size: nat, n: nat): Cursor
    requires size > 0
  {
    if n == 0 then Begin(h, size) else Advance(h, size, After(h, size, n - 1))
  }

  /** The k-th slot probed for hash h. */
  function Probe(h: nat, size: nat, k: nat): nat
    requires size > 0
  {
    After(h, size, k).slot
  }

  // ---- the walk as a formula ----

  /** Rolling hash after `line` jumps of `step`. */
  function LineHash(h: nat, step: nat, line: nat): nat {
    if line == 0 then h else (LineHash(h, step, line - 1) + step) % W64
  }

  lemma InLineParts(start: nat, offset: nat)
    ensures var s := InLine(start, offset); s / 8 == start / 8 && s % 8 == (start % 8 + offset) % 8
  {
  }

  lemma Wrap(u: nat, offset: nat)
    requires u < 8
    ensures ((u + offset) % 8 + 1) % 8 == (u + offset + 1) % 8
    ensures offset < 8 ==> ((u + offset + 1) % 8 == u <==> offset == 7)
  {
  }

  /** One step along a line; eight steps lead back to where the line was entered. */
  lemma InLineNext(start: nat, offset: nat)
    requires offset < 8
    ensures InLine(InLine(start, offset), 1) == InLine(start, offset + 1)
    ensures InLine(start, 0) == start
    ensures InLine(start, offset + 1) == start <==> offset == 7
  {
    InLineParts(start, offset);
    Wrap(start % 8, offset);
  }

  lemma AdvanceInLine(h: nat, size: nat, c: Cursor, offset: nat)
    requires size > 0 && offset < 7 && c.slot == InLine(c.start, offset)
    ensures Advance(h, size, c) == c.(slot := InLine(c.start, offset + 1))
  {
    InLineNext(c.start, offset);
  }

  lemma AdvanceToLine(h: nat, size: nat, c: Cursor)
    requires size > 0 && c.slot == InLine(c.start, 7)
    ensures Advance(h, size, c) == Enter((c.rolling + Step(h)) % W64, size, c.line + 1)
  {
    InLineNext(c.start, 7);
  }

  lemma AfterNext(h: nat, size: nat, n: nat, c: Cursor)
    requires size > 0 && After(h, size, n) == c
    ensures After(h, size, n + 1) == Advance(h, size, c)
  {
  }

  lemma {:induction false} AfterOffset(h: nat, size: nat, c: Cursor, n: nat, offset: nat)
    requires size > 0 && offset < 8
    requires After(h, size, n) == c && c.slot == c.start
    ensures After(h, size, n + offset) == c.(slot := InLine(c.start, offset))
  {
    if offset == 0 {
      InLineNext(c.start, 0);
    } else {
      AfterOffset(h, size, c, n, offset - 1);
      var p := c.(slot := InLine(c.start, offset - 1));
      AfterNext(h, size, n + offset - 1, p);
      AdvanceInLine(h, size, p, offset - 1);
    }
  }

  lemma WholeLine(h: nat, size: nat, c: Cursor, n: nat)
    requires size > 0 && After(h, size, n) == c && c.slot == c.start
    ensures After(h, size, n + 8) == Enter((c.rolling + Step(h)) % W64, size, c.line + 1)
  {
    var p := After(h, size, n + 7);
    AfterOffset(h, size, c, n, 7);
    AfterNext(h, size, n + 7, p);
    AdvanceToLine(h, size, p);
  }

  lemma {:induction false} AfterLine(h: nat, size: nat, line: nat)
    requires size > 0
    ensures After(h, size, 8 * line) == Enter(LineHash(h, Step(h), line), size, line)
  {
    if line > 0 {
      AfterLine(h, size, line - 1);
      WholeLine(h, size, Enter(LineHash(h, Step(h), line - 1), size, line - 1), 8 * (line - 1));
      assert 8 * (line - 1) + 8 == 8 * line;
    }
  }

  /** Eight probes to a line. */
  lemma ProbeFormula(h: nat, size: nat, line: nat, offset: nat)
    requires size > 0 && offset < 8
    ensures After(h, size, 8 * line + offset).line == line
    ensures Probe(h, size, 8 * line + offset) == InLine(Reduce(LineHash(h, Step(h), line), size), offset)
  {
    AfterLine(h, size, line);
    AfterOffset(h, size, Enter(LineHash(h, Step(h), line), size, line), 8 * line, offset);
  }

  lemma ProbeLine(h: nat, size: nat, k: nat)
    requires size > 0
    ensures After(h, size, k).line == k / 8
  {
    ProbeFormula(h, size, k / 8, k % 8);
  }

  /** The cursor is at the k-th probe.  The key keeps the definition out of the loops that only
      advance it: it unfolds where Opened is mentioned. */
  ghost predicate Stands(h: nat, size: nat, c: Cursor, k: nat)
    requires size > 0
  {
    forall key {:trigger Opened(key)} :: Opened(key) ==> c == After(h, size, k)
  }

  ghost predicate Opened(key: int) { true }

  lemma StandsFirst(h: nat, size: nat)
    requires size > 0
    ensures Stands(h, size, Begin(h, size), 0)
  {
  }

  lemma StandsAt(h: nat, size: nat, c: Cursor, k: nat)
    requires size > 0 && Stands(h, size, c, k)
    ensures c.slot == Probe(h, size, k) && c.line == k / 8
  {
    assert Opened(0);
    ProbeLine(h, size, k);
  }

  lemma StandsNext(h: nat, size: nat, c: Cursor, k: nat)
    requires size > 0 && Stands(h, size, c, k)
    ensures Stands(h, size, Advance(h, size, c), k + 1)
  {
    assert Opened(0);
    AfterNext(h, size, k, c);
  }

  // ---- quotients and remainders ----

  lemma MulMono(a: nat, b: nat, n: nat)
    requires a <= b
    ensures a * n <= b * n
  {
    assert b * n == a * n + (b - a) * n;
    assert (b - a) * n >= 0;
  }

  lemma MulGap(a: nat, b: nat, n: nat)
    requires a < b
    ensures a * n + n <= b * n
  {
    MulMono(a + 1, b, n);
    assert (a + 1) * n == a * n + n;
  }

  lemma QuotientUnique(n: nat, q: nat, r: nat, q': nat, r': nat)
    requires q * n + r == q' * n + r' && r < n && r' < n
    ensures q == q' && r == r'
  {
    if q < q' { MulGap(q, q', n); }
    if q' < q { MulGap(q', q, n); }
  }

  lemma {:induction false} ReduceMod(x: nat, n: nat) returns (q: nat)
    requires n > 0
    ensures x == q * n + Reduce(x, n)
  {
    if x < n { return 0; }
    var p := ReduceMod(x - n, n);
    q := p + 1;
    assert q * n == p * n + n;
  }

  lemma ReduceUnique(x: nat, n: nat, q: nat, r: nat)
    requires x == q * n + r && r < n
    ensures Reduce(x, n) == r
  {
    var q' := ReduceMod(x, n);
    QuotientUnique(n, q, r, q', Reduce(x, n));
  }

  /** Reduce is the remainder of integer division. */
  lemma ReduceIsModulo(x: nat, n: nat)
    requires n > 0
    ensures Reduce(x, n) == x % n
  {
    ReduceUnique(x, n, x / n, x % n);
  }

  lemma ReduceAdd(x: nat, y: nat, n: nat)
    requires n > 0
    ensures Reduce(Reduce(x, n) + y, n) == Reduce(x + y, n)
  {
    var q := ReduceMod(x, n);
    var p := ReduceMod(Reduce(x, n) + y, n);
    assert (q + p) * n == q * n + p * n;
    ReduceUnique(x + y, n, q + p, Reduce(Reduce(x, n) + y, n));
  }

  lemma Regroup(q: nat, c: nat, n: nat)
    ensures q * (c * n) == (q * c) * n
  {
  }

  lemma ReduceShift(y: nat, q: nat, n: nat)
    requires n > 0
    ensures Reduce(q * n + y, n) == Reduce(y, n)
  {
    var p := ReduceMod(y, n);
    assert (q + p) * n == q * n + p * n;
    ReduceUnique(q * n + y, n, q + p, Reduce(y, n));
  }

  /** Reducing modulo a multiple first changes nothing. */
  lemma ReduceTwice(x: nat, n: nat, c: nat, m: nat)
    requires n > 0 && m == c * n && m > 0
    ensures Reduce(Reduce(x, m), n) == Reduce(x, n)
  {
    var q := ReduceMod(x, m);
    var y := Reduce(x, m);
    assert q * m == (q * c) * n by { Regroup(q, c, n); }
    ReduceShift(y, q * c, n);
  }

  lemma SameRemainder(x: nat, y: nat, n: nat) returns (c: nat)
    requires n > 0 && x <= y && Reduce(x, n) == Reduce(y, n)
    ensures y == x + c * n
  {
    var e := ReduceMod(x, n);
    var f := ReduceMod(y, n);
    assert e <= f by {
      if f < e { MulGap(f, e, n); }
    }
    c := f - e;
    assert f * n == e * n + c * n;
  }

  // ---- powers of two ----

  lemma {:induction false} Pow2Divides(a: nat, b: nat) returns (c: nat)
    requires IsPow2(a) && IsPow2(b) && a <= b
    ensures b == c * a
  {
    if a == 1 { return b; }
    var h := a / 2;
    c := Pow2Divides(h, b / 2);
    assert a == 2 * h && b == 2 * (c * h);
    assert c * (2 * h) == 2 * (c * h);
  }

  lemma Pow2Double(m: nat)
    requires IsPow2(m)
    ensures IsPow2(2 * m)
  {
    assert 2 * m / 2 == m;
  }

  lemma {:induction false} Pow2Product(a: nat, b: nat)
    requires IsPow2(a) && IsPow2(b)
    ensures IsPow2(a * b)
  {
    if a > 1 {
      var h := a / 2;
      Pow2Product(h, b);
      Pow2Double(h * b);
      Regroup(2, h, b);
    }
  }

  lemma W64IsPow2()
    ensures IsPow2(W64)
  {
    assert IsPow2(2);
    Pow2Product(2, 2);
    Pow2Product(4, 4);
    Pow2Product(16, 16);
    Pow2Product(256, 256);
    Pow2Product(0x1_0000, 0x1_0000);
    Pow2Product(0x1_0000_0000, 0x1_0000_0000);
  }

  lemma OddProduct(x: nat, y: nat)
    requires x % 2 == 1 && y % 2 == 1
    ensures (x * y) % 2 == 1
  {
    OddTimes(x, x / 2, y);
    OddSum(x * y, (x / 2) * y, y);
  }

  lemma OddTimes(x: nat, a: nat, y: nat)
    requires x == 2 * a + 1
    ensures x * y == 2 * (a * y) + y
  {
  }

  lemma OddSum(p: nat, m: nat, y: nat)
    requires p == 2 * m + y && y % 2 == 1
    ensures p % 2 == 1
  {
  }

  /** An odd factor is invisible modulo a power of two. */
  lemma {:induction false} OddFactor(j: nat, q: nat, c: nat, n: nat) returns (d: nat)
    requires IsPow2(n) && q % 2 == 1 && j * q == c * n
    ensures j == d * n
  {
    if n == 1 { return j; }
    var m := n / 2;
    var cm := c * m;
    assert c * n == 2 * cm by {
      assert n == 2 * m;
      assert c * (2 * m) == 2 * (c * m);
    }
    if j % 2 == 1 { OddProduct(j, q); }
    var i := j / 2;
    assert i * q == cm by {
      assert j == 2 * i;
      assert (2 * i) * q == 2 * (i * q);
    }
    d := OddFactor(i, q, c, m);
    assert d * (2 * m) == 2 * (d * m);
  }

  // ---- lines visited ----

  /** Line number (slot / 8) reached after `line` jumps of q lines from line x, in a table of `lines` lines. */
  function LineNumber(x: nat, q: nat, lines: nat, line: nat): (y: nat)
    requires lines > 0
    ensures y < lines
  {
    if line == 0 then Reduce(x, lines) else Reduce(LineNumber(x, q, lines, line - 1) + q, lines)
  }

  lemma LineSlot(y: nat, u: nat, lines: nat)
    requires lines > 0 && u < 8
    ensures Reduce(8 * y + u, 8 * lines) == 8 * Reduce(y, lines) + u
  {
    var q := ReduceMod(y, lines);
    assert q * (8 * lines) == 8 * (q * lines);
    ReduceUnique(8 * y + u, 8 * lines, q, 8 * Reduce(y, lines) + u);
  }

  /** One jump, seen modulo the table size: the 64-bit wrap-around is invisible. */
  lemma Jump(prev: nat, q: nat, y: nat, u: nat, lines: nat, c: nat)
    requires lines > 0 && c * (8 * lines) == W64 && u < 8
    requires Reduce(prev, 8 * lines) == 8 * y + u
    ensures Reduce((prev + 8 * q) % W64, 8 * lines) == 8 * Reduce(y + q, lines) + u
  {
    WrapsWhen(8 * lines, c);
    JumpWrapped(prev, q, y, u, lines);
  }

  function Wrapped(x: nat): nat { x % W64 }

  /** Reduction does not see the 64-bit wrap-around. */
  ghost predicate Wraps(m: nat)
    requires m > 0
  {
    forall x: nat {:trigger Wrapped(x)} :: Reduce(Wrapped(x), m) == Reduce(x, m)
  }

  lemma WrapsWhen(m: nat, c: nat)
    requires m > 0 && c * m == W64
    ensures Wraps(m)
  {
    forall x: nat ensures Reduce(Wrapped(x), m) == Reduce(x, m) {
      ReduceIsModulo(x, W64);
      ReduceTwice(x, m, c, W64);
    }
  }

  lemma JumpWrapped(prev: nat, q: nat, y: nat, u: nat, lines: nat)
    requires lines > 0 && Wraps(8 * lines) && u < 8
    requires Reduce(prev, 8 * lines) == 8 * y + u
    ensures Reduce((prev + 8 * q) % W64, 8 * lines) == 8 * Reduce(y + q, lines) + u
  {
    WrappedSum(prev, 8 * q, 8 * lines);
    assert 8 * y + u + 8 * q == 8 * (y + q) + u;
    LineSlot(y + q, u, lines);
  }

  lemma WrappedSum(x: nat, d: nat, m: nat)
    requires m > 0 && Wraps(m)
    ensures Reduce((x + d) % W64, m) == Reduce(Reduce(x, m) + d, m)
  {
    ReduceAdd(x, d, m);
    assert Wrapped(x + d) == (x + d) % W64;
  }

  lemma StepValue(h: nat)
    requires h < W64
    ensures Step(h) == 8 * Odd(h)
  {
  }

  lemma NextLine(h: nat, x: nat, u: nat, q: nat, lines: nat, line: nat)
    requires lines > 0 && Wraps(8 * lines) && u < 8
    requires Reduce(LineHash(h, 8 * q, line), 8 * lines) == 8 * LineNumber(x, q, lines, line) + u
    ensures Reduce(LineHash(h, 8 * q, line + 1), 8 * lines) == 8 * LineNumber(x, q, lines, line + 1) + u
  {
    JumpWrapped(LineHash(h, 8 * q, line), q, LineNumber(x, q, lines, line), u, lines);
  }

  lemma {:induction false} LineHashMod(x: nat, u: nat, q: nat, lines: nat, line: nat)
    requires lines > 0 && Wraps(8 * lines) && u < 8
    ensures Reduce(LineHash(8 * x + u, 8 * q, line), 8 * lines) == 8 * LineNumber(x, q, lines, line) + u
  {
    if line == 0 {
      LineSlot(x, u, lines);
    } else {
      LineHashMod(x, u, q, lines, line - 1);
      NextLine(8 * x + u, x, u, q, lines, line - 1);
    }
  }

  lemma InLineAt(y: nat, u: nat, offset: nat)
    requires u < 8
    ensures InLine(8 * y + u, offset) == 8 * y + (u + offset) % 8
  {
    assert (8 * y + u) / 8 == y && (8 * y + u) % 8 == u;
  }

  lemma Eighth(size: nat) returns (lines: nat)
    requires size >= 8 && IsPow2(size)
    ensures size == 8 * lines && IsPow2(lines)
  {
    lines := size / 8;
    assert IsPow2(size / 2) && IsPow2(size / 2 / 2) && IsPow2(size / 2 / 2 / 2);
  }

  lemma TableFacts(size: nat) returns (lines: nat, c: nat)
    requires TableSize(size)
    ensures size == 8 * lines && lines > 0 && IsPow2(lines) && c * size == W64
  {
    lines := Eighth(size);
    W64IsPow2();
    c := Pow2Divides(size, W64);
  }

  lemma ProbeSlot(x: nat, u: nat, q: nat, lines: nat, c: nat, line: nat, offset: nat)
    requires lines > 0 && c * (8 * lines) == W64 && u < 8 && Step(8 * x + u) == 8 * q && offset < 8
    ensures Probe(8 * x + u, 8 * lines, 8 * line + offset) == 8 * LineNumber(x, q, lines, line) + (u + offset) % 8
  {
    ProbeFormula(8 * x + u, 8 * lines, line, offset);
    WrapsWhen(8 * lines, c);
    LineHashMod(x, u, q, lines, line);
    InLineAt(LineNumber(x, q, lines, line), u, offset);
  }

  /** A hash as line, offset and (odd) number of lines per jump. */
  lemma HashParts(h: nat) returns (x: nat, u: nat, q: nat)
    requires h < W64
    ensures h == 8 * x + u && u < 8 && q % 2 == 1 && Step(h) == 8 * q
  {
    x, u, q := h / 8, h % 8, Odd(h);
    StepValue(h);
  }

  lemma ProbeInTable(h: nat, size: nat, k: nat)
    requires TableSize(size) && h < W64
    ensures Probe(h, size, k) < size
  {
    var lines, c := TableFacts(size);
    var x, u, q := HashParts(h);
    var line, offset := k / 8, k % 8;
    assert k == 8 * line + offset;
    ProbeSlot(x, u, q, lines, c, line, offset);
  }

  lemma {:induction false} LineNumberClosed(x: nat, q: nat, lines: nat, line: nat) returns (lq: nat)
    requires lines > 0
    ensures lq == line * q && LineNumber(x, q, lines, line) == Reduce(x + lq, lines)
  {
    if line == 0 { return 0; }
    lq := LineNumberClosed(x, q, lines, line - 1);
    ReduceAdd(x + lq, q, lines);
    OneMore(line - 1, q);
    lq := lq + q;
  }

  lemma OneMore(n: nat, q: nat)
    ensures (n + 1) * q == n * q + q
  {
  }

  lemma NoOddReturn(x: nat, t: nat, tq: nat, q: nat, n: nat)
    requires IsPow2(n) && q % 2 == 1 && t < n && tq == t * q
    requires Reduce(x, n) == Reduce(x + tq, n)
    ensures t == 0
  {
    var e := SameRemainder(x, x + tq, n);
    var d := OddFactor(t, q, e, n);
    if d > 0 { MulGap(0, d, n); }
  }

  lemma AddCancels(a: nat, b: nat, q: nat, n: nat)
    requires a <= b < n && Reduce(a + q, n) == Reduce(b + q, n)
    ensures a == b
  {
    var c := SameRemainder(a + q, b + q, n);
    if c > 0 { MulGap(0, c, n); }
  }

  /** Equal line numbers stay equal after undoing the same jumps. */
  lemma {:induction false} JumpsCancel(x: nat, q: nat, lines: nat, i: nat, t: nat)
    requires lines > 0 && LineNumber(x, q, lines, i) == LineNumber(x, q, lines, i + t)
    ensures LineNumber(x, q, lines, 0) == LineNumber(x, q, lines, t)
  {
    if i > 0 {
      var a, b := LineNumber(x, q, lines, i - 1), LineNumber(x, q, lines, i - 1 + t);
      if a <= b { AddCancels(a, b, q, lines); } else { AddCancels(b, a, q, lines); }
      JumpsCancel(x, q, lines, i - 1, t);
    }
  }

  lemma LinesDistinct(x: nat, q: nat, lines: nat, i: nat, j: nat)
    requires IsPow2(lines) && q % 2 == 1 && i <= j < lines
    requires LineNumber(x, q, lines, i) == LineNumber(x, q, lines, j)
    ensures i == j
  {
    JumpsCancel(x, q, lines, i, j - i);
    var tq := LineNumberClosed(x, q, lines, j - i);
    NoOddReturn(x, j - i, tq, q, lines);
  }

  lemma SameOffset(u: nat, a: nat, b: nat)
    requires u < 8 && a < 8 && b < 8 && (u + a) % 8 == (u + b) % 8
    ensures a == b
  {
  }

  lemma SameSlot(a: nat, u: nat, b: nat, v: nat)
    requires u < 8 && v < 8 && 8 * a + u == 8 * b + v
    ensures a == b && u == v
  {
  }

  lemma ProbesApart(x: nat, u: nat, q: nat, lines: nat, c: nat, i: nat, o: nat, j: nat, p: nat)
    requires IsPow2(lines) && c * (8 * lines) == W64 && i <= j < lines && o < 8 && p < 8
    requires u < 8 && q % 2 == 1 && Step(8 * x + u) == 8 * q
    requires Probe(8 * x + u, 8 * lines, 8 * i + o) == Probe(8 * x + u, 8 * lines, 8 * j + p)
    ensures i == j && o == p
  {
    ProbeSlot(x, u, q, lines, c, i, o);
    ProbeSlot(x, u, q, lines, c, j, p);
    SameSlot(LineNumber(x, q, lines, i), (u + o) % 8, LineNumber(x, q, lines, j), (u + p) % 8);
    SameOffset(u, o, p);
    LinesDistinct(x, q, lines, i, j);
  }

  lemma Split(k: nat, lines: nat) returns (i: nat, o: nat)
    requires k < 8 * lines
    ensures k == 8 * i + o && i < lines && o < 8
  {
    i, o := k / 8, k % 8;
  }

  /** The first `size` probes never repeat a slot: each line's eight slots once, each line once. */
  lemma ProbeInjective(h: nat, size: nat, k: nat, k': nat)
    requires TableSize(size) && h < W64 && k < size && k' < size
    ensures Probe(h, size, k) == Probe(h, size, k') ==> k == k'
  {
    var lines, c := TableFacts(size);
    var x, u, q := HashParts(h);
    var i, o := Split(k, lines);
    var j, p := Split(k', lines);
    if Probe(h, size, k) == Probe(h, size, k') {
      if i <= j { ProbesApart(x, u, q, lines, c, i, o, j, p); } else { ProbesApart(x, u, q, lines, c, j, p, i, o); }
    }
  }

  ghost function Probed(h: nat, size: nat, n: nat): set<nat>
    requires size > 0
  {
    set k | 0 <= k < n :: Probe(h, size, k)
  }

  lemma {:induction false} ProbedCount(h: nat, size: nat, n: nat)
    requires TableSize(size) && h < W64 && n <= size
    ensures |Probed(h, size, n)| == n
  {
    if n > 0 {
      ProbedCount(h, size, n - 1);
      LastProbed(h, size, n);
    }
  }

  lemma LastProbed(h: nat, size: nat, n: nat)
    requires TableSize(size) && h < W64 && 0 < n <= size
    ensures var last := Probe(h, size, n - 1);
            Probed(h, size, n) == Probed(h, size, n - 1) + {last} && last !in Probed(h, size, n - 1)
  {
    forall k | 0 <= k < n - 1 ensures Probe(h, size, k) != Probe(h, size, n - 1) {
      ProbeInjective(h, size, k, n - 1);
    }
  }

  /** The first `size` probes visit every slot of the table. */
  lemma ProbeCovers(h: nat, size: nat)
    requires TableSize(size) && h < W64
    ensures Probed(h, size, size) == Below(size)
  {
    ProbedCount(h, size, size);
    forall k | 0 <= k < size ensures Probe(h, size, k) < size { ProbeInTable(h, size, k); }
    SubsetCount(Probed(h, size, size), Below(size));
  }

  /** While some slot is outside `filled`, one of the first `size` probes finds one. */
  lemma ProbeFindsGap(h: nat, size: nat, filled: set<nat>) returns (k: nat)
    requires TableSize(size) && h < W64 && |filled| < size
    ensures k < size && Probe(h, size, k) !in filled
  {
    if forall k: nat :: k < size ==> Probe(h, size, k) in filled {
      ProbedCount(h, size, size);
      SubsetCount(Probed(h, size, size), filled);
      assert false;
    }
    k :| k < size && Probe(h, size, k) !in filled;
  }
}
