/** The Hilbert ordering of the 2^k by 2^k cells of one AGID face.

    `Index` and `Place` are the two loops read as recursions over the bit level; the methods
    at the end are the loops themselves, in the TypeScript form (signed numbers) and in the
    native form (wrapping 32-bit words). */
module Hilbert {
  import opened Arithmetic

  datatype Cell = Cell(x: int, y: int)

  // The test `(v & s) > 0` for s a power of two, on the two's complement reading of v.
  function Bit(v: int, s: int): (b: int)
    requires s > 0
  {
    (v / s) % 2
  }

  // (3 * rx) ^ ry on single bits.
  function Quadrant(rx: int, ry: int): int {
    if rx == 0 then ry else 3 - ry
  }

  // The inverse of `Quadrant`.
  function QuadrantX(q: int): int {
    if q <= 1 then 0 else 1
  }

  function QuadrantY(q: int): int {
    if q == 1 || q == 2 then 1 else 0
  }

  function Rot(n: int, c: Cell, rx: int, ry: int): Cell {
    if ry == 0 then
      if rx == 1 then Cell(n - 1 - c.y, n - 1 - c.x) else Cell(c.y, c.x)
    else
      c
  }

  // q * p for a quadrant number q, written without a product of two unknowns.
  function Quarter(q: int, p: int): int {
    if q == 0 then 0 else if q == 1 then p else if q == 2 then 2 * p else 3 * p
  }

  // Only the digit at each level is added; the coordinates keep their already used high bits.
  function Index(k: nat, c: Cell): nat {
    if k == 0 then 0 else
      var s := Pow2(k - 1);
      var rx, ry := Bit(c.x, s), Bit(c.y, s);
      Quarter(Quadrant(rx, ry), Pow4(k - 1)) + Index(k - 1, Rot(s, c, rx, ry))
  }

  // The quadrant of side-4^k index d, when the quadrants have p indices each.
  function TopQuadrant(d: int, p: int): int {
    if d < p then 0 else if d < 2 * p then 1 else if d < 3 * p then 2 else 3
  }

  function Place(k: nat, d: nat): Cell {
    if k == 0 then Cell(0, 0) else
      var p := Pow4(k - 1);
      var q := TopQuadrant(d, p);
      Lift(Pow2(k - 1), Place(k - 1, d - Quarter(q, p)), QuadrantX(q), QuadrantY(q))
  }

  // A cell of the inner grid of side n, put into quadrant (rx, ry) of the outer one.
  function Lift(n: int, c: Cell, rx: int, ry: int): Cell {
    var r := Rot(n, c, rx, ry);
    Cell(if rx == 1 then r.x + n else r.x, if ry == 1 then r.y + n else r.y)
  }

  predicate InGrid(k: nat, c: Cell) {
    0 <= c.x < Pow2(k) && 0 <= c.y < Pow2(k)
  }

  predicate Adjacent(a: Cell, b: Cell) {
    (a.x == b.x && (a.y == b.y + 1 || b.y == a.y + 1)) ||
    (a.y == b.y && (a.x == b.x + 1 || b.x == a.x + 1))
  }

  // ---------- bits ----------

  // Doubling the modulus keeps one more bit.
  lemma SplitBit(v: int, s: int)
    requires s > 0
    ensures 0 <= Bit(v, s) <= 1
    ensures v % (2 * s) == v % s + s * Bit(v, s)
  {
    var q, r := v / s, v % s;
    var b := q % 2;
    assert (2 * (q / 2) + b) * s == (q / 2) * (2 * s) + b * s;
    DivModUnique(v, 2 * s, q / 2, b * s + r);
  }

  lemma Reflect(v: int, s: int)
    requires s > 0
    ensures (s - 1 - v) % s == s - 1 - v % s
  {
    var q, r := v / s, v % s;
    assert (-q) * s == -(q * s);
    DivModUnique(s - 1 - v, s, -q, s - 1 - r);
  }

  lemma ShiftBit(v: int, s: int, a: int)
    requires s > 0
    ensures Bit(v + a * (2 * s), s) == Bit(v, s)
  {
    var q, r := v / s, v % s;
    assert (q + 2 * a) * s == q * s + a * (2 * s);
    DivModUnique(v + a * (2 * s), s, q + 2 * a, r);
  }

  // ---------- one level ----------

  lemma LiftCases(s: int, c: Cell)
    ensures Lift(s, c, 0, 0) == Cell(c.y, c.x)
    ensures Lift(s, c, 0, 1) == Cell(c.x, c.y + s)
    ensures Lift(s, c, 1, 1) == Cell(c.x + s, c.y + s)
    ensures Lift(s, c, 1, 0) == Cell(2 * s - 1 - c.y, s - 1 - c.x)
  {
  }

  // `Lift` puts a cell where `Index` will read off the same quadrant and, up to bits it
  // ignores, the same inner cell.
  lemma LiftIsRead(s: int, c: Cell, rx: int, ry: int)
    requires s > 0 && 0 <= c.x < s && 0 <= c.y < s && 0 <= rx <= 1 && 0 <= ry <= 1
    ensures var l := Lift(s, c, rx, ry);
            0 <= l.x < 2 * s && 0 <= l.y < 2 * s && Bit(l.x, s) == rx && Bit(l.y, s) == ry &&
            var a, b := if ry == 0 then 0 else rx, if ry == 0 then -rx else ry;
            Rot(s, l, rx, ry) == Cell(c.x + a * s, c.y + b * s)
  {
    var r := Rot(s, c, rx, ry);
    var l := Lift(s, c, rx, ry);
    DivModUnique(l.x, s, rx, r.x);
    DivModUnique(l.y, s, ry, r.y);
  }

  // Conversely, lifting the inner cell of c into c's quadrant is c, modulo 2s.
  lemma ReadIsLifted(s: int, c: Cell)
    requires s > 0
    ensures var rx, ry := Bit(c.x, s), Bit(c.y, s);
            var i := Rot(s, c, rx, ry);
            0 <= rx <= 1 && 0 <= ry <= 1 &&
            Lift(s, Cell(i.x % s, i.y % s), rx, ry) == Cell(c.x % (2 * s), c.y % (2 * s))
  {
    SplitBit(c.x, s);
    SplitBit(c.y, s);
    Reflect(c.x, s);
    Reflect(c.y, s);
  }

  // ---------- the curve is a bijection ----------

  lemma TopQuadrantOf(q: int, p: int, rest: int)
    requires 0 <= q <= 3 && 0 <= rest < p
    ensures 0 <= Quarter(q, p) + rest < 4 * p && TopQuadrant(Quarter(q, p) + rest, p) == q
  {
  }

  lemma PlaceInQuadrant(k: nat, q: int, rest: nat)
    requires k > 0 && 0 <= q <= 3 && rest < Pow4(k - 1)
    ensures Place(k, Quarter(q, Pow4(k - 1)) + rest) ==
            Lift(Pow2(k - 1), Place(k - 1, rest), QuadrantX(q), QuadrantY(q))
  {
    var p := Pow4(k - 1);
    var d := Quarter(q, p) + rest;
    TopQuadrantOf(q, p, rest);
    assert d - Quarter(q, p) == rest;
  }

  lemma {:induction false} IndexBound(k: nat, c: Cell)
    ensures Index(k, c) < Pow4(k)
  {
    if k > 0 {
      var s := Pow2(k - 1);
      SplitBit(c.x, s);
      SplitBit(c.y, s);
      IndexBound(k - 1, Rot(s, c, Bit(c.x, s), Bit(c.y, s)));
    }
  }

  // Turning a shifted cell shifts the turned cell.
  lemma TurnOfShifted(s: int, c: Cell, a: int, b: int)
    requires s > 0
    ensures var rx, ry := Bit(c.x, s), Bit(c.y, s);
            var a', b' := if ry != 0 then 2 * a else if rx == 1 then -2 * b else 2 * b,
                          if ry != 0 then 2 * b else if rx == 1 then -2 * a else 2 * a;
            var c' := Rot(s, c, rx, ry);
            Rot(s, Cell(c.x + a * (2 * s), c.y + b * (2 * s)), rx, ry) == Cell(c'.x + a' * s, c'.y + b' * s)
  {
    hide Bit;
    Doubled(a, s);
    Doubled(b, s);
  }

  // Bits at level k and above never matter: this is why the loop need not mask them off.
  lemma {:induction false} IndexIgnoresHighBits(k: nat, c: Cell, a: int, b: int)
    ensures Index(k, Cell(c.x + a * Pow2(k), c.y + b * Pow2(k))) == Index(k, c)
  {
    if k > 0 {
      var s := Pow2(k - 1);
      ShiftBit(c.x, s, a);
      ShiftBit(c.y, s, b);
      var rx, ry := Bit(c.x, s), Bit(c.y, s);
      var c' := Rot(s, c, rx, ry);
      var a', b' := if ry != 0 then 2 * a else if rx == 1 then -2 * b else 2 * b,
                    if ry != 0 then 2 * b else if rx == 1 then -2 * a else 2 * a;
      TurnOfShifted(s, c, a, b);
      hide Rot, Bit, Quarter, Quadrant;
      IndexIgnoresHighBits(k - 1, c', a', b');
    }
  }

  lemma Doubled(a: int, s: int)
    ensures (2 * a) * s == a * (2 * s)
    ensures (-2 * a) * s == -(a * (2 * s))
  {
  }

  // Decoding an index gives back the cell, for any pair of numbers, up to the bits above level k.
  lemma {:induction false} PlaceOfIndexMod(k: nat, c: Cell)
    ensures Place(k, Index(k, c)) == Cell(c.x % Pow2(k), c.y % Pow2(k))
  {
    if k > 0 {
      var s := Pow2(k - 1);
      ReadIsLifted(s, c);
      var c' := Rot(s, c, Bit(c.x, s), Bit(c.y, s));
      PlaceOfIndexMod(k - 1, c');
      IndexBound(k - 1, c');
      PlaceInQuadrant(k, Quadrant(Bit(c.x, s), Bit(c.y, s)), Index(k - 1, c'));
    }
  }

  lemma PlaceOfIndex(k: nat, c: Cell)
    requires InGrid(k, c)
    ensures Index(k, c) < Pow4(k)
    ensures Place(k, Index(k, c)) == c
  {
    IndexBound(k, c);
    PlaceOfIndexMod(k, c);
    DivModUnique(c.x, Pow2(k), 0, c.x);
    DivModUnique(c.y, Pow2(k), 0, c.y);
  }

  lemma IndexOfLift(k: nat, q: int, c: Cell)
    requires k > 0 && 0 <= q <= 3 && InGrid(k - 1, c)
    ensures var l := Lift(Pow2(k - 1), c, QuadrantX(q), QuadrantY(q));
            InGrid(k, l) && Index(k, l) == Quarter(q, Pow4(k - 1)) + Index(k - 1, c)
  {
    var s := Pow2(k - 1);
    var rx, ry := QuadrantX(q), QuadrantY(q);
    LiftIsRead(s, c, rx, ry);
    assert Quadrant(rx, ry) == q;
    IndexIgnoresHighBits(k - 1, c, if ry == 0 then 0 else rx, if ry == 0 then -rx else ry);
  }

  lemma {:induction false} IndexOfPlace(k: nat, d: nat)
    requires d < Pow4(k)
    ensures InGrid(k, Place(k, d))
    ensures Index(k, Place(k, d)) == d
  {
    if k > 0 {
      var q := TopQuadrant(d, Pow4(k - 1));
      var rest := d - Quarter(q, Pow4(k - 1));
      IndexOfPlace(k - 1, rest);
      IndexOfLift(k, q, Place(k - 1, rest));
    }
  }

  // ---------- locality ----------

  lemma {:induction false} Endpoints(k: nat)
    ensures Place(k, 0) == Cell(0, 0)
    ensures Place(k, Pow4(k) - 1) == Cell(Pow2(k) - 1, 0)
  {
    if k > 0 {
      Endpoints(k - 1);
    }
  }

  lemma LiftKeepsAdjacent(s: int, a: Cell, b: Cell, rx: int, ry: int)
    requires Adjacent(a, b)
    ensures Adjacent(Lift(s, a, rx, ry), Lift(s, b, rx, ry))
  {
  }

  lemma InsideIsAdjacent(k: nat, q: int, rest: nat)
    requires k > 0 && 0 <= q <= 3 && rest + 1 < Pow4(k - 1)
    requires Adjacent(Place(k - 1, rest), Place(k - 1, rest + 1))
    ensures Adjacent(Place(k, Quarter(q, Pow4(k - 1)) + rest), Place(k, Quarter(q, Pow4(k - 1)) + rest + 1))
  {
    PlaceInQuadrant(k, q, rest);
    PlaceInQuadrant(k, q, rest + 1);
    LiftKeepsAdjacent(Pow2(k - 1), Place(k - 1, rest), Place(k - 1, rest + 1), QuadrantX(q), QuadrantY(q));
  }

  lemma CrossingIsAdjacent(k: nat, q: int)
    requires k > 0 && 0 <= q < 3
    ensures Adjacent(Place(k, Quarter(q, Pow4(k - 1)) + (Pow4(k - 1) - 1)),
                     Place(k, Quarter(q + 1, Pow4(k - 1)) + 0))
  {
    hide Place, Lift, Adjacent, Quarter, Pow2, Pow4;
    Endpoints(k - 1);
    PlaceInQuadrant(k, q, Pow4(k - 1) - 1);
    PlaceInQuadrant(k, q + 1, 0);
    QuadrantsJoin(Pow2(k - 1), q);
  }

  lemma SplitTop(d: int, p: int) returns (q: int, rest: int)
    requires 0 <= d < 4 * p
    ensures 0 <= q <= 3 && 0 <= rest < p && d == Quarter(q, p) + rest
    ensures d + 1 < 4 * p && rest + 1 >= p ==> q < 3 && d + 1 == Quarter(q + 1, p) + 0
  {
    q := TopQuadrant(d, p);
    rest := d - Quarter(q, p);
  }

  // Consecutive indices are consecutive cells: the curve never jumps.
  lemma {:induction false} NeighboursInOrder(k: nat, d: nat)
    requires d + 1 < Pow4(k)
    ensures Adjacent(Place(k, d), Place(k, d + 1))
  {
    hide Place, Adjacent, Quarter;
    var q, rest := SplitTop(d, Pow4(k - 1));
    if rest + 1 < Pow4(k - 1) {
      NeighboursInOrder(k - 1, rest);
      InsideIsAdjacent(k, q, rest);
    } else {
      CrossingIsAdjacent(k, q);
    }
  }

  // The last cell of each quadrant touches the first cell of the next one.
  lemma QuadrantsJoin(s: int, q: int)
    requires s > 0 && 0 <= q < 3
    ensures Adjacent(Lift(s, Cell(s - 1, 0), QuadrantX(q), QuadrantY(q)),
                     Lift(s, Cell(0, 0), QuadrantX(q + 1), QuadrantY(q + 1)))
  {
    LiftCases(s, Cell(s - 1, 0));
    LiftCases(s, Cell(0, 0));
  }

  // ---------- aligned index runs are aligned squares ----------

  lemma BitOfHalf(v: int, s: int)
    requires s > 0
    ensures Bit(v, 2 * s) == Bit(v / 2, s)
  {
    DivDiv(v, 2, s);
  }

  function Halved(c: Cell): Cell {
    Cell(c.x / 2, c.y / 2)
  }

  // Dropping the last digit of an index drops the last bit of both coordinates.
  lemma {:induction false} IndexPrefixStep(k: nat, c: Cell)
    ensures Index(k + 1, c) / 4 == Index(k, Halved(c))
  {
    var s := Pow2(k);
    SplitBit(c.x, s);
    SplitBit(c.y, s);
    var rx, ry := Bit(c.x, s), Bit(c.y, s);
    var q, r := Quadrant(rx, ry), Rot(s, c, rx, ry);
    assert Index(k + 1, c) == Quarter(q, Pow4(k)) + Index(k, r);
    if k > 0 {
      BitOfHalf(c.x, Pow2(k - 1));
      BitOfHalf(c.y, Pow2(k - 1));
      IndexPrefixStep(k - 1, r);
      assert Rot(Pow2(k - 1), Halved(c), rx, ry) == Halved(r);
    }
  }

  lemma {:induction false} IndexPrefix(k: nat, j: nat, c: Cell)
    ensures Index(k + j, c) / Pow4(j) == Index(k, Cell(c.x / Pow2(j), c.y / Pow2(j)))
  {
    if j > 0 {
      IndexPrefixStep(k + j - 1, c);
      IndexPrefix(k, j - 1, Halved(c));
      DivDiv(Index(k + j, c), 4, Pow4(j - 1));
      DivDiv(c.x, 2, Pow2(j - 1));
      DivDiv(c.y, 2, Pow2(j - 1));
    }
  }

  // v lies in the r-th run of n consecutive numbers.
  predicate InRun(v: int, n: int, r: int) {
    r * n <= v < (r + 1) * n
  }

  lemma CoarseCell(k: nat, j: nat, r: nat, c: Cell)
    requires r < Pow4(k) && InGrid(k + j, c)
    ensures Index(k + j, c) / Pow4(j) == r <==> Cell(c.x / Pow2(j), c.y / Pow2(j)) == Place(k, r)
  {
    var coarse := Cell(c.x / Pow2(j), c.y / Pow2(j));
    assert InGrid(k, coarse) by {
      Pow2Sum(k, j);
      QuotientRange(c.x, Pow2(j), Pow2(k));
      QuotientRange(c.y, Pow2(j), Pow2(k));
    }
    IndexPrefix(k, j, c);
    PlaceOfIndex(k, coarse);
    IndexOfPlace(k, r);
  }

  lemma Runs(v: int, run: int, r: int, c: Cell, side: int, corner: Cell)
    requires run > 0 && side > 0
    requires v / run == r <==> Cell(c.x / side, c.y / side) == corner
    ensures InRun(v, run, r) <==> InRun(c.x, side, corner.x) && InRun(c.y, side, corner.y)
  {
    QuotientRun(v, run, r);
    QuotientRun(c.x, side, corner.x);
    QuotientRun(c.y, side, corner.y);
  }

  // The r-th run of 4^j indices is exactly one aligned square of side 2^j: the one whose
  // column and row are those of the cell that r denotes on the coarser grid.
  lemma AlignedRunIsSquare(k: nat, j: nat, r: nat, c: Cell)
    requires r < Pow4(k) && InGrid(k + j, c)
    ensures InRun(Index(k + j, c), Pow4(j), r)
            <==> InRun(c.x, Pow2(j), Place(k, r).x) && InRun(c.y, Pow2(j), Place(k, r).y)
  {
    CoarseCell(k, j, r, c);
    Runs(Index(k + j, c), Pow4(j), r, c, Pow2(j), Place(k, r));
  }

  // ---------- the loops ----------

  // What one turn of the encoding loop adds to d.
  lemma TurnAdds(k: nat, c: Cell)
    requires k > 0
    ensures var s := Pow2(k - 1); var rx, ry := Bit(c.x, s), Bit(c.y, s);
            Index(k, c) == s * s * Quadrant(rx, ry) + Index(k - 1, Rot(s, c, rx, ry))
  {
    SquareOfPow2(k - 1);
    var s := Pow2(k - 1);
    SplitBit(c.x, s);
    SplitBit(c.y, s);
  }

  method EncodeHilbert(n: nat, x0: int, y0: int, ghost level: nat) returns (d: nat)
    requires n == Pow2(level) && InGrid(level, Cell(x0, y0))
    ensures d == Index(level, Cell(x0, y0))
  {
    d := 0;
    var c, s := Cell(x0, y0), n / 2;
    ghost var k: nat := level;
    while s > 0
      invariant 0 <= k <= level
      invariant s == Pow2(k) / 2
      invariant d + Index(k, c) == Index(level, Cell(x0, y0))
      // the coordinates may go negative, but never out of (-n, n), where `&` is exact
      invariant Pow2(k) - n <= c.x < n && Pow2(k) - n <= c.y < n
      decreases s
    {
      var rx, ry := Bit(c.x, s), Bit(c.y, s);
      TurnAdds(k, c);
      d := d + s * s * Quadrant(rx, ry);
      c := Rot(s, c, rx, ry);
      s, k := s / 2, k - 1;
    }
  }

  const WORD: nat := 0x1_0000_0000

  function Wrap(v: int): nat {
    v % WORD
  }

  // The native rotation: the subtractions wrap around when the operand still has used high bits.
  function RotWord(n: nat, c: Cell, rx: int, ry: int): Cell {
    if ry == 0 then
      if rx == 1 then Cell(Wrap(n - 1 - c.y), Wrap(n - 1 - c.x)) else Cell(c.y, c.x)
    else
      c
  }

  lemma WordIsPow2()
    ensures WORD == Pow2(32)
  {
    assert Pow2(8) == 0x100;
    Pow2Sum(8, 8);
    Pow2Sum(16, 16);
  }

  lemma WrapIsShift(v: int, k: nat) returns (a: int)
    requires k <= 32
    ensures Wrap(v) == v + a * Pow2(k)
  {
    WordIsPow2();
    Pow2Sum(32 - k, k);
    a := -(v / WORD) * Pow2(32 - k);
    RegroupProduct(-(v / WORD), Pow2(32 - k), Pow2(k));
  }

  lemma RegroupProduct(a: int, b: int, c: int)
    ensures (a * b) * c == a * (b * c)
  {
  }

  // Wrapping an operand shifts it by a multiple of 2^32, hence of every 2^k with k <= 32.
  lemma WrapKeepsIndex(k: nat, c: Cell)
    requires k <= 32
    ensures Index(k, Cell(Wrap(c.x), Wrap(c.y))) == Index(k, c)
  {
    var a := WrapIsShift(c.x, k);
    var b := WrapIsShift(c.y, k);
    IndexIgnoresHighBits(k, c, a, b);
  }

  lemma RotWordKeepsIndex(k: nat, c: Cell, rx: int, ry: int)
    requires k <= 31
    ensures Index(k, RotWord(Pow2(k), c, rx, ry)) == Index(k, Rot(Pow2(k), c, rx, ry))
  {
    WrapKeepsIndex(k, Rot(Pow2(k), c, rx, ry));
  }

  method EncodeHilbertNative(n: nat, x0: nat, y0: nat, ghost level: nat) returns (d: nat)
    requires level <= 31 && n == Pow2(level) && InGrid(level, Cell(x0, y0))
    ensures d == Index(level, Cell(x0, y0))
  {
    d := 0;
    var c, s := Cell(x0, y0), n / 2;
    ghost var k: nat := level;
    while s > 0
      invariant 0 <= k <= level
      invariant s == Pow2(k) / 2
      invariant d + Index(k, c) == Index(level, Cell(x0, y0))
      decreases s
    {
      var rx, ry := Bit(c.x, s), Bit(c.y, s);
      TurnAdds(k, c);
      RotWordKeepsIndex(k - 1, c, rx, ry);
      d := d + s * s * Quadrant(rx, ry);
      c := RotWord(s, c, rx, ry);
      s, k := s / 2, k - 1;
    }
  }

  method DecodeHilbert(n: nat, d: nat, ghost level: nat) returns (x: int, y: int)
    requires n == Pow2(level) && d < Pow4(level)
    ensures Cell(x, y) == Place(level, d)
  {
    x, y := 0, 0;
    var t, s := d, 1;
    ghost var k: nat := 0;
    while s < n
      invariant k <= level && s == Pow2(k)
      invariant t == d / Pow4(k) && Cell(x, y) == Place(k, d % Pow4(k))
      decreases n - s
    {
      Pow2Grows(k, level);
      DigitStep(k, d);
      var rx := (t / 2) % 2;
      var ry := (t + rx) % 2;
      var c := Rot(s, Cell(x, y), rx, ry);
      x, y := c.x + s * rx, c.y + s * ry;
      t, s, k := t / 4, s * 2, k + 1;
    }
    Pow2Grows(k, level);
    DivModUnique(d, Pow4(level), 0, d);
  }

  lemma {:induction false} Pow2Grows(a: nat, b: nat)
    requires a <= b
    ensures Pow2(a) <= Pow2(b)
    ensures Pow2(a) == Pow2(b) ==> a == b
  {
    if a < b {
      Pow2Grows(a, b - 1);
    }
  }

  // The loop peels digits from the low end; `Place` reads the top one.
  lemma DigitStep(k: nat, d: nat)
    ensures d / Pow4(k + 1) == (d / Pow4(k)) / 4
    ensures var t := d / Pow4(k); var rx := (t / 2) % 2; var ry := (t + rx) % 2;
            var c := Rot(Pow2(k), Place(k, d % Pow4(k)), rx, ry);
            Place(k + 1, d % Pow4(k + 1)) == Cell(c.x + Pow2(k) * rx, c.y + Pow2(k) * ry)
  {
    var t := d / Pow4(k);
    DivDiv(d, Pow4(k), 4);
    LowDigits(d, Pow4(k));
    LowBits(t / 4, t % 4);
    PlaceInQuadrant(k + 1, t % 4, d % Pow4(k));
    LiftIsSum(Pow2(k), Place(k, d % Pow4(k)), QuadrantX(t % 4), QuadrantY(t % 4));
  }

  lemma LiftIsSum(s: int, c: Cell, rx: int, ry: int)
    requires 0 <= rx <= 1 && 0 <= ry <= 1
    ensures var r := Rot(s, c, rx, ry); Lift(s, c, rx, ry) == Cell(r.x + s * rx, r.y + s * ry)
  {
    assert s * 0 == 0 && s * 1 == s;
  }

  // 1 & (t / 2) and 1 & (t ^ rx) read the quadrant from the last digit q of t.
  lemma LowBits(high: int, q: int)
    requires 0 <= q <= 3
    ensures var t := 4 * high + q; var rx := (t / 2) % 2;
            rx == QuadrantX(q) && (t + rx) % 2 == QuadrantY(q)
  {
    var t := 4 * high + q;
    DivModUnique(t, 2, 2 * high + q / 2, q % 2);
    DivModUnique(2 * high + q / 2, 2, high, q / 2);
    DivModUnique(t + q / 2, 2, 2 * high + (q + q / 2) / 2, (q + q / 2) % 2);
  }

  lemma LowDigits(d: nat, p: nat)
    requires p > 0
    ensures d % (4 * p) == Quarter((d / p) % 4, p) + d % p
  {
    var t := d / p;
    var q := t % 4;
    assert (4 * (t / 4) + q) * p == (t / 4) * (4 * p) + q * p;
    DivModUnique(d, 4 * p, t / 4, Quarter(q, p) + d % p);
  }
}
