/** What the operators of the ZBC language compute, by the laws of 32-bit arithmetic that determine them. */
module ZbcValues {
  import opened ZbcSyntax
  import opened ZbcEval

  const WORD := 0x1_0000_0000
  const LEAST := -0x8000_0000
  const MOST := 0x7FFF_FFFF

  type int32 = x: int | LEAST <= x <= MOST

  // ---- numbers that differ by a multiple of 2^32 ----

  lemma WrapIs(x: int, y: int32, k: int)
    requires x == y + k * WORD
    ensures Wrap32(x) == y
  {
    var z := y + 0x8000_0000;
    assert x + 0x8000_0000 == z + k * WORD && 0 <= z < WORD;
  }

  lemma Wraps(x: int) returns (k: int)
    ensures x == Wrap32(x) + k * WORD
  {
    k := (x + 0x8000_0000) / WORD;
  }

  // ---- sums, differences, products ----

  /** Addition is that of the integers where the result fits, and always undone by subtraction; 0 is neutral. */
  lemma SumLaws(a: int32, b: int32, c: int32)
    ensures LEAST <= a + b <= MOST ==> BinValue(Plus, a, b) == a + b
    ensures BinValue(Plus, BinValue(Minus, a, b), b) == a && BinValue(Minus, BinValue(Plus, a, b), b) == a
    ensures BinValue(Plus, a, b) == BinValue(Plus, b, a)
    ensures BinValue(Plus, BinValue(Plus, a, b), c) == BinValue(Plus, a, BinValue(Plus, b, c))
    ensures BinValue(Plus, MOST, 1) == LEAST
  {
    hide Wrap32, Both, Either, OneOf, Cut;
    SumUndone(a, b);
    SumOfThree(a, b, c);
    WrapIs(MOST + 1, LEAST, 1);
    if LEAST <= a + b <= MOST {
      WrapIs(a + b, a + b, 0);
    }
  }

  lemma SumOfThree(a: int32, b: int32, c: int32)
    ensures Wrap32(Wrap32(a + b) + c) == Wrap32(a + Wrap32(b + c))
  {
    hide Wrap32;
    var j := Wraps(a + b);
    var k := Wraps(b + c);
    var l := Wraps(a + b + c);
    WrapIs(Wrap32(a + b) + c, Wrap32(a + b + c), l - j);
    WrapIs(a + Wrap32(b + c), Wrap32(a + b + c), l - k);
  }

  /** Multiplication is repeated addition. */
  lemma ProductLaws(a: int32, b: int32, c: int32)
    ensures BinValue(Star, a, 0) == 0 && BinValue(Star, a, 1) == a
    ensures BinValue(Star, a, b) == BinValue(Star, b, a)
    ensures BinValue(Star, a, BinValue(Plus, b, c)) == BinValue(Plus, BinValue(Star, a, b), BinValue(Star, a, c))
  {
    WrapIs(0, 0, 0);
    WrapIs(a, a, 0);
    var s, p, q := Wrap32(b + c), Wrap32(a * b), Wrap32(a * c);
    var k := Wraps(b + c);
    var i := Wraps(a * b);
    var j := Wraps(a * c);
    var l := Wraps(p + q);
    Distribute(a, b, c, s, k);
    WrapIs(a * s, Wrap32(p + q), i + j + l - a * k);
  }

  lemma Distribute(a: int, b: int, c: int, s: int, k: int)
    requires b + c == s + k * WORD
    ensures a * s == a * b + a * c - a * k * WORD
  {
    assert a * (b + c) == a * (s + k * WORD);
  }

  // ---- quotients and remainders ----

  /** Division cuts towards zero: dividend, divisor, quotient and remainder fit together, and a remainder other than
      0 has the sign of the dividend. By zero both are 0; the one quotient that does not fit wraps. */
  lemma QuotientLaws(a: int32, b: int32)
    ensures var q, r := BinValue(Slash, a, b), BinValue(Pct, a, b);
      if b == 0 then q == 0 && r == 0
      else if a == LEAST && b == -1 then q == LEAST && r == 0
      else a == b * q + r && (if a >= 0 then 0 <= r < Size(b) else -Size(b) < r <= 0)
  {
    if b != 0 {
      CutIs(a, b);
      var q := Cut(a, b);
      var r := a - b * q;
      WrapIs(r, r, 0);
      if a == LEAST && b == -1 {
        assert q == -LEAST;
        WrapIs(-LEAST, LEAST, 1);
      } else {
        WrapIs(q, q, 0);
      }
    }
  }

  function Size(b: int): (s: int)
    ensures s >= 0 && (b != 0 ==> s > 0)
  {
    if b >= 0 then b else -b
  }

  lemma CutIs(a: int, b: int)
    requires b != 0
    ensures var r := a - b * Cut(a, b); if a >= 0 then 0 <= r < Size(b) else -Size(b) < r <= 0
    ensures var q := Cut(a, b);
      Size(q) <= Size(a) && (Size(q) == Size(a) ==> a == 0 || Size(b) == 1) && (b == -1 ==> q == -a)
  {
    hide Cut, Size;
    var x: nat, y: nat := Size(a), Size(b);
    var z: nat := x / y;
    Parts(x, y, z, y * z);
    CutSign(a, b);
    CutProduct(a, b);
    Signs(a, b, Cut(a, b), b * Cut(a, b), z, y * z);
  }

  lemma Signs(a: int, b: int, q: int, p: int, z: int, m: int)
    requires b != 0 && z >= 0 && 0 <= Size(a) - m < Size(b) && z <= Size(a)
    requires (z == Size(a) ==> a == 0 || Size(b) == 1) && (Size(b) == 1 ==> z == Size(a))
    requires p == (if a >= 0 then m else -m) && q == if (a >= 0) == (b > 0) then z else -z
    ensures var r := a - p; if a >= 0 then 0 <= r < Size(b) else -Size(b) < r <= 0
    ensures Size(q) <= Size(a) && (Size(q) == Size(a) ==> a == 0 || Size(b) == 1) && (b == -1 ==> q == -a)
  {
  }

  lemma Parts(x: nat, y: nat, z: nat, m: nat)
    requires y > 0 && z == x / y && m == y * z
    ensures 0 <= x - m < y && z <= x && (z == x ==> x == 0 || y == 1) && (y == 1 ==> z == x)
  {
    assert x == y * (x / y) + x % y;
    Times(y, z);
  }

  lemma CutProduct(a: int, b: int)
    requires b != 0
    ensures b * Cut(a, b) == var m := Size(b) * (Size(a) / Size(b)); if a >= 0 then m else -m
  {
    hide Cut;
    CutSign(a, b);
    SameProduct(Size(b), Size(a) / Size(b));
  }

  lemma CutSign(a: int, b: int)
    requires b != 0
    ensures Cut(a, b) == if (a >= 0) == (b > 0) then Size(a) / Size(b) else -(Size(a) / Size(b))
  {
  }

  lemma Times(y: nat, z: nat)
    requires y > 0
    ensures y * z >= z && (y > 1 && z > 0 ==> y * z > z)
  {
  }

  lemma SameProduct(y: int, z: int)
    ensures (-y) * z == -(y * z) && y * (-z) == -(y * z) && (-y) * (-z) == y * z
  {
  }

  // ---- comparisons ----

  /** Comparisons give 0 or 1; exactly one of less, equal, greater holds; less is the order of the successors. */
  lemma OrderLaws(a: int32, b: int32, c: int32)
    ensures forall op | op in {Eq, Neq, Lt, Gt, Le, Ge} :: BinValue(op, a, b) == 0 || BinValue(op, a, b) == 1
    ensures BinValue(Lt, a, b) + BinValue(Eq, a, b) + BinValue(Gt, a, b) == 1
    ensures BinValue(Lt, a, b) == 1 && BinValue(Lt, b, c) == 1 ==> BinValue(Lt, a, c) == 1
    ensures a < MOST ==> BinValue(Lt, a, BinValue(Plus, a, 1)) == 1
    ensures BinValue(Eq, a, b) == 1 <==> a == b
    ensures BinValue(Gt, a, b) == BinValue(Lt, b, a)
    ensures BinValue(Neq, a, b) == 1 - BinValue(Eq, a, b)
    ensures BinValue(Le, a, b) == 1 - BinValue(Gt, a, b) && BinValue(Ge, a, b) == 1 - BinValue(Lt, a, b)
  {
    hide Both, Either, OneOf, Wrap32;
    if a < MOST {
      WrapIs(a + 1, a + 1, 0);
    }
  }

  // ---- shifts ----

  /** Shifting by `n` is doubling or halving `n` times, halves being rounded down; counts go modulo 32. */
  lemma ShiftLaws(a: int32, n: nat)
    ensures BinValue(Shl, a, 0) == a && BinValue(Shr, a, 0) == a
    ensures n < 31 ==> BinValue(Shl, a, n + 1) == BinValue(Plus, BinValue(Shl, a, n), BinValue(Shl, a, n))
    ensures n < 31 ==>
      var s, h := BinValue(Shr, a, n), BinValue(Shr, a, n + 1); s == 2 * h || s == 2 * h + 1
    ensures BinValue(Shl, a, n + 32) == BinValue(Shl, a, n) && BinValue(Shr, a, n + 32) == BinValue(Shr, a, n)
  {
    WrapIs(a, a, 0);
    if n < 31 {
      var p := Pow2(n);
      assert Pow2(n + 1) == 2 * p && n % 32 == n && (n + 1) % 32 == n + 1;
      Doubled(a, p);
      Halves(a, p);
    }
  }

  lemma Doubled(a: int, p: nat)
    ensures Wrap32(a * (2 * p)) == Wrap32(Wrap32(a * p) + Wrap32(a * p))
  {
    var x := a * p;
    var s := Wrap32(x);
    var k := Wraps(x);
    var l := Wraps(s + s);
    assert a * (2 * p) == 2 * x;
    WrapIs(2 * x, Wrap32(s + s), 2 * k + l);
  }

  lemma Halves(a: int, p: nat)
    requires p > 0
    ensures var h := a / (2 * p); a / p == 2 * h || a / p == 2 * h + 1
  {
    var h, r := a / (2 * p), a % (2 * p);
    assert a == 2 * p * h + r;
    if r < p {
      Division(a, p, 2 * h, r);
    } else {
      Division(a, p, 2 * h + 1, r - p);
    }
  }

  lemma Division(a: int, p: nat, q: int, r: nat)
    requires p > 0 && a == p * q + r && r < p
    ensures a / p == q
  {
    var s := a / p;
    assert a == p * s + a % p;
    if s > q {
      Apart(p, s, q);
    } else if s < q {
      Apart(p, q, s);
    }
  }

  lemma Apart(p: nat, s: int, q: int)
    requires s > q
    ensures p * s >= p * q + p
  {
    assert p * s == p * q + p * (s - q);
    AtLeast(p, s - q);
  }

  lemma AtLeast(p: nat, d: nat)
    requires d > 0
    ensures p * d >= p
  {
  }

  // ---- bits ----

  /** Bit `i` of the 32-bit pattern of `a`. */
  predicate Bit(a: int, i: bv6)
    requires i < 32
  {
    ((a % WORD) as bv32 >> i) & 1 == 1
  }

  /** The bitwise operators work bit by bit; the last bit says whether a number is odd. */
  lemma BitLaws(a: int32, b: int32, i: bv6)
    requires i < 32
    ensures Bit(BinValue(BitAnd, a, b), i) <==> Bit(a, i) && Bit(b, i)
    ensures Bit(BinValue(BitOr, a, b), i) <==> Bit(a, i) || Bit(b, i)
    ensures Bit(BinValue(BitXor, a, b), i) <==> Bit(a, i) != Bit(b, i)
    ensures Bit(a, 0) <==> a % 2 == 1
  {
    hide Wrap32, Both, Either, OneOf, Bit;
    BothIs(a, b, i);
    EitherIs(a, b, i);
    OneOfIs(a, b, i);
    LastBit(a);
  }

  lemma BothIs(a: int, b: int, i: bv6)
    requires i < 32
    ensures Bit(Wrap32(Both(a, b)), i) <==> Bit(a, i) && Bit(b, i)
  {
    hide Wrap32, BvBit, Bit, Unsigned;
    Stored(Unsigned(a) & Unsigned(b), i);
    PatternBit(a, i);
    PatternBit(b, i);
    BitsApart(Unsigned(a), Unsigned(b), i);
  }

  lemma EitherIs(a: int, b: int, i: bv6)
    requires i < 32
    ensures Bit(Wrap32(Either(a, b)), i) <==> Bit(a, i) || Bit(b, i)
  {
    hide Wrap32, BvBit, Bit, Unsigned;
    Stored(Unsigned(a) | Unsigned(b), i);
    PatternBit(a, i);
    PatternBit(b, i);
    BitsApart(Unsigned(a), Unsigned(b), i);
  }

  lemma OneOfIs(a: int, b: int, i: bv6)
    requires i < 32
    ensures Bit(Wrap32(OneOf(a, b)), i) <==> Bit(a, i) != Bit(b, i)
  {
    hide Wrap32, BvBit, Bit, Unsigned, Xor;
    Stored(Xor(Unsigned(a), Unsigned(b)), i);
    PatternBit(a, i);
    PatternBit(b, i);
    XorApart(Unsigned(a), Unsigned(b), i);
  }

  predicate BvBit(u: bv32, i: bv6)
    requires i < 32
  {
    (u >> i) & 1 == 1
  }

  lemma PatternBit(a: int, i: bv6)
    requires i < 32
    ensures Bit(a, i) == BvBit(Unsigned(a), i)
  {
  }

  lemma Stored(w: bv32, i: bv6)
    requires i < 32
    ensures Bit(Wrap32(w as int), i) == BvBit(w, i)
  {
    hide BvBit, Wrap32;
    var x := w as int;
    SamePattern(x);
    Back(w);
    PatternBit(Wrap32(x), i);
  }

  lemma Back(w: bv32)
    ensures (w as int) as bv32 == w
  {
  }

  lemma SamePattern(x: int)
    requires 0 <= x < WORD
    ensures Wrap32(x) % WORD == x
  {
    var k := Wraps(x);
  }

  lemma BitsApart(u: bv32, v: bv32, i: bv6)
    requires i < 32
    ensures BvBit(u & v, i) <==> BvBit(u, i) && BvBit(v, i)
    ensures BvBit(u | v, i) <==> BvBit(u, i) || BvBit(v, i)
  {
  }

  lemma XorApart(u: bv32, v: bv32, i: bv6)
    requires i < 32
    ensures BvBit(Xor(u, v), i) <==> BvBit(u, i) != BvBit(v, i)
  {
    hide BvBit;
    XorBits(u, v, i);
  }

  lemma XorBits(u: bv32, v: bv32, i: bv6)
    requires i < 32
    ensures BvBit(u ^ v, i) <==> BvBit(u, i) != BvBit(v, i)
  {
  }

  lemma LastBit(a: int32)
    ensures Bit(a, 0) <==> a % 2 == 1
  {
    assert a % WORD % 2 == a % 2;
  }

  // ---- logical, unary and assignment operators ----

  /** Logical operators ask whether operands are 0; negation is the difference from 0; an assignment with an operator
      stores what the operator gives for the old and the new value. */
  lemma OtherLaws(a: int32, b: int32)
    ensures BinValue(And, a, b) == if a != 0 && b != 0 then 1 else 0
    ensures BinValue(Or, a, b) == if a != 0 || b != 0 then 1 else 0
    ensures UnValue(Neg, a) == BinValue(Minus, 0, a)
    ensures BinValue(Plus, a, UnValue(Neg, a)) == 0
    ensures UnValue(Not, a) == BinValue(Eq, a, 0)
    ensures AssignValue(Set, a, b) == b
    ensures BinValue(Minus, AssignValue(AddTo, a, b), b) == a && BinValue(Plus, AssignValue(SubFrom, a, b), b) == a
    ensures AssignValue(MulBy, a, b) == BinValue(Star, a, b) && AssignValue(DivBy, a, b) == BinValue(Slash, a, b)
  {
    hide Wrap32, Both, Either, OneOf, Cut;
    SumUndone(a, b);
    Negated(a);
  }

  lemma SumUndone(a: int32, b: int32)
    ensures Wrap32(Wrap32(a + b) - b) == a && Wrap32(Wrap32(a - b) + b) == a
  {
    hide Wrap32;
    var i := Wraps(a + b);
    WrapIs(Wrap32(a + b) - b, a, -i);
    var j := Wraps(a - b);
    WrapIs(Wrap32(a - b) + b, a, -j);
  }

  lemma Negated(a: int32)
    ensures Wrap32(a + Wrap32(0 - a)) == 0
  {
    hide Wrap32;
    var n: int := a;
    var k := Wraps(0 - n);
    WrapIs(n + Wrap32(0 - n), 0, -k);
  }
}
