/** What the runtime's helpers compute, in terms of integers and words. */
module Helpers {
  import opened NanBox
  import opened Semantics

  /** The payload of an integer's word is the integer. */
  lemma IntWord(d: Doubles, n: int)
    requires InRange(n)
    ensures Box(d, Int(n)) == TAG_INT + n % TWO_48 && IntVal(Box(d, Int(n))) == n
  {
    PayloadOfInt(n);
    PayloadOfTagged(n % TWO_48);
  }

  /** On integers the comparisons are those of the integers. */
  lemma ComparesIntegers(d: Doubles, a: int, b: int)
    requires InRange(a) && InRange(b)
    ensures Compare(d, Eq, Int(a), Int(b)) <==> a == b
    ensures Compare(d, Neq, Int(a), Int(b)) <==> a != b
    ensures Compare(d, Lt, Int(a), Int(b)) <==> a < b
    ensures Compare(d, Gt, Int(a), Int(b)) <==> b < a
    ensures Compare(d, Lte, Int(a), Int(b)) <==> !(b < a)
    ensures Compare(d, Gte, Int(a), Int(b)) <==> !(a < b)
  {
    IntWord(d, a);
    IntWord(d, b);
  }

  /** They look at nothing else: `null`, `false`, zero and the double +0.0 are equal. */
  lemma ComparesPayloads(d: Doubles)
    ensures Compare(d, Eq, Null, Bool(false)) && Compare(d, Eq, Null, Int(0)) && Compare(d, Eq, Null, Float(0))
  {
    assert TAG_NULL == 0xFFF8 * TWO_48 && TAG_BOOL == 0xFFF9 * TWO_48 && TAG_INT == 0xFFFA * TWO_48;
  }

  /** Sums, differences and products are those of the integers while they fit. */
  lemma AddsIntegers(d: Doubles, a: int, b: int)
    ensures InRange(a + b) ==> Arith(d, Add, Int(a), Int(b)) == Ok(Int(a + b))
    ensures InRange(a - b) ==> Arith(d, Sub, Int(a), Int(b)) == Ok(Int(a - b))
    ensures InRange(a * b) ==> Arith(d, Mul, Int(a), Int(b)) == Ok(Int(a * b))
    ensures !InRange(a + b) ==> Arith(d, Add, Int(a), Int(b)) == Ok(Float(d.toDouble(a + b)))
  {
    if InRange(a * b) { SmallIsNotWrapped(a * b); }
  }

  lemma SmallIsNotWrapped(n: int)
    requires InRange(n)
    ensures WrapInt64(n) == n
  {
    if n < 0 {
      WrapUnique(n, n + TWO_64, -1);
    } else {
      WrapUnique(n, n, 0);
    }
  }

  /** A product beyond 64 bits wraps round. */
  lemma ProductsWrap(n: int)
    ensures -0x8000_0000_0000_0000 <= WrapInt64(n) < 0x8000_0000_0000_0000 && (n - WrapInt64(n)) % TWO_64 == 0
  {
    var r := n % TWO_64;
    assert n == n / TWO_64 * TWO_64 + r;
    WrapUnique(n - r, 0, n / TWO_64);
    if r >= 0x8000_0000_0000_0000 { WrapUnique(n - (r - TWO_64), 0, n / TWO_64 + 1); }
  }

  /** Division truncates toward zero: quotient and remainder make up the dividend, and
      the remainder is smaller than the divisor and has the dividend's sign. No other
      pair does. */
  lemma Divides(a: int, b: int)
    requires b != 0
    ensures a == b * TruncDiv(a, b) + TruncMod(a, b)
    ensures if a >= 0 then 0 <= TruncMod(a, b) < Magnitude(b) else -Magnitude(b) < TruncMod(a, b) <= 0
  {
    if a < 0 { assert -a == b * ((-a) / b) + (-a) % b; }
  }

  function Magnitude(b: int): (m: int)
    ensures m >= 0 && (m == b || m == -b)
  {
    if b >= 0 then b else -b
  }

  lemma DividesUniquely(a: int, b: int, q: int, r: int)
    requires b != 0 && a == b * q + r
    requires if a >= 0 then 0 <= r < Magnitude(b) else -Magnitude(b) < r <= 0
    ensures q == TruncDiv(a, b) && r == TruncMod(a, b)
  {
    Divides(a, b);
    var q', r' := TruncDiv(a, b), TruncMod(a, b);
    assert b * (q - q') == r' - r;
    MultipleIsSmall(b, q - q');
  }

  lemma MultipleIsSmall(b: int, k: int)
    ensures k > 0 && b > 0 ==> b * k >= b
    ensures k < 0 && b > 0 ==> b * k <= -b
    ensures k > 0 && b < 0 ==> b * k <= b
    ensures k < 0 && b < 0 ==> b * k >= -b
  {
  }

  /** The helpers divide so, and refuse zero. */
  lemma DividesIntegers(d: Doubles, a: int, b: int)
    requires InRange(a) && InRange(b)
    ensures b == 0 ==> Arith(d, Div, Int(a), Int(b)) == Arith(d, Mod, Int(a), Int(b)) == Error(DivisionByZero)
    ensures b != 0 && InRange(TruncDiv(a, b)) ==> Arith(d, Div, Int(a), Int(b)) == Ok(Int(TruncDiv(a, b)))
    ensures b != 0 ==> Arith(d, Mod, Int(a), Int(b)) == Ok(Int(TruncMod(a, b)))
  {
    if b != 0 { Divides(a, b); }
  }

  /** With a double among the operands, an integer beside it is converted and the double
      operation is applied in the order of the operands; division refuses a zero divisor. */
  lemma OnDoubles(d: Doubles, op: ArithOp, x: Word, y: Word, n: int)
    requires op == Add || op == Sub || op == Mul || op == Mod || (op == Div && !d.isZero(y) && !d.isZero(d.toDouble(n)))
    ensures Arith(d, op, Float(x), Float(y)) == Ok(d.floatOp(op, x, y))
    ensures Arith(d, op, Float(x), Int(n)) == Ok(d.floatOp(op, x, d.toDouble(n)))
    ensures Arith(d, op, Int(n), Float(y)) == Ok(d.floatOp(op, d.toDouble(n), y))
    ensures d.isZero(x) ==> Arith(d, Div, Float(y), Float(x)) == Arith(d, Div, Int(n), Float(x)) == Error(DivisionByZero)
  {
  }

  /** What is no number is not added, and what is no integer has no bits. */
  lemma RefusesOthers(d: Doubles, op: ArithOp, a: Value, b: Value)
    ensures !IsNumber(a) || !IsNumber(b) ==> Arith(d, Add, a, b) == Error(TypeMismatch)
    ensures (op == BAnd || op == BOr || op == BXor) && !(a.Int? && b.Int?) ==> Arith(d, op, a, b) == Error(BitwiseOnNonInt)
  {
  }

  /** Exactly three words are falsy. */
  lemma FalsyWords(d: Doubles, v: Value)
    requires v.Int? ==> InRange(v.n)
    requires v.Float? ==> IsDouble(v.bits)
    ensures Falsy(v) <==> Box(d, v) == 0xFFF8_0000_0000_0000 || Box(d, v) == 0xFFF9_0000_0000_0000 || Box(d, v) == 0xFFFA_0000_0000_0000
  {
    if v.Int? {
      IntWord(d, v.n);
      PayloadOfInt(v.n);
    }
  }
}
