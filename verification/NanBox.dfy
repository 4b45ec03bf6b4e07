/** NaN-boxed words: 64-bit values whose top thirteen bits, when all set, make
    room for a three-bit tag and a 48-bit payload. Words are naturals, so the
    wrap-around of the machine's 64-bit arithmetic is written out. */
module NanBox {

  const TWO_47: int := 0x8000_0000_0000
  const TWO_48: int := 0x1_0000_0000_0000
  const TWO_64: int := 0x1_0000_0000_0000_0000

  type Word = w: int | 0 <= w < 0x1_0000_0000_0000_0000

  const TAG_NULL: Word := 0xFFF8_0000_0000_0000
  const TAG_BOOL: Word := 0xFFF9_0000_0000_0000
  const TAG_INT: Word := 0xFFFA_0000_0000_0000
  const TAG_CLOSURE: Word := 0xFFFB_0000_0000_0000

  /** The double 1.0. */
  const DOUBLE_ONE: Word := 0x3FF0_0000_0000_0000

  /** Every word below the quiet-NaN pattern is a double. */
  predicate IsDouble(w: Word) {
    w < TAG_NULL
  }

  predicate IsInt(w: Word) {
    TAG_INT <= w < TAG_CLOSURE
  }

  function Payload(w: Word): (p: int)
    ensures 0 <= p < TWO_48
  {
    w % TWO_48
  }

  /** The payload read as a 48-bit two's complement number. */
  function IntVal(w: Word): (n: int)
    ensures -TWO_47 <= n < TWO_47
  {
    if Payload(w) >= TWO_47 then Payload(w) - TWO_48 else Payload(w)
  }

  predicate InRange(n: int) {
    -TWO_47 <= n < TWO_47
  }

  /** An integer outside the 48-bit range becomes a double; `toDouble` is the
      hardware conversion. */
  function MakeInt(toDouble: int -> Word, n: int): Word {
    if InRange(n) then TAG_INT + n % TWO_48 else toDouble(n)
  }

  /** No conversion result may look like a tagged value. */
  ghost predicate DoublesOnly(toDouble: int -> Word) {
    forall n :: IsDouble(toDouble(n))
  }

  lemma PayloadOfInt(n: int)
    requires InRange(n)
    ensures n % TWO_48 == if n < 0 then n + TWO_48 else n
  {
    if n < 0 {
      assert n == -1 * TWO_48 + (n + TWO_48);
    }
  }

  lemma PayloadOfTagged(p: int)
    requires 0 <= p < TWO_48
    ensures (TAG_INT + p) % TWO_48 == p
  {
    assert TAG_INT == 0xFFFA * TWO_48;
  }

  /** Boxing then unboxing is the identity exactly on the 48-bit range; outside
      it the word is not an integer any more. */
  lemma BoxUnbox(toDouble: int -> Word, n: int)
    requires DoublesOnly(toDouble)
    ensures IsInt(MakeInt(toDouble, n)) <==> InRange(n)
    ensures InRange(n) ==> IntVal(MakeInt(toDouble, n)) == n
  {
    if InRange(n) {
      PayloadOfInt(n);
      PayloadOfTagged(n % TWO_48);
    } else {
      assert IsDouble(toDouble(n));
    }
  }

  /** Every integer word is the box of its value: the representation is unique. */
  lemma UnboxBox(toDouble: int -> Word, w: Word)
    requires IsInt(w)
    ensures MakeInt(toDouble, IntVal(w)) == w
  {
    var p := w - TAG_INT;
    PayloadOfTagged(p);
    assert Payload(w) == p;
    PayloadOfInt(IntVal(w));
  }

  // ---- tag-preserving machine arithmetic ----

  /** `mov rax,[b]; add rax,[c]; sub rax,TAG_INT` */
  function EmitAdd(b: Word, c: Word): Word {
    ((b + c) % TWO_64 - TAG_INT) % TWO_64
  }

  /** `mov rax,[b]; sub rax,[c]; add rax,TAG_INT` */
  function EmitSub(b: Word, c: Word): Word {
    ((b - c) % TWO_64 + TAG_INT) % TWO_64
  }

  /** The 32-bit immediate of `sub qword [a],imm32` is sign-extended. */
  function EmitSubi(a: Word, imm: int): Word {
    (a - imm) % TWO_64
  }

  /** ADDI adds a non-negative immediate to the boxed word in memory and
      unboxes, adds and reboxes for every other one. */
  function EmitAddi(a: Word, imm: int): Word {
    if 0 <= imm <= 32767 then (a + imm) % TWO_64
    else TAG_INT + (IntVal(a) + imm) % TWO_48
  }

  lemma WrapUnique(x: int, y: int, k: int)
    requires 0 <= y < TWO_64 && x == y + k * TWO_64
    ensures x % TWO_64 == y
  {
  }

  lemma EmitAddWord(b: Word, c: Word)
    requires IsInt(b) && IsInt(c)
    ensures EmitAdd(b, c) == TAG_INT + (b - TAG_INT) + (c - TAG_INT)
  {
    WrapUnique(b + c, b + c - TWO_64, 1);
    WrapUnique(b + c - TWO_64 - TAG_INT, b + c - TAG_INT, -1);
  }

  lemma EmitSubWord(b: Word, c: Word)
    requires IsInt(b) && IsInt(c)
    ensures EmitSub(b, c) == TAG_INT + (b - TAG_INT) - (c - TAG_INT)
  {
    if b >= c {
      WrapUnique(b - c, b - c, 0);
      WrapUnique(b - c + TAG_INT, b - c + TAG_INT, 0);
    } else {
      WrapUnique(b - c, b - c + TWO_64, -1);
      WrapUnique(b - c + TWO_64 + TAG_INT, b - c + TAG_INT, 1);
    }
  }

  /** The word `emitAdd` leaves is the boxed sum exactly when the unsigned
      payloads do not carry out of 48 bits and the signed sum is in range. */
  lemma EmitAddExact(toDouble: int -> Word, b: Word, c: Word)
    requires DoublesOnly(toDouble) && IsInt(b) && IsInt(c)
    ensures EmitAdd(b, c) == MakeInt(toDouble, IntVal(b) + IntVal(c))
       <==> Payload(b) + Payload(c) < TWO_48 && InRange(IntVal(b) + IntVal(c))
  {
    EmitAddWord(b, c);
    PayloadOfTagged(b - TAG_INT);
    PayloadOfTagged(c - TAG_INT);
    var sum := IntVal(b) + IntVal(c);
    if InRange(sum) {
      PayloadOfInt(sum);
    } else {
      assert IsDouble(toDouble(sum));
    }
  }

  /** The word `emitSub` leaves is the boxed difference exactly when the payload
      subtraction does not borrow and the signed difference is in range. */
  lemma EmitSubExact(toDouble: int -> Word, b: Word, c: Word)
    requires DoublesOnly(toDouble) && IsInt(b) && IsInt(c)
    ensures EmitSub(b, c) == MakeInt(toDouble, IntVal(b) - IntVal(c))
       <==> Payload(b) >= Payload(c) && InRange(IntVal(b) - IntVal(c))
  {
    EmitSubWord(b, c);
    PayloadOfTagged(b - TAG_INT);
    PayloadOfTagged(c - TAG_INT);
    var diff := IntVal(b) - IntVal(c);
    if InRange(diff) {
      PayloadOfInt(diff);
    } else {
      assert IsDouble(toDouble(diff));
    }
  }

  /** ADDI is right exactly when the signed sum is in range and, on the direct
      path, the payload does not carry: `(+ -1 1)` already leaves a wrong tag,
      while a negative immediate never does. */
  lemma EmitAddiExact(toDouble: int -> Word, a: Word, imm: int)
    requires DoublesOnly(toDouble) && IsInt(a) && -0x8000 <= imm <= 0x8000
    ensures EmitAddi(a, imm) == MakeInt(toDouble, IntVal(a) + imm)
       <==> InRange(IntVal(a) + imm) && (0 <= imm <= 32767 ==> Payload(a) + imm < TWO_48)
  {
    PayloadOfTagged(a - TAG_INT);
    var sum := IntVal(a) + imm;
    WrapUnique(a + imm, a + imm, 0);
    if InRange(sum) {
      PayloadOfInt(sum);
    } else {
      assert IsDouble(toDouble(sum));
    }
  }

  /** SUBI always subtracts from the boxed word, so it is right exactly when the
      payload neither borrows nor carries and the signed difference is in
      range. */
  lemma EmitSubiExact(toDouble: int -> Word, a: Word, imm: int)
    requires DoublesOnly(toDouble) && IsInt(a) && -0x8000 <= imm <= 0x8000
    ensures EmitSubi(a, imm) == MakeInt(toDouble, IntVal(a) - imm)
       <==> 0 <= Payload(a) - imm < TWO_48 && InRange(IntVal(a) - imm)
  {
    PayloadOfTagged(a - TAG_INT);
    var diff := IntVal(a) - imm;
    WrapUnique(a - imm, a - imm, 0);
    if InRange(diff) {
      PayloadOfInt(diff);
    } else {
      assert IsDouble(toDouble(diff));
    }
  }

  /** SUBI looks at no type. A word that is not an integer becomes one exactly
      when the subtraction crosses an edge of the integer words; otherwise the
      bits of a double, a boolean or a reference move by the immediate. */
  lemma EmitSubiUntyped(a: Word, imm: int)
    requires !IsInt(a) && -0x8000 <= imm <= 0x8000
    ensures IsInt(EmitSubi(a, imm)) <==> a < TAG_INT <= a - imm || a - imm < TAG_CLOSURE <= a
    ensures 0 <= a - imm < TWO_64 ==> EmitSubi(a, imm) == a - imm
  {
    if a - imm < 0 {
      WrapUnique(a - imm, a - imm + TWO_64, -1);
    } else if a - imm >= TWO_64 {
      WrapUnique(a - imm, a - imm - TWO_64, 1);
    } else {
      WrapUnique(a - imm, a - imm, 0);
    }
  }

  /** `null - 1` is a double, and `1.0 - 1` is the double just below 1.0: neither
      the type error nor the number that subtraction of two registers gives. */
  lemma NullMinusOne()
    ensures IsDouble(EmitSubi(TAG_NULL, 1)) && EmitSubi(DOUBLE_ONE, 1) == DOUBLE_ONE - 1
  {
    EmitSubiUntyped(TAG_NULL, 1);
    EmitSubiUntyped(DOUBLE_ONE, 1);
  }

  /** `-1 + 2` on boxed words leaves a word tagged as a closure. */
  lemma EmitAddCarries(toDouble: int -> Word)
    ensures EmitAdd(MakeInt(toDouble, -1), MakeInt(toDouble, 2)) == TAG_CLOSURE + 1
  {
    PayloadOfInt(-1);
    PayloadOfInt(2);
    EmitAddWord(MakeInt(toDouble, -1), MakeInt(toDouble, 2));
  }
}
