/** What the operators of arithmetic expressions compute: laws of the direct semantics that do not name the functions the
    evaluator computes with. */
module ExprLaws {
  import opened Int64
  import opened ExprNumbers
  import opened ExprModel
  import opened ExprTree

  predicate Fits(x: int) {
    -0x8000_0000_0000_0000 <= x <= 0x7FFF_FFFF_FFFF_FFFF
  }

  /** r is the 64-bit two's-complement number that agrees with x modulo 2^64. */
  predicate Congruent(r: int, x: int) {
    Fits(r) && (r - x) % 0x1_0000_0000_0000_0000 == 0
  }

  lemma CongruentIsExact(r: int, x: int)
    requires Congruent(r, x) && Fits(x)
    ensures r == x
  {
  }

  lemma WrapIsCongruent(x: int)
    ensures Congruent(Wrap(x), x)
  {
    var k :| Wrap(x) == x + k * TWO_TO_64;
    assert (k * TWO_TO_64) % TWO_TO_64 == 0;
  }

  // ----- addition, subtraction, multiplication -----

  lemma SumsAndProducts(a: int, b: int)
    requires Fits(a) && Fits(b)
    ensures Congruent(Meaning(Ch('+'), a, b), a + b) && (Fits(a + b) ==> Meaning(Ch('+'), a, b) == a + b)
    ensures Congruent(Meaning(Ch('-'), a, b), a - b) && (Fits(a - b) ==> Meaning(Ch('-'), a, b) == a - b)
    ensures Congruent(Meaning(Ch('*'), a, b), a * b) && (Fits(a * b) ==> Meaning(Ch('*'), a, b) == a * b)
    ensures Meaning(Ch('+'), Meaning(Ch('-'), a, b), b) == a
  {
    hide Congruent;
    hide Fits;
    hide Wrap;
    Wrapped(a + b);
    Wrapped(a - b);
    Wrapped(a * b);
    Wrapped(a);
    WrapMulAdd(a - b, 1, b);
    assert a - b + b == a;
  }

  lemma Wrapped(x: int)
    ensures Congruent(Wrap(x), x) && (Fits(x) ==> Wrap(x) == x)
  {
    WrapIsCongruent(x);
  }

  // ----- division -----

  /** Division rounds toward zero and the remainder has the sign of the dividend. */
  lemma QuotientsAndRemainders(a: int, b: int)
    requires Fits(a) && Fits(b) && b != 0
    ensures var q, r := Meaning(Ch('/'), a, b), Meaning(Ch('%'), a, b);
            && Congruent(a, q * b + r) && (a != -0x8000_0000_0000_0000 || b != -1 ==> a == q * b + r)
            && Fits(q) && (if b < 0 then b < r < -b else -b < r < b) && (r > 0 ==> a > 0) && (r < 0 ==> a < 0)
  {
    var q, r := TruncDiv(a, b), TruncMod(a, b);
    Division(a, b);
  }

  lemma MultipleIsLarger(k: int, n: int)
    requires n > 0
    ensures k >= 0 ==> k * n >= k && (n > 1 ==> k * n >= k + k)
    ensures k < 0 ==> k * n <= k
  {
    assert k * n == k + k * (n - 1);
    if k >= 0 {
      assert k * (n - 1) >= 0;
      assert n > 1 ==> k * (n - 1) == k + k * (n - 2) && k * (n - 2) >= 0;
    } else {
      assert k * (n - 1) <= 0;
    }
  }

  /** Division with remainder, as a product. */
  lemma Divided(m: int, n: int)
    requires n > 0
    ensures 0 <= m - (m / n) * n < n && (m >= 0 ==> m / n >= 0)
  {
    var k := m / n;
    assert m == n * k + m % n;
  }

  lemma Division(a: int, b: int)
    requires Fits(a) && Fits(b) && b != 0
    ensures var q, r := TruncDiv(a, b), TruncMod(a, b);
            && a == q * b + r && (Fits(q) || (a == -0x8000_0000_0000_0000 && b == -1))
            && (if b < 0 then b < r < -b else -b < r < b) && (r > 0 ==> a > 0) && (r < 0 ==> a < 0) && Fits(r)
  {
    hide TruncDiv;
    hide TruncMod;
    var k, n := TruncParts(a, b);
    MultipleIsLarger(k, n);
    SignedProduct(k, n, b);
    DivisionSigns(a, b, k, k * n, TruncDiv(a, b), b * TruncDiv(a, b));
  }

  lemma TruncModIs(a: int, b: int)
    requires b != 0
    ensures TruncMod(a, b) == a - b * TruncDiv(a, b) == a - TruncDiv(a, b) * b
  {
    hide TruncDiv;
  }

  lemma TruncParts(a: int, b: int) returns (k: int, n: int)
    requires b != 0
    ensures k >= 0 && n == (if b < 0 then -b else b) && 0 <= (if a < 0 then -a else a) - k * n < n
    ensures TruncDiv(a, b) == if (a < 0) == (b < 0) then k else -k
    ensures TruncMod(a, b) == a - b * TruncDiv(a, b) == a - TruncDiv(a, b) * b
  {
    hide TruncDiv;
    hide TruncMod;
    hide Abs;
    AbsIs(a);
    AbsIs(b);
    n := Abs(b);
    k := Abs(a) / Abs(b);
    Divided(Abs(a), Abs(b));
    TruncDivIs(a, b);
    TruncModIs(a, b);
  }

  lemma AbsIs(a: int)
    ensures Abs(a) == if a < 0 then -a else a
  {
  }

  lemma TruncDivIs(a: int, b: int)
    requires b != 0
    ensures TruncDiv(a, b) == if (a < 0) == (b < 0) then Abs(a) / Abs(b) else -(Abs(a) / Abs(b))
  {
    hide Abs;
    AbsIs(b);
  }

  /** The signs of quotient and remainder, from the magnitudes: k is the quotient's, p that of the product. */
  lemma DivisionSigns(a: int, b: int, k: int, p: int, q: int, product: int)
    requires Fits(a) && Fits(b) && b != 0
    requires 0 <= k <= p && (b != 1 && b != -1 ==> k + k <= p)
    requires 0 <= (if a < 0 then -a else a) - p < if b < 0 then -b else b
    requires q == (if (a < 0) == (b < 0) then k else -k) && product == if a < 0 then -p else p
    ensures var r := a - product;
            && (Fits(q) || (a == -0x8000_0000_0000_0000 && b == -1)) && Fits(r)
            && (if b < 0 then b < r < -b else -b < r < b) && (r > 0 ==> a > 0) && (r < 0 ==> a < 0)
  {
  }

  lemma SignedProduct(k: int, n: int, b: int)
    requires n == if b < 0 then -b else b
    ensures b * k == if b < 0 then -(k * n) else k * n
    ensures b * (-k) == if b < 0 then k * n else -(k * n)
  {
    if b < 0 {
      assert (-n) * k == -(k * n);
      assert (-n) * (-k) == k * n;
    } else {
      assert n * (-k) == -(k * n);
    }
  }

  // ----- bits -----

  lemma {:induction false} PowerSquared(n: nat, m: nat)
    ensures PowerOfTwo(n + m) == PowerOfTwo(n) * PowerOfTwo(m)
  {
    if n > 0 {
      PowerSquared(n - 1, m);
    }
  }

  lemma PowerIs64()
    ensures PowerOfTwo(64) == TWO_TO_64
  {
    assert PowerOfTwo(2) == 4 && PowerOfTwo(4) == 16;
    SixtyFour();
  }

  lemma SixtyFour()
    requires PowerOfTwo(4) == 16
    ensures PowerOfTwo(64) == TWO_TO_64
  {
    hide PowerOfTwo;
    PowerSquared(4, 4);
    PowerSquared(8, 8);
    PowerSquared(16, 16);
    PowerSquared(32, 32);
  }

  lemma BitOfWrapped(x: int, k: nat)
    requires k < 64
    ensures Bit(Wrap(x), k) == Bit(x, k) && Bit(x % TWO_TO_64, k) == Bit(x, k)
  {
    hide Bit;
    PowerIs64();
    var c :| Wrap(x) == x + c * TWO_TO_64;
    BitOfSum(x, c, 64, k);
    var d := -(x / TWO_TO_64);
    assert x % TWO_TO_64 == x + d * TWO_TO_64;
    BitOfSum(x, d, 64, k);
  }

  lemma BitOfBits64(op: BitOp, a: int, b: int, k: nat)
    requires k < 64
    ensures Bit(Bits64(op, a, b), k)
         == match op case And => Bit(a, k) && Bit(b, k) case Or => Bit(a, k) || Bit(b, k) case Xor => Bit(a, k) != Bit(b, k)
  {
    hide Bit;
    hide Wrap;
    var m, n := a % TWO_TO_64, b % TWO_TO_64;
    BitOfWrapped(Bitwise(op, 64, m, n), k);
    BitOfBitwise(op, 64, m, n, k);
    BitOfWrapped(a, k);
    BitOfWrapped(b, k);
  }

  /** Each of the 64 bits of a bitwise operation is the boolean operation on the bits. */
  lemma BitwiseOperators(a: int, b: int, k: nat)
    requires Fits(a) && Fits(b) && k < 64
    ensures Bit(Meaning(Ch('|'), a, b), k) <==> Bit(a, k) || Bit(b, k)
    ensures Bit(Meaning(Ch('&'), a, b), k) <==> Bit(a, k) && Bit(b, k)
    ensures Bit(Meaning(Ch('^'), a, b), k) <==> Bit(a, k) != Bit(b, k)
    ensures Fits(Meaning(Ch('|'), a, b)) && Fits(Meaning(Ch('&'), a, b)) && Fits(Meaning(Ch('^'), a, b))
  {
    hide Bit;
    hide Bitwise;
    hide Bits64;
    BitOfBits64(Or, a, b, k);
    BitOfBits64(And, a, b, k);
    BitOfBits64(Xor, a, b, k);
    Bits64Fits(Or, a, b);
    Bits64Fits(And, a, b);
    Bits64Fits(Xor, a, b);
  }

  lemma Bits64Fits(op: BitOp, a: int, b: int)
    ensures Fits(Bits64(op, a, b))
  {
  }

  /** Two intmax_t numbers with the same 64 bits are the same, so the bits say all. */
  lemma BitsDecide(x: int, y: int)
    requires Fits(x) && Fits(y) && forall k :: 0 <= k < 64 ==> Bit(x, k) == Bit(y, k)
    ensures x == y
  {
    PowerIs64();
    var c := SameLowBits(x, y, 64);
  }

  lemma {:induction false} SameLowBits(x: int, y: int, n: nat) returns (c: int)
    requires forall k :: 0 <= k < n ==> Bit(x, k) == Bit(y, k)
    ensures x - y == c * PowerOfTwo(n)
    decreases n
  {
    if n == 0 {
      return x - y;
    }
    assert Bit(x, 0) == Bit(y, 0);
    forall k | 0 <= k < n - 1 ensures Bit(x / 2, k) == Bit(y / 2, k) {
      assert Bit(x, k + 1) == Bit(y, k + 1);
    }
    c := SameLowBits(x / 2, y / 2, n - 1);
    assert x - y == 2 * (x / 2 - y / 2) == c * PowerOfTwo(n);
  }

  // ----- shifts -----

  lemma {:induction false} PowerOfTwoIsPow(k: nat)
    ensures PowerOfTwo(k) == Pow(2, k)
  {
    if k > 0 {
      PowerOfTwoIsPow(k - 1);
    }
  }

  /** Shifting left multiplies by a power of two, modulo 2^64; shifting right divides by it and rounds down. */
  lemma Shifts(a: int, k: int)
    requires Fits(a) && 0 <= k < 64
    ensures Congruent(Meaning(Lsh, a, k), a * Pow(2, k))
    ensures Meaning(Rsh, a, k) * Pow(2, k) <= a < (Meaning(Rsh, a, k) + 1) * Pow(2, k)
  {
    hide Congruent;
    hide Wrap;
    hide Pow;
    hide PowerOfTwo;
    PowerOfTwoIsPow(k);
    WrapIsCongruent(a * PowerOfTwo(k));
    RoundedDown(a, PowerOfTwo(k));
  }

  lemma RoundedDown(a: int, p: nat)
    requires Fits(a) && p > 0
    ensures Wrap(a / p) * p <= a < (Wrap(a / p) + 1) * p
  {
    hide Wrap;
    Divided(a, p);
    RoundsTo(a, p, a / p);
  }

  lemma RoundsTo(a: int, p: int, q: int)
    requires Fits(a) && p > 0 && 0 <= a - q * p < p
    ensures Wrap(q) * p <= a < (Wrap(q) + 1) * p
  {
    hide Wrap;
    assert (q + 1) * p == q * p + p;
    MultipleIsLarger(q, p);
    MultipleIsLarger(q + 1, p);
    Wrapped(q);
    assert Fits(q);
  }

  // ----- powers -----

  /** a ** 0 is 1, and one more in the exponent multiplies by a, modulo 2^64; a power that fits is exact. */
  lemma Powers(a: int, n: nat)
    requires Fits(a)
    ensures Meaning(Power, a, 0) == 1
    ensures Congruent(Meaning(Power, a, n + 1), a * Meaning(Power, a, n))
  {
    hide Congruent;
    hide Wrap;
    hide Pow;
    hide Meaning;
    PowerIsWrapped(a, 0);
    PowerIsWrapped(a, n);
    PowerIsWrapped(a, n + 1);
    PowStep(a, n);
    WrapMulAdd(Pow(a, n), a, 0);
    Wrapped(Wrap(Pow(a, n)) * a);
    Wrapped(1);
  }

  lemma PowerIsWrapped(a: int, n: nat)
    ensures Meaning(Power, a, n) == Wrap(Pow(a, n))
  {
    hide Wrap;
    hide Pow;
  }

  lemma PowStep(a: int, n: nat)
    ensures Pow(a, 0) == 1 && Pow(a, n + 1) == Pow(a, n) * a
  {
  }

  // ----- comparisons and logic -----

  lemma Comparisons(a: int, b: int)
    ensures Meaning(EqEq, a, b) == if a == b then 1 else 0
    ensures Meaning(Neq, a, b) == if a != b then 1 else 0
    ensures Meaning(Leq, a, b) == if a <= b then 1 else 0
    ensures Meaning(Geq, a, b) == if a >= b then 1 else 0
    ensures Meaning(Ch('<'), a, b) == if a < b then 1 else 0
    ensures Meaning(Ch('>'), a, b) == if a > b then 1 else 0
    ensures Meaning(LAnd, a, b) == if a != 0 && b != 0 then 1 else 0
    ensures Meaning(LOr, a, b) == if a != 0 || b != 0 then 1 else 0
    ensures Meaning(Ch(','), a, b) == b
  {
  }

  /** `&&` and `||` are 1 or 0, and look at their right operand only when the left one does not decide. */
  lemma Logic(l: Expr, r: Expr, store: Store, a: int, s: Store)
    requires WellFormed(l) && WellFormed(r) && Eval(l, store) == Val(a, s)
    ensures Eval(Binary(LAnd, l, r), store) == if a == 0 then Val(0, s) else TruthOf(Eval(r, s))
    ensures Eval(Binary(LOr, l, r), store) == if a != 0 then Val(1, s) else TruthOf(Eval(r, s))
  {
    assert Eval(Binary(LAnd, l, r), store) == if a == 0 then Val(0, s) else TruthOf(Eval(r, s));
  }

  function TruthOf(r: Outcome): Outcome {
    if r.Val? then Val(if r.v == 0 then 0 else 1, r.store) else r
  }

  // ----- one operand -----

  /** The unary operators on an operand whose value is a. */
  lemma Negations(e: Expr, store: Store, a: int, after: Store, k: nat)
    requires WellFormed(e) && Eval(e, store) == Val(a, after) && Fits(a) && k < 64
    ensures Eval(Unary('+', e), store) == Val(a, after)
    ensures Eval(Unary('!', e), store) == Val(if a == 0 then 1 else 0, after)
    ensures var r := Eval(Unary('-', e), store);
            r.Val? && r.store == after && Congruent(r.v, -a) && (Fits(-a) ==> r.v == -a) && Meaning(Ch('+'), r.v, a) == 0
    ensures var r := Eval(Unary('~', e), store);
            r.Val? && r.store == after && r.v + a == -1 && (Bit(r.v, k) <==> !Bit(a, k))
  {
    hide Bit;
    hide Congruent;
    hide Wrap;
    hide Eval;
    UnaryEvaluates('+', e, store, a, after);
    UnaryEvaluates('!', e, store, a, after);
    UnaryEvaluates('-', e, store, a, after);
    UnaryEvaluates('~', e, store, a, after);
    Wrapped(-a);
    Wrapped(-a - 1);
    assert Wrap(Wrap(-a) + a) == 0 by {
      WrapMulAdd(-a, 1, a);
      Wrapped(0);
    }
    BitOfComplement(a, k);
  }

  lemma UnaryEvaluates(op: char, e: Expr, store: Store, a: int, after: Store)
    requires WellFormed(Unary(op, e)) && WellFormed(e) && Eval(e, store) == Val(a, after)
    ensures Eval(Unary(op, e), store) == Val(UnaryValue(Ch(op), a), after)
  {
    hide UnaryValue;
  }

  lemma {:induction false} BitOfComplement(a: int, k: nat)
    ensures Bit(-a - 1, k) <==> !Bit(a, k)
    decreases k
  {
    if k > 0 {
      BitOfComplement(a / 2, k - 1);
      assert (-a - 1) / 2 == -(a / 2) - 1;
    }
  }

  /** `++` adds one and `--` takes it away again, modulo 2^64; the old or the new value is the value of the step. */
  lemma Steps(x: string, prefix: bool, up: bool, store: Store)
    requires IsName(x) && Ints(store)
    ensures var was, r := if x in store then store[x] else 0, Eval(Step(x, prefix, up), store);
            && r.Val? && r.store.Keys == store.Keys + {x} && (forall y :: y in store && y != x ==> r.store[y] == store[y])
            && Congruent(r.store[x], if up then was + 1 else was - 1) && r.v == (if prefix then r.store[x] else was)
  {
    hide Congruent;
    hide IsName;
    var was := Get(store, x);
    WrapIsCongruent(was + 1);
    WrapIsCongruent(was - 1);
  }

  // ----- errors -----

  /** An operator fails exactly on a zero divisor and on a negative exponent. */
  lemma Failures(op: Token, a: int, b: int, store: Store)
    ensures Operate(op, a, b, store) ==
              if (op == Ch('/') || op == Ch('%')) && b == 0 then Fail(DivisionByZero, store)
              else if op == Power && b < 0 then Fail(NegativeExponent, store)
              else Val(Meaning(op, a, b), store)
  {
  }

  // ----- what stands in front of `=` -----

  /** The turn of an operator leaves no name behind that an assignment could go to, apart from the comma and from the
      remainder that is taken apart. */
  lemma OperatorsEndNames(op: Token, v: int, w: int, st: State)
    requires Apply(op, v, w, st).Ok?
    ensures var last := Apply(op, v, w, st).st.lasttok;
            if op == Ch(',') || (op == Ch('%') && v == -0x8000_0000_0000_0000 && w == -1) then last == st.lasttok
            else last == if op == LOr || op == LAnd then op else Num
  {
    hide BinaryValue;
  }

  /** `=` and the assignment operators are refused behind anything but a name. */
  lemma AssignmentNeedsName(text: string, st: State)
    requires Within(text, st) && Parse(2, text, st).Ok?
    requires var s := Parse(2, text, st).st;
             (s.curtok == Ch('=') || s.curtok == OpAssign) && s.lasttok != Str
    ensures Parse(1, text, st) == Err(Syntax, Parse(2, text, st).st.vars)
  {
  }

  // ----- what is refused -----

  /** Nothing but a step, a number, a name or an open parenthesis begins an operand, at any level. */
  lemma {:induction false} OperandRefused(level: nat, text: string, st: State)
    requires level <= 15 && Within(text, st)
    requires st.curtok != PreInc && st.curtok != PreDec && st.curtok != Num && st.curtok != Str && st.curtok != Ch('(')
    requires st.curtok != Ch('!') && st.curtok != Ch('~') && st.curtok != Ch('-') && st.curtok != Ch('+')
    ensures Parse(level, text, st) == Err(Syntax, st.vars)
    decreases 15 - level
  {
    if level < 15 {
      OperandRefused(level + 1, text, st);
    }
  }

  /** A parenthesis that is not closed behind its expression is refused, and so is a text that goes on behind one; a blank text
      is 0. */
  lemma EndsRefused(text: string, st: State)
    requires Within(text, st)
    ensures st.curtok == Ch('(') && ReadTok(text, st).Ok? ==>
              var inner := Parse(0, text, ReadTok(text, st).st);
              inner.Ok? && inner.st.curtok != Ch(')') ==> Parse(15, text, st) == Err(Syntax, inner.st.vars)
    ensures st.depth < MAX_EXPR_RECURSION_LEVEL && SkipBlanks(text, 0) < |text| ==>
              var entry := State(0, End, End, st.assigntok, 0, "", st.noeval, st.depth + 1, st.vars);
              ReadTok(text, entry).Ok? ==>
                var whole := Parse(0, text, ReadTok(text, entry).st);
                whole.Ok? && whole.st.curtok != End ==> Subexpr(text, st) == Err(Syntax, whole.st.vars)
    ensures SkipBlanks(text, 0) == |text| ==> Subexpr(text, st) == Ok(st, 0)
  {
    hide ReadTok;
    hide SkipBlanks;
  }
}
