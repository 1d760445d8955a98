/** strlong and ipow: reading numbers in a base, and integer powers. */
module ExprNumbers {
  import opened Text
  import opened Int64

  // ----- ipow -----

  function Pow(base: int, exp: nat): int {
    if exp == 0 then 1 else base * Pow(base, exp - 1)
  }

  lemma {:induction false} PowSquare(base: int, k: nat)
    ensures Pow(base, 2 * k) == Pow(base * base, k)
  {
    if k > 0 {
      PowSquare(base, k - 1);
      assert Pow(base, 2 * k) == base * (base * Pow(base, 2 * k - 2));
      assert base * (base * Pow(base * base, k - 1)) == (base * base) * Pow(base * base, k - 1);
    }
  }

  lemma Regroup(a: int, b: int, c: int)
    ensures (a * b) * c == a * (b * c) == b * (a * c)
  {
  }

  /** A wrapped base gives the same wrapped power, times anything. */
  lemma {:induction false} PowOfWrapped(base: int, exp: nat, c: int)
    ensures Wrap(c * Pow(Wrap(base), exp)) == Wrap(c * Pow(base, exp))
  {
    hide Wrap;
    if exp > 0 {
      var w, p := Wrap(base), Pow(base, exp - 1);
      PowOfWrapped(base, exp - 1, c * w);
      Regroup(c, w, Pow(w, exp - 1));
      Regroup(c, w, p);
      WrapMulAdd(base, c * p, 0);
      Regroup(c, base, p);
    }
  }

  lemma HalveOdd(result: int, base: int, exp: nat)
    requires exp % 2 == 1
    ensures result * Pow(base, exp) == (result * base) * Pow(base * base, exp / 2)
  {
    PowSquare(base, exp / 2);
    assert exp == 2 * (exp / 2) + 1;
    assert Pow(base, exp) == base * Pow(base, exp - 1);
    assert result * (base * Pow(base, exp - 1)) == (result * base) * Pow(base, exp - 1);
  }

  /** The power still to be multiplied in makes up the whole one. */
  ghost predicate Pending(result: int, base: int, exp: nat, base0: int, exp0: nat) {
    Wrap(result * Pow(base, exp)) == Wrap(Pow(base0, exp0))
  }

  /** One turn of the loop keeps it. */
  lemma SquareStep(result: int, base: int, exp: nat, base0: int, exp0: nat)
    requires exp > 0 && Pending(result, base, exp, base0, exp0)
    ensures 0 <= exp / 2 < exp
    ensures exp % 2 == 1 ==> Pending(Wrap(result * base), Wrap(base * base), exp / 2, base0, exp0)
    ensures exp % 2 != 1 ==> Pending(result, Wrap(base * base), exp / 2, base0, exp0)
  {
    PowOfWrapped(base * base, exp / 2, if exp % 2 == 1 then Wrap(result * base) else result);
    if exp % 2 == 1 {
      HalveOdd(result, base, exp);
      WrapMulAdd(result * base, Pow(base * base, exp / 2), 0);
    } else {
      assert Pow(base, exp) == Pow(base * base, exp / 2) by {
        PowSquare(base, exp / 2);
      }
    }
  }

  lemma NothingPending(base: int, base0: int, exp0: nat)
    ensures Pending(1, base0, exp0, base0, exp0)
    ensures forall result :: InRange(result) && Pending(result, base, 0, base0, exp0) ==> result == Wrap(Pow(base0, exp0))
  {
  }

  /** ipow: square and multiply, in wrapping arithmetic. */
  method Ipow(base0: int, exp0: int) returns (result: int)
    requires InRange(base0) && InRange(exp0) && exp0 >= 0
    ensures result == Wrap(Pow(base0, exp0))
  {
    hide Pending;
    var base, exp := base0, exp0;
    result := 1;
    NothingPending(base, base0, exp0);
    while exp != 0
      invariant exp >= 0 && InRange(result) && Pending(result, base, exp, base0, exp0)
    {
      SquareStep(result, base, exp, base0, exp0);
      if exp % 2 == 1 {
        result := Wrap(result * base);
      }
      exp := exp / 2;
      base := Wrap(base * base);
    }
    NothingPending(base, base0, exp0);
  }

  /** Whenever the exact power fits, it is the result. */
  lemma PowFits(base: int, exp: nat)
    requires InRange(Pow(base, exp))
    ensures Wrap(Pow(base, exp)) == Pow(base, exp)
  {
  }

  // ----- strlong -----

  datatype Parsed = Value(v: int) | BadNumber

  predicate NumberChar(c: char) {
    IsAlnum(c) || c == '_' || c == '@'
  }

  /** The digit a character stands for; capital letters read like small ones up to base 36. */
  function DigitOf(c: char, base: int): nat
    requires NumberChar(c)
  {
    if IsDigit(c) then c as int - '0' as int
    else if 'a' <= c <= 'z' then c as int - 'a' as int + 10
    else if 'A' <= c <= 'Z' then c as int - 'A' as int + if base <= 36 then 10 else 36
    else if c == '@' then 62
    else 63
  }

  /** The loop of strlong from index i on. */
  function StrlongFrom(s: string, i: nat, base: int, foundBase: bool, val: int): Parsed
    decreases |s| - i
  {
    if i >= |s| then Value(Wrap(val))
    else if s[i] == '#' then
      if foundBase || val < 2 || val > 64 then BadNumber else StrlongFrom(s, i + 1, val, true, 0)
    else if NumberChar(s[i]) then
      if DigitOf(s[i], base) >= base then BadNumber
      else StrlongFrom(s, i + 1, base, foundBase, Wrap(val * base + DigitOf(s[i], base)))
    else Value(Wrap(val))
  }

  /** Where the digits start and the base a leading 0 or 0x announces. */
  function Prefix(s: string): (nat, int, bool) {
    if At(s, 0) != '0' then (0, 10, false)
    else if At(s, 1) == 'x' || At(s, 1) == 'X' then (2, 16, true)
    else (1, 8, true)
  }

  function Strlong(s: string): Parsed {
    if s == "0" then Value(0)
    else
      var (start, base, found) := Prefix(s);
      StrlongFrom(s, start, base, found, 0)
  }

  /** strlong: the value of a number in C notation or base#digits, or an error. */
  method ReadNumber(num: string) returns (r: Parsed)
    ensures r == Strlong(num)
  {
    var i, base: int, foundBase := 0, 10, false;
    if At(num, 0) == '0' {
      i := 1;
      if i == |num| {
        return Value(0);
      }
      if num[i] == 'x' || num[i] == 'X' {
        base := 16;
        i := i + 1;
      } else {
        base := 8;
      }
      foundBase := true;
    }
    var val: int := 0;
    while i < |num|
      invariant InRange(val) && StrlongFrom(num, i, base, foundBase, val) == Strlong(num)
      decreases |num| - i
    {
      var c := num[i];
      if c == '#' {
        if foundBase || val < 2 || val > 64 {
          return BadNumber;
        }
        base := val;
        val := 0;
        foundBase := true;
      } else if NumberChar(c) {
        var d := DigitOf(c, base);
        if d >= base {
          return BadNumber;
        }
        val := Wrap(val * base + d);
      } else {
        break;
      }
      i := i + 1;
    }
    return Value(val);
  }

  /** The number digits stand for, most significant first, after what was read before them. */
  function Horner(acc: int, base: int, digits: seq<nat>): int
    decreases digits
  {
    if digits == [] then acc else Horner(acc * base + digits[0], base, digits[1..])
  }

  function Numerals(): (s: string)
    ensures |s| == 10
  {
    "0123456789"
  }

  function Small(): (s: string)
    ensures |s| == 26
  {
    "abcdefghijklmnopqrstuvwxyz"
  }

  function Capital(): (s: string)
    ensures |s| == 26
  {
    "ABCDEFGHIJKLMNOPQRSTUVWXYZ"
  }

  /** The characters for the digits 0 to 63. */
  function Alphabet(): (s: string)
    ensures |s| == 64
  {
    Numerals() + Small() + Capital() + "@_"
  }

  /** c is written for the digit d in a base: by the alphabet, or by a capital letter for a small one up to base 36. */
  predicate Writes(c: char, base: int, d: nat) {
    d < 64 && (c == Alphabet()[d] || (base <= 36 && 10 <= d < 36 && c == Capital()[d - 10]))
  }

  /** The text spells the digits in the base. */
  ghost predicate SpellsDigits(text: string, base: int, digits: seq<nat>) {
    |text| == |digits| && forall i :: 0 <= i < |text| ==> digits[i] < base && Writes(text[i], base, digits[i])
  }

  lemma NumeralAt(k: nat)
    requires k < 10
    ensures Numerals()[k] == '0' + k as char
  {
  }

  lemma SmallAt(k: nat)
    requires k < 26
    ensures Small()[k] == 'a' + k as char
  {
  }

  lemma CapitalAt(k: nat)
    requires k < 26
    ensures Capital()[k] == 'A' + k as char
  {
  }

  /** A written digit is read as itself. */
  lemma WrittenIsRead(c: char, base: int, d: nat)
    requires 2 <= base <= 64 && d < base && Writes(c, base, d)
    ensures NumberChar(c) && c != '#' && DigitOf(c, base) == d
  {
    hide Numerals;
    hide Small;
    hide Capital;
    if d < 10 {
      NumeralAt(d);
    } else if d < 36 {
      SmallAt(d - 10);
      CapitalAt(d - 10);
    } else if d < 62 {
      CapitalAt(d - 36);
    }
  }

  /** One turn of the loop on a written digit. */
  lemma DigitStep(s: string, i: nat, base: int, found: bool, acc: int, d: nat)
    requires i < |s| && 2 <= base <= 64 && d < base && Writes(s[i], base, d)
    ensures StrlongFrom(s, i, base, found, Wrap(acc)) == StrlongFrom(s, i + 1, base, found, Wrap(acc * base + d))
  {
    hide Writes;
    hide Wrap;
    WrittenIsRead(s[i], base, d);
    WrapMulAdd(acc, base, d);
  }

  /** Spelled digits are passed, and evaluated in the base, in wrapping arithmetic. */
  lemma {:induction false} DigitsPassed(s: string, i: nat, base: int, found: bool, acc: int, digits: seq<nat>)
    requires i + |digits| <= |s| && 2 <= base <= 64 && SpellsDigits(s[i..i + |digits|], base, digits)
    ensures StrlongFrom(s, i, base, found, Wrap(acc))
         == StrlongFrom(s, i + |digits|, base, found, Wrap(Horner(acc, base, digits)))
    decreases |digits|
  {
    hide Writes;
    hide Wrap;
    if digits != [] {
      var end := i + |digits|;
      assert s[i] == s[i..end][0] && s[i + 1..end] == s[i..end][1..];
      DigitStep(s, i, base, found, acc, digits[0]);
      DigitsPassed(s, i + 1, base, found, acc * base + digits[0], digits[1..]);
    }
  }

  lemma DigitsRead(s: string, i: nat, base: int, found: bool, acc: int, digits: seq<nat>)
    requires i <= |s| && 2 <= base <= 64 && SpellsDigits(s[i..], base, digits)
    ensures StrlongFrom(s, i, base, found, Wrap(acc)) == Value(Wrap(Horner(acc, base, digits)))
  {
    hide Wrap;
    hide Horner;
    hide Writes;
    assert s[i..i + |digits|] == s[i..];
    DigitsPassed(s, i, base, found, acc, digits);
    WrapTwice(Horner(acc, base, digits));
  }

  lemma WrapTwice(x: int)
    ensures Wrap(Wrap(x)) == Wrap(x)
  {
  }

  /** With a base in 2..64 spelled in decimal before a `#`, the digits after it are read in that base. */
  lemma BasedNumber(text: string, base: int, digits: seq<nat>)
    requires 2 <= base <= 64 && SpellsDigits(text, base, digits)
    ensures Strlong(NatToString(base) + "#" + text) == Value(Wrap(Horner(0, base, digits)))
  {
    var b := NatToString(base);
    var s := b + "#" + text;
    assert s[|b| + 1..] == text;
    DigitsRead(s, |b| + 1, base, true, 0, digits);
    BaseRead(s, base);
  }

  /** The one or two characters before the `#` are read as the base. */
  lemma BaseRead(s: string, base: int)
    requires 2 <= base <= 64 && NatToString(base) + "#" <= s
    ensures Strlong(s) == StrlongFrom(s, |NatToString(base)| + 1, base, true, 0)
  {
    var b := NatToString(base);
    assert s[..|b| + 1] == b + "#";
    assert forall i :: 0 <= i < |b| ==> s[i] == b[i];
    assert s[|b|] == '#';
    if base < 10 {
      assert b == [DigitChar(base)];
      assert StrlongFrom(s, 0, 10, false, 0) == StrlongFrom(s, 1, 10, false, base);
    } else {
      assert NatToString(base / 10) == [DigitChar(base / 10)];
      assert b == [DigitChar(base / 10), DigitChar(base % 10)];
      assert StrlongFrom(s, 1, 10, false, base / 10) == StrlongFrom(s, 2, 10, false, base);
    }
  }

  /** A leading 0 means octal. */
  lemma OctalNumber(text: string, digits: seq<nat>)
    requires text != "" && SpellsDigits(text, 8, digits)
    ensures Strlong("0" + text) == Value(Wrap(Horner(0, 8, digits)))
  {
    assert ("0" + text)[1] == text[0] && ("0" + text)[1..] == text;
    DigitsRead("0" + text, 1, 8, true, 0, digits);
  }

  /** A leading 0x or 0X means hexadecimal. */
  lemma HexNumber(x: char, text: string, digits: seq<nat>)
    requires (x == 'x' || x == 'X') && SpellsDigits(text, 16, digits)
    ensures Strlong(['0', x] + text) == Value(Wrap(Horner(0, 16, digits)))
  {
    assert (['0', x] + text)[2..] == text;
    DigitsRead(['0', x] + text, 2, 16, true, 0, digits);
  }

  // ----- numbers that are refused -----

  /** A character of the alphabet that is written for no digit below the base ends in an error. */
  lemma DigitRefused(base: int, text: string, digits: seq<nat>, c: char, rest: string)
    requires 2 <= base <= 64 && SpellsDigits(text, base, digits) && c in Alphabet()
    requires forall d :: 0 <= d < base ==> !Writes(c, base, d)
    ensures Strlong(NatToString(base) + "#" + (text + [c] + rest)) == BadNumber
  {
    hide Alphabet;
    hide Writes;
    hide Horner;
    hide DigitOf;
    hide NumberChar;
    var b := NatToString(base);
    var s := b + "#" + (text + [c] + rest);
    var i := |b| + 1;
    assert s[i..i + |text|] == text && s[i + |text|] == c;
    BaseRead(s, base);
    DigitsPassed(s, i, base, true, 0, digits);
    AlphabetIsRead(c, base);
  }

  /** Every character of the alphabet is written for the digit it is read as. */
  lemma AlphabetIsRead(c: char, base: int)
    requires 2 <= base <= 64 && c in Alphabet()
    ensures NumberChar(c) && c != '#' && DigitOf(c, base) < 64 && Writes(c, base, DigitOf(c, base))
  {
    hide Numerals;
    hide Small;
    hide Capital;
    var d :| 0 <= d < 64 && c == Alphabet()[d];
    if d < 10 {
      NumeralAt(d);
    } else if d < 36 {
      SmallAt(d - 10);
    } else if d < 62 {
      CapitalAt(d - 36);
    }
  }

  /** A second `#` is refused, and so is one in an octal or hexadecimal number. */
  lemma HashRefused(base: int, text: string, digits: seq<nat>, rest: string)
    requires SpellsDigits(text, base, digits)
    ensures 2 <= base <= 64 ==> Strlong(NatToString(base) + "#" + (text + "#" + rest)) == BadNumber
    ensures base == 16 ==> Strlong("0x" + (text + "#" + rest)) == BadNumber
    ensures base == 8 && text != "" ==> Strlong("0" + (text + "#" + rest)) == BadNumber
  {
    hide Writes;
    hide Horner;
    if 2 <= base <= 64 {
      HashBehind(NatToString(base) + "#", text, base, digits, rest);
      BaseRead(NatToString(base) + "#" + (text + "#" + rest), base);
    }
    if base == 16 {
      HashBehind("0x", text, base, digits, rest);
    }
    if base == 8 && text != "" {
      HashBehind("0", text, base, digits, rest);
      WrittenIsRead(text[0], 8, digits[0]);
    }
  }

  lemma HashBehind(front: string, text: string, base: int, digits: seq<nat>, rest: string)
    requires 2 <= base <= 64 && SpellsDigits(text, base, digits)
    ensures StrlongFrom(front + (text + "#" + rest), |front|, base, true, 0) == BadNumber
  {
    hide Writes;
    hide Horner;
    var s, i := front + (text + "#" + rest), |front|;
    assert s[i..i + |text|] == text && s[i + |text|] == '#';
    DigitsPassed(s, i, base, true, 0, digits);
  }

  /** A base outside 2 to 64 is refused. */
  lemma BaseRefused(n: nat, rest: string)
    requires Wrap(n) < 2 || Wrap(n) > 64
    ensures Strlong(NatToString(n) + "#" + rest) == BadNumber
  {
    hide Wrap;
    hide DigitsIn;
    var b := NatToString(n);
    var s := b + "#" + rest;
    if n == 0 {
      assert s[0] == '0' && s[1] == '#';
    } else {
      DecimalSpells(n);
      DigitsEvaluate(n, 10);
      assert s[0..|b|] == b && s[0] == b[0] && s[|b|] == '#';
      DigitsPassed(s, 0, 10, false, 0, DigitsIn(n, 10));
    }
  }

  // ----- canonical digits -----

  lemma LeadingIsSmaller(n: nat, base: nat)
    requires n >= base >= 2
    ensures 0 <= n / base < n && 0 <= n % base < base
  {
    assert n == (n / base) * base + n % base;
    assert (n / base) * base >= (n / base) * 2;
  }

  /** The digits of n in a base, without leading zeros. */
  function DigitsIn(n: nat, base: nat): (digits: seq<nat>)
    requires base >= 2
    ensures digits != [] && forall i :: 0 <= i < |digits| ==> digits[i] < base
  {
    if n < base then [n]
    else
      LeadingIsSmaller(n, base);
      DigitsIn(n / base, base) + [n % base]
  }

  lemma {:induction false} HornerAppend(acc: int, base: int, digits: seq<nat>, d: nat)
    ensures Horner(acc, base, digits + [d]) == Horner(acc, base, digits) * base + d
    decreases digits
  {
    if digits == [] {
      assert ([] + [d])[1..] == [];
    } else {
      assert (digits + [d])[1..] == digits[1..] + [d];
      HornerAppend(acc * base + digits[0], base, digits[1..], d);
    }
  }

  lemma {:induction false} DigitsEvaluate(n: nat, base: nat)
    requires base >= 2
    ensures Horner(0, base, DigitsIn(n, base)) == n
  {
    assert 0 <= n / base && 0 <= n % base < base && n == (n / base) * base + n % base;
    assert n >= base ==> n / base < n;
    if n >= base {
      var q, r := n / base, n % base;
      DigitsEvaluate(q, base);
      HornerAppend(0, base, DigitsIn(q, base), r);
    }
  }

  /** No partial value on the way to n is larger than n, so the loop never overflows when n fits. */
  lemma {:induction false} PartialValuesFit(n: nat, base: nat, k: nat)
    requires base >= 2 && k <= |DigitsIn(n, base)|
    ensures 0 <= Horner(0, base, DigitsIn(n, base)[..k]) <= n
  {
    hide Horner;
    var digits := DigitsIn(n, base);
    if k == |digits| {
      assert digits[..k] == digits;
      DigitsEvaluate(n, base);
    } else if n < base {
      assert digits[..k] == [];
      NoDigits(base);
    } else {
      var q := Quotient(n, base);
      PartialValuesFit(q, base, k);
      assert digits[..k] == DigitsIn(q, base)[..k];
    }
  }

  lemma NoDigits(base: int)
    ensures Horner(0, base, []) == 0
  {
  }

  lemma Quotient(n: nat, base: nat) returns (q: nat)
    requires base >= 2 && n >= base
    ensures q == n / base && q < n && DigitsIn(n, base) == DigitsIn(q, base) + [n % base]
  {
    assert 0 <= n / base && 0 <= n % base < base && n == (n / base) * base + n % base;
    assert n >= base ==> n / base < n;
    q := n / base;
  }

  /** Every spelling of the digits of n in a base from 2 to 64 reads back as n. */
  lemma NumberRoundTrip(n: nat, base: nat, text: string)
    requires 2 <= base <= 64 && n <= INTMAX_MAX && SpellsDigits(text, base, DigitsIn(n, base))
    ensures Strlong(NatToString(base) + "#" + text) == Value(n)
  {
    BasedNumber(text, base, DigitsIn(n, base));
    DigitsEvaluate(n, base);
  }

  lemma {:induction false} DecimalSpells(n: nat)
    ensures SpellsDigits(NatToString(n), 10, DigitsIn(n, 10))
  {
    hide Numerals;
    hide Small;
    hide Capital;
    NumeralAt(n % 10);
    if n >= 10 {
      DecimalSpells(n / 10);
    }
  }

  /** The decimal spelling that itos writes reads back, wrapped, as its number. */
  lemma DecimalNumber(n: nat)
    ensures Strlong(NatToString(n)) == Value(Wrap(n))
  {
    var s := NatToString(n);
    DecimalSpells(n);
    assert s[0..] == s;
    DigitsRead(s, 0, 10, false, 0, DigitsIn(n, 10));
    DigitsEvaluate(n, 10);
  }
}
