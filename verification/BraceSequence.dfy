/** mkseq and expand_seqterm: the words of {x..y} and {x..y..incr}. */
module BraceSequence {
  import opened Text
  import opened Int64

  datatype Option<T> = None | Some(value: T)

  /** What kind of words a sequence has: integers, single characters, zero-padded integers. */
  datatype TermType = IntTerm | CharTerm | PaddedTerm

  function Zeros(n: int): string
    decreases n
  {
    if n <= 0 then "" else "0" + Zeros(n - 1)
  }

  /** The int that an intmax_t value becomes when it is assigned to one. */
  function ToInt32(n: int): int {
    var m := n % 0x1_0000_0000;
    if m > INT_MAX then m - 0x1_0000_0000 else m
  }

  /** One word of a sequence; %0*d pads between the sign and the digits. */
  function RenderTerm(kind: TermType, width: nat, n: int): string {
    match kind
    case IntTerm => IntToString(n)
    case CharTerm => if n % 256 == 0 then "" else [(n % 256) as char]
    case PaddedTerm =>
      var arg := ToInt32(n);
      var digits := NatToString(Abs(arg));
      if arg < 0 then "-" + Zeros(width - 1 - |digits|) + digits
      else Zeros(width - |digits|) + digits
  }

  predicate AddOverflow(a: int, b: int, minv: int, maxv: int) {
    (a > 0 && b > maxv - a) || (a < 0 && b < minv - a)
  }

  predicate SubOverflow(a: int, b: int, minv: int, maxv: int) {
    (b > 0 && a < minv + b) || (b < 0 && a > maxv + b)
  }

  /** The increment after its sign was made to point from start to end; none when it cannot be negated. */
  function Normalised(start: int, end: int, incr: int): (step: Option<int>)
    ensures step.None? <==> start < end && incr == INTMAX_MIN
    ensures step.Some? ==> PointsTo(start, end, step.value) && Abs(step.value) == if incr == 0 then 1 else Abs(incr)
  {
    var incr := if incr == 0 then 1 else incr;
    if start > end && incr > 0 then Some(-incr)
    else if start < end && incr < 0 then
      if incr == INTMAX_MIN then None else Some(-incr)
    else Some(incr)
  }

  predicate RangeTooWide(start: int, end: int) {
    SubOverflow(end, start, INTMAX_MIN + 3, INTMAX_MAX - 2)
  }

  /** How many terms lie between start and end, both included. */
  function TermCount(start: int, end: int, step: int): (n: nat)
    requires step != 0
    ensures n > 0
  {
    Abs(end - start) / Abs(step) + 1
  }

  /** The number mkseq puts in slot k: start, then one step more each time. */
  function Term(start: int, step: int, k: nat): int {
    if k == 0 then start else Term(start, step, k - 1) + step
  }

  lemma {:induction false} TermClosedForm(start: int, step: int, k: nat)
    ensures Term(start, step, k) == start + k * step
  {
    if k > 0 {
      TermClosedForm(start, step, k - 1);
      assert (k - 1) * step + step == k * step;
    }
  }

  function SequenceWords(kind: TermType, width: nat, start: int, step: int, count: nat): (words: seq<string>)
    ensures |words| == count
  {
    seq(count, k requires 0 <= k => RenderTerm(kind, width, Term(start, step, k)))
  }

  /** The quotient of the width and the size of the step, in intmax_t. Negating INTMAX_MIN gives INTMAX_MIN again, so it has
      the wrong sign from 0 down to INTMAX_MIN. */
  function Quotient(start: int, end: int, step: int): int
    requires step != 0 && InRange(step)
  {
    TruncDiv(Wrap(Abs(end - start)), Wrap(Abs(step)))
  }

  /** The guard on the count: one more than the quotient would be no intmax_t. */
  predicate CountOverflows(start: int, end: int, step: int)
    requires step != 0 && InRange(step)
  {
    AddOverflow(Quotient(start, end, step), 1, INTMAX_MIN, INTMAX_MAX)
  }

  /** What the code takes for the number of terms. */
  function Counted(start: int, end: int, step: int): int
    requires step != 0 && InRange(step)
  {
    Quotient(start, end, step) + 1
  }

  /** The same as an int: nelem. */
  function Nelem(start: int, end: int, step: int): int
    requires step != 0 && InRange(step)
  {
    ToInt32(Counted(start, end, step))
  }

  /** What mkseq does: a guard or malloc refuses; the words and their terminator fit into the vector of nelem + 1 slots; or the
      loop writes its words behind the slots it asked for. */
  datatype Generated = Refused | Words(words: seq<string>) | Overrun(slots: nat, words: seq<string>)

  /** The guards let the range through, and the vector they ask for has a size: nelem + 1 below 0 reads as a request for nearly
      2^64 bytes. */
  predicate Reserved(start: int, end: int, step: int)
    requires step != 0 && InRange(step)
  {
    && !RangeTooWide(start, end) && !CountOverflows(start, end, step)
    && -1 <= Nelem(start, end, step) <= INT_MAX - 2
  }

  function Sequence(start: int, end: int, incr: int, kind: TermType, width: nat): (r: Generated)
    requires InRange(start) && InRange(end) && InRange(incr)
    ensures !r.Refused? ==> |r.words| > 0
  {
    match Normalised(start, end, incr)
    case None => Refused
    case Some(step) =>
      if !Reserved(start, end, step) then Refused
      else
        var slots := Nelem(start, end, step) + 1;
        var words := SequenceWords(kind, width, start, step, TermCount(start, end, step));
        if |words| < slots then Words(words) else Overrun(slots, words)
  }

  lemma QuotientBounds(d: nat, a: nat, k: nat)
    requires a > 0
    ensures k <= d / a <==> k * a <= d
  {
    var q := d / a;
    assert d == q * a + d % a;
    if k <= q {
      assert k * a <= q * a;
    } else {
      assert k * a >= (q + 1) * a == q * a + a;
    }
  }

  /** Term k has not passed end. */
  predicate InSpan(start: int, end: int, step: int, k: nat) {
    if step > 0 then Term(start, step, k) <= end else Term(start, step, k) >= end
  }

  predicate PointsTo(start: int, end: int, step: int) {
    step != 0 && (start > end ==> step < 0) && (start < end ==> step > 0)
  }

  /** The terms with k below the count are exactly those that have not passed end. */
  lemma TermsUpToEnd(start: int, end: int, step: int, k: nat)
    requires PointsTo(start, end, step)
    ensures k < TermCount(start, end, step) <==> InSpan(start, end, step, k)
  {
    TermClosedForm(start, step, k);
    QuotientBounds(Abs(end - start), Abs(step), k);
    if step < 0 {
      assert k * Abs(step) == -(k * step);
    }
  }

  /** Every term is an intmax_t, so the words mkseq renders are those of the exact sums. */
  lemma TermsInRange(start: int, end: int, step: int, k: nat)
    requires InRange(start) && InRange(end) && PointsTo(start, end, step)
    requires k < TermCount(start, end, step)
    ensures InRange(Term(start, step, k))
  {
    TermsUpToEnd(start, end, step, k);
    TermClosedForm(start, step, k);
    assert step > 0 ==> k * step >= 0;
    assert step < 0 ==> k * step <= 0;
  }

  /** The exit test of the generating loop, made after n was advanced. */
  predicate PastEnd(n: int, end: int, incr: int) {
    (incr < 0 && n < end) || (incr > 0 && n > end)
  }

  /** After the term before k, the loop goes on exactly when term k is in the span, and then n is term k. */
  lemma LoopExitIsSpanEnd(start: int, end: int, incr: int, n: int, k: nat)
    requires InRange(end) && InRange(incr) && PointsTo(start, end, incr)
    requires k > 0 && n == Term(start, incr, k - 1) && InRange(n)
    ensures AddOverflow(n, incr, INTMAX_MIN, INTMAX_MAX) ==> !InSpan(start, end, incr, k)
    ensures !AddOverflow(n, incr, INTMAX_MIN, INTMAX_MAX) ==>
              InRange(n + incr) && n + incr == Term(start, incr, k)
              && (PastEnd(n + incr, end, incr) <==> !InSpan(start, end, incr, k))
  {
  }

  /** The generating loop of mkseq over a vector of slots entries: one entry per term, stopping before an addition would
      overflow or pass end, then the null pointer behind them. It is followed up to the first write behind the vector. */
  method FillTerms(start: int, end: int, incr: int, render: int -> string, slots: nat)
    returns (result: array<Option<string>>, stop: nat)
    requires InRange(start) && InRange(end) && InRange(incr) && PointsTo(start, end, incr)
    ensures fresh(result) && result.Length == slots
    ensures stop == if TermCount(start, end, incr) < slots then TermCount(start, end, incr) else slots
    ensures forall k :: 0 <= k < stop ==> result[k] == Some(render(Term(start, incr, k)))
    ensures stop < slots ==> result[stop] == None
  {
    hide Term;
    hide TermCount;
    hide AddOverflow;
    TermClosedForm(start, incr, 0);
    result := new Option<string>[slots];
    var i, n := 0, start;
    while true
      invariant 0 <= i < TermCount(start, end, incr) && i <= slots && n == Term(start, incr, i) && InRange(n)
      invariant forall k {:trigger result[k]} :: 0 <= k < i ==> result[k] == Some(render(Term(start, incr, k)))
      decreases TermCount(start, end, incr) - i
    {
      if i == slots {
        return result, slots;
      }
      result[i] := Some(render(n));
      i := i + 1;
      LoopExitIsSpanEnd(start, end, incr, n, i);
      TermsUpToEnd(start, end, incr, i);
      if AddOverflow(n, incr, INTMAX_MIN, INTMAX_MAX) {
        break;
      }
      n := n + incr;
      if PastEnd(n, end, incr) {
        break;
      }
    }
    assert i == TermCount(start, end, incr);
    if i < slots {
      result[i] := None;
    }
    return result, i;
  }

  /** The sign handling at the top of mkseq: the increment keeps its size and points from start to end, unless it is the one
      that has no negative and points the wrong way. */
  method NormaliseIncrement(start: int, end: int, incr0: int) returns (step: Option<int>)
    ensures step.None? <==> start < end && incr0 == INTMAX_MIN
    ensures step.Some? ==> PointsTo(start, end, step.value) && Abs(step.value) == if incr0 == 0 then 1 else Abs(incr0)
    ensures step.Some? && start == end && incr0 != 0 ==> step.value == incr0
    ensures step.Some? && start == end && incr0 == 0 ==> step.value == 1
  {
    var incr := incr0;
    if incr == 0 {
      incr := 1;
    }
    if start > end && incr > 0 {
      incr := -incr;
    } else if start < end && incr < 0 {
      if incr == INTMAX_MIN {
        return None;
      }
      incr := -incr;
    }
    return Some(incr);
  }

  /** mkseq: normalises the increment, guards the range and the count, and fills the result vector. */
  method Mkseq(start: int, end: int, incr: int, kind: TermType, width: nat) returns (r: Generated)
    requires InRange(start) && InRange(end) && InRange(incr)
    ensures r == Sequence(start, end, incr, kind, width)
  {
    hide Counted;
    hide ToInt32;
    hide CountOverflows;
    hide SequenceWords;
    hide TermCount;
    var step := NormaliseIncrement(start, end, incr);
    if step.None? || RangeTooWide(start, end) || CountOverflows(start, end, step.value) {
      return Refused;
    }
    var nelem := Nelem(start, end, step.value);
    if nelem > INT_MAX - 2 || nelem + 1 < 0 {
      return Refused;
    }
    r := GenerateTerms(start, end, step.value, kind, width, nelem + 1);
  }

  /** The rest of mkseq, once it has its vector. */
  method GenerateTerms(start: int, end: int, step: int, kind: TermType, width: nat, slots: nat) returns (r: Generated)
    requires InRange(start) && InRange(end) && InRange(step) && PointsTo(start, end, step)
    ensures var words := SequenceWords(kind, width, start, step, TermCount(start, end, step));
            r == if |words| < slots then Words(words) else Overrun(slots, words)
  {
    hide TermCount;
    var vector, stop := FillTerms(start, end, step, n => RenderTerm(kind, width, n), slots);
    var cells := vector[..];
    if stop < slots {
      r := Words(seq(stop, k requires 0 <= k < stop && cells[k].Some? => cells[k].value));
    } else {
      r := Overrun(slots, SequenceWords(kind, width, start, step, TermCount(start, end, step)));
    }
  }

  // ----- when the guard on the count is sound -----

  /** The range from 0 down to INTMAX_MIN, whose width is no intmax_t. */
  predicate NoWidth(start: int, end: int) {
    start == 0 && end == INTMAX_MIN
  }

  /** Everywhere else the code counts the terms rightly, and its guard keeps the count an intmax_t. */
  lemma CountedIsCount(start: int, end: int, step: int)
    requires InRange(start) && InRange(end) && InRange(step) && step != 0
    requires !RangeTooWide(start, end) && !NoWidth(start, end)
    ensures Counted(start, end, step) == TermCount(start, end, step)
    ensures InRange(Counted(start, end, step)) <==> !CountOverflows(start, end, step)
  {
    var d := Abs(end - start);
    if step == INTMAX_MIN {
      assert Wrap(Abs(step)) == INTMAX_MIN;
      assert d / Abs(step) == 0;
    } else {
      assert Wrap(Abs(step)) == Abs(step);
    }
    QuotientBounds(d, Abs(step), INTMAX_MAX + 1);
    assert (INTMAX_MAX + 1) * Abs(step) > d;
  }

  /** The guard on the count fires on three ranges only, all in steps of one: 0 to INTMAX_MAX, 0 to -INTMAX_MAX, and -1 to
      INTMAX_MIN. */
  lemma CountOverflowsAt(start: int, end: int, step: int)
    requires InRange(start) && InRange(end) && InRange(step) && step != 0 && !RangeTooWide(start, end)
    ensures CountOverflows(start, end, step)
            <==> Abs(step) == 1 && ((start == 0 && Abs(end) == INTMAX_MAX) || (start == -1 && end == INTMAX_MIN))
  {
    if NoWidth(start, end) {
      CountedWithoutWidth(step);
      AtLeastTwo(step);
    } else {
      CountedIsCount(start, end, step);
      QuotientBounds(Abs(end - start), Abs(step), INTMAX_MAX);
      assert Abs(step) > 1 ==> INTMAX_MAX * Abs(step) > Abs(end - start);
    }
  }

  /** From 0 to INTMAX_MIN the code counts from the wrong side of 0, except in one step of the whole width. */
  lemma CountedWithoutWidth(step: int)
    requires InRange(step) && step != 0
    ensures Counted(0, INTMAX_MIN, step)
         == if step == INTMAX_MIN then TermCount(0, INTMAX_MIN, step) else 2 - TermCount(0, INTMAX_MIN, step)
  {
    assert Wrap(Abs(INTMAX_MIN)) == INTMAX_MIN;
    if step == INTMAX_MIN {
      assert Abs(INTMAX_MIN) / Abs(INTMAX_MIN) == 1;
    } else {
      assert Wrap(Abs(step)) == Abs(step);
    }
  }

  lemma NarrowedIsItself(n: int)
    ensures ToInt32(n) == n <==> -0x8000_0000 <= n <= INT_MAX
    ensures -0x8000_0000 <= ToInt32(n) <= INT_MAX
  {
  }

  /** A vector is reserved for less than the count, which lost a multiple of 2^32 or, from 0 to INTMAX_MIN, has the wrong
      sign. */
  predicate Miscounted(start: int, end: int, step: int)
    requires InRange(step) && step != 0
  {
    && -1 <= ToInt32(Counted(start, end, step)) <= INT_MAX - 2
    && (TermCount(start, end, step) > INT_MAX || (NoWidth(start, end) && step != INTMAX_MIN))
  }

  /** mkseq returns nothing or fills exactly the slots it asked for, if and only if the count is not miscounted. */
  lemma GuardIsSound(start: int, end: int, incr: int, kind: TermType, width: nat)
    requires InRange(start) && InRange(end) && InRange(incr)
    ensures var r, step := Sequence(start, end, incr, kind, width), Normalised(start, end, incr);
            && (r.Words? ==> |r.words| == Nelem(start, end, step.value))
            && (r.Overrun? <==> step.Some? && !RangeTooWide(start, end) && !CountOverflows(start, end, step.value)
                                && Miscounted(start, end, step.value))
  {
    hide SequenceWords;
    hide TermCount;
    hide Counted;
    hide CountOverflows;
    hide ToInt32;
    var step := Normalised(start, end, incr);
    if step.Some? && !RangeTooWide(start, end) {
      NarrowedIsItself(Counted(start, end, step.value));
      if NoWidth(start, end) {
        CountedWithoutWidth(step.value);
        AtLeastTwo(step.value);
      } else {
        CountedIsCount(start, end, step.value);
      }
    }
  }

  lemma AtLeastTwo(step: int)
    requires InRange(step) && step != 0
    ensures TermCount(0, INTMAX_MIN, step) >= 2
  {
    QuotientBounds(Abs(INTMAX_MIN), Abs(step), 1);
  }

  /** Away from the range without a width: the guards are sound if and only if the count is an int, or one of them takes it for
      too much (2^63 is no intmax_t), or it reads as an int that is too big or too small to reserve a vector for. */
  lemma GuardIsSoundForInts(start: int, end: int, incr: int, kind: TermType, width: nat)
    requires InRange(start) && InRange(end) && InRange(incr) && !NoWidth(start, end)
    requires Normalised(start, end, incr).Some? && !RangeTooWide(start, end)
    ensures var count := TermCount(start, end, Normalised(start, end, incr).value);
            !Sequence(start, end, incr, kind, width).Overrun?
            <==> count <= INT_MAX || count > INTMAX_MAX || ToInt32(count) > INT_MAX - 2 || ToInt32(count) < -1
  {
    hide Sequence;
    hide TermCount;
    hide Counted;
    hide CountOverflows;
    hide ToInt32;
    GuardIsSound(start, end, incr, kind, width);
    CountedIsCount(start, end, Normalised(start, end, incr).value);
  }

  lemma CountTo(n: int)
    requires 1 < n <= INTMAX_MAX - 2
    ensures TermCount(1, n, 1) == n && Counted(1, n, 1) == n && !CountOverflows(1, n, 1)
  {
    CountedIsCount(1, n, 1);
  }

  /** {1..4294967297}: two slots for 4294967297 words. */
  lemma FourBillionWordsInTwoSlots()
    ensures var r := Sequence(1, 0x1_0000_0001, 1, IntTerm, 0); r.Overrun? && r.slots == 2 && |r.words| == 0x1_0000_0001
  {
    hide SequenceWords;
    hide TermCount;
    hide Counted;
    hide CountOverflows;
    CountTo(0x1_0000_0001);
  }

  predicate IsSpace(c: char) {
    c == ' ' || c == '\t' || c == '\n' || c as int == 11 || c as int == 12 || c == '\r'
  }

  function SkipSpaces(s: string, i: nat): (r: nat)
    requires i <= |s|
    ensures i <= r <= |s|
    decreases |s| - i
  {
    if i < |s| && IsSpace(s[i]) then SkipSpaces(s, i + 1) else i
  }

  function SkipDigits(s: string, i: nat): (r: nat)
    requires i <= |s|
    ensures i <= r <= |s|
    ensures forall k :: i <= k < r ==> IsDigit(s[k])
    decreases |s| - i
  {
    if i < |s| && IsDigit(s[i]) then SkipDigits(s, i + 1) else i
  }

  function DigitsValue(s: string): nat
    requires forall k :: 0 <= k < |s| ==> IsDigit(s[k])
  {
    if s == "" then 0 else 10 * DigitsValue(s[..|s| - 1]) + DigitValue(s[|s| - 1])
  }

  /** strtoimax in base ten: the clamped value, the characters used, and whether it overflowed. */
  datatype Parsed = Parsed(value: int, used: nat, erange: bool)

  function Strtoimax(s: string): (p: Parsed)
    ensures p.used <= |s| && InRange(p.value)
  {
    var blank := SkipSpaces(s, 0);
    var signed := blank < |s| && (s[blank] == '-' || s[blank] == '+');
    var first := if signed then blank + 1 else blank;
    var last := SkipDigits(s, first);
    if first == last then Parsed(0, 0, false)
    else
      var magnitude := DigitsValue(s[first..last]);
      var sign := if signed && s[blank] == '-' then -1 else 1;
      var value := sign * magnitude;
      if value > INTMAX_MAX then Parsed(INTMAX_MAX, last, true)
      else if value < INTMAX_MIN then Parsed(INTMAX_MIN, last, true)
      else Parsed(value, last, false)
  }

  function SkipBlanks(s: string, i: nat): (r: nat)
    requires i <= |s|
    ensures i <= r <= |s|
    decreases |s| - i
  {
    if i < |s| && (s[i] == ' ' || s[i] == '\t') then SkipBlanks(s, i + 1) else i
  }

  /** legal_number: the whole string is one number, with blanks allowed after it. */
  function LegalNumber(s: string): (r: Option<int>)
    ensures r.Some? ==> InRange(r.value)
  {
    var p := Strtoimax(s);
    if p.erange || p.used == 0 || SkipBlanks(s, p.used) < |s| then None else Some(p.value)
  }

  /** strstr(text, ".."), from index i on. */
  function FindDots(text: string, i: nat): (r: Option<nat>)
    requires i <= |text|
    ensures r.Some? ==> i <= r.value && r.value + 2 <= |text|
    decreases |text| - i
  {
    if i + 2 > |text| then None
    else if text[i] == '.' && text[i + 1] == '.' then Some(i)
    else FindDots(text, i + 1)
  }

  /** The right side of the dots: a number or a letter, and where it ends in the string. */
  datatype Side = BadSide | Number(value: int, end: nat) | Letter(c: char, end: nat)

  function RightSide(rhs: string): (side: Side)
    ensures !side.BadSide? ==> side.end <= |rhs|
    ensures side.Number? ==> InRange(side.value)
  {
    if IsDigit(At(rhs, 0)) || ((At(rhs, 0) == '+' || At(rhs, 0) == '-') && IsDigit(At(rhs, 1))) then
      var p := Strtoimax(rhs);
      if p.erange || (p.used < |rhs| && rhs[p.used] != '.') then BadSide else Number(p.value, p.used)
    else if IsAlpha(At(rhs, 0)) && (|rhs| == 1 || At(rhs, 1) == '.') then Letter(rhs[0], 1)
    else BadSide
  }

  /** The optional increment after the right side; none when what follows is not exactly one. */
  function Increment(rhs: string, end: nat): (r: Option<int>)
    requires end <= |rhs|
    ensures r.Some? ==> InRange(r.value)
  {
    if end == |rhs| then Some(1)
    else if rhs[end] == '.' && At(rhs, end + 1) == '.' && end + 2 < |rhs| then
      var p := Strtoimax(rhs[end + 2..]);
      if p.erange || p.used == 0 || end + 2 + p.used < |rhs| then None else Some(p.value)
    else None
  }

  /** The field width of one side when it is zero-padded, else 0. */
  function PadWidth(side: string, length: nat): nat {
    if (length > 1 && At(side, 0) == '0') || (length > 2 && At(side, 0) == '-' && At(side, 1) == '0') then length else 0
  }

  /** The vector mkseq returns; behind an overrun, what its loop wrote. */
  function Returned(g: Generated): (r: Option<seq<string>>)
    requires !g.Refused? ==> |g.words| > 0
    ensures r.Some? ==> |r.value| > 0
  {
    if g.Refused? then None else Some(g.words)
  }

  /** expand_seqterm: the words of the text between braces, when it is a sequence. */
  function ExpandSeqterm(text: string): (r: Option<seq<string>>)
    ensures r.Some? ==> |r.value| > 0
  {
    var dots := FindDots(text, 0);
    if dots.None? then None
    else
      var lhs, rhs := text[..dots.value], text[dots.value + 2..];
      if lhs == "" || rhs == "" then None
      else
        var left, right := LegalNumber(lhs), RightSide(rhs);
        if right.BadSide? then None
        else
          var incr := Increment(rhs, right.end);
          if incr.None? then None
          else if left.Some? && right.Number? then
            var w := PadWidth(lhs, |lhs|);
            var wr := PadWidth(rhs, right.end);
            if w == 0 && wr == 0 then Returned(Sequence(left.value, right.value, incr.value, IntTerm, 0))
            else
              var width := if |lhs| < right.end then right.end else |lhs|;
              Returned(Sequence(left.value, right.value, incr.value, PaddedTerm, width))
          else if left.None? && |lhs| == 1 && IsAlpha(lhs[0]) && right.Letter? then
            Returned(Sequence(lhs[0] as int, right.c as int, incr.value, CharTerm, 1))
          else None
  }
}
