/** {x..y} and {x..y..incr} with numbers: from the text to the words. */
module BraceRange {
  import opened Text
  import opened Int64
  import opened BraceScanner
  import opened BraceSequence
  import opened Braces
  import opened BraceMeaning

  /** A number as it is written: with zeros in front of its digits, and with a plus sign or without. */
  datatype Numeral = Numeral(value: int, zeros: nat, plus: bool)

  function Spelled(n: Numeral): string {
    Sign(n) + (Zeros(n.zeros) + NatToString(Abs(n.value)))
  }

  function Sign(n: Numeral): string {
    if n.value < 0 then "-" else if n.plus then "+" else ""
  }

  /** The text between the braces, with or without an increment. */
  function RangeText(x: Numeral, y: Numeral, incr: Option<Numeral>): string {
    Spelled(x) + ".." + (Spelled(y) + StepText(incr))
  }

  function StepText(incr: Option<Numeral>): string {
    if incr.None? then "" else ".." + Spelled(incr.value)
  }

  function StepOf(incr: Option<Numeral>): int {
    if incr.None? then 1 else incr.value.value
  }

  // ----- reading a spelled number -----

  lemma {:induction false} ZerosAre(n: nat)
    ensures |Zeros(n)| == n && forall k :: 0 <= k < n ==> Zeros(n)[k] == '0'
  {
    if n > 0 {
      ZerosAre(n - 1);
    }
  }

  lemma {:induction false} DigitsReadBack(n: nat)
    ensures DigitsValue(NatToString(n)) == n
  {
    var s := NatToString(n);
    if n >= 10 {
      DigitsReadBack(n / 10);
      assert s[..|s| - 1] == NatToString(n / 10);
    } else {
      assert s[..0] == "";
    }
  }

  lemma PaddedDigits(z: nat, s: string)
    requires forall k :: 0 <= k < |s| ==> IsDigit(s[k])
    ensures |Zeros(z) + s| == z + |s| && forall k :: 0 <= k < z + |s| ==> IsDigit((Zeros(z) + s)[k])
  {
    hide Zeros;
    ZerosAre(z);
  }

  lemma {:induction false} ZerosValue(z: nat)
    ensures (forall k :: 0 <= k < |Zeros(z)| ==> IsDigit(Zeros(z)[k])) && DigitsValue(Zeros(z)) == 0
  {
    ZerosAre(z);
    if z > 0 {
      ZerosAre(z - 1);
      ZerosValue(z - 1);
      assert Zeros(z)[..|Zeros(z)| - 1] == Zeros(z - 1);
    }
  }

  /** Zeros in front do not change the value. */
  lemma {:induction false} PaddedValue(z: nat, s: string)
    requires forall k :: 0 <= k < |s| ==> IsDigit(s[k])
    requires forall k :: 0 <= k < |Zeros(z) + s| ==> IsDigit((Zeros(z) + s)[k])
    ensures DigitsValue(Zeros(z) + s) == DigitsValue(s)
    decreases |s|
  {
    hide Zeros;
    var t := Zeros(z) + s;
    if s == "" {
      ZerosValue(z);
      assert t == Zeros(z);
    } else {
      var front := s[..|s| - 1];
      PaddedDigits(z, front);
      assert t[..|t| - 1] == Zeros(z) + front;
      PaddedValue(z, front);
    }
  }

  lemma {:induction false} DigitsSkipped(s: string, i: nat, j: nat)
    requires i <= j <= |s| && forall k :: i <= k < j ==> IsDigit(s[k])
    requires !IsDigit(At(s, j))
    ensures SkipDigits(s, i) == j
    decreases j - i
  {
    if i < j {
      DigitsSkipped(s, i + 1, j);
    }
  }

  /** A spelled number is digits behind an optional sign; the digits begin with a 0 when zeros are in front or it is 0. */
  lemma NumberShape(n: Numeral)
    ensures var s, first := Spelled(n), |Sign(n)|;
            && |s| > first + n.zeros && s[first..] == Zeros(n.zeros) + NatToString(Abs(n.value))
            && (first == 1 ==> s[0] == if n.value < 0 then '-' else '+')
            && (forall k :: first <= k < |s| ==> IsDigit(s[k]))
            && (n.zeros > 0 ==> s[first] == '0') && (n.zeros == 0 && s[first] == '0' ==> |s| == first + 1)
  {
    hide Zeros;
    hide NatToString;
    var digits := NatToString(Abs(n.value));
    var body := Zeros(n.zeros) + digits;
    DigitsOfNat(Abs(n.value));
    ZerosAre(n.zeros);
    PaddedDigits(n.zeros, digits);
    assert Spelled(n)[|Sign(n)|..] == body;
    assert n.zeros == 0 ==> body == digits;
  }

  lemma DigitsOfNat(n: nat)
    ensures forall k :: 0 <= k < |NatToString(n)| ==> IsDigit(NatToString(n)[k])
    ensures NatToString(n) != "" && (NatToString(n)[0] == '0' ==> NatToString(n) == "0" && n == 0)
  {
    forall k | 0 <= k < |NatToString(n)| ensures IsDigit(NatToString(n)[k]) {
      assert NatToString(n)[k] in NatToString(n);
    }
  }

  /** What isspace passes. */
  predicate Spaces(s: string) {
    forall k :: 0 <= k < |s| ==>
      s[k] == ' ' || s[k] == '\t' || s[k] == '\n' || s[k] as int == 11 || s[k] as int == 12 || s[k] == '\r'
  }

  lemma {:induction false} SpacesSkipped(s: string, i: nat, j: nat)
    requires i <= j <= |s| && Spaces(s[i..j]) && (j < |s| ==> !IsSpace(s[j]))
    ensures SkipSpaces(s, i) == j
    decreases j - i
  {
    if i < j {
      assert s[i] == s[i..j][0] && s[i + 1..j] == s[i..j][1..];
      SpacesSkipped(s, i + 1, j);
    }
  }

  lemma InTheMiddle(a: string, b: string, c: string, m: nat)
    requires m <= |b|
    ensures var s, last := a + b + c, |a| + |b|;
            && last <= |s| && s[0..|a|] == a && s[|a| + m..last] == b[m..] && At(s, last) == At(c, 0)
            && forall k :: |a| <= k < last ==> s[k] == b[k - |a|]
  {
  }

  /** Where strtoimax finds the parts of a number. */
  lemma NumberPlaced(before: string, n: Numeral, rest: string)
    requires Spaces(before) && !IsDigit(At(rest, 0))
    ensures var s, blank := before + Spelled(n) + rest, |before|;
            var first, last := blank + |Sign(n)|, blank + |Spelled(n)|;
            && SkipSpaces(s, 0) == blank && first < last <= |s| && SkipDigits(s, first) == last
            && s[blank] == (if Sign(n) == "" then s[first] else Sign(n)[0]) && IsDigit(s[first])
            && s[first..last] == Spelled(n)[|Sign(n)|..]
  {
    hide NatToString;
    hide Spelled;
    hide SkipSpaces;
    hide SkipDigits;
    hide Spaces;
    NumberShape(n);
    var text, s := Spelled(n), before + Spelled(n) + rest;
    var blank := |before|;
    var first, last := blank + |Sign(n)|, blank + |text|;
    InTheMiddle(before, text, rest, |Sign(n)|);
    SpacesSkipped(s, 0, blank);
    DigitsSkipped(s, first, last);
  }

  lemma SpelledValue(n: Numeral)
    ensures var digits := Spelled(n)[|Sign(n)|..];
            (forall k :: 0 <= k < |digits| ==> IsDigit(digits[k])) && DigitsValue(digits) == Abs(n.value)
  {
    hide NatToString;
    hide Spelled;
    NumberShape(n);
    DigitsOfNat(Abs(n.value));
    PaddedDigits(n.zeros, NatToString(Abs(n.value)));
    PaddedValue(n.zeros, NatToString(Abs(n.value)));
    DigitsReadBack(Abs(n.value));
  }

  /** strtoimax passes spaces, reads a spelled number up to the first character that is no digit, and clamps it to an
      intmax_t. */
  lemma NumberReadBack(before: string, n: Numeral, rest: string)
    requires Spaces(before) && !IsDigit(At(rest, 0))
    ensures var v := n.value;
            Strtoimax(before + Spelled(n) + rest)
            == Parsed(if v > INTMAX_MAX then INTMAX_MAX else if v < INTMAX_MIN then INTMAX_MIN else v,
                      |before| + |Spelled(n)|, !InRange(v))
  {
    hide Spelled;
    hide SkipSpaces;
    hide SkipDigits;
    hide DigitsValue;
    hide Spaces;
    NumberPlaced(before, n, rest);
    SpelledValue(n);
  }

  lemma NumberReads(n: Numeral, rest: string)
    requires !IsDigit(At(rest, 0))
    ensures var v := n.value;
            Strtoimax(Spelled(n) + rest)
            == Parsed(if v > INTMAX_MAX then INTMAX_MAX else if v < INTMAX_MIN then INTMAX_MIN else v, |Spelled(n)|, !InRange(v))
  {
    hide Strtoimax;
    hide Spelled;
    NumberReadBack("", n, rest);
    assert "" + Spelled(n) + rest == Spelled(n) + rest;
  }

  /** legal_number takes a number with spaces in front and blanks behind it, when it is an intmax_t. */
  lemma LegalNumbers(before: string, n: Numeral, behind: string)
    requires Spaces(before) && forall k :: 0 <= k < |behind| ==> behind[k] == ' ' || behind[k] == '\t'
    ensures LegalNumber(before + Spelled(n) + behind) == if InRange(n.value) then Some(n.value) else None
  {
    hide Strtoimax;
    hide Spelled;
    hide Spaces;
    var s, i := before + Spelled(n) + behind, |before| + |Spelled(n)|;
    NumberShape(n);
    NumberReadBack(before, n, behind);
    assert s[i..] == behind;
    BlanksToEnd(s, i);
  }

  lemma {:induction false} BlanksToEnd(s: string, i: nat)
    requires i <= |s| && forall k :: 0 <= k < |s[i..]| ==> s[i..][k] == ' ' || s[i..][k] == '\t'
    ensures SkipBlanks(s, i) == |s|
    decreases |s| - i
  {
    if i < |s| {
      assert s[i] == s[i..][0] && s[i + 1..] == s[i..][1..];
      BlanksToEnd(s, i + 1);
    }
  }

  lemma {:induction false} DotsFound(s: string, i: nat, j: nat)
    requires i <= j && j + 2 <= |s| && s[j] == '.' && s[j + 1] == '.' && forall k :: i <= k < j ==> s[k] != '.'
    ensures FindDots(s, i) == Some(j)
    decreases j - i
  {
    if i < j {
      DotsFound(s, i + 1, j);
    }
  }

  /** Zeros behind a plus sign do not count. */
  predicate IsPadded(n: Numeral) {
    n.zeros > 0 && (n.plus ==> n.value < 0)
  }

  /** The width to which the terms are padded because of one side. */
  function Padding(n: Numeral): nat {
    if IsPadded(n) then |Spelled(n)| else 0
  }

  lemma LeftReads(x: Numeral)
    ensures LegalNumber(Spelled(x)) == if InRange(x.value) then Some(x.value) else None
    ensures PadWidth(Spelled(x), |Spelled(x)|) == Padding(x) && (|Spelled(x)| == 1 ==> InRange(x.value))
  {
    hide Spelled;
    NumberReads(x, "");
    NumberShape(x);
    OneDigit(x);
    assert Spelled(x) + "" == Spelled(x);
  }

  lemma OneDigit(x: Numeral)
    ensures |Spelled(x)| == 1 ==> InRange(x.value)
  {
    ZerosAre(x.zeros);
  }

  lemma RightReads(y: Numeral, incr: Option<Numeral>)
    ensures var rhs, n := Spelled(y) + StepText(incr), |Spelled(y)|;
            RightSide(rhs) == (if InRange(y.value) then Number(y.value, n) else BadSide) && PadWidth(rhs, n) == Padding(y)
  {
    hide Spelled;
    hide Strtoimax;
    NumberReads(y, StepText(incr));
    NumberShape(y);
  }

  lemma IncrementReads(y: Numeral, incr: Option<Numeral>)
    ensures Increment(Spelled(y) + StepText(incr), |Spelled(y)|) == if InRange(StepOf(incr)) then Some(StepOf(incr)) else None
  {
    hide Spelled;
    hide Strtoimax;
    if incr.Some? {
      var end, rhs := |Spelled(y)|, Spelled(y) + StepText(incr);
      NumberReads(incr.value, "");
      NumberShape(incr.value);
      TailBehind(Spelled(y), Spelled(incr.value));
    }
  }

  lemma TailBehind(n: string, step: string)
    requires step != ""
    ensures var rhs := n + (".." + step);
            |n| + 2 < |rhs| && rhs[|n|] == '.' && At(rhs, |n| + 1) == '.' && rhs[|n| + 2..] == step + "" == step
  {
  }

  lemma SplitAtDots(lhs: string, rhs: string)
    requires forall k :: 0 <= k < |lhs| ==> lhs[k] != '.'
    ensures var text := lhs + ".." + rhs;
            FindDots(text, 0) == Some(|lhs|) && text[..|lhs|] == lhs && text[|lhs| + 2..] == rhs
  {
    hide FindDots;
    DotsFound(lhs + ".." + rhs, 0, |lhs|);
  }

  function Wider(x: Numeral, y: Numeral): nat {
    if |Spelled(x)| < |Spelled(y)| then |Spelled(y)| else |Spelled(x)|
  }

  /** What mkseq is asked for: with zeros in front of a number, terms as wide as the wider side. */
  function Asked(x: Numeral, y: Numeral, incr: Option<Numeral>): Generated
    requires InRange(x.value) && InRange(y.value) && InRange(StepOf(incr))
  {
    if !IsPadded(x) && !IsPadded(y) then Sequence(x.value, y.value, StepOf(incr), IntTerm, 0)
    else Sequence(x.value, y.value, StepOf(incr), PaddedTerm, Wider(x, y))
  }

  /** The text of a range means the sequence of its numbers, or nothing when one of them is no intmax_t. */
  lemma RangeIsSequence(x: Numeral, y: Numeral, incr: Option<Numeral>)
    ensures ExpandSeqterm(RangeText(x, y, incr)) ==
              if InRange(x.value) && InRange(y.value) && InRange(StepOf(incr)) then Returned(Asked(x, y, incr)) else None
  {
    hide Spelled;
    hide StepText;
    hide FindDots;
    hide LegalNumber;
    hide RightSide;
    hide Increment;
    hide PadWidth;
    hide Sequence;
    hide StepOf;
    NumberShape(x);
    NumberShape(y);
    SplitAtDots(Spelled(x), Spelled(y) + StepText(incr));
    LeftReads(x);
    RightReads(y, incr);
    IncrementReads(y, incr);
  }

  // ----- the braces around it -----

  lemma NumberIsPlain(n: Numeral)
    ensures PlainText(Spelled(n))
  {
    hide Spelled;
    NumberShape(n);
    forall k | 0 <= k < |Spelled(n)| ensures PlainChar(Spelled(n)[k]) {
      DigitIsPlain(Spelled(n)[k]);
    }
  }

  lemma DigitIsPlain(c: char)
    requires IsDigit(c) || c == '-' || c == '+' || c == '.'
    ensures PlainChar(c)
  {
  }

  lemma PlainParts(a: string, b: string)
    requires PlainText(a) && PlainText(b)
    ensures PlainText(a + b)
  {
    hide PlainChar;
  }

  lemma RangeIsPlain(x: Numeral, y: Numeral, incr: Option<Numeral>)
    ensures PlainText(RangeText(x, y, incr))
  {
    hide Spelled;
    hide PlainText;
    NumberIsPlain(x);
    NumberIsPlain(y);
    DotsArePlain();
    if incr.Some? {
      NumberIsPlain(incr.value);
      PlainParts("..", Spelled(incr.value));
    }
    PlainParts(Spelled(x), "..");
    PlainParts(Spelled(y), StepText(incr));
    PlainParts(Spelled(x) + "..", Spelled(y) + StepText(incr));
  }

  lemma DotsArePlain()
    ensures PlainText("..") && PlainText("")
  {
    DigitIsPlain('.');
  }

  /** A pair of braces around a text with dots, but without separators, is one brace word. */
  lemma BracesFound(body: string)
    requires PlainText(body) && Dotted(body)
    ensures BraceExpand("{" + body + "}") == if ExpandSeqterm(body).Some? then Terms(body) else ["{" + body + "}"]
  {
    hide PlainText;
    hide Dotted;
    hide ExpandSeqterm;
    hide FindBraceWord;
    hide Gobble;
    hide FirstComma;
    hide Product;
    var t := "{" + body + "}";
    assert Leading(End) == "" && t[1..|body| + 1] == body;
    assert Reads(t, 0, "") && Reads(t, 0, "{") && Reads(t, 1, body + "}");
    SequenceFound(End, body, t);
    NoCommaInBody(body, body, 0, 0);
    NoCommaAtEnd(body);
    assert ExpandBraced(body) == ExpandSeqterm(body);
    if ExpandSeqterm(body).Some? {
      ExpandAtWord(t, 0, |body| + 1, Terms(body));
      ProductUnitLeft(Terms(body));
    }
  }

  /** Braces around two numbers, with or without an increment, are replaced by the numbers of the sequence, or stay as they are
      when a number is no intmax_t or mkseq refuses. */
  lemma RangeExpands(x: Numeral, y: Numeral, incr: Option<Numeral>)
    ensures var text := "{" + RangeText(x, y, incr) + "}";
            BraceExpand(text) ==
              if !InRange(x.value) || !InRange(y.value) || !InRange(StepOf(incr)) || Asked(x, y, incr).Refused? then [text]
              else Asked(x, y, incr).words
  {
    hide RangeText;
    hide Asked;
    hide StepOf;
    hide ExpandSeqterm;
    hide PlainText;
    hide BraceExpand;
    hide Dotted;
    RangeIsSequence(x, y, incr);
    RangeIsPlain(x, y, incr);
    RangeIsDotted(x, y, incr);
    BracesFound(RangeText(x, y, incr));
  }

  lemma RangeIsDotted(x: Numeral, y: Numeral, incr: Option<Numeral>)
    ensures Dotted(RangeText(x, y, incr))
  {
    hide Spelled;
    hide StepText;
    hide FindDots;
    NumberShape(x);
    NumberShape(y);
    SplitAtDots(Spelled(x), Spelled(y) + StepText(incr));
  }

  /** A range that the guards let through, and whose terms leave room in an int, is generated whole. */
  lemma SmallRangeIsFilled(x: int, y: int, incr: int, kind: TermType, width: nat)
    requires InRange(x) && InRange(y) && InRange(incr) && Normalised(x, y, incr).Some?
    requires !RangeTooWide(x, y) && !NoWidth(x, y) && TermCount(x, y, Normalised(x, y, incr).value) <= INT_MAX - 2
    ensures var step := Normalised(x, y, incr).value;
            Sequence(x, y, incr, kind, width) == Words(SequenceWords(kind, width, x, step, TermCount(x, y, step)))
  {
    hide TermCount;
    hide Counted;
    hide CountOverflows;
    hide SequenceWords;
    hide ToInt32;
    var step := Normalised(x, y, incr).value;
    CountedIsCount(x, y, step);
    NarrowedIsItself(Counted(x, y, step));
  }

  /** {x..y..incr} is x, x + step, x + 2 * step and so on up to y, where step is the increment turned toward y, whenever the
      guard on the width lets the range through and the number of terms leaves room in an int. */
  lemma RangeMeaning(x: int, y: int, incr: Option<Numeral>)
    requires InRange(x) && InRange(y) && InRange(StepOf(incr)) && Normalised(x, y, StepOf(incr)).Some?
    requires !RangeTooWide(x, y) && !NoWidth(x, y)
    ensures var step := Normalised(x, y, StepOf(incr)).value;
            TermCount(x, y, step) <= INT_MAX - 2 ==>
              BraceExpand("{" + RangeText(Numeral(x, 0, false), Numeral(y, 0, false), incr) + "}")
              == seq(TermCount(x, y, step), k requires 0 <= k => IntToString(x + k * step))
  {
    hide RangeText;
    hide BraceExpand;
    hide TermCount;
    hide Sequence;
    hide IntToString;
    hide StepOf;
    RangeExpands(Numeral(x, 0, false), Numeral(y, 0, false), incr);
    var step := Normalised(x, y, StepOf(incr)).value;
    if TermCount(x, y, step) <= INT_MAX - 2 {
      SmallRangeIsFilled(x, y, StepOf(incr), IntTerm, 0);
    }
    forall k: nat ensures Term(x, step, k) == x + k * step {
      TermClosedForm(x, step, k);
    }
  }

  // ----- padded terms -----

  predicate IsInt(n: int) {
    -0x8000_0000 <= n <= 0x7FFF_FFFF
  }

  /** A padded term is the number with as many zeros as the width asks for. */
  lemma PaddedTermIsSpelled(n: int, width: nat) returns (zeros: nat)
    requires IsInt(n)
    ensures RenderTerm(PaddedTerm, width, n) == Spelled(Numeral(n, zeros, false))
    ensures var least := |Spelled(Numeral(n, 0, false))|;
            |Spelled(Numeral(n, zeros, false))| == if least < width then width else least
  {
    hide NatToString;
    NarrowedIsItself(n);
    var size := |NatToString(Abs(n))| + if n < 0 then 1 else 0;
    zeros := if size < width then width - size else 0;
    ZerosAre(zeros);
    assert Zeros(width - size) == Zeros(zeros);
    if n < 0 {
      assert "-" + Zeros(zeros) + NatToString(-n) == "-" + (Zeros(zeros) + NatToString(-n));
    } else {
      assert "" + (Zeros(zeros) + NatToString(n)) == Zeros(zeros) + NatToString(n);
    }
  }

  lemma {:induction false} LongerDigits(m: nat, n: nat)
    requires m <= n
    ensures |NatToString(m)| <= |NatToString(n)|
  {
    if m >= 10 {
      LongerDigits(m / 10, n / 10);
    }
  }

  /** A number between two others is written with no more characters than the longer of them. */
  lemma BetweenIsShorter(x: Numeral, y: Numeral, n: int)
    requires x.value <= n <= y.value || y.value <= n <= x.value
    ensures |Spelled(Numeral(n, 0, false))| <= Wider(x, y)
  {
    hide NatToString;
    ZerosAre(x.zeros);
    ZerosAre(y.zeros);
    ZerosAre(0);
    if n < 0 {
      LongerDigits(-n, if x.value <= n then -x.value else -y.value);
    } else {
      LongerDigits(n, if n <= y.value then y.value else x.value);
    }
  }

  /** When a side of {x..y..incr} has zeros in front, and no plus sign, every word is as wide as the wider side and reads as
      its number. */
  lemma PaddedMeaning(x: Numeral, y: Numeral, incr: Option<Numeral>, k: nat)
    requires IsPadded(x) || IsPadded(y)
    requires IsInt(x.value) && IsInt(y.value) && InRange(StepOf(incr)) && Normalised(x.value, y.value, StepOf(incr)).Some?
    requires TermCount(x.value, y.value, Normalised(x.value, y.value, StepOf(incr)).value) <= INT_MAX - 2
    ensures var step := Normalised(x.value, y.value, StepOf(incr)).value;
            var words := BraceExpand("{" + RangeText(x, y, incr) + "}");
            && |words| == TermCount(x.value, y.value, step)
            && (k < |words| ==> |words[k]| == Wider(x, y)
                                && Strtoimax(words[k]) == Parsed(x.value + k * step, Wider(x, y), false))
  {
    hide RangeText;
    hide BraceExpand;
    hide TermCount;
    hide Sequence;
    hide RenderTerm;
    hide Spelled;
    hide StepOf;
    hide Strtoimax;
    var step := Normalised(x.value, y.value, StepOf(incr)).value;
    RangeExpands(x, y, incr);
    SmallRangeIsFilled(x.value, y.value, StepOf(incr), PaddedTerm, Wider(x, y));
    if k < TermCount(x.value, y.value, step) {
      PaddedWord(x, y, step, k);
    }
  }

  lemma PaddedWord(x: Numeral, y: Numeral, step: int, k: nat)
    requires IsInt(x.value) && IsInt(y.value) && PointsTo(x.value, y.value, step) && k < TermCount(x.value, y.value, step)
    ensures var word := RenderTerm(PaddedTerm, Wider(x, y), Term(x.value, step, k));
            |word| == Wider(x, y) && Strtoimax(word) == Parsed(x.value + k * step, Wider(x, y), false)
  {
    hide RenderTerm;
    hide Spelled;
    hide TermCount;
    hide Strtoimax;
    var n := x.value + k * step;
    TermClosedForm(x.value, step, k);
    TermsUpToEnd(x.value, y.value, step, k);
    assert x.value <= n <= y.value || y.value <= n <= x.value by {
      assert step > 0 ==> k * step >= 0;
      assert step < 0 ==> k * step <= 0;
    }
    BetweenIsShorter(x, y, n);
    var zeros := PaddedTermIsSpelled(n, Wider(x, y));
    NumberReads(Numeral(n, zeros, false), "");
    assert Spelled(Numeral(n, zeros, false)) + "" == Spelled(Numeral(n, zeros, false));
  }

  /** Character k of the sequence from a to b. */
  function LetterAt(a: char, b: char, k: nat): char
    requires IsAlpha(a) && IsAlpha(b) && k <= Abs(b as int - a as int)
  {
    (if a <= b then a as int + k else a as int - k) as char
  }

  /** {a..b} is the letters, and whatever lies between the cases, from a to b. */
  lemma LettersMeaning(a: char, b: char)
    requires IsAlpha(a) && IsAlpha(b)
    ensures var n := Abs(b as int - a as int) + 1;
            BraceExpand("{" + ([a] + ".." + [b]) + "}") == seq(n, k requires 0 <= k < n => [LetterAt(a, b, k)])
  {
    hide BraceExpand;
    hide PlainChar;
    hide LegalNumber;
    hide Sequence;
    hide LetterAt;
    var body := [a] + ".." + [b];
    LetterIsNoNumber(a);
    SplitAtDots([a], [b]);
    LetterIsPlain(a);
    LetterIsPlain(b);
    DotsArePlain();
    BracesFound(body);
    LetterSequence(a, b);
  }

  lemma LetterIsNoNumber(a: char)
    requires IsAlpha(a)
    ensures LegalNumber([a]).None?
  {
    assert SkipDigits([a], 0) == 0;
  }

  lemma LetterIsPlain(a: char)
    requires IsAlpha(a)
    ensures PlainChar(a)
  {
  }

  lemma LetterSequence(a: char, b: char)
    requires IsAlpha(a) && IsAlpha(b)
    ensures var n := Abs(b as int - a as int) + 1;
            Sequence(a as int, b as int, 1, CharTerm, 1) == Words(seq(n, k requires 0 <= k < n => [LetterAt(a, b, k)]))
  {
    hide LetterAt;
    hide RenderTerm;
    hide Sequence;
    hide TermCount;
    var x, y := a as int, b as int;
    var step := Normalised(x, y, 1).value;
    StepsOfOne(x, y, step);
    SmallRangeIsFilled(x, y, 1, CharTerm, 1);
    forall k: nat | k <= Abs(y - x) ensures RenderTerm(CharTerm, 1, Term(x, step, k)) == [LetterAt(a, b, k)] {
      LetterTerm(a, b, step, k);
    }
  }

  lemma LetterTerm(a: char, b: char, step: int, k: nat)
    requires IsAlpha(a) && IsAlpha(b) && k <= Abs(b as int - a as int)
    requires step == if a > b then -1 else 1
    ensures RenderTerm(CharTerm, 1, Term(a as int, step, k)) == [LetterAt(a, b, k)]
  {
    TermClosedForm(a as int, step, k);
  }

  lemma StepsOfOne(x: int, y: int, step: int)
    requires Abs(step) == 1
    ensures TermCount(x, y, step) == Abs(y - x) + 1
  {
  }

  // ----- texts that are no sequence -----

  /** A right side that is neither a number nor a single letter makes no sequence. */
  lemma NoRightSide(lhs: string, rhs: string)
    requires rhs != "" && forall k :: 0 <= k < |lhs| ==> lhs[k] != '.'
    requires rhs[0] !in "0123456789" && !(rhs[0] in "+-" && |rhs| > 1 && rhs[1] in "0123456789")
    requires !(IsAlpha(rhs[0]) && (|rhs| == 1 || rhs[1] == '.'))
    ensures ExpandSeqterm(lhs + ".." + rhs).None?
  {
    hide LegalNumber;
    hide Increment;
    hide Strtoimax;
    hide FindDots;
    SplitAtDots(lhs, rhs);
  }

  /** A letter and a number make no sequence. */
  lemma MixedSides(a: char, n: Numeral)
    requires IsAlpha(a)
    ensures ExpandSeqterm([a] + ".." + Spelled(n)).None? && ExpandSeqterm(Spelled(n) + ".." + [a]).None?
  {
    hide Spelled;
    hide Strtoimax;
    hide FindDots;
    hide Sequence;
    hide LegalNumber;
    NumberShape(n);
    SplitAtDots([a], Spelled(n));
    SplitAtDots(Spelled(n), [a]);
    LetterIsNoNumber(a);
    LeftReads(n);
    assert Spelled(n) + "" == Spelled(n);
    RightReads(n, None);
    assert RightSide([a]) == Letter(a, 1);
    assert InRange(n.value) ==> !(LegalNumber(Spelled(n)).None?);
  }
}
