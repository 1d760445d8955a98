/** What evalexp computes on the text of an operator between two names, and how operators group. */
module ExprTexts {
  import opened Text
  import opened Int64
  import opened ExprNumbers
  import opened ExprModel
  import opened ExprTree
  import opened ExprLex
  import opened ExprDescent
  import opened ExprFollow
  import opened ExprEvaluation
  import opened ExprLaws

  /** The binary operators, the ones that bind least first. */
  function Row(s: string): int {
    if s == "," then 0
    else if s == "||" then 1
    else if s == "&&" then 2
    else if s == "|" then 3
    else if s == "^" then 4
    else if s == "&" then 5
    else if s == "==" || s == "!=" then 6
    else if s == "<=" || s == ">=" || s == "<" || s == ">" then 7
    else if s == "<<" || s == ">>" then 8
    else if s == "+" || s == "-" then 9
    else if s == "*" || s == "/" || s == "%" then 10
    else if s == "**" then 11
    else -1
  }

  /** r is the value of a s b. */
  ghost predicate Computes(s: string, a: int, b: int, r: int) {
    Decides(s, a, b, r) && Mixes(s, a, b, r) && Reckons(s, a, b, r)
  }

  predicate Decides(s: string, a: int, b: int, r: int) {
    && (s == "," ==> r == b)
    && (s == "||" ==> r == if a != 0 || b != 0 then 1 else 0)
    && (s == "&&" ==> r == if a != 0 && b != 0 then 1 else 0)
    && (s == "==" ==> r == if a == b then 1 else 0)
    && (s == "!=" ==> r == if a != b then 1 else 0)
    && (s == "<=" ==> r == if a <= b then 1 else 0)
    && (s == ">=" ==> r == if a >= b then 1 else 0)
    && (s == "<" ==> r == if a < b then 1 else 0)
    && (s == ">" ==> r == if a > b then 1 else 0)
  }

  ghost predicate Mixes(s: string, a: int, b: int, r: int) {
    s == "|" || s == "^" || s == "&" ==> Fits(r) && forall k :: 0 <= k < 64 ==>
      Bit(r, k) == if s == "|" then Bit(a, k) || Bit(b, k)
                   else if s == "&" then Bit(a, k) && Bit(b, k)
                   else Bit(a, k) != Bit(b, k)
  }

  /** Shift counts outside 0 to 63, zero divisors and negative exponents are left open here. */
  ghost predicate Reckons(s: string, a: int, b: int, r: int) {
    && (s == "+" ==> Congruent(r, a + b))
    && (s == "-" ==> Congruent(r, a - b))
    && (s == "*" ==> Congruent(r, a * b))
    && (s == "<<" && 0 <= b < 64 ==> Congruent(r, a * Pow(2, b)))
    && (s == ">>" && 0 <= b < 64 ==> r * Pow(2, b) <= a < (r + 1) * Pow(2, b))
    && (s == "**" && b >= 0 ==> Congruent(r, Pow(a, b)))
    && (s == "/" && b != 0 ==> if a == -0x8000_0000_0000_0000 && b == -1 then r == a else Leftover(a, b, a - r * b))
    && (s == "%" && b != 0 ==> Leftover(a, b, r) && exists q :: Leaves(a, q, b, r))
  }

  predicate Leaves(a: int, q: int, b: int, r: int) {
    a == q * b + r
  }

  /** d is what a division of a by b leaves: smaller than b, with the sign of a. */
  predicate Leftover(a: int, b: int, d: int) {
    (if b < 0 then b < d < -b else -b < d < b) && (d > 0 ==> a > 0) && (d < 0 ==> a < 0)
  }

  /** The operator that a text spells. */
  function OperatorOf(s: string): (op: Token)
    requires Row(s) >= 0
    ensures IsBinary(op) && Spell(op) == s
  {
    if s == "||" then LOr
    else if s == "&&" then LAnd
    else if s == "==" then EqEq
    else if s == "!=" then Neq
    else if s == "<=" then Leq
    else if s == ">=" then Geq
    else if s == "<<" then Lsh
    else if s == ">>" then Rsh
    else if s == "**" then Power
    else Ch(s[0])
  }

  lemma MeaningDecides(s: string, a: int, b: int)
    requires Row(s) >= 0
    ensures Decides(s, a, b, Meaning(OperatorOf(s), a, b))
  {
    hide Meaning;
    Comparisons(a, b);
  }

  lemma MeaningMixes(s: string, a: int, b: int)
    requires Row(s) >= 0 && Fits(a) && Fits(b)
    ensures Mixes(s, a, b, Meaning(OperatorOf(s), a, b))
  {
    hide Meaning;
    hide Bit;
    hide Fits;
    BitwiseOperators(a, b, 0);
    if s == "|" || s == "^" || s == "&" {
      forall k: nat | k < 64
        ensures Bit(Meaning(OperatorOf(s), a, b), k)
             == if s == "|" then Bit(a, k) || Bit(b, k) else if s == "&" then Bit(a, k) && Bit(b, k) else Bit(a, k) != Bit(b, k)
      {
        BitwiseOperators(a, b, k);
      }
    }
  }

  lemma MeaningReckons(s: string, a: int, b: int)
    requires Row(s) >= 0 && Fits(a) && Fits(b)
    ensures Reckons(s, a, b, Meaning(OperatorOf(s), a, b))
  {
    hide Meaning;
    hide Congruent;
    hide Pow;
    SumsAndProducts(a, b);
    if 0 <= b < 64 {
      Shifts(a, b);
    }
    if b >= 0 {
      PowerIsWrapped(a, b);
      WrapIsCongruent(Pow(a, b));
    }
    if b != 0 {
      Divides(a, b);
    }
  }

  lemma Divides(a: int, b: int)
    requires Fits(a) && Fits(b) && b != 0
    ensures var q, r := Meaning(Ch('/'), a, b), Meaning(Ch('%'), a, b);
            && (if a == -0x8000_0000_0000_0000 && b == -1 then q == a else Leftover(a, b, a - q * b))
            && Leftover(a, b, r) && exists q :: Leaves(a, q, b, r)
  {
    hide Meaning;
    QuotientsAndRemainders(a, b);
    var q, r := Meaning(Ch('/'), a, b), Meaning(Ch('%'), a, b);
    assert Leaves(a, if a == -0x8000_0000_0000_0000 && b == -1 then -a else q, b, r);
  }

  lemma MeaningComputes(s: string, a: int, b: int)
    requires Row(s) >= 0 && Fits(a) && Fits(b)
    ensures Computes(s, a, b, Meaning(OperatorOf(s), a, b))
  {
    hide Meaning;
    hide OperatorOf;
    hide Row;
    hide Decides;
    hide Mixes;
    hide Reckons;
    MeaningDecides(s, a, b);
    MeaningMixes(s, a, b);
    MeaningReckons(s, a, b);
  }

  // ----- the text of one operator -----

  /** evalexp of an operator between two names: the operator's value on the values of the names, or its error, with the
      variables as they were. */
  lemma OperatorText(x: string, s: string, y: string, store: Store)
    requires IsName(x) && IsName(y) && Row(s) >= 0 && Ints(store)
    ensures var a, b := if x in store then store[x] else 0, if y in store then store[y] else 0;
            var r := EvalExp(" " + x + (" " + s + (" " + y)), Encode(store));
            if (s == "/" || s == "%") && b == 0 then r == Err(DivisionByZero, Encode(store))
            else if s == "**" && b < 0 then r == Err(NegativeExponent, Encode(store))
            else r.Ok? && r.st.vars == Encode(store) && Computes(s, a, b, r.v)
  {
    hide EvalExp;
    hide Encode;
    hide IsName;
    hide Computes;
    hide OperatorOf;
    var e := Binary(OperatorOf(s), Var(x), Var(y));
    var a, b := Get(store, x), Get(store, y);
    OperatorPrints(x, s, y);
    EvaluatorIsCorrectWithoutSkippedPower(e, store);
    OperatorEvaluates(x, s, y, store);
    MeaningComputes(s, a, b);
  }

  /** The operators that can be joined with `=`. */
  predicate Joins(s: string) {
    s in ["*", "/", "%", "+", "-", "<<", ">>", "&", "^", "|"]
  }

  /** evalexp of an assignment with an operator: the same, and the name on the left gets the value. */
  lemma AssignmentText(x: string, s: string, y: string, store: Store)
    requires IsName(x) && IsName(y) && Joins(s) && Ints(store)
    ensures var a, b := if x in store then store[x] else 0, if y in store then store[y] else 0;
            var r := EvalExp(" " + x + (" " + (s + "=") + (" " + y)), Encode(store));
            if (s == "/" || s == "%") && b == 0 then r == Err(DivisionByZero, Encode(store))
            else r.Ok? && Computes(s, a, b, r.v) && r.st.vars == Encode(store[x := r.v])
  {
    hide EvalExp;
    hide Encode;
    hide IsName;
    hide Computes;
    hide OperatorOf;
    hide Joins;
    hide Meaning;
    JoinedIsAssignment(s);
    var e := AssignOp(OperatorOf(s), x, Var(y));
    NameTokens(y, 1);
    assert BareTokens(e) == [x] + ([s + "="] + [y]) == [x, s + "=", y];
    RenderOfThree(x, s + "=", y);
    EvaluatorIsCorrectWithoutSkippedPower(e, store);
    MeaningComputes(s, Get(store, x), Get(store, y));
  }

  lemma JoinedIsAssignment(s: string)
    requires Joins(s)
    ensures Row(s) >= 0 && IsAssignOperator(OperatorOf(s)) && OperatorOf(s) != Power
    ensures IsDivision(OperatorOf(s)) <==> s == "/" || s == "%"
  {
  }

  lemma OperatorPrints(x: string, s: string, y: string)
    requires IsName(x) && IsName(y) && Row(s) >= 0
    ensures var e := Binary(OperatorOf(s), Var(x), Var(y));
            WellFormed(e) && NoSkippedPower(e) && Print(e) == " " + x + (" " + s + (" " + y))
  {
    hide OperatorOf;
    hide IsName;
    hide Row;
    var op := OperatorOf(s);
    NameTokens(x, LeftLevel(op));
    NameTokens(y, RightLevel(op));
    assert BareTokens(Binary(op, Var(x), Var(y))) == [x] + ([s] + [y]) == [x, s, y];
    RenderOfThree(x, s, y);
  }

  lemma NameTokens(x: string, level: nat)
    requires IsName(x) && level <= 15
    ensures WellFormed(Var(x)) && Tokens(Var(x), level) == [x]
  {
    hide IsName;
  }

  lemma RenderOfThree(x: string, s: string, y: string)
    ensures Render([x, s, y]) == " " + x + (" " + s + (" " + y))
  {
    assert [x, s, y][1..] == [s, y] && [s, y][1..] == [y];
    assert Render([y]) == " " + y;
  }

  lemma OperatorEvaluates(x: string, s: string, y: string, store: Store)
    requires IsName(x) && IsName(y) && Row(s) >= 0
    ensures var a, b, e := Get(store, x), Get(store, y), Binary(OperatorOf(s), Var(x), Var(y));
            Eval(e, store) ==
              if (s == "/" || s == "%") && b == 0 then Fail(DivisionByZero, store)
              else if s == "**" && b < 0 then Fail(NegativeExponent, store)
              else Val(Meaning(OperatorOf(s), a, b), store)
  {
    hide IsName;
  }

  // ----- single tokens -----

  /** A name is a letter or underscore, followed by letters, digits and underscores. */
  lemma NamesAre(x: string)
    ensures IsName(x) <==> x != "" && x[0] in Small() + Capital() + "_"
                           && forall k :: 0 <= k < |x| ==> x[k] in Small() + Capital() + "_" + Numerals()
  {
    if x != "" {
      Letters(x[0]);
      forall k | 0 <= k < |x| ensures NameChar(x[k]) <==> x[k] in Small() + Capital() + "_" + Numerals() {
        Letters(x[k]);
      }
    }
  }

  lemma Letters(c: char)
    ensures IsAlpha(c) <==> c in Small() + Capital()
    ensures IsDigit(c) <==> c in Numerals()
  {
    hide Small;
    hide Capital;
    hide Numerals;
    LettersAre(c);
    NumeralsAre(c);
  }

  lemma LettersAre(c: char)
    ensures 'a' <= c <= 'z' <==> c in Small()
    ensures 'A' <= c <= 'Z' <==> c in Capital()
  {
    hide Small;
    hide Capital;
    if 'a' <= c <= 'z' {
      SmallAt(c as int - 'a' as int);
      assert Small()[c as int - 'a' as int] == c;
    } else if c in Small() {
      var k :| 0 <= k < 26 && Small()[k] == c;
      SmallAt(k);
    }
    if 'A' <= c <= 'Z' {
      CapitalAt(c as int - 'A' as int);
      assert Capital()[c as int - 'A' as int] == c;
    } else if c in Capital() {
      var k :| 0 <= k < 26 && Capital()[k] == c;
      CapitalAt(k);
    }
  }

  lemma NumeralsAre(c: char)
    ensures '0' <= c <= '9' <==> c in Numerals()
  {
    hide Numerals;
    if '0' <= c <= '9' {
      NumeralAt(c as int - '0' as int);
      assert Numerals()[c as int - '0' as int] == c;
    } else if c in Numerals() {
      var k :| 0 <= k < 10 && Numerals()[k] == c;
      NumeralAt(k);
    }
  }

  predicate Blanks(s: string) {
    forall k :: 0 <= k < |s| ==> s[k] == ' ' || s[k] == '\t' || s[k] == '\n'
  }

  /** A numeral starts with a digit and goes on with letters, digits, `#`, `@` and `_`. */
  predicate IsNumeral(s: string) {
    s != "" && s[0] in Numerals() && forall k :: 0 <= k < |s| ==> s[k] in Alphabet() + "#"
  }

  lemma NumeralChars(c: char)
    ensures NumeralChar(c) <==> c in Alphabet() + "#"
  {
    Letters(c);
    assert Alphabet()[62] == '@' && Alphabet()[63] == '_';
  }

  lemma {:induction false} BlanksSkipped(text: string, i: nat, j: nat)
    requires i <= j <= |text| && Blanks(text[i..j])
    requires j < |text| ==> text[j] != ' ' && text[j] != '\t' && text[j] != '\n'
    ensures SkipBlanks(text, i) == j
    decreases j - i
  {
    if i < j {
      assert text[i] == text[i..j][0] && text[i + 1..j] == text[i..j][1..];
      BlanksSkipped(text, i + 1, j);
    }
  }

  lemma {:induction false} NumeralToEnd(text: string, i: nat, j: nat)
    requires i <= j <= |text| && forall k :: i <= k < j ==> NumeralChar(text[k])
    requires j < |text| ==> !NumeralChar(text[j])
    ensures NumeralEnd(text, i) == j
    decreases j - i
  {
    if i < j {
      NumeralToEnd(text, i + 1, j);
    }
  }

  /** evalexp of a numeral, with blanks around it: its value as strlong reads it, or an error when strlong refuses it. */
  lemma NumeralText(before: string, numeral: string, behind: string, vars: Vars)
    requires Blanks(before) && Blanks(behind) && IsNumeral(numeral)
    ensures var r := EvalExp(before + numeral + behind, vars);
            match Strlong(numeral)
            case BadNumber => r == Err(BadNumeral, vars)
            case Value(v) => r.Ok? && r.v == v && r.st.vars == vars
  {
    hide Strlong;
    hide Parse;
    hide ReadTok;
    hide SkipBlanks;
    hide NumeralEnd;
    hide EvalExp;
    hide IsNumeral;
    var text, i := before + numeral + behind, |before|;
    var e := i + |numeral|;
    NumeralPlaced(before, numeral, behind);
    var entry := Entry(vars);
    ReadTokCases(text, entry, i);
    match Strlong(numeral) {
      case BadNumber =>
        SubexprFails(text, vars, BadNumeral);
      case Value(v) =>
        var first := entry.(tp := e, tokval := v, lasttok := End, curtok := Num);
        ReadTokCases(text, first, |text|);
        var last := Ok(first.(tp := |text|, lasttok := Num, curtok := End), v);
        NumeralDescends(text, first, last);
        EvalUnfolds(text, vars, first, last);
    }
  }

  lemma NumeralPlaced(before: string, numeral: string, behind: string)
    requires Blanks(before) && Blanks(behind) && IsNumeral(numeral)
    ensures var text, i := before + numeral + behind, |before|;
            var e := i + |numeral|;
            && SkipBlanks(text, 0) == i < |text| && IsDigit(text[i]) && !NameStart(text[i])
            && NumeralEnd(text, i) == e && text[i..e] == numeral && SkipBlanks(text, e) == |text|
  {
    hide SkipBlanks;
    hide NumeralEnd;
    hide Alphabet;
    hide Numerals;
    hide NumeralChar;
    var text, i := before + numeral + behind, |before|;
    var e := i + |numeral|;
    assert text[0..i] == before && text[e..|text|] == behind && text[i] == numeral[0];
    Letters(numeral[0]);
    forall k | i <= k < e ensures NumeralChar(text[k]) {
      assert text[k] == numeral[k - i];
      NumeralChars(text[k]);
    }
    if behind != "" {
      assert text[e] == behind[0];
      BlankIsNoNumeral(behind[0]);
    }
    BlanksSkipped(text, 0, i);
    NumeralToEnd(text, i, e);
    BlanksSkipped(text, e, |text|);
  }

  lemma BlankIsNoNumeral(c: char)
    requires c == ' ' || c == '\t' || c == '\n'
    ensures !NumeralChar(c)
  {
  }

  lemma NumeralDescends(text: string, first: State, last: Result)
    requires Within(text, first) && first.curtok == Num && SkipBlanks(text, first.tp) == |text|
    requires last == Ok(first.(tp := |text|, lasttok := Num, curtok := End), first.tokval)
    ensures Parse(0, text, first) == last
  {
    hide SkipBlanks;
    ReadTokCases(text, first, |text|);
    Descend(15, 0, text, first, last);
  }

  lemma SubexprFails(text: string, vars: Vars, error: Error)
    requires SkipBlanks(text, 0) < |text| && ReadTok(text, Entry(vars)) == Err(error, vars)
    ensures EvalExp(text, vars) == Err(error, vars)
  {
    hide SkipBlanks;
    hide ReadTok;
    hide Parse;
  }

  // ----- how operators group -----

  /** An operator that binds tighter than the one in front of it takes the name between them, and so does `**` behind `**`. */
  lemma GroupsRight(x: string, s1: string, y: string, s2: string, z: string)
    requires IsName(x) && IsName(y) && IsName(z) && Row(s1) >= 0 && Row(s2) >= 0
    requires Row(s1) < Row(s2) || s1 == s2 == "**"
    ensures var right := Binary(OperatorOf(s1), Var(x), Binary(OperatorOf(s2), Var(y), Var(z)));
            WellFormed(right) && Print(right) == Render([x, s1, y, s2, z])
  {
    hide IsName;
    hide OperatorOf;
    hide LevelOf;
    hide Row;
    var op1, op2 := OperatorOf(s1), OperatorOf(s2);
    LevelIsRow(s1);
    LevelIsRow(s2);
    OperandTokens(y, s2, z);
    NameTokens(x, LeftLevel(op1));
    var inner := Binary(op2, Var(y), Var(z));
    assert Tokens(inner, RightLevel(op1)) == [y, s2, z];
    assert BareTokens(Binary(op1, Var(x), inner)) == [x] + ([s1] + [y, s2, z]) == [x, s1, y, s2, z];
  }

  /** All other operators take what is in front of them. */
  lemma GroupsLeft(x: string, s1: string, y: string, s2: string, z: string)
    requires IsName(x) && IsName(y) && IsName(z) && Row(s1) >= 0 && Row(s2) >= 0
    requires Row(s1) >= Row(s2) && s1 != "**"
    ensures var left := Binary(OperatorOf(s2), Binary(OperatorOf(s1), Var(x), Var(y)), Var(z));
            WellFormed(left) && Print(left) == Render([x, s1, y, s2, z])
  {
    hide IsName;
    hide OperatorOf;
    hide LevelOf;
    hide Row;
    var op1, op2 := OperatorOf(s1), OperatorOf(s2);
    LevelIsRow(s1);
    LevelIsRow(s2);
    OperandTokens(x, s1, y);
    NameTokens(z, RightLevel(op2));
    var inner := Binary(op1, Var(x), Var(y));
    assert Tokens(inner, LeftLevel(op2)) == [x, s1, y];
    assert BareTokens(Binary(op2, inner, Var(z))) == [x, s1, y] + ([s2] + [z]) == [x, s1, y, s2, z];
  }

  lemma OperandTokens(x: string, s: string, y: string)
    requires IsName(x) && IsName(y) && Row(s) >= 0
    ensures var e := Binary(OperatorOf(s), Var(x), Var(y));
            WellFormed(e) && BareTokens(e) == [x, s, y] && Rank(e) == LevelOf(OperatorOf(s))
  {
    hide IsName;
    hide OperatorOf;
    hide LevelOf;
    hide Row;
    NameTokens(x, LeftLevel(OperatorOf(s)));
    NameTokens(y, RightLevel(OperatorOf(s)));
    assert BareTokens(Binary(OperatorOf(s), Var(x), Var(y))) == [x] + ([s] + [y]);
  }

  lemma LevelIsRow(s: string)
    requires Row(s) >= 0
    ensures var op := OperatorOf(s);
            && LevelOf(op) == (if Row(s) == 0 then 0 else Row(s) + 2) && (op == Power <==> s == "**") && Row("**") == 11
            && (s == "**" <==> Row(s) == 11)
  {
  }

  predicate PrintsAs(e: Expr, tokens: seq<string>) {
    WellFormed(e) && Print(e) == Render(tokens)
  }

  /** The unary operators bind tighter than the binary ones, `**` included. */
  lemma UnaryBinds(c: char, x: string, s: string, y: string)
    requires c in "!~-+" && IsName(x) && IsName(y) && Row(s) >= 0
    ensures PrintsAs(Binary(OperatorOf(s), Unary(c, Var(x)), Var(y)), [[c], x, s, y])
  {
    hide IsName;
    hide OperatorOf;
    hide LevelOf;
    hide Row;
    var op, inner := OperatorOf(s), Unary(c, Var(x));
    LevelIsRow(s);
    NameTokens(x, 14);
    NameTokens(y, RightLevel(op));
    assert Tokens(inner, LeftLevel(op)) == [[c]] + [x] == [[c], x];
    assert BareTokens(Binary(op, inner, Var(y))) == [[c], x] + ([s] + [y]) == [[c], x, s, y];
  }

  /** The conditional binds less tightly than all binary operators but the comma, and groups from the right. */
  lemma ConditionalGroups(x: string, s: string, y: string, z: string, u: string, v: string)
    requires IsName(x) && IsName(y) && IsName(z) && IsName(u) && IsName(v) && Row(s) > 0
    ensures PrintsAs(Conditional(Var(x), Var(y), Conditional(Var(z), Var(u), Var(v))), [x, "?", y, ":", z, "?", u, ":", v])
    ensures PrintsAs(Conditional(Binary(OperatorOf(s), Var(x), Var(y)), Var(z), Var(u)), [x, s, y, "?", z, ":", u])
  {
    hide IsName;
    hide OperatorOf;
    hide LevelOf;
    hide Row;
    LevelIsRow(s);
    OperandTokens(x, s, y);
    var test, inner := Binary(OperatorOf(s), Var(x), Var(y)), Conditional(Var(z), Var(u), Var(v));
    NameTokens(x, 3);
    NameTokens(y, 0);
    NameTokens(z, 3);
    NameTokens(z, 0);
    NameTokens(u, 0);
    NameTokens(u, 2);
    NameTokens(v, 2);
    assert BareTokens(inner) == [z] + (["?"] + ([u] + ([":"] + [v]))) == [z, "?", u, ":", v];
    assert Tokens(inner, 2) == [z, "?", u, ":", v];
    assert BareTokens(Conditional(Var(x), Var(y), inner)) == [x] + (["?"] + ([y] + ([":"] + [z, "?", u, ":", v])));
    assert [x] + (["?"] + ([y] + ([":"] + [z, "?", u, ":", v]))) == [x, "?", y, ":", z, "?", u, ":", v];
    assert Tokens(test, 3) == [x, s, y];
    assert BareTokens(Conditional(test, Var(z), Var(u))) == [x, s, y] + (["?"] + ([z] + ([":"] + [u])))
        == [x, s, y, "?", z, ":", u];
  }

  /** Assignment binds less tightly than the conditional and more tightly than the comma, and groups from the right. */
  lemma AssignmentGroups(x: string, y: string, z: string, u: string)
    requires IsName(x) && IsName(y) && IsName(z) && IsName(u)
    ensures PrintsAs(Assign(x, Assign(y, Var(z))), [x, "=", y, "=", z])
    ensures PrintsAs(Assign(x, Conditional(Var(y), Var(z), Var(u))), [x, "=", y, "?", z, ":", u])
    ensures PrintsAs(Binary(Ch(','), Assign(x, Var(y)), Var(z)), [x, "=", y, ",", z])
  {
    hide IsName;
    var inner, test := Assign(y, Var(z)), Conditional(Var(y), Var(z), Var(u));
    NameTokens(z, 1);
    AssignTokens(y, Var(z), [z]);
    assert [y, "="] + [z] == [y, "=", z];
    AssignTokens(x, inner, [y, "=", z]);
    assert [x, "="] + [y, "=", z] == [x, "=", y, "=", z];
    assert Tokens(test, 1) == [y, "?", z, ":", u] by {
      NameTokens(y, 3);
      NameTokens(z, 0);
      NameTokens(u, 2);
      assert BareTokens(test) == [y] + (["?"] + ([z] + ([":"] + [u])));
    }
    AssignTokens(x, test, [y, "?", z, ":", u]);
    assert [x, "="] + [y, "?", z, ":", u] == [x, "=", y, "?", z, ":", u];
    NameTokens(y, 1);
    AssignTokens(x, Var(y), [y]);
    assert BareTokens(Binary(Ch(','), Assign(x, Var(y)), Var(z))) == [x, "=", y] + ([","] + [z]) == [x, "=", y, ",", z];
  }

  lemma AssignTokens(x: string, e: Expr, tokens: seq<string>)
    requires IsName(x) && WellFormed(e) && Tokens(e, 1) == tokens
    ensures WellFormed(Assign(x, e))
    ensures Tokens(Assign(x, e), 0) == Tokens(Assign(x, e), 1) == [x, "="] + tokens
  {
    hide IsName;
    assert [x] + (["="] + tokens) == [x, "="] + tokens;
  }
}
