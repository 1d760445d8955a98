/** The theorems about evalexp: what it computes, when it fails, and what it leaves alone. */
module ExprEvaluation {
  import opened Text
  import opened Int64
  import opened ExprNumbers
  import opened ExprModel
  import opened ExprTree
  import opened ExprLex
  import opened ExprDescent
  import opened ExprFollow
  import opened ExprCorrect
  import opened ExprTheorem

  // ----- evalexp on printed trees -----

  /** What evalexp returned is the outcome, in terms of the shell's string variables. */
  predicate Agrees(r: Result, outcome: Outcome) {
    match outcome
    case Fail(error, store) => r == Err(error, Encode(store))
    case Val(v, store) => r.Ok? && r.v == v && r.st.vars == Encode(store)
  }

  /** The state in which evalexp reads the first token. */
  function Entry(vars: Vars): State {
    State(0, End, End, End, 0, "", 0, 1, vars)
  }

  lemma EvalUnfolds(text: string, vars: Vars, first: State, r: Result)
    requires SkipBlanks(text, 0) < |text| && ReadTok(text, Entry(vars)) == Ok(first, 0) && Within(text, first)
    requires Parse(0, text, first) == r && (r.Ok? ==> r.st.curtok == End)
    ensures r.Err? ==> EvalExp(text, vars) == r
    ensures r.Ok? ==> EvalExp(text, vars).Ok? && EvalExp(text, vars).v == r.v && EvalExp(text, vars).st.vars == r.st.vars
  {
    hide ReadTok;
    hide Parse;
    hide SkipBlanks;
  }

  lemma WholeIsPrinted(e: Expr)
    requires WellFormed(e)
    ensures Clean(Tokens(e, 0)) && |Tokens(e, 0)| > 0 && Printed(Tokens(e, 0), 0, e, 0)
    ensures SkipBlanks(Print(e), 0) < |Print(e)| && Pos(Tokens(e, 0), 0) == 0
  {
    hide Tokens;
    hide WellFormed;
    TokensAreClean(e, 0);
    assert Tokens(e, 0)[..0] == [];
    SkipToToken(Tokens(e, 0), 0);
  }

  lemma EntryIsBefore(e: Expr, store: Store)
    requires WellFormed(e) && Ints(store)
    requires |Tokens(e, 0)| > 0 && Pos(Tokens(e, 0), 0) == 0
    ensures BeforeOperand(Tokens(e, 0), 0, Entry(Encode(store)), false, store)
  {
    hide Tokens;
    hide WellFormed;
    hide Render;
    hide Encode;
    hide Pos;
  }

  lemma LastIsEnd(tokens: seq<string>, st: State, run: Outcome, s: State)
    requires Within(Render(tokens), st) && ParsedTo(tokens, |tokens|, 0, st, false, run, s)
    ensures run.Fail? ==> Parse(0, Render(tokens), st) == Err(run.error, Encode(run.store))
    ensures run.Val? ==> Parse(0, Render(tokens), st) == Ok(s, run.v) && s.curtok == End && s.vars == Encode(run.store)
  {
    hide Parse;
    hide Loop;
    hide Render;
    hide Encode;
    if run.Val? {
      LoopEnds(0, Render(tokens), s, run.v);
    }
  }

  /** evalexp does on the text what Run does on the tree. */
  lemma EvalIsRun(e: Expr, store: Store)
    requires WellFormed(e) && Ints(store)
    ensures Agrees(EvalExp(Print(e), Encode(store)), Run(e, 0, false, FirstValue(e, 0, false, store), store))
  {
    hide ReadTok;
    hide Parse;
    hide Loop;
    hide EvalExp;
    hide Render;
    hide Tokens;
    hide Run;
    hide FirstValue;
    hide FirstTok;
    hide Clean;
    hide Encode;
    hide BeforeOperand;
    hide Printed;
    hide ParsedTo;
    hide SkipBlanks;
    var tokens := Tokens(e, 0);
    WholeIsPrinted(e);
    EntryIsBefore(e, store);
    var run := Run(e, 0, false, FirstValue(e, 0, false, store), store);
    var s1, last := Operand(tokens, 0, e, 0, Entry(Encode(store)), false, false, store);
    LastIsEnd(tokens, s1, run, last);
    EvalUnfolds(Print(e), Encode(store), s1, Parse(0, Print(e), s1));
  }

  /** The direct semantics fails on a negative exponent too, with the variables of the moment evalexp failed. */
  predicate FailsAlike(e: Expr, store: Store)
    requires WellFormed(e)
  {
    var direct := Eval(e, store);
    direct.Fail? && direct.error == NegativeExponent && Encode(direct.store) == Encode(StoreAtHarm(e, store))
  }

  /** On every printed expression and every store of integers, evalexp gives the value and the final store, or the
      division by zero, of the direct semantics, when every skipped operand gets by without a negative exponent;
      when one does not, evalexp fails on that exponent, with the variables as the direct semantics had them when it came to
      that operand, and agrees with it only if it fails on another negative exponent with the same variables. */
  lemma EvaluatorIsCorrect(e: Expr, store: Store)
    requires WellFormed(e) && Ints(store)
    ensures Harmless(e, store) ==> Agrees(EvalExp(Print(e), Encode(store)), Eval(e, store))
    ensures !Harmless(e, store) ==> EvalExp(Print(e), Encode(store)) == Err(NegativeExponent, Encode(StoreAtHarm(e, store)))
    ensures Agrees(EvalExp(Print(e), Encode(store)), Eval(e, store)) <==> Harmless(e, store) || FailsAlike(e, store)
  {
    hide EvalExp;
    hide Print;
    hide Encode;
    hide Eval;
    hide Run;
    hide FirstValue;
    hide Harmless;
    hide StoreAtHarm;
    EvalIsRun(e, store);
    RunIsEval(e, 0, store);
  }

  // ----- expressions whose skipped operands are harmless -----

  predicate PowerFree(e: Expr) {
    match e
    case Number(_) => true
    case Var(_) => true
    case Step(_, _, _) => true
    case Unary(_, e1) => PowerFree(e1)
    case Binary(op, l, r) => op != Power && PowerFree(l) && PowerFree(r)
    case Conditional(c, a, b) => PowerFree(c) && PowerFree(a) && PowerFree(b)
    case Assign(_, e1) => PowerFree(e1)
    case AssignOp(op, _, e1) => op != Power && PowerFree(e1)
  }

  /** `**` occurs in no operand that can be skipped. */
  predicate NoSkippedPower(e: Expr) {
    match e
    case Number(_) => true
    case Var(_) => true
    case Step(_, _, _) => true
    case Unary(_, e1) => NoSkippedPower(e1)
    case Binary(op, l, r) => NoSkippedPower(l) && NoSkippedPower(r) && (op == LAnd || op == LOr ==> PowerFree(r))
    case Conditional(c, a, b) => NoSkippedPower(c) && NoSkippedPower(a) && NoSkippedPower(b) && PowerFree(a) && PowerFree(b)
    case Assign(_, e1) => NoSkippedPower(e1)
    case AssignOp(_, _, e1) => NoSkippedPower(e1)
  }

  lemma {:induction false} PowerFreeSkips(e: Expr, level: nat, first: int, store: Store)
    requires WellFormed(e) && PowerFree(e)
    ensures Run(e, level, true, first, store).Val? && Run(e, level, true, first, store).store == store
    decreases e
  {
    hide BinaryValue;
    hide FirstValue;
    hide UnaryValue;
    match e {
      case Unary(_, e1) => PowerFreeSkips(e1, 14, FirstValue(e1, 14, true, store), store);
      case Binary(op, l, r) =>
        PowerFreeSkips(l, LeftLevel(op), if Rank(e) < level then FirstValue(e, 0, true, store) else first, store);
        PowerFreeSkips(r, RightLevel(op), FirstValue(r, RightLevel(op), true, store), store);
      case Conditional(c, a, b) =>
        PowerFreeSkips(c, 3, if Rank(e) < level then FirstValue(e, 0, true, store) else first, store);
        PowerFreeSkips(a, 0, FirstValue(a, 0, true, store), store);
        PowerFreeSkips(b, 2, FirstValue(b, 2, true, store), store);
      case Assign(_, e1) => PowerFreeSkips(e1, 1, FirstValue(e1, 1, true, store), store);
      case AssignOp(_, _, e1) => PowerFreeSkips(e1, 1, FirstValue(e1, 1, true, store), store);
      case _ =>
    }
  }

  lemma {:induction false} NoSkippedPowerIsHarmless(e: Expr, store: Store)
    requires WellFormed(e) && NoSkippedPower(e)
    ensures Harmless(e, store)
  {
    hide Run;
    hide FirstValue;
    hide PowerFree;
    match e {
      case Unary(_, e1) => NoSkippedPowerIsHarmless(e1, store);
      case Binary(op, l, r) =>
        NoSkippedPowerIsHarmless(l, store);
        var el := Eval(l, store);
        if el.Val? {
          if Skips(op, el.v) {
            PowerFreeSkips(r, RightLevel(op), FirstValue(r, RightLevel(op), true, el.store), el.store);
          } else {
            NoSkippedPowerIsHarmless(r, el.store);
          }
        }
      case Conditional(c, a, b) =>
        NoSkippedPowerIsHarmless(c, store);
        var ec := Eval(c, store);
        if ec.Val? {
          var s := Eval(a, ec.store).store;
          assert Run(a, 0, true, FirstValue(a, 0, false, ec.store), ec.store).Val?
                 && (Eval(a, ec.store).Val? ==> Run(b, 2, true, FirstValue(b, 2, false, s), s).Val?) by {
            hide Eval;
            PowerFreeSkips(a, 0, FirstValue(a, 0, false, ec.store), ec.store);
            if Eval(a, ec.store).Val? {
              PowerFreeSkips(b, 2, FirstValue(b, 2, false, s), s);
            }
          }
          NoSkippedPowerIsHarmless(a, ec.store);
          NoSkippedPowerIsHarmless(b, ec.store);
        }
      case Assign(_, e1) => NoSkippedPowerIsHarmless(e1, store);
      case AssignOp(_, _, e1) => NoSkippedPowerIsHarmless(e1, store);
      case _ =>
    }
  }

  /** With `**` kept out of skipped operands, evalexp is exactly the direct semantics. */
  lemma EvaluatorIsCorrectWithoutSkippedPower(e: Expr, store: Store)
    requires WellFormed(e) && Ints(store) && NoSkippedPower(e)
    ensures Agrees(EvalExp(Print(e), Encode(store)), Eval(e, store))
  {
    hide EvalExp;
    hide Print;
    hide Encode;
    hide Eval;
    hide Harmless;
    hide NoSkippedPower;
    NoSkippedPowerIsHarmless(e, store);
    EvaluatorIsCorrect(e, store);
  }

  // ----- a skipped operand that fails -----

  /** `0 && 2 ** -1` as a tree. */
  function SkippedPower(): Expr {
    Binary(LAnd, Number(0), Binary(Power, Number(2), Unary('-', Number(1))))
  }

  lemma SkippedPowerIsHarmful(store: Store)
    ensures WellFormed(SkippedPower()) && Eval(SkippedPower(), store) == Val(0, store) && !Harmless(SkippedPower(), store)
    ensures StoreAtHarm(SkippedPower(), store) == store
  {
    var power := Binary(Power, Number(2), Unary('-', Number(1)));
    assert WellFormed(power) && FirstValue(power, 5, true, store) == 2 && Run(power, 5, true, 2, store).Fail?;
    hide Run;
    assert Eval(Number(0), store) == Val(0, store) && Harmless(Number(0), store);
  }

  /** The direct semantics gives `0 && 2 ** -1` the value 0; evalexp refuses the exponent of the skipped operand. */
  lemma SkippedPowerStillFails(store: Store)
    requires Ints(store)
    ensures WellFormed(SkippedPower()) && Eval(SkippedPower(), store) == Val(0, store)
    ensures EvalExp(Print(SkippedPower()), Encode(store)) == Err(NegativeExponent, Encode(store))
  {
    hide EvalExp;
    hide Print;
    hide Encode;
    hide Eval;
    hide Harmless;
    hide StoreAtHarm;
    hide SkippedPower;
    SkippedPowerIsHarmful(store);
    EvaluatorIsCorrect(SkippedPower(), store);
  }

  // ----- self-referential variables -----

  lemma NameTextStarts(x: string, entry: State) returns (peek: State)
    requires IsName(x) && entry.tp == 0 && Within(x, entry)
    ensures SkipBlanks(x, 0) == 0 < |x| && NameStart(x[0]) && NameEnd(x, 0) == |x| && x[0..|x|] == x
    ensures ReadTok(x, entry.(tp := |x|, tokstr := "", noeval := 1, curtok := Str)) == Ok(peek, 0) && peek.curtok == End
  {
    hide ReadTok;
    NameToEnd(x, 0, |x|);
    var behind := entry.(tp := |x|, tokstr := "", noeval := 1, curtok := Str);
    ReadTokCases(x, behind, |x|);
    peek := behind.(lasttok := Str, curtok := End);
  }

  /** A variable whose text is its own name: evaluation stops at the recursion limit, at any depth, with an error and
      the variables as they were. */
  lemma {:induction false} SelfReferenceIsTooDeep(x: string, st: State)
    requires IsName(x) && x in st.vars && st.vars[x] == x && st.noeval == 0 && st.depth <= MAX_EXPR_RECURSION_LEVEL
    ensures Subexpr(x, st) == Err(TooDeep, st.vars)
    decreases MAX_EXPR_RECURSION_LEVEL - st.depth
  {
    hide ReadTok;
    hide Parse;
    hide SkipBlanks;
    hide NameEnd;
    var entry := st.(tp := 0, curtok := End, lasttok := End, tokval := 0, tokstr := "", depth := st.depth + 1);
    if st.depth < MAX_EXPR_RECURSION_LEVEL {
      var peek := NameTextStarts(x, entry);
      var back := entry.(tokstr := x, assigntok := peek.assigntok);
      SelfReferenceIsTooDeep(x, back);
      assert ReadTok(x, entry) == Err(TooDeep, st.vars) by {
        hide StrEval;
        ReadTokCases(x, entry, 0);
      }
    } else {
      NameIsNoBlank(x);
    }
  }

  lemma NameIsNoBlank(x: string)
    requires IsName(x)
    ensures SkipBlanks(x, 0) == 0 < |x|
  {
  }
}
