/** The evaluator itself: file-level state, a stack of contexts, and methods that change them step by step. Every method
    is proved to do to its state what the functions of ExprModel say. */
module ExprEvaluator {
  import opened Text
  import opened ExprNumbers
  import opened ExprModel
  import opened ExprTree
  import opened ExprTheorem
  import L = ExprLex

  /** How a method ended: normally, or by the jump evalerror makes. */
  datatype Status = Done | Failed(error: Error) {
    predicate IsFailure() { Failed? }
    function PropagateFailure(): Status requires Failed? { this }
  }

  /** What SAVETOK and pushexp save. */
  datatype Context = Context(expression: string, tp: nat, curtok: Token, lasttok: Token, tokval: int, tokstr: string, noeval: nat)

  class Evaluator {
    var expression: string
    var tp: nat
    var curtok: Token
    var lasttok: Token
    var assigntok: Token
    var tokval: int
    var tokstr: string
    var noeval: nat
    var stack: seq<Context>
    var vars: Vars

    constructor (shellVars: Vars)
      ensures vars == shellVars && stack == []
    {
      expression, tp, curtok, lasttok, assigntok := "", 0, End, End, End;
      tokval, tokstr, noeval, stack, vars := 0, "", 0, [], shellVars;
    }

    /** The state the functions of ExprModel work on. */
    function Now(): State
      reads this
    {
      State(tp, curtok, lasttok, assigntok, tokval, tokstr, noeval, |stack|, vars)
    }

    /** A method did what r says: it left r's state behind in the same context, or failed with r's error. */
    ghost predicate Ends(r: Result, text: string, contexts: seq<Context>, status: Status, v: int)
      reads this
    {
      match r
      case Ok(st, w) => status == Done && v == w && Now() == st && expression == text && stack == contexts
      case Err(error, vs) => status == Failed(error) && vars == vs
    }

    // ----- saving and restoring -----

    method SaveTok() returns (c: Context)
      ensures c == Context(expression, tp, curtok, lasttok, tokval, tokstr, noeval)
    {
      c := Context(expression, tp, curtok, lasttok, tokval, tokstr, noeval);
    }

    method RestoreTok(c: Context)
      modifies this`tp, this`curtok, this`lasttok, this`tokval, this`tokstr, this`noeval
      ensures tp == c.tp && curtok == c.curtok && lasttok == c.lasttok && tokval == c.tokval && tokstr == c.tokstr
              && noeval == c.noeval
    {
      tp, curtok, lasttok, tokval, tokstr, noeval := c.tp, c.curtok, c.lasttok, c.tokval, c.tokstr, c.noeval;
    }

    method PushExp() returns (status: Status)
      modifies this`stack
      ensures |old(stack)| >= MAX_EXPR_RECURSION_LEVEL ==> status == Failed(TooDeep) && stack == old(stack)
      ensures |old(stack)| < MAX_EXPR_RECURSION_LEVEL ==>
                status == Done && stack == old(stack) + [Context(expression, tp, curtok, lasttok, tokval, tokstr, noeval)]
    {
      if |stack| >= MAX_EXPR_RECURSION_LEVEL {
        return Failed(TooDeep);
      }
      var c := SaveTok();
      stack := stack + [c];
      status := Done;
    }

    method PopExp()
      requires stack != []
      modifies this`stack, this`expression, this`tp, this`curtok, this`lasttok, this`tokval, this`tokstr, this`noeval
      ensures stack == old(stack)[..|old(stack)| - 1]
      ensures Context(expression, tp, curtok, lasttok, tokval, tokstr, noeval) == old(stack)[|old(stack)| - 1]
    {
      var c := stack[|stack| - 1];
      stack := stack[..|stack| - 1];
      expression := c.expression;
      RestoreTok(c);
    }

    // ----- readtok -----

    static method SkipWhite(text: string, start: nat) returns (i: nat)
      requires start <= |text|
      ensures i == SkipBlanks(text, start)
    {
      i := start;
      while i < |text| && IsBlank(text[i])
        invariant start <= i <= |text| && SkipBlanks(text, i) == SkipBlanks(text, start)
      {
        i := i + 1;
      }
    }

    method ReadToken() returns (status: Status)
      requires Within(expression, Now())
      modifies this
      ensures Ends(ReadTok(old(expression), old(Now())), old(expression), old(stack), status, 0)
      decreases MAX_EXPR_RECURSION_LEVEL - |stack|, |expression| - tp, 1
    {
      hide ReadTok;
      hide ReadName;
      hide ReadNumeral;
      hide ReadOperator;
      ghost var text, st := expression, Now();
      var i := SkipWhite(expression, tp);
      L.ReadTokCases(text, st, i);
      if i == |expression| {
        tp, lasttok, curtok := i, curtok, End;
        return Done;
      } else if NameStart(expression[i]) {
        status := ReadNameAt(i);
      } else if IsDigit(expression[i]) {
        status := ReadNumeralAt(i);
      } else {
        status := ReadOperatorAt(i);
      }
    }

    method ReadOperatorAt(i: nat) returns (status: Status)
      requires Within(expression, Now()) && i < |expression|
      modifies this
      ensures Ends(ReadOperator(old(expression), i, old(Now())), old(expression), old(stack), status, 0)
    {
      hide OperatorAt;
      hide SkipBlanks;
      var nameFollows := false;
      if i + 2 <= |expression| {
        var x := SkipWhite(expression, i + 2);
        nameFollows := x < |expression| && NameStart(expression[x]);
      }
      match OperatorAt(expression[i], At(expression, i + 1), At(expression, i + 2), nameFollows, curtok) {
        case BadOperator => status := Failed(Syntax);
        case Operator(tok, len, assign) =>
          if tok == OpAssign {
            assigntok := assign;
          }
          tp, lasttok, curtok := i + len, curtok, tok;
          status := Done;
      }
    }

    method ReadNumeralAt(i: nat) returns (status: Status)
      requires Within(expression, Now()) && tp <= i < |expression| && IsDigit(expression[i])
      modifies this
      ensures Ends(ReadNumeral(old(expression), i, old(Now())), old(expression), old(stack), status, 0)
    {
      hide Strlong;
      var e := i;
      while e < |expression| && NumeralChar(expression[e])
        invariant i <= e <= |expression| && NumeralEnd(expression, e) == NumeralEnd(expression, i)
      {
        e := e + 1;
      }
      var number := ReadNumber(expression[i..e]);
      match number {
        case BadNumber => status := Failed(BadNumeral);
        case Value(v) =>
          tp, tokval, lasttok, curtok := e, v, curtok, Num;
          status := Done;
      }
    }

    method ScanName(i: nat) returns (e: nat)
      requires i <= |expression|
      ensures e == NameEnd(expression, i)
    {
      e := i;
      while e < |expression| && NameChar(expression[e])
        invariant i <= e <= |expression| && NameEnd(expression, e) == NameEnd(expression, i)
      {
        e := e + 1;
      }
    }

    method ReadNameAt(i: nat) returns (status: Status)
      requires Within(expression, Now()) && tp <= i < |expression| && NameStart(expression[i])
      modifies this
      ensures Ends(ReadName(old(expression), i, old(Now())), old(expression), old(stack), status, 0)
      decreases MAX_EXPR_RECURSION_LEVEL - |stack|, |expression| - i, 0
    {
      hide ReadTok;
      hide NameTaken;
      hide ReadName;
      hide StrEval;
      hide NameEnd;
      var e := ScanName(i);
      NameIsTaken(expression, i, Now());
      tokstr := expression[i..e];
      var saved := SaveTok();
      tp, tokstr, noeval, curtok := e, "", 1, Str;
      :- ReadToken();
      var peektok := curtok;
      RestoreTok(saved);
      status := TakeName(e, peektok);
    }

    /** Behind the peek: the name is looked up, unless `=` comes next. */
    method TakeName(e: nat, peektok: Token) returns (status: Status)
      requires |stack| <= MAX_EXPR_RECURSION_LEVEL
      modifies this
      ensures Ends(NameTaken(old(Now()), e, peektok), old(expression), old(stack), status, 0)
      decreases MAX_EXPR_RECURSION_LEVEL - |stack|, 0, 2
    {
      hide StrEval;
      if lasttok == PreInc || lasttok == PreDec || peektok != Ch('=') {
        var v :- ValueOf(tokstr);
        tokval := v;
      } else {
        tokval := 0;
      }
      tp, lasttok, curtok := e, curtok, Str;
      status := Done;
    }

    // ----- variables and contexts -----

    method ValueOf(name: string) returns (status: Status, v: int)
      requires |stack| <= MAX_EXPR_RECURSION_LEVEL
      modifies this
      ensures Ends(StrEval(name, old(Now())), old(expression), old(stack), status, v)
      decreases MAX_EXPR_RECURSION_LEVEL - |stack|, 0, 1
    {
      hide Subexpr;
      if noeval > 0 || name !in vars {
        return Done, 0;
      }
      v :- Evaluate(vars[name]);
      status := Done;
    }

    method Evaluate(text: string) returns (status: Status, v: int)
      requires |stack| <= MAX_EXPR_RECURSION_LEVEL
      modifies this
      ensures Ends(Subexpr(text, old(Now())), old(expression), old(stack), status, v)
      decreases MAX_EXPR_RECURSION_LEVEL - |stack|, 0, 0
    {
      hide Consumes;
      hide ReadTok;
      hide Parse;
      hide Subexpr;
      hide InContext;
      hide SkipBlanks;
      ghost var st := Now();
      v := 0;
      SubexprEnds(text, st);
      var p := SkipWhite(text, 0);
      if p == |text| {
        return Done, 0;
      }
      :- PushExp();
      expression, tp, curtok, lasttok, tokval, tokstr := text, 0, End, End, 0, "";
      SubexprInContext(text, st, Now());
      v :- InNewContext();
      PopExp();
      status := Done;
    }

    /** The part of subexpr between pushexp and popexp. */
    method InNewContext() returns (status: Status, v: int)
      requires Within(expression, Now())
      modifies this
      ensures Ends(InContext(old(expression), old(Now())), old(expression), old(stack), status, v)
      decreases MAX_EXPR_RECURSION_LEVEL - |stack|, |expression| - tp, 50
    {
      hide Consumes;
      hide ReadTok;
      hide Parse;
      v := 0;
      :- ReadToken();
      v :- ParseAt(0);
      if curtok != End {
        return Failed(Syntax), 0;
      }
      status := Done;
    }

    // ----- the grammar -----

    /** The parsing function of a grammar level. */
    method ParseAt(level: nat) returns (status: Status, v: int)
      requires level <= 15 && Within(expression, Now())
      modifies this
      ensures Ends(Parse(level, old(expression), old(Now())), old(expression), old(stack), status, v)
      decreases MAX_EXPR_RECURSION_LEVEL - |stack|, Left(expression, Now()), 2 + 2 * (16 - level) + 1
    {
      hide Parse;
      hide ParsePrimary;
      hide ParseUnary;
      hide ParseConditional;
      hide ParseAssignment;
      hide Loop;
      ParseCases(level, expression, Now());
      if level == 15 {
        status, v := Exp0();
      } else if level == 14 {
        status, v := Exp1();
      } else if level == 2 {
        status, v := ExpCond();
      } else if level == 1 {
        status, v := ExpAssign();
      } else {
        status, v := BinaryLevel(level);
      }
    }

    /** A level of binary operators: expcomma, explor to exp2, exppower. */
    method BinaryLevel(level: nat) returns (status: Status, v: int)
      requires level <= 13 && level != 1 && level != 2 && Within(expression, Now())
      modifies this
      ensures Ends(Parse(level, old(expression), old(Now())), old(expression), old(stack), status, v)
      decreases MAX_EXPR_RECURSION_LEVEL - |stack|, Left(expression, Now()), 2 + 2 * (16 - level)
    {
      hide Parse;
      hide Loop;
      hide RightOperand;
      hide Apply;
      hide BinaryValue;
      hide LevelOf;
      ghost var text, st := expression, Now();
      ParseCases(level, text, st);
      v :- ParseAt(level + 1);
      while LevelOf(curtok) == level
        invariant Within(expression, Now()) && expression == text && stack == old(stack)
        invariant Left(expression, Now()) < Left(text, st) && Parse(level, text, st) == Loop(level, text, Now(), v)
        decreases Left(expression, Now())
      {
        var op := curtok;
        ghost var turn := Now();
        OperatorIsNoEnd(level, op);
        LoopUnfolds(level, text, turn, v, RightOperand(if level == 13 then 13 else level + 1, text, turn, Skips(op, v)));
        var w :- RightSide(level, (op == LOr && v != 0) || (op == LAnd && v == 0));
        ApplyCases(op, v, w, Now());
        if IsDivision(op) && w == 0 && noeval == 0 {
          return Failed(DivisionByZero), 0;
        }
        if op == Power && w < 0 {
          return Failed(NegativeExponent), 0;
        }
        lasttok := LastAfter(op, v, w, lasttok);
        if op == Power && w == 0 {
          return Done, 1;
        }
        v := BinaryValue(op, v, w);
      }
      LoopEnds(level, text, Now(), v);
      status := Done;
    }

    /** noeval++, readtok and noeval-- around the operand on the right. */
    method RightSide(level: nat, setNoeval: bool) returns (status: Status, w: int)
      requires level <= 13 && Within(expression, Now()) && curtok != End
      modifies this
      ensures Ends(RightOperand(if level == 13 then 13 else level + 1, old(expression), old(Now()), setNoeval),
                   old(expression), old(stack), status, w)
      decreases MAX_EXPR_RECURSION_LEVEL - |stack|, |expression| - tp, 40
    {
      hide Parse;
      hide ReadTok;
      w := 0;
      if setNoeval {
        noeval := noeval + 1;
      }
      :- ReadToken();
      w :- ParseAt(if level == 13 then 13 else level + 1);
      if setNoeval {
        noeval := noeval - 1;
      }
      status := Done;
    }

    /** noeval++ and noeval-- around a branch of a conditional. */
    method BranchSide(level: nat, setNoeval: bool) returns (status: Status, w: int)
      requires level <= 15 && Within(expression, Now())
      modifies this
      ensures Ends(Branch(level, old(expression), old(Now()), setNoeval), old(expression), old(stack), status, w)
      decreases MAX_EXPR_RECURSION_LEVEL - |stack|, Left(expression, Now()), 40
    {
      hide Parse;
      if setNoeval {
        noeval := noeval + 1;
      }
      w :- ParseAt(level);
      if setNoeval {
        noeval := noeval - 1;
      }
      status := Done;
    }

    method ExpAssign() returns (status: Status, v: int)
      requires Within(expression, Now())
      modifies this
      ensures Ends(ParseAssignment(old(expression), old(Now())), old(expression), old(stack), status, v)
      decreases MAX_EXPR_RECURSION_LEVEL - |stack|, Left(expression, Now()), 2 + 2 * (16 - 1)
    {
      hide Parse;
      hide ReadTok;
      hide BinaryValue;
      hide Bind;
      hide IsAssignOperator;
      v :- ParseAt(2);
      if curtok == Ch('=') || curtok == OpAssign {
        if lasttok != Str {
          return Failed(Syntax), 0;
        }
        var special, op, lvalue, lhs := curtok == OpAssign, assigntok, v, tokstr;
        :- ReadToken();
        v :- ParseAt(1);
        if special {
          if IsDivision(op) && v == 0 && noeval == 0 {
            return Failed(DivisionByZero), 0;
          }
          if !IsAssignOperator(op) {
            return Failed(Syntax), 0;
          }
          v := BinaryValue(op, lvalue, v);
        }
        BindTo(lhs, v);
      }
      status := Done;
    }

    /** expr_bind_variable, while evaluation is on, and the end of an assignment. */
    method BindTo(lhs: string, v: int)
      modifies this`vars, this`tokstr
      ensures Now() == Bind(old(Now()), lhs, v).(tokstr := "")
    {
      if noeval == 0 {
        vars := vars[lhs := IntToString(v)];
      }
      tokstr := "";
    }

    method ExpCond() returns (status: Status, v: int)
      requires Within(expression, Now())
      modifies this
      ensures Ends(ParseConditional(old(expression), old(Now())), old(expression), old(stack), status, v)
      decreases MAX_EXPR_RECURSION_LEVEL - |stack|, Left(expression, Now()), 2 + 2 * (16 - 2)
    {
      hide Parse;
      hide ReadTok;
      hide BranchesOf;
      hide ParseConditional;
      hide Branch;
      ConditionComes(expression, Now());
      v :- ParseAt(3);
      if curtok == Ch('?') {
        v :- Branches(v);
      }
      status := Done;
    }

    /** Both branches of expcond, behind the question mark. */
    method Branches(cval: int) returns (status: Status, v: int)
      requires Within(expression, Now()) && curtok == Ch('?')
      modifies this
      ensures Ends(BranchesOf(old(expression), old(Now()), cval), old(expression), old(stack), status, v)
      decreases MAX_EXPR_RECURSION_LEVEL - |stack|, |expression| - tp, 50
    {
      hide Parse;
      hide ReadTok;
      hide Branch;
      v := 0;
      :- ReadToken();
      if curtok == End || curtok == Ch(':') {
        return Failed(Syntax), 0;
      }
      var val1 :- BranchSide(0, cval == 0);
      if curtok != Ch(':') {
        return Failed(Syntax), 0;
      }
      :- ReadToken();
      if curtok == End {
        return Failed(Syntax), 0;
      }
      var val2 :- BranchSide(2, cval != 0);
      v := if cval != 0 then val1 else val2;
      lasttok := Cond;
      status := Done;
    }

    method Exp1() returns (status: Status, v: int)
      requires Within(expression, Now())
      modifies this
      ensures Ends(ParseUnary(old(expression), old(Now())), old(expression), old(stack), status, v)
      decreases MAX_EXPR_RECURSION_LEVEL - |stack|, Left(expression, Now()), 2 + 2 * (16 - 14)
    {
      hide Parse;
      hide ReadTok;
      v := 0;
      if IsUnary(curtok) {
        var op := curtok;
        :- ReadToken();
        v :- ParseAt(14);
        v := UnaryValue(op, v);
        lasttok := Num;
        status := Done;
      } else {
        status, v := ParseAt(15);
      }
    }

    method Exp0() returns (status: Status, v: int)
      requires Within(expression, Now())
      modifies this
      ensures Ends(ParsePrimary(old(expression), old(Now())), old(expression), old(stack), status, v)
      decreases MAX_EXPR_RECURSION_LEVEL - |stack|, Left(expression, Now()), 2 + 2 * (16 - 15)
    {
      hide Parse;
      hide ReadTok;
      hide ParseName;
      hide ParsePrefixStep;
      v := 0;
      if curtok == PreInc || curtok == PreDec {
        status, v := PrefixStep();
      } else if curtok == Ch('(') {
        :- ReadToken();
        v :- ParseAt(0);
        if curtok != Ch(')') {
          return Failed(Syntax), 0;
        }
        :- ReadToken();
        status := Done;
      } else if curtok == Num {
        v := tokval;
        :- ReadToken();
        status := Done;
      } else if curtok == Str {
        status, v := Name();
      } else {
        return Failed(Syntax), 0;
      }
    }

    /** The part of exp0 for `++name` and `--name`. */
    method PrefixStep() returns (status: Status, v: int)
      requires Within(expression, Now()) && (curtok == PreInc || curtok == PreDec)
      modifies this
      ensures Ends(ParsePrefixStep(old(expression), old(Now()), old(curtok) == PreInc), old(expression), old(stack), status, v)
      decreases MAX_EXPR_RECURSION_LEVEL - |stack|, Left(expression, Now()), 2
    {
      hide ReadTok;
      v := 0;
      var stok := curtok;
      lasttok := stok;
      :- ReadToken();
      if curtok != Str {
        return Failed(Syntax), 0;
      }
      v := Stepped(stok == PreInc, tokval);
      if noeval == 0 {
        vars := vars[tokstr := IntToString(v)];
      }
      curtok := Num;
      :- ReadToken();
      status := Done;
    }

    /** The part of exp0 for a name: peeks for `++` and `--` with evaluation off. */
    method Name() returns (status: Status, v: int)
      requires Within(expression, Now()) && curtok == Str
      modifies this
      ensures Ends(ParseName(old(expression), old(Now())), old(expression), old(stack), status, v)
      decreases MAX_EXPR_RECURSION_LEVEL - |stack|, Left(expression, Now()), 2
    {
      hide ReadTok;
      hide Stepped;
      hide ParseName;
      hide AfterStep;
      hide IntToString;
      ghost var st := Now();
      v := tokval;
      var saved := SaveTok();
      tokstr, noeval := "", 1;
      NameCases(expression, st, ReadTok(expression, Now()));
      :- ReadToken();
      AfterPeek(saved, v, st);
      :- ReadToken();
      status := Done;
    }

    /** Behind the peek `++` or `--` is carried out, or else the token before it is put back. */
    method AfterPeek(saved: Context, v: int, ghost st: State)
      requires saved == Context(expression, st.tp, st.curtok, st.lasttok, st.tokval, st.tokstr, st.noeval) && v == st.tokval
      requires vars == st.vars && |stack| == st.depth
      modifies this`tp, this`curtok, this`lasttok, this`tokval, this`tokstr, this`noeval, this`vars
      ensures Now() == if old(curtok) == PostInc || old(curtok) == PostDec then AfterStep(st, old(Now()))
                       else st.(assigntok := old(assigntok))
    {
      hide Stepped;
      hide IntToString;
      var stok := curtok;
      if stok == PostInc || stok == PostDec {
        tokstr, noeval, lasttok := saved.tokstr, saved.noeval, Str;
        var v2 := Stepped(stok == PostInc, v);
        if noeval == 0 {
          vars := vars[tokstr := IntToString(v2)];
        }
        curtok := Num;
      } else {
        RestoreTok(saved);
      }
    }

    /** evalexp: the value and whether the expression was valid; the context stack is empty again either way. */
    method EvalExpression(text: string) returns (valid: bool, v: int)
      requires stack == []
      modifies this
      ensures stack == [] && noeval == 0
      ensures match SubexprFromTop(text, old(Now()))
              case Ok(st, w) => valid && v == w && vars == st.vars
              case Err(_, vs) => !valid && v == 0 && vars == vs
    {
      noeval := 0;
      var status, w := Evaluate(text);
      if status.Failed? {
        expression, tokstr, stack, noeval := "", "", [], 0;
        return false, 0;
      }
      return true, w;
    }
  }

  // ----- the functions of ExprModel, one step unfolded -----

  /** The evaluation of a text up to its end. */
  function InContext(text: string, entry: State): Result
    requires Within(text, entry)
  {
    var first := ReadTok(text, entry);
    if first.Err? then first
    else
      var last := Parse(0, text, first.st);
      if last.Ok? && last.st.curtok != End then Err(Syntax, last.st.vars) else last
  }

  /** The end of reading a name, with the token behind it peeked at. */
  function NameTaken(st: State, e: nat, peektok: Token): Result
    requires st.depth <= MAX_EXPR_RECURSION_LEVEL
  {
    if st.lasttok == PreInc || st.lasttok == PreDec || peektok != Ch('=') then
      var r := StrEval(st.tokstr, st);
      if r.Err? then r else Ok(r.st.(tp := e, tokval := r.v, lasttok := st.curtok, curtok := Str), 0)
    else Ok(st.(tp := e, tokval := 0, lasttok := st.curtok, curtok := Str), 0)
  }

  lemma NameIsTaken(text: string, i: nat, st: State)
    requires Within(text, st) && st.tp <= i < |text| && NameStart(text[i])
    ensures var e := NameEnd(text, i);
            var peek := ReadTok(text, st.(tp := e, tokstr := "", noeval := 1, curtok := Str));
            ReadName(text, i, st) == if peek.Err? then peek
                                     else NameTaken(st.(tokstr := text[i..e], assigntok := peek.st.assigntok), e, peek.st.curtok)
  {
    hide ReadTok;
    hide StrEval;
    hide NameEnd;
  }

  /** What expcond does behind the question mark. */
  function BranchesOf(text: string, s: State, c: int): Result
    requires Within(text, s) && s.curtok == Ch('?')
  {
    var r1 := ReadTok(text, s);
    if r1.Err? then r1
    else if r1.st.curtok == End || r1.st.curtok == Ch(':') then Err(Syntax, r1.st.vars)
    else
      var r2 := Branch(0, text, r1.st, c == 0);
      if r2.Err? then r2
      else if r2.st.curtok != Ch(':') then Err(Syntax, r2.st.vars)
      else
        var r3 := ReadTok(text, r2.st);
        if r3.Err? then r3
        else if r3.st.curtok == End then Err(Syntax, r3.st.vars)
        else
          var r4 := Branch(2, text, r3.st, c != 0);
          if r4.Err? then r4 else Ok(r4.st.(lasttok := Cond), if c != 0 then r2.v else r4.v)
  }

  lemma ConditionComes(text: string, st: State)
    requires Within(text, st)
    ensures var r := Parse(3, text, st);
            ParseConditional(text, st) == if r.Err? || r.st.curtok != Ch('?') then r else BranchesOf(text, r.st, r.v)
  {
    hide ReadTok;
    hide Parse;
    hide Branch;
  }

  lemma SubexprInContext(text: string, st: State, entry: State)
    requires st.depth < MAX_EXPR_RECURSION_LEVEL && SkipBlanks(text, 0) < |text|
    requires entry == st.(tp := 0, curtok := End, lasttok := End, tokval := 0, tokstr := "", depth := st.depth + 1)
    ensures var r := InContext(text, entry);
            Subexpr(text, st) == if r.Err? then r else Ok(st.(assigntok := r.st.assigntok, vars := r.st.vars), r.v)
  {
    hide Keeps;
    hide ReadTok;
    hide Parse;
    hide SkipBlanks;
  }

  lemma SubexprEnds(text: string, st: State)
    requires st.depth <= MAX_EXPR_RECURSION_LEVEL
    ensures SkipBlanks(text, 0) == |text| ==> Subexpr(text, st) == Ok(st, 0)
    ensures SkipBlanks(text, 0) < |text| && st.depth == MAX_EXPR_RECURSION_LEVEL ==> Subexpr(text, st) == Err(TooDeep, st.vars)
  {
    hide ReadTok;
    hide Parse;
    hide SkipBlanks;
  }

  lemma NameCases(text: string, st: State, peek: Result)
    requires Within(text, st) && st.curtok == Str && ReadTok(text, st.(tokstr := "", noeval := 1)) == peek
    ensures peek.Err? ==> ParseName(text, st) == peek
    ensures peek.Ok? ==>
              var stepped := peek.st.curtok == PostInc || peek.st.curtok == PostDec;
              var s1 := if stepped then AfterStep(st, peek.st) else st.(assigntok := peek.st.assigntok);
              var r := ReadTok(text, s1);
              Within(text, s1) && s1.tp >= st.tp && s1.depth == st.depth && ParseName(text, st) == if r.Err? then r else Ok(r.st, st.tokval)
  {
    hide ReadTok;
    hide Stepped;
    hide IntToString;
  }

  /** The state after `name++` or `name--` has been carried out, before the next token is read. */
  function AfterStep(st: State, peek: State): State {
    Bind(peek.(tokstr := st.tokstr, noeval := st.noeval, lasttok := Str),
         st.tokstr, Stepped(peek.curtok == PostInc, st.tokval)).(curtok := Num)
  }

  function SubexprFromTop(text: string, st: State): Result
    requires st.depth == 0
  {
    Subexpr(text, st.(noeval := 0))
  }

  lemma OperatorIsNoEnd(level: nat, op: Token)
    requires LevelOf(op) == level
    ensures op != End
  {
  }

  lemma ApplyCases(op: Token, v: int, w: int, st: State)
    ensures Apply(op, v, w, st) ==
              if IsDivision(op) && w == 0 && st.noeval == 0 then Err(DivisionByZero, st.vars)
              else if op == Power && w < 0 then Err(NegativeExponent, st.vars)
              else Ok(st.(lasttok := LastAfter(op, v, w, st.lasttok)), BinaryValue(op, v, w))
  {
    hide BinaryValue;
    hide LastAfter;
  }
}
