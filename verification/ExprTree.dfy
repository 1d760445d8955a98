/** Arithmetic expression trees: how they are printed, and what they mean. */
module ExprTree {
  import opened Text
  import opened Int64
  import opened ExprNumbers
  import opened ExprModel

  datatype Expr =
    | Number(n: nat)
    | Var(name: string)
    | Step(name: string, prefix: bool, up: bool)
    | Unary(op: char, e: Expr)
    | Binary(bop: Token, l: Expr, r: Expr)
    | Conditional(c: Expr, a: Expr, b: Expr)
    | Assign(name: string, e: Expr)
    | AssignOp(bop: Token, name: string, e: Expr)

  predicate IsName(s: string) {
    s != "" && NameStart(s[0]) && forall i :: 0 <= i < |s| ==> NameChar(s[i])
  }

  /** The binary operators of the grammar, the comma included. */
  predicate IsBinary(op: Token) {
    LevelOf(op) >= 0
  }

  /** Names are shell names, literals fit, operators are operators. */
  predicate WellFormed(e: Expr) {
    match e
    case Number(n) => n <= INTMAX_MAX
    case Var(name) => IsName(name)
    case Step(name, _, _) => IsName(name)
    case Unary(op, e1) => op in "!~-+" && WellFormed(e1)
    case Binary(op, l, r) => IsBinary(op) && WellFormed(l) && WellFormed(r)
    case Conditional(c, a, b) => WellFormed(c) && WellFormed(a) && WellFormed(b)
    case Assign(name, e1) => IsName(name) && WellFormed(e1)
    case AssignOp(op, name, e1) => IsAssignOperator(op) && IsName(name) && WellFormed(e1)
  }

  // ----- printing -----

  /** The row of the precedence table an expression belongs to: the grammar level that builds it. */
  function Rank(e: Expr): (level: nat)
    ensures level <= 15
  {
    match e
    case Number(_) => 15
    case Var(_) => 15
    case Step(_, _, _) => 15
    case Unary(_, _) => 14
    case Binary(op, _, _) => if IsBinary(op) then LevelOf(op) else 15
    case Conditional(_, _, _) => 2
    case Assign(_, _) => 1
    case AssignOp(_, _, _) => 1
  }

  /** Operands of a binary operator: both groups are left-associative except `**`. */
  function LeftLevel(op: Token): (level: nat)
    requires IsBinary(op)
    ensures level <= 15
  {
    if op == Power then 14 else LevelOf(op)
  }

  function RightLevel(op: Token): (level: nat)
    requires IsBinary(op)
    ensures level <= 15
  {
    if op == Power then 13 else LevelOf(op) + 1
  }

  function Spell(op: Token): string {
    match op
    case EqEq => "=="
    case Neq => "!="
    case Leq => "<="
    case Geq => ">="
    case LAnd => "&&"
    case LOr => "||"
    case Lsh => "<<"
    case Rsh => ">>"
    case Power => "**"
    case Ch(c) => [c]
    case _ => ""
  }

  /** The tokens of e where the grammar expects the given level; parentheses only when e binds less tightly. */
  function Tokens(e: Expr, level: nat): seq<string>
    requires WellFormed(e)
    decreases e, 1
  {
    if Rank(e) < level then ["("] + BareTokens(e) + [")"] else BareTokens(e)
  }

  function BareTokens(e: Expr): seq<string>
    requires WellFormed(e)
    decreases e, 0
  {
    match e
    case Number(n) => [NatToString(n)]
    case Var(name) => [name]
    case Step(name, prefix, up) =>
      var op := if up then "++" else "--";
      if prefix then [op, name] else [name, op]
    case Unary(op, e1) => [[op]] + Tokens(e1, 14)
    case Binary(op, l, r) => Tokens(l, LeftLevel(op)) + ([Spell(op)] + Tokens(r, RightLevel(op)))
    case Conditional(c, a, b) => Tokens(c, 3) + (["?"] + (Tokens(a, 0) + ([":"] + Tokens(b, 2))))
    case Assign(name, e1) => [name] + (["="] + Tokens(e1, 1))
    case AssignOp(op, name, e1) => [name] + ([Spell(op) + "="] + Tokens(e1, 1))
  }

  /** Every token with a blank before it. */
  function Render(tokens: seq<string>): string {
    if tokens == [] then "" else " " + tokens[0] + Render(tokens[1..])
  }

  function Print(e: Expr): string
    requires WellFormed(e)
  {
    Render(Tokens(e, 0))
  }

  // ----- meaning -----

  /** A store of integers; unset variables are 0. */
  type Store = map<string, int>

  ghost predicate Ints(store: Store) {
    forall x :: x in store ==> InRange(store[x])
  }

  function Get(store: Store, x: string): int {
    if x in store then store[x] else 0
  }

  datatype Outcome = Val(v: int, store: Store) | Fail(error: Error, store: Store)

  /** The value of an operator on two values, as the operator table at the head of expr.c gives it. */
  function Meaning(op: Token, a: int, b: int): int {
    if op == Ch('/') && b != 0 then Wrap(TruncDiv(a, b))
    else if op == Ch('%') && b != 0 then Wrap(TruncMod(a, b))
    else BinaryValue(op, a, b)
  }

  /** Direct semantics: operands from left to right, skipped operands not at all, assignment last. */
  function Eval(e: Expr, store: Store): Outcome
    requires WellFormed(e)
  {
    match e
    case Number(n) => Val(n, store)
    case Var(x) => Val(Get(store, x), store)
    case Step(x, prefix, up) =>
      var was := Get(store, x);
      var now := Stepped(up, was);
      Val(if prefix then now else was, store[x := now])
    case Unary(op, e1) =>
      (match Eval(e1, store)
       case Fail(error, s) => Fail(error, s)
       case Val(v, s) => Val(UnaryValue(Ch(op), v), s))
    case Binary(op, l, r) =>
      (match Eval(l, store)
       case Fail(error, s) => Fail(error, s)
       case Val(a, s) =>
         if op == LAnd && a == 0 then Val(0, s)
         else if op == LOr && a != 0 then Val(1, s)
         else
           match Eval(r, s)
           case Fail(error, s2) => Fail(error, s2)
           case Val(b, s2) => Operate(op, a, b, s2))
    case Conditional(c, a, b) =>
      (match Eval(c, store)
       case Fail(error, s) => Fail(error, s)
       case Val(v, s) => if v != 0 then Eval(a, s) else Eval(b, s))
    case Assign(x, e1) =>
      (match Eval(e1, store)
       case Fail(error, s) => Fail(error, s)
       case Val(v, s) => Val(v, s[x := v]))
    case AssignOp(op, x, e1) =>
      var was := Get(store, x);
      (match Eval(e1, store)
       case Fail(error, s) => Fail(error, s)
       case Val(v, s) =>
         match Operate(op, was, v, s)
         case Fail(error, s2) => Fail(error, s2)
         case Val(w, s2) => Val(w, s2[x := w]))
  }

  function Operate(op: Token, a: int, b: int, store: Store): Outcome {
    if IsDivision(op) && b == 0 then Fail(DivisionByZero, store)
    else if op == Power && b < 0 then Fail(NegativeExponent, store)
    else Val(Meaning(op, a, b), store)
  }

  // ----- what the evaluator does, skipped operands included -----

  /** What reading a name yields: its value, or 0 while evaluation is off. */
  function Seen(x: string, off: bool, store: Store): int {
    if off then 0 else Get(store, x)
  }

  /** The value that goes with the first token of e when that token is a name or a number, else 0. */
  function FirstValue(e: Expr, level: nat, off: bool, store: Store): int
    requires WellFormed(e)
    decreases e
  {
    if Rank(e) < level then 0
    else
      match e
      case Number(n) => n
      case Var(x) => Seen(x, off, store)
      case Step(x, prefix, _) => if prefix then 0 else Seen(x, off, store)
      case Unary(_, _) => 0
      case Binary(op, l, _) => FirstValue(l, LeftLevel(op), off, store)
      case Conditional(c, _, _) => FirstValue(c, 3, off, store)
      case Assign(_, _) => 0
      case AssignOp(_, x, _) => Seen(x, off, store)
  }

  function Store1(store: Store, off: bool, x: string, v: int): Store {
    if off then store else store[x := v]
  }

  /** Operators see 1 for a zero divisor while evaluation is off; a negative exponent fails even then. */
  function OperateOff(op: Token, a: int, b: int, off: bool, store: Store): Outcome {
    if IsDivision(op) && b == 0 && !off then Fail(DivisionByZero, store)
    else if op == Power && b < 0 then Fail(NegativeExponent, store)
    else Val(BinaryValue(op, a, b), store)
  }

  /** The evaluator on a tree: every operand is gone through, with evaluation off when it is skipped; first is
      the value already read with the first token. */
  function Run(e: Expr, level: nat, off: bool, first: int, store: Store): Outcome
    requires WellFormed(e)
    decreases e, 1
  {
    RunBare(e, off, if Rank(e) < level then FirstValue(e, 0, off, store) else first, store)
  }

  function RunBare(e: Expr, off: bool, first: int, store: Store): Outcome
    requires WellFormed(e)
    decreases e, 0
  {
    match e
    case Number(_) => Val(first, store)
    case Var(_) => Val(first, store)
    case Step(x, prefix, up) =>
      var was := if prefix then Seen(x, off, store) else first;
      var now := Stepped(up, was);
      Val(if prefix then now else was, Store1(store, off, x, now))
    case Unary(op, e1) =>
      (match Run(e1, 14, off, FirstValue(e1, 14, off, store), store)
       case Fail(error, s) => Fail(error, s)
       case Val(v, s) => Val(UnaryValue(Ch(op), v), s))
    case Binary(op, l, r) =>
      (match Run(l, LeftLevel(op), off, first, store)
       case Fail(error, s) => Fail(error, s)
       case Val(a, s) =>
         var off2 := off || Skips(op, a);
         match Run(r, RightLevel(op), off2, FirstValue(r, RightLevel(op), off2, s), s)
         case Fail(error, s2) => Fail(error, s2)
         case Val(b, s2) => OperateOff(op, a, b, off, s2))
    case Conditional(c, a, b) =>
      (match Run(c, 3, off, first, store)
       case Fail(error, s) => Fail(error, s)
       case Val(v, s) =>
         match Run(a, 0, off || v == 0, FirstValue(a, 0, off, s), s)
         case Fail(error, s2) => Fail(error, s2)
         case Val(x, s2) =>
           match Run(b, 2, off || v != 0, FirstValue(b, 2, off, s2), s2)
           case Fail(error, s3) => Fail(error, s3)
           case Val(y, s3) => Val(if v != 0 then x else y, s3))
    case Assign(x, e1) =>
      (match Run(e1, 1, off, FirstValue(e1, 1, off, store), store)
       case Fail(error, s) => Fail(error, s)
       case Val(v, s) => Val(v, Store1(s, off, x, v)))
    case AssignOp(op, x, e1) =>
      (match Run(e1, 1, off, FirstValue(e1, 1, off, store), store)
       case Fail(error, s) => Fail(error, s)
       case Val(v, s) =>
         match OperateOff(op, first, v, off, s)
         case Fail(error, s2) => Fail(error, s2)
         case Val(w, s2) => Val(w, Store1(s2, off, x, w)))
  }

  /** The left value that makes `||` or `&&` skip its right operand. */
  predicate Skips(op: Token, a: int) {
    (op == LOr && a != 0) || (op == LAnd && a == 0)
  }

  // ----- skipped operands -----

  /** With evaluation off nothing is assigned, and only a negative exponent can fail. */
  lemma {:induction false} OffIsInert(e: Expr, level: nat, first: int, store: Store)
    requires WellFormed(e)
    ensures Inert(store, Run(e, level, true, first, store))
    decreases e
  {
    match e {
      case Unary(_, e1) => OffIsInert(e1, 14, FirstValue(e1, 14, true, store), store);
      case Binary(op, l, r) =>
        OffIsInert(l, LeftLevel(op), if Rank(e) < level then FirstValue(e, 0, true, store) else first, store);
        OffIsInert(r, RightLevel(op), FirstValue(r, RightLevel(op), true, store), store);
      case Conditional(c, a, b) =>
        OffIsInert(c, 3, if Rank(e) < level then FirstValue(e, 0, true, store) else first, store);
        OffIsInert(a, 0, FirstValue(a, 0, true, store), store);
        OffIsInert(b, 2, FirstValue(b, 2, true, store), store);
      case Assign(_, e1) => OffIsInert(e1, 1, FirstValue(e1, 1, true, store), store);
      case AssignOp(_, _, e1) => OffIsInert(e1, 1, FirstValue(e1, 1, true, store), store);
      case _ =>
    }
  }

  /** Along the evaluation of e, every operand that is skipped gets by without a negative exponent when its
      variables read as 0 (the first token of a `?:` branch excepted, which is read before evaluation is off). */
  predicate Harmless(e: Expr, store: Store)
    requires WellFormed(e)
  {
    match e
    case Number(_) => true
    case Var(_) => true
    case Step(_, _, _) => true
    case Unary(_, e1) => Harmless(e1, store)
    case Binary(op, l, r) =>
      Harmless(l, store) &&
      (match Eval(l, store)
       case Fail(_, _) => true
       case Val(a, s) =>
         if Skips(op, a) then Run(r, RightLevel(op), true, FirstValue(r, RightLevel(op), true, s), s).Val?
         else Harmless(r, s))
    case Conditional(c, a, b) =>
      Harmless(c, store) &&
      (match Eval(c, store)
       case Fail(_, _) => true
       case Val(v, s) =>
         if v == 0 then Run(a, 0, true, FirstValue(a, 0, false, s), s).Val? && Harmless(b, s)
         else
           && Harmless(a, s)
           && (Eval(a, s).Val? ==>
                 var s2 := Eval(a, s).store; Run(b, 2, true, FirstValue(b, 2, false, s2), s2).Val?))
    case Assign(_, e1) => Harmless(e1, store)
    case AssignOp(_, _, e1) => Harmless(e1, store)
  }

  /** The store of the direct semantics when it comes to the first skipped operand that does not get by. */
  function StoreAtHarm(e: Expr, store: Store): Store
    requires WellFormed(e)
  {
    match e
    case Number(_) => store
    case Var(_) => store
    case Step(_, _, _) => store
    case Unary(_, e1) => StoreAtHarm(e1, store)
    case Binary(op, l, r) =>
      if !Harmless(l, store) then StoreAtHarm(l, store)
      else
        (match Eval(l, store)
         case Fail(_, s) => s
         case Val(a, s) => if Skips(op, a) then s else StoreAtHarm(r, s))
    case Conditional(c, a, b) =>
      if !Harmless(c, store) then StoreAtHarm(c, store)
      else
        (match Eval(c, store)
         case Fail(_, s) => s
         case Val(v, s) =>
           if v == 0 then if Run(a, 0, true, FirstValue(a, 0, false, s), s).Fail? then s else StoreAtHarm(b, s)
           else if !Harmless(a, s) then StoreAtHarm(a, s)
           else Eval(a, s).store)
    case Assign(_, e1) => StoreAtHarm(e1, store)
    case AssignOp(_, _, e1) => StoreAtHarm(e1, store)
  }

  lemma OperateAgrees(op: Token, a: int, b: int, store: Store)
    ensures OperateOff(op, a, b, false, store) == Operate(op, a, b, store)
    ensures Skips(op, a) ==> OperateOff(op, a, b, false, store) == Val(if op == LOr then 1 else 0, store)
  {
    if op == Ch('/') && a == INTMAX_MIN && b == -1 {
      assert TruncDiv(a, b) == INTMAX_MAX + 1;
      assert Wrap(INTMAX_MAX + 1) == INTMAX_MIN;
    }
  }

  /** run is what the direct semantics gives e, or the failure of a skipped operand. */
  predicate Faithful(e: Expr, store: Store, run: Outcome)
    requires WellFormed(e)
  {
    run == if Harmless(e, store) then Eval(e, store) else Fail(NegativeExponent, StoreAtHarm(e, store))
  }

  /** run leaves the store as it is and fails at most for a negative exponent. */
  predicate Inert(store: Store, run: Outcome) {
    run.store == store && (run.Fail? ==> run.error == NegativeExponent)
  }

  /** The evaluator on a tree is the direct semantics, unless a skipped operand fails. */
  lemma {:induction false} RunIsEval(e: Expr, level: nat, store: Store)
    requires WellFormed(e)
    ensures Faithful(e, store, Run(e, level, false, FirstValue(e, level, false, store), store))
    decreases e, 2
  {
    BareRunIsEval(e, store);
    if Rank(e) >= level {
    }
  }

  lemma {:induction false} BareRunIsEval(e: Expr, store: Store)
    requires WellFormed(e)
    ensures Faithful(e, store, RunBare(e, false, FirstValue(e, 0, false, store), store))
    decreases e, 1
  {
    match e {
      case Unary(_, e1) =>
        RunIsEval(e1, 14, store);
      case Binary(op, l, r) =>
        BinaryRunIsEval(op, l, r, store);
      case Conditional(c, a, b) =>
        ConditionalRunIsEval(c, a, b, store);
      case Assign(_, e1) =>
        RunIsEval(e1, 1, store);
      case AssignOp(op, x, e1) =>
        RunIsEval(e1, 1, store);
        var r := Run(e1, 1, false, FirstValue(e1, 1, false, store), store);
        if r.Val? {
          OperateAgrees(op, Get(store, x), r.v, r.store);
        }
      case _ =>
    }
  }

  lemma FirstOfBinary(op: Token, l: Expr, r: Expr, store: Store)
    requires WellFormed(Binary(op, l, r))
    ensures FirstValue(Binary(op, l, r), 0, false, store) == FirstValue(l, LeftLevel(op), false, store)
  {
  }

  lemma FirstOfConditional(c: Expr, a: Expr, b: Expr, store: Store)
    requires WellFormed(Conditional(c, a, b))
    ensures FirstValue(Conditional(c, a, b), 0, false, store) == FirstValue(c, 3, false, store)
  {
  }

  lemma {:induction false} BinaryRunIsEval(op: Token, l: Expr, r: Expr, store: Store)
    requires WellFormed(Binary(op, l, r))
    ensures Faithful(Binary(op, l, r), store,
                     RunBare(Binary(op, l, r), false, FirstValue(Binary(op, l, r), 0, false, store), store))
    decreases Binary(op, l, r), 0
  {
    hide FirstValue;
    hide RunBare;
    hide Run;
    hide Faithful;
    FirstOfBinary(op, l, r, store);
    RunIsEval(l, LeftLevel(op), store);
    var rl := Run(l, LeftLevel(op), false, FirstValue(l, LeftLevel(op), false, store), store);
    if rl.Fail? {
      LeftFails(op, l, r, store, rl);
    } else if Skips(op, rl.v) {
      OffIsInert(r, RightLevel(op), FirstValue(r, RightLevel(op), true, rl.store), rl.store);
      RightSkipped(op, l, r, store, rl.v, rl.store);
    } else {
      RunIsEval(r, RightLevel(op), rl.store);
      RightRuns(op, l, r, store, rl.v, rl.store);
    }
  }

  lemma LeftFails(op: Token, l: Expr, r: Expr, store: Store, rl: Outcome)
    requires WellFormed(Binary(op, l, r)) && rl.Fail? && Faithful(l, store, rl)
    requires Run(l, LeftLevel(op), false, FirstValue(l, LeftLevel(op), false, store), store) == rl
    ensures Faithful(Binary(op, l, r), store,
                     RunBare(Binary(op, l, r), false, FirstValue(l, LeftLevel(op), false, store), store))
  {
    hide Run;
    hide FirstValue;
  }

  lemma RightSkipped(op: Token, l: Expr, r: Expr, store: Store, a: int, s: Store)
    requires WellFormed(Binary(op, l, r)) && Skips(op, a) && Faithful(l, store, Val(a, s))
    requires Run(l, LeftLevel(op), false, FirstValue(l, LeftLevel(op), false, store), store) == Val(a, s)
    requires Inert(s, Run(r, RightLevel(op), true, FirstValue(r, RightLevel(op), true, s), s))
    ensures Faithful(Binary(op, l, r), store,
                     RunBare(Binary(op, l, r), false, FirstValue(l, LeftLevel(op), false, store), store))
  {
    hide Run;
    hide FirstValue;
    hide OperateOff;
    hide BinaryValue;
    hide LevelOf;
    var rr := Run(r, RightLevel(op), true, FirstValue(r, RightLevel(op), true, s), s);
    if rr.Val? {
      OperateAgrees(op, a, rr.v, s);
    }
  }

  lemma RightRuns(op: Token, l: Expr, r: Expr, store: Store, a: int, s: Store)
    requires WellFormed(Binary(op, l, r)) && !Skips(op, a) && Faithful(l, store, Val(a, s))
    requires Run(l, LeftLevel(op), false, FirstValue(l, LeftLevel(op), false, store), store) == Val(a, s)
    requires Faithful(r, s, Run(r, RightLevel(op), false, FirstValue(r, RightLevel(op), false, s), s))
    ensures Faithful(Binary(op, l, r), store,
                     RunBare(Binary(op, l, r), false, FirstValue(l, LeftLevel(op), false, store), store))
  {
    hide Run;
    hide FirstValue;
    hide OperateOff;
    hide Operate;
    hide BinaryValue;
    hide LevelOf;
    var rr := Run(r, RightLevel(op), false, FirstValue(r, RightLevel(op), false, s), s);
    if rr.Val? {
      OperateAgrees(op, a, rr.v, rr.store);
    }
  }

  lemma {:induction false} ConditionalRunIsEval(c: Expr, a: Expr, b: Expr, store: Store)
    requires WellFormed(Conditional(c, a, b))
    ensures Faithful(Conditional(c, a, b), store,
                     RunBare(Conditional(c, a, b), false, FirstValue(Conditional(c, a, b), 0, false, store), store))
    decreases Conditional(c, a, b), 0
  {
    hide FirstValue;
    hide RunBare;
    hide Run;
    hide Faithful;
    FirstOfConditional(c, a, b, store);
    RunIsEval(c, 3, store);
    var rc := Run(c, 3, false, FirstValue(c, 3, false, store), store);
    if rc.Fail? {
      ConditionFails(c, a, b, store, rc);
    } else if rc.v == 0 {
      OffIsInert(a, 0, FirstValue(a, 0, false, rc.store), rc.store);
      RunIsEval(b, 2, rc.store);
      ElseRuns(c, a, b, store, rc.store);
    } else {
      RunIsEval(a, 0, rc.store);
      var ra := Run(a, 0, false, FirstValue(a, 0, false, rc.store), rc.store);
      OffIsInert(b, 2, FirstValue(b, 2, false, ra.store), ra.store);
      ThenRuns(c, a, b, store, rc.v, rc.store, ra);
    }
  }

  lemma ConditionFails(c: Expr, a: Expr, b: Expr, store: Store, rc: Outcome)
    requires WellFormed(Conditional(c, a, b)) && rc.Fail? && Faithful(c, store, rc)
    requires Run(c, 3, false, FirstValue(c, 3, false, store), store) == rc
    ensures Faithful(Conditional(c, a, b), store,
                     RunBare(Conditional(c, a, b), false, FirstValue(c, 3, false, store), store))
  {
    hide Run;
    hide FirstValue;
  }

  lemma ElseRuns(c: Expr, a: Expr, b: Expr, store: Store, s: Store)
    requires WellFormed(Conditional(c, a, b)) && Faithful(c, store, Val(0, s))
    requires Run(c, 3, false, FirstValue(c, 3, false, store), store) == Val(0, s)
    requires Inert(s, Run(a, 0, true, FirstValue(a, 0, false, s), s))
    requires Faithful(b, s, Run(b, 2, false, FirstValue(b, 2, false, s), s))
    ensures Faithful(Conditional(c, a, b), store,
                     RunBare(Conditional(c, a, b), false, FirstValue(c, 3, false, store), store))
  {
    hide Run;
    hide FirstValue;
  }

  lemma ThenRuns(c: Expr, a: Expr, b: Expr, store: Store, v: int, s: Store, ra: Outcome)
    requires WellFormed(Conditional(c, a, b)) && v != 0 && Faithful(c, store, Val(v, s))
    requires Run(c, 3, false, FirstValue(c, 3, false, store), store) == Val(v, s)
    requires Run(a, 0, false, FirstValue(a, 0, false, s), s) == ra && Faithful(a, s, ra)
    requires Inert(ra.store, Run(b, 2, true, FirstValue(b, 2, false, ra.store), ra.store))
    ensures Faithful(Conditional(c, a, b), store,
                     RunBare(Conditional(c, a, b), false, FirstValue(c, 3, false, store), store))
  {
    hide Run;
    hide FirstValue;
  }

  // ----- ranges -----

  lemma OperatorInRange(op: Token, a: int, b: int)
    requires InRange(b)
    ensures InRange(BinaryValue(op, a, b))
  {
  }

  lemma FirstInRange(e: Expr, level: nat, off: bool, store: Store)
    requires WellFormed(e) && Ints(store)
    ensures InRange(FirstValue(e, level, off, store))
  {
  }

  /** Values and stores stay within intmax_t. */
  ghost predicate Ranged(r: Outcome) {
    Ints(r.store) && (r.Val? ==> InRange(r.v))
  }

  lemma {:induction false} RunInRange(e: Expr, level: nat, off: bool, first: int, store: Store)
    requires WellFormed(e) && Ints(store) && InRange(first)
    ensures Ranged(Run(e, level, off, first, store))
    decreases e, 1
  {
    FirstInRange(e, 0, off, store);
    BareInRange(e, off, if Rank(e) < level then FirstValue(e, 0, off, store) else first, store);
  }

  lemma {:induction false} BareInRange(e: Expr, off: bool, first: int, store: Store)
    requires WellFormed(e) && Ints(store) && InRange(first)
    ensures Ranged(RunBare(e, off, first, store))
    decreases e, 0
  {
    hide BinaryValue;
    hide FirstValue;
    hide Run;
    match e {
      case Unary(op, e1) => SubRunInRange(e1, 14, off, store);
      case Binary(op, l, r) =>
        RunInRange(l, LeftLevel(op), off, first, store);
        var rl := Run(l, LeftLevel(op), off, first, store);
        if rl.Val? {
          var off2 := off || Skips(op, rl.v);
          SubRunInRange(r, RightLevel(op), off2, rl.store);
          var rr := Run(r, RightLevel(op), off2, FirstValue(r, RightLevel(op), off2, rl.store), rl.store);
          if rr.Val? {
            OperatorInRange(op, rl.v, rr.v);
          }
        }
      case Conditional(c, a, b) =>
        RunInRange(c, 3, off, first, store);
        var rc := Run(c, 3, off, first, store);
        if rc.Val? {
          FirstInRange(a, 0, off, rc.store);
          RunInRange(a, 0, off || rc.v == 0, FirstValue(a, 0, off, rc.store), rc.store);
          var ra := Run(a, 0, off || rc.v == 0, FirstValue(a, 0, off, rc.store), rc.store);
          FirstInRange(b, 2, off, ra.store);
          RunInRange(b, 2, off || rc.v != 0, FirstValue(b, 2, off, ra.store), ra.store);
        }
      case Assign(_, e1) => SubRunInRange(e1, 1, off, store);
      case AssignOp(op, _, e1) =>
        SubRunInRange(e1, 1, off, store);
        var r := Run(e1, 1, off, FirstValue(e1, 1, off, store), store);
        if r.Val? {
          OperatorInRange(op, first, r.v);
        }
      case _ =>
    }
  }

  lemma {:induction false} SubRunInRange(e: Expr, level: nat, off: bool, store: Store)
    requires WellFormed(e) && Ints(store)
    ensures Ranged(Run(e, level, off, FirstValue(e, level, off, store), store))
    decreases e, 2
  {
    FirstInRange(e, level, off, store);
    RunInRange(e, level, off, FirstValue(e, level, off, store), store);
  }
}
