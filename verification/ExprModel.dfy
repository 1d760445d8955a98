/** expr.c: the lexer and the recursive-descent evaluator, as functions of the evaluator's state. */
module ExprModel {
  import opened Text
  import opened Int64
  import opened ExprNumbers

  const MAX_EXPR_RECURSION_LEVEL: nat := 1024

  /** The tokens; Ch holds the single-character operators. */
  datatype Token =
    | End | EqEq | Neq | Leq | Geq | Str | Num | LAnd | LOr | Lsh | Rsh | OpAssign
    | Cond | Power | PreInc | PreDec | PostInc | PostDec | Ch(c: char)

  datatype Error = Syntax | DivisionByZero | NegativeExponent | BadNumeral | TooDeep

  type Vars = map<string, string>

  /** The file-level variables of the evaluator that decide its result, and the shell variables. */
  datatype State = State(
    tp: nat, curtok: Token, lasttok: Token, assigntok: Token,
    tokval: int, tokstr: string, noeval: nat, depth: nat, vars: Vars)

  /** A parsing function's value and new state, or an error and the variables at that moment. */
  datatype Result = Ok(st: State, v: int) | Err(error: Error, vars: Vars) {
    predicate IsFailure() { Err? }
    function PropagateFailure(): Result requires Err? { this }
    function Extract(): (State, int) requires Ok? { (st, v) }
  }

  // ----- the lexer -----

  predicate IsBlank(c: char) {
    c == ' ' || c == '\t' || c == '\n'
  }

  predicate NameStart(c: char) {
    IsAlpha(c) || c == '_'
  }

  predicate NameChar(c: char) {
    IsAlnum(c) || c == '_'
  }

  predicate NumeralChar(c: char) {
    IsAlnum(c) || c == '#' || c == '@' || c == '_'
  }

  function SkipBlanks(text: string, i: nat): (r: nat)
    requires i <= |text|
    ensures i <= r <= |text|
    ensures r < |text| ==> !IsBlank(text[r])
    decreases |text| - i
  {
    if i < |text| && IsBlank(text[i]) then SkipBlanks(text, i + 1) else i
  }

  function NameEnd(text: string, i: nat): (r: nat)
    requires i <= |text|
    ensures i <= r <= |text|
    ensures i < |text| && NameChar(text[i]) ==> i < r
    decreases |text| - i
  {
    if i < |text| && NameChar(text[i]) then NameEnd(text, i + 1) else i
  }

  function NumeralEnd(text: string, i: nat): (r: nat)
    requires i <= |text|
    ensures i <= r <= |text|
    ensures i < |text| && NumeralChar(text[i]) ==> i < r
    decreases |text| - i
  {
    if i < |text| && NumeralChar(text[i]) then NumeralEnd(text, i + 1) else i
  }

  predicate IsArithOp(c: char) {
    c in "=><+-*/%!()&|^~?:,"
  }

  /** An operator token: how many characters it has, and the operator of an assignment `op=`. */
  datatype Operator = Operator(tok: Token, len: nat, assign: Token) | BadOperator

  /** The operator that starts with c, given the next two characters and whether a name follows `++` or `--`. */
  function OperatorAt(c: char, c1: char, c2: char, nameFollows: bool, curtok: Token): (op: Operator)
    ensures op.Operator? ==> 1 <= op.len <= 3 && op.tok != End
    ensures op.Operator? ==> (op.len >= 2 ==> c1 in "=<>&|*-+") && (op.len == 3 ==> c2 == '=')
  {
    if c == '=' && c1 == '=' then Operator(EqEq, 2, End)
    else if c == '!' && c1 == '=' then Operator(Neq, 2, End)
    else if c == '>' && c1 == '=' then Operator(Geq, 2, End)
    else if c == '<' && c1 == '=' then Operator(Leq, 2, End)
    else if c == '<' && c1 == '<' then
      if c2 == '=' then Operator(OpAssign, 3, Lsh) else Operator(Lsh, 2, End)
    else if c == '>' && c1 == '>' then
      if c2 == '=' then Operator(OpAssign, 3, Rsh) else Operator(Rsh, 2, End)
    else if c == '&' && c1 == '&' then Operator(LAnd, 2, End)
    else if c == '|' && c1 == '|' then Operator(LOr, 2, End)
    else if c == '*' && c1 == '*' then Operator(Power, 2, End)
    else if (c == '-' || c == '+') && c1 == c && curtok == Str then
      Operator(if c == '-' then PostDec else PostInc, 2, End)
    else if (c == '-' || c == '+') && c1 == c then
      if nameFollows then Operator(if c == '-' then PreDec else PreInc, 2, End) else Operator(Ch(c), 1, End)
    else if c1 == '=' && c in "*/%+-&^|" then Operator(OpAssign, 2, Ch(c))
    else if !IsArithOp(c) then BadOperator
    else Operator(Ch(c), 1, End)
  }

  predicate NameFollows(text: string, i: nat) {
    i <= |text| && var x := SkipBlanks(text, i); x < |text| && NameStart(text[x])
  }

  /** Reading an operator at index i. */
  function ReadOperator(text: string, i: nat, st: State): (r: Result)
    requires i < |text|
    ensures r.Ok? ==> r.st == st.(tp := r.st.tp, curtok := r.st.curtok, lasttok := r.st.lasttok, assigntok := r.st.assigntok)
    ensures r.Ok? ==> i < r.st.tp <= |text| && r.st.curtok != End
    ensures r.Err? ==> r.vars == st.vars
  {
    match OperatorAt(text[i], At(text, i + 1), At(text, i + 2), NameFollows(text, i + 2), st.curtok)
    case BadOperator => Err(Syntax, st.vars)
    case Operator(tok, len, assign) =>
      Ok(st.(tp := i + len, lasttok := st.curtok, curtok := tok,
             assigntok := if tok == OpAssign then assign else st.assigntok), 0)
  }

  // ----- the operators -----

  /** The grammar level whose loop consumes the token; -1 for tokens no loop consumes. */
  function LevelOf(tok: Token): int {
    match tok
    case LOr => 3
    case LAnd => 4
    case EqEq => 8
    case Neq => 8
    case Leq => 9
    case Geq => 9
    case Lsh => 10
    case Rsh => 10
    case Power => 13
    case Ch(c) =>
      if c == ',' then 0
      else if c == '|' then 5 else if c == '^' then 6 else if c == '&' then 7
      else if c == '<' || c == '>' then 9
      else if c == '+' || c == '-' then 11
      else if c == '*' || c == '/' || c == '%' then 12
      else -1
    case _ => -1
  }

  predicate IsDivision(op: Token) {
    op == Ch('/') || op == Ch('%')
  }

  function Truth(b: bool): int {
    if b then 1 else 0
  }

  function Bits64(op: BitOp, a: int, b: int): int {
    Wrap(Bitwise(op, 64, a % TWO_TO_64, b % TWO_TO_64))
  }

  /** imaxdiv, with the two cases in which the machine division would trap taken apart as exp2 does. */
  function Quotient(a: int, b: int): int
    requires b != 0
  {
    if a == INTMAX_MIN && b == -1 then a else TruncDiv(a, b)
  }

  function Remainder(a: int, b: int): int
    requires b != 0
  {
    if a == INTMAX_MIN && b == -1 then 0 else TruncMod(a, b)
  }

  /** Shift counts are taken modulo 64. */
  function ShiftCount(b: int): nat {
    b % 64
  }

  /** The value of a binary operator; a zero divisor has been replaced by 1, a negative exponent refused. */
  function BinaryValue(op: Token, a: int, b: int): int {
    match op
    case LOr => Truth(a != 0 || b != 0)
    case LAnd => Truth(a != 0 && b != 0)
    case EqEq => Truth(a == b)
    case Neq => Truth(a != b)
    case Leq => Truth(a <= b)
    case Geq => Truth(a >= b)
    case Lsh => Wrap(a * PowerOfTwo(ShiftCount(b)))
    case Rsh => Wrap(a / PowerOfTwo(ShiftCount(b)))
    case Power => if b < 0 then 0 else Wrap(Pow(a, b))
    case Ch(c) =>
      if c == '|' then Bits64(Or, a, b)
      else if c == '^' then Bits64(Xor, a, b)
      else if c == '&' then Bits64(And, a, b)
      else if c == '<' then Truth(a < b)
      else if c == '>' then Truth(a > b)
      else if c == '+' then Wrap(a + b)
      else if c == '-' then Wrap(a - b)
      else if c == '*' then Wrap(a * b)
      else if c == '/' then Wrap(Quotient(a, if b == 0 then 1 else b))
      else if c == '%' then Wrap(Remainder(a, if b == 0 then 1 else b))
      else b
    case _ => b
  }

  /** What the loop of an operator leaves in lasttok. */
  function LastAfter(op: Token, a: int, b: int, last: Token): Token {
    if op == LOr || op == LAnd then op
    else if op == Ch(',') || (op == Ch('%') && a == INTMAX_MIN && b == -1) then last
    else Num
  }

  predicate IsAssignOperator(op: Token) {
    op in {Lsh, Rsh} || (op.Ch? && op.c in "*/%+-&^|")
  }

  predicate IsUnary(tok: Token) {
    tok.Ch? && tok.c in "!~-+"
  }

  function UnaryValue(op: Token, a: int): int {
    if op == Ch('!') then Truth(a == 0)
    else if op == Ch('~') then Wrap(-a - 1)
    else if op == Ch('-') then Wrap(-a)
    else a
  }

  function Stepped(up: bool, a: int): int {
    Wrap(if up then a + 1 else a - 1)
  }

  // ----- the evaluator -----

  /** Characters not yet read, plus one while a token is waiting. */
  function Left(text: string, st: State): nat
    requires st.tp <= |text|
  {
    |text| - st.tp + if st.curtok == End then 0 else 1
  }

  /** The recursion limit is respected and the position lies in the text. */
  predicate Within(text: string, st: State) {
    st.tp <= |text| && st.depth <= MAX_EXPR_RECURSION_LEVEL
  }

  /** The end of one turn of a binary loop: the value of the operator, or the error it raises. */
  function Apply(op: Token, v: int, w: int, st: State): (r: Result)
    ensures r.Ok? ==> r.st == st.(lasttok := r.st.lasttok)
    ensures r.Err? ==> r.vars == st.vars
  {
    if IsDivision(op) && w == 0 && st.noeval == 0 then Err(DivisionByZero, st.vars)
    else if op == Power && w < 0 then Err(NegativeExponent, st.vars)
    else Ok(st.(lasttok := LastAfter(op, v, w, st.lasttok)), BinaryValue(op, v, w))
  }

  /** What every step keeps: the depth, noeval, and, while noeval is raised, every variable. */
  predicate Keeps(text: string, st: State, r: Result) {
    match r
    case Ok(s, _) =>
      && Within(text, s) && s.depth == st.depth && s.noeval == st.noeval
      && (st.noeval > 0 ==> s.vars == st.vars)
    case Err(_, vars) => st.noeval > 0 ==> vars == st.vars
  }

  predicate Consumes(text: string, st: State, r: Result)
    requires Within(text, st) && Keeps(text, st, r)
  {
    r.Ok? ==> Left(text, r.st) < Left(text, st)
  }

  /** noeval++ and noeval-- around a skipped operand. */
  function Raise(st: State, skip: bool): State {
    if skip then st.(noeval := st.noeval + 1) else st
  }

  function Lower(st: State, skip: bool): State
    requires skip ==> st.noeval > 0
  {
    if skip then st.(noeval := st.noeval - 1) else st
  }

  function Bind(st: State, name: string, v: int): State {
    if st.noeval == 0 then st.(vars := st.vars[name := IntToString(v)]) else st
  }

  /** readtok: reads the next token; a name's value is found before the parser sees the name. */
  function ReadTok(text: string, st: State): (r: Result)
    requires Within(text, st)
    ensures Keeps(text, st, r)
    ensures r.Ok? ==> Left(text, r.st) <= |text| - st.tp
    decreases MAX_EXPR_RECURSION_LEVEL - st.depth, |text| - st.tp, 1
  {
    var i := SkipBlanks(text, st.tp);
    if i == |text| then Ok(st.(tp := i, lasttok := st.curtok, curtok := End), 0)
    else if NameStart(text[i]) then ReadName(text, i, st)
    else if IsDigit(text[i]) then ReadNumeral(text, i, st)
    else ReadOperator(text, i, st)
  }

  function ReadNumeral(text: string, i: nat, st: State): (r: Result)
    requires Within(text, st) && st.tp <= i < |text| && IsDigit(text[i])
    ensures Keeps(text, st, r)
    ensures r.Ok? ==> Left(text, r.st) <= |text| - st.tp
  {
    var e := NumeralEnd(text, i);
    match Strlong(text[i..e])
    case BadNumber => Err(BadNumeral, st.vars)
    case Value(v) => Ok(st.(tp := e, tokval := v, lasttok := st.curtok, curtok := Num), 0)
  }

  /** A name at i: peeks at the token after it, with evaluation off, and looks the name up unless that is `=`. */
  function ReadName(text: string, i: nat, st: State): (r: Result)
    requires Within(text, st) && st.tp <= i < |text| && NameStart(text[i])
    ensures Keeps(text, st, r)
    ensures r.Ok? ==> Left(text, r.st) <= |text| - st.tp
    decreases MAX_EXPR_RECURSION_LEVEL - st.depth, |text| - i, 0
  {
    var e := NameEnd(text, i);
    var name := text[i..e];
    var (peek, _) :- ReadTok(text, st.(tp := e, tokstr := "", noeval := 1, curtok := Str));
    var back := st.(tokstr := name, assigntok := peek.assigntok);
    if st.lasttok == PreInc || st.lasttok == PreDec || peek.curtok != Ch('=') then
      var (s, v) :- StrEval(name, back);
      Ok(s.(tp := e, tokval := v, lasttok := st.curtok, curtok := Str), 0)
    else Ok(back.(tp := e, tokval := 0, lasttok := st.curtok, curtok := Str), 0)
  }

  /** expr_streval: the value of a variable, whose text is itself an expression; 0 while evaluation is off. */
  function StrEval(name: string, st: State): (r: Result)
    requires st.depth <= MAX_EXPR_RECURSION_LEVEL
    ensures r.Ok? ==> r.st == st.(assigntok := r.st.assigntok, vars := r.st.vars)
    ensures st.noeval > 0 ==> r == Ok(st, 0)
    decreases MAX_EXPR_RECURSION_LEVEL - st.depth, 0, 1
  {
    if st.noeval > 0 then Ok(st, 0)
    else if name !in st.vars then Ok(st, 0)
    else Subexpr(st.vars[name], st)
  }

  /** subexpr: evaluates a text in a fresh context and restores the context it was called in. */
  function Subexpr(text: string, st: State): (r: Result)
    requires st.depth <= MAX_EXPR_RECURSION_LEVEL
    ensures r.Ok? ==> r.st == st.(assigntok := r.st.assigntok, vars := r.st.vars)
    ensures st.noeval > 0 && r.Ok? ==> r.st.vars == st.vars
    ensures st.noeval > 0 && r.Err? ==> r.vars == st.vars
    decreases MAX_EXPR_RECURSION_LEVEL - st.depth, 0, 0
  {
    if SkipBlanks(text, 0) == |text| then Ok(st, 0)
    else if st.depth >= MAX_EXPR_RECURSION_LEVEL then Err(TooDeep, st.vars)
    else
      var entry := st.(tp := 0, curtok := End, lasttok := End, tokval := 0, tokstr := "", depth := st.depth + 1);
      var (first, _) :- ReadTok(text, entry);
      var (last, v) :- Parse(0, text, first);
      if last.curtok != End then Err(Syntax, last.vars)
      else Ok(st.(assigntok := last.assigntok, vars := last.vars), v)
  }

  /** The parsing function of a grammar level: 0 expcomma, 1 expassign, 2 expcond, 3 explor, 4 expland, 5 expbor,
      6 expbxor, 7 expband, 8 exp5, 9 exp4, 10 expshift, 11 exp3, 12 exp2, 13 exppower, 14 exp1, 15 exp0. */
  function Parse(level: nat, text: string, st: State): (r: Result)
    requires level <= 15 && Within(text, st)
    ensures Keeps(text, st, r) && Consumes(text, st, r)
    decreases MAX_EXPR_RECURSION_LEVEL - st.depth, Left(text, st), 2 + 2 * (16 - level) + 1
  {
    if level == 15 then ParsePrimary(text, st)
    else if level == 14 then ParseUnary(text, st)
    else if level == 2 then ParseConditional(text, st)
    else if level == 1 then ParseAssignment(text, st)
    else
      var (s, v) :- Parse(level + 1, text, st);
      Loop(level, text, s, v)
  }

  /** The loop of a binary level, with the value of what stands left of the operator. */
  function Loop(level: nat, text: string, st: State, v: int): (r: Result)
    requires level <= 13 && level != 1 && level != 2 && Within(text, st)
    ensures Keeps(text, st, r)
    ensures r.Ok? ==> Left(text, r.st) <= Left(text, st)
    decreases MAX_EXPR_RECURSION_LEVEL - st.depth, Left(text, st), 2
  {
    if LevelOf(st.curtok) != level then Ok(st, v)
    else
      var op := st.curtok;
      var skip := (op == LOr && v != 0) || (op == LAnd && v == 0);
      var (s1, w) :- RightOperand(if level == 13 then 13 else level + 1, text, st, skip);
      var (s2, value) :- Apply(op, v, w, s1);
      if op == Power && w == 0 then Ok(s2, 1) else Loop(level, text, s2, value)
  }

  /** Reads and parses the operand after an operator, with evaluation off for all of it when it is skipped. */
  function RightOperand(level: nat, text: string, st: State, skip: bool): (r: Result)
    requires level <= 15 && Within(text, st) && st.curtok != End
    ensures Keeps(text, st, r) && Consumes(text, st, r)
    ensures skip ==> (if r.Ok? then r.st.vars else r.vars) == st.vars
    decreases MAX_EXPR_RECURSION_LEVEL - st.depth, |text| - st.tp, 40
  {
    var (s1, _) :- ReadTok(text, Raise(st, skip));
    var (s2, w) :- Parse(level, text, s1);
    Ok(Lower(s2, skip), w)
  }

  /** Parses with evaluation off when skip says so; the waiting token has been read before. */
  function Branch(level: nat, text: string, st: State, skip: bool): (r: Result)
    requires level <= 15 && Within(text, st)
    ensures Keeps(text, st, r) && Consumes(text, st, r)
    ensures skip ==> (if r.Ok? then r.st.vars else r.vars) == st.vars
    decreases MAX_EXPR_RECURSION_LEVEL - st.depth, Left(text, st), 40
  {
    var (s, v) :- Parse(level, text, Raise(st, skip));
    Ok(Lower(s, skip), v)
  }

  /** expassign. */
  function ParseAssignment(text: string, st: State): (r: Result)
    requires Within(text, st)
    ensures Keeps(text, st, r) && Consumes(text, st, r)
    decreases MAX_EXPR_RECURSION_LEVEL - st.depth, Left(text, st), 2 + 2 * (16 - 1)
  {
    var (s, v) :- Parse(2, text, st);
    if s.curtok != Ch('=') && s.curtok != OpAssign then Ok(s, v)
    else if s.lasttok != Str then Err(Syntax, s.vars)
    else
      var special, op, lhs := s.curtok == OpAssign, s.assigntok, s.tokstr;
      var (s1, _) :- ReadTok(text, s);
      var (s2, w) :- Parse(1, text, s1);
      if special && IsDivision(op) && w == 0 && s2.noeval == 0 then Err(DivisionByZero, s2.vars)
      else if special && !IsAssignOperator(op) then Err(Syntax, s2.vars)
      else
        var value := if special then BinaryValue(op, v, w) else w;
        Ok(Bind(s2, lhs, value).(tokstr := ""), value)
  }

  /** expcond; the first token of each branch is read before evaluation may be turned off. */
  function ParseConditional(text: string, st: State): (r: Result)
    requires Within(text, st)
    ensures Keeps(text, st, r) && Consumes(text, st, r)
    decreases MAX_EXPR_RECURSION_LEVEL - st.depth, Left(text, st), 2 + 2 * (16 - 2)
  {
    var (s, c) :- Parse(3, text, st);
    if s.curtok != Ch('?') then Ok(s, c)
    else
      var (s1, _) :- ReadTok(text, s);
      if s1.curtok == End || s1.curtok == Ch(':') then Err(Syntax, s1.vars)
      else
        var (s2, v1) :- Branch(0, text, s1, c == 0);
        if s2.curtok != Ch(':') then Err(Syntax, s2.vars)
        else
          var (s3, _) :- ReadTok(text, s2);
          if s3.curtok == End then Err(Syntax, s3.vars)
          else
            var (s4, v2) :- Branch(2, text, s3, c != 0);
            Ok(s4.(lasttok := Cond), if c != 0 then v1 else v2)
  }

  /** exp1. */
  function ParseUnary(text: string, st: State): (r: Result)
    requires Within(text, st)
    ensures Keeps(text, st, r) && Consumes(text, st, r)
    decreases MAX_EXPR_RECURSION_LEVEL - st.depth, Left(text, st), 2 + 2 * (16 - 14)
  {
    if IsUnary(st.curtok) then
      var (s1, _) :- ReadTok(text, st);
      var (s2, v) :- Parse(14, text, s1);
      Ok(s2.(lasttok := Num), UnaryValue(st.curtok, v))
    else Parse(15, text, st)
  }

  /** exp0. */
  function ParsePrimary(text: string, st: State): (r: Result)
    requires Within(text, st)
    ensures Keeps(text, st, r) && Consumes(text, st, r)
    decreases MAX_EXPR_RECURSION_LEVEL - st.depth, Left(text, st), 2 + 2 * (16 - 15)
  {
    match st.curtok
    case PreInc => ParsePrefixStep(text, st, true)
    case PreDec => ParsePrefixStep(text, st, false)
    case Num =>
      var (s, _) :- ReadTok(text, st);
      Ok(s, st.tokval)
    case Str => ParseName(text, st)
    case Ch(c) =>
      if c != '(' then Err(Syntax, st.vars)
      else
        var (s1, _) :- ReadTok(text, st);
        var (s2, v) :- Parse(0, text, s1);
        if s2.curtok != Ch(')') then Err(Syntax, s2.vars)
        else
          var (s3, _) :- ReadTok(text, s2);
          Ok(s3, v)
    case _ => Err(Syntax, st.vars)
  }

  /** `++name` and `--name`. */
  function ParsePrefixStep(text: string, st: State, up: bool): (r: Result)
    requires Within(text, st) && st.curtok != End
    ensures Keeps(text, st, r) && Consumes(text, st, r)
    decreases MAX_EXPR_RECURSION_LEVEL - st.depth, Left(text, st), 2
  {
    var (s1, _) :- ReadTok(text, st.(lasttok := st.curtok));
    if s1.curtok != Str then Err(Syntax, s1.vars)
    else
      var v := Stepped(up, s1.tokval);
      var (s2, _) :- ReadTok(text, Bind(s1, s1.tokstr, v).(curtok := Num));
      Ok(s2, v)
  }

  /** A name, perhaps followed by `++` or `--`: looks one token ahead with evaluation off, then reads it again. */
  function ParseName(text: string, st: State): (r: Result)
    requires Within(text, st) && st.curtok == Str
    ensures Keeps(text, st, r) && Consumes(text, st, r)
    decreases MAX_EXPR_RECURSION_LEVEL - st.depth, Left(text, st), 2
  {
    var (peek, _) :- ReadTok(text, st.(tokstr := "", noeval := 1));
    var stepped := peek.curtok == PostInc || peek.curtok == PostDec;
    var s1 :=
      if stepped then
        Bind(peek.(tokstr := st.tokstr, noeval := st.noeval, lasttok := Str),
             st.tokstr, Stepped(peek.curtok == PostInc, st.tokval)).(curtok := Num)
      else st.(assigntok := peek.assigntok);
    var (s2, _) :- ReadTok(text, s1);
    Ok(s2, st.tokval)
  }

  /** evalexp: the value and the new variables, or an error. */
  function EvalExp(text: string, vars: Vars): Result {
    Subexpr(text, State(0, End, End, End, 0, "", 0, 0, vars))
  }
}
