/** evalexp on printed trees: parsing and evaluating in one pass gives what the tree means. */
module ExprCorrect {
  import opened Text
  import opened Int64
  import opened ExprNumbers
  import opened ExprModel
  import opened ExprTree
  import opened ExprLex
  import opened ExprDescent
  import opened ExprFollow

  // ----- loading the first token of an operand -----

  /** The first token of a printed expression, as readtok classifies it. */
  function FirstTok(e: Expr, level: nat): Token
    requires WellFormed(e)
    decreases e
  {
    if Rank(e) < level then Ch('(')
    else
      match e
      case Number(_) => Num
      case Var(_) => Str
      case Step(_, prefix, up) => if !prefix then Str else if up then PreInc else PreDec
      case Unary(op, _) => Ch(op)
      case Binary(op, l, _) => FirstTok(l, LeftLevel(op))
      case Conditional(c, _, _) => FirstTok(c, 3)
      case Assign(_, _) => Str
      case AssignOp(_, _, _) => Str
  }

  /** Token k, of class tok, has just been read; a name or number left its value behind. */
  ghost predicate TokenAt(tokens: seq<string>, k: nat, tok: Token, st: State, first: int) {
    && k < |tokens| && st.tp == Pos(tokens, k + 1) && st.curtok == tok
    && (tok == Str ==> st.tokstr == tokens[k] && IsName(tokens[k]))
    && (tok == Str || tok == Num ==> st.tokval == first)
  }

  lemma LookUp(name: string, st: State, off: bool, store: Store)
    requires Holds(st, off, store)
    ensures StrEval(name, st) == Ok(st, Seen(name, off, store))
  {
    hide Subexpr;
    hide IntToString;
    if !off && name in store {
      IntTextEvaluates(store[name], st);
    }
  }

  predicate StepToken(t: string) {
    t == "++" || t == "--"
  }

  lemma ReadStepAfterName(tokens: seq<string>, k: nat, st: State) returns (s: State)
    requires Clean(tokens) && k < |tokens| && StepToken(tokens[k]) && st.curtok == Str
    requires Within(Render(tokens), st) && st.tp == Pos(tokens, k)
    ensures ReadTok(Render(tokens), st) == Ok(s, 0)
    ensures s == st.(tp := Pos(tokens, k + 1), lasttok := Str, curtok := if tokens[k] == "++" then PostInc else PostDec)
  {
    hide Render;
    hide ReadTok;
    ReadOperatorToken(tokens, k, st);
    s := st.(tp := Pos(tokens, k + 1), lasttok := Str, curtok := if tokens[k] == "++" then PostInc else PostDec);
  }

  lemma ReadStepBeforeName(tokens: seq<string>, k: nat, st: State) returns (s: State)
    requires Clean(tokens) && k + 1 < |tokens| && StepToken(tokens[k]) && IsName(tokens[k + 1]) && st.curtok != Str
    requires Within(Render(tokens), st) && st.tp == Pos(tokens, k)
    ensures ReadTok(Render(tokens), st) == Ok(s, 0)
    ensures s == st.(tp := Pos(tokens, k + 1), lasttok := st.curtok, curtok := if tokens[k] == "++" then PreInc else PreDec)
  {
    hide Render;
    hide ReadTok;
    ReadOperatorToken(tokens, k, st);
    s := st.(tp := Pos(tokens, k + 1), lasttok := st.curtok, curtok := if tokens[k] == "++" then PreInc else PreDec);
  }

  /** Single-character operators that start an operand. */
  lemma ReadOpener(tokens: seq<string>, k: nat, c: char, st: State) returns (s: State)
    requires Clean(tokens) && k < |tokens| && tokens[k] == [c] && (c == '(' || c in "!~-+")
    requires Within(Render(tokens), st) && st.tp == Pos(tokens, k)
    ensures ReadTok(Render(tokens), st) == Ok(s, 0)
    ensures s == st.(tp := Pos(tokens, k + 1), lasttok := st.curtok, curtok := Ch(c))
  {
    hide Render;
    hide ReadTok;
    assert Lexeme([c], NameComes(tokens, k + 1), st.curtok) == Operator(Ch(c), 1, End);
    ReadOperatorToken(tokens, k, st);
    s := st.(tp := Pos(tokens, k + 1), lasttok := st.curtok, curtok := Ch(c));
  }

  predicate AssignComes(tokens: seq<string>, k: nat) {
    k < |tokens| && Follower(tokens[k]) && FollowTok(tokens[k]) == Ch('=')
  }

  /** The peek readtok makes behind a name. */
  lemma Peek(tokens: seq<string>, k: nat, st: State) returns (peek: State)
    requires Clean(tokens) && k < |tokens|
    requires k + 1 < |tokens| ==> Follower(tokens[k + 1]) || StepToken(tokens[k + 1])
    requires Within(Render(tokens), st) && st.tp == Pos(tokens, k + 1) && st.curtok == Str
    ensures ReadTok(Render(tokens), st) == Ok(peek, 0)
    ensures peek.curtok == Ch('=') <==> AssignComes(tokens, k + 1)
  {
    hide ReadTok;
    hide Render;
    if k + 1 < |tokens| && StepToken(tokens[k + 1]) {
      peek := ReadStepAfterName(tokens, k + 1, st);
    } else {
      peek := ReadFollower(tokens, k + 1, st);
    }
  }

  /** Reading a name finds its value, or 0 when evaluation is off or `=` comes next. */
  lemma NameRead(tokens: seq<string>, k: nat, st: State, off: bool, store: Store) returns (s: State)
    requires Clean(tokens) && k < |tokens| && IsName(tokens[k]) && Holds(st, off, store)
    requires k + 1 < |tokens| ==> Follower(tokens[k + 1]) || StepToken(tokens[k + 1])
    requires Within(Render(tokens), st) && st.tp == Pos(tokens, k)
    ensures ReadTok(Render(tokens), st) == Ok(s, 0) && Holds(s, off, store)
    ensures s == st.(tp := Pos(tokens, k + 1), tokstr := tokens[k], assigntok := s.assigntok, tokval := s.tokval,
                     lasttok := st.curtok, curtok := Str)
    ensures s.tokval == if NotStep(st.lasttok) && AssignComes(tokens, k + 1) then 0 else Seen(tokens[k], off, store)
  {
    hide Follower;
    hide FollowTok;
    hide StepToken;
    hide Clean;
    hide ReadTok;
    hide Render;
    hide StrEval;
    hide Seen;
    NameEndsWithin(tokens, k);
    var peek := Peek(tokens, k, st.(tp := Pos(tokens, k + 1), tokstr := "", noeval := 1, curtok := Str));
    var v := if NotStep(st.lasttok) && AssignComes(tokens, k + 1) then 0 else Seen(tokens[k], off, store);
    LookUp(tokens[k], st.(tokstr := tokens[k], assigntok := peek.assigntok), off, store);
    s := st.(tp := Pos(tokens, k + 1), tokstr := tokens[k], assigntok := peek.assigntok, tokval := v,
             lasttok := st.curtok, curtok := Str);
    assert ReadTok(Render(tokens), st) == Ok(s, 0) by {
      hide Pos;
      hide SkipBlanks;
      hide NameEnd;
      hide IsName;
      NameExtent(tokens, k);
      var i := SkipBlanks(Render(tokens), st.tp);
      ReadTokCases(Render(tokens), st, i);
      assert Render(tokens)[i..NameEnd(Render(tokens), i)] == tokens[k];
    }
  }

  lemma NameEndsWithin(tokens: seq<string>, k: nat)
    requires k < |tokens|
    ensures Pos(tokens, k + 1) <= |Render(tokens)|
  {
    TokenText(tokens, k);
  }

  /** Where an operand may be read: an operator or the start of the text came last. */
  ghost predicate BeforeOperand(tokens: seq<string>, k: nat, st: State, off: bool, store: Store) {
    && Base(st, off, store) && k < |tokens| && st.tp == Pos(tokens, k) && Within(Render(tokens), st)
    && st.curtok != Str && NotStep(st.curtok)
  }

  /** s is st with the first token of e read. */
  ghost predicate Loaded(tokens: seq<string>, k: nat, e: Expr, level: nat, st: State, s: State, off: bool, store: Store)
    requires WellFormed(e)
  {
    && Within(Render(tokens), st) && ReadTok(Render(tokens), st) == Ok(s, 0)
    && TokenAt(tokens, k, FirstTok(e, level), s, FirstValue(e, level, off, store))
    && Base(s, off, store) && s.noeval == st.noeval && s.depth == st.depth && s.lasttok == st.curtok
  }

  lemma LoadName(tokens: seq<string>, k: nat, x: string, e: Expr, level: nat, st: State, off: bool, store: Store)
    returns (s: State)
    requires Clean(tokens) && BeforeOperand(tokens, k, st, off, store) && IsName(x) && tokens[k] == x
    requires k + 1 < |tokens| ==> Follower(tokens[k + 1]) || StepToken(tokens[k + 1])
    requires WellFormed(e) && FirstTok(e, level) == Str
    requires FirstValue(e, level, off, store) == if AssignComes(tokens, k + 1) then 0 else Seen(x, off, store)
    ensures Loaded(tokens, k, e, level, st, s, off, store)
  {
    hide ReadTok;
    hide Render;
    hide FirstTok;
    hide FirstValue;
    hide Seen;
    s := NameRead(tokens, k, st, off, store);
  }

  lemma LoadOpener(tokens: seq<string>, k: nat, c: char, e: Expr, level: nat, st: State, off: bool, store: Store)
    returns (s: State)
    requires Clean(tokens) && BeforeOperand(tokens, k, st, off, store) && tokens[k] == [c] && (c == '(' || c in "!~-+")
    requires WellFormed(e) && FirstTok(e, level) == Ch(c)
    ensures Loaded(tokens, k, e, level, st, s, off, store)
  {
    hide ReadTok;
    hide Render;
    hide FirstTok;
    hide FirstValue;
    s := ReadOpener(tokens, k, c, st);
  }

  lemma LoadNumeral(tokens: seq<string>, k: nat, n: nat, st: State, off: bool, store: Store, level: nat) returns (s: State)
    requires Clean(tokens) && BeforeOperand(tokens, k, st, off, store) && tokens[k] == NatToString(n) && n <= INTMAX_MAX
    requires level <= 15
    ensures Loaded(tokens, k, Number(n), level, st, s, off, store)
  {
    hide ReadTok;
    hide Render;
    hide NatToString;
    ReadNumeralToken(tokens, k, st, n);
    s := st.(tp := Pos(tokens, k + 1), tokval := n, lasttok := st.curtok, curtok := Num);
  }

  lemma LoadStep(tokens: seq<string>, k: nat, x: string, up: bool, st: State, off: bool, store: Store, level: nat)
    returns (s: State)
    requires Clean(tokens) && BeforeOperand(tokens, k, st, off, store) && IsName(x) && level <= 15
    requires Has(tokens, k, [if up then "++" else "--", x])
    ensures Loaded(tokens, k, Step(x, true, up), level, st, s, off, store)
  {
    hide ReadTok;
    hide Render;
    assert tokens[k..k + 2][0] == tokens[k] && tokens[k..k + 2][1] == tokens[k + 1];
    s := ReadStepBeforeName(tokens, k, st);
  }

  /** The token after an operand does not disturb the reading of the operand's own tokens. */
  predicate EndOk(tokens: seq<string>, j: nat) {
    j <= |tokens| && (j < |tokens| ==> Follower(tokens[j])) && !AssignComes(tokens, j)
  }

  /** A binary or conditional expression starts with the first token of its left part. */
  lemma LoadedAsLeft(tokens: seq<string>, k: nat, l: Expr, inner: nat, e: Expr, level: nat, st: State, s: State, off: bool,
                     store: Store)
    requires WellFormed(l) && WellFormed(e) && Loaded(tokens, k, l, inner, st, s, off, store)
    requires FirstTok(e, level) == FirstTok(l, inner) && FirstValue(e, level, off, store) == FirstValue(l, inner, off, store)
    ensures Loaded(tokens, k, e, level, st, s, off, store)
  {
  }

  /** Two token lists around one token. */
  lemma InfixParts(tokens: seq<string>, k: nat, a: seq<string>, t: string, b: seq<string>)
    requires Has(tokens, k, a + ([t] + b))
    ensures Has(tokens, k, a) && k + |a| < |tokens| && tokens[k + |a|] == t && Has(tokens, k + |a| + 1, b)
    ensures k + |a| + 1 + |b| == k + |a + ([t] + b)|
  {
    HasParts(tokens, k, a, [t] + b);
    HasParts(tokens, k + |a|, [t], b);
    HasOne(tokens, k + |a|, t);
  }

  lemma BinaryParts(tokens: seq<string>, k: nat, op: Token, l: Expr, r: Expr)
    requires WellFormed(Binary(op, l, r)) && Has(tokens, k, BareTokens(Binary(op, l, r)))
    ensures var m := k + |Tokens(l, LeftLevel(op))|;
            && Has(tokens, k, Tokens(l, LeftLevel(op))) && m < |tokens| && tokens[m] == Spell(op)
            && Has(tokens, m + 1, Tokens(r, RightLevel(op)))
            && m + 1 + |Tokens(r, RightLevel(op))| == k + |BareTokens(Binary(op, l, r))|
  {
    hide Tokens;
    hide Spell;
    hide Has;
    InfixParts(tokens, k, Tokens(l, LeftLevel(op)), Spell(op), Tokens(r, RightLevel(op)));
  }

  lemma ConditionalParts(tokens: seq<string>, k: nat, c: Expr, a: Expr, b: Expr)
    requires WellFormed(Conditional(c, a, b)) && Has(tokens, k, BareTokens(Conditional(c, a, b)))
    ensures var q := k + |Tokens(c, 3)|;
            var m := q + 1 + |Tokens(a, 0)|;
            && Has(tokens, k, Tokens(c, 3)) && q < |tokens| && tokens[q] == "?" && Has(tokens, q + 1, Tokens(a, 0))
            && m < |tokens| && tokens[m] == ":" && Has(tokens, m + 1, Tokens(b, 2))
            && m + 1 + |Tokens(b, 2)| == k + |BareTokens(Conditional(c, a, b))|
  {
    hide Tokens;
    hide Has;
    var tc, ta, tb := Tokens(c, 3), Tokens(a, 0), Tokens(b, 2);
    InfixParts(tokens, k, tc, "?", ta + ([":"] + tb));
    InfixParts(tokens, k + |tc| + 1, ta, ":", tb);
  }

  lemma AssignParts(tokens: seq<string>, k: nat, x: string, op: string, ts: seq<string>)
    requires Has(tokens, k, [x] + ([op] + ts))
    ensures k + 1 < |tokens| && tokens[k] == x && tokens[k + 1] == op && Has(tokens, k + 2, ts)
  {
    InfixParts(tokens, k, [x], op, ts);
    HasOne(tokens, k, x);
  }

  lemma LoadAtom(tokens: seq<string>, k: nat, e: Expr, level: nat, st: State, off: bool, store: Store)
    returns (s: State)
    requires Clean(tokens) && BeforeOperand(tokens, k, st, off, store) && WellFormed(e) && level <= 15 && Rank(e) == 15
    requires Has(tokens, k, BareTokens(e)) && EndOk(tokens, k + |BareTokens(e)|)
    ensures Loaded(tokens, k, e, level, st, s, off, store)
  {
    hide BeforeOperand;
    hide Follower;
    hide Tokens;
    hide IsName;
    hide ReadTok;
    hide Render;
    hide Clean;
    hide Loaded;
    hide Seen;
    hide NatToString;
    match e {
      case Number(n) =>
        HasOne(tokens, k, NatToString(n));
        s := LoadNumeral(tokens, k, n, st, off, store, level);
      case Var(x) =>
        HasOne(tokens, k, x);
        s := LoadName(tokens, k, x, e, level, st, off, store);
      case Step(x, prefix, up) =>
        if prefix {
          s := LoadStep(tokens, k, x, up, st, off, store, level);
        } else {
          s := LoadPostfix(tokens, k, x, up, level, st, off, store);
        }
    }
  }

  lemma LoadPostfix(tokens: seq<string>, k: nat, x: string, up: bool, level: nat, st: State, off: bool, store: Store)
    returns (s: State)
    requires Clean(tokens) && BeforeOperand(tokens, k, st, off, store) && IsName(x) && level <= 15
    requires Has(tokens, k, [x, if up then "++" else "--"])
    ensures Loaded(tokens, k, Step(x, false, up), level, st, s, off, store)
  {
    hide Tokens;
    hide IsName;
    hide ReadTok;
    hide Render;
    hide Clean;
    hide Loaded;
    hide Seen;
    hide BeforeOperand;
    assert tokens[k..k + 2][0] == tokens[k] && tokens[k..k + 2][1] == tokens[k + 1];
    s := LoadName(tokens, k, x, Step(x, false, up), level, st, off, store);
  }

  lemma LoadAssign(tokens: seq<string>, k: nat, e: Expr, level: nat, st: State, off: bool, store: Store)
    returns (s: State)
    requires Clean(tokens) && BeforeOperand(tokens, k, st, off, store) && WellFormed(e) && (e.Assign? || e.AssignOp?)
    requires level <= Rank(e) && Has(tokens, k, BareTokens(e))
    ensures Loaded(tokens, k, e, level, st, s, off, store)
  {
    hide ReadTok;
    hide Render;
    hide Clean;
    hide Loaded;
    hide Seen;
    hide Tokens;
    hide Has;
    if e.Assign? {
      AssignParts(tokens, k, e.name, "=", Tokens(e.e, 1));
      SingleFollows('=');
    } else {
      AssignParts(tokens, k, e.name, Spell(e.bop) + "=", Tokens(e.e, 1));
      AssignFollows(e.bop);
    }
    s := LoadName(tokens, k, e.name, e, level, st, off, store);
  }

  lemma LoadParen(tokens: seq<string>, k: nat, e: Expr, level: nat, st: State, off: bool, store: Store)
    returns (s: State)
    requires Clean(tokens) && BeforeOperand(tokens, k, st, off, store) && WellFormed(e) && Rank(e) < level <= 15
    requires Has(tokens, k, Tokens(e, level))
    ensures Loaded(tokens, k, e, level, st, s, off, store)
  {
    hide Loaded;
    hide Has;
    HasParts(tokens, k, ["("] + BareTokens(e), [")"]);
    HasParts(tokens, k, ["("], BareTokens(e));
    HasOne(tokens, k, "(");
    s := LoadOpener(tokens, k, '(', e, level, st, off, store);
  }

  lemma LoadUnary(tokens: seq<string>, k: nat, e: Expr, level: nat, st: State, off: bool, store: Store)
    returns (s: State)
    requires Clean(tokens) && BeforeOperand(tokens, k, st, off, store) && WellFormed(e) && e.Unary? && level <= 14
    requires Has(tokens, k, BareTokens(e))
    ensures Loaded(tokens, k, e, level, st, s, off, store)
  {
    hide Loaded;
    hide Has;
    HasParts(tokens, k, [[e.op]], Tokens(e.e, 14));
    HasOne(tokens, k, [e.op]);
    s := LoadOpener(tokens, k, e.op, e, level, st, off, store);
  }

  /** The part of a binary or conditional expression that is printed first, and its level. */
  function LeftPart(e: Expr): Expr
    requires e.Binary? || e.Conditional?
  {
    if e.Binary? then e.l else e.c
  }

  function LeftPartLevel(e: Expr): nat
    requires WellFormed(e) && (e.Binary? || e.Conditional?)
  {
    if e.Binary? then LeftLevel(e.bop) else 3
  }

  lemma FirstOfLeft(e: Expr, level: nat, off: bool, store: Store)
    requires WellFormed(e) && Rank(e) >= level && (e.Binary? || e.Conditional?)
    ensures FirstTok(e, level) == FirstTok(LeftPart(e), LeftPartLevel(e))
    ensures FirstValue(e, level, off, store) == FirstValue(LeftPart(e), LeftPartLevel(e), off, store)
  {
  }

  lemma LeftPartText(tokens: seq<string>, k: nat, e: Expr)
    requires WellFormed(e) && (e.Binary? || e.Conditional?) && Has(tokens, k, BareTokens(e))
    ensures var ts := Tokens(LeftPart(e), LeftPartLevel(e)); Has(tokens, k, ts) && EndOk(tokens, k + |ts|)
  {
    hide Lexeme;
    hide WellFormed;
    hide IsBlank;
    hide Has;
    hide Tokens;
    hide BareTokens;
    hide Follower;
    if e.Binary? {
      BinaryParts(tokens, k, e.bop, e.l, e.r);
      BinaryFollows(e.bop);
    } else {
      ConditionalParts(tokens, k, e.c, e.a, e.b);
      SingleFollows('?');
    }
  }

  lemma LoadSimple(tokens: seq<string>, k: nat, e: Expr, level: nat, st: State, off: bool, store: Store)
    returns (s: State)
    requires Clean(tokens) && BeforeOperand(tokens, k, st, off, store) && WellFormed(e) && level <= 15
    requires Rank(e) < level || !(e.Binary? || e.Conditional?)
    requires Has(tokens, k, Tokens(e, level)) && EndOk(tokens, k + |Tokens(e, level)|)
    ensures Loaded(tokens, k, e, level, st, s, off, store)
  {
    hide ReadTok;
    hide Render;
    hide Clean;
    hide Loaded;
    hide Has;
    hide BeforeOperand;
    hide BareTokens;
    hide FirstTok;
    hide FirstValue;
    hide Follower;
    if Rank(e) < level {
      s := LoadParen(tokens, k, e, level, st, off, store);
    } else if e.Unary? {
      s := LoadUnary(tokens, k, e, level, st, off, store);
    } else if Rank(e) == 15 {
      s := LoadAtom(tokens, k, e, level, st, off, store);
    } else {
      s := LoadAssign(tokens, k, e, level, st, off, store);
    }
  }

  /** Reading the first token of a printed operand, with the value that belongs to it. */
  lemma {:induction false} LoadFirst(tokens: seq<string>, k: nat, e: Expr, level: nat, st: State, off: bool, store: Store)
    returns (s: State)
    requires Clean(tokens) && BeforeOperand(tokens, k, st, off, store) && WellFormed(e) && level <= 15
    requires Has(tokens, k, Tokens(e, level)) && EndOk(tokens, k + |Tokens(e, level)|)
    ensures Loaded(tokens, k, e, level, st, s, off, store)
    decreases e
  {
    hide ReadTok;
    hide Render;
    hide Clean;
    hide Loaded;
    hide Has;
    hide BeforeOperand;
    hide EndOk;
    hide BareTokens;
    hide FirstTok;
    hide FirstValue;
    if Rank(e) < level || !(e.Binary? || e.Conditional?) {
      s := LoadSimple(tokens, k, e, level, st, off, store);
    } else {
      LeftPartText(tokens, k, e);
      s := LoadFirst(tokens, k, LeftPart(e), LeftPartLevel(e), st, off, store);
      FirstOfLeft(e, level, off, store);
      LoadedAsLeft(tokens, k, LeftPart(e), LeftPartLevel(e), e, level, st, s, off, store);
    }
  }
}
