/** The states between printed tokens: what has been read, and what may come next. */
module ExprFollow {
  import opened Text
  import opened Int64
  import opened ExprNumbers
  import opened ExprModel
  import opened ExprTree
  import opened ExprLex
  import opened ExprDescent

  // ----- operators that follow an operand -----

  /** t is an operator that is lexed the same way whatever surrounds it, and is not `++` or `--`. */
  predicate Follower(t: string) {
    && OperatorStart(t) && !(|t| >= 2 && t[0] in "+-" && t[1] == t[0])
    && var op := Lexeme(t, false, Str); op.Operator? && op.len == |t|
  }

  function FollowTok(t: string): Token
    requires Follower(t)
  {
    Lexeme(t, false, Str).tok
  }

  lemma BinaryFollows(op: Token)
    requires IsBinary(op)
    ensures Follower(Spell(op)) && FollowTok(Spell(op)) == op && BindLevel(op) == LevelOf(op)
  {
  }

  lemma AssignFollows(op: Token)
    requires IsAssignOperator(op)
    ensures Follower(Spell(op) + "=") && Lexeme(Spell(op) + "=", false, Str) == Operator(OpAssign, |Spell(op)| + 1, op)
  {
    if op.Ch? {
      assert Spell(op) + "=" == [op.c, '='];
    } else {
      assert Spell(op) + "=" == (if op == Lsh then "<<=" else ">>=");
    }
  }

  lemma SingleFollows(c: char)
    requires IsArithOp(c)
    ensures Follower([c]) && FollowTok([c]) == Ch(c)
  {
    assert Lexeme([c], false, Str) == Operator(Ch(c), 1, End);
  }

  // ----- token lists -----

  /** The tokens read ts from index k on. */
  predicate Has(tokens: seq<string>, k: nat, ts: seq<string>) {
    k + |ts| <= |tokens| && tokens[k..k + |ts|] == ts
  }

  lemma HasParts(tokens: seq<string>, k: nat, a: seq<string>, b: seq<string>)
    requires Has(tokens, k, a + b)
    ensures Has(tokens, k, a) && Has(tokens, k + |a|, b)
  {
    assert tokens[k..k + |a|] == (a + b)[..|a|];
    assert tokens[k + |a|..k + |a + b|] == (a + b)[|a|..];
  }

  lemma HasOne(tokens: seq<string>, k: nat, t: string)
    requires Has(tokens, k, [t])
    ensures k < |tokens| && tokens[k] == t
  {
    assert tokens[k..k + 1][0] == tokens[k];
  }

  predicate CleanToken(t: string) {
    t != "" && !IsBlank(t[0])
  }

  predicate Clean(tokens: seq<string>) {
    forall k :: 0 <= k < |tokens| ==> CleanToken(tokens[k])
  }

  lemma CleanConcat(a: seq<string>, b: seq<string>)
    requires Clean(a) && Clean(b)
    ensures Clean(a + b)
  {
  }

  lemma CleanOne(t: string)
    requires CleanToken(t) || IsName(t) || Follower(t) || (t != "" && t[0] in "!~-+")
    ensures Clean([t]) && CleanToken(t)
  {
  }

  lemma {:induction false} TokensAreClean(e: Expr, level: nat)
    requires WellFormed(e)
    ensures Clean(Tokens(e, level)) && Tokens(e, level) != []
    decreases e, 1
  {
    BareTokensAreClean(e);
    CleanOne("(");
    CleanOne(")");
    CleanConcat(["("], BareTokens(e));
    CleanConcat(["("] + BareTokens(e), [")"]);
  }

  lemma {:induction false} BareTokensAreClean(e: Expr)
    requires WellFormed(e)
    ensures Clean(BareTokens(e)) && BareTokens(e) != []
    decreases e, 0
  {
    hide Clean;
    hide CleanToken;
    hide Tokens;
    hide Follower;
    match e {
      case Number(n) =>
        NumeralIsClean(n);
        CleanOne(NatToString(n));
      case Var(x) =>
        CleanOne(x);
      case Step(x, prefix, up) =>
        CleanOne(x);
        var op := if up then "++" else "--";
        CleanOne(op);
        CleanConcat([op], [x]);
        CleanConcat([x], [op]);
        assert [op, x] == [op] + [x] && [x, op] == [x] + [op];
      case Unary(op, e1) =>
        CleanOne([op]);
        TokensAreClean(e1, 14);
        CleanConcat([[op]], Tokens(e1, 14));
      case Binary(op, l, r) =>
        TokensAreClean(l, LeftLevel(op));
        TokensAreClean(r, RightLevel(op));
        BinaryFollows(op);
        CleanOne(Spell(op));
        CleanConcat([Spell(op)], Tokens(r, RightLevel(op)));
        CleanConcat(Tokens(l, LeftLevel(op)), [Spell(op)] + Tokens(r, RightLevel(op)));
      case Conditional(c, a, b) =>
        TokensAreClean(c, 3);
        TokensAreClean(a, 0);
        TokensAreClean(b, 2);
        SingleFollows('?');
        SingleFollows(':');
        CleanOne("?");
        CleanOne(":");
        CleanConcat([":"], Tokens(b, 2));
        CleanConcat(Tokens(a, 0), [":"] + Tokens(b, 2));
        CleanConcat(["?"], Tokens(a, 0) + ([":"] + Tokens(b, 2)));
        CleanConcat(Tokens(c, 3), ["?"] + (Tokens(a, 0) + ([":"] + Tokens(b, 2))));
      case Assign(x, e1) =>
        CleanOne(x);
        TokensAreClean(e1, 1);
        SingleFollows('=');
        CleanOne("=");
        CleanConcat(["="], Tokens(e1, 1));
        CleanConcat([x], ["="] + Tokens(e1, 1));
      case AssignOp(op, x, e1) =>
        CleanOne(x);
        TokensAreClean(e1, 1);
        AssignFollows(op);
        CleanOne(Spell(op) + "=");
        CleanConcat([Spell(op) + "="], Tokens(e1, 1));
        CleanConcat([x], [Spell(op) + "="] + Tokens(e1, 1));
    }
  }

  lemma NumeralIsClean(n: nat)
    ensures CleanToken(NatToString(n))
  {
    assert NatToString(n)[0] in NatToString(n);
  }

  // ----- states -----

  /** The string variables of a shell whose variables are integers. */
  function Encode(store: Store): Vars {
    map x | x in store :: IntToString(store[x])
  }

  /** What holds between tokens: room for one more context, evaluation on or off, and the variables. */
  ghost predicate Holds(st: State, off: bool, store: Store) {
    && st.depth < MAX_EXPR_RECURSION_LEVEL && (st.noeval > 0 <==> off)
    && st.vars == Encode(store) && Ints(store)
  }

  predicate NotStep(tok: Token) {
    tok != PreInc && tok != PreDec
  }

  /** The same, with no `++` or `--` waiting for its name. */
  ghost predicate Base(st: State, off: bool, store: Store) {
    Holds(st, off, store) && NotStep(st.lasttok)
  }

  /** Token j, an operator or the end, has just been read. */
  ghost predicate After(tokens: seq<string>, j: nat, st: State, off: bool, store: Store) {
    && Base(st, off, store) && j <= |tokens|
    && (if j == |tokens| then st.curtok == End && st.tp == |Render(tokens)|
        else
          && st.tp == Pos(tokens, j + 1) && Follower(tokens[j]) && st.curtok == FollowTok(tokens[j])
          && (st.curtok == OpAssign ==> st.assigntok == Lexeme(tokens[j], false, Str).assign))
  }

  /** An operand that ends before token j can be parsed at the level without touching token j. */
  predicate FollowOk(tokens: seq<string>, j: nat, level: nat) {
    j <= |tokens| && (j < |tokens| ==> Follower(tokens[j]) && BindLevel(FollowTok(tokens[j])) < level)
  }

  /** Reading the token after an operand. */
  lemma ReadFollower(tokens: seq<string>, j: nat, st: State) returns (s: State)
    requires Clean(tokens) && j <= |tokens| && (j < |tokens| ==> Follower(tokens[j]))
    requires Within(Render(tokens), st) && st.tp == Pos(tokens, j)
    ensures ReadTok(Render(tokens), st) == Ok(s, 0)
    ensures s == st.(tp := s.tp, lasttok := st.curtok, curtok := s.curtok, assigntok := s.assigntok)
    ensures s.curtok == if j == |tokens| then End else FollowTok(tokens[j])
    ensures forall off, store :: Base(s, off, store) ==> After(tokens, j, s, off, store)
  {
    hide Render;
    hide ReadTok;
    EndPos(tokens);
    if j == |tokens| {
      assert ReadTok(Render(tokens), st) == Ok(st.(tp := |Render(tokens)|, lasttok := st.curtok, curtok := End), 0) by {
        EndPos(tokens);
        ReadTokCases(Render(tokens), st, |Render(tokens)|);
      }
      s := st.(tp := |Render(tokens)|, lasttok := st.curtok, curtok := End);
    } else {
      ReadOperatorToken(tokens, j, st);
      var op := Lexeme(tokens[j], false, Str);
      s := st.(tp := Pos(tokens, j + 1), lasttok := st.curtok, curtok := op.tok,
               assigntok := if op.tok == OpAssign then op.assign else st.assigntok);
    }
  }
}
