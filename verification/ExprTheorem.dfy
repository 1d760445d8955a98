/** The evaluator on printed trees, constructor by constructor. */
module ExprTheorem {
  import opened Text
  import opened Int64
  import opened ExprNumbers
  import opened ExprModel
  import opened ExprTree
  import opened ExprLex
  import opened ExprDescent
  import opened ExprFollow
  import opened ExprCorrect

  // ----- one step of each parsing function -----

  lemma ParseCases(level: nat, text: string, st: State)
    requires level <= 15 && Within(text, st)
    ensures level == 15 ==> Parse(level, text, st) == ParsePrimary(text, st)
    ensures level == 14 ==> Parse(level, text, st) == ParseUnary(text, st)
    ensures level == 2 ==> Parse(level, text, st) == ParseConditional(text, st)
    ensures level == 1 ==> Parse(level, text, st) == ParseAssignment(text, st)
    ensures level !in {1, 2, 14, 15} ==>
              var r := Parse(level + 1, text, st);
              Parse(level, text, st) == if r.Ok? then Loop(level, text, r.st, r.v) else r
  {
    hide ParsePrimary;
    hide ParseUnary;
    hide ParseConditional;
    hide ParseAssignment;
    hide Loop;
  }

  // ----- one step of printing and of running a tree -----

  lemma TokenCases(e: Expr)
    requires WellFormed(e)
    ensures Rank(e) < 15 ==> Tokens(e, 15) == ["("] + Tokens(e, 0) + [")"] && FirstTok(e, 15) == Ch('(')
    ensures Rank(e) != 14 ==> !IsUnary(FirstTok(e, 14))
    ensures e.Number? || e.Var? ==> |Tokens(e, 15)| == 1 && FirstTok(e, 15) == if e.Number? then Num else Str
    ensures e.Step? && e.prefix ==>
              Tokens(e, 15) == [if e.up then "++" else "--", e.name] && FirstTok(e, 15) == if e.up then PreInc else PreDec
    ensures e.Step? && !e.prefix ==> Tokens(e, 15) == [e.name, if e.up then "++" else "--"] && FirstTok(e, 15) == Str
    ensures e.Unary? ==> Tokens(e, 14) == [[e.op]] + Tokens(e.e, 14)
    ensures e.Binary? ==> Tokens(e, LevelOf(e.bop)) == BareTokens(e) && Rank(e) == LevelOf(e.bop)
    ensures e.Conditional? ==> Tokens(e, 2) == BareTokens(e)
    ensures e.Assign? || e.AssignOp? ==> Tokens(e, 1) == [e.name] + ([AssignSign(e)] + Tokens(e.e, 1))
    ensures e.Assign? || e.AssignOp? || e.Step? ==> IsName(e.name)
    ensures Rank(e) == 15 ==> e.Number? || e.Var? || e.Step?
  {
    hide Spell;
    hide NatToString;
    hide IsAssignOperator;
  }

  lemma RunCases(e: Expr, off: bool, first: int, store: Store)
    requires WellFormed(e)
    ensures Rank(e) < 15 ==> Run(e, 15, off, first, store) == Run(e, 0, off, FirstValue(e, 0, off, store), store)
    ensures e.Number? || e.Var? ==> Run(e, 15, off, first, store) == Val(first, store)
    ensures e.Step? ==>
              var was := if e.prefix then Seen(e.name, off, store) else first;
              var now := Stepped(e.up, was);
              Run(e, 15, off, first, store) == Val(if e.prefix then now else was, Store1(store, off, e.name, now))
    ensures e.Unary? ==>
              var r := Run(e.e, 14, off, FirstValue(e.e, 14, off, store), store);
              Run(e, 14, off, first, store) == if r.Fail? then r else Val(UnaryValue(Ch(e.op), r.v), r.store)
    ensures e.Binary? ==>
              var rl := Run(e.l, LeftLevel(e.bop), off, first, store);
              Run(e, LevelOf(e.bop), off, first, store) == if rl.Fail? then rl else RunRight(e.bop, e.r, off, rl.v, rl.store)
    ensures e.Conditional? ==>
              var rc := Run(e.c, 3, off, first, store);
              Run(e, 2, off, first, store) == if rc.Fail? then rc else RunBranches(e.a, e.b, off, rc.v, rc.store)
    ensures e.Assign? || e.AssignOp? ==>
              var r := Run(e.e, 1, off, FirstValue(e.e, 1, off, store), store);
              Run(e, 1, off, first, store) ==
                if e.Assign? then Updated(r, e.name, off)
                else if r.Fail? then r
                else Updated(OperateOff(e.bop, first, r.v, off, r.store), e.name, off)
  {
    hide FirstValue;
    hide Store1;
    hide Seen;
    hide Stepped;
    hide UnaryValue;
    hide OperateOff;
    hide Skips;
  }

  predicate IsLoop(level: nat) {
    level == 0 || 3 <= level <= 12
  }

  /** What is left to do at a level once its first operand is there. */
  function Continue(level: nat, text: string, st: State, v: int): Result
    requires level <= 15 && Within(text, st)
  {
    if IsLoop(level) then Loop(level, text, st, v) else Ok(st, v)
  }

  /** The levels from which an operand at the level may be followed by an operator. */
  function FollowLevel(level: nat): nat {
    if IsLoop(level) then level + 1 else level
  }

  lemma LoopEnds(level: nat, text: string, st: State, v: int)
    requires level <= 13 && level != 1 && level != 2 && Within(text, st) && LevelOf(st.curtok) != level
    ensures Loop(level, text, st, v) == Ok(st, v)
  {
    hide RightOperand;
    hide Apply;
  }

  /** e waits at token k: its first token has been read. */
  ghost predicate Ready(tokens: seq<string>, k: nat, tok: Token, st: State, off: bool, first: int, store: Store) {
    && Clean(tokens) && Within(Render(tokens), st) && Base(st, off, store)
    && TokenAt(tokens, k, tok, st, first) && InRange(first)
  }

  /** Parsing from st at the level yields run, and on success stops in s, behind token j. */
  ghost predicate ParsedTo(tokens: seq<string>, j: nat, level: nat, st: State, off: bool, run: Outcome, s: State)
    requires level <= 15 && Within(Render(tokens), st)
  {
    match run
    case Fail(error, store) => Parse(level, Render(tokens), st) == Err(error, Encode(store))
    case Val(v, store) =>
      && After(tokens, j, s, off, store) && s.noeval == st.noeval && s.depth == st.depth && Within(Render(tokens), s)
      && Parse(level, Render(tokens), st) == Continue(level, Render(tokens), s, v)
  }

  /** What was parsed one level down was parsed at this level. */
  lemma ParsedDown(tokens: seq<string>, j: nat, level: nat, st: State, off: bool, run: Outcome, s: State)
    requires level < 15 && Within(Render(tokens), st) && ParsedTo(tokens, j, level + 1, st, off, run, s)
    requires FollowOk(tokens, j, FollowLevel(level)) && (level == 14 ==> !IsUnary(st.curtok))
    ensures ParsedTo(tokens, j, level, st, off, run, s)
  {
    hide After;
    hide Encode;
    hide FollowOk;
    hide Parse;
    hide Loop;
    hide Render;
    hide Follower;
    var text := Render(tokens);
    ParseCases(level, text, st);
    if run.Val? {
      AfterBinds(tokens, j, s, off, run.store, FollowLevel(level));
      if IsLoop(level + 1) {
        LoopEnds(level + 1, text, s, run.v);
      }
      if !IsLoop(level) {
        StepDown(level, text, st, Ok(s, run.v));
      }
    } else if !IsLoop(level) {
      StepDown(level, text, st, Err(run.error, Encode(run.store)));
    }
  }

  lemma AfterBinds(tokens: seq<string>, j: nat, s: State, off: bool, store: Store, level: nat)
    requires After(tokens, j, s, off, store) && FollowOk(tokens, j, level)
    ensures BindLevel(s.curtok) < level && LevelOf(s.curtok) < level
  {
    hide Follower;
    hide FollowTok;
    if j == |tokens| {
      assert BindLevel(End) == -1;
    }
  }

  // ----- operands that are single tokens -----

  lemma FinishRead(tokens: seq<string>, j: nat, st: State, mid: State, off: bool, store: Store) returns (s: State)
    requires Clean(tokens) && EndOk(tokens, j) && Within(Render(tokens), mid) && mid.tp == Pos(tokens, j)
    requires Holds(mid, off, store) && NotStep(mid.curtok)
    ensures ReadTok(Render(tokens), mid) == Ok(s, 0) && After(tokens, j, s, off, store)
    ensures s.noeval == mid.noeval && s.depth == mid.depth && Within(Render(tokens), s)
    ensures s.lasttok == mid.curtok && s.tokstr == mid.tokstr
  {
    hide ReadTok;
    hide Render;
    hide Follower;
    s := ReadFollower(tokens, j, mid);
    assert Base(s, off, store);
    ReadWithin(tokens, j, s, off, store);
  }

  lemma ReadWithin(tokens: seq<string>, j: nat, s: State, off: bool, store: Store)
    requires After(tokens, j, s, off, store)
    ensures Within(Render(tokens), s)
  {
    if j < |tokens| {
      TokenText(tokens, j);
    }
  }

  lemma NumberParsed(tokens: seq<string>, k: nat, st: State, off: bool, first: int, store: Store) returns (s: State)
    requires Ready(tokens, k, Num, st, off, first, store) && EndOk(tokens, k + 1)
    ensures ParsedTo(tokens, k + 1, 15, st, off, Val(first, store), s)
  {
    hide ReadTok;
    hide Parse;
    hide Render;
    hide Clean;
    hide Follower;
    s := FinishRead(tokens, k + 1, st, st, off, store);
    ParseCases(15, Render(tokens), st);
  }

  lemma FollowerIsNoStep(t: string)
    requires Follower(t)
    ensures FollowTok(t) != PostInc && FollowTok(t) != PostDec && FollowTok(t) != PreInc && FollowTok(t) != PreDec
    ensures FollowTok(t) != Str && FollowTok(t) != Num && FollowTok(t) != End
  {
  }

  /** A name that is neither stepped nor loaded for assignment; its name stays in tokstr. */
  lemma VarParsed(tokens: seq<string>, k: nat, st: State, off: bool, first: int, store: Store) returns (s: State)
    requires Ready(tokens, k, Str, st, off, first, store) && k + 1 <= |tokens| && (k + 1 < |tokens| ==> Follower(tokens[k + 1]))
    ensures ParsedTo(tokens, k + 1, 15, st, off, Val(first, store), s)
    ensures s.lasttok == Str && s.tokstr == tokens[k]
  {
    hide ReadTok;
    hide Parse;
    hide Render;
    hide Clean;
    hide Follower;
    var text := Render(tokens);
    var peek := ReadFollower(tokens, k + 1, st.(tokstr := "", noeval := 1));
    if k + 1 < |tokens| {
      FollowerIsNoStep(tokens[k + 1]);
    }
    var mid := st.(assigntok := peek.assigntok);
    s := ReadFollower(tokens, k + 1, mid);
    assert Base(s, off, store);
    ReadWithin(tokens, k + 1, s, off, store);
    ParseCases(15, text, st);
  }

  /** An assignment made by the evaluator is the store's, unless evaluation is off. */
  lemma BindHolds(st: State, off: bool, store: Store, x: string, v: int)
    requires Holds(st, off, store) && InRange(v)
    ensures Holds(Bind(st, x, v), off, Store1(store, off, x, v))
  {
  }

  lemma PostfixParsed(tokens: seq<string>, k: nat, up: bool, st: State, off: bool, first: int, store: Store) returns (s: State)
    requires Ready(tokens, k, Str, st, off, first, store) && EndOk(tokens, k + 2)
    requires k + 1 < |tokens| && tokens[k + 1] == if up then "++" else "--"
    ensures ParsedTo(tokens, k + 2, 15, st, off, Val(first, Store1(store, off, tokens[k], Stepped(up, first))), s)
  {
    hide ReadTok;
    hide Parse;
    hide Render;
    hide Clean;
    hide Follower;
    hide Stepped;
    hide Encode;
    hide Store1;
    var text := Render(tokens);
    var peek := ReadStepAfterName(tokens, k + 1, st.(tokstr := "", noeval := 1));
    SteppedInRange(up, first);
    var named := peek.(tokstr := st.tokstr, noeval := st.noeval, lasttok := Str);
    BindHolds(named, off, store, tokens[k], Stepped(up, first));
    var mid := Bind(named, tokens[k], Stepped(up, first)).(curtok := Num);
    s := FinishRead(tokens, k + 2, mid, mid, off, Store1(store, off, tokens[k], Stepped(up, first)));
    ParseCases(15, text, st);
  }

  lemma SteppedInRange(up: bool, v: int)
    ensures InRange(Stepped(up, v))
  {
  }

  lemma PrefixParsed(tokens: seq<string>, k: nat, up: bool, st: State, off: bool, first: int, store: Store) returns (s: State)
    requires Ready(tokens, k, if up then PreInc else PreDec, st, off, first, store) && EndOk(tokens, k + 2)
    requires k + 1 < |tokens| && IsName(tokens[k + 1])
    ensures var now := Stepped(up, Seen(tokens[k + 1], off, store));
            ParsedTo(tokens, k + 2, 15, st, off, Val(now, Store1(store, off, tokens[k + 1], now)), s)
  {
    hide Loop;
    hide ParsePrimary;
    hide ParsePrefixStep;
    hide ParseName;
    hide BinaryValue;
    hide ReadTok;
    hide Parse;
    hide Render;
    hide Clean;
    hide Follower;
    hide Stepped;
    hide Encode;
    hide Store1;
    hide Seen;
    var text, x := Render(tokens), tokens[k + 1];
    var named := NameRead(tokens, k + 1, st.(lasttok := st.curtok), off, store);
    var now := Stepped(up, Seen(x, off, store));
    SteppedInRange(up, Seen(x, off, store));
    BindHolds(named, off, store, x, now);
    var mid := Bind(named, x, now).(curtok := Num);
    s := FinishRead(tokens, k + 2, mid, mid, off, Store1(store, off, x, now));
    PrefixSteps(text, up, st, named, s);
  }

  lemma PrefixSteps(text: string, up: bool, st: State, named: State, s: State)
    requires Within(text, st) && st.curtok == (if up then PreInc else PreDec) && Within(text, named)
    requires ReadTok(text, st.(lasttok := st.curtok)) == Ok(named, 0) && named.curtok == Str
    requires ReadTok(text, Bind(named, named.tokstr, Stepped(up, named.tokval)).(curtok := Num)) == Ok(s, 0)
    ensures Parse(15, text, st) == Ok(s, Stepped(up, named.tokval))
  {
    hide ReadTok;
    hide Stepped;
    hide Bind;
    hide Parse;
    ParseCases(15, text, st);
  }

  // ----- compound operands -----

  /** Shared by all proofs below: e is printed at token k and followed by a token the level does not touch. */
  ghost predicate Printed(tokens: seq<string>, k: nat, e: Expr, level: nat) {
    && WellFormed(e) && level <= 15 && Has(tokens, k, Tokens(e, level))
    && FollowOk(tokens, k + |Tokens(e, level)|, FollowLevel(level))
    && !AssignComes(tokens, k + |Tokens(e, level)|)
  }

  /** What follows a printed operand lets its first token be read. */
  lemma PrintedEnds(tokens: seq<string>, k: nat, e: Expr, level: nat)
    requires Printed(tokens, k, e, level)
    ensures EndOk(tokens, k + |Tokens(e, level)|)
  {
    hide Follower;
    hide FollowTok;
    hide Tokens;
    hide Has;
    hide Rank;
  }

  /** A closing parenthesis ends whatever stands before it. */
  lemma CloserEnds(tokens: seq<string>, m: nat)
    requires m < |tokens| && tokens[m] == ")"
    ensures Follower(tokens[m]) && FollowTok(tokens[m]) == Ch(')') && EndOk(tokens, m)
    ensures FollowOk(tokens, m, 1) && !AssignComes(tokens, m)
  {
    hide Follower;
    hide FollowTok;
    SingleFollows(')');
    assert ")" == [')'];
  }

  lemma LoadedIsReady(tokens: seq<string>, k: nat, e: Expr, level: nat, st: State, s: State, off: bool, store: Store)
    requires Clean(tokens) && WellFormed(e) && Loaded(tokens, k, e, level, st, s, off, store) && Ints(store)
    ensures Ready(tokens, k, FirstTok(e, level), s, off, FirstValue(e, level, off, store), store)
    ensures ReadTok(Render(tokens), st) == Ok(s, 0) && s.noeval == st.noeval && s.depth == st.depth
  {
    hide ReadTok;
    hide Render;
    hide FirstValue;
    hide FirstTok;
    FirstInRange(e, level, off, store);
  }

  /** An operator at token k has been read: an operand may come at token k + 1. */
  lemma OperandComes(tokens: seq<string>, k: nat, tok: Token, st: State, off: bool, store: Store)
    requires Clean(tokens) && Within(Render(tokens), st) && Base(st, off, store)
    requires k + 1 < |tokens| && st.tp == Pos(tokens, k + 1) && st.curtok == tok && tok != Str && NotStep(tok)
    ensures BeforeOperand(tokens, k + 1, st, off, store)
  {
  }

  lemma ParenFinish(tokens: seq<string>, m: nat, st: State, inner: State, last: State, off: bool, store: Store, run: Outcome)
    returns (s: State)
    requires Clean(tokens) && m < |tokens| && Follower(tokens[m]) && FollowTok(tokens[m]) == Ch(')') && EndOk(tokens, m + 1)
    requires Within(Render(tokens), st) && st.curtok == Ch('(') && ReadTok(Render(tokens), st) == Ok(inner, 0)
    requires inner.noeval == st.noeval && inner.depth == st.depth
    requires Within(Render(tokens), inner) && ParsedTo(tokens, m, 0, inner, off, run, last)
    ensures ParsedTo(tokens, m + 1, 15, st, off, run, s)
  {
    hide ReadTok;
    hide Parse;
    hide Loop;
    hide Render;
    hide Pos;
    hide Clean;
    hide Follower;
    hide Encode;
    var text := Render(tokens);
    s := st;
    var r := Parse(0, text, inner);
    ParseCases(15, text, st);
    assert r.Err? ==> Parse(15, text, st) == r;
    assert r.Ok? && Within(text, r.st) && r.st.curtok == Ch(')') && ReadTok(text, r.st).Ok? ==>
        Parse(15, text, st) == Ok(ReadTok(text, r.st).st, r.v);
    if run.Val? {
      LoopEnds(0, text, last, run.v);
      s := FinishRead(tokens, m + 1, last, last, off, run.store);
    }
  }

  /** What the recursion below establishes for e at token k. */
  ghost predicate Parses(tokens: seq<string>, k: nat, e: Expr, level: nat, st: State, off: bool, first: int, store: Store,
                         s: State)
    requires WellFormed(e) && level <= 15 && Within(Render(tokens), st)
  {
    ParsedTo(tokens, k + |Tokens(e, level)|, level, st, off, Run(e, level, off, first, store), s)
  }

  /** The evaluator's state when e has been loaded with evaluation as off says, and is then parsed with skip. */
  ghost predicate OperandDone(tokens: seq<string>, k: nat, e: Expr, level: nat, st: State, off: bool, skip: bool, store: Store,
                              s1: State, s2: State)
    requires WellFormed(e) && level <= 15 && Within(Render(tokens), st)
  {
    && ReadTok(Render(tokens), st) == Ok(s1, 0) && Within(Render(tokens), s1)
    && s1.noeval == st.noeval && s1.depth == st.depth && s1.curtok == FirstTok(e, level)
    && Parses(tokens, k, e, level, Raise(s1, skip), off || skip, FirstValue(e, level, off, store), store, s2)
  }

  /** Loading an operand and parsing it. */
  lemma Operand(tokens: seq<string>, k: nat, e: Expr, level: nat, st: State, off: bool, skip: bool, store: Store)
    returns (s1: State, s2: State)
    requires Clean(tokens) && BeforeOperand(tokens, k, st, off, store) && Printed(tokens, k, e, level)
    ensures OperandDone(tokens, k, e, level, st, off, skip, store, s1, s2)
    decreases e, if Rank(e) < level then 5 else 2
  {
    hide ReadTok;
    hide Render;
    hide Clean;
    hide Loaded;
    hide Has;
    hide Tokens;
    hide FirstTok;
    hide FirstValue;
    hide Parses;
    hide EndOk;
    hide FollowOk;
    hide AssignComes;
    hide Encode;
    hide Pos;
    hide WellFormed;
    PrintedEnds(tokens, k, e, level);
    s1 := LoadFirst(tokens, k, e, level, st, off, store);
    LoadedIsReady(tokens, k, e, level, st, s1, off, store);
    s2 := ParseTree(tokens, k, e, level, Raise(s1, skip), off || skip, FirstValue(e, level, off, store), store);
  }

  // ----- what Run does on each constructor -----

  /** The last operand of an expression is printed, and followed, as the expression is. */
  lemma LastIsPrinted(tokens: seq<string>, k: nat, e: Expr, level: nat, m: nat, last: Expr, inner: nat)
    requires Printed(tokens, k, e, level) && WellFormed(last) && inner <= 15 && FollowLevel(level) <= FollowLevel(inner)
    requires Has(tokens, m, Tokens(last, inner)) && m + |Tokens(last, inner)| == k + |Tokens(e, level)|
    ensures Printed(tokens, m, last, inner) && m < |tokens|
  {
    hide WellFormed;
    hide Tokens;
    hide AssignComes;
    hide Clean;
    hide Follower;
    hide FollowTok;
    TokensAreClean(last, inner);
  }

  lemma UnaryFinish(tokens: seq<string>, j: nat, st: State, s1: State, last: State, off: bool, run: Outcome)
    returns (s: State)
    requires Within(Render(tokens), st) && IsUnary(st.curtok) && ReadTok(Render(tokens), st) == Ok(s1, 0)
    requires Within(Render(tokens), s1) && s1.noeval == st.noeval && s1.depth == st.depth
    requires ParsedTo(tokens, j, 14, s1, off, run, last)
    ensures ParsedTo(tokens, j, 14, st, off, if run.Fail? then run else Val(UnaryValue(st.curtok, run.v), run.store), s)
  {
    hide Parse;
    hide ReadTok;
    hide Render;
    hide Encode;
    hide Pos;
    hide UnaryValue;
    hide Follower;
    var r := Parse(14, Render(tokens), s1);
    ParseCases(14, Render(tokens), st);
    assert Parse(14, Render(tokens), st) == if r.Err? then r else Ok(r.st.(lasttok := Num), UnaryValue(st.curtok, r.v));
    s := last.(lasttok := Num);
  }

  lemma UnaryParsed(tokens: seq<string>, k: nat, e: Expr, st: State, off: bool, first: int, store: Store) returns (s: State)
    requires Printed(tokens, k, e, 14) && e.Unary?
    requires Ready(tokens, k, Ch(e.op), st, off, first, store)
    ensures Parses(tokens, k, e, 14, st, off, first, store, s)
    decreases e, 0, 1
  {
    hide ReadTok;
    hide Parse;
    hide Render;
    hide Tokens;
    hide Run;
    hide FirstValue;
    hide FirstTok;
    hide Clean;
    hide Has;
    hide FollowOk;
    hide AssignComes;
    hide ParsedTo;
    hide Encode;
    hide Pos;
    assert Printed(tokens, k + 1, e.e, 14) && k + 1 + |Tokens(e.e, 14)| == k + |Tokens(Unary(e.op, e.e), 14)|
           && k + 1 < |tokens| by {
      TokenCases(e);
      HasParts(tokens, k, [[e.op]], Tokens(e.e, 14));
      LastIsPrinted(tokens, k, Unary(e.op, e.e), 14, k + 1, e.e, 14);
    }
    OperandComes(tokens, k, Ch(e.op), st, off, store);
    var s1, last := Operand(tokens, k + 1, e.e, 14, st, off, false, store);
    assert Run(e, 14, off, first, store) ==
             var r := Run(e.e, 14, off, FirstValue(e.e, 14, off, store), store);
             if r.Fail? then r else Val(UnaryValue(Ch(e.op), r.v), r.store) by {
      RunCases(e, off, first, store);
    }
    s := UnaryFinish(tokens, k + |Tokens(e, 14)|, st, s1, last, off, Run(e.e, 14, off, FirstValue(e.e, 14, off, store), store));
  }

  /** Where the parts of a parenthesised operand stand. */
  lemma ParenParts(tokens: seq<string>, k: nat, e: Expr)
    requires Printed(tokens, k, e, 15) && Rank(e) < 15
    ensures var m := k + 1 + |Tokens(e, 0)|;
            && Printed(tokens, k + 1, e, 0) && m + 1 == k + |Tokens(e, 15)|
            && m < |tokens| && Follower(tokens[m]) && FollowTok(tokens[m]) == Ch(')') && EndOk(tokens, m + 1)
  {
    hide Tokens;
    hide FirstTok;
    hide Has;
    hide FollowOk;
    hide AssignComes;
    hide Follower;
    hide FollowTok;
    hide Rank;
    hide EndOk;
    var m := k + 1 + |Tokens(e, 0)|;
    TokenCases(e);
    HasParts(tokens, k, ["("] + Tokens(e, 0), [")"]);
    HasParts(tokens, k, ["("], Tokens(e, 0));
    HasOne(tokens, m, ")");
    CloserEnds(tokens, m);
    PrintedEnds(tokens, k, e, 15);
  }

  lemma ParenParsed(tokens: seq<string>, k: nat, e: Expr, st: State, off: bool, first: int, store: Store) returns (s: State)
    requires Printed(tokens, k, e, 15) && Rank(e) < 15
    requires Ready(tokens, k, Ch('('), st, off, first, store)
    ensures Parses(tokens, k, e, 15, st, off, first, store, s)
    decreases e, 3
  {
    hide Holds;
    hide Within;
    hide FollowOk;
    hide Base;
    hide ReadTok;
    hide Parse;
    hide Render;
    hide Tokens;
    hide Run;
    hide FirstValue;
    hide FirstTok;
    hide Clean;
    hide EndOk;
    hide ParsedTo;
    hide Encode;
    hide Pos;
    hide Follower;
    hide FollowTok;
    hide Rank;
    ParenParts(tokens, k, e);
    OperandComes(tokens, k, Ch('('), st, off, store);
    var s1, last := Operand(tokens, k + 1, e, 0, st, off, false, store);
    assert Run(e, 15, off, first, store) == Run(e, 0, off, FirstValue(e, 0, off, store), store) by {
      RunCases(e, off, first, store);
    }
    s := ParenFinish(tokens, k + 1 + |Tokens(e, 0)|, st, s1, last, off, store, Run(e, 0, off, FirstValue(e, 0, off, store), store));
  }

  // ----- binary operators -----

  lemma RightUnfolds(inner: nat, text: string, st: State, skip: bool, s1: State, r: Result)
    requires inner <= 15 && Within(text, st) && st.curtok != End && ReadTok(text, Raise(st, skip)) == Ok(s1, 0)
    requires Within(text, s1) && Parse(inner, text, s1) == r && (skip && r.Ok? ==> r.st.noeval > 0)
    ensures RightOperand(inner, text, st, skip) == if r.Err? then r else Ok(Lower(r.st, skip), r.v)
  {
    hide Parse;
    hide ReadTok;
  }

  lemma LoopUnfolds(level: nat, text: string, st: State, a: int, r: Result)
    requires level <= 13 && level != 1 && level != 2 && Within(text, st) && LevelOf(st.curtok) == level
    requires st.curtok != End
    requires RightOperand(if level == 13 then 13 else level + 1, text, st, Skips(st.curtok, a)) == r
    requires r.Ok? ==> Within(text, r.st)
    ensures r.Err? ==> Loop(level, text, st, a) == r
    ensures r.Ok? ==>
              var done := Apply(st.curtok, a, r.v, r.st);
              Loop(level, text, st, a) == if done.Err? then done
                                          else if st.curtok == Power && r.v == 0 then Ok(done.st, 1)
                                          else Loop(level, text, done.st, done.v)
  {
    hide RightOperand;
    hide LevelOf;
    hide Apply;
  }

  lemma PowerOfZero(a: int)
    ensures BinaryValue(Power, a, 0) == 1
  {
  }

  /** The end of one turn of a loop: the operator is applied to what stands left and right of it. */
  lemma LoopTurn(level: nat, text: string, st: State, a: int, r: Result)
    requires level <= 13 && level != 1 && level != 2 && Within(text, st) && LevelOf(st.curtok) == level && st.curtok != End
    requires RightOperand(if level == 13 then 13 else level + 1, text, st, Skips(st.curtok, a)) == r
    requires r.Ok? ==> Within(text, r.st) && (level == 13 ==> LevelOf(r.st.curtok) != 13)
    ensures r.Err? ==> Loop(level, text, st, a) == r
    ensures r.Ok? ==>
              var done := Apply(st.curtok, a, r.v, r.st);
              Loop(level, text, st, a) == if done.Err? then done else Continue(level, text, done.st, done.v)
  {
    hide RightOperand;
    hide Loop;
    hide BinaryValue;
    hide LastAfter;
    LoopUnfolds(level, text, st, a, r);
    PowerOfZero(a);
    if r.Ok? && level == 13 && Apply(st.curtok, a, r.v, r.st).Ok? {
      var done := Apply(st.curtok, a, r.v, r.st);
      assert st.curtok == Power;
      LoopEnds(13, text, done.st, done.v);
    }
  }

  /** The evaluator's operator step is the tree's. */
  lemma ApplyIsOperate(op: Token, a: int, b: int, st: State, off: bool, store: Store)
    requires (st.noeval > 0 <==> off) && st.vars == Encode(store)
    ensures var run := OperateOff(op, a, b, off, store);
            Apply(op, a, b, st) == if run.Fail? then Err(run.error, Encode(store))
                                   else Ok(st.(lasttok := LastAfter(op, a, b, st.lasttok)), run.v)
    ensures OperateOff(op, a, b, off, store).store == store
  {
    hide BinaryValue;
    hide LastAfter;
    hide Encode;
  }

  lemma LowerAfter(tokens: seq<string>, j: nat, op: Token, a: int, b: int, st: State, off: bool, skip: bool, noeval: nat,
                   store: Store)
    requires After(tokens, j, st, off || skip, store) && (noeval > 0 <==> off) && st.noeval == if skip then noeval + 1 else noeval
    requires LevelOf(op) >= 0
    ensures After(tokens, j, Lower(st, skip).(lasttok := LastAfter(op, a, b, Lower(st, skip).lasttok)), off, store)
    ensures Lower(st, skip).noeval == noeval
  {
    hide Encode;
    hide Follower;
    hide FollowTok;
    hide Pos;
    hide Render;
  }

  lemma BinaryFinish(tokens: seq<string>, j: nat, level: nat, st: State, left: State, a: int, s1: State, last: State,
                     off: bool, run: Outcome)
    returns (s: State)
    requires level <= 13 && level != 1 && level != 2 && LevelOf(left.curtok) == level && FollowOk(tokens, j, FollowLevel(level))
    requires Within(Render(tokens), st) && Within(Render(tokens), left) && left.noeval == st.noeval && left.depth == st.depth
    requires Parse(level, Render(tokens), st) == Loop(level, Render(tokens), left, a) && (st.noeval > 0 <==> off)
    requires var skip := Skips(left.curtok, a);
             && ReadTok(Render(tokens), Raise(left, skip)) == Ok(s1, 0) && Within(Render(tokens), s1)
             && s1.noeval == Raise(left, skip).noeval && s1.depth == left.depth
             && ParsedTo(tokens, j, if level == 13 then 13 else level + 1, s1, off || skip, run, last)
    ensures ParsedTo(tokens, j, level, st, off, if run.Fail? then run else OperateOff(left.curtok, a, run.v, off, run.store), s)
  {
    hide Parse;
    hide Loop;
    hide ReadTok;
    hide RightOperand;
    hide Render;
    hide Encode;
    hide BinaryValue;
    hide LastAfter;
    hide Skips;
    hide OperateOff;
    hide Apply;
    var text, op, skip := Render(tokens), left.curtok, Skips(left.curtok, a);
    var inner := if level == 13 then 13 else level + 1;
    s := st;
    if run.Fail? {
      RightUnfolds(inner, text, left, skip, s1, Err(run.error, Encode(run.store)));
      LoopTurn(level, text, left, a, Err(run.error, Encode(run.store)));
    } else {
      AfterBinds(tokens, j, last, off || skip, run.store, FollowLevel(level));
      if IsLoop(inner) {
        LoopEnds(inner, text, last, run.v);
      }
      RightUnfolds(inner, text, left, skip, s1, Ok(last, run.v));
      var low := Lower(last, skip);
      LoopTurn(level, text, left, a, Ok(low, run.v));
      LowerAfter(tokens, j, op, a, run.v, last, off, skip, st.noeval, run.store);
      ApplyIsOperate(op, a, run.v, low, off, run.store);
      s := low.(lasttok := LastAfter(op, a, run.v, low.lasttok));
    }
  }

  /** What is left of a binary expression once its left operand is there. */
  function RunRight(op: Token, r: Expr, off: bool, a: int, store: Store): Outcome
    requires IsBinary(op) && WellFormed(r)
  {
    var off2 := off || Skips(op, a);
    var rr := Run(r, RightLevel(op), off2, FirstValue(r, RightLevel(op), off2, store), store);
    if rr.Fail? then rr else OperateOff(op, a, rr.v, off, rr.store)
  }

  /** Levels at which the grammar parses the operands of an operator. */
  lemma OperandLevels(op: Token)
    requires IsBinary(op)
    ensures var level := LevelOf(op);
            && level <= 13 && level != 1 && level != 2 && op != Ch('=') && op != End && op != Str && NotStep(op)
            && (level == 13 <==> op == Power) && RightLevel(op) == (if level == 13 then 13 else level + 1)
            && LeftLevel(op) == (if level == 13 then 14 else level) && level < FollowLevel(LeftLevel(op))
            && FollowLevel(level) <= FollowLevel(RightLevel(op))
  {
  }

  /** An operator that follows what stands left of it. */
  lemma OperatorFollows(tokens: seq<string>, m: nat, t: string, tok: Token, level: nat)
    requires m < |tokens| && tokens[m] == t && Follower(t) && FollowTok(t) == tok && tok != Ch('=') && BindLevel(tok) < level
    ensures FollowOk(tokens, m, level) && !AssignComes(tokens, m)
  {
    hide Follower;
    hide FollowTok;
    hide BindLevel;
  }

  lemma BinaryTokens(tokens: seq<string>, k: nat, op: Token, l: Expr, r: Expr)
    requires LevelOf(op) >= 0 && Printed(tokens, k, Binary(op, l, r), LevelOf(op))
    ensures var m := k + |Tokens(l, LeftLevel(op))|;
            && m < |tokens| && tokens[m] == Spell(op) && Follower(Spell(op)) && FollowTok(Spell(op)) == op
            && Printed(tokens, k, l, LeftLevel(op)) && m + 1 < |tokens| && Printed(tokens, m + 1, r, RightLevel(op))
            && m + 1 + |Tokens(r, RightLevel(op))| == k + |Tokens(Binary(op, l, r), LevelOf(op))|
  {
    hide Tokens;
    hide BareTokens;
    hide Has;
    hide Spell;
    hide Follower;
    hide FollowTok;
    hide LevelOf;
    hide LeftLevel;
    hide RightLevel;
    hide FollowLevel;
    hide FollowOk;
    hide AssignComes;
    assert Tokens(Binary(op, l, r), LevelOf(op)) == BareTokens(Binary(op, l, r)) by {
      TokenCases(Binary(op, l, r));
    }
    BinaryParts(tokens, k, op, l, r);
    BinaryFollows(op);
    OperandLevels(op);
    OperatorFollows(tokens, k + |Tokens(l, LeftLevel(op))|, Spell(op), op, FollowLevel(LeftLevel(op)));
    LastIsPrinted(tokens, k, Binary(op, l, r), LevelOf(op), k + |Tokens(l, LeftLevel(op))| + 1, r, RightLevel(op));
  }

  /** What was parsed left of an operator is the start of the operator's loop. */
  lemma LeftIsStart(tokens: seq<string>, m: nat, j: nat, op: Token, st: State, off: bool, run: Outcome, s: State)
    requires IsBinary(op) && Within(Render(tokens), st) && ParsedTo(tokens, m, LeftLevel(op), st, off, run, s)
    ensures run.Fail? ==> ParsedTo(tokens, j, LevelOf(op), st, off, run, s)
    ensures run.Val? ==> After(tokens, m, s, off, run.store) && Within(Render(tokens), s)
    ensures run.Val? ==> s.noeval == st.noeval && s.depth == st.depth && 0 <= LevelOf(op) <= 13 && LevelOf(op) != 1 && LevelOf(op) != 2
    ensures run.Val? ==> Parse(LevelOf(op), Render(tokens), st) == Loop(LevelOf(op), Render(tokens), s, run.v)
  {
    hide Parse;
    hide Loop;
    hide Render;
    hide Encode;
    hide After;
    OperandLevels(op);
    ParseCases(LevelOf(op), Render(tokens), st);
  }

  /** An operator behind token m has been read: its right operand may come. */
  lemma OperatorRead(tokens: seq<string>, m: nat, tok: Token, st: State, off: bool, skip: bool, store: Store)
    requires After(tokens, m, st, off, store) && m + 1 < |tokens| && Follower(tokens[m]) && FollowTok(tokens[m]) == tok
    requires Clean(tokens) && Within(Render(tokens), st) && tok != Str && NotStep(tok)
    ensures BeforeOperand(tokens, m + 1, Raise(st, skip), off || skip, store) && st.curtok == tok
  {
    hide Render;
    hide Encode;
    hide Pos;
    hide Follower;
    hide FollowTok;
    hide Clean;
  }

  /** The right operand and the operator itself, once the left operand is there. */
  lemma RightParsed(tokens: seq<string>, m: nat, op: Token, level: nat, r: Expr, st: State, off: bool, a: int, store: Store,
                    left: State)
    returns (s: State)
    requires level == LevelOf(op) && level <= 13 && level != 1 && level != 2
    requires IsBinary(op) && WellFormed(r) && m + 1 < |tokens| && Printed(tokens, m + 1, r, RightLevel(op)) && Clean(tokens)
    requires FollowOk(tokens, m + 1 + |Tokens(r, RightLevel(op))|, FollowLevel(level))
    requires Follower(tokens[m]) && FollowTok(tokens[m]) == op
    requires Within(Render(tokens), st) && (st.noeval > 0 <==> off)
    requires After(tokens, m, left, off, store) && left.noeval == st.noeval && left.depth == st.depth
             && Within(Render(tokens), left)
    requires Parse(level, Render(tokens), st) == Loop(level, Render(tokens), left, a)
    ensures ParsedTo(tokens, m + 1 + |Tokens(r, RightLevel(op))|, level, st, off, RunRight(op, r, off, a, store), s)
    decreases r, 6
  {
    hide Within;
    hide Printed;
    hide ReadTok;
    hide Parse;
    hide Loop;
    hide Render;
    hide Tokens;
    hide Run;
    hide FirstValue;
    hide FirstTok;
    hide Clean;
    hide Has;
    hide FollowOk;
    hide AssignComes;
    hide Follower;
    hide FollowTok;
    hide Encode;
    hide Pos;
    hide LevelOf;
    hide LeftLevel;
    hide RightLevel;
    hide OperateOff;
    hide BeforeOperand;
    hide Skips;
    hide After;
    hide WellFormed;
    hide FollowLevel;
    hide IsName;
    hide ParsedTo;
    OperandLevels(op);
    var skip := Skips(op, a);
    OperatorRead(tokens, m, op, left, off, skip, store);
    var j := m + 1 + |Tokens(r, RightLevel(op))|;
    var s1, last := Operand(tokens, m + 1, r, RightLevel(op), Raise(left, skip), off || skip, false, store);
    s := BinaryFinish(tokens, j, level, st, left, a, s1, last, off,
                      Run(r, RightLevel(op), off || skip, FirstValue(r, RightLevel(op), off || skip, store), store));
  }

  lemma BinaryParsed(tokens: seq<string>, k: nat, e: Expr, level: nat, st: State, off: bool, first: int, store: Store)
    returns (s: State)
    requires e.Binary? && WellFormed(e) && WellFormed(e.l) && WellFormed(e.r) && IsBinary(e.bop)
             && Printed(tokens, k, e, level) && level == Rank(e)
    requires Ready(tokens, k, FirstTok(e, level), st, off, first, store)
    ensures Parses(tokens, k, e, level, st, off, first, store, s)
    decreases e, 0, 1
  {
    hide ReadTok;
    hide Parse;
    hide Loop;
    hide Render;
    hide Tokens;
    hide Run;
    hide FirstValue;
    hide FirstTok;
    hide Clean;
    hide Has;
    hide FollowOk;
    hide AssignComes;
    hide Follower;
    hide FollowTok;
    hide Encode;
    hide Pos;
    hide LevelOf;
    hide LeftLevel;
    hide RightLevel;
    hide OperateOff;
    hide BeforeOperand;
    hide Skips;
    hide WellFormed;
    hide ParsedTo;
    hide After;
    hide RunRight;
    var op, m := e.bop, k + |Tokens(e.l, LeftLevel(e.bop))|;
    assert Tokens(e, level) == BareTokens(e) by {
      TokenCases(e);
    }
    OperandLevels(op);
    BinaryTokens(tokens, k, op, e.l, e.r);
    FirstOfLeft(e, level, off, store);
    var run := Run(e.l, LeftLevel(op), off, first, store);
    var left := ParseTree(tokens, k, e.l, LeftLevel(op), st, off, first, store);
    LeftIsStart(tokens, m, k + |Tokens(e, level)|, op, st, off, run, left);
    assert Run(e, level, off, first, store) == if run.Fail? then run else RunRight(op, e.r, off, run.v, run.store) by {
      RunCases(e, off, first, store);
    }
    s := left;
    if run.Val? {
      s := RightParsed(tokens, m, op, level, e.r, st, off, run.v, run.store, left);
    }
  }

  // ----- the conditional -----

  lemma {:induction false} FirstTokOpens(e: Expr, level: nat)
    requires WellFormed(e)
    ensures FirstTok(e, level) != End && FirstTok(e, level) != Ch(':')
    decreases e
  {
    if Rank(e) >= level {
      match e {
        case Binary(op, l, _) => FirstTokOpens(l, LeftLevel(op));
        case Conditional(c, _, _) => FirstTokOpens(c, 3);
        case _ =>
      }
    }
  }

  /** What is left of a conditional once its condition is there: both branches are gone through. */
  function RunBranches(a: Expr, b: Expr, off: bool, v: int, store: Store): Outcome
    requires WellFormed(a) && WellFormed(b)
  {
    var ra := Run(a, 0, off || v == 0, FirstValue(a, 0, off, store), store);
    if ra.Fail? then ra else RunElse(b, off, v, ra.v, ra.store)
  }

  function RunElse(b: Expr, off: bool, v: int, x: int, store: Store): Outcome
    requires WellFormed(b)
  {
    var rb := Run(b, 2, off || v != 0, FirstValue(b, 2, off, store), store);
    if rb.Fail? then rb else Val(if v != 0 then x else rb.v, rb.store)
  }

  /** The three parts of a conditional, from token k up to token j. */
  ghost predicate ConditionalPlaced(tokens: seq<string>, k: nat, c: Expr, a: Expr, b: Expr, j: nat)
    requires WellFormed(c) && WellFormed(a) && WellFormed(b)
  {
    var q := k + |Tokens(c, 3)|;
    var m := q + 1 + |Tokens(a, 0)|;
    && q < |tokens| && Follower(tokens[q]) && FollowTok(tokens[q]) == Ch('?') && Printed(tokens, k, c, 3)
    && m < |tokens| && Follower(tokens[m]) && FollowTok(tokens[m]) == Ch(':') && Printed(tokens, q + 1, a, 0)
    && m + 1 < |tokens| && Printed(tokens, m + 1, b, 2) && m + 1 + |Tokens(b, 2)| == j
  }

  lemma ConditionalTokens(tokens: seq<string>, k: nat, c: Expr, a: Expr, b: Expr)
    requires WellFormed(Conditional(c, a, b)) && WellFormed(c) && WellFormed(a) && WellFormed(b)
             && Printed(tokens, k, Conditional(c, a, b), 2)
    ensures ConditionalPlaced(tokens, k, c, a, b, k + |Tokens(Conditional(c, a, b), 2)|)
  {
    hide Tokens;
    hide BareTokens;
    hide Has;
    hide Follower;
    hide FollowTok;
    hide WellFormed;
    assert Tokens(Conditional(c, a, b), 2) == BareTokens(Conditional(c, a, b)) by {
      TokenCases(Conditional(c, a, b));
    }
    ConditionalParts(tokens, k, c, a, b);
    var q := k + |Tokens(c, 3)|;
    var m := q + 1 + |Tokens(a, 0)|;
    assert Follower(tokens[q]) && FollowTok(tokens[q]) == Ch('?') && Printed(tokens, k, c, 3)
           && Follower(tokens[m]) && FollowTok(tokens[m]) == Ch(':') && Printed(tokens, q + 1, a, 0) by {
      hide FollowOk;
      hide AssignComes;
      SingleFollows('?');
      SingleFollows(':');
      assert ":" == [':'] && "?" == ['?'];
      OperatorFollows(tokens, q, "?", Ch('?'), 4);
      OperatorFollows(tokens, m, ":", Ch(':'), 1);
    }
    LastIsPrinted(tokens, k, Conditional(c, a, b), 2, m + 1, b, 2);
  }

  lemma ConditionalUnfolds(text: string, st: State, s: State, c: int, s1: State, ra: Result, s3: State, rb: Result)
    requires Within(text, st) && Parse(3, text, st) == Ok(s, c) && s.curtok == Ch('?') && Within(text, s)
    requires ReadTok(text, s) == Ok(s1, 0) && Within(text, s1) && s1.curtok != End && s1.curtok != Ch(':')
    requires Branch(0, text, s1, c == 0) == ra
    requires ra.Ok? ==> Within(text, ra.st) && ra.st.curtok == Ch(':') && ReadTok(text, ra.st) == Ok(s3, 0)
    requires ra.Ok? ==> Within(text, s3) && s3.curtok != End && Branch(2, text, s3, c != 0) == rb
    ensures Parse(2, text, st) == if ra.Err? then ra else if rb.Err? then rb
                                  else Ok(rb.st.(lasttok := Cond), if c != 0 then ra.v else rb.v)
  {
    hide Parse;
    hide ReadTok;
    hide Branch;
    ParseCases(2, text, st);
  }

  lemma BranchUnfolds(level: nat, text: string, st: State, skip: bool, r: Result)
    requires level <= 15 && Within(text, st) && Parse(level, text, Raise(st, skip)) == r
    requires r.Ok? && skip ==> r.st.noeval > 0
    ensures Branch(level, text, st, skip) == if r.Err? then r else Ok(Lower(r.st, skip), r.v)
  {
    hide Parse;
  }

  /** A branch of a conditional, which ends before token j. */
  ghost predicate BranchDone(tokens: seq<string>, j: nat, level: nat, st: State, off: bool, skip: bool, run: Outcome, s: State)
    requires level <= 15 && Within(Render(tokens), st)
  {
    match run
    case Fail(error, store) => Branch(level, Render(tokens), st, skip) == Err(error, Encode(store))
    case Val(v, store) =>
      && Branch(level, Render(tokens), st, skip) == Ok(s, v)
      && After(tokens, j, s, off, store) && s.noeval == st.noeval && s.depth == st.depth && Within(Render(tokens), s)
  }

  lemma BranchParsed(tokens: seq<string>, j: nat, level: nat, st: State, off: bool, skip: bool, run: Outcome, last: State)
    returns (s: State)
    requires (level == 0 || level == 2) && Within(Render(tokens), st) && (st.noeval > 0 <==> off)
    requires ParsedTo(tokens, j, level, Raise(st, skip), off || skip, run, last) && FollowOk(tokens, j, 2)
    requires level == 0 ==> FollowOk(tokens, j, 0)
    ensures BranchDone(tokens, j, level, st, off, skip, run, s)
  {
    hide Parse;
    hide Loop;
    hide Branch;
    hide Render;
    hide Encode;
    hide Follower;
    hide FollowTok;
    hide FollowOk;
    var text := Render(tokens);
    s := st;
    BranchUnfolds(level, text, st, skip, Parse(level, text, Raise(st, skip)));
    if run.Val? {
      if level == 0 {
        AfterBinds(tokens, j, last, off || skip, run.store, 0);
        LoopEnds(0, text, last, run.v);
      }
      s := Lower(last, skip);
    }
  }

  lemma ConditionalFinish(tokens: seq<string>, m: nat, j: nat, st: State, s: State, v: int, s1: State, ra: Outcome, ga: State,
                          s3: State, rb: Outcome, gb: State, off: bool)
    returns (end: State)
    requires Within(Render(tokens), st) && Parse(3, Render(tokens), st) == Ok(s, v) && s.curtok == Ch('?')
             && Within(Render(tokens), s)
    requires ReadTok(Render(tokens), s) == Ok(s1, 0) && Within(Render(tokens), s1) && s1.curtok != End && s1.curtok != Ch(':')
    requires s1.noeval == st.noeval && s1.depth == st.depth && BranchDone(tokens, m, 0, s1, off, v == 0, ra, ga)
    requires ra.Val? ==> ga.curtok == Ch(':') && ReadTok(Render(tokens), ga) == Ok(s3, 0)
    requires ra.Val? ==> Within(Render(tokens), s3) && s3.curtok != End && s3.noeval == st.noeval && s3.depth == st.depth
    requires ra.Val? ==> BranchDone(tokens, j, 2, s3, off, v != 0, rb, gb)
    ensures ParsedTo(tokens, j, 2, st, off, if ra.Fail? then ra else if rb.Fail? then rb else Val(if v != 0 then ra.v else rb.v, rb.store), end)
  {
    hide ReadTok;
    hide Parse;
    hide Loop;
    hide Branch;
    hide Render;
    hide Encode;
    hide After;
    var text := Render(tokens);
    ConditionalUnfolds(text, st, s, v, s1, Branch(0, text, s1, v == 0), s3,
                       if ra.Val? then Branch(2, text, s3, v != 0) else Branch(0, text, s1, v == 0));
    end := gb.(lasttok := Cond);
    if ra.Val? && rb.Val? {
      AfterFacts(tokens, j, gb, off, rb.store);
    }
  }

  /** A branch is loaded, and then parsed with evaluation off when it is skipped. */
  lemma BranchOperand(tokens: seq<string>, m: nat, tok: Token, e: Expr, level: nat, st: State, off: bool, skip: bool,
                      store: Store)
    returns (s1: State, s: State)
    requires m + 1 < |tokens| && Follower(tokens[m]) && FollowTok(tokens[m]) == tok && tok != Str && NotStep(tok) && Clean(tokens)
    requires (level == 0 || level == 2) && Printed(tokens, m + 1, e, level)
    requires After(tokens, m, st, off, store) && Within(Render(tokens), st)
    requires FollowOk(tokens, m + 1 + |Tokens(e, level)|, level)
    ensures ReadTok(Render(tokens), st) == Ok(s1, 0) && Within(Render(tokens), s1) && s1.curtok != End && s1.curtok != Ch(':')
    ensures s1.noeval == st.noeval && s1.depth == st.depth && st.curtok == tok
    ensures BranchDone(tokens, m + 1 + |Tokens(e, level)|, level, s1, off, skip,
                       Run(e, level, off || skip, FirstValue(e, level, off, store), store), s)
    decreases e, 6
  {
    hide ReadTok;
    hide Parse;
    hide Loop;
    hide Branch;
    hide Render;
    hide Tokens;
    hide Run;
    hide FirstValue;
    hide FirstTok;
    hide Clean;
    hide Has;
    hide AssignComes;
    hide Follower;
    hide FollowTok;
    hide Encode;
    hide Pos;
    hide BeforeOperand;
    hide WellFormed;
    hide After;
    hide ParsedTo;
    hide FollowOk;
    hide BranchDone;
    OperatorRead(tokens, m, tok, st, off, false, store);
    FirstTokOpens(e, level);
    var last;
    s1, last := Operand(tokens, m + 1, e, level, st, off, skip, store);
    AfterFacts(tokens, m, st, off, store);
    LowerFollow(tokens, m + 1 + |Tokens(e, level)|, level);
    s := BranchParsed(tokens, m + 1 + |Tokens(e, level)|, level, s1, off, skip,
                      Run(e, level, off || skip, FirstValue(e, level, off, store), store), last);
  }

  lemma LowerFollow(tokens: seq<string>, j: nat, level: nat)
    requires FollowOk(tokens, j, level) && level <= 2
    ensures FollowOk(tokens, j, 2)
  {
    hide Follower;
    hide FollowTok;
    hide BindLevel;
  }

  lemma BranchesParsed(tokens: seq<string>, k: nat, c: Expr, a: Expr, b: Expr, j: nat, st: State, off: bool, v: int,
                       store: Store, s: State)
    returns (end: State)
    requires WellFormed(c) && WellFormed(a) && WellFormed(b) && ConditionalPlaced(tokens, k, c, a, b, j) && Clean(tokens)
    requires Within(Render(tokens), st) && Parse(3, Render(tokens), st) == Ok(s, v) && s.noeval == st.noeval
             && s.depth == st.depth
    requires After(tokens, k + |Tokens(c, 3)|, s, off, store) && Within(Render(tokens), s)
    ensures ParsedTo(tokens, j, 2, st, off, RunBranches(a, b, off, v, store), end)
    decreases Conditional(c, a, b), 0, 1
  {
    hide Within;
    hide Printed;
    hide ReadTok;
    hide Parse;
    hide Loop;
    hide Branch;
    hide Render;
    hide Tokens;
    hide Run;
    hide FirstValue;
    hide FirstTok;
    hide Clean;
    hide Has;
    hide AssignComes;
    hide Follower;
    hide FollowTok;
    hide Encode;
    hide Pos;
    hide BeforeOperand;
    hide WellFormed;
    hide After;
    hide ParsedTo;
    hide BranchDone;
    var q := k + |Tokens(c, 3)|;
    var m := q + 1 + |Tokens(a, 0)|;
    var ra := Run(a, 0, off || v == 0, FirstValue(a, 0, off, store), store);
    var s1, ga := BranchOperand(tokens, q, Ch('?'), a, 0, s, off, v == 0, store);
    var s3, gb, rb := s1, ga, ra;
    if ra.Val? {
      BranchAfter(tokens, m, 0, s1, off, v == 0, ra, ga);
      rb := Run(b, 2, off || v != 0, FirstValue(b, 2, off, ra.store), ra.store);
      PrintedFollow(tokens, m + 1, b);
      s3, gb := BranchOperand(tokens, m, Ch(':'), b, 2, ga, off, v != 0, ra.store);
    }
    end := ConditionalFinish(tokens, m, j, st, s, v, s1, ra, ga, s3, rb, gb, off);
  }

  lemma PrintedFollow(tokens: seq<string>, k: nat, e: Expr)
    requires Printed(tokens, k, e, 2)
    ensures FollowOk(tokens, k + |Tokens(e, 2)|, 2)
  {
    hide Tokens;
    hide WellFormed;
    hide Has;
    hide FollowOk;
    hide AssignComes;
  }

  lemma BranchAfter(tokens: seq<string>, j: nat, level: nat, st: State, off: bool, skip: bool, run: Outcome, s: State)
    requires level <= 15 && Within(Render(tokens), st) && BranchDone(tokens, j, level, st, off, skip, run, s) && run.Val?
    ensures After(tokens, j, s, off, run.store) && s.noeval == st.noeval && s.depth == st.depth && Within(Render(tokens), s)
  {
    hide Branch;
    hide After;
    hide Render;
    hide Encode;
  }

  lemma ConditionStarts(tokens: seq<string>, q: nat, j: nat, st: State, off: bool, run: Outcome, s: State)
    requires Within(Render(tokens), st) && ParsedTo(tokens, q, 3, st, off, run, s)
    requires q < |tokens| && Follower(tokens[q]) && FollowTok(tokens[q]) == Ch('?')
    ensures run.Fail? ==> ParsedTo(tokens, j, 2, st, off, run, s)
    ensures run.Val? ==> Parse(3, Render(tokens), st) == Ok(s, run.v) && s.noeval == st.noeval && s.depth == st.depth
    ensures run.Val? ==> After(tokens, q, s, off, run.store) && Within(Render(tokens), s)
  {
    hide ReadTok;
    hide Branch;
    hide Parse;
    hide Loop;
    hide Render;
    hide Encode;
    hide Follower;
    hide FollowTok;
    if run.Val? {
      LoopEnds(3, Render(tokens), s, run.v);
    }
    ParseCases(2, Render(tokens), st);
  }

  lemma ConditionalParsed(tokens: seq<string>, k: nat, e: Expr, st: State, off: bool, first: int, store: Store)
    returns (s: State)
    requires e.Conditional? && WellFormed(e) && WellFormed(e.c) && WellFormed(e.a) && WellFormed(e.b) && Printed(tokens, k, e, 2)
    requires Ready(tokens, k, FirstTok(e, 2), st, off, first, store)
    ensures Parses(tokens, k, e, 2, st, off, first, store, s)
    decreases e, 0, 2
  {
    hide ReadTok;
    hide Parse;
    hide Loop;
    hide Branch;
    hide Render;
    hide Tokens;
    hide Run;
    hide FirstValue;
    hide FirstTok;
    hide Clean;
    hide Has;
    hide AssignComes;
    hide Follower;
    hide FollowTok;
    hide Encode;
    hide Pos;
    hide BeforeOperand;
    hide WellFormed;
    hide ParsedTo;
    hide FollowOk;
    hide After;
    hide RunBranches;
    ConditionalTokens(tokens, k, e.c, e.a, e.b);
    FirstOfLeft(e, 2, off, store);
    var q, run := k + |Tokens(e.c, 3)|, Run(e.c, 3, off, first, store);
    var left := ParseTree(tokens, k, e.c, 3, st, off, first, store);
    ConditionStarts(tokens, q, k + |Tokens(e, 2)|, st, off, run, left);
    assert Run(e, 2, off, first, store) == if run.Fail? then run else RunBranches(e.a, e.b, off, run.v, run.store) by {
      RunCases(e, off, first, store);
    }
    s := left;
    if run.Val? {
      s := BranchesParsed(tokens, k, e.c, e.a, e.b, k + |Tokens(e, 2)|, st, off, run.v, run.store, left);
    }
  }

  // ----- assignments -----

  function Updated(r: Outcome, x: string, off: bool): Outcome {
    if r.Fail? then r else Val(r.v, Store1(r.store, off, x, r.v))
  }

  /** The operator of an assignment as it is printed. */
  function AssignSign(e: Expr): string
    requires e.Assign? || e.AssignOp?
  {
    if e.Assign? then "=" else Spell(e.bop) + "="
  }

  lemma AssignSignFollows(e: Expr)
    requires (e.Assign? || e.AssignOp?) && WellFormed(e)
    ensures Follower(AssignSign(e)) && FollowTok(AssignSign(e)) == (if e.Assign? then Ch('=') else OpAssign)
    ensures e.AssignOp? ==> IsAssignOperator(e.bop) && Lexeme(AssignSign(e), false, Str).assign == e.bop
  {
    hide Follower;
    hide Spell;
    hide IsAssignOperator;
    if e.Assign? {
      SingleFollows('=');
      assert "=" == ['='];
    } else {
      AssignFollows(e.bop);
    }
  }

  /** A name in front of an assignment operator comes back from expcond with the name still known. */
  lemma LeftName(tokens: seq<string>, k: nat, st: State, off: bool, first: int, store: Store) returns (s: State)
    requires Ready(tokens, k, Str, st, off, first, store) && k + 1 < |tokens| && Follower(tokens[k + 1])
    requires FollowTok(tokens[k + 1]) == Ch('=') || FollowTok(tokens[k + 1]) == OpAssign
    ensures After(tokens, k + 1, s, off, store) && s.noeval == st.noeval && s.depth == st.depth && Within(Render(tokens), s)
    ensures Parse(2, Render(tokens), st) == Ok(s, first) && s.lasttok == Str && s.tokstr == tokens[k]
    ensures s.curtok == FollowTok(tokens[k + 1])
  {
    hide ReadTok;
    hide Parse;
    hide Loop;
    hide Render;
    hide Clean;
    hide Encode;
    hide Pos;
    hide Follower;
    hide FollowTok;
    s := VarParsed(tokens, k, st, off, first, store);
    Descend(15, 2, Render(tokens), st, Ok(s, first));
  }

  lemma AssignUnfolds(text: string, st: State, s: State, was: int, s1: State, r: Result)
    requires Within(text, st) && Parse(2, text, st) == Ok(s, was) && Within(text, s)
    requires (s.curtok == Ch('=') || s.curtok == OpAssign) && s.lasttok == Str
    requires ReadTok(text, s) == Ok(s1, 0) && Within(text, s1) && Parse(1, text, s1) == r
    ensures var special := s.curtok == OpAssign;
            Parse(1, text, st) ==
              if r.Err? then r
              else if special && IsDivision(s.assigntok) && r.v == 0 && r.st.noeval == 0 then Err(DivisionByZero, r.st.vars)
              else if special && !IsAssignOperator(s.assigntok) then Err(Syntax, r.st.vars)
              else
                var value := if special then BinaryValue(s.assigntok, was, r.v) else r.v;
                Ok(Bind(r.st, s.tokstr, value).(tokstr := ""), value)
  {
    hide Parse;
    hide ReadTok;
    hide BinaryValue;
    hide IsAssignOperator;
    ParseCases(1, text, st);
  }

  lemma BindAfter(tokens: seq<string>, j: nat, st: State, off: bool, store: Store, x: string, v: int)
    requires After(tokens, j, st, off, store) && InRange(v)
    ensures After(tokens, j, Bind(st, x, v).(tokstr := ""), off, Store1(store, off, x, v))
  {
    hide Encode;
    hide Follower;
    hide FollowTok;
    hide Pos;
    hide Render;
    hide Store1;
    BindHolds(st, off, store, x, v);
  }

  lemma AssignFinish(tokens: seq<string>, j: nat, st: State, s: State, was: int, s1: State, last: State, off: bool, run: Outcome)
    returns (end: State)
    requires Within(Render(tokens), st) && Parse(2, Render(tokens), st) == Ok(s, was) && Within(Render(tokens), s)
    requires s.curtok == Ch('=') && s.lasttok == Str
    requires ReadTok(Render(tokens), s) == Ok(s1, 0) && Within(Render(tokens), s1) && s1.noeval == st.noeval
             && s1.depth == st.depth
    requires ParsedTo(tokens, j, 1, s1, off, run, last) && (run.Val? ==> InRange(run.v))
    ensures ParsedTo(tokens, j, 1, st, off, Updated(run, s.tokstr, off), end)
  {
    hide Parse;
    hide ReadTok;
    hide Render;
    hide Encode;
    hide BinaryValue;
    hide IsAssignOperator;
    hide Store1;
    hide After;
    AssignUnfolds(Render(tokens), st, s, was, s1, Parse(1, Render(tokens), s1));
    end := last;
    if run.Val? {
      BindAfter(tokens, j, last, off, run.store, s.tokstr, run.v);
      end := Bind(last, s.tokstr, run.v).(tokstr := "");
    }
  }

  lemma AssignOpFinish(tokens: seq<string>, j: nat, op: Token, st: State, s: State, was: int, s1: State, last: State,
                       off: bool, run: Outcome)
    returns (end: State)
    requires Within(Render(tokens), st) && Parse(2, Render(tokens), st) == Ok(s, was) && Within(Render(tokens), s)
    requires s.curtok == OpAssign && s.lasttok == Str && s.assigntok == op && IsAssignOperator(op)
    requires ReadTok(Render(tokens), s) == Ok(s1, 0) && Within(Render(tokens), s1) && s1.noeval == st.noeval
             && s1.depth == st.depth
    requires ParsedTo(tokens, j, 1, s1, off, run, last) && (run.Val? ==> InRange(run.v)) && (st.noeval > 0 <==> off)
    ensures ParsedTo(tokens, j, 1, st, off, if run.Fail? then run else Updated(OperateOff(op, was, run.v, off, run.store), s.tokstr, off), end)
  {
    hide Parse;
    hide ReadTok;
    hide Render;
    hide Encode;
    hide BinaryValue;
    hide Store1;
    hide After;
    AssignUnfolds(Render(tokens), st, s, was, s1, Parse(1, Render(tokens), s1));
    end := last;
    if run.Val? {
      var value := BinaryValue(op, was, run.v);
      OperatorInRange(op, was, run.v);
      BindAfter(tokens, j, last, off, run.store, s.tokstr, value);
      end := Bind(last, s.tokstr, value).(tokstr := "");
      AfterFacts(tokens, j, last, off, run.store);
    }
  }

  /** Where the parts of an assignment stand. */
  lemma AssignPlaced(tokens: seq<string>, k: nat, e: Expr)
    requires (e.Assign? || e.AssignOp?) && WellFormed(e) && WellFormed(e.e) && Printed(tokens, k, e, 1)
    ensures k + 2 < |tokens| && tokens[k] == e.name && tokens[k + 1] == AssignSign(e) && Printed(tokens, k + 2, e.e, 1)
    ensures k + 2 + |Tokens(e.e, 1)| == k + |Tokens(e, 1)|
  {
    hide FollowOk;
    hide AssignComes;
    hide Tokens;
    hide Has;
    hide WellFormed;
    hide AssignSign;
    assert Tokens(e, 1) == [e.name] + ([AssignSign(e)] + Tokens(e.e, 1)) by {
      TokenCases(e);
    }
    AssignParts(tokens, k, e.name, AssignSign(e), Tokens(e.e, 1));
    LastIsPrinted(tokens, k, e, 1, k + 2, e.e, 1);
  }

  lemma AssignParsed(tokens: seq<string>, k: nat, e: Expr, st: State, off: bool, first: int, store: Store) returns (s: State)
    requires (e.Assign? || e.AssignOp?) && WellFormed(e) && WellFormed(e.e) && Printed(tokens, k, e, 1)
    requires Ready(tokens, k, Str, st, off, first, store)
    ensures Parses(tokens, k, e, 1, st, off, first, store, s)
    decreases e, 0, 1
  {
    hide Within;
    hide Printed;
    hide ReadTok;
    hide Parse;
    hide Loop;
    hide Branch;
    hide Render;
    hide Tokens;
    hide Run;
    hide FirstValue;
    hide FirstTok;
    hide Clean;
    hide Has;
    hide AssignComes;
    hide Follower;
    hide FollowTok;
    hide Encode;
    hide Pos;
    hide BeforeOperand;
    hide WellFormed;
    hide After;
    hide ParsedTo;
    hide AssignSign;
    hide OperateOff;
    hide Updated;
    AssignPlaced(tokens, k, e);
    AssignSignFollows(e);
    var left := LeftName(tokens, k, st, off, first, store);
    var tok := if e.Assign? then Ch('=') else OpAssign;
    OperatorRead(tokens, k + 1, tok, left, off, false, store);
    var s1, last := Operand(tokens, k + 2, e.e, 1, left, off, false, store);
    var run := Run(e.e, 1, off, FirstValue(e.e, 1, off, store), store);
    SubRunInRange(e.e, 1, off, store);
    assert Run(e, 1, off, first, store) ==
             if e.Assign? then Updated(run, e.name, off)
             else if run.Fail? then run
             else Updated(OperateOff(e.bop, first, run.v, off, run.store), e.name, off) by {
      RunCases(e, off, first, store);
    }
    if e.Assign? {
      s := AssignFinish(tokens, k + |Tokens(e, 1)|, st, left, first, s1, last, off, run);
    } else {
      AfterFacts(tokens, k + 1, left, off, store);
      s := AssignOpFinish(tokens, k + |Tokens(e, 1)|, e.bop, st, left, first, s1, last, off, run);
    }
  }

  /** What the state behind an operand holds, however its last token was read. */
  lemma AfterFacts(tokens: seq<string>, j: nat, st: State, off: bool, store: Store)
    ensures After(tokens, j, st, off, store) ==> After(tokens, j, st.(lasttok := Cond), off, store)
    ensures After(tokens, j, st, off, store) ==> (st.noeval > 0 <==> off)
    ensures After(tokens, j, st, off, store) ==> st.vars == Encode(store)
    ensures After(tokens, j, st, off, store) && j < |tokens| && st.curtok == OpAssign ==>
              st.assigntok == Lexeme(tokens[j], false, Str).assign
  {
  }

  // ----- all constructors together -----

  lemma TwoTokens(tokens: seq<string>, k: nat, a: string, b: string)
    requires Has(tokens, k, [a, b])
    ensures k + 1 < |tokens| && tokens[k] == a && tokens[k + 1] == b
  {
    assert tokens[k..k + 2][0] == tokens[k] && tokens[k..k + 2][1] == tokens[k + 1];
  }

  lemma AtomParsed(tokens: seq<string>, k: nat, e: Expr, st: State, off: bool, first: int, store: Store) returns (s: State)
    requires Printed(tokens, k, e, 15) && Rank(e) == 15
    requires Ready(tokens, k, FirstTok(e, 15), st, off, first, store)
    ensures Parses(tokens, k, e, 15, st, off, first, store, s)
  {
    hide ReadTok;
    hide Parse;
    hide Loop;
    hide Branch;
    hide Render;
    hide Tokens;
    hide Run;
    hide FirstValue;
    hide FirstTok;
    hide Clean;
    hide Has;
    hide AssignComes;
    hide Follower;
    hide FollowTok;
    hide Encode;
    hide Pos;
    hide BeforeOperand;
    hide WellFormed;
    hide ParsedTo;
    hide Ready;
    hide FollowOk;
    hide Stepped;
    hide Seen;
    hide Store1;
    PrintedEnds(tokens, k, e, 15);
    TokenCases(e);
    RunCases(e, off, first, store);
    match e {
      case Number(_) => s := NumberParsed(tokens, k, st, off, first, store);
      case Var(_) => s := VarParsed(tokens, k, st, off, first, store);
      case Step(x, prefix, up) =>
        if prefix {
          TwoTokens(tokens, k, if up then "++" else "--", x);
          s := PrefixParsed(tokens, k, up, st, off, first, store);
        } else {
          TwoTokens(tokens, k, x, if up then "++" else "--");
          s := PostfixParsed(tokens, k, up, st, off, first, store);
        }
    }
  }

  /** Nothing changes from the rank of an expression down to a lower level. */
  lemma LevelDown(tokens: seq<string>, k: nat, e: Expr, level: nat, off: bool, first: int, store: Store)
    requires level < 15 && Printed(tokens, k, e, level) && (level < Rank(e) || Rank(e) < level)
    ensures Printed(tokens, k, e, level + 1) && Tokens(e, level + 1) == Tokens(e, level)
            && FirstTok(e, level + 1) == FirstTok(e, level)
    ensures Run(e, level + 1, off, first, store) == Run(e, level, off, first, store)
    ensures FollowOk(tokens, k + |Tokens(e, level)|, FollowLevel(level))
  {
    hide BareTokens;
    hide RunBare;
    hide Has;
    hide AssignComes;
    hide Follower;
    hide FollowTok;
    hide LevelOf;
    hide BindLevel;
    hide FirstValue;
  }

  /** An operator, assignment or conditional at its own level. */
  lemma NodeParsed(tokens: seq<string>, k: nat, e: Expr, level: nat, st: State, off: bool, first: int, store: Store)
    returns (s: State)
    requires Printed(tokens, k, e, level) && level == Rank(e) < 15
    requires Ready(tokens, k, FirstTok(e, level), st, off, first, store)
    ensures Parses(tokens, k, e, level, st, off, first, store, s)
    decreases e, 0, 3
  {
    hide ReadTok;
    hide Parse;
    hide Loop;
    hide Branch;
    hide Render;
    hide Tokens;
    hide Run;
    hide FirstValue;
    hide Clean;
    hide Has;
    hide AssignComes;
    hide Follower;
    hide FollowTok;
    hide Encode;
    hide Pos;
    hide BeforeOperand;
    hide Ready;
    hide Parses;
    hide FollowOk;
    match e {
      case Unary(_, _) => s := UnaryParsed(tokens, k, e, st, off, first, store);
      case Binary(_, _, _) => s := BinaryParsed(tokens, k, e, level, st, off, first, store);
      case Conditional(_, _, _) => s := ConditionalParsed(tokens, k, e, st, off, first, store);
      case Assign(_, _) => s := AssignParsed(tokens, k, e, st, off, first, store);
      case AssignOp(_, _, _) => s := AssignParsed(tokens, k, e, st, off, first, store);
    }
  }

  /** Main induction: a printed expression whose first token has been read is parsed to its end. */
  lemma {:induction false} ParseTree(tokens: seq<string>, k: nat, e: Expr, level: nat, st: State, off: bool, first: int,
                                     store: Store)
    returns (s: State)
    requires Printed(tokens, k, e, level)
    requires Ready(tokens, k, FirstTok(e, level), st, off, first, store)
    ensures Parses(tokens, k, e, level, st, off, first, store, s)
    decreases e, if Rank(e) < level then 4 else 1, 15 - level
  {
    hide ReadTok;
    hide Parse;
    hide Loop;
    hide Branch;
    hide Render;
    hide Tokens;
    hide Run;
    hide FirstValue;
    hide FirstTok;
    hide Clean;
    hide Has;
    hide AssignComes;
    hide Follower;
    hide FollowTok;
    hide Encode;
    hide Pos;
    hide BeforeOperand;
    hide WellFormed;
    hide ParsedTo;
    hide FollowOk;
    hide Rank;
    if Rank(e) != level && level < 15 {
      LevelDown(tokens, k, e, level, off, first, store);
      if level == 14 {
        TokenCases(e);
      }
      s := ParseTree(tokens, k, e, level + 1, st, off, first, store);
      ParsedDown(tokens, k + |Tokens(e, level)|, level, st, off, Run(e, level, off, first, store), s);
    } else if Rank(e) < level {
      TokenCases(e);
      s := ParenParsed(tokens, k, e, st, off, first, store);
    } else if level == 15 {
      s := AtomParsed(tokens, k, e, st, off, first, store);
    } else {
      s := NodeParsed(tokens, k, e, level, st, off, first, store);
    }
  }

}
