/** How the grammar levels pass a finished operand through, and how integer variables read back. */
module ExprDescent {
  import opened Text
  import opened Int64
  import opened ExprNumbers
  import opened ExprModel
  import opened ExprTree
  import opened ExprLex

  /** The lowest grammar level that consumes the token when it follows an operand; -1 for none. */
  function BindLevel(tok: Token): int {
    if tok == Ch('=') || tok == OpAssign then 1
    else if tok == Ch('?') then 2
    else LevelOf(tok)
  }

  /** A level above which nothing was consumed returns what the next level returned. */
  lemma StepDown(level: nat, text: string, st: State, r: Result)
    requires level < 15 && Within(text, st) && Parse(level + 1, text, st) == r
    requires r.Ok? ==> Within(text, r.st) && BindLevel(r.st.curtok) != level
    requires level == 14 ==> !IsUnary(st.curtok)
    ensures Parse(level, text, st) == r
  {
    hide Parse;
    if level == 14 {
      UnaryPasses(text, st);
    } else if level == 2 {
      ConditionalPasses(text, st, r);
    } else if level == 1 {
      AssignmentPasses(text, st, r);
    } else {
      LoopPasses(level, text, st, r);
    }
  }

  lemma UnaryPasses(text: string, st: State)
    requires Within(text, st) && !IsUnary(st.curtok)
    ensures Parse(14, text, st) == Parse(15, text, st)
  {
    hide ReadTok;
    hide ParsePrimary;
    assert Parse(14, text, st) == ParseUnary(text, st);
  }

  lemma ConditionalPasses(text: string, st: State, r: Result)
    requires Within(text, st) && Parse(3, text, st) == r && (r.Ok? ==> r.st.curtok != Ch('?'))
    ensures Parse(2, text, st) == r
  {
    hide ReadTok;
    hide Branch;
    assert Parse(2, text, st) == ParseConditional(text, st);
  }

  lemma AssignmentPasses(text: string, st: State, r: Result)
    requires Within(text, st) && Parse(2, text, st) == r && (r.Ok? ==> r.st.curtok != Ch('=') && r.st.curtok != OpAssign)
    ensures Parse(1, text, st) == r
  {
    hide ReadTok;
    assert Parse(1, text, st) == ParseAssignment(text, st);
  }

  lemma LoopPasses(level: nat, text: string, st: State, r: Result)
    requires level < 14 && level != 1 && level != 2 && Within(text, st) && Parse(level + 1, text, st) == r
    requires r.Ok? ==> Within(text, r.st) && LevelOf(r.st.curtok) != level
    ensures Parse(level, text, st) == r
  {
    hide ReadTok;
    hide RightOperand;
    hide Apply;
    hide ParsePrimary;
    hide ParseUnary;
    hide ParseConditional;
    hide ParseAssignment;
  }

  lemma {:induction false} Descend(top: nat, level: nat, text: string, st: State, r: Result)
    requires level <= top <= 15 && Within(text, st) && Parse(top, text, st) == r
    requires r.Ok? ==> Within(text, r.st) && BindLevel(r.st.curtok) < level
    requires top == 15 ==> !IsUnary(st.curtok)
    ensures Parse(level, text, st) == r
    decreases top - level
  {
    hide Parse;
    if level < top {
      StepDown(top - 1, text, st, r);
      Descend(top - 1, level, text, st, r);
    }
  }

  // ----- the text of an integer variable -----

  /** A lone numeral at the end of a text. */
  lemma LastNumeral(text: string, st: State, level: nat)
    requires Within(text, st) && st.tp == |text| && st.curtok == Num && level <= 15
    ensures Parse(level, text, st) == Ok(st.(lasttok := Num, curtok := End), st.tokval)
  {
    ReadTokCases(text, st, |text|);
    Descend(15, level, text, st, Ok(st.(lasttok := Num, curtok := End), st.tokval));
  }

  lemma SubexprUnfolds(text: string, st: State, first: State, last: State, v: int)
    requires st.depth < MAX_EXPR_RECURSION_LEVEL && SkipBlanks(text, 0) < |text|
    requires ReadTok(text, st.(tp := 0, curtok := End, lasttok := End, tokval := 0, tokstr := "", depth := st.depth + 1)) == Ok(first, 0)
    requires Parse(0, text, first) == Ok(last, v) && last.curtok == End
    ensures Subexpr(text, st) == Ok(st.(assigntok := last.assigntok, vars := last.vars), v)
  {
    hide IsBlank;
    hide Keeps;
    hide ReadTok;
    hide Parse;
    hide SkipBlanks;
  }

  /** `-` before a digit is an operator of its own. */
  lemma ReadMinus(text: string, st: State)
    requires Within(text, st) && st.tp == 0 && |text| > 1 && text[0] == '-' && IsDigit(text[1])
    ensures ReadTok(text, st) == Ok(st.(tp := 1, lasttok := st.curtok, curtok := Ch('-')), 0)
  {
    hide ReadTok;
    ReadTokCases(text, st, 0);
  }

  lemma MinusApplies(text: string, st: State, next: State, last: State, v: int)
    requires Within(text, st) && st.curtok == Ch('-') && Within(text, next)
    requires ReadTok(text, st) == Ok(next, 0) && Parse(14, text, next) == Ok(last, v)
    ensures Parse(14, text, st) == Ok(last.(lasttok := Num), Wrap(-v))
  {
    hide ReadTok;
    assert Parse(14, text, st) == ParseUnary(text, st);
  }

  lemma NegativeTextEvaluates(n: nat, st: State)
    requires st.depth < MAX_EXPR_RECURSION_LEVEL
    ensures Subexpr("-" + NatToString(n), st) == Ok(st, Wrap(-Wrap(n)))
  {
    hide ReadTok;
    hide Parse;
    hide Wrap;
    hide Subexpr;
    var text := "-" + NatToString(n);
    var entry := st.(tp := 0, curtok := End, lasttok := End, tokval := 0, tokstr := "", depth := st.depth + 1);
    assert text[1] == NatToString(n)[0] && NatToString(n)[0] in NatToString(n);
    ReadMinus(text, entry);
    var first := entry.(tp := 1, lasttok := End, curtok := Ch('-'));
    assert text[1..1 + |NatToString(n)|] == NatToString(n);
    ReadNumeralAt(text, first, 1, n);
    var second := first.(tp := |text|, tokval := Wrap(n), lasttok := Ch('-'), curtok := Num);
    LastNumeral(text, second, 14);
    var last := second.(lasttok := Num, curtok := End);
    MinusApplies(text, first, second, last, Wrap(n));
    Descend(14, 0, text, first, Ok(last, Wrap(-Wrap(n))));
    SubexprUnfolds(text, st, first, last, Wrap(-Wrap(n)));
  }

  /** The text itos writes for an integer evaluates to it, at any depth but the last, and changes nothing. */
  lemma IntTextEvaluates(v: int, st: State)
    requires InRange(v) && st.depth < MAX_EXPR_RECURSION_LEVEL
    ensures Subexpr(IntToString(v), st) == Ok(st, v)
  {
    hide Subexpr;
    hide NatToString;
    if v < 0 {
      NegativeTextEvaluates(-v, st);
    } else {
      assert Subexpr(NatToString(v), st) == Ok(st, Wrap(v)) by {
        hide ReadTok;
        hide Parse;
        hide Wrap;
        var text := NatToString(v);
        var entry := st.(tp := 0, curtok := End, lasttok := End, tokval := 0, tokstr := "", depth := st.depth + 1);
        assert text[0] in text && text[0..|text|] == text;
        ReadNumeralAt(text, entry, 0, v);
        var first := entry.(tp := |text|, tokval := Wrap(v), lasttok := End, curtok := Num);
        LastNumeral(text, first, 0);
        SubexprUnfolds(text, st, first, first.(lasttok := Num, curtok := End), Wrap(v));
      }
    }
  }
}
