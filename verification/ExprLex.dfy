/** Lexing printed expressions: each readtok call yields the next printed token. */
module ExprLex {
  import opened Text
  import opened Int64
  import opened ExprNumbers
  import opened ExprModel
  import opened ExprTree

  /** Where the text of token k begins, its blank included. */
  function Pos(tokens: seq<string>, k: nat): nat
    requires k <= |tokens|
  {
    |Render(tokens[..k])|
  }

  lemma {:induction false} RenderAppend(a: seq<string>, b: seq<string>)
    ensures Render(a + b) == Render(a) + Render(b)
  {
    if a == [] {
      assert a + b == b;
    } else {
      RenderAppend(a[1..], b);
      assert (a + b)[0] == a[0] && (a + b)[1..] == a[1..] + b;
      assert Render(a + b) == " " + a[0] + Render(a[1..] + b);
      hide Render;
      assert " " + a[0] + (Render(a[1..]) + Render(b)) == " " + a[0] + Render(a[1..]) + Render(b);
    }
  }

  lemma RenderToken(t: string, after: seq<string>)
    ensures Render([t] + after) == " " + t + Render(after)
  {
    assert ([t] + after)[1..] == after;
  }

  lemma RenderAlone(t: string)
    ensures Render([t]) == " " + t
  {
    assert [t][1..] == [];
  }

  /** Token k stands in the rendered text after a blank, and a blank or the end follows it. */
  lemma TokenText(tokens: seq<string>, k: nat)
    requires k < |tokens|
    ensures var text, p := Render(tokens), Pos(tokens, k);
            && Pos(tokens, k + 1) == p + 1 + |tokens[k]| <= |text|
            && text[p] == ' ' && text[p + 1..p + 1 + |tokens[k]|] == tokens[k]
            && (At(text, p + 1 + |tokens[k]|) == ' ' || p + 1 + |tokens[k]| == |text|)
            && (k + 1 == |tokens| <==> p + 1 + |tokens[k]| == |text|)
  {
    hide Render;
    var before, t, after := tokens[..k], tokens[k], tokens[k + 1..];
    assert Render(tokens) == Render(before) + (" " + t + Render(after))
           && Render(tokens[..k + 1]) == Render(before) + (" " + t) by {
      assert tokens == before + ([t] + after) && tokens[..k + 1] == before + [t];
      RenderToken(t, after);
      RenderAlone(t);
      RenderAppend(before, [t] + after);
      RenderAppend(before, [t]);
    }
    RenderStart(tokens[k + 1..]);
  }

  lemma RenderStart(tokens: seq<string>)
    ensures if tokens == [] then Render(tokens) == "" else Render(tokens) != "" && Render(tokens)[0] == ' '
  {
  }

  lemma EndPos(tokens: seq<string>)
    ensures Pos(tokens, |tokens|) == |Render(tokens)|
  {
    assert tokens[..|tokens|] == tokens;
  }

  /** Skipping blanks from the end of one token reaches the next one. */
  lemma SkipToToken(tokens: seq<string>, k: nat)
    requires k < |tokens| && tokens[k] != "" && !IsBlank(tokens[k][0])
    ensures Pos(tokens, k) < |Render(tokens)| && Pos(tokens, k) + 1 < |Render(tokens)|
    ensures SkipBlanks(Render(tokens), Pos(tokens, k)) == Pos(tokens, k) + 1
    ensures Render(tokens)[Pos(tokens, k) + 1] == tokens[k][0]
  {
    TokenText(tokens, k);
    var text, p, t := Render(tokens), Pos(tokens, k), tokens[k];
    assert text[p + 1..p + 1 + |t|][0] == text[p + 1];
  }

  /** How readtok goes on once the blanks are skipped. */
  lemma ReadTokCases(text: string, st: State, i: nat)
    requires Within(text, st) && SkipBlanks(text, st.tp) == i
    ensures i == |text| ==> ReadTok(text, st) == Ok(st.(tp := i, lasttok := st.curtok, curtok := End), 0)
    ensures i < |text| && NameStart(text[i]) ==> ReadTok(text, st) == ReadName(text, i, st)
    ensures i < |text| && IsDigit(text[i]) ==> ReadTok(text, st) == ReadNumeral(text, i, st)
    ensures i < |text| && !NameStart(text[i]) && !IsDigit(text[i]) ==> ReadTok(text, st) == ReadOperator(text, i, st)
  {
    hide ReadName;
    hide ReadNumeral;
    hide ReadOperator;
    hide SkipBlanks;
  }

  // ----- operators -----

  function Padded(t: string, i: nat): char {
    if i < |t| then t[i] else ' '
  }

  /** The operator lexed from t when a blank follows it. */
  function Lexeme(t: string, nameFollows: bool, curtok: Token): Operator {
    OperatorAt(Padded(t, 0), Padded(t, 1), Padded(t, 2), nameFollows, curtok)
  }

  predicate OperatorStart(t: string) {
    t != "" && !NameStart(t[0]) && !IsDigit(t[0]) && !IsBlank(t[0])
  }

  predicate NameComes(tokens: seq<string>, k: nat) {
    k < |tokens| && tokens[k] != "" && NameStart(tokens[k][0])
  }

  lemma NameComesIsSeen(tokens: seq<string>, k: nat)
    requires k <= |tokens| && (k < |tokens| ==> tokens[k] != "" && !IsBlank(tokens[k][0]))
    ensures NameFollows(Render(tokens), Pos(tokens, k)) == NameComes(tokens, k)
  {
    if k < |tokens| {
      SkipToToken(tokens, k);
    } else {
      EndPos(tokens);
    }
  }

  lemma ReadOperatorToken(tokens: seq<string>, k: nat, st: State)
    requires k < |tokens| && OperatorStart(tokens[k])
    requires k + 1 < |tokens| ==> tokens[k + 1] != "" && !IsBlank(tokens[k + 1][0])
    requires Within(Render(tokens), st) && st.tp == Pos(tokens, k)
    requires var op := Lexeme(tokens[k], NameComes(tokens, k + 1), st.curtok); op.Operator? && op.len == |tokens[k]|
    ensures var op := Lexeme(tokens[k], NameComes(tokens, k + 1), st.curtok);
            ReadTok(Render(tokens), st)
            == Ok(st.(tp := Pos(tokens, k + 1), lasttok := st.curtok, curtok := op.tok,
                      assigntok := if op.tok == OpAssign then op.assign else st.assigntok), 0)
  {
    hide IsAlnum;
    hide Render;
    hide ReadTok;
    var text, i, t := Render(tokens), Pos(tokens, k) + 1, tokens[k];
    SkipToToken(tokens, k);
    TokenText(tokens, k);
    NameComesIsSeen(tokens, k + 1);
    var seen := OperatorAt(text[i], At(text, i + 1), At(text, i + 2), NameFollows(text, i + 2), st.curtok);
    assert seen == Lexeme(t, NameComes(tokens, k + 1), st.curtok);
    ReadTokCases(text, st, i);
  }

  // ----- numerals and the end -----

  lemma {:induction false} DigitsToEnd(text: string, i: nat, e: nat)
    requires i <= e <= |text| && (forall j :: i <= j < e ==> IsDigit(text[j]))
    requires e < |text| ==> !NumeralChar(text[e])
    ensures NumeralEnd(text, i) == e
    decreases e - i
  {
    if i < e {
      DigitsToEnd(text, i + 1, e);
    }
  }

  lemma NumeralExtent(text: string, i: nat, n: nat)
    requires i + |NatToString(n)| <= |text| && text[i..i + |NatToString(n)|] == NatToString(n)
    requires i + |NatToString(n)| < |text| ==> text[i + |NatToString(n)|] == ' '
    ensures i < |text| && IsDigit(text[i]) && NumeralEnd(text, i) == i + |NatToString(n)|
  {
    hide NatToString;
    var t := NatToString(n);
    forall j | i <= j < i + |t| ensures IsDigit(text[j]) {
      assert t[j - i] in t;
    }
    DigitsToEnd(text, i, i + |t|);
  }

  lemma ReadNumeralAt(text: string, st: State, i: nat, n: nat)
    requires Within(text, st) && SkipBlanks(text, st.tp) == i
    requires i + |NatToString(n)| <= |text| && text[i..i + |NatToString(n)|] == NatToString(n)
    requires i + |NatToString(n)| < |text| ==> text[i + |NatToString(n)|] == ' '
    ensures ReadTok(text, st)
         == Ok(st.(tp := i + |NatToString(n)|, tokval := Wrap(n), lasttok := st.curtok, curtok := Num), 0)
  {
    hide ReadTok;
    hide NatToString;
    hide NumeralEnd;
    hide SkipBlanks;
    hide Strlong;
    hide Wrap;
    NumeralExtent(text, i, n);
    DecimalNumber(n);
    ReadTokCases(text, st, i);
  }

  lemma ReadNumeralToken(tokens: seq<string>, k: nat, st: State, n: nat)
    requires k < |tokens| && tokens[k] == NatToString(n)
    requires Within(Render(tokens), st) && st.tp == Pos(tokens, k)
    ensures ReadTok(Render(tokens), st)
         == Ok(st.(tp := Pos(tokens, k + 1), tokval := Wrap(n), lasttok := st.curtok, curtok := Num), 0)
  {
    hide Render;
    hide NatToString;
    hide ReadTok;
    hide Wrap;
    hide SkipBlanks;
    assert NatToString(n)[0] in NatToString(n);
    SkipToToken(tokens, k);
    TokenText(tokens, k);
    ReadNumeralAt(Render(tokens), st, Pos(tokens, k) + 1, n);
  }

  // ----- names -----

  lemma {:induction false} NameToEnd(text: string, i: nat, e: nat)
    requires i <= e <= |text| && (forall j :: i <= j < e ==> NameChar(text[j]))
    requires e < |text| ==> !NameChar(text[e])
    ensures NameEnd(text, i) == e
    decreases e - i
  {
    if i < e {
      NameToEnd(text, i + 1, e);
    }
  }

  lemma NameExtent(tokens: seq<string>, k: nat)
    requires k < |tokens| && IsName(tokens[k])
    ensures var text, i := Render(tokens), Pos(tokens, k) + 1;
            && Pos(tokens, k) <= |text| && SkipBlanks(text, Pos(tokens, k)) == i < |text|
            && NameStart(text[i]) && NameEnd(text, i) == Pos(tokens, k + 1) <= |text|
            && text[i..Pos(tokens, k + 1)] == tokens[k]
  {
    hide Render;
    hide Pos;
    hide SkipBlanks;
    hide NameEnd;
    hide NameStart;
    hide NameChar;
    var text, i, t := Render(tokens), Pos(tokens, k) + 1, tokens[k];
    NameIsWhole(t);
    SkipToToken(tokens, k);
    TokenText(tokens, k);
    BlankIsNoNameChar();
    NameToEnd(text, i, i + |t|);
  }

  lemma NameIsWhole(t: string)
    requires IsName(t)
    ensures t != "" && NameStart(t[0]) && !IsBlank(t[0]) && forall i :: 0 <= i < |t| ==> NameChar(t[i])
  {
  }

  lemma BlankIsNoNameChar()
    ensures !NameChar(' ')
  {
  }
}
