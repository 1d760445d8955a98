/** The first token of a `?:` branch is read before evaluation is turned off: a skipped branch can assign. */
module ExprBranch {
  import opened Text
  import opened Int64
  import opened ExprNumbers
  import opened ExprModel
  import opened ExprTree
  import opened ExprLex
  import opened ExprDescent
  import opened ExprFollow
  import opened ExprCorrect

  lemma Positions(tokens: seq<string>)
    ensures Pos(tokens, 0) == 0 && Pos(tokens, |tokens|) == |Render(tokens)|
    ensures forall k :: 0 <= k <= |tokens| ==> Pos(tokens, k) <= |Render(tokens)|
  {
    hide Render;
    EndPos(tokens);
    RenderStart(tokens[..0]);
    forall k | 0 <= k < |tokens| ensures Pos(tokens, k) <= |Render(tokens)| {
      TokenText(tokens, k);
    }
  }

  lemma ReadSign(tokens: seq<string>, k: nat, c: char, st: State)
    requires Clean(tokens) && k < |tokens| && tokens[k] == [c] && c in "?:="
    requires Within(Render(tokens), st) && st.tp == Pos(tokens, k)
    ensures ReadTok(Render(tokens), st) == Ok(st.(tp := Pos(tokens, k + 1), lasttok := st.curtok, curtok := Ch(c)), 0)
  {
    hide Render;
    hide ReadTok;
    SingleFollows(c);
    assert Lexeme([c], false, Str) == Operator(Ch(c), 1, End);
    ReadOperatorToken(tokens, k, st);
  }

  /** Reading a name in front of a sign: the sign is peeked at, then the name is looked up, unless the sign is `=`. */
  lemma ReadNameBefore(tokens: seq<string>, k: nat, c: char, st: State, after: State, v: int)
    requires Clean(tokens) && k + 1 < |tokens| && IsName(tokens[k]) && tokens[k + 1] == [c] && c in "?:="
    requires Within(Render(tokens), st) && st.tp == Pos(tokens, k)
    requires st.lasttok != PreInc && st.lasttok != PreDec
    requires if c == '=' then after == st.(tokstr := tokens[k]) && v == 0
             else StrEval(tokens[k], st.(tokstr := tokens[k])) == Ok(after, v)
    ensures ReadTok(Render(tokens), st) == Ok(after.(tp := Pos(tokens, k + 1), tokval := v, lasttok := st.curtok, curtok := Str), 0)
  {
    hide Render;
    hide Pos;
    hide StrEval;
    hide ReadTok;
    hide SkipBlanks;
    hide NameEnd;
    hide IsName;
    NameEndsWithin(tokens, k);
    NameExtent(tokens, k);
    ReadSign(tokens, k + 1, c, st.(tp := Pos(tokens, k + 1), tokstr := "", noeval := 1, curtok := Str));
    ReadTokCases(Render(tokens), st, SkipBlanks(Render(tokens), st.tp));
  }

  /** A name in front of a sign, as an operand. */
  lemma NameBefore(tokens: seq<string>, k: nat, c: char, st: State)
    requires Clean(tokens) && k < |tokens| && tokens[k] == [c] && c in "?:="
    requires Within(Render(tokens), st) && st.tp == Pos(tokens, k) && st.curtok == Str
    ensures Parse(15, Render(tokens), st) == Ok(st.(tp := Pos(tokens, k + 1), lasttok := Str, curtok := Ch(c)), st.tokval)
  {
    hide Render;
    hide ReadTok;
    ReadSign(tokens, k, c, st.(tokstr := "", noeval := 1));
    ReadSign(tokens, k, c, st);
    assert Parse(15, Render(tokens), st) == ParseName(Render(tokens), st);
  }

  lemma NumeralBefore(tokens: seq<string>, k: nat, c: char, st: State)
    requires Clean(tokens) && k < |tokens| && tokens[k] == [c] && c in "?:="
    requires Within(Render(tokens), st) && st.tp == Pos(tokens, k) && st.curtok == Num
    ensures Parse(15, Render(tokens), st) == Ok(st.(tp := Pos(tokens, k + 1), lasttok := Num, curtok := Ch(c)), st.tokval)
  {
    hide Render;
    hide ReadTok;
    ReadSign(tokens, k, c, st);
    assert Parse(15, Render(tokens), st) == ParsePrimary(Render(tokens), st);
  }

  // ----- the text ` y = n` -----

  function AssignTokens(y: string, n: nat): seq<string> {
    [y, "=", NatToString(n)]
  }

  lemma AssignTokensAreClean(y: string, n: nat)
    requires IsName(y)
    ensures Clean(AssignTokens(y, n))
  {
    NumeralIsClean(n);
  }

  lemma AssignmentApplies(text: string, st: State, s: State, next: State, last: State, w: int)
    requires Within(text, st) && Within(text, s) && Within(text, next)
    requires Parse(2, text, st) == Ok(s, 0) && s.curtok == Ch('=') && s.lasttok == Str
    requires ReadTok(text, s) == Ok(next, 0) && Parse(1, text, next) == Ok(last, w)
    ensures Parse(1, text, st) == Ok(Bind(last, s.tokstr, w).(tokstr := ""), w)
  {
    hide ReadTok;
    hide Bind;
    assert Parse(1, text, st) == ParseAssignment(text, st);
  }

  lemma AssignTextEvaluates(y: string, n: nat, st: State)
    requires IsName(y) && n <= INTMAX_MAX && st.depth < MAX_EXPR_RECURSION_LEVEL && st.noeval == 0
    ensures Subexpr(Render(AssignTokens(y, n)), st) == Ok(st.(vars := st.vars[y := NatToString(n)]), n)
  {
    hide Render;
    hide ReadTok;
    hide Parse;
    hide Subexpr;
    hide NatToString;
    hide Wrap;
    var tokens := AssignTokens(y, n);
    var text := Render(tokens);
    AssignTokensAreClean(y, n);
    var entry := st.(tp := 0, curtok := End, lasttok := End, tokval := 0, tokstr := "", depth := st.depth + 1);
    Positions(tokens);
    var named := entry.(tp := Pos(tokens, 1), tokstr := y, curtok := Str);
    ReadNameBefore(tokens, 0, '=', entry, entry.(tokstr := y), 0);
    NameBefore(tokens, 1, '=', named);
    var equals := named.(tp := Pos(tokens, 2), lasttok := Str, curtok := Ch('='));
    Descend(15, 2, text, named, Ok(equals, 0));
    ReadNumeralToken(tokens, 2, equals, n);
    var value := equals.(tp := |text|, tokval := Wrap(n), lasttok := Ch('='), curtok := Num);
    LastNumeral(text, value, 1);
    var last := value.(lasttok := Num, curtok := End);
    AssignmentApplies(text, named, equals, value, last, Wrap(n));
    var bound := Bind(last, y, Wrap(n)).(tokstr := "");
    Descend(1, 0, text, named, Ok(bound, Wrap(n)));
    SkipToToken(tokens, 0);
    SubexprUnfolds(text, st, named, bound, Wrap(n));
  }

  // ----- the text ` 0 ? x : 1` -----

  function ChoiceTokens(x: string): seq<string> {
    ["0", "?", x, ":", "1"]
  }

  lemma ChoiceTokensAreClean(x: string)
    requires IsName(x)
    ensures Clean(ChoiceTokens(x))
  {
  }

  lemma DigitTexts()
    ensures NatToString(0) == "0" && NatToString(1) == "1"
  {
  }

  /** The value of a name whose text is an assignment. */
  lemma NameAssigns(x: string, y: string, n: nat, st: State)
    requires IsName(y) && n <= INTMAX_MAX && st.depth < MAX_EXPR_RECURSION_LEVEL && st.noeval == 0
    requires x in st.vars && st.vars[x] == Render(AssignTokens(y, n))
    ensures StrEval(x, st) == Ok(st.(vars := st.vars[y := NatToString(n)]), n)
  {
    hide Subexpr;
    hide Render;
    hide AssignTokens;
    AssignTextEvaluates(y, n, st);
  }

  lemma SkippedPart(text: string, st: State, s: State, v: int)
    requires Within(text, st) && Parse(0, text, st.(noeval := st.noeval + 1)) == Ok(s, v) && s.noeval > 0
    ensures Branch(0, text, st, true) == Ok(s.(noeval := s.noeval - 1), v)
  {
    hide Parse;
    hide Keeps;
  }

  lemma ChosenPart(text: string, st: State, s: State, v: int)
    requires Within(text, st) && Parse(2, text, st) == Ok(s, v)
    ensures Branch(2, text, st, false) == Ok(s, v)
  {
    hide Parse;
    hide Keeps;
  }

  /** The states on the way: 0 read, the question mark read, x read, the colon read, 1 read, the end. */
  datatype Walk = Walk(zero: State, asked: State, named: State, colon: State, one: State, last: State)

  function WalkOf(x: string, y: string, n: nat, entry: State): Walk {
    var tokens := ChoiceTokens(x);
    var zero := entry.(tp := Pos(tokens, 1), tokval := 0, lasttok := End, curtok := Num);
    var asked := zero.(tp := Pos(tokens, 2), lasttok := Num, curtok := Ch('?'));
    var named := asked.(tp := Pos(tokens, 3), tokstr := x, tokval := n, lasttok := Ch('?'), curtok := Str,
                        vars := entry.vars[y := NatToString(n)]);
    var colon := named.(tp := Pos(tokens, 4), lasttok := Str, curtok := Ch(':'));
    var one := colon.(tp := |Render(tokens)|, tokval := 1, lasttok := Ch(':'), curtok := Num);
    Walk(zero, asked, named, colon, one, one.(lasttok := Num, curtok := End))
  }

  predicate Opens(text: string, entry: State, w: Walk) {
    && Within(text, entry) && Within(text, w.zero) && Within(text, w.asked) && Within(text, w.named)
    && ReadTok(text, entry) == Ok(w.zero, 0) && Parse(3, text, w.zero) == Ok(w.asked, 0)
    && ReadTok(text, w.asked) == Ok(w.named, 0) && w.asked.curtok == Ch('?') && w.named.curtok == Str
  }

  predicate Closes(text: string, w: Walk, n: int) {
    && Within(text, w.named) && Within(text, w.colon) && Within(text, w.one) && Within(text, w.last)
    && Branch(0, text, w.named, true) == Ok(w.colon, n) && ReadTok(text, w.colon) == Ok(w.one, 0)
    && Branch(2, text, w.one, false) == Ok(w.last, 1)
    && w.colon.curtok == Ch(':') && w.one.curtok == Num && w.last.curtok == End
  }

  /** The evaluator before ` 0 ? x : 1`, with an assignment for the text of x. */
  predicate AtStart(x: string, y: string, n: nat, entry: State) {
    && IsName(x) && IsName(y) && n <= INTMAX_MAX && x in entry.vars && entry.vars[x] == Render(AssignTokens(y, n))
    && entry.tp == 0 && entry.curtok == End && entry.noeval == 0 && entry.depth < MAX_EXPR_RECURSION_LEVEL
  }

  /** Up to the first token of the branch: x has been looked up, with evaluation on. */
  lemma BranchIsReached(x: string, y: string, n: nat, entry: State)
    requires AtStart(x, y, n, entry)
    ensures Opens(Render(ChoiceTokens(x)), entry, WalkOf(x, y, n, entry))
  {
    hide Render;
    hide ReadTok;
    hide Parse;
    hide Subexpr;
    hide NatToString;
    hide AssignTokens;
    hide Wrap;
    hide StrEval;
    hide IsName;
    var tokens := ChoiceTokens(x);
    var text := Render(tokens);
    ChoiceTokensAreClean(x);
    DigitTexts();
    Positions(tokens);
    ReadNumeralToken(tokens, 0, entry, 0);
    var w := WalkOf(x, y, n, entry);
    NumeralBefore(tokens, 1, '?', w.zero);
    Descend(15, 3, text, w.zero, Ok(w.asked, 0));
    var before := w.asked.(tokstr := x);
    NameAssigns(x, y, n, before);
    ReadNameBefore(tokens, 2, ':', w.asked, before.(vars := entry.vars[y := NatToString(n)]), n);
  }

  /** The rest: x again, with evaluation off, and the other branch. */
  lemma BranchesEnd(x: string, y: string, n: nat, entry: State)
    requires AtStart(x, y, n, entry)
    ensures Closes(Render(ChoiceTokens(x)), WalkOf(x, y, n, entry), n)
    ensures WalkOf(x, y, n, entry).last.vars == entry.vars[y := NatToString(n)]
  {
    hide AssignTokens;
    hide Render;
    hide ReadTok;
    hide Parse;
    hide Branch;
    hide NatToString;
    hide Wrap;
    hide IsName;
    var tokens := ChoiceTokens(x);
    var text := Render(tokens);
    ChoiceTokensAreClean(x);
    DigitTexts();
    Positions(tokens);
    var w := WalkOf(x, y, n, entry);
    var off := w.named.(noeval := 1);
    NameBefore(tokens, 3, ':', off);
    var dark := w.colon.(noeval := 1);
    Descend(15, 0, text, off, Ok(dark, n));
    SkippedPart(text, w.named, dark, n);
    ReadNumeralToken(tokens, 4, w.colon, 1);
    LastNumeral(text, w.one, 2);
    ChosenPart(text, w.one, w.last, 1);
  }

  lemma ConditionalApplies(text: string, entry: State, w: Walk, n: int)
    requires Opens(text, entry, w) && Closes(text, w, n)
    ensures Within(text, w.zero) && Within(text, w.last) && w.last.curtok == End && ReadTok(text, entry) == Ok(w.zero, 0)
    ensures Parse(2, text, w.zero) == Ok(w.last.(lasttok := Cond), 1)
  {
    hide ReadTok;
    hide Branch;
    hide Keeps;
    hide Consumes;
    ParsesConditional(text, w.zero);
    hide Parse;
  }

  lemma ParsesConditional(text: string, st: State)
    requires Within(text, st)
    ensures Parse(2, text, st) == ParseConditional(text, st)
  {
    hide ParseConditional;
  }

  lemma ChoiceEvaluates(x: string, y: string, n: nat, vars: Vars)
    requires IsName(x) && IsName(y) && n <= INTMAX_MAX && x in vars && vars[x] == Render(AssignTokens(y, n))
    ensures var r := EvalExp(Render(ChoiceTokens(x)), vars);
            r.Ok? && r.v == 1 && r.st.vars == vars[y := NatToString(n)]
  {
    hide Render;
    hide ReadTok;
    hide Parse;
    hide Opens;
    hide Closes;
    hide WalkOf;
    hide Branch;
    hide ParseConditional;
    hide Subexpr;
    hide NatToString;
    hide AssignTokens;
    hide IsName;
    var text := Render(ChoiceTokens(x));
    var st := State(0, End, End, End, 0, "", 0, 0, vars);
    var w := WalkOf(x, y, n, st.(depth := 1));
    BranchIsReached(x, y, n, st.(depth := 1));
    BranchesEnd(x, y, n, st.(depth := 1));
    ConditionalApplies(text, st.(depth := 1), w, n);
    Descend(2, 0, text, w.zero, Ok(w.last.(lasttok := Cond), 1));
    ChoiceTokensAreClean(x);
    SkipToToken(ChoiceTokens(x), 0);
    Positions(ChoiceTokens(x));
    SubexprUnfolds(text, st, w.zero, w.last.(lasttok := Cond), 1);
  }

  function Choice(x: string): Expr {
    Conditional(Number(0), Var(x), Number(1))
  }

  /** `0 ? x : 1` assigns y when the text of x is ` y = n`, though the branch with x is skipped: evalexp has the value of
      the direct semantics, but leaves another store. */
  lemma SkippedBranchAssigns(x: string, y: string, n: nat, vars: Vars)
    requires IsName(x) && IsName(y) && n <= INTMAX_MAX && x in vars && vars[x] == Render(AssignTokens(y, n))
    ensures WellFormed(Choice(x))
    ensures var r := EvalExp(Print(Choice(x)), vars);
            r.Ok? && r.v == 1 && r.st.vars == vars[y := NatToString(n)]
  {
    hide Render;
    hide EvalExp;
    assert WellFormed(Choice(x)) && Print(Choice(x)) == Render(ChoiceTokens(x)) by {
      DigitTexts();
      assert WellFormed(Number(0)) && WellFormed(Var(x)) && WellFormed(Number(1));
      assert Tokens(Number(0), 3) == ["0"] && Tokens(Var(x), 0) == [x] && Tokens(Number(1), 2) == ["1"];
      assert Tokens(Choice(x), 0) == BareTokens(Choice(x)) == ChoiceTokens(x);
    }
    ChoiceEvaluates(x, y, n, vars);
  }

  // ----- when a skipped branch has an effect -----

  /** An `=` that is no `==` comes next. */
  predicate AssignFollows(text: string, i: nat)
    requires i <= |text|
  {
    var j := SkipBlanks(text, i);
    j < |text| && text[j] == '=' && At(text, j + 1) != '='
  }

  /** Reading the next token changes no variable: it is no name, or a name in front of `=`, which is not looked up, or a name
      whose text evaluates without changing one. */
  predicate ReadsInertly(text: string, s: State)
    requires Within(text, s)
  {
    var i := SkipBlanks(text, s.tp);
    i == |text| || !NameStart(text[i])
    || (var e := NameEnd(text, i);
        || (AssignFollows(text, e) && s.lasttok != PreInc && s.lasttok != PreDec)
        || LooksUpInertly(text, text[i..e], e, s))
  }

  /** The value of the name is found without changing a variable. */
  predicate LooksUpInertly(text: string, name: string, e: nat, s: State)
    requires Within(text, s) && e <= |text|
  {
    match ReadTok(text, s.(tp := e, tokstr := "", noeval := 1, curtok := Str))
    case Err(_, _) => true
    case Ok(peek, _) =>
      var r := StrEval(name, s.(tokstr := name, assigntok := peek.assigntok));
      r.Ok? ==> r.st.vars == s.vars
  }

  lemma PeekIsAssign(text: string, st: State, peek: State)
    requires Within(text, st) && st.noeval > 0 && st.curtok == Str && ReadTok(text, st).Ok? && peek == ReadTok(text, st).st
    ensures peek.curtok == Ch('=') <==> AssignFollows(text, st.tp)
  {
    hide ReadTok;
    hide SkipBlanks;
    ReadTokCases(text, st, SkipBlanks(text, st.tp));
  }

  lemma TokenEffect(text: string, s: State, s1: State, w: int)
    requires Within(text, s) && ReadTok(text, s) == Ok(s1, w)
    ensures s1.vars == s.vars <==> ReadsInertly(text, s)
  {
    hide ReadTok;
    hide SkipBlanks;
    hide StrEval;
    hide NameEnd;
    hide AssignFollows;
    var i := SkipBlanks(text, s.tp);
    ReadTokCases(text, s, i);
    if i < |text| && NameStart(text[i]) {
      var behind := s.(tp := NameEnd(text, i), tokstr := "", noeval := 1, curtok := Str);
      if ReadTok(text, behind).Ok? {
        PeekIsAssign(text, behind, ReadTok(text, behind).st);
      }
    }
  }

  function VarsOf(r: Result): Vars {
    if r.Ok? then r.st.vars else r.vars
  }

  /** A skipped branch that starts at s, whether it parses or fails, leaves the variables of s if and only if its first token
      is read without an effect. */
  lemma SkippedBranchEffect(level: nat, text: string, s: State, s1: State, w: int)
    requires level <= 15 && Within(text, s) && Within(text, s1) && ReadTok(text, s) == Ok(s1, w)
    ensures VarsOf(Branch(level, text, s1, true)) == s.vars <==> ReadsInertly(text, s)
  {
    hide ReadTok;
    hide Parse;
    hide ReadsInertly;
    TokenEffect(text, s, s1, w);
  }

  /** The steps of a conditional: s behind the condition, t behind the first branch, f behind the second; s1 and t1 behind the
      first tokens of the branches. */
  datatype Steps = Steps(s: State, s1: State, t: State, t1: State, f: State)

  /** A conditional that is there and parses. */
  predicate Chooses(text: string, st: State) {
    && Within(text, st) && Parse(3, text, st).Ok? && Parse(3, text, st).st.curtok == Ch('?') && ParseConditional(text, st).Ok?
  }

  function StepsOf(text: string, st: State): (w: Steps)
    requires Chooses(text, st)
    ensures w.f.(lasttok := Cond) == ParseConditional(text, st).st
    ensures Within(text, w.s) && Within(text, w.t)
  {
    var s, c := Parse(3, text, st).st, Parse(3, text, st).v;
    var s1 := ReadTok(text, s).st;
    var t := Branch(0, text, s1, c == 0).st;
    var t1 := ReadTok(text, t).st;
    Steps(s, s1, t, t1, Branch(2, text, t1, c != 0).st)
  }

  /** The branch of a conditional that is not chosen changes no variable if and only if its first token does not, for every
      text and every store, whichever branch it is. */
  lemma UnchosenBranch(text: string, st: State)
    requires Chooses(text, st)
    ensures var w := StepsOf(text, st);
            if Parse(3, text, st).v == 0 then w.t.vars == w.s.vars <==> ReadsInertly(text, w.s)
            else w.f.vars == w.t.vars <==> ReadsInertly(text, w.t)
  {
    hide ReadTok;
    hide Parse;
    hide Branch;
    hide ReadsInertly;
    var w := StepsOf(text, st);
    if Parse(3, text, st).v == 0 {
      SkippedBranchEffect(0, text, w.s, w.s1, ReadTok(text, w.s).v);
    } else {
      SkippedBranchEffect(2, text, w.t, w.t1, ReadTok(text, w.t).v);
    }
  }
}
