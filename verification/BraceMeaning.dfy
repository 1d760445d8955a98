/** The meaning of brace words: trees of literals, quoted text, alternations and sequences, printed and expanded. */
module BraceMeaning {
  import opened Text
  import opened BraceScanner
  import opened BraceSequence
  import opened Braces

  /** Text that keeps its commas and braces: between quotes, or in the braces of a parameter. */
  datatype Stretch = Quoted(q: char, s: string) | Parameter(s: string)

  function StretchText(u: Stretch): (t: string)
    ensures |t| >= 2
  {
    match u
    case Quoted(q, s) => [q] + s + [q]
    case Parameter(s) => "${" + s + "}"
  }

  /** A word: literal characters, backslash-escaped characters, stretches of text that are kept together, alternations, and
      sequences such as {1..3}. */
  datatype Word =
    | End
    | Lit(c: char, rest: Word)
    | Esc(c: char, rest: Word)
    | Kept(u: Stretch, rest: Word)
    | Alt(list: Branches, rest: Word)
    | Seq(body: string, rest: Word)

  datatype Branches = Last(w: Word) | More(w: Word, rest: Branches)

  function Print(w: Word): string {
    match w
    case End => ""
    case Lit(c, rest) => [c] + Print(rest)
    case Esc(c, rest) => ['\\', c] + Print(rest)
    case Kept(u, rest) => StretchText(u) + Print(rest)
    case Alt(list, rest) => "{" + PrintBranches(list) + "}" + Print(rest)
    case Seq(body, rest) => "{" + body + "}" + Print(rest)
  }

  function PrintBranches(bs: Branches): string {
    match bs
    case Last(w) => Print(w)
    case More(w, rest) => Print(w) + "," + PrintBranches(rest)
  }

  /** The words a tree stands for: one choice for each alternation, leftmost choice varying slowest. */
  function Denote(w: Word): seq<string> {
    match w
    case End => [""]
    case Lit(c, rest) => Prefixed([c], Denote(rest))
    case Esc(c, rest) => Prefixed(['\\', c], Denote(rest))
    case Kept(u, rest) => Prefixed(StretchText(u), Denote(rest))
    case Alt(list, rest) => Product(DenoteBranches(list), Denote(rest))
    case Seq(body, rest) => Product(Terms(body), Denote(rest))
  }

  /** The words of a sequence. */
  function Terms(body: string): seq<string> {
    var words := ExpandSeqterm(body);
    if words.Some? then words.value else []
  }

  function DenoteBranches(bs: Branches): seq<string> {
    match bs
    case Last(w) => Denote(w)
    case More(w, rest) => Denote(w) + DenoteBranches(rest)
  }

  /** The literal, escaped character or stretch that a word begins with. */
  function Head(w: Word): string {
    if w.Lit? then [w.c] else if w.Esc? then ['\\', w.c] else if w.Kept? then StretchText(w.u) else ""
  }

  predicate Headed(w: Word) {
    w.Lit? || w.Esc? || w.Kept?
  }

  /** The text between the braces that a word begins with, and the words it stands for. */
  function Inner(w: Word): string {
    if w.Alt? then PrintBranches(w.list) else if w.Seq? then w.body else ""
  }

  function Choices(w: Word): seq<string> {
    if w.Alt? then DenoteBranches(w.list) else if w.Seq? then Terms(w.body) else []
  }

  /** A character that needs no quoting in a brace word. */
  predicate PlainChar(c: char) {
    c !in "{},\\$\"'`( \t\n\0"
  }

  predicate PlainText(s: string) {
    forall j :: 0 <= j < |s| ==> PlainChar(s[j])
  }

  /** The text can stand between two quotes q: it does not close them, where a backslash protects what follows it except between
      single quotes. */
  predicate Inside(q: char, s: string) {
    if s == "" then true
    else if s[0] == q then false
    else if s[0] == '\\' && q != '\'' then |s| >= 2 && Inside(q, s[2..])
    else Inside(q, s[1..])
  }

  /** No `$(`, `<(` or `>(` begins in the text. */
  predicate OpensNothing(s: string) {
    forall j :: 0 <= j < |s| && s[j] == '(' ==> j == 0 || s[j - 1] !in "$<>"
  }

  predicate Passable(u: Stretch) {
    match u
    case Quoted(q, s) => (q == '"' || q == '\'' || q == '`') && Inside(q, s) && OpensNothing(s)
    case Parameter(s) => forall j :: 0 <= j < |s| ==> PlainChar(s[j]) || s[j] == ','
  }

  /** Unescaped literals need no quoting, every alternation has at least two branches, and every sequence is one that mkseq
      does not refuse. */
  predicate Proper(w: Word) {
    match w
    case End => true
    case Lit(c, rest) => PlainChar(c) && Proper(rest)
    case Esc(c, rest) => Proper(rest)
    case Kept(u, rest) => Passable(u) && Proper(rest)
    case Alt(list, rest) => list.More? && ProperBranches(list) && Proper(rest)
    case Seq(body, rest) => PlainText(body) && ExpandSeqterm(body).Some? && Proper(rest)
  }

  predicate ProperBranches(bs: Branches) {
    match bs
    case Last(w) => Proper(w)
    case More(w, rest) => Proper(w) && ProperBranches(rest)
  }

  predicate Braced(w: Word) {
    w.Alt? || w.Seq?
  }

  /** A proper word, one step at a time. */
  lemma PrintCases(w: Word)
    requires Proper(w)
    ensures Headed(w) ==> Print(w) == Head(w) + Print(w.rest)
    ensures Braced(w) ==> Print(w) == "{" + Inner(w) + "}" + Print(w.rest)
    ensures w.End? ==> Print(w) == ""
    ensures !w.End? ==> Proper(w.rest) && (w.Lit? ==> PlainChar(w.c)) && (w.Kept? ==> Passable(w.u))
  {
    hide ExpandSeqterm;
    hide Passable;
    hide StretchText;
    hide PlainChar;
  }

  lemma WordCases(w: Word)
    ensures Braced(w) ==> Print(w) == "{" + Inner(w) + "}" + Print(w.rest)
    ensures Braced(w) ==> Denote(w) == Product(Choices(w), Denote(w.rest))
    ensures Headed(w) ==> Denote(w) == Prefixed(Head(w), Denote(w.rest))
    ensures Print(w) == "" ==> w.End? && Denote(w) == [""]
  {
    hide ExpandSeqterm;
    hide StretchText;
  }

  // ----- the scanner passes over printed words -----

  /** t reads u from index i on. */
  predicate Reads(t: string, i: nat, u: string) {
    i + |u| <= |t| && t[i..i + |u|] == u
  }

  lemma ReadsParts(t: string, i: nat, u: string, v: string)
    requires Reads(t, i, u + v)
    ensures Reads(t, i, u) && Reads(t, i + |u|, v)
  {
    assert t[i..i + |u|] == (u + v)[..|u|];
    assert t[i + |u|..i + |u + v|] == (u + v)[|u|..];
  }

  lemma ReadsChar(t: string, i: nat, u: string)
    requires Reads(t, i, u)
    ensures i + |u| <= |t| && (u != "" ==> t[i] == u[0])
  {
    assert u != "" ==> t[i..i + |u|][0] == t[i];
  }

  /** A scan outside quotes, with the escape latch off. */
  predicate Open(s: Scan) {
    s.quoted == NO_QUOTE && !s.pass
  }

  /** r is where a scan stands after passing a text of n characters that leaves the brace depth as it was. */
  predicate Passed(t: string, satisfy: char, s: Scan, n: nat, r: Scan) {
    && Open(r) && r.i == s.i + n <= |t| && r.level == s.level
    && (if satisfy == '}' then r.commas >= s.commas else r.commas == s.commas)
    && Gobble(t, satisfy, r) == Gobble(t, satisfy, s)
  }

  /** Passing one character that does not change the depth. */
  lemma PassChar(t: string, satisfy: char, s: Scan) returns (r: Scan)
    requires Open(s) && s.i < |t|
    requires PlainChar(t[s.i]) || (t[s.i] == ',' && (satisfy == '}' || s.level > 0))
    requires satisfy in "{},"
    ensures Passed(t, satisfy, s, 1, r)
    ensures r == Advance(t, satisfy, s)
    ensures satisfy == '}' && s.level == 0 && t[s.i] == ',' ==> r.commas > 0
  {
    r := Advance(t, satisfy, s);
  }

  /** Passing an escaped character, whatever it is. */
  lemma PassEscape(t: string, satisfy: char, s: Scan) returns (r: Scan)
    requires Open(s) && s.i + 1 < |t| && t[s.i] == '\\' && satisfy in "{},"
    ensures r == s.(i := s.i + 2) && Passed(t, satisfy, s, 2, r)
  {
    r := Advance(t, satisfy, s);
    assert Gobble(t, satisfy, r) == Gobble(t, satisfy, s);
    r := Advance(t, satisfy, r);
  }

  /** Passing a brace that does not stop the scan moves the depth by one. */
  lemma PassBrace(t: string, satisfy: char, s: Scan) returns (r: Scan)
    requires Open(s) && s.i < |t| && satisfy in "{},"
    requires (t[s.i] == '{' && satisfy != '{') || (t[s.i] == '}' && s.level > 0)
    ensures r == s.(i := s.i + 1, level := if t[s.i] == '{' then s.level + 1 else s.level - 1)
    ensures Gobble(t, satisfy, r) == Gobble(t, satisfy, s)
  {
    r := Advance(t, satisfy, s);
  }

  lemma {:induction false} PassWord(w: Word, t: string, satisfy: char, s: Scan) returns (r: Scan)
    requires Proper(w) && Open(s) && Reads(t, s.i, Print(w))
    requires satisfy == '}' || satisfy == ','
    ensures Passed(t, satisfy, s, |Print(w)|, r)
    decreases w, 1
  {
    hide Proper;
    hide Print;
    hide Inner;
    hide Reads;
    hide PlainChar;
    hide Gobble;
    PrintCases(w);
    if w.End? {
      ReadsChar(t, s.i, Print(w));
      r := s;
    } else if Braced(w) {
      ReadsParts(t, s.i, "{" + Inner(w) + "}", Print(w.rest));
      r := PassBraced(w, t, satisfy, s);
      r := PassWord(w.rest, t, satisfy, r);
    } else {
      ReadsParts(t, s.i, Head(w), Print(w.rest));
      r := PassHead(w, t, satisfy, s);
      r := PassWord(w.rest, t, satisfy, r);
    }
  }

  lemma PassHead(w: Word, t: string, satisfy: char, s: Scan) returns (r: Scan)
    requires Proper(w) && Headed(w) && Open(s) && Reads(t, s.i, Head(w)) && satisfy in "{},"
    ensures Passed(t, satisfy, s, |Head(w)|, r)
  {
    hide Proper;
    hide Reads;
    hide PlainChar;
    hide Gobble;
    hide Inside;
    hide OpensNothing;
    PrintCases(w);
    ReadsChar(t, s.i, Head(w));
    if w.Lit? {
      r := PassChar(t, satisfy, s);
    } else if w.Esc? {
      r := PassEscape(t, satisfy, s);
    } else if w.u.Quoted? {
      r := PassQuoted(w.u.q, w.u.s, t, satisfy, s);
    } else {
      r := PassParameter(w.u.s, t, satisfy, s);
    }
  }

  // ----- text that is passed whole -----

  /** From an open scan, text between quotes is passed whole: the depth and the commas stay as they are. */
  lemma PassQuoted(q: char, u: string, t: string, satisfy: char, s: Scan) returns (r: Scan)
    requires (q == '"' || q == '\'' || q == '`') && Inside(q, u) && satisfy in "{},"
    requires Open(s) && Reads(t, s.i, [q] + u + [q])
    ensures r == s.(i := s.i + |u| + 2) && r.i <= |t| && Gobble(t, satisfy, r) == Gobble(t, satisfy, s)
    ensures |StretchText(Quoted(q, u))| == |u| + 2 && Passed(t, satisfy, s, |u| + 2, r)
  {
    hide Gobble;
    hide Reads;
    hide Inside;
    assert [q] + u + [q] == [q] + (u + [q]);
    ReadsParts(t, s.i, [q], u + [q]);
    ReadsChar(t, s.i, [q]);
    ReadsChar(t, s.i + 1, u + [q]);
    GobbleStep(t, satisfy, s);
    PassInside(q, u, t, satisfy, s.(i := s.i + 1, quoted := q));
    r := s.(i := s.i + |u| + 2);
  }

  /** Inside the quotes, up to behind the closing one. */
  lemma {:induction false} PassInside(q: char, u: string, t: string, satisfy: char, s: Scan)
    requires (q == '"' || q == '\'' || q == '`') && Inside(q, u) && s.quoted == q && !s.pass
    requires Reads(t, s.i, u + [q])
    ensures s.i + |u| + 1 <= |t|
    ensures Gobble(t, satisfy, s) == Gobble(t, satisfy, s.(i := s.i + |u| + 1, quoted := NO_QUOTE))
    decreases |u|
  {
    hide Gobble;
    hide Reads;
    ReadsChar(t, s.i, u + [q]);
    GobbleStep(t, satisfy, s);
    if u != "" {
      assert u + [q] == [u[0]] + (u[1..] + [q]);
      ReadsParts(t, s.i, [u[0]], u[1..] + [q]);
      ReadsChar(t, s.i + 1, u[1..] + [q]);
      if u[0] == '\\' && q != '\'' {
        PassTwoInside(q, u, t, satisfy, s);
      } else if ParameterBrace(t, s) {
        assert t[s.i + 1] == (u[1..] + [q])[0];
        PassTwoInside(q, u, t, satisfy, s);
      } else {
        PassInside(q, u[1..], t, satisfy, s.(i := s.i + 1));
      }
    }
  }

  /** A character that sets the escape latch, and the one behind it. */
  lemma {:induction false} PassTwoInside(q: char, u: string, t: string, satisfy: char, s: Scan)
    requires (q == '"' || q == '`') && |u| >= 2 && Inside(q, u[2..]) && s.quoted == q && !s.pass
    requires Reads(t, s.i, u + [q]) && s.i < |t| && (Escapes(t[s.i], q) || ParameterBrace(t, s))
    ensures s.i + |u| + 1 <= |t|
    ensures Gobble(t, satisfy, s) == Gobble(t, satisfy, s.(i := s.i + |u| + 1, quoted := NO_QUOTE))
    decreases |u|, 0
  {
    hide Gobble;
    hide Reads;
    hide Inside;
    assert u + [q] == u[..2] + (u[2..] + [q]);
    ReadsChar(t, s.i, u + [q]);
    ReadsParts(t, s.i, u[..2], u[2..] + [q]);
    GobbleStep(t, satisfy, s);
    GobbleStep(t, satisfy, s.(i := s.i + 1, pass := true));
    PassInside(q, u[2..], t, satisfy, s.(i := s.i + 2));
  }

  /** From an open scan, a parameter in braces is passed whole: `${` opens a level that its closing brace ends. */
  lemma PassParameter(u: string, t: string, satisfy: char, s: Scan) returns (r: Scan)
    requires Passable(Parameter(u)) && satisfy in "{},"
    requires Open(s) && Reads(t, s.i, "${" + u + "}")
    ensures r == s.(i := s.i + |u| + 3) && r.i <= |t| && Gobble(t, satisfy, r) == Gobble(t, satisfy, s)
    ensures |StretchText(Parameter(u))| == |u| + 3 && Passed(t, satisfy, s, |u| + 3, r)
  {
    hide Gobble;
    hide Reads;
    hide Passable;
    assert "${" + u + "}" == "${" + (u + "}");
    ReadsParts(t, s.i, "${", u + "}");
    ReadsParts(t, s.i + 2, u, "}");
    assert "${" == "$" + "{";
    ReadsParts(t, s.i, "$", "{");
    ReadsChar(t, s.i, "$");
    ReadsChar(t, s.i + 1, "{");
    ReadsChar(t, s.i + 2 + |u|, "}");
    GobbleStep(t, satisfy, s);
    GobbleStep(t, satisfy, s.(i := s.i + 1, pass := true, level := s.level + 1));
    var inner := s.(i := s.i + 2, level := s.level + 1);
    PassParameterText(u, t, satisfy, inner, 0);
    r := PassBrace(t, satisfy, inner.(i := inner.i + |u|));
  }

  lemma {:induction false} PassParameterText(u: string, t: string, satisfy: char, s: Scan, j: nat)
    requires Passable(Parameter(u)) && satisfy in "{}," && j <= |u|
    requires Open(s) && s.level > 0 && Reads(t, s.i, u[j..])
    ensures s.i + |u| - j <= |t| && Gobble(t, satisfy, s.(i := s.i + |u| - j)) == Gobble(t, satisfy, s)
    decreases |u| - j
  {
    hide Gobble;
    hide Reads;
    hide PlainChar;
    ReadsChar(t, s.i, u[j..]);
    if j < |u| {
      assert u[j..] == [u[j]] + u[j + 1..];
      ReadsParts(t, s.i, [u[j]], u[j + 1..]);
      var r := PassChar(t, satisfy, s);
      assert r == s.(i := s.i + 1) by {
        DeepCharIsPassed(t, satisfy, s);
      }
      PassParameterText(u, t, satisfy, r, j + 1);
    }
  }

  /** Below the first level no comma and no dots are counted. */
  lemma DeepCharIsPassed(t: string, satisfy: char, s: Scan)
    requires Open(s) && s.i < |t| && s.level > 0 && (PlainChar(t[s.i]) || t[s.i] == ',') && satisfy in "{},"
    ensures Advance(t, satisfy, s) == s.(i := s.i + 1)
  {
  }

  lemma {:induction false} PassBraced(w: Word, t: string, satisfy: char, s: Scan) returns (r: Scan)
    requires Proper(w) && Braced(w) && Open(s) && Reads(t, s.i, "{" + Inner(w) + "}")
    requires satisfy == '}' || satisfy == ','
    ensures Passed(t, satisfy, s, |Inner(w)| + 2, r)
    decreases w, 0
  {
    hide Gobble;
    hide Reads;
    hide PlainText;
    hide ExpandSeqterm;
    ReadsParts(t, s.i, "{" + Inner(w), "}");
    ReadsParts(t, s.i, "{", Inner(w));
    ReadsChar(t, s.i, "{");
    ReadsChar(t, s.i + |Inner(w)| + 1, "}");
    r := PassBrace(t, satisfy, s);
    if w.Alt? {
      r := PassBranches(w.list, t, satisfy, r);
    } else {
      r := PassBody(w.body, t, satisfy, r, 0);
    }
    r := PassBrace(t, satisfy, r);
  }

  /** Passing the text of a sequence from its index j on; at depth 0 its dots are counted. */
  lemma {:induction false} PassBody(body: string, t: string, satisfy: char, s: Scan, j: nat) returns (r: Scan)
    requires j <= |body| && PlainText(body) && Open(s) && Reads(t, s.i, body[j..])
    requires satisfy == '}' || (satisfy == ',' && s.level > 0)
    ensures Passed(t, satisfy, s, |body| - j, r)
    ensures satisfy == '}' && s.level == 0 && FindDots(body, j).Some? && FindDots(body, j).value + 2 < |body| ==> r.commas > 0
    decreases |body| - j
  {
    hide Gobble;
    if j == |body| {
      return s;
    }
    assert body[j..] == [body[j]] + body[j + 1..];
    ReadsParts(t, s.i, [body[j]], body[j + 1..]);
    ReadsChar(t, s.i, [body[j]]);
    r := PassChar(t, satisfy, s);
    if satisfy == '}' && s.level == 0 && FindDots(body, j) == Some(j) && j + 2 < |body| {
      assert t[s.i + 1] == body[j..][1] && t[s.i + 2] == body[j..][2];
      assert r == Advance(t, satisfy, s);
    }
    r := PassBody(body, t, satisfy, r, j + 1);
  }

  /** Passing a list of branches; at depth 0 its commas are counted. */
  lemma {:induction false} PassBranches(bs: Branches, t: string, satisfy: char, s: Scan) returns (r: Scan)
    requires ProperBranches(bs) && Open(s) && Reads(t, s.i, PrintBranches(bs))
    requires satisfy == '}' || (satisfy == ',' && s.level > 0)
    ensures Passed(t, satisfy, s, |PrintBranches(bs)|, r)
    ensures bs.More? && satisfy == '}' && s.level == 0 ==> r.commas > 0
    decreases bs, 0
  {
    hide ExpandSeqterm;
    hide Gobble;
    match bs {
      case Last(w) => r := PassWord(w, t, satisfy, s);
      case More(w, rest) =>
        ReadsParts(t, s.i, Print(w) + ",", PrintBranches(rest));
        ReadsParts(t, s.i, Print(w), ",");
        r := PassWord(w, t, satisfy, s);
        ReadsChar(t, r.i, ",");
        r := PassChar(t, satisfy, r);
        r := PassBranches(rest, t, satisfy, r);
    }
  }

  // ----- a word is its leading literals and then nothing or a pair of braces -----

  /** The printed literals, escapes and stretches before the first brace that opens a word. */
  function Leading(w: Word): string {
    if Headed(w) then Head(w) + Leading(w.rest) else ""
  }

  function Tail(w: Word): (t: Word)
    ensures !Headed(t)
    ensures t == w || t < w
  {
    if Headed(w) then Tail(w.rest) else w
  }

  lemma PrefixedTwice(a: string, b: string, words: seq<string>)
    ensures Prefixed(a, Prefixed(b, words)) == Prefixed(a + b, words)
  {
    forall j | 0 <= j < |words| ensures Prefixed(a, Prefixed(b, words))[j] == Prefixed(a + b, words)[j] {
      assert a + (b + words[j]) == a + b + words[j];
    }
  }

  lemma {:induction false} SplitPrint(w: Word)
    requires Proper(w)
    ensures Print(w) == Leading(w) + Print(Tail(w)) && Proper(Tail(w))
  {
    hide Print;
    hide Proper;
    hide Head;
    PrintCases(w);
    if Headed(w) {
      SplitPrint(w.rest);
      assert Print(w) == Head(w) + (Leading(w.rest) + Print(Tail(w)));
    }
  }

  lemma {:induction false} SplitDenote(w: Word)
    ensures Denote(w) == Prefixed(Leading(w), Denote(Tail(w)))
  {
    hide Denote;
    hide Head;
    WordCases(w);
    if Headed(w) {
      SplitDenote(w.rest);
      PrefixedTwice(Head(w), Leading(w.rest), Denote(Tail(w)));
    } else {
      EmptyPrefix(Denote(w));
    }
  }

  /** A printed list of at least two branches does not start with a blank or a closing brace. */
  lemma ListStart(t: string, i: nat, bs: Branches)
    requires ProperBranches(bs) && bs.More? && Reads(t, i, PrintBranches(bs) + "}")
    ensures i < |t| && !BraceWhitespace(t[i]) && t[i] != '}'
  {
    hide ExpandSeqterm;
    ReadsParts(t, i, PrintBranches(bs), "}");
    var first := Print(bs.w) + ",";
    assert first[0] == PrintBranches(bs)[0] == t[i..i + |PrintBranches(bs)|][0] == t[i];
  }

  lemma CommaStep(t: string, i: nat)
    requires i < |t|
    ensures FirstComma(t, i) == if t[i] == ',' then i else if t[i] == '\\' then FirstComma(t, i + 2) else FirstComma(t, i + 1)
  {
  }

  /** The separator test looks past a word: it finds a comma in it or goes on behind it. */
  lemma {:induction false} SeparatorScan(w: Word, t: string, i: nat)
    requires Proper(w) && Reads(t, i, Print(w))
    requires FirstComma(t, i + |Print(w)|) < |t|
    ensures FirstComma(t, i) < |t|
    decreases w, 1
  {
    hide Proper;
    hide Print;
    hide Reads;
    hide FirstComma;
    PrintCases(w);
    if Braced(w) {
      ReadsParts(t, i, "{" + Inner(w) + "}", Print(w.rest));
      SeparatorScan(w.rest, t, i + |Inner(w)| + 2);
      SeparatorInBraces(w, t, i);
    } else if !w.End? {
      ReadsParts(t, i, Head(w), Print(w.rest));
      SeparatorScan(w.rest, t, i + |Head(w)|);
      SeparatorPassesHead(w, t, i);
    }
  }

  lemma SeparatorPassesHead(w: Word, t: string, i: nat)
    requires Proper(w) && Headed(w) && Reads(t, i, Head(w)) && FirstComma(t, i + |Head(w)|) < |t|
    ensures FirstComma(t, i) < |t|
  {
    hide Proper;
    hide Reads;
    hide FirstComma;
    hide Passable;
    PrintCases(w);
    ReadsChar(t, i, Head(w));
    CommaStep(t, i);
    if w.Kept? {
      var n := |Head(w)|;
      assert t[i + n - 1] == Head(w)[n - 1] by {
        LastRead(t, i, Head(w));
      }
      assert Head(w)[n - 1] != '\\' by {
        StretchEnds(w.u);
      }
      CommaBehind(t, i, i + n);
    }
  }

  lemma LastRead(t: string, i: nat, u: string)
    requires Reads(t, i, u) && u != ""
    ensures i + |u| <= |t| && t[i + |u| - 1] == u[|u| - 1]
  {
    assert t[i..i + |u|][|u| - 1] == t[i + |u| - 1];
  }

  lemma StretchEnds(u: Stretch)
    requires Passable(u)
    ensures StretchText(u)[|StretchText(u)| - 1] != '\\'
  {
  }

  /** A comma behind j is found from any i before it, unless another is found first, when no backslash stands in front of j. */
  lemma {:induction false} CommaBehind(t: string, i: nat, j: nat)
    requires i <= j <= |t| && FirstComma(t, j) < |t| && (i < j ==> t[j - 1] != '\\')
    ensures FirstComma(t, i) < |t|
    decreases j - i
  {
    hide FirstComma;
    if i < j {
      CommaStep(t, i);
      if t[i] == '\\' {
        CommaBehind(t, i + 2, j);
      } else if t[i] != ',' {
        CommaBehind(t, i + 1, j);
      }
    }
  }

  /** A comma behind braces is found unless one is found between them. */
  lemma SeparatorInBraces(w: Word, t: string, i: nat)
    requires Braced(w) && Proper(w) && Reads(t, i, "{" + Inner(w) + "}") && FirstComma(t, i + |Inner(w)| + 2) < |t|
    ensures FirstComma(t, i) < |t|
    decreases w, 0
  {
    hide FirstComma;
    hide Reads;
    hide PrintBranches;
    hide ExpandSeqterm;
    if w.Alt? {
      SeparatorInAlternation(w.list, t, i);
    } else {
      CommasPassSequence(w.body, t, i);
    }
  }

  lemma {:induction false} SeparatorInAlternation(list: Branches, t: string, i: nat)
    requires list.More? && ProperBranches(list) && Reads(t, i, "{" + PrintBranches(list) + "}")
    ensures FirstComma(t, i) < |t|
    decreases list, 2
  {
    hide FirstComma;
    hide ProperBranches;
    hide PrintBranches;
    ReadsParts(t, i, "{" + PrintBranches(list), "}");
    ReadsParts(t, i, "{", PrintBranches(list));
    ReadsChar(t, i, "{");
    CommaStep(t, i);
    SeparatorInList(list, t, i + 1);
  }

  lemma CommasPassSequence(body: string, t: string, i: nat)
    requires PlainText(body) && Reads(t, i, "{" + body + "}")
    ensures FirstComma(t, i) == FirstComma(t, i + |body| + 2)
  {
    hide FirstComma;
    hide PlainText;
    ReadsParts(t, i, "{" + body, "}");
    ReadsParts(t, i, "{", body);
    ReadsChar(t, i, "{");
    ReadsChar(t, i + 1 + |body|, "}");
    CommaStep(t, i);
    CommaStep(t, i + 1 + |body|);
    NoCommaInBody(body, t, i + 1, 0);
  }

  /** The separator test passes the text of a sequence. */
  lemma {:induction false} NoCommaInBody(body: string, t: string, i: nat, j: nat)
    requires j <= |body| && PlainText(body) && Reads(t, i, body)
    ensures FirstComma(t, i + j) == FirstComma(t, i + |body|)
    decreases |body| - j
  {
    hide FirstComma;
    if j < |body| {
      assert t[i + j] == t[i..i + |body|][j] == body[j];
      CommaStep(t, i + j);
      NoCommaInBody(body, t, i, j + 1);
    }
  }

  lemma {:induction false} SeparatorInList(list: Branches, t: string, i: nat)
    requires list.More? && ProperBranches(list) && Reads(t, i, PrintBranches(list))
    ensures FirstComma(t, i) < |t|
    decreases list, 1
  {
    hide ExpandSeqterm;
    hide FirstComma;
    ReadsParts(t, i, Print(list.w) + ",", PrintBranches(list.rest));
    ReadsParts(t, i, Print(list.w), ",");
    ReadsChar(t, i + |Print(list.w)|, ",");
    CommaStep(t, i + |Print(list.w)|);
    SeparatorScan(list.w, t, i);
  }

  // ----- where the expansion splits a printed word -----

  /** Searching for a brace passes the leading literals, escapes and stretches of a word. */
  lemma {:induction false} SearchPassesLeading(w: Word, t: string, i: nat)
    requires Proper(w) && Reads(t, i, Leading(w))
    ensures Gobble(t, '{', StartAt(i, '{')) == Gobble(t, '{', StartAt(i + |Leading(w)|, '{'))
    decreases w
  {
    hide Proper;
    hide Reads;
    hide Head;
    hide Gobble;
    if Headed(w) {
      PrintCases(w);
      ReadsParts(t, i, Head(w), Leading(w.rest));
      var r := PassHead(w, t, '{', StartAt(i, '{'));
      SearchPassesLeading(w.rest, t, i + |Head(w)|);
    }
  }

  /** The alternation after the leading literals is the brace word the expansion finds. */
  lemma AlternationFound(w: Word, list: Branches, t: string)
    requires Proper(w) && ProperBranches(list) && list.More?
    requires Reads(t, 0, Leading(w)) && Reads(t, |Leading(w)|, "{")
    requires Reads(t, |Leading(w)| + 1, PrintBranches(list) + "}")
    ensures FindBraceWord(t, 0) == |Leading(w)|
    ensures CloseOf(t, |Leading(w)|) == |Leading(w)| + 1 + |PrintBranches(list)| < |t|
  {
    hide ExpandSeqterm;
    hide Reads;
    hide Leading;
    hide Print;
    hide PrintBranches;
    hide Proper;
    hide ProperBranches;
    hide Gobble;
    hide FindBraceWord;
    var k := |Leading(w)|;
    SearchPassesLeading(w, t, 0);
    ListStart(t, k + 1, list);
    ReadsChar(t, k, "{");
    assert Gobble(t, '}', StartAt((k + 1), '}')) == (k + 1) + |PrintBranches(list)| < |t| by {
      ReadsParts(t, (k + 1), PrintBranches(list), "}");
      ReadsChar(t, (k + 1) + |PrintBranches(list)|, "}");
      var r := PassBranches(list, t, '}', StartAt((k + 1), '}'));
      GobbleStep(t, '}', r);
    }
    FoundBetween(t, k, k + 1 + |PrintBranches(list)|);
  }

  /** The sequence after the leading literals is the brace word the expansion finds. */
  lemma SequenceFound(w: Word, body: string, t: string)
    requires Proper(w) && PlainText(body) && Dotted(body)
    requires Reads(t, 0, Leading(w)) && Reads(t, |Leading(w)|, "{") && Reads(t, |Leading(w)| + 1, body + "}")
    ensures FindBraceWord(t, 0) == |Leading(w)| && CloseOf(t, |Leading(w)|) == |Leading(w)| + 1 + |body| < |t|
  {
    hide Reads;
    hide Leading;
    hide Proper;
    hide PlainText;
    hide Gobble;
    hide FindBraceWord;
    hide Dotted;
    var k := |Leading(w)|;
    SearchPassesLeading(w, t, 0);
    ReadsChar(t, k, "{");
    SequenceCloses(body, t, k);
    FoundBetween(t, k, k + 1 + |body|);
  }

  lemma SequenceCloses(body: string, t: string, k: nat)
    requires PlainText(body) && Dotted(body) && Reads(t, k + 1, body + "}")
    ensures k + 1 + |body| < |t| && !BraceWhitespace(t[k + 1]) && t[k + 1] != '}'
    ensures CloseOf(t, k) == k + 1 + |body|
  {
    hide Gobble;
    hide Reads;
    hide PlainText;
    hide FindDots;
    ReadsParts(t, k + 1, body, "}");
    ReadsChar(t, k + 1 + |body|, "}");
    ReadsChar(t, k + 1, body);
    FirstIsPlain(body);
    var r := PassBody(body, t, '}', StartAt(k + 1, '}'), 0);
    GobbleStep(t, '}', r);
  }

  lemma FirstIsPlain(body: string)
    requires PlainText(body) && body != ""
    ensures PlainChar(body[0])
  {
  }

  /** The text has dots in front of something, so its braces are closed when the scan gets to the end of it. */
  predicate Dotted(body: string) {
    body != "" && FindDots(body, 0).Some? && FindDots(body, 0).value + 2 < |body|
  }

  lemma SequenceIsDotted(body: string)
    requires ExpandSeqterm(body).Some?
    ensures Dotted(body)
  {
    hide Sequence;
    hide LegalNumber;
    hide RightSide;
    hide Increment;
  }

  /** An opening brace that is not ignored and whose word is closed is found when the search gets to it. */
  lemma FoundBetween(t: string, k: nat, close: nat)
    requires k + 1 < |t| && t[k] == '{' && !BraceWhitespace(t[k + 1]) && t[k + 1] != '}'
    requires Gobble(t, '{', StartAt(0, '{')) == Gobble(t, '{', StartAt(k, '{'))
    requires CloseOf(t, k) == close < |t|
    ensures FindBraceWord(t, 0) == k
  {
    GobbleStep(t, '{', StartAt(k, '{'));
  }

  /** Searching for a word, an open brace is passed over exactly when a blank or nothing stands in front of it and a blank,
      nothing or a closing brace behind it. */
  lemma LoneBrace(t: string, i: nat)
    requires i < |t| && t[i] == '{'
    ensures var lone := (i == 0 || t[i - 1] in " \t\n\0") && (i + 1 == |t| || t[i + 1] in " \t\n}\0");
            Gobble(t, '{', StartAt(i, '{')) == if lone then Gobble(t, '{', StartAt(i + 1, '{')) else i
  {
    hide Gobble;
    GobbleStep(t, '{', StartAt(i, '{'));
  }

  /** Looking for the end of a word, at depth 0, dots count as a separator exactly when no closing brace follows them. */
  lemma DotsCount(t: string, s: Scan)
    requires Open(s) && s.level == 0 && s.i + 1 < |t| && t[s.i] == '.' && t[s.i + 1] == '.'
    ensures var dotted := s.i + 2 == |t| || t[s.i + 2] != '}';
            Gobble(t, '}', s) == Gobble(t, '}', s.(i := s.i + 1, commas := s.commas + if dotted then 1 else 0))
  {
    hide Gobble;
    GobbleStep(t, '}', s);
  }

  lemma {:induction false} BranchesExpand(text: string, i: nat, bs: Branches)
    requires ProperBranches(bs) && Reads(text, i, PrintBranches(bs)) && i + |PrintBranches(bs)| == |text|
    ensures ExpandAmble(text, i) == DenoteBranches(bs)
    decreases bs, 0
  {
    hide ExpandSeqterm;
    hide Gobble;
    hide BraceExpand;
    hide ExpandAmble;
    hide Print;
    hide Denote;
    ExpansionMeaning(bs.w);
    if bs.Last? {
      var r := PassWord(bs.w, text, ',', StartAt(i, ','));
      LastPiece(text, i);
    } else {
      ReadsParts(text, i, Print(bs.w) + ",", PrintBranches(bs.rest));
      ReadsParts(text, i, Print(bs.w), ",");
      ReadsChar(text, i + |Print(bs.w)|, ",");
      var r := PassWord(bs.w, text, ',', StartAt(i, ','));
      GobbleStep(text, ',', r);
      FirstPiece(text, i, r.i);
      BranchesExpand(text, r.i + 1, bs.rest);
    }
  }

  lemma LastPiece(text: string, i: nat)
    requires i <= |text| && Gobble(text, ',', StartAt(i, ',')) == |text|
    ensures ExpandAmble(text, i) == BraceExpand(text[i..|text|])
  {
    hide Gobble;
    hide BraceExpand;
  }

  lemma FirstPiece(text: string, i: nat, end: nat)
    requires i <= end < |text| && Gobble(text, ',', StartAt(i, ',')) == end
    ensures ExpandAmble(text, i) == BraceExpand(text[i..end]) + ExpandAmble(text, end + 1)
  {
    hide Gobble;
    hide BraceExpand;
  }

  /** The braces that a word begins with expand to its choices. */
  lemma {:induction false} BracesExpand(w: Word)
    requires Proper(w) && (w.Alt? || w.Seq?)
    ensures ExpandBraced(Inner(w)) == Some(Choices(w))
    decreases w, 0
  {
    hide Print;
    hide PrintBranches;
    hide DenoteBranches;
    hide FirstComma;
    hide ExpandSeqterm;
    hide ExpandAmble;
    var amble := Inner(w);
    assert Reads(amble, 0, amble);
    if w.Alt? {
      SeparatorInList(w.list, amble, 0);
      BranchesExpand(amble, 0, w.list);
    } else {
      NoCommaInBody(w.body, amble, 0, 0);
      NoCommaAtEnd(amble);
    }
  }

  lemma NoCommaAtEnd(t: string)
    ensures FirstComma(t, |t|) == |t|
  {
  }

  /** brace_expand of a printed tree is the product the tree denotes, in left-to-right order. */
  lemma {:induction false} ExpansionMeaning(w: Word)
    requires Proper(w)
    ensures BraceExpand(Print(w)) == Denote(w)
    decreases w, 1
  {
    hide Print;
    hide Proper;
    hide Leading;
    hide Denote;
    hide BraceExpand;
    hide ExpandBraced;
    SplitPrint(w);
    SplitDenote(w);
    var tail := Tail(w);
    if tail.End? {
      LeadingExpands(w);
    } else {
      PrintCases(tail);
      BracesExpand(tail);
      ExpansionMeaning(tail.rest);
      BracedMeaning(w);
    }
  }

  /** The same for a word with braces, once they and what follows them are known to expand to what they stand for. */
  lemma BracedMeaning(w: Word)
    requires Proper(w) && Proper(Tail(w)) && !Tail(w).End? && Print(w) == Leading(w) + Print(Tail(w))
    requires ExpandBraced(Inner(Tail(w))) == Some(Choices(Tail(w))) && BraceExpand(Print(Tail(w).rest)) == Denote(Tail(w).rest)
    ensures BraceExpand(Print(w)) == Prefixed(Leading(w), Denote(Tail(w)))
  {
    hide Print;
    hide Leading;
    hide Denote;
    hide Choices;
    hide Gobble;
    hide FindBraceWord;
    hide ExpandBraced;
    hide ExpandSeqterm;
    hide Dotted;
    hide PlainText;
    hide BraceExpand;
    hide Tail;
    var tail := Tail(w);
    BracedParts(w);
    if tail.Alt? {
      AlternationFound(w, tail.list, Print(w));
    } else {
      SequenceIsDotted(tail.body);
      SequenceFound(w, tail.body, Print(w));
    }
    BracedExpands(Print(w), |Leading(w)|, tail);
    WordCases(tail);
  }

  lemma LeadingExpands(w: Word)
    requires Proper(w)
    ensures BraceExpand(Leading(w)) == [Leading(w)] == Prefixed(Leading(w), Denote(End))
    ensures Leading(w) == Leading(w) + Print(End)
  {
    hide ExpandSeqterm;
    hide Gobble;
    hide BraceExpand;
    hide Proper;
    var t := Leading(w);
    assert t + "" == t;
    assert Reads(t, 0, t);
    SearchPassesLeading(w, t, 0);
    NothingFound(t);
  }

  /** Where the parts of a word with braces lie in its printed form. */
  lemma BracedParts(w: Word)
    requires !Tail(w).End? && Print(w) == Leading(w) + Print(Tail(w))
    ensures var t, k, inner := Print(w), |Leading(w)|, Inner(Tail(w));
            && Reads(t, 0, Leading(w)) && Reads(t, k, "{") && Reads(t, k + 1, inner + "}")
            && t[..k] == Leading(w) && t[k + 1..k + 1 + |inner|] == inner && t[k + 2 + |inner|..] == Print(Tail(w).rest)
  {
    hide ExpandSeqterm;
    hide Denote;
    hide Choices;
    hide Leading;
    hide Tail;
    hide Print;
    hide Inner;
    WordCases(Tail(w));
  }

  lemma ProductOfOne(head: string, words: seq<string>)
    ensures Product([head], words) == Prefixed(head, words)
  {
    assert [head][1..] == [];
  }

  /** A word whose first braces expand to their choices is their product with what follows. */
  lemma BracedExpands(t: string, open: nat, w: Word)
    requires (w.Alt? || w.Seq?) && open + 1 + |Inner(w)| < |t|
    requires t[open + 1..open + 1 + |Inner(w)|] == Inner(w) && t[open + 2 + |Inner(w)|..] == Print(w.rest)
    requires FindBraceWord(t, 0) == open && CloseOf(t, open) == open + 1 + |Inner(w)|
    requires ExpandBraced(Inner(w)) == Some(Choices(w)) && BraceExpand(Print(w.rest)) == Denote(w.rest)
    ensures BraceExpand(t) == Prefixed(t[..open], Product(Choices(w), Denote(w.rest)))
  {
    hide Product;
    hide Prefixed;
    hide Print;
    hide Inner;
    hide Denote;
    hide Choices;
    hide FindBraceWord;
    hide CloseOf;
    hide ExpandBraced;
    hide BraceExpand;
    var close := open + 1 + |Inner(w)|;
    assert close + 1 == |t| ==> Denote(w.rest) == [""] by {
      if close + 1 == |t| {
        assert Print(w.rest) == "";
        WordCases(w.rest);
      }
    }
    assert BraceExpand(t) == Prefixed(t[..open], Product(Choices(w), Denote(w.rest))) by {
      ExpandAtWord(t, open, close, Choices(w));
      ProductAssociative([t[..open]], Choices(w), Denote(w.rest));
      ProductOfOne(t[..open], Product(Choices(w), Denote(w.rest)));
      ProductUnitRight(Product([t[..open]], Choices(w)));
    }
  }

  // ----- printed words never look like command substitution -----

  /** No `(` of the text is the first character or follows one of `$`, `<` and `>`. */
  ghost predicate ParensSafe(text: string) {
    forall j :: 0 <= j < |text| && text[j] == '(' ==> j > 0 && text[j - 1] !in "$<>"
  }

  lemma SafeParts(a: string, b: string)
    requires ParensSafe(a) && ParensSafe(b)
    ensures ParensSafe(a + b)
  {
  }

  lemma {:induction false} PrintedParens(w: Word)
    requires Proper(w)
    ensures ParensSafe(Print(w))
    decreases w, 0
  {
    hide Print;
    hide ParensSafe;
    hide ExpandSeqterm;
    PrintCases(w);
    NothingIsSafe();
    if Headed(w) {
      HeadParens(w);
      PrintedParens(w.rest);
      SafeParts(Head(w), Print(w.rest));
    } else if Braced(w) {
      if w.Alt? {
        ListParens(w.list);
      } else {
        PlainIsSafe(w.body);
      }
      PrintedParens(w.rest);
      SafeParts("{", Inner(w));
      SafeParts("{" + Inner(w), "}");
      SafeParts("{" + Inner(w) + "}", Print(w.rest));
    }
  }

  lemma NothingIsSafe()
    ensures ParensSafe("") && ParensSafe("{") && ParensSafe("}") && ParensSafe(",")
  {
  }

  lemma PlainIsSafe(s: string)
    requires PlainText(s)
    ensures ParensSafe(s)
  {
  }

  lemma HeadParens(w: Word)
    requires Proper(w) && Headed(w)
    ensures ParensSafe(Head(w))
  {
    hide ExpandSeqterm;
    hide Inside;
  }

  lemma {:induction false} ListParens(bs: Branches)
    requires ProperBranches(bs)
    ensures ParensSafe(PrintBranches(bs))
    decreases bs
  {
    hide ExpandSeqterm;
    hide ParensSafe;
    NothingIsSafe();
    PrintedParens(bs.w);
    if bs.More? {
      ListParens(bs.rest);
      SafeParts(Print(bs.w), ",");
      SafeParts(Print(bs.w) + ",", PrintBranches(bs.rest));
    }
  }

  /** So the expansion method applies to every printed word. */
  lemma PrintedWordIsScannable(w: Word)
    requires Proper(w)
    ensures NoSubstitution(Print(w))
  {
    PrintedParens(w);
  }
}
