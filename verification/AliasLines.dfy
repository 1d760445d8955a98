/** Where the tokens of alias expansion end, and what expansion means on lines of plain words. */
module AliasLines {
  import opened Text
  import opened AliasExpand

  /** The characters that delimit tokens. */
  predicate Delimits(c: char) {
    c == ' ' || c == '\t' || c == '\n' || c == '\r' || c == ';' || c == '|' || c == '&' || c == '(' || c == ')'
  }

  // ----- tokens -----

  /** What protects the next character of a token. */
  datatype Mode = Bare | Escaped | Between(q: char) | EscapedBetween(q: char)

  function Next(m: Mode, c: char): Mode {
    match m
    case Bare => if c == '\\' then Escaped else if c == '\'' || c == '"' then Between(c) else Bare
    case Escaped => Bare
    case Between(q) => if c == '\\' then EscapedBetween(q) else if c == q then Bare else Between(q)
    case EscapedBetween(q) => Between(q)
  }

  function After(m: Mode, s: string): Mode
    decreases |s|
  {
    if s == "" then m else After(Next(m, s[0]), s[1..])
  }

  /** No delimiter stands bare in the text. */
  predicate Whole(m: Mode, s: string)
    decreases |s|
  {
    s == "" || ((m.Bare? ==> !Delimits(s[0])) && Whole(Next(m, s[0]), s[1..]))
  }

  /** The token is one delimiter, or holds none that is bare and reaches up to a bare one or to the end of the line. */
  predicate IsToken(token: string, rest: string) {
    || (|token| == 1 && Delimits(token[0]))
    || (Whole(Bare, token) && (rest == "" || (token != "" && After(Bare, token).Bare? && Delimits(rest[0]))))
  }

  lemma {:induction false} QuotedPart(text: string, i: nat, q: char)
    requires i <= |text|
    ensures var j := QuoteEnd(text, i, q);
            Whole(Between(q), text[i..j]) && (j < |text| ==> After(Between(q), text[i..j]) == Between(q))
    decreases |text| - i
  {
    var j := QuoteEnd(text, i, q);
    if i < j {
      assert text[i..j][1..] == text[i + 1..j];
      if text[i] == '\\' {
        if i + 1 < |text| {
          QuotedPart(text, i + 2, q);
          assert text[i + 1..j][1..] == text[i + 2..j];
        }
      } else {
        QuotedPart(text, i + 1, q);
      }
    }
  }

  lemma {:induction false} WholeParts(m: Mode, a: string, b: string)
    requires Whole(m, a) && Whole(After(m, a), b)
    ensures Whole(m, a + b) && After(m, a + b) == After(After(m, a), b)
    decreases |a|
  {
    if a == "" {
      assert a + b == b;
    } else {
      assert (a + b)[1..] == a[1..] + b;
      WholeParts(Next(m, a[0]), a[1..], b);
    }
  }

  /** The step that rd_token takes at a character of a token: an escaped pair, a quoted part, or the character. */
  function StepEnd(text: string, i: nat): (r: nat)
    requires i < |text| && TokenChar(text[i])
    ensures i < r <= |text|
  {
    if text[i] == '\\' then if i + 1 == |text| then i + 1 else i + 2
    else if Quote(text[i]) then
      var j := QuoteEnd(text, i + 1, text[i]);
      if j == |text| then j else j + 1
    else i + 1
  }

  lemma TokenStep(text: string, i: nat)
    requires i < |text| && TokenChar(text[i])
    ensures TokenEnd(text, i) == TokenEnd(text, StepEnd(text, i))
  {
    hide QuoteEnd;
  }

  lemma EscapedPair(c: char)
    ensures Whole(Bare, ['\\', c]) && After(Bare, ['\\', c]) == Bare
  {
    assert ['\\', c][1..] == [c] && [c][1..] == "";
    assert Whole(Escaped, [c]) && After(Escaped, [c]) == Bare;
  }

  lemma StepIsWhole(text: string, i: nat)
    requires i < |text| && TokenChar(text[i])
    ensures var r := StepEnd(text, i);
            Whole(Bare, text[i..r]) && (r < |text| ==> After(Bare, text[i..r]).Bare?)
  {
    hide QuoteEnd;
    var r := StepEnd(text, i);
    assert text[i..r][1..] == text[i + 1..r] && text[i..r][0] == text[i];
    if text[i] == '\\' {
      if r == i + 2 {
        EscapedPair(text[i + 1]);
        assert text[i..r] == ['\\', text[i + 1]];
      }
    } else if Quote(text[i]) {
      QuotedPart(text, i + 1, text[i]);
      var j := QuoteEnd(text, i + 1, text[i]);
      if j < |text| {
        assert text[i + 1..r] == text[i + 1..j] + [text[j]];
        assert [text[j]][1..] == "";
        WholeParts(Between(text[i]), text[i + 1..j], [text[j]]);
      }
    }
  }

  /** A token that starts at i ends at the first bare delimiter. */
  lemma {:induction false} TokenExtent(text: string, i: nat)
    requires i <= |text|
    ensures var e := TokenEnd(text, i);
            && Whole(Bare, text[i..e])
            && (e < |text| ==> After(Bare, text[i..e]).Bare? && Delimits(text[e]))
    decreases |text| - i
  {
    hide StepEnd;
    if i < |text| && TokenChar(text[i]) {
      var r, e := StepEnd(text, i), TokenEnd(text, i);
      TokenStep(text, i);
      StepIsWhole(text, i);
      TokenExtent(text, r);
      assert text[i..e] == text[i..r] + text[r..e];
      if r < |text| {
        WholeParts(Bare, text[i..r], text[r..e]);
      } else {
        assert text[r..e] == "";
        WholeParts(Bare, text[i..r], text[r..e]);
      }
    }
  }

  predicate TokenAt(ps: seq<Piece>, k: nat)
    requires k < |ps|
  {
    IsToken(Source(ps[k]), Sources(ps[k + 1..]))
  }

  /** Every second piece is a token of the text that the pieces make up together. */
  predicate TokensEnd(ps: seq<Piece>) {
    forall k :: 0 <= k < |ps| && k % 2 == 1 ==> TokenAt(ps, k)
  }

  /** The tokens of a line end where a delimiter stands bare, and nowhere else. */
  lemma {:induction false} PiecesAreTokens(text: string, aliases: Aliases, all: bool, i: nat, first: bool, next: bool)
    requires i <= |text|
    ensures TokensEnd(Pieces(text, aliases, all, i, first, next))
    decreases |text| - i
  {
    hide Skip;
    hide TokenStop;
    hide Rewrite;
    hide IsToken;
    hide Sources;
    var (s, separator) := Skip(text, i, false, false, false);
    if !(s == i && i == |text|) {
      var e := TokenStop(text, s);
      var (piece, after) := Rewrite(text[s..e], aliases, all, first || separator || Separator(At(text, s)), next);
      PiecesAreTokens(text, aliases, all, e, false, after);
      PiecesCoverTheLine(text, aliases, all, e, false, after);
      StopIsToken(text, s);
      TokensOfTwo(Copied(text[i..s]), piece, Pieces(text, aliases, all, e, false, after));
    }
  }

  lemma TokensOfTwo(a: Piece, b: Piece, ps: seq<Piece>)
    requires TokensEnd(ps) && IsToken(Source(b), Sources(ps))
    ensures TokensEnd([a, b] + ps)
  {
    hide IsToken;
    hide Sources;
    hide TokenAt;
    var qs := [a, b] + ps;
    forall k | 0 <= k < |qs| && k % 2 == 1 ensures TokenAt(qs, k) {
      if k == 1 {
        SecondToken(a, b, ps);
      } else {
        assert TokenAt(ps, k - 2);
        LaterToken(a, b, ps, k);
      }
    }
  }

  lemma SecondToken(a: Piece, b: Piece, ps: seq<Piece>)
    ensures TokenAt([a, b] + ps, 1) == IsToken(Source(b), Sources(ps))
  {
    hide IsToken;
    hide Sources;
    assert ([a, b] + ps)[2..] == ps;
  }

  lemma LaterToken(a: Piece, b: Piece, ps: seq<Piece>, k: nat)
    requires 2 <= k < |ps| + 2
    ensures TokenAt([a, b] + ps, k) == TokenAt(ps, k - 2)
  {
    hide IsToken;
    hide Sources;
    assert ([a, b] + ps)[k + 1..] == ps[k - 1..];
  }

  lemma StopIsToken(text: string, s: nat)
    requires s <= |text|
    ensures IsToken(text[s..TokenStop(text, s)], text[TokenStop(text, s)..])
  {
    hide TokenEnd;
    hide Whole;
    hide After;
    hide Delimits;
    TokenExtent(text, s);
  }

  // ----- lines of plain words -----

  predicate Plain(c: char) {
    !Delimits(c) && c != '\\' && c != '\'' && c != '"'
  }

  /** A word with the blanks and separators in front of it. */
  datatype Item = Item(gap: string, word: string)

  predicate IsGap(s: string) {
    forall j :: 0 <= j < |s| ==> Delimits(s[j]) && s[j] != ')'
  }

  /** A character of the gap ends a command. */
  predicate EndsCommand(s: string) {
    exists j :: 0 <= j < |s| && (s[j] == '\r' || s[j] == '\n' || s[j] == ';' || s[j] == '|' || s[j] == '&' || s[j] == '(')
  }

  predicate IsWord(s: string) {
    s == ")" || (s != "" && forall j :: 0 <= j < |s| ==> Plain(s[j]))
  }

  /** Words are kept apart by gaps, except that a closing parenthesis needs none. */
  predicate IsLine(items: seq<Item>, end: string) {
    if items == [] then IsGap(end)
    else
      && IsGap(items[0].gap) && IsWord(items[0].word) && IsLine(items[1..], end)
      && (items[0].word == ")" || LineText(items[1..], end) == "" || Delimits(LineText(items[1..], end)[0]))
  }

  function LineText(items: seq<Item>, end: string): string {
    if items == [] then end else items[0].gap + items[0].word + LineText(items[1..], end)
  }

  /** The line with its aliases expanded: first says that a command's first word comes, led that the word before was replaced by
      a value that ends in a blank. */
  function Expanded(items: seq<Item>, end: string, aliases: Aliases, all: bool, first: bool, led: bool): string {
    if items == [] then end
    else
      var word := items[0].word;
      var looked := first || led || EndsCommand(items[0].gap);
      if word in aliases && (all || looked) then
        var value := aliases[word];
        items[0].gap + value
        + Expanded(items[1..], end, aliases, all, false, value != "" && (value[|value| - 1] == ' ' || value[|value| - 1] == '\t'))
      else items[0].gap + word + Expanded(items[1..], end, aliases, all, false, false)
  }

  /** skipws passes a gap and stops at the word behind it. */
  lemma {:induction false} GapSkipped(text: string, i: nat, gap: string, separator: bool)
    requires IsGap(gap) && i + |gap| <= |text| && text[i..i + |gap|] == gap
    requires i + |gap| < |text| ==> Plain(text[i + |gap|]) || text[i + |gap|] == ')'
    ensures Skip(text, i, false, false, separator) == (i + |gap|, separator || EndsCommand(gap))
    decreases |gap|
  {
    if gap != "" {
      assert text[i] == gap[0] && text[i + 1..i + |gap|] == gap[1..];
      GapSkipped(text, i + 1, gap[1..], separator || Separator(text[i]));
      EndsCommandStep(gap);
    }
  }

  lemma EndsCommandStep(gap: string)
    requires gap != ""
    ensures EndsCommand(gap) <==> Separator(gap[0]) || EndsCommand(gap[1..])
  {
    if EndsCommand(gap[1..]) {
      var j :| 0 <= j < |gap[1..]| && Separator(gap[1..][j]);
      assert gap[j + 1] == gap[1..][j];
    }
    if EndsCommand(gap) {
      var j :| 0 <= j < |gap| && Separator(gap[j]);
      assert j > 0 ==> gap[1..][j - 1] == gap[j];
    }
  }

  /** rd_token passes a word up to the delimiter behind it. */
  lemma {:induction false} WordRead(text: string, i: nat, e: nat)
    requires i <= e <= |text| && (e < |text| ==> Delimits(text[e])) && forall j :: i <= j < e ==> Plain(text[j])
    ensures TokenEnd(text, i) == e
    decreases e - i
  {
    if i < e {
      WordRead(text, i + 1, e);
    }
  }

  lemma WordStops(text: string, s: nat, word: string)
    requires IsWord(word) && s + |word| <= |text| && text[s..s + |word|] == word
    requires word == ")" || s + |word| == |text| || Delimits(text[s + |word|])
    ensures TokenStop(text, s) == s + |word| && '\\' !in word && !Separator(At(text, s))
    ensures Plain(text[s]) || text[s] == ')'
  {
    forall j | s <= j < s + |word| ensures text[j] == word[j - s] {
      assert text[s..s + |word|][j - s] == text[j];
    }
    if word != ")" {
      WordRead(text, s, s + |word|);
    }
  }

  /** Behind the last word only the rest of the line is copied. */
  lemma EndCopied(end: string, aliases: Aliases, all: bool, text: string, i: nat, first: bool, next: bool)
    requires IsGap(end) && i <= |text| && text[i..] == end
    ensures Targets(Pieces(text, aliases, all, i, first, next)) == end
  {
    hide Skip;
    hide Targets;
    hide IsGap;
    hide EndsCommand;
    assert text[i..i + |end|] == end;
    GapSkipped(text, i, end, false);
    NoPieces(text, aliases, all, first, next);
    NoPieces(text, aliases, all, false, false);
    if end != "" {
      TargetStep(text, aliases, all, i, first, next, |text|, |text|);
      assert text[|text|..|text|] == "";
    }
  }

  /** One word of the line, with the gap in front of it. */
  lemma WordRewritten(gap: string, word: string, aliases: Aliases, all: bool, text: string, i: nat, first: bool, next: bool)
    returns (piece: Piece, after: bool)
    requires IsGap(gap) && IsWord(word) && i + |gap| + |word| <= |text|
    requires text[i..i + |gap|] == gap && text[i + |gap|..i + |gap| + |word|] == word
    requires word == ")" || i + |gap| + |word| == |text| || Delimits(text[i + |gap| + |word|])
    ensures (piece, after) == Rewrite(word, aliases, all, first || EndsCommand(gap), next)
    ensures Targets(Pieces(text, aliases, all, i, first, next))
         == gap + Target(piece) + Targets(Pieces(text, aliases, all, i + |gap| + |word|, false, after))
  {
    hide Skip;
    hide TokenStop;
    hide Targets;
    hide Pieces;
    hide Rewrite;
    hide EndsCommand;
    hide Plain;
    var s := i + |gap|;
    WordStops(text, s, word);
    GapSkipped(text, i, gap, false);
    TargetStep(text, aliases, all, i, first, next, s, s + |word|);
    var r := Rewrite(word, aliases, all, first || EndsCommand(gap), next);
    piece, after := r.0, r.1;
  }

  lemma {:induction false} LineExpands(items: seq<Item>, end: string, aliases: Aliases, all: bool, text: string, i: nat,
                                       first: bool, led: bool, next: bool)
    requires IsLine(items, end) && i <= |text| && text[i..] == LineText(items, end) && (all || led == next)
    ensures Targets(Pieces(text, aliases, all, i, first, next)) == Expanded(items, end, aliases, all, first, led)
    decreases |items|
  {
    hide Pieces;
    hide Targets;
    hide EndsCommand;
    hide IsGap;
    hide Delimits;
    if items == [] {
      EndCopied(end, aliases, all, text, i, first, next);
    } else {
      var gap, word, rest := items[0].gap, items[0].word, LineText(items[1..], end);
      ItemPlaced(text, i, gap, word, rest);
      var piece, after := WordRewritten(gap, word, aliases, all, text, i, first, next);
      var value := if word in aliases then aliases[word] else "";
      var ends := value != "" && (value[|value| - 1] == ' ' || value[|value| - 1] == '\t');
      WordIsBare(word);
      LineExpands(items[1..], end, aliases, all, text, i + |gap| + |word|, false, piece.Replaced? && ends, after);
    }
  }

  lemma ItemPlaced(text: string, i: nat, gap: string, word: string, rest: string)
    requires i <= |text| && text[i..] == gap + word + rest
    ensures var s, e := i + |gap|, i + |gap| + |word|;
            e <= |text| && text[i..s] == gap && text[s..e] == word && text[e..] == rest && (e < |text| ==> text[e] == rest[0])
  {
    var line := gap + word + rest;
    assert text[i..i + |gap|] == line[..|gap|];
    assert text[i + |gap|..i + |gap| + |word|] == line[|gap|..|gap| + |word|];
    assert text[i + |gap| + |word|..] == line[|gap| + |word|..];
  }

  lemma WordIsBare(word: string)
    requires IsWord(word)
    ensures word != "" && '\\' !in word
  {
  }

  /** alias_expand on a line of plain words: each word is replaced exactly when it is an alias and alias_expand_all is on, or it
      begins the line, or a command ends in front of it, or the word before was replaced by a value that ends in a blank. */
  lemma LineMeaning(items: seq<Item>, end: string, aliases: Aliases, all: bool)
    requires IsLine(items, end)
    ensures Expansion(LineText(items, end), aliases, all) == Expanded(items, end, aliases, all, true, false)
  {
    hide IsLine;
    hide LineText;
    hide Expanded;
    var text := LineText(items, end);
    assert text[0..] == text;
    LineExpands(items, end, aliases, all, text, 0, true, false, false);
  }
}
