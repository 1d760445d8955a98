/** alias.c: expanding the aliases of a line. */
module AliasExpand {
  import opened Text

  type Aliases = map<string, string>

  predicate Blank(c: char) {
    c == ' ' || c == '\t'
  }

  predicate SelfDelimiting(c: char) {
    c in " \t\n\r;|&()"
  }

  predicate Separator(c: char) {
    c in "\r\n;|&("
  }

  predicate Quote(c: char) {
    c == '\'' || c == '"'
  }

  predicate TokenChar(c: char) {
    !Blank(c) && !SelfDelimiting(c)
  }

  // ----- the scanners, as functions -----

  /** skipquotes, from index i inside the quotes: the closing quote, or the end. */
  function QuoteEnd(text: string, i: nat, delimiter: char): (r: nat)
    requires i <= |text|
    ensures i <= r <= |text| && (r < |text| ==> text[r] == delimiter)
    decreases |text| - i
  {
    if i == |text| then i
    else if text[i] == '\\' then if i + 1 == |text| then i + 1 else QuoteEnd(text, i + 2, delimiter)
    else if text[i] == delimiter then i
    else QuoteEnd(text, i + 1, delimiter)
  }

  /** skipws, with its local state: the index it stops at, and whether it passed a command separator. */
  function Skip(text: string, i: nat, passNext: bool, inWord: bool, separator: bool): (r: (nat, bool))
    requires i <= |text|
    ensures i <= r.0 <= |text| && (separator ==> r.1)
    decreases |text| - i
  {
    if i == |text| then (i, separator)
    else if passNext then Skip(text, i + 1, false, inWord, separator)
    else if Blank(text[i]) then Skip(text, i + 1, false, false, separator)
    else if text[i] == '\\' then
      if i + 1 == |text| then (i, separator)
      else if IsAlpha(text[i + 1]) then Skip(text, i + 1, false, true, separator)
      else Skip(text, i + 1, true, inWord, separator)
    else if Quote(text[i]) then
      var j := QuoteEnd(text, i + 1, text[i]);
      if j == |text| then (j, separator)
      else Skip(text, j + 1, false, inWord || IsAlpha(At(text, j + 1)), separator)
    else if inWord then Skip(text, i + 1, false, true, separator)
    else if Separator(text[i]) then Skip(text, i + 1, false, false, true)
    else (i, separator)
  }

  /** rd_token. */
  function TokenEnd(text: string, i: nat): (r: nat)
    requires i <= |text|
    ensures i <= r <= |text|
    decreases |text| - i
  {
    if i == |text| || !TokenChar(text[i]) then i
    else if text[i] == '\\' then if i + 1 == |text| then i + 1 else TokenEnd(text, i + 2)
    else if Quote(text[i]) then
      var j := QuoteEnd(text, i + 1, text[i]);
      if j == |text| then j else TokenEnd(text, j + 1)
    else TokenEnd(text, i + 1)
  }

  /** The end of the token at i: a delimiter is a token of its own. */
  function TokenStop(text: string, i: nat): (r: nat)
    requires i <= |text|
    ensures i <= r <= |text| && (i < |text| ==> i < r)
  {
    var e := TokenEnd(text, i);
    if e == i && i < |text| then i + 1 else e
  }

  // ----- expansion, as a rewriting of segments -----

  /** A stretch of the line: copied as it is, or a token replaced by its alias's value. */
  datatype Piece = Copied(s: string) | Replaced(token: string, value: string)

  predicate EndsBlank(s: string) {
    s != "" && Blank(s[|s| - 1])
  }

  predicate Replaces(token: string, aliases: Aliases, all: bool, place: bool) {
    token != "" && ((place && '\\' !in token) || all) && token in aliases
  }

  /** Whether the token after a replaced one is looked at too. */
  predicate Continues(token: string, value: string, all: bool, place: bool) {
    (place && '\\' !in token && EndsBlank(value)) || all
  }

  /** The pieces of the line from index i on; first says that a command's first word comes, next that the token before was
      replaced by a value that ends in a blank. */
  function Pieces(text: string, aliases: Aliases, all: bool, i: nat, first: bool, next: bool): seq<Piece>
    requires i <= |text|
    decreases |text| - i
  {
    var (s, separator) := Skip(text, i, false, false, false);
    if s == i && i == |text| then []
    else
      var e := TokenStop(text, s);
      var (piece, after) := Rewrite(text[s..e], aliases, all, first || separator || Separator(At(text, s)), next);
      [Copied(text[i..s]), piece] + Pieces(text, aliases, all, e, false, after)
  }

  /** One token, and whether the token after it is looked at because of it. */
  function Rewrite(token: string, aliases: Aliases, all: bool, head: bool, next: bool): (r: (Piece, bool))
    ensures Source(r.0) == token
  {
    if Replaces(token, aliases, all, head || next) then
      (Replaced(token, aliases[token]), Continues(token, aliases[token], all, head || next))
    else (Copied(token), false)
  }

  function Source(p: Piece): string {
    if p.Copied? then p.s else p.token
  }

  function Target(p: Piece): string {
    if p.Copied? then p.s else p.value
  }

  function Sources(ps: seq<Piece>): string {
    if ps == [] then "" else Source(ps[0]) + Sources(ps[1..])
  }

  function Targets(ps: seq<Piece>): string {
    if ps == [] then "" else Target(ps[0]) + Targets(ps[1..])
  }

  /** alias_expand. */
  function Expansion(text: string, aliases: Aliases, all: bool): string {
    Targets(Pieces(text, aliases, all, 0, true, false))
  }

  lemma SourcesOfTwo(a: Piece, b: Piece, ps: seq<Piece>)
    ensures Sources([a, b] + ps) == Source(a) + Source(b) + Sources(ps)
    ensures Targets([a, b] + ps) == Target(a) + Target(b) + Targets(ps)
  {
    assert ([a, b] + ps)[1..] == [b] + ps;
    assert ([b] + ps)[1..] == ps;
  }

  lemma ThreeParts(text: string, i: nat, s: nat, e: nat)
    requires i <= s <= e <= |text|
    ensures text[i..] == text[i..s] + text[s..e] + text[e..]
  {
  }

  /** The pieces are the line itself, read once from left to right. */
  lemma {:induction false} PiecesCoverTheLine(text: string, aliases: Aliases, all: bool, i: nat, first: bool, next: bool)
    requires i <= |text|
    ensures Sources(Pieces(text, aliases, all, i, first, next)) == text[i..]
    decreases |text| - i
  {
    hide Skip;
    hide TokenStop;
    hide Sources;
    hide Targets;
    hide Rewrite;
    var (s, separator) := Skip(text, i, false, false, false);
    if !(s == i && i == |text|) {
      var e := TokenStop(text, s);
      var (piece, after) := Rewrite(text[s..e], aliases, all, first || separator || Separator(At(text, s)), next);
      PiecesCoverTheLine(text, aliases, all, e, false, after);
      SourcesOfTwo(Copied(text[i..s]), piece, Pieces(text, aliases, all, e, false, after));
      ThreeParts(text, i, s, e);
    } else {
      NoPieces(text, aliases, all, first, next);
    }
  }

  /** A skipped text passes a command separator that is not part of a quoted or escaped word. */
  predicate PassesSeparator(gap: string) {
    Skip(gap, 0, false, false, false).1
  }

  /** The pieces alternate between skipped texts, which are copied, and tokens. A token is replaced, by its alias's value, if
      and only if it is an alias and either alias_expand_all is on, or it has no backslash and stands where a command or an
      alias is looked for. */
  predicate Justified(ps: seq<Piece>, aliases: Aliases, all: bool, first: bool, next: bool) {
    forall k :: 0 <= k < |ps| ==> JustifiedAt(ps, k, aliases, all, first, next)
  }

  predicate JustifiedAt(ps: seq<Piece>, k: nat, aliases: Aliases, all: bool, first: bool, next: bool)
    requires k < |ps|
  {
    var token := Source(ps[k]);
    && (ps[k].Replaced? <==>
          k % 2 == 1 && token != "" && token in aliases && (all || ('\\' !in token && InPlace(ps, k, first, next))))
    && (ps[k].Replaced? ==> ps[k].value == aliases[token])
  }

  /** Piece k begins the line, comes after a command separator, or follows an alias whose value ends in a blank. */
  predicate InPlace(ps: seq<Piece>, k: nat, first: bool, next: bool)
    requires 0 < k < |ps|
  {
    PassesSeparator(Source(ps[k - 1])) || if k == 1 then first || next else LeadsOn(ps[k - 2])
  }

  predicate LeadsOn(p: Piece) {
    p.Replaced? && EndsBlank(p.value)
  }

  lemma JustifiedTwo(a: Piece, b: Piece, ps: seq<Piece>, aliases: Aliases, all: bool, first: bool, next: bool, after: bool)
    requires a.Copied? && Justified(ps, aliases, all, false, after)
    requires JustifiedAt([a, b], 1, aliases, all, first, next)
    requires !all ==> after == LeadsOn(b)
    ensures Justified([a, b] + ps, aliases, all, first, next)
  {
    hide PassesSeparator;
    var qs := [a, b] + ps;
    forall k | 0 <= k < |qs| ensures JustifiedAt(qs, k, aliases, all, first, next) {
      if k >= 2 {
        assert JustifiedAt(ps, k - 2, aliases, all, false, after);
        assert qs[k] == ps[k - 2] && (k > 2 ==> qs[k - 1] == ps[k - 3]);
        assert qs[k - 2] == if k == 2 then a else if k == 3 then b else ps[k - 4];
      } else {
        assert k == 1 ==> JustifiedAt([a, b], 1, aliases, all, first, next);
      }
    }
  }

  lemma {:induction false} QuoteInGap(text: string, gap: string, o: nat, i: nat, delimiter: char)
    requires o <= i <= o + |gap| <= |text| && QuoteEnd(text, i, delimiter) <= o + |gap|
    requires forall k :: 0 <= k < |gap| ==> gap[k] == text[o + k]
    ensures QuoteEnd(gap, i - o, delimiter) == QuoteEnd(text, i, delimiter) - o
    decreases |text| - i
  {
    if i < o + |gap| {
      assert gap[i - o] == text[i];
      if text[i] == '\\' {
        if i + 1 < |text| {
          QuoteInGap(text, gap, o, i + 2, delimiter);
        }
      } else if text[i] != delimiter {
        QuoteInGap(text, gap, o, i + 1, delimiter);
      }
    }
  }

  /** skipws never stops at an escaped character or at a letter inside a word. */
  lemma GoesOn(text: string, i: nat, passNext: bool, inWord: bool, separator: bool)
    requires i < |text| && (passNext || (inWord && IsAlpha(text[i])))
    ensures Skip(text, i, passNext, inWord, separator).0 > i
  {
  }

  /** What is skipped on the way to a token passes a separator by itself exactly when skipws notes one there. */
  lemma {:induction false} SkipOfGap(text: string, gap: string, o: nat, i: nat, passNext: bool, inWord: bool, separator: bool)
    requires o <= i <= o + |gap| <= |text| && Skip(text, i, passNext, inWord, separator).0 == o + |gap|
    requires forall k :: 0 <= k < |gap| ==> gap[k] == text[o + k]
    ensures Skip(gap, i - o, passNext, inWord, separator).1 == Skip(text, i, passNext, inWord, separator).1
    decreases |text| - i
  {
    hide QuoteEnd;
    hide Separator;
    hide Blank;
    hide Quote;
    hide IsAlpha;
    if i < o + |gap| {
      assert gap[i - o] == text[i];
      if passNext {
        SkipOfGap(text, gap, o, i + 1, false, inWord, separator);
      } else if Blank(text[i]) {
        SkipOfGap(text, gap, o, i + 1, false, false, separator);
      } else if text[i] == '\\' {
        var letter := IsAlpha(text[i + 1]);
        GoesOn(text, i + 1, !letter, inWord || letter, separator);
        SkipOfGap(text, gap, o, i + 1, !letter, inWord || letter, separator);
        assert gap[i + 1 - o] == text[i + 1];
      } else if Quote(text[i]) {
        QuotedOfGap(text, gap, o, i, inWord, separator);
      } else if inWord {
        SkipOfGap(text, gap, o, i + 1, false, true, separator);
      } else {
        SkipOfGap(text, gap, o, i + 1, false, false, true);
      }
    }
  }

  lemma {:induction false} QuotedOfGap(text: string, gap: string, o: nat, i: nat, inWord: bool, separator: bool)
    requires o <= i < o + |gap| <= |text| && Skip(text, i, false, inWord, separator).0 == o + |gap|
    requires forall k :: 0 <= k < |gap| ==> gap[k] == text[o + k]
    requires Quote(text[i])
    ensures Skip(gap, i - o, false, inWord, separator).1 == Skip(text, i, false, inWord, separator).1
    decreases |text| - i, 0
  {
    hide QuoteEnd;
    hide Separator;
    assert gap[i - o] == text[i];
    var j := QuoteEnd(text, i + 1, text[i]);
    QuoteInGap(text, gap, o, i + 1, text[i]);
    if j < |text| {
      var letter := IsAlpha(At(text, j + 1));
      if letter {
        GoesOn(text, j + 1, false, true, separator);
        assert gap[j + 1 - o] == text[j + 1];
      }
      assert IsAlpha(At(gap, j + 1 - o)) == letter;
      SkipOfGap(text, gap, o, j + 1, false, inWord || letter, separator);
    }
  }

  lemma {:induction false} PiecesAreJustified(text: string, aliases: Aliases, all: bool, i: nat, first: bool, next: bool)
    requires i <= |text|
    ensures Justified(Pieces(text, aliases, all, i, first, next), aliases, all, first, next)
    decreases |text| - i
  {
    hide Skip;
    hide TokenStop;
    hide Justified;
    hide Separator;
    var (s, separator) := Skip(text, i, false, false, false);
    if !(s == i && i == |text|) {
      var e := TokenStop(text, s);
      var (piece, after) := Rewrite(text[s..e], aliases, all, first || separator || Separator(At(text, s)), next);
      PiecesAreJustified(text, aliases, all, e, false, after);
      SkipOfGap(text, text[i..s], i, i, false, false, false);
      NoSeparatorAt(text, i);
      JustifiedTwo(Copied(text[i..s]), piece, Pieces(text, aliases, all, e, false, after), aliases, all, first, next, after);
    } else {
      NoPieces(text, aliases, all, first, next);
    }
  }

  lemma NoSeparatorAt(text: string, i: nat)
    requires i <= |text|
    ensures !Separator(At(text, Skip(text, i, false, false, false).0))
  {
    hide Skip;
    SkipStops(text, i, false, false, false);
  }

  lemma {:induction false} NothingReplaced(ps: seq<Piece>)
    requires forall k :: 0 <= k < |ps| ==> ps[k].Copied?
    ensures Targets(ps) == Sources(ps)
  {
    if ps != [] {
      NothingReplaced(ps[1..]);
    }
  }

  /** Without aliases a line is its own expansion. */
  lemma NoAliasesNoChange(text: string, all: bool)
    ensures Expansion(text, map[], all) == text
  {
    hide Pieces;
    hide Targets;
    hide Sources;
    var ps := Pieces(text, map[], all, 0, true, false);
    PiecesAreJustified(text, map[], all, 0, true, false);
    forall k | 0 <= k < |ps| ensures ps[k].Copied? {
      assert JustifiedAt(ps, k, map[], all, true, false);
    }
    NothingReplaced(ps);
    PiecesCoverTheLine(text, map[], all, 0, true, false);
  }

  /** One turn of the loop of alias_expand, seen from the output. */
  lemma TargetStep(text: string, aliases: Aliases, all: bool, i: nat, first: bool, next: bool, s: nat, e: nat)
    requires i <= s <= e <= |text| && s == Skip(text, i, false, false, false).0 && e == TokenStop(text, s) && !(s == i == |text|)
    ensures var head := first || Skip(text, i, false, false, false).1 || Separator(At(text, s));
            var (piece, after) := Rewrite(text[s..e], aliases, all, head, next);
            Targets(Pieces(text, aliases, all, i, first, next))
            == text[i..s] + Target(piece) + Targets(Pieces(text, aliases, all, e, false, after))
  {
    hide Skip;
    hide TokenStop;
    hide Targets;
    hide Rewrite;
    var head := first || Skip(text, i, false, false, false).1 || Separator(At(text, s));
    var (piece, after) := Rewrite(text[s..e], aliases, all, head, next);
    SourcesOfTwo(Copied(text[i..s]), piece, Pieces(text, aliases, all, e, false, after));
  }

  lemma NoPieces(text: string, aliases: Aliases, all: bool, first: bool, next: bool)
    ensures Sources([]) == "" && Targets([]) == "" && Targets(Pieces(text, aliases, all, |text|, first, next)) == ""
    ensures Justified([], aliases, all, first, next)
  {
  }

  lemma Regroup(line: string, a: string, b: string, c: string)
    ensures line + (a + b + c) == (line + a + b) + c
  {
  }

  // ----- where tokens begin -----

  /** skipws stops at the end, at a final backslash, or at a character that is no blank, quote or separator: quoted words
      are never taken for aliases. */
  lemma {:induction false} SkipStops(text: string, i: nat, passNext: bool, inWord: bool, separator: bool)
    requires i <= |text|
    ensures var s := Skip(text, i, passNext, inWord, separator).0;
            s < |text| ==> !Blank(text[s]) && !Quote(text[s]) && !Separator(text[s]) && (text[s] == '\\' ==> s + 1 == |text|)
    decreases |text| - i
  {
    if i < |text| {
      if passNext {
        SkipStops(text, i + 1, false, inWord, separator);
      } else if Blank(text[i]) {
        SkipStops(text, i + 1, false, false, separator);
      } else if text[i] == '\\' {
        if i + 1 < |text| {
          SkipStops(text, i + 1, false, true, separator);
          SkipStops(text, i + 1, true, inWord, separator);
        }
      } else if Quote(text[i]) {
        var j := QuoteEnd(text, i + 1, text[i]);
        if j < |text| {
          SkipStops(text, j + 1, false, inWord || IsAlpha(At(text, j + 1)), separator);
        }
      } else if inWord {
        SkipStops(text, i + 1, false, true, separator);
      } else if Separator(text[i]) {
        SkipStops(text, i + 1, false, false, true);
      }
    }
  }

  /** A separator is only reported when one was passed. */
  lemma {:induction false} SeparatorWasPassed(text: string, i: nat, passNext: bool, inWord: bool)
    requires i <= |text| && Skip(text, i, passNext, inWord, false).1
    ensures exists k :: i <= k < Skip(text, i, passNext, inWord, false).0 && Separator(text[k])
    decreases |text| - i
  {
    if passNext {
      SeparatorWasPassed(text, i + 1, false, inWord);
    } else if Blank(text[i]) {
      SeparatorWasPassed(text, i + 1, false, false);
    } else if text[i] == '\\' {
      SeparatorWasPassed(text, i + 1, !IsAlpha(text[i + 1]), inWord || IsAlpha(text[i + 1]));
    } else if Quote(text[i]) {
      var j := QuoteEnd(text, i + 1, text[i]);
      SeparatorWasPassed(text, j + 1, false, inWord || IsAlpha(At(text, j + 1)));
    } else if inWord {
      SeparatorWasPassed(text, i + 1, false, true);
    }
  }

  // ----- the code -----

  class Expander {
    const aliases: Aliases
    const expandAll: bool
    var commandWord: bool

    constructor (a: Aliases, all: bool)
      ensures aliases == a && expandAll == all
    {
      aliases, expandAll, commandWord := a, all, false;
    }

    /** skipquotes: string[start] is the opening quote. */
    static method SkipQuotes(text: string, start: nat) returns (i: nat)
      requires start < |text|
      ensures i == QuoteEnd(text, start + 1, text[start])
    {
      var delimiter := text[start];
      i := start + 1;
      while i < |text|
        invariant start < i <= |text| && QuoteEnd(text, i, delimiter) == QuoteEnd(text, start + 1, delimiter)
      {
        if text[i] == '\\' {
          i := i + 1;
          if i == |text| {
            return;
          }
        } else if text[i] == delimiter {
          return;
        }
        i := i + 1;
      }
    }

    /** skipws. */
    method SkipWs(text: string, start: nat) returns (i: nat)
      requires start <= |text|
      modifies this
      ensures i == Skip(text, start, false, false, false).0
      ensures commandWord == (old(commandWord) || Skip(text, start, false, false, false).1)
    {
      var passNext, inWord := false, false;
      i := start;
      ghost var separator := false;
      while i < |text|
        invariant i <= |text| && commandWord == (old(commandWord) || separator)
        invariant Skip(text, i, passNext, inWord, separator) == Skip(text, start, false, false, false)
        decreases |text| - i
      {
        if passNext {
          passNext := false;
        } else if Blank(text[i]) {
          inWord := false;
        } else if text[i] == '\\' {
          if i + 1 == |text| {
            return;
          }
          if IsAlpha(text[i + 1]) {
            inWord := true;
          } else {
            passNext := true;
          }
        } else if Quote(text[i]) {
          i := SkipQuotes(text, i);
          if i == |text| {
            return;
          }
          if IsAlpha(At(text, i + 1)) {
            inWord := true;
          }
        } else if !inWord {
          if !Separator(text[i]) {
            return;
          }
          commandWord := true;
          separator := true;
        }
        i := i + 1;
      }
    }

    /** rd_token. */
    static method RdToken(text: string, start: nat) returns (i: nat)
      requires start <= |text|
      ensures i == TokenEnd(text, start)
    {
      i := start;
      while i < |text| && TokenChar(text[i])
        invariant start <= i <= |text| && TokenEnd(text, i) == TokenEnd(text, start)
        decreases |text| - i
      {
        if text[i] == '\\' {
          i := i + 1;
          if i == |text| {
            return;
          }
        } else if Quote(text[i]) {
          i := SkipQuotes(text, i);
          if i == |text| {
            return;
          }
        }
        i := i + 1;
      }
    }

    /** alias_expand. */
    method AliasExpand(text: string) returns (line: string)
      modifies this
      ensures line == Expansion(text, aliases, expandAll)
    {
      hide Skip;
      hide TokenEnd;
      hide Targets;
      hide Sources;
      hide Rewrite;
      hide Pieces;
      line := "";
      var i, expandNext := 0, false;
      commandWord := true;
      NoPieces(text, aliases, expandAll, true, false);
      while true
        invariant i <= |text|
        invariant Expansion(text, aliases, expandAll) == line + Targets(Pieces(text, aliases, expandAll, i, commandWord, expandNext))
        decreases |text| - i
      {
        ghost var first, next := commandWord, expandNext;
        var start := i;
        i := SkipWs(text, start);
        if start == i && i == |text| {
          NoPieces(text, aliases, expandAll, first, next);
          return;
        }
        commandWord := commandWord || Separator(At(text, i));
        var realStart := i;
        i := RdToken(text, realStart);
        if i == realStart && i < |text| {
          i := i + 1;
        }
        var token := text[realStart..i];
        var out;
        out, expandNext := Substitute(token, expandNext);
        TargetStep(text, aliases, expandAll, start, first, next, realStart, i);
        Regroup(line, text[start..realStart], out, Targets(Pieces(text, aliases, expandAll, i, false, expandNext)));
        line := line + text[start..realStart] + out;
        commandWord := false;
      }
    }

    /** The part of alias_expand that decides on a token: what goes into the line, and the new expand_next. */
    method Substitute(token: string, expandNext: bool) returns (out: string, next: bool)
      ensures (out, next) == var (piece, after) := Rewrite(token, aliases, expandAll, commandWord, expandNext); (Target(piece), after)
    {
      var expandThis := commandWord || expandNext;
      if '\\' in token {
        expandThis := false;
      }
      next := false;
      if token != "" && (expandThis || expandAll) && token in aliases {
        out := aliases[token];
        if (expandThis && out != "" && Blank(out[|out| - 1])) || expandAll {
          next := true;
        }
      } else {
        out := token;
      }
    }
  }
}
