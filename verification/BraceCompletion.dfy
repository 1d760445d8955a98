/** bracecomp.c: compressing a sorted list of names into a brace word, the inverse of brace expansion. */
module BraceCompletion {
  import opened Text
  import opened BraceSequence
  import opened Braces
  import opened BraceMeaning

  /** Length of the longest common prefix. */
  function CommonPrefix(a: string, b: string): (n: nat)
    ensures n <= |a| && n <= |b|
  {
    if a == "" || b == "" || a[0] != b[0] then 0 else 1 + CommonPrefix(a[1..], b[1..])
  }

  /** string_gcd. */
  method StringGcd(s1: string, s2: string) returns (i: nat)
    ensures i == CommonPrefix(s1, s2)
  {
    i := 0;
    while i < |s1| && i < |s2|
      invariant i <= |s1| && i <= |s2| && i + CommonPrefix(s1[i..], s2[i..]) == CommonPrefix(s1, s2)
    {
      if s1[i] != s2[i] {
        break;
      }
      assert s1[i..][1..] == s1[i + 1..] && s2[i..][1..] == s2[i + 1..];
      i := i + 1;
    }
  }

  lemma {:induction false} CommonPrefixAgrees(a: string, b: string, n: nat)
    ensures n <= CommonPrefix(a, b) <==> n <= |a| && n <= |b| && a[..n] == b[..n]
  {
    if n > 0 && n <= |a| && n <= |b| {
      assert a[..n] == [a[0]] + a[1..][..n - 1] && b[..n] == [b[0]] + b[1..][..n - 1];
      if a[0] == b[0] {
        CommonPrefixAgrees(a[1..], b[1..], n - 1);
        if a[..n] == b[..n] {
          assert a[1..][..n - 1] == a[..n][1..] == b[..n][1..] == b[1..][..n - 1];
        }
      } else {
        assert a[..n][0] != b[..n][0];
      }
    }
  }

  // ----- sh_backslash_quote -----

  /** The characters sh_backslash_quote puts a backslash before wherever they stand. */
  predicate NeedsBackslash(c: char) {
    c in "\t\n !\"$&'()*,;<>?[\\]^`{|}"
  }

  /** The quoted form of s as a word; a comment character is quoted only when it comes first. */
  function QuoteWord(s: string, first: bool): Word {
    if s == "" then End
    else if NeedsBackslash(s[0]) || (first && s[0] == '#') then Esc(s[0], QuoteWord(s[1..], false))
    else Lit(s[0], QuoteWord(s[1..], false))
  }

  function BackslashQuote(s: string): string {
    Print(QuoteWord(s, true))
  }

  /** The characters that mean something to the shell: blanks, quotes, expansions, operators, braces, patterns, history. */
  predicate Special(c: char) {
    || c == ' ' || c == '\t' || c == '\n'
    || c == '\'' || c == '"' || c == '\\' || c == '`' || c == '$'
    || c == '|' || c == '&' || c == ';' || c == '(' || c == ')' || c == '<' || c == '>'
    || c == '{' || c == '}' || c == ','
    || c == '*' || c == '?' || c == '[' || c == ']' || c == '^' || c == '!'
  }

  /** A backslash stands in front of every special character and of a `#` that comes first, and nowhere else. */
  predicate Guarded(text: string, first: bool) {
    if text == "" then true
    else if text[0] == '\\' then
      |text| >= 2 && (Special(text[1]) || (first && text[1] == '#')) && Guarded(text[2..], false)
    else !Special(text[0]) && !(first && text[0] == '#') && Guarded(text[1..], false)
  }

  lemma {:induction false} QuotedIsGuarded(s: string, first: bool)
    ensures Guarded(Print(QuoteWord(s, first)), first)
    decreases |s|
  {
    if s != "" {
      var rest := Print(QuoteWord(s[1..], false));
      QuotedIsGuarded(s[1..], false);
      if NeedsBackslash(s[0]) || (first && s[0] == '#') {
        assert (['\\', s[0]] + rest)[2..] == rest;
      } else {
        assert ([s[0]] + rest)[1..] == rest;
      }
    }
  }

  /** Quote removal: each backslash disappears and protects the character after it. */
  function Unquote(s: string): string {
    if s == "" then ""
    else if s[0] == '\\' && |s| > 1 then [s[1]] + Unquote(s[2..])
    else [s[0]] + Unquote(s[1..])
  }

  predicate CString(s: string) {
    '\0' !in s
  }

  predicate NeedsNoQuoting(s: string) {
    forall i :: 0 <= i < |s| ==> !NeedsBackslash(s[i]) && s[i] != '#'
  }

  /** A word of literals and escapes, followed by another word. */
  function Append(w: Word, tail: Word): Word
    requires Tail(w).End?
  {
    match w
    case End => tail
    case Lit(c, rest) => Lit(c, Append(rest, tail))
    case Esc(c, rest) => Esc(c, Append(rest, tail))
    case Kept(u, rest) => Kept(u, Append(rest, tail))
  }

  lemma {:induction false} QuoteWordIsFlat(s: string, first: bool)
    ensures Tail(QuoteWord(s, first)).End?
    ensures CString(s) ==> Proper(QuoteWord(s, first))
  {
    hide ExpandSeqterm;
    if s != "" {
      QuoteWordIsFlat(s[1..], false);
    }
  }

  lemma {:induction false} AppendParts(w: Word, tail: Word)
    requires Tail(w).End?
    ensures Print(Append(w, tail)) == Print(w) + Print(tail)
    ensures Denote(Append(w, tail)) == Prefixed(Print(w), Denote(tail))
    ensures Proper(w) && Proper(tail) ==> Proper(Append(w, tail))
  {
    hide Passable;
    hide StretchText;
    hide Terms;
    hide Product;
    hide ExpandSeqterm;
    hide PlainChar;
    match w {
      case End => EmptyPrefix(Denote(tail));
      case Lit(c, rest) =>
        AppendParts(rest, tail);
        PrefixedTwice([c], Print(rest), Denote(tail));
      case Esc(c, rest) =>
        AppendParts(rest, tail);
        PrefixedTwice(['\\', c], Print(rest), Denote(tail));
      case Kept(u, rest) =>
        AppendParts(rest, tail);
        PrefixedTwice(StretchText(u), Print(rest), Denote(tail));
    }
  }

  lemma UnquoteEscape(c: char, rest: string)
    ensures Unquote(['\\', c] + rest) == [c] + Unquote(rest)
  {
    assert (['\\', c] + rest)[2..] == rest;
  }

  lemma UnquoteLiteral(c: char, rest: string)
    requires c != '\\'
    ensures Unquote([c] + rest) == [c] + Unquote(rest)
  {
    assert ([c] + rest)[1..] == rest;
  }

  lemma {:induction false} UnquoteQuoted(s: string, first: bool, d: string)
    ensures Unquote(Print(QuoteWord(s, first)) + d) == s + Unquote(d)
  {
    hide Unquote;
    var w := QuoteWord(s, first);
    if s == "" {
      assert "" + d == d;
    } else {
      UnquoteQuoted(s[1..], false, d);
      var rest := Print(QuoteWord(s[1..], false));
      if w.Esc? {
        UnquoteEscape(s[0], rest + d);
        assert Print(w) + d == ['\\', s[0]] + (rest + d);
      } else {
        UnquoteLiteral(s[0], rest + d);
        assert Print(w) + d == [s[0]] + (rest + d);
      }
      assert [s[0]] + (s[1..] + Unquote(d)) == s + Unquote(d);
    }
  }

  lemma {:induction false} QuotePlain(s: string, first: bool)
    requires NeedsNoQuoting(s)
    ensures Print(QuoteWord(s, first)) == s
  {
    if s != "" {
      QuotePlain(s[1..], false);
      assert s == [s[0]] + s[1..];
    }
  }

  // ----- the compression -----

  /** Names that share a prefix lie side by side: going right never lengthens the common prefix. */
  ghost predicate Clustered(names: seq<string>, lo: nat, hi: nat)
    requires hi <= |names|
  {
    forall i, j, k :: lo <= i <= j <= k < hi ==> CommonPrefix(names[i], names[k]) <= CommonPrefix(names[i], names[j])
  }

  /** All names of the range begin with the same z characters. */
  ghost predicate Shares(names: seq<string>, lo: nat, hi: nat, z: nat)
    requires hi <= |names|
  {
    && (forall i :: lo <= i < hi ==> z <= |names[i]|)
    && (forall i, j :: lo <= i < hi && lo <= j < hi ==> names[i][..z] == names[j][..z])
  }

  /** The end of the group that starts at start: the first name whose common prefix with it is not longer than z. */
  function GroupEnd(names: seq<string>, start: nat, end: nat, hi: nat, z: nat): (r: nat)
    requires start < end <= hi <= |names|
    ensures end <= r <= hi
    ensures forall i :: end <= i < r ==> CommonPrefix(names[start], names[i]) > z
    ensures r < hi ==> CommonPrefix(names[start], names[r]) <= z
    decreases hi - end
  {
    if end < hi && CommonPrefix(names[start], names[end]) > z then GroupEnd(names, start, end + 1, hi, z) else end
  }

  /** What a group of names has in common. */
  function GroupPrefix(names: seq<string>, start: nat, end: nat): (g: nat)
    requires start < end <= |names|
    ensures g <= |names[start]|
  {
    if end == start + 1 then |names[start]| else CommonPrefix(names[start], names[end - 1])
  }

  /** A group of names that agree on more than z characters, or a single name. */
  ghost predicate IsGroup(names: seq<string>, start: nat, end: nat, z: nat) {
    && start < end <= |names| && Clustered(names, start, end) && Shares(names, start, end, z)
    && (end > start + 1 ==> CommonPrefix(names[start], names[end - 1]) > z)
  }

  lemma GroupShares(names: seq<string>, start: nat, end: nat)
    requires start < end <= |names| && Clustered(names, start, end)
    ensures Shares(names, start, end, if end == start + 1 then 0 else CommonPrefix(names[start], names[end - 1]))
  {
    if end > start + 1 {
      var g := CommonPrefix(names[start], names[end - 1]);
      forall i | start <= i < end ensures g <= |names[i]| && names[i][..g] == names[start][..g] {
        CommonPrefixAgrees(names[start], names[i], g);
      }
    }
  }

  lemma FirstGroup(names: seq<string>, lo: nat, hi: nat, z: nat)
    requires lo < hi <= |names| && Clustered(names, lo, hi) && Shares(names, lo, hi, z)
    ensures IsGroup(names, lo, GroupEnd(names, lo, lo + 1, hi, z), z)
  {
  }

  /** The word a group is compressed to: its further common prefix, then the rest in braces. */
  ghost function GroupWord(names: seq<string>, start: nat, end: nat, z: nat): Word
    requires IsGroup(names, start, end, z)
    decreases end - start, |names[start]| - z, 0
  {
    if end == start + 1 then QuoteWord(names[start][z..], true)
    else
      var g := GroupPrefix(names, start, end);
      GroupShares(names, start, end);
      QuoteWordIsFlat(names[start][z..g], true);
      Append(QuoteWord(names[start][z..g], true), Alt(GroupList(names, start, end, g), End))
  }

  ghost function GroupList(names: seq<string>, lo: nat, hi: nat, z: nat): Branches
    requires lo < hi <= |names| && Clustered(names, lo, hi) && Shares(names, lo, hi, z)
    decreases hi - lo, |names[lo]| - z, 1
  {
    var end := GroupEnd(names, lo, lo + 1, hi, z);
    FirstGroup(names, lo, hi, z);
    var word := GroupWord(names, lo, end, z);
    if end == hi then Last(word) else More(word, GroupList(names, end, hi, z))
  }

  /** The word for a whole list: braces around all of it unless all names form one group. */
  ghost function NamesWord(names: seq<string>, lo: nat, hi: nat): Word
    requires lo < hi <= |names| && Clustered(names, lo, hi)
  {
    FirstGroup(names, lo, hi, 0);
    if GroupEnd(names, lo, lo + 1, hi, 0) == hi then GroupWord(names, lo, hi, 0)
    else Alt(GroupList(names, lo, hi, 0), End)
  }

  /** Inside a group of several names, cutting off their common prefix leaves at least two groups. */
  lemma GroupSplits(names: seq<string>, start: nat, end: nat)
    requires start + 1 < end <= |names| && Clustered(names, start, end)
    requires Shares(names, start, end, GroupPrefix(names, start, end))
    ensures GroupList(names, start, end, GroupPrefix(names, start, end)).More?
  {
  }

  // ----- the round trip -----

  ghost predicate CStrings(names: seq<string>, lo: nat, hi: nat)
    requires hi <= |names|
  {
    forall i :: lo <= i < hi ==> CString(names[i])
  }

  lemma PieceIsProper(name: string, lo: nat, hi: nat)
    requires lo <= hi <= |name| && CString(name)
    ensures Tail(QuoteWord(name[lo..hi], true)).End? && Proper(QuoteWord(name[lo..hi], true))
  {
    assert forall i :: 0 <= i < hi - lo ==> name[lo..hi][i] == name[lo + i];
    QuoteWordIsFlat(name[lo..hi], true);
  }

  lemma PrefixedListIsProper(name: string, lo: nat, hi: nat, list: Branches)
    requires lo <= hi <= |name| && CString(name) && list.More? && ProperBranches(list)
    ensures Tail(QuoteWord(name[lo..hi], true)).End?
    ensures Proper(Append(QuoteWord(name[lo..hi], true), Alt(list, End)))
  {
    PieceIsProper(name, lo, hi);
    assert Proper(End) && Proper(Alt(list, End));
    AppendParts(QuoteWord(name[lo..hi], true), Alt(list, End));
  }

  lemma {:induction false} GroupWordIsProper(names: seq<string>, start: nat, end: nat, z: nat)
    requires IsGroup(names, start, end, z) && CStrings(names, start, end)
    ensures Proper(GroupWord(names, start, end, z))
    decreases end - start, |names[start]| - z, 0
  {
    hide ExpandSeqterm;
    if end == start + 1 {
      PieceIsProper(names[start], z, |names[start]|);
      assert names[start][z..|names[start]|] == names[start][z..];
    } else {
      var g := GroupPrefix(names, start, end);
      GroupShares(names, start, end);
      GroupListIsProper(names, start, end, g);
      GroupSplits(names, start, end);
      PrefixedListIsProper(names[start], z, g, GroupList(names, start, end, g));
    }
  }

  lemma {:induction false} GroupListIsProper(names: seq<string>, lo: nat, hi: nat, z: nat)
    requires lo < hi <= |names| && Clustered(names, lo, hi) && Shares(names, lo, hi, z) && CStrings(names, lo, hi)
    ensures ProperBranches(GroupList(names, lo, hi, z))
    decreases hi - lo, |names[lo]| - z, 1
  {
    hide ExpandSeqterm;
    var end := GroupEnd(names, lo, lo + 1, hi, z);
    FirstGroup(names, lo, hi, z);
    GroupWordIsProper(names, lo, end, z);
    if end < hi {
      GroupListIsProper(names, end, hi, z);
    }
  }

  /** The word reads as the name once its backslashes are removed, and is the name if that needed no quoting. */
  ghost predicate Spells(word: string, name: string) {
    Unquote(word) == name && (NeedsNoQuoting(name) ==> word == name)
  }

  /** The words stand for the names of the range, z characters dropped. */
  ghost predicate StandsFor(words: seq<string>, names: seq<string>, lo: nat, hi: nat, z: nat)
    requires lo <= hi <= |names| && Shares(names, lo, hi, z)
  {
    |words| == hi - lo && forall i :: 0 <= i < |words| ==> Spells(words[i], names[lo + i][z..])
  }

  /** A quoted piece in front of a spelling of the rest spells the whole. */
  lemma PieceSpells(piece: string, word: string, rest: string)
    requires Spells(word, rest)
    ensures Spells(Print(QuoteWord(piece, true)) + word, piece + rest)
  {
    UnquoteQuoted(piece, true, word);
    if NeedsNoQuoting(piece + rest) {
      assert NeedsNoQuoting(piece) by {
        forall i | 0 <= i < |piece| ensures !NeedsBackslash(piece[i]) && piece[i] != '#' {
          assert (piece + rest)[i] == piece[i];
        }
      }
      assert NeedsNoQuoting(rest) by {
        forall i | 0 <= i < |rest| ensures !NeedsBackslash(rest[i]) && rest[i] != '#' {
          assert (piece + rest)[|piece| + i] == rest[i];
        }
      }
      QuotePlain(piece, true);
    }
  }

  lemma SingleStandsFor(names: seq<string>, i: nat, z: nat)
    requires i < |names| && z <= |names[i]|
    ensures StandsFor(Denote(QuoteWord(names[i][z..], true)), names, i, i + 1, z)
  {
    hide ExpandSeqterm;
    var s := names[i][z..];
    QuoteWordIsFlat(s, true);
    AppendParts(QuoteWord(s, true), End);
    AppendEnd(QuoteWord(s, true));
    PieceSpells(s, "", "");
    assert s + "" == s;
  }

  lemma {:induction false} AppendEnd(w: Word)
    requires Tail(w).End?
    ensures Append(w, End) == w
  {
    if !w.End? {
      AppendEnd(w.rest);
    }
  }

  /** Putting the quoted common prefix back in front of what stands for the rest. */
  lemma PrefixStandsFor(prefix: string, rest: seq<string>, names: seq<string>, lo: nat, hi: nat, z: nat, g: nat)
    requires lo < hi <= |names| && z <= g && Shares(names, lo, hi, z) && Shares(names, lo, hi, g)
    requires prefix == Print(QuoteWord(names[lo][z..g], true)) && StandsFor(rest, names, lo, hi, g)
    ensures StandsFor(Prefixed(prefix, rest), names, lo, hi, z)
  {
    hide Passable;
    hide StretchText;
    hide ExpandSeqterm;
    forall i | 0 <= i < |rest| ensures Spells(prefix + rest[i], names[lo + i][z..]) {
      var name := names[lo + i];
      PieceSpells(names[lo][z..g], rest[i], name[g..]);
      assert names[lo][z..g] == names[lo][..g][z..] == name[..g][z..] == name[z..g];
      assert name[z..g] + name[g..] == name[z..];
    }
  }

  lemma {:induction false} GroupWordStandsFor(names: seq<string>, start: nat, end: nat, z: nat)
    requires IsGroup(names, start, end, z)
    ensures StandsFor(Denote(GroupWord(names, start, end, z)), names, start, end, z)
    decreases end - start, |names[start]| - z, 0
  {
    hide Passable;
    hide StretchText;
    hide ExpandSeqterm;
    hide Product;
    hide Print;
    if end == start + 1 {
      SingleStandsFor(names, start, z);
    } else {
      var g := GroupPrefix(names, start, end);
      GroupShares(names, start, end);
      GroupListStandsFor(names, start, end, g);
      var list := GroupList(names, start, end, g);
      var quoted := QuoteWord(names[start][z..g], true);
      QuoteWordIsFlat(names[start][z..g], true);
      AppendParts(quoted, Alt(list, End));
      ProductUnitRight(DenoteBranches(list));
      PrefixStandsFor(Print(quoted), DenoteBranches(list), names, start, end, z, g);
    }
  }

  lemma {:induction false} GroupListStandsFor(names: seq<string>, lo: nat, hi: nat, z: nat)
    requires lo < hi <= |names| && Clustered(names, lo, hi) && Shares(names, lo, hi, z)
    ensures StandsFor(DenoteBranches(GroupList(names, lo, hi, z)), names, lo, hi, z)
    decreases hi - lo, |names[lo]| - z, 1
  {
    hide ExpandSeqterm;
    var end := GroupEnd(names, lo, lo + 1, hi, z);
    FirstGroup(names, lo, hi, z);
    GroupWordStandsFor(names, lo, end, z);
    if end < hi {
      GroupListStandsFor(names, end, hi, z);
      Joined(Denote(GroupWord(names, lo, end, z)), DenoteBranches(GroupList(names, end, hi, z)), names, lo, end, hi, z);
    }
  }

  lemma Joined(a: seq<string>, b: seq<string>, names: seq<string>, lo: nat, mid: nat, hi: nat, z: nat)
    requires lo <= mid <= hi <= |names| && Shares(names, lo, hi, z)
    requires StandsFor(a, names, lo, mid, z) && StandsFor(b, names, mid, hi, z)
    ensures StandsFor(a + b, names, lo, hi, z)
  {
  }

  lemma NamesWordStandsFor(names: seq<string>, lo: nat, hi: nat)
    requires lo < hi <= |names| && Clustered(names, lo, hi) && CStrings(names, lo, hi)
    ensures Proper(NamesWord(names, lo, hi))
    ensures Shares(names, lo, hi, 0) && StandsFor(Denote(NamesWord(names, lo, hi)), names, lo, hi, 0)
  {
    hide Clustered;
    hide Passable;
    hide StretchText;
    hide ExpandSeqterm;
    FirstGroup(names, lo, hi, 0);
    if GroupEnd(names, lo, lo + 1, hi, 0) == hi {
      GroupWordIsProper(names, lo, hi, 0);
      GroupWordStandsFor(names, lo, hi, 0);
    } else {
      GroupListIsProper(names, lo, hi, 0);
      GroupListStandsFor(names, lo, hi, 0);
      ProductUnitRight(DenoteBranches(GroupList(names, lo, hi, 0)));
    }
  }

  /** Expanding the compressed word gives the names back, in order, each as quoting spells it. */
  lemma CompletionRoundTrip(names: seq<string>, lo: nat, hi: nat)
    requires lo < hi <= |names| && Clustered(names, lo, hi) && CStrings(names, lo, hi)
    ensures var words := BraceExpand(Print(NamesWord(names, lo, hi)));
            |words| == hi - lo && forall i :: 0 <= i < |words| ==> Spells(words[i], names[lo + i])
  {
    hide ExpandSeqterm;
    NamesWordStandsFor(names, lo, hi);
    ExpansionMeaning(NamesWord(names, lo, hi));
    forall i | lo <= i < hi ensures names[i][0..] == names[i] {
    }
  }

  /** For sorted names that need no quoting, expansion undoes completion exactly. */
  lemma PlainRoundTrip(names: seq<string>)
    requires names != [] && SortedNames(names, 0, |names|)
    requires forall name :: name in names ==> CString(name) && NeedsNoQuoting(name)
    ensures Clustered(names, 0, |names|) && BraceExpand(Print(NamesWord(names, 0, |names|))) == names
  {
    SortedIsClustered(names, 0, |names|);
    CompletionRoundTrip(names, 0, |names|);
  }

  // ----- sorted lists are clustered -----

  /** strcmp(a, b) <= 0. */
  predicate Precedes(a: string, b: string) {
    a == "" || (b != "" && (a[0] < b[0] || (a[0] == b[0] && Precedes(a[1..], b[1..]))))
  }

  ghost predicate SortedNames(names: seq<string>, lo: nat, hi: nat)
    requires hi <= |names|
  {
    forall i, j :: lo <= i <= j < hi ==> Precedes(names[i], names[j])
  }

  lemma {:induction false} BetweenSharesPrefix(a: string, b: string, c: string)
    requires Precedes(a, b) && Precedes(b, c)
    ensures CommonPrefix(a, c) <= CommonPrefix(a, b)
  {
    if CommonPrefix(a, c) > 0 {
      BetweenSharesPrefix(a[1..], b[1..], c[1..]);
    }
  }

  lemma SortedIsClustered(names: seq<string>, lo: nat, hi: nat)
    requires hi <= |names| && SortedNames(names, lo, hi)
    ensures Clustered(names, lo, hi)
  {
    forall i, j, k | lo <= i <= j <= k < hi
      ensures CommonPrefix(names[i], names[k]) <= CommonPrefix(names[i], names[j])
    {
      BetweenSharesPrefix(names[i], names[j], names[k]);
    }
  }

  /** The first character as a signed char, with the terminator for the empty string. */
  function FirstSigned(s: string): int {
    var c := At(s, 0) as int % 256;
    if c < 128 then c else c - 256
  }

  /** _strcompare(a, b) <= 0: first characters are compared as signed chars, the rest as strcmp does. */
  predicate ComparesBefore(a: string, b: string) {
    FirstSigned(a) < FirstSigned(b) || (FirstSigned(a) == FirstSigned(b) && Precedes(a, b))
  }

  /** qsort's result is clustered too, although it puts first characters above 127 in front. */
  lemma ComparedIsClustered(names: seq<string>, lo: nat, hi: nat)
    requires hi <= |names| && forall i, j :: lo <= i <= j < hi ==> ComparesBefore(names[i], names[j])
    ensures Clustered(names, lo, hi)
  {
    forall i, j, k | lo <= i <= j <= k < hi
      ensures CommonPrefix(names[i], names[k]) <= CommonPrefix(names[i], names[j])
    {
      assert ComparesBefore(names[i], names[j]) && ComparesBefore(names[j], names[k]);
      if CommonPrefix(names[i], names[k]) > 0 {
        BetweenSharesPrefix(names[i], names[j], names[k]);
      }
    }
  }

  // ----- the methods -----

  /** The inner loop of really_munge_braces: how far the group from start reaches, and its common prefix. */
  method FindGroup(names: seq<string>, start: nat, hi: nat, gcdZero: nat) returns (end: nat, gcd: nat)
    requires start < hi <= |names|
    ensures end == GroupEnd(names, start, start + 1, hi, gcdZero) && gcd == GroupPrefix(names, start, end)
  {
    gcd := |names[start]|;
    end := start + 1;
    while end < hi
      invariant start < end <= hi && gcd == GroupPrefix(names, start, end)
      invariant GroupEnd(names, start, end, hi, gcdZero) == GroupEnd(names, start, start + 1, hi, gcdZero)
    {
      var temp := StringGcd(names[start], names[end]);
      if temp <= gcdZero {
        break;
      }
      gcd := temp;
      end := end + 1;
    }
  }

  /** The text of one group: a quoted name, or the quoted prefix and the braces around the rest. */
  method MungeGroup(names: seq<string>, start: nat, end: nat, gcdZero: nat, gcd: nat) returns (text: string)
    requires IsGroup(names, start, end, gcdZero) && gcd == GroupPrefix(names, start, end)
    ensures text == Print(GroupWord(names, start, end, gcdZero))
    decreases end - start, |names[start]| - gcdZero, 0
  {
    if start + 1 == end {
      return BackslashQuote(names[start][gcdZero..]);
    }
    GroupShares(names, start, end);
    var subterm := ReallyMungeBraces(names, start, end, gcd);
    subterm := subterm[..|subterm| - 1] + "}";
    text := BackslashQuote(names[start][gcdZero..gcd]) + "{" + subterm;
    ghost var prefix, list := names[start][gcdZero..gcd], GroupList(names, start, end, gcd);
    assert Shares(names, start, end, gcd)
           && Print(GroupWord(names, start, end, gcdZero)) == BackslashQuote(prefix) + "{" + (PrintBranches(list) + "}") by {
      hide Print;
      hide PrintBranches;
      hide GroupWord;
      hide GroupList;
      hide QuoteWord;
      GroupWordOfSeveral(names, start, end, gcdZero);
      BracedText(QuoteWord(prefix, true), list);
    }
  }

  lemma GroupWordOfSeveral(names: seq<string>, start: nat, end: nat, z: nat)
    requires IsGroup(names, start, end, z) && start + 1 < end
    ensures var g := GroupPrefix(names, start, end);
            Shares(names, start, end, g) && Tail(QuoteWord(names[start][z..g], true)).End?
            && GroupWord(names, start, end, z)
               == Append(QuoteWord(names[start][z..g], true), Alt(GroupList(names, start, end, g), End))
  {
    GroupShares(names, start, end);
    QuoteWordIsFlat(names[start][z..GroupPrefix(names, start, end)], true);
  }

  lemma BracedText(q: Word, list: Branches)
    requires Tail(q).End?
    ensures Print(Append(q, Alt(list, End))) == Print(q) + "{" + (PrintBranches(list) + "}")
  {
    AppendParts(q, Alt(list, End));
    assert Print(Alt(list, End)) == "{" + (PrintBranches(list) + "}");
    hide Print;
    hide PrintBranches;
    assert Print(q) + ("{" + (PrintBranches(list) + "}")) == Print(q) + "{" + (PrintBranches(list) + "}");
  }

  /** What the groups from start on add to the result. */
  ghost function Remaining(names: seq<string>, start: nat, hi: nat, z: nat): string
    requires start <= hi <= |names| && Clustered(names, start, hi) && Shares(names, start, hi, z)
  {
    if start == hi then "" else PrintBranches(GroupList(names, start, hi, z)) + ","
  }

  lemma AppendText(result: string, text: string, rest: string)
    ensures result + (text + "," + rest) == result + text + "," + rest
  {
  }

  lemma NextGroup(names: seq<string>, start: nat, hi: nat, z: nat)
    requires start < hi <= |names| && Clustered(names, start, hi) && Shares(names, start, hi, z)
    ensures var end := GroupEnd(names, start, start + 1, hi, z);
            IsGroup(names, start, end, z) && start < end <= hi
            && Clustered(names, end, hi) && Shares(names, end, hi, z)
            && Remaining(names, start, hi, z) == Print(GroupWord(names, start, end, z)) + "," + Remaining(names, end, hi, z)
  {
    FirstGroup(names, start, hi, z);
  }

  /** The outer loop of really_munge_braces: the groups one after the other, a comma after each. */
  method MungeGroups(names: seq<string>, lo: nat, hi: nat, gcdZero: nat) returns (result: string, flag: bool)
    requires lo < hi <= |names| && Clustered(names, lo, hi) && Shares(names, lo, hi, gcdZero)
    ensures flag <==> gcdZero == 0 && GroupEnd(names, lo, lo + 1, hi, gcdZero) != hi
    ensures result == (if flag then "{" else "") + (PrintBranches(GroupList(names, lo, hi, gcdZero)) + ",")
    decreases hi - lo, |names[lo]| - gcdZero, 1
  {
    hide GroupEnd;
    hide PrintBranches;
    hide Print;
    hide GroupWord;
    hide GroupList;
    hide Clustered;
    hide Shares;
    hide IsGroup;
    result := "";
    flag := false;
    var start := lo;
    ghost var all := Remaining(names, lo, hi, gcdZero);
    while start < hi
      invariant lo <= start <= hi && Clustered(names, start, hi) && Shares(names, start, hi, gcdZero)
      invariant start == lo ==> !flag && result == ""
      invariant start > lo ==> (flag <==> gcdZero == 0 && GroupEnd(names, lo, lo + 1, hi, gcdZero) != hi)
      invariant result + Remaining(names, start, hi, gcdZero)
             == (if flag then "{" else "") + all
    {
      var end, gcd := FindGroup(names, start, hi, gcdZero);
      NextGroup(names, start, hi, gcdZero);
      if gcdZero == 0 && start == lo && end != hi {
        result := "{";
        flag := true;
      }
      var text := MungeGroup(names, start, end, gcdZero, gcd);
      AppendText(result, text, Remaining(names, end, hi, gcdZero));
      result := result + text + ",";
      start := end;
    }
    assert result + "" == result;
  }

  /** really_munge_braces: without a common prefix of its own it closes or drops the trailing comma. */
  method ReallyMungeBraces(names: seq<string>, lo: nat, hi: nat, gcdZero: nat) returns (result: string)
    requires lo < hi <= |names| && Clustered(names, lo, hi) && Shares(names, lo, hi, gcdZero)
    ensures gcdZero > 0 ==> result == PrintBranches(GroupList(names, lo, hi, gcdZero)) + ","
    ensures gcdZero == 0 ==> result == Print(NamesWord(names, lo, hi))
    decreases hi - lo, |names[lo]| - gcdZero, 2
  {
    var flag;
    result, flag := MungeGroups(names, lo, hi, gcdZero);
    if gcdZero == 0 {
      result := result[..|result| - 1] + if flag then "}" else "";
    }
  }

  /** hack_braces_completion on matches that were sorted, by either order: slot 0 holds their common prefix, or the only match. */
  method HackBracesCompletion(names: seq<string>) returns (word: string)
    requires names != [] && Clustered(names, 1, |names|)
    ensures |names| == 1 ==> word == BackslashQuote(names[0])
    ensures |names| > 1 ==> word == Print(NamesWord(names, 1, |names|))
  {
    if |names| == 1 {
      return BackslashQuote(names[0]);
    }
    word := ReallyMungeBraces(names, 1, |names|, 0);
  }
}
