/** brace_expand, expand_amble and array_concat. */
module Braces {
  import opened Text
  import opened BraceScanner
  import opened BraceSequence

  /** head prefixed to each word. */
  function Prefixed(head: string, words: seq<string>): (r: seq<string>)
    ensures |r| == |words|
    ensures forall j :: 0 <= j < |r| ==> r[j] == head + words[j]
  {
    seq(|words|, j requires 0 <= j < |words| => head + words[j])
  }

  /** Every word of the first vector followed by every word of the second, first vector outermost. */
  function Product(first: seq<string>, second: seq<string>): seq<string> {
    if first == [] then [] else Prefixed(first[0], second) + Product(first[1..], second)
  }

  /** Index of the first comma not preceded by a backslash, or the length. */
  function FirstComma(text: string, j: nat): (r: nat)
    ensures r >= j
    decreases |text| - j
  {
    if j >= |text| || text[j] == ',' then j
    else if text[j] == '\\' then FirstComma(text, j + 2)
    else FirstComma(text, j + 1)
  }

  predicate HasSeparator(text: string) {
    FirstComma(text, 0) < |text|
  }

  /** The first opening brace from i on whose word is closed, or the end of the text. */
  function FindBraceWord(text: string, i: nat): (r: nat)
    requires i <= |text|
    ensures i <= r <= |text|
    decreases |text| - i
  {
    var open := Gobble(text, '{', StartAt(i, '{'));
    if open == |text| then open
    else if Gobble(text, '}', StartAt(open + 1, '}')) < |text| then open
    else FindBraceWord(text, open + 1)
  }

  /** Index of the brace that closes the word opened at index open. */
  function CloseOf(text: string, open: nat): (close: nat)
    requires open < |text|
    ensures open < close <= |text|
  {
    Gobble(text, '}', StartAt(open + 1, '}'))
  }

  /** The word is closed when FindBraceWord stops inside the text. */
  lemma {:induction false} FoundWordIsClosed(text: string, i: nat)
    requires i <= |text| && FindBraceWord(text, i) < |text|
    ensures text[FindBraceWord(text, i)] == '{'
    ensures CloseOf(text, FindBraceWord(text, i)) < |text|
    decreases |text| - i
  {
    GobbleFindsSatisfy(text, '{', StartAt(i, '{'));
    var open := Gobble(text, '{', StartAt(i, '{'));
    if CloseOf(text, open) == |text| {
      FoundWordIsClosed(text, open + 1);
    }
  }

  /** The expansion of the text between a pair of braces; none when it is neither a list nor a sequence. */
  function ExpandBraced(amble: string): (r: Option<seq<string>>)
    ensures r.Some? ==> |r.value| > 0
    decreases |amble|, 2, 0
  {
    if HasSeparator(amble) then Some(ExpandAmble(amble, 0)) else ExpandSeqterm(amble)
  }

  /** The words of a preamble followed by a brace word, in a text that ends with its closing brace. */
  function ExpandHead(text: string, open: nat, close: nat): (words: Option<seq<string>>)
    requires open < close < |text|
    ensures words.Some? ==> |words.value| > 0
    decreases |text| - 1, 3, 0
  {
    var tack := ExpandBraced(text[open + 1..close]);
    if tack.None? && close + 1 == |text| then None
    else
      var middle := if tack.Some? then tack.value else [text[open..close + 1]];
      Some(Product([text[..open]], middle))
  }

  /** The words the shell replaces text with. */
  function BraceExpand(text: string): (words: seq<string>)
    ensures |words| > 0
    decreases |text|, 0, 0
  {
    var open := FindBraceWord(text, 0);
    if open == |text| then [text]
    else
      var close := CloseOf(text, open);
      if close == |text| then [text]
      else
        var head := ExpandHead(text, open, close);
        if head.None? then [text]
        else if close + 1 == |text| then head.value
        else
          Product(head.value, BraceExpand(text[close + 1..]))
  }

  /** The expansions of the comma-separated pieces from index i on, one after the other. */
  function ExpandAmble(text: string, i: nat): (words: seq<string>)
    requires i <= |text|
    ensures |words| > 0
    decreases |text|, 1, |text| - i
  {
    var end := Gobble(text, ',', StartAt(i, ','));
    if end == |text| then BraceExpand(text[i..end])
    else BraceExpand(text[i..end]) + ExpandAmble(text, end + 1)
  }

  /** A brace word whose amble expands: preamble times amble, times the expansion of what follows. */
  lemma ExpandAtWord(text: string, open: nat, close: nat, middle: seq<string>)
    requires open < close < |text| && FindBraceWord(text, 0) == open && CloseOf(text, open) == close
    requires ExpandBraced(text[open + 1..close]) == Some(middle)
    ensures BraceExpand(text)
         == if close + 1 == |text| then Product([text[..open]], middle)
            else Product(Product([text[..open]], middle), BraceExpand(text[close + 1..]))
  {
    hide Gobble;
    hide FindBraceWord;
    hide ExpandBraced;
    hide Product;
    assert ExpandHead(text, open, close) == Some(Product([text[..open]], middle));
  }

  // ----- array_concat: the product, with its short-circuits -----

  lemma {:induction false} ProductLength(first: seq<string>, second: seq<string>)
    ensures |Product(first, second)| == |first| * |second|
  {
    if first != [] {
      ProductLength(first[1..], second);
      assert |first| * |second| == |second| + (|first| - 1) * |second|;
    }
  }

  lemma EmptyPrefix(words: seq<string>)
    ensures Prefixed("", words) == words
  {
    forall j | 0 <= j < |words| ensures Prefixed("", words)[j] == words[j] {
      assert "" + words[j] == words[j];
    }
  }

  lemma {:induction false} ProductUnitLeft(words: seq<string>)
    ensures Product([""], words) == words
  {
    EmptyPrefix(words);
    assert [""][1..] == [];
  }

  lemma {:induction false} ProductUnitRight(words: seq<string>)
    ensures Product(words, [""]) == words
  {
    if words != [] {
      ProductUnitRight(words[1..]);
      assert words[0] + "" == words[0];
      assert Prefixed(words[0], [""]) == [words[0]];
      assert words == [words[0]] + words[1..];
    }
  }

  lemma {:induction false} ProductDistributes(a: seq<string>, b: seq<string>, c: seq<string>)
    ensures Product(a + b, c) == Product(a, c) + Product(b, c)
  {
    if a == [] {
      assert a + b == b;
    } else {
      ProductDistributes(a[1..], b, c);
      assert (a + b)[0] == a[0] && (a + b)[1..] == a[1..] + b;
      var row, rest := Prefixed(a[0], c), Product(a[1..], c);
      assert row + (rest + Product(b, c)) == row + rest + Product(b, c);
    }
  }

  lemma {:induction false} PrefixedProduct(head: string, a: seq<string>, b: seq<string>)
    ensures Product(Prefixed(head, a), b) == Prefixed(head, Product(a, b))
  {
    if a != [] {
      PrefixedProduct(head, a[1..], b);
      assert Prefixed(head, a)[1..] == Prefixed(head, a[1..]);
      assert Prefixed(head + a[0], b) == Prefixed(head, Prefixed(a[0], b)) by {
        forall j | 0 <= j < |b| ensures Prefixed(head + a[0], b)[j] == Prefixed(head, Prefixed(a[0], b))[j] {
          assert head + a[0] + b[j] == head + (a[0] + b[j]);
        }
      }
      assert Prefixed(head, Prefixed(a[0], b) + Product(a[1..], b))
          == Prefixed(head, Prefixed(a[0], b)) + Prefixed(head, Product(a[1..], b));
    }
  }

  lemma {:induction false} ProductAssociative(a: seq<string>, b: seq<string>, c: seq<string>)
    ensures Product(Product(a, b), c) == Product(a, Product(b, c))
  {
    if a != [] {
      ProductAssociative(a[1..], b, c);
      ProductDistributes(Prefixed(a[0], b), Product(a[1..], b), c);
      PrefixedProduct(a[0], b, c);
    }
  }

  /** array_concat: a vector holding the single empty word is the unit, and is not copied around. */
  method ArrayConcat(arr1: seq<string>, arr2: seq<string>) returns (result: seq<string>)
    ensures result == Product(arr1, arr2)
    ensures |result| == |arr1| * |arr2|
  {
    hide Product;
    hide Prefixed;
    ProductLength(arr1, arr2);
    if |arr1| == 1 && arr1[0] == "" {
      ProductUnitLeft(arr2);
      assert arr1 == [""];
      return arr2;
    }
    if |arr2| == 1 && arr2[0] == "" {
      ProductUnitRight(arr1);
      assert arr2 == [""];
      return arr1;
    }
    result := [];
    var i := 0;
    while i < |arr1|
      invariant 0 <= i <= |arr1| && result + Product(arr1[i..], arr2) == Product(arr1, arr2)
    {
      ProductStep(arr1, arr2, i);
      ghost var row, rest := Prefixed(arr1[i], arr2), Product(arr1[i + 1..], arr2);
      assert result + (row + rest) == result + row + rest;
      result := AppendRow(result, arr1[i], arr2);
      i := i + 1;
    }
    ProductStep(arr1, arr2, i);
  }

  lemma ProductStep(first: seq<string>, second: seq<string>, i: nat)
    requires i <= |first|
    ensures i == |first| ==> Product(first[i..], second) == []
    ensures i < |first| ==> Product(first[i..], second) == Prefixed(first[i], second) + Product(first[i + 1..], second)
  {
    assert i < |first| ==> first[i..][1..] == first[i + 1..];
  }

  /** The inner loop of array_concat: one word of the first vector before each word of the second. */
  method AppendRow(row: seq<string>, head: string, words: seq<string>) returns (result: seq<string>)
    ensures result == row + Prefixed(head, words)
  {
    result := row;
    var j := 0;
    while j < |words|
      invariant 0 <= j <= |words| && result == row + Prefixed(head, words)[..j]
    {
      result := result + [head + words[j]];
      j := j + 1;
    }
    assert Prefixed(head, words)[..j] == Prefixed(head, words);
  }

  // ----- the methods -----

  /** The loop of brace_expand that looks for unquoted commas. */
  method ScanSeparator(amble: string) returns (found: bool)
    ensures found <==> HasSeparator(amble)
  {
    var j := 0;
    while j < |amble|
      invariant FirstComma(amble, j) == FirstComma(amble, 0)
      decreases |amble| - j
    {
      if amble[j] == '\\' {
        j := j + 2;
        continue;
      }
      if amble[j] == ',' {
        break;
      }
      j := j + 1;
    }
    found := j < |amble|;
  }

  /** The do-while loop of brace_expand: stops at the end or at a brace that begins a brace word. */
  method FindWord(text: string) returns (found: bool, i: nat)
    requires NoSubstitution(text)
    ensures i == FindBraceWord(text, 0) && (found <==> i < |text|)
  {
    i := 0;
    var c := true;
    while c
      invariant c && i <= |text| && FindBraceWord(text, i) == FindBraceWord(text, 0)
      decreases |text| - i
    {
      c, i := BraceGobbler(text, i, '{');
      if !c {
        break;
      }
      var closed, j := BraceGobbler(text, i + 1, '}');
      if closed {
        break;
      }
      i := i + 1;
    }
    found := c;
  }

  /** The middle of brace_expand: a list when the amble has an unquoted comma, else perhaps a sequence. */
  method ExpandBetween(amble: string) returns (tack: Option<seq<string>>)
    requires NoSubstitution(amble)
    ensures tack == ExpandBraced(amble)
    decreases |amble|, 2, 0
  {
    var list := ScanSeparator(amble);
    if list {
      var words := SplitAmble(amble);
      return Some(words);
    }
    return ExpandSeqterm(amble);
  }

  /** The part of brace_expand up to the closing brace; none when nothing is expanded. */
  method ExpandPreambleAndAmble(text: string, open: nat, close: nat) returns (words: Option<seq<string>>)
    requires NoSubstitution(text) && open < close < |text|
    ensures words == ExpandHead(text, open, close)
    decreases |text| - 1, 3, 0
  {
    var tack := ExpandBetween(text[open + 1..close]);
    if tack.None? && close + 1 == |text| {
      return None;
    }
    var middle := if tack.Some? then tack.value else [text[open..close + 1]];
    var result := ArrayConcat([text[..open]], middle);
    return Some(result);
  }

  /** brace_expand: splits text into preamble, amble and postamble, and multiplies their expansions. */
  method ExpandText(text: string) returns (result: seq<string>)
    requires NoSubstitution(text)
    ensures result == BraceExpand(text)
    decreases |text|, 0, 0
  {
    hide Gobble;
    hide FindBraceWord;
    hide ExpandHead;
    hide Product;
    var found, open := FindWord(text);
    if !found {
      return [text];
    }
    FoundWordIsClosed(text, 0);
    var _, close := BraceGobbler(text, open + 1, '}');
    var head := ExpandPreambleAndAmble(text, open, close);
    if head.None? {
      return [text];
    }
    result := head.value;
    if close + 1 < |text| {
      var rest := ExpandText(text[close + 1..]);
      result := ArrayConcat(result, rest);
    }
  }

  /** expand_amble: expands each comma-separated piece and appends the results. */
  method SplitAmble(text: string) returns (result: seq<string>)
    requires NoSubstitution(text)
    ensures result == ExpandAmble(text, 0)
    decreases |text|, 1, 0
  {
    hide Gobble;
    hide BraceExpand;
    hide ExpandAmble;
    result := [];
    var start, c := 0, true;
    while c
      invariant c ==> start <= |text| && result + ExpandAmble(text, start) == ExpandAmble(text, 0)
      invariant !c ==> result == ExpandAmble(text, 0)
      decreases c, |text| - start
    {
      var i;
      c, i := BraceGobbler(text, start, ',');
      var partial := ExpandText(text[start..i]);
      AppendPiece(text, start, result, partial);
      result := result + partial;
      start := i + 1;
    }
  }

  /** Moving one expanded piece to the result keeps the whole. */
  lemma AppendPiece(text: string, start: nat, done: seq<string>, partial: seq<string>)
    requires start <= |text|
    requires partial == BraceExpand(text[start..Gobble(text, ',', StartAt(start, ','))])
    ensures var end := Gobble(text, ',', StartAt(start, ','));
            done + ExpandAmble(text, start)
            == if end == |text| then done + partial else done + partial + ExpandAmble(text, end + 1)
  {
  }

  // ----- plain text -----

  lemma {:induction false} NoBraceNothingFound(text: string, s: Scan)
    requires s.i <= |text| && '{' !in text
    ensures Gobble(text, '{', s) == |text|
    decreases |text| - s.i
  {
    if s.i < |text| {
      NoBraceNothingFound(text, Advance(text, '{', s));
    }
  }

  /** Text in which no brace is found expands to itself alone. */
  lemma NothingFound(text: string)
    requires Gobble(text, '{', StartAt(0, '{')) == |text|
    ensures BraceExpand(text) == [text]
  {
  }

  /** Text without an opening brace expands to itself alone. */
  lemma PlainTextIsItself(text: string)
    requires '{' !in text
    ensures BraceExpand(text) == [text]
  {
    NoBraceNothingFound(text, StartAt(0, '{'));
  }
}
