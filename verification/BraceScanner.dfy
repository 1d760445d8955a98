/** brace_gobbler: the quote-aware scan for the character that opens, separates or closes a brace word. */
module BraceScanner {
  import opened Text

  const NO_QUOTE := '\0'

  predicate BraceWhitespace(c: char) {
    c == '\0' || c == ' ' || c == '\t' || c == '\n'
  }

  /** No `$(`, `<(` or `>(`: the scanner then never calls the command-substitution parser. */
  ghost predicate NoSubstitution(text: string) {
    forall i, j :: 0 <= i < j < |text| && j == i + 1 && text[j] == '(' ==> text[i] !in "$<>"
  }

  /** The scanner's locals: index, open quote, brace depth, separators seen, and the escape latch. */
  datatype Scan = Scan(i: nat, quoted: char, level: nat, commas: nat, pass: bool)

  function StartAt(i: nat, satisfy: char): Scan {
    Scan(i, NO_QUOTE, 0, if satisfy == '}' then 0 else 1, false)
  }

  /** An opening brace that stands alone between blanks, or is empty, is not a brace word. */
  predicate IgnoredBrace(text: string, i: nat)
    requires i < |text|
  {
    text[i] == '{'
    && (i == 0 || BraceWhitespace(text[i - 1]))
    && (BraceWhitespace(At(text, i + 1)) || At(text, i + 1) == '}')
  }

  predicate Escapes(c: char, quoted: char) {
    c == '\\' && (quoted == NO_QUOTE || quoted == '"' || quoted == '`')
  }

  predicate ParameterBrace(text: string, s: Scan)
    requires s.i < |text|
  {
    text[s.i] == '$' && At(text, s.i + 1) == '{' && s.quoted != '\''
  }

  predicate IsQuoteChar(c: char) {
    c == '"' || c == '\'' || c == '`'
  }

  /** The scan is at an unquoted, unnested satisfy character that ends the search. */
  predicate Stops(text: string, satisfy: char, s: Scan)
    requires s.i < |text|
  {
    && !s.pass && s.quoted == NO_QUOTE
    && !Escapes(text[s.i], s.quoted) && !ParameterBrace(text, s) && !IsQuoteChar(text[s.i])
    && text[s.i] == satisfy && s.level == 0 && s.commas > 0
    && !IgnoredBrace(text, s.i)
  }

  /** One turn of the scanning loop at a character that does not stop it. */
  function Advance(text: string, satisfy: char, s: Scan): (r: Scan)
    requires s.i < |text|
    ensures r.i == s.i + 1
  {
    var c := text[s.i];
    var next := s.(i := s.i + 1);
    if s.pass then next.(pass := false)
    else if Escapes(c, s.quoted) then next.(pass := true)
    else if ParameterBrace(text, s) then
      next.(pass := true, level := if s.quoted == NO_QUOTE then s.level + 1 else s.level)
    else if s.quoted != NO_QUOTE then next.(quoted := if c == s.quoted then NO_QUOTE else s.quoted)
    else if IsQuoteChar(c) then next.(quoted := c)
    else if c == satisfy && s.level == 0 && s.commas > 0 then next
    else if c == '{' then next.(level := s.level + 1)
    else if c == '}' && s.level > 0 then next.(level := s.level - 1)
    else if satisfy == '}' && c == ',' && s.level == 0 then next.(commas := s.commas + 1)
    else if satisfy == '}' && c == '.' && At(text, s.i + 1) == '.' && At(text, s.i + 2) != satisfy && s.level == 0 then
      next.(commas := s.commas + 1)
    else next
  }

  /** Where the scan from state s ends: at the satisfying character, or at the end of the text. */
  function Gobble(text: string, satisfy: char, s: Scan): (e: nat)
    requires s.i <= |text|
    ensures s.i <= e <= |text|
    decreases |text| - s.i
  {
    if s.i == |text| || Stops(text, satisfy, s) then s.i
    else Gobble(text, satisfy, Advance(text, satisfy, s))
  }

  /** One turn of the loop leads to the same end. */
  lemma GobbleStep(text: string, satisfy: char, s: Scan)
    requires s.i < |text|
    ensures Gobble(text, satisfy, s)
         == if Stops(text, satisfy, s) then s.i else Gobble(text, satisfy, Advance(text, satisfy, s))
  {
  }

  /** A scan that ends inside the text ends on the character it looked for. */
  lemma {:induction false} GobbleFindsSatisfy(text: string, satisfy: char, s: Scan)
    requires s.i <= |text| && Gobble(text, satisfy, s) < |text|
    ensures text[Gobble(text, satisfy, s)] == satisfy
    decreases |text| - s.i
  {
    if s.i < |text| && !Stops(text, satisfy, s) {
      GobbleFindsSatisfy(text, satisfy, Advance(text, satisfy, s));
    }
  }

  /** brace_gobbler: returns whether satisfy was found, and the index where the scan ended. */
  method BraceGobbler(text: string, index: nat, satisfy: char) returns (found: bool, i: nat)
    requires index <= |text| && NoSubstitution(text)
    ensures i == Gobble(text, satisfy, StartAt(index, satisfy))
    ensures found <==> i < |text|
    ensures found ==> text[i] == satisfy
  {
    hide Gobble;
    var level, commas, passNext := 0, if satisfy == '}' then 0 else 1, false;
    var quoted := NO_QUOTE;
    i := index;
    while i < |text|
      invariant i <= |text|
      invariant Gobble(text, satisfy, Scan(i, quoted, level, commas, passNext)) == Gobble(text, satisfy, StartAt(index, satisfy))
    {
      var c := text[i];
      GobbleStep(text, satisfy, Scan(i, quoted, level, commas, passNext));
      if passNext {
        passNext := false;
        i := i + 1;
        continue;
      }
      if c == '\\' && (quoted == NO_QUOTE || quoted == '"' || quoted == '`') {
        passNext := true;
        i := i + 1;
        continue;
      }
      if c == '$' && At(text, i + 1) == '{' && quoted != '\'' {
        passNext := true;
        i := i + 1;
        if quoted == NO_QUOTE {
          level := level + 1;
        }
        continue;
      }
      if quoted != NO_QUOTE {
        if c == quoted {
          quoted := NO_QUOTE;
        }
        i := i + 1;
        continue;
      }
      if c == '"' || c == '\'' || c == '`' {
        quoted := c;
        i := i + 1;
        continue;
      }
      if c == satisfy && level == 0 && commas > 0 {
        if c == '{' && (i == 0 || BraceWhitespace(text[i - 1]))
           && (BraceWhitespace(At(text, i + 1)) || At(text, i + 1) == '}')
        {
          i := i + 1;
          continue;
        }
        break;
      }
      if c == '{' {
        level := level + 1;
      } else if c == '}' && level > 0 {
        level := level - 1;
      } else if satisfy == '}' && c == ',' && level == 0 {
        commas := commas + 1;
      } else if satisfy == '}' && c == '.' && At(text, i + 1) == '.' && At(text, i + 2) != satisfy && level == 0 {
        commas := commas + 1;
      }
      i := i + 1;
    }
    found := i < |text|;
    if found {
      GobbleFindsSatisfy(text, satisfy, StartAt(index, satisfy));
    } else {
    }
  }
}
