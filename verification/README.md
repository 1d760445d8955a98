# A verified model of the bash core

Bash 4.3 is the part of this repository that does the work. This project models eight of its cores and proves what they
are for. Each core is modelled twice: as methods that change state step by step, the way the C functions do, and as
functions those methods are proved equal to; the theorems are about the functions.

`dafny verify dfyconfig.toml` checks everything.

| files | what they model |
|---|---|
| `Text`, `Int64` | C strings with their terminator; `intmax_t` with two's-complement wrap-around; bitwise operations |
| `BraceScanner`, `BraceSequence`, `Braces`, `BraceMeaning`, `BraceRange` | `braces.c`: the scanner, sequence terms, the recursive expansion, what an expansion means, and the sequences of numbers and letters from text to words |
| `BraceCompletion` | `bracecomp.c`: compressing a name list into a brace expression, and the round trip through expansion |
| `ExprNumbers`, `ExprModel`, `ExprEvaluator` | `expr.c`: numbers, the evaluator as functions of its state, the evaluator as an object with that state |
| `ExprTree`, `ExprLex`, `ExprDescent`, `ExprFollow`, `ExprCorrect`, `ExprTheorem`, `ExprEvaluation`, `ExprBranch` | expression trees with a direct semantics, and the proof that evaluating a printed tree gives that semantics |
| `ExprLaws`, `ExprTexts` | laws of the operators, and what `evalexp` computes on the text of an operator, a numeral, a name |
| `Shell`, `ShellMachine`, `ShellInterpreter` | `execute_cmd.c`: a structured semantics of commands, the machine with `breaking`, `continuing`, `loop_level` and flags in the tree, and the interpreter as an object |
| `ShellRefinement`, `ShellTheorems`, `ShellRuns`, `ShellLaws` | the machine refines the structured semantics; `set -e`; whole runs; laws of and-or lists, `!` and `case` patterns |
| `SparseEntries`, `SparseTables`, `SparseArray`, `SparseRuns` | `array.c`: entries and maps; operations on plain maps; circular doubly linked lists and the shared cursor; runs over many arrays |
| `HashTable`, `HashRuns` | `hashlib.c`: chained hash tables over a bucket array; runs over many tables |
| `BufferedInput`, `BufferedRuns` | `input.c`: the buffered stream; runs of its operations |
| `AliasExpand`, `AliasLines` | `alias.c`: alias expansion of a line; where tokens end, and what expansion means on lines of plain words |

## How to read the main results

* **Brace expansion.** A `Word` is a tree of literals, escaped characters, text between quotes or in `${...}`, alternations and
  sequences. `Denote` is its list of words, a cartesian product from left to right in which quoted commas and braces are text.
  `brace_expand` of the printed tree is that list (`BraceMeaning.ExpansionMeaning`). `BraceRange.RangeMeaning`,
  `BraceRange.PaddedMeaning` and `BraceRange.LettersMeaning` say which words `{x..y..incr}` and `{a..b}` stand for, from the
  characters of the text to the words.
  `really_munge_braces` prints such a tree, so expanding its result gives the names back (`BraceCompletion.PlainRoundTrip`);
  with names that need quoting the words spell the names, backslash by backslash (`BraceCompletion.CompletionRoundTrip`).
* **Arithmetic.** `Eval` is a direct semantics of expression trees. `evalexp` parses and evaluates in one pass over global
  state, looks names up before the parser sees them, and goes through skipped operands with `noeval` raised. On every printed
  tree and every store of integers it gives the value, final store or division by zero of `Eval`, exactly when each skipped
  operand gets by without a negative exponent (`Harmless`); otherwise it fails on that exponent, because the test at
  bash-4.3/expr.c:917-918 does not look at `noeval`. `SkippedPowerStillFails` is the concrete case `0 && 2 ** -1`, and
  `NoSkippedPowerIsHarmless` gives a condition on the text alone: no `**` inside an operand that can be skipped.
  The theorem is about stores of integers because the first token of a `?:` branch is read before evaluation is turned
  off (bash-4.3/expr.c:584-592): a variable there whose text assigns does assign, even in the branch that is skipped
  (`SkippedBranchAssigns`). Nothing else of a skipped branch has an effect (`ExprModel.Branch`).
  What the operators compute is stated in `ExprLaws` by congruence modulo 2^64, bits and inequalities; `ExprTexts.OperatorText`
  says it of the text `x op y`, with the operators as strings, and `GroupsRight` and `GroupsLeft` how two of them group.
* **Command interpreter.** `Run` says what commands mean with outcomes for falling through, breaking out of n loops, continuing
  the n-th loop and exiting. `Exec` is the machine: `breaking`, `continuing` and `loop_level` are counters, and
  CMD_IGNORE_RETURN is written into the nodes of the tree and stays there. `Refines` shows that `Exec` does what `Run` says,
  turn after turn on the mutated tree. Loop tests may contain `break` and `continue`. One turn is excluded: a test that ends
  its loop while a `continue` is pending, because the interpreter does not take it back (bash-4.3/execute_cmd.c:3356-3367).
  `ShellLaws.AndOrLists` says by the number 0 what `&&` and `||` run.
  `TestEndsLoop` shows that it goes wrong on exactly these turns, `ContinueInTestLeaks` that every later command can be
  skipped then, and `ContainedNeverStrays` that trees without a `continue` that leaves a loop's test have no such turn.
* **Sparse arrays.** Every operation keeps every list circular with strictly increasing indices and exact bookkeeping, agrees
  with a map, and leaves the cursor null or on a live element of its array, whichever array it was on before. So a whole run
  over any number of arrays replies what plain maps reply (`SparseRuns.Run`).
* **Buffered stream.** `Upcoming` is what is still to be delivered. Reads grant as few bytes as they like. `BufferedRuns.RunOn`
  counts the position apart from the stream, from the replies alone. `Sync` restores the kernel's offset exactly if something
  is buffered or `b_inputp` is 0; after the end of the file it moves the offset forward by `b_inputp`, and a character pushed
  back there is lost (`SyncBehindTheEnd`, `PutBackBehindTheEnd`).
* **Aliases.** `AliasExpand.PiecesAreJustified` says which tokens of a line are replaced, `AliasLines.PiecesAreTokens` where
  tokens end, and `AliasLines.LineMeaning` what a line of plain words expands to.
* **Hash tables.** `HashRuns.Run` compares whole runs over any number of tables with plain maps.
* **Brace sequences.** The count of terms is narrowed to `int` before the guard looks at it (bash-4.3/braces.c:407-410), so
  `mkseq` can write behind its vector. `FillTerms` follows the loop up to the first such write. `GuardIsSound` says for every
  range and increment exactly when there is one, `GuardIsSoundForInts` in terms of the number of terms alone, and
  `CountOverflowsAt` on which three ranges the guard before the narrowing (bash-4.3/braces.c:399-400) fires.

Where the code and its comments differ, the model follows the code: the table at bash-4.3/expr.c:27-43 puts unary `-` and `+`
above `!` and `~`, while `exp1` gives all four one level (bash-4.3/expr.c:926-958); and the remark that only assignment
groups from the right (bash-4.3/expr.c:51-56) leaves out `**` (bash-4.3/expr.c:914).

## Model

| member | source | states |
|---|---|---|
| BraceScanner.BraceGobbler | bash-4.3/braces.c:594-713 | the scanning loop stops where the state-by-state definition of a stop does, with the searched character, or at the end |
| BraceScanner.GobbleFindsSatisfy | bash-4.3/braces.c:680-694 | wherever a scan stops before the end, the searched character stands there |
| Braces.FoundWordIsClosed | bash-4.3/braces.c:120-145 | the search loop ends on an open brace with a matching close, so the "no matching close" return at 167-195 is never taken |
| Braces.FindWord | bash-4.3/braces.c:112-145 | the search loop finds the first open brace that begins a brace expression |
| Braces.ArrayConcat | bash-4.3/braces.c:734-782 | both short-circuits and the general case give the product of the arrays, of product length |
| Braces.ProductLength | bash-4.3/braces.c:729-733 | a product is as long as the product of the lengths |
| Braces.ProductUnitLeft | bash-4.3/braces.c:747-754 | the array of one empty string is a left unit |
| Braces.ProductUnitRight | bash-4.3/braces.c:756-757 | and a right unit |
| Braces.ProductAssociative | bash-4.3/braces.c:734-782 | concatenating arrays is associative |
| Braces.ScanSeparator | bash-4.3/braces.c:210-228 | the scan finds an unescaped comma if and only if there is one |
| Braces.BraceExpand | bash-4.3/braces.c:98-274 | expansion terminates on every text, each recursive call being on a shorter one, and yields at least one word |
| Braces.ExpandText | bash-4.3/braces.c:98-274 | brace_expand, loop by loop, computes that expansion |
| Braces.SplitAmble | bash-4.3/braces.c:276-340 | expand_amble expands the pieces between top-level commas and joins the results in order |
| Braces.PlainTextIsItself | bash-4.3/braces.c:157-160 | a text without an open brace is its own only word |
| BraceMeaning.AlternationFound | bash-4.3/braces.c:120-164 | in a printed tree the search finds the first alternation and its matching close brace |
| BraceMeaning.BranchesExpand | bash-4.3/braces.c:294-339 | expand_amble splits a printed list at the commas between its branches |
| BraceMeaning.SequenceFound | bash-4.3/braces.c:120-164 | or the first sequence: its dots make the close brace count |
| BraceMeaning.ExpansionMeaning | bash-4.3/braces.c:98-340 | brace_expand of a printed tree of literals, escapes, quoted text, parameters, alternations and sequences is the tree's product of words, left to right |
| BraceMeaning.PassQuoted | bash-4.3/braces.c:627-664 | from outside quotes the scan passes quoted text whole, for each of the three quotes: depth and separators stay as they are |
| BraceMeaning.PassParameter | bash-4.3/braces.c:634-645 | and a parameter in braces: its open brace is passed with the dollar sign, its close brace ends the level |
| BraceMeaning.LoneBrace | bash-4.3/braces.c:680-694 | the search passes an open brace exactly when blanks or ends stand on both sides of it, or a close brace behind it |
| BraceMeaning.DotsCount | bash-4.3/braces.c:703-705 | dots count as a separator exactly when no close brace follows them |
| BraceMeaning.PrintedWordIsScannable | bash-4.3/braces.c:666-678 | printed trees contain no command or process substitution, so the methods apply to them |
| BraceSequence.NormaliseIncrement | bash-4.3/braces.c:372-385 | the increment keeps its size, 1 for 0, and points from start to end; refused exactly when it is INTMAX_MIN and points the wrong way |
| BraceSequence.Mkseq | bash-4.3/braces.c:366-470 | the generator refuses the range (width, overflow of the count, int count too big, or a vector of fewer than no slots), fills its vector with the words and the terminator, or runs over it |
| BraceSequence.GuardIsSound | bash-4.3/braces.c:387-415 | for every range and increment: the loop writes behind its vector if and only if no guard refuses, the count reads as an int of at least -1 that passes, and there are more than INT_MAX terms or the range is 0 to INTMAX_MIN in several steps; otherwise it returns nothing or exactly nelem words |
| BraceSequence.GuardIsSoundForInts | bash-4.3/braces.c:399-415 | for all other ranges: sound if and only if the number of terms is an int, is no intmax_t, or reads as an int too big for the guard or too small to ask for a vector |
| BraceSequence.CountOverflowsAt | bash-4.3/braces.c:397-400 | the overflow guard on the count fires on 0 to INTMAX_MAX, 0 to -INTMAX_MAX and -1 to INTMAX_MIN in steps of one, and nowhere else |
| BraceSequence.FourBillionWordsInTwoSlots | bash-4.3/braces.c:407-410 | `{1..4294967297}` asks for two slots and has 4294967297 words |
| BraceSequence.CountedIsCount | bash-4.3/braces.c:393-407 | apart from the range from 0 to INTMAX_MIN, the count is the number of terms, and it is an intmax_t if and only if the overflow guard lets it through |
| BraceSequence.FillTerms | bash-4.3/braces.c:417-468 | the do-loop fills slot k with start + k times the increment and puts the terminator behind the last term; the first write behind the vector is at its length, and there is one exactly when terms and terminator do not fit |
| BraceSequence.TermsUpToEnd | bash-4.3/braces.c:407-407 | the number of terms is the number of k for which start + k times the increment has not passed end |
| BraceSequence.TermsInRange | bash-4.3/braces.c:457-461 | no term of a sequence overflows |
| BraceSequence.LoopExitIsSpanEnd | bash-4.3/braces.c:457-464 | the overflow test and the end test leave the loop exactly after the last term |
| BraceRange.NumberReadBack | bash-4.3/lib/sh/strtoimax.c:62-80 | a number with spaces, a sign and zeros in front reads back as itself, clamped to intmax_t, up to the first character that is no digit |
| BraceRange.LegalNumbers | bash-4.3/general.c:164-200 | legal_number takes it with blanks behind it, exactly when it is an intmax_t |
| BraceRange.RangeIsSequence | bash-4.3/braces.c:473-580 | the text of two numbers, with or without signs, zeros and an increment, is the sequence of exactly those numbers, padded to the wider side when a side has zeros in front; no sequence when a number is no intmax_t |
| BraceRange.RangeExpands | bash-4.3/braces.c:98-274 | in braces it expands to the words of the sequence, or to itself when a number is no intmax_t or mkseq refuses |
| BraceRange.RangeMeaning | bash-4.3/braces.c:366-470 | `{x..y..incr}` is x, x + step, x + 2 step and so on up to y, the increment turned toward y, for every range that the width guard lets through and up to INT_MAX - 2 terms |
| BraceRange.PaddedMeaning | bash-4.3/braces.c:551-575 | with zeros in front of a side, every word is as wide as the wider side and reads as its number |
| BraceRange.NoRightSide | bash-4.3/braces.c:496-523 | a right side that is neither a number nor one letter makes no sequence |
| BraceRange.MixedSides | bash-4.3/braces.c:538-543 | a letter and a number make no sequence |
| BraceRange.LettersMeaning | bash-4.3/braces.c:473-580 | `{a..b}` is the characters from a to b, up or down |
| BraceCompletion.QuotedIsGuarded | bash-4.3/lib/sh/shquote.c:224-250 | in a quoted name a backslash stands in front of every shell metacharacter and of a leading comment character, and nowhere else |
| BraceCompletion.StringGcd | bash-4.3/bracecomp.c:46-63 | the length of the longest common prefix |
| BraceCompletion.FindGroup | bash-4.3/bracecomp.c:86-100 | the inner loop finds the largest group that shares more than the given prefix, and its common prefix |
| BraceCompletion.GroupSplits | bash-4.3/bracecomp.c:86-137 | a group of several names has a longer common prefix than its list and splits into at least two groups at that prefix |
| BraceCompletion.ReallyMungeBraces | bash-4.3/bracecomp.c:65-150 | the text built is the printed tree of the names (with the trailing comma that the caller overwrites below the top level) |
| BraceCompletion.HackBracesCompletion | bash-4.3/bracecomp.c:165-185 | completion of a match list in which names that share a prefix stand together is the printed tree of the matches, or the lone match quoted |
| BraceCompletion.SortedIsClustered | bash-4.3/bracecomp.c:172-176 | in a sorted list names that share a prefix stand together |
| BraceCompletion.ComparedIsClustered | bash-4.3/bracecomp.c:152-163 | so they do in the order of _strcompare, which compares first characters as signed char |
| BraceCompletion.CompletionRoundTrip | bash-4.3/bracecomp.c:65-150 | brace-expanding the tree of a list gives one word for each name, in order, and each word unquotes to its name, whatever characters the names have |
| BraceCompletion.PlainRoundTrip | bash-4.3/bracecomp.c:65-150 | for a sorted list of names that need no quoting, duplicates and empty names included, expansion gives exactly the list |
| ExprNumbers.Ipow | bash-4.3/expr.c:888-903 | the square-and-multiply loop computes the power modulo 2^64 in two's complement |
| ExprNumbers.PowFits | bash-4.3/expr.c:888-903 | which is the power itself when it fits |
| ExprNumbers.ReadNumber | bash-4.3/expr.c:1434-1503 | the loop of strlong computes the number's recursive reading |
| ExprNumbers.BasedNumber | bash-4.3/expr.c:1464-1499 | `base#digits` is the digits' value in that base, for every base 2 to 64, with digits written by the literal alphabet 0-9, a-z, A-Z, @, _, and capitals for small letters up to base 36 |
| ExprNumbers.NumberRoundTrip | bash-4.3/expr.c:1422-1503 | every n up to INTMAX_MAX, spelled in any base with that alphabet, reads back as n |
| ExprNumbers.OctalNumber | bash-4.3/expr.c:1445-1458 | a leading 0 reads the digits in base 8 |
| ExprNumbers.HexNumber | bash-4.3/expr.c:1452-1456 | a leading 0x or 0X reads the digits in base 16 |
| ExprNumbers.DecimalNumber | bash-4.3/expr.c:1443-1443 | a decimal spelling reads as its number |
| ExprNumbers.DigitRefused | bash-4.3/expr.c:1480-1495 | a character of the alphabet that is written for no digit of the base is an error |
| ExprNumbers.BaseRefused | bash-4.3/expr.c:1464-1478 | so is a base outside 2 to 64 |
| ExprNumbers.HashRefused | bash-4.3/expr.c:1464-1470 | and a second `#`, or one in an octal or hexadecimal number |
| ExprNumbers.PartialValuesFit | bash-4.3/expr.c:1497-1497 | no intermediate value exceeds the number, so none overflows |
| ExprModel.Parse | bash-4.3/expr.c:441-1056 | every level terminates on every text and every store, cyclic ones included; it consumes a token, restores noeval and expr_depth, and changes no variable while noeval is raised |
| ExprModel.RightOperand | bash-4.3/expr.c:622-636 | reading and evaluating an operand that a logical and or a logical or skips leaves every variable unchanged, on every input and store, also when it fails |
| ExprModel.Branch | bash-4.3/expr.c:580-611 | a skipped branch of the conditional leaves every variable as it was once its first token has been read, on every input and store |
| ExprModel.Subexpr | bash-4.3/expr.c:403-439 | the context of the caller is restored whole; only assigntok and the variables may differ |
| ExprModel.StrEval | bash-4.3/expr.c:1100-1101 | with evaluation off a name is 0 and nothing else happens |
| ExprModel.ReadTok | bash-4.3/expr.c:1226-1405 | the lexer terminates through every nested lookahead and variable, restores noeval and depth, and moves forward |
| ExprEvaluator.Evaluator.PushExp | bash-4.3/expr.c:253-273 | saves the current context, or fails at depth 1024 |
| ExprEvaluator.Evaluator.PopExp | bash-4.3/expr.c:277-291 | restores the context saved last |
| ExprEvaluator.Evaluator.ReadToken | bash-4.3/expr.c:1226-1405 | the lexer's effect on the evaluator's fields is that of the lexer function |
| ExprEvaluator.Evaluator.ReadNameAt | bash-4.3/expr.c:1254-1321 | a name is looked up after a peek with noeval set, and the saved token is restored |
| ExprEvaluator.Evaluator.ValueOf | bash-4.3/expr.c:1084-1162 | a name's value is its text evaluated in a fresh context |
| ExprEvaluator.Evaluator.Evaluate | bash-4.3/expr.c:403-439 | subexpr on the evaluator's fields and context stack |
| ExprEvaluator.Evaluator.BinaryLevel | bash-4.3/expr.c:441-923 | the loops of expcomma, explor to exp2 and exppower, with noeval raised and lowered around skipped operands |
| ExprEvaluator.Evaluator.ExpAssign | bash-4.3/expr.c:456-568 | assignment and op-assignment, from the right |
| ExprEvaluator.Evaluator.ExpCond | bash-4.3/expr.c:570-613 | the conditional, with the first token of each branch read before noeval is raised |
| ExprEvaluator.Evaluator.Exp1 | bash-4.3/expr.c:925-958 | the unary operators |
| ExprEvaluator.Evaluator.Exp0 | bash-4.3/expr.c:960-1056 | parentheses, numbers, names, and the steps before and after a name |
| ExprEvaluator.Evaluator.EvalExpression | bash-4.3/expr.c:364-401 | evalexp: the value and the new variables, or 0 and invalid; the context stack is empty and noeval 0 either way |
| ExprTree.RunIsEval | bash-4.3/expr.c:616-669 | going through skipped operands with evaluation off gives what the direct semantics gives, unless one of them has a negative exponent |
| ExprTree.OffIsInert | bash-4.3/expr.c:549-557 | with evaluation off nothing is assigned and only a negative exponent can fail |
| ExprTree.RunInRange | bash-4.3/expr.c:21-23 | values and variables stay within intmax_t |
| ExprDescent.IntTextEvaluates | bash-4.3/expr.c:1141-1147 | the text of an integer variable evaluates to the integer, and changes nothing |
| ExprTheorem.ParseTree | bash-4.3/expr.c:441-1056 | a printed expression, with minimal parentheses, is parsed at its level exactly to its end, with the tree's value and store |
| ExprEvaluation.EvaluatorIsCorrect | bash-4.3/expr.c:21-62 | for every tree and integer store, evalexp of the printed tree gives the direct semantics' value and final store, or its division by zero, when every skipped operand is harmless; otherwise it fails with a negative exponent and the variables of that moment, and agrees only if the direct semantics fails alike |
| ExprEvaluation.NoSkippedPowerIsHarmless | bash-4.3/expr.c:916-918 | without `**` in operands that can be skipped, all of them are harmless |
| ExprEvaluation.EvaluatorIsCorrectWithoutSkippedPower | bash-4.3/expr.c:21-62 | so on such trees evalexp is exactly the direct semantics |
| ExprEvaluation.SkippedPowerStillFails | bash-4.3/expr.c:917-918 | `0 && 2 ** -1` fails, with the variables unchanged, although its value is 0 |
| ExprLaws.SumsAndProducts | bash-4.3/expr.c:804-878 | sum, difference and product are congruent modulo 2^64 and exact when they fit; adding what was subtracted gives the number back |
| ExprLaws.QuotientsAndRemainders | bash-4.3/expr.c:849-880 | a is q b + r with r smaller than b and of the sign of a, for all intmax_t a and b other than 0; modulo 2^64 for INTMAX_MIN by -1 |
| ExprLaws.BitwiseOperators | bash-4.3/expr.c:673-724 | each of the 64 bits of or, exclusive or and and is the boolean operation on the bits |
| ExprLaws.BitsDecide | bash-4.3/expr.c:673-724 | the 64 bits determine the number |
| ExprLaws.Shifts | bash-4.3/expr.c:780-800 | a left shift multiplies by a power of two modulo 2^64, a right shift divides and rounds down |
| ExprLaws.Powers | bash-4.3/expr.c:888-923 | a to the 0 is 1, and one more in the exponent multiplies by a modulo 2^64 |
| ExprLaws.Comparisons | bash-4.3/expr.c:728-775 | comparisons and logical operators are 1 exactly when the relation holds, else 0; the comma is its right side |
| ExprLaws.Logic | bash-4.3/expr.c:616-669 | the logical operators are 1 or 0 and look at their right operand only when the left one does not decide |
| ExprLaws.Negations | bash-4.3/expr.c:925-958 | minus gives what added back is 0, complement flips every bit, not is 1 for 0 and else 0, plus changes nothing |
| ExprLaws.Steps | bash-4.3/expr.c:969-1040 | a step adds or takes away 1 modulo 2^64, stores it, changes no other name, and has the old or the new value |
| ExprLaws.Failures | bash-4.3/expr.c:849-919 | an operator fails exactly on a zero divisor and on a negative exponent |
| ExprLaws.OperatorsEndNames | bash-4.3/expr.c:636-923 | behind an operator lasttok is no name, apart from the comma and the remainder of INTMAX_MIN by -1 |
| ExprLaws.AssignmentNeedsName | bash-4.3/expr.c:473-476 | an assignment behind anything but a name is an error |
| ExprLaws.OperandRefused | bash-4.3/expr.c:1052-1053 | only a step, a unary operator, a number, a name or an open parenthesis begins an operand, at every level |
| ExprLaws.EndsRefused | bash-4.3/expr.c:410-431 | a parenthesis that is not closed and a text that goes on behind the expression are errors; a blank text is 0 |
| ExprTexts.OperatorText | bash-4.3/expr.c:441-923 | evalexp of `x op y`, for every binary operator as a string and all values: the operator's value by those laws, or its error, with the variables as they were |
| ExprTexts.AssignmentText | bash-4.3/expr.c:456-568 | evalexp of `x op= y`: the same value, which x gets, or division by zero |
| ExprTexts.NumeralText | bash-4.3/expr.c:1314-1326 | evalexp of a numeral with blanks around it is its value as strlong reads it, or an error |
| ExprTexts.NamesAre | bash-4.3/expr.c:1254-1262 | a name is a letter or underscore followed by letters, digits and underscores |
| ExprTexts.GroupsRight | bash-4.3/expr.c:441-923 | between two names without parentheses, an operator takes the name in front of it when it binds tighter by the literal table, and so does `**` behind `**` |
| ExprTexts.GroupsLeft | bash-4.3/expr.c:441-923 | in all other cases the first operator takes it |
| ExprTexts.UnaryBinds | bash-4.3/expr.c:905-958 | unary operators bind tighter than all binary ones, `**` included |
| ExprTexts.ConditionalGroups | bash-4.3/expr.c:570-613 | the conditional binds less tightly than the binary operators and groups from the right |
| ExprTexts.AssignmentGroups | bash-4.3/expr.c:441-568 | assignment binds less tightly than the conditional, more tightly than the comma, and groups from the right |
| ExprBranch.SkippedBranchAssigns | bash-4.3/expr.c:581-592 | `0 ? x : 1` has the value 1 and assigns y when the text of x is an assignment to y, for all names, numbers and stores |
| ExprBranch.UnchosenBranch | bash-4.3/expr.c:570-613 | on every text and store, the branch of a conditional that is not chosen, first or second, changes no variable if and only if its first token is no name, or a name before `=`, or a name whose text evaluates without changing one |
| ExprBranch.SkippedBranchEffect | bash-4.3/expr.c:584-592 | the same for a skipped branch that fails to parse |
| ExprBranch.AssignTextEvaluates | bash-4.3/expr.c:1141-1147 | a variable whose text assigns a number to a name assigns it when it is looked up, at any depth but the last |
| ExprEvaluation.SelfReferenceIsTooDeep | bash-4.3/expr.c:260-261 | a variable whose text is its own name ends in the recursion error with the variables unchanged, from any depth |
| ShellRefinement.Refines | bash-4.3/execute_cmd.c:547-1069 | unless a loop's test ends its loop with a continue pending, the machine of counters and flags gives every command the trace, status and pending break or continue of the structured semantics, keeps the counters at most loop_level, restores loop_level, and only ever sets flags that the place of their node justifies |
| ShellRefinement.TurnsRefine | bash-4.3/execute_cmd.c:3332-3389 | the same for the turns of while and until, on a tree that earlier turns have flagged; a continue of the loop in its test starts the next turn |
| ShellRefinement.WordsRefine | bash-4.3/execute_cmd.c:2620-2692 | the same for the turns of for |
| ShellRefinement.ClausesRefine | bash-4.3/execute_cmd.c:3258-3297 | the same for case, with `;&` and `;;&` |
| ShellRefinement.BodyLeaves | bash-4.3/execute_cmd.c:2678-2689 | counting breaking and continuing down after a body is leaving one loop |
| ShellRefinement.TestEndsLoop | bash-4.3/execute_cmd.c:3356-3367 | when a test ends its loop, the machine leaves the loop as it should if and only if no continue is pending; one that is stays pending, one loop too far out |
| ShellRefinement.TestLeaves | bash-4.3/execute_cmd.c:3356-3367 | the counters alone: right if and only if no continue is pending |
| ShellRefinement.ContainedNeverStrays | bash-4.3/execute_cmd.c:3332-3389 | when no continue leaves a loop's test, that never happens |
| ShellTheorems.RunStopsAtFirstFailure | bash-4.3/execute_cmd.c:932-942 | under set -e a run exits at the first simple command that fails where failures count, with its status, and at no other place; without set -e never |
| ShellTheorems.IgnoredByPlace | bash-4.3/execute_cmd.c:763-772 | a simple command runs with CMD_IGNORE_RETURN exactly when its place in the tree says so: in a test, left of an and-or operator, under `!`, or inside such a command |
| ShellRuns.InterpreterIsCorrect | bash-4.3/execute_cmd.c:529-1069 | a whole run from a fresh machine has the trace, status or exit of the structured semantics and ends with breaking, continuing and loop_level 0, unless a test ended its loop with a continue pending |
| ShellRuns.InterpreterStopsAtFirstFailure | bash-4.3/execute_cmd.c:560-566 | the interpreter with its flags in the tree jumps out at the first simple command that fails unshielded, and otherwise runs to the end |
| ShellRuns.MoreFuel | bash-4.3/execute_cmd.c:3346-3385 | a run that ends is the same with any larger bound on loop turns |
| ShellRuns.ContinueInTestLeaks | bash-4.3/execute_cmd.c:3356-3367 | after `while ! continue; do ...; done` continuing is still 1 at loop level 0 and every later command is skipped |
| ShellRuns.ContinueInTestTurns | bash-4.3/execute_cmd.c:3369-3385 | `while continue; do ...; done` only ever takes turns |
| ShellLaws.AndOrLists | bash-4.3/execute_cmd.c:2533-2553 | an and-list runs its second command exactly when the first ended with status 0, an or-list exactly when it did not; else the first is the result |
| ShellLaws.MachineAndOr | bash-4.3/execute_cmd.c:2533-2553 | so does the interpreter with counters and flags |
| ShellLaws.Inverted | bash-4.3/execute_cmd.c:1038-1041 | an inverted command has status 0 exactly when the command, run where failures do not count, has not, else 1, and the same trace and control |
| ShellLaws.PatternsTried | bash-4.3/execute_cmd.c:3259-3283 | a clause is chosen exactly when a pattern matches; the patterns up to the first match are tried in order |
| ShellInterpreter.Interpreter.ExecuteCommand | bash-4.3/execute_cmd.c:529-1069 | the function on the global variables does what the machine does |
| ShellInterpreter.Interpreter.ExecuteConnection | bash-4.3/execute_cmd.c:2422-2564 | sequences and the two and-or operators |
| ShellInterpreter.Interpreter.ExecuteIf | bash-4.3/execute_cmd.c:3391-3423 | if |
| ShellInterpreter.Interpreter.ExecuteWhileOrUntil | bash-4.3/execute_cmd.c:3332-3389 | while and until |
| ShellInterpreter.Interpreter.ExecuteFor | bash-4.3/execute_cmd.c:2576-2714 | for |
| ShellInterpreter.Interpreter.ExecuteCase | bash-4.3/execute_cmd.c:3206-3304 | case |
| ShellInterpreter.Interpreter.BreakBuiltin | bash-4.3/builtins/break.def:62-127 | break and continue clamp their argument to loop_level, and both break out of every loop when it is not positive |
| SparseEntries.PutIsUpdate | bash-4.3/array.c:608-664 | assigning an element is updating a map |
| SparseEntries.WithoutIsRemoval | bash-4.3/array.c:666-700 | removing an element is removing a key |
| SparseEntries.CountAndMax | bash-4.3/array.h:95-96 | num_elements counts the keys and max_index is the greatest |
| SparseEntries.ShiftedLeftIsRenumbering | bash-4.3/array.c:199-206 | after a shift by n, a[i] is what a[i + n] was, for the elements that are left |
| SparseEntries.ShiftedLeftIncreases | bash-4.3/array.c:242-243 | and indices stay non-negative and strictly increasing |
| SparseEntries.ShiftedRightIsRenumbering | bash-4.3/array.c:262-266 | after a right shift by n, a[i + n] is what a[i] was |
| SparseEntries.FirstAfterRightShift | bash-4.3/array.c:281-288 | and a[0] is the new value, when there is one |
| SparseEntries.ShiftUndoesUnshift | bash-4.3/array.h:105-109 | unshifting a value and shifting by one gives the array back, the empty one included |
| SparseTables.EntriesInFront | bash-4.3/array.c:199-206 | an element has exactly as many elements in front of it as the map has smaller indices |
| SparseTables.SmallestAreFirst | bash-4.3/array.c:216-259 | the elements array_shift takes out are those with the n smallest indices |
| SparseTables.MovedDownIsShift | bash-4.3/array.c:216-259 | on the map, array_shift drops the n smallest indices and moves the others down by n |
| SparseTables.MovedUpIsShift | bash-4.3/array.c:267-301 | on the map, array_rshift moves every index up by n and adds the new value at 0 |
| SparseTables.UnshiftThenShift | bash-4.3/array.h:105-109 | unshifting a value and shifting by one gives the map back and hands out the value |
| SparseArray.AddBefore | bash-4.3/array.c:48-54 | the macro keeps a circular list circular, with the new element in its place |
| SparseArray.Arr.HookIn | bash-4.3/array.c:621-632 | an insertion keeps the list, the count and max_index in order |
| SparseArray.Arr.ShiftOut | bash-4.3/array.c:216-259 | array_shift removes exactly the first n elements, as a null-terminated chain with their values, and renumbers the rest |
| SparseArray.Arr.ShiftIn | bash-4.3/array.c:279-298 | array_rshift with a value |
| SparseArray.Arr.ShiftUp | bash-4.3/array.c:290-298 | array_rshift without one |
| SparseArray.Cursor.Start | bash-4.3/array.c:63-65 | starting the search at the cursor never passes over the index searched for |
| SparseArray.Cursor.Insert | bash-4.3/array.c:611-664 | insertion at an index from 0 on always succeeds, agrees with the list's update, and leaves the cursor sound; the last return is not reached |
| SparseArray.Cursor.Remove | bash-4.3/array.c:670-700 | removal returns the element with its value if and only if the index is set, and leaves the cursor sound |
| SparseArray.Cursor.Reference | bash-4.3/array.c:705-724 | lookup is map lookup, and leaves the cursor sound |
| SparseArray.Cursor.Shift | bash-4.3/array.c:207-260 | array_shift with all its early returns, cursor included |
| SparseArray.Cursor.RShift | bash-4.3/array.c:267-301 | array_rshift with all its early returns, cursor included |
| SparseArray.Cursor.Flush | bash-4.3/array.c:103-120 | the array is empty and the cursor not on it |
| SparseArray.Cursor.Dispose | bash-4.3/array.c:122-131 | the cursor does not point into a disposed array |
| SparseArray.Cursor.Copy | bash-4.3/array.c:133-151 | a copy has elements of its own and the same contents |
| SparseArray.Arr.constructor | bash-4.3/array.c:87-101 | a new array is a lone head with index -1 |
| SparseRuns.ReadChain | bash-4.3/array.c:246-259 | the chain array_shift returns can be walked to its null end and holds the elements taken out |
| SparseRuns.OnArray | bash-4.3/array.c:207-724 | every operation on an array changes its map, and replies, as the operation on plain maps does |
| SparseRuns.OnSlot | bash-4.3/array.c:58-72 | an operation on one array leaves the map of every other array as it was, wherever the shared cursor was |
| SparseRuns.Perform | bash-4.3/array.c:58-151 | after every step all arrays are well formed, the cursor is null or on a live element, and each array stands for its map |
| SparseRuns.Run | bash-4.3/array.c:58-724 | every run of operations on any number of arrays, created, copied and disposed of on the way, gives the replies of plain maps |
| HashTable.HashString | bash-4.3/hashlib.c:128-148 | the hash loop, with 32-bit wrap-around and sign-extended characters |
| HashTable.HashOfOneMore | bash-4.3/hashlib.c:141-145 | one more character multiplies the hash by 16777619 modulo 2^32 and flips the bits of the sign-extended character; the empty string has hash 0 |
| HashTable.BucketBits | bash-4.3/hashlib.c:39-39 | a bucket's number has the bits that hash and mask share; for a power of two it is the remainder |
| HashTable.BucketOf | bash-4.3/hashlib.c:39-39 | masking a hash yields a bucket of the table |
| HashTable.MaskIsRemainder | bash-4.3/hashlib.c:39-39 | with a power of two for the number of buckets the mask is the remainder |
| HashTable.Find | bash-4.3/hashlib.c:181-188 | the walk along a chain finds the item with the key, if it is there |
| HashTable.MapWith | bash-4.3/hashlib.c:260-274 | an item for a new key in front of its bucket adds one binding to the table's map |
| HashTable.MapWithout | bash-4.3/hashlib.c:225-234 | taking an item out of its bucket removes one binding |
| HashTable.Table.constructor | bash-4.3/hashlib.c:43-65 | an empty table without items, with 64 buckets when 0 are asked for |
| HashTable.Table.Search | bash-4.3/hashlib.c:163-205 | the item bound to the key, counted as found; a new one with HASH_CREATE; else null; no other item changes, and only new items join the table |
| HashTable.Table.Insert | bash-4.3/hashlib.c:242-277 | the item bound to the key, counted as found, or a new binding without data; nentries and the map's size agree; no other item changes, and only new items join the table |
| HashTable.Table.Remove | bash-4.3/hashlib.c:207-240 | removes the binding and returns its item, or null |
| HashTable.Table.Flush | bash-4.3/hashlib.c:279-313 | the table is empty |
| HashTable.Table.Copy | bash-4.3/hashlib.c:74-126 | a table with items and buckets of its own, with equal contents in the same chain order |
| HashRuns.SameRecords | bash-4.3/hashlib.c:74-126 | a copy stands for the same map of keys to data and counts |
| HashRuns.DoSearch | bash-4.3/hashlib.c:163-205 | hash_search changes the table's map and replies as on a plain map, nentries included |
| HashRuns.DoInsert | bash-4.3/hashlib.c:242-277 | so does hash_insert, with the data its caller stores in the item |
| HashRuns.DoRemove | bash-4.3/hashlib.c:207-240 | so does hash_remove |
| HashRuns.OnTable | bash-4.3/hashlib.c:163-313 | an operation on one table leaves the maps of all others as they were |
| HashRuns.Perform | bash-4.3/hashlib.c:43-313 | after every step the tables are well formed, have nothing in common, and stand for their maps |
| HashRuns.Run | bash-4.3/hashlib.c:43-313 | every run of create, search, insert, remove, flush and copy on any number of tables, with HASH_NOSRCH for absent keys only, gives the items' data, counts and nentries of plain maps |
| BufferedInput.BufferedStream.FillBuffer | bash-4.3/input.c:479-519 | a short read delivers the first of what comes and buffers the rest; end and error change nothing that is to come |
| BufferedInput.BufferedStream.Getc | bash-4.3/input.c:521-525 | delivers exactly the next character, or EOF, and moves the logical position with it; at EOF b_inputp and the offset stay |
| BufferedInput.BufferedStream.Ungetc | bash-4.3/input.c:527-538 | puts a character in front of what comes if something is buffered; after the end of the file it is accepted and lost |
| BufferedInput.BufferedStream.Sync | bash-4.3/input.c:540-557 | the kernel's offset becomes the logical position if and only if something is buffered or b_inputp is 0, and then nothing to come is lost |
| BufferedInput.BufferedStream.Process | bash-4.3/input.c:621-629 | reading to the end delivers everything in order, once |
| BufferedInput.BufferedStream.FaithfulUpcoming | bash-4.3/input.c:540-557 | while the buffer holds what the file holds, what comes is the file from the logical position on |
| BufferedRuns.RunOn | bash-4.3/input.c:479-557 | any interleaving of getc, ungetc of the last character and sync, with reads of any length: until the end of the file or a failed read, each character delivered is the one at start plus the characters delivered minus those put back, that is where file offset minus (b_used - b_inputp) stands at the end, and sync sets the offset there |
| BufferedRuns.Run | bash-4.3/input.c:479-557 | the same from a freshly opened stream with a buffer of any size |
| BufferedRuns.SyncBehindTheEnd | bash-4.3/input.c:540-557 | a file of one character: getc, getc, sync leaves the offset at 2 |
| BufferedRuns.PutBackBehindTheEnd | bash-4.3/input.c:527-538 | a character put back behind the end of the file is accepted and never delivered |
| AliasExpand.Expander.SkipQuotes | bash-4.3/alias.c:307-331 | finds the closing quote |
| AliasExpand.Expander.SkipWs | bash-4.3/alias.c:333-413 | skips blanks, quoted words and separators, and notes the separators |
| AliasExpand.Expander.RdToken | bash-4.3/alias.c:420-461 | finds the end of the token |
| AliasExpand.Expander.AliasExpand | bash-4.3/alias.c:463-578 | the expanded line is the rewriting of the line's pieces |
| AliasExpand.PiecesCoverTheLine | bash-4.3/alias.c:486-577 | the pieces are the line, read once from left to right; values are never scanned again |
| AliasExpand.PiecesAreJustified | bash-4.3/alias.c:526-560 | a token is replaced, by its alias's value, if and only if it is an alias and either alias_expand_all is on, or it has no backslash and begins the line, has an unquoted command separator in the text skipped in front of it, or follows an alias whose value ends in a blank |
| AliasExpand.SkipOfGap | bash-4.3/alias.c:333-413 | what is skipped in front of a token holds an unquoted separator by itself exactly when the scan of the line notes one there |
| AliasExpand.NoAliasesNoChange | bash-4.3/alias.c:541-575 | without aliases a line is its own expansion |
| AliasExpand.SkipStops | bash-4.3/alias.c:350-412 | no token begins with a quote, so quoted words are never replaced |
| AliasExpand.SeparatorWasPassed | bash-4.3/alias.c:402-409 | a command position after the first is only reported behind a separator |
| AliasLines.TokenExtent | bash-4.3/alias.c:415-461 | a token holds no delimiter outside quotes and escapes, and one stands behind it or the line ends |
| AliasLines.PiecesAreTokens | bash-4.3/alias.c:500-524 | every token of a line is such a stretch or a single delimiter |
| AliasLines.LineMeaning | bash-4.3/alias.c:463-578 | on a line of plain words and gaps, a word is replaced if and only if it is an alias and alias_expand_all is on, or it begins the line, or its gap ends a command, or the word before was replaced by a value that ends in a blank |

Methods that change state are proved against functions: the parts of a statement that concern the values are in the lemmas
about those functions.

## Left out

Braces and completion:

- Braces.ExpandText: requires that the text has no `$(`, `<(` or `>(`; extracting a command or process substitution is
  external (bash-4.3/braces.c:666-678).
- Multibyte characters: a character is one step of the scanners.
- Allocation failure, except that a vector of fewer than no slots is never granted; and the in-place growth of the result
  strings.
- Braces.BraceExpand: where mkseq runs over its vector, the words are those its loop goes through; what the overrun does to them
  is undefined (BraceSequence.GuardIsSound says when). BraceMeaning.ExpansionMeaning and BraceRange.RangeExpands inherit this;
  BraceRange.RangeMeaning and BraceRange.LettersMeaning are about ranges without an overrun.
- BraceMeaning.ExpansionMeaning: a parameter in a printed tree holds plain characters and commas only.
- BraceCompletion.ReallyMungeBraces: requires names that share a prefix to stand together, as they do in a sorted list; on other
  lists the C code can read behind the end of a name (bash-4.3/bracecomp.c:89-99).
- BraceCompletion.HackBracesCompletion: requires what the sort establishes, which BraceCompletion.SortedIsClustered and
  BraceCompletion.ComparedIsClustered prove for both orders; the sort itself is external (bash-4.3/bracecomp.c:173-174).

Arithmetic:

- Array subscripts: the evaluator is modelled as built without ARRAY_VARS, so `[` is a syntax error.
- Shift counts outside 0 to 63 are taken modulo 64, and the laws of shifts are about counts from 0 to 63; signed overflow wraps around; C
  leaves both undefined.
- ExprEvaluation.EvaluatorIsCorrect: is about stores of integers, since the first token of a `?:` branch is evaluated even when
  the branch is skipped (bash-4.3/expr.c:584-592).
- Read-only variables, unbound-variable exits, error texts and `lasttp`.
- `longjmp`: an error is a result that carries the variables of that moment.
- ExprEvaluator.Evaluator.EvalExpression: starts with an empty context stack; evaluations nested through variable hooks are not
  modelled.

Commands:

- Fork and exec, pipes, redirections, asynchronous commands, job control, traps, signals, functions and subshells.
- `select` and arithmetic `for`, and their early returns that skip the decrement of loop_level
  (bash-4.3/execute_cmd.c:2807-2811, bash-4.3/execute_cmd.c:3113-3119).
- ShellRefinement.Refines: says nothing once a test has ended its loop with a continue pending, and requires that loops have a
  test and a body and ifs a test, as the parser builds them.
- Shell.Run: the turns of a while loop are bounded by fuel; the theorems hold for every bound, and ShellRuns.MoreFuel says that
  the bound does not change a run that ends.
- The world (statuses, words, identifiers, pattern matches) is any function of what has happened so far.
- Exits of a non-interactive POSIX-mode shell: special builtins, bad identifiers, read-only loop variables.

Arrays, hash tables, input, aliases:

- SparseArray.Cursor.Insert: requires a non-negative index; callers resolve negative ones first.
- Quoting, pattern, slice and conversion functions of `array.c`; num_elements is an unbounded number.
- Freeing memory: disposed elements are simply no longer in a list.
- HashTable.Table.Insert: requires, with HASH_NOSRCH, that the key is absent; the table is there (for a null table the C function
  fills a new one that the caller never sees, bash-4.3/hashlib.c:253-254).
- Data of hash items is a string, copied as it is; the statistics and walk functions.
- BufferedInput.BufferedStream.FillBuffer: binary files only; duplicated streams, text mode, and the character buffer for plain
  files at bash-4.3/input.c:65-131.
- AliasLines.LineMeaning: is about words without quotes and backslashes; AliasExpand.PiecesAreJustified and
  AliasLines.PiecesAreTokens are about all lines.
- Storing and removing aliases; the flag kept with an alias value.
