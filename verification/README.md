# Verification of the shell applets' core logic

The project models, in Dafny, the in-house logic of five applets and proves what it is for. The model
follows the code branch by branch, and where the code departs from its purpose the departure is proved together with
the exact condition.

* **The ash interpreter** (`pkg/applets/ash/ash.go`)
  * `Int64`, `Scan`, `Numerals`, `NumeralLaws`, `Arith`, `Operators`, `ArithTrees`, `ArithFlat`, `ArithTheorem`,
    `ArithMeaning`, `ArithChains`, `ArithPrecedence`: `$((...))` is evaluated by rewriting text. The theorems say that
    the text of a tree evaluates to the tree's value over wrapping 64-bit words, and in which order operators without
    parentheses are applied.
  * `Tokens`, `Quoting`, `TokensRoundTrip`: the token reader and printer that every loop, `if` and `case` body passes
    through.
  * `Terminator`, `Compounds`, `CompoundExamples`, `OpenedWords`: the stack-based search for the word that closes a
    compound command.
  * `Clauses`, `LoopClauses`, `Reading`, `Programs`, `Rereading`: how a compound is cut into its parts, without regard
    to nesting, each time it is run, and printed and split again before that; which programs are therefore read as they
    are written.
  * `Loops`, `LoopSemantics`, `LoopRefinement`, `LoopJumps`, `LoopRunner`: counter-based `break` and `continue`,
    against a semantics in which a jump names the loop it leaves. The runner holds its script as tokens;
    `Programs.ProgramsRunAsWritten` joins the grammar, the cuts and the counters.
  * `Scope`, `ScopeFlow`, `ScopeFrames`, `ScopeDeep`, `ScopeClean`, `ScopeLeaks`, `ScopeRunner`: variables, `local`,
    functions, traps and subshells. One table with saved values against a stack of scopes, flags against a reading
    without them; tables as shared objects for subshell isolation.
  * `Jobs`, `JobRunner`: the job table and `wait`.
  * `FieldSplitting`, `FieldTheorem`: splitting at IFS with protected literal characters.
  * `Aliases`, `AliasBlanks`, `AliasExamples`: alias substitution, and the rule for words behind a blank.
* **The diff engine** (`pkg/applets/diff/diff.go`): `DiffScript` (table, walk, minimality), `DiffHunks`, `DiffPatch`.
* **The sed cycle** (`pkg/applets/sed/sed.go`): `Sed`, `SedEngine`, `SedRanges`, `SedSelection`,
  `SedOutput`.
* **xargs batching** (`pkg/applets/xargs/xargs.go`): `Xargs`.
* **The dig wire codec** (`pkg/applets/dig/dig.go`; sections 3.1 and 4.1 of RFC 1035): `DnsNames`, `DnsMessages`.

Code that changes state step by step is modelled by methods with loops, and by classes where an object is updated in
place (`LoopRunner.Runner`, `ScopeRunner.Runner`, `JobRunner.Runner`, `SedEngine.Engine`). Each is proved against a
function of the state, and the laws are lemmas about that function. `fuel` and `pieces` arguments bound how far a run
is followed, so that functions are total; theorems hold for every bound, and `LoopRefinement.MoreFuel` and
`DnsNames.EndsSoonOrNever` say that larger bounds change nothing.

What the code does differently from its purpose, each with a lemma:

* A blank before a negative operand: `2 * (0-3)` is -3, because the text is split at the sign
  (`ArithMeaning.SplitAgreesExactly`, `BlankThenNegative`). `!` and `~` before a negative number, and a group worth
  -2^63, are misread as well.
* Operands that are not needed are evaluated: both operands of `||` and `&&`, and the groups in the branch of `?:` that
  is not taken. Their errors are reported, and their negative shift counts panic (`ArithMeaning.ParsePreservesMeaning`
  says exactly when, `UntakenBranchFails`, `DecidedOrFails`).
* Comparisons without parentheses: `==`, `!=`, `<=`, `>=`, `<` and `>` are looked for one kind after the other, and a
  `<` in front of a `<<` is not seen (`ArithPrecedence.SplitsAsInC` says exactly when, `ShiftHidesLess`).
* A token that ends in an escaped blank loses it at the end of a body, and `; ;;` is printed as `;;;` and read as
  `;; ;` (`TokensRoundTrip.RoundTrip`).
* A compound as first command of a condition that the closing word of the outer compound closes, and arguments
  `do done`, mislead the matcher (`Compounds.FindsTheEnd` says exactly when).
* An `if` is cut at the first `elif`, `else` or `fi`, and a loop at the first `do`, of whatever compound: commands
  behind a nested `if` are lost, and its `else` part becomes the outer one (`Clauses.IfIsCutExactly`,
  `LoopClauses.LoopIsCutExactly`; `for` without a list fails if an `in` occurs anywhere in it).
* A `break` in an `if` condition still runs the first command of the branch; if that is a loop, the `break` may be lost
  (`LoopJumps.JumpInConditionAgreesExactly`, `BreakIsLost`).
* The frames of functions are shared with subshells: `local` in a subshell changes what the caller restores
  (`ScopeLeaks.LeakIsExact`, `ScopeFrames.LocalInSubshellIsRestored`); read-only names made in a subshell stay.
* A subshell left by `return` does not run its EXIT trap (`ScopeFlow.ReturnSkipsTheTrap`).
* A process id reused while its old job is listed breaks the table (`Jobs.ReusedPidIsLost`).
* Of the aliases substituted for one command word only the last decides whether the next word is looked up: an
  earlier one that ends in a blank does not pass it on, and the blank of a later one reaches past the words behind it
  (`AliasBlanks.SubstitutionsAgreeExactly`, `LookUpsAgreeExactly`, `AliasExamples`).
* The hunk headers of diff print start numbers computed with the other side's tag.
* In sed the first address is tested at the start of the cycle and again when the command is reached.

## Model

| member | source | states |
|---|---|---|
| ArithMeaning.ParsePreservesMeaning | pkg/applets/ash/ash.go:9894-10119 | For every fully parenthesised tree over the binary operators, unary operators and `?:`, with any blanks, that is `Faithful` (no group worth -2^63, no operator kept from a negative group by a blank or by being `!` or `~`): the string-rewriting evaluator returns the value the tree has when every operator yields what `Operators` says of integers and bits, with C's rule that `?:` and the two logical operators evaluate only what they need; an expression that has a value fails if and only if some operand that is not needed has an error or a negative shift count |
| Operators.ApplyYields | pkg/applets/ash/ash.go:9937-10092 | On all 64-bit words: comparisons and logical operators yield 1 or 0 as the integer relation holds or not; `+`, `-`, `*` and `<<` the word congruent to the integer result modulo 2^64; `>>` the floor of the quotient by the power of 2; `/` and `%` the truncated quotient and remainder; `**` the power modulo 2^64, 0 for negative exponents; the bitwise operators the combination of every bit |
| Operators.YieldsOne | pkg/applets/ash/ash.go:9937-10092 | These statements leave no other word |
| Operators.UnaryApplies | pkg/applets/ash/ash.go:10094-10109 | Negation modulo 2^64, identity, 1 for zero and 0 else, and the complement of every bit |
| Operators.CombineIsTogether | pkg/applets/ash/ash.go:9937-10092 | On operands with errors: the result is that word; a negative shift count panics, a zero divisor gives 0 and an error, and the left operand's error goes first |
| ArithMeaning.EagerCovers | pkg/applets/ash/ash.go:9894-10119 | Evaluating every operand fails whenever evaluating the needed ones does; beyond that it fails exactly when a skipped operand fails, and else gives the same value |
| ArithMeaning.UntakenBranchFails | pkg/applets/ash/ash.go:9913-9930 | `1 ? 2 : (1/0)` means 2 and comes back with a division by zero |
| ArithMeaning.DecidedOrFails | pkg/applets/ash/ash.go:9937-9955 | The logical or of 1 and (1/0) means 1 and comes back with a division by zero |
| ArithFlat.LeafEvaluates | pkg/applets/ash/ash.go:10095-10118 | A word or a number written into the text evaluates to its value, read as decimal, as base#digits or, behind a minus sign, as a negative number; so a group's value survives being written and read unless it is -2^63 |
| ArithTheorem.ParseEvaluates | pkg/applets/ash/ash.go:9894-10119 | For every tree without any exclusion: evaluating its text is evaluating the tree with the code's own treatment of negative groups; the string loop is a tree reduction |
| ArithTheorem.OneRound | pkg/applets/ash/ash.go:9900-9910 | Replacing the last parenthesised group of the text by its decimal value gives the text of the tree with that group reduced |
| ArithTheorem.GroupsReplaced | pkg/applets/ash/ash.go:9900-9910 | The whole rewriting loop ends with the text of the settled tree, carrying the first error |
| ArithTrees.TextAroundLastGroup | pkg/applets/ash/ash.go:9900-9910 | The last `(` and the `)` after it enclose exactly the last innermost group of the tree, and cutting it out leaves the text of the tree around it |
| ArithFlat.FlatEvaluates | pkg/applets/ash/ash.go:9913-10119 | Text without parentheses is split at the operator the tree has, and its parts evaluate as the tree's operands do |
| ArithFlat.TopOfBinary | pkg/applets/ash/ash.go:9932-10092 | Among all the scans, in their order, the one binary operator of a flat text is the one found, unless a blank stands between an arithmetic operator and a sign |
| ArithFlat.TopOfSign | pkg/applets/ash/ash.go:10042-10057 | With a blank between an arithmetic operator and a sign, the text is split at the sign instead |
| ArithFlat.UnaryEvaluates | pkg/applets/ash/ash.go:10094-10109 | A sign applies to the value of the rest of the text; `!` and `~` before a negative number are split at its `-` |
| ArithFlat.ChoiceEvaluates | pkg/applets/ash/ash.go:9913-9930 | The condition, then only the chosen branch, of a flat `?:`; empty branches are errors |
| ArithMeaning.FaithfulEvaluates | pkg/applets/ash/ash.go:9894-10119 | On faithful trees the code's treatment of negative groups does not change what evaluating every operand gives |
| ArithMeaning.SplitAgreesExactly | pkg/applets/ash/ash.go:10042-10092 | A negative right operand v after a blank keeps its meaning if and only if the operator is `+`, or `*` with (a - 1) * v divisible by 2^64, or `**` with -1 |
| ArithMeaning.MinusFlips | pkg/applets/ash/ash.go:10042-10057 | `a - -k` with a blank always comes out as `a - k`, never as `a + k` |
| ArithMeaning.UnarySplitAgreesExactly | pkg/applets/ash/ash.go:10042-10057 | `!` or `~` before a negative number is right if and only if it is `!-1` |
| ArithMeaning.BlankThenNegative | pkg/applets/ash/ash.go:9894-10119 | The input `2 * (0-3)` evaluates to -3 |
| ArithMeaning.LastGroupsErrorIsReported | pkg/applets/ash/ash.go:9900-9910 | Of two groups with errors the one replaced first, the last of the text, has its error reported: `(1 ? 2) + (1/0)` is a division by zero |
| ArithChains.TopOfMarked | pkg/applets/ash/ash.go:9932-10092 | A text with any number of binary operators is split at the last one of the first kind looked for, `**` at its first; a `<` or `>` behind which a shift stands is not seen |
| ArithPrecedence.ChainEvaluates | pkg/applets/ash/ash.go:9894-10092 | Every expression of words and binary operators without parentheses is evaluated by splitting so, at every depth |
| ArithPrecedence.PrecedenceIsC | pkg/applets/ash/ash.go:9932-10092 | Precedence and associativity are C's, with `**` above all and to the right: such an expression has the value of C's order, every operand evaluated, if at every depth the operator split at is the weakest |
| ArithPrecedence.SplitsAsInC | pkg/applets/ash/ash.go:9980-10028 | The operator split at is the weakest if and only if that is no comparison hidden by another kind looked for first or by a later shift of its own character |
| ArithPrecedence.WithoutComparisons | pkg/applets/ash/ash.go:9932-10092 | Every expression without comparisons is read in C's order |
| ArithPrecedence.ShiftHidesLess | pkg/applets/ash/ash.go:10006-10010 | `1 < 2 << 3` is 1 in C and 8 here |
| Scan.TrimsBlanks | pkg/applets/ash/ash.go:9894-9898 | Trimming takes the white space at both ends, character by character listed, and nothing else |
| Arith.SpliceMeasure | pkg/applets/ash/ash.go:9900-9910 | On every text, balanced or not: a group and the text with the group replaced both have fewer opening parentheses, so evaluation terminates although the text may get longer |
| Arith.ReplaceGroups | pkg/applets/ash/ash.go:9900-9910 | The rewriting, unless it changes nothing, leaves fewer opening parentheses |
| Arith.RewriteGroups | pkg/applets/ash/ash.go:9900-9910 | The loop computes the rewriting that the theorems are about, first error kept |
| Int64.PowInt | pkg/applets/ash/ash.go:9878-9891 | The square-and-multiply loop returns base^exp modulo 2^64 as a signed word, 0 for a negative exponent |
| Int64.TruncDivMod | pkg/applets/ash/ash.go:10067-10082 | Division truncates toward zero: dividend = divisor * quotient + remainder, the remainder smaller than the divisor and never of the sign opposite to the dividend's |
| Numerals.ReadDigits | pkg/applets/ash/ash.go:9854-9876 | The digit loop returns the denoted number modulo 2^64, or fails on a digit outside the base |
| Numerals.BaseNumberRoundTrip | pkg/applets/ash/ash.go:9833-9876 | `base#digits` of any number in any base from 2 to 64 is read back modulo 2^64 |
| Numerals.DecimalRoundTrip | pkg/applets/ash/ash.go:10110-10118 | Decimal text is read back unchanged if the number fits 63 bits, and as 0 otherwise |
| NumeralLaws.DigitsStandFor | pkg/applets/ash/ash.go:9833-9852 | A character is a digit of a base exactly if it is the figure, letter, `@` or `_` at that place of the alphabet; up to base 36 capital letters are the small ones |
| NumeralLaws.BaseNumberExactly | pkg/applets/ash/ash.go:9854-9876 | `base#digits` is worth its digits, weighed by powers of the base, modulo 2^64; 0 if the base is no number from 2 to 64 or a character is no digit of it |
| NumeralLaws.ConstantExactly | pkg/applets/ash/ash.go:10110-10118 | A constant behind `0x`, `0b`, `0o`, `0` or no prefix, in either case, is worth its digits if they are digits of that base and fit 63 bits, and 0 otherwise |
| NumeralLaws.ConstantRoundTrip | pkg/applets/ash/ash.go:10110-10118 | A number written in any of these notations is read back if it fits |
| Tokens.TokenizeScript | pkg/applets/ash/ash.go:6472-6579 | The byte loop computes `Tokenize` |
| Tokens.TokensToScript | pkg/applets/ash/ash.go:6581-6608 | The printing loop computes `Print` |
| Quoting.ReadsAsQuoted | pkg/applets/ash/ash.go:6472-6579 | For every script made of plain characters, escapes, joined lines, `'...'`, `$'...'`, and double quotes and backticks nested in each other: its tokens are what unprotected blanks, newlines and `;`, `;;`, `&`, `&&` separate, an `&` behind `<` or `>` being part of its word; nothing else ends a token, and every quote and escape is kept |
| Quoting.QuotedTextIsOneToken | pkg/applets/ash/ash.go:6530-6548 | Text between single quotes, double quotes or backticks is one token, whatever blanks and operators it holds |
| Quoting.MarksAreNotRead | pkg/applets/ash/ash.go:6472-6475 | Removing a line-continuation mark anywhere changes no token |
| TokensRoundTrip.RoundTrip | pkg/applets/ash/ash.go:6472-6608 | For every list of tokens that can be read, newlines and runs of separators included: reading what was printed gives the list in normal form if and only if that does not end in an escaped blank |
| TokensRoundTrip.NormalExactly | pkg/applets/ash/ash.go:6581-6608 | A list is its own normal form if and only if it has no newline token and no `;` next to `;` or `;;` |
| TokensRoundTrip.TokensAreRead | pkg/applets/ash/ash.go:6472-6579 | Every token read from a script without open quotes is an operator, a newline or a closed word |
| TokensRoundTrip.BodyIsReadAgain | pkg/applets/ash/ash.go:6472-6608 | Any slice of the tokens that were read comes back, printed and read again, in normal form, if and only if that does not end in an escaped blank |
| TokensRoundTrip.ReadPrinted | pkg/applets/ash/ash.go:6472-6608 | Reading printed tokens behind any text already read appends them in normal form: in a run of separators a `;` at the start goes behind the `;;`s, the other single ones are dropped |
| TokensRoundTrip.TrailingBlankIsLost | pkg/applets/ash/ash.go:6581-6608 | The token `a\ ` comes back as `a\` |
| Terminator.FindMatchingTerminator | pkg/applets/ash/ash.go:6638-6702 | The matcher's loop computes `Find`, -1 when the compound is unfinished |
| Terminator.Vocabulary | pkg/applets/ash/ash.go:6622-6696 | The matcher knows exactly these words: the six signs that end a command, the six words behind which one may start, and the six that open a compound with their closers |
| Terminator.PatternsEnd | pkg/applets/ash/ash.go:6697-6700 | A word ending in `)` is the end of a pattern |
| Terminator.LookForIn | pkg/applets/ash/ash.go:6662-6677 | The look-ahead of `for` finds out whether `in` comes before the list ends |
| Compounds.FindsTheEnd | pkg/applets/ash/ash.go:6629-6702 | For every nested compound of while/until/for/if/case/brace groups, any command at the head of a condition included, whose inner compounds are found: the matcher returns the index of its closing word, whatever precedes and follows, if and only if nothing inside is captured: no argument in command position and no compound at the head of a condition is closed by that very word; else it returns a place inside |
| Compounds.AllFoundExactly | pkg/applets/ash/ash.go:6629-6702 | All compounds of a command that the matcher pushes are found at their ends if and only if none of them is captured |
| Compounds.ReadCommand | pkg/applets/ash/ash.go:6638-6702 | Any command, in command position or not, whose pushed compounds are not captured: it leaves the matcher's stack as it was if nothing in it is taken for the closing word on top, and else ends the search inside, if the stack has one entry |
| OpenedWords.OpenedUntilItsEnd | pkg/applets/ash/ash.go:6638-6702 | An argument that opens a compound for the matcher is closed again by exactly the token that the matcher, called on the argument itself, returns; without one, the outer search fails too. For every text and every stack |
| OpenedWords.SearchGoesOnBehind | pkg/applets/ash/ash.go:6638-6702 | So the search for an outer end that comes to such a word goes on behind the word's own end, or returns -1 |
| Compounds.NotBeforeTheEnd | pkg/applets/ash/ash.go:6634-6702 | No proper prefix of a compound without captures passes for complete |
| CompoundExamples.CompoundConditionIsCutShort | pkg/applets/ash/ash.go:6661-6661 | A compound as first command of a condition: the inner `fi` is taken for the outer one |
| CompoundExamples.LoopInConditionIsFound | pkg/applets/ash/ash.go:6661-6661 | `if while a; do b; done; then c; fi` is found at its last token |
| CompoundExamples.ArgumentIfAfterDoIsNotClosed | pkg/applets/ash/ash.go:6653-6684 | With arguments `do if` a loop has no end for the matcher |
| CompoundExamples.ArgumentDoneAfterDoEndsTheLoop | pkg/applets/ash/ash.go:6682-6700 | Arguments `do done` of a simple command end the enclosing loop for the matcher |
| Clauses.FindClauses | pkg/applets/ash/ash.go:1151-1192 | The loop over the clauses of an `if` computes `CutIf` |
| Clauses.FindToken | pkg/applets/ash/ash.go:6610-6623 | The loop finds the first token that is the word, glued terminators allowed |
| Clauses.GluedExactly | pkg/applets/ash/ash.go:6610-6711 | A token counts as the word if and only if it is the word followed by characters out of `;` and `&` only |
| Clauses.FindForParts | pkg/applets/ash/ash.go:1508-1598 | The searches for `in`, `do` and `done` compute `CutFor` |
| Clauses.FindLoopParts | pkg/applets/ash/ash.go:1336-1348 | The searches for `do` and `done` compute `CutLoop` |
| Clauses.IfIsCutExactly | pkg/applets/ash/ash.go:1151-1192 | For every `if` of the grammar: the cut gives its conditions, bodies and `else` part if and only if no condition holds a `then`, no body one of `elif`, `else`, `fi`, and the `else` part no `fi` |
| LoopClauses.LoopIsCutExactly | pkg/applets/ash/ash.go:1336-1348 | For every `while` and `until`: the cut gives its condition and body if and only if the condition holds no `do` and the matcher finds the loop's own end |
| LoopClauses.ForIsCutExactly | pkg/applets/ash/ash.go:1508-1598 | For every `for` with a list: the cut gives its list and body if and only if its name is not `in`, only `;` and newlines end the list, and its own end is found |
| LoopClauses.ForArgsIsCutExactly | pkg/applets/ash/ash.go:1508-1526 | For every `for` without a list: the cut gives its body if and only if there is no `in` anywhere in its tokens and its own end is found |
| LoopClauses.GroupIsCutExactly | pkg/applets/ash/ash.go:2779-2797 | For every brace group: the cut gives its body if and only if nothing follows and its own end is found |
| LoopClauses.EndFoundExactly | pkg/applets/ash/ash.go:6638-6702 | The own end of a compound is found, with its redirections behind it, if and only if nothing inside is captured |
| Clauses.CommandBehindInnerIfIsLost | pkg/applets/ash/ash.go:1172-1177 | `if a; then if b; then c; fi; d; fi`: `d` is in no part |
| Clauses.InnerElseIsTakenForTheOuter | pkg/applets/ash/ash.go:1172-1186 | `if a; then if b; then c; else d; fi; else e; fi`: `d` becomes the outer `else` part |
| Clauses.InnerDoEndsTheCondition | pkg/applets/ash/ash.go:1341-1348 | `while a; while b; do c; done; do d; done`: the condition is cut at the inner `do`, and the rest of the inner loop begins the body |
| Programs.ReadsAsWritten | pkg/applets/ash/ash.go:815-1117 | Every program of the grammar whose compounds are found and cut right is read, command by command and at every depth, as the commands it is written as; an `if` nested at the end of the last clause is among them, though its `fi` is taken for the outer one |
| Programs.ExtentIs | pkg/applets/ash/ash.go:836-892 | Joining pieces until the compound is complete takes a command of such a program up to its end and no more, whatever follows |
| Programs.BodyReadsAsWritten | pkg/applets/ash/ash.go:1170-1177 | What the runner takes as the body of a clause, up to the first word that ends one, is read as the body is written, if no such word is in it or, in the last clause, if only nested one-armed `if`s at its end bring one in |
| Programs.ProgramsRunAsWritten | pkg/applets/ash/ash.go:720-1192 | Such a program, run from its tokens, ends with the variables, status, exit and return of the structured semantics of its grammar, if no jump leaves an `if` condition |
| Rereading.AgainExactly | pkg/applets/ash/ash.go:1193-1222 | A part in separator-normal form comes back unchanged from printing and splitting if and only if it does not end in an escaped blank |
| Rereading.TextReads | pkg/applets/ash/ash.go:815-1222 | A script whose every part, at any depth, is printed and read again before it is cut further is read as the commands its token slices are read as, if its commands are in separator-normal form and no part ends in an escaped blank |
| Rereading.ProgramsRunFromText | pkg/applets/ash/ash.go:720-1222 | A program from its script text, with every part printed and read again at every depth, ends as the structured semantics of its grammar says |
| LoopRunner.FirstCommand | pkg/applets/ash/ash.go:836-892 | The loop that joins pieces until the compound is complete finds the extent of the first command |
| LoopRefinement.RunnerRefinesStructure | pkg/applets/ash/ash.go:720-1117 | For every list of commands in which no jump leaves an `if` condition: the counter-based runner ends with the variables, status and way of leaving of the structured semantics, where `break n` leaves min(n, depth) loops |
| LoopRefinement.RefineScript | pkg/applets/ash/ash.go:1085-1116 | From any idle state and at any loop depth the runner's counters show the structured semantics' jump target |
| LoopRefinement.RefineLoop | pkg/applets/ash/ash.go:1336-1506 | One `while` or `until` loop, whatever its rounds do, for any state of the counters inside |
| LoopRefinement.CountersStayWithinLoops | pkg/applets/ash/ash.go:1372-1403 | Over every such script the two counters are never both raised, never exceed the loop depth, and are zero outside all loops |
| LoopJumps.FirstCommandRuns | pkg/applets/ash/ash.go:1193-1222 | If the condition of an `if` ends in a jump: exactly the first command of the branch runs, with the counter pending; the rest runs only if that command takes the counter down |
| LoopJumps.JumpInConditionAgreesExactly | pkg/applets/ash/ash.go:1193-1222 | That is what the jump asks for if and only if the branch is empty and the status 0, or its first command leaves variables, status, counters and flags as they are, or uses the counter up and the rest ends in the same jump |
| LoopJumps.UsedUpIsLost | pkg/applets/ash/ash.go:1369-1403 | If the first command is a loop that uses the counter up, and the rest holds no jump out of itself, the jump is lost |
| LoopJumps.BreakIsLost | pkg/applets/ash/ash.go:1369-1379 | In a loop, `if break; then while x; do ...; done; fi`: the inner loop runs its condition once and swallows the `break` |
| LoopRefinement.MoreFuel | pkg/applets/ash/ash.go:1336-1420 | A run that ends within some number of loop rounds ends the same way within any larger number |
| LoopSemantics.ContainedScript | pkg/applets/ash/ash.go:1336-1420 | In the structured semantics a script never jumps to a loop outside the ones it may leave |
| LoopRunner.Runner.RunScript | pkg/applets/ash/ash.go:815-1117 | Running the tokens of a script, command by command, updates the runner's fields exactly as the specified machine does on the commands read from them |
| LoopRunner.Runner.RunCommand | pkg/applets/ash/ash.go:1041-1085 | One command, cut anew and handed to the first form that fits: status, exit request and state, up to the last status, which the caller overwrites |
| LoopRunner.Runner.RunIf | pkg/applets/ash/ash.go:1193-1222 | The loop over the arms of an `if`: it does what nested `if`s in the `else` part do |
| LoopRunner.Runner.RunPlain | pkg/applets/ash/ash.go:3321-3406 | Break, continue, exit and return: status, exit request and whole new state |
| LoopRunner.ElifContinues | pkg/applets/ash/ash.go:1193-1222 | Running an `elif` at once differs from running it in the `else` part of the `if` before it in nothing that the caller sees |
| LoopRunner.Runner.RunWhile | pkg/applets/ash/ash.go:1336-1506 | The `while` and `until` loops from their tokens, with their counter bookkeeping: whole new state |
| LoopRunner.Runner.RunFor | pkg/applets/ash/ash.go:1508-1684 | The `for` loop from its tokens: whole new state, variables included |
| LoopRunner.Runner.AfterPart | pkg/applets/ash/ash.go:1372-1403 | One level is taken off the pending counter; says whether the loop is left or goes on |
| ScopeDeep.RunnerKeepsDynamicScope | pkg/applets/ash/ash.go:3983-4036 | One variable table with saved values gives every name the binding that a stack of scopes gives it, over every script with functions, traps and subshells in which no subshell declares a local of the function around it |
| ScopeClean.CleanScriptsKeepDynamicScope | pkg/applets/ash/ash.go:3983-4036 | The same for every run of a script whose text has no `local` directly in a subshell or a trap |
| ScopeLeaks.LeakIsExact | pkg/applets/ash/ash.go:2430-2600 | After the call of a function whose subshells declare locals: a name has the binding scoping gives it if and only if, should only a subshell have saved it, the saved value is its binding when the body ends |
| ScopeDeep.CommandFollows | pkg/applets/ash/ash.go:3983-4023 | Each command, at any depth of calls, keeps the correspondence between saved values and scopes |
| ScopeDeep.WriteShows | pkg/applets/ash/ash.go:5967-6072 | Writing the one table is writing the innermost scope that binds the name |
| ScopeDeep.DeclareAllShows | pkg/applets/ash/ash.go:3988-4022 | A `local` with several items binds them in the innermost scope, keeping a bare name that is local already |
| ScopeFrames.CommandKeepsFrames | pkg/applets/ash/ash.go:4757-4816 | Over every call tree the frame stack has its earlier depth after a command, and no value saved before has changed |
| ScopeFrames.FirstTouchedByLocal | pkg/applets/ash/ash.go:4757-4816 | A name that a function does not write before its `local`, calls, traps and subshells included, has after the call the binding it had before, set or unset, whatever the rest of the body does |
| ScopeFrames.DeclareAllSaves | pkg/applets/ash/ash.go:3988-4022 | A declaration saves the binding it finds, once, and touches no other name |
| ScopeFrames.SubshellIsolates | pkg/applets/ash/ash.go:2430-2600 | After a subshell the whole state is as before, but for read-only names, which only grow, and for what the running function's frame has newly saved |
| ScopeFrames.LocalInSubshellIsRestored | pkg/applets/ash/ash.go:2430-2600 | A function that runs `(x=inner; local x)` leaves the caller with the subshell's value of x |
| ScopeFlow.FlagsSayTheFlow | pkg/applets/ash/ash.go:2430-2600 | Over every script with functions, subshells and traps: the return and exit flags, codes and statuses say what a reading without flags says, in which a script goes on, returns or exits; functions restore arguments and end a return, subshells start with ignored signals, no jobs and no loops, and give back everything but read-only names and saved values |
| ScopeFlow.ReturnSkipsTheTrap | pkg/applets/ash/ash.go:2517-2546 | A subshell left by `return` does not run its EXIT trap: with `exit 5` in the trap its status is 3 after `return 3` and 5 after `exit 3` |
| ScopeRunner.Runner.RunInSubshell | pkg/applets/ash/ash.go:2430-2600 | With tables as shared objects: fresh copies, the body, the EXIT trap, the old references back; nothing was written to the caller's tables |
| ScopeRunner.Runner.InSubshell | pkg/applets/ash/ash.go:2464-2546 | Only the copies, the read-only table and the frames can be written while a subshell runs (its modifies clause says so) |
| ScopeRunner.Runner.CopyTables | pkg/applets/ash/ash.go:2464-2474 | The tables of a subshell are fresh and hold the caller's contents, traps reduced to ignored signals |
| ScopeRunner.Runner.RunTrap | pkg/applets/ash/ash.go:2517-2546 | The EXIT trap of a subshell, its status and the status it replaces |
| ScopeRunner.Runner.Call | pkg/applets/ash/ash.go:4757-4816 | A function call: arguments, flags and locals restored, an exit under way passed on |
| ScopeRunner.Runner.RestoreLocals | pkg/applets/ash/ash.go:4783-4795 | The loop over the saved names, in any order, puts back exactly the saved bindings |
| ScopeRunner.Runner.DeclareLocals | pkg/applets/ash/ash.go:3983-4023 | The loop over the items updates the table and the innermost frame only |
| ScopeRunner.Runner.Run | pkg/applets/ash/ash.go:815-1117 | A script changes the shared tables exactly as the specified state changes |
| ScopeRunner.Runner.RunOne | pkg/applets/ash/ash.go:3030-3187 | Each kind of command changes the shared tables exactly as specified |
| ScopeRunner.Runner.AssignVariable | pkg/applets/ash/ash.go:5967-6072 | An assignment replaces the table by a copy; a read-only name makes the shell exit with 2 |
| Jobs.EveryReachedTableIsGood | pkg/applets/ash/ash.go:540-561 | Over every run of starts and waits with free process ids: the order is strictly increasing and lists exactly the jobs, pids are inverted exactly, numbers are below the next one, no listed job has ended |
| Jobs.AddKeepsExactly | pkg/applets/ash/ash.go:540-547 | A new job keeps the table in order if and only if its process id is not that of a listed job |
| Jobs.RemoveKeeps | pkg/applets/ash/ash.go:549-561 | Removing takes out one job and nothing else, and keeps the table in order |
| Jobs.AddThenRemove | pkg/applets/ash/ash.go:540-561 | Adding a job and removing it restores the table but for the number used |
| Jobs.SubshellPidIsFree | pkg/applets/ash/ash.go:2602-2606 | The negative number given to a background subshell is never taken |
| Jobs.ReusedPidIsLost | pkg/applets/ash/ash.go:540-561 | Two live jobs with one process id: after removing the first, the second cannot be found by it |
| Jobs.WaitEmptiesTheTable | pkg/applets/ash/ash.go:5522-5542 | `wait` without arguments, unless interrupted, ends with no job left |
| Jobs.RoundsSuffice | pkg/applets/ash/ash.go:5522-5542 | On a table in order the loop of `wait` ends within as many rounds as there are jobs |
| Jobs.DoneJobIsWaitedForEver | pkg/applets/ash/ash.go:5522-5542 | With a job at the head of the order that is marked done and still listed, any number of rounds leaves table and events as they were: the loop never ends |
| Jobs.FirstEventDecides | pkg/applets/ash/ash.go:5493-5520 | A wait for one job ends with the first event that is no untrapped signal: with the exit status, with 0 for a closed channel, or interrupted with the signal's status |
| Jobs.WaitGivesTheLastStatus | pkg/applets/ash/ash.go:5522-5542 | `wait` without arguments gives the status of the newest job |
| Jobs.WaitForNumbers | pkg/applets/ash/ash.go:5543-5575 | With job numbers it waits in that order, gives the last one's status and removes these jobs and no others |
| Jobs.WaitGivesStatus | pkg/applets/ash/ash.go:5486-5605 | The builtin: without arguments the status of the newest job, 0 without jobs; with numbers the last one's; with arguments but no jobs 1 |
| Jobs.NewestAreFound | pkg/applets/ash/ash.go:5549-5560 | `%+` names a job if there is one, `%-` if there are two |
| Jobs.OtherArguments | pkg/applets/ash/ash.go:5543-5602 | An argument that names no job makes it fail with 1 and wait no further; a process that is no job gives its own status |
| Jobs.WaitRemovesTheOldest | pkg/applets/ash/ash.go:5522-5542 | However it ends, it has removed a prefix of the order, one job for every exit it saw |
| Jobs.WaitOneKeeps | pkg/applets/ash/ash.go:5495-5521 | Waiting for one job removes that job if it ended and changes nothing otherwise |
| Jobs.WaitEachKeeps | pkg/applets/ash/ash.go:5543-5611 | `wait` with arguments only ever removes jobs and keeps the rest as they are |
| Jobs.CurrentIsNewest | pkg/applets/ash/ash.go:5549-5553 | `%`, `%%` and `%+` mean the newest job |
| Jobs.PreviousIsNewestButOne | pkg/applets/ash/ash.go:5554-5558 | `%-` means the newest but one |
| JobRunner.Runner.AddJob | pkg/applets/ash/ash.go:540-547 | The fields after adding, and the number returned |
| JobRunner.Runner.RemoveJob | pkg/applets/ash/ash.go:549-561 | The fields after removing, by the loop over the order |
| JobRunner.Runner.StartSubshell | pkg/applets/ash/ash.go:2602-2606 | A background subshell enters an orderly table and leaves it orderly |
| JobRunner.Runner.WaitForJob | pkg/applets/ash/ash.go:5495-5521 | The event loop: exit, closed channel, trapped and untrapped signals |
| JobRunner.Runner.WaitForAll | pkg/applets/ash/ash.go:5522-5542 | Ends with empty tables unless interrupted or without events |
| JobRunner.Runner.WaitForEach | pkg/applets/ash/ash.go:5543-5611 | The argument loop with its early failures |
| JobRunner.Runner.WaitBuiltin | pkg/applets/ash/ash.go:5486-5612 | The whole builtin on an orderly table, which stays orderly |
| FieldTheorem.SplitsAsPosix | pkg/applets/ash/ash.go:8174-8267 | On any text whose literal IFS characters are marked, the splitter gives the fields of section 2.6.5 of the POSIX Shell Command Language |
| FieldTheorem.UnmarkedTextSplitsAsPosix | pkg/applets/ash/ash.go:8174-8267 | The same for plain text |
| FieldTheorem.UsualFieldsAreTheRuns | pkg/applets/ash/ash.go:8174-8267 | With space, tab and newline in IFS the fields of plain text are exactly its longest stretches of other characters, in order |
| FieldTheorem.FieldsKeepTheText | pkg/applets/ash/ash.go:8174-8267 | The fields together are the text without its delimiters, in order |
| FieldTheorem.LiteralTextIsOneField | pkg/applets/ash/ash.go:8619-8624 | Text that is literal throughout comes back as one field, whatever it holds |
| FieldTheorem.BlankIFSGivesNoEmptyField | pkg/applets/ash/ash.go:8174-8267 | With only blanks in IFS no field is empty |
| FieldTheorem.EmptyIFSSplitsNothing | pkg/applets/ash/ash.go:8174-8177 | With an empty IFS the text is one field, markers from another IFS taken off |
| FieldTheorem.CollectsFields | pkg/applets/ash/ash.go:8200-8240 | From any state of the loop: the fields still to come are the rule's, plus one empty field after a final delimiter |
| FieldSplitting.SplitWordFields | pkg/applets/ash/ash.go:8174-8240 | The loop over bytes computes `WordFields` |
| FieldSplitting.LastUnescapedChar | pkg/applets/ash/ash.go:8242-8253 | The backward loop finds the last character, and whether it is a marked one only behind a final marker |
| FieldSplitting.SplitTextOnIFS | pkg/applets/ash/ash.go:8255-8267 | The fields without the empty one after a final delimiter |
| Aliases.ExpandWords | pkg/applets/ash/ash.go:7246-7289 | The queue loop ends on every alias table, cyclic ones included, with the specified words |
| Aliases.EachAliasOnce | pkg/applets/ash/ash.go:7246-7289 | The result comes from the command by substitutions from left to right, each of an alias standing at its place and each alias at most once |
| Aliases.WordsAreKept | pkg/applets/ash/ash.go:7246-7289 | Nothing is lost but the substituted names, nothing gained but the words of their values, with multiplicity |
| Aliases.FirstWordIsFinal | pkg/applets/ash/ash.go:7265-7281 | The word left in command position is no alias that was not substituted |
| Aliases.OnlyTheCommandWord | pkg/applets/ash/ash.go:7265-7281 | With values that do not end in a blank only the command word is replaced, along its chain |
| AliasBlanks.NextWordIsLookedUpExactly | pkg/applets/ash/ash.go:7246-7289 | On every table: the word behind an alias that leaves words of its own is looked up if and only if the last alias of its chain ends in a blank |
| AliasBlanks.OnlyTheLastBlankCounts | pkg/applets/ash/ash.go:7278-7287 | From any state of the loop: of all the blanks on the way to the command word only that of the last alias is remembered |
| AliasBlanks.SubstitutionsAgreeExactly | pkg/applets/ash/ash.go:7246-7289 | On every table and every command: the loop substitutes the same words at the same places as the rule, by which the word that stands in the queue right behind a value ending in a blank is looked up, if and only if, from chain to chain, of the words still open behind the chain the rule asks for the one place that the loop looks up, the first word of the command behind a last value that ends in a blank, and for no other |
| AliasBlanks.AgreeingExpandsRight | pkg/applets/ash/ash.go:7246-7289 | Where that holds, the loop ends with the words the rule gives |
| AliasBlanks.RuleDerives | pkg/applets/ash/ash.go:7246-7289 | The rule, too, replaces words of the command one by one: its result follows from its substitutions |
| AliasBlanks.AskedExactly | pkg/applets/ash/ash.go:7278-7287 | A word behind the chain is asked for if and only if some substitution of the chain put a value ending in a blank when exactly that word and those behind it stood in the queue, and no later substitution went further; empty values included |
| AliasBlanks.LookUpsAgreeExactly | pkg/applets/ash/ash.go:7278-7287 | Behind an alias that leaves words of its own: the loop makes the substitutions of the rule if and only if no blank stands in front of an open alias among those words, the last value ends in a blank exactly when some value with nothing of the others behind it does, should the next word be an open alias, and the rest agrees |
| AliasExamples.BlankInsideAValueReachesOut | pkg/applets/ash/ash.go:7278-7287 | With a="b foo" and b="c ", the x in `a x` is looked up though the blank stands before foo: `c foo y`, by the rule `c foo x` |
| AliasExamples.EmptyValueMakesRoom | pkg/applets/ash/ash.go:7278-7287 | With a="b foo", b="" and foo="c " the loop and the rule both give `c y` for `a x` |
| AliasExamples.BlankAloneReachesOut | pkg/applets/ash/ash.go:7278-7287 | With a="b foo" and b=" ", `a x` becomes `foo y`, by the rule `foo x` |
| Aliases.InnerAliasForgetsTheBlank | pkg/applets/ash/ash.go:7278-7279 | A value that ends in a blank but starts with another alias does not pass the blank on |
| DiffScript.LcsIsLongest | pkg/applets/diff/diff.go:537-552 | The table's value bounds every common subsequence |
| DiffScript.WalkCounts | pkg/applets/diff/diff.go:553-575 | The walk keeps exactly as many lines as the table says; the rest are deleted or inserted |
| DiffScript.ScriptIsMinimal | pkg/applets/diff/diff.go:537-575 | No script that turns the one list of compared lines into the other keeps more, deletes fewer or inserts fewer |
| DiffScript.WalkTakesLeft | pkg/applets/diff/diff.go:553-575 | The kept and deleted lines are the left file, whatever is compared |
| DiffScript.WalkLeavesRight | pkg/applets/diff/diff.go:553-575 | The kept and inserted lines are the right file up to normalization |
| DiffScript.WalkLeavesRightExactly | pkg/applets/diff/diff.go:553-575 | Without normalization they are the right file |
| DiffScript.FillTable | pkg/applets/diff/diff.go:540-552 | The nested loops fill every cell with the longest common subsequence of the two suffixes |
| DiffScript.BuildDiffLines | pkg/applets/diff/diff.go:537-575 | The index loops emit the specified script |
| DiffScript.NormalizeLinesWithMap | pkg/applets/diff/diff.go:489-516 | Normalized lines and an increasing map to the originals |
| DiffHunks.MakeHunks | pkg/applets/diff/diff.go:587-622 | For every context: a position is in some hunk if and only if it is within the context of a change; hunks are sorted and do not touch |
| DiffHunks.HunksAreUnique | pkg/applets/diff/diff.go:587-622 | These two properties leave one list of hunks only |
| DiffPatch.ApplyEdits | pkg/applets/diff/diff.go:624-653 | Each hunk's old side is found where the script says, and applying any of the hunks makes their changes and no others |
| DiffPatch.PatchIsExact | pkg/applets/diff/diff.go:624-653 | Applying the hunks of any context to the old side gives the new side |
| DiffPatch.DiffPatchesLeftToRight | pkg/applets/diff/diff.go:537-653 | Without normalization, applying the hunks to the left file gives the right file |
| DiffPatch.FilteredPatchKeepsText | pkg/applets/diff/diff.go:578-585 | With -B, leaving out the hunks of blank lines loses blank lines only |
| DiffPatch.HunkIsBlankOnly | pkg/applets/diff/diff.go:578-585 | True if and only if every changed line of the hunk is blank |
| DiffPatch.ComputeStart | pkg/applets/diff/diff.go:708-719 | One more than the lines before the index without the given tag |
| DiffPatch.WriteHeader | pkg/applets/diff/diff.go:640-665 | The printed counts are the lengths of the hunk's two sides; the start numbers are those of the other side |
| DiffPatch.HeaderIsRightExactly | pkg/applets/diff/diff.go:655-656 | The printed start numbers are right if and only if as many lines were deleted as inserted in front of the hunk |
| DiffPatch.FirstHeaderIsRight | pkg/applets/diff/diff.go:655-656 | Nothing was deleted or inserted in front of the first hunk |
| DiffPatch.SecondHeaderCanBeWrong | pkg/applets/diff/diff.go:655-656 | A three-line script: of the two hunks made from it without context, the second gets a wrong header |
| SedSelection.SelectsStandardRanges | pkg/applets/sed/sed.go:770-922 | For a command reached in every one-line cycle, any first address and a second that is a positive number, `+N` or `$`: the lines selected are those of the standard's ranges, begun by a match at the start of the cycle or when the command is reached |
| SedSelection.StandardExactly | pkg/applets/sed/sed.go:770-922 | They are the ranges begun by matches when reached if and only if every line matching only at the start of its cycle lies in such a range |
| SedSelection.StableFirstAddress | pkg/applets/sed/sed.go:770-922 | If both tests agree on every line, selection is the standard's, and negation selects its complement |
| SedSelection.NumberedRanges | pkg/applets/sed/sed.go:770-922 | So it is when the ranges begin at a line number, at the last line, at the lines first + j * step, or, with first 0, at the positive multiples of the step, whatever the other commands do |
| SedSelection.RegexRangesOnUnchangedLines | pkg/applets/sed/sed.go:770-922 | So it is for regular expressions on lines that no earlier command changed |
| SedSelection.ComplementExactly | pkg/applets/sed/sed.go:858-922 | Negation selects the complement if and only if every one-line range begun only when reached is followed by a line that begins a range itself |
| SedSelection.OneLineTooMany | pkg/applets/sed/sed.go:858-893 | A script whose negated range takes in one line too many |
| SedSelection.MatchThatIsGoneSelects | pkg/applets/sed/sed.go:770-782 | A line that matches only at the start of its cycle is selected without negation, though the standard's range is empty |
| SedSelection.ChangePrintsAtRangeEnds | pkg/applets/sed/sed.go:1033-1040 | `c` prints its text once for every completed range, on the range's last line, but for a range to `$` that begins on the last line only when reached |
| SedSelection.NegatedChangePrintsEveryLine | pkg/applets/sed/sed.go:1033-1040 | Negated, `c` prints on every line it selects |
| SedOutput.NumberedLineSelects | pkg/applets/sed/sed.go:858-953 | A command with one line number, step or `$` selects exactly the lines it names, negated the others |
| SedOutput.MatchingLineSelects | pkg/applets/sed/sed.go:858-953 | With one regular expression it selects the lines whose pattern space matches; the empty expression is the one that matched last |
| SedOutput.EveryLineSelects | pkg/applets/sed/sed.go:858-861 | Without an address it selects every line |
| SedOutput.LineIsCounted | pkg/applets/sed/sed.go:706-768 | Whatever the script, cycle k sees line number k |
| SedOutput.FreshCycle | pkg/applets/sed/sed.go:706-726 | A cycle starts with its line in the pattern space, nothing appended and no substitution noted; hold space, last expression and output go on |
| SedOutput.CyclePrints | pkg/applets/sed/sed.go:721-768 | A cycle prints the pattern space unless the line was deleted, printing is off or the script left silently, then the appended lines; quitting stops |
| SedOutput.DeletePutsOutTheOthers | pkg/applets/sed/sed.go:706-768 | The output of a script `d` with any addresses is the lines it does not select, in order |
| SedOutput.DeleteByNumber | pkg/applets/sed/sed.go:706-953 | With a line number, step or `$`: exactly the lines not named, negated those named |
| SedOutput.PrintPutsOutTheSelected | pkg/applets/sed/sed.go:706-768 | The output of `p` with printing off is the selected lines |
| SedOutput.ChangePutsOutItsText | pkg/applets/sed/sed.go:1033-1040 | `c` with one address puts out its text in place of each selected line |
| SedOutput.GroupAroundScript | pkg/applets/sed/sed.go:816-856 | Braces around a whole script change nothing, on any input |
| SedRanges.SelectsActualRanges | pkg/applets/sed/sed.go:770-922 | What is selected in every case, negation and late starts included |
| SedRanges.RangeInvariant | pkg/applets/sed/sed.go:770-922 | Between cycles the range state is either searching or open since a line not past its end |
| SedRanges.LinesAreCounted | pkg/applets/sed/sed.go:706-768 | Lines are counted one by one, so the rule for skipped lines never applies in one-line cycles |
| SedRanges.CycleRange | pkg/applets/sed/sed.go:816-856 | No other command of the script, groups included, touches a command's range |
| SedRanges.RunGoesThrough | pkg/applets/sed/sed.go:706-719 | The states spoken of are those of the run |
| SedEngine.Engine.PreActivateRanges | pkg/applets/sed/sed.go:770-782 | The pre-activation pass over commands and groups: whole new state |
| SedEngine.Engine.AddrMatch | pkg/applets/sed/sed.go:924-953 | The address test and the regular expression it remembers |
| SedEngine.Engine.Matches | pkg/applets/sed/sed.go:858-922 | Selection and the new range state of a command |
| SedEngine.Engine.RunCommands | pkg/applets/sed/sed.go:816-856 | A command list: whole new state and how it ended |
| SedEngine.Engine.Cycle | pkg/applets/sed/sed.go:721-768 | One line's cycle with its printing |
| SedEngine.Engine.Run | pkg/applets/sed/sed.go:706-719 | All lines, until a quit |
| Xargs.PackIsShortest | pkg/applets/xargs/xargs.go:156-187 | No order-preserving split into non-empty batches whose lines fit has fewer batches |
| Xargs.PackSplits | pkg/applets/xargs/xargs.go:156-187 | The batches are not empty, concatenate to the words, and each of two or more words fits the size |
| Xargs.PackExactly | pkg/applets/xargs/xargs.go:156-187 | They are the only such split in which no batch could take the next word |
| Xargs.StaysAhead | pkg/applets/xargs/xargs.go:165-177 | The exchange argument: while it holds no more than another split's current batch, first fit needs no more batches |
| Xargs.ChunksSplit | pkg/applets/xargs/xargs.go:142-155 | Splitting by count: the batches concatenate to the words, all but the last are full |
| Xargs.ChunksAreShortest | pkg/applets/xargs/xargs.go:142-155 | No split into batches of at most n words is shorter |
| Xargs.ExitCodeIsLastFailure | pkg/applets/xargs/xargs.go:149-152 | The exit status is that of the last command that failed, 0 if none did |
| Xargs.RunBatched | pkg/applets/xargs/xargs.go:156-187 | The loop runs exactly these command lines and returns that status |
| Xargs.RunBatchedByArgs | pkg/applets/xargs/xargs.go:142-155 | The loop over slices, likewise |
| Xargs.LinesFit | pkg/applets/xargs/xargs.go:156-187 | Every command line of two or more words, spelt with blanks and its terminator, stays within the size, name and fixed arguments included, and no line but the last could have taken the next word |
| DnsMessages.MessageRoundTrip | pkg/applets/dig/dig.go:362-475 | For every header and questions with valid names: unpacking the packed message restores them, names without a final dot, if and only if the header counts the questions and announces no records |
| DnsMessages.ReplyRoundTrip | pkg/applets/dig/dig.go:402-475 | For all headers, questions and three lists of records: the reply on the wire is read as it was written, answers, authority and additional records each in their own section and knowing where their data is, if and only if the header's four counts are the four lengths |
| DnsMessages.HeaderBytes | pkg/applets/dig/dig.go:362-369 | The header is the twelve bytes of its fields, high byte first |
| DnsMessages.QuestionBytes | pkg/applets/dig/dig.go:371-382 | A question is its labels, a zero byte and its type and class, high byte first |
| DnsMessages.RecordsReadBack | pkg/applets/dig/dig.go:431-457 | Any section of uncompressed records is read back at any offset, each with the place of its data |
| DnsMessages.QuestionsReadBack | pkg/applets/dig/dig.go:362-430 | Packed questions are read back at any offset, with the offset behind them |
| DnsMessages.PackMessage | pkg/applets/dig/dig.go:362-383 | The packing loop: the header and the questions, or failure on an invalid name |
| DnsMessages.ReadQuestions | pkg/applets/dig/dig.go:416-429 | The question loop, first fault reported |
| DnsMessages.ReadRecord | pkg/applets/dig/dig.go:431-457 | One record with its bounds checks |
| DnsMessages.ReadRecords | pkg/applets/dig/dig.go:431-457 | The record loop, first fault reported |
| DnsMessages.UnpackMessage | pkg/applets/dig/dig.go:402-475 | The whole reader: header, questions and three sections, or the first fault |
| DnsNames.NameRoundTrip | pkg/applets/dig/dig.go:385-519 | Every valid name comes back without its final dot, at any offset, and reading goes on right behind it |
| DnsNames.CompressedNameRead | pkg/applets/dig/dig.go:490-512 | A name that ends in a pointer, two high bits set and fourteen bits of target, is its labels and the name at the target; reading goes on behind the pointer |
| DnsNames.DottedIsPacked | pkg/applets/dig/dig.go:385-400 | Labels with dots between them, with or without a final one, are packed behind their lengths if each has 1 to 63 bytes and refused otherwise; the dot alone is the root |
| DnsNames.PointingBackEnds | pkg/applets/dig/dig.go:477-519 | If every pointer targets below the start of its segment, the name has an end |
| DnsNames.EndsSoonOrNever | pkg/applets/dig/dig.go:477-519 | A name ends within as many pieces as the message has bytes and one more, or not at all |
| DnsNames.CycleNeverEnds | pkg/applets/dig/dig.go:477-519 | An offset reached twice is reached over and over |
| DnsNames.LabelsReadBack | pkg/applets/dig/dig.go:477-519 | Encoded labels are read back at any offset |
| DnsNames.PackName | pkg/applets/dig/dig.go:385-400 | The label loop: labels of 1 to 63 bytes and the root, or failure |
| DnsNames.ReadPiece | pkg/applets/dig/dig.go:482-516 | The bounds checks for one label, pointer or end |
| DnsNames.UnpackName | pkg/applets/dig/dig.go:477-519 | The loop returns the recursively specified labels and the offset behind the first pointer |

## Left out

- Simple commands, programs, `wait4`, regular expressions, blank tests and alias word splitting are parameters (`World` datatypes and function arguments); no claim is made about them.
- ArithMeaning.ParsePreservesMeaning: excludes trees that are not faithful; the lemmas named *Exactly* say for each operator when an excluded operand is still right.
- ArithPrecedence.PrecedenceIsC: words and binary operators; with groups, signs and `?:` the trees of `ArithMeaning` speak, which are fully parenthesised. Both operands of the logical operators are evaluated here.
- Arith: variables and their recursive values, `_` in numbers other than behind `#`, and the text checks in front of the evaluator; atoms are words of letters, digits, `#` and `@`, with `_` behind `#`.
- Tokens: one character is one byte; blanks beyond Latin-1 are not modelled.
- Quoting.ReadsAsQuoted: quotes and backticks nest; a double quote opened inside backticks that are themselves inside double quotes closes the outer one for the reader, and such texts are not covered.
- TokensRoundTrip.TokensAreRead: leaves out scripts with a backslash before a newline, which the reader joins.
- Compounds.FindsTheEnd: no argument in command position, behind a word that introduces a command, is a word that opens a compound; such a word is pushed, and `OpenedWords.OpenedUntilItsEnd` says by which token it is closed again, for any text. The compounds inside are themselves found; `AllFoundExactly` has no such condition.
- Programs.ReadsAsWritten: for programs that are not cut right only the single cuts have exact conditions; some of them are read right all the same, such as an `if` with `elif` at the end of an `else` part.
- Rereading.ProgramsRunFromText: commands are in separator-normal form (newlines stand between commands only, inside them `;`), and no part ends in an escaped blank; `TokensRoundTrip.BodyIsReadAgain` says what becomes of any other part.
- LoopRunner.Runner.RunScript: the class hands token slices on; that printing and reading them again makes no difference is `Rereading.TextReads`.
- Reading: pieces are what stands between `;` and newline tokens; the splitting of the script's text into pieces, with its quotes, here-documents, `&`, aliases and function definitions, is not part of this model. Redirections behind compounds are read past, `case` and groups with redirections are commands without parts.
- LoopRefinement.RunnerRefinesStructure: no jump leaves an `if` condition; what happens then is the subject of `LoopJumps`.
- Loops: and-or lists, pipelines, `case`, `set -e`, signal traps and here-documents.
- LoopJumps.JumpInConditionAgreesExactly: neither branch lets a jump leave an `if` condition of its own.
- LoopRunner and ScopeRunner: methods require a run that ends within the given ghost bound; runs without an end have no claim.
- Scope: functions and subshells run without loops there (loops are the subject of `Loops`); prefix assignments before commands, `read`, `export name=value`, `eval`, the variables `?` and `LINENO`, and the `-` that `local` strips from a name are not modelled. Commands outside the model may change the settings but not variables, functions, traps or read-only names.
- Scope: function and trap bodies are command lists where the program keeps text; scripts are parsed elsewhere.
- ScopeRunner: exported names, aliases, options, arguments and jobs share one table object where the program has one each; file descriptors, signal channels, the line numbers of functions and signals passed on to the parent are not modelled.
- ScopeDeep.RunnerKeepsDynamicScope: says nothing about runs in which a subshell declares a local of the function around it; `ScopeLeaks.LeakIsExact` does, for functions that do not declare such a name again and whose callees are clean.
- Jobs: job objects are values, goroutines and channels are a list of events, trap actions run during `wait` do not touch the table, and arguments are already parsed.
- Jobs.WaitEmptiesTheTable: needs a table in order; with a listed job that has ended the loop would not end (`DoneJobIsWaitedForEver`).
- FieldTheorem: the marker character occurs neither in the text nor in IFS; splitting with quotes (`splitOnIFSWithQuotes`) is not modelled.
- Aliases: joining the words with blanks and the splitting of values into words.
- DiffPatch.DiffPatchesLeftToRight: without normalization flags; with them `DiffScript.WalkLeavesRight` speaks of normalized lines. Missing final newlines and the file header are not printed.
- SedOutput.DeletePutsOutTheOthers: the commands `d` and `p` are worlds in which the one remaining command deletes, or prints the pattern space.
- Sed: `n`, `N`, `D`, labels and branches other than to the end, `w` files, and the newline at the end of the output; regular expressions as second address.
- SedSelection.SelectsStandardRanges: top-level commands reached in every cycle.
- Xargs: reading words, options, and the single command line that is run when neither -s nor -n is given.
- DnsMessages.ReplyRoundTrip: the names of the reply are not compressed; `DnsNames.CompressedNameRead` says how a compressed one is read.
- DnsNames.UnpackName: requires that the name has an end; names with pointer cycles have no claim beyond `CycleNeverEnds`.
- DnsMessages: formatting, queries over the network; records are never packed by the program, so they are compared with an encoder of this project.
- Getopts, globbing, redirections, process execution, the other applets and everything that only formats or parses flags.
