# A proved model of 42sh

42sh is a POSIX shell written in C. This project models its language front end
and the tables and state machines behind it, and proves what they promise: that
text becomes tokens, trees and arguments in the way meant, and that caches,
descriptor tables, job tables and the line reader keep their invariants over
whole runs.

`dafny verify dfyconfig.toml` checks everything.

## How it is built

Each component has two faces. A specification module says, as functions on the
rest of the input or on one state, what the C code computes, branch by branch:
`LexerSpec`, `AliasSpec`, `ParserSpec`, `FieldSplitSpec`, `ExpanderSpec`,
`ArithSpec`, `ShellState`, `RedirectSpec`, `InputSpec`, `JobSpec`,
`ExecutorSpec`. A module with classes and loops has the form of the C code, with
the cursor, flags, buffers, lists and linked nodes updated in place: `Lexer`,
`Aliases`, `Parser`, `Buffer`, `FieldSplit`, `Expander`, `Arith`, `HashTable`,
`Shell`, `Redirect`, `Input`, `Jobs`, `Executor`, `HeredocQueue`, `Cd`. Every
method is proved to compute its specification; the properties are proved of the
specifications, over all inputs, runs or reachable states: `LexerNormalForm`,
`ParserRoundTrip`, `ParserSound`, `Heredocs`, `ShellProofs`,
`EnvironProofs`, `AssignmentScope`, `RedirectProofs`, `RedirectNesting`,
`RedirectExactly`, `RedirectMixed`, `InputProofs`, `InputRereads`,
`InputOperators`, `AliasPlaces`, `CommandStarts`, `LineBreaks`, `ExpansionFails`,
`JobProofs`, `JobTableProofs`, `Assignments`, `AliasBodies`; across components:
`AliasCommands`, `Quoting`, `QuotedInput`, `HeredocFlow`, `TextTokens`,
`ArithWords`. `WordGrammar` gives words as they are written; `WordLexing`,
`WordMeaning` and `WordExpansion` prove what the tokenizer and the expander make
of each. `ShellSteps`, `RedirectSteps`, `JobSteps` and `InputSteps` state
the whole effect of one operation from any state.

Strings are the bytes of a C string before its terminator. Integers are
unbounded, except in the hash (64-bit words) and the digit printer (64-bit
values, 70-byte buffer). What the system supplies is a parameter: executable
files, the contents of directories, open files, the output of command
substitutions, user directories, reports from `waitpid`, the lines of the input,
and the effect of a simple command.

## Main results

- Text and tokens: lexing is a retraction; its image is exactly the normal-form
  token lists (`RelexTokenized`, `TokenizerImage`).
- Text and trees: however a tree is laid out, with blanks and comments between its
  tokens, it is read back as the tree (`LayoutLexes`, `TreeReads`).
- Words and arguments: a word of any nesting of quotes, escapes and expansions is
  one token and expands to what its parts mean, from the text of a command line to
  its arguments (`WordLexed`, `WordMeans`, `CommandMeans`).
- Tokens and trees: a tree survives printing and parsing exactly when it is in
  normal form, and only such trees are ever built (`RoundTripExactly`,
  `ParseSound`).
- The whole front end, from the lines of the input to the arguments, undoes the
  quoting of the alias printer (`QuotingSurvives`, `QuotedLinesSurvive`).
- Field splitting is the unique decomposition the standard describes
  (`SplitExactly`).
- The arithmetic evaluator is sound and complete for its grammar (`EvalCorrect`).
- Alias expansion ends, is bounded, and leaves everything else in place, redirect
  targets always and arguments when alias bodies settle (`ExpansionsBounded`,
  `InputKept`, `TargetsStay`, `ArgumentsStay`); a name is replaced by all of its
  text (`BodyInserted`, `NameReplaced`).
- The hash table is a finite map (`Table.Set`, `Table.Delete`, `Table.Iter`); the
  command cache over it is invisible (`CachedSearchIsSearch`), and the
  environment array is always current (`EnvironIsCurrent`).
- Redirection scopes restore the descriptor table, alone and nested
  (`ScopeRestores`, `NestingRestores`).
- The line reader loses no line (`ReadConserves`), and reader, tokenizer, parser
  and walk agree on here-documents (`HeredocsMeet`).
- Job status does not depend on the order of reaping (`OrderIrrelevant`).
- Running a tree is its short-circuit meaning (`ExecuteMeans`).
- Resolving a path is idempotent and stepwise (`ResolveTwice`, `ResolveStepwise`).

## Where the code falls short of its comments

Each of these is kept as the code has it, with the exact condition under which
the promise holds, and a witness where that helps.

- Unquoted literal text is field-split, not only the results of expansions
  (`LiteralWholeExactly`).
- With an empty IFS an empty buffer is one field, not none (`EmptyFieldsExactly`,
  `EmptyVanishesExactly`).
- Arithmetic whose inner text fails to expand is evaluated from a null pointer
  (`DollarFailsExactly`, `NestedWitness`).
- An arithmetic expansion ends at the first `))` that is not paired with a `((`
  inside, so an expression that ends with a parenthesis loses it
  (`ExpressionExactly`, `PrintedExactly`).
- An unterminated `${` writes its brace twice (`BraceAgainExactly`,
  `UnterminatedBrace`).
- A line break after `&&`, `||` or `|` forbids groups and turns an assignment
  into a command name (`LineBreakHarmlessExactly`, `LineBreakMatters`).
- `A=1 (cmd)` drops the assignment (`AssignmentsKeptExactly`, `AssignmentLost`,
  `AssignmentLostHere`).
- A line break after assignments alone does not end the command (`BreakEndsExactly`,
  `AssignmentContinues`).
- A command after an assignment or first in a block is not looked up among the
  aliases (`NamesReadExactly`, `NamesMissed`).
- An empty alias, or one that ends in a redirection or an operator, moves the
  next word of the input to another place, where it may be expanded or not
  (`StaysExactly`, `ArgumentExpanded`).
- A group's own here-documents take bodies before those inside it
  (`InOrderExactly`, `BodiesMeetOperators`, `CrossingSwaps`).
- A backslash continuation after a here-document reads another body
  (`ReadOnceExactly`, `OneBodyEachExactly`, `GlueReadsAgain`).
- The reader takes `#` inside a word for a comment (`FoundExactly`,
  `HashHidesHeredoc`).
- A redirection of descriptor 3 or above in a scope is not undone and may
  overwrite a saved descriptor, and with one of 0, 1 and 2 closed a saved
  descriptor may lie there; duplications can do the same (`ListRestoredExactly`,
  `FilesRestoredExactly`, `AllClosedExactly`, `ThirdOverwritesSaved`,
  `OverwrittenCopyLoses`, `ClosedOutputLosesInput`).
- Repeated assignments in front of a builtin are not undone, and an assignment to
  a variable exported without a value loses the export (`EntryUndoneExactly`,
  `ListUndoneExactly`, `RepeatedAssignmentLeaks`).
- A job counts as terminated only when its last report is a death by signal
  (`WaitExactly`), and a report that a process continued completes it
  (`CompletionExactly`, `FinishedExactly`, `ContinuedFinishes`).
- A job that `jobs` shows finished is never announced (`EveryRunIsSound`,
  `ListingSilences`).
- The command cache may answer with a later directory of PATH after an earlier
  one gained the command (`CachedSearchWhileChanging`, `RememberedLater`).

## Model

| member | source | states |
|---|---|---|
| LexerNormalForm.RelexTokenized | srcs/lexer/lexer.c:16-46 | for every input, printing its tokens with single spaces (io digits glued to the operator) and lexing again gives the same kinds, values and io numbers |
| LexerNormalForm.TokenizerImage | srcs/lexer/lexer.c:16-46 | a token list is the lexing of some input if and only if it is in normal form: operator rows of the table with their literals, `))` only at arithmetic depth, words that end where they claim, only the last word left open, EOF last |
| LexerNormalForm.LexSpans | srcs/lexer/lexer.c:16-46 | the spans of the tokens of any input cover it but for gaps of blanks and whole comments, and each token is the text of its span |
| LexerNormalForm.SpansDisjoint | srcs/lexer/lexer.c:16-46 | spans come in order and do not overlap |
| LexerNormalForm.Resume | srcs/lexer/lexer_words.c:50-99 | a word read up to its end is read the same when any separator follows it instead, quotes, backslashes and `$(` depth included |
| LexerSpec.OperatorStartMatches | srcs/lexer/lexer_operator.c:75-88 | whatever is taken for the start of an operator has a row of the table, so reading it cannot fail |
| LexerSpec.RowIsFirstMatch | srcs/lexer/lexer_operator.c:30-56 | the row read is the one a scan of the table from the top stops at |
| Lexer.Lexer.ReadOperator | srcs/lexer/lexer_operator.c:133-164 | the io number, the row and the new arithmetic depth are those of the specification; the cursor moves past them |
| Lexer.Lexer.StartsOperator | srcs/lexer/lexer_operator.c:75-88 | true exactly at an operator, digits before `<` or `>` included |
| Lexer.Lexer.ReadWord | srcs/lexer/lexer_words.c:50-99 | the word is the longest run the quote, backslash and `$(` scanner allows |
| Lexer.Lexer.WordStep | srcs/lexer/lexer_words.c:60-90 | one turn of the scanner: two bytes for an escape or `$(`, else one, with the flags of the specification |
| Lexer.Lexer.Tokenize | srcs/lexer/lexer.c:16-46 | terminates on every input and returns the specified token list, EOF last, whatever depth an earlier call left |
| TextTokens.LayoutLexes | srcs/lexer/lexer_operator.c:30-56 | for every list of single words and operators in the spelling the grammar gives them, with any blanks and comments that fit between: the text lexes to exactly these kinds, values and io numbers; `a&&b` needs no blank |
| TextTokens.TreeReads | srcs/parser/parser.c:21-59 | from text to tree: however a normal-form tree is laid out, tokenizing and parsing the text gives the tree |
| TextTokens.PrintReads | srcs/parser/parser.c:21-59 | so a tree printed with single spaces is read back as the tree |
| TextTokens.JointsRead | srcs/lexer/lexer_operator.c:41-43 | instance: `a && b` is a conjunction, and a disjunction with two bars for the operator |
| WordLexing.WordLexed | srcs/lexer/lexer_words.c:50-99 | every word made of plain bytes, escapes, quotes, variables and command substitutions, nested and closed, is one word |
| AliasSpec.ExpansionsBounded | srcs/aliases/alias_expand.c:149-184 | for every table, cyclic or not, and every token list: at most 256 expansions in all, at most 64 in one chain, and no name twice in a chain |
| AliasSpec.ChainIsRecent | srcs/aliases/alias_expand.c:149-184 | an expansion's chain is exactly the run of expansions made just before it for the same command word |
| AliasSpec.InputKept | srcs/aliases/alias_expand.c:186-215 | quoted words, operators and words without an alias are all kept, unchanged and in order, around what aliases insert |
| AliasPlaces.TargetsStay | srcs/aliases/alias_expand.c:149-184 | for every table, token list, start state and place: the target of a redirection stays right after its operator, even when it names an alias |
| AliasPlaces.StaysExactly | srcs/aliases/alias_expand.c:149-184 | for every input and place: the token is in the output, at its own place, if and only if the scan does not expand it there |
| AliasPlaces.ArgumentsStay | srcs/aliases/alias_expand.c:149-184 | when no alias body is empty, holds redirections only, or ends in a redirection or an operator that starts a command, every word of any input that is not a command name as written stays at its place, whatever it names |
| AliasPlaces.ArgumentExpanded | srcs/aliases/alias_expand.c:149-184 | witness: with an empty alias for `e` the argument of `e l` is expanded |
| AliasCommands.NamesReadExactly | srcs/aliases/alias_expand.c:149-184 | for every tree in normal form: the words its tokens hold in command position are each command's first assignment, else its name, and the braces of blocks; a command's name is in command position if and only if no assignment precedes it and it is not first in a block |
| AliasCommands.NothingExpands | srcs/aliases/alias_expand.c:149-184 | a token list none of whose words in command position has an alias comes out unchanged, from every state |
| AliasCommands.NamesMissed | srcs/aliases/alias_expand.c:149-184 | witness: with an alias for `ls`, neither `A=1 ls` nor `{ ls; }` is expanded |
| AliasBodies.BodyInserted | srcs/aliases/alias_expand.c:100-126 | in every state: a plain word with an alias at a command position, not in its own chain and within the limits, is replaced by all tokens of the alias's text but EOF, when none of these is expanded in turn, and the rest is expanded from where they lead |
| AliasBodies.NameReplaced | srcs/aliases/alias_expand.c:186-215 | a whole line: the alias's text stands for the name and the rest stays, when no alias is left in command position |
| AliasBodies.NamesAfterOperators | srcs/aliases/alias_expand.c:149-184 | after each operator that starts a command the next name is expanded again, whatever was expanded before it |
| AliasBodies.StripsEofOnly | srcs/aliases/alias_expand.c:71-92 | of a list that ends with its only EOF everything else is kept |
| AliasSpec.AliasedEofLast | srcs/aliases/alias_expand.c:71-92 | the expanded list ends with its only EOF token if the input does |
| AliasSpec.TokenizedEofLast | srcs/lexer/lexer.c:16-46 | the tokenizer's list ends with its only EOF token, which is what parser and alias pass ask of their input |
| Aliases.AliasTable.Set | srcs/aliases/aliases.c:76-103 | the table becomes the old one with this entry; one entry per name is kept |
| Aliases.AliasTable.Get | srcs/aliases/aliases.c:43-51 | the value of the name, none if it has no alias |
| Aliases.AliasTable.Unset | srcs/aliases/aliases.c:105-132 | the table without the name; status 1 exactly when it was not there |
| Aliases.AliasScan.Splice | srcs/aliases/alias_expand.c:100-126 | the current word is replaced in place by the alias's tokens without their EOF |
| Aliases.AliasScan.Step | srcs/aliases/alias_expand.c:149-184 | expands exactly when the word may be expanded; otherwise moves on with the flags of the specification |
| Aliases.AliasExpandTokens | srcs/aliases/alias_expand.c:186-215 | the loop terminates, measured by remaining budget and then tokens left, and returns the specified expansion |
| ParserRoundTrip.ParseComplete | srcs/parser/parser.c:21-59 | parsing the printed tokens of any normal-form tree, EOF added, gives exactly that tree |
| ParserSound.ParseSound | srcs/parser/parser.c:21-59 | every successful parse yields a normal-form tree: pipelines and and-or lists nested to the left, sequences to the right, background around list elements only; the strict form when the input has no line break |
| ParserSound.RoundTripExactly | srcs/parser/parser.c:21-59 | a tree of printable tokens survives printing and parsing if and only if it is in normal form |
| ParserSound.ParseNormalises | srcs/parser/parser.c:21-59 | printing a parsed tree and parsing again gives the same tree, on input without line breaks |
| ParserSound.FillWithinCount | srcs/parser/parser_command.c:77-210 | the filling pass never writes past the slots the counting pass found, and a pass without error fills exactly these |
| CommandStarts.LineBreakHarmlessExactly | srcs/parser/parser_command.c:20-32 | a line break before a command, as and-or and pipe operators allow, changes nothing when the command starts with neither `(`, `{` nor an assignment, and for a command read without error only then |
| ParserSound.LineBreakMatters | srcs/parser/parser_command.c:242-290 | witness: `a && A=1` assigns, the same words with a line break after `&&` run a command named `A=1` |
| LineBreaks.BreakEndsExactly | srcs/parser/parser_command.c:268-290 | a line break after a list element parses as `;` does, whatever follows but another separator, if and only if the last command of the element is not assignments only |
| LineBreaks.BreakSwallowed | srcs/parser/parser_command.c:268-290 | after an element that ends in assignments only a line break is not there: the list parses as if it were one line, unless `(`, `$((` or an assignment follows |
| LineBreaks.AssignmentContinues | srcs/parser/parser_command.c:268-290 | witness: `A=1` and `b` on two lines are the one command `A=1 b` |
| CommandStarts.AssignmentsKeptExactly | srcs/parser/parser_command.c:268-290 | of a simple command read without error, the leading assignments are kept if and only if no `(` follows them |
| CommandStarts.AssignmentLost | srcs/parser/parser_command.c:268-290 | for every assignment word and every input that starts with `(`: the two parse as the input without the assignment, error or not |
| CommandStarts.AssignmentLostHere | srcs/parser/parser_command.c:268-290 | witness: `A=1 (b)` is the subshell alone |
| Assignments.AssignmentExactly | srcs/parser/parser_command.c:221-235 | a word is an assignment if and only if it is an identifier, `=` and any text |
| Assignments.AssignmentsParse | srcs/parser/parser_command.c:242-290 | for any words: the leading ones of that form are the command's assignments, the first of another form, unless a brace, its name |
| Assignments.OneAssignment | srcs/parser/parser_command.c:242-290 | for every identifier n and text v the one word `n=v` is a command of that assignment alone |
| ArithWords.ArgumentBuilt | srcs/parser/parser_command.c:125-157 | the argument built for an arithmetic expansion is the text of its tokens, a space before each that does not follow `(`, between `$((` and `))` |
| Parser.Parser.Next | srcs/parser/parser_utils.c:47-56 | takes one token; nothing once the list is used up |
| Parser.Parser.Accept | srcs/parser/parser_utils.c:58-71 | takes the token only if it has the kind asked for |
| Parser.Parser.CollectArith | srcs/parser/parser_command.c:125-157 | the text of an arithmetic expansion rebuilt from tokens, an error at EOF |
| Parser.Parser.ParseAssignments | srcs/parser/parser_command.c:242-266 | the leading assignment words and where they stop |
| Parser.Parser.CountSlots | srcs/parser/parser_command.c:77-118 | the number of arguments, with the cursor where it was |
| Parser.Parser.FillCommand | srcs/parser/parser_command.c:165-210 | arguments and redirections in source order, into the counted array, without writing out of bounds |
| Parser.Parser.ParseSimple | srcs/parser/parser_command.c:268-290 | tree, tokens left and error flag of a simple command, assignments dropped before `(` as the code does |
| Parser.Parser.ParseGroup | srcs/parser/parser_group.c:49-90 | redirections after a group, an error when one has no target |
| Parser.Parser.ParseSubshell | srcs/parser/parser_group.c:92-113 | tree, tokens left and error flag of `( list )` |
| Parser.Parser.ParseBlock | srcs/parser/parser_group.c:115-139 | tree, tokens left and error flag of `{ list }` |
| Parser.Parser.ParseCommand | srcs/parser/parser_command.c:20-32 | the three kinds of command by their first token |
| Parser.Parser.ParsePipeline | srcs/parser/parser_pipeline.c:9-30 | the loop computes the left-nested pipeline of the specification, the error flag kept from before |
| Parser.Parser.ParseAndOr | srcs/parser/parser_and_or.c:29-53 | the loop computes the left-nested and-or list of the specification |
| Parser.Parser.DetectSeparator | srcs/parser/parser_list.c:19-41 | which separator ends a list element and what is left after it |
| Parser.Parser.ParseList | srcs/parser/parser_list.c:43-68 | terminates on every token list and computes the list of the specification |
| Parser.ParserParse | srcs/parser/parser.c:21-59 | the tree, or none exactly where the specification rejects; status 2 on error, the old status otherwise |
| Heredocs.ParseKeepsHeredocs | srcs/parser/parser_command.c:165-210 | a successful parse keeps exactly the here-documents of its tokens, in source order |
| Syntax.DelimiterRead | srcs/parser/parser_heredoc.c:223-246 | the delimiter is the word as it is, or what stands between a leading quote and its last occurrence, and then it counts as quoted |
| Heredocs.VisitsAreWalk | srcs/parser/parser_heredoc.c:254-277 | the walk visits every here-document of the source once, at the positions given |
| Heredocs.InOrderExactly | srcs/parser/parser_heredoc.c:254-277 | the walk is in source order if and only if no group that has a here-document contains another one |
| HeredocQueue.BodiesMeetOperators | srcs/parser/parser_heredoc.c:57-75 | for every successful parse, the k-th body queued goes to the k-th here-document visited, which is that of the k-th `<<` for all k if and only if no group crosses another here-document |
| HeredocQueue.CrossingSwaps | srcs/parser/parser_heredoc.c:254-277 | witness: in `{ <<A c; } <<B` the first body goes to `<<B` |
| HeredocFlow.FoundExactly | srcs/input.c:177-215 | for every one-line command of words in any quoting and operators: the here-documents the reader finds are those of the tokens, delimiters included, if and only if none comes after a word with an unquoted `#` |
| HeredocFlow.HeredocsMeet | srcs/input.c:279-298 | for every such command with balanced parentheses and every further input: the reader returns its text, the tokenizer its tokens, the bodies read are those of its operators up to the first such word, and when that is all of them the walk hands the k-th body to the k-th operator unless a group with a here-document contains another |
| HeredocFlow.ScanPrint | srcs/input.c:177-215 | the reader's scan of such a command, whatever quotes and `#` it has, goes token by token to the context given by its tokens |
| HeredocFlow.HashHidesHeredoc | srcs/input.c:200-203 | witness: `#` inside a word hides a here-document from the reader but not from the tokenizer |
| HeredocQueue.Collector.CollectFromList | srcs/parser/parser_heredoc.c:181-197 | each here-document of a list takes the next queued body, an empty one when none is left |
| HeredocQueue.Collector.AstWalk | srcs/parser/parser_heredoc.c:254-277 | the whole tree takes bodies in walk order and the queue loses exactly these |
| FieldSplitSpec.SplitExactly | srcs/expander/field_split.c:106-150 | a list of fields meets section 2.6.5 of POSIX XCU on the mask (ordered, free of splittable IFS bytes, gaps of IFS white space with at most one other IFS byte) if and only if it is the computed one; so the decomposition exists and is unique |
| FieldSplitSpec.SplittableExactly | srcs/expander/field_split.c:41-60 | a byte can split a field exactly when its mask says so and IFS lists it; of these space, tab and newline are white space, and an unset IFS lists these three |
| FieldSplitSpec.NothingElseDropped | srcs/expander/field_split.c:123-150 | a byte from quotes, or one IFS does not list, is in some field |
| FieldSplitSpec.FieldsOrdered | srcs/expander/field_split.c:123-150 | fields are in order and disjoint |
| FieldSplitSpec.WholeExactly | srcs/expander/field_split.c:211-233 | the text comes out as one unchanged field if and only if it has no splittable IFS byte |
| FieldSplitSpec.WholeField | srcs/expander/field_split.c:211-233 | unsplittable text is one field for every IFS, unset and empty included |
| FieldSplitSpec.EmptyFieldsExactly | srcs/expander/field_split.c:211-233 | an empty buffer yields no field if and only if IFS is not empty; with an empty IFS it yields one empty field |
| FieldSplit.CollectFields | srcs/expander/field_split.c:123-150 | the loops compute the specified fields |
| FieldSplit.ConsumeDelimiter | srcs/expander/field_split.c:106-115 | the cursor after white space, at most one other IFS byte, and white space |
| FieldSplit.SplitBuffer | srcs/expander/field_split.c:211-233 | the texts of the fields, with the default, empty and given IFS cases |
| Buffer.XBuf.Putc | srcs/expander/expand_utils.c:81-93 | one byte and its mask are added; everything before is kept through the growth of both arrays |
| Buffer.XBuf.Puts | srcs/expander/expand_utils.c:95-111 | all bytes of a string are added with one mask |
| Buffer.XBuf.Grow | srcs/expander/expand_utils.c:18-46 | room for the bytes asked for, contents unchanged |
| Expander.Expander.PushVariable | srcs/expander/expand_parameter.c:39-47 | the value's bytes, splittable exactly outside double quotes |
| Expander.Expander.PushSpecial | srcs/expander/expand_parameter.c:55-81 | `$?`, `$$` and `$0`, and false for any other byte |
| Expander.Expander.ExpandBraced | srcs/expander/expand_parameter.c:92-122 | output and cursor of `${name}`, the unterminated case included |
| Expander.Expander.ExpandNamed | srcs/expander/expand_parameter.c:130-149 | output and cursor of `$name`, the longest name |
| Expander.Expander.ExpandDollar | srcs/expander/expand_parameter.c:151-179 | output, cursor, state and success of every expansion `$` can start |
| Expander.Expander.ExpandTilde | srcs/expander/expand_tilde.c:46-103 | output and cursor of `~` and `~user`, never splittable |
| Expander.Expander.FindSubstitutionEnd | srcs/expander/expand_cmdsub.c:32-64 | the `)` that closes the substitution, with quotes and nesting |
| Expander.Expander.ExpandCmdsub | srcs/expander/expand_cmdsub.c:190-222 | the output of the command with its trailing newlines removed |
| Expander.Expander.StripTrailingNewlines | srcs/expander/expand_cmdsub.c:67-75 | the loop leaves the output without its final newlines |
| Expander.Expander.ExpandArithmetic | srcs/expander/expand_arithmetic.c:125-173 | expands the inner text, evaluates it and writes the value |
| Expander.Expander.DispatchByte | srcs/expander/expand_word.c:107-123 | one byte outside quotes: output with mask, cursor and success |
| Expander.Expander.DispatchInDq | srcs/expander/expand_word.c:128-142 | one byte inside double quotes: output with mask 0, cursor and success |
| Expander.Expander.ExpandWordInto | srcs/expander/expand_word.c:144-183 | the buffer holds the bytes and mask of the whole word, for every word and both nested expansions |
| Expander.Expander.WordHasQuote | srcs/expander/expander.c:46-60 | whether a quote byte occurs outside backslash escapes |
| Expander.Expander.ExpandWordToFields | srcs/expander/expander.c:79-101 | the word's fields, one empty field for an empty quoted word |
| Expander.Expander.ExpandArgv | srcs/expander/expander.c:166-193 | all words' fields in order, none of them on failure |
| Quoting.PrintOneAlias | srcs/builtins/builtin_alias.c:18-32 | prints `name=` and the value in single quotes, each quote byte written as `'\\''` |
| Quoting.QuotingSurvives | srcs/builtins/builtin_alias.c:18-32 | every non-empty list of strings, quoted by the alias printer, joined by spaces and put through tokenizer, alias pass, parser and expansion comes back as exactly that list, empty strings included, for every alias table, IFS and environment |
| QuotedInput.QuotedLinesSurvive | srcs/input.c:398-433 | the same from the input on: quoted strings spread over physical lines by their newlines are read as one logical line, exactly these lines are used, and the strings come back |
| Quoting.QuotedVariable | srcs/expander/expand_parameter.c:130-149 | `"$X"` is one field, the value of X, for every value and IFS |
| Quoting.UnquotedVariable | srcs/expander/expand_parameter.c:130-149 | `$X` is the field splitting of X's value with every byte splittable |
| Quoting.EmptyVanishesExactly | srcs/expander/expander.c:79-101 | an unquoted `$X` without a value yields no argument if and only if IFS is not empty |
| Quoting.LiteralWholeExactly | srcs/expander/expand_word.c:107-123 | an unquoted literal word stays one field if and only if IFS lists none of its bytes: literal text is split too, which the standard does not ask for |
| Quoting.BraceAgainExactly | srcs/expander/expand_parameter.c:92-122 | for `${` and any text, in double quotes or not: the brace is left to be read again if and only if no `}` follows |
| Quoting.UnterminatedBrace | srcs/expander/expand_parameter.c:92-122 | then the brace is written twice, and whatever follows is expanded as if it stood alone |
| WordMeaning.BracedValue | srcs/expander/expand_parameter.c:92-122 | `${name}` and any text after it: exactly the variable's value is written, splittable outside double quotes only, nothing when it has none, and the text is left |
| WordMeaning.NamedValue | srcs/expander/expand_parameter.c:130-149 | the same for `$name` before a byte that is no name character |
| WordMeaning.NamedSpecial | srcs/expander/expand_parameter.c:55-81 | `$?`, `$$` and `$0` write the last status, the pid and `42sh` |
| WordMeaning.OutputWritten | srcs/expander/expand_cmdsub.c:190-222 | `$(script)` for every script with closed quotes and paired parentheses: run once, its output written without final newlines and with the mask of where it stands, the rest left |
| WordMeaning.NewlinesGo | srcs/expander/expand_cmdsub.c:67-75 | of a command's output the newlines at its end go, however many, and nothing else |
| WordMeaning.ResultWritten | srcs/expander/expand_arithmetic.c:125-173 | `$((text))`, with `((` and `))` in pairs in the text: the text is expanded as a word and its value written in decimal; failure when there is none |
| WordMeaning.ArithEnds | srcs/expander/expand_arithmetic.c:125-150 | the `))` found is the one after the text, whatever pairs `((` and `))` it holds inside |
| WordMeaning.SubstitutionEnds | srcs/expander/expand_cmdsub.c:32-64 | the `)` found is the one after the script, whatever escapes, quotes and nested parentheses it holds |
| WordExpansion.WordMeans | srcs/expander/expand_word.c:144-183 | every word of plain bytes, escapes, both quotes and all expansions, nested: its bytes and their mask are those of its parts in order, and it fails exactly when an arithmetic expansion in it has no value |
| WordExpansion.TildeMeans | srcs/expander/expand_tilde.c:46-103 | a leading `~` or `~user` is replaced up to the first slash and cannot be split |
| WordExpansion.FieldsMean | srcs/expander/expander.c:79-101 | the fields of such a word are the field splitting of its meaning, one empty field when it has quotes and comes to nothing |
| WordExpansion.BracesMean | srcs/expander/expand_parameter.c:92-122 | `"${X}"` is one field, the value of X, for every value and IFS; `${X}` is the splitting of the value |
| WordExpansion.CommandMeans | srcs/expander/expander.c:166-193 | from text to arguments: such words with any blanks between, the first no assignment, brace or alias, are one command whose arguments are the fields of the words' meanings |
| ArithSpec.LltoaExactly | Libft/srcs/ft_lltoa.c:3-6 | a text is the printed form of n if and only if it is n in decimal without leading zeros, after `-` when n is negative |
| ArithWords.ValueWritten | srcs/expander/expand_arithmetic.c:125-173 | a text without pairs of parentheses between `$((` and `))` comes to its value in decimal, one field in double quotes, split outside |
| ArithWords.ExpressionExactly | srcs/expander/expand_arithmetic.c:125-173 | an expression with a value and no two equal parentheses in a row expands to it if and only if it does not end with a parenthesis, which would be taken for the end |
| ArithWords.PrintedExactly | srcs/expander/expand_arithmetic.c:125-173 | the same for every expression tree printed with fewest parentheses |
| ArithWords.SumRead | srcs/parser/parser_command.c:125-157 | from text to value: `name $(( words ))` with any blanks gives the command an argument that comes to the value of the words in decimal |
| ExpansionFails.DollarFailsExactly | srcs/expander/expand_arithmetic.c:125-173 | what `$` starts fails if and only if it is unterminated, or an arithmetic expansion whose inner text does not expand or does not evaluate |
| ExpansionFails.FailsAtDollar | srcs/expander/expand_word.c:144-183 | a word fails to expand only at some `$` whose expansion fails |
| ExpansionFails.NestedWitness | srcs/expander/expand_arithmetic.c:154-162 | witness: the inner text of `$(( $( ))` does not expand, so the evaluator is handed a null pointer |
| ArithSpec.EvalCorrect | srcs/expander/expand_arithmetic.c:17-123 | the evaluator succeeds with v if and only if the text is a sentence of the grammar whose tree has value v, division and remainder truncating toward zero |
| ArithSpec.TruncDivRounds | srcs/expander/expand_arithmetic.c:82-84 | for all dividends and divisors but 0 the quotient leaves a remainder smaller than the divisor and of the sign of the dividend |
| ArithSpec.RoundsOnce | srcs/expander/expand_arithmetic.c:82-84 | no other quotient does; the meaning of `/` and `%` in the grammar is this quotient |
| ArithSpec.EvalComplete | srcs/expander/expand_arithmetic.c:17-123 | on a sentence it returns the value of the tree and fails exactly when a divisor is zero |
| ArithSpec.ValueUnique | srcs/expander/expand_arithmetic.c:17-123 | two readings of one text have the same value |
| ArithSpec.EvalShow | srcs/expander/expand_arithmetic.c:17-123 | every expression tree printed with only the parentheses precedence and left associativity need evaluates to its value, or fails exactly when a divisor is zero |
| ArithSpec.EvalLltoa | Libft/srcs/ft_lltoa.c:3-6 | the printed form of any integer evaluates to that integer |
| Arith.Evaluator.ParseFactor | srcs/expander/expand_arithmetic.c:17-57 | value, cursor and error of sign, digits or group |
| Arith.Evaluator.ParseTerm | srcs/expander/expand_arithmetic.c:59-88 | the loop computes the specified left-to-right product, stopping at a zero divisor |
| Arith.Evaluator.ParseExpr | srcs/expander/expand_arithmetic.c:90-107 | the loop computes the specified left-to-right sum |
| Arith.ArithEval | srcs/expander/expand_arithmetic.c:109-123 | the specified result for every text; an error for anything left over |
| Arith.WriteDigits | Libft/srcs/ft_itoa_base.c:20-30 | writes the digits of either sign at the cursor, nothing else changes |
| Arith.ItoaBase | Libft/srcs/ft_itoa_base.c:32-45 | the numeral in any base from 2 to 16 within the 70-byte buffer for every 64-bit value; in base 10 the signed decimal form |
| HashTable.StrHash | Libft/srcs/hash.c:20-31 | the 64-bit wrapping hash of the specification |
| HashTable.HashMeans | Libft/srcs/hash.c:20-31 | the hash of nothing is 5381, and a further byte multiplies by 33 and adds, in 64 bits |
| HashTable.HashNew | Libft/srcs/hash.c:67-85 | null exactly for zero buckets, else an empty map |
| HashTable.Table.LookupNode | Libft/srcs/hash.c:38-65 | the node of the key, if it is in the map, and its predecessor in the chain its hash selects |
| HashTable.Table.Get | Libft/srcs/hash.c:87-96 | the map's value for the key |
| HashTable.Table.Set | Libft/srcs/hash_set.c:37-70 | the map with the key set, the old value reported; each key in one place of its bucket and `size` the number of entries afterwards |
| HashTable.Table.Delete | Libft/srcs/hash_set.c:99-120 | the map without the key, the old value reported, chains relinked in place |
| HashTable.Table.Iter | Libft/srcs/hash_iter.c:15-38 | calls back once on each entry of the map and on nothing else |
| HashTable.Table.Clear | Libft/srcs/hash_iter.c:45-73 | the empty map; every value handed to the callback once |
| HashTable.RepresentsInsert | Libft/srcs/hash_set.c:37-70 | a new entry at the head of its bucket keeps the buckets a faithful image of the map |
| HashTable.RepresentsRemove | Libft/srcs/hash_set.c:77-93 | so does unlinking one |
| HashTable.FlattenOnce | Libft/srcs/hash_iter.c:15-38 | walking a faithful image bucket by bucket lists each entry once |
| ShellProofs.CachedSearchIsSearch | srcs/executor/command_search.c:51-128 | after any run of variable, search and cache calls from a fresh shell, with fixed executables, a search through the cache answers exactly as a search of the current PATH |
| ShellProofs.CachedSearchWhileChanging | srcs/executor/command_search.c:84-128 | when files come and go between calls: a path returned is executable at the call, nothing is found exactly when an uncached search finds nothing, and the answers differ exactly when a remembered path is used while an earlier directory of PATH has gained the command |
| ShellProofs.RememberedLater | srcs/executor/command_search.c:84-128 | witness: with PATH `a:b`, a command remembered in `b` is still answered from there once `a` has it |
| ShellProofs.SplitJoin | Libft/srcs/ft_strsplit.c:51-69 | splitting distributes over a separator, drops empty pieces and keeps a separator-free piece whole |
| ShellProofs.FirstInFinds | srcs/executor/command_search.c:51-74 | the path found is that of the first directory that has the command, and none is found exactly when no directory has it |
| ShellSteps.FindMeans | srcs/executor/command_search.c:51-128 | in every state: a name with a slash is a path, any other is answered from the cache while the path there can be executed, else from the first directory of PATH that has it, which is then remembered; the whole state after it |
| EnvironProofs.EnvironIsCurrent | srcs/variables/variables.c:273-308 | started from any environment and after any calls, names are unique valid identifiers and the array handed to programs renders exactly the current exported variables |
| EnvironProofs.EnvironRoundTrip | srcs/variables/variables.c:310-334 | a fresh shell started with that array exports the same names with the same values, unset as empty, and nothing else |
| EnvironProofs.InitIsLastEntry | srcs/variables/variables.c:310-334 | from any environment, duplicates and malformed entries included, a variable has the value of the last well-formed entry for it |
| EnvironProofs.SetValues | srcs/variables/variables.c:128-163 | setting changes that variable and no other |
| EnvironProofs.UnsetValues | srcs/variables/variables.c:165-197 | unsetting removes that variable and no other |
| ShellSteps.SetMeans | srcs/variables/variables.c:128-163 | the whole state after setting a variable, and status 1 with nothing changed for an invalid name or a read-only variable |
| ShellSteps.UnsetMeans | srcs/variables/variables.c:165-197 | the same for unset |
| ShellSteps.ExportMeans | srcs/variables/variables.c:199-217 | the same for export, a variable that is not there created without a value |
| ShellSteps.EnvironMeans | srcs/variables/variables.c:273-308 | the array is kept as it is until a change, and built from the variables after one |
| AssignmentScope.EntryUndoneExactly | srcs/executor/exec_command.c:69-118 | around a builtin, the assignments in front of it leave a variable's value as it was if and only if its value just before the last of them is its first; value and flags if and only if, besides, it was not declared without a value |
| AssignmentScope.ListUndoneExactly | srcs/executor/exec_command.c:69-118 | they leave the whole list of variables as it was, order and exported flags included, if and only if this holds of each variable they name |
| AssignmentScope.RepeatedAssignmentLeaks | srcs/executor/exec_command.c:102-118 | witness: `A=1 A=2 builtin` leaves A set to 1 |
| Shell.StrSplit | Libft/srcs/ft_strsplit.c:51-69 | the counting and cutting passes agree and give the specified pieces |
| Shell.FindInPath | srcs/executor/command_search.c:51-74 | the first executable `dir/name` of PATH |
| Shell.Shell.VarSet | srcs/variables/variables.c:128-163 | list, dirty flag, cache and status after the call; the cache is emptied when PATH changes |
| Shell.Shell.VarUnset | srcs/variables/variables.c:165-197 | the same for unset |
| Shell.Shell.VarExport | srcs/variables/variables.c:199-217 | the same for export, which creates an unset variable when there is none |
| Shell.Shell.VarGetEnviron | srcs/variables/variables.c:273-308 | the cached array, rebuilt only when dirty, and the state it leaves |
| Shell.Shell.VarInitFromEnviron | srcs/variables/variables.c:310-334 | the state after reading a whole environment |
| Shell.Shell.CmdHashSet | srcs/executor/command_hash_ops.c:36-66 | the path is remembered and the use count of a known name kept, in the chained hash table |
| Shell.Shell.CmdHashDelete | srcs/executor/command_hash_ops.c:68-82 | the name is forgotten; whether it was known |
| Shell.Shell.CmdHashClear | srcs/executor/command_hash.c:37-42 | everything remembered is forgotten |
| Shell.Shell.LookupCached | srcs/executor/command_search.c:84-95 | a remembered path only if it is still executable, and only then is its use counted |
| Shell.Shell.FindCommand | srcs/executor/command_search.c:102-128 | answer and new state of a command search through the cache |
| RedirectProofs.ScopeRestores | srcs/executor/redirections.c:123-155 | with descriptors 0, 1 and 2 open, any list of redirections of these (files, duplications, closings, here-documents), whether all succeed or one fails, leaves every descriptor as it was in the end, but for the here-document descriptors used; these are all closed when none fails |
| RedirectSteps.SetupOne | srcs/executor/redirections.c:11-19 | a command after one redirection finds the file, body or copy on the descriptor written, else on 0 for `<`, `<<`, `<<-` and `<&` and on 1 for the others, and every other descriptor as it was but for the saved copies |
| RedirectSteps.FileApplied | srcs/executor/redirections.c:21-55 | in every table, standard input open or closed: table and status after `n<f`, `n>f` and `n>>f`, wherever the file happens to open |
| RedirectSteps.HeredocApplied | srcs/executor/redirections.c:92-107 | in every table: the body's descriptor is moved to n and closed; without one, or with it closed, the redirection fails |
| RedirectSteps.DuplicateApplied | srcs/executor/redirections.c:57-82 | in every table: `n>&m` and `n<&m` copy, `-` closes, any other target fails |
| RedirectNesting.NestingRestores | srcs/executor/exec_subshell.c:80-90 | scopes nested and in sequence to any depth, as blocks and builtins nest them, some failing: every descriptor ends as it was, but for here-documents used up |
| RedirectExactly.FilesRestoredExactly | srcs/executor/redirections.c:84-155 | for every list of file redirections of any descriptors, whichever of 0, 1 and 2 are open, some failing: the scope restores the table if and only if each descriptor overwritten was open and is 0, 1 or 2, or holds the copy of a descriptor that was closed |
| RedirectExactly.AllClosedExactly | srcs/executor/redirections.c:21-55 | with 0, 1 and 2 all closed and `/dev/null` at hand, only the empty list restores the table |
| RedirectMixed.ListRestoredExactly | srcs/executor/redirections.c:57-155 | for every list of redirections of any kind and any descriptors, here-documents included, some failing, whichever of 0, 1 and 2 are open: the scope restores the table if and only if, in the table its redirections lead to, each standard descriptor has its copy, or itself when the copy is closed, as it was, one that was closed is closed or holds a copy, and every other descriptor but the copies is as it was |
| RedirectMixed.DuplicateStep | srcs/executor/redirections.c:57-82 | `n>&m` makes n what m is and fails exactly when m is closed, n past the limit or the target no number; `n>&-` closes n |
| RedirectMixed.ClosedCopyHarmless | srcs/executor/redirections.c:147-155 | witness: `3>&-` closes the saved copy of 0 and the scope restores the table all the same |
| RedirectMixed.OverwrittenCopyLoses | srcs/executor/redirections.c:147-155 | witness: `3>&1` overwrites it and the scope does not restore the table |
| RedirectExactly.OneFileExactly | srcs/executor/redirections.c:84-155 | one redirection `n>f`, whichever of 0, 1 and 2 are open: restored if and only if it has no effect or n is undone |
| RedirectExactly.CopyOfCopyHarmless | srcs/executor/redirections.c:127-132 | witness: with standard input alone open, `2>f` overwrites a saved copy and is undone all the same |
| RedirectExactly.FileStep | srcs/executor/redirections.c:84-118 | a file redirection changes descriptor n and no other, changes nothing when the file happens to open on n itself, and fails exactly when the file does not open, no descriptor is free or n is past the limit |
| RedirectProofs.ThirdOverwritesSaved | srcs/executor/redirections.c:127-132 | witness: `3>f` overwrites the saved standard input, which stays connected to the file |
| RedirectProofs.ClosedOutputLosesInput | srcs/executor/redirections.c:127-132 | witness: with standard output closed, `>f` leaves standard input connected to the file |
| Redirect.Descriptors.SetupRedirections | srcs/executor/redirections.c:123-145 | table, here-document descriptors, saved descriptors and status of a list, restored at the first failure |
| InputProofs.ReadConserves | srcs/input.c:398-433 | for every stream of lines: each line used goes to exactly one place, in order (joined by a newline, glued after a backslash, one here-document's body, tab-stripped for `<<-`, or its delimiter), bodies end exactly at their delimiters, and reading stops at the end of input or with nothing open |
| InputRereads.ReadOnceExactly | srcs/input.c:398-433 | for every stream of lines: each body is read for an operator of the text returned, and no operator has two bodies if and only if no glued line, once bodies have been read, makes the scan find one of their operators again |
| InputRereads.FirstReadAgain | srcs/input.c:381-396 | when the first line opens a here-document and ends in no backslash, no operator has two bodies if and only if no line is glued after it, but to a text that ends in a further backslash |
| InputRereads.GlueReads | srcs/input.c:381-396 | a glue whose text ends in no further backslash reads, whatever was read before, one body for each operator the glued text has when scanned afresh |
| InputOperators.OneBodyEachExactly | srcs/input.c:398-433 | when the first line opens a here-document and neither it nor the end of the command is a continuation, each operator of the text read, line by line, gets exactly one body, in order, if and only if no line is glued later |
| InputOperators.OneBodyEach | srcs/input.c:398-433 | for every stream that starts and ends without a continuation: when no line is glued later, each operator of the text read gets exactly one body, in order |
| InputProofs.GlueReadsAgain | srcs/input.c:381-396 | witness: a glued line after a here-document makes the scan find the operator again, and a second body swallows the next command |
| InputSteps.BodyRead | srcs/input.c:223-271 | a here-document's body is the lines up to the first that is its delimiter, or all there are, each with its newline and, for `<<-`, without its leading tabs |
| InputSteps.BackslashGlues | srcs/input.c:381-396 | a final backslash goes with the newline: the next line is glued and the text scanned from its start |
| InputSteps.OpenJoins | srcs/input.c:350-369 | with a quote or parenthesis open the next line is joined by a newline and scanned from where the line left off |
| Input.ReadHdDelim | srcs/input.c:86-123 | the delimiter, quoted or bare, a final backslash left for the scanner |
| Input.LineContext.ScanHeredocOp | srcs/input.c:144-169 | the here-document queued, if a delimiter follows, and the cursor after it |
| Input.LineContext.ScanLineInto | srcs/input.c:177-215 | the context after a line: quotes, parentheses, trailing backslash and here-documents |
| Input.Reader.CollectHdBody | srcs/input.c:223-271 | the body up to its delimiter or the end of input, and the lines left |
| Input.Reader.DrainPendingHeredocs | srcs/input.c:279-298 | one body for each waiting here-document in order, and the lines left |
| Input.Reader.ReadAndJoinOne | srcs/input.c:350-369 | line, context and lines left after joining one more |
| Input.Reader.HandleTrailingBs | srcs/input.c:381-396 | line and context after gluing one more and scanning afresh |
| Input.Reader.ReadLogicalLine | srcs/input.c:398-433 | terminates on every stream; text, bodies queued and lines left are those of the specification |
| JobProofs.WaitExactly | srcs/job_control/job_wait.c:29-52 | 128 plus the signal at the first stop, after the reports up to it; without a stop each report is used once, the exit status is the last stage's, and the job is terminated exactly when the last report is a death by signal, else done |
| JobSteps.WaitReturns | srcs/job_control/job_wait.c:29-52 | for every job and all reports: a wait takes reports as long as the job runs and returns the last process's exit code, 128 plus the signal of its death, or 128 plus bits 8 to 15 of the report that left the job stopped |
| JobSteps.ReportTaken | srcs/job_control/job_notify.c:56-84 | the whole job after a report: the first process with the pid, complete unless it stopped, the job to be announced, a death remembered |
| JobSteps.StatusRecomputed | srcs/job_control/job_notify.c:26-54 | done or terminated exactly when all processes are complete, else suspended exactly when one is stopped |
| JobProofs.ForegroundEnds | srcs/job_control/job_continue.c:26-48 | however often the job stops and is continued, every process ends as reported and the status is the last stage's |
| JobProofs.OrderIrrelevant | srcs/job_control/job_wait.c:29-52 | two orders of the same reports end every process the same and return the same status |
| JobProofs.ReportCompletes | srcs/job_control/job_notify.c:56-84 | for every job and report on a process of it: the process is recorded complete if and only if it was, or the report is no stop; so completion means an ended process if and only if the report is not that it continued |
| JobProofs.CompletionExactly | srcs/job_control/job_notify.c:97-110 | after any reports in any order, a process is recorded complete if and only if it was, or a report said that it ended or that it continued |
| JobProofs.FinishedExactly | srcs/job_control/job_notify.c:26-54 | after any reports a job counts as finished if and only if that holds of each of its processes |
| JobProofs.ContinuedFinishes | srcs/job_control/job_notify.c:56-84 | witness: a job whose one process was stopped and continued counts as finished |
| JobTableProofs.EveryRunIsSound | srcs/job_control/job_notify.c:321-345 | after any run of starting, adding processes, reports, continuing, notifying, listing, removing and cleanup: ids positive and increasing, the current job in the table, and the next notification drops exactly the finished jobs and announces each of them that is not counted as announced, which a finished job is only if `jobs` printed it with that status |
| JobTableProofs.ListingSilences | srcs/builtins/builtin_jobs.c:11-26 | after `jobs` the next notification prints nothing, for every table, and keeps as many jobs as without it |
| Jobs.JobControl.BuiltinJobs | srcs/builtins/builtin_jobs.c:11-26 | prints every job in order and counts each as announced |
| JobTableProofs.NotifyExactly | srcs/job_control/job_notify.c:321-345 | the unfinished jobs stay in order, the finished go, the news are the unannounced jobs not running, and the current job is forgotten exactly if finished |
| JobTableProofs.NumberFinds | srcs/job_control/job_find.c:71-86 | `%N` names job N if and only if there is one |
| JobTableProofs.PreviousFinds | srcs/job_control/job_find.c:30-51 | `%-` names the job with the greatest id below the current one |
| JobSteps.CreateMeans | srcs/job_control/job.c:29-54 | in every table the new job is last and current, running, with the next number above all others |
| JobSteps.ContinueMeans | srcs/job_control/job_continue.c:10-24 | the job continued is current, runs, is to be announced again and has no stopped process; no other changes |
| JobSteps.SpecPrefix | srcs/job_control/job_find.c:71-86 | `%text` names the first job whose command line starts with the text |
| JobSteps.SpecPrevious | srcs/job_control/job_find.c:30-51 | `%-` in every table: the job before the current one |
| Jobs.ShellJob.JobApplyStatus | srcs/job_control/job_notify.c:56-84 | the first process with the pid takes the report; false when there is none |
| Jobs.ShellJob.JobRecomputeStatus | srcs/job_control/job_notify.c:26-54 | the job's status from its processes, a recorded death kept only when all are complete |
| Jobs.ShellJob.JobWait | srcs/job_control/job_wait.c:29-52 | job, status and number of reports used |
| Jobs.ShellJob.JobMarkRunning | srcs/job_control/job_continue.c:10-24 | no process counts as stopped, the job runs and is to be announced again |
| Jobs.ShellJob.JobAddProcess | srcs/job_control/job.c:56-79 | a running process is added at the end |
| Jobs.JobControl.JobCreate | srcs/job_control/job.c:29-54 | a job with the next id at the end, made current |
| Jobs.JobControl.JobRemove | srcs/job_control/job.c:104-129 | that job goes, the others stay in order; nothing for a job not in the table |
| Jobs.JobControl.JobFindById | srcs/job_control/job_find.c:88-100 | the place of the job with this id |
| Jobs.JobControl.JobFindByPid | srcs/job_control/job_find.c:102-120 | the place of the first job with this process |
| Jobs.JobControl.JobFindBySpec | srcs/job_control/job_find.c:71-86 | the job a specification names, in all its forms |
| Jobs.JobControl.ApplyWaitResult | srcs/job_control/job_notify.c:86-95 | the table after a report collected between commands |
| Jobs.JobControl.JobNotify | srcs/job_control/job_notify.c:321-345 | table, current job and lines printed, the list unlinked while it is walked |
| ExecutorSpec.ExecuteMeans | srcs/executor/executor.c:92-133 | from a running shell, a tree runs the same leaves in the same order with the same status as the short-circuit lists of section 2.9.3 of POSIX XCU with immediate exit; each leaf finds the status of what ran before it, the last status is that status and the flag is cleared exactly when a leaf ended the shell |
| ExecutorSpec.EndingLeafIsLast | srcs/executor/executor.c:116-133 | the leaf that ends the shell is the last run and its status is the result |
| ExecutorSpec.EarlierLeavesGoOn | srcs/executor/executor.c:116-133 | no leaf runs after one that ended the shell |
| ExecutorSpec.Renest | srcs/executor/exec_logical.c:13-43 | re-nesting a chain of one of `;`, AND and OR with its operands present changes neither trace, status nor flag, from any state |
| ExecutorSpec.ChainMeans | srcs/executor/exec_logical.c:13-34 | a left-nested mix of AND and OR lists is one walk from left to right that runs or skips each element on the status so far |
| ExecutorSpec.ParsedRunsAsMeant | srcs/executor/executor.c:116-133 | whatever the parser accepts runs as it means |
| ExecutorSpec.MissingOperandLosesStatus | srcs/executor/exec_logical.c:39-43 | witness: with a null right operand the status of an exit is lost; the parser builds no such tree |
| Executor.Shell.Execute | srcs/executor/executor.c:116-133 | state, last status and status of any tree |
| Cd.ResolveIsNormal | srcs/builtins/builtin_cd.c:71-106 | every path with components under 256 bytes resolves to one without empty, `.` or `..` component or final slash; an error exactly when a component is longer |
| Cd.FixedExactly | srcs/builtins/builtin_cd.c:71-106 | a path resolves to itself if and only if it is in that form |
| Cd.ResolveTwice | srcs/builtins/builtin_cd.c:71-106 | resolving is idempotent |
| Cd.ResolveStepwise | srcs/builtins/builtin_cd.c:17-37 | resolving q under the resolved p is resolving p/q, errors included |
| Cd.ResolveStep | srcs/builtins/builtin_cd.c:71-106 | one more component: an empty one and `.` change nothing, one of 256 bytes or more is an error, any other but `..` is appended |
| Cd.ResolveParent | srcs/builtins/builtin_cd.c:71-106 | `..` after any path goes to the parent of where it leads |
| Cd.ParentOfRoot | srcs/builtins/builtin_cd.c:71-106 | `..` at the root stays at the root |
| Cd.ResolvePath | srcs/builtins/builtin_cd.c:71-106 | the token loop and the joining loop compute the specified path |

## Left out

- ChainMeans: pipelines are leaves, since their stages run in child processes.
- EvalLltoa: integers are unbounded, so the overflow of `LLONG_MIN` is not modelled.
- ArithEval: signed overflow is not modelled.
- ExpandArithmetic: the search for the closing `))` is modelled as it is, early cut included; ExpressionExactly claims nothing of expressions with `((` or `))` inside. A failing nested expansion counts as an error; in the C code the evaluator reads through a null pointer (DollarFailsExactly says when).
- CollectArith: the 4096-byte limit of the text buffer is not modelled; the text is kept in full.
- ExpandCmdsub: the child process is a parameter that maps the command to its output and status.
- ExpandTilde: user lookup is a parameter.
- ReadLogicalLine: lines come from a finite stream; prompts, `readline` and NUL bytes inside a line are not modelled.
- AstWalk: with no body queued a here-document gets an empty one, as under `-c`; reading its body from the terminal, and interruption by a signal, are not modelled.
- ListUndoneExactly: the builtin in between changes no variable; the limit of 64 saved assignments is not modelled.
- NamesReadExactly: of the tokens of a printed tree; line breaks, and redirections between the words of a command, are not in them.
- BreakEndsExactly: of elements in normal form, as ParseSound gives for input without line breaks.
- OneBodyEachExactly: the iff is for commands whose first line opens a here-document.
- ScopeRestores: descriptors 0, 1 and 2 are open at the start (FilesRestoredExactly has them closed) and three more are free; the command inside the scope changes no descriptor (NestingRestores has scopes inside).
- FilesRestoredExactly: of redirections to files, each opening a file that no descriptor names yet; three descriptors are free.
- NestingRestores: a scope that contains another one closes none of 0, 1 and 2; with one closed, ClosedOutputLosesInput shows what an inner scope can do.
- HeredocsMeet: words with `$(`, delimiters quoted in part, arithmetic, several lines and aliases are outside it; there the reader's scan and the tokenizer need not agree.
- Duplicate: descriptor numbers are unbounded where the C code reads an `int`.
- JobWait: an error of `waitpid` other than the end of children is not modelled.
- CachedSearchIsSearch: the `hash -p` preset and PATH entries relative to a changed working directory are not modelled.
- Memory exhaustion, freeing and the text of diagnostics.
- fork, execve, pipes, signals, terminal control, history and line editing.
- `cd` beyond path resolution: the checks on the directory and the update of PWD.
- Listings, JSON dumps, `viz/`, `wasm/`, `echo`, `test`, `type` and the other builtins.
- The rest of Libft.
