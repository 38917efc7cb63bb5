# The MariaDB command-line clients, modelled and proved in Dafny

This project models the algorithms and state machines inside five client programs and proves what they are for.
Server calls, files and output become an oracle, a map or a trace; everything else does what the C and C++ code does,
branch by branch.

| part | files | main results |
|---|---|---|
| `mysql`: line scanner | `CText`, `LineSpec`, `LineScanner`, `LineOverrun`, `LineLaws`, `ShortCommands`, `LineLayout`, `LayoutExists`, `StatementLines`, `LineCases` | editing the line in place equals a pure scanner, and exactly which lines are written past their end; a string and a block comment are never open together over any run of lines; whatever way statements, literals, comments and commands are laid out over lines, each delimiter causes one call with exactly the text collected since the last one, comments taken out, in the session that the calls before it left |
| `mysql`: commands | `Arguments`, `ArgumentLaws`, `Commands` | `get_arg` unquotes in place exactly the argument that its check mode announces, and which one that is, told from the characters of the line; exactly which lines `find_command` takes for which command |
| `mysqldump`: writers | `InsertPacker`, `Quoting`, `DumpedUse`, `FieldEscape`, `Cdata` | the packing of rows into INSERT statements is the smallest possible; four printers whose output is read back, among them the path of a database name from `mysqldump` to the `use` command of `mysql` |
| `mysqlimport`: worker pool | `ImportPool`, `PoolRuns` | safety in every state of every run, no deadlock, every fair execution ends; all threads can be at work at once, and a clean end can be reached |
| `mysqlbinlog` | `RowChanges`, `Flashback`, `FlashbackLaws`, `FilteredLog`, `EventWindow`, `RowFilter`, `LoadFiles` | replaying the flashback output undoes the log, and with a filter exactly the visible tables, under an exact condition; which events are handled, hidden or printed and when their objects are deleted; what is in the file of a LOAD DATA statement |
| completion table | `CompletionSpec`, `CompletionHash`, `CompletionGenerator` | a chained hash table of all prefixes agrees with the plain list of words, for every hash function and table size |

`Optional` holds the option type and `Sequences` a fact about concatenation. Code that updates variables is modelled as a
class or a method with loops and is proved against a function of its inputs or of its old state; what the program
promises is then proved of that function, in terms of the characters, events or rows and not of the function itself.

How the outside is represented:

* The server and the client commands are a function from the history of calls to an answer, which may ask to quit and
  may change the buffer, the delimiter and the server flags (`LineSpec.Server`).
* Characters are bytes. `my_isspace` is a set of characters and `my_ismbchar` an arbitrary length per rest of the line.
* The hash function is arbitrary, and so is the outcome of creating a thread, of connecting and of importing a file.
* A timed wait may end at any moment, with or without a signal.
* A table is a multiset of rows, and replaying a change fails if the row it removes is not there. Row events of a table
  that is not mapped are passed over (sql/log_event_server.cc:5988-6153), and a fragment stops the replay.

## What the proofs found

* `add_line` in binary mode can write its newline one byte behind the terminator of the line (client/mysql.cc:2508 and
  2724). It does so if and only if the line is not cut short, no character of it is dropped and no text flushed, and its
  last character is a lone backslash that escapes inside a string: the terminator is then kept as the escaped character.
  `LineOverrun.Overruns` tells this from the line and the state before the call, `LineOverrun.OverrunsExactly` proves
  that it is exact, and `LineScanner.Client.AddLine` asks for the byte under this condition only.
  `LineOverrun.LoneBackslashOverruns` gives an input that overruns and `LineOverrun.FlushedLineStaysInside` one that
  also ends in such a backslash but does not.
* `completion_hash_exists` compares whole stored words (client/completion_hash.cc:149), so it is not membership: it
  holds exactly if the first word added with that prefix is the word itself (`CompletionHash.HashTable.Exists`). After
  `ab` and `a` it does not find `a` (`CompletionSpec.AddedWordNotFound`).
* Flashback together with --database or --table: the comment in `print_row_event` says that rows before a filtered last
  event still have to be written. In flashback mode they are not: if the last row event of a statement is hidden, its
  visible row events are lost, and its visible table maps are written as a fragment without the BINLOG statement around
  them. If the last row event is visible, the hidden ones are printed too, only retyped. The filter keeps its promise if
  and only if a statement is not hidden at all, or is hidden as a whole and maps no visible table
  (`FlashbackLaws.FilterKeepsPromise`, with two inputs that break it). The hidden events that are printed do no harm on
  replay, since their tables are not mapped (`FlashbackLaws.PrintedWholeUndoesVisible`). For a whole log, the replay takes
  the visible tables back and leaves the hidden ones if and only if no statement ends in a hidden row event and maps a
  visible table; otherwise it stops at a fragment (`FilteredLog.FilteredFlashback`).
* Flashback ends its output with a COMMIT (client/mysqlbinlog.cc:3740). It closes a transaction exactly if the log began
  inside one; after a log of whole transactions it is out of place (`FlashbackLaws.TransactionsStayWhole`).
* A quoted name is the argument that `get_arg` finds again if and only if it is not empty and, in double quotes, has no
  backslash (`DumpedUse.ArgumentIsName`). `mysqldump` writes double quotes in ANSI mode, and the name `a\b` is then read
  as `ab` (`DumpedUse.SlashInNameLost`).
* Quoting and scanning look at bytes in a different way: in a character set where a multi-byte character can end in a
  backtick, the line for such a name is left open (`DumpedUse.TickInCharacter`). If none of the bytes with a meaning
  between the quotes is part of a multi-byte character, the line is read (`DumpedUse.QuotedUseRead`).
* The scanner owes a blank for a comment that it drops, but multi-byte characters and `\N` do not take it
  (client/mysql.cc:2476-2492 and 2510-2515). What follows a comment is kept apart from what is before it if and only if it
  starts with an ordinary character (`LineCases.CommentSeparates`); otherwise the two are put together
  (`LineCases.CommentLost`) and the blank comes later.
* A block comment inside a comment for the server, `/*! /* */ */`, is not closed by the first end: that one closes the
  outer comment, and the inner one goes on (`ShortCommands.InnerCommentGoesOn`, client/mysql.cc:2668 and 2692).
* A dumped `USE` is not taken for the client's own command if the name holds the delimiter or `\g`: `find_command`
  looks for both in the quoted text as well. The statement then goes to the server as it is (`DumpedUse.QuotedUseRead`).
* The comment of `print_xml_cdata` speaks of a mark that starts with opening brackets; the code splits `]]>`, which is the
  one that section 2.7 of XML 1.0 forbids inside a section.
* `get_arg` on a line that is a backslash alone skips the terminator (client/mysql.cc:4774-4775); `Arguments.Callable`
  excludes it, and `Commands.FindCommand` shows that `find_command` never asks for it.

## Model

| member | source | states |
|---|---|---|
| LineSpec.StepAt | client/mysql.cc:2465-2707 | every turn of the scanner moves forward, and never past the end of the line outside binary mode |
| LineScanner.StringEnd | client/mysql.cc:2586 | the end of the rest of the line, read from the part not yet overwritten |
| LineScanner.StartsWith | client/mysql.cc:2563 | whether the delimiter stands at the read position |
| LineScanner.ParamsEnd | client/mysql.cc:2527-2551 | where scanning resumes after a short command with parameters, inside a server comment or outside, as in the pure scanner |
| LineScanner.ShortTurn | client/mysql.cc:2516-2552 | a short command flushes the kept text, runs, and drops its parameters, as in the pure scanner |
| LineScanner.KeepEscape | client/mysql.cc:2510-2515 | the backslash and the character after it are kept; only in binary mode may that be the terminator |
| LineScanner.BackslashTurn | client/mysql.cc:2493-2562 | a backslash is an escape, `\N`, a command, an unknown command or the end, as in the pure scanner |
| LineScanner.CopySpaces | client/mysql.cc:2568-2572 | exactly the spaces after a delimiter are kept, in place |
| LineScanner.TrailingEnd | client/mysql.cc:2580-2589 | the comment that belongs to the statement before it |
| LineScanner.EndTurn | client/mysql.cc:2563-2605 | a delimiter hands over the buffer plus the kept text and empties it |
| LineScanner.SubmitTurn | client/mysql.cc:2593-2604 | the statement goes to its client command or to the server, and quitting ends the scan |
| LineScanner.CommentTurn | client/mysql.cc:2606-2650 | a comment to the end of the line is dropped, kept or sent by itself |
| LineScanner.EdgeTurn | client/mysql.cc:2651-2686 | both ends of a block comment flush the kept text and switch the comment state |
| LineScanner.PlainTurn | client/mysql.cc:2687-2706 | an ordinary character opens or closes strings and server comments and gets the owed space before it |
| LineScanner.MultiByteTurn | client/mysql.cc:2476-2492 | a multi-byte character is kept or dropped whole |
| LineScanner.KindOf | client/mysql.cc:2467-2668 | the branch taken, decided on the edited line, is the one the untouched text calls for |
| LineScanner.Turn | client/mysql.cc:2465-2707 | one turn on the edited line is one turn of the pure scanner; the write cursor stays behind the read cursor |
| LineScanner.ScanLine | client/mysql.cc:2465-2707 | the whole loop ends, and ends where the pure scanner does on a copy of the line |
| LineScanner.Client.AddLine | client/mysql.cc:2447-2733 | buffer, string and comment state, session and calls after a line are those of the pure scanner; behind the line only the next byte is written, by the newline, and exactly for the lines that overrun |
| LineOverrun.LateIffUnbroken | client/mysql.cc:2465-2707 | the kept text passes the terminator if and only if the rest of the line is unbroken and ends in a lone escaping backslash |
| LineOverrun.OverrunsExactly | client/mysql.cc:2493-2515 | the exact lines whose newline goes behind the terminator, told before the call |
| LineOverrun.LoneBackslashOverruns | client/mysql.cc:2508 | an input that overruns |
| LineOverrun.FlushedLineStaysInside | client/mysql.cc:2563-2578 | an input that ends in a backslash inside a string and does not |
| LineScanner.Client.FlushLine | client/mysql.cc:2708-2731 | what is left goes to the buffer, with a newline unless cut short or a delimiter command |
| LineScanner.Client.ReadAndExecute | client/mysql.cc:2178-2299 | a run of lines leaves the state and the calls of the pure loop |
| LineLaws.StepConsistent | client/mysql.cc:2465-2707 | a turn never leaves a string open inside a block comment or without its opening quote |
| LineLaws.LineStaysConsistent | client/mysql.cc:2447-2733 | nor does a line |
| LineLaws.RunStaysConsistent | client/mysql.cc:2178-2299 | nor any run of lines, whatever the commands and the server do |
| LineLaws.StringVerbatim | client/mysql.cc:2493-2515 | text inside a string is kept byte for byte, without a call, a split or a removed comment |
| LineLaws.LiteralKept | client/mysql.cc:2687-2706 | a whole literal is kept byte for byte and the scanner is outside strings again |
| LineLaws.TextKept | client/mysql.cc:2465-2707 | the text of a statement, literals included, is kept byte for byte |
| LineLaws.StatementEnds | client/mysql.cc:2563-2605 | at a delimiter outside strings exactly the collected text, if any, with what `--comments` adds, is handed over, and scanning goes on in the session that the call leaves, or ends |
| LineLaws.TrailerIs | client/mysql.cc:2568-2589 | what stands behind a delimiter and belongs to the statement: with `--comments` the white space and a comment up to the end of the text, otherwise nothing |
| ShortCommands.ShortAlone | client/mysql.cc:2516-2526 | a short command without parameters gets what was collected and the rest of the line, and scanning goes on behind its letter |
| ShortCommands.ShortParams | client/mysql.cc:2540-2550 | the parameters of a short command are dropped up to and including the first delimiter of the session that it leaves |
| ShortCommands.ShortParamsToEnd | client/mysql.cc:2540-2550 | without such a delimiter the command is the last thing in the text |
| ShortCommands.ShortInServerComment | client/mysql.cc:2527-2539 | inside a comment for the server the parameters go up to its end, wherever the delimiter is |
| ShortCommands.UnknownRun | client/mysql.cc:2553-2561 | a backslash and an unknown letter are kept, and the user is told |
| ShortCommands.ServerCommentOpened | client/mysql.cc:2690-2691 | the line knows where a comment for the server starts |
| ShortCommands.ServerCommentClosed | client/mysql.cc:2692-2693 | and where it ends |
| ShortCommands.InnerCommentGoesOn | client/mysql.cc:2668-2693 | a block comment inside one for the server is not closed by the first end |
| ShortCommands.CommandInServerComment | client/mysql.cc:2516-2552 | a short command with parameters behind the start of a comment for the server resumes at the end of that comment |
| LineLayout.StretchScanned | client/mysql.cc:2465-2707 | statement text that starts or ends inside a string is kept byte for byte, and the string that is open afterwards is the one told |
| LineLayout.CommentPassed | client/mysql.cc:2651-2706 | inside a block comment nothing is collected but the comment itself, if comments are kept, and no call is made |
| LineLayout.GapFilled | client/mysql.cc:2687-2706 | the blank owed for a comment comes before an ordinary character that is not white space |
| LineLayout.LineSplit | client/mysql.cc:2447-2733 | a line that is a row of text, comments, delimiters and commands, from any state between lines, leaves exactly what the row says: state, calls, and whether it quits |
| LayoutExists.CommentWalk | client/mysql.cc:2651-2686 | a block comment is closed in the line or goes on to its end |
| LayoutExists.LineLaidOut | client/mysql.cc:2447-2733 | every line is such a row from any state, up to its end or to a block comment or parameters beside a comment for the server, or comments kept side by side |
| StatementLines.CleanCollected | client/mysql.cc:2465-2707 | text in front of a delimiter is collected with its comments taken out, and causes no call |
| StatementLines.FirstStatement | client/mysql.cc:2563-2605 | a delimiter hands over what was collected before the line and the clean text in front of it, an empty statement too, and the rest of the line is read in the session that the call leaves |
| StatementLines.OneCallEach | client/mysql.cc:2465-2707 | every delimiter and every command adds its own call, in order, and nothing else does |
| StatementLines.StatementLine | client/mysql.cc:2447-2733 | a line that is one statement causes one call and leaves its session, or quits with it |
| StatementLines.OpenLine | client/mysql.cc:2708-2731 | a line that leaves a string open is kept whole, and the state remembers the quote |
| StatementLines.LineGathered | client/mysql.cc:2708-2731 | a line without a delimiter adds its clean text to the buffer, with a newline exactly if it is not cut short, not in an open comment and not a delimiter command |
| StatementLines.LinesGathered | client/mysql.cc:2178-2299 | any number of such lines cause no call |
| StatementLines.StatementAcrossLines | client/mysql.cc:2178-2299 | a statement over any number of lines, broken in literals, in comments or between them, becomes one call with exactly the clean text of its lines |
| StatementLines.CommandLineRead | client/mysql.cc:2283-2299 | outside strings and comments, in front of a statement or with named commands, a line that is a client command is run, and the rest is read in the session that it leaves |
| StatementLines.NulStops | client/mysql.cc:2195-2205 | outside binary mode a line with a NUL ends the reading |
| LineCases.StringLinesKept | client/mysql.cc:2283-2299 | any number of lines inside an open string reach the buffer byte for byte and none is a client command |
| LineCases.CommentLinesSkipped | client/mysql.cc:2283-2299 | any number of lines inside a block comment leave nothing and none is run as a command |
| LineCases.CommentLineRead | client/mysql.cc:2708-2731 | with `--comments` such a line is kept with its newline |
| LineCases.NulLineSkipped | client/mysql.cc:2457-2458 | between statements an empty line, or one that starts with a NUL, leaves no trace |
| LineCases.CommentSeparates | client/mysql.cc:2476-2515 | the exact condition under which a dropped comment keeps apart what is around it |
| LineCases.CommentLost | client/mysql.cc:2476-2492 | an input on which it does not |
| Arguments.FindStart | client/mysql.cc:4762-4788 | where the argument starts, its quote, and whether the command was a short one |
| Arguments.IsEscaped | client/mysql.cc:4791-4795 | the escape rule of short commands and the one of SQL |
| Arguments.RemoveAt | client/mysql.cc:4798-4799 | one character is removed in place and the rest moves down |
| Arguments.Unquote | client/mysql.cc:4789-4811 | in place, the text of the argument becomes its unquoted value, ended by a NUL; nothing behind the line changes |
| Arguments.Check | client/mysql.cc:4789-4811 | the walk that writes nothing succeeds exactly if there is a value and its quote is closed |
| Arguments.HasArgument | client/mysql.cc:4756-4812 | check mode succeeds exactly if the line has an argument |
| Arguments.GetArgument | client/mysql.cc:4756-4812 | get mode succeeds exactly then, and the line then holds the argument where the result points |
| ArgumentLaws.QuotedArgument | client/mysql.cc:4782-4811 | for a short or a long command, which string a quoted argument stands for, under the escape rule of each, and that what follows its quote is left alone |
| ArgumentLaws.UnclosedArgument | client/mysql.cc:4811 | without a closing quote there is none |
| ArgumentLaws.BareArgument | client/mysql.cc:4789-4811 | an argument without quotes goes up to the first blank that is not escaped |
| ArgumentLaws.NoArgument | client/mysql.cc:4778-4811 | a command alone has none |
| ArgumentLaws.ShortInBackticks | client/mysql.cc:4791-4793 | an input for the rule of short commands |
| Commands.SearchTable | client/mysql.cc:2403-2435 | the first command whose name the line has, with an argument exactly where the command takes one |
| Commands.FindCommand | client/mysql.cc:2381-2444 | the command a line stands for, in both modes and up to its first NUL, or none; lines with a delimiter or `\g` are left to the scanner |
| Commands.CommandIs | client/mysql.cc:2392-2435 | outside binary mode, exactly which command a line is, told from its characters: no `\g`, no delimiter unless it starts as `delimiter`, and the first command of its name that takes what follows |
| Commands.CommandInBinaryMode | client/mysql.cc:2397-2413 | in binary mode `delimiter` is the only command |
| Commands.DelimiterLineFound | client/mysql.cc:2397-2400 | `delimiter ;;` is a command although it holds the delimiter |
| Quoting.QuoteName | client/mysqldump.c:2105-2122 | a name of plain letters may stay as it is; any other is quoted in a buffer of twice its length plus three |
| Quoting.DollarIsPlain | client/mysqldump.c:2077-2085 | a dollar sign needs no quotes |
| Quoting.WriteQuoted | client/mysqldump.c:2112-2120 | the quoted name, with every quote in it doubled |
| Quoting.ReadBare | client/mysql.cc:4789-4811 | a name without blanks and backslashes is read back without quotes |
| Quoting.ReadDoubled | client/mysqldump.c:2113-2118 | what was doubled is read back as the name |
| Quoting.SlashesLost | client/mysql.cc:4792-4795 | where backslashes escape, a name that has one is never read back as itself |
| Quoting.QuotedIsReadBack | client/mysql.cc:4789-4811 | the exact condition under which the reading loop gives a quoted name back |
| DumpedUse.ArgumentIsName | client/mysql.cc:4756-4812 | the argument of `USE` and a quoted name is the name exactly if it is not empty and, in double quotes, has no backslash |
| DumpedUse.SlashInNameLost | client/mysql.cc:4792-4795 | a name that is misread |
| DumpedUse.BareArgumentIsName | client/mysql.cc:4756-4812 | the same for a name that was left unquoted |
| DumpedUse.QuotedIsText | client/mysql.cc:2465-2707 | a quoted name is one row of literals for the scanner, whatever it holds, for both quotes and any delimiter that does not start with the quote |
| DumpedUse.TickInCharacter | client/mysql.cc:2476-2492 | a name whose line is left open |
| DumpedUse.FindsUse | client/mysql.cc:2381-2444 | when the dumped statement is the client's own command, for any delimiter and any way of writing the name |
| DumpedUse.UseLineRead | client/mysqldump.c:5572 | the dumped line causes one call, whatever the call does to the session |
| DumpedUse.QuotedUseRead | client/mysqldump.c:5572 | with a quoted name the call is `use` under an exact condition on the name, and its argument is the name under another |
| DumpedUse.BareUseRead | client/mysqldump.c:5572 | with an unquoted name the call is `use` with the name, but for binary mode |
| InsertPacker.DumpRows | client/mysqldump.c:4289-4530 | the loop writes the packed groups of rows, each as one terminated statement |
| InsertPacker.PackGroups | client/mysqldump.c:4496-4518 | every row appears exactly once and in order, and every statement satisfies the length rule |
| InsertPacker.MultiRowStatementsFit | client/mysqldump.c:4500-4516 | the text of a statement with two or more rows, terminator included, is more than four bytes shorter than the network buffer |
| InsertPacker.FirstGroupIsLongest | client/mysqldump.c:4501-4506 | a statement is closed only when its text with the next row would break that rule |
| InsertPacker.PackIsMinimal | client/mysqldump.c:4496-4518 | no in-order grouping whose texts satisfy the rule has fewer statements |
| InsertPacker.CountedBytes | client/mysqldump.c:4292-4506 | what the loop counts is the length of the text that it writes and four bytes more |
| InsertPacker.TwoRows | client/mysqldump.c:4496-4518 | the text for two rows: one statement if it is short enough, and two otherwise |
| FieldEscape.DumpFieldEscape | client/mysqldump.c:3994-4022 | the quoted literal for a text |
| FieldEscape.ImportFieldEscape | client/mysqlimport.c:631-652 | the same body, written into a buffer of twice the length |
| FieldEscape.EscapedIsRead | client/mysqldump.c:3994-4022 | for every text, read as SQL, the literal ends at its last quote and means what the user meant |
| Cdata.PrintCdata | client/mysqldump.c:2349-2372 | the sections written for a text |
| Cdata.SplitClose | client/mysqldump.c:2358-2363 | a split close mark is read as one across two sections |
| Cdata.PrintedIsRead | client/mysqldump.c:2349-2372 | read by section 2.7 of XML 1.0, the output is a row of well-formed sections that hold a newline, the text and a newline |
| ImportPool.StepKeepsInv | client/mysqlimport.c:656-797 | every step of the main thread and of the workers keeps the invariant |
| ImportPool.InvIsSafe | client/mysqlimport.c:656-797 | the invariant implies the safety properties |
| ImportPool.RunIsSafe | client/mysqlimport.c:656-797 | in every state of every run the counter is the number of workers that count plus one while a thread is being created, is at most the limit, each file has one worker or a report, one thread at a time holds the mutex, and the mutexes are destroyed only when no worker can use them |
| ImportPool.StepLowersMeasure | client/mysqlimport.c:750-797 | every step but polling lowers the measure, and polling leaves it |
| ImportPool.NeverStuck | client/mysqlimport.c:750-787 | progress is possible now or right after the one polling step, also with lost signals and failed creations |
| ImportPool.FairExecutionsEnd | client/mysqlimport.c:750-797 | no fair execution goes on for ever |
| PoolRuns.WaitsOnlyWhenFull | client/mysqlimport.c:753-759 | the main thread waits for a place exactly when all are taken |
| PoolRuns.ThreadsAllUsed | client/mysqlimport.c:750-780 | as many files as there are threads can be imported at once |
| PoolRuns.CleanEndReached | client/mysqlimport.c:750-824 | whatever the number of threads, all files can be imported and the process end with status 0 |
| PoolRuns.FatalErrorEnds | client/mysqlimport.c:565-601 | an error that is not ignored can end the process from any worker |
| RowChanges.UndoRestores | sql/log_event_client.cc:1101-1200 | the inverse changes in reverse order undo changes that succeeded |
| Flashback.Printer.PrintBackwards | client/mysqlbinlog.cc:964-983 | a statement's events go out inverted and last first, as one unit |
| Flashback.Printer.PrintRowEvent | client/mysqlbinlog.cc:880-994 | end flags move to the first event of the statement, which is printed last; without a table map an event is only retyped; a hidden end drops the row events and writes the table maps as a fragment |
| Flashback.Printer.ProcessEvent | client/mysqlbinlog.cc:1405-1580 | the state after an event |
| Flashback.Printer.Process | client/mysqlbinlog.cc:3731-3743 | the whole output: stored units from last to first, then a commit |
| FlashbackLaws.RunStatement | client/mysqlbinlog.cc:886-903 | a well-formed row statement becomes one unit with the end flag on its last printed event only |
| FlashbackLaws.OutputIsReversed | client/mysqlbinlog.cc:3731-3743 | the output is the units of the log in reverse order |
| FlashbackLaws.InvertedOpUndoes | sql/log_event_client.cc:1101-1200 | an inverted event makes the inverse row changes in reverse order |
| FlashbackLaws.UnmappedEvent | sql/log_event_client.cc:1101-1112 | without a table map an event is retyped, and its rows stay in their order |
| FlashbackLaws.ReplayStatement | client/mysqlbinlog.cc:964-983 | replaying the unit of a statement undoes the statement |
| FlashbackLaws.FlashbackUndoesLog | client/mysqlbinlog.cc:3731-3743 | replaying the output on the state the log led to gives back the state it started from |
| FlashbackLaws.TransactionsStayWhole | sql/log_event_client.cc:2074-2086 | if the log opens and closes transactions in turn, so does the output up to its last COMMIT, which closes a transaction exactly if the log began inside one |
| FlashbackLaws.FilteredStatement | client/mysqlbinlog.cc:880-958 | what is stored and what is written at once for a filtered statement: nothing and its visible table maps if the last row event is hidden, all row events and nothing otherwise |
| FlashbackLaws.FilterKeepsPromise | client/mysqlbinlog.cc:880-958 | the exact statements for which the filter does what it is for, in what is stored and what is written |
| FlashbackLaws.HiddenLastRowLosesStatement | client/mysqlbinlog.cc:930-958 | an input on which a visible row is lost |
| FlashbackLaws.HiddenStatementLeavesFragment | client/mysqlbinlog.cc:938-953 | an input, not mixed, on which a fragment is written |
| FlashbackLaws.PrintedWholeUndoesVisible | sql/log_event_server.cc:5988-6153 | a statement printed with hidden row events still undoes exactly its visible rows |
| FilteredLog.OutputReplayed | client/mysqlbinlog.cc:880-994 | replaying the output of a filtered log makes the inverse changes of exactly the visible rows, or stops at a fragment, told from the log |
| FilteredLog.VisibleApplied | sql/log_event_server.cc:5988-6153 | the visible changes do to the visible tables what all changes do, whatever is in the hidden ones |
| FilteredLog.FilteredFlashback | client/mysqlbinlog.cc:3731-3743 | replayed after the log, the output takes the visible tables back and leaves the hidden ones, if and only if no statement ends in a hidden row event and maps a visible table |
| EventWindow.Window.ProcessEvent | client/mysqlbinlog.cc:1176-1206 | the verdict on an event, the latches and the counter after it |
| EventWindow.Window.DumpLog | client/mysqlbinlog.cc:1176-1206 | the handled events are exactly the format events and those from the first one inside the window on, without excluded servers, before the first one at the stop; also if the counter wraps |
| EventWindow.HandledAre | client/mysqlbinlog.cc:1176-1206 | the same from the numbers in the log: which events are looked at, and that the first one at the stop time or the stop position ends it |
| EventWindow.CountWraps | client/mysqlbinlog.cc:1610 | the counter at an event is the number of events before it, modulo 2 to the 64 |
| RowFilter.Printer.SetTable | sql/rpl_tblmap.cc:111-146 | a table map with the same id is replaced and the replaced event deleted |
| RowFilter.Printer.ClearTables | sql/rpl_tblmap.cc:166-180 | all ignored maps are deleted, each once |
| RowFilter.Printer.KeepAnnotate | client/mysqlbinlog.cc:247-251 | the kept Annotate event is replaced and the old one deleted |
| RowFilter.Printer.PrintAnnotate | client/mysqlbinlog.cc:253-262 | the kept Annotate event is printed and deleted |
| RowFilter.Printer.ProcessEvent | client/mysqlbinlog.cc:1392-1580 | the state after an event; nothing is deleted twice |
| RowFilter.Printer.Process | client/mysqlbinlog.cc:880-958 | over a whole log, what is printed in which order, and that every event object is deleted except the ones still needed, told from the log alone |
| RowFilter.StepKeepsSound | client/mysqlbinlog.cc:880-958 | every event keeps the correspondence between the variables and the log |
| RowFilter.FreedStep | client/mysqlbinlog.cc:914-928 | an event deletes exactly the objects that stop being needed with it |
| RowFilter.AnnotateShown | client/mysqlbinlog.cc:1392-1413 | an Annotate event is printed if and only if a visible table map comes before the next Annotate event and the end of the statement |
| RowFilter.EventShown | client/mysqlbinlog.cc:880-958 | a row event is printed if and only if its statement has no filtered table map for its table before it, a table map if and only if it is not filtered, any other event always |
| RowFilter.AnnotateRule | client/mysqlbinlog.cc:1392-1413 | the same for an Annotate event, told from the events after it |
| RowFilter.PrintedInOrder | client/mysqlbinlog.cc:880-994 | the output is in the order of the log, but for the Annotate events |
| RowFilter.AnnotateBeforeMap | client/mysqlbinlog.cc:253-262 | an Annotate event stands directly before its table map |
| RowFilter.LiveRule | client/mysqlbinlog.cc:914-928 | which event objects are still needed, told from the log |
| RowFilter.PrintedOnce | client/mysqlbinlog.cc:253-262 | no event is printed twice |
| LoadFiles.ServedData | client/mysqlbinlog.cc:682-720 | what waits for an execute event is the first block of the latest registration and every block appended since |
| LoadFiles.WaitingIsServed | client/mysqlbinlog.cc:381-423 | what waits comes from a registration of the same kind that nobody has taken |
| LoadFiles.Processor.SetRecord | mysys/array.c:202-215 | storing a record grows the array with empty ones and changes no other |
| LoadFiles.Processor.ProcessFirst | client/mysqlbinlog.cc:554-620 | a registration replaces what waited under its id and starts its own file |
| LoadFiles.Processor.ProcessAppend | client/mysqlbinlog.cc:682-720 | a block goes to the end of the file registered for its id, or nowhere, and no other file changes |
| LoadFiles.Processor.Grab | client/mysqlbinlog.cc:381-423 | a record is taken only by its own kind of executor, and once |
| LoadFiles.Processor.ProcessExecute | client/mysqlbinlog.cc:1247-1391 | a file is given exactly if a registration is to be served, holds exactly its data, was never given before and is never changed again |
| CompletionSpec.LookupIsMatches | client/completion_hash.cc:220-226 | a non-empty key finds exactly the added words that start with it, newest first with repeats |
| CompletionSpec.NewestFirst | client/completion_hash.cc:76-87 | an input for the order |
| CompletionSpec.CountsTellPrefix | client/completion_hash.cc:187-199 | comparing counts tells whether a longer prefix is common to all matches |
| CompletionSpec.LongestByCounts | client/completion_hash.cc:187-199 | where the count first falls along one word, the longest common prefix of all matches ends |
| CompletionSpec.FirstWordIsOldest | client/completion_hash.cc:96 | the word a bucket points into is the oldest one with its key as prefix |
| CompletionSpec.FirstWordIsItself | client/completion_hash.cc:147-151 | the condition of `completion_hash_exists` over the list of words |
| CompletionSpec.AddedWordNotFound | client/completion_hash.cc:149 | words after which an added word is not found |
| CompletionHash.HashTable.Find | client/completion_hash.cc:113-133 | the bucket of a key, found if and only if something was recorded under it, with exactly that |
| CompletionHash.HashTable.Update | client/completion_hash.cc:60-111 | one more entry under a key; an empty key is refused |
| CompletionHash.HashTable.AddEntry | client/completion_hash.cc:76-87 | a new entry in front of a bucket's list changes no other bucket |
| CompletionHash.HashTable.AddBucket | client/completion_hash.cc:93-108 | a new bucket in front of its chain hides no other |
| CompletionHash.HashTable.AddWord | client/completion_hash.cc:220-226 | a word is recorded under each of its non-empty prefixes |
| CompletionHash.HashTable.AddWords | client/mysql.cc:2995-2999 | after any words the table stands for the list of them all |
| CompletionHash.HashTable.Exists | client/completion_hash.cc:136-156 | true if and only if the first word added with that prefix is the word itself, told from the updates and from the list of words |
| CompletionHash.HashTable.FindAllMatches | client/completion_hash.cc:158-171 | the bucket with all words for a prefix, and the length |
| CompletionHash.HashTable.FindLongestMatch | client/completion_hash.cc:173-202 | the bucket of the longest common prefix of all words that start with the text, or none |
| CompletionHash.HashTable.Clean | client/completion_hash.cc:205-210 | the table is empty again and can be used |
| CompletionHash.HashTable.FirstUsed | client/mysql.cc:2926-2935 | the first used slot at or after a place, or the end of the table |
| CompletionGenerator.Generator.Seek | client/mysql.cc:2949-2957 | the walk goes on with the next used slot and skips nothing; without one nothing changes |
| CompletionGenerator.Generator.Turn | client/mysql.cc:2938-2962 | one turn hands out at most one string and loses none |
| CompletionGenerator.Generator.NextMatch | client/mysql.cc:2902-2920 | the next of the words with a non-empty prefix |
| CompletionGenerator.Generator.Next | client/mysql.cc:2891-2967 | a call returns the first string still to come, or null when there is none |
| CompletionGenerator.Generator.Enumerate | client/mysql.cc:2883 | calling until null ends and returns the completions in the order of the table |
| CompletionGenerator.Generator.Complete | client/mysql.cc:2883 | calling until null ends and returns exactly the added words: all of them as a multiset for the empty text, those with the prefix, newest first, otherwise |
| CompletionGenerator.OneSlotCounts | client/mysql.cc:2940-2946 | the chain of a slot contributes each word whose slot it is as often as it was added |
| CompletionGenerator.WalkIsAllWords | client/mysql.cc:2921-2966 | for the empty text the completions are the multiset of all added words except the empty one |

## Left out

- LineLayout.LineSplit: on a line with a comment for the server, block comments and commands with parameters are not segments, nor is a comment that `--comments` keeps directly behind another one; the refinement of the scanner and the laws in `ShortCommands` cover the first, and `LayoutExists.LineLaidOut` tells that nothing else is missing.
- DumpedUse.UseLineRead: for the delimiter `;`, which is the one that `mysqldump` writes there; and for names in the line that the client is given, so a newline in a name is not split into lines here.
- DumpedUse.QuotedIsText: where backslashes escape inside the quotes, none may stand before a quote or at the end of the name.
- CompletionGenerator.Generator.Next: on an empty table the generator would go on with entries left from before, which have been freed with the table; the contract asks for a used slot or no such entries.
- CompletionGenerator.Generator.Enumerate: the same.
- CompletionGenerator.Generator.Complete: the same.
- EventWindow.Window.DumpLog: without GTID filters; for one log at a time, from whatever latches and count the logs before left.
- Cdata.PrintCdata: the text is followed by a NUL, so no close mark straddles its end.
- Commands.FindCommand: the collation is a folding of characters, and two names of different length are different.
- Arguments: the mode that returns the next argument of the same line.
- LineSpec: an empty delimiter, which the `--delimiter` option lets through; reallocation and failing allocation of the buffer.
- Interactive reading, history, the byte order mark, and the last statement without a delimiter at the end of batch input.
- The statements that `com_use`, `com_delimiter` and the other commands run: they are the oracle.
- Building a row of the dump from its columns, the XML and the one-row-per-statement forms, and integer overflow of the length.
- The hex constants of `add_load_option`, which are not escaped.
- The text of events, checksums, compressed row events and `--verbose` output of `mysqlbinlog`, and the positions of several logs.
- Deleting temporary files and errors while writing them; `Load_log_processor` of the 3.23 format.
- The exit status of `mysqlimport`, single-threaded import and what a worker does with its table.
- Memory of the completion table, and its hash function.
- Database names rewritten on the way, and flashback of statements that are not row events.
- The other programs of the directory: option handling, command dispatch and demonstrations.
