# A verified model of the GnuCOBOL companion tools

The repository holds three programs around GnuCOBOL: an embedded-SQL precompiler with its ODBC runtime
(`esql/`), the sort and merge utility GCSORT (`tools/GCSORT/`), and a socket library
(`ipc/CBL_GC_SOCKET/`). This project models the parts of them whose correctness is not visible from one
function, and proves what those parts are for. Code that works step by step in the original is imperative
here: classes with the original's fields, arrays changed in place, loops with invariants, linked chains.
Each such method is proved against a specification, and the specification is proved to mean what the program
promises.

| files | what they model |
|---|---|
| `decimal_digits`, `packed_decimal`, `packed_decimal_laws` | the packed-decimal codec of the SQL runtime: nibbles in place against arithmetic modulo a power of ten, and the two directions against each other |
| `literal_folding`, `literal_reading` | SQL text printed as a COBOL literal and folded at column 72, against an independent reader of fixed-form source, section 6 (Reference format) of ISO/IEC 1989:2014 |
| `esql_markers`, `esql_variables`, `esql_passes`, `esql_into`, `esql_binding` | host variables in a statement: where they end, marker substitution, the generated parameter table, INTO lists, and what the runtime binds |
| `deblank`, `var_cache`, `picture` | the precompiler's text cleaning, its symbol table and its picture clauses |
| `move_tables` | the move and buffer tables of prepared statements and calls: counted by one pass, filled downwards by another |
| `move_execution`, `move_storage`, `move_runs` | what the moves do to the program's storage: loops over bytes, what they come to for each parameter, and a whole execution to the database and back |
| `database_handles`, `statement_cache` | the handles of a statement by database, and the cache that owns prepared statements |
| `statement_machine`, `statement_states`, `statement_forcing`, `statement_connections` | the states a statement goes through in any run: a machine on values with its laws, the runtime of objects and pointers that does what the machine says, and the connections its handles belong to |
| `gcsort_order`, `gcsort_blocks`, `gcsort_positions`, `gcsort_merge`, `gcsort_slots`, `gcsort_final_merge` | GCSORT with threads: sharing the records out and the positions they get, merging the threads' results through slots of memory, SUM FIELDS=NONE |
| `gcsort_stability`, `gcsort_laws`, `gcsort_short`, `gcsort_run` | a stable sort by key as the reference, which files GCSORT sorts like it, and a whole run from the file to the output |
| `window_reader` | GCSORT's reader through a sliding mapped window, against the plain file |
| `socket_pool` | whose turn it is among the readable sockets |

`arithmetic` holds facts about multiplication that the other files use one at a time, `texts` and `chains` what
several files share about text and about linked chains.

Where a property fails for some inputs, the model keeps what the code does, a lemma shows an input that fails,
and the condition under which the property holds is proved:

- an integer field sent as text with its padding comes back only if all its digits are zero
  (`PackedDecimalLaws.UnpackThenPackUnstripped`);
- `SELECT ... INTO` counts its parameters consistently when the INTO list closes its literals, which it does if and
  only if INTO and the word behind the list stand on the same side of a quotation mark; `SELECT 'A INTO B' FROM T
  WHERE K=:X` has no marker and one row (`EsqlPasses.CompileSelect`, `EsqlPasses.ClosedIff`,
  `EsqlPasses.IntoInsideLiteralExample`);
- a SELECT counts no more parameters than its table has rows, if and only if its list closes its literals or the
  query read inside out, with the rows of the list, has at least as many as read plainly; `SELECT :A, 'X INTO Y' FROM T`
  has one parameter and no row, and the runtime gets no tables for it (`EsqlPasses.EnoughRowsIff`,
  `EsqlInto.MoreParmsThanRows`, `MoveTables.Prepare`);
- the text sent for a SELECT is the statement without its INTO list if and only if FROM does not stand both in front
  of INTO and behind it, nor, where it does not stand behind, WHERE on both sides: `SELECT EXTRACT(YEAR FROM D) INTO :Y
  FROM T` is sent without its FROM (`EsqlInto.SentWithoutList`, `EsqlInto.FromInFrontExample`);
- the rows of every statement fit the table reserved for it, unless a SELECT has FROM or WHERE right behind INTO:
  then they fit if and only if there are two at most or the query has as many colons without a row as the list has
  rows, and the text stored is longer than the statement it replaces; `SELECT A INTO FROM T WHERE K=:X AND L=:Y`
  has four rows in a table of two (`EsqlPasses.ListTakenTwice`, `EsqlPasses.StoredLength`, `EsqlPasses.RowsOverflow`);
- a statement in state Y has a handle in every database, as long as there are not more than declared, if and only
  if the maximum has not been raised since it was confirmed; the failing run declares one database, executes, and
  then declares two (`StatementMachine.ConfirmedIff`, `StatementMachine.MaximumRaised`);
- a handle belongs to an open connection if and only if no disconnect has come between its preparation and the next
  connect; programs that connect only when they are not connected never leave one on a closed connection, and one
  that connects twice and disconnects once executes with a handle of the connection it has closed
  (`StatementConnections.HandleOpenIff`, `StatementConnections.OneConnection`, `StatementConnections.ClosedHandleExecuted`);
- the counters of a CALL come down to zero if and only if every variable-length and packed parameter has a
  direction (`MoveTables.CallBalances`); generated calls always do, and a program that fills the table itself and
  leaves a precision byte a space does not (`MoveTables.GeneratedBalances`, `MoveTables.UndirectedRow`); a precision
  byte gives back precision and direction if and only if the precision is below 64 (`MoveTables.DirectionsArrive`);
- the length of a variable-length in-and-out parameter of a CALL is not returned to where it was taken from; when
  the value has no buffer, it is put over the first bytes of the value (`MoveTables.LengthReturned`);
- a parameter bound as NULL is sent as NULL if and only if its value has no length in front of it, since the length
  is put over the mark before the execution (`MoveStorage.NullSentIff`);
- a packed in-and-out parameter of a CALL is told to be as long as the number of its buffer, not 21
  (`MoveStorage.PackedTold`);
- GCSORT's merge reads positions at the output length, whatever the length of a record. For any lengths it puts out
  the records of the file sorted by key, each thread's stably among themselves, so one thread sorts stably
  (`GcsortLaws.MergedByKeys`, `GcsortLaws.ThreadsKeepOrder`, `GcsortLaws.OneThreadIsStable`);
- records of the output length are sorted stably, whatever the number of threads, if and only if the records of every
  key have positions in order (`GcsortLaws.MergedIsStableIff`): those of sequential files, and of all files that are
  dealt out, always have (`GcsortLaws.ThreadsDoNotMatter`); those of line sequential files have if and only if none
  stands further back in its block than a later one of its key in another, and four lines of one key come out of two
  threads as 1, 3, 2, 4 (`GcsortLaws.LinesAreStableIff`, `GcsortLaws.LinesOvertake`);
- records shorter than that by eight bytes or more never write what is compared: those of one key come out slot by
  slot, in the order of what was in the slots' memory, and `GcsortShort.ShortAreStableIff` says exactly when that is
  stable; dealt out to several threads, more records of one key than threads never are (`GcsortShort.ShortDealtIff`).
  Of mixed lengths, 10, 1, 1 and 1 bytes come out of two threads as 1, 3, 2, 4 or 2, 4, 1, 3, and 1, 1, 1 and 10
  never in order (`GcsortShort.FirstLonger`, `GcsortShort.LastLonger`);
- putting a holder into the symbol table leaves a freed holder there if and only if it was in the table already
  (`VarCache.Cache.Put`);
- a listener that is always readable starves the connections that stand behind it in turn, and only those, whoever
  joins (`SocketPool.ListenerDecides`);
- a read longer than the window reports all its bytes but delivers only those up to the end of the next window
  (`WindowReader.MappedFile.Read`);
- an accepted picture counts a negative number of digits if and only if its repeat counts take more away than its
  positions give, which takes one below one: `S9(-9)` does, `99(0)` does not (`Picture.NegativeIff`,
  `Picture.HonestIsSensible`, `Picture.NegativeRepeat`).

## Model

| member | source | states |
|---|---|---|
| PackedDecimal.MoveComp3 | esql/ocsql/ocsql2.cpp:2471-2562 | the nibbles left in place by the pointer-driven loops, the in-place carry and the sign are the packed nibbles of the text, for every text, length and precision; bytes behind the field stay |
| PackedDecimal.Carry | esql/ocsql/ocsql2.cpp:2532-2549 | the carry chain through half bytes adds one to the decimal number, through every byte, wrapping at the top |
| PackedDecimal.UnpackComp3 | esql/ocsql/ocsql2.cpp:1333-1370 | for fields of at most ten bytes the text of the field, blank padding and a final zero byte are written, all inside the 22 characters of the buffer |
| PackedDecimalLaws.PackedValue | esql/ocsql/ocsql2.cpp:2471-2562 | the value left in a field is the magnitude times ten to the precision, rounded half away from zero, modulo the capacity of the field, with sign C or D |
| PackedDecimalLaws.CodecExample | esql/ocsql/ocsql2.cpp:2471-2562 | in characters and nibbles, -12.5 and +12.5 packed into two bytes and printed |
| PackedDecimalLaws.KeptValue | esql/ocsql/ocsql2.cpp:2500-2552 | looking at one digit and carrying comes to rounding a fraction of any length and reducing modulo a power of ten |
| DecimalDigits.RoundingByOneDigit | esql/ocsql/ocsql2.cpp:2529-2531 | the first digit cut off decides the rounding, whatever follows it |
| DecimalDigits.IncrementValue | esql/ocsql/ocsql2.cpp:2532-2549 | carrying into a digit string adds one modulo ten to its length |
| PackedDecimalLaws.UnpackThenPack | esql/ocsql/ocsql2.cpp:1333-1370 | packing the text of any well-formed field gives the field back, blanks behind it included when there are decimals |
| PackedDecimalLaws.UnpackThenPackUnstripped | esql/ocsql/ocsql2.cpp:1368-1369 | with blank padding this holds if and only if there are decimals, no padding, or only zero digits |
| PackedDecimalLaws.PackedShifted | esql/ocsql/ocsql2.cpp:1368-1369 | blanks behind an integer multiply it by powers of ten, so it survives only when it is zero |
| PackedDecimalLaws.ShiftFixpoint | esql/ocsql/ocsql2.cpp:1368-1369 | a digit string that a shift leaves unchanged is all zeros |
| PackedDecimalLaws.PackThenUnpack | esql/ocsql/ocsql2.cpp:1333-1370 | whatever text was packed, unpacking prints the canonical numeral of its rounded value |
| PackedDecimalLaws.SendAndFetch | esql/ocsql/ocsql2.cpp:1333-1370 | a field sent through the runtime's buffer and fetched back from all of it keeps its bytes if and only if it has decimals or all its digits are zero |
| LiteralFolding.CobPgm.AddLn | esql/esqlOC/esqlOC.cpp:1027-1031 | a line goes in at its number, everything behind it moves down |
| LiteralFolding.InsertedAt | esql/esqlOC/esqlOC.cpp:1027-1031 | lines in front of the position stay, the new ones follow from it on, and the others move behind them by their number |
| LiteralFolding.CobPgm.LiteralOpen | esql/esqlOC/esqlOC.cpp:993-1003 | the search from quotation mark to quotation mark finds whether a literal is open at column 72, also when a doubled mark was split |
| LiteralFolding.CobPgm.ProcessFmt | esql/esqlOC/esqlOC.cpp:984-1025 | exactly the folded lines are inserted, in order, and the line number moves behind them; the loop ends for every line |
| LiteralFolding.CobPgm.EmitSql | esql/esqlOC/esqlOC.cpp:928-971 | the lines of the SQL-STMT entries, whole or cut into pieces of 160 characters, are inserted and nothing else changes |
| LiteralReading.ReadBack | esql/esqlOC/esqlOC.cpp:984-1025 | the fixed-form reader gets the exact text back from the folded lines of any quoted entry, also when a doubled mark straddles column 72 |
| LiteralReading.ReadFolded | esql/esqlOC/esqlOC.cpp:1004-1023 | every continuation line, with or without a split mark, resumes the literal where the line before left it |
| LiteralReading.FoldedWidth | esql/esqlOC/esqlOC.cpp:986-1024 | no line passes column 72 and all but the last fill it |
| LiteralReading.ChunksJoin | esql/esqlOC/esqlOC.cpp:930-956 | the pieces make up the statement and their declared lengths sum to its length |
| LiteralReading.DecimalReads | esql/esqlOC/esqlOC.cpp:942-943 | a declared length reads back as the number it was printed from |
| LiteralReading.ReadEmitted | esql/esqlOC/esqlOC.cpp:928-971 | read one after the other, the entries of all pieces have the concatenation of the pieces as their value |
| LiteralReading.ReadEmittedSql | esql/esqlOC/esqlOC.cpp:928-971 | cut or not, and with either quotation mark, what is emitted for a statement reads back as the statement |
| EsqlMarkers.IndexEndVar | esql/esqlOC/esqlOC.cpp:778-789 | the end found is the first of the eleven delimiters behind the colon, or the end of the text |
| EsqlMarkers.DelimitersAre | esql/esqlOC/esqlOC.cpp:780 | a character ends a name if and only if it is one of the eleven of that text |
| EsqlMarkers.SourceOfTokens | esql/esqlOC/esqlOC.cpp:864-886 | reading a statement as literals, host variables and other characters loses nothing |
| EsqlMarkers.BlankedCopy | esql/esqlOC/esqlOC.cpp:864-876 | the searched copy is the text in upper case with the inside of literals blanked, position by position |
| EsqlMarkers.Substitute | esql/esqlOC/esqlOC.cpp:864-886 | every host variable outside literals becomes one marker and nothing else changes; one cell is counted for a variable and one for its indicator; the loop ends because variables become fewer |
| EsqlMarkers.ShadowReplaced | esql/esqlOC/esqlOC.cpp:880-883 | replacing in the text and in its blanked copy keeps the two aligned |
| EsqlMarkers.TokensReplaced | esql/esqlOC/esqlOC.cpp:880-883 | a replacement turns one host variable into a marker and touches no other token |
| EsqlMarkers.MarkedReadsBack | esql/esqlOC/esqlOC.cpp:864-886 | read again, the result has the same literals and other characters in the same order, markers for variables, and no colon outside literals |
| EsqlVariables.VariableReplaced | esql/esqlOC/esqlOC.cpp:864-886 | front text, a colon, a name without delimiters, and one of the eleven or the end: the front stays, the variable becomes ?, the rest is treated on its own, and one parameter is counted, or two if a second colon stands behind the name |
| EsqlVariables.LiteralStays | esql/esqlOC/esqlOC.cpp:866-873 | a literal stays as it is, colons and all, and the rest is treated on its own |
| EsqlVariables.RowsAre | esql/esqlOC/esqlOC.cpp:1674-1700 | a name has the row of its host, and with a second colon that of its indicator |
| EsqlVariables.CapitalsAre | esql/esqlOC/esqlOC.cpp:864 | the 26 small letters become capitals and nothing else changes |
| EsqlVariables.InsertExample | esql/esqlOC/esqlOC.cpp:864-886 | INSERT INTO T VALUES (:A,:B:I) is sent as INSERT INTO T VALUES (?,?), with three parameters and their rows |
| EsqlPasses.RemoveInQ | esql/esqlOC/esqlOC.cpp:1614-1629 | what is left is the text outside literals, with the quotation marks, in upper case |
| EsqlPasses.NamesAreVars | esql/esqlOC/esqlOC.cpp:1614-1629 | searching the text without its literals for colons finds exactly the host variables the substitution finds, in order |
| EsqlPasses.Generate | esql/esqlOC/esqlOC.cpp:1674-1790 | the rows of the parameter table and SQL-COUNT are those of the host variables of the text; refused exactly when one is not declared for its use |
| EsqlPasses.CellsOfTokens | esql/esqlOC/esqlOC.cpp:1674-1790 | the rows of all variables are as many as the cells the substitution counts |
| EsqlPasses.CompileChange | esql/esqlOC/esqlOC.cpp:1631-1790 | for INSERT, UPDATE and DELETE the passes agree: SQL-PARMS equals SQL-COUNT equals the number of rows, which fit the table, and the rows have the types of the replaced variables in order |
| EsqlPasses.Reserve | esql/esqlOC/esqlOC.cpp:518-522 | the room reserved in the parameter table is the largest number of colons of any statement, and two at least |
| EsqlPasses.RowsAndIdle | esql/esqlOC/esqlOC.cpp:518-522 | the colons of a statement are its rows and the colons in literals or behind an indicator, from whichever side of a quotation mark it is read |
| EsqlPasses.ExtractInto | esql/esqlOC/esqlOC.cpp:849-856 | the list taken is the one of the first INTO of a SELECT, ending at the first FROM of the statement, or the first WHERE, or the end |
| EsqlInto.NoListIff | esql/esqlOC/esqlOC.cpp:849-851 | nothing is taken out of a text if and only if it does not begin with SELECT and a blank or holds no INTO between blanks, in capitals or small letters |
| EsqlInto.ListTakenOut | esql/esqlOC/esqlOC.cpp:849-860 | of front, INTO, list and rest, where no INTO stands earlier and the rest begins with the first FROM, or the first WHERE, or is empty, the list is read and front and rest are sent |
| EsqlInto.WithoutFromExample | esql/esqlOC/esqlOC.cpp:852-856 | SELECT LAST_INSERT_ID() INTO :ID has a list that reaches to its end |
| EsqlPasses.TokensSplitAtDelim | esql/esqlOC/esqlOC.cpp:856-861 | text in front of a delimiter reads on its own, host variables at its end included |
| EsqlPasses.StoredCells | esql/esqlOC/esqlOC.cpp:856-861 | the stored text has the variables of the list and then those of the query, as it reads behind the list |
| EsqlPasses.CompileSelect | esql/esqlOC/esqlOC.cpp:849-886 | with the list found by that rule, the rows and their types are those of the list and then of the query as it reads behind it; SQL-COUNT exceeds SQL-PARMS by the cells of the list when the list closes its literals, and is otherwise off by exactly the variables read inside out; it has a row for every parameter exactly when EnoughRowsIff says so; the rows fit the table unless FROM follows INTO at once |
| EsqlPasses.EnoughRowsIff | esql/esqlOC/esqlOC.cpp:849-886 | the table has a row for every parameter if and only if the list closes its literals, or the query read inside out has, with the rows of the list, as many as read plainly |
| EsqlPasses.ReadInsideOut | esql/esqlOC/esqlOC.cpp:849-886 | for every list that does not close its literals, which variables in front of INTO and behind the list get markers, and which get rows |
| EsqlPasses.ClosedIff | esql/esqlOC/esqlOC.cpp:849-863 | the list closes its literals if and only if INTO and the word behind the list stand both inside or both outside literals |
| EsqlPasses.StoredFits | esql/esqlOC/esqlOC.cpp:849-863 | taking the list out and storing it in front makes no more rows than the statement has colons |
| EsqlPasses.ListTakenTwice | esql/esqlOC/esqlOC.cpp:857-858 | with FROM or WHERE right behind INTO the text behind INTO is list and query at once, its variables get their rows twice, and when exactly they fit the table |
| EsqlPasses.StoredLength | esql/esqlOC/esqlOC.cpp:857-861 | the text copied over the statement is then longer than the statement, and otherwise four characters shorter |
| EsqlPasses.RowsOverflow | esql/esqlOC/esqlOC.cpp:849-861 | SELECT A INTO FROM T WHERE K=:X AND L=:Y has four rows and two colons |
| EsqlPasses.IntoInsideLiteral | esql/esqlOC/esqlOC.cpp:850-851 | for every statement whose first INTO stands inside a literal the markers are made of what is behind the list read as literal, and the rows of the same text read as text |
| EsqlPasses.IntoInsideLiteralExample | esql/esqlOC/esqlOC.cpp:850-851 | in SELECT 'A INTO B' FROM T WHERE K=:X the list found is the end of the literal, and the statement has no marker and one row |
| EsqlInto.SentWithoutList | esql/esqlOC/esqlOC.cpp:849-860 | the text sent is the statement without its list if and only if no FROM, or WHERE where there is no FROM behind, stands in front of INTO as well as behind it |
| EsqlInto.FromInFrontExample | esql/esqlOC/esqlOC.cpp:852-860 | SELECT EXTRACT(YEAR FROM D) INTO :Y FROM T is sent as SELECT EXTRACT(YEAR FROM D) |
| EsqlInto.MoreParmsThanRows | esql/esqlOC/esqlOC.cpp:849-886 | SELECT :A, 'X INTO Y' FROM T has one parameter and no row |
| EsqlBinding.MarkersAreHosts | esql/ocsql/ocsql2.cpp:1046-1165 | the runtime binds to the markers all host variables of the text, in order, and no indicator |
| EsqlBinding.ColumnsAreHosts | esql/ocsql/ocsql2.cpp:1166-1276 | the runtime binds to the result columns all host variables of the INTO list, in order |
| EsqlBinding.GeneratedTableBinds | esql/ocsql/ocsql2.cpp:1046-1276 | for any table with the rows of a list and a query the parameters bound are the variables of the query, the columns those of the list, each its own |
| EsqlBinding.CompiledChangeBinds | esql/esqlOC/esqlOC.cpp:1631-1790 | from the text of an INSERT, UPDATE or DELETE to what is bound: every table filled as generated has its markers bound to the replaced variables, in order |
| EsqlBinding.CompiledSelectBinds | esql/esqlOC/esqlOC.cpp:849-886 | the same for a SELECT whose list closes its literals, markers to the query's variables and columns to the list's |
| EsqlBinding.BoundNumbers | esql/ocsql/ocsql2.cpp:1046-1276 | as many parameters are bound as the text has markers, and as many columns as the list has variables |
| EsqlBinding.ParameterBoundAsColumn | esql/ocsql/ocsql2.cpp:1166-1276 | a table of one row for a statement without parameters, as a cut literal makes, has a parameter bound as a result column |
| MoveTables.CountPrepare | esql/ocsql/ocsql2.cpp:971-986 | counting over the table from its first row comes to the moves and buffers of the parameters in the order they are bound, for any number of parameters |
| MoveTables.NewTables | esql/ocsql/ocsql2.cpp:402-431 | there are tables for a statement unless the number of its columns is negative |
| MoveTables.BindMarker | esql/ocsql/ocsql2.cpp:1055-1081 | a marker's moves, buffer and address, stored below what is stored already |
| MoveTables.BindColumn | esql/ocsql/ocsql2.cpp:1178-1216 | a column's moves, buffer and address, stored below what is stored already |
| MoveTables.BindPrepared | esql/ocsql/ocsql2.cpp:1046-1276 | every row bound is inside the table if and only if there are not more parameters than rows; then bound if and only if all rows are of known types and none is refused, and both counters are zero, every slot holds its planned move and every buffer is the right one; bound or not, the buffers fit another try |
| MoveTables.Prepare | esql/ocsql/ocsql2.cpp:971-1276 | no tables if and only if there are more parameters than rows; otherwise, with the tables allocated as counted, no index leaves them, and the statement is bound if and only if all rows are of known types and none is refused |
| MoveTables.BufferOfItsOwn | esql/ocsql/ocsql2.cpp:1198-1215 | a parameter that needs a buffer has one to itself, large enough for the size the database is told, in a prepared statement and in a CALL, in-and-out parameters included |
| MoveTables.BindableIs | esql/ocsql/ocsql2.cpp:1082-1143 | the type letters and integer lengths that are bound |
| MoveTables.SizesTold | esql/ocsql/ocsql2.cpp:1257-1262 | the sizes the database is told: one more for received text that it ends with a zero byte, 21 and 22 characters for packed values |
| MoveTables.MovesOfParameter | esql/ocsql/ocsql2.cpp:1055-1216 | the table holds the moves of each parameter once, next to each other |
| MoveTables.CountCall | esql/ocsql/ocsql2.cpp:1478-1510 | the count of a CALL exceeds what its parameters need by those that have no direction |
| MoveTables.BindArgument | esql/ocsql/ocsql2.cpp:1534-1646 | a parameter's moves for both directions, its buffer and address, stored below what is stored already |
| MoveTables.BindCall | esql/ocsql/ocsql2.cpp:1522-1741 | the counters come down to the number of parameters without direction; exactly the slots above are written and those below stay; every parameter is bound to its place with its size |
| MoveTables.CallBalances | esql/ocsql/ocsql2.cpp:1478-1510 | they come down to zero if and only if every variable-length and packed parameter has a direction |
| MoveTables.GeneratedBalances | esql/esqlOC/esqlOC.cpp:1964-1993 | generated rows always have a direction, whatever their precision, so the counters of a generated CALL reach zero |
| MoveTables.UndirectedRow | esql/ocsql/ocsql2.cpp:1482-1510 | a row filled by hand with a space for its precision is counted a move that is never written |
| MoveTables.DirectionsArrive | esql/esqlOC/esqlOC.cpp:1969-1993 | direction and precision put into the generated precision byte are what the runtime takes out of it if and only if the precision is below 64 |
| MoveTables.LengthReturned | esql/ocsql/ocsql2.cpp:1602-1617 | a returned length goes to the length of the variable if and only if the value was not sent as well; it goes over the value itself if and only if that was sent and has no buffer |
| MoveExecution.NumberReadsBack | esql/ocsql/ocsql2.cpp:1327-1332 | a length put into two or four bytes is read from them again |
| MoveExecution.Execution.BeforeExecution | esql/ocsql/ocsql2.cpp:1325-1376 | the loop makes every move of the table on storage, buffers and lengths, from the first entry on |
| MoveExecution.Execution.PadColumns | esql/ocsql/ocsql2.cpp:1421-1442 | the loop fills up received values, puts zero for a packed NULL and sets indicators, each row once |
| MoveExecution.Execution.AfterFetch | esql/ocsql/ocsql2.cpp:1443-1461 | the loop makes every move of the table after the fetch |
| MoveExecution.TableIsPlan | esql/ocsql/ocsql2.cpp:1325-1326 | a table filled downwards is run with the move planned last first |
| MoveStorage.SentAll | esql/ocsql/ocsql2.cpp:1325-1376 | however many parameters there are, each is told the length and gets the buffer that its own moves give it, and the storage of the program stays |
| MoveStorage.TextFound | esql/ocsql/ocsql2.cpp:1055-1070 | a value kept behind two bytes of length for V and v, behind four for L and l, or filling its storage, is found by the database from its first character on, with that length |
| MoveStorage.PackedFound | esql/ocsql/ocsql2.cpp:1333-1370 | a packed value is found as 21 characters, its number and blanks |
| MoveStorage.NullSentIff | esql/ocsql/ocsql2.cpp:1159-1162 | a parameter bound as NULL is NULL when it is executed if and only if its value has no length in front of it |
| MoveStorage.PackedTold | esql/ocsql/ocsql2.cpp:1792-1794 | a packed parameter of a CALL that is sent and received is told to be as long as the number of its buffer |
| MoveStorage.ReceivedAll | esql/ocsql/ocsql2.cpp:1443-1461 | however many values are received, each storage gets what its own moves give it and all other storage stays |
| MoveStorage.TextReceived | esql/ocsql/ocsql2.cpp:1178-1216 | what the database delivers at the bound place is in the storage afterwards, behind its length where it has one |
| MoveStorage.PackedReceived | esql/ocsql/ocsql2.cpp:1454-1457 | decimal text delivered for a packed value is in the storage, packed |
| MoveStorage.PaddedRow | esql/ocsql/ocsql2.cpp:1421-1442 | every received row is padded once and its indicator set once, whatever the other rows are |
| MoveRuns.Send | esql/ocsql/ocsql2.cpp:1325-1376 | before an execution every parameter that is sent is with the database as the program keeps it |
| MoveRuns.Receive | esql/ocsql/ocsql2.cpp:1421-1461 | after a fetch every value that came is in the storage of its row as the program keeps it: padded, behind its length, or packed; NULL is blanks, zeros, or zero, and the indicator says which |
| MoveRuns.PreparedFits | esql/ocsql/ocsql2.cpp:1046-1276 | a prepared statement bound as planned has what sending and receiving ask for, with the places it was bound at |
| MoveRuns.CallFits | esql/ocsql/ocsql2.cpp:1522-1741 | and so has a CALL whose parameters all have a direction |
| MoveRuns.RowsArePlaced | esql/ocsql/ocsql2.cpp:1170-1266 | rows bound where they are planned, no two of them written in the same storage, can be padded one by one, since no two have one buffer |
| DatabaseHandles.Dbs.SetCurrentDB | esql/ocsql/ocsql2.cpp:256-274 | a database becomes current under the number it has, or gets the next one; the others keep theirs when the array grows |
| DatabaseHandles.Dbl.Grow | esql/ocsql/ocsql2.cpp:349-358 | making room keeps all handles by name |
| DatabaseHandles.Dbl.Set | esql/ocsql/ocsql2.cpp:349-360 | the map from database names to handles changes at the current name only |
| DatabaseHandles.Dbl.Get | esql/ocsql/ocsql2.cpp:361-371 | what comes back is the handle mapped to the current name, or none |
| DatabaseHandles.Dbl.CheckAll | esql/ocsql/ocsql2.cpp:342-348 | true exactly when there are as many places as databases declared and each has a handle |
| StatementCache.StmtCache.Put | esql/ocsql/ocsql2.cpp:529-551 | the statement is a member, in its bucket, once; the count follows |
| StatementCache.StmtCache.Remove | esql/ocsql/ocsql2.cpp:552-577 | the statement is no member any more, the bucket is linked past it, and its owner points to nothing and is in state N |
| StatementCache.StmtCache.Clear | esql/ocsql/ocsql2.cpp:516-527 | no member is left and every owner points to nothing and is in state N |
| StatementCache.Destroy | esql/ocsql/ocsql2.cpp:455-458 | destroying a statement frees its owner |
| StatementCache.WithoutHolder | esql/ocsql/ocsql2.cpp:562-569 | a chain linked past one holder is the chain without it |
| StatementCache.TidyRemove | esql/ocsql/ocsql2.cpp:552-577 | taking out one holder keeps every other member in its bucket, once |
| StatementCache.TidyAppend | esql/ocsql/ocsql2.cpp:529-551 | a holder appended to the bucket of its hash is found there and was no member before |
| StatementMachine.PreparedOnce | esql/ocsql/ocsql2.cpp:947-958 | in every lawful log two preparations of a statement in the same database have its drop or a clearing between them |
| StatementMachine.ExecutedWasPrepared | esql/ocsql/ocsql2.cpp:1309-1317 | in every lawful log what is executed is a handle prepared for that statement in that database and not given up since |
| StatementMachine.StaysLive | esql/ocsql/ocsql2.cpp:947-958 | a handle stays until its statement is dropped or all are cleared |
| StatementMachine.GoodNext | esql/ocsql/ocsql2.cpp:885-1324 | no operation breaks what is kept: the log is lawful, the handles of every statement are those its log gives it, and the state letters say the truth |
| StatementMachine.GoodRun | esql/ocsql/ocsql2.cpp:885-1324 | so does every run of any operations, and its log only grows |
| StatementMachine.PointsSomewhere | esql/ocsql/ocsql2.cpp:1282-1310 | a statement in state P or Y has something prepared, so execution never follows a null pointer |
| StatementMachine.ConfirmedExecutes | esql/ocsql/ocsql2.cpp:1282-1324 | a confirmed statement executes if and only if the number of the current database is below the maximum declared when it was confirmed, and stays confirmed |
| StatementMachine.ConfirmedIff | esql/ocsql/ocsql2.cpp:342-348 | after any switch to a database within the declared maximum it executes, if and only if the maximum is not above the one it was confirmed under |
| StatementMachine.ConfirmedRun | esql/ocsql/ocsql2.cpp:885-1324 | over every run that neither forces it nor disconnects nor raises the maximum above that, all its executions succeed while the databases are not more than declared |
| StatementMachine.MaximumRaised | esql/ocsql/ocsql2.cpp:317-320 | with two databases declared and known, a statement confirmed under a maximum of one fails in the second, and is not prepared there when the program asks for it |
| StatementForcing.ForcedIsPrepared | esql/ocsql/ocsql2.cpp:939-946 | from any good state with a connection, forcing and preparing a statement gives up all its handles and leaves it the new one in the current database alone, and the next execution uses that |
| StatementForcing.ForcedAndRefused | esql/ocsql/ocsql2.cpp:939-1003 | when the database does not answer, the statement has no handle left and is not executed |
| StatementForcing.FreshIsPrepared | esql/ocsql/ocsql2.cpp:947-956 | a statement in state N keeps the handle it has in the current database or gets one there, is executed with it, and keeps those in other databases |
| StatementForcing.LastDisconnect | esql/ocsql/ocsql2.cpp:885-919 | the last disconnect gives up all handles of all statements, any other none |
| StatementForcing.ConnectionsCounted | esql/ocsql/ocsql2.cpp:882-897 | in any run the runtime counts the connects less the disconnects |
| StatementConnections.UnderIsLive | esql/ocsql/ocsql2.cpp:885-1324 | exactly the live handles of a statement belong to a connection |
| StatementConnections.HandleOpenIff | esql/ocsql/ocsql2.cpp:649-654 | in every lawful log the connection of a handle is open if and only if no disconnect has come between its preparation and the next connect |
| StatementConnections.StaysOpenIff | esql/ocsql/ocsql2.cpp:885-919 | an operation leaves a handle on a closed connection if and only if it is a disconnect that is not the last one and closes a connection that a handle belongs to |
| StatementConnections.OneConnection | esql/ocsql/ocsql2.cpp:649-654 | over every run that connects only when it is not connected all handles belong to open connections |
| StatementConnections.ClosedHandleExecuted | esql/ocsql/ocsql2.cpp:649-654 | connecting twice, preparing, disconnecting and connecting again executes with a handle of a closed connection |
| StatementStates.Runtime.ResetStatement | esql/ocsql/ocsql2.cpp:934-946 | a statement without anything prepared goes to N, a forced one gives up its handles and is free: see ForcedIsPrepared for what that comes to |
| StatementStates.Runtime.Open | esql/ocsql/ocsql2.cpp:947-970 | a statement has something a handle can be kept in, found or made, cached and owned, with room for the current database |
| StatementStates.Runtime.CurrentHandle | esql/ocsql/ocsql2.cpp:361-371 | the handle of the current database, and nothing else of the statement, changes or is found |
| StatementStates.Runtime.PrepareStatement | esql/ocsql/ocsql2.cpp:921-1280 | the runtime's objects go to the state, the answer and the log the machine gives for a preparation, in all cases of state, database and driver |
| StatementStates.Runtime.Confirm | esql/ocsql/ocsql2.cpp:1309-1324 | after an execution in state P the statement is in state Y exactly when it has a handle in each of the databases declared, and in N otherwise |
| StatementStates.Runtime.ExecuteStatement | esql/ocsql/ocsql2.cpp:1282-1324 | the same for an execution: which state follows, which handle is executed, and when it fails |
| StatementStates.Runtime.Drop | esql/ocsql/ocsql2.cpp:939-946 | a forced statement loses its prepared statement and all handles, others keep theirs |
| StatementStates.Runtime.Switch | esql/ocsql/ocsql2.cpp:1948-1979 | the named database is current, under its number or the next one, and no statement is touched |
| StatementStates.Runtime.Connect | esql/ocsql/ocsql2.cpp:874-882 | a connection has a current database, and every connection made counts |
| StatementStates.Runtime.ClearCache | esql/ocsql/ocsql2.cpp:516-527 | every statement that pointed to something is free afterwards, the others are as they were |
| StatementStates.Runtime.Disconnect | esql/ocsql/ocsql2.cpp:885-919 | with the last connection, and only then, all prepared statements go and no statement of the program is left pointing anywhere or prepared |
| StatementStates.Runtime.Step | esql/ocsql/ocsql2.cpp:874-1324 | one operation leaves the objects in the state and gives the answer the machine says |
| StatementStates.Runtime.Run | esql/ocsql/ocsql2.cpp:874-1324 | every run ends in the state, with the answers one by one, and with the log the machine says; the log goes on from where it was and is lawful, and cached statements and pointers of the program correspond one to one with the cache's count |
| Deblank.Text.MoveDown | esql/esqlOC/vcache.h:51-55 | the overlapping copy removes one character and keeps the text terminated |
| Deblank.Text.Deblank | esql/esqlOC/vcache.h:394-433 | the buffer ends up with the treated text although the index steps back; the loop ends because the text from the index on shrinks |
| Deblank.SolidSurvives | esql/esqlOC/vcache.h:394-433 | literals and all non-blank characters survive in order |
| Deblank.WordsSurvive | esql/esqlOC/vcache.h:394-433 | no two words are run together and none is split |
| Deblank.LeftClean | esql/esqlOC/vcache.h:394-433 | no blank is left that the treatment would remove |
| Deblank.DeblankTwice | esql/esqlOC/vcache.h:394-433 | on any text, trimmed or not, a second pass changes nothing |
| VarCache.Cache.Hash | esql/esqlOC/vcache.h:632-642 | the bucket computed in a machine integer is that of the unbounded hash |
| VarCache.HashFits | esql/esqlOC/vcache.h:634-640 | the hash of eight characters never overflows a 32-bit integer |
| VarCache.Cache.Find | esql/esqlOC/vcache.h:660-667 | the holder found is the one mapped to the upper-cased name, or none |
| VarCache.Cache.Put | esql/esqlOC/vcache.h:669-692 | the map changes at the holder's name only, replacing in place or appending, the count is the number of names, and the replaced holder is freed; the table is left with a freed holder if and only if the holder was in it already |
| VarCache.Cache.GetFirstHolder | esql/esqlOC/vcache.h:694-702 | the walk starts at the first holder of the first non-empty bucket |
| VarCache.Cache.GetNextHolder | esql/esqlOC/vcache.h:704-715 | the walk moves on by one holder, and returns none at the end and ever after |
| VarCache.Cache.Walk | esql/esqlOC/vcache.h:694-715 | a walk meets every holder of the table exactly once and ends |
| VarCache.WalkMeetsAll | esql/esqlOC/vcache.h:694-715 | the buckets one after the other hold every mapped holder, without repetition |
| Picture.CountPrec | esql/esqlOC/esqlOC.cpp:1059-1102 | the loop counts what the recursive reading of the picture counts, and refuses what it refuses |
| Picture.PictureCounts | esql/esqlOC/esqlOC.cpp:1059-1102 | for every printed picture, with or without point and with any repeat counts, the count is that of its positions and counts in front of the point and behind it; a count behind no digits is refused |
| Picture.AcceptedIsPicture | esql/esqlOC/esqlOC.cpp:1059-1102 | every text that is accepted is such a picture |
| Picture.NegativeIff | esql/esqlOC/esqlOC.cpp:1081-1101 | an accepted picture has digits of a negative number on either side if and only if its repeat counts take away more than its positions give |
| Picture.HonestIsSensible | esql/esqlOC/esqlOC.cpp:1081-1089 | repeat counts of one and more never do |
| Picture.NumeralReads | esql/esqlOC/esqlOC.cpp:1083-1088 | a repeat count of any size reads back from its numeral |
| Picture.FieldOfPicture | esql/esqlOC/esqlOC.cpp:1284-1286 | the field of an accepted picture has a byte if and only if the picture has no negative number of digits, and then the least number of bytes that hold them |
| Picture.TemporaryCounts | esql/esqlOC/esqlOC.cpp:573-583 | the picture generated for the temporary counts back to all digits of the field with the same scale |
| Picture.DeclaredValueKept | esql/ocsql/ocsql2.cpp:2471-2562 | a value with the declared digits is packed into the field neither rounded nor cut |
| Picture.NegativeRepeat | esql/esqlOC/esqlOC.cpp:1081-1089 | S9(-9) is accepted with minus nine digits, 99(0) with one, 9V9(0) with one and none behind the point |
| GcsortOrder.KeysTransitive | tools/GCSORT/job.c:5558-5610 | comparing field by field, ascending or descending, is transitive when each field's comparison is an order |
| GcsortOrder.KeysDecide | tools/GCSORT/job.c:5600-5608 | a record is put in front of another if and only if, in the first field that tells them apart, it is below it and the field ascends or above it and the field descends; they are equal if and only if no field tells them apart |
| GcsortOrder.KeySortedIff | tools/GCSORT/job.c:5600-5608 | records are sorted by key if and only if of any two of them the first field that tells them apart has them in its direction |
| GcsortOrder.LeTotal | tools/GCSORT/job.c:5558-5624 | with ties broken by what is taken for the position, then by job and position, any two records are ordered |
| GcsortOrder.SortedUnique | tools/GCSORT/job.c:5611-5622 | when positions and jobs tell records apart there is only one sorted sequence of them |
| GcsortBlocks.ThreadJob.SkipStop | tools/GCSORT/gcthread.c:285-313 | a thread's bounds from file size, record length and number of threads |
| GcsortBlocks.SlotsAreSkipped | tools/GCSORT/job.c:3822-3862 | the records skipped in whole slots are never more than those to be skipped, also when the area overflows 32 bits |
| GcsortBlocks.ThreadJob.SkipRecord | tools/GCSORT/job.c:3767-3845 | for sequential files the position moves over all records to be skipped, for line sequential ones it does not |
| GcsortBlocks.ThreadJob.IsMine | tools/GCSORT/job.c:3332-3362 | the records used are those within the bounds, or every one in turn, by a counter that starts at the thread's number |
| GcsortBlocks.ThreadJob.LoadFile | tools/GCSORT/job.c:3216-3574 | the records loaded are those of the thread's share, each at the position of the bytes loaded or skipped before it |
| GcsortBlocks.TakenByOwnerOnly | tools/GCSORT/gcthread.c:285-313 | every record belongs to exactly one thread, in blocks and dealt out, also when there are fewer records than threads |
| GcsortPositions.BlocksMakeFile | tools/GCSORT/gcthread.c:285-313 | the blocks of all threads, one behind the other, are the file |
| GcsortPositions.PoolOfLoaded | tools/GCSORT/job.c:3332-3362 | all threads together load every record of the file once |
| GcsortPositions.PositionsTellApart | tools/GCSORT/job.c:3565-3574 | no two records of a file have the same position and the same job, if none is empty |
| GcsortPositions.PositionIs | tools/GCSORT/job.c:3565-3574 | the position of any record of a file with one record length |
| GcsortPositions.FitsIsInOrder | tools/GCSORT/job.c:3565-3574 | dealt out, or in blocks that fit, records of one length have positions in order |
| GcsortPositions.BlocksInOrderIff | tools/GCSORT/job.c:3767-3845 | when all keys are equal, records in blocks are in order if and only if there is one thread, one block, or no block is longer up to its last record than what skipping it adds |
| GcsortPositions.LinesInOrderIff | tools/GCSORT/job.c:3767-3791 | where skipping adds nothing they are in order if and only if no record stands further back in its block than a later one of its key in another block |
| GcsortPositions.DealtPosition | tools/GCSORT/job.c:3352-3362 | dealt out, a record is at the bytes of the records before it in its own thread's turn |
| GcsortPositions.DealtInOrderIff | tools/GCSORT/job.c:3565-3574 | records of any lengths that are dealt out have positions in order if and only if those bytes are |
| GcsortPositions.LoadedIff | tools/GCSORT/gcthread.c:285-313 | a thread has records if and only if the file reaches its first, so threads without records come last |
| GcsortStability.StableSortKeeps | tools/GCSORT/job.c:5611-5622 | the reference sort leaves the records of every key in their order |
| GcsortStability.SortedIsStableIff | tools/GCSORT/job.c:5611-5622 | records sorted by key, then by whatever is taken for their positions, then by job, are the reference sort if and only if the records of every key stand in that order |
| GcsortStability.StableSortDatas | tools/GCSORT/job.c:5611-5622 | the reference sort depends on the contents of the records only |
| GcsortFinalMerge.Job.ReadFileMem | tools/GCSORT/gcthread.c:992-1024 | the next record of a job, copied with its position over the beginning of an area of which the rest stays, or its end, which repeats |
| GcsortFinalMerge.FinalMerge.BuildStreams | tools/GCSORT/gcthread.c:470-486 | each non-empty job gets one stream, in order |
| GcsortMerge.NonEmptyComplete | tools/GCSORT/gcthread.c:477-486 | a job has a stream if and only if it has records, and never two |
| GcsortMerge.StreamOfItsOwn | tools/GCSORT/gcthread.c:470-486 | when the jobs with records stand in front, each has the slot of its own number |
| GcsortFinalMerge.FinalMerge.FirstReads | tools/GCSORT/gcthread.c:538-551 | every stream shows its first record in its area, and nSumEof counts the slots without one |
| GcsortFinalMerge.FinalMerge.IdentifyBuf | tools/GCSORT/job.c:4798-4825 | the slot found is the first of the smallest by key and by the eight bytes that stand at the output length in the areas |
| GcsortFinalMerge.FinalMerge.Refill | tools/GCSORT/gcthread.c:712-721 | its stream moves on by one record, which is copied over its area, and nSumEof stays the number of finished or unused slots |
| GcsortFinalMerge.FinalMerge.Account | tools/GCSORT/gcthread.c:586-640 | the record is written, or discarded because its key was the last one seen; the counters follow |
| GcsortFinalMerge.FinalMerge.MergeRound | tools/GCSORT/gcthread.c:577-722 | a round keeps the invariant of the merge, what is merged and what the slots will still give being the same in all, and takes exactly one record |
| GcsortFinalMerge.FinalMerge.SaveFinal | tools/GCSORT/gcthread.c:514-722 | for records of any lengths, the merged records are those that the slots give, beginning with any bytes in their areas; what is written follows from them, and written plus discarded is their number |
| GcsortSlots.PositionReadsBack | tools/GCSORT/gcthread.c:1010 | a position of 64 bits comes back from its eight bytes |
| GcsortSlots.SeenOfFull | tools/GCSORT/job.c:5611-5622 | behind a record of the output length the comparison finds its own position |
| GcsortSlots.SeenOfShort | tools/GCSORT/gcthread.c:1004-1010 | behind a record that is shorter by eight bytes or more it finds what it found in the slot before |
| GcsortSlots.SeenOfLong | tools/GCSORT/job.c:5613-5614 | in a record that is longer by as much it finds eight bytes of the record |
| GcsortSlots.BestIsFirst | tools/GCSORT/job.c:4798-4825 | the slot chosen is not greater than any other and smaller than those in front of it |
| GcsortSlots.MergedPermutes | tools/GCSORT/gcthread.c:577-722 | whatever the lengths, every record of the streams is merged once |
| GcsortSlots.MergedKeySorted | tools/GCSORT/gcthread.c:577-722 | whatever the lengths, streams sorted by key are merged into a sequence sorted by key |
| GcsortSlots.MergedOfJob | tools/GCSORT/gcthread.c:577-722 | whatever the lengths, the records of one stream come out in its order |
| GcsortSlots.MergedSorted | tools/GCSORT/gcthread.c:577-722 | when the slots show what the records are ranked by, they come out sorted by key, that rank, and job |
| GcsortSlots.ShortFollows | tools/GCSORT/job.c:5611-5622 | a short record comes out directly behind the record of its key in front of it in its stream |
| GcsortMerge.KeptAreFirsts | tools/GCSORT/gcthread.c:588-600 | comparing with the last key seen keeps exactly the first record of every key |
| GcsortMerge.FirstsCover | tools/GCSORT/gcthread.c:588-600 | every key of the input is the key of a record kept |
| GcsortMerge.FirstsIncrease | tools/GCSORT/gcthread.c:588-600 | the keys kept strictly increase |
| GcsortLaws.MergedIsPermutation | tools/GCSORT/gcthread.c:285-313 | whatever the number of threads and the lengths, the merged records are those of the file, each as often |
| GcsortLaws.MergedByKeys | tools/GCSORT/gcthread.c:514-722 | and they are sorted by key: of any two, the first field that tells them apart has them in its direction |
| GcsortLaws.ThreadsKeepOrder | tools/GCSORT/gcthread.c:514-722 | whatever the lengths, the records of each thread come out among themselves as the stable sort of its share |
| GcsortLaws.OneThreadIsStable | tools/GCSORT/gcthread.c:514-722 | one thread alone puts out the stable sort of the file, whatever the lengths |
| GcsortLaws.MergedIsStableIff | tools/GCSORT/gcthread.c:514-722 | records of the output length are merged by key and position, which is the stable sort of the file if and only if the records of every key have positions in order |
| GcsortLaws.MergedIsStable | tools/GCSORT/gcthread.c:514-722 | it is for records of the output length that are dealt out or in blocks that fit |
| GcsortLaws.SequentialFits | tools/GCSORT/job.c:3833-3835 | blocks of sequential files fit, whatever their size, when records are not loaded longer than they are |
| GcsortLaws.ThreadsDoNotMatter | tools/GCSORT/gcthread.c:514-722 | for records of the output length of sequential files, and of all files that are dealt out, any two numbers of threads and size estimates give the same output, the stable sort of the file |
| GcsortLaws.LinesAreStableIff | tools/GCSORT/job.c:3767-3791 | for line sequential files of fixed format, their records of the output length, exactly which are sorted stably |
| GcsortLaws.LinesOfOneKey | tools/GCSORT/job.c:3767-3791 | such a file of one key keeps its order if and only if there is one thread, one block, or one record to a block |
| GcsortLaws.LinesOvertake | tools/GCSORT/job.c:3767-3791 | four lines of one key and of the output length come out of two threads as 1, 3, 2, 4, and out of one as they were |
| GcsortLaws.SumNoneOutput | tools/GCSORT/gcthread.c:586-640 | with SUM FIELDS=NONE the output is the first merged record of every distinct key, each in front of the next in the direction of the first field that tells them apart; a record that is discarded ties in every field with one that is written |
| GcsortShort.ShortAreStableIff | tools/GCSORT/job.c:5611-5622 | records shorter than the output length by eight bytes or more come out, those of one key, slot by slot in the order of what the slots hold; they are sorted stably if and only if the slots of the threads that load the records of a key are in that order too |
| GcsortShort.ShortBlocksIff | tools/GCSORT/job.c:5611-5622 | in blocks, if and only if the slot of an earlier thread shows no more than that of a later one with records of the same key |
| GcsortShort.ShortDealtIff | tools/GCSORT/job.c:5611-5622 | dealt out, records of one key keep their order if and only if there is one thread, or none has two records and what the slots show increases |
| GcsortShort.FirstLonger | tools/GCSORT/gcthread.c:1004-1010 | records of 10, 1, 1 and 1 bytes of one key come out of two threads as 1, 3, 2, 4 or as 2, 4, 1, 3, by what the slots show after the first |
| GcsortShort.LastLonger | tools/GCSORT/gcthread.c:1004-1010 | of 1, 1, 1 and 10 bytes, their positions are in order and they are never put out in order: they begin with 1, 3 or with 2 |
| GcsortRun.ShareSorted | tools/GCSORT/job.c:5558-5624 | the share of a thread has a sorted arrangement with all its records |
| GcsortRun.SortFile | tools/GCSORT/gcthread.c:285-722 | from the file to the output, for any lengths: the merged records are those of the file, sorted by key, each thread's stably; they are the stable sort of the file with one thread, with records of the output length if and only if their positions are in order, and with short ones if and only if their slots are; the output is then that sort, or the first record of every key of it, and the counters balance; it is in the order of the keys, field by field, each in its direction |
| WindowReader.MappedFile.Seek | tools/GCSORT/mmfioc.c:344-441 | a seek answers and moves as in a plain file, and the window moved to holds the new position |
| WindowReader.MappedFile.Read | tools/GCSORT/mmfioc.c:447-511 | the count is that of a plain read; the bytes arrive up to the end of the next window, all of them when the request is not longer than the window |
| WindowReader.MappedFile.ReadAcross | tools/GCSORT/mmfioc.c:487-508 | a read over the edge joins the end of one window to the beginning of the next without loss |
| WindowReader.MappedFile.Run | tools/GCSORT/mmfioc.c:344-511 | every run of seeks and of reads of at most one window is answered as by the plain file |
| SocketPool.SelectRead | ipc/CBL_GC_SOCKET/cob_socket.cpp:716-778 | the socket found is the first readable one behind the last served, going round |
| SocketPool.Pool.NextRead | ipc/CBL_GC_SOCKET/cob_socket.cpp:945-1020 | the answer of a call, that only a read moves the turn, and that exactly an accepted connection joins |
| SocketPool.TurnAgain | ipc/CBL_GC_SOCKET/cob_socket.cpp:756-775 | serving a socket moves everything behind it up and itself to the end |
| SocketPool.BoundedWaiting | ipc/CBL_GC_SOCKET/cob_socket.cpp:945-1020 | while nobody asks the listener, a connection that stays readable is served within as many calls as there are connections |
| SocketPool.InFrontIsServed | ipc/CBL_GC_SOCKET/cob_socket.cpp:945-1020 | a readable connection in front of the listener is served whatever the listener does |
| SocketPool.BehindIsNotServed | ipc/CBL_GC_SOCKET/cob_socket.cpp:945-1020 | behind a listener that stays readable a connection is never served, whoever joins the connections |
| SocketPool.ListenerDecides | ipc/CBL_GC_SOCKET/cob_socket.cpp:945-1020 | under such a listener a readable connection is ever served if and only if it comes before it in turn, while accepted callers join |

## Left out

- ODBC, libcob, mmap, pthread and socket calls: what they answer is a parameter of the model (handles, refusals, readable sets), their error texts and logging are not modelled.
- Several connections at once through connection handles of the program, and connects that fail: the statement states are those of the main connection, which may be made again while it is open.
- Opening, fetching and closing cursors (OCSQLOCU, OCSQLFTC, OCSQLCCU) and the results of an execution: the state tests of OCSQLOCU are those of OCSQLEXE.
- The build with CANCEL_IS_USED, where statements keep no back-pointer to their owners.
- `esql/ocsql/ocsql390.cpp`: the same codec and binding with statements that are used once.
- PackedDecimalLaws.SendAndFetch: the whole buffer is fetched, padding included; that a database strips the padding is not modelled.
- LiteralReading.ReadBack: the entries SQL-STMT and FILLER, a quote-free beginning shorter than a line, a quoted text and a period; the branch for a blank at the fold outside a literal is modelled in the folding but cannot occur there.
- The entry SQL-CNAME: it is folded like SQL-STMT.
- The braces and direction words of CALL statements, and the MOVE sentences generated around a call for variables with temporaries.
- Groups and overlays in the symbol table: EsqlPasses takes a table from names to the types that are finally used.
- MoveTables.BindPrepared: what is read in front of a table that has fewer rows than there are parameters is not modelled; the method stops there.
- MoveRuns.Receive: values that are cut off because they are longer than the row; the length of a value with a length in front that is also sent, see MoveTables.LengthReturned; received values share no storage, and two- and four-byte numbers have their lowest byte first.
- VarCache.Cache.Put: a holder that has been freed, or that is linked to another without being in the table, is not put in; nothing is said of a table that holds a freed holder.
- VarCache.Cache.GetNextHolder: needs a walk that has been started on a table that is not empty; before that the original reads a pointer that no constructor has set.
- Picture.TemporaryCounts: a field of no size, or with a negative number of decimals, has no temporary here.
- Machine integers: counts, sizes, lengths and file offsets are unbounded; overflow is treated only for the hash of names and for the area GCSORT skips, which is taken to wrap.
- GCSORT's filters, INREC, OUTREC and OUTFIL, SUM FIELDS with totals, the contents of the XSUM file, temporary files and segmented jobs, several input files, SKIPREC and STOPAFT.
- The comparison of single sort fields and the library sort inside a thread: the comparison of a field is assumed to be an order, and a thread's records are put into their one sorted arrangement.
- GcsortFinalMerge.FinalMerge.SaveFinal: records are not empty, and the sort fields lie within every record, so that nothing left in a slot is compared as a key; the length in front of a record in its slot is not modelled.
- GcsortLaws.MergedIsStableIff: positions fit into the signed 64 bits they are kept in. For records that are neither of the output length nor shorter by eight bytes or more, only the laws for any lengths and the merge itself are given.
- GcsortBlocks.ThreadJob.LoadFile: a file that ends inside a slot that is skipped has no records behind it; records are at most as long as a slot.
- WindowReader.MappedFile.Run: requests of at most one window; for longer ones Read states what is delivered.
- Failures of mapping, the lengths of unmappings, and seeking reads.
- SocketPool.ListenerDecides: no caller gets the number of the listener, or that of the last connection served after it was closed.
- SocketPool.Pool.NextRead: errors of waiting and the transfer of data; the set of sockets is an ascending sequence.
