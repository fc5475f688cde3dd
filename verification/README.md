# JoyDB: a verified model

JoyDB is a small relational database: tables held in memory with hash indexes, a SQL front end, hash joins, and JSON
files on disk. This project models the parts whose correctness is not obvious from reading one function, and proves
what the parts are for.

* **Tables** (`Table.dfy`, `TableSpec.dfy`, `TableLaws.dfy`, `OperationLaws.dfy`, `HashIndex.dfy`, `Indexing.dfy`).
  `Tables.Table` is the
  object with its fields updated in place: row maps shared by reference, one index object per indexed column, the
  auto-increment counter, the dirty flag. Every method is proved to take the table, read as a value, to the value that
  `TableSpec` gives; `OperationLaws` says what that value is, row by row and cell by cell, and `TableLaws` proves what
  whole runs of Insert, Update and Delete keep.
* **Joins** (`JoinSpec.dfy`, `Join.dfy`, `JoinRows.dfy`, `JoinLaws.dfy`, `JoinEquality.dfy`, `OnQualifiers.dfy`). The
  hash joins return the nested loop's rows in the nested loop's order; the laws are about the nested loop, and so about
  the joins. `JoinRows` says which pairs and rows those are, in which order and with which cells.
* **SQL front end** (`Tokens.dfy`, `Lexer.dfy`, `LexerLaws.dfy`, `SpellingLaws.dfy`, `Ast.dfy`, `Parser.dfy`,
  `Grammar.dfy`, `SelectGrammar.dfy`, `Printer.dfy`, `PrintText.dfy`, `PrintSelect.dfy`, `SelectLaws.dfy`). The lexer
  and
  parser objects refine functions on texts and token lists; those are proved against a grammar of concrete syntax trees
  for expressions and for whole SELECT statements, in both directions, and against the printers.
* **SELECT** (`Predicates.dfy`, `Projection.dfy`, `Planner.dfy`, `Executor.dfy`, `QueryLaws.dfy`, `AnswerLaws.dfy`,
  `RelationalJoin.dfy`, `JoinChains.dfy`, `Engine.dfy`, `TextLaws.dfy`). Planning and executing a statement gives what
  the statement means, from its text on. `AnswerLaws` reads the answer off the statement: which rows, in which order,
  with which cells. With no or one JOIN the rows are those of a scan or of one nested loop. With more they are those of
  the executor's chain of nested loops, and `JoinChains` says exactly when that chain is the joins it stands for.
* **Storage** (`StorageSpec.dfy`, `LoadLaws.dfy`, `Opening.dfy`, `Disk.dfy`, `Storage.dfy`, `Registry.dfy`,
  `RegistryLaws.dfy`). What a load accepts, what a save that stops half-way leaves on disk, what a save and a load
  change, when a saved table can be opened again, and the registry as a cache over a plain map of databases.
* **Comparison** (`Comparison.dfy`, `ComparisonLaws.dfy`). WHERE compares integers after conversion to binary64 with
  rounding to nearest, ties
  to even (section 4.3.1 of IEEE 754-2019); indexes and joins compare tagged Go values.

## Where the code falls short

The code is modelled as it is. Where a property one would expect fails, one lemma says exactly when it holds and
another gives an input for which it does not.

| what fails | exactly when | a concrete input |
|---|---|---|
| An Update naming a known and an unknown column can return an error after it has written some cells, without rebuilding any index. | Nothing written: `TableLaws.AbortUnchanged`. Indexes still right: `TableLaws.AbortConsistent` | `TableLaws.AbortedUpdateWrites`, `TableLaws.AbortedUpdateStale` |
| An Update that is refused after it has written leaves a table that is not marked to be saved. | `OperationLaws.ChangedIsDirty` | `TableLaws.AbortedUpdateWrites` |
| An integer literal is looked up in an index as int64 and misses a cell stored as Go `int`. | `OperationLaws.SearchExact` | `StorageSpec.NumericTwins` |
| An Update can give two rows the same value in a unique column. | `TableLaws.UpdateUniqueIff` | `TableLaws.UpdateMakesDuplicates` |
| Insert advances the counter before it checks the row, so a refused insert can use up an id. | `TableLaws.InsertAllOrNothing` | `TableLaws.RefusedRowCounts` |
| The id after the last int64 wraps around. | `TableLaws.CounterFallsIff` | `TableLaws.RefusedRowCounts` |
| Among int64 cells, `=` in WHERE and key equality differ for integers that share their float64 with another. | `Comparison.EqualityIsKeyEquality` | `Comparison.TwoKeysOneFloat` |
| A number stored as Go `int` (by a SQL INSERT) and as `int64` (by a load) is equal in WHERE and two keys in a join. | `Comparison.TagsDecide`, `JoinEquality.JoinIsWhereEquality` | `JoinEquality.MixedTagsJoin` |
| From the second JOIN on, a row that an outer join pads comes out under names qualified twice; from the third on, an ON column of a table before the last one joined is looked up under a name that no row has. | `JoinChains.ChainIff`, `JoinChains.SelectRelational` | `JoinChains.SecondLeftJoin`, `JoinChains.ThirdJoinEmpty` |
| A cell may come back from a save and a load changed: an integer that is no float64, an integer in a FLOAT column or outside the schema. | `StorageSpec.SaveLoadIff` | `StorageSpec.RoundedTwins`, `StorageSpec.IntegersTurnFloat` |
| A table without duplicates is saved, loaded, and can no longer be indexed. | `StorageSpec.ReloadBuildableIff`, `Opening.ReopensIff` | `StorageSpec.NumericTwins` (one number as Go `int` and `int64`), `StorageSpec.RoundedTwins` |
| A saved table loads with an id above its counter, interrupted or not. | `Disk.InterruptedSaveBounded` | `Disk.RoundedId` |
| The index of an auto-increment FLOAT column is built under truncated keys and disagrees with the rows. | `Opening.OpenedConsistentIff` | `Opening.CutKey` |
| A cached database answers Get until it is renamed, and then cannot be loaded. | `Registries.RenameCloses` | `Registries.TwinsClose` |
| The planner ignores the table names in an ON condition: the left name is looked up in the left table whatever it says. | `OnQualifiers.QualifiersIgnored` | `OnQualifiers.ReversedOn` |
| `Literal.String()` prints a string literal without its quotes, so printed text does not parse back. | `PrintText.TextRoundTripIff`, `SelectLaws.SelectTextIff` | `PrintText.LostQuotes` |
| `and` and `or` are read in any case, but the predicate builder accepts only capital letters. | `Predicates.BuildMeaning` | `Engine.LowerCaseAnd` |

SQL_REFERENCE.md limits a query to one JOIN, while the parser and planner take any number; the planner labels every
join "nested_loop", while the executor hashes. The model follows the code.

## Preconditions

* Update's uniqueness: updates that leave unique columns alone, or the exact condition in `UpdateUniqueIff`.
* Joins: qualifying the columns of one row must not make two of them equal (`JoinSpec.Joinable`, `Executor.Mergeable`);
  otherwise Go's map iteration order decides the result. Names without dots always satisfy this
  (`Executor.UndottedMergeable`).
* The mirror laws also need two different table names (`JoinLaws.NamesApart`).
* Stored indexes agree with the rows where a join reuses them; `Opening.OpenedRun` provides that from the moment a table
  is opened.
* The bound on ids after a save: an INT auto-increment column, the only kind whose drawn ids Insert accepts and a load
  reads back.
* Save and load: different column names. Rows may hold any cells, those without a column included.
* Several joins: no dot in the names of tables and columns (`JoinChains.PlainData`), and none in the column names of ON
  (`JoinChains.PlainClauses`), which `TextLaws.ParsedPlain` gives for every statement that was parsed.

## Model

| member | source | states |
|---|---|---|
| Comparison.RoundMonotone | internal/util/types/comparison.go:60-70 | Converting integers to float64 keeps their order, and changes none up to magnitude 2^53. |
| Comparison.RoundIdempotent | internal/util/types/comparison.go:60-70 | A float64 is converted to itself. |
| Comparison.ComparisonFollowsOrder | internal/util/types/comparison.go:6-24 | On int64 cells no comparison contradicts the order of the integers, and within 2^53 less-than is that order. |
| Comparison.EqualityIsKeyEquality | internal/util/types/comparison.go:6-24 | Among int64 cells, `=` with a given cell agrees with key equality against every other if and only if its integer is below 2^53 in magnitude or lies between 2^53 and 2^54 and is 2 modulo 4. |
| Comparison.TagsDecide | internal/util/types/comparison.go:6-24 | For an integer with a float64 of its own, `=` and key equality agree with a second integer if and only if the two do not hold one number as Go `int` and as `int64`. |
| Comparison.TwoKeysOneFloat | internal/util/types/comparison.go:6-24 | 2^53 and 2^53 + 1 are equal in WHERE and different keys. |
| Comparison.Collision | internal/util/types/comparison.go:60-70 | Every other int64 shares its float64 with a second int64. |
| ComparisonLaws.NumberOperators | internal/util/types/comparison.go:6-24 | Between numbers each of the seven operators is the relation it spells, where an integer counts as its nearest float64. |
| ComparisonLaws.DenotesInteger | internal/util/types/comparison.go:60-70 | Up to 2^53 that is the integer itself. |
| ComparisonLaws.StringOperators | internal/util/types/comparison.go:27-44 | Between strings `<` is decided by the first position that differs or a proper prefix, and is a strict total order. |
| ComparisonLaws.OperatorsRelated | internal/util/types/comparison.go:6-24 | `!=` and `<>` negate `=`, `>` and `>=` turn `<` and `<=` round, and `<=` is `<` or `=` on values that can be compared. |
| ComparisonLaws.Incomparable | internal/util/types/comparison.go:6-24 | Values of different kinds, Booleans and NULL are equal when they are the same, and never ordered. |
| ComparisonLaws.OtherOperators | internal/util/types/comparison.go:6-24 | Any other operator is false of all values. |
| ComparisonLaws.WholeExact | internal/util/types/comparison.go:73-85 | A value counts as an int64 if and only if it is that integer, as Go `int`, `int64` or float64. |
| ComparisonLaws.TruncateExact | internal/util/types/comparison.go:73-85 | Truncation drops the fraction; out of range it gives the smallest int64. |
| HashIndex.IndexExact | internal/domain/schema/table.go:364-378 | The index built row by row maps each value to exactly the strictly ascending positions of the rows holding it. |
| HashIndex.DistinctInIndex | internal/query/indexing/builder.go:69-78 | A column has no duplicates if and only if every index entry has one position. |
| HashIndex.DistinctStep | internal/domain/schema/table.go:134-151 | Appending a row keeps a column free of duplicates if and only if the index lacks the row's value. |
| Tables.RowMap.Copy | internal/domain/data/row.go:26-35 | A new row map with the same cells. |
| Tables.Table.Insert | internal/domain/schema/table.go:61-170 | The whole new table as a function of the old one and the row, the error it reports, and that the row map stored is a new one. |
| Tables.Table.AssignId | internal/domain/schema/table.go:72-126 | The row and counter after the id is drawn or checked, or the error with the counter unchanged. |
| Tables.Table.CheckUnique | internal/domain/schema/table.go:133-151 | No error exactly when no unique index holds a value of the row; any error names a column that conflicts. |
| Tables.Table.Append | internal/domain/schema/table.go:153-167 | The row is last and is entered into every index at its position. |
| Tables.Table.EnterRow | internal/domain/schema/table.go:159-164 | One row entered into every index at its position, in whatever order the indexes come. |
| Tables.Table.ValidateRow | internal/domain/schema/table.go:310-335 | The error of the first column that objects, and none exactly when no column does. |
| Tables.Table.SelectAll | internal/domain/schema/table.go:173-184 | The table's own row maps, in order. |
| Tables.Table.Select | internal/domain/schema/table.go:187-202 | The rows that match, all of them, each once and in order, which are the table's own row maps. |
| Tables.Table.SelectByIndex | internal/domain/schema/table.go:206-230 | The row at the first position of the normalised key in a unique index, and not found exactly when there is no unique index or no position. |
| Tables.Table.Update | internal/domain/schema/table.go:234-276 | Success exactly when no row matches or all columns are known; then the count is the number of matching positions, each matching row has its new cells and its old other ones, every other row is as it was, and indexes are rebuilt; otherwise a first matching row partly written and nothing rebuilt. |
| Tables.Table.OverwriteMatching | internal/domain/schema/table.go:242-267 | The count, and each matching row with its new cells and its old other ones and every other row as it was; or the first matching row partly written and every other row untouched, which needs that no two rows share a map. |
| Tables.Table.OverwriteCells | internal/domain/schema/table.go:246-264 | One row gets all new cells, or in some order those before an unknown column. |
| Tables.Table.Delete | internal/domain/schema/table.go:280-306 | The count is the number of matching positions; the rows that do not match are left, all of them, in order, with rebuilt indexes; or no change at all when nothing matches. |
| Tables.Table.Unmatched | internal/domain/schema/table.go:288-297 | The rows at the ascending positions of exactly those that do not match, still unaliased. |
| Tables.Table.RebuildIndexes | internal/domain/schema/table.go:364-378 | Afterwards every index is the index of the current rows. |
| TableSpec.KeptExact | internal/domain/schema/table.go:288-297 | The rows a Delete keeps are those at the strictly ascending positions of exactly the rows that do not match. |
| TableSpec.SelectedExact | internal/domain/schema/table.go:187-202 | The same for the rows that match and a Select. |
| TableSpec.UpdatedExact | internal/domain/schema/table.go:242-267 | A matching row has exactly its old and new columns, the new cells, and its old cell in every other column; other rows are as they were. |
| TableSpec.PartlyExact | internal/domain/schema/table.go:246-264 | A row that an aborted Update has written has some of the new cells, all of known columns, and its old cell in every other column. |
| TableSpec.CountExact | internal/domain/schema/table.go:242-267 | The counts of Update and Delete are the number of positions that match. |
| OperationLaws.NumberedExact | internal/domain/schema/table.go:72-126 | With an auto-increment key, the first column that is both, a row is stored with the integer it brings if that is above the counter, or with the next one; without, as it is, if it has the first primary key. |
| OperationLaws.NumberErrors | internal/domain/schema/table.go:72-126 | An id that is no integer, an id not above the counter, or a primary key that is missing: which error, exactly when. |
| OperationLaws.RowErrorExact | internal/domain/schema/table.go:310-335 | A row is refused by the first column whose required cell is missing or whose INT, FLOAT, TEXT or BOOL cell is of another type, and by none exactly when all suit. |
| OperationLaws.InsertExact | internal/domain/schema/table.go:61-151 | Insert accepts exactly the rows that can be numbered and, with their number, suit all columns and repeat no value of a unique index. |
| OperationLaws.TakenExact | internal/domain/schema/table.go:133-151 | Where indexes agree with the rows, a value is taken if and only if some row holds it. |
| OperationLaws.InsertedExact | internal/domain/schema/table.go:153-167 | The row is stored last, every index gets its position under its value and nothing else, and the table is to be saved. |
| OperationLaws.RefusedExact | internal/domain/schema/table.go:110-151 | A numbered row is refused by the first column it does not suit, and otherwise by a value that is taken; only the counter moves. |
| OperationLaws.UpdatedTable | internal/domain/schema/table.go:234-276 | When an Update is accepted, the cell-wise rows, the rebuilt indexes and the flag; nothing changes when nothing matches. |
| OperationLaws.DeletedTable | internal/domain/schema/table.go:280-306 | The same for Delete. |
| OperationLaws.ChangedIsDirty | internal/domain/schema/table.go:246-273 | A table whose rows have changed is marked to be saved, unless a refused Update changed them, which leaves the mark as it was. |
| OperationLaws.SearchExact | internal/domain/schema/table.go:206-230 | The lookup of an integer literal finds exactly the rows that hold it as int64. |
| Indexing.BuildIndexes | internal/query/indexing/builder.go:14-91 | Succeeds exactly when BuildableExact says so; then exactly the indexes of the columns declared primary key or unique are attached, in new objects; otherwise the indexes of the columns before the first that fails, and an error naming rows of it that really break the rule it names. |
| Indexing.BuildIndex | internal/query/indexing/builder.go:32-86 | The same for one column: success if and only if the rows allow it, and then the index of its normalised keys; else the rows reported break the rule. |
| TableLaws.RunConsistent | internal/domain/schema/table.go:61-306 | From a table whose indexes agree with its rows, which OpenedConsistentIff provides, they agree after any run of Insert, Update and Delete in which no aborted Update writes an indexed column. |
| TableLaws.AbortConsistent | internal/domain/schema/table.go:246-264 | An Update with an unknown column leaves the indexes right, in whatever order it writes, if and only if the first matching row already holds the new values of the indexed known columns. |
| TableLaws.AbortUnchanged | internal/domain/schema/table.go:246-264 | It leaves the table as it was, in whatever order it writes, if and only if the first matching row already holds the new values of all known columns. |
| TableLaws.AbortedUpdateStale | internal/domain/schema/table.go:246-264 | An Update of a unique id and an unknown column can leave the index naming the old id and not the new one. |
| TableLaws.AbortedUpdateWrites | internal/domain/schema/table.go:246-264 | An Update of an unindexed name and an unknown column can fail after it has changed the name. |
| TableLaws.FirstOfScan | internal/domain/schema/table.go:206-230 | On a consistent table the first indexed position is the first row of a scan for the key, and there is none exactly when the scan finds none. |
| TableLaws.RunUnique | internal/domain/schema/table.go:128-169 | From a consistent table without duplicates, which OpenedConsistentIff provides, no two rows ever hold the same value in a unique column, over runs whose updates leave unique columns alone. |
| Opening.OpenedConsistentIff | internal/query/indexing/builder.go:14-91 | An opened table has a unique index for each column declared primary key or unique and no other index, no duplicates in those columns, and indexes that agree with its rows if and only if no auto-increment FLOAT column holds a cell. |
| Opening.OpenedRun | internal/domain/schema/table.go:61-306 | From an opened table on, after any run, the indexes are those of the columns declared primary key or unique, agree with the rows and may be used by joins, and those columns have no duplicates. |
| Opening.CutKey | internal/query/indexing/builder.go:42-46 | An auto-increment FLOAT key holding 1.5 opens with an index that disagrees with its row. |
| LoadLaws.BuildableExact | internal/query/indexing/builder.go:14-91 | Indexes can be built if and only if in each column declared primary key or unique required cells are there, auto-increment keys are numbers, and no two rows have one key. |
| LoadLaws.OpenedIndex | internal/query/indexing/builder.go:32-86 | The index of such a column lists for each key exactly the rows whose cell is entered as it, in order; floats of auto-increment keys are entered as their whole part. |
| Opening.ReopensIff | internal/storage/loader/table.go:31-74 | Any saved table with different column names can be opened again if and only if every cell and row of it loads and no two cells of an indexed column become one key, a condition on the table before the save. |
| Opening.RunReopensIff | internal/storage/loader/table.go:31-74 | The same for the table after any number of operations of any run from an opened table. |
| TableLaws.UpdateUniqueIff | internal/domain/schema/table.go:242-267 | An Update that writes a unique column keeps it unique if and only if at most one row matches or already holds the value. |
| TableLaws.UpdateMakesDuplicates | internal/domain/schema/table.go:242-267 | One Update gives two rows the same primary key. |
| TableLaws.InsertAllOrNothing | internal/domain/schema/table.go:110-169 | A refused row changes nothing but the counter, and moves that if and only if it has no id yet or an integer above the counter; an accepted row is appended. |
| TableLaws.RefusedRowCounts | internal/domain/schema/table.go:110-131 | A row without its required name is refused and leaves the counter one higher, or at the smallest int64 after the largest. |
| TableLaws.CounterFallsIff | internal/domain/schema/table.go:81-112 | Insert lowers the counter if and only if it draws an id at the last int64. |
| TableLaws.RunIds | internal/domain/schema/table.go:81-112 | Along a run the counter never decreases, ids stay at most the counter, and new ids appear only above it. |
| TableLaws.FreshIds | internal/domain/schema/table.go:81-112 | A successful insert gets an id greater than every id present at any earlier time. |
| TableLaws.NoReuse | internal/domain/schema/table.go:280-306 | An id that was present and is gone never comes back. |
| TableLaws.Attempt | internal/domain/schema/table.go:81-151 | From a table whose counter lags, one insert without an id succeeds exactly when the next id is free, and otherwise moves the counter past one taken id. |
| TableLaws.LaggingCounterRecovers | internal/domain/schema/table.go:81-151 | Such inserts succeed after at most as many failures as there are rows with an id above the counter. |
| JoinSpec.FilterConcat | internal/query/operations/join/executor.go:112-122 | Filtering joined rows piece by piece is filtering them all. |
| JoinSpec.ResolveColumn | internal/query/operations/join/helpers.go:26-48 | The first column with the name or a qualified name that ends in it, and none exactly when no column has. |
| Join.BuildJoinIndex | internal/query/operations/join/helpers.go:102-119 | A stored index that agrees with the rows and a newly built one are the same index. |
| Join.CombineRows | internal/query/operations/join/helpers.go:122-149 | A matching pair merged under qualified names, in any order of the map loop. |
| Join.CombineRowsWithNull | internal/query/operations/join/types.go:39-76 | Both rows under qualified names, with NULL in every column of a table whose row is missing. |
| Join.AddPadded | internal/query/operations/join/types.go:47-73 | One side: the row's cells under the table's name, or NULL in every column when it has none. |
| Join.ProbeFacts | internal/query/operations/join/executor.go:97-128 | Following the index positions of a left row's value gives exactly the right rows that match it, in order. |
| Join.ProbePhase | internal/query/operations/join/executor.go:280-300 | The filtered matching pairs in left-then-right order, and maps that hold exactly the matched left and right positions, filtered out or not. |
| Join.ProbeRow | internal/query/operations/join/executor.go:290-298 | One left row against its positions: the filtered pairs in order, and every position marked as matched. |
| Join.UnmatchedLeftPhase | internal/query/operations/join/executor.go:302-310 | The filtered padded rows of exactly the left rows without a match, in order. |
| Join.UnmatchedRightPhase | internal/query/operations/join/executor.go:312-320 | The filtered padded rows of exactly the right rows without a match, in order. |
| Join.RunJoin | internal/query/operations/join/executor.go:71-329 | Each of the four hash joins returns the nested loop's rows that pass the predicate, in the nested loop's order, whether it reuses a stored index or builds one. |
| JoinRows.JoinExact | internal/query/operations/join/executor.go:71-329 | The nested loop's rows are the merged rows of exactly the pairs that hold one value in the join columns, by left and then right position; then for LEFT and FULL the padded rows of exactly the left rows without a partner, in order; then for RIGHT and FULL those of the right rows. |
| JoinRows.MergedCells | internal/query/operations/join/helpers.go:122-149 | A merged pair has the cells of both rows under their tables' names and no other. |
| JoinRows.PaddedCells | internal/query/operations/join/types.go:39-76 | A padded row has the cells of its row, NULL in all columns of the other table, and no other. |
| JoinRows.AnswersExact | internal/query/operations/join/helpers.go:26-48 | A column answers to its name, and a qualified one to the name after a dot. |
| Join.ValidateJoinCondition | internal/query/operations/join/helpers.go:13-85 | The full names of the first column of each table that answers to the given name, with equal types; or an error: left missing exactly when no left column answers, then right missing, then types that differ. |
| Join.FindJoinColumn | internal/query/operations/join/helpers.go:28-38 | The first column that answers to the name, with none before it, and none exactly when no column answers. |
| Join.ExecuteJoin | internal/query/operations/join/executor.go:19-68 | The condition's error, or the filtered nested loop of the resolved condition. |
| JoinLaws.JoinMirror | internal/query/operations/join/executor.go:71-329 | RIGHT JOIN is LEFT JOIN with tables and condition swapped, INNER and FULL are symmetric: the same rows equally often, for every predicate. |
| JoinLaws.ResolveMirror | internal/query/operations/join/helpers.go:13-85 | Swapping tables and columns swaps what a condition resolves to, and one resolves exactly when the other does. |
| JoinLaws.Exchange | internal/query/operations/join/executor.go:97-128 | Enumerating the matches by left rows and by right rows lists the same joined rows. |
| JoinLaws.JoinSizes | internal/query/operations/join/executor.go:71-329 | INNER has, summed over the keys, left count times right count rows, and FULL has LEFT plus RIGHT minus INNER. |
| JoinLaws.LeftJoinUnique | internal/query/operations/join/executor.go:136-194 | Onto a column without duplicates LEFT JOIN gives exactly one row for each left row: with its one match, or padded. |
| JoinEquality.JoinIsWhereEquality | internal/query/operations/join/executor.go:97-128 | Over integers with float64s of their own, INNER finds the pairs that the `=` of WHERE accepts if and only if no number stands in one join column as Go `int` and in the other as `int64`. |
| JoinEquality.MixedTagsJoin | internal/util/types/conversion.go:14-17 | A user and an order hold the number 1 as `int64` and as `int`: `=` accepts the pair and the join is empty. |
| OnQualifiers.QualifiersIgnored | internal/planner/planner.go:105-146 | Between two tables a condition means what its table names say if and only if they are in FROM-then-JOIN order, or reversed around one column name. |
| OnQualifiers.ReversedOn | internal/planner/planner.go:105-146 | A reversed condition names a pair that matches, while the planned join of the same two tables is empty. |
| LexerLaws.ScanComplete | internal/parser/lexer/lexer.go:147-228 | A well-formed token followed by text that does not continue it is read back whole. |
| LexerLaws.ScanSound | internal/parser/lexer/lexer.go:147-280 | Every token read is well formed, maximal, and spelled out by the text it took; only a string may lack its closing quote, at the end. |
| LexerLaws.TokenizeStep | internal/parser/lexer/lexer.go:302-316 | White space and a spelled token in front of a text add exactly that token to the text's tokens. |
| LexerLaws.SpacedRoundTrip | internal/parser/lexer/lexer.go:302-316 | Any list of well-formed tokens written with single spaces is read back with the same types and literals. |
| LexerLaws.TokensCover | internal/parser/lexer/lexer.go:302-316 | An accepted text is its tokens in order, each spelled out, with nothing but white space between them, up to the end or a NUL. |
| SpellingLaws.WellFormedExact | internal/parser/lexer/lexer.go:147-280 | The tokens are exactly words of letters, underscores and digits, numbers with at most one dot between digits, texts without quotes or NUL, and the symbols. |
| SpellingLaws.CharactersExact | internal/parser/lexer/lexer.go:293-299 | Which characters are letters, digits and white space. |
| SpellingLaws.KeywordsExact | internal/parser/lexer/lexer.go:70-108 | A word is the keyword it spells in any mixture of cases, for each of the thirty keywords, and otherwise a name. |
| SpellingLaws.TypedKeywordsExact | internal/parser/literal.go:14-121 | Exactly DATE, TIME and EMAIL may be column names. |
| SpellingLaws.SymbolsExact | internal/parser/lexer/lexer.go:147-228 | The text or texts of each symbol. |
| SpellingLaws.ComparisonsExact | internal/parser/expression.go:65-98 | The texts the parser reads as comparisons are exactly the operators that WHERE knows. |
| SpellingLaws.TextCase | internal/parser/lexer/lexer.go:286-291 | Folding a text to one case changes the case of each letter and nothing else. |
| Lexers.Lexer.ReadChar | internal/parser/lexer/lexer.go:129-138 | Drops one character from the text that is left. |
| Lexers.Lexer.NextToken | internal/parser/lexer/lexer.go:147-228 | The object returns the first token of the text that is left and leaves the rest. |
| Lexers.Lexer.SkipWhitespace | internal/parser/lexer/lexer.go:231-239 | Drops the longest run of white space. |
| Lexers.Lexer.ReadIdentifier | internal/parser/lexer/lexer.go:241-247 | Takes the longest run of letters, digits and underscores. |
| Lexers.Lexer.ReadNumber | internal/parser/lexer/lexer.go:249-262 | Takes digits, and a dot only if a digit follows it. |
| Lexers.Lexer.ReadString | internal/parser/lexer/lexer.go:264-280 | Takes everything up to a quote, a NUL or the end, and the quote. |
| Lexers.Tokenize | internal/parser/lexer/lexer.go:302-316 | All tokens of the text, or nothing if a character is illegal. |
| Parsers.Parser.constructor | internal/parser/parser.go:20-26 | After two advances the cursor stands on the first token. |
| Parsers.Parser.Advance | internal/parser/parser.go:29-37 | One shift of the two tokens, with EOF once the list is used up. |
| Parsers.Parser.NextToken | internal/parser/parser.go:29-37 | The two-token cursor drops exactly one token, and stays at the end. |
| Parsers.Parser.ParseOrExpression | internal/parser/expression.go:21-40 | The object returns what the parsing function gives for the tokens left, and leaves the tokens it leaves. |
| Parsers.Parser.ParseAndExpression | internal/parser/expression.go:42-61 | The same for AND chains. |
| Parsers.Parser.ParseComparisonExpression | internal/parser/expression.go:65-98 | The same for comparisons and parentheses. |
| Parsers.Parser.ParseAtom | internal/parser/literal.go:14-121 | The same for atoms, including keywords that are names or introduce typed literals. |
| Parsers.Parser.ParseIdentifierList | internal/parser/identifier.go:14-63 | The same for select lists. |
| Parsers.Parser.ParseQualifiedIdentifier | internal/parser/identifier.go:66-94 | The same for one select list item, folded to lower case. |
| Parsers.Parser.ParseJoin | internal/parser/statement_select.go:70-126 | The object returns what the parsing function gives, which is what SelectIsGrammar derives, for one join clause. |
| Parsers.Parser.ParseSelect | internal/parser/statement_select.go:12-67 | The same for whole SELECT statements. |
| Grammar.OrComplete | internal/parser/expression.go:16-98 | The tokens of every tree of or := and (OR and)\*, and := cmp (AND cmp)\* are parsed to that tree's left-associated expression, leaving exactly the following tokens. |
| Grammar.OrSound | internal/parser/expression.go:16-98 | Whatever is accepted is the token list of such a tree with that expression. |
| Grammar.ParserIsGrammar | internal/parser/expression.go:16-98 | The parser returns an expression and rest if and only if the grammar derives them. |
| SelectGrammar.SelectIsGrammar | internal/parser/statement_select.go:12-126 | The parser returns a SELECT statement and rest if and only if the grammar of whole statements derives them: each optional parenthesis, JOIN alone for an inner join, a kind before it, OUTER after any kind, WHERE, and the semicolon. |
| SelectGrammar.SelectComplete | internal/parser/statement_select.go:12-126 | The tokens of every statement tree are parsed to its statement, leaving exactly the following tokens. |
| SelectGrammar.SelectSound | internal/parser/statement_select.go:12-126 | Whatever is accepted is the token list of such a tree with that statement. |
| Printer.PrintedParses | internal/parser/ast/operators.go:14-31 | Parsing the tokens of an expression, parenthesised as the printer does or as little as precedence allows, gives back the expression and leaves the following tokens. |
| Printer.PrintedTextParses | internal/parser/ast/operators.go:14-31 | The same through the lexer. |
| Printer.ParsedPrintable | internal/parser/literal.go:14-121 | Every expression parsed from lexed tokens is one that can be printed. |
| Printer.PrintStable | internal/parser/ast/operators.go:14-31 | For every text that parses, printing and parsing again gives the same expression. |
| PrintText.TextTokens | internal/parser/ast/operators.go:14-31 | The text String() prints for an expression without string literals is lexed to the expression's printed tokens. |
| PrintText.QuotesBound | internal/parser/lexer/lexer.go:264-280 | Twice the number of string tokens of a text is at most the number of its quotes plus one. |
| PrintText.TextRoundTripIff | internal/parser/ast/expressions.go:43 | The printed text of an expression parses to it if and only if it has no string literal. |
| PrintText.LostQuotes | internal/parser/ast/expressions.go:43 | `name = 'x'` is printed as a text that parses to a comparison of two columns. |
| PrintSelect.SelectParses | internal/parser/ast/statements.go:16-57 | The tokens of a printed SELECT, with or without a semicolon, parse to that statement with nothing left. |
| PrintSelect.SelectTextParses | internal/parser/ast/statements.go:16-57 | The text String() prints for a SELECT without string literals is lexed to its tokens and parsed to the statement. |
| SelectLaws.SelectLeaves | internal/parser/statement_select.go:12-126 | Every SELECT parsed from lexed tokens can be printed, and each of its quoted literals took a string token. |
| SelectLaws.SelectPrintStable | internal/parser/ast/statements.go:16-57 | For every text that parses to a SELECT, the printed tokens of that SELECT parse to it. |
| SelectLaws.SelectTextIff | internal/parser/ast/statements.go:16-57 | The text String() prints for a SELECT parses to it if and only if it has no string literal. |
| Predicates.BuildMeaning | internal/planner/predicate/builder.go:20-104 | The builder accepts exactly comparisons of a column with a literal under AND and OR in capitals, and the closure it builds tells the truth of the expression for every row. |
| AnswerLaws.ComparisonTrue | internal/planner/predicate/builder.go:20-91 | A comparison is true of a row if the cell its name stands for, the qualified one before the plain one, is there and compares. |
| AnswerLaws.LogicalTrue | internal/planner/predicate/builder.go:93-103 | AND and OR of two conditions. |
| AnswerLaws.WhereRefused | internal/planner/predicate/builder.go:20-104 | The error of an expression that is no condition: the first reason from left to right. |
| Projections.ProjectJoinedRow | internal/query/operations/projection/projector.go:47-94 | Exactly the requested columns the row has, each taken from the cell of that name or, unqualified, from a cell whose name ends in it. |
| Projections.FindSource | internal/query/operations/projection/projector.go:56-77 | A cell the request may be taken from, and none exactly when there is no such cell. |
| Projections.ProjectionUnique | internal/query/operations/projection/projector.go:66-78 | When no requested name is ambiguous the projection does not depend on map order. |
| AnswerLaws.ProjectionExact | internal/planner/planner.go:45-75 | The list `*` alone asks for the row as it is; any other list for a cell for each field that the row can supply and no other, under the field's name, from the cell of that name or, for an unqualified field, from one whose qualified name ends in it. |
| Planner.PlanSelect | internal/planner/planner.go:33-166 | The plan of a statement, whose projection is what ProjectionExact says, or its first error in the order of the checks. |
| Planner.PlanJoins | internal/planner/planner.go:97-158 | The error of the first refused clause, or a tree whose left edge starts at the scan and has one join node for each clause, in order, each over a scan of its table. |
| Planner.PlanJoin | internal/planner/planner.go:98-132 | A clause is accepted exactly when its table exists, its ON equates two names and its kind is one of the four, and then table, kind and names are the ones written; each error occurs exactly when its check fails and all checks before it pass. |
| Planner.LeftDeep | internal/planner/planner.go:94-158 | The tree over any clauses is left-deep, with one node for each clause in order. |
| Executor.JoinedDotted | internal/query/operations/join/helpers.go:122-149 | Every column of a joined row is qualified, so a further join leaves the names alone. |
| Executor.UndottedMergeable | internal/query/operations/join/helpers.go:122-149 | Column names without dots never clash when they are qualified. |
| Executor.ExecuteScan | internal/executor/scan_executor.go:10-32 | The rows of a table, or those that pass the predicate, or the missing table. |
| Executor.ExecuteNode | internal/executor/join_executor.go:14-81 | For a tree of any depth, the nested loops over the results of its children, or the first error, left before right. |
| Executor.ExecuteJoinNode | internal/executor/join_executor.go:30-81 | The nested loop of two temporary tables without indexes, and its qualified columns, or the failed condition. |
| Executor.ExecuteSelect | internal/executor/select_executor.go:12-68 | The source's rows, filtered, each projected, in order. |
| Executor.FilterRows | internal/executor/select_executor.go:39-48 | The rows that pass, in order. |
| Executor.ProjectRows | internal/executor/select_executor.go:50-57 | One projected row for each row, in order. |
| QueryLaws.FilterTwice | internal/executor/select_executor.go:25-48 | Filtering filtered rows again changes nothing. |
| QueryLaws.FilterAfterJoin | internal/query/operations/join/executor.go:112-122 | Filtering the rows of a join equals passing the predicate into the join, and doing both is harmless, for all four kinds. |
| Executor.SelectedFilter | internal/executor/scan_executor.go:16-21 | Selecting rows from a table is filtering its rows. |
| QueryLaws.OneJoin | internal/planner/planner.go:80-163 | With one JOIN the meaning is the nested loop over the two tables, whatever join results are called. |
| QueryLaws.TreeMeaning | internal/planner/planner.go:85-163 | Executing the planned tree of any number of joins gives the chain that joins the result so far with the next table, or the same error; what the chain means from two joins on is ChainIff. |
| QueryLaws.PlanMeaning | internal/planner/planner.go:33-166 | Planning and executing a SELECT gives its WHERE, evaluated directly, over a scan, over the one nested loop of OneJoin, or over the executor's chain that SelectRelational is about, in rows and in errors. |
| RelationalJoins.RelabelledIff | internal/executor/join_executor.go:30-81 | The join of joined rows with a table is the join by table-qualified names if and only if it pads no row, and the left column's name was not qualified again or has no match anyway. |
| RelationalJoins.ExecutorOneDot | internal/query/operations/join/types.go:39-76 | Such a join has a name qualified twice as soon as it pads a row, and else is its matching pairs. |
| JoinChains.ChainErrors | internal/executor/join_executor.go:14-81 | Any number of joins fail where the joins by table-qualified names fail, with the same error. |
| JoinChains.OneJoinRelational | internal/executor/join_executor.go:14-81 | One join gives the rows of the join by table-qualified names, for all tables. |
| JoinChains.FurtherJoinIff | internal/executor/join_executor.go:14-81 | A further join of the right rows gives the right rows if and only if no outer join pads a row, and the ON column is in no table before the last one joined or has no match. |
| JoinChains.ChainIff | internal/executor/join_executor.go:14-81 | Any number of joins give the rows of the joins by table-qualified names after each join if and only if that condition holds at each join from the second on. |
| JoinChains.SelectRelational | internal/planner/planner.go:80-163 | A SELECT whose joins meet the condition works on the rows of the joins by table-qualified names, whatever the executor calls its results; with two joins only then. |
| JoinChains.ChainSchema | internal/executor/join_executor.go:51-63 | The schema after the first join has each column qualified once, and each further join qualifies all but its own table's columns once more; every name is still found at the same place. |
| JoinChains.PaddedLoses | internal/query/operations/join/types.go:47-55 | A left row that a further join pads has none of its names left. |
| JoinChains.HiddenInner | internal/executor/join_executor.go:51-63 | From the third join on, an INNER JOIN of the right rows on a column of a table before the last one joined has no rows. |
| JoinChains.SecondLeftJoin | internal/query/operations/join/types.go:47-55 | In `a JOIN b LEFT JOIN c` with `c` empty the one row has no a.x, whatever the executor calls its results. |
| JoinChains.ThirdJoinEmpty | internal/executor/join_executor.go:51-63 | `a JOIN b JOIN c JOIN d` on one column that is 1 everywhere has no rows, while the joins by table-qualified names have one. |
| QueryLaws.RunSelect | internal/executor/executor.go:43-68 | The answer that AnswerExact describes, or the statement's error. |
| AnswerLaws.AnswerExact | internal/executor/executor.go:43-68 | A SELECT answers with exactly the rows of FROM and its joins that WHERE holds of, in order, each with the cells of ProjectionExact; or with the error of its table, its WHERE, or its joins, checked in this order. |
| AnswerLaws.TableAnswerExact | internal/executor/select_executor.go:12-68 | Without joins, from the rows of the table. |
| Engine.ParsedNamed | internal/parser/statement_select.go:12-126 | A parsed SELECT has names where names belong and only the four kinds of join. |
| Engine.ParseText | internal/engine/engine.go:40-54 | The statement of a text, or the error of the lexer or the parser. |
| Engine.Execute | internal/engine/engine.go:34-118 | From the text: the error of the first stage that fails, or the answer of the statement it parses to. |
| Engine.PrintedAnswered | internal/engine/engine.go:34-118 | Executing the printed text of a SELECT without string literals answers that very SELECT. |
| TextLaws.ParsedPlain | internal/parser/literal.go:14-121 | No column name in the ON conditions of a parsed SELECT holds a dot. |
| TextLaws.TextRelational | internal/engine/engine.go:34-118 | From the text of a SELECT: if each join from the second on keeps its meaning, the answer has exactly the rows of the joins by table-qualified names that WHERE holds of, with the cells the select list asks for; if those joins fail, the answer is their error in any case. |
| TextLaws.TextTable | internal/engine/engine.go:34-118 | The same for a SELECT from one table, without a condition. |
| TextLaws.ParsingIff | internal/engine/engine.go:40-54 | A text is a SELECT statement if and only if its tokens begin with those of a statement tree whose first word is SELECT. |
| Engine.LowerCaseAnd | internal/planner/predicate/builder.go:93-103 | The same condition written with `and` and with `AND` is parsed both ways, and the builder refuses the first. |
| StorageSpec.NormalizeRowExact | internal/query/validation/validator.go:20-129 | A row loads if and only if every column accepts its cell or absence, and then each cell is normalised by its own column. |
| LoadLaws.CellLoadsExact | internal/query/validation/validator.go:46-129 | Which JSON values each column type accepts, and as what: for INT exactly the numbers that are an int64. |
| LoadLaws.RowLoadsExact | internal/query/validation/validator.go:20-45 | A row loads if and only if required cells are there and each cell of a column loads; cells without a column are kept, numbers as floats. |
| LoadLaws.RowRefused | internal/query/validation/validator.go:20-129 | The error of a row is about the first column that objects. |
| LoadLaws.DirLoadsExact | internal/storage/loader/table.go:17-83 | A directory loads as schema and counter of meta.json with the rows of data.json, and without data.json as an empty table; which error otherwise. |
| StorageSpec.IntReload | internal/query/validation/validator.go:53-61 | A saved integer comes back as the nearest float64 if that is an int64, and is otherwise refused. |
| StorageSpec.SaveLoadIff | internal/storage/loader/table.go:31-74 | Saving and loading any table with different column names gives back schema, counter and rows with integers as int64, if and only if no required cell is missing and every cell is of its column's kind, an integer only in an INT column and only if it is a float64. |
| StorageSpec.TableReloaded | internal/storage/loader/table.go:31-74 | A saved table loads if and only if each cell does by its column's rule and no required one is missing, and then each cell comes back as the rule says and nothing else changes. |
| StorageSpec.IntegerReloads | internal/query/validation/validator.go:53-61 | By the rule of an INT column an integer of either type comes back as its nearest float64, unless that is 2^63. |
| StorageSpec.IntegersTurnFloat | internal/query/validation/validator.go:20-129 | An integer outside the schema, which Insert takes, and one that an Update puts into a FLOAT column come back as floats. |
| StorageSpec.SecondSaveLoad | internal/storage/loader/table.go:31-74 | A second save and load changes nothing. |
| StorageSpec.LoadedBuildable | internal/query/indexing/builder.go:33-79 | The indexes of a loaded table can be built if and only if no indexed column holds a key twice, where keys are the cells except that auto-increment FLOAT keys are truncated and other auto-increment columns may hold none. |
| StorageSpec.ReloadBuildableIff | internal/query/indexing/builder.go:33-79 | A saved table that loads can be indexed again if and only if no two cells of an indexed column become equal by rounding integers and truncating auto-increment floats, whatever rows it holds. |
| StorageSpec.ExactKeysApart | internal/query/indexing/builder.go:69-78 | Where every cell survives the save that condition is: no duplicates once all integers are int64. |
| StorageSpec.NumericTwins | internal/parser/literal.go:104-105 | A concrete table accepts an insert of a number it holds under the other integer type, and once saved and loaded cannot be indexed. |
| StorageSpec.RoundedTwins | internal/query/validation/validator.go:58-62 | Two different int64 in a unique column load as one number, and the table cannot be indexed. |
| Disk.InterruptedSaveWhole | internal/storage/writer/writer.go:65-86 | However a table save is interrupted, each file is wholly old or wholly new, and new rows come with new meta data, where the old table may lack data.json or be on disk not at all. |
| Disk.CompletedSave | internal/storage/writer/writer.go:65-86 | A save that is not interrupted leaves both files new and no temporary file. |
| LoadLaws.SavedMeta | internal/storage/writer/writer.go:17-63 | meta.json holds name, columns, counter and the row count of data.json. |
| Disk.InterruptedSaveBounded | internal/storage/writer/writer.go:65-86 | However a save is interrupted, a table that loads again has every id at most its counter, if and only if the ids of the old and of the new table, rounded to float64, are at most their counters, where those tables load at all. |
| Disk.ReloadBoundedIff | internal/storage/loader/table.go:48-67 | Rows loaded with a counter have ids at most that counter if and only if their ids round to at most it. |
| Disk.WholeLoadsBounded | internal/storage/loader/table.go:48-67 | Files that are whole load with every id at most the counter, because new rows come with the new counter. |
| Disk.ExactCounterBounds | internal/query/validation/validator.go:58-62 | Ids at most a counter that does not round up also round to at most it. |
| Disk.RoundedId | internal/storage/writer/writer.go:65-86 | The id 2^53 + 3 at its counter is loaded as 2^53 + 4 after a completed save. |
| Disk.InterruptedSaveAfterRun | internal/domain/schema/table.go:110-112 | The same equivalence for the table at the end of any run saved over the table at its beginning. |
| Disk.DataFirstBreaksBound | internal/storage/writer/writer.go:65-72 | With data.json replaced before meta.json an interrupted save leaves an id above the counter. |
| Disk.InterruptedDatabaseWhole | internal/storage/writer/writer.go:99-158 | In whatever order the tables are saved and wherever the save stops, every table's files are wholly old or new. |
| Disk.InterruptedDatabaseBounded | internal/storage/writer/writer.go:99-158 | However a database save is interrupted, a table that loads again has every id at most its counter, if and only if that table meets the condition of a single save. |
| Disk.CompletedDatabase | internal/storage/writer/writer.go:99-158 | A completed database save leaves both files of every table and the database's meta.json written. |
| Disk.DatabaseMetaLast | internal/storage/writer/writer.go:99-158 | Once the directory of the database has changed, both files of every table are written. |
| Storage.SaveTable | internal/storage/writer/writer.go:17-96 | The file system after the four steps, meta.json replaced before data.json. |
| Storage.SaveDatabase | internal/storage/writer/writer.go:99-158 | Every table saved once, in some order, then the database's meta.json. |
| Storage.ValidateRow | internal/query/validation/validator.go:20-129 | The row normalised in place, or the first column's error. |
| Storage.LoadTable | internal/storage/loader/table.go:17-83 | Succeeds if and only if both files can be read and every row is valid; then a table of new, unaliased row maps with the loaded contents. |
| Storage.OpenTable | internal/query/indexing/builder.go:94-101 | A table object loaded and indexed, whose value is the loaded table with the built indexes, exactly when both succeed. |
| Storage.LoadRows | internal/storage/loader/table.go:48-74 | One new row map for each stored row, normalised, or the error of the first row that has one. |
| Registries.CanonicalIdempotent | internal/storage/manager/registry.go:33-56 | What one load and save normalise stays as it is. |
| Registries.OpenStable | internal/storage/loader/database.go:15-63 | Saving a loaded database and loading it again gives the same database, indexes included. |
| Registries.CanonicalOpens | internal/storage/manager/registry.go:33-56 | Normalising does not change whether a database opens. |
| Registries.SavedFilesRead | internal/storage/writer/writer.go:99-158 | The steps of a database save leave files that read back as the database that was saved. |
| Registries.SavedOpensIff | internal/storage/loader/database.go:15-63 | A saved database can be opened if and only if each of its tables meets the condition of ReopensIff. |
| Registries.RenameCloses | internal/storage/manager/registry.go:80-97 | A database in use answers Get, and after it is renamed Get fails if and only if one of its tables cannot be opened again once saved, a condition on the tables before the rename. |
| Registries.TwinsClose | internal/storage/manager/registry.go:80-97 | A concrete database with one number under two integer types does so. |
| Registries.CanonicalRename | internal/storage/engine/json_engine.go:86-128 | Renaming a database commutes with normalising it. |
| Registries.Registry.Get | internal/storage/manager/registry.go:33-56 | The map of databases does not change; a cached database is returned as it is; another is opened from disk and cached; an error exactly when it is not cached and missing or unloadable, and which. |
| Registries.Registry.Create | internal/storage/manager/registry.go:59-68 | An empty database is added exactly when the name is new. |
| Registries.Registry.Drop | internal/storage/manager/registry.go:71-77 | The database is gone from cache and disk; an error exactly when there was none. |
| Registries.Registry.Rename | internal/storage/manager/registry.go:80-97 | The database moves with its unsaved rows exactly when the old name exists and the new one does not; otherwise the map is unchanged. |
| Registries.Registry.SaveDatabase | internal/storage/writer/writer.go:99-158 | The cached database is on disk and the map has not changed. |
| Registries.Registry.RenameOnDisk | internal/storage/engine/json_engine.go:86-128 | An uncached database moves to the new name exactly when the old one exists and the new one does not. |
| Registries.Registry.SaveAll | internal/storage/manager/registry.go:100-109 | The map does not change, and the disk holds every cached database. |
| Registries.Registry.ChangeLoaded | internal/engine/engine.go:84-91 | Changing a cached database changes that database in the map and no file. |
| Registries.Registry.Change | internal/engine/engine.go:84-91 | Statements change a database exactly when it is in use and keeps its list of tables. |
| Registries.Registry.Perform | internal/storage/manager/registry.go:33-109 | Any sequence of Get, changes to databases in use, Create, Drop, Rename and SaveAll does to the registry what it does to a plain map with a set of names in use, and every operation is answered as the map answers it. |
| RegistryLaws.CreateLaws | internal/storage/manager/registry.go:59-68 | Create succeeds for new names only; Get then finds an empty database, and Drop takes it back. |
| RegistryLaws.DropLaws | internal/storage/manager/registry.go:71-77 | Drop succeeds for existing names only; the name is free afterwards. |
| RegistryLaws.RenameLaws | internal/storage/manager/registry.go:80-97 | Rename needs an existing old and a free new name; it moves the database unchanged and out of use, and renaming back undoes it. |
| RegistryLaws.GetLaws | internal/storage/manager/registry.go:33-56 | Which Get succeeds, that it changes no database, and that a second one answers the same. |
| RegistryLaws.ChangeLaws | internal/engine/engine.go:84-91 | Statements need a database in use and keep its list of tables; Get finds what they left. |
| RegistryLaws.FailureKeeps | internal/storage/manager/registry.go:33-109 | An operation that fails changes no database. |
| RegistryLaws.RunAlone | internal/storage/manager/registry.go:33-109 | A run leaves alone every database that none of its operations names. |

## Left out

- Tables.Table.SelectByIndex: states the first stored position; that this is the first row of a scan is FirstOfScan,
  which needs a consistent table.
- Registries.Registry.Get: compares databases up to what one load and save normalise, because a cached database holds
  the normalised rows before the file does.
- Executor.ExecuteNode: rows are handed from node to node as values; that SELECT * on one table returns the table's
  own row maps is stated only for Table.Select and Table.SelectAll.
- Join.RunJoin: the four functions of the source share their phases, so one method with the kind as a parameter stands
  for them; it takes both tables as values, since a join changes neither, and a nil table and an unknown join type
  cannot be expressed.
- Join.ExecuteJoin: without the projection argument, which no caller in the query path uses; the executor projects
  afterwards.
- Projections.ProjectJoinedRow: without aliases, which the planner never sets.
- Registries.Registry.Create: creating, removing or renaming a database directory is one step each, and tables are
  keyed by directory, which must carry the table's name.
- Statements other than SELECT: parsing INSERT, UPDATE, DELETE and the database statements, planning them, and the
  engine's dispatch to them; the model reports them as not a SELECT.
- Date, time, email and number formats: the library functions behind them are parameters (`LiteralRules`, `TextChecks`).
- Floating point: a float is a finite real; literals and JSON produce no infinities or NaN. Converting an out-of-range
  float to int64 gives the smallest int64, as on amd64.
- Characters: one `char` stands for one byte; line and column numbers and the literal text of illegal tokens are left
  out.
- JSON text: a text cell is written and read unchanged, while Go's encoder replaces bytes that are not valid UTF-8.
- System errors: files hold values, an interrupted write leaves arbitrary contents in its temporary file, and a rename
  happens wholly or not at all.
- Locks: each table and registry method is one atomic step.
- QueryLaws.PlanMeaning: from two joins on, its meaning follows the executor step by step; independent of the executor
  are the theorems of `JoinChains`, which say for each join, and for two joins of the whole, when it is right; rows
  that are wrong after one join and all dropped by a later one are not characterised.
- JoinChains.ChainIff: in the joins by table-qualified names a table that is named twice keeps the cells of its last
  use, since names cannot tell the two apart.
- The names the executor makes up for the results of joins are a parameter (`joinNames`), and the theorems hold for
  all of them.
- `FlushTableIfDirty`, the TCP server, the REPL, logging, observers, transactions, cost estimates, scan selection and
  result formatting: no property worth proving.
