# DapperSupplement, modelled in Dafny

DapperSupplement adds record-level commands to ADO.NET connections on top of
Dapper:

- **Single and batch commands.** `InsertAsync`, `UpdateAsync`, `DeleteAsync`
  and their `Batch*Async` forms take a record type and a table name.
  - The statement text comes from `SqlBuilder`, built from the record type's
    members in ordinal order.
  - Members marked `[Key]` go to the WHERE clause, the others to the SET
    clause.
  - The text is kept in a per-(type, table) dictionary, so it is built once.
  - A batch is cut into chunks by `TakeBy` (default 100 records). Each chunk
    is run as one Dapper execution, and the affected-row counts are added up.
- **SQL Server bulk operations.** `SqlConnectionExtensions` adds:
  - `BulkCopyAsync`, which runs a `SqlBulkCopy` configured by
    `SqlBulkCopyBuilder.Create`, with every member mapped to the column of
    the same name;
  - `BulkUpdateAsync` and `BulkMergeAsync`. Each creates an empty temporary
    copy `#temp_<guid>` of the target table and bulk copies the records into
    it. Then one `UPDATE ... FROM ... INNER JOIN` or one `MERGE` applies
    them to the target.

The model has these modules:

| module | file | models |
|---|---|---|
| `Errors` | errors.dfy | the exceptions the library throws, `Option`, `Result` |
| `Text` | text.dfy | `string.Join` and its inverse, splitting at a separator |
| `TypeCache` | type_cache.dfy | a record type as its members (name, `[Key]` flag) in ordinal order; `Members`, `KeyMembers`, `ContentMembers` |
| `EnumerableExtensions` | enumerable_extensions.dfy | `TakeBy` as a buffer loop, proved against the chunking function `Chunks` |
| `SqlReader` | sql_reader.dfy | a reader for the generated SQL, which the text builders are proved against |
| `SqlBuilder` | sql_builder.dfy | `CreateInsert`, `CreateUpdate`, `CreateDelete` |
| `Client` | client.dfy | the connection, as a class that logs every command it is sent and answers with counts from an oracle; `SqlBulkCopy` as a class with its settable properties |
| `DbConnectionExtensions` | db_connection_extensions.dfy | the three statement caches as a class; the six extension methods; the batch loop |
| `SqlBulkCopyBuilder` | sql_bulk_copy_builder.dfy | `Create` and its column-mapping loop |
| `BulkSql` | bulk_sql.dfy | the SELECT INTO, bulk UPDATE and MERGE texts |
| `SqlConnectionExtensions` | sql_connection_extensions.dfy | temporary table creation, bulk copy, bulk update, bulk merge, and the driver-type checks of the `IDbConnection` overloads |

The generated SQL texts have an inverse. `SqlReader.Parse` cuts a statement
at spaces, list clauses at commas and assignments at `=`. For every builder,
reading its output back gives exactly the table, the columns, the parameters
and the key conditions the text was built from.

The text builders themselves (`SqlBuilder.CreateInsert`, `CreateUpdate`,
`CreateDelete`, `BulkSql.SelectIntoSql`, `BulkUpdateSql`, `MergeSql`), the
member lists `TypeCache.KeyMembers` and `ContentMembers`, and the chunking
`EnumerableExtensions.Chunks` carry no contract of their own. What they
produce is stated by the lemmas about them: the `*ReadsBack` lemmas for the
texts, `KeyMembersAreKeys` and `ContentMembersAreContents` for the member
lists, and `TakeBy`, `FlattenChunks`, `ChunkSizes` and `ChunkCount` for
the chunks.

The methods that send commands are stated as exact logs: the connection's
`log` after the call is the old log plus the listed commands. Each command
records its text, its parameters, its transaction and its timeout.

## Model

| member | source | states |
|---|---|---|
| TypeCache.Members | src/DapperSupplement.SqlServer/TypeCache.cs:10-14 | one name per member, the i-th name being the i-th member's, in ordinal order |
| TypeCache.FilterPicks | src/DapperSupplement.SqlServer/TypeCache.cs:16-28 | the filtered list holds exactly the names of the members with the given key flag: sound, complete and in ordinal order |
| TypeCache.KeyMembersAreKeys | src/DapperSupplement.SqlServer/TypeCache.cs:16-21 | KeyMembers lists exactly the `[Key]` members, in ordinal order |
| TypeCache.ContentMembersAreContents | src/DapperSupplement.SqlServer/TypeCache.cs:23-28 | ContentMembers lists exactly the members without `[Key]`, in ordinal order |
| TypeCache.SplitSizes | src/DapperSupplement.SqlServer/TypeCache.cs:10-28 | KeyMembers and ContentMembers together are a permutation of Members: their sizes add up and their multisets add up |
| TypeCache.ExactlyOneSide | src/DapperSupplement.SqlServer/TypeCache.cs:16-28 | a member of a well-formed type is in KeyMembers if and only if it has `[Key]`, and in ContentMembers if and only if it does not |
| EnumerableExtensions.TakeBy | src/DapperSupplement/EnumerableExtensions.cs:8-26 | the buffer loop yields exactly `Chunks(items, count)`; a negative count fails with ArgumentOutOfRange("capacity") |
| EnumerableExtensions.FullBuffer | src/DapperSupplement/EnumerableExtensions.cs:13-18 | a buffer that reaches `count` items is the next chunk of what is left |
| EnumerableExtensions.LastChunk | src/DapperSupplement/EnumerableExtensions.cs:22-25 | the final flush yields the remaining items as one chunk, or nothing when none remain |
| EnumerableExtensions.FlattenChunks | src/DapperSupplement/EnumerableExtensions.cs:8-26 | round trip: the chunks laid end to end give back the input, in order |
| EnumerableExtensions.ChunkSizes | src/DapperSupplement/EnumerableExtensions.cs:14-25 | for count >= 1 no chunk is empty, none is longer than count, and all but the last are exactly count long |
| EnumerableExtensions.ChunkCount | src/DapperSupplement/EnumerableExtensions.cs:8-26 | there are ceil(n / count) chunks, and none exactly when the input is empty |
| EnumerableExtensions.TakeByExamples | src/DapperSupplement.Test/Tests/EnumerableExtensionsTest.cs:10-39 | the chunks of the library's four test cases |
| SqlReader.SetListReadsBack | src/DapperSupplement/SqlBuilder.cs:38 | a comma-joined list of `c=@c` equalities reads back as the assignments, in order |
| SqlReader.ConjunctionReadsBack | src/DapperSupplement/SqlBuilder.cs:39 | an "and"-joined list of `c=@c` equalities reads back as the assignments, in order |
| SqlReader.ListReadsBack | src/DapperSupplement/SqlBuilder.cs:19 | a parenthesised comma-joined list of prefixed names reads back as those names |
| SqlBuilder.InsertReadsBack | src/DapperSupplement/SqlBuilder.cs:10-20 | the INSERT reads back as its table, every member as a column in ordinal order, and `@member` as each value |
| SqlBuilder.UpdateReadsBack | src/DapperSupplement/SqlBuilder.cs:22-42 | the UPDATE reads back as its table; the SET clause assigns each content member from its parameter; the WHERE clause tests each key member against its parameter, in ordinal order |
| SqlBuilder.DeleteReadsBack | src/DapperSupplement/SqlBuilder.cs:44-59 | the DELETE reads back as its table, with the WHERE clause testing each key member against its parameter |
| SqlBuilder.DeleteNamesNoContent | src/DapperSupplement/SqlBuilder.cs:52-58 | every column in the DELETE's WHERE clause is a key member and not a content member |
| SqlBuilder.NoKeysEmptyWhere | src/DapperSupplement/SqlBuilder.cs:39-41 | with no key member, the UPDATE and the DELETE both end in an empty "where " |
| SqlBuilder.InsertExample | src/DapperSupplement.Test/Tests/SqlBuilderTest.cs:9-14 | the test type's INSERT into foo reads back as columns Id, Name and values @Id, @Name |
| SqlBuilder.UpdateExamples | src/DapperSupplement.Test/Tests/SqlBuilderTest.cs:16-31 | the UPDATE of the one-key and two-key test types: Name set, WHERE on Id, or on Id1 and then Id2 |
| SqlBuilder.DeleteExamples | src/DapperSupplement.Test/Tests/SqlBuilderTest.cs:33-47 | the DELETE of the one-key and two-key test types: WHERE on Id, or on Id1 and then Id2 |
| DbConnectionExtensions.GetOrAdd | src/DapperSupplement/DbConnectionExtensions.cs:76 | a present key returns its stored value and leaves the dictionary as it was; an absent key stores and returns the new value; other keys are untouched |
| DbConnectionExtensions.GetOrAddIdempotent | src/DapperSupplement/DbConnectionExtensions.cs:73-92 | a second lookup of the same key returns what the first stored and changes nothing |
| DbConnectionExtensions.StatementCaches.constructor | src/DapperSupplement/DbConnectionExtensions.cs:73-87 | the three dictionaries start empty, so each holds only its own builder's texts |
| DbConnectionExtensions.StatementCaches.GetInsert | src/DapperSupplement/DbConnectionExtensions.cs:73-78 | returns CreateInsert for the type and table; only InsertCache changes; InsertCache keeps holding only INSERT texts |
| DbConnectionExtensions.StatementCaches.GetUpdate | src/DapperSupplement/DbConnectionExtensions.cs:80-85 | returns what UpdateCache holds for the key, else CreateUpdate, which it stores; while UpdateCache holds only UPDATE texts the result is CreateUpdate and the cache stays so |
| DbConnectionExtensions.StatementCaches.GetDelete | src/DapperSupplement/DbConnectionExtensions.cs:87-92 | as written: returns what UpdateCache holds for the key, else CreateDelete, which it stores in UpdateCache; after GetUpdate for the key it returns the UPDATE text; when the key was absent, UpdateCache no longer holds only UPDATE texts; DeleteCache is untouched |
| DbConnectionExtensions.StatementCaches.GetDeleteCorrected | src/DapperSupplement/DbConnectionExtensions.cs:87-92 | with DeleteCache: returns CreateDelete; only DeleteCache changes; DeleteCache keeps holding only DELETE texts |
| DbConnectionExtensions.UpdateIsNotDelete | src/DapperSupplement/SqlBuilder.cs:41-58 | an UPDATE text never equals a DELETE text |
| DbConnectionExtensions.UpdateThenDelete | src/DapperSupplement/DbConnectionExtensions.cs:33-37 | from empty caches, UpdateAsync and then DeleteAsync (as written) send the UPDATE text twice; the delete never sends the DELETE text |
| DbConnectionExtensions.UpdateThenDeleteCorrected | src/DapperSupplement/DbConnectionExtensions.cs:33-37 | the same calls with DeleteAsyncCorrected send the UPDATE text and then the DELETE text |
| DbConnectionExtensions.DeleteThenUpdate | src/DapperSupplement/DbConnectionExtensions.cs:53-57 | from empty caches, DeleteAsync (as written) and then UpdateAsync send the DELETE text twice; the update never sends the UPDATE text |
| DbConnectionExtensions.DeleteThenUpdateCorrected | src/DapperSupplement/DbConnectionExtensions.cs:53-57 | the same calls with DeleteAsyncCorrected send the DELETE text and then the UPDATE text |
| DbConnectionExtensions.ChunkSize | src/DapperSupplement/DbConnectionExtensions.cs:24 | `batchSize ?? 100` |
| DbConnectionExtensions.Executions | src/DapperSupplement/DbConnectionExtensions.cs:24-28 | one execution per chunk, in order, each with the same text and the chunk as its records |
| DbConnectionExtensions.BatchesCoverRecords | src/DapperSupplement/DbConnectionExtensions.cs:19-31 | a batch sends every record exactly once, in order, all with the same text; nothing for no records; ceil(n / size) commands |
| DbConnectionExtensions.SentChunks | src/DapperSupplement/DbConnectionExtensions.cs:24-28 | the records the chunk executions carry are the chunks laid end to end |
| DbConnectionExtensions.ExecuteInBatches | src/DapperSupplement/DbConnectionExtensions.cs:23-30 | the loop logs exactly `Executions(sql, Chunks(records, batchSize ?? 100))` and returns the sum of their counts; a negative size fails before anything is sent |
| DbConnectionExtensions.BatchStep | src/DapperSupplement/DbConnectionExtensions.cs:26-27 | one more chunk adds its execution to the log and its count to the total |
| DbConnectionExtensions.InsertAsync | src/DapperSupplement/DbConnectionExtensions.cs:13-17 | one execution of CreateInsert with the record; returns its count; the connection state is kept |
| DbConnectionExtensions.BatchInsertAsync | src/DapperSupplement/DbConnectionExtensions.cs:19-31 | the INSERT text run once per chunk; the log and the summed count are as ExecuteInBatches states; the connection state is kept |
| DbConnectionExtensions.UpdateAsync | src/DapperSupplement/DbConnectionExtensions.cs:33-37 | one execution, with the record, of the text UpdateCache gives (the stored one, else CreateUpdate); that text is CreateUpdate while UpdateCache holds only UPDATE texts |
| DbConnectionExtensions.BatchUpdateAsync | src/DapperSupplement/DbConnectionExtensions.cs:39-51 | the text UpdateCache gives, run once per chunk with the summed count; CreateUpdate while UpdateCache holds only UPDATE texts |
| DbConnectionExtensions.DeleteAsync | src/DapperSupplement/DbConnectionExtensions.cs:53-57 | as written: one execution, with the record, of the text UpdateCache gives (the stored one, else CreateDelete); after an update of the same key, the UPDATE text |
| DbConnectionExtensions.BatchDeleteAsync | src/DapperSupplement/DbConnectionExtensions.cs:59-71 | as written: the text UpdateCache gives, run once per chunk with the summed count; after an update of the same key, the UPDATE text for every chunk |
| DbConnectionExtensions.DeleteAsyncCorrected | src/DapperSupplement/DbConnectionExtensions.cs:53-57 | with GetDeleteCorrected: one execution of CreateDelete with the record |
| DbConnectionExtensions.BatchDeleteAsyncCorrected | src/DapperSupplement/DbConnectionExtensions.cs:59-71 | with GetDeleteCorrected: CreateDelete run once per chunk, with the summed count |
| DbConnectionExtensions.NoRecordsNothingSent | src/DapperSupplement/DbConnectionExtensions.cs:23-30 | no records: no command and a count of 0 |
| DbConnectionExtensions.BatchOfTwoExample | src/DapperSupplement.Test/Tests/DbConnectionExtensionsTest.cs:45-52 | three records in batches of two: one command with the first two, then one with the third |
| Client.Connection.Execute | src/DapperSupplement/DbConnectionExtensions.cs:16 | one command appended to the log; the oracle's count returned; the connection state kept |
| Client.SqlBulkCopy.constructor | src/DapperSupplement.SqlServer/SqlBulkCopyBuilder.cs:19 | a new bulk copy: the given connection, options and transaction; default timeout 30; batch size 0; no mapping and no handler |
| Client.SqlBulkCopy.AddColumnMapping | src/DapperSupplement.SqlServer/SqlBulkCopyBuilder.cs:39 | one mapping appended; nothing else changed |
| Client.SqlBulkCopy.WriteToServer | src/DapperSupplement.SqlServer/SqlConnectionExtensions.cs:73-75 | one bulk copy command appended to the connection's log, carrying the copy's destination, mappings, transaction, timeout, batch size, options and handlers with the rows and the reader's columns; the connection state kept |
| SqlBulkCopyBuilder.Mappings | src/DapperSupplement.SqlServer/SqlBulkCopyBuilder.cs:37-40 | one mapping per name; the sources and the destinations both read back as the names, in order |
| SqlBulkCopyBuilder.MappingsSnoc | src/DapperSupplement.SqlServer/SqlBulkCopyBuilder.cs:37-40 | the mapping of one more name extends the list by one entry |
| SqlBulkCopyBuilder.AddMappings | src/DapperSupplement.SqlServer/SqlBulkCopyBuilder.cs:37-40 | the loop appends exactly `Mappings(names)` and changes no other setting |
| SqlBulkCopyBuilder.Create | src/DapperSupplement.SqlServer/SqlBulkCopyBuilder.cs:10-43 | a fresh bulk copy aimed at the table; timeout, batch size and handler changed only when given; one mapping per member in ordinal order |
| SqlBulkCopyBuilder.MappingsOneToOne | src/DapperSupplement.SqlServer/SqlBulkCopyBuilder.cs:37-40 | as many mappings as members, the i-th mapping the i-th member to itself |
| SqlBulkCopyBuilder.CreateExample | src/DapperSupplement.SqlServer.Test/Tests/SqlBulkCopyBuilderTest.cs:21-31 | the test type gets the mappings Id to Id, then Name to Name |
| BulkSql.TempTableName | src/DapperSupplement.SqlServer/SqlConnectionExtensions.cs:22 | the name is "#temp_" followed by the GUID digits |
| BulkSql.SelectIntoReadsBack | src/DapperSupplement.SqlServer/SqlConnectionExtensions.cs:22-23 | the statement reads back as creating the temporary table from the source table's shape |
| BulkSql.BulkUpdateReadsBack | src/DapperSupplement.SqlServer/SqlConnectionExtensions.cs:116-122 | the UPDATE sets every content member from the copy (b) and joins table a to copy b on every key member, in ordinal order |
| BulkSql.MergeReadsBack | src/DapperSupplement.SqlServer/SqlConnectionExtensions.cs:167-183 | the MERGE joins dst to src on every key; updates every content member; inserts every member with its src value; deletes unmatched rows exactly when enableDelete is set |
| BulkSql.MergeDeleteClause | src/DapperSupplement.SqlServer/SqlConnectionExtensions.cs:176-183 | enableDelete adds exactly the clause "when not matched by source then delete" before the final ';' |
| BulkSql.MergeWithoutKeys | src/DapperSupplement.SqlServer/SqlConnectionExtensions.cs:171-179 | with no key member, the MERGE's ON clause is empty |
| SqlConnectionExtensions.DriverCheck | src/DapperSupplement.SqlServer/SqlConnectionExtensions.cs:38-50 | no error if and only if the connection is a SqlConnection and any transaction is a SqlTransaction; the connection is checked first |
| SqlConnectionExtensions.CreateTempTableAsync | src/DapperSupplement.SqlServer/SqlConnectionExtensions.cs:15-26 | a closed connection fails with InvalidOperation and sends nothing; otherwise one SELECT INTO without transaction, returning the temporary name |
| SqlConnectionExtensions.BulkCopyAsync | src/DapperSupplement.SqlServer/SqlConnectionExtensions.cs:55-76 | a closed connection fails and sends nothing; otherwise exactly one bulk copy with the settings of Create and the members as reader columns |
| SqlConnectionExtensions.DbBulkCopyAsync | src/DapperSupplement.SqlServer/SqlConnectionExtensions.cs:28-53 | a driver-type error is returned and nothing is sent; otherwise as BulkCopyAsync |
| SqlConnectionExtensions.BulkUpdateAsync | src/DapperSupplement.SqlServer/SqlConnectionExtensions.cs:103-125 | the exact log: SELECT INTO, bulk copy into the temporary table, then the bulk UPDATE in the caller's transaction; returns the UPDATE's count |
| SqlConnectionExtensions.DbBulkUpdateAsync | src/DapperSupplement.SqlServer/SqlConnectionExtensions.cs:78-101 | a driver-type error is returned and nothing is sent; otherwise as BulkUpdateAsync |
| SqlConnectionExtensions.BulkMergeAsync | src/DapperSupplement.SqlServer/SqlConnectionExtensions.cs:152-187 | the exact log: SELECT INTO, bulk copy, then the MERGE in the caller's transaction; returns the MERGE's count |

## Left out

- Reflection. A record type is given as its list of members (name, `[Key]` flag) already in ordinal order. FastMember's `TypeAccessor` and the `OrderBy(Ordinal)` sort are not modelled.
- Member names. The read-back lemmas require only that every member name is non-empty and free of spaces, commas and '='; every C# identifier is. `WellFormed` (no two members share a name) is required only where a member's side is decided by its name: `ExactlyOneSide` and `DeleteNamesNoContent`.
- The cache key is the member list and not the CLR `Type`. Two distinct types with the same members would share an entry in the model.
- Thread safety of `ConcurrentDictionary`. The caches are modelled as one sequential object; a factory run twice under a race is not modelled.
- `async`, `await` and `ConfigureAwait`. Each method is one sequential step.
- What the database does. A connection answers a statement with the count its `affected` oracle gives. How Dapper runs a collection parameter once per element and sums the counts is inside that oracle. The SQL semantics of UPDATE ... JOIN and MERGE are not modelled. A command that fails is not modelled either: the oracle always answers with a count. In the source, an exception from `ExecuteAsync` or `WriteToServerAsync` ends the batch loop (src/DapperSupplement/DbConnectionExtensions.cs:24-28) or the bulk sequence after the earlier commands were already sent. The model has no such partial log.
- Counts are unbounded naturals. The C# `int` sum in the batch loop could overflow past 2^31 - 1; the model does not wrap it.
- `Guid.NewGuid()` is a parameter `guid`. Its 32 lower-case hexadecimal digits are assumed (`GuidDigits`) and not produced.
- `TakeBy` with count 0 is modelled as a release build, where `Debug.Assert` is compiled out: the whole input comes out as one chunk. In a debug build the assertion fails on the first item.
- `TakeBy` is lazy in C#: the negative-capacity exception surfaces when the batch loop first enumerates it. The model fails at the same point, after the statement text was fetched and before any command.
- The `IDbConnection` overload of `BulkMergeAsync` (src/DapperSupplement.SqlServer/SqlConnectionExtensions.cs:127-150) is not modelled. Its call at line 149 passes a `SqlTransaction` where the `SqlConnection` overload's fourth parameter is `bool enableDelete`, so overload resolution binds the call to the `IDbConnection` overload itself. The runtime behaviour of that self-call is not modelled.
- `SqlBulkCopy` property setters reject a negative timeout or batch size; that check is not modelled. The values are stored as given.
- The temporary table is created without the caller's transaction, as the source writes it (line 23 passes no transaction). The model keeps it that way and does not model what SQL Server does with it inside a transaction.
- Exception messages are not modelled. An exception is its type and parameter name.
- `SqlBulkCopy` disposal, `ObjectReader` and the rows-copied events are not modelled. A bulk copy is one logged command carrying its settings, its rows and the reader's column list.
- `SqlBulkCopyOptions` is an opaque number; its flags are not interpreted.
- The three fixed MERGE phrases are built from their word lists and not written as literal text.
- The reader only recognises the statement shapes the library produces. A table name or clause containing a space is outside it, so the read-back lemmas require space-free table names.

## Findings

| source | as written | input that shows it | evidently intended | confidence | as-written member | corrected member |
|---|---|---|---|---|---|---|
| src/DapperSupplement/DbConnectionExtensions.cs:90 | `GetDelete<T>` looks up and stores the DELETE text in `UpdateCache`; `DeleteCache` (line 87) is never used; `DeleteAsync` (line 55) sends what it returns | `UpdateAsync<T>(conn, "foo", r)` and then `DeleteAsync<T>(conn, "foo", r)` in a fresh process: the delete is sent the cached UPDATE text, so it updates instead of deleting | `DeleteCache.GetOrAdd(...)`, so a delete always sends CreateDelete's text (`DeleteAsyncCorrected`) | high, not executed | DbConnectionExtensions.UpdateThenDelete | DbConnectionExtensions.UpdateThenDeleteCorrected |
| src/DapperSupplement/DbConnectionExtensions.cs:90 | the DELETE text `GetDelete<T>` stores in `UpdateCache` is what `GetUpdate<T>` (line 83) later returns for the same key | `DeleteAsync<T>(conn, "foo", r)` and then `UpdateAsync<T>(conn, "foo", r)` in a fresh process: the update is sent the DELETE text, so it deletes the row | `GetUpdate<T>` always returns CreateUpdate's text, as it does when `GetDelete<T>` leaves `UpdateCache` alone | high, not executed | DbConnectionExtensions.DeleteThenUpdate | DbConnectionExtensions.DeleteThenUpdateCorrected |
