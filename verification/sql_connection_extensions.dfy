/** SqlConnectionExtensions: bulk operations for SQL Server.  A bulk copy
    streams records into a table through SqlBulkCopy; a bulk update or
    merge first creates an empty temporary copy of the target table, bulk
    copies the records into it, then runs one UPDATE ... JOIN or MERGE from
    it.  The overloads taking the provider-neutral IDbConnection check that
    they were given SQL Server's connection and transaction types and
    forward to the SqlConnection overloads. */
module SqlConnectionExtensions {
  import opened Errors
  import opened TypeCache
  import opened Client
  import opened BulkSql
  import opened SqlBulkCopyBuilder

  /** The driver-type checks of the IDbConnection overloads: the connection
      must be a SqlConnection, and a transaction, when one is given, a
      SqlTransaction.  The connection is checked first. */
  function DriverCheck(isSqlConnection: bool, transaction: Option<Transaction>): (e: Option<Error>)
    ensures e.None? <==> isSqlConnection && (transaction.None? || transaction.value.isSqlTransaction)
    ensures !isSqlConnection ==> e == Some(Argument("connection"))
    ensures isSqlConnection && e.Some? ==> e == Some(Argument("transaction"))
  {
    if !isSqlConnection then Some(Argument("connection"))
    else if transaction.Some? && !transaction.value.isSqlTransaction then Some(Argument("transaction"))
    else None
  }

  /** The command a bulk copy of `records` into `tableName` sends: the
      reader exposes the members of the record type, each mapped to the
      column of the same name, with the caller's overrides applied. */
  function BulkCopyOf(d: Descriptor, tableName: string, records: seq<Row>, options: nat,
                      transaction: Option<Transaction>, timeout: Option<int>, batchSize: Option<int>,
                      handler: Option<Handler>): Command
  {
    BulkCopy(tableName, records, Members(d), Mappings(Members(d)), transaction,
             if timeout.Some? then timeout.value else DefaultBulkCopyTimeout,
             if batchSize.Some? then batchSize.value else DefaultBatchSize,
             options, if handler.Some? then [handler.value] else [])
  }

  /** The command that creates the temporary table. */
  function CreateTempTableCommand(guid: string, sourceTableName: string): Command
  {
    Execution(SelectIntoSql(TempTableName(guid), sourceTableName), NoParameters, None, None)
  }

  /** CreateTempTableAsync: on an open connection, an empty table shaped
      like `sourceTableName` is created under the fresh name "#temp_" +
      GUID, which is returned; the statement is sent without the caller's
      transaction.  A connection that is not open is refused before
      anything is sent.  `guid` stands for Guid.NewGuid() in "N" format. */
  method CreateTempTableAsync(connection: Connection, sourceTableName: string, guid: string)
    returns (r: Result<string>)
    modifies connection
    ensures !connection.isOpen ==> r == Failure(InvalidOperation) && connection.log == old(connection.log)
    ensures connection.isOpen ==>
              && r == Success(TempTableName(guid))
              && connection.log == old(connection.log) + [CreateTempTableCommand(guid, sourceTableName)]
    ensures connection.isOpen == old(connection.isOpen)
  {
    if !connection.isOpen {
      return Failure(InvalidOperation);
    }
    var tempTableName := TempTableName(guid);
    var _ := connection.Execute(SelectIntoSql(tempTableName, sourceTableName), NoParameters, None, None);
    return Success(tempTableName);
  }

  /** BulkCopyAsync on a SqlConnection: refused unless the connection is
      open; otherwise one bulk copy configured by SqlBulkCopyBuilder.Create
      and reading the records' members. */
  method BulkCopyAsync(connection: Connection, d: Descriptor, tableName: string, records: seq<Row>, options: nat,
                       transaction: Option<Transaction>, timeout: Option<int>, batchSize: Option<int>,
                       handler: Option<Handler>)
    returns (r: Result<()>)
    requires connection.isSqlConnection
    modifies connection
    ensures !connection.isOpen ==> r == Failure(InvalidOperation) && connection.log == old(connection.log)
    ensures connection.isOpen ==>
              && r == Success(())
              && connection.log == old(connection.log)
                   + [BulkCopyOf(d, tableName, records, options, transaction, timeout, batchSize, handler)]
    ensures connection.isOpen == old(connection.isOpen)
  {
    if !connection.isOpen {
      return Failure(InvalidOperation);
    }
    var bulkCopy := Create(connection, d, tableName, options, transaction, timeout, batchSize, handler);
    bulkCopy.WriteToServer(records, Members(d));
    return Success(());
  }

  /** BulkCopyAsync on an IDbConnection: the driver checks, then the
      SqlConnection overload. */
  method DbBulkCopyAsync(connection: Connection, d: Descriptor, tableName: string, records: seq<Row>, options: nat,
                         transaction: Option<Transaction>, timeout: Option<int>, batchSize: Option<int>,
                         handler: Option<Handler>)
    returns (r: Result<()>)
    modifies connection
    ensures DriverCheck(connection.isSqlConnection, transaction).Some? ==>
              && r == Failure(DriverCheck(connection.isSqlConnection, transaction).value)
              && connection.log == old(connection.log)
    ensures DriverCheck(connection.isSqlConnection, transaction).None? && !connection.isOpen ==>
              r == Failure(InvalidOperation) && connection.log == old(connection.log)
    ensures DriverCheck(connection.isSqlConnection, transaction).None? && connection.isOpen ==>
              && r == Success(())
              && connection.log == old(connection.log)
                   + [BulkCopyOf(d, tableName, records, options, transaction, timeout, batchSize, handler)]
    ensures connection.isOpen == old(connection.isOpen)
  {
    var check := DriverCheck(connection.isSqlConnection, transaction);
    if check.Some? {
      return Failure(check.value);
    }
    r := BulkCopyAsync(connection, d, tableName, records, options, transaction, timeout, batchSize, handler);
  }

  /** BulkUpdateAsync on a SqlConnection: the temporary table, the bulk copy
      of the records into it (in the caller's transaction, with the caller's
      timeout and batch size), then the UPDATE ... JOIN from it, whose count
      is returned.  A closed connection is refused before anything is sent.
      The bulk copy's own open check cannot fail: the temporary table was
      just created on the same, still open, connection. */
  method BulkUpdateAsync(connection: Connection, d: Descriptor, tableName: string, records: seq<Row>,
                         transaction: Option<Transaction>, timeout: Option<int>, batchSize: Option<int>,
                         guid: string)
    returns (r: Result<nat>)
    requires connection.isSqlConnection
    modifies connection
    ensures !connection.isOpen ==> r == Failure(InvalidOperation) && connection.log == old(connection.log)
    ensures connection.isOpen ==>
              var tempTable := TempTableName(guid);
              var update := BulkUpdateSql(d, tableName, tempTable);
              && r == Success(connection.affected(update, NoParameters))
              && connection.log == old(connection.log)
                   + [CreateTempTableCommand(guid, tableName),
                      BulkCopyOf(d, tempTable, records, DefaultOptions, transaction, timeout, batchSize, None),
                      Execution(update, NoParameters, transaction, timeout)]
    ensures connection.isOpen == old(connection.isOpen)
  {
    var created := CreateTempTableAsync(connection, tableName, guid);
    if created.Failure? {
      return Failure(created.error);
    }
    var tempTable := created.value;
    var _ := BulkCopyAsync(connection, d, tempTable, records, DefaultOptions, transaction, timeout, batchSize, None);
    var count := connection.Execute(BulkUpdateSql(d, tableName, tempTable), NoParameters, transaction, timeout);
    return Success(count);
  }

  /** BulkUpdateAsync on an IDbConnection: the driver checks, then the
      SqlConnection overload. */
  method DbBulkUpdateAsync(connection: Connection, d: Descriptor, tableName: string, records: seq<Row>,
                           transaction: Option<Transaction>, timeout: Option<int>, batchSize: Option<int>,
                           guid: string)
    returns (r: Result<nat>)
    modifies connection
    ensures DriverCheck(connection.isSqlConnection, transaction).Some? ==>
              && r == Failure(DriverCheck(connection.isSqlConnection, transaction).value)
              && connection.log == old(connection.log)
    ensures DriverCheck(connection.isSqlConnection, transaction).None? && !connection.isOpen ==>
              r == Failure(InvalidOperation) && connection.log == old(connection.log)
    ensures DriverCheck(connection.isSqlConnection, transaction).None? && connection.isOpen ==>
              var tempTable := TempTableName(guid);
              var update := BulkUpdateSql(d, tableName, tempTable);
              && r == Success(connection.affected(update, NoParameters))
              && connection.log == old(connection.log)
                   + [CreateTempTableCommand(guid, tableName),
                      BulkCopyOf(d, tempTable, records, DefaultOptions, transaction, timeout, batchSize, None),
                      Execution(update, NoParameters, transaction, timeout)]
    ensures connection.isOpen == old(connection.isOpen)
  {
    var check := DriverCheck(connection.isSqlConnection, transaction);
    if check.Some? {
      return Failure(check.value);
    }
    r := BulkUpdateAsync(connection, d, tableName, records, transaction, timeout, batchSize, guid);
  }

  /** BulkMergeAsync on a SqlConnection: the temporary table, the bulk copy
      of the records into it, then the MERGE from it (with the delete clause
      when `enableDelete`), whose count is returned.  A closed connection is
      refused before anything is sent. */
  method BulkMergeAsync(connection: Connection, d: Descriptor, tableName: string, records: seq<Row>,
                        enableDelete: bool, transaction: Option<Transaction>, timeout: Option<int>,
                        batchSize: Option<int>, guid: string)
    returns (r: Result<nat>)
    requires connection.isSqlConnection
    modifies connection
    ensures !connection.isOpen ==> r == Failure(InvalidOperation) && connection.log == old(connection.log)
    ensures connection.isOpen ==>
              var tempTable := TempTableName(guid);
              var merge := MergeSql(d, tableName, tempTable, enableDelete);
              && r == Success(connection.affected(merge, NoParameters))
              && connection.log == old(connection.log)
                   + [CreateTempTableCommand(guid, tableName),
                      BulkCopyOf(d, tempTable, records, DefaultOptions, transaction, timeout, batchSize, None),
                      Execution(merge, NoParameters, transaction, timeout)]
    ensures connection.isOpen == old(connection.isOpen)
  {
    var created := CreateTempTableAsync(connection, tableName, guid);
    if created.Failure? {
      return Failure(created.error);
    }
    var tempTable := created.value;
    var _ := BulkCopyAsync(connection, d, tempTable, records, DefaultOptions, transaction, timeout, batchSize, None);
    var count := connection.Execute(MergeSql(d, tableName, tempTable, enableDelete), NoParameters, transaction, timeout);
    return Success(count);
  }
}
