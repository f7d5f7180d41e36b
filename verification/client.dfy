/** The ADO.NET side the extensions talk to: connections, transactions and
    SqlBulkCopy.  What the server does with a statement is not modelled: a
    connection answers each statement with the number of affected rows its
    `affected` oracle gives, and keeps a log of every command it was sent,
    so that the model can say which statements were run, in which order,
    with which parameters and in which transaction. */
module Client {
  import opened Errors

  /** A parameter object as Dapper sees it: property name to value. */
  type Row = map<string, string>

  /** The `param` argument of Dapper's ExecuteAsync.  A single object binds
      its properties once; a collection runs the statement once per element
      and Dapper adds up the counts. */
  datatype Parameters =
    | NoParameters
    | Record(row: Row)
    | Records(rows: seq<Row>)

  /** An open transaction.  `isSqlTransaction` tells SQL Server's
      SqlTransaction apart from another provider's IDbTransaction. */
  datatype Transaction = Transaction(id: nat, isSqlTransaction: bool)

  /** A subscriber to SqlBulkCopy.SqlRowsCopied. */
  datatype Handler = Handler(id: nat)

  /** One entry of SqlBulkCopy.ColumnMappings. */
  datatype ColumnMapping = ColumnMapping(sourceColumn: string, destinationColumn: string)

  /** What a connection was asked to do. */
  datatype Command =
    | Execution(sql: string, parameters: Parameters, transaction: Option<Transaction>, commandTimeout: Option<int>)
      // SqlBulkCopy.WriteToServerAsync over a reader exposing `columns` of each row, with the copy's settings
    | BulkCopy(destinationTableName: string, rows: seq<Row>, columns: seq<string>,
               columnMappings: seq<ColumnMapping>, bulkTransaction: Option<Transaction>,
               bulkCopyTimeout: int, batchSize: int, options: nat, rowsCopied: seq<Handler>)

  /** SqlBulkCopyOptions.Default: no flag set. */
  const DefaultOptions: nat := 0

  /** The values a new SqlBulkCopy starts with. */
  const DefaultBulkCopyTimeout: int := 30
  const DefaultBatchSize: int := 0

  /** An IDbConnection.  `isSqlConnection` says whether it is SQL Server's
      SqlConnection; `isOpen` whether its State has the Open flag. */
  class Connection {
    const isSqlConnection: bool
    const affected: (string, Parameters) -> nat
    var isOpen: bool
    var log: seq<Command>

    constructor (isSqlConnection: bool, isOpen: bool, affected: (string, Parameters) -> nat)
      ensures this.isSqlConnection == isSqlConnection && this.isOpen == isOpen
      ensures this.affected == affected && log == []
    {
      this.isSqlConnection := isSqlConnection;
      this.isOpen := isOpen;
      this.affected := affected;
      log := [];
    }

    /** Dapper's ExecuteAsync: one command sent, the affected-row count
        returned.  The connection stays in the state it was in. */
    method Execute(sql: string, parameters: Parameters, transaction: Option<Transaction>, commandTimeout: Option<int>)
      returns (count: nat)
      modifies this
      ensures count == affected(sql, parameters)
      ensures log == old(log) + [Execution(sql, parameters, transaction, commandTimeout)]
      ensures isOpen == old(isOpen)
    {
      log := log + [Execution(sql, parameters, transaction, commandTimeout)];
      count := affected(sql, parameters);
    }
  }

  /** Microsoft.Data.SqlClient.SqlBulkCopy: the settings a bulk copy runs
      with.  The connection, options and transaction are fixed when it is
      made; the rest are properties set afterwards. */
  class SqlBulkCopy {
    const connection: Connection
    const options: nat
    const transaction: Option<Transaction>
    var destinationTableName: string
    var bulkCopyTimeout: int
    var batchSize: int
    var rowsCopied: seq<Handler>
    var columnMappings: seq<ColumnMapping>

    /** A new bulk copy: no destination, the default timeout and batch size,
        no subscriber and no column mapping. */
    constructor (connection: Connection, options: nat, transaction: Option<Transaction>)
      ensures this.connection == connection && this.options == options && this.transaction == transaction
      ensures destinationTableName == "" && bulkCopyTimeout == DefaultBulkCopyTimeout
      ensures batchSize == DefaultBatchSize && rowsCopied == [] && columnMappings == []
    {
      this.connection := connection;
      this.options := options;
      this.transaction := transaction;
      destinationTableName := "";
      bulkCopyTimeout := DefaultBulkCopyTimeout;
      batchSize := DefaultBatchSize;
      rowsCopied := [];
      columnMappings := [];
    }

    /** ColumnMappings.Add(source, destination). */
    method AddColumnMapping(source: string, destination: string)
      modifies this
      ensures columnMappings == old(columnMappings) + [ColumnMapping(source, destination)]
      ensures destinationTableName == old(destinationTableName) && bulkCopyTimeout == old(bulkCopyTimeout)
      ensures batchSize == old(batchSize) && rowsCopied == old(rowsCopied)
    {
      columnMappings := columnMappings + [ColumnMapping(source, destination)];
    }

    /** WriteToServerAsync over a reader of `rows` exposing `columns`: the
        connection is sent one bulk copy carrying this copy's settings. */
    method WriteToServer(rows: seq<Row>, columns: seq<string>)
      modifies connection
      ensures connection.log == old(connection.log) + [Written(rows, columns)]
      ensures connection.isOpen == old(connection.isOpen)
    {
      connection.log := connection.log + [Written(rows, columns)];
    }

    /** The command a write with the current settings sends. */
    function Written(rows: seq<Row>, columns: seq<string>): Command
      reads this
    {
      BulkCopy(destinationTableName, rows, columns, columnMappings, transaction, bulkCopyTimeout, batchSize,
               options, rowsCopied)
    }
  }
}
