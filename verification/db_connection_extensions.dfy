/** DbConnectionExtensions: INSERT, UPDATE and DELETE of records through
    Dapper, one record or a batch at a time.  The statement text for a
    (record type, table) pair is built once and kept in one of three
    dictionaries; a batch is cut into chunks with TakeBy and each chunk is
    executed with that one text, the affected-row counts being added up. */
module DbConnectionExtensions {
  import opened Errors
  import opened TypeCache
  import opened SqlBuilder
  import opened EnumerableExtensions
  import opened Client

  /** The key of the statement caches: the record type, described by its
      members, and the table name. */
  datatype CacheKey = CacheKey(recordType: Descriptor, tableName: string)

  /** ConcurrentDictionary.GetOrAdd: the stored value when the key is
      present (the dictionary unchanged), otherwise `made`, now stored. */
  function GetOrAdd(cache: map<CacheKey, string>, key: CacheKey, made: string): (r: (string, map<CacheKey, string>))
    ensures key in r.1 && r.1[key] == r.0
    ensures forall k :: k in cache && k != key ==> k in r.1 && r.1[k] == cache[k]
    ensures forall k :: k in r.1 ==> k in cache || k == key
    ensures key in cache ==> r.0 == cache[key] && r.1 == cache
    ensures key !in cache ==> r.0 == made
  {
    if key in cache then (cache[key], cache) else (made, cache[key := made])
  }

  /** A second GetOrAdd for the same key returns what the first stored and
      leaves the dictionary as the first left it. */
  lemma GetOrAddIdempotent(cache: map<CacheKey, string>, key: CacheKey, made: string, madeAgain: string)
    ensures var (first, after) := GetOrAdd(cache, key, made);
            GetOrAdd(after, key, madeAgain) == (first, after)
  {
  }

  /** The three static dictionaries InsertCache, UpdateCache and
      DeleteCache.  Each is read and filled through GetOrAdd. */
  class StatementCaches {
    var insertCache: map<CacheKey, string>
    var updateCache: map<CacheKey, string>
    var deleteCache: map<CacheKey, string>

    /** Every entry of InsertCache is the INSERT text for its key. */
    predicate InsertValid()
      reads this
    {
      forall k :: k in insertCache ==> insertCache[k] == CreateInsert(k.recordType, k.tableName)
    }

    /** Every entry of UpdateCache is the UPDATE text for its key. */
    predicate UpdateValid()
      reads this
    {
      forall k :: k in updateCache ==> updateCache[k] == CreateUpdate(k.recordType, k.tableName)
    }

    /** Every entry of DeleteCache is the DELETE text for its key. */
    predicate DeleteValid()
      reads this
    {
      forall k :: k in deleteCache ==> deleteCache[k] == CreateDelete(k.recordType, k.tableName)
    }

    constructor ()
      ensures InsertValid() && UpdateValid() && DeleteValid()
      ensures insertCache == map[] && updateCache == map[] && deleteCache == map[]
    {
      insertCache, updateCache, deleteCache := map[], map[], map[];
    }

    /** GetInsert<T>(tableName).  Nothing else writes InsertCache, so it
        only ever holds INSERT texts and the INSERT text comes back. */
    method GetInsert(d: Descriptor, tableName: string) returns (sql: string)
      requires InsertValid()
      modifies this
      ensures InsertValid()
      ensures sql == CreateInsert(d, tableName)
      ensures insertCache == old(insertCache)[CacheKey(d, tableName) := sql]
      ensures CacheKey(d, tableName) in old(insertCache) ==> insertCache == old(insertCache)
      ensures updateCache == old(updateCache) && deleteCache == old(deleteCache)
    {
      var r := GetOrAdd(insertCache, CacheKey(d, tableName), CreateInsert(d, tableName));
      sql, insertCache := r.0, r.1;
    }

    /** GetUpdate<T>(tableName): whatever UpdateCache holds for the key,
        else the UPDATE text, now stored.  UpdateCache is shared with
        GetDelete, so after a delete of the same type and table this is the
        DELETE text; while UpdateCache holds only UPDATE texts, it is the
        UPDATE text and stays so. */
    method GetUpdate(d: Descriptor, tableName: string) returns (sql: string)
      modifies this
      ensures var key := CacheKey(d, tableName);
              sql == if key in old(updateCache) then old(updateCache)[key] else CreateUpdate(d, tableName)
      ensures updateCache == old(updateCache)[CacheKey(d, tableName) := sql]
      ensures old(UpdateValid()) ==> UpdateValid() && sql == CreateUpdate(d, tableName)
      ensures insertCache == old(insertCache) && deleteCache == old(deleteCache)
    {
      var r := GetOrAdd(updateCache, CacheKey(d, tableName), CreateUpdate(d, tableName));
      sql, updateCache := r.0, r.1;
    }

    /** GetDelete<T>(tableName) as the library writes it: the DELETE text is
        looked up in, and stored into, UpdateCache.  DeleteCache is never
        touched; once GetUpdate has run for the key the UPDATE text comes
        back, and if GetDelete runs first, UpdateCache holds a DELETE text
        and no longer holds only UPDATE texts. */
    method GetDelete(d: Descriptor, tableName: string) returns (sql: string)
      modifies this
      ensures var key := CacheKey(d, tableName);
              sql == if key in old(updateCache) then old(updateCache)[key] else CreateDelete(d, tableName)
      ensures updateCache == old(updateCache)[CacheKey(d, tableName) := sql]
      ensures insertCache == old(insertCache) && deleteCache == old(deleteCache)
      ensures old(UpdateValid()) && CacheKey(d, tableName) in old(updateCache)
              ==> sql == CreateUpdate(d, tableName) && sql != CreateDelete(d, tableName)
      ensures CacheKey(d, tableName) !in old(updateCache) ==> !UpdateValid()
    {
      var r := GetOrAdd(updateCache, CacheKey(d, tableName), CreateDelete(d, tableName));
      sql, updateCache := r.0, r.1;
      UpdateIsNotDelete(d, tableName);
    }

    /** GetDelete<T>(tableName) reading and filling DeleteCache. */
    method GetDeleteCorrected(d: Descriptor, tableName: string) returns (sql: string)
      requires DeleteValid()
      modifies this
      ensures DeleteValid()
      ensures sql == CreateDelete(d, tableName)
      ensures deleteCache == old(deleteCache)[CacheKey(d, tableName) := sql]
      ensures CacheKey(d, tableName) in old(deleteCache) ==> deleteCache == old(deleteCache)
      ensures insertCache == old(insertCache) && updateCache == old(updateCache)
    {
      var r := GetOrAdd(deleteCache, CacheKey(d, tableName), CreateDelete(d, tableName));
      sql, deleteCache := r.0, r.1;
    }
  }

  /** An UPDATE text is never a DELETE text: they differ in their first
      letter. */
  lemma UpdateIsNotDelete(d: Descriptor, tableName: string)
    ensures CreateUpdate(d, tableName) != CreateDelete(d, tableName)
  {
    assert CreateUpdate(d, tableName)[0] == 'u';
    assert CreateDelete(d, tableName)[0] == 'd';
  }

  // ---- Batches ----

  /** The chunk size when the caller gives none. */
  const DefaultBatchSize: int := 100

  /** `batchSize ?? 100`. */
  function ChunkSize(batchSize: Option<int>): (n: int)
    ensures batchSize.None? ==> n == DefaultBatchSize
    ensures batchSize.Some? ==> n == batchSize.value
  {
    if batchSize.Some? then batchSize.value else DefaultBatchSize
  }

  /** The commands a batch sends: the one statement text, once per chunk,
      with the chunk's records as its parameters, no transaction and no
      timeout. */
  function Executions(sql: string, chunks: seq<seq<Row>>): (cs: seq<Command>)
    ensures |cs| == |chunks|
    ensures forall i :: 0 <= i < |chunks| ==> cs[i] == Execution(sql, Records(chunks[i]), None, None)
  {
    seq(|chunks|, i requires 0 <= i < |chunks| => Execution(sql, Records(chunks[i]), None, None))
  }

  /** The sum of what the database answers for each chunk. */
  function TotalAffected(affected: (string, Parameters) -> nat, sql: string, chunks: seq<seq<Row>>): nat
    decreases |chunks|
  {
    if chunks == [] then 0
    else TotalAffected(affected, sql, chunks[..|chunks| - 1]) + affected(sql, Records(chunks[|chunks| - 1]))
  }

  /** The records that reach the database through a batch's commands. */
  function SentRecords(cs: seq<Command>): seq<Row>
    decreases |cs|
  {
    if cs == [] then []
    else (if cs[0].Execution? && cs[0].parameters.Records? then cs[0].parameters.rows else []) + SentRecords(cs[1..])
  }

  /** What a batch sends: every record exactly once, in order, all with
      the same text; nothing at all for no records; and ceil(n / size)
      commands when the size is positive. */
  lemma {:induction false} BatchesCoverRecords(sql: string, records: seq<Row>, size: nat)
    ensures SentRecords(Executions(sql, Chunks(records, size))) == records
    ensures forall c :: c in Executions(sql, Chunks(records, size)) ==> c.sql == sql
    ensures records == [] ==> Executions(sql, Chunks(records, size)) == []
    ensures size >= 1 ==> |Executions(sql, Chunks(records, size))| == (|records| + size - 1) / size
  {
    SentChunks(sql, Chunks(records, size));
    FlattenChunks(records, size);
    if size >= 1 {
      ChunkCount(records, size);
    }
  }

  /** The records sent by the commands for some chunks are the chunks laid
      end to end. */
  lemma {:induction false} SentChunks(sql: string, chunks: seq<seq<Row>>)
    ensures SentRecords(Executions(sql, chunks)) == Flatten(chunks)
    decreases |chunks|
  {
    if chunks != [] {
      SentChunks(sql, chunks[1..]);
      assert Executions(sql, chunks)[1..] == Executions(sql, chunks[1..]);
    }
  }

  /** The Batch*Async loop: the statement text, already fetched, is run
      for every chunk TakeBy(batchSize ?? 100) yields, and the counts are
      added up.  A negative size makes TakeBy throw before any chunk is
      run. */
  method ExecuteInBatches(connection: Connection, sql: string, records: seq<Row>, batchSize: Option<int>)
    returns (r: Result<nat>)
    modifies connection
    ensures ChunkSize(batchSize) < 0 ==> r == Failure(ArgumentOutOfRange("capacity")) && connection.log == old(connection.log)
    ensures ChunkSize(batchSize) >= 0 ==>
              var chunks := Chunks(records, ChunkSize(batchSize));
              && r == Success(TotalAffected(connection.affected, sql, chunks))
              && connection.log == old(connection.log) + Executions(sql, chunks)
    ensures connection.isOpen == old(connection.isOpen)
  {
    var taken := TakeBy(records, ChunkSize(batchSize));
    if taken.Failure? {
      return Failure(taken.error);
    }
    var chunks := taken.value;
    var count := 0;
    for i := 0 to |chunks|
      invariant count == TotalAffected(connection.affected, sql, chunks[..i])
      invariant connection.log == old(connection.log) + Executions(sql, chunks[..i])
      invariant connection.isOpen == old(connection.isOpen)
    {
      BatchStep(connection.affected, sql, chunks, i);
      var n := connection.Execute(sql, Records(chunks[i]), None, None);
      count := count + n;
    }
    assert chunks[..|chunks|] == chunks;
    return Success(count);
  }

  /** Running one more chunk adds its command and its count. */
  lemma BatchStep(affected: (string, Parameters) -> nat, sql: string, chunks: seq<seq<Row>>, i: nat)
    requires i < |chunks|
    ensures Executions(sql, chunks[..i + 1]) == Executions(sql, chunks[..i]) + [Execution(sql, Records(chunks[i]), None, None)]
    ensures TotalAffected(affected, sql, chunks[..i + 1]) == TotalAffected(affected, sql, chunks[..i]) + affected(sql, Records(chunks[i]))
  {
    assert chunks[..i + 1][..i] == chunks[..i];
  }

  // ---- The extension methods ----

  /** InsertAsync<T>: one execution of the cached INSERT with the record. */
  method InsertAsync(caches: StatementCaches, connection: Connection, d: Descriptor, tableName: string, record: Row)
    returns (count: nat)
    requires caches.InsertValid()
    modifies caches, connection
    ensures caches.InsertValid()
    ensures caches.insertCache == old(caches.insertCache)[CacheKey(d, tableName) := CreateInsert(d, tableName)]
    ensures caches.updateCache == old(caches.updateCache) && caches.deleteCache == old(caches.deleteCache)
    ensures count == connection.affected(CreateInsert(d, tableName), Record(record))
    ensures connection.log == old(connection.log) + [Execution(CreateInsert(d, tableName), Record(record), None, None)]
    ensures connection.isOpen == old(connection.isOpen)
  {
    var sql := caches.GetInsert(d, tableName);
    count := connection.Execute(sql, Record(record), None, None);
  }

  /** BatchInsertAsync<T>: the cached INSERT run chunk by chunk. */
  method BatchInsertAsync(caches: StatementCaches, connection: Connection, d: Descriptor, tableName: string,
                          records: seq<Row>, batchSize: Option<int>)
    returns (r: Result<nat>)
    requires caches.InsertValid()
    modifies caches, connection
    ensures caches.InsertValid()
    ensures caches.insertCache == old(caches.insertCache)[CacheKey(d, tableName) := CreateInsert(d, tableName)]
    ensures caches.updateCache == old(caches.updateCache) && caches.deleteCache == old(caches.deleteCache)
    ensures ChunkSize(batchSize) < 0 ==> r == Failure(ArgumentOutOfRange("capacity")) && connection.log == old(connection.log)
    ensures ChunkSize(batchSize) >= 0 ==>
              var chunks := Chunks(records, ChunkSize(batchSize));
              && r == Success(TotalAffected(connection.affected, CreateInsert(d, tableName), chunks))
              && connection.log == old(connection.log) + Executions(CreateInsert(d, tableName), chunks)
    ensures connection.isOpen == old(connection.isOpen)
  {
    var sql := caches.GetInsert(d, tableName);
    r := ExecuteInBatches(connection, sql, records, batchSize);
  }

  /** UpdateAsync<T>: one execution, with the record, of the text
      UpdateCache gives for the type and table: the UPDATE text while the
      cache holds only UPDATE texts, the DELETE text after a delete of the
      same type and table. */
  method UpdateAsync(caches: StatementCaches, connection: Connection, d: Descriptor, tableName: string, record: Row)
    returns (count: nat)
    modifies caches, connection
    ensures var sql := GetOrAdd(old(caches.updateCache), CacheKey(d, tableName), CreateUpdate(d, tableName)).0;
            && caches.updateCache == old(caches.updateCache)[CacheKey(d, tableName) := sql]
            && count == connection.affected(sql, Record(record))
            && connection.log == old(connection.log) + [Execution(sql, Record(record), None, None)]
    ensures old(caches.UpdateValid()) ==>
              && caches.UpdateValid()
              && connection.log == old(connection.log) + [Execution(CreateUpdate(d, tableName), Record(record), None, None)]
    ensures caches.insertCache == old(caches.insertCache) && caches.deleteCache == old(caches.deleteCache)
    ensures connection.isOpen == old(connection.isOpen)
  {
    var sql := caches.GetUpdate(d, tableName);
    count := connection.Execute(sql, Record(record), None, None);
  }

  /** BatchUpdateAsync<T>: the text UpdateCache gives run chunk by chunk. */
  method BatchUpdateAsync(caches: StatementCaches, connection: Connection, d: Descriptor, tableName: string,
                          records: seq<Row>, batchSize: Option<int>)
    returns (r: Result<nat>)
    modifies caches, connection
    ensures var sql := GetOrAdd(old(caches.updateCache), CacheKey(d, tableName), CreateUpdate(d, tableName)).0;
            && caches.updateCache == old(caches.updateCache)[CacheKey(d, tableName) := sql]
            && (ChunkSize(batchSize) < 0 ==> r == Failure(ArgumentOutOfRange("capacity")) && connection.log == old(connection.log))
            && (ChunkSize(batchSize) >= 0 ==>
                  var chunks := Chunks(records, ChunkSize(batchSize));
                  && r == Success(TotalAffected(connection.affected, sql, chunks))
                  && connection.log == old(connection.log) + Executions(sql, chunks))
    ensures old(caches.UpdateValid()) ==>
              && caches.UpdateValid()
              && (ChunkSize(batchSize) >= 0 ==>
                    connection.log == old(connection.log) + Executions(CreateUpdate(d, tableName), Chunks(records, ChunkSize(batchSize))))
    ensures caches.insertCache == old(caches.insertCache) && caches.deleteCache == old(caches.deleteCache)
    ensures connection.isOpen == old(connection.isOpen)
  {
    var sql := caches.GetUpdate(d, tableName);
    r := ExecuteInBatches(connection, sql, records, batchSize);
  }

  /** DeleteAsync<T> as the library writes it: one execution, with the
      record, of the text UpdateCache gives for the type and table, else
      the DELETE text, now stored in UpdateCache.  After an update of the
      same type and table the UPDATE text is sent. */
  method DeleteAsync(caches: StatementCaches, connection: Connection, d: Descriptor, tableName: string, record: Row)
    returns (count: nat)
    modifies caches, connection
    ensures var sql := GetOrAdd(old(caches.updateCache), CacheKey(d, tableName), CreateDelete(d, tableName)).0;
            && caches.updateCache == old(caches.updateCache)[CacheKey(d, tableName) := sql]
            && count == connection.affected(sql, Record(record))
            && connection.log == old(connection.log) + [Execution(sql, Record(record), None, None)]
    ensures old(caches.UpdateValid()) && CacheKey(d, tableName) in old(caches.updateCache) ==>
              connection.log == old(connection.log) + [Execution(CreateUpdate(d, tableName), Record(record), None, None)]
    ensures caches.insertCache == old(caches.insertCache) && caches.deleteCache == old(caches.deleteCache)
    ensures connection.isOpen == old(connection.isOpen)
  {
    var sql := caches.GetDelete(d, tableName);
    count := connection.Execute(sql, Record(record), None, None);
  }

  /** BatchDeleteAsync<T> as the library writes it: the text UpdateCache
      gives, else the DELETE text, run chunk by chunk. */
  method BatchDeleteAsync(caches: StatementCaches, connection: Connection, d: Descriptor, tableName: string,
                          records: seq<Row>, batchSize: Option<int>)
    returns (r: Result<nat>)
    modifies caches, connection
    ensures var sql := GetOrAdd(old(caches.updateCache), CacheKey(d, tableName), CreateDelete(d, tableName)).0;
            && caches.updateCache == old(caches.updateCache)[CacheKey(d, tableName) := sql]
            && (ChunkSize(batchSize) < 0 ==> r == Failure(ArgumentOutOfRange("capacity")) && connection.log == old(connection.log))
            && (ChunkSize(batchSize) >= 0 ==>
                  var chunks := Chunks(records, ChunkSize(batchSize));
                  && r == Success(TotalAffected(connection.affected, sql, chunks))
                  && connection.log == old(connection.log) + Executions(sql, chunks))
    ensures old(caches.UpdateValid()) && CacheKey(d, tableName) in old(caches.updateCache) && ChunkSize(batchSize) >= 0 ==>
              connection.log == old(connection.log) + Executions(CreateUpdate(d, tableName), Chunks(records, ChunkSize(batchSize)))
    ensures caches.insertCache == old(caches.insertCache) && caches.deleteCache == old(caches.deleteCache)
    ensures connection.isOpen == old(connection.isOpen)
  {
    var sql := caches.GetDelete(d, tableName);
    r := ExecuteInBatches(connection, sql, records, batchSize);
  }

  /** DeleteAsync<T> with GetDelete reading DeleteCache: one execution of
      the DELETE text with the record. */
  method DeleteAsyncCorrected(caches: StatementCaches, connection: Connection, d: Descriptor, tableName: string,
                              record: Row)
    returns (count: nat)
    requires caches.DeleteValid()
    modifies caches, connection
    ensures caches.DeleteValid()
    ensures caches.deleteCache == old(caches.deleteCache)[CacheKey(d, tableName) := CreateDelete(d, tableName)]
    ensures caches.insertCache == old(caches.insertCache) && caches.updateCache == old(caches.updateCache)
    ensures count == connection.affected(CreateDelete(d, tableName), Record(record))
    ensures connection.log == old(connection.log) + [Execution(CreateDelete(d, tableName), Record(record), None, None)]
    ensures connection.isOpen == old(connection.isOpen)
  {
    var sql := caches.GetDeleteCorrected(d, tableName);
    count := connection.Execute(sql, Record(record), None, None);
  }

  /** BatchDeleteAsync<T> with GetDelete reading DeleteCache: the DELETE
      text run chunk by chunk. */
  method BatchDeleteAsyncCorrected(caches: StatementCaches, connection: Connection, d: Descriptor,
                                   tableName: string, records: seq<Row>, batchSize: Option<int>)
    returns (r: Result<nat>)
    requires caches.DeleteValid()
    modifies caches, connection
    ensures caches.DeleteValid()
    ensures caches.deleteCache == old(caches.deleteCache)[CacheKey(d, tableName) := CreateDelete(d, tableName)]
    ensures caches.insertCache == old(caches.insertCache) && caches.updateCache == old(caches.updateCache)
    ensures ChunkSize(batchSize) < 0 ==> r == Failure(ArgumentOutOfRange("capacity")) && connection.log == old(connection.log)
    ensures ChunkSize(batchSize) >= 0 ==>
              var chunks := Chunks(records, ChunkSize(batchSize));
              && r == Success(TotalAffected(connection.affected, CreateDelete(d, tableName), chunks))
              && connection.log == old(connection.log) + Executions(CreateDelete(d, tableName), chunks)
    ensures connection.isOpen == old(connection.isOpen)
  {
    var sql := caches.GetDeleteCorrected(d, tableName);
    r := ExecuteInBatches(connection, sql, records, batchSize);
  }

  // ---- The order of calls that exposes GetDelete ----
  // Each scenario starts a process afresh (empty caches) on a new open
  // connection and returns what the connection was sent.

  /** UpdateAsync and then DeleteAsync for the same type, table and
      record: the delete is sent the UPDATE text a second time. */
  method UpdateThenDelete(d: Descriptor, tableName: string, record: Row, affected: (string, Parameters) -> nat)
    returns (sent: seq<Command>)
    ensures sent == [Execution(CreateUpdate(d, tableName), Record(record), None, None),
                     Execution(CreateUpdate(d, tableName), Record(record), None, None)]
    ensures sent[1].sql != CreateDelete(d, tableName)
  {
    var caches := new StatementCaches();
    var connection := new Connection(true, true, affected);
    var _ := UpdateAsync(caches, connection, d, tableName, record);
    var _ := DeleteAsync(caches, connection, d, tableName, record);
    UpdateIsNotDelete(d, tableName);
    sent := connection.log;
  }

  /** The same calls with DeleteAsyncCorrected: the delete is sent the
      DELETE text. */
  method UpdateThenDeleteCorrected(d: Descriptor, tableName: string, record: Row,
                                   affected: (string, Parameters) -> nat)
    returns (sent: seq<Command>)
    ensures sent == [Execution(CreateUpdate(d, tableName), Record(record), None, None),
                     Execution(CreateDelete(d, tableName), Record(record), None, None)]
  {
    var caches := new StatementCaches();
    var connection := new Connection(true, true, affected);
    var _ := UpdateAsync(caches, connection, d, tableName, record);
    var _ := DeleteAsyncCorrected(caches, connection, d, tableName, record);
    sent := connection.log;
  }

  /** DeleteAsync and then UpdateAsync for the same type, table and
      record: the DELETE text is left in UpdateCache, so the update is
      sent the DELETE text too. */
  method DeleteThenUpdate(d: Descriptor, tableName: string, record: Row, affected: (string, Parameters) -> nat)
    returns (sent: seq<Command>)
    ensures sent == [Execution(CreateDelete(d, tableName), Record(record), None, None),
                     Execution(CreateDelete(d, tableName), Record(record), None, None)]
    ensures sent[1].sql != CreateUpdate(d, tableName)
  {
    var caches := new StatementCaches();
    var connection := new Connection(true, true, affected);
    var _ := DeleteAsync(caches, connection, d, tableName, record);
    var _ := UpdateAsync(caches, connection, d, tableName, record);
    UpdateIsNotDelete(d, tableName);
    sent := connection.log;
  }

  /** The same calls with DeleteAsyncCorrected: the update is sent the
      UPDATE text. */
  method DeleteThenUpdateCorrected(d: Descriptor, tableName: string, record: Row,
                                   affected: (string, Parameters) -> nat)
    returns (sent: seq<Command>)
    ensures sent == [Execution(CreateDelete(d, tableName), Record(record), None, None),
                     Execution(CreateUpdate(d, tableName), Record(record), None, None)]
  {
    var caches := new StatementCaches();
    var connection := new Connection(true, true, affected);
    var _ := DeleteAsyncCorrected(caches, connection, d, tableName, record);
    var _ := UpdateAsync(caches, connection, d, tableName, record);
    sent := connection.log;
  }

  /** No records: no command, a count of 0. */
  lemma NoRecordsNothingSent(affected: (string, Parameters) -> nat, sql: string, size: nat)
    ensures Executions(sql, Chunks([], size)) == [] && TotalAffected(affected, sql, Chunks([], size)) == 0
  {
  }

  /** The library's three-record batch of two: two commands, carrying the
      first two records and then the third. */
  lemma BatchOfTwoExample(sql: string, a: Row, b: Row, c: Row)
    ensures Executions(sql, Chunks([a, b, c], 2))
         == [Execution(sql, Records([a, b]), None, None), Execution(sql, Records([c]), None, None)]
  {
    var rs := [a, b, c];
    assert rs[..2] == [a, b] && rs[2..] == [c];
  }
}
