/** SqlBulkCopyBuilder.Create: a SqlBulkCopy aimed at a table, with the
    caller's overrides applied and every member of the record type mapped
    to the column of the same name. */
module SqlBulkCopyBuilder {
  import opened Errors
  import opened TypeCache
  import opened Client

  /** The source columns of a mapping list, in order. */
  function SourceColumns(ms: seq<ColumnMapping>): seq<string>
    decreases |ms|
  {
    if ms == [] then [] else [ms[0].sourceColumn] + SourceColumns(ms[1..])
  }

  /** The destination columns of a mapping list, in order. */
  function DestinationColumns(ms: seq<ColumnMapping>): seq<string>
    decreases |ms|
  {
    if ms == [] then [] else [ms[0].destinationColumn] + DestinationColumns(ms[1..])
  }

  /** One mapping per name, in order, each from a column to the column of
      the same name: the sources and the destinations both read back as the
      names. */
  function Mappings(names: seq<string>): (ms: seq<ColumnMapping>)
    ensures |ms| == |names|
    ensures SourceColumns(ms) == names && DestinationColumns(ms) == names
    decreases |names|
  {
    if names == [] then [] else [ColumnMapping(names[0], names[0])] + Mappings(names[1..])
  }

  /** Adding the mapping for one more name extends the list by one entry. */
  lemma {:induction false} MappingsSnoc(names: seq<string>, n: string)
    ensures Mappings(names + [n]) == Mappings(names) + [ColumnMapping(n, n)]
    decreases |names|
  {
    if names != [] {
      assert (names + [n])[1..] == names[1..] + [n];
      MappingsSnoc(names[1..], n);
    }
  }

  /** Create<T>: destination set to the table; the timeout, the batch size
      and the rows-copied handler changed only when the caller supplies
      one; then one column mapping per member, in member order. */
  method Create(connection: Connection, d: Descriptor, tableName: string, options: nat,
                transaction: Option<Transaction>, timeout: Option<int>, batchSize: Option<int>,
                handler: Option<Handler>)
    returns (bulkCopy: SqlBulkCopy)
    ensures fresh(bulkCopy)
    ensures bulkCopy.connection == connection && bulkCopy.options == options
    ensures bulkCopy.transaction == transaction
    ensures bulkCopy.destinationTableName == tableName
    ensures bulkCopy.bulkCopyTimeout == if timeout.Some? then timeout.value else DefaultBulkCopyTimeout
    ensures bulkCopy.batchSize == if batchSize.Some? then batchSize.value else DefaultBatchSize
    ensures bulkCopy.rowsCopied == if handler.Some? then [handler.value] else []
    ensures bulkCopy.columnMappings == Mappings(Members(d))
  {
    bulkCopy := new SqlBulkCopy(connection, options, transaction);
    bulkCopy.destinationTableName := tableName;
    if timeout.Some? {
      bulkCopy.bulkCopyTimeout := timeout.value;
    }
    if batchSize.Some? {
      bulkCopy.batchSize := batchSize.value;
    }
    if handler.Some? {
      bulkCopy.rowsCopied := bulkCopy.rowsCopied + [handler.value];
    }
    AddMappings(bulkCopy, Members(d));
  }

  /** The foreach over the members: ColumnMappings.Add(member, member) for
      each, in order, nothing else of the bulk copy changed. */
  method AddMappings(bulkCopy: SqlBulkCopy, names: seq<string>)
    modifies bulkCopy
    ensures bulkCopy.columnMappings == old(bulkCopy.columnMappings) + Mappings(names)
    ensures bulkCopy.destinationTableName == old(bulkCopy.destinationTableName)
    ensures bulkCopy.bulkCopyTimeout == old(bulkCopy.bulkCopyTimeout)
    ensures bulkCopy.batchSize == old(bulkCopy.batchSize) && bulkCopy.rowsCopied == old(bulkCopy.rowsCopied)
  {
    for i := 0 to |names|
      invariant bulkCopy.columnMappings == old(bulkCopy.columnMappings) + Mappings(names[..i])
      invariant bulkCopy.destinationTableName == old(bulkCopy.destinationTableName)
      invariant bulkCopy.bulkCopyTimeout == old(bulkCopy.bulkCopyTimeout)
      invariant bulkCopy.batchSize == old(bulkCopy.batchSize) && bulkCopy.rowsCopied == old(bulkCopy.rowsCopied)
    {
      assert names[..i + 1] == names[..i] + [names[i]];
      MappingsSnoc(names[..i], names[i]);
      bulkCopy.AddColumnMapping(names[i], names[i]);
    }
    assert names[..|names|] == names;
  }

  /** The mappings Create adds pair every member with itself: the source
      columns and the destination columns are each exactly the member list,
      in member order, so there are as many mappings as members. */
  lemma MappingsOneToOne(d: Descriptor)
    ensures |Mappings(Members(d))| == |d|
    ensures forall i :: 0 <= i < |d| ==> Mappings(Members(d))[i] == ColumnMapping(d[i].name, d[i].name)
  {
    var ms, names := Mappings(Members(d)), Members(d);
    forall i | 0 <= i < |d|
      ensures ms[i] == ColumnMapping(d[i].name, d[i].name)
    {
      MappingAt(names, i);
    }
  }

  /** The i-th mapping maps the i-th name to itself. */
  lemma {:induction false} MappingAt(names: seq<string>, i: int)
    requires 0 <= i < |names|
    ensures Mappings(names)[i] == ColumnMapping(names[i], names[i])
    decreases |names|
  {
    if i > 0 {
      MappingAt(names[1..], i - 1);
    }
  }

  /** The record type of the library's own test (Id, then Name) gets the
      mappings Id -> Id and Name -> Name. */
  lemma CreateExample()
    ensures Mappings(Members([Member("Id", false), Member("Name", false)]))
         == [ColumnMapping("Id", "Id"), ColumnMapping("Name", "Name")]
  {
  }
}
