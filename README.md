# CREATE TABLE resolution, keyspace metadata and per-column index maintenance

This project models three parts of a Cassandra-derived database core in Dafny and proves properties of them:

- **`CREATE TABLE` resolution.** The parser accumulates declarations in a
  `CreateTableStatement.RawStatement`. `prepare()` turns them into a
  `CreateTableStatement`: partition key validator, cell-name comparator,
  clustering aliases, compact value alias, default validator and the remaining
  regular and static columns, or the `InvalidRequestException` it throws.
  `getCFMetaData()` then turns the prepared statement into table metadata.
  - `CreateTable.Resolve` is a function specifying `prepare()` step by step, in
    the code's own order of checks.
  - `CreateTableProperties` proves what `Resolve` accepts and computes.
  - `CreateTableStatements` holds the two classes. Their methods mutate fields
    and maps as the Java code does and are proved equal to the specification
    functions.
  - `TableMetadata` specifies `getCFMetaData()` and proves the role each column
    ends up with.
- **Keyspace metadata** (`KeyspaceMetadata`). `KSMetaData` is an immutable
  value. Its table map is a fold over table definitions in which a later
  definition of a name wins. The copy-on-write add and remove are proved to
  change exactly one entry.
- **Per-column secondary index** (`SecondaryIndexes`). An
  `AbstractSimplePerColumnSecondaryIndex` turns base-table cell writes into
  writes to its own store. The store is modelled by the sequence of requests
  it receives. `insert`, `delete` and `update` are proved to send exactly the
  requests the code builds, and never a request that would index again.

Java's `HashMap` and `HashMultiset` iteration order is not determined by the
code. Wherever it matters, it is a parameter `order`. It decides:
- which duplicate name is reported;
- which column becomes the compact value column;
- which column decides the counter default validator;
- the order of `values()` when a keyspace is cloned.

Where the documented behaviour of the system and its code differ, the model
follows the code:
- `insert` does not skip dead cells; only `delete` does.
- `COMPACT STORAGE` with no clustering column and no column outside the
  PRIMARY KEY is rejected ("No definition found that is not part of the
  PRIMARY KEY").
- CLUSTERING ORDER may name any in-order prefix of the clustering columns,
  not necessarily all of them.

A counter column declared DESC passes the PRIMARY KEY counter check, because
`getTypeAndRemove` wraps it in `ReversedType` before the `instanceof
CounterColumnType` test. The model keeps this behaviour. A clustering
column of that kind is accepted. A partition key part of that kind is
rejected, but only by the CLUSTERING ORDER check.

## Model

| member | source | states |
|---|---|---|
| CreateTable.FirstDuplicate | src/java/org/apache/cassandra/cql3/statements/CreateTableStatement.java:330-332 | the reported name is declared more than once; if none is reported, no name in iteration order is declared twice |
| CreateTable.FirstIn | src/java/org/apache/cassandra/cql3/statements/CreateTableStatement.java:520-522 | the entry returned is in the map, and no earlier identifier in iteration order is |
| CreateTable.ComparatorFor | src/java/org/apache/cassandra/cql3/statements/CreateTableStatement.java:407-483 | the chosen comparator's clustering prefix is as long as the clustering key; it is dense iff the table is compact with clustering columns; it is compound unless compact with at most one clustering column; it carries collections iff the table is not compact and has multi-cell collections |
| CreateTableProperties.KeyLoopSpec | src/java/org/apache/cassandra/cql3/statements/CreateTableStatement.java:374-401 | the key-part loop succeeds iff every part is declared, not a multi-cell collection, not a counter (after DESC wrapping), not static and not repeated; it then yields the parts' types and removes exactly those parts from the columns |
| CreateTableProperties.ClusteringStageSpec | src/java/org/apache/cassandra/cql3/statements/CreateTableStatement.java:407-483 | the comparator step succeeds iff the clustering parts are valid, COMPACT STORAGE has no multi-cell collection and, without clustering, keeps a column; it then yields the decision-table comparator and the columns less the clustering parts |
| CreateTableProperties.ValueStageSpec | src/java/org/apache/cassandra/cql3/statements/CreateTableStatement.java:497-542 | compact with clustering: at most one column left; none gives Bytes and the empty alias, one becomes the value column and is removed. Otherwise: the alias stays null, the columns stay, and the validator is Counter iff the first column in iteration order is a counter, else Bytes |
| CreateTableProperties.OrderingLoopSpec | src/java/org/apache/cassandra/cql3/statements/CreateTableStatement.java:555-568 | the ordering walk raises nothing iff the ordering keys equal the clustering aliases position by position |
| CreateTableProperties.OrderingCheckSpec | src/java/org/apache/cassandra/cql3/statements/CreateTableStatement.java:550-569 | CLUSTERING ORDER is accepted iff its keys, in insertion order, are a prefix of the clustering columns |
| CreateTableProperties.OrderingErrorChoice | src/java/org/apache/cassandra/cql3/statements/CreateTableStatement.java:555-568 | at the first position where CLUSTERING ORDER leaves the clustering columns, the expected clustering column is reported out of order iff CLUSTERING ORDER names it (with distinct clustering columns: names it later), and missing otherwise |
| CreateTableProperties.ResolveKeyStage | src/java/org/apache/cassandra/cql3/statements/CreateTableStatement.java:374-401 | after a successful prepare, the partition key parts are valid and the key loop yields their types and removes them |
| CreateTableProperties.ResolveClusteringStage | src/java/org/apache/cassandra/cql3/statements/CreateTableStatement.java:407-483 | after a successful prepare, the clustering parts are valid, COMPACT STORAGE has no multi-cell collection, and the comparator is the decision-table one over the declared clustering types |
| CreateTableProperties.ResolveAcceptsExactly | src/java/org/apache/cassandra/cql3/statements/CreateTableStatement.java:315-572 | prepare succeeds iff the definition is acceptable: name, no duplicates, one PRIMARY KEY, no counters with a default TTL, valid key and clustering parts, the COMPACT STORAGE and static rules, ordering a prefix; in either direction and for every iteration order |
| CreateTableProperties.ResolvePartitionKey | src/java/org/apache/cassandra/cql3/statements/CreateTableStatement.java:372-401 | the key aliases are the PRIMARY KEY's partition parts; the key validator is the single part's type, or the composite of the parts' types in declaration order |
| CreateTableProperties.ResolveComparator | src/java/org/apache/cassandra/cql3/statements/CreateTableStatement.java:407-483 | the comparator is the decision-table comparator over the clustering types, its prefix size is the number of clustering aliases, `isDense` agrees with it, and a compact table's comparator never carries collections |
| CreateTableProperties.ResolveValue | src/java/org/apache/cassandra/cql3/statements/CreateTableStatement.java:497-542 | compact with clustering: no columns remain and the value alias and validator come from the single leftover column (or Bytes and the empty alias); otherwise the alias is null, the leftover columns stay, and the validator is Counter only if some leftover column is a counter, else Bytes |
| CreateTableProperties.CompactNoColumnUnreachable | src/java/org/apache/cassandra/cql3/statements/CreateTableStatement.java:534-535 | the "non-composite PRIMARY KEY require one column" error is never raised, because the comparator step rejects the same case first |
| CreateTableProperties.ResolveCheckOrder | src/java/org/apache/cassandra/cql3/statements/CreateTableStatement.java:321-370 | an invalid name, then a too long name, then a duplicate declaration, then a missing or repeated PRIMARY KEY are reported before anything else |
| CreateTableProperties.ResolvePartitionKeyNotReversed | src/java/org/apache/cassandra/cql3/statements/CreateTableStatement.java:550-569 | in an accepted table no partition key part has a CLUSTERING ORDER entry, so each key type is the declared type, never reversed |
| CreateTableProperties.CounterKeyPartOnlyWhenDescending | src/java/org/apache/cassandra/cql3/statements/CreateTableStatement.java:577-588 | a counter column passes as a key part iff CLUSTERING ORDER declares it DESC, and then it is `ReversedType(counter)` |
| TableMetadata.RegularComponentIndex | src/java/org/apache/cassandra/cql3/statements/CreateTableStatement.java:167 | a regular column's component index is present iff the comparator is compound, and is then the clustering prefix size |
| TableMetadata.RegularDefinition | src/java/org/apache/cassandra/cql3/statements/CreateTableStatement.java:168-175 | a leftover column gets its own name and type, the STATIC kind iff declared static, REGULAR otherwise |
| TableMetadata.AliasDefinitions | src/java/org/apache/cassandra/cql3/statements/CreateTableStatement.java:262-277 | with a composite type the i-th alias gets the i-th component and index i; otherwise the single alias gets the whole type and no index |
| TableMetadata.AddOrReplaceAll | src/java/org/apache/cassandra/cql3/statements/CreateTableStatement.java:268-275 | adding definitions by name yields exactly the old names plus the new ones |
| TableMetadata.AddOrReplaceAllSpec | src/java/org/apache/cassandra/cql3/statements/CreateTableStatement.java:268-275 | the last definition of a name is the one kept, and names not added keep their entries |
| TableMetadata.ValueDefinitions | src/java/org/apache/cassandra/cql3/statements/CreateTableStatement.java:235-236 | no value definition without a value alias; with one, a single COMPACT_VALUE definition of that name with the default validator |
| TableMetadata.MetadataFor | src/java/org/apache/cassandra/cql3/statements/CreateTableStatement.java:207-236 | the metadata carries the statement's keyspace, table, comparator, validators and density, and defines exactly the leftover columns, the key and clustering aliases and the value alias |
| TableMetadata.ResolvedFits | src/java/org/apache/cassandra/cql3/statements/CreateTableStatement.java:262-277 | for a prepared statement the asserted alias counts of `addColumnMetadataFromAliases` hold |
| TableMetadata.ClusteringComponent | src/java/org/apache/cassandra/cql3/statements/CreateTableStatement.java:234 | the comparator as a type is composite iff it is compound, and its i-th component is the i-th clustering type |
| TableMetadata.AliasDefinitionSurvives | src/java/org/apache/cassandra/cql3/statements/CreateTableStatement.java:262-277 | each of distinct aliases ends up with its own definition |
| TableMetadata.OtherNamesKeep | src/java/org/apache/cassandra/cql3/statements/CreateTableStatement.java:262-277 | names that are not aliases keep their definitions |
| TableMetadata.MetadataValue | src/java/org/apache/cassandra/cql3/statements/CreateTableStatement.java:235-236 | the value alias gets the compact value definition |
| TableMetadata.MetadataBesidesValue | src/java/org/apache/cassandra/cql3/statements/CreateTableStatement.java:222-236 | any other name gets the definition the earlier calls gave it |
| TableMetadata.MetadataRegular | src/java/org/apache/cassandra/cql3/statements/CreateTableStatement.java:220-234 | a leftover column that is not a key or clustering alias keeps its regular or static definition |
| TableMetadata.MetadataKey | src/java/org/apache/cassandra/cql3/statements/CreateTableStatement.java:233-234 | a partition key alias that is not a clustering alias keeps its PARTITION_KEY definition |
| TableMetadata.MetadataClustering | src/java/org/apache/cassandra/cql3/statements/CreateTableStatement.java:234 | a clustering alias gets its CLUSTERING_COLUMN definition |
| TableMetadata.ResolvedShape | src/java/org/apache/cassandra/cql3/statements/CreateTableStatement.java:372-483 | a prepared statement's aliases are declared, distinct and disjoint, and its validator and comparator are built from the declared types |
| TableMetadata.KeyPartDefinition | src/java/org/apache/cassandra/cql3/statements/CreateTableStatement.java:233 | the i-th partition key part gets the i-th key type, index i when the key is composite and none otherwise |
| TableMetadata.ClusteringColumnDefinition | src/java/org/apache/cassandra/cql3/statements/CreateTableStatement.java:234 | the i-th clustering alias gets the i-th clustering type, index i when the comparator is compound and none otherwise |
| TableMetadata.ResolvedRegularMetadata | src/java/org/apache/cassandra/cql3/statements/CreateTableStatement.java:161-178 | in the metadata of a prepared statement every leftover column has its regular or static definition |
| TableMetadata.ResolvedKeyMetadata | src/java/org/apache/cassandra/cql3/statements/CreateTableStatement.java:233 | in the metadata of a prepared statement every partition key part is a PARTITION_KEY column of its declared type |
| TableMetadata.ResolvedClusteringMetadata | src/java/org/apache/cassandra/cql3/statements/CreateTableStatement.java:234 | in the metadata of a prepared statement every clustering alias is a CLUSTERING_COLUMN of its (possibly reversed) type |
| TableMetadata.ResolvedValueMetadata | src/java/org/apache/cassandra/cql3/statements/CreateTableStatement.java:235-236 | in the metadata of a prepared statement the value alias is the COMPACT_VALUE column with the default validator |
| CreateTableStatements.CreateTableStatement.constructor | src/java/org/apache/cassandra/cql3/statements/CreateTableStatement.java:98-122 | a new statement has no aliases, no columns and no value alias |
| CreateTableStatements.CreateTableStatement.GetColumns | src/java/org/apache/cassandra/cql3/statements/CreateTableStatement.java:161-178 | one definition per leftover column, names distinct, each the regular or static definition of that column |
| CreateTableStatements.CreateTableStatement.GetCFMetaData | src/java/org/apache/cassandra/cql3/statements/CreateTableStatement.java:207-236 | the metadata built step by step is the one `MetadataFor` specifies |
| CreateTableStatements.AllRegularDefinitions | src/java/org/apache/cassandra/cql3/statements/CreateTableStatement.java:220-222 | adding the listed definitions gives exactly the regular definitions by name |
| CreateTableStatements.AddOrReplaceAllSnoc | src/java/org/apache/cassandra/cql3/statements/CreateTableStatement.java:268-275 | one more definition replaces the entry of its name |
| CreateTableStatements.AddColumnMetadataFromAliases | src/java/org/apache/cassandra/cql3/statements/CreateTableStatement.java:262-277 | the loop adds or replaces exactly the definitions `AliasDefinitions` lists, in order |
| CreateTableStatements.RawStatement.constructor | src/java/org/apache/cassandra/cql3/statements/CreateTableStatement.java:293-309 | a new raw statement has no declarations and is consistent |
| CreateTableStatements.RawStatement.AddDefinition | src/java/org/apache/cassandra/cql3/statements/CreateTableStatement.java:592-598 | the name is counted once more and its type (re)defined; it is added to the static columns when declared static, which are otherwise unchanged; nothing else changes |
| CreateTableStatements.RawStatement.AddKeyAliases | src/java/org/apache/cassandra/cql3/statements/CreateTableStatement.java:603-606 | one more PRIMARY KEY partition group is appended; nothing else changes |
| CreateTableStatements.RawStatement.AddColumnAlias | src/java/org/apache/cassandra/cql3/statements/CreateTableStatement.java:608-611 | one more clustering alias is appended; nothing else changes |
| CreateTableStatements.RawStatement.SetOrdering | src/java/org/apache/cassandra/cql3/statements/CreateTableStatement.java:613-616 | the ordering is (re)set; a new key goes last in insertion order, and an existing key keeps its position |
| CreateTableStatements.RawStatement.SetCompactStorage | src/java/org/apache/cassandra/cql3/statements/CreateTableStatement.java:618-621 | COMPACT STORAGE is set; nothing else changes |
| CreateTableStatements.RawStatement.GetTypeAndRemove | src/java/org/apache/cassandra/cql3/statements/CreateTableStatement.java:577-588 | as `TypeAndRemove` specifies: unknown and multi-cell collection parts are errors; otherwise the part leaves the columns and its type comes back, reversed iff ordered DESC |
| CreateTableStatements.RawStatement.FindDuplicate | src/java/org/apache/cassandra/cql3/statements/CreateTableStatement.java:330-332 | the loop reports the first name in iteration order that is declared twice |
| CreateTableStatements.RawStatement.CollectColumns | src/java/org/apache/cassandra/cql3/statements/CreateTableStatement.java:342-358 | the loop puts every declared column with its type into the statement and finds the counters and multi-cell collections |
| CreateTableStatements.RawStatement.CollectKeyParts | src/java/org/apache/cassandra/cql3/statements/CreateTableStatement.java:374-401 | the loop over key parts computes what `KeyLoop` specifies |
| CreateTableStatements.RawStatement.BuildComparator | src/java/org/apache/cassandra/cql3/statements/CreateTableStatement.java:407-483 | the comparator step computes what `ClusteringStage` specifies and records the clustering aliases |
| CreateTableStatements.RawStatement.ChooseValue | src/java/org/apache/cassandra/cql3/statements/CreateTableStatement.java:497-542 | the value step computes what `ValueStage` specifies |
| CreateTableStatements.RawStatement.CheckOrdering | src/java/org/apache/cassandra/cql3/statements/CreateTableStatement.java:550-569 | the walk with its index counter computes what `OrderingCheck` specifies |
| CreateTableStatements.RawStatement.Prepare | src/java/org/apache/cassandra/cql3/statements/CreateTableStatement.java:315-572 | on declarations the accumulators built, the method fails with exactly the error `Resolve` specifies, or returns a fresh statement whose fields are exactly what `Resolve` specifies and whose partition key parts have their declared, never reversed, types |
| CreateTableStatements.RawStatement.PrepareKeyed | src/java/org/apache/cassandra/cql3/statements/CreateTableStatement.java:372-572 | from the partition key on, the statement's fields or the error are what `ResolveKeyed` specifies |
| CreateTableStatements.RawStatement.PrepareClustered | src/java/org/apache/cassandra/cql3/statements/CreateTableStatement.java:485-572 | from the static check on, the statement's fields or the error are what `ResolveClustered` specifies |
| KeyspaceMetadata.TableMap | src/java/org/apache/cassandra/config/KSMetaData.java:65-68 | the table map holds exactly the definitions' names, and every table is filed under its own name |
| KeyspaceMetadata.TableMapLaterWins | src/java/org/apache/cassandra/config/KSMetaData.java:65-68 | when two definitions share a name, the later one is kept |
| KeyspaceMetadata.TableMapOfEntries | src/java/org/apache/cassandra/config/KSMetaData.java:65-68 | refolding tables taken from a map gives that map restricted to their names |
| KeyspaceMetadata.Make | src/java/org/apache/cassandra/config/KSMetaData.java:55-76 | a null strategy class means NetworkTopologyStrategy; the other fields are kept; the tables are filed by name |
| KeyspaceMetadata.Create | src/java/org/apache/cassandra/config/KSMetaData.java:38-44 | a keyspace without tables and without user types |
| KeyspaceMetadata.CreateWithTables | src/java/org/apache/cassandra/config/KSMetaData.java:46-53 | a keyspace with the given tables and no user types |
| KeyspaceMetadata.NewKeyspace | src/java/org/apache/cassandra/config/KSMetaData.java:79-91 | LocalStrategy is refused, and only it; any other strategy gives exactly a keyspace with that strategy, no tables and no user types |
| KeyspaceMetadata.CloneWith | src/java/org/apache/cassandra/config/KSMetaData.java:111-114 | the same keyspace with the given tables and user types |
| KeyspaceMetadata.TestMetadata | src/java/org/apache/cassandra/config/KSMetaData.java:116-119 | a keyspace with durable writes |
| KeyspaceMetadata.TestMetadataNotDurable | src/java/org/apache/cassandra/config/KSMetaData.java:121-124 | a keyspace without durable writes |
| KeyspaceMetadata.ValuesIn | src/java/org/apache/cassandra/config/KSMetaData.java:96 | the listed values are tables of the map under their own names, covering every name the iteration order reaches |
| KeyspaceMetadata.Remove | src/java/org/apache/cassandra/config/KSMetaData.java:97 | the list loses one occurrence of the table, if it held one |
| KeyspaceMetadata.RemoveFromValues | src/java/org/apache/cassandra/config/KSMetaData.java:96-98 | removing a present table from the values leaves exactly the other tables |
| KeyspaceMetadata.CloneWithTableRemoved | src/java/org/apache/cassandra/config/KSMetaData.java:93-100 | for a table that is present, the result drops exactly its entry and keeps every other field and table, whatever the iteration order |
| KeyspaceMetadata.CloneWithTableAdded | src/java/org/apache/cassandra/config/KSMetaData.java:102-109 | the result files the table under its name, replacing any table of that name, and keeps every other field and table |
| KeyspaceMetadata.Equals | src/java/org/apache/cassandra/config/KSMetaData.java:133-149 | equal iff the other object is a keyspace with the same six fields |
| KeyspaceMetadata.AddThenRemove | src/java/org/apache/cassandra/config/KSMetaData.java:93-109 | removing a newly added table gives back the original keyspace |
| SecondaryIndexes.TruncatingDiv | src/java/org/apache/cassandra/db/index/AbstractSimplePerColumnSecondaryIndex.java:104 | `long` division rounds toward zero: below a non-negative numerator by less than the divisor, above a negative one by less than the divisor |
| SecondaryIndexes.ToInt32 | src/java/org/apache/cassandra/db/index/AbstractSimplePerColumnSecondaryIndex.java:104 | the `(int)` cast keeps the value modulo 2^32 in the `int` range, and leaves `int` values unchanged |
| SecondaryIndexes.LocalDeletionTime | src/java/org/apache/cassandra/db/index/AbstractSimplePerColumnSecondaryIndex.java:104 | the tombstone's local deletion time is an `int`; for any non-negative time before 2038 it is the time in whole seconds |
| SecondaryIndexes.IndexKeyFor | src/java/org/apache/cassandra/db/index/AbstractSimplePerColumnSecondaryIndex.java:66-75 | the index partition key is the indexed value, its token ordered by the indexed column's type |
| SecondaryIndexes.IndexEntry | src/java/org/apache/cassandra/db/index/AbstractSimplePerColumnSecondaryIndex.java:118-128 | the index cell has the index column name, an empty value and the source timestamp; it is expiring iff the source is, and then copies its TTL and local deletion time |
| SecondaryIndexes.InsertRequest | src/java/org/apache/cassandra/db/index/AbstractSimplePerColumnSecondaryIndex.java:112-136 | insert sends one write of one cell under the indexed value's key, with `nullUpdater` |
| SecondaryIndexes.DeleteRequests | src/java/org/apache/cassandra/db/index/AbstractSimplePerColumnSecondaryIndex.java:98-110 | delete sends nothing iff the cell is not live at the current time; otherwise one tombstone under the key and name insert would use, deleted at the source timestamp, with `nullUpdater` |
| SecondaryIndexes.UpdateRequests | src/java/org/apache/cassandra/db/index/AbstractSimplePerColumnSecondaryIndex.java:138-145 | update sends the insert of the new cell first; a second request follows iff cleanup is called for and the old cell is live at the current time, and it is the delete of the old cell |
| SecondaryIndexes.UpdateKeepsNoReindexing | src/java/org/apache/cassandra/db/index/AbstractSimplePerColumnSecondaryIndex.java:107 | the writes of an update never ask for reindexing, so a store without such writes keeps none |
| SecondaryIndexes.SimplePerColumnIndex.Init | src/java/org/apache/cassandra/db/index/AbstractSimplePerColumnSecondaryIndex.java:49-64 | requires exactly one column definition, keeps it, and starts with an empty index store |
| SecondaryIndexes.SimplePerColumnIndex.IndexKeyComparator | src/java/org/apache/cassandra/db/index/AbstractSimplePerColumnSecondaryIndex.java:66-69 | the index key type is the indexed column's type |
| SecondaryIndexes.SimplePerColumnIndex.GetIndexKeyFor | src/java/org/apache/cassandra/db/index/AbstractSimplePerColumnSecondaryIndex.java:72-75 | the key is the one `IndexKeyFor` specifies, its token ordered by the index key type |
| SecondaryIndexes.SimplePerColumnIndex.Delete | src/java/org/apache/cassandra/db/index/AbstractSimplePerColumnSecondaryIndex.java:98-110 | the store receives exactly `DeleteRequests` (nothing for a dead cell) and still holds no reindexing write |
| SecondaryIndexes.SimplePerColumnIndex.Insert | src/java/org/apache/cassandra/db/index/AbstractSimplePerColumnSecondaryIndex.java:112-136 | the store receives exactly the `InsertRequest` and still holds no reindexing write |
| SecondaryIndexes.SimplePerColumnIndex.Update | src/java/org/apache/cassandra/db/index/AbstractSimplePerColumnSecondaryIndex.java:138-145 | the store receives exactly `UpdateRequests`: insert first, then the delete if called for |
| SecondaryIndexes.SimplePerColumnIndex.RemoveIndex | src/java/org/apache/cassandra/db/index/AbstractSimplePerColumnSecondaryIndex.java:147-150 | the store receives one invalidation |
| SecondaryIndexes.SimplePerColumnIndex.InvalidateIndex | src/java/org/apache/cassandra/db/index/AbstractSimplePerColumnSecondaryIndex.java:163-166 | the store receives one invalidation |
| SecondaryIndexes.SimplePerColumnIndex.TruncateBlocking | src/java/org/apache/cassandra/db/index/AbstractSimplePerColumnSecondaryIndex.java:168-171 | the store is asked to discard its SSTables up to the truncation time |

## Left out

- Table properties (`CFPropDefs`): `properties.validate()`, `applyToCFMetadata` and the compression default are not modelled. Only the default time to live, which `prepare()` reads, is an input.
- `CQL3Type.Raw.prepare(keyspace)` is not modelled. Columns are given with their types already resolved against the keyspace's user types.
- `RawStatement.Prepare` takes the table name and default time to live as fields of the raw statement. `ifNotExists` and the keyspace name do not affect `prepare()` and are left out.
- `CFMetaData` is the record of fields a `CREATE TABLE` fixes, not the schema class. `addOrReplaceColumnDefinition` is modelled as a map update by name, and the constructor's `ColumnFamilyType.Standard` is implicit.
- `CreateTableStatements.AddColumnMetadataFromAliases` does not model the `null` alias checks, because no alias in this model can be null.
- Identifiers are strings. Column name bytes and their encoding are not modelled.
- The exception messages are constructors of `PrepareError`, not formatted strings.
- `announceMigration`, `checkAccess`, `changeEvent` and the migration plumbing are schema I/O, not modelled.
- `KSMetaData.validate`, `hashCode`, `toString` and `optsWithRF` are left out. `validate` calls the replication strategy, `StorageService` and `CFMetaData.validate`, which are not part of this model; the others only format or hash.
- `KeyspaceMetadata.NewKeyspace` receives the strategy class already resolved. `AbstractReplicationStrategy.getClass`, which resolves a strategy name, is not part of this model.
- `KeyspaceMetadata.CloneWithTableRemoved` requires the table to be present, which the source only asserts.
- `KeyspaceMetadata.Equals` has no `this == o` shortcut; value equality already covers it.
- The source's `Objects.equal` on table maps uses `CFMetaData.equals`. The model compares the records by value.
- `UTMetaData` is reduced to a set of type names.
- `ColumnFamilyStore`, the index store, is seen only through the requests it receives. How `apply` reconciles cells, and what `invalidate` and `discardSSTables` do inside the store, are not part of this model.
- `Cell.isLive()`, `getIndexedValue`, `makeIndexColumnName` and `SecondaryIndexManager.shouldCleanupOldValue` are injected functions. They are defined by classes not part of this model.
- Liveness is evaluated at the same time (`nowMillis`) as the tombstone's local deletion time. The source reads the clock twice, so a cell expiring between the two readings is not modelled.
- `System.currentTimeMillis()` is a parameter of `delete` and `update`.
- Logging is not modelled.
- The operation group (`OpOrder.Group`) is not modelled.
- `forceBlockingFlush` is not modelled. It is synchronisation on the data tracker plus waiting on a future.
- `reload`, `estimateResultRows`, `getIndexCfs`, `getIndexName`, `expressionString` and `indexTypeForGrouping` are not modelled. They delegate to or format over classes not part of this model.
- Creating the index's own store in `init` (index comparator, index metadata, partitioner) is reduced to a fresh, empty store.
