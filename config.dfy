/** Column and table metadata records, as a resolved table hands them to the schema. */
module Config {
  import opened Wrappers
  import opened Marshal

  /** `ColumnDefinition.Kind`: the role of a column in its table. */
  datatype Kind = PartitionKey | ClusteringColumn | Regular | Static | CompactValue

  /**
   * `ColumnDefinition`: a column's name, its marshalling type, the index of
   * its component in a composite key or comparator (`None` for `null`) and
   * its role.
   */
  datatype ColumnDefinition = ColumnDefinition(
    name: Ident,
    columnType: AbstractType,
    componentIndex: Option<nat>,
    kind: Kind)

  /** The part of `CFMetaData` a `CREATE TABLE` fixes. */
  datatype CFMetaData = CFMetaData(
    ksName: string,
    cfName: string,
    comparator: CellNameType,
    defaultValidator: AbstractType,
    keyValidator: AbstractType,
    isDense: bool,
    columnMetadata: map<Ident, ColumnDefinition>)
}
