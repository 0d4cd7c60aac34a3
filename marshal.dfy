/**
 * The types a table is described with: the CQL types a column can be declared
 * with, the marshalling types (validators) the schema stores, and the five
 * shapes of cell-name comparator.
 */
module Marshal {
  import opened Wrappers

  /** A column identifier (its bytes). */
  type Ident = string

  /** A column type as declared in CQL, after resolution against the keyspace. */
  datatype Cql3Type =
    | Native(name: string)
    | Counter
    | Collection(kind: string, multiCell: bool)

  /** A marshalling type: what a validator or a comparator component is. */
  datatype AbstractType =
    | NativeType(name: string)
    | CounterColumnType
    | CollectionType(kind: string, multiCell: bool)
    | ReversedType(baseType: AbstractType)
    | CompositeType(types: seq<AbstractType>)
    | ColumnToCollectionType(collections: map<Ident, AbstractType>)

  const UTF8Type: AbstractType := NativeType("UTF8Type")
  const BytesType: AbstractType := NativeType("BytesType")

  /** `CQL3Type.getType()`: the marshalling type of a declared type. */
  function GetType(t: Cql3Type): (r: AbstractType)
    ensures !r.ReversedType? && !r.CompositeType? && !r.ColumnToCollectionType?
    ensures r.CounterColumnType? <==> t.Counter?
    ensures r.CollectionType? <==> t.Collection?
  {
    match t
    case Native(n) => NativeType(n)
    case Counter => CounterColumnType
    case Collection(k, m) => CollectionType(k, m)
  }

  /** `type.isCollection() && type.isMultiCell()`. */
  predicate IsMultiCellCollection(t: AbstractType) {
    t.CollectionType? && t.multiCell
  }

  /**
   * The comparator of cell names (`CellNameType`). Dense shapes store no CQL
   * column name in the cell name; sparse shapes do.
   */
  datatype CellNameType =
    | SimpleSparse(wrapped: AbstractType)
    | SimpleDense(wrapped: AbstractType)
    | CompoundDense(types: seq<AbstractType>)
    | CompoundSparse(types: seq<AbstractType>)
    | CompoundSparseWithCollection(types: seq<AbstractType>, collections: map<Ident, AbstractType>)
  {
    predicate IsCompound() {
      CompoundDense? || CompoundSparse? || CompoundSparseWithCollection?
    }

    predicate IsDense() {
      SimpleDense? || CompoundDense?
    }

    /** The number of clustering components at the front of a cell name. */
    function ClusteringPrefixSize(): nat {
      match this
      case SimpleSparse(_) => 0
      case SimpleDense(_) => 1
      case CompoundDense(ts) => |ts|
      case CompoundSparse(ts) => |ts|
      case CompoundSparseWithCollection(ts, _) => |ts|
    }

    /**
     * The comparator seen as one marshalling type: a sparse compound name ends
     * with the CQL column name (UTF8) and, when the table has multi-cell
     * collections, with the collection carrier.
     */
    function AsAbstractType(): AbstractType {
      match this
      case SimpleSparse(w) => w
      case SimpleDense(w) => w
      case CompoundDense(ts) => CompositeType(ts)
      case CompoundSparse(ts) => CompositeType(ts + [UTF8Type])
      case CompoundSparseWithCollection(ts, c) => CompositeType(ts + [UTF8Type, ColumnToCollectionType(c)])
    }
  }
}
