/**
 * Resolution of a `CREATE TABLE` into a physical schema, as a specification:
 * `Resolve` states what `CreateTableStatement.RawStatement.prepare()` computes
 * from the declarations accumulated by the parser, in the order the code
 * checks them. Each helper follows one loop or one step of `prepare()`.
 *
 * Java's `HashMap` and `HashMultiset` iteration order is not fixed by the
 * code; it is a parameter `order` listing every declared identifier in the
 * order the hash table yields them.
 */
module CreateTable {
  import opened Wrappers
  import opened Marshal

  /** `Schema.NAME_LENGTH`. */
  const NameLength: nat := 48

  /** The `InvalidRequestException`s `prepare()` throws, one per message. */
  datatype PrepareError =
    | InvalidTableName(name: string)
    | TableNameTooLong(name: string)
    | MultipleDefinition(id: Ident)
    | NoPrimaryKey
    | MultiplePrimaryKeys
    | CountersWithDefaultTtl
    | UnknownKeyPart(id: Ident)
    | CollectionKeyPart(id: Ident)
    | CounterKeyPart(id: Ident)
    | StaticKeyPart(id: Ident)
    | NoNonKeyDefinition
    | NonFrozenCollectionCompact
    | CollectionCompact
    | StaticInCompact
    | StaticWithoutClustering
    | TooManyCompactValues(names: set<Ident>)
    | CompactNoColumn
    | OrderingNotClustering
    | OrderingOutOfOrder(expected: Ident, found: Ident)
    | MissingOrdering(id: Ident)

  /**
   * The declarations a `RawStatement` has accumulated. `definedOrdering` is a
   * `LinkedHashMap`: `orderingKeys` is its key order, `ordering` its values.
   * `defaultTimeToLive` is the one table property `prepare()` looks at.
   */
  datatype RawDefinition = RawDefinition(
    cfName: string,
    definitions: map<Ident, Cql3Type>,
    definedNames: multiset<Ident>,
    keyAliases: seq<seq<Ident>>,
    columnAliases: seq<Ident>,
    orderingKeys: seq<Ident>,
    ordering: map<Ident, bool>,
    staticColumns: set<Ident>,
    useCompactStorage: bool,
    defaultTimeToLive: int)

  /** The fields of the `CreateTableStatement` that `prepare()` returns. */
  datatype Prepared = Prepared(
    cfName: string,
    comparator: CellNameType,
    defaultValidator: AbstractType,
    keyValidator: AbstractType,
    keyAliases: seq<Ident>,
    columnAliases: seq<Ident>,
    valueAlias: Option<Ident>,
    isDense: bool,
    columns: map<Ident, AbstractType>,
    staticColumns: set<Ident>)

  /** A character of the regular expression class `\w`. */
  predicate IsWordChar(c: char) {
    'a' <= c <= 'z' || 'A' <= c <= 'Z' || '0' <= c <= '9' || c == '_'
  }

  /** `s.matches("\\w+")`. */
  predicate IsWordName(s: string) {
    |s| > 0 && forall i :: 0 <= i < |s| ==> IsWordChar(s[i])
  }

  /** `order` lists every identifier the hash tables of `d` can yield. */
  ghost predicate Covers(order: seq<Ident>, d: RawDefinition) {
    && (forall id :: id in d.definedNames ==> id in order)
    && (forall id :: id in d.definitions ==> id in order)
  }

  /** The first identifier, in iteration order from `i`, declared more than once. */
  function FirstDuplicate(order: seq<Ident>, names: multiset<Ident>, i: nat): (r: Option<Ident>)
    requires i <= |order|
    decreases |order| - i
    ensures r.Some? ==> r.value in order[i..] && names[r.value] > 1
    ensures r.None? ==> forall j :: i <= j < |order| ==> names[order[j]] <= 1
  {
    if i == |order| then None
    else if names[order[i]] > 1 then Some(order[i])
    else FirstDuplicate(order, names, i + 1)
  }

  /** The first key of `m` in iteration order (`entrySet().iterator().next()`). */
  function FirstIn(order: seq<Ident>, m: map<Ident, AbstractType>): (r: Ident)
    requires m.Keys != {}
    requires forall id :: id in m ==> id in order
    ensures r in m
    ensures exists j :: 0 <= j < |order| && order[j] == r && forall k :: 0 <= k < j ==> order[k] !in m
  {
    var w :| w in m;
    assert w in order;
    if order[0] in m then order[0]
    else
      var r := FirstIn(order[1..], m);
      var j :| 0 <= j < |order[1..]| && order[1..][j] == r && forall k :: 0 <= k < j ==> order[1..][k] !in m;
      assert order[j + 1] == r;
      r
  }

  /** `stmt.columns` after the loop over the definitions (:344-358). */
  function ColumnsOf(defs: map<Ident, Cql3Type>): (r: map<Ident, AbstractType>)
    ensures r.Keys == defs.Keys
  {
    map id | id in defs :: GetType(defs[id])
  }

  /** `hasCounters` after the loop over the definitions. */
  predicate HasCounters(defs: map<Ident, Cql3Type>) {
    exists id :: id in defs && defs[id].Counter?
  }

  /** `definedMultiCellCollections`; the empty map stands for `null`. */
  function MultiCellCollections(defs: map<Ident, Cql3Type>): map<Ident, AbstractType> {
    map id | id in defs && defs[id].Collection? && defs[id].multiCell :: GetType(defs[id])
  }

  /** A key part's type, wrapped in `ReversedType` when CLUSTERING ORDER says DESC (:586-587). */
  function Oriented(t: AbstractType, id: Ident, ordering: map<Ident, bool>): AbstractType {
    if id in ordering && ordering[id] then ReversedType(t) else t
  }

  /** `getTypeAndRemove` (:577-588): the part's type and the columns without it. */
  function TypeAndRemove(columns: map<Ident, AbstractType>, ordering: map<Ident, bool>, t: Ident)
    : Result<(AbstractType, map<Ident, AbstractType>), PrepareError>
  {
    if t !in columns then Err(UnknownKeyPart(t))
    else if IsMultiCellCollection(columns[t]) then Err(CollectionKeyPart(t))
    else Ok((Oriented(columns[t], t, ordering), columns - {t}))
  }

  /**
   * The loop over key parts from index `i` on (partition key :375-400,
   * compound clustering key :457-467): remove each part, reject counters,
   * then static columns, and collect the types.
   */
  function KeyLoop(d: RawDefinition, aliases: seq<Ident>, i: nat,
                   columns: map<Ident, AbstractType>, types: seq<AbstractType>)
    : (r: Result<(seq<AbstractType>, map<Ident, AbstractType>), PrepareError>)
    requires i <= |aliases|
    decreases |aliases| - i
    ensures r.Ok? ==> r.value.1.Keys <= columns.Keys
    ensures r.Err? ==> r.error.UnknownKeyPart? || r.error.CollectionKeyPart?
                       || r.error.CounterKeyPart? || r.error.StaticKeyPart?
  {
    if i == |aliases| then Ok((types, columns))
    else match TypeAndRemove(columns, d.ordering, aliases[i])
      case Err(e) => Err(e)
      case Ok((t, rest)) =>
        if t == CounterColumnType then Err(CounterKeyPart(aliases[i]))
        else if aliases[i] in d.staticColumns then Err(StaticKeyPart(aliases[i]))
        else KeyLoop(d, aliases, i + 1, rest, types + [t])
  }

  /**
   * The comparator decision table, stated on its own: the clustering types,
   * the COMPACT STORAGE flag and the multi-cell collections decide the shape.
   */
  function ComparatorFor(clustering: seq<AbstractType>, compact: bool, colls: map<Ident, AbstractType>)
    : (r: CellNameType)
    ensures r.ClusteringPrefixSize() == |clustering|
    ensures r.IsDense() <==> compact && |clustering| > 0
    ensures r.IsCompound() <==> !(compact && |clustering| <= 1)
    ensures r.CompoundSparseWithCollection? <==> !compact && colls != map[]
  {
    if |clustering| == 0 && compact then SimpleSparse(UTF8Type)
    else if |clustering| == 1 && compact then SimpleDense(clustering[0])
    else if compact then CompoundDense(clustering)
    else if colls == map[] then CompoundSparse(clustering)
    else CompoundSparseWithCollection(clustering, colls)
  }

  /** The comparator step (:407-483): the comparator and the columns left. */
  function ClusteringStage(d: RawDefinition, columns: map<Ident, AbstractType>, colls: map<Ident, AbstractType>)
    : (r: Result<(CellNameType, map<Ident, AbstractType>), PrepareError>)
    ensures r.Ok? ==> r.value.1.Keys <= columns.Keys
  {
    var ca := d.columnAliases;
    if |ca| == 0 then
      if d.useCompactStorage then
        if columns == map[] then Err(NoNonKeyDefinition)
        else if colls != map[] then Err(NonFrozenCollectionCompact)
        else Ok((SimpleSparse(UTF8Type), columns))
      else if colls == map[] then Ok((CompoundSparse([]), columns))
      else Ok((CompoundSparseWithCollection([], colls), columns))
    else if d.useCompactStorage && |ca| == 1 then
      if colls != map[] then Err(CollectionCompact)
      else if ca[0] in d.staticColumns then Err(StaticKeyPart(ca[0]))
      else match TypeAndRemove(columns, d.ordering, ca[0])
        case Err(e) => Err(e)
        case Ok((t, rest)) =>
          if t == CounterColumnType then Err(CounterKeyPart(ca[0]))
          else Ok((SimpleDense(t), rest))
    else match KeyLoop(d, ca, 0, columns, [])
      case Err(e) => Err(e)
      case Ok((types, rest)) =>
        if d.useCompactStorage then
          if colls != map[] then Err(CollectionCompact)
          else Ok((CompoundDense(types), rest))
        else if colls == map[] then Ok((CompoundSparse(types), rest))
        else Ok((CompoundSparseWithCollection(types, colls), rest))
  }

  /** The static-column rules (:487-495). */
  function StaticCheck(d: RawDefinition): Option<PrepareError> {
    if d.staticColumns == {} then None
    else if d.useCompactStorage then Some(StaticInCompact)
    else if |d.columnAliases| == 0 then Some(StaticWithoutClustering)
    else None
  }

  /**
   * The default validator and value alias step (:497-542): the validator,
   * the value alias (`None` for `null`, `Some("")` for the empty buffer) and
   * the columns left.
   */
  function ValueStage(d: RawDefinition, order: seq<Ident>, columns: map<Ident, AbstractType>)
    : Result<(AbstractType, Option<Ident>, map<Ident, AbstractType>), PrepareError>
    requires forall id :: id in columns ==> id in order
  {
    if d.useCompactStorage && |d.columnAliases| > 0 then
      if columns == map[] then Ok((BytesType, Some(""), columns))
      else if |columns| > 1 then Err(TooManyCompactValues(columns.Keys))
      else
        var id := FirstIn(order, columns);
        Ok((columns[id], Some(id), columns - {id}))
    else if d.useCompactStorage && columns == map[] then Err(CompactNoColumn)
    else if columns != map[] && columns[FirstIn(order, columns)] == CounterColumnType then
      Ok((CounterColumnType, None, columns))
    else Ok((BytesType, None, columns))
  }

  /** The walk over the CLUSTERING ORDER keys from index `i` on (:555-568). */
  function OrderingLoop(d: RawDefinition, i: nat): (r: Option<PrepareError>)
    requires |d.orderingKeys| <= |d.columnAliases|
    requires i <= |d.orderingKeys|
    decreases |d.orderingKeys| - i
    ensures r.Some? ==> r.value.OrderingOutOfOrder? || r.value.MissingOrdering?
  {
    if i == |d.orderingKeys| then None
    else if d.orderingKeys[i] != d.columnAliases[i] then
      if d.columnAliases[i] in d.ordering then Some(OrderingOutOfOrder(d.columnAliases[i], d.orderingKeys[i]))
      else Some(MissingOrdering(d.columnAliases[i]))
    else OrderingLoop(d, i + 1)
  }

  /** The CLUSTERING ORDER check (:550-569). */
  function OrderingCheck(d: RawDefinition): Option<PrepareError> {
    if |d.orderingKeys| == 0 then None
    else if |d.orderingKeys| > |d.columnAliases| then Some(OrderingNotClustering)
    else OrderingLoop(d, 0)
  }

  /** `RawStatement.prepare()` (:315-572). */
  function Resolve(d: RawDefinition, order: seq<Ident>): Result<Prepared, PrepareError>
    requires Covers(order, d)
  {
    if !IsWordName(d.cfName) then Err(InvalidTableName(d.cfName))
    else if |d.cfName| > NameLength then Err(TableNameTooLong(d.cfName))
    else if FirstDuplicate(order, d.definedNames, 0).Some? then
      Err(MultipleDefinition(FirstDuplicate(order, d.definedNames, 0).value))
    else if |d.keyAliases| == 0 then Err(NoPrimaryKey)
    else if |d.keyAliases| > 1 then Err(MultiplePrimaryKeys)
    else if HasCounters(d.definitions) && d.defaultTimeToLive > 0 then Err(CountersWithDefaultTtl)
    else ResolveKeyed(d, order)
  }

  /** `prepare()` from the partition key on (:375-572), once the header checks have passed. */
  function ResolveKeyed(d: RawDefinition, order: seq<Ident>): Result<Prepared, PrepareError>
    requires Covers(order, d) && |d.keyAliases| == 1
  {
    match KeyLoop(d, d.keyAliases[0], 0, ColumnsOf(d.definitions), [])
      case Err(e) => Err(e)
      case Ok((keyTypes, afterKeys)) =>
        match ClusteringStage(d, afterKeys, MultiCellCollections(d.definitions))
        case Err(e) => Err(e)
        case Ok((comparator, afterClustering)) => ResolveClustered(d, order, keyTypes, comparator, afterClustering)
  }

  /** `prepare()` from the static column check on (:485-572), once the comparator is built. */
  function ResolveClustered(d: RawDefinition, order: seq<Ident>, keyTypes: seq<AbstractType>,
                            comparator: CellNameType, afterClustering: map<Ident, AbstractType>)
    : Result<Prepared, PrepareError>
    requires |d.keyAliases| == 1
    requires forall id :: id in afterClustering ==> id in order
  {
    if StaticCheck(d).Some? then Err(StaticCheck(d).value)
    else match ValueStage(d, order, afterClustering)
      case Err(e) => Err(e)
      case Ok((defaultValidator, valueAlias, columns)) =>
        if OrderingCheck(d).Some? then Err(OrderingCheck(d).value)
        else Ok(Prepared(
          d.cfName,
          comparator,
          defaultValidator,
          if |keyTypes| == 1 then keyTypes[0] else CompositeType(keyTypes),
          d.keyAliases[0],
          d.columnAliases,
          valueAlias,
          d.useCompactStorage && |d.columnAliases| > 0,
          columns,
          d.staticColumns))
  }
}
