/**
 * `CreateTableStatement` and its parser-side `RawStatement`, as objects: the
 * raw statement accumulates declarations field by field and `Prepare` turns
 * them into a prepared statement step by step, proved to compute exactly
 * what `CreateTable.Resolve` specifies; the prepared statement builds the
 * table metadata `TableMetadata.MetadataFor` specifies.
 */
module CreateTableStatements {
  import opened Wrappers
  import opened Marshal
  import opened Config
  import opened CreateTable
  import opened CreateTableProperties
  import opened TableMetadata

  /** The statement `prepare()` produces; its fields are filled in as prepare goes. */
  class CreateTableStatement {
    const cfName: string
    var comparator: CellNameType
    var defaultValidator: AbstractType
    var keyValidator: AbstractType
    var keyAliases: seq<Ident>
    var columnAliases: seq<Ident>
    var valueAlias: Option<Ident>
    var isDense: bool
    var columns: map<Ident, AbstractType>
    const staticColumns: set<Ident>

    /**
     * A fresh statement: no aliases, no columns, a `null` value alias. The
     * comparator and validators, `null` in the source, get placeholders that
     * `prepare()` always overwrites before returning the statement.
     */
    constructor (cfName: string, staticColumns: set<Ident>)
      ensures this.cfName == cfName && this.staticColumns == staticColumns
      ensures keyAliases == [] && columnAliases == [] && columns == map[]
      ensures valueAlias == None && !isDense
    {
      this.cfName := cfName;
      this.staticColumns := staticColumns;
      comparator := CompoundSparse([]);
      defaultValidator := BytesType;
      keyValidator := BytesType;
      keyAliases := [];
      columnAliases := [];
      valueAlias := None;
      isDense := false;
      columns := map[];
    }

    /** The statement's fields as a value. */
    function Snapshot(): Prepared
      reads this
    {
      Prepared(cfName, comparator, defaultValidator, keyValidator, keyAliases, columnAliases,
               valueAlias, isDense, columns, staticColumns)
    }

    /**
     * `getColumns` (:161-178): one regular or static definition per column
     * left, in the map's iteration order (any order), each with the
     * comparator's clustering prefix size as index when it is compound.
     */
    method GetColumns() returns (defs: seq<ColumnDefinition>)
      ensures Names(defs) == columns.Keys
      ensures forall j, k :: 0 <= j < k < |defs| ==> defs[j].name != defs[k].name
      ensures forall k :: 0 <= k < |defs| ==>
                defs[k].name in columns && defs[k] == RegularDefinition(Snapshot(), defs[k].name)
    {
      var componentIndex := if comparator.IsCompound() then Some(comparator.ClusteringPrefixSize()) else None;
      defs := [];
      var remaining := columns.Keys;
      while remaining != {}
        invariant remaining <= columns.Keys
        invariant Names(defs) == columns.Keys - remaining
        invariant forall j, k :: 0 <= j < k < |defs| ==> defs[j].name != defs[k].name
        invariant forall k :: 0 <= k < |defs| ==>
                    defs[k].name in columns && defs[k] == RegularDefinition(Snapshot(), defs[k].name)
        decreases remaining
      {
        var id :| id in remaining;
        var def := if id in staticColumns then ColumnDefinition(id, columns[id], componentIndex, Static)
                   else ColumnDefinition(id, columns[id], componentIndex, Regular);
        assert Names(defs + [def]) == Names(defs) + {id} by {
          assert forall k :: 0 <= k < |defs| ==> (defs + [def])[k] == defs[k];
          assert (defs + [def])[|defs|] == def;
        }
        defs := defs + [def];
        remaining := remaining - {id};
      }
    }

    /**
     * `getCFMetaData()` with `applyPropertiesTo` (:207-236): the metadata
     * `MetadataFor` specifies, table properties aside.
     */
    method GetCFMetaData(ksName: string) returns (cfm: CFMetaData)
      requires Fits(Snapshot())
      ensures cfm == MetadataFor(ksName, Snapshot())
    {
      var defs := GetColumns();
      cfm := CFMetaData(ksName, cfName, comparator, defaultValidator, keyValidator, isDense, map[]);
      cfm := cfm.(columnMetadata := AddOrReplaceAll(cfm.columnMetadata, defs));
      AllRegularDefinitions(Snapshot(), defs);
      cfm := AddColumnMetadataFromAliases(cfm, keyAliases, keyValidator, PartitionKey);
      cfm := AddColumnMetadataFromAliases(cfm, columnAliases, comparator.AsAbstractType(), ClusteringColumn);
      if valueAlias.Some? {
        cfm := AddColumnMetadataFromAliases(cfm, [valueAlias.value], defaultValidator, CompactValue);
      }
    }
  }

  /** Adding the definitions `getColumns` lists, by name, gives `RegularDefinitions`. */
  lemma AllRegularDefinitions(p: Prepared, defs: seq<ColumnDefinition>)
    requires Names(defs) == p.columns.Keys
    requires forall j, k :: 0 <= j < k < |defs| ==> defs[j].name != defs[k].name
    requires forall k :: 0 <= k < |defs| ==> defs[k].name in p.columns && defs[k] == RegularDefinition(p, defs[k].name)
    ensures AddOrReplaceAll(map[], defs) == RegularDefinitions(p)
  {
    forall id | id in p.columns ensures AddOrReplaceAll(map[], defs)[id] == RegularDefinitions(p)[id] {
      var k :| 0 <= k < |defs| && defs[k].name == id;
      LastDefinitionWins(map[], defs, k);
    }
  }

  /** A definition no later one renames is the entry of its name. */
  lemma LastDefinitionWins(m: map<Ident, ColumnDefinition>, defs: seq<ColumnDefinition>, k: nat)
    requires k < |defs|
    requires forall j :: k < j < |defs| ==> defs[j].name != defs[k].name
    ensures AddOrReplaceAll(m, defs)[defs[k].name] == defs[k]
  {
    AddOrReplaceAllSpec(m, defs);
  }

  /** Adding one more definition at the end replaces the entry of its name. */
  lemma {:induction false} AddOrReplaceAllSnoc(m: map<Ident, ColumnDefinition>, defs: seq<ColumnDefinition>,
                                              def: ColumnDefinition)
    ensures AddOrReplaceAll(m, defs + [def]) == AddOrReplaceAll(m, defs)[def.name := def]
    decreases |defs|
  {
    if defs == [] {
      assert defs + [def] == [def];
      assert [def][1..] == [];
    } else {
      assert (defs + [def])[0] == defs[0];
      assert (defs + [def])[1..] == defs[1..] + [def];
      AddOrReplaceAllSnoc(m[defs[0].name := defs[0]], defs[1..], def);
    }
  }

  /**
   * `addColumnMetadataFromAliases` (:262-277): adds or replaces one
   * definition per alias, in order, as `AliasDefinitions` lists them.
   */
  method AddColumnMetadataFromAliases(cfm: CFMetaData, aliases: seq<Ident>, comparator: AbstractType, kind: Kind)
    returns (r: CFMetaData)
    requires AliasesFit(aliases, comparator)
    ensures r == cfm.(columnMetadata := AddOrReplaceAll(cfm.columnMetadata, AliasDefinitions(aliases, comparator, kind)))
  {
    ghost var defs := AliasDefinitions(aliases, comparator, kind);
    r := cfm;
    if comparator.CompositeType? {
      for i := 0 to |aliases|
        invariant r == cfm.(columnMetadata := AddOrReplaceAll(cfm.columnMetadata, defs[..i]))
      {
        var def := ColumnDefinition(aliases[i], comparator.types[i], Some(i), kind);
        assert defs[..i + 1] == defs[..i] + [def];
        AddOrReplaceAllSnoc(cfm.columnMetadata, defs[..i], def);
        r := r.(columnMetadata := r.columnMetadata[aliases[i] := def]);
      }
      assert defs[..|aliases|] == defs;
    } else if |aliases| > 0 {
      var def := ColumnDefinition(aliases[0], comparator, None, kind);
      AddOrReplaceAllSnoc(cfm.columnMetadata, [], def);
      assert [] + [def] == defs;
      r := r.(columnMetadata := r.columnMetadata[aliases[0] := def]);
    }
  }

  /** The parsed `CREATE TABLE`, accumulating declarations as the parser meets them. */
  class RawStatement {
    const cfName: string
    /** `properties.getDefaultTimeToLive()`, the one table property `prepare()` reads. */
    const defaultTimeToLive: int
    var definitions: map<Ident, Cql3Type>
    var definedNames: multiset<Ident>
    var keyAliases: seq<seq<Ident>>
    var columnAliases: seq<Ident>
    /** The key order of the `definedOrdering` linked hash map. */
    var orderingKeys: seq<Ident>
    var definedOrdering: map<Ident, bool>
    var staticColumns: set<Ident>
    var useCompactStorage: bool

    /**
     * The accumulators keep `definedNames` and `definitions` on the same
     * names, `orderingKeys` the duplicate-free key order of
     * `definedOrdering`, and the static columns among the definitions.
     */
    ghost predicate Valid()
      reads this
    {
      && (forall id :: id in definitions <==> id in definedNames)
      && definedOrdering.Keys == Elems(orderingKeys)
      && (forall j, k :: 0 <= j < k < |orderingKeys| ==> orderingKeys[j] != orderingKeys[k])
      && staticColumns <= definitions.Keys
    }

    /** The accumulated declarations as a value. */
    function Snapshot(): RawDefinition
      reads this
    {
      RawDefinition(cfName, definitions, definedNames, keyAliases, columnAliases, orderingKeys,
                    definedOrdering, staticColumns, useCompactStorage, defaultTimeToLive)
    }

    constructor (cfName: string, defaultTimeToLive: int)
      ensures Valid()
      ensures Snapshot() == RawDefinition(cfName, map[], multiset{}, [], [], [], map[], {}, false, defaultTimeToLive)
    {
      this.cfName := cfName;
      this.defaultTimeToLive := defaultTimeToLive;
      definitions := map[];
      definedNames := multiset{};
      keyAliases := [];
      columnAliases := [];
      orderingKeys := [];
      definedOrdering := map[];
      staticColumns := {};
      useCompactStorage := false;
    }

    /** `addDefinition` (:592-598): counts the name, (re)defines its type, marks it static if asked. */
    method AddDefinition(def: Ident, t: Cql3Type, isStatic: bool)
      requires Valid()
      modifies this
      ensures Valid()
      ensures Snapshot() == old(Snapshot()).(definedNames := old(definedNames) + multiset{def},
                                             definitions := old(definitions)[def := t],
                                             staticColumns := if isStatic then old(staticColumns) + {def}
                                                              else old(staticColumns))
    {
      definedNames := definedNames + multiset{def};
      definitions := definitions[def := t];
      if isStatic {
        staticColumns := staticColumns + {def};
      }
    }

    /** `addKeyAliases` (:603-606): records one more PRIMARY KEY partition clause. */
    method AddKeyAliases(aliases: seq<Ident>)
      requires Valid()
      modifies this
      ensures Valid()
      ensures Snapshot() == old(Snapshot()).(keyAliases := old(keyAliases) + [aliases])
    {
      keyAliases := keyAliases + [aliases];
    }

    /** `addColumnAlias` (:608-611): records one more clustering column. */
    method AddColumnAlias(alias: Ident)
      requires Valid()
      modifies this
      ensures Valid()
      ensures Snapshot() == old(Snapshot()).(columnAliases := old(columnAliases) + [alias])
    {
      columnAliases := columnAliases + [alias];
    }

    /**
     * `setOrdering` (:613-616): a linked hash map put, which keeps the
     * position of a key already present and appends a new one.
     */
    method SetOrdering(alias: Ident, reversed: bool)
      requires Valid()
      modifies this
      ensures Valid()
      ensures Snapshot() == old(Snapshot()).(
                ordering := old(definedOrdering)[alias := reversed],
                orderingKeys := if alias in old(definedOrdering) then old(orderingKeys) else old(orderingKeys) + [alias])
    {
      if alias !in definedOrdering {
        assert Elems(orderingKeys + [alias]) == Elems(orderingKeys) + {alias} by {
          assert forall k :: 0 <= k < |orderingKeys| ==> (orderingKeys + [alias])[k] == orderingKeys[k];
          assert (orderingKeys + [alias])[|orderingKeys|] == alias;
        }
        orderingKeys := orderingKeys + [alias];
      }
      definedOrdering := definedOrdering[alias := reversed];
    }

    /** `setCompactStorage` (:618-621). */
    method SetCompactStorage()
      requires Valid()
      modifies this
      ensures Valid()
      ensures Snapshot() == old(Snapshot()).(useCompactStorage := true)
    {
      useCompactStorage := true;
    }

    /**
     * `getTypeAndRemove` (:577-588): takes a key part out of the statement's
     * columns and returns its type, reversed when CLUSTERING ORDER says DESC.
     */
    method GetTypeAndRemove(stmt: CreateTableStatement, t: Ident) returns (r: Result<AbstractType, PrepareError>)
      modifies stmt`columns
      ensures TypeAndRemove(old(stmt.columns), definedOrdering, t)
                == if r.Ok? then Ok((r.value, stmt.columns)) else Err(r.error)
    {
      if t !in stmt.columns {
        return Err(UnknownKeyPart(t));
      }
      var columnType := stmt.columns[t];
      if columnType.CollectionType? && columnType.multiCell {
        return Err(CollectionKeyPart(t));
      }
      stmt.columns := stmt.columns - {t};
      var isReversed := if t in definedOrdering then Some(definedOrdering[t]) else None;
      return Ok(if isReversed.Some? && isReversed.value then ReversedType(columnType) else columnType);
    }

    /** The loop over `definedNames`' entries (:330-332), in iteration order. */
    method FindDuplicate(order: seq<Ident>) returns (dup: Option<Ident>)
      ensures dup == FirstDuplicate(order, definedNames, 0)
    {
      for i := 0 to |order|
        invariant FirstDuplicate(order, definedNames, 0) == FirstDuplicate(order, definedNames, i)
      {
        if definedNames[order[i]] > 1 {
          return Some(order[i]);
        }
      }
      return None;
    }

    /** The loop over the definitions (:342-358): every declared column with its marshalling type. */
    method CollectColumns(stmt: CreateTableStatement) returns (hasCounters: bool, colls: map<Ident, AbstractType>)
      requires stmt.columns == map[]
      modifies stmt`columns
      ensures stmt.columns == ColumnsOf(definitions)
      ensures hasCounters == HasCounters(definitions)
      ensures colls == MultiCellCollections(definitions)
    {
      hasCounters := false;
      colls := map[];
      var remaining := definitions.Keys;
      while remaining != {}
        invariant remaining <= definitions.Keys
        invariant stmt.columns == map id | id in definitions && id !in remaining :: GetType(definitions[id])
        invariant hasCounters <==> exists id :: id in definitions && id !in remaining && definitions[id].Counter?
        invariant colls == map id | id in definitions && id !in remaining && definitions[id].Collection?
                                     && definitions[id].multiCell :: GetType(definitions[id])
        decreases remaining
      {
        var id :| id in remaining;
        var pt := definitions[id];
        if pt.Collection? && pt.multiCell {
          colls := colls[id := GetType(pt)];
        } else if pt.Counter? {
          hasCounters := true;
        }
        stmt.columns := stmt.columns[id := GetType(pt)];
        remaining := remaining - {id};
      }
    }

    /**
     * The loop over key parts (partition key :375-400, compound clustering
     * key :457-467): each part is taken out of the columns and checked.
     */
    method CollectKeyParts(stmt: CreateTableStatement, aliases: seq<Ident>)
      returns (err: Option<PrepareError>, types: seq<AbstractType>)
      modifies stmt`columns
      ensures KeyLoop(Snapshot(), aliases, 0, old(stmt.columns), [])
                == if err.Some? then Err(err.value) else Ok((types, stmt.columns))
    {
      types := [];
      for i := 0 to |aliases|
        invariant KeyLoop(Snapshot(), aliases, 0, old(stmt.columns), [])
                    == KeyLoop(Snapshot(), aliases, i, stmt.columns, types)
      {
        var t := GetTypeAndRemove(stmt, aliases[i]);
        if t.Err? {
          return Some(t.error), types;
        }
        if t.value.CounterColumnType? {
          return Some(CounterKeyPart(aliases[i])), types;
        }
        if aliases[i] in staticColumns {
          return Some(StaticKeyPart(aliases[i])), types;
        }
        types := types + [t.value];
      }
      err := None;
    }

    /** The comparator step (:407-483): the comparator, the clustering aliases and the columns left. */
    method BuildComparator(stmt: CreateTableStatement, colls: map<Ident, AbstractType>) returns (err: Option<PrepareError>)
      modifies stmt`columns, stmt`comparator, stmt`columnAliases
      ensures ClusteringStage(Snapshot(), old(stmt.columns), colls)
                == if err.Some? then Err(err.value) else Ok((stmt.comparator, stmt.columns))
      ensures err.None? ==> stmt.columnAliases == columnAliases
    {
      if |columnAliases| == 0 {
        if useCompactStorage {
          if stmt.columns == map[] {
            return Some(NoNonKeyDefinition);
          }
          if colls != map[] {
            return Some(NonFrozenCollectionCompact);
          }
          stmt.comparator := SimpleSparse(UTF8Type);
        } else {
          stmt.comparator := if colls == map[] then CompoundSparse([]) else CompoundSparseWithCollection([], colls);
        }
        stmt.columnAliases := [];
      } else if useCompactStorage && |columnAliases| == 1 {
        if colls != map[] {
          return Some(CollectionCompact);
        }
        var alias := columnAliases[0];
        if alias in staticColumns {
          return Some(StaticKeyPart(alias));
        }
        stmt.columnAliases := [alias];
        var at := GetTypeAndRemove(stmt, alias);
        if at.Err? {
          return Some(at.error);
        }
        if at.value.CounterColumnType? {
          return Some(CounterKeyPart(alias));
        }
        stmt.comparator := SimpleDense(at.value);
      } else {
        var e, types := CollectKeyParts(stmt, columnAliases);
        if e.Some? {
          return e;
        }
        stmt.columnAliases := columnAliases;
        if useCompactStorage {
          if colls != map[] {
            return Some(CollectionCompact);
          }
          stmt.comparator := CompoundDense(types);
        } else {
          stmt.comparator := if colls == map[] then CompoundSparse(types) else CompoundSparseWithCollection(types, colls);
        }
      }
      err := None;
    }

    /** The default validator and value alias step (:497-542). */
    method ChooseValue(stmt: CreateTableStatement, order: seq<Ident>) returns (err: Option<PrepareError>)
      requires forall id :: id in stmt.columns ==> id in order
      requires stmt.columnAliases == columnAliases && stmt.valueAlias == None
      modifies stmt`columns, stmt`defaultValidator, stmt`valueAlias
      ensures ValueStage(Snapshot(), order, old(stmt.columns))
                == if err.Some? then Err(err.value) else Ok((stmt.defaultValidator, stmt.valueAlias, stmt.columns))
    {
      if useCompactStorage && |stmt.columnAliases| > 0 {
        if stmt.columns == map[] {
          stmt.defaultValidator := BytesType;
          stmt.valueAlias := Some("");
        } else {
          if |stmt.columns| > 1 {
            return Some(TooManyCompactValues(stmt.columns.Keys));
          }
          var first := FirstIn(order, stmt.columns);
          stmt.defaultValidator := stmt.columns[first];
          stmt.valueAlias := Some(first);
          stmt.columns := stmt.columns - {first};
        }
      } else {
        if useCompactStorage && stmt.columns == map[] {
          return Some(CompactNoColumn);
        }
        stmt.defaultValidator :=
          if stmt.columns != map[] && stmt.columns[FirstIn(order, stmt.columns)].CounterColumnType?
          then CounterColumnType
          else BytesType;
      }
      err := None;
    }

    /** The CLUSTERING ORDER check (:550-569), walking `definedOrdering`'s keys in insertion order. */
    method CheckOrdering() returns (err: Option<PrepareError>)
      ensures err == OrderingCheck(Snapshot())
    {
      if |orderingKeys| == 0 {
        return None;
      }
      if |orderingKeys| > |columnAliases| {
        return Some(OrderingNotClustering);
      }
      for i := 0 to |orderingKeys|
        invariant OrderingLoop(Snapshot(), 0) == OrderingLoop(Snapshot(), i)
      {
        var id := orderingKeys[i];
        var c := columnAliases[i];
        if id != c {
          if c in definedOrdering {
            return Some(OrderingOutOfOrder(c, id));
          } else {
            return Some(MissingOrdering(c));
          }
        }
      }
      return None;
    }

    /**
     * `prepare()` (:315-572): the statement `Resolve` specifies, or the
     * error it specifies. `order` is the hash tables' iteration order. As
     * the accumulators keep the CLUSTERING ORDER consistent, an accepted
     * statement's partition key parts have their declared types, never
     * reversed ones.
     */
    method Prepare(order: seq<Ident>) returns (r: Result<CreateTableStatement, PrepareError>)
      requires Valid() && Covers(order, Snapshot())
      ensures r.Err? ==> Resolve(Snapshot(), order) == Err(r.error)
      ensures r.Ok? ==> fresh(r.value) && Resolve(Snapshot(), order) == Ok(r.value.Snapshot())
      ensures r.Ok? ==> |keyAliases| == 1
      ensures r.Ok? ==> forall j :: 0 <= j < |keyAliases[0]| ==> keyAliases[0][j] in Declared(Snapshot())
      ensures r.Ok? ==> forall j :: 0 <= j < |keyAliases[0]| ==>
                KeyTypes(Snapshot(), Declared(Snapshot()), keyAliases[0])[j] == Declared(Snapshot())[keyAliases[0][j]]
    {
      if !IsWordName(cfName) {
        return Err(InvalidTableName(cfName));
      }
      if |cfName| > NameLength {
        return Err(TableNameTooLong(cfName));
      }
      var dup := FindDuplicate(order);
      if dup.Some? {
        return Err(MultipleDefinition(dup.value));
      }

      var stmt := new CreateTableStatement(cfName, staticColumns);
      var hasCounters, colls := CollectColumns(stmt);

      if |keyAliases| == 0 {
        return Err(NoPrimaryKey);
      } else if |keyAliases| > 1 {
        return Err(MultiplePrimaryKeys);
      } else if hasCounters && defaultTimeToLive > 0 {
        return Err(CountersWithDefaultTtl);
      }

      r := PrepareKeyed(order, stmt, colls);
      if r.Ok? {
        ResolvePartitionKeyNotReversed(Snapshot(), order);
      }
    }

    /** `prepare()` from the partition key on (:375-572), filling in the fresh statement. */
    method PrepareKeyed(order: seq<Ident>, stmt: CreateTableStatement, colls: map<Ident, AbstractType>)
      returns (r: Result<CreateTableStatement, PrepareError>)
      requires Covers(order, Snapshot()) && |keyAliases| == 1
      requires stmt.columns == ColumnsOf(definitions) && colls == MultiCellCollections(definitions)
      requires stmt.cfName == cfName && stmt.staticColumns == staticColumns
      requires stmt.keyAliases == [] && stmt.columnAliases == [] && stmt.valueAlias == None
      modifies stmt
      ensures r.Err? ==> ResolveKeyed(Snapshot(), order) == Err(r.error)
      ensures r.Ok? ==> r.value == stmt && ResolveKeyed(Snapshot(), order) == Ok(stmt.Snapshot())
    {
      ghost var d := Snapshot();
      var keyErr, keyTypes := CollectKeyParts(stmt, keyAliases[0]);
      if keyErr.Some? {
        return Err(keyErr.value);
      }
      ghost var afterKeys := stmt.columns;
      assert KeyLoop(d, d.keyAliases[0], 0, ColumnsOf(d.definitions), []) == Ok((keyTypes, afterKeys));
      stmt.keyAliases := keyAliases[0];
      stmt.keyValidator := if |keyTypes| == 1 then keyTypes[0] else CompositeType(keyTypes);

      stmt.isDense := useCompactStorage && |columnAliases| > 0;
      var clusteringErr := BuildComparator(stmt, colls);
      if clusteringErr.Some? {
        return Err(clusteringErr.value);
      }
      assert ClusteringStage(d, afterKeys, colls) == Ok((stmt.comparator, stmt.columns));
      assert forall id :: id in stmt.columns ==> id in order;

      r := PrepareClustered(order, stmt, keyTypes);
    }

    /** `prepare()` from the static column check on (:485-572), completing the statement. */
    method PrepareClustered(order: seq<Ident>, stmt: CreateTableStatement, ghost keyTypes: seq<AbstractType>)
      returns (r: Result<CreateTableStatement, PrepareError>)
      requires |keyAliases| == 1
      requires forall id :: id in stmt.columns ==> id in order
      requires stmt.columnAliases == columnAliases && stmt.valueAlias == None
      modifies stmt`columns, stmt`defaultValidator, stmt`valueAlias
      ensures r.Err? ==> ResolveClustered(Snapshot(), order, keyTypes, stmt.comparator, old(stmt.columns)) == Err(r.error)
      ensures r.Ok? ==> r.value == stmt
      ensures r.Ok? ==> ResolveClustered(Snapshot(), order, keyTypes, stmt.comparator, old(stmt.columns))
                          == Ok(Prepared(cfName, stmt.comparator, stmt.defaultValidator,
                                         if |keyTypes| == 1 then keyTypes[0] else CompositeType(keyTypes),
                                         keyAliases[0], columnAliases, stmt.valueAlias,
                                         useCompactStorage && |columnAliases| > 0, stmt.columns, staticColumns))
    {
      if staticColumns != {} {
        if useCompactStorage {
          return Err(StaticInCompact);
        }
        if |columnAliases| == 0 {
          return Err(StaticWithoutClustering);
        }
      }

      assert forall id :: id in stmt.columns ==> id in order;
      ghost var afterClustering := stmt.columns;
      var valueErr := ChooseValue(stmt, order);
      if valueErr.Some? {
        return Err(valueErr.value);
      }

      var orderingErr := CheckOrdering();
      if orderingErr.Some? {
        return Err(orderingErr.value);
      }
      return Ok(stmt);
    }
  }
}