/**
 * The table metadata a resolved `CREATE TABLE` announces
 * (`CreateTableStatement.getCFMetaData`, `applyPropertiesTo`, `getColumns`,
 * `addColumnMetadataFromAliases`), as a specification: which column
 * definition each column gets, and in which order definitions replace one
 * another.
 */
module TableMetadata {
  import opened Wrappers
  import opened Marshal
  import opened Config
  import opened CreateTable
  import opened CreateTableProperties

  /** The component index `getColumns` gives regular and static columns. */
  function RegularComponentIndex(comparator: CellNameType): (r: Option<nat>)
    ensures r.Some? <==> comparator.IsCompound()
    ensures r.Some? ==> r.value == comparator.ClusteringPrefixSize()
  {
    if comparator.IsCompound() then Some(comparator.ClusteringPrefixSize()) else None
  }

  /** The definition `getColumns` makes for a column left after prepare (:172-174). */
  function RegularDefinition(p: Prepared, id: Ident): (r: ColumnDefinition)
    requires id in p.columns
    ensures r.name == id && r.columnType == p.columns[id]
    ensures r.kind == (if id in p.staticColumns then Static else Regular)
    ensures r.componentIndex == RegularComponentIndex(p.comparator)
  {
    ColumnDefinition(id, p.columns[id], RegularComponentIndex(p.comparator),
                     if id in p.staticColumns then Static else Regular)
  }

  /** The definitions `getColumns` lists, by name. */
  function RegularDefinitions(p: Prepared): (r: map<Ident, ColumnDefinition>)
    ensures r.Keys == p.columns.Keys
  {
    map id | id in p.columns :: RegularDefinition(p, id)
  }

  /** What `addColumnMetadataFromAliases` demands of its arguments (the `assert` and the list indexing). */
  predicate AliasesFit(aliases: seq<Ident>, comparator: AbstractType) {
    if comparator.CompositeType? then |aliases| <= |comparator.types| else |aliases| <= 1
  }

  /**
   * The definitions `addColumnMetadataFromAliases` adds, in order: with a
   * composite type the i-th alias gets the i-th component and index i;
   * otherwise the single alias gets the whole type and no index.
   */
  function AliasDefinitions(aliases: seq<Ident>, comparator: AbstractType, kind: Kind): (r: seq<ColumnDefinition>)
    requires AliasesFit(aliases, comparator)
    ensures |r| == |aliases|
    ensures forall i :: 0 <= i < |r| ==>
              && r[i].name == aliases[i]
              && r[i].kind == kind
              && (comparator.CompositeType? ==> r[i].columnType == comparator.types[i] && r[i].componentIndex == Some(i))
              && (!comparator.CompositeType? ==> r[i].columnType == comparator && r[i].componentIndex == None)
  {
    if comparator.CompositeType? then
      seq(|aliases|, i requires 0 <= i < |aliases| => ColumnDefinition(aliases[i], comparator.types[i], Some(i), kind))
    else if |aliases| == 1 then [ColumnDefinition(aliases[0], comparator, None, kind)]
    else []
  }

  /** The names of a list of definitions. */
  function Names(defs: seq<ColumnDefinition>): set<Ident> {
    set i | 0 <= i < |defs| :: defs[i].name
  }

  /** `addOrReplaceColumnDefinition` applied to each definition in turn. */
  function AddOrReplaceAll(m: map<Ident, ColumnDefinition>, defs: seq<ColumnDefinition>)
    : (r: map<Ident, ColumnDefinition>)
    ensures r.Keys == m.Keys + Names(defs)
    decreases |defs|
  {
    if defs == [] then m
    else
      var r := AddOrReplaceAll(m[defs[0].name := defs[0]], defs[1..]);
      assert Names(defs) == {defs[0].name} + Names(defs[1..]) by {
        forall i | 0 <= i < |defs| ensures defs[i].name in {defs[0].name} + Names(defs[1..]) {
          if i > 0 { assert defs[i] == defs[1..][i - 1]; }
        }
      }
      r
  }

  /**
   * The last definition of a name wins; a name no definition uses keeps its
   * entry.
   */
  lemma {:induction false} AddOrReplaceAllSpec(m: map<Ident, ColumnDefinition>, defs: seq<ColumnDefinition>)
    ensures forall i :: 0 <= i < |defs| && (forall k :: i < k < |defs| ==> defs[k].name != defs[i].name) ==>
              AddOrReplaceAll(m, defs)[defs[i].name] == defs[i]
    ensures forall n :: n in m && n !in Names(defs) ==> AddOrReplaceAll(m, defs)[n] == m[n]
    decreases |defs|
  {
    if defs != [] {
      var m' := m[defs[0].name := defs[0]];
      var tail := defs[1..];
      AddOrReplaceAllSpec(m', tail);
      forall i | 0 <= i < |defs| && (forall k :: i < k < |defs| ==> defs[k].name != defs[i].name)
        ensures AddOrReplaceAll(m, defs)[defs[i].name] == defs[i]
      {
        if i == 0 {
          assert defs[0].name !in Names(tail) by {
            forall j | 0 <= j < |tail| ensures tail[j].name != defs[0].name {
              assert tail[j] == defs[j + 1];
            }
          }
        } else {
          assert defs[i] == tail[i - 1];
          assert forall k :: i - 1 < k < |tail| ==> tail[k] == defs[k + 1];
        }
      }
      forall n | n in m && n !in Names(defs) ensures AddOrReplaceAll(m, defs)[n] == m[n] {
        assert defs[0].name in Names(defs);
        assert n !in Names(tail) by {
          forall j | 0 <= j < |tail| ensures tail[j].name != n {
            assert tail[j] == defs[j + 1];
          }
        }
      }
    }
  }

  /** The three `addColumnMetadataFromAliases` calls of `applyPropertiesTo` can be made (:233-236). */
  predicate Fits(p: Prepared) {
    && AliasesFit(p.keyAliases, p.keyValidator)
    && AliasesFit(p.columnAliases, p.comparator.AsAbstractType())
    && (p.valueAlias.Some? ==> AliasesFit([p.valueAlias.value], p.defaultValidator))
  }

  /** The partition key definitions (:233). */
  function KeyDefinitions(p: Prepared): seq<ColumnDefinition>
    requires Fits(p)
  {
    AliasDefinitions(p.keyAliases, p.keyValidator, PartitionKey)
  }

  /** The clustering column definitions (:234). */
  function ClusteringDefinitions(p: Prepared): seq<ColumnDefinition>
    requires Fits(p)
  {
    AliasDefinitions(p.columnAliases, p.comparator.AsAbstractType(), ClusteringColumn)
  }

  /** The compact value definition, when there is a value alias (:235-236). */
  function ValueDefinitions(p: Prepared): (r: seq<ColumnDefinition>)
    requires Fits(p)
    ensures p.valueAlias.None? ==> r == []
    ensures p.valueAlias.Some? ==> |r| == 1 && r[0].name == p.valueAlias.value && r[0].kind == CompactValue
    ensures p.valueAlias.Some? && !p.defaultValidator.CompositeType? ==>
              r == [ColumnDefinition(p.valueAlias.value, p.defaultValidator, None, CompactValue)]
  {
    if p.valueAlias.Some? then AliasDefinitions([p.valueAlias.value], p.defaultValidator, CompactValue) else []
  }

  /** The column definitions after the regular columns and the partition key. */
  function KeyedDefinitions(p: Prepared): map<Ident, ColumnDefinition>
    requires Fits(p)
  {
    AddOrReplaceAll(RegularDefinitions(p), KeyDefinitions(p))
  }

  /** The column definitions after the clustering columns too. */
  function AliasedDefinitions(p: Prepared): map<Ident, ColumnDefinition>
    requires Fits(p)
  {
    AddOrReplaceAll(KeyedDefinitions(p), ClusteringDefinitions(p))
  }

  /** What `getCFMetaData()` produces for keyspace `ksName` (:207-236), table properties aside. */
  function MetadataFor(ksName: string, p: Prepared): (r: CFMetaData)
    requires Fits(p)
    ensures (r.ksName, r.cfName, r.comparator) == (ksName, p.cfName, p.comparator)
    ensures (r.defaultValidator, r.keyValidator, r.isDense) == (p.defaultValidator, p.keyValidator, p.isDense)
    ensures r.columnMetadata.Keys
              == p.columns.Keys + Elems(p.keyAliases) + Elems(p.columnAliases)
                 + (if p.valueAlias.Some? then {p.valueAlias.value} else {})
  {
    assert Names(KeyDefinitions(p)) == Elems(p.keyAliases);
    assert Names(ClusteringDefinitions(p)) == Elems(p.columnAliases);
    assert p.valueAlias.Some? ==> Names(ValueDefinitions(p)) == {p.valueAlias.value} by {
      if p.valueAlias.Some? { assert ValueDefinitions(p)[0].name == p.valueAlias.value; }
    }
    assert p.valueAlias.None? ==> Names(ValueDefinitions(p)) == {};
    CFMetaData(ksName, p.cfName, p.comparator, p.defaultValidator, p.keyValidator, p.isDense,
               AddOrReplaceAll(AliasedDefinitions(p), ValueDefinitions(p)))
  }

  /** An accepted statement meets `addColumnMetadataFromAliases`'s demands on all three calls. */
  lemma ResolvedFits(d: RawDefinition, order: seq<Ident>)
    requires Covers(order, d)
    requires Resolve(d, order).Ok?
    ensures Fits(Resolve(d, order).value)
  {
    ResolvePartitionKey(d, order);
    ResolveComparator(d, order);
    ResolveValue(d, order);
  }

  /** The type and index the i-th clustering column gets from the comparator. */
  lemma ClusteringComponent(clustering: seq<AbstractType>, compact: bool, colls: map<Ident, AbstractType>, i: nat)
    requires i < |clustering|
    requires !clustering[i].CompositeType?
    ensures var c := ComparatorFor(clustering, compact, colls);
            var t := c.AsAbstractType();
            && (t.CompositeType? <==> c.IsCompound())
            && (t.CompositeType? ==> i < |t.types| && t.types[i] == clustering[i])
            && (!t.CompositeType? ==> t == clustering[i])
  {
    var c := ComparatorFor(clustering, compact, colls);
    match c
    case CompoundSparse(ts) => assert (ts + [UTF8Type])[i] == ts[i];
    case CompoundSparseWithCollection(ts, m) => assert (ts + [UTF8Type, ColumnToCollectionType(m)])[i] == ts[i];
    case _ =>
  }

  /** The definition the i-th of distinct aliases gets survives the whole list. */
  lemma AliasDefinitionSurvives(m: map<Ident, ColumnDefinition>, aliases: seq<Ident>, t: AbstractType, kind: Kind, i: nat)
    requires AliasesFit(aliases, t)
    requires forall j, k :: 0 <= j < k < |aliases| ==> aliases[j] != aliases[k]
    requires i < |aliases|
    ensures AddOrReplaceAll(m, AliasDefinitions(aliases, t, kind))[aliases[i]]
              == AliasDefinitions(aliases, t, kind)[i]
  {
    AddOrReplaceAllSpec(m, AliasDefinitions(aliases, t, kind));
  }

  /** Definitions whose names avoid `n` leave its entry alone. */
  lemma OtherNamesKeep(m: map<Ident, ColumnDefinition>, aliases: seq<Ident>, t: AbstractType, kind: Kind, n: Ident)
    requires AliasesFit(aliases, t)
    requires n in m && n !in Elems(aliases)
    ensures AddOrReplaceAll(m, AliasDefinitions(aliases, t, kind))[n] == m[n]
  {
    var defs := AliasDefinitions(aliases, t, kind);
    AddOrReplaceAllSpec(m, defs);
    assert n !in Names(defs) by {
      forall j | 0 <= j < |defs| ensures defs[j].name != n {
        assert defs[j].name == aliases[j];
      }
    }
  }

  /** The value alias, when there is one, gets the compact value definition. */
  lemma MetadataValue(ksName: string, p: Prepared)
    requires Fits(p)
    requires p.valueAlias.Some?
    ensures MetadataFor(ksName, p).columnMetadata[p.valueAlias.value] == ValueDefinitions(p)[0]
  {
    AddOrReplaceAllSpec(AliasedDefinitions(p), ValueDefinitions(p));
  }

  /** Every other entry stays as the aliases left it. */
  lemma MetadataBesidesValue(ksName: string, p: Prepared, n: Ident)
    requires Fits(p)
    requires n in AliasedDefinitions(p) && Some(n) != p.valueAlias
    ensures MetadataFor(ksName, p).columnMetadata[n] == AliasedDefinitions(p)[n]
  {
    var value := ValueDefinitions(p);
    AddOrReplaceAllSpec(AliasedDefinitions(p), value);
    assert n !in Names(value) by {
      if p.valueAlias.Some? { assert value[0].name == p.valueAlias.value; }
    }
  }

  /** Regular and static columns keep the definition `getColumns` gave them. */
  lemma MetadataRegular(p: Prepared, id: Ident)
    requires Fits(p)
    requires id in p.columns && id !in Elems(p.keyAliases) && id !in Elems(p.columnAliases)
    ensures AliasedDefinitions(p)[id] == RegularDefinition(p, id)
  {
    OtherNamesKeep(RegularDefinitions(p), p.keyAliases, p.keyValidator, PartitionKey, id);
    OtherNamesKeep(KeyedDefinitions(p), p.columnAliases, p.comparator.AsAbstractType(), ClusteringColumn, id);
  }

  /** A partition key part keeps its definition when no clustering column shares its name. */
  lemma MetadataKey(p: Prepared, i: nat)
    requires Fits(p)
    requires forall j, k :: 0 <= j < k < |p.keyAliases| ==> p.keyAliases[j] != p.keyAliases[k]
    requires i < |p.keyAliases| && p.keyAliases[i] !in Elems(p.columnAliases)
    ensures AliasedDefinitions(p)[p.keyAliases[i]] == KeyDefinitions(p)[i]
  {
    AliasDefinitionSurvives(RegularDefinitions(p), p.keyAliases, p.keyValidator, PartitionKey, i);
    OtherNamesKeep(KeyedDefinitions(p), p.columnAliases, p.comparator.AsAbstractType(), ClusteringColumn,
                   p.keyAliases[i]);
  }

  /** A clustering column keeps its definition. */
  lemma MetadataClustering(p: Prepared, i: nat)
    requires Fits(p)
    requires forall j, k :: 0 <= j < k < |p.columnAliases| ==> p.columnAliases[j] != p.columnAliases[k]
    requires i < |p.columnAliases|
    ensures AliasedDefinitions(p)[p.columnAliases[i]] == ClusteringDefinitions(p)[i]
  {
    AliasDefinitionSurvives(KeyedDefinitions(p), p.columnAliases, p.comparator.AsAbstractType(), ClusteringColumn, i);
  }

  /** Every column left after prepare of an accepted table is regular or static, as `getColumns` made it. */
  lemma ResolvedRegularMetadata(d: RawDefinition, order: seq<Ident>, ksName: string, p: Prepared)
    requires Covers(order, d)
    requires Resolve(d, order) == Ok(p)
    ensures Fits(p)
    ensures forall id :: id in p.columns ==> MetadataFor(ksName, p).columnMetadata[id] == RegularDefinition(p, id)
  {
    ResolvedFits(d, order);
    ResolveValue(d, order);
    forall id | id in p.columns ensures MetadataFor(ksName, p).columnMetadata[id] == RegularDefinition(p, id) {
      assert id in Rest(d);
      MetadataRegular(p, id);
      MetadataBesidesValue(ksName, p, id);
    }
  }

  /** The facts about an accepted table the definitions depend on, stated on its result. */
  lemma ResolvedShape(d: RawDefinition, order: seq<Ident>, p: Prepared)
    requires Covers(order, d)
    requires Resolve(d, order) == Ok(p)
    ensures Fits(p)
    ensures forall j :: 0 <= j < |p.keyAliases| ==> p.keyAliases[j] in Declared(d)
    ensures forall j :: 0 <= j < |p.columnAliases| ==> p.columnAliases[j] in Declared(d)
    ensures forall j, k :: 0 <= j < k < |p.keyAliases| ==> p.keyAliases[j] != p.keyAliases[k]
    ensures forall j, k :: 0 <= j < k < |p.columnAliases| ==> p.columnAliases[j] != p.columnAliases[k]
    ensures forall j :: 0 <= j < |p.keyAliases| ==> p.keyAliases[j] !in Elems(p.columnAliases)
    ensures p.keyValidator == if |p.keyAliases| == 1 then KeyTypes(d, Declared(d), p.keyAliases)[0]
                              else CompositeType(KeyTypes(d, Declared(d), p.keyAliases))
    ensures p.comparator == ComparatorFor(KeyTypes(d, Declared(d), p.columnAliases), d.useCompactStorage,
                                          MultiCellCollections(d.definitions))
  {
    ResolvedFits(d, order);
    ResolvePartitionKey(d, order);
    ResolveComparator(d, order);
    ResolveClusteringStage(d, order);
    var ka := p.keyAliases;
    var ca := p.columnAliases;
    forall j | 0 <= j < |ka| ensures ka[j] !in Elems(ca) {
      forall k | 0 <= k < |ca| ensures ca[k] != ka[j] {
        assert ca[k] in Declared(d) - Elems(ka);
        assert ka[j] in Elems(ka);
      }
    }
  }

  /** The definition the i-th partition key part ends with, given the parts' types. */
  lemma KeyPartDefinition(ksName: string, p: Prepared, keyTypes: seq<AbstractType>, i: nat)
    requires Fits(p)
    requires forall j, k :: 0 <= j < k < |p.keyAliases| ==> p.keyAliases[j] != p.keyAliases[k]
    requires |keyTypes| == |p.keyAliases|
    requires forall j :: 0 <= j < |keyTypes| ==> !keyTypes[j].CompositeType?
    requires p.keyValidator == if |keyTypes| == 1 then keyTypes[0] else CompositeType(keyTypes)
    requires i < |p.keyAliases| && p.keyAliases[i] !in Elems(p.columnAliases) && Some(p.keyAliases[i]) != p.valueAlias
    ensures MetadataFor(ksName, p).columnMetadata[p.keyAliases[i]]
              == ColumnDefinition(p.keyAliases[i], keyTypes[i],
                                  if |p.keyAliases| == 1 then None else Some(i), PartitionKey)
  {
    MetadataKey(p, i);
    MetadataBesidesValue(ksName, p, p.keyAliases[i]);
  }

  /**
   * Each partition key part of an accepted table is a PARTITION_KEY column
   * with its (possibly reversed) declared type, and its position as index
   * when the key is composite. Only the empty value alias could replace it.
   */
  lemma ResolvedKeyMetadata(d: RawDefinition, order: seq<Ident>, ksName: string, p: Prepared)
    requires Covers(order, d)
    requires Resolve(d, order) == Ok(p)
    ensures Fits(p)
    ensures forall j :: 0 <= j < |p.keyAliases| ==> p.keyAliases[j] in Declared(d)
    ensures forall i :: 0 <= i < |p.keyAliases| && Some(p.keyAliases[i]) != p.valueAlias ==>
              MetadataFor(ksName, p).columnMetadata[p.keyAliases[i]]
                == ColumnDefinition(p.keyAliases[i], KeyTypes(d, Declared(d), p.keyAliases)[i],
                                    if |p.keyAliases| == 1 then None else Some(i), PartitionKey)
  {
    ResolvedShape(d, order, p);
    var keyTypes := KeyTypes(d, Declared(d), p.keyAliases);
    forall i | 0 <= i < |p.keyAliases| && Some(p.keyAliases[i]) != p.valueAlias
      ensures MetadataFor(ksName, p).columnMetadata[p.keyAliases[i]]
                == ColumnDefinition(p.keyAliases[i], keyTypes[i],
                                    if |p.keyAliases| == 1 then None else Some(i), PartitionKey)
    {
      KeyPartDefinition(ksName, p, keyTypes, i);
    }
  }


  /** The definition the i-th clustering column ends with, given the clustering types. */
  lemma ClusteringColumnDefinition(ksName: string, p: Prepared, clusteringTypes: seq<AbstractType>,
                                   compact: bool, colls: map<Ident, AbstractType>, i: nat)
    requires Fits(p)
    requires forall j, k :: 0 <= j < k < |p.columnAliases| ==> p.columnAliases[j] != p.columnAliases[k]
    requires |clusteringTypes| == |p.columnAliases|
    requires forall j :: 0 <= j < |clusteringTypes| ==> !clusteringTypes[j].CompositeType?
    requires p.comparator == ComparatorFor(clusteringTypes, compact, colls)
    requires i < |p.columnAliases| && Some(p.columnAliases[i]) != p.valueAlias
    ensures MetadataFor(ksName, p).columnMetadata[p.columnAliases[i]]
              == ColumnDefinition(p.columnAliases[i], clusteringTypes[i],
                                  if p.comparator.IsCompound() then Some(i) else None, ClusteringColumn)
  {
    MetadataClustering(p, i);
    MetadataBesidesValue(ksName, p, p.columnAliases[i]);
    ClusteringComponent(clusteringTypes, compact, colls, i);
  }

  /**
   * Each clustering column of an accepted table is a CLUSTERING_COLUMN with
   * its (possibly reversed) declared type, and its position as index when
   * the comparator is compound.
   */
  lemma ResolvedClusteringMetadata(d: RawDefinition, order: seq<Ident>, ksName: string, p: Prepared)
    requires Covers(order, d)
    requires Resolve(d, order) == Ok(p)
    ensures Fits(p)
    ensures forall j :: 0 <= j < |p.columnAliases| ==> p.columnAliases[j] in Declared(d)
    ensures forall i :: 0 <= i < |p.columnAliases| && Some(p.columnAliases[i]) != p.valueAlias ==>
              MetadataFor(ksName, p).columnMetadata[p.columnAliases[i]]
                == ColumnDefinition(p.columnAliases[i], KeyTypes(d, Declared(d), p.columnAliases)[i],
                                    if p.comparator.IsCompound() then Some(i) else None, ClusteringColumn)
  {
    ResolvedShape(d, order, p);
    var ca := p.columnAliases;
    var clusteringTypes := KeyTypes(d, Declared(d), ca);
    forall i | 0 <= i < |ca| && Some(ca[i]) != p.valueAlias
      ensures MetadataFor(ksName, p).columnMetadata[ca[i]]
                == ColumnDefinition(ca[i], clusteringTypes[i],
                                    if p.comparator.IsCompound() then Some(i) else None, ClusteringColumn)
    {
      ClusteringColumnDefinition(ksName, p, clusteringTypes, d.useCompactStorage, MultiCellCollections(d.definitions), i);
    }
  }


  /** The value alias of an accepted table, when there is one, is the COMPACT_VALUE column with the default validator. */
  lemma ResolvedValueMetadata(d: RawDefinition, order: seq<Ident>, ksName: string, p: Prepared)
    requires Covers(order, d)
    requires Resolve(d, order) == Ok(p)
    ensures Fits(p)
    ensures p.valueAlias.Some? ==>
              MetadataFor(ksName, p).columnMetadata[p.valueAlias.value]
                == ColumnDefinition(p.valueAlias.value, p.defaultValidator, None, CompactValue)
  {
    ResolvedFits(d, order);
    ResolveValue(d, order);
    if p.valueAlias.Some? {
      MetadataValue(ksName, p);
    }
  }
}
