/**
 * What `prepare()` promises, proved about its specification `Resolve`:
 * check precedence, the key-part rules, the key validator, the comparator
 * decision table, static columns, the compact value column and the
 * CLUSTERING ORDER prefix rule.
 */
module CreateTableProperties {
  import opened Wrappers
  import opened Marshal
  import opened CreateTable

  /** The set of identifiers listed in `s`. */
  function Elems(s: seq<Ident>): set<Ident> {
    set j | 0 <= j < |s| :: s[j]
  }

  lemma ElemsSingleton(x: Ident)
    ensures Elems([x]) == {x}
  {
    assert [x][0] == x;
  }

  /** One key part passes `getTypeAndRemove` and the counter and static checks. */
  predicate KeyPartOk(d: RawDefinition, columns: map<Ident, AbstractType>, id: Ident) {
    && id in columns
    && !IsMultiCellCollection(columns[id])
    && Oriented(columns[id], id, d.ordering) != CounterColumnType
    && id !in d.staticColumns
  }

  /** Every part is accepted and no part is named twice. */
  predicate ValidKeyParts(d: RawDefinition, columns: map<Ident, AbstractType>, s: seq<Ident>) {
    && (forall j :: 0 <= j < |s| ==> KeyPartOk(d, columns, s[j]))
    && (forall j, k :: 0 <= j < k < |s| ==> s[j] != s[k])
  }

  /** The declared types of the parts, each reversed when its ordering is DESC. */
  function KeyTypes(d: RawDefinition, columns: map<Ident, AbstractType>, s: seq<Ident>): (r: seq<AbstractType>)
    requires forall j :: 0 <= j < |s| ==> s[j] in columns
    ensures |r| == |s|
  {
    seq(|s|, j requires 0 <= j < |s| => Oriented(columns[s[j]], s[j], d.ordering))
  }

  /** The type a declared key part gets (:586-587). */
  function DeclaredKeyType(d: RawDefinition, id: Ident): AbstractType
    requires id in d.definitions
  {
    Oriented(GetType(d.definitions[id]), id, d.ordering)
  }

  lemma KeyTypesIgnoreOthers(d: RawDefinition, columns: map<Ident, AbstractType>, x: Ident, s: seq<Ident>)
    requires forall j :: 0 <= j < |s| ==> s[j] in columns - {x}
    ensures KeyTypes(d, columns - {x}, s) == KeyTypes(d, columns, s)
  {
  }

  /**
   * The key-part loop succeeds exactly when every remaining part is valid,
   * and then yields the parts' types in order and removes exactly the parts.
   */
  lemma {:induction false} KeyLoopSpec(d: RawDefinition, aliases: seq<Ident>, i: nat,
                                       columns: map<Ident, AbstractType>, types: seq<AbstractType>)
    requires i <= |aliases|
    ensures KeyLoop(d, aliases, i, columns, types).Ok? <==> ValidKeyParts(d, columns, aliases[i..])
    ensures KeyLoop(d, aliases, i, columns, types).Ok? ==>
              KeyLoop(d, aliases, i, columns, types).value
                == (types + KeyTypes(d, columns, aliases[i..]), columns - Elems(aliases[i..]))
    decreases |aliases| - i
  {
    var s := aliases[i..];
    if i == |aliases| {
      assert Elems(s) == {};
      assert KeyTypes(d, columns, s) == [];
      assert types + [] == types;
      assert columns - {} == columns;
    } else {
      var a := aliases[i];
      var tail := aliases[i + 1..];
      assert s == [a] + tail;
      if a in columns && !IsMultiCellCollection(columns[a]) {
        var t := Oriented(columns[a], a, d.ordering);
        var rest := columns - {a};
        KeyLoopSpec(d, aliases, i + 1, rest, types + [t]);
        if t != CounterColumnType && a !in d.staticColumns {
          if ValidKeyParts(d, rest, tail) {
            forall j | 0 <= j < |s| ensures KeyPartOk(d, columns, s[j]) {
              if j > 0 { assert s[j] == tail[j - 1]; }
            }
            assert ValidKeyParts(d, columns, s);
            KeyTypesIgnoreOthers(d, columns, a, tail);
            assert KeyTypes(d, columns, s) == [t] + KeyTypes(d, columns, tail);
            assert Elems(s) == {a} + Elems(tail);
            assert (types + [t]) + KeyTypes(d, columns, tail) == types + KeyTypes(d, columns, s);
            assert rest - Elems(tail) == columns - Elems(s);
          }
        } else {
          assert !KeyPartOk(d, columns, s[0]);
        }
      } else {
        assert !KeyPartOk(d, columns, s[0]);
      }
    }
  }

  /** The columns a statement declares, with their marshalling types. */
  function Declared(d: RawDefinition): map<Ident, AbstractType> {
    ColumnsOf(d.definitions)
  }

  /**
   * The comparator step accepts exactly valid clustering parts under its
   * COMPACT STORAGE rules, and then picks the shape of the decision table.
   */
  lemma ClusteringStageSpec(d: RawDefinition, columns: map<Ident, AbstractType>, colls: map<Ident, AbstractType>)
    ensures ClusteringStage(d, columns, colls).Ok? <==>
              && ValidKeyParts(d, columns, d.columnAliases)
              && (d.useCompactStorage ==> colls == map[])
              && (d.useCompactStorage && |d.columnAliases| == 0 ==> columns != map[])
    ensures ClusteringStage(d, columns, colls).Ok? ==>
              ClusteringStage(d, columns, colls).value
                == (ComparatorFor(KeyTypes(d, columns, d.columnAliases), d.useCompactStorage, colls),
                    columns - Elems(d.columnAliases))
  {
    var ca := d.columnAliases;
    if |ca| == 0 {
      assert Elems(ca) == {};
      assert KeyTypes(d, columns, ca) == [];
      assert columns - {} == columns;
    } else if d.useCompactStorage && |ca| == 1 {
      assert Elems(ca) == {ca[0]};
      if ca[0] in columns {
        assert KeyTypes(d, columns, ca) == [Oriented(columns[ca[0]], ca[0], d.ordering)];
      }
    } else {
      KeyLoopSpec(d, ca, 0, columns, []);
      assert ca[0..] == ca;
      if ValidKeyParts(d, columns, ca) {
        assert [] + KeyTypes(d, columns, ca) == KeyTypes(d, columns, ca);
      }
    }
  }

  lemma SingletonKey<K, V>(m: map<K, V>, a: K, b: K)
    requires |m| == 1 && a in m && b in m
    ensures a == b
  {
    assert |m.Keys - {a}| == 0;
  }

  /**
   * The value step: with COMPACT STORAGE and clustering columns at most one
   * column may be left and it becomes the value column (the empty alias when
   * none is left); otherwise the columns stay and the default validator is
   * `CounterColumnType` exactly when the first column in iteration order is
   * a counter, `BytesType` otherwise.
   */
  lemma ValueStageSpec(d: RawDefinition, order: seq<Ident>, columns: map<Ident, AbstractType>)
    requires forall id :: id in columns ==> id in order
    ensures d.useCompactStorage && |d.columnAliases| > 0 ==>
              (ValueStage(d, order, columns).Ok? <==> |columns| <= 1)
    ensures d.useCompactStorage && |d.columnAliases| > 0 && columns == map[] ==>
              ValueStage(d, order, columns) == Ok((BytesType, Some(""), map[]))
    ensures forall id :: id in columns && |columns| == 1 && d.useCompactStorage && |d.columnAliases| > 0 ==>
              ValueStage(d, order, columns) == Ok((columns[id], Some(id), map[]))
    ensures !(d.useCompactStorage && |d.columnAliases| > 0) ==>
              (ValueStage(d, order, columns).Ok? <==> !(d.useCompactStorage && columns == map[]))
    ensures !(d.useCompactStorage && |d.columnAliases| > 0) && ValueStage(d, order, columns).Ok? ==>
              var (validator, alias, left) := ValueStage(d, order, columns).value;
              && alias == None
              && left == columns
              && (validator == CounterColumnType <==>
                    columns != map[] && columns[FirstIn(order, columns)] == CounterColumnType)
              && (validator != CounterColumnType ==> validator == BytesType)
  {
    forall id | id in columns && |columns| == 1 && d.useCompactStorage && |d.columnAliases| > 0
      ensures ValueStage(d, order, columns) == Ok((columns[id], Some(id), map[]))
    {
      SingletonKey(columns, id, FirstIn(order, columns));
      forall k | k in columns ensures k == id {
        SingletonKey(columns, k, id);
      }
      assert columns - {id} == map[];
    }
  }

  /** CLUSTERING ORDER names a prefix of the clustering columns, in their order. */
  predicate IsPrefix(p: seq<Ident>, s: seq<Ident>) {
    |p| <= |s| && p == s[..|p|]
  }

  lemma {:induction false} OrderingLoopSpec(d: RawDefinition, i: nat)
    requires |d.orderingKeys| <= |d.columnAliases|
    requires i <= |d.orderingKeys|
    requires d.orderingKeys[..i] == d.columnAliases[..i]
    ensures OrderingLoop(d, i).None? <==> d.orderingKeys == d.columnAliases[..|d.orderingKeys|]
    decreases |d.orderingKeys| - i
  {
    var ok := d.orderingKeys;
    var ca := d.columnAliases;
    if i == |ok| {
      assert ok == ok[..i];
    } else if ok[i] != ca[i] {
      assert ok[i] != ca[..|ok|][i];
    } else {
      assert ok[..i + 1] == ok[..i] + [ok[i]];
      assert ca[..i + 1] == ca[..i] + [ca[i]];
      OrderingLoopSpec(d, i + 1);
    }
  }

  /** The CLUSTERING ORDER check passes exactly on a prefix of the clustering columns. */
  lemma OrderingCheckSpec(d: RawDefinition)
    ensures OrderingCheck(d).None? <==> IsPrefix(d.orderingKeys, d.columnAliases)
  {
    if |d.orderingKeys| > 0 && |d.orderingKeys| <= |d.columnAliases| {
      OrderingLoopSpec(d, 0);
    }
  }

  /** Positions that agree with the clustering columns are walked past. */
  lemma {:induction false} OrderingLoopSkip(d: RawDefinition, j: nat, i: nat)
    requires |d.orderingKeys| <= |d.columnAliases|
    requires j <= i <= |d.orderingKeys|
    requires d.orderingKeys[..i] == d.columnAliases[..i]
    ensures OrderingLoop(d, j) == OrderingLoop(d, i)
    decreases i - j
  {
    if j < i {
      assert d.orderingKeys[j] == d.orderingKeys[..i][j];
      assert d.columnAliases[j] == d.columnAliases[..i][j];
      OrderingLoopSkip(d, j + 1, i);
    }
  }

  /**
   * Which error a rejected CLUSTERING ORDER gets (:555-568): at the first
   * position `i` where the keys leave the clustering columns, the clustering
   * column expected there is reported out of order when CLUSTERING ORDER
   * names it, and missing otherwise. With distinct clustering columns,
   * "names it" means it comes later in CLUSTERING ORDER.
   */
  lemma OrderingErrorChoice(d: RawDefinition, i: nat)
    requires d.ordering.Keys == Elems(d.orderingKeys)
    requires |d.orderingKeys| <= |d.columnAliases|
    requires i < |d.orderingKeys| && d.orderingKeys[..i] == d.columnAliases[..i]
    requires d.orderingKeys[i] != d.columnAliases[i]
    ensures d.columnAliases[i] in Elems(d.orderingKeys) ==>
              OrderingCheck(d) == Some(OrderingOutOfOrder(d.columnAliases[i], d.orderingKeys[i]))
    ensures d.columnAliases[i] !in Elems(d.orderingKeys) ==>
              OrderingCheck(d) == Some(MissingOrdering(d.columnAliases[i]))
    ensures (forall j, k :: 0 <= j < k < |d.columnAliases| ==> d.columnAliases[j] != d.columnAliases[k]) ==>
              (d.columnAliases[i] in Elems(d.orderingKeys)
               <==> exists k :: i < k < |d.orderingKeys| && d.orderingKeys[k] == d.columnAliases[i])
  {
    var ok, ca := d.orderingKeys, d.columnAliases;
    OrderingLoopSkip(d, 0, i);
    if forall j, k :: 0 <= j < k < |ca| ==> ca[j] != ca[k] {
      if ca[i] in Elems(ok) {
        var k :| 0 <= k < |ok| && ok[k] == ca[i];
        assert i < k;
      }
    }
  }

  /** `Resolve` unfolded: the results of its stages when it accepts. */
  lemma ResolveUnfold(d: RawDefinition, order: seq<Ident>)
    requires Covers(order, d)
    requires Resolve(d, order).Ok?
    ensures IsWordName(d.cfName) && |d.cfName| <= NameLength
    ensures FirstDuplicate(order, d.definedNames, 0).None?
    ensures |d.keyAliases| == 1
    ensures !(HasCounters(d.definitions) && d.defaultTimeToLive > 0)
    ensures KeyLoop(d, d.keyAliases[0], 0, Declared(d), []).Ok?
    ensures var kl := KeyLoop(d, d.keyAliases[0], 0, Declared(d), []);
            var cs := ClusteringStage(d, kl.value.1, MultiCellCollections(d.definitions));
            && cs.Ok? && StaticCheck(d).None? && OrderingCheck(d).None?
            && (forall id :: id in cs.value.1 ==> id in order)
            && ValueStage(d, order, cs.value.1).Ok?
            && var p := Resolve(d, order).value;
               && p.cfName == d.cfName
               && p.keyAliases == d.keyAliases[0]
               && p.columnAliases == d.columnAliases
               && p.isDense == (d.useCompactStorage && |d.columnAliases| > 0)
               && p.staticColumns == d.staticColumns
               && p.comparator == cs.value.0
               && ValueStage(d, order, cs.value.1).value == (p.defaultValidator, p.valueAlias, p.columns)
               && p.keyValidator == (if |kl.value.0| == 1 then kl.value.0[0] else CompositeType(kl.value.0))
  {
  }

  /** The partition key loop of an accepted statement. */
  lemma ResolveKeyStage(d: RawDefinition, order: seq<Ident>)
    requires Covers(order, d)
    requires Resolve(d, order).Ok?
    ensures |d.keyAliases| == 1
    ensures ValidKeyParts(d, Declared(d), d.keyAliases[0])
    ensures KeyLoop(d, d.keyAliases[0], 0, Declared(d), [])
              == Ok((KeyTypes(d, Declared(d), d.keyAliases[0]), Declared(d) - Elems(d.keyAliases[0])))
  {
    ResolveUnfold(d, order);
    var ka := d.keyAliases[0];
    KeyLoopSpec(d, ka, 0, Declared(d), []);
    assert ka[0..] == ka;
    assert [] + KeyTypes(d, Declared(d), ka) == KeyTypes(d, Declared(d), ka);
  }

  /** The columns left once the primary key parts are removed. */
  function Rest(d: RawDefinition): map<Ident, AbstractType>
    requires |d.keyAliases| == 1
  {
    Declared(d) - Elems(d.keyAliases[0]) - Elems(d.columnAliases)
  }

  /** The comparator step of an accepted statement. */
  lemma ResolveClusteringStage(d: RawDefinition, order: seq<Ident>)
    requires Covers(order, d)
    requires Resolve(d, order).Ok?
    ensures |d.keyAliases| == 1
    ensures ValidKeyParts(d, Declared(d) - Elems(d.keyAliases[0]), d.columnAliases)
    ensures forall j :: 0 <= j < |d.columnAliases| ==> d.columnAliases[j] in Declared(d)
    ensures d.useCompactStorage ==> MultiCellCollections(d.definitions) == map[]
    ensures d.useCompactStorage && |d.columnAliases| == 0 ==> Rest(d) != map[]
    ensures ClusteringStage(d, Declared(d) - Elems(d.keyAliases[0]), MultiCellCollections(d.definitions))
              == Ok((ComparatorFor(KeyTypes(d, Declared(d), d.columnAliases), d.useCompactStorage,
                                   MultiCellCollections(d.definitions)),
                     Rest(d)))
  {
    ResolveUnfold(d, order);
    ResolveKeyStage(d, order);
    var afterKeys := Declared(d) - Elems(d.keyAliases[0]);
    ClusteringStageSpec(d, afterKeys, MultiCellCollections(d.definitions));
    assert KeyTypes(d, afterKeys, d.columnAliases) == KeyTypes(d, Declared(d), d.columnAliases);
  }

  /**
   * Everything `prepare()` demands of a statement, stated declaratively: a
   * `\w+` name of at most `NameLength` characters, no identifier defined
   * twice, exactly one PRIMARY KEY, no default TTL with counters, valid
   * partition and clustering parts (declared, not multi-cell collections,
   * not counters, not static, not repeated, disjoint), the COMPACT STORAGE
   * rules, static columns only in non-compact tables with clustering
   * columns, and CLUSTERING ORDER on a prefix of the clustering columns.
   */
  ghost predicate Acceptable(d: RawDefinition) {
    && IsWordName(d.cfName)
    && |d.cfName| <= NameLength
    && (forall id :: id in d.definedNames ==> d.definedNames[id] <= 1)
    && |d.keyAliases| == 1
    && !(HasCounters(d.definitions) && d.defaultTimeToLive > 0)
    && ValidKeyParts(d, Declared(d), d.keyAliases[0])
    && ValidKeyParts(d, Declared(d) - Elems(d.keyAliases[0]), d.columnAliases)
    && (d.useCompactStorage ==> MultiCellCollections(d.definitions) == map[])
    && (d.useCompactStorage && |d.columnAliases| == 0 ==> Rest(d) != map[])
    && (d.useCompactStorage && |d.columnAliases| > 0 ==> |Rest(d)| <= 1)
    && (d.staticColumns != {} ==> !d.useCompactStorage && |d.columnAliases| > 0)
    && IsPrefix(d.orderingKeys, d.columnAliases)
  }

  /** `prepare()` accepts a statement exactly when it is `Acceptable`, whatever the hash order. */
  lemma ResolveAcceptsExactly(d: RawDefinition, order: seq<Ident>)
    requires Covers(order, d)
    ensures Resolve(d, order).Ok? <==> Acceptable(d)
  {
    OrderingCheckSpec(d);
    if Resolve(d, order).Ok? {
      ResolveUnfold(d, order);
      ResolveKeyStage(d, order);
      ResolveClusteringStage(d, order);
      ValueStageSpec(d, order, Rest(d));
      forall id | id in d.definedNames ensures d.definedNames[id] <= 1 {
        var j :| 0 <= j < |order| && order[j] == id;
      }
    }
    if Acceptable(d) {
      var ka := d.keyAliases[0];
      KeyLoopSpec(d, ka, 0, Declared(d), []);
      assert ka[0..] == ka;
      var afterKeys := Declared(d) - Elems(ka);
      ClusteringStageSpec(d, afterKeys, MultiCellCollections(d.definitions));
      ValueStageSpec(d, order, Rest(d));
    }
  }

  /**
   * The key validator of an accepted statement is the (possibly reversed)
   * declared type of its single partition key part, or the composite of the
   * parts' types in PRIMARY KEY order.
   */
  lemma ResolvePartitionKey(d: RawDefinition, order: seq<Ident>)
    requires Covers(order, d)
    requires Resolve(d, order).Ok?
    ensures |d.keyAliases| == 1
    ensures ValidKeyParts(d, Declared(d), d.keyAliases[0])
    ensures var p := Resolve(d, order).value;
            var ka := d.keyAliases[0];
            && p.keyAliases == ka
            && p.keyValidator == (if |ka| == 1 then KeyTypes(d, Declared(d), ka)[0]
                                  else CompositeType(KeyTypes(d, Declared(d), ka)))
    ensures forall j :: 0 <= j < |d.keyAliases[0]| ==>
              KeyTypes(d, Declared(d), d.keyAliases[0])[j] == DeclaredKeyType(d, d.keyAliases[0][j])
  {
    ResolveUnfold(d, order);
    ResolveKeyStage(d, order);
  }

  /**
   * The comparator of an accepted statement follows the decision table on
   * the clustering types; it has one clustering component per clustering
   * column, and it is dense exactly when the table is.
   */
  lemma ResolveComparator(d: RawDefinition, order: seq<Ident>)
    requires Covers(order, d)
    requires Resolve(d, order).Ok?
    ensures forall j :: 0 <= j < |d.columnAliases| ==> d.columnAliases[j] in Declared(d)
    ensures var p := Resolve(d, order).value;
            && p.comparator == ComparatorFor(KeyTypes(d, Declared(d), d.columnAliases), d.useCompactStorage,
                                             MultiCellCollections(d.definitions))
            && p.comparator.ClusteringPrefixSize() == |p.columnAliases|
            && p.isDense == p.comparator.IsDense()
            && (d.useCompactStorage ==> !p.comparator.CompoundSparseWithCollection?)
  {
    ResolveUnfold(d, order);
    ResolveKeyStage(d, order);
    ResolveClusteringStage(d, order);
  }

  /**
   * The value column of an accepted statement. With COMPACT STORAGE and
   * clustering columns the single column left is the value alias (the empty
   * alias when none is left) and no regular column remains; otherwise every
   * column left is a regular column, the alias is `null`, and the default
   * validator is `CounterColumnType` only for a counter first column.
   */
  lemma ResolveValue(d: RawDefinition, order: seq<Ident>)
    requires Covers(order, d)
    requires Resolve(d, order).Ok?
    ensures |d.keyAliases| == 1
    ensures var p := Resolve(d, order).value;
            if d.useCompactStorage && |d.columnAliases| > 0 then
              && |Rest(d)| <= 1
              && p.columns == map[]
              && (Rest(d) == map[] ==> p.defaultValidator == BytesType && p.valueAlias == Some(""))
              && (forall id :: id in Rest(d) ==> p.defaultValidator == Rest(d)[id] && p.valueAlias == Some(id))
            else
              && p.valueAlias == None
              && p.columns == Rest(d)
              && (p.defaultValidator == CounterColumnType || p.defaultValidator == BytesType)
              && (p.defaultValidator == CounterColumnType ==> exists id :: id in Rest(d) && Rest(d)[id] == CounterColumnType)
              && ((forall id :: id in Rest(d) ==> Rest(d)[id] != CounterColumnType) ==> p.defaultValidator == BytesType)
  {
    ResolveUnfold(d, order);
    ResolveKeyStage(d, order);
    ResolveClusteringStage(d, order);
    ValueStageSpec(d, order, Rest(d));
  }

  /**
   * The `COMPACT STORAGE with non-composite PRIMARY KEY` error is never
   * raised: the comparator step has already rejected a compact table without
   * clustering columns and without a column left.
   */
  lemma CompactNoColumnUnreachable(d: RawDefinition, order: seq<Ident>)
    requires Covers(order, d)
    ensures Resolve(d, order) != Err(CompactNoColumn)
  {
    if |d.keyAliases| == 1 {
      var kl := KeyLoop(d, d.keyAliases[0], 0, Declared(d), []);
      var colls := MultiCellCollections(d.definitions);
      if kl.Ok? && ClusteringStage(d, kl.value.1, colls).Ok? {
        var rest := ClusteringStage(d, kl.value.1, colls).value.1;
        assert forall id :: id in rest ==> id in order;
        if d.useCompactStorage && |d.columnAliases| == 0 {
          assert rest != map[];
        }
      }
    }
  }

  /**
   * The table name is checked first, then duplicate definitions (the one
   * reported is one that is defined more than once), then the number of
   * PRIMARY KEY clauses.
   */
  lemma ResolveCheckOrder(d: RawDefinition, order: seq<Ident>)
    requires Covers(order, d)
    ensures !IsWordName(d.cfName) ==> Resolve(d, order) == Err(InvalidTableName(d.cfName))
    ensures IsWordName(d.cfName) && |d.cfName| > NameLength ==>
              Resolve(d, order) == Err(TableNameTooLong(d.cfName))
    ensures IsWordName(d.cfName) && |d.cfName| <= NameLength
            && (exists id :: id in d.definedNames && d.definedNames[id] > 1) ==>
              && Resolve(d, order).Err?
              && Resolve(d, order).error.MultipleDefinition?
              && d.definedNames[Resolve(d, order).error.id] > 1
    ensures IsWordName(d.cfName) && |d.cfName| <= NameLength
            && (forall id :: id in d.definedNames ==> d.definedNames[id] <= 1) ==>
              && (|d.keyAliases| == 0 ==> Resolve(d, order) == Err(NoPrimaryKey))
              && (|d.keyAliases| > 1 ==> Resolve(d, order) == Err(MultiplePrimaryKeys))
  {
    if exists id :: id in d.definedNames && d.definedNames[id] > 1 {
      var id :| id in d.definedNames && d.definedNames[id] > 1;
      var j :| 0 <= j < |order| && order[j] == id;
      assert FirstDuplicate(order, d.definedNames, 0).Some?;
    }
  }

  /**
   * With CLUSTERING ORDER kept consistent with its key list (as the
   * statement's accumulators keep it), no partition key type of an accepted
   * statement is reversed: a partition key named in CLUSTERING ORDER is
   * rejected by the ordering check, after its type was wrapped.
   */
  lemma ResolvePartitionKeyNotReversed(d: RawDefinition, order: seq<Ident>)
    requires Covers(order, d)
    requires d.ordering.Keys == Elems(d.orderingKeys)
    requires Resolve(d, order).Ok?
    ensures |d.keyAliases| == 1
    ensures forall j :: 0 <= j < |d.keyAliases[0]| ==> d.keyAliases[0][j] in Declared(d)
    ensures forall j :: 0 <= j < |d.keyAliases[0]| ==>
              KeyTypes(d, Declared(d), d.keyAliases[0])[j] == Declared(d)[d.keyAliases[0][j]]
  {
    ResolveAcceptsExactly(d, order);
    ResolveKeyStage(d, order);
    var ka := d.keyAliases[0];
    var ca := d.columnAliases;
    assert Elems(d.orderingKeys) <= Elems(ca) by {
      forall k | 0 <= k < |d.orderingKeys| ensures d.orderingKeys[k] in Elems(ca) {
        assert d.orderingKeys[k] == ca[..|d.orderingKeys|][k];
      }
    }
    forall j | 0 <= j < |ka| ensures ka[j] !in d.ordering {
      assert ka[j] in Elems(ka);
      forall k | 0 <= k < |ca| ensures ca[k] != ka[j] {
        assert ca[k] in Declared(d) - Elems(ka);
      }
    }
  }

  /**
   * A counter column passes as a PRIMARY KEY part exactly when CLUSTERING
   * ORDER declares it DESC: `getTypeAndRemove` wraps it in `ReversedType`
   * before the `instanceof CounterColumnType` test. Through
   * `ResolveAcceptsExactly`, a table with a DESC counter clustering column is
   * accepted, and a partition key part so declared is rejected only by the
   * CLUSTERING ORDER check.
   */
  lemma CounterKeyPartOnlyWhenDescending(d: RawDefinition, columns: map<Ident, AbstractType>, id: Ident)
    requires id in columns && columns[id] == CounterColumnType && id !in d.staticColumns
    ensures KeyPartOk(d, columns, id) <==> id in d.ordering && d.ordering[id]
    ensures KeyPartOk(d, columns, id) ==> Oriented(columns[id], id, d.ordering) == ReversedType(CounterColumnType)
  {
  }
}
