/**
 * `KSMetaData`: a keyspace's definition as an immutable value. The table
 * map is built by folding over a list of table definitions, later ones
 * replacing earlier ones of the same name; adding or removing a table builds
 * a new value from the old one's tables.
 */
module KeyspaceMetadata {
  import opened Wrappers
  import opened Config

  /** The replication strategy classes of the `locator` package, and any other named class. */
  datatype Strategy =
    | SimpleStrategy
    | NetworkTopologyStrategy
    | OldNetworkTopologyStrategy
    | LocalStrategy
    | CustomStrategy(className: string)

  /** `UTMetaData`: the keyspace's user types, by name. */
  datatype UTMetaData = UTMetaData(typeNames: set<string>)

  /** `new UTMetaData()`. */
  const NoUserTypes := UTMetaData({})

  datatype ConfigurationException = ConfigurationException(message: string)

  const LocalStrategyReserved := "Unable to use given strategy class: LocalStrategy is reserved for internal use."

  datatype KSMetaData = KSMetaData(
    name: string,
    strategyClass: Strategy,
    strategyOptions: map<string, string>,
    cfMetaData: map<string, CFMetaData>,
    durableWrites: bool,
    userTypes: UTMetaData)

  /** Every table is filed under its own name. */
  predicate Keyed(tables: map<string, CFMetaData>) {
    forall n :: n in tables ==> tables[n].cfName == n
  }

  function TableNames(defs: seq<CFMetaData>): set<string> {
    set i | 0 <= i < |defs| :: defs[i].cfName
  }

  /** The loop of the private constructor (:65-67): each definition put under its name in turn. */
  function TableMap(defs: seq<CFMetaData>): (r: map<string, CFMetaData>)
    ensures r.Keys == TableNames(defs)
    ensures Keyed(r)
    decreases |defs|
  {
    if defs == [] then map[]
    else
      var init, last := defs[..|defs| - 1], defs[|defs| - 1];
      assert TableNames(defs) == TableNames(init) + {last.cfName} by {
        forall i | 0 <= i < |defs| - 1 ensures defs[i].cfName in TableNames(init) {
          assert defs[i] == init[i];
        }
      }
      TableMap(init)[last.cfName := last]
  }

  /** A definition that no later one of the same name follows is the one filed under that name. */
  lemma {:induction false} TableMapLaterWins(defs: seq<CFMetaData>, i: nat)
    requires i < |defs|
    requires forall j :: i < j < |defs| ==> defs[j].cfName != defs[i].cfName
    ensures TableMap(defs)[defs[i].cfName] == defs[i]
    decreases |defs|
  {
    if i < |defs| - 1 {
      var init := defs[..|defs| - 1];
      assert init[i] == defs[i];
      TableMapLaterWins(init, i);
    }
  }

  /** Folding definitions that agree with `tables` gives `tables` restricted to their names. */
  lemma {:induction false} TableMapOfEntries(defs: seq<CFMetaData>, tables: map<string, CFMetaData>)
    requires forall k :: 0 <= k < |defs| ==> defs[k].cfName in tables && tables[defs[k].cfName] == defs[k]
    ensures TableMap(defs) == map n | n in TableNames(defs) :: tables[n]
    decreases |defs|
  {
    if defs != [] {
      var init := defs[..|defs| - 1];
      assert forall k :: 0 <= k < |init| ==> init[k] == defs[k];
      TableMapOfEntries(init, tables);
    }
  }

  /**
   * The private constructor (:55-76): a `null` strategy class means
   * `NetworkTopologyStrategy`; the tables are filed by name.
   */
  function Make(name: string, strategyClass: Option<Strategy>, strategyOptions: map<string, string>,
                durableWrites: bool, cfDefs: seq<CFMetaData>, userTypes: UTMetaData): (r: KSMetaData)
    ensures r.strategyClass == if strategyClass.None? then NetworkTopologyStrategy else strategyClass.value
    ensures r.name == name && r.strategyOptions == strategyOptions
    ensures r.durableWrites == durableWrites && r.userTypes == userTypes
    ensures r.cfMetaData.Keys == TableNames(cfDefs) && Keyed(r.cfMetaData)
  {
    KSMetaData(name, if strategyClass.None? then NetworkTopologyStrategy else strategyClass.value,
               strategyOptions, TableMap(cfDefs), durableWrites, userTypes)
  }

  /** The public constructor without tables (:38-44). */
  function Create(name: string, strategyClass: Option<Strategy>, strategyOptions: map<string, string>,
                  durableWrites: bool): (r: KSMetaData)
    ensures r.cfMetaData == map[] && r.userTypes == NoUserTypes
    ensures r == Make(name, strategyClass, strategyOptions, durableWrites, [], NoUserTypes)
  {
    Make(name, strategyClass, strategyOptions, durableWrites, [], NoUserTypes)
  }

  /** The public constructor with tables (:46-53), and `newKeyspace` by class (:88-91). */
  function CreateWithTables(name: string, strategyClass: Option<Strategy>, strategyOptions: map<string, string>,
                            durableWrites: bool, cfDefs: seq<CFMetaData>): (r: KSMetaData)
    ensures r.userTypes == NoUserTypes
    ensures r == Make(name, strategyClass, strategyOptions, durableWrites, cfDefs, NoUserTypes)
  {
    Make(name, strategyClass, strategyOptions, durableWrites, cfDefs, NoUserTypes)
  }

  /**
   * `newKeyspace` by strategy name (:79-86), the name already resolved to
   * its class: `LocalStrategy` is refused, any other gives a keyspace
   * without tables.
   */
  function NewKeyspace(name: string, strategy: Strategy, options: map<string, string>, durableWrites: bool)
    : (r: Result<KSMetaData, ConfigurationException>)
    ensures r.Err? <==> strategy == LocalStrategy
    ensures r.Ok? ==> r.value == KSMetaData(name, strategy, options, map[], durableWrites, NoUserTypes)
  {
    if strategy == LocalStrategy then Err(ConfigurationException(LocalStrategyReserved))
    else Ok(CreateWithTables(name, Some(strategy), options, durableWrites, []))
  }

  /** `cloneWith` (:111-114): the same keyspace with other tables and user types. */
  function CloneWith(ks: KSMetaData, tables: seq<CFMetaData>, types: UTMetaData): (r: KSMetaData)
    ensures r == ks.(cfMetaData := TableMap(tables), userTypes := types)
  {
    Make(ks.name, Some(ks.strategyClass), ks.strategyOptions, ks.durableWrites, tables, types)
  }

  /** `testMetadata` (:116-119): a durable keyspace. */
  function TestMetadata(name: string, strategyClass: Option<Strategy>, strategyOptions: map<string, string>,
                        cfDefs: seq<CFMetaData>): (r: KSMetaData)
    ensures r.durableWrites
    ensures r == CreateWithTables(name, strategyClass, strategyOptions, true, cfDefs)
  {
    CreateWithTables(name, strategyClass, strategyOptions, true, cfDefs)
  }

  /** `testMetadataNotDurable` (:121-124): a keyspace without durable writes. */
  function TestMetadataNotDurable(name: string, strategyClass: Option<Strategy>, strategyOptions: map<string, string>,
                                  cfDefs: seq<CFMetaData>): (r: KSMetaData)
    ensures !r.durableWrites
    ensures r == CreateWithTables(name, strategyClass, strategyOptions, false, cfDefs)
  {
    CreateWithTables(name, strategyClass, strategyOptions, false, cfDefs)
  }

  /** No name is listed twice. */
  predicate Distinct(order: seq<string>) {
    forall j, k :: 0 <= j < k < |order| ==> order[j] != order[k]
  }

  /** `cfMetaData().values()`, in the iteration order `order` of the hash map's keys. */
  function ValuesIn(tables: map<string, CFMetaData>, order: seq<string>): (r: seq<CFMetaData>)
    requires Keyed(tables)
    ensures forall k :: 0 <= k < |r| ==> r[k].cfName in tables && tables[r[k].cfName] == r[k]
    ensures TableNames(r) == set n | n in tables && n in order
  {
    if order == [] then []
    else
      var rest := ValuesIn(tables, order[1..]);
      var head := if order[0] in tables then [tables[order[0]]] else [];
      assert TableNames(head) == if order[0] in tables then {order[0]} else {} by {
        if order[0] in tables { assert head[0].cfName in TableNames(head); }
      }
      TableNamesAppend(head, rest);
      assert (set n | n in tables && n in order)
             == (if order[0] in tables then {order[0]} else {}) + (set n | n in tables && n in order[1..]) by {
        assert order == [order[0]] + order[1..];
      }
      head + rest
  }

  lemma TableNamesAppend(a: seq<CFMetaData>, b: seq<CFMetaData>)
    ensures TableNames(a + b) == TableNames(a) + TableNames(b)
  {
    forall k | 0 <= k < |a + b| ensures (a + b)[k].cfName in TableNames(a) + TableNames(b) {
      if k < |a| {
        assert (a + b)[k] == a[k];
        assert a[k].cfName in TableNames(a);
      } else {
        assert (a + b)[k] == b[k - |a|];
        assert b[k - |a|].cfName in TableNames(b);
      }
    }
    forall k | 0 <= k < |a| ensures a[k].cfName in TableNames(a + b) {
      assert (a + b)[k] == a[k];
    }
    forall k | 0 <= k < |b| ensures b[k].cfName in TableNames(a + b) {
      assert (a + b)[k + |a|] == b[k];
    }
  }

  /** `List.remove(Object)`: drops the first element equal to `t`, if any. */
  function Remove(s: seq<CFMetaData>, t: CFMetaData): (r: seq<CFMetaData>)
    ensures multiset(r) == multiset(s) - multiset{t}
  {
    if s == [] then []
    else if s[0] == t then
      assert s == [s[0]] + s[1..];
      s[1..]
    else
      assert s == [s[0]] + s[1..];
      [s[0]] + Remove(s[1..], t)
  }

  /** No two tables in `s` share a name. */
  predicate DistinctNames(s: seq<CFMetaData>) {
    forall j, k :: 0 <= j < k < |s| ==> s[j].cfName != s[k].cfName
  }

  /** Over a duplicate-free order, the values have distinct names. */
  lemma {:induction false} ValuesInDistinct(tables: map<string, CFMetaData>, order: seq<string>)
    requires Keyed(tables) && Distinct(order)
    ensures DistinctNames(ValuesIn(tables, order))
    decreases |order|
  {
    if order != [] {
      var rest := ValuesIn(tables, order[1..]);
      ValuesInDistinct(tables, order[1..]);
      if order[0] in tables {
        var r := [tables[order[0]]] + rest;
        assert order[0] !in order[1..];
        forall k | 0 <= k < |rest| ensures rest[k].cfName != order[0] {
          assert rest[k].cfName in TableNames(rest);
        }
        forall j, k | 0 <= j < k < |r| ensures r[j].cfName != r[k].cfName {
          assert r[k] == rest[k - 1];
          if j > 0 { assert r[j] == rest[j - 1]; }
        }
      }
    }
  }

  /** The first of a list of tables followed by the rest. */
  lemma ConsNames(s: seq<CFMetaData>)
    requires s != []
    ensures TableNames(s) == {s[0].cfName} + TableNames(s[1..])
    ensures DistinctNames(s) ==> DistinctNames(s[1..]) && s[0].cfName !in TableNames(s[1..])
  {
    assert s == [s[0]] + s[1..];
    TableNamesAppend([s[0]], s[1..]);
    assert TableNames([s[0]]) == {s[0].cfName} by {
      assert [s[0]][0].cfName in TableNames([s[0]]);
    }
    if DistinctNames(s) {
      forall j, k | 0 <= j < k < |s[1..]| ensures s[1..][j].cfName != s[1..][k].cfName {
        assert s[1..][j] == s[j + 1] && s[1..][k] == s[k + 1];
      }
      forall k | 0 <= k < |s[1..]| ensures s[1..][k].cfName != s[0].cfName {
        assert s[1..][k] == s[k + 1];
      }
    }
  }

  /** Removing a present table from a list with distinct names removes exactly its name. */
  lemma {:induction false} RemoveNames(s: seq<CFMetaData>, t: CFMetaData)
    requires DistinctNames(s) && t in multiset(s)
    ensures TableNames(Remove(s, t)) == TableNames(s) - {t.cfName}
    decreases |s|
  {
    ConsNames(s);
    if s[0] != t {
      assert t in multiset(s[1..]) by {
        assert s == [s[0]] + s[1..];
      }
      assert t.cfName in TableNames(s[1..]) by {
        var k :| 0 <= k < |s[1..]| && s[1..][k] == t;
      }
      RemoveNames(s[1..], t);
      var tail := Remove(s[1..], t);
      assert Remove(s, t) == [s[0]] + tail;
      ConsNames([s[0]] + tail);
      assert ([s[0]] + tail)[1..] == tail;
    }
  }

  /** Removing `t` from the values lists exactly the other tables, each as filed. */
  lemma RemoveFromValues(tables: map<string, CFMetaData>, order: seq<string>, t: CFMetaData)
    requires Keyed(tables) && Distinct(order)
    requires t.cfName in tables && tables[t.cfName] == t && t.cfName in order
    ensures forall k :: 0 <= k < |Remove(ValuesIn(tables, order), t)| ==>
              var e := Remove(ValuesIn(tables, order), t)[k]; e.cfName in tables && tables[e.cfName] == e
    ensures TableNames(Remove(ValuesIn(tables, order), t)) == (set n | n in tables && n in order) - {t.cfName}
  {
    var values := ValuesIn(tables, order);
    var r := Remove(values, t);
    forall k | 0 <= k < |r| ensures r[k].cfName in tables && tables[r[k].cfName] == r[k] {
      assert r[k] in multiset(r);
      assert r[k] in multiset(values);
    }
    assert t.cfName in TableNames(values);
    var i :| 0 <= i < |values| && values[i].cfName == t.cfName;
    assert values[i] == t;
    assert t in multiset(values);
    ValuesInDistinct(tables, order);
    RemoveNames(values, t);
  }

  /** Removing an element that is not there changes nothing. */
  lemma {:induction false} RemoveAbsent(s: seq<CFMetaData>, t: CFMetaData)
    requires t !in multiset(s)
    ensures Remove(s, t) == s
    decreases |s|
  {
    if s != [] {
      assert s == [s[0]] + s[1..];
      assert t !in multiset(s[1..]);
      RemoveAbsent(s[1..], t);
    }
  }

  /**
   * `cloneWithTableRemoved` (:93-100): the table must be present, as the
   * source asserts; the result drops its entry and keeps everything else.
   * `order` is the iteration order of the table map.
   */
  function CloneWithTableRemoved(ks: KSMetaData, t: CFMetaData, order: seq<string>): (r: KSMetaData)
    requires Keyed(ks.cfMetaData)
    requires Distinct(order) && forall n :: n in ks.cfMetaData ==> n in order
    requires t.cfName in ks.cfMetaData && ks.cfMetaData[t.cfName] == t
    ensures r == ks.(cfMetaData := ks.cfMetaData - {t.cfName})
  {
    var newTables := Remove(ValuesIn(ks.cfMetaData, order), t);
    RemoveFromValues(ks.cfMetaData, order, t);
    TableMapOfEntries(newTables, ks.cfMetaData);
    CloneWith(ks, newTables, ks.userTypes)
  }

  /**
   * `cloneWithTableAdded` (:102-109): the result files `t` under its name,
   * replacing any table of that name, and keeps everything else.
   */
  function CloneWithTableAdded(ks: KSMetaData, t: CFMetaData, order: seq<string>): (r: KSMetaData)
    requires Keyed(ks.cfMetaData)
    requires forall n :: n in ks.cfMetaData ==> n in order
    ensures r == ks.(cfMetaData := ks.cfMetaData[t.cfName := t])
  {
    var values := ValuesIn(ks.cfMetaData, order);
    var newTables := values + [t];
    assert newTables[..|newTables| - 1] == values;
    TableMapOfEntries(values, ks.cfMetaData);
    CloneWith(ks, newTables, ks.userTypes)
  }

  /**
   * `equals` (:133-149): `None` stands for `null` or an object of another
   * class; otherwise the six fields are compared.
   */
  function Equals(ks: KSMetaData, o: Option<KSMetaData>): (r: bool)
    ensures r <==> o == Some(ks)
  {
    match o
    case None => false
    case Some(other) =>
      && ks.name == other.name
      && ks.strategyClass == other.strategyClass
      && ks.strategyOptions == other.strategyOptions
      && ks.cfMetaData == other.cfMetaData
      && ks.durableWrites == other.durableWrites
      && ks.userTypes == other.userTypes
  }

  /** Removing a table just added restores the keyspace when no table of that name was there. */
  lemma AddThenRemove(ks: KSMetaData, t: CFMetaData, order: seq<string>)
    requires Keyed(ks.cfMetaData) && t.cfName !in ks.cfMetaData
    requires Distinct(order) && t.cfName in order && forall n :: n in ks.cfMetaData ==> n in order
    ensures CloneWithTableRemoved(CloneWithTableAdded(ks, t, order), t, order) == ks
  {
    var added := CloneWithTableAdded(ks, t, order);
    assert added.cfMetaData - {t.cfName} == ks.cfMetaData;
  }
}
