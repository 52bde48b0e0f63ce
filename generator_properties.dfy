/**
 * What the generated statements and parameter maps are: the columns and
 * bindings of an INSERT, the bindings of a filter condition, the shapes of
 * SELECT and DELETE statements, and two worked examples.
 */
module GeneratorProperties {
  import opened Wrappers
  import opened PropertyMappings
  import opened Queries
  import opened BoundParameters
  import opened SqliteStatementGenerator

  /** One more mapping: an autogenerated one changes nothing, any other
      appends its field, a fresh key and that key's binding. */
  lemma BindColumnsStep<V>(ms: seq<PropertyMapping>, instance: map<string, V>, p: Parameters<V>)
    requires forall m :: m in ms && !m.isAutogenerated ==> m.classPropertyName in instance
    requires ms != []
    ensures var n := |ms| - 1;
            var c0 := BindColumns(ms[..n], instance, p);
            var c := BindColumns(ms, instance, p);
            && PersistedIndices(ms) == PersistedIndices(ms[..n]) + (if ms[n].isAutogenerated then [] else [n])
            && (ms[n].isAutogenerated ==> c == c0)
            && (!ms[n].isAutogenerated ==>
                  var key := FreshKey(c0.params, ms[n].tableFieldName);
                  && c.fields == c0.fields + [ms[n].tableFieldName]
                  && c.keys == c0.keys + [key]
                  && c.params == c0.params[key := instance[ms[n].classPropertyName]])
  {
  }

  /** The insert loop lists the table field names of exactly the
      non-autogenerated mappings, in declaration order. */
  lemma {:induction false} BindColumnsFields<V>(ms: seq<PropertyMapping>, instance: map<string, V>, p: Parameters<V>)
    requires forall m :: m in ms && !m.isAutogenerated ==> m.classPropertyName in instance
    ensures var c := BindColumns(ms, instance, p);
            var idx := PersistedIndices(ms);
            forall k :: 0 <= k < |idx| ==> c.fields[k] == ms[idx[k]].tableFieldName
    decreases |ms|
  {
    if ms != [] {
      var n := |ms| - 1;
      assert forall m :: m in ms[..n] ==> m in ms;
      BindColumnsFields(ms[..n], instance, p);
      BindColumnsStep(ms, instance, p);
      var c0, c := BindColumns(ms[..n], instance, p), BindColumns(ms, instance, p);
      var idx0, idx := PersistedIndices(ms[..n]), PersistedIndices(ms);
      forall k | 0 <= k < |idx|
        ensures c.fields[k] == ms[idx[k]].tableFieldName
      {
        if k < |idx0| {
          assert idx[k] == idx0[k] && c.fields[k] == c0.fields[k];
          assert ms[idx0[k]] == ms[..n][idx0[k]];
        }
      }
    }
  }

  /** Its keys are distinct and fresh, and they are all the map gains. */
  lemma {:induction false} BindColumnsKeys<V>(ms: seq<PropertyMapping>, instance: map<string, V>, p: Parameters<V>)
    requires forall m :: m in ms && !m.isAutogenerated ==> m.classPropertyName in instance
    ensures var c := BindColumns(ms, instance, p);
            && FreshIn(c.keys, p, c.params)
            && (forall key :: key in c.params ==> key in p || key in c.keys)
    decreases |ms|
  {
    if ms != [] {
      var n := |ms| - 1;
      assert forall m :: m in ms[..n] ==> m in ms;
      BindColumnsKeys(ms[..n], instance, p);
      BindColumnsStep(ms, instance, p);
      var c0 := BindColumns(ms[..n], instance, p);
      if !ms[n].isAutogenerated {
        var key := FreshKey(c0.params, ms[n].tableFieldName);
        var c := BindColumns(ms, instance, p);
        assert FreshIn([key], c0.params, c.params);
        FreshInAppend(c0.keys, [key], p, c0.params, c.params);
      }
    }
  }

  /** Each key is bound to the instance's value of its mapping's property. */
  lemma {:induction false} BindColumnsValues<V>(ms: seq<PropertyMapping>, instance: map<string, V>, p: Parameters<V>)
    requires forall m :: m in ms && !m.isAutogenerated ==> m.classPropertyName in instance
    ensures var c := BindColumns(ms, instance, p);
            var idx := PersistedIndices(ms);
            forall k :: 0 <= k < |idx| ==>
              && c.keys[k] in c.params
              && ms[idx[k]].classPropertyName in instance
              && c.params[c.keys[k]] == instance[ms[idx[k]].classPropertyName]
    decreases |ms|
  {
    if ms != [] {
      var n := |ms| - 1;
      assert forall m :: m in ms[..n] ==> m in ms;
      BindColumnsValues(ms[..n], instance, p);
      BindColumnsKeys(ms[..n], instance, p);
      BindColumnsStep(ms, instance, p);
      var c0, c := BindColumns(ms[..n], instance, p), BindColumns(ms, instance, p);
      var idx0, idx := PersistedIndices(ms[..n]), PersistedIndices(ms);
      forall k | 0 <= k < |idx|
        ensures c.keys[k] in c.params
        ensures ms[idx[k]].classPropertyName in instance
        ensures c.params[c.keys[k]] == instance[ms[idx[k]].classPropertyName]
      {
        if k < |idx0| {
          assert idx[k] == idx0[k] && c.keys[k] == c0.keys[k];
          assert ms[idx0[k]] == ms[..n][idx0[k]];
          assert c0.keys[k] in c0.params;
        } else {
          assert ms[n] in ms;
        }
      }
    }
  }

  /** Transient mappings are inserted like any other: only autogenerated
      ones are skipped. */
  lemma TransientMappingIsInserted<V>(md: Metadata, instance: map<string, V>, p: Parameters<V>, j: nat)
    requires SuppliesValues(md, instance)
    requires j < |md.propertyMappings| && md.propertyMappings[j].isTransient && !md.propertyMappings[j].isAutogenerated
    ensures md.propertyMappings[j].tableFieldName in BindColumns(md.propertyMappings, instance, p).fields
  {
    var ms := md.propertyMappings;
    BindColumnsFields(ms, instance, p);
    PersistedIndicesComplete(ms, j);
    var idx := PersistedIndices(ms);
    var k :| 0 <= k < |idx| && idx[k] == j;
    assert BindColumns(ms, instance, p).fields[k] == ms[j].tableFieldName;
  }

  /** The keys generateCondition binds for e, left to right. */
  ghost function BoundKeys<V>(e: FilterExpression<V>, p: Parameters<V>): seq<string>
    requires IsResolved(e)
    decreases e
  {
    match e
    case TerminalExpression(t) => [FreshKey(p, t.property.mapping.tableFieldName)]
    case BinaryExpression(b) => BoundKeys(b.lhs, p) + BoundKeys(b.rhs, Condition(b.lhs, p).params)
    case UnaryExpression(u) => BoundKeys(u.rhs, p)
  }

  /** One fresh key per terminal predicate, all distinct. */
  lemma {:induction false} ConditionKeysAreFresh<V>(e: FilterExpression<V>, p: Parameters<V>)
    requires IsResolved(e)
    ensures |BoundKeys(e, p)| == TerminalCount(e)
    ensures FreshIn(BoundKeys(e, p), p, Condition(e, p).params)
    decreases e
  {
    match e
    case TerminalExpression(t) =>
      assert Condition(e, p) == TerminalCondition(t, p);
    case BinaryExpression(b) =>
      var l := Condition(b.lhs, p);
      ConditionKeysAreFresh(b.lhs, p);
      ConditionKeysAreFresh(b.rhs, l.params);
      assert Condition(e, p) == BinaryCondition(b, p);
      FreshInAppend(BoundKeys(b.lhs, p), BoundKeys(b.rhs, l.params), p, l.params, Condition(e, p).params);
    case UnaryExpression(u) =>
      ConditionKeysAreFresh(u.rhs, p);
      assert Condition(e, p) == UnaryCondition(u, p);
  }

  /** The map after the condition is the map before with the terminals'
      values bound under those keys, left operand first. */
  lemma {:induction false} ConditionBindings<V>(e: FilterExpression<V>, p: Parameters<V>)
    requires IsResolved(e)
    ensures |BoundKeys(e, p)| == TerminalCount(e)
    ensures Condition(e, p).params == BindAll(p, BoundKeys(e, p), TerminalValues(e))
    decreases e
  {
    ConditionKeysAreFresh(e, p);
    match e
    case TerminalExpression(t) =>
      var key := FreshKey(p, t.property.mapping.tableFieldName);
      assert Condition(e, p) == TerminalCondition(t, p);
      assert BindAll(p, [key], [t.value]) == BindAll(p[key := t.value], [], []);
    case BinaryExpression(b) =>
      var l := Condition(b.lhs, p);
      ConditionBindings(b.lhs, p);
      ConditionBindings(b.rhs, l.params);
      ConditionKeysAreFresh(b.rhs, l.params);
      assert Condition(e, p) == BinaryCondition(b, p);
      BindAllAppend(p, BoundKeys(b.lhs, p), TerminalValues(b.lhs), BoundKeys(b.rhs, l.params), TerminalValues(b.rhs));
    case UnaryExpression(u) =>
      ConditionBindings(u.rhs, p);
      assert Condition(e, p) == UnaryCondition(u, p);
  }

  /** Hence the i-th terminal's value is found under the i-th bound key. */
  lemma ConditionBindsEachTerminal<V>(e: FilterExpression<V>, p: Parameters<V>, i: nat)
    requires IsResolved(e) && i < TerminalCount(e)
    ensures i < |BoundKeys(e, p)|
    ensures BoundKeys(e, p)[i] !in p
    ensures BoundKeys(e, p)[i] in Condition(e, p).params
      && Condition(e, p).params[BoundKeys(e, p)[i]] == TerminalValues(e)[i]
  {
    ConditionKeysAreFresh(e, p);
    ConditionBindings(e, p);
    BindAllLookup(p, BoundKeys(e, p), TerminalValues(e), i);
  }

  /** A read without a filter renders as "SELECT * " and its FROM clause,
      and binds only what its relation binds. */
  lemma SelectWithoutFilter<V>(q: Query<V>, p: Parameters<V>)
    requires q.operation == Read && IsWellFormed(q) && q.filter.None?
    ensures var from := FromClause(q.relation, p);
            SelectStatement(q, p) == Rendered("SELECT * " + from.text, from.params)
  {
    var from := FromClause(q.relation, p);
    JoinTwo("SELECT *", from.text, ' ');
    assert "SELECT *" + [' '] == "SELECT * ";
  }

  /** A read with a filter adds a space and the filter's WHERE clause,
      which binds into the map the FROM clause left. */
  lemma SelectWithFilter<V>(q: Query<V>, p: Parameters<V>)
    requires q.operation == Read && IsWellFormed(q) && q.filter.Some?
    ensures var from := FromClause(q.relation, p);
            var where := WhereClause(q.filter.value, from.params);
            SelectStatement(q, p) == Rendered("SELECT * " + from.text + " " + where.text, where.params)
  {
    var from := FromClause(q.relation, p);
    var where := WhereClause(q.filter.value, from.params);
    assert ["SELECT *", from.text] + [where.text] == ["SELECT *", from.text, where.text];
    JoinThree("SELECT *", from.text, where.text, ' ');
    assert "SELECT *" + [' '] == "SELECT * ";
  }

  /** With an expression filter the read ends in "WHERE <condition>", the
      condition binding into the map the FROM clause left. */
  lemma SelectWithExpressionFilter<V>(q: Query<V>, p: Parameters<V>)
    requires q.operation == Read && IsWellFormed(q)
    requires q.filter.Some? && q.filter.value.ExpressionFilter?
    ensures var from := FromClause(q.relation, p);
            var c := Condition(q.filter.value.expression, from.params);
            SelectStatement(q, p) == Rendered("SELECT * " + from.text + " WHERE " + c.text, c.params)
  {
    SelectWithFilter(q, p);
    var from := FromClause(q.relation, p);
    var c := Condition(q.filter.value.expression, from.params);
    assert WhereClause(q.filter.value, from.params).text == "WHERE " + c.text;
  }

  /** The parameters of a sub-select and of the outer filter share one map:
      the outer filter's keys are fresh with respect to everything the
      sub-select (the FROM clause) bound, and the sub-select's bindings
      survive unchanged. */
  lemma SubSelectAndOuterFilterShareMap<V>(q: Query<V>, p: Parameters<V>)
    requires q.operation == Read && IsWellFormed(q)
    requires q.relation.QueryRelation? && q.filter.Some? && q.filter.value.ExpressionFilter?
    ensures var inner := FromClause(q.relation, p);
            var e := q.filter.value.expression;
            var r := SelectStatement(q, p);
            && Extends(p, inner.params)
            && Extends(inner.params, r.params)
            && FreshIn(BoundKeys(e, inner.params), inner.params, r.params)
            && |r.params| == |inner.params| + TerminalCount(e)
  {
    var inner := FromClause(q.relation, p);
    var e := q.filter.value.expression;
    SelectWithExpressionFilter(q, p);
    ConditionKeysAreFresh(e, inner.params);
  }

  /** A delete renders as "DELETE FROM <table> " followed by the WHERE
      clause. */
  lemma DeleteShape<V>(q: Query<V>, p: Parameters<V>)
    requires q.operation == Delete && IsWellFormed(q)
    ensures var where := WhereClause(q.filter.value, p);
            Generate(q, p) == Ok(Rendered("DELETE FROM " + q.relation.mapping.tableName + " " + where.text, where.params))
  {
    var md := q.relation.mapping;
    var where := WhereClause(q.filter.value, p);
    assert FromClause(MappingRelation(md), p) == Rendered("FROM " + md.tableName, p);
    JoinThree("DELETE", "FROM " + md.tableName, where.text, ' ');
    assert "DELETE" + [' '] + ("FROM " + md.tableName) == "DELETE FROM " + md.tableName;
    assert Generate(q, p) == Ok(DeleteStatement(md, q.filter.value, p));
  }

  /** With an expression filter, which is the case the source intends,
      the delete is restricted by "WHERE <condition>" and binds one
      parameter per terminal predicate. */
  lemma DeleteWithExpressionFilter<V>(q: Query<V>, p: Parameters<V>)
    requires q.operation == Delete && IsWellFormed(q) && q.filter.value.ExpressionFilter?
    ensures var c := Condition(q.filter.value.expression, p);
            && Generate(q, p) == Ok(Rendered("DELETE FROM " + q.relation.mapping.tableName + " WHERE " + c.text, c.params))
            && |c.params| == |p| + TerminalCount(q.filter.value.expression) > |p|
  {
    DeleteShape(q, p);
    var c := Condition(q.filter.value.expression, p);
    var prefix := "DELETE FROM " + q.relation.mapping.tableName;
    assert WhereClause(q.filter.value, p).text == "WHERE " + c.text;
    assert prefix + " " + ("WHERE " + c.text) == prefix + " WHERE " + c.text;
  }

  /** A delete whose filter is not an expression gets an empty WHERE clause:
      the statement deletes every row of the table and binds nothing. */
  lemma DeleteWithOtherFilterIsUnconditional<V>(md: Metadata, p: Parameters<V>)
    ensures Generate(Query(Delete, MappingRelation(md), Some(OtherFilter), None), p)
         == Ok(Rendered("DELETE FROM " + md.tableName + " ", p))
  {
    var q: Query<V> := Query(Delete, MappingRelation(md), Some(OtherFilter), None);
    DeleteShape(q, p);
    assert WhereClause(OtherFilter, p) == Rendered("", p);
    assert "DELETE FROM " + md.tableName + " " + "" == "DELETE FROM " + md.tableName + " ";
  }

  /** The table fields of the non-autogenerated mappings, in declaration
      order: the columns an INSERT over ms should name. */
  function FieldNames(ms: seq<PropertyMapping>): seq<string> {
    var idx := PersistedIndices(ms);
    seq(|idx|, k requires 0 <= k < |idx| => ms[idx[k]].tableFieldName)
  }

  /** A create renders as INSERT INTO <table>(<fields>) VALUES(<keys>), its
      field list being the table fields of exactly the non-autogenerated
      mappings in declaration order, with one key per field. */
  lemma CreateShape<V>(q: Query<V>, p: Parameters<V>)
    requires q.operation == Create && IsWellFormed(q)
    ensures var md := q.relation.mapping;
            var c := BindColumns(md.propertyMappings, q.entityInstance.value, p);
            && Generate(q, p) == Ok(Rendered("INSERT INTO " + md.tableName + "(" + Join(FieldNames(md.propertyMappings), ',') + ") VALUES(" + Join(c.keys, ',') + ")", c.params))
            && |c.keys| == |PersistedIndices(md.propertyMappings)|
  {
    FieldsAreFieldNames(q.relation.mapping.propertyMappings, q.entityInstance.value, p);
  }

  /** The insert loop's field list is FieldNames of its mappings. */
  lemma FieldsAreFieldNames<V>(ms: seq<PropertyMapping>, instance: map<string, V>, p: Parameters<V>)
    requires forall m :: m in ms && !m.isAutogenerated ==> m.classPropertyName in instance
    ensures BindColumns(ms, instance, p).fields == FieldNames(ms)
  {
    var c := BindColumns(ms, instance, p);
    var idx := PersistedIndices(ms);
    BindColumnsFields(ms, instance, p);
    var names := FieldNames(ms);
    assert |c.fields| == |names|;
    forall k | 0 <= k < |idx|
      ensures c.fields[k] == names[k]
    {
      assert c.fields[k] == ms[idx[k]].tableFieldName;
    }
  }

  /** "name = a AND name = b" over a mapping whose field is "name". */
  function SameFieldFilter<V>(name: PropertyMapping, a: V, b: V): (e: FilterExpression<V>)
    ensures IsResolved(e) && TerminalCount(e) == 2
  {
    var lhs := TerminalExpression(TerminalPredicate(Resolved(name), Equal, a));
    var rhs := TerminalExpression(TerminalPredicate(Resolved(name), Equal, b));
    assert IsResolved(lhs) && IsResolved(rhs);
    BinaryExpression(BinaryPredicate(lhs, And, rhs))
  }

  /** A comparison renders as its table field first and its bound key last,
      so the placeholder in the text is exactly the key in the map. */
  lemma TerminalConditionShape<V>(t: TerminalPredicate<V>, p: Parameters<V>)
    requires t.property.Resolved?
    ensures var r := TerminalCondition(t, p);
            var field := t.property.mapping.tableFieldName;
            var key := FreshKey(p, field);
            && key in r.params && r.params[key] == t.value
            && |field| + |key| < |r.text|
            && r.text[..|field|] == field
            && r.text[|r.text| - |key|..] == key
  {
    var field := t.property.mapping.tableFieldName;
    var key := FreshKey(p, field);
    var text := field + " " + ComparisonOperator(t.comparison) + " " + key;
    assert TerminalCondition(t, p).text == text;
    assert text[..|field|] == field;
    assert text[|text| - |key|..] == key;
  }

  /** The first key picked for "name" in an empty map is ":name". */
  lemma FirstKeyForName<V>()
    ensures FreshKey<V>(map[], "name") == ":name"
  {
    assert ":" + "name" == ":name";
  }

  /** The second key picked for "name" is ":name0". */
  lemma SecondKeyForName<V>(a: V)
    ensures FreshKey(map[":name" := a], "name") == ":name0"
  {
    var p1: Parameters<V> := map[":name" := a];
    assert ":" + "name" == ":name";
    assert DecimalString(0) == "0";
    assert Candidate("name", 0) in p1;
    assert ":" + "name" + "0" == ":name0";
    assert Candidate("name", 1) == ":name0";
    FirstFreeIsFreshKey(p1, "name", 1);
  }

  /** An equality on field "name" renders as "name = <key>". */
  lemma NameEquals<V>(name: PropertyMapping, v: V, p: Parameters<V>, key: string)
    requires name.tableFieldName == "name" && FreshKey(p, "name") == key
    ensures TerminalCondition(TerminalPredicate(Resolved(name), Equal, v), p) == Rendered("name = " + key, p[key := v])
  {
    assert ComparisonOperator(Equal) == "=";
    NameEqualsText(key);
  }

  lemma NameEqualsText(key: string)
    ensures "name" + " " + "=" + " " + key == "name = " + key
  {
    assert "name" + " " + "=" + " " == "name = ";
  }

  /** Two comparisons on the same field bind two distinct keys, ":name" and
      ":name0", each to its own value. */
  lemma SameFieldTwice<V>(name: PropertyMapping, a: V, b: V)
    requires name.tableFieldName == "name"
    ensures Condition(SameFieldFilter(name, a, b), map[])
         == Rendered("(name = :name) AND (name = :name0)", map[":name" := a, ":name0" := b])
  {
    var lhs := TerminalPredicate(Resolved(name), Equal, a);
    var rhs := TerminalPredicate(Resolved(name), Equal, b);
    var empty: Parameters<V> := map[];
    FirstKeyForName<V>();
    NameEquals(name, a, empty, ":name");
    SecondKeyForName(a);
    NameEquals(name, b, map[":name" := a], ":name0");
    var e1, e2 := TerminalExpression(lhs), TerminalExpression(rhs);
    assert Condition(e1, empty) == Rendered("name = :name", map[":name" := a]);
    assert Condition(e2, map[":name" := a]) == Rendered("name = :name0", map[":name" := a, ":name0" := b]);
    assert SameFieldFilter(name, a, b) == BinaryExpression(BinaryPredicate(e1, And, e2));
    BinaryText();
  }

  lemma BinaryText()
    ensures "(" + "name = :name" + ") " + "AND" + " (" + "name = :name0" + ")" == "(name = :name) AND (name = :name0)"
  {
  }

  /** A province with an autogenerated id and a name. */
  function ProvinceMetadata(): (md: Metadata)
    ensures |md.propertyMappings| == 2
  {
    Metadata("Province", "Province", [
      PropertyMapping("Province", "id", "id", true, true, 2, None, false),
      PropertyMapping("Province", "name", "name", false, false, 10, None, false)])
  }

  /** The insert loop over a province skips the id and binds the name. */
  lemma ProvinceColumns<V>(name: V)
    ensures BindColumns(ProvinceMetadata().propertyMappings, map["name" := name], map[])
         == Columns(["name"], [":name"], map[":name" := name])
  {
    var ms := ProvinceMetadata().propertyMappings;
    var instance := map["name" := name];
    var empty: Parameters<V> := map[];
    assert ms[..1][..0] == [];
    assert BindColumns(ms[..1], instance, empty) == Columns([], [], empty);
    FirstKeyForName<V>();
    assert ms[..|ms| - 1] == ms[..1];
  }

  lemma ProvinceText()
    ensures InsertText("Province", ["name"], [":name"]) == "INSERT INTO Province(name) VALUES(:name)"
  {
    assert Join(["name"], ',') == "name" && Join([":name"], ',') == ":name";
  }

  /** Inserting a province writes only its name. */
  lemma ProvinceInsert<V>(name: V)
    ensures GenerateStatement(Query(Create, MappingRelation(ProvinceMetadata()), None, Some(map["name" := name])))
         == Ok(Rendered("INSERT INTO Province(name) VALUES(:name)", map[":name" := name]))
  {
    var md := ProvinceMetadata();
    var instance := map["name" := name];
    var empty: Parameters<V> := map[];
    ProvinceColumns(name);
    ProvinceText();
    assert InsertStatement(md, instance, empty) == Rendered("INSERT INTO Province(name) VALUES(:name)", map[":name" := name]);
  }
}
