/**
 * QOrmSqliteStatementGenerator: lowers a query description to SQLite
 * statement text and the map of parameters bound in it.
 *
 * The source threads one mutable map through the whole recursion by
 * reference; here every generating function takes the map as it stands
 * and returns the rendered text together with the map as it is afterwards.
 */
module SqliteStatementGenerator {
  import opened Wrappers
  import opened PropertyMappings
  import opened Queries
  import opened BoundParameters

  /** Statement (or clause) text and the parameter map after generating it. */
  datatype Rendered<V> = Rendered(text: string, params: Parameters<V>)

  datatype GenerationError = UpdateNotImplemented

  /** The combined length of the strings in parts. */
  function TotalLength(parts: seq<string>): nat
    decreases |parts|
  {
    if parts == [] then 0 else |parts[0]| + TotalLength(parts[1..])
  }

  /** QStringList::join: the parts in order with one separator between
      each neighbouring pair. */
  function Join(parts: seq<string>, separator: char): string
    decreases |parts|
  {
    if |parts| == 0 then ""
    else if |parts| == 1 then parts[0]
    else parts[0] + [separator] + Join(parts[1..], separator)
  }

  /** The joined text begins with the first part and is as long as all
      parts together plus one separator per neighbouring pair. */
  lemma {:induction false} JoinShape(parts: seq<string>, separator: char)
    ensures parts == [] ==> Join(parts, separator) == []
    ensures |parts| == 1 ==> Join(parts, separator) == parts[0]
    ensures parts != [] ==> |Join(parts, separator)| == TotalLength(parts) + |parts| - 1
    ensures parts != [] ==> Join(parts, separator)[..|parts[0]|] == parts[0]
    decreases |parts|
  {
    if 1 < |parts| {
      JoinShape(parts[1..], separator);
    }
  }

  /** Appending a part appends one separator and that part, as the insert
      loop's push_back followed by join does. */
  lemma {:induction false} JoinSnoc(parts: seq<string>, x: string, separator: char)
    requires parts != []
    ensures Join(parts + [x], separator) == Join(parts, separator) + [separator] + x
    decreases |parts|
  {
    if |parts| == 1 {
      assert parts + [x] == [parts[0], x];
      JoinTwo(parts[0], x, separator);
    } else {
      assert (parts + [x])[1..] == parts[1..] + [x];
      JoinSnoc(parts[1..], x, separator);
    }
  }

  lemma JoinTwo(a: string, b: string, separator: char)
    ensures Join([a, b], separator) == a + [separator] + b
  {
    assert [a, b][1..] == [b];
  }

  lemma JoinThree(a: string, b: string, c: string, separator: char)
    ensures Join([a, b, c], separator) == a + [separator] + b + [separator] + c
  {
    assert [a, b, c][1..] == [b, c];
    JoinTwo(b, c, separator);
  }

  /** The generator's table of SQL comparison operators. */
  function ComparisonOperator(c: Comparison): (op: string)
    ensures op in ["<", "=", ">", "<>", "<=", ">="]
    ensures c == Equal <==> op == "="
  {
    match c
    case Less => "<"
    case Equal => "="
    case Greater => ">"
    case NotEqual => "<>"
    case LessOrEqual => "<="
    case GreaterOrEqual => ">="
  }

  function LogicalOperator(op: BinaryLogicalOperator): (s: string)
    ensures s == "AND" || s == "OR"
    ensures s == "AND" <==> op == And
  {
    match op
    case Or => "OR"
    case And => "AND"
  }

  /** generateCondition for an expression: dispatch on the node type. */
  function Condition<V>(e: FilterExpression<V>, p: Parameters<V>): (r: Rendered<V>)
    requires IsResolved(e)
    ensures r.text != []
    ensures Extends(p, r.params) && |r.params| == |p| + TerminalCount(e)
    decreases e, 1
  {
    match e
    case TerminalExpression(t) => TerminalCondition(t, p)
    case BinaryExpression(b) => BinaryCondition(b, p)
    case UnaryExpression(u) => UnaryCondition(u, p)
  }

  /** generateCondition for a terminal predicate: "<field> <op> <key>",
      binding the compared value under a fresh key derived from the field. */
  function TerminalCondition<V>(t: TerminalPredicate<V>, p: Parameters<V>): (r: Rendered<V>)
    requires t.property.Resolved?
    ensures Extends(p, r.params) && |r.params| == |p| + 1
    ensures var key := FreshKey(p, t.property.mapping.tableFieldName);
            key !in p && r.params == p[key := t.value]
    decreases t, 0
  {
    var field := t.property.mapping.tableFieldName;
    var key := FreshKey(p, field);
    Rendered(field + " " + ComparisonOperator(t.comparison) + " " + key, Insert(p, field, t.value))
  }

  /** generateCondition for AND/OR: "(<lhs>) AND|OR (<rhs>)"; the left
      operand binds its parameters first. */
  function BinaryCondition<V>(b: BinaryPredicate<V>, p: Parameters<V>): (r: Rendered<V>)
    requires IsResolved(b.lhs) && IsResolved(b.rhs)
    ensures Extends(p, r.params) && |r.params| == |p| + TerminalCount(b.lhs) + TerminalCount(b.rhs)
    decreases b, 0
  {
    var lhs := Condition(b.lhs, p);
    var rhs := Condition(b.rhs, lhs.params);
    Rendered("(" + lhs.text + ") " + LogicalOperator(b.logicalOperator) + " (" + rhs.text + ")", rhs.params)
  }

  /** generateCondition for NOT: "NOT (<rhs>)". */
  function UnaryCondition<V>(u: UnaryPredicate<V>, p: Parameters<V>): (r: Rendered<V>)
    requires IsResolved(u.rhs)
    ensures Extends(p, r.params) && |r.params| == |p| + TerminalCount(u.rhs)
    decreases u, 0
  {
    var rhs := Condition(u.rhs, p);
    Rendered("NOT (" + rhs.text + ")", rhs.params)
  }

  /** generateWhereClause: "WHERE <condition>" for an expression filter,
      and nothing for a filter of any other type. */
  function WhereClause<V>(f: Filter<V>, p: Parameters<V>): (r: Rendered<V>)
    requires FilterIsResolved(f)
    ensures r.text != [] <==> f.ExpressionFilter?
    ensures f.ExpressionFilter? ==> 6 < |r.text| && r.text[..6] == "WHERE "
    ensures Extends(p, r.params) && |r.params| == |p| + FilterParameterCount(f)
  {
    match f
    case ExpressionFilter(e) =>
      var c := Condition(e, p);
      if c.text == [] then Rendered("", c.params) else Rendered("WHERE " + c.text, c.params)
    case OtherFilter => Rendered("", p)
  }

  /** The two-argument generate: dispatch on the operation. */
  function Generate<V>(q: Query<V>, p: Parameters<V>): (r: Result<Rendered<V>, GenerationError>)
    requires IsWellFormed(q)
    ensures r.Ok? <==> q.operation != Update
    ensures r.Ok? ==> Extends(p, r.value.params) && |r.value.params| == |p| + ParameterCount(q)
    decreases RelationDepth(q.relation), 3
  {
    match q.operation
    case Create => Ok(InsertStatement(q.relation.mapping, q.entityInstance.value, p))
    case Update => Err(UpdateNotImplemented)
    case Read => Ok(SelectStatement(q, p))
    case Delete => Ok(DeleteStatement(q.relation.mapping, q.filter.value, p))
  }

  /** generateSelectStatement: "SELECT *", the FROM clause and, when the
      query has a filter, the WHERE clause, joined by spaces. */
  function SelectStatement<V>(q: Query<V>, p: Parameters<V>): (r: Rendered<V>)
    requires q.operation == Read && IsWellFormed(q)
    ensures Extends(p, r.params) && |r.params| == |p| + ParameterCount(q)
    decreases RelationDepth(q.relation), 2
  {
    var from := FromClause(q.relation, p);
    if q.filter.Some? then
      var where := WhereClause(q.filter.value, from.params);
      Rendered(Join(["SELECT *", from.text] + [where.text], ' '), where.params)
    else
      Rendered(Join(["SELECT *", from.text], ' '), from.params)
  }

  /** generateDeleteStatement: "DELETE", the FROM clause of the table and
      the WHERE clause, joined by spaces. */
  function DeleteStatement<V>(md: Metadata, f: Filter<V>, p: Parameters<V>): (r: Rendered<V>)
    requires FilterIsResolved(f)
    ensures Extends(p, r.params) && |r.params| == |p| + FilterParameterCount(f)
    decreases 0, 2
  {
    var from := FromClause(MappingRelation(md), p);
    var where := WhereClause(f, from.params);
    Rendered(Join(["DELETE", from.text, where.text], ' '), where.params)
  }

  /** generateFromClause: "FROM <table>", or "FROM (<inner statement>)" for
      a nested read query, whose parameters go into the same map. */
  function FromClause<V>(rel: Relation<V>, p: Parameters<V>): (r: Rendered<V>)
    requires RelationIsWellFormed(rel)
    ensures Extends(p, r.params) && |r.params| == |p| + RelationParameterCount(rel)
    ensures rel.MappingRelation? ==> r.params == p
    decreases RelationDepth(rel), 1
  {
    match rel
    case MappingRelation(md) => Rendered("FROM " + md.tableName, p)
    case QueryRelation(inner) =>
      var g := Generate(inner, p);
      Rendered("FROM (" + g.value.text + ")", g.value.params)
  }

  /** The field list, the key list and the parameter map the insert loop
      has built after visiting the mappings ms. */
  datatype Columns<V> = Columns(fields: seq<string>, keys: seq<string>, params: Parameters<V>)

  function BindColumns<V>(ms: seq<PropertyMapping>, instance: map<string, V>, p: Parameters<V>): (c: Columns<V>)
    requires forall m :: m in ms && !m.isAutogenerated ==> m.classPropertyName in instance
    ensures |c.fields| == |c.keys| == |PersistedIndices(ms)|
    ensures Extends(p, c.params) && |c.params| == |p| + |c.keys|
    decreases |ms|
  {
    if ms == [] then Columns([], [], p)
    else
      var n := |ms| - 1;
      assert forall m :: m in ms[..n] ==> m in ms;
      var c := BindColumns(ms[..n], instance, p);
      var m := ms[n];
      assert |PersistedIndices(ms)| == |PersistedIndices(ms[..n])| + (if m.isAutogenerated then 0 else 1);
      if m.isAutogenerated then c
      else
        var key := FreshKey(c.params, m.tableFieldName);
        Columns(c.fields + [m.tableFieldName], c.keys + [key], Insert(c.params, m.tableFieldName, instance[m.classPropertyName]))
  }

  /** generateInsertStatement, as the specification of the loop below. */
  function InsertStatement<V>(md: Metadata, instance: map<string, V>, p: Parameters<V>): (r: Rendered<V>)
    requires SuppliesValues(md, instance)
    ensures Extends(p, r.params) && |r.params| == |p| + |PersistedIndices(md.propertyMappings)|
  {
    var c := BindColumns(md.propertyMappings, instance, p);
    Rendered(InsertText(md.tableName, c.fields, c.keys), c.params)
  }

  function InsertText(table: string, fields: seq<string>, keys: seq<string>): string {
    "INSERT INTO " + table + "(" + Join(fields, ',') + ") VALUES(" + Join(keys, ',') + ")"
  }

  /** generateInsertStatement with the source's loop over the mappings. */
  method GenerateInsertStatement<V>(md: Metadata, instance: map<string, V>, p: Parameters<V>) returns (statement: string, p': Parameters<V>)
    requires SuppliesValues(md, instance)
    ensures Rendered(statement, p') == InsertStatement(md, instance, p)
  {
    var ms := md.propertyMappings;
    var fieldsList: seq<string> := [];
    var valuesList: seq<string> := [];
    p' := p;
    for i := 0 to |ms|
      invariant BindColumns(ms[..i], instance, p) == Columns(fieldsList, valuesList, p')
    {
      assert ms[..i + 1][..i] == ms[..i];
      var m := ms[i];
      if m.isAutogenerated {
        continue;
      }
      var valueStr;
      valueStr, p' := InsertParameter(p', m.tableFieldName, instance[m.classPropertyName]);
      valuesList := valuesList + [valueStr];
      fieldsList := fieldsList + [m.tableFieldName];
    }
    assert ms[..|ms|] == ms;
    statement := InsertText(md.tableName, fieldsList, valuesList);
  }

  /** The one-argument generate: start from an empty parameter map. */
  function GenerateStatement<V>(q: Query<V>): (r: Result<Rendered<V>, GenerationError>)
    requires IsWellFormed(q)
    ensures r.Ok? <==> q.operation != Update
    ensures r.Ok? ==> |r.value.params| == ParameterCount(q)
    ensures r.Ok? && ParameterCount(q) == 0 ==> r.value.params == map[]
  {
    Generate(q, map[])
  }
}
