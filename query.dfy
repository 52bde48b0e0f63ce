/**
 * The query description the statement generator consumes: entity metadata,
 * relations (a table or a nested read query), filters and their expression
 * trees, and the query itself. Values bound to parameters (QVariant) are the
 * type parameter V throughout.
 */
module Queries {
  import opened Wrappers
  import opened PropertyMappings

  /** QOrmMetadata as far as the generator reads it. */
  datatype Metadata = Metadata(className: string, tableName: string, propertyMappings: seq<PropertyMapping>)

  datatype Operation = Create | Read | Update | Delete

  datatype Comparison = Less | Equal | Greater | NotEqual | LessOrEqual | GreaterOrEqual

  datatype BinaryLogicalOperator = And | Or

  datatype UnaryLogicalOperator = Not

  /** A terminal predicate names a class property until resolution has
      replaced the name by the entity's property mapping. */
  datatype PropertyReference = Unresolved(classPropertyName: string) | Resolved(mapping: PropertyMapping)

  datatype TerminalPredicate<V> = TerminalPredicate(property: PropertyReference, comparison: Comparison, value: V)

  datatype BinaryPredicate<V> = BinaryPredicate(lhs: FilterExpression<V>, logicalOperator: BinaryLogicalOperator, rhs: FilterExpression<V>)

  datatype UnaryPredicate<V> = UnaryPredicate(logicalOperator: UnaryLogicalOperator, rhs: FilterExpression<V>)

  datatype FilterExpression<V> =
    | TerminalExpression(terminal: TerminalPredicate<V>)
    | BinaryExpression(binary: BinaryPredicate<V>)
    | UnaryExpression(unary: UnaryPredicate<V>)

  /** A filter is either an expression tree or of another type, which the
      SQL generator does not translate. */
  datatype Filter<V> = ExpressionFilter(expression: FilterExpression<V>) | OtherFilter

  datatype Relation<V> = MappingRelation(mapping: Metadata) | QueryRelation(query: Query<V>)

  /** The entity instance of a Create is given by its property values,
      keyed by class property name. */
  datatype Query<V> = Query(operation: Operation, relation: Relation<V>, filter: Option<Filter<V>>, entityInstance: Option<map<string, V>>)

  /** Every terminal predicate of the tree has been resolved. */
  predicate IsResolved<V>(e: FilterExpression<V>)
    decreases e
  {
    match e
    case TerminalExpression(t) => t.property.Resolved?
    case BinaryExpression(b) => IsResolved(b.lhs) && IsResolved(b.rhs)
    case UnaryExpression(u) => IsResolved(u.rhs)
  }

  predicate FilterIsResolved<V>(f: Filter<V>) {
    f.ExpressionFilter? ==> IsResolved(f.expression)
  }

  predicate OptionalFilterIsResolved<V>(f: Option<Filter<V>>) {
    f.Some? ==> FilterIsResolved(f.value)
  }

  /** The instance supplies a value for every mapping the insert reads. */
  predicate SuppliesValues<V>(md: Metadata, instance: map<string, V>) {
    forall m :: m in md.propertyMappings && !m.isAutogenerated ==> m.classPropertyName in instance
  }

  /** A nested relation may only hold a read query. */
  predicate RelationIsWellFormed<V>(rel: Relation<V>)
    decreases rel
  {
    match rel
    case MappingRelation(_) => true
    case QueryRelation(inner) => inner.operation == Read && IsWellFormed(inner)
  }

  /** What the generator asserts of, or dereferences in, the query it is
      given: Create and Delete work on a table, Delete needs a filter, and
      every expression that gets rendered is resolved. In addition, Create
      needs an instance that supplies a value for every property the insert
      reads (SuppliesValues): the generator does not check this, but reading
      a property of an instance of the mapped class always yields a value. */
  predicate IsWellFormed<V>(q: Query<V>)
    decreases q
  {
    match q.operation
    case Create =>
      && q.relation.MappingRelation?
      && q.entityInstance.Some?
      && SuppliesValues(q.relation.mapping, q.entityInstance.value)
    case Update => true
    case Read => RelationIsWellFormed(q.relation) && OptionalFilterIsResolved(q.filter)
    case Delete =>
      && q.relation.MappingRelation?
      && q.filter.Some?
      && FilterIsResolved(q.filter.value)
  }

  /** Number of terminal predicates in the tree. */
  function TerminalCount<V>(e: FilterExpression<V>): (n: nat)
    ensures n >= 1
    decreases e
  {
    match e
    case TerminalExpression(_) => 1
    case BinaryExpression(b) => TerminalCount(b.lhs) + TerminalCount(b.rhs)
    case UnaryExpression(u) => TerminalCount(u.rhs)
  }

  /** The compared values of the terminal predicates, left to right. */
  function TerminalValues<V>(e: FilterExpression<V>): (vs: seq<V>)
    ensures |vs| == TerminalCount(e)
    decreases e
  {
    match e
    case TerminalExpression(t) => [t.value]
    case BinaryExpression(b) => TerminalValues(b.lhs) + TerminalValues(b.rhs)
    case UnaryExpression(u) => TerminalValues(u.rhs)
  }

  function FilterParameterCount<V>(f: Filter<V>): nat {
    match f
    case ExpressionFilter(e) => TerminalCount(e)
    case OtherFilter => 0
  }

  function OptionalFilterParameterCount<V>(f: Option<Filter<V>>): nat {
    match f
    case Some(g) => FilterParameterCount(g)
    case None => 0
  }

  /** Indices, in declaration order, of the mappings an insert writes. */
  function PersistedIndices(ms: seq<PropertyMapping>): (r: seq<nat>)
    ensures forall k :: 0 <= k < |r| ==> r[k] < |ms| && !ms[r[k]].isAutogenerated
    ensures forall k, l :: 0 <= k < l < |r| ==> r[k] < r[l]
    decreases |ms|
  {
    if ms == [] then []
    else
      var n := |ms| - 1;
      var prefix := PersistedIndices(ms[..n]);
      assert forall k :: 0 <= k < |prefix| ==> ms[prefix[k]] == ms[..n][prefix[k]];
      prefix + (if ms[n].isAutogenerated then [] else [n])
  }

  /** Every non-autogenerated mapping is among them. */
  lemma {:induction false} PersistedIndicesComplete(ms: seq<PropertyMapping>, j: nat)
    requires j < |ms| && !ms[j].isAutogenerated
    ensures j in PersistedIndices(ms)
    decreases |ms|
  {
    var n := |ms| - 1;
    if j < n {
      PersistedIndicesComplete(ms[..n], j);
    }
  }

  /** Number of parameters a generation binds for the query: one per
      inserted field, one per terminal predicate of every rendered filter,
      nested sub-selects included. */
  function ParameterCount<V>(q: Query<V>): nat
    decreases q
  {
    match q.operation
    case Create => if q.relation.MappingRelation? then |PersistedIndices(q.relation.mapping.propertyMappings)| else 0
    case Update => 0
    case Read => RelationParameterCount(q.relation) + OptionalFilterParameterCount(q.filter)
    case Delete => OptionalFilterParameterCount(q.filter)
  }

  function RelationParameterCount<V>(rel: Relation<V>): nat
    decreases rel
  {
    match rel
    case MappingRelation(_) => 0
    case QueryRelation(inner) => ParameterCount(inner)
  }

  /** Nesting depth of sub-selects; the termination measure of generation. */
  function RelationDepth<V>(rel: Relation<V>): nat
    decreases rel
  {
    match rel
    case MappingRelation(_) => 0
    case QueryRelation(inner) => 1 + RelationDepth(inner.relation)
  }
}
