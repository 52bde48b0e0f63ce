# QtOrm SQLite statement generator, modelled in Dafny

QtOrm is an object-relational mapper for Qt. Given a `QOrmQuery`, its SQLite backend renders an SQL
statement with named placeholders. At the same time it fills a `QVariantMap` with the value bound to
each placeholder. The model covers two parts.

- The query generator: the `generate` entry points, INSERT, SELECT and DELETE generation, the FROM and
  WHERE clauses, the three `generateCondition` overloads over a filter tree, and `insertParameter`,
  which picks a fresh placeholder key.
- `QOrmPropertyMapping`: the immutable descriptor that ties one class property to one table field,
  its `isReference` test, and the item sequence its debug stream operator writes.

Modules and files:

- `wrappers.dfy` (`Wrappers`): `Option` and `Result`.
- `property_mapping.dfy` (`PropertyMappings`): the property mapping datatype and its debug rendering.
- `query.dfy` (`Queries`): the metadata, the query, the relation and the filter trees.
  - `IsWellFormed` collects what the generator asserts of a query, or dereferences in it.
  - The counting functions say how many parameters a query binds.
- `bound_parameters.dfy` (`BoundParameters`): the parameter map, the fresh-key rule of
  `insertParameter`, and the source's `for` loop, written as a `while`, as a method.
- `statement_generator.dfy` (`SqliteStatementGenerator`): statement generation.
  - The map that the source passes by reference and changes becomes an input map plus an output map
    (`Rendered(text, params)`).
  - The insert loop appears twice: as a function, and as a method with the source's `for` loop, proved
    to compute the same thing.
- `generator_properties.dfy` (`GeneratorProperties`): what the generated statements and maps are:
  - which columns an INSERT writes, and the values bound to them;
  - how a filter's keys are bound, left operand first;
  - the exact text of SELECT and DELETE statements;
  - two worked examples.

Where the generator aborts, the model states the abort in one of two ways.

- A `Q_ASSERT` or an unchecked dereference becomes a `requires` clause: `IsWellFormed`, `IsResolved`
  or `FilterIsResolved`.
- The unimplemented UPDATE becomes the error value `Err(UpdateNotImplemented)`.

One `requires` clause is not an abort of the source. `SuppliesValues`, part of `IsWellFormed` for
Create, asks the instance map to hold every property the insert reads. The generator checks
nothing there; see "## Left out".

Two behaviours of the code deserve a note.

- **Transient mappings are inserted.** The insert loop skips autogenerated mappings only. See
  `GeneratorProperties.TransientMappingIsInserted`.
- **A delete with a non-expression filter deletes every row.** The WHERE clause is empty for a filter
  that is not an expression, so a DELETE renders as `DELETE FROM <table> ` with no condition. See
  `GeneratorProperties.DeleteWithOtherFilterIsUnconditional`.

The model follows the code in both cases.

## Model

| member | source | states |
|---|---|---|
| PropertyMappings.FlagSuffix | src/orm/qormpropertymapping.cpp:14-21 | each of ", autogenerated", ", object ID" and ", transient" is written exactly when its flag is set, and the flags appear in that fixed order |
| PropertyMappings.DebugItems | src/orm/qormpropertymapping.cpp:7-26 | the debug rendering is "QOrmPropertyMapping(", the property name, " => ", the field name, ", ", the type, the flags (each present iff set, in order) and ")" |
| Queries.PersistedIndices | src/orm/qormsqlitestatementgenerator_p.cpp:68-71 | the mappings the insert loop writes are non-autogenerated, in declaration order, each once |
| Queries.PersistedIndicesComplete | src/orm/qormsqlitestatementgenerator_p.cpp:68-71 | every non-autogenerated mapping is written by the insert loop |
| Queries.TerminalValues | src/orm/qormsqlitestatementgenerator_p.cpp:157-234 | a filter tree binds one value per terminal predicate |
| BoundParameters.DecimalString | src/orm/qormsqlitestatementgenerator_p.cpp:16 | the decimal numeral of a number is nonempty and has one digit exactly for numbers below ten |
| BoundParameters.DecimalStringInjective | src/orm/qormsqlitestatementgenerator_p.cpp:16 | distinct counters give distinct numerals |
| BoundParameters.CandidateInjective | src/orm/qormsqlitestatementgenerator_p.cpp:13-16 | the candidate keys ":name", ":name0", ":name1", … are pairwise distinct |
| BoundParameters.FreeIndexFrom | src/orm/qormsqlitestatementgenerator_p.cpp:15-16 | the search reaches a candidate that is not yet in the map, and every candidate it passes is taken |
| BoundParameters.FreshKey | src/orm/qormsqlitestatementgenerator_p.cpp:11-21 | the chosen key is not yet in the map, and it is ":name" whenever ":name" is free |
| BoundParameters.FreshKeyTakesFirstFreeSuffix | src/orm/qormsqlitestatementgenerator_p.cpp:13-16 | when ":name" is taken, the key is ":name" followed by the least counter whose key is free |
| BoundParameters.FirstFreeIsFreshKey | src/orm/qormsqlitestatementgenerator_p.cpp:13-16 | a free candidate with every earlier candidate taken is the chosen key |
| BoundParameters.Insert | src/orm/qormsqlitestatementgenerator_p.cpp:18 | inserting adds exactly one new key, bound to the value, and keeps every existing binding |
| BoundParameters.InsertParameter | src/orm/qormsqlitestatementgenerator_p.cpp:11-21 | the source's loop returns the fresh key and the map with the value bound under it |
| BoundParameters.BindAllLookup | src/orm/qormsqlitestatementgenerator_p.cpp:194-195 | after binding distinct keys in turn, each key holds its own value |
| SqliteStatementGenerator.JoinShape | src/orm/qormsqlitestatementgenerator_p.cpp:82-83 | the joined text is as long as the parts together plus one separator between each neighbouring pair, it begins with the first part, it is empty for no parts, and it is the part itself for one part |
| SqliteStatementGenerator.JoinSnoc | src/orm/qormsqlitestatementgenerator_p.cpp:78-83 | appending a part to a nonempty list appends one separator and then that part, so with the empty and one-part cases the joined text is every part in order with one separator between neighbours |
| SqliteStatementGenerator.ComparisonOperator | src/orm/qormsqlitestatementgenerator_p.cpp:184-192 | every comparison has one of the six SQL operators, and "=" is exactly equality |
| SqliteStatementGenerator.LogicalOperator | src/orm/qormsqlitestatementgenerator_p.cpp:210-222 | the operator text is never empty: it is "AND" or "OR" |
| SqliteStatementGenerator.Condition | src/orm/qormsqlitestatementgenerator_p.cpp:157-176 | a condition is never empty, keeps every earlier binding, and adds one parameter per terminal predicate |
| SqliteStatementGenerator.TerminalCondition | src/orm/qormsqlitestatementgenerator_p.cpp:178-202 | the predicate's value is bound under a key that was not yet in the map, and nothing else changes |
| SqliteStatementGenerator.BinaryCondition | src/orm/qormsqlitestatementgenerator_p.cpp:204-225 | both operands' parameters go into the shared map |
| SqliteStatementGenerator.UnaryCondition | src/orm/qormsqlitestatementgenerator_p.cpp:227-234 | the operand's parameters go into the shared map |
| SqliteStatementGenerator.WhereClause | src/orm/qormsqlitestatementgenerator_p.cpp:139-155 | the clause is nonempty exactly for an expression filter, and then begins with "WHERE " |
| SqliteStatementGenerator.FromClause | src/orm/qormsqlitestatementgenerator_p.cpp:122-137 | a table relation binds nothing, and a nested query binds its own parameters into the shared map |
| SqliteStatementGenerator.SelectStatement | src/orm/qormsqlitestatementgenerator_p.cpp:98-109 | a read binds the parameters of its relation and of its filter, in one map that only grows |
| SqliteStatementGenerator.DeleteStatement | src/orm/qormsqlitestatementgenerator_p.cpp:111-120 | a delete binds exactly the filter's parameters |
| SqliteStatementGenerator.BindColumns | src/orm/qormsqlitestatementgenerator_p.cpp:68-80 | one field name and one key per persisted mapping, with one new binding per key |
| SqliteStatementGenerator.InsertStatement | src/orm/qormsqlitestatementgenerator_p.cpp:61-89 | an insert binds one parameter per non-autogenerated mapping and keeps earlier bindings |
| SqliteStatementGenerator.GenerateInsertStatement | src/orm/qormsqlitestatementgenerator_p.cpp:61-89 | the source's loop with `continue` computes exactly the insert statement and map |
| SqliteStatementGenerator.Generate | src/orm/qormsqlitestatementgenerator_p.cpp:31-59 | generation succeeds exactly for Create, Read and Delete, and binds ParameterCount(q) new parameters |
| SqliteStatementGenerator.GenerateStatement | src/orm/qormsqlitestatementgenerator_p.cpp:23-29 | starting from an empty map, the returned map holds exactly ParameterCount(q) bindings, and UPDATE is the one failing operation |
| GeneratorProperties.BindColumnsFields | src/orm/qormsqlitestatementgenerator_p.cpp:68-80 | the k-th field in the INSERT is the table field of the k-th non-autogenerated mapping |
| GeneratorProperties.BindColumnsKeys | src/orm/qormsqlitestatementgenerator_p.cpp:73-78 | the VALUES keys are distinct, new to the map, and the only keys the map gains |
| GeneratorProperties.BindColumnsValues | src/orm/qormsqlitestatementgenerator_p.cpp:73-78 | the k-th key is bound to the instance's value of the k-th persisted property |
| GeneratorProperties.TransientMappingIsInserted | src/orm/qormsqlitestatementgenerator_p.cpp:70-71 | a transient, non-autogenerated mapping does appear in the INSERT's field list |
| GeneratorProperties.ConditionKeysAreFresh | src/orm/qormsqlitestatementgenerator_p.cpp:194-195 | a condition binds one key per terminal predicate, all distinct and none already in the map |
| GeneratorProperties.ConditionBindings | src/orm/qormsqlitestatementgenerator_p.cpp:204-208 | the map after a condition is the map before with the terminals' values bound in order, left operand first |
| GeneratorProperties.ConditionBindsEachTerminal | src/orm/qormsqlitestatementgenerator_p.cpp:194-199 | the i-th terminal's value is found under the i-th bound key, which was fresh |
| GeneratorProperties.TerminalConditionShape | src/orm/qormsqlitestatementgenerator_p.cpp:194-199 | a comparison's text starts with its field and ends with exactly the key its value is bound under |
| GeneratorProperties.SelectWithoutFilter | src/orm/qormsqlitestatementgenerator_p.cpp:98-109 | a read without a filter is "SELECT * " followed by its FROM clause |
| GeneratorProperties.SelectWithFilter | src/orm/qormsqlitestatementgenerator_p.cpp:98-109 | a read with a filter appends a space and the WHERE clause, which binds after the FROM clause |
| GeneratorProperties.SelectWithExpressionFilter | src/orm/qormsqlitestatementgenerator_p.cpp:98-109 | a read with an expression filter ends with " WHERE " and the condition |
| GeneratorProperties.SubSelectAndOuterFilterShareMap | src/orm/qormsqlitestatementgenerator_p.cpp:103-106 | a sub-select's bindings survive, and the outer filter's keys are fresh with respect to them |
| GeneratorProperties.DeleteShape | src/orm/qormsqlitestatementgenerator_p.cpp:111-120 | a delete is "DELETE FROM <table> " followed by the WHERE clause |
| GeneratorProperties.DeleteWithExpressionFilter | src/orm/qormsqlitestatementgenerator_p.cpp:111-120 | with an expression filter, a delete is restricted by "WHERE <condition>" and binds at least one parameter |
| GeneratorProperties.DeleteWithOtherFilterIsUnconditional | src/orm/qormsqlitestatementgenerator_p.cpp:139-155 | with a non-expression filter, a delete has no condition and binds nothing |
| GeneratorProperties.CreateShape | src/orm/qormsqlitestatementgenerator_p.cpp:61-89 | a create is "INSERT INTO <table>(<fields>) VALUES(<keys>)" whose field list is the table fields of exactly the non-autogenerated mappings in declaration order, with one key per field |
| GeneratorProperties.FieldsAreFieldNames | src/orm/qormsqlitestatementgenerator_p.cpp:68-80 | the field list the insert loop builds equals the table fields of the non-autogenerated mappings, taken in declaration order from the mappings themselves |
| GeneratorProperties.SameFieldTwice | src/orm/qormsqlitestatementgenerator_p.cpp:11-21 | two comparisons on the field "name" render as "(name = :name) AND (name = :name0)", with each key bound to its own value |
| GeneratorProperties.ProvinceInsert | src/orm/qormsqlitestatementgenerator_p.cpp:61-89 | a province with an autogenerated id renders as "INSERT INTO Province(name) VALUES(:name)" and binds only ":name" |

`PropertyMapping.IsReference` (src/orm/qormpropertymapping.cpp:130-133) holds exactly when the
mapping names a referenced entity. It has no separate contract.

## Left out

- QVariant: property values are a type parameter `V`. The generator never inspects a value, and
  `QVariant::Type` is kept as an integer.
- QMetaProperty and the `qMetaProperty` accessor: Qt's reflection is not modelled.
- Reading a property through `QOrmPrivate::propertyValue`: the entity instance is modelled as a map
  from class property names to values.
- Pointers: the enclosing and referenced `QOrmMetadata` pointers are modelled as names of entity
  classes. The metadata cache keeps one object per class.
- The accessors, copy and move operations and the destructor of `QOrmPropertyMapping`: they have no
  separate members. A datatype value provides them: the datatype's field destructors serve as the
  accessors, a copy is equal to its original, and there is nothing to destroy.
- QDebug's spacing and quoting between streamed items: `DebugItems` gives the items in order, and
  the text of the data type is a parameter.
- `Q_ORM_UNEXPECTED_STATE` and the `default:` branch of `generate`: every enumeration is a closed
  datatype here, so these branches cannot be reached.
- `SqliteStatementGenerator.InsertStatement`, `SqliteStatementGenerator.BindColumns`,
  `SqliteStatementGenerator.GenerateInsertStatement` and `SqliteStatementGenerator.Generate` (through
  `SuppliesValues` in `IsWellFormed`): require the instance map to hold every non-autogenerated
  property. The source reads each property through `QOrmPrivate::propertyValue` and binds whatever
  comes back, without checking. Callers meet the requirement because the instance is an object of
  the mapped class: `QOrmSession::merge` pairs it with its own class's meta-object
  (src/orm/qormsession.h:35-37). The model does not cover binding an invalid value for a missing
  property.
- `Q_ASSERT` failures and null dereferences: callers must rule them out through `requires` clauses.
  The source does not handle them.
- `BoundParameters.InsertParameter`: does not model overflow of the signed 32-bit `int` counter,
  which is undefined behaviour in C++. It could only happen after about 2^31 keys with the same name,
  and the counter here is unbounded.
- UPDATE generation: the source does not implement it. It is modelled as the error
  `UpdateNotImplemented`.
- The session, the SQLite provider that runs the statements, and the domain classes used as
  examples (Town, Province): these call the generator or supply data to it. They are not part of
  this model.
