/**
 * QOrmPropertyMapping: the immutable descriptor of how one property of an
 * entity class is stored in one field of the entity's table.
 *
 * The source keeps the fields in an implicitly shared private object and
 * offers only const accessors and defaulted copy/move operations. A Dafny
 * datatype value has exactly that behaviour: its constructor stores the
 * arguments, its field destructors serve as the accessors, copies are
 * equal on every field, there is nothing to destroy, and no operation can
 * change a value once built.
 */
module PropertyMappings {
  import opened Wrappers

  /** A metadata object is identified by the name of its entity class; the
      metadata cache holds one object per class. */
  type EntityName = string

  /** The value of the QVariant::Type enumerator; never inspected here. */
  type DataType = int

  datatype PropertyMapping = PropertyMapping(
    enclosingEntity: EntityName,
    classPropertyName: string,
    tableFieldName: string,
    isObjectId: bool,
    isAutogenerated: bool,
    dataType: DataType,
    referencedEntity: Option<EntityName>,
    isTransient: bool)
  {
    /** True exactly when the property refers to another entity. */
    predicate IsReference() {
      referencedEntity.Some?
    }
  }

  const AutogeneratedFlag: string := ", autogenerated"
  const ObjectIdFlag: string := ", object ID"
  const TransientFlag: string := ", transient"

  /** Position of a flag item in the fixed order in which the debug
      rendering emits flags; any other item ranks last. */
  function FlagRank(item: string): nat {
    if item == AutogeneratedFlag then 0
    else if item == ObjectIdFlag then 1
    else if item == TransientFlag then 2
    else 3
  }

  /** The flag items the debug stream operator writes after the data type. */
  function FlagSuffix(m: PropertyMapping): (r: seq<string>)
    ensures AutogeneratedFlag in r <==> m.isAutogenerated
    ensures ObjectIdFlag in r <==> m.isObjectId
    ensures TransientFlag in r <==> m.isTransient
    ensures forall i, j :: 0 <= i < j < |r| ==> FlagRank(r[i]) < FlagRank(r[j])
    ensures forall i :: 0 <= i < |r| ==> FlagRank(r[i]) < 3
  {
    (if m.isAutogenerated then [AutogeneratedFlag] else [])
    + (if m.isObjectId then [ObjectIdFlag] else [])
    + (if m.isTransient then [TransientFlag] else [])
  }

  /**
   * The items the debug stream operator writes, in order: the opening
   * "QOrmPropertyMapping(", the class property name, " => ", the table
   * field name, ", ", the rendering of the data type (given as typeText),
   * the flag items and the closing ")". The spacing and quoting QDebug adds
   * between items is not part of the model.
   */
  function DebugItems(m: PropertyMapping, typeText: string): (r: seq<string>)
    ensures |r| == 7 + |FlagSuffix(m)|
    ensures r[0] == "QOrmPropertyMapping(" && r[2] == " => " && r[4] == ", "
    ensures r[1] == m.classPropertyName && r[3] == m.tableFieldName && r[5] == typeText
    ensures r[6..|r| - 1] == FlagSuffix(m)
    ensures r[|r| - 1] == ")"
  {
    var head := ["QOrmPropertyMapping(", m.classPropertyName, " => ", m.tableFieldName, ", ", typeText];
    var flags := FlagSuffix(m);
    var r := head + flags + [")"];
    assert r[6..|r| - 1] == flags;
    r
  }
}
