/**
 * Two decision rules of Simple.MySql/MysqlDB.cs: how a primary-key
 * parameter is adjusted before it is written (adjustInsertValue), and which
 * column a keyed Get filters on.
 *
 * A parameter value is modelled as the .NET box it travels in, so that
 * `Equals` compares the box type as well as the number, as Int32.Equals and
 * Int64.Equals do.
 */
module MysqlDb {
  import opened Wrappers

  /** A Guid as its 128 bits; Guid.Empty is all zeros. */
  datatype Guid = Guid(bits: bv128)

  const EmptyGuid := Guid(0)

  /** The declared type of a record field, as far as the key rules distinguish it. */
  datatype FieldType = IntField | LongField | GuidField | OtherField(typeName: string)

  /** A boxed parameter value: its runtime type and its content. */
  datatype Value = Null | Int32Value(i: int) | Int64Value(l: int) | GuidValue(g: Guid) | OtherValue(text: string)

  /** A field of a record type: its name, declared type and whether it carries the PrimaryKey attribute. */
  datatype TypeItem = TypeItem(Name: string, Type: FieldType, IsPrimaryKey: bool)

  /** What the C# type system guarantees: a field's value is boxed as its declared type. */
  predicate WellTyped(t: FieldType, v: Value)
  {
    match t
    case IntField => v.Int32Value?
    case LongField => v.Int64Value?
    case GuidField => v.GuidValue?
    case OtherField(_) => true
  }

  /** A key value that asks the database (or the mapper) to assign one: integer 0 or Guid.Empty. */
  predicate IsUnsetKey(t: FieldType, v: Value)
  {
    match t
    case IntField => v == Int32Value(0)
    case LongField => v == Int64Value(0)
    case GuidField => v == GuidValue(EmptyGuid)
    case OtherField(_) => false
  }

  /** object.Equals on two boxes: same runtime type and same content. */
  predicate BoxedEquals(a: Value, b: Value)
  {
    a == b
  }

  /**
   * adjustInsertValue as written: the integer test is `value.Equals(0)`,
   * whose argument is a boxed Int32, so a boxed Int64 zero never matches.
   */
  function AdjustedValueAsWritten(p: TypeItem, value: Value, newGuid: Guid): (r: Value)
    ensures r != value ==> p.IsPrimaryKey
    ensures p.Type == LongField && !value.Int32Value? ==> r == value
    ensures p.Type != LongField ==> r == AdjustedValue(p, value, newGuid)
  {
    if !p.IsPrimaryKey then value
    else if p.Type == IntField || p.Type == LongField then
      if !BoxedEquals(value, Int32Value(0)) then value else Null
    else if p.Type == GuidField then
      if !BoxedEquals(value, GuidValue(EmptyGuid)) then value else GuidValue(newGuid)
    else value
  }

  /** A `long` primary key equal to 0 is sent as 0 rather than as null, so auto-increment does not assign it. */
  lemma LongZeroKeyIsKept(newGuid: Guid)
    ensures var p := TypeItem("Id", LongField, true);
      && IsUnsetKey(p.Type, Int64Value(0))
      && AdjustedValueAsWritten(p, Int64Value(0), newGuid) == Int64Value(0)
      && AdjustedValue(p, Int64Value(0), newGuid) == Null
  {
  }

  /**
   * For well-typed values the as-written rule departs from the intended one
   * on exactly one input: a `long` primary key holding 0.
   */
  lemma AsWrittenDiffersOnlyOnLongZero(p: TypeItem, value: Value, newGuid: Guid)
    requires WellTyped(p.Type, value)
    ensures AdjustedValueAsWritten(p, value, newGuid) != AdjustedValue(p, value, newGuid)
            <==> p.IsPrimaryKey && p.Type == LongField && value == Int64Value(0)
  {
  }

  /**
   * adjustInsertValue as intended: an `int` or `long` primary key equal to
   * 0 becomes null; a Guid primary key equal to Guid.Empty becomes the
   * fresh Guid; everything else is left as it is.
   */
  function AdjustedValue(p: TypeItem, value: Value, newGuid: Guid): (r: Value)
    ensures !p.IsPrimaryKey || !IsUnsetKey(p.Type, value) ==> r == value
    ensures p.IsPrimaryKey && IsUnsetKey(p.Type, value) ==> r == if p.Type == GuidField then GuidValue(newGuid) else Null
  {
    if !p.IsPrimaryKey then value
    else if p.Type == IntField || p.Type == LongField then
      if !IsUnsetKey(p.Type, value) then value else Null
    else if p.Type == GuidField then
      if !IsUnsetKey(p.Type, value) then value else GuidValue(newGuid)
    else value
  }

  /**
   * Only an unset primary key is changed: given a fresh Guid that is not
   * Guid.Empty, the value changes exactly when the field is a primary key
   * holding integer 0 or Guid.Empty.
   */
  lemma AdjustChangesOnlyUnsetKeys(p: TypeItem, value: Value, newGuid: Guid)
    requires newGuid != EmptyGuid
    ensures AdjustedValue(p, value, newGuid) != value <==> p.IsPrimaryKey && IsUnsetKey(p.Type, value)
  {
  }

  /**
   * After the adjustment no primary key is left unset: an integer key is
   * 0-free (null or nonzero) and a Guid key is non-empty.
   */
  lemma AdjustLeavesNoUnsetKey(p: TypeItem, value: Value, newGuid: Guid)
    requires p.IsPrimaryKey && WellTyped(p.Type, value) && newGuid != EmptyGuid
    ensures !IsUnsetKey(p.Type, AdjustedValue(p, value, newGuid))
    ensures p.Type == IntField || p.Type == LongField ==> AdjustedValue(p, value, newGuid).Null? || AdjustedValue(p, value, newGuid) == value
    ensures p.Type == GuidField ==> AdjustedValue(p, value, newGuid).GuidValue?
  {
  }

  /** The caller's parameter object: its field values by name. */
  class Record {
    var values: map<string, Value>

    constructor (values: map<string, Value>)
      ensures this.values == values
    {
      this.values := values;
    }
  }

  /**
   * adjustInsertValue: the adjusted value comes back through `ref value`;
   * a replaced Guid is also written into the caller's object. The fresh
   * Guid is a parameter (Guid.NewGuid is random).
   */
  method AdjustInsertValue(value: Value, p: TypeItem, parameters: Record, newGuid: Guid) returns (adjusted: Value)
    requires WellTyped(p.Type, value)
    modifies parameters
    ensures adjusted == AdjustedValue(p, value, newGuid)
    ensures p.IsPrimaryKey && p.Type == GuidField && IsUnsetKey(p.Type, value)
            ==> parameters.values == old(parameters.values)[p.Name := GuidValue(newGuid)]
    ensures !(p.IsPrimaryKey && p.Type == GuidField && IsUnsetKey(p.Type, value))
            ==> parameters.values == old(parameters.values)
  {
    adjusted := value;
    if !p.IsPrimaryKey {
      return;
    }
    if p.Type == IntField || p.Type == LongField {
      if !IsUnsetKey(p.Type, adjusted) {
        return;
      }
      // An integer primary key is auto-increment: null lets the database assign it.
      adjusted := Null;
    } else if p.Type == GuidField {
      if !IsUnsetKey(p.Type, adjusted) {
        return;
      }
      adjusted := GuidValue(newGuid);
      parameters.values := parameters.values[p.Name := adjusted];
    }
  }

  /** The index of the first field annotated PrimaryKey, if any. */
  function FirstPrimaryKey(items: seq<TypeItem>): (r: Option<nat>)
    ensures r.None? <==> forall i :: 0 <= i < |items| ==> !items[i].IsPrimaryKey
    ensures r.Some? ==> r.value < |items| && items[r.value].IsPrimaryKey
                        && forall j :: 0 <= j < r.value ==> !items[j].IsPrimaryKey
  {
    if items == [] then None
    else if items[0].IsPrimaryKey then Some(0)
    else match FirstPrimaryKey(items[1..])
      case None => None
      case Some(k) => Some(k + 1)
  }

  const RowIdColumn := "_rowid_"

  /**
   * The column a keyed Get filters on: the explicit key column when one is
   * given, else the name of the first PrimaryKey field, else _rowid_.
   */
  function KeyColumn(keyColumn: Option<string>, items: seq<TypeItem>): (r: string)
    ensures keyColumn.Some? ==> r == keyColumn.value
    ensures keyColumn.None? && (exists i :: 0 <= i < |items| && items[i].IsPrimaryKey) ==>
      exists i :: 0 <= i < |items| && items[i].IsPrimaryKey && r == items[i].Name
                  && forall j :: 0 <= j < i ==> !items[j].IsPrimaryKey
    ensures keyColumn.None? && (forall i :: 0 <= i < |items| ==> !items[i].IsPrimaryKey) ==> r == RowIdColumn
  {
    match keyColumn
    case Some(k) => k
    case None =>
      match FirstPrimaryKey(items)
      case Some(i) => items[i].Name
      case None => RowIdColumn
  }
}
