/**
 * The column model of Simple.MySql/Schema/Column.cs: the native-type to
 * engine-type mapping, the flags derived from a field's annotations, name
 * validation, and the two DDL fragments a column renders.
 */
module Columns {
  import opened Wrappers
  import Fragments

  /** The native (CLR) type of a field. Enums carry their name; every type the mapping has no rule for is Unsupported. */
  datatype NativeType =
    | NativeString | NativeUri
    | NativeFloat | NativeDouble | NativeDecimal
    | NativeByte | NativeInt | NativeUInt | NativeLong | NativeULong
    | NativeBool | NativeDateTime
    | NativeGuid | NativeColor | NativeByteArray
    | NativeEnum(enumName: string)
    | Unsupported(typeName: string)

  /** The engine column types the column model names. */
  datatype EngineType =
    | Text | TinyText | MediumText | LongText
    | Blob | TinyBlob | MediumBlob | LongBlob
    | Float | Double | Decimal
    | Byte | Int32 | UInt32 | Int64 | UInt64
    | Bit | DateTime | Guid

  /** The engine type's enum member name, which is what the renderers write. */
  function EngineTypeName(t: EngineType): (r: string)
    ensures r != [] && ' ' !in r
  {
    match t
    case Text => "Text"
    case TinyText => "TinyText"
    case MediumText => "MediumText"
    case LongText => "LongText"
    case Blob => "Blob"
    case TinyBlob => "TinyBlob"
    case MediumBlob => "MediumBlob"
    case LongBlob => "LongBlob"
    case Float => "Float"
    case Double => "Double"
    case Decimal => "Decimal"
    case Byte => "Byte"
    case Int32 => "Int32"
    case UInt32 => "UInt32"
    case Int64 => "Int64"
    case UInt64 => "UInt64"
    case Bit => "Bit"
    case DateTime => "DateTime"
    case Guid => "Guid"
  }

  /** Text and blob types, which allow nulls unless a field says otherwise. */
  predicate IsUnboundedType(t: EngineType)
  {
    t in {Text, TinyText, MediumText, LongText, Blob, TinyBlob, MediumBlob, LongBlob}
  }

  /** The engine types a primary key auto-increments on. */
  predicate IsAutoIncrementType(t: EngineType)
  {
    t in {Int32, Int64, UInt32, UInt64}
  }

  /** The engine types that get 0 as a synthesized default. */
  predicate IsNumericType(t: EngineType)
  {
    t in {Float, Double, Decimal, Byte, Int32, UInt32, Int64, UInt64}
  }

  /** The engine types that get "" as a synthesized default. */
  predicate IsTextType(t: EngineType)
  {
    t in {Text, LongText, MediumText, TinyText}
  }

  /**
   * A field's database annotations. DefaultValueAttribute carries the
   * attribute object's string form, which is what a rendered DEFAULT shows.
   */
  datatype ColumnAttribute = PrimaryKey | Unique | AllowNull | NotNull | DefaultValueAttribute(shown: string)

  /** One field of a record type, as the type reader describes it. */
  datatype FieldInfo = FieldInfo(Name: string, Type: NativeType, Attributes: seq<ColumnAttribute>)

  /** What a column's DefaultValue can hold: the attribute object, or one the model filled in. */
  datatype DefaultObject = AttributeObject(shown: string) | MinDateTime | Zero | EmptyString

  /** The string form of DateTime.MinValue; it depends on the process culture and is left unspecified. */
  const MinDateTimeText: string

  function DefaultText(d: DefaultObject): string
  {
    match d
    case AttributeObject(shown) => shown
    case MinDateTime => MinDateTimeText
    case Zero => "0"
    case EmptyString => ""
  }

  /** The properties of a column at one moment, as one value; the renderers are defined on it. */
  datatype ColumnState = ColumnState(
    ColumnName: string,
    DbType: EngineType,
    NativeType: NativeType,
    IsPK: bool,
    IsAI: bool,
    IsUnique: bool,
    AllowNulls: bool,
    DefaultValue: Option<DefaultObject>)

  datatype MapError = NotSupported(typeName: string, fieldName: string)

  /** t occurs in s at index i. */
  predicate OccursAt(s: string, t: string, i: int)
  {
    0 <= i <= |s| - |t| && s[i..i + |t|] == t
  }

  ghost predicate Contains(s: string, t: string)
  {
    exists i :: OccursAt(s, t, i)
  }

  /** The exception text for an unsupported type; it names both the type and the field. */
  function ErrorMessage(e: MapError): (m: string)
    ensures Contains(m, e.typeName) && Contains(m, e.fieldName)
  {
    var m := "Type " + e.typeName + " is not supported on field " + e.fieldName;
    assert OccursAt(m, e.typeName, 5);
    assert OccursAt(m, e.fieldName, |m| - |e.fieldName|);
    m
  }

  /**
   * The first-match chain from native type to engine type. Only the types
   * it has no rule for fail, and the failure names the type and the field.
   */
  function MapType(info: FieldInfo): (r: Result<EngineType, MapError>)
    ensures r.Failure? <==> info.Type.Unsupported?
    ensures r.Failure? ==> r.error == NotSupported(info.Type.typeName, info.Name)
    ensures r.Success? ==> (IsAutoIncrementType(r.value) <==> info.Type in {NativeInt, NativeUInt, NativeLong, NativeULong} || info.Type.NativeEnum?)
    ensures r.Success? ==> (IsUnboundedType(r.value) <==> info.Type in {NativeString, NativeUri, NativeColor, NativeByteArray})
    ensures r.Success? ==> (IsNumericType(r.value) <==> info.Type in {NativeFloat, NativeDouble, NativeDecimal, NativeByte, NativeInt, NativeUInt, NativeLong, NativeULong} || info.Type.NativeEnum?)
  {
    match info.Type
    case NativeString => Success(Text)
    case NativeUri => Success(Text)
    case NativeFloat => Success(Float)
    case NativeDouble => Success(Double)
    case NativeDecimal => Success(Decimal)
    case NativeByte => Success(Byte)
    case NativeInt => Success(Int32)
    case NativeUInt => Success(UInt32)
    case NativeLong => Success(Int64)
    case NativeULong => Success(UInt64)
    case NativeBool => Success(Bit)
    case NativeDateTime => Success(DateTime)
    case NativeGuid => Success(Guid)
    case NativeColor => Success(TinyBlob)
    case NativeByteArray => Success(LongBlob)
    case NativeEnum(_) => Success(Int32)
    case Unsupported(name) => Failure(NotSupported(name, info.Name))
  }

  /** The first DefaultValue attribute, in attribute order. */
  function FirstDefault(attrs: seq<ColumnAttribute>): (r: Option<DefaultObject>)
    ensures r.None? <==> forall i :: 0 <= i < |attrs| ==> !attrs[i].DefaultValueAttribute?
    ensures r.Some? ==> exists i :: 0 <= i < |attrs| && attrs[i].DefaultValueAttribute?
                                    && r.value == AttributeObject(attrs[i].shown)
                                    && forall j :: 0 <= j < i ==> !attrs[j].DefaultValueAttribute?
  {
    if attrs == [] then None
    else if attrs[0].DefaultValueAttribute? then Some(AttributeObject(attrs[0].shown))
    else
      var r := FirstDefault(attrs[1..]);
      assert forall i :: 0 <= i < |attrs| - 1 ==> attrs[1..][i] == attrs[i + 1];
      r
  }

  /** char.IsWhiteSpace: the Unicode space separators plus U+0009..U+000D, U+0085, U+2028 and U+2029. */
  predicate IsWhiteSpace(ch: char)
  {
    var n := ch as int;
    (0x09 <= n <= 0x0D) || n == 0x20 || n == 0x85 || n == 0xA0 || n == 0x1680
    || (0x2000 <= n <= 0x200A) || n == 0x2028 || n == 0x2029 || n == 0x202F
    || n == 0x205F || n == 0x3000
  }

  /** char.IsSymbol (categories Sm, Sc, Sk, So), for U+0000..U+00FF. */
  predicate IsSymbol(ch: char)
  {
    var n := ch as int;
    n == 0x24 || n == 0x2B || n == 0x3C || n == 0x3D || n == 0x3E || n == 0x5E || n == 0x60
    || n == 0x7C || n == 0x7E || (0xA2 <= n <= 0xA6) || n == 0xA8 || n == 0xA9 || n == 0xAC
    || n == 0xAE || n == 0xAF || n == 0xB0 || n == 0xB1 || n == 0xB4 || n == 0xB8
    || n == 0xD7 || n == 0xF7
  }

  /** `s.Any(p)`. */
  function Any(s: string, p: char -> bool): (r: bool)
    ensures r <==> exists i :: 0 <= i < |s| && p(s[i])
  {
    if s == [] then false
    else if p(s[0]) then true
    else
      var r := Any(s[1..], p);
      assert forall i :: 1 <= i < |s| ==> s[i] == s[1..][i - 1];
      r
  }

  predicate ValidColumnName(name: string)
  {
    name != [] && forall i :: 0 <= i < |name| ==> !IsWhiteSpace(name[i]) && !IsSymbol(name[i])
  }

  datatype NameError = NameNullOrEmpty | NameHasWhiteSpace | NameHasSymbol

  /** The renderers' three checks, in the order they run; None when the name passes all of them. */
  function CheckColumnName(name: string): (r: Option<NameError>)
    ensures r.None? <==> ValidColumnName(name)
    ensures r == Some(NameNullOrEmpty) <==> name == []
    ensures r == Some(NameHasWhiteSpace) <==> name != [] && exists i :: 0 <= i < |name| && IsWhiteSpace(name[i])
    ensures r == Some(NameHasSymbol) <==> name != [] && (forall i :: 0 <= i < |name| ==> !IsWhiteSpace(name[i]))
                                          && exists i :: 0 <= i < |name| && IsSymbol(name[i])
  {
    if |name| == 0 then Some(NameNullOrEmpty)
    else if Any(name, IsWhiteSpace) then Some(NameHasWhiteSpace)
    else if Any(name, IsSymbol) then Some(NameHasSymbol)
    else None
  }

  /** A valid name holds no space, so it ends at the first space of a fragment. */
  lemma ValidNameHasNoSpace(name: string)
    requires ValidColumnName(name)
    ensures ' ' !in name
  {
  }

  /** The one-clause list [x] when cond holds, else no clause. */
  function Opt(cond: bool, x: Fragments.Clause): seq<Fragments.Clause>
  {
    if cond then [x] else []
  }

  /** The key clauses: PRIMARY KEY, AUTOINCREMENT, UNIQUE, each when its flag is set. */
  function KeyClauses(isPK: bool, isAI: bool, isUnique: bool): seq<Fragments.Clause>
  {
    Opt(isPK, Fragments.PrimaryKey) + Opt(isAI, Fragments.AutoIncrement) + Opt(isUnique, Fragments.Unique)
  }

  /** The nullability clauses: NOT NULL when nulls are refused, then DEFAULT '<v>' when there is a default. */
  function NullClauses(c: ColumnState): seq<Fragments.Clause>
  {
    Opt(!c.AllowNulls, Fragments.NotNull) + DefaultClauses(c.DefaultValue)
  }

  /** DEFAULT '<v>' when there is a default value. */
  function DefaultClauses(d: Option<DefaultObject>): seq<Fragments.Clause>
  {
    match d
    case None => []
    case Some(v) => [Fragments.Default(DefaultText(v))]
  }

  lemma KeyClausesOrder(isPK: bool, isAI: bool, isUnique: bool)
    ensures var r := KeyClauses(isPK, isAI, isUnique);
      && Fragments.InCanonicalOrder(r)
      && (forall i :: 0 <= i < |r| ==> Fragments.Rank(r[i]) <= 2)
  {
  }

  lemma KeyClausesPresence(isPK: bool, isAI: bool, isUnique: bool)
    ensures var r := KeyClauses(isPK, isAI, isUnique);
      && (Fragments.PrimaryKey in r <==> isPK)
      && (Fragments.AutoIncrement in r <==> isAI)
      && (Fragments.Unique in r <==> isUnique)
      && Fragments.NotNull !in r
  {
  }

  lemma NullClausesOrder(c: ColumnState)
    ensures var r := NullClauses(c);
      && Fragments.InCanonicalOrder(r)
      && (forall i :: 0 <= i < |r| ==> Fragments.Rank(r[i]) >= 3)
      && (c.DefaultValue.None? ==> forall i :: 0 <= i < |r| ==> !r[i].Default?)
      && (c.DefaultValue.Some? ==> r != [] && Fragments.Last(r) == Fragments.Default(DefaultText(c.DefaultValue.value)))
  {
  }

  lemma NullClausesPresence(c: ColumnState)
    ensures var r := NullClauses(c);
      && (Fragments.NotNull in r <==> !c.AllowNulls)
      && Fragments.PrimaryKey !in r && Fragments.AutoIncrement !in r && Fragments.Unique !in r
  {
  }

  /** Key clauses before nullability clauses stay in canonical order and keep their last clause. */
  lemma JoinClauses(a: seq<Fragments.Clause>, b: seq<Fragments.Clause>)
    requires Fragments.InCanonicalOrder(a) && Fragments.InCanonicalOrder(b)
    requires forall i :: 0 <= i < |a| ==> Fragments.Rank(a[i]) <= 2
    requires forall i :: 0 <= i < |b| ==> Fragments.Rank(b[i]) >= 3
    ensures Fragments.InCanonicalOrder(a + b)
    ensures b != [] ==> Fragments.Last(a + b) == Fragments.Last(b)
    ensures (forall i :: 0 <= i < |b| ==> !b[i].Default?) ==> forall i :: 0 <= i < |a + b| ==> !(a + b)[i].Default?
  {
    var ab := a + b;
    if forall i :: 0 <= i < |b| ==> !b[i].Default? {
      forall i | 0 <= i < |ab|
        ensures !ab[i].Default?
      {
        if i < |a| {
          assert ab[i] == a[i] && Fragments.Rank(a[i]) <= 2;
        } else {
          assert ab[i] == b[i - |a|];
        }
      }
    }
    forall i, j | 0 <= i < j < |ab|
      ensures Fragments.Rank(ab[i]) < Fragments.Rank(ab[j])
    {
      if j < |a| {
        assert ab[i] == a[i] && ab[j] == a[j];
      } else if i < |a| {
        assert ab[i] == a[i] && ab[j] == b[j - |a|];
      } else {
        assert ab[i] == b[i - |a|] && ab[j] == b[j - |a|];
      }
    }
  }

  /** The clauses of the CREATE TABLE definition. */
  function DefinitionClauses(c: ColumnState): seq<Fragments.Clause>
  {
    KeyClauses(c.IsPK, c.IsAI, c.IsUnique) + NullClauses(c)
  }

  /** The clauses of ADD COLUMN: the key clauses with PRIMARY KEY and UNIQUE switched off. */
  function AddColumnClauses(c: ColumnState): seq<Fragments.Clause>
  {
    KeyClauses(false, c.IsAI, false) + NullClauses(c)
  }

  /**
   * The CREATE TABLE clauses come in the fixed order PRIMARY KEY,
   * AUTOINCREMENT, UNIQUE, NOT NULL, DEFAULT, and DEFAULT, when present, is last.
   */
  lemma DefinitionClausesOrder(c: ColumnState)
    ensures var r := DefinitionClauses(c);
      && Fragments.InCanonicalOrder(r)
      && (c.DefaultValue.None? ==> forall i :: 0 <= i < |r| ==> !r[i].Default?)
      && (c.DefaultValue.Some? ==> r != [] && Fragments.Last(r) == Fragments.Default(DefaultText(c.DefaultValue.value)))
  {
    var keys, nulls := KeyClauses(c.IsPK, c.IsAI, c.IsUnique), NullClauses(c);
    KeyClausesOrder(c.IsPK, c.IsAI, c.IsUnique);
    NullClausesOrder(c);
    JoinClauses(keys, nulls);
  }

  /** Each CREATE TABLE clause is present exactly when its flag is set. */
  lemma DefinitionClausesPresence(c: ColumnState)
    ensures var r := DefinitionClauses(c);
      && (Fragments.PrimaryKey in r <==> c.IsPK)
      && (Fragments.AutoIncrement in r <==> c.IsAI)
      && (Fragments.Unique in r <==> c.IsUnique)
      && (Fragments.NotNull in r <==> !c.AllowNulls)
  {
    KeyClausesPresence(c.IsPK, c.IsAI, c.IsUnique);
    NullClausesPresence(c);
  }

  /** The ADD COLUMN clauses follow the same fixed order, DEFAULT last. */
  lemma AddColumnClausesOrder(c: ColumnState)
    ensures var r := AddColumnClauses(c);
      && Fragments.InCanonicalOrder(r)
      && (c.DefaultValue.None? ==> forall i :: 0 <= i < |r| ==> !r[i].Default?)
      && (c.DefaultValue.Some? ==> r != [] && Fragments.Last(r) == Fragments.Default(DefaultText(c.DefaultValue.value)))
  {
    var keys, nulls := KeyClauses(false, c.IsAI, false), NullClauses(c);
    KeyClausesOrder(false, c.IsAI, false);
    NullClausesOrder(c);
    JoinClauses(keys, nulls);
  }

  /**
   * The ADD COLUMN clauses never include PRIMARY KEY or UNIQUE; AUTOINCREMENT
   * and NOT NULL are present exactly when their flags say so.
   */
  lemma AddColumnClausesPresence(c: ColumnState)
    ensures var r := AddColumnClauses(c);
      && Fragments.PrimaryKey !in r && Fragments.Unique !in r
      && (Fragments.AutoIncrement in r <==> c.IsAI)
      && (Fragments.NotNull in r <==> !c.AllowNulls)
  {
    KeyClausesPresence(false, c.IsAI, false);
    NullClausesPresence(c);
  }

  function DefinitionFragment(c: ColumnState): Fragments.Fragment
  {
    Fragments.Fragment(c.ColumnName, EngineTypeName(c.DbType), DefinitionClauses(c))
  }

  function AddColumnFragment(c: ColumnState): Fragments.Fragment
  {
    Fragments.Fragment(c.ColumnName, EngineTypeName(c.DbType), AddColumnClauses(c))
  }

  const AddColumnPrefix := " ADD COLUMN "

  /** The ADD COLUMN text of a column whose default has already been settled. */
  function AddColumnText(c: ColumnState): string
  {
    AddColumnPrefix + Fragments.FragmentText(AddColumnFragment(c))
  }

  lemma Associate(a: string, b: string, c: string)
    ensures a + b + c == a + (b + c)
  {
  }

  /** The CREATE TABLE fragment text is the head followed by the key clauses, then the null clauses. */
  lemma DefinitionTextSplit(c: ColumnState)
    ensures Fragments.FragmentText(DefinitionFragment(c))
         == c.ColumnName + " " + EngineTypeName(c.DbType) + " "
            + Fragments.ClausesText(KeyClauses(c.IsPK, c.IsAI, c.IsUnique)) + Fragments.ClausesText(NullClauses(c))
  {
    Fragments.AppendClauses(c.ColumnName + " " + EngineTypeName(c.DbType) + " ", KeyClauses(c.IsPK, c.IsAI, c.IsUnique), NullClauses(c));
  }

  /** The ADD COLUMN text read left to right, as a builder appends it. */
  lemma AddColumnTextFlat(c: ColumnState)
    ensures AddColumnText(c)
         == AddColumnPrefix + c.ColumnName + " " + EngineTypeName(c.DbType) + " " + Fragments.ClausesText(AddColumnClauses(c))
  {
    var p, n, t, cs := AddColumnPrefix, c.ColumnName, EngineTypeName(c.DbType), Fragments.ClausesText(AddColumnClauses(c));
    Associate(p, n + " " + t + " ", cs);
    Associate(p, n + " " + t, " ");
    Associate(p, n + " ", t);
    Associate(p, n, " ");
  }

  /**
   * The column as setReasonableDefault leaves it: a DateTime field gets
   * DateTime.MinValue, a numeric column 0, a text column ""; any other
   * column keeps its default.
   */
  function ReasonableDefault(c: ColumnState): (r: ColumnState)
    ensures r == c.(DefaultValue := r.DefaultValue)
    ensures c.NativeType == NativeDateTime ==> r.DefaultValue == Some(MinDateTime)
    ensures c.NativeType != NativeDateTime && IsNumericType(c.DbType) ==> r.DefaultValue == Some(Zero)
    ensures c.NativeType != NativeDateTime && IsTextType(c.DbType) ==> r.DefaultValue == Some(EmptyString)
    ensures c.NativeType != NativeDateTime && !IsNumericType(c.DbType) && !IsTextType(c.DbType) ==> r == c
  {
    if c.NativeType == NativeDateTime then c.(DefaultValue := Some(MinDateTime))
    else if IsNumericType(c.DbType) then c.(DefaultValue := Some(Zero))
    else if IsTextType(c.DbType) then c.(DefaultValue := Some(EmptyString))
    else c
  }

  /**
   * The column as ExportAddColumnAsStatement leaves it: a NOT NULL column
   * without a default gets a reasonable one. Applying it again changes
   * nothing, so a second export renders the same text.
   */
  function WithReasonableDefault(c: ColumnState): (r: ColumnState)
    ensures r == c.(DefaultValue := r.DefaultValue)
    ensures c.AllowNulls || c.DefaultValue.Some? ==> r == c
    ensures r.AllowNulls || r.DefaultValue.Some? || ReasonableDefault(r) == r
    ensures !c.AllowNulls && (c.NativeType == NativeDateTime || IsNumericType(c.DbType) || IsTextType(c.DbType))
            ==> r.DefaultValue.Some?
  {
    if !c.AllowNulls && c.DefaultValue.None? then ReasonableDefault(c) else c
  }

  /** Appends PRIMARY KEY, AUTOINCREMENT and UNIQUE, each when its flag is set. */
  method AppendKeyClauses(sb: string, isPK: bool, isAI: bool, isUnique: bool) returns (r: string)
    ensures r == sb + Fragments.ClausesText(KeyClauses(isPK, isAI, isUnique))
  {
    ghost var keys: seq<Fragments.Clause> := [];
    r := sb;
    assert r == sb + Fragments.ClausesText(keys);
    if isPK {
      Fragments.AppendClause(sb, keys, Fragments.PrimaryKey);
      r, keys := r + "PRIMARY KEY ", keys + [Fragments.PrimaryKey];
    }
    assert keys == Opt(isPK, Fragments.PrimaryKey);
    if isAI {
      Fragments.AppendClause(sb, keys, Fragments.AutoIncrement);
      r, keys := r + "AUTOINCREMENT ", keys + [Fragments.AutoIncrement];
    }
    assert keys == Opt(isPK, Fragments.PrimaryKey) + Opt(isAI, Fragments.AutoIncrement);
    if isUnique {
      Fragments.AppendClause(sb, keys, Fragments.Unique);
      r, keys := r + "UNIQUE ", keys + [Fragments.Unique];
    }
    assert keys == KeyClauses(isPK, isAI, isUnique);
  }

  /** Appends DEFAULT '<v>' when there is a default value. */
  method AppendDefaultClause(sb: string, d: Option<DefaultObject>) returns (r: string)
    ensures r == sb + Fragments.ClausesText(DefaultClauses(d))
  {
    r := sb;
    if d.Some? {
      var value := DefaultText(d.value);
      Fragments.AppendClause(sb, [], Fragments.Default(value));
      r := r + ("DEFAULT '" + value + "'");
    }
  }

  /** Appends NOT NULL when nulls are refused, then DEFAULT '<v>' when there is a default. */
  method AppendNullClauses(sb: string, notNull: bool, d: Option<DefaultObject>) returns (r: string)
    ensures r == sb + Fragments.ClausesText(Opt(notNull, Fragments.NotNull) + DefaultClauses(d))
  {
    r := sb;
    if notNull {
      r := r + "NOT NULL ";
    }
    assert r == sb + Fragments.ClausesText(Opt(notNull, Fragments.NotNull));
    r := AppendDefaultClause(r, d);
    Fragments.AppendClauses(sb, Opt(notNull, Fragments.NotNull), DefaultClauses(d));
  }

  /**
   * A column schema. ExportAddColumnAsStatement may fill in DefaultValue in
   * place; nothing in this model changes the other properties after
   * construction, so they are constants.
   */
  class Column {
    const ColumnName: string
    const DbType: EngineType
    const NativeType: NativeType
    const IsPK: bool
    const IsAI: bool
    const IsUnique: bool
    const AllowNulls: bool
    var DefaultValue: Option<DefaultObject>

    /** The column's current properties. */
    function State(): ColumnState
      reads this
    {
      With(DefaultValue)
    }

    /** The column's properties with d as its default value. */
    function With(d: Option<DefaultObject>): ColumnState
    {
      ColumnState(ColumnName, DbType, NativeType, IsPK, IsAI, IsUnique, AllowNulls, d)
    }

    constructor (s: ColumnState)
      ensures State() == s
    {
      ColumnName, DbType, NativeType := s.ColumnName, s.DbType, s.NativeType;
      IsPK, IsAI, IsUnique := s.IsPK, s.IsAI, s.IsUnique;
      AllowNulls, DefaultValue := s.AllowNulls, s.DefaultValue;
    }

    /**
     * FromInfo: the engine type by MapType, nullability from the type unless
     * AllowNull or (checked last) NotNull says otherwise, the first
     * DefaultValue attribute, and auto-increment for integer primary keys only.
     */
    static method FromInfo(info: FieldInfo) returns (r: Result<Column, MapError>)
      ensures r.Failure? <==> info.Type.Unsupported?
      ensures r.Failure? ==> r.error == NotSupported(info.Type.typeName, info.Name)
      ensures r.Success? ==> fresh(r.value)
      ensures r.Success? ==> var c := r.value.State();
        && c.ColumnName == info.Name
        && c.NativeType == info.Type
        && MapType(info) == Success(c.DbType)
        && (c.IsPK <==> PrimaryKey in info.Attributes)
        && (c.IsUnique <==> Unique in info.Attributes)
        && (c.AllowNulls <==> NotNull !in info.Attributes && (AllowNull in info.Attributes || IsUnboundedType(c.DbType)))
        && (c.IsAI <==> c.IsPK && IsAutoIncrementType(c.DbType))
        && (c.IsAI ==> c.IsPK)
        && c.DefaultValue == FirstDefault(info.Attributes)
    {
      var mapped := MapType(info);
      if mapped.Failure? {
        return Failure(mapped.error);
      }
      var dataType := mapped.value;
      var isKey := PrimaryKey in info.Attributes;
      var allowNulls: bool;
      match dataType {
        case Text | TinyText | MediumText | LongText | Blob | TinyBlob | MediumBlob | LongBlob =>
          allowNulls := true;
        case _ =>
          allowNulls := false;
      }
      if AllowNull in info.Attributes {
        allowNulls := true;
      }
      if NotNull in info.Attributes {
        allowNulls := false;
      }
      var isUnique := Unique in info.Attributes;
      var defVal: Option<DefaultObject> := None;
      var attrs := info.Attributes;
      var i := 0;
      while i < |attrs|
        invariant 0 <= i <= |attrs|
        invariant defVal.None? && FirstDefault(attrs) == FirstDefault(attrs[i..])
      {
        if attrs[i].DefaultValueAttribute? {
          defVal := Some(AttributeObject(attrs[i].shown));
          break;
        }
        assert attrs[i..][1..] == attrs[i + 1..];
        i := i + 1;
      }
      var isAI := isKey && (dataType == Int32 || dataType == Int64 || dataType == UInt32 || dataType == UInt64);
      var c := new Column(ColumnState(info.Name, dataType, info.Type, isKey, isAI, isUnique, allowNulls, defVal));
      return Success(c);
    }

    /** ExportColumnDefinitionAsStatement: validates the name, then appends the parts in order. */
    method ExportColumnDefinitionAsStatement() returns (r: Result<string, NameError>)
      ensures CheckColumnName(ColumnName).Some? ==> r == Failure(CheckColumnName(ColumnName).value)
      ensures CheckColumnName(ColumnName).None? ==> r == Success(Fragments.FragmentText(DefinitionFragment(State())))
    {
      var invalid := CheckColumnName(ColumnName);
      if invalid.Some? {
        return Failure(invalid.value);
      }
      var sb := ColumnName;
      sb := sb + " ";
      sb := sb + EngineTypeName(DbType);
      sb := sb + " ";
      sb := AppendKeyClauses(sb, IsPK, IsAI, IsUnique);
      sb := AppendNullClauses(sb, !AllowNulls, DefaultValue);
      DefinitionTextSplit(State());
      return Success(sb);
    }

    /**
     * ExportAddColumnAsStatement: validates the name, then renders
     * " ADD COLUMN <name> <type> " followed by AUTOINCREMENT, NOT NULL and
     * DEFAULT. A NOT NULL column without a default first gets a reasonable
     * one, in place, so the column keeps it afterwards.
     */
    method ExportAddColumnAsStatement() returns (r: Result<string, NameError>)
      modifies this
      ensures CheckColumnName(ColumnName).Some? ==> r == Failure(CheckColumnName(ColumnName).value) && State() == old(State())
      ensures CheckColumnName(ColumnName).None? ==> State() == WithReasonableDefault(old(State())) && r == Success(AddColumnText(State()))
    {
      var invalid := CheckColumnName(ColumnName);
      if invalid.Some? {
        return Failure(invalid.value);
      }
      var sb := AddColumnPrefix;
      sb := sb + ColumnName;
      sb := sb + " ";
      sb := sb + EngineTypeName(DbType);
      sb := sb + " ";
      // PRIMARY KEY and UNIQUE cannot be added to an existing table.
      sb := AppendKeyClauses(sb, false, IsAI, false);
      ghost var head := sb;
      // A NOT NULL column must carry a default.
      if !AllowNulls {
        sb := sb + "NOT NULL ";
        if DefaultValue.None? {
          SetReasonableDefault();
        }
      }
      assert sb == head + Fragments.ClausesText(Opt(!AllowNulls, Fragments.NotNull));
      sb := AppendDefaultClause(sb, DefaultValue);
      Fragments.AppendClauses(head, Opt(!AllowNulls, Fragments.NotNull), DefaultClauses(DefaultValue));
      Fragments.AppendClauses(AddColumnPrefix + ColumnName + " " + EngineTypeName(DbType) + " ", KeyClauses(false, IsAI, false), NullClauses(State()));
      AddColumnTextFlat(State());
      return Success(sb);
    }

    /**
     * setReasonableDefault: a DateTime field gets DateTime.MinValue, a
     * numeric column 0, a text column ""; any other column keeps its default.
     */
    method SetReasonableDefault()
      modifies this
      ensures State() == ReasonableDefault(old(State()))
    {
      if NativeType == NativeDateTime {
        DefaultValue := Some(MinDateTime);
        return;
      }
      // The switch over the engine type: the numeric cases, then the text cases.
      if IsNumericType(DbType) {
        DefaultValue := Some(Zero);
      } else if IsTextType(DbType) {
        DefaultValue := Some(EmptyString);
      }
    }
  }

  /** Reads the column back from an ADD COLUMN text; None when the text is not one. */
  function DecodeAddColumn(s: string): Option<Fragments.Fragment>
  {
    if Fragments.StartsWith(s, AddColumnPrefix) then Fragments.DecodeFragment(s[|AddColumnPrefix|..]) else None
  }

  /**
   * The CREATE TABLE definition of a column with a valid name reads back as
   * that column's name, its engine type name and its clause list.
   */
  lemma DefinitionRoundTrip(c: ColumnState)
    requires ValidColumnName(c.ColumnName)
    ensures Fragments.DecodeFragment(Fragments.FragmentText(DefinitionFragment(c)))
         == Some(Fragments.Fragment(c.ColumnName, EngineTypeName(c.DbType), DefinitionClauses(c)))
  {
    ValidNameHasNoSpace(c.ColumnName);
    DefinitionClausesOrder(c);
    Fragments.CanonicalOrderPutsDefaultLast(DefinitionClauses(c));
    Fragments.FragmentRoundTrip(DefinitionFragment(c));
  }

  /**
   * The ADD COLUMN text of a column with a valid name reads back as that
   * column's name, type and clauses, and never carries PRIMARY KEY or UNIQUE.
   */
  lemma AddColumnRoundTrip(c: ColumnState)
    requires ValidColumnName(c.ColumnName)
    ensures DecodeAddColumn(AddColumnText(c)) == Some(AddColumnFragment(c))
    ensures Fragments.PrimaryKey !in DecodeAddColumn(AddColumnText(c)).value.clauses
    ensures Fragments.Unique !in DecodeAddColumn(AddColumnText(c)).value.clauses
  {
    ValidNameHasNoSpace(c.ColumnName);
    AddColumnClausesOrder(c);
    AddColumnClausesPresence(c);
    Fragments.CanonicalOrderPutsDefaultLast(AddColumnClauses(c));
    Fragments.FragmentRoundTrip(AddColumnFragment(c));
    var s := AddColumnText(c);
    assert s[..|AddColumnPrefix|] == AddColumnPrefix;
    assert s[|AddColumnPrefix|..] == Fragments.FragmentText(AddColumnFragment(c));
  }

  /**
   * A NOT NULL column of a DateTime, numeric or text type always leaves
   * ExportAddColumnAsStatement with a DEFAULT clause, as the engine requires
   * when a NOT NULL column is added to a table that may hold rows.
   */
  lemma NotNullAddColumnHasDefault(c: ColumnState)
    requires !c.AllowNulls
    requires c.NativeType == NativeDateTime || IsNumericType(c.DbType) || IsTextType(c.DbType)
    ensures var cs := AddColumnClauses(WithReasonableDefault(c));
      cs != [] && Fragments.Last(cs).Default? && Fragments.NotNull in cs
  {
    AddColumnClausesOrder(WithReasonableDefault(c));
    AddColumnClausesPresence(WithReasonableDefault(c));
  }

  /**
   * Exporting the column that ExportAddColumnAsStatement handed back changes
   * it no further and renders the same text.
   */
  lemma AddColumnExportIsStable(c: ColumnState)
    ensures WithReasonableDefault(WithReasonableDefault(c)) == WithReasonableDefault(c)
    ensures AddColumnText(WithReasonableDefault(WithReasonableDefault(c))) == AddColumnText(WithReasonableDefault(c))
  {
  }
}
