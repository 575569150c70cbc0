/**
 * The subscription record (`SubscriptionInfoInternal`), the columns of the SimInfo table
 * and the fixed table that maps a column name to the record's getter
 * (`SUBSCRIPTION_GET_METHOD_MAP`).
 *
 * Only a representative subset of the record's fields is modelled: text columns, integer
 * columns, a boolean column stored as 0/1, a nullable blob column, and the card id, which
 * lives in the record but has no column of its own.
 */
module SimInfo {
  import opened Wrappers

  /**
   * A Java `byte[]` object. `Objects.equals` compares arrays by reference, so a blob is
   * modelled by its identity alone; its contents play no part in any comparison.
   */
  type BlobRef = nat

  /** A non-null value stored in or read from a column. */
  datatype Value = Text(s: string) | Int(i: int) | Blob(ref: BlobRef)

  /** The storage type of a column. */
  datatype Kind = TextKind | IntKind | BlobKind

  /** The persisted fields of the record that this model keeps. */
  datatype Field =
    | SubscriptionId
    | IccId
    | SimSlotIndex
    | DisplayName
    | Ehplmns
    | IsEmbedded
    | CardString
    | NativeAccessRules
    | CarrierId

  /**
   * One record of the subscription table. `isEmbedded` is the raw 0/1 integer the
   * database stores; `ehplmns` is the comma-joined list; `nativeAccessRules` is the
   * encoded rules blob and may be null; `cardId` is derived from `cardString` and is
   * never written to the database.
   */
  datatype SubscriptionInfoInternal = SubscriptionInfoInternal(
    id: int,
    iccId: string,
    simSlotIndex: int,
    displayName: string,
    ehplmns: string,
    isEmbedded: int,
    cardString: string,
    cardId: int,
    nativeAccessRules: Option<BlobRef>,
    carrierId: int)

  /** The registry: each column with a getter, keyed by its SimInfo column name. */
  const SUBSCRIPTION_GET_METHOD_MAP: map<string, Field> := map[
    "_id" := SubscriptionId,
    "icc_id" := IccId,
    "sim_id" := SimSlotIndex,
    "display_name" := DisplayName,
    "ehplmns" := Ehplmns,
    "is_embedded" := IsEmbedded,
    "card_id" := CardString,
    "access_rules" := NativeAccessRules,
    "carrier_id" := CarrierId
  ]

  /**
   * The columns `createDeltaContentValues` scans (`SimInfo.getAllColumns()`), restricted to
   * the modelled columns plus the deprecated `mcc` and `mnc`, which have no getter.
   */
  const ALL_COLUMNS: seq<string> := [
    "_id", "icc_id", "sim_id", "display_name", "mcc", "mnc",
    "ehplmns", "is_embedded", "card_id", "access_rules", "carrier_id"
  ]

  /** Every registered column is the column of the field it maps to. */
  lemma RegisteredColumn(c: string)
    requires c in SUBSCRIPTION_GET_METHOD_MAP
    ensures c == ColumnName(SUBSCRIPTION_GET_METHOD_MAP[c])
  {
  }

  /** The SimInfo column that stores a field. */
  function ColumnName(f: Field): (c: string)
    ensures c in SUBSCRIPTION_GET_METHOD_MAP && SUBSCRIPTION_GET_METHOD_MAP[c] == f
    ensures c in ALL_COLUMNS
  {
    match f
    case SubscriptionId => "_id"
    case IccId => "icc_id"
    case SimSlotIndex => "sim_id"
    case DisplayName => "display_name"
    case Ehplmns => "ehplmns"
    case IsEmbedded => "is_embedded"
    case CardString => "card_id"
    case NativeAccessRules => "access_rules"
    case CarrierId => "carrier_id"
  }

  function KindOf(f: Field): Kind {
    match f
    case IccId | DisplayName | Ehplmns | CardString => TextKind
    case NativeAccessRules => BlobKind
    case SubscriptionId | SimSlotIndex | IsEmbedded | CarrierId => IntKind
  }

  /** Whether `v` has the Java type of field `f`'s getter and builder setter. */
  predicate Fits(f: Field, v: Value) {
    match KindOf(f)
    case TextKind => v.Text?
    case IntKind => v.Int?
    case BlobKind => v.Blob?
  }

  /** The getter of field `f`; `None` when it returns null (only the blob can). */
  function FieldValue(r: SubscriptionInfoInternal, f: Field): (v: Option<Value>)
    ensures v.Some? ==> Fits(f, v.value)
    ensures v.None? <==> f == NativeAccessRules && r.nativeAccessRules.None?
  {
    match f
    case SubscriptionId => Some(Int(r.id))
    case IccId => Some(Text(r.iccId))
    case SimSlotIndex => Some(Int(r.simSlotIndex))
    case DisplayName => Some(Text(r.displayName))
    case Ehplmns => Some(Text(r.ehplmns))
    case IsEmbedded => Some(Int(r.isEmbedded))
    case CardString => Some(Text(r.cardString))
    case NativeAccessRules =>
      if r.nativeAccessRules.Some? then Some(Blob(r.nativeAccessRules.value)) else None
    case CarrierId => Some(Int(r.carrierId))
  }

  /**
   * `getSubscriptionInfoFieldByColumnName`: the getter registered for `columnName`
   * applied to `r`, or null when the column has no getter.
   */
  function GetSubscriptionInfoFieldByColumnName(r: SubscriptionInfoInternal, columnName: string): (v: Option<Value>)
    ensures v.Some? ==> columnName in SUBSCRIPTION_GET_METHOD_MAP
  {
    if columnName in SUBSCRIPTION_GET_METHOD_MAP then FieldValue(r, SUBSCRIPTION_GET_METHOD_MAP[columnName])
    else None
  }

  /** Looking a field up by its column name gives that field's value. */
  lemma LookupByColumnName(r: SubscriptionInfoInternal, f: Field)
    ensures GetSubscriptionInfoFieldByColumnName(r, ColumnName(f)) == FieldValue(r, f)
  {
  }

  /**
   * The builder copy `new Builder(r).setXxx(v).build()`: a record equal to `r` except in
   * field `f`, which now holds `v`.
   */
  function WithField(r: SubscriptionInfoInternal, f: Field, v: Value): (r': SubscriptionInfoInternal)
    requires Fits(f, v)
    ensures FieldValue(r', f) == Some(v)
    ensures forall g :: g != f ==> FieldValue(r', g) == FieldValue(r, g)
    ensures r'.cardId == r.cardId
  {
    match f
    case SubscriptionId => r.(id := v.i)
    case IccId => r.(iccId := v.s)
    case SimSlotIndex => r.(simSlotIndex := v.i)
    case DisplayName => r.(displayName := v.s)
    case Ehplmns => r.(ehplmns := v.s)
    case IsEmbedded => r.(isEmbedded := v.i)
    case CardString => r.(cardString := v.s)
    case NativeAccessRules => r.(nativeAccessRules := Some(v.ref))
    case CarrierId => r.(carrierId := v.i)
  }

  /** Two records with the same card id and the same value in every field are equal. */
  lemma FieldsDetermineRecord(a: SubscriptionInfoInternal, b: SubscriptionInfoInternal)
    requires a.cardId == b.cardId
    requires forall f :: FieldValue(a, f) == FieldValue(b, f)
    ensures a == b
  {
    assert FieldValue(a, SubscriptionId) == FieldValue(b, SubscriptionId);
    assert FieldValue(a, IccId) == FieldValue(b, IccId);
    assert FieldValue(a, SimSlotIndex) == FieldValue(b, SimSlotIndex);
    assert FieldValue(a, DisplayName) == FieldValue(b, DisplayName);
    assert FieldValue(a, Ehplmns) == FieldValue(b, Ehplmns);
    assert FieldValue(a, IsEmbedded) == FieldValue(b, IsEmbedded);
    assert FieldValue(a, CardString) == FieldValue(b, CardString);
    assert FieldValue(a, NativeAccessRules) == FieldValue(b, NativeAccessRules);
    assert FieldValue(a, CarrierId) == FieldValue(b, CarrierId);
  }
}
