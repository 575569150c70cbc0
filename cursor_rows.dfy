/**
 * Decoding one database row into a record (`createSubscriptionInfoFromCursor`).
 *
 * A row is what the cursor holds for one record: each column present in the result set
 * maps to its cell, and a `None` cell is SQL NULL.
 */
module CursorRows {
  import opened Wrappers
  import opened SimInfo
  import opened ContentDelta

  type Row = map<string, Option<Value>>

  /** `getColumnIndexOrThrow` failed: the result set has no column of this name. */
  datatype DecodeError = MissingColumn(columnName: string)

  /** `cursor.getString`: the text in the cell, or null. */
  function GetString(row: Row, columnName: string): Option<string>
    requires columnName in row
  {
    match row[columnName]
    case Some(Text(s)) => Some(s)
    case _ => None
  }

  /** `TextUtils.emptyIfNull`. */
  function EmptyIfNull(s: Option<string>): string {
    if s.Some? then s.value else ""
  }

  /** `cursor.getInt`: the integer in the cell; SQL NULL reads as 0. */
  function GetInt(row: Row, columnName: string): int
    requires columnName in row
  {
    match row[columnName]
    case Some(Int(i)) => i
    case _ => 0
  }

  /** `cursor.getBlob`: the blob in the cell, or null. */
  function GetBlob(row: Row, columnName: string): Option<BlobRef>
    requires columnName in row
  {
    match row[columnName]
    case Some(Blob(b)) => Some(b)
    case _ => None
  }

  /** The fields the decoder reads, in the order it reads their columns. */
  const DECODED_FIELDS: seq<Field> := [
    SubscriptionId, IccId, SimSlotIndex, DisplayName, Ehplmns,
    IsEmbedded, CardString, NativeAccessRules, CarrierId
  ]

  /** The column of the first field of `fields` that the row does not have. */
  function FirstMissing(row: Row, fields: seq<Field>): (m: Option<string>)
    ensures m.None? <==> forall f :: f in fields ==> ColumnName(f) in row
    ensures m.Some? ==> m.value in SUBSCRIPTION_GET_METHOD_MAP && m.value !in row
  {
    if fields == [] then None
    else if ColumnName(fields[0]) !in row then Some(ColumnName(fields[0]))
    else FirstMissing(row, fields[1..])
  }

  /**
   * `createSubscriptionInfoFromCursor`: reads every registered column of the row; NULL
   * text decodes as "", the card id is derived from the card string by
   * `convertToPublicCardId`, and a missing column fails the decoding.
   */
  function CreateSubscriptionInfoFromCursor(row: Row, convertToPublicCardId: string -> int)
    : (r: Result<SubscriptionInfoInternal, DecodeError>)
    ensures r.Success? <==> forall f :: ColumnName(f) in row
    ensures r.Failure? ==> r.error.columnName in SUBSCRIPTION_GET_METHOD_MAP && r.error.columnName !in row
    ensures r.Success? ==> r.value.cardId == convertToPublicCardId(r.value.cardString)
  {
    match FirstMissing(row, DECODED_FIELDS)
    case Some(c) => Failure(MissingColumn(c))
    case None =>
      var cardString := EmptyIfNull(GetString(row, ColumnName(CardString)));
      Success(SubscriptionInfoInternal(
        id := GetInt(row, ColumnName(SubscriptionId)),
        iccId := EmptyIfNull(GetString(row, ColumnName(IccId))),
        simSlotIndex := GetInt(row, ColumnName(SimSlotIndex)),
        displayName := EmptyIfNull(GetString(row, ColumnName(DisplayName))),
        ehplmns := EmptyIfNull(GetString(row, ColumnName(Ehplmns))),
        isEmbedded := GetInt(row, ColumnName(IsEmbedded)),
        cardString := cardString,
        cardId := convertToPublicCardId(cardString),
        nativeAccessRules := GetBlob(row, ColumnName(NativeAccessRules)),
        carrierId := GetInt(row, ColumnName(CarrierId))))
  }

  /**
   * How each registered column decodes: a cell of the column's type is taken as it is, a
   * NULL text cell becomes "", a NULL integer 0 and a NULL blob null.
   */
  lemma DecodedField(row: Row, convertToPublicCardId: string -> int, f: Field)
    requires forall g :: ColumnName(g) in row
    ensures var r := CreateSubscriptionInfoFromCursor(row, convertToPublicCardId);
      && r.Success?
      && (row[ColumnName(f)].Some? && Fits(f, row[ColumnName(f)].value) ==> FieldValue(r.value, f) == row[ColumnName(f)])
      && (row[ColumnName(f)].None? ==>
            FieldValue(r.value, f) == match KindOf(f) case TextKind => Some(Text("")) case IntKind => Some(Int(0)) case BlobKind => None)
  {
    match f
    case SubscriptionId =>
    case IccId =>
    case SimSlotIndex =>
    case DisplayName =>
    case Ehplmns =>
    case IsEmbedded =>
    case CardString =>
    case NativeAccessRules =>
    case CarrierId =>
  }

  /**
   * A cell as a later read returns it: `cursor.getBlob` hands back a newly allocated
   * array, `readBlob`, rather than the array that was written; every other cell reads back
   * as it was written.
   */
  function AsRead(cell: Option<Value>, readBlob: BlobRef): Option<Value> {
    if cell.Some? && cell.value.Blob? then Some(Blob(readBlob)) else cell
  }

  /**
   * The row a read returns for a record inserted with the values `values`: every
   * registered column, NULL where the insert carried no value, a blob read back as the
   * new array `readBlob`.
   */
  function StoredRow(values: ContentValues, readBlob: BlobRef): (row: Row)
    ensures row.Keys == SUBSCRIPTION_GET_METHOD_MAP.Keys
  {
    map c | c in SUBSCRIPTION_GET_METHOD_MAP :: AsRead(if c in values then Some(values[c]) else None, readBlob)
  }

  /**
   * A registered column the insert wrote reads back as written, except a blob, which reads
   * back as the new array; a registered column the insert left out reads back as NULL.
   */
  lemma StoredRowReadsBack(values: ContentValues, readBlob: BlobRef, c: string)
    requires c in SUBSCRIPTION_GET_METHOD_MAP
    ensures c in values && !values[c].Blob? ==> StoredRow(values, readBlob)[c] == Some(values[c])
    ensures c in values && values[c].Blob? ==> StoredRow(values, readBlob)[c] == Some(Blob(readBlob))
    ensures c !in values ==> StoredRow(values, readBlob)[c] == None
  {
  }

  /**
   * Decoding a row whose every column holds a record's value as a read returns it gives
   * that record back, except that its blob, if any, is the newly read array. When that
   * array is not the record's own, the result is the record itself exactly when it has no
   * blob.
   */
  lemma DecodesAsRead(row: Row, r: SubscriptionInfoInternal, readBlob: BlobRef, convertToPublicCardId: string -> int)
    requires forall f :: ColumnName(f) in row && row[ColumnName(f)] == AsRead(FieldValue(r, f), readBlob)
    requires r.cardId == convertToPublicCardId(r.cardString)
    ensures var d := CreateSubscriptionInfoFromCursor(row, convertToPublicCardId);
      && d.Success?
      && (forall f | f != NativeAccessRules :: FieldValue(d.value, f) == FieldValue(r, f))
      && d.value.cardId == r.cardId
      && d.value.nativeAccessRules == (if r.nativeAccessRules.Some? then Some(readBlob) else None)
      && (r.nativeAccessRules != Some(readBlob) ==> (d.value == r <==> r.nativeAccessRules.None?))
  {
    var d := CreateSubscriptionInfoFromCursor(row, convertToPublicCardId);
    forall f ensures FieldValue(d.value, f) == AsRead(FieldValue(r, f), readBlob) {
      DecodedAsReadField(row, r, readBlob, convertToPublicCardId, f);
    }
    ReadBackRecord(d.value, r, readBlob);
  }

  /**
   * A record whose every field is another's as a read returns it, with the same card id,
   * differs from it at most in which array its blob is.
   */
  lemma ReadBackRecord(d: SubscriptionInfoInternal, r: SubscriptionInfoInternal, readBlob: BlobRef)
    requires forall f :: FieldValue(d, f) == AsRead(FieldValue(r, f), readBlob)
    requires d.cardId == r.cardId
    ensures forall f | f != NativeAccessRules :: FieldValue(d, f) == FieldValue(r, f)
    ensures d.nativeAccessRules == (if r.nativeAccessRules.Some? then Some(readBlob) else None)
    ensures r.nativeAccessRules != Some(readBlob) ==> (d == r <==> r.nativeAccessRules.None?)
  {
    assert FieldValue(d, NativeAccessRules) == AsRead(FieldValue(r, NativeAccessRules), readBlob);
    if r.nativeAccessRules.None? {
      FieldsDetermineRecord(d, r);
    }
  }

  /** One field of a row holding a record's values as a read returns them. */
  lemma DecodedAsReadField(row: Row, r: SubscriptionInfoInternal, readBlob: BlobRef, convertToPublicCardId: string -> int, f: Field)
    requires forall g :: ColumnName(g) in row
    requires row[ColumnName(f)] == AsRead(FieldValue(r, f), readBlob)
    ensures var d := CreateSubscriptionInfoFromCursor(row, convertToPublicCardId);
      d.Success? && FieldValue(d.value, f) == AsRead(FieldValue(r, f), readBlob)
  {
    DecodedField(row, convertToPublicCardId, f);
  }

  /**
   * Reading back the row written by an insert gives the inserted record, provided its
   * card id is the one derived from its card string, except that its blob is the newly
   * read array; so the record comes back unchanged exactly when it has no blob.
   */
  lemma InsertedRecordDecodesBack(r: SubscriptionInfoInternal, readBlob: BlobRef, convertToPublicCardId: string -> int)
    requires r.cardId == convertToPublicCardId(r.cardString)
    ensures var d := CreateSubscriptionInfoFromCursor(StoredRow(Delta(None, r), readBlob), convertToPublicCardId);
      && d.Success?
      && (forall f | f != NativeAccessRules :: FieldValue(d.value, f) == FieldValue(r, f))
      && d.value.cardId == r.cardId
      && d.value.nativeAccessRules == (if r.nativeAccessRules.Some? then Some(readBlob) else None)
      && (r.nativeAccessRules != Some(readBlob) ==> (d.value == r <==> r.nativeAccessRules.None?))
  {
    var row := StoredRow(Delta(None, r), readBlob);
    forall f ensures ColumnName(f) in row && row[ColumnName(f)] == AsRead(FieldValue(r, f), readBlob) {
      DeltaContents(None, r, f);
    }
    DecodesAsRead(row, r, readBlob, convertToPublicCardId);
  }

  /**
   * The insert sends the `_id` column too: it carries the caller's record id, which for a
   * new subscription is not yet a valid one.
   */
  lemma InsertCarriesCallerId(r: SubscriptionInfoInternal)
    ensures "_id" in Delta(None, r) && Delta(None, r)["_id"] == Int(r.id)
  {
    DeltaContents(None, r, SubscriptionId);
  }

  /**
   * Once the database has put the assigned row index into the `_id` cell, reading back the
   * stored row gives the entry the insert caches (the record with that index as its id),
   * except that its blob is the newly read array.
   */
  lemma InsertedRowDecodesToCachedEntry(r: SubscriptionInfoInternal, rowIndex: int, readBlob: BlobRef, convertToPublicCardId: string -> int)
    requires r.cardId == convertToPublicCardId(r.cardString)
    ensures var cached := WithField(r, SubscriptionId, Int(rowIndex));
      var d := CreateSubscriptionInfoFromCursor(StoredRow(Delta(None, r), readBlob)["_id" := Some(Int(rowIndex))], convertToPublicCardId);
      && d.Success?
      && (forall f | f != NativeAccessRules :: FieldValue(d.value, f) == FieldValue(cached, f))
      && d.value.cardId == cached.cardId
      && d.value.nativeAccessRules == (if r.nativeAccessRules.Some? then Some(readBlob) else None)
      && (r.nativeAccessRules != Some(readBlob) ==> (d.value == cached <==> r.nativeAccessRules.None?))
  {
    var cached := WithField(r, SubscriptionId, Int(rowIndex));
    var row := StoredRow(Delta(None, r), readBlob)["_id" := Some(Int(rowIndex))];
    forall f ensures ColumnName(f) in row && row[ColumnName(f)] == AsRead(FieldValue(cached, f), readBlob) {
      StoredRowCellWithRowIndex(r, rowIndex, readBlob, f);
    }
    DecodesAsRead(row, cached, readBlob, convertToPublicCardId);
  }

  /** One cell, as read back, of the inserted row once the assigned row index is in its `_id` cell. */
  lemma StoredRowCellWithRowIndex(r: SubscriptionInfoInternal, rowIndex: int, readBlob: BlobRef, f: Field)
    ensures var row := StoredRow(Delta(None, r), readBlob)["_id" := Some(Int(rowIndex))];
      && ColumnName(f) in row
      && row[ColumnName(f)] == AsRead(FieldValue(WithField(r, SubscriptionId, Int(rowIndex)), f), readBlob)
  {
    if f != SubscriptionId {
      DeltaContents(None, r, f);
    }
  }
}
