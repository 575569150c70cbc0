/**
 * The delta computer (`createDeltaContentValues`): the column/value pairs in which a new
 * record differs from the old one, which is what gets written to the database.
 */
module ContentDelta {
  import opened Wrappers
  import opened SimInfo

  /** A `ContentValues`: column name to the non-null value to write. */
  type ContentValues = map<string, Value>

  /**
   * Whether the delta keeps `columnName`: the new record's value there is non-null and
   * differs from the old record's, where a missing old record reads as null.
   */
  predicate Differs(oldInfo: Option<SubscriptionInfoInternal>, newInfo: SubscriptionInfoInternal, columnName: string) {
    var newValue := GetSubscriptionInfoFieldByColumnName(newInfo, columnName);
    var oldValue := if oldInfo.Some? then GetSubscriptionInfoFieldByColumnName(oldInfo.value, columnName) else None;
    newValue.Some? && oldValue != newValue
  }

  /** The delta restricted to the columns of `columns`. */
  function DeltaOver(columns: seq<string>, oldInfo: Option<SubscriptionInfoInternal>, newInfo: SubscriptionInfoInternal): (d: ContentValues)
    ensures forall c :: c in d <==> c in columns && Differs(oldInfo, newInfo, c)
    ensures forall c :: c in d ==> GetSubscriptionInfoFieldByColumnName(newInfo, c) == Some(d[c])
  {
    if columns == [] then map[]
    else
      var c := columns[|columns| - 1];
      var d := DeltaOver(columns[..|columns| - 1], oldInfo, newInfo);
      if Differs(oldInfo, newInfo, c) then d[c := GetSubscriptionInfoFieldByColumnName(newInfo, c).value] else d
  }

  /** Extending the columns by the next one adds that column when it differs. */
  lemma DeltaOverPrefixStep(columns: seq<string>, i: nat, oldInfo: Option<SubscriptionInfoInternal>, newInfo: SubscriptionInfoInternal)
    requires i < |columns|
    ensures DeltaOver(columns[..i + 1], oldInfo, newInfo) ==
              if Differs(oldInfo, newInfo, columns[i])
              then DeltaOver(columns[..i], oldInfo, newInfo)[columns[i] := GetSubscriptionInfoFieldByColumnName(newInfo, columns[i]).value]
              else DeltaOver(columns[..i], oldInfo, newInfo)
  {
    assert columns[..i + 1][..i] == columns[..i];
  }

  /** The delta over every column of the table. */
  function Delta(oldInfo: Option<SubscriptionInfoInternal>, newInfo: SubscriptionInfoInternal): ContentValues {
    DeltaOver(ALL_COLUMNS, oldInfo, newInfo)
  }

  /**
   * `createDeltaContentValues`: walks every column of the table and keeps those whose new
   * value is non-null and differs from the old one.
   */
  method CreateDeltaContentValues(oldInfo: Option<SubscriptionInfoInternal>, newInfo: SubscriptionInfoInternal)
    returns (delta: ContentValues)
    ensures delta == Delta(oldInfo, newInfo)
  {
    delta := map[];
    var i := 0;
    while i < |ALL_COLUMNS|
      invariant 0 <= i <= |ALL_COLUMNS|
      invariant delta == DeltaOver(ALL_COLUMNS[..i], oldInfo, newInfo)
    {
      var columnName := ALL_COLUMNS[i];
      var newValue := GetSubscriptionInfoFieldByColumnName(newInfo, columnName);
      if newValue.Some? {
        var oldValue: Option<Value> := None;
        if oldInfo.Some? {
          oldValue := GetSubscriptionInfoFieldByColumnName(oldInfo.value, columnName);
        }
        if oldValue != newValue {
          delta := delta[columnName := newValue.value];
        }
      }
      DeltaOverPrefixStep(ALL_COLUMNS, i, oldInfo, newInfo);
      i := i + 1;
    }
    assert ALL_COLUMNS[..i] == ALL_COLUMNS;
  }

  /**
   * The delta holds exactly the columns whose new value is non-null and differs from the
   * old one, each with its new value; a column with no getter never appears.
   */
  lemma DeltaContents(oldInfo: Option<SubscriptionInfoInternal>, newInfo: SubscriptionInfoInternal, f: Field)
    ensures ColumnName(f) in Delta(oldInfo, newInfo) <==>
              FieldValue(newInfo, f).Some? && (oldInfo.None? || FieldValue(oldInfo.value, f) != FieldValue(newInfo, f))
    ensures ColumnName(f) in Delta(oldInfo, newInfo) ==> Some(Delta(oldInfo, newInfo)[ColumnName(f)]) == FieldValue(newInfo, f)
    ensures forall c :: c in Delta(oldInfo, newInfo) ==> c in SUBSCRIPTION_GET_METHOD_MAP
  {
  }

  /** Against no old record the delta is every non-null registered column of the new one. */
  lemma DeltaAgainstNothing(newInfo: SubscriptionInfoInternal, c: string)
    ensures c in Delta(None, newInfo) <==>
              c in SUBSCRIPTION_GET_METHOD_MAP && FieldValue(newInfo, SUBSCRIPTION_GET_METHOD_MAP[c]).Some?
  {
    if c in SUBSCRIPTION_GET_METHOD_MAP {
      RegisteredColumn(c);
    }
  }

  /** A record compared with itself yields an empty delta. */
  lemma DeltaWithItself(r: SubscriptionInfoInternal)
    ensures Delta(Some(r), r) == map[]
  {
    var d := Delta(Some(r), r);
    assert d.Keys == {};
  }

  /**
   * The delta against an old record is empty exactly when every non-null field of the new
   * record equals the old one's.
   */
  lemma DeltaEmptyIff(a: SubscriptionInfoInternal, b: SubscriptionInfoInternal)
    ensures Delta(Some(a), b) == map[] <==> forall f :: FieldValue(b, f).Some? ==> FieldValue(a, f) == FieldValue(b, f)
  {
    var d := Delta(Some(a), b);
    if d == map[] {
      forall f | FieldValue(b, f).Some? ensures FieldValue(a, f) == FieldValue(b, f) {
        assert ColumnName(f) !in d;
      }
    } else {
      var c :| c in d;
      RegisteredColumn(c);
    }
  }

  /**
   * Changing one field yields a one-column delta holding the new value: the write a field
   * setter queues is the delta between the cached record and its replacement.
   */
  lemma DeltaOfOneField(r: SubscriptionInfoInternal, f: Field, v: Value)
    requires Fits(f, v) && FieldValue(r, f) != Some(v)
    ensures Delta(Some(r), WithField(r, f, v)) == map[ColumnName(f) := v]
  {
    var r' := WithField(r, f, v);
    var d := Delta(Some(r), r');
    forall c | c in d ensures c == ColumnName(f) {
      RegisteredColumn(c);
      var g := SUBSCRIPTION_GET_METHOD_MAP[c];
      LookupByColumnName(r, g);
      LookupByColumnName(r', g);
    }
    LookupByColumnName(r, f);
    LookupByColumnName(r', f);
    assert ColumnName(f) in d;
    assert d.Keys == {ColumnName(f)};
  }
}
