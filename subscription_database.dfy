/**
 * The subscription database manager: a full in-memory cache of the subscription table,
 * kept in step with the writes it sends to the database.
 *
 * Every public method of the manager runs under one write lock, so each is modelled as an
 * atomic step. A database update posted to the handler thread is modelled as a write
 * appended to `pendingWrites`; the synchronous insert records the values it sends in
 * `insertRequests` and takes the row index the database hands back as an input.
 */
module SubscriptionDatabase {
  import opened Wrappers
  import opened SimInfo
  import opened ContentDelta
  import opened CursorRows

  /** Subscription id to the cached record. */
  type Cache = map<int, SubscriptionInfoInternal>

  /** An update posted to the handler: write `values` into the row of `subId`. */
  datatype PendingWrite = PendingWrite(subId: int, values: ContentValues)

  /** The exceptions the manager's methods throw. */
  datatype Error =
    | NotANewSubscription          // insert of a record whose id is already valid
    | SubscriptionDoesNotExist     // update of a record that is not cached
    | NullSubscriptionInfo         // card id set on an id that is not cached
    | Decode(cause: DecodeError)   // a row without an expected column during the load

  /** Every cached record carries the id it is cached under. */
  predicate KeyedById(cache: Cache) {
    forall k | k in cache :: cache[k].id == k
  }

  /** What one field setter does: the cache after it, and the writes it queues. */
  datatype SetterEffect = SetterEffect(cache: Cache, writes: seq<PendingWrite>)

  /**
   * The field setter protocol (`writeDatabaseAndCacheHelper`) for a field other than the
   * key. An id that is not cached, or a value equal to the cached one, changes nothing and
   * queues nothing. Otherwise only that id's record changes, and only in that field, and
   * one write is queued: the one-column delta between the old record and the new.
   */
  function Setter(cache: Cache, subId: int, field: Field, newValue: Value): (e: SetterEffect)
    requires Fits(field, newValue) && field != SubscriptionId
    ensures subId !in cache ==> e == SetterEffect(cache, [])
    ensures subId in cache && FieldValue(cache[subId], field) == Some(newValue) ==> e == SetterEffect(cache, [])
    ensures subId in cache && FieldValue(cache[subId], field) != Some(newValue) ==>
              && e.cache.Keys == cache.Keys
              && (forall k | k in cache && k != subId :: e.cache[k] == cache[k])
              && FieldValue(e.cache[subId], field) == Some(newValue)
              && (forall g | g != field :: FieldValue(e.cache[subId], g) == FieldValue(cache[subId], g))
              && e.cache[subId].cardId == cache[subId].cardId
              && e.writes == [PendingWrite(subId, map[ColumnName(field) := newValue])]
              && e.writes[0].values == Delta(Some(cache[subId]), e.cache[subId])
    ensures KeyedById(cache) ==> KeyedById(e.cache)
  {
    if subId in cache && GetSubscriptionInfoFieldByColumnName(cache[subId], ColumnName(field)) != Some(newValue) then
      var updated := WithField(cache[subId], field, newValue);
      DeltaOfOneField(cache[subId], field, newValue);
      SetterEffect(cache[subId := updated], [PendingWrite(subId, map[ColumnName(field) := newValue])])
    else
      SetterEffect(cache, [])
  }

  /** The effect of calling the same setter with each of `values` in turn. */
  function SetterRun(cache: Cache, subId: int, field: Field, values: seq<Value>): SetterEffect
    requires forall v | v in values :: Fits(field, v)
    requires field != SubscriptionId
  {
    if values == [] then SetterEffect(cache, [])
    else
      var first := Setter(cache, subId, field, values[0]);
      var rest := SetterRun(first.cache, subId, field, values[1..]);
      SetterEffect(rest.cache, first.writes + rest.writes)
  }

  /** How many of `values` differ from the value before them (`current` before the first). */
  function ChangeCount(current: Option<Value>, values: seq<Value>): nat
    decreases |values|
  {
    if values == [] then 0
    else (if Some(values[0]) != current then 1 else 0) + ChangeCount(Some(values[0]), values[1..])
  }

  /** Repeating a setter with the value it just set is a no-op. */
  lemma SetterIdempotent(cache: Cache, subId: int, field: Field, v: Value)
    requires Fits(field, v) && field != SubscriptionId
    ensures var once := Setter(cache, subId, field, v);
      Setter(once.cache, subId, field, v) == SetterEffect(once.cache, [])
  {
  }

  /**
   * Worked example: renaming subscription 7 from "Old" to "Carrier A" queues one write of
   * the display name column; renaming it again to "Carrier A" queues nothing.
   */
  lemma DisplayNameExample(cache: Cache)
    requires 7 in cache && cache[7].displayName == "Old"
    ensures var once := Setter(cache, 7, DisplayName, Text("Carrier A"));
      && once.cache[7].displayName == "Carrier A"
      && once.writes == [PendingWrite(7, map["display_name" := Text("Carrier A")])]
      && Setter(once.cache, 7, DisplayName, Text("Carrier A")).writes == []
  {
    assert FieldValue(cache[7], DisplayName) != Some(Text("Carrier A"));
  }

  /** Setters on an id that is not cached never change the cache or queue a write. */
  lemma {:induction false} SetterRunOnAbsentId(cache: Cache, subId: int, field: Field, values: seq<Value>)
    requires forall v | v in values :: Fits(field, v)
    requires field != SubscriptionId
    requires subId !in cache
    ensures SetterRun(cache, subId, field, values) == SetterEffect(cache, [])
  {
    if values != [] {
      SetterRunOnAbsentId(cache, subId, field, values[1..]);
    }
  }

  /**
   * After a run of setter calls on one field of a cached record, the field holds the last
   * value set, other records are untouched, and exactly one one-column write was queued
   * per call that actually changed the value.
   */
  lemma {:induction false} LastValueWins(cache: Cache, subId: int, field: Field, values: seq<Value>)
    requires forall v | v in values :: Fits(field, v)
    requires field != SubscriptionId
    requires subId in cache && values != []
    ensures var e := SetterRun(cache, subId, field, values);
      && e.cache.Keys == cache.Keys
      && FieldValue(e.cache[subId], field) == Some(values[|values| - 1])
      && (forall k | k in cache && k != subId :: e.cache[k] == cache[k])
      && |e.writes| == ChangeCount(FieldValue(cache[subId], field), values)
      && (forall w | w in e.writes :: w.subId == subId && w.values.Keys == {ColumnName(field)})
  {
    var first := Setter(cache, subId, field, values[0]);
    if |values| > 1 {
      LastValueWins(first.cache, subId, field, values[1..]);
      assert values[1..][|values[1..]| - 1] == values[|values| - 1];
    }
  }

  /**
   * The manager. `cache` is `mAllSubscriptionInfoInternalCache`; `pendingWrites` are the
   * updates posted to the handler thread, oldest first; `insertRequests` are the values of
   * the synchronous inserts, oldest first.
   */
  class SubscriptionDatabaseManager {
    var cache: Cache
    var pendingWrites: seq<PendingWrite>
    var insertRequests: seq<ContentValues>

    /** `SubscriptionManager.isValidSubscriptionId`, a collaborator outside this model. */
    const isValidSubscriptionId: int -> bool
    /** `UiccController.convertToPublicCardId`, a collaborator outside this model. */
    const convertToPublicCardId: string -> int

    ghost predicate Valid()
      reads this
    {
      KeyedById(cache)
    }

    /**
     * Creates the manager and loads the whole table into the cache; `rows` is what the
     * query returns (no rows when the cursor is null), all with the cursor's column set.
     */
    constructor (rows: seq<Row>, isValidSubscriptionId: int -> bool, convertToPublicCardId: string -> int)
      requires SameColumns(rows)
      ensures Valid()
      ensures this.isValidSubscriptionId == isValidSubscriptionId
      ensures this.convertToPublicCardId == convertToPublicCardId
      ensures cache == CacheOf(LoadedRecords(DecodeRows(rows, convertToPublicCardId)))
      ensures pendingWrites == [] && insertRequests == []
    {
      this.isValidSubscriptionId := isValidSubscriptionId;
      this.convertToPublicCardId := convertToPublicCardId;
      cache := map[];
      pendingWrites := [];
      insertRequests := [];
      new;
      var _ := LoadFromDatabase(rows);
    }

    /** `getSubscriptionInfoInternal`: the cached record for `subId`, or null. */
    function GetSubscriptionInfoInternal(subId: int): (r: Option<SubscriptionInfoInternal>)
      reads this
      ensures r.Some? <==> subId in cache
      ensures r.Some? ==> r.value == cache[subId]
      ensures Valid() && r.Some? ==> r.value.id == subId
    {
      if subId in cache then Some(cache[subId]) else None
    }

    /**
     * `insertSubscriptionInfo`. A record whose id is already valid is rejected before
     * anything happens. Otherwise its full delta is inserted synchronously; the database
     * answers with `insertedRowIndex` (-1 on failure), which is returned, and only a
     * positive index puts the record, with that id, into the cache.
     */
    method InsertSubscriptionInfo(subInfo: SubscriptionInfoInternal, insertedRowIndex: int)
      returns (r: Result<int, Error>)
      requires Valid()
      modifies this
      ensures Valid()
      ensures pendingWrites == old(pendingWrites)
      ensures isValidSubscriptionId(subInfo.id) ==>
                r == Failure(NotANewSubscription) && cache == old(cache) && insertRequests == old(insertRequests)
      ensures !isValidSubscriptionId(subInfo.id) ==>
                && r == Success(insertedRowIndex)
                && insertRequests == old(insertRequests) + [Delta(None, subInfo)]
                && cache == if insertedRowIndex > 0
                            then old(cache)[insertedRowIndex := WithField(subInfo, SubscriptionId, Int(insertedRowIndex))]
                            else old(cache)
    {
      if isValidSubscriptionId(subInfo.id) {
        return Failure(NotANewSubscription);
      }
      var values := CreateDeltaContentValues(None, subInfo);
      insertRequests := insertRequests + [values];
      var subId := insertedRowIndex;
      if subId > 0 {
        cache := cache[subId := WithField(subInfo, SubscriptionId, Int(subId))];
      }
      r := Success(subId);
    }

    /** `updateDatabaseAsync`: posts a write of `values` into the row of `subId`. */
    method UpdateDatabaseAsync(subId: int, values: ContentValues)
      modifies this`pendingWrites
      ensures pendingWrites == old(pendingWrites) + [PendingWrite(subId, values)]
    {
      pendingWrites := pendingWrites + [PendingWrite(subId, values)];
    }

    /** `writeDatabaseAndCacheHelper`: the field setter protocol, see `Setter`. */
    method WriteDatabaseAndCacheHelper(subId: int, field: Field, newValue: Value)
      requires Valid() && Fits(field, newValue) && field != SubscriptionId
      modifies this
      ensures Valid()
      ensures cache == Setter(old(cache), subId, field, newValue).cache
      ensures pendingWrites == old(pendingWrites) + Setter(old(cache), subId, field, newValue).writes
      ensures insertRequests == old(insertRequests)
    {
      if subId in cache {
        var subInfoCache := cache[subId];
        var columnName := ColumnName(field);
        if GetSubscriptionInfoFieldByColumnName(subInfoCache, columnName) != Some(newValue) {
          cache := cache[subId := WithField(subInfoCache, field, newValue)];
          UpdateDatabaseAsync(subId, map[columnName := newValue]);
        }
      }
    }

    /**
     * `updateSubscription`: throws when the record's id is not cached; otherwise the cache
     * entry becomes exactly the given record and the delta against the old one is queued,
     * even when it is empty.
     */
    method UpdateSubscription(subInfo: SubscriptionInfoInternal) returns (r: Outcome<Error>)
      requires Valid()
      modifies this
      ensures Valid()
      ensures insertRequests == old(insertRequests)
      ensures subInfo.id !in old(cache) ==>
                r == Fail(SubscriptionDoesNotExist) && cache == old(cache) && pendingWrites == old(pendingWrites)
      ensures subInfo.id in old(cache) ==>
                && r == Pass
                && cache == old(cache)[subInfo.id := subInfo]
                && pendingWrites == old(pendingWrites) + [PendingWrite(subInfo.id, Delta(Some(old(cache)[subInfo.id]), subInfo))]
    {
      var subId := subInfo.id;
      if subId !in cache {
        return Fail(SubscriptionDoesNotExist);
      }
      var subInfoCache := cache[subId];
      cache := cache[subId := subInfo];
      var delta := CreateDeltaContentValues(Some(subInfoCache), subInfo);
      UpdateDatabaseAsync(subId, delta);
      r := Pass;
    }

    /** `setIccId`. */
    method SetIccId(subId: int, iccId: string)
      requires Valid()
      modifies this
      ensures Valid() && insertRequests == old(insertRequests)
      ensures cache == Setter(old(cache), subId, IccId, Text(iccId)).cache
      ensures pendingWrites == old(pendingWrites) + Setter(old(cache), subId, IccId, Text(iccId)).writes
    {
      WriteDatabaseAndCacheHelper(subId, IccId, Text(iccId));
    }

    /** `setSimSlotIndex`. */
    method SetSimSlotIndex(subId: int, simSlotIndex: int)
      requires Valid()
      modifies this
      ensures Valid() && insertRequests == old(insertRequests)
      ensures cache == Setter(old(cache), subId, SimSlotIndex, Int(simSlotIndex)).cache
      ensures pendingWrites == old(pendingWrites) + Setter(old(cache), subId, SimSlotIndex, Int(simSlotIndex)).writes
    {
      WriteDatabaseAndCacheHelper(subId, SimSlotIndex, Int(simSlotIndex));
    }

    /** `setDisplayName`. */
    method SetDisplayName(subId: int, displayName: string)
      requires Valid()
      modifies this
      ensures Valid() && insertRequests == old(insertRequests)
      ensures cache == Setter(old(cache), subId, DisplayName, Text(displayName)).cache
      ensures pendingWrites == old(pendingWrites) + Setter(old(cache), subId, DisplayName, Text(displayName)).writes
    {
      WriteDatabaseAndCacheHelper(subId, DisplayName, Text(displayName));
    }

    /** `setEhplmns`; `joinedEhplmns` is the comma-joined list `TextUtils.join` produces. */
    method SetEhplmns(subId: int, joinedEhplmns: string)
      requires Valid()
      modifies this
      ensures Valid() && insertRequests == old(insertRequests)
      ensures cache == Setter(old(cache), subId, Ehplmns, Text(joinedEhplmns)).cache
      ensures pendingWrites == old(pendingWrites) + Setter(old(cache), subId, Ehplmns, Text(joinedEhplmns)).writes
    {
      WriteDatabaseAndCacheHelper(subId, Ehplmns, Text(joinedEhplmns));
    }

    /** `setEmbedded`: the boolean is stored as 1 or 0. */
    method SetEmbedded(subId: int, isEmbedded: bool)
      requires Valid()
      modifies this
      ensures Valid() && insertRequests == old(insertRequests)
      ensures cache == Setter(old(cache), subId, IsEmbedded, Int(if isEmbedded then 1 else 0)).cache
      ensures pendingWrites == old(pendingWrites) + Setter(old(cache), subId, IsEmbedded, Int(if isEmbedded then 1 else 0)).writes
      ensures subId in cache ==> cache[subId].isEmbedded == if isEmbedded then 1 else 0
    {
      WriteDatabaseAndCacheHelper(subId, IsEmbedded, Int(if isEmbedded then 1 else 0));
    }

    /**
     * `setNativeAccessRules`; `encodedRules` is the blob `UiccAccessRule.encodeRules`
     * produces. That is a newly allocated array, so it is never the cached one, and a cached
     * id always gets a new entry and one write.
     */
    method SetNativeAccessRules(subId: int, encodedRules: BlobRef)
      requires Valid()
      requires subId in cache ==> cache[subId].nativeAccessRules != Some(encodedRules)
      modifies this
      ensures Valid() && insertRequests == old(insertRequests)
      ensures cache == Setter(old(cache), subId, NativeAccessRules, Blob(encodedRules)).cache
      ensures pendingWrites == old(pendingWrites) + Setter(old(cache), subId, NativeAccessRules, Blob(encodedRules)).writes
      ensures subId in old(cache) ==>
                && cache[subId].nativeAccessRules == Some(encodedRules)
                && pendingWrites == old(pendingWrites) + [PendingWrite(subId, map["access_rules" := Blob(encodedRules)])]
    {
      WriteDatabaseAndCacheHelper(subId, NativeAccessRules, Blob(encodedRules));
    }

    /** `setCarrierId`. */
    method SetCarrierId(subId: int, carrierId: int)
      requires Valid()
      modifies this
      ensures Valid() && insertRequests == old(insertRequests)
      ensures cache == Setter(old(cache), subId, CarrierId, Int(carrierId)).cache
      ensures pendingWrites == old(pendingWrites) + Setter(old(cache), subId, CarrierId, Int(carrierId)).writes
    {
      WriteDatabaseAndCacheHelper(subId, CarrierId, Int(carrierId));
    }

    /**
     * `setCardId`: the card id has no column, so only the cache changes. The source builds
     * the copy from whatever the cache holds, so an id that is not cached throws a
     * NullPointerException.
     */
    method SetCardId(subId: int, cardId: int) returns (r: Outcome<Error>)
      requires Valid()
      modifies this`cache
      ensures Valid()
      ensures subId !in old(cache) ==> r == Fail(NullSubscriptionInfo) && cache == old(cache)
      ensures subId in old(cache) ==> r == Pass && cache == old(cache)[subId := old(cache)[subId].(cardId := cardId)]
    {
      if subId !in cache {
        return Fail(NullSubscriptionInfo);
      }
      cache := cache[subId := cache[subId].(cardId := cardId)];
      r := Pass;
    }

    /**
     * `setCardString`: first sets the card id derived from the card string, then runs the
     * field setter for the card string column.
     */
    method SetCardString(subId: int, cardString: string) returns (r: Outcome<Error>)
      requires Valid()
      modifies this
      ensures Valid() && insertRequests == old(insertRequests)
      ensures subId !in old(cache) ==>
                r == Fail(NullSubscriptionInfo) && cache == old(cache) && pendingWrites == old(pendingWrites)
      ensures subId in old(cache) ==>
                var withCardId := old(cache)[subId := old(cache)[subId].(cardId := convertToPublicCardId(cardString))];
                && r == Pass
                && cache == Setter(withCardId, subId, CardString, Text(cardString)).cache
                && pendingWrites == old(pendingWrites) + Setter(withCardId, subId, CardString, Text(cardString)).writes
    {
      r := SetCardId(subId, convertToPublicCardId(cardString));
      if r.Fail? {
        return;
      }
      WriteDatabaseAndCacheHelper(subId, CardString, Text(cardString));
    }

    /**
     * `loadFromDatabase`: clears the cache, then caches the record decoded from each row
     * under its id. A row without an expected column throws; since all rows share the
     * cursor's columns, that is already the first row, and the cache stays empty.
     */
    method LoadFromDatabase(rows: seq<Row>) returns (r: Outcome<Error>)
      requires SameColumns(rows)
      modifies this`cache
      ensures Valid()
      ensures cache == CacheOf(LoadedRecords(DecodeRows(rows, convertToPublicCardId)))
      ensures r.Pass? <==> |LoadedRecords(DecodeRows(rows, convertToPublicCardId))| == |rows|
      ensures r.Fail? ==> cache == map[]
      ensures rows == [] ==> cache == map[] && r == Pass
    {
      ghost var results := DecodeRows(rows, convertToPublicCardId);
      ghost var decoded := LoadedRecords(results);
      UniformRowsLoadAllOrNothing(rows, convertToPublicCardId);
      cache := map[];
      var i := 0;
      while i < |rows|
        invariant 0 <= i <= |decoded|
        invariant cache == CacheOf(decoded[..i])
      {
        var subInfo := CreateSubscriptionInfoFromCursor(rows[i], convertToPublicCardId);
        assert subInfo == results[i];
        if subInfo.Failure? {
          assert i == |decoded|;
          assert decoded[..i] == decoded;
          return Fail(Decode(subInfo.error));
        }
        CacheOfPrefixStep(decoded, i);
        cache := cache[subInfo.value.id := subInfo.value];
        i := i + 1;
      }
      assert decoded[..i] == decoded;
      r := Pass;
    }
  }

  /** The outcome of decoding each row. */
  function DecodeRows(rows: seq<Row>, convertToPublicCardId: string -> int): (results: seq<Result<SubscriptionInfoInternal, DecodeError>>)
    ensures |results| == |rows|
    ensures forall i | 0 <= i < |rows| :: results[i] == CreateSubscriptionInfoFromCursor(rows[i], convertToPublicCardId)
  {
    seq(|rows|, i requires 0 <= i < |rows| => CreateSubscriptionInfoFromCursor(rows[i], convertToPublicCardId))
  }

  /** The decoded records up to the first failure. */
  function LoadedRecords(results: seq<Result<SubscriptionInfoInternal, DecodeError>>): (infos: seq<SubscriptionInfoInternal>)
    ensures |infos| <= |results|
    ensures forall i | 0 <= i < |infos| :: results[i] == Success(infos[i])
    ensures |infos| < |results| ==> results[|infos|].Failure?
  {
    if results == [] then []
    else
      match results[0]
      case Failure(_) => []
      case Success(info) => [info] + LoadedRecords(results[1..])
  }

  /**
   * The cache built by putting each record under its id in turn: its ids are exactly the
   * records' ids, and each id maps to the last record carrying it.
   */
  function CacheOf(infos: seq<SubscriptionInfoInternal>): (cache: Cache)
    ensures KeyedById(cache)
  {
    if infos == [] then map[]
    else
      var last := infos[|infos| - 1];
      CacheOf(infos[..|infos| - 1])[last.id := last]
  }

  /** Every row is loaded exactly when every row has all the decoded columns. */
  lemma {:induction false} AllRowsLoaded(rows: seq<Row>, convertToPublicCardId: string -> int)
    ensures |LoadedRecords(DecodeRows(rows, convertToPublicCardId))| == |rows| <==>
              forall i, f | 0 <= i < |rows| :: ColumnName(f) in rows[i]
  {
    var results := DecodeRows(rows, convertToPublicCardId);
    var n := |LoadedRecords(results)|;
    if n == |rows| {
      forall i, f | 0 <= i < |rows| ensures ColumnName(f) in rows[i] {
        assert results[i].Success?;
      }
    } else if forall i, f | 0 <= i < |rows| :: ColumnName(f) in rows[i] {
      assert results[n].Failure?;
      assert forall f :: ColumnName(f) in rows[n];
      assert false;
    }
  }

  /** The rows of one query: a cursor has a single column set for all its rows. */
  predicate SameColumns(rows: seq<Row>) {
    forall i | 0 <= i < |rows| :: rows[i].Keys == rows[0].Keys
  }

  /**
   * With one column set for all rows, either every row loads or none does: a missing
   * column already fails the first row.
   */
  lemma {:induction false} UniformRowsLoadAllOrNothing(rows: seq<Row>, convertToPublicCardId: string -> int)
    requires SameColumns(rows)
    ensures var loaded := LoadedRecords(DecodeRows(rows, convertToPublicCardId));
      |loaded| == |rows| || loaded == []
  {
    var results := DecodeRows(rows, convertToPublicCardId);
    var n := |LoadedRecords(results)|;
    if n > 0 {
      assert results[0].Success?;
      forall i, f | 0 <= i < |rows| ensures ColumnName(f) in rows[i] {
        assert rows[i].Keys == rows[0].Keys;
      }
      AllRowsLoaded(rows, convertToPublicCardId);
    }
  }

  /** Appending a record puts it under its id, over whatever was there. */
  lemma CacheOfAppend(infos: seq<SubscriptionInfoInternal>, info: SubscriptionInfoInternal)
    ensures CacheOf(infos + [info]) == CacheOf(infos)[info.id := info]
  {
    assert (infos + [info])[..|infos|] == infos;
  }

  /** The cache of one more record of `infos` is the cache so far with that record put in. */
  lemma CacheOfPrefixStep(infos: seq<SubscriptionInfoInternal>, i: nat)
    requires i < |infos|
    ensures CacheOf(infos[..i + 1]) == CacheOf(infos[..i])[infos[i].id := infos[i]]
  {
    assert infos[..i + 1] == infos[..i] + [infos[i]];
    CacheOfAppend(infos[..i], infos[i]);
  }

  /** The ids cached are exactly the ids of the records. */
  lemma {:induction false} CacheOfKeys(infos: seq<SubscriptionInfoInternal>, k: int)
    ensures k in CacheOf(infos) <==> exists i :: 0 <= i < |infos| && infos[i].id == k
  {
    if infos != [] {
      var prefix := infos[..|infos| - 1];
      CacheOfKeys(prefix, k);
      if k in CacheOf(prefix) {
        var i :| 0 <= i < |prefix| && prefix[i].id == k;
        assert infos[i].id == k;
      }
      if exists i :: 0 <= i < |infos| && infos[i].id == k {
        var i :| 0 <= i < |infos| && infos[i].id == k;
        if i < |prefix| {
          assert prefix[i].id == k;
        }
      }
    }
  }

  /** In the cache built from `infos`, each id maps to the last record carrying it. */
  lemma {:induction false} CacheOfLastWins(infos: seq<SubscriptionInfoInternal>, i: nat)
    requires i < |infos|
    requires forall j | i < j < |infos| :: infos[j].id != infos[i].id
    ensures infos[i].id in CacheOf(infos) && CacheOf(infos)[infos[i].id] == infos[i]
  {
    if i < |infos| - 1 {
      CacheOfLastWins(infos[..|infos| - 1], i);
    }
  }

  /** Records with pairwise distinct ids give a cache with one entry per record. */
  lemma {:induction false} CacheOfDistinctIdsSize(infos: seq<SubscriptionInfoInternal>)
    requires forall i, j | 0 <= i < j < |infos| :: infos[i].id != infos[j].id
    ensures |CacheOf(infos)| == |infos|
  {
    if infos != [] {
      var prefix := infos[..|infos| - 1];
      CacheOfDistinctIdsSize(prefix);
      CacheOfKeys(prefix, infos[|infos| - 1].id);
      assert infos[|infos| - 1].id !in CacheOf(prefix);
    }
  }
}
