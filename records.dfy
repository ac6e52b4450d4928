/**
 * The record store's rules, stated on the list of stored records: who may
 * read which records, how a new record is built, and what an update or a
 * delete does to the list. Every record is an object with at least the keys
 * `id`, `year`, `stationId` and `registerId`; the rest are the register's
 * own fields. The class `Store.Database` applies these to its state.
 */
module Records {
  import opened Wrappers
  import opened Values
  import opened Entities
  import opened Errors
  import Strings
  import Seqs

  /** The record belongs to the station and the register (`r.stationId === s && r.registerId === g`). */
  predicate InRegister(r: RecordData, stationId: string, registerId: string) {
    Get(r, "stationId") == Str(stationId) && Get(r, "registerId") == Str(registerId)
  }

  /** Every filter key holds the filter's value in the record (`record[key] === value`). */
  predicate MatchesFilters(r: RecordData, filters: RecordData) {
    forall k :: k in filters ==> Get(r, k) == filters[k]
  }

  /** The selection of `getRecords`: station, register, year and every filter. */
  predicate Selected(r: RecordData, stationId: string, registerId: string, year: int, filters: RecordData) {
    InRegister(r, stationId, registerId) && Get(r, "year") == Num(year) && MatchesFilters(r, filters)
  }

  /**
   * `getRecords(user, registerId, year, filters)`: nothing for an admin or a
   * user without a station; otherwise the stored records of the user's
   * station, register and year that match every filter, in storage order.
   * Absent filters are the empty object.
   */
  function GetRecords(records: seq<RecordData>, user: User, registerId: string, year: int, filters: RecordData): (r: seq<RecordData>)
    ensures !MayUseRecords(user) ==> r == []
    ensures MayUseRecords(user) ==>
      forall x :: x in r <==> x in records && Selected(x, user.stationId.value, registerId, year, filters)
  {
    if !MayUseRecords(user) then []
    else Seqs.Filter(records, (x: RecordData) => Selected(x, user.stationId.value, registerId, year, filters))
  }

  /** `getAllRecordsForRegister(user, registerId)`: the same selection over all years, without filters. */
  function GetAllRecordsForRegister(records: seq<RecordData>, user: User, registerId: string): (r: seq<RecordData>)
    ensures !MayUseRecords(user) ==> r == []
    ensures MayUseRecords(user) ==>
      forall x :: x in r <==> x in records && InRegister(x, user.stationId.value, registerId)
  {
    if !MayUseRecords(user) then []
    else Seqs.Filter(records, (x: RecordData) => InRegister(x, user.stationId.value, registerId))
  }

  /** Storing one more record extends a listing by that record, at the end, exactly when it is selected. */
  lemma GetRecordsAppend(records: seq<RecordData>, x: RecordData, user: User, registerId: string, year: int, filters: RecordData)
    ensures GetRecords(records + [x], user, registerId, year, filters) ==
      GetRecords(records, user, registerId, year, filters) +
      (if MayUseRecords(user) && Selected(x, user.stationId.value, registerId, year, filters) then [x] else [])
  {
    if MayUseRecords(user) {
      var p := (y: RecordData) => Selected(y, user.stationId.value, registerId, year, filters);
      Seqs.FilterAppend(records, [x], p);
      Seqs.FilterSingleton(x, p);
    }
  }

  /** Every record listed for one year is also listed among the register's records of all years. */
  lemma GetRecordsWithinAll(records: seq<RecordData>, user: User, registerId: string, year: int, filters: RecordData)
    ensures forall x :: x in GetRecords(records, user, registerId, year, filters) ==>
      x in GetAllRecordsForRegister(records, user, registerId)
  {
  }

  // ---------------------------------------------------------------------
  // addRecord

  /** The id `rec_<now>` of a record created at time `now`. */
  function RecordId(now: int): string {
    "rec_" + Strings.IntToString(now)
  }

  /**
   * `{ id, year: data.year, ...data, stationId, registerId }`: the data's own
   * `id` and `year` win over the generated ones, while the station and the
   * register are always the caller's.
   */
  function NewRecord(stationId: string, registerId: string, data: RecordData, now: int): (r: RecordData)
    ensures r.Keys == data.Keys + {"id", "year", "stationId", "registerId"}
    ensures r["stationId"] == Str(stationId) && r["registerId"] == Str(registerId)
    ensures r["id"] == if "id" in data then data["id"] else Str(RecordId(now))
    ensures r["year"] == Get(data, "year")
    ensures forall k :: k in data && k != "stationId" && k != "registerId" ==> r[k] == data[k]
  {
    map["id" := Str(RecordId(now)), "year" := Get(data, "year")] + data +
    map["stationId" := Str(stationId), "registerId" := Str(registerId)]
  }

  /**
   * `addRecord`: refused for an admin or a user without a station; otherwise
   * the new record, which the store appends.
   */
  function AddRecord(user: User, registerId: string, data: RecordData, now: int): (res: Result<RecordData, ApiError>)
    ensures res.Failure? <==> !MayUseRecords(user)
    ensures res.Failure? ==> res.error == AdminCannotAdd
    ensures res.Success? ==> InRegister(res.value, user.stationId.value, registerId)
    ensures res.Success? ==> res.value == NewRecord(user.stationId.value, registerId, data, now)
  {
    if !MayUseRecords(user) then Failure(AdminCannotAdd)
    else Success(NewRecord(user.stationId.value, registerId, data, now))
  }

  /** Adding a record never changes what a user of another station sees. */
  lemma AddRecordIsolation(records: seq<RecordData>, user: User, registerId: string, data: RecordData, now: int,
                           other: User, otherRegister: string)
    requires AddRecord(user, registerId, data, now).Success?
    requires MayUseRecords(other) && other.stationId != user.stationId
    ensures GetAllRecordsForRegister(records + [AddRecord(user, registerId, data, now).value], other, otherRegister) ==
            GetAllRecordsForRegister(records, other, otherRegister)
  {
    var x := AddRecord(user, registerId, data, now).value;
    var p := (y: RecordData) => InRegister(y, other.stationId.value, otherRegister);
    Seqs.FilterAppend(records, [x], p);
    Seqs.FilterSingleton(x, p);
  }

  // ---------------------------------------------------------------------
  // updateRecord and deleteRecord

  /** The record's `id` is `recordId`. */
  predicate HasId(r: RecordData, recordId: string) {
    Get(r, "id") == Str(recordId)
  }

  /** `records.findIndex(r => r.id === recordId)`, across all registers. */
  function IndexOfId(records: seq<RecordData>, recordId: string): (i: Option<nat>)
    ensures i.Some? ==> i.value < |records| && HasId(records[i.value], recordId)
    ensures i.Some? ==> forall j :: 0 <= j < i.value ==> !HasId(records[j], recordId)
    ensures i.None? <==> forall j :: 0 <= j < |records| ==> !HasId(records[j], recordId)
  {
    Seqs.FirstIndex(records, (r: RecordData) => HasId(r, recordId))
  }

  /** `{ ...old, ...data }`: keys of `data` overwrite, every other key keeps its value. */
  function Merge(stored: RecordData, data: RecordData): (r: RecordData)
    ensures r.Keys == stored.Keys + data.Keys
    ensures forall k :: k in data ==> r[k] == data[k]
    ensures forall k :: k in stored && k !in data ==> r[k] == stored[k]
  {
    stored + data
  }

  /**
   * `updateRecord(user, registerId, recordId, data)`. The checks come in this
   * order: admin or no station, unknown id, a record of another station.
   * On success only the found index changes, to the merge of the old record
   * and `data`. The `registerId` argument is not used.
   */
  function UpdateRecord(records: seq<RecordData>, user: User, recordId: string, data: RecordData)
    : (res: Result<(seq<RecordData>, RecordData), ApiError>)
    ensures !MayUseRecords(user) ==> res == Failure(AdminCannotUpdate)
    ensures MayUseRecords(user) && IndexOfId(records, recordId).None? ==> res == Failure(RecordNotFound)
    ensures MayUseRecords(user) && IndexOfId(records, recordId).Some? ==>
      var i := IndexOfId(records, recordId).value;
      if Get(records[i], "stationId") != Str(user.stationId.value) then res == Failure(CannotModifyOtherStation)
      else
        && res.Success?
        && |res.value.0| == |records|
        && res.value.1 == res.value.0[i] == Merge(records[i], data)
        && (forall j :: 0 <= j < |records| && j != i ==> res.value.0[j] == records[j])
  {
    if !MayUseRecords(user) then Failure(AdminCannotUpdate)
    else match IndexOfId(records, recordId)
      case None => Failure(RecordNotFound)
      case Some(i) =>
        if Get(records[i], "stationId") != Str(user.stationId.value) then Failure(CannotModifyOtherStation)
        else
          var updated := Merge(records[i], data);
          Success((records[i := updated], updated))
  }

  /**
   * An update whose data carries no `stationId` keeps the record in the
   * user's station and leaves every other station's records as they were.
   */
  lemma UpdateRecordIsolation(records: seq<RecordData>, user: User, recordId: string, data: RecordData, j: nat)
    requires UpdateRecord(records, user, recordId, data).Success?
    requires "stationId" !in data
    requires j < |records| && Get(records[j], "stationId") != Str(user.stationId.value)
    ensures UpdateRecord(records, user, recordId, data).value.0[j] == records[j]
    ensures Get(UpdateRecord(records, user, recordId, data).value.1, "stationId") == Str(user.stationId.value)
  {
  }

  /**
   * Because the merge lets `data` overwrite any key, an update may move a
   * record to another station.
   */
  lemma UpdateCanMoveRecord()
    ensures
      var officer := User("u1", "Officer", StationOfficer, Some("ps_a"), None, "sso", "e", "m", "d", None);
      var rec := map["id" := Str("r1"), "stationId" := Str("ps_a"), "registerId" := Str("crime_register")];
      var res := UpdateRecord([rec], officer, "r1", map["stationId" := Str("ps_b")]);
      res.Success? && Get(res.value.1, "stationId") == Str("ps_b")
  {
    var officer := User("u1", "Officer", StationOfficer, Some("ps_a"), None, "sso", "e", "m", "d", None);
    var rec := map["id" := Str("r1"), "stationId" := Str("ps_a"), "registerId" := Str("crime_register")];
    assert IndexOfId([rec], "r1") == Some(0) by {
      assert HasId([rec][0], "r1");
    }
  }

  /**
   * `deleteRecord(user, registerId, recordId)`: `Success(None)` is the
   * silent no-op for an unknown id; an admin is refused even then.
   * On success exactly the found record is removed and the others keep
   * their order. The `registerId` argument is not used.
   */
  function DeleteRecord(records: seq<RecordData>, user: User, recordId: string)
    : (res: Result<Option<seq<RecordData>>, ApiError>)
    ensures !MayUseRecords(user) ==> res == Failure(AdminCannotDelete)
    ensures MayUseRecords(user) && IndexOfId(records, recordId).None? ==> res == Success(None)
    ensures MayUseRecords(user) && IndexOfId(records, recordId).Some? ==>
      var i := IndexOfId(records, recordId).value;
      if Get(records[i], "stationId") != Str(user.stationId.value) then res == Failure(CannotDeleteOtherStation)
      else res == Success(Some(records[..i] + records[i + 1..]))
  {
    if !MayUseRecords(user) then Failure(AdminCannotDelete)
    else match IndexOfId(records, recordId)
      case None => Success(None)
      case Some(i) =>
        if Get(records[i], "stationId") != Str(user.stationId.value) then Failure(CannotDeleteOtherStation)
        else Success(Some(Seqs.RemoveAt(records, i)))
  }

  /** A successful delete removes one occurrence of one of the user's own records and nothing else. */
  lemma DeleteRemovesOne(records: seq<RecordData>, user: User, recordId: string)
    requires DeleteRecord(records, user, recordId).Success?
    requires DeleteRecord(records, user, recordId).value.Some?
    ensures var i := IndexOfId(records, recordId).value;
      && Get(records[i], "stationId") == Str(user.stationId.value)
      && multiset(DeleteRecord(records, user, recordId).value.value) + multiset{records[i]} == multiset(records)
  {
    var i := IndexOfId(records, recordId).value;
    assert records == records[..i] + [records[i]] + records[i + 1..];
  }
}
