/**
 * The record page of one register: the choices of a select field drawn from
 * another register, the record form's start state and submission, and the
 * search and sort of the record table.
 */
module RegisterPage {
  import opened Wrappers
  import opened Values
  import opened Entities
  import opened Strings
  import Seqs
  import Records
  import Store
  import Errors

  // ---------------------------------------------------------------------
  // choices drawn from another register

  /** A select field whose choices come from another register (both source settings non-empty). */
  predicate IsDynamic(f: RegisterField) {
    && f.fieldType == Select
    && f.optionsSourceRegisterId.Some? && f.optionsSourceRegisterId.value != ""
    && f.optionsSourceDisplayField.Some? && f.optionsSourceDisplayField.value != ""
  }

  /** The fields whose choices are fetched, in schema order. */
  function DynamicFields(fields: seq<RegisterField>): (r: seq<RegisterField>)
    ensures forall f :: f in r <==> f in fields && IsDynamic(f)
  {
    Seqs.Filter(fields, (f: RegisterField) => IsDynamic(f))
  }

  /** `records.map(r => r[displayField])`. */
  function DisplayValues(records: seq<RecordData>, displayField: string): (vs: seq<Value>)
    ensures |vs| == |records|
    ensures forall i :: 0 <= i < |records| ==> vs[i] == Get(records[i], displayField)
  {
    seq(|records|, i requires 0 <= i < |records| => Get(records[i], displayField))
  }

  /** The default `sort()` order: `a` goes after `b` when its string form is greater. */
  function ByText(): (Value, Value) -> bool {
    (a: Value, b: Value) => StrLt(ToStr(b), ToStr(a))
  }

  lemma ByTextWeakOrder()
    ensures Seqs.StrictWeakOrder(ByText())
  {
    forall a: Value, b: Value | StrLt(ToStr(b), ToStr(a))
      ensures !StrLt(ToStr(a), ToStr(b))
    {
      StrLtAsymmetric(ToStr(b), ToStr(a));
    }
    forall a: Value, b: Value, c: Value | StrLt(ToStr(c), ToStr(a))
      ensures StrLt(ToStr(b), ToStr(a)) || StrLt(ToStr(c), ToStr(b))
    {
      StrLtTotal(ToStr(a), ToStr(b));
      if StrLt(ToStr(a), ToStr(b)) {
        StrLtTransitive(ToStr(c), ToStr(a), ToStr(b));
      }
    }
  }

  /**
   * The choices of a field drawn from `sourceRegisterId`: the truthy values
   * of `displayField` over the user's station records of that register (all
   * years), each once, sorted by string form.
   */
  function OptionsFor(records: seq<RecordData>, user: User, sourceRegisterId: string, displayField: string)
    : seq<Value>
  {
    var source := Records.GetAllRecordsForRegister(records, user, sourceRegisterId);
    var values := Seqs.Filter(DisplayValues(source, displayField), Truthy);
    Seqs.Sort(Seqs.Dedup(values), ByText())
  }

  /** The choices are distinct and in ascending string order. */
  lemma OptionsDistinctSorted(records: seq<RecordData>, user: User, sourceRegisterId: string, displayField: string)
    ensures var options := OptionsFor(records, user, sourceRegisterId, displayField);
      && Seqs.Distinct(options)
      && (forall i, j :: 0 <= i < j < |options| ==> !StrLt(ToStr(options[j]), ToStr(options[i])))
  {
    var source := Records.GetAllRecordsForRegister(records, user, sourceRegisterId);
    var distinct := Seqs.Dedup(Seqs.Filter(DisplayValues(source, displayField), Truthy));
    Seqs.SortPermutation(distinct, ByText());
    Seqs.DistinctPermutation(distinct, Seqs.Sort(distinct, ByText()));
    ByTextWeakOrder();
    Seqs.SortSorted(distinct, ByText());
  }

  /** A value is among the sorted distinct truthy display values of `source` exactly when some record shows it. */
  lemma ChoicesOfSource(source: seq<RecordData>, displayField: string, v: Value)
    ensures v in Seqs.Sort(Seqs.Dedup(Seqs.Filter(DisplayValues(source, displayField), Truthy)), ByText()) <==>
      Truthy(v) && exists k :: 0 <= k < |source| && Get(source[k], displayField) == v
  {
    var shown := DisplayValues(source, displayField);
    var values := Seqs.Filter(shown, Truthy);
    var distinct := Seqs.Dedup(values);
    var options := Seqs.Sort(distinct, ByText());
    Seqs.SortPermutation(distinct, ByText());
    assert v in options <==> v in multiset(options);
    assert v in options <==> v in values;
    if Truthy(v) && exists k :: 0 <= k < |source| && Get(source[k], displayField) == v {
      var k :| 0 <= k < |source| && Get(source[k], displayField) == v;
      assert shown[k] == v;
    }
  }

  /**
   * The choices are exactly the truthy display values of the source
   * register's records of the user's station; a user who may not read
   * records gets none.
   */
  lemma OptionsMembership(records: seq<RecordData>, user: User, sourceRegisterId: string, displayField: string, v: Value)
    ensures !MayUseRecords(user) ==> OptionsFor(records, user, sourceRegisterId, displayField) == []
    ensures MayUseRecords(user) ==>
      (v in OptionsFor(records, user, sourceRegisterId, displayField) <==>
        Truthy(v) && exists r :: r in records && Records.InRegister(r, user.stationId.value, sourceRegisterId) &&
                                 Get(r, displayField) == v)
  {
    var source := Records.GetAllRecordsForRegister(records, user, sourceRegisterId);
    if !MayUseRecords(user) {
      NoChoicesFromNothing(displayField);
    } else {
      ChoicesOfSource(source, displayField, v);
      ShownBySome(source, displayField, v);
      if exists r :: r in source && Get(r, displayField) == v {
        var r :| r in source && Get(r, displayField) == v;
        assert r in records && Records.InRegister(r, user.stationId.value, sourceRegisterId);
      }
      if exists r :: r in records && Records.InRegister(r, user.stationId.value, sourceRegisterId) &&
                     Get(r, displayField) == v {
        var r :| r in records && Records.InRegister(r, user.stationId.value, sourceRegisterId) && Get(r, displayField) == v;
        assert r in source;
      }
    }
  }

  /** Some record at a position shows `v` exactly when some record of the list does. */
  lemma ShownBySome(source: seq<RecordData>, displayField: string, v: Value)
    ensures (exists k :: 0 <= k < |source| && Get(source[k], displayField) == v) <==>
            (exists r :: r in source && Get(r, displayField) == v)
  {
    if exists r :: r in source && Get(r, displayField) == v {
      var r :| r in source && Get(r, displayField) == v;
      var k :| 0 <= k < |source| && source[k] == r;
    }
  }

  /** An empty source register offers no choices. */
  lemma NoChoicesFromNothing(displayField: string)
    ensures Seqs.Sort(Seqs.Dedup(Seqs.Filter(DisplayValues([], displayField), Truthy)), ByText()) == []
  {
    assert DisplayValues([], displayField) == [];
  }

  /** The choices map the fetch builds: one entry per fetched field, a later field of the same id winning. */
  function OptionsMap(records: seq<RecordData>, user: User, fields: seq<RegisterField>): map<string, seq<Value>>
    decreases |fields|
  {
    if fields == [] then map[]
    else
      var front := OptionsMap(records, user, fields[..|fields| - 1]);
      var f := fields[|fields| - 1];
      if IsDynamic(f) then
        front[f.id := OptionsFor(records, user, f.optionsSourceRegisterId.value, f.optionsSourceDisplayField.value)]
      else front
  }

  /** The map has an entry for every dynamic field's id and no other. */
  lemma {:induction false} OptionsMapKeys(records: seq<RecordData>, user: User, fields: seq<RegisterField>, id: string)
    ensures id in OptionsMap(records, user, fields) <==>
      exists k :: 0 <= k < |fields| && IsDynamic(fields[k]) && fields[k].id == id
    decreases |fields|
  {
    if fields != [] {
      var front := fields[..|fields| - 1];
      OptionsMapKeys(records, user, front, id);
      if id in OptionsMap(records, user, front) {
        var k :| 0 <= k < |front| && IsDynamic(front[k]) && front[k].id == id;
        assert fields[k] == front[k];
      }
      if exists k :: 0 <= k < |fields| && IsDynamic(fields[k]) && fields[k].id == id {
        var k :| 0 <= k < |fields| && IsDynamic(fields[k]) && fields[k].id == id;
        if k < |front| {
          assert front[k] == fields[k];
        }
      }
    }
  }

  /** The entry of a dynamic field that no later dynamic field shares its id with holds that field's choices. */
  lemma {:induction false} OptionsMapEntry(records: seq<RecordData>, user: User, fields: seq<RegisterField>, k: nat)
    requires k < |fields| && IsDynamic(fields[k])
    requires forall j :: k < j < |fields| && IsDynamic(fields[j]) ==> fields[j].id != fields[k].id
    ensures fields[k].id in OptionsMap(records, user, fields)
    ensures OptionsMap(records, user, fields)[fields[k].id] ==
      OptionsFor(records, user, fields[k].optionsSourceRegisterId.value, fields[k].optionsSourceDisplayField.value)
    decreases |fields|
  {
    var front := fields[..|fields| - 1];
    if k < |front| {
      assert front[k] == fields[k];
      OptionsMapEntry(records, user, front, k);
    }
  }

  /**
   * The choice fetch of the record form: nothing without a user or without
   * a dynamic field (the component keeps its map); otherwise a map filled
   * field by field.
   */
  method FetchDynamicOptions(records: seq<RecordData>, user: Option<User>, fields: seq<RegisterField>)
    returns (optionsMap: Option<map<string, seq<Value>>>)
    ensures user.None? || DynamicFields(fields) == [] ==> optionsMap.None?
    ensures user.Some? && DynamicFields(fields) != [] ==>
      optionsMap == Some(OptionsMap(records, user.value, DynamicFields(fields)))
  {
    if user.None? {
      return None;
    }
    var dynamic := DynamicFields(fields);
    if |dynamic| == 0 {
      return None;
    }
    var m: map<string, seq<Value>> := map[];
    for i := 0 to |dynamic|
      invariant m == OptionsMap(records, user.value, dynamic[..i])
    {
      var f := dynamic[i];
      assert dynamic[..i + 1][..i] == dynamic[..i];
      if f.optionsSourceRegisterId.Some? && f.optionsSourceRegisterId.value != "" &&
         f.optionsSourceDisplayField.Some? && f.optionsSourceDisplayField.value != "" {
        var options := OptionsFor(records, user.value, f.optionsSourceRegisterId.value, f.optionsSourceDisplayField.value);
        m := m[f.id := options];
      }
    }
    assert dynamic[..|dynamic|] == dynamic;
    return Some(m);
  }

  // ---------------------------------------------------------------------
  // the record form

  function FieldIds(fields: seq<RegisterField>): set<string> {
    set f | f in fields :: f.id
  }

  /** A new form: every schema field empty. */
  function DefaultFormState(fields: seq<RegisterField>): (form: RecordData)
    ensures forall f :: f in fields ==> f.id in form && form[f.id] == Str("")
    ensures forall k :: k in form ==> exists f :: f in fields && f.id == k
  {
    map id | id in FieldIds(fields) :: Str("")
  }

  /** The form's start: the record being edited, or the default state. */
  function InitialForm(initialData: Option<RecordData>, fields: seq<RegisterField>): (form: RecordData)
    ensures initialData.Some? ==> form == initialData.value
    ensures initialData.None? ==> form == DefaultFormState(fields)
  {
    if initialData.Some? then initialData.value else DefaultFormState(fields)
  }

  /** `{ ...formData, year: currentYear }`: the year is the page's, every other field as entered. */
  function Submission(form: RecordData, currentYear: int): (record: RecordData)
    ensures record.Keys == form.Keys + {"year"}
    ensures record["year"] == Num(currentYear)
    ensures forall k :: k in form && k != "year" ==> record[k] == form[k]
  {
    form + map["year" := Num(currentYear)]
  }

  /** What saving a submitted record does. */
  datatype SaveAction = UpdateExisting(recordId: string) | AddNew

  /** A record with a truthy id updates that record; any other is added. */
  function ChooseSave(record: RecordData): (action: SaveAction)
    ensures action.UpdateExisting? <==> Truthy(Get(record, "id"))
    ensures action.UpdateExisting? && Get(record, "id").Str? ==> action.recordId == Get(record, "id").s
  {
    if Truthy(Get(record, "id")) then UpdateExisting(ToStr(Get(record, "id"))) else AddNew
  }

  /** A new form is always added, never sent as an update. */
  lemma NewFormIsAdded(fields: seq<RegisterField>, currentYear: int)
    ensures ChooseSave(Submission(InitialForm(None, fields), currentYear)) == AddNew
  {
    var form := DefaultFormState(fields);
    if "id" in form {
      var f :| f in fields && f.id == "id";
    }
  }

  /** A form opened on a stored record updates that record. */
  lemma EditedFormUpdates(stored: RecordData, fields: seq<RegisterField>, currentYear: int, recordId: string)
    requires Get(stored, "id") == Str(recordId) && recordId != ""
    ensures ChooseSave(Submission(InitialForm(Some(stored), fields), currentYear)) == UpdateExisting(recordId)
  {
  }

  /** A record added from the form is in the list reloaded for the same register and year. */
  lemma AddedRecordIsListed(records: seq<RecordData>, user: User, registerId: string, form: RecordData,
                            currentYear: int, now: int)
    requires MayUseRecords(user)
    ensures var added := Records.AddRecord(user, registerId, Submission(form, currentYear), now);
      added.Success? && added.value in Records.GetRecords(records + [added.value], user, registerId, currentYear, map[])
  {
    var x := Records.AddRecord(user, registerId, Submission(form, currentYear), now).value;
    Records.GetRecordsAppend(records, x, user, registerId, currentYear, map[]);
  }

  /**
   * `handleSaveRecord`: without a user with a station nothing happens.
   * Otherwise the record is updated or added, and when that succeeds the
   * list is reloaded for the register and the page's year; a failure
   * leaves the list as it was.
   */
  method HandleSaveRecord(db: Store.Database, user: Option<User>, registerId: string, record: RecordData,
                          currentYear: int, now: int) returns (reloaded: Option<seq<RecordData>>)
    modifies db
    ensures user.None? || !HasStation(user.value) ==> reloaded.None? && unchanged(db)
    ensures user.Some? && HasStation(user.value) && ChooseSave(record).AddNew? ==>
      var r := Records.AddRecord(user.value, registerId, record, now);
      && (r.Failure? ==> reloaded.None? && db.records == old(db.records))
      && (r.Success? ==>
            db.records == old(db.records) + [r.value] &&
            reloaded == Some(Records.GetRecords(db.records, user.value, registerId, currentYear, map[])))
    ensures user.Some? && HasStation(user.value) && ChooseSave(record).UpdateExisting? ==>
      var r := Records.UpdateRecord(old(db.records), user.value, ChooseSave(record).recordId, record);
      && (r.Failure? ==> reloaded.None? && db.records == old(db.records))
      && (r.Success? ==>
            db.records == r.value.0 &&
            reloaded == Some(Records.GetRecords(db.records, user.value, registerId, currentYear, map[])))
    ensures db.Current() == old(db.Current()).(records := db.records)
    ensures db.events == old(db.events) && db.dutyCharts == old(db.dutyCharts)
    ensures reloaded.None? ==> db.saved == old(db.saved)
    ensures reloaded.Some? ==> db.saved == db.Current()
  {
    if user.None? || !HasStation(user.value) {
      return None;
    }
    var u := user.value;
    var outcome: Result<RecordData, Errors.ApiError>;
    match ChooseSave(record) {
      case UpdateExisting(recordId) =>
        outcome := db.UpdateRecord(u, registerId, recordId, record);
      case AddNew =>
        outcome := db.AddRecord(u, registerId, record, now);
    }
    if outcome.Failure? {
      return None;
    }
    reloaded := Some(Records.GetRecords(db.records, u, registerId, currentYear, map[]));
  }

  // ---------------------------------------------------------------------
  // search and sort of the table

  /** Some value of the record, as a lower-cased string, contains the lower-cased term. */
  predicate MatchesSearch(r: RecordData, term: string) {
    exists k :: k in r && Contains(Lower(ToStr(r[k])), Lower(term))
  }

  /** The records the search keeps, in list order. */
  function Search(records: seq<RecordData>, term: string): (kept: seq<RecordData>)
    ensures forall x :: x in kept <==> x in records && MatchesSearch(x, term)
  {
    Seqs.Filter(records, (r: RecordData) => MatchesSearch(r, term))
  }

  /** An empty term keeps every record that has at least one field. */
  lemma EmptySearchKeepsAll(records: seq<RecordData>)
    requires forall k :: 0 <= k < |records| ==> records[k] != map[]
    ensures Search(records, "") == records
  {
    forall x | x in records ensures MatchesSearch(x, "") {
      var k :| k in x;
      ContainsEmpty(Lower(ToStr(x[k])));
    }
    Seqs.FilterAll(records, (r: RecordData) => MatchesSearch(r, ""));
  }

  /** The search ignores the case of the term. */
  lemma SearchIgnoresCase(records: seq<RecordData>, term: string)
    ensures Search(records, Lower(term)) == Search(records, term)
  {
    LowerIdempotent(term);
    Seqs.FilterCongruent(records, (r: RecordData) => MatchesSearch(r, Lower(term)), (r: RecordData) => MatchesSearch(r, term));
  }

  datatype Direction = Asc | Desc

  datatype SortConfig = SortConfig(key: string, direction: Direction)

  /** `requestSort(key)`: descending only when the same key is sorted ascending now. */
  function RequestSort(config: Option<SortConfig>, key: string): (next: SortConfig)
    ensures next.key == key
    ensures next.direction == Desc <==> config == Some(SortConfig(key, Asc))
  {
    if config.Some? && config.value.key == key && config.value.direction == Asc then SortConfig(key, Desc)
    else SortConfig(key, Asc)
  }

  /** Asking for the same key again flips the direction, and a third time flips it back. */
  lemma RequestSortToggles(config: Option<SortConfig>, key: string)
    ensures var once := RequestSort(config, key);
      var twice := RequestSort(Some(once), key);
      twice.direction != once.direction && RequestSort(Some(twice), key) == once
    ensures RequestSort(Some(RequestSort(None, key)), key) == SortConfig(key, Desc)
    ensures RequestSort(Some(SortConfig(key, Desc)), key) == SortConfig(key, Asc)
  {
  }

  /** The table comparator: `a` goes after `b` when its key value is greater (ascending) or smaller (descending). */
  function ByKey(key: string, direction: Direction): (RecordData, RecordData) -> bool {
    if direction == Asc then (a: RecordData, b: RecordData) => ValueLt(Get(b, key), Get(a, key))
    else (a: RecordData, b: RecordData) => ValueLt(Get(a, key), Get(b, key))
  }

  lemma ByKeyWeakOrder(key: string, direction: Direction)
    ensures Seqs.StrictWeakOrder(ByKey(key, direction))
  {
    var gt := ByKey(key, direction);
    forall a: RecordData, b: RecordData | gt(a, b) ensures !gt(b, a) {
      ValueLtIrreflexive(Get(a, key));
      if gt(b, a) {
        ValueLtTransitive(Get(a, key), Get(b, key), Get(a, key));
      }
    }
    forall a: RecordData, b: RecordData, c: RecordData | gt(a, c) ensures gt(a, b) || gt(b, c) {
      var va, vb, vc := Get(a, key), Get(b, key), Get(c, key);
      ValueLtTotal(va, vb);
      if direction == Asc {
        if ValueLt(va, vb) { ValueLtTransitive(vc, va, vb); }
      } else {
        if ValueLt(vb, va) { ValueLtTransitive(vb, va, vc); }
      }
    }
  }

  /** The table as shown: the search result, sorted by the configured key when there is one. */
  function TableView(records: seq<RecordData>, term: string, config: Option<SortConfig>): (shown: seq<RecordData>)
    ensures |shown| == |Search(records, term)|
  {
    if config.None? then Search(records, term)
    else Seqs.Sort(Search(records, term), ByKey(config.value.key, config.value.direction))
  }

  /**
   * The table holds the search result, each record as often as there, and
   * under a sort config is ordered by the key in the configured direction,
   * records with equal keys keeping their search order.
   */
  lemma TableViewSpec(records: seq<RecordData>, term: string, config: Option<SortConfig>)
    ensures var shown := TableView(records, term, config);
      && multiset(shown) == multiset(Search(records, term))
      && (config.None? ==> shown == Search(records, term))
      && (config.Some? && config.value.direction == Asc ==>
            forall i, j :: 0 <= i < j < |shown| ==> !ValueLt(Get(shown[j], config.value.key), Get(shown[i], config.value.key)))
      && (config.Some? && config.value.direction == Desc ==>
            forall i, j :: 0 <= i < j < |shown| ==> !ValueLt(Get(shown[i], config.value.key), Get(shown[j], config.value.key)))
      && (config.Some? ==> forall x ::
            var tied := Seqs.Tied(ByKey(config.value.key, config.value.direction), x);
            Seqs.Filter(shown, tied) == Seqs.Filter(Search(records, term), tied))
  {
    if config.Some? {
      var gt := ByKey(config.value.key, config.value.direction);
      Seqs.SortPermutation(Search(records, term), gt);
      ByKeyWeakOrder(config.value.key, config.value.direction);
      Seqs.SortSorted(Search(records, term), gt);
      forall x ensures Seqs.Filter(TableView(records, term, config), Seqs.Tied(gt, x)) ==
                       Seqs.Filter(Search(records, term), Seqs.Tied(gt, x))
      {
        Seqs.SortStable(Search(records, term), gt, x);
      }
    }
  }

  /** The search/sort memo: filters, then sorts the filtered copy in place. */
  method FilterAndSort(records: seq<RecordData>, term: string, config: Option<SortConfig>) returns (shown: seq<RecordData>)
    ensures shown == TableView(records, term, config)
  {
    var filtered := Search(records, term);
    if config.None? {
      return filtered;
    }
    var a := new RecordData[|filtered|](i requires 0 <= i < |filtered| => filtered[i]);
    assert a[..] == filtered;
    Seqs.SortInPlace(a, ByKey(config.value.key, config.value.direction));
    shown := a[..];
  }
}
