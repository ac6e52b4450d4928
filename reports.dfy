/**
 * The monthly report of pending cases by crime head. A pending case of the
 * crime register is counted under every crime head one of whose IPC section
 * numbers occurs anywhere in the free-text `section` field; a case whose
 * non-empty section matches no head is counted under "Other IPC". Heads with
 * no pending case are left out of the report.
 */
module Reports {
  import opened Wrappers
  import opened Values
  import opened Strings
  import Seqs

  /** The IPC section numbers of each crime head. */
  const SectionMap: map<string, seq<string>> := map[
    "murder" := ["302", "303"],
    "attempt_to_murder" := ["307"],
    "dacoity" := ["395", "396", "397", "398"],
    "robbery" := ["392", "393", "394", "397", "398"],
    "kidnapping" := ["363", "364", "365", "366", "367", "368", "369"],
    "rape" := ["376"],
    "riot" := ["147", "148", "149", "150", "151", "153A"],
    "burglary" := ["453", "454", "455", "456", "457", "458", "459", "460", "380"],
    "theft" := ["379", "380", "381", "382"]
  ]

  datatype CrimeGroup = CrimeGroup(id: string, title: string, titleHi: string)

  /** The report's rows, in report order; the last one has no section list. */
  const Groups: seq<CrimeGroup> := [
    CrimeGroup("murder", "Murder", "हत्या"),
    CrimeGroup("attempt_to_murder", "Attempt to Murder", "हत्या का प्रयास"),
    CrimeGroup("dacoity", "Dacoity", "डकैती"),
    CrimeGroup("robbery", "Robbery", "लूट"),
    CrimeGroup("kidnapping", "Kidnapping/Abduction", "व्यपहरण / अपहरण"),
    CrimeGroup("rape", "Rape", "बलात्कार"),
    CrimeGroup("riot", "Riot", "बल्वा"),
    CrimeGroup("burglary", "Burglary", "नकबजनी"),
    CrimeGroup("theft", "Theft", "चोरी"),
    CrimeGroup("other_ipc", "Other IPC", "अन्य भा.द.सं.")
  ]

  const MonthNames: seq<string> := [
    "january", "february", "march", "april", "may", "june",
    "july", "august", "september", "october", "november", "december"
  ]

  /**
   * `sectionMatchesGroup`: false for an empty section or a head without a
   * section list; otherwise some section number of the head occurs in the text.
   */
  predicate SectionMatchesGroup(section: string, groupId: string) {
    && groupId in SectionMap
    && section != ""
    && exists k :: 0 <= k < |SectionMap[groupId]| && Contains(section, SectionMap[groupId][k])
  }

  /** `isOtherIpc`: a non-empty section that matches no head. */
  predicate IsOtherIpc(section: string) {
    section != "" && forall g :: g in SectionMap ==> !SectionMatchesGroup(section, g)
  }

  /** The text of a record's `section` field; a missing or non-text section is empty. */
  function SectionOf(r: RecordData): (s: string)
    ensures Get(r, "section").Str? ==> s == Get(r, "section").s
    ensures !Get(r, "section").Str? ==> s == ""
  {
    match Get(r, "section")
    case Str(s) => s
    case _ => ""
  }

  /**
   * A pending case of the crime register of `stationId`, registered in
   * `year` and month `monthIndex` (0 for January). `dateOf` reads the
   * `dateRegistered` field as a (year, month index) pair, or fails.
   */
  predicate IsPendingCase(r: RecordData, stationId: string, year: int, monthIndex: nat,
                          dateOf: Value -> Option<(int, nat)>) {
    && Get(r, "registerId") == Str("crime_register")
    && Get(r, "stationId") == Str(stationId)
    && Get(r, "disposal_type") == Str("Pending")
    && dateOf(Get(r, "dateRegistered")) == Some((year, monthIndex))
  }

  /** Whether a case counts under a head. */
  predicate CountsUnder(r: RecordData, g: CrimeGroup) {
    if g.id == "other_ipc" then IsOtherIpc(SectionOf(r)) else SectionMatchesGroup(SectionOf(r), g.id)
  }

  datatype CrimeHeadCount = CrimeHeadCount(name: string, nameHi: string, pending: nat)

  /** The position of a month name, compared in lower case; `None` for an unknown name. */
  function MonthIndex(month: string): (i: Option<nat>)
    ensures i.Some? ==> i.value < 12 && MonthNames[i.value] == Lower(month)
    ensures i.None? <==> Lower(month) !in MonthNames
  {
    Seqs.FirstIndex(MonthNames, (m: string) => m == Lower(month))
  }

  /** The pending cases of the station and month. */
  function PendingCases(records: seq<RecordData>, stationId: string, year: int, monthIndex: nat,
                        dateOf: Value -> Option<(int, nat)>): (cases: seq<RecordData>)
    ensures forall r :: r in cases <==> r in records && IsPendingCase(r, stationId, year, monthIndex, dateOf)
  {
    Seqs.Filter(records, (r: RecordData) => IsPendingCase(r, stationId, year, monthIndex, dateOf))
  }

  /** One row per head, in report order, zero counts included. */
  function Tally(cases: seq<RecordData>): (rows: seq<CrimeHeadCount>)
    ensures |rows| == |Groups|
    ensures forall i :: 0 <= i < |Groups| ==>
      rows[i].name == Groups[i].title && rows[i].nameHi == Groups[i].titleHi &&
      (rows[i].pending == 0 <==> forall j :: 0 <= j < |cases| ==> !CountsUnder(cases[j], Groups[i]))
  {
    seq(|Groups|, i requires 0 <= i < |Groups| =>
      CrimeHeadCount(Groups[i].title, Groups[i].titleHi, Seqs.Count(cases, (r: RecordData) => CountsUnder(r, Groups[i]))))
  }

  /**
   * `getPendingCasesByCrimeHead(stationId, year, month)`: nothing for an
   * unknown month; otherwise the heads with at least one pending case.
   */
  function PendingCasesByCrimeHead(records: seq<RecordData>, stationId: string, year: int, month: string,
                                   dateOf: Value -> Option<(int, nat)>): (report: seq<CrimeHeadCount>)
    ensures MonthIndex(month).None? ==> report == []
    ensures forall k :: 0 <= k < |report| ==> report[k].pending > 0
    ensures MonthIndex(month).Some? ==>
      var rows := Tally(PendingCases(records, stationId, year, MonthIndex(month).value, dateOf));
      forall i :: 0 <= i < |rows| ==> (rows[i] in report <==> rows[i].pending > 0)
    ensures |report| <= |Groups|
  {
    match MonthIndex(month)
    case None => []
    case Some(m) => Reported(Tally(PendingCases(records, stationId, year, m, dateOf)))
  }

  /** `summary.filter(item => item.pending > 0)`. */
  function Reported(rows: seq<CrimeHeadCount>): (report: seq<CrimeHeadCount>)
    ensures |report| <= |rows|
    ensures forall k :: 0 <= k < |report| ==> report[k] in rows && report[k].pending > 0
    ensures forall k :: 0 <= k < |rows| && rows[k].pending > 0 ==> rows[k] in report
  {
    Seqs.Filter(rows, HasPending)
  }

  /** A row the report keeps. */
  predicate HasPending(c: CrimeHeadCount) {
    c.pending > 0
  }

  /** No case, no count. */
  lemma TallyEmpty()
    ensures forall i :: 0 <= i < |Groups| ==> Tally([])[i].pending == 0
  {
  }

  /** One more case adds one to the count of every head it counts under, and nothing elsewhere. */
  lemma TallyAppend(cases: seq<RecordData>, x: RecordData)
    ensures forall i :: 0 <= i < |Groups| ==>
      Tally(cases + [x])[i].pending == Tally(cases)[i].pending + (if CountsUnder(x, Groups[i]) then 1 else 0)
  {
    forall i | 0 <= i < |Groups|
      ensures Tally(cases + [x])[i].pending == Tally(cases)[i].pending + (if CountsUnder(x, Groups[i]) then 1 else 0)
    {
      var p := (r: RecordData) => CountsUnder(r, Groups[i]);
      Seqs.CountAppend(cases, [x], p);
      assert [x][..0] == [];
    }
  }

  /** A single pending case under section 302 is one murder. */
  lemma MurderCaseCounted(x: RecordData)
    requires SectionOf(x) == "302"
    ensures Tally([x])[0] == CrimeHeadCount("Murder", "हत्या", 1)
  {
    TallyAppend([], x);
    assert [] + [x] == [x];
    ContainsWhenOccurs("302", SectionMap["murder"][0], 0);
    assert CountsUnder(x, Groups[0]);
  }

  /** The position of a head in the report order, or -1 for a name that is not a head's. */
  function HeadPosition(name: string): (k: int)
    ensures -1 <= k < |Groups|
    ensures k >= 0 ==> Groups[k].title == name
    ensures k == -1 <==> forall i :: 0 <= i < |Groups| ==> Groups[i].title != name
  {
    match Seqs.FirstIndex(Groups, (g: CrimeGroup) => g.title == name)
    case None => -1
    case Some(i) => i
  }

  /** Every head has its own title. */
  lemma HeadTitlesDistinct()
    ensures forall i, j :: 0 <= i < j < |Groups| ==> Groups[i].title != Groups[j].title
  {
  }

  /** Each head's title leads back to its own position. */
  lemma HeadPositionOfTitle(i: nat)
    requires i < |Groups|
    ensures HeadPosition(Groups[i].title) == i
  {
    HeadTitlesDistinct();
  }

  /** The tally rows stand in head order: row `i` is head `i`. */
  lemma TallyRowPositions(cases: seq<RecordData>)
    ensures forall i :: 0 <= i < |Groups| ==> HeadPosition(Tally(cases)[i].name) == i
  {
    forall i | 0 <= i < |Groups| ensures HeadPosition(Tally(cases)[i].name) == i {
      HeadPositionOfTitle(i);
    }
  }

  /** Keeping the positive rows of rows in head order keeps head order. */
  lemma ReportedInOrder(rows: seq<CrimeHeadCount>)
    requires forall i :: 0 <= i < |rows| ==> HeadPosition(rows[i].name) == i
    ensures forall k, l :: 0 <= k < l < |Reported(rows)| ==>
      0 <= HeadPosition(Reported(rows)[k].name) < HeadPosition(Reported(rows)[l].name)
  {
    var key := (c: CrimeHeadCount) => HeadPosition(c.name);
    assert forall i :: 0 <= i < |rows| ==> key(rows[i]) == i;
    Seqs.FilterKeepsOrder(rows, HasPending, key);
    var report := Reported(rows);
    forall k | 0 <= k < |report| ensures 0 <= key(report[k]) {
      var i :| 0 <= i < |rows| && rows[i] == report[k];
    }
  }

  /**
   * The report lists tally rows only, in head order and without repeats;
   * with the membership clause of `PendingCasesByCrimeHead` it is exactly
   * the heads with pending cases, in report order.
   */
  lemma ReportInHeadOrder(records: seq<RecordData>, stationId: string, year: int, month: string,
                          dateOf: Value -> Option<(int, nat)>)
    ensures var report := PendingCasesByCrimeHead(records, stationId, year, month, dateOf);
      forall k, l :: 0 <= k < l < |report| ==> 0 <= HeadPosition(report[k].name) < HeadPosition(report[l].name)
    ensures MonthIndex(month).Some? ==>
      var rows := Tally(PendingCases(records, stationId, year, MonthIndex(month).value, dateOf));
      var report := PendingCasesByCrimeHead(records, stationId, year, month, dateOf);
      forall k :: 0 <= k < |report| ==> report[k] in rows
  {
    if MonthIndex(month).Some? {
      var cases := PendingCases(records, stationId, year, MonthIndex(month).value, dateOf);
      TallyRowPositions(cases);
      ReportedInOrder(Tally(cases));
    }
  }

  /** The month name is compared without regard to case. */
  lemma MonthCaseInsensitive(records: seq<RecordData>, stationId: string, year: int, month: string,
                             dateOf: Value -> Option<(int, nat)>)
    ensures PendingCasesByCrimeHead(records, stationId, year, Lower(month), dateOf) ==
            PendingCasesByCrimeHead(records, stationId, year, month, dateOf)
  {
    LowerIdempotent(month);
  }

  /** A stored record that is not a pending case of the station and month changes nothing. */
  lemma OtherRecordsIgnored(records: seq<RecordData>, x: RecordData, stationId: string, year: int, month: string,
                            dateOf: Value -> Option<(int, nat)>)
    requires MonthIndex(month).Some? ==> !IsPendingCase(x, stationId, year, MonthIndex(month).value, dateOf)
    ensures PendingCasesByCrimeHead(records + [x], stationId, year, month, dateOf) ==
            PendingCasesByCrimeHead(records, stationId, year, month, dateOf)
  {
    if MonthIndex(month).Some? {
      var m := MonthIndex(month).value;
      PendingCasesAppend(records, x, stationId, year, m, dateOf);
      var cases := PendingCases(records, stationId, year, m, dateOf);
      assert PendingCases(records + [x], stationId, year, m, dateOf) == cases;
    }
  }

  lemma PendingCasesAppend(records: seq<RecordData>, x: RecordData, stationId: string, year: int, monthIndex: nat,
                           dateOf: Value -> Option<(int, nat)>)
    ensures PendingCases(records + [x], stationId, year, monthIndex, dateOf) ==
      PendingCases(records, stationId, year, monthIndex, dateOf) +
      (if IsPendingCase(x, stationId, year, monthIndex, dateOf) then [x] else [])
  {
    var p := (r: RecordData) => IsPendingCase(r, stationId, year, monthIndex, dateOf);
    Seqs.FilterAppend(records, [x], p);
    Seqs.FilterSingleton(x, p);
  }

  /** A pending case with an empty section counts under no head. */
  lemma EmptySectionCountsNowhere(r: RecordData, g: CrimeGroup)
    requires SectionOf(r) == ""
    ensures !CountsUnder(r, g)
  {
  }

  /** So adding a pending case with an empty section leaves every count as it was. */
  lemma EmptySectionLeavesTally(cases: seq<RecordData>, x: RecordData)
    requires SectionOf(x) == ""
    ensures Tally(cases + [x]) == Tally(cases)
  {
    forall i | 0 <= i < |Groups|
      ensures Tally(cases + [x])[i] == Tally(cases)[i]
    {
      var p := (r: RecordData) => CountsUnder(r, Groups[i]);
      Seqs.CountAppend(cases, [x], p);
      assert [x][..0] == [];
    }
  }

  /** Section 380 is both a burglary and a theft section: such a case counts twice and never as other IPC. */
  lemma Section380CountsTwice(section: string)
    requires Contains(section, "380")
    ensures SectionMatchesGroup(section, "burglary")
    ensures SectionMatchesGroup(section, "theft")
    ensures !IsOtherIpc(section)
  {
    assert SectionMap["burglary"][8] == "380";
    assert SectionMap["theft"][1] == "380";
  }

  /** A case counts as other IPC exactly when its section is non-empty and matches none of the nine heads. */
  lemma OtherIpcExactlyUnmatched(section: string)
    ensures IsOtherIpc(section) <==>
      section != "" && forall i :: 0 <= i < 9 ==> !SectionMatchesGroup(section, Groups[i].id)
  {
    forall g | g in SectionMap ensures exists i :: 0 <= i < 9 && Groups[i].id == g {
      if g == "murder" { assert Groups[0].id == g; }
      else if g == "attempt_to_murder" { assert Groups[1].id == g; }
      else if g == "dacoity" { assert Groups[2].id == g; }
      else if g == "robbery" { assert Groups[3].id == g; }
      else if g == "kidnapping" { assert Groups[4].id == g; }
      else if g == "rape" { assert Groups[5].id == g; }
      else if g == "riot" { assert Groups[6].id == g; }
      else if g == "burglary" { assert Groups[7].id == g; }
      else { assert Groups[8].id == g; }
    }
  }
}
