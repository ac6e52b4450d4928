/**
 * The seed duty chart of a station: a list of rows, each naming one person
 * of the station's personnel and possibly carrying duty cards for the two
 * card columns. The exported chart flattens the rows into a personnel list
 * and a card list.
 */
module DutyData {
  import opened Wrappers
  import opened Entities
  import opened Seqs

  /** The seed rows, in chart order. */
  const Rows: seq<DutyRow> := [
    DutyRow(DutyPersonnel(1, "श्री विक्रम सिंह", "पुलिस निरीक्षक", "SHO", "P"),
      Some(RowAssignments(
        Some(DutyRowAssignment(DutyAssignment("Upcoming DO 8.00 AM to 8.00 AM", "आगामी डीओ 8.00 AM से 8.00 AM", ["01. श्री अमराराम सउनि", "02. श्री शेख कानि 2948", "03. श्री मानसिंह कानि. 626"], None, None), 4)),
        Some(DutyRowAssignment(DutyAssignment("Surveillance", "निगरानी", ["01.श्री योगेन्द्र कानि 1955", "02.श्री रमेश कानि. 2350"], None, None), 8))))),
    DutyRow(DutyPersonnel(2, "श्री छितरलाल", "सउनि", "", "P"), None),
    DutyRow(DutyPersonnel(3, "श्री गोपालसिंह", "सउनि", "", "P"), None),
    DutyRow(DutyPersonnel(4, "श्री हरबानसिंह", "सउनि", "", "P"), None),
    DutyRow(DutyPersonnel(5, "श्री अमराराम", "सउनि", "", "P"),
      Some(RowAssignments(
        Some(DutyRowAssignment(DutyAssignment("Evening Patrol", "सायंकालीन पैदल गश्त", ["01.श्रीमान थानाधिकारी महोदय", "02.श्री अजीत सिंह हैडकानि 1984", "03.श्री गजेन्द्र कानि 2423", "04.श्री अमित कानि. 2972", "05. श्री सुनील कानि 2035"], None, None), 13)),
        None))),
    DutyRow(DutyPersonnel(6, "श्री अजीत सिंह", "हैडकानि 1438", "", "P"), None),
    DutyRow(DutyPersonnel(7, "श्री हबीब खां", "हैडकानि 1984", "", "P"), None),
    DutyRow(DutyPersonnel(8, "श्री रामस्वरूप", "हैडकानि 1611", "HM force", "P"), None),
    DutyRow(DutyPersonnel(9, "श्री हीरालाल", "हैडकानि 1310", "HM/M", "A"),
      Some(RowAssignments(
        None,
        Some(DutyRowAssignment(DutyAssignment("Night LC", "रात्रि एलसी", ["श्री सुरेन्द्र कानि. 1017"], None, None), 8))))),
    DutyRow(DutyPersonnel(10, "श्री अमित", "कानि 755", "आसुचना", "P"), None),
    DutyRow(DutyPersonnel(11, "श्री प्रेमाराम", "कानि 3146", "आसुचना", "P"), None),
    DutyRow(DutyPersonnel(12, "श्री सहीराम", "कानि. 1359", "Crime LC", "D"), None),
    DutyRow(DutyPersonnel(13, "श्री रामनिवास", "कानि 1919", "M/LC", "P"), None),
    DutyRow(DutyPersonnel(14, "श्री ओमा राम", "कानि 2859", "CCTNS LC", "P"), None),
    DutyRow(DutyPersonnel(15, "श्री हरेन्द्र", "कानि 2209", "S/W LC", "D"), None),
    DutyRow(DutyPersonnel(16, "श्री परसाराम", "कानि 721", "WIN./LC", "D"), None),
    DutyRow(DutyPersonnel(17, "श्री शिवकरण", "कानि 1149", "Court LC", "D"), None),
    DutyRow(DutyPersonnel(18, "श्री अशोक", "कानि 3237", "SHO/LC", "P"),
      Some(RowAssignments(
        Some(DutyRowAssignment(DutyAssignment("Leave", "सीएल/पीएल अवकाश", [], None, None), 10)),
        Some(DutyRowAssignment(DutyAssignment("Absent", "गैर हाजिर", ["01. श्री हीरालाल 1310", "02. श्री हेमाराम कानि 2101", "03. श्रीमति संतोष मकानि 1921", "04. श्री सुरेन्द्र कानि 2836", "05. श्री कैलाश कानि 2328"], None, None), 10))))),
    DutyRow(DutyPersonnel(19, "श्री सुखवीर", "कानि 640", "IO/LC", "P"), None),
    DutyRow(DutyPersonnel(20, "श्री हरिराम", "कानि 2398", "IO/LC", "P"), None),
    DutyRow(DutyPersonnel(21, "श्री सुरेन्द्र", "कानि 2836", "IO/LC", "A"), None),
    DutyRow(DutyPersonnel(22, "श्री जितेन्द्र", "कानि 2006", "", "P"), None),
    DutyRow(DutyPersonnel(23, "श्री गुलशन", "कानि 3175", "", "P"), None),
    DutyRow(DutyPersonnel(24, "श्री जगदीश", "कानि 2415", "", "P"), None),
    DutyRow(DutyPersonnel(25, "श्री अमित", "कानि 2972", "", "P"), None),
    DutyRow(DutyPersonnel(26, "श्री हेमाराम", "कानि 2101", "", "A"), None),
    DutyRow(DutyPersonnel(27, "श्री पूरण", "कानि 660", "", "P"), None),
    DutyRow(DutyPersonnel(28, "श्री भोजराज", "कानि 862", "", "P"),
      Some(RowAssignments(
        Some(DutyRowAssignment(DutyAssignment("Mail Duty", "डाक ड्यूटी", ["श्री रिछपाल कानि 2613"], None, None), 6)),
        Some(DutyRowAssignment(DutyAssignment("Outstation Duty", "बाहर ड्यूटी", ["श्री शिवकरण कानि 1149", "श्री देवेन्द्र कानि 1243"], None, None), 8))))),
    DutyRow(DutyPersonnel(29, "श्री सुरेन्द्र", "कानि. 1017", "", "P"), None),
    DutyRow(DutyPersonnel(30, "श्री देवेन्द्र", "कानि 1243", "", "P"), None),
    DutyRow(DutyPersonnel(31, "श्री नरसाराम", "कानि 1530", "", "P"), None),
    DutyRow(DutyPersonnel(32, "श्री धर्मपाल", "कानि 1714", "", "P"), None),
    DutyRow(DutyPersonnel(33, "श्री रिछपाल", "कानि 2613", "", "P"), None),
    DutyRow(DutyPersonnel(34, "श्री गजेन्द्र राम", "कानि 2423", "", "P"),
      Some(RowAssignments(
        Some(DutyRowAssignment(DutyAssignment("Reserve", "बचत", ["श्री श्रवण कानि 1503"], Some("withNightDO"), Some("रात्रि डीओ के साथ-")), 8)),
        None))),
    DutyRow(DutyPersonnel(35, "श्री कैलाश", "कानि 2328", "", "A"), None),
    DutyRow(DutyPersonnel(36, "श्री रामदेव", "कानि 2399", "", "D"),
      Some(RowAssignments(
        None,
        Some(DutyRowAssignment(DutyAssignment("Night Sigma", "रात्रि सिग्मा", ["श्री धर्मपाल कानि. 1714", "श्री प्रधान कानि 486"], None, None), 6))))),
    DutyRow(DutyPersonnel(37, "श्रीमती संतोष", "मकानि 1921", "", "A"), None),
    DutyRow(DutyPersonnel(38, "सुश्री सुमन", "मकानि 1770", "P/LC", "P"), None),
    DutyRow(DutyPersonnel(39, "श्रीमती सुनीता", "मकानि 2303", "CS/FR", "P"), None),
    DutyRow(DutyPersonnel(40, "श्री मानसिंह", "कानि. 626", "Driver", "P"), None),
    DutyRow(DutyPersonnel(41, "श्री सुनील", "कानि 2035", "Driver", "P"),
      Some(RowAssignments(
        None,
        Some(DutyRowAssignment(DutyAssignment("Tomorrow Day Sigma", "कल दिन सिग्मा", ["श्री पूरणमल कानि. 680"], None, None), 1)))))
  ]

  /** The cards one row contributes: its column-1 card before its column-2 card, without spans. */
  function RowCards(row: DutyRow): (cards: seq<DutyAssignment>)
    ensures |cards| == (if row.assignments.Some? && row.assignments.value.col1.Some? then 1 else 0) +
                       (if row.assignments.Some? && row.assignments.value.col2.Some? then 1 else 0)
    ensures row.assignments.None? ==> cards == []
    ensures row.assignments.Some? && row.assignments.value.col1.Some? ==>
      cards[0] == row.assignments.value.col1.value.content
    ensures row.assignments.Some? && row.assignments.value.col2.Some? ==>
      cards[|cards| - 1] == row.assignments.value.col2.value.content
  {
    match row.assignments
    case None => []
    case Some(a) =>
      (if a.col1.Some? then [a.col1.value.content] else []) +
      (if a.col2.Some? then [a.col2.value.content] else [])
  }

  /** The card list of a chart built from `rows`, row by row. */
  function Cards(rows: seq<DutyRow>): (cards: seq<DutyAssignment>)
    ensures |cards| <= 2 * |rows|
    decreases |rows|
  {
    if rows == [] then [] else Cards(rows[..|rows| - 1]) + RowCards(rows[|rows| - 1])
  }

  /** Flattening the rows, as the seed module does with a `forEach` that pushes cards. */
  method FlattenAssignments(rows: seq<DutyRow>) returns (assignments: seq<DutyAssignment>)
    ensures assignments == Cards(rows)
  {
    assignments := [];
    for i := 0 to |rows|
      invariant assignments == Cards(rows[..i])
    {
      var row := rows[i];
      assert rows[..i + 1][..i] == rows[..i];
      if row.assignments.Some? && row.assignments.value.col1.Some? {
        assignments := assignments + [row.assignments.value.col1.value.content];
      }
      if row.assignments.Some? && row.assignments.value.col2.Some? {
        assignments := assignments + [row.assignments.value.col2.value.content];
      }
    }
    assert rows[..|rows|] == rows;
  }

  /** The card list is the row cards flattened in row order. */
  lemma {:induction false} CardsFlatten(rows: seq<DutyRow>)
    ensures Cards(rows) == FlatMap(rows, RowCards)
    decreases |rows|
  {
    if rows != [] {
      CardsFlatten(rows[..|rows| - 1]);
    }
  }

  /** The cards of consecutive row lists are concatenated. */
  lemma CardsAppend(a: seq<DutyRow>, b: seq<DutyRow>)
    ensures Cards(a + b) == Cards(a) + Cards(b)
  {
    CardsFlatten(a + b);
    CardsFlatten(a);
    CardsFlatten(b);
    FlatMapAppend(a, b, RowCards);
  }

  /** A row without cards adds nothing to the card list. */
  lemma CardlessRow(rows: seq<DutyRow>, row: DutyRow)
    requires row.assignments.None?
    ensures Cards(rows + [row]) == Cards(rows)
  {
    assert (rows + [row])[..|rows|] == rows;
  }

  /** Every card of the flattened list is the content of a card placed in some row. */
  lemma {:induction false} CardsComeFromRows(rows: seq<DutyRow>, k: nat)
    requires k < |Cards(rows)|
    ensures exists i :: (0 <= i < |rows| && rows[i].assignments.Some? &&
      ((rows[i].assignments.value.col1.Some? && Cards(rows)[k] == rows[i].assignments.value.col1.value.content) ||
       (rows[i].assignments.value.col2.Some? && Cards(rows)[k] == rows[i].assignments.value.col2.value.content)))
    decreases |rows|
  {
    var n := |rows| - 1;
    var front := Cards(rows[..n]);
    if k < |front| {
      CardsComeFromRows(rows[..n], k);
      var i :| 0 <= i < n && rows[..n][i].assignments.Some? &&
        ((rows[..n][i].assignments.value.col1.Some? && front[k] == rows[..n][i].assignments.value.col1.value.content) ||
         (rows[..n][i].assignments.value.col2.Some? && front[k] == rows[..n][i].assignments.value.col2.value.content));
      assert rows[..n][i] == rows[i];
    } else {
      var row := rows[n];
      assert Cards(rows)[k] == RowCards(row)[k - |front|];
    }
  }

  /**
   * Two rows that agree on which assignments are present and on their
   * contents, and so may differ in the spans and in the personnel.
   */
  predicate SameAssignments(a: DutyRow, b: DutyRow) {
    && a.assignments.Some? == b.assignments.Some?
    && (a.assignments.Some? ==>
          && a.assignments.value.col1.Some? == b.assignments.value.col1.Some?
          && a.assignments.value.col2.Some? == b.assignments.value.col2.Some?
          && (a.assignments.value.col1.Some? ==>
                a.assignments.value.col1.value.content == b.assignments.value.col1.value.content)
          && (a.assignments.value.col2.Some? ==>
                a.assignments.value.col2.value.content == b.assignments.value.col2.value.content))
  }

  /** Spans are layout only: rows that differ only in their spans give the same cards. */
  lemma {:induction false} CardsIgnoreSpans(rows: seq<DutyRow>, other: seq<DutyRow>)
    requires |rows| == |other|
    requires forall i :: 0 <= i < |rows| ==> SameAssignments(rows[i], other[i])
    ensures Cards(rows) == Cards(other)
    decreases |rows|
  {
    if rows != [] {
      CardsIgnoreSpans(rows[..|rows| - 1], other[..|other| - 1]);
    }
  }

  /** `rows.map(row => row.personnel)`: one entry per row, in row order. */
  function PersonnelOf(rows: seq<DutyRow>): (personnel: seq<DutyPersonnel>)
    ensures |personnel| == |rows|
    ensures forall i :: 0 <= i < |rows| ==> personnel[i] == rows[i].personnel
  {
    seq(|rows|, i requires 0 <= i < |rows| => rows[i].personnel)
  }

  /** The exported seed chart: fixed date, flattened lists and the fixed summary. */
  const SeedChart: DutyChart := DutyChart(
    "23.10.2025",
    PersonnelOf(Rows),
    Cards(Rows),
    DutySummary(34, 0, 5, 2))

  /** The seed chart lists the 41 people of the rows, first to last. */
  lemma SeedChartShape()
    ensures |SeedChart.personnel| == 41
    ensures SeedChart.personnel[0].sno == 1 && SeedChart.personnel[40].sno == 41
    ensures SeedChart.date == "23.10.2025"
  {
  }
}
