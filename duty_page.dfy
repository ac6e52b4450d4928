/**
 * The duty chart page: editing a card's officer list, and laying the cards
 * out in two columns beside the personnel list. Each card is drawn over
 * 2 + (number of officers) grid rows; cards are placed greedily into the
 * shorter column, and each column stacks its cards from grid row 2 down.
 */
module DutyPage {
  import opened Wrappers
  import opened Entities
  import opened Strings
  import opened Seqs

  // ---------------------------------------------------------------------
  // Editing the officers of a card

  /** A line of the text area that is kept: one with a character that is not white space. */
  predicate NonBlank(line: string) {
    Trim(line) != ""
  }

  /**
   * `handleTextChange`: the lines of the text area, split on line feeds,
   * without the blank ones; kept lines are not trimmed and stay in order.
   */
  function ParseOfficers(text: string): (officers: seq<string>)
    ensures forall k :: 0 <= k < |officers| ==> officers[k] in Split(text, "\n") && NonBlank(officers[k])
    ensures forall k :: 0 <= k < |Split(text, "\n")| && NonBlank(Split(text, "\n")[k]) ==>
      Split(text, "\n")[k] in officers
  {
    Filter(Split(text, "\n"), NonBlank)
  }

  /**
   * The text area shows `officers.join('\n')`; reading it back without
   * change gives the same list whenever no officer holds a line feed or is
   * blank.
   */
  lemma EditRoundTrip(officers: seq<string>)
    requires forall k :: 0 <= k < |officers| ==> '\n' !in officers[k] && !AllWhitespace(officers[k])
    ensures ParseOfficers(Join(officers, "\n")) == officers
  {
    forall k | 0 <= k < |officers| ensures NonBlank(officers[k]) {
      TrimEmptyIff(officers[k]);
    }
    if officers == [] {
      assert IndexOf("", "\n") == None;
      assert Split("", "\n") == [""];
      TrimEmptyIff("");
      FilterSingleton("", NonBlank);
    } else {
      SplitJoin(officers, '\n');
      FilterAll(officers, NonBlank);
    }
  }

  /** Blank lines, wherever they are typed, are dropped. */
  lemma BlankLineDropped(text: string, blank: string)
    requires '\n' !in blank && AllWhitespace(blank)
    ensures ParseOfficers(blank + "\n" + text) == ParseOfficers(text)
  {
    var s := blank + "\n" + text;
    forall j: nat | j < |blank| ensures !OccursAt(s, "\n", j) {
      assert s[j..j + 1] == [blank[j]] && blank[j] in blank;
    }
    assert OccursAt(s, "\n", |blank|) by { assert s[|blank|..|blank| + 1] == "\n"; }
    assert IndexOf(s, "\n") == Some(|blank|);
    assert s[..|blank|] == blank;
    assert s[|blank| + 1..] == text;
    assert Split(s, "\n") == [blank] + Split(text, "\n");
    FilterAppend([blank], Split(text, "\n"), NonBlank);
    TrimEmptyIff(blank);
    FilterSingleton(blank, NonBlank);
  }

  /**
   * `handleAssignmentUpdate(title, newOfficers)`: every card with that
   * title gets the new officers; a chart that is not there stays absent.
   */
  function UpdateAssignment(chart: Option<DutyChart>, title: string, newOfficers: seq<string>): (r: Option<DutyChart>)
    ensures r.None? <==> chart.None?
    ensures chart.Some? ==>
      && r.value.date == chart.value.date
      && r.value.personnel == chart.value.personnel
      && r.value.summary == chart.value.summary
      && |r.value.assignments| == |chart.value.assignments|
    ensures chart.Some? ==> forall i :: 0 <= i < |chart.value.assignments| ==>
      var before := chart.value.assignments[i];
      var after := r.value.assignments[i];
      && after.title == before.title
      && after.titleHi == before.titleHi
      && after.subtext == before.subtext
      && after.subtextHi == before.subtextHi
      && after.officers == (if before.title == title then newOfficers else before.officers)
  {
    match chart
    case None => None
    case Some(c) =>
      Some(c.(assignments := seq(|c.assignments|, i requires 0 <= i < |c.assignments| =>
        if c.assignments[i].title == title then c.assignments[i].(officers := newOfficers) else c.assignments[i])))
  }

  /** Saving the same edit twice is the same as saving it once. */
  lemma UpdateIdempotent(chart: Option<DutyChart>, title: string, newOfficers: seq<string>)
    ensures UpdateAssignment(UpdateAssignment(chart, title, newOfficers), title, newOfficers) ==
            UpdateAssignment(chart, title, newOfficers)
  {
    if chart.Some? {
      var once := UpdateAssignment(chart, title, newOfficers).value.assignments;
      var twice := UpdateAssignment(UpdateAssignment(chart, title, newOfficers), title, newOfficers).value.assignments;
      assert twice == once;
    }
  }

  /** Edits of cards with different titles do not interfere: their order does not matter. */
  lemma UpdatesCommute(chart: Option<DutyChart>, t1: string, o1: seq<string>, t2: string, o2: seq<string>)
    requires t1 != t2
    ensures UpdateAssignment(UpdateAssignment(chart, t1, o1), t2, o2) ==
            UpdateAssignment(UpdateAssignment(chart, t2, o2), t1, o1)
  {
    if chart.Some? {
      var a := UpdateAssignment(UpdateAssignment(chart, t1, o1), t2, o2).value.assignments;
      var b := UpdateAssignment(UpdateAssignment(chart, t2, o2), t1, o1).value.assignments;
      assert a == b;
    }
  }

  // ---------------------------------------------------------------------
  // Cards and their spans

  /** A card to place: an assignment and the number of grid rows it covers. */
  datatype Card = Card(content: DutyAssignment, span: nat)

  /** The cards of the chart, one per assignment and in order, each spanning 2 rows plus one per officer. */
  function CardsOf(assignments: seq<DutyAssignment>): (cards: seq<Card>)
    ensures |cards| == |assignments|
    ensures forall i :: 0 <= i < |cards| ==>
      cards[i].content == assignments[i] && cards[i].span == 2 + |assignments[i].officers|
  {
    seq(|assignments|, i requires 0 <= i < |assignments| => Card(assignments[i], 2 + |assignments[i].officers|))
  }

  /** The rows a sequence of cards covers when stacked. */
  function SumSpans(cards: seq<Card>): nat
    decreases |cards|
  {
    if cards == [] then 0 else SumSpans(cards[..|cards| - 1]) + cards[|cards| - 1].span
  }

  /** The largest span, 0 for no card. */
  function MaxSpan(cards: seq<Card>): (m: nat)
    ensures forall i :: 0 <= i < |cards| ==> cards[i].span <= m
    ensures cards != [] ==> exists i :: 0 <= i < |cards| && cards[i].span == m
    ensures cards == [] ==> m == 0
    decreases |cards|
  {
    if cards == [] then 0
    else
      var m := MaxSpan(cards[..|cards| - 1]);
      var x := cards[|cards| - 1].span;
      if x > m then x else m
  }

  /** A stack's height grows by each card's span. */
  lemma {:induction false} SumSpansAppend(a: seq<Card>, b: seq<Card>)
    ensures SumSpans(a + b) == SumSpans(a) + SumSpans(b)
    decreases |b|
  {
    if b == [] {
      assert a + b == a;
    } else {
      SumSpansAppend(a, b[..|b| - 1]);
      assert (a + b)[..|a + b| - 1] == a + b[..|b| - 1];
    }
  }

  // ---------------------------------------------------------------------
  // Splitting the cards between two columns

  /** Two columns and their heights. */
  datatype Columns = Columns(col1: seq<Card>, col2: seq<Card>, col1Height: nat, col2Height: nat)

  /**
   * The greedy placement: each card in turn goes to column 1 when column 1
   * is not taller than column 2, and to column 2 otherwise.
   */
  function Layout(cards: seq<Card>): Columns
    decreases |cards|
  {
    if cards == [] then Columns([], [], 0, 0)
    else
      var c := Layout(cards[..|cards| - 1]);
      var x := cards[|cards| - 1];
      if c.col1Height <= c.col2Height then Columns(c.col1 + [x], c.col2, c.col1Height + x.span, c.col2Height)
      else Columns(c.col1, c.col2 + [x], c.col1Height, c.col2Height + x.span)
  }

  /**
   * `a` and `b` split `s`: every element of `s` is in exactly one of them,
   * and each keeps the order the elements have in `s`.
   */
  predicate Interleaving<T(==)>(s: seq<T>, a: seq<T>, b: seq<T>)
    decreases |s|
  {
    if s == [] then a == [] && b == []
    else
      || (a != [] && a[|a| - 1] == s[|s| - 1] && Interleaving(s[..|s| - 1], a[..|a| - 1], b))
      || (b != [] && b[|b| - 1] == s[|s| - 1] && Interleaving(s[..|s| - 1], a, b[..|b| - 1]))
  }

  /** An interleaving is a partition of the elements. */
  lemma {:induction false} InterleavingPartition<T>(s: seq<T>, a: seq<T>, b: seq<T>)
    requires Interleaving(s, a, b)
    ensures multiset(a) + multiset(b) == multiset(s)
    ensures |a| + |b| == |s|
    decreases |s|
  {
    if s != [] {
      var s' := s[..|s| - 1];
      assert s == s' + [s[|s| - 1]];
      if a != [] && a[|a| - 1] == s[|s| - 1] && Interleaving(s', a[..|a| - 1], b) {
        InterleavingPartition(s', a[..|a| - 1], b);
        assert a == a[..|a| - 1] + [a[|a| - 1]];
      } else {
        InterleavingPartition(s', a, b[..|b| - 1]);
        assert b == b[..|b| - 1] + [b[|b| - 1]];
      }
    }
  }

  /** Every card lands in exactly one column, each column in card order. */
  lemma {:induction false} LayoutInterleaves(cards: seq<Card>)
    ensures Interleaving(cards, Layout(cards).col1, Layout(cards).col2)
    decreases |cards|
  {
    if cards != [] {
      var init := cards[..|cards| - 1];
      LayoutInterleaves(init);
      var c := Layout(init);
      if c.col1Height <= c.col2Height {
        assert (c.col1 + [cards[|cards| - 1]])[..|c.col1|] == c.col1;
      } else {
        assert (c.col2 + [cards[|cards| - 1]])[..|c.col2|] == c.col2;
      }
    }
  }

  /** Each height is the rows its column covers; together they cover every card's rows. */
  lemma {:induction false} LayoutHeights(cards: seq<Card>)
    ensures Layout(cards).col1Height == SumSpans(Layout(cards).col1)
    ensures Layout(cards).col2Height == SumSpans(Layout(cards).col2)
    ensures Layout(cards).col1Height + Layout(cards).col2Height == SumSpans(cards)
    decreases |cards|
  {
    if cards != [] {
      var init := cards[..|cards| - 1];
      LayoutHeights(init);
      var c := Layout(init);
      var x := cards[|cards| - 1];
      assert SumSpans(cards) == SumSpans(init) + x.span;
      assert SumSpans([x]) == x.span by { assert [x][..0] == []; }
      if c.col1Height <= c.col2Height {
        SumSpansAppend(c.col1, [x]);
      } else {
        SumSpansAppend(c.col2, [x]);
      }
    }
  }

  /** The two columns differ in height by at most the largest span. */
  lemma {:induction false} LayoutBalanced(cards: seq<Card>)
    ensures Layout(cards).col1Height <= Layout(cards).col2Height + MaxSpan(cards)
    ensures Layout(cards).col2Height <= Layout(cards).col1Height + MaxSpan(cards)
    decreases |cards|
  {
    if cards != [] {
      var init := cards[..|cards| - 1];
      LayoutBalanced(init);
      assert MaxSpan(init) <= MaxSpan(cards);
    }
  }

  /** Placing further cards only adds to the end of each column. */
  lemma {:induction false} LayoutGrows(cards: seq<Card>, j: nat)
    requires j <= |cards|
    ensures Layout(cards[..j]).col1 <= Layout(cards).col1
    ensures Layout(cards[..j]).col2 <= Layout(cards).col2
    decreases |cards|
  {
    if j < |cards| {
      var init := cards[..|cards| - 1];
      LayoutGrows(init, j);
      assert init[..j] == cards[..j];
    } else {
      assert cards[..j] == cards;
    }
  }

  /**
   * Card `i` ends up in column 1, right after the cards column 1 already
   * held, exactly when column 1 was not taller than column 2 before it was
   * placed; otherwise it ends up in column 2 in the same way.
   */
  lemma PlacedByHeights(cards: seq<Card>, i: nat)
    requires i < |cards|
    ensures var before := Layout(cards[..i]);
      before.col1Height <= before.col2Height ==>
        |before.col1| < |Layout(cards).col1| && Layout(cards).col1[|before.col1|] == cards[i]
    ensures var before := Layout(cards[..i]);
      before.col1Height > before.col2Height ==>
        |before.col2| < |Layout(cards).col2| && Layout(cards).col2[|before.col2|] == cards[i]
  {
    LayoutGrows(cards, i + 1);
    assert cards[..i + 1][..i] == cards[..i];
  }

  /** The first card always goes to the top of column 1. */
  lemma FirstCardLeft(cards: seq<Card>)
    requires cards != []
    ensures Layout(cards).col1 != [] && Layout(cards).col1[0] == cards[0]
  {
    PlacedByHeights(cards, 0);
    assert cards[..0] == [];
  }

  /**
   * The `forEach` that splits the cards: columns and heights are those of
   * the greedy placement, so every card is in one column, in order, the
   * heights add up and differ by at most the largest span.
   */
  method Balance(assignments: seq<DutyAssignment>) returns (col1: seq<Card>, col2: seq<Card>, col1Height: nat, col2Height: nat)
    ensures Columns(col1, col2, col1Height, col2Height) == Layout(CardsOf(assignments))
    ensures Interleaving(CardsOf(assignments), col1, col2)
    ensures col1Height + col2Height == SumSpans(CardsOf(assignments))
    ensures col1Height <= col2Height + MaxSpan(CardsOf(assignments))
    ensures col2Height <= col1Height + MaxSpan(CardsOf(assignments))
  {
    var cards := CardsOf(assignments);
    col1, col2, col1Height, col2Height := [], [], 0, 0;
    for i := 0 to |cards|
      invariant Columns(col1, col2, col1Height, col2Height) == Layout(cards[..i])
    {
      assert cards[..i + 1][..i] == cards[..i];
      var card := cards[i];
      if col1Height <= col2Height {
        col1 := col1 + [card];
        col1Height := col1Height + card.span;
      } else {
        col2 := col2 + [card];
        col2Height := col2Height + card.span;
      }
    }
    assert cards[..|cards|] == cards;
    LayoutInterleaves(cards);
    LayoutHeights(cards);
    LayoutBalanced(cards);
  }

  // ---------------------------------------------------------------------
  // Rows of the grid

  /** `gridRowCount`: one more than the tallest of the personnel list and the two columns. */
  function GridRowCount(personnelCount: nat, col1Height: nat, col2Height: nat): (n: nat)
    ensures n > personnelCount && n > col1Height && n > col2Height
    ensures n - 1 == personnelCount || n - 1 == col1Height || n - 1 == col2Height
  {
    var m := if personnelCount >= col1Height then personnelCount else col1Height;
    (if m >= col2Height then m else col2Height) + 1
  }

  /** The first grid row of block `i` of a column (row 1 holds the headers). */
  function StartRow(column: seq<Card>, i: nat): nat
    requires i <= |column|
  {
    2 + SumSpans(column[..i])
  }

  /** A block ends where the next one starts: blocks of a column neither overlap nor leave gaps. */
  lemma BlocksAbut(column: seq<Card>, i: nat)
    requires i < |column|
    ensures StartRow(column, i) + column[i].span == StartRow(column, i + 1)
  {
    assert column[..i + 1][..i] == column[..i];
  }

  /**
   * The row-start computation of a column: `currentRow` starts at 2 and
   * grows by each block's span.
   */
  method RowStarts(column: seq<Card>) returns (starts: seq<nat>)
    ensures |starts| == |column|
    ensures forall i :: 0 <= i < |column| ==> starts[i] == 2 + SumSpans(column[..i])
  {
    var currentRow := 2;
    starts := [];
    for i := 0 to |column|
      invariant |starts| == i
      invariant currentRow == 2 + SumSpans(column[..i])
      invariant forall k :: 0 <= k < i ==> starts[k] == 2 + SumSpans(column[..k])
    {
      starts := starts + [currentRow];
      BlocksAbut(column, i);
      currentRow := currentRow + column[i].span;
    }
  }

  /** The rows of a column's first `i` blocks are within the column's height. */
  lemma BlockWithinColumn(column: seq<Card>, i: nat)
    requires i < |column|
    ensures SumSpans(column[..i]) + column[i].span <= SumSpans(column)
  {
    SumSpansAppend(column[..i + 1], column[i + 1..]);
    assert column[..i + 1] + column[i + 1..] == column;
    BlocksAbut(column, i);
  }

  /**
   * Everything drawn fits in the grid of `gridRowCount` rows: the last
   * person's row `index + 2`, and the last row of every block of either column.
   */
  lemma GridHoldsEverything(chart: DutyChart)
    ensures var cols := Layout(CardsOf(chart.assignments));
      var n := GridRowCount(|chart.personnel|, cols.col1Height, cols.col2Height);
      && |chart.personnel| + 1 <= n
      && (forall i :: 0 <= i < |cols.col1| ==> StartRow(cols.col1, i) + cols.col1[i].span - 1 <= n)
      && (forall i :: 0 <= i < |cols.col2| ==> StartRow(cols.col2, i) + cols.col2[i].span - 1 <= n)
  {
    var cols := Layout(CardsOf(chart.assignments));
    LayoutHeights(CardsOf(chart.assignments));
    forall i | 0 <= i < |cols.col1| ensures StartRow(cols.col1, i) + cols.col1[i].span - 1 <= cols.col1Height + 1 {
      BlockWithinColumn(cols.col1, i);
    }
    forall i | 0 <= i < |cols.col2| ensures StartRow(cols.col2, i) + cols.col2[i].span - 1 <= cols.col2Height + 1 {
      BlockWithinColumn(cols.col2, i);
    }
  }
}
