/**
 * The first script, majority-judgment.py: no category names, no checks, no column
 * dropped; every column is counted over the five fixed ratings 1..5.
 */
module Legacy {
  import opened Wrappers
  import opened Aggregation
  import opened AggregationProperties
  import opened Survey

  /** Line 19: the ratings run over range(1, 6). */
  const LEVELS: nat := 5

  /** `read_and_aggregate_csv(file_path)` of lines 14-23: the loop over the columns, k fixed at 5. */
  method ReadAndAggregate(t: Table) returns (r: Result<seq<QuestionCounts>, AggError>)
    requires Rectangular(t) && TextColumnsHoldNoNumbers(t)
    ensures r == AggregateColumns(t, Ranks(LEVELS))
  {
    r := CountColumns(t.header, Columns(t), Ranks(LEVELS));
  }

  /**
   * On ratings 1..5 only: one vector per question, in column order, each of five
   * entries where entry r counts the cells holding r + 1, adding up to the rows.
   */
  lemma FiveRatings(t: Table)
    requires Rectangular(t) && AllInScale(t, Ranks(LEVELS))
    ensures AggregateColumns(t, Ranks(LEVELS)).Ok?
    ensures var results := AggregateColumns(t, Ranks(LEVELS)).value;
      && |results| == |t.header|
      && forall j :: 0 <= j < |t.header| ==>
        && results[j].question == t.header[j]
        && |results[j].counts| == LEVELS
        && (forall r :: 0 <= r < LEVELS ==> results[j].counts[r] == multiset(Column(t, j))[Num(r + 1)])
        && Sum(results[j].counts) == |t.rows|
  {
    AggregateColumnsInScale(t, Ranks(LEVELS));
    forall j | 0 <= j < |t.header|
      ensures MapColumn(Column(t, j), Ranks(LEVELS)) == Column(t, j)
    {
      RankColumnUnchanged(Column(t, j), LEVELS);
    }
  }

  /**
   * A column holding text: the zero-fill adds the int keys 1..5 to an index that
   * holds text, and sorting that index raises.
   */
  lemma TextCellRaises(t: Table, i: nat, j: nat)
    requires Rectangular(t)
    requires i < |t.rows| && j < |t.header| && t.rows[i][j].Label?
    ensures AggregateColumns(t, Ranks(LEVELS)).Err?
  {
    var cols := Columns(t);
    assert MapColumn(cols[j], Ranks(LEVELS))[i].Label?;
    assert MixedColumn(cols[j], Ranks(LEVELS));
  }

  /**
   * Lines 64-70 on a question answered by at least one rating, all in 1..5: the
   * highlighted rating is the lower median of the ratings, and its segment starts
   * after the counts of the lower ratings.
   */
  lemma HighlightedRating(vals: seq<int>)
    requires forall v :: v in vals ==> 1 <= v <= LEVELS
    requires |vals| > 0
    ensures MajorityIndex(CountVector(vals, LEVELS)).Some?
    ensures var g := MajorityIndex(CountVector(vals, LEVELS)).value + 1;
      && 1 <= g <= LEVELS
      && 2 * AtMost(vals, g) >= |vals|
      && 2 * AtMost(vals, g - 1) < |vals|
      && LeftOffset(CountVector(vals, LEVELS), g - 1) == AtMost(vals, g - 1)
  {
    MajorityGradeIsLowerMedian(vals, LEVELS);
  }
}
