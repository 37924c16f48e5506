/** What `read_and_aggregate_csv` promises, stated over the model in Aggregation. */
module AggregationProperties {
  import opened Wrappers
  import opened Aggregation

  /** How many times `v` occurs among `vals`, summed over every value in lo..hi. */
  function SumRange(vals: seq<int>, lo: int, hi: int): nat
    decreases hi - lo + 1
  {
    if lo > hi then 0 else multiset(vals)[lo] + SumRange(vals, lo + 1, hi)
  }

  // ---------------------------------------------------------------------------
  // Ranks

  /** With no later repetition, the category name at position i gets rank i + 1. */
  lemma CategoryRank(cats: seq<string>, i: nat)
    requires i < |cats|
    requires forall j :: i < j < |cats| ==> cats[j] != cats[i]
    ensures RankOf(cats, cats[i]) == i + 1
  {
  }

  // ---------------------------------------------------------------------------
  // Sums

  lemma {:induction false} SumConcat(a: seq<nat>, b: seq<nat>)
    ensures Sum(a + b) == Sum(a) + Sum(b)
    decreases |b|
  {
    if b == [] {
      assert a + b == a;
    } else {
      assert (a + b)[..|a + b| - 1] == a + b[..|b| - 1];
      assert (a + b)[|a + b| - 1] == b[|b| - 1];
      SumConcat(a, b[..|b| - 1]);
    }
  }

  /** Adding one value adds one to the sum over a range that holds it, and nothing otherwise. */
  lemma {:induction false} SumRangeSnoc(s: seq<int>, v: int, lo: int, hi: int)
    ensures SumRange(s + [v], lo, hi) == SumRange(s, lo, hi) + (if lo <= v <= hi then 1 else 0)
    decreases hi - lo + 1
  {
    if lo <= hi {
      SumRangeSnoc(s, v, lo + 1, hi);
      assert multiset(s + [v]) == multiset(s) + multiset{v};
    }
  }

  /** Summed over a range holding every value, the occurrence counts add up to the number of values. */
  lemma {:induction false} SumRangeAll(vals: seq<int>, lo: int, hi: int)
    requires forall v :: v in vals ==> lo <= v <= hi
    ensures SumRange(vals, lo, hi) == |vals|
    decreases |vals|
  {
    if vals == [] {
      SumRangeEmpty(lo, hi);
    } else {
      var init := vals[..|vals| - 1];
      assert vals == init + [vals[|vals| - 1]];
      assert forall v :: v in init ==> v in vals;
      assert vals[|vals| - 1] in vals;
      SumRangeAll(init, lo, hi);
      SumRangeSnoc(init, vals[|vals| - 1], lo, hi);
    }
  }

  lemma {:induction false} SumRangeEmpty(lo: int, hi: int)
    ensures SumRange([], lo, hi) == 0
    decreases hi - lo + 1
  {
    if lo <= hi {
      SumRangeEmpty(lo + 1, hi);
    }
  }

  /** The last value of a range can be split off. */
  lemma {:induction false} SumRangeLast(vals: seq<int>, lo: int, hi: int)
    requires lo <= hi
    ensures SumRange(vals, lo, hi) == SumRange(vals, lo, hi - 1) + multiset(vals)[hi]
    decreases hi - lo
  {
    if lo < hi {
      SumRangeLast(vals, lo + 1, hi);
    }
  }

  // ---------------------------------------------------------------------------
  // Count vectors

  /** The zero-filled counts agree with the number of occurrences of each value. */
  lemma ZeroFilledCounts(vals: seq<int>, k: nat)
    ensures forall r :: r in ZeroFilled(ValueCounts(vals), k) ==> ZeroFilled(ValueCounts(vals), k)[r] == multiset(vals)[r]
    ensures forall r :: r !in ZeroFilled(ValueCounts(vals), k) ==> multiset(vals)[r] == 0
    ensures forall r :: 1 <= r <= k ==> r in ZeroFilled(ValueCounts(vals), k)
  {
  }

  /** Listing a range of keys that are all present gives their counts in order. */
  lemma {:induction false} ListingAll(m: map<int, nat>, lo: int, hi: int)
    requires lo <= hi + 1
    requires forall r :: lo <= r <= hi ==> r in m
    ensures |Listing(m, lo, hi)| == hi - lo + 1
    ensures forall i :: 0 <= i < hi - lo + 1 ==> Listing(m, lo, hi)[i] == m[lo + i]
    decreases hi - lo + 1
  {
    if lo <= hi {
      ListingAll(m, lo + 1, hi);
    }
  }

  /** Summing the listing of the zero-filled counts sums the occurrence counts over the range. */
  lemma {:induction false} ListingSum(vals: seq<int>, k: nat, lo: int, hi: int)
    ensures Sum(Listing(ZeroFilled(ValueCounts(vals), k), lo, hi)) == SumRange(vals, lo, hi)
    decreases hi - lo + 1
  {
    var m := ZeroFilled(ValueCounts(vals), k);
    if lo <= hi {
      ListingSum(vals, k, lo + 1, hi);
      ZeroFilledCounts(vals, k);
      var head: seq<nat> := if lo in m then [m[lo]] else [];
      SumConcat(head, Listing(m, lo + 1, hi));
      assert Sum(head) == multiset(vals)[lo];
    }
  }

  /**
   * The counts of a question add up to the number of its non-empty cells, whatever
   * the values: values outside 1..k get entries of their own, missing ranks get 0.
   */
  lemma CountVectorSum(vals: seq<int>, k: nat)
    ensures Sum(CountVector(vals, k)) == |vals|
  {
    ListingSum(vals, k, Lowest(vals, 1), Highest(vals, k));
    SumRangeAll(vals, Lowest(vals, 1), Highest(vals, k));
  }

  /** When every value is a rank 1..k, the vector has k entries and entry r counts rank r + 1. */
  lemma CountVectorInScale(vals: seq<int>, k: nat)
    requires forall v :: v in vals ==> 1 <= v <= k
    ensures |CountVector(vals, k)| == k
    ensures forall r :: 0 <= r < k ==> CountVector(vals, k)[r] == multiset(vals)[r + 1]
  {
    var lo := Lowest(vals, 1);
    var hi := Highest(vals, k);
    assert lo == 1 && hi == k;
    ZeroFilledCounts(vals, k);
    ListingAll(ZeroFilled(ValueCounts(vals), k), 1, k);
  }

  /** The cumulative count up to entry i is the number of values in 1..i + 1. */
  lemma {:induction false} CumulativeCounts(vals: seq<int>, k: nat, i: nat)
    requires forall v :: v in vals ==> 1 <= v <= k
    requires i < k
    ensures |CountVector(vals, k)| == k
    ensures Sum(CountVector(vals, k)[..i + 1]) == SumRange(vals, 1, i + 1)
  {
    CountVectorInScale(vals, k);
    var c := CountVector(vals, k);
    assert c[..i + 1][..i] == c[..i];
    SumRangeLast(vals, 1, i + 1);
    if i > 0 {
      CumulativeCounts(vals, k, i - 1);
    } else {
      assert SumRange(vals, 1, 0) == 0;
      assert c[..0] == [];
    }
  }

  // ---------------------------------------------------------------------------
  // Columns

  /** `Values` keeps the numbers of a column: each number occurs as often as its cell. */
  lemma {:induction false} ValuesCount(col: seq<Cell>, v: int)
    ensures multiset(Values(col))[v] == multiset(col)[Num(v)]
    decreases |col|
  {
    if col != [] {
      var init := col[..|col| - 1];
      ValuesCount(init, v);
      assert col == init + [col[|col| - 1]];
      assert multiset(col) == multiset(init) + multiset{col[|col| - 1]};
      var tail: seq<int> := if col[|col| - 1].Num? then [col[|col| - 1].n] else [];
      assert multiset(Values(col)) == multiset(Values(init)) + multiset(tail);
    }
  }

  /** A column in scale maps to ranks 1..k only: one value per cell and no text left. */
  lemma {:induction false} MappedColumnInScale(col: seq<Cell>, scale: Scale)
    requires forall i :: 0 <= i < |col| ==> InScale(col[i], scale)
    ensures !HasLabel(MapColumn(col, scale))
    ensures |Values(MapColumn(col, scale))| == |col|
    ensures forall v :: v in Values(MapColumn(col, scale)) ==> 1 <= v <= Levels(scale)
    decreases |col|
  {
    if col != [] {
      var init := col[..|col| - 1];
      MappedColumnInScale(init, scale);
      assert MapColumn(col, scale)[..|col| - 1] == MapColumn(init, scale);
      var last := MapCell(col[|col| - 1], scale);
      assert last.Num? && 1 <= last.n <= Levels(scale);
    }
  }

  /** Over ranks, the mapping leaves the column as it is. */
  lemma RankColumnUnchanged(col: seq<Cell>, k: nat)
    ensures MapColumn(col, Ranks(k)) == col
  {
  }

  /** Over distinct category names in scale, rank r + 1 is counted exactly for the cells holding name r. */
  lemma {:induction false} NamedColumnRanks(col: seq<Cell>, cats: seq<string>, r: nat)
    requires r < |cats|
    requires forall i, j :: 0 <= i < j < |cats| ==> cats[i] != cats[j]
    requires forall i :: 0 <= i < |col| ==> InScale(col[i], Names(cats))
    ensures multiset(MapColumn(col, Names(cats)))[Num(r + 1)] == multiset(col)[Label(cats[r])]
    decreases |col|
  {
    if col != [] {
      var init := col[..|col| - 1];
      var c := col[|col| - 1];
      NamedColumnRanks(init, cats, r);
      assert col == init + [c];
      var mapped := MapColumn(col, Names(cats));
      assert mapped == MapColumn(init, Names(cats)) + [MapCell(c, Names(cats))];
      var p := RankOf(cats, c.text) - 1;
      CategoryRank(cats, p);
      CategoryRank(cats, r);
      assert MapCell(c, Names(cats)) == Num(r + 1) <==> c == Label(cats[r]);
    }
  }

  /** The k-level total of a column in scale is the number of its cells. */
  lemma ColumnCountsInScale(col: seq<Cell>, scale: Scale)
    requires forall i :: 0 <= i < |col| ==> InScale(col[i], scale)
    ensures |ColumnCounts(col, scale)| == Levels(scale)
    ensures forall r :: 0 <= r < Levels(scale) ==>
      ColumnCounts(col, scale)[r] == multiset(MapColumn(col, scale))[Num(r + 1)]
    ensures Sum(ColumnCounts(col, scale)) == |col|
  {
    var vals := Values(MapColumn(col, scale));
    MappedColumnInScale(col, scale);
    CountVectorInScale(vals, Levels(scale));
    CountVectorSum(vals, Levels(scale));
    forall v | 1 <= v <= Levels(scale) ensures multiset(vals)[v] == multiset(MapColumn(col, scale))[Num(v)] {
      ValuesCount(MapColumn(col, scale), v);
    }
  }

  /**
   * Lines 50-61 on a table in scale: one vector per column, keyed by the column names
   * in order; each has one entry per grade level, entry r counts the cells of rank
   * r + 1, and the entries add up to the number of rows.
   */
  lemma AggregateColumnsInScale(d: Table, scale: Scale)
    requires Rectangular(d) && AllInScale(d, scale)
    ensures AggregateColumns(d, scale).Ok?
    ensures var results := AggregateColumns(d, scale).value;
      && |results| == |d.header|
      && forall j :: 0 <= j < |d.header| ==>
        && results[j].question == d.header[j]
        && |results[j].counts| == Levels(scale)
        && (forall r :: 0 <= r < Levels(scale) ==>
              results[j].counts[r] == multiset(MapColumn(Column(d, j), scale))[Num(r + 1)])
        && Sum(results[j].counts) == |d.rows|
  {
    var cols := Columns(d);
    forall j | 0 <= j < |cols| ensures !MixedColumn(cols[j], scale) {
      MappedColumnInScale(cols[j], scale);
    }
    NoMixedColumn(cols, scale);
    forall j | 0 <= j < |cols|
      ensures |ColumnCounts(cols[j], scale)| == Levels(scale)
      ensures forall r :: 0 <= r < Levels(scale) ==>
        ColumnCounts(cols[j], scale)[r] == multiset(MapColumn(cols[j], scale))[Num(r + 1)]
      ensures Sum(ColumnCounts(cols[j], scale)) == |d.rows|
    {
      ColumnCountsInScale(cols[j], scale);
    }
  }

  /**
   * When every cell is in scale there is no warning, the keys are the (remaining)
   * column names in order, and each vector has exactly one entry per grade level,
   * entry r counting the cells of rank r + 1, adding up to the number of rows.
   */
  lemma AggregateInScale(t: Table, cats: seq<string>, ignoreFirst: bool, mode: ValuesType)
    requires WellFormed(t) && !mode.OtherValues?
    requires AllInScale(Counted(t, ignoreFirst), ScaleOf(cats, mode))
    ensures var r := Aggregate(t, cats, ignoreFirst, mode);
      var d := Counted(t, ignoreFirst);
      && r.Ok? && !r.value.warning
      && |r.value.results| == |d.header|
      && forall j :: 0 <= j < |d.header| ==>
        && r.value.results[j].question == d.header[j]
        && |r.value.results[j].counts| == |cats|
        && (forall k :: 0 <= k < |cats| ==>
              r.value.results[j].counts[k] == multiset(MapColumn(Column(d, j), ScaleOf(cats, mode)))[Num(k + 1)])
        && Sum(r.value.results[j].counts) == |t.rows|
  {
    var d := Counted(t, ignoreFirst);
    var scale := ScaleOf(cats, mode);
    if mode == IntValues {
      assert !HasTextCell(d);
    }
    AggregateColumnsInScale(d, scale);
  }

  /** In 'int' mode entry r counts the cells holding the number r + 1. */
  lemma IntModeCounts(col: seq<Cell>, k: nat, r: nat)
    requires forall i :: 0 <= i < |col| ==> InScale(col[i], Ranks(k))
    requires r < k
    ensures |ColumnCounts(col, Ranks(k))| == k
    ensures ColumnCounts(col, Ranks(k))[r] == multiset(col)[Num(r + 1)]
  {
    ColumnCountsInScale(col, Ranks(k));
    RankColumnUnchanged(col, k);
  }

  /** In 'str' mode, with distinct names, entry r counts the cells holding the r-th name. */
  lemma StrModeCounts(col: seq<Cell>, cats: seq<string>, r: nat)
    requires forall i, j :: 0 <= i < j < |cats| ==> cats[i] != cats[j]
    requires forall i :: 0 <= i < |col| ==> InScale(col[i], Names(cats))
    requires r < |cats|
    ensures |ColumnCounts(col, Names(cats))| == |cats|
    ensures ColumnCounts(col, Names(cats))[r] == multiset(col)[Label(cats[r])]
  {
    ColumnCountsInScale(col, Names(cats));
    NamedColumnRanks(col, cats, r);
  }

  /**
   * The check of lines 25-48: an unknown values_type raises; in 'int' mode a text
   * cell raises; otherwise the call succeeds exactly when every text cell is a
   * category name ('str' mode), and the warning is raised exactly when some cell
   * is out of scale.
   */
  lemma CheckOutcome(t: Table, cats: seq<string>, ignoreFirst: bool, mode: ValuesType)
    requires WellFormed(t)
    ensures var r := Aggregate(t, cats, ignoreFirst, mode);
      var d := Counted(t, ignoreFirst);
      && (mode.OtherValues? ==> r == Err(Unsupported(mode.name)))
      && (mode == IntValues ==> (r == Err(NotComparable) <==> HasTextCell(d)))
      && (!mode.OtherValues? ==> (r.Ok? <==>
            forall i, j :: 0 <= i < |d.rows| && 0 <= j < |d.header| && d.rows[i][j].Label? ==>
              mode == StrValues && d.rows[i][j].text in cats))
      && (r.Ok? ==> (r.value.warning <==>
            exists i, j :: 0 <= i < |d.rows| && 0 <= j < |d.header| && !InScale(d.rows[i][j], ScaleOf(cats, mode))))
  {
    var d := Counted(t, ignoreFirst);
    if !mode.OtherValues? && !(mode == IntValues && HasTextCell(d)) {
      var scale := ScaleOf(cats, mode);
      var cols := Columns(d);
      assert Aggregate(t, cats, ignoreFirst, mode).Ok? <==> FirstUnsortable(cols, scale, 0).None?;
      match FirstUnsortable(cols, scale, 0)
      case Some(j) =>
        MixedColumnCells(d, scale, j);
        var i :| 0 <= i < |d.rows| && d.rows[i][j].Label? && !(mode == StrValues && d.rows[i][j].text in cats);
      case None =>
        forall i, j | 0 <= i < |d.rows| && 0 <= j < |d.header| && d.rows[i][j].Label?
          ensures mode == StrValues && d.rows[i][j].text in cats
        {
          MixedColumnCells(d, scale, j);
        }
    } else if mode == IntValues {
      var i, j :| 0 <= i < |d.rows| && 0 <= j < |d.rows[i]| && d.rows[i][j].Label?;
      assert j < |d.header|;
    }
  }

  /** A column holds text after mapping exactly when one of its cells is text that is not a category name. */
  lemma MixedColumnCells(t: Table, scale: Scale, j: nat)
    requires Rectangular(t) && j < |t.header|
    ensures MixedColumn(Columns(t)[j], scale) <==>
      exists i :: 0 <= i < |t.rows| && t.rows[i][j].Label? && !(scale.Names? && t.rows[i][j].text in scale.categories)
  {
    var col := Columns(t)[j];
    assert col == Column(t, j);
    if MixedColumn(col, scale) {
      var i :| 0 <= i < |col| && MapColumn(col, scale)[i].Label?;
      assert t.rows[i][j] == col[i];
    }
    if exists i :: 0 <= i < |t.rows| && t.rows[i][j].Label? && !(scale.Names? && t.rows[i][j].text in scale.categories) {
      var i :| 0 <= i < |t.rows| && t.rows[i][j].Label? && !(scale.Names? && t.rows[i][j].text in scale.categories);
      assert MapColumn(col, scale)[i].Label?;
    }
  }

  /** A table out of scale is still aggregated, with the warning raised (lines 31-32). */
  lemma OutOfScaleWarns()
    ensures var r := Aggregate(Table(["Q"], [[Num(7)]]), ["a", "b"], false, IntValues);
      r.Ok? && r.value.warning
  {
    var t := Table(["Q"], [[Num(7)]]);
    CheckOutcome(t, ["a", "b"], false, IntValues);
    assert !InScale(t.rows[0][0], Ranks(2));
  }

  /**
   * In 'str' mode a label outside the category names stays text: the zero-fill adds
   * the int keys 1..k beside it, and sorting that index raises.
   */
  lemma UnknownLabelRaises(t: Table, cats: seq<string>, ignoreFirst: bool, i: nat, j: nat)
    requires WellFormed(t) && |cats| > 0
    requires var d := Counted(t, ignoreFirst);
      i < |d.rows| && j < |d.header| && d.rows[i][j].Label? && d.rows[i][j].text !in cats
    ensures Aggregate(t, cats, ignoreFirst, StrValues).Err?
  {
    var d := Counted(t, ignoreFirst);
    var cols := Columns(d);
    var scale := Names(cats);
    assert MapColumn(cols[j], scale)[i].Label?;
    assert MixedColumn(cols[j], scale);
  }
}
