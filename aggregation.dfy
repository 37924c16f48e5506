/**
 * `read_and_aggregate_csv` of majority_judgment.py: a table of grades (one
 * column per question) becomes one count vector per question. The CSV read
 * is replaced by an in-memory table; the printed warning becomes a flag.
 */
module Aggregation {
  import opened Wrappers

  /** A cell as pandas reads it: a number, a text label, or an empty cell (NaN). */
  datatype Cell = Num(n: int) | Label(text: string) | Blank

  /** A CSV file: the header row and the data rows. */
  datatype Table = Table(header: seq<string>, rows: seq<seq<Cell>>)

  /** The `values_type` argument. */
  datatype ValuesType = IntValues | StrValues | OtherValues(name: string)

  /** How grades are read: ranks 1..k as numbers, or category names mapped to ranks. */
  datatype Scale = Ranks(k: nat) | Names(categories: seq<string>)

  /** What `read_and_aggregate_csv` raises. */
  datatype AggError =
    | NotComparable          // a text cell compared with an int (line 28)
    | Unsupported(name: string)  // an unknown values_type (lines 45-48)
    | Unsortable(question: string)  // text left among the int ranks 1..k makes `sort_index` raise (lines 56-60)

  /** One question's count vector. */
  datatype QuestionCounts = QuestionCounts(question: string, counts: seq<nat>)

  /** The result: whether a warning was printed, and the counts per question in column order. */
  datatype Report = Report(warning: bool, results: seq<QuestionCounts>)

  /** Every row as wide as the header. */
  predicate Rectangular(t: Table) {
    forall i :: 0 <= i < |t.rows| ==> |t.rows[i]| == |t.header|
  }

  /**
   * pandas reads a column holding any text entirely as text: a cell such as 3
   * next to "Bof" arrives as the label "3", never as a number.
   */
  predicate TextColumnsHoldNoNumbers(t: Table) {
    forall i, i', j ::
      (0 <= i < |t.rows| && 0 <= i' < |t.rows| && 0 <= j < |t.rows[i]| && j < |t.rows[i']| && t.rows[i][j].Label?)
      ==> !t.rows[i'][j].Num?
  }

  /** What the CSV reader delivers: a non-empty header, rows as wide as it, and text columns read as text. */
  predicate WellFormed(t: Table) {
    |t.header| >= 1 && Rectangular(t) && TextColumnsHoldNoNumbers(t)
  }

  function Sum(s: seq<nat>): nat {
    if s == [] then 0 else Sum(s[..|s| - 1]) + s[|s| - 1]
  }

  /** The number of grade levels. */
  function Levels(scale: Scale): nat {
    match scale
    case Ranks(k) => k
    case Names(cats) => |cats|
  }

  // ---------------------------------------------------------------------------
  // Columns

  /** Lines 20-22: `df.drop` of the first column. */
  function DropFirstColumn(t: Table): (d: Table)
    requires WellFormed(t)
    ensures d.header == t.header[1..] && |d.rows| == |t.rows| && Rectangular(d)
    ensures forall i, j :: 0 <= i < |t.rows| && 0 <= j < |d.header| ==> d.rows[i][j] == t.rows[i][j + 1]
  {
    Table(t.header[1..], seq(|t.rows|, i requires 0 <= i < |t.rows| => t.rows[i][1..]))
  }

  function Column(t: Table, j: nat): seq<Cell>
    requires forall i :: 0 <= i < |t.rows| ==> j < |t.rows[i]|
  {
    seq(|t.rows|, i requires 0 <= i < |t.rows| => t.rows[i][j])
  }

  /** The rank of a category name: the dictionary of line 54 keeps the last position of a repeated name. */
  function RankOf(cats: seq<string>, name: string): (r: nat)
    requires name in cats
    ensures 1 <= r <= |cats| && cats[r - 1] == name
    ensures forall j :: r <= j < |cats| ==> cats[j] != name
  {
    if cats[|cats| - 1] == name then |cats| else RankOf(cats[..|cats| - 1], name)
  }

  /** Lines 53-55: a category name becomes its rank; anything else is left as it is. */
  function MapCell(c: Cell, scale: Scale): Cell {
    match scale
    case Ranks(_) => c
    case Names(cats) => if c.Label? && c.text in cats then Num(RankOf(cats, c.text)) else c
  }

  function MapColumn(col: seq<Cell>, scale: Scale): seq<Cell> {
    seq(|col|, i requires 0 <= i < |col| => MapCell(col[i], scale))
  }

  predicate HasLabel(col: seq<Cell>) {
    exists i :: 0 <= i < |col| && col[i].Label?
  }

  /** The numbers `value_counts` counts: it drops NaN. */
  function Values(col: seq<Cell>): seq<int> {
    if col == [] then []
    else Values(col[..|col| - 1]) + (if col[|col| - 1].Num? then [col[|col| - 1].n] else [])
  }

  // ---------------------------------------------------------------------------
  // Counting

  /** `value_counts()`: each value that occurs, with its number of occurrences. */
  function ValueCounts(vals: seq<int>): map<int, nat> {
    map v | v in vals :: multiset(vals)[v]
  }

  /** Lines 57-59: every rank 1..k that does not occur is added with count 0. */
  function ZeroFilled(m: map<int, nat>, k: nat): map<int, nat> {
    m + map r | 1 <= r <= k && r !in m :: 0
  }

  /** The smaller of `bound` and every value. */
  function Lowest(vals: seq<int>, bound: int): (r: int)
    ensures r <= bound && (r == bound || r in vals)
    ensures forall v :: v in vals ==> r <= v
  {
    if vals == [] then bound
    else
      var rest := Lowest(vals[..|vals| - 1], bound);
      assert vals == vals[..|vals| - 1] + [vals[|vals| - 1]];
      if vals[|vals| - 1] < rest then vals[|vals| - 1] else rest
  }

  /** The larger of `bound` and every value. */
  function Highest(vals: seq<int>, bound: int): (r: int)
    ensures r >= bound && (r == bound || r in vals)
    ensures forall v :: v in vals ==> v <= r
  {
    if vals == [] then bound
    else
      var rest := Highest(vals[..|vals| - 1], bound);
      assert vals == vals[..|vals| - 1] + [vals[|vals| - 1]];
      if vals[|vals| - 1] > rest then vals[|vals| - 1] else rest
  }

  /** `sort_index().tolist()` over the keys in lo..hi: the counts in increasing order of value. */
  function Listing(m: map<int, nat>, lo: int, hi: int): seq<nat>
    decreases hi - lo + 1
  {
    if lo > hi then [] else (if lo in m then [m[lo]] else []) + Listing(m, lo + 1, hi)
  }

  /** Line 60: the zero-filled counts, in increasing order of value. */
  function CountVector(vals: seq<int>, k: nat): seq<nat> {
    Listing(ZeroFilled(ValueCounts(vals), k), Lowest(vals, 1), Highest(vals, k))
  }

  /** The count vector of one column, once its names are mapped to ranks. */
  function ColumnCounts(col: seq<Cell>, scale: Scale): seq<nat> {
    CountVector(Values(MapColumn(col, scale)), Levels(scale))
  }

  /**
   * A column whose mapped values still hold text. Lines 57-59 then add the int
   * keys 1..k to an index holding text (`counts[rating] = 0` read as a label
   * assignment), and sorting that index raises TypeError.
   */
  predicate MixedColumn(col: seq<Cell>, scale: Scale) {
    HasLabel(MapColumn(col, scale))
  }

  /** The first column, from `j` on, that cannot be sorted. */
  function FirstUnsortable(cols: seq<seq<Cell>>, scale: Scale, j: nat): (r: Option<nat>)
    requires j <= |cols|
    ensures r.Some? ==> j <= r.value < |cols| && MixedColumn(cols[r.value], scale)
    ensures r.Some? ==> forall i :: j <= i < r.value ==> !MixedColumn(cols[i], scale)
    ensures r.None? ==> forall i :: j <= i < |cols| ==> !MixedColumn(cols[i], scale)
    decreases |cols| - j
  {
    if j == |cols| then None
    else if MixedColumn(cols[j], scale) then Some(j)
    else FirstUnsortable(cols, scale, j + 1)
  }

  lemma FirstMixedColumn(cols: seq<seq<Cell>>, scale: Scale, j: nat)
    requires j < |cols| && MixedColumn(cols[j], scale)
    requires forall i :: 0 <= i < j ==> !MixedColumn(cols[i], scale)
    ensures FirstUnsortable(cols, scale, 0) == Some(j)
  {
  }

  lemma NoMixedColumn(cols: seq<seq<Cell>>, scale: Scale)
    requires forall i :: 0 <= i < |cols| ==> !MixedColumn(cols[i], scale)
    ensures FirstUnsortable(cols, scale, 0) == None
  {
  }

  function Columns(t: Table): (cols: seq<seq<Cell>>)
    requires Rectangular(t)
    ensures |cols| == |t.header|
  {
    seq(|t.header|, j requires 0 <= j < |t.header| => Column(t, j))
  }

  /** Each column's count vector under its name, in column order. */
  function Summaries(header: seq<string>, cols: seq<seq<Cell>>, scale: Scale): (r: seq<QuestionCounts>)
    requires |header| == |cols|
    ensures |r| == |cols|
  {
    seq(|cols|, j requires 0 <= j < |cols| => QuestionCounts(header[j], ColumnCounts(cols[j], scale)))
  }

  /** The count vector of every column, each under its name, in column order. */
  function Tally(header: seq<string>, cols: seq<seq<Cell>>, scale: Scale): (r: Result<seq<QuestionCounts>, AggError>)
    requires |header| == |cols|
    ensures r.Ok? ==> |r.value| == |cols| && forall j :: 0 <= j < |cols| ==> r.value[j].question == header[j]
    ensures r.Err? <==> FirstUnsortable(cols, scale, 0).Some?
    ensures r.Err? ==> r.error == Unsortable(header[FirstUnsortable(cols, scale, 0).value])
  {
    match FirstUnsortable(cols, scale, 0)
    case Some(j) => Err(Unsortable(header[j]))
    case None => Ok(Summaries(header, cols, scale))
  }

  /** Lines 50-61: the count vector of every column of the table, in column order. */
  function AggregateColumns(t: Table, scale: Scale): Result<seq<QuestionCounts>, AggError>
    requires Rectangular(t)
  {
    Tally(t.header, Columns(t), scale)
  }

  // ---------------------------------------------------------------------------
  // Checking

  /** A cell the check of lines 25-44 accepts: a rank 1..k, or a category name. */
  predicate InScale(c: Cell, scale: Scale) {
    match scale
    case Ranks(k) => c.Num? && 1 <= c.n <= k
    case Names(cats) => c.Label? && c.text in cats
  }

  predicate AllInScale(t: Table, scale: Scale) {
    forall i, j :: 0 <= i < |t.rows| && 0 <= j < |t.rows[i]| ==> InScale(t.rows[i][j], scale)
  }

  predicate HasTextCell(t: Table) {
    exists i, j :: 0 <= i < |t.rows| && 0 <= j < |t.rows[i]| && t.rows[i][j].Label?
  }

  /** The scale a `values_type` reads the category names as. */
  function ScaleOf(cats: seq<string>, mode: ValuesType): Scale
    requires !mode.OtherValues?
  {
    if mode == IntValues then Ranks(|cats|) else Names(cats)
  }

  /** Lines 20-22: the table that is counted, its first column dropped when asked. */
  function Counted(t: Table, ignoreFirst: bool): (d: Table)
    requires WellFormed(t)
    ensures Rectangular(d)
    ensures d.header == if ignoreFirst then t.header[1..] else t.header
    ensures |d.rows| == |t.rows|
  {
    if ignoreFirst then DropFirstColumn(t) else t
  }

  /** `read_and_aggregate_csv(file, category_names, ignore_first_column, values_type)`. */
  function Aggregate(t: Table, cats: seq<string>, ignoreFirst: bool, mode: ValuesType): (r: Result<Report, AggError>)
    requires WellFormed(t)
    ensures r.Ok? ==> var d := Counted(t, ignoreFirst);
      && |r.value.results| == |d.header|
      && forall j :: 0 <= j < |d.header| ==> r.value.results[j].question == d.header[j]
    ensures r.Err? ==>
      || (r.error.Unsupported? && mode.OtherValues?)
      || (r.error == NotComparable && mode == IntValues)
      || (r.error.Unsortable? && !mode.OtherValues? && r.error.question in Counted(t, ignoreFirst).header)
  {
    var d := Counted(t, ignoreFirst);
    if mode.OtherValues? then Err(Unsupported(mode.name))
    else if mode == IntValues && HasTextCell(d) then Err(NotComparable)
    else
      var scale := ScaleOf(cats, mode);
      match AggregateColumns(d, scale)
      case Err(e) => Err(e)
      case Ok(results) => Ok(Report(!AllInScale(d, scale), results))
  }

  // ---------------------------------------------------------------------------
  // The imperative code

  /** Lines 56-60 for one column: count, add the missing ranks with 0, list in value order. */
  method CountRatings(vals: seq<int>, k: nat) returns (counts: seq<nat>)
    ensures counts == CountVector(vals, k)
  {
    var m := ValueCounts(vals);
    ghost var observed := m;
    for rating := 1 to k + 1
      invariant m == observed + map r | 1 <= r < rating && r !in observed :: 0
    {
      if rating !in m {
        m := m[rating := 0];
      }
    }
    assert m == ZeroFilled(observed, k);
    counts := Listing(m, Lowest(vals, 1), Highest(vals, k));
  }

  /** `read_and_aggregate_csv`: drop, check, then count column by column. */
  method ReadAndAggregate(t: Table, cats: seq<string>, ignoreFirst: bool, mode: ValuesType)
    returns (r: Result<Report, AggError>)
    requires WellFormed(t)
    ensures r == Aggregate(t, cats, ignoreFirst, mode)
  {
    var d := t;
    if ignoreFirst {
      d := DropFirstColumn(t);
    }
    var scale: Scale;
    var warning: bool;
    match mode {
      case IntValues =>
        if HasTextCell(d) {
          return Err(NotComparable);
        }
        scale := Ranks(|cats|);
        warning := !AllInScale(d, scale);
      case StrValues =>
        scale := Names(cats);
        warning := !AllInScale(d, scale);
      case OtherValues(name) =>
        return Err(Unsupported(name));
    }
    var counted := CountColumns(d.header, Columns(d), scale);
    match counted {
      case Err(e) => r := Err(e);
      case Ok(results) => r := Ok(Report(warning, results));
    }
  }

  /** Lines 50-61: the loop over the columns, counting each under its name, in column order. */
  method CountColumns(header: seq<string>, cols: seq<seq<Cell>>, scale: Scale)
    returns (r: Result<seq<QuestionCounts>, AggError>)
    requires |header| == |cols|
    ensures r == Tally(header, cols, scale)
  {
    ghost var expected := Summaries(header, cols, scale);
    var results: seq<QuestionCounts> := [];
    for j := 0 to |cols|
      invariant forall i :: 0 <= i < j ==> !MixedColumn(cols[i], scale)
      invariant results == expected[..j]
    {
      var counts := CountColumn(cols[j], scale);
      if counts.None? {
        StopsAtMixedColumn(header, cols, scale, j);
        return Err(Unsortable(header[j]));
      }
      results := results + [QuestionCounts(header[j], counts.value)];
      PrefixStep(expected, j);
    }
    WholePrefix(expected);
    NoMixedColumn(cols, scale);
    r := Ok(results);
  }

  lemma PrefixStep<T>(s: seq<T>, j: nat)
    requires j < |s|
    ensures s[..j + 1] == s[..j] + [s[j]]
  {
  }

  lemma WholePrefix<T>(s: seq<T>)
    ensures s[..|s|] == s
  {
  }

  /** The loop stops at the first column that cannot be sorted, as `Tally` does. */
  lemma StopsAtMixedColumn(header: seq<string>, cols: seq<seq<Cell>>, scale: Scale, j: nat)
    requires |header| == |cols| && j < |cols|
    requires MixedColumn(cols[j], scale)
    requires forall i :: 0 <= i < j ==> !MixedColumn(cols[i], scale)
    ensures Tally(header, cols, scale) == Err(Unsortable(header[j]))
  {
    FirstMixedColumn(cols, scale, j);
  }


  /** Lines 53-60 for one column: map the names, then count; None where sorting the counts raises. */
  method CountColumn(col: seq<Cell>, scale: Scale) returns (counts: Option<seq<nat>>)
    ensures counts.None? <==> MixedColumn(col, scale)
    ensures counts.Some? ==> counts.value == ColumnCounts(col, scale)
  {
    var mapped := MapColumn(col, scale);
    if HasLabel(mapped) {
      return None;
    }
    var c := CountRatings(Values(mapped), Levels(scale));
    counts := Some(c);
  }
}
