/**
 * The arithmetic inside `survey` that decides what is highlighted: the majority
 * index of a count vector and the left offset of its segment, plus the name of
 * the PNG file the chart is saved to.
 */
module Survey {
  import opened Wrappers
  import opened Aggregation
  import opened AggregationProperties

  // ---------------------------------------------------------------------------
  // Majority index

  /** `np.cumsum(c)[i]`: the counts up to and including index i. */
  function Cumulative(c: seq<nat>, i: nat): nat
    requires i < |c|
  {
    Sum(c[..i + 1])
  }

  /** Each cumulative count adds one entry to the one before. */
  lemma CumulativeStep(c: seq<nat>, i: nat)
    requires i < |c|
    ensures Cumulative(c, i) == Sum(c[..i]) + c[i]
    ensures i > 0 ==> Cumulative(c, i) == Cumulative(c, i - 1) + c[i]
  {
    assert c[..i + 1][..i] == c[..i];
  }

  /**
   * The first index from i on whose cumulative count reaches half the total.
   * `cum >= total / 2` in floating point is `2 * cum >= total` over integers.
   */
  function FirstReaching(c: seq<nat>, i: nat): (m: nat)
    requires i < |c|
    ensures i <= m < |c|
    ensures 2 * Cumulative(c, m) >= Sum(c)
    ensures forall j :: i <= j < m ==> 2 * Cumulative(c, j) < Sum(c)
    decreases |c| - i
  {
    if i == |c| - 1 then
      assert c[..i + 1] == c;
      i
    else if 2 * Cumulative(c, i) >= Sum(c) then i
    else FirstReaching(c, i + 1)
  }

  /**
   * Lines 136-139: the smallest index whose cumulative count is at least half the
   * total, every earlier cumulative count being below half. An empty vector has no
   * last cumulative count and raises an IndexError, modelled as None.
   */
  function MajorityIndex(c: seq<nat>): (m: Option<nat>)
    ensures m.Some? <==> |c| > 0
    ensures m.Some? ==>
      && m.value < |c|
      && 2 * Cumulative(c, m.value) >= Sum(c)
      && forall j :: 0 <= j < m.value ==> 2 * Cumulative(c, j) < Sum(c)
  {
    if |c| == 0 then None else Some(FirstReaching(c, 0))
  }

  /** Line 142: where the highlighted segment starts, the counts before index m. */
  function LeftOffset(c: seq<nat>, m: nat): (left: nat)
    requires m < |c|
    ensures left + c[m] == Cumulative(c, m)
    ensures m > 0 ==> left == Cumulative(c, m - 1)
  {
    CumulativeStep(c, m);
    Sum(c[..m])
  }

  /**
   * The highlighted segment starts at the majority index's cumulative count minus
   * its own count, and it reaches the half-total line drawn at lines 105-114: it
   * starts at or before it (strictly before unless it is the first segment) and
   * ends at or after it.
   */
  lemma HighlightStraddlesHalf(c: seq<nat>)
    requires |c| > 0
    ensures var m := MajorityIndex(c).value;
      && LeftOffset(c, m) == Cumulative(c, m) - c[m]
      && 2 * LeftOffset(c, m) <= Sum(c) <= 2 * (LeftOffset(c, m) + c[m])
      && (m > 0 ==> 2 * LeftOffset(c, m) < Sum(c))
  {
    var m := MajorityIndex(c).value;
    CumulativeStep(c, m);
    if m > 0 {
      CumulativeStep(c, m - 1);
      assert 2 * Cumulative(c, m - 1) < Sum(c);
    }
  }

  /** Worked cases: [1,3,2,1,1] gives 1, [4,0,0,1,1] gives 0, no votes at all give 0. */
  lemma MajorityExamples()
    ensures MajorityIndex([1, 3, 2, 1, 1]) == Some(1)
    ensures MajorityIndex([4, 0, 0, 1, 1]) == Some(0)
    ensures MajorityIndex([0, 0, 0, 0, 0]) == Some(0)
    ensures MajorityIndex([]) == None
  {
    Totals([1, 3, 2, 1, 1]);
    Totals([4, 0, 0, 1, 1]);
    Totals([0, 0, 0, 0, 0]);
  }

  /** The cumulative counts of a five-entry vector, the last being the total. */
  lemma Totals(c: seq<nat>)
    requires |c| == 5
    ensures Cumulative(c, 0) == c[0]
    ensures Cumulative(c, 1) == c[0] + c[1]
    ensures Sum(c) == c[0] + c[1] + c[2] + c[3] + c[4]
  {
    CumulativeStep(c, 0);
    CumulativeStep(c, 1);
    CumulativeStep(c, 2);
    CumulativeStep(c, 3);
    CumulativeStep(c, 4);
    assert c[..0] == [];
    assert c[..5] == c;
  }

  // ---------------------------------------------------------------------------
  // The majority grade is the lower median

  /** How many values are at most g. */
  function AtMost(vals: seq<int>, g: int): nat {
    if vals == [] then 0
    else AtMost(vals[..|vals| - 1], g) + (if vals[|vals| - 1] <= g then 1 else 0)
  }

  /** Over grades 1..k, counting the values up to g is summing their occurrences over 1..g. */
  lemma {:induction false} AtMostIsSumRange(vals: seq<int>, k: nat, g: int)
    requires forall v :: v in vals ==> 1 <= v <= k
    ensures AtMost(vals, g) == SumRange(vals, 1, g)
    decreases |vals|
  {
    if vals == [] {
      SumRangeEmpty(1, g);
    } else {
      var init := vals[..|vals| - 1];
      var v := vals[|vals| - 1];
      assert vals == init + [v];
      assert v in vals;
      assert forall x :: x in init ==> x in vals;
      AtMostIsSumRange(init, k, g);
      SumRangeSnoc(init, v, 1, g);
    }
  }

  /**
   * For the ratings of one question, all in 1..k, the grade the chart highlights
   * (majority index + 1) is the lower median of the ratings: at least half of them
   * are at or below it, and fewer than half are below it; its segment starts after
   * the ratings below it.
   */
  lemma MajorityGradeIsLowerMedian(vals: seq<int>, k: nat)
    requires forall v :: v in vals ==> 1 <= v <= k
    requires |vals| > 0
    ensures |CountVector(vals, k)| == k
    ensures MajorityIndex(CountVector(vals, k)).Some?
    ensures var g := MajorityIndex(CountVector(vals, k)).value + 1;
      && 1 <= g <= k
      && 2 * AtMost(vals, g) >= |vals|
      && 2 * AtMost(vals, g - 1) < |vals|
      && LeftOffset(CountVector(vals, k), g - 1) == AtMost(vals, g - 1)
  {
    assert vals[0] in vals;
    var c := CountVector(vals, k);
    CountVectorInScale(vals, k);
    CountVectorSum(vals, k);
    var m := MajorityIndex(c).value;
    CumulativeCounts(vals, k, m);
    AtMostIsSumRange(vals, k, m + 1);
    AtMostIsSumRange(vals, k, m);
    if m > 0 {
      CumulativeCounts(vals, k, m - 1);
      assert 2 * Cumulative(c, m - 1) < Sum(c);
      assert c[..(m - 1) + 1] == c[..m];
    } else {
      assert c[..0] == [];
    }
  }

  // ---------------------------------------------------------------------------
  // PNG name

  /**
   * What `\w` matches in a str pattern, for characters up to U+00FF: letters,
   * digits and '_' of ASCII, and the Latin-1 characters Python counts as
   * alphanumeric (ª ² ³ µ ¹ º ¼ ½ ¾ and the accented letters).
   */
  predicate IsWordChar(ch: char) {
    || ('a' <= ch <= 'z') || ('A' <= ch <= 'Z') || ('0' <= ch <= '9') || ch == '_'
    || ch == 'ª' || ch == '²' || ch == '³' || ch == 'µ'
    || ch == '¹' || ch == 'º' || ('¼' <= ch <= '¾')
    || ('À' <= ch <= 'ÿ' && ch != '×' && ch != '÷')
  }

  /** `re.sub(r'\W', '_', title)`: every non-word character becomes '_'. */
  function Sanitise(title: string): string {
    seq(|title|, i requires 0 <= i < |title| => if IsWordChar(title[i]) then title[i] else '_')
  }

  /**
   * Lines 160-164: the file the chart is saved to. Whatever the title, the name
   * is word characters followed by ".png", one stem character per title character.
   */
  function PngName(title: string): (name: string)
    ensures |name| >= 4 && name[|name| - 4..] == ".png"
    ensures forall i :: 0 <= i < |name| - 4 ==> IsWordChar(name[i])
    ensures title != "" ==> |name| == |title| + 4
  {
    if title == "" then "plot.png" else Sanitise(title) + ".png"
  }

  /**
   * The PNG name is "plot.png" for an empty title; otherwise it is as long as the
   * title plus ".png", keeps each word character in place, replaces every other
   * character with '_', and ends in ".png".
   */
  lemma PngNameShape(title: string)
    ensures title == "" ==> PngName(title) == "plot.png"
    ensures title != "" ==>
      && |PngName(title)| == |title| + 4
      && PngName(title)[|title|..] == ".png"
      && forall i :: 0 <= i < |title| ==>
        (IsWordChar(title[i]) ==> PngName(title)[i] == title[i])
        && (!IsWordChar(title[i]) ==> PngName(title)[i] == '_')
  {
  }

  /** The stem holds word characters only, so none of the characters Windows forbids in names. */
  lemma StemIsSafe(title: string)
    ensures forall i :: 0 <= i < |Sanitise(title)| ==> IsWordChar(Sanitise(title)[i])
    ensures forall ch :: ch in Sanitise(title) ==> ch !in "/\\:*?\"<>| ."
  {
  }

  /** A title that already holds only word characters is kept as it is; sanitising twice changes nothing more. */
  lemma SanitiseIdempotent(title: string)
    ensures Sanitise(Sanitise(title)) == Sanitise(title)
    ensures (forall i :: 0 <= i < |title| ==> IsWordChar(title[i])) ==> Sanitise(title) == title
  {
  }

  /**
   * Different titles can share a file: any two titles of the same length that
   * agree on their word characters, and differ only in which non-word characters
   * they hold, are saved under the same name.
   */
  lemma PngNameCollision(a: string, b: string)
    requires |a| == |b|
    requires forall i :: 0 <= i < |a| ==>
      (IsWordChar(a[i]) <==> IsWordChar(b[i])) && (IsWordChar(a[i]) ==> a[i] == b[i])
    ensures PngName(a) == PngName(b)
  {
  }
}
