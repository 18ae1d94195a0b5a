/**
  The data-quality scoring model: per country, completeness, timeliness,
  validity and consistency scores in [0, 100], their weighted overall score,
  an A-F grade, the primary issue to fix and whether the country needs
  attention. Scores are exact reals; a country's columns are sequences of
  nullable values.
 */
module DataQualityScores {
  import opened Wrappers

  /** A nullable numeric column of one country's monthly rows. */
  type Column = seq<Option<real>>

  /** One country's rows, by column name. */
  type Frame = map<string, Column>

  const UnemploymentColumn: string := "unemployment_rate_pct"
  const InflationColumn: string := "inflation_rate_mom_pct"

  const ExpectedUnemploymentMin: real := 0.0
  const ExpectedUnemploymentMax: real := 30.0
  const ExpectedInflationMin: real := -5.0
  const ExpectedInflationMax: real := 20.0
  const TimelinessThresholdDays: int := 90

  const CompletenessWeight: real := 0.30
  const TimelinessWeight: real := 0.25
  const ValidityWeight: real := 0.25
  const ConsistencyWeight: real := 0.20

  /** A component score below this names the primary issue. */
  const IssueThreshold: real := 80.0
  /** An overall score below this requires attention. */
  const AttentionThreshold: real := 70.0

  const ScoringModelVersion: string := "1.0.0"

  predicate InScoreRange(x: real) {
    0.0 <= x <= 100.0
  }

  function Max0(x: real): real {
    if x > 0.0 then x else 0.0
  }

  // ---------------------------------------------------------------------
  // Series helpers (pandas `dropna`, `mean`)
  // ---------------------------------------------------------------------

  /** The non-null values of a column, in order. */
  function DropNulls(c: Column): (xs: seq<real>)
    ensures |xs| <= |c|
    decreases |c|
  {
    if c == [] then []
    else (if c[0].Some? then [c[0].value] else []) + DropNulls(c[1..])
  }

  /** No value is dropped iff none is null; all are dropped iff all are null. */
  lemma {:induction false} DropNullsCount(c: Column)
    ensures |DropNulls(c)| == |c| <==> forall i :: 0 <= i < |c| ==> c[i].Some?
    ensures DropNulls(c) == [] <==> forall i :: 0 <= i < |c| ==> c[i].None?
    decreases |c|
  {
    if c != [] {
      DropNullsCount(c[1..]);
      assert forall i :: 1 <= i < |c| ==> c[i] == c[1..][i - 1];
    }
  }

  function Sum(xs: seq<real>): real
    decreases |xs|
  {
    if xs == [] then 0.0 else xs[0] + Sum(xs[1..])
  }

  function Mean(xs: seq<real>): real
    requires xs != []
  {
    Sum(xs) / |xs| as real
  }

  lemma {:induction false} SumBetween(xs: seq<real>, lo: real, hi: real)
    requires forall i :: 0 <= i < |xs| ==> lo <= xs[i] <= hi
    ensures |xs| as real * lo <= Sum(xs) <= |xs| as real * hi
    decreases |xs|
  {
    if xs != [] {
      SumBetween(xs[1..], lo, hi);
    }
  }

  /** A mean lies between any bounds of its values. */
  lemma MeanBetween(xs: seq<real>, lo: real, hi: real)
    requires xs != []
    requires forall i :: 0 <= i < |xs| ==> lo <= xs[i] <= hi
    ensures lo <= Mean(xs) <= hi
  {
    SumBetween(xs, lo, hi);
    var n := |xs| as real;
    assert Sum(xs) / n >= (n * lo) / n;
    assert Sum(xs) / n <= (n * hi) / n;
  }

  /** A sum of values bounded by `hi` reaches `|xs| * hi` exactly when every value is `hi`. */
  lemma {:induction false} SumAtMost(xs: seq<real>, hi: real)
    requires forall i :: 0 <= i < |xs| ==> xs[i] <= hi
    ensures Sum(xs) <= |xs| as real * hi
    ensures Sum(xs) == |xs| as real * hi <==> forall i :: 0 <= i < |xs| ==> xs[i] == hi
    decreases |xs|
  {
    if xs != [] {
      SumAtMost(xs[1..], hi);
      assert forall i :: 1 <= i < |xs| ==> xs[i] == xs[1..][i - 1];
    }
  }

  /** A mean of values bounded by `hi` is `hi` exactly when every value is. */
  lemma MeanAtMost(xs: seq<real>, hi: real)
    requires xs != []
    requires forall i :: 0 <= i < |xs| ==> xs[i] <= hi
    ensures Mean(xs) == hi <==> AllEqual(xs, hi)
  {
    SumAtMost(xs, hi);
    var n := |xs| as real;
    assert Mean(xs) * n == Sum(xs);
  }

  lemma ScaleIff(a: real, b: real, n: real)
    requires n > 0.0
    ensures a >= b <==> a * n >= b * n
  {
  }

  /** `count / total * 100` for `count <= total`. */
  function Percentage(count: nat, total: nat): (r: real)
    requires 0 < total && count <= total
    ensures InScoreRange(r)
    ensures r == 100.0 <==> count == total
    ensures r == 0.0 <==> count == 0
  {
    var ratio := count as real / total as real;
    assert ratio * total as real == count as real;
    ratio * 100.0
  }

  // ---------------------------------------------------------------------
  // Completeness
  // ---------------------------------------------------------------------

  /** `df[col].notna().mean() * 100`: the share of non-null values, as a percentage. */
  function Completeness(c: Column): (r: real)
    requires c != []
    ensures InScoreRange(r)
    ensures r == 100.0 <==> forall i :: 0 <= i < |c| ==> c[i].Some?
    ensures r == 0.0 <==> forall i :: 0 <= i < |c| ==> c[i].None?
  {
    DropNullsCount(c);
    Percentage(|DropNulls(c)|, |c|)
  }

  /** Every column of a country's frame has at least one row. */
  predicate NonEmptyColumns(df: Frame) {
    forall col :: col in df ==> df[col] != []
  }

  /** The completeness of each requested column present in the frame, in order. */
  function PresentCompleteness(df: Frame, columns: seq<string>): (scores: seq<real>)
    requires NonEmptyColumns(df)
    ensures forall i :: 0 <= i < |scores| ==> InScoreRange(scores[i])
    decreases |columns|
  {
    if columns == [] then []
    else
      var col := columns[|columns| - 1];
      PresentCompleteness(df, columns[..|columns| - 1]) + (if col in df then [Completeness(df[col])] else [])
  }

  lemma {:induction false} PresentCompletenessEmpty(df: Frame, columns: seq<string>)
    requires NonEmptyColumns(df)
    ensures PresentCompleteness(df, columns) == [] <==> forall i :: 0 <= i < |columns| ==> columns[i] !in df
    decreases |columns|
  {
    if columns != [] {
      PresentCompletenessEmpty(df, columns[..|columns| - 1]);
    }
  }

  predicate AllEqual(xs: seq<real>, v: real) {
    forall i :: 0 <= i < |xs| ==> xs[i] == v
  }

  /** Every requested column present in the frame has completeness `v`. */
  predicate PresentColumnsAt(df: Frame, columns: seq<string>, v: real)
    requires NonEmptyColumns(df)
  {
    forall i :: 0 <= i < |columns| && columns[i] in df ==> Completeness(df[columns[i]]) == v
  }

  /** The present columns' completeness all equal `v` exactly when each present column's does. */
  lemma {:induction false} PresentCompletenessAllEqual(df: Frame, columns: seq<string>, v: real)
    requires NonEmptyColumns(df)
    ensures AllEqual(PresentCompleteness(df, columns), v) <==> PresentColumnsAt(df, columns, v)
    decreases |columns|
  {
    if columns != [] {
      var init := columns[..|columns| - 1];
      var col := columns[|columns| - 1];
      PresentCompletenessAllEqual(df, init, v);
      var front := PresentCompleteness(df, init);
      var tail := if col in df then [Completeness(df[col])] else [];
      assert PresentCompleteness(df, columns) == front + tail;
      assert AllEqual(front + tail, v) <==> AllEqual(front, v) && AllEqual(tail, v) by {
        assert forall i :: 0 <= i < |front| ==> (front + tail)[i] == front[i];
        assert forall i :: 0 <= i < |tail| ==> (front + tail)[|front| + i] == tail[i];
      }
      assert PresentColumnsAt(df, columns, v) <==>
        PresentColumnsAt(df, init, v) && (col in df ==> Completeness(df[col]) == v) by {
        assert forall i :: 0 <= i < |init| ==> init[i] == columns[i];
      }
      if col in df {
        assert tail[0] == Completeness(df[col]);
      }
    }
  }

  /**
    `overall_completeness`: the mean over the present columns, 0 when none
    is present; it is 100 exactly when some requested column is present and
    every present one has no null.
   */
  function OverallCompleteness(df: Frame, columns: seq<string>): (r: real)
    requires NonEmptyColumns(df)
    ensures InScoreRange(r)
    ensures (forall i :: 0 <= i < |columns| ==> columns[i] !in df) ==> r == 0.0
    ensures r == 100.0 <==>
      (exists i :: 0 <= i < |columns| && columns[i] in df) &&
      PresentColumnsAt(df, columns, 100.0)
  {
    PresentCompletenessEmpty(df, columns);
    PresentCompletenessAllEqual(df, columns, 100.0);
    var scores := PresentCompleteness(df, columns);
    if scores == [] then 0.0
    else
      MeanBetween(scores, 0.0, 100.0);
      MeanAtMost(scores, 100.0);
      Mean(scores)
  }

  lemma SuffixInjective(a: string, b: string, suffix: string)
    ensures a + suffix == b + suffix ==> a == b
  {
    if a + suffix == b + suffix {
      assert a == (a + suffix)[..|a|];
    }
  }

  const CompletenessSuffix: string := "_completeness"
  const OverallCompletenessKey: string := "overall" + CompletenessSuffix

  /** The column a `<col>_completeness` key was made from. */
  function ColumnOfKey(key: string): string
    requires |key| >= |CompletenessSuffix|
  {
    key[..|key| - |CompletenessSuffix|]
  }

  /** `key` is `<col>_completeness` for a requested column present in the frame. */
  predicate IsCompletenessKey(key: string, df: Frame, columns: seq<string>) {
    |key| >= |CompletenessSuffix| && key == ColumnOfKey(key) + CompletenessSuffix &&
    ColumnOfKey(key) in columns && ColumnOfKey(key) in df
  }

  /** The key of `col`'s completeness is never `overall_completeness`, unless `col` is `overall`. */
  lemma NotOverallKey(col: string)
    requires col != "overall"
    ensures col + CompletenessSuffix != OverallCompletenessKey
  {
    SuffixInjective(col, "overall", CompletenessSuffix);
  }

  /** The `<col>_completeness` entries for the requested columns present in the frame. */
  function CompletenessEntries(df: Frame, columns: seq<string>): map<string, real>
    requires NonEmptyColumns(df)
    decreases |columns|
  {
    if columns == [] then map[]
    else
      var col := columns[|columns| - 1];
      var entries := CompletenessEntries(df, columns[..|columns| - 1]);
      if col in df then entries[col + CompletenessSuffix := Completeness(df[col])] else entries
  }

  /**
    For distinct columns, the entries hold exactly one key per present
    column, mapped to its completeness, and as many entries as there are
    values to average.
   */
  lemma {:induction false} CompletenessEntriesContents(df: Frame, columns: seq<string>)
    requires NonEmptyColumns(df)
    requires forall i, j :: 0 <= i < j < |columns| ==> columns[i] != columns[j]
    ensures |CompletenessEntries(df, columns)| == |PresentCompleteness(df, columns)|
    ensures forall col :: col in columns && col in df ==>
      col + CompletenessSuffix in CompletenessEntries(df, columns) &&
      CompletenessEntries(df, columns)[col + CompletenessSuffix] == Completeness(df[col])
    ensures forall k :: k in CompletenessEntries(df, columns) ==> IsCompletenessKey(k, df, columns)
    decreases |columns|
  {
    if columns != [] {
      var init := columns[..|columns| - 1];
      var col := columns[|columns| - 1];
      CompletenessEntriesContents(df, init);
      assert columns == init + [col];
      assert col !in init;
      if col in df {
        var key := col + CompletenessSuffix;
        assert ColumnOfKey(key) == col;
        assert key !in CompletenessEntries(df, init);
      }
    }
  }

  /**
    `calculate_completeness`: one `<col>_completeness` entry per present
    column, then `overall_completeness`, the mean of those entries (0 when
    there are none). The columns requested are distinct, so `values` holds
    the dictionary's values in insertion order.
   */
  method CalculateCompleteness(df: Frame, columns: seq<string>) returns (scores: map<string, real>)
    requires NonEmptyColumns(df)
    requires forall i, j :: 0 <= i < j < |columns| ==> columns[i] != columns[j]
    ensures OverallCompletenessKey in scores
    ensures scores[OverallCompletenessKey] == OverallCompleteness(df, columns)
    ensures forall col :: col in columns && col in df ==> col + CompletenessSuffix in scores
    ensures forall col :: col in columns && col in df && col != "overall" ==>
      scores[col + CompletenessSuffix] == Completeness(df[col])
    ensures forall k :: k in scores ==> k == OverallCompletenessKey || IsCompletenessKey(k, df, columns)
  {
    scores := map[];
    var values: seq<real> := [];
    for i := 0 to |columns|
      invariant scores == CompletenessEntries(df, columns[..i])
      invariant values == PresentCompleteness(df, columns[..i])
    {
      var col := columns[i];
      assert columns[..i + 1][..i] == columns[..i];
      if col in df {
        scores := scores[col + CompletenessSuffix := Completeness(df[col])];
        values := values + [Completeness(df[col])];
      }
    }
    assert columns[..|columns|] == columns;
    CompletenessEntriesContents(df, columns);
    var overall := if |scores| > 0 then Mean(values) else 0.0;
    forall col | col in columns && col in df && col != "overall"
      ensures col + CompletenessSuffix != OverallCompletenessKey
    {
      NotOverallKey(col);
    }
    scores := scores[OverallCompletenessKey := overall];
  }

  // ---------------------------------------------------------------------
  // Timeliness
  // ---------------------------------------------------------------------

  /** What the date column says: absent, without any date, or the days since its latest date. */
  datatype Recency = NoDateColumn | NoLatestDate | DaysSinceLatest(days: int)

  datatype Timeliness = Timeliness(score: real, daysSinceLatest: Option<int>)

  /** 100 up to the threshold, then 10 points less per 30 days, never below 0. */
  function TimelinessScore(days: int): (r: real)
    ensures InScoreRange(r)
    ensures days <= TimelinessThresholdDays ==> r == 100.0
    ensures r == 0.0 <==> days >= TimelinessThresholdDays + 300
    ensures days > TimelinessThresholdDays ==> r < 100.0
  {
    if days <= TimelinessThresholdDays then 100.0
    else
      var monthsLate := (days - TimelinessThresholdDays) as real / 30.0;
      Max0(100.0 - monthsLate * 10.0)
  }

  /** Older data never scores better, and strictly worse while the score is still positive. */
  lemma TimelinessNonIncreasing(d1: int, d2: int)
    requires d1 <= d2
    ensures TimelinessScore(d2) <= TimelinessScore(d1)
    ensures TimelinessThresholdDays <= d1 < d2 && d1 < TimelinessThresholdDays + 300 ==>
      TimelinessScore(d2) < TimelinessScore(d1)
  {
  }

  /** `calculate_timeliness`, with the day count taken as input. */
  function CalculateTimeliness(recency: Recency): (t: Timeliness)
    ensures InScoreRange(t.score)
    ensures t.daysSinceLatest.Some? <==> recency.DaysSinceLatest?
    ensures !recency.DaysSinceLatest? ==> t.score == 0.0
  {
    match recency
    case DaysSinceLatest(days) => Timeliness(TimelinessScore(days), Some(days))
    case _ => Timeliness(0.0, None)
  }

  // ---------------------------------------------------------------------
  // Validity
  // ---------------------------------------------------------------------

  /** How many values lie in [lo, hi]. */
  function InRangeCount(xs: seq<real>, lo: real, hi: real): (n: nat)
    ensures n <= |xs|
    decreases |xs|
  {
    if xs == [] then 0 else (if lo <= xs[0] <= hi then 1 else 0) + InRangeCount(xs[1..], lo, hi)
  }

  lemma {:induction false} InRangeCountExtremes(xs: seq<real>, lo: real, hi: real)
    ensures InRangeCount(xs, lo, hi) == |xs| <==> forall i :: 0 <= i < |xs| ==> lo <= xs[i] <= hi
    ensures InRangeCount(xs, lo, hi) == 0 <==> forall i :: 0 <= i < |xs| ==> !(lo <= xs[i] <= hi)
    decreases |xs|
  {
    if xs != [] {
      InRangeCountExtremes(xs[1..], lo, hi);
      assert forall i :: 1 <= i < |xs| ==> xs[i] == xs[1..][i - 1];
    }
  }

  /** The percentage of values in [lo, hi]. */
  function ValidityPct(xs: seq<real>, lo: real, hi: real): (r: real)
    requires xs != []
    ensures InScoreRange(r)
    ensures r == 100.0 <==> forall i :: 0 <= i < |xs| ==> lo <= xs[i] <= hi
    ensures r == 0.0 <==> forall i :: 0 <= i < |xs| ==> !(lo <= xs[i] <= hi)
  {
    InRangeCountExtremes(xs, lo, hi);
    Percentage(InRangeCount(xs, lo, hi), |xs|)
  }

  /** A column's validity, absent when the column is missing or all null. */
  function SeriesValidity(df: Frame, col: string, lo: real, hi: real): (r: Option<real>)
    ensures r.Some? <==> col in df && DropNulls(df[col]) != []
    ensures r.Some? ==> InScoreRange(r.value)
  {
    if col in df && DropNulls(df[col]) != [] then Some(ValidityPct(DropNulls(df[col]), lo, hi)) else None
  }

  function UnemploymentValidity(df: Frame): Option<real> {
    SeriesValidity(df, UnemploymentColumn, ExpectedUnemploymentMin, ExpectedUnemploymentMax)
  }

  function InflationValidity(df: Frame): Option<real> {
    SeriesValidity(df, InflationColumn, ExpectedInflationMin, ExpectedInflationMax)
  }

  /** The scores present among two, in order. */
  function PresentScores(a: Option<real>, b: Option<real>): (xs: seq<real>)
    ensures |xs| == (if a.Some? then 1 else 0) + (if b.Some? then 1 else 0)
    ensures a.Some? ==> xs[0] == a.value
    ensures b.Some? ==> xs[|xs| - 1] == b.value
  {
    (if a.Some? then [a.value] else []) + (if b.Some? then [b.value] else [])
  }

  /** The present scores all equal `v` exactly when each one present does. */
  lemma PresentScoresAllEqual(a: Option<real>, b: Option<real>, v: real)
    ensures AllEqual(PresentScores(a, b), v) <==> (a.Some? ==> a.value == v) && (b.Some? ==> b.value == v)
  {
    var xs := PresentScores(a, b);
    if a.Some? && b.Some? {
      assert xs == [a.value, b.value];
      assert xs[0] == a.value && xs[1] == b.value;
    } else if a.Some? {
      assert xs == [a.value];
      assert xs[0] == a.value;
    } else if b.Some? {
      assert xs == [b.value];
      assert xs[0] == b.value;
    }
  }

  /** The mean of the present scores (each in range), or `default`. */
  function MeanOfPresent(a: Option<real>, b: Option<real>, default: real): (r: real)
    requires a.Some? ==> InScoreRange(a.value)
    requires b.Some? ==> InScoreRange(b.value)
    requires InScoreRange(default)
    ensures InScoreRange(r)
    ensures a.None? && b.None? ==> r == default
    ensures a.Some? && b.None? ==> r == a.value
    ensures a.None? && b.Some? ==> r == b.value
    ensures default == 100.0 ==>
      (r == 100.0 <==> (a.Some? ==> a.value == 100.0) && (b.Some? ==> b.value == 100.0))
  {
    var xs := PresentScores(a, b);
    if xs == [] then default
    else
      MeanBetween(xs, 0.0, 100.0);
      MeanAtMost(xs, 100.0);
      assert |xs| == 1 ==> Sum(xs) == xs[0] + Sum(xs[1..]) && xs[1..] == [];
      PresentScoresAllEqual(a, b, 100.0);
      Mean(xs)
  }

  /** Every non-null value of `col`, if the frame has it, lies in [lo, hi]. */
  predicate AllInRange(df: Frame, col: string, lo: real, hi: real) {
    col in df ==> forall i :: 0 <= i < |DropNulls(df[col])| ==> lo <= DropNulls(df[col])[i] <= hi
  }

  /**
    `overall_validity`: the mean of the present validities, 100 when there
    are none; it is 100 exactly when no non-null value is out of its range.
   */
  function OverallValidity(df: Frame): (r: real)
    ensures InScoreRange(r)
    ensures r == 100.0 <==>
      AllInRange(df, UnemploymentColumn, ExpectedUnemploymentMin, ExpectedUnemploymentMax) &&
      AllInRange(df, InflationColumn, ExpectedInflationMin, ExpectedInflationMax)
  {
    MeanOfPresent(UnemploymentValidity(df), InflationValidity(df), 100.0)
  }

  /** `calculate_validity`. */
  method CalculateValidity(df: Frame) returns (scores: map<string, real>)
    ensures "unemployment_validity" in scores <==> UnemploymentValidity(df).Some?
    ensures "unemployment_validity" in scores ==> scores["unemployment_validity"] == UnemploymentValidity(df).value
    ensures "inflation_validity" in scores <==> InflationValidity(df).Some?
    ensures "inflation_validity" in scores ==> scores["inflation_validity"] == InflationValidity(df).value
    ensures "overall_validity" in scores && scores["overall_validity"] == OverallValidity(df)
    ensures scores.Keys <= {"unemployment_validity", "inflation_validity", "overall_validity"}
  {
    scores := map[];
    var values: seq<real> := [];
    if UnemploymentColumn in df {
      var unemp := DropNulls(df[UnemploymentColumn]);
      if |unemp| > 0 {
        var validPct := ValidityPct(unemp, ExpectedUnemploymentMin, ExpectedUnemploymentMax);
        scores := scores["unemployment_validity" := validPct];
        values := values + [validPct];
      }
    }
    if InflationColumn in df {
      var infl := DropNulls(df[InflationColumn]);
      if |infl| > 0 {
        var validPct := ValidityPct(infl, ExpectedInflationMin, ExpectedInflationMax);
        scores := scores["inflation_validity" := validPct];
        values := values + [validPct];
      }
    }
    assert values == PresentScores(UnemploymentValidity(df), InflationValidity(df));
    var overall := if |scores| > 0 then Mean(values) else 100.0;
    scores := scores["overall_validity" := overall];
  }

  // ---------------------------------------------------------------------
  // Consistency
  // ---------------------------------------------------------------------

  /** `(xs.diff() == 0).sum()`: how many values equal the one before. */
  function AdjacentRepeats(xs: seq<real>): (n: nat)
    ensures xs != [] ==> n < |xs|
    decreases |xs|
  {
    if |xs| < 2 then 0 else (if xs[1] == xs[0] then 1 else 0) + AdjacentRepeats(xs[1..])
  }

  lemma {:induction false} AdjacentRepeatsNone(xs: seq<real>)
    ensures AdjacentRepeats(xs) == 0 <==> forall i :: 0 < i < |xs| ==> xs[i] != xs[i - 1]
    decreases |xs|
  {
    if |xs| >= 2 {
      AdjacentRepeatsNone(xs[1..]);
      assert forall i :: 0 <= i < |xs| - 1 ==> xs[1..][i] == xs[i + 1];
    }
  }

  /** Twice a percentage reaches 100 exactly when the count is at least half the total. */
  lemma HalfOrMore(count: nat, total: nat)
    requires 0 < total && count <= total
    ensures Percentage(count, total) * 2.0 >= 100.0 <==> 2 * count >= total
  {
    var ratio := count as real / total as real;
    assert Percentage(count, total) * 2.0 == ratio * 200.0;
    RatioAtLeastHalf(count as real, total as real);
    assert count as real * 2.0 >= total as real <==> 2 * count >= total;
  }

  lemma RatioAtLeastHalf(c: real, n: real)
    requires n > 0.0
    ensures (c / n) * 200.0 >= 100.0 <==> c * 2.0 >= n
  {
    var ratio := c / n;
    assert ratio * n == c;
    assert ratio * 200.0 >= 100.0 <==> ratio >= 0.5;
    ScaleIff(ratio, 0.5, n);
  }

  /** `max(0, 100 - 2 * pct_repeated)`, for a series of more than ten values. */
  function ConsistencyOf(xs: seq<real>): (r: real)
    requires |xs| > 10
    ensures InScoreRange(r)
    ensures r == 100.0 <==> forall i :: 0 < i < |xs| ==> xs[i] != xs[i - 1]
    ensures r == 0.0 <==> 2 * AdjacentRepeats(xs) >= |xs|
  {
    AdjacentRepeatsNone(xs);
    var pctRepeated := Percentage(AdjacentRepeats(xs), |xs|);
    HalfOrMore(AdjacentRepeats(xs), |xs|);
    Max0(100.0 - pctRepeated * 2.0)
  }

  /** A column's consistency, present only when it has more than ten non-null values. */
  function SeriesConsistency(df: Frame, col: string): (r: Option<real>)
    ensures r.Some? <==> col in df && |DropNulls(df[col])| > 10
    ensures r.Some? ==> InScoreRange(r.value)
  {
    if col in df && |DropNulls(df[col])| > 10 then Some(ConsistencyOf(DropNulls(df[col]))) else None
  }

  /** A column long enough to be scored, if the frame has it, never repeats a value twice in a row. */
  predicate NoAdjacentRepeats(df: Frame, col: string) {
    col in df && |DropNulls(df[col])| > 10 ==>
      forall i :: 0 < i < |DropNulls(df[col])| ==> DropNulls(df[col])[i] != DropNulls(df[col])[i - 1]
  }

  /**
    `overall_consistency`: the mean of the present consistencies, 100 when
    there are none; it is 100 exactly when no scored column repeats a value.
   */
  function OverallConsistency(df: Frame): (r: real)
    ensures InScoreRange(r)
    ensures r == 100.0 <==> NoAdjacentRepeats(df, UnemploymentColumn) && NoAdjacentRepeats(df, InflationColumn)
  {
    MeanOfPresent(SeriesConsistency(df, UnemploymentColumn), SeriesConsistency(df, InflationColumn), 100.0)
  }

  /** `calculate_consistency`. */
  method CalculateConsistency(df: Frame) returns (scores: map<string, real>)
    ensures "unemployment_consistency" in scores <==> SeriesConsistency(df, UnemploymentColumn).Some?
    ensures "unemployment_consistency" in scores ==>
      scores["unemployment_consistency"] == SeriesConsistency(df, UnemploymentColumn).value
    ensures "inflation_consistency" in scores <==> SeriesConsistency(df, InflationColumn).Some?
    ensures "inflation_consistency" in scores ==>
      scores["inflation_consistency"] == SeriesConsistency(df, InflationColumn).value
    ensures "overall_consistency" in scores && scores["overall_consistency"] == OverallConsistency(df)
    ensures scores.Keys <= {"unemployment_consistency", "inflation_consistency", "overall_consistency"}
  {
    scores := map[];
    var values: seq<real> := [];
    if UnemploymentColumn in df {
      var unemp := DropNulls(df[UnemploymentColumn]);
      if |unemp| > 10 {
        var score := ConsistencyOf(unemp);
        scores := scores["unemployment_consistency" := score];
        values := values + [score];
      }
    }
    if InflationColumn in df {
      var infl := DropNulls(df[InflationColumn]);
      if |infl| > 10 {
        var score := ConsistencyOf(infl);
        scores := scores["inflation_consistency" := score];
        values := values + [score];
      }
    }
    assert values == PresentScores(SeriesConsistency(df, UnemploymentColumn), SeriesConsistency(df, InflationColumn));
    var overall := if |scores| > 0 then Mean(values) else 100.0;
    scores := scores["overall_consistency" := overall];
  }

  // ---------------------------------------------------------------------
  // Overall score, grade, primary issue, attention flag
  // ---------------------------------------------------------------------

  datatype ComponentScores = ComponentScores(completeness: real, timeliness: real, validity: real, consistency: real)
  {
    predicate InRange() {
      InScoreRange(completeness) && InScoreRange(timeliness) && InScoreRange(validity) && InScoreRange(consistency)
    }
  }

  /** The weighted average 0.30 / 0.25 / 0.25 / 0.20 of the four components. */
  function OverallScore(s: ComponentScores): (r: real)
    ensures s.InRange() ==> InScoreRange(r)
    ensures s.completeness == s.timeliness == s.validity == s.consistency ==> r == s.completeness
  {
    CompletenessWeight * s.completeness + TimelinessWeight * s.timeliness
      + ValidityWeight * s.validity + ConsistencyWeight * s.consistency
  }

  /** The overall score lies between any common bounds of the components. */
  lemma OverallScoreBetween(s: ComponentScores, lo: real, hi: real)
    requires lo <= s.completeness <= hi && lo <= s.timeliness <= hi
    requires lo <= s.validity <= hi && lo <= s.consistency <= hi
    ensures lo <= OverallScore(s) <= hi
  {
  }

  /** The overall score rises with each component. */
  lemma OverallScoreMonotone(s: ComponentScores, t: ComponentScores)
    requires s.completeness <= t.completeness && s.timeliness <= t.timeliness
    requires s.validity <= t.validity && s.consistency <= t.consistency
    ensures OverallScore(s) <= OverallScore(t)
  {
  }

  datatype Grade = A | B | C | D | F
  {
    function Letter(): string {
      match this
      case A => "A"
      case B => "B"
      case C => "C"
      case D => "D"
      case F => "F"
    }

    /** 4 for A down to 0 for F. */
    function Rank(): nat {
      match this
      case A => 4
      case B => 3
      case C => 2
      case D => 1
      case F => 0
    }

    /** The score a grade other than F needs at least. */
    function Cutoff(): real
      requires this != F
    {
      match this
      case A => 90.0
      case B => 80.0
      case C => 70.0
      case D => 60.0
    }
  }

  /** The grade ladder: the best grade whose cutoff the score reaches, F when it reaches none. */
  function GradeOf(score: real): (g: Grade)
    ensures g != F ==> score >= g.Cutoff()
    ensures forall better: Grade :: better != F && better.Rank() > g.Rank() ==> score < better.Cutoff()
  {
    if score >= 90.0 then A
    else if score >= 80.0 then B
    else if score >= 70.0 then C
    else if score >= 60.0 then D
    else F
  }

  /** A higher score never gets a worse grade. */
  lemma GradeMonotone(s1: real, s2: real)
    requires s1 <= s2
    ensures GradeOf(s1).Rank() <= GradeOf(s2).Rank()
  {
  }

  /** `requires_attention`: the overall score is below 70, exactly when the grade is D or F. */
  function RequiresAttention(overall: real): (r: bool)
    ensures r <==> GradeOf(overall) == D || GradeOf(overall) == F
  {
    overall < AttentionThreshold
  }

  /** The grade column's letters tell the grades apart. */
  lemma LetterInjective(g: Grade, h: Grade)
    ensures g.Letter() == h.Letter() <==> g == h
  {
    assert g.Letter()[0] == h.Letter()[0] ==> g == h;
  }

  datatype Issue = CompletenessIssue | TimelinessIssue | ValidityIssue | ConsistencyIssue | NoIssue
  {
    function Name(): string {
      match this
      case CompletenessIssue => "completeness"
      case TimelinessIssue => "timeliness"
      case ValidityIssue => "validity"
      case ConsistencyIssue => "consistency"
      case NoIssue => "none"
    }

    /** The order in which the issues are tried. */
    function Priority(): nat {
      match this
      case CompletenessIssue => 0
      case TimelinessIssue => 1
      case ValidityIssue => 2
      case ConsistencyIssue => 3
      case NoIssue => 4
    }

    /** The component score an issue is about. */
    function ScoreIn(s: ComponentScores): real
      requires this != NoIssue
    {
      match this
      case CompletenessIssue => s.completeness
      case TimelinessIssue => s.timeliness
      case ValidityIssue => s.validity
      case ConsistencyIssue => s.consistency
    }
  }

  /** The issue column's names tell the issues apart. */
  lemma NameInjective(i: Issue, j: Issue)
    ensures i.Name() == j.Name() <==> i == j
  {
    assert |i.Name()| == |j.Name()| ==> i == j;
  }

  /**
    `primary_issue`: the first component, in priority order, scoring below
    80; none when all four reach 80.
   */
  function PrimaryIssue(s: ComponentScores): (issue: Issue)
    ensures issue == NoIssue <==>
      s.completeness >= IssueThreshold && s.timeliness >= IssueThreshold &&
      s.validity >= IssueThreshold && s.consistency >= IssueThreshold
    ensures issue != NoIssue ==> issue.ScoreIn(s) < IssueThreshold
    ensures forall earlier: Issue :: earlier.Priority() < issue.Priority() ==> earlier.ScoreIn(s) >= IssueThreshold
  {
    if s.completeness < IssueThreshold then CompletenessIssue
    else if s.timeliness < IssueThreshold then TimelinessIssue
    else if s.validity < IssueThreshold then ValidityIssue
    else if s.consistency < IssueThreshold then ConsistencyIssue
    else NoIssue
  }

  /** A country without a primary issue scores at least 80 overall, gets A or B and needs no attention. */
  lemma NoIssueNoAttention(s: ComponentScores)
    requires PrimaryIssue(s) == NoIssue
    ensures OverallScore(s) >= IssueThreshold
    ensures GradeOf(OverallScore(s)) == A || GradeOf(OverallScore(s)) == B
    ensures !RequiresAttention(OverallScore(s))
  {
  }

  // ---------------------------------------------------------------------
  // Per-country records
  // ---------------------------------------------------------------------

  /** One country's rows: its frame, its row count and what its date column says. */
  datatype CountryFrame = CountryFrame(countryCode: string, rowCount: nat, columns: Frame, recency: Recency)

  /** A country selected from the table has at least one row, and every column has one value per row. */
  predicate WellFormedCountry(f: CountryFrame) {
    f.rowCount > 0 && forall col :: col in f.columns ==> |f.columns[col]| == f.rowCount
  }

  datatype QualityRecord = QualityRecord(
    countryCode: string,
    totalRecords: nat,
    completenessScore: real,
    unemploymentCompleteness: real,
    inflationCompleteness: real,
    timelinessScore: real,
    daysSinceLatestData: Option<int>,
    validityScore: real,
    unemploymentValidity: real,
    inflationValidity: real,
    consistencyScore: real,
    overallQualityScore: real,
    qualityGrade: string,
    scoringModelVersion: string,
    primaryIssue: string,
    requiresAttention: bool)
  {
    function Components(): ComponentScores {
      ComponentScores(completenessScore, timelinessScore, validityScore, consistencyScore)
    }
  }

  /** A column's completeness, 0 when the column is absent (`.get(key, 0)`). */
  function ColumnCompleteness(df: Frame, col: string): real
    requires NonEmptyColumns(df)
  {
    if col in df then Completeness(df[col]) else 0.0
  }

  /** What the record built for one country holds, field by field. */
  predicate ScoredFrom(f: CountryFrame, rec: QualityRecord)
    requires WellFormedCountry(f)
  {
    var df := f.columns;
    var timeliness := CalculateTimeliness(f.recency);
    && rec.countryCode == f.countryCode
    && rec.totalRecords == f.rowCount
    && rec.completenessScore == OverallCompleteness(df, [UnemploymentColumn, InflationColumn])
    && rec.unemploymentCompleteness == ColumnCompleteness(df, UnemploymentColumn)
    && rec.inflationCompleteness == ColumnCompleteness(df, InflationColumn)
    && rec.timelinessScore == timeliness.score
    && rec.daysSinceLatestData == timeliness.daysSinceLatest
    && rec.validityScore == OverallValidity(df)
    && rec.unemploymentValidity == UnemploymentValidity(df).GetOr(0.0)
    && rec.inflationValidity == InflationValidity(df).GetOr(0.0)
    && rec.consistencyScore == OverallConsistency(df)
    && rec.overallQualityScore == OverallScore(rec.Components())
    && rec.qualityGrade == GradeOf(rec.overallQualityScore).Letter()
    && rec.scoringModelVersion == ScoringModelVersion
    && rec.primaryIssue == PrimaryIssue(rec.Components()).Name()
    && rec.requiresAttention == RequiresAttention(rec.overallQualityScore)
  }

  /**
    The guarantees of every scored record: all scores in [0, 100], the
    grade and the flag agree, and a record without a primary issue needs
    no attention.
   */
  lemma ScoredRecordInvariants(f: CountryFrame, rec: QualityRecord)
    requires WellFormedCountry(f)
    requires ScoredFrom(f, rec)
    ensures rec.Components().InRange() && InScoreRange(rec.overallQualityScore)
    ensures InScoreRange(rec.unemploymentCompleteness) && InScoreRange(rec.inflationCompleteness)
    ensures InScoreRange(rec.unemploymentValidity) && InScoreRange(rec.inflationValidity)
    ensures rec.requiresAttention <==> rec.qualityGrade == "D" || rec.qualityGrade == "F"
    ensures rec.primaryIssue == "none" ==> !rec.requiresAttention
  {
    var g := GradeOf(rec.overallQualityScore);
    LetterInjective(g, D);
    LetterInjective(g, F);
    NameInjective(PrimaryIssue(rec.Components()), NoIssue);
    if PrimaryIssue(rec.Components()) == NoIssue {
      NoIssueNoAttention(rec.Components());
    }
  }

  /** `d.get(key, default)` on a score dictionary. */
  function MapGetOr(m: map<string, real>, key: string, default: real): real {
    if key in m then m[key] else default
  }

  /** The body of the per-country loop: the four calculations, the weighted score, the grade and the recommendations. */
  method ScoreCountry(f: CountryFrame) returns (rec: QualityRecord)
    requires WellFormedCountry(f)
    ensures ScoredFrom(f, rec)
    ensures rec.Components().InRange() && InScoreRange(rec.overallQualityScore)
    ensures rec.requiresAttention <==> rec.qualityGrade == "D" || rec.qualityGrade == "F"
  {
    var df := f.columns;
    var completeness := CalculateCompleteness(df, [UnemploymentColumn, InflationColumn]);
    var timeliness := CalculateTimeliness(f.recency);
    var validity := CalculateValidity(df);
    var consistency := CalculateConsistency(df);

    var components := ComponentScores(
      MapGetOr(completeness, OverallCompletenessKey, 0.0),
      timeliness.score,
      MapGetOr(validity, "overall_validity", 0.0),
      MapGetOr(consistency, "overall_consistency", 0.0));
    var overallScore := OverallScore(components);
    var qualityGrade := GradeOf(overallScore);

    rec := QualityRecord(
      f.countryCode,
      f.rowCount,
      components.completeness,
      MapGetOr(completeness, UnemploymentColumn + CompletenessSuffix, 0.0),
      MapGetOr(completeness, InflationColumn + CompletenessSuffix, 0.0),
      components.timeliness,
      timeliness.daysSinceLatest,
      components.validity,
      MapGetOr(validity, "unemployment_validity", 0.0),
      MapGetOr(validity, "inflation_validity", 0.0),
      components.consistency,
      overallScore,
      qualityGrade.Letter(),
      ScoringModelVersion,
      PrimaryIssue(components).Name(),
      RequiresAttention(overallScore));
    ScoredRecordInvariants(f, rec);
  }

  /** The per-country loop: one record per country, in order. */
  method ScoreCountries(frames: seq<CountryFrame>) returns (records: seq<QualityRecord>)
    requires forall k :: 0 <= k < |frames| ==> WellFormedCountry(frames[k])
    ensures |records| == |frames|
    ensures forall k :: 0 <= k < |frames| ==> ScoredFrom(frames[k], records[k])
  {
    records := [];
    for k := 0 to |frames|
      invariant |records| == k
      invariant forall m :: 0 <= m < k ==> ScoredFrom(frames[m], records[m])
    {
      var rec := ScoreCountry(frames[k]);
      records := records + [rec];
    }
  }
}
