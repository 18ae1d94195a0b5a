# Eurostat extraction and data-quality scoring, in Dafny

This project models two pieces of an EU economic-indicators pipeline and
proves properties of them:

- **The Eurostat extractor** (`extract_eurostat.dfy`, module `ExtractEurostat`):
  - Before a request, the caller's filter parameters are flattened into a
    query dictionary. A list value repeats its key; a scalar overwrites it.
  - `parse_eurostat_json` decodes a JSON-stat 2.0 dataset. Row-major strides
    come from the dimension sizes. Each flat index of the sparse `value`
    object becomes one position per dimension, by repeated floor division and
    remainder. Each position becomes a category code, falling back to its
    decimal string, and each code becomes a label, falling back to the code.
    The result is one flat record per value. Only when `value` has an
    entry can the per-dimension loop raise, and then it raises whichever
    error it hits first: `IndexError` at the first dimension without a
    stride, or `ZeroDivisionError` at an earlier zero stride. Both are
    modelled as a `Failure` result.
- **The data-quality mart** (`data_quality_scores.dfy`, module `DataQualityScores`):
  - For each country it computes four scores in [0, 100]:
    - completeness: the share of non-null values;
    - timeliness: 100 up to 90 days old, then 10 points less per 30 days,
      floored at 0;
    - validity: the share of values inside the expected ranges;
    - consistency: 100 minus twice the percentage of values equal to the
      previous one, floored at 0 (so half or more repeats score 0).
  - It then combines them into the 0.30/0.25/0.25/0.20 weighted overall score,
    the A–F grade, the primary issue (the first component below 80) and the
    attention flag (overall below 70).
- `wrappers.dfy` (module `Wrappers`) holds the `Option` and `Result` types.

Loops in the source are methods with loops in the model. Each is proved
equal to a specification function: the recursive `QueryOf`, `Strides`,
`Fill`, `CompletenessEntries` and `PresentCompleteness`, and the
non-recursive `RecordFor` (the base record filled by `Fill`) and
`DimLabelsFor`. The dictionary comprehension that inverts a category index
is the function `InvertIndex`, not a loop. The lemmas about those functions
state what the source promises. For the extractor:

- the stride decoding is a bijection between flat indices below the product
  of the sizes and in-bounds position tuples;
- a fallback code reads back as its position;
- the inverted category index finds the last code with a position.

For the mart:

- every score stays in [0, 100];
- each `overall_*` score is 100 exactly when all its parts are perfect;
  for `overall_completeness` this also needs some requested column to be
  present, since it is 0 when none is; nothing of the kind is claimed for
  the weighted `overall_quality_score`;
- the grade is monotone, and the attention flag means grade D or F.

Scores are exact reals rather than floats.

## Model

| member | source | states |
|---|---|---|
| ExtractEurostat.BuildQueryParams | scripts/extract_eurostat.py:93-107 | the nested parameter loop builds exactly the query dictionary `QueryOf` of the parameters taken in order, starting from format=JSON and lang=en |
| ExtractEurostat.AddValuesEffect | scripts/extract_eurostat.py:98-105 | adding a list's values under a key touches only that key; an empty list adds nothing; after an existing value the list is appended; under a fresh key one value stays bare and several become a list |
| ExtractEurostat.ApplyParamEffect | scripts/extract_eurostat.py:95-107 | one parameter changes only its own key: a scalar overwrites it, a list acts as AddValuesEffect says |
| ExtractEurostat.QueryOfUntouchedKey | scripts/extract_eurostat.py:93-107 | a key no parameter names keeps its default: absent, or format=JSON / lang=en |
| ExtractEurostat.QueryOfParamShape | scripts/extract_eurostat.py:93-107 | a key named by exactly one parameter ends up as that parameter's effect on the default, so a list for `format` is appended after "JSON" |
| ExtractEurostat.NatToString | scripts/extract_eurostat.py:171 | the fallback code `str(dim_idx)` is never empty |
| ExtractEurostat.NatToStringRoundTrip | scripts/extract_eurostat.py:171 | the fallback code is all decimal digits, and reading it back gives the position |
| ExtractEurostat.InvertIndexLookup | scripts/extract_eurostat.py:145 | a position is in the inverted index iff some code has it, and then it maps to a code with that position that no later code shares (the last one wins) |
| ExtractEurostat.BuildDimLabels | scripts/extract_eurostat.py:136-147 | there is one lookup per dimension id and no other; each has the inverted index and the labels, with every missing `dimension`, `category`, `index` or `label` member read as empty |
| ExtractEurostat.StridesLength | scripts/extract_eurostat.py:150-154 | there is one stride per size |
| ExtractEurostat.StridesAt | scripts/extract_eurostat.py:150-154 | stride i is the product of the sizes after i; the last is 1; each is the next size times the next stride |
| ExtractEurostat.ComputeStrides | scripts/extract_eurostat.py:150-154 | the reversed loop that prepends the running product yields the row-major strides `Strides(sizes)` |
| ExtractEurostat.Positions | scripts/extract_eurostat.py:166-169 | decoding a flat index gives one position per stride |
| ExtractEurostat.PositionsRecombine | scripts/extract_eurostat.py:166-169 | for any positive strides, the decoded positions times their strides, plus what remains after the last dimension, give back the flat index |
| ExtractEurostat.ProductPositive | scripts/extract_eurostat.py:150-154 | the product of the sizes is positive iff every size is |
| ExtractEurostat.StridesPositive | scripts/extract_eurostat.py:150-154 | positive sizes give positive strides, so the decoding never divides by zero |
| ExtractEurostat.DecodeInBounds | scripts/extract_eurostat.py:150-169 | a flat index below the product of the positive sizes decodes to positions each below its dimension's size, which recombine to the index with nothing left over |
| ExtractEurostat.EncodeDecode | scripts/extract_eurostat.py:150-169 | every in-bounds position tuple encodes to a flat index below the product, and decoding that index gives the tuple back |
| ExtractEurostat.CoverIffSizesPositive | scripts/extract_eurostat.py:150-169 | with at least one dimension id, decoding cannot raise iff there are at least as many sizes as ids and every size after the first is non-zero |
| ExtractEurostat.KeysDistinct | scripts/extract_eurostat.py:159-173 | the `<id>_code` and `<id>_label` keys are injective in the id, never equal each other, and never equal `value` or `extracted_at`; `<id>_code` equals `dataset_code` only for the id "dataset" |
| ExtractEurostat.FillKeys | scripts/extract_eurostat.py:165-173 | the decoding loop adds exactly the code and label keys of the ids and leaves every other key's value alone |
| ExtractEurostat.FillDimension | scripts/extract_eurostat.py:165-173 | for an id not repeated later, its code key holds the code at its decoded position (decimal fallback) and its label key holds that code's label (the code as fallback) |
| ExtractEurostat.RecordContents | scripts/extract_eurostat.py:157-175 | a record's keys are the three base keys plus each id's code and label keys; it keeps the value and the timestamp, and the dataset code unless an id is "dataset"; each id has the code and label at its decoded position |
| ExtractEurostat.DecodeRecord | scripts/extract_eurostat.py:165-173 | the per-dimension loop succeeds iff the strides cover the ids, then gives `Fill` of the base record; otherwise it raises IndexError, or ZeroDivisionError at an earlier zero stride |
| ExtractEurostat.ParseEurostatJson | scripts/extract_eurostat.py:120-178 | no entries give no records and no error; otherwise it gives one record per entry, in order, each `RecordFor` its entry, exactly when the strides cover the ids, and else the first exception the loop raises |
| DataQualityScores.DropNulls | models/marts/py_data_quality_scores.py:91 | dropping nulls never lengthens a column |
| DataQualityScores.DropNullsCount | models/marts/py_data_quality_scores.py:91 | nothing is dropped iff no value is null; everything is dropped iff all are null |
| DataQualityScores.Percentage | models/marts/py_data_quality_scores.py:49 | a share of a non-empty total, as a percentage, lies in [0, 100]; it is 100 iff the count is the total and 0 iff the count is 0 |
| DataQualityScores.Completeness | models/marts/py_data_quality_scores.py:49 | a column's completeness lies in [0, 100]; it is 100 iff no value is null and 0 iff all are |
| DataQualityScores.PresentCompleteness | models/marts/py_data_quality_scores.py:46-50 | every per-column completeness collected lies in [0, 100] |
| DataQualityScores.PresentCompletenessEmpty | models/marts/py_data_quality_scores.py:46-53 | no completeness is collected iff none of the requested columns is in the frame |
| DataQualityScores.PresentCompletenessAllEqual | models/marts/py_data_quality_scores.py:46-50 | the collected values all equal v iff every requested column present in the frame has completeness v |
| DataQualityScores.OverallCompleteness | models/marts/py_data_quality_scores.py:52-56 | overall completeness lies in [0, 100]; it is 0 when no requested column is present; it is 100 iff some column is present and no present column has a null |
| DataQualityScores.CompletenessEntriesContents | models/marts/py_data_quality_scores.py:46-50 | for distinct columns, there is exactly one `<col>_completeness` key per present column, mapped to its completeness, and as many entries as values to average |
| DataQualityScores.NotOverallKey | models/marts/py_data_quality_scores.py:50-56 | a column other than "overall" never produces the key `overall_completeness` |
| DataQualityScores.CalculateCompleteness | models/marts/py_data_quality_scores.py:44-58 | the result holds `overall_completeness` (OverallCompleteness) and a `<col>_completeness` key for each present column with its completeness, and no other key |
| DataQualityScores.TimelinessScore | models/marts/py_data_quality_scores.py:71-77 | the score lies in [0, 100]; it is 100 up to 90 days, strictly below 100 after that, and 0 exactly from 390 days on |
| DataQualityScores.TimelinessNonIncreasing | models/marts/py_data_quality_scores.py:71-77 | older data never scores higher, and scores strictly lower while the score is still positive |
| DataQualityScores.CalculateTimeliness | models/marts/py_data_quality_scores.py:60-83 | the score lies in [0, 100]; the day count is reported iff a latest date exists; a missing column or missing date scores 0 |
| DataQualityScores.InRangeCount | models/marts/py_data_quality_scores.py:93-96 | no more values are in range than there are values |
| DataQualityScores.InRangeCountExtremes | models/marts/py_data_quality_scores.py:93-96 | all values are counted iff all lie in range; none is counted iff none does |
| DataQualityScores.ValidityPct | models/marts/py_data_quality_scores.py:93-96 | the validity lies in [0, 100]; it is 100 iff every value is in range and 0 iff none is |
| DataQualityScores.SeriesValidity | models/marts/py_data_quality_scores.py:90-107 | a column's validity is present iff the column exists with a non-null value, and then lies in [0, 100] |
| DataQualityScores.PresentScores | models/marts/py_data_quality_scores.py:110-111 | the list of present scores has one entry per present score, the first indicator's score first and the second's last |
| DataQualityScores.PresentScoresAllEqual | models/marts/py_data_quality_scores.py:110-111 | the present scores all equal v iff each present one does |
| DataQualityScores.MeanOfPresent | models/marts/py_data_quality_scores.py:110-113 | the mean of the present scores lies in [0, 100]; it is the default when none is present and the score itself when one is; with default 100 it is 100 iff every present score is |
| DataQualityScores.OverallValidity | models/marts/py_data_quality_scores.py:110-113 | overall validity lies in [0, 100] and is 100 iff no non-null value of either indicator is outside its expected range |
| DataQualityScores.CalculateValidity | models/marts/py_data_quality_scores.py:85-115 | each indicator's key is present iff that indicator has a non-null value, and then holds its validity; `overall_validity` is always present; there are no other keys |
| DataQualityScores.AdjacentRepeats | models/marts/py_data_quality_scores.py:126 | fewer values repeat the previous one than there are values |
| DataQualityScores.AdjacentRepeatsNone | models/marts/py_data_quality_scores.py:126 | no repeat is counted iff no value equals the one before it |
| DataQualityScores.HalfOrMore | models/marts/py_data_quality_scores.py:127-129 | twice a percentage reaches 100 iff the count is at least half the total |
| DataQualityScores.ConsistencyOf | models/marts/py_data_quality_scores.py:126-129 | consistency lies in [0, 100]; it is 100 iff no value repeats the previous one, and 0 iff at least half the values do |
| DataQualityScores.SeriesConsistency | models/marts/py_data_quality_scores.py:122-136 | a column's consistency is present iff the column has more than ten non-null values, and then lies in [0, 100] |
| DataQualityScores.OverallConsistency | models/marts/py_data_quality_scores.py:138-141 | overall consistency lies in [0, 100] and is 100 iff no scored indicator repeats a value |
| DataQualityScores.CalculateConsistency | models/marts/py_data_quality_scores.py:117-143 | each indicator's key is present iff it has more than ten non-null values, and then holds its consistency; `overall_consistency` is always present; there are no other keys |
| DataQualityScores.OverallScore | models/marts/py_data_quality_scores.py:162-174 | the weighted score of in-range components lies in [0, 100], and equal components give that common value (the weights sum to 1) |
| DataQualityScores.OverallScoreBetween | models/marts/py_data_quality_scores.py:162-174 | the weighted score lies between any common bounds of the four components |
| DataQualityScores.OverallScoreMonotone | models/marts/py_data_quality_scores.py:162-174 | raising any component never lowers the weighted score |
| DataQualityScores.GradeOf | models/marts/py_data_quality_scores.py:176-186 | the grade is the best one whose cutoff (90/80/70/60) the score reaches, and F when it reaches none |
| DataQualityScores.GradeMonotone | models/marts/py_data_quality_scores.py:176-186 | a higher score never gets a worse grade |
| DataQualityScores.LetterInjective | models/marts/py_data_quality_scores.py:176-186 | the letters written to `quality_grade` are distinct for distinct grades |
| DataQualityScores.RequiresAttention | models/marts/py_data_quality_scores.py:238 | the attention flag is set exactly for grades D and F |
| DataQualityScores.PrimaryIssue | models/marts/py_data_quality_scores.py:226-236 | there is no issue iff all four components reach 80; otherwise the issue's component is below 80 and every component earlier in the order reaches 80 |
| DataQualityScores.NameInjective | models/marts/py_data_quality_scores.py:227-235 | the names written to `primary_issue` are distinct for distinct issues |
| DataQualityScores.NoIssueNoAttention | models/marts/py_data_quality_scores.py:162-238 | a country with no primary issue scores at least 80 overall, gets grade A or B and needs no attention |
| DataQualityScores.ScoredRecordInvariants | models/marts/py_data_quality_scores.py:188-238 | every scored record has all its scores in [0, 100]; its flag is set exactly for the letters "D" and "F"; with primary issue "none" it needs no attention |
| DataQualityScores.ScoreCountry | models/marts/py_data_quality_scores.py:148-220 | the record for one country holds, field by field, the four calculations (with `.get` defaults), the weighted score, its grade letter, the model version, the primary issue's name and the flag |
| DataQualityScores.ScoreCountries | models/marts/py_data_quality_scores.py:146-238 | there is one record per country, in order, each scored from its own rows |

## Left out

- The HTTP request with its 60-second timeout, `raise_for_status`, and the logging and re-raising of a request error in the fetch step are not modelled. Only the query dictionary passed to the request is.
- Loading into DuckDB, table DDL, the command line and `main` are not modelled. They are I/O around the core.
- The clock is not modelled. `datetime.utcnow()` per record becomes one `extractedAt` parameter per call. `datetime.now()` in timeliness becomes a day count inside the `Recency` input. The `scored_at` field is omitted.
- `latest_data_date` and the parsing of the date column are not modelled. `Recency` says whether the column exists and whether it has a latest date.
- ExtractEurostat.ParseEurostatJson: the keys of `value` are taken as natural numbers already parsed. A key that `int()` rejects, or a negative key, is not modelled. The values are numbers; `null` and other JSON values are not modelled.
- ExtractEurostat.ParseEurostatJson: each JSON member is either absent or in the object or list form Eurostat returns. The paths that raise on other forms are not modelled. These are the AttributeError from `value` or `category.index` given as a JSON array (allowed by JSON-stat 2.0) at `.items()` (scripts/extract_eurostat.py:145, 157), and the AttributeError/TypeError from a member present as JSON `null`: `.get` on a null `dimension`, dimension entry or `category` (138-140), iterating a null `id` (137), `reversed` on a null `size` (152), `.items()` on a null `index` or `value` (145, 157), and `.get` on a null `label` (173).
- ExtractEurostat.DimSizes: sizes are natural numbers, so negative sizes are not modelled.
- ExtractEurostat.QueryOf: the query is a map, so the order of keys in the URL is not modelled.
- ExtractEurostat.RecordContents: the `dataset_code` claim requires that no dimension is named "dataset". That dimension's `dataset_code` key would overwrite the dataset code. The lemma KeysDistinct states the collision.
- DataQualityScores.Completeness: requires a non-empty column. pandas gives NaN for the mean of an empty column. A country selected by the split at models/marts/py_data_quality_scores.py:148-149 has at least one row only because `country_code` is never null upstream: a null code from `unique()` would select no row, since NaN never equals itself. That case is not modelled.
- DataQualityScores.CalculateCompleteness: requires distinct column names. Its per-column claim excludes a column named "overall", whose key would be overwritten by `overall_completeness`. The caller passes two fixed, distinct names.
- Floating-point rounding is not modelled. Scores are exact reals, so `diff() == 0` is exact equality of successive values, and NaN and infinities do not arise.
- The pandas plumbing is not modelled: the `unique()` loop over countries, DataFrame construction and `apply`. Each country is a `CountryFrame` holding its rows' columns.
- The forecast and anomaly-detection models are not part of this model.
