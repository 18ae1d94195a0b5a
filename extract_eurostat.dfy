/**
  The Eurostat extractor's pure core: the flattening of multi-valued query
  parameters done before a request, and the decoding of a JSON-stat 2.0
  dataset response into flat records (one per entry of the sparse `value`
  object, with a code and a label per dimension).
 */
module ExtractEurostat {
  import opened Wrappers

  // ---------------------------------------------------------------------
  // Query parameters
  // ---------------------------------------------------------------------

  /** A value of the caller's `params` dictionary: a scalar or a list. */
  datatype ParamValue = Scalar(value: string) | List(values: seq<string>)

  /** A value of the request's query dictionary: a bare value or a repeated one. */
  datatype QueryValue = One(value: string) | Many(values: seq<string>)

  type Query = map<string, QueryValue>

  /** Every request starts from these two parameters. */
  function DefaultQuery(): Query {
    map["format" := One("JSON"), "lang" := One("en")]
  }

  /** The values a query entry carries, in order. */
  function ValuesOf(v: QueryValue): seq<string> {
    match v
    case One(x) => [x]
    case Many(xs) => xs
  }

  function Get(q: Query, key: string): Option<QueryValue> {
    if key in q then Some(q[key]) else None
  }

  /** One step of the inner loop: add `v` under `key`, turning a bare value into a list. */
  function AddValue(q: Query, key: string, v: string): Query {
    if key !in q then q[key := One(v)]
    else match q[key]
      case One(x) => q[key := Many([x, v])]
      case Many(xs) => q[key := Many(xs + [v])]
  }

  /** The inner loop over the values of a list parameter, in order. */
  function AddValues(q: Query, key: string, vs: seq<string>): Query
    decreases |vs|
  {
    if vs == [] then q
    else AddValue(AddValues(q, key, vs[..|vs| - 1]), key, vs[|vs| - 1])
  }

  /** One iteration of the outer loop: a list repeats the key, a scalar overwrites it. */
  function ApplyParam(q: Query, key: string, p: ParamValue): Query {
    match p
    case List(vs) => AddValues(q, key, vs)
    case Scalar(v) => q[key := One(v)]
  }

  /** The query dictionary built from the caller's parameters, taken in order. */
  function QueryOf(params: seq<(string, ParamValue)>): Query
    decreases |params|
  {
    if params == [] then DefaultQuery()
    else
      var last := params[|params| - 1];
      ApplyParam(QueryOf(params[..|params| - 1]), last.0, last.1)
  }

  /**
    What a single parameter leaves under its key, given what was there
    before: a scalar overwrites; an empty list adds nothing; a non-empty
    list is appended after an existing value, and under a fresh key becomes
    a bare value when it has one element and the list itself otherwise.
   */
  function ParamEffect(prior: Option<QueryValue>, p: ParamValue): Option<QueryValue> {
    match p
    case Scalar(v) => Some(One(v))
    case List(vs) =>
      if vs == [] then prior
      else if prior.Some? then Some(Many(ValuesOf(prior.value) + vs))
      else if |vs| == 1 then Some(One(vs[0]))
      else Some(Many(vs))
  }

  /** The inner loop touches only `key`, and leaves there what ParamEffect says. */
  lemma {:induction false} AddValuesEffect(q: Query, key: string, vs: seq<string>)
    ensures AddValues(q, key, vs).Keys == if vs == [] then q.Keys else q.Keys + {key}
    ensures forall k :: k in q && k != key ==> AddValues(q, key, vs)[k] == q[k]
    ensures Get(AddValues(q, key, vs), key) == ParamEffect(Get(q, key), List(vs))
    decreases |vs|
  {
    if vs != [] {
      var init := vs[..|vs| - 1];
      var v := vs[|vs| - 1];
      AddValuesEffect(q, key, init);
      assert init + [v] == vs;
      if init != [] && key !in q {
        var q' := AddValues(q, key, init);
        assert key in q';
        assert AddValues(q, key, vs) == AddValue(q', key, v);
        if |init| == 1 {
          assert q'[key] == One(init[0]);
          assert [init[0], v] == vs;
          assert AddValues(q, key, vs)[key] == Many(vs);
        } else {
          assert q'[key] == Many(init);
          assert AddValues(q, key, vs)[key] == Many(vs);
        }
        assert Get(q, key) == None;
        assert Get(AddValues(q, key, vs), key) == Some(Many(vs));
      } else if key in q {
        var q' := AddValues(q, key, init);
        assert q'[key] == if init == [] then q[key] else Many(ValuesOf(q[key]) + init);
        assert ValuesOf(q[key]) + init + [v] == ValuesOf(q[key]) + vs;
        if init == [] && q[key].One? {
          assert [q[key].value, v] == ValuesOf(q[key]) + vs;
        }
        assert AddValues(q, key, vs)[key] == Many(ValuesOf(q[key]) + vs);
      }
    }
  }

  lemma ApplyParamEffect(q: Query, key: string, p: ParamValue)
    ensures forall k :: k != key ==> Get(ApplyParam(q, key, p), k) == Get(q, k)
    ensures Get(ApplyParam(q, key, p), key) == ParamEffect(Get(q, key), p)
  {
    if p.List? {
      AddValuesEffect(q, key, p.values);
    }
  }

  /** A key no parameter names keeps its default (absent, or format=JSON / lang=en). */
  lemma {:induction false} QueryOfUntouchedKey(params: seq<(string, ParamValue)>, key: string)
    requires forall j :: 0 <= j < |params| ==> params[j].0 != key
    ensures Get(QueryOf(params), key) == Get(DefaultQuery(), key)
    decreases |params|
  {
    if params != [] {
      var n := |params| - 1;
      QueryOfUntouchedKey(params[..n], key);
      ApplyParamEffect(QueryOf(params[..n]), params[n].0, params[n].1);
    }
  }

  /**
    The shape of a parameter named once: its entry in the built query is
    ParamEffect applied to the default entry for that key.
   */
  lemma {:induction false} QueryOfParamShape(params: seq<(string, ParamValue)>, i: nat)
    requires i < |params|
    requires forall j :: 0 <= j < |params| && j != i ==> params[j].0 != params[i].0
    ensures Get(QueryOf(params), params[i].0) == ParamEffect(Get(DefaultQuery(), params[i].0), params[i].1)
    decreases |params|
  {
    var n := |params| - 1;
    var key := params[i].0;
    ApplyParamEffect(QueryOf(params[..n]), params[n].0, params[n].1);
    if i == n {
      QueryOfUntouchedKey(params[..n], key);
    } else {
      QueryOfParamShape(params[..n], i);
    }
  }

  /** The parameter-building loop of the fetch step, over the caller's `params` in order. */
  method BuildQueryParams(params: seq<(string, ParamValue)>) returns (q: Query)
    ensures q == QueryOf(params)
  {
    q := map["format" := One("JSON"), "lang" := One("en")];
    for i := 0 to |params|
      invariant q == QueryOf(params[..i])
    {
      var key := params[i].0;
      match params[i].1 {
        case List(vs) =>
          ghost var before := q;
          for j := 0 to |vs|
            invariant q == AddValues(before, key, vs[..j])
          {
            var v := vs[j];
            if key in q {
              match q[key] {
                case Many(xs) => q := q[key := Many(xs + [v])];
                case One(x) => q := q[key := Many([x, v])];
              }
            } else {
              q := q[key := One(v)];
            }
            assert vs[..j + 1][..j] == vs[..j];
          }
          assert vs[..|vs|] == vs;
        case Scalar(v) =>
          q := q[key := One(v)];
      }
      assert params[..i + 1][..i] == params[..i];
    }
    assert params[..|params|] == params;
  }

  // ---------------------------------------------------------------------
  // JSON-stat dataset
  // ---------------------------------------------------------------------

  /** `category`: `index` maps each code to its position (in document order), `labels` is the `label` member (codes to labels). */
  datatype Category = Category(index: Option<seq<(string, nat)>>, labels: Option<map<string, string>>)

  datatype Dimension = Dimension(category: Option<Category>)

  /**
    The response members the decoder reads. `value` is the sparse value
    object as (flat index, value) entries in document order.
   */
  datatype Dataset = Dataset(
    dimension: Option<map<string, Dimension>>,
    id: Option<seq<string>>,
    size: Option<seq<nat>>,
    value: Option<seq<(nat, real)>>)

  function Dimensions(data: Dataset): map<string, Dimension> { data.dimension.GetOr(map[]) }
  function DimIds(data: Dataset): seq<string> { data.id.GetOr([]) }
  function DimSizes(data: Dataset): seq<nat> { data.size.GetOr([]) }
  function Entries(data: Dataset): seq<(nat, real)> { data.value.GetOr([]) }

  /** A field of an output record. */
  datatype Field = Text(text: string) | Number(number: real)

  type Record = map<string, Field>

  /** The exceptions the decoding loop can raise. */
  datatype ParseError = IndexError | ZeroDivisionError

  // --- decimal rendering of an unmatched position (Python's `str(n)`) ---

  function DigitChar(d: nat): char
    requires d < 10
  {
    ('0' as int + d) as char
  }

  function DigitValue(c: char): nat {
    if '0' <= c <= '9' then c as int - '0' as int else 0
  }

  function NatToString(n: nat): (s: string)
    ensures |s| >= 1
    decreases n
  {
    if n < 10 then [DigitChar(n)] else NatToString(n / 10) + [DigitChar(n % 10)]
  }

  /** The value of a string of decimal digits, most significant first. */
  function DecimalValue(s: string): nat
    decreases |s|
  {
    if s == [] then 0 else DecimalValue(s[..|s| - 1]) * 10 + DigitValue(s[|s| - 1])
  }

  /** The fallback code is the decimal string of the position: reading it back gives the position. */
  lemma {:induction false} NatToStringRoundTrip(n: nat)
    ensures forall i :: 0 <= i < |NatToString(n)| ==> '0' <= NatToString(n)[i] <= '9'
    ensures DecimalValue(NatToString(n)) == n
    decreases n
  {
    if n >= 10 {
      NatToStringRoundTrip(n / 10);
      var s := NatToString(n);
      assert s[..|s| - 1] == NatToString(n / 10);
    }
  }

  // --- per-dimension lookups ---

  /** The code and label lookups the decoder builds for one dimension. */
  datatype DimLabels = DimLabels(codes: map<nat, string>, labels: map<string, string>)

  /** `{v: k for k, v in index.items()}`: position to code; for a repeated position the last code wins. */
  function InvertIndex(index: seq<(string, nat)>): map<nat, string>
    decreases |index|
  {
    if index == [] then map[]
    else
      var last := index[|index| - 1];
      InvertIndex(index[..|index| - 1])[last.1 := last.0]
  }

  /** A position is found iff some code has it, and then the code is the last one with it. */
  lemma {:induction false} InvertIndexLookup(index: seq<(string, nat)>, pos: nat)
    ensures pos in InvertIndex(index) <==> exists j :: 0 <= j < |index| && index[j].1 == pos
    ensures pos in InvertIndex(index) ==>
      exists j :: 0 <= j < |index| && index[j].1 == pos && InvertIndex(index)[pos] == index[j].0 &&
        forall j' :: j < j' < |index| ==> index[j'].1 != pos
    decreases |index|
  {
    if index != [] {
      var n := |index| - 1;
      InvertIndexLookup(index[..n], pos);
      if index[n].1 != pos && pos in InvertIndex(index) {
        var j :| 0 <= j < n && index[..n][j].1 == pos && InvertIndex(index[..n])[pos] == index[..n][j].0 &&
          forall j' :: j < j' < n ==> index[..n][j'].1 != pos;
        assert index[j].1 == pos && InvertIndex(index)[pos] == index[j].0;
      }
      if index[n].1 != pos && (exists j :: 0 <= j < |index| && index[j].1 == pos) {
        var j :| 0 <= j < |index| && index[j].1 == pos;
        assert index[..n][j].1 == pos;
      }
    }
  }

  /** The lookups for `dim_id`, with every missing member read as empty. */
  function DimLabelsFor(dimensions: map<string, Dimension>, dimId: string): DimLabels {
    var info := if dimId in dimensions then dimensions[dimId] else Dimension(None);
    var category := info.category.GetOr(Category(None, None));
    DimLabels(InvertIndex(category.index.GetOr([])), category.labels.GetOr(map[]))
  }

  /** The code at a position, or the position's decimal string when no code has it. */
  function CodeOf(l: DimLabels, dimIdx: nat): string {
    if dimIdx in l.codes then l.codes[dimIdx] else NatToString(dimIdx)
  }

  /** The label of a code, or the code itself when it has no label. */
  function LabelOf(l: DimLabels, code: string): string {
    if code in l.labels then l.labels[code] else code
  }

  /** The lookup loop over `dim_ids`. */
  method BuildDimLabels(dimensions: map<string, Dimension>, ids: seq<string>)
    returns (lookups: map<string, DimLabels>)
    ensures forall k :: k in lookups <==> k in ids
    ensures forall k :: k in ids ==> lookups[k] == DimLabelsFor(dimensions, k)
  {
    lookups := map[];
    for i := 0 to |ids|
      invariant forall k :: k in lookups <==> k in ids[..i]
      invariant forall k :: k in lookups ==> lookups[k] == DimLabelsFor(dimensions, k)
    {
      var dimId := ids[i];
      var info := if dimId in dimensions then dimensions[dimId] else Dimension(None);
      var category := info.category.GetOr(Category(None, None));
      var index := category.index.GetOr([]);
      var labels := category.labels.GetOr(map[]);
      lookups := lookups[dimId := DimLabels(InvertIndex(index), labels)];
      assert ids[..i + 1] == ids[..i] + [dimId];
    }
    assert ids[..|ids|] == ids;
  }

  // --- strides and mixed-radix decoding ---

  function Product(sizes: seq<nat>): nat
    decreases |sizes|
  {
    if sizes == [] then 1 else sizes[0] * Product(sizes[1..])
  }

  /** Row-major strides: each dimension's stride is the product of the sizes after it. */
  function Strides(sizes: seq<nat>): seq<nat>
    decreases |sizes|
  {
    if sizes == [] then [] else [Product(sizes[1..])] + Strides(sizes[1..])
  }

  /** The stride of dimension i is the product of the later sizes; the last one is 1. */
  lemma {:induction false} StridesAt(sizes: seq<nat>, i: nat)
    requires i < |sizes|
    ensures |Strides(sizes)| == |sizes|
    ensures Strides(sizes)[i] == Product(sizes[i + 1..])
    ensures i == |sizes| - 1 ==> Strides(sizes)[i] == 1
    ensures i + 1 < |sizes| ==> Strides(sizes)[i] == sizes[i + 1] * Strides(sizes)[i + 1]
    decreases |sizes|
  {
    if i > 0 {
      StridesAt(sizes[1..], i - 1);
      assert sizes[1..][i..] == sizes[i + 1..];
      if i + 1 < |sizes| {
        StridesAt(sizes[1..], i);
      }
    } else {
      StridesLength(sizes);
      if 1 < |sizes| {
        StridesAt(sizes[1..], 0);
      }
    }
  }

  lemma {:induction false} StridesLength(sizes: seq<nat>)
    ensures |Strides(sizes)| == |sizes|
    decreases |sizes|
  {
    if sizes != [] {
      StridesLength(sizes[1..]);
    }
  }

  /** The stride loop: walks the sizes from the last one, prepending the running product. */
  method ComputeStrides(sizes: seq<nat>) returns (strides: seq<nat>)
    ensures strides == Strides(sizes)
  {
    strides := [];
    var stride: nat := 1;
    var j := |sizes|;
    while j > 0
      invariant 0 <= j <= |sizes|
      invariant strides == Strides(sizes[j..])
      invariant stride == Product(sizes[j..])
    {
      j := j - 1;
      strides := [stride] + strides;
      assert sizes[j..][1..] == sizes[j + 1..];
      stride := stride * sizes[j];
    }
  }

  predicate PositiveStrides(strides: seq<nat>) {
    forall i :: 0 <= i < |strides| ==> strides[i] > 0
  }

  /** The per-dimension positions of a flat index: repeated `//` and `%` by the strides. */
  function Positions(flat: nat, strides: seq<nat>): (ps: seq<nat>)
    requires PositiveStrides(strides)
    ensures |ps| == |strides|
    decreases |strides|
  {
    if strides == [] then [] else [flat / strides[0]] + Positions(flat % strides[0], strides[1..])
  }

  /** What is left of the flat index after the last dimension. */
  function Remainder(flat: nat, strides: seq<nat>): nat
    requires PositiveStrides(strides)
    decreases |strides|
  {
    if strides == [] then flat else Remainder(flat % strides[0], strides[1..])
  }

  /** The flat index of a tuple of positions: the sum of position times stride. */
  function Weighted(ps: seq<nat>, strides: seq<nat>): nat
    requires |ps| == |strides|
    decreases |ps|
  {
    if ps == [] then 0 else ps[0] * strides[0] + Weighted(ps[1..], strides[1..])
  }

  /** For any positive strides, decoding loses nothing: positions and remainder give back the flat index. */
  lemma {:induction false} PositionsRecombine(flat: nat, strides: seq<nat>)
    requires PositiveStrides(strides)
    ensures Weighted(Positions(flat, strides), strides) + Remainder(flat, strides) == flat
    decreases |strides|
  {
    if strides != [] {
      PositionsRecombine(flat % strides[0], strides[1..]);
      assert Positions(flat, strides)[1..] == Positions(flat % strides[0], strides[1..]);
    }
  }

  lemma {:induction false} ProductPositive(sizes: seq<nat>)
    ensures Product(sizes) > 0 <==> forall j :: 0 <= j < |sizes| ==> sizes[j] > 0
    decreases |sizes|
  {
    if sizes != [] {
      ProductPositive(sizes[1..]);
      assert forall j :: 1 <= j < |sizes| ==> sizes[j] == sizes[1..][j - 1];
    }
  }

  lemma StridesPositive(sizes: seq<nat>)
    requires forall j :: 0 <= j < |sizes| ==> sizes[j] > 0
    ensures PositiveStrides(Strides(sizes))
  {
    StridesLength(sizes);
    forall i | 0 <= i < |sizes| ensures Strides(sizes)[i] > 0 {
      StridesAt(sizes, i);
      ProductPositive(sizes[i + 1..]);
    }
  }

  lemma MulCancelLess(q: int, a: int, b: int)
    requires b > 0 && q * b < a * b
    ensures q < a
  {
  }

  lemma DivBelow(x: nat, a: nat, b: nat)
    requires b > 0 && x < a * b
    ensures x / b < a
  {
    assert (x / b) * b <= x;
    MulCancelLess(x / b, a, b);
  }

  lemma ZeroMultiple(d: int, b: int)
    requires b > 0 && -b < d * b < b
    ensures d == 0
  {
  }

  lemma DivOfCombination(p: nat, b: nat, r: nat)
    requires 0 <= r < b
    ensures (p * b + r) / b == p && (p * b + r) % b == r
  {
    var x := p * b + r;
    var q, m := x / b, x % b;
    assert x == q * b + m;
    assert (q - p) * b == r - m;
    ZeroMultiple(q - p, b);
  }

  /**
    Decoding a flat index below the product of the (positive) sizes gives
    positions each below its dimension's size, recombining to the flat
    index, with nothing left after the last dimension.
   */
  lemma {:induction false} DecodeInBounds(sizes: seq<nat>, flat: nat)
    requires forall j :: 0 <= j < |sizes| ==> sizes[j] > 0
    requires flat < Product(sizes)
    ensures PositiveStrides(Strides(sizes))
    ensures |Positions(flat, Strides(sizes))| == |sizes|
    ensures forall i :: 0 <= i < |sizes| ==> Positions(flat, Strides(sizes))[i] < sizes[i]
    ensures Weighted(Positions(flat, Strides(sizes)), Strides(sizes)) == flat
    ensures Remainder(flat, Strides(sizes)) == 0
    decreases |sizes|
  {
    StridesPositive(sizes);
    StridesLength(sizes);
    if sizes != [] {
      var rest := sizes[1..];
      var stride := Product(rest);
      ProductPositive(rest);
      DivBelow(flat, sizes[0], stride);
      assert flat % stride < Product(rest);
      DecodeInBounds(rest, flat % stride);
      var ps := Positions(flat, Strides(sizes));
      assert Strides(sizes)[1..] == Strides(rest);
      assert ps[1..] == Positions(flat % stride, Strides(rest));
      forall i | 1 <= i < |sizes| ensures ps[i] < sizes[i] {
        assert ps[i] == ps[1..][i - 1];
      }
    }
  }

  /**
    The other direction: every in-bounds tuple of positions is encoded to a
    flat index below the product, and decoding it gives the tuple back.
   */
  lemma {:induction false} EncodeDecode(sizes: seq<nat>, ps: seq<nat>)
    requires |ps| == |sizes|
    requires forall i :: 0 <= i < |sizes| ==> ps[i] < sizes[i]
    ensures |Strides(sizes)| == |sizes| && PositiveStrides(Strides(sizes))
    ensures Weighted(ps, Strides(sizes)) < Product(sizes)
    ensures Positions(Weighted(ps, Strides(sizes)), Strides(sizes)) == ps
    decreases |sizes|
  {
    StridesLength(sizes);
    StridesPositive(sizes);
    if sizes != [] {
      var rest := sizes[1..];
      var stride := Product(rest);
      EncodeDecode(rest, ps[1..]);
      var w := Weighted(ps[1..], Strides(rest));
      assert Strides(sizes)[1..] == Strides(rest);
      assert Weighted(ps, Strides(sizes)) == ps[0] * stride + w;
      DivOfCombination(ps[0], stride, w);
      assert ps[0] * stride + w < (ps[0] + 1) * stride <= sizes[0] * stride;
    }
  }

  /** The first `n` strides exist and are non-zero: the decoding loop cannot raise. */
  predicate StridesCover(n: nat, strides: seq<nat>) {
    n <= |strides| && forall i :: 0 <= i < n ==> strides[i] > 0
  }

  /** The exception the decoding loop raises first when the strides do not cover the ids. */
  function StrideError(n: nat, strides: seq<nat>): ParseError {
    if exists i :: 0 <= i < n && i < |strides| && strides[i] == 0 then ZeroDivisionError else IndexError
  }

  /** With at least one dimension id, decoding cannot raise iff the ids fit the sizes and every size after the first is non-zero. */
  lemma CoverIffSizesPositive(n: nat, sizes: seq<nat>)
    requires n >= 1
    ensures StridesCover(n, Strides(sizes)) <==> n <= |sizes| && forall j :: 1 <= j < |sizes| ==> sizes[j] > 0
  {
    StridesLength(sizes);
    if n <= |sizes| {
      StridesAt(sizes, 0);
      ProductPositive(sizes[1..]);
      assert forall j :: 1 <= j < |sizes| ==> sizes[j] == sizes[1..][j - 1];
      if forall j :: 1 <= j < |sizes| ==> sizes[j] > 0 {
        forall i | 0 <= i < n ensures Strides(sizes)[i] > 0 {
          StridesAt(sizes, i);
          ProductPositive(sizes[i + 1..]);
        }
      }
    }
  }

  // --- records ---

  /** The fields every record starts with. */
  function BaseRecord(datasetCode: string, value: real, extractedAt: string): Record {
    map["dataset_code" := Text(datasetCode), "value" := Number(value), "extracted_at" := Text(extractedAt)]
  }

  function CodeKey(dimId: string): string { dimId + "_code" }
  function LabelKey(dimId: string): string { dimId + "_label" }

  /**
    The decoding loop over the dimension ids, from `rec` and `remaining`:
    each id takes position `remaining // stride` and sets its code and
    label keys.
   */
  function Fill(rec: Record, remaining: nat, ids: seq<string>, strides: seq<nat>,
                dimensions: map<string, Dimension>): Record
    requires StridesCover(|ids|, strides)
    decreases |ids|
  {
    if ids == [] then rec
    else
      var l := DimLabelsFor(dimensions, ids[0]);
      var code := CodeOf(l, remaining / strides[0]);
      Fill(rec[CodeKey(ids[0]) := Text(code)][LabelKey(ids[0]) := Text(LabelOf(l, code))],
           remaining % strides[0], ids[1..], strides[1..], dimensions)
  }

  /** The record built for one entry of `value`. */
  function RecordFor(data: Dataset, datasetCode: string, extractedAt: string, entry: (nat, real)): Record
    requires StridesCover(|DimIds(data)|, Strides(DimSizes(data)))
  {
    Fill(BaseRecord(datasetCode, entry.1, extractedAt), entry.0, DimIds(data), Strides(DimSizes(data)), Dimensions(data))
  }

  /** The keys the decoding loop adds. */
  function DimKeys(ids: seq<string>): set<string> {
    (set id | id in ids :: CodeKey(id)) + (set id | id in ids :: LabelKey(id))
  }

  /** A dimension's code and label keys never coincide with each other or with the base keys, except `dataset_code`. */
  lemma KeysDistinct(a: string, b: string)
    ensures CodeKey(a) == CodeKey(b) ==> a == b
    ensures LabelKey(a) == LabelKey(b) ==> a == b
    ensures CodeKey(a) != LabelKey(b)
    ensures CodeKey(a) != "value" && LabelKey(a) != "value"
    ensures CodeKey(a) != "extracted_at" && LabelKey(a) != "extracted_at"
    ensures LabelKey(a) != "dataset_code"
    ensures CodeKey(a) == "dataset_code" <==> a == "dataset"
  {
    var ca, la := CodeKey(a), LabelKey(a);
    assert ca[|ca| - 1] == 'e' && la[|la| - 1] == 'l';
    assert ca[..|a|] == a && la[..|a|] == a;
    var cb, lb := CodeKey(b), LabelKey(b);
    assert cb[..|b|] == b && lb[..|b|] == b;
    assert cb[|cb| - 1] == 'e' && lb[|lb| - 1] == 'l';
    if ca == "dataset_code" {
      assert a == "dataset_code"[..7];
    }
  }

  /** The decoding loop adds exactly the dimensions' keys and leaves every other key alone. */
  lemma {:induction false} FillKeys(rec: Record, remaining: nat, ids: seq<string>, strides: seq<nat>,
                                    dimensions: map<string, Dimension>)
    requires StridesCover(|ids|, strides)
    ensures Fill(rec, remaining, ids, strides, dimensions).Keys == rec.Keys + DimKeys(ids)
    ensures forall k :: k in rec && k !in DimKeys(ids) ==> Fill(rec, remaining, ids, strides, dimensions)[k] == rec[k]
    decreases |ids|
  {
    if ids != [] {
      var l := DimLabelsFor(dimensions, ids[0]);
      var code := CodeOf(l, remaining / strides[0]);
      var rec' := rec[CodeKey(ids[0]) := Text(code)][LabelKey(ids[0]) := Text(LabelOf(l, code))];
      FillKeys(rec', remaining % strides[0], ids[1..], strides[1..], dimensions);
      assert DimKeys(ids) == {CodeKey(ids[0]), LabelKey(ids[0])} + DimKeys(ids[1..]);
    }
  }

  /**
    The code and label of dimension i, when no later id repeats it: the
    code at its decoded position (decimal string as fallback) and the label
    of that code (the code as fallback).
   */
  lemma {:induction false} FillDimension(rec: Record, remaining: nat, ids: seq<string>, strides: seq<nat>,
                                         dimensions: map<string, Dimension>, i: nat)
    requires StridesCover(|ids|, strides)
    requires i < |ids|
    requires forall j :: i < j < |ids| ==> ids[j] != ids[i]
    ensures PositiveStrides(strides[..|ids|])
    ensures var l := DimLabelsFor(dimensions, ids[i]);
            var code := CodeOf(l, Positions(remaining, strides[..|ids|])[i]);
            var r := Fill(rec, remaining, ids, strides, dimensions);
            CodeKey(ids[i]) in r && r[CodeKey(ids[i])] == Text(code) &&
            LabelKey(ids[i]) in r && r[LabelKey(ids[i])] == Text(LabelOf(l, code))
    decreases |ids|
  {
    var l := DimLabelsFor(dimensions, ids[0]);
    var code := CodeOf(l, remaining / strides[0]);
    var rec' := rec[CodeKey(ids[0]) := Text(code)][LabelKey(ids[0]) := Text(LabelOf(l, code))];
    assert strides[..|ids|][1..] == strides[1..][..|ids| - 1];
    if i == 0 {
      FillKeys(rec', remaining % strides[0], ids[1..], strides[1..], dimensions);
      KeysDistinct(ids[0], ids[0]);
      forall id | id in ids[1..] ensures CodeKey(id) != CodeKey(ids[0]) && LabelKey(id) != LabelKey(ids[0])
                                  && CodeKey(id) != LabelKey(ids[0]) && LabelKey(id) != CodeKey(ids[0]) {
        KeysDistinct(id, ids[0]);
        KeysDistinct(ids[0], id);
      }
    } else {
      FillDimension(rec', remaining % strides[0], ids[1..], strides[1..], dimensions, i - 1);
    }
  }

  /**
    What one record holds: exactly the three base keys plus a code and a
    label key per dimension id; the entry's value and the timestamp
    unchanged; the dataset code unless a dimension is itself named
    "dataset" (its code key is `dataset_code`); and for each id (its last
    occurrence) the code and label at its decoded position.
   */
  lemma RecordContents(data: Dataset, datasetCode: string, extractedAt: string, entry: (nat, real), i: nat)
    requires StridesCover(|DimIds(data)|, Strides(DimSizes(data)))
    requires i < |DimIds(data)|
    requires forall j :: i < j < |DimIds(data)| ==> DimIds(data)[j] != DimIds(data)[i]
    ensures var r := RecordFor(data, datasetCode, extractedAt, entry);
      && r.Keys == {"dataset_code", "value", "extracted_at"} + DimKeys(DimIds(data))
      && r["value"] == Number(entry.1)
      && r["extracted_at"] == Text(extractedAt)
      && ("dataset" !in DimIds(data) ==> r["dataset_code"] == Text(datasetCode))
    ensures var ids := DimIds(data);
      var strides := Strides(DimSizes(data))[..|ids|];
      var l := DimLabelsFor(Dimensions(data), ids[i]);
      var r := RecordFor(data, datasetCode, extractedAt, entry);
      PositiveStrides(strides) &&
      var code := CodeOf(l, Positions(entry.0, strides)[i]);
      r[CodeKey(ids[i])] == Text(code) && r[LabelKey(ids[i])] == Text(LabelOf(l, code))
  {
    var ids := DimIds(data);
    var base := BaseRecord(datasetCode, entry.1, extractedAt);
    FillKeys(base, entry.0, ids, Strides(DimSizes(data)), Dimensions(data));
    FillDimension(base, entry.0, ids, Strides(DimSizes(data)), Dimensions(data), i);
    forall k | k in DimKeys(ids) ensures k != "value" && k != "extracted_at" && (k == "dataset_code" ==> "dataset" in ids) {
      var id :| id in ids && (k == CodeKey(id) || k == LabelKey(id));
      KeysDistinct(id, id);
    }
  }

  /** The inner loop of the decoder: decodes one flat index into a record, or raises. */
  method DecodeRecord(base: Record, flatIdx: nat, ids: seq<string>, strides: seq<nat>,
                      dimensions: map<string, Dimension>, dimLabels: map<string, DimLabels>)
    returns (r: Result<Record, ParseError>)
    requires forall k :: k in ids ==> k in dimLabels && dimLabels[k] == DimLabelsFor(dimensions, k)
    ensures r.Success? <==> StridesCover(|ids|, strides)
    ensures r.Failure? ==> r.error == StrideError(|ids|, strides)
    ensures r.Success? ==> StridesCover(|ids|, strides) && r.value == Fill(base, flatIdx, ids, strides, dimensions)
  {
    var record := base;
    var remaining := flatIdx;
    for i := 0 to |ids|
      invariant StridesCover(i, strides)
      invariant StridesCover(|ids|, strides) ==>
        Fill(record, remaining, ids[i..], strides[i..], dimensions) == Fill(base, flatIdx, ids, strides, dimensions)
    {
      if i >= |strides| {
        return Failure(IndexError);
      }
      if strides[i] == 0 {
        return Failure(ZeroDivisionError);
      }
      var dimId := ids[i];
      var dimIdx := remaining / strides[i];
      remaining := remaining % strides[i];
      var l := dimLabels[dimId];
      var code := if dimIdx in l.codes then l.codes[dimIdx] else NatToString(dimIdx);
      record := record[dimId + "_code" := Text(code)];
      record := record[dimId + "_label" := Text(if code in l.labels then l.labels[code] else code)];
      assert ids[i..][1..] == ids[i + 1..];
      assert strides[i..][1..] == strides[i + 1..];
    }
    return Success(record);
  }

  /**
    `parse_eurostat_json`: one record per entry of `value`, in order, or the
    exception the decoding loop raises (only when there is an entry).
   */
  method ParseEurostatJson(data: Dataset, datasetCode: string, extractedAt: string)
    returns (r: Result<seq<Record>, ParseError>)
    ensures Entries(data) == [] ==> r == Success([])
    ensures Entries(data) != [] ==> (r.Success? <==> StridesCover(|DimIds(data)|, Strides(DimSizes(data))))
    ensures r.Failure? ==> r.error == StrideError(|DimIds(data)|, Strides(DimSizes(data)))
    ensures r.Success? ==> |r.value| == |Entries(data)|
    ensures r.Success? && Entries(data) != [] ==>
      StridesCover(|DimIds(data)|, Strides(DimSizes(data))) &&
      forall k :: 0 <= k < |r.value| ==> r.value[k] == RecordFor(data, datasetCode, extractedAt, Entries(data)[k])
  {
    var records: seq<Record> := [];
    var dimensions := data.dimension.GetOr(map[]);
    var dimIds := data.id.GetOr([]);
    var dimSizes := data.size.GetOr([]);
    var values := data.value.GetOr([]);
    var dimLabels := BuildDimLabels(dimensions, dimIds);
    var strides := ComputeStrides(dimSizes);
    for k := 0 to |values|
      invariant |records| == k
      invariant k > 0 ==> StridesCover(|dimIds|, strides)
      invariant StridesCover(|dimIds|, strides) ==>
        forall m :: 0 <= m < k ==> records[m] == RecordFor(data, datasetCode, extractedAt, values[m])
    {
      var flatIdx := values[k].0;
      var base := BaseRecord(datasetCode, values[k].1, extractedAt);
      var decoded := DecodeRecord(base, flatIdx, dimIds, strides, dimensions, dimLabels);
      if decoded.Failure? {
        return Failure(decoded.error);
      }
      records := records + [decoded.value];
    }
    return Success(records);
  }
}
