/** `KanariesServerDataLoader`: a read-only data loader that keeps one dataset record
    and asks a remote server for everything else through workflow queries. The
    network is replaced by the response the server gives to each request; the
    loader's change signal is the list of datasets current at each `'init'`. */
module ServerDataLoader {
  import opened Wrappers
  import opened Text
  import opened Workflow
  import opened CountSort

  // ---------------------------------------------------------------- responses

  /** `IResponse<T>`: the JSON body of every reply. `success` is absent, true or false. */
  datatype Envelope<T> = Envelope(success: Option<bool>, data: T, message: string)

  /** What `fetch` resolves to: the status line and the parsed body. */
  datatype HttpResponse<T> = HttpResponse(status: nat, statusText: string, body: Envelope<T>)

  /** Why an operation rejects. */
  datatype RequestError =
    | ServerMessage(message: string)               // `success === false`
    | ServiceFailed(status: nat, statusText: string) // any status but 200 and 500
    | MissingRow                                   // a property read on the `undefined` first row

  /** The message of the `Error` a failed request throws. */
  function ErrorText(e: RequestError): string
    requires !e.MissingRow?
  {
    match e
    case ServerMessage(m) => m
    case ServiceFailed(status, text) => "Service failed. " + NatToString(status) + ": " + text
  }

  predicate Accepted(status: nat) {
    status == 200 || status == 500
  }

  /** The common tail of `#getRequest` and `#postRequest`. */
  function Decode<T>(res: HttpResponse<T>): (r: Result<T, RequestError>)
    ensures r.Success? <==> Accepted(res.status) && res.body.success != Some(false)
    ensures r.Success? ==> r.value == res.body.data
    ensures Accepted(res.status) && res.body.success == Some(false) ==> r == Failure(ServerMessage(res.body.message))
    ensures !Accepted(res.status) ==>
      r.Failure? && !r.error.MissingRow? && ErrorText(r.error) == "Service failed. " + NatToString(res.status) + ": " + res.statusText
  {
    if Accepted(res.status) then
      if res.body.success == Some(false) then Failure(ServerMessage(res.body.message))
      else Success(res.body.data)
    else Failure(ServiceFailed(res.status, res.statusText))
  }

  /** A rejected status is reported without looking at the body, and statuses 200
      and 500 are read the same way. */
  lemma DecodeByStatus<T>(res: HttpResponse<T>, body: Envelope<T>)
    ensures !Accepted(res.status) ==> Decode(res) == Decode(res.(body := body))
    ensures Accepted(res.status) ==> Decode(res.(status := 200)) == Decode(res.(status := 500)) == Decode(res)
  {
  }

  // ---------------------------------------------------------------- GET parameters

  /** One encoded parameter value: JSON text (not modelled beyond the value it
      serialises) or the value's string form. */
  datatype QueryValue = Serialized(value: Value) | Plain(text: string)

  /** JavaScript truthiness. */
  predicate Truthy(v: Value) {
    match v
    case Undefined => false
    case Null => false
    case Bool(b) => b
    case Num(n) => n != 0
    case Str(s) => s != ""
    case Arr(_) => true
    case Obj(_) => true
  }

  /** `typeof v === 'object'` */
  predicate IsObject(v: Value) {
    v.Null? || v.Arr? || v.Obj?
  }

  /** The decimal text of an integer. */
  function IntText(n: int): string {
    if n < 0 then "-" + NatToString(-n) else NatToString(n)
  }

  /** `${v}` for a value that is not an array or object. */
  function TemplateText(v: Value): string
    requires !v.Arr? && !v.Obj?
  {
    match v
    case Undefined => "undefined"
    case Null => "null"
    case Bool(b) => if b then "true" else "false"
    case Num(n) => IntText(n)
    case Str(s) => s
  }

  /** `data[key] && typeof data[key] === 'object' ? JSON.stringify(data[key]) : `${data[key]}`` */
  function EncodeValue(v: Value): (e: QueryValue)
    ensures e.Serialized? <==> v.Arr? || v.Obj?
    ensures e.Serialized? ==> e.value == v
    ensures e.Plain? ==> !v.Arr? && !v.Obj? && e.text == TemplateText(v)
  {
    if Truthy(v) && IsObject(v) then Serialized(v) else Plain(TemplateText(v))
  }

  /** `null` is an object but is not truthy, so it is written as "null", not as JSON. */
  lemma NullIsPlain()
    ensures IsObject(Null) && EncodeValue(Null) == Plain("null")
  {
  }

  /** A non-negative number is written as its decimal numeral, which reads back as it. */
  lemma NumberIsNumeral(n: nat)
    ensures EncodeValue(Num(n)).Plain? && AllDigits(EncodeValue(Num(n)).text)
    ensures DigitsValue(EncodeValue(Num(n)).text) == n
  {
    DigitsValueOfNatToString(n);
  }

  /** The loop of `#getRequest` that fills `URLSearchParams`: one entry per key of
      the parameter object, in order; no object, no entries. */
  method EncodeQueryParams(data: Option<seq<(string, Value)>>) returns (entries: seq<(string, QueryValue)>)
    ensures data.None? ==> entries == []
    ensures data.Some? ==> |entries| == |data.value|
    ensures data.Some? ==> forall i :: 0 <= i < |entries| ==>
      entries[i].0 == data.value[i].0 && entries[i].1 == EncodeValue(data.value[i].1)
  {
    entries := [];
    if data.Some? {
      var params := data.value;
      for i := 0 to |params|
        invariant |entries| == i
        invariant forall k :: 0 <= k < i ==> entries[k].0 == params[k].0 && entries[k].1 == EncodeValue(params[k].1)
      {
        entries := entries + [(params[i].0, EncodeValue(params[i].1))];
      }
    }
  }

  // ---------------------------------------------------------------- the dataset record

  /** The loader's `dataset` field. */
  datatype Dataset = Dataset(meta: DatasetMeta, dimensions: seq<string>, measures: seq<string>)

  /** The record before `init`. */
  const EmptyDataset := Dataset(DatasetMeta("", "", [], 0), [], [])

  predicate IsMeasure(f: Field) {
    f.semanticType == Quantitative
  }

  /** `fields.filter(...)`: the fields that are measures (`quantitative`) or, with
      `measure` false, the dimensions, in their order. */
  function FieldsWhere(fs: seq<Field>, measure: bool): (r: seq<Field>)
    ensures |r| <= |fs|
    ensures forall f :: f in r <==> f in fs && IsMeasure(f) == measure
  {
    if |fs| == 0 then []
    else FieldsWhere(fs[..|fs| - 1], measure) + (if IsMeasure(fs[|fs| - 1]) == measure then [fs[|fs| - 1]] else [])
  }

  /** `.map(field => field.key)` */
  function Keys(fs: seq<Field>): (r: seq<string>)
    ensures |r| == |fs| && forall i :: 0 <= i < |fs| ==> r[i] == fs[i].key
  {
    if |fs| == 0 then [] else [fs[0].key] + Keys(fs[1..])
  }

  /** The two filters split the fields: every field lands in exactly one of them. */
  lemma {:induction false} FieldsWhereSplit(fs: seq<Field>)
    ensures |FieldsWhere(fs, true)| + |FieldsWhere(fs, false)| == |fs|
    decreases |fs|
  {
    if |fs| > 0 {
      FieldsWhereSplit(fs[..|fs| - 1]);
    }
  }

  /** The positions of the fields that pass the filter, in increasing order: every
      passing field's position, and no other. */
  function PassingIndices(fs: seq<Field>, measure: bool): (r: seq<nat>)
    ensures forall k :: 0 <= k < |r| ==> r[k] < |fs| && IsMeasure(fs[r[k]]) == measure
    ensures forall k, l :: 0 <= k < l < |r| ==> r[k] < r[l]
    ensures forall i :: 0 <= i < |fs| && IsMeasure(fs[i]) == measure ==> i in r
  {
    if |fs| == 0 then []
    else
      var prev := PassingIndices(fs[..|fs| - 1], measure);
      prev + (if IsMeasure(fs[|fs| - 1]) == measure then [|fs| - 1] else [])
  }

  /** `sel` is the elements of `s` at the positions `idx`, one for one. */
  predicate Picks<T(==)>(sel: seq<T>, idx: seq<nat>, s: seq<T>) {
    |sel| == |idx| && forall k :: 0 <= k < |sel| ==> idx[k] < |s| && sel[k] == s[idx[k]]
  }

  lemma PicksExtend<T>(sel: seq<T>, idx: seq<nat>, s: seq<T>, x: T, take: bool)
    requires Picks(sel, idx, s)
    ensures Picks(sel + (if take then [x] else []), idx + (if take then [|s|] else []), s + [x])
  {
    var sel', idx' := sel + (if take then [x] else []), idx + (if take then [|s|] else []);
    forall k | 0 <= k < |sel'| ensures idx'[k] < |s + [x]| && sel'[k] == (s + [x])[idx'[k]] {
      if k < |sel| {
        assert sel'[k] == sel[k] && idx'[k] == idx[k];
      }
    }
  }

  /** The filter keeps the passing fields in their order and as often as they occur:
      its `k`-th field is the field at the `k`-th passing position. */
  lemma {:induction false} FieldsWhereInOrder(fs: seq<Field>, measure: bool)
    ensures Picks(FieldsWhere(fs, measure), PassingIndices(fs, measure), fs)
    decreases |fs|
  {
    if |fs| > 0 {
      var init, last := fs[..|fs| - 1], fs[|fs| - 1];
      FieldsWhereInOrder(init, measure);
      PicksExtend(FieldsWhere(init, measure), PassingIndices(init, measure), init, last, IsMeasure(last) == measure);
      assert init + [last] == fs;
    }
  }

  /** `init` lists the measure keys and the dimension keys in `fieldsMeta` order, one
      per field of the kind. */
  lemma PartitionInOrder(meta: DatasetMeta)
    ensures var fs, d := meta.fieldsMeta, Partition(meta);
      && |d.measures| == |PassingIndices(fs, true)|
      && (forall k :: 0 <= k < |d.measures| ==> d.measures[k] == fs[PassingIndices(fs, true)[k]].key)
      && |d.dimensions| == |PassingIndices(fs, false)|
      && (forall k :: 0 <= k < |d.dimensions| ==> d.dimensions[k] == fs[PassingIndices(fs, false)[k]].key)
  {
    var fs := meta.fieldsMeta;
    FieldsWhereInOrder(fs, true);
    KeysOfPicks(FieldsWhere(fs, true), PassingIndices(fs, true), fs);
    FieldsWhereInOrder(fs, false);
    KeysOfPicks(FieldsWhere(fs, false), PassingIndices(fs, false), fs);
  }

  lemma KeysOfPicks(sel: seq<Field>, idx: seq<nat>, fs: seq<Field>)
    requires Picks(sel, idx, fs)
    ensures |Keys(sel)| == |idx| && forall k :: 0 <= k < |idx| ==> Keys(sel)[k] == fs[idx[k]].key
  {
  }

  /** The record `init` stores: the metadata and the keys of the measures and of the
      dimensions. */
  function Partition(meta: DatasetMeta): (d: Dataset)
    ensures d.meta == meta
    ensures |d.measures| + |d.dimensions| == |meta.fieldsMeta|
    ensures forall k :: k in d.measures <==> exists i :: 0 <= i < |meta.fieldsMeta| && meta.fieldsMeta[i].key == k && IsMeasure(meta.fieldsMeta[i])
    ensures forall k :: k in d.dimensions <==> exists i :: 0 <= i < |meta.fieldsMeta| && meta.fieldsMeta[i].key == k && !IsMeasure(meta.fieldsMeta[i])
  {
    var fs := meta.fieldsMeta;
    FieldsWhereSplit(fs);
    KeysWhere(fs, true);
    KeysWhere(fs, false);
    Dataset(meta, Keys(FieldsWhere(fs, false)), Keys(FieldsWhere(fs, true)))
  }

  /** The keys of the filtered fields are the keys of the fields that pass. */
  lemma KeysWhere(fs: seq<Field>, measure: bool)
    ensures forall k :: k in Keys(FieldsWhere(fs, measure)) <==>
      exists i :: 0 <= i < |fs| && fs[i].key == k && IsMeasure(fs[i]) == measure
  {
    var sel := FieldsWhere(fs, measure);
    forall k | k in Keys(sel) ensures exists i :: 0 <= i < |fs| && fs[i].key == k && IsMeasure(fs[i]) == measure {
      var m :| 0 <= m < |sel| && Keys(sel)[m] == k;
      assert sel[m] in fs;
    }
    forall k | exists i :: 0 <= i < |fs| && fs[i].key == k && IsMeasure(fs[i]) == measure ensures k in Keys(sel) {
      var i :| 0 <= i < |fs| && fs[i].key == k && IsMeasure(fs[i]) == measure;
      assert fs[i] in sel;
      var m :| 0 <= m < |sel| && sel[m] == fs[i];
      assert Keys(sel)[m] == k;
    }
  }

  /** No two fields share a key. */
  predicate DistinctKeys(fs: seq<Field>) {
    forall i, j :: 0 <= i < j < |fs| ==> fs[i].key != fs[j].key
  }

  /** With distinct keys no key is both a measure and a dimension. */
  lemma PartitionDisjoint(meta: DatasetMeta)
    requires DistinctKeys(meta.fieldsMeta)
    ensures forall k :: k in Partition(meta).measures ==> k !in Partition(meta).dimensions
  {
    var fs := meta.fieldsMeta;
    forall k | k in Partition(meta).measures ensures k !in Partition(meta).dimensions {
      var i :| 0 <= i < |fs| && fs[i].key == k && IsMeasure(fs[i]);
      forall j | 0 <= j < |fs| && fs[j].key == k ensures IsMeasure(fs[j]) {
        assert j == i;
      }
    }
  }

  // ---------------------------------------------------------------- loadMeta

  /** `fieldsMeta.find(f => f.key === key)`: the first field with that key. */
  function FindField(fs: seq<Field>, key: string): (r: Option<Field>)
    ensures r.None? <==> forall i :: 0 <= i < |fs| ==> fs[i].key != key
    ensures r.Some? ==> exists i :: (0 <= i < |fs| && fs[i] == r.value && r.value.key == key
      && forall j :: 0 <= j < i ==> fs[j].key != key)
  {
    if |fs| == 0 then None
    else if fs[0].key == key then Some(fs[0])
    else
      var r := FindField(fs[1..], key);
      if r.Some? then
        var i :| 0 <= i < |fs[1..]| && fs[1..][i] == r.value && r.value.key == key && forall j :: 0 <= j < i ==> fs[1..][j].key != key;
        assert fs[i + 1] == r.value && forall j :: 0 <= j < i + 1 ==> fs[j].key != key;
        r
      else r
  }

  /** `keys.map(key => fieldsMeta.find(...)!).filter(Boolean)`: the field of each key,
      keys without a field dropped. */
  function LookupFields(keys: seq<string>, fs: seq<Field>): (r: seq<Field>)
    ensures |r| <= |keys|
    ensures forall f :: f in r ==> f in fs && f.key in keys
  {
    if |keys| == 0 then []
    else
      var found := FindField(fs, keys[0]);
      (if found.Some? then [found.value] else []) + LookupFields(keys[1..], fs)
  }

  /** `loadMeta`: the dataset id and the fields of the stored keys. */
  function MetaOf(d: Dataset): (r: VisDataset)
    ensures r.datasetId == d.meta.id
    ensures forall f :: f in r.dimensions ==> f in d.meta.fieldsMeta && f.key in d.dimensions
    ensures forall f :: f in r.measures ==> f in d.meta.fieldsMeta && f.key in d.measures
  {
    VisDataset(d.meta.id, LookupFields(d.dimensions, d.meta.fieldsMeta), LookupFields(d.measures, d.meta.fieldsMeta))
  }

  /** Looking up the keys of some of the fields gives those fields back, when keys
      are distinct. */
  lemma {:induction false} LookupOwnFields(sub: seq<Field>, fs: seq<Field>)
    requires DistinctKeys(fs)
    requires forall f :: f in sub ==> f in fs
    ensures LookupFields(Keys(sub), fs) == sub
    decreases |sub|
  {
    if |sub| > 0 {
      var found := FindField(fs, sub[0].key);
      assert sub[0] in sub;
      var i :| 0 <= i < |fs| && fs[i] == sub[0];
      assert found.Some?;
      var m :| 0 <= m < |fs| && fs[m] == found.value && found.value.key == sub[0].key;
      assert fs[m].key == fs[i].key;
      assert m == i;
      assert Keys(sub)[1..] == Keys(sub[1..]);
      LookupOwnFields(sub[1..], fs);
    }
  }

  /** After `init`, `loadMeta` lists the dimensions and the measures of the metadata
      in their order, when field keys are distinct. */
  lemma InitThenLoadMeta(meta: DatasetMeta)
    requires DistinctKeys(meta.fieldsMeta)
    ensures MetaOf(Partition(meta)) == VisDataset(meta.id, FieldsWhere(meta.fieldsMeta, false), FieldsWhere(meta.fieldsMeta, true))
  {
    LookupOwnFields(FieldsWhere(meta.fieldsMeta, false), meta.fieldsMeta);
    LookupOwnFields(FieldsWhere(meta.fieldsMeta, true), meta.fieldsMeta);
  }

  // ---------------------------------------------------------------- query payloads

  /** The payload of `loadData`: one `view` step with a `raw` op on every field, one
      page of rows. */
  function LoadDataQuery(datasetId: string, pageIndex: nat, pageSize: nat): ServerQuery {
    ServerQuery(datasetId, DataQuery([View([Raw(["*"])])], Some(pageSize), Some(pageIndex * pageSize)))
  }

  lemma MulStep(p: nat, s: nat)
    ensures (p + 1) * s == p * s + s
  {
  }

  lemma {:induction false} MulMonotone(p: nat, q: nat, s: nat)
    requires p < q
    ensures p * s + s <= q * s
    decreases q - p
  {
    MulStep(p, s);
    if p + 1 < q {
      MulMonotone(p + 1, q, s);
    }
  }

  /** Page `p` starts where page `p - 1` ends, and page 0 at the first row. */
  lemma PagesTile(datasetId: string, p: nat, pageSize: nat)
    ensures LoadDataQuery(datasetId, 0, pageSize).query.offset == Some(0)
    ensures LoadDataQuery(datasetId, p + 1, pageSize).query.offset.value
      == LoadDataQuery(datasetId, p, pageSize).query.offset.value + LoadDataQuery(datasetId, p, pageSize).query.limit.value
  {
    MulStep(p, pageSize);
  }

  /** Two different pages never share a row. */
  lemma PagesDisjoint(datasetId: string, p: nat, q: nat, pageSize: nat)
    requires p < q
    ensures LoadDataQuery(datasetId, p, pageSize).query.offset.value + pageSize
      <= LoadDataQuery(datasetId, q, pageSize).query.offset.value
  {
    MulMonotone(p, q, pageSize);
  }

  /** A payload of one `view` step holding one `aggregate` op. */
  predicate OneAggregate(q: ServerQuery) {
    |q.query.workflow| == 1 && |q.query.workflow[0].ops| == 1 && q.query.workflow[0].ops[0].Aggregate?
  }

  /** `measures.map(m => m.asFieldKey)` */
  function MeasureKeys(ms: seq<Measure>): (r: seq<string>)
    ensures |r| == |ms| && forall i :: 0 <= i < |ms| ==> r[i] == ms[i].asFieldKey
  {
    if |ms| == 0 then [] else [ms[0].asFieldKey] + MeasureKeys(ms[1..])
  }

  /** The columns of the rows an aggregate answers with: the grouping fields, then
      one column per measure. */
  function Columns(q: ServerQuery): seq<string>
    requires OneAggregate(q)
  {
    var op := q.query.workflow[0].ops[0];
    op.groupBy + MeasureKeys(op.measures)
  }

  /** The only column of the row `stat` reads. */
  const CountKey := "count"

  /** The payload of `stat`: the row count of the whole dataset, in column `count`. */
  function StatQuery(datasetId: string): (q: ServerQuery)
    ensures OneAggregate(q) && Columns(q) == [CountKey]
  {
    ServerQuery(datasetId, DataQuery([View([Aggregate([], [Measure("*", Count, CountKey)])])], None, None))
  }

  /** `count_<fid>`, `min_<fid>` and `max_<fid>` */
  function CountId(fid: string): string { "count_" + fid }
  function MinId(fid: string): string { "min_" + fid }
  function MaxId(fid: string): string { "max_" + fid }

  /** The values payload of `statField`: rows grouped by the field, each with its
      count in a column of its own. */
  function ValuesQuery(datasetId: string, fid: string): (q: ServerQuery)
    ensures OneAggregate(q) && Columns(q) == [fid, CountId(fid)] && CountId(fid) != fid
  {
    ServerQuery(datasetId, DataQuery([View([Aggregate([fid], [Measure(fid, Count, CountId(fid))])])], None, None))
  }

  /** The range payload of `statField`: one row with the minimum and the maximum in
      two different columns. */
  function RangeQuery(datasetId: string, fid: string): (q: ServerQuery)
    ensures OneAggregate(q) && Columns(q) == [MinId(fid), MaxId(fid)] && MinId(fid) != MaxId(fid)
  {
    assert MinId(fid)[1] != MaxId(fid)[1];
    ServerQuery(datasetId, DataQuery([View([Aggregate([], [Measure(fid, Min, MinId(fid)), Measure(fid, Max, MaxId(fid))])])], None, None))
  }

  // ---------------------------------------------------------------- statField

  /** `{ values = false, range = false }`: absent flags are false. */
  datatype StatFieldOptions = StatFieldOptions(values: Option<bool>, range: Option<bool>)

  /** One entry of the values list: `{ value: row[fid], count: row[COUNT_ID] }`. */
  datatype ValueCount = ValueCount(value: Value, count: Value)

  /** What `statField` resolves to. */
  datatype FieldStat = FieldStat(values: seq<ValueCount>, range: (Value, Value))

  /** The largest number of values `statField` reports. */
  const MaxValues := 20

  function Entries(rows: seq<Row>, fid: string): (r: seq<ValueCount>)
    ensures |r| == |rows|
    ensures forall i :: 0 <= i < |rows| ==> r[i] == ValueCount(Lookup(rows[i], fid), Lookup(rows[i], CountId(fid)))
  {
    if |rows| == 0 then [] else [ValueCount(Lookup(rows[0], fid), Lookup(rows[0], CountId(fid)))] + Entries(rows[1..], fid)
  }

  /** `.slice(0, 20).map(row => ...)` */
  function TopValues(sorted: seq<Row>, fid: string): (r: seq<ValueCount>)
    ensures |r| == if |sorted| < MaxValues then |sorted| else MaxValues
    ensures forall i :: 0 <= i < |r| ==> r[i] == ValueCount(Lookup(sorted[i], fid), Lookup(sorted[i], CountId(fid)))
  {
    Entries(if |sorted| < MaxValues then sorted else sorted[..MaxValues], fid)
  }

  /** Counts are listed largest first. */
  predicate NonIncreasing(vs: seq<ValueCount>) {
    forall i, j :: 0 <= i < j < |vs| ==> NumberOf(vs[i].count) >= NumberOf(vs[j].count)
  }

  /** The values `statField` reports: at most 20 entries, largest count first, each
      a row of the server's answer, and no row left out has a larger count than the
      last one reported. */
  lemma TopValuesOfSorted(rows: seq<Row>, fid: string)
    ensures var sorted := SortByCount(rows, ByCount(CountId(fid)));
      var r := TopValues(sorted, fid);
      && |r| <= MaxValues
      && NonIncreasing(r)
      && multiset(sorted) == multiset(rows)
      && (forall i :: 0 <= i < |r| ==> r[i].value == Lookup(sorted[i], fid) && r[i].count == Lookup(sorted[i], CountId(fid)))
      && (forall j :: |r| <= j < |sorted| ==> CountOf(sorted[j], CountId(fid)) <= NumberOf(r[|r| - 1].count))
  {
    var sorted := SortByCount(rows, ByCount(CountId(fid)));
    SortByCountSorted(rows, ByCount(CountId(fid)));
    SortByCountPermutes(rows, ByCount(CountId(fid)));
    TopValuesOfSortedRows(sorted, fid);
  }

  /** The first 20 of rows sorted by count are the largest counts, in order. */
  lemma TopValuesOfSortedRows(sorted: seq<Row>, fid: string)
    requires SortedByCount(sorted, ByCount(CountId(fid)))
    ensures var r := TopValues(sorted, fid);
      && NonIncreasing(r)
      && (forall j :: |r| <= j < |sorted| ==> CountOf(sorted[j], CountId(fid)) <= NumberOf(r[|r| - 1].count))
  {
    var count := ByCount(CountId(fid));
    var r := TopValues(sorted, fid);
    forall i, j | 0 <= i < j < |r| ensures NumberOf(r[i].count) >= NumberOf(r[j].count) {
      assert count(sorted[i]) >= count(sorted[j]);
    }
    forall j | |r| <= j < |sorted| ensures CountOf(sorted[j], CountId(fid)) <= NumberOf(r[|r| - 1].count) {
      assert count(sorted[|r| - 1]) >= count(sorted[j]);
    }
  }

  /** The requests `statField` sends: the values query when asked for, then the
      range query when asked for, unless the values request already failed. */
  function StatFieldRequests(datasetId: string, fid: string, options: StatFieldOptions, valuesResponse: HttpResponse<seq<Row>>): (r: seq<ServerQuery>)
    ensures |r| <= 2
    ensures ValuesQuery(datasetId, fid) in r <==> options.values.GetOr(false)
    ensures RangeQuery(datasetId, fid) in r ==> options.range.GetOr(false)
  {
    var values := options.values.GetOr(false);
    var range := options.range.GetOr(false);
    assert ValuesQuery(datasetId, fid) != RangeQuery(datasetId, fid) by {
      assert ValuesQuery(datasetId, fid).query.workflow[0].ops[0].groupBy
        != RangeQuery(datasetId, fid).query.workflow[0].ops[0].groupBy;
    }
    (if values then [ValuesQuery(datasetId, fid)] else [])
    + (if range && !(values && Decode(valuesResponse).Failure?) then [RangeQuery(datasetId, fid)] else [])
  }

  /** What `statField` resolves to, given the answers to its two requests. */
  function StatFieldOf(fid: string, options: StatFieldOptions, valuesResponse: HttpResponse<seq<Row>>, rangeResponse: HttpResponse<seq<Row>>): (r: Result<FieldStat, RequestError>)
    ensures r.Success? && !options.values.GetOr(false) ==> r.value.values == []
    ensures r.Success? && !options.range.GetOr(false) ==> r.value.range == (Num(0), Num(0))
    ensures r.Success? ==> |r.value.values| <= MaxValues
    ensures options.values.GetOr(false) && Decode(valuesResponse).Failure? ==> r == Failure(Decode(valuesResponse).error)
    ensures var valuesOk := !options.values.GetOr(false) || Decode(valuesResponse).Success?;
      var range := Decode(rangeResponse);
      && (valuesOk && !options.range.GetOr(false) ==> r.Success?)
      && (valuesOk && options.range.GetOr(false) && range.Failure? ==> r == Failure(range.error))
      && (valuesOk && options.range.GetOr(false) && range.Success? && |range.value| == 0 ==> r == Failure(MissingRow))
      && (valuesOk && options.range.GetOr(false) && range.Success? && |range.value| > 0 ==>
            r.Success? && r.value.range == (Lookup(range.value[0], MinId(fid)), Lookup(range.value[0], MaxId(fid))))
  {
    var values := options.values.GetOr(false);
    var range := options.range.GetOr(false);
    var valuesRes := if values then Decode(valuesResponse) else Success([]);
    if valuesRes.Failure? then Failure(valuesRes.error)
    else
      var rangeRes := if range then Decode(rangeResponse) else Success([map[MinId(fid) := Num(0), MaxId(fid) := Num(0)]]);
      if rangeRes.Failure? then Failure(rangeRes.error)
      else if |rangeRes.value| == 0 then Failure(MissingRow)
      else
        var rangeRow := rangeRes.value[0];
        Success(FieldStat(
          TopValues(SortByCount(valuesRes.value, ByCount(CountId(fid))), fid),
          (Lookup(rangeRow, MinId(fid)), Lookup(rangeRow, MaxId(fid)))))
  }

  /** Every reported entry stands for one of the server's rows. */
  lemma TopValuesFromRows(rows: seq<Row>, fid: string)
    ensures var r := TopValues(SortByCount(rows, ByCount(CountId(fid))), fid);
      forall i :: 0 <= i < |r| ==> r[i] in Entries(rows, fid)
  {
    var sorted := SortByCount(rows, ByCount(CountId(fid)));
    var r := TopValues(sorted, fid);
    SortByCountPermutes(rows, ByCount(CountId(fid)));
    forall i | 0 <= i < |r| ensures r[i] in Entries(rows, fid) {
      assert sorted[i] in multiset(rows);
      var m :| 0 <= m < |rows| && rows[m] == sorted[i];
      assert Entries(rows, fid)[m] == r[i];
    }
  }

  /** The reported values are listed largest count first and each stands for one of
      the rows the server answered the values query with. */
  lemma StatFieldValues(fid: string, options: StatFieldOptions, valuesResponse: HttpResponse<seq<Row>>, rangeResponse: HttpResponse<seq<Row>>)
    ensures var r := StatFieldOf(fid, options, valuesResponse, rangeResponse);
      r.Success? ==> (NonIncreasing(r.value.values)
        && (options.values.GetOr(false) ==> (Decode(valuesResponse).Success?
          && forall i :: 0 <= i < |r.value.values| ==> r.value.values[i] in Entries(Decode(valuesResponse).value, fid))))
  {
    var r := StatFieldOf(fid, options, valuesResponse, rangeResponse);
    if r.Success? {
      var rows := if options.values.GetOr(false) then Decode(valuesResponse).value else [];
      assert r.value.values == TopValues(SortByCount(rows, ByCount(CountId(fid))), fid);
      TopValuesOfSorted(rows, fid);
      TopValuesFromRows(rows, fid);
    }
  }

  /** With no options `statField` sends nothing and reports nothing. */
  lemma StatFieldDefaults(datasetId: string, fid: string, valuesResponse: HttpResponse<seq<Row>>, rangeResponse: HttpResponse<seq<Row>>)
    ensures StatFieldRequests(datasetId, fid, StatFieldOptions(None, None), valuesResponse) == []
    ensures StatFieldOf(fid, StatFieldOptions(None, None), valuesResponse, rangeResponse) == Success(FieldStat([], (Num(0), Num(0))))
  {
    var empty: seq<Row> := [];
    assert SortByCount(empty, ByCount(CountId(fid))) == [];
    assert TopValues(empty, fid) == [];
  }

  // ---------------------------------------------------------------- the loader

  /** The two kinds of request the loader makes. */
  datatype Request =
    | FetchDataset(datasetId: string)  // GET /api/ce/dataset/v2/<datasetId>
    | FetchDataView(payload: ServerQuery) // POST /api/ce/dataset/v2/query

  class KanariesServerDataLoader {
    const server: string
    const datasetId: string
    /** The stored dataset record. */
    var dataset: Dataset
    /** One entry per `'init'` sent on the change signal: the dataset a subscriber
        reading the loader at that moment sees. */
    var initSignals: seq<Dataset>
    /** Every request made, in order. */
    var sent: seq<Request>

    constructor(server: string, datasetId: string)
      ensures this.server == server && this.datasetId == datasetId
      ensures dataset == EmptyDataset && initSignals == [] && sent == []
    {
      this.server := server;
      this.datasetId := datasetId;
      dataset := EmptyDataset;
      initSignals := [];
      sent := [];
    }

    /** `init`: fetch the metadata, store its partition, then signal `'init'`. A
        failed fetch leaves the record as it was and signals nothing. */
    method Init(response: HttpResponse<DatasetMeta>) returns (r: Outcome<RequestError>)
      modifies this
      ensures sent == old(sent) + [FetchDataset(datasetId)]
      ensures r.Pass? <==> Decode(response).Success?
      ensures r.Pass? ==> dataset == Partition(response.body.data) && initSignals == old(initSignals) + [dataset]
      ensures r.Fail? ==> r.error == Decode(response).error && dataset == old(dataset) && initSignals == old(initSignals)
    {
      sent := sent + [FetchDataset(datasetId)];
      var meta := Decode(response);
      if meta.Failure? {
        return Fail(meta.error);
      }
      dataset := Partition(meta.value);
      initSignals := initSignals + [dataset];
      r := Pass;
    }

    /** `syncMeta`: the loader is read-only, so this does nothing. */
    method SyncMeta(meta: DatasetMeta)
      ensures dataset == old(dataset) && sent == old(sent) && initSignals == old(initSignals)
    {
    }

    /** `syncData`: the loader is read-only, so this does nothing. */
    method SyncData(rows: seq<Row>)
      ensures dataset == old(dataset) && sent == old(sent) && initSignals == old(initSignals)
    {
    }

    /** `loadMeta` */
    method LoadMeta() returns (r: VisDataset)
      ensures r == MetaOf(dataset)
    {
      r := MetaOf(dataset);
    }

    /** `loadData`: one page of raw rows. */
    method LoadData(pageIndex: nat, pageSize: nat, response: HttpResponse<seq<Row>>) returns (r: Result<seq<Row>, RequestError>)
      modifies this
      ensures sent == old(sent) + [FetchDataView(LoadDataQuery(dataset.meta.id, pageIndex, pageSize))]
      ensures r == Decode(response)
      ensures dataset == old(dataset) && initSignals == old(initSignals)
    {
      sent := sent + [FetchDataView(LoadDataQuery(dataset.meta.id, pageIndex, pageSize))];
      r := Decode(response);
    }

    /** `stat`: the `count` column of the first row of the answer. */
    method Stat(response: HttpResponse<seq<Row>>) returns (r: Result<Value, RequestError>)
      modifies this
      ensures sent == old(sent) + [FetchDataView(StatQuery(dataset.meta.id))]
      ensures Decode(response).Failure? ==> r == Failure(Decode(response).error)
      ensures Decode(response).Success? ==>
        r == if |Decode(response).value| == 0 then Failure(MissingRow) else Success(Lookup(Decode(response).value[0], CountKey))
      ensures dataset == old(dataset) && initSignals == old(initSignals)
    {
      sent := sent + [FetchDataView(StatQuery(dataset.meta.id))];
      var rows := Decode(response);
      if rows.Failure? {
        return Failure(rows.error);
      }
      if |rows.value| == 0 {
        return Failure(MissingRow);
      }
      r := Success(Lookup(rows.value[0], CountKey));
    }

    /** `query`: the caller's payload, sent for the stored dataset. */
    method Query(payload: DataQuery, response: HttpResponse<seq<Row>>) returns (r: Result<seq<Row>, RequestError>)
      modifies this
      ensures sent == old(sent) + [FetchDataView(ServerQuery(dataset.meta.id, payload))]
      ensures r == Decode(response)
      ensures dataset == old(dataset) && initSignals == old(initSignals)
    {
      sent := sent + [FetchDataView(ServerQuery(dataset.meta.id, payload))];
      r := Decode(response);
    }

    /** `statField`: the most frequent values of a field and its range. The answer
        rows are sorted in place before the top 20 are taken. */
    method StatField(fid: string, options: StatFieldOptions, valuesResponse: HttpResponse<seq<Row>>, rangeResponse: HttpResponse<seq<Row>>)
      returns (r: Result<FieldStat, RequestError>)
      modifies this
      ensures sent == old(sent) + Fetches(StatFieldRequests(dataset.meta.id, fid, options, valuesResponse))
      ensures r == StatFieldOf(fid, options, valuesResponse, rangeResponse)
      ensures dataset == old(dataset) && initSignals == old(initSignals)
    {
      var id := dataset.meta.id;
      var values := options.values.GetOr(false);
      var range := options.range.GetOr(false);
      var valuesRows: seq<Row> := [];
      if values {
        sent := sent + [FetchDataView(ValuesQuery(id, fid))];
        var res := Decode(valuesResponse);
        if res.Failure? {
          return Failure(res.error);
        }
        valuesRows := res.value;
      }
      var rangeRow: Row := map[MinId(fid) := Num(0), MaxId(fid) := Num(0)];
      if range {
        sent := sent + [FetchDataView(RangeQuery(id, fid))];
        var res := Decode(rangeResponse);
        if res.Failure? {
          return Failure(res.error);
        }
        if |res.value| == 0 {
          return Failure(MissingRow);
        }
        rangeRow := res.value[0];
      }
      var top := SortedTopValues(valuesRows, fid);
      r := Success(FieldStat(top, (Lookup(rangeRow, MinId(fid)), Lookup(rangeRow, MaxId(fid)))));
    }
  }

  /** `valuesRes.sort(...).slice(0, 20).map(...)`: the rows are copied into an
      array that is sorted in place by descending count. */
  method SortedTopValues(rows: seq<Row>, fid: string) returns (vs: seq<ValueCount>)
    ensures vs == TopValues(SortByCount(rows, ByCount(CountId(fid))), fid)
  {
    var a := new Row[|rows|](i requires 0 <= i < |rows| => rows[i]);
    assert a[..] == rows;
    SortByCountInPlace(a, ByCount(CountId(fid)));
    vs := TopValues(a[..], fid);
  }

  /** The queries as POST requests. */
  function Fetches(qs: seq<ServerQuery>): (r: seq<Request>)
    ensures |r| == |qs| && forall i :: 0 <= i < |qs| ==> r[i] == FetchDataView(qs[i])
  {
    if |qs| == 0 then [] else [FetchDataView(qs[0])] + Fetches(qs[1..])
  }
}
