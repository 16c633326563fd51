/** The data the remote loader exchanges with its server: rows of JSON values, the
    metadata of a dataset's fields and the workflow query payload. */
module Workflow {
  import opened Wrappers

  /** A JSON value as it arrives in a row, plus `undefined` for a missing property.
      Numbers are integers here. */
  datatype Value =
    | Undefined
    | Null
    | Bool(b: bool)
    | Num(n: int)
    | Str(s: string)
    | Arr(items: seq<Value>)
    | Obj(entries: seq<(string, Value)>)

  /** `IRow` */
  type Row = map<string, Value>

  /** `row[key]`, which is `undefined` when the row has no such column. */
  function Lookup(row: Row, key: string): Value {
    if key in row then row[key] else Undefined
  }

  /** `ISemanticType` */
  datatype SemanticType = Quantitative | Nominal | Ordinal | Temporal

  /** `IAggregator` */
  datatype Aggregator = Sum | Count | Max | Min | Mean | Median | Variance | Stdev

  /** The part of a field's metadata the loader looks at. */
  datatype Field = Field(key: string, name: string, semanticType: SemanticType)

  /** One aggregate column: `{ field, agg, asFieldKey }`. */
  datatype Measure = Measure(field: string, agg: Aggregator, asFieldKey: string)

  /** One operation of a `view` step. */
  datatype ViewOp =
    | Raw(fields: seq<string>)
    | Aggregate(groupBy: seq<string>, measures: seq<Measure>)

  /** A workflow step; the loader builds only `view` steps. */
  datatype WorkflowStep = View(ops: seq<ViewOp>)

  /** `IDataQueryPayload` */
  datatype DataQuery = DataQuery(workflow: seq<WorkflowStep>, limit: Option<nat>, offset: Option<nat>)

  /** `IServerDataQueryPayload` */
  datatype ServerQuery = ServerQuery(datasetId: string, query: DataQuery)

  /** `IDatasetMeta` */
  datatype DatasetMeta = DatasetMeta(id: string, name: string, fieldsMeta: seq<Field>, totalRows: nat)

  /** What `loadMeta` returns. */
  datatype VisDataset = VisDataset(datasetId: string, dimensions: seq<Field>, measures: seq<Field>)
}
