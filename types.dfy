/** The data model shared by the fetch pipeline: JSON documents as the
    timeseries endpoint returns them, catalog entries, errors and the result
    handed back to the caller (polybridge/types.py). */
module Types {

  datatype Option<+T> = None | Some(value: T)
  {
    function GetOr(default: T): T
    {
      match this
      case Some(v) => v
      case None => default
    }
  }

  /** The ways a fetch can fail. */
  datatype Error =
    | MissingApiKey                 // ValueError("API key is required")
    | NoHorizons                    // ValueError("At least one horizon must be provided")
    | ZeroChunkSize                 // ValueError raised by range() when its step is 0
    | MalformedBlock(block: string) // the TypeError/KeyError/AttributeError of a merge
    | RequestFailed(detail: string) // whatever a POST raises (HTTP error, API error, bad JSON)

  datatype Result<+T> = Ok(value: T) | Err(error: Error)
  {
    predicate IsFailure() { Err? }

    function PropagateFailure<U>(): Result<U>
      requires Err?
    {
      Err(error)
    }

    function Extract(): T
      requires Ok?
    {
      value
    }
  }

  /** One row record of a data block: column name to the JSON text of its value. */
  type Row = map<string, string>

  /** A JSON value as far as the merge and the frame conversion look into it:
      an object, of which only its `columns` and `rows` members are inspected
      (`rest` holds its other members), or any value that is not an object. */
  datatype Value =
    | Object(columns: Option<seq<string>>, rows: Option<seq<Row>>, rest: map<string, string>)
    | NonObject(text: string)

  /** A response document: a JSON object, key to value. */
  type Document = map<string, Value>

  /** A table built from one data block: its sequence of rows. */
  type Table = seq<Row>

  /** The three data blocks the merge and the frame conversion know, in the
      order both visit them. */
  const KnownBlocks: seq<string> := ["probabilities", "prices", "options_metrics"]

  /** One entry of the market catalog. `horizon` and `marketId` are None when
      the key is missing or null; `attributes` holds the entry's other members
      (asset, market type, ...), kept only to be handed back in the result. */
  datatype CatalogEntry = CatalogEntry(
    horizon: Option<string>,
    marketId: Option<string>,
    attributes: map<string, string>)

  /** What fetch_timeseries returns. */
  datatype TimeseriesResult = TimeseriesResult(
    catalog: seq<CatalogEntry>,
    responses: map<string, Document>,
    dataframes: map<string, Table>)

  /** The caller's switches for one fetch_timeseries call (its keyword
      arguments other than the asset, the horizons and the time window). */
  datatype Options = Options(
    includeProbabilities: bool,
    includePrices: bool,
    includeOpenInterest: bool,
    includeOptionsMetrics: bool,
    pricesInstrument: string,
    chunkSize: int)

  /** The defaults of those keyword arguments: probabilities, prices and
      open interest on, options metrics off, spot prices, ten markets per
      request. */
  const DefaultOptions: Options := Options(true, true, true, false, "spot", 10)

  /** The request window as the ISO 8601 strings put in every payload. */
  datatype Window = Window(startTs: string, endTs: string)

  /** The `prices` member of a request payload. */
  datatype PriceOptions = PriceOptions(instrumentType: string, includeOpenInterest: bool)

  /** The body of one timeseries request; `prices` is None when the payload
      has no `prices` member. */
  datatype Payload = Payload(
    markets: seq<string>,
    interval: string,
    startTs: string,
    endTs: string,
    blocks: seq<string>,
    prices: Option<PriceOptions>)

  /** The outcome of a call that issues requests: its result together with
      the payloads it sent, in the order it sent them. */
  datatype Fetched<+T> = Fetched(result: Result<T>, sent: seq<Payload>)
}
