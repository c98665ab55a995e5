# polybridge `fetch_timeseries`, modelled in Dafny

This project models the request-planning and response-merging pipeline of
`PolybridgeClient.fetch_timeseries` in the Python client of the Polybridge
API, together with the `api_key` check of the client's constructor, and
proves what the pipeline promises.

`fetch_timeseries` reads the market catalog, files each catalog entry's
market id under the API interval of its horizon (daily → 5m, weekly → 30m,
monthly → 1h, yearly → 4h), and then handles each interval in turn:

- it sorts and deduplicates the interval's ids;
- it cuts them into chunks of `chunk_size`;
- it POSTs one payload per chunk;
- it merges the chunk responses block by block with `_merge_responses`;
- it stores the merged response under the interval;
- it converts the object blocks into tables, each named after its block,
  with `_interval` appended when more than one interval was fetched.

Modules, one file each:

| module | file | what |
|---|---|---|
| `Types` | types.dfy | JSON values and documents, catalog entries, options, payloads, the result record, errors |
| `Horizons` | horizons.dfy | the horizon → interval map |
| `Chunking` | chunking.dfy | `_chunk` |
| `Ordering` | ordering.dfy | Python's string order and `sorted(set(ids))` |
| `Grouping` | grouping.dfy | the grouping loop that builds `markets_by_interval` |
| `Planning` | planning.dfy | the payloads of one interval |
| `Merging` | merging.dfy | `_merge_responses` and its fold over the chunk responses |
| `Frames` | frames.dfy | `_response_to_frames` and the table-naming rule |
| `Client` | client.dfy | the constructor check and `fetch_timeseries` itself, as a specification function and as a method with loops |
| `FetchProperties` | fetch_properties.dfy | what a whole fetch sends and returns |
| `FetchFailures` | fetch_failures.dfy | where a failed fetch stops, and what it sent before stopping |

Each loop of the source is a Dafny `method` whose loop is proved against a
specification function: `Chunk`, `GroupByInterval`, `MergeResponses`,
`ResponseToFrames`, `SendChunks` and `StoreTables` (the chunk loop and the
naming loop of one interval) and `FetchTimeseries`. The lemmas are proved about those
functions.

Two things the source does by I/O are inputs to the model:

- The POST of each payload is the parameter `post`. It maps a payload to the
  decoded response, or to the failure the POST raises.
- The catalog request is the parameter `catalogReply`. It holds the
  `markets` list of the catalog response, or the failure of that request.

A fetch yields a `Fetched` value. It pairs the outcome (the
`TimeseriesResult`, or the error that was raised) with the payloads that
were sent, in order.

Behaviour as the code has it:

- The ids of an interval are sent sorted and deduplicated
  (`sorted(set(market_ids))`, polybridge/client.py:288), not in catalog
  order.
- A `chunk_size` of 0 makes `range()` raise, so the fetch fails before any
  payload is sent, as soon as the catalog keeps some id. A catalog that keeps
  no id never reaches `_chunk`, and the fetch succeeds.
- A negative `chunk_size` makes `range()` empty. The fetch then succeeds
  with no payload sent, an empty response for every interval and no table.
- `options_metrics` is requested only for the interval "1d", which no
  horizon maps to. `fetch_timeseries` therefore never requests it.
- Open interest is not a block of its own. It is a flag in the `prices`
  sub-object of the payload.
- The keyword defaults (polybridge/client.py:210-216) are the constant
  `DefaultOptions`. A call that passes only the asset and the horizons asks
  for the blocks `["probabilities", "prices"]`, spot prices with open
  interest, and at most ten markets per payload.

## Model

| member | source | states |
|---|---|---|
| Horizons.IntervalOf | polybridge/client.py:20-25 | a horizon has an interval exactly when it is daily, weekly, monthly or yearly, and that interval is one of 5m, 30m, 1h, 4h |
| Horizons.IntervalOfInjective | polybridge/client.py:20-25 | two horizons with the same interval are the same horizon |
| Horizons.NoMappedIntervalIsDaily | polybridge/client.py:20-25 | no horizon maps to "1d" |
| Horizons.MappedIntervalHasNoUnderscore | polybridge/client.py:20-25 | no interval of the map contains '_' |
| Chunking.ChunksOf | polybridge/client.py:152-155 | for a positive size: no chunks exactly for an empty sequence; every chunk is non-empty and at most size long; every chunk but the last is exactly size long |
| Chunking.ChunkSpec | polybridge/client.py:152-155 | `_chunk` fails exactly when size is 0 and yields no chunk for a negative size |
| Chunking.Chunk | polybridge/client.py:152-155 | the generator loop yields exactly the chunks of ChunkSpec |
| Chunking.ChunksConcat | polybridge/client.py:152-155 | the chunks concatenated in order give back the sequence |
| Chunking.ChunkCount | polybridge/client.py:152-155 | there are ceil(n / size) chunks |
| Chunking.ChunkExample | tests/test_client.py:68-72 | five ids in chunks of two give [a, b], [c, d], [e] |
| Ordering.BelowIrreflexive | polybridge/client.py:288 | no string is below itself in Python's string order |
| Ordering.BelowTransitive | polybridge/client.py:288 | Python's string order is transitive |
| Ordering.BelowTotal | polybridge/client.py:288 | any two different strings are ordered one way or the other |
| Ordering.Insert | polybridge/client.py:288 | inserting into a strictly ascending sequence keeps it strictly ascending and adds exactly the inserted id |
| Ordering.SortedUnique | polybridge/client.py:288 | `sorted(set(ids))` is strictly ascending and holds exactly the ids |
| Ordering.StrictlySortedCount | polybridge/client.py:288 | a strictly ascending sequence holds each of its ids once |
| Ordering.StrictlySortedUnique | polybridge/client.py:288 | two strictly ascending sequences with the same ids are equal, so SortedUnique is the one sorted, duplicate-free order |
| Grouping.EntryInterval | polybridge/client.py:276-282 | an entry is filed exactly when its horizon and market id are present and non-empty and its horizon is mapped, and it is filed under its horizon's interval |
| Grouping.KeptIds | polybridge/client.py:276-282 | an id is kept under an interval exactly when some catalog entry with that id is filed under that interval |
| Grouping.AddToGroup | polybridge/client.py:282 | `append` adds the id at the end of its own interval's ids and changes no other interval's ids |
| Grouping.AddToGroupIntervals | polybridge/client.py:282 | an append adds its interval to the keys and never creates a second group for an interval |
| Grouping.GroupSpec | polybridge/client.py:274-282 | the grouping loop as a function over the catalog; its properties are stated by GroupSpecInvariant, GroupingPartitions and GroupOrder |
| Grouping.FirstFiled | polybridge/client.py:276-282 | the position of the first catalog entry filed under an interval: no earlier entry is filed under it, and the position is the catalog's length when none is |
| Grouping.AddToGroupOrder | polybridge/client.py:282 | an append to an interval that has a group keeps the order of the intervals; one to a new interval opens its group at the end |
| Grouping.GroupOrderMembers | polybridge/client.py:274-282 | an interval has a group exactly when some catalog entry is filed under it |
| Grouping.GroupOrder | polybridge/client.py:274-287 | the groups, and so the intervals the fetch visits, come in the order in which the catalog first files an entry under each interval |
| Grouping.GroupOrderExample | polybridge/client.py:274-282 | weekly a, daily b, weekly c give the group 30m [a, c] before the group 5m [b] |
| Grouping.GroupByInterval | polybridge/client.py:274-282 | the grouping loop builds exactly GroupSpec of the catalog |
| Grouping.GroupSpecInvariant | polybridge/client.py:274-282 | the loop keeps the intervals distinct and no group empty, and each interval's ids are its kept ids in catalog order |
| Grouping.GroupingPartitions | polybridge/client.py:274-282 | no interval has two groups; each group holds exactly its interval's kept ids in catalog order; an interval has a group exactly when some id is kept under it |
| Planning.RequestedBlocks | polybridge/client.py:303-314 | "probabilities" is in the blocks iff asked for, "prices" iff asked for, "options_metrics" iff asked for and the interval is "1d"; only known blocks, in that order |
| Planning.OptionsMetricsNeverRequested | polybridge/client.py:313-314 | no mapped interval ever puts "options_metrics" into a payload |
| Planning.DefaultPlan | polybridge/client.py:202-216 | with every keyword left at its default, an interval's distinct ids are each sent once, ascending, at most ten per payload, and every payload asks for probabilities and spot prices with open interest |
| Planning.PayloadFor | polybridge/client.py:295-311 | the payload carries the chunk, the interval, the window's two timestamps and the interval's requested blocks; its `prices` sub-object is present iff prices are asked for, and then holds the instrument and the open-interest flag |
| Planning.GroupPayloads | polybridge/client.py:287-314 | the payloads of one interval, one per chunk of its sorted distinct ids; its properties are stated by GroupPlan, GroupPlanCount, GroupPlanShape and GroupPlanBadChunkSize |
| Planning.GroupPlan | polybridge/client.py:287-314 | for a positive chunk size, an interval's payloads send every distinct id exactly once, in ascending order, in ceil(n / chunk_size) payloads of 1 to chunk_size ids, all with this interval and the same blocks |
| Planning.GroupPlanCount | polybridge/client.py:287-294 | for a positive chunk size, an interval with n distinct ids gets ceil(n / chunk_size) payloads |
| Planning.GroupPlanShape | polybridge/client.py:294-314 | for a positive chunk size, every payload of an interval carries that interval and the same blocks, and 1 to chunk_size ids |
| Planning.GroupPlanBadChunkSize | polybridge/client.py:294 | a zero chunk size fails with ZeroChunkSize and a negative one plans no payload |
| Merging.MergeBlock | polybridge/client.py:434-444 | merging one block succeeds exactly when the block is mergeable. A new block gets the source's columns and rows; an existing block gets the source rows appended and keeps its columns; a block the source lacks leaves the destination as it was; every other key is unchanged |
| Merging.MergeBlocks | polybridge/client.py:434-444 | the loop over the known blocks as a function; its properties are stated by MergeBlocksOk, MergeBlocksRows, MergeBlocksValues and MergeBlocksFrame |
| Merging.MergeBlocksOk | polybridge/client.py:434-444 | the loop over distinct blocks succeeds exactly when every block is mergeable |
| Merging.MergeBlocksRows | polybridge/client.py:434-444 | after the loop, each block's rows are the destination's rows followed by the source's |
| Merging.MergeBlocksValues | polybridge/client.py:434-444 | after the loop, a block new to the destination holds the source's columns (or none) and rows and nothing else; a block already there keeps its columns and other members |
| Merging.MergeBlocksFrame | polybridge/client.py:434-444 | the loop adds exactly the source's blocks, and leaves every other key, and every block the source lacks, as it was |
| Merging.Merge | polybridge/client.py:427-432 | merging into an empty destination returns the source itself |
| Merging.MergeOk | polybridge/client.py:431-444 | a merge raises exactly when the destination is non-empty and some known block of the source cannot be merged |
| Merging.MergeRows | polybridge/client.py:434-447 | after a merge each known block's rows are the destination's followed by the source's, and `meta` is the destination's if it had one, else the source's |
| Merging.MergeFrame | polybridge/client.py:434-447 | a merge into a non-empty destination keeps its other keys and the known blocks the source lacks as they were, and adds only the source's known blocks and `meta` |
| Merging.MergeBlockShape | polybridge/client.py:434-447 | after a merge into a non-empty destination, a known block of the source that was new holds the source's columns and rows; one that was there keeps its columns and other members |
| Merging.MergeResponses | polybridge/client.py:427-449 | the in-place loop computes Merge |
| Merging.FoldMerge | polybridge/client.py:292-319 | the merge folded over an interval's chunk responses, from the empty accumulator; its properties are stated by FoldMergeRows, FoldMergeMeta and FoldMergeProperties |
| Merging.FoldMergeRows | polybridge/client.py:292-317 | folding the merge over chunk responses gives a known block the accumulator's rows followed by every response's rows of that block, in chunk order |
| Merging.FoldMergeMeta | polybridge/client.py:292-317 | folding the merge over chunk responses keeps the accumulator's `meta`, or else the first `meta` among the responses |
| Merging.FoldMergeProperties | polybridge/client.py:292-317 | both of the above, for every known block at once |
| Merging.ConcatRowsCount | polybridge/client.py:292-317 | the merged row count of a block is the sum of the per-chunk counts |
| Frames.Tables | polybridge/client.py:452-459 | a response yields a table for exactly the known blocks that are objects, holding the block's rows |
| Frames.ResponseToFrames | polybridge/client.py:452-459 | the conversion loop builds exactly Tables |
| Frames.TableKey | polybridge/client.py:322 | a table's name starts with its block's name, and is the bare block name exactly when there is one interval group |
| Frames.SuffixSplit | polybridge/client.py:322 | a name `x_y` with no '_' in `y` determines `x` and `y` |
| Frames.TableKeysDistinct | polybridge/client.py:321-323 | different (block, interval) pairs of mapped intervals never share a table name; with one group, different blocks never do |
| Client.NewClient | polybridge/client.py:75-76 | a client is refused with MissingApiKey exactly when the key is empty |
| Client.PostChunks | polybridge/client.py:294-317 | the chunk loop of one interval as a function; its properties are stated by PostChunksSent and PostChunksReplies |
| Client.SendChunks | polybridge/client.py:294-317 | the chunk loop of one interval computes PostChunks over the chunks' payloads: the same merged response or error, and the same payloads sent, in order |
| Client.StoreTables | polybridge/client.py:321-323 | the naming loop of one interval computes AddFrames over the known blocks in order |
| Frames.AddFrames | polybridge/client.py:321-323 | the naming loop of one interval as a function; its properties are stated by AddFramesKept, AddFramesStored, AddFramesKeys and AddFramesFacts |
| Client.FetchSpec | polybridge/client.py:255-329 | `fetch_timeseries` as a function; its properties are stated by the FetchProperties lemmas, among them FetchFails, FetchSucceeded, FetchRequests and FetchOrder |
| Client.FetchTimeseries | polybridge/client.py:255-329 | the method's loops compute FetchSpec: the same result and the same payloads sent, in order |
| FetchProperties.PostChunksSent | polybridge/client.py:294-317 | the chunk loop sends a prefix of its payloads in order, at least one when it fails, and all of them on success; which payload ends a failed loop is stated by FetchFailures.PostChunksStops |
| FetchFailures.PostChunksStops | polybridge/client.py:294-317 | a failed chunk loop stops at the first payload whose POST or merge raises: every earlier payload was answered and their responses merge, the failing payload is the last one sent, and the loop's error is the one its POST or its merge raised |
| FetchFailures.FetchGroupStops | polybridge/client.py:287-317 | a failed turn for one interval sends that interval's payloads up to the first one whose POST or merge raises, and fails with that error |
| FetchFailures.FetchGroupsStops | polybridge/client.py:287-323 | a failed loop over intervals stops in the first interval whose chunk loop fails: every interval before it was answered in full, and the payloads sent are their whole plans followed by the failing interval's payloads up to the one that raised |
| FetchFailures.FetchStops | polybridge/client.py:255-329 | with a non-zero chunk size, a failed fetch sends the full plan of the intervals before the failing one, then the failing interval's payloads up to the first one whose POST or merge raised, and returns that error |
| FetchProperties.PostChunksReplies | polybridge/client.py:294-317 | the chunk loop succeeds exactly when every payload is answered and the responses merge, and it then returns the merge folded over the responses |
| FetchProperties.FetchGroupsSent | polybridge/client.py:287-323 | the loop over intervals sends a prefix of the plan, and the whole plan on success |
| FetchProperties.FetchRequests | polybridge/client.py:255-329 | with a non-zero chunk size, a fetch sends a prefix of the plan of its intervals in order, and the whole plan when it succeeds |
| FetchProperties.PlanFollowsCatalog | polybridge/client.py:287-317 | when the groups follow the catalog's first-filed order, so do the payloads of their plan |
| FetchProperties.FetchOrder | polybridge/client.py:274-317 | a fetch sends its payloads interval by interval, in the order in which the catalog first files an entry under each interval |
| FetchProperties.PlanForInterval | polybridge/client.py:287-317 | the plan's payloads for one interval are exactly those of that interval's group, and none when it has no group |
| FetchProperties.IntervalRequests | polybridge/client.py:274-314 | for a positive chunk size, an interval's payloads request each of its kept ids exactly once, ascending, in ceil(n / chunk_size) payloads of 1 to chunk_size ids, all with that interval's blocks |
| FetchProperties.FetchGroupOk | polybridge/client.py:287-323 | one turn of the loop over intervals, for a group with ids, succeeds exactly when all its payloads are answered and their responses merge |
| FetchProperties.FetchGroupsOk | polybridge/client.py:287-323 | the loop over intervals succeeds exactly when every group is answered in full and its responses merge |
| FetchProperties.CollectAllOk | polybridge/client.py:274-323 | for a non-zero chunk size, the loop over a catalog's groups succeeds exactly when every interval that kept an id is answered in full and its responses merge |
| FetchProperties.AddFramesKept | polybridge/client.py:321-323 | the naming loop leaves a name that is no visited block's key exactly as it was, present or absent |
| FetchProperties.AddFramesStored | polybridge/client.py:321-323 | after the naming loop a visited block's key is present exactly when it was before or the block has a table, and then holds that table |
| FetchProperties.AddFramesKeys | polybridge/client.py:321-323 | the naming loop adds no name other than the keys of the blocks it visits |
| FetchProperties.AddFramesFacts | polybridge/client.py:321-323 | the naming loop stores each table under its name and leaves every other name as it was |
| FetchProperties.FetchGroupsIntervals | polybridge/client.py:287-319 | on success the loop over intervals adds exactly the groups' intervals to the responses and leaves every other interval's response as it was |
| FetchProperties.FetchGroupsAnswered | polybridge/client.py:287-319 | on success every group's payloads were all answered and merged, and its interval holds the merged response |
| FetchProperties.FetchGroupsResponses | polybridge/client.py:287-319 | on success each interval's merged response is stored under that interval, and earlier entries are untouched |
| FetchProperties.FetchGroupsTables | polybridge/client.py:287-323 | on success every object block of every interval is stored as a table under its own name, no name is written twice and no other name appears |
| FetchProperties.GroupSpecWellFormed | polybridge/client.py:274-282 | the groups of a catalog have distinct intervals, none containing '_', and every group holds at least one id |
| FetchProperties.FetchSucceeded | polybridge/client.py:274-329 | a successful fetch returns the catalog; a response for exactly the intervals that kept an id, each the merge folded over that interval's chunk responses; and a table, under its name, for exactly the object blocks of those responses, holding the block's rows |
| FetchProperties.FetchedRows | polybridge/client.py:292-323 | an interval's merged block, and its table, hold that block's rows across the chunk responses in chunk order, as many as their sum, with the first `meta` |
| FetchProperties.FetchFails | polybridge/client.py:255-329 | a fetch fails exactly when there are no horizons, the catalog request fails, the chunk size is 0 and some id is kept, or the chunk size is not 0 and some interval that kept an id is not answered in full or its responses do not merge |
| FetchProperties.FetchShortCircuits | polybridge/client.py:255-272 | no horizons raises before any request; a failed catalog request fails the fetch; an empty catalog returns an empty result; in each case no payload is sent |
| FetchProperties.NothingKept | polybridge/client.py:274-329 | a catalog that keeps no id sends nothing and returns the catalog with no responses and no tables |
| FetchProperties.ZeroChunkSizeRejected | polybridge/client.py:287-294 | a zero chunk size fails the fetch with ZeroChunkSize before any payload is sent, as soon as some id is kept |
| FetchProperties.NegativeChunkSizeSendsNothing | polybridge/client.py:287-323 | a negative chunk size sends nothing, yet succeeds with an empty response for each interval that kept an id and no table |

## Left out

- `_post` (polybridge/client.py:91-129) is the parameter `post`: the HTTP request, `raise_for_status`, JSON decoding and the wording of its error message are not modelled. Its failure is the opaque `RequestFailed` error.
- `fetch_market_catalog` (polybridge/client.py:160-200) is the parameter `catalogReply`: the catalog payload and the `.get("markets", [])` are not modelled.
- The session, headers and `base_url` of the constructor (polybridge/client.py:78-86) are transport configuration and are not modelled.
- `_to_iso`, `_ensure_datetime` and the default window `now - hours` (polybridge/client.py:132-149, 258-261) involve the clock, time zones and float hours. The window reaches the model as two already formatted timestamps.
- `fetch_up_or_down_options_timeseries` and `fetch_above_options_timeseries` only pack a payload and POST it, and are not modelled.
- pandas: a table is its sequence of rows. Column inference and the empty `pd.DataFrame()` are not modelled.
- `_merge_responses` mutates its destination in place. The first chunk response is returned as it is (polybridge/client.py:431-432) and becomes the accumulator, so later merges extend that response object, which is finally stored as the interval's response (polybridge/client.py:319). The model computes the same values without aliasing. The aliasing is unobservable because `_post` decodes a fresh object for every call (polybridge/client.py:120), so nothing else holds that response.
- JSON is modelled coarsely. A block is an object, with optional `columns` and `rows` lists and other members, or a non-object. What Python does with a `columns` or `rows` of another JSON type is not modelled. A non-list `columns` is stored as it is (polybridge/client.py:440). A `rows: null` in a later chunk's block raises in the merge, through `list(None)` or `extend(None)` (polybridge/client.py:441, 444). A `rows: null` in the first chunk's block raises only when a later chunk response carries the same block (polybridge/client.py:444). Otherwise that block is skipped (polybridge/client.py:435-436), the null reaches `_response_to_frames`, and it yields an empty table (polybridge/client.py:457-458). A string or object `rows` is turned by `list()` into its characters or keys.
- A response body that is not a JSON object is not modelled. `_post` hands back a list or a string body as it is (polybridge/client.py:120-129), and the merge then works on it. The parameter `post` always yields a `Document`, which is a JSON object.
- A catalog entry that is not a JSON object is not modelled. `entry.get` raises AttributeError on it (polybridge/client.py:276), and the fetch fails. A `CatalogEntry` is always an object.
- A `horizon` or `market_id` that is present but not a string is not modelled. The model takes both as optional strings.
- Python dictionaries keep insertion order. The model keeps the order of `markets_by_interval` as a sequence of groups, but treats the `responses` and `dataframes` dictionaries as maps without order.
- FetchProperties.FetchRequests, FetchProperties.FetchSucceeded and FetchProperties.FetchedRows require a non-zero chunk size. A zero chunk size is covered by FetchProperties.ZeroChunkSizeRejected instead.
