# Track assignments: a Dafny model of the store and the feed normalizers

The system polls the NJT departure board and the LIRR per-station feeds. It
turns every train listed there into a normalized record and hands each batch
of records to a single store object, `TrainState`.

The store keeps two tables:

- `train_route`: one row per train and service day, holding route, origin,
  destination and consist.
- `train_track`: one row per train, stop and service day, holding the
  scheduled time, track, delay (`otp`), cancellation flag, passenger count
  and loading list.

It also keeps an in-memory cache of the latest-scheduled train seen on each
track at the New York terminals.

The model has five modules:

- `Values` (values.dfy) holds the shared values:
  - `Option`: SQL NULL and JavaScript `null`/`undefined` are both `None`;
  - `Result`: a thrown `TypeError` is a `Failure`;
  - `Json`: the value behind a `JSON.stringify` text column;
  - `Coalesce`;
  - `Collect`: a list of steps stopped at the first failure.
- `TrainStore` (train_state.dfy) holds the records and table rows. It has:
  - the route insert-or-ignore;
  - the two `on conflict` clauses of the track upsert, as pure row-merge
    functions (`Resolve`);
  - the occupancy update;
  - the specification of a whole batch (`Apply`, `ApplyAll`);
  - the class `TrainState`, whose method `AddTrack` updates the two tables
    and the cache in place, in a loop over the batch.
- `StoreLaws` (store_laws.dfy) holds what one clause does to a row and what
  a batch does to the tables and the cache.
- `Njt` (njt.dfy) holds `get_run_date` with its 32-bit arithmetic, the
  destination clean-up, and the record built for each board item.
- `Lirr` (lirr.dfy) holds the per-train record of `handle_req`:
  - the loop over the cars;
  - the three-way merge-policy decision;
  - the station handler's loop over the trains;
  - the sum of the per-station counters.

Notable behaviour of the code:

- `train_route` is `on conflict do nothing`, so a route row never changes
  once inserted (src/train_state.js:79-82).
- The occupancy cache is replaced only by a strictly later train, so a tie
  keeps the record already cached (src/train_state.js:119).
- The set lists of both conflict clauses leave `train_time` out, so a track
  row keeps the time it was inserted with (src/train_state.js:85-90, :98-103).
- Whenever a clause fires, `otp` and `canceled` take the incoming value,
  NULL included (src/train_state.js:87-88, :100-101;
  `StoreLaws.OtpClearedAlongsideOtherChange`).
- Every LIRR train in a station's response gets a record, tagged "once" or
  "yes" (src/index.js:104-119).
- A missing field that a builder dereferences throws. This abandons the
  whole NJT board (src/index.js:49, :55, :59) or the whole LIRR station
  (src/index.js:126).
- A LIRR record's loading column always receives a JSON text. In the branch that drops
  the load it is `JSON.stringify(null)`, the text "null", which is not SQL
  NULL (src/index.js:117, :136). Under the overwrite clause that text
  replaces a stored loading list, while the passenger count survives
  (`Lirr.WithoutLoadRecordOverwritesLoading`).
- The store offers only `add_track` and `get_last_train`
  (src/train_state.js:74, :128).

## Model

| member | source | states |
|---|---|---|
| TrainStore.InsertRoute | src/train_state.js:79-82 | insert-or-ignore: the key set gains the record's key, existing rows are unchanged, a new key stores the record's route, origin, destination and consist, and one row is written exactly when the table changes |
| TrainStore.Resolve | src/train_state.js:84-106 | a firing clause never touches `train_time`, really changes the row, and never turns a stored track, passenger count or loading list into NULL |
| TrainStore.PolicyOf | src/train_state.js:96 | the fill-once clause is chosen exactly for the tag "once"; "yes", any other text and a missing tag choose the overwrite clause |
| TrainStore.UpsertTrack | src/train_state.js:84-112 | an absent key is inserted with all the record's fields; other keys are untouched; on conflict `train_time` is kept; one row is written exactly when the table changes |
| TrainStore.UpdateOccupancy | src/train_state.js:117-121 | the cache changes exactly when the record has a truthy track at NY/NYK/NYP and the cached time (0 if none) is strictly smaller, and the new entry for that track is the record itself; every track's cached time is non-decreasing; other tracks are untouched |
| TrainStore.Apply | src/train_state.js:77-123 | one record writes at most two rows, and none exactly when neither table changes |
| TrainStore.ApplyAll | src/train_state.js:77-123 | a batch writes at most two rows per record; the empty batch changes nothing and writes nothing |
| TrainStore.TrainState.AddTrack | src/train_state.js:74-126 | the loop leaves the tables and the cache as `ApplyAll` of the batch does, returns the summed written rows and the summed read counts, and returns [0, 0] with nothing changed for an empty batch |
| TrainStore.TrainState.ApplyRecord | src/train_state.js:79-121 | one pass of the loop body moves the state exactly as `Apply` does |
| TrainStore.TrainState.GetLastTrain | src/train_state.js:128-130 | returns the occupancy cache |
| TrainStore.TrainState.constructor | src/train_state.js:4-71 | the store opens over the given tables and an initial cache; hydration is not modelled (see Left out) |
| StoreLaws.CoalesceLaw | src/train_state.js:85-95 | the overwrite clause fires exactly when some incoming non-NULL field differs from the stored one; then track, passengers and loading list are the incoming value unless NULL, `otp` and `canceled` are the incoming value, `train_time` is kept |
| StoreLaws.FillOnceLaw | src/train_state.js:97-106 | the fill-once clause fires exactly when a stored track, passenger count or loading list is NULL and the incoming one is not; a stored non-NULL value of those three is kept |
| StoreLaws.OtpClearedAlongsideOtherChange | src/train_state.js:84-106 | under either clause, whatever field makes it fire, a record without a delay erases the stored delay and sets `canceled` to the incoming value |
| StoreLaws.OtpClearedByTrackOrCount | src/train_state.js:84-106 | a record without a delay that brings a new track (overwrite clause) or fills a missing passenger count (fill-once clause) fires the clause and erases the stored delay |
| StoreLaws.ResolveIdempotent | src/train_state.js:84-106 | re-applying the incoming row to the result of a clause never fires the clause again |
| StoreLaws.ApplyIdempotent | src/train_state.js:79-121 | applying the same record twice in a row: the second application writes nothing and changes neither table nor the cache |
| StoreLaws.RoutesNeverChange | src/train_state.js:78-82 | every route row present before a batch is present and unchanged after it |
| StoreLaws.RouteFirstSightingWins | src/train_state.js:77-82 | a route key absent before a batch is present after it exactly when some record has it, and then holds the fields of the first such record |
| StoreLaws.TrackTrainTimeFixed | src/train_state.js:84-112 | track rows are never removed and their `train_time` never changes across a batch |
| StoreLaws.TrackFieldsNeverErased | src/train_state.js:84-106 | across a batch, a stored non-NULL track, passenger count or loading list stays non-NULL under either clause |
| StoreLaws.FillOnceFrozen | src/train_state.js:96-106 | when every record of a batch aimed at a row is tagged "once", the row's non-NULL track, passenger count and loading list keep their values |
| StoreLaws.OccupancyMonotone | src/train_state.js:117-121 | across a batch, each track's cached time never decreases |
| StoreLaws.OccupancyHoldsLatest | src/train_state.js:117-121 | after a batch, each track's cached time is at least that of every occupying record of the batch on that track |
| StoreLaws.OccupancyFromBatch | src/train_state.js:117-121 | every cached entry after a batch is the entry cached before or an occupying record of the batch on that very track |
| StoreLaws.OccupancyStaysWellFormed | src/train_state.js:117-121 | a cache whose entries all occupy their own track stays so after any batch; the cache hydrated at start-up meets this only when hydration finds no terminal row (see Left out) |
| Njt.ToInt32 | src/index.js:14-15 | JavaScript's ToInt32 lies in the signed 32-bit range, is congruent to `x` modulo 2^32, and is `x` itself inside the range |
| Njt.TruncDiv | src/index.js:15 | the quotient rounds toward zero |
| Njt.RunDate | src/index.js:13-17 | the service day is a multiple of 86400; from 1970-01-01T08:00Z until the 32-bit range ends (2038-01-19T11:14:08Z) it is the start of the day containing `t - 28800`; from 1901-12-14T04:45:52Z until 1970-01-01T08:00Z the quotient rounds up |
| Njt.RunDateWraps | src/index.js:14-16 | from 2038-01-19T11:14:08Z until 2106-02-06T14:28:16Z the 32-bit arithmetic wraps: the service day is negative and equals the one computed 2^32 seconds earlier |
| Njt.RunDateWrapsIn2038 | src/index.js:14-16 | at 2038-01-19T11:14:08Z the service day comes out as -2147472000, the day starting 1901-12-14T00:00Z |
| Njt.RunDateWrapsBefore1901 | src/index.js:14-16 | one second before 1901-12-14T04:45:52Z the arithmetic wraps the other way and the service day comes out as 2147472000, the day starting 2038-01-19T00:00Z |
| Njt.StripMarkers | src/index.js:55 | removing markers never lengthens the text |
| Njt.StripCleanPrefix | src/index.js:55 | text in front of which no "-SEC" or "&#9992" starts passes through unchanged |
| Njt.StripUnmarked | src/index.js:55 | a text without markers is unchanged |
| Njt.StripLeadingMarker | src/index.js:55 | a marker at the front is dropped |
| Njt.StripDoesNotRescan | src/index.js:55 | the single left-to-right scan leaves "-SEC" in "-S-SECEC" |
| Njt.LeadingSpaces | src/index.js:55 | counts exactly the white space at the start |
| Njt.TrailingSpaces | src/index.js:55 | counts exactly the white space at the end |
| Njt.Trim | src/index.js:55 | the result is the slice of the input left after removing white space at both ends, and neither end of it is white space |
| Njt.TrimIdempotent | src/index.js:55 | trimming twice is trimming once |
| Njt.CleanDestinationExample | src/index.js:55 | "Trenton -SEC" is stored as "Trenton" |
| Njt.CleanDestination | src/index.js:55 | markers removed, then trimmed: never longer than the input, and neither end is white space (laws: `StripCleanPrefix`, `StripLeadingMarker`, `TrimIdempotent`) |
| Njt.NjtRecord | src/index.js:47-61 | a record is built exactly when TRAIN_ID, DESTINATION and STATUS are present; a missing TRAIN_ID is reported first; the stop is "NY" and the time is the scheduled departure (full laws: `NjtRecordIdentity`, `NjtRecordCanceled`, `NjtRecordFixed`) |
| Njt.NjtRecordIdentity | src/index.js:49-52 | in a built record an 'A' prefix gives operator "Amtrak" and the id without its first character, any other id gives operator "NJT" and the id unchanged |
| Njt.NjtRecordCanceled | src/index.js:59 | `canceled` is never NULL and is true exactly when STATUS starts with "CANCEL", case-sensitively |
| Njt.NjtRecordFixed | src/index.js:48-60 | stop and origin "NY", no consist, no passengers or loading, tag "yes"; an empty or missing TRACK is NULL; the run date is a whole day; the time is the parsed departure |
| Njt.NjtRecords | src/index.js:46-62 | the board yields one record per item in order exactly when every item's record can be built; otherwise it fails with the error of the first failing item |
| Lirr.FindFirst | src/index.js:88-89 | `find` returns the first element satisfying the test, or nothing when none does |
| Lirr.CarNumbers | src/index.js:92-98 | the consist has one number per car, in car order, a missing number serialized as null |
| Lirr.LoadingCodes | src/index.js:93-97 | the loading list has one code per car, in car order, a missing code becoming '' |
| Lirr.PassengerSum | src/index.js:94-95 | with no negative car count the total is non-negative (law: `PassengerSumZero`) |
| Lirr.PassengerSumZero | src/index.js:94-102 | with no negative count, the total is non-negative and is 0 exactly when no car reports a passenger |
| Lirr.Decide | src/index.js:104-119 | "once" exactly for an eastbound train that has departed a station that is not its last stop; the westbound en-route branch exactly for a westbound train en route; everything else drops the load |
| Lirr.DecisionFor | src/index.js:88-119 | the station is looked up in the stop list (:88), and both branches of the decision that keep the load require the station to be in the train's stop list |
| Lirr.LirrRecord | src/index.js:88-138 | fails exactly when the station has no event, or the event has no non-zero scheduled time and the station has no stop; a built record is keyed by (station, run date, railroad, train number), is tagged "once" or "yes", and always carries consist and loading texts (full laws: `LirrRecordPolicy`, `LirrRecordLoad`, `LirrRecordTiming`) |
| Lirr.LirrRecordPolicy | src/index.js:104-119 | a built record selects the fill-once clause exactly for an eastbound train that has departed a station that is not its last stop |
| Lirr.LirrRecordLoad | src/index.js:91-136 | the consist is always one number per car; in the "once" branch and the westbound en-route branch the count is the car total (NULL when 0) and the loading list has one code per car; otherwise the count is NULL and the loading column is the text "null" |
| Lirr.LirrRecordTiming | src/index.js:121-133 | the time is the event's scheduled time unless 0 or missing, then the stop's; the track is the sign track unless empty or missing, then the event's actual track; `otp` is `sched - act` exactly when the stop has a non-zero actual time |
| Lirr.WithoutLoadRecordOverwritesLoading | src/index.js:115-136 | in the branch that drops the load, applying the record to a row with a count and a loading list keeps the count but replaces the list by "null" |
| Lirr.BuildRecord | src/index.js:86-138 | the per-train body (car loop with its totals, the decision chain, the record) yields exactly `LirrRecord` |
| Lirr.LirrRecords | src/index.js:85-139 | a successful station yields one record per train, each for this station; a failure needs at least one train (full law: `LirrRecordsMeaning`) |
| Lirr.LirrRecordsMeaning | src/index.js:85-140 | a station yields one record per train in feed order exactly when every train's record can be built, and otherwise the error of the first failing train |
| Lirr.HandleResponse | src/index.js:80-140 | the loop over the response yields exactly `LirrRecords` |
| Lirr.FoldPairs | src/index.js:145 | folding the pairs adds their componentwise sums to the accumulator |
| Lirr.ReducePairs | src/index.js:145 | `reduce` without an initial value: nothing for no pairs, otherwise the componentwise sums |
| Lirr.RoundTotal | src/index.js:144-145 | with one pair for each of the eight polled stations the reduce never meets an empty list: the round total exists and is the componentwise sum |

## Left out

- The NJT token object in src/njt_token.js is not part of this model. It
  does AES encryption, an HTTP token fetch, key-value storage and a
  wall-clock expiry.
- HTTP requests, form data, headers, status checks and logging are not
  modelled (src/index.js:19-44, :71-84). The undefined names in the error
  paths (`con` at :79, `t` at :82) lie on those paths.
- The per-station `Promise.all` fan-out is concurrency and is not modelled.
  The round total is modelled over the list of per-station pairs. A throw
  inside one station's handler rejects the `Promise.all`
  (src/index.js:144), so the `reduce` at :145 never runs and the round
  reports nothing. That outcome is not modelled.
- Time-zone lookup and date parsing (`Intl.DateTimeFormat`, `Date.parse`)
  are not modelled. Scheduled departures, run dates and times arrive as
  integer epoch seconds.
- `fetch_amtrak` and the `fetch` routing handler are not modelled. The
  first is disabled; the second calls a method the store does not define.
- The store's constructor does not model schema migration or hydration.
  It is given the tables and an initial cache instead. The cache itself is
  never persisted: the constructor rebuilds it from `train_track` and
  `train_route` with a window-function query over today's NY, NYK and NYP
  rows (src/train_state.js:40-70). That query's column list lacks a comma
  between `track` and `otp`, so the `track` column is dropped and every
  hydrated row lands under the key "undefined" (src/train_state.js:49-50,
  :69). Such an entry has no track, so `StoreLaws.OccupancyStaysWellFormed`
  speaks of that cache only on a cold start or on a day with no terminal
  rows.
  The `deleteAll` at src/train_state.js:34-35 belongs to the migration: it
  wipes storage when `train_track` has no `passengers` column.
- `blockConcurrencyWhile` and actor serialization are not modelled.
  `AddTrack` is a sequential method.
- TrainStore.TrainState.AddTrack: `rowsRead` is the storage engine's own
  accounting. It is an input, one pair of counts per record, and only its
  sum is stated.
- TrainStore.TrainState.AddTrack: `rowsWritten` is modelled as 1 for a
  statement that inserts or updates a row and 0 otherwise. This is SQLite's
  change count, not the engine's billing count.
- TrainStore.TrainState.GetLastTrain: returns the cache by value, so
  aliasing of the returned object is not modelled.
- Key columns (stop, operator, run date, train number) are never NULL in
  the model. Both tables are `without rowid` (src/train_state.js:21, :32),
  so SQLite rejects a NULL in any primary-key column. A LIRR train with no
  `railroad` or `train_num`, or whose `run_date` does not parse, makes the
  insert throw. `add_track` then stops partway through the batch, and the
  records before it stay applied. That failure is not modelled.
- A LIRR car that is itself `null` is not modelled. It would throw on
  `car.number`.
- A LIRR stop always carries a numeric scheduled time. Were it missing,
  the record's time would be `undefined` whenever the event's scheduled
  time is 0 or missing (src/index.js:126), and the delay would be `NaN`
  whenever the stop has a non-zero actual time (src/index.js:133).
- JSON texts are modelled by the values they serialize. The exact text is
  not, and equality of texts is equality of values.
- Numbers are integers. A fractional passenger count or time is not
  modelled.
