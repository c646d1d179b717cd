/** The reconciliation store (`TrainState` in src/train_state.js): the
    `train_route` and `train_track` tables, the two `on conflict` clauses of
    the track upsert, and the in-memory track-occupancy cache. */
module TrainStore {
  import opened Values

  /** One normalized record as handed to `add_track` by a feed normalizer. */
  datatype TrainUpdate = TrainUpdate(
    stop: string,
    operator: string,
    runDate: int,
    trainNo: string,
    trainTime: int,
    route: Option<string>,
    origin: Option<string>,
    destination: Option<string>,
    consist: Option<Json>,
    track: Option<string>,
    otp: Option<int>,
    canceled: Option<bool>,
    passengers: Option<int>,
    loadingDesc: Option<Json>,
    doUpdate: Option<string>)

  /** Primary key and remaining columns of `train_route`. */
  datatype RouteKey = RouteKey(runDate: int, operator: string, trainNo: string)
  datatype RouteRow = RouteRow(route: Option<string>, origin: Option<string>, destination: Option<string>, consist: Option<Json>)

  /** Primary key and remaining columns of `train_track`. */
  datatype TrackKey = TrackKey(stop: string, runDate: int, operator: string, trainNo: string)
  datatype TrackRow = TrackRow(
    trainTime: int,
    track: Option<string>,
    otp: Option<int>,
    canceled: Option<bool>,
    passengers: Option<int>,
    loadingDesc: Option<Json>)

  function RouteKeyOf(t: TrainUpdate): RouteKey {
    RouteKey(t.runDate, t.operator, t.trainNo)
  }

  function RouteRowOf(t: TrainUpdate): RouteRow {
    RouteRow(t.route, t.origin, t.destination, t.consist)
  }

  function TrackKeyOf(t: TrainUpdate): TrackKey {
    TrackKey(t.stop, t.runDate, t.operator, t.trainNo)
  }

  /** The row the track insert would write (`excluded` in the conflict clauses). */
  function TrackRowOf(t: TrainUpdate): TrackRow {
    TrackRow(t.trainTime, t.track, t.otp, t.canceled, t.passengers, t.loadingDesc)
  }

  /** A table after one statement, with the statement's `rowsWritten`. */
  datatype Written<T> = Written(table: T, rows: nat)

  /** `insert into train_route ... on conflict do nothing`. */
  function InsertRoute(routes: map<RouteKey, RouteRow>, t: TrainUpdate): (r: Written<map<RouteKey, RouteRow>>)
    ensures r.table.Keys == routes.Keys + {RouteKeyOf(t)}
    ensures forall k :: k in routes ==> r.table[k] == routes[k]
    ensures RouteKeyOf(t) !in routes ==> r.table[RouteKeyOf(t)] == RouteRowOf(t)
    ensures r.rows <= 1 && (r.rows == 0 <==> r.table == routes)
  {
    var k := RouteKeyOf(t);
    if k in routes then Written(routes, 0) else Written(routes[k := RouteRowOf(t)], 1)
  }

  /** The merge policy a record's `do_update` tag selects. */
  datatype Policy = OverwriteCoalesce | FillOnce

  function PolicyOf(doUpdate: Option<string>): (r: Policy)
    ensures r == FillOnce <==> doUpdate == Some("once")
    ensures doUpdate != Some("once") ==> r == OverwriteCoalesce
  {
    if doUpdate == Some("once") then FillOnce else OverwriteCoalesce
  }

  /** The incoming value is not NULL and is distinct from the stored one. */
  predicate Differs<T(==)>(incoming: Option<T>, stored: Option<T>) {
    incoming.Some? && incoming != stored
  }

  /** The stored value is NULL and the incoming one is not. */
  predicate FillsHole<T>(stored: Option<T>, incoming: Option<T>) {
    stored.None? && incoming.Some?
  }

  /** The `where` of the overwrite clause. */
  predicate CoalesceGuard(stored: TrackRow, incoming: TrackRow) {
    || Differs(incoming.track, stored.track)
    || Differs(incoming.otp, stored.otp)
    || Differs(incoming.canceled, stored.canceled)
    || Differs(incoming.passengers, stored.passengers)
    || Differs(incoming.loadingDesc, stored.loadingDesc)
  }

  /** The `set` list of the overwrite clause: incoming values win unless NULL,
      except `otp` and `canceled`, which are taken as they come. */
  function CoalesceSet(stored: TrackRow, incoming: TrackRow): TrackRow {
    stored.(
      track := Coalesce(incoming.track, stored.track),
      otp := incoming.otp,
      canceled := incoming.canceled,
      passengers := Coalesce(incoming.passengers, stored.passengers),
      loadingDesc := Coalesce(incoming.loadingDesc, stored.loadingDesc))
  }

  /** The `where` of the fill-once clause. */
  predicate FillOnceGuard(stored: TrackRow, incoming: TrackRow) {
    || FillsHole(stored.track, incoming.track)
    || FillsHole(stored.passengers, incoming.passengers)
    || FillsHole(stored.loadingDesc, incoming.loadingDesc)
  }

  /** The `set` list of the fill-once clause: stored values win unless NULL,
      `otp` and `canceled` are taken as they come. */
  function FillOnceSet(stored: TrackRow, incoming: TrackRow): TrackRow {
    stored.(
      track := Coalesce(stored.track, incoming.track),
      otp := incoming.otp,
      canceled := incoming.canceled,
      passengers := Coalesce(stored.passengers, incoming.passengers),
      loadingDesc := Coalesce(stored.loadingDesc, incoming.loadingDesc))
  }

  /** The conflict clause of the track upsert applied to an existing row:
      the updated row, or `None` when the clause's `where` rejects the update
      and zero rows change. */
  function Resolve(policy: Policy, stored: TrackRow, incoming: TrackRow): (r: Option<TrackRow>)
    // the set lists never name train_time
    ensures r.Some? ==> r.value.trainTime == stored.trainTime
    // an update that fires really changes the row
    ensures r.Some? ==> r.value != stored
    // a NULL never replaces a stored track, passenger count or loading list
    ensures r.Some? ==>
      && (stored.track.Some? ==> r.value.track.Some?)
      && (stored.passengers.Some? ==> r.value.passengers.Some?)
      && (stored.loadingDesc.Some? ==> r.value.loadingDesc.Some?)
  {
    match policy
    case OverwriteCoalesce =>
      if CoalesceGuard(stored, incoming) then Some(CoalesceSet(stored, incoming)) else None
    case FillOnce =>
      if FillOnceGuard(stored, incoming) then Some(FillOnceSet(stored, incoming)) else None
  }

  /** `insert into train_track ... on conflict do update set ... where ...`,
      with the clause chosen by the record's `do_update` tag. */
  function UpsertTrack(tracks: map<TrackKey, TrackRow>, t: TrainUpdate): (r: Written<map<TrackKey, TrackRow>>)
    ensures r.table.Keys == tracks.Keys + {TrackKeyOf(t)}
    ensures forall k :: k in tracks && k != TrackKeyOf(t) ==> r.table[k] == tracks[k]
    ensures TrackKeyOf(t) !in tracks ==> r.table[TrackKeyOf(t)] == TrackRowOf(t)
    ensures TrackKeyOf(t) in tracks ==> r.table[TrackKeyOf(t)].trainTime == tracks[TrackKeyOf(t)].trainTime
    ensures r.rows <= 1 && (r.rows == 0 <==> r.table == tracks)
  {
    var k := TrackKeyOf(t);
    if k !in tracks then
      Written(tracks[k := TrackRowOf(t)], 1)
    else
      match Resolve(PolicyOf(t.doUpdate), tracks[k], TrackRowOf(t))
      case None => Written(tracks, 0)
      case Some(row) =>
        assert tracks[k := row][k] != tracks[k];
        Written(tracks[k := row], 1)
  }

  /** The stops whose tracks the occupancy cache follows. */
  const TerminalStops: set<string> := {"NY", "NYK", "NYP"}

  /** The record names a truthy (non-NULL, non-empty) track at a terminal stop. */
  predicate Occupies(t: TrainUpdate) {
    t.track.Some? && t.track.value != "" && t.stop in TerminalStops
  }

  /** The cached `train_time` of track `k`, 0 when nothing is cached. */
  function CachedTime(occupancy: map<string, TrainUpdate>, k: string): int {
    if k in occupancy then occupancy[k].trainTime else 0
  }

  /** The occupancy update: a later train on a terminal track replaces the
      cached record; a tie keeps the record already there. */
  function UpdateOccupancy(occupancy: map<string, TrainUpdate>, t: TrainUpdate): (r: map<string, TrainUpdate>)
    ensures occupancy.Keys <= r.Keys
    ensures forall k :: CachedTime(occupancy, k) <= CachedTime(r, k)
    ensures forall k :: k in r && !(Occupies(t) && k == t.track.value) ==> k in occupancy && r[k] == occupancy[k]
    ensures r != occupancy <==> Occupies(t) && CachedTime(occupancy, t.track.value) < t.trainTime
    ensures Occupies(t) && CachedTime(occupancy, t.track.value) < t.trainTime ==> r[t.track.value] == t
  {
    if Occupies(t) && CachedTime(occupancy, t.track.value) < t.trainTime then
      assert occupancy[t.track.value := t][t.track.value].trainTime != CachedTime(occupancy, t.track.value);
      occupancy[t.track.value := t]
    else
      occupancy
  }

  /** The store's state: both tables and the occupancy cache. */
  datatype Store = Store(
    routes: map<RouteKey, RouteRow>,
    tracks: map<TrackKey, TrackRow>,
    occupancy: map<string, TrainUpdate>)

  /** A store together with the rows written to reach it. */
  datatype Applied = Applied(store: Store, written: nat)

  /** One iteration of the `add_track` loop: route insert, track upsert,
      occupancy update. */
  function Apply(s: Store, t: TrainUpdate): (r: Applied)
    ensures r.written <= 2
    ensures r.written == 0 <==> r.store.routes == s.routes && r.store.tracks == s.tracks
  {
    var route := InsertRoute(s.routes, t);
    var track := UpsertTrack(s.tracks, t);
    Applied(Store(route.table, track.table, UpdateOccupancy(s.occupancy, t)), route.rows + track.rows)
  }

  /** The records of a batch applied in order. */
  function ApplyAll(s: Store, ts: seq<TrainUpdate>): (r: Applied)
    ensures r.written <= 2 * |ts|
    ensures ts == [] ==> r == Applied(s, 0)
  {
    if ts == [] then
      Applied(s, 0)
    else
      var before := ApplyAll(s, ts[..|ts| - 1]);
      var last := Apply(before.store, ts[|ts| - 1]);
      Applied(last.store, before.written + last.written)
  }

  /** Extending a batch by one record applies that record last. */
  lemma ApplyAllStep(s: Store, ts: seq<TrainUpdate>, i: nat)
    requires i < |ts|
    ensures ApplyAll(s, ts[..i + 1]) ==
      var before := ApplyAll(s, ts[..i]);
      var last := Apply(before.store, ts[i]);
      Applied(last.store, before.written + last.written)
  {
    assert ts[..i + 1][..i] == ts[..i];
  }

  /** The `rowsRead` the storage engine reports for the two statements of one record. */
  datatype ReadCounts = ReadCounts(route: nat, track: nat)

  function TotalRead(counts: seq<ReadCounts>): nat {
    if counts == [] then 0
    else TotalRead(counts[..|counts| - 1]) + counts[|counts| - 1].route + counts[|counts| - 1].track
  }

  lemma TotalReadStep(counts: seq<ReadCounts>, i: nat)
    requires i < |counts|
    ensures TotalRead(counts[..i + 1]) == TotalRead(counts[..i]) + counts[i].route + counts[i].track
  {
    assert counts[..i + 1][..i] == counts[..i];
  }

  /** The durable object: both tables and the occupancy cache, updated in place. */
  class TrainState {
    var routes: map<RouteKey, RouteRow>
    var tracks: map<TrackKey, TrackRow>
    var occupancy: map<string, TrainUpdate>

    function Snapshot(): Store
      reads this
    {
      Store(routes, tracks, occupancy)
    }

    /** Opens the store over the tables found in storage and an initial
        cache; rebuilding the cache from `train_track` is left to the caller. */
    constructor (initial: Store)
      ensures Snapshot() == initial
    {
      routes := initial.routes;
      tracks := initial.tracks;
      occupancy := initial.occupancy;
    }

    /** `add_track(trains)`: applies the batch in order and returns the summed
        `rowsWritten` and `rowsRead` of its statements. `rowsRead[i]` is what
        the storage engine reports for the two statements of `trains[i]`. */
    method AddTrack(trains: seq<TrainUpdate>, rowsRead: seq<ReadCounts>) returns (write: nat, read: nat)
      requires |rowsRead| == |trains|
      modifies this
      ensures Snapshot() == ApplyAll(old(Snapshot()), trains).store
      ensures write == ApplyAll(old(Snapshot()), trains).written
      ensures read == TotalRead(rowsRead)
      ensures write <= 2 * |trains|
      ensures trains == [] ==> write == 0 && read == 0 && Snapshot() == old(Snapshot())
    {
      ghost var start := Snapshot();
      write, read := 0, 0;
      var i := 0;
      assert trains[..i] == [] && rowsRead[..i] == [];
      while i < |trains|
        invariant 0 <= i <= |trains|
        invariant ApplyAll(start, trains[..i]) == Applied(Snapshot(), write)
        invariant read == TotalRead(rowsRead[..i])
      {
        ApplyAllStep(start, trains, i);
        var written := ApplyRecord(trains[i]);
        write := write + written;
        read := read + rowsRead[i].route + rowsRead[i].track;
        TotalReadStep(rowsRead, i);
        i := i + 1;
      }
      assert trains[..i] == trains;
      assert rowsRead[..i] == rowsRead;
    }

    /** One pass of the `add_track` loop body: the route statement, the
        track statement and the occupancy update for one record. */
    method ApplyRecord(t: TrainUpdate) returns (written: nat)
      modifies this
      ensures Applied(Snapshot(), written) == Apply(old(Snapshot()), t)
    {
      var routeResult := InsertRoute(routes, t);
      routes := routeResult.table;
      var trackResult := UpsertTrack(tracks, t);
      tracks := trackResult.table;
      written := routeResult.rows + trackResult.rows;
      if Occupies(t) && CachedTime(occupancy, t.track.value) < t.trainTime {
        occupancy := occupancy[t.track.value := t];
      }
    }

    /** `get_last_train()`: the occupancy cache. */
    method GetLastTrain() returns (cache: map<string, TrainUpdate>)
      ensures cache == occupancy
    {
      cache := occupancy;
    }
  }
}
