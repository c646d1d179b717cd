/** Laws of the reconciliation store: what one conflict clause does to a
    row, and what a whole batch of `add_track` does to the tables and the
    occupancy cache. */
module StoreLaws {
  import opened Values
  import opened TrainStore

  /** The overwrite clause. It fires exactly when the incoming record carries a
      non-NULL value that differs from the stored one; a NULL never replaces a
      stored track, passenger count or loading list, while `otp` and
      `canceled` take the incoming value, NULL included. */
  lemma CoalesceLaw(stored: TrackRow, incoming: TrackRow)
    ensures Resolve(OverwriteCoalesce, stored, incoming).None? <==>
      && (incoming.track.None? || incoming.track == stored.track)
      && (incoming.otp.None? || incoming.otp == stored.otp)
      && (incoming.canceled.None? || incoming.canceled == stored.canceled)
      && (incoming.passengers.None? || incoming.passengers == stored.passengers)
      && (incoming.loadingDesc.None? || incoming.loadingDesc == stored.loadingDesc)
    ensures Resolve(OverwriteCoalesce, stored, incoming).Some? ==>
      var row := Resolve(OverwriteCoalesce, stored, incoming).value;
      && row.track == (if incoming.track.Some? then incoming.track else stored.track)
      && row.passengers == (if incoming.passengers.Some? then incoming.passengers else stored.passengers)
      && row.loadingDesc == (if incoming.loadingDesc.Some? then incoming.loadingDesc else stored.loadingDesc)
      && row.otp == incoming.otp
      && row.canceled == incoming.canceled
      && row.trainTime == stored.trainTime
  {
  }

  /** The fill-once clause. It fires exactly when a stored track, passenger
      count or loading list is NULL and the incoming one is not; a stored
      non-NULL value of those three never changes. */
  lemma FillOnceLaw(stored: TrackRow, incoming: TrackRow)
    ensures Resolve(FillOnce, stored, incoming).Some? <==>
      || (stored.track.None? && incoming.track.Some?)
      || (stored.passengers.None? && incoming.passengers.Some?)
      || (stored.loadingDesc.None? && incoming.loadingDesc.Some?)
    ensures Resolve(FillOnce, stored, incoming).Some? ==>
      var row := Resolve(FillOnce, stored, incoming).value;
      && row.track == (if stored.track.Some? then stored.track else incoming.track)
      && row.passengers == (if stored.passengers.Some? then stored.passengers else incoming.passengers)
      && row.loadingDesc == (if stored.loadingDesc.Some? then stored.loadingDesc else incoming.loadingDesc)
      && row.otp == incoming.otp
      && row.canceled == incoming.canceled
      && row.trainTime == stored.trainTime
  {
  }

  /** Whenever either clause fires, for whatever field, `otp` is overwritten
      even with NULL: a record without a delay erases the stored delay. */
  lemma OtpClearedAlongsideOtherChange(policy: Policy, stored: TrackRow, incoming: TrackRow)
    requires stored.otp.Some? && incoming.otp.None?
    requires Resolve(policy, stored, incoming).Some?
    ensures Resolve(policy, stored, incoming).value.otp.None?
    ensures Resolve(policy, stored, incoming).value.canceled == incoming.canceled
  {
  }

  /** Two ways such a record fires a clause: a new track under the overwrite
      clause, or a passenger count for a row that has none under the
      fill-once clause. Either erases the stored delay. */
  lemma OtpClearedByTrackOrCount(policy: Policy, stored: TrackRow, incoming: TrackRow)
    requires stored.otp.Some? && incoming.otp.None?
    requires policy == OverwriteCoalesce ==> Differs(incoming.track, stored.track)
    requires policy == FillOnce ==> FillsHole(stored.passengers, incoming.passengers)
    ensures Resolve(policy, stored, incoming).Some?
    ensures Resolve(policy, stored, incoming).value.otp.None?
  {
  }

  /** Re-applying the incoming row to the row a clause produced (or left in
      place) never fires the clause again. */
  lemma ResolveIdempotent(policy: Policy, stored: TrackRow, incoming: TrackRow)
    ensures Resolve(policy, Resolve(policy, stored, incoming).GetOr(stored), incoming).None?
  {
  }

  /** Applying the same record twice in a row: the second application writes
      no row and leaves both tables and the occupancy cache as they are. */
  lemma ApplyIdempotent(s: Store, t: TrainUpdate)
    ensures Apply(Apply(s, t).store, t) == Applied(Apply(s, t).store, 0)
  {
    var once := Apply(s, t).store;
    var k := TrackKeyOf(t);
    var policy := PolicyOf(t.doUpdate);
    assert k in once.tracks;
    if k in s.tracks {
      ResolveIdempotent(policy, s.tracks[k], TrackRowOf(t));
      assert once.tracks[k] == Resolve(policy, s.tracks[k], TrackRowOf(t)).GetOr(s.tracks[k]);
    } else {
      assert once.tracks[k] == TrackRowOf(t);
    }
    assert Resolve(policy, once.tracks[k], TrackRowOf(t)).None?;
    assert UpsertTrack(once.tracks, t) == Written(once.tracks, 0);
    if Occupies(t) {
      assert t.trainTime <= CachedTime(once.occupancy, t.track.value);
    }
    assert UpdateOccupancy(once.occupancy, t) == once.occupancy;
  }

  /** Route rows are insert-or-ignore: a row already present is never changed
      or removed by any later batch. */
  lemma {:induction false} RoutesNeverChange(s: Store, ts: seq<TrainUpdate>)
    ensures s.routes.Keys <= ApplyAll(s, ts).store.routes.Keys
    ensures forall k :: k in s.routes ==> ApplyAll(s, ts).store.routes[k] == s.routes[k]
    decreases |ts|
  {
    if ts != [] {
      RoutesNeverChange(s, ts[..|ts| - 1]);
    }
  }

  /** `ts[i]` is the first record of the batch with route key `k`. */
  ghost predicate FirstSighting(ts: seq<TrainUpdate>, k: RouteKey, i: int) {
    && 0 <= i < |ts|
    && RouteKeyOf(ts[i]) == k
    && forall j :: 0 <= j < i ==> RouteKeyOf(ts[j]) != k
  }

  /** What a route table holds for key `k` after the records `ts`, when
      it held nothing for `k` before them. */
  ghost predicate RouteFromFirstSighting(routes: map<RouteKey, RouteRow>, ts: seq<TrainUpdate>, k: RouteKey) {
    && (k in routes <==> exists i :: 0 <= i < |ts| && RouteKeyOf(ts[i]) == k)
    && (k in routes ==> exists i :: FirstSighting(ts, k, i) && routes[k] == RouteRowOf(ts[i]))
  }

  /** Inserting one more record keeps `RouteFromFirstSighting`. */
  lemma RouteInsertStep(routes: map<RouteKey, RouteRow>, pre: seq<TrainUpdate>, t: TrainUpdate, k: RouteKey)
    requires RouteFromFirstSighting(routes, pre, k)
    ensures RouteFromFirstSighting(InsertRoute(routes, t).table, pre + [t], k)
  {
    var ts := pre + [t];
    var n := |pre|;
    var r := InsertRoute(routes, t).table;
    forall j | 0 <= j < n
      ensures ts[j] == pre[j]
    {
    }
    if k in routes {
      var i :| FirstSighting(pre, k, i) && routes[k] == RouteRowOf(pre[i]);
      assert FirstSighting(ts, k, i);
    } else {
      if RouteKeyOf(t) == k {
        assert ts[n] == t;
        assert FirstSighting(ts, k, n);
      } else {
        assert k !in r;
        forall i | 0 <= i < |ts|
          ensures RouteKeyOf(ts[i]) != k
        {
          if i < n {
            assert ts[i] == pre[i];
          }
        }
      }
    }
  }

  /** The route table after a batch, seen on its own: the route statement
      does not depend on the track table or the cache. */
  function RoutesAfter(routes: map<RouteKey, RouteRow>, ts: seq<TrainUpdate>): map<RouteKey, RouteRow>
    decreases |ts|
  {
    if ts == [] then routes
    else InsertRoute(RoutesAfter(routes, ts[..|ts| - 1]), ts[|ts| - 1]).table
  }

  lemma {:induction false} RoutesAfterBatch(s: Store, ts: seq<TrainUpdate>)
    ensures ApplyAll(s, ts).store.routes == RoutesAfter(s.routes, ts)
    decreases |ts|
  {
    if ts != [] {
      RoutesAfterBatch(s, ts[..|ts| - 1]);
    }
  }

  lemma {:induction false} RouteFromFirstSightingAll(routes: map<RouteKey, RouteRow>, ts: seq<TrainUpdate>, k: RouteKey)
    requires k !in routes
    ensures RouteFromFirstSighting(RoutesAfter(routes, ts), ts, k)
    decreases |ts|
  {
    if ts != [] {
      var n := |ts| - 1;
      var pre := ts[..n];
      RouteFromFirstSightingAll(routes, pre, k);
      RouteInsertStep(RoutesAfter(routes, pre), pre, ts[n], k);
      assert pre + [ts[n]] == ts;
    }
  }

  /** A route key absent before the batch is present after it exactly when a
      record of the batch has it, and then holds the route, origin,
      destination and consist of the first such record. */
  lemma RouteFirstSightingWins(s: Store, ts: seq<TrainUpdate>, k: RouteKey)
    requires k !in s.routes
    ensures k in ApplyAll(s, ts).store.routes <==> exists i :: 0 <= i < |ts| && RouteKeyOf(ts[i]) == k
    ensures k in ApplyAll(s, ts).store.routes ==>
      exists i :: FirstSighting(ts, k, i) && ApplyAll(s, ts).store.routes[k] == RouteRowOf(ts[i])
  {
    RoutesAfterBatch(s, ts);
    RouteFromFirstSightingAll(s.routes, ts, k);
  }

  /** Track rows are never removed, and the `train_time` of a row never
      changes once the row exists. */
  lemma {:induction false} TrackTrainTimeFixed(s: Store, ts: seq<TrainUpdate>)
    ensures s.tracks.Keys <= ApplyAll(s, ts).store.tracks.Keys
    ensures forall k :: k in s.tracks ==> ApplyAll(s, ts).store.tracks[k].trainTime == s.tracks[k].trainTime
    decreases |ts|
  {
    if ts != [] {
      TrackTrainTimeFixed(s, ts[..|ts| - 1]);
    }
  }

  /** Under either clause, a stored non-NULL track, passenger count or loading
      list stays non-NULL for good. */
  lemma {:induction false} TrackFieldsNeverErased(s: Store, ts: seq<TrainUpdate>)
    ensures s.tracks.Keys <= ApplyAll(s, ts).store.tracks.Keys
    ensures forall k :: k in s.tracks ==>
      var now := ApplyAll(s, ts).store.tracks[k];
      && (s.tracks[k].track.Some? ==> now.track.Some?)
      && (s.tracks[k].passengers.Some? ==> now.passengers.Some?)
      && (s.tracks[k].loadingDesc.Some? ==> now.loadingDesc.Some?)
    decreases |ts|
  {
    if ts != [] {
      TrackFieldsNeverErased(s, ts[..|ts| - 1]);
    }
  }

  /** When every record of a batch that targets row `k` is tagged "once", a
      non-NULL track, passenger count or loading list stored at `k` is never
      changed. */
  lemma {:induction false} FillOnceFrozen(s: Store, ts: seq<TrainUpdate>, k: TrackKey)
    requires k in s.tracks
    requires forall i :: 0 <= i < |ts| && TrackKeyOf(ts[i]) == k ==> ts[i].doUpdate == Some("once")
    ensures k in ApplyAll(s, ts).store.tracks
    ensures var now := ApplyAll(s, ts).store.tracks[k];
      && (s.tracks[k].track.Some? ==> now.track == s.tracks[k].track)
      && (s.tracks[k].passengers.Some? ==> now.passengers == s.tracks[k].passengers)
      && (s.tracks[k].loadingDesc.Some? ==> now.loadingDesc == s.tracks[k].loadingDesc)
    decreases |ts|
  {
    if ts != [] {
      var n := |ts| - 1;
      forall i | 0 <= i < n && TrackKeyOf(ts[..n][i]) == k
        ensures ts[..n][i].doUpdate == Some("once")
      {
        assert ts[..n][i] == ts[i];
      }
      FillOnceFrozen(s, ts[..n], k);
      var p := ApplyAll(s, ts[..n]).store;
      var t := ts[n];
      assert ApplyAll(s, ts).store.tracks == UpsertTrack(p.tracks, t).table;
      if TrackKeyOf(t) == k {
        assert PolicyOf(t.doUpdate) == FillOnce;
        FillOnceLaw(p.tracks[k], TrackRowOf(t));
      }
    }
  }

  /** Each track's cached `train_time` never decreases. */
  lemma {:induction false} OccupancyMonotone(s: Store, ts: seq<TrainUpdate>)
    ensures forall k :: CachedTime(s.occupancy, k) <= CachedTime(ApplyAll(s, ts).store.occupancy, k)
    decreases |ts|
  {
    if ts != [] {
      OccupancyMonotone(s, ts[..|ts| - 1]);
    }
  }

  /** After a batch, the cached `train_time` of a track is at least that of
      every record of the batch that occupies it. */
  lemma {:induction false} OccupancyHoldsLatest(s: Store, ts: seq<TrainUpdate>)
    ensures forall i :: 0 <= i < |ts| && Occupies(ts[i]) ==>
      ts[i].trainTime <= CachedTime(ApplyAll(s, ts).store.occupancy, ts[i].track.value)
    decreases |ts|
  {
    if ts != [] {
      var n := |ts| - 1;
      var pre := ts[..n];
      OccupancyHoldsLatest(s, pre);
      var p := ApplyAll(s, pre).store.occupancy;
      var r := ApplyAll(s, ts).store.occupancy;
      assert r == UpdateOccupancy(p, ts[n]);
      forall i | 0 <= i < |ts| && Occupies(ts[i])
        ensures ts[i].trainTime <= CachedTime(r, ts[i].track.value)
      {
        if i < n {
          assert ts[i] == pre[i];
          assert CachedTime(p, ts[i].track.value) <= CachedTime(r, ts[i].track.value);
        }
      }
    }
  }

  /** Every cached entry after a batch is either the entry that was cached
      before or a record of the batch that occupies that very track. */
  lemma {:induction false} OccupancyFromBatch(s: Store, ts: seq<TrainUpdate>)
    ensures forall k :: k in ApplyAll(s, ts).store.occupancy ==>
      || (k in s.occupancy && ApplyAll(s, ts).store.occupancy[k] == s.occupancy[k])
      || exists i :: 0 <= i < |ts| && ApplyAll(s, ts).store.occupancy[k] == ts[i] && Occupies(ts[i]) && ts[i].track.value == k
    decreases |ts|
  {
    if ts != [] {
      var n := |ts| - 1;
      var pre := ts[..n];
      OccupancyFromBatch(s, pre);
      var p := ApplyAll(s, pre).store.occupancy;
      var r := ApplyAll(s, ts).store.occupancy;
      assert r == UpdateOccupancy(p, ts[n]);
      forall k | k in r
        ensures || (k in s.occupancy && r[k] == s.occupancy[k])
                || exists i :: 0 <= i < |ts| && r[k] == ts[i] && Occupies(ts[i]) && ts[i].track.value == k
      {
        if Occupies(ts[n]) && k == ts[n].track.value && r != p {
          assert r[k] == ts[n];
        } else {
          assert k in p && r[k] == p[k];
          if !(k in s.occupancy && p[k] == s.occupancy[k]) {
            var i :| 0 <= i < n && p[k] == pre[i] && Occupies(pre[i]) && pre[i].track.value == k;
            assert pre[i] == ts[i];
          }
        }
      }
    }
  }

  /** The cache holds, for each track, a record that occupies that track. */
  ghost predicate OccupancyWellFormed(occupancy: map<string, TrainUpdate>) {
    forall k :: k in occupancy ==> Occupies(occupancy[k]) && occupancy[k].track.value == k
  }

  /** A batch keeps the cache well formed. */
  lemma OccupancyStaysWellFormed(s: Store, ts: seq<TrainUpdate>)
    requires OccupancyWellFormed(s.occupancy)
    ensures OccupancyWellFormed(ApplyAll(s, ts).store.occupancy)
  {
    OccupancyFromBatch(s, ts);
  }
}
