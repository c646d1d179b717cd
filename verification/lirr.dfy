/** The LIRR feed normalizer of `fetch_lirr` (src/index.js): the per-station
    handler that turns the trains listed for one station into records for
    the store, and the sum of the per-station counters at the end of a
    round. The HTTP exchange and the parallel fan-out are outside the model;
    the feed arrives parsed, with its run date already read as epoch
    seconds. */
module Lirr {
  import opened Values
  import opened TrainStore

  /** The stations queried in every round, in order. */
  const LirrStations: seq<string> := ["ATL", "HPA", "LIC", "GCT", "WDD", "NYK", "JAM", "0NY"]

  /** One car of a train's consist. */
  datatype Car = Car(number: Option<Json>, passengers: Option<int>, loading: Option<string>)

  /** One entry of a train's stop list. */
  datatype StopInfo = StopInfo(
    code: Option<string>,
    stopStatus: Option<string>,
    schedTime: int,
    actTime: Option<int>,
    signTrack: Option<string>)

  /** One entry of a train's event list. */
  datatype EventInfo = EventInfo(code: Option<string>, schedTime: Option<int>, actTrack: Option<string>)

  datatype Details = Details(
    direction: Option<string>,
    branch: Option<string>,
    stops: Option<seq<StopInfo>>,
    events: Option<seq<EventInfo>>)

  /** One train as the feed lists it for a station. */
  datatype LirrTrain = LirrTrain(
    railroad: string,
    runDateSecs: int,
    trainNum: string,
    canceled: Option<bool>,
    details: Option<Details>,
    cars: Option<seq<Car>>)

  /** The TypeError the handler throws when the station is missing from the
      train's event list, or when the event has no scheduled time and the
      station is missing from the stop list too. */
  datatype LirrError = EventMissing | StopMissing

  /** A JavaScript-truthy number: present and not zero. */
  predicate TruthyNum(x: Option<int>) {
    x.Some? && x.value != 0
  }

  /** A JavaScript-truthy string: present and not empty. */
  predicate TruthyText(x: Option<string>) {
    x.Some? && x.value != ""
  }

  function StopsOf(train: LirrTrain): seq<StopInfo> {
    if train.details.Some? && train.details.value.stops.Some? then train.details.value.stops.value else []
  }

  function EventsOf(train: LirrTrain): seq<EventInfo> {
    if train.details.Some? && train.details.value.events.Some? then train.details.value.events.value else []
  }

  function CarsOf(train: LirrTrain): seq<Car> {
    if train.cars.Some? then train.cars.value else []
  }

  function DirectionOf(train: LirrTrain): Option<string> {
    if train.details.Some? then train.details.value.direction else None
  }

  function BranchOf(train: LirrTrain): Option<string> {
    if train.details.Some? then train.details.value.branch else None
  }

  /** `Array.prototype.find`, as the index of the first element that satisfies `p`. */
  function FindFirst<T>(xs: seq<T>, p: T -> bool): (r: Option<nat>)
    ensures r.Some? ==> r.value < |xs| && p(xs[r.value]) && forall j :: 0 <= j < r.value ==> !p(xs[j])
    ensures r.None? ==> forall j :: 0 <= j < |xs| ==> !p(xs[j])
  {
    if xs == [] then None
    else if p(xs[0]) then Some(0)
    else
      match FindFirst(xs[1..], p)
      case None => None
      case Some(i) => Some(i + 1)
  }

  /** The first stop of the list at station `code`. */
  function StopAt(stops: seq<StopInfo>, code: string): Option<StopInfo> {
    match FindFirst(stops, (s: StopInfo) => s.code == Some(code))
    case None => None
    case Some(i) => Some(stops[i])
  }

  /** The first event of the list at station `code`. */
  function EventAt(events: seq<EventInfo>, code: string): Option<EventInfo> {
    match FindFirst(events, (e: EventInfo) => e.code == Some(code))
    case None => None
    case Some(i) => Some(events[i])
  }

  function FirstCode(stops: seq<StopInfo>): Option<string> {
    if stops == [] then None else stops[0].code
  }

  function LastCode(stops: seq<StopInfo>): Option<string> {
    if stops == [] then None else stops[|stops| - 1].code
  }

  /** A car's passenger count, a missing count read as 0. */
  function CarCount(car: Car): int {
    car.passengers.GetOr(0)
  }

  /** A car's number as serialized (a missing number becomes null). */
  function CarNumber(car: Car): Json {
    car.number.GetOr(JNull)
  }

  /** A car's loading code, a missing code read as ''. */
  function LoadingCode(car: Car): string {
    car.loading.GetOr("")
  }

  function PassengerSum(cars: seq<Car>): (r: int)
    ensures (forall i :: 0 <= i < |cars| ==> CarCount(cars[i]) >= 0) ==> r >= 0
  {
    if cars == [] then 0 else PassengerSum(cars[..|cars| - 1]) + CarCount(cars[|cars| - 1])
  }

  /** The consist list: one number per car, in car order. */
  function CarNumbers(cars: seq<Car>): (r: seq<Json>)
    ensures |r| == |cars|
    ensures forall i :: 0 <= i < |cars| ==> r[i] == CarNumber(cars[i])
  {
    if cars == [] then [] else CarNumbers(cars[..|cars| - 1]) + [CarNumber(cars[|cars| - 1])]
  }

  /** The loading list: one code per car, in car order. */
  function LoadingCodes(cars: seq<Car>): (r: seq<Json>)
    ensures |r| == |cars|
    ensures forall i :: 0 <= i < |cars| ==> r[i] == JStr(LoadingCode(cars[i]))
  {
    if cars == [] then [] else LoadingCodes(cars[..|cars| - 1]) + [JStr(LoadingCode(cars[|cars| - 1]))]
  }

  /** With no negative count, the passenger total is 0 exactly when no car
      reports a passenger. */
  lemma {:induction false} PassengerSumZero(cars: seq<Car>)
    requires forall i :: 0 <= i < |cars| ==> CarCount(cars[i]) >= 0
    ensures PassengerSum(cars) >= 0
    ensures PassengerSum(cars) == 0 <==> forall i :: 0 <= i < |cars| ==> CarCount(cars[i]) == 0
    decreases |cars|
  {
    if cars != [] {
      var pre := cars[..|cars| - 1];
      forall i | 0 <= i < |pre|
        ensures CarCount(pre[i]) >= 0
      {
        assert pre[i] == cars[i];
      }
      PassengerSumZero(pre);
      if PassengerSum(cars) == 0 {
        forall i | 0 <= i < |cars|
          ensures CarCount(cars[i]) == 0
        {
          if i < |pre| {
            assert pre[i] == cars[i];
          }
        }
      } else {
        if CarCount(cars[|cars| - 1]) == 0 {
          var i :| 0 <= i < |pre| && CarCount(pre[i]) != 0;
          assert pre[i] == cars[i];
        }
      }
    }
  }

  /** The three outcomes of the merge-policy decision. */
  datatype Decision =
    | FillOnceAfterDeparture  // eastbound, departed, not the last stop: "once"
    | OverwriteEnRoute        // westbound, en route: "yes", with the load
    | OverwriteWithoutLoad    // anything else: "yes", passengers NULL, loading "null"

  function Decide(direction: Option<string>, status: Option<string>, lastCode: Option<string>, stop: string): (r: Decision)
    ensures r == FillOnceAfterDeparture <==> direction == Some("E") && status == Some("DEPARTED") && lastCode != Some(stop)
    ensures r == OverwriteEnRoute <==> direction == Some("W") && status == Some("EN_ROUTE")
  {
    if direction == Some("E") && status == Some("DEPARTED") && lastCode != Some(stop) then FillOnceAfterDeparture
    else if direction == Some("W") && status == Some("EN_ROUTE") then OverwriteEnRoute
    else OverwriteWithoutLoad
  }

  function StatusAt(stopDetails: Option<StopInfo>): Option<string> {
    if stopDetails.Some? then stopDetails.value.stopStatus else None
  }

  /** Both branches that keep the load need the station in the stop list. */
  function DecisionFor(stop: string, train: LirrTrain): (r: Decision)
    ensures r != OverwriteWithoutLoad ==> StopAt(StopsOf(train), stop).Some?
  {
    var stops := StopsOf(train);
    Decide(DirectionOf(train), StatusAt(StopAt(stops, stop)), LastCode(stops), stop)
  }

  /** The record `handle_req` pushes for one train at station `stop`, or the
      error thrown while building it. */
  function LirrRecord(stop: string, train: LirrTrain): (r: Result<TrainUpdate, LirrError>)
    ensures r.Failure? <==>
      || EventAt(EventsOf(train), stop).None?
      || (!TruthyNum(EventAt(EventsOf(train), stop).value.schedTime) && StopAt(StopsOf(train), stop).None?)
    ensures r.Success? ==>
      && TrackKeyOf(r.value) == TrackKey(stop, train.runDateSecs, train.railroad, train.trainNum)
      && (r.value.doUpdate == Some("once") || r.value.doUpdate == Some("yes"))
      && r.value.consist.Some? && r.value.loadingDesc.Some?
  {
    var stops := StopsOf(train);
    var stopDetails := StopAt(stops, stop);
    var eventDetails := EventAt(EventsOf(train), stop);
    var cars := CarsOf(train);
    var total := PassengerSum(cars);
    var decision := DecisionFor(stop, train);
    if eventDetails.None? then Failure(EventMissing)
    else if !TruthyNum(eventDetails.value.schedTime) && stopDetails.None? then Failure(StopMissing)
    else
      var event := eventDetails.value;
      Success(TrainUpdate(
        stop := stop,
        operator := train.railroad,
        runDate := train.runDateSecs,
        trainNo := train.trainNum,
        trainTime := if TruthyNum(event.schedTime) then event.schedTime.value else stopDetails.value.schedTime,
        route := BranchOf(train),
        origin := FirstCode(stops),
        destination := LastCode(stops),
        consist := Some(JArr(CarNumbers(cars))),
        track :=
          if stopDetails.Some? && TruthyText(stopDetails.value.signTrack) then stopDetails.value.signTrack
          else event.actTrack,
        otp :=
          if stopDetails.Some? && TruthyNum(stopDetails.value.actTime)
          then Some(stopDetails.value.schedTime - stopDetails.value.actTime.value)
          else None,
        canceled := train.canceled,
        passengers := if decision == OverwriteWithoutLoad || total == 0 then None else Some(total),
        loadingDesc := Some(if decision == OverwriteWithoutLoad then JNull else JArr(LoadingCodes(cars))),
        doUpdate := Some(if decision == FillOnceAfterDeparture then "once" else "yes")))
  }

  /** The policy a built record asks for: the fill-once clause exactly for
      an eastbound train that has departed this station when this is not
      its last stop. */
  lemma LirrRecordPolicy(stop: string, train: LirrTrain)
    requires LirrRecord(stop, train).Success?
    ensures
      var stops := StopsOf(train);
      PolicyOf(LirrRecord(stop, train).value.doUpdate) == FillOnce <==>
        && DirectionOf(train) == Some("E")
        && StatusAt(StopAt(stops, stop)) == Some("DEPARTED")
        && LastCode(stops) != Some(stop)
  {
  }

  /** The load a record carries. The consist always lists one number per
      car. In the two branches that keep the load, the passenger count is the
      car total (NULL when it is 0) and the loading list has one code per
      car; in the remaining branch the count is NULL and the loading column
      still gets the non-NULL text "null". */
  lemma LirrRecordLoad(stop: string, train: LirrTrain)
    requires LirrRecord(stop, train).Success?
    ensures
      var t := LirrRecord(stop, train).value;
      var cars := CarsOf(train);
      var stops := StopsOf(train);
      var status := StatusAt(StopAt(stops, stop));
      var keepsLoad :=
        || (DirectionOf(train) == Some("E") && status == Some("DEPARTED") && LastCode(stops) != Some(stop))
        || (DirectionOf(train) == Some("W") && status == Some("EN_ROUTE"));
      && t.consist.value.JArr?
      && |t.consist.value.items| == |cars|
      && (forall i :: 0 <= i < |cars| ==> t.consist.value.items[i] == CarNumber(cars[i]))
      && (!keepsLoad ==> t.passengers.None? && t.loadingDesc == Some(JNull))
      && (keepsLoad ==>
            && t.passengers == (if PassengerSum(cars) == 0 then None else Some(PassengerSum(cars)))
            && t.loadingDesc.value.JArr?
            && |t.loadingDesc.value.items| == |cars|
            && forall i :: 0 <= i < |cars| ==> t.loadingDesc.value.items[i] == JStr(LoadingCode(cars[i])))
  {
  }

  /** The time, track and delay of a record: the event's scheduled time
      unless it is missing or 0, then the stop's; the stop's sign track
      unless it is missing or empty, then the event's actual track; and the
      delay `sched - act` only when the stop has a non-zero actual time. */
  lemma LirrRecordTiming(stop: string, train: LirrTrain)
    requires LirrRecord(stop, train).Success?
    ensures
      var t := LirrRecord(stop, train).value;
      var event := EventAt(EventsOf(train), stop).value;
      var stopDetails := StopAt(StopsOf(train), stop);
      && t.trainTime == (if TruthyNum(event.schedTime) then event.schedTime.value else stopDetails.value.schedTime)
      && (stopDetails.Some? && TruthyText(stopDetails.value.signTrack) ==> t.track == stopDetails.value.signTrack)
      && (!(stopDetails.Some? && TruthyText(stopDetails.value.signTrack)) ==> t.track == event.actTrack)
      && (t.otp.Some? <==> stopDetails.Some? && TruthyNum(stopDetails.value.actTime))
      && (t.otp.Some? ==> t.otp.value == stopDetails.value.schedTime - stopDetails.value.actTime.value)
  {
  }

  /** A record from the branch that drops the load, applied to a row that
      holds a passenger count and a loading list: the count survives, since
      NULL never replaces it, but the loading list is replaced by "null". */
  lemma WithoutLoadRecordOverwritesLoading(stop: string, train: LirrTrain, stored: TrackRow)
    requires LirrRecord(stop, train).Success?
    requires DecisionFor(stop, train) == OverwriteWithoutLoad
    requires stored.passengers.Some? && stored.loadingDesc.Some? && stored.loadingDesc != Some(JNull)
    ensures
      var t := LirrRecord(stop, train).value;
      var r := Resolve(PolicyOf(t.doUpdate), stored, TrackRowOf(t));
      && r.Some?
      && r.value.passengers == stored.passengers
      && r.value.loadingDesc == Some(JNull)
  {
  }

  /** The per-train body of `handle_req`: the loop over the cars, then the
      merge-policy decision, then the record. */
  method BuildRecord(stop: string, train: LirrTrain) returns (r: Result<TrainUpdate, LirrError>)
    ensures r == LirrRecord(stop, train)
  {
    var stops := StopsOf(train);
    var stopDetails := StopAt(stops, stop);
    var eventDetails := EventAt(EventsOf(train), stop);
    var cars := CarsOf(train);

    var total := 0;
    var consist: seq<Json> := [];
    var loadingList: seq<Json> := [];
    var i := 0;
    while i < |cars|
      invariant 0 <= i <= |cars|
      invariant total == PassengerSum(cars[..i])
      invariant consist == CarNumbers(cars[..i])
      invariant loadingList == LoadingCodes(cars[..i])
    {
      total := total + CarCount(cars[i]);
      loadingList := loadingList + [JStr(LoadingCode(cars[i]))];
      consist := consist + [CarNumber(cars[i])];
      assert cars[..i + 1][..i] == cars[..i];
      i := i + 1;
    }
    assert cars[..i] == cars;

    var passengers: Option<int> := if total == 0 then None else Some(total);
    var loadingDesc: Json := JArr(loadingList);
    var doUpdate: Option<string>;
    var status := StatusAt(stopDetails);
    if DirectionOf(train) == Some("E") && status == Some("DEPARTED") && LastCode(stops) != Some(stop) {
      doUpdate := Some("once");
      assert DecisionFor(stop, train) == FillOnceAfterDeparture;
    } else if DirectionOf(train) == Some("W") && status == Some("EN_ROUTE") {
      doUpdate := Some("yes");
      assert DecisionFor(stop, train) == OverwriteEnRoute;
    } else {
      passengers := None;
      loadingDesc := JNull;
      doUpdate := Some("yes");
      assert DecisionFor(stop, train) == OverwriteWithoutLoad;
    }

    if eventDetails.None? {
      return Failure(EventMissing);
    }
    var event := eventDetails.value;
    var trainTime: int;
    if TruthyNum(event.schedTime) {
      trainTime := event.schedTime.value;
    } else if stopDetails.None? {
      return Failure(StopMissing);
    } else {
      trainTime := stopDetails.value.schedTime;
    }
    var track :=
      if stopDetails.Some? && TruthyText(stopDetails.value.signTrack) then stopDetails.value.signTrack
      else event.actTrack;
    var otp :=
      if stopDetails.Some? && TruthyNum(stopDetails.value.actTime)
      then Some(stopDetails.value.schedTime - stopDetails.value.actTime.value)
      else None;
    r := Success(TrainUpdate(
      stop := stop,
      operator := train.railroad,
      runDate := train.runDateSecs,
      trainNo := train.trainNum,
      trainTime := trainTime,
      route := BranchOf(train),
      origin := FirstCode(stops),
      destination := LastCode(stops),
      consist := Some(JArr(consist)),
      track := track,
      otp := otp,
      canceled := train.canceled,
      passengers := passengers,
      loadingDesc := Some(loadingDesc),
      doUpdate := doUpdate));
  }

  /** The records of every train listed for a station, or the error of the
      first train whose record cannot be built. */
  function LirrRecords(stop: string, trains: seq<LirrTrain>): (r: Result<seq<TrainUpdate>, LirrError>)
    ensures r.Success? ==> |r.value| == |trains|
    ensures r.Success? ==> forall i :: 0 <= i < |r.value| ==> r.value[i].stop == stop
    ensures r.Failure? ==> trains != []
  {
    if trains == [] then Success([])
    else
      match LirrRecord(stop, trains[0])
      case Failure(e) => Failure(e)
      case Success(t) => Prepend([t], LirrRecords(stop, trains[1..]))
  }

  function Prepend(ts: seq<TrainUpdate>, r: Result<seq<TrainUpdate>, LirrError>): Result<seq<TrainUpdate>, LirrError> {
    match r
    case Success(rest) => Success(ts + rest)
    case Failure(e) => Failure(e)
  }

  /** The record outcome of each train, in feed order. */
  function Outcomes(stop: string, trains: seq<LirrTrain>): (r: seq<Result<TrainUpdate, LirrError>>)
    ensures |r| == |trains|
    ensures forall i :: 0 <= i < |trains| ==> r[i] == LirrRecord(stop, trains[i])
  {
    seq(|trains|, i requires 0 <= i < |trains| => LirrRecord(stop, trains[i]))
  }

  lemma {:induction false} LirrRecordsCollect(stop: string, trains: seq<LirrTrain>)
    ensures LirrRecords(stop, trains) == Collect(Outcomes(stop, trains))
    decreases |trains|
  {
    if trains != [] {
      LirrRecordsCollect(stop, trains[1..]);
      assert Outcomes(stop, trains)[1..] == Outcomes(stop, trains[1..]);
    }
  }

  /** A station's records succeed exactly when every train's does, one
      record per train in feed order; a failure is that of the first
      failing train. */
  lemma LirrRecordsMeaning(stop: string, trains: seq<LirrTrain>)
    ensures LirrRecords(stop, trains).Success? <==> forall i :: 0 <= i < |trains| ==> LirrRecord(stop, trains[i]).Success?
    ensures LirrRecords(stop, trains).Success? ==>
      && |LirrRecords(stop, trains).value| == |trains|
      && forall i :: 0 <= i < |trains| ==> LirrRecord(stop, trains[i]) == Success(LirrRecords(stop, trains).value[i])
    ensures LirrRecords(stop, trains).Failure? ==>
      exists i :: 0 <= i < |trains| && LirrRecord(stop, trains[i]) == Failure(LirrRecords(stop, trains).error)
        && forall j :: 0 <= j < i ==> LirrRecord(stop, trains[j]).Success?
  {
    var outcomes := Outcomes(stop, trains);
    LirrRecordsCollect(stop, trains);
    CollectMeaning(outcomes);
  }

  /** `handle_req` on a successful response: builds the record of each
      listed train in turn; a thrown error abandons the whole station. */
  method HandleResponse(stop: string, trains: seq<LirrTrain>) returns (r: Result<seq<TrainUpdate>, LirrError>)
    ensures r == LirrRecords(stop, trains)
  {
    var records: seq<TrainUpdate> := [];
    var i := 0;
    assert trains[i..] == trains;
    PrependNothing(LirrRecords(stop, trains));
    while i < |trains|
      invariant 0 <= i <= |trains|
      invariant LirrRecords(stop, trains) == Prepend(records, LirrRecords(stop, trains[i..]))
    {
      var record := BuildRecord(stop, trains[i]);
      assert trains[i..][0] == trains[i] && trains[i..][1..] == trains[i + 1..];
      if record.Failure? {
        assert LirrRecords(stop, trains[i..]) == Failure(record.error);
        return Failure(record.error);
      }
      assert LirrRecords(stop, trains[i..]) == Prepend([record.value], LirrRecords(stop, trains[i + 1..]));
      PrependTwice(records, [record.value], LirrRecords(stop, trains[i + 1..]));
      records := records + [record.value];
      i := i + 1;
    }
    r := Success(records);
    assert records + [] == records;
  }

  lemma PrependNothing(r: Result<seq<TrainUpdate>, LirrError>)
    ensures Prepend([], r) == r
  {
    if r.Success? {
      assert [] + r.value == r.value;
    }
  }

  lemma PrependTwice(a: seq<TrainUpdate>, b: seq<TrainUpdate>, r: Result<seq<TrainUpdate>, LirrError>)
    ensures Prepend(a, Prepend(b, r)) == Prepend(a + b, r)
  {
    if r.Success? {
      assert a + (b + r.value) == (a + b) + r.value;
    }
  }

  /** The `[written, read]` pairs combined with no initial value: JavaScript's
      reduce throws on an empty array. */
  function ReducePairs(results: seq<(int, int)>): (r: Option<(int, int)>)
    ensures r.None? <==> results == []
    ensures r.Some? ==> r.value == (SumWritten(results), SumRead(results))
  {
    if results == [] then None else Some(FoldPairs(results[0], results[1..]))
  }

  function FoldPairs(acc: (int, int), rest: seq<(int, int)>): (r: (int, int))
    ensures r == (acc.0 + SumWritten(rest), acc.1 + SumRead(rest))
    decreases |rest|
  {
    if rest == [] then acc else FoldPairs((acc.0 + rest[0].0, acc.1 + rest[0].1), rest[1..])
  }

  function SumWritten(results: seq<(int, int)>): int {
    if results == [] then 0 else results[0].0 + SumWritten(results[1..])
  }

  function SumRead(results: seq<(int, int)>): int {
    if results == [] then 0 else results[0].1 + SumRead(results[1..])
  }

  /** With one pair per polled station, `reduce` never throws on an empty
      list: the round always has a total. */
  lemma RoundTotal(results: seq<(int, int)>)
    requires |results| == |LirrStations|
    ensures ReducePairs(results) == Some((SumWritten(results), SumRead(results)))
  {
  }
}
