/** The NJT feed normalizer of `fetch_njt` (src/index.js): the service-day
    computation and the record built for each item of the station's
    departure board. The HTTP exchange and the time-zone lookup are outside
    the model; each item's scheduled departure arrives already parsed to
    epoch seconds. */
module Njt {
  import opened Values
  import opened TrainStore

  /** Seconds in a day. */
  const Day: int := 86400
  /** The service day starts at 08:00 GMT, when no NJT train departs. */
  const Cutover: int := 28800
  const TwoTo31: int := 0x8000_0000
  const TwoTo32: int := 0x1_0000_0000

  /** JavaScript's `| 0` (ToInt32) on an integral number: wrap-around into
      the signed 32-bit range. */
  function ToInt32(x: int): (r: int)
    ensures -TwoTo31 <= r < TwoTo31
    ensures (x - r) % TwoTo32 == 0
    ensures -TwoTo31 <= x < TwoTo31 ==> r == x
  {
    var m := x % TwoTo32;
    if m >= TwoTo31 then m - TwoTo32 else m
  }

  /** Division rounded toward zero, which is what `| 0` does to a quotient. */
  function TruncDiv(a: int, b: int): (q: int)
    requires b > 0
    ensures a >= 0 ==> q * b <= a < q * b + b
    ensures a < 0 ==> q * b - b < a <= q * b
  {
    if a >= 0 then a / b else -((-a) / b)
  }

  /** `get_run_date`: the epoch second of the start of the (GMT) day that
      contains `secs` shifted back by the cutover, computed in 32-bit
      integers. */
  function RunDate(secs: int): (r: int)
    ensures r % Day == 0
    // from 1970-01-01T08:00Z until the 32-bit range ends in January 2038
    ensures Cutover <= secs < TwoTo31 + Cutover ==> r <= secs - Cutover < r + Day
    // from 1901-12-14T04:45:52Z until 1970-01-01T08:00Z the quotient is
    // rounded up, toward zero
    ensures Cutover - TwoTo31 <= secs < Cutover ==> r - Day < secs - Cutover <= r
  {
    var t := ToInt32(secs - Cutover);
    var days := ToInt32(TruncDiv(t, Day));
    days * Day
  }

  /** The 32-bit arithmetic wraps once `secs - Cutover` reaches 2^31. From
      2038-01-19T11:14:08Z until 2106-02-06T14:28:16Z the service day comes
      out negative, and it is the one computed 2^32 seconds earlier. */
  lemma RunDateWraps(secs: int)
    requires TwoTo31 + Cutover <= secs <= TwoTo32 + Cutover - Day
    ensures RunDate(secs) < 0
    ensures RunDate(secs) == RunDate(secs - TwoTo32)
  {
  }

  /** The first wrapped instant, 2038-01-19T11:14:08Z, lands on the service
      day that starts at 1901-12-14T00:00Z: -2^31 rounded toward zero to a
      whole day. */
  lemma RunDateWrapsIn2038()
    ensures RunDate(TwoTo31 + Cutover) == -2147472000
    ensures RunDate(TwoTo31 + Cutover) < 0
  {
    assert ToInt32(TwoTo31) == -TwoTo31;
    assert TruncDiv(-TwoTo31, Day) == -24855;
  }

  /** The wrap at the other end of the range: one second before
      1901-12-14T04:45:52Z, `secs - Cutover` falls below -2^31 and the
      service day comes out as 2038-01-19T00:00Z, positive. */
  lemma RunDateWrapsBefore1901()
    ensures RunDate(Cutover - TwoTo31 - 1) == 2147472000
    ensures RunDate(Cutover - TwoTo31 - 1) > 0
  {
    assert ToInt32(-TwoTo31 - 1) == TwoTo31 - 1;
    assert TruncDiv(TwoTo31 - 1, Day) == 24855;
  }

  /** The two decorative markers removed from NJT destinations. */
  const SecMarker: string := "-SEC"
  const PlaneMarker: string := "&#9992"

  predicate MarkerAt(s: string, i: nat)
    requires i <= |s|
  {
    SecMarker <= s[i..] || PlaneMarker <= s[i..]
  }

  /** A global regular-expression replace of either marker by the empty
      string: the text is scanned once from left to right, each match is
      dropped and the scan resumes after it. */
  function StripMarkers(s: string): (r: string)
    ensures |r| <= |s|
    decreases |s|
  {
    if s == [] then []
    else if SecMarker <= s then StripMarkers(s[|SecMarker|..])
    else if PlaneMarker <= s then StripMarkers(s[|PlaneMarker|..])
    else [s[0]] + StripMarkers(s[1..])
  }

  /** A character where no marker starts is copied through. */
  lemma StripUnmarkedHead(s: string)
    requires s != [] && !MarkerAt(s, 0)
    ensures StripMarkers(s) == [s[0]] + StripMarkers(s[1..])
  {
    assert s[0..] == s;
  }

  /** Dropping the first character shifts every marker position by one. */
  lemma MarkerAtTail(s: string, i: nat)
    requires i + 1 <= |s|
    ensures MarkerAt(s, i + 1) == MarkerAt(s[1..], i)
  {
    assert s[i + 1..] == s[1..][i..];
  }

  /** A prefix free of markers stays so when its first character is dropped. */
  lemma UnmarkedTail(a: string, b: string)
    requires a != []
    requires forall i :: 0 <= i < |a| ==> !MarkerAt(a + b, i)
    ensures forall i :: 0 <= i < |a[1..]| ==> !MarkerAt(a[1..] + b, i)
  {
    var s := a + b;
    assert s[1..] == a[1..] + b;
    forall i | 0 <= i < |a| - 1
      ensures !MarkerAt(a[1..] + b, i)
    {
      MarkerAtTail(s, i);
    }
  }

  /** Text in front of which no marker starts is kept as it is. */
  lemma {:induction false} StripCleanPrefix(a: string, b: string)
    requires forall i :: 0 <= i < |a| ==> !MarkerAt(a + b, i)
    ensures StripMarkers(a + b) == a + StripMarkers(b)
    decreases |a|
  {
    if a != [] {
      StripCleanStep(a, b);
      StripCleanPrefix(a[1..], b);
      assert [a[0]] + (a[1..] + StripMarkers(b)) == a + StripMarkers(b);
    } else {
      assert a + b == b;
      assert a + StripMarkers(b) == StripMarkers(b);
    }
  }

  lemma StripCleanStep(a: string, b: string)
    requires a != []
    requires forall i :: 0 <= i < |a| ==> !MarkerAt(a + b, i)
    ensures StripMarkers(a + b) == [a[0]] + StripMarkers(a[1..] + b)
    ensures forall i :: 0 <= i < |a[1..]| ==> !MarkerAt(a[1..] + b, i)
  {
    var s := a + b;
    assert !MarkerAt(s, 0);
    assert s[1..] == a[1..] + b;
    StripUnmarkedHead(s);
    UnmarkedTail(a, b);
  }

  /** A text in which no marker starts at any position is unchanged. */
  lemma StripUnmarked(s: string)
    requires forall i :: 0 <= i < |s| ==> !MarkerAt(s, i)
    ensures StripMarkers(s) == s
  {
    assert s + [] == s;
    StripCleanPrefix(s, []);
  }

  /** A marker at the front is dropped. */
  lemma StripLeadingMarker(m: string, b: string)
    requires m == SecMarker || m == PlaneMarker
    ensures StripMarkers(m + b) == StripMarkers(b)
  {
    assert (m + b)[|m|..] == b;
    if m == PlaneMarker {
      assert !(SecMarker <= m + b);
    }
  }

  /** The scan does not look again at the text that a removal joins up, so
      a marker can survive. */
  lemma StripDoesNotRescan()
    ensures StripMarkers("-S-SECEC") == "-SEC"
  {
    var s := "-S-SECEC";
    assert s[2] != SecMarker[2] && s[0] != PlaneMarker[0];
    assert !(SecMarker <= s[1..]) && !(PlaneMarker <= s[1..]);
    assert SecMarker <= s[2..];
    assert s[2..][4..] == "EC";
    assert !(SecMarker <= "EC") && !(PlaneMarker <= "EC");
    assert !(SecMarker <= "C") && !(PlaneMarker <= "C");
    assert "EC"[1..] == "C";
    assert "C"[1..] == [];
    assert StripMarkers("EC") == "EC";
  }

  /** The characters JavaScript's `String.prototype.trim` removes: white
      space and line terminators. */
  predicate IsJsSpace(c: char) {
    || c == '\t' || c == '\n' || c == '\U{B}' || c == '\U{C}' || c == '\r' || c == ' '
    || c == '\U{A0}' || c == '\U{1680}' || ('\U{2000}' <= c <= '\U{200A}')
    || c == '\U{2028}' || c == '\U{2029}' || c == '\U{202F}' || c == '\U{205F}'
    || c == '\U{3000}' || c == '\U{FEFF}'
  }

  /** The length of the white-space run at the start of `s`. */
  function LeadingSpaces(s: string): (n: nat)
    ensures n <= |s|
    ensures forall k :: 0 <= k < n ==> IsJsSpace(s[k])
    ensures n < |s| ==> !IsJsSpace(s[n])
  {
    if s == [] || !IsJsSpace(s[0]) then 0 else 1 + LeadingSpaces(s[1..])
  }

  /** The length of the white-space run at the end of `s`. */
  function TrailingSpaces(s: string): (n: nat)
    ensures n <= |s|
    ensures forall k :: |s| - n <= k < |s| ==> IsJsSpace(s[k])
    ensures n < |s| ==> !IsJsSpace(s[|s| - 1 - n])
  {
    if s == [] || !IsJsSpace(s[|s| - 1]) then 0 else 1 + TrailingSpaces(s[..|s| - 1])
  }

  /** `r` is the slice of `s` starting at `i`, and `s` holds only white space
      before and after that slice. */
  ghost predicate TrimmedFrom(s: string, r: string, i: nat) {
    && i + |r| <= |s|
    && r == s[i..i + |r|]
    && (forall k :: 0 <= k < i ==> IsJsSpace(s[k]))
    && (forall k :: i + |r| <= k < |s| ==> IsJsSpace(s[k]))
  }

  /** `String.prototype.trim`. */
  function Trim(s: string): (r: string)
    ensures TrimmedFrom(s, r, LeadingSpaces(s))
    ensures r == [] || (!IsJsSpace(r[0]) && !IsJsSpace(r[|r| - 1]))
  {
    var rest := s[LeadingSpaces(s)..];
    rest[..|rest| - TrailingSpaces(rest)]
  }

  lemma TrimIdempotent(s: string)
    ensures Trim(Trim(s)) == Trim(s)
  {
    var r := Trim(s);
    assert LeadingSpaces(r) == 0;
    assert r[0..] == r;
    assert TrailingSpaces(r) == 0;
    assert r[..|r|] == r;
  }

  /** The destination as stored: markers removed, then trimmed. */
  function CleanDestination(s: string): (r: string)
    ensures |r| <= |s|
    ensures r == [] || (!IsJsSpace(r[0]) && !IsJsSpace(r[|r| - 1]))
  {
    Trim(StripMarkers(s))
  }

  lemma StripExample()
    ensures StripMarkers("Trenton -SEC") == "Trenton "
  {
    var a, b := "Trenton ", "-SEC";
    assert a + b == "Trenton -SEC";
    forall i | 0 <= i < |a|
      ensures !MarkerAt(a + b, i)
    {
      assert (a + b)[i] != '-' && (a + b)[i] != '&';
    }
    StripCleanPrefix(a, b);
    StripLeadingMarker(b, []);
    assert b + [] == b;
  }

  lemma CleanDestinationExample()
    ensures CleanDestination("Trenton -SEC") == "Trenton"
  {
    StripExample();
    assert LeadingSpaces("Trenton ") == 0;
    assert TrailingSpaces("Trenton "[..7]) == 0;
    assert TrailingSpaces("Trenton ") == 1;
  }

  /** One item of the NJT departure board. `schedDepSecs` is the item's
      SCHED_DEP_DATE read in the current New York offset, as epoch seconds. */
  datatype NjtItem = NjtItem(
    trainId: Option<string>,
    schedDepSecs: int,
    line: Option<string>,
    destination: Option<string>,
    track: Option<string>,
    secLate: Option<int>,
    status: Option<string>)

  /** The TypeError the record builder throws when a field it dereferences
      without a guard is missing. */
  datatype NjtError = TrainIdMissing | DestinationMissing | StatusMissing

  /** Trains whose id starts with 'A' are Amtrak trains sharing the line. */
  predicate AmtrakPrefixed(id: string) {
    |id| > 0 && id[0] == 'A'
  }

  /** The record built for one board item, or the error thrown while building it. */
  function NjtRecord(item: NjtItem): (r: Result<TrainUpdate, NjtError>)
    ensures r.Success? <==> item.trainId.Some? && item.destination.Some? && item.status.Some?
    // the error names the first missing field in the order they are read
    ensures r.Failure? ==> (r.error == TrainIdMissing <==> item.trainId.None?)
    ensures r.Success? ==> r.value.stop == "NY" && r.value.trainTime == item.schedDepSecs
  {
    if item.trainId.None? then Failure(TrainIdMissing)
    else if item.destination.None? then Failure(DestinationMissing)
    else if item.status.None? then Failure(StatusMissing)
    else
      var id := item.trainId.value;
      var amtrak := AmtrakPrefixed(id);
      Success(TrainUpdate(
        stop := "NY",
        operator := if amtrak then "Amtrak" else "NJT",
        runDate := RunDate(item.schedDepSecs),
        trainNo := if amtrak then id[1..] else id,
        trainTime := item.schedDepSecs,
        route := item.line,
        origin := Some("NY"),
        destination := Some(CleanDestination(item.destination.value)),
        consist := None,
        track := if item.track == Some("") then None else item.track,
        otp := item.secLate,
        canceled := Some("CANCEL" <= item.status.value),
        passengers := None,
        loadingDesc := None,
        doUpdate := Some("yes")))
  }

  /** The train a built NJT record names: an id starting with 'A' is an
      Amtrak train, stored under the rest of the id; any other id is an NJT
      train stored as it is. */
  lemma NjtRecordIdentity(item: NjtItem)
    requires NjtRecord(item).Success?
    ensures
      var t := NjtRecord(item).value;
      var id := item.trainId.value;
      && (AmtrakPrefixed(id) ==> t.operator == "Amtrak" && ['A'] + t.trainNo == id)
      && (!AmtrakPrefixed(id) ==> t.operator == "NJT" && t.trainNo == id)
  {
    var id := item.trainId.value;
    if AmtrakPrefixed(id) {
      assert ['A'] + id[1..] == id;
    }
  }

  /** A train is cancelled exactly when its status starts with "CANCEL",
      case-sensitively; the flag is never NULL. */
  lemma NjtRecordCanceled(item: NjtItem)
    requires NjtRecord(item).Success?
    ensures NjtRecord(item).value.canceled.Some?
    ensures NjtRecord(item).value.canceled == Some(true) <==>
      |item.status.value| >= 6 && item.status.value[..6] == "CANCEL"
  {
  }

  /** The fixed values of an NJT record: Penn Station as stop and origin,
      no consist or load, the overwrite policy; an empty or missing track is
      stored as NULL, and the run date is a whole day. */
  lemma NjtRecordFixed(item: NjtItem)
    requires NjtRecord(item).Success?
    ensures
      var t := NjtRecord(item).value;
      && t.stop == "NY" && t.origin == Some("NY") && t.consist.None?
      && t.doUpdate == Some("yes") && PolicyOf(t.doUpdate) == OverwriteCoalesce
      && t.passengers.None? && t.loadingDesc.None?
      && (t.track.None? <==> item.track.None? || item.track == Some(""))
      && t.runDate % Day == 0
      && t.trainTime == item.schedDepSecs
  {
  }

  /** `ITEMS.map(...)`: the records of the whole board, or the error of the
      first item whose record cannot be built (the whole map then throws). */
  function NjtRecords(items: seq<NjtItem>): (r: Result<seq<TrainUpdate>, NjtError>)
    ensures r.Success? ==>
      && |r.value| == |items|
      && forall i :: 0 <= i < |items| ==> NjtRecord(items[i]) == Success(r.value[i])
    ensures r.Failure? ==>
      exists i :: 0 <= i < |items| && NjtRecord(items[i]) == Failure(r.error)
        && forall j :: 0 <= j < i ==> NjtRecord(items[j]).Success?
    ensures r.Success? <==> forall i :: 0 <= i < |items| ==> NjtRecord(items[i]).Success?
  {
    var outcomes := NjtOutcomes(items);
    CollectMeaning(outcomes);
    Collect(outcomes)
  }

  /** The record outcome of each item, in board order. */
  function NjtOutcomes(items: seq<NjtItem>): (r: seq<Result<TrainUpdate, NjtError>>)
    ensures |r| == |items|
    ensures forall i :: 0 <= i < |items| ==> r[i] == NjtRecord(items[i])
  {
    seq(|items|, i requires 0 <= i < |items| => NjtRecord(items[i]))
  }
}
