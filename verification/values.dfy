/** Values shared by the store and the feed normalizers: optional values
    (SQL NULL / JavaScript null and undefined), results with an error value
    (a thrown TypeError), and the JSON values the normalizers serialize. */
module Values {

  /** `None` stands for SQL NULL and for JavaScript `null` / `undefined`. */
  datatype Option<+T> = None | Some(value: T) {
    function GetOr(default: T): T {
      match this
      case Some(v) => v
      case None => default
    }
  }

  datatype Result<+R, +E> = Success(value: R) | Failure(error: E)

  /** A JSON value. A column that holds `JSON.stringify(v)` is modelled by
      `v` itself: the serialization is injective on these values, so two
      stored texts are equal exactly when the values are. Note that
      `JSON.stringify(null)` is the four-character text "null", i.e.
      `Some(JNull)` in a column, which is not SQL NULL. */
  datatype Json = JNull | JNum(n: int) | JStr(s: string) | JArr(items: seq<Json>)

  /** SQL `coalesce(a, b)`: the first non-NULL argument. */
  function Coalesce<T>(a: Option<T>, b: Option<T>): Option<T>
  {
    if a.Some? then a else b
  }

  /** The outcomes of a list of independent steps, stopped at the first
      failure. */
  function Collect<T, E>(results: seq<Result<T, E>>): Result<seq<T>, E>
  {
    if results == [] then Success([])
    else
      match results[0]
      case Failure(e) => Failure(e)
      case Success(t) =>
        match Collect(results[1..])
        case Success(rest) => Success([t] + rest)
        case Failure(e) => Failure(e)
  }

  lemma {:induction false} CollectMeaning<T, E>(results: seq<Result<T, E>>)
    ensures Collect(results).Success? <==> forall i :: 0 <= i < |results| ==> results[i].Success?
    ensures Collect(results).Success? ==>
      && |Collect(results).value| == |results|
      && forall i :: 0 <= i < |results| ==> results[i] == Success(Collect(results).value[i])
    ensures Collect(results).Failure? ==>
      exists i :: 0 <= i < |results| && results[i] == Failure(Collect(results).error)
        && forall j :: 0 <= j < i ==> results[j].Success?
    decreases |results|
  {
    if results != [] {
      var rest := results[1..];
      CollectMeaning(rest);
      assert forall i :: 1 <= i < |results| ==> rest[i - 1] == results[i];
      if results[0].Success? && Collect(rest).Failure? {
        var i :| 0 <= i < |rest| && rest[i] == Failure(Collect(rest).error)
          && forall j :: 0 <= j < i ==> rest[j].Success?;
        assert results[i + 1] == Failure(Collect(results).error);
        forall j | 0 <= j < i + 1
          ensures results[j].Success?
        {
          if j > 0 {
            assert results[j] == rest[j - 1];
          }
        }
      }
    }
  }
}
