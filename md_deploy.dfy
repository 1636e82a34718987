/** `md_deploy.py`: the deployed application's `getRecentISF` route, which
    reports the quartiles of the recent ISF values of one time bucket as a
    JSON object.  Its quartile lines are those of `md.py`. */
module MdDeploy {
  import opened Common
  import Isf2
  import Md

  /** The dictionary `jsonify` turns into the response. */
  datatype Response = Response(
    q1: real, q2: real, q3: real,
    timeBucket: int, weeksOfData: int, numberOfData: nat,
    minNumberOfData: int, minWeeksOfData: int,
    timestampOfCalculation: Option<string>)

  /** The fixed answer of the example branch (taken only when
      `return_example_result` is set, which the code leaves `False`). */
  function ExampleResponse(timeBucket: int, minWeeks: int, minData: int): (r: Response)
    ensures (r.q1, r.q2, r.q3) == (4.0, 24.0, 48.0) && r.weeksOfData == 5 && r.numberOfData == 55
    ensures r.timeBucket == timeBucket && r.minNumberOfData == minData && r.minWeeksOfData == minWeeks
    ensures r.timestampOfCalculation.None?
  {
    Response(4.0, 24.0, 48.0, timeBucket, 5, 55, minData, minWeeks, None)
  }

  /** `getRecentISF(time_bucket, min_weeks, min_data)`: `isfs` is what the
      bucket's query fetches for a number of weeks (see `Isf2.GetRecentIsf`),
      `fuel` bounds its recursion and `now` is the `strftime` of the
      current time. */
  function GetRecentIsf(isfs: int -> seq<real>, timeBucket: int, minWeeks: nat, minData: int, fuel: nat, now: string): (r: Result<Response>)
    ensures Isf2.GetRecentIsf(isfs, minWeeks, minData, fuel).Err? ==> r.Err?
    ensures Isf2.GetRecentIsf(isfs, minWeeks, minData, fuel).Ok? ==>
      var (weeks, vals) := Isf2.GetRecentIsf(isfs, minWeeks, minData, fuel).value;
      (r.Ok? <==> |vals| >= 3) &&
      (r.Ok? ==> (r.value.weeksOfData == weeks && r.value.numberOfData == |vals| &&
                  (r.value.q1, r.value.q2, r.value.q3) == Md.Quartiles(vals).value))
    ensures r.Ok? ==> (r.value.timeBucket == timeBucket && r.value.minNumberOfData == minData &&
                       r.value.minWeeksOfData == minWeeks && r.value.timestampOfCalculation == Some(now))
  {
    match Isf2.GetRecentIsf(isfs, minWeeks, minData, fuel)
    case Err(e) => Err(e)
    case Ok((weeksOfData, isfVals)) =>
      match Md.Quartiles(isfVals)
      case Err(e) => Err(e)
      case Ok((q1, q2, q3)) =>
        Ok(Response(q1, q2, q3, timeBucket, weeksOfData, |isfVals|, minData, minWeeks, Some(now)))
  }

  /** When at least three values are required, a search that succeeds
      always has its quartiles, and as the values come sorted the three
      are in order. */
  lemma AnswersWithEnoughData(isfs: int -> seq<real>, timeBucket: int, minWeeks: nat, minData: int, fuel: nat, now: string)
    requires minData >= 3 && Isf2.GetRecentIsf(isfs, minWeeks, minData, fuel).Ok?
    ensures GetRecentIsf(isfs, timeBucket, minWeeks, minData, fuel, now).Ok?
    ensures var r := GetRecentIsf(isfs, timeBucket, minWeeks, minData, fuel, now).value;
      r.q1 <= r.q2 <= r.q3
  {
    var res := Isf2.GetRecentIsf(isfs, minWeeks, minData, fuel).value;
    assert Isf2.Answers(isfs, minData, minWeeks / 2, res);
    var vals := res.1;
    var k := Md.QuartileStep(|vals|);
    assert 0 <= k <= 2 * k <= 3 * k < |vals|;
    assert vals[k] <= vals[2 * k] <= vals[3 * k];
  }
}
