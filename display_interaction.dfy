/** `displayRecentISF/interaction.js`: the earlier, display-only version of
    the ISF page.  Its `bucketTime`, `placeElt`, `placeQuartiles` and
    `dateStr` are those of `IsfInteraction`; what differs is the date-time
    text, the page update that assumes every element exists, and handlers
    that only store and show the value.  The request branch of `loadData`
    is switched off by `if (false)`. */
module DisplayInteraction {
  import opened Common
  import Plots
  import IsfInteraction

  /** `ajax_response`: every field the page shows. */
  datatype Response = Response(
    q1: IsfInteraction.JsInt, q2: IsfInteraction.JsInt, q3: IsfInteraction.JsInt,
    timeBucket: IsfInteraction.JsInt, weeksOfData: IsfInteraction.JsInt, numberOfData: IsfInteraction.JsInt, minNumberOfData: IsfInteraction.JsInt,
    timestampOfCalculation: Option<string>)

  /** `example_ajax_response`. */
  const ExampleResponse := Response(IsfInteraction.Int(4), IsfInteraction.Int(24), IsfInteraction.Int(48), IsfInteraction.Int(0), IsfInteraction.Int(4), IsfInteraction.Int(55), IsfInteraction.Int(50), None)

  /** What `textContent = value` shows: a number's text, and nothing for
      `null`. */
  function TimestampText(t: Option<string>): string
  {
    match t
    case None => ""
    case Some(s) => s
  }

  /** `for (let p in data)`: the keys in the order the object literal gives
      them, each with the text of its value. */
  function Entries(r: Response): (e: seq<(string, string)>)
    ensures |e| == 8
    ensures forall i, j :: 0 <= i < j < |e| ==> e[i].0 != e[j].0
    ensures e[6] == ("min_number_of_data", IsfInteraction.JsText(r.minNumberOfData))
    ensures e[7] == ("timestamp_of_calculation", TimestampText(r.timestampOfCalculation))
  {
    [("Q1", IsfInteraction.JsText(r.q1)), ("Q2", IsfInteraction.JsText(r.q2)), ("Q3", IsfInteraction.JsText(r.q3)),
     ("time_bucket", IsfInteraction.JsText(r.timeBucket)), ("weeks_of_data", IsfInteraction.JsText(r.weeksOfData)),
     ("number_of_data", IsfInteraction.JsText(r.numberOfData)), ("min_number_of_data", IsfInteraction.JsText(r.minNumberOfData)),
     ("timestamp_of_calculation", TimestampText(r.timestampOfCalculation))]
  }

  /** The element texts after writing `data` in order, and whether every key
      had an element: the first key with no element ends the loop with a
      `TypeError`, keeping what was written before it. */
  function Written(text: map<string, string>, data: seq<(string, string)>): (r: (map<string, string>, bool))
    ensures r.0.Keys == text.Keys
    ensures r.1 <==> forall i :: 0 <= i < |data| ==> data[i].0 in text
    decreases |data|
  {
    if data == [] then (text, true)
    else if data[0].0 !in text then (text, false)
    else
      var r := Written(text[data[0].0 := data[0].1], data[1..]);
      assert forall i :: 1 <= i < |data| ==> data[1..][i - 1] == data[i];
      r
  }

  /** When every key has an element and no key repeats, each element named
      by a key shows that key's value, and every other element keeps its
      text. */
  lemma {:induction false} WrittenValues(text: map<string, string>, data: seq<(string, string)>)
    requires forall i :: 0 <= i < |data| ==> data[i].0 in text
    requires forall i, j :: 0 <= i < j < |data| ==> data[i].0 != data[j].0
    ensures forall i :: 0 <= i < |data| ==> Written(text, data).0[data[i].0] == data[i].1
    ensures forall k :: k in text && (forall i :: 0 <= i < |data| ==> data[i].0 != k) ==> Written(text, data).0[k] == text[k]
    decreases |data|
  {
    if data != [] {
      var t := text[data[0].0 := data[0].1];
      assert forall i :: 1 <= i < |data| ==> data[1..][i - 1] == data[i];
      WrittenValues(t, data[1..]);
      assert Written(text, data) == Written(t, data[1..]);
    }
  }

  /** `$(selector).text(t)`: an element that is not there is skipped. */
  function Label(text: map<string, string>, id: string, t: string): (r: map<string, string>)
    ensures r.Keys == text.Keys
    ensures id in text ==> r[id] == t
    ensures forall k :: k in text && k != id ==> r[k] == text[k]
  {
    if id in text then text[id := t] else text
  }

  /** The label an input handler writes reads back, with `parseInt`, as the
      value it stored. */
  lemma LabelShowsValue(text: map<string, string>, id: string, v: IsfInteraction.JsInt)
    requires id in text
    ensures IsfInteraction.JsParseInt(Label(text, id, IsfInteraction.JsText(v))[id]) == v
  {
    IsfInteraction.ParseIntOfText(v);
  }

  /** `niceDateTimeStr(d)`: `now` is the current time; `timeString` and
      `dateString` are `d.toTimeString()` and `d.toDateString()`. */
  function NiceDateTimeStr(d: Plots.JsDate, now: Plots.JsDate, timeString: string, dateString: string): (r: string)
    requires now.Valid()
    ensures d.month < 100 && d.date < 100 && IsfInteraction.SameDay(d, now) ==> r == "Today at " + timeString
    ensures d.month < 100 && d.date < 100 && !IsfInteraction.SameDay(d, now) && IsfInteraction.SameDay(d, IsfInteraction.Yesterday(now)) ==>
      r == "Yesterday at " + timeString
    ensures d.month < 100 && d.date < 100 && !IsfInteraction.SameDay(d, now) && !IsfInteraction.SameDay(d, IsfInteraction.Yesterday(now)) ==>
      r == FullStr(dateString, timeString)
  {
    IsfInteraction.DateStrSameDay(now, d);
    IsfInteraction.DateStrSameDay(IsfInteraction.Yesterday(now), d);
    if IsfInteraction.DateStr(now) == IsfInteraction.DateStr(d) then "Today at " + timeString
    else if IsfInteraction.DateStr(IsfInteraction.Yesterday(now)) == IsfInteraction.DateStr(d) then "Yesterday at " + timeString
    else FullStr(dateString, timeString)
  }

  /** `fullStr(d)`. */
  function FullStr(dateString: string, timeString: string): string
  {
    dateString + " " + timeString
  }

  /** For today and yesterday both pages give the same text when the two
      time strings agree. */
  lemma NiceAgreesWithIsfPage(d: Plots.JsDate, now: Plots.JsDate, timeString: string, dateString: string, localeDate: string)
    requires now.Valid() && d.Valid()
    requires IsfInteraction.SameDay(d, now) || IsfInteraction.SameDay(d, IsfInteraction.Yesterday(now))
    ensures NiceDateTimeStr(d, now, timeString, dateString) == IsfInteraction.NiceDateTimeStr(d, now, timeString, localeDate)
  {
  }

  /** The page's state: `ajax_response`, `load_time_of_data`, the text of
      each element by id, and the value of `#input_min_number_of_data`. */
  class Page {
    var response: Response
    var loadTimeOfData: Option<Plots.JsDate>
    var text: map<string, string>
    var inputMinNumberOfData: string

    constructor (text: map<string, string>, inputMinNumberOfData: string)
      ensures response == ExampleResponse && loadTimeOfData.None?
      ensures this.text == text && this.inputMinNumberOfData == inputMinNumberOfData
    {
      response := ExampleResponse;
      loadTimeOfData := None;
      this.text := text;
      this.inputMinNumberOfData := inputMinNumberOfData;
    }

    /** `updatePage(data)`: writes each value into the element with its
        key's id, then copies `min_number_of_data` into the input.  A key
        with no element raises `TypeError` and stops the update. */
    method UpdatePage(data: seq<(string, string)>) returns (r: Result<()>)
      modifies this
      ensures (text, r.Ok?) == Written(old(text), data)
      ensures r.Err? ==> r.error == TypeError && inputMinNumberOfData == old(inputMinNumberOfData)
      ensures r.Ok? ==> inputMinNumberOfData == IsfInteraction.JsText(response.minNumberOfData)
      ensures response == old(response) && loadTimeOfData == old(loadTimeOfData)
    {
      var i := 0;
      while i < |data|
        invariant 0 <= i <= |data|
        invariant Written(old(text), data) == Written(text, data[i..])
        invariant response == old(response) && loadTimeOfData == old(loadTimeOfData)
        invariant inputMinNumberOfData == old(inputMinNumberOfData)
      {
        var (id, value) := data[i];
        assert data[i..][0] == data[i] && data[i..][1..] == data[i + 1..];
        if id !in text {
          return Err(TypeError);
        }
        text := text[id := value];
        i := i + 1;
      }
      inputMinNumberOfData := IsfInteraction.JsText(response.minNumberOfData);
      return Ok(());
    }

    /** `loadData()`'s live branch: stamps the response with the nice text
        of the load time `d` (read against the current time `now`) and
        shows the response. */
    method LoadData(d: Plots.JsDate, now: Plots.JsDate, timeString: string, dateString: string) returns (r: Result<()>)
      requires now.Valid()
      modifies this
      ensures loadTimeOfData == Some(d)
      ensures response == old(response).(timestampOfCalculation := Some(NiceDateTimeStr(d, now, timeString, dateString)))
      ensures (text, r.Ok?) == Written(old(text), Entries(response))
      ensures r.Err? ==> r.error == TypeError
      ensures r.Ok? ==> inputMinNumberOfData == IsfInteraction.JsText(response.minNumberOfData)
    {
      loadTimeOfData := Some(d);
      response := response.(timestampOfCalculation := Some(NiceDateTimeStr(d, now, timeString, dateString)));
      r := UpdatePage(Entries(response));
    }

    /** The change handler of `#input_min_number_of_data`. */
    method ChangeMinNumberOfData(str: string)
      modifies this
      ensures response == old(response).(minNumberOfData := IsfInteraction.JsParseInt(str))
      ensures text == Label(old(text), "min_number_of_data", IsfInteraction.JsText(IsfInteraction.JsParseInt(str)))
      ensures loadTimeOfData == old(loadTimeOfData) && inputMinNumberOfData == old(inputMinNumberOfData)
    {
      var num := IsfInteraction.JsParseInt(str);
      response := response.(minNumberOfData := num);
      text := Label(text, "min_number_of_data", IsfInteraction.JsText(num));
    }

    /** The change handler of `#input_weeks_of_data`. */
    method ChangeWeeksOfData(str: string)
      modifies this
      ensures response == old(response).(weeksOfData := IsfInteraction.JsParseInt(str))
      ensures text == Label(old(text), "weeks_of_data", IsfInteraction.JsText(IsfInteraction.JsParseInt(str)))
      ensures loadTimeOfData == old(loadTimeOfData) && inputMinNumberOfData == old(inputMinNumberOfData)
    {
      var num := IsfInteraction.JsParseInt(str);
      response := response.(weeksOfData := num);
      text := Label(text, "weeks_of_data", IsfInteraction.JsText(num));
    }

    /** The change handler of the time-bucket menu. */
    method ChangeTimeBucket(str: string)
      modifies this
      ensures response == old(response).(timeBucket := IsfInteraction.JsParseInt(str))
      ensures text == Label(old(text), "time_bucket", IsfInteraction.JsText(IsfInteraction.JsParseInt(str)))
      ensures loadTimeOfData == old(loadTimeOfData) && inputMinNumberOfData == old(inputMinNumberOfData)
    {
      var num := IsfInteraction.JsParseInt(str);
      response := response.(timeBucket := num);
      text := Label(text, "time_bucket", IsfInteraction.JsText(num));
    }
  }

  /** A page that has an element for every field shows the whole response
      after an update, timestamp last. */
  lemma UpdateShowsResponse(text: map<string, string>, r: Response)
    requires forall i :: 0 <= i < 8 ==> Entries(r)[i].0 in text
    ensures Written(text, Entries(r)).1
    ensures Written(text, Entries(r)).0["min_number_of_data"] == IsfInteraction.JsText(r.minNumberOfData)
    ensures Written(text, Entries(r)).0["timestamp_of_calculation"] == TimestampText(r.timestampOfCalculation)
  {
    WrittenValues(text, Entries(r));
    assert Entries(r)[6].0 == "min_number_of_data";
    assert Entries(r)[7].0 == "timestamp_of_calculation";
  }
}
