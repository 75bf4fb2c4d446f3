/**
 * The weather tool (tools/weather_tool.py): a geocoding lookup turns the place
 * name into coordinates, a second lookup gives the current weather there, and
 * the reply is a short report or one of four fixed messages.
 *
 * Both lookups are parameters: `geocode` gives the decoded geocoding reply for
 * a place name, `current` the decoded weather reply for a pair of coordinates.
 * The readings (temperature, humidity, ...) are kept as the text Python would
 * print for them.
 */
module WeatherTool {
  import opened Wrappers
  import opened Text
  import Tooling

  const Descriptor: Tooling.Tool :=
    Tooling.Tool("get_weather", "Useful for when you need to get the current weather in a specific location.")

  /** The reply when no API key is configured (the misspelling is the program's own). */
  const Unavailable: string :=
    "Sorry, the weather service is not available at the moment. Confifure the API key and try again."

  function NotFound(location: string): string {
    "Could not find the location: " + location
  }

  function ConnectionError(location: string): string {
    "Error getting the weather at " + location + ". Could not connect to the weather service."
  }

  function GenericError(location: string): string {
    "Error getting the weather at " + location + "."
  }

  /** One entry of the geocoding reply; a missing `lat` or `lon` key is `None`. */
  datatype Place = Place(lat: Option<real>, lon: Option<real>)

  /** The decoded geocoding reply, or any failure (HTTP status, network, JSON). */
  datatype GeoResponse = GeoOk(places: seq<Place>) | GeoFailed(error: string)

  datatype Coordinates = Coordinates(lat: real, lon: real)

  /** `get_coordinates`: the coordinates of the first place found. An empty
      reply, a missing key and any failure all give no coordinates. */
  function GetCoordinates(reply: GeoResponse): (r: Option<Coordinates>)
    ensures r.Some? <==> (&& reply.GeoOk? && reply.places != []
                          && reply.places[0].lat.Some? && reply.places[0].lon.Some?)
    ensures r.Some? ==> r.value == Coordinates(reply.places[0].lat.value, reply.places[0].lon.value)
  {
    match reply
    case GeoFailed(_) => None
    case GeoOk(places) =>
      if places == [] then None
      else
        match (places[0].lat, places[0].lon)
        case (Some(lat), Some(lon)) => Some(Coordinates(lat, lon))
        case _ => None
  }

  /** `if not lat or not lon`: a zero coordinate counts as not found. */
  predicate Found(c: Option<Coordinates>) {
    c.Some? && c.value.lat != 0.0 && c.value.lon != 0.0
  }

  /** An entry of the reply's `weather` list. */
  datatype Condition = Condition(description: Option<string>)

  /** The decoded weather reply; a missing key is `None` (`sys.country` is `None`
      when `sys` itself is missing). */
  datatype WeatherData = WeatherData(
    name: Option<string>,
    country: Option<string>,
    conditions: Option<seq<Condition>>,
    temp: Option<string>,
    feelsLike: Option<string>,
    humidity: Option<string>,
    windSpeed: Option<string>)

  /** The decoded weather reply, an HTTP error status, or any other failure. */
  datatype WeatherResponse = WeatherOk(data: WeatherData) | WeatherHttpError | WeatherFailed(error: string)

  /** The condition description: `''` when the `weather` list is missing, nothing
      when it is present but empty (reading its first entry raises). */
  function Description(d: WeatherData): (r: Option<string>)
    ensures r.None? <==> d.conditions == Some([])
  {
    match d.conditions
    case None => Some("")
    case Some(cs) => if cs == [] then None else Some(cs[0].description.GetOr(""))
  }

  function Upper(c: char): char {
    if 'a' <= c <= 'z' then (c as int - 32) as char else c
  }

  function Lower(c: char): char {
    if 'A' <= c <= 'Z' then (c as int + 32) as char else c
  }

  /** `str.capitalize()`: the first character in upper case, the others in lower case. */
  function Capitalize(s: string): (r: string)
    ensures |r| == |s|
    ensures forall i :: 0 <= i < |s| ==> r[i] == (if i == 0 then Upper(s[i]) else Lower(s[i]))
  {
    seq(|s|, i requires 0 <= i < |s| => if i == 0 then Upper(s[i]) else Lower(s[i]))
  }

  /** The first line of the report: the place (the name in the reply, else the
      requested location), its country when there is one, and the condition. */
  function Header(location: string, d: WeatherData, description: string): string {
    var country := d.country.GetOr("");
    "Weather in " + d.name.GetOr(location) + (if country != "" then ", " + country else "")
      + ":\n\U{2022} Condition: " + Capitalize(description) + "\n"
  }

  /** An optional reading: its caption, its value if the reply has it, and what follows the value. */
  datatype Reading = Reading(caption: string, value: Option<string>, suffix: string)

  /** The optional readings, in the order the report gives them. */
  function Readings(d: WeatherData): seq<Reading> {
    [ Reading("\U{2022} Temperature: ", d.temp, "\U{b0}C\n"),
      Reading("\U{2022} Feels like: ", d.feelsLike, "\U{b0}C\n"),
      Reading("\U{2022} Humidity: ", d.humidity, "%\n"),
      Reading("\U{2022} Wind speed: ", d.windSpeed, " m/s") ]
  }

  function ReadingLine(r: Reading): string
    requires r.value.Some?
  {
    r.caption + r.value.value + r.suffix
  }

  /** The lines of the readings that are present, in order. */
  function PresentLines(rs: seq<Reading>): seq<string>
    decreases |rs|
  {
    if rs == [] then []
    else (if rs[0].value.Some? then [ReadingLine(rs[0])] else []) + PresentLines(rs[1..])
  }

  /** How many of the readings are present. */
  function CountPresent(rs: seq<Reading>): nat
    decreases |rs|
  {
    if rs == [] then 0 else (if rs[0].value.Some? then 1 else 0) + CountPresent(rs[1..])
  }

  /** The report for a successful reply whose condition list is not empty. */
  function Report(location: string, d: WeatherData): string
    requires Description(d).Some?
  {
    Header(location, d, Description(d).value) + Concat(PresentLines(Readings(d)))
  }

  /** One line per present reading and none for an absent one. */
  lemma {:induction false} PresentLinesCount(rs: seq<Reading>)
    ensures |PresentLines(rs)| == CountPresent(rs)
    decreases |rs|
  {
    if rs != [] {
      PresentLinesCount(rs[1..]);
    }
  }

  /** A present reading's line comes after exactly the lines of the present
      readings before it. */
  lemma {:induction false} PresentLineAt(rs: seq<Reading>, k: nat)
    requires k < |rs| && rs[k].value.Some?
    ensures CountPresent(rs[..k]) < |PresentLines(rs)|
    ensures PresentLines(rs)[CountPresent(rs[..k])] == ReadingLine(rs[k])
    decreases |rs|
  {
    var head := if rs[0].value.Some? then [ReadingLine(rs[0])] else [];
    assert PresentLines(rs) == head + PresentLines(rs[1..]);
    if k > 0 {
      PresentLineAt(rs[1..], k - 1);
      assert rs[..k][1..] == rs[1..][..k - 1];
      assert CountPresent(rs[..k]) == |head| + CountPresent(rs[1..][..k - 1]);
    }
  }

  /** Every line of the readings belongs to a present reading. */
  lemma {:induction false} PresentLinesFromReadings(rs: seq<Reading>, j: nat)
    requires j < |PresentLines(rs)|
    ensures exists k :: 0 <= k < |rs| && rs[k].value.Some? && PresentLines(rs)[j] == ReadingLine(rs[k])
    decreases |rs|
  {
    var head := if rs[0].value.Some? then [ReadingLine(rs[0])] else [];
    assert PresentLines(rs) == head + PresentLines(rs[1..]);
    if j < |head| {
      assert PresentLines(rs)[j] == ReadingLine(rs[0]);
    } else {
      PresentLinesFromReadings(rs[1..], j - |head|);
      var k :| 0 <= k < |rs[1..]| && rs[1..][k].value.Some? && PresentLines(rs[1..])[j - |head|] == ReadingLine(rs[1..][k]);
      assert rs[k + 1] == rs[1..][k];
    }
  }

  /** Adding one more reading adds its line exactly when it is present. */
  lemma {:induction false} PresentLinesSnoc(rs: seq<Reading>, r: Reading)
    ensures PresentLines(rs + [r]) == PresentLines(rs) + (if r.value.Some? then [ReadingLine(r)] else [])
    decreases |rs|
  {
    if rs == [] {
      assert [r][1..] == [];
    } else {
      assert (rs + [r])[1..] == rs[1..] + [r] && (rs + [r])[0] == rs[0];
      PresentLinesSnoc(rs[1..], r);
      SeqAssoc(if rs[0].value.Some? then [ReadingLine(rs[0])] else [],
               PresentLines(rs[1..]), if r.value.Some? then [ReadingLine(r)] else []);
    }
  }

  lemma SeqAssoc(x: seq<string>, y: seq<string>, z: seq<string>)
    ensures x + (y + z) == (x + y) + z
  {
  }

  /** One step of building the report: appending the line of reading `k` when
      it is present extends the report over the first `k` readings to the first
      `k + 1`. */
  lemma ReportStep(header: string, rs: seq<Reading>, k: nat, r: Reading, before: string, after: string)
    requires k < |rs| && rs[k] == r
    requires before == header + Concat(PresentLines(rs[..k]))
    requires after == if r.value.Some? then before + ReadingLine(r) else before
    ensures after == header + Concat(PresentLines(rs[..k + 1]))
  {
    var lines := PresentLines(rs[..k]);
    assert PresentLines(rs[..k + 1]) == lines + (if r.value.Some? then [ReadingLine(r)] else []) by {
      assert rs[..k + 1] == rs[..k] + [r];
      PresentLinesSnoc(rs[..k], r);
    }
    if r.value.Some? {
      ConcatThen(header, lines, ReadingLine(r));
    } else {
      assert lines + [] == lines;
    }
  }

  /** A line appended after a header and some lines. */
  lemma ConcatThen(header: string, lines: seq<string>, line: string)
    ensures header + Concat(lines + [line]) == header + Concat(lines) + line
  {
    ConcatSnoc(lines, line);
  }

  lemma ReportStart(header: string, rs: seq<Reading>)
    ensures header == header + Concat(PresentLines(rs[..0]))
  {
    assert rs[..0] == [];
    assert Concat([]) == [];
  }

  lemma ReportDone(location: string, d: WeatherData, info: string)
    requires Description(d).Some?
    requires info == Header(location, d, Description(d).value) + Concat(PresentLines(Readings(d)[..4]))
    ensures info == Report(location, d)
  {
    assert Readings(d)[..4] == Readings(d);
  }

  /** The first line of the report, built as `get_weather` does. */
  method BuildHeader(location: string, d: WeatherData, description: string) returns (info: string)
    ensures info == Header(location, d, description)
  {
    var country := d.country.GetOr("");
    info := "Weather in " + d.name.GetOr(location);
    if country != "" {
      info := info + ", " + country;
    }
    info := info + ":\n\U{2022} Condition: " + Capitalize(description) + "\n";
  }

  /** The report, built piece by piece as `get_weather` does. */
  method BuildReport(location: string, d: WeatherData) returns (info: string)
    requires Description(d).Some?
    ensures info == Report(location, d)
  {
    info := BuildHeader(location, d, Description(d).value);
    ghost var header := info;
    ghost var rs := Readings(d);
    ReportStart(header, rs);
    ghost var before := info;
    var r := Reading("\U{2022} Temperature: ", d.temp, "\U{b0}C\n");
    info := AppendReading(info, r);
    ReportStep(header, rs, 0, r, before, info);
    before := info;
    r := Reading("\U{2022} Feels like: ", d.feelsLike, "\U{b0}C\n");
    info := AppendReading(info, r);
    ReportStep(header, rs, 1, r, before, info);
    before := info;
    r := Reading("\U{2022} Humidity: ", d.humidity, "%\n");
    info := AppendReading(info, r);
    ReportStep(header, rs, 2, r, before, info);
    before := info;
    r := Reading("\U{2022} Wind speed: ", d.windSpeed, " m/s");
    info := AppendReading(info, r);
    ReportStep(header, rs, 3, r, before, info);
    ReportDone(location, d, info);
  }

  /** One reading of the report: its line is appended when the reply has its value. */
  method AppendReading(info: string, r: Reading) returns (extended: string)
    ensures extended == if r.value.Some? then info + ReadingLine(r) else info
  {
    extended := info;
    if r.value.Some? {
      extended := extended + r.caption + r.value.value + r.suffix;
    }
  }

  /** `get_weather`. */
  method GetWeather(location: string, apiKey: Option<string>,
                    geocode: string -> GeoResponse, current: Coordinates -> WeatherResponse)
    returns (reply: string)
    ensures !Truthy(apiKey) ==> reply == Unavailable
    ensures Truthy(apiKey) && !Found(GetCoordinates(geocode(location))) ==> reply == NotFound(location)
    ensures Truthy(apiKey) && Found(GetCoordinates(geocode(location))) ==>
              match current(GetCoordinates(geocode(location)).value)
              case WeatherHttpError => reply == ConnectionError(location)
              case WeatherFailed(_) => reply == GenericError(location)
              case WeatherOk(d) =>
                reply == if Description(d).None? then GenericError(location) else Report(location, d)
  {
    if !Truthy(apiKey) {
      return Unavailable;
    }
    var coordinates := GetCoordinates(geocode(location));
    if !Found(coordinates) {
      return NotFound(location);
    }
    var response := current(coordinates.value);
    match response
    case WeatherHttpError =>
      reply := ConnectionError(location);
    case WeatherFailed(_) =>
      reply := GenericError(location);
    case WeatherOk(d) =>
      if Description(d).None? {
        reply := GenericError(location);
      } else {
        reply := BuildReport(location, d);
      }
  }
}
