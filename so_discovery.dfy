/**
 * `SoDiscovery` (Project/SoDiscovery.cs), the oldest client: a fixed `MX` of 1, a
 * search target passed through as given, the unbounded exact-case `ParseLocation`, the
 * throwing `AnalyzeDD`, and the order in which the description callback raises events.
 */
module SoLegacy {
  import opened Wrappers
  import opened Text
  import opened Ssdp
  import opened Description

  /** The `MX` every request of this class carries. */
  const Mx: uint32 := 1

  /** What the class reports to its listeners from one description download. */
  datatype Event =
    | DescriptionObtained(description: string)
    | ScalarDeviceDiscovered(device: DeviceInfo)

  /**
   * `SearchUpnpDevices(st, timeout)`: the target goes into the request unchanged (a null
   * one appends nothing), with `MX: 1`, and the session times out
   * after the clamped timeout, or never when `Task.Delay` rejects that span.
   */
  function SearchUpnpDevices(st: Option<string>, timeout: Option<int>): (r: SearchRequest)
    ensures r.query == CrlfJoin(QueryLines(st.GetOr(""), 1))
    ensures EndsWith(r.query, "\r\n\r\n")
    ensures NoLineBreak(st.GetOr("")) ==> Lines(r.query) == QueryLines(st.GetOr(""), 1)
    ensures st.None? ==> Lines(r.query)[4] == "ST: "
    ensures r.wait == SessionWait(timeout)
    ensures r.wait.None? <==> timeout.Some? && timeout.value > MaxDelaySeconds
  {
    var target := st.GetOr("");
    assert NoLineBreak(target) ==> Lines(BuildQuery(target, Mx)) == QueryLines(target, Mx) by {
      if NoLineBreak(target) {
        QueryReadsBack(target, Mx);
      }
    }
    QueryIsFramed(target, Mx);
    SearchRequest(BuildQuery(target, Mx), SessionWait(timeout))
  }

  /** `SearchScalarDevices(timeout)`: a search for the ScalarWebAPI service. */
  function SearchScalarDevices(timeout: Option<int>): (r: SearchRequest)
    ensures r.query == CrlfJoin(QueryLines(ScalarWebApiTarget, 1))
    ensures EndsWith(r.query, "\r\n\r\n")
    ensures Lines(r.query) == QueryLines(ScalarWebApiTarget, 1)
    ensures r.wait == SessionWait(timeout)
    ensures r.wait.None? <==> timeout.Some? && timeout.value > MaxDelaySeconds
  {
    TargetsUnbroken();
    QueryReadsBack(ScalarWebApiTarget, Mx);
    QueryIsFramed(ScalarWebApiTarget, Mx);
    SearchRequest(BuildQuery(ScalarWebApiTarget, Mx), SessionWait(timeout))
  }

  /**
   * `ParseLocation`: nothing unless the first line is the 200 status line, then the
   * unbounded header scan with the exact-case name rule.
   */
  method ParseLocation(response: string) returns (location: Option<string>)
    ensures location == ResponseLocation(response, None, ExactCase)
  {
    var lines := Lines(response);
    if lines == [] || lines[0] != StatusLine {
      return None;
    }
    location := ScanHeaders(lines[1..], None, ExactCase);
  }

  /** `AnalyzeDD`: every document that describes no camera makes it throw. */
  method AnalyzeDD(doc: Option<Elem>) returns (r: Analysis)
    ensures r == Analyze(doc, Throws)
    ensures !r.NoMatch?
  {
    ThrowingNeverNull(doc);
    r := AnalyzeDocument(doc, Throws);
  }

  /**
   * The events `DD_Handler` raises for one completed description request: none after
   * the timeout or when the request failed, otherwise the description, followed by the
   * camera only when the analysis does not throw.
   */
  function HandlerEvents(timedOut: bool, response: FetchResult, doc: Option<Elem>): (events: seq<Event>)
    ensures events == [] <==> timedOut || !response.Responded? || !response.success
    ensures events != [] ==> events[0] == DescriptionObtained(response.body)
    ensures |events| <= 2
    ensures |events| == 2 <==> events != [] && Analyze(doc, Throws).Found?
    ensures |events| == 2 ==> events[1] == ScalarDeviceDiscovered(Analyze(doc, Throws).info)
  {
    if timedOut || !response.Responded? || !response.success then []
    else
      var description := [DescriptionObtained(response.body)];
      match Analyze(doc, Throws)
      case Found(info) => description + [ScalarDeviceDiscovered(info)]
      case _ => description
  }

  /**
   * `DD_Handler`: returns at once after the timeout; a failed request is swallowed;
   * otherwise the body is announced before it is analysed, and an analysis that throws
   * is swallowed.
   */
  method OnDescriptionResponse(timedOut: bool, response: FetchResult, parse: string -> Option<Elem>)
    returns (events: seq<Event>)
    ensures events == HandlerEvents(timedOut, response, if response.Responded? then parse(response.body) else None)
  {
    if timedOut {
      return [];
    }
    if !response.Responded? || !response.success {
      return [];
    }
    events := [DescriptionObtained(response.body)];
    var analysis := AnalyzeDD(parse(response.body));
    if analysis.Found? {
      events := events + [ScalarDeviceDiscovered(analysis.info)];
    }
  }

  /**
   * `GetDeviceDescriptionAsync` with its callback: the description is requested only when
   * the datagram yields a location that is a valid URI.
   */
  method GetDeviceDescription(data: string, timedOut: bool, isUri: string -> bool,
                              fetch: string -> FetchResult, parse: string -> Option<Elem>)
    returns (requested: bool, events: seq<Event>)
    ensures var location := ResponseLocation(data, None, ExactCase);
      requested <==> location.Some? && isUri(location.value)
    ensures !requested ==> events == []
    ensures requested ==>
      var response := fetch(ResponseLocation(data, None, ExactCase).value);
      events == HandlerEvents(timedOut, response, if response.Responded? then parse(response.body) else None)
  {
    var location := ParseLocation(data);
    if location.None? || !isUri(location.value) {
      return false, [];
    }
    requested := true;
    events := OnDescriptionResponse(timedOut, fetch(location.value), parse);
  }
}
