/**
 * `SsdpDiscovery` (Project/SsdpDiscovery.cs), the older client: its search requests,
 * the unbounded exact-case `ParseLocation`, the throwing `AnalyzeDescription`, and the
 * order in which the description callback raises its events.
 */
module SsdpLegacy {
  import opened Wrappers
  import opened Text
  import opened Ssdp
  import opened Description

  /** What the class reports to its listeners from one description download. */
  datatype Event =
    | DescriptionObtained(description: string)
    | SonyCameraDeviceDiscovered(device: DeviceInfo)

  /** The discovery object; its only state is the `MX` property the requests carry. */
  class SsdpDiscovery {
    var mx: uint32

    constructor()
      ensures mx == 1
    {
      mx := 1;
    }

    /** The `MX` setter. */
    method SetMx(value: uint32)
      modifies this
      ensures mx == value
    {
      mx := value;
    }

    /**
     * `SearchUpnpDevices(st, timeout)`: a null or empty target is replaced by `ssdp:all`,
     * the request carries the current `MX`, and the session times out
     * after the clamped timeout, or never when `Task.Delay` rejects that span.
     */
    function SearchUpnpDevices(st: Option<string>, timeout: Option<int>): (r: SearchRequest)
      reads this
      ensures EndsWith(r.query, "\r\n\r\n")
      ensures r.query == CrlfJoin(QueryLines(TargetOrAll(st), mx))
      ensures (st.None? || st.value == "") ==> Lines(r.query) == QueryLines(StAll, mx)
      ensures st.Some? && st.value != "" && NoLineBreak(st.value) ==> Lines(r.query) == QueryLines(st.value, mx)
      ensures r.wait == SessionWait(timeout)
      ensures r.wait.None? <==> timeout.Some? && timeout.value > MaxDelaySeconds
    {
      var target := TargetOrAll(st);
      assert NoLineBreak(target) ==> Lines(BuildQuery(target, mx)) == QueryLines(target, mx) by {
        if NoLineBreak(target) {
          QueryReadsBack(target, mx);
        }
      }
      TargetsUnbroken();
      QueryIsFramed(target, mx);
      SearchRequest(BuildQuery(target, mx), SessionWait(timeout))
    }

    /** `SearchSonyCameraDevices(timeout)`: a search for the ScalarWebAPI service. */
    function SearchSonyCameraDevices(timeout: Option<int>): (r: SearchRequest)
      reads this
      ensures r.query == CrlfJoin(QueryLines(ScalarWebApiTarget, mx))
      ensures Lines(r.query) == QueryLines(ScalarWebApiTarget, mx)
      ensures r.wait == SessionWait(timeout)
      ensures r.wait.None? <==> timeout.Some? && timeout.value > MaxDelaySeconds
    {
      TargetsUnbroken();
      QueryReadsBack(ScalarWebApiTarget, mx);
      QueryIsFramed(ScalarWebApiTarget, mx);
      SearchRequest(BuildQuery(ScalarWebApiTarget, mx), SessionWait(timeout))
    }
  }

  /**
   * `ParseLocation`: nothing unless the first line is the 200 status line, then the
   * unbounded header scan with the exact-case name rule.
   */
  method ParseLocation(response: string) returns (location: Option<string>)
    ensures location == ResponseLocation(response, None, ExactCase)
  {
    var lines := Lines(response);
    if lines == [] || lines[0] != StatusLine {
      return None;
    }
    location := ScanHeaders(lines[1..], None, ExactCase);
  }

  /** `AnalyzeDescription`: every document that describes no camera makes it throw. */
  method AnalyzeDescription(doc: Option<Elem>) returns (r: Analysis)
    ensures r == Analyze(doc, Throws)
    ensures !r.NoMatch?
  {
    ThrowingNeverNull(doc);
    r := AnalyzeDocument(doc, Throws);
  }

  /**
   * The events `DD_Handler` raises for one completed description request: none after
   * the timeout or when the request failed, otherwise the description, followed by the
   * camera only when the analysis does not throw.
   */
  function HandlerEvents(timedOut: bool, response: FetchResult, doc: Option<Elem>): (events: seq<Event>)
    ensures events == [] <==> timedOut || !response.Responded? || !response.success
    ensures events != [] ==> events[0] == DescriptionObtained(response.body)
    ensures |events| <= 2
    ensures |events| == 2 <==> events != [] && Analyze(doc, Throws).Found?
    ensures |events| == 2 ==> events[1] == SonyCameraDeviceDiscovered(Analyze(doc, Throws).info)
  {
    if timedOut || !response.Responded? || !response.success then []
    else
      var description := [DescriptionObtained(response.body)];
      match Analyze(doc, Throws)
      case Found(info) => description + [SonyCameraDeviceDiscovered(info)]
      case _ => description
  }

  /**
   * `DD_Handler`: returns at once after the timeout; a failed request (a network error
   * or an error status, which `EndGetResponse` raises) is swallowed; otherwise the body
   * is announced before it is analysed, and an analysis that throws is swallowed.
   */
  method OnDescriptionResponse(timedOut: bool, response: FetchResult, parse: string -> Option<Elem>)
    returns (events: seq<Event>)
    ensures events == HandlerEvents(timedOut, response, if response.Responded? then parse(response.body) else None)
  {
    if timedOut {
      return [];
    }
    if !response.Responded? || !response.success {
      return [];
    }
    events := [DescriptionObtained(response.body)];
    var analysis := AnalyzeDescription(parse(response.body));
    if analysis.Found? {
      events := events + [SonyCameraDeviceDiscovered(analysis.info)];
    }
  }

  /**
   * `GetDeviceDescriptionAsync` with its callback: the description is requested only when
   * the datagram yields a location that is a valid URI, and the callback then reports
   * what the fetch returned.
   */
  method GetDeviceDescription(data: string, timedOut: bool, isUri: string -> bool,
                              fetch: string -> FetchResult, parse: string -> Option<Elem>)
    returns (requested: bool, events: seq<Event>)
    ensures var location := ResponseLocation(data, None, ExactCase);
      requested <==> location.Some? && isUri(location.value)
    ensures !requested ==> events == []
    ensures requested ==>
      var response := fetch(ResponseLocation(data, None, ExactCase).value);
      events == HandlerEvents(timedOut, response, if response.Responded? then parse(response.body) else None)
  {
    var location := ParseLocation(data);
    if location.None? || !isUri(location.value) {
      return false, [];
    }
    requested := true;
    events := OnDescriptionResponse(timedOut, fetch(location.value), parse);
  }
}
