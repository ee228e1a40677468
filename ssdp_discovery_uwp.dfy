/**
 * `SsdpDiscovery` of the UWP library (Project/SsdpDiscoveryUwp.cs): searches on every
 * active Ethernet or Wi-Fi adapter, reads at most 20 header lines of a response with a
 * case-insensitive name rule, caches description bodies by location, and returns null
 * instead of throwing for documents that describe no camera.
 */
module SsdpUwp {
  import opened Wrappers
  import opened Text
  import opened Ssdp
  import opened Description

  /** `SSDP_RES_MAX_READ_LINES`: how many lines after the status line are read. */
  const MaxReadLines: nat := 20

  /** IANA interface types the adapter filter keeps: Ethernet and IEEE 802.11. */
  const EthernetIanaType: nat := 6
  const WirelessIanaType: nat := 71

  /**
   * What the class reports to its listeners; both events carry the description location
   * and the local address the response datagram arrived on.
   */
  datatype Event =
    | DescriptionObtained(description: string, location: string, localAddress: string)
    | SonyCameraDeviceDiscovered(device: DeviceInfo, location: string, localAddress: string)

  datatype ConnectivityLevel = NoConnectivity | LocalAccess | ConstrainedInternetAccess | InternetAccess

  /** A network adapter: its identifier and its IANA interface type. */
  datatype NetworkAdapter = NetworkAdapter(networkAdapterId: string, ianaInterfaceType: nat)

  /** A connection profile: its connectivity level and the adapter it runs on. */
  datatype ConnectionProfile = ConnectionProfile(connectivity: ConnectivityLevel, adapter: NetworkAdapter)

  /** A profile the search uses: connected, on an Ethernet or Wi-Fi adapter. */
  predicate IsSearchable(p: ConnectionProfile) {
    p.connectivity != NoConnectivity &&
    (p.adapter.ianaInterfaceType == EthernetIanaType || p.adapter.ianaInterfaceType == WirelessIanaType)
  }

  /** The adapter list `GetActiveAdaptersAsync` builds from the profiles, in order. */
  function ActiveAdapters(profiles: seq<ConnectionProfile>): seq<NetworkAdapter> {
    if profiles == [] then []
    else
      var list := ActiveAdapters(profiles[..|profiles| - 1]);
      var p := profiles[|profiles| - 1];
      if IsSearchable(p) && p.adapter !in list then list + [p.adapter] else list
  }

  /** Index of the first searchable profile on adapter `a`, or `|profiles|` when none is. */
  function FirstOffer(profiles: seq<ConnectionProfile>, a: NetworkAdapter): (i: nat)
    ensures i <= |profiles|
    ensures forall k :: 0 <= k < i ==> !(IsSearchable(profiles[k]) && profiles[k].adapter == a)
    ensures i < |profiles| ==> IsSearchable(profiles[i]) && profiles[i].adapter == a
  {
    if profiles == [] then 0
    else if IsSearchable(profiles[0]) && profiles[0].adapter == a then 0
    else 1 + FirstOffer(profiles[1..], a)
  }

  /** A first offer within a prefix is the first offer in the whole list. */
  lemma FirstOfferPrefix(profiles: seq<ConnectionProfile>, n: nat, a: NetworkAdapter)
    requires n <= |profiles| && FirstOffer(profiles[..n], a) < n
    ensures FirstOffer(profiles, a) == FirstOffer(profiles[..n], a)
  {
    var i := FirstOffer(profiles[..n], a);
    var j := FirstOffer(profiles, a);
    assert profiles[..n][i] == profiles[i];
  }

  /** An adapter not offered within a prefix is first offered at or after its end. */
  lemma FirstOfferBeyond(profiles: seq<ConnectionProfile>, n: nat, a: NetworkAdapter)
    requires n <= |profiles| && FirstOffer(profiles[..n], a) == n
    ensures FirstOffer(profiles, a) >= n
  {
    forall k | 0 <= k < n
      ensures !(IsSearchable(profiles[k]) && profiles[k].adapter == a)
    {
      assert profiles[..n][k] == profiles[k];
    }
  }

  /**
   * The list holds exactly the adapters of the searchable profiles, without repeats,
   * in the order of their first searchable profile.
   */
  lemma ActiveAdaptersSpec(profiles: seq<ConnectionProfile>)
    ensures forall a :: a in ActiveAdapters(profiles) <==> FirstOffer(profiles, a) < |profiles|
    ensures forall i, j :: 0 <= i < j < |ActiveAdapters(profiles)| ==>
      FirstOffer(profiles, ActiveAdapters(profiles)[i]) < FirstOffer(profiles, ActiveAdapters(profiles)[j])
  {
    ActiveAdaptersMembers(profiles);
    ActiveAdaptersOrder(profiles);
  }

  lemma {:induction false} ActiveAdaptersMembers(profiles: seq<ConnectionProfile>)
    ensures forall a :: a in ActiveAdapters(profiles) <==> FirstOffer(profiles, a) < |profiles|
    decreases |profiles|
  {
    if profiles != [] {
      var n := |profiles| - 1;
      var init := profiles[..n];
      var list := ActiveAdapters(init);
      ActiveAdaptersMembers(init);
      forall a
        ensures a in ActiveAdapters(profiles) <==> FirstOffer(profiles, a) < |profiles|
      {
        if a in list {
          FirstOfferPrefix(profiles, n, a);
        } else {
          FirstOfferBeyond(profiles, n, a);
        }
      }
    }
  }

  lemma {:induction false} ActiveAdaptersOrder(profiles: seq<ConnectionProfile>)
    ensures forall i, j :: 0 <= i < j < |ActiveAdapters(profiles)| ==>
      FirstOffer(profiles, ActiveAdapters(profiles)[i]) < FirstOffer(profiles, ActiveAdapters(profiles)[j])
    decreases |profiles|
  {
    if profiles != [] {
      var n := |profiles| - 1;
      var init := profiles[..n];
      var p := profiles[n];
      var list := ActiveAdapters(init);
      ActiveAdaptersOrder(init);
      ActiveAdaptersMembers(init);
      var result := ActiveAdapters(profiles);
      forall i | 0 <= i < |list|
        ensures FirstOffer(profiles, list[i]) == FirstOffer(init, list[i]) < n
      {
        assert list[i] in list;
        FirstOfferPrefix(profiles, n, list[i]);
      }
      if IsSearchable(p) && p.adapter !in list {
        FirstOfferBeyond(profiles, n, p.adapter);
        assert FirstOffer(profiles, p.adapter) == n;
        assert result == list + [p.adapter];
        forall i, j | 0 <= i < j < |result|
          ensures FirstOffer(profiles, result[i]) < FirstOffer(profiles, result[j])
        {
          assert result[i] == list[i];
          if j < |list| {
            assert result[j] == list[j];
          } else {
            assert result[j] == p.adapter;
          }
        }
      } else {
        assert result == list;
      }
    }
  }

  /** No adapter appears twice. */
  lemma ActiveAdaptersDistinct(profiles: seq<ConnectionProfile>)
    ensures forall i, j :: 0 <= i < j < |ActiveAdapters(profiles)| ==>
      ActiveAdapters(profiles)[i] != ActiveAdapters(profiles)[j]
  {
    ActiveAdaptersSpec(profiles);
  }

  /**
   * `GetActiveAdaptersAsync`: walks the profiles, skips those without connectivity and
   * those whose adapter is neither Ethernet nor Wi-Fi, and adds an adapter the list does
   * not contain yet.
   */
  method GetActiveAdapters(profiles: seq<ConnectionProfile>) returns (list: seq<NetworkAdapter>)
    ensures list == ActiveAdapters(profiles)
  {
    list := [];
    var i := 0;
    while i < |profiles|
      invariant 0 <= i <= |profiles|
      invariant list == ActiveAdapters(profiles[..i])
    {
      var profile := profiles[i];
      assert profiles[..i + 1][..i] == profiles[..i];
      i := i + 1;
      if profile.connectivity == NoConnectivity {
        continue;
      }
      var adapter := profile.adapter;
      if adapter.ianaInterfaceType != EthernetIanaType && adapter.ianaInterfaceType != WirelessIanaType {
        continue;
      }
      if adapter !in list {
        list := list + [adapter];
      }
    }
    assert profiles[..i] == profiles;
  }

  /**
   * `ParseLocation`: nothing unless the first line is the 200 status line, then at most
   * 20 header lines scanned with the case-insensitive name rule.
   */
  method ParseLocation(response: string) returns (location: Option<string>)
    ensures location == ResponseLocation(response, Some(MaxReadLines), IgnoreCase)
  {
    var lines := Lines(response);
    if lines == [] || lines[0] != StatusLine {
      return None;
    }
    location := ScanHeaders(lines[1..], Some(MaxReadLines), IgnoreCase);
  }

  /** `AnalyzeDescription`: null, not an exception, for documents that describe no camera. */
  method AnalyzeDescription(doc: Option<Elem>) returns (r: Analysis)
    ensures r == Analyze(doc, ReturnsNull)
  {
    r := AnalyzeDocument(doc, ReturnsNull);
  }

  /**
   * The events `OnDescriptionObtained` raises for a body: the description always and
   * first, then the camera only when the analysis finds one.
   */
  function DispatchEvents(body: string, location: string, localAddress: string, doc: Option<Elem>): (events: seq<Event>)
    ensures 1 <= |events| <= 2
    ensures events[0] == DescriptionObtained(body, location, localAddress)
    ensures |events| == 2 <==> Analyze(doc, ReturnsNull).Found?
    ensures |events| == 2 ==> events[1] == SonyCameraDeviceDiscovered(Analyze(doc, ReturnsNull).info, location, localAddress)
  {
    var description := [DescriptionObtained(body, location, localAddress)];
    match Analyze(doc, ReturnsNull)
    case Found(info) => description + [SonyCameraDeviceDiscovered(info, location, localAddress)]
    case _ => description
  }

  /**
   * `OnDescriptionObtained`: raises the description event, then analyses the body and
   * raises the camera event when the analysis returns a device. An analysis that throws
   * ends the dispatch after the first event (the caller swallows the exception).
   */
  method OnDescriptionObtained(body: string, location: string, localAddress: string, parse: string -> Option<Elem>)
    returns (events: seq<Event>)
    ensures events == DispatchEvents(body, location, localAddress, parse(body))
  {
    events := [DescriptionObtained(body, location, localAddress)];
    var camera := AnalyzeDescription(parse(body));
    if camera.Found? {
      events := events + [SonyCameraDeviceDiscovered(camera.info, location, localAddress)];
    }
  }

  /**
   * How long each socket of a search waits: `timeout ?? DEFAULT_TIMEOUT` with no floor.
   * A negative span, or one beyond `MaxDelaySeconds`, makes `Task.Delay` throw, which the
   * socket's catch absorbs, so the socket does not wait at all.
   */
  function DelaySeconds(timeout: Option<int>): (seconds: nat)
    ensures seconds <= MaxDelaySeconds
    ensures timeout.None? ==> seconds == DefaultTimeoutSeconds
    ensures timeout.Some? && 0 <= timeout.value <= MaxDelaySeconds ==> seconds == timeout.value
    ensures timeout.Some? && timeout.value < 0 ==> seconds == 0
    ensures timeout.Some? && timeout.value > MaxDelaySeconds ==> seconds == 0
  {
    if timeout.None? then DefaultTimeoutSeconds
    else if timeout.value < 0 || timeout.value > MaxDelaySeconds then 0
    else timeout.value
  }

  /**
   * The delay agrees with the older classes' clamped timeout except below the 2-second
   * floor, which this class does not apply, and beyond the span `Task.Delay` accepts.
   */
  lemma DelayVersusClamp(timeout: Option<int>)
    ensures (timeout.None? || MinTimeoutSeconds <= timeout.value <= MaxDelaySeconds)
        <==> DelaySeconds(timeout) == ClampedTimeout(timeout)
    ensures timeout.Some? && (timeout.value < MinTimeoutSeconds || timeout.value > MaxDelaySeconds)
        ==> DelaySeconds(timeout) < ClampedTimeout(timeout)
  {
  }

  /** The datagram a search sends, the adapters it goes out on, and how long each waits. */
  datatype Search = Search(query: string, adapters: seq<NetworkAdapter>, waitSeconds: int)

  /** The discovery object: the `MX` property, the adapter override and the body cache. */
  class SsdpDiscovery {
    var mx: uint32
    var targetNetworkAdapters: Option<seq<NetworkAdapter>>
    var cache: map<string, string>

    constructor()
      ensures mx == 1 && targetNetworkAdapters.None? && cache == map[]
    {
      mx := 1;
      targetNetworkAdapters := None;
      cache := map[];
    }

    /** The `MX` setter. */
    method SetMx(value: uint32)
      modifies this
      ensures mx == value
      ensures targetNetworkAdapters == old(targetNetworkAdapters) && cache == old(cache)
    {
      mx := value;
    }

    /** The `TargetNetworkAdapters` setter; `None` restores the automatic selection. */
    method SetTargetNetworkAdapters(adapters: Option<seq<NetworkAdapter>>)
      modifies this
      ensures targetNetworkAdapters == adapters
      ensures mx == old(mx) && cache == old(cache)
    {
      targetNetworkAdapters := adapters;
    }

    /** `ClearCache`: forgets every cached description. */
    method ClearCache()
      modifies this
      ensures cache == map[]
      ensures mx == old(mx) && targetNetworkAdapters == old(targetNetworkAdapters)
    {
      cache := map[];
    }

    /**
     * The adapters a search goes out on: the explicitly set ones, or else (`??`) the
     * adapters of the searchable profiles the platform reports.
     */
    function SelectedAdapters(profiles: seq<ConnectionProfile>): (adapters: seq<NetworkAdapter>)
      reads this
      ensures targetNetworkAdapters.Some? ==> adapters == targetNetworkAdapters.value
      ensures targetNetworkAdapters.None? ==>
        forall a :: a in adapters <==> exists p :: p in profiles && IsSearchable(p) && p.adapter == a
    {
      ActiveAdaptersSpec(profiles);
      SearchableOffered(profiles);
      if targetNetworkAdapters.Some? then targetNetworkAdapters.value else ActiveAdapters(profiles)
    }

    /**
     * `Search(st, timeout)` given the connection profiles the platform reports: the
     * request with the current `MX`, sent on the selected adapters, each socket waiting
     * the requested delay.
     */
    function SearchOn(st: string, timeout: Option<int>, profiles: seq<ConnectionProfile>): (r: Search)
      reads this
      ensures r.query == CrlfJoin(QueryLines(st, mx))
      ensures NoLineBreak(st) ==> Lines(r.query) == QueryLines(st, mx)
      ensures EndsWith(r.query, "\r\n\r\n")
      ensures r.adapters == SelectedAdapters(profiles)
      ensures r.waitSeconds == DelaySeconds(timeout)
    {
      assert NoLineBreak(st) ==> Lines(BuildQuery(st, mx)) == QueryLines(st, mx) by {
        if NoLineBreak(st) {
          QueryReadsBack(st, mx);
        }
      }
      QueryIsFramed(st, mx);
      Search(BuildQuery(st, mx), SelectedAdapters(profiles), DelaySeconds(timeout))
    }

    /** `SearchUpnpDevices(st, timeout)`: a null or empty target becomes `ssdp:all`. */
    function SearchUpnpDevices(st: Option<string>, timeout: Option<int>, profiles: seq<ConnectionProfile>): (r: Search)
      reads this
      ensures r.query == CrlfJoin(QueryLines(TargetOrAll(st), mx))
      ensures (st.None? || st.value == "") ==> Lines(r.query) == QueryLines(StAll, mx)
      ensures st.Some? && st.value != "" && NoLineBreak(st.value) ==> Lines(r.query) == QueryLines(st.value, mx)
      ensures r.adapters == SelectedAdapters(profiles) && r.waitSeconds == DelaySeconds(timeout)
    {
      TargetsUnbroken();
      SearchOn(TargetOrAll(st), timeout, profiles)
    }

    /** `SearchSonyCameraDevices(timeout)`: a search for the ScalarWebAPI service. */
    function SearchSonyCameraDevices(timeout: Option<int>, profiles: seq<ConnectionProfile>): (r: Search)
      reads this
      ensures r.query == CrlfJoin(QueryLines(ScalarWebApiTarget, mx))
      ensures Lines(r.query) == QueryLines(ScalarWebApiTarget, mx)
      ensures r.adapters == SelectedAdapters(profiles) && r.waitSeconds == DelaySeconds(timeout)
    {
      TargetsUnbroken();
      SearchOn(ScalarWebApiTarget, timeout, profiles)
    }

    /**
     * `GetDeviceDescriptionAsync(data, remoteAddress)`: a datagram without a location, or
     * with one that is no valid URI, changes nothing. A cached location is dispatched from
     * the cache without a fetch. Otherwise the description is fetched; only a success
     * response is cached and dispatched, and a failure changes nothing.
     */
    method GetDeviceDescription(data: string, localAddress: string, isUri: string -> bool,
                                fetch: string -> FetchResult, parse: string -> Option<Elem>)
      returns (fetched: bool, events: seq<Event>)
      modifies this
      ensures mx == old(mx) && targetNetworkAdapters == old(targetNetworkAdapters)
      ensures var location := ResponseLocation(data, Some(MaxReadLines), IgnoreCase);
        fetched <==> location.Some? && isUri(location.value) && location.value !in old(cache)
      ensures var location := ResponseLocation(data, Some(MaxReadLines), IgnoreCase);
        location.None? || !isUri(location.value) ==> cache == old(cache) && events == []
      ensures var location := ResponseLocation(data, Some(MaxReadLines), IgnoreCase);
        location.Some? && isUri(location.value) && location.value in old(cache) ==>
          cache == old(cache) &&
          events == DispatchEvents(old(cache)[location.value], location.value, localAddress, parse(old(cache)[location.value]))
      ensures var location := ResponseLocation(data, Some(MaxReadLines), IgnoreCase);
        fetched ==> match fetch(location.value)
          case Responded(true, body) =>
            cache == old(cache)[location.value := body] &&
            events == DispatchEvents(body, location.value, localAddress, parse(body))
          case _ => cache == old(cache) && events == []
    {
      var location := ParseLocation(data);
      if location.None? || !isUri(location.value) {
        return false, [];
      }
      var uri := location.value;
      if uri in cache {
        events := OnDescriptionObtained(cache[uri], uri, localAddress, parse);
        return false, events;
      }
      fetched := true;
      var response := fetch(uri);
      if response.Responded? && response.success {
        cache := cache[uri := response.body];
        events := OnDescriptionObtained(response.body, uri, localAddress, parse);
      } else {
        events := [];
      }
    }
  }

  /** An adapter is offered by a searchable profile exactly when it has a first offer. */
  lemma SearchableOffered(profiles: seq<ConnectionProfile>)
    ensures forall a :: FirstOffer(profiles, a) < |profiles| <==>
      exists p :: p in profiles && IsSearchable(p) && p.adapter == a
  {
    forall a
      ensures FirstOffer(profiles, a) < |profiles| <==>
        exists p :: p in profiles && IsSearchable(p) && p.adapter == a
    {
      if exists p :: p in profiles && IsSearchable(p) && p.adapter == a {
        var p :| p in profiles && IsSearchable(p) && p.adapter == a;
        var k :| 0 <= k < |profiles| && profiles[k] == p;
        assert !(FirstOffer(profiles, a) > k);
      }
    }
  }

  /**
   * The same location announced twice after one successful fetch is fetched once: the
   * second announcement is served from the cache, with the same description.
   */
  method RepeatedLocationFetchedOnce(data: string, firstLocal: string, secondLocal: string,
                                     isUri: string -> bool, fetch: string -> FetchResult,
                                     parse: string -> Option<Elem>)
    returns (firstFetched: bool, secondFetched: bool, firstEvents: seq<Event>, secondEvents: seq<Event>)
    requires ResponseLocation(data, Some(MaxReadLines), IgnoreCase).Some?
    requires isUri(ResponseLocation(data, Some(MaxReadLines), IgnoreCase).value)
    requires fetch(ResponseLocation(data, Some(MaxReadLines), IgnoreCase).value).Responded?
    requires fetch(ResponseLocation(data, Some(MaxReadLines), IgnoreCase).value).success
    ensures firstFetched && !secondFetched
    ensures var location := ResponseLocation(data, Some(MaxReadLines), IgnoreCase).value;
      var body := fetch(location).body;
      firstEvents == DispatchEvents(body, location, firstLocal, parse(body)) &&
      secondEvents == DispatchEvents(body, location, secondLocal, parse(body))
  {
    var discovery := new SsdpDiscovery();
    firstFetched, firstEvents := discovery.GetDeviceDescription(data, firstLocal, isUri, fetch, parse);
    secondFetched, secondEvents := discovery.GetDeviceDescription(data, secondLocal, isUri, fetch, parse);
  }

  /** After `ClearCache` a location that was cached is fetched again. */
  method ClearCacheForcesRefetch(data: string, isUri: string -> bool, fetch: string -> FetchResult,
                                 parse: string -> Option<Elem>)
    returns (firstFetched: bool, secondFetched: bool)
    requires ResponseLocation(data, Some(MaxReadLines), IgnoreCase).Some?
    requires isUri(ResponseLocation(data, Some(MaxReadLines), IgnoreCase).value)
    ensures firstFetched && secondFetched
  {
    var discovery := new SsdpDiscovery();
    var events;
    firstFetched, events := discovery.GetDeviceDescription(data, "", isUri, fetch, parse);
    discovery.ClearCache();
    secondFetched, events := discovery.GetDeviceDescription(data, "", isUri, fetch, parse);
  }
}
