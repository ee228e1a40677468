/**
 * The device description analysis shared by the three discovery classes: the UPnP
 * device description document is walked for the camera's names and its ScalarWebAPI
 * service list, and every service contributes one endpoint URL keyed by its type.
 */
module Description {
  import opened Wrappers
  import opened Text

  const UpnpNs := "{urn:schemas-upnp-org:device-1-0}"
  const SonyNs := "{urn:schemas-sony-com:av}"

  const DeviceTag := UpnpNs + "device"
  const FriendlyNameTag := UpnpNs + "friendlyName"
  const ModelNameTag := UpnpNs + "modelName"
  const UdnTag := UpnpNs + "UDN"
  const DeviceInfoTag := SonyNs + "X_ScalarWebAPI_DeviceInfo"
  const ServiceListTag := SonyNs + "X_ScalarWebAPI_ServiceList"
  const ServiceTypeTag := SonyNs + "X_ScalarWebAPI_ServiceType"
  const ActionListUrlTag := SonyNs + "X_ScalarWebAPI_ActionList_URL"

  /**
   * An XML element as the analysis sees it: its expanded name `{namespace}local`, its
   * text content (what `XElement.Value` returns) and its child elements in document order.
   */
  datatype Elem = Elem(name: string, value: string, children: seq<Elem>)

  /** Index of the first element called `name`, or `|es|` when there is none. */
  function FirstNamed(es: seq<Elem>, name: string): (i: nat)
    ensures i <= |es|
    ensures forall k :: 0 <= k < i ==> es[k].name != name
    ensures i < |es| ==> es[i].name == name
  {
    if es == [] then 0
    else if es[0].name == name then 0
    else 1 + FirstNamed(es[1..], name)
  }

  /** `XContainer.Element(name)`: the first child element with that name, if any. */
  function Element(e: Elem, name: string): Option<Elem> {
    var i := FirstNamed(e.children, name);
    if i < |e.children| then Some(e.children[i]) else None
  }

  /**
   * The lookup finds nothing exactly when no child has the name; otherwise it finds a
   * child with that name that no earlier child shares.
   */
  lemma ElementSpec(e: Elem, name: string)
    ensures Element(e, name).None? <==> forall k :: 0 <= k < |e.children| ==> e.children[k].name != name
    ensures Element(e, name).Some? ==>
      exists i :: 0 <= i < |e.children| && e.children[i] == Element(e, name).value &&
        e.children[i].name == name && (forall k :: 0 <= k < i ==> e.children[k].name != name)
  {
    var i := FirstNamed(e.children, name);
    if i < |e.children| {
      assert e.children[i] == Element(e, name).value;
    }
  }

  /** The two values one entry of the service list carries. */
  datatype Service = Service(serviceType: string, actionListUrl: string)

  /**
   * The service type and action list URL of one service list entry; `None` when either
   * child is missing, where the source's `.Value` on a missing child throws.
   */
  function ServiceOf(e: Elem): Option<Service> {
    match (Element(e, ServiceTypeTag), Element(e, ActionListUrlTag))
    case (Some(t), Some(u)) => Some(Service(t.value, u.value))
    case _ => None
  }

  /**
   * The endpoint of a service: the action list URL and the service type with exactly one
   * `/` added between them unless the URL already ends with one.
   */
  function EndpointUrl(url: string, serviceType: string): string {
    if EndsWith(url, "/") then url + serviceType else url + "/" + serviceType
  }

  /**
   * An endpoint ends with `/` and the service type, and what comes before the type is the
   * URL itself when it already ends with `/`, and the URL with one `/` added otherwise.
   */
  lemma EndpointShape(url: string, serviceType: string)
    ensures var endpoint := EndpointUrl(url, serviceType);
      |endpoint| >= |serviceType| + 1 &&
      endpoint[|endpoint| - |serviceType|..] == serviceType &&
      endpoint[|endpoint| - |serviceType| - 1] == '/' &&
      (EndsWith(url, "/") ==> endpoint[..|endpoint| - |serviceType|] == url) &&
      (!EndsWith(url, "/") ==> endpoint[..|endpoint| - |serviceType|] == url + "/")
  {
  }

  /** A base URL written with or without its trailing slash yields the same endpoint. */
  lemma TrailingSlashIrrelevant(url: string, serviceType: string)
    requires !EndsWith(url, "/")
    ensures EndpointUrl(url + "/", serviceType) == EndpointUrl(url, serviceType)
  {
    assert (url + "/")[|url + "/"| - 1] == '/';
    assert EndsWith(url + "/", "/") by {
      assert (url + "/")[|url + "/"| - 1..] == "/";
    }
  }

  /** The entries of a service list: each entry's fields, or `None` where one is missing. */
  function Entries(services: seq<Elem>): (entries: seq<Option<Service>>)
    ensures |entries| == |services|
    ensures forall k :: 0 <= k < |services| ==> entries[k] == ServiceOf(services[k])
  {
    seq(|services|, k requires 0 <= k < |services| => ServiceOf(services[k]))
  }

  /**
   * The dictionary the service loop fills: one `Add(type, endpoint)` per entry, in order.
   * `None` when an entry lacks a field or repeats a type, where the loop throws.
   */
  function EndpointMap(entries: seq<Option<Service>>): Option<map<string, string>>
  {
    if entries == [] then Some(map[])
    else
      var last := entries[|entries| - 1];
      match EndpointMap(entries[..|entries| - 1])
      case None => None
      case Some(m) =>
        match last
        case None => None
        case Some(s) =>
          if s.serviceType in m then None
          else Some(m[s.serviceType := EndpointUrl(s.actionListUrl, s.serviceType)])
  }

  /** Every entry of the list carries both fields. */
  predicate Complete(entries: seq<Option<Service>>) {
    forall k :: 0 <= k < |entries| ==> entries[k].Some?
  }

  /** No two entries of the list carry the same service type. */
  predicate DistinctTypes(entries: seq<Option<Service>>)
    requires Complete(entries)
  {
    forall i, j :: 0 <= i < j < |entries| ==> entries[i].value.serviceType != entries[j].value.serviceType
  }

  /** The map `m` holds exactly the endpoints of the entries. */
  predicate HoldsEndpoints(entries: seq<Option<Service>>, m: map<string, string>)
    requires Complete(entries)
  {
    (forall k :: 0 <= k < |entries| ==>
      entries[k].value.serviceType in m &&
      m[entries[k].value.serviceType] == EndpointUrl(entries[k].value.actionListUrl, entries[k].value.serviceType)) &&
    (forall t :: t in m ==> exists k :: 0 <= k < |entries| && entries[k].value.serviceType == t)
  }

  /** Appending an entry whose type is not yet a key keeps the types distinct. */
  lemma ExtendDistinct(entries: seq<Option<Service>>, m: map<string, string>)
    requires entries != [] && Complete(entries)
    requires DistinctTypes(entries[..|entries| - 1]) && HoldsEndpoints(entries[..|entries| - 1], m)
    requires entries[|entries| - 1].value.serviceType !in m
    ensures DistinctTypes(entries)
  {
    var n := |entries| - 1;
    var init := entries[..n];
    forall i, j | 0 <= i < j < |entries|
      ensures entries[i].value.serviceType != entries[j].value.serviceType
    {
      assert init[i] == entries[i];
      if j == n {
        assert init[i].value.serviceType in m;
      } else {
        assert init[j] == entries[j];
      }
    }
  }

  /** Adding the endpoint of a new last entry gives the endpoints of the longer list. */
  lemma ExtendHolds(entries: seq<Option<Service>>, m: map<string, string>)
    requires entries != [] && Complete(entries) && HoldsEndpoints(entries[..|entries| - 1], m)
    requires entries[|entries| - 1].value.serviceType !in m
    ensures var s := entries[|entries| - 1].value;
      HoldsEndpoints(entries, m[s.serviceType := EndpointUrl(s.actionListUrl, s.serviceType)])
  {
    var n := |entries| - 1;
    var init := entries[..n];
    var s := entries[n].value;
    var m' := m[s.serviceType := EndpointUrl(s.actionListUrl, s.serviceType)];
    forall k | 0 <= k < n
      ensures entries[k].value.serviceType in m' &&
        m'[entries[k].value.serviceType] == EndpointUrl(entries[k].value.actionListUrl, entries[k].value.serviceType)
    {
      assert init[k] == entries[k];
    }
    forall t | t in m'
      ensures exists k :: 0 <= k < |entries| && entries[k].value.serviceType == t
    {
      if t == s.serviceType {
        assert entries[n].value.serviceType == t;
      } else {
        var k :| 0 <= k < n && init[k].value.serviceType == t;
        assert entries[k] == init[k];
      }
    }
  }

  /**
   * When the loop succeeds, every entry is complete, the types are distinct and the map
   * holds one endpoint per entry and nothing else.
   */
  lemma {:induction false} EndpointMapSound(entries: seq<Option<Service>>)
    ensures EndpointMap(entries).Some? ==>
      Complete(entries) && DistinctTypes(entries) &&
      |EndpointMap(entries).value| == |entries| && HoldsEndpoints(entries, EndpointMap(entries).value)
    decreases |entries|
  {
    if entries != [] && EndpointMap(entries).Some? {
      var n := |entries| - 1;
      var init := entries[..n];
      EndpointMapSound(init);
      var m := EndpointMap(init).value;
      assert forall k :: 0 <= k < n ==> init[k] == entries[k];
      assert Complete(entries);
      ExtendDistinct(entries, m);
      ExtendHolds(entries, m);
    }
  }

  /** When every entry is complete and the types are distinct, the loop succeeds. */
  lemma {:induction false} EndpointMapComplete(entries: seq<Option<Service>>)
    requires Complete(entries) && DistinctTypes(entries)
    ensures EndpointMap(entries).Some?
    decreases |entries|
  {
    if entries != [] {
      var n := |entries| - 1;
      var init := entries[..n];
      assert forall k :: 0 <= k < n ==> init[k] == entries[k];
      EndpointMapComplete(init);
      EndpointMapSound(init);
      NotYetKey(entries, EndpointMap(init).value);
    }
  }

  /** With distinct types, the type of the last entry is no key of the earlier entries' map. */
  lemma NotYetKey(entries: seq<Option<Service>>, m: map<string, string>)
    requires entries != [] && Complete(entries) && DistinctTypes(entries)
    requires Complete(entries[..|entries| - 1]) && HoldsEndpoints(entries[..|entries| - 1], m)
    ensures entries[|entries| - 1].value.serviceType !in m
  {
    var n := |entries| - 1;
    var init := entries[..n];
    forall t | t in m
      ensures t != entries[n].value.serviceType
    {
      var k :| 0 <= k < n && init[k].value.serviceType == t;
      assert init[k] == entries[k];
    }
  }

  /**
   * The loop succeeds exactly when every entry is complete and the types are distinct;
   * then it yields one endpoint per entry and nothing else.
   */
  lemma EndpointMapSpec(entries: seq<Option<Service>>)
    ensures EndpointMap(entries).Some? <==> Complete(entries) && DistinctTypes(entries)
    ensures EndpointMap(entries).Some? ==>
      |EndpointMap(entries).value| == |entries| && HoldsEndpoints(entries, EndpointMap(entries).value)
  {
    EndpointMapSound(entries);
    if Complete(entries) && DistinctTypes(entries) {
      EndpointMapComplete(entries);
    }
  }

  /** Once a prefix of the list has failed, the whole list fails. */
  lemma {:induction false} FailureIsFinal(entries: seq<Option<Service>>, n: nat)
    requires n <= |entries| && EndpointMap(entries[..n]).None?
    ensures EndpointMap(entries).None?
    decreases |entries| - n
  {
    if n < |entries| {
      var init := entries[..n + 1];
      assert init[..n] == entries[..n];
      assert EndpointMap(init).None?;
      FailureIsFinal(entries, n + 1);
    } else {
      assert entries[..n] == entries;
    }
  }

  /** One more entry: the loop step after the first `i` entries gave `m`. */
  lemma AppendEntry(entries: seq<Option<Service>>, i: nat, m: map<string, string>)
    requires i < |entries| && EndpointMap(entries[..i]) == Some(m)
    ensures EndpointMap(entries[..i + 1]) ==
      match entries[i]
      case None => None
      case Some(s) =>
        if s.serviceType in m then None
        else Some(m[s.serviceType := EndpointUrl(s.actionListUrl, s.serviceType)])
  {
    assert entries[..i + 1][..i] == entries[..i];
  }

  /**
   * The `foreach` over the service list: reads each entry's two fields, builds its
   * endpoint and adds it to the dictionary, stopping at the first entry that throws.
   */
  method BuildEndpointMap(services: seq<Elem>) returns (r: Option<map<string, string>>)
    ensures r == EndpointMap(Entries(services))
  {
    ghost var entries := Entries(services);
    var endpoints: map<string, string> := map[];
    var i := 0;
    while i < |services|
      invariant 0 <= i <= |services|
      invariant EndpointMap(entries[..i]) == Some(endpoints)
    {
      var service := services[i];
      AppendEntry(entries, i, endpoints);
      var name := Element(service, ServiceTypeTag);
      var url := Element(service, ActionListUrlTag);
      assert entries[i] == ServiceOf(service);
      if name.None? || url.None? {
        FailureIsFinal(entries, i + 1);
        return None;
      }
      var endpoint := EndpointUrl(url.value.value, name.value.value);
      if name.value.value in endpoints {
        FailureIsFinal(entries, i + 1);
        return None;
      }
      endpoints := endpoints[name.value.value := endpoint];
      i := i + 1;
    }
    assert entries[..i] == entries;
    return Some(endpoints);
  }

  /** What the analysis reports about the camera. */
  datatype DeviceInfo = DeviceInfo(udn: string, modelName: string, friendlyName: string,
                                   endpoints: map<string, string>)

  /** `Failed`: the analysis throws; `NoMatch`: it returns null; `Found`: a camera. */
  datatype Analysis = Failed | NoMatch | Found(info: DeviceInfo)

  /**
   * How an analysis treats a document that is no camera description: `Throws` where
   * the legacy classes dereference the missing element or throw on an empty map,
   * `ReturnsNull` where the UWP class checks and returns null instead.
   */
  datatype NoMatchHandling = Throws | ReturnsNull

  function Absent(handling: NoMatchHandling): Analysis {
    if handling == Throws then Failed else NoMatch
  }

  /**
   * The analysis of a device description; `doc` is the parsed document, `None` when the
   * text is no well-formed XML (the parser throws).
   */
  function Analyze(doc: Option<Elem>, handling: NoMatchHandling): Analysis {
    if doc.None? then Failed
    else
      match Element(doc.value, DeviceTag)
      case None => Absent(handling)
      case Some(device) =>
        var f := Element(device, FriendlyNameTag);
        var m := Element(device, ModelNameTag);
        var u := Element(device, UdnTag);
        if f.None? || m.None? || u.None? then Failed
        else
          match Element(device, DeviceInfoTag)
          case None => Absent(handling)
          case Some(info) =>
            match Element(info, ServiceListTag)
            case None => Failed
            case Some(list) =>
              match EndpointMap(Entries(list.children))
              case None => Failed
              case Some(endpoints) =>
                if |endpoints| == 0 then Absent(handling)
                else Found(DeviceInfo(u.value.value, m.value.value, f.value.value, endpoints))
  }

  /** The service list of a document, when the path to it exists. */
  function ServiceList(doc: Elem): Option<seq<Elem>> {
    match Element(doc, DeviceTag)
    case None => None
    case Some(device) =>
      match Element(device, DeviceInfoTag)
      case None => None
      case Some(info) =>
        match Element(info, ServiceListTag)
        case None => None
        case Some(list) => Some(list.children)
  }

  /** The document has the three names and a service list. */
  predicate HasCameraPath(doc: Elem) {
    ServiceList(doc).Some? &&
    var device := Element(doc, DeviceTag).value;
    Element(device, FriendlyNameTag).Some? && Element(device, ModelNameTag).Some? &&
    Element(device, UdnTag).Some?
  }

  /** Along the camera path, the analysis is decided by the service loop alone. */
  lemma AnalyzeOnPath(doc: Elem, handling: NoMatchHandling)
    requires HasCameraPath(doc)
    ensures var device := Element(doc, DeviceTag).value;
      var endpoints := EndpointMap(Entries(ServiceList(doc).value));
      Analyze(Some(doc), handling) ==
        if endpoints.None? then Failed
        else if |endpoints.value| == 0 then Absent(handling)
        else Found(DeviceInfo(Element(device, UdnTag).value.value, Element(device, ModelNameTag).value.value,
                              Element(device, FriendlyNameTag).value.value, endpoints.value))
  {
  }

  /** Off the camera path, the analysis finds no camera. */
  lemma NotFoundOffPath(doc: Option<Elem>, handling: NoMatchHandling)
    requires doc.None? || !HasCameraPath(doc.value)
    ensures !Analyze(doc, handling).Found?
  {
  }

  /**
   * A camera is found exactly when the document has the three names and a non-empty
   * service list whose entries are complete with distinct types.
   */
  lemma FoundIffCamera(doc: Option<Elem>, handling: NoMatchHandling)
    ensures Analyze(doc, handling).Found? <==>
      doc.Some? && HasCameraPath(doc.value) &&
      var entries := Entries(ServiceList(doc.value).value);
      |entries| > 0 && Complete(entries) && DistinctTypes(entries)
  {
    if doc.Some? && HasCameraPath(doc.value) {
      AnalyzeOnPath(doc.value, handling);
      EndpointMapSpec(Entries(ServiceList(doc.value).value));
    } else {
      NotFoundOffPath(doc, handling);
    }
  }

  /**
   * A camera found carries the device's UDN, model name and friendly name, and one
   * endpoint per service list entry and nothing else.
   */
  lemma FoundCarries(doc: Option<Elem>, handling: NoMatchHandling)
    requires Analyze(doc, handling).Found?
    ensures doc.Some? && HasCameraPath(doc.value)
    ensures var info := Analyze(doc, handling).info;
      var device := Element(doc.value, DeviceTag).value;
      var entries := Entries(ServiceList(doc.value).value);
      info.udn == Element(device, UdnTag).value.value &&
      info.modelName == Element(device, ModelNameTag).value.value &&
      info.friendlyName == Element(device, FriendlyNameTag).value.value &&
      Complete(entries) && |info.endpoints| == |entries| && HoldsEndpoints(entries, info.endpoints)
  {
    if doc.None? || !HasCameraPath(doc.value) {
      NotFoundOffPath(doc, handling);
    }
    AnalyzeOnPath(doc.value, handling);
    EndpointMapSpec(Entries(ServiceList(doc.value).value));
  }

  /** A service list entry that lacks its type or URL makes the analysis throw. */
  lemma MissingFieldFails(doc: Elem, handling: NoMatchHandling, k: nat)
    requires HasCameraPath(doc)
    requires k < |ServiceList(doc).value| && ServiceOf(ServiceList(doc).value[k]).None?
    ensures Analyze(Some(doc), handling) == Failed
  {
    var entries := Entries(ServiceList(doc).value);
    assert !Complete(entries) by {
      assert entries[k].None?;
    }
    EndpointMapSpec(entries);
    AnalyzeOnPath(doc, handling);
  }

  /** Two complete entries with the same service type make the analysis throw. */
  lemma DuplicateTypeFails(doc: Elem, handling: NoMatchHandling, i: nat, j: nat)
    requires HasCameraPath(doc)
    requires i < j < |ServiceList(doc).value|
    requires Complete(Entries(ServiceList(doc).value))
    requires Entries(ServiceList(doc).value)[i].value.serviceType == Entries(ServiceList(doc).value)[j].value.serviceType
    ensures Analyze(Some(doc), handling) == Failed
  {
    var entries := Entries(ServiceList(doc).value);
    assert !DistinctTypes(entries);
    EndpointMapSpec(entries);
    AnalyzeOnPath(doc, handling);
  }

  /**
   * An empty service list: the throwing analysis throws ("No endoint found") and the
   * null-returning one returns null.
   */
  lemma EmptyServiceList(doc: Elem)
    requires HasCameraPath(doc) && ServiceList(doc).value == []
    ensures Analyze(Some(doc), Throws) == Failed
    ensures Analyze(Some(doc), ReturnsNull) == NoMatch
  {
    AnalyzeOnPath(doc, Throws);
    AnalyzeOnPath(doc, ReturnsNull);
  }

  /**
   * The two handlings agree whenever the null-returning analysis reports something
   * other than null; where it returns null the throwing one fails.
   */
  lemma HandlingsAgree(doc: Option<Elem>)
    ensures Analyze(doc, Throws) ==
      if Analyze(doc, ReturnsNull).NoMatch? then Failed else Analyze(doc, ReturnsNull)
  {
  }

  /** The throwing analysis never returns null. */
  lemma ThrowingNeverNull(doc: Option<Elem>)
    ensures !Analyze(doc, Throws).NoMatch?
  {
  }

  /**
   * The null-returning analysis returns null exactly when the document has no device
   * element, has a complete device without the ScalarWebAPI device info, or has an
   * empty but well-formed service list.
   */
  lemma NoMatchCases(doc: Option<Elem>)
    ensures Analyze(doc, ReturnsNull).NoMatch? <==>
      doc.Some? &&
      (Element(doc.value, DeviceTag).None? ||
       (var device := Element(doc.value, DeviceTag).value;
        Element(device, FriendlyNameTag).Some? && Element(device, ModelNameTag).Some? &&
        Element(device, UdnTag).Some? &&
        (Element(device, DeviceInfoTag).None? || ServiceList(doc.value) == Some([]))))
  {
    if doc.Some? && ServiceList(doc.value).Some? {
      var entries := Entries(ServiceList(doc.value).value);
      EndpointMapSpec(entries);
      if entries != [] && EndpointMap(entries).Some? {
        assert |EndpointMap(entries).value| > 0;
      }
    }
  }

  /**
   * The analysis as the source performs it: the element lookups in order, the service
   * loop, and the handling of a document that describes no camera.
   */
  method AnalyzeDocument(doc: Option<Elem>, handling: NoMatchHandling) returns (r: Analysis)
    ensures r == Analyze(doc, handling)
  {
    if doc.None? {
      return Failed;
    }
    var device := Element(doc.value, DeviceTag);
    if device.None? {
      return Absent(handling);
    }
    var friendlyName := Element(device.value, FriendlyNameTag);
    var modelName := Element(device.value, ModelNameTag);
    var udn := Element(device.value, UdnTag);
    if friendlyName.None? || modelName.None? || udn.None? {
      return Failed;
    }
    var info := Element(device.value, DeviceInfoTag);
    if info.None? {
      return Absent(handling);
    }
    var list := Element(info.value, ServiceListTag);
    if list.None? {
      return Failed;
    }
    var endpoints := BuildEndpointMap(list.value.children);
    if endpoints.None? {
      return Failed;
    }
    if |endpoints.value| == 0 {
      return Absent(handling);
    }
    return Found(DeviceInfo(udn.value.value, modelName.value.value, friendlyName.value.value, endpoints.value));
  }
}
