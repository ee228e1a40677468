# SSDP device discovery for Sony ScalarWebAPI cameras

This project models the core of a small C# library that looks for Sony cameras on the
local network. It follows the M-SEARCH discovery of UPnP Device Architecture 1.0,
section 1.3.2. The library has three near-duplicate clients:

- `SsdpDiscovery`, the older client;
- `SoDiscovery`, the oldest client;
- `SsdpDiscovery` of the UWP library.

Each client does the same four things:

1. It builds the M-SEARCH datagram from a search target (`ST`) and an `MX` value.
2. It reads the `LOCATION` header from each response.
3. It fetches the device description at that location.
4. It walks the description XML for the camera's names and its ScalarWebAPI service list. That list becomes a map from service type to endpoint URL.

It tells its listeners what it found through two events:

- the description event;
- the camera event.

Modules:

- `Wrappers`: the `Option` type.
- `Text`: the .NET string operations the clients rely on. These are `String.Trim`, `IndexOf`, `EndsWith`, ordinal case-insensitive comparison, `ToString` of a non-negative `int` or `uint`, and `StringReader.ReadLine`, which is modelled as `Lines`.
- `Ssdp`: what two or three of the clients share:
  - the M-SEARCH text, built the same way by all three;
  - the 2-second timeout floor of the two older clients (the UWP client has none);
  - the `ssdp:all` default of `SsdpDiscovery` and the UWP client (`SoDiscovery` has none);
  - the `LOCATION` scan of a response, with an optional line cap and two name rules.
- `Description`: the description analysis.
  - XML is an abstract tree, `Elem(name, value, children)`. `name` is the expanded `{namespace}local` name, `value` is what `XElement.Value` returns, and `Element(e, n)` is the first child named `n`.
  - The analysis has three outcomes: `Failed` (it throws), `NoMatch` (it returns null) and `Found` (it returns a record).
- `SsdpLegacy`: Project/SsdpDiscovery.cs. It is a class whose only state is `MX`. It uses the unbounded exact-case `ParseLocation`, the throwing `AnalyzeDescription`, and the event order of the description callback.
- `SoLegacy`: Project/SoDiscovery.cs. `MX` is fixed at 1 and the target is passed through unchanged. It uses the same scan and analysis as `SsdpLegacy`.
- `SsdpUwp`: Project/SsdpDiscoveryUwp.cs.
  - It is a class holding `MX`, the adapter override and the description cache.
  - It has the adapter filter loop and the 20-line case-insensitive `ParseLocation`.
  - Its `AnalyzeDescription` returns null.
  - Its dispatch always raises the description event, and raises the camera event only on a match.

Two kinds of code are modelled differently:

- **Imperative code** is modelled by methods with loops. Each is proved equal to a specification function, and the properties are lemmas about that function:
  - the header scan (`Ssdp.ScanHeaders`);
  - the service loop (`Description.BuildEndpointMap`);
  - the adapter loop (`SsdpUwp.GetActiveAdapters`).
- **Objects whose fields change** are classes. Their methods state the whole new state in terms of the old one: the `MX` setters, the adapter override, and the UWP description cache (`SsdpUwp.SsdpDiscovery.GetDeviceDescription`, `ClearCache`).
- **Effects outside the core are inputs.**
  - The HTTP GET is a function from location to `FetchResult`: `NetworkError` or `Responded(success, body)`.
  - The XML parser is a function from text to `Option<Elem>`, where `None` is ill-formed XML.
  - URI validation is a predicate on the location text.
  - The timeout flag is a boolean.
  - The connection profiles are a sequence of records.

The model follows the code in these points, which a reader might expect otherwise:

- A service list entry missing its type or URL makes the analysis throw. `.Value` of a missing element dereferences null, so the `name == null || url == null` test never fires.
- A repeated service type also throws, from `Dictionary.Add`. It does not overwrite.
- The UWP client applies no 2-second floor to its timeout (`timeout ?? DEFAULT_TIMEOUT`).
- Blank header lines are skipped, not treated as the end of the headers.

## Model

| member | source | states |
|---|---|---|
| Text.Trim | Project/SsdpDiscovery.cs:317 | `String.Trim()`: drop the leading, then the trailing `char.IsWhiteSpace` characters (its properties are `TrimSpec`, `TrimIgnoresPadding`, `TrimIdempotent`) |
| Text.TrimSpec | Project/SsdpDiscovery.cs:317-320 | the result has no white space at either end, is no longer than the input, and is empty exactly when the input is all white space |
| Text.TrimIgnoresPadding | Project/SsdpDiscovery.cs:317-320 | white space added around a text does not change its trimmed form |
| Text.TrimIdempotent | Project/SsdpDiscovery.cs:317-320 | trimming twice is trimming once |
| Text.EqualsIgnoreCase | Project/SsdpDiscoveryUwp.cs:287 | ordinal case-insensitive equality: same length, and equal characters after upper-casing ASCII letters |
| Text.EndsWith | Project/SsdpDiscovery.cs:351 | ordinal `EndsWith`: the suffix is no longer than the text and equals its last characters |
| Text.IndexOf | Project/SsdpDiscovery.cs:313 | -1 exactly when the character is absent; otherwise the index of its first occurrence |
| Text.IndexOfAfter | Project/SsdpDiscovery.cs:313 | in `a + [c] + b` with `c` not in `a`, the first `c` is at the length of `a` |
| Text.DecimalDigits | Project/SsdpDiscovery.cs:86-88 | `ToString` of a non-negative number is a non-empty digit string |
| Text.DecimalRoundTrip | Project/SsdpDiscovery.cs:86-88 | reading the digits back gives the number |
| Text.Lines | Project/SsdpDiscovery.cs:298-307 | the lines `ReadLine` returns hold no CR or LF, and there are none exactly for the empty text |
| Text.LinesOfCrlfJoin | Project/SsdpDiscovery.cs:298-307 | text made of CR LF terminated lines reads back as exactly those lines |
| Text.LinesAfterBreak | Project/SsdpDiscovery.cs:298-307 | a line ended by a lone LF, or by a CR with no LF after it, reads back as that line followed by the lines of the rest, as `ReadLine` splits |
| Text.LinesUnterminated | Project/SsdpDiscovery.cs:298-307 | non-empty text with no CR or LF reads back as exactly one line, the last `ReadLine` before `null` |
| Ssdp.QueryLines | Project/SsdpDiscovery.cs:84-91 | the request has six lines: `M-SEARCH * HTTP/1.1`, `HOST: 239.255.255.250:1900`, `MAN: "ssdp:discover"`, then `MX: ` with the decimal MX, `ST: ` with the target, and the blank line |
| Ssdp.BuildQuery | Project/SsdpDiscovery.cs:84-91 | the request text ends with the blank line `\r\n\r\n` |
| Ssdp.QueryIsFramed | Project/SsdpDiscovery.cs:84-91 | the request text is its six lines, each terminated by CR LF |
| Ssdp.QueryReadsBack | Project/SsdpDiscoveryUwp.cs:78-85 | for a target without line breaks, a line reader of the request sees exactly the six request lines |
| Ssdp.ClampedTimeout | Project/SsdpDiscovery.cs:77-82 | 5 seconds when none is given, the requested seconds when at least 2, and 2 otherwise |
| Ssdp.SessionWait | Project/SsdpDiscovery.cs:77-82 | the older clients' session times out after the clamped seconds (line 238 waits them with `Task.Delay`), and never when the timeout exceeds the 2147483 seconds `Task.Delay` accepts, since the unguarded call then throws |
| Ssdp.TargetOrAll | Project/SsdpDiscovery.cs:269-276 | a null or empty target becomes `ssdp:all`; any other target is kept |
| Ssdp.IsLocationName | Project/SsdpDiscovery.cs:318 | the exact rule of the older clients: the name is `LOCATION` or `location`; the UWP rule of Project/SsdpDiscoveryUwp.cs line 287: the name equals `location` ignoring letter case (`MixedCaseLocation`, `ExactNameIgnoringCase` compare the two) |
| Ssdp.HeaderLocation | Project/SsdpDiscovery.cs:310-320 | one header line: nothing for an empty line or one whose first colon is not past index 0; otherwise the trimmed value when the trimmed name passes the rule (`HeaderReadsBack`, `LeadingColonSkipped`) |
| Ssdp.FirstLocation | Project/SsdpDiscovery.cs:304-324 | the header loop as a function: the value of the first line that is a LOCATION header (`FirstLocationFirst`, `FirstLocationNone`) |
| Ssdp.ResponseLocation | Project/SsdpDiscovery.cs:296-325 | `ParseLocation` as a function: nothing unless the first line is the 200 status line, then `FirstLocation` of the capped remaining lines (`NoStatusNoLocation`, `ResponseReadsBack`, `CapHidesLaterHeaders`) |
| Ssdp.ScanHeaders | Project/SsdpDiscovery.cs:305-324 | the header loop returns the first LOCATION value among the lines it may read (all of them, or the first `cap`) |
| Ssdp.FirstLocationNone | Project/SsdpDiscovery.cs:305-324 | the scan finds nothing exactly when no line is a LOCATION header |
| Ssdp.FirstHeaderIndex | Project/SsdpDiscovery.cs:305-324 | the index of the first LOCATION header: no line before it is one |
| Ssdp.FirstLocationFirst | Project/SsdpDiscovery.cs:305-324 | the scan returns the value of the first LOCATION header line, or nothing |
| Ssdp.SkipNonHeaders | Project/SsdpDiscovery.cs:308-315 | lines that are not LOCATION headers (blank, colon-less, other names) are passed over |
| Ssdp.CapHidesLaterHeaders | Project/SsdpDiscoveryUwp.cs:271-291 | with a cap, a LOCATION header first appearing after the cap is not found, while the uncapped scan still reads past the cap |
| Ssdp.ExactNameIgnoringCase | Project/SsdpDiscoveryUwp.cs:286-289 | every header the exact-case rule accepts, the case-insensitive rule accepts with the same value |
| Ssdp.HeaderReadsBack | Project/SsdpDiscovery.cs:313-320 | `name:value` yields the trimmed value exactly when the trimmed name is accepted; colons in the value stay in it |
| Ssdp.MixedCaseLocation | Project/SsdpDiscovery.cs:318 | `Location:` is not matched by the exact-case rule, and is matched by the case-insensitive one |
| Ssdp.NoStatusNoLocation | Project/SsdpDiscovery.cs:298-303 | no location unless the first line is exactly `HTTP/1.1 200 OK` |
| Ssdp.ResponseReadsBack | Project/SsdpDiscovery.cs:296-325 | a CR LF framed response yields the first LOCATION header among its header lines |
| Ssdp.LocationHeaderFound | Project/SsdpDiscovery.cs:317-320 | a 200 response with one `LOCATION: url` header yields the trimmed url under both rules and any non-zero cap |
| Ssdp.BlankLineDoesNotEndHeaders | Project/SsdpDiscovery.cs:310-311 | a blank line before the LOCATION header does not stop the scan |
| Ssdp.LeadingColonSkipped | Project/SsdpDiscovery.cs:313-315 | a line whose first colon is at index 0 is no header |
| Description.FirstNamed | Project/SsdpDiscovery.cs:336-341 | the index of the first child with the name; no earlier child has it |
| Description.Element | Project/SsdpDiscovery.cs:336-341 | `XContainer.Element(name)`: the first child with the expanded name, or nothing (`ElementSpec`) |
| Description.ElementSpec | Project/SsdpDiscovery.cs:336-341 | `Element` finds nothing exactly when no child has the name, and otherwise the first child that has it |
| Description.ServiceOf | Project/SsdpDiscovery.cs:345-346 | one service entry: its type and URL values, or nothing when either child is missing (where `.Value` throws) |
| Description.EndpointUrl | Project/SsdpDiscovery.cs:350-354 | the endpoint of a URL and a service type (`EndpointShape`, `TrailingSlashIrrelevant`) |
| Description.EndpointShape | Project/SsdpDiscovery.cs:350-354 | an endpoint is the URL, one `/` unless the URL already ends with one, and the service type |
| Description.TrailingSlashIrrelevant | Project/SsdpDiscovery.cs:350-354 | a URL with or without its trailing slash gives the same endpoint |
| Description.EndpointMap | Project/SsdpDiscovery.cs:343-357 | the `foreach` with `Dictionary.Add` over the entries: the map, or a failure at the first missing field or repeated type (`EndpointMapSpec`, `FailureIsFinal`) |
| Description.EndpointMapSound | Project/SsdpDiscovery.cs:343-357 | when the service loop completes, every entry has both fields, the types are distinct, and the map holds exactly one endpoint per entry keyed by its type |
| Description.EndpointMapComplete | Project/SsdpDiscovery.cs:343-357 | complete entries with distinct types let the loop complete |
| Description.EndpointMapSpec | Project/SsdpDiscovery.cs:343-357 | the loop completes exactly when every entry is complete and the types are distinct, and then yields one endpoint per entry |
| Description.FailureIsFinal | Project/SsdpDiscovery.cs:343-357 | once an entry throws, the loop fails whatever follows |
| Description.AppendEntry | Project/SsdpDiscovery.cs:345-356 | one loop step: a missing field or a repeated type fails, otherwise the endpoint is added |
| Description.BuildEndpointMap | Project/SsdpDiscovery.cs:343-357 | the `foreach` with `Dictionary.Add` computes the endpoint map |
| Description.Analyze | Project/SsdpDiscovery.cs:330-365 | the analysis with the older clients' handling (`Throws`): the lookups in source order, the service loop, and a throw on an empty map (`FoundIffCamera`, `FoundCarries`, `ThrowingNeverNull`); with `ReturnsNull` it is the UWP analysis of Project/SsdpDiscoveryUwp.cs lines 300-343, null for a missing device or device info and for an empty map (`NoMatchCases`, `HandlingsAgree`) |
| Description.AnalyzeOnPath | Project/SsdpDiscovery.cs:336-364 | with the names and the service list present, the outcome is a failure, no match on an empty map, or the record of the names and the map |
| Description.NotFoundOffPath | Project/SsdpDiscovery.cs:336-341 | without the device, a name, the device info or the service list, no camera is found |
| Description.FoundIffCamera | Project/SsdpDiscoveryUwp.cs:306-342 | a camera is found exactly when the names and a non-empty list of complete entries with distinct types are present |
| Description.FoundCarries | Project/SsdpDiscovery.cs:337-364 | a found camera carries the UDN, model and friendly names of the device and one endpoint per entry |
| Description.MissingFieldFails | Project/SsdpDiscovery.cs:345-346 | an entry without its type or URL makes the analysis throw |
| Description.DuplicateTypeFails | Project/SsdpDiscovery.cs:356 | two entries with the same type make the analysis throw |
| Description.EmptyServiceList | Project/SsdpDiscovery.cs:359-362 | an empty service list makes the throwing analysis throw and the null-returning one return null |
| Description.HandlingsAgree | Project/SsdpDiscoveryUwp.cs:306-340 | the two analyses agree except where the UWP one returns null and the older one throws |
| Description.ThrowingNeverNull | Project/SsdpDiscovery.cs:330-365 | the older analysis never returns null |
| Description.NoMatchCases | Project/SsdpDiscoveryUwp.cs:306-340 | the UWP analysis returns null exactly when the device is absent, or the device info is absent after the names, or the service list is empty |
| Description.AnalyzeDocument | Project/SsdpDiscovery.cs:330-365 | the lookups, the loop and the empty-map handling compute the analysis |
| SsdpLegacy.SsdpDiscovery.constructor | Project/SsdpDiscovery.cs:30 | `MX` starts at 1 |
| SsdpLegacy.SsdpDiscovery.SetMx | Project/SsdpDiscovery.cs:31-35 | the setter stores the new `MX` |
| SsdpLegacy.SsdpDiscovery.SearchUpnpDevices | Project/SsdpDiscovery.cs:269-276 | the datagram is exactly the M-SEARCH lines for the target, each ended by CR LF; a null or empty target is searched as `ssdp:all`, any other as given, with the current `MX`; the session times out after the clamped timeout, or never beyond 2147483 seconds |
| SsdpLegacy.SsdpDiscovery.SearchSonyCameraDevices | Project/SsdpDiscovery.cs:259-262 | the datagram is exactly the M-SEARCH lines, each ended by CR LF, and searches `urn:schemas-sony-com:service:ScalarWebAPI:1`; the session times out after the clamped timeout, or never beyond 2147483 seconds |
| SsdpLegacy.ParseLocation | Project/SsdpDiscovery.cs:296-325 | the location is the one of the status check and the unbounded exact-case scan |
| SsdpLegacy.AnalyzeDescription | Project/SsdpDiscovery.cs:330-365 | the throwing analysis, which never returns null |
| SsdpLegacy.HandlerEvents | Project/SsdpDiscovery.cs:96-127 | no events after the timeout or a failed request; otherwise the description first, then the camera only when the analysis does not throw |
| SsdpLegacy.OnDescriptionResponse | Project/SsdpDiscovery.cs:96-127 | the callback raises those events |
| SsdpLegacy.GetDeviceDescription | Project/SsdpDiscovery.cs:278-294 | the description is requested exactly when the response has a location that is a valid URI |
| SoLegacy.SearchUpnpDevices | Project/SoDiscovery.cs:234-237 | the datagram is exactly the M-SEARCH lines, each ended by CR LF, for the target used unchanged (null appends nothing), with `MX: 1`; the session times out after the clamped timeout, or never beyond 2147483 seconds |
| SoLegacy.SearchScalarDevices | Project/SoDiscovery.cs:224-227 | the datagram is exactly the M-SEARCH lines, each ended by CR LF and closed by a blank line, searching the ScalarWebAPI service with `MX: 1`; the session times out after the clamped timeout, or never beyond 2147483 seconds |
| SoLegacy.ParseLocation | Project/SoDiscovery.cs:263-292 | the location is the one of the status check and the unbounded exact-case scan |
| SoLegacy.AnalyzeDD | Project/SoDiscovery.cs:297-332 | the throwing analysis, which never returns null |
| SoLegacy.HandlerEvents | Project/SoDiscovery.cs:91-122 | no events after the timeout or a failed request; otherwise the description first, then the camera only when the analysis does not throw |
| SoLegacy.OnDescriptionResponse | Project/SoDiscovery.cs:91-122 | the callback raises those events |
| SoLegacy.GetDeviceDescription | Project/SoDiscovery.cs:245-261 | the description is requested exactly when the response has a location that is a valid URI |
| SsdpUwp.IsSearchable | Project/SsdpDiscoveryUwp.cs:154-170 | a profile is searched when it has connectivity and its adapter is Ethernet (IANA 6) or Wi-Fi (IANA 71) |
| SsdpUwp.ActiveAdapters | Project/SsdpDiscoveryUwp.cs:150-180 | the adapter list built from the profiles: each searchable profile's adapter, added unless already listed (`ActiveAdaptersSpec`, `ActiveAdaptersDistinct`) |
| SsdpUwp.FirstOffer | Project/SsdpDiscoveryUwp.cs:150-180 | the position of the first searchable profile on an adapter |
| SsdpUwp.FirstOfferPrefix | Project/SsdpDiscoveryUwp.cs:150-180 | a first offer found in a prefix of the profiles stays the first offer |
| SsdpUwp.ActiveAdaptersSpec | Project/SsdpDiscoveryUwp.cs:150-180 | the list holds exactly the adapters of connected Ethernet or Wi-Fi profiles, in the order they are first offered |
| SsdpUwp.ActiveAdaptersDistinct | Project/SsdpDiscoveryUwp.cs:173-177 | no adapter is listed twice |
| SsdpUwp.GetActiveAdapters | Project/SsdpDiscoveryUwp.cs:144-184 | the filter loop computes that list |
| SsdpUwp.ParseLocation | Project/SsdpDiscoveryUwp.cs:261-295 | the location is the one of the status check and the 20-line case-insensitive scan |
| SsdpUwp.AnalyzeDescription | Project/SsdpDiscoveryUwp.cs:300-343 | the null-returning analysis |
| SsdpUwp.DispatchEvents | Project/SsdpDiscoveryUwp.cs:250-259 | the description event always and first, then the camera event exactly when the analysis finds one |
| SsdpUwp.OnDescriptionObtained | Project/SsdpDiscoveryUwp.cs:250-259 | the dispatch raises those events |
| SsdpUwp.DelaySeconds | Project/SsdpDiscoveryUwp.cs:123-129 | the delay is the timeout or 5 seconds, with no floor; a negative timeout, or one beyond the 2147483 seconds `Task.Delay` accepts, does not wait |
| SsdpUwp.DelayVersusClamp | Project/SsdpDiscoveryUwp.cs:123 | the delay equals the older clamped timeout exactly when none is given or it lies between 2 and 2147483 seconds, and is shorter otherwise |
| SsdpUwp.SsdpDiscovery.constructor | Project/SsdpDiscoveryUwp.cs:31 | `_MX` starts at 1; the `TargetNetworkAdapters` auto-property (lines 139-142) starts as null, so there is no adapter override; `_cache` (line 211) starts empty |
| SsdpUwp.SsdpDiscovery.SetMx | Project/SsdpDiscoveryUwp.cs:32-36 | the setter stores the new `MX` and changes nothing else |
| SsdpUwp.SsdpDiscovery.SetTargetNetworkAdapters | Project/SsdpDiscoveryUwp.cs:139-142 | the setter stores the adapter override and changes nothing else |
| SsdpUwp.SsdpDiscovery.ClearCache | Project/SsdpDiscoveryUwp.cs:213-216 | the cache is empty afterwards and nothing else changes |
| SsdpUwp.SsdpDiscovery.SelectedAdapters | Project/SsdpDiscoveryUwp.cs:87 | the override when one is set, otherwise the adapters of the searchable profiles |
| SsdpUwp.SsdpDiscovery.SearchOn | Project/SsdpDiscoveryUwp.cs:74-123 | the datagram is exactly the M-SEARCH lines for the target with the current `MX`, each ended by CR LF, for any target; it is sent on the selected adapters and waits the delay |
| SsdpUwp.SsdpDiscovery.SearchUpnpDevices | Project/SsdpDiscoveryUwp.cs:200-207 | the datagram is exactly the M-SEARCH lines, each ended by CR LF, for the target; a null or empty target is searched as `ssdp:all`, any other as given |
| SsdpUwp.SsdpDiscovery.SearchSonyCameraDevices | Project/SsdpDiscoveryUwp.cs:190-193 | the datagram is exactly the M-SEARCH lines, each ended by CR LF, searching the ScalarWebAPI service |
| SsdpUwp.SsdpDiscovery.GetDeviceDescription | Project/SsdpDiscoveryUwp.cs:218-248 | no location or no valid URI: nothing changes. A cached location is dispatched from the cache with no fetch. Otherwise a fetch happens, and only a success response is cached and dispatched |
| SsdpUwp.SearchableOffered | Project/SsdpDiscoveryUwp.cs:150-180 | an adapter has a first offer exactly when some searchable profile runs on it |
| SsdpUwp.RepeatedLocationFetchedOnce | Project/SsdpDiscoveryUwp.cs:226-241 | after one successful fetch, the same location is served from the cache with the same description and is not fetched again |
| SsdpUwp.ClearCacheForcesRefetch | Project/SsdpDiscoveryUwp.cs:213-241 | after `ClearCache`, a location is fetched again |

## Left out

- Sockets, multicast group membership, datagram send and receive, and `CancelIOAsync` are I/O. A response datagram enters the model as a `string`.
- HTTP (`HttpWebRequest`, `HttpClient`) is a function from location to `FetchResult`. Headers, redirects and content encodings are not modelled.
- In the older clients an error status reaches the callback as a `WebException`. It is modelled as `Responded(false, _)`, which raises nothing.
- `XDocument.Parse` is a function from text to `Option<Elem>`. Text nodes, attributes and mixed content are reduced to each element's `Value`.
- `new Uri(...)` is a predicate on the location. Cache keys are the location strings, so URI normalisation and `Uri` equality are not modelled.
- Timers and concurrency are not modelled:
  - the passing of time in `Task.Delay` (only the length of the wait, and whether `Task.Delay` accepts it, is modelled), `Task.WhenAll` and the `async void` sessions;
  - what follows when the older clients' `Task.Delay` (Project/SsdpDiscovery.cs:238, Project/SoDiscovery.cs:239-243) rejects the span: the model records only that the timeout never fires, not the faulted task, the sockets left open or the missing `Finished` event;
  - the `Finished` event;
  - the race on `timeout_called`, which is reduced to a boolean passed to the callback;
  - races between fetches of the same location in the UWP cache, where a second `_cache.Add` would throw.
- `TimeSpan` and its `TotalSeconds` double-to-int cast are replaced by whole seconds.
- UTF-8 encoding of the datagram and the response is not modelled. Characters are Unicode scalars, not UTF-16 code units.
- Case-insensitive comparison folds ASCII letters only. Culture-sensitive `EndsWith("/")` is modelled as an ordinal comparison.
- `NetworkInformation.GetConnectionProfiles` is an input. A profile is its connectivity level and its adapter. `list.Contains` compares adapters by value, not by WinRT object identity.
- `NetworkAdapter` carries only an id and an IANA type. Null adapters and null profiles are not modelled.
- Logging (`Debug.WriteLine`) and event delegates are not modelled. Raised events are returned as a sequence.
- Platform branches of the older `Search` are not modelled:
  - the Windows Phone socket handlers;
  - the WinRT profile loop with its early `return` when a bind or send fails (Project/SsdpDiscovery.cs:192-235);
  - the NETFX_CORE branch of Project/SoDiscovery.cs, which uses names that are undefined there (Project/SoDiscovery.cs:171, 191, 194).
- SsdpUwp.DelaySeconds: timeouts are whole seconds, so `Task.Delay`'s other special span, -1 millisecond (wait forever), and the sub-second limits of `TimeSpan` are not captured. The two `ArgumentOutOfRangeException` cases (below -1 ms, above `Int32.MaxValue` ms) are.
