/**
 * What two or three of the discovery classes share: the M-SEARCH request of
 * UPnP Device Architecture 1.0 section 1.3.2 (all three), the 2-second timeout
 * floor (the two older classes), the `ssdp:all` search-target default
 * (`SsdpDiscovery` and the UWP class), and the LOCATION scan of an M-SEARCH
 * response (all three, with a line cap and a name rule as parameters).
 */
module Ssdp {
  import opened Wrappers
  import opened Text

  type uint32 = x: int | 0 <= x < 0x1_0000_0000

  const MulticastAddress := "239.255.255.250"
  const SsdpPort := 1900
  const StAll := "ssdp:all"
  const ScalarWebApiTarget := "urn:schemas-sony-com:service:ScalarWebAPI:1"
  const DefaultTimeoutSeconds := 5
  const MinTimeoutSeconds := 2
  const StatusLine := "HTTP/1.1 200 OK"

  /** The longest whole-second span `Task.Delay` accepts: its milliseconds must not
      exceed `Int32.MaxValue` (2147483647). */
  const MaxDelaySeconds := 2147483

  /** The datagram a search sends and when its session times out: after `wait` whole
      seconds, or never (`None`) when `Task.Delay` rejects the span and the search faults. */
  datatype SearchRequest = SearchRequest(query: string, wait: Option<nat>)

  /** What an HTTP GET of a description location gives back. */
  datatype FetchResult = NetworkError | Responded(success: bool, body: string)

  const RequestLine := "M-SEARCH * HTTP/1.1"
  const HostLine := "HOST: " + MulticastAddress + ":" + DecimalDigits(SsdpPort)
  const ManLine := "MAN: " + "\"ssdp:discover\""

  /** `ToString` of the non-negative `int` SSDP port. */
  lemma PortDigits()
    ensures DecimalDigits(SsdpPort) == "1900"
  {
    assert DecimalDigits(1) == "1";
    assert DecimalDigits(19) == "19";
    assert DecimalDigits(190) == "190";
  }

  lemma HostLineText()
    ensures HostLine == "HOST: 239.255.255.250:1900"
  {
    PortDigits();
    assert "HOST: " + MulticastAddress == "HOST: 239.255.255.250";
    assert "HOST: 239.255.255.250" + ":" == "HOST: 239.255.255.250:";
    assert "HOST: 239.255.255.250:" + "1900" == "HOST: 239.255.255.250:1900";
  }

  lemma ManLineText()
    ensures ManLine == "MAN: \"ssdp:discover\""
  {
  }

  /** The lines of the M-SEARCH request; the final empty one is the blank line that ends it. */
  function QueryLines(st: string, mx: uint32): (lines: seq<string>)
    ensures |lines| == 6 && lines[0] == "M-SEARCH * HTTP/1.1"
    ensures lines[1] == "HOST: 239.255.255.250:1900"
    ensures lines[2] == "MAN: \"ssdp:discover\""
    ensures lines[3] == "MX: " + DecimalDigits(mx) && lines[4] == "ST: " + st && lines[5] == ""
  {
    HostLineText();
    ManLineText();
    [RequestLine, HostLine, ManLine, "MX: " + DecimalDigits(mx), "ST: " + st, ""]
  }

  /** The request text as the `StringBuilder` chain in `Search` appends it, one line and
      its CR LF after the other. */
  function BuildQuery(st: string, mx: uint32): (q: string)
    ensures EndsWith(q, "\r\n\r\n")
  {
    var tail := "ST: " + st + "\r\n" + ("" + "\r\n");
    assert tail[|tail| - 4..] == "\r\n\r\n";
    var q := RequestLine + "\r\n"
      + (HostLine + "\r\n"
      + (ManLine + "\r\n"
      + ("MX: " + DecimalDigits(mx) + "\r\n"
      + tail)));
    assert q[|q| - 4..] == tail[|tail| - 4..];
    q
  }

  /** The request is its lines, each terminated by CR LF. */
  lemma QueryIsFramed(st: string, mx: uint32)
    ensures BuildQuery(st, mx) == CrlfJoin(QueryLines(st, mx))
  {
    var lines := QueryLines(st, mx);
    CrlfJoinCons(lines[5], []);
    assert [lines[5]] + [] == lines[5..];
    CrlfJoinCons(lines[4], lines[5..]);
    assert [lines[4]] + lines[5..] == lines[4..];
    CrlfJoinCons(lines[3], lines[4..]);
    assert [lines[3]] + lines[4..] == lines[3..];
    CrlfJoinCons(lines[2], lines[3..]);
    assert [lines[2]] + lines[3..] == lines[2..];
    CrlfJoinCons(lines[1], lines[2..]);
    assert [lines[1]] + lines[2..] == lines[1..];
    CrlfJoinCons(lines[0], lines[1..]);
    assert [lines[0]] + lines[1..] == lines;
  }

  /** A reader of the request sees exactly the request line, one HOST, MAN, MX and ST
      header each, and the terminating blank line. */
  lemma QueryReadsBack(st: string, mx: uint32)
    requires NoLineBreak(st)
    ensures Lines(BuildQuery(st, mx)) == QueryLines(st, mx)
  {
    QueryLinesUnbroken(st, mx);
    QueryIsFramed(st, mx);
    LinesOfCrlfJoin(QueryLines(st, mx));
  }

  lemma QueryLinesUnbroken(st: string, mx: uint32)
    requires NoLineBreak(st)
    ensures forall i :: 0 <= i < 6 ==> NoLineBreak(QueryLines(st, mx)[i])
  {
    var lines := QueryLines(st, mx);
    FixedLinesUnbroken();
    assert NoLineBreak(lines[3]) by {
      var d := DecimalDigits(mx);
      assert forall k :: 0 <= k < |d| ==> IsDigit(d[k]);
      PrefixKeepsNoLineBreak("MX: ", d);
    }
    PrefixKeepsNoLineBreak("ST: ", st);
  }

  /** Neither search target holds a line break. */
  lemma TargetsUnbroken()
    ensures NoLineBreak(StAll)
    ensures NoLineBreak(ScalarWebApiTarget)
  {
  }

  lemma FixedLinesUnbroken()
    ensures NoLineBreak("M-SEARCH * HTTP/1.1")
    ensures NoLineBreak("HOST: 239.255.255.250:1900")
    ensures NoLineBreak("MAN: \"ssdp:discover\"")
  {
  }

  /** The timeout of the older `Search`: 5 seconds when none is given, and never below 2. */
  function ClampedTimeout(timeout: Option<int>): (seconds: int)
    ensures seconds >= MinTimeoutSeconds
    ensures timeout.None? ==> seconds == DefaultTimeoutSeconds
    ensures timeout.Some? && timeout.value >= MinTimeoutSeconds ==> seconds == timeout.value
    ensures timeout.Some? && timeout.value < MinTimeoutSeconds ==> seconds == MinTimeoutSeconds
  {
    var requested := if timeout.None? then DefaultTimeoutSeconds else timeout.value;
    if requested < MinTimeoutSeconds then MinTimeoutSeconds else requested
  }

  /**
   * The timeout of the older `Search`: the clamped seconds, when `Task.Delay` accepts
   * them; a longer span makes the unguarded `Task.Delay` throw, so the timeout never fires.
   */
  function SessionWait(timeout: Option<int>): (w: Option<nat>)
    ensures w.None? <==> timeout.Some? && timeout.value > MaxDelaySeconds
    ensures w.Some? ==> w.value == ClampedTimeout(timeout) && MinTimeoutSeconds <= w.value <= MaxDelaySeconds
  {
    var seconds := ClampedTimeout(timeout);
    if seconds > MaxDelaySeconds then None else Some(seconds)
  }

  /** `SearchUpnpDevices` in SsdpDiscovery: a null or empty target becomes `ssdp:all`. */
  function TargetOrAll(st: Option<string>): (target: string)
    ensures target != ""
    ensures st.Some? && st.value != "" ==> target == st.value
    ensures st.None? || st.value == "" ==> target == StAll
  {
    if st.None? || st.value == "" then StAll else st.value
  }

  /** How a header name is compared with `location`. */
  datatype NameRule =
    | ExactCase   // the name is exactly `LOCATION` or exactly `location`
    | IgnoreCase  // the name equals `location` when letter case is ignored

  predicate IsLocationName(name: string, rule: NameRule) {
    match rule
    case ExactCase => name == "LOCATION" || name == "location"
    case IgnoreCase => EqualsIgnoreCase("location", name)
  }

  /** What one response line contributes: the trimmed value after its first colon, when
      the line is a LOCATION header (a non-empty line whose first colon is past index 0). */
  function HeaderLocation(line: string, rule: NameRule): Option<string> {
    if line == "" then None
    else
      var divider := IndexOf(line, ':');
      if divider < 1 then None
      else if IsLocationName(Trim(line[..divider]), rule) then Some(Trim(line[divider + 1..]))
      else None
  }

  /** The value of the first LOCATION header among `lines`. */
  function FirstLocation(lines: seq<string>, rule: NameRule): Option<string> {
    if lines == [] then None
    else if HeaderLocation(lines[0], rule).Some? then HeaderLocation(lines[0], rule)
    else FirstLocation(lines[1..], rule)
  }

  /** The lines a scan reads: all of them, or no more than `cap`. */
  function Capped(lines: seq<string>, cap: Option<nat>): seq<string> {
    if cap.Some? && cap.value < |lines| then lines[..cap.value] else lines
  }

  /** The location a response yields: none unless its first line is the 200 status line,
      otherwise the first LOCATION header among the (capped) lines that follow. */
  function ResponseLocation(response: string, cap: Option<nat>, rule: NameRule): Option<string> {
    var lines := Lines(response);
    if lines == [] || lines[0] != StatusLine then None
    else FirstLocation(Capped(lines[1..], cap), rule)
  }

  /**
   * The header loop of `ParseLocation`: reads the lines after the status line one by
   * one, no more than `cap` of them, skipping empty lines and lines without a colon past
   * index 0, and returns the trimmed value of the first LOCATION header.
   */
  method ScanHeaders(lines: seq<string>, cap: Option<nat>, rule: NameRule) returns (r: Option<string>)
    ensures r == FirstLocation(Capped(lines, cap), rule)
  {
    ghost var window := Capped(lines, cap);
    var count := 0;
    while cap.None? || count < cap.value
      invariant count <= |window| && window[..count] == lines[..count]
      invariant FirstLocation(window, rule) == FirstLocation(window[count..], rule)
      decreases |lines| - count
    {
      if count == |lines| {
        break;  // ReadLine returned null
      }
      var line := lines[count];
      assert window[count..][0] == line && window[count..][1..] == window[count + 1..];
      count := count + 1;
      if line == "" {
        continue;
      }
      var divider := IndexOf(line, ':');
      if divider < 1 {
        continue;
      }
      var name := Trim(line[..divider]);
      if IsLocationName(name, rule) {
        return Some(Trim(line[divider + 1..]));
      }
    }
    assert window[count..] == [];
    return None;
  }

  /** `FirstLocation` finds nothing exactly when no line is a LOCATION header. */
  lemma {:induction false} FirstLocationNone(lines: seq<string>, rule: NameRule)
    ensures FirstLocation(lines, rule).None? <==>
      forall k :: 0 <= k < |lines| ==> HeaderLocation(lines[k], rule).None?
  {
    if lines != [] {
      FirstLocationNone(lines[1..], rule);
      assert forall k :: 1 <= k < |lines| ==> lines[k] == lines[1..][k - 1];
    }
  }

  /** The position of the first LOCATION header among `lines`, or `|lines|` when there is none. */
  function FirstHeaderIndex(lines: seq<string>, rule: NameRule): (i: nat)
    ensures i <= |lines|
    ensures forall j :: 0 <= j < i ==> HeaderLocation(lines[j], rule).None?
    ensures i < |lines| ==> HeaderLocation(lines[i], rule).Some?
  {
    if lines == [] || HeaderLocation(lines[0], rule).Some? then 0
    else
      var rest := lines[1..];
      var i := FirstHeaderIndex(rest, rule);
      assert i < |rest| ==> lines[i + 1] == rest[i];
      assert forall j :: 0 <= j < i ==> lines[j + 1] == rest[j];
      i + 1
  }

  /** What `FirstLocation` finds is the value of the first LOCATION header. */
  lemma {:induction false} FirstLocationFirst(lines: seq<string>, rule: NameRule)
    ensures var i := FirstHeaderIndex(lines, rule);
      FirstLocation(lines, rule) == if i < |lines| then HeaderLocation(lines[i], rule) else None
  {
    if lines != [] && HeaderLocation(lines[0], rule).None? {
      FirstLocationFirst(lines[1..], rule);
      var i := FirstHeaderIndex(lines[1..], rule);
      assert i < |lines| - 1 ==> lines[1..][i] == lines[i + 1];
    }
  }

  /** Lines that are no LOCATION header can be skipped. */
  lemma {:induction false} SkipNonHeaders(lines: seq<string>, n: nat, rule: NameRule)
    requires n <= |lines|
    requires forall k :: 0 <= k < n ==> HeaderLocation(lines[k], rule).None?
    ensures FirstLocation(lines, rule) == FirstLocation(lines[n..], rule)
  {
    if n > 0 {
      assert HeaderLocation(lines[0], rule).None?;
      assert forall k :: 0 <= k < n - 1 ==> lines[1..][k] == lines[k + 1];
      SkipNonHeaders(lines[1..], n - 1, rule);
      assert lines[1..][n - 1..] == lines[n..];
    }
  }

  /** With a cap of `cap` lines, a LOCATION header that first appears after the cap is
      never read, while the uncapped scan still finds it. */
  lemma CapHidesLaterHeaders(response: string, cap: nat, rule: NameRule)
    requires |Lines(response)| > cap + 1 && Lines(response)[0] == StatusLine
    requires forall k :: 1 <= k <= cap ==> HeaderLocation(Lines(response)[k], rule).None?
    ensures ResponseLocation(response, Some(cap), rule).None?
    ensures ResponseLocation(response, None, rule) == FirstLocation(Lines(response)[cap + 1..], rule)
  {
    var lines := Lines(response);
    var rest := lines[1..];
    forall k | 0 <= k < cap
      ensures HeaderLocation(rest[..cap][k], rule).None?
    {
      assert rest[..cap][k] == lines[k + 1];
    }
    FirstLocationNone(rest[..cap], rule);
    assert Capped(rest, Some(cap)) == rest[..cap];
    forall k | 0 <= k < cap
      ensures HeaderLocation(rest[k], rule).None?
    {
      assert rest[k] == lines[k + 1];
    }
    SkipNonHeaders(rest, cap, rule);
    assert rest[cap..] == lines[cap + 1..];
  }

  /** Every name the exact rule accepts, the case-insensitive rule accepts too. */
  lemma ExactNameIgnoringCase(line: string)
    ensures HeaderLocation(line, ExactCase).Some? ==> HeaderLocation(line, IgnoreCase) == HeaderLocation(line, ExactCase)
  {
    UpperMatches();
    LowerMatches();
  }

  lemma UpperMatches()
    ensures EqualsIgnoreCase("location", "LOCATION")
  {
  }

  lemma LowerMatches()
    ensures EqualsIgnoreCase("location", "location")
  {
  }

  lemma MixedMatches()
    ensures EqualsIgnoreCase("location", "Location")
  {
  }

  lemma UpperIsTrimmed()
    ensures Trim("LOCATION") == "LOCATION"
  {
    TrimOfSolid("LOCATION");
  }

  lemma MixedIsTrimmed()
    ensures Trim("Location") == "Location"
  {
    TrimOfSolid("Location");
  }

  /** A header built from a colon-free name reads back as its trimmed value exactly when
      the rule accepts the trimmed name; colons inside the value stay in the value. */
  lemma HeaderReadsBack(name: string, value: string, rule: NameRule)
    requires name != "" && ':' !in name
    ensures HeaderLocation(name + ":" + value, rule)
         == if IsLocationName(Trim(name), rule) then Some(Trim(value)) else None
  {
    var line := name + ":" + value;
    assert line == name + [':'] + value;
    IndexOfAfter(name, ':', value);
    assert line[..|name|] == name;
    assert line[|name| + 1..] == value;
  }

  /** `Location` in mixed case is no LOCATION header for the exact rule, but is one for the
      case-insensitive rule. */
  lemma MixedCaseLocation(value: string)
    ensures HeaderLocation("Location:" + value, ExactCase).None?
    ensures HeaderLocation("Location:" + value, IgnoreCase) == Some(Trim(value))
  {
    var name := "Location";
    MixedIsTrimmed();
    MixedMatches();
    assert name + ":" + value == "Location:" + value;
    HeaderReadsBack(name, value, ExactCase);
    HeaderReadsBack(name, value, IgnoreCase);
  }

  /** A response that does not start with the 200 status line yields no location, whatever
      follows. */
  lemma NoStatusNoLocation(response: string, cap: Option<nat>, rule: NameRule)
    requires Lines(response) == [] || Lines(response)[0] != StatusLine
    ensures ResponseLocation(response, cap, rule).None?
  {
  }

  /** A CR LF framed response reads back as the first LOCATION header of its header lines. */
  lemma ResponseReadsBack(headers: seq<string>, cap: Option<nat>, rule: NameRule)
    requires forall i :: 0 <= i < |headers| ==> NoLineBreak(headers[i])
    ensures ResponseLocation(CrlfJoin([StatusLine] + headers), cap, rule)
         == FirstLocation(Capped(headers, cap), rule)
  {
    var lines := [StatusLine] + headers;
    assert forall i :: 0 <= i < |lines| ==> NoLineBreak(lines[i]) by {
      assert NoLineBreak(StatusLine);
      assert forall i :: 1 <= i < |lines| ==> lines[i] == headers[i - 1];
    }
    LinesOfCrlfJoin(lines);
    assert lines[1..] == headers;
  }

  /** The plain case: a 200 response with one `LOCATION: <url>` header yields the trimmed url. */
  lemma LocationHeaderFound(url: string, cap: Option<nat>, rule: NameRule)
    requires NoLineBreak(url)
    requires cap != Some(0)
    ensures ResponseLocation(CrlfJoin([StatusLine, "LOCATION: " + url, ""]), cap, rule) == Some(Trim(url))
  {
    LocationHeaderLine(url, rule);
    SingleHeaderResponse("LOCATION: " + url, cap, rule);
  }

  /** A blank line does not end the headers: a LOCATION header after it is still found. */
  lemma BlankLineDoesNotEndHeaders(url: string, rule: NameRule)
    requires NoLineBreak(url)
    ensures ResponseLocation(CrlfJoin([StatusLine, "", "LOCATION: " + url, ""]), None, rule) == Some(Trim(url))
  {
    var header := "LOCATION: " + url;
    LocationHeaderLine(url, rule);
    BlankThenHeader(header, rule);
    BlankHeadersReadBack(header, rule);
  }

  lemma BlankThenHeader(header: string, rule: NameRule)
    requires HeaderLocation(header, rule).Some?
    ensures FirstLocation(["", header, ""], rule) == HeaderLocation(header, rule)
  {
    assert ["", header, ""][1..] == [header, ""];
  }

  lemma BlankHeadersReadBack(header: string, rule: NameRule)
    requires NoLineBreak(header)
    ensures ResponseLocation(CrlfJoin([StatusLine, "", header, ""]), None, rule) == FirstLocation(["", header, ""], rule)
  {
    var headers := ["", header, ""];
    assert forall i :: 0 <= i < |headers| ==> NoLineBreak(headers[i]);
    ResponseReadsBack(headers, None, rule);
    assert [StatusLine] + headers == [StatusLine, "", header, ""];
  }

  /** A line whose first colon opens it has no header name and is skipped. */
  lemma LeadingColonSkipped(value: string, rule: NameRule)
    ensures HeaderLocation(":" + value, rule).None?
  {
    IndexOfAfter([], ':', value);
    assert [] + [':'] + value == ":" + value;
  }

  lemma SingleHeaderResponse(header: string, cap: Option<nat>, rule: NameRule)
    requires NoLineBreak(header) && cap != Some(0)
    requires HeaderLocation(header, rule).Some?
    ensures ResponseLocation(CrlfJoin([StatusLine, header, ""]), cap, rule) == HeaderLocation(header, rule)
  {
    SingleHeaderReadsBack(header, cap, rule);
    FoundInFirstLine([header, ""], cap, rule);
  }

  lemma SingleHeaderReadsBack(header: string, cap: Option<nat>, rule: NameRule)
    requires NoLineBreak(header)
    ensures ResponseLocation(CrlfJoin([StatusLine, header, ""]), cap, rule)
         == FirstLocation(Capped([header, ""], cap), rule)
  {
    ResponseReadsBack([header, ""], cap, rule);
    assert [StatusLine] + [header, ""] == [StatusLine, header, ""];
  }

  lemma FoundInFirstLine(headers: seq<string>, cap: Option<nat>, rule: NameRule)
    requires headers != [] && cap != Some(0)
    requires HeaderLocation(headers[0], rule).Some?
    ensures FirstLocation(Capped(headers, cap), rule) == HeaderLocation(headers[0], rule)
  {
    assert Capped(headers, cap)[0] == headers[0];
  }

  lemma LocationHeaderLine(url: string, rule: NameRule)
    requires NoLineBreak(url)
    ensures NoLineBreak("LOCATION: " + url)
    ensures HeaderLocation("LOCATION: " + url, rule) == Some(Trim(url))
  {
    PrefixKeepsNoLineBreak("LOCATION: ", url);
    SplitLocationHeader(url, rule);
    TrimLeadingSpace(url);
  }

  lemma PrefixKeepsNoLineBreak(a: string, b: string)
    requires NoLineBreak(a) && NoLineBreak(b)
    ensures NoLineBreak(a + b)
  {
    assert forall k :: |a| <= k < |a + b| ==> (a + b)[k] == b[k - |a|];
  }

  lemma SplitLocationHeader(url: string, rule: NameRule)
    ensures HeaderLocation("LOCATION: " + url, rule) == Some(Trim(" " + url))
  {
    assert "LOCATION: " + url == "LOCATION" + ":" + (" " + url);
    UpperLocationHeader(" " + url, rule);
  }

  lemma UpperLocationHeader(value: string, rule: NameRule)
    ensures HeaderLocation("LOCATION" + ":" + value, rule) == Some(Trim(value))
  {
    UpperLocationName(rule);
    HeaderReadsBack("LOCATION", value, rule);
  }

  lemma UpperLocationName(rule: NameRule)
    ensures Trim("LOCATION") == "LOCATION" && IsLocationName("LOCATION", rule)
  {
    UpperIsTrimmed();
    UpperMatches();
  }

  lemma TrimLeadingSpace(s: string)
    ensures Trim(" " + s) == Trim(s)
  {
    TrimIgnoresPadding(" ", s, "");
    assert " " + s + "" == " " + s;
  }
}
