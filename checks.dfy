/**
 * The three agent checks of http.c: web.page.get (WEB_PAGE_GET), web.page.perf
 * (WEB_PAGE_PERF) and web.page.regexp (WEB_PAGE_REGEXP). Each validates its
 * parameters in a fixed order, fetches the page with get_http_page, and shapes
 * the result.
 *
 * A request is the list of the agent's parameters; `is_ushort`, `is_uint31_1`
 * and `zbx_regexp_sub`, whose bodies are outside this file, are passed in as
 * functions.
 */
module Checks {
  import opened Wrappers
  import opened CStrings
  import opened LineScan
  import opened Http

  /** ZBX_DEFAULT_HTTP_PORT. */
  const DefaultHttpPort: Port := 80

  /** ZBX_MAX_WEBPAGE_SIZE: the capture buffer of web.page.regexp, 1 MiB. */
  const MaxWebpageSize: nat := 1024 * 1024

  type PositiveSize = n: nat | n > 0 witness 1

  /** MAX_BUFFER_LEN: the buffer of web.page.get. Its value is set outside http.c. */
  const MaxBufferLen: PositiveSize

  /**
   * A length `is_uint31_1` accepts. `is_uint31_1` is not part of this model; the
   * range 1 to 2^31 - 1 is read off its name and is an assumption. No property
   * depends on it: the parsed length is never used (`LengthIsIgnored`).
   */
  type Uint31 = n: nat | 1 <= n < 0x8000_0000 witness 1

  /** `get_rparam(request, i)`: the parameter at position `i`, or NULL past the last one. */
  function Param(request: seq<CString>, i: nat): (r: Option<CString>)
    ensures r.Some? <==> i < |request|
    ensures r.Some? ==> r.value == request[i]
  {
    if i < |request| then Some(request[i]) else None
  }

  /** A parameter that is absent or empty, which the checks treat as not given. */
  predicate Unset(p: Option<CString>) {
    p.None? || p.value == ""
  }

  /** What get_http_page is asked to fetch. */
  datatype Target = Target(host: CString, path: CString, port: Port)

  /** The port parameter: ZBX_DEFAULT_HTTP_PORT when not given, else what `is_ushort` makes of it. */
  function PortOf(portStr: Option<CString>, isUshort: CString -> Option<Port>): (r: Option<Port>)
    ensures portStr.None? || portStr == Some("") ==> r == Some(DefaultHttpPort)
    ensures portStr.Some? && portStr.value != "" ==> r == isUshort(portStr.value)
  {
    if Unset(portStr) then Some(DefaultHttpPort) else isUshort(portStr.value)
  }

  /**
   * The parameter checks of web.page.get, in the order the code makes them: the
   * count, the host, then the port.
   */
  function PageGetTarget(request: seq<CString>, isUshort: CString -> Option<Port>): (r: Result<Target>)
    ensures |request| > 3 ==> r == Failure("Too many parameters.")
    ensures |request| <= 3 ==> (r == Failure("Invalid first parameter.") <==> |request| == 0 || request[0] == "")
    ensures r.Success? ==> |request| <= 3 && r.value.host == request[0] != ""
    ensures 0 < |request| <= 3 && request[0] != "" ==>
              (r == Failure("Invalid third parameter.") <==> |request| == 3 && request[2] != "" && isUshort(request[2]).None?)
    ensures r.Success? ==> r.value.path == if |request| > 1 then request[1] else ""
    ensures r.Success? ==> r.value.port == if |request| < 3 || request[2] == "" then DefaultHttpPort else isUshort(request[2]).value
    ensures 0 < |request| <= 3 && request[0] != "" && PortOf(Param(request, 2), isUshort).Some? ==> r.Success?
  {
    if 3 < |request| then Failure("Too many parameters.")
    else
      var hostname := Param(request, 0);
      var pathStr := Param(request, 1);
      var portStr := Param(request, 2);
      if Unset(hostname) then Failure("Invalid first parameter.")
      else
        var path := if pathStr.None? then "" else pathStr.value;
        match PortOf(portStr, isUshort)
        case None => Failure("Invalid third parameter.")
        case Some(port) => Success(Target(hostname.value, path, port))
  }

  /**
   * The parameter checks of web.page.perf. The code is a copy of web.page.get's
   * with a different test for the path (absent or empty, rather than absent).
   */
  function PagePerfTarget(request: seq<CString>, isUshort: CString -> Option<Port>): Result<Target> {
    if 3 < |request| then Failure("Too many parameters.")
    else
      var hostname := Param(request, 0);
      var pathStr := Param(request, 1);
      var portStr := Param(request, 2);
      if Unset(hostname) then Failure("Invalid first parameter.")
      else
        var path := if Unset(pathStr) then "" else pathStr.value;
        match PortOf(portStr, isUshort)
        case None => Failure("Invalid third parameter.")
        case Some(port) => Success(Target(hostname.value, path, port))
  }

  /** web.page.perf and web.page.get accept the same requests and fetch the same target. */
  lemma PerfValidatesLikeGet(request: seq<CString>, isUshort: CString -> Option<Port>)
    ensures PagePerfTarget(request, isUshort) == PageGetTarget(request, isUshort)
  {
  }

  /** An empty parameter at the end means the same to web.page.get as no parameter at all. */
  lemma PageGetEmptyIsAbsent(request: seq<CString>, isUshort: CString -> Option<Port>)
    requires |request| < 3
    ensures PageGetTarget(request + [""], isUshort) == PageGetTarget(request, isUshort)
  {
    var longer: seq<CString> := request + [""];
    assert forall i :: 0 <= i < |request| ==> longer[i] == request[i];
  }

  /** The socket operations a check performs: none when its parameters are refused. */
  function CheckTrace(target: Result<Target>, peer: Peer): (t: seq<Event>)
    ensures target.Failure? ==> t == []
  {
    match target
    case Failure(_) => []
    case Success(t) => FetchTrace(t.host, t.path, t.port, peer)
  }

  /**
   * web.page.get: the page with every trailing '\r' and '\n' trimmed, or the
   * message of the first check that failed.
   */
  function PageGet(request: seq<CString>, isUshort: CString -> Option<Port>, peer: Peer): (r: Result<string>)
    ensures PageGetTarget(request, isUshort).Failure? ==> r == Failure(PageGetTarget(request, isUshort).message)
    ensures r.Success? ==> r.value <= CStr(peer.response) && |r.value| < MaxBufferLen
    ensures r.Success? && |r.value| > 0 ==> r.value[|r.value| - 1] != '\r' && r.value[|r.value| - 1] != '\n'
    ensures r.Success? ==> RTrim(r.value, "\r\n") == r.value
    ensures PageGetTarget(request, isUshort).Success? ==>
              var t := PageGetTarget(request, isUshort).value;
              && (r.Success? <==> FetchStatus(t.host, t.path, t.port, peer).Ok?)
              && (r.Failure? ==> r.message == FetchStatus(t.host, t.path, t.port, peer).message)
    ensures r.Success? ==>
              var page := Copied(peer.response, MaxBufferLen);
              r.value <= page && forall i :: |r.value| <= i < |page| ==> page[i] in "\r\n"
  {
    match PageGetTarget(request, isUshort)
    case Failure(m) => Failure(m)
    case Success(t) =>
      match FetchStatus(t.host, t.path, t.port, peer)
      case Fail(m) => Failure(m)
      case Ok => Success(RTrim(Copied(peer.response, MaxBufferLen), "\r\n"))
  }

  /** WEB_PAGE_GET. */
  method WebPageGet(request: seq<CString>, isUshort: CString -> Option<Port>, peer: Peer)
    returns (r: Result<string>, ghost trace: seq<Event>)
    ensures r == PageGet(request, isUshort, peer)
    ensures trace == CheckTrace(PageGetTarget(request, isUshort), peer)
  {
    var target := PageGetTarget(request, isUshort);
    if target.Failure? {
      return Failure(target.message), [];
    }
    var t := target.value;
    var buffer := new char[MaxBufferLen];
    var status;
    status, trace := GetHttpPage(t.host, t.path, t.port, buffer, MaxBufferLen, peer);
    if status.Fail? {
      return Failure(status.message), trace;
    }
    ghost var text := Copied(peer.response, MaxBufferLen);
    assert buffer[..][|text|] == '\0';
    assert buffer[0..] == buffer[..];
    var n := StrLen(buffer, 0);
    r := Success(RTrim(buffer[..n], "\r\n"));
  }

  /** web.page.perf: whether the page was fetched, or why not. The elapsed time is not modelled. */
  function PagePerf(request: seq<CString>, isUshort: CString -> Option<Port>, peer: Peer): (r: Status)
    ensures PagePerfTarget(request, isUshort).Failure? ==> r == Fail(PagePerfTarget(request, isUshort).message)
    ensures PagePerfTarget(request, isUshort).Success? ==>
              var t := PagePerfTarget(request, isUshort).value;
              r == FetchStatus(t.host, t.path, t.port, peer)
  {
    match PagePerfTarget(request, isUshort)
    case Failure(m) => Fail(m)
    case Success(t) => FetchStatus(t.host, t.path, t.port, peer)
  }

  /** web.page.perf succeeds exactly when web.page.get does, and fails with the same message. */
  lemma PerfSucceedsWithGet(request: seq<CString>, isUshort: CString -> Option<Port>, peer: Peer)
    ensures PagePerf(request, isUshort, peer).Ok? <==> PageGet(request, isUshort, peer).Success?
    ensures PagePerf(request, isUshort, peer).Fail? ==>
              PageGet(request, isUshort, peer) == Failure(PagePerf(request, isUshort, peer).message)
  {
    PerfValidatesLikeGet(request, isUshort);
  }

  /** WEB_PAGE_PERF: fetches with no buffer, so the response is received and dropped. */
  method WebPagePerf(request: seq<CString>, isUshort: CString -> Option<Port>, peer: Peer)
    returns (r: Status, ghost trace: seq<Event>)
    ensures r == PagePerf(request, isUshort, peer)
    ensures trace == CheckTrace(PagePerfTarget(request, isUshort), peer)
  {
    var target := PagePerfTarget(request, isUshort);
    if target.Failure? {
      return Fail(target.message), [];
    }
    var t := target.value;
    r, trace := GetHttpPage(t.host, t.path, t.port, null, 0, peer);
  }

  /** The arguments of web.page.regexp once validated. */
  datatype RegexpArgs = RegexpArgs(target: Target, pattern: CString, length: nat, output: CString)

  /**
   * The parameter checks of web.page.regexp, in the code's order: too many, too
   * few, the host, the port, the length; then the output template defaults to "\0".
   */
  function PageRegexpArgs(request: seq<CString>, isUshort: CString -> Option<Port>, isUint31: CString -> Option<Uint31>)
    : (r: Result<RegexpArgs>)
    ensures |request| > 6 ==> r == Failure("Too many parameters.")
    ensures |request| < 4 ==> r == Failure("Invalid number of parameters.")
    ensures 4 <= |request| <= 6 ==> (r == Failure("Invalid first parameter.") <==> request[0] == "")
    ensures r.Success? ==> r.value.target.host == request[0] != "" && r.value.target.path == request[1]
    ensures r.Success? ==> r.value.pattern == request[3] && r.value.output != ""
    ensures r.Success? ==> (r.value.output == "\\0" <==> Unset(Param(request, 5)) || request[5] == "\\0")
    ensures 4 <= |request| <= 6 && request[0] != "" ==>
              (r == Failure("Invalid third parameter.") <==> request[2] != "" && isUshort(request[2]).None?)
    ensures r.Success? ==> r.value.target.port == if request[2] == "" then DefaultHttpPort else isUshort(request[2]).value
    ensures 4 <= |request| <= 6 && request[0] != "" && PortOf(Some(request[2]), isUshort).Some? ==>
              (r == Failure("Invalid fifth parameter.") <==> !Unset(Param(request, 4)) && isUint31(request[4]).None?)
    ensures r.Success? ==> r.value.length == if Unset(Param(request, 4)) then MaxBufferLen - 1 else isUint31(request[4]).value
    ensures r.Success? && !Unset(Param(request, 5)) ==> r.value.output == request[5]
    ensures (4 <= |request| <= 6 && request[0] != "" && PortOf(Some(request[2]), isUshort).Some?
             && (Unset(Param(request, 4)) || isUint31(request[4]).Some?)) ==> r.Success?
  {
    if 6 < |request| then Failure("Too many parameters.")
    else if 4 > |request| then Failure("Invalid number of parameters.")
    else
      var hostname := request[0];
      var pathStr := request[1];
      var portStr := request[2];
      var regexp := request[3];
      var lengthStr := Param(request, 4);
      var output := Param(request, 5);
      if hostname == "" then Failure("Invalid first parameter.")
      else
        var path := if pathStr == "" then "" else pathStr;
        match PortOf(Some(portStr), isUshort)
        case None => Failure("Invalid third parameter.")
        case Some(port) =>
          var length: Option<nat> :=
            if Unset(lengthStr) then Some(MaxBufferLen - 1)
            else match isUint31(lengthStr.value) case None => None case Some(n) => Some(n);
          if length.None? then Failure("Invalid fifth parameter.")
          else
            var template := if Unset(output) then "\\0" else output.value;
            Success(RegexpArgs(Target(hostname, path, port), regexp, length.value, template))
  }

  /** The target of validated web.page.regexp arguments, or their refusal. */
  function TargetOf(args: Result<RegexpArgs>): (r: Result<Target>)
    ensures r.Failure? <==> args.Failure?
  {
    match args
    case Failure(m) => Failure(m)
    case Success(a) => Success(a.target)
  }

  /** An empty fifth or sixth parameter means the same as none at all. */
  lemma PageRegexpEmptyIsAbsent(request: seq<CString>, isUshort: CString -> Option<Port>, isUint31: CString -> Option<Uint31>)
    requires 4 <= |request| < 6
    ensures PageRegexpArgs(request + [""], isUshort, isUint31) == PageRegexpArgs(request, isUshort, isUint31)
  {
    var longer: seq<CString> := request + [""];
    assert forall i :: 0 <= i < |request| ==> longer[i] == request[i];
  }

  /** `zbx_regexp_sub` with the check's pattern and output template, applied to one line. */
  function Matcher(sub: (string, string, string) -> Option<string>, pattern: string, output: string)
    : string -> Option<string>
  {
    line => sub(line, pattern, output)
  }

  /** The text web.page.regexp scans: the response as strlcpy leaves it in the 1 MiB buffer. */
  function RegexpBody(peer: Peer): (body: CString)
    ensures body <= CStr(peer.response) && |body| < MaxWebpageSize
    ensures |body| < MaxWebpageSize - 1 ==> body == CStr(peer.response)
  {
    Copied(peer.response, MaxWebpageSize)
  }

  /**
   * web.page.regexp: what `zbx_regexp_sub` makes of the first line it matches, ""
   * when it matches none, or the message of the first check that failed.
   */
  function PageRegexp(request: seq<CString>, isUshort: CString -> Option<Port>, isUint31: CString -> Option<Uint31>,
                      sub: (string, string, string) -> Option<string>, peer: Peer): (r: Result<string>)
    ensures PageRegexpArgs(request, isUshort, isUint31).Failure? ==>
              r == Failure(PageRegexpArgs(request, isUshort, isUint31).message)
    ensures PageRegexpArgs(request, isUshort, isUint31).Success? ==>
              var a := PageRegexpArgs(request, isUshort, isUint31).value;
              var status := FetchStatus(a.target.host, a.target.path, a.target.port, peer);
              && (status.Fail? ==> r == Failure(status.message))
              && (status.Ok? ==> r == Success(ScanResult(RegexpBody(peer), Matcher(sub, a.pattern, a.output))))
  {
    match PageRegexpArgs(request, isUshort, isUint31)
    case Failure(m) => Failure(m)
    case Success(a) =>
      match FetchStatus(a.target.host, a.target.path, a.target.port, peer)
      case Fail(m) => Failure(m)
      case Ok => Success(ScanResult(RegexpBody(peer), Matcher(sub, a.pattern, a.output)))
  }

  /**
   * The fifth parameter is validated but never used: two requests that differ
   * only there and both pass validation get the same answer.
   */
  lemma LengthIsIgnored(request: seq<CString>, other: CString, isUshort: CString -> Option<Port>,
                        isUint31: CString -> Option<Uint31>, sub: (string, string, string) -> Option<string>, peer: Peer)
    requires 5 <= |request| <= 6
    requires PageRegexpArgs(request, isUshort, isUint31).Success?
    requires PageRegexpArgs(request[4 := other], isUshort, isUint31).Success?
    ensures PageRegexp(request[4 := other], isUshort, isUint31, sub, peer) == PageRegexp(request, isUshort, isUint31, sub, peer)
  {
  }

  /** The lines web.page.regexp hands to `zbx_regexp_sub`: none unless the page was fetched. */
  function RegexpVisited(request: seq<CString>, isUshort: CString -> Option<Port>, isUint31: CString -> Option<Uint31>,
                         sub: (string, string, string) -> Option<string>, peer: Peer): seq<string>
  {
    match PageRegexpArgs(request, isUshort, isUint31)
    case Failure(_) => []
    case Success(a) =>
      if FetchStatus(a.target.host, a.target.path, a.target.port, peer).Fail? then []
      else Visited(Lines(RegexpBody(peer)), Matcher(sub, a.pattern, a.output))
  }

  /** The first line `m` accepts is at `k` when it accepts `lines[k]` and none before it. */
  lemma {:induction false} FirstMatchAt(lines: seq<string>, k: nat, m: string -> Option<string>)
    requires k < |lines| && m(lines[k]).Some?
    requires forall j :: 0 <= j < k ==> m(lines[j]).None?
    ensures FirstMatch(lines, m) == Some((k, m(lines[k]).value))
  {
    if k > 0 {
      assert m(lines[0]).None?;
      assert forall j :: 0 <= j < k - 1 ==> lines[1..][j] == lines[j + 1];
      FirstMatchAt(lines[1..], k - 1, m);
    }
  }

  /** The scan stops at `line` when it is the first line the matcher accepts. */
  lemma StopAtMatch(lines: seq<string>, done: seq<string>, todo: seq<string>, line: string, more: seq<string>,
                    m: string -> Option<string>)
    requires lines == done + todo && todo == [line] + more
    requires forall j :: 0 <= j < |done| ==> m(done[j]).None?
    requires m(line).Some?
    ensures FirstMatch(lines, m) == Some((|done|, m(line).value))
    ensures Visited(lines, m) == done + [line]
  {
    assert lines == done + [line] + more;
    assert lines[|done|] == line;
    assert forall j :: 0 <= j < |done| ==> lines[j] == done[j];
    FirstMatchAt(lines, |done|, m);
    assert lines[..|done| + 1] == done + [line];
  }

  /** The scan goes on past `line` when the matcher rejects it. */
  lemma ScanGoesOn(lines: seq<string>, done: seq<string>, todo: seq<string>, line: string, more: seq<string>,
                   m: string -> Option<string>)
    requires lines == done + todo && todo == [line] + more
    requires forall j :: 0 <= j < |done| ==> m(done[j]).None?
    requires m(line).None?
    ensures lines == (done + [line]) + more
    ensures forall j :: 0 <= j < |done + [line]| ==> m((done + [line])[j]).None?
  {
  }

  /** The scan runs out of lines when the matcher accepts none of them. */
  lemma StopAtEnd(lines: seq<string>, done: seq<string>, todo: seq<string>, line: string, m: string -> Option<string>)
    requires lines == done + todo && todo == [line]
    requires forall j :: 0 <= j < |done| ==> m(done[j]).None?
    requires m(line).None?
    ensures FirstMatch(lines, m) == None
    ensures Visited(lines, m) == lines
  {
    assert forall j :: 0 <= j < |lines| ==> m(lines[j]).None? by {
      forall j | 0 <= j < |lines|
        ensures m(lines[j]).None?
      {
        if j < |done| {
          assert lines[j] == done[j];
        }
      }
    }
  }

  /**
   * Writing a NUL at `at` in a buffer holding `text`, its NUL and `rest` from
   * `str` on leaves the C string `text[..at - str]` at `str`, and everything
   * after `at` as it was.
   */
  lemma CutAt(full: seq<char>, str: nat, text: CString, rest: seq<char>, at: nat)
    requires str <= at <= str + |text| <= |full|
    requires full[str..] == text + ['\0'] + rest
    ensures CStr(full[at := '\0'][str..]) == text[..at - str]
    ensures full[at := '\0'][at + 1..] == full[at + 1..]
  {
    var cut := full[at := '\0'];
    assert cut[str..] == text[..at - str] + ['\0'] + cut[at + 1..];
    CStrOfTerminated(text[..at - str], cut[at + 1..]);
  }

  /** The buffer from the next line on still holds the rest of the text, its NUL and `rest`. */
  lemma NextLine(full: seq<char>, str: nat, body: CString, rest: seq<char>, nl: nat)
    requires str <= nl < |body| && str <= |full|
    requires full[str..] == body[str..] + ['\0'] + rest
    ensures full[nl + 1..] == body[nl + 1..] + ['\0'] + rest
  {
    assert full[nl + 1..] == full[str..][nl + 1 - str..];
  }

  /** The first line of `body[str..]` ends at the first '\n' found from `str` on. */
  lemma FirstLineEndsAt(body: string, str: nat, nl: nat)
    requires str <= nl < |body|
    requires Find(body[str..], '\n') == Some(nl - str)
    ensures Lines(body[str..]) == [Chomp(body[str..nl])] + Lines(body[nl + 1..])
  {
    var s := body[str..];
    assert s[..nl - str] == body[str..nl] && s[nl - str + 1..] == body[nl + 1..];
  }

  /**
   * What writing a NUL at `at` leaves, where `at` is the '\n' at `nl` or a '\r'
   * just before it: the C string at `str` is the line without either, and the
   * buffer from the next line on is unchanged.
   */
  lemma CutLineStep(full: seq<char>, str: nat, body: CString, rest: seq<char>, nl: nat, at: nat)
    requires str <= nl < |body| && str <= |full|
    requires full[str..] == body[str..] + ['\0'] + rest
    requires at == if str != nl && full[nl - 1] == '\r' then nl - 1 else nl
    ensures CStr(full[at := '\0'][str..]) == Chomp(body[str..nl])
    ensures full[at := '\0'][nl + 1..] == body[nl + 1..] + ['\0'] + rest
  {
    var s := body[str..];
    NextLine(full, str, body, rest, nl);
    CutAt(full, str, s, rest, at);
    if at < nl {
      assert full[at] == s[at - str];
      assert s[..at - str] == body[str..nl][..|body[str..nl]| - 1];
      assert full[at := '\0'][nl + 1..] == full[at := '\0'][at + 1..][1..];
    } else {
      assert s[..nl - str] == body[str..nl];
      assert nl == str || s[nl - 1 - str] == full[nl - 1];
    }
  }

  /**
   * Ends the line that starts at `str` and whose '\n' is at `nl`: writes a NUL
   * over a '\r' just before the '\n' if there is one, and over the '\n' itself
   * otherwise; returns the C string left at `str`.
   */
  method EndLine(buffer: array<char>, str: nat, nl: nat, ghost body: CString, ghost rest: seq<char>)
    returns (line: string)
    requires str <= nl < |body| < buffer.Length
    requires buffer[str..] == body[str..] + ['\0'] + rest
    modifies buffer
    ensures line == Chomp(body[str..nl])
    ensures buffer[nl + 1..] == body[nl + 1..] + ['\0'] + rest
    ensures buffer[..] == old(buffer[..])[(if str != nl && old(buffer[nl - 1]) == '\r' then nl - 1 else nl) := '\0']
  {
    ghost var full := buffer[..];
    assert full[str..] == buffer[str..];
    var at := if str != nl && buffer[nl - 1] == '\r' then nl - 1 else nl;
    buffer[at] := '\0';
    CutLineStep(full, str, body, rest, nl, at);
    assert buffer[..] == full[at := '\0'];
    assert buffer[str..] == buffer[..][str..] && buffer[nl + 1..] == buffer[..][nl + 1..];
    var n := StrLen(buffer, str);
    line := buffer[str..str + n];
  }

  /**
   * One step of web.page.regexp's scan, in place: the C string at `str` is the rest
   * of the text; cut off its first line and return it and where the next one starts.
   */
  method CutLine(buffer: array<char>, str: nat, ghost body: CString, ghost rest: seq<char>)
    returns (line: string, next: Option<nat>)
    requires str <= |body| < buffer.Length
    requires buffer[str..] == body[str..] + ['\0'] + rest
    modifies buffer
    ensures next.None? ==> Lines(body[str..]) == [line]
    ensures next.Some? ==> str < next.value <= |body| && Lines(body[str..]) == [line] + Lines(body[next.value..])
    ensures next.Some? ==> buffer[next.value..] == body[next.value..] + ['\0'] + rest
    ensures next.None? ==> buffer[..] == old(buffer[..])
    ensures next.Some? ==> old(buffer[next.value - 1]) == '\n'
    ensures next.Some? ==>
              buffer[..] == old(buffer[..])[(if str < next.value - 1 && old(buffer[next.value - 2]) == '\r'
                                             then next.value - 2 else next.value - 1) := '\0']
  {
    ghost var before := buffer[..];
    CStrOfTerminated(body[str..], rest);
    var newline := StrChr(buffer, str, '\n');
    if newline.None? {
      var n := StrLen(buffer, str);
      line := buffer[str..str + n];
      assert line == body[str..] && Find(line, '\n') == None;
      assert buffer[..] == before;
      next := None;
      return;
    }
    var nl := newline.value;
    assert str <= nl < |body| && Find(body[str..], '\n') == Some(nl - str);
    FirstLineEndsAt(body, str, nl);
    assert body[str..][nl - str] == '\n' && buffer[nl] == buffer[str..][nl - str];
    assert before[nl] == '\n';
    ghost var at := if str < nl && before[nl - 1] == '\r' then nl - 1 else nl;
    line := EndLine(buffer, str, nl, body, rest);
    assert buffer[..] == before[at := '\0'];
    next := Some(nl + 1);
  }

  /**
   * The in-place scan of web.page.regexp over a buffer holding `body`, its NUL and
   * `rest`: the result of the first line `zbx_regexp_sub` turns into one, or "".
   */
  method ScanBuffer(buffer: array<char>, ghost body: CString, ghost rest: seq<char>,
                    sub: (string, string, string) -> Option<string>, pattern: string, output: string)
    returns (result: string, ghost evaluated: seq<string>)
    requires |body| < buffer.Length
    requires buffer[..] == body + ['\0'] + rest
    modifies buffer
    ensures result == ScanResult(body, Matcher(sub, pattern, output))
    ensures evaluated == Visited(Lines(body), Matcher(sub, pattern, output))
  {
    ghost var m := Matcher(sub, pattern, output);
    evaluated := [];
    var str := 0;
    var ptr: Option<string> := None;
    while true
      invariant str <= |body|
      invariant buffer[str..] == body[str..] + ['\0'] + rest
      invariant Lines(body) == evaluated + Lines(body[str..])
      invariant forall j :: 0 <= j < |evaluated| ==> m(evaluated[j]).None?
      decreases |body| - str
    {
      var line, next := CutLine(buffer, str, body, rest);
      ptr := sub(line, pattern, output);
      if ptr.Some? {
        StopAtMatch(Lines(body), evaluated, Lines(body[str..]), line, if next.Some? then Lines(body[next.value..]) else [], m);
        evaluated := evaluated + [line];
        assert ScanResult(body, m) == ptr.value;
        break;
      }
      if next.None? {
        StopAtEnd(Lines(body), evaluated, Lines(body[str..]), line, m);
        evaluated := evaluated + [line];
        assert ScanResult(body, m) == "";
        break;
      }
      ScanGoesOn(Lines(body), evaluated, Lines(body[str..]), line, Lines(body[next.value..]), m);
      evaluated := evaluated + [line];
      str := next.value;
    }
    result := if ptr.Some? then ptr.value else "";
  }

  /**
   * WEB_PAGE_REGEXP. The scan walks the buffer in place: it cuts the text at each
   * '\n' by writing a NUL over the '\n', or over a '\r' just before it, hands the
   * line to `zbx_regexp_sub`, and stops at the first line that yields a result.
   */
  method WebPageRegexp(request: seq<CString>, isUshort: CString -> Option<Port>, isUint31: CString -> Option<Uint31>,
                       sub: (string, string, string) -> Option<string>, peer: Peer)
    returns (r: Result<string>, ghost trace: seq<Event>, ghost evaluated: seq<string>)
    ensures r == PageRegexp(request, isUshort, isUint31, sub, peer)
    ensures trace == CheckTrace(TargetOf(PageRegexpArgs(request, isUshort, isUint31)), peer)
    ensures evaluated == RegexpVisited(request, isUshort, isUint31, sub, peer)
  {
    var args := PageRegexpArgs(request, isUshort, isUint31);
    if args.Failure? {
      return Failure(args.message), [], [];
    }
    var a := args.value;
    var buffer := new char[MaxWebpageSize];
    var status;
    status, trace := GetHttpPage(a.target.host, a.target.path, a.target.port, buffer, MaxWebpageSize, peer);
    if status.Fail? {
      return Failure(status.message), trace, [];
    }

    ghost var body := RegexpBody(peer);
    ghost var rest := buffer[|body| + 1..];
    assert buffer[..] == body + ['\0'] + rest;
    var result;
    result, evaluated := ScanBuffer(buffer, body, rest, sub, a.pattern, a.output);
    r := Success(result);
  }
}
