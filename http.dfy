/**
 * get_http_page: the sanitizer for the host and path, the HTTP/1.1 request it
 * sends, the order in which it drives the socket, and the copy of the response
 * into the caller's buffer.
 *
 * The network is a `Peer`: what each socket operation will report and the bytes
 * the server sends. Every socket operation is recorded in a ghost trace.
 */
module Http {
  import opened Wrappers
  import opened CStrings
  import opened LineScan

  /** A TCP port, as `is_ushort` yields it. */
  type Port = n: nat | n < 0x1_0000

  /** URI_PROHIBIT_CHARS: the bytes 0x01 to 0x1F and 0x7F (the array's final 0 only ends it). */
  const UriProhibitChars: string := [
      '\U{1}', '\U{2}', '\U{3}', '\U{4}', '\U{5}', '\U{6}', '\U{7}', '\U{8}', '\U{9}', '\U{A}', '\U{B}',
      '\U{C}', '\U{D}', '\U{E}', '\U{F}', '\U{10}', '\U{11}', '\U{12}', '\U{13}', '\U{14}', '\U{15}', '\U{16}',
      '\U{17}', '\U{18}', '\U{19}', '\U{1A}', '\U{1B}', '\U{1C}', '\U{1D}', '\U{1E}', '\U{1F}', '\U{7F}'
    ]

  /** A byte the sanitizer refuses in a host or a path: a control character other than NUL. */
  predicate Prohibited(c: char) {
    0x01 <= c as int <= 0x1F || c as int == 0x7F
  }

  /** URI_PROHIBIT_CHARS holds exactly the prohibited bytes. */
  lemma UriProhibitCharsAreProhibited(c: char)
    ensures c in UriProhibitChars <==> Prohibited(c)
  {
    if Prohibited(c) {
      if c as int == 0x7F {
        assert UriProhibitChars[0x1F] == c;
      } else {
        assert UriProhibitChars[c as int - 1] == c;
      }
    }
  }

  /** `strpbrk(s, accept)`, the set `accept` given by its membership test: the first index of `s` whose character is in it. */
  function StrPBrk(s: string, accept: char -> bool): (r: Option<nat>)
    ensures r.Some? ==> r.value < |s| && accept(s[r.value])
    ensures r.Some? ==> forall j :: 0 <= j < r.value ==> !accept(s[j])
    ensures r.None? ==> forall j :: 0 <= j < |s| ==> !accept(s[j])
  {
    if |s| == 0 then None
    else if accept(s[0]) then Some(0)
    else match StrPBrk(s[1..], accept)
      case None => None
      case Some(i) => Some(i + 1)
  }

  /**
   * `strchr` is `strpbrk` with a one-character set. `Find` keeps its own definition
   * because the line-scan proofs unfold it, and a set given by a test would put a
   * lambda in every one of those terms.
   */
  lemma FindIsStrPBrk(s: string, c: char)
    ensures Find(s, c) == StrPBrk(s, x => x == c)
  {
    var accept := x => x == c;
    var f := Find(s, c);
    var p := StrPBrk(s, accept);
    if f.Some? && p.Some? {
      assert !(f.value < p.value) by { assert accept(s[f.value]); }
      assert !(p.value < f.value) by { assert s[p.value] == c; }
    }
  }

  /** `k` is the position of the first prohibited byte of `s`. */
  ghost predicate FirstProhibitedAt(s: string, k: nat) {
    k < |s| && Prohibited(s[k]) && forall j :: 0 <= j < k ==> !Prohibited(s[j])
  }

  /** `s` holds no prohibited byte. */
  ghost predicate Clean(s: string) {
    forall j :: 0 <= j < |s| ==> !Prohibited(s[j])
  }

  /** The message of a refused host, quoting the host up to its first prohibited byte. */
  function HostError(prefix: string): string {
    "Incorrect hostname expression. " + "Check hostname part after: " + prefix + "."
  }

  /** The message of a refused path, quoting the path up to its first prohibited byte. */
  function PathError(prefix: string): string {
    "Incorrect path expression. " + "Check path part after: " + prefix + "."
  }

  /**
   * The sanitizer at the head of get_http_page. The host is checked before the
   * path, and the message quotes what precedes the first prohibited byte.
   */
  function CheckUri(host: CString, path: CString): (r: Status)
    ensures r.Ok? <==> Clean(host) && Clean(path)
    ensures forall k: nat :: FirstProhibitedAt(host, k) ==> r == Fail(HostError(host[..k]))
    ensures Clean(host) ==> forall k: nat :: FirstProhibitedAt(path, k) ==> r == Fail(PathError(path[..k]))
  {
    match StrPBrk(host, Prohibited)
    case Some(i) => Fail(HostError(host[..i]))
    case None =>
      match StrPBrk(path, Prohibited)
      case Some(i) => Fail(PathError(path[..i]))
      case None => Ok
  }

  /** The request-target: the path, with a '/' put in front unless it starts with one. */
  function RequestTarget(path: CString): (r: string)
    ensures |r| > 0 && r[0] == '/'
    ensures r == path || r == "/" + path
    ensures |path| > 0 && path[0] == '/' ==> r == path
    ensures path == "" ==> r == "/"
  {
    if |path| > 0 && path[0] == '/' then path else "/" + path
  }

  /**
   * The request get_http_page sends: a request line (section 3.1.1 of RFC 7230),
   * a Host header (section 5.4 of RFC 7230), `Connection: close` (section 6.1 of
   * RFC 7230) and the empty line that ends the header block.
   */
  function Request(host: CString, path: CString): string {
    "GET " + RequestTarget(path) + " HTTP/1.1\r\nHost: " + host + "\r\nConnection: close\r\n\r\n"
  }

  /** The request asks for a path that starts with '/', and ends with an empty line. */
  lemma RequestBounds(host: CString, path: CString)
    ensures |Request(host, path)| >= 5 && Request(host, path)[..5] == "GET /"
    ensures Request(host, path)[|Request(host, path)| - 4..] == "\r\n\r\n"
  {
    var r := Request(host, path);
    assert r == "GET " + (RequestTarget(path) + " HTTP/1.1\r\nHost: " + host + "\r\nConnection: close") + "\r\n\r\n";
  }

  /** A sanitized string holds no CR and no LF. */
  lemma CleanHasNoLineBreak(s: string)
    requires Clean(s)
    ensures '\n' !in s && '\r' !in s
  {
    forall j | 0 <= j < |s|
      ensures s[j] != '\n' && s[j] != '\r'
    {
      assert !Prohibited(s[j]);
    }
  }

  /** Cutting at the first '\n' of `a + "\n" + b`, when `a` has none, gives `a` and `b`. */
  lemma LinesCons(a: string, b: string)
    requires '\n' !in a
    ensures Lines(a + "\n" + b) == [Chomp(a)] + Lines(b)
  {
    var s := a + "\n" + b;
    assert s[..|a|] == a;
    FindFirst(s, '\n', |a|);
    assert s[|a| + 1..] == b;
  }

  /** The last header line, then the empty line that ends the header block. */
  lemma LastHeaderLines(header: string)
    requires '\n' !in header
    ensures Lines((header + "\r") + "\n" + ("\r" + "\n" + "")) == [header, "", ""]
  {
    LinesCons("\r", "");
    LinesCons(header + "\r", "\r" + "\n" + "");
    assert (header + "\r")[..|header|] == header;
  }

  /** The end of the header block: `Connection: close`, then the empty line. */
  lemma ClosingLines()
    ensures Lines("Connection: close\r\n\r\n") == ["Connection: close", "", ""]
  {
    LastHeaderLines("Connection: close");
    assert ("Connection: close" + "\r") + "\n" + ("\r" + "\n" + "") == "Connection: close\r\n\r\n";
  }

  /** The header block after the request line, with a host that holds no line break. */
  lemma HeaderLines(host: string, closing: string)
    requires '\n' !in host && '\r' !in host
    requires Lines(closing) == ["Connection: close", "", ""]
    ensures Lines(("Host: " + host + "\r") + "\n" + closing) == ["Host: " + host, "Connection: close", "", ""]
  {
    var line := "Host: " + host;
    LinesCons(line + "\r", closing);
    assert (line + "\r")[..|line|] == line;
  }

  /** The request as its request line, a line break, and the header block. */
  lemma RequestShape(host: CString, path: CString)
    ensures Request(host, path)
         == ("GET " + RequestTarget(path) + " HTTP/1.1" + "\r") + "\n"
            + (("Host: " + host + "\r") + "\n" + "Connection: close\r\n\r\n")
  {
  }

  /** The request read line by line, whatever text closes the header block. */
  lemma RequestLinesWith(host: string, target: string, closing: string)
    requires '\n' !in host && '\r' !in host && '\n' !in target
    requires Lines(closing) == ["Connection: close", "", ""]
    ensures Lines(("GET " + target + " HTTP/1.1" + "\r") + "\n" + (("Host: " + host + "\r") + "\n" + closing))
         == ["GET " + target + " HTTP/1.1", "Host: " + host, "Connection: close", "", ""]
  {
    var line := "GET " + target + " HTTP/1.1";
    HeaderLines(host, closing);
    LinesCons(line + "\r", ("Host: " + host + "\r") + "\n" + closing);
    assert (line + "\r")[..|line|] == line;
  }

  /**
   * A sanitized host and path cannot add or split a line of the request: read line
   * by line it is exactly the request line, the two headers and the empty line.
   */
  lemma RequestLines(host: CString, path: CString)
    requires Clean(host) && Clean(path)
    ensures Lines(Request(host, path))
         == ["GET " + RequestTarget(path) + " HTTP/1.1", "Host: " + host, "Connection: close", "", ""]
  {
    CleanHasNoLineBreak(host);
    CleanHasNoLineBreak(path);
    RequestShape(host, path);
    ClosingLines();
    RequestLinesWith(host, RequestTarget(path), "Connection: close\r\n\r\n");
  }

  /** What a socket operation reports: success, or failure with the text `zbx_socket_strerror` gives. */
  datatype Step = Done | Refused(reason: string)

  /** The other end of the connection: how connect, send and receive go, and what the server sends. */
  datatype Peer = Peer(connect: Step, send: Step, recv: Step, response: string)

  /** One socket operation, with whether it succeeded. */
  datatype Event =
    | Connect(host: string, port: Port, ok: bool)
    | Send(data: string, ok: bool)
    | Recv(ok: bool)
    | Close

  /** Some connect in `t` succeeded. */
  ghost predicate Connected(t: seq<Event>) {
    exists i :: 0 <= i < |t| && t[i].Connect? && t[i].ok
  }

  /**
   * The connection discipline: at most one connect, and it comes first; a send
   * only right after a successful connect; a receive only right after a successful
   * send; exactly one close if and only if the connect succeeded, and then as the
   * last operation.
   */
  ghost predicate Disciplined(t: seq<Event>) {
    && (forall i :: 0 <= i < |t| && t[i].Connect? ==> i == 0)
    && (forall i :: 0 <= i < |t| && t[i].Send? ==> 0 < i && t[i - 1].Connect? && t[i - 1].ok)
    && (forall i :: 0 <= i < |t| && t[i].Recv? ==> 0 < i && t[i - 1].Send? && t[i - 1].ok)
    && multiset(t)[Close] == (if Connected(t) then 1 else 0)
    && (Connected(t) ==> t[|t| - 1] == Close)
  }

  /**
   * The socket operations get_http_page performs: none when the sanitizer refuses;
   * otherwise a connect, and after a successful one the request is sent, the
   * response received if the send succeeded, and the socket closed in every case.
   */
  function FetchTrace(host: CString, path: CString, port: Port, peer: Peer): (t: seq<Event>)
    ensures t == [] <==> CheckUri(host, path).Fail?
    ensures t != [] ==> t[0] == Connect(host, port, peer.connect.Done?)
    ensures forall i :: 0 <= i < |t| && t[i].Send? ==> t[i].data == Request(host, path)
  {
    if CheckUri(host, path).Fail? then []
    else if peer.connect.Refused? then [Connect(host, port, false)]
    else if peer.send.Refused? then [Connect(host, port, true), Send(Request(host, path), false), Close]
    else [Connect(host, port, true), Send(Request(host, path), true), Recv(peer.recv.Done?), Close]
  }

  /** Whatever the sanitizer and the peer do, get_http_page keeps the connection discipline. */
  lemma FetchTraceDisciplined(host: CString, path: CString, port: Port, peer: Peer)
    ensures Disciplined(FetchTrace(host, path, port, peer))
  {
    var t := FetchTrace(host, path, port, peer);
    if CheckUri(host, path).Ok? && peer.connect.Done? {
      var req := Request(host, path);
      if peer.send.Refused? {
        assert t == [Connect(host, port, true), Send(req, false), Close];
        SendFailedDisciplined(host, port, req);
      } else {
        assert t == [Connect(host, port, true), Send(req, true), Recv(peer.recv.Done?), Close];
        ReceivedDisciplined(host, port, req, peer.recv.Done?);
      }
    }
  }

  lemma SendFailedDisciplined(host: string, port: Port, data: string)
    ensures Disciplined([Connect(host, port, true), Send(data, false), Close])
  {
    var t := [Connect(host, port, true), Send(data, false), Close];
    assert t[0].Connect? && t[0].ok;
  }

  lemma ReceivedDisciplined(host: string, port: Port, data: string, ok: bool)
    ensures Disciplined([Connect(host, port, true), Send(data, true), Recv(ok), Close])
  {
    var t := [Connect(host, port, true), Send(data, true), Recv(ok), Close];
    assert t[0].Connect? && t[0].ok;
  }

  /** The message of a failed transport operation. */
  function TransportError(reason: string): string {
    "HTTP get error: " + reason
  }

  /**
   * The three kinds of message never coincide, and each gives back what it quotes:
   * the message alone tells which check failed and where.
   */
  lemma ErrorMessagesAreDistinct(a: string, b: string)
    ensures HostError(a) != PathError(b)
    ensures HostError(a) != TransportError(b) && PathError(a) != TransportError(b)
    ensures HostError(a) == HostError(b) ==> a == b
    ensures PathError(a) == PathError(b) ==> a == b
    ensures TransportError(a) == TransportError(b) ==> a == b
  {
    forall x: string
      ensures HostError(x)[0] == 'I' && HostError(x)[10] == 'h' && HostError(x)[58..|HostError(x)| - 1] == x
      ensures PathError(x)[0] == 'I' && PathError(x)[10] == 'p' && PathError(x)[50..|PathError(x)| - 1] == x
      ensures TransportError(x)[0] == 'H' && TransportError(x)[16..] == x
    {
      assert "Incorrect hostname expression. "[0] == 'I' && "Incorrect hostname expression. "[10] == 'h';
      assert "Incorrect path expression. "[0] == 'I' && "Incorrect path expression. "[10] == 'p';
    }
  }

  /**
   * The status get_http_page returns: the sanitizer's refusal, or the message of the
   * first socket operation that failed, or success, which comes only with a
   * successful receive.
   */
  function FetchStatus(host: CString, path: CString, port: Port, peer: Peer): (r: Status)
    ensures CheckUri(host, path).Fail? ==> r == CheckUri(host, path)
    ensures r.Ok? <==> Recv(true) in FetchTrace(host, path, port, peer)
    ensures CheckUri(host, path).Ok? && r.Fail? ==>
              exists e :: e in FetchTrace(host, path, port, peer) && !e.Close? && !e.ok
    ensures CheckUri(host, path).Ok? && peer.connect.Refused? ==> r == Fail(TransportError(peer.connect.reason))
    ensures CheckUri(host, path).Ok? && peer.connect.Done? && peer.send.Refused? ==> r == Fail(TransportError(peer.send.reason))
    ensures CheckUri(host, path).Ok? && peer.connect.Done? && peer.send.Done? && peer.recv.Refused? ==> r == Fail(TransportError(peer.recv.reason))
  {
    if CheckUri(host, path).Fail? then CheckUri(host, path)
    else if peer.connect.Refused? then
      assert !FetchTrace(host, path, port, peer)[0].ok;
      Fail(TransportError(peer.connect.reason))
    else if peer.send.Refused? then
      assert !FetchTrace(host, path, port, peer)[1].ok;
      Fail(TransportError(peer.send.reason))
    else if peer.recv.Refused? then
      assert !FetchTrace(host, path, port, peer)[2].ok;
      Fail(TransportError(peer.recv.reason))
    else Ok
  }

  /**
   * zbx_socket_t as get_http_page uses it: an unencrypted TCP connection to the
   * peer, the received text in `buffer`, and the text `zbx_socket_strerror` reports.
   */
  class Socket {
    const peer: Peer
    var open: bool
    var buffer: string
    var error: string
    ghost var trace: seq<Event>

    constructor (peer: Peer)
      ensures this.peer == peer && !open && buffer == "" && error == "" && trace == []
    {
      this.peer := peer;
      open := false;
      buffer := "";
      error := "";
      trace := [];
    }

    /** zbx_tcp_connect. */
    method Connect(host: CString, port: Port) returns (ok: bool)
      requires !open
      modifies this
      ensures ok == peer.connect.Done? && open == ok && buffer == old(buffer)
      ensures error == if ok then old(error) else peer.connect.reason
      ensures trace == old(trace) + [Event.Connect(host, port, ok)]
    {
      ok := peer.connect.Done?;
      open := ok;
      if !ok {
        error := peer.connect.reason;
      }
      trace := trace + [Event.Connect(host, port, ok)];
    }

    /** zbx_tcp_send_raw. */
    method SendRaw(data: string) returns (ok: bool)
      requires open
      modifies this
      ensures ok == peer.send.Done? && open && buffer == old(buffer)
      ensures error == if ok then old(error) else peer.send.reason
      ensures trace == old(trace) + [Send(data, ok)]
    {
      ok := peer.send.Done?;
      if !ok {
        error := peer.send.reason;
      }
      trace := trace + [Send(data, ok)];
    }

    /** zbx_tcp_recv_raw: reads until the server closes, into `buffer`. */
    method RecvRaw() returns (ok: bool)
      requires open
      modifies this
      ensures ok == peer.recv.Done? && open
      ensures buffer == if ok then peer.response else old(buffer)
      ensures error == if ok then old(error) else peer.recv.reason
      ensures trace == old(trace) + [Recv(ok)]
    {
      ok := peer.recv.Done?;
      if ok {
        buffer := peer.response;
      } else {
        error := peer.recv.reason;
      }
      trace := trace + [Recv(ok)];
    }

    /** zbx_tcp_close. */
    method Close()
      requires open
      modifies this
      ensures !open && buffer == old(buffer) && error == old(error)
      ensures trace == old(trace) + [Event.Close]
    {
      open := false;
      trace := trace + [Event.Close];
    }
  }

  /**
   * get_http_page: sanitize, connect, send the request, receive, close, and on
   * success copy the response into `buffer` (when there is one) the way strlcpy
   * does with `maxBufferLen`.
   */
  method GetHttpPage(host: CString, path: CString, port: Port, buffer: array?<char>, maxBufferLen: nat, peer: Peer)
    returns (status: Status, ghost trace: seq<Event>)
    requires buffer != null ==> maxBufferLen <= buffer.Length
    modifies buffer
    ensures status == FetchStatus(host, path, port, peer)
    ensures trace == FetchTrace(host, path, port, peer)
    ensures buffer != null && status.Ok? ==> buffer[..] == LCopy(old(buffer[..]), peer.response, maxBufferLen)
    ensures buffer != null && status.Fail? ==> buffer[..] == old(buffer[..])
  {
    var wrong := StrPBrk(host, Prohibited);
    if wrong.Some? {
      return Fail(HostError(host[..wrong.value])), [];
    }
    wrong := StrPBrk(path, Prohibited);
    if wrong.Some? {
      return Fail(PathError(path[..wrong.value])), [];
    }
    assert CheckUri(host, path) == Ok;

    var s := new Socket(peer);
    var ok := s.Connect(host, port);
    if ok {
      var request := Request(host, path);
      ok := s.SendRaw(request);
      if ok {
        ok := s.RecvRaw();
        if ok && buffer != null {
          StrLCpy(buffer, s.buffer, maxBufferLen);
        }
      }
      s.Close();
    }
    trace := s.trace;
    assert trace == FetchTrace(host, path, port, peer);

    if !ok {
      assert FetchStatus(host, path, port, peer) == Fail(TransportError(s.error));
      return Fail(TransportError(s.error)), trace;
    }
    assert FetchStatus(host, path, port, peer) == Ok;
    status := Ok;
  }
}
