# Zabbix agent web-page checks, modelled in Dafny

This project models `src/libs/zbxsysinfo/common/http.c` from the Zabbix agent. That file holds the three
agent items that fetch a web page: `web.page.get` (`WEB_PAGE_GET`), `web.page.perf` (`WEB_PAGE_PERF`)
and `web.page.regexp` (`WEB_PAGE_REGEXP`). All three go through the helper `get_http_page`. The model
covers all of that file's own logic:

- the sanitizer that refuses a host or a path holding a byte of `URI_PROHIBIT_CHARS`;
- the HTTP/1.1 request it builds: the request line of section 3.1.1 of RFC 7230, the `Host` header of
  section 5.4 and `Connection: close` of section 6.1;
- the order in which it drives the socket, recorded in a ghost trace;
- the strlcpy-style copy of the response into the caller's buffer;
- the parameter checks of the three items, in the order the code makes them, with their messages;
- trimming the page for `web.page.get`;
- the in-place line scan of `web.page.regexp`.

Files (one module each):

- `wrappers.dfy` (`Wrappers`): `Option`, `Result` and `Status`, which is success or a failure message.
- `cstrings.dfy` (`CStrings`): the C string functions http.c relies on. These are `strchr`, `strlen`,
  `strlcpy` and `zbx_rtrim`. Each has a specification function on sequences. `strchr`, `strlen` and
  `strlcpy` also have a method that works on an `array<char>` and is proved against that function.
- `lines.dfy` (`LineScan`): what the line scan of `web.page.regexp` sees. The text is cut at `'\n'`, and
  at most one trailing `'\r'` is dropped per line. The scan reports the first line the matcher accepts.
- `http.dfy` (`Http`): `get_http_page`. The socket is a class whose methods update it in place and
  append to a ghost trace. The other end of the connection is a `Peer` value: how each socket operation
  turns out, and what the server sends.
- `checks.dfy` (`Checks`): the three items. They are methods over character arrays, and each is proved
  equal to a specification function.

`is_ushort`, `is_uint31_1` and `zbx_regexp_sub` are defined outside http.c. They are passed in as
function parameters, so every property holds for any parser and any regular-expression engine.

Behaviour worth noting:

- `web.page.regexp` drops a `'\r'` only from a line that a `'\n'` ends. The text after the last `'\n'`
  is handed to the matcher as it is, including a trailing `'\r'` (http.c:249-255). `LineScan.Lines` and
  `LineScan.LinesAreChompedSegments` state this.
- The default of the fifth parameter of `web.page.regexp` is `MAX_BUFFER_LEN - 1`. It is not the
  1 MiB capture buffer less one. The parsed value is never used afterwards (http.c:231-237), which
  `Checks.LengthIsIgnored` states.
- `web.page.regexp` always hands at least one line to the matcher, even when the page is empty.

## Model

| member | source | states |
|---|---|---|
| Http.UriProhibitCharsAreProhibited | src/libs/zbxsysinfo/common/http.c:30-31 | a byte is in URI_PROHIBIT_CHARS exactly when it is 0x01 to 0x1F or 0x7F; the array's final 0 is only its terminator |
| Http.StrPBrk | src/libs/zbxsysinfo/common/http.c:41-53 | strpbrk finds the first index whose byte is in the set, no earlier byte is in it, and it finds none exactly when no byte is |
| Http.CheckUri | src/libs/zbxsysinfo/common/http.c:41-53 | succeeds iff neither host nor path holds a prohibited byte; a bad host wins, and its message quotes exactly the host before its first prohibited byte; with a clean host, a bad path fails with the path before its first prohibited byte |
| Http.HostError | src/libs/zbxsysinfo/common/http.c:43-44 | the refused-host message; Http.CheckUri states when it is given and what it quotes, and Http.ErrorMessagesAreDistinct that it quotes back exactly that prefix |
| Http.PathError | src/libs/zbxsysinfo/common/http.c:50-51 | the refused-path message; Http.CheckUri states when it is given and what it quotes, and Http.ErrorMessagesAreDistinct that it quotes back exactly that prefix |
| Http.ErrorMessagesAreDistinct | src/libs/zbxsysinfo/common/http.c:43-51 | the host, path and transport messages never coincide, and each gives back exactly the text it quotes |
| Http.RequestTarget | src/libs/zbxsysinfo/common/http.c:58-63 | the request-target always starts with '/'; a path that already starts with '/' is kept as is, any other path gets one '/' in front, and an empty path becomes "/" |
| Http.Request | src/libs/zbxsysinfo/common/http.c:58-63 | the composed request; Http.RequestBounds and Http.RequestLines state its text: request line, Host, Connection: close and the empty line |
| Http.RequestBounds | src/libs/zbxsysinfo/common/http.c:58-63 | the request starts with "GET /" and ends with the empty line "\r\n\r\n" |
| Http.RequestLines | src/libs/zbxsysinfo/common/http.c:58-63 | with a sanitized host and path the request, read line by line, is exactly the request line, the Host header, Connection: close and the terminating empty line: neither field can inject a header |
| Http.FetchTrace | src/libs/zbxsysinfo/common/http.c:41-75 | no socket operation happens iff the sanitizer refuses; otherwise the first is a connect to host:port, and every send carries exactly the composed request |
| Http.FetchTraceDisciplined | src/libs/zbxsysinfo/common/http.c:55-75 | at most one connect and it comes first; a send only right after a successful connect; a receive only right after a successful send; exactly one close iff the connect succeeded, and then as the last operation |
| Http.TransportError | src/libs/zbxsysinfo/common/http.c:79 | the message of a failed socket operation; Http.FetchStatus states which operation's error text it carries |
| Http.FetchStatus | src/libs/zbxsysinfo/common/http.c:41-83 | a sanitizer refusal is returned as is; success iff a receive succeeded; a failed connect, send or receive yields "HTTP get error: " + that operation's error text |
| Http.Socket.Connect | src/libs/zbxsysinfo/common/http.c:55-56 | opens the socket iff the peer accepts, records the error text otherwise, and appends the connect to the trace |
| Http.Socket.SendRaw | src/libs/zbxsysinfo/common/http.c:65 | on an open socket, reports the peer's outcome, records the error text on failure, appends the send to the trace |
| Http.Socket.RecvRaw | src/libs/zbxsysinfo/common/http.c:67 | on success the socket buffer holds the whole response; on failure the error text is recorded; the receive is appended to the trace |
| Http.Socket.Close | src/libs/zbxsysinfo/common/http.c:74 | closes the socket and appends the close to the trace, leaving buffer and error text alone |
| Http.GetHttpPage | src/libs/zbxsysinfo/common/http.c:33-84 | returns FetchStatus and performs exactly FetchTrace; on success a non-NULL buffer holds the strlcpy of the response, on failure it is unchanged |
| CStrings.Find | src/libs/zbxsysinfo/common/http.c:249 | the index of the first occurrence of a character, or none exactly when the character does not occur |
| Http.FindIsStrPBrk | src/libs/zbxsysinfo/common/http.c:41-53 | the strchr search is the strpbrk search with a one-character set |
| CStrings.CStrOfTerminated | src/libs/zbxsysinfo/common/http.c:252-254 | a NUL written after a string ends the C string there, whatever follows it |
| CStrings.Copied | src/libs/zbxsysinfo/common/http.c:69-70 | what strlcpy keeps is a prefix of the source's C string of at most size - 1 characters, and all of it when shorter |
| CStrings.LCopy | src/libs/zbxsysinfo/common/http.c:69-70 | after strlcpy the buffer keeps its length, reads as the copied C string, and is unchanged past the copy's NUL; a size of 0 writes nothing |
| CStrings.StrLCpy | src/libs/zbxsysinfo/common/http.c:69-70 | the in-place copy loop leaves exactly LCopy of the old buffer |
| CStrings.StrLen | src/libs/zbxsysinfo/common/http.c:123 | the length found by scanning for the NUL delimits exactly the C string at that position |
| CStrings.StrChr | src/libs/zbxsysinfo/common/http.c:249 | strchr finds the first occurrence of the character within the C string at that position, or reports none exactly when it has none |
| CStrings.RTrim | src/libs/zbxsysinfo/common/http.c:122 | rtrim leaves a prefix whose last character is not in the set, and removes only characters in the set |
| CStrings.RTrimIdempotent | src/libs/zbxsysinfo/common/http.c:122 | trimming twice gives what trimming once gives |
| CStrings.RTrimUnique | src/libs/zbxsysinfo/common/http.c:122 | any prefix that ends outside the set and is followed only by characters in it is the rtrim result: rtrim removes the longest such suffix |
| LineScan.Segments | src/libs/zbxsysinfo/common/http.c:247-264 | the scan's pieces: at least one, none holding a '\n' |
| LineScan.JoinSegments | src/libs/zbxsysinfo/common/http.c:247-264 | joining the pieces with '\n' gives the text back: cutting loses nothing |
| LineScan.SegmentsJoin | src/libs/zbxsysinfo/common/http.c:247-264 | pieces without '\n' are recovered exactly from their join |
| LineScan.Chomp | src/libs/zbxsysinfo/common/http.c:251-254 | at most one character is dropped, and one is dropped iff the piece ends in '\r' |
| LineScan.Lines | src/libs/zbxsysinfo/common/http.c:247-264 | the matcher is always handed at least one line |
| LineScan.LinesAreChompedSegments | src/libs/zbxsysinfo/common/http.c:247-264 | the lines are the '\n'-separated pieces in order, each ended by a '\n' losing one trailing '\r', the last one as it is |
| LineScan.FirstMatch | src/libs/zbxsysinfo/common/http.c:257-258 | the reported line is accepted with the reported result and every earlier line is rejected; none is reported iff every line is rejected |
| LineScan.Visited | src/libs/zbxsysinfo/common/http.c:257-263 | the lines handed to the matcher are a prefix of the lines; all but the last are rejected; either all lines are visited or the last visited is accepted, so no later line is evaluated |
| LineScan.ScanResult | src/libs/zbxsysinfo/common/http.c:273-276 | the result is the matcher's result on the first accepted line, and "" when no line is accepted |
| LineScan.FirstMatchPrefix | src/libs/zbxsysinfo/common/http.c:257-258 | once a line matches, the text after it cannot change the result |
| Checks.Param | src/libs/zbxsysinfo/common/http.c:97-99 | a parameter is present iff its position is below the parameter count, and is then the given string |
| Checks.PortOf | src/libs/zbxsysinfo/common/http.c:112-118 | an absent or empty port gives ZBX_DEFAULT_HTTP_PORT, and any other is exactly what is_ushort makes of it, as also at lines 161-167 and 223-229 |
| Checks.PageGetTarget | src/libs/zbxsysinfo/common/http.c:91-118 | more than 3 parameters gives "Too many parameters."; otherwise "Invalid first parameter." iff the host is absent or empty; with a host, "Invalid third parameter." iff a non-empty port fails is_ushort, and a request with a host and an unset or valid port is accepted; on success host, path (absent is "") and port (absent or empty is 80) are as given |
| Checks.PagePerfTarget | src/libs/zbxsysinfo/common/http.c:140-167 | web.page.perf's parameter checks; Checks.PerfValidatesLikeGet states that they give exactly what web.page.get's give for every request |
| Checks.PerfValidatesLikeGet | src/libs/zbxsysinfo/common/http.c:140-167 | web.page.perf's checks accept the same requests as web.page.get's and give the same target and the same messages |
| Checks.PageGetEmptyIsAbsent | src/libs/zbxsysinfo/common/http.c:101-118 | an empty trailing parameter means the same to web.page.get as no parameter |
| Checks.CheckTrace | src/libs/zbxsysinfo/common/http.c:91-120 | a refused request performs no socket operation |
| Checks.PageGet | src/libs/zbxsysinfo/common/http.c:120-131 | a refused request gives its message; an accepted one succeeds iff its fetch does, and otherwise fails with the fetch's message; a page is the strlcpy copy of the response with exactly its trailing '\r' and '\n' removed: a prefix of the copy, followed in it only by those characters, never ending in either, shorter than MAX_BUFFER_LEN, and unchanged by trimming again |
| Checks.WebPageGet | src/libs/zbxsysinfo/common/http.c:86-132 | the item run over its buffer returns PageGet and performs CheckTrace |
| Checks.PagePerf | src/libs/zbxsysinfo/common/http.c:169-182 | a refused request gives its message; an accepted one gives exactly the fetch status of its target |
| Checks.PerfSucceedsWithGet | src/libs/zbxsysinfo/common/http.c:169-182 | web.page.perf succeeds iff web.page.get does on the same request and peer, and otherwise fails with the same message |
| Checks.WebPagePerf | src/libs/zbxsysinfo/common/http.c:134-183 | the item fetches with a NULL buffer and returns PagePerf, performing CheckTrace |
| Checks.PageRegexpArgs | src/libs/zbxsysinfo/common/http.c:193-241 | more than 6 parameters, checked first, gives "Too many parameters."; fewer than 4 gives "Invalid number of parameters."; then "Invalid first parameter." iff the host is empty, "Invalid third parameter." iff a non-empty port fails is_ushort, "Invalid fifth parameter." iff a given length fails is_uint31_1; 4 to 6 parameters with a host, a valid or empty port and an unset or valid length are accepted; on success the port defaults to 80, the length to MAX_BUFFER_LEN - 1, the path is as given, the pattern is the fourth parameter, and the output template is a given sixth parameter, else "\\0" |
| Checks.PageRegexpEmptyIsAbsent | src/libs/zbxsysinfo/common/http.c:231-241 | an empty fifth or sixth parameter means the same as none |
| Checks.RegexpBody | src/libs/zbxsysinfo/common/http.c:243-245 | the scanned text is a prefix of the response's C string shorter than the 1 MiB buffer, and the whole C string when that fits |
| Checks.PageRegexp | src/libs/zbxsysinfo/common/http.c:245-276 | a refused request gives its message, a failed fetch the fetch error (never ""), and a fetched page the scan result of its lines |
| Checks.LengthIsIgnored | src/libs/zbxsysinfo/common/http.c:231-237 | two requests that differ only in a valid fifth parameter get the same answer |
| Checks.FirstMatchAt | src/libs/zbxsysinfo/common/http.c:257-258 | a line that is accepted after only rejected ones is the first match |
| Checks.StopAtMatch | src/libs/zbxsysinfo/common/http.c:257-258 | the scan stopping at an accepted line after rejected ones has found the first match and visited exactly those lines |
| Checks.StopAtEnd | src/libs/zbxsysinfo/common/http.c:260-263 | the scan running out of lines with all rejected finds no match and has visited every line |
| Checks.FirstLineEndsAt | src/libs/zbxsysinfo/common/http.c:249 | the first line of the remaining text ends at the first '\n' from the scan position |
| Checks.CutLineStep | src/libs/zbxsysinfo/common/http.c:251-254 | the NUL written over the '\r' before the '\n', or over the '\n', leaves the line without them as the C string at the scan position and leaves the rest of the buffer as it was |
| Checks.EndLine | src/libs/zbxsysinfo/common/http.c:251-254 | ending a line in place writes exactly one NUL, over the '\r' just before the '\n' if there is one and over the '\n' otherwise, and changes no other byte; the line read back is the piece with at most one trailing '\r' dropped, and the buffer from the next line on is unchanged |
| Checks.CutLine | src/libs/zbxsysinfo/common/http.c:249-255 | one scan step in place returns the first remaining line and where the next starts; on the last line it writes nothing; otherwise the '\n' is at the next start less one and the only byte written is one NUL, over it or over a '\r' just before it |
| Checks.ScanBuffer | src/libs/zbxsysinfo/common/http.c:247-276 | the in-place loop returns ScanResult of the text and hands the matcher exactly Visited of its lines |
| Checks.WebPageRegexp | src/libs/zbxsysinfo/common/http.c:185-281 | the item returns PageRegexp, performs CheckTrace of its target, and evaluates exactly the visited lines |

## Left out

- The TCP transport (`zbx_tcp_connect`, `zbx_tcp_send_raw`, `zbx_tcp_recv_raw`, `zbx_tcp_close`) is I/O. It is modelled as a `Peer` value giving each operation's outcome and the received text. `CONFIG_SOURCE_IP`, `CONFIG_TIMEOUT` and the unencrypted-connection flags are not modelled.
- `zbx_socket_strerror` is the error text carried by the `Peer` step that failed; its own wording is not modelled.
- `is_ushort`, `is_uint31_1` and `zbx_regexp_sub` are defined outside http.c. They are uninterpreted function parameters, constrained only by their result ranges.
- `MAX_STRING_LEN` truncation is not modelled: the silent cut of the path by `strscpy` and of the request by `zbx_snprintf`. Its value is defined outside http.c, and the model takes the path and the request whole.
- `MAX_BUFFER_LEN` is an abstract positive constant, because its value is defined outside http.c.
- The elapsed time `web.page.perf` reports (`zbx_time`, `SET_DBL_RESULT`) is wall-clock floating point. Only its validation and its fetch with a NULL buffer are modelled.
- The agent framework is not modelled: `get_rparam` as anything but list indexing, the `SET_*_RESULT` macros, `zbx_strdup`, `zbx_malloc` and `zbx_free`.
- `Checks.WebPageGet`: `zbx_rtrim` is applied to the string read out of the buffer rather than in place, because its body is defined outside http.c.
- Bytes are Dafny `char`s, and a C string is a sequence without NUL. Host, path and parameters are such strings, as `get_rparam` hands them over.
