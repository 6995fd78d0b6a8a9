# py-cdp-proxy core, modelled in Dafny

`cdp_proxy.py` sits between a Chrome DevTools Protocol client and a browser.
It forwards HTTP requests to the browser's debug HTTP API. It relays
WebSocket debug sessions. It also keeps one browser process alive. This
project models the parts of it that compute or update state without
touching a socket:

- **Reverse proxy** (`reverse_proxy`). Module `ReverseProxy` builds the
  upstream URL (`http://<remote>` + path + `?query` only when the query is
  not empty). Module `Headers` drops every inbound header whose lowercased
  name is `host`. The upstream response body is then rewritten with
  `bytes.replace`: every `ws://<remote>/devtools` becomes
  `ws://<listen>/devtools`. Module `Replace` holds a generic, left-to-right,
  non-overlapping replace, and module `Utf8` holds `str.encode()`. Last, the
  `Content-Length` header (section 8.6 of RFC 9110) is recomputed. Module
  `Decimal` holds `str(int)` and `int(str)`.
- **Browser supervision** (`create_remote_browser`, `check_browser`,
  `now_pid`). Module `Browser` extracts the port from the remote address
  (`split(":")[-1]`) and builds the seven-entry browser command line. Class
  `Browser.BrowserSupervisor` holds the `now_pid` slot. Its `CheckBrowser`
  method relaunches the browser when the slot is empty or the recorded
  process is dead, and otherwise reports it as running. Two things are
  parameters, because they are outside the program: the liveness test
  (`check_pid_alive`) and the launch (`subprocess.Popen`, which gives a pid
  or raises).
- **Session log file name** (`clean_re`, `create_log`). Module
  `SessionLog` removes every character outside `[a-zA-Z0-9_\-.]` from the
  session id. It then decides whether a file is opened and, if so, its name.

Some behaviour of the code worth knowing, which the model keeps:
- Response headers are copied through `dict(resp.headers)`, so two upstream
  headers with the same name (two `Set-Cookie`, say) collapse to one, with
  the first value.
- The browser is started with `-remote-allow-origins=*`, with a single dash.
- A failed launch is reported as the status text `re start browser=None:None`.
- `check_browser` converts the port with `int()`. When the port text is not
  a number, this raises and the request fails. The model returns
  `PortNotNumeric` there and leaves the slot as it was.
- A log mask whose name has no '/' makes `os.makedirs` receive the empty
  directory name, which raises (`NoDirectoryPart`). `create_log` is called
  at cdp_proxy.py:186, outside the `try` at :189, so this ends the whole
  WebSocket session, not just its log file.
- Starlette builds `request.url` by splitting the URL text with
  `urlsplit`, so `request.url.path` never holds a '?' (one decoded from
  `%3F` moves into the query). The premise of the URL
  read-back lemmas, a path without '?', therefore always holds for the
  requests the proxy receives.

One place departs from the code on purpose. The response path
(`ReverseProxy.RewriteResponse`, `ReverseProxy.Proxy`) uses the corrected
response headers of `Headers.ResponseHeaders`. The code as written is
modelled separately, in `Headers.ResponseHeadersAsWritten`; see
"## Findings".

## Model

| member | source | states |
|---|---|---|
| Decimal.NatToDecimal | cdp_proxy.py:118 | `str(n)` is a canonical decimal: digits only, non-empty, no leading zero except "0" itself, and "0" exactly for 0 |
| Decimal.ParseDecimal | cdp_proxy.py:81 | `int(text)` succeeds exactly on non-empty all-digit text |
| Decimal.ParseNatToDecimal | cdp_proxy.py:118 | reading back `str(n)` gives `n` |
| Decimal.NatToDecimalOfParse | cdp_proxy.py:118 | every canonical decimal is `str` of its value, so the two conversions are inverse on canonical text |
| Utf8.Encode | cdp_proxy.py:112-113 | `str.encode()` gives between one and four bytes per character |
| Utf8.DecodeEncodeChar | cdp_proxy.py:112-113 | decoding the first character of an encoding gives that character back and its byte count |
| Utf8.EncodeInjective | cdp_proxy.py:112-113 | two strings with the same encoding are equal |
| Utf8.EncodeAppend | cdp_proxy.py:112-113 | encoding a concatenation concatenates the encodings |
| Replace.ReplaceAll | cdp_proxy.py:114 | `bytes.replace`, left to right, without overlap or rescanning; a replacement as long as the pattern keeps the length, a shorter one never lengthens, a longer one never shortens; pinned on every input by ReplaceNoMatch and ReplaceFirstMatch |
| Replace.FirstMatch | cdp_proxy.py:133 | finds the first index where the pattern occurs, or reports that none does (`"%s" in log_mask`) |
| Replace.ReplaceNoMatch | cdp_proxy.py:114 | `bytes.replace` leaves a sequence without an occurrence unchanged |
| Replace.ReplaceFirstMatch | cdp_proxy.py:114 | the text before the first occurrence is kept, the occurrence becomes the replacement, and the scan resumes after it without rescanning |
| Replace.ReplaceJoin | cdp_proxy.py:114 | a sequence cut at the occurrences a left-to-right scan finds becomes the same pieces joined by the replacement |
| Replace.ReplaceWithItself | cdp_proxy.py:114 | replacing a pattern by itself changes nothing |
| Headers.ForwardHeaders | cdp_proxy.py:105 | a name is forwarded exactly when some inbound header has it and its lowercase is not `host`; its value is that of the last header with that name, so nothing is added or altered |
| Headers.UpstreamDict | cdp_proxy.py:117 | `dict(resp.headers)` has exactly the upstream names, each mapped to the first value whose name matches ignoring case |
| Headers.ResponseHeadersAsWritten | cdp_proxy.py:117-118 | the code as written: `Content-Length` reads back as the body length, and every other name is kept exactly when upstream had it, with its upstream value, including a lowercase `content-length` |
| Headers.StaleContentLengthKept | cdp_proxy.py:117-118 | an upstream `content-length: 5` survives next to the recomputed `Content-Length: 7` |
| Headers.ResponseHeaders | cdp_proxy.py:116-118 | the corrected headers: one content-length key, which reads back as the body length; every other upstream name kept with its upstream value |
| ReverseProxy.TargetUrl | cdp_proxy.py:103 | the URL is `http://<remote>` followed by the path, and is longer than both exactly when a query follows, after a '?'; its inverse is stated by TargetUrlParse |
| ReverseProxy.TargetUrlReadBack | cdp_proxy.py:103 | the URL built from a path without '?' reads back as that path and query |
| ReverseProxy.ParseTargetBuilds | cdp_proxy.py:103 | any URL that reads back as (path, query) is the one built from them |
| ReverseProxy.TargetUrlParse | cdp_proxy.py:103 | a URL reads back as (path, query) exactly when it is `http://<remote>` + path + (`?query` only if the query is not empty) and the path holds no '?' |
| ReverseProxy.ForwardRequest | cdp_proxy.py:103-108 | the upstream request keeps verb and body, its URL reads back as the inbound path and query, and its headers are those of ForwardHeaders: every inbound name but `host`, with the last value |
| ReverseProxy.WsBase | cdp_proxy.py:112-113 | the encoded debugger URL prefix is never empty, so `bytes.replace` has a real pattern |
| ReverseProxy.WsBaseInjective | cdp_proxy.py:112-113 | two addresses give the same encoded prefix only if they are equal |
| ReverseProxy.RewriteBody | cdp_proxy.py:112-114 | `raw.replace(replace_url, new_url)`; prefixes of equal encoded length keep the body length, a shorter listen prefix never lengthens it; described by RewriteBodyNoMatch, RewriteBodyPieces and RewriteOneUrl |
| ReverseProxy.RewriteBodyNoMatch | cdp_proxy.py:112-114 | a body without `ws://<remote>/devtools` is returned unchanged |
| ReverseProxy.RewriteBodyPieces | cdp_proxy.py:112-114 | the body keeps every piece between occurrences and gets the listen prefix in place of each |
| ReverseProxy.RewriteOneUrl | cdp_proxy.py:112-114 | one `ws://<remote>/devtools<tail>` in a body becomes `ws://<listen>/devtools<tail>`, the rest untouched |
| ReverseProxy.RewriteSameAddress | cdp_proxy.py:112-114 | with listen equal to remote the body is unchanged |
| ReverseProxy.RewriteResponse | cdp_proxy.py:109-120 | with the corrected headers: status passed through; the body is RewriteBody of the upstream body; `Content-Length` reads back as the rewritten body length and is the only content-length key; every other upstream header kept with its upstream value; a body without the remote prefix is unchanged |
| ReverseProxy.Proxy | cdp_proxy.py:100-120 | with the corrected headers: an upstream failure ends the request; otherwise the response is RewriteResponse of the upstream answer, with the upstream status, the rewritten body and a matching `Content-Length` |
| Browser.PortText | cdp_proxy.py:47-48 | the port text is the longest colon-free suffix of the address: a suffix, without ':', preceded by ':' unless it is the whole address |
| Browser.PortTextOfSuffix | cdp_proxy.py:47-48 | text after a final ':' that holds no ':' is exactly what the port extraction returns |
| Browser.BrowserArgv | cdp_proxy.py:66 | seven entries, the executable first; the flags are read back by BrowserArgvReadBack |
| Browser.BrowserArgvReadBack | cdp_proxy.py:66 | seven entries, executable first; exactly one entry carries the debugging port and exactly one the profile directory, and both read back as given |
| Browser.CreateRemoteBrowser | cdp_proxy.py:57-78 | the launch is given the seven-entry command line; the result is (pid, port) on success and (None, None) on failure |
| Browser.StatusText | cdp_proxy.py:93-95 | every outcome but a failed port conversion has a status text; read back by StatusTextReadBack |
| Browser.ShowOptionReadBack | cdp_proxy.py:93 | `str()` of a pid or port reads back as that number, and of None is "None"; neither holds ':' |
| Browser.RestartTextReadBack | cdp_proxy.py:93 | the restart text splits at its last ':' into the texts of the new pid and of the port |
| Browser.StatusTextReadBack | cdp_proxy.py:93-95 | after "running:" the digits read back as the pid; after a restart the text between the prefix and the last ':' reads back as the new pid and the text after it as the port, each "None" for a failed launch |
| Browser.StatusTextIsJsonPlain | cdp_proxy.py:93-95 | every status text is printable ASCII without '"' or '\\', so `json.dumps` writes it without escapes |
| Browser.StatusBody | cdp_proxy.py:93-95 | `json.dumps({"status": text})` is produced exactly for the outcomes with a status text, and the text reads back from the body |
| Browser.Transition | cdp_proxy.py:87-95 | one status request: the reply is "running" exactly when the slot holds a live pid, and then the slot is unchanged; a failed port conversion leaves it unchanged; after a restart the slot holds the reported pid; the slot changes only by a restart |
| Browser.TransitionKeepsLiveProcess | cdp_proxy.py:89-95 | a live recorded pid is kept, nothing is launched, and the reply is `running:<pid>` |
| Browser.TransitionRelaunches | cdp_proxy.py:89-93 | with no live pid, the slot becomes what the launch returned, and the reply carries that pid and the port |
| Browser.FailedLaunchRetried | cdp_proxy.py:75-93 | a failed launch leaves the slot empty, replies `re start browser=None:None`, and the next request launches again |
| Browser.LaunchedThenRunning | cdp_proxy.py:87-95 | after a successful launch, a request that finds that process alive reports it as running |
| Browser.BrowserSupervisor.constructor | cdp_proxy.py:61-82 | startup picks the executable by platform, keeps the port text of the remote address, and records the launched pid when the browser is run at startup, and nothing otherwise |
| Browser.BrowserSupervisor.CheckBrowser | cdp_proxy.py:87-95 | the new slot and the reply are the transition's; it launches exactly when the slot is empty or dead and the port text is a number; a live slot is unchanged; after a launch the slot holds the reported pid |
| SessionLog.CleanId | cdp_proxy.py:55 | the cleaned id holds only `[a-zA-Z0-9_\-.]` characters and is no longer than the id |
| SessionLog.CleanIdCounts | cdp_proxy.py:134 | each safe character is kept as often as it occurs in the id, and no other character is kept |
| SessionLog.CleanIdSubsequence | cdp_proxy.py:134 | the cleaned id keeps the order of the characters it keeps |
| SessionLog.CleanIdAppend | cdp_proxy.py:134 | cleaning a concatenation concatenates the cleaned pieces |
| SessionLog.CleanIdUnchanged | cdp_proxy.py:134 | an id is unchanged exactly when all its characters are safe |
| SessionLog.SubstituteAddsNoSlash | cdp_proxy.py:134 | putting the cleaned id in place of `%s` adds no '/' |
| SessionLog.FormatMask | cdp_proxy.py:132-134 | the mask is formatted unless it mixes `%s` with another '%', and the name has as many '/' as the mask |
| SessionLog.LogFileName | cdp_proxy.py:131-136 | an opened file's name holds a '/'; the empty-directory failure happens only for a mask without '/' |
| SessionLog.LogFileNameCases | cdp_proxy.py:131-136 | no file when file logging is off or the mask is empty; otherwise the result is a file name (`FileAt`) exactly when the mask's formatting is modelled and the mask holds a '/', a mask without '/' failing in `os.makedirs` whatever the id; without `%s` the name is the mask, with it the mask around the cleaned id |
| SessionLog.LogFileNameKeepsSlashCount | cdp_proxy.py:131-136 | the file name has as many '/' as the mask, whatever the session id |
| SessionLog.LogFileInMaskDirectory | cdp_proxy.py:131-136 | when no '/' follows the `%s` of the mask, the file name has the mask's directory part, whatever the session id |

## Left out

- The WebSocket relay (`proxy_ws_to_remote`, `proxy_ws_to_client`, `websocket_endpoint`, cdp_proxy.py:159-226) is not modelled. It is concurrent I/O over live sockets with task cancellation.
- `check_version` (cdp_proxy.py:147-155) is an HTTP fetch plus JSON parsing, so it is left out. It treats any status other than 200 as a failure.
- The HTTP session, routing and server start (cdp_proxy.py:102, 108-109, 229-235) are left out. The upstream answer is the `upstream` parameter of `ReverseProxy.Proxy`.
- Command-line parsing (cdp_proxy.py:32-44) is left out. Its values are parameters, and `--run_browser` is a `bool`. The textual `-rb False` is truthy in the code, and the model does not capture that.
- The logger, handler and formatter setup, and the file handle (cdp_proxy.py:126-141), are I/O. `SessionLog.LogFileName` stands for the file handler that is returned. Of `os.makedirs`, only its failure on the empty directory name is modelled; a failure to create or open a directory that has a name is not.
- `subprocess.Popen`, `tempfile.mkdtemp` and `time.sleep` (cdp_proxy.py:58-59, 71-73) are left out. The launch is the `popen` parameter, the temporary directory is the `tempDir` parameter, and the one-second wait is not modelled.
- browser_utils.py is not part of this model. `check_pid_alive` is the `isAlive` parameter.
- `Replace.ReplaceAll`: the empty pattern is not modelled. The only pattern used, `ws://<remote>/devtools`, is never empty.
- `Headers.Lower`: only ASCII letters are lowercased. Python's `str.lower` also folds other letters, which matters only for non-ASCII header names.
- `Decimal.ParseDecimal`: accepts ASCII digits only. Python's `int()` also accepts surrounding whitespace, a sign, underscores and other Unicode digits.
- `SessionLog.LogFileName`: a mask with `%s` and any other '%' is reported as `MaskUnsupported`, because `%` formatting beyond a single `%s` is not modelled.
- `SessionLog.LogFileName`: the directory part is found with POSIX `os.path.dirname`, which splits at '/' only. On Windows, `\` and a drive prefix also give a directory.
- `SessionLog.LogFileInMaskDirectory`: the cleaned id may be "." or "..". Then the last path component names the mask's directory itself or its parent, and opening that as a file fails. The lemma is about the text of the name only.
- `SessionLog.LogFileName`: failures of `logging.FileHandler` are not modelled. A name that ends in '/' is still `FileAt`, for example mask `logs/%s` with an id that cleans to "" (from `/devtools/!!!`), and so is a name that is an existing directory; opening either fails.
- `Browser.BrowserSupervisor.constructor`: its requirement that the port text of the remote address be a number, when the browser runs at startup, stands for the crash of `int(remote_port)` at cdp_proxy.py:81, which stops the program before it serves.
- `ReverseProxy.RewriteResponse`: builds the corrected headers of `Headers.ResponseHeaders`, not the code's. With an upstream `content-length`, the code also returns that stale header (see "## Findings"); `ReverseProxy.Proxy` inherits this.
- `Utf8.Encode`: a Dafny character is a Unicode scalar value, so a Python string holding a lone surrogate, which `str.encode()` rejects with an error, cannot be stated.
- Starlette's encoding of header names and values as bytes is not modelled. Headers are strings.

## Findings

| source | as written | input that shows it | evidently intended | confidence | as-written member | corrected member |
|---|---|---|---|---|---|---|
| cdp_proxy.py:117-118 | `headers['Content-Length']` is set on `dict(resp.headers)`, whose keys keep the spelling the multidict holds, so a differently spelt content-length key stays with its old value | an upstream that sends `content-length: 5` in lowercase, read by aiohttp's pure-Python parser (which keeps the name as it arrived; the compiled parser stores known names as `Content-Length`), and a body rewritten to 7 bytes: the dict handed to `Response` at cdp_proxy.py:120 holds both `content-length: 5` and `Content-Length: 7`; Starlette lowercases header names, so the response carries two conflicting `content-length` headers, the stale one first | exactly one content-length header, equal to the rewritten body length | low: only under that parser and a lowercase upstream name; not executed | Headers.StaleContentLengthKept | Headers.ResponseHeaders |
