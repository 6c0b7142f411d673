# send-to-clapper, modelled in Dafny

send-to-clapper hands a YouTube link from the browser to the Clapper media
player. A browser extension (Chrome and Firefox flavours) sends the link as a
native message; a small Python host, started by the browser for each message,
checks its own file permissions, reads one length-prefixed JSON frame from
standard input, validates the link against a prefix allow-list, runs
`flatpak run com.github.rafostar.Clapper <link>` without a shell, and writes one
length-prefixed JSON response back.

This project models that host and the link handling of both extensions as pure
functions over immutable data, and proves what they promise.

| file | module | models |
|---|---|---|
| results.dfy | `Results` | `Option` and `Result` (value or exception text) in place of Python exceptions |
| strings.dfy | `Strings` | `startswith` and "occurs at index" |
| bytes.dfy | `Bytes` | bytes and the 4-byte little-endian length prefix |
| json.dfy | `Json` | decoded JSON values |
| response_json.dfy | `ResponseJson` | the two response shapes, their `json.dumps` text, and an independent parser of that text |
| framing.dfy | `Framing` | `read_message`, `send_message`, and the browser's reading of a response frame |
| integrity.dfy | `Integrity` | `check_security` |
| validator.dfy | `Validator` | `validate_message` |
| launcher.dfy | `Launcher` | `launch_clapper`: the argument vector and the outcome mapping |
| host.dfy | `Host` | `main`: what a run writes, its exit status, and whether a launch was attempted |
| youtube_links.dfy | `YouTubeLinks` | `normalizeYouTubeLink` and its two regular expressions, matched by hand |
| extension_messages.dfy | `ExtensionMessages` | `openClapper`, the icon-click page test, the context-menu handler, and the extension-to-host properties |
| chrome_extension.dfy | `ChromeExtension` | Chrome's icon-click handler |
| firefox_extension.dfy | `FirefoxExtension` | Firefox's icon-click handler |

Inputs the host cannot compute are parameters: the two `os.stat` results and
the bytes on standard input form a `Host.World`; UTF-8 decoding plus
`json.loads` is a function `decode` from bytes to a value or an error text;
the child process is a function `run` from the argument vector to a
`Launcher.ChildResult`. A run's observable outcome is a `Host.Run`: the bytes
on standard output, the exit status, and the argument vector `subprocess.run`
was called with, if the run got that far. That is the attempted launch,
whether or not the player then started.

The response text is modelled concretely, as `json.dumps` writes it with
default settings: `", "` and `": "` separators, keys in insertion order, and
ASCII-only escaping (`\"`, `\\`, `\n`, `\r`, `\t`, `\b`, `\f`, lower-case
`\uXXXX`, surrogate pairs above U+FFFF). So "the frame holds exactly the
response" is a theorem, `Framing.SendReadRoundTrip`, not an assumption.

`normalizeYouTubeLink` is character-for-character the same in
chrome-extension/background.js:48-59 and firefox-extension/background.js:42-53,
so both extensions use the single `YouTubeLinks.NormalizeYouTubeLink`. Each
of the two regular expressions can match at a given start in at most one way:
`https` and `http:` differ at the fifth character, and `www.youtube.com` and
`youtube.com` differ at the first. So a match is fixed by where it starts.
`FindMatch` returns the leftmost start, and the capture is the longest run of
`[a-zA-Z0-9_-]` after the path.

The icon-click page test, `ExtensionMessages.IsVideoPage`, is the pair of
`includes` calls at chrome-extension/background.js:23 (the same in Firefox),
written as a predicate. `ExtensionMessages.WatchUrlIsVideoPage`,
`ExtensionMessages.ShortsUrlIsVideoPage` and
`ExtensionMessages.MobileWatchPageRefused` state what it accepts.

`ResponseJson.Parse` and `Framing.ReadResponseFrame` are a reference
reader written for this model: they stand for the browser's side of the
channel, which is not in the repository. They exist so that the host's
encoder and writer have an independent partner to round-trip against.

Three behaviours of the host are easy to misread:

- A child that exits non-zero is still answered with a `message` member,
  `{"success": false, "message": "Clapper error: <stderr>"}`, and exit status 0
  (`Host.PlayerFailure`).
- A player that cannot be started raises `FileNotFoundError` or another
  `OSError`. That is not a `SubprocessError`, so `launch_clapper` does not catch
  it. It reaches `main`'s handler: `{"success": false, "error": str(e)}`, exit
  status 1, and no "Failed to launch Clapper" text (`Host.PlayerMissing`).
  That text appears only for other `SubprocessError`s (`Launcher.OutcomeText`).
- A payload shorter than its declared length is not a framing error:
  `read(n)` returns what is there and the decoder sees the short payload
  (`Framing.ReadFrame`).

## Model

| member | source | states |
|---|---|---|
| Bytes.EncodeU32 | native-messaging-host/clapper_host.py:68 | `to_bytes(4, "little")` on a length below 2^32 gives 4 bytes, the low byte first and the high byte last |
| Bytes.DecodeU32 | native-messaging-host/clapper_host.py:56 | `from_bytes(..., "little")` of 4 bytes is below 2^32 and its low byte is the first byte |
| Bytes.DecodeEncodeU32 | native-messaging-host/clapper_host.py:56-68 | reading back a prefix written by `to_bytes(4, "little")` with `from_bytes(..., "little")` gives the length |
| Bytes.EncodeDecodeU32 | native-messaging-host/clapper_host.py:56 | every 4 bytes are the prefix of exactly one length: the two conversions are inverse bijections |
| ResponseJson.EscapeChar | native-messaging-host/clapper_host.py:67 | one character's escape in `json.dumps` is ASCII, 1 to 12 characters, never starts with a quote, and is the character itself exactly when it is printable ASCII other than `"` and `\` |
| ResponseJson.Escape | native-messaging-host/clapper_host.py:67 | an escaped string body is ASCII and at least as long as, and at most 12 times as long as, the string |
| ResponseJson.Encode | native-messaging-host/clapper_host.py:67 | the JSON text of a response is pure ASCII, so its UTF-8 byte count is its length, and at most 40 + 12 characters per character of its text |
| ResponseJson.EscapeRoundTrip | native-messaging-host/clapper_host.py:67 | reading an escaped string body up to its closing quote gives back the original string, whatever characters it holds, and leaves what follows untouched |
| ResponseJson.RoundTrip | native-messaging-host/clapper_host.py:67 | parsing the JSON text of a response gives back exactly that response |
| Framing.ReadFrame | native-messaging-host/clapper_host.py:51-61 | fewer than 4 bytes is end of input; a declared length above 1,048,576 is refused; otherwise the payload is the bytes right after the prefix, of the declared length unless input ends first |
| Framing.ReadMessage | native-messaging-host/clapper_host.py:48-62 | end of input exactly when fewer than 4 bytes arrive; "Message too large" for an oversized length; a message exactly when the decoder accepts the payload, and the decoder's error text otherwise |
| Framing.OversizeRejectedBeforePayload | native-messaging-host/clapper_host.py:56-58 | an oversized length is refused on the prefix alone: the payload bytes and the decoder make no difference |
| Framing.CapIsInclusive | native-messaging-host/clapper_host.py:57 | a declared length of exactly 1,048,576 is accepted and its payload is decoded |
| Framing.WriteFrame | native-messaging-host/clapper_host.py:68-69 | the frame is 4 + n bytes, its prefix reads back as n, and the payload follows unchanged |
| Framing.WriteReadFrame | native-messaging-host/clapper_host.py:51-69 | the host's reader reads any frame its writer produces, with a payload within the cap, back as that payload, whatever follows |
| Framing.SendMessage | native-messaging-host/clapper_host.py:65-70 | the frame is 4 bytes plus the payload and its prefix is the payload's byte length; it fails with "int too big to convert" exactly when the payload is 2^32 bytes or more |
| Framing.ShortResponsesFit | native-messaging-host/clapper_host.py:68 | any response whose text is under 2^28 characters can be framed |
| Framing.SendReadRoundTrip | native-messaging-host/clapper_host.py:67-69 | every frame the host writes is read by the browser as exactly one frame holding exactly the response sent |
| Integrity.CheckSecurity | native-messaging-host/clapper_host.py:9-23 | trusted exactly when both modes lack the others-write bit; the script is judged first; the directory refusal happens exactly when the script passes and the directory is world-writable; a failing `stat` of the script, or of the directory once the script passes, is raised with its text and is not a refusal |
| Validator.ValidateMessage | native-messaging-host/clapper_host.py:26-45 | accepts exactly an object whose `link` is a string starting with `https://www.youtube.com/` or `http://www.youtube.com/`, returns that string unchanged, and otherwise fails with one of the four error texts |
| Validator.ErrorOrder | native-messaging-host/clapper_host.py:28-43 | each failing check gives its own error and the first failing check wins: not an object, then missing `link`, then not a string, then not allowed |
| Validator.OnlyLinkMatters | native-messaging-host/clapper_host.py:31-45 | other members of the request never change the verdict |
| Validator.Examples | native-messaging-host/clapper_host.py:39-43 | the two YouTube links pass; `https://evil.com/...` and `javascript:alert(1)` are refused as "Invalid YouTube URL" |
| Launcher.ClapperArgv | native-messaging-host/clapper_host.py:77-82 | the argument vector is the three fixed words followed by the link as a single element |
| Launcher.LaunchClapper | native-messaging-host/clapper_host.py:73-91 | a pair is reported unless the child raised something other than a `SubprocessError`; success exactly when the child exited with status 0; any other `SubprocessError` gives "Failed to launch Clapper: " followed by exactly its text; an escaping exception keeps its text |
| Launcher.OutcomeText | native-messaging-host/clapper_host.py:84-91 | exit 0 without stderr gives "Video sent to Clapper"; with stderr, "Video sent to Clapper (Note: " then exactly the stderr then ")"; a non-zero exit gives "Clapper error: " followed by exactly the stderr; another `SubprocessError` gives "Failed to launch Clapper: " followed by exactly its text |
| Launcher.SuccessIffConfirmation | native-messaging-host/clapper_host.py:84-91 | a reported pair is a success exactly when its text begins with "Video sent to Clapper" |
| Host.Report | native-messaging-host/clapper_host.py:107-109 | the handler writes one frame that reads back as the error response and exits 1; if that frame cannot be written, nothing is written and the exit status is still 1 |
| Host.Answer | native-messaging-host/clapper_host.py:104-105 | the launch result is written as one `message` frame with exit status 0; a frame too large to write falls to the handler |
| Host.Main | native-messaging-host/clapper_host.py:94-109 | exit status 0 or 1 and at most one well-formed frame; permission refusal is silent with status 1; a failing `stat` goes to the handler (`error` frame or nothing, status 1, no launch); end of input is silent with status 0; a launch is attempted only with a link from the request that passed validation; a frame with status 0 is always a launch answer |
| Host.LaunchResultAnswered | native-messaging-host/clapper_host.py:104-105 | whatever the launch reports, failure included, is sent as a `message` frame and the host exits 0, for a text under 2^28 characters (longer texts are covered by `Host.Answer`) |
| Host.EarlyFailureReported | native-messaging-host/clapper_host.py:99-109 | a read or validation failure gives one `error` frame with its text, exit status 1, and no launch, for an error text under 2^28 characters (longer texts are covered by `Host.Report`) |
| Host.StatFailureReported | native-messaging-host/clapper_host.py:94-109 | a failing `os.stat` (lines 13 and 21) of the script, or of its directory once the script passes, gives one `error` frame with the exception's text, exit status 1, and no launch, for a text under 2^28 characters |
| Host.OversizedRequest | native-messaging-host/clapper_host.py:57-109 | an oversized request gives the "Message too large" error frame, exit status 1, and no launch |
| Host.CleanLaunch | native-messaging-host/clapper_host.py:84-105 | a child that exits 0 silently gives `{"success": true, "message": "Video sent to Clapper"}` and exit status 0 |
| Host.PlayerFailure | native-messaging-host/clapper_host.py:88-105 | a child that exits 1 with "no such app" gives `{"success": false, "message": "Clapper error: no such app"}` and exit status 0 |
| Host.PlayerMissing | native-messaging-host/clapper_host.py:77-109 | a player that cannot be started gives an `error` frame with the exception's text and exit status 1 |
| YouTubeLinks.RunEnd | chrome-extension/background.js:49-50 | the greedy `[a-zA-Z0-9_-]+` stops at the first non-identifier character or the end, and everything before is an identifier character |
| YouTubeLinks.FindMatch | chrome-extension/background.js:49-53 | the result is a match and no earlier start matches; no result means no start matches at all |
| YouTubeLinks.Capture | chrome-extension/background.js:53 | the captured identifier is non-empty and made of identifier characters only |
| YouTubeLinks.MatchShowsPath | chrome-extension/background.js:49 | a match always shows "youtube.com/" followed by the path in the URL |
| YouTubeLinks.NormalizeYouTubeLink | chrome-extension/background.js:48-59 | with no shorts match the URL is returned as is; otherwise the result is a canonical watch URL whose identifier is the leftmost match's capture |
| YouTubeLinks.ShortsRewritten | chrome-extension/background.js:49-54 | a URL with a shorts match becomes `https://www.youtube.com/watch?v=` plus the leftmost match's identifier |
| YouTubeLinks.OthersUnchanged | chrome-extension/background.js:55-58 | a URL with no shorts match comes back unchanged, whether or not it matches the watch pattern |
| YouTubeLinks.NoShortsInWatchUrl | chrome-extension/background.js:49-54 | a canonical watch URL never matches the shorts pattern |
| YouTubeLinks.NormalizeShape | chrome-extension/background.js:48-59 | the output equals the input exactly when there is no shorts match; otherwise it is a canonical watch URL |
| YouTubeLinks.Idempotent | chrome-extension/background.js:48-59 | normalizing twice gives the same as normalizing once |
| YouTubeLinks.RewrittenLinkAllowed | chrome-extension/background.js:54 | every rewritten link passes the host's allow-list |
| ExtensionMessages.OpenClapper | chrome-extension/background.js:62-65 | the message goes to `com.example.clapper` and is an object with the single member `link` holding the link |
| ExtensionMessages.ContextMenuClick | chrome-extension/background.js:12-17 | only the `sendToClapper` item acts, and it sends the normalized link without a page test |
| ExtensionMessages.HostVerdictOnLink | native-messaging-host/clapper_host.py:26-45 | the host accepts a message from `openClapper` exactly when its link is on the allow-list, and then returns the link unchanged |
| ExtensionMessages.NormalizedLinkVerdict | chrome-extension/background.js:48-65 | a shorts URL is always accepted as its canonical watch URL; any other URL arrives unchanged and is accepted exactly when it is on the allow-list |
| ExtensionMessages.WatchUrlIsVideoPage | chrome-extension/background.js:23 | every canonical watch URL, and so every rewritten link, passes the icon-click page test |
| ExtensionMessages.ShortsUrlIsVideoPage | chrome-extension/background.js:23 | every URL with a shorts match passes the icon-click page test |
| ExtensionMessages.VideoPageLinkNonEmpty | chrome-extension/background.js:23-33 | a page that passes the test never normalizes to the empty string |
| ExtensionMessages.MobileWatchPageRefused | chrome-extension/background.js:23-28 | `https://m.youtube.com/watch?v=abc` passes the page test and is sent unchanged, and the host refuses it as "Invalid YouTube URL" |
| ChromeExtension.IconClick | chrome-extension/background.js:20-45 | a page failing the test gives the "Not a YouTube video" notification and no message; otherwise the normalized link is sent; the "Invalid YouTube Link" notification can never occur |
| FirefoxExtension.IconClick | firefox-extension/background.js:20-39 | a page failing the test gives the "Not a YouTube video" notification and no message; every other page sends its normalized link, with no empty-link check |
| FirefoxExtension.ShortsPageSendsWatchUrl | firefox-extension/background.js:23-59 | a click on a shorts URL sends `{ link: "https://www.youtube.com/watch?v=" + id }` for the leftmost match's identifier, and the host accepts that link unchanged |

## Left out

- install.py: writing manifests into browser directories is file plumbing with no logic to prove.
- `os.path.abspath(__file__)`, `os.stat` and `os.path.dirname` are not evaluated: the two stat results are inputs.
- What `sys.exit` prints to standard error and the traceback of an escaping exception are not part of `Host.Run`; only standard output and the exit status are.
- Framing.ReadMessage: UTF-8 decoding and `json.loads` are the abstract parameter `decode`; their error texts are whatever it returns.
- Launcher.LaunchClapper: the child process, the decoding of its output, and the texts of the exceptions it raises are the abstract parameter `run`; a child that never exits (there is no timeout) cannot be expressed, since `run` always returns.
- ResponseJson.Encode: Python strings holding lone surrogates have no counterpart, because Dafny strings hold only Unicode scalar values.
- Validator.ValidateMessage: for the same reason, a request whose `link` holds a lone surrogate (which `json.loads` accepts from a `\udXXX` escape) cannot be a `Json.Text`.
- Write errors on standard output (a closed pipe) and the flush are not modelled.
- `BaseException`s other than `SystemExit` (such as `KeyboardInterrupt`) are not modelled.
- Browser APIs: context-menu registration, notifications, pausing the page's video through `scripting.executeScript`, and the `lastError` and response callbacks of `sendNativeMessage` are event wiring. A click is modelled by the effect it requests.
- ChromeExtension.IconClick: the tab URL is always a string. An undefined `tab.url`, which makes `includes` throw, is not modelled.
- FirefoxExtension.IconClick: the same; an undefined `tab.url` makes `includes` at firefox-extension/background.js:23 throw, and is not modelled.
- ExtensionMessages.HostVerdictOnLink and ExtensionMessages.NormalizedLinkVerdict apply the host's validator to the extension's payload value directly: they take the browser's `JSON.stringify` followed by the host's decoding to give back that same value, which is not modelled.
