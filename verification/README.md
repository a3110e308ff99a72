# TorrentMonkey streaming helpers and ICE queue, in Dafny

This project models the decision logic of TorrentMonkey's browser client.
TorrentMonkey streams a video out of a torrent in the browser with WebTorrent.
The modelled logic is sequential and sits inside DOM code:

- **File selection** (`FileSelection`). `handleTorrentFiles` picks the largest
  non-empty video, falls back to the largest file, then makes that file the only
  selected one. `selectLargestVideoFile` is the variant without a fallback.
  `displayTorrentInfo` sorts the list in place by descending length before that scan.
- **File-name classification** (`MediaClassifier`). The suffix tests `isVideo`,
  `isImage` and `isAudio`, and the lookups `getMediaTypeFromFileName` and
  `getFileIconByExt` on the text after the last dot.
- **Text helpers.**
  - `escapeHTML` (`HtmlEscape`).
  - `formatDuration` (`Duration`).
  - The 100-character display truncation, the wording of client errors, and the
    tracker-warning filter (`Messages`).
- **`throttle`** (`Throttle`). A leading-edge throttle, modelled as a state
  machine over a waiting flag. A `Call` event invokes the throttled function; an
  `Expire` event is the moment the timer clears the flag.
- **Session replacement** (`Session`). `loadTorrent` and `loadTorrentFromFile`,
  with the client reduced to its list of live torrents. `loadTorrent` receives
  a magnet link, or the `ArrayBuffer` the drop handler reads from a `.torrent`
  file. `loadTorrentFromFile` is modelled as written, though nothing in
  frontend/app.js calls it.
- **The ICE candidate queue** of `createPeerConnection` (`IceQueue`). Candidates
  are sent over the signaling socket when it is open and queued otherwise. The
  queue is flushed in order when the socket opens.

Support modules:

- `Wrappers`: `Option`.
- `Seqs`: `Filter`, and `Split`, which models JavaScript's `String.prototype.split`.
- `Text`: `includes`, ASCII case folding, and decimal digits.

Behaviours of the code that the model records:

- `throttle` (frontend/app.js:1191-1202) is leading-edge only. A call that
  arrives while the flag is set is discarded and never replayed, so the last
  progress update of a burst can be lost (`Throttle.TrailingCallDropped`).
- Only `handleTorrentFiles` falls back to the largest file when no video is
  found (the comment at frontend/app.js:878). On the `ready` path, the one the
  page reaches, `selectLargestVideoFile` reports that no video was found
  instead (frontend/app.js:621-622). `handleTorrentFiles` is called only from
  `setupTorrentEvents`, which is called only from `loadTorrentFromFile`, and
  nothing in frontend/app.js calls `loadTorrentFromFile`; both are modelled as
  written, but the page as shipped never runs them.
- A zero-length video is never picked: the scan starts from size 0 and replaces
  its pick only on a strictly larger length.

Sorting before the scan does not change the pick. `Array.prototype.sort` is
stable, so among equally long videos the first one stays first
(`FileSelection.SortKeepsVideoPick`, `FileSelection.OnReady`).

## Model

| member | source | states |
|---|---|---|
| `FileSelection.LargestVideo` | frontend/app.js:866-875 | a pick exists exactly when some video has non-zero length; the pick is a video no other video outgrows, and every earlier video is strictly smaller (ties go to the first) |
| `FileSelection.VideoPickUnique` | frontend/app.js:606-614 | at most one index meets the video-pick description, so the scan's answer is determined by the list |
| `FileSelection.ReduceLargest` | frontend/app.js:879-881 | the `reduce` fallback yields nothing only for an empty list, and otherwise the first of the longest files |
| `FileSelection.FirstLargestUnique` | frontend/app.js:879-881 | the first-longest file is unique |
| `FileSelection.Prioritize` | frontend/app.js:888-896 | the list keeps its length and every file's path, name and length; exactly the target is selected afterwards |
| `FileSelection.PrioritizeIdempotent` | frontend/app.js:888-896 | prioritizing twice for one target equals doing it once; a later target fully overrides an earlier one |
| `FileSelection.HandleTorrentFiles` | frontend/app.js:862-898 | no target only for an empty list, which is left unchanged; with a playable video the target is the video pick, otherwise the first longest file; the result is the list prioritized for the target |
| `FileSelection.SelectLargestVideoFile` | frontend/app.js:602-627 | a missing or empty list does nothing; a file is auto-selected exactly when some video has content, and it is the video pick |
| `FileSelection.SortBySizeDesc` | frontend/app.js:652 | the in-place sort by descending length keeps the list's length; `SortPermutes`, `SortSorts` and `SortKeepsEqualLengthOrder` characterise it as the stable sort |
| `FileSelection.Insert` | frontend/app.js:652 | one insertion step keeps every file (as a multiset) and adds exactly the inserted one |
| `FileSelection.SortPermutes` | frontend/app.js:652 | the sort is a permutation of the file list |
| `FileSelection.SortSorts` | frontend/app.js:652 | the sorted list is in non-increasing order of length |
| `FileSelection.SortKeepsEqualLengthOrder` | frontend/app.js:652 | the sort is stable: files selected by a predicate that only files of one length satisfy keep their relative order |
| `FileSelection.SortKeepsPlayableVideo` | frontend/app.js:652 | the sorted list has a playable video exactly when the original has one |
| `FileSelection.SortKeepsVideoPick` | frontend/app.js:557-560 | the video pick of the sorted list is the same file record as the pick of the original list; when paths are distinct, as within one torrent, the original's pick is the only file with that path |
| `FileSelection.OnReady` | frontend/app.js:546-561 | on the `ready` path the list is sorted only when the info panel exists (`displayTorrentInfo` returns early otherwise); a video is auto-selected exactly when the original list has a playable one, and the shown file is the original list's pick; when paths are distinct, every file of the original list with the shown file's path is the pick |
| `MediaClassifier.IsVideo` | frontend/app.js:34-36 | the case-insensitive suffix test for the seven video extensions; `VideoHasVideoType`, `ShortNameNotVideo`, `M4vIsTypedNotVideo` and `SuffixMatchFixesExtension` characterise it |
| `MediaClassifier.IsImage` | frontend/app.js:1205-1207 | the suffix test for the image extensions (`jpe?g` is both `jpg` and `jpeg`); `ImageHasImageType` characterises it |
| `MediaClassifier.IsAudio` | frontend/app.js:1210-1212 | the suffix test for the six audio extensions; `AudioHasAudioType` characterises it |
| `MediaClassifier.MediaType` | frontend/app.js:1260-1340 | the intended MIME lookup, reading the merged table as a dictionary of its own entries; `UnknownExtensionIsNull`, `LookupIgnoresCase` and `AsWrittenDiffersOnlyAtInherited` characterise it |
| `MediaClassifier.FileIcon` | frontend/app.js:1215-1257 | the intended icon lookup with the page icon as default; `LookupIgnoresCase` and `AsWrittenDiffersOnlyAtInherited` characterise it |
| `MediaClassifier.AfterLastDot` | frontend/app.js:1216 | `split('.').pop()` is a dot-free tail of the name, and when it is shorter than the name a dot precedes it |
| `MediaClassifier.AfterLastDotOf` | frontend/app.js:1261 | whatever comes before the last dot, the text after it is what the lookup sees |
| `MediaClassifier.Extension` | frontend/app.js:1261 | the lookup key has no dot and no upper-case ASCII letter |
| `MediaClassifier.AfterLastDotFolded` | frontend/app.js:1216 | lower-casing before or after taking the last field gives the same key |
| `MediaClassifier.LookupIgnoresCase` | frontend/app.js:1216 | names that agree up to ASCII case get the same key, MIME type and icon |
| `MediaClassifier.SuffixMatchFixesExtension` | frontend/app.js:35 | a name whose suffix matches `.ext` case-insensitively has lookup key `ext` |
| `MediaClassifier.VideoHasVideoType` | frontend/app.js:34-36 | every name `isVideo` accepts gets a MIME type beginning with `video/` |
| `MediaClassifier.ImageHasImageType` | frontend/app.js:1205-1207 | every name `isImage` accepts gets a MIME type beginning with `image/` |
| `MediaClassifier.AudioHasAudioType` | frontend/app.js:1210-1212 | every name `isAudio` accepts gets a MIME type beginning with `audio/` |
| `MediaClassifier.UnknownExtensionIsNull` | frontend/app.js:1331-1339 | the merged table has no entry for a key exactly when none of the five tables lists it (the `null` result) |
| `MediaClassifier.AsWrittenDiffersOnlyAtInherited` | frontend/app.js:1256-1339 | for every name, both lookups as written agree with the intended ones (`null` or the default icon for unlisted keys) exactly when the key is neither `constructor` nor `__proto__` |
| `MediaClassifier.BareExtensionIsTyped` | frontend/app.js:1265 | the MIME table is wider than the suffix test: a bare `mp4` is typed `video/mp4` but is not a video |
| `MediaClassifier.ShortNameNotVideo` | frontend/app.js:35 | a name of three characters or fewer never passes `isVideo` |
| `MediaClassifier.M4vIsTypedNotVideo` | frontend/app.js:1273 | `.m4v` has a video MIME type but `isVideo` rejects it |
| `MediaClassifier.MediaTypeAsWritten` | frontend/app.js:1339 | the lookup as written returns a string exactly for listed keys, and a non-string inherited member for a key naming an `Object.prototype` member |
| `MediaClassifier.FileIconAsWritten` | frontend/app.js:1256 | the icon lookup as written never gives `null`; it gives a string unless the key names an inherited member missing from the table |
| `MediaClassifier.InheritedExtensionLeaks` | frontend/app.js:1331-1339 | `notes.constructor` is in no table, yet both lookups as written return the inherited member where `null` and the default icon are intended |
| `MediaClassifier.LeakedMembersAreLowerCase` | frontend/app.js:1261 | only `constructor` and `__proto__` can leak, because the key is lower-cased first |
| `HtmlEscape.ReplaceAll` | frontend/app.js:1346 | a global replacement removes the replaced character when the replacement lacks it, and leaves text without it alone |
| `HtmlEscape.EscapeHtml` | frontend/app.js:1343-1351 | a falsy argument gives the empty string; otherwise the output contains no `<`, `>`, `"` or `'` |
| `HtmlEscape.ReplaceChainOneChar` | frontend/app.js:1346-1350 | on one character the five replacements give exactly that character's entity, so nothing is escaped twice |
| `HtmlEscape.ReplaceChainIsSinglePass` | frontend/app.js:1345-1350 | the ordered replacements equal a single pass that maps each input character once |
| `HtmlEscape.UnescapeRoundTrip` | frontend/app.js:1343-1351 | decoding the five entities gives the input back |
| `HtmlEscape.EscapeInjective` | frontend/app.js:1343-1351 | different inputs never escape to the same text |
| `HtmlEscape.PlainTextUnchanged` | frontend/app.js:1345-1350 | text without the five special characters is returned unchanged |
| `Duration.TwoDigits` | frontend/app.js:47-49 | padding yields at least two decimal digits whose value is the number, so nothing is truncated |
| `Duration.FormatDuration` | frontend/app.js:40 | the output is `Unknown` exactly for zero seconds |
| `Duration.ClockArithmetic` | frontend/app.js:42-44 | hours, minutes and seconds add back up to the input, with minutes and seconds below 60 |
| `Duration.FormatFields` | frontend/app.js:42-50 | a positive duration prints as three colon-separated fields: hours of two or more digits, then minutes and seconds of exactly two; read back they give the computed hours, minutes and seconds |
| `Duration.FormatParseRoundTrip` | frontend/app.js:39-51 | reading the printed text as `H:M:S` recovers the duration; zero prints as text that no clock reading matches |
| `Messages.DisplayText` | frontend/app.js:70-71 | the shown text is at most 100 characters; short text is kept, and long text becomes its first 97 characters plus `...` |
| `Messages.DisplayTextKeepsShortOnly` | frontend/app.js:70-71 | text is shown verbatim exactly when it fits; truncating twice changes nothing; the shown text minus the ellipsis is a prefix of the original |
| `Messages.ClassifyClientError` | frontend/app.js:421-429 | each category is chosen exactly when its words occur and no earlier category's words do |
| `Messages.ClientErrorText` | frontend/app.js:421-429 | each category gets its own fixed text exactly when it is chosen; the generic `WebTorrent error:` wording is used exactly when no category applies, and then carries the message verbatim |
| `Messages.ClassifyMonotone` | frontend/app.js:423-428 | surrounding a message with more text can only move it to an earlier-checked category |
| `Messages.TrackerWarning` | frontend/app.js:439-441 | a warning is shown exactly when its message is present, non-empty and contains `tracker`, and it is then shown prefixed |
| `Messages.TrackerWarningSurfacesTrackerOnly` | frontend/app.js:439-440 | every shown warning still mentions `tracker`; the test is case-sensitive, so `Tracker` alone is suppressed |
| `Throttle.Step` | frontend/app.js:1193-1200 | one invocation or timer expiry against the waiting flag; `RunDeliversFirstCalls` and `RunFinalFlag` characterise runs of it |
| `Throttle.Run` | frontend/app.js:1191-1202 | the callback runs at most once per event, and only with arguments the calls carried |
| `Throttle.RunDeliversFirstCalls` | frontend/app.js:1193-1201 | the callback sees exactly the first call of each window between expiries, except that a window that starts with the timer pending delivers nothing |
| `Throttle.RunFromIdle` | frontend/app.js:1191-1202 | from a fresh throttle the callback sees exactly the first call of every window |
| `Throttle.AtMostOncePerWindow` | frontend/app.js:1194-1199 | the callback runs at most once more than the number of timer expiries |
| `Throttle.RunFinalFlag` | frontend/app.js:1196-1198 | the flag ends up set exactly when the last window holds a call, or the initial timer is still pending |
| `Throttle.TrailingCallDropped` | frontend/app.js:1194-1200 | a second call inside one period is dropped, and an expiry afterwards does not replay it |
| `Session.ConnectingText` | frontend/app.js:525 | the progress line is `Connecting to peers for: `, then the first 50 characters of the source text, then `...` |
| `Session.ConnectingTextKeepsFirstFifty` | frontend/app.js:525 | two sources give the same progress line exactly when their first 50 characters agree |
| `Session.LoadTorrent` | frontend/app.js:487-598 | the intended load (see Findings): with no client or a falsy source nothing changes except the matching error line (`WebTorrent client not initialized` or `No magnet URI provided`); otherwise every live torrent is destroyed, and a successful add, from a magnet link or a dropped file, leaves exactly the new torrent live and current and shows the progress line for the source; a throwing add shows `Failed to load torrent: ` and the message |
| `Session.LoadTorrentReplacesSession` | frontend/app.js:513-528 | with the intended loop, a magnet load leaves at most one live torrent, the current one, and every torrent is accounted for as live or destroyed |
| `Session.MagnetLoadAfterFiles` | frontend/app.js:515-528 | with the intended loop, whatever the client held, a magnet load destroys it and leaves only the new torrent |
| `Session.ForEachDestroy` | frontend/app.js:517 | the `forEach` over an array each `destroy` shrinks; what it leaves and what it destroys together are as many torrents as the array held |
| `Session.ForEachDestroyLeavesHalf` | frontend/app.js:514-517 | the `forEach` destroy loop as written, with each destroy removing its torrent from the array, destroys the torrents at even positions and leaves those at odd positions live |
| `Session.LoadTorrentAsWritten` | frontend/app.js:487-598 | without a client or source it is the intended load; otherwise the destroyed list grows by exactly what the loop destroyed and a successful add joins the torrents the loop left; a magnet link's torrent becomes current, while for a dropped file the page keeps its old current torrent and reports the `TypeError` |
| `Session.AsWrittenAgreesOnSingle` | frontend/app.js:514-528 | while the client holds at most one torrent, the loads as written and as intended leave and destroy the same torrents, and for a magnet link they agree completely |
| `Session.AsWrittenKeepsSingle` | frontend/app.js:514-528 | through `loadTorrent` alone the client never holds more than one torrent, so the skipping loop does no harm in the page as shipped |
| `Session.DroppedFileNeverCurrent` | frontend/app.js:521-528 | a dropped `.torrent` buffer is added to the client but, as written, never becomes current and yields an error line; the intended load makes it current |
| `Session.SecondTorrentSurvives` | frontend/app.js:514-520 | with live torrents `[1, 2]`, the load as written leaves `[2, 3]` live where the intended load leaves `[3]` |
| `Session.LoadTorrentFromFile` | frontend/app.js:690-730 | only the current torrent is destroyed, before the client check; the current torrent is cleared; other live torrents survive, the added one joins them, and no other torrent becomes live |
| `Session.FileLoadAccounting` | frontend/app.js:694-711 | when the client holds no torrent twice, a file load loses no torrent: live and destroyed together gain exactly the added one |
| `Session.FileTorrentReady` | frontend/app.js:712-713 | the add callback makes the new torrent current and changes nothing else |
| `Session.FileLoadsCanOverlap` | frontend/app.js:694-713 | two file loads before either callback runs leave two live torrents |
| `Session.FileLoadDestroysBeforeClientCheck` | frontend/app.js:694-708 | without a client, a file load still destroys the current torrent and then reports the missing client (the page never reaches that state; the lemma shows the order of the two steps) |
| `IceQueue.Step` | frontend/components/peer-connection.js:39-63 | one gathering event or socket state change; a frame once sent stays sent, and `open` only fires before the socket starts closing |
| `IceQueue.Run` | frontend/components/peer-connection.js:39-63 | a run of events never takes back a sent frame; `RunKeepsCandidates` and `RunKeepsInvariants` characterise it |
| `IceQueue.OnIceCandidate` | frontend/components/peer-connection.js:39-54 | the end-of-gathering event changes nothing; on an open socket a candidate frame is sent and the queue is kept; otherwise the candidate joins the end of the queue and nothing is sent |
| `IceQueue.FlushQueue` | frontend/components/peer-connection.js:59-61 | the flush appends one candidate frame per queued candidate, in queue order, after what was already sent |
| `IceQueue.OnOpen` | frontend/components/peer-connection.js:57-63 | opening leaves the socket open with an empty queue, and the sent payloads grow by the queue in order |
| `IceQueue.EmptyFlushSendsNothing` | frontend/components/peer-connection.js:59-62 | opening with an empty queue sends nothing |
| `IceQueue.RunKeepsCandidates` | frontend/components/peer-connection.js:39-63 | at every point, the sent payloads followed by the queue are the candidates gathered so far, with nothing lost, duplicated or reordered |
| `IceQueue.RunKeepsInvariants` | frontend/components/peer-connection.js:57-63 | an open socket never has a waiting queue, and every frame sent is a candidate frame |
| `IceQueue.OpenSendsAtOnce` | frontend/components/peer-connection.js:44-46 | once the socket is open, later candidates are sent at once, in order |
| `IceQueue.ClosedSocketKeepsQueue` | frontend/components/peer-connection.js:47-62 | from a closing or closed socket, whatever events follow, nothing more is sent and every gathered candidate joins the end of the queue in order |

## Left out

- DOM work is left out: building the torrent and file panels, styling, the drag-and-drop events and the `FileReader`, the sample buttons, and how `addMessageToUI` renders. Only the truncation expression is modelled. The buffer the drop handler passes to `loadTorrent` is modelled as the `Descriptor` source.
- The WebTorrent engine is a parameter. `client.add` becomes an outcome that either returns a torrent or throws.
- Torrent events, stream URLs, and the 20-second stall watchdog (`setTimeout`) are not modelled. They are timers and foreign library calls.
- `Throttle.Run`: the callback is assumed to return. In the source it runs before `waiting = true` (frontend/app.js:1195-1196), so a callback that throws leaves the flag clear with no timer, and the next call runs it again; `Throttle.RunDeliversFirstCalls` does not cover that path.
- `Throttle.Run`: the timer is abstracted into `Expire` events, so the interval length, 1000 ms on the download path, is not modelled.
- `formatBytes` and the progress and statistics display are left out: they rely on floating-point `Math.log`, `toFixed` and rounding.
- `Duration.FormatDuration`: only whole, non-negative seconds are modelled, as unbounded integers. `Math.floor` on fractions, negative input and `NaN` are left out, and the input is a `nat`. `!seconds` is therefore exactly `seconds == 0`.
- `Duration.FormatParseRoundTrip`: the source computes in doubles, so the round trip is promised only for durations JavaScript holds exactly (below 2^53 seconds). Above that, doubles skip whole numbers and the field arithmetic rounds; hours of 1e21 or more print in exponent form (`1e+21:00:00`); `Infinity` is truthy and prints `Infinity:NaN:NaN`. None of these is modelled.
- `MediaClassifier.Extension`: only ASCII letters are lower-cased. JavaScript's `toLowerCase` also folds other letters, such as the Kelvin sign to `k`. The suffix regexes lack the `u` flag, so for them ASCII folding is exact.
- String lengths count Dafny characters. JavaScript counts UTF-16 code units, so a 100-unit limit differs for text outside the Basic Multilingual Plane. `Messages.DisplayText`, `Session.ConnectingText` and the 50-character cut use that reading.
- `Session.LoadTorrentAsWritten`: the loop's skipping depends on WebTorrent's `destroy` splicing the torrent out of `client.torrents` before it returns. The engine is not part of this model, so that removal is taken as given.
- `Session.LoadTorrentFromFile`: the guarantee that the old current torrent is gone from the client is stated only when the newly added torrent is a different one. Ids are not tracked for freshness.
- `Session.LoadTorrentFromFile`: the UI reset in `resetTorrentUI` is not modelled.
- `IceQueue.RunKeepsCandidates`: this requires the starting channel to have no queue while open. That holds from creation, and `IceQueue.RunKeepsInvariants` shows every run keeps it. The browser sets `readyState` to OPEN in the same task that fires `open`, so no candidate handler runs in between.
- `IceQueue.Step`: an `open` event on a closing or closed socket is ignored, because a WebSocket never reopens.
- `Session.LoadTorrentAsWritten`: the text of the `TypeError` is V8's wording; other engines word it differently.
- JSON serialization of signaling frames is kept as a `Frame(kind, data)` record.
- The `RTCPeerConnection` and data-channel setup are browser API wrappers and are left out.
- frontend/server.py, signaling-server/main.go and frontend/components/signaling.js are not part of this model. They are HTTP serving, a concurrent broadcast hub, and a socket wrapper with no logic.

## Findings

| source | as written | input that shows it | evidently intended | confidence | as-written member | corrected member |
|---|---|---|---|---|---|---|
| frontend/app.js:1339 | the lookup `allTypes[ext]` also finds members inherited from `Object.prototype`, and they are truthy | `notes.constructor`: the result is the `Object` function, not `null` | an extension no table lists gives `null` | high; not executed | `MediaClassifier.MediaTypeAsWritten` (shown by `MediaClassifier.InheritedExtensionLeaks`) | `MediaClassifier.UnknownExtensionIsNull` |
| frontend/app.js:1256 | the lookup `icons[ext]` likewise finds an inherited, truthy member before the default applies | `notes.constructor`: the result is the `Object` function, not the page icon | an extension with no icon gets the default icon | high; not executed | `MediaClassifier.FileIconAsWritten` (shown by `MediaClassifier.InheritedExtensionLeaks`) | `MediaClassifier.AsWrittenDiffersOnlyAtInherited` (the intended lookup `FileIcon` departs from the code only at inherited keys) |
| frontend/app.js:517 | `client.torrents.forEach(t => t.destroy())` walks the array that each `destroy` shrinks, so every other torrent is skipped | two file loads leave torrents `[1, 2]` live; a magnet load then destroys 1 only, and 2 stays live beside the new torrent | every existing torrent is removed first (the comment and log line at frontend/app.js:513-515) | low; not executed (latent: only `loadTorrentFromFile` can leave two torrents live, and nothing in frontend/app.js calls it, as `Session.AsWrittenKeepsSingle` reflects; it also relies on the engine removing the torrent synchronously) | `Session.LoadTorrentAsWritten` (shown by `Session.SecondTorrentSurvives` and `Session.ForEachDestroyLeavesHalf`) | `Session.LoadTorrent` (proved by `Session.LoadTorrentReplacesSession`) |
| frontend/app.js:525 | `magnetURI.substring(0, 50)` runs after `client.add`, and a dropped `.torrent` file passes an `ArrayBuffer`, which has no `substring` | drop a `.torrent` file: the torrent is added, the `TypeError` is caught and reported as a failed load, and `currentTorrent = torrent` and the `ready` handler are skipped | a dropped file loads like a magnet link and becomes the current torrent | medium; not executed (assumes `client.add` returns a torrent for the buffer, which is engine behaviour) | `Session.LoadTorrentAsWritten` (shown by `Session.DroppedFileNeverCurrent`) | `Session.LoadTorrent` (proved by `Session.DroppedFileNeverCurrent`) |
