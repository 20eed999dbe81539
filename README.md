# youtube-statistics in Dafny

A model of the core of `lib/statistics.js`, a browser script that audits
what users do with embedded YouTube players. A `YouTubeVideoPlayerAudit`
object is built with optional settings. It takes a list of iframe ids, or
searches the page for YouTube iframes when none is given. Once the YouTube
player API is ready, it binds one `YT.Player` per id. From then on, every
state change of a player reaches `userActed`. A change to *playing* or
*paused* becomes a record `{userAction, timecode, videoId}`, which is saved
to a `ServerStorage` sink. The sink currently only writes the record to
the console, together with the user id it was built with.

Modules, one per component of the file:

- `Wrappers` (`wrappers.dfy`): `Option`, standing for `null`/`undefined`.
- `YouTubeUrl` (`youtube_url.dfy`): the URL test
  `/^https?:\/\/(?:www\.)?youtube(?:-nocookie)?\.com(\/|$)/i`. It is
  written as a stage-by-stage matcher over `string` with ASCII
  lower-casing. It is proved equal to a reference definition that lists
  the eight host prefixes the pattern admits. A JavaScript regular
  expression with the `i` flag and no `u` flag never folds a non-ASCII
  character onto an ASCII one, so folding A-Z is exact for this pattern.
- `Discovery` (`discovery.dfy`): `getYoutubePlayers`, a loop over the
  page's iframes, proved against the filter `MatchingIds`.
- `PlayerState` (`player_state.dfy`): the `YT.PlayerState` codes and the
  state-to-action mapping used by `userActed`.
- `Audit` (`audit.dfy`): the classes `ServerStorage`, `Player` (a bound
  `YT.Player` handle) and `YouTubeVideoPlayerAudit`. They cover the
  constructor's guard and defaults, the bind loop of the ready callback,
  and `userActed`.

Where the doc comments of `lib/statistics.js` (line 93 promises generated
ids) or the evident intent of its guard differ from what the code does, the
model follows the code:

- Discovery does not generate an id for a YouTube iframe that lacks one.
  The code leaves this as a TODO, so such an iframe is skipped.
- An explicit `ids` list is used even when it is empty, because an array
  is always truthy in JavaScript.
- The constructor warns and stops only when the id list is `null`. The
  second half of its guard, `this.iframeIds === []`, compares against a
  freshly created array, so it is never true (`Audit.IsFreshEmptyArray`).
  An empty list, supplied or discovered, therefore lets setup proceed.
- `options.url || default` and `options.userId || default` also replace
  an empty string, because `""` is falsy.
- The constructor ends with `return false` when it stops. Under `new`
  that still yields the object, with `iframeIds` null and no players or
  sink. The Dafny constructor builds that object.

## Model

| member | source | states |
|---|---|---|
| `YouTubeUrl.IsYouTubeUrlSpec` | lib/statistics.js:100 | The matcher accepts a string exactly when, ignoring letter case, it starts with `http` or `https`, `://`, an optional `www.`, `youtube` or `youtube-nocookie`, and `.com`, and that prefix is followed by `/` or ends the string. |
| `YouTubeUrl.IsYouTubeUrlIgnoresCase` | lib/statistics.js:100 | Two strings that differ only in the case of ASCII letters are accepted or rejected alike. |
| `YouTubeUrl.OptionalMatch` | lib/statistics.js:100 | A greedy optional group never needs backtracking when it and what follows start with different letters. This is why the regular expression's optional `s`, `www.` and `-nocookie` can be matched greedily. |
| `YouTubeUrl.NameStage` | lib/statistics.js:100 | The part after `youtube` is accepted exactly when it is `.com` or `-nocookie.com`, followed by `/` or nothing. |
| `YouTubeUrl.HostStage` | lib/statistics.js:100 | The part after `://` is accepted exactly when it is one of the four host spellings, followed by `/` or nothing. |
| `YouTubeUrl.AcceptsEmbedUrl` | lib/statistics.js:100 | `https://www.youtube.com/embed/abc` is accepted. |
| `YouTubeUrl.RejectsLookAlikeHost` | lib/statistics.js:100 | `https://www.youtube.com.example.org/` is rejected, because `.com` must end the host. |
| `Discovery.GetYoutubePlayers` | lib/statistics.js:95-110 | Returns null exactly when the page has no iframe. Otherwise it returns the list of matching ids, which may be empty and equals `MatchingIds` of the page. |
| `Discovery.MatchingIdsByIndex` | lib/statistics.js:99-108 | The i-th collected id is the id of the i-th contributing iframe in document order. There are as many ids as contributing iframes. |
| `Discovery.ContributingIndicesExact` | lib/statistics.js:99-108 | A position is listed exactly when its iframe has a YouTube `src` and a non-empty id. Listed positions strictly increase, so each iframe contributes once and in order. |
| `Discovery.MatchingIdsSound` | lib/statistics.js:100-102 | Every collected id is non-empty and belongs to an iframe whose `src` is a YouTube URL. |
| `Discovery.EmptyIdContributesNothing` | lib/statistics.js:101-105 | An iframe with an empty id adds nothing and no id is invented for it: removing it leaves the result unchanged. |
| `Discovery.MatchingIdsAppend` | lib/statistics.js:99-108 | The scan over a page split in two is the concatenation of the scans over the parts. |
| `PlayerState.Classify` | lib/statistics.js:70-77 | A state is accepted only as the action whose state it is. PLAYING and PAUSED are always accepted. |
| `PlayerState.ClassifyInverse` | lib/statistics.js:70-77 | A state yields an action exactly when it is that action's state: PLAYING gives `Play`, PAUSED gives `Paused`, every other state gives nothing. |
| `PlayerState.ActionNamesDistinct` | lib/statistics.js:71-73 | The saved names `"play"` and `"paused"` tell the two actions apart. |
| `Audit.StorageOptionsFor` | lib/statistics.js:33-36 | Field by field, the sink gets the supplied url and user id when they are non-empty, and `http://www.myserver.com` or `anonymous` when they are missing or empty. |
| `Audit.StorageDefaults` | lib/statistics.js:34-35 | Without options the sink uses `http://www.myserver.com` and `anonymous`. |
| `Audit.ResolveIds` | lib/statistics.js:25 | Supplied ids, even an empty list, are used as given. Otherwise the ids are those discovery finds, and null when the page has no iframe. |
| `Audit.GuardStopsOnlyWithoutIds` | lib/statistics.js:25-29 | Setup stops exactly when no ids were supplied and the page has no iframe. An empty id list does not stop it. |
| `Audit.ServerStorage.constructor` | lib/statistics.js:119-122 | The sink keeps the url and user id it was given and has reported nothing yet. |
| `Audit.ServerStorage.Save` | lib/statistics.js:130-137 | Saving appends exactly one entry to the sink's log: the record under the sink's user id. |
| `Audit.Player.constructor` | lib/statistics.js:45-53 | A new player is created for the given iframe id and remembers the audit its listener forwards to. |
| `Audit.Player.StateChanged` | lib/statistics.js:47-51 | The player's `onStateChange` listener hands the notification, with this player as its target, to the audit's `userActed`. Other states leave the log unchanged; playing or paused appends exactly one entry carrying this player's current time and video id. |
| `Audit.YouTubeVideoPlayerAudit.constructor` | lib/statistics.js:20-37 | The ids come from `ResolveIds`. The warning is given exactly when the guard stops setup, and then there are no players and no sink. Otherwise the supplied players are kept and a fresh, empty sink gets the defaulted url and user id. |
| `Audit.YouTubeVideoPlayerAudit.OnPlayerApiReady` | lib/statistics.js:40-55 | The players list, started empty when none was supplied, keeps its earlier entries. It grows by exactly one fresh player per iframe id, in id order. The new players are pairwise distinct objects, even for repeated ids. Each new player is bound to its id and listens with this audit. |
| `Audit.YouTubeVideoPlayerAudit.UserActed` | lib/statistics.js:66-87 | Any state other than playing or paused returns `false` and leaves the sink's log unchanged. A playing or paused state appends exactly one entry with `"play"` or `"paused"` and the target player's current time and video id at this call. |

## Left out

- The UMD/AMD module wrapper (lib/statistics.js:1-9, 157-160) is module-loader plumbing.
- Script-tag injection of the player API (lib/statistics.js:142-148) is DOM I/O.
- The global `window.onYouTubePlayerAPIReady` registration (lib/statistics.js:39) is not modelled. A second audit built before the API is ready replaces the first one's callback. Only the callback's body is modelled, as `OnPlayerApiReady`, and the host decides when it runs.
- `YT.Player` (lib/statistics.js:45) is a foreign constructor. A `Player` records only the iframe id and the listening audit. Its `currentTime` and `videoId` stand for `getCurrentTime()` and `getVideoData().video_id` (lib/statistics.js:80, 83) and are updated by the host. The timecode is a double, kept as its bit pattern and never interpreted.
- The console output of `save` (lib/statistics.js:130-137) is replaced by a ghost log of saved entries.
- The `console.warn` of the constructor (lib/statistics.js:27) is modelled only as the ghost flag `warned`; its text is not.
- `trackVideos` (lib/statistics.js:150-154) is a demo entry point with a hard-coded user id.
- `document.getElementsByTagName("iframe")` (lib/statistics.js:96) is replaced by the page's iframes, given as a sequence of `{src, id}` values.
- Audit.YouTubeVideoPlayerAudit.OnPlayerApiReady: in the source, `push` mutates the array passed as `options.players`, so the caller sees the new players. The model reassigns a sequence, so that aliasing is not captured.
- Audit.YouTubeVideoPlayerAudit.UserActed: requires a sink. That always holds, because a player is only bound after setup proceeded. A call on an audit whose setup stopped would throw in the source and is not modelled.
- JavaScript's dynamic typing is not modelled: options of the wrong type (a non-array `ids`, a non-string `url`) and state codes that are not numbers.
