# SubsonicNowPlayingOverlay, modelled in Dafny

SubsonicNowPlayingOverlay is a small relay with a browser overlay. The relay reads a list of
users from a configuration file. For each user it asks a Subsonic server which track that
user is playing, using the token authentication of the Subsonic REST API. It hands a snapshot
to a page, which shows the title, artist, album and cover. The page polls the relay, picks a
theme, scrolls text that is too wide, and plays a transition when the track changes.

This project models the three parts of the repository that hold its logic, and proves
properties about them:

- **`SubsonicClient`** (`subsonic_client.dfy`) covers `src/subsonicClient.ts`.
  - It models the authentication query (`u`, `v`, `c`, `f`, plus either `p`, or `t` =
    md5(password + salt) and `s`). `SearchParams` is a small class standing in for
    `URLSearchParams`. `BuildAuthParams` and `BuildUrl` update it with successive `set` calls.
  - It models the check of the `subsonic-response` envelope, and the choice of the user's
    most recent entry: filter by username, stable sort by `minutesAgo`, take the first.
  - It models the cover-art request.
  - `md5`, the random salt and `fetch` are parameters.
- **`Config`** (`config.dfy`) covers the pure fallback chains of `src/config.ts`: user lookup,
  refresh interval, theme name, listen address and theme options. The configuration that the
  source reads once into a module constant is a parameter here.
- **The page script `public/app.js`** is split across four modules.
  - `Marquee` (`marquee.dfy`) is the per-element text marquee. Each timer, animation frame
    and listener is a pending-callback slot, and distances are in tenths of a pixel.
  - `DisplayModel` (`display_model.dfy`) gives, for each handler, the function from one view
    of the page to the next. A view holds the theme, theme options, track signature, texts,
    marquees, cover, tint and transitions.
  - `Polling` (`polling.dfy`) is the refresh loop.
  - `OverlayApp.Overlay` (`overlay_app.dfy`) is a class. Its fields are the script's
    module-level variables and the element state the script writes. Its methods are the
    script's functions and listeners, and each is proved to follow the matching function of
    `DisplayModel` or `Polling`.
- Shared pieces:
  - `Types` (`types.dfy`) mirrors `src/types.ts`.
  - `Text` (`text.dfy`) gives JavaScript's `trim`, `toLowerCase` and number printing.
  - `Http` (`http.dfy`) gives the outcome of a `fetch`.
  - `Wrappers` (`wrappers.dfy`) gives `Option` and `Result`.

Behaviour of the code worth knowing:
- **Refresh interval.** After a successful poll the page waits for the snapshot's
  `refreshIntervalMs`, or 5000 ms when it is absent, with no minimum or maximum
  (`public/app.js:473`, `Polling.SuccessfulPollShowsSnapshot`).
- **Non-positive configured interval.** A configuration-level `refreshIntervalMs` of 0 or
  below passes through `getRefreshIntervalMs` unchecked (`src/config.ts:43-50`; the
  positivity clause of `Config.GetRefreshIntervalMs` holds only when that value is absent or
  positive). The page does not clamp it either, so it then polls with no delay.
- **Theme fallback.** A stylesheet error falls back to `vanilla` once per failure
  (`public/app.js:35-42`, `DisplayModel.ThemeErrorFallsBackOnce`). A later snapshot that
  names the broken theme applies it again.

## Model

| member | source | states |
|---|---|---|
| SubsonicClient.AuthParams | src/subsonicClient.ts:18-44 | success always carries `u`, `v`, `c` and `f` = `json`; the keys are exactly those four plus `p`, or plus `t` and `s`; every failure is a configuration error |
| SubsonicClient.BuildAuthParams | src/subsonicClient.ts:18-44 | the successive `set` calls produce exactly the parameter set of `AuthParams` in a fresh object, and throw exactly its errors |
| SubsonicClient.ExactlyOneCredential | src/subsonicClient.ts:27-43 | a result holds `p` or `t`, never both, and holds `t` exactly when it holds `s` |
| SubsonicClient.TokenAuthTakesPriority | src/subsonicClient.ts:27-33 | with `useTokenAuth`, `t` = md5(password + salt) and `s` = the salt; without a password it fails with the source's message, even when a token and salt are configured |
| SubsonicClient.StoredTokenCopiedVerbatim | src/subsonicClient.ts:34-36 | a stored token and salt are sent unchanged, and the result does not depend on the hash function or the request's salt |
| SubsonicClient.PlaintextOnlyAsLastResort | src/subsonicClient.ts:27-38 | `p` is present exactly when neither token mode applies and a password exists, and then it is the password |
| SubsonicClient.MissingCredentialsFail | src/subsonicClient.ts:27-41 | failure happens exactly for token auth without a password, or when there is no credential at all |
| SubsonicClient.MergeQuery | src/subsonicClient.ts:48-53 | every auth parameter stays present, and a key that was not an auth parameter is present only because some query entry set it to a present value |
| SubsonicClient.MergeQueryKeepsOthers | src/subsonicClient.ts:49-53 | a parameter that no present query value sets keeps its presence and value |
| SubsonicClient.MergeQueryLastWins | src/subsonicClient.ts:49-53 | the last present query value for a key overrides that parameter, auth keys included, even when later entries for that key are null or undefined |
| SubsonicClient.UrlFor | src/subsonicClient.ts:46-56 | it fails exactly when the auth parameters fail, with the same error; otherwise it targets the user's server and the endpoint and keeps every auth key |
| SubsonicClient.BuildUrl | src/subsonicClient.ts:46-56 | the loop yields the server URL and endpoint, with the auth parameters overlaid by each present query value in order; auth errors propagate |
| SubsonicClient.FetchJson | src/subsonicClient.ts:58-68 | the body is returned exactly for a received 2xx response; otherwise it is an error |
| SubsonicClient.EntryList | src/subsonicClient.ts:85 | a single entry becomes a one-element list; a list is kept |
| SubsonicClient.Filter | src/subsonicClient.ts:87 | the kept entries are exactly those whose username equals the user's |
| SubsonicClient.FilterCounts | src/subsonicClient.ts:87 | every copy of a matching entry is kept and no copy of any other entry |
| SubsonicClient.FilterAppend | src/subsonicClient.ts:87 | the filter of a concatenation is the concatenation of the filters, so list order is kept |
| SubsonicClient.FilterSingle | src/subsonicClient.ts:87 | a single entry is kept exactly when its username is the user's |
| SubsonicClient.FirstMinimum | src/subsonicClient.ts:88 | it is absent only for an empty list; otherwise it is a list member whose `minutesAgo` (missing as 0) is least |
| SubsonicClient.FirstMinimumIsEarliest | src/subsonicClient.ts:88 | the first entry whose `minutesAgo` is no larger than the chosen one's is the chosen one: the stable sort's head is the earliest least entry |
| SubsonicClient.SelectEntry | src/subsonicClient.ts:85-90 | the selection is absent exactly when no entry is the user's; otherwise it is one of the user's entries |
| SubsonicClient.SelectEntryIsFirstMinimalMatch | src/subsonicClient.ts:85-90 | the selection is null exactly when no entry matches the user; otherwise it is the match with the least `minutesAgo`, with ties going to the earliest |
| SubsonicClient.FirstMinimalMatchUnique | src/subsonicClient.ts:86-90 | only one index satisfies that description, so the selection is determined |
| SubsonicClient.SelectionPicksMostRecent | src/subsonicClient.ts:86-90 | worked case: the 2-minute entry beats the 5-minute one, another user's entry is ignored, and an unknown user gets null |
| SubsonicClient.SelectionTiesAndMissingAge | src/subsonicClient.ts:88 | worked case: on a tie the earlier entry is chosen, and a missing `minutesAgo` sorts as 0 |
| SubsonicClient.EntryFromResponse | src/subsonicClient.ts:73-90 | it is an error exactly when the status is not `ok`, always an upstream error; a selected entry belongs to the user |
| SubsonicClient.EnvelopeErrorCarriesMessage | src/subsonicClient.ts:75-78 | a failed envelope yields `Subsonic getNowPlaying failed: ` followed by the upstream message, or by `Unknown error` |
| SubsonicClient.NoEntriesIsNotAnError | src/subsonicClient.ts:80-83 | an `ok` envelope without `nowPlaying.entry` yields null, not an error |
| SubsonicClient.EntriesSelectFirstMinimalMatch | src/subsonicClient.ts:80-90 | with entries, the result is the first minimal match of the normalised list, or null when none matches |
| SubsonicClient.GetNowPlayingEntry | src/subsonicClient.ts:70-91 | auth errors, fetch errors and envelope errors propagate in that order; otherwise the result is the selection from the fetched body |
| SubsonicClient.CoverArtUrlParams | src/subsonicClient.ts:94 | the cover request sets `id` to the cover id and `size` to `500`, and keeps every other auth parameter |
| SubsonicClient.CoverArtResult | src/subsonicClient.ts:95-101 | a received 2xx response is passed through unchanged; anything else is an error |
| SubsonicClient.ProxyCoverArt | src/subsonicClient.ts:93-102 | it fetches the getCoverArt endpoint with the merged parameters and returns `CoverArtResult` of the outcome; auth errors propagate |
| Config.ReadConfigFile | src/config.ts:18-31 | the configuration is accepted exactly when the file exists and `users` is a non-empty array; a missing file gives the source's message; an accepted configuration carries the users, client name, API version, refresh interval, default theme and listen settings over unchanged |
| Config.FindUser | src/config.ts:40 | the lookup is absent exactly when no user has the slug; otherwise it is a configured user with that slug |
| Config.GetUserConfig | src/config.ts:39-41 | the same for the configured users |
| Config.FindUserIsFirstWithSlug | src/config.ts:39-41 | the lookup is absent exactly when no user has the slug; otherwise it is the first user with it |
| Config.GetRefreshIntervalMs | src/config.ts:43-50 | it returns the user's override exactly when that is above 0, else the configured value, else 5000; the result is positive when the configured value is absent or positive |
| Config.NormalizeTheme | src/config.ts:52-67 | the result is absent exactly when the theme is absent or its trimmed lower-cased form is not `[a-z0-9-]+`; otherwise it is that form |
| Config.NormalizeThemeIdempotent | src/config.ts:57-66 | a normalised theme is trimmed and lower case, and normalising it again returns it unchanged |
| Config.DefaultThemeIsThemeName | src/config.ts:9-10 | `vanilla` is a valid theme name |
| Config.GetTheme | src/config.ts:69-81 | the user's theme wins, then the configured default, then `vanilla`; the result is always a valid theme name |
| Config.NormalizeListenConfig | src/config.ts:83-94 | the host is the trimmed host when non-empty, else `0.0.0.0`; the port is the floored port when in 1..65535, else 3000; the port is always in range |
| Config.NormalizeThemeOptions | src/config.ts:100-115 | a style is kept exactly when the lower-cased input is `none` or `macos`, and then it is that lower-cased input |
| Config.GetThemeOptions | src/config.ts:117-123 | the user's style is kept when its lower-cased form is `none` or `macos`; otherwise it is `none` |
| Text.Trim | src/config.ts:57 | the result is an infix of the input that neither starts nor ends with JavaScript whitespace, and everything removed before and after it is JavaScript whitespace |
| Text.ToLower | src/config.ts:57 | the length is kept, and each character is lowered as ASCII `toLowerCase` lowers it |
| Text.DecimalText | src/subsonicClient.ts:64 | a status code prints as a non-empty string of digits that denotes it, with no leading zero |
| Marquee.Start | public/app.js:134-202 | a state is stored exactly when the overflow is above 0; it is valid, at rest, and waiting only on its resume timer |
| Marquee.Tick | public/app.js:149-192 | from a valid state with its frame pending, a tick stays valid, never shifts past the overflow, and arms the reset race exactly when it reaches the overflow |
| Marquee.Step | public/app.js:149-199 | every callback keeps exactly one cancellable callback pending, with the listener attached exactly while the fallback timer is, keeps the offset and shift within the overflow, and keeps the overflow |
| Marquee.RunPreservesValid | public/app.js:149-199 | for any sequence of callbacks in any order, the invariant holds and the displayed shift never exceeds the overflow |
| Marquee.ResetRaceArmsOneResume | public/app.js:155-181 | whichever of the fallback timer and `transitionend` runs first disarms the other and arms one resume timer; the loser then changes nothing |
| Marquee.FramesAdvanceBySpeed | public/app.js:149-150 | below the overflow, `n` frames advance the offset and the shift by exactly `n` times the speed |
| Marquee.FramesSnapAtOverflow | public/app.js:152-186 | the frame that reaches the overflow shows the shift at exactly the overflow, resets the offset to 0, and arms the listener, the fallback timer and the reset frame |
| DisplayModel.DesiredTheme | public/app.js:376 | the desired theme is never empty; an absent or blank name gives `vanilla`; otherwise it is the trimmed name with each character lowered |
| DisplayModel.ThemeNameIsDesired | public/app.js:376 | a valid theme name, as the relay's `getTheme` always returns, is loaded by the page under exactly that name |
| DisplayModel.DesiredThemeIsNormal | public/app.js:376 | the desired theme is non-empty, trimmed and lower case, and asking for it again yields it |
| DisplayModel.ApplyThemeSettlesOnDesired | public/app.js:375-397 | afterwards the current theme is the desired one; nothing changes when it already was; only the theme, stylesheet and tint change, and a switch to a theme other than fancy clears the tint |
| DisplayModel.ThemeErrorFallsBackOnce | public/app.js:35-42 | a load error leaves `vanilla`; a second error, or one while on `vanilla`, changes nothing |
| DisplayModel.NormalizeThemeOptions | public/app.js:215-231 | the style is `macos` exactly when the lower-cased input is `macos`; anything else is `none` |
| DisplayModel.ShadowVariables | public/app.js:241-251 | the two shadow variables are set for `macos` and removed for `none`; every other body variable is unchanged |
| DisplayModel.ApplyThemeOptionsChangesOnlyOnDifference | public/app.js:233-252 | the options end up normalised and the variables follow them; the view is unchanged when the style is the same, and otherwise only the options and variables change |
| DisplayModel.WrapKeepsMarqueeOnlyForSameText | public/app.js:70-88 | the same text leaves the view unchanged, marquee included; new text is installed without a marquee; other elements are untouched |
| DisplayModel.StopRemovesOnlyThatMarquee | public/app.js:105-132 | that element's marquee is removed; texts, other elements and the rest of the view are unchanged |
| DisplayModel.EvaluateArmsOnlyAboveThreshold | public/app.js:90-103 | without a span nothing changes; above 4 px a fresh marquee replaces any previous one; otherwise there is none; other elements are untouched |
| DisplayModel.OverflowExamples | public/app.js:95-102 | 10 px of overflow scrolls once the hold elapses; 2 px stays still |
| DisplayModel.MarqueeHandlersPreserveInvariant | public/app.js:70-201 | wrapping, stopping, evaluating and every marquee callback keep every marquee valid |
| DisplayModel.TrackSignature | public/app.js:366-373 | the signature is absent exactly for an absent track, and otherwise at least three characters long |
| DisplayModel.SameTextSameSignature | public/app.js:366-373 | tracks whose parts agree once missing parts are read as empty have the same signature |
| DisplayModel.TrackSignatureIdentifiesTrack | public/app.js:366-373 | a present signature is non-empty; when no id, title or artist contains the separator bar, equal signatures mean all four parts agree |
| DisplayModel.UpdateTrackDisplayEffect | public/app.js:420-436 | the cover is shown with the snapshot's URL exactly when it has one, otherwise hidden with an empty source and no tint; a new tint needs fancy, a ready cover and a sampled colour |
| DisplayModel.ThemedEffect | public/app.js:438-440 | the theme steps settle the theme and options, touch nothing of the track display, keep the invariant, and change nothing when already settled |
| DisplayModel.UpdateNowPlaying | public/app.js:438-457 | the stored signature becomes the snapshot's when it is playing and null otherwise, and at most one transition plays |
| DisplayModel.NotPlayingClearsDisplay | public/app.js:438-445 | a stopped snapshot clears the signature, shows `No Now Playing` with empty artist and album, hides the cover, clears the tint and plays no transition |
| DisplayModel.AnimatesExactlyOnNewSignature | public/app.js:447-456 | a playing snapshot plays the transition exactly when its signature is present and differs from the stored one, and then stores it |
| DisplayModel.UpdateOnlyTearsDownMarquees | public/app.js:410-456 | every element shows the snapshot's text; a marquee survives exactly when its text is unchanged, and none is created or altered |
| DisplayModel.UpdatePreservesInvariant | public/app.js:438-457 | applying a snapshot keeps valid marquees, shadow variables that match the style, and tint only under a visible cover |
| DisplayModel.UpdateNowPlayingIdempotent | public/app.js:438-457 | applying the same snapshot twice equals applying it once |
| DisplayModel.DuplicateSnapshotAnimatesOnce | public/app.js:447-456 | a repeated snapshot plays no transition, and one snapshot plays at most one |
| DisplayModel.ListenersPreserveInvariant | public/app.js:331-364 | the stylesheet error listener, the cover load listener and the cover error listener keep the invariant: a tint is only set under a visible cover |
| DisplayModel.InitialView | public/app.js:487 | after load the page shows `No Now Playing` without marquees, on `vanilla`, with no signature, a hidden cover and no transitions |
| Polling.ScheduleNextFetch | public/app.js:480-485 | the pending timer is replaced by exactly one for the delay, and the request flag is kept |
| Polling.RefreshTimerFired | public/app.js:484 | afterwards no timer is pending; a timer that was not pending changes nothing; a fired timer sends a request exactly when the page has a slug, unless one is already out |
| Polling.FetchCompleted | public/app.js:459-477 | an answer with no request out changes nothing; a settled request leaves no request out and a timer pending; a failure keeps the display and retries after 10000 ms |
| Polling.InitialClient | public/app.js:487-488 | after load the invariant holds, and a request is in flight exactly when the page has a slug |
| Polling.PollingPreservesValid | public/app.js:459-485 | timer firings and answers keep exactly one of timer and request pending with a slug, none without one, and keep the display invariant |
| Polling.PollingNeverStalls | public/app.js:459-485 | with a slug, a pending timer becomes a request, and a settled request becomes a pending timer whatever its outcome |
| Polling.NoSlugNoPolling | public/app.js:459-462 | without a slug no request is ever sent and no timer is ever armed |
| Polling.FailedPollKeepsDisplay | public/app.js:464-477 | a network error or a non-2xx status leaves the display untouched and retries after 10000 ms |
| Polling.SuccessfulPollShowsSnapshot | public/app.js:470-473 | an ok answer is shown as `updateNowPlaying` shows it, and the next request waits for the snapshot's interval or 5000 ms |
| Polling.RepeatedSnapshotIsStable | public/app.js:470-473 | the same answer received twice leaves the state as the first one did |
| OverlayApp.Overlay.constructor | public/app.js:9-19 | the fields start at the script's defaults, then clear the display and start the first fetch: the state is `InitialClient` and valid |
| OverlayApp.Overlay.ClearFancyDynamicStyling | public/app.js:331-336 | the tint is removed and nothing else changes |
| OverlayApp.Overlay.ApplyFancyDynamicPalette | public/app.js:338-364 | the tint is set only for fancy with a visible cover that sampled; otherwise it is cleared |
| OverlayApp.Overlay.ApplyTheme | public/app.js:375-397 | the fields change as `DisplayModel.ApplyTheme` says |
| OverlayApp.Overlay.SwitchTheme | public/app.js:378-397 | the fields change as `DisplayModel.SwitchTheme` says for the desired theme |
| OverlayApp.Overlay.OnThemeLoadError | public/app.js:35-42 | it falls back to `vanilla` as `DisplayModel.OnThemeLoadError` says, and keeps the object valid |
| OverlayApp.Overlay.OnCoverLoad | public/app.js:55 | it runs the forced palette update and keeps the object valid |
| OverlayApp.Overlay.OnCoverError | public/app.js:56 | it clears the tint and keeps the object valid |
| OverlayApp.Overlay.SetBodyCssVariable | public/app.js:204-213 | an empty value removes the variable; any other value sets it |
| OverlayApp.Overlay.ApplyThemeOptions | public/app.js:233-252 | the fields change as `DisplayModel.ApplyThemeOptions` says |
| OverlayApp.Overlay.StopTextAutoScroll | public/app.js:105-132 | the element's marquee entry is deleted, as `DisplayModel.StopTextAutoScroll` says |
| OverlayApp.Overlay.StartTextAutoScroll | public/app.js:134-202 | it tears down first, then stores a fresh state only for overflow above 0 |
| OverlayApp.Overlay.WrapScrollableContent | public/app.js:70-88 | it returns early on the same text; otherwise it stops the marquee and then installs the text |
| OverlayApp.Overlay.EvaluateTextOverflow | public/app.js:90-103 | it starts or stops scrolling as `DisplayModel.EvaluateTextOverflow` says, and keeps the object valid |
| OverlayApp.Overlay.MarqueeCallback | public/app.js:149-199 | one pending timer, frame or listener of an element runs as `Marquee.Step` says, keeping the object valid |
| OverlayApp.Overlay.TriggerTrackTransition | public/app.js:399-408 | the transition plays once more |
| OverlayApp.Overlay.ClearTrackDisplay | public/app.js:410-418 | the fields change as `DisplayModel.ClearTrackDisplay` says |
| OverlayApp.Overlay.UpdateTrackDisplay | public/app.js:420-436 | the fields change as `DisplayModel.UpdateTrackDisplay` says |
| OverlayApp.Overlay.UpdateNowPlaying | public/app.js:438-457 | the fields change as `DisplayModel.UpdateNowPlaying` says, so the lemmas above hold of the object |
| OverlayApp.Overlay.ScheduleNextFetch | public/app.js:480-485 | the pending timer is replaced by one for the delay |
| OverlayApp.Overlay.FetchNowPlaying | public/app.js:459-465 | without a slug nothing happens; otherwise a request goes out |
| OverlayApp.Overlay.RefreshTimerFired | public/app.js:484 | a pending timer fires and starts a fetch; the object stays valid |
| OverlayApp.Overlay.FetchCompleted | public/app.js:464-477 | the settled request changes the state as `Polling.FetchCompleted` says, and the object stays valid |

## Left out

- The text of the URL is not modelled. URL parsing and serialisation, percent-encoding and parameter order are all left out: a request is its server, endpoint and a parameter map.
- `md5` and `randomSalt` are parameters. Hashing and randomness are not modelled.
- Network I/O is out of scope. `fetch` is a parameter in the client and an outcome in the page.
- A body that is not JSON is not a separate case. On the page it counts as a failed request.
- Reading the file and `JSON.parse` in `readConfigFile` are out of scope. `ReadConfigFile` takes the parsed contents, or their absence.
- `process.env` handling (`CONFIG_PATH`) is out of scope.
- `src/server.ts` is not part of this model: routing, CORS, static files, envelopes and cover streaming are all out.
- JSON numbers are integers, except a listen port, which is a real.
- NaN, infinities and fractional intervals are not modelled.
- Filter: its own contract states which entries are kept; that every copy is kept is stated by `FilterCounts`, and that list order is kept by `FilterAppend` and `FilterSingle`.
- FirstMinimum: its own contract states that the chosen entry is a least one; that it is the earliest least one is stated by `FirstMinimumIsEarliest`.
- `Text.ToLower` lowers only ASCII letters. JavaScript's `toLowerCase` also maps other characters, for example the Kelvin sign to `k`.
- DesiredTheme: lowers each character as `Text.LowerChar` does, so only ASCII letters change case; the page itself uses JavaScript's full `toLowerCase`.
- `Config.NormalizeTheme`, `DisplayModel.DesiredTheme`, `DisplayModel.DesiredThemeIsNormal` and `DisplayModel.NormalizeThemeOptions` inherit that ASCII-only lowering.
- Colour extraction is left out (`computeAverageColorFromImage`, `buildFancyOverlayColor`, `adjustFancyLuma`, the channel arithmetic). The model keeps only whether a dynamic tint is set. Whether sampling yields a colour, and whether the cover has loaded, are inputs (`Artwork`).
- The DOM is abstracted away: classes (`scroll-active`, `hidden`, `transitioning`), the body's `data-theme`, inline styles and the reflow trick. A transition is counted, and the cover's hidden class is a flag.
- Layout measurement is not modelled. The overflow of a text element is an input to `EvaluateTextOverflow`.
- The page's starting markup is assumed: the text elements hold no span, and the stylesheet link points at `vanilla`.
- Durations are not modelled: the 5000 ms hold, the 500 ms reset and its 50 ms slack, and frame timing. The browser may run any pending callback next, so the proofs hold for every order.
- The marquee offset is an integer in tenths of a pixel. The source accumulates 0.6 px in floating point, so its rounding is not modelled.
- A reset frame still pending when its element is torn down is dropped from the model. The source does not keep its handle, so that frame still runs and styles a span that has already been replaced. The model does not follow that stale write.
- `getSlugFromPath` is not modelled. The slug is an input to the constructor.
- The `animationend` and `transitionend` listeners that only remove the `transitioning` class are out of scope.
- `console` logging is out of scope.
- An `updateNowPlaying` that throws part-way, on a malformed snapshot, is not modelled.
- `getListenConfig` and `getConfig` are out of scope. They only pass the module constant to the modelled functions.
