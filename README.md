# A Dafny model of the JilHub video catalogue core

JilHub is a Next.js video catalogue. Visitors watch videos in a player whose play button can be
"gated": while redirects are enabled, the first few play/pause clicks of a browser tab open a
sponsor page instead of playing. The tab remembers its count in session storage. Administrators
manage the policy and the videos behind a route guard.

This project models that core and proves what each part promises:

- the player component: its state, the click gate, the session counter, the other control
  handlers, the choice between the embedded and the direct player, the media.cm id extraction,
  and the elapsed-time readout;
- the admin route guard (`middleware.ts`);
- the public and admin settings endpoints;
- the videos endpoint: creation with category and tag upserts by slug, and the published
  listing newest first;
- the "Add New Video" page: the tags field parser, the posted body and the page's reaction;
- the favicon script, which serialises an ICO file byte by byte.

Modules follow the source files. `VideoPlayer`, `PlayerSource` and `TimeFormat` cover
`components/video-player.tsx`. `AdminGuard` covers `middleware.ts`. `PublicSettings`,
`SettingsApi` and `VideosApi` cover the three route files. `NewVideoForm` covers the new-video
page. `Favicon` covers `scripts/create-favicon.js`. The shared modules are:

- `JsStrings`: the JavaScript string operations the core relies on (includes, indexOf, split,
  pop, join, replace, trim, startsWith, toString, parseInt);
- `ApiTypes`: sessions, the policy and the settings row;
- `Wrappers`: `Option`.

Code that updates state step by step is modelled as classes and methods:

- the player component is a class with the component's state fields;
- session storage is a separate object that every player in a tab shares;
- the settings table and the video tables are store objects;
- the new-video page is a class;
- the favicon's nested loops are `while` loops.

Each method is proved against a pure specification function: `Click`, `Clicks`, `Create`,
`TagPass`, `PixelBytes`, `IcoFile`. The properties are then proved about those functions.
Requests to the browser are recorded in an effect log rather than performed: opening a tab,
seeking, fullscreen, navigation and alerts.

Inputs the core reads from its environment are parameters:

- the session or token;
- `slugify` (an uninterpreted function);
- the creation time;
- `NEXT_PUBLIC_AD_REDIRECT_URL`;
- whether the store throws;
- the page's hostname;
- whether the document is fullscreen;
- how the fetch settled.

Where the code and the written design disagree, the model follows the code:

- **media.cm ids.** The design strips an embed-path prefix. The code removes the first `e/`
  anywhere in the id (`MediaCmId`). `MediaCmIdRecovered` proves the two agree on ids without
  `e/`.
- **Partial writes.** The design says failed admin mutations leave no partial writes. The
  videos POST has no transaction, so a failure after its first write would leave the
  category, the video or some tags written. The model covers a store that throws on the
  first write, which writes nothing; later failures are not modelled (see below).
- **ICO size field.** The directory entry's size field says 1024, but 1064 bytes of image
  data follow it. `SizeFieldCountsPixelsOnly` states both numbers. The model does not claim
  they are equal.

## Model

| member | source | states |
|---|---|---|
| VideoPlayer.Player.constructor | components/video-player.tsx:20-29 | the initial state: paused, unmuted, volume 0.8, nothing played, controls shown, no settings, count 0, not mounted, nothing requested |
| VideoPlayer.Player.Mount | components/video-player.tsx:36-49 | mounting marks the player mounted and loads the stored count: a non-empty stored value becomes `parseInt` of it (NaN for garbage), a missing or empty one leaves the count; afterwards counter and storage agree |
| VideoPlayer.LoadedCount | components/video-player.tsx:42-49 | the stored-count read: with `StoredCountReadBack` a stored `toString` is read back as its number, with `NaNNeverRedirects` garbage gives a counter that never gates, and `LoadSyncs` shows the result depends only on the stored value |
| VideoPlayer.LoadSyncs | components/video-player.tsx:42-49 | after the load the counter is what the stored value parses to, whatever it was before |
| VideoPlayer.Player.ReceiveSettings | components/video-player.tsx:51-67 | an ok response sets the settings to its body, a non-ok one leaves them, a failure sets the default policy |
| VideoPlayer.AfterFetch | components/video-player.tsx:51-67 | the settings after the fetch; `FetchFailureNeverGates` proves a failure or an early non-ok answer leaves clicks ungated, and `PublicEndpointFeedsPlayer` that the public endpoint always supplies its policy |
| VideoPlayer.FetchFailureNeverGates | components/video-player.tsx:51-71 | a failed fetch, or a non-ok answer before any settings arrived, leaves the next click an ungated toggle |
| VideoPlayer.PublicEndpointFeedsPlayer | components/video-player.tsx:53-56 | against the public endpoint the fetch always yields its policy, and an empty or failing store never gates a click |
| VideoPlayer.Player.HandlePlayPause | components/video-player.tsx:69-92 | the handler changes playback, counter, storage and effects exactly as the click function says, and keeps counter and storage in agreement |
| VideoPlayer.Decide | components/video-player.tsx:69-92 | the gate decision; `GateRule` proves it redirects exactly when mounted, loaded, enabled, below the threshold and given a URL, and only to that URL |
| VideoPlayer.Click | components/video-player.tsx:69-92 | one click on the counter, storage, playback and effects; `ClickCounts`, `ClickKeepsSynced` and `ThresholdSequence` prove what it changes and what it leaves alone |
| VideoPlayer.GateRule | components/video-player.tsx:69-92 | a click redirects if and only if the player is mounted, settings are loaded, redirects are enabled, the count is below the threshold and the URL is non-empty; it redirects to that URL |
| VideoPlayer.ClickCounts | components/video-player.tsx:69-92 | a click never lowers the counter; it raises it by exactly one if and only if it redirects, and then leaves playback alone; otherwise it flips playback and changes neither counter, storage nor effects |
| VideoPlayer.ClicksNeverLower | components/video-player.tsx:77-91 | over any number of clicks the counter never goes down |
| VideoPlayer.ThresholdSequence | components/video-player.tsx:77-91 | from a count `c` with redirects enabled to a non-empty URL, the first `limit - c` clicks each open the URL, advance and store the counter and leave playback alone; every later click toggles playback |
| VideoPlayer.ThresholdReached | components/video-player.tsx:90-91 | once the count has reached the threshold a click only toggles playback |
| VideoPlayer.NaNNeverRedirects | components/video-player.tsx:46-77 | a NaN counter is never below the threshold, so it never redirects |
| VideoPlayer.StoredCountReadBack | components/video-player.tsx:44-81 | the counter written with `toString` is read back by `parseInt` as the same number |
| VideoPlayer.ClickKeepsSynced | components/video-player.tsx:79-81 | a click keeps the counter and the stored value in agreement |
| VideoPlayer.FourGatedClicks | components/video-player.tsx:77-91 | with a threshold of three from a fresh tab, clicks one to three stay paused, the fourth plays, three tabs are opened and the stored count is 3 |
| VideoPlayer.ClickTimes | components/video-player.tsx:69-92 | `n` clicks on a player leave it in the state of `n` applications of the click function, recording playback after each |
| VideoPlayer.GatedSessionScenario | components/video-player.tsx:42-92 | three clicks open the sponsor page and the fourth plays; a player mounted later in the same tab resumes at count 3 and plays on its first click |
| VideoPlayer.Remount | components/video-player.tsx:42-49 | a player mounted in a tab whose storage holds 3 loads count 3, and with a threshold of 3 its first click plays |
| VideoPlayer.Player.HandleProgress | components/video-player.tsx:94-96 | the played fraction becomes the reported one |
| VideoPlayer.Player.HandleDuration | components/video-player.tsx:98-100 | the duration becomes the reported one |
| VideoPlayer.Player.HandleSeek | components/video-player.tsx:102-106 | the played fraction becomes the slider value and one seek to it is requested |
| VideoPlayer.Player.HandleVolumeChange | components/video-player.tsx:108-112 | the volume becomes the slider value; muted exactly when it is zero; the slider then shows that value |
| VideoPlayer.Player.ToggleMute | components/video-player.tsx:114-116 | muted flips and the volume is kept, so unmuting shows the old volume again |
| VideoPlayer.Player.ToggleFullscreen | components/video-player.tsx:118-126 | without a fullscreen element it requests fullscreen and sets the flag; with one it exits and clears it |
| VideoPlayer.Player.HandleMouseMove | components/video-player.tsx:139-147 | the controls are shown and a hide timeout is pending that captured the current playback flag |
| VideoPlayer.Player.ControlsTimeout | components/video-player.tsx:144-146 | the timeout hides the controls only if playback was on when it was set |
| VideoPlayer.StaleTimeoutScenario | components/video-player.tsx:139-147 | moving the mouse while paused and then playing leaves the controls shown when the timeout fires |
| VideoPlayer.Player.HandleMouseLeave | components/video-player.tsx:236 | leaving hides the controls exactly when playing |
| PlayerSource.Render | components/video-player.tsx:149-236 | the choice of player; `RenderCases` proves exactly one of the three branches applies, for exactly the URLs the code sends there |
| PlayerSource.MediaCmId | components/video-player.tsx:154 | the id extraction; `MediaCmIdClean` proves it never holds `?` or `#`, `MediaCmIdRecovered` that every well-formed link gives its id back |
| PlayerSource.RenderCases | components/video-player.tsx:149-236 | exactly one of three branches: a media.cm URL goes through its id (a popup of the media page on a development host, else the embed URL in an iframe), another URL with `/e/` or `embed` is framed as given, anything else gets the direct player; the thumbnail is the given one when non-empty, else the id's default |
| PlayerSource.MediaCmIdClean | components/video-player.tsx:154 | the extracted id never contains `?` or `#` |
| PlayerSource.MediaCmIdRecovered | components/video-player.tsx:154 | for any prefix, `media.cm/`, an optional `e/`, an id without `?`, `#` or `e/`, and an optional query or fragment, the id comes back exactly |
| PlayerSource.EmbedLinkExample | components/video-player.tsx:154-155 | `https://media.cm/e/abc123?x=1` yields the id `abc123` |
| TimeFormat.PadStart2 | components/video-player.tsx:134-136 | strings under two characters get leading zeros up to two; longer ones are kept |
| TimeFormat.TwoDigits | components/video-player.tsx:134-136 | a number below 100 padded to two digits is two digits that read back as the number |
| TimeFormat.FormatTime | components/video-player.tsx:128-137 | two colons from one hour on, one below; the last two characters are the seconds modulo 60 after a colon; with `FormatTimeReadsBack` and `ReadClockOnlyReadout` the readout is exactly the text that reads back as the seconds |
| TimeFormat.FormatTimeReadsBack | components/video-player.tsx:128-137 | reading the text back as `H:MM:SS` with at least one hour or `M:SS` below one hour, leading field without leading zeros, two-digit fields below 60, gives the number of seconds exactly |
| TimeFormat.ReadClock | components/video-player.tsx:128-137 | the reading of a readout; `FormatTimeReadsBack` and `ReadClockOnlyReadout` prove it inverts `FormatTime` in both directions |
| TimeFormat.ReadClockOnlyReadout | components/video-player.tsx:128-137 | any text that reads as `n` seconds is exactly the readout of `n`: hours and unpadded minutes carry no leading zeros, padded fields two digits |
| TimeFormat.NumeralIsText | components/video-player.tsx:134-136 | a digit string without leading zeros is the decimal text of its value |
| TimeFormat.PaddedFieldIsText | components/video-player.tsx:134-136 | a two-digit field is its value written out and padded to two digits |
| TimeFormat.ClockFields | components/video-player.tsx:129-131 | hours, minutes below 60 and seconds below 60 are recovered from their total exactly as the readout divides it |
| TimeFormat.ClockArithmetic | components/video-player.tsx:129-131 | hours, minutes and seconds as computed add back up to the total |
| TimeFormat.FormatTime125 | components/video-player.tsx:128-137 | 125 seconds read `2:05` |
| TimeFormat.FormatTime3725 | components/video-player.tsx:128-137 | 3725 seconds read `1:02:05` |
| JsStrings.IncludesIff | components/video-player.tsx:150 | `includes` holds if and only if the pattern occurs at some index |
| JsStrings.IndexFrom | components/video-player.tsx:154 | the result is the first occurrence at or after the start, and none means there is none |
| JsStrings.ReplaceFirst | components/video-player.tsx:154 | `replace` with a string pattern; `ReplaceAbsent` and `RemoveLeading` prove it leaves a string without the pattern alone and cuts a leading pattern |
| JsStrings.LastPieceAfter | components/video-player.tsx:154 | the last piece after a marker that cannot overlap itself is the text following its final occurrence |
| JsStrings.FirstPieceExcludes | components/video-player.tsx:154 | cutting at the first `c` leaves no `c` |
| JsStrings.RemoveLeading | components/video-player.tsx:154 | `replace` of a leading pattern by nothing leaves what follows it |
| JsStrings.ReplaceAbsent | components/video-player.tsx:154 | `replace` leaves a string without the pattern unchanged |
| JsStrings.ParseInt | components/video-player.tsx:46 | `parseInt(s, 10)`; `ParseIntToString` proves it reads back any integer's text, `ParseIntNoDigits` that text without a leading sign, digit or space is NaN |
| JsStrings.ParseIntToString | components/video-player.tsx:46 | `parseInt` of an integer's decimal text is that integer |
| JsStrings.ParseIntNoDigits | components/video-player.tsx:46 | text that starts with no sign, digit or whitespace is NaN |
| JsStrings.NatToStringValue | components/video-player.tsx:81 | the decimal text of a number denotes that number |
| JsStrings.Split | app/admin/videos/new/page.tsx:36 | `split` never gives an empty list; `JoinSplit`, `SplitJoin`, `SplitPiecesExcludeSeparator` and `SplitCharCount` prove it inverts `join` and counts its pieces |
| JsStrings.JoinSplit | app/admin/videos/new/page.tsx:36 | joining the pieces of a split with the separator gives the string back |
| JsStrings.SplitJoin | app/admin/videos/new/page.tsx:36 | splitting pieces joined by a character none of them holds gives the pieces back |
| JsStrings.SplitPiecesExcludeSeparator | app/admin/videos/new/page.tsx:36 | no piece of a split contains the separator |
| JsStrings.SplitCharCount | app/admin/videos/new/page.tsx:36 | a split at a character has one more piece than the character's occurrences |
| JsStrings.TrimStart | app/admin/videos/new/page.tsx:36 | the result is a suffix of the input, everything cut off is whitespace, and it does not start with whitespace |
| JsStrings.TrimEnd | app/admin/videos/new/page.tsx:36 | the result is a prefix of the input, everything cut off is whitespace, and it does not end with whitespace |
| JsStrings.Trim | app/admin/videos/new/page.tsx:36 | the trimmed text is empty or starts and ends with a character that is not whitespace |
| JsStrings.TrimEmptyIff | app/admin/videos/new/page.tsx:36 | trimming gives the empty string if and only if every character is whitespace |
| AdminGuard.Middleware | middleware.ts:4-25 | the guard's decision, its tests in the source's order; `MiddlewareCases` proves which requests get each outcome and `RedirectsSettle` that redirects do not loop |
| AdminGuard.MiddlewareCases | middleware.ts:4-25 | the four outcomes with exactly the requests that get each: no token on an admin page to the login page, a token on the login page to the dashboard, a non-admin token on an admin page to the home page, everything else through |
| AdminGuard.AdministratorIsGuarded | middleware.ts:6-12 | the prefix test treats `/administrator` as an admin path |
| AdminGuard.RedirectsSettle | middleware.ts:10-24 | following the guard's redirects with the same token reaches a page it lets through within two more requests |
| AdminGuard.MatchedPathsAreAdminPaths | middleware.ts:27-29 | every path the matcher routes to the middleware passes the admin-path test |
| AdminGuard.PrefixOnlyPathsAreNotRouted | middleware.ts:6-29 | every path that is `/admin` followed by something other than `/` passes the prefix test, so the middleware alone would send it to the login page, but the matcher never routes it to the middleware |
| PublicSettings.Get | app/api/settings/public/route.ts:4-35 | always status 200; a stored row gives its three policy fields, no row or a store error the default policy |
| PublicSettings.GetIgnoresRecordId | app/api/settings/public/route.ts:18-23 | rows that differ only in `id` give the same response |
| PublicSettings.ErrorLooksLikeEmptyStore | app/api/settings/public/route.ts:24-33 | a store error answers exactly like an empty store |
| SettingsApi.Created | app/api/settings/route.ts:57-64 | the row PUT creates: redirects on only when sent true, the URL or `''`, the click count or 3 |
| SettingsApi.Updated | app/api/settings/route.ts:65-73 | the row after an update; `UpdatedFields`, `UpdateIdempotent` and `EmptyUpdateKeepsRow` prove it changes exactly the fields sent, is idempotent and keeps the row for an empty body |
| SettingsApi.UpdatedFields | app/api/settings/route.ts:65-73 | an update changes exactly the fields the body carries and never the id |
| SettingsApi.UpdateIdempotent | app/api/settings/route.ts:65-73 | applying the same body twice gives the row of the first update |
| SettingsApi.EmptyUpdateKeepsRow | app/api/settings/route.ts:65-73 | a body with no fields leaves the row as it is |
| SettingsApi.FullBodyCreatesOrUpdatesAlike | app/api/settings/route.ts:55-74 | a body with all three fields yields that policy whether it creates or updates the row |
| SettingsApi.SettingsStore.Get | app/api/settings/route.ts:6-38 | non-admins get 401 and a store error 500, both leaving the store alone; an existing row is returned; on an empty store one row is created with redirects off, the environment URL or `''`, and 3 clicks |
| SettingsApi.SettingsStore.Put | app/api/settings/route.ts:40-84 | non-admins get 401, an unreadable body or store error 500, leaving the store alone; otherwise the row is created from the body or updated in place and returned |
| SettingsApi.RepeatedGet | app/api/settings/route.ts:18-30 | two admin GETs return the same row |
| SettingsApi.PutThenPublicRead | app/api/settings/route.ts:40-84 | after a full PUT the public endpoint answers with exactly the three values sent |
| VideosApi.Upsert | app/api/videos/route.ts:21-28 | an existing slug's row is returned and the table unchanged; otherwise a row `{name, slug}` with a fresh id is added; no other row changes and the table stays valid |
| VideosApi.UpsertReuses | app/api/videos/route.ts:21-28 | upserting a slug already present, under any name, changes nothing |
| VideosApi.SlugsExactly | app/api/videos/route.ts:47-54 | the slugs the tag loop upserts are exactly the slugs of the tag names |
| VideosApi.TagPass | app/api/videos/route.ts:45-63 | the tag table gains exactly the names' slugs, keeps every existing row and stays valid; one link per name |
| VideosApi.TagPassGrowth | app/api/videos/route.ts:45-63 | at most one new tag per name, and none when every slug already exists |
| VideosApi.LinksPointToTags | app/api/videos/route.ts:45-63 | link `k` joins the new video to the tag row of name `k`'s slug |
| VideosApi.TagLoop | app/api/videos/route.ts:45-63 | the loop produces the tag table and the links of the tag pass |
| VideosApi.NewVideo | app/api/videos/route.ts:32-42 | the video row: description kept only when non-empty, published only when sent true, the session's user id, the category's id |
| VideosApi.CategoryStep | app/api/videos/route.ts:19-29 | the category upsert; `CreateFacts` proves the category is reused or created exactly when one was sent, and the video points at it |
| VideosApi.Create | app/api/videos/route.ts:18-63 | the tables and video of a successful POST; `CreateFacts`, `CreateLinks` and `CreateKeepsValid` prove what it writes and that the tables stay valid |
| VideosApi.CreateVideo | app/api/videos/route.ts:18-63 | the handler's writes in order (category, video, tags and links) produce exactly the tables and the video of a successful POST |
| VideosApi.CreateFacts | app/api/videos/route.ts:19-63 | the tables stay valid; the category is reused or created and the video points at it; the video is appended once with its defaults; one link per tag name in order; nothing stored before changes |
| VideosApi.CreateLinks | app/api/videos/route.ts:45-63 | the old links are kept and one link per tag name follows them, to the tag of its slug |
| VideosApi.CreateKeepsValid | app/api/videos/route.ts:32-63 | a successful POST keeps both slug tables valid and every video id below the next |
| VideosApi.NoTagsNoLinks | app/api/videos/route.ts:45 | an absent or empty tag list creates no link and no tag |
| VideosApi.VideoStore.Post | app/api/videos/route.ts:7-73 | no session or a non-admin role gives 401; a session without a user, an unreadable body or a store that throws on the first write gives 500; all of these leave the store alone; otherwise an admin's body is created and the video returned with status 201 |
| VideosApi.Published | app/api/videos/route.ts:78 | only published videos, every published one, none more often than stored |
| VideosApi.NewestFirstOrdered | app/api/videos/route.ts:85 | in a newest-first list every video is no older than any later one |
| VideosApi.InsertNewestFirst | app/api/videos/route.ts:85 | insertion keeps the list newest first and adds exactly the one video |
| VideosApi.SortNewestFirst | app/api/videos/route.ts:85 | the result is newest first and a permutation of the input |
| VideosApi.Listing | app/api/videos/route.ts:75-88 | the listing is newest first and holds exactly the published videos, each as often as stored |
| VideosApi.VideoStore.Get | app/api/videos/route.ts:75-95 | the listing of the stored videos, or 500 when the store fails |
| NewVideoForm.NonEmptyKeeps | app/admin/videos/new/page.tsx:36 | the filter keeps no empty string, every non-empty one as often as before, in order |
| NewVideoForm.NonEmptyNone | app/admin/videos/new/page.tsx:36 | the filter yields nothing if and only if every entry is empty |
| NewVideoForm.NonEmptyAll | app/admin/videos/new/page.tsx:36 | the filter keeps a list with no empty entry unchanged |
| NewVideoForm.ParseTags | app/admin/videos/new/page.tsx:36 | the tags field parser; `ParseTagsClean`, `ParseTagsEmptyIff` and `ParseTagsJoinSpaced` prove its tags are clean, when there are none, and that typed tags come back |
| NewVideoForm.ParseTagsClean | app/admin/videos/new/page.tsx:36 | every parsed tag is non-empty, trimmed and comma-free; the tags are the non-empty trimmed pieces, as often as they occur, in typed order |
| NewVideoForm.ParseTagsBound | app/admin/videos/new/page.tsx:36 | at most one tag more than there are commas |
| NewVideoForm.ParseTagsEmptyIff | app/admin/videos/new/page.tsx:36 | no tag at all if and only if the field holds only commas and whitespace (so an empty field gives none) |
| NewVideoForm.ParseTagsJoin | app/admin/videos/new/page.tsx:36 | clean tags joined by bare commas parse back unchanged |
| NewVideoForm.ParseTagsJoinSpaced | app/admin/videos/new/page.tsx:208 | clean tags typed as the placeholder shows, comma and space, parse back unchanged |
| NewVideoForm.WithText | app/admin/videos/new/page.tsx:98-210 | a field's change sets that field and leaves every other field and the checkbox alone |
| NewVideoForm.Payload | app/admin/videos/new/page.tsx:34-37 | the posted body; `SubmittedFormCreates` proves what the handler stores for it |
| NewVideoForm.SubmittedFormCreates | app/admin/videos/new/page.tsx:34-37 | the stored video has the form's title and URLs, no description for an empty one, the checkbox's publication, a category exactly when one was typed, and one tag link per parsed tag |
| NewVideoForm.OutcomeCases | app/admin/videos/new/page.tsx:40-47 | the page goes to the list if and only if the response is ok; otherwise it shows exactly one alert |
| NewVideoForm.ResponseOf | app/admin/videos/new/page.tsx:40 | `response.ok` of the handler's reply: a 2xx status, so 201 for a created video |
| NewVideoForm.NewVideoPage.constructor | app/admin/videos/new/page.tsx:14-24 | the page starts with every text field empty, unpublished, not loading, on the URL tab |
| NewVideoForm.NewVideoPage.Edit | app/admin/videos/new/page.tsx:98-210 | the form becomes the old form with that field replaced |
| NewVideoForm.NewVideoPage.SetPublished | app/admin/videos/new/page.tsx:219-220 | the checkbox sets `published` and nothing else |
| NewVideoForm.NewVideoPage.ChooseUploadType | app/admin/videos/new/page.tsx:68-87 | a source button selects its tab |
| NewVideoForm.NewVideoPage.Submit | app/admin/videos/new/page.tsx:26-38 | while loading a submit does nothing; otherwise it sets loading and posts the form's payload |
| NewVideoForm.NewVideoPage.Finish | app/admin/videos/new/page.tsx:40-50 | an ok response navigates to the list and refreshes, otherwise the matching alert; loading is cleared either way |
| NewVideoForm.NewVideoPage.Cancel | app/admin/videos/new/page.tsx:239 | cancel asks to go back |
| NewVideoForm.PostFromPage | app/admin/videos/new/page.tsx:31-40 | the handler answers an admin ok and stores the body unless the store fails; anyone else, or a failing store, gets not ok with the store untouched |
| NewVideoForm.SubmitToServer | app/admin/videos/new/page.tsx:26-51 | one submission posts the payload and then navigates back (admin, store working, video stored) or alerts (anyone else or a failing store, store untouched); the button is enabled again |
| Favicon.IcoHeaderFields | scripts/create-favicon.js:6-10 | the header is 6 bytes: reserved 0, type 1, one image |
| Favicon.IcoDirFields | scripts/create-favicon.js:12-21 | the entry is 16 bytes for one 16x16, one-plane, 32-bit image of size field 0x400, at offset 22, the header and entry length |
| Favicon.BmpHeaderSize | scripts/create-favicon.js:39-42 | the bitmap header is 40 bytes and says 40; width 16, height 32, twice the width |
| Favicon.BmpHeaderFormat | scripts/create-favicon.js:43-46 | one plane, 32 bits, no compression, image size 1024 |
| Favicon.BmpHeaderTail | scripts/create-favicon.js:47-50 | the resolution and palette fields are zero |
| Favicon.PixelBytes | scripts/create-favicon.js:24-37 | the first `n` pixels take `4n` bytes |
| Favicon.PushRow | scripts/create-favicon.js:26-36 | the inner loop appends row `y`'s pixels, left to right |
| Favicon.BuildPixels | scripts/create-favicon.js:24-37 | the nested loops produce the 256 pixels in scan order |
| Favicon.ScanStep | scripts/create-favicon.js:25-35 | visiting pixel (x, y) appends its colour to the pixels before it |
| Favicon.PixelBytesLayout | scripts/create-favicon.js:25-26 | pixel `i` occupies bytes `4i` to `4i+3` and has the colour of column `i mod 16`, row `i / 16` |
| Favicon.PixelBufferSize | scripts/create-favicon.js:24-46 | the pixels take 1024 bytes, the bitmap header's image size |
| Favicon.PixelAt | scripts/create-favicon.js:28-35 | pixel (x, y) is orange if and only if it belongs to the J, black otherwise, always opaque |
| Favicon.IcoFile | scripts/create-favicon.js:53-54 | the file's bytes in the script's order; `IcoFileLayout` proves its length and where each part lies |
| Favicon.IcoFileLayout | scripts/create-favicon.js:53-54 | 1086 bytes: the header, the entry, the bitmap header at the entry's offset, then the pixels from byte 62 |
| Favicon.CreateFavicon | scripts/create-favicon.js:53-57 | the bytes written are the ICO file of the scanned pixels, 1086 long, the pixels from byte 62 |
| Favicon.SizeFieldCountsPixelsOnly | scripts/create-favicon.js:19 | the size field equals the pixel bytes (1024), while 1064 bytes follow the offset |

## Left out

- Rendering: the JSX, `ReactPlayer`, iframes, and the popup's window geometry are not modelled. The model records the chosen view and the requested effects.
- Real numbers: volume, the played fraction, the duration and `parseFloat` are modelled as values that are only stored and compared; nothing is clamped, as in the code.
- TimeFormat.FormatTime: takes whole, non-negative seconds. The `played * duration` product is a float, truncated by the code; that truncation is not modelled.
- JsStrings: strings are sequences of code points. UTF-16 code units, `parseInt` precision beyond 2^53, and non-decimal radix prefixes are not modelled.
- VideoPlayer.Player.HandleMouseMove: the 3-second timer is a pending flag that `ControlsTimeout` fires. Timing and concurrent clicks are not modelled. Clearing a previous timeout is modelled by replacing the pending flag.
- The fetch of the public settings is modelled by its outcome: an ok response with its body, a non-ok response, or a failure. JSON parsing is not modelled.
- Authentication: `getServerSession` and `getToken` are inputs, modelled as a session or token with a role.
- Stores: Prisma is modelled as in-memory tables. Ids are natural-number counters rather than cuid strings, so `categoryRecord?.id || null` never meets a falsy id.
- VideosApi.VideoStore.Post: a store that throws after the first write is not modelled (an unreadable body, and a store that throws on the first write, are). The code would then leave a partial write and answer 500.
- VideosApi.TagPass: the same slug twice in one body (tags `a, a`) gives two identical links. The join table's key is defined in a schema that is not part of this model; if it is the pair of ids, the second `tagOnVideo.create` throws after the video and the first link are written.
- VideosApi.VideoStore.Post: field types are not validated, as in the handler; `published || false` and `description || null` are modelled for the types the page sends.
- SettingsApi.Updated: a field absent from a PUT body keeps its stored value, as Prisma treats `undefined`. The full-body case is `FullBodyCreatesOrUpdatesAlike`.
- `slugify` lives in a helper file that is not part of this model. It is an uninterpreted function parameter.
- The creation time is a parameter. Listing ties between equal `createdAt` may come out in any order; the model proves ordering and contents, not a particular tie order.
- The other fields the listing includes (category, tags) are not modelled. It proves which videos are listed and their order.
- The `required` attributes on the form's inputs are browser validation. They are not modelled, and a submission with empty fields is allowed.
- The upload tab's file input is never read by the page. Only the tab choice is modelled.
- The favicon script's `fs.writeFileSync` and console message are I/O. `CreateFavicon` returns the bytes instead.
- The other pages, components and scripts (the dashboard, the video list and the settings page, the header, the cards, the seed and init scripts, the apple icon and the config) are not part of this model.
