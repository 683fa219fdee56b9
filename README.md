# popscicles whitelist intake: a verified model of its core

The site collects whitelist submissions: a visitor posts a Twitter handle, an
Ethereum wallet and a tweet URL. Later the visitor looks up the submission's
status. An admin pages through the submissions, approves or rejects them, and
exports the approved wallets as CSV. The landing page plays a scroll-driven
image sequence.

This project models the logic of that site in Dafny:

- **The hero frame player** (`HeroScrollFrames.tsx`) is the class
  `HeroScrollFrames.Player`.
  - Its fields are the component's refs and state: manifest, frame cache,
    warm-up queue, window-busy flag, last update time, target and smoothed
    progress, stored frame index and displayed frame.
  - Every asynchronous callback is an event method: manifest fetch, image
    `onload`, cooldown timer, animation-frame tick, visibility change. The
    methods may be called in any order their preconditions allow.
  - Ghost fields record the loads in flight and the log of every image
    request issued.
  - The tick arithmetic is in `ScrollProgress`: scroll position to target,
    the one-pole smoothing step, progress to frame index, and the style
    values a render computes. Progress values are exact reals.
- **Validators and formatter** (`utils.ts`, module `Utils`): the address
  pattern, the shortened address and the tweet-URL host/path rule. The URL
  rule is stated over the parser's result.
- **Client address** (`ratelimit.ts`, module `RateLimit`): the address taken
  from `x-forwarded-for`.
- **Routes.** Each one is a total function from the request and its
  collaborators' answers to a response. Database answers, the rate limiter,
  the clock, hashing, date formatting and the helpers not shown are
  parameters.
  - `SubmitRoute`: size guard, rate limit, required fields, address, handle
    and URL checks, the inserted row and the insert-error mapping.
  - `StatusRoute`: the normalised query, its '@' form, the `or` filter
    string, the four-column answer.
  - `ListRoute`: the admin gate, parameter defaults, filter conditions,
    page range and page count.
  - `ExportRoute`: the admin gate, the empty-result 404 and the CSV text.
  - `AdminAuth`: the 401/403 gate that the list and export routes share.
- **Admin dashboard** (`page.tsx`, class `AdminDashboard.Dashboard`): the
  filter, search, page and page-count transitions, the list answer with its
  status tally, the login re-entry guard, and the request the dashboard
  sends to the list route.
- **Shared JavaScript built-ins** (module `JsText`): `trim`, `toLowerCase`
  (ASCII), `split`/`join` on one character, `slice` with negative indices,
  `value || fallback`, and `parseInt` (section 19.2.5 of ECMA-262).

## Model

| member | source | states |
|---|---|---|
| `ScrollProgress.Clamp01` | src/components/HeroScrollFrames.tsx:110 | The result is in [0, 1], equals the input inside it, and is 0 below and 1 above. |
| `ScrollProgress.JsMin` | src/components/HeroScrollFrames.tsx:110 | `Math.min`: NaN exactly when an operand is NaN; otherwise one of the operands, and neither operand is smaller. |
| `ScrollProgress.JsMax` | src/components/HeroScrollFrames.tsx:110 | `Math.max`: NaN exactly when an operand is NaN; otherwise one of the operands, and neither operand is larger. |
| `ScrollProgress.RawTarget` | src/components/HeroScrollFrames.tsx:105-111 | The target progress is in [0, 1]. It is 0 for a non-positive scroll distance or a wrapper top at or below the viewport top, and 1 once scrolled past the distance. |
| `ScrollProgress.RawTargetAsWritten` | src/components/HeroScrollFrames.tsx:107-110 | The unguarded target: for a non-zero distance, the clamped ratio; for a zero distance, NaN when the top is at 0, 1 when it is above the viewport top and 0 when it is below. |
| `ScrollProgress.JsDivide` | src/components/HeroScrollFrames.tsx:110 | Double division by a non-zero divisor is the exact quotient. Division by zero is NaN exactly when the dividend is 0. |
| `ScrollProgress.AsWrittenAgrees` | src/components/HeroScrollFrames.tsx:107-110 | For a positive scroll distance, the unguarded expression gives exactly the guarded target. |
| `ScrollProgress.ZeroDistanceGivesNaN` | src/components/HeroScrollFrames.tsx:107-110 | A wrapper one viewport tall with its top at 0 makes the code's target NaN; the guarded target is 0. |
| `ScrollProgress.JsLerp` | src/components/HeroScrollFrames.tsx:116 | A NaN smoothed progress stays NaN after a step. |
| `ScrollProgress.NaNPersists` | src/components/HeroScrollFrames.tsx:116 | Once NaN, the smoothed progress stays NaN whatever targets follow. |
| `ScrollProgress.Lerp` | src/components/HeroScrollFrames.tsx:115-116 | One step keeps 90% of the gap to the target, lands between the old value and the target, and never reaches or crosses a target it did not start at. |
| `ScrollProgress.LerpInUnit` | src/components/HeroScrollFrames.tsx:116 | A step from inside [0, 1] toward a target in [0, 1] stays in [0, 1]. |
| `ScrollProgress.Smooth` | src/components/HeroScrollFrames.tsx:116 | Ticks at a target the progress already equals leave it there. |
| `ScrollProgress.SmoothGap` | src/components/HeroScrollFrames.tsx:116 | After k ticks at a fixed target, the gap is 0.9^k times the first gap. |
| `ScrollProgress.SmoothMonotone` | src/components/HeroScrollFrames.tsx:116 | Approaching a fixed target from below, the values rise tick by tick without overshoot. |
| `ScrollProgress.SmoothStaysBelow` | src/components/HeroScrollFrames.tsx:116 | Starting below a fixed target, no number of ticks reaches it. |
| `ScrollProgress.SmoothNotBelowStart` | src/components/HeroScrollFrames.tsx:116 | Approaching from below, no tick falls under the start value. |
| `ScrollProgress.SmoothConverges` | src/components/HeroScrollFrames.tsx:116 | For every positive bound, some number of ticks brings the gap to a fixed target under it. |
| `ScrollProgress.SmoothFollowsRisingTargets` | src/components/HeroScrollFrames.tsx:110-116 | Under non-decreasing scroll targets, starting at or below the first, the smoothed progress never decreases and never passes the current target. |
| `ScrollProgress.FrameIndex` | src/components/HeroScrollFrames.tsx:119 | `floor(p * (N - 1))` for p in [0, 1] is a manifest index, and is the floor of the scaled progress. |
| `ScrollProgress.LastFrameNeedsFullProgress` | src/components/HeroScrollFrames.tsx:119 | A progress below 1 never selects the last of two or more frames. |
| `ScrollProgress.FrameBelowExactTarget` | src/components/HeroScrollFrames.tsx:119 | A progress below a target that lands exactly on frame m selects a frame before m. |
| `ScrollProgress.HalfwayScenario` | src/components/HeroScrollFrames.tsx:105-119 | With three frames and a wrapper three viewports tall scrolled one viewport down, the target is 0.5 and selects frame 1, but the smoothed progress stays on frame 0 for any number of ticks. |
| `ScrollProgress.Opacity` | src/components/HeroScrollFrames.tsx:149-151 | The opacity a render computes from the smoothed progress stays in [0.4, 0.8] for progress in [0, 1]. |
| `ScrollProgress.Brightness` | src/components/HeroScrollFrames.tsx:149-152 | The brightness a render computes from the smoothed progress stays in [0.8, 1.2] for progress in [0, 1]. |
| `ScrollProgress.Saturation` | src/components/HeroScrollFrames.tsx:149-152 | The saturation a render computes from the smoothed progress stays in [0.9, 1.1] for progress in [0, 1]. |
| `ScrollProgress.StyleRisesWithProgress` | src/components/HeroScrollFrames.tsx:150-153 | All three style values rise with the progress. |
| `HeroScrollFrames.WindowStart` | src/components/HeroScrollFrames.tsx:74 | The window's first index is never negative. |
| `HeroScrollFrames.WindowEnd` | src/components/HeroScrollFrames.tsx:75 | The window's last index is never past the last frame. |
| `HeroScrollFrames.UncachedBetween` | src/components/HeroScrollFrames.tsx:77-84 | The loads issued over an index range number at most the range's width. |
| `HeroScrollFrames.UncachedBetweenMembers` | src/components/HeroScrollFrames.tsx:77-84 | A name is requested over a range exactly when it is uncached and sits at some index of the range. |
| `HeroScrollFrames.WindowRequests` | src/components/HeroScrollFrames.tsx:73-84 | A burst issues at most 17 loads and no more than the manifest holds, and none of them for a cached name. |
| `HeroScrollFrames.WindowRequestsExact` | src/components/HeroScrollFrames.tsx:69-87 | A window burst around c requests exactly the uncached names at indices max(0, c-8)..min(N-1, c+8), all inside the manifest. |
| `HeroScrollFrames.LoopGate` | src/components/HeroScrollFrames.tsx:89-90 | The tick loop runs only while the hero is in view with a non-empty manifest, and never before the component has mounted. |
| `HeroScrollFrames.SkipCached` | src/components/HeroScrollFrames.tsx:54-59 | Skipping cached head names never lengthens the queue. |
| `HeroScrollFrames.SkipCachedShape` | src/components/HeroScrollFrames.tsx:53-59 | The skipped names are a run of cached names at the head of the queue; what remains is a suffix of the queue, empty or starting with an uncached name. |
| `HeroScrollFrames.SweepOnResolve` | src/components/HeroScrollFrames.tsx:27-39 | When the manifest resolves, the sweep has not started and the queue is empty, so the sweep invariant holds for the new manifest. |
| `HeroScrollFrames.Player.constructor` | src/components/HeroScrollFrames.tsx:6-20 | The first render: nothing mounted, an empty manifest, cache and queue, progress 0, frame index -1, no image, no tick and no request. |
| `HeroScrollFrames.Player.Mount` | src/components/HeroScrollFrames.tsx:22-23 | The component is mounted, and the tick effect (lines 89-90) schedules a tick exactly when its gate passes: mounted, a non-empty manifest, in view. |
| `HeroScrollFrames.Player.ManifestLoaded` | src/components/HeroScrollFrames.tsx:25-39 | The manifest is published. A non-empty manifest shows frame 0 and issues frame 0's load, and only that one. The tick is scheduled by the loop gate. This holds whether or not the component is still mounted, since nothing cancels the fetch (line 50 only disconnects the observer). |
| `HeroScrollFrames.LateManifestScenario` | src/components/HeroScrollFrames.tsx:25-50 | A manifest arriving after unmount still loads frame 0 and moves the sweep on to the next frame, and schedules no tick. |
| `HeroScrollFrames.Player.ProcessPreloadQueue` | src/components/HeroScrollFrames.tsx:53-66 | One sweep step drops the cached head names, shifts the first uncached name, issues its load and logs it. The queue strictly shortens unless it was empty, and stays the manifest's remaining suffix. |
| `HeroScrollFrames.Player.FirstFrameLoaded` | src/components/HeroScrollFrames.tsx:33-38 | Frame 0 is cached, and the sweep starts over the rest of the manifest, taking its first step. The invariant keeps the sweep from starting before frame 0 is cached. |
| `HeroScrollFrames.Player.SweepFrameLoaded` | src/components/HeroScrollFrames.tsx:62-65 | A finished sweep load adds its name to the cache, removes nothing, and takes the next sweep step. |
| `HeroScrollFrames.Player.WindowFrameLoaded` | src/components/HeroScrollFrames.tsx:82 | A finished window load, completing in any order, adds its name to the cache and removes nothing. Exactly that load leaves the in-flight list. |
| `HeroScrollFrames.Player.PreloadWindow` | src/components/HeroScrollFrames.tsx:69-87 | While busy, nothing changes. Otherwise the flag is set and exactly the window's uncached names are requested, in-flight ones included. |
| `HeroScrollFrames.Player.CooldownElapsed` | src/components/HeroScrollFrames.tsx:86 | The timer clears the busy flag and changes nothing else. |
| `HeroScrollFrames.Player.VisibilityChanged` | src/components/HeroScrollFrames.tsx:42-43 | A changed visibility reschedules the tick by the loop gate. Out of view, no tick is pending; an unchanged value changes nothing. |
| `HeroScrollFrames.Player.Unmount` | src/components/HeroScrollFrames.tsx:141 | Unmounting cancels the pending tick; the invariant still holds. |
| `HeroScrollFrames.Player.ShowFrame` | src/components/HeroScrollFrames.tsx:122-135 | An unchanged index changes nothing. A new index is stored and displayed even when uncached; an uncached one also runs the window burst around it. |
| `HeroScrollFrames.Player.Tick` | src/components/HeroScrollFrames.tsx:94-138 | Within 16 ms, a tick changes nothing. Otherwise it sets `lastUpdate` to now. Without the wrapper the loop ends. With it, the target is sampled and the progress smoothed, and the frame `floor(current * (N-1))` is shown as in `ShowFrame`. |
| `Utils.HexRun` | src/lib/utils.ts:13 | The rest of the input is exactly n characters of `[a-fA-F0-9]`. |
| `Utils.IsValidEthereumAddress` | src/lib/utils.ts:12-14 | True exactly for "0x" followed by 42 characters of `[a-fA-F0-9]`: 44 characters in all. |
| `Utils.FortyDigitAddressRejected` | src/lib/utils.ts:13 | A canonical 20-byte address ("0x" and 40 hex digits) is rejected. |
| `Utils.LowerCaseKeepsValid` | src/lib/utils.ts:13 | Lower-casing a valid address keeps it valid: digits are accepted in either case. |
| `Utils.AddressVectors` | src/lib/utils.ts:13 | The unit tests' 40-digit lower- and mixed-case addresses, the unprefixed one and "0x123" are all rejected. |
| `Utils.NonHexDigitRejected` | src/lib/utils.ts:13 | A character outside the class anywhere after "0x" rejects the address. |
| `Utils.FormatAddress` | src/lib/utils.ts:8-10 | The first min(6, n) characters, "...", then the last min(4, n) characters. An address of 10 or more characters gives 13. |
| `Utils.ShortAddressRepeated` | src/lib/utils.ts:8-10 | An address of at most 4 characters appears whole on both sides of the dots. |
| `Utils.IsValidTwitterUrl` | src/lib/utils.ts:16-28 | A failed parse is false. Otherwise true exactly for one of the four Twitter/X hosts with a path longer than "/". |
| `Utils.TwitterUrlVectors` | src/lib/utils.ts:16-28 | A status URL, a profile URL and a non-numeric status id are accepted. Another host, the bare root and a failed parse are rejected. |
| `RateLimit.GetClientIP` | src/lib/ratelimit.ts:35-41 | An absent or empty header gives "127.0.0.1". Otherwise the result holds no comma, has no surrounding whitespace and is no longer than the header. Otherwise the result is the text before the first comma (or all of it), trimmed; a header without commas gives the header trimmed. |
| `RateLimit.ClientIPFromFirstEntry` | src/lib/ratelimit.ts:36-38 | The address is the first entry, trimmed: it sits in the header before the first comma (or the end), with only whitespace between it and the start of the header and only whitespace between it and that comma. |
| `RateLimit.WhitespaceHeaderGivesEmptyAddress` | src/lib/ratelimit.ts:37-38 | A non-empty header of whitespace alone is truthy and gives the empty address. |
| `JsText.LeadingWhitespace` | src/lib/ratelimit.ts:38 | The count of leading whitespace characters: all of them whitespace, and the next character, if any, not. |
| `JsText.TrailingWhitespace` | src/lib/ratelimit.ts:38 | The count of trailing whitespace characters: all of them whitespace, and the character before them, if any, not. |
| `JsText.TrimStart` | src/app/api/admin/list/route.ts:29 | The result is a suffix of the input, after only whitespace, and starts with a non-whitespace character if not empty. |
| `JsText.TrimEnd` | src/lib/ratelimit.ts:38 | The result is a prefix of the input, followed by only whitespace, and ends with a non-whitespace character if not empty. |
| `JsText.Trim` | src/lib/ratelimit.ts:38 | The result has no whitespace at either end and is no longer than the input. |
| `JsText.TrimShape` | src/lib/ratelimit.ts:38 | The trimmed text is a slice of the input with only whitespace before and after it. |
| `JsText.TrimKeepsAbsent` | src/lib/ratelimit.ts:38 | Trimming adds no character. |
| `JsText.WhitespaceAround` | src/lib/ratelimit.ts:38 | Trimming the start and then the end leaves a slice with only whitespace around it. |
| `JsText.TrimOfTrimmed` | src/app/api/submit/route.ts:39 | Trimming a string without surrounding whitespace changes nothing. |
| `JsText.TrimIdempotent` | src/app/api/submit/route.ts:39 | Trimming twice is trimming once. |
| `JsText.LowerChar` | src/app/api/status/route.ts:12 | An ASCII capital maps to its small letter; every other character is unchanged. |
| `JsText.ToLower` | src/app/api/status/route.ts:12 | Same length, each character lower-cased, and no ASCII capital left. |
| `JsText.StartsWith` | src/app/api/status/route.ts:13 | `startsWith(p)` holds exactly when the text is `p` followed by some rest. |
| `JsText.FirstSegment` | src/lib/ratelimit.ts:38 | `split(sep)[0]`: the longest separator-free prefix, ending at the first separator or at the end. |
| `JsText.Split` | src/app/api/admin/export/route.ts:49 | The parts are never an empty list and none holds the separator. |
| `JsText.SplitHead` | src/lib/ratelimit.ts:38 | The first part of a split is the text before the first separator. |
| `JsText.JoinExcludes` | src/app/api/admin/export/route.ts:44 | A character in no part and not in the separator is not in the join. |
| `JsText.JoinStartsWithFirst` | src/app/api/admin/export/route.ts:44 | The join begins with its first part. |
| `JsText.JoinEndsWithLast` | src/app/api/admin/export/route.ts:44 | The join ends with its last part, so nothing follows it. |
| `JsText.JoinCons` | src/app/api/admin/export/route.ts:44 | Putting a part in front adds the part and one separator. |
| `JsText.JoinThree` | src/app/api/admin/export/route.ts:39-44 | Three parts join as a, sep, b, sep, c. |
| `JsText.Join` | src/app/api/admin/export/route.ts:44 | No parts join to the empty string; otherwise the join is as long as the parts together plus one separator between each neighbouring pair. |
| `JsText.SplitJoin` | src/app/api/admin/export/route.ts:44 | Splitting a join on its one-character separator gives back the parts when no part holds the separator. |
| `JsText.SplitAfterSegment` | src/app/api/admin/export/route.ts:44 | A separator-free prefix followed by the separator splits off as the first part. |
| `JsText.FirstSegmentWithout` | src/lib/ratelimit.ts:38 | Text without the separator is its own first segment. |
| `JsText.FirstSegmentBefore` | src/lib/ratelimit.ts:38 | A separator-free prefix followed by the separator is exactly the first segment. |
| `JsText.RelativeIndex` | src/lib/utils.ts:9 | A `slice` index counts from the end when negative and is clipped to [0, length]. |
| `JsText.Slice` | src/lib/utils.ts:9 | Never longer than the input. Non-negative bounds take the clipped range, and `slice(0, n)` is a prefix of at most n characters. |
| `JsText.OrElse` | src/app/api/admin/list/route.ts:27-30 | A present, non-empty value is kept; an absent or empty one gives the fallback. |
| `JsText.DigitValue` | src/app/api/admin/list/route.ts:29 | A digit's value is below 16, and a decimal digit's value is its numeric value. |
| `JsText.DigitPrefix` | src/app/api/admin/list/route.ts:29 | The longest prefix made of digits of the radix. |
| `JsText.ParseSigned` | src/app/api/admin/list/route.ts:29 | Without a sign character, the value is that of the unsigned digits. |
| `JsText.ParseUnsigned` | src/app/api/admin/list/route.ts:29 | An unsigned parse that yields a number yields a non-negative one. |
| `JsText.ParseInt` | src/app/api/admin/list/route.ts:29 | After leading whitespace: nothing left gives NaN; a leading digit 1-9 gives a non-negative number; a first character that is neither a digit nor a sign gives NaN; a negative result needs a leading "-". |
| `JsText.DecimalString` | src/app/admin/page.tsx:151 | The rendering of a number in a template literal is a non-empty string of decimal digits. |
| `JsText.DigitsValueOfDecimal` | src/app/admin/page.tsx:151 | The digits of a rendered number evaluate back to the number. |
| `JsText.DigitPrefixOfDigits` | src/app/api/admin/list/route.ts:29 | A string of digits alone is its own digit prefix. |
| `JsText.ParseIntOfDigits` | src/app/api/admin/list/route.ts:29 | `parseInt` reads a string of decimal digits whole, in base 10. |
| `JsText.UnsignedOfDigits` | src/app/api/admin/list/route.ts:29 | A string of decimal digits is read in base 10, never as hexadecimal. |
| `JsText.ParseIntDecimal` | src/app/api/admin/list/route.ts:29-30 | `parseInt` reads back every rendered natural number. |
| `AdminAuth.AdminGate` | src/app/api/admin/list/route.ts:11-24 | No user gives 401 whatever the lookup. For a user, the request passes exactly when the admin lookup found a row; otherwise 403. |
| `ListRoute.ReadParams` | src/app/api/admin/list/route.ts:27-30 | An absent or empty filter reads as "all", an absent search as empty, an absent or empty page as 1 and page size as 10; present values are kept (filter, search) or passed to `parseInt` (page, page size). |
| `ListRoute.Defaults` | src/app/api/admin/list/route.ts:27-30 | No parameters read as filter "all", empty search, page 1 and page size 10. |
| `ListRoute.DecimalParams` | src/app/api/admin/list/route.ts:27-30 | Decimal page numbers are read back exactly, and the search text as given. |
| `ListRoute.Conditions` | src/app/api/admin/list/route.ts:37-43 | The status condition is added exactly when the filter is not "all", the search pair exactly when the search is not empty, and nothing else. |
| `ListRoute.PagesTile` | src/app/api/admin/list/route.ts:45-46 | A page spans exactly `pageSize` indices, and the next page starts right after it. |
| `ListRoute.PageOfRow` | src/app/api/admin/list/route.ts:45-46 | For a positive page size, every row index lies on exactly one page numbered 1 or more. |
| `ListRoute.PageRange` | src/app/api/admin/list/route.ts:45-48 | The range exists exactly when both numbers parsed, and spans `pageSize` indices. |
| `ListRoute.CeilDiv` | src/app/api/admin/list/route.ts:55 | `ceil(count / pageSize)`: for a positive size, the least t with count <= t * size; for a negative size, the matching bounds. |
| `ListRoute.TotalPages` | src/app/api/admin/list/route.ts:55 | A NaN or zero page size gives null; otherwise the ceiling of the count (absent counts 0) over the size. |
| `ListRoute.TotalPagesBounds` | src/app/api/admin/list/route.ts:54-55 | For a positive size, the count is present and never negative. It is 0 exactly for no rows, and otherwise the last page holds the last row. |
| `ListRoute.List` | src/app/api/admin/list/route.ts:11-56 | The gate decides 401/403 first, then a database error gives 500. Otherwise the rows (or none), the count (or 0) and the page count of the query built from the parameters. |
| `ListRoute.DeniedBeforeParameters` | src/app/api/admin/list/route.ts:11-24 | A denied request gets the same failure whatever its parameters and whatever the database holds. |
| `ExportRoute.Line` | src/app/api/admin/export/route.ts:39-44 | A data line is wallet, ",", handle, ",", formatted date, inserted verbatim. |
| `ExportRoute.Lines` | src/app/api/admin/export/route.ts:39-43 | One line per row, in result order. |
| `ExportRoute.Csv` | src/app/api/admin/export/route.ts:37-44 | The text starts with the header "Wallet,Twitter,Date". |
| `ExportRoute.LineWithout` | src/app/api/admin/export/route.ts:44 | A line holds no character absent from its cells, other than the commas. |
| `ExportRoute.CsvLines` | src/app/api/admin/export/route.ts:37-44 | Without line breaks in the cells, the text splits into the header and then one line per row: rows + 1 lines. |
| `ExportRoute.NoTrailingNewline` | src/app/api/admin/export/route.ts:44 | Without line breaks in the cells, the text does not end with a line break. |
| `ExportRoute.LineCells` | src/app/api/admin/export/route.ts:39-44 | Without commas in the cells, a line splits back into its three cells. |
| `ExportRoute.CommaInCellShiftsColumns` | src/app/api/admin/export/route.ts:44 | Cells are not quoted: a comma in a wallet cell gives a line of four columns. |
| `ExportRoute.Filename` | src/app/api/admin/export/route.ts:49 | The file name is "approved_wallets_", then the timestamp up to its first 'T' (the date, which holds no 'T'), then ".csv". |
| `ExportRoute.Export` | src/app/api/admin/export/route.ts:9-51 | Gate 401/403 first, then 500 for a query error, then 404 "No approved wallets found" for no rows; otherwise the CSV of the rows with its file name. |
| `ExportRoute.ExportedFileHasRows` | src/app/api/admin/export/route.ts:32-44 | An exported file starts with the header and holds at least two lines. |
| `Submissions.StatusName` | src/app/admin/page.tsx:23 | Each status is sent as one of the three names, and distinct statuses as distinct names. |
| `SubmitRoute.TooLarge` | src/app/api/submit/route.ts:18-19 | Too large exactly when the header (or "0") parses to a number above 5120; NaN passes. |
| `SubmitRoute.AbsentLengthPasses` | src/app/api/submit/route.ts:18-19 | An absent or empty content length counts as 0 and passes. |
| `SubmitRoute.DecimalLengthCompared` | src/app/api/submit/route.ts:18-19 | A decimal content length is too large exactly when above 5120. |
| `SubmitRoute.NonNumericLengthPasses` | src/app/api/submit/route.ts:18-19 | A content length with no leading digit parses to NaN and passes the guard. |
| `SubmitRoute.RateKey` | src/app/api/submit/route.ts:25 | The limiter key is "submit_ip_" followed by the client address. |
| `SubmitRoute.NormalizeHandle` | src/app/api/submit/route.ts:39 | The stored handle starts with '@' and has no surrounding whitespace; it is the trimmed input, with an '@' in front when it lacks one. |
| `SubmitRoute.AtTrimmed` | src/app/api/submit/route.ts:39 | An '@' in front of a trimmed text leaves it trimmed. |
| `SubmitRoute.NormalizeHandleIdempotent` | src/app/api/submit/route.ts:39 | Normalising a normalised handle changes nothing. |
| `SubmitRoute.BlankHandleBecomesAt` | src/app/api/submit/route.ts:39 | A handle of whitespace alone becomes the bare "@". |
| `SubmitRoute.NormalizeHandleCases` | src/app/api/submit/route.ts:39 | A trimmed handle starting with '@' is kept; any other gains exactly one '@' in front. |
| `SubmitRoute.IpHash` | src/app/api/submit/route.ts:55-56 | The stored hash is SHA-256 of the address followed by `IP_HASH_SALT`, or by the development salt when that is unset or empty. |
| `SubmitRoute.TruncateUserAgent` | src/app/api/submit/route.ts:70 | An absent user agent stays absent. A present one is cut to a prefix of at most 255 characters, and one within 255 is kept whole. |
| `SubmitRoute.CheckFields` | src/app/api/submit/route.ts:35-71 | A missing field gives 400 "Missing required fields". Every rejection is a 400. An inserted row has the normalised handle and address, the tweet URL as given, status "pending", the salted IP hash and the truncated user agent, and passes all three format checks. |
| `SubmitRoute.Decide` | src/app/api/submit/route.ts:18-71 | An oversized request gets 413. Every rejection is 413, 429, 500 or 400. A row is inserted only within the size limit, after admission by the limiter, with a body, and as the field checks decide. |
| `SubmitRoute.SizeGuardFirst` | src/app/api/submit/route.ts:18-29 | An oversized request gets 413 whatever the limiter, the body and the validators would say. |
| `SubmitRoute.RateLimitBeforeBody` | src/app/api/submit/route.ts:24-31 | A client the limiter denies gets 429 whatever its body holds. |
| `SubmitRoute.NoLimiterAdmitsAll` | src/app/api/submit/route.ts:24-29 | Without a configured limiter, the decision is that of a limiter admitting every key. |
| `SubmitRoute.MissingBeforeFormat` | src/app/api/submit/route.ts:35-52 | A missing or empty field gives 400 "Missing required fields" whatever the validators would say. |
| `SubmitRoute.FormatCheckOrder` | src/app/api/submit/route.ts:42-52 | Address, then handle, then URL: the first failing check names the error, and passing all three inserts. |
| `SubmitRoute.InsertIffAllPass` | src/app/api/submit/route.ts:18-71 | A row is inserted exactly when every guard passes. |
| `SubmitRoute.Submit` | src/app/api/submit/route.ts:18-83 | A rejection is sent as decided. The insert's unique violation "23505" gives 409, any other insert error 500, and success `{ success: true }`. |
| `SubmitRoute.SuccessMeansInserted` | src/app/api/submit/route.ts:64-80 | Success means every guard passed and the insert of a "pending" row succeeded. |
| `SubmitRoute.ConflictOnlyFromUniqueViolation` | src/app/api/submit/route.ts:73-76 | A 409 comes only from a unique violation on the insert. |
| `StatusRoute.NormalizeQuery` | src/app/api/status/route.ts:12 | `q` has no surrounding whitespace and no ASCII capital, and is as long as the trimmed query. |
| `StatusRoute.LowerKeepsTrimmed` | src/app/api/status/route.ts:12 | Lower-casing keeps a trimmed text trimmed. |
| `StatusRoute.LowerCharWhitespace` | src/app/api/status/route.ts:12 | Lower-casing never makes or removes whitespace. |
| `StatusRoute.NormalizeQueryIdempotent` | src/app/api/status/route.ts:12 | Normalising `q` again gives `q`. |
| `StatusRoute.TwitterQuery` | src/app/api/status/route.ts:13 | `twitterQ` starts with '@'. It is `q` when `q` starts with '@', and otherwise '@' followed by `q`. It adds no capital. |
| `StatusRoute.TwitterQueryIdempotent` | src/app/api/status/route.ts:13 | Forming the '@' query twice is forming it once. |
| `StatusRoute.FilterString` | src/app/api/status/route.ts:20 | The filter is the three equality terms joined by commas. |
| `StatusRoute.FilterTerms` | src/app/api/status/route.ts:20 | A query without a comma gives exactly the three intended terms. |
| `StatusRoute.CommaInQueryAddsTerms` | src/app/api/status/route.ts:20 | A comma in the query cuts the wallet term short, and the text after it becomes a filter term of its own. |
| `StatusRoute.TwoLeadingTerms` | src/app/api/status/route.ts:20 | Two comma-free texts, each followed by a comma, split off as the first two terms. |
| `StatusRoute.View` | src/app/api/status/route.ts:19 | The answer carries the row's note, handle and wallet, and its status as one of "pending", "approved" or "rejected", naming the row's status. |
| `StatusRoute.ViewShowsFourColumns` | src/app/api/status/route.ts:32-37 | Two rows give the same answer exactly when their status, note, handle and wallet agree; nothing else about a row shows. |
| `StatusRoute.Status` | src/app/api/status/route.ts:4-42 | A body that does not parse gives 500, and a missing or empty query 400. Then a lookup error gives 500, no row 404, and a row its four columns. |
| `StatusRoute.QueryCheckedBeforeLookup` | src/app/api/status/route.ts:8-10 | A missing or empty query gets 400 whatever the database holds. |
| `StatusRoute.WhitespaceQuerySearchesEmpty` | src/app/api/status/route.ts:8-13 | A whitespace-only query passes the `!query` guard and searches for "" and "@". |
| `StatusRoute.TwitterQueryOfSubmittedHandle` | src/app/api/status/route.ts:12-13 | For the same input, `twitterQ` is the lower-cased handle the submit route stores. |
| `StatusRoute.CapitalisedValueNeverMatched` | src/app/api/status/route.ts:12-20 | Neither `q` nor `twitterQ` equals a stored value holding an ASCII capital. |
| `AdminDashboard.FilterName` | src/app/admin/page.tsx:335-338 | A tab's filter value is never empty, and is "all" exactly for the all tab. |
| `AdminDashboard.CountStatus` | src/app/admin/page.tsx:172-174 | The number of rows with a status is at most the number of rows. |
| `AdminDashboard.TallyCoversRows` | src/app/admin/page.tsx:170-175 | With three statuses, pending + approved + rejected equals the number of rows. |
| `AdminDashboard.CountStatusAppend` | src/app/admin/page.tsx:172-174 | Counting over two runs of rows adds the counts. |
| `AdminDashboard.LocalTally` | src/app/admin/page.tsx:170-175 | The counters are the per-status counts and add up to the rows. The total is the count, or the number of rows when the count is 0 or absent. |
| `AdminDashboard.PagesOrOne` | src/app/admin/page.tsx:165 | `totalPages || 1`: null or 0 gives 1, any other value is kept, so a non-negative answer gives at least 1. |
| `AdminDashboard.PaginationNeedsElevenRows` | src/app/admin/page.tsx:508 | With 10 rows a page, the pagination bar shows after a list answer exactly when more than 10 rows match. |
| `AdminDashboard.RowActions` | src/app/admin/page.tsx:466-497 | The note button always; approve and reject exactly for a pending row. |
| `AdminDashboard.Dashboard.constructor` | src/app/admin/page.tsx:34-42 | The first state: all tab, empty search, page 1 of 1, loading, no login in flight, no rows, zero stats. |
| `AdminDashboard.Dashboard.SelectFilter` | src/app/admin/page.tsx:338 | The filter changes and the page returns to 1; nothing else changes. |
| `AdminDashboard.Dashboard.EditSearch` | src/app/admin/page.tsx:392 | The search changes and the page returns to 1; nothing else changes. |
| `AdminDashboard.Dashboard.PreviousPage` | src/app/admin/page.tsx:515 | The page becomes max(1, page - 1) and keeps `1 <= page <= totalPages` when it held. |
| `AdminDashboard.Dashboard.NextPage` | src/app/admin/page.tsx:522 | The page becomes min(totalPages, page + 1). It keeps `1 <= page <= totalPages` when it held, and then never moves back. |
| `AdminDashboard.Dashboard.FetchStarted` | src/app/admin/page.tsx:148 | A list request sets the loading flag. |
| `AdminDashboard.Dashboard.ListLoaded` | src/app/admin/page.tsx:160-175 | The rows (or none) are shown and the page count becomes `totalPages` or 1. The stats become the local tally. The page is left as it is. |
| `AdminDashboard.Dashboard.GlobalStatsLoaded` | src/app/admin/page.tsx:178-184 | A stats answer with a numeric total replaces the stats; otherwise they stay. |
| `AdminDashboard.Dashboard.FetchSettled` | src/app/admin/page.tsx:185-189 | A settled request clears the loading flag. |
| `AdminDashboard.Dashboard.LoginSubmitted` | src/app/admin/page.tsx:102-107 | A submit while a login is in flight does nothing. Otherwise it raises the flag and clears the old error. |
| `AdminDashboard.Dashboard.LoginFinished` | src/app/admin/page.tsx:109-131 | The flag drops. A refusal leaves the server's error or "Login failed"; a network error leaves its own message. |
| `AdminDashboard.Dashboard.ListRequest` | src/app/admin/page.tsx:151 | The request carries the tab's filter, the search text, the page and page size 10, rendered in decimal. |
| `AdminDashboard.RequestReadBack` | src/app/admin/page.tsx:151 | The list route reads the dashboard's request back as sent: filter, search, page and page size 10. |
| `AdminDashboard.RouteTotalMeetsListLoaded` | src/app/admin/page.tsx:165 | For page size 10, the route's page count is present and non-negative, as `ListLoaded` expects, and shows as at least 1. |
| `AdminDashboard.StalePageScenario` | src/app/admin/page.tsx:160-165 | Three pages shrinking to two leave the dashboard on page 3 of 2 with the pagination bar shown, and Next then moves back to page 2. |

## Left out

- Browser host APIs are not modelled: `fetch` of the manifest, image decoding, `requestAnimationFrame`, `IntersectionObserver`, `setTimeout` and `getBoundingClientRect`. Each callback is an event method instead. Rendering is modelled only as the displayed frame and the style values.
- Doubles are exact reals. Rounding does not change the outcome that matters here: in doubles the smoothing step stops a few units in the last place short of the target, and under exact reals it never reaches the target either, so in both the last frame is never shown (`ScrollProgress.LastFrameNeedsFullProgress`).
- `ScrollProgress.RawTarget`: the model uses the guarded target. At zero distance the code gives NaN with the top at 0 (see Findings) and 1 with the top above the viewport top, where the guarded target gives 0. The guarded target also treats a negative distance (a wrapper shorter than the viewport) as no progress, where the code yields the clamped ratio. Both agree for every positive distance (`ScrollProgress.AsWrittenAgrees`); the code as written is `ScrollProgress.RawTargetAsWritten`.
- `HeroScrollFrames.Player.ManifestLoaded`: after unmount, React discards the code's `setManifest`. The model still records the manifest and `src`, but once unmounted nothing reads them: no tick is scheduled and nothing renders. Two fetches resolving for the same player (the development double mount) are not modelled; a player resolves its manifest once.
- `HeroScrollFrames.Player.Mount`: a mount after `Unmount` keeps the refs (progress, cache, sweep queue), as the development-mode double mount of React's StrictMode does. A production remount is a new component instance with fresh refs; the model expresses that as a new `Player`, not as a second `Mount`.
- Frame names are compared as opaque values. The cache is a set of names, not a dictionary of image elements. A name shadowing an `Object.prototype` property (such as "constructor") would read as cached in the code; the model does not capture this.
- `HeroScrollFrames.Player.Valid` does not state that every cached name is a manifest name. That holds but is left unstated.
- A missing image element at tick time (line 103) is folded into a missing wrapper. The comparison that skips writing an unchanged `src` (line 132) is not modelled: writing the same frame again changes nothing in the model.
- Image loads that fail never complete in the code (there is no `onerror`). The model has no failure event, so a failed sweep load leaves the sweep waiting, as in the code.
- Supabase queries and authentication are not modelled. Each route takes the database's answer as a parameter. The PostgREST parsing of filter strings, `ilike` matching and row ordering belong to that parameter.
- The rate limiter's configuration is not modelled. A limiter call that throws (giving 500) is not modelled either.
- SHA-256, the WHATWG URL parser, `toLocaleDateString`, the clock, `normalizeEthereumAddress` and `isValidTwitterHandle` are parameters. Their sources are not part of this model.
- JSON field values that are not strings (numbers, objects, `null` in a field) are not modelled; the code would throw on `.trim()` and answer 500. The `None` body is one that does not parse or is `null`: reading a property of it throws, giving 500. Any other body that is not an object (a number, a string, an array) reads as absent fields and gets 400, which the model gives through a body whose fields are all absent.
- Strings are sequences of Unicode scalar values. JavaScript lengths and `slice` count UTF-16 units, so results differ for characters outside the Basic Multilingual Plane. `toLowerCase` is modelled for ASCII letters only.
- `AdminDashboard.Dashboard.ListRequest`: gives the parameters the route receives. It assumes the search text needs no URL encoding; the code interpolates it unescaped.
- `AdminDashboard.Dashboard.ListLoaded`: requires a page count that is absent or non-negative. With page size 10 the list route always sends one (`AdminDashboard.RouteTotalMeetsListLoaded`).
- The dashboard's session and admin checks, logout, status updates, note editing, CSV download and the effect that refetches on filter, page or search changes are outside the modelled core. The effect's refetch is the caller's `FetchStarted`/`ListLoaded` sequence.
- Response headers other than the export file name (content type, cache control) are not modelled.

## Where the intended behaviour or the tests disagree with the code

The model follows the code in each case below.

- The component is meant to request a frame missing from the cache and show nothing new until it is ready. The code points the image at the missing frame at once (`src/components/HeroScrollFrames.tsx:128-134`). `HeroScrollFrames.Player.ShowFrame` states this: `src` becomes the new frame whether or not it is cached.
- The component is meant to deduplicate in-flight requests. The window burst checks only the cache (`src/components/HeroScrollFrames.tsx:79`). A frame whose sweep or burst load is still in flight is requested again. `HeroScrollFrames.WindowRequestsExact` states exactly which names a burst requests.
- A container exactly one viewport tall is meant to give progress 0. The code gives NaN when its top is at 0 (see Findings), 1 when its top is above the viewport top and 0 when it is below (`ScrollProgress.RawTargetAsWritten`). The model's guarded target gives 0 in all three cases.
- The hero's opacity and filter are meant to follow the progress on every tick. The code computes them from `currentProgress.current` only when React renders (`src/components/HeroScrollFrames.tsx:149-153`). A tick writes refs, and writing a ref causes no render, so the style keeps the value of the last render: at mount, when the manifest arrives, or when visibility changes. `ScrollProgress.Opacity`, `ScrollProgress.Brightness` and `ScrollProgress.Saturation` give the value computed at a render.
- The intended halfway scenario expects frame 1 after enough ticks. Under exact arithmetic the smoothed progress stays below the target 0.5, so it stays on frame 0 (`ScrollProgress.HalfwayScenario`).
- `src/lib/utils.test.ts:12-13` expects 40-digit addresses to be valid, and line 17 expects one without "0x" to be valid. The pattern at `src/lib/utils.ts:13` asks for 42 digits, so all three are rejected (`Utils.FortyDigitAddressRejected`, `Utils.AddressVectors`).
- `src/lib/utils.test.ts:50` and `:52` expect a profile URL and a non-numeric status URL to be rejected. The rule at `src/lib/utils.ts:16-28` accepts any path longer than "/" on the four hosts (`Utils.TwitterUrlVectors`).

## Findings

| source | as written | input that shows it | evidently intended | confidence | as-written member | corrected member |
|---|---|---|---|---|---|---|
| src/components/HeroScrollFrames.tsx:107-110 | the target divides by `rect.height - innerHeight` with no guard | a wrapper exactly one viewport tall with its top at 0: 0 / 0 is NaN, so the target and then the smoothed progress are NaN for good | a progress in [0, 1]; 0 when there is nothing to scroll | not executed | `ScrollProgress.RawTargetAsWritten`, `ScrollProgress.ZeroDistanceGivesNaN` | `ScrollProgress.RawTarget` |
