# Thermal detector core, modelled in Dafny

This project models the decision logic of a Raspberry Pi thermal-camera
watcher. Each frame from the camera is turned into a JET heat map. Its red
plane gives two binary masks: persons at an adaptive threshold (the 30th
percentile of the plane) and fire at an absolute threshold. The contours of
each mask are filtered by area and, for persons, by aspect ratio. Every kept
contour is drawn on a copy of the heat map and, in two of the entry points,
raises a Telegram alert. The alert goes to up to two channels (high and low
quality), each throttled per detection type by a cooldown.

The files:

- `imaging.dfy` (`Imaging`): frames, rectangles, contours, marks and
  pictures. The vision library's primitives (colour map, channel split,
  morphology and contour search) are a `Vision` value of pure functions.
- `config.dfy` (`Config`): the configured constants.
- `percentile.dfy` (`Percentile`): the nearest-rank percentile. It sorts
  a copy of the samples and returns the element at index `floor(p*N/100)`.
  The result is characterised by how many samples lie below it.
- `classifier.dfy` (`Classifier`):
  - the fire and person gates;
  - the detection loops, which draw on a shared output image (`Canvas`)
    in place;
  - `processFrame`.
- `sampler.dfy` (`Sampler`): the main loop. It skips empty reads, counts
  frames, writes raw or processed frames, and stops and releases both
  resources on an exception. One `Session` class covers the three entry
  points, which differ only in whether they send alerts.
- `telegram.dfy` (`Telegram`): the throttle and dual-channel dispatcher.
  It is a `Dispatcher` class whose state is tied to a pure `Throttle`
  value.
- `timestamp.dfy` (`Timestamp`): the video and temporary-photo file-name
  stamps, derived from the ISO 8601 string of the current instant.

Parts of the core are written out more than once:

- `percentile` is defined in `src/camara.ts` (100-104), `src/controlador.ts`
  (100-104), `src/thermal-detector.ts` (66-70) and the compiled
  `dist/thermal-detector.js` (97-101). `src/detector-termico.ts` imports it,
  and `src/camara-termica.ts` receives it as the `percentileFn` parameter.
- The gates and detection loops are in `src/camara-termica.ts` (16-82),
  inline in `src/detector-termico.ts` (137-199), `src/thermal-detector.ts`
  (146-195) and `dist/thermal-detector.js` (156-179).
- processFrame is `src/camara-termica.ts` (94-137), which
  `src/controlador.ts` calls. The same pipeline is inline in
  `src/detector-termico.ts` (81-115), `src/thermal-detector.ts` (124-197)
  and `dist/thermal-detector.js` (140-180).
- The main loop is in `src/controlador.ts` (206-249),
  `src/detector-termico.ts` (64-129), `src/thermal-detector.ts` (107-210)
  and `dist/thermal-detector.js` (127-191).
- The file-name stamps are in `src/camara.ts` (146-156) and
  `src/controlador.ts` (146-148), inline in `src/thermal-detector.ts` (95)
  and `dist/thermal-detector.js` (119), and in `src/telegram.ts` (119).

The copies behave the same, and one model covers all of them. A row whose
member covers several copies cites one and names the others.

Three behaviours of the code are worth stating plainly, because a reader
might expect otherwise:

- `percentile` neither clamps its index to `[0, N-1]` nor rejects empty
  input: for `N = 0` or `p = 100` it indexes past the end. The model makes
  the index range a precondition (`Percentile.InRange`).
- The masks use OpenCV's `THRESH_BINARY`, which sets a pixel only when it
  is strictly above the threshold, not at or above it. So a uniform plane
  gives an empty person mask, not one blob
  (`Classifier.UniformPlaneGivesEmptyPersonMask`).
- `percentile([x], p) == x` holds for every p in [0, 100). It does not
  hold for p = 100 or for p in (-100, 0): the index is then 1 or -1, out
  of range (`Percentile.PercentileOfSingleton`, `Percentile.InRangeExactly`).

## Model

| member | source | states |
|---|---|---|
| Percentile.Sort | src/camara.ts:101 | the copy of `slice().sort((a, b) => a - b)`, built by insertion; it has the samples' length (its order and content are stated by SortSpec) |
| Percentile.SortSpec | src/camara.ts:101 | the copy is sorted ascending and is a permutation of the samples |
| Percentile.Percentile | src/camara.ts:100-104 | for an in-range index the result is one of the samples; at most `floor(p*N/100)` samples are strictly below it, and more than that many are at or below it. The copies at src/controlador.ts:100-104, src/thermal-detector.ts:66-70, dist/thermal-detector.js:97-101 are modelled by the same member |
| Percentile.SortPreservesCount | src/camara.ts:101 | sorting does not change how many samples lie below any value |
| Percentile.RankDeterminesValue | src/camara.ts:101-103 | the rank condition has exactly one solution, so any ascending sort gives the same percentile |
| Percentile.PercentileMonotone | src/camara.ts:102-103 | p1 <= p2 with both indices in range gives result(p1) <= result(p2) |
| Percentile.PercentileZeroIsMinimum | src/camara.ts:101-103 | p = 0 is in range for any non-empty input and yields the minimum |
| Percentile.InRangeExactly | src/camara.ts:102-103 | every p in [0, 100) is in range for N > 0; p = 100, every negative p, and N = 0 are out of range, so the index is neither clamped nor rejected |
| Percentile.PercentileOfSingleton | src/camara.ts:100-104 | one sample is its own percentile for every p in [0, 100) |
| Classifier.FireGate | src/camara-termica.ts:20-21 | defined as `area >= minArea`: the fire loop skips a contour only when `area < minArea`, with no upper bound and no shape test |
| Classifier.PersonGate | src/camara-termica.ts:56-61 | defined as `minArea <= area <= maxArea` and `height / (width + 1e-6) >= 0.7`: the person loop skips a contour below or above the area bounds or with aspect below 0.7 |
| Classifier.SelectedSpec | src/camara-termica.ts:19-21 | a contour is kept iff it is in the input and passes the kind's gate (order and multiplicity are stated by SelectedAppend) |
| Classifier.SelectedAppend | src/camara-termica.ts:19-21 | selection goes contour by contour: one contour is kept exactly when it passes the gate, and selecting from a concatenation concatenates the selections, so kept contours keep their order and multiplicity |
| Classifier.ThreshBinary | src/camara-termica.ts:116-117 | defined as the mask with one flag per pixel of the plane, set exactly when the pixel is strictly above the threshold |
| Classifier.AspectGateIsIntegral | src/camara-termica.ts:60-61 | for whole-pixel sides `height/(width+1e-6) >= 0.7` holds iff `10*height > 7*width`, so an aspect of exactly 0.7 fails |
| Classifier.GateBoundaries | src/camara-termica.ts:55-61 | person area bounds are inclusive (49 and 30001 rejected; 50 and 30000 kept); 20x10 passes the aspect test, while 10x20 and 7x10 fail; fire has no ceiling (area 1000000 kept) |
| Classifier.Canvas.Copy | src/camara-termica.ts:128 | the output starts as the heat map with no marks |
| Classifier.Canvas.DrawBox | src/camara-termica.ts:23-37 | drawing appends one mark of the contour's kind and box, whose text and colour are Label(kind) and Colour(kind), and leaves the image base unchanged |
| Imaging.StyleIdentifiesKind | src/camara-termica.ts:23-37 | the two kinds are drawn with different labels ("Incendio", "Persona") and different colours (red, green), so a mark's kind fixes what is drawn and vice versa |
| Classifier.Detect | src/camara-termica.ts:16-82 | after the loop, `out` holds its earlier marks followed by one mark per kept contour in order; the alerts are one per kept contour, the i-th carrying the output as it is right after the i-th box. The copies at src/detector-termico.ts:137-199, src/thermal-detector.ts:146-195, dist/thermal-detector.js:156-179 are modelled by the same member; the last two run with alerting off, so their alert list is empty |
| Classifier.ProcessFrame | src/camara-termica.ts:94-137 | returns a fresh picture: the heat map, then all fire marks, then all person marks; the person threshold is the percentile of the red plane; the alerts are the fire loop's followed by the person loop's. The copies at src/detector-termico.ts:81-115, src/thermal-detector.ts:124-197, dist/thermal-detector.js:140-180 are modelled by the same member; the standalone copies raise no alerts |
| Classifier.AlertSnapshotsArePrefixes | src/camara-termica.ts:24-41 | a processed frame has one alert per mark; alert i carries the heat map with exactly the first i+1 marks, the last of them its own |
| Classifier.FireAlertsFirst | src/camara-termica.ts:130-134 | there is one alert per kept contour, and no fire alert follows a person alert |
| Classifier.FireNeverDetectedAsWritten | src/camara-termica.ts:117 | at the configured fire threshold of 255, THRESH_BINARY sets no pixel of an 8-bit plane, so no fire contour is kept |
| Classifier.FireMaskAtIntendedThreshold | src/camara.ts:12 | with threshold 254 the mask sets exactly the pixels at 255 |
| Classifier.FireDetectedAtIntendedThreshold | src/camara-termica.ts:117 | with the corrected threshold the fire loop keeps the fire contours of the maximum-intensity mask |
| Classifier.UniformPlaneGivesEmptyPersonMask | src/camara-termica.ts:112-116 | on a uniform plane the person threshold is that value and the strict person mask is empty |
| Sampler.StopSpec | src/controlador.ts:241-244 | no read before the stopping point raises, and the read at it does: the loop consumes reads up to the first exception and no further |
| Sampler.FramesAppend | src/controlador.ts:208-213 | the frames counted are the captured reads, in order: a single read gives its frame when it is a capture and nothing otherwise, and the frames of a concatenation of reads are the concatenation of their frames |
| Sampler.Session.Open | src/controlador.ts:203 | the loop starts with count 0, nothing written, and both resources open |
| Sampler.Session.Step | src/controlador.ts:207-244 | an empty read changes nothing; a captured frame adds one to the count and causes one write, raw when the count is not a multiple of N; the step breaks exactly on an exception |
| Sampler.Session.Loop | src/controlador.ts:207-244 | the loop consumes exactly the reads before the first exception; for any processing step that agrees with processFrame on the frames read, the count, the writes and the alerts are those of each captured frame in turn; both resources stay open |
| Sampler.Session.Run | src/controlador.ts:206-249 | the count grows by the number of captured frames before the first exception; the writes and the alerts are those of each such frame in turn; afterwards capture and writer are released. The copies at src/detector-termico.ts:64-129, src/thermal-detector.ts:107-210, dist/thermal-detector.js:127-191 are modelled by the same member |
| Sampler.RecordingShape | src/controlador.ts:215-235 | one write per captured frame: the i-th is that frame, raw unless its count is a multiple of N |
| Sampler.EveryOtherFrameProcessed | src/controlador.ts:218-232 | with N = 2 from count 0, exactly the 2nd, 4th, 6th... frames are processed and the others written raw |
| Sampler.QuietLog | src/controlador.ts:218-232 | a processing step that raises nothing for any frame leaves the alert log empty, whatever the counter and N |
| Sampler.SilentEntryPointRaisesNothing | src/thermal-detector.ts:146-197 | the standalone detector raises no alert |
| Sampler.FramesSkipEmpty | src/controlador.ts:210-213 | an empty read contributes no frame, so it is neither counted nor written |
| Sampler.StopAtFirstRaise | src/controlador.ts:241-244 | nothing read after the first exception is consumed |
| Telegram.Stamps.Set | src/telegram.ts:109 | writes the type's time and leaves the other type's |
| Telegram.Record | src/telegram.ts:107-110 | updateLastAlert sets one (type, quality) cell to now; the other three cells and the configs are unchanged |
| Telegram.Branch | src/telegram.ts:155-172 | a channel that is not ready is skipped; one in cooldown sends nothing; otherwise it sends, and the time is recorded iff the photo was delivered |
| Telegram.Dispatch | src/telegram.ts:149-193 | each channel's outcome and last-sent times are those of its own branch alone; the configs are unchanged |
| Telegram.SavedSize | src/telegram.ts:123-130 | high quality keeps the frame's size; low quality halves both sides, rounded down |
| Telegram.Init | src/telegram.ts:52-86 | the state part of initTelegramBots: an accepted channel gets its config, a rejected one keeps what it had, and the last-sent times are untouched |
| Telegram.Ready | src/telegram.ts:155 | defined as the branch guard `bot && config && config.enabled`: the channel has a config and it is enabled |
| Telegram.CanSend | src/telegram.ts:91-102 | defined as canSendAlert: false without a config, otherwise `now - last >= cooldownSeconds * 1000` for that type and channel |
| Telegram.CanSendLater | src/telegram.ts:91-102 | canSendAlert refuses a channel without a config; once it allows a key it allows it at every later time while that key's time is unchanged; with a zero cooldown it allows any time not before the last send |
| Telegram.TempFileName | src/telegram.ts:119-120 | defined as `type_quality_stamp.jpg`, where the stamp is the temporary stamp that keeps its 'T' |
| Telegram.Dispatcher.constructor | src/telegram.ts:34-47 | no bot or config, and all four last-sent times are 0 |
| Telegram.Dispatcher.InitTelegramBots | src/telegram.ts:52-86 | the new state is the previous one with each accepted channel's config installed |
| Telegram.Dispatcher.UpdateLastAlert | src/telegram.ts:107-110 | the new state is Record of the old one |
| Telegram.Dispatcher.SendBranch | src/telegram.ts:155-172 | the new state and outcome are Branch of the old state |
| Telegram.Dispatcher.SendAlert | src/telegram.ts:198-243 | the new state and both outcomes are Dispatch of the old state, high quality first |
| Telegram.Dispatcher.SendMessage | src/telegram.ts:248-268 | each ready channel is tried and no other; it is never held by a cooldown, and no state changes |
| Telegram.InitialAllowsNothing | src/telegram.ts:39-47 | all four times start at 0, and without a config no channel is ready or may send |
| Telegram.InitGatesChannels | src/telegram.ts:54-65 | a channel is ready after init iff it is enabled, has a non-empty token and chat id, and the bot was built (or it was ready already); the times are untouched |
| Telegram.CooldownAfterSend | src/telegram.ts:91-101 | after a send recorded at doneAt, the same key may send again iff `now - doneAt >= cooldownSeconds*1000`, boundary included |
| Telegram.ThirtySecondCooldown | src/telegram.ts:92-101 | with a 30 s cooldown a success at T blocks T+10 s and T+29.999 s and allows T+30 s |
| Telegram.KeysIndependent | src/telegram.ts:107-110 | a branch for one (type, quality) key never changes whether another key is ready or may send |
| Telegram.FailureRetries | src/telegram.ts:157-168 | when neither channel delivers, the state is unchanged, so the next detection is checked against the same times |
| Telegram.SentSpacing | src/telegram.ts:91-110 | in any replay of one key's branches with a monotone clock, two sends are at least the cooldown apart, from the first one's update to the second one's check; runs that interleave other keys reduce to this by KeysIndependent |
| Telegram.ConfiguredFrameSizes | src/telegram.ts:123-126 | the configured 160x120 frame is saved as 80x60 in low quality and unchanged in high |
| Telegram.TempFileNamesDistinct | src/telegram.ts:119-121 | the four (type, quality) keys never share a temporary file name |
| Timestamp.Strip | src/camara.ts:147 | the result has no '-', ':' or '.' and is no longer than the input |
| Timestamp.Take | src/camara.ts:147 | `slice(0, n)` is the prefix of length min(n, length) |
| Timestamp.ReplaceFirst | src/camara.ts:147 | `.replace(c, d)` with a one-character string pattern; the length is kept |
| Timestamp.ReplaceFirstSpec | src/camara.ts:147 | only the first occurrence of the character is replaced, and a string without it is unchanged |
| Timestamp.TempTimestamp | src/telegram.ts:119 | the first min(15, length) characters of the ISO string once every '-', ':' and '.' is removed; it has no separator |
| Timestamp.GenerateTimestamp | src/camara.ts:146-148 | the temporary stamp with its first 'T', and no other character, turned into '_'; same length |
| Timestamp.VideoFileName | src/camara.ts:153-156 | the prefix, '_', the stamp and ".avi", in that order, 5 characters longer than prefix and stamp together |
| Timestamp.StampOfIso | src/camara.ts:146-148 | the stamp of an ISO string is YYYYMMDD, then '_', then HHMMSS; the temp stamp has 'T' in place of '_'. The copies at src/controlador.ts:146-148, src/thermal-detector.ts:95, dist/thermal-detector.js:119 are modelled by the same member |
| Timestamp.StampShape | src/camara.ts:153-156 | the stamp is 15 characters with '_' at position 8, digits elsewhere and no '-', ':' or '.'; the temp stamp has 'T' at position 8 |
| Timestamp.VideoFileNameShape | src/camara.ts:153-156 | the video file name is the prefix, '_', the 15-character stamp and ".avi", 20 characters longer than the prefix |
| Timestamp.StampRoundTrip | src/camara.ts:147 | reading the stamp back gives the instant's year, month, day, hour, minute and second |
| Timestamp.StampInjective | src/camara.ts:147 | two instants in different seconds get different stamps |

## Left out

- The vision library's primitives are function parameters (`Imaging.Vision`). Their results, the morphology and the contour order are not modelled. Pixel data is carried but not interpreted.
- These are outside the decision logic and are not part of this model:
  - camera discovery and set-up (`findUsbCamera`, `initCamera`, `testCamera`);
  - the VideoWriter and fourcc;
  - `deleteOldFiles`;
  - signal handlers and `process.exit`;
  - console logging;
  - `sendStartupMessage` and `sendShutdownMessage`, whose only decision is `sendMessage`'s, which is modelled.
- Telegram network calls, writing and deleting the temporary photo, and the Markdown captions are not modelled. Only whether the save and `sendPhoto` succeeded is modelled, as `Telegram.Attempt.delivered`.
- Bot construction is modelled as a boolean parameter (`built`), not as an error.
- `Date.now()` and `new Date()` are parameters: `Attempt.checkAt`, `Attempt.doneAt` and `Timestamp.Instant`.
- The endless `while (true)` loop is modelled as a finite sequence of reads.
- Async scheduling is modelled as sequential steps. Concurrent dispatches racing on one key are not modelled.
- Sampler.Annotator, Sampler.Alerter: as functions of the frame they give the raw frame and no alerts for a frame whose percentile index is out of range. processFrame is never called on such a frame, because Run requires every captured frame to be processable.
- Sampler.Session.Step: an exception is modelled only at the read, before anything is counted or written. An exception thrown inside processFrame would have already counted the frame; that is not modelled.
- Floating point is replaced by exact arithmetic:
  - the percentile index `floor((p/100)*N)` is computed as `(p*N)/100`;
  - the aspect ratio uses exact reals with epsilon 1/1000000;
  - contour areas are exact reals.
- Telegram.SavedSize: the low-quality size is rounded down. OpenCV is passed `rows/2` unrounded, and odd sizes are not examined.
- Timestamp.StampOfIso: covers only instants with four-digit years. `toISOString`'s six-digit years with a sign are not modelled.
- `cooldownSeconds` is modelled as an integer, not a fractional number.
- `path.join` of the directory and the file name is not modelled; only the file name is.
- The `percentileFn` parameter of processFrame is fixed to the percentile every caller passes.
- The `frameCount % 100` progress log is left out, as it is output only.

## Findings

| source | as written | input that shows it | evidently intended | confidence | as-written member | corrected member |
|---|---|---|---|---|---|---|
| src/camara-termica.ts:117 | `red.threshold(255, 255, THRESH_BINARY)` sets a pixel only when it is strictly above 255. On the 8-bit red plane this never happens, so fire is never drawn or alerted. The same call appears at src/detector-termico.ts:95, src/thermal-detector.ts:134 and dist/thermal-detector.js:147. | any frame, for example one whose red plane has every pixel at 255 | fire is the maximum-intensity pixels (value 255), i.e. a threshold of 254 | not executed | Classifier.FireNeverDetectedAsWritten | Classifier.FireDetectedAtIntendedThreshold |
