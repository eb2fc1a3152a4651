# Contwre landing site: attribution, questionnaire, service worker and build naming

A Dafny model of the client-side logic of a marketing site, with proofs of its
properties. The site is a single-page React application. The model covers six parts:

- **Attribution capture** (`UtmTracker`, `utm_tracker.dfy`).
  - Reads the five `utm_*` campaign parameters and a fallback `source` (from `source`, `ref` or `referrer`) out of the landing URL's query.
  - Adds the referrer (`'direct'` when there is none), the landing page, a time stamp, the device facts and a first-visit flag.
  - Keeps the resulting record in the tab's session storage under `contwre_tracking`, next to a `contwre_visited` flag.
  - The storage is a class whose two fields are those two keys. Reading and writing them are methods.
- **Qualifying questionnaire** (`QualifyingFlow`, `qualifying_flow.dfy`).
  - Four multiple-choice questions, then a booking view.
  - A click records the answer and starts a 300 ms timer. The timer moves the step on from the step it captured when it was started.
  - The model keeps the started-but-not-fired timers as a queue, oldest first. Firing one is its own step.
  - The class invariant ties the set of answered questions to the step and to that queue.
- **Service worker** (`ServiceWorker`, `service_worker.dfy`).
  - Routes every request by its pathname: scripts and stylesheets go to the network; pages and images are served cache-first; everything else goes to the network.
  - Maintains the worker's cache storage. Install pre-caches four critical assets. Activate deletes every cache but `contwre-v4`. A cache-first miss on an image is written back into that cache.
- **Testimonial carousel** (`Carousel`, `carousel.dfy`). Next, previous and the five-second auto-advance move one step over six testimonials, with wrap-around. A dot jumps straight to its own testimonial.
- **FAQ accordion** (`Faq`, `faq.dfy`). One index says which of the five questions is expanded; `-1` means none is.
- **Build naming** (`BuildConfig`, `build_config.dfy`). The bundler's `manualChunks` and `assetFileNames` callbacks are first-match chains of string tests.
- **Shared string tests** (`Strings`, `strings.dfy`).
  - `endsWith` and `includes`.
  - The case-insensitive `/\.(a|b|…)$/i` extension test, which is proved to depend only on the text after the last dot, lower-cased.

Two consequences of the code are worth stating on their own:

- **Answers versus step.** While a timer started at the current step is pending, the answers map holds one more entry than the step; the first such timer to fire closes the gap, and otherwise the map holds exactly as many entries as the step (`QualifyingFlow.AnsweredCount`, and the scenario `QualifyingFlow.QuickDoubleClick`).
- **When the record is written.** The stored record is replaced whenever the extracted parameters are non-empty, and a fallback `source`, `ref` or `referrer` counts. So a later load whose query yields only a fallback overwrites a stored campaign record and drops its `utm_source` (`UtmTracker.RefLinkOverwrites`).

## Model

| member | source | states |
|---|---|---|
| `UtmTracker.Get` | src/utils/utmTracker.js:10 | `urlParams.get` finds a value exactly when some pair has that name |
| `UtmTracker.GetIsFirstMatch` | src/utils/utmTracker.js:10 | `get` returns the value of the first pair with that name, and no other |
| `UtmTracker.GetUTMParameters` | src/utils/utmTracker.js:2-26 | the two key loops build exactly the declarative extraction `Extracted` |
| `UtmTracker.CopyCampaignKeys` | src/utils/utmTracker.js:9-14 | the first loop copies exactly the campaign keys that have a non-empty value |
| `UtmTracker.AddFallbackSource` | src/utils/utmTracker.js:17-23 | the second loop adds the last non-empty fallback value as `source`, and only when the map lacks `utm_source` |
| `UtmTracker.ExtractedFields` | src/utils/utmTracker.js:7-14 | only the five utm keys and `source` appear; every value is non-empty; a utm key appears iff the query gives it a non-empty value, with the first occurrence's value |
| `UtmTracker.FallbackTruthy` | src/utils/utmTracker.js:18-23 | the fallback exists iff some fallback key has a non-empty value, and it is never empty |
| `UtmTracker.SourceOnlyWithoutUtmSource` | src/utils/utmTracker.js:17-23 | the result never holds both `utm_source` and `source`; `source` appears iff `utm_source` is missing or empty and one of `source`/`ref`/`referrer` is non-empty |
| `UtmTracker.FallbackPrecedence` | src/utils/utmTracker.js:17-22 | without `utm_source`, the last non-empty of `source`, `ref`, `referrer` wins (`referrer` over `ref` over `source`) |
| `UtmTracker.RefOnly` | src/utils/utmTracker.js:17-23 | a query holding only `ref=v` yields exactly `{source: v}` |
| `UtmTracker.Referrer` | src/utils/utmTracker.js:30 | never empty: the document referrer when there is one, otherwise `'direct'` |
| `UtmTracker.Snapshot` | src/utils/utmTracker.js:51-56 | the record always names a referrer; its attribution part holds only campaign keys and `source`, every value non-empty, never `source` beside `utm_source`; `firstVisit` holds iff the visited flag is missing or empty |
| `UtmTracker.SessionStorage.StoreTrackingData` | src/utils/utmTracker.js:46-65 | returns the snapshot; writes record and visited flag iff the extraction is non-empty or no record is stored, else changes nothing; afterwards a record is always stored and the flag is set with it |
| `UtmTracker.SessionStorage.GetStoredTrackingData` | src/utils/utmTracker.js:67-75 | returns a stored record without writing; with none stored, behaves as `StoreTrackingData` |
| `UtmTracker.PageLoads` | src/utils/utmTracker.js:55-62 | over any sequence of page loads in one tab, only the first record is a first visit |
| `UtmTracker.CampaignPersists` | src/utils/utmTracker.js:59-62 | after a campaign landing and an internal navigation whose query yields nothing, the stored record is still the landing's, with its `utm_source` |
| `UtmTracker.RefLinkOverwrites` | src/utils/utmTracker.js:59-62 | a later load with only `ref=v` replaces the stored record with one holding `source: v` and no `utm_source` |
| `UtmTracker.ReadTwice` | src/utils/utmTracker.js:67-75 | two reads of the stored record give the same record, the first visit's snapshot |
| `QualifyingFlow.IdsDistinct` | src/components/QualifyingModal.jsx:8-51 | the four answer keys are pairwise different |
| `QualifyingFlow.IdsCount` | src/components/QualifyingModal.jsx:8-51 | there are exactly as many answer keys as questions |
| `QualifyingFlow.PrefixIdsCount` | src/components/QualifyingModal.jsx:8-51 | the first `b` questions have `b` different answer keys |
| `QualifyingFlow.AnsweredCount` | src/components/QualifyingModal.jsx:53-63 | in every reachable state the number of answers is the step, plus one while the timer of an answer to the current question is pending |
| `QualifyingFlow.Advance` | src/components/QualifyingModal.jsx:56-61 | a timer started at a question step sets the next step, which is the booking step after the last question; it never passes the booking step |
| `QualifyingFlow.Modal.constructor` | src/components/QualifyingModal.jsx:5-6 | step 0, no answers, no timer running |
| `QualifyingFlow.Modal.Render` | src/components/QualifyingModal.jsx:71-167 | nothing iff closed; the question view iff open with step below four, showing the question at index `currentStep`, labelled "Question `currentStep + 1` of four"; the booking view iff open from step four on |
| `QualifyingFlow.Modal.HandleAnswer` | src/components/QualifyingModal.jsx:53-63 | records the option under the current question's key, keeps the step, queues a timer that captured the step, keeps the invariant, and highlights the chosen option |
| `QualifyingFlow.Modal.FireTimer` | src/components/QualifyingModal.jsx:55-62 | the oldest timer sets the step from its captured step; the step never goes back and moves at most one; answers unchanged; invariant kept |
| `QualifyingFlow.Modal.HandleComplete` | src/components/QualifyingModal.jsx:65-69 | calls `onSubmit` with the answers, then `onClose`; at the booking step every question has an answer among its options and nothing else is submitted |
| `QualifyingFlow.Modal.Dismiss` | src/components/QualifyingModal.jsx:81-94 | the backdrop and close button only call `onClose`; step and answers are kept |
| `QualifyingFlow.QuickDoubleClick` | src/components/QualifyingModal.jsx:53-63 | two quick answers to the first question keep the second, leave one more answer than the step until the timers fire, and then advance one step, not two |
| `QualifyingFlow.AnswerAll` | src/components/QualifyingModal.jsx:53-69 | answering every question in turn reaches the booking view, and completing submits exactly the chosen answer per question, four in all |
| `ServiceWorker.Classify` | public/sw.js:40-66 | network-only iff the path ends in `.js` or `.css`; cache-first iff not that and it is `.html`, `/`, or has an image/media extension (any case); otherwise network-only |
| `ServiceWorker.AssetsClauseSubsumed` | public/sw.js:40 | the `/assets/` clause of the module test adds nothing |
| `ServiceWorker.Remove` | public/sw.js:25-27 | deleting a cache name removes exactly that name and keeps the names distinct |
| `ServiceWorker.MatchIn` | public/sw.js:48 | `caches.match` misses iff no cache holds the path, else returns the entry of the first cache in creation order that does |
| `ServiceWorker.MatchOnlyCache` | public/sw.js:48 | with a single cache, matching is a lookup in it |
| `ServiceWorker.CacheStorage.Match` | public/sw.js:48 | misses iff no cache holds the path |
| `ServiceWorker.CacheStorage.Open` | public/sw.js:13 | opening creates the named cache, empty and last in order, only when it is missing |
| `ServiceWorker.CacheStorage.Delete` | public/sw.js:26 | removes exactly the named cache |
| `ServiceWorker.CacheStorage.Install` | public/sw.js:11-17 | the current cache exists afterwards; the four assets, each with its fetched response, are added iff every fetch is ok and none is a 206, otherwise nothing is added; creation order keeps every existing cache in place and appends the current one only when it was missing; other caches untouched |
| `ServiceWorker.CacheStorage.Activate` | public/sw.js:20-32 | afterwards only the current cache remains, with its contents unchanged |
| `ServiceWorker.CacheStorage.DeleteAllBut` | public/sw.js:21-27 | deleting every listed name but one leaves exactly that cache, if it existed, with its contents |
| `ServiceWorker.CacheStorage.HandleFetch` | public/sw.js:35-67 | network for non-cache-first routes; a cache hit is served without the network; a miss is fetched; only an image/media miss with a non-failed, non-206 response is written into the current cache, which is appended to the creation order only when that write creates it, and nothing else changes |
| `ServiceWorker.MediaBySuffix` | public/sw.js:46 | a path ending in a listed lower-case extension passes the image/media test |
| `ServiceWorker.MediaIsCacheFirst` | public/sw.js:40-46 | every path that passes the image/media test is cache-first: no listed extension is `js` or `css` |
| `ServiceWorker.MediaSuffixIsCacheFirst` | public/sw.js:40-46 | a path ending in a listed lower-case extension is cache-first |
| `ServiceWorker.RootIsCacheFirst` | public/sw.js:4 | `/` is cache-first |
| `ServiceWorker.LogoIsCacheFirst` | public/sw.js:5 | the logo is cache-first |
| `ServiceWorker.EngineIsCacheFirst` | public/sw.js:6 | the engine animation is cache-first |
| `ServiceWorker.FounderIsCacheFirst` | public/sw.js:7 | the founder photo is cache-first |
| `ServiceWorker.CriticalAssetsAreCacheFirst` | public/sw.js:3-8 | every pre-cached asset is served by the cache-first branch |
| `ServiceWorker.ServeAfterInstall` | public/sw.js:11-61 | install in a fresh origin succeeds iff every critical asset fetches ok and none is a 206; then, after activate, a critical asset is served from the cache without the network; otherwise the discarded worker handles nothing and the asset is fetched |
| `Carousel.NextIndex` | src/components/Results.jsx:94-96 | stays in range; moves one on, and from the last back to the first |
| `Carousel.PrevIndex` | src/components/Results.jsx:98-100 | stays in range; moves one back, and from the first to the last |
| `Carousel.NextPrevInverse` | src/components/Results.jsx:94-100 | next and previous undo each other |
| `Carousel.Advance` | src/components/Results.jsx:86-92 | any number of ticks stays in range |
| `Carousel.AdvanceIsModular` | src/components/Results.jsx:86-92 | `k` ticks from `i` show testimonial `(i + k) mod 6` |
| `Carousel.FullRound` | src/components/Results.jsx:86-92 | six ticks return to the start and no fewer do |
| `Carousel.Slider.constructor` | src/components/Results.jsx:6 | the carousel starts on the first testimonial |
| `Carousel.Slider.Shown` | src/components/Results.jsx:208-274 | the rendered testimonial is always one of the list |
| `Carousel.Slider.Next` | src/components/Results.jsx:94-96 | sets the next index, keeping it in range |
| `Carousel.Slider.Tick` | src/components/Results.jsx:86-92 | the interval makes the same move as next |
| `Carousel.Slider.Prev` | src/components/Results.jsx:98-100 | sets the previous index, keeping it in range |
| `Carousel.Slider.SelectDot` | src/components/Results.jsx:301-306 | clicking a dot shows that testimonial and highlights that dot alone |
| `Carousel.RunTicks` | src/components/Results.jsx:86-100 | a fresh carousel after `t` ticks shows `t mod 6`, and previous then next returns there |
| `Faq.Toggled` | src/components/FAQ.jsx:127 | clicking collapses all iff the clicked item was open; otherwise opens the clicked item |
| `Faq.DoubleToggle` | src/components/FAQ.jsx:127 | two clicks on one item restore the state iff that item or nothing was open; otherwise they leave all collapsed |
| `Faq.Accordion.constructor` | src/components/FAQ.jsx:5 | the first question starts expanded |
| `Faq.Accordion.Toggle` | src/components/FAQ.jsx:127-128 | the clicked item flips between expanded and collapsed, and no other item is expanded afterwards |
| `Faq.AtMostOneExpanded` | src/components/FAQ.jsx:128 | at most one item is expanded |
| `Faq.ClickAll` | src/components/FAQ.jsx:114-128 | after any clicks the index names an item or is -1, and an expanded item is the last one clicked |
| `BuildConfig.ManualChunks` | vite.config.js:19-40 | a chunk is named iff the id is a dependency or one of the three large sections; otherwise the bundler decides |
| `BuildConfig.AppChunks` | vite.config.js:36-39 | outside dependencies, `results`, `services`, `comparison` are chosen by their first matching section name |
| `BuildConfig.DependencyChunks` | vite.config.js:21-35 | every dependency gets a chunk: `react-core` iff the id mentions `react`, then `animations` for `framer-motion`, else `vendor` |
| `BuildConfig.UnreachableChunks` | vite.config.js:28-33 | no id is ever put into `three-js` or `routing` |
| `BuildConfig.ManualChunksCorrected` | vite.config.js:19-40 | the corrected callback names a chunk for the same ids as the original |
| `BuildConfig.CorrectedDependencyChunks` | vite.config.js:21-35 | in the corrected callback `three-js` is chosen iff `@react-three`, `routing` iff `react-router` (without `@react-three`), and `react-core` for the remaining `react` ids |
| `BuildConfig.CorrectedAgreesElsewhere` | vite.config.js:19-40 | the correction changes nothing for ids mentioning neither `@react-three` nor `react-router` |
| `BuildConfig.AssetFileNames` | vite.config.js:41-54 | every output template lies under `assets/` and ends in `[name]-[hash][extname]` |
| `BuildConfig.AssetRoutes` | vite.config.js:44-53 | `css` iff the name ends in `.css` (case-sensitive); `images`, `media` and the default by first match of the case-insensitive extension tests |
| `BuildConfig.AssetRoutesByExtension` | vite.config.js:47-52 | the image and media routes depend only on the lower-cased text after the last dot |
| `BuildConfig.NoExtensionMatch` | vite.config.js:47-53 | a name whose lower-cased extension is listed nowhere gets the default template |
| `BuildConfig.UnlistedExtensionGetsDefault` | vite.config.js:47-53 | a name ending in an unlisted lower-case extension, in any case, gets the default template |
| `BuildConfig.ModernImagesGetDefault` | vite.config.js:47-53 | `.webp` and `.avif` assets, in any case, get the default template, not `images` |
| `BuildConfig.UpperCaseCssGetsDefault` | vite.config.js:44-53 | an upper-case `.CSS` name gets the default template |
| `Strings.ExtensionTest` | vite.config.js:47 | a case-insensitive extension pattern passes iff the lower-cased text after the last dot is one of its alternatives |

## Left out

- The parsing and percent-decoding of `location.search` into name-value pairs. The query is given already split.
- The browser environment is not modelled; it enters as parameters: the page URL, `document.referrer`, the ISO time stamp and the device facts of `getDeviceInfo`.
- JSON serialisation of the tracking record. The storage keeps the record itself. A serialised record is never the empty string, so "a record is stored" is the truthiness test the code makes.
- Session storage keys other than `contwre_tracking` and `contwre_visited`, and writes by other code, which could leave the visited flag empty or different from `'true'`.
- Timers and intervals are discrete steps that the host takes: `FireTimer` and `Tick`. Nothing models their 300 ms and 5000 ms delays, or unmounting while a timer is pending.
- The modal's `isOpen` and `email` props only matter for rendering. The parent that passes them and receives `onSubmit`/`onClose` is not part of this model.
- The booking iframe, animations, progress-bar width (a floating-point percentage), styling and copy.
- Service worker: promise ordering is not modelled. Each handler is taken to run to completion before the next event, including the un-awaited `cache.put`.
- Service worker: `skipWaiting` and `clients.claim` are left out, as they change which pages the worker controls and not the caches.
- Service worker: `cache.put` refuses a 206 response, and that case is modelled. Its other refusals (non-GET requests, `Vary: *`) are not.
- `ServiceWorker.CacheStorage.Install`: `addAll` also rejects a response carrying `Vary: *`; responses have no headers here, so that refusal is not modelled. The rest of the worker lifecycle (waiting, replacing an older worker, update checks) is not modelled either; `ServeAfterInstall` covers only a first install, where a failed install leaves no worker.
- Requests and cache entries are identified by pathname. Query strings, origins and request methods are ignored.
- `assetFileNames` when `assetInfo.name` is undefined, where the `split` at vite.config.js:42 would throw. The local `ext` computed at vite.config.js:42-43 is never used and is not modelled.
- The rest of the bundler configuration (vite.config.js outside the two callbacks), and the visual parts of `Results.jsx` and `FAQ.jsx` (statistics, counters, particle animations).
- `QualifyingFlow.Modal.HandleAnswer` is only called with an option of the current question. That is what the option buttons can pass; the handler itself does not check.

## Findings

| source | as written | input that shows it | evidently intended | confidence | as-written member | corrected member |
|---|---|---|---|---|---|---|
| vite.config.js:22-33 | `id.includes('react')` is tested before `@react-three` and `react-router`; both names contain `react`, so those ids go to `react-core` | any id containing `node_modules/@react-three/fiber` or `node_modules/react-router` | `@react-three` packages in `three-js`, `react-router` in `routing` | high; not executed | `BuildConfig.UnreachableChunks` | `BuildConfig.CorrectedDependencyChunks` |
