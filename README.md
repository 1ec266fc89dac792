# noodlesandwich.com: the site's event logic, in Dafny

The site is a personal page that lists talks and workshops from one catalog
(`database.yaml`). The catalog is used in three ways:

- it is compiled into static pages by the gulp build;
- it is served dynamically by a Koa server;
- it is listed in the browser by the home page's script.

This project models the logic underneath those three, and the memoising cache the server renders through:

- `wrappers.dfy`: `Option` and `Result`.
- `events.dfy` (module `Events`): the catalog record, JavaScript truthiness of optional strings, template interpolation of absent values, and `filter`/`find` over event lists with their exact contracts.
- `catalog.dfy` (module `Catalog`): `parseDates`, the normalisation of both lists in `loadDatabase`, and the split of each list into upcoming and previous events around the start of the day.
- `memo_cache.dfy` (module `MemoCache`): the cache of `src/cache.js`. It is a class with the Map, the miss log and a ghost record of behaviour runs. Each call is proved to be one step of a pure state machine (`Step`/`Run`), and the hit, miss, null, failure and disabled rules are proved about that machine.
- `build.dfy` (module `Build`): the default gulp task's event pages. It covers the primary link of an event, the redirect stubs, which essay, presentation, video and workshop pages are built and from what, and the highlighting-language fallback. `DefaultTask` is the task as written for a loaded catalog, which writes a stub for every talk with a link, slugged or not; `BuildTask` puts the database load in front of it; `CorrectedDefaultTask` writes stubs only for talks with a slug (see Findings).
- `server.dfy` (module `Server`): the server's `loadDatabase`, and the bodies of the `/talks/...` and `/workshops/:slug` routes. It covers the slug lookup, the dispatch on presentation type, and the description and arguments of each cached render.
- `listing.dfy` (module `Listing`): the browser's split of the catalog and the articles and links it lays out for each event.

Modelling choices:

- Timestamps are integers, and the start of the current day is a parameter.
- Date formatting is a function parameter (`DateFormatter`).
- Template, markdown and highlighting engines are either parameters or recorded only as the file names handed to them.
- A cache key is the structured pair `(description, arguments)`. The source serialises this pair with `JSON.stringify`, and the serialisation is taken to be injective.

Behaviours of the code that are easy to misread, which the model keeps as written:

- The gulp build links to `essay.html`, `presentation.html` and `video.html`, not to extension-less paths.
- The server's essay route does not require `talk.essay`; it renders for any talk with the slug.
- Both markdown routes of the server read `talk.code.language` unguarded. A talk without `code` therefore fails with a TypeError, a 500. This is `Server.MissingCode`.
- An `external` presentation is served as a 500 "Unknown presentation type.", like any other unknown type.
- The cache does not coalesce concurrent misses: the lookup happens before the behaviour is awaited and the store after it.

## Model

| member | source | states |
|---|---|---|
| Events.ParsePresentationType | gulpfile.js:184-206 | the presentation `type` string is read into elm, reveal.js, external or another named type, the tag's name is the string read, and only a string other than the three known names gives another named type |
| Events.ParseVideoType | gulpfile.js:34 | the video `type` string is read into youtube, external or another named type, the tag's name is the string read, and only a string other than the two known names gives another named type |
| Events.Filter | src/server.js:269-280 | `Array.prototype.filter`: the result keeps the input's order, is no longer than it, holds each element as often as the input when the test passes and never otherwise, and holds exactly the members that pass |
| Events.FindIndex | src/server.js:50 | `find`: none exactly when no element passes; otherwise the index of an element that passes with none passing before it |
| Events.Find | src/server.js:50 | `Array.prototype.find`: nothing exactly when no element passes, otherwise the first element that passes |
| Catalog.ParseDates | gulpfile.js:352-375 | an absent list is `[]`; the load succeeds iff every event has a timestamp; a failure reports the first event without one, with every event before it timestamped; a success is each event in order with `date` and `formattedDate` from its timestamp and nothing else changed |
| Catalog.LoadCatalog | gulpfile.js:345-350 | talks are normalised before workshops: the load succeeds iff both lists are timestamped; a gap among the talks is the error reported; the error's event belongs to one of the lists and has no timestamp; on success both lists are the dated copies |
| Catalog.Partition | src/server.js:268-280 | the database keeps both lists as loaded, and the upcoming and previous lists of a kind share no event |
| Catalog.UpcomingOf | src/server.js:269-271 | exactly the events on or after today, in the list's order, each as often as in the list |
| Catalog.PreviousOf | src/server.js:272-280 | exactly the events before today that pass the per-kind test, in the list's order, each as often as in the list |
| Catalog.PartitionMembers | src/server.js:268-280 | each derived list holds exactly the events of its kind on or after today, or before today that pass the per-kind test, each as often as in its list; each keeps the original order; the upcoming and previous lists of a kind share no event |
| Catalog.PartitionCovers | src/server.js:275-280 | for a timestamped list, every event that passes the previous-list test is in upcoming or previous exactly as often as in the list |
| MemoCache.Run | src/cache.js:3-21 | a series of calls gives one outcome per call |
| MemoCache.DisabledCallRuns | src/cache.js:4-6 | with `when` false the behaviour runs and its outcome is returned; the Map and the log are untouched |
| MemoCache.HitReturnsStored | src/cache.js:10-20 | a stored non-null value is returned with no run, no log record and no change of state |
| MemoCache.MissRunsOnce | src/cache.js:11-19 | on a miss exactly one `cacheMiss` record for the key is logged, the behaviour runs once, and what it resolves to is stored and returned; a rejection stores nothing |
| MemoCache.StepTouchesOwnKey | src/cache.js:10-18 | a call changes at most its own key's entry, removes nothing, and never replaces a non-null entry |
| MemoCache.RunKeepsStoredValues | src/cache.js:2-18 | over any series of calls no key is removed and no non-null entry changes |
| MemoCache.DisabledRunRunsEveryCall | src/cache.js:4-6 | with `when` false every call of a series runs its behaviour and returns its outcome, and the Map and the log never change |
| MemoCache.StepKeepsMemoised | src/cache.js:8-19 | one enabled call whose behaviour yields a value keeps the memoisation invariant: one miss record per run, no key run twice, every run key stored |
| MemoCache.RunKeepsMemoised | src/cache.js:8-19 | a series of such calls keeps the invariant |
| MemoCache.MemoisedRunRunsEachKeyOnce | src/cache.js:8-19 | from a fresh enabled cache, behaviours that yield values run at most once per key and each key is logged as a miss at most once |
| MemoCache.RepeatedCallHits | src/cache.js:8-20 | two identical calls on an enabled cache run the behaviour at most once, return the same value, and the second changes nothing |
| MemoCache.NullIsNotCached | src/cache.js:11 | a behaviour that resolves to null/undefined is run and logged again on the next identical call |
| MemoCache.FailureIsRetried | src/cache.js:17-18 | a rejected behaviour stores nothing, and the next identical call runs it again |
| MemoCache.Cache.constructor | src/cache.js:1-2 | a new cache with the given `when`, an empty Map and an empty log |
| MemoCache.Cache.Invoke | src/cache.js:3-21 | one call is exactly one `Step` of the state machine; disabled, it returns the behaviour's outcome without touching the Map or log; on a hit it returns the stored value and changes nothing |
| Build.PrimaryEventLink | gulpfile.js:135-155 | essay first, then presentation (an external one gives its own link), then video (likewise), then the external link; no link exactly when none of the four applies or an external presentation/video has no link |
| Build.RedirectEvent | gulpfile.js:157-168 | no stub for a falsy primary link; otherwise redirect.pug with `{destination: link}` written to `build/{prefix}/{slug}/index.html` |
| Build.RedirectStubs | gulpfile.js:21-40 | `map(redirectEvent).filter(e => e != null)`: a page is a stub iff it is the redirect of some event of the list; never more stubs than events |
| Build.RedirectStubsInOrder | gulpfile.js:21-23 | exactly one stub per event with a truthy primary link, in the list's order: the i-th stub is the redirect of the i-th such event |
| Build.RedirectStubsStep | gulpfile.js:21-23 | the first event contributes a stub exactly when it passes the link test, and the rest of the list gives the rest |
| Build.BuildEssay | gulpfile.js:170-181 | the talk's `src/views/talks/{date}--{slug}.md` compiled into essay.pug, with `code.language` as fallback, written to `build/talks/{slug}/essay.html` |
| Build.BuildPresentation | gulpfile.js:183-208 | elm: presentation-elm.pug without markdown; reveal.js: the talk's markdown in presentation-reveal.pug; success iff one of the two; any other type fails with its name |
| Build.UnknownTypeQuotesString | gulpfile.js:203-206 | for a presentation whose `type` string is s, the build fails exactly when s is neither "elm" nor "reveal.js", and the error carries s |
| Build.BuildVideo | gulpfile.js:210-215 | video.pug with the talk's data and no markdown, written to `build/talks/{slug}/video.html` |
| Build.BuildWorkshop | gulpfile.js:217-222 | the workshop's own `src/views/events/{slug}.pug` with its data and no markdown, written to `build/workshops/{slug}.html` |
| Build.VideoTypeSelects | gulpfile.js:33-35 | for a video whose `type` string is s, a slugged talk gets a video page exactly when s is "youtube" |
| Build.BuildPresentations | gulpfile.js:25-32 | all decks build or the task fails with the error of the first deck that throws, every earlier deck having built; on success one page per deck in order |
| Build.MapPages | gulpfile.js:24-43 | one page per event, in order; the pages are exactly the builds of the events |
| Build.Decks | gulpfile.js:26-31 | the talks with a slug and a non-external presentation |
| Build.EventPages | gulpfile.js:21-43 | the task's pages are the talks' stubs followed by the selected essay, presentation, video, workshop-stub and workshop pages |
| Build.DefaultTask | gulpfile.js:15-43 | as written, for a loaded catalog: the task fails exactly when building the decks fails, with that error; otherwise it writes the stub of every talk with a link and then the selected pages |
| Build.BuildTask | gulpfile.js:13-43 | the whole task: the load fails first, exactly when a list has an event without a timestamp, naming such an event; otherwise it is the loaded catalog's `DefaultTask`, failing with its error or giving its pages |
| Build.BuildTaskFails | gulpfile.js:13-32 | the whole task fails exactly when a list holds an event without a timestamp, or a slugged talk has a presentation type other than elm, reveal.js and external |
| Build.UntimestampedTalkStopsTask | gulpfile.js:14 | a talk without a timestamp makes the whole task fail at the load, although the loaded-catalog task alone would succeed |
| Build.DatedTalksKeepUnknownDecks | gulpfile.js:352-375 | dating a list keeps slugs and presentations, so the dated list has a rejected deck exactly when the raw list does |
| Build.DeckFailure | gulpfile.js:25-32 | building the decks fails exactly when some deck fails to build |
| Build.CorrectedDefaultTask | gulpfile.js:13-43 | the same task with the talks' stubs restricted to talks with a slug |
| Build.DefaultTaskFailsOnUnknownPresentation | gulpfile.js:25-32 | the task fails exactly when a slugged talk has a presentation type other than elm, reveal.js or external; the error names the type of the first deck that is neither elm nor reveal.js, every earlier deck being one of the two |
| Build.DecksFail | gulpfile.js:25-32 | building the decks fails exactly when a slugged talk has a presentation type other than elm, reveal.js or external |
| Build.FirstFailingDeck | gulpfile.js:32 | a failed deck build names the type of the first deck that is neither elm nor reveal.js |
| Build.SelectedPageOrigin | gulpfile.js:24-43 | a page after the talks' stubs is exactly an essay, presentation, video, workshop-stub or workshop page of an event its filter selects |
| Build.MappedSelection | gulpfile.js:24 | a page built from a filtered list is exactly a build of an element that passes the filter |
| Build.StubSelection | gulpfile.js:37-40 | a stub of the slugged events is exactly the stub of some slugged event |
| Build.EventPagesByKind | gulpfile.js:21-43 | whatever the talks' stubs, among the task's pages the essay, video, workshop and presentation pages are exactly those their own builders produce |
| Build.PresentationPagesOf | gulpfile.js:25-32 | the pages a successful presentation build returns are exactly the pages of its decks |
| Build.PresentationPagesOfDecks | gulpfile.js:25-32 | on success every presentation page has the presentation kind and comes from a talk with a slug and a non-external presentation, and each such talk's page is there |
| Build.DefaultTaskSelectsPages | gulpfile.js:24-43 | for the task as written and the corrected one: an essay page exists iff a talk has a slug and an essay; a video page iff it has a slug and a youtube video; a workshop page iff a workshop has a slug and an essay; the presentation pages are exactly those of the talks with a slug and a non-external presentation |
| Build.SubsequenceMembers | gulpfile.js:24 | a filtered list's members are members of the list |
| Build.SubsequenceKeepsDistinctSlugs | gulpfile.js:38 | filtering keeps slugs distinct |
| Build.StubPathInjective | gulpfile.js:167 | two slugs with the same stub path are the same slug |
| Build.StubPathsDistinct | gulpfile.js:157-168 | the stubs of slugged events with distinct slugs are written to distinct paths |
| Build.SluggedStubPathsDistinct | gulpfile.js:37-40 | with slug-filtered events whose slugs are distinct, no two stubs share a path, and every stub is at the path of a slugged event |
| Build.CorrectedTaskAgrees | gulpfile.js:21-43 | the corrected task fails exactly when the task as written does, with the same error; on success both write the same pages after their talk stubs; the corrected stubs are exactly the stubs of slugged talks |
| Build.CorrectedTalkStubsDistinct | gulpfile.js:21-23 | in the corrected task, talks with distinct slugs get talk stubs at distinct paths, each in a slugged talk's directory |
| Build.UnsluggedCatalogTask | gulpfile.js:21-43 | as written, a catalog with no slugged event gives exactly the talks' stubs |
| Build.FilterNone | gulpfile.js:24 | a filter no element passes gives nothing |
| Build.UnsluggedExternalStubs | gulpfile.js:21-23 | two unslugged talks with external links get two different stubs at `build/talks/undefined/index.html` |
| Build.UnsluggedTalkStubsCollide | gulpfile.js:21-23 | as written, the task over two unslugged talks with external links succeeds and writes two different stubs at the same path `build/talks/undefined/index.html` |
| Build.HighlightCode | gulpfile.js:308-319 | the fence's language, or `code.language` when the fence names none; "" when that language cannot be loaded |
| Server.LoadDatabase | src/server.js:263-283 | succeeds iff both lists are timestamped; fails with the load's error; on success the lists are the normalised catalog |
| Server.LoadDatabaseLists | src/server.js:268-280 | upcoming lists are exactly the events on or after today; previous talks are exactly the earlier talks with a slug; previous workshops the earlier workshops with `external`; each listed event occurs as often as in its list; order is kept, upcoming and previous never share an event, and every slugged talk is in exactly one of them, as often as in the list |
| Server.FindEvent | src/server.js:50-112 | the route's lookup gives nothing exactly when no event matches, otherwise the first match |
| Server.TalkRootRoute | src/server.js:41-45 | a 301 to `/talks/{slug}/essay` |
| Server.EssayRoute | src/server.js:47-61 | 404 exactly when no talk has the slug; otherwise the first such talk. With no `code` it is a TypeError; otherwise essay.pug with `talks/{date}--{slug}.md`, cached under `essay.pug & talks/{date}--{slug}.md` with arguments `(code.language, talk)` |
| Server.PresentationRoute | src/server.js:63-92 | 404 exactly when no talk has the slug and a presentation; for the first such talk, three cases. An elm deck gives presentation-elm.pug cached with `(talk)`. A reveal.js deck gives the markdown deck cached with `(code.language, talk)`, or a TypeError without `code`. Every other type, external included, gives 500 "Unknown presentation type." |
| Server.VideoRoute | src/server.js:94-107 | 404 exactly when no talk has the slug and a youtube video; otherwise video.pug for the first, cached with `(talk)` |
| Server.WorkshopRoute | src/server.js:109-123 | 404 exactly when no workshop has the slug; otherwise `events/{slug}.pug` for the first, cached under that name with `(workshop)` |
| Server.Dispatch | src/server.js:40-123 | the talk root redirects without loading; every other route is a 500 when the database fails to load, and otherwise is its own route over the loaded talks (essay, presentation, video) or workshops; only the talk root redirects |
| Server.RenderIsWellKeyed | src/server.js:56-121 | every render's cache description is its template and markdown view (essay.pug, presentation-reveal.pug), or its plain template: presentation-elm.pug, video.pug or `events/{slug}.pug` |
| Server.KeyFixesPage | src/server.js:56-121 | among such renders the description alone fixes the template and the markdown view |
| Server.RenderKeyIsNotDatabaseKey | src/server.js:17-18 | the database and the pages share one cache, and no render is looked up under the database's key |
| Server.SameKeySamePage | src/server.js:17-121 | whatever the data and requests, two renders under the same cache key use the same template and markdown view, so a cached page is never served for another page |
| Listing.HeaderOf | src/assets/pages/index.js:102-110 | the header is a link iff `event.link` or `event.slug` is truthy, to `event.link` if set, else `/{prefix}/{slug}`, with the title as text |
| Listing.Details | src/assets/pages/index.js:123-128 | `{event} @ {location}` when both are set, else the one that is |
| Listing.PresentationLink | src/assets/pages/index.js:142-155 | an external presentation links to its own link, any other to `/{prefix}/{slug}/presentation` |
| Listing.VideoLink | src/assets/pages/index.js:156-164 | an external video links to its own link, any other to `/{prefix}/{slug}/video` |
| Listing.EventLinks | src/assets/pages/index.js:134-169 | a links list exists iff the event has a slug, `external`, a presentation or a video; one item for each, in the order essay (for every slugged event), presentation, video, external |
| Listing.EventElement | src/assets/pages/index.js:98-172 | the article is the header, the "with" partner link when there is a partner, the details, the formatted date and the links list |
| Listing.AppendEvents | src/assets/pages/index.js:75-93 | appending one article per event, in order, after what the container already holds |
| Listing.Upcoming | src/assets/pages/index.js:62-80 | always the "Upcoming {title}" header; with no events "No upcoming {title}.", otherwise one article per event in order |
| Listing.Previous | src/assets/pages/index.js:82-96 | empty, without a header, when there are no events; otherwise the "Previous {title}" header and one article per event in order |
| Listing.SplitExactly | src/assets/pages/index.js:27-38 | with no further test, each timestamped event is upcoming or previous, never both, as often as in the list, and the two lists are as long as the list |
| Listing.ListingPartition | src/assets/pages/index.js:22-41 | the browser's four lists split talks and workshops exactly |
| Listing.Run | src/assets/pages/index.js:5-60 | a failed fetch or load shows the fixed error text; otherwise upcoming workshops, upcoming talks, previous workshops and previous talks, each laid out as above |

## Left out

- Gulp stream plumbing, `gulp.src`/`dest`, the `through.obj` transforms, sass, the static files, `dat.json` and `wellKnownDat`. A built page is recorded as its template, markdown source, data and destination.
- The rendering by pug, markdown-it and prism, and the `require` of prism language components. `HighlightCode` takes language availability and highlighting as parameters.
- moment. Timestamps are integers and the start of the day is a parameter; formatting is a parameter.
- Koa: middleware, security headers, response timing, listening and stopping, `readFile`, and the `/`, `/bio`, stylesheet and static-file routes, which have no data logic.
- The server's caching of the database under the fixed key `Server.DatabaseKey` is not composed with the routes: `Dispatch` takes the load's outcome as a parameter. `Server.RenderKeyIsNotDatabaseKey` shows the pages never use that key.
- Rendering itself: a route's result names the cache key and view it would render, not the HTML.
- `Build.DefaultTask`: a failure carries no pages. In the source the throw at gulpfile.js:32 happens after the streams of lines 16-24 exist: `database.json`, the index and bio pages, every talk stub and the essays. Gulp does not cancel those streams, so they may still write their files. The model does not capture files written before the throw.
- `src/main.js` is not part of this model; it is the superseded entry point. `src/promises.js` is not part of this model either; it has no logic.
- The end-to-end test runs over the network and is not part of this model.
- The DOM in the browser: fetch, `querySelector`, hiding and showing the message, and the error's console output are not modelled. The sections are the sequences of nodes appended.
- A non-200 response and a network failure are both the `Failure` of the fetched input.
- JSON and YAML decoding. Records are already decoded into `Event`, with a missing property as `None`.
- Some properties cannot be missing in the model: an event's `title`, the `type` of a presentation or video, the `link` and `text` of `external`, and the partner's `name` and `link`. The model takes these as present. In the source a missing one is `undefined`; for example, a record without `external.link` gets the listing href "undefined" (src/assets/pages/index.js:166), which the model cannot express.
- `Catalog.ParseDates`: `!event.timestamp` is modelled as the timestamp being absent. A decoded YAML or JSON timestamp is a date or a date string, and neither is falsy there.
- Concurrent calls of the cache. Interleaved misses on one key are not modelled, and the cache does not deduplicate them.
- `MemoCache.Cache.Invoke`: the key is the structured `(description, arguments)` pair, not its `JSON.stringify` string. Two calls whose serialisations coincide but whose structures differ would share an entry in the source, but not in the model.
- Error messages: a server failure is the `Fault` that causes it, not Koa's response body, and a build failure keeps the type's name rather than its JSON text.

## Findings

| source | as written | input that shows it | evidently intended | confidence | as-written member | corrected member |
|---|---|---|---|---|---|---|
| gulpfile.js:21-23 | `redirectEvent("talks")` is mapped over every talk, while workshops are first filtered on `slug` (gulpfile.js:37-40) | two talks without a slug and with different `external` links: both stubs are written to `build/talks/undefined/index.html`, and one overwrites the other | build talk stubs only for talks with a slug, as for workshops | not executed; the code path is plain, and the overwrite follows from both stubs having one destination | Build.UnsluggedTalkStubsCollide | Build.CorrectedTalkStubsDistinct |
