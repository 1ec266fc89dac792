/**
 * The event pages of gulpfile.js's default task: the primary link of an
 * event, the redirect stubs built from it, which essay, presentation, video
 * and workshop pages are built and from which template and markdown file,
 * and the syntax-highlighting language choice. Streams, file I/O and the
 * renderers are not modelled: a page is its template, its markdown source,
 * its data and its destination path.
 */
module Build {
  import opened Wrappers
  import opened Events
  import opened Catalog

  /** Which of the default task's page builders produced a page. */
  datatype PageKind = RedirectStub | EssayPage | PresentationPage | VideoPage | WorkshopPage

  /** A markdown file compiled into the page, with `code.language` as the fallback language. */
  datatype Markdown = Markdown(path: string, defaultLanguage: Option<string>)

  /** The data the template is rendered with. */
  datatype PageData = Destination(destination: string) | EventData(event: Event)

  /** One output file of the build. */
  datatype Page = Page(kind: PageKind, template: string, markdown: Option<Markdown>, data: PageData, dest: string)

  /** `Unknown presentation type: <JSON of the type>`; the type's name is kept. */
  datatype BuildError = UnknownPresentationType(typeName: string)

  /** Why the whole default task throws: the database load, or a deck. */
  datatype TaskError = LoadFailed(loadError: LoadError) | BuildFailed(buildError: BuildError)

  /** `/{prefix}/{slug}/{page}`, with an absent slug printed as "undefined". */
  function EventPath(prefix: string, slug: Option<string>, page: string): string {
    "/" + prefix + "/" + Interpolate(slug) + "/" + page
  }

  /**
   * `primaryEventLink`: the first channel that applies, in the order essay,
   * presentation, video, external link; an external presentation or video
   * gives its own link, which may be missing.
   */
  function PrimaryEventLink(prefix: string, e: Event): (r: Option<string>)
    ensures e.essay ==> r == Some(EventPath(prefix, e.slug, "essay.html"))
    ensures !e.essay && e.presentation.Some? ==>
              r == if e.presentation.value.kind == ExternalPresentation then e.presentation.value.link
                   else Some(EventPath(prefix, e.slug, "presentation.html"))
    ensures !e.essay && e.presentation.None? && e.video.Some? ==>
              r == if e.video.value.kind == ExternalVideo then e.video.value.link
                   else Some(EventPath(prefix, e.slug, "video.html"))
    ensures !e.essay && e.presentation.None? && e.video.None? ==>
              r == if e.external.Some? then Some(e.external.value.link) else None
    ensures r.None? <==>
              || (!e.essay && e.presentation.None? && e.video.None? && e.external.None?)
              || (!e.essay && e.presentation.Some? && e.presentation.value.kind == ExternalPresentation
                  && e.presentation.value.link.None?)
              || (!e.essay && e.presentation.None? && e.video.Some? && e.video.value.kind == ExternalVideo
                  && e.video.value.link.None?)
  {
    if e.essay then
      Some(EventPath(prefix, e.slug, "essay.html"))
    else if e.presentation.Some? then
      if e.presentation.value.kind == ExternalPresentation then e.presentation.value.link
      else Some(EventPath(prefix, e.slug, "presentation.html"))
    else if e.video.Some? then
      if e.video.value.kind == ExternalVideo then e.video.value.link
      else Some(EventPath(prefix, e.slug, "video.html"))
    else if e.external.Some? then
      Some(e.external.value.link)
    else
      None
  }

  /** `build/{prefix}/{slug}/index.html`. */
  function StubPath(prefix: string, slug: Option<string>): string {
    "build/" + prefix + "/" + Interpolate(slug) + "/index.html"
  }

  /**
   * `redirectEvent(prefix)(event)`: nothing for a falsy primary link,
   * otherwise redirect.pug rendered with `{destination: link}` into the
   * event's own directory.
   */
  function RedirectEvent(prefix: string, e: Event): (r: Option<Page>)
    ensures r.Some? <==> Truthy(PrimaryEventLink(prefix, e))
    ensures r.Some? ==> r.value == Page(RedirectStub, "src/views/redirect.pug", None,
                                        Destination(PrimaryEventLink(prefix, e).value), StubPath(prefix, e.slug))
  {
    var link := PrimaryEventLink(prefix, e);
    if !Truthy(link) then None
    else Some(Page(RedirectStub, "src/views/redirect.pug", None, Destination(link.value), StubPath(prefix, e.slug)))
  }

  /** The test `redirectEvent`'s null check amounts to: the event's primary link is truthy. */
  function HasStub(prefix: string): Event -> bool {
    e => Truthy(PrimaryEventLink(prefix, e))
  }

  /** `events.map(redirectEvent(prefix)).filter(event => event != null)`. */
  function RedirectStubs(prefix: string, events: seq<Event>): (r: seq<Page>)
    ensures |r| <= |events|
    ensures forall p :: p in r <==> exists e :: e in events && RedirectEvent(prefix, e) == Some(p)
  {
    if events == [] then []
    else
      var rest := RedirectStubs(prefix, events[1..]);
      assert forall e :: e in events <==> e == events[0] || e in events[1..];
      match RedirectEvent(prefix, events[0])
      case None => rest
      case Some(p) => [p] + rest
  }

  /**
   * The stubs are one per event with a truthy primary link, in the list's
   * order: the i-th stub is the redirect of the i-th such event.
   */
  lemma {:induction false} RedirectStubsInOrder(prefix: string, events: seq<Event>)
    ensures var r, linked := RedirectStubs(prefix, events), Filter(events, HasStub(prefix));
      && |r| == |linked|
      && forall i :: 0 <= i < |r| ==> RedirectEvent(prefix, linked[i]) == Some(r[i])
  {
    if events != [] {
      RedirectStubsInOrder(prefix, events[1..]);
      RedirectStubsStep(prefix, events);
      var e := events[0];
      if RedirectEvent(prefix, e).Some? {
        PrependPair(RedirectStubs(prefix, events[1..]), Filter(events[1..], HasStub(prefix)),
                    RedirectEvent(prefix, e).value, e, ev => RedirectEvent(prefix, ev));
      }
    }
  }

  /** Pairing a page list with an event list by `stub` survives adding one more pair in front. */
  lemma PrependPair(pages: seq<Page>, events: seq<Event>, p: Page, e: Event, stub: Event -> Option<Page>)
    requires |pages| == |events| && forall i :: 0 <= i < |pages| ==> stub(events[i]) == Some(pages[i])
    requires stub(e) == Some(p)
    ensures |[p] + pages| == |[e] + events|
    ensures forall i :: 0 <= i < |[p] + pages| ==> stub(([e] + events)[i]) == Some(([p] + pages)[i])
  {
    forall i | 1 <= i < |[p] + pages| ensures stub(([e] + events)[i]) == Some(([p] + pages)[i]) {
      assert ([e] + events)[i] == events[i - 1];
    }
  }

  /** One step of RedirectStubs and of the filter it follows: the first event has a stub exactly when it passes. */
  lemma RedirectStubsStep(prefix: string, events: seq<Event>)
    requires events != []
    ensures RedirectEvent(prefix, events[0]).Some? ==>
              && RedirectStubs(prefix, events) == [RedirectEvent(prefix, events[0]).value] + RedirectStubs(prefix, events[1..])
              && Filter(events, HasStub(prefix)) == [events[0]] + Filter(events[1..], HasStub(prefix))
    ensures RedirectEvent(prefix, events[0]).None? ==>
              && RedirectStubs(prefix, events) == RedirectStubs(prefix, events[1..])
              && Filter(events, HasStub(prefix)) == Filter(events[1..], HasStub(prefix))
  {
    assert events == [events[0]] + events[1..];
  }

  /** `talk.code && talk.code.language`. */
  function DefaultLanguage(e: Event): Option<string> {
    if e.code.Some? then e.code.value.language else None
  }

  /** `src/views/talks/{date}--{slug}.md`. */
  function TalkMarkdown(talk: Event): Markdown {
    Markdown("src/views/talks/" + Interpolate(talk.date) + "--" + Interpolate(talk.slug) + ".md", DefaultLanguage(talk))
  }

  /** `build/talks/{slug}/{file}`. */
  function TalkPagePath(talk: Event, file: string): string {
    "build/talks/" + Interpolate(talk.slug) + "/" + file
  }

  /** `buildEssay`: the talk's markdown inside essay.pug. */
  function BuildEssay(talk: Event): (p: Page)
    ensures p.kind == EssayPage && p.data == EventData(talk)
    ensures p.template == "src/views/essay.pug" && p.markdown == Some(TalkMarkdown(talk))
    ensures p.dest == TalkPagePath(talk, "essay.html")
  {
    Page(EssayPage, "src/views/essay.pug", Some(TalkMarkdown(talk)), EventData(talk), TalkPagePath(talk, "essay.html"))
  }

  /**
   * `buildPresentation`: an elm presentation is one template with no
   * markdown, a reveal.js one is the talk's markdown inside the slide
   * template, and any other type is an error.
   */
  function BuildPresentation(talk: Event): (r: Result<Page, BuildError>)
    requires talk.presentation.Some?
    ensures r.Success? <==> talk.presentation.value.kind in {Elm, RevealJs}
    ensures talk.presentation.value.kind == Elm ==>
              r == Success(Page(PresentationPage, "src/views/presentation-elm.pug", None, EventData(talk),
                                TalkPagePath(talk, "presentation.html")))
    ensures talk.presentation.value.kind == RevealJs ==>
              r == Success(Page(PresentationPage, "src/views/presentation-reveal.pug", Some(TalkMarkdown(talk)),
                                EventData(talk), TalkPagePath(talk, "presentation.html")))
    ensures r.Failure? ==> r.error == UnknownPresentationType(PresentationTypeName(talk.presentation.value.kind))
  {
    match talk.presentation.value.kind
    case Elm =>
      Success(Page(PresentationPage, "src/views/presentation-elm.pug", None, EventData(talk),
                   TalkPagePath(talk, "presentation.html")))
    case RevealJs =>
      Success(Page(PresentationPage, "src/views/presentation-reveal.pug", Some(TalkMarkdown(talk)),
                   EventData(talk), TalkPagePath(talk, "presentation.html")))
    case _ => Failure(UnknownPresentationType(PresentationTypeName(talk.presentation.value.kind)))
  }

  /** `buildVideo`: video.pug with the talk's data. */
  function BuildVideo(talk: Event): (r: Page)
    ensures r.kind == VideoPage && r.template == "src/views/video.pug" && r.markdown == None
    ensures r.data == EventData(talk) && r.dest == TalkPagePath(talk, "video.html")
  {
    Page(VideoPage, "src/views/video.pug", None, EventData(talk), TalkPagePath(talk, "video.html"))
  }

  /** `buildWorkshop`: the workshop's own template, written as `build/workshops/{slug}.html`. */
  function BuildWorkshop(workshop: Event): (r: Page)
    ensures r.kind == WorkshopPage && r.markdown == None && r.data == EventData(workshop)
    ensures r.template == "src/views/events/" + Interpolate(workshop.slug) + ".pug"
    ensures r.dest == "build/workshops/" + Interpolate(workshop.slug) + ".html"
  {
    Page(WorkshopPage, "src/views/events/" + Interpolate(workshop.slug) + ".pug", None, EventData(workshop),
         "build/workshops/" + Interpolate(workshop.slug) + ".html")
  }

  /**
   * For a presentation whose `type` string is s, the build fails exactly
   * when s is neither "elm" nor "reveal.js", and its error quotes s.
   */
  lemma UnknownTypeQuotesString(talk: Event, s: string)
    requires talk.presentation.Some? && talk.presentation.value.kind == ParsePresentationType(s)
    ensures BuildPresentation(talk).Failure? <==> s !in {"elm", "reveal.js"}
    ensures BuildPresentation(talk).Failure? ==> BuildPresentation(talk).error == UnknownPresentationType(s)
  {
  }

  /** `talks.filter(...).map(buildPresentation)`: the first talk that throws aborts the whole task. */
  function BuildPresentations(talks: seq<Event>): (r: Result<seq<Page>, BuildError>)
    requires forall t :: t in talks ==> t.presentation.Some?
    ensures r.Failure? <==> exists i :: 0 <= i < |talks| && BuildPresentation(talks[i]).Failure?
    ensures r.Failure? ==> exists i :: 0 <= i < |talks| && BuildPresentation(talks[i]) == Failure(r.error)
                                       && forall j :: 0 <= j < i ==> BuildPresentation(talks[j]).Success?
    ensures r.Success? ==> |r.value| == |talks|
                           && forall i :: 0 <= i < |talks| ==> BuildPresentation(talks[i]) == Success(r.value[i])
  {
    if talks == [] then Success([])
    else
      match BuildPresentation(talks[0])
      case Failure(e) => Failure(e)
      case Success(p) =>
        match BuildPresentations(talks[1..])
        case Failure(e) =>
          assert forall i :: 1 <= i < |talks| ==> talks[1..][i - 1] == talks[i];
          Failure(e)
        case Success(ps) =>
          assert forall i :: 1 <= i < |talks| ==> talks[1..][i - 1] == talks[i];
          Success([p] + ps)
  }

  predicate Slugged(e: Event) {
    Truthy(e.slug)
  }

  /** gulpfile.js:24: talks with a slug and an essay. */
  predicate BuildsEssay(t: Event) {
    Truthy(t.slug) && t.essay
  }

  /** gulpfile.js:25-32: talks with a slug and a presentation that is not external. */
  predicate BuildsPresentation(t: Event) {
    Truthy(t.slug) && t.presentation.Some? && t.presentation.value.kind != ExternalPresentation
  }

  /** gulpfile.js:33-35: talks with a slug and a YouTube video. */
  predicate BuildsVideo(t: Event) {
    Truthy(t.slug) && t.video.Some? && t.video.value.kind == YouTube
  }

  /** gulpfile.js:41-43: workshops with a slug and an essay. */
  predicate BuildsWorkshop(w: Event) {
    Truthy(w.slug) && w.essay
  }

  /** For a video whose `type` string is s, a slugged talk's video page is built exactly when s is "youtube". */
  lemma VideoTypeSelects(t: Event, s: string)
    requires t.video.Some? && t.video.value.kind == ParseVideoType(s)
    ensures BuildsVideo(t) <==> Truthy(t.slug) && s == "youtube"
  {
  }

  /** `events.map(build)` for a builder that cannot throw. */
  function MapPages(s: seq<Event>, build: Event -> Page): (r: seq<Page>)
    ensures |r| == |s| && forall i :: 0 <= i < |s| ==> r[i] == build(s[i])
    ensures forall p :: p in r <==> exists e :: e in s && p == build(e)
  {
    var r := seq(|s|, i requires 0 <= i < |s| => build(s[i]));
    assert forall p :: p in r ==> exists e :: e in s && p == build(e) by {
      forall p | p in r ensures exists e :: e in s && p == build(e) {
        var i :| 0 <= i < |r| && r[i] == p;
        assert s[i] in s;
      }
    }
    assert forall e :: e in s ==> build(e) in r by {
      forall e | e in s ensures build(e) in r {
        var i :| 0 <= i < |s| && s[i] == e;
        assert r[i] == build(e);
      }
    }
    r
  }

  /** The talks whose presentation page is built. */
  function Decks(c: Catalog): (r: seq<Event>)
    ensures forall t :: t in r <==> t in c.talks && BuildsPresentation(t)
  {
    Filter(c.talks, BuildsPresentation)
  }

  /** The talks' redirect stubs as gulpfile.js:21-23 builds them: one per talk with a truthy link, slug or not. */
  function TalkStubs(c: Catalog): seq<Page> {
    RedirectStubs("talks", c.talks)
  }

  /** The talks' redirect stubs built only for slugged talks, as gulpfile.js:37-40 does for workshops. */
  function SluggedTalkStubs(c: Catalog): seq<Page> {
    RedirectStubs("talks", Filter(c.talks, Slugged))
  }

  /** The pages the default task builds after the talks' stubs, in the order gulpfile.js:24-43 lists them. */
  function SelectedPages(c: Catalog, presentations: seq<Page>): seq<Page> {
    MapPages(Filter(c.talks, BuildsEssay), BuildEssay)
      + presentations
      + MapPages(Filter(c.talks, BuildsVideo), BuildVideo)
      + RedirectStubs("workshops", Filter(c.workshops, Slugged))
      + MapPages(Filter(c.workshops, BuildsWorkshop), BuildWorkshop)
  }

  /** A selected page is an essay, presentation, video, workshop stub or workshop page of a selected event. */
  lemma SelectedPageOrigin(c: Catalog, presentations: seq<Page>, p: Page)
    ensures p in SelectedPages(c, presentations) <==>
              || (exists t :: t in c.talks && BuildsEssay(t) && p == BuildEssay(t))
              || p in presentations
              || (exists t :: t in c.talks && BuildsVideo(t) && p == BuildVideo(t))
              || (exists w :: w in c.workshops && Slugged(w) && RedirectEvent("workshops", w) == Some(p))
              || (exists w :: w in c.workshops && BuildsWorkshop(w) && p == BuildWorkshop(w))
  {
    MappedSelection(c.talks, BuildsEssay, BuildEssay, p);
    MappedSelection(c.talks, BuildsVideo, BuildVideo, p);
    MappedSelection(c.workshops, BuildsWorkshop, BuildWorkshop, p);
    StubSelection("workshops", c.workshops, p);
  }

  /** A stub built from the slugged events comes from a slugged event. */
  lemma StubSelection(prefix: string, events: seq<Event>, p: Page)
    ensures p in RedirectStubs(prefix, Filter(events, Slugged)) <==>
              exists e :: e in events && Slugged(e) && RedirectEvent(prefix, e) == Some(p)
  {
    if p in RedirectStubs(prefix, Filter(events, Slugged)) {
      var e :| e in Filter(events, Slugged) && RedirectEvent(prefix, e) == Some(p);
      assert e in events && Slugged(e);
    }
    if exists e :: e in events && Slugged(e) && RedirectEvent(prefix, e) == Some(p) {
      var e :| e in events && Slugged(e) && RedirectEvent(prefix, e) == Some(p);
      assert e in Filter(events, Slugged);
    }
  }

  /** A page built from a filtered list comes from an element the filter keeps. */
  lemma MappedSelection(s: seq<Event>, keep: Event -> bool, build: Event -> Page, p: Page)
    ensures p in MapPages(Filter(s, keep), build) <==> exists e :: e in s && keep(e) && p == build(e)
  {
    if p in MapPages(Filter(s, keep), build) {
      var e :| e in Filter(s, keep) && p == build(e);
      assert e in s && keep(e);
    }
    if exists e :: e in s && keep(e) && p == build(e) {
      var e :| e in s && keep(e) && p == build(e);
      assert e in Filter(s, keep);
    }
  }

  /** The event pages of the default task: the talks' stubs, then the selected pages. */
  function EventPages(c: Catalog, talkStubs: seq<Page>, presentations: seq<Page>): (r: seq<Page>)
    ensures |r| == |talkStubs| + |SelectedPages(c, presentations)|
    ensures r[..|talkStubs|] == talkStubs && r[|talkStubs|..] == SelectedPages(c, presentations)
  {
    var r := talkStubs + SelectedPages(c, presentations);
    assert r[..|talkStubs|] == talkStubs;
    assert r[|talkStubs|..] == SelectedPages(c, presentations);
    r
  }

  /**
   * The default task's event pages, as written: every talk's redirect stub,
   * then the pages of the selected talks and workshops. The first deck that
   * throws aborts the task.
   */
  function DefaultTask(c: Catalog): (r: Result<seq<Page>, BuildError>)
    ensures r.Success? <==> BuildPresentations(Decks(c)).Success?
    ensures r.Failure? ==> r.error == BuildPresentations(Decks(c)).error
    ensures r.Success? ==> r.value == EventPages(c, TalkStubs(c), BuildPresentations(Decks(c)).value)
  {
    match BuildPresentations(Decks(c))
    case Failure(e) => Failure(e)
    case Success(presentations) => Success(EventPages(c, TalkStubs(c), presentations))
  }

  /** The default task with the talks' stubs restricted to slugged talks (see UnsluggedTalkStubsCollide). */
  function CorrectedDefaultTask(c: Catalog): (r: Result<seq<Page>, BuildError>)
    ensures r.Success? <==> BuildPresentations(Decks(c)).Success?
    ensures r.Failure? ==> r.error == BuildPresentations(Decks(c)).error
    ensures r.Success? ==> r.value == EventPages(c, SluggedTalkStubs(c), BuildPresentations(Decks(c)).value)
  {
    match BuildPresentations(Decks(c))
    case Failure(e) => Failure(e)
    case Success(presentations) => Success(EventPages(c, SluggedTalkStubs(c), presentations))
  }

  /**
   * The whole default task: `loadDatabase()` first (gulpfile.js:14), whose
   * throw on an event without a timestamp ends the task, then the event
   * pages of the loaded catalog.
   */
  function BuildTask(raw: RawCatalog, format: DateFormatter): (r: Result<seq<Page>, TaskError>)
    ensures (r.Failure? && r.error.LoadFailed?) <==>
              !(AllTimestamped(raw.talks.GetOr([])) && AllTimestamped(raw.workshops.GetOr([])))
    ensures r.Failure? && r.error.LoadFailed? ==>
              && !HasTimestamp(r.error.loadError.event)
              && (r.error.loadError.event in raw.talks.GetOr([]) || r.error.loadError.event in raw.workshops.GetOr([]))
    ensures r.Failure? && r.error.BuildFailed? ==>
              LoadCatalog(raw, format).Success? && DefaultTask(LoadCatalog(raw, format).value) == Failure(r.error.buildError)
    ensures r.Success? ==>
              LoadCatalog(raw, format).Success? && DefaultTask(LoadCatalog(raw, format).value) == Success(r.value)
  {
    match LoadCatalog(raw, format)
    case Failure(e) => Failure(LoadFailed(e))
    case Success(c) =>
      match DefaultTask(c)
      case Failure(e) => Failure(BuildFailed(e))
      case Success(pages) => Success(pages)
  }

  /**
   * The whole task fails exactly when a list holds an event without a
   * timestamp, or a slugged talk of the catalog has a presentation type other
   * than elm, reveal.js and external.
   */
  lemma BuildTaskFails(raw: RawCatalog, format: DateFormatter)
    ensures BuildTask(raw, format).Failure? <==>
              || !AllTimestamped(raw.talks.GetOr([]))
              || !AllTimestamped(raw.workshops.GetOr([]))
              || exists t :: t in raw.talks.GetOr([]) && Truthy(t.slug) && t.presentation.Some?
                             && t.presentation.value.kind !in {Elm, RevealJs, ExternalPresentation}
  {
    var talks := raw.talks.GetOr([]);
    if AllTimestamped(talks) && AllTimestamped(raw.workshops.GetOr([])) {
      var c := LoadCatalog(raw, format).value;
      DefaultTaskFailsOnUnknownPresentation(c);
      DatedTalksKeepUnknownDecks(c.talks, talks, format);
    }
  }

  /** A slugged talk whose presentation type the build rejects. */
  predicate UnknownDeck(t: Event) {
    Truthy(t.slug) && t.presentation.Some? && t.presentation.value.kind !in {Elm, RevealJs, ExternalPresentation}
  }

  /** Dating a list keeps its slugs and presentations, so it keeps whether some deck is rejected. */
  lemma DatedTalksKeepUnknownDecks(s: seq<Event>, raw: seq<Event>, format: DateFormatter)
    requires DatedList(s, raw, format)
    ensures (exists t :: t in s && UnknownDeck(t)) <==> (exists u :: u in raw && UnknownDeck(u))
  {
    if exists t :: t in s && UnknownDeck(t) {
      var t :| t in s && UnknownDeck(t);
      var i :| 0 <= i < |s| && s[i] == t;
      assert DatedCopy(t, raw[i], format);
      assert raw[i] in raw && UnknownDeck(raw[i]);
    }
    if exists u :: u in raw && UnknownDeck(u) {
      var u :| u in raw && UnknownDeck(u);
      var i :| 0 <= i < |raw| && raw[i] == u;
      assert DatedCopy(s[i], u, format);
      assert s[i] in s && UnknownDeck(s[i]);
    }
  }

  /** A talk without a timestamp stops the whole task at the load, before any page. */
  lemma UntimestampedTalkStopsTask(format: DateFormatter)
    ensures var t := UnsluggedExternalTalk("a", "https://a.example").(timestamp := None);
      && DefaultTask(Catalog([t], [])).Success?
      && BuildTask(RawCatalog(Some([t]), None), format) == Failure(LoadFailed(MissingTimestamp(t)))
  {
    var t := UnsluggedExternalTalk("a", "https://a.example").(timestamp := None);
    assert !HasTimestamp([t][0]);
    UnsluggedCatalogTask(Catalog([t], []));
  }

  /**
   * The task throws exactly when a slugged talk has a presentation type
   * other than elm, reveal.js and external; the error names the type of the
   * first such talk, every earlier deck being elm or reveal.js.
   */
  lemma DefaultTaskFailsOnUnknownPresentation(c: Catalog)
    ensures DefaultTask(c).Failure? <==>
              exists t :: t in c.talks && Truthy(t.slug) && t.presentation.Some?
                          && t.presentation.value.kind !in {Elm, RevealJs, ExternalPresentation}
    ensures DefaultTask(c).Failure? ==>
              var decks := Decks(c);
              exists i :: 0 <= i < |decks|
                && decks[i].presentation.Some?
                && decks[i].presentation.value.kind !in {Elm, RevealJs}
                && DefaultTask(c).error == UnknownPresentationType(PresentationTypeName(decks[i].presentation.value.kind))
                && forall j :: 0 <= j < i ==> decks[j].presentation.Some? && decks[j].presentation.value.kind in {Elm, RevealJs}
  {
    DecksFail(c);
    FirstFailingDeck(Decks(c));
  }

  /** Some deck fails exactly when a slugged talk has a type other than elm, reveal.js and external. */
  lemma DecksFail(c: Catalog)
    ensures forall t :: t in Decks(c) ==> t.presentation.Some?
    ensures BuildPresentations(Decks(c)).Failure? <==>
              exists t :: t in c.talks && Truthy(t.slug) && t.presentation.Some?
                          && t.presentation.value.kind !in {Elm, RevealJs, ExternalPresentation}
  {
    var decks := Decks(c);
    assert forall t :: t in decks ==> t.presentation.Some?;
    assert forall t :: t in decks ==> (BuildPresentation(t).Failure? <==> UnknownDeck(t));
    assert forall t :: t in c.talks && UnknownDeck(t) ==> t in decks;
    DeckFailure(decks);
  }

  /** Some deck is rejected exactly when one of them fails to build. */
  lemma DeckFailure(decks: seq<Event>)
    requires forall t :: t in decks ==> t.presentation.Some?
    ensures BuildPresentations(decks).Failure? <==> exists t :: t in decks && BuildPresentation(t).Failure?
  {
    if BuildPresentations(decks).Failure? {
      var i :| 0 <= i < |decks| && BuildPresentation(decks[i]).Failure?;
      assert decks[i] in decks;
    }
    if exists t :: t in decks && BuildPresentation(t).Failure? {
      var t :| t in decks && BuildPresentation(t).Failure?;
      var i :| 0 <= i < |decks| && decks[i] == t;
      assert BuildPresentation(decks[i]).Failure?;
    }
  }

  /** A failing build names the type of its first deck that is neither elm nor reveal.js. */
  lemma FirstFailingDeck(decks: seq<Event>)
    requires forall t :: t in decks ==> t.presentation.Some?
    ensures BuildPresentations(decks).Failure? ==>
              exists i :: 0 <= i < |decks|
                && decks[i].presentation.Some?
                && decks[i].presentation.value.kind !in {Elm, RevealJs}
                && BuildPresentations(decks).error == UnknownPresentationType(PresentationTypeName(decks[i].presentation.value.kind))
                && forall j :: 0 <= j < i ==> decks[j].presentation.Some? && decks[j].presentation.value.kind in {Elm, RevealJs}
  {
    var r := BuildPresentations(decks);
    if r.Failure? {
      var i :| 0 <= i < |decks| && BuildPresentation(decks[i]) == Failure(r.error)
               && forall j :: 0 <= j < i ==> BuildPresentation(decks[j]).Success?;
      assert decks[i] in decks;
      forall j | 0 <= j < i ensures decks[j].presentation.Some? && decks[j].presentation.value.kind in {Elm, RevealJs} {
        assert decks[j] in decks;
        assert BuildPresentation(decks[j]).Success?;
      }
      var k := decks[i].presentation.value.kind;
      assert k !in {Elm, RevealJs};
      assert r.error == UnknownPresentationType(PresentationTypeName(k));
    }
  }

  /** Every redirect stub has the stub kind. */
  lemma StubsAreStubs(prefix: string, events: seq<Event>)
    ensures forall p :: p in RedirectStubs(prefix, events) ==> p.kind == RedirectStub
  {
  }

  /** Among the task's pages, each page that is not a stub comes from the builder its kind names. */
  lemma EventPagesByKind(c: Catalog, talkStubs: seq<Page>, presentations: seq<Page>, p: Page)
    requires forall q :: q in talkStubs ==> q.kind == RedirectStub
    requires forall q :: q in presentations ==> q.kind == PresentationPage
    ensures p in EventPages(c, talkStubs, presentations) && p.kind == EssayPage <==>
              exists t :: t in c.talks && BuildsEssay(t) && p == BuildEssay(t)
    ensures p in EventPages(c, talkStubs, presentations) && p.kind == VideoPage <==>
              exists t :: t in c.talks && BuildsVideo(t) && p == BuildVideo(t)
    ensures p in EventPages(c, talkStubs, presentations) && p.kind == WorkshopPage <==>
              exists w :: w in c.workshops && BuildsWorkshop(w) && p == BuildWorkshop(w)
    ensures p in EventPages(c, talkStubs, presentations) && p.kind == PresentationPage <==> p in presentations
  {
    var pages := EventPages(c, talkStubs, presentations);
    assert pages == talkStubs + SelectedPages(c, presentations);
    SelectedPageOrigin(c, presentations, p);
    assert (exists w :: w in c.workshops && Slugged(w) && RedirectEvent("workshops", w) == Some(p)) ==> p.kind == RedirectStub;
  }

  /** The pages BuildPresentations returns are exactly the pages of its talks. */
  lemma PresentationPagesOf(talks: seq<Event>, presentations: seq<Page>)
    requires forall t :: t in talks ==> t.presentation.Some?
    requires BuildPresentations(talks) == Success(presentations)
    ensures forall p :: p in presentations <==> exists t :: t in talks && BuildPresentation(t) == Success(p)
  {
    forall p | p in presentations ensures exists t :: t in talks && BuildPresentation(t) == Success(p) {
      var i :| 0 <= i < |presentations| && presentations[i] == p;
      assert talks[i] in talks;
    }
    forall t | t in talks ensures BuildPresentation(t).Success? && BuildPresentation(t).value in presentations {
      var i :| 0 <= i < |talks| && talks[i] == t;
      assert presentations[i] == BuildPresentation(t).value;
    }
  }

  /** The presentation pages of a successful task, and the talks they come from. */
  lemma PresentationPagesOfDecks(c: Catalog, presentations: seq<Page>)
    requires BuildPresentations(Decks(c)) == Success(presentations)
    ensures forall q :: q in presentations ==> q.kind == PresentationPage
    ensures forall p :: p in presentations <==>
              exists t :: t in c.talks && BuildsPresentation(t) && BuildPresentation(t) == Success(p)
  {
    PresentationPagesOf(Decks(c), presentations);
  }

  /**
   * Page selection, for the task as written and for the corrected one alike:
   * an essay page is built exactly for the talks with a slug and an essay, a
   * presentation page exactly for those with a slug and a non-external
   * presentation, a video page exactly for those with a slug and a YouTube
   * video, and a workshop page exactly for the workshops with a slug and an
   * essay.
   */
  lemma DefaultTaskSelectsPages(c: Catalog, pages: seq<Page>)
    requires DefaultTask(c) == Success(pages) || CorrectedDefaultTask(c) == Success(pages)
    ensures forall t :: BuildEssay(t) in pages <==> t in c.talks && BuildsEssay(t)
    ensures forall t :: BuildVideo(t) in pages <==> t in c.talks && BuildsVideo(t)
    ensures forall w :: BuildWorkshop(w) in pages <==> w in c.workshops && BuildsWorkshop(w)
    ensures forall p :: p in pages && p.kind == PresentationPage <==>
              exists t :: t in c.talks && BuildsPresentation(t) && BuildPresentation(t) == Success(p)
  {
    var presentations := BuildPresentations(Decks(c)).value;
    var talkStubs := if DefaultTask(c) == Success(pages) then TalkStubs(c) else SluggedTalkStubs(c);
    assert pages == EventPages(c, talkStubs, presentations);
    StubsAreStubs("talks", c.talks);
    StubsAreStubs("talks", Filter(c.talks, Slugged));
    PresentationPagesOfDecks(c, presentations);
    forall t ensures BuildEssay(t) in pages <==> t in c.talks && BuildsEssay(t) {
      EventPagesByKind(c, talkStubs, presentations, BuildEssay(t));
    }
    forall t ensures BuildVideo(t) in pages <==> t in c.talks && BuildsVideo(t) {
      EventPagesByKind(c, talkStubs, presentations, BuildVideo(t));
    }
    forall w ensures BuildWorkshop(w) in pages <==> w in c.workshops && BuildsWorkshop(w) {
      EventPagesByKind(c, talkStubs, presentations, BuildWorkshop(w));
    }
    forall p ensures p in pages && p.kind == PresentationPage <==>
                     exists t :: t in c.talks && BuildsPresentation(t) && BuildPresentation(t) == Success(p) {
      EventPagesByKind(c, talkStubs, presentations, p);
    }
  }

  /**
   * The corrected task fails exactly when the task as written does, and
   * differs from it only in its leading talk stubs: the stubs it keeps are
   * exactly the as-written stubs of slugged talks.
   */
  lemma CorrectedTaskAgrees(c: Catalog)
    ensures CorrectedDefaultTask(c).Failure? <==> DefaultTask(c).Failure?
    ensures CorrectedDefaultTask(c).Failure? ==> CorrectedDefaultTask(c).error == DefaultTask(c).error
    ensures CorrectedDefaultTask(c).Success? ==>
              DefaultTask(c).value[|TalkStubs(c)|..] == CorrectedDefaultTask(c).value[|SluggedTalkStubs(c)|..]
    ensures forall p :: p in SluggedTalkStubs(c) <==>
              exists t :: t in c.talks && Slugged(t) && RedirectEvent("talks", t) == Some(p)
  {
  }

  /** No two slugged events of the list share a slug. */
  predicate DistinctSlugs(s: seq<Event>) {
    forall i, j :: 0 <= i < j < |s| && Truthy(s[i].slug) ==> s[i].slug != s[j].slug
  }

  lemma {:induction false} SubsequenceMembers(r: seq<Event>, s: seq<Event>)
    requires IsSubsequence(r, s)
    ensures forall e :: e in r ==> e in s
    decreases |s|
  {
    if r != [] && s != [] {
      if r[0] == s[0] && IsSubsequence(r[1..], s[1..]) {
        SubsequenceMembers(r[1..], s[1..]);
        assert forall e :: e in r ==> e == r[0] || e in r[1..];
      } else {
        SubsequenceMembers(r, s[1..]);
      }
    }
  }

  lemma {:induction false} SubsequenceKeepsDistinctSlugs(r: seq<Event>, s: seq<Event>)
    requires IsSubsequence(r, s) && DistinctSlugs(s)
    ensures DistinctSlugs(r)
    decreases |s|
  {
    if r != [] && s != [] {
      assert DistinctSlugs(s[1..]) by {
        forall i, j | 0 <= i < j < |s[1..]| && Truthy(s[1..][i].slug) ensures s[1..][i].slug != s[1..][j].slug {
          assert s[1..][i] == s[i + 1] && s[1..][j] == s[j + 1];
        }
      }
      if r[0] == s[0] && IsSubsequence(r[1..], s[1..]) {
        SubsequenceKeepsDistinctSlugs(r[1..], s[1..]);
        SubsequenceMembers(r[1..], s[1..]);
        forall i, j | 0 <= i < j < |r| && Truthy(r[i].slug) ensures r[i].slug != r[j].slug {
          if i == 0 {
            assert r[j] == r[1..][j - 1];
            assert r[1..][j - 1] in r[1..];
            var k :| 0 <= k < |s[1..]| && s[1..][k] == r[j];
            assert s[k + 1] == r[j];
          } else {
            assert r[i] == r[1..][i - 1] && r[j] == r[1..][j - 1];
          }
        }
      } else {
        SubsequenceKeepsDistinctSlugs(r, s[1..]);
      }
    }
  }

  lemma StubPathInjective(prefix: string, a: string, b: string)
    requires StubPath(prefix, Some(a)) == StubPath(prefix, Some(b))
    ensures a == b
  {
    var x, y := "build/" + prefix + "/", "/index.html";
    assert StubPath(prefix, Some(a)) == x + a + y;
    assert StubPath(prefix, Some(b)) == x + b + y;
    assert |a| == |b|;
    assert a == (x + a + y)[|x|..|x| + |a|];
    assert b == (x + b + y)[|x|..|x| + |b|];
  }

  /** No two pages are written to the same path. */
  predicate DistinctDests(pages: seq<Page>) {
    forall i, j :: 0 <= i < j < |pages| ==> pages[i].dest != pages[j].dest
  }

  /** Redirect stubs of slugged events with distinct slugs have distinct paths. */
  lemma {:induction false} StubPathsDistinct(prefix: string, s: seq<Event>)
    requires forall e :: e in s ==> Truthy(e.slug)
    requires DistinctSlugs(s)
    ensures DistinctDests(RedirectStubs(prefix, s))
    decreases |s|
  {
    if s != [] {
      var rest := RedirectStubs(prefix, s[1..]);
      assert DistinctSlugs(s[1..]) by {
        forall i, j | 0 <= i < j < |s[1..]| && Truthy(s[1..][i].slug) ensures s[1..][i].slug != s[1..][j].slug {
          assert s[1..][i] == s[i + 1] && s[1..][j] == s[j + 1];
        }
      }
      StubPathsDistinct(prefix, s[1..]);
      assert DistinctDests(rest);
      match RedirectEvent(prefix, s[0])
      case None =>
      case Some(p) =>
        var stubs := [p] + rest;
        forall i, j | 0 <= i < j < |stubs| ensures stubs[i].dest != stubs[j].dest {
          if i == 0 {
            assert stubs[j] in rest;
            var e :| e in s[1..] && RedirectEvent(prefix, e) == Some(stubs[j]);
            var k :| 0 <= k < |s[1..]| && s[1..][k] == e;
            assert s[k + 1] == e;
            if stubs[0].dest == stubs[j].dest {
              StubPathInjective(prefix, s[0].slug.value, e.slug.value);
            }
          } else {
            assert stubs[i] == rest[i - 1] && stubs[j] == rest[j - 1];
          }
        }
        assert RedirectStubs(prefix, s) == stubs;
    }
  }

  /**
   * With slugs unique per kind, the stubs the corrected task writes for one
   * kind never share a path.
   */
  lemma SluggedStubPathsDistinct(prefix: string, events: seq<Event>)
    requires DistinctSlugs(events)
    ensures var stubs := RedirectStubs(prefix, Filter(events, Slugged));
      && DistinctDests(stubs)
      && (forall p :: p in stubs ==> exists e :: e in events && Truthy(e.slug) && p.dest == StubPath(prefix, e.slug))
  {
    SubsequenceKeepsDistinctSlugs(Filter(events, Slugged), events);
    StubPathsDistinct(prefix, Filter(events, Slugged));
  }

  /**
   * In the corrected task, talks with distinct slugs get talk stubs at
   * distinct paths, each in the directory of a slugged talk.
   */
  lemma CorrectedTalkStubsDistinct(c: Catalog, pages: seq<Page>)
    requires CorrectedDefaultTask(c) == Success(pages)
    requires DistinctSlugs(c.talks)
    ensures var stubs := pages[..|SluggedTalkStubs(c)|];
      && DistinctDests(stubs)
      && (forall p :: p in stubs ==> exists t :: t in c.talks && Truthy(t.slug) && p.dest == StubPath("talks", t.slug))
  {
    assert pages[..|SluggedTalkStubs(c)|] == SluggedTalkStubs(c);
    SluggedStubPathsDistinct("talks", c.talks);
  }

  /** A talk with no slug whose only channel is an external link. */
  function UnsluggedExternalTalk(title: string, link: string): Event {
    Event(title, None, Some(0), None, None, false, None, None, Some(External(link, title)), None, None, None, None, None)
  }

  /**
   * As written, gulpfile.js:21-23 maps `redirectEvent("talks")` over every
   * talk, slugged or not: for a catalog of two unslugged talks with external
   * links, the task succeeds and writes two stubs at
   * `build/talks/undefined/index.html` with different destinations, so one
   * overwrites the other.
   */
  lemma UnsluggedTalkStubsCollide()
    ensures var c := Catalog([UnsluggedExternalTalk("a", "https://a.example"),
                              UnsluggedExternalTalk("b", "https://b.example")], []);
      && DefaultTask(c).Success?
      && |DefaultTask(c).value| == 2
      && DefaultTask(c).value[0].dest == DefaultTask(c).value[1].dest == "build/talks/undefined/index.html"
      && DefaultTask(c).value[0].data != DefaultTask(c).value[1].data
  {
    var talks := [UnsluggedExternalTalk("a", "https://a.example"), UnsluggedExternalTalk("b", "https://b.example")];
    var c := Catalog(talks, []);
    UnsluggedCatalogTask(c);
    UnsluggedExternalStubs(talks);
  }

  /** With no slugged event, the task as written writes only the talks' stubs. */
  lemma UnsluggedCatalogTask(c: Catalog)
    requires forall t :: t in c.talks ==> !Truthy(t.slug)
    requires forall w :: w in c.workshops ==> !Truthy(w.slug)
    ensures DefaultTask(c) == Success(TalkStubs(c))
  {
    FilterNone(c.talks, BuildsPresentation);
    FilterNone(c.talks, BuildsEssay);
    FilterNone(c.talks, BuildsVideo);
    FilterNone(c.workshops, Slugged);
    FilterNone(c.workshops, BuildsWorkshop);
    assert SelectedPages(c, []) == [];
    assert EventPages(c, TalkStubs(c), []) == TalkStubs(c);
  }

  /** Filtering keeps nothing when no element passes. */
  lemma FilterNone(s: seq<Event>, keep: Event -> bool)
    requires forall e :: e in s ==> !keep(e)
    ensures Filter(s, keep) == []
  {
  }

  /** The stubs of the two unslugged external talks. */
  lemma UnsluggedExternalStubs(talks: seq<Event>)
    requires talks == [UnsluggedExternalTalk("a", "https://a.example"), UnsluggedExternalTalk("b", "https://b.example")]
    ensures var stubs := RedirectStubs("talks", talks);
      && |stubs| == 2
      && stubs[0].dest == stubs[1].dest == "build/talks/undefined/index.html"
      && stubs[0].data != stubs[1].data
  {
    assert StubPath("talks", None) == "build/talks/undefined/index.html" by {
      assert Interpolate(None) == "undefined";
    }
    assert talks[1..] == [talks[1]];
    assert talks[1..][1..] == [];
  }

  /**
   * `highlightCode(defaultLanguage)(code, language)`: the fence's language, or
   * the default when the fence names none. When that language is neither
   * loaded nor loadable (an absent one never is), the result is "" and
   * markdown-it shows the code unhighlighted.
   */
  function HighlightCode(code: string, language: string, defaultLanguage: Option<string>,
                         available: string -> bool, highlight: (string, string) -> string): (r: string)
    ensures language != "" && available(language) ==> r == highlight(code, language)
    ensures language != "" && !available(language) ==> r == ""
    ensures language == "" && defaultLanguage.Some? && available(defaultLanguage.value) ==>
              r == highlight(code, defaultLanguage.value)
    ensures language == "" && (defaultLanguage.None? || !available(defaultLanguage.value)) ==> r == ""
  {
    var languageToUse := if language != "" then Some(language) else defaultLanguage;
    if languageToUse.Some? && available(languageToUse.value) then highlight(code, languageToUse.value) else ""
  }
}
