/**
 * The development server's data logic (src/server.js): `loadDatabase`, which
 * keeps previous talks only when they have a slug and previous workshops
 * only when they are hosted elsewhere, and the bodies of the `/talks/...`
 * and `/workshops/:slug` routes: the slug lookup, the dispatch on the
 * presentation type and the description and arguments of the cached render.
 */
module Server {
  import opened Wrappers
  import opened Events
  import opened Catalog
  import opened MemoCache

  datatype Request =
    | TalkRoot(slug: string)          // GET /talks/:slug
    | TalkEssay(slug: string)         // GET /talks/:slug/essay
    | TalkPresentation(slug: string)  // GET /talks/:slug/presentation
    | TalkVideo(slug: string)         // GET /talks/:slug/video
    | WorkshopPage(slug: string)      // GET /workshops/:slug

  /** An argument of a cached render: the default highlighting language, or the page data. */
  datatype Arg = Language(language: Option<string>) | Data(event: Event)

  /** Why a request ends in a 500. */
  datatype Fault =
    | LoadFailed(error: LoadError)  // loadDatabase threw
    | UnknownPresentation           // context.throw(500, 'Unknown presentation type.')
    | MissingCode                   // `talk.code.language` on a talk without `code`: a TypeError

  /**
   * The outcome of a request. A render names its pug template, the markdown
   * view it compiles (if any) and the cache key it is looked up under.
   */
  datatype Response =
    | NotFound
    | ServerError(fault: Fault)
    | Render(template: string, markdown: Option<string>, key: Key<Arg>)
    | Redirect(status: int, location: string)

  /** The single fixed key the database is cached under (src/server.js:18). */
  const DatabaseKey: Key<Arg> := Key("database", [])

  /** The previous-list tests of the server: talks need a slug, workshops an external home. */
  predicate KeepPreviousTalk(e: Event) {
    Truthy(e.slug)
  }

  predicate KeepPreviousWorkshop(e: Event) {
    e.external.Some?
  }

  /** `loadDatabase`: normalise both lists, then derive the four lists around `today`. */
  function LoadDatabase(raw: RawCatalog, today: int, format: DateFormatter): (r: Result<Database, LoadError>)
    ensures r.Success? <==> AllTimestamped(raw.talks.GetOr([])) && AllTimestamped(raw.workshops.GetOr([]))
    ensures r.Failure? ==> LoadCatalog(raw, format) == Failure(r.error)
    ensures r.Success? ==> LoadCatalog(raw, format) == Success(Catalog(r.value.talks, r.value.workshops))
  {
    match LoadCatalog(raw, format)
    case Failure(e) => Failure(e)
    case Success(c) => Success(Partition(c, today, KeepPreviousTalk, KeepPreviousWorkshop))
  }

  /**
   * The server's four lists: exact membership, original order, disjointness,
   * and every slugged talk in exactly one of upcoming and previous talks.
   */
  lemma LoadDatabaseLists(raw: RawCatalog, today: int, format: DateFormatter)
    requires LoadDatabase(raw, today, format).Success?
    ensures var db := LoadDatabase(raw, today, format).value;
      && (forall e :: e in db.upcomingTalks <==> e in db.talks && IsSameOrAfter(e, today))
      && (forall e :: e in db.previousTalks <==> e in db.talks && IsBefore(e, today) && Truthy(e.slug))
      && (forall e :: e in db.upcomingWorkshops <==> e in db.workshops && IsSameOrAfter(e, today))
      && (forall e :: e in db.previousWorkshops <==> e in db.workshops && IsBefore(e, today) && e.external.Some?)
      && IsSubsequence(db.upcomingTalks, db.talks) && IsSubsequence(db.previousTalks, db.talks)
      && IsSubsequence(db.upcomingWorkshops, db.workshops) && IsSubsequence(db.previousWorkshops, db.workshops)
      && (forall e :: !(e in db.upcomingTalks && e in db.previousTalks))
      && (forall e :: !(e in db.upcomingWorkshops && e in db.previousWorkshops))
      && (forall e :: multiset(db.upcomingTalks)[e] == if IsSameOrAfter(e, today) then multiset(db.talks)[e] else 0)
      && (forall e :: multiset(db.previousTalks)[e] ==
                      if IsBefore(e, today) && Truthy(e.slug) then multiset(db.talks)[e] else 0)
      && (forall e :: multiset(db.upcomingWorkshops)[e] ==
                      if IsSameOrAfter(e, today) then multiset(db.workshops)[e] else 0)
      && (forall e :: multiset(db.previousWorkshops)[e] ==
                      if IsBefore(e, today) && e.external.Some? then multiset(db.workshops)[e] else 0)
      && (forall e :: e in db.talks && Truthy(e.slug) ==>
            multiset(db.upcomingTalks)[e] + multiset(db.previousTalks)[e] == multiset(db.talks)[e])
  {
    var c := LoadCatalog(raw, format).value;
    assert AllTimestamped(c.talks) by {
      forall i | 0 <= i < |c.talks| ensures HasTimestamp(c.talks[i]) {
        assert DatedCopy(c.talks[i], raw.talks.GetOr([])[i], format);
      }
    }
    PartitionMembers(c, today, KeepPreviousTalk, KeepPreviousWorkshop);
    PartitionCovers(c.talks, today, KeepPreviousTalk);
  }

  /** The three lookups of the routes. */
  datatype MatchRule = BySlug | WithPresentation | WithYouTubeVideo

  /** `t.slug === slug`, with the further conditions of the presentation and video routes. */
  predicate Matches(m: MatchRule, t: Event, slug: string) {
    && t.slug == Some(slug)
    && (m == WithPresentation ==> t.presentation.Some?)
    && (m == WithYouTubeVideo ==> t.video.Some? && t.video.value.kind == YouTube)
  }

  /** s[i] is the event `Array.prototype.find` returns. */
  predicate FirstMatch(s: seq<Event>, m: MatchRule, slug: string, i: int) {
    && 0 <= i < |s|
    && Matches(m, s[i], slug)
    && forall j :: 0 <= j < i ==> !Matches(m, s[j], slug)
  }

  function FindEvent(s: seq<Event>, m: MatchRule, slug: string): (r: Option<Event>)
    ensures r.None? <==> forall e :: e in s ==> !Matches(m, e, slug)
    ensures r.Some? ==> exists i :: FirstMatch(s, m, slug, i) && s[i] == r.value
  {
    Find(s, e => Matches(m, e, slug))
  }

  /** The markdown view of a talk: `talks/${talk.date}--${slug}.md`. */
  function MarkdownView(t: Event, slug: string): string {
    "talks/" + Interpolate(t.date) + "--" + slug + ".md"
  }

  /** GET /talks/:slug: a permanent redirect to the essay, without looking at the data. */
  function TalkRootRoute(slug: string): (r: Response)
    ensures r.Redirect? && r.status == 301
    ensures r.location == "/talks/" + slug + "/essay"
  {
    Redirect(301, "/talks/" + slug + "/essay")
  }

  /**
   * GET /talks/:slug/essay: the first talk with the slug; its essay is
   * rendered with the talk's default language, and a talk with no `code`
   * fails before the render.
   */
  function EssayRoute(talks: seq<Event>, slug: string): (r: Response)
    ensures r.NotFound? <==> forall t :: t in talks ==> t.slug != Some(slug)
    ensures !r.NotFound? ==>
              exists i :: FirstMatch(talks, BySlug, slug, i)
                && (talks[i].code.None? ==> r == ServerError(MissingCode))
                && (talks[i].code.Some? ==>
                      r == Render("essay.pug", Some(MarkdownView(talks[i], slug)),
                                  Key("essay.pug & " + MarkdownView(talks[i], slug),
                                      [Language(talks[i].code.value.language), Data(talks[i])])))
  {
    match FindEvent(talks, BySlug, slug)
    case None => NotFound
    case Some(t) =>
      if t.code.None? then ServerError(MissingCode)
      else
        var md := MarkdownView(t, slug);
        Render("essay.pug", Some(md), Key("essay.pug & " + md, [Language(t.code.value.language), Data(t)]))
  }

  /**
   * GET /talks/:slug/presentation: the first talk with the slug and a
   * presentation. An elm deck is a plain template; a reveal.js deck compiles
   * the talk's markdown; every other type, external included, is a 500.
   */
  function PresentationRoute(talks: seq<Event>, slug: string): (r: Response)
    ensures r.NotFound? <==> forall t :: t in talks ==> !(t.slug == Some(slug) && t.presentation.Some?)
    ensures !r.NotFound? ==>
              exists i :: FirstMatch(talks, WithPresentation, slug, i)
                && var t := talks[i];
                && (t.presentation.value.kind == Elm ==>
                      r == Render("presentation-elm.pug", None, Key("presentation-elm.pug", [Data(t)])))
                && (t.presentation.value.kind == RevealJs && t.code.None? ==> r == ServerError(MissingCode))
                && (t.presentation.value.kind == RevealJs && t.code.Some? ==>
                      r == Render("presentation-reveal.pug", Some(MarkdownView(t, slug)),
                                  Key("presentation-reveal.pug & " + MarkdownView(t, slug),
                                      [Language(t.code.value.language), Data(t)])))
                && (t.presentation.value.kind !in {Elm, RevealJs} ==> r == ServerError(UnknownPresentation))
  {
    match FindEvent(talks, WithPresentation, slug)
    case None => NotFound
    case Some(t) =>
      match t.presentation.value.kind
      case Elm => Render("presentation-elm.pug", None, Key("presentation-elm.pug", [Data(t)]))
      case RevealJs =>
        if t.code.None? then ServerError(MissingCode)
        else
          var md := MarkdownView(t, slug);
          Render("presentation-reveal.pug", Some(md),
                 Key("presentation-reveal.pug & " + md, [Language(t.code.value.language), Data(t)]))
      case _ => ServerError(UnknownPresentation)
  }

  /** GET /talks/:slug/video: only a YouTube video has a page. */
  function VideoRoute(talks: seq<Event>, slug: string): (r: Response)
    ensures r.NotFound? <==>
              forall t :: t in talks ==> !(t.slug == Some(slug) && t.video.Some? && t.video.value.kind == YouTube)
    ensures !r.NotFound? ==>
              exists i :: FirstMatch(talks, WithYouTubeVideo, slug, i)
                && r == Render("video.pug", None, Key("video.pug", [Data(talks[i])]))
  {
    match FindEvent(talks, WithYouTubeVideo, slug)
    case None => NotFound
    case Some(t) => Render("video.pug", None, Key("video.pug", [Data(t)]))
  }

  /** GET /workshops/:slug: the workshop's own template, `events/${slug}.pug`. */
  function WorkshopRoute(workshops: seq<Event>, slug: string): (r: Response)
    ensures r.NotFound? <==> forall w :: w in workshops ==> w.slug != Some(slug)
    ensures !r.NotFound? ==>
              exists i :: FirstMatch(workshops, BySlug, slug, i)
                && r == Render("events/" + slug + ".pug", None, Key("events/" + slug + ".pug", [Data(workshops[i])]))
  {
    match FindEvent(workshops, BySlug, slug)
    case None => NotFound
    case Some(w) => Render("events/" + slug + ".pug", None, Key("events/" + slug + ".pug", [Data(w)]))
  }

  /**
   * One request. Every route but the talk root loads the database first, and
   * a load that throws is a 500.
   */
  function Dispatch(req: Request, loaded: Result<Database, LoadError>): (r: Response)
    ensures req.TalkRoot? ==> r == TalkRootRoute(req.slug)
    ensures !req.TalkRoot? && loaded.Failure? ==> r == ServerError(LoadFailed(loaded.error))
    ensures r.Redirect? <==> req.TalkRoot?
    ensures loaded.Success? && req.TalkEssay? ==> r == EssayRoute(loaded.value.talks, req.slug)
    ensures loaded.Success? && req.TalkPresentation? ==> r == PresentationRoute(loaded.value.talks, req.slug)
    ensures loaded.Success? && req.TalkVideo? ==> r == VideoRoute(loaded.value.talks, req.slug)
    ensures loaded.Success? && req.WorkshopPage? ==> r == WorkshopRoute(loaded.value.workshops, req.slug)
  {
    match req
    case TalkRoot(slug) => TalkRootRoute(slug)
    case _ =>
      match loaded
      case Failure(e) => ServerError(LoadFailed(e))
      case Success(db) =>
        match req
        case TalkEssay(slug) => EssayRoute(db.talks, slug)
        case TalkPresentation(slug) => PresentationRoute(db.talks, slug)
        case TalkVideo(slug) => VideoRoute(db.talks, slug)
        case WorkshopPage(slug) => WorkshopRoute(db.workshops, slug)
  }

  /**
   * The render descriptions the routes build: a markdown page is described
   * by its template and its view, a plain page by its template alone, and the
   * plain templates ("presentation-elm.pug", "video.pug", "events/....pug")
   * cannot be read as a markdown page's description.
   */
  predicate WellKeyed(r: Response) {
    && r.Render?
    && (|| (r.template == "essay.pug" && r.markdown.Some? && r.key.description == "essay.pug & " + r.markdown.value)
        || (r.template == "presentation-reveal.pug" && r.markdown.Some?
            && r.key.description == "presentation-reveal.pug & " + r.markdown.value)
        || (&& r.markdown.None? && r.key.description == r.template
            && (|| r.template == "presentation-elm.pug"
                || r.template == "video.pug"
                || (|r.template| >= 11 && r.template[..7] == "events/" && r.template[|r.template| - 4..] == ".pug"))))
  }

  /** Every render of a route is described as WellKeyed says. */
  lemma RenderIsWellKeyed(req: Request, loaded: Result<Database, LoadError>)
    ensures Dispatch(req, loaded).Render? ==> WellKeyed(Dispatch(req, loaded))
  {
  }

  /** Among well-keyed renders, the description fixes the template and the markdown view. */
  lemma KeyFixesPage(r1: Response, r2: Response)
    requires WellKeyed(r1) && WellKeyed(r2) && r1.key == r2.key
    ensures r1.template == r2.template && r1.markdown == r2.markdown
  {
    var d := r1.key.description;
    if r1.template == "essay.pug" || r2.template == "essay.pug" {
      assert d[0] == 'e' && d[1] == 's';
      assert r1.markdown.value == d[12..] == r2.markdown.value;
    } else if r1.template == "presentation-reveal.pug" || r2.template == "presentation-reveal.pug" {
      assert d[0] == 'p' && d[13] == 'r';
      assert r1.markdown.value == d[26..] == r2.markdown.value;
    }
  }

  /**
   * The database and the pages share one cache (src/server.js:17-18): no
   * render is looked up under the database's key.
   */
  lemma RenderKeyIsNotDatabaseKey(req: Request, loaded: Result<Database, LoadError>)
    ensures Dispatch(req, loaded).Render? ==> Dispatch(req, loaded).key != DatabaseKey
  {
    var r := Dispatch(req, loaded);
    if r.Render? {
      RenderIsWellKeyed(req, loaded);
      assert r.key.description[0] != 'd';
    }
  }

  /**
   * The cache returns whatever was rendered first under a key, so a key must
   * fix what is rendered: whatever the data and the requests, two renders
   * under the same key use the same template and the same markdown view.
   */
  lemma SameKeySamePage(req1: Request, loaded1: Result<Database, LoadError>,
                        req2: Request, loaded2: Result<Database, LoadError>)
    requires Dispatch(req1, loaded1).Render? && Dispatch(req2, loaded2).Render?
    requires Dispatch(req1, loaded1).key == Dispatch(req2, loaded2).key
    ensures Dispatch(req1, loaded1).template == Dispatch(req2, loaded2).template
    ensures Dispatch(req1, loaded1).markdown == Dispatch(req2, loaded2).markdown
  {
    RenderIsWellKeyed(req1, loaded1);
    RenderIsWellKeyed(req2, loaded2);
    KeyFixesPage(Dispatch(req1, loaded1), Dispatch(req2, loaded2));
  }
}
