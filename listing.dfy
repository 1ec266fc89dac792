/**
 * The home page's event listing (src/assets/pages/index.js): the browser
 * fetches the catalog, splits each kind into upcoming and previous events
 * with no further test, and lays each event out as an article with a
 * header, optional partner, details, date and an ordered list of links.
 * The DOM is modelled as the sequence of nodes appended to each container.
 */
module Listing {
  import opened Wrappers
  import opened Events
  import opened Catalog

  /** An anchor: the `href` it is given and its text. */
  datatype LinkItem = LinkItem(href: string, text: string)

  /** The article's `h3`: a link when the event has somewhere to go, plain text otherwise. */
  datatype Header = HeaderLink(href: string, text: string) | HeaderText(text: string)

  /**
   * One `article.event`. `partner` is the "with ..." paragraph, `details`
   * and `date` the texts of the two paragraphs, `links` the `ul.links` list.
   */
  datatype Article = Article(
    header: Header,
    partner: Option<LinkItem>,
    details: string,
    date: string,
    links: Option<seq<LinkItem>>)

  /** A child of a section container. */
  datatype Node = Heading(text: string) | Paragraph(text: string) | EventArticle(article: Article)

  /** What the `.upcoming-events` section ends up showing. */
  datatype Page = Sections(sections: seq<seq<Node>>) | ErrorMessage(text: string)

  const FailureMessage := "I couldn't get information about upcoming events. I recommend you just tweet Samir instead."

  /**
   * Setting `textContent` to an absent value leaves the element empty.
   */
  function TextOf(s: Option<string>): (r: string)
    ensures s.Some? ==> r == s.value
    ensures s.None? ==> r == ""
  {
    s.GetOr("")
  }

  /** `event.link || `/${prefix}/${event.slug}``, shown when either is truthy. */
  function HeaderOf(prefix: string, e: Event): (r: Header)
    ensures r.HeaderLink? <==> Truthy(e.link) || Truthy(e.slug)
    ensures r.text == e.title
    ensures r.HeaderLink? && Truthy(e.link) ==> r.href == e.link.value
    ensures r.HeaderLink? && !Truthy(e.link) ==> r.href == "/" + prefix + "/" + e.slug.value
  {
    if Truthy(e.link) then HeaderLink(e.link.value, e.title)
    else if Truthy(e.slug) then HeaderLink("/" + prefix + "/" + e.slug.value, e.title)
    else HeaderText(e.title)
  }

  /** `event.event && event.location ? `${event.event} @ ${event.location}` : event.event || event.location`. */
  function Details(e: Event): (r: string)
    ensures Truthy(e.eventName) && Truthy(e.location) ==> r == e.eventName.value + " @ " + e.location.value
    ensures Truthy(e.eventName) && !Truthy(e.location) ==> r == e.eventName.value
    ensures !Truthy(e.eventName) ==> r == TextOf(e.location)
  {
    if Truthy(e.eventName) && Truthy(e.location) then e.eventName.value + " @ " + e.location.value
    else if Truthy(e.eventName) then e.eventName.value
    else TextOf(e.location)
  }

  function EssayLink(prefix: string, e: Event): LinkItem {
    LinkItem("/" + prefix + "/" + Interpolate(e.slug) + "/essay", "Read as an essay")
  }

  /** An external presentation links to its own `link`, any other to the site's page. */
  function PresentationLink(prefix: string, e: Event): (r: LinkItem)
    requires e.presentation.Some?
    ensures r.text == "Browse the presentation"
    ensures e.presentation.value.kind == ExternalPresentation ==> r.href == Interpolate(e.presentation.value.link)
    ensures e.presentation.value.kind != ExternalPresentation ==>
              r.href == "/" + prefix + "/" + Interpolate(e.slug) + "/presentation"
  {
    if e.presentation.value.kind == ExternalPresentation then
      LinkItem(Interpolate(e.presentation.value.link), "Browse the presentation")
    else
      LinkItem("/" + prefix + "/" + Interpolate(e.slug) + "/presentation", "Browse the presentation")
  }

  /** An external video links to its own `link`, any other to the site's page. */
  function VideoLink(prefix: string, e: Event): (r: LinkItem)
    requires e.video.Some?
    ensures r.text == "Watch the video"
    ensures e.video.value.kind == ExternalVideo ==> r.href == Interpolate(e.video.value.link)
    ensures e.video.value.kind != ExternalVideo ==> r.href == "/" + prefix + "/" + Interpolate(e.slug) + "/video"
  {
    if e.video.value.kind == ExternalVideo then LinkItem(Interpolate(e.video.value.link), "Watch the video")
    else LinkItem("/" + prefix + "/" + Interpolate(e.slug) + "/video", "Watch the video")
  }

  function Count(b: bool): nat {
    if b then 1 else 0
  }

  /**
   * The `ul.links` list. It exists when the event has a slug, an external
   * home, a presentation or a video; its items come in the order essay
   * (for every slugged event, essay or not), presentation, video, external.
   */
  function EventLinks(prefix: string, e: Event): (r: Option<seq<LinkItem>>)
    ensures r.Some? <==> Truthy(e.slug) || e.external.Some? || e.presentation.Some? || e.video.Some?
    ensures r.Some? ==>
              var essay, deck, video := Count(Truthy(e.slug)), Count(e.presentation.Some?), Count(e.video.Some?);
              && |r.value| == essay + deck + video + Count(e.external.Some?)
              && (Truthy(e.slug) ==> r.value[0] == EssayLink(prefix, e))
              && (e.presentation.Some? ==> r.value[essay] == PresentationLink(prefix, e))
              && (e.video.Some? ==> r.value[essay + deck] == VideoLink(prefix, e))
              && (e.external.Some? ==>
                    r.value[essay + deck + video] == LinkItem(e.external.value.link, e.external.value.text))
  {
    if Truthy(e.slug) || e.external.Some? || e.presentation.Some? || e.video.Some? then
      Some((if Truthy(e.slug) then [EssayLink(prefix, e)] else [])
           + (if e.presentation.Some? then [PresentationLink(prefix, e)] else [])
           + (if e.video.Some? then [VideoLink(prefix, e)] else [])
           + (if e.external.Some? then [LinkItem(e.external.value.link, e.external.value.text)] else []))
    else None
  }

  /** `eventElement(prefix, event)`. */
  function EventElement(prefix: string, e: Event): (r: Article)
    ensures r.header == HeaderOf(prefix, e)
    ensures r.partner.Some? <==> e.partner.Some?
    ensures r.partner.Some? ==> r.partner.value == LinkItem(e.partner.value.link, e.partner.value.name)
    ensures r.details == Details(e) && r.date == TextOf(e.formattedDate)
    ensures r.links == EventLinks(prefix, e)
  {
    Article(
      HeaderOf(prefix, e),
      if e.partner.Some? then Some(LinkItem(e.partner.value.link, e.partner.value.name)) else None,
      Details(e),
      TextOf(e.formattedDate),
      EventLinks(prefix, e))
  }

  /** The nodes after the header: one article per event, in order. */
  predicate ListsEvents(prefix: string, events: seq<Event>, nodes: seq<Node>, offset: nat) {
    && |nodes| == offset + |events|
    && forall i :: 0 <= i < |events| ==> nodes[offset + i] == EventArticle(EventElement(prefix, events[i]))
  }

  /** An upcoming section always has its header; an empty one says there is nothing. */
  predicate UpcomingSection(title: string, events: seq<Event>, nodes: seq<Node>) {
    && |nodes| > 0 && nodes[0] == Heading("Upcoming " + title)
    && (|events| == 0 ==> nodes == [Heading("Upcoming " + title), Paragraph("No upcoming " + title + ".")])
    && (|events| > 0 ==> ListsEvents(title, events, nodes, 1))
  }

  /** A previous section is empty, without a header, when there is nothing to show. */
  predicate PreviousSection(title: string, events: seq<Event>, nodes: seq<Node>) {
    && (|events| == 0 ==> nodes == [])
    && (|events| > 0 ==> |nodes| > 0 && nodes[0] == Heading("Previous " + title) && ListsEvents(title, events, nodes, 1))
  }

  /** Appends one article per event to the nodes a container already holds. */
  method AppendEvents(prefix: string, events: seq<Event>, start: seq<Node>) returns (nodes: seq<Node>)
    ensures ListsEvents(prefix, events, nodes, |start|)
    ensures nodes[..|start|] == start
  {
    nodes := start;
    var i := 0;
    while i < |events|
      invariant 0 <= i <= |events|
      invariant ListsEvents(prefix, events[..i], nodes, |start|)
      invariant nodes[..|start|] == start
    {
      nodes := nodes + [EventArticle(EventElement(prefix, events[i]))];
      assert events[..i + 1][i] == events[i];
      i := i + 1;
    }
    assert events[..i] == events;
  }

  /** `upcoming(title, events)`. */
  method Upcoming(title: string, events: seq<Event>) returns (nodes: seq<Node>)
    ensures UpcomingSection(title, events, nodes)
  {
    nodes := [Heading("Upcoming " + title)];
    if |events| == 0 {
      nodes := nodes + [Paragraph("No upcoming " + title + ".")];
    } else {
      nodes := AppendEvents(title, events, nodes);
    }
  }

  /** `previous(title, events)`. */
  method Previous(title: string, events: seq<Event>) returns (nodes: seq<Node>)
    ensures PreviousSection(title, events, nodes)
  {
    nodes := [];
    if |events| > 0 {
      nodes := AppendEvents(title, events, [Heading("Previous " + title)]);
    }
  }

  /** The browser's split keeps every earlier event. */
  predicate KeepAll(e: Event) {
    true
  }

  /**
   * With no further test, upcoming and previous split a timestamped list
   * exactly: each event is in one of the two, never both, as often as in the
   * list, and the two are together as long as the list.
   */
  lemma SplitExactly(s: seq<Event>, today: int)
    requires AllTimestamped(s)
    ensures var up, prev := UpcomingOf(s, today), PreviousOf(s, today, KeepAll);
      && (forall e :: e in s ==> (e in up <==> e !in prev))
      && (forall e :: e in s ==> multiset(up)[e] + multiset(prev)[e] == multiset(s)[e])
      && |up| + |prev| == |s|
  {
    var up, prev := UpcomingOf(s, today), PreviousOf(s, today, KeepAll);
    PartitionCovers(s, today, KeepAll);
    forall e | e in s ensures e in up <==> e !in prev {
      var i :| 0 <= i < |s| && s[i] == e;
      assert HasTimestamp(s[i]);
    }
    assert multiset(up) + multiset(prev) == multiset(s) by {
      forall e ensures (multiset(up) + multiset(prev))[e] == multiset(s)[e] {
        if e !in s {
          assert e !in up && e !in prev;
        }
      }
    }
    assert |multiset(up) + multiset(prev)| == |multiset(s)|;
  }

  /** The browser's four lists split each kind exactly. */
  lemma ListingPartition(c: Catalog, today: int)
    requires AllTimestamped(c.talks) && AllTimestamped(c.workshops)
    ensures var db := Partition(c, today, KeepAll, KeepAll);
      && (forall e :: e in c.talks ==> (e in db.upcomingTalks <==> e !in db.previousTalks))
      && (forall e :: e in c.workshops ==> (e in db.upcomingWorkshops <==> e !in db.previousWorkshops))
      && (forall e :: e in c.talks ==>
            multiset(db.upcomingTalks)[e] + multiset(db.previousTalks)[e] == multiset(c.talks)[e])
      && (forall e :: e in c.workshops ==>
            multiset(db.upcomingWorkshops)[e] + multiset(db.previousWorkshops)[e] == multiset(c.workshops)[e])
      && |db.upcomingTalks| + |db.previousTalks| == |c.talks|
      && |db.upcomingWorkshops| + |db.previousWorkshops| == |c.workshops|
  {
    SplitExactly(c.talks, today);
    SplitExactly(c.workshops, today);
  }

  /**
   * `run`: a failed fetch or a catalog that does not load shows the error
   * message; otherwise upcoming workshops, upcoming talks, previous
   * workshops and previous talks, in that order.
   */
  method Run(fetched: Result<RawCatalog, string>, today: int, format: DateFormatter) returns (page: Page)
    ensures page.ErrorMessage? <==> fetched.Failure? || LoadCatalog(fetched.value, format).Failure?
    ensures page.ErrorMessage? ==> page.text == FailureMessage
    ensures page.Sections? ==>
              var db := Partition(LoadCatalog(fetched.value, format).value, today, KeepAll, KeepAll);
              && |page.sections| == 4
              && UpcomingSection("workshops", db.upcomingWorkshops, page.sections[0])
              && UpcomingSection("talks", db.upcomingTalks, page.sections[1])
              && PreviousSection("workshops", db.previousWorkshops, page.sections[2])
              && PreviousSection("talks", db.previousTalks, page.sections[3])
  {
    if fetched.Failure? {
      return ErrorMessage(FailureMessage);
    }
    var loaded := LoadCatalog(fetched.value, format);
    if loaded.Failure? {
      return ErrorMessage(FailureMessage);
    }
    var db := Partition(loaded.value, today, KeepAll, KeepAll);
    var upcomingWorkshops := Upcoming("workshops", db.upcomingWorkshops);
    var upcomingTalks := Upcoming("talks", db.upcomingTalks);
    var previousWorkshops := Previous("workshops", db.previousWorkshops);
    var previousTalks := Previous("talks", db.previousTalks);
    page := Sections([upcomingWorkshops, upcomingTalks, previousWorkshops, previousTalks]);
  }
}
