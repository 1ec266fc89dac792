/**
 * Loading the catalog: `parseDates` (the same in gulpfile.js, src/server.js
 * and src/assets/pages/index.js), the `loadDatabase` step that normalises
 * both lists, and the split of each list into upcoming and previous events
 * around the start of the current day.
 */
module Catalog {
  import opened Wrappers
  import opened Events

  /** The two moment formats used: "YYYY-MM-DD" and "dddd Do MMMM, YYYY". */
  datatype DatePattern = IsoDate | LongDate

  /** Date formatting (moment) is not modelled: it is a parameter. */
  type DateFormatter = (int, DatePattern) -> string

  /** The catalog as read from database.yaml; either list may be missing. */
  datatype RawCatalog = RawCatalog(talks: Option<seq<Event>>, workshops: Option<seq<Event>>)

  /** The catalog after both lists have been normalised. */
  datatype Catalog = Catalog(talks: seq<Event>, workshops: seq<Event>)

  /** The only load error: an event without a timestamp, reported with the event itself. */
  datatype LoadError = MissingTimestamp(event: Event)

  /** The catalog with its four derived lists, as `loadDatabase` and `run` leave it. */
  datatype Database = Database(
    talks: seq<Event>,
    workshops: seq<Event>,
    upcomingWorkshops: seq<Event>,
    previousWorkshops: seq<Event>,
    upcomingTalks: seq<Event>,
    previousTalks: seq<Event>)

  predicate HasTimestamp(e: Event) {
    e.timestamp.Some?
  }

  predicate AllTimestamped(s: seq<Event>) {
    forall i :: 0 <= i < |s| ==> HasTimestamp(s[i])
  }

  /** A copy of the event with `date` and `formattedDate` added. */
  function WithDates(e: Event, format: DateFormatter): Event
    requires HasTimestamp(e)
  {
    e.(date := Some(format(e.timestamp.value, IsoDate)),
       formattedDate := Some(format(e.timestamp.value, LongDate)))
  }

  /**
   * `parseDates(events = [])`: fails with the first event that has no
   * timestamp; otherwise every event, in order, extended with its two
   * formatted dates and otherwise unchanged.
   */
  function ParseDates(events: Option<seq<Event>>, format: DateFormatter): (r: Result<seq<Event>, LoadError>)
    ensures events.None? ==> r == Success([])
    ensures r.Success? <==> AllTimestamped(events.GetOr([]))
    ensures r.Failure? ==> exists i :: 0 <= i < |events.value| && events.value[i] == r.error.event
                                       && !HasTimestamp(events.value[i])
                                       && AllTimestamped(events.value[..i])
    ensures r.Success? ==> DatedList(r.value, events.GetOr([]), format)
  {
    var s := events.GetOr([]);
    match FindIndex(s, e => !HasTimestamp(e))
    case Some(i) =>
      assert AllTimestamped(s[..i]) by {
        forall j | 0 <= j < i ensures HasTimestamp(s[..i][j]) {
          assert s[..i][j] == s[j];
        }
      }
      Failure(MissingTimestamp(s[i]))
    case None => Success(seq(|s|, i requires 0 <= i < |s| => WithDates(s[i], format)))
  }

  /** e2 is e with `date` and `formattedDate` taken from its timestamp, all else unchanged. */
  predicate DatedCopy(e2: Event, e: Event, format: DateFormatter) {
    && HasTimestamp(e)
    && e2.timestamp == e.timestamp
    && e2.date == Some(format(e.timestamp.value, IsoDate))
    && e2.formattedDate == Some(format(e.timestamp.value, LongDate))
    && e2.(date := e.date, formattedDate := e.formattedDate) == e
  }

  /** s is raw, element by element, with dates added. */
  predicate DatedList(s: seq<Event>, raw: seq<Event>, format: DateFormatter) {
    |s| == |raw| && forall i :: 0 <= i < |s| ==> DatedCopy(s[i], raw[i], format)
  }

  /**
   * `loadDatabase` in gulpfile.js: talks are normalised before workshops, so a
   * missing timestamp among the talks is the one reported.
   */
  function LoadCatalog(raw: RawCatalog, format: DateFormatter): (r: Result<Catalog, LoadError>)
    ensures r.Success? <==> AllTimestamped(raw.talks.GetOr([])) && AllTimestamped(raw.workshops.GetOr([]))
    ensures !AllTimestamped(raw.talks.GetOr([])) ==>
              r.Failure? && r.error.event in raw.talks.value && !HasTimestamp(r.error.event)
    ensures r.Failure? ==>
              && !HasTimestamp(r.error.event)
              && (r.error.event in raw.talks.GetOr([]) || r.error.event in raw.workshops.GetOr([]))
    ensures r.Success? ==>
              && DatedList(r.value.talks, raw.talks.GetOr([]), format)
              && DatedList(r.value.workshops, raw.workshops.GetOr([]), format)
  {
    match ParseDates(raw.talks, format)
    case Failure(e) => Failure(e)
    case Success(talks) =>
      match ParseDates(raw.workshops, format)
      case Failure(e) => Failure(e)
      case Success(workshops) => Success(Catalog(talks, workshops))
  }

  /** `event.timestamp.isSameOrAfter(today)`. */
  predicate IsSameOrAfter(e: Event, today: int) {
    e.timestamp.Some? && e.timestamp.value >= today
  }

  /** `event.timestamp.isBefore(today)`. */
  predicate IsBefore(e: Event, today: int) {
    e.timestamp.Some? && e.timestamp.value < today
  }

  /**
   * The split around `today` (the start of the current day). Upcoming lists
   * keep every event on or after today; previous lists keep the earlier
   * events that also pass a per-kind test, which the server and the browser
   * choose differently.
   */
  function Partition(c: Catalog, today: int, keepPreviousTalk: Event -> bool, keepPreviousWorkshop: Event -> bool): (r: Database)
    ensures r.talks == c.talks && r.workshops == c.workshops
    ensures forall e :: !(e in r.upcomingTalks && e in r.previousTalks)
    ensures forall e :: !(e in r.upcomingWorkshops && e in r.previousWorkshops)
  {
    Database(
      c.talks,
      c.workshops,
      UpcomingOf(c.workshops, today),
      PreviousOf(c.workshops, today, keepPreviousWorkshop),
      UpcomingOf(c.talks, today),
      PreviousOf(c.talks, today, keepPreviousTalk))
  }

  /** `events.filter(event => event.timestamp.isSameOrAfter(today))`. */
  function UpcomingOf(s: seq<Event>, today: int): (r: seq<Event>)
    ensures IsSubsequence(r, s)
    ensures forall e :: e in r <==> e in s && IsSameOrAfter(e, today)
    ensures forall e :: multiset(r)[e] == if IsSameOrAfter(e, today) then multiset(s)[e] else 0
  {
    Filter(s, e => IsSameOrAfter(e, today))
  }

  /** The earlier events that pass `keep`. */
  function PreviousOf(s: seq<Event>, today: int, keep: Event -> bool): (r: seq<Event>)
    ensures IsSubsequence(r, s)
    ensures forall e :: e in r <==> e in s && IsBefore(e, today) && keep(e)
    ensures forall e :: multiset(r)[e] == if IsBefore(e, today) && keep(e) then multiset(s)[e] else 0
  {
    Filter(s, e => IsBefore(e, today) && keep(e))
  }

  /**
   * Membership of the four derived lists, how often each event occurs in
   * them, their order, and their disjointness.
   */
  lemma PartitionMembers(c: Catalog, today: int, keepPreviousTalk: Event -> bool, keepPreviousWorkshop: Event -> bool)
    ensures var db := Partition(c, today, keepPreviousTalk, keepPreviousWorkshop);
      && db.talks == c.talks && db.workshops == c.workshops
      && (forall e :: e in db.upcomingTalks <==> e in c.talks && IsSameOrAfter(e, today))
      && (forall e :: e in db.previousTalks <==> e in c.talks && IsBefore(e, today) && keepPreviousTalk(e))
      && (forall e :: e in db.upcomingWorkshops <==> e in c.workshops && IsSameOrAfter(e, today))
      && (forall e :: e in db.previousWorkshops <==> e in c.workshops && IsBefore(e, today) && keepPreviousWorkshop(e))
      && (forall e :: multiset(db.upcomingTalks)[e] == if IsSameOrAfter(e, today) then multiset(c.talks)[e] else 0)
      && (forall e :: multiset(db.previousTalks)[e] ==
                      if IsBefore(e, today) && keepPreviousTalk(e) then multiset(c.talks)[e] else 0)
      && (forall e :: multiset(db.upcomingWorkshops)[e] == if IsSameOrAfter(e, today) then multiset(c.workshops)[e] else 0)
      && (forall e :: multiset(db.previousWorkshops)[e] ==
                      if IsBefore(e, today) && keepPreviousWorkshop(e) then multiset(c.workshops)[e] else 0)
      && IsSubsequence(db.upcomingTalks, c.talks) && IsSubsequence(db.previousTalks, c.talks)
      && IsSubsequence(db.upcomingWorkshops, c.workshops) && IsSubsequence(db.previousWorkshops, c.workshops)
      && (forall e :: !(e in db.upcomingTalks && e in db.previousTalks))
      && (forall e :: !(e in db.upcomingWorkshops && e in db.previousWorkshops))
  {
  }

  /**
   * When the per-kind test keeps everything, upcoming and previous split a
   * timestamped list exactly: each event of the list is in one of the two,
   * as often as in the list.
   */
  lemma PartitionCovers(s: seq<Event>, today: int, keep: Event -> bool)
    requires AllTimestamped(s)
    ensures var up, prev := UpcomingOf(s, today), PreviousOf(s, today, keep);
      forall e :: e in s && keep(e) ==> multiset(up)[e] + multiset(prev)[e] == multiset(s)[e]
  {
    var up, prev := UpcomingOf(s, today), PreviousOf(s, today, keep);
    forall e | e in s && keep(e) ensures multiset(up)[e] + multiset(prev)[e] == multiset(s)[e] {
      var i :| 0 <= i < |s| && s[i] == e;
      assert HasTimestamp(s[i]);
    }
  }
}
