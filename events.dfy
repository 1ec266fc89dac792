/**
 * The catalog's event records (talks and workshops) and the few pieces of
 * JavaScript semantics the rest of the model relies on: truthiness of
 * optional strings, template-string interpolation of an absent value, and
 * `Array.prototype.filter` / `Array.prototype.find` over event lists.
 */
module Events {
  import opened Wrappers

  /** The `type` tag of a presentation record; unknown tags are kept verbatim. */
  datatype PresentationType = Elm | RevealJs | ExternalPresentation | OtherPresentation(name: string)

  /** The `type` tag of a video record; unknown tags are kept verbatim. */
  datatype VideoType = YouTube | ExternalVideo | OtherVideo(name: string)

  function PresentationTypeName(t: PresentationType): string {
    match t
    case Elm => "elm"
    case RevealJs => "reveal.js"
    case ExternalPresentation => "external"
    case OtherPresentation(name) => name
  }

  function VideoTypeName(t: VideoType): string {
    match t
    case YouTube => "youtube"
    case ExternalVideo => "external"
    case OtherVideo(name) => name
  }

  /** Reads the `type` string of a presentation record, as the source's `===` comparisons do. */
  function ParsePresentationType(s: string): (t: PresentationType)
    ensures PresentationTypeName(t) == s
    ensures t.OtherPresentation? <==> s !in {"elm", "reveal.js", "external"}
  {
    if s == "elm" then Elm
    else if s == "reveal.js" then RevealJs
    else if s == "external" then ExternalPresentation
    else OtherPresentation(s)
  }

  /** Reads the `type` string of a video record. */
  function ParseVideoType(s: string): (t: VideoType)
    ensures VideoTypeName(t) == s
    ensures t.OtherVideo? <==> s !in {"youtube", "external"}
  {
    if s == "youtube" then YouTube
    else if s == "external" then ExternalVideo
    else OtherVideo(s)
  }

  datatype Presentation = Presentation(kind: PresentationType, link: Option<string>)
  datatype Video = Video(kind: VideoType, link: Option<string>)
  datatype External = External(link: string, text: string)
  datatype Code = Code(language: Option<string>)
  datatype Partner = Partner(name: string, link: string)

  /**
   * One talk or workshop. Every optional property of the catalog record is an
   * Option; `timestamp` is an instant in milliseconds, and `date` and
   * `formattedDate` are absent until the catalog is normalised.
   * `eventName` is the record's `event` property (the conference name).
   */
  datatype Event = Event(
    title: string,
    slug: Option<string>,
    timestamp: Option<int>,
    date: Option<string>,
    formattedDate: Option<string>,
    essay: bool,
    presentation: Option<Presentation>,
    video: Option<Video>,
    external: Option<External>,
    code: Option<Code>,
    link: Option<string>,
    eventName: Option<string>,
    location: Option<string>,
    partner: Option<Partner>)

  /** JavaScript truthiness of an optional string: present and non-empty. */
  predicate Truthy(s: Option<string>) {
    s.Some? && s.value != ""
  }

  /** `${s}` in a template string: an absent value prints as "undefined". */
  function Interpolate(s: Option<string>): (r: string)
    ensures s.Some? ==> r == s.value
    ensures s.None? ==> r == "undefined"
  {
    match s
    case Some(v) => v
    case None => "undefined"
  }

  /**
   * r is obtained from s by deleting some elements, keeping the order of the rest.
   */
  predicate IsSubsequence(r: seq<Event>, s: seq<Event>)
    decreases |s|
  {
    if r == [] then true
    else if s == [] then false
    else (r[0] == s[0] && IsSubsequence(r[1..], s[1..])) || IsSubsequence(r, s[1..])
  }

  /**
   * `events.filter(p)`: exactly the elements satisfying p, each as often as in
   * the input, in their original order.
   */
  function Filter(s: seq<Event>, p: Event -> bool): (r: seq<Event>)
    ensures |r| <= |s|
    ensures IsSubsequence(r, s)
    ensures forall e :: multiset(r)[e] == if p(e) then multiset(s)[e] else 0
    ensures forall e :: e in r <==> e in s && p(e)
  {
    if s == [] then []
    else
      var rest := Filter(s[1..], p);
      assert s == [s[0]] + s[1..];
      assert multiset(s) == multiset{s[0]} + multiset(s[1..]);
      if p(s[0]) then
        var r := [s[0]] + rest;
        assert r[1..] == rest;
        assert multiset(r) == multiset{s[0]} + multiset(rest);
        r
      else rest
  }

  /**
   * `events.findIndex(p)`: the index of the first element satisfying p.
   */
  function FindIndex(s: seq<Event>, p: Event -> bool): (r: Option<nat>)
    ensures r.None? <==> forall i :: 0 <= i < |s| ==> !p(s[i])
    ensures r.Some? ==> r.value < |s| && p(s[r.value])
    ensures r.Some? ==> forall j :: 0 <= j < r.value ==> !p(s[j])
  {
    if s == [] then None
    else if p(s[0]) then Some(0)
    else
      match FindIndex(s[1..], p)
      case None => None
      case Some(i) => Some(i + 1)
  }

  /** `events.find(p)`: the first element satisfying p, absent when none does. */
  function Find(s: seq<Event>, p: Event -> bool): (r: Option<Event>)
    ensures r.None? <==> forall e :: e in s ==> !p(e)
    ensures r.Some? ==> exists i :: 0 <= i < |s| && s[i] == r.value && p(s[i]) && forall j :: 0 <= j < i ==> !p(s[j])
  {
    match FindIndex(s, p)
    case None => None
    case Some(i) => Some(s[i])
  }
}
