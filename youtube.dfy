/** Recognising a YouTube link on the caret's line (`parseYouTube`) and making
    the link card item for it (`buildYouTubeItem`). */
module YouTube {
  import opened Text
  import opened Values

  /** What `new URL(raw)` exposes that `parseYouTube` reads: the host name, the
      path, the first `v` query parameter, and the serialized URL. */
  datatype UrlParts = UrlParts(hostname: string, pathname: string, v: Option<string>, href: string)

  /** `[a-zA-Z0-9_-]` */
  predicate IsIdChar(c: char) {
    ('a' <= c <= 'z') || ('A' <= c <= 'Z') || ('0' <= c <= '9') || c == '_' || c == '-'
  }

  /** `/^[a-zA-Z0-9_-]{6,}$/` */
  predicate IsVideoId(s: string) {
    |s| >= 6 && forall i :: 0 <= i < |s| ==> IsIdChar(s[i])
  }

  /** `hostname.replace(/^www\./, "")` */
  function StripWww(host: string): (r: string)
    // one leading "www." is removed when there is one, and nothing else changes
    ensures r == host || "www." + r == host
    ensures r == host <==> !(|host| >= 4 && host[..4] == "www.")
  {
    if |host| >= 4 && host[..4] == "www." then host[4..] else host
  }

  /** Length of the leading run of `s` that holds no '/'. */
  function RunLength(s: string): (n: nat)
    ensures n <= |s|
    ensures forall i :: 0 <= i < n ==> s[i] != '/'
    ensures n == |s| || s[n] == '/'
  {
    if s == [] || s[0] == '/' then 0 else 1 + RunLength(s[1..])
  }

  /** `pathname.split("/").filter(Boolean)`: the non-empty pieces between slashes. */
  function Segments(p: string): (parts: seq<string>)
    ensures forall k :: 0 <= k < |parts| ==> parts[k] != [] && '/' !in parts[k]
    decreases |p|
  {
    if p == [] then []
    else if p[0] == '/' then Segments(p[1..])
    else
      var n := RunLength(p);
      [p[..n]] + Segments(p[n..])
  }

  /** A path `/w` followed by nothing or by a further `/…` splits into `w` and
      the pieces of the rest. */
  lemma SegmentsStep(w: string, rest: string)
    requires w != [] && '/' !in w
    requires rest == [] || rest[0] == '/'
    ensures Segments("/" + w + rest) == [w] + Segments(rest)
  {
    var p := "/" + w + rest;
    assert p[1..] == w + rest;
    assert RunLength(w + rest) == |w| by {
      RunLengthOf(w, rest);
    }
    assert (w + rest)[..|w|] == w && (w + rest)[|w|..] == rest;
  }

  lemma {:induction false} RunLengthOf(w: string, rest: string)
    requires '/' !in w
    requires rest == [] || rest[0] == '/'
    ensures RunLength(w + rest) == |w|
  {
    if w != [] {
      assert (w + rest)[0] == w[0];
      assert (w + rest)[1..] == w[1..] + rest;
      RunLengthOf(w[1..], rest);
    } else {
      assert w + rest == rest;
    }
  }

  /** `searchParams.get("v") || ""` */
  function QueryV(u: UrlParts): string {
    match u.v
    case None => ""
    case Some(s) => s
  }

  /** The id `parseYouTube` reads off a parsed URL, before checking its shape;
      "" for a host it does not know. */
  function CandidateId(u: UrlParts): string {
    var host := StripWww(u.hostname);
    if host == "youtu.be" then
      (if u.pathname == [] then [] else u.pathname[1..])
    else if host == "youtube.com" || host == "m.youtube.com" then
      if QueryV(u) != "" then QueryV(u)
      else
        var parts := Segments(u.pathname);
        if |parts| > 0 && (parts[0] == "shorts" || parts[0] == "embed") then
          (if |parts| > 1 then parts[1] else "")
        else ""
    else ""
  }

  datatype VideoRef = VideoRef(url: string, videoId: string)

  /** `parseYouTube(raw)`. `parsed` is what `new URL(raw)` gives, `None` when it
      throws. */
  function ParseYouTube(raw: string, parsed: Option<UrlParts>): (r: Option<VideoRef>)
    ensures raw == "" ==> r == None
    ensures parsed == None ==> r == None
    ensures r.Some? ==>
      && parsed.Some?
      && IsVideoId(r.value.videoId)
      && r.value.url == parsed.value.href
      && StripWww(parsed.value.hostname) in {"youtu.be", "youtube.com", "m.youtube.com"}
  {
    if raw == "" then None
    else match parsed
      case None => None
      case Some(u) =>
        var id := CandidateId(u);
        if IsVideoId(id) then Some(VideoRef(u.href, id)) else None
  }

  /** Short links: the id is the whole path after the leading slash. */
  lemma ShortLinkId(raw: string, u: UrlParts, id: string)
    requires raw != ""
    requires StripWww(u.hostname) == "youtu.be" && u.pathname == "/" + id
    ensures ParseYouTube(raw, Some(u)) == if IsVideoId(id) then Some(VideoRef(u.href, id)) else None
  {
    assert u.pathname[1..] == id;
  }

  /** On youtube.com and m.youtube.com a non-empty `v` parameter decides alone:
      the path is not looked at, even when `v` is not a valid id. */
  lemma QueryTakesPrecedence(raw: string, u: UrlParts, v: string)
    requires raw != ""
    requires StripWww(u.hostname) in {"youtube.com", "m.youtube.com"}
    requires u.v == Some(v) && v != ""
    ensures ParseYouTube(raw, Some(u)) == if IsVideoId(v) then Some(VideoRef(u.href, v)) else None
  {
  }

  /** Without a `v` parameter, `/shorts/<id>` and `/embed/<id>` paths give the id. */
  lemma PathFormId(raw: string, u: UrlParts, form: string, id: string, rest: string)
    requires raw != ""
    requires StripWww(u.hostname) in {"youtube.com", "m.youtube.com"}
    requires QueryV(u) == ""
    requires form in {"shorts", "embed"}
    requires id != [] && '/' !in id
    requires rest == [] || rest[0] == '/'
    requires u.pathname == "/" + form + "/" + id + rest
    ensures ParseYouTube(raw, Some(u)) == if IsVideoId(id) then Some(VideoRef(u.href, id)) else None
  {
    assert '/' !in form;
    LeadingSegments(form, id, rest);
    assert CandidateId(u) == id;
  }

  /** The first two segments of `/<form>/<id><rest>` are `form` and `id`. */
  lemma LeadingSegments(form: string, id: string, rest: string)
    requires form != [] && '/' !in form
    requires id != [] && '/' !in id
    requires rest == [] || rest[0] == '/'
    ensures var parts := Segments("/" + form + "/" + id + rest);
      |parts| > 1 && parts[0] == form && parts[1] == id
  {
    var tail := "/" + id + rest;
    assert "/" + form + "/" + id + rest == "/" + form + tail;
    SegmentsStep(form, tail);
    SegmentsStep(id, rest);
  }

  /** Any other host gives nothing. */
  lemma OtherHostsRejected(raw: string, u: UrlParts)
    requires StripWww(u.hostname) !in {"youtu.be", "youtube.com", "m.youtube.com"}
    ensures ParseYouTube(raw, Some(u)) == None
  {
  }

  /** What the oEmbed request answered, when it answered `ok` with JSON:
      `title` and `thumbnail_url` when they are strings. */
  datatype OEmbed = OEmbed(title: Option<string>, thumbnailUrl: Option<string>)

  /** A string field of the reply that is not blank once trimmed, trimmed. */
  function Filled(field: Option<string>): Option<string> {
    match field
    case Some(s) => if Trim(s) != "" then Some(Trim(s)) else None
    case None => None
  }

  function FallbackThumbnail(videoId: string): string {
    "https://i.ytimg.com/vi/" + videoId + "/hqdefault.jpg"
  }

  /** `buildYouTubeItem(url, videoId)`; `reply` is `None` when the request
      failed, threw, or did not answer `ok`. */
  function BuildYouTubeItem(url: string, videoId: string, reply: Option<OEmbed>): (item: Item)
    ensures item.YouTube? && item.url == url && item.videoId == videoId
    ensures item.title != "" && item.thumbnail != ""
    ensures reply == None ==>
      item.title == "YouTube Video" && item.thumbnail == FallbackThumbnail(videoId)
    ensures reply.Some? && Filled(reply.value.title) == None ==> item.title == "YouTube Video"
    ensures reply.Some? && Filled(reply.value.thumbnailUrl) == None ==> item.thumbnail == FallbackThumbnail(videoId)
    ensures reply.Some? && Filled(reply.value.title).Some? ==> item.title == Trim(reply.value.title.value)
    ensures reply.Some? && Filled(reply.value.thumbnailUrl).Some? ==>
      item.thumbnail == Trim(reply.value.thumbnailUrl.value)
  {
    var title := if reply.Some? && Filled(reply.value.title).Some? then Filled(reply.value.title).value
                 else "YouTube Video";
    var thumbnail := if reply.Some? && Filled(reply.value.thumbnailUrl).Some?
                     then Filled(reply.value.thumbnailUrl).value
                     else FallbackThumbnail(videoId);
    YouTube(url, videoId, title, thumbnail)
  }
}
