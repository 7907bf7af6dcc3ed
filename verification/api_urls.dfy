/** The URL helpers of the health-check runners: recognising YouTube and
    Udemy resource URLs with their regular expressions, building the
    request URLs of the three third-party APIs, and the title the PDF
    runner derives from a URL. */
module ApiUrls {
  import opened Wrappers
  import opened Text
  import UriComponent

  const Http: string := "http://"
  const Https: string := "https://"

  predicate IsScheme(p: string) {
    p == Http || p == Https
  }

  /** What follows `^https?:\/\/`. */
  function AfterScheme(url: string): (r: Option<string>)
    ensures r.Some? ==> url == Https + r.value || url == Http + r.value
    ensures r.None? ==> forall t :: url != Https + t && url != Http + t
  {
    if |url| >= 8 && url[..8] == Https then Some(url[8..])
    else if |url| >= 7 && url[..7] == Http then Some(url[7..])
    else
      assert forall t :: (Https + t)[..8] == Https && (Http + t)[..7] == Http;
      None
  }

  /** The capture of `^https?:\/\/<path>(\S+)$` for a path without
      regular-expression operators, or `null`. */
  function CaptureAfter(url: string, path: string): (r: Option<string>)
    ensures r.Some? ==> IsNonSpaceRun(r.value)
    ensures r.Some? ==> url == Https + path + r.value || url == Http + path + r.value
  {
    match AfterScheme(url)
    case None => None
    case Some(t) =>
      if |t| > |path| && t[..|path|] == path && IsNonSpaceRun(t[|path|..]) then
        assert t == path + t[|path|..];
        Some(t[|path|..])
      else None
  }

  /** Every URL of the recognised shape yields its capture. */
  lemma CaptureAfterComplete(scheme: string, path: string, id: string)
    requires IsScheme(scheme) && IsNonSpaceRun(id)
    ensures CaptureAfter(scheme + path + id, path) == Some(id)
  {
    var t := path + id;
    assert scheme + path + id == scheme + t;
    AfterSchemeOf(scheme, t);
    assert t[..|path|] == path && t[|path|..] == id;
  }

  /** The scheme is recognised and cut off. */
  lemma AfterSchemeOf(scheme: string, t: string)
    requires IsScheme(scheme)
    ensures AfterScheme(scheme + t) == Some(t)
  {
    var url := scheme + t;
    if scheme == Https {
      assert url[..8] == Https;
      assert url[8..] == t;
    } else {
      assert url[4] == ':';
      assert url[..7] == Http;
      assert url[7..] == t;
    }
  }

  const VideoPath: string := "www.youtube.com/watch?v="
  const PlaylistPath: string := "www.youtube.com/playlist?list="
  const CoursePath: string := "www.udemy.com/course/"

  /** `getVideoId`: the id of a `watch?v=` URL. */
  function VideoId(url: string): (r: Option<string>)
    ensures r.Some? ==> IsNonSpaceRun(r.value)
    ensures r.Some? ==> url == Https + VideoPath + r.value || url == Http + VideoPath + r.value
  {
    CaptureAfter(url, VideoPath)
  }

  /** `getPlaylistId`: the id of a `playlist?list=` URL. */
  function PlaylistId(url: string): (r: Option<string>)
    ensures r.Some? ==> IsNonSpaceRun(r.value)
    ensures r.Some? ==> url == Https + PlaylistPath + r.value || url == Http + PlaylistPath + r.value
  {
    CaptureAfter(url, PlaylistPath)
  }

  /** `getCourseSlug`: the slug of a `www.udemy.com/course/` URL. */
  function CourseSlug(url: string): (r: Option<string>)
    ensures r.Some? ==> IsNonSpaceRun(r.value)
    ensures r.Some? ==> url == Https + CoursePath + r.value || url == Http + CoursePath + r.value
  {
    CaptureAfter(url, CoursePath)
  }

  /** The host part of the channel pattern. Its dots are not escaped, so
      each stands for any character but a line terminator. */
  const ChannelHost: string := "www.youtube.com/"

  /** What one `.` of a regular expression without the `u` flag matches:
      a single UTF-16 code unit other than a line terminator. A character
      outside the Basic Multilingual Plane is two code units, so a `.`
      followed by a literal cannot take it. */
  predicate MatchesDot(c: char) {
    !IsLineTerminator(c) && c as int < 0x1_0000
  }

  predicate MatchesChannelHost(h: string) {
    && |h| == |ChannelHost|
    && forall i :: 0 <= i < |h| ==>
         if ChannelHost[i] == '.' then MatchesDot(h[i]) else h[i] == ChannelHost[i]
  }

  /** `getChannelId`: the handle of an `@handle` or `c/handle` channel URL. */
  function ChannelId(url: string): (r: Option<string>)
    ensures r.Some? ==> IsNonSpaceRun(r.value)
    ensures r.Some? ==>
      && AfterScheme(url).Some?
      && var t := AfterScheme(url).value;
      && |t| > |ChannelHost| && MatchesChannelHost(t[..|ChannelHost|])
      && (t[|ChannelHost|..] == "@" + r.value || t[|ChannelHost|..] == "c/" + r.value)
  {
    match AfterScheme(url)
    case None => None
    case Some(t) =>
      if |t| > |ChannelHost| && MatchesChannelHost(t[..|ChannelHost|]) then
        var rest := t[|ChannelHost|..];
        if rest[0] == '@' && IsNonSpaceRun(rest[1..]) then
          assert rest == "@" + rest[1..];
          Some(rest[1..])
        else if |rest| >= 2 && rest[..2] == "c/" && IsNonSpaceRun(rest[2..]) then
          assert rest == "c/" + rest[2..];
          Some(rest[2..])
        else None
      else None
  }

  /** Every URL of the channel shape yields its handle. */
  lemma ChannelIdComplete(scheme: string, host: string, marker: string, handle: string)
    requires IsScheme(scheme) && MatchesChannelHost(host)
    requires marker == "@" || marker == "c/"
    requires IsNonSpaceRun(handle)
    ensures ChannelId(scheme + host + marker + handle) == Some(handle)
  {
    var t := host + marker + handle;
    assert scheme + host + marker + handle == scheme + t;
    AfterSchemeOf(scheme, t);
    var rest := marker + handle;
    assert t[..|ChannelHost|] == host;
    assert t[|ChannelHost|..] == rest;
    if marker == "@" {
      assert rest[0] == '@' && rest[1..] == handle;
    } else {
      assert rest[0] == 'c' && rest[..2] == "c/" && rest[2..] == handle;
    }
  }

  /** The unescaped dots let hosts other than www.youtube.com through. */
  lemma ChannelPatternAcceptsOtherHosts()
    ensures ChannelId(Https + "wwwXyoutubeXcom/" + "@" + "sherpa") == Some("sherpa")
  {
    var host := "wwwXyoutubeXcom/";
    forall i | 0 <= i < |host|
      ensures if ChannelHost[i] == '.' then MatchesDot(host[i]) else host[i] == ChannelHost[i]
    {
    }
    ChannelIdComplete(Https, host, "@", "sherpa");
  }

  /** A character outside the Basic Multilingual Plane where the pattern
      has a dot leaves the URL unmatched: `https://www`, then U+1F600,
      then `youtube.com/@x` is not a channel URL. */
  lemma ChannelDotTakesOneCodeUnit(url: string, i: nat)
    requires AfterScheme(url).Some?
    requires i < |ChannelHost| && ChannelHost[i] == '.'
    requires i < |AfterScheme(url).value| && AfterScheme(url).value[i] as int >= 0x1_0000
    ensures ChannelId(url) == None
  {
    var t := AfterScheme(url).value;
    if |t| > |ChannelHost| {
      assert t[..|ChannelHost|][i] == t[i];
    }
  }

  /** At most one of the three YouTube patterns matches a URL, so the order
      in which they are tried never changes the request. */
  lemma YoutubePatternsExclusive(url: string)
    ensures !(VideoId(url).Some? && PlaylistId(url).Some?)
    ensures !(VideoId(url).Some? && ChannelId(url).Some?)
    ensures !(PlaylistId(url).Some? && ChannelId(url).Some?)
  {
    if AfterScheme(url).Some? {
      var t := AfterScheme(url).value;
      if VideoId(url).Some? {
        assert t[..|VideoPath|] == VideoPath;
        assert t[16] == VideoPath[16] == 'w';
      }
      if PlaylistId(url).Some? {
        assert t[..|PlaylistPath|] == PlaylistPath;
        assert t[16] == PlaylistPath[16] == 'p';
      }
      if ChannelId(url).Some? {
        var r := ChannelId(url).value;
        assert t[16..] == "@" + r || t[16..] == "c/" + r;
        assert t[16] == '@' || t[16] == 'c';
      }
    }
  }

  const YoutubeApiBase: string := "https://youtube.googleapis.com/youtube/v3"

  /** The query parameters every YouTube Data API request carries. */
  function YoutubeCommonQuery(apiKey: string): string
  {
    "&key=" + apiKey + "&part=snippet&maxResults=1"
  }

  /** `getDataRequestUrl` of the YouTube runner: video, then playlist, then
      channel; a channel handle becomes a channel search for `@handle`. */
  function YoutubeDataUrl(url: string, apiKey: string): (r: Option<string>)
    ensures r.Some? <==> VideoId(url).Some? || PlaylistId(url).Some? || ChannelId(url).Some?
    ensures VideoId(url).Some? ==>
      r == Some(YoutubeApiBase + "/videos?id=" + VideoId(url).value + YoutubeCommonQuery(apiKey))
    ensures PlaylistId(url).Some? ==>
      r == Some(YoutubeApiBase + "/playlists?id=" + PlaylistId(url).value + YoutubeCommonQuery(apiKey))
    ensures ChannelId(url).Some? ==>
      r == Some(YoutubeApiBase + "/search?q=%40" + ChannelId(url).value + "&type=channel"
                + YoutubeCommonQuery(apiKey))
  {
    YoutubePatternsExclusive(url);
    match VideoId(url)
    case Some(id) => Some(YoutubeApiBase + "/videos?id=" + id + YoutubeCommonQuery(apiKey))
    case None =>
      match PlaylistId(url)
      case Some(id) => Some(YoutubeApiBase + "/playlists?id=" + id + YoutubeCommonQuery(apiKey))
      case None =>
        match ChannelId(url)
        case Some(handle) =>
          Some(YoutubeApiBase + "/search?q=%40" + handle + "&type=channel" + YoutubeCommonQuery(apiKey))
        case None => None
  }

  /** Every YouTube request goes to the API base and ends with the key,
      `part=snippet` and `maxResults=1`. */
  lemma YoutubeDataUrlShape(url: string, apiKey: string)
    requires YoutubeDataUrl(url, apiKey).Some?
    ensures var r := YoutubeDataUrl(url, apiKey).value;
            var q := YoutubeCommonQuery(apiKey);
            && |r| > |YoutubeApiBase| + |q|
            && r[..|YoutubeApiBase|] == YoutubeApiBase
            && r[|r| - |q|..] == q
  {
    var q := YoutubeCommonQuery(apiKey);
    if VideoId(url).Some? {
      Enclosed(YoutubeApiBase, "/videos?id=" + VideoId(url).value, q);
    } else if PlaylistId(url).Some? {
      Enclosed(YoutubeApiBase, "/playlists?id=" + PlaylistId(url).value, q);
    } else {
      Enclosed(YoutubeApiBase, "/search?q=%40" + ChannelId(url).value + "&type=channel", q);
    }
  }

  lemma Enclosed(a: string, m: string, q: string)
    requires |m| > 0
    ensures var r := a + m + q;
            |r| > |a| + |q| && r[..|a|] == a && r[|r| - |q|..] == q
  {
  }

  const ZenscrapeEndpoint: string := "https://app.zenscrape.com/api/v1/get"

  /** A flag parameter that is set: `<name>=true`. */
  function SetFlag(name: string): string
  {
    name + "=true"
  }

  /** A query flag `&piece` when `on`, nothing otherwise. */
  function Optional(on: bool, piece: string): string
  {
    if on then ['&'] + piece else []
  }

  function OptionalPiece(on: bool, piece: string): seq<string>
  {
    if on then [piece] else []
  }

  /** The query string of a Zenscrape request. */
  function ZenscrapeQuery(url: string, render: bool, premium: bool): string
  {
    "url=" + UriComponent.Encode(url)
      + Optional(render, SetFlag("render")) + Optional(premium, SetFlag("premium"))
  }

  /** `getDataRequestUrl` of the Zenscrape runner. The API refuses `false`,
      so a flag is either `=true` or left out. */
  function ZenscrapeDataUrl(url: string, render: bool, premium: bool): string
  {
    ZenscrapeEndpoint + "?" + ZenscrapeQuery(url, render, premium)
  }

  /** The query parameters of a Zenscrape request, in order. */
  function ZenscrapeParameters(url: string, render: bool, premium: bool): seq<string>
  {
    ["url=" + UriComponent.Encode(url)]
      + OptionalPiece(render, SetFlag("render")) + OptionalPiece(premium, SetFlag("premium"))
  }

  /** Splitting the query on `&` recovers the parameters: the encoded URL
      first, then `render=true` exactly when rendering is asked for, then
      `premium=true` exactly when premium proxies are. */
  lemma ZenscrapeQueryParameters(url: string, render: bool, premium: bool)
    ensures Split(ZenscrapeQuery(url, render, premium), '&') == ZenscrapeParameters(url, render, premium)
  {
    var enc := UriComponent.Encode(url);
    var first := "url=" + enc;
    var ps := ZenscrapeParameters(url, render, premium);
    UriComponent.EncodedHasNoDelimiters(url);
    NoAmpersandAfterKey(enc);
    SetFlagHasNoAmpersand("render");
    SetFlagHasNoAmpersand("premium");
    JoinOptional(first, SetFlag("render"), render, SetFlag("premium"), premium);
    forall k | 0 <= k < |ps| ensures '&' !in ps[k] {
      assert ps[k] == first || ps[k] == SetFlag("render") || ps[k] == SetFlag("premium");
    }
    SplitJoin(ps, '&');
  }

  /** The query is its parameters joined with `&`. */
  lemma JoinOptional(first: string, r: string, render: bool, p: string, premium: bool)
    ensures first + Optional(render, r) + Optional(premium, p)
         == Join([first] + OptionalPiece(render, r) + OptionalPiece(premium, p), '&')
  {
    var ps := [first] + OptionalPiece(render, r) + OptionalPiece(premium, p);
    if render && premium {
      assert ps == [first, r, p];
      assert ps[1..] == [r, p] && ps[1..][1..] == [p];
      assert Join([r, p], '&') == r + ['&'] + p;
      assert Join(ps, '&') == first + ['&'] + (r + ['&'] + p);
    } else if render || premium {
      var f := if render then r else p;
      assert ps == [first, f];
      assert ps[1..] == [f];
    } else {
      assert ps == [first];
    }
  }

  lemma SetFlagHasNoAmpersand(name: string)
    requires '&' !in name
    ensures '&' !in SetFlag(name)
  {
    var f := SetFlag(name);
    forall i | 0 <= i < |f| ensures f[i] != '&' {
      if i < |name| { assert f[i] == name[i]; }
    }
  }

  lemma NoAmpersandAfterKey(enc: string)
    requires '&' !in enc
    ensures '&' !in "url=" + enc
  {
    var first := "url=" + enc;
    forall i | 0 <= i < |first| ensures first[i] != '&' {
      if i >= 4 { assert first[i] == enc[i - 4]; }
    }
  }

  /** No flag is ever sent as `false`. */
  lemma ZenscrapeNeverSendsFalse(url: string, render: bool, premium: bool)
    ensures var ps := Split(ZenscrapeQuery(url, render, premium), '&');
            "render=false" !in ps && "premium=false" !in ps
            && ("render=true" in ps <==> render) && ("premium=true" in ps <==> premium)
  {
    ZenscrapeQueryParameters(url, render, premium);
    var first := "url=" + UriComponent.Encode(url);
    var rs := OptionalPiece(render, SetFlag("render"));
    var qs := OptionalPiece(premium, SetFlag("premium"));
    var ps := [first] + rs + qs;
    assert first[0] == 'u';
    assert SetFlag("render") == "render=true" && SetFlag("premium") == "premium=true";
    FlagNotIn("render=false", first, rs, qs);
    FlagNotIn("premium=false", first, rs, qs);
    assert "render=true" in ps <==> "render=true" in rs;
    assert "premium=true" in ps <==> "premium=true" in qs;
  }

  /** A parameter that is neither the URL nor a set flag is not sent. */
  lemma FlagNotIn(x: string, first: string, rs: seq<string>, qs: seq<string>)
    requires |x| > 0 && |first| > 0 && x[0] != first[0]
    requires x !in rs && x !in qs
    ensures x !in [first] + rs + qs
  {
  }

  const UdemyApiBase: string := "https://www.udemy.com/api-2.0/courses"

  /** `getDataRequestUrl` of the Udemy runner. */
  function UdemyDataUrl(url: string): (r: Option<string>)
    ensures r.Some? <==> CourseSlug(url).Some?
    ensures r.Some? ==> r.value == UdemyApiBase + "/" + CourseSlug(url).value + "?fields[course]=title"
  {
    match CourseSlug(url)
    case Some(slug) => Some(UdemyApiBase + "/" + slug + "?fields[course]=title")
    case None => None
  }

  /** A course URL is turned into the course's title lookup. */
  lemma UdemyDataUrlOfCourse(scheme: string, slug: string)
    requires IsScheme(scheme) && IsNonSpaceRun(slug)
    ensures UdemyDataUrl(scheme + CoursePath + slug)
         == Some(UdemyApiBase + "/" + slug + "?fields[course]=title")
  {
    CaptureAfterComplete(scheme, CoursePath, slug);
  }

  /** The title of a PDF resource: `url.split('/').pop()`, the text after
      the last `/`, empty when the URL ends with `/`. */
  function PdfTitle(url: string): (r: string)
    ensures '/' !in r
    ensures |r| <= |url| && r == url[|url| - |r|..]
    ensures |r| == |url| || url[|url| - |r| - 1] == '/'
  {
    LastPiece(url, '/')
  }
}
