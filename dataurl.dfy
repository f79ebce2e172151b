/** The "data url" the controller attaches to each video: the full URL of the
    binary payload, built from the server name and port of the current request
    and the video's identifier. */
module DataUrls {
  import opened Decimal

  const Scheme := "http://"
  const DefaultHttpPort := 80
  const VideoPath := "/video/"
  const DataSuffix := "/data"

  /** getUrlBaseForLocalServer: the scheme, the server name, and ":" plus the
      port only when the port is not the default HTTP port. */
  function UrlBase(serverName: string, serverPort: int): string {
    Scheme + serverName + (if serverPort != DefaultHttpPort then ":" + IntToDecimal(serverPort) else "")
  }

  /** getDataUrl: the base followed by "/video/", the identifier and "/data". */
  function DataUrl(serverName: string, serverPort: int, videoId: int): string {
    UrlBase(serverName, serverPort) + VideoPath + IntToDecimal(videoId) + DataSuffix
  }

  /** The longest suffix of `s` that holds no '/'. */
  function TrailingSegment(s: string): (t: string)
    ensures |t| <= |s| && t == s[|s| - |t|..]
    ensures '/' !in t
    ensures |t| < |s| ==> s[|s| - |t| - 1] == '/'
  {
    if |s| == 0 || s[|s| - 1] == '/' then []
    else TrailingSegment(s[..|s| - 1]) + [s[|s| - 1]]
  }

  /** The text before a trailing "/data", when `url` ends with it. */
  function BeforeDataSuffix(url: string): (r: Option<string>)
    ensures r.Some? <==> |url| >= |DataSuffix| && url[|url| - |DataSuffix|..] == DataSuffix
    ensures r.Some? ==> url == r.value + DataSuffix
  {
    if |url| >= |DataSuffix| && url[|url| - |DataSuffix|..] == DataSuffix
    then Some(url[..|url| - |DataSuffix|])
    else None
  }

  /** "http://", then any server part, then "/video/". */
  predicate IsVideoHead(head: string) {
    |head| >= |Scheme| + |VideoPath|
    && head[..|Scheme|] == Scheme && head[|head| - |VideoPath|..] == VideoPath
  }

  /** Recovers the identifier a data URL names, or None when `url` does not
      have the shape "http://" host "/video/" id "/data". */
  function DataUrlId(url: string): Option<int> {
    match BeforeDataSuffix(url)
    case None => None
    case Some(p) =>
      var t := TrailingSegment(p);
      if IsVideoHead(p[..|p| - |t|]) then ParseInt(t) else None
  }

  /** The segment after the last '/' is whatever follows that slash. */
  lemma {:induction false} TrailingSegmentAfterSlash(a: string, t: string)
    requires '/' !in t
    ensures TrailingSegment(a + "/" + t) == t
  {
    var s := a + "/" + t;
    if |t| > 0 {
      var t' := t[..|t| - 1];
      assert s[..|s| - 1] == a + "/" + t';
      assert s[|s| - 1] == t[|t| - 1];
      assert t[|t| - 1] in t;
      TrailingSegmentAfterSlash(a, t');
      assert t == t' + [t[|t| - 1]];
    }
  }

  /** The rendered port follows a ':' right after the server name exactly when
      it differs from 80, and reads back as that port. */
  lemma UrlBaseShape(serverName: string, serverPort: int)
    ensures var b := UrlBase(serverName, serverPort);
      |b| >= |Scheme| + |serverName|
      && b[..|Scheme|] == Scheme
      && b[|Scheme|..|Scheme| + |serverName|] == serverName
      && (serverPort == DefaultHttpPort <==> |b| == |Scheme| + |serverName|)
      && (serverPort != DefaultHttpPort ==>
            b[|Scheme| + |serverName|] == ':'
            && ParseInt(b[|Scheme| + |serverName| + 1..]) == Some(serverPort))
  {
    var b := UrlBase(serverName, serverPort);
    var n := |Scheme| + |serverName|;
    if serverPort != DefaultHttpPort {
      IntRoundTrip(serverPort);
      assert b[n + 1..] == IntToDecimal(serverPort);
    }
  }

  /** For one server name, different ports give different bases. */
  lemma UrlBasePortInjective(serverName: string, p1: int, p2: int)
    requires UrlBase(serverName, p1) == UrlBase(serverName, p2)
    ensures p1 == p2
  {
    UrlBaseShape(serverName, p1);
    UrlBaseShape(serverName, p2);
  }

  lemma BeforeDataSuffixOf(p: string)
    ensures BeforeDataSuffix(p + DataSuffix) == Some(p)
  {
    assert (p + DataSuffix)[|p|..] == DataSuffix;
  }

  /** A URL made of a head that starts with the scheme and ends with
      "/video/", a segment free of '/', and "/data" names what that segment
      parses to. */
  lemma DataUrlIdOfSplit(head: string, t: string)
    requires IsVideoHead(head)
    requires '/' !in t
    ensures DataUrlId(head + t + DataSuffix) == ParseInt(t)
  {
    var p := head + t;
    BeforeDataSuffixOf(p);
    var a := head[..|head| - 1];
    assert head == a + "/";
    assert p == a + "/" + t;
    TrailingSegmentAfterSlash(a, t);
    assert p[..|p| - |t|] == head;
  }

  /** A URL made of an http base, "/video/", a rendered identifier and
      "/data" names that identifier. */
  lemma DataUrlIdOfParts(base: string, videoId: int)
    requires |base| >= |Scheme| && base[..|Scheme|] == Scheme
    ensures DataUrlId(base + VideoPath + IntToDecimal(videoId) + DataSuffix) == Some(videoId)
  {
    var d := IntToDecimal(videoId);
    var head := base + VideoPath;
    assert head[..|Scheme|] == Scheme;
    assert head[|head| - |VideoPath|..] == VideoPath;
    assert '/' !in d by {
      forall k | 0 <= k < |d| ensures d[k] != '/' { }
    }
    DataUrlIdOfSplit(head, d);
    assert base + VideoPath + d + DataSuffix == head + d + DataSuffix;
    IntRoundTrip(videoId);
  }

  /** Every data URL names the identifier it was built for. */
  lemma DataUrlIdOfDataUrl(serverName: string, serverPort: int, videoId: int)
    ensures DataUrlId(DataUrl(serverName, serverPort, videoId)) == Some(videoId)
  {
    var b := UrlBase(serverName, serverPort);
    assert b[..|Scheme|] == Scheme;
    DataUrlIdOfParts(b, videoId);
  }

  /** Whatever DataUrlId accepts is the data URL of the identifier it
      returns, for the server name between the scheme and "/video/" and the
      default port. */
  lemma DataUrlIdSound(url: string, videoId: int)
    requires DataUrlId(url) == Some(videoId)
    ensures exists name :: url == DataUrl(name, DefaultHttpPort, videoId)
  {
    var head, t := DataUrlIdSplit(url);
    ParseIntCanonical(t);
    var name := VideoHeadServer(head);
    assert UrlBase(name, DefaultHttpPort) == Scheme + name;
    assert url == UrlBase(name, DefaultHttpPort) + VideoPath + IntToDecimal(videoId) + DataSuffix;
    assert url == DataUrl(name, DefaultHttpPort, videoId);
  }

  /** The pieces DataUrlId reads an accepted URL into. */
  lemma DataUrlIdSplit(url: string) returns (head: string, t: string)
    requires DataUrlId(url).Some?
    ensures IsVideoHead(head) && url == head + t + DataSuffix
    ensures ParseInt(t) == DataUrlId(url)
  {
    var p := BeforeDataSuffix(url).value;
    t := TrailingSegment(p);
    head := p[..|p| - |t|];
    assert p == head + t;
  }

  /** The server part of a head accepted by IsVideoHead. */
  function VideoHeadServer(head: string): (name: string)
    requires IsVideoHead(head)
    ensures head == Scheme + name + VideoPath
  {
    var name := head[|Scheme|..|head| - |VideoPath|];
    assert head == head[..|Scheme|] + name + head[|head| - |VideoPath|..];
    name
  }

  /** DataUrlId recognises exactly the data URLs: a string names `videoId`
      if and only if it is the data URL of `videoId` for some server name and
      port. */
  lemma DataUrlIdRecognises(url: string, videoId: int)
    ensures DataUrlId(url) == Some(videoId)
      <==> exists name, port :: url == DataUrl(name, port, videoId)
  {
    if DataUrlId(url) == Some(videoId) {
      DataUrlIdSound(url, videoId);
    }
    if exists name, port :: url == DataUrl(name, port, videoId) {
      var name, port :| url == DataUrl(name, port, videoId);
      DataUrlIdOfDataUrl(name, port, videoId);
    }
  }

  /** Two data URLs that are equal name the same video, whatever server name
      and port each was built with. */
  lemma DataUrlIdInjective(n1: string, p1: int, id1: int, n2: string, p2: int, id2: int)
    requires DataUrl(n1, p1, id1) == DataUrl(n2, p2, id2)
    ensures id1 == id2
  {
    DataUrlIdOfDataUrl(n1, p1, id1);
    DataUrlIdOfDataUrl(n2, p2, id2);
  }
}
