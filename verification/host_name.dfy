/** The host-name label shown next to each story: `getHostName` in ui.js. */
module HostName {
  import opened JsString

  /** The scheme separator whose presence selects the authority segment. */
  const SchemeSeparator: string := "://"

  /** The prefix stripped from a host name. */
  const WwwPrefix: string := "www."

  /** A URL holding "://" has at least two slashes, so splitting it on '/'
      gives at least three segments and index 2 exists. */
  lemma {:induction false} SchemeGivesThreeSegments(url: string)
    requires IndexOf(url, SchemeSeparator) > -1
    ensures |Split(url, '/')| >= 3
  {
    var r := IndexOf(url, SchemeSeparator);
    assert url == url[..r] + SchemeSeparator + url[r + 3..];
    CountConcat(url[..r], SchemeSeparator, '/');
    CountConcat(url[..r] + SchemeSeparator, url[r + 3..], '/');
    assert Count(SchemeSeparator, '/') == 2 by {
      assert SchemeSeparator[1..] == "//";
      assert SchemeSeparator[1..][1..] == "/";
      assert SchemeSeparator[1..][1..][1..] == "";
    }
    SplitLength(url, '/');
  }

  /** The segment of `url` the host name is taken from: segment 2 of the split
      on '/' when the URL holds "://", segment 0 otherwise. */
  function HostSegment(url: string): (seg: string)
    ensures '/' !in seg
    ensures IsSubstring(seg, url)
    ensures IndexOf(url, SchemeSeparator) == -1 ==> seg <= url
  {
    var parts := Split(url, '/');
    if IndexOf(url, SchemeSeparator) > -1 then
      SchemeGivesThreeSegments(url);
      SegmentIsSubstring(url, '/', 2);
      parts[2]
    else
      SegmentIsSubstring(url, '/', 0);
      parts[0]
  }

  /** Drops one leading "www." (the comparison of the first four characters
      with "www." and the slice from index 4). */
  function StripWww(host: string): (r: string)
    ensures |host| >= 4 && host[..4] == WwwPrefix ==> r == host[4..]
    ensures !(|host| >= 4 && host[..4] == WwwPrefix) ==> r == host
    ensures IsSubstring(r, host)
  {
    if Slice(host, 0, 4) == WwwPrefix then
      assert OccursAt(host, host[4..], 4);
      SliceFrom(host, 4)
    else
      assert OccursAt(host, host, 0);
      host
  }

  /** `getHostName(url)`: defined on every string, free of '/', and a
      substring of the URL no longer than the segment it came from. */
  function GetHostName(url: string): (r: string)
    ensures '/' !in r
    ensures IsSubstring(r, url)
    ensures |r| <= |HostSegment(url)|
  {
    var seg := HostSegment(url);
    var r := StripWww(seg);
    SubstringTransitive(r, seg, url);
    r
  }

  /** Stripping happens once only: a doubled prefix keeps its second copy,
      so applying `getHostName` again gives a different answer. */
  lemma {:induction false} StripIsNotIdempotent(rest: string)
    requires '/' !in rest
    ensures GetHostName(WwwPrefix + WwwPrefix + rest) == WwwPrefix + rest
    ensures GetHostName(GetHostName(WwwPrefix + WwwPrefix + rest)) == rest
  {
    var twice, once := WwwPrefix + WwwPrefix + rest, WwwPrefix + rest;
    assert twice == WwwPrefix + once;
    assert '/' !in WwwPrefix;
    NoSchemeHost(twice);
    assert twice[..4] == WwwPrefix && twice[4..] == once;
    NoSchemeHost(once);
    assert once[..4] == WwwPrefix && once[4..] == rest;
  }

  /** Without '/', there is no "://" and the host segment is the whole string
      (so "localhost:8080" is its own host name). */
  lemma NoSchemeHost(url: string)
    requires '/' !in url
    ensures !IsSubstring(SchemeSeparator, url)
    ensures HostSegment(url) == url
  {
    forall i | 0 <= i && i + 3 <= |url| ensures !OccursAt(url, SchemeSeparator, i) {
      assert url[i..i + 3][1] == url[i + 1];
    }
    SplitWithoutSeparator(url, '/');
  }

  /** The segment choice, in terms of the split alone. */
  lemma SegmentChoice(url: string)
    ensures IsSubstring(SchemeSeparator, url) ==>
      |Split(url, '/')| >= 3 && HostSegment(url) == Split(url, '/')[2]
    ensures !IsSubstring(SchemeSeparator, url) ==> HostSegment(url) == Split(url, '/')[0]
  {
    if IsSubstring(SchemeSeparator, url) {
      SchemeGivesThreeSegments(url);
    }
  }

  /** In `scheme://host/path` (or `scheme://host`) the host segment is `host`. */
  lemma {:induction false} SchemeUrlHost(scheme: string, host: string, path: string)
    requires '/' !in scheme && '/' !in host
    requires path == [] || path[0] == '/'
    ensures HostSegment(scheme + SchemeSeparator + host + path) == host
  {
    var url := scheme + SchemeSeparator + host + path;
    assert url == (scheme + ":") + ['/'] + ([] + ['/'] + (host + path));
    assert OccursAt(url, SchemeSeparator, |scheme|);
    SplitAfterSegment(scheme + ":", '/', [] + ['/'] + (host + path));
    SplitAfterSegment([], '/', host + path);
    SegmentChoice(url);
    if path == [] {
      assert host + path == host;
      SplitWithoutSeparator(host, '/');
    } else {
      assert host + path == host + ['/'] + path[1..];
      SplitAfterSegment(host, '/', path[1..]);
    }
  }

  /** In `host/path` (or `host`) without "://" the host segment is `host`. */
  lemma {:induction false} PlainUrlHost(host: string, path: string)
    requires '/' !in host
    requires path == [] || path[0] == '/'
    requires !IsSubstring(SchemeSeparator, host + path)
    ensures HostSegment(host + path) == host
  {
    SegmentChoice(host + path);
    if path == [] {
      assert host + path == host;
      SplitWithoutSeparator(host, '/');
    } else {
      assert host + path == host + ['/'] + path[1..];
      SplitAfterSegment(host, '/', path[1..]);
    }
  }

  /** A full URL loses its scheme, its path and its "www.". */
  lemma FullUrlExample(url: string)
    requires url == "http://www.ab.io/x"
    ensures GetHostName(url) == "ab.io"
  {
    assert url == "http" + SchemeSeparator + "www.ab.io" + "/x";
    SchemeUrlHost("http", "www.ab.io", "/x");
    assert "www.ab.io"[..4] == WwwPrefix;
  }
}
