/**
 * The two pure helpers of the YouTube downloader (download_song.py): the URL check that gates a
 * download and the extraction of a video id.
 *
 * urlparse and parse_qs are not part of this model: GetVideoId receives the URL's path and its
 * query parameters, in order, as the caller parsed them.
 */
module DownloadSong {
  import opened Wrappers

  /** The prefixes validate_url accepts, in the order it lists them. */
  const YouTubePrefixes: seq<string> :=
    ["https://www.youtube.com/", "https://youtu.be/", "http://www.youtube.com/", "http://youtu.be/"]

  /** str.startswith with a tuple of prefixes. */
  function StartsWithAny(s: string, prefixes: seq<string>): (b: bool)
    ensures b <==> exists i :: 0 <= i < |prefixes| && prefixes[i] <= s
    decreases |prefixes|
  {
    if prefixes == [] then false
    else if prefixes[0] <= s then true
    else
      var b := StartsWithAny(s, prefixes[1..]);
      assert forall i :: 1 <= i < |prefixes| ==> prefixes[i] == prefixes[1..][i - 1];
      b
  }

  /** validate_url: a URL is accepted exactly when it starts with one of the four prefixes. */
  function ValidateUrl(url: string): (ok: bool)
    ensures ok <==>
      || "https://www.youtube.com/" <= url
      || "https://youtu.be/" <= url
      || "http://www.youtube.com/" <= url
      || "http://youtu.be/" <= url
  {
    var ok := StartsWithAny(url, YouTubePrefixes);
    assert ok ==> exists i :: 0 <= i < 4 && YouTubePrefixes[i] <= url;
    ok
  }

  /** A youtube.com address without "www." is rejected, over https and over http. */
  lemma BareYouTubeDomainRejected(rest: string)
    ensures !ValidateUrl("https://youtube.com/" + rest)
    ensures !ValidateUrl("http://youtube.com/" + rest)
  {
    var s := "https://youtube.com/" + rest;
    var t := "http://youtube.com/" + rest;
    assert s[8] == 'y' && s[13] == 'b' && s[4] == 's';
    assert t[7] == 'y' && t[12] == 'b' && t[4] == ':';
  }

  /** The sample watch URL of the script is accepted. */
  lemma WatchUrlAccepted(videoId: string)
    ensures ValidateUrl("https://www.youtube.com/watch?v=" + videoId)
  {
    var s := "https://www.youtube.com/watch?v=" + videoId;
    assert s[..24] == "https://www.youtube.com/";
  }

  /** Python's `sub in s` on strings. */
  function Contains(s: string, sub: string): (b: bool)
    ensures b <==> exists i :: 0 <= i <= |s| - |sub| && sub <= s[i..]
    decreases |s|
  {
    if sub <= s then
      assert sub <= s[0..];
      true
    else if |s| == 0 then false
    else
      var b := Contains(s[1..], sub);
      assert forall i :: 1 <= i <= |s| ==> s[1..][i - 1..] == s[i..];
      b
  }

  /** One key=value pair of a query string, before parse_qs groups them. */
  datatype QueryParam = QueryParam(name: string, value: string)

  /** What urlparse and parse_qs give GetVideoId: the URL's path and its query pairs in order. */
  datatype UrlParts = UrlParts(path: string, query: seq<QueryParam>)

  /** Position of the first pair naming `key` with a non-blank value, or |query| if there is none. */
  function FirstKeyIndex(query: seq<QueryParam>, key: string): (i: nat)
    ensures i <= |query|
    ensures i < |query| ==> query[i].name == key && query[i].value != ""
    ensures forall j :: 0 <= j < i ==> query[j].name != key || query[j].value == ""
    decreases |query|
  {
    if query == [] then 0
    else if query[0].name == key && query[0].value != "" then 0
    else 1 + FirstKeyIndex(query[1..], key)
  }

  /**
   * parse_qs(query).get(key, [None])[0]: the first non-blank value given for `key`, since
   * parse_qs drops blank values by default; None when there is none.
   */
  function FirstValue(query: seq<QueryParam>, key: string): (r: Option<string>)
    ensures r.None? <==> forall i :: 0 <= i < |query| ==> query[i].name != key || query[i].value == ""
    ensures r.Some? ==>
      r.value != ""
      && exists i :: 0 <= i < |query| && query[i] == QueryParam(key, r.value)
           && forall j :: 0 <= j < i ==> query[j].name != key || query[j].value == ""
  {
    var i := FirstKeyIndex(query, key);
    if i < |query| then Some(query[i].value) else None
  }

  /** str.lstrip(c): drop every leading c. */
  function LStrip(s: string, c: char): (r: string)
    ensures |r| <= |s| && r == s[|s| - |r|..]
    ensures r == [] || r[0] != c
    ensures forall k :: 0 <= k < |s| - |r| ==> s[k] == c
    decreases |s|
  {
    if |s| > 0 && s[0] == c then
      var r := LStrip(s[1..], c);
      assert forall k :: 1 <= k < |s| ==> s[k] == s[1..][k - 1];
      r
    else s
  }

  /**
   * get_video_id: a URL mentioning "youtube.com" (checked first, so also one mentioning both)
   * yields its first `v` query value; otherwise one mentioning "youtu.be" yields its path with
   * the leading slashes removed; any other URL yields None.
   */
  function GetVideoId(url: string, parts: UrlParts): (id: Option<string>)
    ensures Contains(url, "youtube.com") ==> id == FirstValue(parts.query, "v")
    ensures !Contains(url, "youtube.com") && Contains(url, "youtu.be") ==>
      id.Some? && |id.value| <= |parts.path| && id.value == parts.path[|parts.path| - |id.value|..]
      && (id.value == [] || id.value[0] != '/')
      && forall k :: 0 <= k < |parts.path| - |id.value| ==> parts.path[k] == '/'
    ensures !Contains(url, "youtube.com") && !Contains(url, "youtu.be") ==> id.None?
  {
    if Contains(url, "youtube.com") then FirstValue(parts.query, "v")
    else if Contains(url, "youtu.be") then Some(LStrip(parts.path, '/'))
    else None
  }

  /** Every URL that validate_url accepts reaches one of the two extracting branches of get_video_id. */
  lemma ValidUrlHasIdBranch(url: string)
    requires ValidateUrl(url)
    ensures Contains(url, "youtube.com") || Contains(url, "youtu.be")
  {
    PrefixesNameDomain();
    if "https://www.youtube.com/" <= url {
      PrefixContains(url, "https://www.youtube.com/", 12, "youtube.com");
    } else if "https://youtu.be/" <= url {
      PrefixContains(url, "https://youtu.be/", 8, "youtu.be");
    } else if "http://www.youtube.com/" <= url {
      PrefixContains(url, "http://www.youtube.com/", 11, "youtube.com");
    } else {
      PrefixContains(url, "http://youtu.be/", 7, "youtu.be");
    }
  }

  /** Where each accepted prefix spells its domain. */
  lemma PrefixesNameDomain()
    ensures "https://www.youtube.com/"[12..23] == "youtube.com"
    ensures "https://youtu.be/"[8..16] == "youtu.be"
    ensures "http://www.youtube.com/"[11..22] == "youtube.com"
    ensures "http://youtu.be/"[7..15] == "youtu.be"
  {
  }

  /** A string that starts with p contains whatever p holds at offset k. */
  lemma PrefixContains(s: string, p: string, k: nat, sub: string)
    requires p <= s && k + |sub| <= |p| && p[k..k + |sub|] == sub
    ensures Contains(s, sub)
  {
    assert s[k..][..|sub|] == p[k..k + |sub|];
  }
}
