/**
 * `normalizeYouTubeLink`, the same in both extensions. The two regular
 * expressions
 *   /https?:\/\/(?:www\.)?youtube\.com\/shorts\/([a-zA-Z0-9_-]+)/
 *   /https?:\/\/(?:www\.)?youtube\.com\/watch\?v=([a-zA-Z0-9_-]+)/
 * differ only in the path after the host, and are matched by hand: at a
 * given start the optional `s` and the optional `www.` can each succeed in
 * at most one way, so a match is determined by its start, and the capture
 * is the longest run of identifier characters after the path.
 */
module YouTubeLinks {
  import opened Results
  import opened Strings
  import Validator

  const SecureScheme: string := "https://"
  const PlainScheme: string := "http://"
  const BareHost: string := "youtube.com/"
  const WwwHost: string := "www." + BareHost
  const ShortsPath: string := "shorts/"
  const WatchPath: string := "watch?v="

  /** What a shorts link is rewritten to, before the video identifier: `https://www.youtube.com/watch?v=`. */
  const WatchUrlPrefix: string := SecureScheme + WwwHost + WatchPath

  /** `[a-zA-Z0-9_-]`. */
  predicate IsIdChar(c: char) {
    ('a' <= c <= 'z') || ('A' <= c <= 'Z') || ('0' <= c <= '9') || c == '_' || c == '-'
  }

  /** `https?:\/\/` at `i`: the index after it. */
  function AfterScheme(s: string, i: nat): (j: Option<nat>) {
    if HasAt(s, i, SecureScheme) then Some(i + |SecureScheme|)
    else if HasAt(s, i, PlainScheme) then Some(i + |PlainScheme|)
    else None
  }

  /** `(?:www\.)?youtube\.com\/` at `j`: the index after it. */
  function AfterHost(s: string, j: nat): (p: Option<nat>) {
    if HasAt(s, j, WwwHost) then Some(j + |WwwHost|)
    else if HasAt(s, j, BareHost) then Some(j + |BareHost|)
    else None
  }

  /** Where the captured identifier would begin for a match of the pattern with `path` at `i`. */
  function IdStart(s: string, i: nat, path: string): (k: Option<nat>)
    ensures k.Some? ==> k.value <= |s|
  {
    match AfterScheme(s, i)
    case None => None
    case Some(j) =>
      match AfterHost(s, j)
      case None => None
      case Some(p) => if HasAt(s, p, path) then Some(p + |path|) else None
  }

  /** The end of the longest run of identifier characters starting at `j`: what a greedy `+` takes. */
  function RunEnd(s: string, j: nat): (k: nat)
    requires j <= |s|
    ensures j <= k <= |s|
    ensures forall m :: j <= m < k ==> IsIdChar(s[m])
    ensures k == |s| || !IsIdChar(s[k])
    decreases |s| - j
  {
    if j < |s| && IsIdChar(s[j]) then RunEnd(s, j + 1) else j
  }

  /** The pattern with `path` matches at `i`: the fixed part is there and at least one identifier character follows. */
  predicate MatchAt(s: string, i: nat, path: string) {
    IdStart(s, i, path).Some? && RunEnd(s, IdStart(s, i, path).value) > IdStart(s, i, path).value
  }

  /** Capture group 1 of a match at `i`: the longest identifier run right after the path. */
  function Capture(s: string, i: nat, path: string): (id: string)
    requires MatchAt(s, i, path)
    ensures |id| > 0 && forall m :: 0 <= m < |id| ==> IsIdChar(id[m])
    ensures var k := IdStart(s, i, path).value;
            HasAt(s, k, id) && (k + |id| == |s| || !IsIdChar(s[k + |id|]))
  {
    var k := IdStart(s, i, path).value;
    s[k..RunEnd(s, k)]
  }

  /** The leftmost match at or after `from`, as `RegExp.test` and `String.match` find it. */
  function FindMatch(s: string, path: string, from: nat): (r: Option<nat>)
    ensures r.Some? ==> from <= r.value && MatchAt(s, r.value, path)
    ensures r.Some? ==> forall j :: from <= j < r.value ==> !MatchAt(s, j, path)
    ensures r.None? ==> forall j :: from <= j ==> !MatchAt(s, j, path)
    decreases |s| - from
  {
    if from >= |s| then
      assert forall j :: from <= j ==> !HasAt(s, j, PlainScheme) && !HasAt(s, j, SecureScheme);
      None
    else if MatchAt(s, from, path) then Some(from)
    else FindMatch(s, path, from + 1)
  }

  /** A canonical watch URL: the prefix, then a non-empty identifier. */
  predicate IsWatchUrl(s: string) {
    && HasAt(s, 0, WatchUrlPrefix)
    && |s| > |WatchUrlPrefix|
    && forall m :: |WatchUrlPrefix| <= m < |s| ==> IsIdChar(s[m])
  }

  /**
   * `normalizeYouTubeLink(url)`. The watch test changes nothing: both of its
   * outcomes return `url`.
   */
  function NormalizeYouTubeLink(url: string): (out: string)
    ensures FindMatch(url, ShortsPath, 0).None? ==> out == url
    ensures FindMatch(url, ShortsPath, 0).Some? ==>
              && IsWatchUrl(out)
              && out[|WatchUrlPrefix|..] == Capture(url, FindMatch(url, ShortsPath, 0).value, ShortsPath)
  {
    match FindMatch(url, ShortsPath, 0)
    case Some(i) =>
      var out := WatchUrlPrefix + Capture(url, i, ShortsPath);
      assert out[..|WatchUrlPrefix|] == WatchUrlPrefix;
      out
    case None => if FindMatch(url, WatchPath, 0).Some? then url else url
  }

  // ---------------------------------------------------------------------------
  // Properties

  /** A URL with a shorts match becomes the watch URL of the leftmost match's identifier. */
  lemma ShortsRewritten(url: string, i: nat)
    requires MatchAt(url, i, ShortsPath)
    requires forall j :: 0 <= j < i ==> !MatchAt(url, j, ShortsPath)
    ensures NormalizeYouTubeLink(url) == WatchUrlPrefix + Capture(url, i, ShortsPath)
    ensures IsWatchUrl(NormalizeYouTubeLink(url))
  {
    var r := FindMatch(url, ShortsPath, 0);
    assert r.Some?;
    assert r.value == i by {
      if r.value < i {
      } else if r.value > i {
      }
    }
    var out := WatchUrlPrefix + Capture(url, i, ShortsPath);
    assert out[..|WatchUrlPrefix|] == WatchUrlPrefix;
  }

  /** Without a shorts match, the URL comes back unchanged, whether or not it matches the watch pattern. */
  lemma OthersUnchanged(url: string)
    requires forall j :: !MatchAt(url, j, ShortsPath)
    ensures NormalizeYouTubeLink(url) == url
  {
  }

  /** A match shows its host and path: "youtube.com/" followed by the path occurs in the text. */
  lemma MatchShowsPath(s: string, i: nat, path: string)
    requires MatchAt(s, i, path)
    ensures exists k: nat :: HasAt(s, k, BareHost + path)
  {
    var j := AfterScheme(s, i).value;
    var p := AfterHost(s, j).value;
    if HasAt(s, j, WwwHost) {
      HasAtConcat(s, j, "www.", BareHost);
    }
    var k := p - |BareHost|;
    assert HasAt(s, k, BareHost) && HasAt(s, p, path);
    HasAtConcat(s, k, BareHost, path);
  }

  /** The three parts of a canonical watch URL's prefix, where they stand. */
  lemma WatchUrlParts(s: string)
    requires IsWatchUrl(s)
    ensures HasAt(s, 0, SecureScheme)
    ensures HasAt(s, |SecureScheme|, WwwHost)
    ensures HasAt(s, |SecureScheme| + |WwwHost|, WatchPath)
  {
    HasAtConcat(s, 0, SecureScheme + WwwHost, WatchPath);
    HasAtConcat(s, 0, SecureScheme, WwwHost);
  }

  /** The only ':' in a canonical watch URL is the one after the scheme. */
  lemma ColonOnlyAfterScheme(s: string, k: nat)
    requires IsWatchUrl(s)
    requires k < |s| && s[k] == ':'
    ensures k == 5
  {
    WatchUrlParts(s);
    if k < 8 {
      HasAtChar(s, 0, SecureScheme, k);
    } else if k < 24 {
      HasAtChar(s, 8, WwwHost, k - 8);
    }
  }

  /** A match needs a ':' four or five characters after its start. */
  lemma MatchHasColon(s: string, i: nat, path: string)
    requires MatchAt(s, i, path)
    ensures (i + 5 < |s| && s[i + 5] == ':' && HasAt(s, i, SecureScheme)) ||
            (i + 4 < |s| && s[i + 4] == ':' && HasAt(s, i, PlainScheme))
  {
    if HasAt(s, i, SecureScheme) {
      HasAtChar(s, i, SecureScheme, 5);
    } else {
      HasAtChar(s, i, PlainScheme, 4);
    }
  }

  /** A canonical watch URL never matches the shorts pattern. */
  lemma NoShortsInWatchUrl(s: string)
    requires IsWatchUrl(s)
    ensures forall i :: !MatchAt(s, i, ShortsPath)
  {
    forall i: nat
      ensures !MatchAt(s, i, ShortsPath)
    {
      if MatchAt(s, i, ShortsPath) {
        MatchHasColon(s, i, ShortsPath);
        if HasAt(s, i, SecureScheme) && i + 5 < |s| && s[i + 5] == ':' {
          ColonOnlyAfterScheme(s, i + 5);
          NoShortsAtStart(s);
        } else {
          ColonOnlyAfterScheme(s, i + 4);
          NoSchemeAtOne(s);
        }
      }
    }
  }

  /** Index 1 of a canonical watch URL is the 't' of "https", so no scheme starts there. */
  lemma NoSchemeAtOne(s: string)
    requires IsWatchUrl(s)
    ensures AfterScheme(s, 1).None?
  {
    WatchUrlParts(s);
    HasAtChar(s, 0, SecureScheme, 1);
  }

  /** At index 0 the scheme and host match, but the path is `watch?v=`, not `shorts/`. */
  lemma NoShortsAtStart(s: string)
    requires IsWatchUrl(s)
    ensures !MatchAt(s, 0, ShortsPath)
  {
    WatchUrlParts(s);
    assert AfterScheme(s, 0) == Some(8);
    assert AfterHost(s, 8) == Some(24);
    HasAtChar(s, 24, WatchPath, 0);
    if HasAt(s, 24, ShortsPath) {
      HasAtChar(s, 24, ShortsPath, 0);
    }
  }

  /** The output is either the unchanged input (exactly when nothing matched) or a canonical watch URL. */
  lemma NormalizeShape(url: string)
    ensures NormalizeYouTubeLink(url) == url <==> forall j :: !MatchAt(url, j, ShortsPath)
    ensures NormalizeYouTubeLink(url) != url ==> IsWatchUrl(NormalizeYouTubeLink(url))
  {
    var r := FindMatch(url, ShortsPath, 0);
    if r.Some? {
      ShortsRewritten(url, r.value);
      if NormalizeYouTubeLink(url) == url {
        NoShortsInWatchUrl(url);
      }
    } else {
      OthersUnchanged(url);
    }
  }

  /** Normalizing twice is normalizing once. */
  lemma Idempotent(url: string)
    ensures NormalizeYouTubeLink(NormalizeYouTubeLink(url)) == NormalizeYouTubeLink(url)
  {
    var out := NormalizeYouTubeLink(url);
    NormalizeShape(url);
    if out != url {
      NoShortsInWatchUrl(out);
      OthersUnchanged(out);
    }
  }

  /** A rewritten link always passes the host's allow-list. */
  lemma RewrittenLinkAllowed(url: string)
    requires NormalizeYouTubeLink(url) != url
    ensures Validator.AllowedLink(NormalizeYouTubeLink(url))
  {
    var out := NormalizeYouTubeLink(url);
    NormalizeShape(url);
    WatchUrlParts(out);
    HasAtConcat(out, 0, SecureScheme, WwwHost);
    SecureHostIsAllowed();
  }

  /** The scheme and host of the rewritten link spell the first prefix of the host's allow-list. */
  lemma SecureHostIsAllowed()
    ensures SecureScheme + WwwHost == Validator.HttpsPrefix
  {
    var t := SecureScheme + WwwHost;
    forall k | 0 <= k < |t|
      ensures t[k] == Validator.HttpsPrefix[k]
    {
    }
  }
}
