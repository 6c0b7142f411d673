/**
 * What the two browser extensions share: the native message they send
 * (`openClapper`), the page test of the icon click, and the context-menu
 * handler. Browser APIs are reduced to the effect a handler asks for.
 */
module ExtensionMessages {
  import opened Results
  import opened Json
  import opened Strings
  import YouTubeLinks
  import Validator

  /** The native-messaging host both extensions address. */
  const NativeHostName: string := "com.example.clapper"

  /** What a handler asks the browser to do. */
  datatype Effect =
    | Notify(title: string, message: string)
    | SendNative(host: string, payload: Value)

  const NotVideoTitle: string := "Not a YouTube video"
  const NotVideoText: string := "This page is not a YouTube video."

  /** `openClapper(videoLink)`: the message `{ link: videoLink }` to the Clapper host. */
  function OpenClapper(link: string): (e: Effect)
    ensures e.SendNative? && e.host == NativeHostName
    ensures e.payload.Object? && e.payload.members.Keys == {Validator.LinkKey}
    ensures e.payload.members[Validator.LinkKey] == Text(link)
  {
    SendNative(NativeHostName, Object(map[Validator.LinkKey := Text(link)]))
  }

  /** `s.includes(t)`. */
  predicate Contains(s: string, t: string) {
    exists i: nat :: i <= |s| && HasAt(s, i, t)
  }

  const WatchMention: string := "youtube.com/watch"
  const ShortsMention: string := "youtube.com/shorts/"

  /** The icon-click test: the tab's URL mentions a watch page or a shorts page. */
  predicate IsVideoPage(url: string) {
    Contains(url, WatchMention) || Contains(url, ShortsMention)
  }

  /** The context-menu handler (the same in both extensions): no page test, the link is normalized and sent. */
  function ContextMenuClick(menuItemId: string, linkUrl: string): (e: Option<Effect>)
    ensures e.Some? <==> menuItemId == "sendToClapper"
    ensures e.Some? ==> e.value == OpenClapper(YouTubeLinks.NormalizeYouTubeLink(linkUrl))
  {
    if menuItemId == "sendToClapper" then Some(OpenClapper(YouTubeLinks.NormalizeYouTubeLink(linkUrl))) else None
  }

  // ---------------------------------------------------------------------------
  // From the extension to the host

  /**
   * The host's verdict on a message from `openClapper` depends only on the
   * link: it is handed back unchanged when it is on the allow-list, and
   * refused as "Invalid YouTube URL" otherwise.
   */
  lemma HostVerdictOnLink(link: string)
    ensures Validator.ValidateMessage(OpenClapper(link).payload) ==
              (if Validator.AllowedLink(link) then Ok(link) else Err(Validator.NotYouTube))
  {
  }

  /**
   * End to end: a URL holding a shorts match is always accepted by the host,
   * as its canonical watch URL; any other URL reaches the host unchanged and
   * is accepted exactly when it is already on the allow-list.
   */
  lemma NormalizedLinkVerdict(url: string)
    ensures var link := YouTubeLinks.NormalizeYouTubeLink(url);
            var verdict := Validator.ValidateMessage(OpenClapper(link).payload);
            && ((exists i :: YouTubeLinks.MatchAt(url, i, YouTubeLinks.ShortsPath)) ==>
                  verdict == Ok(link) && YouTubeLinks.IsWatchUrl(link))
            && ((forall i :: !YouTubeLinks.MatchAt(url, i, YouTubeLinks.ShortsPath)) ==>
                  link == url && (verdict.Ok? <==> Validator.AllowedLink(url)))
  {
    var link := YouTubeLinks.NormalizeYouTubeLink(url);
    YouTubeLinks.NormalizeShape(url);
    if link != url {
      YouTubeLinks.RewrittenLinkAllowed(url);
    }
    HostVerdictOnLink(link);
  }

  /** A URL with a shorts match always passes the icon-click test. */
  lemma ShortsUrlIsVideoPage(url: string, i: nat)
    requires YouTubeLinks.MatchAt(url, i, YouTubeLinks.ShortsPath)
    ensures IsVideoPage(url)
  {
    YouTubeLinks.MatchShowsPath(url, i, YouTubeLinks.ShortsPath);
    ShortsMentionParts();
  }

  lemma ShortsMentionParts()
    ensures YouTubeLinks.BareHost + YouTubeLinks.ShortsPath == ShortsMention
  {
    var t := YouTubeLinks.BareHost + YouTubeLinks.ShortsPath;
    forall k | 0 <= k < |t|
      ensures t[k] == ShortsMention[k]
    {
    }
  }

  /** Every canonical watch URL, and so every rewritten link, passes the icon-click test. */
  lemma WatchUrlIsVideoPage(s: string)
    requires YouTubeLinks.IsWatchUrl(s)
    ensures IsVideoPage(s)
  {
    YouTubeLinks.WatchUrlParts(s);
    var k := |YouTubeLinks.SecureScheme| + 4;
    HasAtConcat(s, |YouTubeLinks.SecureScheme|, "www.", YouTubeLinks.BareHost);
    HasAtConcat(s, k, YouTubeLinks.BareHost, YouTubeLinks.WatchPath);
    HasAtConcat(s, k, WatchMention, "?v=");
    WatchMentionParts();
  }

  lemma WatchMentionParts()
    ensures YouTubeLinks.BareHost + YouTubeLinks.WatchPath == WatchMention + "?v="
  {
    var t := YouTubeLinks.BareHost + YouTubeLinks.WatchPath;
    forall k | 0 <= k < |t|
      ensures t[k] == (WatchMention + "?v=")[k]
    {
    }
  }

  /** A video page's URL is never empty, and neither is its normalized link. */
  lemma VideoPageLinkNonEmpty(url: string)
    requires IsVideoPage(url)
    ensures YouTubeLinks.NormalizeYouTubeLink(url) != ""
  {
    YouTubeLinks.NormalizeShape(url);
    var i: nat :| i <= |url| && (HasAt(url, i, WatchMention) || HasAt(url, i, ShortsMention));
  }

  /** Only one ':' in a string, after "https", and no YouTube host after the scheme: nothing matches. */
  lemma NoMatchWithoutHost(s: string, path: string)
    requires forall k :: 0 <= k < |s| && s[k] == ':' ==> k == 5
    requires AfterSchemeIsNotYouTube(s)
    ensures forall i :: !YouTubeLinks.MatchAt(s, i, path)
  {
    forall i: nat
      ensures !YouTubeLinks.MatchAt(s, i, path)
    {
      if YouTubeLinks.MatchAt(s, i, path) {
        YouTubeLinks.MatchHasColon(s, i, path);
      }
    }
  }

  predicate AfterSchemeIsNotYouTube(s: string) {
    && YouTubeLinks.AfterScheme(s, 0).Some?
    && YouTubeLinks.AfterHost(s, YouTubeLinks.AfterScheme(s, 0).value).None?
    && YouTubeLinks.AfterScheme(s, 1).None?
  }

  /** `https://m.youtube.com/watch?v=abc`: a watch page on the mobile host. */
  const MobileWatchUrl: string := YouTubeLinks.SecureScheme + MobileRest
  const MobileRest: string := "m.youtube.com/watch?v=abc"

  /**
   * A mobile watch page passes the icon-click test but is sent unchanged,
   * and the host refuses it: the page test and the host's allow-list
   * disagree on hosts other than www.youtube.com.
   */
  lemma MobileWatchPageRefused()
    ensures IsVideoPage(MobileWatchUrl)
    ensures YouTubeLinks.NormalizeYouTubeLink(MobileWatchUrl) == MobileWatchUrl
    ensures Validator.ValidateMessage(OpenClapper(MobileWatchUrl).payload) == Err(Validator.NotYouTube)
  {
    MobileIsVideoPage();
    MobileColonAfterScheme();
    MobileHostNotYouTube();
    NoMatchWithoutHost(MobileWatchUrl, YouTubeLinks.ShortsPath);
    YouTubeLinks.OthersUnchanged(MobileWatchUrl);
    MobileNotAllowed();
    HostVerdictOnLink(MobileWatchUrl);
  }

  lemma MobileIsVideoPage()
    ensures IsVideoPage(MobileWatchUrl)
  {
    var url := MobileWatchUrl;
    forall k | 0 <= k < |WatchMention|
      ensures url[10 + k] == WatchMention[k]
    {
      assert url[10 + k] == MobileRest[2 + k];
    }
    assert HasAt(url, 10, WatchMention);
  }

  lemma MobileNotAllowed()
    ensures !Validator.AllowedLink(MobileWatchUrl)
  {
    assert MobileWatchUrl[8] == MobileRest[0] != Validator.HttpsPrefix[8];
    assert MobileWatchUrl[4] == YouTubeLinks.SecureScheme[4] != Validator.HttpPrefix[4];
  }

  lemma MobileColonAfterScheme()
    ensures forall k :: 0 <= k < |MobileWatchUrl| && MobileWatchUrl[k] == ':' ==> k == 5
  {
    forall k | 8 <= k < |MobileWatchUrl|
      ensures MobileWatchUrl[k] != ':'
    {
      assert MobileWatchUrl[k] == MobileRest[k - 8];
      assert MobileRest[k - 8] in MobileRest;
    }
  }

  lemma MobileHostNotYouTube()
    ensures AfterSchemeIsNotYouTube(MobileWatchUrl)
  {
    var url := MobileWatchUrl;
    assert HasAt(url, 0, YouTubeLinks.SecureScheme);
    assert YouTubeLinks.AfterScheme(url, 0) == Some(8);
    assert url[1] == 't';
    assert url[8] == 'm';
  }
}
