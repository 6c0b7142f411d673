/** The Firefox extension's icon-click handler. */
module FirefoxExtension {
  import opened Results
  import YouTubeLinks
  import Validator
  import opened ExtensionMessages

  /**
   * Clicking the toolbar icon on a tab showing `url`. Unlike Chrome there is
   * no empty-link check: every page that passes the test is sent.
   */
  function IconClick(url: string): (e: Effect)
    ensures !IsVideoPage(url) ==> e == Notify(NotVideoTitle, NotVideoText)
    ensures IsVideoPage(url) ==> e.SendNative? && e == OpenClapper(YouTubeLinks.NormalizeYouTubeLink(url))
  {
    if !IsVideoPage(url) then Notify(NotVideoTitle, NotVideoText)
    else OpenClapper(YouTubeLinks.NormalizeYouTubeLink(url))
  }

  /**
   * A click on a page whose URL holds a shorts match sends the watch URL of
   * the leftmost match's identifier, and the host accepts it unchanged.
   */
  lemma ShortsPageSendsWatchUrl(url: string, i: nat)
    requires YouTubeLinks.MatchAt(url, i, YouTubeLinks.ShortsPath)
    requires forall j :: 0 <= j < i ==> !YouTubeLinks.MatchAt(url, j, YouTubeLinks.ShortsPath)
    ensures var link := YouTubeLinks.WatchUrlPrefix + YouTubeLinks.Capture(url, i, YouTubeLinks.ShortsPath);
            && IconClick(url) == OpenClapper(link)
            && Validator.ValidateMessage(IconClick(url).payload) == Ok(link)
  {
    ShortsUrlIsVideoPage(url, i);
    YouTubeLinks.ShortsRewritten(url, i);
    NormalizedLinkVerdict(url);
  }
}
