/** The Chrome extension's icon-click handler. */
module ChromeExtension {
  import YouTubeLinks
  import opened ExtensionMessages

  const InvalidTitle: string := "Invalid YouTube Link"
  const InvalidText: string := "Could not process this link."

  /**
   * Clicking the toolbar icon on a tab showing `url`. Pausing the page's
   * video is left out. The empty-link notification is kept as in
   * background.js, and the contract shows it can never be shown.
   */
  function IconClick(url: string): (e: Effect)
    ensures !IsVideoPage(url) ==> e == Notify(NotVideoTitle, NotVideoText)
    ensures IsVideoPage(url) ==> e == OpenClapper(YouTubeLinks.NormalizeYouTubeLink(url))
    ensures e != Notify(InvalidTitle, InvalidText)
  {
    if !IsVideoPage(url) then Notify(NotVideoTitle, NotVideoText)
    else
      var link := YouTubeLinks.NormalizeYouTubeLink(url);
      if link == "" then Notify(InvalidTitle, InvalidText)
      else OpenClapper(link)
  }
}
