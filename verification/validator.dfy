/** `validate_message`: the request must be an object whose `link` is a string on the allow-list. */
module Validator {
  import opened Results
  import opened Json
  import opened Strings

  const LinkKey: string := "link"
  const HttpsPrefix: string := "https://www.youtube.com/"
  const HttpPrefix: string := "http://www.youtube.com/"

  const NotAnObject: string := "Invalid message format"
  const MissingLink: string := "Missing required 'link' field"
  const LinkNotString: string := "Link must be a string"
  const NotYouTube: string := "Invalid YouTube URL"

  /** The allow-list: a prefix match on exactly two strings, no URL parsing. */
  predicate AllowedLink(link: string) {
    StartsWith(link, HttpsPrefix) || StartsWith(link, HttpPrefix)
  }

  /** The four checks in order; the first that fails names the error. */
  function ValidateMessage(message: Value): (r: Result<string>)
    ensures r.Ok? <==>
              message.Object? && LinkKey in message.members &&
              message.members[LinkKey].Text? && AllowedLink(message.members[LinkKey].s)
    ensures r.Ok? ==> r.value == message.members[LinkKey].s
    ensures r.Err? ==> r.error in {NotAnObject, MissingLink, LinkNotString, NotYouTube}
  {
    if !message.Object? then Err(NotAnObject)
    else if LinkKey !in message.members then Err(MissingLink)
    else
      var link := message.members[LinkKey];
      if !link.Text? then Err(LinkNotString)
      else if !AllowedLink(link.s) then Err(NotYouTube)
      else Ok(link.s)
  }

  /** Each error names the first check that fails, and no later one. */
  lemma ErrorOrder(message: Value)
    ensures !message.Object? ==> ValidateMessage(message) == Err(NotAnObject)
    ensures message.Object? && LinkKey !in message.members ==> ValidateMessage(message) == Err(MissingLink)
    ensures message.Object? && LinkKey in message.members && !message.members[LinkKey].Text? ==>
              ValidateMessage(message) == Err(LinkNotString)
    ensures message.Object? && LinkKey in message.members && message.members[LinkKey].Text? &&
            !AllowedLink(message.members[LinkKey].s) ==>
              ValidateMessage(message) == Err(NotYouTube)
  {
  }

  /** Other members of the request play no part: only the `link` value decides. */
  lemma OnlyLinkMatters(m1: map<string, Value>, m2: map<string, Value>)
    requires LinkKey in m1 <==> LinkKey in m2
    requires LinkKey in m1 ==> m1[LinkKey] == m2[LinkKey]
    ensures ValidateMessage(Object(m1)) == ValidateMessage(Object(m2))
  {
  }

  /** Two YouTube links pass; a link to another host and a `javascript:` link fail. */
  lemma Examples()
    ensures ValidateMessage(Object(map[LinkKey := Text("https://www.youtube.com/watch?v=abc")]))
            == Ok("https://www.youtube.com/watch?v=abc")
    ensures ValidateMessage(Object(map[LinkKey := Text("http://www.youtube.com/watch?v=abc")]))
            == Ok("http://www.youtube.com/watch?v=abc")
    ensures ValidateMessage(Object(map[LinkKey := Text("https://evil.com/watch?v=abc")])) == Err(NotYouTube)
    ensures ValidateMessage(Object(map[LinkKey := Text("javascript:alert(1)")])) == Err(NotYouTube)
  {
    var evil := "https://evil.com/watch?v=abc";
    assert evil[8] != HttpsPrefix[8];
    assert evil[4] != HttpPrefix[4];
    var js := "javascript:alert(1)";
    assert js[0] != HttpsPrefix[0];
    assert js[0] != HttpPrefix[0];
  }
}
