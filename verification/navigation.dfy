/** What the in-app web view does when a page starts loading
    (`InAppBrowserBetaClient.onPageStarted`) and when the user asks it to go
    to a typed address (`navigate`): URLs are classified by scheme prefix,
    some are handed off to another application, and the location shown in
    the address field and reported in the `loadstart` event is derived from
    the URL. */
module Navigation {
  import opened Wrappers
  import opened Strings

  const HttpScheme: string := "http:"
  const HttpsScheme: string := "https:"
  const FileScheme: string := "file:"
  const TelScheme: string := "tel:"
  const GeoScheme: string := "geo:"
  const MailtoScheme: string := "mailto:"
  const MarketScheme: string := "market:"
  const SmsScheme: string := "sms:"
  const HttpPrefix: string := "http://"
  const BodyParam: string := "body="

  /** What is handed to the operating system instead of being loaded in the
      web view. The failure of the hand-off (no application can take it) is
      only logged, so it does not appear here. */
  datatype Handoff =
    | NoHandoff
    | Dial(url: string)
    | View(url: string)
    | Sms(address: string, body: Option<string>)

  /** The outcome of a page start: the location written to the address field
      and carried by the `loadstart` event, and the hand-off, if any. */
  datatype PageStart = PageStart(location: string, handoff: Handoff)

  /** URLs the web view loads itself. */
  predicate IsWebUrl(url: string) {
    StartsWith(url, HttpScheme) || StartsWith(url, HttpsScheme) || StartsWith(url, FileScheme)
  }

  /** URLs handed to the generic view action. */
  predicate IsViewUrl(url: string) {
    StartsWith(url, GeoScheme) || StartsWith(url, MailtoScheme) || StartsWith(url, MarketScheme)
  }

  /** The part of `t` before its first fragment mark '#', or all of `t`. */
  function UpToFragment(t: string): (r: string)
    ensures '#' !in r && |r| <= |t| && r == t[..|r|]
    ensures |r| < |t| ==> t[|r|] == '#'
    ensures '#' !in t ==> r == t
  {
    match IndexOf(t, '#')
    case None => t
    case Some(f) => t[..f]
  }

  /** The raw query of an `sms:` URL as `Uri.getQuery` finds it before
      percent-decoding: the text after the first '?' up to the fragment
      mark '#', and none when there is no '?' or the '#' comes first. */
  function RawQuery(url: string): (r: Option<string>)
    ensures r.Some? ==> '?' in url && '#' !in r.value
    ensures '?' !in url ==> r.None?
  {
    match IndexOf(url, '?')
    case None => None
    case Some(q) =>
      if '#' in url[..q] then None
      else Some(UpToFragment(url[q + 1..]))
  }

  /** The SMS hand-off: the address runs from after "sms:" to the first '?'
      (or the end), and the body is the decoded query minus "body=" when the
      decoded query starts with "body=". `decode` stands for the
      percent-decoding of `Uri.getQuery`. */
  function SmsHandoff(url: string, decode: string -> string): (h: Handoff)
    requires StartsWith(url, SmsScheme)
    ensures h.Sms?
    ensures '?' !in h.address
    ensures '?' !in url ==> h == Sms(url[|SmsScheme|..], None)
    ensures '?' in url ==>
      |SmsScheme| + |h.address| < |url| && url[..|SmsScheme| + |h.address| + 1] == SmsScheme + h.address + "?"
  {
    assert forall i :: 0 <= i < |SmsScheme| ==> url[i] == SmsScheme[i];
    match IndexOf(url, '?')
    case None => Sms(url[4..], None)
    case Some(p) =>
      var address := url[4..p];
      assert '?' !in address by {
        assert address == url[..p][4..];
      }
      SchemeThenAddress(url, p);
      match RawQuery(url)
      case None => Sms(address, None)
      case Some(query) =>
        var decoded := decode(query);
        if StartsWith(decoded, BodyParam) then Sms(address, Some(decoded[5..]))
        else Sms(address, None)
  }

  /** Up to the first '?', an `sms:` URL is the scheme and the address. */
  lemma SchemeThenAddress(url: string, p: int)
    requires StartsWith(url, SmsScheme) && |SmsScheme| <= p < |url| && url[p] == '?'
    ensures url[..p + 1] == SmsScheme + url[|SmsScheme|..p] + "?"
  {
    assert url[..p + 1] == url[..|SmsScheme|] + url[|SmsScheme|..p] + [url[p]];
  }

  lemma FirstCharOf(url: string, p: string)
    requires |p| > 0 && StartsWith(url, p)
    ensures url[0] == p[0]
  {
    assert url[0] == url[..|p|][0];
  }

  /** The schemes the classification tests are told apart by their first
      letter. */
  lemma SchemeInitials(url: string)
    ensures IsWebUrl(url) ==> url[0] == 'h' || url[0] == 'f'
    ensures StartsWith(url, TelScheme) ==> url[0] == 't'
    ensures IsViewUrl(url) ==> url[0] == 'g' || url[0] == 'm'
    ensures StartsWith(url, SmsScheme) ==> url[0] == 's'
  {
    if StartsWith(url, HttpScheme) { FirstCharOf(url, HttpScheme); }
    if StartsWith(url, HttpsScheme) { FirstCharOf(url, HttpsScheme); }
    if StartsWith(url, FileScheme) { FirstCharOf(url, FileScheme); }
    if StartsWith(url, TelScheme) { FirstCharOf(url, TelScheme); }
    if StartsWith(url, GeoScheme) { FirstCharOf(url, GeoScheme); }
    if StartsWith(url, MailtoScheme) { FirstCharOf(url, MailtoScheme); }
    if StartsWith(url, MarketScheme) { FirstCharOf(url, MarketScheme); }
    if StartsWith(url, SmsScheme) { FirstCharOf(url, SmsScheme); }
  }

  /** Page-start classification, in the order `onPageStarted` tests the schemes. */
  function OnPageStarted(url: string, decode: string -> string): (r: PageStart)
    ensures r.handoff.NoHandoff? <==> r.location != ""
    ensures r.location != "" ==> IsWebUrl(r.location)
    ensures IsWebUrl(url) ==> r == PageStart(url, NoHandoff)
    ensures r.handoff.Dial? <==> StartsWith(url, TelScheme)
    ensures r.handoff.Dial? || r.handoff.View? ==> r.handoff.url == url
    ensures r.handoff.View? <==> IsViewUrl(url)
    ensures r.handoff.Sms? <==> StartsWith(url, SmsScheme)
  {
    SchemeInitials(url);
    if IsWebUrl(url) then PageStart(url, NoHandoff)
    else if StartsWith(url, TelScheme) then PageStart("", Dial(url))
    else if IsViewUrl(url) then PageStart("", View(url))
    else if StartsWith(url, SmsScheme) then PageStart("", SmsHandoff(url, decode))
    else
      assert (HttpPrefix + url)[..|HttpScheme|] == HttpScheme;
      PageStart(HttpPrefix + url, NoHandoff)
  }

  /** The address typed into the location field, as loaded by `navigate`:
      anything that starts with neither "http" nor "file:" gets "http://" in
      front. */
  function NavigateUrl(url: string): (r: string)
    ensures StartsWith(r, "http") || StartsWith(r, FileScheme)
    ensures r == url <==> StartsWith(url, "http") || StartsWith(url, FileScheme)
    ensures r != url ==> r == HttpPrefix + url
  {
    if !StartsWith(url, "http") && !StartsWith(url, FileScheme) then
      assert (HttpPrefix + url)[..4] == "http";
      HttpPrefix + url
    else url
  }

  /** A URL that matches none of the known schemes is reported with "http://"
      in front, and nothing is handed off. */
  lemma UnknownSchemeIsPrefixed(url: string, decode: string -> string)
    requires !IsWebUrl(url) && !IsViewUrl(url)
    requires !StartsWith(url, TelScheme) && !StartsWith(url, SmsScheme)
    ensures OnPageStarted(url, decode) == PageStart(HttpPrefix + url, NoHandoff)
  {
  }

  /** Starting a page at the location just reported reports it again and
      hands nothing off: the reported location is a fixed point. */
  lemma ReportedLocationIsStable(url: string, decode: string -> string)
    ensures var loc := OnPageStarted(url, decode).location;
      loc != "" ==> OnPageStarted(loc, decode) == PageStart(loc, NoHandoff)
  {
  }

  /** Navigating twice loads the same address as navigating once. */
  lemma NavigateIdempotent(url: string)
    ensures NavigateUrl(NavigateUrl(url)) == NavigateUrl(url)
  {
  }

  /** Whatever `navigate` loads is reported unchanged when its page starts,
      unless it merely begins with "http" without being an http: or https:
      URL: such an address is loaded as typed but reported with "http://" in
      front. */
  lemma NavigateThenReport(url: string, decode: string -> string)
    ensures var loaded := NavigateUrl(url);
      IsWebUrl(loaded) ==> OnPageStarted(loaded, decode).location == loaded
    ensures var loaded := NavigateUrl(url);
      !IsWebUrl(loaded) ==> OnPageStarted(loaded, decode).location == HttpPrefix + loaded
  {
    var loaded := NavigateUrl(url);
    if !IsWebUrl(loaded) {
      assert StartsWith(loaded, "http");
      assert loaded[..4] == "http";
      assert !StartsWith(loaded, TelScheme) by { assert loaded[0] == 'h'; }
      assert !StartsWith(loaded, SmsScheme) by { assert loaded[0] == 'h'; }
      assert !StartsWith(loaded, GeoScheme) by { assert loaded[0] == 'h'; }
      assert !StartsWith(loaded, MailtoScheme) by { assert loaded[0] == 'h'; }
      assert !StartsWith(loaded, MarketScheme) by { assert loaded[0] == 'h'; }
    }
  }

  /** An SMS URL put together from an address and a query hands off exactly
      that address, and as the body the decoded query, up to any fragment,
      minus "body=". */
  lemma SmsOfParts(address: string, query: string, decode: string -> string)
    requires '?' !in address && '#' !in address
    ensures var d := decode(UpToFragment(query));
      SmsHandoff(SmsScheme + address + "?" + query, decode)
        == Sms(address, if StartsWith(d, BodyParam) then Some(d[5..]) else None)
  {
    var url := SmsScheme + address + "?" + query;
    var p := |SmsScheme| + |address|;
    assert url[p] == '?';
    assert url[..p] == SmsScheme + address;
    assert '?' !in url[..p];
    assert IndexOf(url, '?') == Some(p);
    assert url[p + 1..] == query;
    assert '#' !in url[..p];
    assert RawQuery(url) == Some(UpToFragment(query));
  }

  /** An SMS URL without a query hands off the whole rest as the address and
      no body. */
  lemma SmsWithoutQuery(address: string, decode: string -> string)
    requires '?' !in address
    ensures SmsHandoff(SmsScheme + address, decode) == Sms(address, None)
  {
    assert '?' !in SmsScheme + address;
    assert (SmsScheme + address)[4..] == address;
  }

  /** Every `sms:` URL is handed off and reported as the empty location. */
  lemma SmsUrlHandsOff(url: string, decode: string -> string)
    requires StartsWith(url, SmsScheme)
    ensures OnPageStarted(url, decode) == PageStart("", SmsHandoff(url, decode))
  {
    SchemeInitials(url);
  }

  lemma BodyParamOf(text: string)
    ensures StartsWith(BodyParam + text, BodyParam) && (BodyParam + text)[5..] == text
  {
    assert (BodyParam + text)[..5] == BodyParam;
  }

  /** An SMS URL whose query is "body=" and a fragment-free body, with a
      decoding that leaves that query unchanged, hands off the body. */
  lemma SmsOfBody(address: string, body: string, decode: string -> string)
    requires '?' !in address && '#' !in address && '#' !in body
    requires decode(BodyParam + body) == BodyParam + body
    ensures OnPageStarted(SmsScheme + address + "?" + BodyParam + body, decode)
      == PageStart("", Sms(address, Some(body)))
  {
    var query := BodyParam + body;
    var url := SmsScheme + address + "?" + query;
    BodyParamOf(body);
    assert url == SmsScheme + address + "?" + BodyParam + body;
    assert StartsWith(url, SmsScheme) by {
      assert url[..4] == SmsScheme;
    }
    assert '#' !in query;
    SmsOfParts(address, query, decode);
    SmsUrlHandsOff(url, decode);
  }

  /** "sms:555?body=Hi there" hands "555" off as the address and "Hi there"
      as the body, given that decoding leaves the query unchanged. The URL is
      a parameter pinned by the precondition, so that the proof can name its
      parts instead of unfolding one long literal. */
  lemma SmsExample(url: string, decode: string -> string)
    requires url == "sms:555?body=Hi there"
    requires decode("body=Hi there") == "body=Hi there"
    ensures OnPageStarted(url, decode) == PageStart("", Sms("555", Some("Hi there")))
  {
    assert BodyParam + "Hi there" == "body=Hi there";
    assert url == SmsScheme + "555" + "?" + BodyParam + "Hi there";
    SmsOfBody("555", "Hi there", decode);
  }
}
