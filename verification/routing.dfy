/** Where an `open` command sends its URL: the window-name normalisation,
    the target routing of `execute("open")`, and `openExternal`. */
module Routing {
  import opened Wrappers
  import opened Strings
  import Navigation

  const SelfTarget: string := "_self"
  const SystemTarget: string := "_system"
  /** The window name `optString(1)` reads from a JSON null argument. */
  const NullTarget: string := "null"
  const FileUrlPrefix: string := "file://"
  const JavascriptPrefix: string := "javascript:"

  /** The name Java gives `ActivityNotFoundException` in its `toString`. */
  const ActivityNotFound: string := "android.content.ActivityNotFoundException"

  /** The window name as the native side reads it with `optString(1)`: an
      empty string, or "null" (a JSON null argument), means "_self". */
  function NormalizeTarget(target: string): (t: string)
    ensures t == SelfTarget <==> target == "" || target == NullTarget || target == SelfTarget
    ensures t != SelfTarget ==> t == target
    ensures t != ""
  {
    if target == "" || target == NullTarget then SelfTarget else target
  }

  /** Where the URL ends up. */
  datatype Route =
    | MainView   // loaded in the application's own web view
    | Dialer     // handed to the phone dialer
    | Dialog     // shown in the in-app browser dialog
    | External   // handed to the system's view action

  /** URLs a "_self" open may load in the application's own web view;
      `allowed` stands for the host's allow-list (`Config.isUrlWhiteListed`). */
  predicate LoadsInMainView(url: string, allowed: string -> bool) {
    StartsWith(url, FileUrlPrefix) || StartsWith(url, JavascriptPrefix) || allowed(url)
  }

  /** The routing of `execute("open")` for an already normalised target. */
  function RouteOf(url: string, target: string, allowed: string -> bool): (r: Route)
    ensures r == External <==> target == SystemTarget
    ensures r == MainView <==> target == SelfTarget && LoadsInMainView(url, allowed)
    ensures r == Dialer <==>
      target == SelfTarget && !LoadsInMainView(url, allowed) && StartsWith(url, Navigation.TelScheme)
    ensures target != SelfTarget && target != SystemTarget ==> r == Dialog
  {
    if target == SelfTarget then
      if LoadsInMainView(url, allowed) then MainView
      else if StartsWith(url, Navigation.TelScheme) then Dialer
      else Dialog
    else if target == SystemTarget then External
    else Dialog
  }

  /** The view intent `openExternal` starts: the URL, and whether the intent
      carries a MIME type (it does exactly for URLs whose scheme is "file"). */
  datatype ExternalIntent = ExternalIntent(url: string, typed: bool)

  /** The scheme `Uri.parse(url).getScheme()` yields: the text before the
      first ':', if there is one. */
  function UriScheme(url: string): (r: Option<string>)
    ensures r.Some? ==> ':' !in r.value && |r.value| < |url| && url[..|r.value| + 1] == r.value + ":"
    ensures r.None? <==> ':' !in url
  {
    match IndexOf(url, ':')
    case None => None
    case Some(i) => assert url[..i + 1] == url[..i] + ":"; Some(url[..i])
  }

  /** `Throwable.toString` of the exception raised when no application takes
      the intent: the class name, then ": " and the message if there is one. */
  function FailureText(message: Option<string>): (t: string)
    ensures StartsWith(t, ActivityNotFound)
  {
    match message
    case None => ActivityNotFound
    case Some(m) =>
      assert (ActivityNotFound + ": " + m)[..|ActivityNotFound|] == ActivityNotFound;
      ActivityNotFound + ": " + m
  }

  /** `openExternal`: the intent it starts, and the result string it returns,
      which is "" on success and the exception text when `failure` says that
      no application took the intent. */
  function OpenExternal(url: string, failure: Option<Option<string>>): (r: (ExternalIntent, string))
    ensures r.0.url == url
    ensures r.0.typed <==> StartsWith(url, Navigation.FileScheme)
    ensures r.1 == "" <==> failure.None?
    ensures failure.Some? ==> r.1 == FailureText(failure.value)
  {
    var typed := UriScheme(url) == Some("file");
    assert typed <==> StartsWith(url, Navigation.FileScheme) by {
      if StartsWith(url, Navigation.FileScheme) {
        assert url[..5] == "file:";
        assert url[4] == ':' && ':' !in url[..4];
        assert IndexOf(url, ':') == Some(4);
        assert url[..4] == "file";
      }
      if typed {
        assert url[..5] == "file" + ":";
      }
    }
    var result := match failure
      case None => ""
      case Some(m) => FailureText(m);
    (ExternalIntent(url, typed), result)
  }

  /** A "_system" open never reaches the dialog or the application's own web
      view, whatever the URL and the allow-list. */
  lemma SystemGoesExternal(url: string, allowed: string -> bool)
    ensures RouteOf(url, NormalizeTarget(SystemTarget), allowed) == External
  {
  }

  /** A missing, empty or "null" window name routes exactly like "_self". */
  lemma DefaultTargetIsSelf(url: string, target: string, allowed: string -> bool)
    requires target == "" || target == NullTarget
    ensures RouteOf(url, NormalizeTarget(target), allowed) == RouteOf(url, SelfTarget, allowed)
  {
  }

  /** Any window name other than the two reserved ones opens the dialog. */
  lemma OtherTargetsOpenDialog(url: string, target: string, allowed: string -> bool)
    requires target != "" && target != NullTarget
    requires target != SelfTarget && target != SystemTarget
    ensures RouteOf(url, NormalizeTarget(target), allowed) == Dialog
  {
  }

  /** A "_self" open of a tel: URL goes to the dialer unless the allow-list
      admits it. */
  lemma SelfTelDials(url: string, allowed: string -> bool)
    requires StartsWith(url, Navigation.TelScheme) && !allowed(url)
    ensures RouteOf(url, SelfTarget, allowed) == Dialer
  {
    assert url[0] == 't' by { assert url[0] == url[..4][0]; }
  }
}
