# InAppBrowserBeta in Dafny

A Dafny model of the Android InAppBrowserBeta plugin for Cordova and of its
JavaScript front end. JavaScript opens a URL through the bridge in one of three
places: the application's own web view, a dialog with its own web view, or
another application. The native side sends the dialog's page events back as
typed notifications. Scripts and styles can be injected into the dialog, and
optionally report back through a `gap-iab://` prompt.

The model is functional. Strings are `seq<char>`, and the plugin instance is an
immutable record (`Browser.State`). That record holds:

- the pending callback;
- whether the dialog web view exists;
- the display and cache flags;
- the close-button caption.

Each command is a function from one state to the next, and also returns the
plugin results it sends.

Modules, one file each:

| file | module | what it holds |
|---|---|---|
| wrappers.dfy | `Wrappers` | `Option` and `Result` |
| strings.dfy | `Strings` | `startsWith`, `indexOf`, substring occurrence, "no `//`" |
| tokenizer.dfy | `Tokenizer` | `java.util.StringTokenizer`, split and join |
| features.dfy | `Features` | `parseFeature`, the flag resolution of `showWebPage`, cookie clearing |
| json.dfy | `Json` | JSON string quoting as `JSONArray.toString` writes it, and a decoder for the string literals that writer emits |
| injection.dfy | `Injection` | the inject wrappers, `String.format` for `%s`/`%%`, `injectDeferredObject` |
| navigation.dfy | `Navigation` | `onPageStarted` URL classification, SMS parsing, `navigate` |
| routing.dfy | `Routing` | window-name normalisation, open routing, `openExternal` |
| browser.dfy | `Browser` | the plugin state machine: `open`, `close`, inject, page events, `sendUpdate` |
| bridge.dfy | `Bridge` | the JavaScript object: channels, listeners, `_eventHandler`, `executeScript`, `insertCSS`, `open` arguments |

Stand-ins for foreign code:

- The host's allow-list (`Config.isUrlWhiteListed`) is a parameter `allowed: string -> bool`.
- The percent-decoding done by `Uri.getQuery` is a parameter `decode: string -> string`.
- Whether an external activity can be started is a parameter `failure`. It is
  `None` when the activity starts, or `Some(message)` when
  `ActivityNotFoundException` is thrown.

## Model

| member | source | states |
|---|---|---|
| Tokenizer.Tokens | src/android/InAppBrowserBeta.java:358-361 | Every token of a `StringTokenizer` is non-empty and holds no delimiter. |
| Tokenizer.TokensAreNonEmptyPieces | src/android/InAppBrowserBeta.java:358-361 | The tokens are exactly the non-empty pieces of splitting at every delimiter. Runs of delimiters, and delimiters at either end, produce no token. |
| Tokenizer.JoinPieces | src/android/InAppBrowserBeta.java:358 | Splitting at every delimiter and joining with it again gives back the text. |
| Tokenizer.TokensOfJoin | src/android/InAppBrowserBeta.java:358-361 | Non-empty, delimiter-free tokens joined by the delimiter tokenize back to the same list. |
| Features.CaptionKeyAscii | src/android/InAppBrowserBeta.java:364 | For an ASCII key, `equalsIgnoreCase("closebuttoncaption")` holds exactly when the key lower-cased is "closebuttoncaption". |
| Features.ParseEntry | src/android/InAppBrowserBeta.java:361-369 | A segment with no `=`-token contributes nothing, and one with a single token is a missing value. Otherwise the first token is the key and the second the value. A key equal to "closebuttoncaption" ignoring case sets the caption verbatim. Any other key is a flag, false exactly when the value is "no". |
| Features.Entries | src/android/InAppBrowserBeta.java:358-361 | There is one entry per non-empty comma-separated segment, in order. |
| Features.ParseFeature | src/android/InAppBrowserBeta.java:353-374 | "null" yields no map and keeps the caption. Any other string yields a map, unless some segment has a key but no value, which raises an error. |
| Features.ParseFeatureFlags | src/android/InAppBrowserBeta.java:360-369 | The map's keys are exactly the flag keys and never the caption key. Each key maps to the value of its last segment, so a later duplicate overwrites an earlier one. |
| Features.ParseFeatureLabel | src/android/InAppBrowserBeta.java:362-365 | The caption is the value of the last caption segment. With no caption segment it is unchanged. |
| Features.RenderRoundTrip | src/android/InAppBrowserBeta.java:353-374 | A feature string rendered from well-formed key/value pairs parses to a map. Its keys are the pairs' non-caption keys, and each holds `value != "no"` of its last pair. |
| Features.RenderCaption | src/android/InAppBrowserBeta.java:362-365 | For rendered pairs, the caption is the value of the last caption pair. |
| Features.ParseExample | src/android/InAppBrowserBeta.java:353-374 | "a=no,b=yes,closebuttoncaption=X" parses to {a: false, b: true} with caption "X". |
| Features.MissingValueExample | src/android/InAppBrowserBeta.java:361-366 | A lone key, or a key followed only by "=", raises the missing-value error. |
| Features.ResolveFlags | src/android/InAppBrowserBeta.java:521-550 | The location bar defaults to shown and hidden defaults to false, and the map overrides each. The cache flags keep their previous values unless named. "clearsessioncache" is read only when "clearcache" is absent. |
| Features.DisplayFlagsAreReset | src/android/InAppBrowserBeta.java:523-535 | The display flags depend only on the features, never on an earlier open. A null map gives location shown and not hidden. |
| Features.CacheFlagsPersist | src/android/InAppBrowserBeta.java:542-550 | The cache flags survive an open whose features do not name them. |
| Features.ClearCacheWins | src/android/InAppBrowserBeta.java:542-550 | A present "clearcache" leaves the session-cache flag alone. "clearcache=yes" clears all cookies. |
| Features.ResolveIdempotent | src/android/InAppBrowserBeta.java:523-550 | Resolving the same features twice equals resolving them once. |
| Features.CookieClearingOf | src/android/InAppBrowserBeta.java:726-730 | All cookies are removed exactly when clear-all-cache is set. Session cookies are removed exactly when only clear-session-cache is set. |
| Json.EscapeChar | src/android/InAppBrowserBeta.java:321-324 | A character is written as itself exactly when it is not `"`, `\`, `/`, a control character, U+2028 or U+2029. The two separators become six-character `\u` escapes. A `/` is always written as `\/`. |
| Json.UnquoteQuote | src/android/InAppBrowserBeta.java:321-324 | Decoding the quoted source as a JSON string gives back the source. |
| Json.QuoteShape | src/android/InAppBrowserBeta.java:321-324 | The quoted source starts and ends with `"`, and contains no two consecutive solidi. |
| Injection.InjectDeferredObject | src/android/InAppBrowserBeta.java:319-329 | Without a wrapper the script is the source itself. With one, the script is the wrapper formatted with the JSON-quoted source. |
| Injection.JsWrapper | src/android/InAppBrowserBeta.java:211-244 | Only script code injected without awaiting has no wrapper. A wrapper that is not awaited is never formatted, so it cannot fail. |
| Injection.JsWrapperShape | src/android/InAppBrowserBeta.java:211-244 | For a callback id without `%`, every wrapper formats. It keeps exactly one `%s`, between the wrapper's head and its tail, and the tail carries the id when the command awaits. |
| Injection.ScriptFor | src/android/InAppBrowserBeta.java:211-244 | Script code injected without awaiting is the source verbatim. Otherwise the script is the built wrapper formatted with the quoted source, and it fails only when building the wrapper fails. |
| Injection.StripBracketsQuote | src/android/InAppBrowserBeta.java:321-325 | Dropping the first and last character of the one-element JSON array leaves exactly the quoted source. |
| Injection.FormatTwice | src/android/InAppBrowserBeta.java:212-244 | An awaited wrapper written as head `%%s` middle `%s` tail is formatted first with the callback id and then with the source. This gives head, source, middle, id and tail in that order. |
| Injection.ScriptShape | src/android/InAppBrowserBeta.java:211-244 | Without a wrapper (script code, not awaited) the script is the source verbatim. Otherwise it is the wrapper's text around the JSON-quoted source. No format error occurs unless the callback id holds `%`. |
| Injection.AwaitedScriptCarriesCallback | src/android/InAppBrowserBeta.java:211-244 | Every awaited script contains "gap-iab://" followed by the command's callback id. |
| Injection.UnawaitedScriptIsSilent | src/android/InAppBrowserBeta.java:219-244 | A file script or a style that is not awaited contains no "gap-iab://" at all, whatever its source. |
| Navigation.OnPageStarted | src/android/InAppBrowserBeta.java:898-960 | http:, https: and file: URLs are reported unchanged. tel: goes to the dialer, geo:/mailto:/market: to the view action and sms: to the SMS hand-off, each reported as "". Anything else is reported as "http://" + url. The reported location is empty exactly when something is handed off, and otherwise it is a web URL. |
| Navigation.SmsHandoff | src/android/InAppBrowserBeta.java:925-948 | The address is the text after "sms:" up to the first `?` (or the end), and holds no `?`. Without a `?` there is no body. |
| Navigation.UpToFragment | src/android/InAppBrowserBeta.java:939-940 | The query `getQuery` returns stops before the first `#`: the result is the longest `#`-free prefix of the text after `?`. |
| Navigation.SmsOfParts | src/android/InAppBrowserBeta.java:929-948 | For "sms:" + address + "?" + query, with a `#`-free address and any query, the address is handed off. The body is the decoded query, cut before its first `#`, minus "body=". There is a body exactly when that decoded text starts with "body=". |
| Navigation.SmsOfBody | src/android/InAppBrowserBeta.java:925-948 | "sms:" + address + "?body=" + body, with a fragment-free body that decoding keeps, hands off that address and body and is reported as "". |
| Navigation.SmsWithoutQuery | src/android/InAppBrowserBeta.java:931-934 | "sms:" + address without `?` hands off that address and no body. |
| Navigation.SmsExample | src/android/InAppBrowserBeta.java:925-948 | "sms:555?body=Hi there" hands off address "555" and body "Hi there", and is reported as "". |
| Navigation.UnknownSchemeIsPrefixed | src/android/InAppBrowserBeta.java:955-957 | A URL with none of the known schemes is reported as "http://" + url, with no hand-off. |
| Navigation.ReportedLocationIsStable | src/android/InAppBrowserBeta.java:898-960 | Starting a page at a reported location reports that same location again and hands nothing off. |
| Navigation.NavigateUrl | src/android/InAppBrowserBeta.java:480-490 | A typed address that starts with neither "http" nor "file:" is loaded with "http://" in front, and otherwise unchanged. |
| Navigation.NavigateIdempotent | src/android/InAppBrowserBeta.java:480-490 | Navigating to the address `navigate` loaded loads the same address. |
| Navigation.NavigateThenReport | src/android/InAppBrowserBeta.java:480-490 | A loaded web URL is reported unchanged when its page starts. An address that merely begins with "http" (such as "httpbin.org") is loaded as typed but reported with "http://" in front. |
| Routing.NormalizeTarget | src/android/InAppBrowserBeta.java:154-158 | "", "null" and "_self" all become "_self". Every other window name is kept. |
| Routing.RouteOf | src/android/InAppBrowserBeta.java:164-200 | A "_self" open of a file:// or javascript: URL, or of an allow-listed URL, loads in the main web view. A "_self" open of a tel: URL goes to the dialer, and any other "_self" open goes to the dialog. "_system" goes to the external handler, and every other target to the dialog. |
| Routing.SystemGoesExternal | src/android/InAppBrowserBeta.java:191-195 | "_system" always goes to the external handler. |
| Routing.DefaultTargetIsSelf | src/android/InAppBrowserBeta.java:154-157 | An empty or "null" window name routes exactly like "_self". |
| Routing.OtherTargetsOpenDialog | src/android/InAppBrowserBeta.java:196-200 | Every non-reserved window name opens the dialog. |
| Routing.SelfTelDials | src/android/InAppBrowserBeta.java:176-186 | A "_self" tel: URL that is not allow-listed goes to the dialer. |
| Routing.UriScheme | src/android/InAppBrowserBeta.java:389-390 | The scheme is the text before the first `:`. There is none exactly when the URL has no `:`. |
| Routing.FailureText | src/android/InAppBrowserBeta.java:397-399 | The exception text always starts with the exception's class name. |
| Routing.OpenExternal | src/android/InAppBrowserBeta.java:383-401 | The intent carries a MIME type exactly for "file:" URLs. The result is "" exactly when an activity is started, and otherwise the exception text. |
| Browser.SendUpdate | src/android/InAppBrowserBeta.java:839-848 | With no pending callback nothing is sent and nothing changes. With one, exactly one result goes to it, and the callback stays pending exactly when the result keeps it. |
| Browser.ReleasedSendsNothing | src/android/InAppBrowserBeta.java:839-848 | Once the callback is released, any run of updates sends nothing and changes nothing. |
| Browser.SendAllDelivers | src/android/InAppBrowserBeta.java:839-848 | With a pending callback, exactly the updates up to and including the first non-keeping one are delivered, to that callback, in order. |
| Browser.Open | src/android/InAppBrowserBeta.java:150-206 | The command's callback becomes the pending one even when parsing fails, and the caption is whatever parsing left. On a parse error nothing is sent. Otherwise there is one OK result with keep-callback to the command's callback. It carries "" or, for "_system", the `openExternal` text. Only the dialog route creates the web view and resolves the flags. |
| Browser.Close | src/android/InAppBrowserBeta.java:418-455 | Without a web view nothing happens. With one, an `exit` goes to the pending callback without keep-callback, the callback is released and the web view stays. |
| Browser.Inject | src/android/InAppBrowserBeta.java:319-345 | The script fails exactly when its formatting fails. Otherwise "javascript:" + script is loaded exactly when a web view exists. |
| Browser.PageStarted | src/android/InAppBrowserBeta.java:898-975 | The `loadstart` event carries exactly the reported location, with keep-callback, and the hand-off is that of the classification. |
| Browser.PageFinished | src/android/InAppBrowserBeta.java:978-990 | A `loadstop` event carrying the URL is sent with keep-callback. Once the callback is released nothing is sent, and the state never changes. |
| Browser.ReceivedError | src/android/InAppBrowserBeta.java:992-1006 | A `loaderror` event carrying the URL, code and message is sent with the error status and keep-callback. Once the callback is released nothing is sent, and the state never changes. |
| Browser.Show | src/android/InAppBrowserBeta.java:245-256 | The posted `dialog.show()` throws on the UI thread exactly when no dialog web view was built. A bare OK result with keep-callback goes to the pending callback. Without a pending callback the command throws instead, because it skips the null test of `sendUpdate`. The state never changes. |
| Browser.ShowAfterCloseThrows | src/android/InAppBrowserBeta.java:245-256 | After a close has released the callback, `show` throws a NullPointerException. Before any open, both the command and the UI thread throw. |
| Browser.ShowWithoutDialogCrashes | src/android/InAppBrowserBeta.java:245-256 | After an open that built no dialog (`_system`, main view or dialer), `show` sends its OK result to the open command's callback, and then the UI thread throws. |
| Browser.ShowThenClose | src/android/InAppBrowserBeta.java:245-256 | With the dialog open, `show` replies without any crash and keeps the callback, so a later close still sends `exit` to the open command's callback. |
| Browser.CloseTwiceSendsNothing | src/android/InAppBrowserBeta.java:418-455 | A second close sends nothing and changes nothing. |
| Browser.CloseBeforeOpenIsSilent | src/android/InAppBrowserBeta.java:418-424 | A close before any dialog exists is silent. |
| Browser.OpenDialogThenClose | src/android/InAppBrowserBeta.java:446-452 | After a dialog open, close delivers exactly one `exit` to the open command's callback and releases it. |
| Browser.SystemOpenLeavesDialogAlone | src/android/InAppBrowserBeta.java:191-204 | A "_system" open neither creates the web view nor touches the flags. Its single result is the `openExternal` text. |
| Browser.AllowListedSelfLoadsInMainView | src/android/InAppBrowserBeta.java:164-172 | An allow-listed URL opened with a null window name loads in the main web view and answers "". |
| Browser.MissingValueOpenSendsNothing | src/android/InAppBrowserBeta.java:150-160 | A feature segment without a value makes `open` send nothing, although the callback has become the pending one. |
| Browser.InjectAfterCloseStillLoads | src/android/InAppBrowserBeta.java:418-455 | Close never clears the web view, so a later injection is still loaded. |
| Browser.InjectWithoutWebViewLoadsNothing | src/android/InAppBrowserBeta.java:339 | Before any dialog exists an injection loads nothing. |
| Browser.PageEventsKeepCallback | src/android/InAppBrowserBeta.java:964-975 | A page start keeps the callback, so a following close still delivers `exit`. |
| Bridge.NewRegistry | www/inappbrowserbeta.js:27-37 | A new object has the seven channels, each without subscribers. |
| Bridge.AddEventListenerAsWritten | www/inappbrowserbeta.js:60-64 | As written, a name inherited from `Object.prototype` throws a TypeError. Every other name behaves as intended. |
| Bridge.RemoveEventListenerAsWritten | www/inappbrowserbeta.js:65-69 | As written, a name inherited from `Object.prototype` throws a TypeError. Every other name behaves as intended. |
| Bridge.EventHandlerAsWritten | www/inappbrowserbeta.js:40-44 | As written, an event whose type is an inherited name throws a TypeError. Every other event is dispatched as intended. |
| Bridge.InheritedNameThrows | www/inappbrowserbeta.js:60-69 | "toString" makes all three as-written members throw. |
| Bridge.AddEventListener | www/inappbrowserbeta.js:60-64 | Subscribes the listener to a channel name, changes no other channel, and ignores any other name. |
| Bridge.RemoveEventListener | www/inappbrowserbeta.js:65-69 | Unsubscribes the listener from a channel name, changes no other channel, and ignores any other name. |
| Bridge.Dispatch | www/inappbrowserbeta.js:40-44 | An event reaches the subscribers of its channel. An event without a type, or whose type is not a channel, reaches nobody. |
| Bridge.AddThenRemove | www/inappbrowserbeta.js:60-69 | Adding a new listener and removing it again restores the registry. |
| Bridge.ListenerHearsItsChannel | www/inappbrowserbeta.js:40-64 | A listener added to one channel receives an event exactly when the event is of that channel. |
| Bridge.UnknownNamesAreIgnored | www/inappbrowserbeta.js:60-69 | Names outside the channel table neither change the registry nor receive events. |
| Bridge.EventTypesAreChannels | www/inappbrowserbeta.js:28-36 | Every event type the native side writes is one of the seven channels, and none is an inherited name. |
| Bridge.NativeRepliesDispatchCleanly | www/inappbrowserbeta.js:40-44 | For every result the native side sends, the handler as written behaves as intended. Events reach their channel. The plain open result and the bare show result reach nobody. |
| Bridge.ExecuteScript | www/inappbrowserbeta.js:71-79 | Truthy code injects script code. Otherwise truthy file injects a script file. Otherwise the call throws the stated error. The await flag is whether a callback was given. |
| Bridge.InsertCss | www/inappbrowserbeta.js:81-89 | Insert CSS follows the same selection and error rule with the style actions. |
| Bridge.ReportsBackIffCallback | www/inappbrowserbeta.js:71-89 | With a callback the injected script carries "gap-iab://" and the callback id. Without one, a file script or any style carries no "gap-iab://". |
| Bridge.OpenCall | www/inappbrowserbeta.js:105-107 | Falsy features become "". A missing window name travels as JSON null, which the native side reads as "null". |
| Bridge.OpenDefaults | www/inappbrowserbeta.js:105-107 | Without features the parser sees "" and builds an empty map, never "no map". Without a window name the target is "_self". |

## Left out

- The dialog, toolbar, buttons, address field and layout built in `showWebPage` are pure UI and are not modelled. This includes `dpToPixels`, the tab bar (dead code, since `getShowTabBar` returns false), `hide`, `goBack` and `goForward`. `show` is modelled as `Browser.Show`: its result, and whether the posted `dialog.show()` throws, since that happens exactly when no dialog was built. Only what the dialog displays is left out.
- Thread marshalling (`runOnUiThread`) is not modelled: every command is one atomic step. In particular, close sends `exit` in the same step in which it starts loading about:blank.
- Intents and `startActivity` are not modelled. Hand-offs are the `Navigation.Handoff` tag, and a failed hand-off during page start is only logged. For `openExternal` the failure is the `failure` parameter. The MIME type lookup for file: URLs is reduced to a flag.
- `Config.isUrlWhiteListed` and the percent-decoding of `Uri.getQuery` are parameters. `Uri.parse` is modelled only as far as the scheme and the query are read.
- The `loadedStatus` and `notifyStatus` commands, their JavaScript interfaces and their polling scripts are left out. They are constant page scripts with no native logic. Their event types are still channels.
- `toolbarItemTapped` is sent only from the dead tab-bar code. It appears only as an event type.
- `onReset` and `onDestroy` only call `closeDialog`, which is `Browser.Close`.
- Json.EscapeChar: quoting follows Android's org.json writer. Strings are sequences of Unicode scalar values, so a Java string holding an unpaired surrogate cannot be expressed.
- Json.Unquote: the decoder reads the literals the writer emits and the other escapes of section 7 of RFC 8259, but a `\u` escape of a surrogate code unit is refused. So an escaped surrogate pair, which that section decodes to one character, is not accepted. The writer never emits one.
- Injection.Format: only the `%s` and `%%` conversions are modelled. Every other `%` sequence is an error, although Java accepts some of them (e.g. `%n`). This only matters when a callback id contains `%`, which Cordova's ids do not.
- In JavaScript, `exec`, `channel`, `modulemapper`, `urlutil.makeAbsolute` and the named-frame bypass of the module function are left out. So are the `close`, `show`, `hide`, `loadedStatus` and `notifyStatus` methods, which forward a command with no arguments.
- JavaScript values are modelled as strings or absent. Truthiness of numbers, booleans and objects is not modelled.
- Listener identity is a number, and a channel's subscribers are a set, matching the channel's dedup of a listener already subscribed.
- src/ios/CDVInAppBrowserBeta.h holds declarations only and is not part of this model.

## Findings

| source | as written | input that shows it | evidently intended | confidence | as-written member | corrected member |
|---|---|---|---|---|---|---|
| www/inappbrowserbeta.js:60-64 | `eventname in this.channels` is also true for names inherited from `Object.prototype`, and then `.subscribe` is not a function | `addEventListener("toString", f)` throws a TypeError | names outside the seven channels are ignored | high; not executed | Bridge.AddEventListenerAsWritten | Bridge.AddEventListener |
| www/inappbrowserbeta.js:65-69 | the same `in` test before `.unsubscribe` | `removeEventListener("toString", f)` throws a TypeError | names outside the seven channels are ignored | high; not executed | Bridge.RemoveEventListenerAsWritten | Bridge.RemoveEventListener |
| www/inappbrowserbeta.js:40-44 | the same `in` test before `.fire` | an event object with `type: "toString"` throws a TypeError | events of other types are ignored | medium (the native side never sends such a type; see Bridge.NativeRepliesDispatchCleanly); not executed | Bridge.EventHandlerAsWritten | Bridge.Dispatch |
