/** The native plugin instance seen as a state machine: the pending callback
    that carries events back to JavaScript, whether a dialog web view has
    been created, the remembered display and cache flags, and the close
    button caption. `open`, `close`, the inject commands and the web view's
    page events are transitions that also yield the plugin results sent
    back over the bridge. */
module Browser {
  import opened Wrappers
  import Features
  import Injection
  import Navigation
  import Routing

  /** The events the native side reports, one per `type` it writes. */
  datatype Event =
    | LoadStart(url: string)
    | LoadStop(url: string)
    | LoadError(url: string, code: int, message: string)
    | LoadedStatus(loaded: string)
    | NotifyStatus(notify: string)
    | Exit
    | ToolbarItemTapped(index: int)
  {
    /** The `type` field of the event object. */
    function Type(): string {
      match this
      case LoadStart(_) => "loadstart"
      case LoadStop(_) => "loadstop"
      case LoadError(_, _, _) => "loaderror"
      case LoadedStatus(_) => "loadedStatus"
      case NotifyStatus(_) => "notifyStatus"
      case Exit => "exit"
      case ToolbarItemTapped(_) => "toolbarItemTapped"
    }
  }

  datatype Status = Ok | Error

  /** What a plugin result carries: a plain string, an event object, or only
      the status (`new PluginResult(status)`, which the JavaScript side
      receives as the status text, such as "OK", with no `type`). */
  datatype Payload = Text(text: string) | EventPayload(event: Event) | NoMessage

  /** A Java exception that escapes a command. */
  datatype Thrown = NullPointer

  /** One plugin result sent to the JavaScript callback `callbackId`. */
  datatype Reply = Reply(callbackId: string, status: Status, payload: Payload, keep: bool)

  /** The plugin instance's fields that the commands read and write. */
  datatype State = State(
    callback: Option<string>,   // the pending callback of the last `open`, if not yet released
    webView: bool,              // a dialog web view has been created
    settings: Features.Settings,
    buttonLabel: string)

  const Initial: State := State(None, false, Features.InitialSettings, Features.DefaultButtonLabel)

  /** `sendUpdate`: with a pending callback, one result goes to it, and a
      result sent without keep-callback releases the callback; without one,
      nothing is sent. */
  function SendUpdate(s: State, e: Event, keep: bool, status: Status): (r: (State, seq<Reply>))
    ensures s.callback.None? ==> r == (s, [])
    ensures s.callback.Some? ==> r.1 == [Reply(s.callback.value, status, EventPayload(e), keep)]
    ensures r.0.callback.Some? <==> s.callback.Some? && keep
    ensures r.0 == s.(callback := r.0.callback)
  {
    match s.callback
    case None => (s, [])
    case Some(id) =>
      (if keep then s else s.(callback := None), [Reply(id, status, EventPayload(e), keep)])
  }

  /** One update to send: the event, keep-callback and the status. */
  datatype Update = Update(event: Event, keep: bool, status: Status)

  /** A run of updates sent one after another. */
  function SendAll(s: State, us: seq<Update>): (r: (State, seq<Reply>))
    ensures r.0 == s.(callback := r.0.callback)
    ensures |r.1| <= |us|
    decreases |us|
  {
    if |us| == 0 then (s, [])
    else
      var (s1, first) := SendUpdate(s, us[0].event, us[0].keep, us[0].status);
      var (s2, rest) := SendAll(s1, us[1..]);
      (s2, first + rest)
  }

  /** How many of `us` reach a pending callback: all of them up to and
      including the first that does not keep the callback. */
  function Delivered(us: seq<Update>): (n: nat)
    ensures n <= |us|
    ensures forall i :: 0 <= i < n - 1 ==> us[i].keep
    ensures n < |us| ==> 0 < n && !us[n - 1].keep
  {
    if |us| == 0 then 0
    else if !us[0].keep then 1
    else 1 + Delivered(us[1..])
  }

  /** Once the callback is released, every later update is dropped. */
  lemma {:induction false} ReleasedSendsNothing(s: State, us: seq<Update>)
    requires s.callback.None?
    ensures SendAll(s, us) == (s, [])
    decreases |us|
  {
    if |us| > 0 {
      ReleasedSendsNothing(s, us[1..]);
    }
  }

  /** With a pending callback, exactly the updates up to the first release
      are delivered, each to that callback and in order. */
  lemma {:induction false} SendAllDelivers(s: State, us: seq<Update>)
    requires s.callback.Some?
    ensures |SendAll(s, us).1| == Delivered(us)
    ensures forall i :: 0 <= i < Delivered(us) ==>
      SendAll(s, us).1[i] == Reply(s.callback.value, us[i].status, EventPayload(us[i].event), us[i].keep)
    decreases |us|
  {
    if |us| > 0 {
      var (s1, first) := SendUpdate(s, us[0].event, us[0].keep, us[0].status);
      if us[0].keep {
        SendAllDelivers(s1, us[1..]);
      } else {
        ReleasedSendsNothing(s1, us[1..]);
      }
    }
  }

  /** The arguments of `execute("open")` as the native side reads them. */
  datatype OpenArgs = OpenArgs(url: string, target: string, features: string)

  /** The outcome of `open`: the new state, the route taken (none when the
      feature string makes `parseFeature` throw), and the results sent. */
  datatype Opened = Opened(state: State, route: Option<Routing.Route>, replies: seq<Reply>)

  /** The features map of a parse that did not fail. */
  function FlagsOf(p: Features.Parsed): Option<map<string, bool>> {
    if p.Flags? then Some(p.flags) else None
  }

  /** `execute("open")`. The command's callback becomes the pending callback
      before the features are parsed; a parse failure then ends the command
      with nothing sent. Otherwise the target is routed, opening the dialog
      resolves the flags and creates the web view, and one result with
      keep-callback goes to the command's own callback, carrying "" or, for
      "_system", what `openExternal` returns. `allowed` is the host's
      allow-list and `failure` the outcome of starting an external activity. */
  function Open(s: State, callbackId: string, args: OpenArgs, allowed: string -> bool,
                failure: Option<Option<string>>): (r: Opened)
    ensures r.state.callback == Some(callbackId)
    ensures r.state.buttonLabel == Features.ParseFeature(args.features, s.buttonLabel).buttonLabel
    ensures r.route.None? <==> Features.ParseFeature(args.features, s.buttonLabel).MissingValueError?
    ensures r.route.None? ==> r.replies == []
    ensures r.route.Some? ==>
      r.route.value == Routing.RouteOf(args.url, Routing.NormalizeTarget(args.target), allowed)
    ensures r.route.Some? ==> |r.replies| == 1 && r.replies[0].payload.Text?
    ensures r.route.Some? ==> r.replies == [Reply(callbackId, Ok, r.replies[0].payload, true)]
    ensures r.route.Some? && r.route.value != Routing.External ==> r.replies[0].payload.text == ""
    ensures r.route == Some(Routing.External) ==>
      r.replies[0].payload.text == Routing.OpenExternal(args.url, failure).1
    ensures r.state.webView <==> s.webView || r.route == Some(Routing.Dialog)
    ensures r.route != Some(Routing.Dialog) ==> r.state.settings == s.settings
    ensures r.route == Some(Routing.Dialog) ==>
      r.state.settings
        == Features.ResolveFlags(s.settings, FlagsOf(Features.ParseFeature(args.features, s.buttonLabel)))
  {
    var pending := s.(callback := Some(callbackId));
    var parsed := Features.ParseFeature(args.features, s.buttonLabel);
    var labelled := pending.(buttonLabel := parsed.buttonLabel);
    if parsed.MissingValueError? then Opened(labelled, None, [])
    else
      var route := Routing.RouteOf(args.url, Routing.NormalizeTarget(args.target), allowed);
      var next :=
        if route == Routing.Dialog then
          labelled.(settings := Features.ResolveFlags(s.settings, FlagsOf(parsed)), webView := true)
        else labelled;
      var result := if route == Routing.External then Routing.OpenExternal(args.url, failure).1 else "";
      Opened(next, Some(route), [Reply(callbackId, Ok, Text(result), true)])
  }

  /** `closeDialog`: without a web view nothing happens; otherwise an `exit`
      event is sent without keep-callback. The web view field is never
      cleared, so the callback's release is what silences a second close. */
  function Close(s: State): (r: (State, seq<Reply>))
    ensures !s.webView ==> r == (s, [])
    ensures s.webView && s.callback.Some? ==> r.1 == [Reply(s.callback.value, Ok, EventPayload(Exit), false)]
    ensures s.webView && s.callback.None? ==> r.1 == []
    ensures s.webView ==> r.0 == s.(callback := None)
  {
    if !s.webView then (s, []) else SendUpdate(s, Exit, false, Ok)
  }

  /** The inject commands: the URL loaded into the dialog web view, or none
      when there is no web view; a wrapper that `String.format` rejects
      raises before anything is loaded. */
  function Inject(s: State, kind: Injection.InjectKind, source: string, await: bool, callbackId: string)
    : (r: Result<Option<string>, Injection.FormatError>)
    ensures r.Success? <==> Injection.ScriptFor(kind, source, await, callbackId).Success?
    ensures r.Success? ==> (r.value.Some? <==> s.webView)
    ensures r.Success? && s.webView ==>
      r.value.value == "javascript:" + Injection.ScriptFor(kind, source, await, callbackId).value
  {
    var script :- Injection.ScriptFor(kind, source, await, callbackId);
    if s.webView then Success(Some("javascript:" + script)) else Success(None)
  }

  /** `onPageStarted`: the hand-off, and a `loadstart` event carrying the
      reported location. */
  function PageStarted(s: State, url: string, decode: string -> string): (r: (State, seq<Reply>, Navigation.Handoff))
    ensures r.0 == s
    ensures r.2 == Navigation.OnPageStarted(url, decode).handoff
    ensures s.callback.Some? ==>
      r.1 == [Reply(s.callback.value, Ok, EventPayload(LoadStart(Navigation.OnPageStarted(url, decode).location)), true)]
    ensures s.callback.None? ==> r.1 == []
  {
    var p := Navigation.OnPageStarted(url, decode);
    var (next, replies) := SendUpdate(s, LoadStart(p.location), true, Ok);
    (next, replies, p.handoff)
  }

  /** `onPageFinished`: a `loadstop` event with the URL. */
  function PageFinished(s: State, url: string): (r: (State, seq<Reply>))
    ensures r.0 == s
    ensures s.callback.Some? ==> r.1 == [Reply(s.callback.value, Ok, EventPayload(LoadStop(url)), true)]
    ensures s.callback.None? ==> r.1 == []
  {
    SendUpdate(s, LoadStop(url), true, Ok)
  }

  /** `onReceivedError`: a `loaderror` event sent with the error status. */
  function ReceivedError(s: State, url: string, code: int, message: string): (r: (State, seq<Reply>))
    ensures r.0 == s
    ensures s.callback.Some? ==>
      r.1 == [Reply(s.callback.value, Error, EventPayload(LoadError(url, code, message)), true)]
    ensures s.callback.None? ==> r.1 == []
  {
    SendUpdate(s, LoadError(url, code, message), true, Error)
  }

  /** The outcome of `show`: the results sent, or the exception the command
      throws, and whether the posted `dialog.show()` later throws on the UI
      thread. */
  datatype Shown = Shown(sent: Result<seq<Reply>, Thrown>, uiThreadThrows: bool)

  /** `execute("show")`. It posts `dialog.show()` to the UI thread, and that
      throws when no dialog was ever built (the dialog exists exactly when the
      web view does). Then it sends a bare OK result with keep-callback
      straight to the pending callback, without `sendUpdate`'s null test, so
      with the callback released, or never set, the command throws. The state
      never changes. */
  function Show(s: State): (r: Shown)
    ensures r.uiThreadThrows <==> !s.webView
    ensures r.sent.Failure? <==> s.callback.None?
    ensures r.sent.Success? ==> r.sent.value == [Reply(s.callback.value, Ok, NoMessage, true)]
  {
    var sent := match s.callback
      case None => Failure(NullPointer)
      case Some(id) => Success([Reply(id, Ok, NoMessage, true)]);
    Shown(sent, !s.webView)
  }

  /** `show` after a close, or before any open, throws: the callback that
      `open` set is released by the `exit` result or was never set. Before any
      open the UI thread throws too. */
  lemma ShowAfterCloseThrows(s: State)
    requires s.webView
    ensures Show(Close(s).0).sent == Failure(NullPointer)
    ensures Show(Initial) == Shown(Failure(NullPointer), true)
  {
  }

  /** `show` after an open that did not build the dialog (a "_system" open,
      or a "_self" open into the application's own web view or the dialer)
      replies, and then the UI thread throws. */
  lemma ShowWithoutDialogCrashes(s: State, callbackId: string, args: OpenArgs, allowed: string -> bool,
                                 failure: Option<Option<string>>)
    requires !s.webView
    requires Open(s, callbackId, args, allowed, failure).route.Some?
    requires Open(s, callbackId, args, allowed, failure).route != Some(Routing.Dialog)
    ensures var o := Open(s, callbackId, args, allowed, failure);
      Show(o.state) == Shown(Success([Reply(callbackId, Ok, NoMessage, true)]), true)
  {
  }

  /** With the dialog open, `show` replies, does not crash, and keeps the
      callback, so a later close still delivers `exit` to the open command's
      callback. */
  lemma ShowThenClose(s: State)
    requires s.webView && s.callback.Some?
    ensures Show(s) == Shown(Success([Reply(s.callback.value, Ok, NoMessage, true)]), false)
    ensures Close(s).1 == [Reply(s.callback.value, Ok, EventPayload(Exit), false)]
  {
  }

  /** Closing twice sends `exit` at most once: the second close finds the
      callback released. */
  lemma CloseTwiceSendsNothing(s: State)
    ensures Close(Close(s).0).1 == []
    ensures Close(Close(s).0).0 == Close(s).0
  {
  }

  /** A close before any dialog was opened is silent. */
  lemma CloseBeforeOpenIsSilent()
    ensures Close(Initial) == (Initial, [])
  {
  }

  /** Opening the dialog and closing it delivers exactly one `exit`, to the
      open command's callback, and releases it. */
  lemma OpenDialogThenClose(s: State, callbackId: string, args: OpenArgs, allowed: string -> bool,
                            failure: Option<Option<string>>)
    requires Open(s, callbackId, args, allowed, failure).route == Some(Routing.Dialog)
    ensures var o := Open(s, callbackId, args, allowed, failure);
      Close(o.state).1 == [Reply(callbackId, Ok, EventPayload(Exit), false)]
      && Close(o.state).0.callback.None?
  {
  }

  /** A "_system" open never creates the dialog web view nor touches the
      remembered flags; its result is what `openExternal` returns. */
  lemma SystemOpenLeavesDialogAlone(s: State, callbackId: string, args: OpenArgs, allowed: string -> bool,
                                    failure: Option<Option<string>>)
    requires args.target == Routing.SystemTarget
    requires !Features.ParseFeature(args.features, s.buttonLabel).MissingValueError?
    ensures var o := Open(s, callbackId, args, allowed, failure);
      o.route == Some(Routing.External) && o.state.webView == s.webView && o.state.settings == s.settings
      && o.replies == [Reply(callbackId, Ok, Text(Routing.OpenExternal(args.url, failure).1), true)]
  {
    Routing.SystemGoesExternal(args.url, allowed);
  }

  /** An allow-listed URL opened with no window name loads in the
      application's own web view, and the result is "". */
  lemma AllowListedSelfLoadsInMainView(s: State, callbackId: string, url: string, allowed: string -> bool,
                                       failure: Option<Option<string>>)
    requires allowed(url)
    ensures var o := Open(s, callbackId, OpenArgs(url, Routing.NullTarget, ""), allowed, failure);
      o.route == Some(Routing.MainView) && o.replies == [Reply(callbackId, Ok, Text(""), true)]
      && o.state.webView == s.webView
  {
    Routing.DefaultTargetIsSelf(url, Routing.NullTarget, allowed);
    assert !Features.ParseFeature("", s.buttonLabel).MissingValueError? by {
      assert Features.Entries("") == [];
    }
  }

  /** A feature segment with a key and no value makes `open` send nothing,
      although the command's callback has become the pending one. */
  lemma MissingValueOpenSendsNothing(s: State, callbackId: string, args: OpenArgs, allowed: string -> bool,
                                     failure: Option<Option<string>>, key: string)
    requires |key| > 0 && ',' !in key && '=' !in key && key != Features.NullFeatures
    requires args.features == key || args.features == key + "="
    ensures var o := Open(s, callbackId, args, allowed, failure);
      o.route.None? && o.replies == [] && o.state.callback == Some(callbackId) && o.state.webView == s.webView
  {
    Features.MissingValueExample(key, args.features);
  }

  /** Closing does not clear the web view, so a script injected after a
      close is still loaded into it. */
  lemma InjectAfterCloseStillLoads(s: State, kind: Injection.InjectKind, source: string, await: bool,
                                   callbackId: string)
    requires s.webView && '%' !in callbackId
    ensures Inject(Close(s).0, kind, source, await, callbackId).Success?
    ensures Inject(Close(s).0, kind, source, await, callbackId).value.Some?
  {
    Injection.ScriptShape(kind, source, await, callbackId);
  }

  /** Before any dialog exists an inject command loads nothing. */
  lemma InjectWithoutWebViewLoadsNothing(kind: Injection.InjectKind, source: string, await: bool,
                                         callbackId: string)
    requires '%' !in callbackId
    ensures Inject(Initial, kind, source, await, callbackId) == Success(None)
  {
    Injection.ScriptShape(kind, source, await, callbackId);
  }

  /** Page events keep the callback: a page start followed by a close still
      delivers the `exit`. */
  lemma PageEventsKeepCallback(s: State, url: string, decode: string -> string)
    requires s.webView && s.callback.Some?
    ensures Close(PageStarted(s, url, decode).0).1 == [Reply(s.callback.value, Ok, EventPayload(Exit), false)]
  {
  }
}
