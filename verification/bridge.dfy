/** The JavaScript side of the plugin: the channel table of an
    `InAppBrowserBeta` object, listener registration, the event handler the
    native results are delivered to, `executeScript`/`insertCSS`, and the
    arguments `open` sends across the bridge. JavaScript values are limited to
    strings and "absent" (undefined or null). */
module Bridge {
  import opened Wrappers
  import Strings
  import Browser
  import Features
  import Injection
  import Routing

  /** The seven event channels an `InAppBrowserBeta` object creates. */
  const Channels: set<string> :=
    {"loadstart", "loadstop", "loaderror", "loadedStatus", "notifyStatus", "exit", "toolbarItemTapped"}

  /** Property names every object literal inherits from `Object.prototype`;
      the `in` operator finds them on the channel table too. */
  const ObjectPrototypeNames: set<string> := {
    "constructor", "toString", "toLocaleString", "valueOf", "hasOwnProperty",
    "isPrototypeOf", "propertyIsEnumerable", "__proto__", "__defineGetter__",
    "__defineSetter__", "__lookupGetter__", "__lookupSetter__"}

  /** A listener function, identified as the channel identifies it. */
  type Listener = nat

  /** The subscribers of each channel. */
  datatype Registry = Registry(subs: map<string, set<Listener>>)

  /** Every channel, and nothing else, has a subscriber set. */
  predicate Valid(reg: Registry) {
    reg.subs.Keys == Channels
  }

  /** A fresh object: every channel without subscribers. */
  function NewRegistry(): (reg: Registry)
    ensures Valid(reg)
    ensures forall name :: name in Channels ==> reg.subs[name] == {}
  {
    Registry(map name | name in Channels :: {})
  }

  /** An exception thrown to the JavaScript caller. */
  datatype JsError =
    | TypeError(missingMethod: string)   // a property looked up on the channel table is not a function
    | Error(message: string)             // `throw new Error(message)`

  // ---- Listener registration, as the code is written ----------------------

  /** `name in this.channels`: true for the seven channels and also for every
      name the table inherits from `Object.prototype`. */
  predicate InChannelTable(name: string) {
    name in Channels || name in ObjectPrototypeNames
  }

  /** `addEventListener` as written: an inherited name passes the `in` test,
      and calling `subscribe` on what it finds throws a TypeError. */
  function AddEventListenerAsWritten(reg: Registry, name: string, f: Listener): (r: Result<Registry, JsError>)
    requires Valid(reg)
    ensures r.Failure? <==> name in ObjectPrototypeNames
    ensures name !in ObjectPrototypeNames ==> r == Success(AddEventListener(reg, name, f))
  {
    if InChannelTable(name) then
      if name in Channels then Success(AddEventListener(reg, name, f))
      else Failure(TypeError("subscribe"))
    else Success(reg)
  }

  /** `removeEventListener` as written, with the same inherited-name defect. */
  function RemoveEventListenerAsWritten(reg: Registry, name: string, f: Listener): (r: Result<Registry, JsError>)
    requires Valid(reg)
    ensures r.Failure? <==> name in ObjectPrototypeNames
    ensures name !in ObjectPrototypeNames ==> r == Success(RemoveEventListener(reg, name, f))
  {
    if InChannelTable(name) then
      if name in Channels then Success(RemoveEventListener(reg, name, f))
      else Failure(TypeError("unsubscribe"))
    else Success(reg)
  }

  /** `_eventHandler` as written: the listeners an event with the given
      `type` (absent for a plain string result) reaches, or the TypeError of
      calling `fire` on an inherited property. */
  function EventHandlerAsWritten(reg: Registry, eventType: Option<string>): (r: Result<set<Listener>, JsError>)
    requires Valid(reg)
    ensures r.Failure? <==> eventType.Some? && eventType.value in ObjectPrototypeNames
    ensures r.Success? ==> r.value == Dispatch(reg, eventType)
  {
    if eventType.Some? && InChannelTable(eventType.value) then
      if eventType.value in Channels then Success(reg.subs[eventType.value])
      else Failure(TypeError("fire"))
    else Success({})
  }

  /** Registering a listener for "toString" throws instead of doing nothing. */
  lemma InheritedNameThrows(reg: Registry, f: Listener)
    requires Valid(reg)
    ensures AddEventListenerAsWritten(reg, "toString", f) == Failure(TypeError("subscribe"))
    ensures RemoveEventListenerAsWritten(reg, "toString", f) == Failure(TypeError("unsubscribe"))
    ensures EventHandlerAsWritten(reg, Some("toString")) == Failure(TypeError("fire"))
  {
    assert "toString" in ObjectPrototypeNames;
    assert "toString" !in Channels;
  }

  // ---- Listener registration, as intended: only the own channels ---------

  /** `addEventListener`: subscribe `f` to the channel `name`; names outside
      the channel table are ignored. */
  function AddEventListener(reg: Registry, name: string, f: Listener): (r: Registry)
    requires Valid(reg)
    ensures Valid(r)
    ensures name !in Channels ==> r == reg
    ensures name in Channels ==> r.subs[name] == reg.subs[name] + {f}
    ensures forall other :: other in Channels && other != name ==> r.subs[other] == reg.subs[other]
  {
    if name in Channels then Registry(reg.subs[name := reg.subs[name] + {f}]) else reg
  }

  /** `removeEventListener`: unsubscribe `f` from the channel `name`; names
      outside the channel table are ignored. */
  function RemoveEventListener(reg: Registry, name: string, f: Listener): (r: Registry)
    requires Valid(reg)
    ensures Valid(r)
    ensures name !in Channels ==> r == reg
    ensures name in Channels ==> r.subs[name] == reg.subs[name] - {f}
    ensures forall other :: other in Channels && other != name ==> r.subs[other] == reg.subs[other]
  {
    if name in Channels then Registry(reg.subs[name := reg.subs[name] - {f}]) else reg
  }

  /** `_eventHandler`: the listeners an event reaches; an event whose type is
      absent or not a channel reaches nobody. */
  function Dispatch(reg: Registry, eventType: Option<string>): (r: set<Listener>)
    requires Valid(reg)
    ensures eventType.None? || eventType.value !in Channels ==> r == {}
    ensures eventType.Some? && eventType.value in Channels ==> r == reg.subs[eventType.value]
  {
    if eventType.Some? && eventType.value in Channels then reg.subs[eventType.value] else {}
  }

  /** Adding a listener that was not subscribed and removing it again gives
      back the registry. */
  lemma AddThenRemove(reg: Registry, name: string, f: Listener)
    requires Valid(reg)
    requires name in Channels ==> f !in reg.subs[name]
    ensures RemoveEventListener(AddEventListener(reg, name, f), name, f) == reg
  {
    if name in Channels {
      var r := RemoveEventListener(AddEventListener(reg, name, f), name, f);
      assert r.subs[name] == reg.subs[name];
      assert forall k :: k in reg.subs ==> r.subs[k] == reg.subs[k];
    }
  }

  /** A subscribed listener receives exactly the events of its channel. */
  lemma ListenerHearsItsChannel(reg: Registry, name: string, f: Listener, eventType: string)
    requires Valid(reg) && name in Channels
    requires eventType in Channels ==> f !in reg.subs[eventType]
    ensures f in Dispatch(AddEventListener(reg, name, f), Some(eventType)) <==> eventType == name
  {
  }

  /** Names outside the channel table never change the registry. */
  lemma UnknownNamesAreIgnored(reg: Registry, name: string, f: Listener)
    requires Valid(reg) && name !in Channels
    ensures AddEventListener(reg, name, f) == reg && RemoveEventListener(reg, name, f) == reg
    ensures Dispatch(reg, Some(name)) == {}
  {
  }

  // ---- What the native side delivers --------------------------------------

  /** The `type` the handler reads from a plugin result: events carry one,
      a plain string result has none. */
  function TypeOf(p: Browser.Payload): (t: Option<string>)
    ensures p.EventPayload? <==> t.Some?
  {
    match p
    case Text(_) => None
    case NoMessage => None
    case EventPayload(e) => Some(e.Type())
  }

  /** Every event the native side sends has one of the seven channel types. */
  lemma EventTypesAreChannels(e: Browser.Event)
    ensures e.Type() in Channels
    ensures e.Type() !in ObjectPrototypeNames
  {
  }

  /** For results the native side sends, the handler as written agrees with
      the intended one: events reach their channel's listeners, and the plain
      result of `open` and the bare result of `show` reach nobody. */
  lemma NativeRepliesDispatchCleanly(reg: Registry, reply: Browser.Reply)
    requires Valid(reg)
    ensures EventHandlerAsWritten(reg, TypeOf(reply.payload)) == Success(Dispatch(reg, TypeOf(reply.payload)))
    ensures reply.payload.EventPayload? ==>
      Dispatch(reg, TypeOf(reply.payload)) == reg.subs[reply.payload.event.Type()]
    ensures !reply.payload.EventPayload? ==> Dispatch(reg, TypeOf(reply.payload)) == {}
  {
    if reply.payload.EventPayload? {
      EventTypesAreChannels(reply.payload.event);
    }
  }

  // ---- executeScript and insertCSS ----------------------------------------

  /** A JavaScript value is truthy: present and not the empty string. */
  predicate Truthy(v: Option<string>) {
    v.Some? && v.value != ""
  }

  /** The `injectDetails` argument. */
  datatype InjectDetails = InjectDetails(code: Option<string>, file: Option<string>)

  /** The native command sent: which inject action, its source text, and the
      `!!cb` await flag. */
  datatype InjectCall = InjectCall(kind: Injection.InjectKind, source: string, await: bool)

  const ExecuteScriptError: string := "executeScript requires exactly one of code or file to be specified (beta)"
  const InsertCssError: string := "insertCSS requires exactly one of code or file to be specified (beta)"

  /** `executeScript(injectDetails, cb)`. */
  function ExecuteScript(details: InjectDetails, hasCallback: bool): (r: Result<InjectCall, JsError>)
    ensures r.Failure? <==> !Truthy(details.code) && !Truthy(details.file)
    ensures r.Failure? ==> r.error == Error(ExecuteScriptError)
    ensures Truthy(details.code) ==> r == Success(InjectCall(Injection.ScriptCode, details.code.value, hasCallback))
    ensures !Truthy(details.code) && Truthy(details.file) ==>
      r == Success(InjectCall(Injection.ScriptFile, details.file.value, hasCallback))
  {
    if Truthy(details.code) then Success(InjectCall(Injection.ScriptCode, details.code.value, hasCallback))
    else if Truthy(details.file) then Success(InjectCall(Injection.ScriptFile, details.file.value, hasCallback))
    else Failure(Error(ExecuteScriptError))
  }

  /** `insertCSS(injectDetails, cb)`. */
  function InsertCss(details: InjectDetails, hasCallback: bool): (r: Result<InjectCall, JsError>)
    ensures r.Failure? <==> !Truthy(details.code) && !Truthy(details.file)
    ensures r.Failure? ==> r.error == Error(InsertCssError)
    ensures Truthy(details.code) ==> r == Success(InjectCall(Injection.StyleCode, details.code.value, hasCallback))
    ensures !Truthy(details.code) && Truthy(details.file) ==>
      r == Success(InjectCall(Injection.StyleFile, details.file.value, hasCallback))
  {
    if Truthy(details.code) then Success(InjectCall(Injection.StyleCode, details.code.value, hasCallback))
    else if Truthy(details.file) then Success(InjectCall(Injection.StyleFile, details.file.value, hasCallback))
    else Failure(Error(InsertCssError))
  }

  /** From the JavaScript call to the injected script: the page reports back
      to the command's callback exactly when a callback was given. With one,
      the script carries "gap-iab://" and the callback id; without one, a
      file script or any style carries no "gap-iab://" at all. */
  lemma ReportsBackIffCallback(details: InjectDetails, css: bool, hasCallback: bool, callbackId: string)
    requires '%' !in callbackId
    requires Truthy(details.code) || Truthy(details.file)
    ensures var call := (if css then InsertCss(details, hasCallback) else ExecuteScript(details, hasCallback)).value;
      call.await == hasCallback
      && Injection.ScriptFor(call.kind, call.source, call.await, callbackId).Success?
    ensures var call := (if css then InsertCss(details, hasCallback) else ExecuteScript(details, hasCallback)).value;
      hasCallback ==>
        Strings.Contains(Injection.ScriptFor(call.kind, call.source, true, callbackId).value, Injection.GapIab + callbackId)
    ensures var call := (if css then InsertCss(details, hasCallback) else ExecuteScript(details, hasCallback)).value;
      !hasCallback && call.kind != Injection.ScriptCode ==>
        !Strings.Contains(Injection.ScriptFor(call.kind, call.source, false, callbackId).value, Injection.GapIab)
  {
    var call := (if css then InsertCss(details, hasCallback) else ExecuteScript(details, hasCallback)).value;
    Injection.ScriptShape(call.kind, call.source, call.await, callbackId);
    if hasCallback {
      Injection.AwaitedScriptCarriesCallback(call.kind, call.source, callbackId);
    } else if call.kind != Injection.ScriptCode {
      Injection.UnawaitedScriptIsSilent(call.kind, call.source, callbackId);
    }
  }

  // ---- open ---------------------------------------------------------------

  /** The arguments the module function sends with "open": the features
      default to "" when falsy, and an absent window name travels as JSON
      null, which the native side reads as "null". */
  function OpenCall(url: string, windowName: Option<string>, features: Option<string>): (args: Browser.OpenArgs)
    ensures args.url == url
    ensures args.features == (if Truthy(features) then features.value else "")
    ensures args.target == (if windowName.Some? then windowName.value else Routing.NullTarget)
  {
    Browser.OpenArgs(url, if windowName.Some? then windowName.value else Routing.NullTarget,
      if Truthy(features) then features.value else "")
  }

  /** Without features the native parser sees "" rather than "null", so it
      builds an empty map instead of none; without a window name the target
      is "_self". */
  lemma OpenDefaults(url: string, buttonLabel: string)
    ensures Features.ParseFeature(OpenCall(url, None, None).features, buttonLabel) == Features.Flags(map[], buttonLabel)
    ensures Routing.NormalizeTarget(OpenCall(url, None, None).target) == Routing.SelfTarget
  {
    assert Features.Entries("") == [];
  }
}
