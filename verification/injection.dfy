/** Script and style injection into the in-app web view: the wrapper each
    inject command picks, Java's `String.format` filling its one `%s`, and the
    JSON quoting of the source text. */
module Injection {
  import opened Wrappers
  import Strings
  import Json

  /** The four inject commands. */
  datatype InjectKind = ScriptCode | ScriptFile | StyleCode | StyleFile

  /** The scheme of the prompt text by which an awaited injection reports back. */
  const GapIab: string := "gap-iab://"

  // Pieces of the wrapper literals. Each awaited wrapper is written as
  // Head + "%%s" + Middle + "%s" + Tail and formatted once with the callback id;
  // each plain wrapper is Head + "%s" + Tail. The Middle of an awaited wrapper
  // ends with GapIab. Long literals are split into shorter pieces.
  const FunctionOpen: string := "(function(d) { var c = "
  const PromptCloseTail: string := "');})(document)"
  const BodyAppendTail: string := "; d.body.appendChild(c); })(document)"

  const ScriptCodeHead: string := "prompt(JSON.stringify([eval("
  const ScriptCodePrompt: string := ")]), '"
  const ScriptCodeMiddle: string := ScriptCodePrompt + GapIab
  const ScriptCodeTail: string := "')"

  const ScriptFileHead: string := FunctionOpen + "d.createElement('script'); c.src = "
  const ScriptFilePrompt: string := "; c.onload = function() { prompt('', '"
  const ScriptFileMiddle: string := ScriptFilePrompt + GapIab
  const ScriptFileAwaitTail: string := "'); }; d.body.appendChild(c); " + "})(document)"
  const ScriptFileTail: string := BodyAppendTail

  const StyleCodeHead: string := FunctionOpen + "d.createElement('style'); c.innerHTML = "
  const StyleCodePrompt: string := "; d.body.appendChild(c); prompt('', '"
  const StyleCodeMiddle: string := StyleCodePrompt + GapIab
  const StyleCodeAwaitTail: string := PromptCloseTail
  const StyleCodeTail: string := BodyAppendTail

  const StyleFileHead: string :=
    FunctionOpen + "d.createElement('link'); " + "c.rel='stylesheet'; c.type='text" + "/" + "css'; c.href = "
  const StyleFilePrompt: string := "; d.head.appendChild(c); prompt('', '"
  const StyleFileMiddle: string := StyleFilePrompt + GapIab
  const StyleFileAwaitTail: string := PromptCloseTail
  const StyleFileTail: string := "; d.head.appendChild(c); })(document)"

  /** What `String.format` throws. */
  datatype FormatError = MissingFormatArgument | UnknownFormatConversion

  /** `String.format(fmt, args...)` for format strings whose only conversions are
      `%s` (the next argument) and `%%` (a literal percent sign). */
  function Format(fmt: string, args: seq<string>): Result<string, FormatError>
    decreases |fmt|
  {
    if |fmt| == 0 then Success("")
    else if fmt[0] != '%' then
      var r :- Format(fmt[1..], args);
      Success([fmt[0]] + r)
    else if |fmt| < 2 then Failure(UnknownFormatConversion)
    else if fmt[1] == '%' then
      var r :- Format(fmt[2..], args);
      Success("%" + r)
    else if fmt[1] == 's' then
      if |args| == 0 then Failure(MissingFormatArgument)
      else
        var r :- Format(fmt[2..], args[1..]);
        Success(args[0] + r)
    else Failure(UnknownFormatConversion)
  }

  /** Text with no conversion is copied through. */
  lemma {:induction false} FormatPlain(text: string, rest: string, args: seq<string>)
    requires '%' !in text
    ensures Format(rest, args).Success? ==> Format(text + rest, args) == Success(text + Format(rest, args).value)
    ensures Format(rest, args).Failure? ==> Format(text + rest, args) == Format(rest, args)
    decreases |text|
  {
    if |text| > 0 {
      assert (text + rest)[1..] == text[1..] + rest;
      FormatPlain(text[1..], rest, args);
      if Format(rest, args).Success? {
        var r := Format(rest, args).value;
        assert [text[0]] + (text[1..] + r) == text + r;
      }
    } else {
      assert text + rest == rest;
      if Format(rest, args).Success? {
        assert text + Format(rest, args).value == Format(rest, args).value;
      }
    }
  }

  /** A `%s` at the front takes the next argument. */
  lemma FormatConversion(fmt: string, args: seq<string>)
    requires |fmt| >= 2 && fmt[0] == '%' && fmt[1] == 's' && |args| > 0
    ensures Format(fmt[2..], args[1..]).Success? ==>
      Format(fmt, args) == Success(args[0] + Format(fmt[2..], args[1..]).value)
  {
  }

  /** A `%%` at the front becomes one percent sign. */
  lemma FormatPercent(fmt: string, args: seq<string>)
    requires |fmt| >= 2 && fmt[0] == '%' && fmt[1] == '%'
    ensures Format(fmt[2..], args).Success? ==>
      Format(fmt, args) == Success("%" + Format(fmt[2..], args).value)
  {
  }

  /** Text without any `%` formats to itself. */
  lemma FormatVerbatim(text: string, args: seq<string>)
    requires '%' !in text
    ensures Format(text, args) == Success(text)
  {
    FormatPlain(text, "", args);
    assert text + "" == text;
  }

  /** A leading `%s` followed by plain text takes the one argument. */
  lemma FormatLeadingConversion(tail: string, arg: string)
    requires '%' !in tail
    ensures Format(['%', 's'] + tail, [arg]) == Success(arg + tail)
  {
    var fmt := ['%', 's'] + tail;
    assert fmt[2..] == tail;
    assert [arg][1..] == [];
    FormatVerbatim(tail, []);
    FormatConversion(fmt, [arg]);
  }

  /** A leading `%%` followed by `s` and a format string keeps "%s" in front
      of that format string's result. */
  lemma FormatLeadingEscape(rest: string, args: seq<string>)
    requires Format(rest, args).Success?
    ensures Format(['%', '%', 's'] + rest, args) == Success(['%', 's'] + Format(rest, args).value)
  {
    var fmt := ['%', '%', 's'] + rest;
    assert fmt[2..] == ['s'] + rest;
    FormatPlain(['s'], rest, args);
    FormatPercent(fmt, args);
    assert "%" + (['s'] + Format(rest, args).value) == ['%', 's'] + Format(rest, args).value;
  }

  lemma OneShape(head: string, tail: string, arg: string)
    ensures head + "%s" + tail == head + (['%', 's'] + tail)
    ensures head + (arg + tail) == head + arg + tail
  {
  }

  lemma AwaitedShape(head: string, middle: string, tail: string, id: string)
    ensures head + "%%s" + middle + "%s" + tail == head + (['%', '%', 's'] + (middle + "%s" + tail))
    ensures head + (['%', 's'] + (middle + id + tail)) == head + "%s" + middle + id + tail
  {
  }

  /** A format string with one `%s` takes exactly its argument there. */
  lemma FormatOne(head: string, tail: string, arg: string)
    requires '%' !in head && '%' !in tail
    ensures Format(head + "%s" + tail, [arg]) == Success(head + arg + tail)
  {
    FormatLeadingConversion(tail, arg);
    FormatPlain(head, ['%', 's'] + tail, [arg]);
    OneShape(head, tail, arg);
  }

  /** Formatting an awaited wrapper with the callback id keeps one `%s` for the
      source and puts the id after the middle part. */
  lemma FormatAwaited(head: string, middle: string, tail: string, id: string)
    requires '%' !in head && '%' !in middle && '%' !in tail
    ensures Format(head + "%%s" + middle + "%s" + tail, [id]) == Success(head + "%s" + middle + id + tail)
  {
    FormatOne(middle, tail, id);
    FormatLeadingEscape(middle + "%s" + tail, [id]);
    FormatPlain(head, ['%', '%', 's'] + (middle + "%s" + tail), [id]);
    AwaitedShape(head, middle, tail, id);
  }

  /** An awaited wrapper, formatted with the id and then with the source, puts
      the source after the head and the id after the middle. */
  lemma FormatTwice(head: string, middle: string, tail: string, id: string, source: string)
    requires '%' !in head && '%' !in middle && '%' !in tail && '%' !in id
    ensures Format(head + "%%s" + middle + "%s" + tail, [id]).Success?
    ensures Format(Format(head + "%%s" + middle + "%s" + tail, [id]).value, [source])
      == Success(head + source + (middle + id + tail))
  {
    FormatAwaited(head, middle, tail, id);
    var rest := middle + id + tail;
    assert head + "%s" + middle + id + tail == head + "%s" + rest;
    FormatOne(head, rest, source);
  }

  /** The wrapper literal `execute` picks for an inject command, before the
      callback id is formatted in; none for code injected without awaiting. */
  function WrapperFormat(kind: InjectKind, await: bool): Option<string> {
    match kind
    case ScriptCode =>
      if await then Some(ScriptCodeHead + "%%s" + ScriptCodeMiddle + "%s" + ScriptCodeTail) else None
    case ScriptFile =>
      if await then Some(ScriptFileHead + "%%s" + ScriptFileMiddle + "%s" + ScriptFileAwaitTail)
      else Some(ScriptFileHead + "%s" + ScriptFileTail)
    case StyleCode =>
      if await then Some(StyleCodeHead + "%%s" + StyleCodeMiddle + "%s" + StyleCodeAwaitTail)
      else Some(StyleCodeHead + "%s" + StyleCodeTail)
    case StyleFile =>
      if await then Some(StyleFileHead + "%%s" + StyleFileMiddle + "%s" + StyleFileAwaitTail)
      else Some(StyleFileHead + "%s" + StyleFileTail)
  }

  /** `jsWrapper` as `execute` builds it: awaited wrappers are formatted once
      with the command's callback id; the plain ones are used as written. */
  function JsWrapper(kind: InjectKind, await: bool, callbackId: string): (r: Result<Option<string>, FormatError>)
    ensures r == Success(None) <==> kind == ScriptCode && !await
    ensures !await ==> r.Success?
  {
    match WrapperFormat(kind, await)
    case None => Success(None)
    case Some(w) =>
      if await then
        var f :- Format(w, [callbackId]);
        Success(Some(f))
      else Success(Some(w))
  }

  /** `new JSONArray().put(source).toString()` */
  function JsonArrayOfOne(source: string): string {
    "[" + Json.Quote(source) + "]"
  }

  /** `jsonRepr.substring(1, jsonRepr.length() - 1)`: the JSON-quoted source. */
  function StripBrackets(jsonRepr: string): (q: string)
    requires |jsonRepr| >= 2
  {
    jsonRepr[1..|jsonRepr| - 1]
  }

  /** `injectDeferredObject`: the script handed to the web view. With no wrapper it
      is the source itself; otherwise the wrapper's `%s` becomes the quoted source. */
  function InjectDeferredObject(source: string, jsWrapper: Option<string>): (r: Result<string, FormatError>)
    ensures jsWrapper.None? ==> r == Success(source)
    ensures jsWrapper.Some? ==> r == Format(jsWrapper.value, [Json.Quote(source)])
  {
    StripBracketsQuote(source);
    match jsWrapper
    case None => Success(source)
    case Some(w) => Format(w, [StripBrackets(JsonArrayOfOne(source))])
  }

  /** The whole inject command, from its arguments to the script. */
  function ScriptFor(kind: InjectKind, source: string, await: bool, callbackId: string): (r: Result<string, FormatError>)
    ensures r.Success? ==> JsWrapper(kind, await, callbackId).Success?
    ensures kind == ScriptCode && !await ==> r == Success(source)
    ensures JsWrapper(kind, await, callbackId).Success? && JsWrapper(kind, await, callbackId).value.Some? ==>
      r == Format(JsWrapper(kind, await, callbackId).value.value, [Json.Quote(source)])
  {
    var w :- JsWrapper(kind, await, callbackId);
    InjectDeferredObject(source, w)
  }

  /** Stripping the brackets of a one-element array gives that element's JSON text. */
  lemma StripBracketsQuote(source: string)
    ensures StripBrackets(JsonArrayOfOne(source)) == Json.Quote(source)
  {
    Json.QuoteShape(source);
  }

  /** The wrapper parts around the `%s`, for every wrapped command. */
  function Around(kind: InjectKind, await: bool, callbackId: string): (string, string) {
    match kind
    case ScriptCode => (ScriptCodeHead, ScriptCodeMiddle + callbackId + ScriptCodeTail)
    case ScriptFile =>
      if await then (ScriptFileHead, ScriptFileMiddle + callbackId + ScriptFileAwaitTail)
      else (ScriptFileHead, ScriptFileTail)
    case StyleCode =>
      if await then (StyleCodeHead, StyleCodeMiddle + callbackId + StyleCodeAwaitTail)
      else (StyleCodeHead, StyleCodeTail)
    case StyleFile =>
      if await then (StyleFileHead, StyleFileMiddle + callbackId + StyleFileAwaitTail)
      else (StyleFileHead, StyleFileTail)
  }

  lemma NoPercentInShared()
    ensures '%' !in GapIab && '%' !in FunctionOpen && '%' !in PromptCloseTail && '%' !in BodyAppendTail
  {
  }

  lemma NoPercentInScriptCode()
    ensures '%' !in ScriptCodeHead && '%' !in ScriptCodeMiddle && '%' !in ScriptCodeTail
  {
    NoPercentInShared();
  }

  lemma NoPercentInScriptFile()
    ensures '%' !in ScriptFileHead && '%' !in ScriptFileMiddle && '%' !in ScriptFileAwaitTail && '%' !in ScriptFileTail
  {
    NoPercentInShared();
    assert '%' !in "'); }; d.body.appendChild(c); ";
  }

  lemma NoPercentInStyleCode()
    ensures '%' !in StyleCodeHead && '%' !in StyleCodeMiddle && '%' !in StyleCodeAwaitTail && '%' !in StyleCodeTail
  {
    NoPercentInShared();
  }

  lemma NoPercentInStyleFile()
    ensures '%' !in StyleFileHead && '%' !in StyleFileMiddle && '%' !in StyleFileAwaitTail && '%' !in StyleFileTail
  {
    NoPercentInShared();
    assert '%' !in "c.rel='stylesheet'; c.type='text";
  }

  /** With a '%'-free callback id every wrapper formats, and leaves exactly
      one `%s`, between the wrapper's head and its tail, which carries the
      id when the command awaits a result. */
  lemma JsWrapperShape(kind: InjectKind, await: bool, callbackId: string)
    requires '%' !in callbackId
    ensures JsWrapper(kind, await, callbackId).Success?
    ensures JsWrapper(kind, await, callbackId).value.Some? ==>
      JsWrapper(kind, await, callbackId).value.value
        == Around(kind, await, callbackId).0 + "%s" + Around(kind, await, callbackId).1
  {
    match kind
    case ScriptCode => ScriptCodeWrapperShape(await, callbackId);
    case ScriptFile => ScriptFileWrapperShape(await, callbackId);
    case StyleCode => StyleCodeWrapperShape(await, callbackId);
    case StyleFile => StyleFileWrapperShape(await, callbackId);
  }

  lemma ScriptCodeWrapperShape(await: bool, callbackId: string)
    requires '%' !in callbackId
    ensures JsWrapper(ScriptCode, await, callbackId).Success?
    ensures JsWrapper(ScriptCode, await, callbackId).value.Some? ==>
      JsWrapper(ScriptCode, await, callbackId).value.value
        == Around(ScriptCode, await, callbackId).0 + "%s" + Around(ScriptCode, await, callbackId).1
  {
    NoPercentInScriptCode();
    if await {
      FormatAwaited(ScriptCodeHead, ScriptCodeMiddle, ScriptCodeTail, callbackId);
    }
  }

  lemma ScriptFileWrapperShape(await: bool, callbackId: string)
    requires '%' !in callbackId
    ensures JsWrapper(ScriptFile, await, callbackId).Success?
    ensures JsWrapper(ScriptFile, await, callbackId).value.Some? ==>
      JsWrapper(ScriptFile, await, callbackId).value.value
        == Around(ScriptFile, await, callbackId).0 + "%s" + Around(ScriptFile, await, callbackId).1
  {
    NoPercentInScriptFile();
    if await {
      FormatAwaited(ScriptFileHead, ScriptFileMiddle, ScriptFileAwaitTail, callbackId);
    }
  }

  lemma StyleCodeWrapperShape(await: bool, callbackId: string)
    requires '%' !in callbackId
    ensures JsWrapper(StyleCode, await, callbackId).Success?
    ensures JsWrapper(StyleCode, await, callbackId).value.Some? ==>
      JsWrapper(StyleCode, await, callbackId).value.value
        == Around(StyleCode, await, callbackId).0 + "%s" + Around(StyleCode, await, callbackId).1
  {
    NoPercentInStyleCode();
    if await {
      FormatAwaited(StyleCodeHead, StyleCodeMiddle, StyleCodeAwaitTail, callbackId);
    }
  }

  lemma StyleFileWrapperShape(await: bool, callbackId: string)
    requires '%' !in callbackId
    ensures JsWrapper(StyleFile, await, callbackId).Success?
    ensures JsWrapper(StyleFile, await, callbackId).value.Some? ==>
      JsWrapper(StyleFile, await, callbackId).value.value
        == Around(StyleFile, await, callbackId).0 + "%s" + Around(StyleFile, await, callbackId).1
  {
    NoPercentInStyleFile();
    if await {
      FormatAwaited(StyleFileHead, StyleFileMiddle, StyleFileAwaitTail, callbackId);
    }
  }

  /** The injected script: the source verbatim for code run without awaiting,
      otherwise the wrapper's two parts around the JSON-quoted source. A callback
      id without '%' never trips the formatter. */
  lemma ScriptShape(kind: InjectKind, source: string, await: bool, callbackId: string)
    requires '%' !in callbackId
    ensures ScriptFor(kind, source, await, callbackId).Success?
    ensures kind == ScriptCode && !await ==> ScriptFor(kind, source, await, callbackId).value == source
    ensures kind != ScriptCode || await ==>
      ScriptFor(kind, source, await, callbackId).value
        == Around(kind, await, callbackId).0 + Json.Quote(source) + Around(kind, await, callbackId).1
  {
    StripBracketsQuote(source);
    var q := Json.Quote(source);
    match kind
    case ScriptCode =>
      NoPercentInScriptCode();
      if await {
        FormatTwice(ScriptCodeHead, ScriptCodeMiddle, ScriptCodeTail, callbackId, q);
      }
    case ScriptFile =>
      NoPercentInScriptFile();
      if await {
        FormatTwice(ScriptFileHead, ScriptFileMiddle, ScriptFileAwaitTail, callbackId, q);
      } else {
        FormatOne(ScriptFileHead, ScriptFileTail, q);
      }
    case StyleCode =>
      NoPercentInStyleCode();
      if await {
        FormatTwice(StyleCodeHead, StyleCodeMiddle, StyleCodeAwaitTail, callbackId, q);
      } else {
        FormatOne(StyleCodeHead, StyleCodeTail, q);
      }
    case StyleFile =>
      NoPercentInStyleFile();
      if await {
        FormatTwice(StyleFileHead, StyleFileMiddle, StyleFileAwaitTail, callbackId, q);
      } else {
        FormatOne(StyleFileHead, StyleFileTail, q);
      }
  }

  lemma ContainsInside(a: string, t: string, b: string)
    ensures Strings.Contains(a + t + b, t)
  {
    assert (a + t + b)[|a|..|a| + |t|] == t;
    assert Strings.OccursAt(a + t + b, t, |a|);
  }

  lemma NoSlashNoDoubleSlash(s: string)
    requires '/' !in s
    ensures Strings.NoDoubleSlash(s)
  {
  }

  /** A script built as head, quoted source and tail holds "//" only if the
      head or the tail does. */
  lemma QuotedNoDoubleSlash(head: string, source: string, tail: string)
    requires Strings.NoDoubleSlash(head) && Strings.NoDoubleSlash(tail)
    ensures Strings.NoDoubleSlash(head + Json.Quote(source) + tail)
  {
    var q := Json.Quote(source);
    Json.QuoteShape(source);
    Strings.NoDoubleSlashConcat(head, q);
    Strings.NoDoubleSlashConcat(head + q, tail);
  }

  lemma NoSlashInShared()
    ensures '/' !in FunctionOpen && '/' !in BodyAppendTail
  {
  }

  lemma ScriptFileNoDoubleSlash()
    ensures Strings.NoDoubleSlash(ScriptFileHead) && Strings.NoDoubleSlash(ScriptFileTail)
  {
    NoSlashInShared();
    assert '/' !in "d.createElement('script'); c.src = ";
    NoSlashNoDoubleSlash(ScriptFileHead);
    NoSlashNoDoubleSlash(ScriptFileTail);
  }

  lemma StyleCodeNoDoubleSlash()
    ensures Strings.NoDoubleSlash(StyleCodeHead) && Strings.NoDoubleSlash(StyleCodeTail)
  {
    NoSlashInShared();
    assert '/' !in "d.createElement('style'); c.innerHTML = ";
    NoSlashNoDoubleSlash(StyleCodeHead);
    NoSlashNoDoubleSlash(StyleCodeTail);
  }

  /** The stylesheet head holds the single solidus of "text/css". */
  lemma StyleFileNoDoubleSlash()
    ensures Strings.NoDoubleSlash(StyleFileHead) && Strings.NoDoubleSlash(StyleFileTail)
  {
    NoSlashInShared();
    var before := FunctionOpen + "d.createElement('link'); " + "c.rel='stylesheet'; c.type='text";
    var after := "css'; c.href = ";
    assert '/' !in "d.createElement('link'); ";
    assert '/' !in "c.rel='stylesheet'; c.type='text";
    assert '/' !in after;
    NoSlashNoDoubleSlash(before);
    NoSlashNoDoubleSlash(after);
    Strings.NoDoubleSlashConcat(before, "/");
    Strings.NoDoubleSlashConcat(before + "/", after);
    assert StyleFileHead == before + "/" + after;
    assert '/' !in StyleFileTail;
    NoSlashNoDoubleSlash(StyleFileTail);
  }

  lemma CallbackInside(head: string, q: string, lead: string, callbackId: string, end: string)
    ensures Strings.Contains(head + q + (lead + GapIab + callbackId + end), GapIab + callbackId)
  {
    assert head + q + (lead + GapIab + callbackId + end) == (head + q + lead) + (GapIab + callbackId) + end;
    ContainsInside(head + q + lead, GapIab + callbackId, end);
  }

  /** An awaited script reports back: it carries "gap-iab://" followed by the
      command's callback id. */
  lemma AwaitedScriptCarriesCallback(kind: InjectKind, source: string, callbackId: string)
    requires '%' !in callbackId
    ensures ScriptFor(kind, source, true, callbackId).Success?
    ensures Strings.Contains(ScriptFor(kind, source, true, callbackId).value, GapIab + callbackId)
  {
    ScriptShape(kind, source, true, callbackId);
    var q := Json.Quote(source);
    match kind
    case ScriptCode => CallbackInside(ScriptCodeHead, q, ScriptCodePrompt, callbackId, ScriptCodeTail);
    case ScriptFile => CallbackInside(ScriptFileHead, q, ScriptFilePrompt, callbackId, ScriptFileAwaitTail);
    case StyleCode => CallbackInside(StyleCodeHead, q, StyleCodePrompt, callbackId, StyleCodeAwaitTail);
    case StyleFile => CallbackInside(StyleFileHead, q, StyleFilePrompt, callbackId, StyleFileAwaitTail);
  }

  /** A file or style injected without awaiting cannot report back: the script
      contains no "gap-iab://" at all, whatever the source text, because the
      solidi of the source come out escaped. */
  lemma UnawaitedScriptIsSilent(kind: InjectKind, source: string, callbackId: string)
    requires kind != ScriptCode
    requires '%' !in callbackId
    ensures ScriptFor(kind, source, false, callbackId).Success?
    ensures !Strings.Contains(ScriptFor(kind, source, false, callbackId).value, GapIab)
  {
    ScriptShape(kind, source, false, callbackId);
    var (head, tail) := Around(kind, false, callbackId);
    match kind {
      case ScriptFile => ScriptFileNoDoubleSlash();
      case StyleCode => StyleCodeNoDoubleSlash();
      case StyleFile => StyleFileNoDoubleSlash();
    }
    QuotedNoDoubleSlash(head, source, tail);
    Strings.NoDoubleSlashExcludes(ScriptFor(kind, source, false, callbackId).value, GapIab, 8);
  }
}
