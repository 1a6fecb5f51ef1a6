/** The window-feature string handed to `open` ("location=no,hidden=yes,...")
    and the session flags it resolves into. */
module Features {
  import opened Wrappers
  import Tokenizer

  /** The feature string the bridge produces for a JavaScript null. */
  const NullFeatures: string := "null"
  const CloseButtonCaption: string := "closebuttoncaption"
  const DefaultButtonLabel: string := "Done"

  const LocationKey: string := "location"
  const HiddenKey: string := "hidden"
  const ClearAllCacheKey: string := "clearcache"
  const ClearSessionCacheKey: string := "clearsessioncache"

  /** Java's `equalsIgnoreCase` for one character against a lower-case ASCII
      letter `t`: the same character, its upper-case form, or one of the three
      non-ASCII characters whose upper or lower case is that letter
      (U+017F long s upper-cases to 'S'; U+0131 dotless i upper-cases to 'I';
      U+0130 capital I with dot lower-cases to 'i'). */
  predicate SameLetterIgnoringCase(c: char, t: char)
    requires 'a' <= t <= 'z'
  {
    || c == t
    || c as int == t as int - 32
    || (t == 's' && c == '\U{017F}')
    || (t == 'i' && (c == '\U{0131}' || c == '\U{0130}'))
  }

  /** `key.equalsIgnoreCase("closebuttoncaption")` */
  predicate IsCaptionKey(key: string) {
    && |key| == |CloseButtonCaption|
    && forall i :: 0 <= i < |key| ==> SameLetterIgnoringCase(key[i], CloseButtonCaption[i])
  }

  /** The ASCII lower-case form of a character; other characters are kept. */
  function AsciiLower(c: char): char {
    if 'A' <= c <= 'Z' then (c as int + 32) as char else c
  }

  /** For a key of ASCII characters, matching the caption key ignoring case is
      lower-casing the key and comparing. */
  lemma CaptionKeyAscii(key: string)
    requires forall i :: 0 <= i < |key| ==> key[i] as int < 128
    ensures IsCaptionKey(key) <==>
      |key| == |CloseButtonCaption| && forall i :: 0 <= i < |key| ==> AsciiLower(key[i]) == CloseButtonCaption[i]
  {
  }

  /** What one comma-separated segment contributes. */
  datatype Entry =
    | Blank                           // only '=' characters: the inner tokenizer has no token
    | Caption(text: string)          // the close-button caption, taken verbatim
    | Flag(key: string, on: bool)     // a boolean option
    | MissingValue(key: string)       // a key with no value token: nextToken() throws

  /** Tokenize one segment on '=' and read its key and value tokens. */
  function ParseEntry(segment: string): (e: Entry)
    ensures e.Blank? <==> Tokenizer.Tokens(segment, '=') == []
    ensures e.MissingValue? <==> |Tokenizer.Tokens(segment, '=')| == 1
    ensures e.Flag? || e.Caption? <==> |Tokenizer.Tokens(segment, '=')| >= 2
    ensures e.Flag? ==> !IsCaptionKey(e.key)
    ensures e.Flag? ==> e.key == Tokenizer.Tokens(segment, '=')[0]
    ensures e.Flag? ==> (!e.on <==> Tokenizer.Tokens(segment, '=')[1] == "no")
    ensures e.Caption? ==> IsCaptionKey(Tokenizer.Tokens(segment, '=')[0])
    ensures e.Caption? ==> e.text == Tokenizer.Tokens(segment, '=')[1]
  {
    var option := Tokenizer.Tokens(segment, '=');
    if |option| == 0 then Blank
    else if |option| == 1 then MissingValue(option[0])
    else if IsCaptionKey(option[0]) then Caption(option[1])
    else Flag(option[0], option[1] != "no")
  }

  /** The entries of a feature string, one per non-empty comma-separated segment. */
  function Entries(s: string): (es: seq<Entry>)
    ensures |es| == |Tokenizer.Tokens(s, ',')|
    ensures forall i :: 0 <= i < |es| ==> es[i] == ParseEntry(Tokenizer.Tokens(s, ',')[i])
  {
    var segments := Tokenizer.Tokens(s, ',');
    seq(|segments|, i requires 0 <= i < |segments| => ParseEntry(segments[i]))
  }

  /** Outcome of `parseFeature`. The close-button buttonLabel is plugin state that the
      parser overwrites as it goes, so every outcome carries its final value. */
  datatype Parsed =
    | NoMap(buttonLabel: string)                              // the literal "null": no map at all
    | Flags(flags: map<string, bool>, buttonLabel: string)
    | MissingValueError(key: string, buttonLabel: string)     // NoSuchElementException escapes

  /** A flag entry for `k` appears among `es`. */
  ghost predicate HasFlag(es: seq<Entry>, k: string) {
    exists i :: 0 <= i < |es| && es[i].Flag? && es[i].key == k
  }

  /** Entry `i` is a flag and no later entry sets the same key. */
  ghost predicate LastFlag(es: seq<Entry>, i: int) {
    && 0 <= i < |es| && es[i].Flag?
    && forall j :: i < j < |es| ==> !(es[j].Flag? && es[j].key == es[i].key)
  }

  /** Entry `i` is a caption and no later entry is. */
  ghost predicate LastCaption(es: seq<Entry>, i: int) {
    && 0 <= i < |es| && es[i].Caption?
    && forall j :: i < j < |es| ==> !es[j].Caption?
  }

  /** Apply the entries in order to a map and a label, stopping at the first
      segment that has no value. */
  function Apply(es: seq<Entry>, flags: map<string, bool>, buttonLabel: string): (r: Parsed)
    ensures !r.NoMap?
    ensures r.Flags? <==> forall i :: 0 <= i < |es| ==> !es[i].MissingValue?
    decreases |es|
  {
    if |es| == 0 then Flags(flags, buttonLabel)
    else
      match es[0]
      case Blank => Apply(es[1..], flags, buttonLabel)
      case Caption(l) => Apply(es[1..], flags, l)
      case Flag(k, b) => Apply(es[1..], flags[k := b], buttonLabel)
      case MissingValue(k) => MissingValueError(k, buttonLabel)
  }

  lemma HasFlagTail(es: seq<Entry>, k: string)
    requires |es| > 0
    ensures HasFlag(es, k) <==> (es[0].Flag? && es[0].key == k) || HasFlag(es[1..], k)
  {
    if HasFlag(es[1..], k) {
      var i :| 0 <= i < |es[1..]| && es[1..][i].Flag? && es[1..][i].key == k;
      assert es[i + 1] == es[1..][i];
    }
    if HasFlag(es, k) && !(es[0].Flag? && es[0].key == k) {
      var i :| 0 <= i < |es| && es[i].Flag? && es[i].key == k;
      assert es[1..][i - 1] == es[i];
    }
  }

  /** The keys of the resulting map are the starting keys plus every flag key. */
  lemma {:induction false} ApplyKeys(es: seq<Entry>, flags: map<string, bool>, buttonLabel: string)
    ensures Apply(es, flags, buttonLabel).Flags? ==>
      forall k :: k in Apply(es, flags, buttonLabel).flags <==> k in flags || HasFlag(es, k)
    decreases |es|
  {
    if |es| > 0 {
      forall k { HasFlagTail(es, k); }
      match es[0]
      case Blank => ApplyKeys(es[1..], flags, buttonLabel);
      case Caption(l) => ApplyKeys(es[1..], flags, l);
      case Flag(k, b) => ApplyKeys(es[1..], flags[k := b], buttonLabel);
      case MissingValue(k) =>
    }
  }

  /** A key no entry sets keeps its starting value. */
  lemma {:induction false} ApplyKeepsUntouched(es: seq<Entry>, flags: map<string, bool>, buttonLabel: string, k: string)
    requires k in flags && !HasFlag(es, k)
    ensures Apply(es, flags, buttonLabel).Flags? ==>
      k in Apply(es, flags, buttonLabel).flags && Apply(es, flags, buttonLabel).flags[k] == flags[k]
    decreases |es|
  {
    if |es| > 0 {
      HasFlagTail(es, k);
      match es[0]
      case Blank => ApplyKeepsUntouched(es[1..], flags, buttonLabel, k);
      case Caption(l) => ApplyKeepsUntouched(es[1..], flags, l, k);
      case Flag(k', b) => ApplyKeepsUntouched(es[1..], flags[k' := b], buttonLabel, k);
      case MissingValue(_) =>
    }
  }

  /** The last flag entry for a key decides its value: later duplicates overwrite. */
  lemma {:induction false} ApplyLastWins(es: seq<Entry>, flags: map<string, bool>, buttonLabel: string, i: int)
    requires LastFlag(es, i)
    ensures Apply(es, flags, buttonLabel).Flags? ==>
      es[i].key in Apply(es, flags, buttonLabel).flags
      && Apply(es, flags, buttonLabel).flags[es[i].key] == es[i].on
    decreases |es|
  {
    var k := es[i].key;
    if i == 0 {
      assert !HasFlag(es[1..], k) by {
        forall j | 0 <= j < |es[1..]| ensures !(es[1..][j].Flag? && es[1..][j].key == k) {
          assert es[1..][j] == es[j + 1];
        }
      }
      ApplyKeepsUntouched(es[1..], flags[k := es[0].on], buttonLabel, k);
    } else {
      assert LastFlag(es[1..], i - 1) by {
        forall j | i - 1 < j < |es[1..]| ensures !(es[1..][j].Flag? && es[1..][j].key == k) {
          assert es[1..][j] == es[j + 1];
        }
      }
      match es[0]
      case Blank => ApplyLastWins(es[1..], flags, buttonLabel, i - 1);
      case Caption(l) => ApplyLastWins(es[1..], flags, l, i - 1);
      case Flag(k', b) => ApplyLastWins(es[1..], flags[k' := b], buttonLabel, i - 1);
      case MissingValue(_) =>
    }
  }

  /** The label is the text of the last caption entry, or the starting label. */
  lemma {:induction false} ApplyLabel(es: seq<Entry>, flags: map<string, bool>, buttonLabel: string)
    ensures Apply(es, flags, buttonLabel).Flags? && (forall i :: 0 <= i < |es| ==> !es[i].Caption?) ==>
      Apply(es, flags, buttonLabel).buttonLabel == buttonLabel
    ensures Apply(es, flags, buttonLabel).Flags? ==>
      forall i :: LastCaption(es, i) ==> Apply(es, flags, buttonLabel).buttonLabel == es[i].text
    decreases |es|
  {
    if |es| > 0 {
      var tail := es[1..];
      assert forall i :: 0 < i < |es| ==> es[i] == tail[i - 1];
      assert forall i :: LastCaption(es, i) && i > 0 ==> LastCaption(tail, i - 1);
      assert (forall i :: 0 <= i < |es| ==> !es[i].Caption?) ==> (forall i :: 0 <= i < |tail| ==> !tail[i].Caption?);
      match es[0]
      case Blank => ApplyLabel(tail, flags, buttonLabel);
      case Caption(l) =>
        ApplyLabel(tail, flags, l);
        assert LastCaption(es, 0) ==> forall i :: 0 <= i < |tail| ==> !tail[i].Caption?;
      case Flag(k, b) => ApplyLabel(tail, flags[k := b], buttonLabel);
      case MissingValue(_) =>
    }
  }

  /** `parseFeature`: "null" yields no map; otherwise the map exists unless a
      segment has a key but no value. */
  function ParseFeature(s: string, buttonLabel: string): (r: Parsed)
    ensures r.NoMap? <==> s == NullFeatures
    ensures r.NoMap? ==> r.buttonLabel == buttonLabel
    ensures r.MissingValueError? <==>
      s != NullFeatures && exists i :: 0 <= i < |Entries(s)| && Entries(s)[i].MissingValue?
  {
    if s == NullFeatures then NoMap(buttonLabel) else Apply(Entries(s), map[], buttonLabel)
  }

  /** What the map of a successful parse holds: exactly the keys of the flag
      segments, never the caption key, each mapped as its last segment says. */
  lemma ParseFeatureFlags(s: string, buttonLabel: string)
    requires ParseFeature(s, buttonLabel).Flags?
    ensures forall k :: k in ParseFeature(s, buttonLabel).flags <==> HasFlag(Entries(s), k)
    ensures forall k :: k in ParseFeature(s, buttonLabel).flags ==> !IsCaptionKey(k)
    ensures forall i :: LastFlag(Entries(s), i) ==>
      Entries(s)[i].key in ParseFeature(s, buttonLabel).flags
      && ParseFeature(s, buttonLabel).flags[Entries(s)[i].key] == Entries(s)[i].on
  {
    var es := Entries(s);
    ApplyKeys(es, map[], buttonLabel);
    forall i | LastFlag(es, i) { ApplyLastWins(es, map[], buttonLabel, i); }
    forall k | k in ParseFeature(s, buttonLabel).flags ensures !IsCaptionKey(k) {
      var i :| 0 <= i < |es| && es[i].Flag? && es[i].key == k;
    }
  }

  /** The label after a successful parse: the last caption's text, or unchanged. */
  lemma ParseFeatureLabel(s: string, buttonLabel: string)
    requires ParseFeature(s, buttonLabel).Flags?
    ensures (forall i :: 0 <= i < |Entries(s)| ==> !Entries(s)[i].Caption?) ==>
      ParseFeature(s, buttonLabel).buttonLabel == buttonLabel
    ensures forall i :: LastCaption(Entries(s), i) ==> ParseFeature(s, buttonLabel).buttonLabel == Entries(s)[i].text
  {
    ApplyLabel(Entries(s), map[], buttonLabel);
  }

  /** A `key=value` pair that survives rendering: both parts non-empty and free
      of the two separators. */
  predicate WellFormedPair(p: (string, string)) {
    |p.0| > 0 && |p.1| > 0 && ',' !in p.0 && '=' !in p.0 && ',' !in p.1 && '=' !in p.1
  }

  /** The feature string a caller writes for a list of pairs. */
  function Render(pairs: seq<(string, string)>): string {
    Tokenizer.Join(seq(|pairs|, i requires 0 <= i < |pairs| => pairs[i].0 + "=" + pairs[i].1), ',')
  }

  /** The entry a well-formed pair parses to. */
  function EntryOf(p: (string, string)): Entry {
    if IsCaptionKey(p.0) then Caption(p.1) else Flag(p.0, p.1 != "no")
  }

  lemma {:induction false} ParseEntryOfPair(p: (string, string))
    requires WellFormedPair(p)
    ensures ParseEntry(p.0 + "=" + p.1) == EntryOf(p)
  {
    assert p.0 + "=" + p.1 == Tokenizer.Join([p.0, p.1], '=');
    Tokenizer.TokensOfJoin([p.0, p.1], '=');
  }

  lemma {:induction false} RenderNotNull(pairs: seq<(string, string)>)
    requires forall i :: 0 <= i < |pairs| ==> WellFormedPair(pairs[i])
    ensures Render(pairs) != NullFeatures
  {
    if |pairs| > 0 {
      var segments := seq(|pairs|, i requires 0 <= i < |pairs| => pairs[i].0 + "=" + pairs[i].1);
      assert segments[0][|pairs[0].0|] == '=';
      if |pairs| == 1 {
        assert Render(pairs) == segments[0];
      } else {
        assert Render(pairs) == segments[0] + [','] + Tokenizer.Join(segments[1..], ',');
        assert Render(pairs)[|pairs[0].0|] == '=';
      }
      assert '=' in Render(pairs);
    }
  }

  /** Rendering well-formed pairs and parsing the result gives one entry per pair. */
  lemma RenderEntries(pairs: seq<(string, string)>)
    requires forall i :: 0 <= i < |pairs| ==> WellFormedPair(pairs[i])
    ensures Render(pairs) != NullFeatures
    ensures Entries(Render(pairs)) == seq(|pairs|, i requires 0 <= i < |pairs| => EntryOf(pairs[i]))
  {
    var segments := seq(|pairs|, i requires 0 <= i < |pairs| => pairs[i].0 + "=" + pairs[i].1);
    forall i | 0 <= i < |segments| ensures |segments[i]| > 0 && ',' !in segments[i] {
      assert segments[i] == pairs[i].0 + "=" + pairs[i].1;
    }
    Tokenizer.TokensOfJoin(segments, ',');
    forall i | 0 <= i < |pairs| ensures ParseEntry(segments[i]) == EntryOf(pairs[i]) {
      ParseEntryOfPair(pairs[i]);
    }
    RenderNotNull(pairs);
  }

  /** Pair `i` carries the last occurrence of its key. */
  predicate LastKeyAt(pairs: seq<(string, string)>, i: int) {
    0 <= i < |pairs| && forall j :: i < j < |pairs| ==> pairs[j].0 != pairs[i].0
  }

  /** Pair `i` is the last pair whose key is the caption key. */
  predicate LastCaptionAt(pairs: seq<(string, string)>, i: int) {
    0 <= i < |pairs| && IsCaptionKey(pairs[i].0) && forall j :: i < j < |pairs| ==> !IsCaptionKey(pairs[j].0)
  }

  /** The flags of entries parsed from pairs are the keys of those pairs,
      the caption key aside. */
  lemma EntriesHaveFlags(pairs: seq<(string, string)>, es: seq<Entry>)
    requires |es| == |pairs| && forall i :: 0 <= i < |es| ==> es[i] == EntryOf(pairs[i])
    ensures forall k :: HasFlag(es, k) <==> !IsCaptionKey(k) && exists i :: 0 <= i < |pairs| && pairs[i].0 == k
  {
    forall k ensures HasFlag(es, k) <==> !IsCaptionKey(k) && exists i :: 0 <= i < |pairs| && pairs[i].0 == k {
      if !IsCaptionKey(k) && exists i :: 0 <= i < |pairs| && pairs[i].0 == k {
        var i :| 0 <= i < |pairs| && pairs[i].0 == k;
        assert es[i].Flag? && es[i].key == k;
      }
    }
  }

  /** The last pair of a key parses to the last flag of that key. */
  lemma EntriesLastFlag(pairs: seq<(string, string)>, es: seq<Entry>)
    requires |es| == |pairs| && forall i :: 0 <= i < |es| ==> es[i] == EntryOf(pairs[i])
    ensures forall i :: LastKeyAt(pairs, i) && !IsCaptionKey(pairs[i].0) ==>
      LastFlag(es, i) && es[i] == Flag(pairs[i].0, pairs[i].1 != "no")
  {
  }

  /** Round trip of a written feature string: parsing never fails, every key
      but the caption key lands in the map, and its value is false exactly when
      the last value written for it is "no". */
  lemma RenderRoundTrip(pairs: seq<(string, string)>, buttonLabel: string)
    requires forall i :: 0 <= i < |pairs| ==> WellFormedPair(pairs[i])
    ensures ParseFeature(Render(pairs), buttonLabel).Flags?
    ensures forall k :: k in ParseFeature(Render(pairs), buttonLabel).flags <==>
      !IsCaptionKey(k) && exists i :: 0 <= i < |pairs| && pairs[i].0 == k
    ensures forall i :: LastKeyAt(pairs, i) && !IsCaptionKey(pairs[i].0) ==>
      ParseFeature(Render(pairs), buttonLabel).flags[pairs[i].0] == (pairs[i].1 != "no")
  {
    var s := Render(pairs);
    RenderEntries(pairs);
    var es := Entries(s);
    assert |es| == |pairs| && forall i :: 0 <= i < |es| ==> es[i] == EntryOf(pairs[i]);
    ParseFeatureFlags(s, buttonLabel);
    EntriesHaveFlags(pairs, es);
    EntriesLastFlag(pairs, es);
  }

  /** The caption written last becomes the close-button label. */
  lemma RenderCaption(pairs: seq<(string, string)>, buttonLabel: string)
    requires forall i :: 0 <= i < |pairs| ==> WellFormedPair(pairs[i])
    ensures ParseFeature(Render(pairs), buttonLabel).Flags?
    ensures forall i :: LastCaptionAt(pairs, i) ==> ParseFeature(Render(pairs), buttonLabel).buttonLabel == pairs[i].1
  {
    var s := Render(pairs);
    RenderEntries(pairs);
    var es := Entries(s);
    assert forall i :: 0 <= i < |es| ==> es[i] == EntryOf(pairs[i]);
    ParseFeatureLabel(s, buttonLabel);
    forall i | LastCaptionAt(pairs, i) ensures LastCaption(es, i) {
    }
  }

  // The worked examples take their literal as a parameter pinned by a
  // precondition, so that each proof can name the literal's parts instead of
  // unfolding it character by character.

  lemma ExampleSegments(pairs: seq<(string, string)>)
    requires pairs == [("a", "no"), ("b", "yes"), ("closebuttoncaption", "X")]
    ensures Render(pairs) == Tokenizer.Join(["a=no", "b=yes", "closebuttoncaption=X"], ',')
  {
    var written := seq(|pairs|, i requires 0 <= i < |pairs| => pairs[i].0 + "=" + pairs[i].1);
    assert written[0] == "a=no" && written[1] == "b=yes" && written[2] == "closebuttoncaption=X";
    assert written == ["a=no", "b=yes", "closebuttoncaption=X"];
  }

  lemma ExampleText(segments: seq<string>)
    requires segments == ["a=no", "b=yes", "closebuttoncaption=X"]
    ensures Tokenizer.Join(segments, ',') == "a=no,b=yes,closebuttoncaption=X"
  {
    JoinThree(segments[0], segments[1], segments[2], ',');
    assert segments == [segments[0], segments[1], segments[2]];
  }

  lemma JoinThree(a: string, b: string, c: string, d: char)
    ensures Tokenizer.Join([a, b, c], d) == a + [d] + b + [d] + c
  {
    assert [b, c][1..] == [c];
    assert Tokenizer.Join([b, c], d) == b + [d] + c;
    assert [a, b, c][1..] == [b, c];
    assert Tokenizer.Join([a, b, c], d) == a + [d] + (b + [d] + c);
  }

  /** Two distinct flag keys followed by a caption parse to exactly those two
      flags. */
  lemma FlagsOfThree(pairs: seq<(string, string)>)
    requires |pairs| == 3 && forall i :: 0 <= i < 3 ==> WellFormedPair(pairs[i])
    requires pairs[0].0 != pairs[1].0
    requires !IsCaptionKey(pairs[0].0) && !IsCaptionKey(pairs[1].0) && IsCaptionKey(pairs[2].0)
    ensures ParseFeature(Render(pairs), DefaultButtonLabel).Flags?
    ensures ParseFeature(Render(pairs), DefaultButtonLabel).flags
      == map[pairs[0].0 := pairs[0].1 != "no", pairs[1].0 := pairs[1].1 != "no"]
  {
    assert LastKeyAt(pairs, 0) && LastKeyAt(pairs, 1);
    RenderRoundTrip(pairs, DefaultButtonLabel);
    var m := ParseFeature(Render(pairs), DefaultButtonLabel).flags;
    KeysOfThree(pairs, m);
    MapOfTwo(m, pairs[0].0, pairs[1].0);
  }

  lemma KeysOfThree(pairs: seq<(string, string)>, m: map<string, bool>)
    requires |pairs| == 3 && IsCaptionKey(pairs[2].0)
    requires forall k :: k in m <==> !IsCaptionKey(k) && exists i :: 0 <= i < |pairs| && pairs[i].0 == k
    requires !IsCaptionKey(pairs[0].0) && !IsCaptionKey(pairs[1].0)
    ensures forall k :: k in m <==> k == pairs[0].0 || k == pairs[1].0
  {
    forall k ensures k in m <==> k == pairs[0].0 || k == pairs[1].0 {
      if k == pairs[0].0 { assert pairs[0].0 == k; }
      if k == pairs[1].0 { assert pairs[1].0 == k; }
    }
  }

  lemma MapOfTwo(m: map<string, bool>, a: string, b: string)
    requires forall k :: k in m <==> k == a || k == b
    ensures m == map[a := m[a], b := m[b]]
  {
  }

  lemma CaptionKeyMatches()
    ensures IsCaptionKey(CloseButtonCaption)
  {
  }

  lemma ExampleFlags(pairs: seq<(string, string)>)
    requires pairs == [("a", "no"), ("b", "yes"), ("closebuttoncaption", "X")]
    ensures ParseFeature(Render(pairs), DefaultButtonLabel).Flags?
    ensures ParseFeature(Render(pairs), DefaultButtonLabel).flags == map["a" := false, "b" := true]
  {
    CaptionKeyMatches();
    assert pairs[2].0 == CloseButtonCaption;
    FlagsOfThree(pairs);
  }

  lemma ExampleCaption(pairs: seq<(string, string)>)
    requires pairs == [("a", "no"), ("b", "yes"), ("closebuttoncaption", "X")]
    ensures ParseFeature(Render(pairs), DefaultButtonLabel).Flags?
    ensures ParseFeature(Render(pairs), DefaultButtonLabel).buttonLabel == "X"
  {
    CaptionKeyMatches();
    assert LastCaptionAt(pairs, 2) by {
      assert pairs[2].0 == CloseButtonCaption;
    }
    RenderCaption(pairs, DefaultButtonLabel);
  }

  /** Two flags and a caption, rendered and parsed. */
  lemma ParseExample(pairs: seq<(string, string)>)
    requires pairs == [("a", "no"), ("b", "yes"), ("closebuttoncaption", "X")]
    ensures Render(pairs) == "a=no,b=yes,closebuttoncaption=X"
    ensures ParseFeature(Render(pairs), DefaultButtonLabel) == Flags(map["a" := false, "b" := true], "X")
  {
    ExampleFlags(pairs);
    ExampleCaption(pairs);
    ExampleSegments(pairs);
    ExampleText(["a=no", "b=yes", "closebuttoncaption=X"]);
  }

  /** The entries of a key followed by one '=': a single missing value. */
  lemma KeyEqualsEntries(key: string, s: string)
    requires |key| > 0 && ',' !in key && '=' !in key
    requires s == key + "="
    ensures |Entries(s)| == 1 && Entries(s)[0].MissingValue?
  {
    assert Tokenizer.Tokens(s, ',') == [s] by {
      Tokenizer.TokensOfJoin([s], ',');
    }
    assert Tokenizer.Tokens(s, '=') == [key] by {
      assert s[|key|..] == "=";
      assert Tokenizer.TokenEnd(s, '=') == |key|;
      assert s[..|key|] == key;
      assert Tokenizer.Tokens("=", '=') == Tokenizer.Tokens("", '=');
    }
  }

  /** A segment with a key and no value raises instead of defaulting. */
  lemma MissingValueExample(key: string, s: string)
    requires |key| > 0 && ',' !in key && '=' !in key && key != NullFeatures
    requires s == key || s == key + "="
    ensures ParseFeature(s, DefaultButtonLabel).MissingValueError?
  {
    if s == key + "=" {
      KeyEqualsEntries(key, s);
      assert s != NullFeatures by { assert s[|key|] == '='; }
    } else {
      Tokenizer.TokensOfJoin([key], ',');
      Tokenizer.TokensOfJoin([key], '=');
    }
  }

  /** The display and cache flags of the plugin instance. */
  datatype Settings = Settings(
    showLocationBar: bool,
    openHidden: bool,
    clearAllCache: bool,
    clearSessionCache: bool)

  /** Field initialisers of the plugin instance. */
  const InitialSettings: Settings := Settings(true, false, false, false)

  /** `features.get(key)` of a map that may be null. */
  function Lookup(features: Option<map<string, bool>>, key: string): Option<bool> {
    if features.Some? && key in features.value then Some(features.value[key]) else None
  }

  /** The flag resolution at the top of `showWebPage`: the two display flags are
      reset before the lookup, the two cache flags keep their previous values
      unless the features name them, and "clearcache" shadows "clearsessioncache". */
  function ResolveFlags(prev: Settings, features: Option<map<string, bool>>): (r: Settings)
    ensures r.showLocationBar == Lookup(features, LocationKey).GetOr(true)
    ensures r.openHidden == Lookup(features, HiddenKey).GetOr(false)
    ensures r.clearAllCache == Lookup(features, ClearAllCacheKey).GetOr(prev.clearAllCache)
    ensures r.clearSessionCache ==
      if Lookup(features, ClearAllCacheKey).Some? then prev.clearSessionCache
      else Lookup(features, ClearSessionCacheKey).GetOr(prev.clearSessionCache)
  {
    var reset := prev.(showLocationBar := true, openHidden := false);
    if features.None? then reset
    else
      var m := features.value;
      var withLocation := if LocationKey in m then reset.(showLocationBar := m[LocationKey]) else reset;
      var withHidden := if HiddenKey in m then withLocation.(openHidden := m[HiddenKey]) else withLocation;
      if ClearAllCacheKey in m then withHidden.(clearAllCache := m[ClearAllCacheKey])
      else if ClearSessionCacheKey in m then withHidden.(clearSessionCache := m[ClearSessionCacheKey])
      else withHidden
  }

  /** Which cookies the new web view drops before its first load. */
  datatype CookieClearing = RemoveAllCookies | RemoveSessionCookies | KeepCookies

  function CookieClearingOf(s: Settings): (c: CookieClearing)
    ensures c == RemoveAllCookies <==> s.clearAllCache
    ensures c == RemoveSessionCookies <==> !s.clearAllCache && s.clearSessionCache
  {
    if s.clearAllCache then RemoveAllCookies
    else if s.clearSessionCache then RemoveSessionCookies
    else KeepCookies
  }

  /** Resolving the same features twice changes nothing more. */
  lemma ResolveIdempotent(prev: Settings, features: Option<map<string, bool>>)
    ensures ResolveFlags(ResolveFlags(prev, features), features) == ResolveFlags(prev, features)
  {
  }

  /** The display flags depend only on the features, never on earlier opens;
      a null map gives the defaults. */
  lemma DisplayFlagsAreReset(a: Settings, b: Settings, features: Option<map<string, bool>>)
    ensures ResolveFlags(a, features).showLocationBar == ResolveFlags(b, features).showLocationBar
    ensures ResolveFlags(a, features).openHidden == ResolveFlags(b, features).openHidden
    ensures ResolveFlags(a, None).showLocationBar && !ResolveFlags(a, None).openHidden
  {
  }

  /** The cache flags survive an open whose features do not mention them. */
  lemma CacheFlagsPersist(prev: Settings, features: Option<map<string, bool>>)
    requires Lookup(features, ClearAllCacheKey).None? && Lookup(features, ClearSessionCacheKey).None?
    ensures ResolveFlags(prev, features).clearAllCache == prev.clearAllCache
    ensures ResolveFlags(prev, features).clearSessionCache == prev.clearSessionCache
  {
  }

  /** "clearcache=yes" clears every cookie whatever else was asked for or
      remembered, and a present "clearcache" hides "clearsessioncache". */
  lemma ClearCacheWins(prev: Settings, m: map<string, bool>)
    requires ClearAllCacheKey in m
    ensures ResolveFlags(prev, Some(m)).clearSessionCache == prev.clearSessionCache
    ensures m[ClearAllCacheKey] ==> CookieClearingOf(ResolveFlags(prev, Some(m))) == RemoveAllCookies
  {
  }
}
