/** Markers of a SimpleSchema field (pkg/simpleschema/markers.go): a character loop with quoting,
    escaping and bracket counting, proved equal to a state machine that printing inverts. */
module Markers {

  import opened Collections
  import opened SimpleSchema

  datatype MarkerType =
    | Required | Default | Description | Minimum | Maximum | Validation | Enum | Immutable
    | Pattern | UniqueItems | MinLength | MaxLength | MinItems | MaxItems | ListType | ListMapKey

  datatype Marker = Marker(markerType: MarkerType, key: string, value: string)

  function KeyText(t: MarkerType): string {
    match t
    case Required => "required"
    case Default => "default"
    case Description => "description"
    case Minimum => "minimum"
    case Maximum => "maximum"
    case Validation => "validation"
    case Enum => "enum"
    case Immutable => "immutable"
    case Pattern => "pattern"
    case UniqueItems => "uniqueItems"
    case MinLength => "minLength"
    case MaxLength => "maxLength"
    case MinItems => "minItems"
    case MaxItems => "maxItems"
    case ListType => "listType"
    case ListMapKey => "listMapKey"
  }

  const MARKER_TYPES := [Required, Default, Description, Minimum, Maximum, Validation, Enum, Immutable,
                         Pattern, UniqueItems, MinLength, MaxLength, MinItems, MaxItems, ListType, ListMapKey]

  function Lookup(types: seq<MarkerType>, s: string): Option<MarkerType> {
    if types == [] then None
    else if KeyText(types[0]) == s then Some(types[0])
    else Lookup(types[1..], s)
  }

  /** markerTypeFromString */
  function MarkerTypeFromString(s: string): Option<MarkerType> {
    Lookup(MARKER_TYPES, s)
  }

  /* ---------- values ---------- */

  /** A backslash before a quote or a backslash is dropped, before anything else it stays; one at the
      very end is lost. */
  function Unescape(s: string): string {
    if s == [] then []
    else if s[0] != '\\' then [s[0]] + Unescape(s[1..])
    else if |s| == 1 then []
    else (if s[1] == '"' || s[1] == '\\' then [s[1]] else ['\\', s[1]]) + Unescape(s[2..])
  }

  lemma UnescapePlain(c: char, rest: string)
    requires c != '\\'
    ensures Unescape([c] + rest) == [c] + Unescape(rest)
  {
    assert ([c] + rest)[1..] == rest;
  }

  lemma UnescapePair(c: char, rest: string)
    ensures Unescape(['\\'] + ([c] + rest)) == (if c == '"' || c == '\\' then [c] else ['\\', c]) + Unescape(rest)
  {
    var s := ['\\'] + ([c] + rest);
    assert s[0] == '\\' && s[1] == c && s[2..] == rest;
  }

  /** Backslashes before anything but quotes and backslashes stay. */
  lemma {:induction false} UnescapeLeaves(s: string)
    requires forall i :: 0 <= i < |s| && s[i] == '\\' ==> i + 1 < |s| && s[i + 1] != '"' && s[i + 1] != '\\'
    ensures Unescape(s) == s
  {
    if s != [] {
      if s[0] != '\\' {
        UnescapeLeaves(s[1..]);
      } else {
        var rest := s[2..];
        forall i | 0 <= i < |rest| && rest[i] == '\\' ensures i + 1 < |rest| && rest[i + 1] != '"' && rest[i + 1] != '\\' {
          assert s[i + 2] == '\\';
        }
        UnescapeLeaves(rest);
        assert s == ['\\', s[1]] + rest;
      }
    }
  }

  /** What is still to be unescaped after the flag, and the whole result. */
  ghost predicate Unescaping(whole: string, result: string, escaped: bool, rest: string) {
    whole == result + Unescape(if escaped then ['\\'] + rest else rest)
  }

  lemma UnescapeNext(whole: string, result: string, escaped: bool, c: char, rest: string)
    requires Unescaping(whole, result, escaped, [c] + rest)
    ensures escaped ==> Unescaping(whole, (if c != '"' && c != '\\' then result + ['\\'] else result) + [c], false, rest)
    ensures !escaped && c == '\\' ==> Unescaping(whole, result, true, rest)
    ensures !escaped && c != '\\' ==> Unescaping(whole, result + [c], false, rest)
  {
    if escaped {
      UnescapePair(c, rest);
      assert c != '"' && c != '\\' ==> result + ['\\', c] == result + ['\\'] + [c];
    } else if c != '\\' {
      UnescapePlain(c, rest);
    }
  }

  method UnescapeString(s: string) returns (result: string)
    ensures result == Unescape(s)
  {
    result := [];
    var escaped := false;
    ghost var whole := Unescape(s);
    assert s == s[0..] && [] + whole == whole;
    for i := 0 to |s|
      invariant Unescaping(whole, result, escaped, s[i..])
    {
      var c := s[i];
      assert s[i..] == [c] + s[i + 1..];
      UnescapeNext(whole, result, escaped, c, s[i + 1..]);
      if escaped {
        if c != '"' && c != '\\' {
          result := result + ['\\'];
        }
        result := result + [c];
        escaped := false;
      } else if c == '\\' {
        escaped := true;
      } else {
        result := result + [c];
      }
    }
    assert s[|s|..] == [];
  }

  /** processValue: a lone quote has its first and last character at the same place, and slicing
      between them panics; None stands for that. */
  function ProcessValue(value: string): Option<string> {
    if value != "" && value[0] == '"' && value[|value| - 1] == '"' then
      if |value| == 1 then None else Some(Unescape(value[1..|value| - 1]))
    else Some(TrimSpace(value))
  }

  method Process(value: string) returns (r: Option<string>)
    ensures r == ProcessValue(value)
  {
    if |value| > 0 && value[0] == '"' && value[|value| - 1] == '"' {
      if |value| == 1 {
        return None;
      }
      var unquoted := UnescapeString(value[1..|value| - 1]);
      return Some(unquoted);
    }
    return Some(TrimSpace(value));
  }

  /* ---------- the state machine ---------- */

  datatype State = State(result: seq<Marker>, current: Option<MarkerType>, inQuotes: bool, brackets: int,
                         buffer: string, escaped: bool)

  datatype Out = Go(state: State) | Stop(error: Error) | Panic

  const START := State([], None, false, 0, [], false)

  function Opened(st: State): Out {
    var key := TrimSpace(st.buffer);
    if key == "" then Stop(EmptyMarkerKey)
    else if MarkerTypeFromString(key).None? then Stop(UnknownMarker)
    else Go(st.(current := MarkerTypeFromString(key), buffer := []))
  }

  function Closed(st: State): Out
    requires st.current.Some?
  {
    match ProcessValue(st.buffer)
    case None => Panic
    case Some(value) =>
      Go(st.(result := st.result + [Marker(st.current.value, KeyText(st.current.value), value)], current := None, buffer := []))
  }

  function Step(st: State, c: char): Out {
    if c == '=' && st.current.None? && !st.inQuotes && st.brackets == 0 then Opened(st)
    else if c == '"' && !st.escaped then Go(st.(inQuotes := !st.inQuotes, buffer := st.buffer + [c]))
    else if c == '\\' && st.inQuotes && !st.escaped then Go(st.(escaped := true, buffer := st.buffer + [c]))
    else if (c == '{' || c == '[') && !st.inQuotes then Go(st.(brackets := st.brackets + 1, buffer := st.buffer + [c]))
    else if (c == '}' || c == ']') && !st.inQuotes then
      if st.brackets - 1 < 0 then Stop(UnmatchedClosing)
      else Go(st.(brackets := st.brackets - 1, buffer := st.buffer + [c]))
    else if IsSpace(c) && !st.inQuotes && st.brackets == 0 then
      if st.current.Some? then Closed(st) else Go(st)
    else Go(st.(escaped := st.escaped && !st.inQuotes, buffer := st.buffer + [c]))
  }

  function Run(st: State, s: string): Out
    decreases |s|
  {
    if s == [] then Go(st)
    else
      match Step(st, s[0])
      case Go(next) => Run(next, s[1..])
      case Stop(e) => Stop(e)
      case Panic => Panic
  }

  function Finish(st: State): Result<seq<Marker>> {
    if st.current.None? then Err(KeyWithoutValue)
    else
      match Closed(st)
      case Panic => Fault
      case Stop(e) => Err(e)
      case Go(last) => if st.inQuotes then Err(UnclosedQuote) else if st.brackets > 0 then Err(UnclosedBracket) else Ok(last.result)
  }

  function Parsed(markers: string): Result<seq<Marker>> {
    match Run(START, markers)
    case Go(st) => Finish(st)
    case Stop(e) => Err(e)
    case Panic => Fault
  }

  method ParseMarkers(markers: string) returns (r: Result<seq<Marker>>)
    ensures r == Parsed(markers)
  {
    var result: seq<Marker> := [];
    var current: Option<MarkerType> := None;
    var inQuotes, brackets, buffer, escaped := false, 0, "", false;
    for i := 0 to |markers|
      invariant Run(START, markers) == Run(State(result, current, inQuotes, brackets, buffer, escaped), markers[i..])
    {
      var c := markers[i];
      assert markers[i..] == [c] + markers[i + 1..];
      if c == '=' && current.None? && !inQuotes && brackets == 0 {
        var key := TrimSpace(buffer);
        if key == "" {
          return Err(EmptyMarkerKey);
        }
        current := MarkerTypeFromString(key);
        if current.None? {
          return Err(UnknownMarker);
        }
        buffer := "";
      } else if c == '"' && !escaped {
        inQuotes := !inQuotes;
        buffer := buffer + [c];
      } else if c == '\\' && inQuotes && !escaped {
        escaped := true;
        buffer := buffer + [c];
      } else if (c == '{' || c == '[') && !inQuotes {
        brackets := brackets + 1;
        buffer := buffer + [c];
      } else if (c == '}' || c == ']') && !inQuotes {
        brackets := brackets - 1;
        buffer := buffer + [c];
        if brackets < 0 {
          return Err(UnmatchedClosing);
        }
      } else if IsSpace(c) && !inQuotes && brackets == 0 {
        if current.Some? {
          var value := Process(buffer);
          if value.None? {
            return Fault;
          }
          result := result + [Marker(current.value, KeyText(current.value), value.value)];
          current := None;
          buffer := "";
        }
      } else {
        if escaped && inQuotes {
          escaped := false;
        }
        buffer := buffer + [c];
      }
    }
    assert markers[|markers|..] == [];
    if current.None? {
      return Err(KeyWithoutValue);
    }
    var value := Process(buffer);
    if value.None? {
      return Fault;
    }
    result := result + [Marker(current.value, KeyText(current.value), value.value)];
    if inQuotes {
      return Err(UnclosedQuote);
    }
    if brackets > 0 {
      return Err(UnclosedBracket);
    }
    return Ok(result);
  }

  lemma {:induction false} RunConcat(st: State, a: string, b: string)
    ensures Run(st, a + b) ==
            match Run(st, a)
            case Go(mid) => Run(mid, b)
            case Stop(e) => Stop(e)
            case Panic => Panic
    decreases |a|
  {
    if a == [] {
      assert a + b == b;
    } else {
      assert (a + b)[0] == a[0] && (a + b)[1..] == a[1..] + b;
      if Step(st, a[0]).Go? {
        RunConcat(Step(st, a[0]).state, a[1..], b);
      }
    }
  }

  /* ---------- the panic ---------- */

  /** Inside quotes the buffer holds at least the opening quote, and a lone quote is an open one. */
  ghost predicate Quoting(st: State) {
    && (st.buffer == "" ==> !st.inQuotes)
    && (st.buffer == ['"'] ==> st.inQuotes)
    && (st.escaped ==> st.inQuotes)
  }

  lemma StepKeepsQuoting(st: State, c: char)
    requires Quoting(st)
    ensures !Step(st, c).Panic?
    ensures Step(st, c).Go? ==> Quoting(Step(st, c).state)
    ensures Step(st, c).Go? ==>
              var next := Step(st, c).state;
              (next.current.Some? && next.buffer == ['"'] <==> st.current.Some? && st.buffer == "" && c == '"')
  {
    var grown := st.buffer + [c];
    assert grown[|st.buffer|] == c && |grown| == |st.buffer| + 1;
    assert grown == ['"'] <==> st.buffer == "" && c == '"';
    assert ProcessValue(st.buffer).None? ==> st.buffer == ['"'];
  }

  lemma {:induction false} RunKeepsQuoting(st: State, s: string)
    requires Quoting(st)
    ensures !Run(st, s).Panic?
    ensures Run(st, s).Go? ==> Quoting(Run(st, s).state)
    decreases |s|
  {
    if s != [] {
      StepKeepsQuoting(st, s[0]);
      if Step(st, s[0]).Go? {
        RunKeepsQuoting(Step(st, s[0]).state, s[1..]);
      }
    }
  }

  /** A value is about to begin: the text so far ends with the '=' of a known key. */
  ghost predicate AwaitsValue(s: string) {
    Run(START, s).Go? && Run(START, s).state.current.Some? && Run(START, s).state.buffer == ""
  }

  /** ParseMarkers panics on exactly the texts whose last character is the opening quote of a value. */
  lemma FaultIffLoneQuote(s: string)
    ensures Parsed(s).Fault? <==> s != "" && s[|s| - 1] == '"' && AwaitsValue(s[..|s| - 1])
  {
    RunKeepsQuoting(START, s);
    if s != "" {
      var before, c := s[..|s| - 1], s[|s| - 1];
      assert s == before + [c];
      RunConcat(START, before, [c]);
      RunKeepsQuoting(START, before);
      if Run(START, before).Go? {
        var st := Run(START, before).state;
        StepKeepsQuoting(st, c);
        assert [c][0] == c && [c][1..] == [];
        assert Run(st, [c]) == Step(st, c);
      }
    }
  }

  /* ---------- printing markers ---------- */

  function EscapeOne(c: char): string {
    if c == '"' || c == '\\' then ['\\', c] else [c]
  }

  function Escape(v: string): string {
    if v == [] then [] else EscapeOne(v[0]) + Escape(v[1..])
  }

  function Quoted(v: string): string {
    ['"'] + Escape(v) + ['"']
  }

  /** Opening less closing brackets and braces. */
  function Nesting(s: string): int {
    if s == [] then 0
    else
      var n, c := |s| - 1, s[|s| - 1];
      Nesting(s[..n]) + if c == '{' || c == '[' then 1 else if c == '}' || c == ']' then -1 else 0
  }

  /** Text that can stand as a value without quotes: none inside, brackets balanced, and white space
      only between brackets. */
  ghost predicate IsBare(s: string) {
    && '"' !in s && Nesting(s) == 0
    && (forall i {:trigger s[..i]} :: 0 <= i <= |s| ==> Nesting(s[..i]) >= 0)
    && forall i {:trigger s[..i]} :: 0 <= i < |s| && IsSpace(s[i]) ==> Nesting(s[..i]) > 0
  }

  /** A value as it is written. */
  datatype Value = QuotedText(text: string) | BareText(text: string)

  ghost predicate Writable(v: Value) {
    v.BareText? ==> IsBare(v.text)
  }

  type Entry = (MarkerType, Value)

  ghost predicate AllWritable(ms: seq<Entry>) {
    forall m :: m in ms ==> Writable(m.1)
  }

  function PrintValue(v: Value): string {
    if v.QuotedText? then Quoted(v.text) else v.text
  }

  function PrintMarker(m: Entry): string {
    KeyText(m.0) + ['='] + PrintValue(m.1)
  }

  function PrintMarkers(ms: seq<Entry>): string
    requires ms != []
  {
    if |ms| == 1 then PrintMarker(ms[0]) else PrintMarker(ms[0]) + [' '] + PrintMarkers(ms[1..])
  }

  function MarkerOf(m: Entry): Marker {
    Marker(m.0, KeyText(m.0), m.1.text)
  }

  function MarkersOf(ms: seq<Entry>): seq<Marker> {
    if ms == [] then [] else [MarkerOf(ms[0])] + MarkersOf(ms[1..])
  }

  lemma {:induction false} UnescapeEscape(v: string)
    ensures Unescape(Escape(v)) == v
  {
    if v != [] {
      UnescapeEscape(v[1..]);
      var e, rest := Escape(v), Escape(v[1..]);
      if v[0] == '"' || v[0] == '\\' {
        assert e == ['\\', v[0]] + rest && e[2..] == rest;
      } else {
        assert e == [v[0]] + rest && e[1..] == rest;
      }
      assert v == [v[0]] + v[1..];
    }
  }

  lemma QuotedValue(v: string)
    ensures ProcessValue(Quoted(v)) == Some(v)
  {
    var q := Quoted(v);
    assert q[1..|q| - 1] == Escape(v);
    UnescapeEscape(v);
  }

  lemma BareTrimmed(v: string)
    requires IsBare(v)
    ensures Trimmed(v)
  {
    if v != [] {
      var n, c := |v| - 1, v[|v| - 1];
      assert v[..0] == [] && Nesting(v[..0]) == 0;
      assert Nesting(v) == Nesting(v[..n]) + if c == '{' || c == '[' then 1 else if c == '}' || c == ']' then -1 else 0;
    }
  }

  /** A bare value stands for itself. */
  lemma ValueRead(v: Value)
    requires Writable(v)
    ensures ProcessValue(PrintValue(v)) == Some(v.text)
  {
    if v.QuotedText? {
      QuotedValue(v.text);
    } else {
      BareTrimmed(v.text);
      TrimTrimmed(v.text);
      assert v.text != [] ==> v.text[0] in v.text;
    }
  }

  /** A letter means nothing to the state machine. */
  predicate IsLetter(c: char) {
    'a' <= c <= 'z' || 'A' <= c <= 'Z'
  }

  lemma KeysAreLetters(t: MarkerType)
    ensures KeyText(t) != "" && forall i :: 0 <= i < |KeyText(t)| ==> IsLetter(KeyText(t)[i])
  {
  }

  lemma {:induction false} LookupFinds(types: seq<MarkerType>, t: MarkerType)
    requires t in types
    ensures Lookup(types, KeyText(t)) == Some(t)
  {
    if types[0] != t {
      DistinctKeys(types[0], t);
      LookupFinds(types[1..], t);
    }
  }

  lemma DistinctKeys(t: MarkerType, u: MarkerType)
    requires t != u
    ensures KeyText(t) != KeyText(u)
  {
  }

  lemma Listed(t: MarkerType)
    ensures t in MARKER_TYPES
  {
    assert MARKER_TYPES[0] == Required && MARKER_TYPES[1] == Default && MARKER_TYPES[2] == Description;
    assert MARKER_TYPES[3] == Minimum && MARKER_TYPES[4] == Maximum && MARKER_TYPES[5] == Validation;
    assert MARKER_TYPES[6] == Enum && MARKER_TYPES[7] == Immutable && MARKER_TYPES[8] == Pattern;
    assert MARKER_TYPES[9] == UniqueItems && MARKER_TYPES[10] == MinLength && MARKER_TYPES[11] == MaxLength;
    assert MARKER_TYPES[12] == MinItems && MARKER_TYPES[13] == MaxItems && MARKER_TYPES[14] == ListType;
    assert MARKER_TYPES[15] == ListMapKey;
  }

  lemma KeyTrimmed(t: MarkerType)
    ensures TrimSpace(KeyText(t)) == KeyText(t)
  {
    KeysAreLetters(t);
    TrimTrimmed(KeyText(t));
  }

  lemma KeyKnown(t: MarkerType)
    ensures MarkerTypeFromString(KeyText(t)) == Some(t)
    ensures TrimSpace(KeyText(t)) == KeyText(t)
  {
    Listed(t);
    KeyTrimmed(t);
    LookupFinds(MARKER_TYPES, t);
  }

  /** Between markers: nothing pending. */
  function Between(result: seq<Marker>): State {
    State(result, None, false, 0, [], false)
  }

  lemma RunStep(st: State, c: char, rest: string, next: State)
    requires Step(st, c) == Go(next)
    ensures Run(st, [c] + rest) == Run(next, rest)
  {
    assert ([c] + rest)[0] == c && ([c] + rest)[1..] == rest;
  }

  lemma StepLetter(st: State, c: char)
    requires st.current.None? && !st.inQuotes && st.brackets == 0 && !st.escaped && IsLetter(c)
    ensures Step(st, c) == Go(st.(buffer := st.buffer + [c]))
  {
  }

  lemma StepEquals(st: State, t: MarkerType)
    requires st.current.None? && !st.inQuotes && st.brackets == 0 && st.buffer == KeyText(t)
    ensures Step(st, '=') == Go(st.(current := Some(t), buffer := []))
  {
    KeyKnown(t);
    KeysAreLetters(t);
  }

  lemma StepQuote(st: State)
    requires st.current.Some? && !st.escaped
    ensures Step(st, '"') == Go(st.(inQuotes := !st.inQuotes, buffer := st.buffer + ['"']))
  {
  }

  lemma StepBackslash(st: State)
    requires st.current.Some? && st.inQuotes && !st.escaped
    ensures Step(st, '\\') == Go(st.(escaped := true, buffer := st.buffer + ['\\']))
  {
  }

  /** Any character after a backslash, and any but quotes and backslashes otherwise. */
  lemma StepInside(st: State, c: char)
    requires st.current.Some? && st.inQuotes && (st.escaped || (c != '"' && c != '\\'))
    ensures Step(st, c) == Go(st.(escaped := false, buffer := st.buffer + [c]))
  {
  }

  lemma StepSpace(result: seq<Marker>, m: Entry)
    requires Writable(m.1)
    ensures Step(Pending(result, m), ' ') == Go(Between(result + [MarkerOf(m)]))
  {
    ValueRead(m.1);
  }

  /** After key=value: the value is in the buffer as it is written. */
  function Pending(result: seq<Marker>, m: Entry): State {
    State(result, Some(m.0), false, 0, PrintValue(m.1), false)
  }

  lemma {:induction false} RunLetters(st: State, k: string, rest: string)
    requires st.current.None? && !st.inQuotes && st.brackets == 0 && !st.escaped
    requires forall i :: 0 <= i < |k| ==> IsLetter(k[i])
    ensures Run(st, k + rest) == Run(st.(buffer := st.buffer + k), rest)
    decreases |k|
  {
    if k == [] {
      assert st.buffer + k == st.buffer && k + rest == rest;
    } else {
      var next := st.(buffer := st.buffer + [k[0]]);
      StepLetter(st, k[0]);
      assert k + rest == [k[0]] + (k[1..] + rest);
      RunStep(st, k[0], k[1..] + rest, next);
      RunLetters(next, k[1..], rest);
      assert next.buffer + k[1..] == st.buffer + k;
    }
  }

  lemma {:induction false} RunEscaped(st: State, v: string, rest: string)
    requires st.current.Some? && st.inQuotes && !st.escaped
    ensures Run(st, Escape(v) + rest) == Run(st.(buffer := st.buffer + Escape(v)), rest)
    decreases |v|
  {
    if v == [] {
      assert st.buffer + Escape(v) == st.buffer && Escape(v) + rest == rest;
    } else {
      var head, tail := EscapeOne(v[0]), Escape(v[1..]);
      var next := RunOne(st, v[0], tail + rest);
      RunEscaped(next, v[1..], rest);
      assert Escape(v) == head + tail;
      ConcatAssociative(head, tail, rest);
      ConcatAssociative(st.buffer, head, tail);
    }
  }

  lemma RunOne(st: State, c: char, rest: string) returns (next: State)
    requires st.current.Some? && st.inQuotes && !st.escaped
    ensures next == st.(buffer := st.buffer + EscapeOne(c))
    ensures Run(st, EscapeOne(c) + rest) == Run(next, rest)
  {
    next := if c == '"' || c == '\\' then EscapedOne(st, c, rest) else PlainOne(st, c, rest);
  }

  /** The state after an escaped character, from which the text goes on. */
  ghost function EscapedOne(st: State, c: char, rest: string): (next: State)
    requires st.current.Some? && st.inQuotes && !st.escaped
    ensures next == st.(buffer := st.buffer + ['\\', c])
    ensures Run(st, ['\\', c] + rest) == Run(next, rest)
  {
    var one := st.(escaped := true, buffer := st.buffer + ['\\']);
    var two := st.(buffer := st.buffer + ['\\', c]);
    StepBackslash(st);
    StepInside(one, c);
    assert one.buffer + [c] == two.buffer;
    RunStep(st, '\\', [c] + rest, one);
    RunStep(one, c, rest, two);
    assert ['\\', c] + rest == ['\\'] + ([c] + rest);
    two
  }

  ghost function PlainOne(st: State, c: char, rest: string): (next: State)
    requires st.current.Some? && st.inQuotes && !st.escaped && c != '"' && c != '\\'
    ensures next == st.(buffer := st.buffer + [c])
    ensures Run(st, [c] + rest) == Run(next, rest)
  {
    StepInside(st, c);
    RunStep(st, c, rest, st.(buffer := st.buffer + [c]));
    st.(buffer := st.buffer + [c])
  }

  lemma RunQuoted(st: State, v: string, rest: string)
    requires st.current.Some? && !st.inQuotes && !st.escaped && st.buffer == []
    ensures Run(st, Quoted(v) + rest) == Run(st.(buffer := Quoted(v)), rest)
  {
    var begun := st.(inQuotes := true, buffer := ['"']);
    var read := begun.(buffer := ['"'] + Escape(v));
    StepQuote(st);
    assert Quoted(v) + rest == ['"'] + (Escape(v) + (['"'] + rest));
    RunStep(st, '"', Escape(v) + (['"'] + rest), begun);
    RunEscaped(begun, v, ['"'] + rest);
    StepQuote(read);
    RunStep(read, '"', rest, st.(buffer := Quoted(v)));
  }

  /** After the first i characters of a bare value. */
  ghost function BareAt(st: State, v: string, i: nat): State
    requires i <= |v|
  {
    st.(brackets := Nesting(v[..i]), buffer := v[..i])
  }

  lemma StepBare(st: State, v: string, i: nat)
    requires st.current.Some? && !st.inQuotes && !st.escaped && IsBare(v) && i < |v|
    ensures Step(BareAt(st, v, i), v[i]) == Go(BareAt(st, v, i + 1))
  {
    PrefixSnoc(v, i);
    assert v[i] in v;
    assert Nesting(v[..i + 1]) >= 0 && Nesting(v[..i]) >= 0;
  }

  lemma {:induction false} RunBare(st: State, v: string, i: nat, rest: string)
    requires st.current.Some? && !st.inQuotes && !st.escaped && IsBare(v) && i <= |v|
    ensures Run(BareAt(st, v, i), v[i..] + rest) == Run(BareAt(st, v, |v|), rest)
    decreases |v| - i
  {
    if i == |v| {
      assert v[i..] + rest == rest;
    } else {
      StepBare(st, v, i);
      assert v[i..] + rest == [v[i]] + (v[i + 1..] + rest);
      RunStep(BareAt(st, v, i), v[i], v[i + 1..] + rest, BareAt(st, v, i + 1));
      RunBare(st, v, i + 1, rest);
    }
  }

  lemma RunValue(st: State, v: Value, rest: string)
    requires st.current.Some? && !st.inQuotes && !st.escaped && st.brackets == 0 && st.buffer == [] && Writable(v)
    ensures Run(st, PrintValue(v) + rest) == Run(st.(buffer := PrintValue(v)), rest)
  {
    if v.QuotedText? {
      RunQuoted(st, v.text, rest);
    } else {
      RunBare(st, v.text, 0, rest);
      assert v.text[0..] == v.text && v.text[..|v.text|] == v.text;
      assert BareAt(st, v.text, 0) == st;
    }
  }

  /** Reading key=value leaves the value, as it is written, in the buffer. */
  lemma RunMarker(result: seq<Marker>, m: Entry, rest: string)
    requires Writable(m.1)
    ensures Run(Between(result), PrintMarker(m) + rest) == Run(Pending(result, m), rest)
  {
    var key := KeyText(m.0);
    KeysAreLetters(m.0);
    var afterKey, valued := Between(result).(buffer := key), State(result, Some(m.0), false, 0, [], false);
    assert [] + key == key;
    assert PrintMarker(m) + rest == key + (['='] + (PrintValue(m.1) + rest));
    RunLetters(Between(result), key, ['='] + (PrintValue(m.1) + rest));
    StepEquals(afterKey, m.0);
    RunStep(afterKey, '=', PrintValue(m.1) + rest, valued);
    RunValue(valued, m.1, rest);
  }

  /** What is left to read yields these markers. */
  ghost predicate Yields(st: State, text: string, markers: seq<Marker>) {
    Run(st, text).Go? && Finish(Run(st, text).state) == Ok(markers)
  }

  lemma YieldsLast(result: seq<Marker>, m: Entry)
    requires Writable(m.1)
    ensures Yields(Pending(result, m), [], result + [MarkerOf(m)])
  {
    ValueRead(m.1);
  }

  lemma YieldsOne(result: seq<Marker>, m: Entry)
    requires Writable(m.1)
    ensures Yields(Between(result), PrintMarker(m), result + [MarkerOf(m)])
  {
    RunMarker(result, m, []);
    YieldsLast(result, m);
    assert PrintMarker(m) + [] == PrintMarker(m);
  }

  lemma YieldsMore(result: seq<Marker>, m: Entry, tail: string, markers: seq<Marker>)
    requires Writable(m.1) && Yields(Between(result + [MarkerOf(m)]), tail, markers)
    ensures Yields(Between(result), PrintMarker(m) + ([' '] + tail), markers)
  {
    RunMarker(result, m, [' '] + tail);
    StepSpace(result, m);
    RunStep(Pending(result, m), ' ', tail, Between(result + [MarkerOf(m)]));
  }

  lemma PrintMore(ms: seq<Entry>)
    requires |ms| > 1
    ensures PrintMarkers(ms) == PrintMarker(ms[0]) + ([' '] + PrintMarkers(ms[1..]))
  {
  }

  lemma MarkersMore(result: seq<Marker>, ms: seq<Entry>)
    requires ms != []
    ensures result + [MarkerOf(ms[0])] + MarkersOf(ms[1..]) == result + MarkersOf(ms)
    ensures |ms| == 1 ==> result + [MarkerOf(ms[0])] == result + MarkersOf(ms)
  {
    var head, tail := [MarkerOf(ms[0])], MarkersOf(ms[1..]);
    assert MarkersOf(ms) == head + tail;
    ConcatAssociative(result, head, tail);
    assert |ms| == 1 ==> head + tail == head;
  }

  lemma {:induction false} RunMarkers(result: seq<Marker>, ms: seq<Entry>)
    requires ms != [] && AllWritable(ms)
    ensures Yields(Between(result), PrintMarkers(ms), result + MarkersOf(ms))
    decreases |ms|
  {
    var m, next := ms[0], result + [MarkerOf(ms[0])];
    if |ms| == 1 {
      YieldsOne(result, m);
      MarkersMore(result, ms);
    } else {
      RunMarkers(next, ms[1..]);
      YieldsMore(result, m, PrintMarkers(ms[1..]), next + MarkersOf(ms[1..]));
      PrintMore(ms);
      MarkersMore(result, ms);
    }
  }

  /** Any markers, with quoted values of any text and bare ones mixed, are read as they were written. */
  lemma MarkersRoundTrip(ms: seq<Entry>)
    requires ms != [] && AllWritable(ms)
    ensures Parsed([' '] + PrintMarkers(ms)) == Ok(MarkersOf(ms))
  {
    assert Step(START, ' ') == Go(START);
    RunStep(START, ' ', PrintMarkers(ms), START);
    RunMarkers([], ms);
    assert [] + MarkersOf(ms) == MarkersOf(ms);
  }

  /* ---------- whole fields ---------- */

  function FieldOf(s: string): Result<(Type, seq<Marker>)> {
    match ParseTypeString(s)
    case Err(e) => Err(e)
    case Fault => Fault
    case Ok(t) =>
      match CutBar(s).1
      case None => Ok((t, []))
      case Some(rest) =>
        match Parsed(rest)
        case Ok(markers) => Ok((t, markers))
        case Err(e) => Err(e)
        case Fault => Fault
  }

  method ParseField(s: string) returns (r: Result<(Type, seq<Marker>)>)
    ensures r == FieldOf(s)
  {
    var t := ParseTypeString(s);
    if t.Err? {
      return Err(t.error);
    }
    if t.Fault? {
      return Fault;
    }
    var rest := CutBar(s).1;
    if rest.None? {
      return Ok((t.value, []));
    }
    var markers := ParseMarkers(rest.value);
    if markers.Err? {
      return Err(markers.error);
    }
    if markers.Fault? {
      return Fault;
    }
    return Ok((t.value, markers.value));
  }

  /** The type, and after a bar the markers if there are any. */
  function PrintField(t: Type, ms: seq<Entry>): string {
    if ms == [] then PrintType(t) else PrintType(t) + " " + "|" + ([' '] + PrintMarkers(ms))
  }

  lemma TrimTrailingSpace(s: string)
    requires Trimmed(s) && s != ""
    ensures TrimSpace(s + " ") == s
  {
    var t := s + " ";
    assert t[0] == s[0] && t[|t| - 1] == ' ' && t[..|t| - 1] == s;
    assert IsSpace(' ') && TrimLeft(t) == t;
    assert TrimRight(t) == TrimRight(s);
  }

  /** Printing any type and any markers, with quoted values of any text and bare ones mixed, and parsing
      the field gives back the same type and markers exactly when the type has at most 16 wrappers. */
  lemma FieldRoundTrip(t: Type, ms: seq<Entry>)
    requires Printable(t) && AllWritable(ms)
    ensures FieldOf(PrintField(t, ms)) ==
            if Wrappers(t) <= MAX_TYPE_NESTING_DEPTH then Ok((t, MarkersOf(ms))) else Err(NestingTooDeep)
  {
    TextTrimmed(t);
    TypeRoundTripAt(t, 0);
    var text := PrintType(t);
    if ms == [] {
      NoBar(text);
      TrimTrimmed(text);
    } else {
      CutAtBar(text + " ", [' '] + PrintMarkers(ms));
      TrimTrailingSpace(text);
      MarkersRoundTrip(ms);
    }
  }
}
