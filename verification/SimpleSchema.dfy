/** SimpleSchema fields (pkg/simpleschema): the type parser, the character-level marker parser, and
    printing a field so that it parses back. A string is a sequence of Unicode scalar values. */
module SimpleSchema {

  import opened Collections

  datatype Error =
    | EmptyType | EmptySliceElement | MapKeyNotString | MapValueMissing | NestingTooDeep
    | EmptyMarkerKey | UnknownMarker | UnmatchedClosing | KeyWithoutValue | UnclosedQuote | UnclosedBracket

  /** Fault is a run-time panic. */
  datatype Result<+T> = Ok(value: T) | Err(error: Error) | Fault

  /* ---------- white space ---------- */

  /** unicode.IsSpace */
  predicate IsSpace(c: char) {
    || c in {'\t', '\n', '\U{0B}', '\U{0C}', '\r', ' ', '\U{85}', '\U{A0}', '\U{1680}'}
    || '\U{2000}' <= c <= '\U{200A}'
    || c in {'\U{2028}', '\U{2029}', '\U{202F}', '\U{205F}', '\U{3000}'}
  }

  function TrimLeft(s: string): string {
    if s != [] && IsSpace(s[0]) then TrimLeft(s[1..]) else s
  }

  function TrimRight(s: string): string {
    if s != [] && IsSpace(s[|s| - 1]) then TrimRight(s[..|s| - 1]) else s
  }

  function TrimSpace(s: string): string {
    TrimRight(TrimLeft(s))
  }

  /** Nothing to trim. */
  predicate Trimmed(s: string) {
    s == [] || (!IsSpace(s[0]) && !IsSpace(s[|s| - 1]))
  }

  lemma TrimTrimmed(s: string)
    requires Trimmed(s)
    ensures TrimSpace(s) == s
  {
  }

  /* ---------- types ---------- */

  datatype AtomicName = String | Integer | Boolean | Float

  datatype Type = Atomic(atomic: AtomicName) | Object | Slice(elem: Type) | Map(elem: Type) | Custom(name: string)

  const MAX_TYPE_NESTING_DEPTH := 16

  const SLICE := "[]"
  const MAP_OPEN := "map["
  const MAP := "map[string]"
  const OBJECT := "object"

  function AtomicText(a: AtomicName): string {
    match a
    case String => "string"
    case Integer => "integer"
    case Boolean => "boolean"
    case Float => "float"
  }

  function AtomicOf(s: string): Option<AtomicName> {
    if s == "string" then Some(String)
    else if s == "integer" then Some(Integer)
    else if s == "boolean" then Some(Boolean)
    else if s == "float" then Some(Float)
    else None
  }

  /** parseMapString: None is "not a map". */
  function ParseMapString(s: string): Result<Option<string>> {
    if !(MAP_OPEN <= s) then Ok(None)
    else if !(MAP <= s) then Err(MapKeyNotString)
    else
      var rest := TrimSpace(s[|MAP|..]);
      if rest == "" then Err(MapValueMissing) else Ok(Some(rest))
  }

  function ParseTypeWithDepth(s0: string, depth: nat): Result<Type>
    decreases MAX_TYPE_NESTING_DEPTH + 1 - depth
  {
    if depth > MAX_TYPE_NESTING_DEPTH then Err(NestingTooDeep)
    else
      var s := TrimSpace(s0);
      if AtomicOf(s).Some? then Ok(Atomic(AtomicOf(s).value))
      else if s == OBJECT then Ok(Object)
      else if SLICE <= s then
        if s[|SLICE|..] == "" then Err(EmptySliceElement)
        else
          match ParseTypeWithDepth(s[|SLICE|..], depth + 1)
          case Ok(elem) => Ok(Slice(elem))
          case Err(e) => Err(e)
          case Fault => Fault
      else
        match ParseMapString(s)
        case Err(e) => Err(e)
        case Fault => Fault
        case Ok(None) => Ok(Custom(s))
        case Ok(Some(value)) =>
          match ParseTypeWithDepth(value, depth + 1)
          case Ok(elem) => Ok(Map(elem))
          case Err(e) => Err(e)
          case Fault => Fault
  }

  /** The text before the first bar, and after it if there is one. */
  function CutBar(s: string): (string, Option<string>) {
    if s == [] then ([], None)
    else if s[0] == '|' then ([], Some(s[1..]))
    else
      var (before, after) := CutBar(s[1..]);
      ([s[0]] + before, after)
  }

  function ParseTypeString(s: string): Result<Type> {
    var text := TrimSpace(CutBar(s).0);
    if text == "" then Err(EmptyType) else ParseTypeWithDepth(text, 0)
  }

  /* ---------- printing types ---------- */

  function PrintType(t: Type): string {
    match t
    case Atomic(a) => AtomicText(a)
    case Object => OBJECT
    case Slice(elem) => SLICE + PrintType(elem)
    case Map(elem) => MAP + PrintType(elem)
    case Custom(name) => name
  }

  function Wrappers(t: Type): nat {
    match t
    case Slice(elem) => 1 + Wrappers(elem)
    case Map(elem) => 1 + Wrappers(elem)
    case _ => 0
  }

  /** A name that can only be a reference to a custom type. */
  predicate IsCustomName(s: string) {
    && s != "" && Trimmed(s) && '|' !in s
    && AtomicOf(s).None? && s != OBJECT && !(SLICE <= s) && !(MAP_OPEN <= s)
  }

  /** Every custom type in t has such a name. */
  predicate Printable(t: Type) {
    match t
    case Slice(elem) => Printable(elem)
    case Map(elem) => Printable(elem)
    case Custom(name) => IsCustomName(name)
    case _ => true
  }

  lemma LeafText(t: Type)
    requires Printable(t) && Wrappers(t) == 0
    ensures PrintType(t) != "" && Trimmed(PrintType(t)) && '|' !in PrintType(t)
  {
    match t
    case Atomic(a) =>
      match a {
        case String => assert forall c :: c in "string" ==> c in {'s', 't', 'r', 'i', 'n', 'g'};
        case Integer => assert forall c :: c in "integer" ==> c in {'i', 'n', 't', 'e', 'g', 'r'};
        case Boolean => assert forall c :: c in "boolean" ==> c in {'b', 'o', 'l', 'e', 'a', 'n'};
        case Float => assert forall c :: c in "float" ==> c in {'f', 'l', 'o', 'a', 't'};
      }
    case Object => assert forall c :: c in OBJECT ==> c in {'o', 'b', 'j', 'e', 'c', 't'};
    case Custom(_) =>
  }

  lemma {:induction false} TextTrimmed(t: Type)
    requires Printable(t)
    ensures PrintType(t) != "" && Trimmed(PrintType(t)) && '|' !in PrintType(t)
  {
    match t
    case Slice(elem) => TextTrimmed(elem);
    case Map(elem) =>
      TextTrimmed(elem);
      assert forall c :: c in MAP ==> c in {'m', 'a', 'p', '[', 's', 't', 'r', 'i', 'n', 'g', ']'};
    case _ => LeafText(t);
  }

  function Wrapped(r: Result<Type>, slice: bool): Result<Type> {
    match r
    case Ok(elem) => Ok(if slice then Slice(elem) else Map(elem))
    case Err(e) => Err(e)
    case Fault => Fault
  }

  lemma ParseSlice(text: string, depth: nat)
    requires text != "" && Trimmed(SLICE + text) && depth <= MAX_TYPE_NESTING_DEPTH
    ensures ParseTypeWithDepth(SLICE + text, depth) == Wrapped(ParseTypeWithDepth(text, depth + 1), true)
  {
    var s := SLICE + text;
    TrimTrimmed(s);
    assert s[0] == '[' && s[|SLICE|..] == text;
    assert "string"[0] == 's' && "integer"[0] == 'i' && "boolean"[0] == 'b' && "float"[0] == 'f' && OBJECT[0] == 'o';
    assert AtomicOf(s).None? && s != OBJECT;
  }

  lemma ParseMap(text: string, depth: nat)
    requires text != "" && Trimmed(MAP + text) && Trimmed(text) && depth <= MAX_TYPE_NESTING_DEPTH
    ensures ParseTypeWithDepth(MAP + text, depth) == Wrapped(ParseTypeWithDepth(text, depth + 1), false)
  {
    var s := MAP + text;
    TrimTrimmed(s);
    TrimTrimmed(text);
    assert s[0] == 'm' && s[|MAP|..] == text;
    assert "string"[0] == 's' && "integer"[0] == 'i' && "boolean"[0] == 'b' && "float"[0] == 'f' && OBJECT[0] == 'o';
    assert AtomicOf(s).None? && s != OBJECT && !(SLICE <= s) && MAP <= s && MAP_OPEN <= s;
    assert ParseMapString(s) == Ok(Some(text));
  }

  lemma ParseLeaf(t: Type, depth: nat)
    requires Printable(t) && Wrappers(t) == 0 && depth <= MAX_TYPE_NESTING_DEPTH
    ensures ParseTypeWithDepth(PrintType(t), depth) == Ok(t)
  {
    LeafText(t);
    TrimTrimmed(PrintType(t));
  }

  /** What parsing the text of t at this depth gives: t, exactly when the wrappers fit. */
  ghost predicate Reads(text: string, t: Type, depth: nat) {
    ParseTypeWithDepth(text, depth) ==
      if depth + Wrappers(t) <= MAX_TYPE_NESTING_DEPTH then Ok(t) else Err(NestingTooDeep)
  }

  lemma TooDeep(text: string, t: Type, depth: nat)
    requires depth > MAX_TYPE_NESTING_DEPTH
    ensures Reads(text, t, depth)
  {
  }

  lemma ReadsSlice(text: string, elem: Type, depth: nat)
    requires text != "" && Trimmed(SLICE + text) && depth <= MAX_TYPE_NESTING_DEPTH && Reads(text, elem, depth + 1)
    ensures Reads(SLICE + text, Slice(elem), depth)
  {
    ParseSlice(text, depth);
  }

  lemma ReadsMap(text: string, elem: Type, depth: nat)
    requires text != "" && Trimmed(MAP + text) && Trimmed(text) && depth <= MAX_TYPE_NESTING_DEPTH && Reads(text, elem, depth + 1)
    ensures Reads(MAP + text, Map(elem), depth)
  {
    ParseMap(text, depth);
  }

  lemma {:induction false} TypeRoundTripAt(t: Type, depth: nat)
    requires Printable(t)
    ensures Reads(PrintType(t), t, depth)
    decreases t
  {
    if depth > MAX_TYPE_NESTING_DEPTH {
      TooDeep(PrintType(t), t, depth);
    } else {
      TextTrimmed(t);
      match t
      case Slice(elem) =>
        TextTrimmed(elem);
        TypeRoundTripAt(elem, depth + 1);
        ReadsSlice(PrintType(elem), elem, depth);
      case Map(elem) =>
        TextTrimmed(elem);
        TypeRoundTripAt(elem, depth + 1);
        ReadsMap(PrintType(elem), elem, depth);
      case _ => ParseLeaf(t, depth);
    }
  }

  lemma TypeRoundTrip(t: Type)
    requires Printable(t)
    ensures ParseTypeString(PrintType(t)) == Ok(t) <==> Wrappers(t) <= MAX_TYPE_NESTING_DEPTH
  {
    TextTrimmed(t);
    TrimTrimmed(PrintType(t));
    NoBar(PrintType(t));
    TypeRoundTripAt(t, 0);
  }

  lemma {:induction false} NoBar(s: string)
    requires '|' !in s
    ensures CutBar(s) == (s, None)
  {
    if s != [] {
      assert s[0] in s && forall c :: c in s[1..] ==> c in s;
      NoBar(s[1..]);
      assert s == [s[0]] + s[1..];
    }
  }

  lemma {:induction false} CutAtBar(a: string, b: string)
    requires '|' !in a
    ensures CutBar(a + "|" + b) == (a, Some(b))
  {
    if a == [] {
      assert a + "|" + b == ['|'] + b;
    } else {
      assert a[0] in a && forall c :: c in a[1..] ==> c in a;
      CutAtBar(a[1..], b);
      assert a == [a[0]] + a[1..] && (a + "|" + b)[0] == a[0];
      assert (a + "|" + b)[1..] == a[1..] + "|" + b;
    }
  }
}
