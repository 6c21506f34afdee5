/** What every text of a SimpleSchema type is parsed to, and when it is refused, read off the text. */
module TypeTexts {

  import opened Collections
  import opened SimpleSchema

  datatype Wrapper = SliceOf | MapOf

  function WrapperText(w: Wrapper): string {
    if w.SliceOf? then "[]" else "map[string]"
  }

  function Wrap(w: Wrapper, t: Type): Type {
    if w.SliceOf? then Slice(t) else Map(t)
  }

  function WrapAll(ws: seq<Wrapper>, t: Type): Type {
    if ws == [] then t else Wrap(ws[0], WrapAll(ws[1..], t))
  }

  /** The text is these wrappers, white space before each of them allowed, around the core, which
      begins with none. */
  ghost predicate Spells(s: string, ws: seq<Wrapper>, core: string)
    decreases |ws|
  {
    if ws == [] then TrimSpace(s) == core && !("[]" <= core) && !("map[string]" <= core)
    else exists rest :: TrimSpace(s) == WrapperText(ws[0]) + rest && Spells(rest, ws[1..], core)
  }

  /** A core that is no built-in name refers to a custom type. */
  function Leaf(core: string): Type {
    if core == "string" then Atomic(String)
    else if core == "integer" then Atomic(Integer)
    else if core == "boolean" then Atomic(Boolean)
    else if core == "float" then Atomic(Float)
    else if core == "object" then Object
    else Custom(core)
  }

  /** The outcome for wrappers around a core, from a depth on: every wrapper, and a core that is not
      missing, takes a level; a core that begins like a map but is none has a key that is no string. */
  function Verdict(ws: seq<Wrapper>, core: string, depth: nat): Result<Type> {
    if depth + |ws| > 16 && (core != "" || depth + |ws| > 17) then Err(NestingTooDeep)
    else if core == "" then
      if ws == [] then Ok(Custom("")) else Err(if ws[|ws| - 1].SliceOf? then EmptySliceElement else MapValueMissing)
    else if "map[" <= core then Err(MapKeyNotString)
    else Ok(WrapAll(ws, Leaf(core)))
  }

  /* ---------- trimming ---------- */

  lemma {:induction false} TrimLeftTrimmed(s: string)
    ensures TrimLeft(s) == [] || !IsSpace(TrimLeft(s)[0])
  {
    if s != [] && IsSpace(s[0]) {
      TrimLeftTrimmed(s[1..]);
    }
  }

  lemma {:induction false} TrimRightTrimmed(s: string)
    ensures TrimRight(s) <= s
    ensures TrimRight(s) == [] || !IsSpace(TrimRight(s)[|TrimRight(s)| - 1])
  {
    if s != [] && IsSpace(s[|s| - 1]) {
      TrimRightTrimmed(s[..|s| - 1]);
    }
  }

  lemma TrimSpaceTrimmed(s: string)
    ensures Trimmed(TrimSpace(s)) && TrimSpace(TrimSpace(s)) == TrimSpace(s)
  {
    TrimLeftTrimmed(s);
    TrimRightTrimmed(TrimLeft(s));
    TrimTrimmed(TrimSpace(s));
  }

  /** A text that ends in no space is blank only if it is empty. */
  lemma {:induction false} NotBlank(s: string)
    requires s != [] && !IsSpace(s[|s| - 1])
    ensures TrimSpace(s) != []
  {
    if IsSpace(s[0]) {
      NotBlank(s[1..]);
    } else {
      TrimRightTrimmed(s);
    }
  }

  /* ---------- one level ---------- */

  lemma NoLeafName(s: string, w: Wrapper)
    requires WrapperText(w) <= s
    ensures AtomicOf(s).None? && s != OBJECT
  {
    assert s[0] == WrapperText(w)[0];
    assert "[]"[0] == '[' && "map[string]"[0] == 'm';
    assert "string"[0] == 's' && "integer"[0] == 'i' && "boolean"[0] == 'b' && "float"[0] == 'f' && OBJECT[0] == 'o';
  }

  function Around(w: Wrapper, r: Result<Type>): Result<Type> {
    match r
    case Ok(t) => Ok(Wrap(w, t))
    case Err(e) => Err(e)
    case Fault => Fault
  }

  lemma RestNotBlank(s: string, w: Wrapper, rest: string)
    requires TrimSpace(s) == WrapperText(w) + rest && rest != []
    ensures TrimSpace(rest) != []
  {
    var t := TrimSpace(s);
    TrimSpaceTrimmed(s);
    assert t[|t| - 1] == rest[|rest| - 1];
    NotBlank(rest);
  }

  lemma ParseAfterSlice(s: string, depth: nat, rest: string)
    requires TrimSpace(s) == WrapperText(SliceOf) + rest && depth <= MAX_TYPE_NESTING_DEPTH
    ensures ParseTypeWithDepth(s, depth) ==
            if rest == "" then Err(EmptySliceElement) else Around(SliceOf, ParseTypeWithDepth(rest, depth + 1))
  {
    var t := TrimSpace(s);
    NoLeafName(t, SliceOf);
    assert SLICE <= t && t[|SLICE|..] == rest;
  }

  lemma ParseAfterMap(s: string, depth: nat, rest: string)
    requires TrimSpace(s) == WrapperText(MapOf) + rest && depth <= MAX_TYPE_NESTING_DEPTH
    ensures ParseTypeWithDepth(s, depth) ==
            if TrimSpace(rest) == "" then Err(MapValueMissing) else Around(MapOf, ParseTypeWithDepth(TrimSpace(rest), depth + 1))
  {
    var t := TrimSpace(s);
    NoLeafName(t, MapOf);
    assert t[0] == 'm' && SLICE[0] == '[' && !(SLICE <= t);
    assert MAP <= t && t[|MAP|..] == rest && MAP_OPEN <= MAP;
  }

  /** A wrapper must be followed by something other than white space. */
  lemma ParseWrapper(s: string, depth: nat, w: Wrapper, rest: string)
    requires TrimSpace(s) == WrapperText(w) + rest && depth <= MAX_TYPE_NESTING_DEPTH
    ensures ParseTypeWithDepth(s, depth) ==
            if TrimSpace(rest) == "" then Err(if w.SliceOf? then EmptySliceElement else MapValueMissing)
            else Around(w, ParseTypeWithDepth(rest, depth + 1))
  {
    if w.SliceOf? {
      if rest != [] { RestNotBlank(s, w, rest); }
      ParseAfterSlice(s, depth, rest);
    } else {
      ParseAfterMap(s, depth, rest);
      SameTrimmed(rest, depth + 1);
    }
  }

  /** Outer white space has no part in the result. */
  lemma SameTrimmed(s: string, depth: nat)
    ensures ParseTypeWithDepth(TrimSpace(s), depth) == ParseTypeWithDepth(s, depth)
  {
    TrimSpaceTrimmed(s);
  }

  lemma ParseCore(s: string, depth: nat, core: string)
    requires TrimSpace(s) == core && !("[]" <= core) && !("map[string]" <= core) && depth <= MAX_TYPE_NESTING_DEPTH
    ensures ParseTypeWithDepth(s, depth) == if "map[" <= core then Err(MapKeyNotString) else Ok(Leaf(core))
  {
    assert SLICE == "[]" && MAP == "map[string]" && MAP_OPEN == "map[" && OBJECT == "object";
    if "map[" <= core {
      assert core[0] == 'm' && "map["[0] == 'm';
      assert "string"[0] == 's' && "integer"[0] == 'i' && "boolean"[0] == 'b' && "float"[0] == 'f' && OBJECT[0] == 'o';
    }
  }

  /* ---------- every text ---------- */

  lemma {:induction false} BlankSpells(s: string, ws: seq<Wrapper>, core: string)
    requires Spells(s, ws, core)
    ensures TrimSpace(s) == "" <==> ws == [] && core == ""
  {
    if ws != [] {
      assert WrapperText(ws[0]) != "";
    }
  }

  lemma VerdictAround(w: Wrapper, ws: seq<Wrapper>, core: string, depth: nat)
    requires ws != [] || core != ""
    ensures Verdict([w] + ws, core, depth) == Around(w, Verdict(ws, core, depth + 1))
  {
    assert ([w] + ws)[1..] == ws;
  }

  lemma {:induction false} SpelledIsParsed(s: string, ws: seq<Wrapper>, core: string, depth: nat)
    requires Spells(s, ws, core) && (depth <= 16 || (depth == 17 && (ws != [] || core != "")))
    ensures ParseTypeWithDepth(s, depth) == Verdict(ws, core, depth)
    decreases |ws|
  {
    if depth <= 16 {
      if ws == [] {
        ParseCore(s, depth, core);
        assert core == "" ==> Leaf(core) == Custom("") && !("map[" <= core);
      } else {
        var rest :| TrimSpace(s) == WrapperText(ws[0]) + rest && Spells(rest, ws[1..], core);
        ParseWrapper(s, depth, ws[0], rest);
        BlankSpells(rest, ws[1..], core);
        assert ws == [ws[0]] + ws[1..];
        if TrimSpace(rest) != "" {
          SpelledIsParsed(rest, ws[1..], core, depth + 1);
          VerdictAround(ws[0], ws[1..], core, depth);
        }
      }
    }
  }

  /** A type's text is parsed to its wrappers around its core, or refused, exactly as Verdict says. */
  lemma TypeTextParsed(s: string, ws: seq<Wrapper>, core: string)
    requires '|' !in s && Spells(s, ws, core)
    ensures ParseTypeString(s) == if ws == [] && core == "" then Err(EmptyType) else Verdict(ws, core, 0)
  {
    NoBar(s);
    SameTrimmed(s, 0);
    BlankSpells(s, ws, core);
    SpelledIsParsed(s, ws, core, 0);
  }

  /** And every text is some wrappers around a core. */
  lemma {:induction false} EveryTextSpells(s: string) returns (ws: seq<Wrapper>, core: string)
    ensures Spells(s, ws, core)
    decreases |TrimSpace(s)|, 1
  {
    var t := TrimSpace(s);
    TrimSpaceTrimmed(s);
    if "[]" <= t {
      ws, core := SpellsAfter(s, SliceOf);
    } else if "map[string]" <= t {
      ws, core := SpellsAfter(s, MapOf);
    } else {
      ws, core := [], t;
    }
  }

  lemma {:induction false} SpellsAfter(s: string, w: Wrapper) returns (ws: seq<Wrapper>, core: string)
    requires WrapperText(w) <= TrimSpace(s)
    ensures Spells(s, ws, core)
    decreases |TrimSpace(s)|, 0
  {
    var t := TrimSpace(s);
    var rest := t[|WrapperText(w)|..];
    TrimShorter(rest);
    var ws', core' := EveryTextSpells(rest);
    ws, core := [w] + ws', core';
    assert t == WrapperText(w) + rest && ws[1..] == ws';
  }

  lemma TrimShorter(s: string)
    ensures |TrimSpace(s)| <= |s|
  {
    TrimLeftShorter(s);
    TrimRightTrimmed(TrimLeft(s));
  }

  lemma {:induction false} TrimLeftShorter(s: string)
    ensures |TrimLeft(s)| <= |s|
  {
    if s != [] && IsSpace(s[0]) {
      TrimLeftShorter(s[1..]);
    }
  }
}
