/** When parsing the markers of a SimpleSchema field fails, and how, read off the text. */
module MarkerErrors {

  import opened Collections
  import opened SimpleSchema
  import opened Markers

  /* ---------- what a text leaves open ---------- */

  /** The text ends inside quotes. */
  ghost predicate InQuotes(s: string) {
    s != [] && var n := |s| - 1;
               if s[n] == '"' && !Escaping(s[..n]) then !InQuotes(s[..n]) else InQuotes(s[..n])
  }

  /** It ends inside quotes with a backslash that escapes what comes next. */
  ghost predicate Escaping(s: string) {
    s != [] && var n := |s| - 1; s[n] == '\\' && InQuotes(s[..n]) && !Escaping(s[..n])
  }

  /** Opening less closing brackets and braces outside quotes. */
  ghost function Depth(s: string): int {
    if s == [] then 0
    else
      var n, c := |s| - 1, s[|s| - 1];
      Depth(s[..n]) + if InQuotes(s[..n]) then 0 else if c == '{' || c == '[' then 1 else if c == '}' || c == ']' then -1 else 0
  }

  /** It ends outside quotes and brackets. */
  ghost predicate Outside(s: string) {
    !InQuotes(s) && Depth(s) == 0
  }

  /** It ends within a value: after an outside '=' with no outside white space since. */
  ghost predicate InValue(s: string) {
    s != [] && var n := |s| - 1;
               if !Outside(s[..n]) then InValue(s[..n])
               else s[n] == '=' || (InValue(s[..n]) && !IsSpace(s[n]))
  }

  /** The text since the current key or value began; outside white space is no part of a key. */
  ghost function Piece(s: string): string {
    if s == [] then []
    else
      var n, c := |s| - 1, s[|s| - 1];
      if Outside(s[..n]) && c == '=' && !InValue(s[..n]) then []
      else if Outside(s[..n]) && IsSpace(c) then if InValue(s[..n]) then [] else Piece(s[..n])
      else Piece(s[..n]) + [c]
  }

  /* ---------- offences ---------- */

  /** A closing bracket with nothing to close. */
  ghost predicate ClosesNothing(s: string, i: nat)
    requires i < |s|
  {
    Outside(s[..i]) && (s[i] == '}' || s[i] == ']')
  }

  /** An '=' that ends a key. */
  ghost predicate EndsKey(s: string, i: nat)
    requires i < |s|
  {
    Outside(s[..i]) && !InValue(s[..i]) && s[i] == '='
  }

  ghost predicate KeyEmpty(s: string, i: nat)
    requires i < |s|
  {
    EndsKey(s, i) && TrimSpace(Piece(s[..i])) == ""
  }

  ghost predicate KeyUnknown(s: string, i: nat)
    requires i < |s|
  {
    EndsKey(s, i) && TrimSpace(Piece(s[..i])) != "" && forall t :: KeyText(t) != TrimSpace(Piece(s[..i]))
  }

  ghost predicate Offends(s: string, i: nat)
    requires i < |s|
  {
    ClosesNothing(s, i) || KeyEmpty(s, i) || KeyUnknown(s, i)
  }

  /** Nothing offends before position i. */
  ghost predicate Clean(s: string, i: nat)
    requires i <= |s|
  {
    forall j :: 0 <= j < i ==> !Offends(s, j)
  }

  /* ---------- the machine against the text ---------- */

  lemma {:induction false} LookupOnly(types: seq<MarkerType>, key: string)
    ensures Lookup(types, key).Some? ==> KeyText(Lookup(types, key).value) == key
  {
    if types != [] && KeyText(types[0]) != key {
      LookupOnly(types[1..], key);
    }
  }

  lemma KnownIff(key: string)
    ensures MarkerTypeFromString(key).None? <==> forall t :: KeyText(t) != key
  {
    LookupOnly(MARKER_TYPES, key);
    forall t | KeyText(t) == key ensures MarkerTypeFromString(key).Some? {
      KeyKnown(t);
    }
  }

  ghost predicate Tracks(st: State, s: string) {
    && st.inQuotes == InQuotes(s) && st.escaped == Escaping(s) && st.brackets == Depth(s) >= 0
    && st.current.Some? == InValue(s) && st.buffer == Piece(s) && Quoting(st)
  }

  /** What stops the machine at character c after p. */
  ghost function Offence(p: string, c: char): Option<Error> {
    if Outside(p) && (c == '}' || c == ']') then Some(UnmatchedClosing)
    else if Outside(p) && !InValue(p) && c == '=' then
      if TrimSpace(Piece(p)) == "" then Some(EmptyMarkerKey)
      else if MarkerTypeFromString(TrimSpace(Piece(p))).None? then Some(UnknownMarker)
      else None
    else None
  }

  lemma EscapingQuoted(s: string)
    ensures Escaping(s) ==> InQuotes(s)
  {
  }

  lemma StepTracks(st: State, p: string, c: char)
    requires Tracks(st, p)
    ensures match Offence(p, c)
            case Some(e) => Step(st, c) == Stop(e)
            case None => Step(st, c).Go? && Tracks(Step(st, c).state, p + [c])
  {
    assert (p + [c])[..|p|] == p;
    StepKeepsQuoting(st, c);
    EscapingQuoted(p);
  }

  lemma OffendsIff(s: string, i: nat)
    requires i < |s|
    ensures Offence(s[..i], s[i]) ==
            if ClosesNothing(s, i) then Some(UnmatchedClosing)
            else if KeyEmpty(s, i) then Some(EmptyMarkerKey)
            else if KeyUnknown(s, i) then Some(UnknownMarker)
            else None
  {
    KnownIff(TrimSpace(Piece(s[..i])));
  }

  lemma RunOneMore(s: string, i: nat)
    requires i < |s| && Run(START, s[..i]).Go?
    ensures Run(START, s[..i + 1]) == Step(Run(START, s[..i]).state, s[i])
  {
    var st := Run(START, s[..i]).state;
    PrefixSnoc(s, i);
    RunConcat(START, s[..i], [s[i]]);
    assert [s[i]][1..] == [];
    assert Run(st, [s[i]]) == Step(st, s[i]);
  }

  lemma {:induction false} CleanRuns(s: string, i: nat)
    requires i <= |s| && Clean(s, i)
    ensures Run(START, s[..i]).Go? && Tracks(Run(START, s[..i]).state, s[..i])
  {
    if i > 0 {
      CleanRuns(s, i - 1);
      RunOneMore(s, i - 1);
      PrefixSnoc(s, i - 1);
      OffendsIff(s, i - 1);
      assert !Offends(s, i - 1);
      StepTracks(Run(START, s[..i - 1]).state, s[..i - 1], s[i - 1]);
    }
  }

  /** The first offence decides the error. */
  lemma FirstOffence(s: string, i: nat)
    requires i < |s| && Clean(s, i) && Offends(s, i)
    ensures Offence(s[..i], s[i]).Some? && Parsed(s) == Err(Offence(s[..i], s[i]).value)
  {
    CleanRuns(s, i);
    RunOneMore(s, i);
    OffendsIff(s, i);
    StepTracks(Run(START, s[..i]).state, s[..i], s[i]);
    assert s == s[..i + 1] + s[i + 1..];
    RunConcat(START, s[..i + 1], s[i + 1..]);
  }

  lemma {:induction false} OffenceExists(s: string, n: nat) returns (i: nat)
    requires n <= |s| && !Clean(s, n)
    ensures i < n && Clean(s, i) && Offends(s, i)
  {
    if Clean(s, n - 1) {
      i := n - 1;
    } else {
      i := OffenceExists(s, n - 1);
    }
  }

  lemma PanicIff(value: string)
    ensures ProcessValue(value).None? <==> value == ['"']
  {
  }

  /** How the machine ends. */
  lemma FinishIff(st: State)
    requires Quoting(st) && st.brackets >= 0
    ensures Finish(st).Ok? <==> st.current.Some? && !st.inQuotes && st.brackets == 0
    ensures Finish(st) == Err(KeyWithoutValue) <==> st.current.None?
    ensures Finish(st).Fault? <==> st.current.Some? && st.buffer == ['"']
    ensures Finish(st) == Err(UnclosedQuote) <==> st.current.Some? && st.inQuotes && st.buffer != ['"']
    ensures Finish(st) == Err(UnclosedBracket) <==> st.current.Some? && !st.inQuotes && st.brackets > 0
    ensures Finish(st).Err? ==> Finish(st).error in {KeyWithoutValue, UnclosedQuote, UnclosedBracket}
  {
    PanicIff(st.buffer);
    if st.current.Some? && ProcessValue(st.buffer).Some? {
      assert Closed(st).Go?;
    }
  }

  /** Without an offence, how the text ends decides. */
  lemma CleanEnd(s: string)
    requires Clean(s, |s|)
    ensures Parsed(s).Ok? <==> InValue(s) && Outside(s)
    ensures Parsed(s) == Err(KeyWithoutValue) <==> !InValue(s)
    ensures Parsed(s).Fault? <==> InValue(s) && Piece(s) == ['"']
    ensures Parsed(s) == Err(UnclosedQuote) <==> InValue(s) && InQuotes(s) && Piece(s) != ['"']
    ensures Parsed(s) == Err(UnclosedBracket) <==> InValue(s) && !InQuotes(s) && Depth(s) > 0
    ensures Parsed(s).Err? ==> Parsed(s).error in {KeyWithoutValue, UnclosedQuote, UnclosedBracket}
  {
    CleanRuns(s, |s|);
    assert s[..|s|] == s;
    FinishIff(Run(START, s).state);
    assert Parsed(s) == Finish(Run(START, s).state);
  }

  /* ---------- the verdict ---------- */

  /** Position i is the first offence, and of this kind. */
  ghost predicate FirstIs(s: string, i: nat, e: Error) {
    i < |s| && Clean(s, i)
    && if ClosesNothing(s, i) then e == UnmatchedClosing
       else if KeyEmpty(s, i) then e == EmptyMarkerKey
       else KeyUnknown(s, i) && e == UnknownMarker
  }

  lemma FirstIsUnique(s: string, i: nat, e: Error)
    requires FirstIs(s, i, e)
    ensures Parsed(s) == Err(e) && !Clean(s, |s|)
  {
    assert Offends(s, i);
    FirstOffence(s, i);
    OffendsIff(s, i);
  }

  /** A text is rejected in the middle exactly by the first closing bracket with nothing to close, or
      the first '=' after no key or an unknown one, whichever comes first. */
  lemma RejectedIff(s: string, e: Error)
    requires e in {UnmatchedClosing, EmptyMarkerKey, UnknownMarker}
    ensures Parsed(s) == Err(e) <==> exists i :: FirstIs(s, i, e)
  {
    forall i | FirstIs(s, i, e) ensures Parsed(s) == Err(e) {
      FirstIsUnique(s, i, e);
    }
    if Parsed(s) == Err(e) {
      if Clean(s, |s|) {
        CleanEnd(s);
      } else {
        var i := OffenceExists(s, |s|);
        FirstOffence(s, i);
        OffendsIff(s, i);
        assert FirstIs(s, i, e);
      }
    }
  }

  /** A text without an offence fails exactly if it ends before a value, inside quotes or inside
      brackets; the lone opening quote of a value makes the parser panic. All others are parsed. */
  lemma EndIff(s: string)
    ensures Parsed(s).Ok? <==> Clean(s, |s|) && InValue(s) && Outside(s)
    ensures Parsed(s) == Err(KeyWithoutValue) <==> Clean(s, |s|) && !InValue(s)
    ensures Parsed(s).Fault? <==> Clean(s, |s|) && InValue(s) && Piece(s) == ['"']
    ensures Parsed(s) == Err(UnclosedQuote) <==> Clean(s, |s|) && InValue(s) && InQuotes(s) && Piece(s) != ['"']
    ensures Parsed(s) == Err(UnclosedBracket) <==> Clean(s, |s|) && InValue(s) && !InQuotes(s) && Depth(s) > 0
  {
    if Clean(s, |s|) {
      CleanEnd(s);
    } else {
      var i := OffenceExists(s, |s|);
      FirstOffence(s, i);
      OffendsIff(s, i);
    }
  }
}
