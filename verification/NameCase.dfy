/** The name converters of engine/ddf/src/ddfc.py: field_name <-> FieldName, on ASCII. */
module NameCase {
  import opened Basics
  import CxxNames

  predicate IsLower(c: char) { 'a' <= c <= 'z' }
  predicate IsUpper(c: char) { 'A' <= c <= 'Z' }
  predicate IsDigit(c: char) { '0' <= c <= '9' }

  function LowerChar(c: char): char { if IsUpper(c) then c + ' ' else c }  // 'a' - 'A' == 0x20 == ' '
  function UpperChar(c: char): char { if IsLower(c) then c - ' ' else c }

  function Lower(s: string): string {
    seq(|s|, i requires 0 <= i < |s| => LowerChar(s[i]))
  }

  /** str.capitalize */
  function Capitalize(w: string): string {
    if w == "" then "" else [UpperChar(w[0])] + Lower(w[1..])
  }

  /** str.split('_') */
  function Split(s: string): (words: seq<string>)
    ensures |words| >= 1
  {
    if s == "" then [""]
    else
      var rest := Split(s[1..]);
      if s[0] == '_' then [""] + rest else [[s[0]] + rest[0]] + rest[1..]
  }

  /** What to_camel_case makes of a list of lower-case words. */
  function CamelWords(words: seq<string>, initialCapital: bool): string {
    if words == [] then ""
    else (if initialCapital then Capitalize(words[0]) else words[0]) + CamelWords(words[1..], true)
  }

  function Camel(name: string, initialCapital: bool): string {
    CamelWords(Split(Lower(name)), initialCapital)
  }

  method ToCamelCase(name: string, initialCapital: bool) returns (r: string)
    ensures r == Camel(name, initialCapital)
  {
    var words := Split(Lower(name));
    ghost var given := words;
    for i := 0 to |words|
      invariant |words| == |given|
      invariant forall k :: i <= k < |words| ==> words[k] == given[k]
      invariant forall k :: 0 <= k < i ==>
                  words[k] == if initialCapital || k != 0 then Capitalize(given[k]) else given[k]
    {
      if initialCapital || i != 0 {
        words := words[i := Capitalize(words[i])];
      }
    }
    CamelIsFlatten(given, words, initialCapital);
    r := Flatten(words);
  }

  lemma {:induction false} CamelIsFlatten(given: seq<string>, words: seq<string>, initialCapital: bool)
    requires |words| == |given|
    requires forall k :: 0 <= k < |words| ==>
               words[k] == if initialCapital || k != 0 then Capitalize(given[k]) else given[k]
    ensures Flatten(words) == CamelWords(given, initialCapital)
  {
    if words != [] {
      CamelIsFlatten(given[1..], words[1..], true);
    }
  }

  /** Where to_lower_case puts an underscore before `s[0]`, given the character before it. */
  predicate Breaks(prev: Option<char>, s: string)
    requires s != ""
  {
    && prev.Some? && IsUpper(s[0])
    && (IsLower(prev.value) || IsDigit(prev.value) || (|s| >= 2 && IsLower(s[1])))
  }

  /** What it appends for `s[0]`. */
  function Piece(prev: Option<char>, s: string): string
    requires s != ""
  {
    if Breaks(prev, s) then ['_', LowerChar(s[0])] else [LowerChar(s[0])]
  }

  /** to_lower_case of a name whose part before `s` ends in `prev`. */
  function ScriptFrom(prev: Option<char>, s: string): string
    decreases s
  {
    if s == "" then "" else Piece(prev, s) + ScriptFrom(Some(s[0]), s[1..])
  }

  function Script(name: string): string { ScriptFrom(None, name) }

  ghost function Before(name: string, i: nat): Option<char>
    requires i <= |name|
  {
    if i == 0 then None else Some(name[i - 1])
  }

  method ToLowerCase(name: string) returns (r: string)
    ensures r == Script(name)
  {
    r := "";
    for i := 0 to |name|
      invariant Script(name) == r + ScriptFrom(Before(name, i), name[i..])
    {
      ghost var before := r;
      if i > 0 && (IsLower(name[i - 1]) || IsDigit(name[i - 1]) || (i + 1 < |name| && IsLower(name[i + 1])))
         && IsUpper(name[i])
      {
        r := r + "_";
      }
      r := r + [LowerChar(name[i])];
      ScriptAdvances(name, i, before, r);
    }
  }

  lemma {:induction false} ScriptAdvances(name: string, i: nat, before: string, r: string)
    requires i < |name| && r == before + Piece(Before(name, i), name[i..])
    ensures before + ScriptFrom(Before(name, i), name[i..]) == r + ScriptFrom(Before(name, i + 1), name[i + 1..])
  {
    assert name[i..][1..] == name[i + 1..];
  }

  // ---- the round trip

  /** Lower-case letters and digits. */
  ghost predicate IsWord(w: string) {
    forall i :: 0 <= i < |w| ==> IsLower(w[i]) || IsDigit(w[i])
  }

  /** Lower-case letters, digits and underscores. */
  ghost predicate IsPlain(name: string) {
    forall i :: 0 <= i < |name| ==> IsLower(name[i]) || IsDigit(name[i]) || name[i] == '_'
  }

  function JoinTail(words: seq<string>): string {
    if words == [] then "" else "_" + words[0] + JoinTail(words[1..])
  }

  lemma {:induction false} JoinByTail(words: seq<string>)
    requires words != []
    ensures CxxNames.Join(words, "_") == words[0] + JoinTail(words[1..])
  {
    if |words| > 1 {
      JoinByTail(words[1..]);
      Assoc(words[0], "_", words[1] + JoinTail(words[1..][1..]));
    } else {
      assert words[0] + "" == words[0];
    }
  }

  lemma {:induction false} SplitJoins(s: string)
    ensures CxxNames.Join(Split(s), "_") == s
  {
    SplitTails(s);
    JoinByTail(Split(s));
  }

  lemma {:induction false} SplitTails(s: string)
    ensures Split(s)[0] + JoinTail(Split(s)[1..]) == s
  {
    if s != "" {
      SplitTails(s[1..]);
      var rest := Split(s[1..]);
      assert s == [s[0]] + s[1..];
      if s[0] == '_' {
        assert ([""] + rest)[1..] == rest;
        Assoc("_", rest[0], JoinTail(rest[1..]));
      } else {
        assert ([[s[0]] + rest[0]] + rest[1..])[1..] == rest[1..];
        Assoc([s[0]], rest[0], JoinTail(rest[1..]));
      }
    }
  }

  lemma {:induction false} SplitWhole(w: string)
    requires '_' !in w
    ensures Split(w) == [w]
  {
    if w != "" {
      SplitWhole(w[1..]);
      assert [w[0]] + w[1..] == w;
    }
  }

  lemma {:induction false} SplitFirst(w: string, rest: string)
    requires '_' !in w
    ensures Split(w + ("_" + rest)) == [w] + Split(rest)
  {
    if w == "" {
      assert w + ("_" + rest) == "_" + rest;
      assert ("_" + rest)[1..] == rest;
    } else {
      assert (w + ("_" + rest))[1..] == w[1..] + ("_" + rest);
      SplitFirst(w[1..], rest);
      assert [w[0]] + w[1..] == w;
      assert ([w[1..]] + Split(rest))[1..] == Split(rest);
    }
  }

  lemma {:induction false} SplitGivesWords(s: string)
    requires IsPlain(s)
    ensures forall i :: 0 <= i < |Split(s)| ==> IsWord(Split(s)[i])
  {
    if s != "" {
      SplitGivesWords(s[1..]);
      assert IsWord(Split(s[1..])[0]);
    }
  }

  lemma {:induction false} PlainIsLower(s: string)
    requires IsPlain(s)
    ensures Lower(s) == s
  {
  }

  /** The character a capitalized word ends in. */
  function LastOf(w: string): char
    requires w != ""
  {
    if |w| == 1 then UpperChar(w[0]) else w[|w| - 1]
  }

  /** The underscore between two words survives the round trip: both are there, the
      second starts with a letter, and either the first does not shrink to a lone
      capital or the second goes on with a letter. */
  ghost predicate Separable(v: string, w: string) {
    && v != "" && w != "" && IsLower(w[0])
    && (|v| >= 2 || IsDigit(v[0]) || (|w| >= 2 && IsLower(w[1])))
  }

  ghost predicate SeparableAfter(v: string, words: seq<string>)
    decreases words
  {
    words == [] || (Separable(v, words[0]) && SeparableAfter(words[0], words[1..]))
  }

  /** Every pair of neighbouring words is separable. */
  ghost predicate AllSeparable(words: seq<string>) {
    words == [] || SeparableAfter(words[0], words[1..])
  }

  lemma {:induction false} ScriptStep(prev: Option<char>, c: char, rest: string)
    ensures ScriptFrom(prev, [c] + rest) == Piece(prev, [c] + rest) + ScriptFrom(Some(c), rest)
  {
    assert ([c] + rest)[1..] == rest;
  }

  lemma {:induction false} Assoc(a: string, b: string, c: string)
    ensures a + (b + c) == (a + b) + c
  {
  }

  function EndsIn(p: char, tail: string): char {
    if tail == "" then p else tail[|tail| - 1]
  }

  /** to_lower_case copies the rest of a capitalized word. */
  lemma {:induction false} ScriptCopiesWord(p: char, tail: string, rest: string)
    requires IsWord(tail)
    ensures ScriptFrom(Some(p), tail + rest) == tail + ScriptFrom(Some(EndsIn(p, tail)), rest)
    decreases tail
  {
    if tail == "" {
      assert tail + rest == rest;
    } else {
      var c, t := tail[0], tail[1..];
      assert tail == [c] + t;
      calc {
        ScriptFrom(Some(p), tail + rest);
        { assert tail + rest == [c] + (t + rest); ScriptStep(Some(p), c, t + rest); }
        [c] + ScriptFrom(Some(c), t + rest);
        { ScriptCopiesWord(c, t, rest); }
        [c] + (t + ScriptFrom(Some(EndsIn(c, t)), rest));
        { assert EndsIn(c, t) == EndsIn(p, tail); Assoc([c], t, ScriptFrom(Some(EndsIn(c, t)), rest)); }
        tail + ScriptFrom(Some(EndsIn(p, tail)), rest);
      }
    }
  }

  /** Whether a word keeps its underscore behind a name that ends in `prev`. */
  predicate Kept(prev: Option<char>, w: string)
    requires w != ""
  {
    && prev.Some? && IsLower(w[0])
    && (IsLower(prev.value) || IsDigit(prev.value) || (|w| >= 2 && IsLower(w[1])))
  }

  /** What the round trip makes of a list of words. */
  function Trip(prev: Option<char>, words: seq<string>): string
    decreases words
  {
    if words == [] then ""
    else if words[0] == "" then Trip(prev, words[1..])
    else (if Kept(prev, words[0]) then "_" + words[0] else words[0]) + Trip(Some(LastOf(words[0])), words[1..])
  }

  lemma {:induction false} CapitalizedBreaks(prev: Option<char>, w: string, rest: string)
    requires w != "" && IsWord(w) && (rest != "" ==> !IsLower(rest[0]))
    ensures Capitalize(w) == [UpperChar(w[0])] + w[1..]
    ensures Piece(prev, [UpperChar(w[0])] + (w[1..] + rest)) == if Kept(prev, w) then ['_', w[0]] else [w[0]]
  {
    assert Lower(w[1..]) == w[1..];
    var s := [UpperChar(w[0])] + (w[1..] + rest);
    assert |s| >= 2 ==> s[1] == (w[1..] + rest)[0];
  }

  lemma {:induction false} ScriptOfCapitalized(prev: Option<char>, w: string, rest: string)
    requires w != "" && IsWord(w) && (rest != "" ==> !IsLower(rest[0]))
    ensures ScriptFrom(prev, Capitalize(w) + rest)
         == (if Kept(prev, w) then "_" + w else w) + ScriptFrom(Some(LastOf(w)), rest)
  {
    var c, tail, end := UpperChar(w[0]), w[1..], ScriptFrom(Some(LastOf(w)), rest);
    var piece := if Kept(prev, w) then ['_', w[0]] else [w[0]];
    calc {
      ScriptFrom(prev, Capitalize(w) + rest);
      { CapitalizedBreaks(prev, w, rest); Assoc([c], tail, rest); }
      ScriptFrom(prev, [c] + (tail + rest));
      { CapitalizedBreaks(prev, w, rest); ScriptStep(prev, c, tail + rest); }
      piece + ScriptFrom(Some(c), tail + rest);
      { ScriptCopiesWord(c, tail, rest); assert EndsIn(c, tail) == LastOf(w); }
      piece + (tail + end);
      { Assoc(piece, tail, end); }
      (piece + tail) + end;
      { assert piece + tail == if Kept(prev, w) then "_" + w else w; }
      (if Kept(prev, w) then "_" + w else w) + end;
    }
  }

  lemma {:induction false} CamelStarts(words: seq<string>)
    requires forall i :: 0 <= i < |words| ==> IsWord(words[i])
    ensures CamelWords(words, true) != "" ==> !IsLower(CamelWords(words, true)[0])
  {
    if words != [] {
      CamelStarts(words[1..]);
    }
  }

  lemma {:induction false} ScriptOfCamelIsTrip(prev: Option<char>, words: seq<string>)
    requires forall i :: 0 <= i < |words| ==> IsWord(words[i])
    ensures ScriptFrom(prev, CamelWords(words, true)) == Trip(prev, words)
    decreases words
  {
    if words != [] {
      var w, rest := words[0], CamelWords(words[1..], true);
      if w == "" {
        assert Capitalize(w) + rest == rest;
        ScriptOfCamelIsTrip(prev, words[1..]);
      } else {
        CamelStarts(words[1..]);
        ScriptOfCapitalized(prev, w, rest);
        ScriptOfCamelIsTrip(Some(LastOf(w)), words[1..]);
      }
    }
  }

  lemma {:induction false} TripNotLonger(prev: Option<char>, words: seq<string>)
    ensures |Trip(prev, words)| <= |JoinTail(words)|
    ensures prev.None? && words != [] ==> |Trip(prev, words)| < |JoinTail(words)|
    decreases words
  {
    if words != [] {
      if words[0] == "" {
        TripNotLonger(prev, words[1..]);
      } else {
        TripNotLonger(Some(LastOf(words[0])), words[1..]);
      }
    }
  }

  lemma {:induction false} TripAfterWord(v: string, words: seq<string>)
    requires v != "" && IsWord(v) && forall i :: 0 <= i < |words| ==> IsWord(words[i])
    ensures Trip(Some(LastOf(v)), words) == JoinTail(words) <==> SeparableAfter(v, words)
    decreases words
  {
    if words != [] {
      var w, rest := words[0], words[1..];
      if w == "" {
        TripNotLonger(Some(LastOf(v)), rest);
      } else {
        assert Kept(Some(LastOf(v)), w) <==> Separable(v, w);
        TripAfterWord(w, rest);
        TripNotLonger(Some(LastOf(w)), rest);
        PrefixCancels("_" + w, Trip(Some(LastOf(w)), rest), JoinTail(rest));
      }
    }
  }

  lemma {:induction false} PrefixCancels(a: string, b: string, c: string)
    ensures a + b == a + c <==> b == c
  {
    if a + b == a + c {
      assert b == (a + b)[|a|..] == (a + c)[|a|..] == c;
    }
  }

  /** For every name of letters, digits and underscores: to_lower_case undoes
      to_camel_case (up to the case the name came in) exactly when every pair of
      neighbouring words is separable. */
  lemma {:induction false} RoundTripIff(name: string)
    requires IsPlain(Lower(name))
    ensures Script(Camel(name, true)) == Lower(name) <==> AllSeparable(Split(Lower(name)))
  {
    var s := Lower(name);
    var words := Split(s);
    SplitTails(s);
    SplitGivesWords(s);
    ScriptOfCamelIsTrip(None, words);
    var w, rest := words[0], words[1..];
    if w == "" {
      TripNotLonger(None, rest);
      assert rest != [] ==> !Separable(words[0], words[1]);
    } else {
      assert words == [w] + rest;
      TripAfterWord(w, rest);
      PrefixCancels(w, Trip(Some(LastOf(w)), rest), JoinTail(rest));
    }
  }

  /** Words of at least two characters that start with a letter, joined by underscores. */
  ghost predicate OrdinaryName(name: string) {
    && IsPlain(name)
    && forall i :: 0 <= i < |Split(name)| ==> |Split(name)[i]| >= 2 && IsLower(Split(name)[i][0])
  }

  lemma {:induction false} OrdinaryRoundTrip(name: string)
    requires OrdinaryName(name)
    ensures Script(Camel(name, true)) == name
  {
    PlainIsLower(name);
    RoundTripIff(name);
    LongWordsSeparable(Split(name)[0], Split(name)[1..]);
  }

  lemma {:induction false} LongWordsSeparable(v: string, words: seq<string>)
    requires |v| >= 2 && forall i :: 0 <= i < |words| ==> |words[i]| >= 2 && IsLower(words[i][0])
    ensures SeparableAfter(v, words)
    decreases words
  {
    if words != [] {
      LongWordsSeparable(words[0], words[1..]);
    }
  }

  /** to_camel_case never maps two separable names to the same member name. */
  lemma {:induction false} CamelInjective(a: string, b: string)
    requires IsPlain(a) && IsPlain(b) && AllSeparable(Split(a)) && AllSeparable(Split(b))
    requires Camel(a, true) == Camel(b, true)
    ensures a == b
  {
    PlainIsLower(a);
    PlainIsLower(b);
    RoundTripIff(a);
    RoundTripIff(b);
  }

  // ---- the docstring of to_lower_case

  /** The rule that the docstring's example follows: a capital behind a digit is no reason
      to break. */
  predicate DocBreaks(prev: Option<char>, s: string)
    requires s != ""
  {
    prev.Some? && IsUpper(s[0]) && (IsLower(prev.value) || (|s| >= 2 && IsLower(s[1])))
  }

  function DocPiece(prev: Option<char>, s: string): string
    requires s != ""
  {
    if DocBreaks(prev, s) then ['_', LowerChar(s[0])] else [LowerChar(s[0])]
  }

  function DocFrom(prev: Option<char>, s: string): string
    decreases s
  {
    if s == "" then "" else DocPiece(prev, s) + DocFrom(Some(s[0]), s[1..])
  }

  function DocScript(name: string): string { DocFrom(None, name) }

  /** A capital directly behind a digit, and no lower-case letter behind it. */
  predicate DigitThenCapital(name: string, i: int)
    requires 0 < i < |name|
  {
    IsDigit(name[i - 1]) && IsUpper(name[i]) && !(i + 1 < |name| && IsLower(name[i + 1]))
  }

  ghost predicate NoDigitThenCapital(prev: Option<char>, s: string)
    decreases s
  {
    s != "" ==> (Breaks(prev, s) ==> DocBreaks(prev, s)) && NoDigitThenCapital(Some(s[0]), s[1..])
  }

  /** The code breaks wherever the docstring does, so its result is never shorter, and as
      short only if it breaks nowhere else. */
  lemma {:induction false} DocFromIff(prev: Option<char>, s: string)
    ensures |DocFrom(prev, s)| <= |ScriptFrom(prev, s)|
    ensures ScriptFrom(prev, s) == DocFrom(prev, s) <==> NoDigitThenCapital(prev, s)
    decreases s
  {
    if s != "" {
      var more, docMore := ScriptFrom(Some(s[0]), s[1..]), DocFrom(Some(s[0]), s[1..]);
      DocFromIff(Some(s[0]), s[1..]);
      if Breaks(prev, s) == DocBreaks(prev, s) {
        PrefixCancels(Piece(prev, s), more, docMore);
      } else {
        assert |Piece(prev, s) + more| > |DocPiece(prev, s) + docMore|;
      }
    }
  }

  lemma {:induction false} NoDigitThenCapitalAt(name: string, k: nat)
    requires k <= |name|
    ensures NoDigitThenCapital(Before(name, k), name[k..]) <==> forall i :: k <= i < |name| && 0 < i ==> !DigitThenCapital(name, i)
    decreases |name| - k
  {
    if k < |name| {
      NoDigitThenCapitalAt(name, k + 1);
      assert name[k..][1..] == name[k + 1..];
      ExtraBreak(name, k);
      if 0 < k && DigitThenCapital(name, k) {
        assert !NoDigitThenCapital(Before(name, k), name[k..]);
      }
    }
  }

  lemma {:induction false} ExtraBreak(name: string, k: nat)
    requires k < |name|
    ensures Breaks(Before(name, k), name[k..]) && !DocBreaks(Before(name, k), name[k..]) <==> 0 < k && DigitThenCapital(name, k)
  {
    assert name[k..][0] == name[k] && (k + 1 < |name| ==> name[k..][1] == name[k + 1]);
  }

  /** to_lower_case does what its docstring shows exactly for the names in which every
      capital directly behind a digit has a lower-case letter behind it. */
  lemma {:induction false} DocstringIff(name: string)
    ensures Script(name) == DocScript(name) <==> forall i :: 0 < i < |name| ==> !DigitThenCapital(name, i)
  {
    assert name[0..] == name;
    DocFromIff(None, name);
    NoDigitThenCapitalAt(name, 0);
  }

  /** Both results from position i on. */
  ghost predicate Suffixes(name: string, i: nat, code: string, doc: string) {
    i <= |name| && ScriptFrom(Before(name, i), name[i..]) == code && DocFrom(Before(name, i), name[i..]) == doc
  }

  lemma {:induction false} PutFront(name: string, i: nat, code: string, doc: string)
    requires i < |name| && Suffixes(name, i + 1, code, doc)
    ensures Suffixes(name, i, Piece(Before(name, i), name[i..]) + code, DocPiece(Before(name, i), name[i..]) + doc)
  {
    assert name[i..][1..] == name[i + 1..];
  }

  /** A character before which neither rule breaks. */
  lemma {:induction false} PutPlain(name: string, i: nat, code: string, doc: string)
    requires i < |name| && Suffixes(name, i + 1, code, doc)
    requires IsUpper(name[i]) && i > 0 ==> IsUpper(name[i - 1]) && !(i + 1 < |name| && IsLower(name[i + 1]))
    ensures Suffixes(name, i, [LowerChar(name[i])] + code, [LowerChar(name[i])] + doc)
  {
    PutFront(name, i, code, doc);
    assert name[i..][0] == name[i] && (i + 1 < |name| ==> name[i..][1] == name[i + 1]);
  }

  /** A name shaped like the docstring's example: capitalized word, acronym, two digits,
      acronym, capitalized word. */
  ghost predicate LikeExample(name: string) {
    && |name| == 14
    && IsUpper(name[0]) && IsLower(name[1]) && IsLower(name[2])
    && IsUpper(name[3]) && IsUpper(name[4]) && IsUpper(name[5]) && IsDigit(name[6]) && IsDigit(name[7])
    && IsUpper(name[8]) && IsUpper(name[9]) && IsUpper(name[10])
    && IsUpper(name[11]) && IsLower(name[12]) && IsLower(name[13])
  }

  /** A capital before which both rules break, or, behind a digit, only the code. */
  lemma {:induction false} PutBreak(name: string, i: nat, code: string, doc: string)
    requires 0 < i < |name| && Suffixes(name, i + 1, code, doc) && IsUpper(name[i])
    requires IsLower(name[i - 1]) || IsDigit(name[i - 1]) || (i + 1 < |name| && IsLower(name[i + 1]))
    ensures Suffixes(name, i, ['_', LowerChar(name[i])] + code,
                     (if DigitThenCapital(name, i) then [LowerChar(name[i])] else ['_', LowerChar(name[i])]) + doc)
  {
    PutFront(name, i, code, doc);
    assert name[i..][0] == name[i] && (i + 1 < |name| ==> name[i..][1] == name[i + 1]);
  }

  lemma {:induction false} LikeExampleWord(name: string, a: char, b: char, c: char)
    requires LikeExample(name) && a == LowerChar(name[11]) && b == name[12] && c == name[13]
    ensures Suffixes(name, 11, ['_', a, b, c], ['_', a, b, c])
  {
    PutPlain(name, 13, [], []);
    PutPlain(name, 12, [c], [c]);
    PutBreak(name, 11, [b, c], [b, c]);
  }

  lemma {:induction false} LikeExampleTail(name: string, a: char, b: char, c: char, word: string)
    requires LikeExample(name) && a == LowerChar(name[8]) && b == LowerChar(name[9]) && c == LowerChar(name[10])
    requires Suffixes(name, 11, word, word)
    ensures Suffixes(name, 8, ['_', a, b, c] + word, [a, b, c] + word)
  {
    PutPlain(name, 10, word, word);
    PutPlain(name, 9, [c] + word, [c] + word);
    PutBreak(name, 8, [b] + ([c] + word), [b] + ([c] + word));
    ThreeInFront(a, b, c, word);
    assert ['_', a] + ([b] + ([c] + word)) == ['_'] + ([a] + ([b] + ([c] + word)));
  }

  lemma {:induction false} LikeExampleMiddle(name: string, a: char, b: char, c: char, code: string, doc: string)
    requires LikeExample(name) && Suffixes(name, 8, code, doc)
    requires a == LowerChar(name[3]) && b == LowerChar(name[4]) && c == LowerChar(name[5])
    ensures Suffixes(name, 3, ['_', a, b, c, name[6], name[7]] + code, ['_', a, b, c, name[6], name[7]] + doc)
  {
    PutPlain(name, 7, code, doc);
    PutPlain(name, 6, [name[7]] + code, [name[7]] + doc);
    PutPlain(name, 5, [name[6]] + ([name[7]] + code), [name[6]] + ([name[7]] + doc));
    PutPlain(name, 4, [c] + ([name[6]] + ([name[7]] + code)), [c] + ([name[6]] + ([name[7]] + doc)));
    PutBreak(name, 3, [b] + ([c] + ([name[6]] + ([name[7]] + code))), [b] + ([c] + ([name[6]] + ([name[7]] + doc))));
    FiveInFront(a, b, c, name[6], name[7], code);
    FiveInFront(a, b, c, name[6], name[7], doc);
  }

  lemma {:induction false} FiveInFront(a: char, b: char, c: char, d: char, e: char, rest: string)
    ensures ['_', a] + ([b] + ([c] + ([d] + ([e] + rest)))) == ['_', a, b, c, d, e] + rest
  {
  }

  lemma {:induction false} LikeExampleHead(name: string, code: string, doc: string)
    requires LikeExample(name) && Suffixes(name, 3, code, doc)
    ensures Script(name) == [LowerChar(name[0]), name[1], name[2]] + code && DocScript(name) == [LowerChar(name[0]), name[1], name[2]] + doc
  {
    PutPlain(name, 2, code, doc);
    PutPlain(name, 1, [name[2]] + code, [name[2]] + doc);
    PutPlain(name, 0, [name[1]] + ([name[2]] + code), [name[1]] + ([name[2]] + doc));
    assert name[0..] == name;
    ThreeInFront(LowerChar(name[0]), name[1], name[2], code);
    ThreeInFront(LowerChar(name[0]), name[1], name[2], doc);
  }

  lemma {:induction false} ThreeInFront(a: char, b: char, c: char, rest: string)
    ensures [a] + ([b] + ([c] + rest)) == [a, b, c] + rest
  {
  }

  lemma {:induction false} ExampleIsLikeIt(name: string)
    requires name == "AbcABC01ABCAbc"
    ensures LikeExample(name) && name[0] == name[3] == name[8] == name[11] == 'A' && name[1] == name[12] == 'b' && name[2] == name[13] == 'c'
    ensures name[4] == name[9] == 'B' && name[5] == name[10] == 'C' && name[6] == '0' && name[7] == '1'
  {
  }

  /** The docstring's own example: shown is abc_abc01abc_abc, computed is
      abc_abc01_abc_abc. */
  lemma {:induction false} DocstringExample(name: string)
    requires name == "AbcABC01ABCAbc"
    ensures DocScript(name) == "abc_abc01abc_abc" && Script(name) == "abc_abc01_abc_abc"
  {
    ExampleIsLikeIt(name);
    var word, middle := ['_', 'a', 'b', 'c'], ['_', 'a', 'b', 'c', '0', '1'];
    var code, doc := word + word, ['a', 'b', 'c'] + word;
    LikeExampleWord(name, 'a', 'b', 'c');
    LikeExampleTail(name, 'a', 'b', 'c', word);
    LikeExampleMiddle(name, 'a', 'b', 'c', code, doc);
    LikeExampleHead(name, middle + code, middle + doc);
  }
}
