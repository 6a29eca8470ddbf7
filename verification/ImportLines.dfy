/** scan_file_import of engine/ddf/src/waf_ddf.py: the file names that the import lines
    of a .proto file mention. */
module ImportLines {
  import opened Basics

  /** White space as Python's regular expressions see it in text. */
  predicate IsSpace(c: char) {
    || c == ' ' || '\t' <= c <= '\r' || '\U{1c}' <= c <= '\U{1f}'
    || c == '\U{85}' || c == '\U{a0}' || c == '\U{1680}' || '\U{2000}' <= c <= '\U{200a}'
    || c == '\U{2028}' || c == '\U{2029}' || c == '\U{202f}' || c == '\U{205f}' || c == '\U{3000}'
  }

  predicate AllSpaces(s: string) { forall i :: 0 <= i < |s| ==> IsSpace(s[i]) }

  const KEYWORD := "import"

  /** The line starts with an import of `name`, as the regular expression says: spaces,
      the keyword, spaces, the name in quotes, spaces, a semicolon. */
  ghost predicate Matches(line: string, name: string) {
    exists w1, w2, w3, rest :: IsImport(line, w1, w2, name, w3, rest)
  }

  ghost predicate IsImport(line: string, w1: string, w2: string, name: string, w3: string, rest: string) {
    && AllSpaces(w1) && AllSpaces(w2) && AllSpaces(w3) && '"' !in name
    && line == w1 + (KEYWORD + (w2 + (['"'] + (name + (['"'] + (w3 + ([';'] + rest)))))))
  }

  // ---- a matcher that goes from left to right and never back

  function SkipSpaces(s: string): string {
    if s != "" && IsSpace(s[0]) then SkipSpaces(s[1..]) else s
  }

  function After(s: string, front: string): Option<string> {
    if front <= s then Some(s[|front|..]) else None
  }

  /** Where the next quote is, or the length. */
  function NextQuote(s: string): (i: nat)
    ensures i <= |s| && (i < |s| ==> s[i] == '"') && '"' !in s[..i]
  {
    if s == "" || s[0] == '"' then 0 else
      assert s[..1 + NextQuote(s[1..])] == [s[0]] + s[1..][..NextQuote(s[1..])];
      1 + NextQuote(s[1..])
  }

  /** From behind the opening quote on. */
  function Quoted(s: string): Option<string> {
    var q := NextQuote(s);
    if q == |s| then None
    else if After(SkipSpaces(s[q + 1..]), [';']).Some? then Some(s[..q])
    else None
  }

  function FromQuote(s: string): Option<string> {
    var open := After(SkipSpaces(s), ['"']);
    if open.None? then None else Quoted(open.value)
  }

  function ImportIn(line: string): Option<string> {
    var keyword := After(SkipSpaces(line), KEYWORD);
    if keyword.None? then None else FromQuote(keyword.value)
  }

  // ---- the matcher finds exactly the matches

  lemma {:induction false} SkipsAll(w: string, s: string)
    requires AllSpaces(w) && (s == "" || !IsSpace(s[0]))
    ensures SkipSpaces(w + s) == s
  {
    if w == "" {
      assert w + s == s;
    } else {
      assert (w + s)[1..] == w[1..] + s;
      SkipsAll(w[1..], s);
    }
  }

  lemma {:induction false} SkippedSpaces(s: string) returns (w: string)
    ensures AllSpaces(w) && s == w + SkipSpaces(s)
  {
    if s != "" && IsSpace(s[0]) {
      var v := SkippedSpaces(s[1..]);
      w := [s[0]] + v;
    } else {
      w := "";
    }
  }

  lemma {:induction false} AfterFront(front: string, s: string)
    ensures After(front + s, front) == Some(s)
  {
  }

  lemma {:induction false} BeforeAfter(s: string, front: string)
    requires After(s, front).Some?
    ensures s == front + After(s, front).value
  {
  }

  lemma {:induction false} NextQuoteIs(name: string, s: string)
    requires '"' !in name
    ensures NextQuote(name + (['"'] + s)) == |name|
  {
    if name == "" {
      assert name + (['"'] + s) == ['"'] + s;
    } else {
      assert (name + (['"'] + s))[1..] == name[1..] + (['"'] + s);
      NextQuoteIs(name[1..], s);
    }
  }

  lemma {:induction false} QuotedFinds(name: string, w3: string, rest: string)
    requires '"' !in name && AllSpaces(w3)
    ensures Quoted(name + (['"'] + (w3 + ([';'] + rest)))) == Some(name)
  {
    var tail := w3 + ([';'] + rest);
    var s := name + (['"'] + tail);
    NextQuoteIs(name, tail);
    assert s[..|name|] == name && s[|name| + 1..] == tail;
    SkipsAll(w3, [';'] + rest);
    AfterFront([';'], rest);
  }

  lemma {:induction false} FromQuoteFinds(w2: string, s: string)
    requires AllSpaces(w2)
    ensures FromQuote(w2 + (['"'] + s)) == Quoted(s)
  {
    SkipsAll(w2, ['"'] + s);
    AfterFront(['"'], s);
  }

  lemma {:induction false} ImportFinds(w1: string, s: string)
    requires AllSpaces(w1)
    ensures ImportIn(w1 + (KEYWORD + s)) == FromQuote(s)
  {
    assert (KEYWORD + s)[0] == 'i';
    SkipsAll(w1, KEYWORD + s);
    AfterFront(KEYWORD, s);
  }

  lemma {:induction false} MatchIsFound(line: string, w1: string, w2: string, name: string, w3: string, rest: string)
    requires IsImport(line, w1, w2, name, w3, rest)
    ensures ImportIn(line) == Some(name)
  {
    QuotedFinds(name, w3, rest);
    var quoted := name + (['"'] + (w3 + ([';'] + rest)));
    FromQuoteFinds(w2, quoted);
    ImportFinds(w1, w2 + (['"'] + quoted));
  }

  lemma {:induction false} QuotedShape(s: string) returns (w3: string, rest: string)
    requires Quoted(s).Some?
    ensures AllSpaces(w3) && '"' !in Quoted(s).value
    ensures s == Quoted(s).value + (['"'] + (w3 + ([';'] + rest)))
  {
    var q := NextQuote(s);
    w3 := SkippedSpaces(s[q + 1..]);
    rest := After(SkipSpaces(s[q + 1..]), [';']).value;
    BeforeAfter(SkipSpaces(s[q + 1..]), [';']);
    assert s == s[..q] + (['"'] + s[q + 1..]);
  }

  lemma {:induction false} FoundIsMatch(line: string) returns (w1: string, w2: string, w3: string, rest: string)
    requires ImportIn(line).Some?
    ensures IsImport(line, w1, w2, ImportIn(line).value, w3, rest)
  {
    w1 := SkippedSpaces(line);
    BeforeAfter(SkipSpaces(line), KEYWORD);
    var s := After(SkipSpaces(line), KEYWORD).value;
    w2 := SkippedSpaces(s);
    BeforeAfter(SkipSpaces(s), ['"']);
    w3, rest := QuotedShape(After(SkipSpaces(s), ['"']).value);
  }

  /** The matcher accepts exactly the lines the expression matches, and with the only
      name it can match. */
  lemma {:induction false} ImportInIff(line: string, name: string)
    ensures ImportIn(line) == Some(name) <==> Matches(line, name)
  {
    if ImportIn(line) == Some(name) {
      var w1, w2, w3, rest := FoundIsMatch(line);
    }
    if Matches(line, name) {
      var w1, w2, w3, rest :| IsImport(line, w1, w2, name, w3, rest);
      MatchIsFound(line, w1, w2, name, w3, rest);
    }
  }

  /** The names imported by some line, and no others. */
  method ScanFileImport(lines: seq<string>) returns (ret: set<string>)
    ensures forall name :: name in ret <==> exists i :: 0 <= i < |lines| && Matches(lines[i], name)
  {
    ret := {};
    for i := 0 to |lines|
      invariant forall name :: name in ret <==> exists j :: 0 <= j < i && Matches(lines[j], name)
    {
      var m := ImportIn(lines[i]);
      forall name
        ensures m == Some(name) <==> Matches(lines[i], name)
      {
        ImportInIff(lines[i], name);
      }
      if m.Some? {
        ret := ret + {m.value};
      }
    }
  }
}
