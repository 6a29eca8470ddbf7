/** File names of the download cache in build_tools/http_cache.py: how a URL path and an
    ETag are put into a name, and how `get` takes them apart again. */
module CacheNames {
  import opened Basics

  type Bytes = seq<byte>

  /** mangle, given the path component of the URL. */
  function Mangle(path: string): string {
    "defold" + Dashed(path)
  }

  function Dashed(path: string): string {
    seq(|path|, i requires 0 <= i < |path| => if path[i] == '/' then '-' else path[i])
  }

  lemma {:induction false} DashedConcat(a: string, b: string)
    ensures Dashed(a + b) == Dashed(a) + Dashed(b)
  {
  }

  /** The parts, each behind the separator. */
  function Behind(separator: char, parts: seq<string>): string {
    if parts == [] then "" else [separator] + parts[0] + Behind(separator, parts[1..])
  }

  lemma {:induction false} DashedParts(parts: seq<string>)
    requires forall i :: 0 <= i < |parts| ==> '/' !in parts[i]
    ensures Dashed(Behind('/', parts)) == Behind('-', parts)
  {
    if parts != [] {
      DashedParts(parts[1..]);
      DashedConcat(['/'] + parts[0], Behind('/', parts[1..]));
      DashedConcat(['/'], parts[0]);
      assert Dashed(['/']) == ['-'] && Dashed(parts[0]) == parts[0];
    }
  }

  /** The path /a/b/c becomes the one file name defold-a-b-c. */
  lemma {:induction false} MangleParts(parts: seq<string>)
    requires forall i :: 0 <= i < |parts| ==> '/' !in parts[i]
    ensures Mangle(Behind('/', parts)) == "defold" + Behind('-', parts)
  {
    DashedParts(parts);
  }

  /** Two paths share a stem exactly if they differ in nothing but slashes against dashes. */
  lemma {:induction false} MangleSameIff(p: string, q: string)
    ensures Mangle(p) == Mangle(q)
       <==> |p| == |q| && forall i :: 0 <= i < |p| ==> p[i] == q[i] || (p[i] in {'/', '-'} && q[i] in {'/', '-'})
  {
    assert Mangle(p)[6..] == Dashed(p) && Mangle(q)[6..] == Dashed(q);
    if Dashed(p) == Dashed(q) {
      assert |Dashed(p)| == |p| && |Dashed(q)| == |q|;
      forall i | 0 <= i < |p|
        ensures p[i] == q[i] || (p[i] in {'/', '-'} && q[i] in {'/', '-'})
      {
        assert Dashed(p)[i] == Dashed(q)[i];
      }
    }
  }

  const DIGITS: seq<char> := ['0', '1', '2', '3', '4', '5', '6', '7', '8', '9', 'a', 'b', 'c', 'd', 'e', 'f']

  /** codecs.encode(key, 'hex') */
  function Hex(key: Bytes): string {
    if key == [] then "" else [DIGITS[key[0] / 16], DIGITS[key[0] % 16]] + Hex(key[1..])
  }

  function Digit(c: char): Option<byte> {
    if '0' <= c <= '9' then Some((c as int - '0' as int) as byte)
    else if 'a' <= c <= 'f' then Some((c as int - 'a' as int + 10) as byte)
    else None
  }

  /** codecs.decode(text, 'hex'); None where Python raises. */
  function UnHex(text: string): Option<Bytes> {
    if text == "" then Some([])
    else if |text| == 1 then None
    else
      var hi, lo, rest := Digit(text[0]), Digit(text[1]), UnHex(text[2..]);
      if hi.None? || lo.None? || rest.None? then None
      else Some([(hi.value as int * 16 + lo.value as int) as byte] + rest.value)
  }

  lemma {:induction false} HexRoundTrip(key: Bytes)
    ensures UnHex(Hex(key)) == Some(key)
  {
    if key != [] {
      HexRoundTrip(key[1..]);
      assert Hex(key)[2..] == Hex(key[1..]);
      DigitOf(key[0] / 16);
      DigitOf(key[0] % 16);
      assert (key[0] / 16) as int * 16 + (key[0] % 16) as int == key[0] as int;
      assert [key[0]] + key[1..] == key;
    }
  }

  lemma {:induction false} DigitOf(b: byte)
    requires b < 16
    ensures Digit(DIGITS[b]) == Some(b)
  {
  }

  lemma {:induction false} HexIsPlain(key: Bytes)
    ensures forall c :: c in Hex(key) ==> c in DIGITS
  {
    if key != [] {
      HexIsPlain(key[1..]);
    }
  }

  /** The name of a finished download, and of one being written. */
  function FinalName(stem: string, key: Bytes): string { stem + "-" + Hex(key) }
  function TmpName(stem: string, key: Bytes): string { FinalName(stem, key) + "_tmp" }

  /** glob(stem + '-*') */
  predicate Matches(stem: string, name: string) {
    stem + "-" <= name
  }

  /** name.endswith('_tmp') */
  predicate IsTmp(name: string) {
    |name| >= 4 && name[|name| - 4..] == "_tmp"
  }

  /** Position of the last dash, -1 if there is none. */
  function LastDash(name: string): (i: int)
    ensures -1 <= i < |name|
    ensures i >= 0 ==> name[i] == '-'
    ensures forall j :: i < j < |name| ==> name[j] != '-'
  {
    if name == "" then -1
    else if name[|name| - 1] == '-' then |name| - 1
    else LastDash(name[..|name| - 1])
  }

  /** name.rsplit('-', 1): what is before and after the last dash. */
  function Stem(name: string): string {
    if LastDash(name) < 0 then name else name[..LastDash(name)]
  }
  function KeyText(name: string): string {
    if LastDash(name) < 0 then "" else name[LastDash(name) + 1..]
  }

  lemma {:induction false} LastDashAt(n: string, i: nat)
    requires i < |n| && n[i] == '-' && forall j :: i < j < |n| ==> n[j] != '-'
    ensures LastDash(n) == i && Stem(n) == n[..i] && KeyText(n) == n[i + 1..]
  {
  }

  lemma {:induction false} NameParts(n: string, stem: string, tail: string)
    requires '-' !in tail && n == stem + "-" + tail
    ensures LastDash(n) == |stem| && Stem(n) == stem && KeyText(n) == tail
  {
    assert n[..|stem|] == stem && n[|stem|] == '-' && n[|stem| + 1..] == tail;
    forall j | |stem| < j < |n|
      ensures n[j] != '-'
    {
      assert n[j] == tail[j - |stem| - 1];
    }
    LastDashAt(n, |stem|);
  }

  lemma {:induction false} HexHasNoDash(key: Bytes)
    ensures '-' !in Hex(key) && '-' !in Hex(key) + "_tmp" && 'p' !in Hex(key)
  {
    HexIsPlain(key);
    assert '-' !in DIGITS && 'p' !in DIGITS;
  }

  /** Taking a finished name apart gives back what was put in. */
  lemma {:induction false} FinalNameParts(stem: string, key: Bytes)
    ensures Stem(FinalName(stem, key)) == stem && KeyText(FinalName(stem, key)) == Hex(key)
    ensures UnHex(KeyText(FinalName(stem, key))) == Some(key)
    ensures !IsTmp(FinalName(stem, key))
  {
    HexHasNoDash(key);
    HexRoundTrip(key);
    NameParts(FinalName(stem, key), stem, Hex(key));
    FinalNotTmp(stem, Hex(key));
  }

  lemma {:induction false} FinalNotTmp(stem: string, text: string)
    requires 'p' !in text
    ensures !IsTmp(stem + "-" + text)
  {
    var n := stem + "-" + text;
    assert n[|n| - 1] == (if text == "" then '-' else text[|text| - 1]) != 'p';
    assert |n| >= 4 ==> n[|n| - 4..][3] == n[|n| - 1];
  }

  lemma {:induction false} TmpNameParts(stem: string, key: Bytes)
    ensures Stem(TmpName(stem, key)) == stem && IsTmp(TmpName(stem, key))
  {
    var n, tail := TmpName(stem, key), Hex(key) + "_tmp";
    HexHasNoDash(key);
    assert n == stem + "-" + tail;
    NameParts(n, stem, tail);
    assert n[|n| - 4..] == "_tmp";
  }

  predicate IsName(n: string, stem: string, key: Bytes) {
    n == FinalName(stem, key) || n == TmpName(stem, key)
  }

  ghost predicate WellNamed(n: string) {
    exists stem, key :: IsName(n, stem, key)
  }

  /** A well-formed name is its stem, a dash and a text without dashes. */
  lemma {:induction false} WellNamedShape(n: string)
    requires WellNamed(n)
    ensures n == Stem(n) + "-" + KeyText(n) && LastDash(n) == |Stem(n)|
  {
    var stem, key :| IsName(n, stem, key);
    HexHasNoDash(key);
    if n == FinalName(stem, key) {
      NameParts(n, stem, Hex(key));
    } else {
      assert n == stem + "-" + (Hex(key) + "_tmp");
      NameParts(n, stem, Hex(key) + "_tmp");
    }
  }

  lemma {:induction false} WellNamedFinal(n: string) returns (key: Bytes)
    requires WellNamed(n) && !IsTmp(n)
    ensures n == FinalName(Stem(n), key) && UnHex(KeyText(n)) == Some(key)
  {
    var stem;
    stem, key :| IsName(n, stem, key);
    TmpNameParts(stem, key);
    FinalNameParts(stem, key);
  }

  /** Exactly which files `get` takes for its own: those of every stem that continues
      its own stem at a dash. */
  lemma {:induction false} MatchesIff(stem: string, n: string)
    requires WellNamed(n)
    ensures Matches(stem, n) <==> stem + "-" <= Stem(n) + "-"
  {
    WellNamedShape(n);
    var a, b := stem + "-", Stem(n) + "-";
    assert n == b + KeyText(n);
    if a <= n {
      assert n[|stem|] == a[|stem|] == '-';
      assert |stem| <= LastDash(n);
      assert a == n[..|a|] == b[..|a|];
    }
    if a <= b {
      assert a == b[..|a|] == n[..|a|];
    }
  }

  /** No stem continues another at a dash. */
  ghost predicate PrefixFree(stems: set<string>) {
    forall a, b :: a in stems && b in stems && a + "-" <= b + "-" ==> a == b
  }

  /** With prefix-free stems `get` sees its own files and no others. */
  lemma {:induction false} MatchesOwnFilesOnly(stems: set<string>, stem: string, n: string)
    requires PrefixFree(stems) && stem in stems && WellNamed(n) && Stem(n) in stems
    ensures Matches(stem, n) <==> Stem(n) == stem
  {
    MatchesIff(stem, n);
  }

  /** The premise is needed: a URL below another URL has files the other one matches. */
  lemma {:induction false} NestedPathsCollide(key: Bytes)
    ensures Matches(Mangle("/a"), FinalName(Mangle("/a/b"), key))
  {
    assert Mangle("/a") == "defold-a" && Mangle("/a/b") == "defold-a-b";
    var n := FinalName(Mangle("/a/b"), key);
    assert n[..9] == "defold-a-";
  }

  /** Mangling also forgets which dashes were slashes. */
  lemma {:induction false} SlashesAndDashesCollide()
    ensures Mangle("/a/b") == Mangle("/a-b")
  {
    assert Dashed("/a/b") == "-a-b" == Dashed("/a-b");
  }
}
