/** The variables that to_cxx_descriptor of engine/ddf/src/ddfc.py defines, one for each
    message: package, enclosing messages and the message itself, joined by underscores. */
module DdfSymbols {
  import opened Basics
  import opened CxxNames
  import opened DdfStruct
  import opened DdfDescriptor
  import NameCase

  /** The words of the names, each split at its own underscores. */
  function Words(names: seq<string>): seq<string> {
    if names == [] then [] else NameCase.Split(names[0]) + Words(names[1..])
  }

  lemma {:induction false} SplitAcross(a: string, b: string)
    ensures NameCase.Split(a + ("_" + b)) == NameCase.Split(a) + NameCase.Split(b)
  {
    var text := a + ("_" + b);
    if a == "" {
      assert text == "_" + b && ("_" + b)[1..] == b;
    } else {
      var rest, more := NameCase.Split(a[1..]), NameCase.Split(b);
      SplitAcross(a[1..], b);
      assert text[1..] == a[1..] + ("_" + b);
      FirstExtends(a[0], rest, more);
      assert [""] + (rest + more) == [""] + rest + more;
    }
  }

  lemma {:induction false} FirstExtends(c: char, rest: seq<string>, more: seq<string>)
    requires rest != []
    ensures [[c] + (rest + more)[0]] + (rest + more)[1..] == [[c] + rest[0]] + rest[1..] + more
  {
    assert (rest + more)[1..] == rest[1..] + more;
  }

  /** Splitting the joined names gives the words. */
  lemma {:induction false} SplitJoined(names: seq<string>)
    requires names != []
    ensures NameCase.Split(Join(names, "_")) == Words(names)
  {
    if |names| == 1 {
      assert Words(names[1..]) == [];
    } else {
      SplitJoined(names[1..]);
      SplitAcross(names[0], Join(names[1..], "_"));
      Assoc(names[0], "_", Join(names[1..], "_"));
    }
  }

  lemma {:induction false} JoinedEqualIff(a: seq<string>, b: seq<string>)
    requires a != [] && b != []
    ensures Join(a, "_") == Join(b, "_") <==> Words(a) == Words(b)
  {
    SplitJoined(a);
    SplitJoined(b);
    NameCase.SplitJoins(Join(a, "_"));
    NameCase.SplitJoins(Join(b, "_"));
  }

  /** Two messages get the same variable exactly if their names, split at underscores, give
      the same words. */
  lemma {:induction false} SymbolsEqualIff(namespaces: seq<string>, name: string, others: seq<string>, other: string)
    requires namespaces != [] && others != []
    ensures DescriptorSymbol(namespaces, name) == DescriptorSymbol(others, other)
       <==> Words(namespaces + [name]) == Words(others + [other])
  {
    JoinSnoc(namespaces, name, "_");
    JoinSnoc(others, other, "_");
    JoinedEqualIff(namespaces + [name], others + [other]);
    EndCancels(Join(namespaces + [name], "_"), Join(others + [other], "_"), "_DESCRIPTOR");
  }

  lemma {:induction false} PlainWords(names: seq<string>)
    requires NoneHas(names, '_')
    ensures Words(names) == names
  {
    if names != [] {
      NameCase.SplitWhole(names[0]);
      PlainWords(names[1..]);
    }
  }

  // ---- the symbols of a file

  /** The file has a message at this path of names. */
  ghost predicate HasMessage(file: File, path: seq<string>) {
    exists i, node :: 0 <= i < |file.messages| && Within(file.messages[i], node, path)
  }

  /** The variable for the message at this path. */
  function SymbolAt(file: File, path: seq<string>): string
    requires path != []
  {
    DescriptorSymbol([file.package] + path[..|path| - 1], path[|path| - 1])
  }

  lemma {:induction false} HasPath(file: File, path: seq<string>)
    requires HasMessage(file, path)
    ensures path != []
  {
  }

  /** Messages at different paths have different variables. */
  ghost predicate SymbolsDiffer(file: File) {
    forall p, q :: p != [] && q != [] && HasMessage(file, p) && HasMessage(file, q) && p != q ==> SymbolAt(file, p) != SymbolAt(file, q)
  }

  /** No two paths come to the same words. */
  ghost predicate WordsDiffer(file: File) {
    forall p, q :: HasMessage(file, p) && HasMessage(file, q) && p != q ==> Words(p) != Words(q)
  }

  lemma {:induction false} SymbolsEqualAt(file: File, p: seq<string>, q: seq<string>)
    requires p != [] && q != []
    ensures SymbolAt(file, p) == SymbolAt(file, q) <==> Words(p) == Words(q)
  {
    SymbolsEqualIff([file.package] + p[..|p| - 1], p[|p| - 1], [file.package] + q[..|q| - 1], q[|q| - 1]);
    assert [file.package] + p[..|p| - 1] + [p[|p| - 1]] == [file.package] + p;
    assert [file.package] + q[..|q| - 1] + [q[|q| - 1]] == [file.package] + q;
    FrontCancels(NameCase.Split(file.package), Words(p), Words(q));
    WordsCons(file.package, p);
    WordsCons(file.package, q);
  }

  lemma {:induction false} WordsCons(name: string, names: seq<string>)
    ensures Words([name] + names) == NameCase.Split(name) + Words(names)
  {
    assert ([name] + names)[1..] == names;
  }

  lemma {:induction false} FrontCancels(a: seq<string>, b: seq<string>, c: seq<string>)
    ensures a + b == a + c <==> b == c
  {
    if a + b == a + c {
      assert b == (a + b)[|a|..] && c == (a + c)[|a|..];
    }
  }

  /** All variables of a file differ exactly if no two message paths, split at underscores,
      come to the same words. */
  lemma {:induction false} SymbolsDifferIff(file: File)
    ensures SymbolsDiffer(file) <==> WordsDiffer(file)
  {
    forall p, q | HasMessage(file, p) && HasMessage(file, q) && p != q
      ensures p != [] && q != [] && (SymbolAt(file, p) == SymbolAt(file, q) <==> Words(p) == Words(q))
    {
      HasPath(file, p);
      HasPath(file, q);
      SymbolsEqualAt(file, p, q);
    }
  }

  ghost predicate NoUnderscores(m: Message) {
    '_' !in m.name && forall i :: 0 <= i < |m.nested| ==> NoUnderscores(m.nested[i])
  }

  lemma {:induction false} PathHasNone(m: Message, node: Message, path: seq<string>)
    requires Within(m, node, path) && NoUnderscores(m)
    ensures NoneHas(path, '_')
    decreases path
  {
    if |path| > 1 {
      var i :| 0 <= i < |m.nested| && Within(m.nested[i], node, path[1..]);
      PathHasNone(m.nested[i], node, path[1..]);
      assert path == [path[0]] + path[1..];
    }
  }

  lemma {:induction false} MessagePathHasNone(file: File, path: seq<string>)
    requires HasMessage(file, path) && forall i :: 0 <= i < |file.messages| ==> NoUnderscores(file.messages[i])
    ensures NoneHas(path, '_')
  {
    var i, node :| 0 <= i < |file.messages| && Within(file.messages[i], node, path);
    PathHasNone(file.messages[i], node, path);
  }

  /** In particular they differ if no message has an underscore in its name. */
  lemma {:induction false} PlainNamesDiffer(file: File)
    requires forall i :: 0 <= i < |file.messages| ==> NoUnderscores(file.messages[i])
    ensures SymbolsDiffer(file)
  {
    forall p, q | HasMessage(file, p) && HasMessage(file, q) && p != q
      ensures Words(p) != Words(q)
    {
      MessagePathHasNone(file, p);
      MessagePathHasNone(file, q);
      PlainWords(p);
      PlainWords(q);
    }
    SymbolsDifferIff(file);
  }

  /** The variable of a descriptor is that of the path of its message ... */
  lemma {:induction false} SymbolOfDescriptor(file: File, d: Descriptor, node: Message, path: seq<string>)
    requires Describes(d, [file.package], node, path)
    ensures d.symbol == SymbolAt(file, path)
  {
  }

  /** ... and in a well-named file a path belongs to one message only. */
  lemma {:induction false} PathDeterminesMessage(m: Message, x: Message, y: Message, path: seq<string>)
    requires Valid(m) && WellNamed(m) && Within(m, x, path) && Within(m, y, path)
    ensures x == y
    decreases path
  {
    if |path| > 1 {
      var i :| 0 <= i < |m.nested| && Within(m.nested[i], x, path[1..]);
      var j :| 0 <= j < |m.nested| && Within(m.nested[j], y, path[1..]);
      assert m.nested[i].name == path[1..][0] == m.nested[j].name;
      assert i == j;
      PathDeterminesMessage(m.nested[i], x, y, path[1..]);
    }
  }

  // ---- a well-named file in which they do not

  function Bare(name: string, nested: seq<Message>): Message { Message(name, [], nested, [], [], false) }

  /** Message b inside message a, beside a message a_b. */
  function Colliding(a: string, b: string, package: string): File {
    File(package, [], [Bare(a, [Bare(b, [])]), Bare(a + ("_" + b), [])])
  }

  lemma {:induction false} BareWellNamed(name: string, nested: seq<Message>)
    requires forall i :: 0 <= i < |nested| ==> Valid(nested[i]) && WellNamed(nested[i]) && PlainOuter(nested[i])
    requires TypesDistinct([], nested) && (nested != [] ==> '_' !in name)
    ensures Valid(Bare(name, nested)) && WellNamed(Bare(name, nested)) && PlainOuter(Bare(name, nested))
  {
    assert |Slots(Bare(name, nested))| == 0;
  }

  lemma {:induction false} TwoWellNamed(package: string, x: Message, y: Message)
    requires Valid(x) && Valid(y) && WellNamed(x) && WellNamed(y) && PlainOuter(x) && PlainOuter(y)
    requires '_' !in package && x.name != "" && y.name != "" && x.name != y.name
    ensures FileValid(File(package, [], [x, y])) && FileWellNamed(File(package, [], [x, y]))
  {
  }

  lemma {:induction false} CollidingWellNamed(a: string, b: string, package: string)
    requires a != "" && b != "" && '_' !in a && '_' !in package
    ensures FileValid(Colliding(a, b, package)) && FileWellNamed(Colliding(a, b, package))
  {
    var inner := Bare(b, []);
    BareWellNamed(b, []);
    BareWellNamed(a, [inner]);
    var ab := a + ("_" + b);
    BareWellNamed(ab, []);
    assert |ab| > |a|;
    TwoWellNamed(package, Bare(a, [inner]), Bare(ab, []));
  }

  lemma {:induction false} CollidingPaths(a: string, b: string, package: string)
    ensures HasMessage(Colliding(a, b, package), [a, b]) && HasMessage(Colliding(a, b, package), [a + ("_" + b)])
  {
    var inner, outer, other := Bare(b, []), Bare(a, [Bare(b, [])]), Bare(a + ("_" + b), []);
    assert Within(inner, inner, [b]) && outer.nested[0] == inner;
    assert [a, b][1..] == [b];
    assert Within(outer, inner, [a, b]) && Within(other, other, [a + ("_" + b)]);
    var ms := Colliding(a, b, package).messages;
    assert ms[0] == outer && ms[1] == other;
  }

  lemma {:induction false} CollidingWords(a: string, b: string)
    ensures Words([a, b]) == Words([a + ("_" + b)])
  {
    SplitAcross(a, b);
    WordsCons(a, [b]);
    WordsCons(b, []);
    WordsCons(a + ("_" + b), []);
    assert [a] + [b] == [a, b] && [b] + [] == [b] && [a + ("_" + b)] + [] == [a + ("_" + b)];
  }

  /** Such a file meets every rule of a well-named file, for A, B and A_B in package p and
      for all other names, yet two of its messages get the same variable. */
  lemma {:induction false} WellNamedButColliding(a: string, b: string, package: string)
    requires a != "" && b != "" && '_' !in a && '_' !in package
    ensures FileValid(Colliding(a, b, package)) && FileWellNamed(Colliding(a, b, package)) && !SymbolsDiffer(Colliding(a, b, package))
  {
    CollidingWellNamed(a, b, package);
    CollidingPaths(a, b, package);
    CollidingWords(a, b);
    CollidingDiffers(Colliding(a, b, package), [a, b], [a + ("_" + b)]);
  }

  lemma {:induction false} CollidingDiffers(file: File, p: seq<string>, q: seq<string>)
    requires HasMessage(file, p) && HasMessage(file, q) && p != q && Words(p) == Words(q)
    ensures !SymbolsDiffer(file)
  {
    SymbolsDifferIff(file);
  }
}
