/** Qualified names in engine/ddf/src/ddfc.py: dotted for protobuf, joined by `::` for
    C++ types, and by `_` for descriptor variables. */
module CxxNames {
  /** sep.join(names) */
  function Join(names: seq<string>, sep: string): string {
    if names == [] then ""
    else if |names| == 1 then names[0]
    else names[0] + sep + Join(names[1..], sep)
  }

  /** s.replace(c, to) for a single character c */
  function Replace(s: string, c: char, to: string): string {
    if s == "" then "" else (if s[0] == c then to else [s[0]]) + Replace(s[1..], c, to)
  }

  function WithoutLeading(s: string, c: char): string {
    if s != "" && s[0] == c then s[1..] else s
  }

  function DotToCxxNamespace(s: string): string {
    Replace(WithoutLeading(s, '.'), '.', "::")
  }

  /** How to_cxx_descriptor names the C++ type of a message for offsetof and sizeof. */
  function OwnerText(namespaces: seq<string>, name: string): string {
    Replace(Join(namespaces, "_"), '_', "::") + "::" + name
  }

  /** How it names the descriptor it defines ... */
  function DescriptorSymbol(namespaces: seq<string>, name: string): string {
    Join(namespaces, "_") + "_" + name + "_DESCRIPTOR"
  }

  /** ... and the one it refers to from a field of message type. */
  function DescriptorReference(typeName: string): string {
    WithoutLeading(Replace(typeName, '.', "_"), '_') + "_DESCRIPTOR"
  }

  ghost predicate NoneHas(names: seq<string>, c: char) {
    forall i :: 0 <= i < |names| ==> c !in names[i]
  }

  lemma {:induction false} ReplaceConcat(a: string, b: string, c: char, to: string)
    ensures Replace(a + b, c, to) == Replace(a, c, to) + Replace(b, c, to)
  {
    if a == "" {
      assert a + b == b;
    } else {
      ReplaceConcat(a[1..], b, c, to);
      assert (a + b)[1..] == a[1..] + b;
      Assoc(if a[0] == c then to else [a[0]], Replace(a[1..], c, to), Replace(b, c, to));
    }
  }

  lemma {:induction false} Assoc(x: string, y: string, z: string)
    ensures x + (y + z) == x + y + z
  {
  }

  lemma {:induction false} ReplaceKeeps(s: string, c: char, to: string)
    requires c !in s
    ensures Replace(s, c, to) == s
  {
    if s != "" {
      ReplaceKeeps(s[1..], c, to);
    }
  }

  lemma {:induction false} ReplaceRemoves(s: string, c: char, to: string)
    requires c !in to
    ensures c !in Replace(s, c, to)
  {
    if s != "" {
      ReplaceRemoves(s[1..], c, to);
    }
  }

  lemma {:induction false} ReplaceOne(c: char, to: string)
    ensures Replace([c], c, to) == to
  {
    assert [c][1..] == "";
  }

  lemma {:induction false} JoinHolds(names: seq<string>, sep: string, i: nat, c: char)
    requires i < |names| && c in names[i]
    ensures c in Join(names, sep)
  {
    if i > 0 {
      JoinHolds(names[1..], sep, i - 1, c);
    }
  }

  lemma {:induction false} ReplaceJoin(names: seq<string>, c: char, to: string)
    requires NoneHas(names, c)
    ensures Replace(Join(names, [c]), c, to) == Join(names, to)
  {
    if names != [] {
      ReplaceKeeps(names[0], c, to);
    }
    if |names| > 1 {
      var tail := Join(names[1..], [c]);
      ReplaceJoin(names[1..], c, to);
      ReplaceConcat(names[0] + [c], tail, c, to);
      ReplaceConcat(names[0], [c], c, to);
      ReplaceOne(c, to);
    }
  }

  /** Joining with one separator and replacing it gives the names joined with the other
      exactly if no name contains the first. */
  lemma {:induction false} ReplaceJoinIff(names: seq<string>, c: char, to: string)
    requires c !in to
    ensures Replace(Join(names, [c]), c, to) == Join(names, to) <==> NoneHas(names, c)
  {
    if NoneHas(names, c) {
      ReplaceJoin(names, c, to);
    } else {
      var i :| 0 <= i < |names| && c in names[i];
      JoinHolds(names, to, i, c);
      ReplaceRemoves(Join(names, [c]), c, to);
    }
  }

  lemma {:induction false} JoinSnoc(names: seq<string>, last: string, sep: string)
    requires names != []
    ensures Join(names + [last], sep) == Join(names, sep) + sep + last
  {
    if |names| == 1 {
      assert (names + [last])[1..] == [last];
    } else {
      JoinSnoc(names[1..], last, sep);
      assert (names + [last])[1..] == names[1..] + [last];
      Regroup(names[0], sep, Join(names[1..], sep), last);
    }
  }

  lemma {:induction false} Regroup(a: string, sep: string, b: string, c: string)
    ensures a + sep + (b + sep + c) == a + sep + b + sep + c
  {
  }

  lemma {:induction false} EndCancels(a: string, b: string, c: string)
    ensures a + c == b + c <==> a == b
  {
    if a + c == b + c {
      assert |a| == |b|;
      assert a == (a + c)[..|a|] && b == (b + c)[..|b|];
    }
  }

  /** The type named for offsetof is the qualified name of the message exactly if neither
      the package nor an enclosing message has an underscore in its name. */
  lemma {:induction false} OwnerTextIff(namespaces: seq<string>, name: string)
    requires namespaces != []
    ensures OwnerText(namespaces, name) == Join(namespaces + [name], "::") <==> NoneHas(namespaces, '_')
  {
    var text := Replace(Join(namespaces, "_"), '_', "::");
    ReplaceJoinIff(namespaces, '_', "::");
    JoinSnoc(namespaces, name, "::");
    EndCancels(text + "::", Join(namespaces, "::") + "::", name);
    EndCancels(text, Join(namespaces, "::"), "::");
  }

  /** A field refers to the descriptor that is defined for its type exactly if the
      names in the type's path have no dots, such as those of a nested package. */
  lemma {:induction false} ReferenceIff(namespaces: seq<string>, name: string)
    requires namespaces != []
    ensures DescriptorReference("." + Join(namespaces + [name], ".")) == DescriptorSymbol(namespaces, name)
       <==> NoneHas(namespaces + [name], '.')
  {
    var names := namespaces + [name];
    var dotted := Join(names, ".");
    ReplaceConcat(".", dotted, '.', "_");
    ReplaceOne('.', "_");
    ReplaceJoinIff(names, '.', "_");
    JoinSnoc(namespaces, name, "_");
    var text := Replace(dotted, '.', "_");
    assert ("_" + text)[1..] == text;
    EndCancels(text, Join(names, "_"), "_DESCRIPTOR");
  }
}
