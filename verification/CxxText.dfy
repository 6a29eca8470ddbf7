/** The C++ text that engine/ddf/src/ddfc.py prints, line by line, the blocks it is meant
    to be, and a parser that reads the blocks back from the lines alone. */
module CxxText {
  import opened Basics

  /** A printed line without its indentation. */
  datatype Text =
    | Head(keyword: string, name: string)               // struct Name, union, enum Name
    | Open                                              // {
    | Close(member: string)                             // } m_Name;
    | Member(cxxType: string, pad: int, name: string)   // type   m_Name;
    | Value(name: string, pad: int, number: int)        // NAME = 1,
    | Accessor(element: string, form: Access)           // operator[] on m_Data, checked against m_Count
    | Code(code: string)                                // anything else
    | Blank

  datatype Access = ByValue | ByConstReference | ByReference

  datatype Line = Line(indent: int, text: Text)

  /** A brace-delimited block with what is between its braces, or a single line. */
  datatype Item =
    | Leaf(text: Text)
    | Block(keyword: string, name: string, items: seq<Item>, member: string)

  predicate IsLeafText(t: Text) { t.Member? || t.Value? || t.Accessor? || t.Code? }

  /** Leaves hold only lines that open and close nothing. */
  ghost predicate Proper(items: seq<Item>)
    decreases items
  {
    forall i :: 0 <= i < |items| ==>
      match items[i]
      case Leaf(t) => IsLeafText(t)
      case Block(_, _, inner, _) => Proper(inner)
  }

  /** The lines of a block: indented by four inside its braces, a blank line behind. */
  function Render(item: Item, indent: int): seq<Line>
    decreases item, 1
  {
    match item
    case Leaf(t) => [Line(indent, t)]
    case Block(k, n, inner, m) =>
      [Line(indent, Head(k, n)), Line(indent, Open)]
      + RenderAll(inner, indent + 4)
      + [Line(indent, Close(m)), Line(0, Blank)]
  }

  function RenderAll(items: seq<Item>, indent: int): seq<Line>
    decreases items, 0
  {
    if items == [] then [] else Render(items[0], indent) + RenderAll(items[1..], indent)
  }

  lemma {:induction false} RenderAllConcat(a: seq<Item>, b: seq<Item>, indent: int)
    ensures RenderAll(a + b, indent) == RenderAll(a, indent) + RenderAll(b, indent)
  {
    if a == [] {
      assert a + b == b;
    } else {
      assert (a + b)[1..] == a[1..] + b;
      RenderAllConcat(a[1..], b, indent);
    }
  }

  lemma {:induction false} RenderOne(item: Item, indent: int)
    ensures RenderAll([item], indent) == Render(item, indent)
  {
    assert [item][1..] == [];
  }

  function Texts(lines: seq<Line>): seq<Text> {
    seq(|lines|, i requires 0 <= i < |lines| => lines[i].text)
  }

  // ---- reading the text back

  /** The blocks found, and the lines left over: none, or starting with a closing brace
      (or something malformed) that belongs to nobody. */
  datatype Parsed = Parsed(items: seq<Item>, rest: seq<Text>)

  function Parse(ts: seq<Text>): (p: Parsed)
    ensures |p.rest| <= |ts|
    decreases |ts|
  {
    if ts == [] || ts[0].Close? || ts[0].Open? then Parsed([], ts)
    else if ts[0].Blank? then Parse(ts[1..])
    else if IsLeafText(ts[0]) then
      var p := Parse(ts[1..]);
      Parsed([Leaf(ts[0])] + p.items, p.rest)
    else if |ts| < 2 || !ts[1].Open? then Parsed([], ts)
    else
      var inner := Parse(ts[2..]);
      if inner.rest == [] || !inner.rest[0].Close? then Parsed([], ts)
      else
        var p := Parse(inner.rest[1..]);
        Parsed([Block(ts[0].keyword, ts[0].name, inner.items, inner.rest[0].member)] + p.items, p.rest)
  }

  function Put(item: Item, p: Parsed): Parsed { Parsed([item] + p.items, p.rest) }

  lemma {:induction false} ParseLeaf(t: Text, tail: seq<Text>)
    requires IsLeafText(t)
    ensures Parse([t] + tail) == Put(Leaf(t), Parse(tail))
  {
    assert ([t] + tail)[1..] == tail;
  }

  lemma {:induction false} ParseBlank(tail: seq<Text>)
    ensures Parse([Blank] + tail) == Parse(tail)
  {
    assert ([Blank] + tail)[1..] == tail;
  }

  lemma {:induction false} ParseBlock(k: string, n: string, inner: seq<Text>, items: seq<Item>, m: string, tail: seq<Text>)
    requires Parse(inner + ([Close(m)] + tail)) == Parsed(items, [Close(m)] + tail)
    ensures Parse([Head(k, n), Open] + (inner + ([Close(m)] + tail))) == Put(Block(k, n, items, m), Parse(tail))
  {
    var ts := [Head(k, n), Open] + (inner + ([Close(m)] + tail));
    assert ts[2..] == inner + ([Close(m)] + tail);
    assert ([Close(m)] + tail)[1..] == tail;
  }

  lemma {:induction false} TextsConcat(a: seq<Line>, b: seq<Line>)
    ensures Texts(a + b) == Texts(a) + Texts(b)
  {
  }

  lemma {:induction false} BlockTexts(k: string, n: string, inner: seq<Item>, m: string, indent: int, tail: seq<Text>)
    ensures Texts(Render(Block(k, n, inner, m), indent)) + tail
         == [Head(k, n), Open] + (Texts(RenderAll(inner, indent + 4)) + ([Close(m)] + ([Blank] + tail)))
  {
    var a, b, c := [Line(indent, Head(k, n)), Line(indent, Open)], RenderAll(inner, indent + 4), [Line(indent, Close(m)), Line(0, Blank)];
    TextsConcat(a + b, c);
    TextsConcat(a, b);
    assert Texts(c) + tail == [Close(m)] + ([Blank] + tail);
  }

  /** Reading what was printed for some blocks gives back these blocks, in front of what
      follows: braces balance, and nothing is lost or invented. */
  lemma {:induction false} ParseRenderAll(items: seq<Item>, indent: int, tail: seq<Text>)
    requires Proper(items)
    ensures Parse(Texts(RenderAll(items, indent)) + tail)
         == Parsed(items + Parse(tail).items, Parse(tail).rest)
    decreases items, 0
  {
    if items == [] {
      assert Texts(RenderAll(items, indent)) + tail == tail;
    } else {
      var more := Texts(RenderAll(items[1..], indent)) + tail;
      ParseRenderAll(items[1..], indent, tail);
      ParseRender(items[0], indent, more);
      FirstThenRest(items, indent, tail);
      PutInFront(items, Parse(tail));
    }
  }

  lemma {:induction false} FirstThenRest(items: seq<Item>, indent: int, tail: seq<Text>)
    requires items != []
    ensures Texts(RenderAll(items, indent)) + tail
         == Texts(Render(items[0], indent)) + (Texts(RenderAll(items[1..], indent)) + tail)
  {
    TextsConcat(Render(items[0], indent), RenderAll(items[1..], indent));
  }

  lemma {:induction false} PutInFront(items: seq<Item>, p: Parsed)
    requires items != []
    ensures Put(items[0], Parsed(items[1..] + p.items, p.rest)) == Parsed(items + p.items, p.rest)
  {
    assert [items[0]] + (items[1..] + p.items) == items + p.items;
  }

  lemma {:induction false} ParseRender(item: Item, indent: int, tail: seq<Text>)
    requires Proper([item])
    ensures Parse(Texts(Render(item, indent)) + tail) == Put(item, Parse(tail))
    decreases item, 1
  {
    assert [item][0] == item;
    match item
    case Leaf(t) =>
      assert Texts(Render(item, indent)) == [t];
      ParseLeaf(t, tail);
    case Block(k, n, inner, m) =>
      var after := [Blank] + tail;
      ParseRenderAll(inner, indent + 4, [Close(m)] + after);
      BlockTexts(k, n, inner, m, indent, tail);
      ParseBlock(k, n, Texts(RenderAll(inner, indent + 4)), inner, m, after);
      ParseBlank(tail);
  }

  // ---- looking names up in blocks, as C++ does

  /** The member a block or line declares in the struct it lies in; "" if none. */
  function Declares(item: Item): string {
    match item
    case Leaf(t) => if t.Member? then t.name else ""
    case Block(_, _, _, m) => m
  }

  /** `name` is declared at position i and nowhere else. */
  ghost predicate OnlyAt(items: seq<Item>, name: string, i: int) {
    && 0 <= i < |items| && Declares(items[i]) == name
    && forall j :: 0 <= j < |items| && Declares(items[j]) == name ==> j == i
  }

  /** A member path leads to an item, and to no other. */
  ghost predicate ResolvesTo(items: seq<Item>, path: seq<string>, item: Item)
    decreases path
  {
    path != [] && path[0] != "" &&
    exists i :: OnlyAt(items, path[0], i)
      && (if |path| == 1 then items[i] == item else items[i].Block? && ResolvesTo(items[i].items, path[1..], item))
  }

  ghost predicate OnlyDefinedAt(items: seq<Item>, name: string, i: int) {
    && 0 <= i < |items| && IsDefinition(items[i], name)
    && forall j :: 0 <= j < |items| && IsDefinition(items[j], name) ==> j == i
  }

  /** A type path names a struct with this body, and no other. */
  ghost predicate StructNamed(items: seq<Item>, path: seq<string>, body: seq<Item>)
    decreases path
  {
    path != [] &&
    exists i :: OnlyDefinedAt(items, path[0], i)
      && (if |path| == 1 then items[i].items == body else StructNamed(items[i].items, path[1..], body))
  }

  /** A block that defines the type or namespace `name`. */
  predicate IsDefinition(item: Item, name: string) {
    item.Block? && item.name == name && item.member == ""
  }
}
