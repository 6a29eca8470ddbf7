/** What a reader of the structs printed by engine/ddf/src/ddfc.py finds in them: for each
    field its type, and for each enum its values, aligned in columns. */
module DdfReading {
  import opened Basics
  import opened CxxText
  import opened CxxLayout
  import opened CxxNames
  import opened DdfStruct
  import DdfDescriptor

  // ---- fields

  const ALIGNED := "DM_ALIGNED(16) "

  /** A declaration as it reads: one value of a type, or an array that gives access to its
      elements in these forms. */
  datatype Reading =
    | One(aligned: bool, cxxType: string)
    | Many(aligned: bool, alignedElements: bool, element: string, forms: seq<Access>)

  function IsAligned(t: string): bool { ALIGNED <= t }

  function Unaligned(t: string): string { if IsAligned(t) then t[|ALIGNED|..] else t }

  /** What a pointer type points to. */
  function Target(t: string): string { if t != "" && t[|t| - 1] == '*' then t[..|t| - 1] else t }

  /** A pointer, accessors to elements of its type, and a count. */
  predicate IsArrayBody(items: seq<Item>) {
    && |items| >= 3 && items[0].Leaf? && items[0].text.Member? && items[0].text.name == "m_Data"
    && items[|items| - 1] == Leaf(Member("uint32_t", 1, "m_Count"))
    && forall i :: 0 < i < |items| - 1 ==>
         items[i].Leaf? && items[i].text.Accessor? && items[i].text.element == Target(items[0].text.cxxType)
  }

  function Forms(items: seq<Item>): seq<Access>
    requires IsArrayBody(items)
  {
    seq(|items| - 2, i requires 0 <= i < |items| - 2 => items[i + 1].text.form)
  }

  function Read(item: Item): Option<Reading> {
    match item
    case Leaf(t) => if t.Member? then Some(One(IsAligned(t.cxxType), Unaligned(t.cxxType))) else None
    case Block(keyword, _, items, _) =>
      if !IsArrayBody(items) then None
      else
        var t := Target(items[0].text.cxxType);
        Some(Many(keyword == "struct DM_ALIGNED(16)", IsAligned(t), Unaligned(t), Forms(items)))
  }

  /** What a field of the .proto file is in C++: repeated fields and bytes are arrays, of
      messages, bytes or values; strings are given out by value, all else by reference. */
  function Declared(f: Field): Reading {
    if f.repeated || f.kind.BytesKind? then
      Many(f.aligned, f.aligned && !f.kind.MessageKind?,
           if f.kind.BytesKind? then "uint8_t" else if f.kind.MessageKind? then DotToCxxNamespace(f.typeName) else f.cxxType,
           if f.kind.StringKind? then [ByValue] else [ByConstReference, ByReference])
    else
      One(f.aligned, f.cxxType)
  }

  lemma {:induction false} AlignReads(aligned: bool, t: string)
    requires !IsAligned(t)
    ensures var s := (if aligned then ALIGNED else "") + t; IsAligned(s) == aligned && Unaligned(s) == t
  {
    if !aligned {
      assert "" + t == t;
    }
  }

  lemma {:induction false} TargetReads(t: string)
    ensures Target(t + "*") == t
  {
  }

  /** The type names are no alignment attributes. */
  ghost predicate PlainTypes(f: Field) { !IsAligned(f.cxxType) && !IsAligned(DotToCxxNamespace(f.typeName)) }

  lemma {:induction false} ElementReads(f: Field)
    requires PlainTypes(f) && IsArray(f)
    ensures IsAligned(ElementType(f)) == Declared(f).alignedElements && Unaligned(ElementType(f)) == Declared(f).element
  {
    AlignReads(f.aligned, f.cxxType);
    AlignReads(f.aligned, "uint8_t");
  }

  lemma {:induction false} ArrayShape(f: Field, items: seq<Item>, t: string)
    requires IsArray(f) && items == ArrayItems(f) && t == ElementType(f)
    ensures items != [] && items[0] == Leaf(Member(t + "*", 1, "m_Data"))
    ensures IsArrayBody(items) && Forms(items) == Declared(f).forms
  {
    TargetReads(t);
    if f.kind.StringKind? {
      assert items == [Leaf(Member(t + "*", 1, "m_Data")), Leaf(Accessor(t, ByValue)), Leaf(Member("uint32_t", 1, "m_Count"))];
    } else {
      assert items == [Leaf(Member(t + "*", 1, "m_Data")), Leaf(Accessor(t, ByConstReference)), Leaf(Accessor(t, ByReference)),
                       Leaf(Member("uint32_t", 1, "m_Count"))];
    }
  }

  lemma {:induction false} BlockReads(keyword: string, member: string, items: seq<Item>, t: string, pad: int, name: string)
    requires IsArrayBody(items) && items[0] == Leaf(Member(t + "*", pad, name))
    ensures Read(Block(keyword, "", items, member))
         == Some(Many(keyword == "struct DM_ALIGNED(16)", IsAligned(t), Unaligned(t), Forms(items)))
  {
    TargetReads(t);
  }

  lemma {:induction false} ArrayReads(f: Field, keyword: string, member: string)
    requires PlainTypes(f) && IsArray(f) && (keyword == "struct DM_ALIGNED(16)" <==> f.aligned)
    ensures Read(Block(keyword, "", ArrayItems(f), member)) == Some(Declared(f))
  {
    var items, t := ArrayItems(f), ElementType(f);
    ElementReads(f);
    ArrayShape(f, items, t);
    BlockReads(keyword, member, items, t, 1, "m_Data");
  }

  /** Whatever is printed for a field reads as what the field is, under its member name. */
  lemma {:induction false} FieldReads(f: Field, column: nat)
    requires PlainTypes(f) && TypeLength(f) <= column
    ensures Read(FieldItem(f, column)) == Some(Declared(f)) && Declares(FieldItem(f, column)) == MemberName(f.name)
  {
    if IsArray(f) {
      ArrayReads(f, StructKeyword(f.aligned), MemberName(f.name));
    } else {
      AlignReads(f.aligned, f.cxxType);
    }
  }

  /** In a struct whose entries lead to its fields, the path of each entry leads to a member
      that reads as the field does. */
  lemma {:induction false} EntryReads(entries: seq<DdfDescriptor.FieldEntry>, m: Message, j: nat) returns (item: Item)
    requires Valid(m) && DdfDescriptor.EntriesLead(entries, m) && j < |m.fields| && PlainTypes(m.fields[j])
    ensures j < |entries| && entries[j].name == m.fields[j].name
    ensures ResolvesTo(StructBody(m, NestedStructs(m)), entries[j].path, item) && Read(item) == Some(Declared(m.fields[j]))
  {
    item := FieldItem(m.fields[j], Column(m.fields));
    FieldReads(m.fields[j], Column(m.fields));
    assert DdfDescriptor.EntryLeads(StructBody(m, NestedStructs(m)), entries[j], m.fields[j], Column(m.fields));
  }

  /** The elements of a repeated message field have the qualified C++ name of the message
      exactly if the names of its path have no dots. */
  lemma {:induction false} ElementIsMessage(f: Field, names: seq<string>)
    requires f.repeated && f.kind.MessageKind? && f.typeName == "." + Join(names, ".") && names != []
    ensures Declared(f).element == Join(names, "::") <==> NoneHas(names, '.')
  {
    assert ("." + Join(names, "."))[1..] == Join(names, ".");
    ReplaceJoinIff(names, '.', "::");
  }

  // ---- columns

  /** Where the name of a line starts. */
  function NameColumn(t: Text): int
    requires t.Member?
  {
    |t.cxxType| + t.pad
  }

  lemma {:induction false} LongestIsOne(lengths: seq<nat>)
    requires lengths != []
    ensures Longest(lengths) in lengths || Longest(lengths) == 0
  {
    if |lengths| > 1 {
      LongestIsOne(lengths[..|lengths| - 1]);
    }
  }

  /** The names of all fields printed in one line start in one column, one place behind the
      longest of their types, and no field has a shorter gap. */
  lemma {:induction false} NamesAligned(m: Message, j: nat)
    requires Valid(m) && j < |m.fields| && !IsArray(m.fields[j])
    ensures var item := Slots(m)[j].item;
            item.Leaf? && item.text.Member? && NameColumn(item.text) == Column(m.fields) + 1 && item.text.pad >= 1
    ensures Column(m.fields) == 0 || exists k :: 0 <= k < |m.fields| && !IsArray(m.fields[k]) && |TypeText(m.fields[k])| == Column(m.fields)
  {
    var lengths := TypeLengths(m.fields);
    LongestIsOne(lengths);
    if Column(m.fields) != 0 {
      var k :| 0 <= k < |lengths| && lengths[k] == Column(m.fields);
      assert TypeLength(m.fields[k]) == Column(m.fields);
    }
  }

  // ---- enums

  /** The values listed in an enum block. */
  function ReadValues(items: seq<Item>): seq<(string, int)> {
    if items == [] then []
    else (if items[0].Leaf? && items[0].text.Value? then [(items[0].text.name, items[0].text.number)] else []) + ReadValues(items[1..])
  }

  lemma {:induction false} ValuesRead(values: seq<(string, int)>, column: nat)
    ensures ReadValues(EnumValues(values, column)) == values
  {
    if values != [] {
      ValuesRead(values[1..], column);
      assert EnumValues(values, column)[1..] == EnumValues(values[1..], column);
      assert values == [values[0]] + values[1..];
    }
  }

  /** An enum reads as the values of the .proto file, with their numbers, in their order, and
      the numbers stand in one column, right behind the longest name. */
  lemma {:induction false} EnumReads(e: EnumType, i: nat)
    ensures EnumItem(e).Block? && EnumItem(e).name == e.name && ReadValues(EnumItem(e).items) == e.values
    ensures i < |e.values| ==>
              var item := EnumItem(e).items[i];
              item.Leaf? && item.text.Value? && item.text.pad >= 1 && |item.text.name| + item.text.pad == EnumColumn(e.values) + 1
    ensures EnumColumn(e.values) == 0 || exists k :: 0 <= k < |e.values| && |e.values[k].0| == EnumColumn(e.values)
  {
    ValuesRead(e.values, EnumColumn(e.values));
    var lengths := NameLengths(e.values);
    if e.values != [] {
      LongestIsOne(lengths);
      assert i < |e.values| ==> lengths[i] <= Longest(lengths);
    }
  }

  // ---- indentation

  /** Braces open behind these lines. */
  function Depth(ts: seq<Text>): int {
    if ts == [] then 0
    else Depth(ts[..|ts| - 1]) + (if ts[|ts| - 1].Open? then 1 else if ts[|ts| - 1].Close? then -1 else 0)
  }

  /** Every line but blank ones is indented by four for each brace open around it. */
  ghost predicate Indented(lines: seq<Line>, base: int) {
    forall i :: 0 <= i < |lines| && !lines[i].text.Blank? ==>
      lines[i].indent == base + 4 * (Depth(Texts(lines)[..i]) - if lines[i].text.Close? then 1 else 0)
  }

  lemma {:induction false} DepthConcat(a: seq<Text>, b: seq<Text>)
    ensures Depth(a + b) == Depth(a) + Depth(b)
  {
    if b == [] {
      assert a + b == a;
    } else {
      assert (a + b)[..|a + b| - 1] == a + b[..|b| - 1];
      DepthConcat(a, b[..|b| - 1]);
    }
  }

  lemma {:induction false} IndentedConcat(a: seq<Line>, b: seq<Line>, base: int)
    requires Indented(a, base) && Indented(b, base + 4 * Depth(Texts(a)))
    ensures Indented(a + b, base) && Depth(Texts(a + b)) == Depth(Texts(a)) + Depth(Texts(b))
  {
    TextsConcat(a, b);
    DepthConcat(Texts(a), Texts(b));
    forall i | 0 <= i < |a + b| && !(a + b)[i].text.Blank?
      ensures (a + b)[i].indent == base + 4 * (Depth(Texts(a + b)[..i]) - if (a + b)[i].text.Close? then 1 else 0)
    {
      if i < |a| {
        assert Texts(a + b)[..i] == Texts(a)[..i];
      } else {
        assert Texts(a + b)[..i] == Texts(a) + Texts(b)[..i - |a|];
        DepthConcat(Texts(a), Texts(b)[..i - |a|]);
      }
    }
  }

  lemma {:induction false} OpeningIndented(keyword: string, name: string, base: int)
    ensures var lines := [Line(base, Head(keyword, name)), Line(base, Open)]; Indented(lines, base) && Depth(Texts(lines)) == 1
  {
    var ts := Texts([Line(base, Head(keyword, name)), Line(base, Open)]);
    assert ts[..0] == [] && ts[..1] == [Head(keyword, name)] && ts[..1][..0] == [];
  }

  lemma {:induction false} ClosingIndented(member: string, base: int)
    ensures var lines := [Line(base, Close(member)), Line(0, Blank)]; Indented(lines, base + 4) && Depth(Texts(lines)) == -1
  {
    var ts := Texts([Line(base, Close(member)), Line(0, Blank)]);
    assert ts[..0] == [] && ts[..1] == [Close(member)] && ts[..1][..0] == [];
  }

  /** Everything printed is indented by four for each brace open around it, and braces are
      balanced. */
  lemma {:induction false} RenderIndented(item: Item, base: int)
    requires Proper([item])
    ensures Indented(Render(item, base), base) && Depth(Texts(Render(item, base))) == 0
    decreases item, 1
  {
    assert [item][0] == item;
    match item
    case Leaf(t) =>
      assert Texts(Render(item, base)) == [t];
      assert [t][..0] == [];
    case Block(k, n, inner, m) =>
      var open, close := [Line(base, Head(k, n)), Line(base, Open)], [Line(base, Close(m)), Line(0, Blank)];
      OpeningIndented(k, n, base);
      ClosingIndented(m, base);
      RenderAllIndented(inner, base + 4);
      IndentedConcat(open, RenderAll(inner, base + 4), base);
      IndentedConcat(open + RenderAll(inner, base + 4), close, base);
  }

  lemma {:induction false} RenderAllIndented(items: seq<Item>, base: int)
    requires Proper(items)
    ensures Indented(RenderAll(items, base), base) && Depth(Texts(RenderAll(items, base))) == 0
    decreases items, 0
  {
    if items != [] {
      RenderIndented(items[0], base);
      RenderAllIndented(items[1..], base);
      IndentedConcat(Render(items[0], base), RenderAll(items[1..], base), base);
    }
  }

  /** So is the struct of any message. */
  lemma {:induction false} StructIndented(m: Message, base: int)
    requires Valid(m)
    ensures Indented(Render(StructItem(m), base), base) && Depth(Texts(Render(StructItem(m), base))) == 0
  {
    DdfDescriptor.StructProper(m);
    RenderIndented(StructItem(m), base);
  }
}
