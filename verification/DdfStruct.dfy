/** The struct printer of engine/ddf/src/ddfc.py: to_cxx_struct prints a message as a C++
    struct in which the fields of a oneof share a union. */
module DdfStruct {
  import opened Basics
  import opened CxxText
  import opened CxxLayout
  import NameCase
  import CxxNames

  datatype Kind = ScalarKind | StringKind | BytesKind | EnumKind | MessageKind

  /** A field: `typeName` is the dotted name of its message or enum type, `cxxType` what
      get_field_type_name or type_to_ctype gives for it. */
  datatype Field = Field(
    name: string, repeated: bool, kind: Kind, typeName: string, cxxType: string,
    aligned: bool, oneof: Option<nat>)

  datatype EnumType = EnumType(name: string, values: seq<(string, int)>)

  datatype Message = Message(
    name: string, enums: seq<EnumType>, nested: seq<Message>, fields: seq<Field>,
    oneofs: seq<string>, aligned: bool)

  /** Every oneof index refers to a declared oneof, and no enum field is repeated (there
      is no element type for it), at any depth. */
  ghost predicate Valid(m: Message) {
    && (forall i :: 0 <= i < |m.fields| ==> !(m.fields[i].kind.EnumKind? && m.fields[i].repeated))
    && (forall i :: 0 <= i < |m.fields| && m.fields[i].oneof.Some? ==> m.fields[i].oneof.value < |m.oneofs|)
    && (forall i :: 0 <= i < |m.nested| ==> Valid(m.nested[i]))
  }

  function MemberName(name: string): string { "m_" + NameCase.Camel(name, true) }

  // ---- what is printed for one field

  function AlignPrefix(f: Field): string { if f.aligned then "DM_ALIGNED(16) " else "" }

  /** Stored as a pointer and a count. */
  predicate IsArray(f: Field) { f.repeated || f.kind.BytesKind? }

  function TypeText(f: Field): string { AlignPrefix(f) + f.cxxType }

  function TypeLength(f: Field): nat { if IsArray(f) then 0 else |TypeText(f)| }

  function Longest(lengths: seq<nat>): (n: nat)
    ensures forall i :: 0 <= i < |lengths| ==> lengths[i] <= n
  {
    if lengths == [] then 0
    else
      var n, last := Longest(lengths[..|lengths| - 1]), lengths[|lengths| - 1];
      if n < last then last else n
  }

  function TypeLengths(fields: seq<Field>): seq<nat> {
    seq(|fields|, i requires 0 <= i < |fields| => TypeLength(fields[i]))
  }

  /** Width of the type column: no type runs into its name. */
  function Column(fields: seq<Field>): (c: nat)
    ensures forall i :: 0 <= i < |fields| ==> TypeLength(fields[i]) <= c
  {
    assert forall i :: 0 <= i < |fields| ==> TypeLengths(fields)[i] == TypeLength(fields[i]);
    Longest(TypeLengths(fields))
  }

  function ElementType(f: Field): string {
    match f.kind
    case MessageKind => CxxNames.DotToCxxNamespace(f.typeName)
    case BytesKind => AlignPrefix(f) + "uint8_t"
    case _ => AlignPrefix(f) + f.cxxType
  }

  function Accessors(f: Field): seq<Item> {
    if f.kind.StringKind? then [Leaf(Accessor(ElementType(f), ByValue))]
    else [Leaf(Accessor(ElementType(f), ByConstReference)), Leaf(Accessor(ElementType(f), ByReference))]
  }

  function StructKeyword(aligned: bool): string { if aligned then "struct DM_ALIGNED(16)" else "struct" }

  /** Pointer, accessors and count. */
  function ArrayItems(f: Field): (items: seq<Item>)
    ensures forall i :: 0 <= i < |items| ==> items[i].Leaf?
  {
    [Leaf(Member(ElementType(f) + "*", 1, "m_Data"))] + Accessors(f) + [Leaf(Member("uint32_t", 1, "m_Count"))]
  }

  /** A line, or an anonymous struct of pointer, accessors and count. */
  function FieldItem(f: Field, column: nat): (item: Item)
    requires TypeLength(f) <= column
    ensures Declares(item) == MemberName(f.name)
    ensures item.Leaf? ==> item.text.Member? && item.text.pad >= 1
  {
    if IsArray(f) then
      Block(StructKeyword(f.aligned), "", ArrayItems(f), MemberName(f.name))
    else
      Leaf(Member(TypeText(f), column - |TypeText(f)| + 1, MemberName(f.name)))
  }

  function ScopeOf(m: Message, j: nat): Option<string>
    requires Valid(m) && j < |m.fields|
  {
    if m.fields[j].oneof.Some? then Some(m.oneofs[m.fields[j].oneof.value]) else None
  }

  function Slots(m: Message): (slots: seq<Slot>)
    requires Valid(m)
    ensures |slots| == |m.fields|
    ensures forall j :: 0 <= j < |slots| ==>
              slots[j].scope == ScopeOf(m, j) && slots[j].item == FieldItem(m.fields[j], Column(m.fields))
  {
    seq(|m.fields|, j requires 0 <= j < |m.fields| => Slot(ScopeOf(m, j), FieldItem(m.fields[j], Column(m.fields))))
  }

  // ---- what is printed for a message

  function NameLengths(values: seq<(string, int)>): seq<nat> {
    seq(|values|, i requires 0 <= i < |values| => |values[i].0|)
  }

  function EnumColumn(values: seq<(string, int)>): nat { Longest(NameLengths(values)) }

  function EnumValues(values: seq<(string, int)>, column: nat): seq<Item> {
    seq(|values|, i requires 0 <= i < |values| => Leaf(Value(values[i].0, column - |values[i].0| + 1, values[i].1)))
  }

  function EnumItem(e: EnumType): Item {
    Block("enum", e.name, EnumValues(e.values, EnumColumn(e.values)), "")
  }

  function EnumItems(enums: seq<EnumType>): (items: seq<Item>)
    ensures |items| == |enums| && forall i :: 0 <= i < |items| ==> items[i] == EnumItem(enums[i])
  {
    seq(|enums|, i requires 0 <= i < |enums| => EnumItem(enums[i]))
  }

  const DESCRIPTOR_MEMBER := "m_DDFDescriptor"
  const HASH_MEMBER := "m_DDFHash"

  const STATICS: seq<Item> :=
    [Leaf(Code("")),
     Leaf(Member("static dmDDF::Descriptor*", 1, DESCRIPTOR_MEMBER)),
     Leaf(Member("static const uint64_t", 1, HASH_MEMBER))]

  /** A struct around the given nested structs: types first, then the fields by runs,
      then the static members. */
  function StructBody(m: Message, nested: seq<Item>): seq<Item>
    requires Valid(m)
  {
    Body(EnumItems(m.enums) + nested, RunItems(Slots(m), MemberName, 0), STATICS)
  }

  function StructItem(m: Message): Item
    requires Valid(m)
    decreases m, 1
  {
    Block(StructKeyword(m.aligned), m.name, StructBody(m, NestedStructs(m)), "")
  }

  function NestedStructs(m: Message): (items: seq<Item>)
    requires Valid(m)
    ensures |items| == |m.nested| && forall i :: 0 <= i < |items| ==> items[i] == StructItem(m.nested[i])
    decreases m, 0
  {
    seq(|m.nested|, i requires 0 <= i < |m.nested| => StructItem(m.nested[i]))
  }

  // ---- printing

  class PrettyPrinter {
    var stream: seq<Line>
    var indent: int

    constructor (indent: int)
      ensures stream == [] && this.indent == indent
    {
      this.stream, this.indent := [], indent;
    }

    method Begin(keyword: string, name: string)
      modifies this
      ensures stream == old(stream) + [Line(old(indent), Head(keyword, name)), Line(old(indent), Open)]
      ensures indent == old(indent) + 4
    {
      stream := stream + [Line(indent, Head(keyword, name))];
      stream := stream + [Line(indent, Open)];
      indent := indent + 4;
    }

    method P(t: Text)
      modifies this`stream
      ensures stream == old(stream) + [Line(indent, t)]
    {
      stream := stream + [Line(indent, t)];
    }

    method End(member: string)
      modifies this
      ensures stream == old(stream) + [Line(old(indent) - 4, Close(member)), Line(0, Blank)]
      ensures indent == old(indent) - 4
    {
      indent := indent - 4;
      stream := stream + [Line(indent, Close(member))];
      stream := stream + [Line(0, Blank)];
    }
  }

  method PrintLeaves(pp: PrettyPrinter, items: seq<Item>)
    requires forall i :: 0 <= i < |items| ==> items[i].Leaf?
    modifies pp`stream
    ensures pp.stream == old(pp.stream) + RenderAll(items, pp.indent)
  {
    for k := 0 to |items|
      invariant pp.stream == old(pp.stream) + RenderAll(items[..k], pp.indent)
    {
      assert items[..k + 1] == items[..k] + [items[k]];
      RenderSnoc(items[..k], items[k], pp.indent);
      pp.P(items[k].text);
    }
    assert items[..|items|] == items;
  }

  /** A block whose content has been printed between Begin and End. */
  lemma {:induction false} BlockLines(before: seq<Line>, indent: int, k: string, n: string, items: seq<Item>, member: string)
    ensures before + [Line(indent, Head(k, n)), Line(indent, Open)] + RenderAll(items, indent + 4)
            + [Line(indent, Close(member)), Line(0, Blank)]
         == before + Render(Block(k, n, items, member), indent)
  {
  }

  method PrintLeafBlock(pp: PrettyPrinter, keyword: string, name: string, items: seq<Item>, member: string)
    requires forall i :: 0 <= i < |items| ==> items[i].Leaf?
    modifies pp
    ensures pp.stream == old(pp.stream) + Render(Block(keyword, name, items, member), pp.indent) && pp.indent == old(pp.indent)
  {
    ghost var before, indent := pp.stream, pp.indent;
    pp.Begin(keyword, name);
    PrintLeaves(pp, items);
    pp.End(member);
    BlockLines(before, indent, keyword, name, items, member);
  }

  method ToCxxEnum(pp: PrettyPrinter, e: EnumType)
    modifies pp
    ensures pp.stream == old(pp.stream) + Render(EnumItem(e), pp.indent) && pp.indent == old(pp.indent)
  {
    PrintLeafBlock(pp, "enum", e.name, EnumValues(e.values, EnumColumn(e.values)), "");
  }

  method PrintField(pp: PrettyPrinter, f: Field, column: nat, ghost item: Item)
    requires TypeLength(f) <= column && item == FieldItem(f, column)
    modifies pp
    ensures pp.stream == old(pp.stream) + Render(item, pp.indent) && pp.indent == old(pp.indent)
  {
    if f.repeated || f.kind.BytesKind? {
      PrintLeafBlock(pp, StructKeyword(f.aligned), "", ArrayItems(f), MemberName(f.name));
    } else {
      pp.P(Member(TypeText(f), column - |TypeText(f)| + 1, MemberName(f.name)));
    }
  }

  /** What the loop over the fields has printed after i of them. */
  ghost predicate Printed(pp: PrettyPrinter, slots: seq<Slot>, i: nat, scope: Option<string>,
                          base: int, before: seq<Line>, closed: seq<Item>, open: seq<Item>)
    reads pp
  {
    && Printing(slots, MemberName, i, scope, closed, open)
    && pp.indent == base + (if scope.None? then 0 else 4)
    && pp.stream == before + SoFar(base, scope, closed, open)
  }

  /** Ends the union that is open. */
  method EndUnion(pp: PrettyPrinter, slots: seq<Slot>, i: nat, s: string,
                  ghost base: int, ghost before: seq<Line>, ghost closed: seq<Item>, ghost open: seq<Item>)
    returns (ghost closed': seq<Item>)
    requires Printed(pp, slots, i, Some(s), base, before, closed, open) && (i < |slots| ==> slots[i].scope != Some(s))
    modifies pp
    ensures Printed(pp, slots, i, None, base, before, closed', [])
  {
    CloseUnion(slots, MemberName, i, s, closed, open, base);
    closed' := closed + [Union(open, MemberName(s))];
    pp.End(MemberName(s));
  }

  method BeginUnion(pp: PrettyPrinter, slots: seq<Slot>, i: nat, s: string,
                    ghost base: int, ghost before: seq<Line>, ghost closed: seq<Item>)
    requires i < |slots| && slots[i].scope == Some(s) && Printed(pp, slots, i, None, base, before, closed, [])
    modifies pp
    ensures Printed(pp, slots, i, Some(s), base, before, closed, [])
  {
    OpenUnion(slots, MemberName, i, s, closed, base);
    pp.Begin("union", "");
  }

  /** Leaves the union of another oneof and enters that of field i, if it has one. */
  method SwitchScope(pp: PrettyPrinter, slots: seq<Slot>, i: nat, scope: Option<string>,
                     ghost base: int, ghost before: seq<Line>, ghost closed: seq<Item>, ghost open: seq<Item>)
    returns (scope': Option<string>, ghost closed': seq<Item>, ghost open': seq<Item>)
    requires i < |slots| && Printed(pp, slots, i, scope, base, before, closed, open)
    modifies pp
    ensures scope' == slots[i].scope && Printed(pp, slots, i, scope', base, before, closed', open')
  {
    scope', closed', open' := scope, closed, open;
    if slots[i].scope.Some? {
      var decl := slots[i].scope.value;
      if scope.None? || scope.value != decl {
        if scope.Some? {
          closed' := EndUnion(pp, slots, i, scope.value, base, before, closed, open);
          open' := [];
        }
        BeginUnion(pp, slots, i, decl, base, before, closed');
        scope' := Some(decl);
      }
    } else if scope.Some? {
      closed' := EndUnion(pp, slots, i, scope.value, base, before, closed, open);
      scope', open' := None, [];
    }
  }

  /** One round of the loop over the fields. */
  method PrintNext(pp: PrettyPrinter, f: Field, column: nat, slots: seq<Slot>, i: nat, scope: Option<string>,
                   ghost base: int, ghost before: seq<Line>, ghost closed: seq<Item>, ghost open: seq<Item>)
    returns (scope': Option<string>, ghost closed': seq<Item>, ghost open': seq<Item>)
    requires i < |slots| && Printed(pp, slots, i, scope, base, before, closed, open)
    requires TypeLength(f) <= column && slots[i].item == FieldItem(f, column)
    modifies pp
    ensures Printed(pp, slots, i + 1, scope', base, before, closed', open')
  {
    scope', closed', open' := SwitchScope(pp, slots, i, scope, base, before, closed, open);
    PrintField(pp, f, column, slots[i].item);
    closed', open' := AddSlot(slots, MemberName, i, scope', closed', open', base, before);
  }

  /** Slot j is how field j is laid out. */
  ghost predicate LaysOut(fields: seq<Field>, column: nat, slots: seq<Slot>) {
    && |slots| == |fields|
    && forall j :: 0 <= j < |fields| ==> TypeLength(fields[j]) <= column && slots[j].item == FieldItem(fields[j], column)
  }

  method PrintSlots(pp: PrettyPrinter, fields: seq<Field>, column: nat, slots: seq<Slot>, ghost base: int, ghost before: seq<Line>)
    requires LaysOut(fields, column, slots) && Printed(pp, slots, 0, None, base, before, [], [])
    modifies pp
    ensures Printed(pp, slots, |slots|, None, base, before, RunItems(slots, MemberName, 0), [])
  {
    var scope: Option<string> := None;
    ghost var closed: seq<Item>, open: seq<Item> := [], [];
    for i := 0 to |fields|
      invariant Printed(pp, slots, i, scope, base, before, closed, open)
    {
      scope, closed, open := PrintNext(pp, fields[i], column, slots, i, scope, base, before, closed, open);
    }
    if scope.Some? {
      closed := EndUnion(pp, slots, |slots|, scope.value, base, before, closed, open);
    }
    assert closed + [] == closed;
  }

  lemma {:induction false} PrintingStarts(slots: seq<Slot>, indent: int, before: seq<Line>)
    ensures Printing(slots, MemberName, 0, None, [], []) && before + SoFar(indent, None, [], []) == before
  {
    assert [] + RunItems(slots, MemberName, 0) == RunItems(slots, MemberName, 0);
  }

  method PrintFields(pp: PrettyPrinter, m: Message)
    requires Valid(m)
    modifies pp
    ensures pp.stream == old(pp.stream) + RenderAll(RunItems(Slots(m), MemberName, 0), pp.indent)
    ensures pp.indent == old(pp.indent)
  {
    var slots := Slots(m);
    ghost var base, before := pp.indent, pp.stream;
    PrintingStarts(slots, base, before);
    PrintSlots(pp, m.fields, Column(m.fields), slots, base, before);
    NothingOpen(base, RunItems(slots, MemberName, 0));
  }

  lemma {:induction false} NothingOpen(indent: int, closed: seq<Item>)
    ensures SoFar(indent, None, closed, []) == RenderAll(closed, indent)
  {
  }

  method PrintEnums(pp: PrettyPrinter, enums: seq<EnumType>)
    modifies pp
    ensures pp.stream == old(pp.stream) + RenderAll(EnumItems(enums), pp.indent) && pp.indent == old(pp.indent)
  {
    ghost var before, items := pp.stream, EnumItems(enums);
    for i := 0 to |enums|
      invariant pp.stream == before + RenderAll(items[..i], pp.indent) && pp.indent == old(pp.indent)
    {
      TypeSnoc(items, i, EnumItem(enums[i]), pp.indent);
      ToCxxEnum(pp, enums[i]);
    }
    assert items[..|enums|] == items;
  }

  lemma {:induction false} TypeSnoc(types: seq<Item>, i: nat, item: Item, indent: int)
    requires i < |types| && types[i] == item
    ensures RenderAll(types[..i + 1], indent) == RenderAll(types[..i], indent) + Render(item, indent)
  {
    assert types[..i + 1] == types[..i] + [item];
    RenderSnoc(types[..i], item, indent);
  }

  method PrintStatics(pp: PrettyPrinter)
    modifies pp`stream
    ensures pp.stream == old(pp.stream) + RenderAll(STATICS, pp.indent)
  {
    PrintLeaves(pp, STATICS);
  }

  /** Everything behind the nested structs. */
  method PrintRest(pp: PrettyPrinter, m: Message, ghost nested: seq<Item>, ghost base: int, ghost before: seq<Line>)
    requires Valid(m) && pp.indent == base + 4
    requires pp.stream == before + [Line(base, Head(StructKeyword(m.aligned), m.name)), Line(base, Open)]
                          + RenderAll(EnumItems(m.enums), base + 4) + RenderAll(nested, base + 4)
    modifies pp
    ensures pp.stream == before + Render(Block(StructKeyword(m.aligned), m.name, StructBody(m, nested), ""), base)
    ensures pp.indent == base
  {
    PrintFields(pp, m);
    PrintStatics(pp);
    pp.End("");
    StructLines(before, base, StructKeyword(m.aligned), m.name, EnumItems(m.enums), nested,
                RunItems(Slots(m), MemberName, 0), STATICS);
  }

  lemma {:induction false} StructLines(before: seq<Line>, indent: int, k: string, n: string,
                                       enums: seq<Item>, nested: seq<Item>, mid: seq<Item>, post: seq<Item>)
    ensures before + [Line(indent, Head(k, n)), Line(indent, Open)] + RenderAll(enums, indent + 4) + RenderAll(nested, indent + 4)
            + RenderAll(mid, indent + 4) + RenderAll(post, indent + 4) + [Line(indent, Close("")), Line(0, Blank)]
         == before + Render(Block(k, n, Body(enums + nested, mid, post), ""), indent)
  {
    RenderAllConcat(enums + nested + mid, post, indent + 4);
    RenderAllConcat(enums + nested, mid, indent + 4);
    RenderAllConcat(enums, nested, indent + 4);
    BlockLines(before, indent, k, n, Body(enums + nested, mid, post), "");
    Inside(before + [Line(indent, Head(k, n)), Line(indent, Open)], RenderAll(enums, indent + 4), RenderAll(nested, indent + 4),
           RenderAll(mid, indent + 4), RenderAll(post, indent + 4));
  }

  lemma {:induction false} Inside(before: seq<Line>, a: seq<Line>, b: seq<Line>, c: seq<Line>, d: seq<Line>)
    ensures before + a + b + c + d == before + (a + b + c + d)
  {
  }

  /** to_cxx_struct prints the struct item of the message and leaves the indentation as
      it was. */
  method ToCxxStruct(pp: PrettyPrinter, m: Message, ghost item: Item)
    requires Valid(m) && item == StructItem(m)
    modifies pp
    ensures pp.stream == old(pp.stream) + Render(item, pp.indent) && pp.indent == old(pp.indent)
    decreases m, 1
  {
    ghost var before, base, nested := pp.stream, pp.indent, NestedStructs(m);
    pp.Begin(StructKeyword(m.aligned), m.name);
    PrintEnums(pp, m.enums);
    PrintNested(pp, m, nested);
    PrintRest(pp, m, nested, base, before);
  }

  lemma {:induction false} NextLines(before: seq<Line>, items: seq<Item>, i: nat, indent: int)
    requires i < |items|
    ensures before + RenderAll(items[..i], indent) + Render(items[i], indent) == before + RenderAll(items[..i + 1], indent)
  {
    TypeSnoc(items, i, items[i], indent);
  }

  /** The nested structs, each as a whole. */
  method PrintNested(pp: PrettyPrinter, m: Message, ghost items: seq<Item>)
    requires Valid(m) && items == NestedStructs(m)
    modifies pp
    ensures pp.stream == old(pp.stream) + RenderAll(items, pp.indent) && pp.indent == old(pp.indent)
    decreases m, 0
  {
    ghost var before, indent := pp.stream, pp.indent;
    for i := 0 to |m.nested|
      invariant pp.stream == before + RenderAll(items[..i], indent) && pp.indent == indent
    {
      NextLines(before, items, i, indent);
      ToCxxStruct(pp, m.nested[i], items[i]);
    }
    assert items[..|m.nested|] == items;
  }
}
