/** The field descriptors of engine/ddf/src/ddfc.py: to_cxx_descriptor names, for every
    message at any depth, the C++ type and a member path for offsetof. They are compared
    here with the struct that DdfStruct prints. */
module DdfDescriptor {
  import opened Basics
  import opened CxxText
  import opened CxxLayout
  import opened DdfStruct
  import opened CxxNames
  import NameCase

  // ---- the printed struct can be read back

  lemma {:induction false} ProperConcat(a: seq<Item>, b: seq<Item>)
    requires Proper(a) && Proper(b)
    ensures Proper(a + b)
  {
  }

  lemma {:induction false} FieldProper(f: Field, column: nat)
    requires TypeLength(f) <= column
    ensures Proper([FieldItem(f, column)])
  {
    if IsArray(f) {
      assert Proper(Accessors(f));
    }
  }

  lemma {:induction false} ItemsProper(slots: seq<Slot>)
    requires forall j :: 0 <= j < |slots| ==> Proper([slots[j].item])
    ensures Proper(Items(slots))
  {
    forall j | 0 <= j < |slots|
      ensures Proper([Items(slots)[j]])
    {
    }
    EachProper(Items(slots));
  }

  lemma {:induction false} EachProper(items: seq<Item>)
    requires forall j :: 0 <= j < |items| ==> Proper([items[j]])
    ensures Proper(items)
  {
    if items != [] {
      EachProper(items[1..]);
      ProperConcat([items[0]], items[1..]);
      assert [items[0]] + items[1..] == items;
    }
  }

  lemma {:induction false} RunProper(slots: seq<Slot>, nm: Naming, a: nat)
    requires a < |slots| && forall j :: 0 <= j < |slots| ==> Proper([slots[j].item])
    ensures Proper([RunItem(slots, nm, a)])
  {
    if slots[a].scope.Some? {
      ItemsProper(slots[a..RunEnd(slots, a)]);
    }
  }

  lemma {:induction false} RunsProper(slots: seq<Slot>, nm: Naming, a: nat)
    requires a <= |slots| && forall j :: 0 <= j < |slots| ==> Proper([slots[j].item])
    ensures Proper(RunItems(slots, nm, a))
    decreases |slots| - a
  {
    if a < |slots| {
      RunProper(slots, nm, a);
      RunsProper(slots, nm, RunEnd(slots, a));
      ProperConcat([RunItem(slots, nm, a)], RunItems(slots, nm, RunEnd(slots, a)));
    }
  }

  lemma {:induction false} FieldsProper(m: Message)
    requires Valid(m)
    ensures Proper(RunItems(Slots(m), MemberName, 0))
  {
    forall j | 0 <= j < |Slots(m)|
      ensures Proper([Slots(m)[j].item])
    {
      FieldProper(m.fields[j], Column(m.fields));
    }
    RunsProper(Slots(m), MemberName, 0);
  }

  lemma {:induction false} EnumsProper(enums: seq<EnumType>)
    ensures Proper(EnumItems(enums))
  {
    forall i | 0 <= i < |enums|
      ensures Proper([EnumItems(enums)[i]])
    {
      assert Proper(EnumValues(enums[i].values, EnumColumn(enums[i].values)));
    }
    EachProper(EnumItems(enums));
  }

  lemma {:induction false} BlockProper(k: string, n: string, items: seq<Item>, member: string)
    requires Proper(items)
    ensures Proper([Block(k, n, items, member)])
  {
  }

  lemma {:induction false} StructProper(m: Message)
    requires Valid(m)
    ensures Proper([StructItem(m)])
    decreases m
  {
    forall i | 0 <= i < |m.nested|
      ensures Proper([NestedStructs(m)[i]])
    {
      StructProper(m.nested[i]);
    }
    EachProper(NestedStructs(m));
    EnumsProper(m.enums);
    FieldsProper(m);
    BodyProper(EnumItems(m.enums), NestedStructs(m), RunItems(Slots(m), MemberName, 0));
    BlockProper(StructKeyword(m.aligned), m.name, StructBody(m, NestedStructs(m)), "");
  }

  lemma {:induction false} BodyProper(enums: seq<Item>, nested: seq<Item>, mid: seq<Item>)
    requires Proper(enums) && Proper(nested) && Proper(mid)
    ensures Proper(Body(enums + nested, mid, STATICS))
  {
    assert Proper(STATICS);
    ProperConcat(enums, nested);
    ProperConcat(enums + nested, mid);
    ProperConcat(enums + nested + mid, STATICS);
  }

  /** The lines of a struct, read back, are that struct: every brace is matched. */
  lemma {:induction false} StructReadsBack(m: Message, indent: int)
    requires Valid(m)
    ensures Parse(Texts(Render(StructItem(m), indent))) == Parsed([StructItem(m)], [])
  {
    StructProper(m);
    ParseRender(StructItem(m), indent, []);
    assert Texts(Render(StructItem(m), indent)) + [] == Texts(Render(StructItem(m), indent));
  }

  // ---- the descriptors

  /** A row of the table of fields: for a message type the descriptor it refers to, and
      DDF_OFFSET_OF(owner, path). */
  datatype FieldEntry = FieldEntry(name: string, oneOfIndex: nat, message: Option<string>, owner: string, path: seq<string>)

  datatype Descriptor = Descriptor(symbol: string, owner: string, fields: seq<FieldEntry>)

  function OneOfIndex(f: Field): nat { if f.oneof.Some? then f.oneof.value + 1 else 0 }

  function MessageReference(f: Field): Option<string> {
    if f.kind.MessageKind? then Some(DescriptorReference(f.typeName)) else None
  }

  /** The entry of field j as the struct calls for it. */
  function Entry(m: Message, owner: string, j: nat): FieldEntry
    requires Valid(m) && j < |m.fields|
  {
    FieldEntry(m.fields[j].name, OneOfIndex(m.fields[j]), MessageReference(m.fields[j]), owner, PathTo(Slots(m), MemberName, j))
  }

  function Entries(m: Message, owner: string): (entries: seq<FieldEntry>)
    requires Valid(m)
    ensures |entries| == |m.fields| && forall j :: 0 <= j < |entries| ==> entries[j] == Entry(m, owner, j)
  {
    seq(|m.fields|, j requires 0 <= j < |m.fields| => Entry(m, owner, j))
  }

  /** One round of the loop over the fields. */
  method NextEntry(m: Message, owner: string, i: nat, scope: Option<string>, ghost expected: FieldEntry)
    returns (scope': Option<string>, entry: FieldEntry)
    requires Valid(m) && i < |m.fields| && expected == Entry(m, owner, i)
    ensures entry == expected
  {
    var f := m.fields[i];
    var oneOfIndex := 0;
    scope' := scope;
    if f.oneof.Some? {
      var decl := m.oneofs[f.oneof.value];
      oneOfIndex := f.oneof.value + 1;
      if scope.None? || scope.value != decl {
        scope' := Some(decl);
      }
    } else if scope.Some? {
      scope' := None;
    }
    var message := if f.kind.MessageKind? then Some(DescriptorReference(f.typeName)) else None;
    var scopeNames := if scope'.Some? then [MemberName(scope'.value)] else [];
    SlotPath(m, i);
    entry := FieldEntry(f.name, oneOfIndex, message, owner, scopeNames + [MemberName(f.name)]);
  }

  /** The table of fields, built with a scope variable of its own. */
  method FieldEntries(m: Message, owner: string, ghost entries: seq<FieldEntry>) returns (lst: seq<FieldEntry>)
    requires Valid(m) && entries == Entries(m, owner)
    ensures lst == entries
  {
    var scope: Option<string> := None;
    lst := [];
    for i := 0 to |m.fields|
      invariant lst == entries[..i]
    {
      var entry;
      scope, entry := NextEntry(m, owner, i, scope, entries[i]);
      lst := Snoc(entries, i, lst, entry);
    }
    AllTaken(entries, lst);
  }

  /** lst.append(entry) */
  method Snoc(ghost entries: seq<FieldEntry>, ghost i: nat, lst: seq<FieldEntry>, entry: FieldEntry) returns (lst': seq<FieldEntry>)
    requires i < |entries| && lst == entries[..i] && entry == entries[i]
    ensures lst' == entries[..i + 1]
  {
    lst' := lst + [entry];
  }

  lemma {:induction false} AllTaken(entries: seq<FieldEntry>, lst: seq<FieldEntry>)
    requires lst == entries[..|entries|]
    ensures lst == entries
  {
  }

  lemma {:induction false} SlotPath(m: Message, j: nat)
    requires Valid(m) && j < |m.fields|
    ensures PathTo(Slots(m), MemberName, j)
         == (if ScopeOf(m, j).Some? then [MemberName(ScopeOf(m, j).value)] else []) + [MemberName(m.fields[j].name)]
  {
  }

  function DescriptorOf(m: Message, namespaces: seq<string>): Descriptor
    requires Valid(m)
  {
    Descriptor(DescriptorSymbol(namespaces, m.name), OwnerText(namespaces, m.name), Entries(m, OwnerText(namespaces, m.name)))
  }

  /** Descriptors of a message and everything nested in it, inner ones first. */
  function Descriptors(m: Message, namespaces: seq<string>): seq<Descriptor>
    requires Valid(m)
    decreases m, 1, 0
  {
    NestedDescriptors(m, namespaces + [m.name], |m.nested|) + [DescriptorOf(m, namespaces)]
  }

  function NestedDescriptors(m: Message, namespaces: seq<string>, n: nat): seq<Descriptor>
    requires Valid(m) && n <= |m.nested|
    decreases m, 0, n
  {
    if n == 0 then [] else NestedDescriptors(m, namespaces, n - 1) + Descriptors(m.nested[n - 1], namespaces)
  }

  method ToCxxDescriptor(m: Message, namespaces: seq<string>) returns (ds: seq<Descriptor>)
    requires Valid(m)
    ensures ds == Descriptors(m, namespaces)
    decreases m
  {
    ds := [];
    for i := 0 to |m.nested|
      invariant ds == NestedDescriptors(m, namespaces + [m.name], i)
    {
      var nested := ToCxxDescriptor(m.nested[i], namespaces + [m.name]);
      ds := ds + nested;
    }
    var owner := OwnerText(namespaces, m.name);
    var entries := FieldEntries(m, owner, Entries(m, owner));
    ds := ds + [Descriptor(DescriptorSymbol(namespaces, m.name), owner, entries)];
  }

  // ---- finding the messages

  /** `node` is m or lies below it, at this path of message names. */
  ghost predicate Within(m: Message, node: Message, path: seq<string>)
    decreases path
  {
    && path != [] && path[0] == m.name
    && (if |path| == 1 then node == m
        else exists i :: 0 <= i < |m.nested| && Within(m.nested[i], node, path[1..]))
  }

  /** The descriptor of the message at this path. */
  ghost predicate Describes(d: Descriptor, namespaces: seq<string>, node: Message, path: seq<string>) {
    && path != [] && path[|path| - 1] == node.name && Valid(node)
    && d == DescriptorOf(node, namespaces + path[..|path| - 1])
  }

  lemma {:induction false} NestedDescriptorFrom(m: Message, namespaces: seq<string>, n: nat, d: Descriptor) returns (i: nat)
    requires Valid(m) && n <= |m.nested| && d in NestedDescriptors(m, namespaces, n)
    ensures i < n && d in Descriptors(m.nested[i], namespaces)
    decreases n
  {
    if d in NestedDescriptors(m, namespaces, n - 1) {
      i := NestedDescriptorFrom(m, namespaces, n - 1, d);
    } else {
      i := n - 1;
    }
  }

  lemma {:induction false} NestedDescriptorThere(m: Message, namespaces: seq<string>, n: nat, i: nat, d: Descriptor)
    requires Valid(m) && i < n <= |m.nested| && d in Descriptors(m.nested[i], namespaces)
    ensures d in NestedDescriptors(m, namespaces, n)
    decreases n
  {
    if i < n - 1 {
      NestedDescriptorThere(m, namespaces, n - 1, i, d);
    }
  }

  lemma {:induction false} DescribesBelow(d: Descriptor, namespaces: seq<string>, node: Message, name: string, below: seq<string>)
    requires below != []
    ensures Describes(d, namespaces + [name], node, below) <==> Describes(d, namespaces, node, [name] + below)
  {
    var path := [name] + below;
    assert path[|path| - 1] == below[|below| - 1];
    assert namespaces + path[..|path| - 1] == namespaces + [name] + below[..|below| - 1];
  }

  /** Every descriptor describes a message of the tree. */
  lemma {:induction false} DescriptorHasMessage(m: Message, namespaces: seq<string>, d: Descriptor)
    returns (node: Message, path: seq<string>)
    requires Valid(m) && d in Descriptors(m, namespaces)
    ensures Within(m, node, path) && Describes(d, namespaces, node, path)
    decreases m
  {
    if d == DescriptorOf(m, namespaces) {
      node, path := m, [m.name];
      assert namespaces + path[..0] == namespaces;
    } else {
      var i := NestedDescriptorFrom(m, namespaces + [m.name], |m.nested|, d);
      var below;
      node, below := DescriptorHasMessage(m.nested[i], namespaces + [m.name], d);
      path := [m.name] + below;
      assert path[1..] == below;
      DescribesBelow(d, namespaces, node, m.name, below);
    }
  }

  /** Every message of the tree has its descriptor. */
  lemma {:induction false} MessageHasDescriptor(m: Message, namespaces: seq<string>, node: Message, path: seq<string>)
    requires Valid(m) && Within(m, node, path)
    ensures Valid(node) && DescriptorOf(node, namespaces + path[..|path| - 1]) in Descriptors(m, namespaces)
    decreases path
  {
    if |path| == 1 {
      assert namespaces + path[..0] == namespaces;
    } else {
      var i :| 0 <= i < |m.nested| && Within(m.nested[i], node, path[1..]);
      MessageHasDescriptor(m.nested[i], namespaces + [m.name], node, path[1..]);
      var d := DescriptorOf(node, namespaces + [m.name] + path[1..][..|path| - 2]);
      assert namespaces + [m.name] + path[1..][..|path| - 2] == namespaces + path[..|path| - 1];
      NestedDescriptorThere(m, namespaces + [m.name], |m.nested|, i, d);
    }
  }

  // ---- the struct a descriptor is about

  /** Types declared side by side have different names. */
  ghost predicate TypesDistinct(enums: seq<EnumType>, ms: seq<Message>) {
    && (forall i :: 0 <= i < |enums| ==> enums[i].name != "")
    && (forall i :: 0 <= i < |ms| ==> ms[i].name != "")
    && (forall i, j :: 0 <= i < j < |ms| ==> ms[i].name != ms[j].name)
    && (forall i, j :: 0 <= i < |enums| && 0 <= j < |ms| ==> enums[i].name != ms[j].name)
  }

  /** Types have different names at each level, and so have members. */
  ghost predicate WellNamed(m: Message)
    requires Valid(m)
    decreases m
  {
    && TypesDistinct(m.enums, m.nested)
    && Unambiguous(Slots(m), MemberName, STATICS)
    && forall i :: 0 <= i < |m.nested| ==> WellNamed(m.nested[i])
  }

  /** Nothing printed for a field defines a type. */
  lemma {:induction false} RunsDefineNothing(m: Message, name: string, p: nat)
    requires Valid(m) && name != "" && p < |RunItems(Slots(m), MemberName, 0)|
    ensures !IsDefinition(RunItems(Slots(m), MemberName, 0)[p], name)
  {
    RunItemsAt(Slots(m), MemberName, 0);
    var a := Runs(Slots(m), 0)[p];
    if Slots(m)[a].scope.None? {
      assert Slots(m)[a].item == FieldItem(m.fields[a], Column(m.fields));
    }
  }

  /** The items define types with the names of the messages. */
  ghost predicate AreDefinitions(structs: seq<Item>, ms: seq<Message>) {
    && |structs| == |ms|
    && forall j :: 0 <= j < |ms| ==> structs[j].Block? && structs[j].name == ms[j].name && structs[j].member == ""
  }

  ghost predicate DefinesNone(items: seq<Item>, name: string) {
    forall j :: 0 <= j < |items| ==> !IsDefinition(items[j], name)
  }

  lemma {:induction false} NestedAreDefinitions(m: Message)
    requires Valid(m)
    ensures AreDefinitions(NestedStructs(m), m.nested)
  {
  }

  lemma {:induction false} DefinedOnce(enums: seq<EnumType>, ms: seq<Message>, structs: seq<Item>, rest: seq<Item>, i: nat)
    requires TypesDistinct(enums, ms) && i < |ms|
    requires AreDefinitions(structs, ms)
    requires DefinesNone(rest, ms[i].name)
    ensures OnlyDefinedAt(EnumItems(enums) + structs + rest, ms[i].name, |enums| + i)
  {
    var items, at := EnumItems(enums) + structs + rest, |enums| + i;
    assert items[at] == structs[i];
    forall j | 0 <= j < |items| && IsDefinition(items[j], ms[i].name)
      ensures j == at
    {
      DefinedWhere(enums, ms, structs, rest, i, j);
    }
  }

  lemma {:induction false} DefinedWhere(enums: seq<EnumType>, ms: seq<Message>, structs: seq<Item>, rest: seq<Item>, i: nat, j: nat)
    requires TypesDistinct(enums, ms) && i < |ms| && j < |enums| + |ms| + |rest|
    requires AreDefinitions(structs, ms)
    requires DefinesNone(rest, ms[i].name)
    requires IsDefinition((EnumItems(enums) + structs + rest)[j], ms[i].name)
    ensures j == |enums| + i
  {
    if |enums| <= j < |enums| + |ms| {
      assert (EnumItems(enums) + structs + rest)[j] == structs[j - |enums|];
    }
  }

  lemma {:induction false} RestDefinesNothing(m: Message, mid: seq<Item>, name: string)
    requires Valid(m) && name != "" && mid == RunItems(Slots(m), MemberName, 0)
    ensures DefinesNone(mid + STATICS, name)
  {
    forall p | 0 <= p < |mid|
      ensures !IsDefinition(mid[p], name)
    {
      RunsDefineNothing(m, name, p);
    }
  }

  lemma {:induction false} NestedDefinedOnce(m: Message, nested: seq<Item>, i: nat)
    requires Valid(m) && TypesDistinct(m.enums, m.nested) && i < |m.nested| && AreDefinitions(nested, m.nested)
    ensures OnlyDefinedAt(StructBody(m, nested), m.nested[i].name, |m.enums| + i)
  {
    var mid := RunItems(Slots(m), MemberName, 0);
    RestDefinesNothing(m, mid, m.nested[i].name);
    DefinedOnce(m.enums, m.nested, nested, mid + STATICS, i);
    Regrouped(EnumItems(m.enums), nested, mid);
  }

  lemma {:induction false} NestedAt(m: Message, nested: seq<Item>, i: nat)
    requires Valid(m) && i < |m.nested| && nested == NestedStructs(m)
    ensures |StructBody(m, nested)| > |m.enums| + i && StructBody(m, nested)[|m.enums| + i] == StructItem(m.nested[i])
  {
    var pre := EnumItems(m.enums) + nested;
    assert pre[|m.enums| + i] == nested[i];
  }

  lemma {:induction false} Regrouped(enums: seq<Item>, nested: seq<Item>, mid: seq<Item>)
    ensures Body(enums + nested, mid, STATICS) == enums + nested + (mid + STATICS)
  {
  }

  lemma {:induction false} NamedFrom(items: seq<Item>, i: nat, path: seq<string>, body: seq<Item>)
    requires path != [] && OnlyDefinedAt(items, path[0], i)
    requires if |path| == 1 then items[i].items == body else StructNamed(items[i].items, path[1..], body)
    ensures StructNamed(items, path, body)
  {
  }

  lemma {:induction false} NestedFound(m: Message, body: seq<Item>, i: nat)
    requires Valid(m) && TypesDistinct(m.enums, m.nested) && i < |m.nested| && body == StructBody(m, NestedStructs(m))
    ensures OnlyDefinedAt(body, m.nested[i].name, |m.enums| + i) && body[|m.enums| + i] == StructItem(m.nested[i])
  {
    NestedAreDefinitions(m);
    NestedDefinedOnce(m, NestedStructs(m), i);
    NestedAt(m, NestedStructs(m), i);
  }

  lemma {:induction false} WithinWellNamed(m: Message, node: Message, path: seq<string>)
    requires Valid(m) && WellNamed(m) && Within(m, node, path)
    ensures Valid(node) && WellNamed(node)
    decreases path
  {
    if |path| > 1 {
      var i :| 0 <= i < |m.nested| && Within(m.nested[i], node, path[1..]);
      WithinWellNamed(m.nested[i], node, path[1..]);
    }
  }

  /** One step down the path of a message. */
  lemma {:induction false} StepInto(m: Message, node: Message, path: seq<string>, body: seq<Item>) returns (at: nat, child: Message)
    requires Valid(m) && WellNamed(m) && Within(m, node, path) && |path| > 1 && body == StructBody(m, NestedStructs(m))
    ensures Valid(child) && WellNamed(child) && Within(child, node, path[1..])
    ensures OnlyDefinedAt(body, child.name, at) && body[at] == StructItem(child)
  {
    var i :| 0 <= i < |m.nested| && Within(m.nested[i], node, path[1..]);
    NestedFound(m, body, i);
    at, child := |m.enums| + i, m.nested[i];
  }

  /** The path of a message names the struct printed for it. */
  lemma {:induction false} MessageStructNamed(items: seq<Item>, at: nat, m: Message, node: Message, path: seq<string>, body: seq<Item>)
    requires Valid(m) && WellNamed(m) && Within(m, node, path) && Valid(node)
    requires OnlyDefinedAt(items, m.name, at) && items[at] == StructItem(m)
    requires body == StructBody(node, NestedStructs(node))
    ensures StructNamed(items, path, body)
    decreases path
  {
    StructItemHolds(m, items[at]);
    if |path| > 1 {
      var at', child := StepInto(m, node, path, items[at].items);
      MessageStructNamed(items[at].items, at', child, node, path[1..], body);
    }
    NamedFrom(items, at, path, body);
  }

  lemma {:induction false} StructItemHolds(m: Message, item: Item)
    requires Valid(m) && item == StructItem(m)
    ensures item.Block? && item.items == StructBody(m, NestedStructs(m))
  {
  }

  // ---- the two sides agree

  lemma {:induction false} MembersNamed(m: Message)
    requires Valid(m)
    ensures Named(Slots(m), MemberName)
  {
    forall j | 0 <= j < |Slots(m)|
      ensures Declares(Slots(m)[j].item) != "" && Top(Slots(m), MemberName, j) != ""
    {
      assert Declares(Slots(m)[j].item) == MemberName(m.fields[j].name);
    }
  }

  /** Entry j is that of field j, and its path leads to this field. */
  ghost predicate EntryLeads(body: seq<Item>, entry: FieldEntry, f: Field, column: nat)
    requires TypeLength(f) <= column
  {
    entry.name == f.name && ResolvesTo(body, entry.path, FieldItem(f, column))
  }

  /** The entries lead to the fields, one each and in order. */
  ghost predicate EntriesLead(entries: seq<FieldEntry>, m: Message)
    requires Valid(m)
  {
    && |entries| == |m.fields|
    && forall j :: 0 <= j < |m.fields| ==>
         EntryLeads(StructBody(m, NestedStructs(m)), entries[j], m.fields[j], Column(m.fields))
  }

  lemma {:induction false} EntryLeadsMeans(m: Message, owner: string, body: seq<Item>, j: nat)
    requires Valid(m) && j < |m.fields|
    ensures EntryLeads(body, Entries(m, owner)[j], m.fields[j], Column(m.fields))
       <==> ResolvesTo(body, PathTo(Slots(m), MemberName, j), Slots(m)[j].item)
  {
    assert Entries(m, owner)[j] == Entry(m, owner, j);
  }

  lemma {:induction false} EntriesLeadMeans(m: Message, owner: string)
    requires Valid(m)
    ensures EntriesLead(Entries(m, owner), m)
       <==> AllResolve(Slots(m), MemberName, EnumItems(m.enums) + NestedStructs(m), STATICS)
  {
    var body := StructBody(m, NestedStructs(m));
    forall j | 0 <= j < |m.fields|
      ensures EntryLeads(body, Entries(m, owner)[j], m.fields[j], Column(m.fields))
         <==> ResolvesTo(body, PathTo(Slots(m), MemberName, j), Slots(m)[j].item)
    {
      EntryLeadsMeans(m, owner, body, j);
    }
  }

  lemma {:induction false} TypesDeclareNothing(m: Message, i: nat)
    requires Valid(m) && i < |m.enums| + |m.nested|
    ensures Declares((EnumItems(m.enums) + NestedStructs(m))[i]) == ""
  {
    if i >= |m.enums| {
      assert (EnumItems(m.enums) + NestedStructs(m))[i] == StructItem(m.nested[i - |m.enums|]);
    }
  }

  /** The paths in a descriptor lead, in the struct that is printed, each to its own field
      and to nothing else, exactly if no member name is used twice: neither in the
      struct, where a oneof counts once for each stretch of its fields, nor in a union. */
  lemma {:induction false} EntriesLeadIff(m: Message, owner: string)
    requires Valid(m)
    ensures EntriesLead(Entries(m, owner), m) <==> Unambiguous(Slots(m), MemberName, STATICS)
  {
    MembersNamed(m);
    forall i | 0 <= i < |EnumItems(m.enums) + NestedStructs(m)|
      ensures Declares((EnumItems(m.enums) + NestedStructs(m))[i]) == ""
    {
      TypesDeclareNothing(m, i);
    }
    EntriesLeadMeans(m, owner);
    ResolvesIffUnambiguous(Slots(m), MemberName, EnumItems(m.enums) + NestedStructs(m), STATICS);
  }

  // ---- a whole file

  datatype File = File(package: string, enums: seq<EnumType>, messages: seq<Message>)

  ghost predicate FileValid(file: File) {
    forall i :: 0 <= i < |file.messages| ==> Valid(file.messages[i])
  }

  function Structs(ms: seq<Message>): (items: seq<Item>)
    requires forall i :: 0 <= i < |ms| ==> Valid(ms[i])
    ensures |items| == |ms| && forall i :: 0 <= i < |ms| ==> items[i] == StructItem(ms[i])
  {
    seq(|ms|, i requires 0 <= i < |ms| => StructItem(ms[i]))
  }

  function FileItem(file: File): Item
    requires FileValid(file)
  {
    Block("namespace", file.package, EnumItems(file.enums) + Structs(file.messages), "")
  }

  /** A message with others inside has no underscore in its name. */
  ghost predicate PlainOuter(m: Message) {
    && (m.nested != [] ==> '_' !in m.name)
    && forall i :: 0 <= i < |m.nested| ==> PlainOuter(m.nested[i])
  }

  ghost predicate FileWellNamed(file: File)
    requires FileValid(file)
  {
    && '_' !in file.package && TypesDistinct(file.enums, file.messages)
    && forall i :: 0 <= i < |file.messages| ==> WellNamed(file.messages[i]) && PlainOuter(file.messages[i])
  }

  lemma {:induction false} OuterPlain(m: Message, node: Message, path: seq<string>)
    requires Within(m, node, path) && PlainOuter(m)
    ensures NoneHas(path[..|path| - 1], '_')
    decreases path
  {
    if |path| > 1 {
      var i :| 0 <= i < |m.nested| && Within(m.nested[i], node, path[1..]);
      OuterPlain(m.nested[i], node, path[1..]);
      assert path[..|path| - 1] == [m.name] + path[1..][..|path| - 2];
    }
  }

  /** The type a descriptor asks the compiler about is the message's own. */
  lemma {:induction false} OwnerIsPath(package: string, m: Message, node: Message, path: seq<string>, d: Descriptor)
    requires '_' !in package && PlainOuter(m) && Within(m, node, path) && Describes(d, [package], node, path)
    ensures d.owner == Join([package] + path, "::")
  {
    OuterPlain(m, node, path);
    var outer := [package] + path[..|path| - 1];
    OwnerTextIff(outer, node.name);
    assert outer + [node.name] == [package] + path;
  }

  lemma {:induction false} FileStructsDefine(file: File)
    requires FileValid(file)
    ensures AreDefinitions(Structs(file.messages), file.messages)
  {
  }

  lemma {:induction false} InNamespace(package: string, items: seq<Item>, path: seq<string>, body: seq<Item>)
    requires StructNamed(items, path, body)
    ensures StructNamed([Block("namespace", package, items, "")], [package] + path, body)
  {
    assert ([package] + path)[1..] == path;
    NamedFrom([Block("namespace", package, items, "")], 0, [package] + path, body);
  }

  lemma {:induction false} WellNamedLeads(node: Message, namespaces: seq<string>, d: Descriptor)
    requires Valid(node) && WellNamed(node) && d == DescriptorOf(node, namespaces)
    ensures EntriesLead(d.fields, node) && OwnedBy(d.fields, d.owner)
  {
    EntriesLeadIff(node, OwnerText(namespaces, node.name));
    EntriesOwned(node, OwnerText(namespaces, node.name));
  }

  /** All offsets are taken in one type. */
  ghost predicate OwnedBy(entries: seq<FieldEntry>, owner: string) {
    forall j :: 0 <= j < |entries| ==> entries[j].owner == owner
  }

  lemma {:induction false} EntriesOwned(m: Message, owner: string)
    requires Valid(m)
    ensures OwnedBy(Entries(m, owner), owner)
  {
  }

  /** In a well-named file every descriptor is about one message of the file: the type it
      names is the struct printed for that message, and its paths lead there to the
      fields of the message, to each once and in order. */
  lemma {:induction false} DescriptorAgrees(file: File, i: nat, d: Descriptor) returns (node: Message, path: seq<string>)
    requires FileValid(file) && FileWellNamed(file)
    requires i < |file.messages| && d in Descriptors(file.messages[i], [file.package])
    ensures Within(file.messages[i], node, path) && Valid(node)
    ensures d.owner == Join([file.package] + path, "::")
    ensures StructNamed([FileItem(file)], [file.package] + path, StructBody(node, NestedStructs(node)))
    ensures EntriesLead(d.fields, node) && OwnedBy(d.fields, d.owner)
  {
    var m := file.messages[i];
    node, path := DescriptorHasMessage(m, [file.package], d);
    OwnerIsPath(file.package, m, node, path, d);
    WithinWellNamed(m, node, path);
    WellNamedLeads(node, [file.package] + path[..|path| - 1], d);
    PathNamesStruct(file, i, m, node, path, StructBody(node, NestedStructs(node)));
  }

  /** In a file, a path of message names behind the package names the struct printed for
      that message. */
  lemma {:induction false} PathNamesStruct(file: File, i: nat, m: Message, node: Message, path: seq<string>, body: seq<Item>)
    requires FileValid(file) && TypesDistinct(file.enums, file.messages) && i < |file.messages| && m == file.messages[i]
    requires Valid(m) && WellNamed(m) && Within(m, node, path) && Valid(node) && body == StructBody(node, NestedStructs(node))
    ensures StructNamed([FileItem(file)], [file.package] + path, body)
  {
    var structs := Structs(file.messages);
    FileStructsDefine(file);
    FileStructFound(file.enums, file.messages, structs, i);
    assert structs[i] == StructItem(m);
    PathNamesStructIn(EnumItems(file.enums) + structs, |file.enums| + i, file.package, m, node, path, body);
  }

  lemma {:induction false} FileStructFound(enums: seq<EnumType>, ms: seq<Message>, structs: seq<Item>, i: nat)
    requires TypesDistinct(enums, ms) && AreDefinitions(structs, ms) && i < |ms|
    ensures OnlyDefinedAt(EnumItems(enums) + structs, ms[i].name, |enums| + i)
    ensures (EnumItems(enums) + structs)[|enums| + i] == structs[i]
  {
    DefinedOnce(enums, ms, structs, [], i);
    assert EnumItems(enums) + structs + [] == EnumItems(enums) + structs;
  }

  lemma {:induction false} PathNamesStructIn(items: seq<Item>, at: nat, package: string, m: Message, node: Message,
                                             path: seq<string>, body: seq<Item>)
    requires Valid(m) && WellNamed(m) && Within(m, node, path) && Valid(node)
    requires OnlyDefinedAt(items, m.name, at) && items[at] == StructItem(m)
    requires body == StructBody(node, NestedStructs(node))
    ensures StructNamed([Block("namespace", package, items, "")], [package] + path, body)
  {
    MessageStructNamed(items, at, m, node, path, body);
    InNamespace(package, items, path, body);
  }

  // ---- what else an entry says

  lemma {:induction false} EntryIndex(m: Message, owner: string, j: nat)
    requires Valid(m) && j < |m.fields|
    ensures |Entries(m, owner)| == |m.fields|
    ensures StandsFor(Entries(m, owner)[j].oneOfIndex, m.fields[j].oneof)
  {
    assert Entries(m, owner)[j] == Entry(m, owner, j);
  }

  /** The index that stands for a oneof, and for none. */
  ghost predicate StandsFor(index: nat, oneof: Option<nat>) {
    index == match oneof case None => 0 case Some(k) => k + 1
  }

  lemma {:induction false} IndicesTellApart(a: nat, b: nat, x: Option<nat>, y: Option<nat>)
    requires StandsFor(a, x) && StandsFor(b, y)
    ensures (a == 0 <==> x == None) && (x.Some? ==> (a == b <==> y == x))
  {
  }

  /** Oneof indices tell oneofs apart: 0 exactly outside oneofs, and otherwise the same exactly
      for fields of one oneof. */
  lemma {:induction false} OneOfIndices(m: Message, entries: seq<FieldEntry>, owner: string, j: nat, k: nat)
    requires Valid(m) && entries == Entries(m, owner) && j < |entries| && k < |entries|
    ensures |entries| == |m.fields| && (entries[j].oneOfIndex == 0 <==> m.fields[j].oneof == None)
    ensures m.fields[j].oneof.Some? ==> (entries[j].oneOfIndex == entries[k].oneOfIndex <==> m.fields[k].oneof == m.fields[j].oneof)
  {
    EntryIndex(m, owner, j);
    EntryIndex(m, owner, k);
    IndicesTellApart(entries[j].oneOfIndex, entries[k].oneOfIndex, m.fields[j].oneof, m.fields[k].oneof);
  }

  /** The type of a message of the package, as a field names it. */
  function TypeNameOf(package: string, path: seq<string>): string { "." + Join([package] + path, ".") }

  /** Where no name has a dot, the entry of a field refers to the variable of the very message
      its type names: to one that is defined by a descriptor of the file. */
  lemma {:induction false} EntryRefersToType(package: string, m: Message, owner: string, j: nat, target: Message, node: Message, path: seq<string>)
    requires Valid(m) && j < |m.fields| && Valid(target) && Within(target, node, path) && NoneHas([package] + path, '.')
    requires m.fields[j].kind.MessageKind? && m.fields[j].typeName == TypeNameOf(package, path)
    ensures Valid(node) && DescriptorOf(node, [package] + path[..|path| - 1]) in Descriptors(target, [package])
    ensures Entries(m, owner)[j].message == Some(DescriptorOf(node, [package] + path[..|path| - 1]).symbol)
    ensures Entries(m, owner)[j].message == Some(Join([package] + path, "_") + "_DESCRIPTOR")
  {
    MessageHasDescriptor(target, [package], node, path);
    PathEndsIn(target, node, path);
    var outer := [package] + path[..|path| - 1];
    assert outer + [node.name] == [package] + path;
    ReferenceIff(outer, node.name);
    JoinSnoc(outer, node.name, "_");
    assert Entries(m, owner)[j] == Entry(m, owner, j);
  }

  lemma {:induction false} PathEndsIn(m: Message, node: Message, path: seq<string>)
    requires Within(m, node, path)
    ensures path != [] && path[|path| - 1] == node.name
    decreases path
  {
    if |path| > 1 {
      var i :| 0 <= i < |m.nested| && Within(m.nested[i], node, path[1..]);
      PathEndsIn(m.nested[i], node, path[1..]);
    }
  }

  /** A field of any other kind refers to none. */
  lemma {:induction false} OtherEntriesReferToNone(m: Message, owner: string, j: nat)
    requires Valid(m) && j < |m.fields|
    ensures Entries(m, owner)[j].message.None? <==> !m.fields[j].kind.MessageKind?
  {
    assert Entries(m, owner)[j] == Entry(m, owner, j);
  }

  /** How many messages a tree has. */
  function MessageCount(m: Message): nat
    decreases m, 1, 0
  {
    1 + NestedCount(m, |m.nested|)
  }

  function NestedCount(m: Message, n: nat): nat
    requires n <= |m.nested|
    decreases m, 0, n
  {
    if n == 0 then 0 else NestedCount(m, n - 1) + MessageCount(m.nested[n - 1])
  }

  /** There is one descriptor for each message, that of the message itself behind those of
      the messages in it. */
  lemma {:induction false} OneDescriptorEach(m: Message, namespaces: seq<string>)
    requires Valid(m)
    ensures var ds := Descriptors(m, namespaces);
            |ds| == MessageCount(m) && ds[|ds| - 1] == DescriptorOf(m, namespaces)
    decreases m, 1, 0
  {
    OneDescriptorEachNested(m, namespaces + [m.name], |m.nested|);
  }

  lemma {:induction false} OneDescriptorEachNested(m: Message, namespaces: seq<string>, n: nat)
    requires Valid(m) && n <= |m.nested|
    ensures |NestedDescriptors(m, namespaces, n)| == NestedCount(m, n)
    decreases m, 0, n
  {
    if n > 0 {
      OneDescriptorEachNested(m, namespaces, n - 1);
      OneDescriptorEach(m.nested[n - 1], namespaces);
    }
  }

  /** A field name that meets every rule of protobuf but breaks the agreement: its
      member name is that of the static hash member. */
  lemma {:induction false} HashFieldBreaks(m: Message, j: nat, owner: string)
    requires Valid(m) && j < |m.fields| && m.fields[j].name == "d_d_f_hash" && m.fields[j].oneof.None?
    ensures !EntriesLead(Entries(m, owner), m)
  {
    CamelOfHash(m.fields[j].name);
    TakenNameBreaks(m, j, owner, 2);
  }

  /** No field outside oneofs may have the name of a static member. */
  lemma {:induction false} TakenNameBreaks(m: Message, j: nat, owner: string, x: nat)
    requires Valid(m) && j < |m.fields| && m.fields[j].oneof.None?
    requires x < |STATICS| && MemberName(m.fields[j].name) == Declares(STATICS[x])
    ensures !EntriesLead(Entries(m, owner), m)
  {
    EntriesLeadIff(m, owner);
    assert Top(Slots(m), MemberName, j) == Declares(STATICS[x]);
  }

  lemma {:induction false} CamelOfHash(name: string)
    requires name == "d_d_f_hash"
    ensures MemberName(name) == HASH_MEMBER
  {
    var d, f, hash := "d", "f", "hash";
    HashParts(name, d, f, hash);
    FourWords(d, d, f, hash);
    HashCapitals(d, f, hash);
  }

  lemma {:induction false} HashParts(name: string, d: string, f: string, hash: string)
    requires name == "d_d_f_hash" && d == "d" && f == "f" && hash == "hash"
    ensures NameCase.Lower(name) == d + ("_" + (d + ("_" + (f + ("_" + hash)))))
    ensures '_' !in d && '_' !in f && '_' !in hash
  {
    NameCase.PlainIsLower(name);
  }

  lemma {:induction false} HashCapitals(d: string, f: string, hash: string)
    requires d == "d" && f == "f" && hash == "hash"
    ensures "m_" + (NameCase.Capitalize(d) + (NameCase.Capitalize(d) + (NameCase.Capitalize(f) + NameCase.Capitalize(hash)))) == HASH_MEMBER
  {
    assert NameCase.Capitalize(hash) == "Hash";
  }

  lemma {:induction false} FourWords(a: string, b: string, c: string, d: string)
    requires '_' !in a && '_' !in b && '_' !in c && '_' !in d
    ensures NameCase.CamelWords(NameCase.Split(a + ("_" + (b + ("_" + (c + ("_" + d)))))), true)
         == NameCase.Capitalize(a) + (NameCase.Capitalize(b) + (NameCase.Capitalize(c) + NameCase.Capitalize(d)))
  {
    FirstWord(a, b + ("_" + (c + ("_" + d))));
    FirstWord(b, c + ("_" + d));
    FirstWord(c, d);
    NameCase.SplitWhole(d);
    assert [d][1..] == [];
    assert NameCase.CamelWords([d], true) == NameCase.Capitalize(d);
  }

  lemma {:induction false} FirstWord(w: string, rest: string)
    requires '_' !in w
    ensures NameCase.CamelWords(NameCase.Split(w + ("_" + rest)), true)
         == NameCase.Capitalize(w) + NameCase.CamelWords(NameCase.Split(rest), true)
  {
    NameCase.SplitFirst(w, rest);
    assert ([w] + NameCase.Split(rest))[1..] == NameCase.Split(rest);
  }
}
