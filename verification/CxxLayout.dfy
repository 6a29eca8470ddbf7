/** How to_cxx_struct of engine/ddf/src/ddfc.py lays fields out: fields outside oneofs
    one by one, and each stretch of fields of one oneof in a union of its own. */
module CxxLayout {
  import opened Basics
  import opened CxxText

  /** A field to be laid out: the oneof it belongs to, and the item that declares it. */
  datatype Slot = Slot(scope: Option<string>, item: Item)

  /** Turns the name of a oneof into the name of its union. */
  type Naming = string -> string

  function Union(items: seq<Item>, member: string): Item {
    Block("union", "", items, member)
  }

  /** End of the stretch from j on whose fields all belong to the oneof `s`. */
  function EndOf(slots: seq<Slot>, s: string, j: nat): (e: nat)
    requires j <= |slots|
    ensures j <= e <= |slots|
    ensures forall i :: j <= i < e ==> slots[i].scope == Some(s)
    ensures e < |slots| ==> slots[e].scope != Some(s)
    decreases |slots| - j
  {
    if j < |slots| && slots[j].scope == Some(s) then EndOf(slots, s, j + 1) else j
  }

  /** End of the run that starts at j: a field outside oneofs is a run by itself. */
  function RunEnd(slots: seq<Slot>, j: nat): (e: nat)
    requires j < |slots|
    ensures j < e <= |slots|
  {
    if slots[j].scope.None? then j + 1 else EndOf(slots, slots[j].scope.value, j + 1)
  }

  function Items(slots: seq<Slot>): seq<Item> {
    seq(|slots|, i requires 0 <= i < |slots| => slots[i].item)
  }

  function RunItem(slots: seq<Slot>, nm: Naming, a: nat): Item
    requires a < |slots|
  {
    if slots[a].scope.None? then slots[a].item
    else Union(Items(slots[a..RunEnd(slots, a)]), nm(slots[a].scope.value))
  }

  /** Where the runs from j on start. */
  function Runs(slots: seq<Slot>, j: nat): (starts: seq<nat>)
    requires j <= |slots|
    ensures forall i :: 0 <= i < |starts| ==> j <= starts[i] < |slots|
    decreases |slots| - j
  {
    if j == |slots| then [] else [j] + Runs(slots, RunEnd(slots, j))
  }

  /** The layout: one item per run. */
  function RunItems(slots: seq<Slot>, nm: Naming, j: nat): seq<Item>
    requires j <= |slots|
    decreases |slots| - j
  {
    if j == |slots| then [] else [RunItem(slots, nm, j)] + RunItems(slots, nm, RunEnd(slots, j))
  }

  // ---- printing a layout from left to right

  /** What the runs say about the fields printed so far: `closed` items are final, and
      in the union of `scope`, if one is open, `open` are its fields so far. */
  ghost predicate Printing(slots: seq<Slot>, nm: Naming, i: nat, scope: Option<string>, closed: seq<Item>, open: seq<Item>) {
    && i <= |slots|
    && if scope.None? then
         open == [] && closed + RunItems(slots, nm, i) == RunItems(slots, nm, 0)
       else
         var e := EndOf(slots, scope.value, i);
         closed + [Union(open + Items(slots[i..e]), nm(scope.value))] + RunItems(slots, nm, e) == RunItems(slots, nm, 0)
  }

  /** The lines printed for it. */
  ghost function SoFar(indent: int, scope: Option<string>, closed: seq<Item>, open: seq<Item>): seq<Line> {
    RenderAll(closed, indent)
    + if scope.None? then []
      else [Line(indent, Head("union", "")), Line(indent, Open)] + RenderAll(open, indent + 4)
  }

  lemma {:induction false} RenderSnoc(items: seq<Item>, item: Item, indent: int)
    ensures RenderAll(items + [item], indent) == RenderAll(items, indent) + Render(item, indent)
  {
    RenderAllConcat(items, [item], indent);
    RenderOne(item, indent);
  }

  lemma {:induction false} CloseUnion(slots: seq<Slot>, nm: Naming, i: nat, s: string, closed: seq<Item>, open: seq<Item>, indent: int)
    requires Printing(slots, nm, i, Some(s), closed, open) && (i < |slots| ==> slots[i].scope != Some(s))
    ensures Printing(slots, nm, i, None, closed + [Union(open, nm(s))], [])
    ensures SoFar(indent, None, closed + [Union(open, nm(s))], [])
         == SoFar(indent, Some(s), closed, open) + [Line(indent, Close(nm(s))), Line(0, Blank)]
  {
    assert open + Items(slots[i..i]) == open;
    RenderSnoc(closed, Union(open, nm(s)), indent);
  }

  lemma {:induction false} OpenUnion(slots: seq<Slot>, nm: Naming, i: nat, s: string, closed: seq<Item>, indent: int)
    requires Printing(slots, nm, i, None, closed, []) && i < |slots| && slots[i].scope == Some(s)
    ensures Printing(slots, nm, i, Some(s), closed, [])
    ensures SoFar(indent, Some(s), closed, [])
         == SoFar(indent, None, closed, []) + [Line(indent, Head("union", "")), Line(indent, Open)]
  {
    var e := EndOf(slots, s, i);
    assert RunEnd(slots, i) == e;
    assert [] + Items(slots[i..e]) == Items(slots[i..e]);
    assert closed + ([RunItem(slots, nm, i)] + RunItems(slots, nm, e)) == closed + [RunItem(slots, nm, i)] + RunItems(slots, nm, e);
  }

  lemma {:induction false} AddOutside(slots: seq<Slot>, nm: Naming, i: nat, closed: seq<Item>, indent: int)
    requires Printing(slots, nm, i, None, closed, []) && i < |slots| && slots[i].scope.None?
    ensures Printing(slots, nm, i + 1, None, closed + [slots[i].item], [])
    ensures SoFar(indent, None, closed + [slots[i].item], []) == SoFar(indent, None, closed, []) + Render(slots[i].item, indent)
  {
    RenderSnoc(closed, slots[i].item, indent);
    SingleRun(slots, nm, i);
    assert closed + ([slots[i].item] + RunItems(slots, nm, i + 1)) == closed + [slots[i].item] + RunItems(slots, nm, i + 1);
  }

  lemma {:induction false} SingleRun(slots: seq<Slot>, nm: Naming, i: nat)
    requires i < |slots| && slots[i].scope.None?
    ensures RunItems(slots, nm, i) == [slots[i].item] + RunItems(slots, nm, i + 1)
  {
  }

  lemma {:induction false} AddInside(slots: seq<Slot>, nm: Naming, i: nat, s: string, closed: seq<Item>, open: seq<Item>, indent: int)
    requires Printing(slots, nm, i, Some(s), closed, open) && i < |slots| && slots[i].scope == Some(s)
    ensures Printing(slots, nm, i + 1, Some(s), closed, open + [slots[i].item])
    ensures SoFar(indent, Some(s), closed, open + [slots[i].item])
         == SoFar(indent, Some(s), closed, open) + Render(slots[i].item, indent + 4)
  {
    var e, item := EndOf(slots, s, i), slots[i].item;
    assert Items(slots[i..e]) == [item] + Items(slots[i + 1..e]);
    assert open + ([item] + Items(slots[i + 1..e])) == open + [item] + Items(slots[i + 1..e]);
    RenderSnoc(open, item, indent + 4);
    Assoc(RenderAll(closed, indent), [Line(indent, Head("union", "")), Line(indent, Open)],
          RenderAll(open, indent + 4), Render(item, indent + 4));
  }

  lemma {:induction false} Assoc(a: seq<Line>, b: seq<Line>, c: seq<Line>, d: seq<Line>)
    ensures a + (b + (c + d)) == a + (b + c) + d
  {
  }

  /** Printing field i, wherever it belongs. */
  lemma {:induction false} AddSlot(slots: seq<Slot>, nm: Naming, i: nat, scope: Option<string>, closed: seq<Item>, open: seq<Item>,
                                   indent: int, before: seq<Line>) returns (closed': seq<Item>, open': seq<Item>)
    requires Printing(slots, nm, i, scope, closed, open) && i < |slots| && slots[i].scope == scope
    ensures Printing(slots, nm, i + 1, scope, closed', open')
    ensures before + SoFar(indent, scope, closed', open')
         == before + SoFar(indent, scope, closed, open) + Render(slots[i].item, indent + if scope.None? then 0 else 4)
  {
    if scope.None? {
      AddOutside(slots, nm, i, closed, indent);
      closed', open' := closed + [slots[i].item], [];
    } else {
      AddInside(slots, nm, i, scope.value, closed, open, indent);
      closed', open' := closed, open + [slots[i].item];
    }
  }

  // ---- finding fields in a layout

  /** The member of the struct that leads to field j: itself, or its oneof's union. */
  function Top(slots: seq<Slot>, nm: Naming, j: nat): string
    requires j < |slots|
  {
    if slots[j].scope.None? then Declares(slots[j].item) else nm(slots[j].scope.value)
  }

  function PathTo(slots: seq<Slot>, nm: Naming, j: nat): seq<string>
    requires j < |slots|
  {
    if slots[j].scope.None? then [Declares(slots[j].item)] else [nm(slots[j].scope.value), Declares(slots[j].item)]
  }

  /** j and k lie in one stretch of one oneof. */
  ghost predicate SameStretch(slots: seq<Slot>, j: nat, k: nat)
    requires j <= k < |slots|
  {
    slots[j].scope.Some? && forall x :: j <= x <= k ==> slots[x].scope == slots[j].scope
  }

  /** Every field and every union used has a name. */
  ghost predicate Named(slots: seq<Slot>, nm: Naming) {
    forall j :: 0 <= j < |slots| ==> Declares(slots[j].item) != "" && Top(slots, nm, j) != ""
  }

  /** The members of the struct and of each union have different names; fields may share
      the name that leads to them only inside one stretch of a oneof. */
  ghost predicate Unambiguous(slots: seq<Slot>, nm: Naming, post: seq<Item>) {
    && (forall j, k :: 0 <= j < k < |slots| && Top(slots, nm, j) == Top(slots, nm, k) ==> SameStretch(slots, j, k))
    && (forall j, k :: 0 <= j < k < |slots| && SameStretch(slots, j, k) ==>
          Declares(slots[j].item) != Declares(slots[k].item))
    && (forall j, p :: 0 <= j < |slots| && 0 <= p < |post| ==> Top(slots, nm, j) != Declares(post[p]))
  }

  lemma {:induction false} RunItemsAt(slots: seq<Slot>, nm: Naming, j: nat)
    requires j <= |slots|
    ensures |RunItems(slots, nm, j)| == |Runs(slots, j)|
    ensures forall p :: 0 <= p < |Runs(slots, j)| ==> RunItems(slots, nm, j)[p] == RunItem(slots, nm, Runs(slots, j)[p])
    decreases |slots| - j
  {
    if j < |slots| {
      RunItemsAt(slots, nm, RunEnd(slots, j));
    }
  }

  ghost predicate InRun(slots: seq<Slot>, p: nat, j: nat) {
    p < |Runs(slots, 0)| && Runs(slots, 0)[p] <= j < RunEnd(slots, Runs(slots, 0)[p])
  }

  lemma {:induction false} RunCovers(slots: seq<Slot>, a: nat, j: nat) returns (p: nat)
    requires a <= j < |slots|
    ensures p < |Runs(slots, a)| && Runs(slots, a)[p] <= j < RunEnd(slots, Runs(slots, a)[p])
    decreases |slots| - a
  {
    if j < RunEnd(slots, a) {
      p := 0;
    } else {
      var q := RunCovers(slots, RunEnd(slots, a), j);
      p := q + 1;
    }
  }

  lemma {:induction false} RunsOrdered(slots: seq<Slot>, a: nat, p: nat, q: nat)
    requires a <= |slots| && p < q < |Runs(slots, a)|
    ensures RunEnd(slots, Runs(slots, a)[p]) <= Runs(slots, a)[q]
    decreases |slots| - a
  {
    if p > 0 {
      RunsOrdered(slots, RunEnd(slots, a), p - 1, q - 1);
    }
  }

  /** Every field lies in exactly one run. */
  lemma {:induction false} OneRun(slots: seq<Slot>, p: nat, q: nat, j: nat)
    requires InRun(slots, p, j) && InRun(slots, q, j)
    ensures p == q
  {
    if p < q {
      RunsOrdered(slots, 0, p, q);
    } else if q < p {
      RunsOrdered(slots, 0, q, p);
    }
  }

  lemma {:induction false} RunIsStretch(slots: seq<Slot>, p: nat, j: nat, k: nat)
    requires InRun(slots, p, j) && InRun(slots, p, k) && j < k
    ensures SameStretch(slots, j, k)
  {
  }

  /** A stretch never crosses the end of a run. */
  lemma {:induction false} StretchIsRun(slots: seq<Slot>, p: nat, j: nat, k: nat)
    requires InRun(slots, p, j) && j <= k < |slots| && SameStretch(slots, j, k)
    ensures InRun(slots, p, k)
  {
  }

  lemma {:induction false} RunDeclares(slots: seq<Slot>, nm: Naming, p: nat, j: nat)
    requires InRun(slots, p, j)
    ensures Declares(RunItem(slots, nm, Runs(slots, 0)[p])) == Top(slots, nm, j)
    ensures slots[j].scope == slots[Runs(slots, 0)[p]].scope
    ensures slots[j].scope.None? ==> j == Runs(slots, 0)[p]
  {
  }

  /** Runs led to by the same name are the same run. */
  lemma {:induction false} SameTopSameRun(slots: seq<Slot>, nm: Naming, post: seq<Item>, p: nat, j: nat, q: nat)
    requires Unambiguous(slots, nm, post) && InRun(slots, p, j) && q < |Runs(slots, 0)|
    requires Declares(RunItem(slots, nm, Runs(slots, 0)[q])) == Top(slots, nm, j)
    ensures p == q
  {
    var k := Runs(slots, 0)[q];
    assert InRun(slots, q, k);
    RunDeclares(slots, nm, q, k);
    if k < j {
      StretchIsRun(slots, q, k, j);
      OneRun(slots, p, q, j);
    } else if j < k {
      StretchIsRun(slots, p, j, k);
      OneRun(slots, p, q, k);
    } else {
      OneRun(slots, p, q, j);
    }
  }

  function Body(pre: seq<Item>, mid: seq<Item>, post: seq<Item>): (b: seq<Item>)
    ensures |b| == |pre| + |mid| + |post|
    ensures forall i :: 0 <= i < |pre| ==> b[i] == pre[i]
    ensures forall i :: 0 <= i < |mid| ==> b[|pre| + i] == mid[i]
    ensures forall i :: 0 <= i < |post| ==> b[|pre| + |mid| + i] == post[i]
  {
    pre + mid + post
  }

  /** A name that neither side declares is declared in the middle or not at all. */
  lemma {:induction false} FoundInMid(pre: seq<Item>, mid: seq<Item>, post: seq<Item>, name: string, i: nat)
    requires forall x :: 0 <= x < |pre| ==> Declares(pre[x]) != name
    requires forall x :: 0 <= x < |post| ==> Declares(post[x]) != name
    requires i < |Body(pre, mid, post)| && Declares(Body(pre, mid, post)[i]) == name
    ensures |pre| <= i < |pre| + |mid| && Declares(mid[i - |pre|]) == name
  {
  }

  lemma {:induction false} TopElsewhere(slots: seq<Slot>, nm: Naming, pre: seq<Item>, post: seq<Item>, p: nat, j: nat, i: nat)
    requires Named(slots, nm) && Unambiguous(slots, nm, post) && InRun(slots, p, j)
    requires forall x :: 0 <= x < |pre| ==> Declares(pre[x]) == ""
    requires var body := Body(pre, RunItems(slots, nm, 0), post); i < |body| && Declares(body[i]) == Top(slots, nm, j)
    ensures i == |pre| + p
  {
    FoundInMid(pre, RunItems(slots, nm, 0), post, Top(slots, nm, j), i);
    RunItemsAt(slots, nm, 0);
    SameTopSameRun(slots, nm, post, p, j, i - |pre|);
  }

  lemma {:induction false} TopOnlyAt(slots: seq<Slot>, nm: Naming, pre: seq<Item>, post: seq<Item>, p: nat, j: nat)
    requires Named(slots, nm) && Unambiguous(slots, nm, post) && InRun(slots, p, j)
    requires forall i :: 0 <= i < |pre| ==> Declares(pre[i]) == ""
    ensures OnlyAt(Body(pre, RunItems(slots, nm, 0), post), Top(slots, nm, j), |pre| + p)
    ensures Body(pre, RunItems(slots, nm, 0), post)[|pre| + p] == RunItem(slots, nm, Runs(slots, 0)[p])
  {
    var mid := RunItems(slots, nm, 0);
    var body := Body(pre, mid, post);
    RunItemsAt(slots, nm, 0);
    RunDeclares(slots, nm, p, j);
    assert body[|pre| + p] == mid[p];
    forall i | 0 <= i < |body| && Declares(body[i]) == Top(slots, nm, j)
      ensures i == |pre| + p
    {
      TopElsewhere(slots, nm, pre, post, p, j, i);
    }
  }

  /** The items of run p. */
  ghost function Inner(slots: seq<Slot>, p: nat): seq<Item>
    requires p < |Runs(slots, 0)|
  {
    Items(slots[Runs(slots, 0)[p]..RunEnd(slots, Runs(slots, 0)[p])])
  }

  lemma {:induction false} InnerAt(slots: seq<Slot>, p: nat, j: nat)
    requires InRun(slots, p, j)
    ensures var i := j - Runs(slots, 0)[p]; i < |Inner(slots, p)| && Inner(slots, p)[i] == slots[j].item
  {
  }

  lemma {:induction false} InnerIndex(slots: seq<Slot>, p: nat, i: nat)
    requires p < |Runs(slots, 0)| && i < |Inner(slots, p)|
    ensures InRun(slots, p, Runs(slots, 0)[p] + i)
    ensures Inner(slots, p)[i] == slots[Runs(slots, 0)[p] + i].item
  {
  }

  lemma {:induction false} InnerDiffer(slots: seq<Slot>, nm: Naming, post: seq<Item>, p: nat, i: nat, k: nat)
    requires Unambiguous(slots, nm, post) && p < |Runs(slots, 0)| && i < k < |Inner(slots, p)|
    ensures Declares(Inner(slots, p)[i]) != Declares(Inner(slots, p)[k])
  {
    InnerIndex(slots, p, i);
    InnerIndex(slots, p, k);
    RunIsStretch(slots, p, Runs(slots, 0)[p] + i, Runs(slots, 0)[p] + k);
  }

  lemma {:induction false} InnerOnlyAt(slots: seq<Slot>, nm: Naming, post: seq<Item>, p: nat, j: nat)
    requires Unambiguous(slots, nm, post) && InRun(slots, p, j)
    ensures OnlyAt(Inner(slots, p), Declares(slots[j].item), j - Runs(slots, 0)[p])
    ensures Inner(slots, p)[j - Runs(slots, 0)[p]] == slots[j].item
  {
    InnerAt(slots, p, j);
    var n, inner := j - Runs(slots, 0)[p], Inner(slots, p);
    forall i | 0 <= i < |inner| && Declares(inner[i]) == Declares(slots[j].item)
      ensures i == n
    {
      if i < n {
        InnerDiffer(slots, nm, post, p, i, n);
      } else if n < i {
        InnerDiffer(slots, nm, post, p, n, i);
      }
    }
  }

  /** In an unambiguous layout, between items that declare nothing and items that declare
      other names, the path to a field leads to that field and to nothing else. */
  lemma {:induction false} PathResolves(slots: seq<Slot>, nm: Naming, pre: seq<Item>, post: seq<Item>, j: nat)
    requires Named(slots, nm) && Unambiguous(slots, nm, post) && j < |slots|
    requires forall i :: 0 <= i < |pre| ==> Declares(pre[i]) == ""
    ensures ResolvesTo(Body(pre, RunItems(slots, nm, 0), post), PathTo(slots, nm, j), slots[j].item)
  {
    var p := RunCovers(slots, 0, j);
    var body, path := Body(pre, RunItems(slots, nm, 0), post), PathTo(slots, nm, j);
    TopOnlyAt(slots, nm, pre, post, p, j);
    RunDeclares(slots, nm, p, j);
    assert OnlyAt(body, path[0], |pre| + p);
    if slots[j].scope.Some? {
      InnerOnlyAt(slots, nm, post, p, j);
      var inner := body[|pre| + p].items;
      assert inner == Inner(slots, p);
      assert path[1..] == [Declares(slots[j].item)];
      assert ResolvesTo(inner, path[1..], slots[j].item);
    }
  }

  /** Different fields have different paths. */
  lemma {:induction false} PathsDiffer(slots: seq<Slot>, nm: Naming, post: seq<Item>, j: nat, k: nat)
    requires Unambiguous(slots, nm, post) && j < k < |slots|
    ensures PathTo(slots, nm, j) != PathTo(slots, nm, k)
  {
    if Top(slots, nm, j) == Top(slots, nm, k) {
      assert SameStretch(slots, j, k);
      assert slots[k].scope == slots[j].scope;
      assert PathTo(slots, nm, j)[1] != PathTo(slots, nm, k)[1];
    } else {
      assert PathTo(slots, nm, j)[0] != PathTo(slots, nm, k)[0];
    }
  }

  // ---- and conversely

  /** No name is declared twice. */
  ghost predicate NoneTwice(items: seq<Item>) {
    forall i, j :: 0 <= i < j < |items| && Declares(items[i]) != "" ==> Declares(items[i]) != Declares(items[j])
  }

  /** No name is declared twice in the struct, nor in any of its unions. */
  ghost predicate LegalLayout(slots: seq<Slot>, nm: Naming, pre: seq<Item>, post: seq<Item>) {
    && NoneTwice(Body(pre, RunItems(slots, nm, 0), post))
    && forall p :: 0 <= p < |Runs(slots, 0)| ==> NoneTwice(Inner(slots, p))
  }

  lemma {:induction false} NoneTwiceConcat(a: seq<Item>, b: seq<Item>)
    requires NoneTwice(a) && NoneTwice(b)
    requires forall i, j :: 0 <= i < |a| && 0 <= j < |b| && Declares(a[i]) != "" ==> Declares(a[i]) != Declares(b[j])
    ensures NoneTwice(a + b)
  {
  }

  lemma {:induction false} RunsNoneTwice(slots: seq<Slot>, nm: Naming, post: seq<Item>)
    requires Unambiguous(slots, nm, post)
    ensures NoneTwice(RunItems(slots, nm, 0))
  {
    RunItemsAt(slots, nm, 0);
    forall p, q | 0 <= p < q < |Runs(slots, 0)|
      ensures Declares(RunItem(slots, nm, Runs(slots, 0)[p])) != Declares(RunItem(slots, nm, Runs(slots, 0)[q]))
    {
      RunDiffers(slots, nm, post, p, q);
    }
  }

  lemma {:induction false} RunDiffers(slots: seq<Slot>, nm: Naming, post: seq<Item>, p: nat, q: nat)
    requires Unambiguous(slots, nm, post) && p < q < |Runs(slots, 0)|
    ensures Declares(RunItem(slots, nm, Runs(slots, 0)[p])) != Declares(RunItem(slots, nm, Runs(slots, 0)[q]))
  {
    var j := Runs(slots, 0)[p];
    RunDeclares(slots, nm, p, j);
    if Declares(RunItem(slots, nm, Runs(slots, 0)[q])) == Top(slots, nm, j) {
      SameTopSameRun(slots, nm, post, p, j, q);
    }
  }

  lemma {:induction false} RunNotInPost(slots: seq<Slot>, nm: Naming, post: seq<Item>, p: nat)
    requires Unambiguous(slots, nm, post) && p < |Runs(slots, 0)|
    ensures forall x :: 0 <= x < |post| ==> Declares(RunItem(slots, nm, Runs(slots, 0)[p])) != Declares(post[x])
  {
    RunDeclares(slots, nm, p, Runs(slots, 0)[p]);
  }

  lemma {:induction false} BodyNoneTwice(slots: seq<Slot>, nm: Naming, pre: seq<Item>, post: seq<Item>)
    requires Named(slots, nm) && Unambiguous(slots, nm, post) && NoneTwice(post)
    requires forall i :: 0 <= i < |pre| ==> Declares(pre[i]) == ""
    ensures NoneTwice(Body(pre, RunItems(slots, nm, 0), post))
  {
    var mid := RunItems(slots, nm, 0);
    RunsNoneTwice(slots, nm, post);
    RunItemsAt(slots, nm, 0);
    forall p | 0 <= p < |mid|
      ensures forall x :: 0 <= x < |post| ==> Declares(mid[p]) != Declares(post[x])
    {
      RunNotInPost(slots, nm, post, p);
    }
    NoneTwiceConcat(mid, post);
    NoneTwiceConcat(pre, mid + post);
    assert pre + (mid + post) == pre + mid + post;
  }

  lemma {:induction false} UnambiguousIsLegal(slots: seq<Slot>, nm: Naming, pre: seq<Item>, post: seq<Item>)
    requires Named(slots, nm) && Unambiguous(slots, nm, post) && NoneTwice(post)
    requires forall i :: 0 <= i < |pre| ==> Declares(pre[i]) == ""
    ensures LegalLayout(slots, nm, pre, post)
  {
    BodyNoneTwice(slots, nm, pre, post);
    forall p, i, j | 0 <= p < |Runs(slots, 0)| && 0 <= i < j < |Inner(slots, p)|
      ensures Declares(Inner(slots, p)[i]) != Declares(Inner(slots, p)[j])
    {
      InnerDiffer(slots, nm, post, p, i, j);
    }
  }

  lemma {:induction false} LegalTop(slots: seq<Slot>, nm: Naming, pre: seq<Item>, post: seq<Item>, j: nat) returns (p: nat)
    requires j < |slots|
    ensures InRun(slots, p, j)
    ensures var body := Body(pre, RunItems(slots, nm, 0), post);
            |pre| + p < |body| - |post| && Declares(body[|pre| + p]) == Top(slots, nm, j)
  {
    p := RunCovers(slots, 0, j);
    RunItemsAt(slots, nm, 0);
    RunDeclares(slots, nm, p, j);
  }

  lemma {:induction false} LegalStretch(slots: seq<Slot>, nm: Naming, pre: seq<Item>, post: seq<Item>, j: nat, k: nat)
    requires Named(slots, nm) && LegalLayout(slots, nm, pre, post) && j < k < |slots|
    ensures Top(slots, nm, j) == Top(slots, nm, k) ==> SameStretch(slots, j, k)
    ensures SameStretch(slots, j, k) ==> Declares(slots[j].item) != Declares(slots[k].item)
  {
    var p := LegalTop(slots, nm, pre, post, j);
    var q := LegalTop(slots, nm, pre, post, k);
    if p == q {
      RunIsStretch(slots, p, j, k);
      InnerAt(slots, p, j);
      InnerAt(slots, p, k);
      assert NoneTwice(Inner(slots, p));
    } else if SameStretch(slots, j, k) {
      StretchIsRun(slots, p, j, k);
      OneRun(slots, p, q, k);
    }
  }

  lemma {:induction false} LegalIsUnambiguous(slots: seq<Slot>, nm: Naming, pre: seq<Item>, post: seq<Item>)
    requires Named(slots, nm) && LegalLayout(slots, nm, pre, post)
    ensures Unambiguous(slots, nm, post)
  {
    forall j, k | 0 <= j < k < |slots|
      ensures Top(slots, nm, j) == Top(slots, nm, k) ==> SameStretch(slots, j, k)
      ensures SameStretch(slots, j, k) ==> Declares(slots[j].item) != Declares(slots[k].item)
    {
      LegalStretch(slots, nm, pre, post, j, k);
    }
    var body := Body(pre, RunItems(slots, nm, 0), post);
    forall j, x | 0 <= j < |slots| && 0 <= x < |post|
      ensures Top(slots, nm, j) != Declares(post[x])
    {
      var p := LegalTop(slots, nm, pre, post, j);
      assert body[|pre| + |RunItems(slots, nm, 0)| + x] == post[x];
    }
  }

  /** Every path leads to its own field. */
  ghost predicate AllResolve(slots: seq<Slot>, nm: Naming, pre: seq<Item>, post: seq<Item>) {
    forall j :: 0 <= j < |slots| ==>
      ResolvesTo(Body(pre, RunItems(slots, nm, 0), post), PathTo(slots, nm, j), slots[j].item)
  }

  lemma {:induction false} ResolvesTop(slots: seq<Slot>, nm: Naming, pre: seq<Item>, post: seq<Item>, j: nat) returns (p: nat)
    requires j < |slots| && ResolvesTo(Body(pre, RunItems(slots, nm, 0), post), PathTo(slots, nm, j), slots[j].item)
    ensures InRun(slots, p, j)
    ensures OnlyAt(Body(pre, RunItems(slots, nm, 0), post), Top(slots, nm, j), |pre| + p)
    ensures slots[j].scope.Some? ==> ResolvesTo(Inner(slots, p), [Declares(slots[j].item)], slots[j].item)
  {
    p := LegalTop(slots, nm, pre, post, j);
    var body, path := Body(pre, RunItems(slots, nm, 0), post), PathTo(slots, nm, j);
    var i :| OnlyAt(body, path[0], i)
      && (if |path| == 1 then body[i] == slots[j].item else body[i].Block? && ResolvesTo(body[i].items, path[1..], slots[j].item));
    assert i == |pre| + p;
    RunItemsAt(slots, nm, 0);
    RunDeclares(slots, nm, p, j);
    if slots[j].scope.Some? {
      assert path[1..] == [Declares(slots[j].item)];
      assert body[i] == RunItem(slots, nm, Runs(slots, 0)[p]);
    }
  }

  lemma {:induction false} ResolvesStretch(slots: seq<Slot>, nm: Naming, pre: seq<Item>, post: seq<Item>, j: nat, k: nat)
    requires j < k < |slots|
    requires AllResolve(slots, nm, pre, post)
    ensures Top(slots, nm, j) == Top(slots, nm, k) ==> SameStretch(slots, j, k)
    ensures SameStretch(slots, j, k) ==> Declares(slots[j].item) != Declares(slots[k].item)
  {
    var p := ResolvesTop(slots, nm, pre, post, j);
    var q := ResolvesTop(slots, nm, pre, post, k);
    if p == q {
      RunIsStretch(slots, p, j, k);
      InnerAt(slots, p, j);
      InnerAt(slots, p, k);
    } else if SameStretch(slots, j, k) {
      StretchIsRun(slots, p, j, k);
      OneRun(slots, p, q, k);
    }
  }

  lemma {:induction false} OnlyInMid(pre: seq<Item>, mid: seq<Item>, post: seq<Item>, name: string, p: nat)
    requires p < |mid| && OnlyAt(Body(pre, mid, post), name, |pre| + p)
    ensures forall x :: 0 <= x < |post| ==> Declares(post[x]) != name
  {
  }

  lemma {:induction false} ResolvesNotInPost(slots: seq<Slot>, nm: Naming, pre: seq<Item>, post: seq<Item>, j: nat)
    requires AllResolve(slots, nm, pre, post) && j < |slots|
    ensures forall x :: 0 <= x < |post| ==> Declares(post[x]) != Top(slots, nm, j)
  {
    var p := ResolvesTop(slots, nm, pre, post, j);
    RunItemsAt(slots, nm, 0);
    OnlyInMid(pre, RunItems(slots, nm, 0), post, Top(slots, nm, j), p);
  }

  /** All paths lead to their fields exactly if the layout is unambiguous. */
  lemma {:induction false} ResolvesIffUnambiguous(slots: seq<Slot>, nm: Naming, pre: seq<Item>, post: seq<Item>)
    requires Named(slots, nm) && forall i :: 0 <= i < |pre| ==> Declares(pre[i]) == ""
    ensures AllResolve(slots, nm, pre, post) <==> Unambiguous(slots, nm, post)
  {
    if AllResolve(slots, nm, pre, post) {
      ResolvesMeansUnambiguous(slots, nm, pre, post);
    } else if Unambiguous(slots, nm, post) {
      forall j | 0 <= j < |slots|
        ensures ResolvesTo(Body(pre, RunItems(slots, nm, 0), post), PathTo(slots, nm, j), slots[j].item)
      {
        PathResolves(slots, nm, pre, post, j);
      }
    }
  }

  lemma {:induction false} ResolvesMeansUnambiguous(slots: seq<Slot>, nm: Naming, pre: seq<Item>, post: seq<Item>)
    requires AllResolve(slots, nm, pre, post)
    ensures Unambiguous(slots, nm, post)
  {
    forall j, k | 0 <= j < k < |slots|
      ensures Top(slots, nm, j) == Top(slots, nm, k) ==> SameStretch(slots, j, k)
      ensures SameStretch(slots, j, k) ==> Declares(slots[j].item) != Declares(slots[k].item)
    {
      ResolvesStretch(slots, nm, pre, post, j, k);
    }
    forall j | 0 <= j < |slots|
      ensures forall x :: 0 <= x < |post| ==> Declares(post[x]) != Top(slots, nm, j)
    {
      ResolvesNotInPost(slots, nm, pre, post, j);
    }
  }

  /** In an unambiguous layout a union holds the fields of its oneof, all of them, in
      order, and no others. */
  lemma {:induction false} UnionIsOneof(slots: seq<Slot>, nm: Naming, post: seq<Item>, p: nat)
    requires Unambiguous(slots, nm, post) && p < |Runs(slots, 0)| && slots[Runs(slots, 0)[p]].scope.Some?
    ensures var s := slots[Runs(slots, 0)[p]].scope;
            && |RunItems(slots, nm, 0)| == |Runs(slots, 0)|
            && RunItems(slots, nm, 0)[p] == Union(Inner(slots, p), nm(s.value))
            && forall k :: 0 <= k < |slots| ==> (slots[k].scope == s <==> InRun(slots, p, k))
  {
    var a := Runs(slots, 0)[p];
    RunItemsAt(slots, nm, 0);
    forall k | 0 <= k < |slots|
      ensures slots[k].scope == slots[a].scope <==> InRun(slots, p, k)
    {
      OneofInRun(slots, nm, post, p, k);
    }
  }

  lemma {:induction false} OneofInRun(slots: seq<Slot>, nm: Naming, post: seq<Item>, p: nat, k: nat)
    requires Unambiguous(slots, nm, post) && p < |Runs(slots, 0)| && k < |slots|
    requires slots[Runs(slots, 0)[p]].scope.Some?
    ensures slots[k].scope == slots[Runs(slots, 0)[p]].scope <==> InRun(slots, p, k)
  {
    var a := Runs(slots, 0)[p];
    if slots[k].scope == slots[a].scope {
      var q := RunCovers(slots, 0, k);
      RunDeclares(slots, nm, p, a);
      SameTopSameRun(slots, nm, post, q, k, p);
    }
  }
}
