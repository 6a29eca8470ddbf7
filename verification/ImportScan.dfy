/** The .proto import scanner of engine/ddf/src/waf_ddf.py: a depth-first search
    over a possibly cyclic import graph that shares one mutable `scanned` set. */
module ImportScan {
  import opened Basics
  import opened ImportLines

  type Path = string

  /** An include directory: the relative names it can find, and the file each one is. */
  type Dir = map<string, Path>

  /** Some line of a file imports `name`. */
  ghost predicate Imports(lines: seq<string>, name: string) {
    exists i :: 0 <= i < |lines| && Matches(lines[i], name)
  }

  /** The files that exist, line by line, and the include directories in search order. */
  datatype Graph = Graph(files: map<Path, seq<string>>, dirs: seq<Dir>) {

    /** A directory only ever finds files that exist. */
    ghost predicate Valid() {
      forall i, f :: 0 <= i < |dirs| && f in dirs[i] ==> dirs[i][f] in files
    }

    /** First hit in search order. */
    ghost function Resolve(file: string): Option<Path> {
      ResolveIn(dirs, file)
    }

    static ghost function ResolveIn(dirs: seq<Dir>, file: string): Option<Path> {
      if dirs == [] then None
      else if file in dirs[0] then Some(dirs[0][file])
      else ResolveIn(dirs[1..], file)
    }

    ghost predicate Edge(a: Path, b: Path) {
      a in files && exists d :: Imports(files[a], d) && Resolve(d) == Some(b)
    }

    ghost predicate Walk(p: seq<Path>) {
      forall i :: 0 <= i < |p| - 1 ==> Edge(p[i], p[i + 1])
    }

    ghost predicate WalkFromTo(p: seq<Path>, a: Path, b: Path) {
      |p| >= 2 && p[0] == a && p[|p| - 1] == b && Walk(p)
    }

    /** `b` is reached from `a` by one or more resolved import edges. */
    ghost predicate Reaches(a: Path, b: Path) {
      exists p :: WalkFromTo(p, a, b)
    }

    /** Every import edge out of `s` ends in `t`. */
    ghost predicate EdgesEndIn(s: set<Path>, t: set<Path>) {
      forall a, b :: a in s && Edge(a, b) ==> b in t
    }

    lemma {:induction false} EdgeReaches(a: Path, b: Path)
      requires Edge(a, b)
      ensures Reaches(a, b)
    {
      assert WalkFromTo([a, b], a, b);
    }

    lemma {:induction false} ReachesBehindEdge(a: Path, b: Path, c: Path)
      requires Edge(a, b) && Reaches(b, c)
      ensures Reaches(a, c)
    {
      var p :| WalkFromTo(p, b, c);
      assert WalkFromTo([a] + p, a, c);
    }

    /** A set that holds the successors of `a` and of its own members holds
        everything `a` reaches. */
    lemma {:induction false} ClosedHoldsWalk(s: set<Path>, p: seq<Path>, a: Path, b: Path)
      requires EdgesEndIn({a} + s, s) && WalkFromTo(p, a, b)
      ensures b in s
    {
      assert Edge(p[0], p[1]);
      if |p| > 2 {
        var q := p[1..];
        forall i | 0 <= i < |q| - 1
          ensures Edge(q[i], q[i + 1])
        {
          assert Edge(p[i + 1], p[i + 2]);
        }
        assert EdgesEndIn({p[1]} + s, s);
        ClosedHoldsWalk(s, q, p[1], b);
      }
    }
  }

  /** `ret` lists, once each, exactly the files reached from `node`. */
  ghost predicate ListsReached(g: Graph, node: Path, ret: seq<Path>) {
    Distinct(ret) && forall x :: x in ret <==> g.Reaches(node, x)
  }

  lemma {:induction false} ResolveInSkips(dirs: seq<Dir>, file: string, i: nat)
    requires i <= |dirs| && forall j :: 0 <= j < i ==> file !in dirs[j]
    ensures Graph.ResolveIn(dirs, file) == Graph.ResolveIn(dirs[i..], file)
  {
    if i == 0 {
      assert dirs[0..] == dirs;
    } else {
      ResolveInSkips(dirs[1..], file, i - 1);
      assert dirs[1..][i - 1..] == dirs[i..];
    }
  }

  class Scanner {
    const g: Graph
    var scanned: set<Path>

    constructor (g: Graph)
      ensures this.g == g && scanned == {}
    {
      this.g := g;
      scanned := {};
    }

    ghost predicate Valid()
      reads this
    {
      g.Valid() && scanned <= g.files.Keys
    }

    /** What one (partial) scan adds: the list holds exactly the newly scanned
        files, once each, and no import edge leaves them except into `scanned`. */
    twostate predicate Extends(ret: seq<Path>)
      reads this
    {
      && old(scanned) <= scanned
      && Distinct(ret)
      && Elements(ret) == scanned - old(scanned)
      && g.EdgesEndIn(Elements(ret), scanned)
    }

    method ScanFile(file: string) returns (ret: seq<Path>)
      requires Valid()
      modifies this`scanned
      ensures Valid() && Extends(ret)
      ensures g.Resolve(file).None? ==> ret == []
      ensures g.Resolve(file).Some? ==> g.Resolve(file).value in scanned
      ensures ret != [] ==>
                && g.Resolve(file).Some? && ret[0] == g.Resolve(file).value
                && forall i :: 0 < i < |ret| ==> g.Reaches(ret[0], ret[i])
      decreases g.files.Keys - scanned, 0
    {
      for i := 0 to |g.dirs|
        invariant forall j :: 0 <= j < i ==> file !in g.dirs[j]
        invariant scanned == old(scanned)
      {
        if file in g.dirs[i] {
          var n := g.dirs[i][file];
          ResolveInSkips(g.dirs, file, i);
          assert g.dirs[i..][0] == g.dirs[i];
          if n in scanned {
            return [];
          }
          scanned := scanned + {n};
          var rest := ScanNode(n);
          DistinctConcat([n], rest);
          return [n] + rest;
        }
      }
      ResolveInSkips(g.dirs, file, |g.dirs|);
      assert g.dirs[|g.dirs|..] == [];
      return [];
    }

    method ScanNode(node: Path) returns (ret: seq<Path>)
      requires Valid() && node in g.files
      modifies this`scanned
      ensures Valid() && Extends(ret)
      ensures g.EdgesEndIn({node}, scanned)
      ensures forall x :: x in ret ==> g.Reaches(node, x)
      decreases g.files.Keys - scanned, 1
    {
      var deps := ScanFileImport(g.files[node]);
      ghost var all := deps;
      assert forall d :: d in all <==> Imports(g.files[node], d);
      ret := [];
      while deps != {}
        invariant Valid() && Extends(ret) && deps <= all
        invariant forall x :: x in ret ==> g.Reaches(node, x)
        invariant forall d :: d in all - deps && g.Resolve(d).Some? ==> g.Resolve(d).value in scanned
        decreases deps
      {
        var d :| d in deps;  // a Python set is iterated in an order of its own
        deps := deps - {d};
        var more := ScanFile(d);
        forall x | x in more
          ensures g.Reaches(node, x)
        {
          assert g.Edge(node, more[0]);
          if x == more[0] {
            g.EdgeReaches(node, x);
          } else {
            g.ReachesBehindEdge(node, more[0], x);
          }
        }
        DistinctConcat(ret, more);
        ret := ret + more;
      }
    }
  }

  /** The scan of one input file, started with nothing scanned. */
  method ScanInput(g: Graph, node: Path) returns (ret: seq<Path>)
    requires g.Valid() && node in g.files
    ensures ListsReached(g, node, ret)
  {
    var s := new Scanner(g);
    ret := s.ScanNode(node);
    forall x
      ensures x in ret <==> g.Reaches(node, x)
    {
      assert x in ret <==> x in Elements(ret);
      if g.Reaches(node, x) {
        var p :| g.WalkFromTo(p, node, x);
        g.ClosedHoldsWalk(s.scanned, p, node, x);
      }
    }
  }

  /** A task input: its path, its name and the directory that holds it. */
  datatype Input = Input(path: Path, name: string, parent: Dir)

  predicate IsProto(name: string) {
    |name| >= 6 && name[|name| - 6..] == ".proto"
  }

  ghost function Protos(inputs: seq<Input>): seq<Input> {
    if inputs == [] then []
    else (if IsProto(inputs[0].name) then [inputs[0]] else []) + Protos(inputs[1..])
  }

  lemma {:induction false} ProtosHead(x: Input, rest: seq<Input>)
    ensures Protos([x] + rest) == (if IsProto(x.name) then [x] else []) + Protos(rest)
  {
    assert ([x] + rest)[1..] == rest;
  }

  lemma {:induction false} ProtosLast(inputs: seq<Input>, x: Input)
    ensures Protos(inputs + [x]) == Protos(inputs) + (if IsProto(x.name) then [x] else [])
  {
    if inputs == [] {
      ProtosHead(x, []);
      assert [] + [x] == [x] + [];
    } else {
      var head, rest := inputs[0], inputs[1..];
      ProtosLast(rest, x);
      ProtosHead(head, rest + [x]);
      assert inputs + [x] == [head] + (rest + [x]);
    }
  }

  lemma {:induction false} ProtosSnoc(inputs: seq<Input>, i: nat)
    requires i < |inputs|
    ensures Protos(inputs[..i + 1]) == Protos(inputs[..i]) + (if IsProto(inputs[i].name) then [inputs[i]] else [])
  {
    ProtosLast(inputs[..i], inputs[i]);
    assert inputs[..i + 1] == inputs[..i] + [inputs[i]];
  }

  /** Include directories that were found, in order. */
  function Found(includes: seq<Option<Dir>>): seq<Dir> {
    if includes == [] then []
    else (if includes[0].Some? then [includes[0].value] else []) + Found(includes[1..])
  }

  /** The graph one input is scanned in: the found include directories, then its own. */
  function GraphOf(files: map<Path, seq<string>>, includes: seq<Option<Dir>>, n: Input): Graph {
    Graph(files, Found(includes) + [n.parent])
  }

  // ---- what is scanned, and where imports are looked for

  ghost predicate EndsInProto(name: string) { exists stem :: name == stem + ".proto" }

  lemma {:induction false} ProtoName(name: string)
    ensures IsProto(name) <==> EndsInProto(name)
  {
    if IsProto(name) {
      assert name == name[..|name| - 6] + ".proto";
    }
  }

  /** The inputs at these positions, in this order. */
  ghost predicate Picks(inputs: seq<Input>, at: seq<nat>, picked: seq<Input>) {
    && |at| == |picked| && (forall k, l :: 0 <= k < l < |at| ==> at[k] < at[l])
    && forall k :: 0 <= k < |at| ==> at[k] < |inputs| && picked[k] == inputs[at[k]]
  }

  ghost predicate PicksAllProtos(inputs: seq<Input>, at: seq<nat>, picked: seq<Input>) {
    Picks(inputs, at, picked) && forall i: nat :: i < |inputs| ==> (i in at <==> EndsInProto(inputs[i].name))
  }

  lemma {:induction false} PicksNext(front: seq<Input>, at: seq<nat>, picked: seq<Input>, x: Input)
    requires PicksAllProtos(front, at, picked)
    ensures EndsInProto(x.name) ==> PicksAllProtos(front + [x], at + [|front|], picked + [x])
    ensures !EndsInProto(x.name) ==> PicksAllProtos(front + [x], at, picked)
  {
    var all := front + [x];
    assert |front| !in at;
    assert forall i :: 0 <= i < |front| ==> all[i] == front[i];
  }

  /** The inputs scanned are those that end in .proto, each once and in their order. */
  lemma {:induction false} ProtosAre(inputs: seq<Input>) returns (at: seq<nat>)
    ensures PicksAllProtos(inputs, at, Protos(inputs))
  {
    if inputs == [] {
      at := [];
    } else {
      var n := |inputs| - 1;
      var before := ProtosAre(inputs[..n]);
      PicksNext(inputs[..n], before, Protos(inputs[..n]), inputs[n]);
      ProtoName(inputs[n].name);
      ProtosLast(inputs[..n], inputs[n]);
      assert inputs == inputs[..n] + [inputs[n]] && Protos(inputs[..n]) + [] == Protos(inputs[..n]);
      at := if IsProto(inputs[n].name) then before + [n] else before;
    }
  }

  ghost predicate Finds(includes: seq<Option<Dir>>, i: nat, file: string) {
    i < |includes| && includes[i].Some? && file in includes[i].value
  }

  lemma {:induction false} IncludeHead(includes: seq<Option<Dir>>, file: string)
    requires includes != []
    ensures Graph.ResolveIn(Found(includes), file)
         == if Finds(includes, 0, file) then Some(includes[0].value[file]) else Graph.ResolveIn(Found(includes[1..]), file)
  {
    if includes[0].Some? {
      assert Found(includes)[1..] == Found(includes[1..]);
    } else {
      assert Found(includes) == Found(includes[1..]);
    }
  }

  lemma {:induction false} FindsNext(includes: seq<Option<Dir>>, file: string, k: nat)
    requires includes != [] && !Finds(includes, 0, file) && forall j :: 0 <= j < k ==> !Finds(includes[1..], j, file)
    ensures forall j :: 0 <= j < k + 1 ==> !Finds(includes, j, file)
  {
    forall j | 0 <= j < k + 1
      ensures !Finds(includes, j, file)
    {
      assert j > 0 ==> !Finds(includes[1..], j - 1, file);
    }
  }

  /** The first include directory that exists and finds the file decides. */
  lemma {:induction false} IncludeResolves(includes: seq<Option<Dir>>, file: string) returns (i: nat)
    ensures i <= |includes| && forall j :: 0 <= j < i ==> !Finds(includes, j, file)
    ensures i < |includes| ==> Finds(includes, i, file) && Graph.ResolveIn(Found(includes), file) == Some(includes[i].value[file])
    ensures i == |includes| ==> Graph.ResolveIn(Found(includes), file) == None
  {
    i := 0;
    if includes != [] {
      IncludeHead(includes, file);
      if !Finds(includes, 0, file) {
        var k := IncludeResolves(includes[1..], file);
        FindsNext(includes, file, k);
        i := k + 1;
      }
    }
  }

  lemma {:induction false} ResolveConcat(a: seq<Dir>, b: seq<Dir>, file: string)
    ensures var first := Graph.ResolveIn(a, file);
            Graph.ResolveIn(a + b, file) == if first.Some? then first else Graph.ResolveIn(b, file)
  {
    if a == [] {
      assert a + b == b;
    } else {
      assert (a + b)[1..] == a[1..] + b;
      ResolveConcat(a[1..], b, file);
    }
  }

  /** An import of an input is the file that the first include directory finds which exists
      and finds any; the input's own directory comes last. */
  lemma {:induction false} SearchOrder(files: map<Path, seq<string>>, includes: seq<Option<Dir>>, n: Input, file: string) returns (i: nat)
    ensures i <= |includes| && forall j :: 0 <= j < i ==> !Finds(includes, j, file)
    ensures var f := GraphOf(files, includes, n).Resolve(file);
            if i < |includes| then Finds(includes, i, file) && f == Some(includes[i].value[file])
            else if file in n.parent then f == Some(n.parent[file])
            else f == None
  {
    i := IncludeResolves(includes, file);
    ResolveConcat(Found(includes), [n.parent], file);
    assert [n.parent][1..] == [];
  }

  /** The input itself, then everything it reaches, once each. */
  ghost predicate IsBlock(files: map<Path, seq<string>>, includes: seq<Option<Dir>>, n: Input, block: seq<Path>) {
    |block| > 0 && block[0] == n.path && ListsReached(GraphOf(files, includes, n), n.path, block[1..])
  }

  /** One block per input, in order. */
  ghost predicate AreBlocks(files: map<Path, seq<string>>, includes: seq<Option<Dir>>, inputs: seq<Input>, blocks: seq<seq<Path>>) {
    |blocks| == |inputs| && forall k :: 0 <= k < |blocks| ==> IsBlock(files, includes, inputs[k], blocks[k])
  }

  ghost predicate IsDependencyList(files: map<Path, seq<string>>, includes: seq<Option<Dir>>, inputs: seq<Input>, depnodes: seq<Path>) {
    exists blocks :: AreBlocks(files, includes, Protos(inputs), blocks) && depnodes == Flatten(blocks)
  }

  /** The block of one input. */
  method ScanBlock(files: map<Path, seq<string>>, includes: seq<Option<Dir>>, n: Input) returns (block: seq<Path>)
    requires n.path in files && GraphOf(files, includes, n).Valid()
    ensures IsBlock(files, includes, n, block)
  {
    var reached := ScanInput(GraphOf(files, includes, n), n.path);
    block := [n.path] + reached;
    assert block[1..] == reached;
  }

  /** One block per .proto input, in order. */
  method DoScan(files: map<Path, seq<string>>, includes: seq<Option<Dir>>, inputs: seq<Input>) returns (depnodes: seq<Path>)
    requires forall n :: n in inputs ==> n.path in files && GraphOf(files, includes, n).Valid()
    ensures IsDependencyList(files, includes, inputs, depnodes)
  {
    depnodes := [];
    ghost var blocks: seq<seq<Path>> := [];
    for i := 0 to |inputs|
      invariant depnodes == Flatten(blocks) && AreBlocks(files, includes, Protos(inputs[..i]), blocks)
    {
      ProtosSnoc(inputs, i);
      if IsProto(inputs[i].name) {
        var block := ScanBlock(files, includes, inputs[i]);
        FlattenSnoc(blocks, block);
        depnodes := depnodes + block;
        blocks := blocks + [block];
      }
    }
    assert inputs[..|inputs|] == inputs;
  }

  /** The scan result itself never repeats a file, but the dependency list of an
      input does name that input twice exactly when it lies on an import cycle. */
  lemma {:induction false} BlockRepeatsInputIffOnCycle(g: Graph, node: Path, ret: seq<Path>)
    requires ListsReached(g, node, ret)
    ensures Distinct([node] + ret) <==> !g.Reaches(node, node)
  {
    var b := [node] + ret;
    if g.Reaches(node, node) {
      var i :| 0 <= i < |ret| && ret[i] == node;
      assert b[0] == b[i + 1];
    } else {
      forall i, j | 0 <= i < j < |b|
        ensures b[i] != b[j]
      {
        assert b[j] == ret[j - 1];
      }
    }
  }
}
