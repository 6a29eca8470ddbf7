/** The directory of the download cache of build_tools/http_cache.py: a set of files that
    stands for a map from URL to (ETag, body), their sizes, and eviction by age. */
module CacheDir {
  import opened Basics
  import opened CacheNames

  datatype File = File(body: Bytes, mtime: int)

  /** The cache directory, by file name. */
  type Dir = map<string, File>

  /** What the cache stands for: under this stem, this ETag and this body. */
  datatype Entry = Entry(stem: string, key: Bytes, body: Bytes)

  ghost predicate Holds(d: Dir, e: Entry) {
    FinalName(e.stem, e.key) in d && d[FinalName(e.stem, e.key)].body == e.body
  }

  /** Only cache files of known stems. */
  ghost predicate Named(d: Dir, stems: set<string>) {
    forall n :: n in d ==> WellNamed(n) && Stem(n) in stems
  }

  /** At most one file per stem, finished or not. */
  ghost predicate OnePerStem(d: Dir) {
    forall m, n :: m in d && n in d && Stem(m) == Stem(n) ==> m == n
  }

  /** Some files of another directory, as they are there. */
  ghost predicate PartOf(d: Dir, whole: Dir) {
    forall n :: n in d ==> n in whole && d[n] == whole[n]
  }

  /** Everything `d` holds was held by `d0` already, or is the one new entry. */
  ghost predicate HoldsOnly(d0: Dir, d: Dir, added: Option<Entry>) {
    forall e :: Holds(d, e) ==> Holds(d0, e) || added == Some(e)
  }

  // ---- sizes

  ghost function Total(d: Dir): nat
    decreases |d|
  {
    if d == map[] then 0
    else
      var n :| n in d;
      |d[n].body| + Total(d - {n})
  }

  lemma {:induction false} TotalMinus(d: Dir, n: string)
    requires n in d
    ensures Total(d) == |d[n].body| + Total(d - {n})
    decreases |d|
  {
    var m :| m in d && Total(d) == |d[m].body| + Total(d - {m});
    if m != n {
      TotalMinus(d - {m}, n);
      TotalMinus(d - {n}, m);
      assert d - {m} - {n} == d - {n} - {m};
    }
  }

  /** Replacing one file changes the total by the difference in size. */
  lemma {:induction false} TotalUpdate(d: Dir, n: string, f: File)
    ensures Total(d[n := f]) == Total(d - {n}) + |f.body|
    ensures n !in d ==> Total(d[n := f]) == Total(d) + |f.body|
  {
    TotalMinus(d[n := f], n);
    assert d[n := f] - {n} == d - {n};
    assert n !in d ==> d - {n} == d;
  }

  ghost function SumSizes(d: Dir, names: seq<string>): nat
    requires forall n :: n in names ==> n in d
  {
    if names == [] then 0 else SumSizes(d, names[..|names| - 1]) + |d[names[|names| - 1]].body|
  }

  ghost function Restrict(d: Dir, names: seq<string>): Dir {
    map n | n in d && n in names :: d[n]
  }

  lemma {:induction false} RestrictSnoc(d: Dir, front: seq<string>, last: string)
    requires last in d && last !in front
    ensures last in Restrict(d, front + [last])
    ensures Restrict(d, front + [last]) - {last} == Restrict(d, front)
    ensures Restrict(d, front + [last])[last] == d[last]
  {
  }

  lemma {:induction false} LastNotInFront(names: seq<string>)
    requires Distinct(names) && names != []
    ensures names[|names| - 1] !in names[..|names| - 1] && Distinct(names[..|names| - 1])
  {
  }

  lemma {:induction false} TotalRestrict(d: Dir, names: seq<string>)
    requires Distinct(names) && forall n :: n in names ==> n in d
    ensures Total(Restrict(d, names)) == SumSizes(d, names)
  {
    if names == [] {
      assert Restrict(d, names) == map[];
    } else {
      var front, last := names[..|names| - 1], names[|names| - 1];
      LastNotInFront(names);
      TotalRestrict(d, front);
      TotalWithLast(d, names, front, last);
    }
  }

  lemma {:induction false} TotalWithLast(d: Dir, names: seq<string>, front: seq<string>, last: string)
    requires names == front + [last] && last in d && last !in front
    ensures Total(Restrict(d, names)) == Total(Restrict(d, front)) + |d[last].body|
  {
    RestrictSnoc(d, front, last);
    TotalMinus(Restrict(d, names), last);
  }

  // ---- least recently used

  ghost predicate NewestFirst(d: Dir, order: seq<string>) {
    && Distinct(order) && Elements(order) == d.Keys
    && forall i, j :: 0 <= i < j < |order| ==> d[order[i]].mtime >= d[order[j]].mtime
  }

  /** `d'` keeps the longest newest-first prefix of `d` that leaves room for `size`. */
  ghost predicate KeepsNewest(d: Dir, size: nat, maxSize: nat, d': Dir, order: seq<string>, k: nat) {
    && NewestFirst(d, order) && k <= |order| && (forall n :: n in order ==> n in d)
    && d' == Restrict(d, order[..k])
    && (k > 0 ==> SumSizes(d, order[..k]) + size <= maxSize)
    && (k < |order| ==> SumSizes(d, order[..k + 1]) + size > maxSize)
  }

  /** Room is made: the new file fits, or nothing else is left. */
  lemma {:induction false} RoomIsMade(d: Dir, size: nat, maxSize: nat, d': Dir, order: seq<string>, k: nat)
    requires KeepsNewest(d, size, maxSize, d', order, k)
    ensures d' == map[] || Total(d') + size <= maxSize
    ensures Total(d') == SumSizes(d, order[..k])
  {
    TotalRestrict(d, order[..k]);
    if k == 0 {
      assert d' == map[];
    }
  }

  /** No evicted file is newer than a kept one. */
  lemma {:induction false} EvictsOldest(d: Dir, size: nat, maxSize: nat, d': Dir, order: seq<string>, k: nat, kept: string, gone: string)
    requires KeepsNewest(d, size, maxSize, d', order, k) && kept in d' && gone in d && gone !in d'
    ensures d[kept].mtime >= d[gone].mtime
  {
    var i :| 0 <= i < k && order[i] == kept;
    assert gone in Elements(order);
    var j :| 0 <= j < |order| && order[j] == gone;
    assert forall t :: 0 <= t < k ==> order[t] in order[..k];
  }

  lemma {:induction false} NewestExists(d: Dir, s: set<string>) returns (n: string)
    requires s != {} && s <= d.Keys
    ensures n in s && forall m :: m in s ==> d[m].mtime <= d[n].mtime
    decreases s
  {
    var x :| x in s;
    n := x;
    if s - {x} == {} {
      assert s == {x};
    } else {
      var m := NewestExists(d, s - {x});
      if d[x].mtime < d[m].mtime {
        n := m;
      }
      assert forall y :: y in s ==> y == x || y in s - {x};
    }
  }

  lemma {:induction false} SumSizesMonotone(d: Dir, names: seq<string>, a: nat, b: nat)
    requires (forall n :: n in names ==> n in d) && a <= b <= |names|
    ensures SumSizes(d, names[..a]) <= SumSizes(d, names[..b])
  {
    if a < b {
      SumSizesMonotone(d, names, a, b - 1);
      assert names[..b][..b - 1] == names[..b - 1];
    }
  }

  lemma {:induction false} OrderInDir(d: Dir, order: seq<string>)
    requires NewestFirst(d, order)
    ensures forall i :: 0 <= i < |order| ==> order[i] in d
    ensures forall n :: n in order ==> n in d
  {
    assert forall n :: n in order ==> n in Elements(order);
  }

  /** The eviction loop at position i: the first k files are kept, those up to i gone. */
  ghost predicate Evicting(base: Dir, order: seq<string>, size: nat, maxSize: nat, i: nat, k: nat, total: nat, d: Dir) {
    && NewestFirst(base, order) && (forall n :: n in order ==> n in base)
    && k <= i <= |order| && total == SumSizes(base, order[..i])
    && (k > 0 ==> SumSizes(base, order[..k]) + size <= maxSize)
    && (k < i ==> SumSizes(base, order[..k + 1]) + size > maxSize)
    && (forall j :: 0 <= j < |order| ==> (order[j] in d <==> j < k || i <= j))
    && (forall n :: n in d ==> n in base && d[n] == base[n])
  }

  lemma {:induction false} EvictStart(base: Dir, order: seq<string>, size: nat, maxSize: nat)
    requires NewestFirst(base, order)
    ensures Evicting(base, order, size, maxSize, 0, 0, 0, base)
  {
    OrderInDir(base, order);
  }

  lemma {:induction false} SumSizesSnoc(d: Dir, names: seq<string>, i: nat)
    requires (forall n :: n in names ==> n in d) && i < |names|
    ensures SumSizes(d, names[..i + 1]) == SumSizes(d, names[..i]) + |d[names[i]].body|
  {
    assert names[..i + 1][..i] == names[..i];
  }

  lemma {:induction false} EvictStep(base: Dir, order: seq<string>, size: nat, maxSize: nat, i: nat, k: nat, total: nat, d: Dir)
    requires i < |order| && order[i] in base && total >= |base[order[i]].body|
    requires Evicting(base, order, size, maxSize, i, k, total - |base[order[i]].body|, d) && total + size > maxSize
    ensures Evicting(base, order, size, maxSize, i + 1, k, total, d - {order[i]})
  {
    SumSizesSnoc(base, order, i);
  }

  lemma {:induction false} KeepStep(base: Dir, order: seq<string>, size: nat, maxSize: nat, i: nat, k: nat, total: nat, d: Dir)
    requires i < |order| && order[i] in base && total >= |base[order[i]].body|
    requires Evicting(base, order, size, maxSize, i, k, total - |base[order[i]].body|, d) && total + size <= maxSize
    ensures Evicting(base, order, size, maxSize, i + 1, i + 1, total, d)
  {
    SumSizesSnoc(base, order, i);
    assert total == SumSizes(base, order[..i + 1]);
    if k < i {
      SumSizesMonotone(base, order, k + 1, i + 1);
      assert false;
    }
  }

  lemma {:induction false} EvictEnd(base: Dir, order: seq<string>, size: nat, maxSize: nat, k: nat, total: nat, d: Dir)
    requires Evicting(base, order, size, maxSize, |order|, k, total, d)
    ensures KeepsNewest(base, size, maxSize, d, order, k)
  {
    forall n | n in base
      ensures n in d <==> n in order[..k]
    {
      KeptIsPrefix(base, order, k, d, n);
    }
    assert d == Restrict(base, order[..k]);
  }

  lemma {:induction false} KeptIsPrefix(base: Dir, order: seq<string>, k: nat, d: Dir, n: string)
    requires k <= |order| && Elements(order) == base.Keys && n in base && Distinct(order)
    requires forall j :: 0 <= j < |order| ==> (order[j] in d <==> j < k)
    ensures n in d <==> n in order[..k]
  {
    assert n in Elements(order);
    var j :| 0 <= j < |order| && order[j] == n;
    assert j < k ==> order[..k][j] == n;
  }

  lemma {:induction false} TotalMonotone(d: Dir, e: Dir)
    requires forall n :: n in d ==> n in e && |d[n].body| <= |e[n].body|
    ensures Total(d) <= Total(e)
    decreases |d|
  {
    if d != map[] {
      var n :| n in d;
      TotalMinus(d, n);
      TotalMinus(e, n);
      TotalMonotone(d - {n}, e - {n});
    }
  }

  /** The files at least as new as p. */
  ghost function AsNew(d: Dir, p: string): Dir
    requires p in d
  {
    map m | m in d && d[m].mtime >= d[p].mtime :: d[m]
  }

  /** What comes up to p in the order of age is at least as new as p. */
  lemma {:induction false} OrderAsNew(d: Dir, order: seq<string>, i: nat)
    requires NewestFirst(d, order) && i < |order| && forall n :: n in order ==> n in d
    ensures SumSizes(d, order[..i + 1]) <= Total(AsNew(d, order[i]))
  {
    var front := order[..i + 1];
    assert forall n :: n in front ==> n in order;
    TotalRestrict(d, front);
    forall n | n in Restrict(d, front)
      ensures n in AsNew(d, order[i])
    {
      var j :| 0 <= j < |front| && front[j] == n;
      assert order[j] == n;
    }
    TotalMonotone(Restrict(d, front), AsNew(d, order[i]));
  }

  /** `d'` is what is left of `d` when the longest newest-first prefix that leaves room for
      `size` is kept. */
  ghost predicate MadeRoom(d: Dir, size: nat, maxSize: nat, d': Dir) {
    exists order, k: nat :: KeepsNewest(d, size, maxSize, d', order, k)
  }

  /** If everything fits, everything stays. */
  lemma {:induction false} AllFitsAllStays(d: Dir, size: nat, maxSize: nat, d': Dir)
    requires MadeRoom(d, size, maxSize, d') && Total(d) + size <= maxSize
    ensures d' == d
  {
    var order, k: nat :| KeepsNewest(d, size, maxSize, d', order, k);
    OrderAllFits(d, size, maxSize, order, k);
    WholeOrder(d, order);
    assert order[..k] == order;
  }

  /** A file stays if it fits together with all that are at least as new. */
  lemma {:induction false} NewEnoughStays(d: Dir, size: nat, maxSize: nat, d': Dir, p: string)
    requires MadeRoom(d, size, maxSize, d') && p in d && Total(AsNew(d, p)) + size <= maxSize
    ensures p in d' && d'[p] == d[p]
  {
    var order, k: nat :| KeepsNewest(d, size, maxSize, d', order, k);
    assert p in Elements(order);
    var i :| 0 <= i < |order| && order[i] == p;
    OrderInDir(d, order);
    OrderAsNew(d, order, i);
    if k <= i {
      SumSizesMonotone(d, order, k + 1, i + 1);
      assert false;
    }
    assert order[..k][i] == p;
  }

  lemma {:induction false} OrderAllFits(d: Dir, size: nat, maxSize: nat, order: seq<string>, k: nat)
    requires NewestFirst(d, order) && k <= |order| && (forall n :: n in order ==> n in d)
    requires k < |order| ==> SumSizes(d, order[..k + 1]) + size > maxSize
    requires Total(d) + size <= maxSize
    ensures k == |order|
  {
    TotalRestrict(d, order);
    WholeOrder(d, order);
    assert order[..|order|] == order;
    if k < |order| {
      SumSizesMonotone(d, order, k + 1, |order|);
    }
  }

  lemma {:induction false} WholeOrder(d: Dir, order: seq<string>)
    requires NewestFirst(d, order)
    ensures Restrict(d, order) == d
  {
    assert forall n :: n in d ==> n in Elements(order);
  }

  // ---- changing one file

  lemma {:induction false} DeletionShrinks(d: Dir, n: string)
    ensures Total(d - {n}) <= Total(d)
  {
    if n in d {
      TotalMinus(d, n);
    } else {
      assert d - {n} == d;
    }
  }

  lemma {:induction false} WritingGrows(d: Dir, n: string, f: File)
    ensures Total(d[n := f]) <= Total(d) + |f.body|
  {
    TotalUpdate(d, n, f);
    DeletionShrinks(d, n);
  }

  lemma {:induction false} TouchKeepsTotal(d: Dir, n: string, f: File)
    requires n in d && f.body == d[n].body
    ensures Total(d[n := f]) == Total(d)
  {
    TotalUpdate(d, n, f);
    TotalMinus(d, n);
  }

  /** os.rename */
  function Renamed(d: Dir, a: string, b: string): Dir
    requires a in d
  {
    (d - {a})[b := d[a]]
  }

  lemma {:induction false} RenameShrinks(d: Dir, a: string, b: string)
    requires a in d
    ensures Total(Renamed(d, a, b)) <= Total(d)
  {
    TotalMinus(d, a);
    WritingGrows(d - {a}, b, d[a]);
  }
}
