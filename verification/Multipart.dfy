/** The multipart upload of scripts/build.py: cutting a file into numbered parts, one
    thread per part, and completing the upload only when every part is stored. */
module Multipart {
  import opened Basics

  const CHUNK_SIZE := 64 * 1024 * 1024

  /** Arguments of one upload_part thread. */
  datatype Part = Part(number: nat, offset: nat, size: nat)

  /** Part i of a plan: numbered i + 1, starting where the parts before it end. */
  ghost predicate Tiles(parts: seq<Part>, fileSize: nat, chunk: nat) {
    && (forall i :: 0 <= i < |parts| ==> parts[i].number == i + 1)
    && (forall i :: 0 <= i < |parts| ==> 1 <= parts[i].size <= chunk)
    && (forall i :: 0 <= i < |parts| - 1 ==> parts[i].size == chunk)
    && (forall i :: 0 <= i < |parts| ==> parts[i].offset == EndOf(parts[..i]))
    && EndOf(parts) == fileSize
  }

  ghost function EndOf(parts: seq<Part>): nat {
    if parts == [] then 0 else parts[|parts| - 1].offset + parts[|parts| - 1].size
  }

  /** ceil(size / chunk), told apart from every other count by these bounds. */
  function ChunkCount(size: nat, chunk: nat): (n: nat)
    requires chunk > 0
    ensures size <= n * chunk && (n > 0 ==> (n - 1) * chunk < size)
  {
    var n := (size + chunk - 1) / chunk;
    DivBounds(size + chunk - 1, chunk);
    assert (n - 1) * chunk == n * chunk - chunk;
    n
  }

  lemma {:induction false} DivBounds(a: nat, d: nat)
    requires d > 0
    ensures (a / d) * d <= a < (a / d) * d + d
  {
  }

  lemma {:induction false} BeforeCount(i: nat, n: nat, chunk: nat, size: nat)
    requires i < n && (n - 1) * chunk < size <= n * chunk
    ensures i * chunk < size
    ensures i < n - 1 ==> size - i * chunk > chunk
    ensures i == n - 1 ==> size - i * chunk <= chunk
  {
    if i < n - 1 {
      MulMonotone(i + 1, n - 1, chunk);
      assert (i + 1) * chunk == i * chunk + chunk;
    } else {
      assert n * chunk == i * chunk + chunk;
    }
  }

  /** The loop that sets up the part threads. */
  method PlanParts(fileSize: nat, chunk: nat) returns (parts: seq<Part>)
    requires chunk > 0
    ensures Tiles(parts, fileSize, chunk) && |parts| == ChunkCount(fileSize, chunk)
  {
    var count := ChunkCount(fileSize, chunk);
    parts := [];
    for i := 0 to count
      invariant |parts| == i
      invariant forall k :: 0 <= k < i ==> parts[k].number == k + 1 && 1 <= parts[k].size <= chunk
      invariant forall k :: 0 <= k < i && k < count - 1 ==> parts[k].size == chunk
      invariant forall k :: 0 <= k < i ==> parts[k].offset == EndOf(parts[..k])
      invariant EndOf(parts) == if i < count then i * chunk else fileSize
    {
      var offset := i * chunk;
      var remaining := fileSize - offset;
      BeforeCount(i, count, chunk, fileSize);
      var size := if chunk <= remaining then chunk else remaining;
      assert (i + 1) * chunk == i * chunk + chunk;
      ghost var before := parts;
      parts := parts + [Part(i + 1, offset, size)];
      assert forall k :: 0 <= k <= i ==> parts[..k] == before[..k];
      assert before[..i] == before;
    }
  }

  function Slice(file: seq<byte>, p: Part): seq<byte>
    requires p.offset + p.size <= |file|
  {
    file[p.offset..p.offset + p.size]
  }

  ghost predicate Within(parts: seq<Part>, size: nat) {
    forall i :: 0 <= i < |parts| ==> parts[i].offset + parts[i].size <= size
  }

  lemma {:induction false} TilesWithin(parts: seq<Part>, size: nat, i: nat)
    requires i <= |parts| && forall k :: 0 <= k < |parts| ==> parts[k].offset == EndOf(parts[..k])
    requires EndOf(parts) == size
    ensures EndOf(parts[..i]) <= size
    decreases |parts| - i
  {
    if i < |parts| {
      TilesWithin(parts, size, i + 1);
    } else {
      assert parts[..i] == parts;
    }
  }

  lemma {:induction false} TilesWithinFile(parts: seq<Part>, size: nat)
    requires Tiles(parts, size, CHUNK_SIZE)
    ensures Within(parts, size)
  {
    forall i | 0 <= i < |parts|
      ensures parts[i].offset + parts[i].size <= size
    {
      TilesWithin(parts, size, i + 1);
      assert parts[..i + 1][i] == parts[i];
    }
  }

  /** What the store concatenates on completion: parts 1..n in numeric order. */
  function Assemble(stored: map<nat, seq<byte>>, n: nat): seq<byte>
    requires forall k :: 1 <= k <= n ==> k in stored
  {
    if n == 0 then [] else Assemble(stored, n - 1) + stored[n]
  }

  /** Each part starts where the parts before it end. */
  ghost predicate Consecutive(parts: seq<Part>) {
    forall k :: 0 <= k < |parts| ==> parts[k].offset == EndOf(parts[..k])
  }

  ghost predicate StoredUpTo(file: seq<byte>, parts: seq<Part>, stored: map<nat, seq<byte>>, n: nat)
    requires Within(parts, |file|) && n <= |parts|
  {
    forall k :: 1 <= k <= n ==> k in stored && stored[k] == Slice(file, parts[k - 1])
  }

  lemma {:induction false} EndOfTake(parts: seq<Part>, n: nat)
    requires Consecutive(parts) && 0 < n <= |parts|
    ensures EndOf(parts[..n]) == parts[n - 1].offset + parts[n - 1].size && parts[n - 1].offset == EndOf(parts[..n - 1])
  {
    assert parts[..n][n - 1] == parts[n - 1];
  }

  /** Parts stored under their numbers assemble to the file up to where they end. */
  lemma {:induction false} PartsAssemble(file: seq<byte>, parts: seq<Part>, stored: map<nat, seq<byte>>, n: nat)
    requires Consecutive(parts) && Within(parts, |file|) && n <= |parts| && StoredUpTo(file, parts, stored, n)
    ensures EndOf(parts[..n]) <= |file| && Assemble(stored, n) == file[..EndOf(parts[..n])]
  {
    if n > 0 {
      PartsAssemble(file, parts, stored, n - 1);
      EndOfTake(parts, n);
      SliceExtends(file, parts[n - 1]);
    }
  }

  lemma {:induction false} SliceExtends(file: seq<byte>, p: Part)
    requires p.offset + p.size <= |file|
    ensures file[..p.offset] + Slice(file, p) == file[..p.offset + p.size]
  {
  }

  /** The part numbers 1..n. */
  ghost predicate AreNumbers(s: set<nat>, n: nat) {
    forall k: nat :: k in s <==> 1 <= k <= n
  }

  ghost function Numbers(n: nat): (s: set<nat>)
    ensures AreNumbers(s, n)
  {
    if n == 0 then {} else Numbers(n - 1) + {n}
  }

  lemma {:induction false} NumbersCount(s: set<nat>, n: nat)
    requires AreNumbers(s, n)
    ensures |s| == n
  {
    if n == 0 {
      assert s == {};
    } else {
      NumbersCount(s - {n}, n - 1);
    }
  }

  lemma {:induction false} SmallerSubset<T>(a: set<T>, b: set<T>)
    requires a <= b
    ensures |a| <= |b| && (|a| == |b| ==> a == b)
  {
    if a != {} {
      var x :| x in a;
      SmallerSubset(a - {x}, b - {x});
    }
  }

  /** The outcome of an upload: the assembled object, or cancelled. */
  datatype Upload = Complete(contents: seq<byte>) | Cancelled

  lemma {:induction false} AllPartsAssemble(file: seq<byte>, parts: seq<Part>, stored: map<nat, seq<byte>>)
    requires Tiles(parts, |file|, CHUNK_SIZE) && Within(parts, |file|)
    requires AreNumbers(stored.Keys, |parts|)
    requires forall k :: k in stored && 1 <= k <= |parts| ==> stored[k] == Slice(file, parts[k - 1])
    ensures Assemble(stored, |parts|) == file
  {
    assert StoredUpTo(file, parts, stored, |parts|);
    PartsAssemble(file, parts, stored, |parts|);
    assert parts[..|parts|] == parts;
    assert file[..|file|] == file;
  }

  /** The decision after all part threads have ended: complete exactly if every part is
      stored. */
  method CompleteOrCancel(file: seq<byte>, parts: seq<Part>, stored: map<nat, seq<byte>>) returns (u: Upload)
    requires Tiles(parts, |file|, CHUNK_SIZE) && Within(parts, |file|)
    requires forall k :: k in stored ==> 1 <= k <= |parts| && stored[k] == Slice(file, parts[k - 1])
    ensures u.Complete? <==> AreNumbers(stored.Keys, |parts|)
    ensures u.Complete? ==> u.contents == file
  {
    ghost var all := Numbers(|parts|);
    NumbersCount(all, |parts|);
    SmallerSubset(stored.Keys, all);
    assert |stored| == |stored.Keys|;
    if |stored| == |parts| {
      assert stored.Keys == all;
      AllPartsAssemble(file, parts, stored);
      u := Complete(Assemble(stored, |parts|));
    } else {
      u := Cancelled;
      assert stored.Keys != all;
    }
  }

  /** The part threads, for every order in which they end: threads that were started may
      end while later ones are still being started. Thread k fails if `fails(k)`. */
  method RunThreads(file: seq<byte>, parts: seq<Part>, fails: nat -> bool) returns (stored: map<nat, seq<byte>>)
    requires Within(parts, |file|)
    ensures forall k :: k in stored <==> 1 <= k <= |parts| && !fails(k)
    ensures forall k :: k in stored && 1 <= k <= |parts| ==> stored[k] == Slice(file, parts[k - 1])
  {
    var started := 0;
    var running: set<nat> := {};
    stored := map[];
    while started < |parts| || running != {}
      invariant started <= |parts|
      invariant forall k :: k in running ==> 1 <= k <= started
      invariant forall k :: k in stored <==> 1 <= k <= started && k !in running && !fails(k)
      invariant forall k :: k in stored && 1 <= k <= |parts| ==> stored[k] == Slice(file, parts[k - 1])
      decreases |parts| - started, running
    {
      var startNext: bool := *;
      if started < |parts| && (startNext || running == {}) {
        started := started + 1;
        running := running + {started};
      } else {
        var k :| k in running;
        running := running - {k};
        if !fails(k) {
          stored := stored[k := Slice(file, parts[k - 1])];
        }
      }
    }
  }

  /** upload_multipart: the object appears exactly when no part fails, and then it is the
      file. */
  method UploadMultipart(file: seq<byte>, fails: nat -> bool) returns (u: Upload)
    ensures u.Complete? <==> forall k :: 1 <= k <= ChunkCount(|file|, CHUNK_SIZE) ==> !fails(k)
    ensures u.Complete? ==> u.contents == file
  {
    var parts := PlanParts(|file|, CHUNK_SIZE);
    TilesWithinFile(parts, |file|);
    var stored := RunThreads(file, parts, fails);
    u := CompleteOrCancel(file, parts, stored);
    assert forall k: nat :: 1 <= k <= |parts| ==> (k in stored.Keys <==> !fails(k));
    if u.Complete? {
      assert forall k: nat :: 1 <= k <= |parts| ==> k in stored.Keys;
    }
  }
}
