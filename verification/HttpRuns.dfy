/** Runs of the download cache of build_tools/http_cache.py: any number of downloads, each
    stopped at any point, against servers that answer as they like. */
module HttpRuns {
  import opened Basics
  import opened CacheNames
  import opened CacheDir
  import opened HttpCache

  /** A URL; mangling looks at its path only. */
  datatype Url = Url(origin: string, path: string)

  function StemOf(url: Url): string { Mangle(url.path) }

  /** A call of download: the server as it is then, the time, and what can be removed. */
  datatype Request = Request(url: Url, server: Server, now: int, removable: Removable)

  // ---- single downloads

  function Everything(): Removable { _ => true }

  /** The hit and its body are what this response brought. */
  ghost predicate IsHitFor(stem: string, r: Response, hit: Option<Hit>, body: Bytes) {
    Completes(r) && hit == Some(Hit(FinalName(stem, r.etag), r.etag)) && body == Flatten(r.chunks)
  }

  /** `get` after a finished download returns exactly the stored path and ETag. */
  method DownloadThenGet(c: Cache, url: string, server: Server, now: int, later: int) returns (hit: Option<Hit>, body: Bytes)
    requires Mangle(url) in c.stems && PrefixFree(c.stems) && Named(c.dir, c.stems) && OnePerStem(c.dir)
    requires forall k :: Completes(server(k))
    modifies c`dir, c`states
    ensures exists k :: IsHitFor(Mangle(url), server(k), hit, body)
  {
    ghost var stem, before := Mangle(url), c.dir;
    var out;
    ghost var r, first;
    out, r, first := c.Download(url, server, now, Everything());
    assert AllRemovable(before, Everything());
    ghost var d, e := c.dir, Entry(stem, r.value.etag, Flatten(r.value.chunks));
    assert Holds(d, e);
    var raised;
    raised, hit := c.Get(url, later, Everything(), |c.states|, (d: Dir) => true);
    GetKeepsEntries(d, c.dir, stem, later, Everything(), raised, hit);
    body := c.dir[hit.value.path].body;
    assert IsHitFor(stem, server(KeyOf(first)), hit, body);
  }

  /** A body without an announced length makes the progress rate divide by zero: download
      raises, and an empty temporary file stays behind. */
  method ZeroLengthRaises(stems: set<string>, maxSize: nat, url: string, etag: Bytes, chunk: Bytes, now: int)
    returns (out: Outcome, d: Dir)
    requires Mangle(url) in stems && PrefixFree(stems) && chunk != []
    ensures out == Raised && TmpName(Mangle(url), etag) in d && d[TmpName(Mangle(url), etag)].body == []
  {
    var c := new Cache(stems, maxSize, map[]);
    ghost var r, hit;
    out, r, hit := c.Download(url, _ => Full(etag, 0, [chunk], false), now, Everything());
    assert AllRemovable(map[], Everything());
    d := c.dir;
  }

  /** What was downloaded for one URL is a hit for every other URL of the same stem. */
  method SharedStemSharesEntry(stems: set<string>, maxSize: nat, url: Url, other: Url, server: Server, now: int, later: int)
    returns (hit: Option<Hit>, body: Bytes)
    requires PrefixFree(stems) && StemOf(url) in stems && StemOf(other) == StemOf(url) && forall k :: Completes(server(k))
    ensures exists k :: IsHitFor(StemOf(url), server(k), hit, body)
  {
    var c := new Cache(stems, maxSize, map[]);
    var out;
    ghost var r, first;
    out, r, first := c.Download(url.path, server, now, Everything());
    assert AllRemovable(map[], Everything());
    ghost var d := c.dir;
    assert Holds(d, Entry(StemOf(url), r.value.etag, Flatten(r.value.chunks)));
    var raised;
    raised, hit := c.Get(other.path, later, Everything(), |c.states|, (d: Dir) => true);
    GetKeepsEntries(d, c.dir, StemOf(url), later, Everything(), raised, hit);
    body := c.dir[hit.value.path].body;
    assert IsHitFor(StemOf(url), server(KeyOf(first)), hit, body);
  }

  /** An ordinary download (an honest, positive length and an unbroken body, everything
      removable) is stored: the path returned holds the body, as of now. */
  method OrdinaryDownload(c: Cache, url: string, etag: Bytes, chunks: seq<Bytes>, now: int) returns (path: string)
    requires Mangle(url) in c.stems && PrefixFree(c.stems) && Named(c.dir, c.stems) && |Flatten(chunks)| > 0
    modifies c`dir, c`states
    ensures path == Mangle(url) + "-" + Hex(etag) && path in c.dir && c.dir[path] == File(Flatten(chunks), now)
  {
    ghost var before, stem := c.dir, Mangle(url);
    var out;
    ghost var r, hit;
    out, r, hit := c.Download(url, _ => Full(etag, |Flatten(chunks)|, chunks, false), now, Everything());
    assert AllRemovable(before, Everything());
    StoredIsNew(before, c.dir, c.maxSize, stem, r.value, hit, now, Everything());
    path := out.path.value;
  }

  // ---- what a download leaves of other URLs

  /** The files of other stems. */
  ghost function Others(d: Dir, stem: string): Dir {
    map n | n in d && Stem(n) != stem :: d[n]
  }

  /** The directories on the way to a stored response. */
  lemma {:induction false} StoredParts(d0: Dir, d: Dir, maxSize: nat, stem: string, r: Response, hit: Option<Hit>, now: int, removable: Removable)
    returns (looked: Dir, kept: Dir)
    requires r.Full? && Stored(d0, d, maxSize, stem, r, hit, now, removable)
    ensures Looked(d0, looked, stem, now, removable, false, hit)
    ensures MadeRoom(Staying(looked, stem, removable), r.contentLength, maxSize, kept) && Cleared(looked, kept, stem, removable)
    ensures d == (kept - {TmpName(stem, r.etag)})[FinalName(stem, r.etag) := File(Flatten(r.chunks), now)]
  {
    looked :| Looked(d0, looked, stem, now, removable, false, hit) && StoredFrom(looked, d, maxSize, stem, r, now, removable);
    kept :| MadeRoom(Staying(looked, stem, removable), r.contentLength, maxSize, kept) && Cleared(looked, kept, stem, removable)
      && d == (kept - {TmpName(stem, r.etag)})[FinalName(stem, r.etag) := File(Flatten(r.chunks), now)];
  }

  lemma {:induction false} StoredIsNew(d0: Dir, d: Dir, maxSize: nat, stem: string, r: Response, hit: Option<Hit>, now: int, removable: Removable)
    requires r.Full? && Stored(d0, d, maxSize, stem, r, hit, now, removable)
    ensures FinalName(stem, r.etag) in d && d[FinalName(stem, r.etag)] == File(Flatten(r.chunks), now)
  {
    var looked, kept := StoredParts(d0, d, maxSize, stem, r, hit, now, removable);
  }

  lemma {:induction false} LookedOthersSame(d0: Dir, looked: Dir, stem: string, now: int, removable: Removable, hit: Option<Hit>)
    requires Looked(d0, looked, stem, now, removable, false, hit)
    requires forall n :: n in d0 && Stem(n) == stem ==> removable(n)
    ensures Staying(looked, stem, removable) == Others(d0, stem)
    ensures forall n :: n in looked && Stem(n) == stem ==> removable(n)
  {
    LookedOthers(d0, looked, stem, now, removable, hit);
  }

  /** When a response is stored and the old files of its URL can be removed, the files of other
      URLs that stay are exactly the longest newest-first prefix of them that leaves room for
      the announced length. */
  lemma {:induction false} OthersAreNewest(d0: Dir, d: Dir, maxSize: nat, stem: string, r: Response, hit: Option<Hit>, now: int, removable: Removable)
    requires r.Full? && Stored(d0, d, maxSize, stem, r, hit, now, removable)
    requires forall n :: n in d0 && Stem(n) == stem ==> removable(n)
    ensures MadeRoom(Others(d0, stem), r.contentLength, maxSize, Others(d, stem))
  {
    var looked, kept := StoredParts(d0, d, maxSize, stem, r, hit, now, removable);
    LookedOthersSame(d0, looked, stem, now, removable, hit);
    TmpNameParts(stem, r.etag);
    FinalNameParts(stem, r.etag);
    KeptOthers(looked, kept, d, stem, TmpName(stem, r.etag), FinalName(stem, r.etag), File(Flatten(r.chunks), now), removable);
  }

  lemma {:induction false} KeptOthers(looked: Dir, kept: Dir, d: Dir, stem: string, tmp: string, path: string, f: File, removable: Removable)
    requires Cleared(looked, kept, stem, removable) && forall n :: n in looked && Stem(n) == stem ==> removable(n)
    requires d == (kept - {tmp})[path := f] && Stem(tmp) == Stem(path) == stem
    ensures Others(d, stem) == kept
  {
    assert forall n :: n in kept ==> Stem(n) != stem;
  }

  /** In particular, if they and the new file fit into the cache, all of them stay. */
  lemma {:induction false} OthersStayIfAllFit(d0: Dir, d: Dir, maxSize: nat, stem: string, r: Response, hit: Option<Hit>, now: int,
                                              removable: Removable, e: Entry)
    requires r.Full? && Stored(d0, d, maxSize, stem, r, hit, now, removable)
    requires forall n :: n in d0 && Stem(n) == stem ==> removable(n)
    requires Total(Others(d0, stem)) + r.contentLength <= maxSize && Holds(d0, e) && e.stem != stem
    ensures Holds(d, e)
  {
    OthersAreNewest(d0, d, maxSize, stem, r, hit, now, removable);
    AllFitsAllStays(Others(d0, stem), r.contentLength, maxSize, Others(d, stem));
    FinalNameParts(e.stem, e.key);
    assert FinalName(e.stem, e.key) in Others(d, stem);
  }

  /** The newest file of all is alone with its age. */
  lemma {:induction false} NewestIsAlone(d: Dir, p: string)
    requires p in d && forall n :: n in d && n != p ==> d[n].mtime < d[p].mtime
    ensures Total(AsNew(d, p)) == |d[p].body|
  {
    assert AsNew(d, p) == map[p := d[p]];
    TotalMinus(map[p := d[p]], p);
    assert map[p := d[p]] - {p} == map[];
  }

  /** What was used last stays: an entry that get returned survives the next download of
      another URL, whatever else has to go, if the two fit together. */
  lemma {:induction false} UsedStays(d0: Dir, d1: Dir, d2: Dir, maxSize: nat, used: string, h: Hit, now: int, removable: Removable,
                                     stem: string, r: Response, hit: Option<Hit>, later: int)
    requires Looked(d0, d1, used, now, removable, false, Some(h)) && forall n :: n in d0 ==> d0[n].mtime < now
    requires r.Full? && stem != used && Stored(d1, d2, maxSize, stem, r, hit, later, removable)
    requires forall n :: n in d1 && Stem(n) == stem ==> removable(n)
    requires h.path in d0 && |d0[h.path].body| + r.contentLength <= maxSize
    ensures Holds(d2, Entry(used, h.key, d0[h.path].body))
  {
    FinalNameParts(used, h.key);
    OthersAreNewest(d1, d2, maxSize, stem, r, hit, later, removable);
    NewestIsAlone(Others(d1, stem), h.path);
    NewEnoughStays(Others(d1, stem), r.contentLength, maxSize, Others(d2, stem), h.path);
    assert h.path in Others(d2, stem);
  }

  // ---- stops

  /** The directory before the download, or as one of its file operations left it. */
  method StoppedState(c: Cache, before: Dir, start: nat, ghost good: Dir -> bool) returns (d: Dir)
    requires good(before) && good(c.dir) && forall k :: start <= k < |c.states| ==> good(c.states[k])
    ensures good(d)
  {
    var atOnce: bool := *;
    d := if atOnce then before else c.dir;
    if !atOnce && start < |c.states| {
      var k :| start <= k < |c.states|;
      d := c.states[k];
    }
  }

  /** A download that may be stopped before or after any of its file operations. */
  method DownloadOrStop(c: Cache, url: string, server: Server, now: int, removable: Removable) returns (ghost r: Option<Response>)
    requires Mangle(url) in c.stems && PrefixFree(c.stems) && Named(c.dir, c.stems)
    modifies c`dir, c`states
    ensures r.Some? ==> exists k :: r == Some(server(k))
    ensures Fits(AimOf(old(c.dir), c.stems, c.maxSize, Mangle(url), r, removable), c.dir)
  {
    var start, before := |c.states|, c.dir;
    var out;
    ghost var hit;
    out, r, hit := c.Download(url, server, now, removable);
    var stopped: bool := *;
    if stopped {
      ghost var a := AimOf(before, c.stems, c.maxSize, Mangle(url), r, removable);
      ghost var good := (d: Dir) => Fits(a, d);
      FitsAtFirst(before, c.stems, c.maxSize, Mangle(url), r, removable);
      assert good(before);
      var d := StoppedState(c, before, start, good);
      assert good(d);
      c.dir := d;
    }
  }

  // ---- runs

  /** A full response that can be stored, sent to request i, delivers this entry. */
  ghost predicate Delivered(requests: seq<Request>, i: int, e: Entry)
    requires 0 <= i < |requests|
  {
    exists k :: Addition(StemOf(requests[i].url), requests[i].server(k)) == Some(e)
  }

  /** Only fully delivered entries are held, whatever was interrupted. */
  ghost predicate HoldsDelivered(d: Dir, requests: seq<Request>, n: nat)
    requires n <= |requests|
  {
    forall e :: Holds(d, e) ==> exists i :: 0 <= i < n && Delivered(requests, i, e)
  }

  /** All lengths announced so far are honest and within the limit. */
  ghost predicate Announced(requests: seq<Request>, n: nat, limit: nat)
    requires n <= |requests|
  {
    forall i, k :: 0 <= i < n ==> Honest(requests[i].server(k)) && (requests[i].server(k).Full? ==> requests[i].server(k).contentLength <= limit)
  }

  ghost predicate NothingStuck(requests: seq<Request>, n: nat)
    requires n <= |requests|
  {
    forall i, name :: 0 <= i < n ==> requests[i].removable(name)
  }

  /** After n requests every finished file is a fully delivered body under its ETag; with no
      file that could not be removed there is at most one per stem; and with honest lengths
      no more bytes than the limit or the largest length announced. */
  ghost predicate RunOk(d: Dir, stems: set<string>, maxSize: nat, requests: seq<Request>, n: nat)
    requires n <= |requests|
  {
    && Named(d, stems) && HoldsDelivered(d, requests, n)
    && (NothingStuck(requests, n) ==> OnePerStem(d))
    && Within(d, maxSize, requests, n)
  }

  ghost predicate KnownUrls(stems: set<string>, requests: seq<Request>) {
    PrefixFree(stems) && forall i :: 0 <= i < |requests| ==> StemOf(requests[i].url) in stems
  }

  lemma {:induction false} EmptyOk(stems: set<string>, maxSize: nat, requests: seq<Request>)
    ensures RunOk(map[], stems, maxSize, requests, 0)
  {
  }

  /** The directory at the end of a history. */
  ghost predicate EndsHistory(d: Dir, stems: set<string>, maxSize: nat, requests: seq<Request>) {
    exists dirs :: IsHistory(dirs, stems, maxSize, requests) && dirs[|requests|] == d
  }

  /** Any number of downloads, each of which may be stopped before or after any of its file
      operations, starting with an empty directory. */
  method RunDownloads(stems: set<string>, maxSize: nat, requests: seq<Request>) returns (d: Dir)
    requires KnownUrls(stems, requests)
    ensures RunOk(d, stems, maxSize, requests, |requests|) && EndsHistory(d, stems, maxSize, requests)
  {
    var c := new Cache(stems, maxSize, map[]);
    ghost var ok := (d: Dir, n: nat) => n <= |requests| && RunOk(d, stems, maxSize, requests, n);
    ghost var dirs: seq<Dir> := [map[]];
    EmptyOk(stems, maxSize, requests);
    for i := 0 to |requests|
      invariant c.stems == stems && c.maxSize == maxSize && fresh(c)
      invariant ok(c.dir, i) && |dirs| == i + 1 && dirs[i] == c.dir
      invariant IsHistory(dirs, stems, maxSize, requests[..i])
    {
      NextRequest(c, requests, i, ok);
      HistoryGrows(dirs, stems, maxSize, requests, i, c.dir);
      dirs := dirs + [c.dir];
    }
    assert requests[..|requests|] == requests;
    d := c.dir;
  }

  lemma {:induction false} HistoryGrows(dirs: seq<Dir>, stems: set<string>, maxSize: nat, requests: seq<Request>, i: nat, d: Dir)
    requires i < |requests| && IsHistory(dirs, stems, maxSize, requests[..i]) && Follows(dirs[i], d, stems, maxSize, requests[i])
    ensures IsHistory(dirs + [d], stems, maxSize, requests[..i + 1])
  {
    var more, done := dirs + [d], requests[..i + 1];
    forall j | 0 <= j < |done|
      ensures Follows(more[j], more[j + 1], stems, maxSize, done[j])
    {
      assert done[j] == requests[j] && more[j] == dirs[j];
      if j < i {
        assert requests[..i][j] == requests[j] && more[j + 1] == dirs[j + 1];
      }
    }
  }

  ghost predicate MeansOk(ok: (Dir, nat) -> bool, stems: set<string>, maxSize: nat, requests: seq<Request>) {
    forall d, n: nat :: ok(d, n) <==> n <= |requests| && RunOk(d, stems, maxSize, requests, n)
  }

  method NextRequest(c: Cache, requests: seq<Request>, i: nat, ghost ok: (Dir, nat) -> bool)
    requires i < |requests| && KnownUrls(c.stems, requests) && MeansOk(ok, c.stems, c.maxSize, requests) && ok(c.dir, i)
    modifies c`dir, c`states
    ensures ok(c.dir, i + 1) && Follows(old(c.dir), c.dir, c.stems, c.maxSize, requests[i])
  {
    ghost var before := c.dir;
    var q := requests[i];
    ghost var r := DownloadOrStop(c, q.url.path, q.server, q.now, q.removable);
    assert Leads(before, c.dir, c.stems, c.maxSize, q, r);
    RunStep(before, c.dir, c.stems, c.maxSize, requests, i, r);
  }

  lemma {:induction false} DeliveredGrows(before: Dir, d: Dir, requests: seq<Request>, i: nat, added: Option<Entry>)
    requires i < |requests| && HoldsDelivered(before, requests, i) && HoldsOnly(before, d, added)
    requires added.Some? ==> Delivered(requests, i, added.value)
    ensures HoldsDelivered(d, requests, i + 1)
  {
    forall e | Holds(d, e)
      ensures exists j :: 0 <= j < i + 1 && Delivered(requests, j, e)
    {
      if Holds(before, e) {
        var j :| 0 <= j < i && Delivered(requests, j, e);
      } else {
        assert Delivered(requests, i, e);
      }
    }
  }

  lemma {:induction false} StaysWithin(before: Dir, d: Dir, maxSize: nat, requests: seq<Request>, i: nat, r: Option<Response>, limit: nat)
    requires i < |requests| && maxSize <= limit && Announced(requests, i + 1, limit)
    requires Announced(requests, i, limit) ==> Total(before) <= limit
    requires r.Some? ==> exists k :: r == Some(requests[i].server(k))
    requires Total(d) <= if r.None? then Total(before) else Cap(before, maxSize, r.value)
    ensures Total(d) <= limit
  {
    if r.Some? {
      var k :| r == Some(requests[i].server(k));
      assert Honest(requests[i].server(k));
    }
  }

  lemma {:induction false} StepHolds(before: Dir, d: Dir, requests: seq<Request>, i: nat, r: Option<Response>)
    requires i < |requests| && HoldsDelivered(before, requests, i)
    requires r.Some? ==> exists k :: r == Some(requests[i].server(k))
    requires HoldsOnly(before, d, if r.Some? then Addition(StemOf(requests[i].url), r.value) else None)
    ensures HoldsDelivered(d, requests, i + 1)
  {
    var stem := StemOf(requests[i].url);
    var added := if r.Some? then Addition(stem, r.value) else None;
    if added.Some? {
      var k :| r == Some(requests[i].server(k));
      assert Addition(stem, requests[i].server(k)) == added;
    }
    DeliveredGrows(before, d, requests, i, added);
  }

  lemma {:induction false} StepStaysSingle(before: Dir, d: Dir, stem: string, requests: seq<Request>, i: nat, r: Option<Response>)
    requires i < |requests| && NothingStuck(requests, i + 1) && (NothingStuck(requests, i) ==> OnePerStem(before))
    requires (if r.None? then OnePerStem(before) else Single(before, stem, requests[i].removable)) ==> OnePerStem(d)
    ensures OnePerStem(d)
  {
    assert NothingStuck(requests, i);
  }

  /** The size limit that holds after n requests. */
  ghost predicate Within(d: Dir, maxSize: nat, requests: seq<Request>, n: nat)
    requires n <= |requests|
  {
    forall limit :: maxSize <= limit && Announced(requests, n, limit) ==> Total(d) <= limit
  }

  lemma {:induction false} StepStaysWithin(before: Dir, d: Dir, maxSize: nat, requests: seq<Request>, i: nat, r: Option<Response>)
    requires i < |requests| && Within(before, maxSize, requests, i)
    requires r.Some? ==> exists k :: r == Some(requests[i].server(k))
    requires Total(d) <= if r.None? then Total(before) else Cap(before, maxSize, r.value)
    ensures Within(d, maxSize, requests, i + 1)
  {
    var n := i + 1;
    forall limit | maxSize <= limit && Announced(requests, n, limit)
      ensures Total(d) <= limit
    {
      assert Announced(requests, i, limit);
      StaysWithin(before, d, maxSize, requests, i, r, limit);
    }
  }

  lemma {:induction false} RunStep(before: Dir, d: Dir, stems: set<string>, maxSize: nat, requests: seq<Request>, i: nat, r: Option<Response>)
    requires i < |requests| && RunOk(before, stems, maxSize, requests, i)
    requires r.Some? ==> exists k :: r == Some(requests[i].server(k))
    requires Fits(AimOf(before, stems, maxSize, StemOf(requests[i].url), r, requests[i].removable), d)
    ensures RunOk(d, stems, maxSize, requests, i + 1)
  {
    StepHolds(before, d, requests, i, r);
    StepStaysWithin(before, d, maxSize, requests, i, r);
    if NothingStuck(requests, i + 1) {
      StepStaysSingle(before, d, StemOf(requests[i].url), requests, i, r);
    }
  }

  // ---- what makes an entry go

  /** One request led from a directory to the next. */
  ghost predicate Leads(d: Dir, d': Dir, stems: set<string>, maxSize: nat, q: Request, r: Option<Response>) {
    (r.Some? ==> exists k :: r == Some(q.server(k))) && Fits(AimOf(d, stems, maxSize, StemOf(q.url), r, q.removable), d')
  }

  /** So does some response, or none. */
  ghost predicate Follows(d: Dir, d': Dir, stems: set<string>, maxSize: nat, q: Request) {
    exists r :: Leads(d, d', stems, maxSize, q, r)
  }

  /** The directories between requests. */
  ghost predicate IsHistory(dirs: seq<Dir>, stems: set<string>, maxSize: nat, requests: seq<Request>) {
    && |dirs| == |requests| + 1 && dirs[0] == map[]
    && forall i :: 0 <= i < |requests| ==> Follows(dirs[i], dirs[i + 1], stems, maxSize, requests[i])
  }

  /** Request i had a full response, and it was for the URL of the entry, or the entry's file
      with its rivals and the new file was too much for the cache. */
  ghost predicate GivesWay(d: Dir, maxSize: nat, q: Request, e: Entry) {
    exists k ::
      && q.server(k).Full?
      && (StemOf(q.url) == e.stem || Crowds(d, StemOf(q.url), q.removable, FinalName(e.stem, e.key), q.server(k).contentLength, maxSize))
  }

  lemma {:induction false} StepTakesAway(d: Dir, d': Dir, stems: set<string>, maxSize: nat, q: Request, e: Entry)
    requires Follows(d, d', stems, maxSize, q) && Holds(d, e) && !Holds(d', e)
    ensures GivesWay(d, maxSize, q, e)
  {
    var r :| Leads(d, d', stems, maxSize, q, r);
    FinalNameParts(e.stem, e.key);
    var a := AimOf(d, stems, maxSize, StemOf(q.url), r, q.removable);
    assert OthersStay(a, d');
    assert a.full;
    var k :| r == Some(q.server(k));
    assert q.server(k).Full?;
  }

  /** Between a directory that holds an entry and a later one that does not, one request is
      the step it went with. */
  lemma {:induction false} LastHeld(dirs: seq<Dir>, e: Entry, i: nat, n: nat) returns (j: nat)
    requires i <= n < |dirs| && Holds(dirs[i], e) && !Holds(dirs[n], e)
    ensures i <= j < n && Holds(dirs[j], e) && !Holds(dirs[j + 1], e)
  {
    j := i;
    while Holds(dirs[j + 1], e)
      invariant i <= j < n && Holds(dirs[j], e)
      decreases n - j
    {
      j := j + 1;
    }
  }

  lemma {:induction false} HistoryStep(dirs: seq<Dir>, stems: set<string>, maxSize: nat, requests: seq<Request>, j: nat)
    requires IsHistory(dirs, stems, maxSize, requests) && j < |requests|
    ensures Follows(dirs[j], dirs[j + 1], stems, maxSize, requests[j])
  {
  }

  /** In every run an entry that is held after some request and not after a later one went with
      a request in between that replaced its URL, or whose new file, with the files at least
      as new as the entry, was more than the cache may hold. */
  lemma {:induction false} EntryGoesOnlyIf(dirs: seq<Dir>, stems: set<string>, maxSize: nat, requests: seq<Request>, i: nat, n: nat, e: Entry)
    returns (j: nat)
    requires IsHistory(dirs, stems, maxSize, requests) && i <= n <= |requests| && Holds(dirs[i], e) && !Holds(dirs[n], e)
    ensures i <= j < n && Holds(dirs[j], e) && GivesWay(dirs[j], maxSize, requests[j], e)
  {
    j := LastHeld(dirs, e, i, n);
    HistoryStep(dirs, stems, maxSize, requests, j);
    StepTakesAway(dirs[j], dirs[j + 1], stems, maxSize, requests[j], e);
  }

  // ---- what a URL gets

  /** No other URL that was requested shares the stem of this one. */
  ghost predicate Unshared(requests: seq<Request>, url: Url) {
    forall i :: 0 <= i < |requests| && StemOf(requests[i].url) == StemOf(url) ==> requests[i].url == url
  }

  /** The ETag and the body are what request i may have been sent. */
  ghost predicate SentTo(requests: seq<Request>, i: int, key: Bytes, body: Bytes)
    requires 0 <= i < |requests|
  {
    exists k :: Completes(requests[i].server(k)) && requests[i].server(k).etag == key && Flatten(requests[i].server(k).chunks) == body
  }

  lemma {:induction false} EntryWasSent(d: Dir, requests: seq<Request>, e: Entry)
    requires HoldsDelivered(d, requests, |requests|) && Holds(d, e)
    ensures exists i :: 0 <= i < |requests| && StemOf(requests[i].url) == e.stem && SentTo(requests, i, e.key, e.body)
  {
    var i :| 0 <= i < |requests| && Delivered(requests, i, e);
    var k :| Addition(StemOf(requests[i].url), requests[i].server(k)) == Some(e);
    assert SentTo(requests, i, e.key, e.body);
  }

  /** After any run, with any stops, a hit for a URL is an ETag with its full body as some
      request was sent them: a request for that URL, if no other shares its stem. */
  method RunThenGet(stems: set<string>, maxSize: nat, requests: seq<Request>, url: Url, later: int, removable: Removable)
    returns (raised: bool, hit: Option<Hit>, body: Bytes)
    requires KnownUrls(stems, requests) && StemOf(url) in stems
    ensures hit.Some? ==>
              exists i :: 0 <= i < |requests| && StemOf(requests[i].url) == StemOf(url) && SentTo(requests, i, hit.value.key, body)
    ensures hit.Some? && Unshared(requests, url) ==>
              exists i :: 0 <= i < |requests| && requests[i].url == url && SentTo(requests, i, hit.value.key, body)
  {
    var d := RunDownloads(stems, maxSize, requests);
    var c := new Cache(stems, maxSize, d);
    raised, hit := c.Get(url.path, later, removable, 1, (d: Dir) => true);
    body := [];
    if hit.Some? {
      body := c.dir[hit.value.path].body;
      GetKeepsEntries(d, c.dir, StemOf(url), later, removable, raised, hit);
      EntryWasSent(d, requests, Entry(StemOf(url), hit.value.key, body));
    }
  }

  // ---- freshness

  /** Section 2.3 of RFC 7232: for this URL an ETag determines the body. */
  ghost predicate Determined(requests: seq<Request>, url: Url, bodyOf: Bytes -> Bytes) {
    forall i, key, body :: 0 <= i < |requests| && requests[i].url == url && SentTo(requests, i, key, body) ==> body == bodyOf(key)
  }

  /** Section 4.1 of RFC 7232: the server sends the current representation, and 304 only if
      the ETag it was given is the current one. */
  ghost predicate Conforms(server: Server, current: Bytes, bodyOf: Bytes -> Bytes) {
    forall k ::
      && (Completes(server(k)) ==> server(k).etag == current && Flatten(server(k).chunks) == bodyOf(current))
      && (server(k).NotModified? ==> k == Some(current))
  }

  /** After any run, stops and files that cannot be removed included, a download that
      returns a path returns one that holds the server's current body; and if all files can
      be removed and the server answers in full or with 304, it returns a path. */
  method RunThenDownload(stems: set<string>, maxSize: nat, requests: seq<Request>, url: Url, server: Server, now: int, removable: Removable,
                         ghost current: Bytes, ghost bodyOf: Bytes -> Bytes) returns (out: Outcome, body: Bytes)
    requires KnownUrls(stems, requests) && StemOf(url) in stems && Unshared(requests, url)
    requires Determined(requests, url, bodyOf) && Conforms(server, current, bodyOf)
    ensures out.Returned? && out.path.Some? ==> body == bodyOf(current)
    ensures (forall n :: removable(n)) && (forall k :: Completes(server(k)) || server(k).NotModified?) ==> out.Returned? && out.path.Some?
  {
    var d := RunDownloads(stems, maxSize, requests);
    out, body := DownloadFresh(d, stems, maxSize, requests, url, server, now, removable, current, bodyOf);
  }

  method DownloadFresh(d: Dir, stems: set<string>, maxSize: nat, ghost requests: seq<Request>, url: Url, server: Server, now: int, removable: Removable,
                       ghost current: Bytes, ghost bodyOf: Bytes -> Bytes) returns (out: Outcome, body: Bytes)
    requires StemOf(url) in stems && PrefixFree(stems) && Named(d, stems)
    requires HoldsDelivered(d, requests, |requests|) && Unshared(requests, url)
    requires Determined(requests, url, bodyOf) && Conforms(server, current, bodyOf)
    ensures out.Returned? && out.path.Some? ==> body == bodyOf(current)
    ensures (forall n :: removable(n)) && (forall k :: Completes(server(k)) || server(k).NotModified?) ==> out.Returned? && out.path.Some?
  {
    var c := new Cache(stems, maxSize, d);
    ghost var r, hit;
    out, r, hit := c.Download(url.path, server, now, removable);
    body := [];
    if forall n :: removable(n) {
      assert AllRemovable(d, removable);
    }
    if out.Returned? && out.path.Some? {
      ReturnedIsThere(d, c.dir, maxSize, StemOf(url), r.value, hit, now, out, removable);
      ReturnedIsCurrent(d, c.dir, maxSize, requests, url, server, r.value, hit, now, out, removable, current, bodyOf);
      body := c.dir[out.path.value].body;
    }
  }

  lemma {:induction false} ReturnedIsThere(d0: Dir, d: Dir, maxSize: nat, stem: string, r: Response, hit: Option<Hit>, now: int, out: Outcome, removable: Removable)
    requires Answered(d0, d, maxSize, stem, r, hit, now, out, removable) && out.Returned? && out.path.Some?
    requires hit.Some? ==> hit.value.path in d0 && hit.value.path == FinalName(stem, hit.value.key)
    ensures out.path.value in d
    ensures r.Full? ==> d[out.path.value].body == Flatten(r.chunks)
    ensures r.NotModified? ==> hit.Some? && d[out.path.value].body == d0[hit.value.path].body
  {
    if r.NotModified? {
      assert Holds(d0, Entry(stem, hit.value.key, d0[hit.value.path].body));
      assert Holds(d, Entry(stem, hit.value.key, d0[hit.value.path].body));
    }
  }

  lemma {:induction false} ReturnedIsCurrent(d0: Dir, d: Dir, maxSize: nat, requests: seq<Request>, url: Url, server: Server, r: Response,
                                             hit: Option<Hit>, now: int, out: Outcome, removable: Removable, current: Bytes, bodyOf: Bytes -> Bytes)
    requires HoldsDelivered(d0, requests, |requests|) && Unshared(requests, url)
    requires Determined(requests, url, bodyOf) && Conforms(server, current, bodyOf)
    requires r == server(KeyOf(hit)) && Answered(d0, d, maxSize, StemOf(url), r, hit, now, out, removable)
    requires hit.Some? ==> hit.value.path == FinalName(StemOf(url), hit.value.key) && hit.value.path in d0
    requires out.Returned? && out.path.Some? && out.path.value in d
    ensures d[out.path.value].body == bodyOf(current)
  {
    ReturnedIsThere(d0, d, maxSize, StemOf(url), r, hit, now, out, removable);
    if r.NotModified? {
      var e := Entry(StemOf(url), hit.value.key, d0[hit.value.path].body);
      assert Holds(d0, e);
      EntryWasSent(d0, requests, e);
    }
  }
}
