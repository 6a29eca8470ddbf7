/** The download cache of build_tools/http_cache.py: conditional requests, writes to a
    temporary file that is then renamed, least-recently-used eviction. The process may stop
    between any two file operations, so every directory state along the way is recorded and
    judged; and files may turn out not to be removable. */
module HttpCache {
  import opened Basics
  import opened CacheNames
  import opened CacheDir

  type Removable = string -> bool

  datatype Hit = Hit(path: string, key: Bytes)

  /** What the server sends: the body arrives in non-empty chunks and ends either
      regularly or with an exception that is not an HTTPError. */
  datatype Response =
    | Full(etag: Bytes, contentLength: nat, chunks: seq<Bytes>, broken: bool)
    | OtherSuccess
    | NotModified
    | HttpFailure

  /** The server answers to the ETag that `get` found, if it found one. */
  type Server = Option<Bytes> -> Response

  datatype Outcome = Returned(path: Option<string>) | Raised

  function KeyOf(hit: Option<Hit>): Option<Bytes> {
    if hit.Some? then Some(hit.value.key) else None
  }

  /** Content-Length says what arrives, unless the response breaks off before that. */
  ghost predicate Honest(r: Response) {
    r.Full? ==> if r.broken then |Flatten(r.chunks)| <= r.contentLength else |Flatten(r.chunks)| == r.contentLength
  }

  /** The response can be stored: it ends regularly, and either announces a positive length
      or has no body. (The progress rate divides by the announced length.) */
  predicate Completes(r: Response) {
    r.Full? && !r.broken && (r.contentLength > 0 || r.chunks == [])
  }

  /** The entry a response adds, if any. */
  ghost function Addition(stem: string, r: Response): Option<Entry> {
    if Completes(r) then Some(Entry(stem, r.etag, Flatten(r.chunks))) else None
  }

  function Max(a: nat, b: nat): nat { if a < b then b else a }

  /** How large the directory can get on the way. */
  ghost function Cap(d0: Dir, maxSize: nat, r: Response): nat {
    if !r.Full? then Total(d0)
    else if Honest(r) then Max(Total(d0), Max(maxSize, r.contentLength))
    else Max(Total(d0), maxSize) + |Flatten(r.chunks)|
  }

  ghost predicate AllRemovable(d: Dir, removable: Removable) {
    forall n :: n in d ==> removable(n)
  }

  // ---- what every state on the way must satisfy

  /** Starting from d0, with a download for `stem`: only known names; nothing held but what
      was, and the addition; one file per stem if `single`; no more than `cap` bytes; files of
      other stems stay as they are, or go where `crowd` lets them; and files of the stem itself
      go or change only for a `full` response, but for temporary ones. */
  datatype Aim = Aim(d0: Dir, stems: set<string>, stem: string, added: Option<Entry>, single: bool, cap: nat,
                     full: bool, crowd: string -> bool)

  ghost predicate Fits(a: Aim, d: Dir) {
    Named(d, a.stems) && HoldsOnly(a.d0, d, a.added) && (a.single ==> OnePerStem(d)) && Total(d) <= a.cap && OthersStay(a, d)
  }

  ghost predicate OthersStay(a: Aim, d: Dir) {
    && (forall n :: n in d && Stem(n) != a.stem ==> n in a.d0 && d[n] == a.d0[n])
    && (forall n :: n in a.d0 && n !in d ==> if Stem(n) == a.stem then a.full || IsTmp(n) else a.crowd(n))
    && (!a.full ==> forall n :: n in d ==> n in a.d0 && d[n].body == a.d0[n].body)
  }

  ghost predicate IsGood(a: Aim, good: Dir -> bool) {
    forall d :: good(d) <==> Fits(a, d)
  }

  /** Each stem keeps to one file if it did before and the files of this stem can be removed. */
  ghost predicate Single(d: Dir, stem: string, removable: Removable) {
    OnePerStem(d) && forall n :: n in d && Stem(n) == stem ==> removable(n)
  }

  /** The files that compete with n for room: those of other stems that are at least as new,
      and those of the stem itself that cannot be removed. */
  ghost function Rivals(d: Dir, stem: string, removable: Removable, n: string): Dir
    requires n in d
  {
    map m | m in d && (if Stem(m) == stem then !removable(m) else d[m].mtime >= d[n].mtime) :: d[m]
  }

  /** With its rivals and the new file the cache is over its limit. */
  ghost predicate Crowds(d: Dir, stem: string, removable: Removable, n: string, size: nat, maxSize: nat) {
    n in d && Total(Rivals(d, stem, removable, n)) + size > maxSize
  }

  /** Which files may give way: none before there is a full response; then those of the stem,
      and those crowded out. */
  ghost function CrowdOf(d: Dir, maxSize: nat, stem: string, r: Response, removable: Removable): string -> bool {
    n => r.Full? && (Stem(n) == stem || Crowds(d, stem, removable, n, r.contentLength, maxSize))
  }

  function Nobody(): string -> bool { n => false }

  /** The aim before there is a response. */
  ghost function FirstAim(d: Dir, stems: set<string>, stem: string): Aim {
    Aim(d, stems, stem, None, OnePerStem(d), Total(d), false, Nobody())
  }

  /** The aim of a download that gets this response, or none. */
  ghost function AimOf(d: Dir, stems: set<string>, maxSize: nat, stem: string, r: Option<Response>, removable: Removable): Aim {
    if r.None? then FirstAim(d, stems, stem)
    else Aim(d, stems, stem, Addition(stem, r.value), Single(d, stem, removable), Cap(d, maxSize, r.value), r.value.Full?,
             CrowdOf(d, maxSize, stem, r.value, removable))
  }

  /** Good directories stay good without a file that `ok` lets go. */
  ghost predicate MayDrop(good: Dir -> bool, ok: string -> bool) {
    forall d: Dir, n :: good(d) && n in d && ok(n) ==> good(d - {n})
  }

  ghost predicate MayTouch(good: Dir -> bool, stem: string) {
    forall d: Dir, n, now :: good(d) && n in d && Stem(n) == stem ==> good(d[n := File(d[n].body, now)])
  }

  function OwnTmp(stem: string): string -> bool { n => Stem(n) == stem && IsTmp(n) }
  function Own(stem: string): string -> bool { n => Stem(n) == stem }

  lemma {:induction false} DropFits(a: Aim, d: Dir, n: string)
    requires Fits(a, d) && if Stem(n) == a.stem then a.full || IsTmp(n) else a.crowd(n)
    ensures Fits(a, d - {n})
  {
    DeletionShrinks(d, n);
    forall e | Holds(d - {n}, e)
      ensures Holds(a.d0, e) || a.added == Some(e)
    {
      assert Holds(d, e);
    }
  }

  /** Only the file n of the stem is new or changed. */
  ghost predicate ChangesOnly(d: Dir, d': Dir, n: string) {
    && (forall m :: m in d' && m != n ==> m in d && d'[m] == d[m])
    && (forall m :: m in d ==> m in d')
  }

  lemma {:induction false} ChangeOthersStay(a: Aim, d: Dir, d': Dir, n: string)
    requires OthersStay(a, d) && ChangesOnly(d, d', n) && Stem(n) == a.stem
    requires a.full || (n in d && n in d' && d'[n].body == d[n].body)
    ensures OthersStay(a, d')
  {
  }

  lemma {:induction false} TouchHolds(d: Dir, n: string, f: File, e: Entry)
    requires n in d && f.body == d[n].body && Holds(d[n := f], e)
    ensures Holds(d, e)
  {
  }

  lemma {:induction false} TouchFits(a: Aim, d: Dir, n: string, f: File)
    requires Fits(a, d) && n in d && Stem(n) == a.stem && f.body == d[n].body
    ensures Fits(a, d[n := f])
  {
    var d' := d[n := f];
    TouchKeepsTotal(d, n, f);
    assert d'.Keys == d.Keys;
    assert forall m :: m in d' ==> m in d;
    ChangeOthersStay(a, d, d', n);
    forall e | Holds(d', e)
      ensures Holds(a.d0, e) || a.added == Some(e)
    {
      TouchHolds(d, n, f, e);
    }
  }

  lemma {:induction false} GoodForGet(a: Aim, good: Dir -> bool)
    requires IsGood(a, good)
    ensures MayDrop(good, OwnTmp(a.stem)) && MayTouch(good, a.stem)
  {
    forall d: Dir, n | good(d) && n in d && OwnTmp(a.stem)(n)
      ensures good(d - {n})
    {
      DropFits(a, d, n);
    }
    forall d: Dir, n, now | good(d) && n in d && Stem(n) == a.stem
      ensures good(d[n := File(d[n].body, now)])
    {
      TouchFits(a, d, n, File(d[n].body, now));
    }
  }

  lemma {:induction false} GoodForPut(a: Aim, good: Dir -> bool)
    requires IsGood(a, good) && a.full
    ensures MayDrop(good, Own(a.stem)) && MayDrop(good, a.crowd)
  {
    forall d: Dir, n | good(d) && n in d && (Own(a.stem)(n) || a.crowd(n))
      ensures good(d - {n})
    {
      DropFits(a, d, n);
    }
  }

  lemma {:induction false} FitsAtFirst(d: Dir, stems: set<string>, maxSize: nat, stem: string, r: Option<Response>, removable: Removable)
    requires Named(d, stems)
    ensures Fits(AimOf(d, stems, maxSize, stem, r, removable), d)
  {
    FirstFits(d, stems, stem);
    if r.Some? {
      ResponseKeepsFit(d, stems, maxSize, stem, r.value, removable, d);
    }
  }

  lemma {:induction false} FirstFits(d: Dir, stems: set<string>, stem: string)
    requires Named(d, stems)
    ensures Fits(FirstAim(d, stems, stem), d)
  {
  }

  /** A laxer aim. */
  lemma {:induction false} LaxerFits(a: Aim, b: Aim, d: Dir)
    requires Fits(a, d) && a.d0 == b.d0 && a.stems == b.stems && a.stem == b.stem && a.added.None? && !a.full
    requires (b.single ==> a.single) && a.cap <= b.cap && forall n :: !a.crowd(n)
    ensures Fits(b, d)
  {
  }

  lemma {:induction false} CapIsEnough(d: Dir, maxSize: nat, r: Response)
    ensures Total(d) <= Cap(d, maxSize, r)
  {
  }

  /** What fits before the response is known fits afterwards. */
  lemma {:induction false} ResponseKeepsFit(d0: Dir, stems: set<string>, maxSize: nat, stem: string, r: Response, removable: Removable, d: Dir)
    requires Fits(FirstAim(d0, stems, stem), d)
    ensures Fits(AimOf(d0, stems, maxSize, stem, Some(r), removable), d)
  {
    CapIsEnough(d0, maxSize, r);
    var a, b := FirstAim(d0, stems, stem), AimOf(d0, stems, maxSize, stem, Some(r), removable);
    assert b.single == Single(d0, stem, removable) && b.cap == Cap(d0, maxSize, r);
    LaxerFits(a, b, d);
  }

  lemma {:induction false} TmpAddsNoEntry(d: Dir, n: string, f: File, e: Entry)
    requires IsTmp(n) && Holds(d[n := f], e)
    ensures Holds(d, e)
  {
    FinalNameParts(e.stem, e.key);
  }

  lemma {:induction false} WriteKeepsNames(d: Dir, stems: set<string>, n: string, f: File)
    requires Named(d, stems) && WellNamed(n) && Stem(n) in stems
    ensures Named(d[n := f], stems)
    ensures OnePerStem(d) && (forall m :: m in d ==> Stem(m) != Stem(n)) ==> OnePerStem(d[n := f])
  {
  }

  /** Writing a temporary file adds no entry, whatever is in it. */
  lemma {:induction false} TmpSafe(a: Aim, d: Dir, stem: string, key: Bytes, f: File)
    requires Fits(a, d) && stem in a.stems && stem == a.stem && a.full && Total(d) + |f.body| <= a.cap
    requires a.single ==> forall n :: n in d ==> Stem(n) != stem
    ensures Fits(a, d[TmpName(stem, key) := f])
  {
    var n := TmpName(stem, key);
    TmpNameParts(stem, key);
    assert IsName(n, stem, key);
    WritingGrows(d, n, f);
    WriteKeepsNames(d, a.stems, n, f);
    ChangeOthersStay(a, d, d[n := f], n);
    TmpHoldsOnly(a.d0, d, a.added, n, f);
  }

  lemma {:induction false} TmpHoldsOnly(d0: Dir, d: Dir, added: Option<Entry>, n: string, f: File)
    requires HoldsOnly(d0, d, added) && IsTmp(n)
    ensures HoldsOnly(d0, d[n := f], added)
  {
    forall e | Holds(d[n := f], e)
      ensures Holds(d0, e) || added == Some(e)
    {
      TmpAddsNoEntry(d, n, f, e);
    }
  }

  lemma {:induction false} RenameKeepsNames(d: Dir, stems: set<string>, tmp: string, n: string)
    requires Named(d, stems) && tmp in d && WellNamed(n) && Stem(tmp) == Stem(n)
    ensures Named(Renamed(d, tmp, n), stems) && (OnePerStem(d) ==> OnePerStem(Renamed(d, tmp, n)))
  {
    assert forall m :: m in Renamed(d, tmp, n) ==> m == n || (m in d && m != tmp);
  }

  /** Renaming the temporary file adds exactly the entry it was written for. */
  lemma {:induction false} RenameSafe(a: Aim, d: Dir, e: Entry)
    requires Fits(a, d) && a.added == Some(e) && e.stem in a.stems && e.stem == a.stem && a.full
    requires TmpName(e.stem, e.key) in d && d[TmpName(e.stem, e.key)].body == e.body
    ensures var d' := Renamed(d, TmpName(e.stem, e.key), FinalName(e.stem, e.key));
            Fits(a, d') && Holds(d', e)
  {
    var tmp, n := TmpName(e.stem, e.key), FinalName(e.stem, e.key);
    TmpNameParts(e.stem, e.key);
    FinalNameParts(e.stem, e.key);
    assert IsName(n, e.stem, e.key);
    RenameKeepsNames(d, a.stems, tmp, n);
    RenameShrinks(d, tmp, n);
    RenameHoldsOnly(a.d0, d, e);
    RenameOthersStay(a, d, tmp, n);
  }

  lemma {:induction false} RenameOthersStay(a: Aim, d: Dir, tmp: string, n: string)
    requires OthersStay(a, d) && a.full && tmp in d && Stem(tmp) == Stem(n) == a.stem
    ensures OthersStay(a, Renamed(d, tmp, n))
  {
    assert forall m :: m in Renamed(d, tmp, n) && m != n ==> m in d && Renamed(d, tmp, n)[m] == d[m];
  }

  lemma {:induction false} RenameHoldsOnly(d0: Dir, d: Dir, e: Entry)
    requires HoldsOnly(d0, d, Some(e)) && TmpName(e.stem, e.key) in d && d[TmpName(e.stem, e.key)].body == e.body
    ensures HoldsOnly(d0, Renamed(d, TmpName(e.stem, e.key), FinalName(e.stem, e.key)), Some(e))
  {
    var d' := Renamed(d, TmpName(e.stem, e.key), FinalName(e.stem, e.key));
    forall x | Holds(d', x)
      ensures Holds(d0, x) || Some(e) == Some(x)
    {
      RenamedHolds(d, e, x);
    }
  }

  lemma {:induction false} RenamedHolds(d: Dir, e: Entry, x: Entry)
    requires TmpName(e.stem, e.key) in d && d[TmpName(e.stem, e.key)].body == e.body
    requires Holds(Renamed(d, TmpName(e.stem, e.key), FinalName(e.stem, e.key)), x)
    ensures Holds(d, x) || x == e
  {
    FinalNameParts(x.stem, x.key);
    FinalNameParts(e.stem, e.key);
    if FinalName(x.stem, x.key) == FinalName(e.stem, e.key) {
      HexRoundTrip(x.key);
    }
  }

  // ---- get

  /** What `get` does to the directory, and what it finds. It raises where a temporary file
      cannot be removed. */
  ghost predicate Looked(d0: Dir, d: Dir, stem: string, now: int, removable: Removable, raised: bool, hit: Option<Hit>) {
    if raised then
      d == d0 && hit.None? && exists n :: n in d0 && Stem(n) == stem && IsTmp(n) && !removable(n)
    else match hit
      case Some(h) => h.path == FinalName(stem, h.key) && h.path in d0 && d == d0[h.path := File(d0[h.path].body, now)]
      case None =>
        || (d == d0 && forall n :: n in d0 ==> Stem(n) != stem)
        || exists n :: n in d0 && Stem(n) == stem && IsTmp(n) && removable(n) && d == d0 - {n}
  }

  /** `get` loses no entry; a hit is one of its stem; and with one file per stem it is found
      if it is there. */
  lemma {:induction false} GetKeepsEntries(d0: Dir, d: Dir, stem: string, now: int, removable: Removable, raised: bool, hit: Option<Hit>)
    requires Looked(d0, d, stem, now, removable, raised, hit)
    ensures forall e :: Holds(d0, e) ==> Holds(d, e)
    ensures hit.Some? ==> hit.value.path in d0 && Holds(d0, Entry(stem, hit.value.key, d0[hit.value.path].body))
    ensures OnePerStem(d0) ==>
              forall e :: Holds(d0, e) && e.stem == stem ==> !raised && hit == Some(Hit(FinalName(stem, e.key), e.key))
  {
    forall e | Holds(d0, e)
      ensures Holds(d, e)
      ensures OnePerStem(d0) && e.stem == stem ==> !raised && hit == Some(Hit(FinalName(stem, e.key), e.key))
    {
      FinalNameParts(e.stem, e.key);
      if hit.Some? {
        FinalNameParts(stem, hit.value.key);
        HexRoundTrip(e.key);
        HexRoundTrip(hit.value.key);
      }
    }
  }

  /** The directory without the files of the stem that can be removed. */
  ghost function Staying(d: Dir, stem: string, removable: Removable): Dir {
    map n | n in d && (Stem(n) != stem || !removable(n)) :: d[n]
  }

  /** What `put` leaves: of the stem the files that cannot be removed, and possibly others as
      they were. */
  ghost predicate Cleared(d0: Dir, d: Dir, stem: string, removable: Removable) {
    && PartOf(d, d0)
    && (forall n :: n in d && Stem(n) == stem ==> !removable(n))
    && (forall n :: n in d0 && Stem(n) == stem && !removable(n) ==> n in d)
  }

  // ---- put and the body

  /** Some matches have still to be looked at. */
  ghost predicate Clearing(d0: Dir, d: Dir, stem: string, matches: set<string>, removable: Removable) {
    && (forall n :: n in matches ==> n in d0 && Stem(n) == stem)
    && d == map n | n in d0 && (Stem(n) != stem || !removable(n) || n in matches) :: d0[n]
  }

  lemma {:induction false} ClearingStep(d0: Dir, d: Dir, d': Dir, stem: string, matches: set<string>, p: string, removable: Removable)
    requires Clearing(d0, d, stem, matches, removable) && p in matches && d' == (if removable(p) then d - {p} else d)
    ensures Clearing(d0, d', stem, matches - {p}, removable)
  {
  }

  lemma {:induction false} ClearingStarts(d: Dir, stem: string, matches: set<string>, removable: Removable)
    requires forall n :: n in matches <==> n in d && Stem(n) == stem
    ensures Clearing(d, d, stem, matches, removable)
  {
  }

  lemma {:induction false} ClearingEnds(d0: Dir, d: Dir, stem: string, removable: Removable)
    requires Clearing(d0, d, stem, {}, removable)
    ensures d == Staying(d0, stem, removable) && Cleared(d0, d, stem, removable)
  {
  }

  /** Where the eviction of a directory may take p away, `crowd` says so. */
  ghost predicate Justifies(base: Dir, size: nat, maxSize: nat, crowd: string -> bool) {
    forall p :: p in base && Total(AsNew(base, p)) + size > maxSize ==> crowd(p)
  }

  lemma {:induction false} HasToGo(base: Dir, order: seq<string>, size: nat, maxSize: nat, i: nat, k: nat, total: nat, d: Dir, crowd: string -> bool)
    requires i < |order| && order[i] in base && total >= |base[order[i]].body|
    requires Evicting(base, order, size, maxSize, i, k, total - |base[order[i]].body|, d)
    requires total + size > maxSize && Justifies(base, size, maxSize, crowd)
    ensures crowd(order[i])
  {
    SumSizesSnoc(base, order, i);
    OrderAsNew(base, order, i);
  }

  lemma {:induction false} StillCleared(d0: Dir, before: Dir, d: Dir, stem: string, removable: Removable)
    requires Cleared(d0, before, stem, removable) && PartOf(d, before)
    requires forall n :: n in before && !removable(n) ==> n in d
    ensures Cleared(d0, d, stem, removable)
  {
  }

  lemma {:induction false} PartIsPrefix(body: Bytes, chunk: Bytes, part: nat, whole: Bytes)
    requires body + chunk <= whole && part <= |chunk|
    ensures body + chunk[..part] <= whole
  {
    assert body + chunk[..part] == (body + chunk)[..|body| + part];
  }

  lemma {:induction false} TmpFits(d: Dir, maxSize: nat, a: Aim, r: Response, body: Bytes)
    requires r.Full? && body <= Flatten(r.chunks) && a.cap == Cap(a.d0, maxSize, r)
    requires d == map[] || Total(d) + r.contentLength <= maxSize
    ensures Total(d) + |body| <= a.cap
  {
  }

  /** Any prefix of the body may lie in the temporary file. */
  lemma {:induction false} TmpAlwaysFits(a: Aim, base: Dir, maxSize: nat, stem: string, r: Response, now: int, good: Dir -> bool)
    requires r.Full? && stem in a.stems && stem == a.stem && a.full && IsGood(a, good) && good(base) && a.cap == Cap(a.d0, maxSize, r)
    requires a.single ==> forall n :: n in base ==> Stem(n) != stem
    requires base == map[] || Total(base) + r.contentLength <= maxSize
    ensures forall body :: body <= Flatten(r.chunks) ==> good(base[TmpName(stem, r.etag) := File(body, now)])
  {
    forall body | body <= Flatten(r.chunks)
      ensures good(base[TmpName(stem, r.etag) := File(body, now)])
    {
      TmpFits(base, maxSize, a, r, body);
      TmpSafe(a, base, stem, r.etag, File(body, now));
    }
  }

  /** The temporary file is there, with a prefix of the body, and nothing else has changed. */
  ghost predicate LeavesTmp(d0: Dir, d: Dir, stem: string, r: Response)
    requires r.Full?
  {
    var tmp := TmpName(stem, r.etag);
    && tmp in d && d == d0[tmp := d[tmp]] && d[tmp].body <= Flatten(r.chunks)
    && (r.contentLength == 0 ==> d[tmp].body == [])
  }

  /** A body that was not stored: of its stem there is the temporary file and no other. */
  ghost predicate Unfinished(d: Dir, stem: string, r: Response)
    requires r.Full?
  {
    var tmp := TmpName(stem, r.etag);
    && tmp in d && d[tmp].body <= Flatten(r.chunks) && (r.contentLength == 0 ==> d[tmp].body == [])
    && forall n :: n in d && Stem(n) == stem ==> n == tmp
  }

  lemma {:induction false} OnlyTmpLeft(d0: Dir, cleared: Dir, d: Dir, stem: string, r: Response, removable: Removable)
    requires r.Full? && AllRemovable(d0, removable) && Cleared(d0, cleared, stem, removable) && LeavesTmp(cleared, d, stem, r)
    ensures Unfinished(d, stem, r)
  {
  }

  lemma {:induction false} RenamedFile(base: Dir, tmp: string, path: string, f: File)
    ensures Renamed(base[tmp := f], tmp, path) == (base - {tmp})[path := f]
  {
    assert base[tmp := f] - {tmp} == base - {tmp};
  }

  // ---- the answer of a download

  /** The longest newest-first prefix that leaves room, of all files but the removable ones
      of the stem, and the new file as of now. */
  ghost predicate StoredFrom(looked: Dir, d: Dir, maxSize: nat, stem: string, r: Response, now: int, removable: Removable)
    requires r.Full?
  {
    exists kept ::
      && MadeRoom(Staying(looked, stem, removable), r.contentLength, maxSize, kept) && Cleared(looked, kept, stem, removable)
      && d == (kept - {TmpName(stem, r.etag)})[FinalName(stem, r.etag) := File(Flatten(r.chunks), now)]
  }

  /** The new file has taken the place of the old ones of its stem, but for those that
      cannot be removed. */
  ghost predicate Replaced(d0: Dir, d: Dir, stem: string, key: Bytes, removable: Removable) {
    var path := FinalName(stem, key);
    && path in d
    && (forall n :: n in d && n != path ==> n in d0 && (Stem(n) == stem ==> !removable(n)))
    && (forall n :: n in d0 && Stem(n) == stem && !removable(n) && !IsTmp(n) ==> n in d)
  }

  lemma {:induction false} NowReplaced(looked: Dir, d: Dir, maxSize: nat, stem: string, r: Response, now: int, removable: Removable)
    requires r.Full? && StoredFrom(looked, d, maxSize, stem, r, now, removable)
    ensures Replaced(looked, d, stem, r.etag, removable) && Holds(d, Entry(stem, r.etag, Flatten(r.chunks)))
  {
    var tmp, path, f := TmpName(stem, r.etag), FinalName(stem, r.etag), File(Flatten(r.chunks), now);
    TmpNameParts(stem, r.etag);
    var kept :| Cleared(looked, kept, stem, removable) && d == (kept - {tmp})[path := f];
    KeptIsReplaced(looked, kept, d, stem, tmp, path, f, removable);
  }

  lemma {:induction false} KeptIsReplaced(looked: Dir, kept: Dir, d: Dir, stem: string, tmp: string, path: string, f: File, removable: Removable)
    requires Cleared(looked, kept, stem, removable) && d == (kept - {tmp})[path := f] && IsTmp(tmp)
    ensures path in d && d[path] == f
    ensures forall n :: n in d && n != path ==> n in looked && (Stem(n) == stem ==> !removable(n))
    ensures forall n :: n in looked && Stem(n) == stem && !removable(n) && !IsTmp(n) ==> n in d
  {
    assert forall n :: n in d && n != path ==> n in kept;
  }

  /** The old file of a stem can be replaced by a new one: it can be removed, or it has the
      new file's name. */
  ghost predicate Replaceable(d: Dir, stem: string, key: Bytes, removable: Removable) {
    forall n :: n in d && Stem(n) == stem && !removable(n) ==> n == FinalName(stem, key)
  }

  ghost predicate Stored(d0: Dir, d: Dir, maxSize: nat, stem: string, r: Response, hit: Option<Hit>, now: int, removable: Removable)
    requires r.Full?
  {
    && Holds(d, Entry(stem, r.etag, Flatten(r.chunks)))
    && (Honest(r) ==> Total(d) <= Max(maxSize, r.contentLength))
    && (OnePerStem(d0) ==> (OnePerStem(d) <==> Replaceable(d0, stem, r.etag, removable)))
    && exists looked :: Looked(d0, looked, stem, now, removable, false, hit) && StoredFrom(looked, d, maxSize, stem, r, now, removable)
  }

  /** What download makes of a response to what `get` found in d0. */
  ghost predicate Answered(d0: Dir, d: Dir, maxSize: nat, stem: string, r: Response, hit: Option<Hit>, now: int, out: Outcome, removable: Removable) {
    match r
    case Full(etag, _, _, _) =>
      && (out.Returned? ==> Completes(r) && out == Returned(Some(FinalName(stem, etag))) && Stored(d0, d, maxSize, stem, r, hit, now, removable))
      && (AllRemovable(d0, removable) ==> if Completes(r) then out.Returned? else Unfinished(d, stem, r))
    case NotModified =>
      out == Returned(if hit.Some? then Some(hit.value.path) else None) && forall e :: Holds(d0, e) ==> Holds(d, e)
    case _ =>
      out == Returned(None) && forall e :: Holds(d0, e) ==> Holds(d, e)
  }

  lemma {:induction false} LookedKeepsNames(d0: Dir, d: Dir, stem: string, now: int, removable: Removable, hit: Option<Hit>)
    requires Looked(d0, d, stem, now, removable, false, hit)
    ensures forall n :: n in d ==> n in d0
  {
  }

  /** With one file per stem before, a stored file is alone again exactly if the old one
      was replaceable. */
  lemma {:induction false} AloneIffReplaceable(d0: Dir, looked: Dir, d: Dir, stem: string, key: Bytes, hit: Option<Hit>, now: int, removable: Removable)
    requires Looked(d0, looked, stem, now, removable, false, hit) && Replaced(looked, d, stem, key, removable) && OnePerStem(d0)
    ensures OnePerStem(d) <==> Replaceable(d0, stem, key, removable)
  {
    var path := FinalName(stem, key);
    FinalNameParts(stem, key);
    LookedKeepsNames(d0, looked, stem, now, removable, hit);
    if OnePerStem(d) {
      forall n | n in d0 && Stem(n) == stem && !removable(n)
        ensures n == path
      {
        UnremovableStays(d0, looked, stem, hit, now, removable, n);
      }
    }
    if Replaceable(d0, stem, key, removable) {
      forall m, n | m in d && n in d && Stem(m) == Stem(n)
        ensures m == n
      {
        assert m == path || (m in d0 && (Stem(m) == stem ==> m == path));
        assert n == path || (n in d0 && (Stem(n) == stem ==> n == path));
      }
    }
  }

  lemma {:induction false} UnremovableStays(d0: Dir, looked: Dir, stem: string, hit: Option<Hit>, now: int, removable: Removable, n: string)
    requires Looked(d0, looked, stem, now, removable, false, hit) && OnePerStem(d0)
    requires n in d0 && Stem(n) == stem && !removable(n)
    ensures n in looked && !IsTmp(n)
  {
    if hit.Some? {
      FinalNameParts(stem, hit.value.key);
    }
  }

  lemma {:induction false} StoredAnswers(d0: Dir, looked: Dir, d: Dir, maxSize: nat, stem: string, r: Response, hit: Option<Hit>, now: int,
                                         out: Outcome, removable: Removable)
    requires r.Full? && Looked(d0, looked, stem, now, removable, false, hit)
    requires out.Returned? ==>
               && Completes(r) && out == Returned(Some(FinalName(stem, r.etag)))
               && (Honest(r) ==> Total(d) <= Max(maxSize, r.contentLength))
               && StoredFrom(looked, d, maxSize, stem, r, now, removable)
    requires AllRemovable(looked, removable) ==> if Completes(r) then out.Returned? else Unfinished(d, stem, r)
    ensures Answered(d0, d, maxSize, stem, r, hit, now, out, removable)
  {
    LookedKeepsNames(d0, looked, stem, now, removable, hit);
    if out.Returned? {
      NowReplaced(looked, d, maxSize, stem, r, now, removable);
      if OnePerStem(d0) {
        AloneIffReplaceable(d0, looked, d, stem, r.etag, hit, now, removable);
      }
    }
  }

  /** The files of a directory after `get`, seen from before it: the same, but for the file of
      the stem that was touched or removed. */
  lemma {:induction false} LookedOthers(d0: Dir, looked: Dir, stem: string, now: int, removable: Removable, hit: Option<Hit>)
    requires Looked(d0, looked, stem, now, removable, false, hit)
    ensures forall n :: n in looked ==> n in d0 && looked[n].body == d0[n].body && (Stem(n) != stem ==> looked[n] == d0[n])
    ensures forall n :: n in d0 && Stem(n) != stem ==> n in looked
  {
    if hit.Some? {
      FinalNameParts(stem, hit.value.key);
    }
  }

  /** Whatever the eviction may take away of the directory after `get`, has to give way to its
      rivals in the directory before. */
  lemma {:induction false} CrowdIsJust(d0: Dir, looked: Dir, stems: set<string>, maxSize: nat, stem: string, r: Response, now: int,
                                       removable: Removable, hit: Option<Hit>)
    requires r.Full? && Looked(d0, looked, stem, now, removable, false, hit)
    ensures Justifies(Staying(looked, stem, removable), r.contentLength, maxSize, CrowdOf(d0, maxSize, stem, r, removable))
  {
    LookedOthers(d0, looked, stem, now, removable, hit);
    var base, crowd := Staying(looked, stem, removable), CrowdOf(d0, maxSize, stem, r, removable);
    forall p | p in base && Total(AsNew(base, p)) + r.contentLength > maxSize
      ensures crowd(p)
    {
      if Stem(p) != stem {
        AsNewAreRivals(d0, looked, stem, removable, p);
      }
    }
  }

  lemma {:induction false} AsNewAreRivals(d0: Dir, looked: Dir, stem: string, removable: Removable, p: string)
    requires forall n :: n in looked ==> n in d0 && looked[n].body == d0[n].body && (Stem(n) != stem ==> looked[n] == d0[n])
    requires p in Staying(looked, stem, removable) && Stem(p) != stem
    ensures p in d0 && Total(AsNew(Staying(looked, stem, removable), p)) <= Total(Rivals(d0, stem, removable, p))
  {
    var base := Staying(looked, stem, removable);
    forall m | m in AsNew(base, p)
      ensures m in Rivals(d0, stem, removable, p)
    {
      assert m in base && m in looked;
    }
    TotalMonotone(AsNew(base, p), Rivals(d0, stem, removable, p));
  }

  class Cache {
    const stems: set<string>
    const maxSize: nat
    var dir: Dir
    var states: seq<Dir>  // every state the directory has gone through

    constructor (stems: set<string>, maxSize: nat, dir: Dir)
      ensures this.stems == stems && this.maxSize == maxSize && this.dir == dir && states == [dir]
    {
      this.stems, this.maxSize, this.dir, this.states := stems, maxSize, dir, [dir];
    }

    /** Every state since point `from`, and the present one, is good. */
    ghost predicate AllGood(from: nat, good: Dir -> bool)
      reads this
    {
      from <= |states| && good(dir) && forall i :: from <= i < |states| ==> good(states[i])
    }

    // -- file operations

    /** One file operation: the directory moves on to `d`. */
    method Commit(d: Dir, ghost from: nat, ghost good: Dir -> bool)
      requires AllGood(from, good) && good(d)
      modifies this`dir, this`states
      ensures dir == d && states == old(states) + [d] && AllGood(from, good)
    {
      dir := d;
      states := states + [d];
    }

    /** os.remove of a file that can be removed */
    method Remove(n: string, ghost ok: string -> bool, ghost from: nat, ghost good: Dir -> bool)
      requires n in dir && ok(n) && AllGood(from, good) && MayDrop(good, ok)
      modifies this`dir, this`states
      ensures dir == old(dir) - {n} && AllGood(from, good) && |old(states)| <= |states|
    {
      Commit(dir - {n}, from, good);
    }

    // -- Cache.get

    method Get(url: string, now: int, removable: Removable, ghost from: nat, ghost good: Dir -> bool)
      returns (raised: bool, hit: Option<Hit>)
      requires Mangle(url) in stems && PrefixFree(stems) && Named(dir, stems)
      requires AllGood(from, good) && MayDrop(good, OwnTmp(Mangle(url))) && MayTouch(good, Mangle(url))
      modifies this`dir, this`states
      ensures AllGood(from, good) && |old(states)| <= |states|
      ensures Looked(old(dir), dir, Mangle(url), now, removable, raised, hit)
    {
      var stem := Mangle(url);
      forall n | n in dir
        ensures Matches(stem, n) <==> Stem(n) == stem
      {
        MatchesOwnFilesOnly(stems, stem, n);
      }
      raised, hit := false, None;
      if n :| n in dir && Matches(stem, n) {
        if IsTmp(n) {
          if !removable(n) {
            return true, None;
          }
          Remove(n, OwnTmp(stem), from, good);
          return false, None;
        }
        ghost var key := WellNamedFinal(n);
        var decoded := UnHex(KeyText(n));
        Commit(dir[n := File(dir[n].body, now)], from, good);
        return false, Some(Hit(n, decoded.value));
      }
    }

    // -- Cache._accomodate

    method ListNewestFirst() returns (order: seq<string>)
      ensures NewestFirst(dir, order)
    {
      order := [];
      var rest := dir.Keys;
      while rest != {}
        invariant rest <= dir.Keys && Distinct(order) && Elements(order) == dir.Keys - rest
        invariant forall i :: 0 <= i < |order| ==> order[i] in dir
        invariant forall i, j :: 0 <= i < j < |order| ==> dir[order[i]].mtime >= dir[order[j]].mtime
        invariant forall i, m :: 0 <= i < |order| && m in rest ==> dir[order[i]].mtime >= dir[m].mtime
        decreases rest
      {
        ghost var newest := NewestExists(dir, rest);
        var n :| n in rest && forall m :: m in rest ==> dir[m].mtime <= dir[n].mtime;
        DistinctConcat(order, [n]);
        order := order + [n];
        rest := rest - {n};
      }
    }

    /** What the eviction has to leave alone. */
    ghost predicate Spares(base: Dir, removable: Removable)
      reads this
    {
      forall n :: n in base && !removable(n) ==> n in dir
    }

    /** One round of the eviction loop; a file that has to go but cannot raises. */
    method Consider(order: seq<string>, i: nat, size: nat, total: nat, removable: Removable, ghost k: nat, ghost base: Dir,
                    ghost crowd: string -> bool, ghost from: nat, ghost good: Dir -> bool) returns (raised: bool, total': nat, ghost k': nat)
      requires i < |order| && Evicting(base, order, size, maxSize, i, k, total, dir) && Spares(base, removable)
      requires AllGood(from, good) && MayDrop(good, crowd) && Justifies(base, size, maxSize, crowd)
      modifies this`dir, this`states
      ensures AllGood(from, good) && |old(states)| <= |states|
      ensures raised ==> dir == old(dir) && order[i] in base && !removable(order[i])
      ensures !raised ==> Evicting(base, order, size, maxSize, i + 1, k', total', dir) && Spares(base, removable)
    {
      var p := order[i];
      total' := total + |dir[p].body|;
      k', raised := k, false;
      if total' + size > maxSize {
        if !removable(p) {
          return true, total', k';
        }
        HasToGo(base, order, size, maxSize, i, k, total', dir, crowd);
        EvictStep(base, order, size, maxSize, i, k, total', dir);
        Remove(p, crowd, from, good);
      } else {
        KeepStep(base, order, size, maxSize, i, k, total', dir);
        k' := i + 1;
      }
    }

    /** The newest-first loop: sizes are added up, and once the new file would not fit
        any more every further file goes. */
    method EvictAll(order: seq<string>, size: nat, removable: Removable, ghost base: Dir, ghost crowd: string -> bool,
                    ghost from: nat, ghost good: Dir -> bool) returns (raised: bool, ghost k: nat, ghost total: nat)
      requires Evicting(base, order, size, maxSize, 0, 0, 0, dir) && Spares(base, removable)
      requires AllGood(from, good) && MayDrop(good, crowd) && Justifies(base, size, maxSize, crowd)
      modifies this`dir, this`states
      ensures AllGood(from, good) && |old(states)| <= |states|
      ensures raised ==> exists n :: n in base && !removable(n)
      ensures !raised ==> Evicting(base, order, size, maxSize, |order|, k, total, dir) && Spares(base, removable)
    {
      var sum: nat := 0;
      k, raised := 0, false;
      for i := 0 to |order|
        invariant AllGood(from, good) && |old(states)| <= |states|
        invariant Evicting(base, order, size, maxSize, i, k, sum, dir) && Spares(base, removable)
      {
        raised, sum, k := Consider(order, i, size, sum, removable, k, base, crowd, from, good);
        if raised {
          return true, k, sum;
        }
      }
      total := sum;
    }

    method Accommodate(size: nat, removable: Removable, ghost crowd: string -> bool, ghost from: nat, ghost good: Dir -> bool)
      returns (raised: bool, order: seq<string>, ghost k: nat)
      requires AllGood(from, good) && MayDrop(good, crowd) && Justifies(dir, size, maxSize, crowd)
      modifies this`dir, this`states
      ensures AllGood(from, good) && |old(states)| <= |states|
      ensures raised ==> exists n :: n in old(dir) && !removable(n)
      ensures !raised ==> KeepsNewest(old(dir), size, maxSize, dir, order, k)
      ensures !raised ==> PartOf(dir, old(dir)) && Spares(old(dir), removable)
    {
      order := ListNewestFirst();
      ghost var base, total := dir, 0;
      EvictStart(base, order, size, maxSize);
      raised, k, total := EvictAll(order, size, removable, base, crowd, from, good);
      if !raised {
        EvictEnd(base, order, size, maxSize, k, total, dir);
      }
    }

    // -- Cache.put

    /** glob(pattern) */
    method ListMatches(stem: string) returns (matches: set<string>)
      requires stem in stems && PrefixFree(stems) && Named(dir, stems)
      ensures forall n :: n in matches <==> n in dir && Stem(n) == stem
    {
      forall n | n in dir
        ensures Matches(stem, n) <==> Stem(n) == stem
      {
        MatchesOwnFilesOnly(stems, stem, n);
      }
      matches := set n | n in dir && Matches(stem, n);
    }

    /** The files of the URL go; one that cannot be removed is logged and stays. */
    method RemoveMatches(stem: string, removable: Removable, ghost from: nat, ghost good: Dir -> bool)
      requires stem in stems && PrefixFree(stems) && Named(dir, stems)
      requires AllGood(from, good) && MayDrop(good, Own(stem))
      modifies this`dir, this`states
      ensures AllGood(from, good) && |old(states)| <= |states|
      ensures dir == Staying(old(dir), stem, removable) && Cleared(old(dir), dir, stem, removable)
    {
      ghost var base := dir;
      var matches := ListMatches(stem);
      ClearingStarts(dir, stem, matches, removable);
      while matches != {}
        invariant AllGood(from, good) && |old(states)| <= |states| && Clearing(base, dir, stem, matches, removable)
        decreases matches
      {
        var p :| p in matches;
        ghost var before := dir;
        if removable(p) {
          Remove(p, Own(stem), from, good);
        }
        ClearingStep(base, before, dir, stem, matches, p, removable);
        matches := matches - {p};
      }
      ClearingEnds(base, dir, stem, removable);
    }

    /** The eviction as `put` needs it. */
    method MakeRoom(size: nat, removable: Removable, ghost crowd: string -> bool, ghost from: nat, ghost good: Dir -> bool) returns (raised: bool)
      requires AllGood(from, good) && MayDrop(good, crowd) && Justifies(dir, size, maxSize, crowd)
      modifies this`dir, this`states
      ensures AllGood(from, good) && |old(states)| <= |states|
      ensures raised ==> exists n :: n in old(dir) && !removable(n)
      ensures !raised ==> MadeRoom(old(dir), size, maxSize, dir)
      ensures !raised ==> (dir == map[] || Total(dir) + size <= maxSize) && PartOf(dir, old(dir))
      ensures !raised ==> forall n :: n in old(dir) && !removable(n) ==> n in dir
    {
      ghost var before := dir;
      ghost var order, k;
      raised, order, k := Accommodate(size, removable, crowd, from, good);
      if !raised {
        RoomIsMade(before, size, maxSize, dir, order, k);
      }
    }

    /** None if the eviction raised. What is left is the longest newest-first prefix, with
        room for the new file, of all files but those of the URL that can be removed. */
    method Put(url: string, key: Bytes, size: nat, removable: Removable, ghost crowd: string -> bool, ghost from: nat, ghost good: Dir -> bool)
      returns (path: Option<string>)
      requires Mangle(url) in stems && PrefixFree(stems) && Named(dir, stems)
      requires AllGood(from, good) && MayDrop(good, Own(Mangle(url))) && MayDrop(good, crowd)
      requires Justifies(Staying(dir, Mangle(url), removable), size, maxSize, crowd)
      modifies this`dir, this`states
      ensures AllGood(from, good) && |old(states)| <= |states|
      ensures path.None? ==> exists n :: n in old(dir) && !removable(n)
      ensures path.Some? ==>
                && path.value == FinalName(Mangle(url), key)
                && MadeRoom(Staying(old(dir), Mangle(url), removable), size, maxSize, dir)
                && Cleared(old(dir), dir, Mangle(url), removable)
                && (dir == map[] || Total(dir) + size <= maxSize)
    {
      var stem := Mangle(url);
      ghost var first := dir;
      RemoveMatches(stem, removable, from, good);
      ghost var before := dir;
      var raised := MakeRoom(size, removable, crowd, from, good);
      if raised {
        return None;
      }
      StillCleared(first, before, dir, stem, removable);
      path := Some(FinalName(stem, key));
    }

    // -- download

    /** The body of a full response goes to the temporary file, chunk by chunk (of which any
        part may be there first); true if it ended regularly. Written is always a prefix of
        the body. */
    method WriteBody(stem: string, r: Response, now: int, ghost base: Dir, ghost from: nat, ghost good: Dir -> bool)
      returns (ok: bool, ghost written: Bytes)
      requires r.Full? && AllGood(from, good) && dir == base
      requires forall body :: body <= Flatten(r.chunks) ==> good(base[TmpName(stem, r.etag) := File(body, now)])
      modifies this`dir, this`states
      ensures ok == Completes(r) && AllGood(from, good) && |old(states)| <= |states|
      ensures dir == base[TmpName(stem, r.etag) := File(written, now)] && written <= Flatten(r.chunks)
      ensures ok || (r.broken && r.contentLength > 0) ==> written == Flatten(r.chunks)
      ensures r.contentLength == 0 ==> written == []
    {
      var tmp := TmpName(stem, r.etag);
      var body: Bytes := [];
      Commit(dir[tmp := File(body, now)], from, good);
      for i := 0 to |r.chunks|
        invariant body == Flatten(r.chunks[..i]) && body <= Flatten(r.chunks)
        invariant i > 0 ==> r.contentLength > 0
        invariant dir == base[tmp := File(body, now)] && AllGood(from, good) && |old(states)| <= |states|
      {
        if r.contentLength == 0 {
          return false, body;  // float division by zero
        }
        FlattenTake(r.chunks, i);
        FlattenPrefix(r.chunks, i + 1);
        var part: nat :| part <= |r.chunks[i]|;
        PartIsPrefix(body, r.chunks[i], part, Flatten(r.chunks));
        WritePrefix(tmp, body + r.chunks[i][..part], now, Flatten(r.chunks), base, from, good);
        body := body + r.chunks[i];
        WritePrefix(tmp, body, now, Flatten(r.chunks), base, from, good);
      }
      assert r.chunks[..|r.chunks|] == r.chunks;
      ok, written := !r.broken, body;
    }

    method WritePrefix(tmp: string, body: Bytes, now: int, ghost whole: Bytes, ghost base: Dir, ghost from: nat, ghost good: Dir -> bool)
      requires body <= whole && AllGood(from, good) && tmp in dir && dir == base[tmp := dir[tmp]]
      requires forall b :: b <= whole ==> good(base[tmp := File(b, now)])
      modifies this`dir, this`states
      ensures dir == base[tmp := File(body, now)] && AllGood(from, good) && |old(states)| <= |states|
    {
      assert dir[tmp := File(body, now)] == base[tmp := File(body, now)];
      Commit(dir[tmp := File(body, now)], from, good);
    }

    /** From the temporary file to the rename. */
    method StoreBody(stem: string, path: string, r: Response, now: int, ghost a: Aim, ghost from: nat, ghost good: Dir -> bool)
      returns (out: Outcome)
      requires r.Full? && stem in stems && path == FinalName(stem, r.etag)
      requires IsAim(a, r, stem) && IsGood(a, good) && AllGood(from, good)
      requires a.single ==> forall n :: n in dir ==> Stem(n) != stem
      requires dir == map[] || Total(dir) + r.contentLength <= maxSize
      modifies this`dir, this`states
      ensures AllGood(from, good) && |old(states)| <= |states|
      ensures Completes(r) ==>
                && out == Returned(Some(path))
                && Holds(dir, Entry(stem, r.etag, Flatten(r.chunks)))
                && (Honest(r) ==> Total(dir) <= Max(maxSize, r.contentLength))
                && dir == (old(dir) - {TmpName(stem, r.etag)})[path := File(Flatten(r.chunks), now)]
      ensures !Completes(r) ==> out == Raised && LeavesTmp(old(dir), dir, stem, r)
    {
      ghost var base := dir;
      TmpAlwaysFits(a, base, maxSize, stem, r, now, good);
      var ok;
      ghost var written;
      ok, written := WriteBody(stem, r, now, base, from, good);
      if !ok {
        return Raised;
      }
      RenameTmp(stem, path, r, now, base, a, from, good);
      return Returned(Some(path));
    }

    /** The aim allows for this response. */
    ghost predicate IsAim(a: Aim, r: Response, stem: string) {
      a.stems == stems && a.stem == stem && a.full && a.added == Addition(stem, r) && a.cap == Cap(a.d0, maxSize, r)
    }

    /** os.rename(tmp, path) */
    method RenameTmp(stem: string, path: string, r: Response, now: int, ghost base: Dir, ghost a: Aim, ghost from: nat, ghost good: Dir -> bool)
      requires Completes(r) && stem in stems && path == FinalName(stem, r.etag)
      requires IsAim(a, r, stem) && IsGood(a, good) && AllGood(from, good)
      requires base == map[] || Total(base) + r.contentLength <= maxSize
      requires dir == base[TmpName(stem, r.etag) := File(Flatten(r.chunks), now)]
      modifies this`dir, this`states
      ensures AllGood(from, good) && |old(states)| <= |states|
      ensures dir == (base - {TmpName(stem, r.etag)})[path := File(Flatten(r.chunks), now)]
      ensures Holds(dir, Entry(stem, r.etag, Flatten(r.chunks)))
      ensures Honest(r) ==> Total(dir) <= Max(maxSize, r.contentLength)
    {
      RenameSafe(a, dir, Entry(stem, r.etag, Flatten(r.chunks)));
      RenameShrinks(dir, TmpName(stem, r.etag), path);
      WritingGrows(base, TmpName(stem, r.etag), File(Flatten(r.chunks), now));
      RenamedFile(base, TmpName(stem, r.etag), path, File(Flatten(r.chunks), now));
      Commit(Renamed(dir, TmpName(stem, r.etag), path), from, good);
    }

    /** The 200 branch of download, from put to rename. */
    method Store(url: string, r: Response, now: int, removable: Removable, ghost a: Aim, ghost from: nat, ghost good: Dir -> bool)
      returns (out: Outcome)
      requires r.Full? && Mangle(url) in stems && PrefixFree(stems) && Named(dir, stems)
      requires IsAim(a, r, Mangle(url)) && IsGood(a, good) && AllGood(from, good)
      requires Justifies(Staying(dir, Mangle(url), removable), r.contentLength, maxSize, a.crowd)
      requires a.single ==> forall n :: n in dir && Stem(n) == Mangle(url) ==> removable(n)
      modifies this`dir, this`states
      ensures AllGood(from, good) && |old(states)| <= |states|
      ensures !Completes(r) ==> out == Raised
      ensures out.Returned? ==>
                && out == Returned(Some(FinalName(Mangle(url), r.etag)))
                && (Honest(r) ==> Total(dir) <= Max(maxSize, r.contentLength))
                && StoredFrom(old(dir), dir, maxSize, Mangle(url), r, now, removable)
      ensures AllRemovable(old(dir), removable) ==>
                if Completes(r) then out.Returned? else Unfinished(dir, Mangle(url), r)
    {
      ghost var before := dir;
      GoodForPut(a, good);
      var path := Put(url, r.etag, r.contentLength, removable, a.crowd, from, good);
      if path.None? {
        return Raised;
      }
      ghost var cleared := dir;
      out := StoreBody(Mangle(url), path.value, r, now, a, from, good);
      if !Completes(r) && AllRemovable(before, removable) {
        OnlyTmpLeft(before, cleared, dir, Mangle(url), r, removable);
      }
    }

    /** download, for every server and every set of files that cannot be removed: what it
        returns, what the directory then holds, and what every state in between satisfies.
        Without a response, `get` raised. */
    method Download(url: string, server: Server, now: int, removable: Removable)
      returns (out: Outcome, ghost r: Option<Response>, ghost hit: Option<Hit>)
      requires Mangle(url) in stems && PrefixFree(stems) && Named(dir, stems)
      modifies this`dir, this`states
      ensures |old(states)| <= |states|
      ensures var a := AimOf(old(dir), stems, maxSize, Mangle(url), r, removable);
              Fits(a, dir) && forall i :: |old(states)| <= i < |states| ==> Fits(a, states[i])
      ensures r.None? ==> out == Raised && hit.None? && dir == old(dir)
      ensures r.Some? ==> r == Some(server(KeyOf(hit))) && Answered(old(dir), dir, maxSize, Mangle(url), r.value, hit, now, out, removable)
      ensures hit.Some? ==> hit.value.path == FinalName(Mangle(url), hit.value.key) && hit.value.path in old(dir)
      ensures OnePerStem(old(dir)) ==>
                forall e :: Holds(old(dir), e) && e.stem == Mangle(url) ==>
                  r.Some? && hit == Some(Hit(FinalName(e.stem, e.key), e.key))
      ensures AllRemovable(old(dir), removable) ==> r.Some?
    {
      ghost var d0, stem, from := dir, Mangle(url), |states|;
      ghost var a0 := FirstAim(dir, stems, stem);
      ghost var good0 := (d: Dir) => Fits(a0, d);
      GoodForGet(a0, good0);
      FitsAtFirst(dir, stems, maxSize, stem, None, removable);
      var raised, found := Get(url, now, removable, from, good0);
      GetKeepsEntries(d0, dir, stem, now, removable, raised, found);
      hit := found;
      if raised {
        return Raised, None, None;
      }
      var response := server(KeyOf(found));
      r := Some(response);
      out := Receive(url, response, found, now, removable, d0, from);
    }

    /** What download does with the response. */
    method Receive(url: string, response: Response, hit: Option<Hit>, now: int, removable: Removable, ghost d0: Dir, ghost from: nat)
      returns (out: Outcome)
      requires Mangle(url) in stems && PrefixFree(stems) && Named(d0, stems)
      requires Looked(d0, dir, Mangle(url), now, removable, false, hit) && from <= |states|
      requires var a := FirstAim(d0, stems, Mangle(url));
               Fits(a, dir) && forall i :: from <= i < |states| ==> Fits(a, states[i])
      modifies this`dir, this`states
      ensures |old(states)| <= |states|
      ensures var a := AimOf(d0, stems, maxSize, Mangle(url), Some(response), removable);
              Fits(a, dir) && forall i :: from <= i < |states| ==> Fits(a, states[i])
      ensures Answered(d0, dir, maxSize, Mangle(url), response, hit, now, out, removable)
    {
      ghost var stem := Mangle(url);
      ghost var a := AimOf(d0, stems, maxSize, stem, Some(response), removable);
      ghost var good := (d: Dir) => Fits(a, d);
      ResponseKeepsFit(d0, stems, maxSize, stem, response, removable, dir);
      forall i | from <= i < |states|
        ensures good(states[i])
      {
        ResponseKeepsFit(d0, stems, maxSize, stem, response, removable, states[i]);
      }
      LookedKeepsNames(d0, dir, stem, now, removable, hit);
      out := Respond(url, response, hit, now, removable, d0, a, from, good);
    }

    /** The branches of download. */
    method Respond(url: string, response: Response, hit: Option<Hit>, now: int, removable: Removable,
                   ghost d0: Dir, ghost a: Aim, ghost from: nat, ghost good: Dir -> bool) returns (out: Outcome)
      requires Mangle(url) in stems && PrefixFree(stems) && Named(dir, stems)
      requires Looked(d0, dir, Mangle(url), now, removable, false, hit)
      requires a == AimOf(d0, stems, maxSize, Mangle(url), Some(response), removable) && IsGood(a, good) && AllGood(from, good)
      modifies this`dir, this`states
      ensures |old(states)| <= |states| && AllGood(from, good)
      ensures Answered(d0, dir, maxSize, Mangle(url), response, hit, now, out, removable)
    {
      ghost var stem, looked := Mangle(url), dir;
      GetKeepsEntries(d0, dir, stem, now, removable, false, hit);
      match response {
        case Full(_, _, _, _) =>
          LookedKeepsNames(d0, dir, stem, now, removable, hit);
          CrowdIsJust(d0, dir, stems, maxSize, stem, response, now, removable, hit);
          out := Store(url, response, now, removable, a, from, good);
          StoredAnswers(d0, looked, dir, maxSize, stem, response, hit, now, out, removable);
        case OtherSuccess =>
          out := Returned(None);
        case NotModified =>
          out := Returned(if hit.Some? then Some(hit.value.path) else None);
        case HttpFailure =>
          out := Returned(None);
      }
    }
  }
}
