/** The life of a crash dump, engine/crash/src: WriteCrash of file_posix.cpp saves the
    application state, LoadPrevious of crash.cpp gets it back in a later run, Purge
    removes it. */
module CrashDump {
  import opened Basics

  type Bytes = seq<byte>
  type Path = string

  const VERSION: nat := 2
  const HEADER_SIZE: nat := 8
  const STATE_SIZE: nat := 51144   // sizeof(AppState) with 64-bit pointers

  /** An AppState, byte for byte. */
  type AppState = s: Bytes | |s| == STATE_SIZE witness Zeros(STATE_SIZE)

  function Zeros(n: nat): (z: Bytes)
    ensures |z| == n && forall i :: 0 <= i < n ==> z[i] == 0
  {
    seq(n, i => 0)
  }

  // ---- the format

  /** A 32-bit number as it lies in memory, lowest byte first. */
  function Little(v: nat): (s: Bytes)
    requires v < 0x1_0000_0000
    ensures |s| == 4
  {
    [(v % 256) as byte, (v / 256 % 256) as byte, (v / 65536 % 256) as byte, (v / 16777216) as byte]
  }

  function Number(s: Bytes): nat
    requires |s| == 4
  {
    s[0] as nat + 256 * s[1] as nat + 65536 * s[2] as nat + 16777216 * s[3] as nat
  }

  lemma {:induction false} NumberOfLittle(v: nat)
    requires v < 0x1_0000_0000
    ensures Number(Little(v)) == v
  {
    var a, b, c := v / 256, v / 65536, v / 16777216;
    assert v == 256 * a + v % 256;
    assert a == 256 * b + a % 256;
    assert b == 256 * c + b % 256;
  }

  function Header(): (h: Bytes)
    ensures |h| == HEADER_SIZE
  {
    Little(VERSION) + Little(STATE_SIZE)
  }

  function Dump(state: AppState): (d: Bytes)
    ensures |d| == HEADER_SIZE + STATE_SIZE
  {
    Header() + state
  }

  predicate HeaderMatches(file: Bytes)
    requires |file| >= HEADER_SIZE
  {
    Number(file[..4]) == VERSION && Number(file[4..8]) == STATE_SIZE
  }

  /** A file from which a state can be loaded. */
  predicate Complete(file: Bytes) {
    |file| >= HEADER_SIZE + STATE_SIZE && HeaderMatches(file)
  }

  function StateIn(file: Bytes): AppState
    requires Complete(file)
  {
    file[HEADER_SIZE..HEADER_SIZE + STATE_SIZE]
  }

  /** What was saved is what is loaded. */
  lemma {:induction false} DumpRoundTrip(state: AppState)
    ensures Complete(Dump(state)) && StateIn(Dump(state)) == state
  {
    var d := Dump(state);
    assert d[..4] == Little(VERSION) && d[4..8] == Little(STATE_SIZE);
    NumberOfLittle(VERSION);
    NumberOfLittle(STATE_SIZE);
  }

  /** A file of some version and size is loaded exactly if these are the ones of this program
      and the state is all there; bytes behind the state do not matter. */
  lemma {:induction false} CompleteIff(version: nat, size: nat, rest: Bytes)
    requires version < 0x1_0000_0000 && size < 0x1_0000_0000
    ensures Complete(Little(version) + Little(size) + rest) <==> version == 2 && size == 51144 && |rest| >= 51144
    ensures Complete(Little(version) + Little(size) + rest) ==> StateIn(Little(version) + Little(size) + rest) == rest[..51144]
  {
    var file := Little(version) + Little(size) + rest;
    assert file[..4] == Little(version) && file[4..8] == Little(size);
    NumberOfLittle(version);
    NumberOfLittle(size);
    if |rest| >= 51144 {
      assert file[8..8 + 51144] == rest[..51144];
    }
  }

  /** Every file with room for a header is of that form. */
  lemma {:induction false} HasHeader(file: Bytes) returns (version: nat, size: nat)
    requires |file| >= HEADER_SIZE
    ensures version < 0x1_0000_0000 && size < 0x1_0000_0000 && file == Little(version) + Little(size) + file[8..]
  {
    version, size := Number(file[..4]), Number(file[4..8]);
    LittleOfNumber(file[..4]);
    LittleOfNumber(file[4..8]);
    assert file == file[..4] + file[4..8] + file[8..];
  }

  lemma {:induction false} LittleOfNumber(s: Bytes)
    requires |s| == 4
    ensures Number(s) < 0x1_0000_0000 && Little(Number(s)) == s
  {
    var a, b, c, d := s[0] as nat, s[1] as nat, s[2] as nat, s[3] as nat;
    Digits(a, b + 256 * (c + 256 * d));
    Digits(b, c + 256 * d);
    Digits(c, d);
    var v := Number(s);
    assert v == a + 256 * (b + 256 * (c + 256 * d));
    assert v / 65536 == v / 256 / 256 && v / 16777216 == v / 256 / 256 / 256;
  }

  lemma {:induction false} Digits(low: nat, high: nat)
    requires low < 256
    ensures (low + 256 * high) % 256 == low && (low + 256 * high) / 256 == high
  {
  }

  /** A dump cut short anywhere is not loaded. */
  lemma {:induction false} PrefixRejected(state: AppState, k: nat)
    requires k <= |Dump(state)|
    ensures Complete(Dump(state)[..k]) <==> k == |Dump(state)|
  {
    DumpRoundTrip(state);
    assert Dump(state)[..|Dump(state)|] == Dump(state);
  }

  // ---- one operation after another

  /** How a write fares: whether the file opens, how many bytes of header and state are
      written, and whether a failed dump is then removed (it is not if the process dies
      first). */
  datatype Fate = Fate(opens: bool, header: nat, body: nat, unlinks: bool)

  /** How many bytes of the dump get into the file. */
  function Written(fate: Fate): (n: nat)
    ensures n <= HEADER_SIZE + STATE_SIZE
  {
    if fate.header < HEADER_SIZE then fate.header
    else if fate.body < STATE_SIZE then HEADER_SIZE + fate.body
    else HEADER_SIZE + STATE_SIZE
  }

  predicate Succeeds(fate: Fate) { fate.opens && Written(fate) == HEADER_SIZE + STATE_SIZE }

  function Prefix(s: Bytes, n: nat): Bytes { if n < |s| then s[..n] else s }

  /** The files after a write: a dump cut short is removed, or left as it is. */
  function AfterWrite(files: map<Path, Bytes>, path: Path, state: AppState, fate: Fate): map<Path, Bytes> {
    if !fate.opens then files
    else if !Succeeds(fate) && fate.unlinks then files - {path}
    else files[path := Dump(state)[..Written(fate)]]
  }

  function Loaded(files: map<Path, Bytes>, where: Path): Option<AppState> {
    if where in files && Complete(files[where]) then Some(StateIn(files[where])) else None
  }

  function LoadedPrevious(files: map<Path, Bytes>, fallback: Path, path: Path): Option<AppState> {
    if Loaded(files, fallback).Some? then Loaded(files, fallback) else Loaded(files, path)
  }

  /** The globals of crash.cpp and the files. */
  class Crash {
    const filePathDefault: Path
    var filePath: Path
    var previous: AppState
    var files: map<Path, Bytes>

    constructor (filePathDefault: Path, files: map<Path, Bytes>)
      ensures this.filePathDefault == filePathDefault && filePath == filePathDefault
      ensures this.files == files && previous == Zeros(STATE_SIZE)
    {
      this.filePathDefault, this.filePath, this.files := filePathDefault, filePathDefault, files;
      this.previous := Zeros(STATE_SIZE);
    }

    method SetFilePath(path: Path)
      modifies this`filePath
      ensures filePath == path
    {
      filePath := path;
    }

    /** write(): returns how many bytes went out. */
    method Write(path: Path, data: Bytes, room: nat) returns (n: nat)
      requires path in files
      modifies this`files
      ensures n == |Prefix(data, room)| && files == old(files)[path := old(files)[path] + Prefix(data, room)]
    {
      var out := Prefix(data, room);
      files := files[path := files[path] + out];
      n := |out|;
    }

    method Unlink(path: Path, works: bool)
      modifies this`files
      ensures files == if works then old(files) - {path} else old(files)
    {
      if works {
        files := files - {path};
      }
    }

    /** The second half of WriteCrash: the header is in the file. */
    method WriteState(path: Path, state: AppState, fate: Fate, ghost before: map<Path, Bytes>)
      requires fate.opens && fate.header >= HEADER_SIZE && files == before[path := Header()]
      modifies this`files
      ensures files == AfterWrite(before, path, state, fate)
    {
      var n := Write(path, state, fate.body);
      WholeDump(state, fate.body);
      if n != STATE_SIZE {
        Unlink(path, fate.unlinks);
      }
    }

    method WriteCrash(path: Path, state: AppState, fate: Fate)
      modifies this`files
      ensures files == AfterWrite(old(files), path, state, fate)
    {
      if fate.opens {
        files := files[path := []];
        var n := Write(path, Header(), fate.header);
        if n == HEADER_SIZE {
          assert [] + Header() == Header();
          WriteState(path, state, fate, old(files));
        } else {
          PartHeader(state, fate.header);
          Unlink(path, fate.unlinks);
        }
      }
    }

    /** The static LoadPrevious(FILE*): reads what there is into the global state. */
    method LoadFile(file: Bytes) returns (handle: int)
      modifies this`previous
      ensures handle == if Complete(file) then 1 else 0
      ensures Complete(file) ==> previous == StateIn(file)
      ensures |file| < HEADER_SIZE ==> previous == old(previous)
      ensures |file| >= HEADER_SIZE && !HeaderMatches(file) ==> previous == Zeros(STATE_SIZE)
      ensures |file| >= HEADER_SIZE && HeaderMatches(file) && !Complete(file) ==>
                previous == file[HEADER_SIZE..] + Zeros(STATE_SIZE - |file[HEADER_SIZE..]|)
    {
      handle := 0;
      if |file| >= HEADER_SIZE {
        previous := Zeros(STATE_SIZE);
        if Number(file[..4]) == VERSION && Number(file[4..8]) == STATE_SIZE {
          var rest := file[HEADER_SIZE..];
          if |rest| >= STATE_SIZE {
            previous := rest[..STATE_SIZE];
            handle := 1;
          } else {
            previous := rest + Zeros(STATE_SIZE - |rest|);
          }
        }
      }
    }

    method LoadPreviousPath(where: Path) returns (handle: int)
      modifies this`previous
      ensures handle == if Loaded(files, where).Some? then 1 else 0
      ensures handle == 1 ==> previous == Loaded(files, where).value
    {
      handle := 0;
      if where in files {
        handle := LoadFile(files[where]);
      }
    }

    method LoadPrevious() returns (handle: int)
      modifies this`previous
      ensures handle == if LoadedPrevious(files, filePathDefault, filePath).Some? then 1 else 0
      ensures handle == 1 ==> previous == LoadedPrevious(files, filePathDefault, filePath).value
    {
      handle := LoadPreviousPath(filePathDefault);
      if handle == 0 {
        handle := LoadPreviousPath(filePath);
      }
    }

    method Release(handle: int)
      modifies this`previous
      ensures previous == if handle == 1 then Zeros(STATE_SIZE) else old(previous)
    {
      if handle == 1 {
        previous := Zeros(STATE_SIZE);
      }
    }

    /** A handle leads to the loaded state, unless that has no engine version. */
    method Check(handle: int) returns (state: Option<AppState>)
      ensures state == if handle == 1 && previous[0] != 0 then Some(previous) else None
    {
      state := if handle == 1 && previous[0] != 0 then Some(previous) else None;
    }

    /** The life of a handle: what its holder can see until it is released, and that
        nothing is to be seen after that. */
    method UseHandle() returns (seen: Option<AppState>, later: Option<AppState>)
      modifies this`previous
      ensures seen.Some? ==> seen == LoadedPrevious(files, filePathDefault, filePath)
      ensures seen.None? ==>
                var there := LoadedPrevious(files, filePathDefault, filePath);
                there.None? || there.value[0] == 0
      ensures later == None
    {
      var handle := LoadPrevious();
      seen := Check(handle);
      Release(handle);
      later := Check(handle);
    }

    method Purge(first: bool, second: bool)
      modifies this`files
      ensures first && second ==> files == old(files) - {filePath, filePathDefault}
      ensures old(files) - {filePath, filePathDefault} == files - {filePath, filePathDefault}
    {
      Unlink(filePath, first);
      Unlink(filePathDefault, second);
    }
  }

  lemma {:induction false} WholeDump(state: AppState, body: nat)
    ensures Header() + Prefix(state, body) == Dump(state)[..HEADER_SIZE + |Prefix(state, body)|]
  {
  }

  lemma {:induction false} PartHeader(state: AppState, header: nat)
    requires header < HEADER_SIZE
    ensures [] + Prefix(Header(), header) == Dump(state)[..header]
  {
  }

  /** After a write into a file that opens, either exactly the new state can be loaded from
      it or nothing can: never an older one, never part of one. */
  lemma {:induction false} LoadAfterWrite(files: map<Path, Bytes>, path: Path, state: AppState, fate: Fate)
    ensures var files' := AfterWrite(files, path, state, fate);
            Loaded(files', path) == if !fate.opens then Loaded(files, path) else if Succeeds(fate) then Some(state) else None
  {
    DumpRoundTrip(state);
    PrefixRejected(state, Written(fate));
    assert Dump(state)[..|Dump(state)|] == Dump(state);
  }

  /** A state just saved is what LoadPrevious returns, exactly if it was saved to the
      default place or no other dump lies there (or one that says the same). */
  lemma {:induction false} LoadPreviousIff(files: map<Path, Bytes>, fallback: Path, path: Path, state: AppState, fate: Fate)
    requires Succeeds(fate)
    ensures var files' := AfterWrite(files, path, state, fate);
            LoadedPrevious(files', fallback, path) == Some(state)
            <==> path == fallback || Loaded(files, fallback) in {None, Some(state)}
  {
    LoadAfterWrite(files, path, state, fate);
  }

  /** Otherwise purging after the load loses it unseen. */
  lemma {:induction false} MaskedDumpLost(files: map<Path, Bytes>, fallback: Path, path: Path, state: AppState, fate: Fate)
    requires Succeeds(fate) && path != fallback && Loaded(files, fallback).Some?
    ensures var files' := AfterWrite(files, path, state, fate);
            && LoadedPrevious(files', fallback, path) == Loaded(files, fallback)
            && LoadedPrevious(files' - {path, fallback}, fallback, path) == None
  {
  }

  // ---- whole histories

  /** What happens to the dumps, over any number of runs of the application. */
  datatype Event =
    | Save(state: AppState, fate: Fate)
    | SetPath(path: Path)
    | LoadOnly
    | LoadAndPurge
    | Restart

  /** Files and path now; states that WriteCrash completed and states delivered so far. */
  datatype History = History(files: map<Path, Bytes>, path: Path, saved: seq<AppState>, delivered: seq<AppState>)

  function Next(h: History, fallback: Path, e: Event): History {
    match e
    case Save(state, fate) => h.(files := AfterWrite(h.files, h.path, state, fate), saved := h.saved + if Succeeds(fate) then [state] else [])
    case SetPath(path) => h.(path := path)
    case LoadOnly => h
    case LoadAndPurge =>
      var got := LoadedPrevious(h.files, fallback, h.path);
      h.(files := h.files - {h.path, fallback}, delivered := h.delivered + if got.Some? then [got.value] else [])
    case Restart => h.(path := fallback)
  }

  function After(fallback: Path, events: seq<Event>): History {
    if events == [] then History(map[], fallback, [], [])
    else Next(After(fallback, events[..|events| - 1]), fallback, events[|events| - 1])
  }

  predicate Loadable(h: History, p: Path) { p in h.files && Complete(h.files[p]) }

  /** Where each loadable file comes from: file p holds save number owner[p], no two the
      same one, and none that has been delivered; `order` lists the saves delivered. */
  ghost predicate Accounted(h: History, owner: map<Path, nat>, order: seq<nat>) {
    && (forall p :: Loadable(h, p) ==>
          p in owner && owner[p] < |h.saved| && StateIn(h.files[p]) == h.saved[owner[p]] && owner[p] !in order)
    && (forall p, q :: p in owner && q in owner && p != q && Loadable(h, p) && Loadable(h, q) ==> owner[p] != owner[q])
    && Delivers(h, order)
  }

  /** The states delivered are saves made before, no save twice. */
  ghost predicate Delivers(h: History, order: seq<nat>) {
    && |order| == |h.delivered| && Distinct(order)
    && forall i :: 0 <= i < |order| ==> order[i] < |h.saved| && h.delivered[i] == h.saved[order[i]]
  }

  lemma {:induction false} SavedAccounted(h: History, owner: map<Path, nat>, order: seq<nat>, state: AppState, h': History)
    requires Accounted(h, owner, order) && h' == h.(files := h.files[h.path := Dump(state)], saved := h.saved + [state])
    ensures Accounted(h', owner[h.path := |h.saved|], order)
  {
    DumpRoundTrip(state);
  }

  lemma {:induction false} FewerAccounted(h: History, owner: map<Path, nat>, order: seq<nat>, h': History)
    requires Accounted(h, owner, order) && h'.saved == h.saved && h'.delivered == h.delivered
    requires forall p :: Loadable(h', p) ==> Loadable(h, p) && h'.files[p] == h.files[p]
    ensures Accounted(h', owner, order)
  {
  }

  lemma {:induction false} SaveAccounted(h: History, fallback: Path, owner: map<Path, nat>, order: seq<nat>, state: AppState, fate: Fate)
    requires Accounted(h, owner, order)
    ensures Accounted(Next(h, fallback, Save(state, fate)), if Succeeds(fate) then owner[h.path := |h.saved|] else owner, order)
  {
    var h' := Next(h, fallback, Save(state, fate));
    if Succeeds(fate) {
      assert Dump(state)[..Written(fate)] == Dump(state);
      SavedAccounted(h, owner, order, state, h');
    } else {
      PrefixRejected(state, Written(fate));
      FewerAccounted(h, owner, order, h');
    }
  }

  lemma {:induction false} PurgeAccounted(h: History, fallback: Path, owner: map<Path, nat>, order: seq<nat>, h': History) returns (order': seq<nat>)
    requires Accounted(h, owner, order) && h' == Next(h, fallback, LoadAndPurge)
    ensures Accounted(h', owner, order')
  {
    if LoadedPrevious(h.files, fallback, h.path).None? {
      order' := order;
    } else {
      var from := if Loaded(h.files, fallback).Some? then fallback else h.path;
      order' := order + [owner[from]];
    }
  }

  lemma {:induction false} NextAccounted(h: History, fallback: Path, e: Event, owner: map<Path, nat>, order: seq<nat>)
    returns (owner': map<Path, nat>, order': seq<nat>)
    requires Accounted(h, owner, order)
    ensures Accounted(Next(h, fallback, e), owner', order')
  {
    owner', order' := owner, order;
    match e
    case Save(state, fate) =>
      SaveAccounted(h, fallback, owner, order, state, fate);
      owner' := if Succeeds(fate) then owner[h.path := |h.saved|] else owner;
    case LoadAndPurge =>
      order' := PurgeAccounted(h, fallback, owner, order, Next(h, fallback, e));
    case _ =>
  }

  lemma {:induction false} HistoryAccounted(fallback: Path, events: seq<Event>) returns (owner: map<Path, nat>, order: seq<nat>)
    ensures Accounted(After(fallback, events), owner, order)
  {
    if events == [] {
      owner, order := map[], [];
    } else {
      var n := |events| - 1;
      owner, order := HistoryAccounted(fallback, events[..n]);
      owner, order := NextAccounted(After(fallback, events[..n]), fallback, events[n], owner, order);
    }
  }

  /** Event i is a save of this state that WriteCrash completes. */
  predicate CompletesSave(events: seq<Event>, i: nat, state: AppState) {
    i < |events| && events[i].Save? && Succeeds(events[i].fate) && events[i].state == state
  }

  /** The states come from these events, in their order. */
  ghost predicate ComeFrom(saved: seq<AppState>, events: seq<Event>, at: seq<nat>) {
    && |at| == |saved| && (forall k, l :: 0 <= k < l < |at| ==> at[k] < at[l])
    && forall k :: 0 <= k < |at| ==> CompletesSave(events, at[k], saved[k])
  }

  lemma {:induction false} ComeFromNext(saved: seq<AppState>, events: seq<Event>, at: seq<nat>, e: Event)
    requires ComeFrom(saved, events, at)
    ensures ComeFrom(saved, events + [e], at)
    ensures e.Save? && Succeeds(e.fate) ==> ComeFrom(saved + [e.state], events + [e], at + [|events|])
  {
    forall k | 0 <= k < |at|
      ensures CompletesSave(events + [e], at[k], saved[k])
    {
      assert CompletesSave(events, at[k], saved[k]);
    }
  }

  lemma {:induction false} SavedBy(fallback: Path, events: seq<Event>) returns (at: seq<nat>)
    ensures ComeFrom(After(fallback, events).saved, events, at)
  {
    if events == [] {
      at := [];
    } else {
      var n, h := |events| - 1, After(fallback, events[..|events| - 1]);
      at := SavedBy(fallback, events[..n]);
      assert events[..n] + [events[n]] == events;
      ComeFromNext(h.saved, events[..n], at, events[n]);
      at := SavedNext(h, fallback, events[n], n, at);
    }
  }

  lemma {:induction false} SavedNext(h: History, fallback: Path, e: Event, n: nat, at: seq<nat>) returns (at': seq<nat>)
    ensures if e.Save? && Succeeds(e.fate) then Next(h, fallback, e).saved == h.saved + [e.state] && at' == at + [n]
            else Next(h, fallback, e).saved == h.saved && at' == at
  {
    at' := if e.Save? && Succeeds(e.fate) then at + [n] else at;
    assert h.saved + [] == h.saved;
  }

  /** Whatever happens, failed and interrupted saves included, loading and purging delivers
      only states of completed saves, and the state of each of them at most once. */
  lemma {:induction false} DeliveredAtMostOnce(fallback: Path, events: seq<Event>) returns (from: seq<nat>)
    ensures var delivered := After(fallback, events).delivered;
            && |from| == |delivered| && Distinct(from)
            && forall i :: 0 <= i < |from| ==> CompletesSave(events, from[i], delivered[i])
  {
    var owner, order := HistoryAccounted(fallback, events);
    var at := SavedBy(fallback, events);
    from := Composed(order, at);
    assert forall i :: 0 <= i < |from| ==> from[i] == at[order[i]];
  }

  lemma {:induction false} Composed(order: seq<nat>, at: seq<nat>) returns (from: seq<nat>)
    requires Distinct(order) && (forall i :: 0 <= i < |order| ==> order[i] < |at|) && forall k, l :: 0 <= k < l < |at| ==> at[k] < at[l]
    ensures |from| == |order| && Distinct(from) && forall i :: 0 <= i < |from| ==> from[i] == at[order[i]]
  {
    from := seq(|order|, i requires 0 <= i < |order| => at[order[i]]);
    forall i, j | 0 <= i < j < |from|
      ensures from[i] != from[j]
    {
      assert order[i] != order[j];
    }
  }

  /** What any load finds at any moment is the state of a completed save. */
  lemma {:induction false} LoadsOnlySaved(fallback: Path, events: seq<Event>, where: Path)
    ensures var found := Loaded(After(fallback, events).files, where);
            found.Some? ==> exists i: nat :: CompletesSave(events, i, found.value)
  {
    var owner, order := HistoryAccounted(fallback, events);
    var at := SavedBy(fallback, events);
    var h := After(fallback, events);
    if Loaded(h.files, where).Some? {
      assert Loadable(h, where);
      assert CompletesSave(events, at[owner[where]], Loaded(h.files, where).value);
    }
  }

  /** One event, acted out by the operations. */
  method Act(crash: Crash, e: Event, ghost h: History, delivered: seq<AppState>) returns (crash': Crash, delivered': seq<AppState>)
    requires crash.files == h.files && crash.filePath == h.path && delivered == h.delivered
    modifies crash
    ensures crash'.files == Next(h, crash.filePathDefault, e).files && crash'.filePath == Next(h, crash.filePathDefault, e).path
    ensures delivered' == Next(h, crash.filePathDefault, e).delivered
    ensures crash'.filePathDefault == crash.filePathDefault && (crash' == crash || fresh(crash'))
  {
    crash', delivered' := crash, delivered;
    match e
    case Save(state, fate) => crash.WriteCrash(crash.filePath, state, fate);
    case SetPath(path) => crash.SetFilePath(path);
    case LoadOnly => var _ := crash.LoadPrevious();
    case LoadAndPurge =>
      var handle := crash.LoadPrevious();
      if handle == 1 {
        delivered' := delivered + [crash.previous];
      }
      crash.Purge(true, true);
    case Restart => crash' := new Crash(crash.filePathDefault, crash.files);
  }

  /** Any series of events, acted out, does what the histories say. */
  method Replay(fallback: Path, events: seq<Event>) returns (files: map<Path, Bytes>, delivered: seq<AppState>)
    ensures files == After(fallback, events).files && delivered == After(fallback, events).delivered
  {
    var crash := new Crash(fallback, map[]);
    delivered := [];
    for i := 0 to |events|
      invariant fresh(crash) && crash.filePathDefault == fallback
      invariant crash.files == After(fallback, events[..i]).files && crash.filePath == After(fallback, events[..i]).path
      invariant delivered == After(fallback, events[..i]).delivered
    {
      assert events[..i + 1][..i] == events[..i];
      crash, delivered := Act(crash, events[i], After(fallback, events[..i]), delivered);
    }
    assert events[..|events|] == events;
    files := crash.files;
  }
}
