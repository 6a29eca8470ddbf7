/** The table of loaded modules: SetLoadAddrs of engine/crash/src/load_addrs_proc_smap.cpp
    fills it from the lines of /proc/self/smaps, OnCrash of backtrace_libunwind.cpp looks
    program counters up in it. */
module LoadAddrs {
  import opened Basics

  const MODULES_MAX: nat := 128
  const MODULE_NAME_SIZE: nat := 64
  const LINE_SIZE: nat := 1024
  const ULLONG_MAX: nat := 0xFFFF_FFFF_FFFF_FFFF
  const NUL: char := '\0'

  // ---- what a line says

  /** First position from `start` on that holds c, or the length. */
  function First(s: string, c: char, start: nat): (i: nat)
    requires start <= |s|
    ensures start <= i <= |s| && (i < |s| ==> s[i] == c) && forall j :: start <= j < i ==> s[j] != c
    decreases |s| - start
  {
    if start == |s| || s[start] == c then start else First(s, c, start + 1)
  }

  /** Last position from `start` on that holds c, or the length. */
  function Last(s: string, c: char, start: nat): (i: nat)
    requires start <= |s|
    ensures start <= i <= |s| && (i < |s| ==> s[i] == c)
    ensures if i < |s| then forall j :: i < j < |s| ==> s[j] != c else forall j :: start <= j < |s| ==> s[j] != c
    decreases |s| - start
  {
    if start == |s| then start
    else
      var later := Last(s, c, start + 1);
      if later == |s| && s[start] == c then start else later
  }

  /** The first dash, the next space, the last slash behind it. */
  datatype Marks = Marks(dash: nat, space: nat, slash: nat)

  function MarksOf(s: string): Marks {
    var dash := First(s, '-', 0);
    var space := if dash == |s| then |s| else First(s, ' ', dash + 1);
    var slash := if space == |s| then |s| else Last(s, '/', space + 1);
    Marks(dash, space, slash)
  }

  function Behind(s: string, i: nat): nat { if i < |s| then i + 1 else i }

  /** The line with line breaks set to zero. */
  function Chopped(s: string): (t: string)
    ensures |t| == |s| && forall i :: 0 <= i < |s| ==> t[i] == if s[i] == '\n' then NUL else s[i]
  {
    seq(|s|, i requires 0 <= i < |s| => if s[i] == '\n' then NUL else s[i])
  }

  function Digit(c: char): Option<nat> {
    if '0' <= c <= '9' then Some((c - '0') as nat)
    else if 'a' <= c <= 'f' then Some((c - 'a') as nat + 10)
    else if 'A' <= c <= 'F' then Some((c - 'A') as nat + 10)
    else None
  }

  /** Value of the leading hexadecimal digits, after `value` for those before. */
  function HexValue(s: string, value: nat): nat {
    if s == "" || Digit(s[0]).None? then value else HexValue(s[1..], value * 16 + Digit(s[0]).value)
  }

  /** isspace */
  predicate IsBlank(c: char) { c == ' ' || '\t' <= c <= '\r' }

  function SkipBlanks(s: string): string {
    if s != "" && IsBlank(s[0]) then SkipBlanks(s[1..]) else s
  }

  predicate HasSign(s: string) { s != "" && (s[0] == '+' || s[0] == '-') }

  predicate HasPrefix(s: string) {
    |s| >= 3 && s[0] == '0' && (s[1] == 'x' || s[1] == 'X') && Digit(s[2]).Some?
  }

  function WithoutPrefix(s: string): string { if HasPrefix(s) then s[2..] else s }

  /** What becomes of the digits' value: too much is the largest number there is, and a
      minus sign negates modulo 2^64. */
  function Converted(negative: bool, value: nat): nat {
    if value > ULLONG_MAX then ULLONG_MAX
    else if negative && value > 0 then ULLONG_MAX + 1 - value
    else value
  }

  /** strtoull(s, 0, 16): blanks, a sign, 0x, digits. */
  function Number(s: string): nat {
    var t := SkipBlanks(s);
    if HasSign(t) then Converted(t[0] == '-', HexValue(WithoutPrefix(t[1..]), 0))
    else Converted(false, HexValue(WithoutPrefix(t), 0))
  }

  datatype Module = Module(addr: nat, name: string)

  function Truncated(s: string): string {
    if |s| < MODULE_NAME_SIZE then s else s[..MODULE_NAME_SIZE - 1]
  }

  /** A mapping of a file has all three marks with something behind each. */
  predicate IsMapping(s: string) {
    var m := MarksOf(s);
    m.dash < |s| && Behind(s, m.space) < |s| && Behind(s, m.slash) < |s|
  }

  function StartOf(s: string): nat { Number(Chopped(s)[..First(s, '-', 0)]) }

  /** There is an x among the four permission characters. */
  predicate IsExecutable(s: string) {
    var p := Behind(s, MarksOf(s).space);
    'x' in s[p..if p + 4 < |s| then p + 4 else |s|]
  }

  function NameOf(s: string): string {
    Truncated(UpTo(Chopped(s)[Behind(s, MarksOf(s).slash)..], NUL))
  }

  /** The module a line contributes. */
  function ModuleOf(s: string): seq<Module> {
    if IsMapping(s) && IsExecutable(s) then [Module(StartOf(s), NameOf(s))] else []
  }

  function Modules(lines: seq<string>): seq<Module> {
    if lines == [] then [] else ModuleOf(lines[0]) + Modules(lines[1..])
  }

  lemma {:induction false} ModulesConcat(a: seq<string>, b: seq<string>)
    ensures Modules(a + b) == Modules(a) + Modules(b)
  {
    if a == [] {
      assert a + b == b;
    } else {
      assert (a + b)[1..] == a[1..] + b;
      ModulesConcat(a[1..], b);
    }
  }

  // ---- the scan

  /** What is true of the marks after i characters have been seen. */
  ghost predicate Seen(s: string, i: nat, m: Marks) {
    && i <= |s|
    && if m.dash == |s| then m.space == m.slash == |s| && forall j :: 0 <= j < i ==> s[j] != '-'
       else
         && m.dash < i && s[m.dash] == '-' && (forall j :: 0 <= j < m.dash ==> s[j] != '-')
         && if m.space == |s| then m.slash == |s| && forall j :: m.dash < j < i ==> s[j] != ' '
            else
              && m.dash < m.space < i && s[m.space] == ' ' && (forall j :: m.dash < j < m.space ==> s[j] != ' ')
              && if m.slash == |s| then forall j :: m.space < j < i ==> s[j] != '/'
                 else m.space < m.slash < i && s[m.slash] == '/' && forall j :: m.slash < j < i ==> s[j] != '/'
  }

  lemma {:induction false} SeenAll(s: string, m: Marks)
    requires Seen(s, |s|, m)
    ensures m == MarksOf(s)
  {
    assert m.dash == First(s, '-', 0);
    if m.dash < |s| {
      assert m.space == First(s, ' ', m.dash + 1);
      if m.space < |s| {
        assert m.slash == Last(s, '/', m.space + 1);
      }
    }
  }

  /** One round of the scan, on the three positions of the source. */
  function Advance(c: char, i: nat, len: nat, at: (nat, nat, nat)): (nat, nat, nat) {
    if at.0 == len then (if c == '-' then i else at.0, at.1, at.2)
    else if at.1 == len then (at.0, if c == ' ' then i + 1 else at.1, at.2)
    else (at.0, at.1, if c == '/' then i + 1 else at.2)
  }

  function Positions(s: string, m: Marks): (nat, nat, nat) { (m.dash, Behind(s, m.space), Behind(s, m.slash)) }

  lemma {:induction false} SeenNext(s: string, i: nat, m: Marks) returns (m': Marks)
    requires Seen(s, i, m) && i < |s|
    ensures Seen(s, i + 1, m') && Positions(s, m') == Advance(s[i], i, |s|, Positions(s, m))
  {
    if m.dash == |s| {
      m' := if s[i] == '-' then m.(dash := i) else m;
    } else if m.space == |s| {
      m' := if s[i] == ' ' then m.(space := i) else m;
    } else {
      m' := if s[i] == '/' then m.(slash := i) else m;
    }
  }

  /** The buffer holds the line, chopped up to i, and is closed by a zero. */
  ghost predicate Holds(buffer: seq<char>, s: string, i: nat) {
    && |s| < |buffer| && i <= |s| && buffer[|s|] == NUL && NUL !in s
    && (forall j :: 0 <= j < i ==> buffer[j] == Chopped(s)[j])
    && forall j :: i <= j < |s| ==> buffer[j] == s[j]
  }

  method Scan(line: array<char>, len: nat, ghost s: string) returns (addrBreak: nat, permStart: nat, nameStart: nat)
    requires Holds(line[..], s, 0) && len == |s|
    modifies line
    ensures Holds(line[..], s, len)
    ensures (addrBreak, permStart, nameStart) == Positions(s, MarksOf(s))
  {
    addrBreak, permStart, nameStart := len, len, len;
    ghost var m := Marks(len, len, len);
    for i := 0 to len
      invariant Holds(line[..], s, i) && Seen(s, i, m)
      invariant (addrBreak, permStart, nameStart) == Positions(s, m)
    {
      m := SeenNext(s, i, m);
      if addrBreak == len {
        if line[i] == '-' {
          addrBreak := i;
        }
      } else if permStart == len {
        if line[i] == ' ' {
          permStart := i + 1;
        }
      } else {
        if line[i] == '/' {
          nameStart := i + 1;
        }
      }
      if line[i] == '\n' {
        line[i] := NUL;
      }
    }
    SeenAll(s, m);
  }

  /** The x among the permissions. */
  method HasX(line: array<char>, perm: nat, len: nat) returns (found: bool)
    requires perm <= len <= line.Length
    ensures found <==> 'x' in line[perm..if perm + 4 < len then perm + 4 else len]
  {
    found := false;
    ghost var end := if perm + 4 < len then perm + 4 else len;
    var p := perm;
    while p < perm + 4 && p < len
      invariant perm <= p <= end && (found <==> 'x' in line[perm..p])
    {
      if line[p] == 'x' {
        found := true;
      }
      assert line[perm..p + 1] == line[perm..p] + [line[p]];
      p := p + 1;
    }
  }

  /** The digits from i on, in a buffer with a zero at `end`. */
  method ReadDigits(line: array<char>, i: nat, end: nat) returns (v: nat)
    requires i <= end < line.Length && line[end] == NUL
    ensures v == HexValue(line[i..end], 0)
  {
    v := 0;
    var k := i;
    while Digit(line[k]).Some?
      invariant i <= k <= end && HexValue(line[k..end], v) == HexValue(line[i..end], 0)
      decreases end - k
    {
      assert line[k..end][0] == line[k] && line[k..end][1..] == line[k + 1..end];
      v := v * 16 + Digit(line[k]).value;
      k := k + 1;
    }
    assert k < end ==> line[k..end][0] == line[k];
  }

  /** The digits behind 0x, if that is there. */
  method ReadPrefixed(line: array<char>, i: nat, end: nat) returns (v: nat)
    requires i <= end < line.Length && line[end] == NUL
    ensures v == HexValue(WithoutPrefix(line[i..end]), 0)
  {
    var k := i;
    if i + 2 < end && line[i] == '0' && (line[i + 1] == 'x' || line[i + 1] == 'X') && Digit(line[i + 2]).Some? {
      k := i + 2;
      assert line[i..end][2..] == line[k..end];
    }
    v := ReadDigits(line, k, end);
  }

  /** strtoull(line, 0, 16) on a buffer with a zero at `end`. */
  method StrToULL(line: array<char>, end: nat) returns (v: nat)
    requires end < line.Length && line[end] == NUL
    ensures v == Number(line[..end])
  {
    var i := 0;
    assert line[0..end] == line[..end];
    while IsBlank(line[i])
      invariant i <= end && SkipBlanks(line[i..end]) == SkipBlanks(line[..end])
      decreases end - i
    {
      assert line[i..end][0] == line[i] && line[i..end][1..] == line[i + 1..end];
      i := i + 1;
    }
    assert i < end ==> line[i..end][0] == line[i];
    assert SkipBlanks(line[..end]) == line[i..end];
    if line[i] == '+' || line[i] == '-' {
      assert line[i..end][1..] == line[i + 1..end];
      v := ReadPrefixed(line, i + 1, end);
      v := Converted(line[i] == '-', v);
    } else {
      v := ReadPrefixed(line, i, end);
      v := Converted(false, v);
    }
  }

  /** dmStrlCpy of the string at `from`. */
  method CopyName(line: array<char>, from: nat, len: nat) returns (name: string)
    requires from <= len < line.Length && line[len] == NUL
    ensures name == Truncated(UpTo(line[from..len], NUL))
  {
    var i := from;
    while i < from + MODULE_NAME_SIZE - 1 && line[i] != NUL
      invariant from <= i <= len && i <= from + MODULE_NAME_SIZE - 1
      invariant forall j :: from <= j < i ==> line[j] != NUL
      decreases len - i
    {
      i := i + 1;
    }
    name := line[from..i];
    ghost var text := line[from..len];
    assert forall j :: 0 <= j < i - from ==> text[j] == line[from + j];
    assert line[from..i] == text[..i - from];
    if i < from + MODULE_NAME_SIZE - 1 {
      FindIs(text, NUL, i - from);
    }
  }

  // ---- one line

  lemma {:induction false} HasXChopped(s: string, a: nat, b: nat)
    requires a <= b <= |s|
    ensures 'x' in Chopped(s)[a..b] <==> 'x' in s[a..b]
  {
    forall i | 0 <= i < b - a
      ensures Chopped(s)[a..b][i] == 'x' <==> s[a..b][i] == 'x'
    {
      assert Chopped(s)[a..b][i] == Chopped(s)[a + i] && s[a..b][i] == s[a + i];
    }
  }

  lemma {:induction false} AllChopped(buffer: seq<char>, s: string)
    requires Holds(buffer, s, |s|)
    ensures buffer[..|s|] == Chopped(s)
  {
  }

  /** Whether the line is an executable mapping, and where its fields are. */
  method Classify(line: array<char>, len: nat, ghost s: string) returns (found: bool, addrBreak: nat, nameStart: nat)
    requires Holds(line[..], s, 0) && len == |s|
    modifies line
    ensures Holds(line[..], s, len)
    ensures found <==> IsMapping(s) && IsExecutable(s)
    ensures addrBreak == MarksOf(s).dash && nameStart == Behind(s, MarksOf(s).slash)
  {
    var permStart;
    addrBreak, permStart, nameStart := Scan(line, len, s);
    found := false;
    if addrBreak < len && permStart < len && nameStart < len {
      found := HasX(line, permStart, len);
      ghost var end := if permStart + 4 < len then permStart + 4 else len;
      AllChopped(line[..], s);
      assert line[permStart..end] == Chopped(s)[permStart..end];
      HasXChopped(s, permStart, end);
    }
  }

  /** The address and the name; the dash becomes a zero. */
  method Extract(line: array<char>, len: nat, addrBreak: nat, nameStart: nat, ghost s: string) returns (m: Module)
    requires Holds(line[..], s, len) && len == |s| && IsMapping(s)
    requires addrBreak == MarksOf(s).dash && nameStart == Behind(s, MarksOf(s).slash)
    modifies line
    ensures m == Module(StartOf(s), NameOf(s))
  {
    AllChopped(line[..], s);
    line[addrBreak] := NUL;
    var addr := StrToULL(line, addrBreak);
    assert line[..addrBreak] == Chopped(s)[..addrBreak];
    var name := CopyName(line, nameStart, len);
    assert line[nameStart..len] == Chopped(s)[nameStart..];
    m := Module(addr, name);
  }

  // ---- reading the listing

  /** How much fgets takes: up to a line break, and at most what fits the buffer. */
  function PieceLength(text: string): (n: nat)
    requires text != ""
    ensures 0 < n <= |text| && n < LINE_SIZE
  {
    var end := First(text, '\n', 0);
    var line := if end < |text| then end + 1 else end;
    if line < LINE_SIZE then line else LINE_SIZE - 1
  }

  /** The strings that fgets leaves in the buffer, one after the other; a zero in the
      listing ends its string early. */
  function Lines(text: string): seq<string> {
    if text == "" then [] else [UpTo(text[..PieceLength(text)], NUL)] + Lines(text[PieceLength(text)..])
  }

  lemma {:induction false} NoZeroIsAll(s: string)
    requires NUL !in s
    ensures UpTo(s, NUL) == s
  {
    FindIs(s, NUL, |s|);
  }

  /** Without zeros in the listing nothing is lost. */
  lemma {:induction false} LinesJoin(text: string)
    requires NUL !in text
    ensures Flatten(Lines(text)) == text
  {
    if text != "" {
      var n := PieceLength(text);
      Halves(text, n);
      NoZeroIsAll(text[..n]);
      LinesJoin(text[n..]);
      FirstLine(text, n);
      FlattenCons(text[..n], Lines(text[n..]));
    }
  }

  lemma {:induction false} Halves(text: string, n: nat)
    requires n <= |text|
    ensures text[..n] + text[n..] == text && (NUL !in text ==> NUL !in text[..n] && NUL !in text[n..])
  {
  }

  lemma {:induction false} FirstLine(text: string, n: nat)
    requires text != "" && n == PieceLength(text)
    ensures Lines(text) == [UpTo(text[..n], NUL)] + Lines(text[n..])
  {
  }

  lemma {:induction false} FlattenCons(first: string, more: seq<string>)
    ensures Flatten([first] + more) == first + Flatten(more)
  {
    assert ([first] + more)[1..] == more;
  }

  /** fgets, and strlen of what it read. */
  method GetLine(line: array<char>, piece: string) returns (len: nat)
    requires |piece| < line.Length
    modifies line
    ensures Holds(line[..], UpTo(piece, NUL), 0) && len == |UpTo(piece, NUL)|
  {
    for i := 0 to |piece|
      invariant line[..i] == piece[..i]
    {
      line[i] := piece[i];
    }
    line[|piece|] := NUL;
    assert forall j :: 0 <= j < |piece| ==> line[j] == piece[j];
    ghost var end := Find(piece, NUL);
    len := 0;
    while line[len] != NUL
      invariant len <= end
      decreases end - len
    {
      len := len + 1;
    }
    assert len == end;
  }

  // ---- the table

  /** The first `n` places hold the modules, the others what they held before. */
  ghost predicate Filled(addrs: seq<nat>, names: seq<string>, wasAddrs: seq<nat>, wasNames: seq<string>, modules: seq<Module>) {
    && |addrs| == |names| == |wasAddrs| == |wasNames| == MODULES_MAX && |modules| <= MODULES_MAX
    && (forall j :: 0 <= j < |modules| ==> addrs[j] == modules[j].addr && names[j] == modules[j].name)
    && (forall j :: |modules| <= j < MODULES_MAX ==> addrs[j] == wasAddrs[j] && names[j] == wasNames[j])
  }

  function AtMost(modules: seq<Module>): seq<Module> {
    if |modules| <= MODULES_MAX then modules else modules[..MODULES_MAX]
  }

  method PutModule(addrs: array<nat>, names: array<string>, count: nat, m: Module,
                   ghost wasAddrs: seq<nat>, ghost wasNames: seq<string>, ghost modules: seq<Module>)
    requires addrs.Length == names.Length == MODULES_MAX && count == |modules| < MODULES_MAX
    requires Filled(addrs[..], names[..], wasAddrs, wasNames, modules)
    modifies addrs, names
    ensures Filled(addrs[..], names[..], wasAddrs, wasNames, modules + [m])
  {
    addrs[count] := m.addr;
    names[count] := m.name;
  }

  /** One line of the listing; `full` if it is a module and there is no place for it. */
  method AddLine(piece: string, line: array<char>, addrs: array<nat>, names: array<string>, count: nat,
                 ghost wasAddrs: seq<nat>, ghost wasNames: seq<string>, ghost before: seq<Module>, ghost s: string)
    returns (count': nat, full: bool)
    requires |piece| < line.Length && s == UpTo(piece, NUL)
    requires addrs.Length == names.Length == MODULES_MAX && count == |before|
    requires Filled(addrs[..], names[..], wasAddrs, wasNames, before)
    modifies line, addrs, names
    ensures full <==> count == MODULES_MAX && ModuleOf(s) != []
    ensures !full ==> count' == |before + ModuleOf(s)| <= MODULES_MAX
    ensures Filled(addrs[..], names[..], wasAddrs, wasNames, if full then before else before + ModuleOf(s))
  {
    count', full := count, false;
    var len := GetLine(line, piece);
    var found, addrBreak, nameStart := Classify(line, len, s);
    assert before + [] == before;
    if found {
      if count == MODULES_MAX {
        full := true;
        return;
      }
      var m := Extract(line, len, addrBreak, nameStart, s);
      PutModule(addrs, names, count, m, wasAddrs, wasNames, before);
      count' := count + 1;
    }
  }

  /** The table holds the executable file mappings of the listing in their order, the
      first 128 of them, and nothing else of it is touched. */
  method SetLoadAddrs(text: string, addrs: array<nat>, names: array<string>)
    requires addrs.Length == names.Length == MODULES_MAX
    modifies addrs, names
    ensures Filled(addrs[..], names[..], old(addrs[..]), old(names[..]), AtMost(Modules(Lines(text))))
  {
    ghost var wasAddrs, wasNames := addrs[..], names[..];
    var line := new char[LINE_SIZE];
    var count, full, rest := 0, false, text;
    ghost var done: seq<string> := [];
    assert [] + Lines(text) == Lines(text);
    while rest != ""
      invariant done + Lines(rest) == Lines(text) && count == |Modules(done)|
      invariant Filled(addrs[..], names[..], wasAddrs, wasNames, Modules(done))
      decreases |rest|
    {
      var n := PieceLength(rest);
      ghost var s := UpTo(rest[..n], NUL);
      ModulesSnoc(done, s);
      TakeLine(done, rest, Lines(text));
      count, full := AddLine(rest[..n], line, addrs, names, count, wasAddrs, wasNames, Modules(done), s);
      if full {
        FullIsAtMost(done, s, Lines(rest[n..]), Lines(text));
        return;
      }
      done, rest := done + [s], rest[n..];
    }
    assert done + [] == done;
  }

  lemma {:induction false} TakeLine(done: seq<string>, rest: string, all: seq<string>)
    requires rest != "" && done + Lines(rest) == all
    ensures var n := PieceLength(rest); done + [UpTo(rest[..n], NUL)] + Lines(rest[n..]) == all
  {
    var n := PieceLength(rest);
    assert Lines(rest) == [UpTo(rest[..n], NUL)] + Lines(rest[n..]);
  }

  lemma {:induction false} ModulesSnoc(lines: seq<string>, s: string)
    ensures Modules(lines + [s]) == Modules(lines) + ModuleOf(s)
  {
    ModulesConcat(lines, [s]);
    assert [s][1..] == [];
  }

  lemma {:induction false} FullIsAtMost(done: seq<string>, s: string, more: seq<string>, all: seq<string>)
    requires |Modules(done)| == MODULES_MAX && ModuleOf(s) != [] && all == done + [s] + more
    ensures AtMost(Modules(all)) == Modules(done)
  {
    ModulesConcat(done + [s], more);
    ModulesSnoc(done, s);
    Front(Modules(done), ModuleOf(s), Modules(more), Modules(all));
  }

  lemma {:induction false} Front(a: seq<Module>, b: seq<Module>, c: seq<Module>, all: seq<Module>)
    requires |a| == MODULES_MAX && b != [] && all == a + b + c
    ensures AtMost(all) == a
  {
  }

  // ---- an ordered listing gives an ordered table

  /** File mappings start at increasing, non-zero addresses. */
  ghost predicate Ascending(lines: seq<string>) {
    && (forall i :: 0 <= i < |lines| && IsMapping(lines[i]) ==> StartOf(lines[i]) > 0)
    && (forall i, j :: 0 <= i < j < |lines| && IsMapping(lines[i]) && IsMapping(lines[j]) ==> StartOf(lines[i]) < StartOf(lines[j]))
  }

  ghost predicate Sorted(modules: seq<Module>) {
    && (forall i :: 0 <= i < |modules| ==> modules[i].addr > 0)
    && (forall i, j :: 0 <= i < j < |modules| ==> modules[i].addr < modules[j].addr)
  }

  lemma {:induction false} ModulesAt(head: seq<Module>, tail: seq<Module>, k: nat)
    requires k < |head + tail|
    ensures (head + tail)[k] == if k < |head| then head[k] else tail[k - |head|]
  {
  }

  lemma {:induction false} LineGives(s: string)
    requires ModuleOf(s) != []
    ensures IsMapping(s) && IsExecutable(s) && ModuleOf(s) == [Module(StartOf(s), NameOf(s))]
  {
  }

  /** Every module comes from an executable mapping. */
  lemma {:induction false} ModuleHasLine(lines: seq<string>, k: nat) returns (i: nat)
    requires k < |Modules(lines)|
    ensures i < |lines| && IsMapping(lines[i]) && IsExecutable(lines[i])
    ensures Modules(lines)[k] == Module(StartOf(lines[i]), NameOf(lines[i]))
  {
    var head, rest := ModuleOf(lines[0]), lines[1..];
    ModulesAt(head, Modules(rest), k);
    if k < |head| {
      i := 0;
      LineGives(lines[0]);
    } else {
      var j := ModuleHasLine(rest, k - |head|);
      i := j + 1;
      assert rest[j] == lines[i];
    }
  }

  /** Every executable mapping gives a module. */
  lemma {:induction false} LineHasModule(lines: seq<string>, i: nat)
    requires i < |lines| && IsMapping(lines[i]) && IsExecutable(lines[i])
    ensures Module(StartOf(lines[i]), NameOf(lines[i])) in Modules(lines)
  {
    if i == 0 {
      assert Modules(lines)[0] == Module(StartOf(lines[0]), NameOf(lines[0]));
    } else {
      LineHasModule(lines[1..], i - 1);
    }
  }

  lemma {:induction false} ModulesSorted(lines: seq<string>)
    requires Ascending(lines)
    ensures Sorted(Modules(lines))
  {
    if lines != [] {
      ModulesSorted(lines[1..]);
      if ModuleOf(lines[0]) != [] {
        HeadIsLowest(lines);
        SortedCons(ModuleOf(lines[0])[0], Modules(lines[1..]));
      }
    }
  }

  lemma {:induction false} HeadIsLowest(lines: seq<string>)
    requires Ascending(lines) && lines != [] && IsMapping(lines[0])
    ensures forall k :: 0 <= k < |Modules(lines[1..])| ==> StartOf(lines[0]) < Modules(lines[1..])[k].addr
  {
    forall k | 0 <= k < |Modules(lines[1..])|
      ensures StartOf(lines[0]) < Modules(lines[1..])[k].addr
    {
      var i := ModuleHasLine(lines[1..], k);
      assert lines[1..][i] == lines[i + 1];
    }
  }

  lemma {:induction false} SortedCons(m: Module, tail: seq<Module>)
    requires Sorted(tail) && m.addr > 0 && forall k :: 0 <= k < |tail| ==> m.addr < tail[k].addr
    ensures Sorted([m] + tail)
  {
  }

  // ---- looking an address up

  /** Where the lookup stops: at the first free place. */
  function Used(addrs: seq<nat>): (n: nat)
    ensures n <= |addrs| && (n < |addrs| ==> addrs[n] == 0) && forall j :: 0 <= j < n ==> addrs[j] != 0
  {
    if addrs == [] || addrs[0] == 0 then 0 else 1 + Used(addrs[1..])
  }

  /** The last used place with an address up to pc. */
  ghost predicate IsLastUpTo(addrs: seq<nat>, pc: nat, n: nat, best: Option<nat>) {
    && n <= |addrs|
    && match best
       case None => forall j :: 0 <= j < n ==> addrs[j] > pc
       case Some(k) => k < n && addrs[k] <= pc && forall j :: k < j < n ==> addrs[j] > pc
  }

  method Lookup(addrs: array<nat>, pc: nat) returns (best: Option<nat>)
    requires addrs.Length == MODULES_MAX
    ensures IsLastUpTo(addrs[..], pc, Used(addrs[..]), best)
  {
    best := None;
    var i := 0;
    while i < MODULES_MAX
      invariant i <= MODULES_MAX && IsLastUpTo(addrs[..], pc, i, best)
      invariant forall j :: 0 <= j < i ==> addrs[j] != 0
    {
      var addr := addrs[i];
      if addr == 0 {
        break;
      }
      if pc >= addr {
        best := Some(i);
      }
      i := i + 1;
    }
    UsedIs(addrs[..], i);
  }

  lemma {:induction false} UsedIs(addrs: seq<nat>, i: nat)
    requires i <= |addrs| && (i < |addrs| ==> addrs[i] == 0) && forall j :: 0 <= j < i ==> addrs[j] != 0
    ensures Used(addrs) == i
  {
  }

  /** The modules of a table in increasing order, and the places behind them free. */
  ghost predicate Loaded(addrs: seq<nat>, names: seq<string>, modules: seq<Module>) {
    && |modules| <= |addrs| == |names| && Sorted(modules)
    && (forall j :: 0 <= j < |modules| ==> addrs[j] == modules[j].addr && names[j] == modules[j].name)
    && forall j :: |modules| <= j < |addrs| ==> addrs[j] == 0
  }

  /** The module with the greatest base not above pc, if there is one. */
  ghost predicate IsGreatestUpTo(modules: seq<Module>, addrs: seq<nat>, names: seq<string>, pc: nat, best: Option<nat>) {
    match best
    case None => forall m :: m in modules ==> m.addr > pc
    case Some(k) =>
      && k < |modules| && k < |addrs| && k < |names| && modules[k] == Module(addrs[k], names[k]) && modules[k].addr <= pc
      && forall m :: m in modules && m.addr <= pc ==> m.addr <= modules[k].addr
  }

  lemma {:induction false} LookupInLoaded(addrs: seq<nat>, names: seq<string>, modules: seq<Module>, pc: nat, best: Option<nat>)
    requires Loaded(addrs, names, modules) && IsLastUpTo(addrs, pc, Used(addrs), best)
    ensures IsGreatestUpTo(modules, addrs, names, pc, best)
  {
    UsedIs(addrs, |modules|);
  }

  /** In a table filled from an ordered listing into free places, the lookup finds the
      module with the greatest base that is not above pc, and finds none only if there
      is none. */
  lemma {:induction false} LookupFindsGreatest(lines: seq<string>, addrs: seq<nat>, names: seq<string>,
                                               free: seq<nat>, noNames: seq<string>, pc: nat, best: Option<nat>)
    requires Ascending(lines) && Filled(addrs, names, free, noNames, AtMost(Modules(lines)))
    requires forall j :: 0 <= j < |free| ==> free[j] == 0
    requires IsLastUpTo(addrs, pc, Used(addrs), best)
    ensures IsGreatestUpTo(AtMost(Modules(lines)), addrs, names, pc, best)
  {
    ModulesSorted(lines);
    LookupInLoaded(addrs, names, AtMost(Modules(lines)), pc, best);
  }
}
