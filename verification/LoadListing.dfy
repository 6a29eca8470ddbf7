/** Listings as the kernel prints them in /proc/self/smaps, and what becomes of them: the
    printed start addresses and file names are those found in the table. */
module LoadListing {
  import opened Basics
  import opened LoadAddrs

  // ---- printing

  function DigitChar(d: nat, upper: bool): char
    requires d < 16
  {
    if d < 10 then '0' + d as char else (if upper then 'A' else 'a') + (d - 10) as char
  }

  function Hexadecimal(n: nat, upper: bool): (t: string)
    ensures t != ""
  {
    if n < 16 then [DigitChar(n, upper)] else Hexadecimal(n / 16, upper) + [DigitChar(n % 16, upper)]
  }

  /** Lower-case, as the kernel prints addresses. */
  function Lower(n: nat): string { Hexadecimal(n, false) }

  function Zeros(n: nat): (t: string)
    ensures |t| == n && forall i :: 0 <= i < n ==> t[i] == '0'
  {
    seq(n, i => '0')
  }

  /** A mapping of a file, or any other line without a slash: an anonymous mapping, or one of
      the lines of figures below a mapping. */
  datatype Row =
    | Mapping(zeros: nat, start: nat, end: nat, perms: string, middle: string, name: string)
    | Other(text: string)

  function AddressText(row: Row): string
    requires row.Mapping?
  {
    Zeros(row.zeros) + Lower(row.start)
  }

  /** The fields between the permissions and the last slash stay together. */
  function RowText(row: Row): string {
    match row
    case Mapping(_, _, end, perms, middle, name) =>
      AddressText(row) + ['-'] + Lower(end) + [' '] + perms + middle + ['/'] + name + ['\n']
    case Other(text) => text + ['\n']
  }

  ghost predicate NoneOf(s: string, chars: set<char>) {
    forall c :: c in chars ==> c !in s
  }

  /** A row is one line, and fits the buffer of fgets. */
  ghost predicate IsRow(row: Row) {
    && |RowText(row)| < LINE_SIZE
    && match row
       case Mapping(_, start, _, perms, middle, name) =>
         start <= ULLONG_MAX && |perms| == 4 && NoneOf(perms + middle, {'\n', NUL}) && NoneOf(name, {'\n', NUL, '/'})
       case Other(text) => NoneOf(text, {'\n', NUL, '/'})
  }

  function Listing(rows: seq<Row>): string {
    if rows == [] then "" else RowText(rows[0]) + Listing(rows[1..])
  }

  function RowTexts(rows: seq<Row>): seq<string> {
    if rows == [] then [] else [RowText(rows[0])] + RowTexts(rows[1..])
  }

  /** The executable mappings, with their start addresses and the last parts of their paths. */
  function Executables(rows: seq<Row>): seq<Module> {
    if rows == [] then []
    else
      var row := rows[0];
      (if row.Mapping? && 'x' in row.perms then [Module(row.start, if |row.name| <= 63 then row.name else row.name[..63])] else [])
      + Executables(rows[1..])
  }

  // ---- addresses

  ghost predicate AllDigits(t: string) {
    forall i :: 0 <= i < |t| ==> Digit(t[i]).Some? && !IsBlank(t[i]) && t[i] !in {'x', 'X', '+', '-', ' ', '\n', '\0'}
  }

  lemma {:induction false} DigitReads(d: nat, upper: bool)
    requires d < 16
    ensures Digit(DigitChar(d, upper)) == Some(d) && AllDigits([DigitChar(d, upper)])
  {
  }

  lemma {:induction false} ValueSnoc(t: string, c: char, v: nat)
    requires AllDigits(t) && Digit(c).Some?
    ensures HexValue(t + [c], v) == HexValue(t, v) * 16 + Digit(c).value
  {
    if t == "" {
      assert t + [c] == [c] && [c][1..] == "";
    } else {
      assert (t + [c])[1..] == t[1..] + [c];
      ValueSnoc(t[1..], c, v * 16 + Digit(t[0]).value);
    }
  }

  lemma {:induction false} HexadecimalReads(n: nat, upper: bool)
    ensures AllDigits(Hexadecimal(n, upper)) && HexValue(Hexadecimal(n, upper), 0) == n
  {
    if n < 16 {
      DigitReads(n, upper);
      assert Hexadecimal(n, upper)[1..] == "";
    } else {
      HexadecimalReads(n / 16, upper);
      DigitReads(n % 16, upper);
      ValueSnoc(Hexadecimal(n / 16, upper), DigitChar(n % 16, upper), 0);
    }
  }

  lemma {:induction false} ZerosRead(k: nat, t: string)
    requires AllDigits(t)
    ensures AllDigits(Zeros(k) + t) && HexValue(Zeros(k) + t, 0) == HexValue(t, 0)
  {
    if k == 0 {
      assert Zeros(k) + t == t;
    } else {
      ZerosRead(k - 1, t);
      assert (Zeros(k) + t)[1..] == Zeros(k - 1) + t;
      assert (Zeros(k) + t)[0] == '0';
    }
  }

  /** A sign of a number: none, or one of these. */
  function SignText(sign: Option<bool>): string {
    match sign case None => [] case Some(negative) => [if negative then '-' else '+']
  }

  function PrefixText(prefix: Option<bool>): string {
    match prefix case None => [] case Some(upper) => ['0', if upper then 'X' else 'x']
  }

  lemma {:induction false} BlanksSkipped(blanks: string, t: string)
    requires (forall i :: 0 <= i < |blanks| ==> IsBlank(blanks[i])) && t != "" && !IsBlank(t[0])
    ensures SkipBlanks(blanks + t) == t
  {
    if blanks == "" {
      assert blanks + t == t;
    } else {
      assert (blanks + t)[1..] == blanks[1..] + t;
      BlanksSkipped(blanks[1..], t);
    }
  }

  lemma {:induction false} PrefixDropped(prefix: Option<bool>, t: string)
    requires AllDigits(t) && t != ""
    ensures WithoutPrefix(PrefixText(prefix) + t) == t
    ensures (PrefixText(prefix) + t)[0] !in {'+', '-'} && !IsBlank((PrefixText(prefix) + t)[0])
  {
    var s := PrefixText(prefix) + t;
    if prefix.Some? {
      assert s[2] == t[0] && s[2..] == t;
    } else {
      assert s == t && !HasPrefix(t);
    }
  }

  /** What is read behind the blanks. */
  lemma {:induction false} SignRead(s: string, sign: Option<bool>, t: string)
    requires t != "" && t[0] !in {'+', '-'} && !IsBlank(t[0]) && SkipBlanks(s) == SignText(sign) + t
    ensures Number(s) == Converted(sign == Some(true), HexValue(WithoutPrefix(t), 0))
  {
    var r := SignText(sign) + t;
    if sign.None? {
      assert r == t;
    } else {
      assert r[1..] == t;
    }
  }

  lemma {:induction false} SignNotBlank(sign: Option<bool>, t: string)
    requires t != "" && !IsBlank(t[0])
    ensures SignText(sign) + t != "" && !IsBlank((SignText(sign) + t)[0])
  {
    if sign.None? {
      assert SignText(sign) + t == t;
    }
  }

  /** Digits of either case behind blanks, a sign, 0x and zeros, as far as they are there, are
      read as the number they stand for; a minus sign negates it modulo 2^64, and too much
      is the largest number. */
  lemma {:induction false} NumberReads(blanks: string, sign: Option<bool>, prefix: Option<bool>, zeros: nat, n: nat, upper: bool)
    requires forall i :: 0 <= i < |blanks| ==> IsBlank(blanks[i])
    ensures Number(blanks + (SignText(sign) + (PrefixText(prefix) + (Zeros(zeros) + Hexadecimal(n, upper)))))
         == if n > ULLONG_MAX then ULLONG_MAX else if sign == Some(true) then (ULLONG_MAX + 1 - n) % (ULLONG_MAX + 1) else n
  {
    var t := Zeros(zeros) + Hexadecimal(n, upper);
    HexadecimalReads(n, upper);
    ZerosRead(zeros, Hexadecimal(n, upper));
    PrefixDropped(prefix, t);
    SignNotBlank(sign, PrefixText(prefix) + t);
    BlanksSkipped(blanks, SignText(sign) + (PrefixText(prefix) + t));
    SignRead(blanks + (SignText(sign) + (PrefixText(prefix) + t)), sign, PrefixText(prefix) + t);
  }

  /** An address in lower-case hexadecimal digits, with or without leading zeros, is read as
      the number it stands for, whatever follows behind the dash. */
  lemma {:induction false} AddressReads(zeros: nat, n: nat, tail: string)
    requires n <= ULLONG_MAX
    ensures StartOf(Zeros(zeros) + Lower(n) + ['-'] + tail) == n
  {
    var t := Zeros(zeros) + Lower(n);
    HexadecimalReads(n, false);
    ZerosRead(zeros, Lower(n));
    StartIsDigits(t, tail);
    NumberReads([], None, None, zeros, n, false);
    assert [] + ([] + ([] + t)) == t;
  }

  lemma {:induction false} StartIsDigits(t: string, tail: string)
    requires AllDigits(t)
    ensures First(t + ['-'] + tail, '-', 0) == |t| && StartOf(t + ['-'] + tail) == Number(t)
  {
    var s := t + ['-'] + tail;
    assert forall i :: 0 <= i < |t| ==> s[i] == t[i];
    assert s[|t|] == '-';
    assert Chopped(s)[..|t|] == t;
  }

  // ---- rows

  lemma {:induction false} FirstIs(s: string, c: char, start: nat, i: nat)
    requires start <= i < |s| && s[i] == c && forall j :: start <= j < i ==> s[j] != c
    ensures First(s, c, start) == i
  {
  }

  lemma {:induction false} LastIs(s: string, c: char, start: nat, i: nat)
    requires start <= i < |s| && s[i] == c && forall j :: i < j < |s| ==> s[j] != c
    ensures Last(s, c, start) == i
  {
  }

  lemma {:induction false} NoSlashNoModule(s: string)
    requires '/' !in s
    ensures ModuleOf(s) == []
  {
    assert MarksOf(s).slash == |s|;
  }

  /** Address, dash, address, space, fields, slash, name and line break. */
  ghost predicate IsLaidOut(s: string, t: string, u: string, fields: string, name: string) {
    var dash, space, slash := |t|, |t| + 1 + |u|, |t| + 2 + |u| + |fields|;
    && |s| == slash + 2 + |name|
    && (forall i :: 0 <= i < dash ==> s[i] == t[i]) && s[dash] == '-'
    && (forall i :: dash < i < space ==> s[i] == u[i - dash - 1]) && s[space] == ' '
    && (forall i :: space < i < slash ==> s[i] == fields[i - space - 1]) && s[slash] == '/'
    && (forall i :: slash < i < |s| - 1 ==> s[i] == name[i - slash - 1]) && s[|s| - 1] == '\n'
  }

  lemma {:induction false} IsLaid(s: string, t: string, u: string, fields: string, name: string)
    requires s == t + ['-'] + u + [' '] + fields + ['/'] + name + ['\n']
    ensures IsLaidOut(s, t, u, fields, name)
  {
  }

  /** The marks of a printed mapping. */
  lemma {:induction false} RowMarks(s: string, t: string, u: string, fields: string, name: string)
    requires AllDigits(t) && AllDigits(u) && '/' !in name && IsLaidOut(s, t, u, fields, name)
    ensures MarksOf(s) == Marks(|t|, |t| + 1 + |u|, |t| + 2 + |u| + |fields|)
  {
    FirstIs(s, '-', 0, |t|);
    FirstIs(s, ' ', |t| + 1, |t| + 1 + |u|);
    LastIs(s, '/', |t| + 2 + |u|, |t| + 2 + |u| + |fields|);
  }

  lemma {:induction false} RowPerms(s: string, m: Marks, perms: string)
    requires MarksOf(s) == m && m.dash < m.space < m.slash && m.space + 5 < |s| && m.slash + 1 < |s|
    requires |perms| == 4 && s[m.space + 1..m.space + 5] == perms
    ensures IsMapping(s) && (IsExecutable(s) <==> 'x' in perms)
  {
  }

  lemma {:induction false} ChoppedFrom(s: string, from: nat, name: string)
    requires from + |name| + 1 == |s| && NoneOf(name, {'\n', NUL, '/'}) && s[|s| - 1] == '\n'
    requires forall i :: from <= i < |s| - 1 ==> s[i] == name[i - from]
    ensures UpTo(Chopped(s)[from..], NUL) == name
  {
    var behind := Chopped(s)[from..];
    assert forall i :: 0 <= i < |name| ==> behind[i] == name[i] && name[i] in name;
    FindIs(behind, NUL, |name|);
  }

  lemma {:induction false} LaidOutPerms(s: string, t: string, u: string, perms: string, fields: string, name: string)
    requires IsLaidOut(s, t, u, fields, name) && |perms| == 4 <= |fields| && fields[..4] == perms
    ensures s[|t| + 2 + |u|..|t| + 6 + |u|] == perms
  {
    var space := |t| + 1 + |u|;
    forall i | 0 <= i < 4
      ensures s[space + 1 + i] == perms[i]
    {
      assert fields[..4][i] == fields[i];
      assert s[space + 1 + i] == fields[space + 1 + i - space - 1];
    }
  }

  lemma {:induction false} LaidOutName(s: string, t: string, u: string, fields: string, name: string)
    requires IsLaidOut(s, t, u, fields, name) && NoneOf(name, {'\n', NUL, '/'})
    ensures UpTo(Chopped(s)[|t| + 3 + |u| + |fields|..], NUL) == name
  {
    ChoppedFrom(s, |t| + 3 + |u| + |fields|, name);
  }

  /** A printed mapping is one, executable exactly if the permissions say so, and its name is
      that of the file, cut after 63 characters. */
  lemma {:induction false} LaidOutReads(s: string, t: string, u: string, perms: string, fields: string, name: string)
    requires AllDigits(t) && AllDigits(u) && NoneOf(name, {'\n', NUL, '/'}) && |perms| == 4 <= |fields| && fields[..4] == perms
    requires IsLaidOut(s, t, u, fields, name)
    ensures IsMapping(s) && (IsExecutable(s) <==> 'x' in perms)
    ensures NameOf(s) == if |name| <= 63 then name else name[..63]
  {
    var m := Marks(|t|, |t| + 1 + |u|, |t| + 2 + |u| + |fields|);
    RowMarks(s, t, u, fields, name);
    LaidOutPerms(s, t, u, perms, fields, name);
    LaidOutName(s, t, u, fields, name);
    RowPerms(s, m, perms);
  }

  lemma {:induction false} RowAddresses(row: Row)
    requires row.Mapping?
    ensures AllDigits(AddressText(row)) && AllDigits(Lower(row.end))
  {
    HexadecimalReads(row.start, false);
    ZerosRead(row.zeros, Lower(row.start));
    HexadecimalReads(row.end, false);
  }

  lemma {:induction false} MappingStarts(row: Row)
    requires row.Mapping? && row.start <= ULLONG_MAX
    ensures StartOf(RowText(row)) == row.start
  {
    var tail := Lower(row.end) + [' '] + row.perms + row.middle + ['/'] + row.name + ['\n'];
    assert RowText(row) == AddressText(row) + ['-'] + tail;
    AddressReads(row.zeros, row.start, tail);
  }

  lemma {:induction false} MappingLaid(row: Row)
    requires row.Mapping?
    ensures IsLaidOut(RowText(row), AddressText(row), Lower(row.end), row.perms + row.middle, row.name)
  {
    var t, u, fields := AddressText(row), Lower(row.end), row.perms + row.middle;
    assert RowText(row) == t + ['-'] + u + [' '] + fields + ['/'] + row.name + ['\n'];
    IsLaid(RowText(row), t, u, fields, row.name);
  }

  /** A printed mapping gives its start address and name, if it is executable. */
  lemma {:induction false} MappingGives(row: Row)
    requires IsRow(row) && row.Mapping?
    ensures ModuleOf(RowText(row)) == Executables([row])
  {
    RowAddresses(row);
    MappingStarts(row);
    MappingLaid(row);
    LaidOutReads(RowText(row), AddressText(row), Lower(row.end), row.perms, row.perms + row.middle, row.name);
    assert [row][1..] == [];
  }

  lemma {:induction false} RowGives(row: Row)
    requires IsRow(row)
    ensures ModuleOf(RowText(row)) == Executables([row])
  {
    if row.Mapping? {
      MappingGives(row);
    } else {
      NoSlashNoModule(RowText(row));
    }
  }

  // ---- listings

  lemma {:induction false} RowIsLine(row: Row)
    requires IsRow(row)
    ensures var s := RowText(row); s != "" && s[|s| - 1] == '\n' && NUL !in s && '\n' !in s[..|s| - 1]
  {
    var s := RowText(row);
    if row.Mapping? {
      RowAddresses(row);
      var t, u, fields := AddressText(row), Lower(row.end), row.perms + row.middle;
      assert s[..|s| - 1] == t + ['-'] + u + [' '] + fields + ['/'] + row.name;
    } else {
      assert s[..|s| - 1] == row.text;
    }
  }

  lemma {:induction false} LineThenRest(s: string, rest: string)
    requires s != "" && |s| < LINE_SIZE && s[|s| - 1] == '\n' && NUL !in s && '\n' !in s[..|s| - 1]
    ensures Lines(s + rest) == [s] + Lines(rest)
  {
    var text, n := s + rest, |s|;
    assert forall i :: 0 <= i < n - 1 ==> text[i] == s[..n - 1][i];
    FirstIs(text, '\n', 0, n - 1);
    assert PieceLength(text) == n && text[..n] == s && text[n..] == rest;
    NoZeroIsAll(s);
    FirstLine(text, n);
  }

  lemma {:induction false} ListingLines(rows: seq<Row>)
    requires forall i :: 0 <= i < |rows| ==> IsRow(rows[i])
    ensures Lines(Listing(rows)) == RowTexts(rows)
  {
    if rows != [] {
      RowIsLine(rows[0]);
      LineThenRest(RowText(rows[0]), Listing(rows[1..]));
      ListingLines(rows[1..]);
    }
  }

  /** A printed listing gives exactly its executable file mappings, in their order. */
  lemma {:induction false} ListingGives(rows: seq<Row>)
    requires forall i :: 0 <= i < |rows| ==> IsRow(rows[i])
    ensures Modules(Lines(Listing(rows))) == Executables(rows)
  {
    ListingLines(rows);
    TextsGive(rows);
  }

  lemma {:induction false} TextsGive(rows: seq<Row>)
    requires forall i :: 0 <= i < |rows| ==> IsRow(rows[i])
    ensures Modules(RowTexts(rows)) == Executables(rows)
  {
    if rows != [] {
      RowGives(rows[0]);
      TextsGive(rows[1..]);
      assert RowTexts(rows)[1..] == RowTexts(rows[1..]);
      assert Executables([rows[0]]) == Executables([rows[0]]) + [];
      assert [rows[0]][1..] == [];
    }
  }

  /** What a printed listing leaves in a free table. */
  method LoadRows(rows: seq<Row>, addrs: array<nat>, names: array<string>)
    requires forall i :: 0 <= i < |rows| ==> IsRow(rows[i])
    requires addrs.Length == names.Length == MODULES_MAX && forall i :: 0 <= i < MODULES_MAX ==> addrs[i] == 0
    modifies addrs, names
    ensures Sorted(Executables(rows)) && |Executables(rows)| <= MODULES_MAX ==> Loaded(addrs[..], names[..], Executables(rows))
  {
    ghost var free := addrs[..];
    SetLoadAddrs(Listing(rows), addrs, names);
    ListingGives(rows);
  }

  /** The name belongs to the module with the greatest base not above pc. */
  ghost predicate IsAttribution(modules: seq<Module>, pc: nat, base: nat, name: Option<string>) {
    match name
    case None => forall m :: m in modules ==> m.addr > pc
    case Some(text) =>
      Module(base, text) in modules && base <= pc && forall m :: m in modules && m.addr <= pc ==> m.addr <= base
  }

  lemma {:induction false} GreatestIsAttribution(modules: seq<Module>, addrs: seq<nat>, names: seq<string>, pc: nat, best: Option<nat>)
    requires |addrs| == |names| && (best.Some? ==> best.value < |addrs|) && IsGreatestUpTo(modules, addrs, names, pc, best)
    ensures IsAttribution(modules, pc, if best.Some? then addrs[best.value] else 0, if best.Some? then Some(names[best.value]) else None)
  {
  }

  /** Set-up and crash in one: after a printed listing has been read into a free table, a
      program counter is attributed to the executable mapping with the greatest start address
      not above it. */
  method Attribute(rows: seq<Row>, pc: nat) returns (base: nat, name: Option<string>)
    requires forall i :: 0 <= i < |rows| ==> IsRow(rows[i])
    requires Sorted(Executables(rows)) && |Executables(rows)| <= MODULES_MAX
    ensures IsAttribution(Executables(rows), pc, base, name)
  {
    var addrs, names := new nat[MODULES_MAX](_ => 0), new string[MODULES_MAX](_ => "");
    LoadRows(rows, addrs, names);
    base, name := AttributeLoaded(addrs, names, pc, Executables(rows));
  }

  method AttributeLoaded(addrs: array<nat>, names: array<string>, pc: nat, ghost modules: seq<Module>) returns (base: nat, name: Option<string>)
    requires addrs.Length == names.Length == MODULES_MAX && Loaded(addrs[..], names[..], modules)
    ensures IsAttribution(modules, pc, base, name)
  {
    var best := Lookup(addrs, pc);
    LookupInLoaded(addrs[..], names[..], modules, pc, best);
    GreatestIsAttribution(modules, addrs[..], names[..], pc, best);
    base, name := 0, None;
    if best.Some? {
      base, name := addrs[best.value], Some(names[best.value]);
    }
  }
}
