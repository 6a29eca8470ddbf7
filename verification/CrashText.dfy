/** The text buffer of a crash dump, engine/crash/src: OnCrash of backtrace_execinfo.cpp
    appends one line per stack frame, LogCallstack of crash.cpp takes them apart again. */
module CrashText {
  import opened Basics

  const EXTRA_MAX: nat := 32768
  const NEWLINE: byte := 10
  const RETURN: byte := 13

  type Bytes = seq<byte>

  /** A C string: no zero inside. A frame line also has no line break. */
  predicate IsCString(s: Bytes) { 0 !in s }
  predicate IsLine(s: Bytes) { 0 !in s && NEWLINE !in s }

  ghost predicate AreLines(lines: seq<Bytes>) {
    forall i :: 0 <= i < |lines| ==> IsLine(lines[i])
  }

  /** The lines, each followed by a line break. */
  function TextOf(lines: seq<Bytes>): Bytes {
    if lines == [] then [] else lines[0] + [NEWLINE] + TextOf(lines[1..])
  }

  lemma {:induction false} TextSnoc(lines: seq<Bytes>, last: Bytes)
    ensures TextOf(lines + [last]) == TextOf(lines) + last + [NEWLINE]
  {
    if lines == [] {
      assert [last][1..] == [] && lines + [last] == [last];
    } else {
      assert (lines + [last])[1..] == lines[1..] + [last];
      TextSnoc(lines[1..], last);
      Regroup(lines[0] + [NEWLINE], TextOf(lines[1..]), last, [NEWLINE]);
    }
  }

  lemma {:induction false} Regroup(a: Bytes, b: Bytes, c: Bytes, d: Bytes)
    ensures a + (b + c + d) == a + b + c + d
  {
  }

  lemma {:induction false} TextTake(lines: seq<Bytes>, i: nat)
    requires i < |lines|
    ensures TextOf(lines[..i + 1]) == TextOf(lines[..i]) + lines[i] + [NEWLINE]
  {
    assert lines[..i + 1] == lines[..i] + [lines[i]];
    TextSnoc(lines[..i], lines[i]);
  }

  lemma {:induction false} TextIsCString(lines: seq<Bytes>)
    requires AreLines(lines)
    ensures IsCString(TextOf(lines))
  {
    if lines != [] {
      TextIsCString(lines[1..]);
    }
  }

  // ---- writing

  /** `stored` is the length of the longest prefix of lines whose text leaves room for the
      closing zero. */
  ghost predicate LongestFitting(lines: seq<Bytes>, stored: nat) {
    && stored <= |lines| && |TextOf(lines[..stored])| <= EXTRA_MAX - 1
    && (stored < |lines| ==> |TextOf(lines[..stored + 1])| > EXTRA_MAX - 1)
  }

  lemma {:induction false} TextGrows(lines: seq<Bytes>, i: nat, j: nat)
    requires i <= j <= |lines|
    ensures |TextOf(lines[..i])| <= |TextOf(lines[..j])|
    decreases j
  {
    if i < j {
      TextTake(lines, j - 1);
      TextGrows(lines, i, j - 1);
    }
  }

  /** There is only one such length, and every prefix that fits is covered by it. */
  lemma {:induction false} LongestFittingIsLongest(lines: seq<Bytes>, stored: nat, k: nat)
    requires LongestFitting(lines, stored) && k <= |lines|
    ensures |TextOf(lines[..k])| <= EXTRA_MAX - 1 <==> k <= stored
  {
    if k <= stored {
      TextGrows(lines, k, stored);
    } else {
      TextGrows(lines, stored + 1, k);
    }
  }

  /** memcpy of a line and the line break behind it. */
  method PutLine(extra: array<byte>, offset: nat, line: Bytes)
    requires offset + |line| < extra.Length
    modifies extra
    ensures extra[..] == old(extra[..offset]) + line + [NEWLINE] + old(extra[offset + |line| + 1..])
  {
    ghost var was := extra[..];
    assert line[..0] == [] && was[..offset] + [] + was[offset..] == was;
    for k := 0 to |line|
      invariant extra[..] == was[..offset] + line[..k] + was[offset + k..]
    {
      ghost var before := extra[..];
      extra[offset + k] := line[k];
      assert extra[..] == before[offset + k := line[k]];
      Overwritten(was, extra[..], offset + k, was[..offset] + line[..k], line[k]);
      NextByte(was[..offset], line, k);
    }
    assert line[..|line|] == line;
    ghost var before := extra[..];
    extra[offset + |line|] := NEWLINE;
    assert extra[..] == before[offset + |line| := NEWLINE];
    Overwritten(was, extra[..], offset + |line|, was[..offset] + line, NEWLINE);
  }

  lemma {:induction false} NextByte(front: Bytes, line: Bytes, k: nat)
    requires k < |line|
    ensures front + line[..k] + [line[k]] == front + line[..k + 1]
  {
  }

  /** Setting the first byte behind what has been written extends it by that byte. */
  lemma {:induction false} Overwritten(was: Bytes, now: Bytes, at: nat, done: Bytes, b: byte)
    requires |done| == at < |was| && now == (done + was[at..])[at := b]
    ensures now == done + [b] + was[at + 1..]
  {
  }

  /** A line put behind the text. */
  lemma {:induction false} Appended(text: Bytes, line: Bytes, was: Bytes, before: Bytes, now: Bytes)
    requires |text| + |line| < |was| && before == text + was[|text|..]
    requires now == before[..|text|] + line + [NEWLINE] + before[|text| + |line| + 1..]
    ensures now == text + line + [NEWLINE] + was[|text| + |line| + 1..]
  {
    assert before[..|text|] == text;
    assert before[|text| + |line| + 1..] == was[|text| + |line| + 1..];
  }

  /** A text is in the buffer, and the rest is as it was. */
  ghost predicate Stored(buffer: Bytes, was: Bytes, text: Bytes) {
    |text| < |was| && buffer == text + was[|text|..]
  }

  /** texts[k] is the text of the first k lines. */
  ghost predicate Growing(texts: seq<Bytes>, lines: seq<Bytes>) {
    && |texts| == |lines| + 1 && texts[0] == []
    && forall k :: 0 <= k < |lines| ==> texts[k + 1] == texts[k] + lines[k] + [NEWLINE]
  }

  ghost function Texts(lines: seq<Bytes>): (texts: seq<Bytes>)
    ensures |texts| == |lines| + 1 && forall k :: 0 <= k <= |lines| ==> texts[k] == TextOf(lines[..k])
  {
    seq(|lines| + 1, k requires 0 <= k <= |lines| => TextOf(lines[..k]))
  }

  lemma {:induction false} TextsGrow(lines: seq<Bytes>)
    ensures Growing(Texts(lines), lines)
  {
    forall k | 0 <= k < |lines|
      ensures Texts(lines)[k + 1] == Texts(lines)[k] + lines[k] + [NEWLINE]
    {
      TextTake(lines, k);
    }
  }

  method AppendLine(extra: array<byte>, offset: nat, line: Bytes, ghost text: Bytes, ghost was: Bytes)
    requires Stored(extra[..], was, text) && offset == |text| && |was| == extra.Length
    requires offset + |line| < extra.Length - 1
    modifies extra
    ensures Stored(extra[..], was, text + line + [NEWLINE])
  {
    ghost var before := extra[..];
    PutLine(extra, offset, line);
    Appended(text, line, was, before, extra[..]);
  }

  lemma {:induction false} NothingStored(was: Bytes)
    requires |was| > 0
    ensures Stored(was, was, [])
  {
    assert [] + was[0..] == was;
  }

  lemma {:induction false} StoredMeans(buffer: Bytes, was: Bytes, text: Bytes)
    requires Stored(buffer, was, text)
    ensures |buffer| == |was| && buffer[|was| - 1] == was[|was| - 1]
  {
  }

  /** The loop of OnCrash: takes lines as long as they fit. */
  method AppendWhileFitting(extra: array<byte>, lines: seq<Bytes>, ghost texts: seq<Bytes>) returns (offset: nat, stored: nat)
    requires extra.Length == EXTRA_MAX && Growing(texts, lines)
    modifies extra
    ensures stored <= |lines| && offset == |texts[stored]| && Stored(extra[..], old(extra[..]), texts[stored])
    ensures stored < |lines| ==> |texts[stored + 1]| > EXTRA_MAX - 1
  {
    ghost var was := extra[..];
    offset, stored := 0, 0;
    NothingStored(was);
    while stored < |lines|
      invariant stored <= |lines| && offset == |texts[stored]| && Stored(extra[..], was, texts[stored])
    {
      var length := if |lines[stored]| < EXTRA_MAX - 1 then |lines[stored]| else EXTRA_MAX - 1;
      if offset + length >= EXTRA_MAX - 1 {
        break;
      }
      AppendLine(extra, offset, lines[stored], texts[stored], was);
      offset, stored := offset + length + 1, stored + 1;
    }
  }

  /** The longest prefix of lines that fits is stored, behind it the buffer is as it was. */
  method AppendLines(extra: array<byte>, lines: seq<Bytes>) returns (offset: nat, stored: nat)
    requires extra.Length == EXTRA_MAX
    modifies extra
    ensures LongestFitting(lines, stored) && offset == |TextOf(lines[..stored])|
    ensures Stored(extra[..], old(extra[..]), TextOf(lines[..stored]))
    ensures extra[EXTRA_MAX - 1] == old(extra[EXTRA_MAX - 1])
  {
    ghost var was := extra[..];
    TextsGrow(lines);
    offset, stored := AppendWhileFitting(extra, lines, Texts(lines));
    StoredMeans(extra[..], was, TextOf(lines[..stored]));
  }

  // ---- reading

  /** End of the first line: at the first line break; without any, at the first carriage
      return; without either, at the end. */
  function LineEnd(text: Bytes): (e: nat)
    ensures e <= |text|
  {
    if Find(text, NEWLINE) < |text| then Find(text, NEWLINE) else Find(text, RETURN)
  }

  function Logged(text: Bytes): seq<Bytes> {
    if text == [] then []
    else
      var e := LineEnd(text);
      if e == |text| then [text] else [text[..e]] + Logged(text[e + 1..])
  }

  /** The text with the line ends that were found set to zero. */
  function Zeroed(text: Bytes): (r: Bytes)
    ensures |r| == |text|
  {
    if text == [] then []
    else
      var e := LineEnd(text);
      if e == |text| then text else text[..e] + [0] + Zeroed(text[e + 1..])
  }

  /** strchr(p, c) in a buffer whose text ends at `end`. */
  method StrChr(buffer: array<byte>, p: nat, end: nat, c: byte) returns (i: nat)
    requires p <= end < buffer.Length && buffer[end] == 0 && IsCString(buffer[p..end])
    ensures i == p + Find(buffer[p..end], c)
  {
    i := p;
    while buffer[i] != 0 && buffer[i] != c
      invariant p <= i <= end && forall j :: p <= j < i ==> buffer[j] != c
      decreases end - i
    {
      assert i == end || buffer[i] == buffer[p..end][i - p];
      i := i + 1;
    }
    assert i == end || buffer[i] == buffer[p..end][i - p];
    FindIs(buffer[p..end], c, i - p);
  }

  method StrLen(buffer: array<byte>) returns (n: nat)
    requires buffer.Length > 0 && buffer[buffer.Length - 1] == 0
    ensures n == Find(buffer[..], 0) < buffer.Length
  {
    n := 0;
    while buffer[n] != 0
      invariant n < buffer.Length && forall j :: 0 <= j < n ==> buffer[j] != 0
      decreases buffer.Length - n
    {
      n := n + 1;
    }
    FindIs(buffer[..], 0, n);
  }

  /** How far LogCallstack has come: what is logged and zeroed in front of p, and what is
      left of the text from p on. */
  ghost predicate Midway(buffer: Bytes, was: Bytes, p: nat, end: nat, log: seq<Bytes>) {
    && |buffer| == |was| && p <= end < |was|
    && buffer[p..] == was[p..]
    && log + Logged(was[p..end]) == Logged(was[..end])
    && buffer[..p] + Zeroed(was[p..end]) == Zeroed(was[..end])
  }

  lemma {:induction false} TakeLine(buffer: Bytes, was: Bytes, p: nat, end: nat, log: seq<Bytes>, line: Bytes, e: nat, now: Bytes)
    requires Midway(buffer, was, p, end, log) && p < end && e == p + LineEnd(was[p..end]) < end
    requires line == was[p..e] && now == buffer[e := 0]
    ensures Midway(now, was, e + 1, end, log + [line])
  {
    var text := was[p..end];
    assert text[..e - p] == line && text[e - p + 1..] == was[e + 1..end];
    LoggedFirst(text, e - p, line, was[e + 1..end]);
    LogRegroup(log, line, Logged(was[e + 1..end]));
    ZeroedFront(buffer, was, p, e);
    Regroup(buffer[..p], line, [0], Zeroed(was[e + 1..end]));
  }

  lemma {:induction false} LogRegroup(a: seq<Bytes>, b: Bytes, c: seq<Bytes>)
    ensures a + ([b] + c) == a + [b] + c
  {
  }

  lemma {:induction false} LoggedFirst(text: Bytes, e: nat, first: Bytes, rest: Bytes)
    requires e == LineEnd(text) < |text| && first == text[..e] && rest == text[e + 1..]
    ensures Logged(text) == [first] + Logged(rest) && Zeroed(text) == first + [0] + Zeroed(rest)
  {
  }

  lemma {:induction false} ZeroedFront(buffer: Bytes, was: Bytes, p: nat, e: nat)
    requires |buffer| == |was| && p <= e < |was| && buffer[p..] == was[p..]
    ensures buffer[e := 0][..e + 1] == buffer[..p] + was[p..e] + [0]
    ensures buffer[e := 0][e + 1..] == was[e + 1..]
  {
    assert buffer[p..e] == buffer[p..][..e - p] && was[p..e] == was[p..][..e - p];
    assert buffer[e + 1..] == buffer[p..][e + 1 - p..] && was[e + 1..] == was[p..][e + 1 - p..];
  }

  lemma {:induction false} LastLine(buffer: Bytes, was: Bytes, p: nat, end: nat, log: seq<Bytes>, line: Bytes)
    requires Midway(buffer, was, p, end, log) && p < end && p + LineEnd(was[p..end]) == end && line == was[p..end]
    ensures Midway(buffer, was, end, end, log + [line])
  {
    assert Logged(line) == [line] && Zeroed(line) == line;
    assert was[end..end] == [];
    assert log + [line] + [] == log + [line];
    assert buffer[p..end] == buffer[p..][..end - p] && line == was[p..][..end - p];
    assert buffer[..end] + [] == buffer[..p] + buffer[p..end];
    assert buffer[end..] == buffer[p..][end - p..] && was[end..] == was[p..][end - p..];
  }

  /** What is left of the text is still a C string that ends where it did. */
  lemma {:induction false} StillText(buffer: Bytes, was: Bytes, p: nat, end: nat)
    requires |buffer| == |was| && p <= end < |was| && buffer[p..] == was[p..]
    requires IsCString(was[..end]) && was[end] == 0
    ensures buffer[p..end] == was[p..end] && buffer[end] == 0 && IsCString(was[p..end])
  {
    assert buffer[p..end] == buffer[p..][..end - p] && was[p..end] == was[p..][..end - p];
    assert buffer[end] == buffer[p..][end - p] && was[end] == was[p..][end - p];
    assert was[p..end] == was[..end][p..];
  }

  method FindLineEnd(extra: array<byte>, p: nat, end: nat) returns (e: nat)
    requires p <= end < extra.Length && extra[end] == 0 && IsCString(extra[p..end])
    ensures e == p + LineEnd(extra[p..end])
  {
    e := StrChr(extra, p, end, NEWLINE);
    if e == end {
      e := StrChr(extra, p, end, RETURN);
    }
  }

  /** One line: finds its end, logs it, sets its end to zero. */
  method LogLine(extra: array<byte>, p: nat, end: nat, log: seq<Bytes>, ghost was: Bytes) returns (p': nat, log': seq<Bytes>)
    requires Midway(extra[..], was, p, end, log) && p < end && IsCString(was[..end]) && was[end] == 0
    modifies extra
    ensures Midway(extra[..], was, p', end, log') && p < p'
  {
    var e, line := ReadLine(extra, p, end, log, was);
    p' := EndLine(extra, p, e, end, line, log, was);
    log' := log + [line];
  }

  /** Behind a line: its end, if it has one, becomes a zero. */
  method EndLine(extra: array<byte>, p: nat, e: nat, end: nat, ghost line: Bytes, ghost log: seq<Bytes>, ghost was: Bytes) returns (p': nat)
    requires Midway(extra[..], was, p, end, log) && p < end && p <= e <= end
    requires e == p + LineEnd(was[p..end]) && line == was[p..e]
    modifies extra
    ensures Midway(extra[..], was, p', end, log + [line]) && p < p'
  {
    if e < end {
      ghost var before := extra[..];
      ZeroAt(extra, e);
      TakeLine(before, was, p, end, log, line, e, extra[..]);
      p' := e + 1;
    } else {
      LastLine(extra[..], was, p, end, log, line);
      p' := end;
    }
  }

  /** The line that starts at p, and where it ends. */
  method ReadLine(extra: array<byte>, p: nat, end: nat, ghost log: seq<Bytes>, ghost was: Bytes) returns (e: nat, line: Bytes)
    requires Midway(extra[..], was, p, end, log) && p < end && IsCString(was[..end]) && was[end] == 0
    ensures p <= e <= end && e == p + LineEnd(was[p..end]) && line == was[p..e]
  {
    StillText(extra[..], was, p, end);
    assert extra[p..end] == extra[..][p..end] == was[p..end];
    e := FindLineEnd(extra, p, end);
    SameLine(extra[..], was, p, e, end);
    line := extra[p..e];
  }

  lemma {:induction false} SameLine(buffer: Bytes, was: Bytes, p: nat, e: nat, end: nat)
    requires p <= e <= end <= |buffer| && end <= |was| && buffer[p..end] == was[p..end]
    ensures buffer[p..e] == was[p..e]
  {
    assert buffer[p..e] == buffer[p..end][..e - p] && was[p..e] == was[p..end][..e - p];
  }

  method ZeroAt(extra: array<byte>, e: nat)
    requires e < extra.Length
    modifies extra
    ensures extra[..] == old(extra[..])[e := 0]
  {
    extra[e] := 0;
  }

  method LogCallstack(extra: array<byte>) returns (log: seq<Bytes>)
    requires extra.Length > 0 && extra[extra.Length - 1] == 0
    modifies extra
    ensures log == Logged(UpTo(old(extra[..]), 0))
    ensures extra[..] == Zeroed(UpTo(old(extra[..]), 0)) + old(extra[..])[Find(old(extra[..]), 0)..]
  {
    ghost var was := extra[..];
    var p := 0;
    var end := StrLen(extra);
    log := [];
    Begins(was, end);
    while p < end
      invariant Midway(extra[..], was, p, end, log)
      invariant IsCString(was[..end]) && was[end] == 0
    {
      p, log := LogLine(extra, p, end, log, was);
    }
    Ends(extra[..], was, end, log);
  }

  lemma {:induction false} Begins(was: Bytes, end: nat)
    requires end < |was|
    ensures Midway(was, was, 0, end, [])
  {
    assert was[0..end] == was[..end];
    assert [] + Logged(was[..end]) == Logged(was[..end]);
    assert was[..0] + Zeroed(was[..end]) == Zeroed(was[..end]);
  }

  lemma {:induction false} Ends(buffer: Bytes, was: Bytes, end: nat, log: seq<Bytes>)
    requires Midway(buffer, was, end, end, log)
    ensures log == Logged(was[..end]) && buffer == Zeroed(was[..end]) + was[end..]
  {
    assert was[end..end] == [];
    assert log + [] == log;
    assert buffer[..end] + [] == buffer[..end];
    assert buffer == buffer[..end] + buffer[end..];
  }

  // ---- a whole report

  lemma {:induction false} FindAfter(a: Bytes, b: Bytes, c: byte)
    requires c !in a
    ensures Find(a + b, c) == |a| + Find(b, c)
  {
    FindIs(a + b, c, |a| + Find(b, c));
  }

  lemma {:induction false} UpToAfter(a: Bytes, b: Bytes)
    requires IsCString(a)
    ensures UpTo(a + b, 0) == a + UpTo(b, 0)
  {
    FindAfter(a, b, 0);
  }

  lemma {:induction false} FirstLineEnd(line: Bytes, more: Bytes, text: Bytes)
    requires IsLine(line) && text == line + ([NEWLINE] + more)
    ensures LineEnd(text) == |line| && Logged(text) == [line] + Logged(more) && Zeroed(text) == line + [0] + Zeroed(more)
  {
    FindAfter(line, [NEWLINE] + more, NEWLINE);
    assert text[..|line|] == line && text[|line| + 1..] == more;
    LoggedFirst(text, |line|, line, more);
  }

  /** Reading undoes writing: lines come back as they were, in front of whatever text
      follows them. */
  lemma {:induction false} LoggedText(lines: seq<Bytes>, rest: Bytes)
    requires AreLines(lines)
    ensures Logged(TextOf(lines) + rest) == lines + Logged(rest)
  {
    if lines == [] {
      assert TextOf(lines) + rest == rest;
      assert lines + Logged(rest) == Logged(rest);
    } else {
      var more := TextOf(lines[1..]) + rest;
      Nested(lines[0], [NEWLINE], TextOf(lines[1..]), rest);
      FirstLineEnd(lines[0], more, TextOf(lines) + rest);
      LoggedText(lines[1..], rest);
      HeadBack(lines, Logged(rest));
    }
  }

  lemma {:induction false} Nested(a: Bytes, b: Bytes, c: Bytes, d: Bytes)
    ensures a + b + c + d == a + (b + (c + d))
  {
  }

  lemma {:induction false} HeadBack(lines: seq<Bytes>, rest: seq<Bytes>)
    requires lines != []
    ensures [lines[0]] + (lines[1..] + rest) == lines + rest
  {
  }

  /** The lines, each followed by a carriage return. */
  function ReturnText(lines: seq<Bytes>): Bytes {
    if lines == [] then [] else lines[0] + [RETURN] + ReturnText(lines[1..])
  }

  lemma {:induction false} FirstReturn(line: Bytes, more: Bytes, text: Bytes)
    requires NEWLINE !in text && RETURN !in line && text == line + ([RETURN] + more)
    ensures Logged(text) == [line] + Logged(more)
  {
    FindIs(text, NEWLINE, |text|);
    FindAfter(line, [RETURN] + more, RETURN);
    assert text[..|line|] == line && text[|line| + 1..] == more;
    LoggedFirst(text, |line|, line, more);
  }

  /** Behind the last line break, carriage returns end lines as well. */
  lemma {:induction false} LoggedReturns(lines: seq<Bytes>, rest: Bytes)
    requires (forall i :: 0 <= i < |lines| ==> RETURN !in lines[i]) && NEWLINE !in ReturnText(lines) + rest
    ensures Logged(ReturnText(lines) + rest) == lines + Logged(rest)
  {
    if lines == [] {
      assert ReturnText(lines) + rest == rest;
      assert lines + Logged(rest) == Logged(rest);
    } else {
      var text, more := ReturnText(lines) + rest, ReturnText(lines[1..]) + rest;
      Nested(lines[0], [RETURN], ReturnText(lines[1..]), rest);
      assert forall i :: 0 <= i < |more| ==> more[i] == text[i + |lines[0]| + 1];
      FirstReturn(lines[0], more, text);
      LoggedReturns(lines[1..], rest);
      HeadBack(lines, Logged(rest));
    }
  }

  lemma {:induction false} LoggedNothing(text: Bytes)
    ensures Logged(text) == [] <==> text == []
  {
  }

  /** What a report logs: its lines, then what C sees of the old buffer behind them. */
  lemma {:induction false} ReportLogs(lines: seq<Bytes>, stale: Bytes)
    requires AreLines(lines) && stale != []
    ensures Logged(UpTo(TextOf(lines) + stale, 0)) == lines + Logged(UpTo(stale, 0))
    ensures Logged(UpTo(TextOf(lines) + stale, 0)) == lines <==> stale[0] == 0
  {
    TextIsCString(lines);
    UpToAfter(TextOf(lines), stale);
    LoggedText(lines, UpTo(stale, 0));
    LoggedNothing(UpTo(stale, 0));
    if Logged(UpTo(stale, 0)) != [] {
      assert |lines + Logged(UpTo(stale, 0))| > |lines|;
    }
  }

  /** The text part of OnCrash without an extra-info callback: the buffer as it goes into
      the dump, and what is logged. */
  method Report(extra: array<byte>, lines: seq<Bytes>) returns (stored: nat, dumped: Bytes, log: seq<Bytes>)
    requires extra.Length == EXTRA_MAX && extra[EXTRA_MAX - 1] == 0 && AreLines(lines)
    modifies extra
    ensures LongestFitting(lines, stored)
    ensures var text := TextOf(lines[..stored]);
            && dumped == text + old(extra[..])[|text|..]
            && log == lines[..stored] + Logged(UpTo(old(extra[..])[|text|..], 0))
            && (log == lines[..stored] <==> old(extra[..])[|text|] == 0)
            && extra[..] == Zeroed(UpTo(dumped, 0)) + dumped[Find(dumped, 0)..]
  {
    var offset;
    ghost var was := extra[..];
    offset, stored := AppendLines(extra, lines);
    dumped := extra[..];
    ReportLogs(lines[..stored], was[offset..]);
    log := LogCallstack(extra);
  }

  // ---- one report after another

  lemma {:induction false} SplitAt(a: Bytes, b: byte, c: Bytes, i: nat)
    requires i < |a| + 1 + |c|
    ensures (a + [b] + c)[i] == if i < |a| then a[i] else if i == |a| then b else c[i - |a| - 1]
  {
  }

  lemma {:induction false} ZeroedText(lines: seq<Bytes>, i: nat)
    requires AreLines(lines) && i < |TextOf(lines)|
    ensures Zeroed(TextOf(lines))[i] == 0 <==> TextOf(lines)[i] == NEWLINE
  {
    var line := lines[0];
    if i > |line| {
      ZeroedText(lines[1..], i - |line| - 1);
    }
    ZeroedStep(line, TextOf(lines[1..]), TextOf(lines), i);
  }

  lemma {:induction false} ZeroedStep(line: Bytes, more: Bytes, text: Bytes, i: nat)
    requires IsLine(line) && text == line + [NEWLINE] + more && i < |text|
    requires i > |line| ==> (Zeroed(more)[i - |line| - 1] == 0 <==> more[i - |line| - 1] == NEWLINE)
    ensures Zeroed(text)[i] == 0 <==> text[i] == NEWLINE
  {
    assert text == line + ([NEWLINE] + more);
    FirstLineEnd(line, more, text);
    ZeroedFirst(line, more, Zeroed(more), i);
  }

  lemma {:induction false} ZeroedFirst(line: Bytes, more: Bytes, zeroed: Bytes, i: nat)
    requires IsLine(line) && |zeroed| == |more| && i < |line| + 1 + |more|
    requires i > |line| ==> (zeroed[i - |line| - 1] == 0 <==> more[i - |line| - 1] == NEWLINE)
    ensures (line + [0] + zeroed)[i] == 0 <==> (line + [NEWLINE] + more)[i] == NEWLINE
  {
    SplitAt(line, NEWLINE, more, i);
    SplitAt(line, 0, zeroed, i);
  }

  function Zeros(n: nat): Bytes { seq(n, i => 0) }

  /** The buffer after a report into a zeroed buffer. */
  ghost function AfterFirst(first: seq<Bytes>): Bytes
    requires |TextOf(first)| <= EXTRA_MAX
  {
    Zeroed(TextOf(first)) + Zeros(EXTRA_MAX - |TextOf(first)|)
  }

  lemma {:induction false} FirstReport(lines: seq<Bytes>, dumped: Bytes)
    requires AreLines(lines) && |TextOf(lines)| < EXTRA_MAX
    requires dumped == TextOf(lines) + Zeros(EXTRA_MAX)[|TextOf(lines)|..]
    ensures Zeroed(UpTo(dumped, 0)) + dumped[Find(dumped, 0)..] == AfterFirst(lines)
  {
    TextIsCString(lines);
    FindAfter(TextOf(lines), Zeros(EXTRA_MAX)[|TextOf(lines)|..], 0);
    assert UpTo(dumped, 0) == TextOf(lines);
    assert dumped[|TextOf(lines)|..] == Zeros(EXTRA_MAX - |TextOf(lines)|);
  }

  /** A second report in the same process logs exactly its own lines if and only if it is
      as long as the first, or ends where a line of the first ended: the buffer is not
      cleared in between. */
  lemma {:induction false} SecondReportIff(first: seq<Bytes>, second: seq<Bytes>)
    requires AreLines(first) && AreLines(second)
    requires |TextOf(first)| < EXTRA_MAX && |TextOf(second)| < EXTRA_MAX
    ensures var n := |TextOf(second)|;
            Logged(UpTo(TextOf(second) + AfterFirst(first)[n..], 0)) == second
            <==> n >= |TextOf(first)| || TextOf(first)[n] == NEWLINE
  {
    var n := |TextOf(second)|;
    ReportLogs(second, AfterFirst(first)[n..]);
    if n < |TextOf(first)| {
      ZeroedText(first, n);
      assert AfterFirst(first)[n..][0] == Zeroed(TextOf(first))[n];
    } else {
      assert AfterFirst(first)[n..][0] == 0;
    }
  }

  lemma {:induction false} OneLine(line: Bytes)
    ensures TextOf([line]) == line + [NEWLINE]
  {
    assert [line][1..] == [];
  }

  /** Two reports of one line each: the second logs the tail of the first as well. */
  lemma {:induction false} SecondReportExample(a: byte, b: byte)
    requires a != 0 && a != NEWLINE && b != 0 && b != NEWLINE
    ensures Logged(UpTo(TextOf([[b]]) + AfterFirst([[a, a, a]])[2..], 0)) != [[b]]
  {
    OneLine([b]);
    OneLine([a, a, a]);
    SecondReportIff([[a, a, a]], [[b]]);
  }

  lemma {:induction false} SplitPrefixLines(lines: seq<Bytes>, stored: nat)
    requires AreLines(lines) && stored <= |lines|
    ensures AreLines(lines[..stored])
  {
  }

  /** Two reports in one process, into a buffer that starts zeroed: the first logs exactly
      the lines it stored; the second does so if and only if it is as long as the first, or
      ends where a line of the first ended. */
  method ReportTwice(first: seq<Bytes>, second: seq<Bytes>)
    returns (stored: nat, log: seq<Bytes>, stored': nat, log': seq<Bytes>)
    requires AreLines(first) && AreLines(second)
    ensures LongestFitting(first, stored) && log == first[..stored] && LongestFitting(second, stored')
    ensures var text, n := TextOf(first[..stored]), |TextOf(second[..stored'])|;
            log' == second[..stored'] <==> n >= |text| || text[n] == NEWLINE
  {
    var extra := new byte[EXTRA_MAX](i => 0);
    assert extra[..] == Zeros(EXTRA_MAX);
    var dumped, dumped';
    stored, dumped, log := Report(extra, first);
    SplitPrefixLines(first, stored);
    FirstReport(first[..stored], dumped);
    ghost var between := extra[..];
    assert between == AfterFirst(first[..stored]);
    assert between[EXTRA_MAX - 1] == 0;
    stored', dumped', log' := Report(extra, second);
    SplitPrefixLines(second, stored');
    SecondReportIff(first[..stored], second[..stored']);
    ReportLogs(second[..stored'], between[|TextOf(second[..stored'])|..]);
  }
}
