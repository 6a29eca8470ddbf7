# Defold, modelled in Dafny

A model of the algorithmic cores of the Defold repository and proofs of what they are
meant to guarantee. Every module is one component of the repository:

| module | component |
|---|---|
| `FrameClock`, `Engine`, `RunLoop`, `EngineLoop` | the time-step accumulator, the life cycle of an engine object, the loop that creates, updates, reports and destroys engines, and the loop over such engines |
| `ImportLines`, `ImportScan` | the import scanner of the `.proto` build rule: import lines, and the depth-first search over a possibly cyclic import graph |
| `NameCase`, `CxxNames`, `CxxText`, `CxxLayout`, `DdfStruct`, `DdfReading`, `DdfDescriptor`, `DdfSymbols` | the C++ back end of the DDF compiler: name conversion, the struct printer with its unions, what its output reads as, the descriptor printer, their agreement, and the variables it defines |
| `CacheNames`, `CacheDir`, `HttpCache`, `HttpRuns` | the HTTP disk cache: file names, sizes and eviction, the operations judged after every single file operation, and runs of downloads |
| `ThreadPool`, `Multipart`, `Uploads` | the thread pool with futures as interleaved steps, the multipart upload, and uploads as tasks of the pool |
| `TrigLookup`, `TrigPrecision` | cosine and sine by table lookup with interpolation, and the table size that meets the guaranteed precision |
| `CrashText`, `LoadAddrs`, `LoadListing`, `CrashDump` | the crash reporter: text buffer, module table and the listings it is read from, life of a dump |
| `Basics` | options, bytes, sequences |

Code that updates fields in place is modelled by classes and methods with loops
(`Engine.EngineObject`, `ImportScan.Scanner`, `HttpCache.Cache`, `DdfStruct.PrettyPrinter`,
`CrashDump.Crash`, and the array methods of `CrashText` and `LoadAddrs`), each proved
against a specification; the laws are lemmas about those specifications. The thread pool
is a step relation. Environment choices (clock readings, what happens inside a frame, what
a server answers, which thread runs next, how many bytes a write gets out) are parameters,
so that a statement holds for all of them.

What is stated is what the code does. Where a comment, a docstring or an obvious
expectation says otherwise, there is a lemma with the input that shows it and one with the
exact condition:

- `CalcTimeStep` wants one frame per tick (comment at engine/engine/src/engine.cpp:1718-1720).
  Raising the update frequency breaks that; `FrameClock.AtMostOneStepIff` gives the
  condition for a single tick, `FrameClock.AtMostOneStepUnlessRaised` for runs.
- The docstring of `to_lower_case` (engine/ddf/src/ddfc.py:166-169) shows no underscore
  between a digit and a capital; the code puts one there. `NameCase.DocstringExample` is the
  docstring's own input, `NameCase.DocstringIff` says for which names code and docstring
  agree. When it undoes `to_camel_case` is `NameCase.RoundTripIff`.
- Descriptor paths agree with the struct exactly if member names are unambiguous
  (`DdfDescriptor.EntriesLeadIff`); a field called `d_d_f_hash` breaks that
  (`DdfDescriptor.HashFieldBreaks`). Type names come out right exactly if no package or
  enclosing message has an underscore (`CxxNames.OwnerTextIff`).
- The guaranteed precision of 0.001 (engine/dlib/scripts/trig_lookup_template.h:26) holds at
  every angle if and only if the table has at least 7 bits, which is the size that is
  checked in (`TrigPrecision.PreciseIffSevenBits`).
- Two messages of a well-named file can get the same descriptor variable
  (`DdfSymbols.WellNamedButColliding`); `DdfSymbols.SymbolsDifferIff` says when none do.
- A cache entry belongs to every URL whose path continues at a slash or dash
  (`CacheNames.NestedPathsCollide`); `CacheNames.MatchesIff` says exactly when. URLs that
  mangle to the same name share their entry (`HttpRuns.SharedStemSharesEntry`); a hit is
  the URL's own if no other requested URL does (`HttpRuns.RunThenGet`).
- A body without an announced length makes `download` divide by zero and leaves a temporary
  file behind (`HttpRuns.ZeroLengthRaises`); `HttpCache.Completes` is the condition under
  which a response is stored.
- A URL has at most one file only if its old file can be removed or is replaced by one of the
  same name (`HttpCache.AloneIffReplaceable`).
- An upload whose part fails is cancelled without raising anything, so `wait_uploads` goes
  through although nothing was stored (`Uploads.CancelledCompletes`, `Uploads.ClearedIffStored`).
- A second crash report in one process can log text of the first
  (`CrashText.SecondReportIff`, `CrashText.ReportTwice`).
- A dump at the default place hides one at the configured place, and `Purge` then removes
  both (`CrashDump.LoadPreviousIff`, `CrashDump.MaskedDumpLost`).

Premises: exact `real` arithmetic in place of floating point; an engine clock that may jump
arbitrarily except where a lemma asks for monotone readings; angles whose index fits the
32-bit conversion in `Cos`; one process using the HTTP cache at a time, mangled paths none of
which continues another (`PrefixFree`), and for the size bound, but for nothing else, a
Content-Length that says what arrives unless the response breaks off; frame lines without line breaks or zeros in
`CrashText`. Of cosine only its period, its Lipschitz bound, its bound on curvature, the
double-angle law and its values at 0 and pi are used, and of pi that it lies between 3.1415
and 3.1416.

`dafny verify dfyconfig.toml` checks the whole project.

## Model

| member | source | states |
|---|---|---|
| `FrameClock.TicksDeterministic` | engine/engine/src/engine.cpp:1694-1734 | the division-with-remainder specification of a tick determines step length, step count and leftover completely |
| `FrameClock.FloorDivides` | engine/engine/src/engine.cpp:1728-1733 | truncating the quotient leaves a remainder in [0, step) |
| `FrameClock.TickConserves` | engine/engine/src/engine.cpp:1694-1734 | fixed or variable rate, steps handed out plus new leftover equal old leftover plus clamped frame time |
| `FrameClock.LeftoverBounded` | engine/engine/src/engine.cpp:1694-1734 | over every run with any readings, frequency changes and clock resets, the leftover is never negative, stays below the longest fixed period used so far, and is 0 before any fixed-rate tick |
| `FrameClock.StepsBounded` | engine/engine/src/engine.cpp:1694-1734 | over every run, a fixed-rate tick hands out fewer than 1 + f*M steps, so the 32-bit conversion is exact |
| `FrameClock.AtMostOneStepUnlessRaised` | engine/engine/src/engine.cpp:1716-1733 | over every run in which the frequency is never raised, no tick runs more than one frame |
| `FrameClock.AtMostOneStepIff` | engine/engine/src/engine.cpp:1716-1733 | a tick runs at most one frame if and only if the leftover is shorter than the frame or both together are shorter than two periods |
| `FrameClock.RaisingTheFrequencyBreaksIt` | engine/engine/src/engine.cpp:495-498 | going from 2 to 100 updates per second makes one tick run five frames |
| `FrameClock.TimeConserved` | engine/engine/src/engine.cpp:1694-1734 | over every run mixing both rates, time handed out plus leftover equals the sum of clamped frame times |
| `FrameClock.GameTimeFollowsRealTime` | engine/engine/src/engine.cpp:181-187 | with a monotone clock, game time never overtakes real time less the intervals dropped by iconify; without hitches it is equal |
| `FrameClock.GameTimeExactly` | engine/engine/src/engine.cpp:1694-1734 | with a monotone clock, over every run, game time plus what is left over is to the microsecond real time less the intervals dropped by iconify and less what each slow frame took beyond half a second |
| `Engine.EngineObject.CalcTimeStep` | engine/engine/src/engine.cpp:1694-1734 | the method meets the specification of a tick for every reading and frequency |
| `Engine.EngineObject.Exit` | engine/engine/src/engine.cpp:1766-1771 | an exit message ends the engine's life with its code |
| `Engine.EngineObject.FillArgv` | engine/engine/src/engine.cpp:1773-1799 | the argument array starts with "dmengine" and the longest prefix of non-empty arguments, every counted entry present |
| `Engine.EngineObject.Reboot` | engine/engine/src/engine.cpp:1773-1806 | a reboot message replaces the command line and ends the engine's life |
| `Engine.EngineObject.Handle` | engine/engine/src/engine.cpp:158-187 | each event (close, iconify, frequency, messages) has the effect its kind prescribes and keeps the object valid |
| `Engine.EngineObject.Step` | engine/engine/src/engine.cpp:1736-1758 | resets the result, ticks the clock, and runs frames until the step count is reached or one stops the engine |
| `Engine.EngineObject.Update` | engine/engine/src/engine.cpp:2101-2113 | a live engine steps and reports its action; a dead one changes nothing and reports exit if undecided |
| `Engine.EngineObject.GetResult` | engine/engine/src/engine.cpp:2115-2135 | action, code and a fresh copy of exactly the counted arguments |
| `Engine.EffectsCompose` | engine/engine/src/engine.cpp:1736-1806 | the effect of two stretches of events is the effect of their concatenation |
| `Engine.EffectKeepsValid` | engine/engine/src/engine_private.h:48-80 | no event sequence makes a decided action coexist with a live engine, or the argument count leave its bound |
| `Engine.ReachableStatesValid` | engine/engine/src/engine.cpp:2101-2113 | in every reachable state a decided action goes with a dead engine, and every counted argument is there |
| `Engine.LastMessageWins` | engine/engine/src/engine.cpp:1736-1771 | a call in which exit or reboot messages take place returns at once what the last of them asks; without any it returns OK |
| `Engine.RebootArguments` | engine/engine/src/engine.cpp:1773-1806 | the command line after a reboot is that of the last reboot message, whatever came before or between |
| `Engine.RebootArgvShape` | engine/engine/src/engine.cpp:1773-1799 | entry by entry: "dmengine", then the arguments up to the first that is missing or empty |
| `Engine.ClockAfterCall` | engine/engine/src/engine.cpp:181-187 | after a call the clock stands at the last iconify event, else at the reading of the tick, and runs at the frequency last set, else as before |
| `Engine.WindowCloseExitsNextCall` | engine/engine/src/engine.cpp:158-164 | a window close without messages lets this call return OK and the next return EXIT with no frame |
| `Engine.NoFrameAfterStop` | engine/engine/src/engine.cpp:1748-1756 | a stopping event can only lie in the last frame of its call |
| `Engine.AllFramesRun` | engine/engine/src/engine.cpp:1736-1758 | a call that leaves the engine alive runs all frames its tick hands out; at a variable rate every call on a live engine runs exactly one |
| `Engine.DeadStaysDead` | engine/engine/src/engine.cpp:2101-2113 | once dead, no later call of any run steps a frame, changes the state or returns OK |
| `Engine.OkExactlyWhen` | engine/engine/src/engine.cpp:2101-2113 | a call returns OK if and only if it ran on a live engine and no exit or reboot message took place; after any other result the engine is dead |
| `Engine.EngineRunIsClockRun` | engine/engine/src/engine.cpp:1694-1758 | the clock fields of an engine go through a run of the frame clock, so all clock laws hold for engines |
| `Engine.OneFramePerUpdate` | engine/engine/src/engine.cpp:1694-1758 | while no message changes the frequency, no update of any run runs more than one frame |
| `RunLoop.Run` | engine/engine/src/engine_loop.cpp:54-106 | for every behaviour of the callbacks and any number of rounds, one update each: the trace consists of complete sessions linked by reboots, and every event takes place when and with what rules on the events before it say (AppCreate first, the first create on the command line of the process, later ones on the last report, no update after a result that is not OK, AppDestroy last, the exit code of the last report or 1) |
| `RunLoop.UpdateEngine` | engine/engine/src/engine_loop.cpp:83-99 | an update that is not OK is followed by exactly one report and one destruction, which close the session and say whether and on what the next create follows |
| `RunLoop.FinishedRunDestroysEveryEngine` | engine/engine/src/engine_loop.cpp:66-101 | in a finished run every created engine was updated, reported on and destroyed exactly once, one after the other |
| `RunLoop.AtMostOneEngineLive` | engine/engine/src/engine_loop.cpp:66-101 | in the middle of any run at most one engine is live, and it is the latest |
| `RunLoop.WellBehavedThroughout` | engine/engine/src/engine.h:34-34 | a trace that follows the documented protocol at its end followed it at every earlier point |
| `EngineLoop.LifeEnds` | engine/engine/src/engine.cpp:1736-1806 | the loop sees of an engine what the last message of its whole life asks for, the code of its last exit message (0 without any), and for a reboot the command line of its last reboot message |
| `EngineLoop.CreateArguments` | engine/engine/src/engine_loop.cpp:66-99 | in every run over engines, the create of each later session gets "dmengine" and the longest non-empty prefix of the last reboot message of the session before |
| `EngineLoop.CreateAfterReboot` | engine/engine/src/engine_loop.cpp:66-99 | the same for the create that follows the last session, whether it succeeds or not |
| `EngineLoop.SessionVerdict` | engine/engine/src/engine_loop.cpp:83-98 | a session ends in a reboot exactly if its last message asks for one |
| `EngineLoop.ExitCodeOfRun` | engine/engine/src/engine_loop.cpp:54-106 | the exit code is 1 after a failed create, else that of the last exit message of the last session, or 0 after a window close |
| `EngineLoop.LiveOnce` | engine/engine/src/engine_loop.cpp:83-91 | an engine object, updated until an update is not OK and then asked for its result, lives such a life |
| `EngineLoop.EndedIsWhole` | engine/engine/src/engine_loop.cpp:83-91 | a life of an engine object that has ended is a whole life |
| `EngineLoop.LivesRunEngines` | engine/engine/src/engine_loop.cpp:66-99 | whole lives, one for each engine, make up callbacks to which all laws of loops over engines apply |
| `ImportLines.ImportInIff` | engine/ddf/src/waf_ddf.py:65-68 | a left-to-right matcher without backtracking accepts exactly the lines the regular expression matches, with the only name it can match |
| `ImportLines.ScanFileImport` | engine/ddf/src/waf_ddf.py:61-69 | the set returned holds exactly the names imported by some line |
| `ImportScan.Scanner.ScanFile` | engine/ddf/src/waf_ddf.py:71-80 | resolves in search order, lists newly scanned files once each, all reached from the first, with no edge leaving them except into the scanned set |
| `ImportScan.Scanner.ScanNode` | engine/ddf/src/waf_ddf.py:82-87 | the same for all imports of a file, for every order of the import set; terminates on cyclic graphs |
| `ImportScan.ScanInput` | engine/ddf/src/waf_ddf.py:71-87 | the result lists, without duplicates, exactly the files reached by one or more import edges |
| `ImportScan.DoScan` | engine/ddf/src/waf_ddf.py:89-101 | from the text of the files: one block per scanned input, in order: the input, then exactly what it reaches by import lines |
| `ImportScan.ProtosAre` | engine/ddf/src/waf_ddf.py:93-94 | the inputs scanned are exactly those that end in .proto, each once, in their order |
| `ImportScan.SearchOrder` | engine/ddf/src/waf_ddf.py:71-98 | an import is the file found by the first include directory that exists and finds any, and only then by the directory of the input |
| `ImportScan.BlockRepeatsInputIffOnCycle` | engine/ddf/src/waf_ddf.py:94-101 | an input is listed twice exactly if it lies on an import cycle |
| `NameCase.ToCamelCase` | engine/ddf/src/ddfc.py:154-163 | the word loop computes the camel-case function used by all name laws |
| `NameCase.ToLowerCase` | engine/ddf/src/ddfc.py:165-175 | the character loop computes the script-name function used by all name laws |
| `NameCase.SplitJoins` | engine/ddf/src/ddfc.py:159-159 | splitting at underscores and joining again is the identity |
| `NameCase.RoundTripIff` | engine/ddf/src/ddfc.py:154-175 | for every name of letters, digits and underscores, to_lower_case undoes to_camel_case if and only if each two neighbouring words are separable |
| `NameCase.OrdinaryRoundTrip` | engine/ddf/src/ddfc.py:154-175 | the round trip holds for underscore-joined words of at least two characters starting with a letter |
| `NameCase.CamelInjective` | engine/ddf/src/ddfc.py:154-163 | no two separable names get the same member name |
| `NameCase.DocstringIff` | engine/ddf/src/ddfc.py:165-175 | to_lower_case does what its docstring shows if and only if every capital directly behind a digit has a lower-case letter behind it |
| `NameCase.DocstringExample` | engine/ddf/src/ddfc.py:166-169 | on the docstring's own input the code gives abc_abc01_abc_abc, not abc_abc01abc_abc |
| `CxxNames.ReplaceJoinIff` | engine/ddf/src/ddfc.py:322-322 | joining with one separator and replacing it gives the other joining exactly if no name contains the first |
| `CxxNames.OwnerTextIff` | engine/ddf/src/ddfc.py:364-364 | the type named for offsetof is the qualified message name exactly if package and enclosing messages have no underscore |
| `CxxNames.ReferenceIff` | engine/ddf/src/ddfc.py:352-356 | a field's reference is the symbol defined for its message type exactly if no name on the path has a dot |
| `CxxText.ParseRenderAll` | engine/ddf/src/ddfc.py:121-152 | reading printed blocks back gives the same blocks in front of whatever follows: braces balance and nothing is lost |
| `CxxLayout.AddSlot` | engine/ddf/src/ddfc.py:219-270 | printing one more field, outside or inside an open union, extends the layout by runs as specified |
| `CxxLayout.PathResolves` | engine/ddf/src/ddfc.py:182-275 | in an unambiguous layout the path to a field leads to that field and to nothing else |
| `CxxLayout.PathsDiffer` | engine/ddf/src/ddfc.py:333-372 | different fields have different paths |
| `CxxLayout.ResolvesIffUnambiguous` | engine/ddf/src/ddfc.py:182-275 | all paths lead to their own fields if and only if the layout is unambiguous |
| `CxxLayout.UnambiguousIsLegal` | engine/ddf/src/ddfc.py:182-275 | in an unambiguous layout no name is declared twice in the struct or in a union |
| `CxxLayout.LegalIsUnambiguous` | engine/ddf/src/ddfc.py:182-275 | and conversely a layout without double declarations is unambiguous |
| `CxxLayout.UnionIsOneof` | engine/ddf/src/ddfc.py:217-270 | in an unambiguous layout each union holds the fields of its oneof, all of them, in order, and no others |
| `DdfStruct.PrettyPrinter.Begin` | engine/ddf/src/ddfc.py:126-130 | header line and brace at the old indentation, indentation four deeper |
| `DdfStruct.PrettyPrinter.P` | engine/ddf/src/ddfc.py:138-140 | one line at the present indentation |
| `DdfStruct.PrettyPrinter.End` | engine/ddf/src/ddfc.py:142-146 | closing line at the indentation of its header, then a blank line |
| `DdfStruct.Column` | engine/ddf/src/ddfc.py:182-201 | the type column is at least as wide as every type printed in it |
| `DdfStruct.ToCxxEnum` | engine/ddf/src/ddfc.py:277-288 | prints the enum as a block, indentation restored |
| `DdfStruct.PrintField` | engine/ddf/src/ddfc.py:239-267 | prints a field as a line or as an anonymous struct of pointer, accessors and count |
| `DdfStruct.SwitchScope` | engine/ddf/src/ddfc.py:224-237 | leaves the union of another oneof and enters the field's own, keeping what has been printed in step with the layout |
| `DdfStruct.PrintFields` | engine/ddf/src/ddfc.py:217-270 | the loop with its scope variable prints the layout by runs, indentation restored |
| `DdfStruct.ToCxxStruct` | engine/ddf/src/ddfc.py:182-275 | for every message tree the lines printed are those of its struct, nested ones first, indentation restored |
| `DdfDescriptor.StructReadsBack` | engine/ddf/src/ddfc.py:121-275 | the lines printed for any message tree, read back, are exactly its struct: every brace is matched |
| `DdfDescriptor.FieldEntries` | engine/ddf/src/ddfc.py:333-372 | the descriptor loop with its own scope variable gives every field, in order, the entry and the path the struct layout calls for |
| `DdfDescriptor.ToCxxDescriptor` | engine/ddf/src/ddfc.py:321-372 | descriptors of a message tree, inner messages first, each in its own namespace |
| `DdfDescriptor.DescriptorHasMessage` | engine/ddf/src/ddfc.py:321-326 | every descriptor printed describes a message of the tree at some path |
| `DdfDescriptor.MessageHasDescriptor` | engine/ddf/src/ddfc.py:321-326 | every message of the tree at any depth has its descriptor |
| `DdfDescriptor.MessageStructNamed` | engine/ddf/src/ddfc.py:206-215 | the path of a message names the struct printed for it and no other definition |
| `DdfDescriptor.EntriesLeadIff` | engine/ddf/src/ddfc.py:333-372 | the paths of a descriptor lead, in the printed struct, each to its own field and nothing else, if and only if no member name is used twice |
| `DdfDescriptor.DescriptorAgrees` | engine/ddf/src/ddfc.py:321-372 | in a well-named file every descriptor names the struct printed for one message and its paths lead to that message's fields, each once, in order |
| `DdfDescriptor.EntryRefersToType` | engine/ddf/src/ddfc.py:352-356 | where no name has a dot, the entry of a message field refers to the variable of the very message its type names, and a descriptor of the file defines that variable |
| `DdfDescriptor.OtherEntriesReferToNone` | engine/ddf/src/ddfc.py:352-358 | the entries of all other fields, and only those, refer to none |
| `DdfDescriptor.OneOfIndices` | engine/ddf/src/ddfc.py:336-343 | two entries have the same non-zero oneof index exactly if their fields share a oneof, and the index is 0 exactly outside oneofs |
| `DdfDescriptor.OneDescriptorEach` | engine/ddf/src/ddfc.py:321-326 | there is one descriptor for each message of the tree, that of the outermost one last |
| `DdfReading.FieldReads` | engine/ddf/src/ddfc.py:182-267 | whatever is printed for a field reads as what the field is: a value or an array, of its C++ type, aligned or not, with the access its kind allows (a type name does not itself start with the alignment attribute) |
| `DdfReading.EntryReads` | engine/ddf/src/ddfc.py:333-372 | where the entries lead to the fields, the path of each leads to a member that reads as the field does |
| `DdfReading.ElementIsMessage` | engine/ddf/src/ddfc.py:242-243 | the elements of a repeated message field have the qualified C++ name of the message exactly if no name on its path has a dot |
| `DdfReading.NamesAligned` | engine/ddf/src/ddfc.py:182-204 | the names of all one-line fields start in one column, one place behind the longest type |
| `DdfReading.EnumReads` | engine/ddf/src/ddfc.py:277-288 | an enum reads as its values with their numbers, in their order, the numbers in one column right behind the longest name |
| `DdfReading.StructIndented` | engine/ddf/src/ddfc.py:121-152 | every line of the struct of any message tree is indented by four for each brace open around it, and braces are balanced |
| `DdfDescriptor.HashFieldBreaks` | engine/ddf/src/ddfc.py:272-275 | a field named d_d_f_hash makes the paths of its message fail |
| `DdfDescriptor.TakenNameBreaks` | engine/ddf/src/ddfc.py:272-275 | so does any field whose member name is that of a static member |
| `DdfSymbols.SymbolsEqualIff` | engine/ddf/src/ddfc.py:322-323 | two messages get the same descriptor variable if and only if their qualified names, split at underscores, give the same words |
| `DdfSymbols.SymbolsDifferIff` | engine/ddf/src/ddfc.py:385-385 | the variables of a file all differ if and only if no two message paths come to the same words |
| `DdfSymbols.PlainNamesDiffer` | engine/ddf/src/ddfc.py:385-385 | they do if no message has an underscore in its name |
| `DdfSymbols.SymbolOfDescriptor` | engine/ddf/src/ddfc.py:385-385 | the variable of a descriptor is that of its message's path |
| `DdfSymbols.PathDeterminesMessage` | engine/ddf/src/ddfc.py:321-326 | in a well-named file a path belongs to one message only |
| `DdfSymbols.WellNamedButColliding` | engine/ddf/src/ddfc.py:385-385 | message B in message A beside a message A_B: the file is well-named, yet two messages get the same variable |
| `CacheNames.HexRoundTrip` | build_tools/http_cache.py:74-74 | decoding the hexadecimal ETag gives the ETag back |
| `CacheNames.MangleParts` | build_tools/http_cache.py:19-22 | the path /a/b/c becomes the one file name defold-a-b-c |
| `CacheNames.MangleSameIff` | build_tools/http_cache.py:19-22 | two paths share a stem exactly if they differ in nothing but slashes against dashes |
| `CacheNames.FinalNameParts` | build_tools/http_cache.py:50-53 | taking a finished file name apart gives back stem and ETag, and it is never taken for a temporary one |
| `CacheNames.TmpNameParts` | build_tools/http_cache.py:89-89 | a temporary name has the stem of its URL and is recognized as temporary |
| `CacheNames.MatchesIff` | build_tools/http_cache.py:39-42 | the glob of a URL matches exactly the files of stems that continue its own stem at a dash |
| `CacheNames.MatchesOwnFilesOnly` | build_tools/http_cache.py:39-42 | with prefix-free stems it matches its own files and no others |
| `CacheNames.NestedPathsCollide` | build_tools/http_cache.py:19-42 | a URL matches the files of a URL below it |
| `CacheNames.SlashesAndDashesCollide` | build_tools/http_cache.py:19-22 | mangling forgets which dashes were slashes |
| `CacheDir.RoomIsMade` | build_tools/http_cache.py:55-62 | after eviction the new file fits or nothing is left |
| `CacheDir.EvictsOldest` | build_tools/http_cache.py:55-62 | no evicted file is newer than a kept one |
| `CacheDir.AllFitsAllStays` | build_tools/http_cache.py:55-62 | if all files and the new one fit, all stay |
| `CacheDir.NewEnoughStays` | build_tools/http_cache.py:55-62 | a file stays if it, the files at least as new and the new one fit together |
| `HttpCache.Cache.Get` | build_tools/http_cache.py:39-53 | a hit is a finished file of the URL with its ETag and is only touched; a temporary file is removed and reported as a miss, or raises if it cannot be removed; other files stay |
| `HttpCache.Cache.Accommodate` | build_tools/http_cache.py:55-62 | keeps exactly the longest newest-first prefix of files that leaves room for the new size, or raises if a file that has to go cannot be removed |
| `HttpCache.Cache.Put` | build_tools/http_cache.py:64-74 | removes every file of the URL that can be removed, keeps of all others exactly the longest newest-first prefix that leaves room, and names the new file |
| `HttpCache.Cache.Store` | build_tools/http_cache.py:85-104 | a returned response lies under its final name with exactly the body, as of now, beside exactly the longest newest-first prefix of the other files that leaves room for it; if all files are removable, a response that completes is returned and one that does not leaves its temporary file, with a prefix of the body, and no other file of the URL |
| `HttpCache.Cache.Download` | build_tools/http_cache.py:76-111 | for every server and every set of files that cannot be removed: the response is to the ETag found, the result and the directory answer it (down to which files stay), and after every single file operation only old entries or the new full one are held, an entry of another URL is gone only if the files at least as new and the new one were too much, and there is one file per URL if there was and the files of the URL are removable |
| `HttpCache.AloneIffReplaceable` | build_tools/http_cache.py:64-103 | a stored file is alone for its URL if and only if the old one could be removed or has the same name |
| `HttpCache.TmpSafe` | build_tools/http_cache.py:89-102 | a temporary file adds no entry, whatever is in it |
| `HttpCache.RenameSafe` | build_tools/http_cache.py:103-103 | the rename adds exactly the entry it was written for |
| `HttpCache.GetKeepsEntries` | build_tools/http_cache.py:39-53 | get loses no entry, a hit is an entry of its URL, and with one file per URL it is found whenever it is there |
| `HttpRuns.DownloadThenGet` | build_tools/http_cache.py:39-111 | get after a finished download returns exactly the stored path, ETag and body |
| `HttpRuns.OrdinaryDownload` | build_tools/http_cache.py:76-111 | a response of honest, positive length with an unbroken body is stored under the stem, a dash and the ETag in hexadecimal digits, with the body, as of now |
| `HttpRuns.OthersAreNewest` | build_tools/http_cache.py:64-74 | when a response is stored, the files of other URLs that stay are exactly the longest newest-first prefix of them that leaves room for the announced length |
| `HttpRuns.OthersStayIfAllFit` | build_tools/http_cache.py:55-74 | in particular, if all of them and the new file fit, every entry of another URL is still held |
| `HttpRuns.UsedStays` | build_tools/http_cache.py:51-74 | least recently used goes first: an entry that get returned, at a time later than that of every file, survives the next stored response of another URL if the two fit together, whatever else has to go |
| `HttpRuns.ZeroLengthRaises` | build_tools/http_cache.py:86-102 | a body without an announced length raises and leaves an empty temporary file |
| `HttpRuns.RunDownloads` | build_tools/http_cache.py:76-111 | any number of downloads, each stopped before or after any file operation, for all servers and all files that cannot be removed: every finished file is a fully delivered body under its ETag; with nothing unremovable at most one file per URL; with honest lengths no more bytes than the limit or the largest length announced; and the directories form a history to which the next row applies |
| `HttpRuns.EntryGoesOnlyIf` | build_tools/http_cache.py:55-111 | in every history an entry that was held and is not any more went with a full response for its own URL, or with one whose announced length, with the files at least as new as the entry, was more than the cache may hold |
| `HttpRuns.RunThenGet` | build_tools/http_cache.py:39-111 | after any such run a hit is an ETag with its full body as some request of the same mangled path was sent them, and a request for that very URL if no other shares its path |
| `HttpRuns.RunThenDownload` | build_tools/http_cache.py:76-111 | after any such run, with a server whose ETags determine bodies and that answers 304 only to the current ETag, a path that download returns holds the current body |
| `HttpRuns.SharedStemSharesEntry` | build_tools/http_cache.py:19-53 | what was downloaded for one URL is a hit for every other URL of the same mangled path |
| `ThreadPool.StepKeepsInv` | scripts/build.py:190-229 | every step of every thread keeps the invariant that places each task in the queue, with one worker, or in the log |
| `ThreadPool.ReachableInv` | scripts/build.py:190-229 | every state of every interleaving satisfies it |
| `ThreadPool.RunTold` | scripts/build.py:190-229 | in every interleaving, told from the steps alone: the tasks are those submitted, unchanged and in their order; the queue is first in, first out; the list of uploads holds those since it was cleared last; the log holds what the functions did |
| `ThreadPool.ExactlyOneWorkerPerTask` | scripts/build.py:201-210 | in every interleaving a submission is executed at most once, every execution is of a submitted function on the arguments submitted with it, and no two workers hold one task |
| `ThreadPool.SetEventMeansOwnResult` | scripts/build.py:201-229 | once the event of the future that a submitting step returned is set, the future holds what the one call of the function submitted there, on the arguments submitted there, ended with |
| `ThreadPool.ListClearedOnlyWhenComplete` | scripts/build.py:2044-2047 | the list of uploads is cleared only when every future in it has completed without an exception |
| `ThreadPool.RaisesFirstFailure` | scripts/build.py:2044-2047 | wait_uploads raises at the first future of the list that holds an exception; all before it have completed without one |
| `ThreadPool.StopsForGood` | scripts/build.py:218-229 | after an exception or interrupt inside wait_uploads the main thread neither submits nor waits any more |
| `ThreadPool.MainWaitsForEvent` | scripts/build.py:2044-2047 | inside wait_uploads the main thread waits for nothing but the event of one future of the list |
| `ThreadPool.WorkersTerminate` | scripts/build.py:201-210 | in every run at most four worker steps per task, less two per fatal execution, and exactly that many if and only if every task has completed or was lost |
| `ThreadPool.AtRestIffSettled` | scripts/build.py:201-210 | while some worker lives, no worker step is enabled if and only if every task has completed or was lost with its thread |
| `ThreadPool.NoDeadlock` | scripts/build.py:201-210 | while a task is neither completed nor lost and a worker lives, some worker step is enabled |
| `Multipart.ChunkCount` | scripts/build.py:2003-2003 | the part count is the one number of chunks that covers the file with only the last one short |
| `Multipart.PlanParts` | scripts/build.py:2001-2021 | parts numbered 1..n tile the file, sizes 1 to 64 MiB, only the last one short |
| `Multipart.PartsAssemble` | scripts/build.py:2005-2016 | parts stored under their numbers concatenate to the file |
| `Multipart.CompleteOrCancel` | scripts/build.py:2027-2032 | completes if and only if every part is stored, and then with the file |
| `Multipart.UploadMultipart` | scripts/build.py:1993-2032 | for every order and every failure pattern of the part threads, the object appears if and only if no part fails, and then it is the file |
| `Uploads.RunJob` | scripts/build.py:1993-2039 | an upload task returns a value in any case, and the bucket holds the file if and only if no part failed |
| `Uploads.ClearedIffStored` | scripts/build.py:2044-2047 | whenever wait_uploads goes through, every future has completed without an exception, and all files are stored if and only if no part of any upload failed |
| `Uploads.SetMeansCompleted` | scripts/build.py:201-229 | a set event of an upload means it completed without an exception, whatever became of its parts |
| `Uploads.CancelledCompletes` | scripts/build.py:2027-2032 | an upload whose only part fails completes and stores nothing |
| `TrigLookup.Generate` | engine/dlib/scripts/gen_trig_lookup.py:29-38 | table size times cell width is 65536 for every number of bits |
| `TrigLookup.CosErrorLipschitz` | engine/dlib/scripts/trig_lookup_template.h:41-54 | for every angle and size and every 1-Lipschitz periodic function the error is at most pi/size + pi/32768 |
| `TrigLookup.CosErrorSmooth` | engine/dlib/scripts/trig_lookup_template.h:41-54 | for functions that stay near their tangents the first term is the squared step over eight |
| `TrigLookup.DocumentedPrecisionLipschitz` | engine/dlib/scripts/trig_lookup_template.h:26-26 | error below 0.001 for tables of 12 to 16 bits from the Lipschitz property alone |
| `TrigLookup.DocumentedPrecision` | engine/dlib/scripts/trig_lookup_template.h:26-26 | error below 0.001 for tables of 7 to 16 bits |
| `TrigLookup.SinInherits` | engine/dlib/scripts/trig_lookup_template.h:62-65 | sine has the same precision |
| `TrigPrecision.FewBitsAreNotEnough` | engine/dlib/scripts/gen_trig_lookup.py:29-38 | for tables of zero to six bits there is an angle at which the lookup of cosine is off by 0.001 or more |
| `TrigPrecision.PreciseIffSevenBits` | engine/dlib/scripts/trig_lookup_template.h:26-54 | the documented precision holds at every angle if and only if the table has at least seven bits |
| `TrigPrecision.SinePreciseIffSevenBits` | engine/dlib/scripts/trig_lookup_template.h:26-65 | the same for sine |
| `CrashText.AppendLines` | engine/crash/src/backtrace_execinfo.cpp:62-79 | stays inside the buffer, stores the longest prefix of lines that fits, leaves the rest and the last byte alone |
| `CrashText.LongestFittingIsLongest` | engine/crash/src/backtrace_execinfo.cpp:67-78 | a prefix of lines fits exactly if it is no longer than the stored one |
| `CrashText.LogCallstack` | engine/crash/src/crash.cpp:320-346 | terminates, logs the lines of the text seen by C, and only sets the line ends it used to zero |
| `CrashText.LoggedText` | engine/crash/src/crash.cpp:326-342 | reading undoes writing: lines come back as they were, in front of whatever follows |
| `CrashText.LoggedReturns` | engine/crash/src/crash.cpp:326-342 | behind the last line break, carriage returns end lines as well |
| `CrashText.ReportLogs` | engine/crash/src/backtrace_execinfo.cpp:62-91 | a report logs exactly its lines if and only if the buffer behind them was zero |
| `CrashText.Report` | engine/crash/src/backtrace_execinfo.cpp:62-91 | what one report stores, dumps and logs, into any buffer |
| `CrashText.SecondReportIff` | engine/crash/src/backtrace_execinfo.cpp:62-91 | a second report logs exactly its own lines if and only if it is as long as the first or ends where a line of the first ended |
| `CrashText.ReportTwice` | engine/crash/src/backtrace_execinfo.cpp:62-91 | two reports run one after the other on a zeroed buffer: the first logs exactly the lines it stored, the second under the same condition |
| `CrashText.SecondReportExample` | engine/crash/src/backtrace_execinfo.cpp:62-91 | a shorter second report logs text of the first |
| `LoadAddrs.Scan` | engine/crash/src/load_addrs_proc_smap.cpp:40-65 | the one-pass scan finds the first dash, the next space and the last slash behind it, and zeroes line breaks |
| `LoadAddrs.SeenAll` | engine/crash/src/load_addrs_proc_smap.cpp:40-65 | the knowledge of the scan at the end of a line is the declarative decomposition |
| `LoadAddrs.Extract` | engine/crash/src/load_addrs_proc_smap.cpp:88-90 | the number in front of the dash, and the name cut to 63 characters |
| `LoadAddrs.StrToULL` | engine/crash/src/load_addrs_proc_smap.cpp:89-89 | computes the number that blanks, sign, 0x and digits stand for (what that is, `LoadListing.NumberReads` says) |
| `LoadAddrs.LinesJoin` | engine/crash/src/load_addrs_proc_smap.cpp:34-40 | the pieces that fgets reads lose nothing of a listing without zeros |
| `LoadAddrs.SetLoadAddrs` | engine/crash/src/load_addrs_proc_smap.cpp:33-93 | for every listing, read in pieces of at most 1023 characters, the table holds the executable file mappings in order, the first 128 of them, and other places are untouched |
| `LoadAddrs.ModuleHasLine` | engine/crash/src/load_addrs_proc_smap.cpp:67-92 | every module comes from an executable mapping of the listing |
| `LoadAddrs.LineHasModule` | engine/crash/src/load_addrs_proc_smap.cpp:67-92 | every executable mapping gives a module |
| `LoadAddrs.ModulesSorted` | engine/crash/src/load_addrs_proc_smap.cpp:33-93 | a listing with increasing addresses gives a sorted table |
| `LoadAddrs.Lookup` | engine/crash/src/backtrace_libunwind.cpp:108-125 | finds the last used place whose address is not above pc |
| `LoadAddrs.LookupFindsGreatest` | engine/crash/src/backtrace_libunwind.cpp:108-125 | for an ordered listing that is the module with the greatest base not above pc, and none exactly if there is none |
| `LoadListing.NumberReads` | engine/crash/src/load_addrs_proc_smap.cpp:89-89 | round trip with a printer: every number in hexadecimal digits of either case, behind blanks, a sign, 0x and zeros, is read as that number, negated modulo 2^64 for a minus, the largest number if it is too large |
| `LoadListing.AddressReads` | engine/crash/src/load_addrs_proc_smap.cpp:88-89 | a line that starts with a number in lower-case hexadecimal digits, zero-padded or not, and a dash has that number as its start address |
| `LoadListing.MappingGives` | engine/crash/src/load_addrs_proc_smap.cpp:40-92 | a printed file mapping gives exactly its start address and the last part of its path, cut to 63 characters, if x is among its permissions, and nothing otherwise |
| `LoadListing.ListingGives` | engine/crash/src/load_addrs_proc_smap.cpp:33-93 | a printed listing gives exactly its executable file mappings, in their order |
| `LoadListing.LoadRows` | engine/crash/src/load_addrs_proc_smap.cpp:23-96 | read into a free table, a printed listing with increasing addresses leaves exactly them there |
| `LoadListing.Attribute` | engine/crash/src/backtrace_libunwind.cpp:108-125 | after that a program counter is attributed to the executable mapping with the greatest printed start address not above it, or to none exactly if there is none |
| `CrashDump.DumpRoundTrip` | engine/crash/src/crash.cpp:122-151 | a dump is loadable and holds the state that was saved |
| `CrashDump.CompleteIff` | engine/crash/src/crash.cpp:122-151 | a file of any version, size and rest is loaded exactly if these are version 2 and size 51144 and that much is there, and then it is the first 51144 bytes of the rest |
| `CrashDump.HasHeader` | engine/crash/src/crash.cpp:122-129 | every file of at least eight bytes is of that form |
| `CrashDump.PrefixRejected` | engine/crash/src/crash.cpp:122-151 | a prefix of a dump is loadable only if it is the whole dump |
| `CrashDump.Crash.WriteCrash` | engine/crash/src/file_posix.cpp:27-64 | for every way a write can go: file untouched, whole dump, removed, or a prefix left behind |
| `CrashDump.Crash.LoadFile` | engine/crash/src/crash.cpp:122-151 | a handle exactly for a matching header with a complete body, and what the global state then is in each case |
| `CrashDump.Crash.LoadPrevious` | engine/crash/src/crash.cpp:153-176 | the default place first, then the configured one |
| `CrashDump.Crash.UseHandle` | engine/crash/src/crash.cpp:178-199 | a handle shows the loaded state, unless that has no engine version, until it is released, and nothing after that |
| `CrashDump.Crash.Purge` | engine/crash/src/crash.cpp:257-263 | removes both files and nothing else |
| `CrashDump.LoadAfterWrite` | engine/crash/src/file_posix.cpp:27-64 | after a write into a file that opens, exactly the new state can be loaded or nothing: never an older one, never a part |
| `CrashDump.LoadPreviousIff` | engine/crash/src/crash.cpp:166-176 | a state just saved is the one loaded if and only if it was saved to the default place or no other dump lies there |
| `CrashDump.MaskedDumpLost` | engine/crash/src/crash.cpp:257-263 | otherwise loading and purging loses it |
| `CrashDump.DeliveredAtMostOnce` | engine/crash/src/crash.cpp:122-176 | over every history of saves (failed and interrupted ones included), path changes, loads, purges and restarts, each state delivered is that of a save event which WriteCrash completed, no event twice |
| `CrashDump.LoadsOnlySaved` | engine/crash/src/crash.cpp:122-176 | what any load finds at any moment of any history is the state of a save event that was completed |
| `CrashDump.Replay` | engine/crash/src/crash.cpp:122-263 | acting a history out with the operations does what the histories say |

## Left out

- The rest of engine.cpp: start-up, shutdown, rendering, input and physics call into libraries that are not modelled; a frame is an arbitrary sequence of events.
- Floating-point rounding in `CalcTimeStep` and `Cos`, and `1.0f / dt` for a zero step: times, angles and table values are exact reals.
- Freeing of replaced command-line arguments: memory management has no counterpart in the model.
- The iOS and Emscripten loops: control flow is owned by foreign code.
- NameCase.RoundTripIff: names are ASCII; Python's case mapping of other letters is not modelled.
- Java output, hashes, default values, alignment and alias options of ddfc.py, and the numbers, types and labels it copies into descriptors: formatting over library descriptors. Whether a field or struct is aligned, and the C++ name of a field's type, are given with the message.
- DdfStruct.ToCxxStruct: messages with a repeated enum field are excluded, because the generator has no element type for them and stops with an exception; lines are structured values (type, padding, name) instead of characters.
- DdfDescriptor.DescriptorAgrees: an outer namespace given by the file option is not modelled; struct and descriptor both lie in it.
- HttpCache.Cache.Download: URL parsing, glob metacharacters in paths, request header text (the ETag is formatted there as a bytes value), progress callbacks and other processes using the same directory are not modelled; reading times of files are given.
- Multipart.ChunkCount: the float division is taken as exact, which it is below 2^53 bytes.
- CrashText.Report: an installed extra-info callback, which may write anything behind the lines, is not modelled.
- LoadListing.ListingGives: printed rows are shorter than the buffer of 1024 characters; longer lines are covered by `LoadAddrs.SetLoadAddrs` only.
- CrashDump.Crash.Purge: the platform-specific purge hook is not modelled.
- Handles that no load returned: after a rejected partial dump the global state holds partial data, as `CrashDump.Crash.LoadFile` states, and nothing is claimed about using it.
- `_get_config` of scripts/build.py, and all S3, CI, SDK, bundling and release plumbing: input and output of other tools.
- script_doc.py, apply_license.py and waf_content.py: behaviour of regular-expression and markdown libraries, with no strong property to state.
