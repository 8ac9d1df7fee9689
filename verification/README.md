# SalernOS: verified models of its algorithms and protocols

SalernOS is an operating system distribution: a build script, a C library port, an init program, utilities,
tests and patches. This project models the parts of it that hold real algorithms and protocols, in Dafny, and
proves what they are for. Run `dafny verify dfyconfig.toml`.

| Part | Files | In one sentence |
|---|---|---|
| BLAKE2b checksum (`jinx`) | `Blake2Words`, `Rfc7693`, `Rfc7693Example`, `Blake2Rounds`, `Blake2Model`, `Blake2b` | The embedded hash program computes the hash of RFC 7693 for every input; the exact condition under which one more update is right |
| Dependency lists and builds (`jinx`) | `Recipes`, `DepWalk`, `PkgGraph`, `PkgRuns`, `PkgBuild`, `PkgContainer` | The recursive walk over a shared marker file lists exactly the reachable packages; exactly when building comes to an end; the stores stay closed under what packages need; a prepared container finds all it lists |
| `rand_r` | `Words`, `RandR` | Full period of the seed, and every return value exactly twice in 2^32 calls |
| `wcrtomb` | `Utf8` | A UTF-8 encoder with the decoder of RFC 3629 as its inverse, in both directions, keeping order |
| `qsort_r`, `bsearch`, profiler tables | `Qsort`, `Bsearch`, `KProfile` | Sorting blocks of bytes in place, searching them, and what the printed tables promise |
| Init configuration | `InitText` (text and grammar), `InitLines`, `InitPrinter`, `InitParse` | Parsing into pieces of the text, with every allocation accounted for; exactly which texts keep directives apart; parsing undoes printing, and printing what was parsed changes no argument |
| Init interpreter | `InitInterp` (tables and interpreter), `InitBarrier` | What each child starts with, and that no child starts before all directives succeeded |
| Signal hand-off test | `SignalHandoff` | N threads, N handlers, one spin lock: safety, and that every run can finish |
| `pselect` | `Pselect` | Select on top of poll |
| Device numbers | `DevNumber` | Packing two words into one loses nothing |
| `RANDOM` of the shell | `ModPower`, `PrimitiveRoot`, `IntRand` | The patched step is multiplication by 16807 modulo 2^31 - 1, and runs through all 2^31 - 2 states |
| Shared | `Arithmetic`, `Bytes`, `Counting`, `Options` | |

Code that changes state in place is modelled by classes, arrays and loops; each such method is tied by its
postconditions to a function or predicate on values, and the theorems are about those. Concurrent code
(`SignalHandoff`, `InitBarrier`) is a step function whose runs are all sequences of atomic steps.

## Where the code does something unexpected

The model does what the code does.

- `blake2b_update` moves on by `fill` bytes for each 128-byte block it compresses in its loop (jinx:1503-1509). An
  update is what the standard asks for exactly when the buffer was empty or the input is at most one block more
  than fills it (`UpdateCorrectExactly`); with a full buffer and more than a block of input it does not end
  (`LoopEndsExactly`), which `UpdateEnds` excludes. The program's only call has an empty buffer, so its hash is
  right for every input (`Blake2bSum`).
- A quoted argument may run over a newline (init/src/parse.c:33) but the next directive is still looked for on the
  next line. `QuotesOverLinesOverlap` gives a text whose directives overlap. A text can be read and its directives
  lie one behind the other if and only if no line, read by itself, ends inside quotes (`ApartExactly`). All other
  statements about parsing hold without that condition.
- `table_lookup` compares only as many characters as the text has (init/src/table.c:12), so it finds the first entry
  of the right type whose name starts with the text, the empty text included (`TableLookup`, `EvalWithValues`).
- Directives are looked up the same way, so `e` and `en` and even an empty word set a variable
  (`DirectivesByPrefix`).
- Nothing checks that at most 20 children are started (init/src/interpreter.c:30,237). It is a precondition that there
  is room for the children started before a directive fails, if one does: `ChildrenFit`.
- The build script calls itself for ever when a package that it would have to build needs itself, directly or through
  others that are not there. With all recipes there it comes to an end exactly when there is no such package
  (`EndsExactly`); `CycleNeverEnds` is an example, and `BesideTheCycle` a build that the same cycle does not touch.
- The number `sys_pselect` passes on counts descriptors with an answer, not members of the resulting sets. It may
  be larger than the number of descriptors reported, exactly when some answer matches nothing that was asked for
  (`CountBoundsReported`).
- `intrand32` returns zero for the seeds 2^31 - 1 and 2^32 - 2, and for no others (`FirstCallInRange`).

## Reading guide

- `SignalHandoff.After`, `InitBarrier.After`: the state after any list of atomic steps; a statement about all
  lists is a statement about all interleavings and all moments.
- `Rfc7693.Hash` is written from sections 2 and 3 of RFC 7693, independently of the program. The lemmas of
  `Blake2Model` hold with any compression function `f` in the place of its F; the program is tied to them with F.
- `Rfc7693Example` follows the trace of appendix A of RFC 7693 to the published digest of "abc", so that no constant,
  rotation, index or byte order of these definitions can be other than the standard's. Its numbers are the
  intermediate vectors, which the verifier recomputes.
- `Utf8.Decode` is written from section 4 of RFC 3629, independently of the encoder.
- `InitGrammar.Directives` is the meaning of a configuration text; `InitInterp.Run` is the meaning of directives.
- In `InitParse` the pair `blocks`/`base` is the set of live memory blocks now and before the call.
- `PrimitiveRoot` is a certificate: long numbers there are intermediate powers that the verifier recomputes.

## Model

| member | source | states |
|---|---|---|
| Blake2b.SigmaRowsRepeat | jinx:1354-1367 | The program's twelve-row message schedule is the standard's ten rows used again from the start |
| Blake2b.MixFirst | jinx:1402-1406 | The first half of a mixing step on four entries of the vector, nothing else changed, is the standard's |
| Blake2b.MixSecond | jinx:1407-1411 | The second half of a mixing step, likewise |
| Blake2b.MixStep | jinx:1402-1411 | A mixing step is the standard's G with the two message words the schedule names |
| Blake2b.RoundStep | jinx:1413-1422 | A round turns the first r rounds of the standard into the first r + 1 |
| Blake2b.AllRounds | jinx:1445-1456 | The unrolled rounds are the standard's twelve |
| Blake2b.LoadBlock | jinx:1428-1430 | The message words are the little-endian words of the block |
| Blake2b.StartVector | jinx:1432-1443 | The working vector starts from the chain value, the IV, the 128-bit counter and the final flag |
| Blake2b.FoldInto | jinx:1458-1460 | Both halves of the vector are folded into the chain value |
| Blake2b.CompressInto | jinx:1424-1461 | The compression is the function F of section 3.2 of RFC 7693 |
| Blake2b.LoadParameters | jinx:1466-1483 | The parameter block in memory gives the initial chain value of an unkeyed 64-byte hash |
| Blake2b.CarryAdds | jinx:1393-1396 | Adding to the low counter word and carrying on wrap-around adds to the 128-bit counter |
| Blake2b.State.constructor | jinx:1466-1483 | The fresh state is the state the standard has for the empty message |
| Blake2b.State.IncrementCounter | jinx:1393-1396 | The counter goes up by the increment modulo 2^128, whatever the carry |
| Blake2b.State.Compress | jinx:1424-1461 | The chain value becomes F of the block, the counter and the final flag |
| Blake2b.State.Update | jinx:1485-1514 | The state after an update, block loop included, is the function Updated of the state before |
| Blake2b.State.Final | jinx:1516-1530 | The digest is that of the zero-padded last block, counted and flagged as last |
| Blake2Words.LoadUndoesStore | jinx:1524-1526 | Storing a word byte by byte and loading it gives it back |
| Blake2Words.StoreUndoesLoad | jinx:1428-1430 | Loading eight bytes as a word and storing it gives them back |
| Blake2Words.BytePositions | jinx:1524-1526 | The byte stored at index k is the one of weight 2^8k, for each of the eight |
| Rfc7693.DigestWords | jinx:1524-1526 | Each eight bytes of the digest, loaded as a word, are a word of the chain value, in order |
| Blake2b.Blake2bSum | jinx:1532-1538 | For every input the program returns the unkeyed 64-byte BLAKE2b hash of RFC 7693 |
| Rfc7693Example.AllRounds | jinx:1445-1456 | On the block of "abc" the twelve rounds run through the working vectors printed in appendix A of RFC 7693 |
| Rfc7693Example.HashOfAbc | jinx:1532-1538 | The hash of "abc" is, byte for byte, the digest printed there |
| Blake2Model.DrainOvercounts | jinx:1503-1509 | The block loop counts 128 bytes where it consumes fill: the total is too large by what the buffer held, once per pass |
| Blake2Model.DrainFollowsChain | jinx:1503-1509 | With a whole block as step the block loop yields the state of the message |
| Blake2Model.UpdateFollowsStandard | jinx:1485-1514 | With an empty buffer, or at most one block beyond filling it, an update leaves the state of the longer message |
| Blake2Model.UpdateBreaksStandard | jinx:1502-1509 | Any other update that ends leaves a state that stands for no such message |
| Blake2Model.UpdateCorrectExactly | jinx:1485-1514 | An update that ends is right if and only if the buffer is empty or the input is at most one block beyond filling it |
| Blake2Model.LoopEndsExactly | jinx:1502-1509 | The block loop ends after finitely many passes if and only if the buffer is not full or the input is at most a block |
| Blake2Model.FinishIsHash | jinx:1516-1530 | Finishing the state of a message gives the hash of the message, for every length |
| Blake2Model.SplitHash | jinx:1485-1530 | Splitting an input between two updates leaves the hash unchanged when the second keeps to the condition |
| Blake2Rounds.MixQuadInvertible | jinx:1402-1411 | A mixing step is undone by inverse rotations and subtractions in reverse order, and undoes them |
| Blake2Rounds.GInvertible | jinx:1402-1411 | The same for the whole working vector |
| Blake2Rounds.RoundsInvertible | jinx:1413-1456 | For a fixed block any number of rounds is a bijection of the 16-word vector, with an explicit inverse |
| Blake2Rounds.RoundsInjective | jinx:1445-1456 | Different working vectors stay different through the twelve rounds |
| DepWalk.MarkNew | jinx:249-255 | A process marks each wanted name not marked yet, once, and will expand exactly those |
| DepWalk.Walk | jinx:288-299 | The walk ends on every graph, cycles included; it marks only reachable names, leaves every new one expanded, and fails only over a missing recipe |
| DepWalk.ClosedHoldsReachable | jinx:288-299 | A set of names with the roots that is closed under dependencies holds everything reachable |
| DepWalk.Collect | jinx:262-286 | From an empty file the walk succeeds if and only if everything reachable has a recipe, and lists exactly the reachable names, each once |
| DepWalk.GetBuilddepsFile | jinx:275-299 | The list for building holds exactly the names at the end of a path that starts in deps or builddeps of the recipe and goes on along deps of recipes, each once |
| DepWalk.GetHostdepsFile | jinx:249-273 | The host list likewise: from hostdeps or hostrundeps, along hostrundeps |
| DepWalk.ReachableIsPulledIn | jinx:275-299 | Being reachable for building is being named by deps or builddeps of the recipe, or by deps of one that is |
| DepWalk.ReachableIsPulledInByHost | jinx:249-273 | The same with hostdeps and hostrundeps, then hostrundeps |
| PkgGraph.NeedsAreFields | jinx:1052-1138 | What has to be there is what the recipe's fields name, as the right kind of package or source, no more and no less |
| PkgBuild.MetByField | jinx:1052-1138 | All needs are there if and only if hostdeps and hostrundeps are there as host packages, deps and builddeps as target packages, from_source as a prepared source, and a target's own source as well |
| PkgGraph.NoLoopIsGrounded | jinx:219-247 | If nothing that would have to be built needs itself, no chain of needs is longer than the recipe book |
| PkgGraph.HeightFalls | jinx:219-247 | There is then a rank that falls along every need, and does not rise as packages are built |
| PkgRuns.BadNeverBuilt | jinx:219-247 | A run that ends well, however deep, builds nothing that leads to a package that needs itself or to a missing recipe |
| PkgRuns.EndsExactly | jinx:219-247 | With all recipes there the recursion comes to an end if and only if no package that would have to be built needs itself, directly or through others |
| PkgRuns.EndsWellExactly | jinx:219-247 | With no step failing it ends well if and only if there is no such package and no recipe that is looked up is missing |
| PkgRuns.CycleNeverEnds | jinx:219-247 | Two recipes that need each other keep the script calling itself at every depth |
| PkgRuns.BesideTheCycle | jinx:219-247 | A package that does not need them is built all the same |
| PkgBuild.InOrderAppends | jinx:219-247 | Two orderly runs of builds one after the other are an orderly run |
| PkgBuild.ProgressChains | jinx:219-247 | Building one need after another keeps the order and the closure of the stores |
| PkgBuild.Build | jinx:1052-1138 | A build, failed or not, leaves the stores closed under needs, builds each package after all it needs, no missing package twice and nothing but what the fields of recipes lead to; whatever the recipe of a new package names, field by field, is there; it ends whenever nothing to be built needs itself, and a build without failure is a run of the recursion |
| PkgBuild.CmdBuild | jinx:1174-1180 | The command leaves the stores closed; it succeeds only if every package named has a recipe, and then all are there with whatever their recipes name |
| PkgBuild.ClosedHoldsAllNeeds | jinx:345-346 | Whatever a stored package needs, directly or through others, is stored |
| PkgBuild.OrderHasNoCycle | jinx:219-247 | Where each package was built after all it needs, no chain of needs among the packages built comes back to its start |
| PkgContainer.ReachableTargetStored | jinx:275-299 | Once the direct needs are built, every target package the walk can reach is in the store and has a recipe |
| PkgContainer.ReachableHostStored | jinx:249-273 | The same for host packages |
| PkgContainer.ListPackages | jinx:339-377 | After the needs of a recipe are built the two walks cannot fail, and every package they list is there to be installed or unpacked |
| RandR.Temper | mlibc-salernos/stdlib.patched.cpp:107-113 | The four assignments compute the tempering map |
| RandR.RandR | mlibc-salernos/stdlib.patched.cpp:115-117 | A call moves the seed one step on and returns the first call's value, within 0 .. 2^31 - 1 |
| RandR.TemperIsBijective | mlibc-salernos/stdlib.patched.cpp:107-113 | Tempering is a bijection of 32-bit words, with an explicit inverse |
| RandR.TemperedLinear | mlibc-salernos/stdlib.patched.cpp:107-113 | Tempering respects exclusive or, so it is fixed by its values at single bits |
| RandR.TemperedBits | mlibc-salernos/stdlib.patched.cpp:107-113 | These are its 32 values at single bits |
| RandR.FirstCalls | mlibc-salernos/stdlib.patched.cpp:107-117 | The first two calls on the seed 1: the seeds left behind and the values returned |
| RandR.PowerSumHalves | mlibc-salernos/stdlib.patched.cpp:116 | As the multiplier is 1 modulo 4, the sum of its first n powers has exactly the factors of two of n |
| RandR.SeedClosedForm | mlibc-salernos/stdlib.patched.cpp:115-117 | The seed after n calls in closed form, modulo 2^32 |
| RandR.SeedReturns | mlibc-salernos/stdlib.patched.cpp:115-117 | The seed comes back after exactly the multiples of 2^32 calls |
| RandR.SeedRepeats | mlibc-salernos/stdlib.patched.cpp:115-117 | Two moments of a run have the same seed if and only if a multiple of 2^32 calls lies between them |
| RandR.Equidistribution | mlibc-salernos/stdlib.patched.cpp:107-117 | From any seed 2^32 consecutive calls return each of 0 .. 2^31 - 1 exactly twice |
| Utf8.Wcrtomb | mlibc-salernos/stdlib.patched.cpp:461-493 | Exactly the scalar values are accepted, encoded at the front of the buffer with the rest untouched; in single-byte mode exactly 256 characters; else EILSEQ and nothing written |
| Utf8.Wctomb | mlibc-salernos/stdlib.patched.cpp:494-498 | The same, except for a missing buffer |
| Utf8.SingleByteModeIsBijective | mlibc-salernos/stdlib.patched.cpp:461-475 | The characters accepted in single-byte mode stand for the 256 bytes one to one |
| Utf8.DecodeEncoded | mlibc-salernos/stdlib.patched.cpp:475-490 | The standard's decoder reads back an encoded character whatever follows it, so no encoding is a prefix of another |
| Utf8.EncodeDecoded | mlibc-salernos/stdlib.patched.cpp:475-490 | Whatever character the decoder accepts is a scalar value in its only encoding |
| Utf8.DecodeEncodeAll | mlibc-salernos/stdlib.patched.cpp:475-490 | Decoding undoes encoding for every sequence of scalar values |
| Utf8.EncodeAllDecode | mlibc-salernos/stdlib.patched.cpp:475-490 | Encoding undoes decoding for every byte sequence the decoder accepts |
| Utf8.RfcExamples | mlibc-salernos/stdlib.patched.cpp:475-490 | The characters of the examples in section 7 of RFC 3629 have the bytes printed there |
| Utf8.EncodingsSplit | mlibc-salernos/stdlib.patched.cpp:475-490 | Encodings of different characters differ at some byte, and there in the order of the characters |
| Utf8.EncodingKeepsOrder | mlibc-salernos/stdlib.patched.cpp:475-490 | Comparing encodings byte by byte compares texts character by character |
| Qsort.SwapBlocks | mlibc-salernos/stdlib.patched.cpp:345-352 | The byte loop trades two blocks and touches no other byte |
| Blocks.TradeExchanges | mlibc-salernos/stdlib.patched.cpp:338-352 | Trading the bytes of two blocks exchanges two elements of the array, for any element size |
| Qsort.ExchangeStep | mlibc-salernos/stdlib.patched.cpp:338-353 | An exchange keeps the part already in place in place and makes block i the least so far |
| Qsort.QsortR | mlibc-salernos/stdlib.patched.cpp:332-355 | Whole elements are permuted and nothing behind them changes; with a total preorder as comparator the result is sorted |
| Bsearch.Bsearch | mlibc-salernos/stdlib.patched.cpp:293-317 | A result is an element that compares equal; on a partitioned array there is a result if and only if there is such an element |
| Bsearch.SortedIsPartitioned | mlibc-salernos/stdlib.patched.cpp:293-317 | A sorted array is partitioned around every key the comparator handles consistently |
| Bsearch.SortThenSearch | mlibc-salernos/stdlib.patched.cpp:293-355 | Sorting and then searching finds a key if and only if the unsorted array held a match |
| KProfile.ComparatorMeaning | util-salernos/src/kprofile.c:13-78 | Each comparator is at most zero exactly when the first row may stand above the second, and its sign turns round with its arguments |
| KProfile.AboveIsTotalPreorder | util-salernos/src/kprofile.c:13-78 | Each of the four row orders is total and transitive, rows without calls included |
| KProfile.RowComparatorOrders | util-salernos/src/kprofile.c:13-78 | Every comparator may be given to the sort |
| KProfile.SortTable | util-salernos/src/kprofile.c:147-152 | The table shows the kernel's rows, each as often as before, in descending order, by ratio with the rows without calls last |
| KProfile.ChooseOrder | util-salernos/src/kprofile.c:179-201 | The last option given decides, ratio is the default, and any unknown option is an error |
| KProfile.RowsPermuted | util-salernos/src/kprofile.c:147-150 | Permuting blocks permutes the rows they hold |
| InitGrammar.FirstArg | init/src/parse.c:30-49 | The first argument of a line is quoted without a quote inside, or a visible word; it lies in the text and the rest is read from behind it |
| InitGrammar.LineArgsOrdered | init/src/parse.c:16-68 | The arguments of a line are in bounds, in order and disjoint |
| InitGrammar.DirectivesShape | init/src/parse.c:75-116 | There is one directive for each line that is not blank, and each has an argument, so interpreting never meets an empty one |
| InitGrammar.Separators | init/src/parse.c:10-49 | Exactly tab, vertical tab, form feed, carriage return and space separate arguments, exactly newline ends a line, and every other character belongs to a word |
| InitLines.ClosedLine | init/src/parse.c:16-68 | A line that, read by itself, does not end inside quotes is read without error and to its end at most |
| InitLines.OpenLine | init/src/parse.c:30-42 | A line that ends inside quotes, if it can be read, has an argument that ends at the first quote behind the line, and its other arguments are read from there |
| InitLines.LinesInOrder | init/src/parse.c:70-121 | When no line ends inside quotes parsing finds no unclosed quote and no directive overlaps an earlier one |
| InitLines.OpenLinesOverlap | init/src/parse.c:70-121 | When some line ends inside quotes and the text can be read, an argument of one directive runs into an argument of a later one |
| InitLines.ApartExactly | init/src/parse.c:70-121 | A text can be read and its directives lie one behind the other if and only if no line, read by itself, ends inside quotes |
| InitGrammar.QuotesOverLinesOverlap | init/src/parse.c:33-35 | Without that condition directives can overlap |
| InitPrinter.ReadPrintedArg | init/src/parse.c:30-49 | A printed argument is read as itself wherever it stands |
| InitPrinter.ReadPrintedLine | init/src/parse.c:16-68 | A printed line is read as its arguments wherever it stands |
| InitPrinter.ReadPrinted | init/src/parse.c:70-121 | Printed directives are read as themselves wherever they stand at the end of a text |
| InitPrinter.PrintThenParse | init/src/parse.c:16-121 | Parsing the printed text of any printable directives gives exactly those directives |
| InitPrinter.ParseThenPrint | init/src/parse.c:16-121 | What was parsed from any text can be printed if and only if no argument holds a newline, and parsing that gives the same arguments again |
| InitPrinter.ReadArgPrintable | init/src/parse.c:30-49 | What was read can be printed if and only if it does not run over a newline |
| InitParse.SkipWhitespace | init/src/parse.c:10-14 | Stops at the first character that is not white space within the line |
| InitParse.ReadArg | init/src/parse.c:27-49 | Reads one argument, or fails exactly because its quote is never closed |
| InitParse.StoreArg | init/src/parse.c:51-62 | Growing the block keeps what was read; if memory runs out nothing read on this line is left |
| InitParse.ParseLine | init/src/parse.c:16-68 | Returns the arguments of the line in one new block, or leaves the heap as it was |
| InitParse.FindLine | init/src/parse.c:76-85 | Finds the end of a line and its first visible character |
| InitParse.FreeAll | init/src/parse.c:93-96 | Frees the block of every directive read and the directives, each once, and nothing else |
| InitParse.StoreLine | init/src/parse.c:87-111 | Adds one directive with a block of its own, or frees everything the parser allocated |
| InitParse.ParseConfig | init/src/parse.c:70-121 | Fails if and only if memory runs out or a quote is not closed, and then leaves the heap as it was; else exactly the directives and one block of arguments each are live, and they are the text's meaning |
| InitTable.StrncmpIsPrefix | init/src/table.c:12 | Comparing as many characters as a text has tests whether it is a prefix |
| InitTable.TableLookup | init/src/table.c:4-21 | Finds the first entry of the right type whose name starts with the text, if there is one |
| InitInterp.EvalWithValues | init/src/interpreter.c:57-108 | Evaluation always ends; strings stand for themselves and are never variables, numbers are always variables, found by prefix |
| InitInterp.DirectivesByPrefix | init/src/interpreter.c:270-303 | The beginnings of env, the empty word included, set a variable, those of tty start a child, and it takes ena or more to reach enable; nothing else is a directive |
| InitInterp.DirectivesByName | init/src/interpreter.c:270-275 | env, tty and enable are the names of the three directives |
| InitInterp.ValuesByName | init/src/interpreter.c:23-38 | $TTY_TEXT_MODE is 1, $TTY_GFX_MODE is 2 and $OPT_CLEAR is 1 |
| InitInterp.StringEntry | init/src/interpreter.c:57-62 | A string found in a table is not looked up in turn |
| InitInterp.EmptyArgIsQuote | init/src/interpreter.c:82 | An empty argument is never taken for a variable: the character looked at is the closing quote |
| InitInterp.Init.CbEnv | init/src/interpreter.c:110-146 | Exactly when there are two arguments that evaluate, gives the variable named by the first the second as its value, and changes nothing else |
| InitInterp.Init.CbTty | init/src/interpreter.c:148-242 | Starts one child with the arguments of the directive and the environment and options of the moment, or changes nothing |
| InitInterp.Init.CbEnable | init/src/interpreter.c:244-268 | Adds an option exactly when its one argument is one |
| InitInterp.Init.InterpretDirective | init/src/interpreter.c:277-303 | Does what the directive means, or fails and changes nothing |
| InitInterp.Init.InterpretConfig | init/src/interpreter.c:305-329 | Runs the directives in order and then signals every child exactly once; on failure stops at a prefix and signals no one |
| InitInterp.ChildrenGetWhatPrecedes | init/src/interpreter.c:110-268 | Each child has the command of its tty directive, the environment made by the env directives before it and the options enabled before it |
| InitInterp.PositionsInOrder | init/src/interpreter.c:237-238 | The children belong to the tty directives, all of them and in their order |
| InitInterp.ChildSees | init/src/interpreter.c:110-146 | A variable has for a child the third word of the last env directive before its tty directive whose second word is that name; without one, what it was for init |
| InitInterp.OrHasBits | init/src/interpreter.c:263 | Adding an option adds exactly its bits |
| InitInterp.ChildHasOption | init/src/interpreter.c:244-268 | A child has an option if and only if an enable directive before its tty directive set it |
| InitBarrier.InvKept | init/src/interpreter.c:305-329 | Every atomic step keeps: children not signalled are held back, children signalled once are let go |
| InitBarrier.EveryRunKeepsBarrier | init/src/interpreter.c:197-329 | In every interleaving a child reaches execv only after all directives succeeded and it was signalled, exactly once; if one failed none does; once init is done each was signalled exactly once |
| InitBarrier.FailureIsFinal | init/src/interpreter.c:315-320 | After a failed directive no continuation starts anyone |
| InitBarrier.SignalledKidStarts | init/src/interpreter.c:40-48 | A signal sent any time after the fork is not lost: the child then needs only its own steps to start |
| InitBarrier.EveryoneCanStart | init/src/interpreter.c:197-329 | Whenever init has not failed and the directives are in order, a continuation of bounded length ends with init done, every child signalled exactly once and every child that was not gone at execv |
| InitBarrier.EveryRunCanSucceed | init/src/interpreter.c:197-329 | The same after any run from the start |
| InitBarrier.InitComesToAnEnd | init/src/interpreter.c:305-329 | Whatever the configuration, init can come to its end from any state, and if the directives are not in order that end is failure |
| SignalHandoff.HandlerFindsSlot | tests/testsigheavy.c:34-48 | Whenever a handler takes the lock some slot waits for its signal |
| SignalHandoff.BalanceKept | tests/testsigheavy.c:34-88 | Every step keeps as many slots waiting for a signal as there are handlers still to serve one |
| SignalHandoff.InvKept | tests/testsigheavy.c:18-92 | Every atomic step of every thread or handler keeps the invariant |
| SignalHandoff.EveryRunIsSafe | tests/testsigheavy.c:18-92 | In every interleaving at most one handler is in the critical section, the balance holds for both signals, no handler ends its scan without a slot and a finished thread has its own signal as flag |
| SignalHandoff.AllServed | tests/testsigheavy.c:34-48 | Once all handlers have finished every flag is its owner's signal and no slot waits |
| SignalHandoff.EveryFinishedRunServesAll | tests/testsigheavy.c:18-92 | The same for every run from the start |
| SignalHandoff.FlagsByNumber | tests/testsigheavy.c:71-92 | In every run a thread that is done was flagged with SIGUSR1 if its number is even and with SIGUSR2 if it is odd |
| SignalHandoff.SignalIsNoted | tests/testsigheavy.c:45 | In every run it is noted that a signal came as soon as one handler has finished |
| SignalHandoff.SomeoneAdvances | tests/testsigheavy.c:18-28 | Short of the end some thread can always take a step that is not spinning |
| SignalHandoff.EveryRunCanFinish | tests/testsigheavy.c:18-92 | From wherever a run is it can end with every thread done, within a bounded number of steps |
| Pselect.BuildRequests | mlibc-salernos/sysdeps/generic/generic.cpp:697-715 | Each request asks for what the sets ask for, and is turned off when that is nothing |
| Pselect.SysPpoll | mlibc-salernos/sysdeps/generic/generic.cpp:717-721 | What poll may answer: events asked for, errors, hang-ups and bad descriptors, nothing for a request turned off, and their number |
| Pselect.CollectResults | mlibc-salernos/sysdeps/generic/generic.cpp:723-743 | Flag by flag: a member stays in the read set exactly with PollIn, PollErr or PollHup, in the write set exactly with PollOut, PollErr or PollHup, in the third exactly with PollPri |
| Pselect.SysPselect | mlibc-salernos/sysdeps/generic/generic.cpp:685-757 | On success each set keeps exactly its members with one of its own flags in the answer, a descriptor in none of the sets answers nothing, and the count is that of descriptors with any answer; on failure the sets are unchanged |
| Pselect.SelectedByFlags | mlibc-salernos/sysdeps/generic/generic.cpp:731-742 | The three results of the second loop with their flags written out |
| Pselect.FlagsOfAnswers | mlibc-salernos/sysdeps/generic/generic.cpp:697-715 | What the requests of the first loop allow as answers: nothing for a descriptor in no set, and each flag only for members of its set |
| Pselect.CountBoundsReported | mlibc-salernos/sysdeps/generic/generic.cpp:727-743 | No more descriptors are reported than counted, and fewer if and only if some answer matches nothing asked for |
| DevNumber.PartsOfMade | mlibc-salernos/sysdeps/include/sys/sysmacros.h:8-21 | major and minor of a made device number are what it was made from |
| DevNumber.MadeOfParts | mlibc-salernos/sysdeps/include/sys/sysmacros.h:8-21 | Every device number is made from its major and minor |
| DevNumber.MakeDevIsBijective | mlibc-salernos/sysdeps/include/sys/sysmacros.h:8-21 | Every 64-bit number is made from exactly one pair of 32-bit words |
| DevNumber.PartsAreSeparate | mlibc-salernos/sysdeps/include/sys/sysmacros.h:16-21 | The two words are laid out independently of each other |
| DevNumber.Layout | mlibc-salernos/sysdeps/include/sys/sysmacros.h:16-21 | Where the bits of each word go |
| DevNumber.Traditional | mlibc-salernos/sysdeps/include/sys/sysmacros.h:16-21 | Numbers below 256 give the traditional sixteen-bit device number |
| IntRand.IntRand32 | patches/bash/jinx-working-patch.patch:180-186 | On every 32-bit seed no intermediate value overflows and the result is the product modulo 2^31 - 1 |
| IntRand.StepIsProduct | patches/bash/jinx-working-patch.patch:182-186 | Division by 127773 and one correction compute the product with 16807 modulo 2^31 - 1 |
| IntRand.RunsStayInRange | patches/bash/jinx-working-patch.patch:180-186 | From a state in 1 .. 2^31 - 2 no call ever leads out of that range; in particular never to zero |
| IntRand.StateRepeats | patches/bash/jinx-working-patch.patch:180-186 | The state repeats exactly after the multiples of 2^31 - 2 calls |
| IntRand.EveryValueOnce | patches/bash/jinx-working-patch.patch:180-186 | From any state in range 2^31 - 2 calls return every value in range exactly once |
| IntRand.FirstCallInRange | patches/bash/jinx-working-patch.patch:180-186 | From any 32-bit seed the first call returns a value in range, unless the seed is a multiple of 2^31 - 1 other than zero; then zero, and the next call is in range |
| IntRand.ParkMillerCheck | patches/bash/jinx-working-patch.patch:180-186 | From 1 the 10000th state is 1043618065, the value Park and Miller published as a check |
| IntRand.AfterZero | patches/bash/jinx-working-patch.patch:180-181 | A zero seed is replaced by 123459876 |
| PrimitiveRoot.PowerIsOne | patches/bash/jinx-working-patch.patch:185 | A power of 16807 is one modulo 2^31 - 1 only for the multiples of 2^31 - 2 |

## Left out

- Blake2b.State.Update: requires `UpdateEnds`, since the call it excludes does not end; `last_node` is never used and not modelled.
- Blake2b.State.Final: the output buffer and the clearing of the local copy are a returned byte sequence.
- DepWalk.Walk: `grep " ${dep} "` takes a name as a regular expression; names are compared exactly here, and recipes do not change while a walk runs.
- PkgBuild.Build: requires `!Loops`, since the script would call itself for ever (`EndsExactly`); a build that fails before it comes to the loop ends all the same, and is not covered. Fetching, configuring, compiling and packaging are one atomic step that makes the package appear or fails, and the fetch, patch and prepare stages of a source are one node; a recipe's `name` is its file name, and a package counts as stored under its name, without version and revision.
- PkgBuild.Closed: counts prepared sources as stored for good; with `JINX_CLEAN_WORKDIRS=yes` the script removes them after a build (jinx:1078-1101, 1140-1163), and then a stored package can lack its source until it is built again. A failed packaging step of a host package can leave its directory behind (jinx:784), which later counts as present; here a failed step leaves nothing.
- PkgRuns.Attempt: every build step succeeds; the depth stands for how deep the script's calls of itself are nested.
- PkgBuild.CmdBuild: shell patterns on the command line are already expanded; `host-build`, which removes a host package before it is packaged again, is not modelled.
- PkgContainer.ListPackages: installing and copying the listed packages, image sets and mounts are not modelled.
- Qsort.QsortR: `qsort` and `qsort_r` differ in how the comparator gets its extra argument; here the comparator is a pure function that has it inside. That the size times the count fits the address space is part of the array being there.
- KProfile.ComparatorRatio: the ratio is any function of a row into the reals; rounding of `float` is not modelled. Which system call fills the table and how it is printed are left out.
- Utf8.Wcrtomb: the mode is a parameter, and a given buffer has room for the longest character of the mode; the shift state is ignored, as in the code.
- InitParse.ParseConfig: running out of memory is a choice at every `realloc`; log messages and reading the file are left out. The text has no NUL in it, as `config` ends at the first one.
- InitInterp.Init.CbTty: `malloc` in `eval` is taken to succeed, the memory that is never given back is not counted; opening the terminal, `setsid` and `ioctl` are one set-up step in `InitBarrier`.
- InitInterp.Init.CbEnv: `setenv` ignores an empty name and one with an equals sign, as POSIX has it; its result is ignored, as in the code.
- InitInterp.Init.InterpretConfig: starts without children, and `sigaction` succeeds; requires `ChildrenFit`, since nothing in the code checks for room. A configuration that asks for more children but in which a `fork` fails in time is not covered.
- InitBarrier.EveryRunKeepsBarrier: SIGUSR1 comes from init only; a signal for a process is pending at most once.
- SignalHandoff.Next: memory is sequentially consistent, and unblocking a pending signal delivers it before `pthread_sigmask` returns, as POSIX has it; each thread's two signals are blocked until then. Messages are left out, and so is the second phase of the test with its child processes.
- Pselect.SysPselect: the signal mask and the time-out are passed on to poll, whose waiting is not modelled; at most 1024 descriptors. Where the caller names one set twice the result written last stays, and only that is promised.
- IntRand.IntRand32: the declarations of the variables are outside the patch; they are taken as an unsigned 32-bit `ret` and signed 32-bit `h`, `l` and `t`, and that nothing overflows holds for those. Seeding from the clock is left out.
- System call wrappers, terminal and display code, allocation and number parsing in the C library, thread creation and joining: they rest on a kernel or on mlibc sources that are not part of this repository.
- Recipes, headers of constants, other tests and other patches: packaging, or fragments of programs that are not part of this repository.
