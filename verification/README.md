# Verified models of a multi-core simulation tool set

This project models, in Dafny, the parts of the repository whose correctness is hardest to see from the code,
and proves what they are for.  `dafny verify dfyconfig.toml` checks all of it.

| files | what they model |
|---|---|
| `SiftFormat`, `SiftCodeImage`, `SiftWriter`, `SiftReader` | SIFT instruction traces: record layouts, the code pages that the reader collects, the writer and the reader as objects |
| `SiftRoundTrip`, `SiftGuarantees` | what a reader sees of what a writer wrote, over whole runs, with the exact conditions |
| `SiftLayout` | traces and messages byte by byte: what is on the wire, what the reader accepts, and the order of records |
| `SiftProtocol`, `SiftSession`, `SiftTrace` | the blocking requests between front end and back end, every interleaving of the two, and what the back end has read when a handler runs |
| `CallGraph`, `Cycles`, `Propagation`, `Pruning` | gprof2dot: strongly connected components, call ratios and time propagation, pruning |
| `SchedulerLocality`, `SchedulerRuns` | the locality thread scheduler, hook by hook and over whole runs |
| `Json`, `JsonLayout`, `JsonGrammar`, `JsonIo` | the JSON writer and reader, where space and comments may stand, and what else the reader makes of a text |
| `Gem5Wrapper`, `Gem5Books` | flow control of the gem5 memory wrapper, and how the events of a run account for its state |
| `SharedPtr`, `SharedPlain` | reference-counted pointers over an explicit heap, and as plain pointers |
| `GenProfile` | call profiles: ordering, totals and folding |
| `BuildStack`, `StackLabels`, `CpiStack` | CPI stacks: merging, labels and what is displayed |
| `Bbv` | basic-block vectors by random projection |
| `Wrappers` | what several models share |

Where the source changes state, there is a class with the same fields; each of its methods is proved against a
function on values, and the main results are lemmas about those functions and about whole runs of them.

How the outside world enters the models:

- SIFT streams are byte sequences.  Code memory is a function from addresses to bytes; the page table is a function
  that may differ from call to call; fresh memory in the reader's pages holds arbitrary bytes.
- The port and the memory system of the gem5 wrapper, the arrival of bytes on a channel, the metric of a thread and
  the element of a set that Python lists first are chosen freely at every step.
- Numbers that the source keeps in `float` are reals; numbers in fixed-width words are reduced explicitly.

Findings that are stated as exact conditions or as concrete runs:

- A SIFT instruction in the short form does not carry `executed` (`ExecutedExact`, `SeenAsSent`).  In whole-page mode
  the writer's page loop ends if and only if the last byte does not lie in the last page of the address space
  (`PageLoopEnds`), and an instruction that wraps around never reaches the reader (`WrappedFails`).  Frame
  numbers from 2^52 on are cut off (`Va2PaExact`).  Output of 2^32-1 bytes has a size field of 0, at which the reader
  stops (`ParseEncode`, `CallExact`).  An empty memory access blocks both sides (`EmptyAccessBlocks`, `AccessExact`);
  an answer so long that its size field wraps is still read in full, because the field wraps on both sides
  (`AnswerRoundTrip`).
  The comment on the short form says zero or one dynamic address; the code writes and reads up to two, and so does
  the model.
- The scheduler may put two threads on one core while cores are still being handed out (`PickExact`,
  `ArbitraryPickClashes`, `ResumeOfRunningClashes`).
- In the gem5 wrapper, a read that wants no response ends a drain without a signal (`SilentDrain`,
  `TickEmptiesExact`).  The memory controllers that tick call back reads only, so an accepted write stays outstanding:
  after it no drain ever ends (`NoDrainAfterWrite`).
- A shared pointer whose counter cannot be allocated is left with a dead object, which a later copy deletes again
  (`ConstructSafeExact`).
- CPI items of three levels may emit labels that are not among the names (`DeepTitleIsLost`); `LeavesExact`,
  `CollapseExact` and `SensibleExact` say exactly which descriptors lose labels.
- A function whose incoming calls all have count 0 hands out its whole time once per call, so the totals that gprof2dot
  shows for the uncalled functions need not sum to the profile's total (`RootsExact`, `RootsConserve`).
- The JSON reader takes space between any two tokens except between the brackets of an empty list or dictionary
  (`LayoutExact`).
- The loop in `Cycle.add_function` that is meant to merge an earlier cycle runs on restarts but adds nothing: its
  guard asks for the function that has just joined (`AddFunction`).
- A reader whose stream header was rejected goes on with the records when it is called again (`Read`).

## Model

| member | source | states |
|---|---|---|
| SiftFormat.HeaderRoundTrip | snipersim/sift/sift_format.h:30-45 | reading any written header, whatever follows it, is accepted and yields the mapping option |
| SiftFormat.LittleEndian | snipersim/sift/sift_format.h:4-6 | byte k of a field of any width is bits 8k to 8k+7 of the number |
| SiftFormat.HeaderLayout | snipersim/sift/sift_format.h:24-45 | the sixteen bytes of every header, with the three options as bits 1 to 3 |
| SiftFormat.Layout | snipersim/sift/sift_format.h:47-118 | the bytes of every kind of record, with bit fields, kind numbers and sizes as numerals |
| SiftFormat.FromLEWraps | snipersim/sift/sift_format.h:47-89 | a field of n bytes holds a number modulo 256^n, which is how size fields wrap |
| SiftFormat.FromLEOfLE | snipersim/sift/sift_format.h:47-89 | a number of any width survives its bytes, so fields do not disturb each other |
| SiftFormat.LEOfFromLE | snipersim/sift/sift_format.h:47-89 | bytes survive being read as a number, for any length |
| SiftFormat.AddressesRoundTrip | snipersim/sift/sift_format.h:58-78 | the dynamic addresses of a record are read back in order, whatever follows |
| SiftFormat.ParseEncode | snipersim/sift/sift_format.h:47-89 | a record followed by anything is read back with exactly its length if and only if it has a size, or carries data where the reader needs some and no more than its size field can tell |
| SiftCodeImage.StoreChunk | snipersim/sift/sift_reader.cc:212-240 | copying one chunk inside one page extends what is stored byte for byte, and touches no other page |
| SiftCodeImage.FetchChunk | snipersim/sift/sift_reader.cc:651-672 | copying one chunk out of one page extends what is fetched, across page boundaries and around the end of memory |
| SiftWriter.Writer.constructor | snipersim/sift/sift_writer.cc:42-104 | a new writer has sent the header and nothing else |
| SiftWriter.PageLoopEnds | snipersim/sift/sift_writer.cc:224-224 | with its wrapping 64-bit variable, the page loop ends if and only if the last byte does not lie in the last page of the address space |
| SiftWriter.Writer.SendPages | snipersim/sift/sift_writer.cc:224-248 | whenever the loop ends at all, writes exactly the pages from first to last byte that have not been sent, in order, and remembers them |
| SiftWriter.Writer.SendCode | snipersim/sift/sift_writer.cc:192-249 | in either mode, writes the code that the specification says is missing and remembers it |
| SiftWriter.Writer.SendMappings | snipersim/sift/sift_writer.cc:1086-1117 | writes one mapping for each page of the addresses that is mapped and has not been sent |
| SiftWriter.InsnBytes | snipersim/sift/sift_writer.cc:259-310 | once code and pages are known, an instruction at the running address that is not predicated adds exactly one byte, with size, number of addresses and branch flags, and its addresses; any other one adds ten bytes and its addresses |
| SiftWriter.Writer.SendInsn | snipersim/sift/sift_writer.cc:259-310 | writes the short or the long form against the running address, and advances that address |
| SiftWriter.Writer.Instruction | snipersim/sift/sift_writer.cc:182-319 | output and all caches change as the specification of the call says: code, then mappings, then the record; with code and pages known the output grows by exactly 1 or 10 bytes and the addresses |
| SiftWriter.Writer.CacheOnly | snipersim/sift/sift_writer.cc:370-404 | output and mapping cache change as specified; the running address does not |
| SiftWriter.Writer.Output | snipersim/sift/sift_writer.cc:406-431 | appends one record with descriptor and data of any 32-bit length, its size field wrapping; nothing else changes |
| SiftWriter.Writer.RoutineChange | snipersim/sift/sift_writer.cc:861-878 | appends one record with event and three addresses |
| SiftWriter.Writer.IsaChange | snipersim/sift/sift_writer.cc:906-929 | appends one record with the new ISA |
| SiftWriter.Writer.Syscall | snipersim/sift/sift_writer.cc:499-543 | sends the mapping of the page that a futex or write call points to, if it is mapped and was not sent, and then the request; any other system call sends its request only |
| SiftWriter.Writer.End | snipersim/sift/sift_writer.cc:124-162 | the end record is written once |
| SiftReader.Reader.InitStream | snipersim/sift/sift_reader.cc:77-146 | succeeds exactly if the header is good; good or bad, the header has then been consumed, its mapping option noted and the stream counts as open |
| SiftReader.Reader.StoreCode | snipersim/sift/sift_reader.cc:212-240 | after the copy loop the pages hold the old image overlaid with all of the bytes, at any address and length |
| SiftReader.Reader.StaticInfo | snipersim/sift/sift_reader.cc:651-672 | fails exactly if a needed page is missing; otherwise the copied bytes are those of the image at that address |
| SiftReader.Reader.GetStaticInstruction | snipersim/sift/sift_reader.cc:674-702 | result, map and links are those of the lookup on values, and the heap of linked entries stays well formed |
| SiftReader.Reader.LinkTo | snipersim/sift/sift_reader.cc:674-702 | the next-pointer of the last instruction is set once and always to the entry of the map |
| SiftReader.Reader.Handle | snipersim/sift/sift_reader.cc:180-541 | each record changes the reader's state as the specification of records says, or ends the call |
| SiftReader.Reader.Read | snipersim/sift/sift_reader.cc:169-546 | opens the stream if need be, then loops over records to the next instruction, end or error; after a rejected header the next call goes on with the records |
| SiftReader.OrDisjoint | snipersim/sift/sift_reader.cc:782-803 | bitwise or is addition when the low bits of one side are free |
| SiftReader.Reader.PhysicalAddress | snipersim/sift/sift_reader.cc:782-803 | without mappings the address itself; with them 0 for a page that was never sent, and otherwise frame times page size plus offset if and only if the frame is below 2^52 |
| SiftReader.Va2PaExact | snipersim/sift/sift_reader.cc:782-803 | the physical address is frame times page size plus offset if and only if the frame is below 2^52 |
| SiftRoundTrip.FeedReads | snipersim/sift/sift_reader.cc:180-541 | reading the bytes of readable records is the same as being handed the records |
| SiftRoundTrip.PageStep | snipersim/sift/sift_writer.cc:224-248 | after the page records of an instruction every page in its range is present with the right bytes, and no other has been harmed |
| SiftRoundTrip.CodeStep | snipersim/sift/sift_writer.cc:192-249 | in both modes, after the code records of an instruction its own bytes are present and right, also across a page boundary |
| SiftRoundTrip.MappingStep | snipersim/sift/sift_writer.cc:1086-1117 | after the mapping records the reader's frames are those of the first lookups, and both sides agree on what was sent |
| SiftRoundTrip.StaticStep | snipersim/sift/sift_reader.cc:674-702 | whichever branch the lookup takes, it yields the entry of that address with that size and the code bytes |
| SiftRoundTrip.InsnStep | snipersim/sift/sift_reader.cc:484-541 | the instruction record, in either form, returns the instruction written, and the running address agrees |
| SiftRoundTrip.CallStep | snipersim/sift/sift_writer.cc:182-319 | one call of any kind keeps writer, reader and reference view in step |
| SiftRoundTrip.RunStaysSynced | snipersim/sift/sift_writer.cc:182-319 | any sequence of calls keeps them in step: addresses, ISA, frames, code and everything seen |
| SiftRoundTrip.RoundTrip | snipersim/sift/sift_reader.cc:169-546 | for every sequence of calls the reader accepts the header, returns the same instructions and events in order, consumes exactly the bytes written and ends with the writer's address |
| SiftGuarantees.ExecutedExact | snipersim/sift/sift_reader.cc:484-541 | reading the bytes of an instruction returns it, and its executed flag survives if and only if it is set, or the instruction is predicated or not at the running address |
| SiftGuarantees.SeenAsSent | snipersim/sift/sift_writer.cc:259-310 | over a run, the client sees exactly what was sent if and only if no instruction loses that flag |
| SiftGuarantees.ReadAsSent | snipersim/sift/sift_reader.cc:169-546 | read back from the bytes of a whole trace, the client gets exactly what was sent if and only if no instruction loses that flag |
| SiftGuarantees.ShortcutExact | snipersim/sift/sift_reader.cc:674-702 | the next-pointer shortcut gives the same answer as the plain map for every state and lookup, except that it returns an old entry where the plain lookup would stop because the size differs |
| SiftGuarantees.FramesAreFirst | snipersim/sift/sift_writer.cc:1086-1117 | the frame known for a page is the one found by the first call that used it while mapped; there is none before |
| SiftGuarantees.PhysicalAddresses | snipersim/sift/sift_reader.cc:782-803 | after any run, the physical address of any address, 0 if its page was never sent, exact if and only if the frame is below 2^52 |
| SiftGuarantees.RunSendsOnce | snipersim/sift/sift_writer.cc:192-249 | over a whole run no mapping, code page or instruction bytes are sent twice, and everything remembered was sent |
| SiftGuarantees.WrappedFails | snipersim/sift/sift_writer.cc:224-248 | in page mode no code is sent for an instruction that wraps around the address space, and the reader stops at its assert |
| SiftGuarantees.CallExact | snipersim/sift/sift_reader.cc:180-541 | the records of an accepted call are all read back if and only if the call has a size or data, that fits its size field, and does not wrap in page mode |
| SiftLayout.HeaderExact | snipersim/sift/sift_reader.cc:77-146 | a header is accepted exactly if it begins with the four letters and asks for known options only; an odd option byte asks for decompression |
| SiftLayout.KindsExact | snipersim/sift/sift_reader.cc:180-483 | for every kind and size: which records fail an assert, which are requests, and which are skipped |
| SiftLayout.Truncated | snipersim/sift/sift_reader.cc:180-541 | a readable record that is cut short anywhere is never taken for another record |
| SiftLayout.ReadsNothing | snipersim/sift/sift_reader.cc:169-180 | a reader at the end of its stream reports an error, one that has seen the end record returns nothing more |
| SiftLayout.ReadsBadRecord | snipersim/sift/sift_reader.cc:180-483 | a record whose size is not the asserted one ends the call and nothing changes |
| SiftLayout.ReadsCutRecord | snipersim/sift/sift_reader.cc:180-541 | a reader that meets such a record does not return anything |
| SiftLayout.ReadsThreeAddresses | snipersim/sift/sift_reader.cc:484-541 | an instruction with three dynamic addresses is not returned |
| SiftLayout.RecordsInOrder | snipersim/sift/sift_writer.cc:182-404 | every call writes its code, then its mappings, then exactly one record of its own; a system call only mappings, in front of its request |
| SiftLayout.MappingsInOrder | snipersim/sift/sift_writer.cc:1086-1117 | mappings come in the order in which the addresses use the pages |
| SiftLayout.CallMappings | snipersim/sift/sift_writer.cc:251-257 | those addresses are the instruction's own one first and then its operands, in order |
| SiftLayout.NextIsFirst | snipersim/sift/sift_reader.cc:674-702 | after any lookups, the next pointer of an instruction goes to the one that followed it the first time |
| SiftLayout.LookupLinks | snipersim/sift/sift_reader.cc:674-702 | every lookup that succeeds sets these pointers, whichever branch it takes |
| SiftLayout.RequestLayout | snipersim/sift/sift_format.h:89-118 | the bytes of every request, with kind numbers and sizes as numerals |
| SiftLayout.ReplyLayout | snipersim/sift/sift_format.h:89-118 | the bytes of every reply |
| SiftLayout.AccessLayout | snipersim/sift/sift_reader.cc:570-590 | the bytes of memory requests and of their answers |
| SiftLayout.RequestExact | snipersim/sift/sift_reader.cc:250-425 | which requests the back end accepts, for every kind and size |
| SiftLayout.ReplyExact | snipersim/sift/sift_writer.cc:433-859 | which replies a waiting call accepts, for every kind and size |
| SiftLayout.OpExact | snipersim/sift/sift_writer.cc:936-1035 | which memory requests the front end serves |
| SiftLayout.AnswerExact | snipersim/sift/sift_reader.cc:590-649 | which answers the back end accepts, with the size compared modulo 2^32 |
| SiftLayout.WaitExact | snipersim/sift/sift_writer.cc:433-859 | what a waiting call makes of any record head: its reply, a memory request if it serves them, or an error |
| SiftProtocol.RequestRoundTrip | snipersim/sift/sift_reader.cc:250-425 | every kind of request is parsed back from its payload |
| SiftProtocol.ReplyRoundTrip | snipersim/sift/sift_reader.cc:704-767 | every reply is parsed back by the call that waits for it |
| SiftProtocol.OpRoundTrip | snipersim/sift/sift_writer.cc:936-1035 | every memory request, with its data if it writes, is parsed back |
| SiftProtocol.AnswerRoundTrip | snipersim/sift/sift_reader.cc:548-649 | every answer to a memory request is parsed back with its bytes, also when its size field wraps |
| SiftProtocol.ParseAhead | snipersim/sift/sift_reader.cc:484-535 | an instruction that has arrived in full is not changed by what arrives after it |
| SiftSession.StepKeeps | snipersim/sift/sift_writer.cc:499-584 | each step of either side, or of the channels, is a step of one synchronous machine or invisible to it |
| SiftSession.SafeRun | snipersim/sift/sift_writer.cc:499-859 | in every interleaving of every run of trace records and calls no side meets an unexpected record, each reply reaches its own request, accesses see and change the front end's memory in order with the program's own writes to it, and between calls the response channel is empty |
| SiftSession.SafeSession | snipersim/sift/sift_writer.cc:499-859 | the same for every run from the start: what both sides observe is a run of the synchronous machine on one memory |
| SiftSession.Progress | snipersim/sift/sift_reader.cc:548-649 | no deadlock: unless all is settled or a handler runs, some byte can arrive or be read |
| SiftSession.NoLivelock | snipersim/sift/sift_reader.cc:250-425 | arrivals and reads decrease a measure, so they cannot go on for ever without a client's decision |
| SiftSession.Completes | snipersim/sift/sift_reader.cc:250-425 | from every state finitely many arrivals and reads lead to rest or to a handler that may decide |
| SiftSession.AccessAnswered | snipersim/sift/sift_reader.cc:548-649 | a handler's access completes: the handler goes on with the front end's bytes at that moment, or after they have been changed as asked, and exactly these events are seen |
| SiftSession.AccessExact | snipersim/sift/sift_writer.cc:936-1035 | an access is answered if and only if it is not empty; otherwise no interleaving ever lets the handler go on |
| SiftSession.EmptyAccessBlocks | snipersim/sift/sift_writer.cc:936-1035 | an empty access is never answered, and then no step at all is possible |
| SiftSession.PokePeek | snipersim/sift/sift_writer.cc:936-1035 | bytes written to front-end memory are read back, wrapping around included, and no other byte changes |
| SiftTrace.ReadInOrder | snipersim/sift/sift_reader.cc:180-541 | instructions, code, mappings and events that are mixed with blocking calls are read in the order in which they were written |
| SiftTrace.AllRead | snipersim/sift/sift_reader.cc:250-425 | when a handler runs, everything written before its call has been read |
| SiftTrace.HandlerInStep | snipersim/sift/sift_reader.cc:169-546 | for every program of traced and blocking calls, the mappings that system calls send included, and every run: whenever a handler runs, a reader fed with what was read is exactly in step with the writer, and its client has seen precisely the instructions and events before the call |
| SiftTrace.HandlerKnowsPages | snipersim/sift/sift_writer.cc:508-530 | when the handler of a system call runs, that call is the last thing the program did, and the reader knows the frame of the page that a futex or write call points to, if the page was mapped |
| Cycles.Profile.AddFunction | snipersim/tools/gprof2dot.py:275-283 | the function joins the cycle and points to it; the loop over the members of an earlier cycle, which a restart enters, adds nothing |
| Cycles.PushKeeps | snipersim/tools/gprof2dot.py:385-390 | starting a function keeps the search invariant: what is on the stack reaches what is above it, what was popped is closed under calls |
| Cycles.FinishKeeps | snipersim/tools/gprof2dot.py:391-399 | leaving a function that is not a root keeps the invariant |
| Cycles.MembersAreScc | snipersim/tools/gprof2dot.py:399-406 | what is popped at a root is exactly the root's strongly connected component |
| Cycles.PopKeeps | snipersim/tools/gprof2dot.py:399-402 | popping a component keeps the invariant |
| Cycles.RelabelKeeps | snipersim/tools/gprof2dot.py:403-406 | giving the members of a component a new cycle keeps all labels right, also when a restart visits it again |
| Cycles.Profile.Tarjan | snipersim/tools/gprof2dot.py:378-407 | one search pops everything it reaches first, keeps the invariant and the labels, and returns the next number |
| Cycles.Profile.ListCycles | snipersim/tools/gprof2dot.py:320-324 | lists each cycle in use once |
| Cycles.Profile.FindCycles | snipersim/tools/gprof2dot.py:312-324 | for every closed graph: two functions share a cycle if and only if each reaches the other, a function has none if and only if it is alone in its component, each cycle holds exactly its component, and each is listed once |
| Cycles.LabelsExact | snipersim/tools/gprof2dot.py:312-324 | labels that are right one by one tell the components apart, both ways |
| Propagation.SharesExact | snipersim/tools/gprof2dot.py:409-448 | the incoming shares of a function outside of cycles sum to 1 if its incoming total is positive, and otherwise to the number of calls with a count |
| Propagation.CycleSharesExact | snipersim/tools/gprof2dot.py:409-448 | the ratios of the calls that come into a cycle from outside sum to 1 if their total is positive |
| Propagation.RatioExact | snipersim/tools/gprof2dot.py:409-448 | every ratio, inside cycles too: the count over the sum of all counts into the callee from other functions, or, for a call that comes into a cycle, into the cycle from outside; 1 if that sum is 0, 0 without a count, and never outside of 0 and 1 |
| Propagation.InnerRatioExact | snipersim/tools/gprof2dot.py:431-448 | for counts that are not negative the ratio of a call that stays in its cycle, or has none, is the exact quotient, and 1 for 0/0 |
| Propagation.SolutionIs | snipersim/tools/gprof2dot.py:483-501 | the totals are the only numbers with: own time plus, for each call to another function, ratio times the callee's total |
| Propagation.Balance | snipersim/tools/gprof2dot.py:483-501 | for any ratios at all, what the functions do not hand to callers sums to all own time |
| Propagation.RootsExact | snipersim/tools/gprof2dot.py:409-501 | for all counts that are not negative: the totals of the functions that nobody calls, and for each called function without incoming counts its total times 1 minus its calls with a count, sum to all own time |
| Propagation.RootsConserve | snipersim/tools/gprof2dot.py:409-501 | with the computed ratios, the totals of the functions that nobody calls sum to all own time if and only if those parts sum to 0, in particular if every called function has a positive incoming total |
| Propagation.TimedProfile.IncomingTotals | snipersim/tools/gprof2dot.py:409-429 | sums the counts that come into each function from other functions, and into each cycle from outside |
| Propagation.TimedProfile.CallRatios | snipersim/tools/gprof2dot.py:409-448 | sets every ratio to the call's count over the total of the callee, or of its cycle if the call enters it, clamped; stated on the counts alone |
| Propagation.TimedProfile.IntegrateFunction | snipersim/tools/gprof2dot.py:483-493 | fills in exactly the functions below, each with the total that the recurrence on the graph defines |
| Propagation.TimedProfile.IntegrateCall | snipersim/tools/gprof2dot.py:495-501 | a call gets its ratio's part of the callee's total |
| Propagation.TimedProfile.Integrate | snipersim/tools/gprof2dot.py:450-481 | every function gets its own time plus its calls' parts of their callees, every call its part, and the profile's total is all own time |
| Propagation.TimedProfile.Propagate | snipersim/tools/gprof2dot.py:409-481 | ratios, then integration: the totals of the functions that nobody calls and those parts sum to the profile's total |
| Pruning.Profile.PruneRoot | snipersim/tools/gprof2dot.py:331-343 | terminates with exactly the functions reachable from the root and their calls |
| Pruning.Profile.EdgesUp | snipersim/tools/gprof2dot.py:345-353 | the reversed edges, all of them and no others |
| Pruning.Profile.PruneLeaf | snipersim/tools/gprof2dot.py:345-369 | keeps exactly the functions that reach the leaf, and the calls between them |
| Pruning.Profile.PruneBetween | snipersim/tools/gprof2dot.py:331-369 | one after the other, keeps exactly the functions on some path from root to leaf and exactly the edges between them |
| Pruning.ReachInSubgraph | snipersim/tools/gprof2dot.py:331-369 | cutting a graph down to a closed part changes no reachability inside that part |
| Pruning.BetweenIsOnPath | snipersim/tools/gprof2dot.py:331-369 | what is left after both prunings is on a path of the original graph, and conversely |
| SchedulerLocality.StartKeeps | snipersim/scripts/scheduler-locality.py:68-76 | starting a thread keeps one thread per core, own cores only, runnable threads only |
| SchedulerLocality.StallKeeps | snipersim/scripts/scheduler-locality.py:81-94 | so do stalling and exiting, which hand the core to the best waiting thread |
| SchedulerLocality.StartPlaces | snipersim/scripts/scheduler-locality.py:68-76 | only the new thread changes; it can run, and gets a core that nobody uses exactly if one is left to hand out |
| SchedulerLocality.StallHandsOver | snipersim/scripts/scheduler-locality.py:81-94 | the core goes to a runnable thread without a core that has the best score, exactly if there is one; nobody else changes |
| SchedulerLocality.ResumeWakes | snipersim/scripts/scheduler-locality.py:96-107 | only the resumed thread changes; its score becomes the least of all, and it takes a free core exactly if there is one |
| SchedulerLocality.ResumeExact | snipersim/scripts/scheduler-locality.py:96-107 | resuming on a free core keeps the whole invariant if and only if all cores have been handed out or the picked one has |
| SchedulerLocality.PickExact | snipersim/scripts/scheduler-locality.py:96-107 | on any list of cores: however many threads start afterwards, no two threads ever share a core if and only if the pick was such a core |
| SchedulerLocality.BadPickClashes | snipersim/scripts/scheduler-locality.py:68-107 | after any other pick, the new thread that is handed the picked core clashes with the thread that resumed there |
| SchedulerLocality.ResumeElsewhere | snipersim/scripts/scheduler-locality.py:96-107 | without a free core, or for a thread that was merely scheduled out, resuming always keeps it |
| SchedulerLocality.EarliestIsGood | snipersim/scripts/scheduler-locality.py:103-107 | the earliest free core has been handed out if the thread had none |
| SchedulerLocality.EnoughCores | snipersim/scripts/scheduler-locality.py:122-128 | the assert in periodic holds: free cores are exactly those no kept thread uses, and there are enough |
| SchedulerLocality.PeriodicBalances | snipersim/scripts/scheduler-locality.py:109-135 | afterwards min(runnable, cores) threads run, none has a worse score than one that waits, no core idles while one waits, and threads that go on stay on their core |
| SchedulerLocality.PeriodicKeeps | snipersim/scripts/scheduler-locality.py:109-135 | periodic keeps the invariant |
| SchedulerLocality.FilterAscending | snipersim/scripts/scheduler-locality.py:130-130 | filtering the ascending list of cores is sorting the free ones |
| SchedulerLocality.SortedOrdered | snipersim/scripts/scheduler-locality.py:92-93 | the sorted list ascends by score |
| SchedulerLocality.RunsKeepInv | snipersim/scripts/scheduler-locality.py:68-135 | every run of hooks keeps the invariant in every state, given earliest picks until all cores have been handed out and any picks after that |
| SchedulerLocality.RunsPlace | snipersim/scripts/scheduler-locality.py:68-135 | so from the start, in every state of every such run, no two threads share a core, and only runnable threads have one of the given cores |
| SchedulerLocality.ArbitraryPickClashes | snipersim/scripts/scheduler-locality.py:103-107 | a run of three hooks with another pick that puts two threads on one core |
| SchedulerLocality.ResumeOfRunningClashes | snipersim/scripts/scheduler-locality.py:103-107 | the same with the earliest pick, when the thread was running all along |
| SchedulerRuns.OutAndIn | snipersim/scripts/scheduler-locality.py:81-99 | being scheduled out and back in gives back exactly the earlier state |
| SchedulerRuns.FlagsFollow | snipersim/scripts/scheduler-locality.py:68-107 | in every run, which threads are known, runnable and marked as scheduled out is decided by the hooks so far, read on their own |
| SchedulerRuns.ResumeLetsRun | snipersim/scripts/scheduler-locality.py:96-107 | a resume that does not merely undo a scheduling out always lets the thread run, however often it went out and in before |
| SchedulerRuns.OrderFollows | snipersim/scripts/scheduler-locality.py:68-76 | in every run, threads are listed in the order of their first start, and the first starts get the given cores in order |
| SchedulerRuns.ScoreTelescopes | snipersim/scripts/scheduler-locality.py:23-40 | unless a thread is started or woken, exactly the progress of its metric since the last update is added to its score |
| SchedulerRuns.ScoreUpdated | snipersim/scripts/scheduler-locality.py:23-40 | who is brought up to date: a thread that stalls, and in each period every thread with a core |
| SchedulerRuns.ScoreStarts | snipersim/scripts/scheduler-locality.py:68-76 | a new thread begins at 0, or at its metric if it has to wait |
| SchedulerRuns.SortedStable | snipersim/scripts/scheduler-locality.py:92-93 | sorting keeps the order of threads with the same score |
| SchedulerRuns.PeriodicPrefers | snipersim/scripts/scheduler-locality.py:113-119 | whoever runs after a period has a better score than whoever waits, or the same and is listed earlier |
| SchedulerRuns.PeriodicPairs | snipersim/scripts/scheduler-locality.py:122-135 | of two threads that are newly placed the preferred one gets the lower core |
| SchedulerRuns.PeriodicLowest | snipersim/scripts/scheduler-locality.py:122-135 | new threads take the lowest free cores |
| SchedulerLocality.Scheduler.SetCore | snipersim/scripts/scheduler-locality.py:32-40 | changes one thread's core, and its score only when the core is taken away |
| SchedulerLocality.Scheduler.ThreadStart | snipersim/scripts/scheduler-locality.py:68-76 | the hook does what its specification says |
| SchedulerLocality.Scheduler.ThreadStall | snipersim/scripts/scheduler-locality.py:81-94 | likewise, with the best waiting thread chosen by a stable sort |
| SchedulerLocality.Scheduler.ThreadExit | snipersim/scripts/scheduler-locality.py:78-79 | exiting is stalling for good |
| SchedulerLocality.Scheduler.ThreadResume | snipersim/scripts/scheduler-locality.py:96-107 | likewise, for whichever free core the set lists first |
| SchedulerLocality.Scheduler.Tick | snipersim/scripts/scheduler-locality.py:109-135 | the loops over threads and over pairs of thread and core compute the specified reassignment, which keeps the invariant and balances |
| Json.ChainIsOnePass | snipersim/tools/localjson.py:326-334 | any chain of global replacements in which no rule rewrites an earlier result is one pass over the characters |
| Json.ChainIsEscape | snipersim/tools/localjson.py:326-334 | the writer's chain, with and without slashes, escapes each character once |
| Json.EscapedBack | snipersim/tools/localjson.py:164-194 | an escaped string followed by a quote and anything is read back as the string |
| Json.IntBack | snipersim/tools/localjson.py:143-162 | every integer is read back from its digits, up to whatever may follow a value |
| Json.ItemsBack | snipersim/tools/localjson.py:236-250 | a written list is read back item by item |
| Json.MembersBack | snipersim/tools/localjson.py:252-274 | a written dictionary is read back member by member |
| Json.ValueBack | snipersim/tools/localjson.py:92-115 | any value inside any text is read back and only its own text is consumed |
| Json.RoundTrip | snipersim/tools/localjson.py:302-348 | reading what was written gives the value back and consumes all of it, for both settings |
| Json.TextsDiffer | snipersim/tools/localjson.py:302-348 | different values have different texts, even across the settings |
| Json.ReadsProper | snipersim/tools/localjson.py:92-115 | from any text, only values with distinct keys are read |
| Json.RewriteKeeps | snipersim/tools/localjson.py:92-115 | reading any text, writing the value and reading again changes nothing |
| Json.CommentExact | snipersim/tools/localjson.py:206-234 | a line comment is skipped exactly if its body is one line, a block comment exactly if neither `*/` nor `/*` occurs in its body and the star after it |
| Json.CommentsIgnored | snipersim/tools/localjson.py:206-234 | such a comment in front of a text changes nothing |
| JsonLayout.GapExact | snipersim/tools/localjson.py:276-283 | what the reader skips in front of one token it skips in front of anything: whole comments and space |
| JsonLayout.ItemsLaid | snipersim/tools/localjson.py:236-250 | a list with gaps around its items is read back, or fails, item by item |
| JsonLayout.EntriesLaid | snipersim/tools/localjson.py:252-274 | the same for members, with gaps around the colon and repeated keys replaced |
| JsonLayout.LayoutExact | snipersim/tools/localjson.py:92-283 | a value with any gaps between its tokens is read back if and only if there is nothing between the brackets of any empty list or dictionary inside; otherwise reading fails |
| JsonGrammar.UnicodeExact | snipersim/tools/localjson.py:164-204 | for every number below 65536 and digits in either case: its escape stands for that one character if it is ASCII, and is an error otherwise |
| JsonGrammar.OneUnicodeCharacter | snipersim/tools/localjson.py:164-194 | the same for a whole string of one escape, with its closing quote and any rest |
| JsonGrammar.UnicodeFails | snipersim/tools/localjson.py:176-204 | too few characters, or one that is no hexadecimal digit, is an error |
| JsonGrammar.EscapeExact | snipersim/tools/localjson.py:173-191 | the eight other escapes and their meanings; any other one is an error |
| JsonGrammar.PlainExact | snipersim/tools/localjson.py:164-194 | all other characters stand for themselves, and the closing quote must be there |
| JsonGrammar.WordExact | snipersim/tools/localjson.py:117-141 | a word is read exactly if it is there; a text that ends inside of it is told apart from a wrong letter |
| JsonGrammar.WordsAre | snipersim/tools/localjson.py:117-141 | the three words, as written and as read |
| JsonGrammar.NumbersExact | snipersim/tools/localjson.py:143-162 | a sign negates and needs digits; zeros in front do not matter |
| JsonGrammar.FloatsMarked | snipersim/tools/localjson.py:143-162 | digits followed by a fraction or an exponent are marked as a float |
| JsonGrammar.DigitsCount | snipersim/tools/localjson.py:143-162 | one more digit multiplies by ten and adds |
| JsonGrammar.SpacesExact | snipersim/tools/localjson.py:276-283 | exactly six characters are space |
| JsonGrammar.CommentErrors | snipersim/tools/localjson.py:206-234 | what is wrong with a comment, and which error is reported |
| JsonGrammar.NoValue | snipersim/tools/localjson.py:92-115 | a text that no value can begin with is an error |
| JsonGrammar.ListErrors | snipersim/tools/localjson.py:236-250 | after an item the list has to end or go on; which error is reported otherwise |
| JsonGrammar.KeyErrors | snipersim/tools/localjson.py:252-274 | a key has to be a string and a colon has to follow; which error is reported otherwise |
| JsonGrammar.ReadLastWins | snipersim/tools/localjson.py:252-274 | looking up any key in a dictionary that was read gives the value written last for it |
| JsonIo.JsonWriter.WriteString | snipersim/tools/localjson.py:324-336 | the replacements in order append the escaped string |
| JsonIo.JsonWriter.WriteList | snipersim/tools/localjson.py:315-323 | the loop with its countdown puts commas between items only |
| JsonIo.JsonWriter.WriteDict | snipersim/tools/localjson.py:304-314 | the same for members |
| JsonIo.JsonWriter.Write | snipersim/tools/localjson.py:296-300 | the buffer ends as the text of the value, which reads back |
| JsonIo.JsonReader.Next | snipersim/tools/localjson.py:36-41 | takes one character or stops |
| JsonIo.JsonReader.PutBack | snipersim/tools/localjson.py:42-43 | undoes taking one character |
| JsonIo.JsonReader.ReadComment | snipersim/tools/localjson.py:206-234 | agrees with the grammar of both kinds of comment, position and errors included |
| JsonIo.JsonReader.EatWhitespace | snipersim/tools/localjson.py:276-283 | skips exactly the leading space and comments |
| JsonIo.JsonReader.ReadNumber | snipersim/tools/localjson.py:143-162 | agrees with the grammar in value, position and error |
| JsonIo.JsonReader.ReadString | snipersim/tools/localjson.py:164-194 | agrees with the grammar, all escapes and errors included |
| JsonIo.JsonReader.ReadArray | snipersim/tools/localjson.py:236-250 | agrees with the grammar |
| JsonIo.JsonReader.ReadObject | snipersim/tools/localjson.py:252-274 | agrees with the grammar; a repeated key replaces the value |
| JsonIo.JsonReader.Read | snipersim/tools/localjson.py:92-115 | agrees with the grammar in value, position and error, for every text |
| Gem5Wrapper.RequestKeeps | ramulator2/resources/gem5_wrappers/ramulator2.cc:156-246 | a request, accepted, refused or ignored, keeps the invariant |
| Gem5Wrapper.CallbackKeeps | ramulator2/resources/gem5_wrappers/ramulator2.cc:180-194 | a completed read is found in the table, and answering it keeps the invariant |
| Gem5Wrapper.SendKeeps | ramulator2/resources/gem5_wrappers/ramulator2.cc:79-107 | sending, taken or refused by the port, keeps the invariant and its asserts hold |
| Gem5Wrapper.RunsKeepInv | ramulator2/resources/gem5_wrappers/ramulator2.cc:79-291 | in every state of every run: the read counter is the summed queue lengths, queues hold reads in order of acceptance, and responses wait exactly if precisely one of retry flag and scheduled event is set |
| Gem5Wrapper.FirstInFirstOut | ramulator2/resources/gem5_wrappers/ramulator2.cc:180-206 | per address, accepted reads that want a response are delivered, queued and outstanding in that order |
| Gem5Wrapper.ExactlyOnce | ramulator2/resources/gem5_wrappers/ramulator2.cc:180-206 | such a read is in exactly one of the three places, as often as it was accepted |
| Gem5Wrapper.FlushDelivers | ramulator2/resources/gem5_wrappers/ramulator2.cc:248-291 | no wake-up is lost: if the port refuses no more, all queued responses go out in order |
| Gem5Wrapper.DrainSignalExact | ramulator2/resources/gem5_wrappers/ramulator2.cc:88-99 | when the last transaction leaves, the drain is signalled if and only if it does not leave during a tick; in a tick it is reads that leave, all that are outstanding, and none of them wants a response |
| Gem5Wrapper.TickEmptiesExact | ramulator2/resources/gem5_wrappers/ramulator2.cc:115-132 | a tick ends with nothing left if and only if only reads were left, all complete in it and none wants a response |
| Gem5Wrapper.WritesStay | ramulator2/resources/gem5_wrappers/ramulator2.cc:208-233 | no step forgets an accepted write, and while there is one no step signals the end of a drain |
| Gem5Wrapper.NoDrainAfterWrite | ramulator2/resources/gem5_wrappers/ramulator2.cc:88-310 | in every run, from the first accepted write on, something is outstanding in every state and no drain is ever signalled |
| Gem5Books.RunsKeepBooks | ramulator2/resources/gem5_wrappers/ramulator2.cc:156-291 | in every state of every run, from the events alone: whether a retry is owed, which reads were accepted, that exactly the accepted writes and the completed reads were answered, in order, how many requests were refused and how many responses were taken |
| Gem5Books.WriteExactlyOnce | ramulator2/resources/gem5_wrappers/ramulator2.cc:226-238 | an accepted write that wants a response is queued or delivered, as often as it was accepted; responses are in the order of answering |
| Gem5Books.RunsKeepTable | ramulator2/resources/gem5_wrappers/ramulator2.cc:226-231 | the table of writes holds the accepted writes of each address in order |
| Gem5Books.TickSettles | ramulator2/resources/gem5_wrappers/ramulator2.cc:115-132 | after a timing tick no retry is owed, and as many retries were sent as requests refused |
| Gem5Books.OnlyTicksRetry | ramulator2/resources/gem5_wrappers/ramulator2.cc:115-132 | nothing else sends a retry, and without timing a tick does nothing |
| Gem5Books.SignalExact | ramulator2/resources/gem5_wrappers/ramulator2.cc:79-107 | a drain is signalled exactly when a response is taken and then nothing is left |
| Gem5Wrapper.SilentDrain | ramulator2/resources/gem5_wrappers/ramulator2.cc:259-290 | such a read does end a drain without a signal |
| Gem5Wrapper.Wrapper.AccessAndRespond | ramulator2/resources/gem5_wrappers/ramulator2.cc:258-291 | queues the response and schedules exactly if nothing else will wake the queue |
| Gem5Wrapper.Wrapper.RecvTimingReq | ramulator2/resources/gem5_wrappers/ramulator2.cc:156-246 | does what the specification of requests says and answers whether the packet was taken |
| Gem5Wrapper.Wrapper.ReadCallback | ramulator2/resources/gem5_wrappers/ramulator2.cc:180-194 | takes the oldest read of the address and answers it |
| Gem5Wrapper.Wrapper.SendResponseEvent | ramulator2/resources/gem5_wrappers/ramulator2.cc:79-107 | the event finds a response and no retry pending, and does what the specification says |
| Gem5Wrapper.Wrapper.RecvRespRetry | ramulator2/resources/gem5_wrappers/ramulator2.cc:248-256 | so does the retry |
| Gem5Wrapper.Wrapper.ClockTick | ramulator2/resources/gem5_wrappers/ramulator2.cc:115-132 | runs the callbacks of the tick and then one owed request retry |
| Gem5Wrapper.Wrapper.Drain | ramulator2/resources/gem5_wrappers/ramulator2.cc:304-310 | reports draining exactly if a read, a write or a response is left |
| SharedPtr.CopyKeeps | snipersim/frontend/shared_ptr.h:136-151 | copying keeps the invariant, shares the object, and its assert holds |
| SharedPtr.SwapKeeps | snipersim/frontend/shared_ptr.h:176-181 | swapping any two handles, also one with itself, keeps all counters right |
| SharedPtr.ReleaseKeeps | snipersim/frontend/shared_ptr.h:79-93 | letting go keeps the invariant; nothing dead is touched |
| SharedPtr.ReleaseDestroys | snipersim/frontend/shared_ptr.h:79-93 | an object dies if and only if this was its last handle |
| SharedPtr.ConstructExact | snipersim/frontend/shared_ptr.h:53-78 | taking a raw pointer is sound if and only if it is null, or the counter can be allocated and nobody else manages the object |
| SharedPtr.ConstructSafeExact | snipersim/frontend/shared_ptr.h:53-93 | no later run ever touches anything dead if and only if that holds; otherwise some later run deletes the object twice |
| SharedPtr.AssignHandles | snipersim/frontend/shared_ptr.h:152-157 | copy and swap gives the handle what the other had and leaves all other handles alone |
| SharedPtr.RunsKeepInv | snipersim/frontend/shared_ptr.h:115-227 | in every run each counter is the number of handles that share it, one counter per object, and nothing dead is ever deleted or touched |
| SharedPtr.StepDestroys | snipersim/frontend/shared_ptr.h:115-227 | in every step a managed object dies if and only if its last handle lets go |
| SharedPtr.StepSpares | snipersim/frontend/shared_ptr.h:115-227 | an object without handles is left alone, and a dead one stays dead |
| SharedPlain.StepIsPlain | snipersim/frontend/shared_ptr.h:107-288 | each operation does to what the handles point to exactly what it would do to plain pointers |
| SharedPlain.RunIsPlain | snipersim/frontend/shared_ptr.h:107-288 | so in every run the handles point where plain pointers would |
| SharedPtr.World.AcquireCount | snipersim/frontend/shared_ptr.h:53-78 | the counter code does what the specification says, the failing allocation included |
| SharedPtr.World.ReleaseCounter | snipersim/frontend/shared_ptr.h:79-93 | likewise for letting go |
| SharedPtr.World.AssignFrom | snipersim/frontend/shared_ptr.h:152-157 | the assignment operator as copy, swap and destruction |
| SharedPtr.World.ResetWith | snipersim/frontend/shared_ptr.h:168-174 | releases, then acquires |
| SharedPtr.World.DynamicPointerCast | snipersim/frontend/shared_ptr.h:275-288 | shares the object, or yields an empty pointer |
| SharedPtr.World.UseCount | snipersim/frontend/shared_ptr.h:43-52 | the number of handles that hold the same object, 0 for an empty pointer |
| GenProfile.SubtreeSum | snipersim/tools/gen_profile.py:41-45 | a subtree's sum is the call's own value and the sums of its children's subtrees |
| GenProfile.HoistedIs | snipersim/tools/gen_profile.py:46-53 | removing folded children and adopting theirs leaves exactly the unfolded calls with only folded ones in between |
| GenProfile.BuildsKeeps | snipersim/tools/gen_profile.py:35-55 | processing one call, children first, keeps totals, data and children right |
| GenProfile.WorkStep | snipersim/tools/gen_profile.py:158-164 | one round of the worklist keeps every call listed at most once with its caller further right |
| GenProfile.WorkIsDone | snipersim/tools/gen_profile.py:158-164 | an empty worklist means every call is listed once, children first |
| GenProfile.AbsorbedSum | snipersim/tools/gen_profile.py:46-53 | the sum over what is folded into a call: the call itself, and what is folded into its folded kids |
| GenProfile.InvFinishes | snipersim/tools/gen_profile.py:153-169 | root totals, and the data of unfolded calls and folded roots for every metric but calls, sum to the global totals; each call holds exactly its own data and that of the calls folded into it |
| GenProfile.Profile.FindRoots | snipersim/tools/gen_profile.py:153-156 | the roots are the calls whose caller was not called |
| GenProfile.Profile.OrderCalls | snipersim/tools/gen_profile.py:158-164 | lists every call exactly once, children before parents |
| GenProfile.Profile.BuildTotal | snipersim/tools/gen_profile.py:35-55 | adds children to the total, folded children also to the data, and adopts grandchildren |
| GenProfile.Profile.Build | snipersim/tools/gen_profile.py:153-169 | the finished profile: subtree totals, conserved root totals, conserved data after folding and exactly who holds it, call numbers unchanged, no folded child left |
| BuildStack.GetItemsConserves | snipersim/tools/buildstack.py:8-42 | for every nested descriptor, entries and rest make up the total, and the total is what left the values |
| BuildStack.GetItemsLeaves | snipersim/tools/buildstack.py:26-34 | exactly the keys of the descriptor are taken, each once |
| BuildStack.MergedConserves | snipersim/tools/buildstack.py:44-55 | the entries, `other` included, sum to all values, for every threshold and setting |
| BuildStack.ShownAbove | snipersim/tools/buildstack.py:16-41 | when collapsing, nothing at or below the thresholds is shown on its own |
| BuildStack.LargeShown | snipersim/tools/buildstack.py:26-41 | a value above its threshold is shown, with what its keys hold after the items before it |
| BuildStack.MergedAbove | snipersim/tools/buildstack.py:44-55 | in a core's stack everything but the rest is above the thresholds as a share of that core's sum |
| BuildStack.MergedLarge | snipersim/tools/buildstack.py:44-55 | a top-level value whose share of the core's sum is above its threshold is in the stack |
| BuildStack.AllShown | snipersim/tools/buildstack.py:8-42 | without collapsing every leaf is shown once, in order, and nothing goes to the rest |
| BuildStack.KeyedNames | snipersim/tools/buildstack.py:58-71 | asking for some top-level names gives all names of those items |
| BuildStack.PrefixesAreGroups | snipersim/tools/buildstack.py:58-71 | without prefixes exactly the names of the groups are missing |
| BuildStack.EmittedTitles | snipersim/tools/buildstack.py:58-71 | for two levels, what is emitted is among the names and in their order |
| BuildStack.LeavesExact | snipersim/tools/buildstack.py:58-71 | without collapsing, whatever is measured, no label is lost if and only if the full title of every leaf is among the names |
| BuildStack.CollapseExact | snipersim/tools/buildstack.py:8-71 | with collapsing, whatever is measured and wherever the thresholds are, no label is lost if and only if the full titles of all leaves and groups are among the names |
| StackLabels.ShownIsLive | snipersim/tools/buildstack.py:8-42 | as long as nothing is negative, only leaves with a key that no leaf before them takes are shown, and groups around them |
| StackLabels.LiveShown | snipersim/tools/buildstack.py:8-42 | every such title is shown for some measurement of one value and some thresholds that are not negative |
| StackLabels.SensibleExact | snipersim/tools/buildstack.py:8-71 | with collapsing, for all measurements and thresholds that are not negative, no label is lost if and only if all such titles are among the names |
| BuildStack.EmittedAmong | snipersim/tools/buildstack.py:8-42 | at any depth and in either setting only titles of leaves and groups are emitted |
| BuildStack.LabelsSurvive | snipersim/tools/cpistack_results.py:11-16 | under that condition every emitted label survives the filter, at any depth |
| BuildStack.DeepTitleIsLost | snipersim/tools/buildstack.py:58-71 | a descriptor of three levels whose only entry is not among the names |
| BuildStack.DisplaySums | snipersim/tools/cpistack_results.py:11-40 | for two levels with distinct names every emitted label survives the filter, and a core's displayed stack sums to its scaled total |
| CpiStack.MergeItems | snipersim/tools/buildstack.py:8-42 | the recursive loop that deletes keys computes the specified stack |
| CpiStack.MergeCore | snipersim/tools/buildstack.py:44-55 | one core's stack as specified, which conserves |
| CpiStack.CollectNames | snipersim/tools/buildstack.py:58-71 | the loop collects the specified names |
| CpiStack.CpiItems.constructor | snipersim/tools/cpistack_items.py:125-165 | names are those of the items, then `other` |
| CpiStack.CpiResults.constructor | snipersim/tools/cpistack_results.py:4-18 | one stack per core, and as labels exactly the names that some core uses, in order |
| CpiStack.BuildResults | snipersim/tools/cpistack_results.py:4-18 | there are results exactly if cycles were accounted, and then as above |
| CpiStack.CpiResults.GetData | snipersim/tools/cpistack_results.py:20-40 | each core's scaled entries, with 0 for labels it does not use |
| CpiStack.CoreDisplaySums | snipersim/tools/cpistack_results.py:11-40 | what these objects display for a core sums to the core's values |
| Bbv.StepIs | snipersim/frontend/bbv_count.cc:12-16 | the wrapping 64-bit step is the exact recurrence modulo 2^48 |
| Bbv.WordsAreLcg | snipersim/frontend/bbv_count.cc:12-20 | from any seed, also one that wraps, all states are those of the exact generator |
| Bbv.ClosedForm | snipersim/frontend/bbv_count.cc:6-20 | every state of the generator in closed form, with the constants of drand48 as numerals |
| Bbv.FirstWeights | snipersim/frontend/bbv_count.cc:6-20 | three weights of address 0 as numerals |
| Bbv.WeightIs | snipersim/frontend/bbv_count.cc:28-50 | the weight of an address in a dimension as 16 bits of such a state |
| Bbv.Counter.Count | snipersim/frontend/bbv_count.cc:28-50 | the unrolled loop adds to dimension i the count times the weight of output i/4+1 of the generator seeded with address + i%4 |
| Bbv.Counter.Clear | snipersim/frontend/bbv_count.cc:52-57 | all dimensions and the instruction count are 0 |
| Bbv.RunIs | snipersim/frontend/bbv_count.cc:28-50 | after any calls a dimension is the exact projection modulo 2^64 |
| Bbv.OrderIsIrrelevant | snipersim/frontend/bbv_count.cc:28-50 | any reordering of the calls gives the same vector |
| Bbv.SplitIsIrrelevant | snipersim/frontend/bbv_count.cc:28-50 | splitting a count in two, anywhere in a run and even wrapping around, gives the same vector |

## Left out

- zlib streams, files, pipes and `/proc/self/pagemap`: streams are byte sequences and page lookup is an arbitrary function.
- SIFT: statistics counters of the writer, memory locks, RoutineAnnounce, Shutdown and the end response; a truncated record, or one with more than two dynamic addresses, is an outcome of its own in the reader because the source then uses memory it has not set.
- SiftSession: the wait loops are steps of a state machine rather than loops, because the two sides run at the same time; their error returns and asserts are one error state each, shown to be unreachable.
- SiftSession.SafeRun: handlers of InstructionCount, NewThread, Join and Fork make no memory requests, and no handler makes one that is never answered (`AccessExact`); the front end has a memory handler; a system call has 1 to 2^32-3 bytes of argument data, because the reader asserts that there are some and the size field must hold them.
- SiftSession.AccessExact: stores of 2^32-20 bytes or more, whose request wraps its size field to less than its own head, so that the front end goes on in the middle of it.
- The ARM, RISC-V and x86 decoders, and everything under `snipersim/pin` and `snipersim/standalone`.
- gprof2dot: parsers, themes, the DOT writer, time propagation inside and into cycles (their call ratios are modelled), floating-point tolerances and warnings.
- SchedulerLocality: threads are values in the dictionary, each owned by it; affinity calls, time stamps and argument parsing. The dictionary keeps the position of a thread that is started again.
- SchedulerLocality.Scheduler.ThreadResume: its effect on the invariant is in `ResumeExact` and `ResumeElsewhere`.
- JSON: tuples, unicode strings, file streams and the recursion limit of Python.
- JsonIo.JsonReader.ReadNumber: a number with a fraction or an exponent ends in a marker, because its value is a rounded float.
- JsonIo.JsonReader.Read: the same marker for such a number anywhere in the text.
- Gem5Wrapper: write callbacks, because the generic, BH and PRAC controllers only keep reads until they complete and call back (`ramulator2/src/dram_controller/impl/generic_dram_controller.cpp:153` and `:248`); the dummy ones, which call back inside the request; re-entrant ports, packet contents and delays, atomic and functional accesses. Each accepted read is called back once, with its own address, during a tick.
- SharedPtr: comparison operators and dereferencing; pointers to different types of one object are the object. A cast constructor with a pointer other than that of its argument is not modelled.
- GenProfile: parsing of the trace file, printing, Callgrind output and categories. Every row has all metrics.
- CpiStack.CpiItems.constructor: groups, contributions to groups and compaction by group, which serve colouring and the simple display.
- CPI stacks: the tables of items and groups, colours and the choice among metrics, which is an arbitrary factor per core. Deleting keys in the caller's dictionary is a dictionary handed back.
- Plotting, statistics-database, GDB, configuration and trace-conversion scripts, Ramulator factories and DRAM controllers: input and output, formatting or plumbing.
