# webzapret: relay, strategy compiler, selection engine and panel, verified

A Dafny model of the four stateful parts of webzapret, with proofs of what they keep and what
they compute. `dafny verify dfyconfig.toml` checks everything.

**UDP relay** (`src/wz-udprelay/wz-udprelay.c`). `Bytes`, `Checksum` and `Packets` model the
byte-level code: the `uint32_t` checksum accumulators with proofs that they do not wrap, the
in-place packet builder, the TUN parser and the SOCKS5 framing; `WireFormat` writes the accepted
packets out field by field and shows that the parsers accept exactly these. `PayloadQueue` is the head/tail
linked list of one session, a heap class proved against a sequence with its history.
`SessionList` is the registry as a heap class, method by method. `RelayMachine` is the same
registry under every interleaving of the TUN reader, the reaper and all workers; while a thread
walks the list, each visited node is a step, and so is what is done to a node after its test,
because workers write `closed` and `last` without taking `list_mutex`. `RelayRuns` states what every reachable state satisfies and that the list,
whose closed nodes are skipped and not removed, refines a map from 4-tuples to sessions.
`RelayWalks` shows that a walk no worker disturbs does what the methods of `SessionList` state;
`RelayEviction` says exactly when a disturbed search evicts a least recently used session, and
`RelayMisled` builds a run from the start in which it does not. `RelayReaping` follows a pass of
the reaper that everything else disturbs.
`RelayService` says what one packet brings about when nothing interferes. `RelayDelivery` joins
registry and queues and follows payloads from the TUN to the workers.

**Strategy compiler** (`src/strategy.py`). `Text` and `Shlex` are the string functions it needs,
including the tokenizer automaton, and `ShlexQuoting` says what it makes of quotes. `Strategy` is
`native_options` with its loops; `StrategyMeaning` gives both option languages a meaning and says
when compilation keeps it; `StrategyLaws` says what its parts amount to for whole lists.
`StrategyArgs` is `strategy_args`.

**Selection engine** (`src/blockcheck.py`). `Sorting` is a stable sort, shown to be the only one.
`Selection` filters and ranks; `FreshIds`, `ImportPlan`, `ImportRounds` and `ImportRender` are
the import planner, its repeated use, and what its entries look like once rendered; `ImportLaws`
describes the ids, slugs and entries it makes. `Schedule` is the calendar arithmetic, `RunBudget`
the loop of a run with its deadline, `RunReports` what a run reports.

**Panel** (`src/panel/panel.py`). `SchedulerLoop` is the scheduler thread with schedule saves;
it and `IntervalRuns` say exactly which slots fire. `CatalogRuns` is the catalog under imports,
deletions and switches, `CatalogLaws` what each of them does to it, `LogMerge` the merged log.

Seven statements say exactly when the code does what it is for, because it does not always. Each
comes with an input at which it does not.

- `session_evict_one` compares stamps that workers keep writing. A search whose candidate gets a
  reply evicts a least recently used session if and only if, at the reply, a session it may
  still choose is as old as every session it has passed and let go
  (`RelayEviction.ReplyEvictsOldestIff`; for whole runs `EvictsOldestIff`). A run from the start
  in which it evicts another is `RelayMisled.MisledReachable`.
- Compilation keeps the meaning of a legacy command line if and only if no value it copies into
  a `--lua-desync=` text holds a colon (`StrategyMeaning.MeaningPreservedIff`, `ColonIsLost`).
- `native_options` run on its own output changes nothing, unless the legacy branch is taken with
  a named protocol, no `--filter-` option, and a token other than `--new` and legacy options
  (`StrategyMeaning.NormalFormIff`, `SecondRunAddsFilter`).
- `validate_args` joins tokens with spaces and so loses quoting: an imported entry is read back
  as the tokens that were validated if and only if each of them is non-empty and holds no shlex
  space, quote or backslash (`ImportRender.ImportedReadsBackIff`, `Shlex.QuotingIsLost`,
  `ImportRender.QuotedImportFails`).
- An imported entry renders if and only if its joined text reads as tokens that
  `native_options` accepts and `strategy_args` allows (`ImportRender.ImportedRendersIff`,
  `UnknownModeFails`).
- An imported text is recognised by the next import if and only if it is its own whitespace
  normalisation (`ImportRounds.ReimportedIff`, `TwoSpacesReimported`).
- A module's lines keep their order in the merged log if and only if its time stamps never go
  backwards (`LogMerge.FileOrderIff`, `BackwardStampsSwap`).

Two more places where the code differs from what its text suggests, and the model follows the
code. The end of `_needs_no_reasm` stands after a `return` of another function, so only its first
test exists (`src/blockcheck.py:692-697`). A session closed by its own worker is skipped by the
reaper from then on, so it stays in `session_count` until it is evicted
(`RelayRuns.LazyUntilEvicted`).

## Model

| member | source | states |
|---|---|---|
| Checksum.FoldResidue | src/wz-udprelay/wz-udprelay.c:118-118 | the carry loop terminates, keeps the sum modulo 65535, and reaches 0 only from 0 |
| Checksum.DeferredCarries | src/wz-udprelay/wz-udprelay.c:114-118 | adding words and folding once equals the RFC 1071 sum with an end-around carry at every addition, odd lengths padded with zero |
| Checksum.ComplementVerifies | src/wz-udprelay/wz-udprelay.c:142-167 | with the complement written into a zero checksum field, a receiver's one's-complement sum is 0xffff |
| Checksum.AddWords | src/wz-udprelay/wz-udprelay.c:160-164 | the summing loop, even or odd length, in a `uint32_t` that does not wrap |
| Checksum.FoldComplement | src/wz-udprelay/wz-udprelay.c:165-166 | the folding loop on a `uint32_t` returns the complement of the fold |
| Checksum.V4Checksum | src/wz-udprelay/wz-udprelay.c:109-120 | returns the complement of the RFC 1071 sum for every length up to 131074, without wrapping |
| Checksum.LongerCanWrap | src/wz-udprelay/wz-udprelay.c:112-117 | 131075 bytes of 0xff add up to more than a `uint32_t` holds, so that bound is the best one |
| Packets.SeedSum | src/wz-udprelay/wz-udprelay.c:155-159 | the nine addends before the payload are the words of the RFC 768 pseudo header and of the UDP header with a zero checksum |
| Packets.SeedAccumulator | src/wz-udprelay/wz-udprelay.c:155-159 | those nine additions do not wrap |
| Packets.UdpChecksum | src/wz-udprelay/wz-udprelay.c:155-166 | the whole UDP sum, for every payload up to 65507 bytes, is the RFC 768 checksum without its zero substitution |
| Packets.DatagramVerifies | src/wz-udprelay/wz-udprelay.c:133-170 | both sums a receiver makes, over the IP header and over pseudo header and segment, are 0xffff |
| Packets.WriteIpHeader | src/wz-udprelay/wz-udprelay.c:143-149 | the in-place header writes, checksum last, leave the finished header and nothing else changed |
| Packets.WriteUdp | src/wz-udprelay/wz-udprelay.c:151-168 | the in-place UDP writes leave the finished segment and nothing else changed |
| Packets.BuildPacket | src/wz-udprelay/wz-udprelay.c:133-170 | the length and the datagram with both checksums, bytes beyond it untouched; 0 and an untouched buffer beyond 65535 |
| Packets.ParseDatagram | src/wz-udprelay/wz-udprelay.c:493-506 | the TUN parser reads back what the builder wrote, for every datagram |
| Packets.ParseFrame | src/wz-udprelay/wz-udprelay.c:332-344 | the reply parser reads back the SOCKS5 frame that `relay_send` writes |
| Packets.EchoRoundTrip | src/wz-udprelay/wz-udprelay.c:332-384 | any packet accepted from the TUN, whatever its header length, fits a frame, and its echo is injected as the same payload with endpoints swapped |
| WireFormat.WrittenFields | src/wz-udprelay/wz-udprelay.c:496-506 | where the fields of a written packet are: ports and payload follow the options, of any header length |
| WireFormat.ParseTunIff | src/wz-udprelay/wz-udprelay.c:493-506 | the TUN parser accepts exactly the packets with a header of 20 to 60 bytes, any options, any values in the fields it passes over and anything behind the total length, and reads their own endpoints and payload |
| WireFormat.SkippedIff | src/wz-udprelay/wz-udprelay.c:493-501 | it skips exactly the bytes that are no such packet |
| WireFormat.ParseReplyIff | src/wz-udprelay/wz-udprelay.c:372-384 | a worker passes on exactly the unfragmented IPv4 datagrams, with the address, port and data they carry |
| WireFormat.FrameIff | src/wz-udprelay/wz-udprelay.c:332-344 | `relay_send` writes exactly such a datagram with reserved bytes zero, and gives up exactly above 65535 bytes |
| WireFormat.BuiltHeader | src/wz-udprelay/wz-udprelay.c:142-168 | every header field that `build_packet` writes |
| PayloadQueue.ApplyAccounted | src/wz-udprelay/wz-udprelay.c:289-329 | one operation keeps: at most 256 waiting, and removed payloads followed by waiting ones are the stored ones in order |
| PayloadQueue.RunAccounted | src/wz-udprelay/wz-udprelay.c:289-329 | so does every run, with any pattern of failed allocations |
| PayloadQueue.TakenFromStored | src/wz-udprelay/wz-udprelay.c:314-329 | what was taken from an accounted queue is an in-order subsequence of what was stored |
| PayloadQueue.SentInOrder | src/wz-udprelay/wz-udprelay.c:364-370 | what the worker takes over a run is an in-order subsequence of what was stored |
| PayloadQueue.DropOnlyWhenFull | src/wz-udprelay/wz-udprelay.c:294-329 | an enqueue drops the oldest payload exactly when 256 are waiting; a dequeue takes it exactly when there is one |
| PayloadQueue.RunStores | src/wz-udprelay/wz-udprelay.c:289-313 | over every run exactly the payloads whose two allocations succeed are stored, and each is waiting, taken or dropped, in order |
| PayloadQueue.Queue.Unlink | src/wz-udprelay/wz-udprelay.c:297-299 | unlinks the head node, keeping the linked shape and the tail of the contents |
| PayloadQueue.Queue.Link | src/wz-udprelay/wz-udprelay.c:308-310 | links a node at the tail |
| PayloadQueue.Queue.Enqueue | src/wz-udprelay/wz-udprelay.c:289-313 | the linked list does what the specification of the run does, also when an allocation fails after the drop |
| PayloadQueue.Queue.Dequeue | src/wz-udprelay/wz-udprelay.c:314-329 | hands out the oldest payload, or nothing when the list is empty |
| SessionList.VictimUnique | src/wz-udprelay/wz-udprelay.c:410-411 | least `last`, and among ties the earliest inserted, determines the victim |
| SessionList.SurvivorsInOrder | src/wz-udprelay/wz-udprelay.c:520-540 | a reaper pass keeps the order of the sessions it leaves |
| SessionList.SurvivorsExact | src/wz-udprelay/wz-udprelay.c:524-524 | and leaves exactly those that are closed or idle for at most 90 s |
| SessionList.Registry.Find | src/wz-udprelay/wz-udprelay.c:392-404 | returns the first open session with the 4-tuple and stamps it, and changes nothing else |
| SessionList.Registry.FindOldest | src/wz-udprelay/wz-udprelay.c:409-411 | the search ends at the victim |
| SessionList.Registry.Predecessor | src/wz-udprelay/wz-udprelay.c:414-414 | the second walk ends at the node before the victim |
| SessionList.Registry.EvictOne | src/wz-udprelay/wz-udprelay.c:406-418 | closes and unlinks exactly the victim, keeping order and count |
| SessionList.Registry.Insert | src/wz-udprelay/wz-udprelay.c:454-459 | puts the new session first, after evicting the victim of a list of 512; the cap holds |
| SessionList.Registry.ReapNode | src/wz-udprelay/wz-udprelay.c:522-538 | the reaper at one node, with the node to link past next |
| SessionList.Registry.Reap | src/wz-udprelay/wz-udprelay.c:520-540 | a pass at one instant closes and unlinks exactly the open sessions idle for more than 90 s, keeping order and count |
| RelayMachine.CloseKeeps | src/wz-udprelay/wz-udprelay.c:364-370 | a worker may close its session at any time without breaking the registry invariant |
| RelayMachine.UnlinkKeeps | src/wz-udprelay/wz-udprelay.c:412-418 | taking a node off the list keeps count, order, and that every open session is listed |
| RelayMachine.FindingKeeps | src/wz-udprelay/wz-udprelay.c:396-403 | one node of a lookup keeps the invariant; a lookup that fails leaves no open session with the 4-tuple |
| RelayMachine.StampingKeeps | src/wz-udprelay/wz-udprelay.c:399-400 | stamping the session found keeps the invariant, even when its worker has closed it since |
| RelayMachine.ConnectingKeeps | src/wz-udprelay/wz-udprelay.c:434-452 | creating a session outside the mutex keeps one open session per 4-tuple |
| RelayMachine.ChoosingKeeps | src/wz-udprelay/wz-udprelay.c:406-418 | one node of the victim search, and the eviction, keep the invariant while workers close sessions |
| RelayMachine.LinkingKeeps | src/wz-udprelay/wz-udprelay.c:456-458 | inserting keeps the list newest first, without repeats, and within 512 |
| RelayMachine.ReaperKeeps | src/wz-udprelay/wz-udprelay.c:515-543 | every step of the reaper keeps the invariant |
| RelayMachine.StepKeeps | src/wz-udprelay/wz-udprelay.c:355-543 | every step of every thread keeps the invariant |
| RelayRuns.Exec | src/wz-udprelay/wz-udprelay.c:355-543 | every reachable state of every interleaving satisfies the invariant |
| RelayRuns.RunSafety | src/wz-udprelay/wz-udprelay.c:280-282 | in words: count equals length and is at most 512, newest first, open sessions are listed or about to be, one open session per 4-tuple, an eviction meets a non-empty list, payloads go to a session with their own 4-tuple |
| RelayRuns.ClosedForever | src/wz-udprelay/wz-udprelay.c:266-278 | over any continuation of a run a session keeps its 4-tuple and `closed` never reverts |
| RelayRuns.LazyUntilEvicted | src/wz-udprelay/wz-udprelay.c:524-527 | the reaper does not turn to a session its worker has closed; such a session leaves the list only by an eviction, or if it was closed after the reaper found it reapable |
| RelayRuns.StepRefines | src/wz-udprelay/wz-udprelay.c:392-483 | each step changes the map from 4-tuples to open listed sessions by exactly one named change; a session is put only under a free 4-tuple, and a removal removes what was there |
| RelayRuns.RunRefines | src/wz-udprelay/wz-udprelay.c:392-543 | after every run the list stands for the map those changes build |
| RelayRuns.FindLinearizes | src/wz-udprelay/wz-udprelay.c:392-404 | a lookup finds the map's entry at the step it ends its walk, and finds nothing only when the map has nothing, however workers interfere |
| RelayWalks.FindUndisturbed | src/wz-udprelay/wz-udprelay.c:392-404 | an undisturbed stepwise lookup ends where the whole lookup does |
| RelayWalks.ChooseUndisturbed | src/wz-udprelay/wz-udprelay.c:406-418 | an undisturbed stepwise search evicts the victim; `RelayEviction` covers the disturbed one |
| RelayWalks.PassBegins | src/wz-udprelay/wz-udprelay.c:520-521 | with the mutex the reaper starts at the first session |
| RelayWalks.ReapUndisturbed | src/wz-udprelay/wz-udprelay.c:518-540 | from asleep with the mutex free, an undisturbed stepwise pass leaves the survivors of the whole list, closes exactly the others, and ends asleep |
| RelayService.FoundIff | src/wz-udprelay/wz-udprelay.c:392-404 | the place a lookup stops at is the map's session of the 4-tuple |
| RelayService.PacketForSession | src/wz-udprelay/wz-udprelay.c:507-509 | a packet whose 4-tuple has a session is, undisturbed, stored to it, which is stamped, and nothing else changes |
| RelayService.PacketForNew | src/wz-udprelay/wz-udprelay.c:470-509 | otherwise, the connection succeeding, a new session is opened first in the list and gets the payload; a list of 512 loses its victim |
| RelayService.ConnectionFails | src/wz-udprelay/wz-udprelay.c:434-451 | a connection that fails changes nothing |
| RelayService.ClosedGetsNothing | src/wz-udprelay/wz-udprelay.c:508-509 | a session seen closed gets no payload |
| RelayEviction.CandidateStays | src/wz-udprelay/wz-udprelay.c:409-411 | under every step of every thread, replies that write `last` included, the candidate of the search stays no younger than what was visited since the last reply to a candidate |
| RelayEviction.EvictsOldestIff | src/wz-udprelay/wz-udprelay.c:406-418 | in every run whose clock does not turn back, the session evicted has a least `last` of all listed if and only if it has a least one of those visited before the last reply to a candidate |
| RelayEviction.CalmEvictsOldest | src/wz-udprelay/wz-udprelay.c:406-418 | so a search whose candidates get no reply always evicts a least recently used session |
| RelayEviction.RestOfWalk | src/wz-udprelay/wz-udprelay.c:410-411 | the search, resumed anywhere, ends with a least stamp of its candidate and the nodes not yet visited |
| RelayEviction.ReplyEvictsOldestIff | src/wz-udprelay/wz-udprelay.c:380-411 | after one reply to the candidate, the otherwise undisturbed search evicts a least recently used session if and only if some session still in play is as old as every session passed and let go |
| RelayEviction.ReplyMisleads | src/wz-udprelay/wz-udprelay.c:380-380 | a reply to the candidate can make the search evict the last session although an older one was passed |
| RelayMisled.OpenedReachable | src/wz-udprelay/wz-udprelay.c:470-509 | from the start, 512 sessions can be opened one after the other |
| RelayMisled.MisledReachable | src/wz-udprelay/wz-udprelay.c:406-418 | a run from the start, its clock never turning back, in which the search ends at a session that is not a least recently used one |
| RelayReaping.PassInvariant | src/wz-udprelay/wz-udprelay.c:521-539 | at every moment of a pass, whatever other threads do, the list is what was visited and left followed by what is still to be visited |
| RelayReaping.MutexTaken | src/wz-udprelay/wz-udprelay.c:519-521 | only the reaper's own step starts a pass, at the first session |
| RelayReaping.PassTakesReapable | src/wz-udprelay/wz-udprelay.c:520-540 | in every interleaving, from the step that takes the mutex to the one that frees it, a pass visits each session listed then exactly once, the first included, in order, and ends with those that were not reapable when visited |
| RelayReaping.LeftExact | src/wz-udprelay/wz-udprelay.c:524-537 | a session is left if and only if its visit found it not reapable |
| RelayDelivery.ReaderMovesOn | src/wz-udprelay/wz-udprelay.c:470-509 | the reader keeps the 4-tuple it read until it stores to a session with that 4-tuple or gives up |
| RelayDelivery.ReaderKeepsKeys | src/wz-udprelay/wz-udprelay.c:428-509 | a step of the reader changes no session's 4-tuple and adds at most one session |
| RelayDelivery.NextKeeps | src/wz-udprelay/wz-udprelay.c:289-543 | every step of registry and queues together keeps each queue accounted for, holding only payloads of its own 4-tuple in order of arrival |
| RelayDelivery.DeliveredInOrder | src/wz-udprelay/wz-udprelay.c:486-512 | in every interleaving, what a session's worker takes is an in-order subsequence of the payloads that arrived from the TUN with its 4-tuple |
| RelayDelivery.ArrivalStored | src/wz-udprelay/wz-udprelay.c:486-512 | an arrival that nothing disturbs is stored to the one queue of its 4-tuple, which a new session gets if there was none, and to no other |
| RelayDelivery.TakesOldest | src/wz-udprelay/wz-udprelay.c:366-366 | a worker that takes gets the oldest payload waiting for its session |
| Text.SplitJoinIff | src/strategy.py:77-77 | splitting recovers joined parts, or even their number, exactly when no part holds the separator |
| Strategy.SplitProfiles | src/strategy.py:31-36 | the loop at `--new` splits the list |
| Strategy.ReadOptions | src/strategy.py:45-60 | last option wins, modes add up; fails exactly on an unknown `--dpi-desync*` option, with the first of them |
| Strategy.CompileMode | src/strategy.py:64-81 | the text of one mode, or the error that belongs to it |
| Strategy.CompileProfile | src/strategy.py:45-81 | succeeds exactly on convertible profiles with their translation; otherwise gives the first error |
| Strategy.CompileProfiles | src/strategy.py:37-82 | skips profiles without filters and joins the others with `--new`; the first profile that cannot be converted decides the error |
| Strategy.NativeOptions | src/strategy.py:8-82 | accepts exactly the lists whose kept legacy profiles can be converted, and returns the compiled or the passed-through list |
| Strategy.ErrorUnique | src/strategy.py:59-81 | the error so described is unique, and excludes acceptance |
| StrategyLaws.ConvertibleIff | src/strategy.py:49-81 | a profile can be converted exactly when its options are the four known ones, its modes the six known ones and, if it sends fakes, its foolings the three known ones |
| StrategyLaws.PassesThroughIff | src/strategy.py:19-22 | the first branch is taken exactly with a native option in the list or no legacy one |
| StrategyLaws.PassedThrough | src/strategy.py:22-29 | then the list comes back behind one filter, if the protocol is named and the list has none |
| StrategyLaws.FilterForIff | src/strategy.py:25-27 | which protocols get the QUIC, the HTTP and the TLS filter |
| StrategyLaws.LastPartOf | src/strategy.py:68-68 | a fake split uses the position after the last comma |
| StrategyMeaning.OneMoreToken | src/strategy.py:45-60 | what one more token does to the options of a profile: repeats, position and fooling are overwritten, modes added |
| StrategyMeaning.NoOptions | src/strategy.py:45-48 | without options: no mode, position 2, one repeat, no fooling |
| StrategyMeaning.TrafficImplied | src/strategy.py:42-44 | the payload and the fakes follow from the kept tokens: QUIC with a `--filter-udp=`, else HTTP with `--filter-tcp=80`, else TLS |
| StrategyMeaning.ModePreservedIff | src/strategy.py:64-79 | one mode reads back as the action it asks for if and only if no value it copies holds a colon |
| StrategyMeaning.CompiledParts | src/strategy.py:38-79 | a compiled profile reads back as its filters, its payload and one action per mode |
| StrategyMeaning.ProfilePreservedIff | src/strategy.py:38-81 | a compiled profile means what the legacy profile means if and only if no value its modes copy holds a colon |
| StrategyMeaning.CompiledSplits | src/strategy.py:61-63 | the output splits at `--new` into exactly the compiled profiles |
| StrategyMeaning.MeaningPreservedIff | src/strategy.py:30-82 | the same for whole command lines: profiles in order, filters, implied payload, actions with last-wins values |
| StrategyMeaning.ColonIsLost | src/strategy.py:78-79 | `--filter-tcp=443 --dpi-desync=split --dpi-desync-split-pos=1:2` is accepted and does not keep its meaning |
| StrategyMeaning.NoLegacyLeft | src/strategy.py:38-82 | no `--dpi-desync*` token is in the output of the legacy branch |
| StrategyMeaning.FilterOptionsKept | src/strategy.py:38-63 | the legacy branch neither adds nor loses `--filter-` options |
| StrategyMeaning.OutputIff | src/strategy.py:37-41 | the legacy branch produces output if and only if some token is neither a legacy option nor `--new` |
| StrategyMeaning.NormalFormIff | src/strategy.py:8-82 | the output is accepted again, and a second run changes nothing unless the legacy branch meets such a token, a named protocol and no `--filter-` option: if and only if |
| StrategyMeaning.SecondRunAddsFilter | src/strategy.py:24-28 | `--dpi-desync=fake --foo` for QUIC is changed by a second run |
| StrategyMeaning.UnknownModeRefused | src/strategy.py:80-81 | `--filter-tcp=443 --dpi-desync=bogus` is not accepted |
| StrategyMeaning.PassThroughKeeps | src/strategy.py:22-29 | the pass-through branch leads to itself and is idempotent |
| Shlex.SplitOfJoined | src/blockcheck.py:679-689 | joining tokens that hold no shlex space, quote or backslash and are not empty is undone by `shlex.split` |
| Shlex.LexWeight | src/blockcheck.py:679-679 | a text of n characters yields at most n + 1 characters and tokens, and that many only from shell-plain tokens |
| Shlex.SplitOfJoinedIff | src/blockcheck.py:689-689 | joined tokens split into themselves if and only if all of them are shell-plain |
| Shlex.SplitOfUnquoted | src/blockcheck.py:689-689 | joined tokens without quotes and backslashes are read as their pieces between spaces |
| Shlex.PlainIsShellPlain | src/blockcheck.py:679-711 | what `str.split` leaves whole, `shlex.split` leaves whole |
| Shlex.WordsOfJoined | src/blockcheck.py:707-711 | a text joined from tokens without whitespace, quotes or backslashes is its own whitespace normalisation |
| Shlex.SpacesAre | src/blockcheck.py:711-711 | the characters `str.split` breaks at |
| Shlex.QuotingIsLost | src/blockcheck.py:689-689 | a quoted token with a space falls apart once joined |
| ShlexQuoting.SplitOfWords | src/blockcheck.py:679-679 | words written with any mixture of bare text, quotes and escapes are read as what they stand for |
| ShlexQuoting.UnclosedRefused | src/blockcheck.py:680-681 | a quotation never closed, or a backslash at the end, refuses the whole text |
| StrategyArgs.CheckArgs | src/strategy.py:88-91 | the loop finds the first argument that is refused |
| StrategyArgs.DisableReasm | src/strategy.py:101-106 | succeeds exactly on well-formed payload names, else names the first bad one |
| StrategyArgs.StrategyArgs | src/strategy.py:85-112 | renders exactly the entries that pass every check, with the decorated list; otherwise the first failing check gives the error |
| StrategyArgs.RenderErrorUnique | src/strategy.py:85-112 | the error so described is unique, and excludes rendering |
| StrategyArgs.RenderingIsGood | src/strategy.py:88-112 | nothing in the finished list, decorations included, is an option that validation refuses |
| StrategyArgs.ReasmReplaced | src/strategy.py:107-107 | with `no_reasm`, the `--reasm-disable=` options in the list are the entry's payloads and no older ones |
| StrategyArgs.RenderingAllowed | src/strategy.py:88-91 | every argument handed on has no NUL, starts with two dashes and is none of the eight denied options |
| StrategyArgs.LuaOptPreferred | src/strategy.py:86-86 | a `lua_opt` text is used in place of `nfqws_opt` |
| StrategyArgs.OneMoreScript | src/strategy.py:109-112 | one more script renders exactly if it is an absolute path without NUL, behind the other scripts and before everything else |
| StrategyArgs.OnePayload | src/strategy.py:100-107 | `no_reasm` with one payload renders exactly for a name of small letters, digits and underscores, and replaces the older reassembly options |
| StrategyArgs.DefaultPayload | src/strategy.py:101-101 | without a payload list, `tls_client_hello` is disabled |
| FreshIds.DecValue | src/blockcheck.py:739-739 | decimal text determines its number |
| FreshIds.DecDigits | src/blockcheck.py:739-739 | and is written in digits, without leading zeros |
| FreshIds.CandidateInjective | src/blockcheck.py:735-739 | the candidates stem, stem_2, stem_3, ... are pairwise different |
| FreshIds.WalkBounded | src/blockcheck.py:737-739 | the search passes at most as many candidates as there are known ids |
| FreshIds.FirstFreeUnique | src/blockcheck.py:737-739 | the first free candidate is determined |
| FreshIds.FindFreshId | src/blockcheck.py:736-739 | the loop terminates with the first free candidate |
| ImportPlan.Validate | src/blockcheck.py:676-689 | succeeds exactly on non-empty lists of valid tokens, with the tokens joined by spaces |
| ImportPlan.ValidateArgs | src/blockcheck.py:676-689 | the loop finds that verdict and the first token's reason |
| ImportPlan.RefusedBecause | src/blockcheck.py:678-688 | a text is refused because shlex cannot split it, because it is empty, or for its first unusable token, with that token's reason |
| ImportLaws.ValidIff | src/blockcheck.py:670-688 | a list of tokens is valid exactly when it is not empty and every token has two dashes, no NUL, and none of the twelve forbidden names |
| ImportPlan.CollectKnown | src/blockcheck.py:708-713 | the normalised texts and the ids of the catalog |
| ImportPlan.ConsiderRow | src/blockcheck.py:719-776 | the loop body is one row of the plan |
| ImportPlan.PlanImport | src/blockcheck.py:698-777 | the nested loops compute the plan of all rows in order |
| ImportPlan.GreedyUnique | src/blockcheck.py:700-704 | valid, new, not chosen before, cap not full: these conditions leave one choice of rows |
| ImportPlan.GreedyBitsGreedy | src/blockcheck.py:700-704 | and there is one |
| ImportPlan.ConsiderTracks | src/blockcheck.py:719-776 | one turn accepts exactly the rows that go in, keeping known texts, ids and counters true to the rows selected; a refused row gets the reason it failed first |
| ImportPlan.PlanIsGreedy | src/blockcheck.py:698-777 | entries are made from the selected rows in order; texts are distinct and new, ids too, no protocol exceeds a non-zero cap, and every row is accounted for |
| ImportPlan.PlanSkips | src/blockcheck.py:722-734 | the skipped list reports exactly the rows not selected, in order, each with the condition it failed first at that point |
| ImportLaws.SlugOfWord | src/blockcheck.py:509-510 | a short text of small letters and digits is its own slug |
| ImportLaws.SlugOfTwoWords | src/blockcheck.py:509-510 | anything else between two words becomes one underscore, and at the ends nothing |
| ImportLaws.SlugOfNothing | src/blockcheck.py:509-510 | a text without letters and digits has the slug x |
| ImportLaws.SlugIgnoresCase | src/blockcheck.py:509-510 | capitals count as small letters |
| ImportLaws.SlugCharIs | src/blockcheck.py:510-510 | a slug keeps small letters and digits |
| ImportLaws.StemOfWords | src/blockcheck.py:735-735 | an id starts with prefix, domain and protocol |
| ImportLaws.StemDefaults | src/blockcheck.py:706-720 | what stands in for a missing prefix or protocol |
| ImportLaws.EntryHolds | src/blockcheck.py:740-772 | the fields of an imported entry, and when it is marked as native and as not to be reassembled |
| ImportLaws.MergeReplaces | src/blockcheck.py:780-787 | merging takes out exactly the entries that share an id with a new one, and puts the new ones at the end |
| ImportRounds.MergeAppends | src/blockcheck.py:780-787 | merging a plan replaces nothing: it appends |
| ImportRounds.PlainIsNormal | src/blockcheck.py:707-711 | tokens without whitespace, quotes or backslashes give normal rows |
| ImportRounds.RoundShrinks | src/blockcheck.py:698-787 | one round takes exactly the accepted strings out of the missing ones, one per entry |
| ImportRounds.EmptyWhenDrained | src/blockcheck.py:722-734 | for any cap the settings allow, a plan is empty if and only if no valid string is missing |
| ImportRounds.CutOrTaken | src/blockcheck.py:731-734 | every valid string is known or selected unless the cap cut a row |
| ImportRounds.OneRoundSuffices | src/blockcheck.py:698-787 | one round drains the result when nothing was cut |
| ImportRounds.RoundsDrain | src/blockcheck.py:698-787 | as many rounds as strings are missing drain it, and plans are empty from then on |
| ImportRounds.ReimportedIff | src/blockcheck.py:707-730 | a new row is recognised after its import if and only if its text is its own normalisation |
| ImportRounds.TwoSpacesReimported | src/blockcheck.py:707-730 | the quoted token `'--a  b'`, with two spaces, is imported again |
| ImportRender.NativeGood | src/strategy.py:8-82 | from valid tokens `native_options` emits nothing that `strategy_args` refuses |
| ImportRender.NativeGoodIff | src/strategy.py:8-91 | of accepted tokens without NUL, the output passes validation if and only if the input does |
| ImportRender.ValidIsGood | src/blockcheck.py:670-673 | what the planner lets through is allowed by the renderer |
| ImportRender.ImportedReadsBackIff | src/blockcheck.py:676-689 | for every valid row, the imported entry is read back as the validated tokens if and only if they are shell-plain |
| ImportRender.ImportedRendersIff | src/strategy.py:85-112 | for every valid row, the imported entry renders if and only if its joined text splits into tokens that `native_options` accepts and validation passes |
| ImportRender.PlainRendersIff | src/blockcheck.py:740-772 | from shell-plain tokens, that is if and only if `native_options` accepts them; always when they hold a native option or no legacy one |
| ImportRender.UnquotedRendersIff | src/strategy.py:85-112 | from tokens without quotes and backslashes, it renders if and only if their pieces between spaces are accepted and allowed |
| ImportRender.UnknownModeFails | src/strategy.py:80-81 | shell-plain valid tokens with an unknown mode are imported as an entry that does not render |
| ImportRender.ImportedRendering | src/strategy.py:85-112 | when they hold a native option or no legacy one, the rendering is an optional filter, the same tokens in order, and with `no_reasm` the reassembly option instead of older ones |
| ImportRender.QuotedImportFails | src/blockcheck.py:676-689 | a quoted token with a space is imported as an entry that never renders |
| Sorting.SortSorted | src/blockcheck.py:646-651 | the sort is sorted under any total preorder |
| Sorting.SortFilter | src/blockcheck.py:646-651 | sorting commutes with filtering |
| Sorting.SortStable | src/blockcheck.py:646-651 | elements that compare equal keep their order |
| Sorting.StableSortUnique | src/blockcheck.py:646-651 | sorted and stable determine the result, so it is the list Python's sort returns |
| Selection.FilterReasonTrusts | src/blockcheck.py:620-641 | no reason is given exactly to working rows that pass the mirage and volume tests |
| Selection.ReasonsAreRight | src/blockcheck.py:627-640 | each reason is given to the rows it speaks of |
| Selection.RankIsPreorder | src/blockcheck.py:646-651 | the ranking key is a total preorder |
| Selection.RankIsKeyOrder | src/blockcheck.py:646-651 | it is the order of the key tuple, compared by first difference |
| Selection.RefusalsAreFailing | src/blockcheck.py:654-663 | the refused rows are the failing ones in order, each with its own reason |
| Selection.SelectWorking | src/blockcheck.py:654-663 | the loop splits the ranked rows into passing and refused |
| Selection.SelectionCommutes | src/blockcheck.py:654-663 | accepted rows are the stable rank of just the rows that pass |
| Selection.SelectionPartitions | src/blockcheck.py:654-663 | accepted and refused together are the input, each row once |
| Selection.RaisingMinShare | src/blockcheck.py:633-640 | raising `min_share` gives an in-order subsequence of the accepted list |
| Selection.BestFirst | src/blockcheck.py:644-651 | no accepted row outranks the first |
| LogMerge.CollectFile | src/panel/panel.py:234-240 | every line gets the last time stamp seen in its file |
| LogMerge.OwnStampIff | src/panel/panel.py:189-189 | a line has a stamp exactly when it starts with it in brackets |
| LogMerge.StampLayout | src/panel/panel.py:189-189 | a stamp is digits with T, Z, dashes and colons in their places |
| LogMerge.CollectedEntries | src/panel/panel.py:217-243 | all files collected in module order, then sorted |
| LogMerge.MergeIsSortedPermutation | src/panel/panel.py:242-243 | the merge is sorted and a permutation of all tagged lines |
| LogMerge.MergeOrder | src/panel/panel.py:242-242 | earlier stamps first, then earlier modules, then earlier lines |
| LogMerge.MergedTexts | src/panel/panel.py:239-240 | every entry is a line of its module, tagged with the module's name except in the log of actions |
| LogMerge.FileOrderIff | src/panel/panel.py:217-243 | a module keeps its file order in the merge if and only if its stamps never go backwards |
| LogMerge.BackwardStampsSwap | src/panel/panel.py:242-242 | two lines whose stamps go backwards lose their file order |
| LogMerge.MergedDistinct | src/panel/panel.py:233-243 | no entry appears twice |
| LogMerge.ContinuationFollows | src/panel/panel.py:217-243 | a line without its own stamp comes immediately after its file predecessor, even when stamps go backwards |
| Schedule.IntervalIsFirst | src/blockcheck.py:420-427 | after a run, the interval target is the first whole number of steps on that lies after now |
| Schedule.AdvanceTarget | src/blockcheck.py:424-427 | the loop terminates with that target |
| Schedule.SearchFinds | src/blockcheck.py:434-443 | the search over days ends at the first day that fits, when one of them does |
| Schedule.NextSlotIsLeast | src/blockcheck.py:429-444 | for a valid schedule the nine days suffice, and the result is the least allowed slot after the anchor, at most seven days on |
| Schedule.SlotShowsTime | src/blockcheck.py:435-441 | an instant is a slot exactly when the local clock shows the configured hour and minute, no seconds, on an allowed weekday |
| Schedule.WeekdaysFollow | src/blockcheck.py:441-441 | the epoch was a Thursday and weekdays follow each other |
| Schedule.SearchDays | src/blockcheck.py:433-444 | the loop, comparing whole seconds with a fractional anchor, computes that search |
| Schedule.NextRun | src/blockcheck.py:404-444 | the whole function, with its disabled and invalid cases |
| Schedule.NoNextRunIff | src/blockcheck.py:417-430 | there is no next run exactly for a disabled schedule, or one that needs a time and has none |
| Schedule.NextRunIsLater | src/blockcheck.py:404-444 | a next run exists for every valid enabled schedule, never before now, and lies after now and after the previous run |
| Schedule.NextRunIsLeast | src/blockcheck.py:429-444 | daily and weekly: the least instant after max(now, last run) with the right time and weekday |
| SchedulerLoop.Scheduler.Turn | src/panel/panel.py:1004-1035 | one turn of the thread on its stored state |
| SchedulerLoop.Scheduler.Rearm | src/panel/panel.py:1251-1258 | a save forgets the stored slot and keeps the last run |
| SchedulerLoop.RunKeeps | src/panel/panel.py:1004-1035 | the invariant on stored state and fires holds over every run |
| SchedulerLoop.SlotsIncrease | src/panel/panel.py:1026-1029 | nothing fires early, slots strictly increase, and a later slot lies after the tick of an earlier fire, so an outage causes one catch-up run |
| SchedulerLoop.RearmedLater | src/panel/panel.py:1026-1029 | the slot armed by a fire lies after that tick |
| SchedulerLoop.FixedIntervalSpan | src/panel/panel.py:1004-1035 | under a fixed interval, any two fires lie whole steps apart, fire j at least j - i steps after fire i |
| SchedulerLoop.DailySlotFiredIff | src/panel/panel.py:1015-1029 | under a daily or weekly schedule, a slot other than the epoch fires if and only if two successive ticks with no save between them enclose it and it is the first slot after the earlier one; all others are skipped |
| IntervalRuns.PeriodicNext | src/blockcheck.py:420-427 | an interval schedule: one delay on without a previous run, the next step after it otherwise |
| IntervalRuns.PeriodicFires | src/panel/panel.py:1015-1029 | over every run under an enabled interval schedule, the fires are exactly the ones planned from ticks, saves, `run_on_start` and the step alone |
| IntervalRuns.ArmedSlotFires | src/panel/panel.py:1024-1029 | a tick at or after a slot armed by an earlier tick, no save between them, fires it |
| IntervalRuns.DisabledFiresNothing | src/panel/panel.py:1015-1019 | a tick under a disabled schedule forgets the armed slot and fires nothing |
| RunBudget.RunDomain | src/blockcheck.py:896-935 | the loop body is one turn of the run |
| RunBudget.Run | src/blockcheck.py:864-943 | the loop and the summary flags |
| RunBudget.DeadlineBound | src/blockcheck.py:871-935 | n domains end by `job_timeout` + 5(2n - 1) seconds, whatever fails |
| RunBudget.DeadlineTight | src/blockcheck.py:901-923 | and that bound is reached, for every n |
| RunBudget.TurnRecord | src/blockcheck.py:896-935 | a turn adds one record, which lists working rows only after two successful steps and only rows that pass the filter |
| RunBudget.OneRecordEach | src/blockcheck.py:896-935 | one record per planned domain, in order |
| RunReports.SelectionLists | src/blockcheck.py:654-663 | the accepted rows are exactly the trusted ones, each as often as checked, in rank order; the others carry their reasons |
| RunReports.TurnReports | src/blockcheck.py:896-935 | what one turn reports: the codes, 124 for a step that is stopped, the error that is added, the counts, the trusted rows and the first hundred others |
| RunReports.EachReported | src/blockcheck.py:896-935 | record i of a run reports domain i |
| RunReports.SuccessIff | src/blockcheck.py:937-938 | a run succeeds exactly when some domain has both steps succeed within their budgets and a trusted row; it is ok exactly when some scan succeeds |
| CatalogRuns.ImportedIs | src/panel/panel.py:561-607 | importing item by item equals dropping the entries with the batch's ids and appending the batch in ranked order |
| CatalogRuns.ImportedTwice | src/panel/panel.py:551-607 | repeating the same dated import changes no modelled field of the catalog |
| CatalogRuns.ReplaceKeeps | src/panel/panel.py:604-607 | replacing one id keeps ids unique, `none` in place and the active id listed |
| CatalogRuns.BcwKeeps | src/blockcheck.py:735-787 | so does importing and merging a plan |
| CatalogRuns.FilterOther | src/panel/panel.py:671-672 | removing an id removes nothing else |
| CatalogRuns.CatalogSafety | src/panel/panel.py:153-163 | over every sequence of imports, deletions and switches, ids stay unique, `none` survives unchanged, and the active id stays in the catalog |
| CatalogLaws.BetterFirst | src/panel/panel.py:548-550 | higher success rates first, then lower latencies |
| CatalogLaws.RankedItems | src/panel/panel.py:547-550 | all items, best first, equal ones as posted |
| CatalogLaws.ImportableIff | src/panel/panel.py:566-568 | an item is refused exactly when its text is blank or cannot be split |
| CatalogLaws.ItemEntryHolds | src/panel/panel.py:562-601 | the fields of the entry of an item |
| CatalogLaws.JsonImportEffect | src/panel/panel.py:534-616 | a JSON import puts the entry of every item at the end, best first, and keeps entries with other ids, or changes nothing |
| CatalogLaws.IdBaseIs | src/panel/panel.py:552-554 | its ids: custom, the domain, and the date without dashes |
| CatalogLaws.IdBaseCut | src/panel/panel.py:552-552 | of a long domain the first twenty characters count |
| CatalogLaws.IdBaseDefaults | src/panel/panel.py:541-553 | what stands in for a missing domain or date |
| CatalogLaws.DeletionEffect | src/panel/panel.py:662-677 | a deletion takes out exactly the entry, unless its id is unknown, none, or active |
| CatalogLaws.SwitchEffect | src/wz-apply.sh:45-66 | a switch to a listed strategy that comes up makes it active; any other changes nothing |
| CatalogLaws.SelectionEffect | src/panel/panel.py:982-989 | an import of a plan appends all its entries |
| CatalogRuns.Panel.ImportSelection | src/panel/panel.py:982-989 | plan, merge and store; nothing is written for an empty plan |
| CatalogRuns.Panel.ImportJson | src/panel/panel.py:534-616 | stores the import, or leaves the catalog alone when the list is empty or any item is refused |
| CatalogRuns.Panel.DeleteStrategy | src/panel/panel.py:662-677 | removes exactly a listed, inactive strategy other than `none` |
| CatalogRuns.Panel.SwitchStrategy | src/wz-apply.sh:45-66 | stores a listed id, and puts the old one back when the restart fails |

## Left out

- Sockets, `poll`, TUN ioctls, the SOCKS5 handshake and UDP ASSOCIATE: only the bytes handed over are modelled, and whether a session could be set up is an input of the step.
- File descriptors and memory: `session_close_fds` runs without a lock, and evicted sessions and some queue nodes are not freed; nothing is claimed about release.
- Liveness of the relay: a worker may block in its inner `recv` loop, so only safety and ordering are stated.
- Splitting of the C `Session`: its queue is `PayloadQueue.Queue` and its registry part `SessionList.Session`; the time stamp that `session_enqueue` sets is a step of `RelayMachine`.
- RelayEviction.CalmEvictsOldest: says nothing of which of several equally old sessions goes, because a reply during the search can make two stamps equal.
- CatalogRuns.ImportedTwice: `import_time`, which every import writes afresh, is not modelled.
- Steps of the interleaving: the test of one node (its reads of `closed`, `last` and the key) is one step, and so are the unlink and the close that follow a decision; a worker may run between the test and what follows it, not inside either.
- Shifts and masks are written as division and remainder on bounded integers.
- Input checks the code does not make: UDP length field, fragments, checksums of received packets, and the zero-checksum substitution of RFC 768.
- Catalog fields that no modelled decision reads: name, description, import time, the `bcw` block and original arguments.
- Missing dictionary keys and JSON type coercion: an absent text is the empty string, an absent list the empty list, an absent median share or import domain None, and other defaults are filled in before; `lua_init` that is not a list of strings is not modelled.
- Upper and lower case, digits of time stamps and numbers are ASCII.
- Percentages and texts built into reasons and log lines: reasons are datatypes with the values they mention.
- `float` is real arithmetic without rounding or NaN; epoch seconds are reals.
- Local time is UTC with a fixed offset: no daylight saving. A stored `next_run` of 0 counts as absent, as in the code.
- Schedule normalisation (`normalize_schedule`) is the predicate `ValidSchedule`, and saves of schedules with errors, which store nothing, are no steps.
- Time spent outside the two steps of a domain counts as zero in `RunBudget`, and the timeout is assumed to stop a step at its budget.
- ImportRounds.EmptyWhenDrained: stated for caps of 0 or more, because the settings clamp `max_import` to 0..100 (`src/blockcheck.py:96`).
- The filtering and row selection inside `bcw_import` before it calls the planner: its body reads a name it never defines (`src/panel/panel.py:932-943`).
- Job states, cancellation, report parsing, argument vectors, settings tables, tails and export of logs, status pages, HTTP authentication, and races of two HTTP threads on one file.
- Failed file writes: every handler's write succeeds.
