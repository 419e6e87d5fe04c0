# Verified model of an NMDC (Direct Connect) hub

This project models the parts of the hub whose correctness is not obvious from reading one function, and
proves what they promise. Every file is a Dafny module; `dafny verify dfyconfig.toml` checks all of them.

| module | what it models |
|---|---|
| `LockKey`, `LockCollisions` | the `$Lock`/`$Key` handshake on both sides: the client's XOR chain, nibble swap and escaping, and the hub's streaming comparison; which locks share their key with another |
| `Buffers`, `NickLists`, `ListParsing`, `ListRuns` | the byte buffer behind every shared queue, and the operator and user-IP lists that are printed into it piece by piece |
| `FanOut`, `QueueCycle`, `GlobalDataQueues`, `Deliveries` | broadcast fan-out through 144 shared, memoised queues: who may share a queue, the cycle as a state machine, the imperative classes that refine it, and what reaches whom |
| `DeFlood`, `RateLimits`, `RepeatedTexts` | the flood limiter, the repeated-text limiter, the interval limiter and the warning ladder; who is closed; exactly when the limiters keep their rate although the 16-bit counter wraps; and which texts of a run are repetitions |
| `LoginProtocol`, `LoginLoop`, `LoginRounds`, `LoginScenarios`, `LoginRefusals`, `LoginRegistration`, `LoginDeadEnds`, `LoginHub` | the login of any number of interleaved connections: states, nick table, ghosts and clones, passwords; a transition system, the passes of the service loop with their deadlines, over single passes and whole runs, the ways through the login, what each state refuses, how a user comes to be registered, who has a way in left, and objects that refine it |
| `Supports`, `SupportsRules` | feature negotiation: in-place parsing of `$Supports`, what is taken and what it means, and the hub's answer |
| `BruteForce` | the table of wrong passwords per address |
| `CountryTable`, `CountryCsv`, `CsvReload`, `IpToCountry`, `CountryFiles` | the country index: scan and search, the CSV loader, what a reload shows of the old table, the class with both lookups, and what is found after a file of ranges was loaded |
| `RotatingLog` | the rotating log sink and its generation files |
| `RegUserSplit` | splitting the arguments of the command that registers a user |
| `Sequences`, `Decimals`, `Options` | shared facts about sequences; decimal numerals; optional values |

The recurring pattern: the behaviour is a function or a transition system on values; theorems about all
inputs or all runs are lemmas about it; and the imperative code, with its fields, lists, buffers and loops,
is a method or a class whose `ensures` equates the new state with that function of the old one.

Where a promise fails, the code is modelled as it is, an input that shows the failure is given, and the
exact condition under which the promise holds is proved:

* The slot index of the fan-out is not injective: the two mixed dual-stack search classes carry into the
  next digit, and ExtJSON support is not part of it. Sharing is right for all traffic that the buffers keep
  if and only if no two users of a cycle clash in one of these ways (`FanOut.SharingIsRightExactly`,
  `FanOut.ClashExactly`).
* The queue buffer asks `capacity()` but grows with `resize()`, which carries over only `size()` bytes. With
  a growth policy that leaves spare capacity, bytes are lost (`Buffers.DoublingLosesBytes`); the buffer is
  right if and only if no append grows a vector that holds something beyond its size
  (`Buffers.RunContent`). So a slot is the direct filter (`FanOut.FilledIsDirectExactly`), and every user of a
  run without clashes reads its own (`QueueCycle.RunsReadRight`), if and only if no slot is filled that way.
* The two login lists have the same growth, and print without checking that the text fits: a first nick of
  more than 244 bytes is cut, which a maximum nick length of 0 admits; a second user-IP entry needs one byte
  more than is reserved (`NickLists.SecondEntryFits`). Over every run, for every growth policy and nicks of
  any length, the lists are the printed ones throughout if and only if every store fits
  (`ListRuns.RunLists`). With nicks of at most 64 bytes they fit if the capacity follows the size
  (`ListRuns.OrdinaryFit`), and the eighth operator spoils the list if the vector doubles
  (`ListRuns.DoublingCutsList`).
* With action 1 the 16-bit counter of the flood limiter wraps, and that of the interval limiter wraps for
  everybody. The rate bound holds in every run of at most k calls if and only if k is at most 65537 + N, or
  131072 if N or T is 1 (`RateLimits.FloodRunThreshold`, `RateLimits.IntervalRunThreshold`), and in every interval with
  at most m calls, over runs of any length, if and only if m is at most 65536 + N, or again 131072
  (`RateLimits.FloodThreshold`, `RateLimits.IntervalThreshold`).
* The repeated-text limiter moves its counter twice at a warning. The warning ladder holds if and only if the
  limit is at least two repetitions (`DeFlood.SameLadderExactly`); with a limit of one it warns once and not
  again until the counter wraps, which is one warning in 65535 repetitions (`DeFlood.SameSingle`). Which texts
  are rejected is exact over every run where the counter is steady, and for 65535 calls where it is not
  (`RepeatedTexts.RejectedExactly`); with action 1 the 65536th of as many equal texts is accepted
  (`RepeatedTexts.WrapLetsPass`).
* 8-bit locks can collide (`LockKey.EightBitLocksCollide`), because the client sends `/` raw although it opens an
  escape. A byte-valued lock shares its key with a different one if and only if, in its chain, an escape could as
  well start or end nine bytes away, or an escape can be read as ten raw bytes, or ten raw bytes as an
  escape, within the 2 to 46 characters that count (`LockCollisions.SharedExactly`); with one of the same length
  if and only if an escape can be shifted, or one of each can be exchanged
  (`LockCollisions.SharedAtLengthExactly`). At least one of the two sends a raw `/`
  (`LockCollisions.SharedMixesSlash`). When the lock can be recovered from its key by an escape-first reader is
  another question (`LockKey.KeyInverts`).
* On a table sorted by start, the binary search gives every key the country that the linear scan gives if
  and only if every overlap of two rows is harmless: it is empty, or covered for both, or of one country
  (`CountryTable.CountriesAgreeExactly`).
* A CSV row whose number does not parse keeps whatever the vector held, so a reload can show a number of the
  old table (`CountryCsv.StaleNumberShows`), and a load the number of a rejected row
  (`CsvReload.RejectedStartShows`). For every file, a reload is free of the old table if and only if both numbers
  of every accepted line parse or were left by a line rejected since the last accepted one
  (`CsvReload.ReloadIsNewExactly`).
* The log keeps everything if and only if there were no more rotations than generations
  (`RotatingLog.LostExactly`).
* Not every connection that is in the login can still get in. A live one can, in some continuation, if and only
  if it is not asked for a password in the state that `$Version` leads to, where no password is taken
  (`LoginDeadEnds.CanGetInExactly`). And while its unregistered nick stays unregistered, it can if and only if it is
  not asked for a password at all before it is in: an operator's offer to register it shuts it out, whether or
  not it has sent `$Version` (`LoginDeadEnds.UnregisteredGetsInExactly`). Both are reached by ordinary logins
  (`LoginDeadEnds.VersionFirst`, `LoginDeadEnds.OfferedEarly`, `LoginDeadEnds.DeadEndsAreReachable`).

Where code and documentation disagree, the code is followed:

* `core/Log.cpp` announces `system.log.1.gz`; `calcFilename` puts the number before the last dot, so the file is
  `system.1.log.gz`.
* The messages of the register command say that nicks and passwords have at most 64 characters; the code
  admits 65 of both (core/HubCommands-AE.cpp, lines 117 and 139).
* Items of the kind `ACTIVE_SEARCH_V64` carry an IPv6 and an IPv4 command; `AddSearchDataToQueue` appends the
  first one for every search class, so the second one is never sent.
* The lookup that returns a country name translates it for addresses found in the IPv4 table only; a hit in the
  IPv6 table is always named in English (`IpToCountry.IpP2Country.FindName`).
* Registered nicks are found without regard to case, the nick table is case sensitive; the model takes "is
  registered" as a map on exact nicks that may contain any spellings.

Standards referred to by the code: 6to4 addresses (section 2 of RFC 3056) and Teredo addresses (section 4 of
RFC 4380).

## Model

| member | source | states |
|---|---|---|
| `LockKey.Lock2Key` | dc_common.py:13-24 | the loop yields the escaped, nibble-swapped XOR chain of the first 46 characters, or an index error for a one-character lock |
| `LockKey.DecodeEscape` | dc_common.py:3-23 | an escaped key reads back uniquely if and only if no raw `/` was sent |
| `LockKey.UnchainChain` | dc_common.py:17-22 | the whole lock is recovered from the bytes of the chain |
| `LockKey.ChainUnchain` | dc_common.py:17-22 | every byte string of length two or more is the chain of some lock |
| `LockKey.SlashFromMix` | dc_common.py:19-22 | a raw `/` arises exactly from an XOR of 0xF2 |
| `LockKey.SevenBitNeverMixesSlash` | dc_common.py:19-22 | no 7-bit lock produces such an XOR |
| `LockKey.KeyInverts` | dc_common.py:13-24 | for byte-valued locks the key gives back the 46 significant characters if and only if no XOR is 0xF2 |
| `LockKey.SevenBitLocksRecovered` | dc_common.py:13-24 | 7-bit locks are recovered, and two of them share a key exactly when their significant characters agree |
| `LockKey.EightBitLocksCollide` | dc_common.py:3-24 | two different 8-bit locks with the same key |
| `LockCollisions.SharedExactly` | dc_common.py:3-24 | a byte-valued lock shares its key with a different one if and only if its chain is ambiguous: an escape can be shifted, read raw, or read where ten raw bytes are, within 2 to 46 bytes |
| `LockCollisions.SharedAtLengthExactly` | dc_common.py:3-24 | and with one of as many significant characters if and only if an escape can be shifted, or the chain has both an escape and ten raw bytes that read as one |
| `LockCollisions.SharedMixesSlash` | dc_common.py:3-24 | of two byte-valued locks with one key at least one sends a raw `/` |
| `LockCollisions.TwinsExactly` | dc_common.py:3-10 | the same for chains of 2 to 46 bytes |
| `LockCollisions.EqualTwinsExactly` | dc_common.py:3-10 | and for chains of one length, whatever it is |
| `LockCollisions.Differ` | dc_common.py:3-10 | of two chains with one key, of which the second is at most 8 bytes longer, the first has an escape to shift or ten raw bytes that read as one |
| `LockKey.NoReservedByteSent` | dc_common.py:3-10 | no key, of any lock, holds an unescaped 0, 5, `$`, backquote, pipe or `~` |
| `LockKey.CodeSpells` | dc_common.py:3-10 | a reserved byte is sent as its own number in three digits between `/%DCN` and `%/` |
| `LockKey.ChainAdds` | dc_common.py:15-22 | the first n bytes of a chain add up, by XOR, to the n-th character, the last two and 5, nibbles swapped |
| `LockKey.KeyAdds` | dc_common.py:15-22 | so all of them add up to the last character but one, with 5 |
| `LockKey.FirstCharactersCount` | dc_common.py:13-16 | characters after the 46th do not count |
| `LockKey.MatchAt` | core/utility.cpp:118-200 | one expected piece matches exactly when it stands at that place of the received C string |
| `LockKey.MatchByte` | core/utility.cpp:118-200 | one round of the comparison, with escapes expanded on the fly |
| `LockKey.VerifyLockKey` | core/utility.cpp:118-200 | the hub accepts exactly the concatenation of the expected pieces, nothing shorter or longer |
| `LockKey.HubAcceptsClientKey` | core/utility.cpp:118-200 | what the hub accepts is what the client computes, and it determines the lock |
| `Buffers.AppendContent` | core/GlobalDataQueue.cpp:1028-1047 | what an append leaves in the buffer: the old bytes plus the new ones, unless it grows a vector whose size was overrun, which replaces the overrun bytes by zeros |
| `Buffers.ExactGrowthAppends` | core/GlobalDataQueue.cpp:1028-1047 | with capacity equal to size nothing is lost |
| `Buffers.RunContent` | core/GlobalDataQueue.cpp:1028-1047 | for every growth policy, every starting buffer and every list of commands: the buffer holds them all if and only if no append grew a vector that held something beyond its size |
| `Buffers.ExactNeverOverruns` | core/GlobalDataQueue.cpp:1028-1047 | exact growth never overruns |
| `Buffers.ShortNeverOverruns` | core/GlobalDataQueue.cpp:1028-1047 | under every policy, commands that fit the first allocation are kept |
| `Buffers.DoublingLosesBytes` | core/GlobalDataQueue.cpp:1028-1047 | four ordinary commands lose bytes when the vector doubles |
| `NickLists.StoreOpPrints` | core/GlobalDataQueue.cpp:113-158 | for every vector and growth policy: appending a nick in place gives the printed longer list, inside the allocation, if and only if a first nick fits and a later one grows no overrun vector |
| `NickLists.FirstOpFits` | core/GlobalDataQueue.cpp:113-135 | the first nick is complete exactly when the allocation has 12 bytes more than the nick |
| `NickLists.StoreIpPrints` | core/GlobalDataQueue.cpp:160-215 | the same for the user-IP list, with the dollars flag set exactly from two entries on |
| `NickLists.SecondEntryFits` | core/GlobalDataQueue.cpp:160-215 | the second entry is complete if and only if one byte more than the code asks for is there: unused, or spared by the growth policy |
| `ListParsing.OpsRoundTrip` | core/GlobalDataQueue.cpp:113-158 | the printed operator list parses back to its nicks |
| `ListParsing.IpsRoundTrip` | core/GlobalDataQueue.cpp:160-215 | the printed user-IP list parses back to its entries, in both forms |
| `ListParsing.ListForms` | core/GlobalDataQueue.cpp:113-215 | what the two lists look like, with one and with two entries |
| `ListRuns.RunLists` | core/GlobalDataQueue.cpp:113-262 | over every run of stores and clearings, nicks of any length, every policy: both buffers are the printed entries since the last clearing at every moment if and only if every store fits |
| `ListRuns.RunReadsBack` | core/GlobalDataQueue.cpp:113-262 | and when every store fits, both read back as exactly those entries |
| `ListRuns.OrdinaryFit` | core/GlobalDataQueue.cpp:113-262 | with nicks of at most 64 bytes and a capacity that follows the size, every store of every run fits |
| `ListRuns.DoublingCutsList` | core/GlobalDataQueue.cpp:136-141 | with a doubling vector operators with nicks of 64 bytes fit if and only if there are fewer than eight |
| `FanOut.SlotIndex` | core/GlobalDataQueue.cpp:276-363 | the slot index is below 144 for every user |
| `FanOut.SlotCollisions` | core/GlobalDataQueue.cpp:276-363 | which two sets of bits share a slot, exactly |
| `FanOut.ProperRadix` | core/GlobalDataQueue.cpp:276-363 | for search offsets up to 12 the index is a proper mixed radix |
| `FanOut.ClashExactly` | core/GlobalDataQueue.cpp:276-390 | two profiles clash exactly when they differ in ExtJSON support only or one carries into the other |
| `FanOut.ProfilesDiffer` | core/GlobalDataQueue.cpp:368-534 | any two different profiles are told apart by some traffic of one byte |
| `FanOut.FilledIsDirectExactly` | core/GlobalDataQueue.cpp:365-534 | a filled slot is the direct filter of its builder if and only if filling it grew no overrun vector |
| `FanOut.KeptWhen` | core/GlobalDataQueue.cpp:1028-1047 | that is so whenever the capacity follows the size, and for anything that fits the first allocation |
| `FanOut.FirstBuilds` | core/GlobalDataQueue.cpp:365-534 | a slot holds what filling it for the first user of the cycle that maps to it gives, under every growth policy |
| `FanOut.NoClashServesRight` | core/GlobalDataQueue.cpp:365-534 | without clashes every user is served its own direct filter, whoever built the slot, if and only if no slot lost bytes while it was filled |
| `FanOut.SharingIsRightExactly` | core/GlobalDataQueue.cpp:273-534 | under every growth policy: sharing is right for all traffic that the buffers keep if and only if no two users of the cycle clash |
| `FanOut.OrdinaryCyclesAreRight` | core/GlobalDataQueue.cpp:273-534 | cycles without mixed dual-stack users and with uniform ExtJSON support are right if and only if the buffers keep them, and always if the capacity follows the size |
| `QueueCycle.ZPipeInverts` | core/ZlibUtility.cpp:102-154 | a compressed block, header stripped, inflates to the original |
| `QueueCycle.BuildKeeps` | core/GlobalDataQueue.cpp:365-534 | building keeps the consistency of slots, created list and compressed copies |
| `QueueCycle.CompressKeeps` | core/GlobalDataQueue.cpp:681-698 | memoised compression keeps it, and compresses a slot at most once |
| `QueueCycle.ProcessKeeps` | core/GlobalDataQueue.cpp:273-702 | so does a whole call |
| `QueueCycle.ClearResets` | core/GlobalDataQueue.cpp:238-262 | after Clear every slot is pristine and the created list is empty |
| `QueueCycle.OneCopyHandedOver` | core/GlobalDataQueue.cpp:536-702 | a call hands over exactly one copy of a non-empty slot, readable as its text, and bytes sent plus bytes saved equal the slot's length |
| `QueueCycle.ProcessFrame` | core/GlobalDataQueue.cpp:273-702 | a call touches only its own slot and never rebuilds a built one |
| `QueueCycle.RunKeeps` | core/GlobalDataQueue.cpp:97-702 | consistency over every run: the created list names exactly the built slots |
| `QueueCycle.EachItemInOneCycle` | core/GlobalDataQueue.cpp:97-109 | over every run the items taken by the cycles, in order, followed by those still waiting, are what was queued: each item in exactly one cycle |
| `QueueCycle.SendRight` | core/GlobalDataQueue.cpp:273-702 | a user without a clash is handed bytes that read as its direct filter if and only if its slot was filled without a loss |
| `QueueCycle.RunsReadRight` | core/GlobalDataQueue.cpp:218-702 | over every alternating run of cycles without clashes, every user reads its direct filter, raw or compressed, if and only if no slot of the run lost bytes while it was filled |
| `QueueCycle.ExactFillsKept` | core/GlobalDataQueue.cpp:1028-1047 | if the capacity follows the size, no slot of any run loses bytes |
| `QueueCycle.CyclesDeliverAll` | core/GlobalDataQueue.cpp:218-534 | filtering cycle by cycle loses, repeats and reorders nothing |
| `QueueCycle.RunDelivers` | core/GlobalDataQueue.cpp:97-702 | the bytes a user is handed over a whole run: in each cycle its part of the items and then the lists; all parts in order, with what it is owed of the waiting items, are the filter of everything queued |
| `Deliveries.ForEverybody` | core/GlobalDataQueue.cpp:505-516 | chat, hub name, quit and script items are for every user, in full |
| `Deliveries.ByFeature` | core/GlobalDataQueue.cpp:376-439 | hellos, ExtJSON, infos and operator items by the features and rights of the user alone |
| `Deliveries.ByConnection` | core/GlobalDataQueue.cpp:280-504 | each of the eight kinds of searches reaches a user exactly by its share and its connections |
| `Deliveries.ItemStands` | core/GlobalDataQueue.cpp:365-534 | an item's bytes stand between those of the items before it and those of the rest |
| `Deliveries.ListsStand` | core/GlobalDataQueue.cpp:521-529 | the operator list comes after all items, and then the user-IP list for those who get it |
| `Deliveries.PartIsRead` | core/GlobalDataQueue.cpp:218-702 | over every clash-free run without a loss, whoever is served reads its part of every item of the cycle where it belongs, compressed or not |
| `Deliveries.EverybodyReads` | core/GlobalDataQueue.cpp:218-702 | so every chat, hub name, quit and script item stands in full in what every served user reads |
| `Deliveries.FlagExactly` | core/GlobalDataQueue.cpp:218-262 | over every alternating run the flag for the service loop is set if and only if a cycle with something to send is under way |
| `Deliveries.NothingMissed` | core/serviceLoop.cpp:988-1003 | so a loop that serves nobody while it is down keeps nothing from anybody |
| `Deliveries.ZPipeExactly` | core/ZlibUtility.cpp:102-154 | when there is a compressed copy: for at least 128 bytes that deflate to something shorter, header included |
| `Deliveries.CompressedExactly` | core/GlobalDataQueue.cpp:553-702 | a user is sent the compressed copy if and only if it takes one, there is one, and it is no longer than the raw one would be without the user's own searches, of which too many count as none |
| `Deliveries.PendingSearches` | core/GlobalDataQueue.cpp:536-680 | which of its own searches a call cuts out of a raw copy, and which it leaves with the user |
| `Deliveries.CutOut` | core/GlobalDataQueue.cpp:600-630 | the cut takes out the first copy of a search and nothing else |
| `GlobalDataQueues.GlobalQueue.AddDataToQueue` | core/GlobalDataQueue.cpp:1028-1047 | the in-place append under every growth policy, and exactly when it keeps what was there |
| `GlobalDataQueues.GlobalQueue.CreateZPipe` | core/ZlibUtility.cpp:102-154 | compresses into the slot's own buffer |
| `GlobalDataQueues.GlobalQueue.Reset` | core/GlobalDataQueue.cpp:238-252 | makes a slot pristine |
| `GlobalDataQueues.OpsQueue.Store` | core/GlobalDataQueue.cpp:113-158 | the in-place operator list refines `StoreOp`; a complete list stays complete if and only if the nick fits |
| `GlobalDataQueues.IPsQueue.Store` | core/GlobalDataQueue.cpp:160-215 | the in-place user-IP list refines `StoreIp`; a complete list stays complete if and only if the entry fits |
| `GlobalDataQueues.ResetAll` | core/GlobalDataQueue.cpp:240-252 | resets exactly the created slots |
| `GlobalDataQueues.GlobalDataQueue.AddQueueItem` | core/GlobalDataQueue.cpp:97-111 | one step of the machine: the item waits at the end of the list |
| `GlobalDataQueues.GlobalDataQueue.OpListStore` | core/GlobalDataQueue.cpp:113-158 | the list of the machine is what the buffer holds, and the printed one if and only if every nick fitted |
| `GlobalDataQueues.GlobalDataQueue.UserIPStore` | core/GlobalDataQueue.cpp:160-215 | the same for the user-IP list |
| `GlobalDataQueues.GlobalDataQueue.PrepareQueueItems` | core/GlobalDataQueue.cpp:218-236 | the waiting items become the cycle's items |
| `GlobalDataQueues.GlobalDataQueue.ClearQueues` | core/GlobalDataQueue.cpp:238-262 | every created slot is reset, lists and created list are emptied |
| `GlobalDataQueues.GlobalDataQueue.AddItem` | core/GlobalDataQueue.cpp:368-520 | appends to the slot's buffer exactly what the profile wants of one item |
| `GlobalDataQueues.GlobalDataQueue.Decide` | core/GlobalDataQueue.cpp:368-520 | the filter switch agrees with the profile's wishes for every command and search class |
| `GlobalDataQueues.GlobalDataQueue.BuildQueue` | core/GlobalDataQueue.cpp:365-534 | the building loop and the two lists fill the slot as the machine does, under every growth policy |
| `GlobalDataQueues.GlobalDataQueue.SearchType` | core/GlobalDataQueue.cpp:284-344 | the search class and its offset |
| `GlobalDataQueues.GlobalDataQueue.QueueType` | core/GlobalDataQueue.cpp:275-363 | the accumulated index is the slot index of the accumulated bits |
| `GlobalDataQueues.GlobalDataQueue.CompressOnce` | core/GlobalDataQueue.cpp:567-575 | compression is computed once and reused |
| `GlobalDataQueues.GlobalDataQueue.HandOver` | core/GlobalDataQueue.cpp:536-702 | one copy, compressed if it pays, otherwise raw without the user's own searches |
| `GlobalDataQueues.GlobalDataQueue.ProcessQueues` | core/GlobalDataQueue.cpp:273-702 | the whole call is one step of the machine, and the user's send buffer grows by what the machine hands over |
| `GlobalDataQueues.InsertBlankQueueItem` | core/GlobalDataQueue.cpp:1062-1101 | the blank goes after its anchor, but before it when the anchor is first, and to the end when it is gone |
| `DeFlood.CheckForWarn` | core/DeFlood.cpp:322-403 | closes the connection exactly when the warnings have reached the configured number |
| `DeFlood.Act` | core/DeFlood.cpp:229-320 | what each action does to counter, warnings and connection |
| `DeFlood.CheckForFlood` | core/DeFlood.cpp:80-131 | one call of the limiter is one step of the window machine |
| `DeFlood.RateFrom` | core/DeFlood.cpp:80-131 | the rate argument: from any window, how many calls can still be accepted in an interval |
| `DeFlood.AtMostTwiceTheLimit` | core/DeFlood.cpp:80-131 | over every run at most 2N calls are accepted in any T consecutive ticks |
| `DeFlood.FirstNAccepted` | core/DeFlood.cpp:80-131 | in every window that opens in a run, exactly its first N calls are accepted |
| `DeFlood.FloodRate` | core/DeFlood.cpp:80-131 | both, for every run of the limiter that does not wrap its counter and every window of it |
| `DeFlood.CounterBound` | core/DeFlood.cpp:229-252 | with action 2 the counter stays within 2N, with the closing actions within N |
| `DeFlood.WrapsOnlyWithBareWarnings` | core/DeFlood.cpp:229-252 | only action 1 can wrap, and only from 65536 calls on |
| `DeFlood.BurstLaw` | core/DeFlood.cpp:93-118 | how many calls of a one-tick burst are accepted under action 1, exactly |
| `DeFlood.Ladder` | core/DeFlood.cpp:243-252 | r rejections of one window raise exactly ceil(r/N) warnings |
| `DeFlood.ClosedExactly` | core/DeFlood.cpp:322-403 | from zero warnings and limit W the connection is closed exactly from the ((W-1)N+1)-th rejection on |
| `DeFlood.ClosingCloses` | core/DeFlood.cpp:229-320 | with a closing action, over every run from a clear counter, the connection is closed if and only if some call was rejected |
| `DeFlood.ClosedFromNext` | core/DeFlood.cpp:80-131 | within one window exactly from call N + 1 on |
| `DeFlood.OthersNeverClose` | core/DeFlood.cpp:229-320 | action 1, and whatever is no action, closes and warns nobody |
| `DeFlood.ClosedByWarnings` | core/DeFlood.cpp:322-403 | with action 2, over every run, it is the number of warnings that closes |
| `DeFlood.CheckForSameFlood` | core/DeFlood.cpp:134-188 | one call of the repeated-text limiter, with its double step |
| `DeFlood.SameLadder` | core/DeFlood.cpp:134-188 | for N >= 2, r repetitions raise 1 + floor(r/N) warnings |
| `DeFlood.SameLadderExactly` | core/DeFlood.cpp:134-188 | that law holds for all states and numbers of repetitions if and only if N >= 2 |
| `DeFlood.SameSingle` | core/DeFlood.cpp:134-188 | for N = 1: the state after any number of repetitions; one in 65535 warns |
| `DeFlood.SameSingleWarnsOnce` | core/DeFlood.cpp:134-188 | in particular one warning and then none until the counter wraps |
| `RepeatedTexts.RejectedExactly` | core/DeFlood.cpp:134-188 | over every run, with the callers keeping the last text: a text is rejected if and only if it is not empty and at least N calls before it, without another text in between, said the same within the time of the first; for limits that can wrap, within 65535 calls |
| `RepeatedTexts.ChangingTextsPass` | core/DcCommands.cpp:1876-1904 | texts that differ from the one before are never rejected |
| `RepeatedTexts.WrapLetsPass` | core/DeFlood.cpp:134-188 | with action 1 the last of 65536 equal texts is accepted |
| `RepeatedTexts.RepetitionCloses` | core/DeFlood.cpp:229-320 | with a closing action, over every run, the connection is closed if and only if some text was rejected |
| `RepeatedTexts.RepetitionOnlyWarns` | core/DeFlood.cpp:229-320 | action 1, and whatever is no action, closes nobody |
| `DeFlood.CheckInterval` | core/DeFlood.cpp:448-488 | one call of the interval limiter |
| `DeFlood.WaitIsExact` | core/DeFlood.cpp:448-488 | a reported wait lies in 1..T, and the next call is accepted exactly when it comes no earlier than that |
| `DeFlood.IntervalRate` | core/DeFlood.cpp:448-488 | over every run in which no window wraps the counter, exactly the first N calls of every window are accepted, and at most 2N in any T ticks |
| `RateLimits.GrantedFits` | core/DeFlood.cpp:448-488 | with the wrapping counter: how many calls an interval can grant, by what is left of the window it starts in and by the calls it sees |
| `RateLimits.SharpRunBreaks` | core/DeFlood.cpp:448-488 | a run of 65538 + N calls, or 131073 if N or T is 1, that is granted 2N + 1 calls in T ticks |
| `RateLimits.IntervalRunThreshold` | core/DeFlood.cpp:448-488 | the interval limiter keeps its rate in every run of at most k calls if and only if k is at most 65537 + N, or 131072 if N or T is 1 |
| `RateLimits.IntervalThreshold` | core/DeFlood.cpp:448-488 | and in every interval that sees at most m calls, over runs of any length, if and only if m is at most 65536 + N, or 131072 |
| `RateLimits.OtherActionsKeepRate` | core/DeFlood.cpp:80-131 | with every action but 1 the flood limiter keeps its rate over every run |
| `RateLimits.BareWarningsWait` | core/DeFlood.cpp:80-131 | with action 1 it accepts exactly what the interval limiter accepts |
| `RateLimits.FloodRunThreshold` | core/DeFlood.cpp:80-131 | it keeps its rate in every run of at most k calls if and only if the action is not 1 or k is within the same threshold |
| `RateLimits.FloodThreshold` | core/DeFlood.cpp:80-131 | and in every interval that sees at most m calls, likewise |
| `LoginProtocol.CloseKeeps` | core/User.cpp:1692-1800 | after a close the table lists exactly the live hashed users again and the nick is free |
| `LoginProtocol.TakeNickTakes` | core/DcCommands.cpp:2755-2782 | after a right password the nick is in the table for this connection and its former holder is closed |
| `LoginProtocol.FinallyDecides` | core/DcCommands.cpp:4481-4537 | the end of a validation: refused and closed, or validated, hashed, and asked for a password exactly if registered |
| `LoginProtocol.HeldDecides` | core/DcCommands.cpp:4405-4478 | the same when somebody holds the nick: dead socket, clone, ghost, or refusal |
| `LoginProtocol.ValidationDecides` | core/DcCommands.cpp:4185-4478 | the same for a whole validation, with all other connections left alone or closed |
| `LoginProtocol.MyInfoKeeps` | core/DcCommands.cpp:2514-2573 | `$MyINFO` completes a login only with the nick in the table and no password asked for |
| `LoginProtocol.QuickMyInfoKeeps` | core/DcCommands.cpp:301-348 | the QuickList path, nick and info in one command |
| `LoginProtocol.LaterMyInfoKeeps` | core/DcCommands.cpp:414-505 | `$MyINFO` in the later login states |
| `LoginProtocol.ValidateNickKeeps` | core/DcCommands.cpp:3705-3735 | `$ValidateNick` keeps the invariant |
| `LoginProtocol.EarlyKeeps` | core/DcCommands.cpp:1575-1615 | so do `$Key` and `$Supports`: nothing of the nick table or of other connections changes, and the connection goes on or is closed |
| `LoginProtocol.VersionKeeps` | core/DcCommands.cpp:3739-3765 | so does `$Version`, whatever is still owed |
| `LoginProtocol.MyPassKeeps` | core/DcCommands.cpp:2577-2805 | so does `$MyPass` during the login, which clears the waiting bit only to verify or to close |
| `LoginProtocol.AddedPassKeeps` | core/DcCommands.cpp:778-889 | so does `$MyPass` of an added user, which ends the wait without any check |
| `LoginProtocol.OfferKeeps` | core/HubCommands-RZ.cpp:502-533 | so does an operator's offer to register the holder of an unregistered nick, in whatever state the holder is |
| `LoginProtocol.AdmitKeeps` | core/User.cpp:2473-2489 | so does the end of a login, for a validated nick in the table that owes no password |
| `LoginProtocol.ProcessKeeps` | core/DcCommands.cpp:228-519 | so does every command in every state |
| `LoginProtocol.StepKeeps` | core/DcCommands.cpp:228-519 | one step of any connection keeps the invariant, and every connection moves only as it may |
| `LoginProtocol.RunKeeps` | core/DcCommands.cpp:228-519 | so does every interleaving of any number of connections |
| `LoginProtocol.ReachableNicksDistinct` | core/DcCommands.cpp:4405-4537 | in every reachable hub, live hashed connections have pairwise distinct nicks |
| `LoginProtocol.AdmittedIsVerified` | core/User.cpp:2473-2489 | in every reachable hub, whoever got past the call of `AddMeOrIPv4Check` is validated, holds its nick in the table, and has passed if the nick was registered; it is asked for a password only if registration was offered to it |
| `LoginProtocol.RunMoves` | core/DcCommands.cpp:228-519 | over every run: login states never go back, validated nicks stay, and a wait begun by a validation ends only by passing or closing |
| `LoginProtocol.NeverBack` | core/serviceLoop.cpp:857-864 | a connection that is gone stays gone |
| `LoginProtocol.FactsAreTrue` | core/DcCommands.cpp:2577-2753 | the recorded history is earned: validated by a nick check of its own, registered as of that moment, passed only by the right password while asked, offered registration only while unregistered and in the table |
| `LoginProtocol.RightPasswordWins` | core/DcCommands.cpp:2735-2805 | a right password wins the nick and closes its holder |
| `LoginProtocol.HolderKeepsNick` | core/DcCommands.cpp:4405-4475 | over every run, while its nick is unregistered: a holder that is not dropped, whose own commands do not close it and whose socket works when others ask for the nick, clones apart, keeps it, and nobody else gets it |
| `LoginProtocol.VersionBeforePassword` | core/DcCommands.cpp:3739-3756 | over every run, a client that is asked for a password in the state that `$Version` leads to stays outside until it is closed |
| `LoginRefusals.ClosesExactly` | core/DcCommands.cpp:228-519 | a command closes its sender if and only if its state, or what it says, does not admit it: given for every command in every state |
| `LoginRefusals.ValidationCloses` | core/DcCommands.cpp:4185-4537 | which nicks are refused, exactly, and when a validation succeeds |
| `LoginRefusals.DeadHolderYields` | core/DcCommands.cpp:4412-4427 | a holder with a dead socket is closed, and asking again gets the nick |
| `LoginRefusals.CloneYields` | core/DcCommands.cpp:4429-4449 | a clone with an unregistered nick is closed and the nick taken at once |
| `LoginRefusals.GhostStays` | core/DcCommands.cpp:4466-4473 | the holder of a registered nick stays until the password comes |
| `LoginRefusals.EarlyCommandsSettle` | core/DcCommands.cpp:1575-1615 | what a good `$Supports` and a good `$Key` change, and that they change nothing else |
| `LoginRefusals.IdleCommands` | core/DcCommands.cpp:228-519 | which admitted commands change nothing |
| `LoginRefusals.InfoCompletes` | core/DcCommands.cpp:414-505 | what a `$MyINFO` that is heard does after the nick: an old one nothing, a new one completes the login unless a password is asked for |
| `LoginRefusals.ProbeAnswered` | core/DcCommands.cpp:228-262 | the answer to a probe lets the probed user go on and closes its own connection |
| `LoginRefusals.NicksAreLegal` | core/DcCommands.cpp:4187-4226 | over every run no validated nick has a space, `$`, pipe or control character |
| `LoginRefusals.ReachableNicksLegal` | core/DcCommands.cpp:4187-4226 | so in every reachable hub |
| `LoginRegistration.RegistersExactly` | core/DcCommands.cpp:778-852 | an event changes what passwords there are only by storing the sent password of a listed, offered user for its own unregistered nick, unless registrations are set from outside |
| `LoginRegistration.PasswordStays` | core/DcCommands.cpp:778-852 | over every run a stored password stays |
| `LoginRegistration.OfferRegisters` | core/DcCommands.cpp:778-852 | an accepted offer registers exactly that user with exactly that password, and the user stays in the list |
| `LoginRegistration.OfferFails` | core/DcCommands.cpp:785-823 | without a profile that exists, or with a password of a bad length, nobody is registered |
| `LoginRegistration.WrongPasswordCloses` | core/DcCommands.cpp:2577-2753 | an ordinary client with a registered nick that sends another text than its password is closed |
| `LoginRegistration.RegisteredLogin` | core/DcCommands.cpp:2577-2805 | after an accepted offer and any run: a client that gives that password is let in under the nick, one that gives any other text is closed |
| `LoginDeadEnds.CanGetInExactly` | core/DcCommands.cpp:228-519 | a live connection has a continuation into the user list if and only if it is not asked for a password in that state |
| `LoginDeadEnds.ReachableCanGetInExactly` | core/DcCommands.cpp:228-519 | so in every reachable hub |
| `LoginDeadEnds.TrappedNeverGetsIn` | core/DcCommands.cpp:2577-2594 | over every run in which its nick stays unregistered, a client that is asked for a password during its login never gets in |
| `LoginDeadEnds.UnregisteredGetsInExactly` | core/DcCommands.cpp:2514-2594 | and such a nick's connection has a continuation into the user list, with the nick still unregistered, if and only if it is not asked for one |
| `LoginDeadEnds.VersionFirst` | core/DcCommands.cpp:3739-3765 | an ordinary client with a registered nick that sends `$Version` before its password comes to that state |
| `LoginDeadEnds.OfferedEarly` | core/HubCommands-RZ.cpp:502-533 | an ordinary client with an unregistered nick that is offered registration before `$Version` is asked for a password |
| `LoginDeadEnds.DeadEndsAreReachable` | core/HubCommands-RZ.cpp:502-533 | runs from an empty hub to a live connection that can never get in, and to one that cannot while its nick stays unregistered |
| `LoginLoop.PassKeepsDeadlines` | core/serviceLoop.cpp:451-883 | after a pass of the receiving loop over all users, whatever they sent and in whatever order: nobody outstays the limits of 20, 60, 10 and 300 seconds of its state, and nobody admitted stays where it was; it has gone on or was closed |
| `LoginLoop.VisitInTime` | core/serviceLoop.cpp:474-880 | one connection's turn ends in time for itself and puts nobody else out of time |
| `LoginLoop.DueInTime` | core/serviceLoop.cpp:474-880 | the decision of every state, with its clock conditions, leaves the connection within its limit |
| `LoginLoop.DecideClosesExactly` | core/serviceLoop.cpp:474-880 | the decision closes a live connection if and only if it has exceeded the limit of its state, or no lock could be made |
| `LoginLoop.PassClosesExactly` | core/serviceLoop.cpp:451-883 | a pass in which nobody says anything closes exactly those: nobody is closed early |
| `LoginLoop.PassIsRun` | core/serviceLoop.cpp:451-883 | a pass is a run of the machine, so what holds of runs holds of passes |
| `LoginRounds.BetweenOnTime` | core/serviceLoop.cpp:451-883 | between two passes, at every moment, nobody is later than the seconds that have gone by |
| `LoginRounds.RoundsKeepDeadlines` | core/serviceLoop.cpp:451-980 | over every run of passes at most g seconds apart, with connections, closings and registrations in between: after each pass everybody is within the limit of its state |
| `LoginRounds.LoginsEnd` | core/serviceLoop.cpp:451-980 | so from the start of the hub, whoever is neither in the user list nor closed came at most max(300, max(60, g) + 10 + 3g) seconds before the last pass |
| `LoginLoop.SendPassLetsIn` | core/serviceLoop.cpp:903-980 | after a pass of the sending loop nobody is left in the last login state |
| `LoginScenarios.OrdinaryLogin` | core/DcCommands.cpp:228-519 | a client with a free, unregistered nick is in the user list after the usual commands and three passes of the service loop; nothing else in the hub changes |
| `LoginScenarios.PasswordLogin` | core/DcCommands.cpp:2577-2805 | the same for a registered nick with its password |
| `LoginScenarios.QuickLogin` | core/DcCommands.cpp:301-348 | the same for a QuickList client, whose `$MyINFO` is enough |
| `LoginScenarios.QuickPasswordLogin` | core/DcCommands.cpp:2755-2805 | a QuickList client with a registered nick is in with its `$MyINFO` and its password |
| `LoginHub.Hub.FindUser` | core/hashUsrManager.cpp:117-131 | finds whoever the table names |
| `LoginHub.Hub.Add` | core/hashUsrManager.cpp:38-60 | adds to the table and marks the user |
| `LoginHub.Hub.Remove` | core/hashUsrManager.cpp:63-70 | removes by nick |
| `LoginHub.Hub.PreProcessData` | core/DcCommands.cpp:228-519 | one command of one user is one step of the machine and keeps its whole invariant |
| `LoginHub.Hub.AcceptUser` | core/serviceLoop.cpp:380-383 | so is a new connection |
| `LoginHub.Hub.ReceiveLoop` | core/serviceLoop.cpp:451-883 | the loop over the users, commands and clock conditions included, is a pass, keeps the invariant and leaves nobody beyond its deadline |
| `LoginHub.Hub.RemUser` | core/serviceLoop.cpp:857-864 | forgetting a connection is a step of the machine and leaves no entry of the table dangling |
| `LoginHub.Hub.SendLoop` | core/serviceLoop.cpp:903-980 | the sending loop, as far as the login goes, lets in everybody who was announced |
| `LoginHub.Hub.RegUser` | core/HubCommands-RZ.cpp:502-533 | the offer of registration is a step of the machine |
| `LoginHub.Hub.NicksDistinct` | core/hashUsrManager.cpp:38-60 | in a valid hub two live users in the table have different nicks |
| `LoginHub.Hub.AdmittedIsVerified` | core/User.cpp:2473-2489 | in a valid hub an admitted user is found under its nick, was validated, and gave its password if the nick was registered |
| `Supports.TokensOfJoin` | core/DcCommands.cpp:3220-3406 | splitting undoes joining |
| `Supports.FoldMeans` | core/DcCommands.cpp:3238-3403 | a faultless list leaves exactly the features it names, in any order, except that ZPipe0 counts only before every ZPipe; the connection is counted once |
| `Supports.ClosedExactly` | core/DcCommands.cpp:3240-3403 | parsing closes the connection if and only if some token is faulty |
| `Supports.FoldConsistent` | core/DcCommands.cpp:3238-3403 | QuickList implies NoHello, ZPipe0 implies ZPipe, a pinger was allowed |
| `Supports.ParseConsistent` | core/DcCommands.cpp:3166-3411 | the same for whole commands |
| `SupportsRules.NamesAre` | core/DcCommands.cpp:3238-3403 | which words name each feature |
| `SupportsRules.NamedExactly` | core/DcCommands.cpp:3238-3403 | a list names a feature if and only if one of its words does |
| `SupportsRules.CommandTakenExactly` | core/DcCommands.cpp:3166-3411 | a command is taken if and only if it is the first, has at least 13 characters, does not end in a space where that is minded, and no word of it is empty or a pinger's that is not allowed |
| `SupportsRules.CommandMeans` | core/DcCommands.cpp:3166-3411 | the bits that a first command leaves when it is taken |
| `Supports.NegotiationSettles` | core/DcCommands.cpp:4585-4674 | parsing a non-empty answer gives a part of the user's bits, and answering again gives the same line |
| `Supports.FoldOfReply` | core/DcCommands.cpp:4585-4674 | exactly which bits an answer sets when it is read |
| `Supports.EmptyReply` | core/DcCommands.cpp:3183-3194 | an empty answer would be refused as too short |
| `Supports.Answer` | core/DcCommands.cpp:4585-4674 | the answer is put together word by word as specified |
| `Supports.User.TakeSupport` | core/DcCommands.cpp:3238-3403 | the switch over first character and length does what the token names |
| `Supports.User.EndOfSupport` | core/DcCommands.cpp:3223-3236 | where a token ends, and that the space becomes a NUL |
| `Supports.User.TakeSupports` | core/DcCommands.cpp:3220-3406 | the in-place loop equals the left fold over the tokens, and changes nothing in the buffer but spaces |
| `Supports.User.Supports` | core/DcCommands.cpp:3166-3411 | the whole command, floods and short and quacking ones included |
| `BruteForce.StepCounts` | core/DcCommands.cpp:2641-2737 | an attempt keeps one entry per address with count 1 or 2, moves only its own address, and bans exactly at count 2 without a full ban |
| `BruteForce.RunCounts` | core/DcCommands.cpp:2641-2737 | over every interleaving each address is counted as if it were alone |
| `BruteForce.CountsConsecutive` | core/DcCommands.cpp:2641-2737 | the count is the number of consecutive failures modulo 3, or sticks at 2 while a full ban is in force |
| `BruteForce.CountsSinceReleased` | core/DcCommands.cpp:2641-2737 | whichever failures meet a full ban: the count is the number of failures since the address was last let in or banned, up to 2 |
| `BruteForce.OutcomeExactly` | core/DcCommands.cpp:2641-2737 | and the outcome of every attempt follows from that number: the first two failures are told off, from the third on the address is banned, or found banned |
| `BruteForce.BannedEachThird` | core/DcCommands.cpp:2651-2679 | a ban is issued at each third consecutive failure and at no other attempt |
| `BruteForce.OffStoresNothing` | core/DcCommands.cpp:2641-2642 | with the protection off nothing is stored |
| `BruteForce.DcCommands.Find` | core/DcCommands.cpp:4540-4550 | the list search finds the entry of the address |
| `BruteForce.DcCommands.Remove` | core/DcCommands.cpp:4553-4563 | removes exactly that entry |
| `BruteForce.DcCommands.BadPassword` | core/DcCommands.cpp:2641-2713 | refines a failed attempt |
| `BruteForce.DcCommands.GoodPassword` | core/DcCommands.cpp:2733-2737 | refines a successful one |
| `CountryTable.SearchIsScan` | core/IP2Country.cpp:865-931 | on sorted disjoint ranges the binary search finds what the linear scan finds |
| `CountryTable.SearchIsScanExactly` | benches/bench_hotspots.cpp:81-103 | the position found is the same for all keys if and only if the ranges are disjoint |
| `CountryTable.CountriesAgreeExactly` | benches/bench_hotspots.cpp:81-103 | the country found is the same for all keys if and only if every overlap of two rows is harmless: empty, covered for both, or of one country |
| `CountryTable.MemCmpOrder` | core/IP2Country.cpp:834-847 | `memcmp` order of equal-length keys is the order of the numbers they spell |
| `CountryTable.EmbeddingsAgree` | core/IP2Country.cpp:787-812 | mapped, 6to4 and Teredo forms of an IPv4 address are looked up as that address |
| `CountryTable.ClassifyExactly` | core/IP2Country.cpp:787-812 | with IPv6 in use an address is looked up as an IPv4 address if and only if it embeds one in one of the three forms, and as that one; every other address as it is |
| `CountryTable.ClassifyWithoutIPv6` | core/IP2Country.cpp:787-794 | without IPv6 by its last four bytes |
| `CountryTable.CombineIsBigEndian` | core/IP2Country.cpp:787-812 | the number made of four bytes is the one they spell |
| `CountryTable.FlipIsXor` | core/IP2Country.cpp:805-810 | the subtraction used in the model inverts each of the 32 bits, as the XOR of the Teredo address does |
| `CountryCsv.JoinSplit` | core/IP2Country.cpp:614-655 | joining quote-free fields and splitting them gives them back |
| `CountryCsv.PrintedRow` | core/IP2Country.cpp:614-655 | a printed row is split into its five fields |
| `CountryCsv.PutRowShows` | core/IP2Country.cpp:619-645 | what a row adds to what lookups can see |
| `CountryCsv.LineAdds` | core/IP2Country.cpp:598-656 | a line adds its row or nothing, whether or not the vectors grow |
| `CountryCsv.LinesAdd` | core/IP2Country.cpp:598-656 | so do any number of lines |
| `CountryCsv.LoadedIsAccepted` | core/IP2Country.cpp:580-662 | loading a well-formed file adds exactly its accepted rows in order; a reload shows nothing of the old table |
| `CountryCsv.FromCharsDecimal` | core/IP2Country.cpp:625-633 | a printed number of any size is read as itself if it fits 32 bits, and otherwise leaves the old value; so does a field that begins with no digit |
| `CountryCsv.CodeIndexExactly` | core/IP2Country.cpp:634-645 | a field names the first country whose code it starts with; the last code names none |
| `CountryFiles.LoadsItsRanges` | core/IP2Country.cpp:580-662 | a file printed from ranges of numbers is loaded as exactly those ranges, in order |
| `CountryFiles.ReloadedIsFound` | core/IP2Country.cpp:865-966 | after a reload from one without overlaps every IPv4 address, however embedded, is found in the range that holds its number, and is unknown if there is none |
| `CountryCsv.StaleNumberShows` | core/IP2Country.cpp:619-627 | an instance of what can show: a row without a start shows the start of an old row after a reload |
| `CsvReload.LoadShows` | core/IP2Country.cpp:580-662 | the rows visible after loading any file, broken lines included: one for each line with five closed fields and a known country, with numbers that do not parse taken from the last rejected line that had one or from the old table |
| `CsvReload.ReloadIsNewExactly` | core/IP2Country.cpp:598-662 | for every file: a reload shows nothing of the old table if and only if both numbers of every accepted line parse or were left by a line rejected since the last accepted one |
| `CsvReload.RejectedStartShows` | core/IP2Country.cpp:619-627 | a rejected row leaves its start to the next accepted row that has none, on a first load too |
| `IpToCountry.LookupIsLinear` | core/IP2Country.cpp:865-931 | for every address, IPv4, tunnelled or native IPv6, the lookup agrees with the linear scan on sorted tables with harmless overlaps |
| `IpToCountry.LookupFindsRow` | core/IP2Country.cpp:865-931 | on sorted tables without overlaps every address is found in the one row that holds it, and is unknown if there is none |
| `IpToCountry.UpperBound` | core/IP2Country.cpp:816-821 | the bisection over starts |
| `IpToCountry.UpperBound6` | core/IP2Country.cpp:833-842 | the bisection over flat 16-byte rows |
| `IpToCountry.IpP2Country.Decode` | core/IP2Country.cpp:787-812 | which key an address is looked up by |
| `IpToCountry.IpP2Country.Find` | core/IP2Country.cpp:865-931 | the overload that returns an index |
| `IpToCountry.IpP2Country.FindName` | core/IP2Country.cpp:785-862 | the overload that returns a code or name finds the same country, and when the name is translated |
| `IpToCountry.IpP2Country.FindLinear` | benches/bench_hotspots.cpp:81-89 | the reference scan |
| `IpToCountry.IpP2Country.ReadRow` | core/IP2Country.cpp:611-655 | the in-place row loop does what the list of its fields says |
| `IpToCountry.IpP2Country.LoadIPv4` | core/IP2Country.cpp:580-662 | the loader equals the line-by-line specification, growth and final trim included |
| `IpToCountry.IpP2Country.Reload` | core/IP2Country.cpp:959-966 | a reload is a load from count zero |
| `RotatingLog.DiskFollowsRun` | core/Log.cpp:66-84 | what is proved about the messages of a run holds of the bytes on disk |
| `RotatingLog.KeepsSuffix` | core/Log.cpp:66-84 | from any directory and after any writes, the files oldest to newest are an end piece of everything written, cut between two messages |
| `RotatingLog.DividesGreedily` | core/Log.cpp:66-84 | the sink divides messages into files that are as full as they can be |
| `RotatingLog.OnlyDivision` | core/Log.cpp:66-84 | there is only one such division |
| `RotatingLog.DiskShowsDivision` | core/Log.cpp:66-174 | from an empty directory the disk shows the current file and the last closed files of that division |
| `RotatingLog.LostExactly` | core/Log.cpp:137-174 | nothing is lost if and only if there were no more rotations than generations |
| `RotatingLog.CurrentFits` | core/Log.cpp:66-84 | the current file is within the limit or holds a single message |
| `RotatingLog.NamesDiffer` | core/Log.cpp:96-109 | no two generations share a file name, and none is the current file |
| `RotatingLog.GenerationNames` | core/Log.cpp:96-109 | the number goes before the last dot of the name, in decimal, and `.gz` to the end |
| `RotatingLog.ShiftStep` | core/Log.cpp:146-170 | one round of the descending loop moves one generation and nothing else |
| `RotatingLog.CompressedRotatingFileSink.Open` | core/Log.cpp:39-52 | a limit of zero is refused; otherwise the current file is opened for appending |
| `RotatingLog.CompressedRotatingFileSink.Rotate` | core/Log.cpp:137-174 | every generation moves up by one, the oldest goes, the current file becomes the first, other files stay |
| `RotatingLog.CompressedRotatingFileSink.SinkIt` | core/Log.cpp:66-84 | one message refines `Sink` |
| `RegUserSplit.ParseIsUnprint` | core/HubCommands-AE.cpp:59-150 | a line is accepted as nick, password and profile if and only if it is those three joined by spaces and within the limits |
| `RegUserSplit.ParseUnprints` | core/HubCommands-AE.cpp:59-99 | splitting undoes printing, spaces inside the password included |
| `RegUserSplit.ParsedWasPrinted` | core/HubCommands-AE.cpp:59-150 | nothing else is accepted |
| `RegUserSplit.RefusedExactly` | core/HubCommands-AE.cpp:100-165 | which refusal a line of three parts gets |
| `RegUserSplit.SyntaxErrorExactly` | core/HubCommands-AE.cpp:59-115 | every other line is a syntax error |
| `RegUserSplit.LastPart` | core/HubCommands-AE.cpp:80-96 | the backward scan finds the last space and restores the second one |
| `RegUserSplit.SplitInPlace` | core/HubCommands-AE.cpp:59-103 | where the parts start, how long they are, and what the buffer looks like afterwards |
| `RegUserSplit.AddRegUser` | core/HubCommands-AE.cpp:40-150 | the command as far as its arguments are checked, errors in the order of the code |

## Left out

- Sockets, `recv` peeking, clocks, metrics, UDP debug and log texts: they appear as parameters (a peeked socket is a boolean) or not at all.
- Script hooks: assumed neither to block nor to change state.
- Allocation failures and file-open failures; the log's file system is a map from names to contents, and a compressed generation stands for the text it expands to.
- The two ends of the send path: overflow and dropping in a user's send buffer, `SendFinalQueue`, `ProcessSingleItems` and the single-item list.
- A buffer's first allocation of 256 bytes is taken to be exact; how it grows after that is a parameter. A list whose length runs past its allocation is read as far as the allocation goes; what lies beyond is not modelled.
- Lists that change while a cycle is being sent: only scripts can do that.
- zlib: a parameter with the contract that what was deflated inflates back.
- The service loop also forgets the last text of a user once its time has passed; the next text is new either way.
- DeFloodCheckForDataFlood, and the texts and reports of the limiters; warning totals and ticks are unbounded integers.
- Pinger connections in the login; the profile and operator status that a registration gives; the fields of a user that the login does not read.
- LoginHub.Hub.Close: stops at the closing state; the immediate step to the final state when nothing is left to send is the separate event `Finish`, and the lists of users, infos and searches that a close also updates are not modelled.
- LoginHub.Hub.ReceiveLoop: whether a lock could be made, whether logins are being delayed and whether a closing connection has anything left to send are parameters; what the loop does for users that are in the user list is not modelled.
- LoginProtocol.ValidationDecides: reserved nicks, bans, limits, profiles and reconnect times are one refusal that the environment decides; the address table of the nick hash is not modelled.
- The password itself: comparing stored and sent passwords is equality; hashing, the growing wait between attempts and the per-nick failure count are left out.
- IPv6 tables are not loaded in this build of the hub, so the flat table is given; `std::upper_bound` is modelled as the bisection it is specified to perform.
- Permissions, profiles and the registration itself after the arguments of the register command are split.
- Message formatting, language tables, help and statistics texts, the remaining hub commands, SQLite, Python tools other than the key computation.
