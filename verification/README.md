# Verified model of the micro-ROS memory utilities and RT-Thread transports

The repository lets a micro-ROS application give memory to the strings and
sequences of a ROS message, either from the heap or from a buffer of its own.
One recursive walk over the introspection description of the message type
(`handle_message_memory`) serves five operations: create on the heap, create in
a buffer, destroy, and two size calculations. Each public operation compares the
total of one walk with that of another. This project models that walk, the
growable strings it keeps its path in, the listing of a type, the microsecond
clock of the UDP transport and the read loop of the serial transport, and proves
what they promise.

## How the model is built

| file | contents |
|---|---|
| `Introspection.dfy` | type descriptions, the tables of basic types, well-formed layouts |
| `MemoryRules.dfy` | configuration, the `memcmp` rule test, first-match capacity |
| `Plans.dfy` | the plan of a type: its tree with every capacity resolved |
| `Costs.dfy` | sizes, requests and header bytes of a type, from its members' fields and the caller's configuration alone |
| `Layout.dfy` | the 4-byte bump allocator: regions, order, padding, stride, monotonicity |
| `Store.dfy` | memory: blocks of byte cells, stored words that any overlapping write destroys |
| `Semantics.dfy` | what each of the five walks does to memory, plan step by plan step |
| `Sizes.dfy` | what the walks count, and which failed requests the comparison sees |
| `Ownership.dfy` | which bytes a stretch of a walk owns; what a created message looks like |
| `Messages.dfy` | what a created message looks like, from those fields alone |
| `Creation.dfy`, `Destruction.dfy` | the create walks and the destroy walk against memory |
| `TypeUtilities.dfy` | class `Runtime`: the walk and the public operations, imperatively |
| `Recovery.dfy` | what destroy does after a create in which requests failed |
| `SizeT.dfy` | sizes and indexes that wrap |
| `Guarantees.dfy`, `Witnesses.dfy` | what the public operations promise, and inputs on which they fall short |
| `StringUtilities.dfy` | growable strings: header by value, shared bytes |
| `TypeListing.dfy` | the listing of a type and how it is read back |
| `UdpClock.dfy`, `SerialTransport.dfy` | the two transports' stateful pieces |
| `Arithmetic.dfy`, `Wrappers.dfy` | small helpers |

The imperative methods of class `Runtime` keep the program's own state: memory,
`operation_buffer`, `operation_buffer_index` and the allocator's request count.
They are proved equal, step by step and through the recursion, to the walk over
a plan given in `Semantics.dfy`; the theorems are about that walk. Three ghost
fields record a run: the regions handed out, the blocks released, and `fault`, which
is set by any read, write or release outside live memory. "No stray access" below means that `fault` is not set.

The heap allocator is any function from request numbers to success or failure,
and a request that succeeds yields a block not seen before. The width of a
pointer and of a `size_t` is an arbitrary positive constant, so nothing depends
on it. As in the code, only an unbounded array counts as a sequence, a
fixed-size array is visited at its element 0 only, and a sequence of strings is
one block of characters.

Three results say where the code does less than its interface suggests.

* Comparing the totals tells whether a heap request failed, for every allocator,
  if and only if every message of the plan that makes requests asks for some
  bytes (`CreateReportsFailures`). A rule of size 0 can break that
  (`ZeroRuleHidesFailure`).
* Destroy counts the elements of a sequence by the configured capacity, even
  where create failed and left the data pointer NULL. After a create with
  failures it makes a stray access exactly when that happened to a sequence
  whose elements have headers (`DestroyAfterCreate`); types with no such
  sequence, and only they, always recover (`RecoveryExact`). A sequence of
  messages with a string does not (`FailedSequenceGoesAstray`). Destroy returns
  true either way.
* `append` and `set` compare the new size with the capacity without counting the
  terminator. A run of string operations stays in its blocks if and only if no
  new size equals the capacity (`PlayRefines`). The dotted path and the
  indentation both start from an empty string of capacity 1, and their first
  steps always hit that case (`FirstPathStepNeverFits`, `FirstTabNeverFits`).

The comment on a memory rule calls it a pattern; the code accepts exactly the
dotted path of the member, or that path and a final dot (`RuleTestExact`). The
header of the string utilities also declares an initialiser by size that no
source file defines; it is not part of this model.

## Model

| member | source | states |
|---|---|---|
| `MemoryRules.Configured` | src/type_utilities.c:59-83 | each capacity is resolved on its own: the caller's non-zero one survives whatever the others are, every resolved one is positive, the rules are kept |
| `MemoryRules.RuleTestExact` | src/type_utilities.c:212-221 | the two comparisons hold exactly when the rule is the dotted path or that path without its final dot, and, for a `memcmp` that stops at the first difference, read no further than both buffers go |
| `MemoryRules.FirstMatchExact` | src/type_utilities.c:206-221 | the capacity is that of the first rule naming the member, else the default |
| `MemoryRules.SelectCapacity` | src/type_utilities.c:208-221 | the rule loop, on the shared path buffer, computes that capacity |
| `Plans.PlanIsSeparate` | src/type_utilities.c:183-197 | in a well-formed type the headers the walk visits do not overlap and lie inside their message, at every depth |
| `Plans.PlanIsPositive` | src/type_utilities.c:206-224 | with positive rules and sized types every request is for at least one byte |
| `Plans.MemberCost` | src/type_utilities.c:206-270 | what a member adds to the dynamic size and to the number of requests, from its own fields: a string n bytes and one request; a basic value n units and one request if and only if it is an unbounded array; a message its own cost, and as an unbounded array n*size_of plus n times that cost |
| `Plans.PlainAsksNothing` | src/type_utilities.c:185-194 | a type without strings and unbounded arrays at any depth makes no request, and no byte of it is a header's |
| `Plans.OnlyPlainAsksNothing` | src/type_utilities.c:185-194 | and only such a type makes none |
| `Costs.PlanCosts` | src/type_utilities.c:170-286 | dynamic size and number of requests of every type, under the caller's own configuration, are those worked out from the fields of its members: first rule, else the caller's capacity, else 20 characters, 5 messages, 5 values |
| `Costs.UnnamedMemberSize` | src/micro_ros_utilities/type_utilities.h:102-103 | the size of a message of one member that no rule names, for each kind, from the caller's capacity or its default |
| `Costs.PlanCovers` | src/type_utilities.c:183-197 | the bytes the walk treats as headers are, under any configuration, three words at each string and unbounded array, nested messages and element 0 of fixed-size arrays of them included |
| `Layout.Align` | src/type_utilities.c:48-51 | the aligned index is the least multiple of 4 not below the index |
| `Layout.LayoutSound` | src/type_utilities.c:46-57 | the regions of every plan are aligned, pairwise disjoint and inside the stretch walked |
| `Layout.RegionPerRequest` | src/type_utilities.c:232-244 | one region for each request |
| `Layout.RegionsTotal` | src/type_utilities.c:241-247 | the region sizes add up to the dynamic size, padding apart |
| `Layout.EndMonotone` | src/type_utilities.c:46-57 | larger capacities or a later start never end earlier |
| `Layout.StaticSizeMonotone` | src/type_utilities.c:320-353 | raising a resolved default capacity never lowers the static size |
| `Layout.LayoutShifts` | src/type_utilities.c:46-57 | starting a multiple of 4 later shifts every region and the end equally |
| `Layout.StrideConstant` | src/type_utilities.c:256-264 | from the second element on every element of a sequence of messages takes the same number of bytes, padding included |
| `Layout.StaticSizeBounds` | src/type_utilities.c:223-247 | for k >= 1 requests: dynamic size <= static size <= dynamic size + 3(k-1) |
| `Sizes.DynamicSizeWalk` | src/type_utilities.c:288-318 | the dynamic-size walk changes nothing and counts the size of the plan |
| `Sizes.DestroySize` | src/type_utilities.c:245-278 | the destroy walk counts the size of the plan whatever memory holds |
| `Sizes.StaticWalk` | src/type_utilities.c:232-244 | sizing and real static walk hand out the same regions in the same order and count final index minus initial index |
| `Sizes.NothingToWalk` | src/type_utilities.c:183-286 | a walk that makes no request does nothing, counts nothing and does not give up, whatever the operation |
| `Sizes.CreateDetects` | src/type_utilities.c:223-231 | the heap walk counts the whole size when no request fails, nothing when its own message's request fails, and less when a nested one does, provided nested messages that make requests ask for some bytes |
| `Sizes.CreateMisses` | src/type_utilities.c:225-227 | where a nested message asks for no bytes, a failed request goes unseen, with the request number |
| `Sizes.FailureDetectionExact` | src/type_utilities.c:388 | the comparison is right for every allocator if and only if every message that makes requests asks for some bytes |
| `Sizes.ChargedType` | src/type_utilities.c:223-231 | plans of that kind are those of types in which every visited message with a string or unbounded array asks for some bytes |
| `Ownership.BuiltStable` | src/type_utilities.c:194-240 | what a walk built stays built while its headers and regions are left alone |
| `Messages.BuiltIsCreated` | src/type_utilities.c:223-264 | what a create walk builds, read off the fields: each string and sequence is empty, with the capacity its member is given, its data that many zero characters, zero values, or created messages one size_of after the other |
| `Creation.HeapRefused` | src/type_utilities.c:223-227 | a refused request stores a NULL pointer and counts nothing; the rest of the header keeps its bytes |
| `Creation.WalkCreated` | src/type_utilities.c:223-240 | both create walks: no stray access, only headers and what was handed out change, and if no request failed every header at every depth describes its own zeroed region, size 0 and capacity recorded |
| `Destruction.WalkDestroyed` | src/type_utilities.c:256-278 | on such a message, used since in any way that keeps its data pointers, the destroy walk releases exactly its blocks and touches nothing else |
| `Destruction.ReleaseSlot` | src/type_utilities.c:273-278 | one release drops one block and leaves an empty header |
| `Destruction.ReleasedOnce` | src/type_utilities.c:273-278 | every block is released exactly once |
| `Destruction.NestedReleasedFirst` | src/type_utilities.c:250-278 | no block is released before a block whose header it holds |
| `Destruction.HolderHolds` | src/type_utilities.c:223-230 | the holder named there is where memory has the pointer |
| `TypeUtilities.Runtime.GetStaticMemory` | src/type_utilities.c:46-57 | the alignment loop stops at that multiple, the region handed out starts there, and the index moves past it |
| `TypeUtilities.Runtime.AcquireSlot` | src/type_utilities.c:223-247 | the visit of a header for each operation, failures included |
| `TypeUtilities.Runtime.ReleaseSlot` | src/type_utilities.c:273-278 | the visit of a header after its elements |
| `TypeUtilities.Runtime.HandleElements` | src/type_utilities.c:256-264 | the element loop rereads the header at each turn and gives every element the same path and so the same capacities |
| `TypeUtilities.PushName` | src/type_utilities.c:187-190 | the path grows by the name and a dot, terminated, in the caller's block |
| `TypeUtilities.PopName` | src/type_utilities.c:280-282 | and shrinks back, terminated |
| `TypeUtilities.Runtime.HandleMessageMemory` | src/type_utilities.c:170-286 | the recursive walk does to memory and counts exactly what the plan says; the caller's path is intact on return, and still terminated if it was, unless the walk gave up |
| `TypeUtilities.Runtime.GetDynamicSize` | src/type_utilities.c:288-318 | returns the size of the plan, which is the size worked out from the members' fields and the caller's configuration, and changes nothing |
| `TypeUtilities.Runtime.GetStaticSize` | src/type_utilities.c:320-353 | the sizing walk from index 0 without a buffer |
| `TypeUtilities.Runtime.CreateMessageMemory` | src/type_utilities.c:355-389 | clears, walks and compares as `CreateMessage` says |
| `TypeUtilities.Runtime.CreateStaticMessageMemory` | src/type_utilities.c:391-436 | measures, clears, walks and compares as `CreateStatic` says |
| `TypeUtilities.Runtime.DestroyMessageMemory` | src/type_utilities.c:438-472 | walks, clears and compares as `DestroyMessage` says |
| `Guarantees.CreateReportsFailures` | src/type_utilities.c:355-389 | create returns true exactly when no request failed, for every allocator, if and only if every visited message with a string or unbounded array, at every depth, asks for some bytes |
| `Guarantees.PositiveRulesReportFailures` | src/type_utilities.c:355-389 | in particular when no rule has size 0 |
| `Guarantees.PlainTypeUntouched` | src/type_utilities.c:170-472 | for a type without strings and unbounded arrays at any depth no operation touches anything, both sizes are 0, and create and destroy clear the message and return true |
| `Guarantees.CreateBuilds` | src/type_utilities.c:355-389 | create on the heap is free of stray accesses even when requests fail, leaves the message zero outside its headers and touches only it and new blocks; when none fails it succeeds with as many requests as the type asks for, and the message is a created one |
| `Guarantees.DestroyReleases` | src/type_utilities.c:438-472 | destroy succeeds, drops exactly the blocks of the message, each once, zeroes the message and changes nothing else |
| `Guarantees.CreateThenDestroy` | src/type_utilities.c:355-472 | when no request failed, create then destroy gives back the memory there was, byte for byte, with the message zeroed |
| `Recovery.WalkLeaves` | src/type_utilities.c:223-270 | whichever requests fail, every data pointer the create walk leaves is NULL or its own block, and no block is left without its pointer |
| `Recovery.WalkCleaned` | src/type_utilities.c:250-278 | the destroy walk on that drops exactly those blocks, unless a sequence whose elements have headers has a NULL pointer: then it goes astray |
| `Recovery.DestroyAtNull` | src/type_utilities.c:258-263 | a walk over a message at NULL goes astray if it visits a header at all |
| `Guarantees.DestroyAfterCreate` | src/type_utilities.c:355-472 | for every allocator: destroy after create returns true, and restores memory without a stray access unless create left such a pointer NULL, in which case it goes astray |
| `Guarantees.RecoveryExact` | src/type_utilities.c:355-472 | create then destroy restores memory without a stray access for every allocator if and only if no visited sequence has elements with a string or unbounded array in them |
| `Recovery.FlatPlan` | src/type_utilities.c:250-270 | such types, told from the members' fields, are those whose plans are flat |
| `Guarantees.DestroyZeroed` | src/type_utilities.c:438-472 | destroying a zeroed message, for example a second time, returns true, and changes nothing for exactly those types; for the others it goes astray |
| `Witnesses.ZeroRuleHidesFailure` | src/type_utilities.c:217-227 | a type and a rule of size 0 for which create can return true although a request failed |
| `Witnesses.FailedSequenceGoesAstray` | src/type_utilities.c:258-263 | a type for which destroy goes astray, and returns true, whenever the first request failed |
| `Witnesses.NotesMayNotRecover` | src/type_utilities.c:355-472 | so that type does not always recover |
| `Witnesses.EveryTypeCanBeCreated` | src/micro_ros_utilities/type_utilities.h:166-188 | every well-formed type has a message and a buffer for which the theorems about create hold |
| `SizeT.StaticSizeFits` | src/type_utilities.c:46-57 | if the static size fits a wrapping index, that index is the model's at the end and every region ends inside |
| `SizeT.DynamicSizeFits` | src/type_utilities.c:231-246 | if the dynamic size fits, counting in wrapping sums and products reaches it |
| `SizeT.DynamicSizeWraps` | src/type_utilities.c:231-246 | whatever wraps on the way, the wrapping count is the dynamic size modulo the range of `size_t` |
| `SizeT.StaticSizeWraps` | src/type_utilities.c:46-57 | and the wrapping index is the static size modulo that range, if the range is a multiple of 4 |
| `SizeT.RegionsConsecutive` | src/type_utilities.c:46-57 | each region starts at the next aligned index after the one before, and the last ends the walk |
| `Guarantees.StaticSucceedsWhenItFits` | src/type_utilities.c:391-436 | with a buffer, create succeeds exactly when the static size fits its length, and otherwise leaves memory as it was; the index ends at the static size |
| `Guarantees.NoBufferFails` | src/type_utilities.c:53-54 | with NULL for a buffer it succeeds exactly when the static size is 0 |
| `Guarantees.StaticBuilds` | src/type_utilities.c:391-436 | create in a buffer that succeeds: every header at every depth describes its own aligned, disjoint region inside the static size, the message is a created one and zero outside its headers, and only it and that part of the buffer change; one that fails changes no memory |
| `Guarantees.RegionHasHeader` | src/type_utilities.c:234-239 | every region handed out is the data of a header |
| `Guarantees.SmallerConfigurationFits` | src/type_utilities.c:391-402 | a buffer that served the larger of two configurations serves the smaller |
| `StringUtilities.InitSound` | src/string_utilities.c:22-36 | a new string holds its text, terminated at its capacity |
| `StringUtilities.ApplyRefines` | src/string_utilities.c:38-94 | set, append and removal stay in the block exactly when the new size differs from the capacity, and then do what they do to plain text |
| `StringUtilities.PlayRefines` | src/string_utilities.c:22-94 | the same for any run of operations, the condition computed from sizes alone |
| `StringUtilities.AppendThenRemove` | src/string_utilities.c:63-94 | appending and removing as many characters is the identity on the text |
| `StringUtilities.FirstPathStepNeverFits` | src/string_utilities.c:63-82 | a path begun on an empty new string never fits at its first name and dot |
| `StringUtilities.FirstTabNeverFits` | src/string_utilities.c:63-82 | nor does the first tab of an indentation |
| `StringUtilities.Init` | src/string_utilities.c:22-36 | allocates and fills as modelled |
| `StringUtilities.SetText` | src/string_utilities.c:38-55 | replaces the text, in place unless it outgrows the capacity |
| `StringUtilities.AppendText` | src/string_utilities.c:63-82 | appends, in the shared block unless it outgrows the capacity |
| `StringUtilities.RemoveTailChars` | src/string_utilities.c:84-94 | shortens and terminates in the shared block |
| `TypeListing.IntegersByName` | src/type_utilities.c:27-34 | the integer types by name: each name belongs to one id, that of field_types.h, and N bits take N/8 bytes |
| `TypeListing.FloatsByName` | src/type_utilities.c:27-34 | the floating-point types by name: a double takes two floats, a long double as much as a double |
| `TypeListing.CharactersByName` | src/type_utilities.c:27-34 | characters, truth values and bytes, and characters of strings, by name: one byte |
| `TypeListing.SizelessByName` | src/type_utilities.c:27-34 | no type, and a nested message, have size 0 in the table |
| `TypeListing.EntryExact` | src/type_utilities.c:116-128 | what a line says of a member, from its fields: sequence, array or neither, to be inited or not, string or message, and the nested message's names |
| `TypeListing.Printer.PrintTypeInfo` | src/type_utilities.c:85-138 | the lines go out in preorder, each with one tab more than the depth of its message, siblings after a nested message included; the caller's indentation is restored |
| `TypeListing.Printer.TypeInfo` | src/type_utilities.c:140-159 | the whole listing |
| `TypeListing.ListingFaithful` | src/type_utilities.c:93-134 | the lines read back give the type up to array lengths, offsets and nested sizes, each member's array flag and unboundedness included, and its member count and size |
| `TypeListing.SameListingSameType` | src/type_utilities.c:93-134 | types with the same listing agree up to those, in member count and in size |
| `UdpClock.MeasureExact` | src/rtt_udp_transport.c:28 | at any tick rate, while neither product wraps, the measure is the true time rounded down to a millisecond |
| `UdpClock.FirstReport` | src/rtt_udp_transport.c:28-37 | so are the seconds and nanoseconds of a first call |
| `UdpClock.ReadingFits` | src/rtt_udp_transport.c:32 | the sum fits 64 bits for every rollover count; its signed product fits up to 2^31 rollovers and no further |
| `UdpClock.NeverBackwards` | src/rtt_udp_transport.c:28-36 | a call reports no less than the one before if and only if the rollover count does not wrap |
| `UdpClock.RunNeverBackwards` | src/rtt_udp_transport.c:28-36 | the reports of any run are sorted while rollovers can be counted |
| `UdpClock.TracksOn` | src/rtt_udp_transport.c:28-36 | no wrap is missed while calls are at most 2^32-1000 microseconds apart |
| `UdpClock.BoundedDrift` | src/rtt_udp_transport.c:22-38 | over any such run true minus reported microseconds is what the measure cuts off plus one for each of q rollovers, so it lies in [0, 999+q] |
| `UdpClock.LongGapMisses` | src/rtt_udp_transport.c:28-36 | for every longer gap there is a tracking clock that misses a wrap |
| `UdpClock.SafeGapExact` | src/rtt_udp_transport.c:28-36 | a gap keeps every tracking clock tracking if and only if it is at most 2^32-1000 microseconds |
| `UdpClock.ClockSource.GetTime` | src/rtt_udp_transport.c:22-38 | one call: new static state, seconds and nanoseconds that recombine to the reading, and at the start the true time rounded down to a millisecond |
| `SerialTransport.TakeConserves` | src/rtt_serial_transports.c:120-141 | one call takes exactly the bytes delivered during its polls; it is short only after a wait that outlasted the timeout, gives up at the first such wait, and has returned once it has all its bytes |
| `SerialTransport.GivesUpLate` | src/rtt_serial_transports.c:133 | giving up means more than the timeout really passed, across counter wraps, and below one full wrap it means exactly that |
| `SerialTransport.NegativeTimeout` | src/rtt_serial_transports.c:133 | a negative timeout is nearly a full wrap of the counter; with -1 a call never gives up |
| `SerialTransport.RunConserves` | src/rtt_serial_transports.c:120-141 | over any run of calls the bytes obtained are those delivered, in order |
| `SerialTransport.Port.Read` | src/rtt_serial_transports.c:120-141 | the nested loops compute that, and leave the rest of the buffer untouched |

## Left out

- HandleMessageMemory: with rules it needs a path block that has room for the longest dotted path and a terminator, so that no append reallocates; the code starts from an empty string, on which the first step never fits (`FirstPathStepNeverFits`), and what copies of a header see after a block has moved is not modelled. Without rules nothing is required.
- PushName: needs that room for the name, the dot and the terminator.
- GetDynamicSize: with rules, starts the path on such a block (`StartPath`), not on an empty string.
- GetStaticSize: the same.
- CreateMessageMemory: the same.
- CreateStaticMessageMemory: the same.
- DestroyMessageMemory: the same.
- PrintTypeInfo: needs an indentation block with room for the deepest line, where the code starts from an empty string (`FirstTabNeverFits`); lines are records of what is printed, so formatting and the cut at 500 characters are not modelled.
- TypeInfo: starts the indentation on such a block.
- RuleTestExact: the lengths passed to `memcmp` can exceed the rule's or the path's object; the model decides at the first difference, which the C standard does not promise.
- Size: sizes are unbounded; `SizeT.dfy` gives what wrapping ones come to, but what create does to memory once a size has wrapped is not modelled.
- Read: the polls of a run are finite, so the model has a call that still waits where the polls end; that a call returns at all rests on the device and the clock.
- Init: failure of the default allocator inside the string utilities.
- Releasing the path and indentation strings, and a rule count above zero with no rule array.
- Destroying a message that lives in a user buffer.
- Looking up a type-support handle: the nested description is reached directly.
- The other transports' code, device and socket set-up, and the conversion-only clock of the serial transport: straight calls with no state of their own.
- The client library headers (`rcl`, `rclc`, `rcutils` and the rest) and the examples: their code is not in the repository or only wires callbacks.
