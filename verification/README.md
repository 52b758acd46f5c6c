# FireMarshal, verified in Dafny

FireMarshal builds RISC-V workloads (kernel, firmware and disk image) from a tree of inherited
configurations, and ships the drivers, experiments and bare-metal support code that run on them.
This project models the parts of it whose correctness is not evident from reading one function,
and proves what they are meant to guarantee. `dafny verify dfyconfig.toml` checks all of it.

## What is modelled

**Workload inheritance** (`wlutil/config.py`, `wlutil/build.py`).
`LinuxOpts` and `Config` model how one configuration is finished from its base, `LinuxOpts` also in
place on dictionaries. `ConfigInit` models the memoised recursive initialisation of the whole table
and proves it against a reference that just follows the chain of bases. `DistroFork` models the
copying of base chains for workloads that customise their distribution. `BuildGraph` models the task
graph, `HostInitOrder` what it says about host-init scripts, `MakeBin` the building of binaries in kernel
trees, including the copying of a parent's, `BuildOrder` builds that follow the graph, and `SharedTree`
builds in which a kernel tree is shared. `Examples` has the small workloads that failing inputs use.

**The AccNet network driver** (`accnet.c`). `SkbRing` is the ring of socket buffers, `TxFrame` the
format of transmit requests, and `TxPath`, `RxPath` and `Napi` are machines of atomic steps in which
driver and device interleave freely. Device, kernel and locks enter only through their steps.

**Experiments.** `RdmaServer` is the echo server that records timestamps. `UdpRing` is the pair of
byte-addressed rings of the loopback test.

**Bare-metal code.** `Barrier` is the sense-reversing barrier, for any number of cores and calls, under
sequentially consistent interleaving. `Quicksort` is the iterative in-place sort. `Printf` is the
formatter and `atol`, and `Formats` has the laws of both; the conversions are a subset of section 7.21.6.1 of ISO/IEC 9899:2011, and an
operation whose result that standard leaves undefined gives `Err`.

Step machines are functions from a state and a step to the next state, and a run is any sequence of
steps. Code that works in place is a class or a method on arrays. Exceptions and failing calls are
`Err` or `ok == false`.

## Where the code does less than expected

- The 50 slots of the sort's stack suffice for every array of n elements exactly if n + 1 < 12 * 2^24:
  an array of equal elements that is any longer overflows it (`Quicksort.Sort`).
- A null kernel module survives exactly if its group is the only `linux` group of the chain
  (`LinuxOpts.ModulesResolve`).
- Forking a workload gives it the environment of its chain, whatever was forked before, but the
  configuration fragments of its chain exactly if no base of it but the root had been forked with
  fragments to repeat (`DistroFork.MergedIff`; `DistroFork.RepeatedFragments` gives an input).
- The build graph is cyclic exactly if a workload combines bin, img, post-bin and nodisk
  (`BuildGraph.CyclicIff`).
- A host-init script runs before the binary or image of a workload that inherits from its owner exactly
  if images, copied binaries or scripts in between make it so (`HostInitOrder.HostInitFirst`); with
  images they always do, and three workloads without images show that they may not
  (`HostInitOrder.ScriptTooLate`).
- The internal documentation of the build (`docs/source/internal/Build.rst`, lines 39-46) promises that
  kernel fragments are applied to a fresh defconfig. The code applies them to the `.config` it finds in
  the kernel tree, and leaves the result there. So a Linux binary is the one that compiling its workload
  in the tree as first found would give exactly if every option set there by tasks before the one that
  compiled it is set by its own fragments or has its first value (`MakeBin.CopyPreservesMeaning`,
  `BuildOrder.GraphBuildIsFaithful`; `SharedTree.FragmentsLeak` gives an input).
- The ring index is masked with 1280 - 1, so the ring wraps at 256 entries and holds 255
  (`SkbRing.NextWraps`). Nothing in the transmit path keeps it from overflowing
  (`TxPath.OverflowReachable`), which is exactly what breaks its accounting
  (`TxPath.LawIffNoOverflow`); the receive path never overflows it exactly if the poll budget is at
  least 64 (`RxPath.RxBudget`).
- A transmit word decodes exactly if the length is below 2^15 and the address below 2^48
  (`TxFrame.WordRoundTrip`).
- A number printed with `%d` is read back by `atol` exactly if it is not padded, is padded with zeros,
  is not negative and padded with spaces, or is a zero padded with one minus sign
  (`Printf.PrintThenAtol`).
- An awake transmit queue has room for 17 segments, while a packet can have 18: it refuses a packet with
  17 fragments exactly if there is room for no more than 17 segments (`TxPath.AwakeAccepts`).
- `try_fill_tx` adds a chunk to the tail in 32 bits before taking the remainder, so the tail is right
  exactly if no step over the end of the ring leaves 32 bits (`UdpRing.Ring.TryFill`;
  `UdpRing.LastIndexWraps` gives the inputs).
- `try_fill_tx` announces a quarter of the ring per call; the code, and the model, take half of it.

## Model

| member | source | states |
|---|---|---|
| Barrier.StepInv | test/bare/util.h:40-58 | every atomic step of every core keeps the barrier invariant (senses follow episode parity, the counter counts the arrivals of the open episode, the closing core finds all others spinning) |
| Barrier.BarrierSafety | test/bare/util.h:40-58 | in every interleaving of any number of cores and calls, no core returns from its k-th call before all have arrived at theirs, and cores are at most one episode apart |
| Barrier.BarrierCount | test/bare/util.h:48-52 | in every run the counter is the number of arrivals of the open episode; when it is reset, and until the sense is published, every other core waits unreleased |
| Barrier.SomeoneCanAdvance | test/bare/util.h:48-55 | no deadlock: while a call that all cores have made is unfinished, some core inside the barrier has a helpful step |
| Barrier.WorkStep | test/bare/util.h:47-55 | no step increases the work left for the k-th call, and helpful steps decrease it |
| Barrier.HelpfulPersists | test/bare/util.h:48-55 | a core that can advance can still advance after any step of another core |
| Barrier.BarrierProgress | test/bare/util.h:40-58 | in every infinite run in which no core stays inside without being given steps, once all cores have called k times, all return from their k-th call |
| Barrier.TurnsAreFair | test/bare/util.h:40-58 | such runs exist for every number of cores: let them take turns |
| Barrier.TurnsReturn | test/bare/util.h:40-58 | cores that take turns return from their k-th call, for every k |
| Quicksort.Swap | example-workloads/example-fed/overlay/root/qsort/qsort_main.c:43-43 | exchanges two elements, which rearranges the segment they lie in and nothing else |
| Quicksort.SwapIfGreater | example-workloads/example-fed/overlay/root/qsort/qsort_main.c:44-44 | exchanges two elements if they are out of order |
| Quicksort.Insert | example-workloads/example-fed/overlay/root/qsort/qsort_main.c:67-75 | the unguarded scan stops inside the segment and moves the element just past the larger ones |
| Quicksort.InsertionSort | example-workloads/example-fed/overlay/root/qsort/qsort_main.c:53-77 | the segment ends up sorted and rearranged, and nothing outside it moves |
| Quicksort.MedianOfThree | example-workloads/example-fed/overlay/root/qsort/qsort_main.c:112-117 | the pivot is the median of the first, middle and last elements, and sentinels are planted: first element <= pivot <= last element of the segment |
| Quicksort.ScanUp | example-workloads/example-fed/overlay/root/qsort/qsort_main.c:127-127 | the upward scan without bounds check stops at the first element not below the pivot, at or before the sentinel |
| Quicksort.ScanDown | example-workloads/example-fed/overlay/root/qsort/qsort_main.c:128-128 | the downward scan likewise |
| Quicksort.Round | example-workloads/example-fed/overlay/root/qsort/qsort_main.c:126-131 | one round keeps the pivot between the two sides, and leaves the scans crossed or with a sentinel each |
| Quicksort.CrossScans | example-workloads/example-fed/overlay/root/qsort/qsort_main.c:119-131 | terminates with crossed scans; on equal elements they meet in the middle |
| Quicksort.Partition | example-workloads/example-fed/overlay/root/qsort/qsort_main.c:110-135 | what lies left of the pivot is at most the pivot, what lies right at least the pivot, by rearranging the segment only |
| Quicksort.SplitPending | example-workloads/example-fed/overlay/root/qsort/qsort_main.c:145-156 | after a partition, elements can be out of order only within one of the two sides or within another pending segment |
| Quicksort.HalvingSplit | example-workloads/example-fed/overlay/root/qsort/qsort_main.c:138-156 | going on with the smaller side keeps (size + 1) * 2^d <= n + 1 for every segment with d segments below it |
| Quicksort.HalvingDepth | example-workloads/example-fed/overlay/root/qsort/qsort_main.c:29-34 | a full stack means that the array is too long for it |
| Quicksort.PartitionAndPush | example-workloads/example-fed/overlay/root/qsort/qsort_main.c:108-157 | one round of partitioning keeps the pending segments, the stack contents and the halving bound, or finds the stack full, which needs a too long array |
| Quicksort.Sort | example-workloads/example-fed/overlay/root/qsort/qsort_main.c:86-161 | terminates with the array sorted and a permutation of the input; never overflows its 50 slots if n + 1 < 12 * 2^24, and does overflow them on any longer array of equal elements |
| Quicksort.StackSufficesIf | example-workloads/example-fed/overlay/root/qsort/qsort_main.c:29-34 | the 50-slot stack never overflows exactly below 201,326,591 elements |
| LinuxOpts.FragmentsResolve | wlutil/config.py:331-353 | along every chain that resolves, kernel fragments are the root-to-leaf concatenation |
| LinuxOpts.SourceResolve | wlutil/config.py:347-349 | along every chain that resolves, the kernel source is the one last mentioned |
| LinuxOpts.PathsResolve | wlutil/config.py:331-353 | a module has path p after resolving if and only if its most derived mention is p |
| LinuxOpts.NullsDropped | wlutil/config.py:343-352 | with two or more groups on the chain no null module survives |
| LinuxOpts.ModulesResolve | wlutil/config.py:331-353 | every module is present exactly if its most derived mention is a path, with that path; this holds for all chains that resolve but, exactly, those whose only group lists a null module |
| LinuxOpts.ModuleDict.DropNulls | wlutil/config.py:348-352 | deletes exactly the null modules, in place |
| LinuxOpts.LinuxDict.MergeFrom | wlutil/config.py:336-353 | merges suboption by suboption in place, fails exactly if neither side lists modules, and leaves the base alone |
| LinuxOpts.Holder.InheritFrom | wlutil/config.py:331-353 | finishes the group in place as `Inherit` says, does not mutate the base, and shares no dictionary with it afterwards |
| Config.ApplyBaseOutputs | wlutil/config.py:538-551 | outputs recorded of the base after a successful application; the image path; and that the dependencies on the base are exactly its image and its host-init script |
| Config.ApplyBaseBinary | wlutil/config.py:553-576 | Linux workloads get their own binary paths, and the parent's binary is used if and only if kernel and firmware groups equal the parent's and the workload has no host-init script |
| Config.DerivedFacts | wlutil/config.py:529-584 | the facts about a finished workload and its base on which building relies |
| Config.LinuxFinish | wlutil/config.py:553-554 | over a distribution, the kernel group of a finished workload is what resolving the groups of its chain gives |
| Config.FirmwareFinish | wlutil/config.py:370-383 | firmware build arguments are concatenated along the chain, root first, and the firmware source is the one last mentioned |
| Config.PlainFinish | wlutil/config.py:533-535 | every other heritable option has the value the most derived workload gives it, launching and the run script with their defaults |
| ConfigInit.ResolvedDerived | wlutil/config.py:782-806 | a workload with a finished configuration has a base with one, and is derived from it |
| ConfigInit.ApplyTwice | wlutil/config.py:786-788 | why memoisation matters: applying a base a second time repeats its kernel fragments |
| ConfigInit.Manager.FinishFrom | wlutil/config.py:801-808 | applies an initialised base, records the application, and succeeds exactly if the workload has a finished configuration |
| ConfigInit.Manager.InitializeFromBase | wlutil/config.py:782-814 | terminates on acyclic links; the workload and the jobs of all workloads it initialises end up equal to the reference, each application happening once; a failure means some workload has no finished configuration |
| ConfigInit.Manager.InitializeSelf | wlutil/config.py:790-808 | initialises the base first, then the workload, from an initialised base |
| ConfigInit.Manager.InitializeJobs | wlutil/config.py:810-814 | initialises all jobs of an initialised workload, which may refer back to it |
| ConfigInit.Manager.LoadTable | wlutil/config.py:695-708 | with the source's applyBase, the finished configurations of distributions and based workloads form a table that building relies on |
| ConfigInit.Manager.InitializeAll | wlutil/config.py:695-708 | after the loop over the table every workload and job is initialised and equals its reference configuration, applyBase having run exactly once on each that has a base |
| DistroFork.ForkInjective | wlutil/config.py:746-762 | the name of a copy determines the original and the options |
| DistroFork.ReuseFork | wlutil/config.py:766-768 | an existing copy with the right name carries the right options down to the distribution, over workloads with the contents of its original's |
| DistroFork.DownChain | boards/default/distros/br/br.py:89-96 | merging along a chain of copies gives their environment again, and their fragments repeated once per copy |
| DistroFork.MergedIff | wlutil/config.py:719-731 | merging gives exactly the fragments of the original chain, root first, if and only if no base but the root had been forked with fragments of its chain to repeat |
| DistroFork.RepeatedFragments | wlutil/config.py:719-731 | with n on b on r, each adding a fragment, forking b before n gives n the fragments a, b, a, b, c instead of a, b, c |
| DistroFork.EnvSays | boards/default/distros/br/br.py:89-96 | a variable has the value that the most derived workload on the chain that sets it gives it |
| DistroFork.CurrentChain | wlutil/config.py:719-731 | however many ancestors were forked before, the current chain has the contents of the original, workload by workload, merging along it gives the environment of the original chain and exactly the fragments that `MergedBase` says, and fails exactly if the original root has no options |
| DistroFork.ChainNoRepeats | wlutil/config.py:719-731 | a chain that reaches a root visits no workload twice |
| DistroFork.ChainUnique | wlutil/config.py:719-731 | a workload has only one chain |
| DistroFork.Manager.MergeOptsRecursive | wlutil/config.py:719-731 | computes the options merged along the chain |
| DistroFork.Manager.BaseOnDistro | wlutil/config.py:739-759 | gives a workload the distribution for its options, creating it once, and changes nothing else |
| DistroFork.Manager.ForkRecursive | wlutil/config.py:736-778 | gives a workload a base that carries its options down to the distribution, over copies with the contents of the bases it had, and changes no other existing workload |
| DistroFork.Manager.ForkDistro | wlutil/config.py:710-780 | succeeds exactly if the root of the chain has options; then the leaf has the right-biased union of the environments of its original chain, and the fragments of that chain if and only if none were repeated before; the i-th workload of its new chain has the contents of the i-th of the original one and the leaf's options, copies are listed under their names, the last is based on the distribution, and all other existing workloads are unchanged |
| DistroFork.Manager.ForkAll | wlutil/config.py:688-693 | the same for all leaves, processed in any order, contents included; the fragments of a leaf are right if and only if no base but its root came before it in the order with fragments to repeat |
| BuildGraph.Loader.AddTask | wlutil/build.py:31-35 | a task whose name is taken is dropped, any other is appended |
| BuildGraph.Loader.AddDep | wlutil/build.py:168-313 | adds exactly the tasks of the workload, in order, and fails exactly if a required option is missing |
| BuildGraph.Loader.AddImage | wlutil/build.py:281-313 | the image task and the task listing its files, which share one list of dependencies |
| BuildGraph.Loader.BuildDepGraph | wlutil/build.py:320-342 | builds the graph of all workloads, in order |
| BuildGraph.GraphNames | wlutil/build.py:168-342 | every task of every workload is in the graph by name |
| BuildGraph.DepTask | wlutil/build.py:168-313 | what a task waits for is a task of its own workload or of its base |
| BuildGraph.DepsAreTasks | wlutil/build.py:168-342 | every dependency a task of the graph names is a task of the graph |
| BuildGraph.InputsAreProduced | wlutil/build.py:168-342 | every generated file a task reads is a target of a task it waits for |
| BuildGraph.CyclicIff | wlutil/build.py:168-342 | the graph is cyclic if and only if some workload combines bin, img, post-bin and nodisk |
| BuildGraph.EdgesAre | wlutil/build.py:168-313 | exactly what the binary, the diskless binary, the post-bin script and the image of a workload wait for, by its options |
| BuildGraph.ReadsAre | wlutil/build.py:168-313 | exactly which generated files each task of a workload reads |
| HostInitOrder.HostInitFirst | wlutil/build.py:168-342 | the binary or image of a workload waits, directly or not, for the host-init script of a workload it inherits from if and only if scripts, images, copied binaries, and post-bin or guest-init scripts in between lead there |
| HostInitOrder.ImagesCarry | wlutil/config.py:540-551 | they do if the workload next to the owner of the script has an image |
| HostInitOrder.ScriptTooLate | wlutil/build.py:168-342 | a resolved set of three Linux workloads without images, each with a kernel of its own, in which the last does not wait for the script of the first |
| MakeBin.Machine.Copy | wlutil/build.py:528-533 | copies one file, and fails without effect exactly if the source is missing |
| MakeBin.Machine.MergeConfig | wlutil/build.py:427-428 | merges fragments into options, later ones winning |
| MakeBin.Machine.GenerateKConfig | wlutil/build.py:413-428 | merges fragments into the `.config` found in the kernel tree and leaves the result there; fails exactly if there is none |
| MakeBin.Machine.Compile | wlutil/build.py:553-580 | configures the tree twice, for modules and kernel, and leaves a kernel with the merged options, its firmware and its symbols |
| MakeBin.Machine.Make | wlutil/build.py:523-582 | copies the parent's binary and symbols, or compiles, or leaves a prebuilt binary alone |
| MakeBin.StemsKeepApart | wlutil/config.py:556-561 | the binary, symbols and diskless variants of different workloads never share a path |
| MakeBin.CopyGives | wlutil/build.py:528-534 | copying gives the child exactly its parent's kernel |
| MakeBin.OriginIs | wlutil/config.py:563-572 | the task that compiled what a chain of copies hands down has the kernel and firmware options of the copying workload |
| MakeBin.BuildLeaves | wlutil/build.py:523-582 | every build of every loaded table that runs copying tasks after their base's, from any stale files, succeeds if and only if the kernel trees have a `.config`, and leaves each Linux workload the kernel that compiling it would have given when its origin was compiled |
| MakeBin.HiddenIff | wlutil/build.py:413-428 | options left in a tree do not change a kernel if and only if each is set by its own fragments or has its first value |
| MakeBin.CopyPreservesMeaning | wlutil/build.py:523-582 | the binary of a Linux workload, copied or compiled, is the one compiled in the tree as first found if and only if no option left there by tasks before its origin shows |
| MakeBin.LastFragmentWins | wlutil/build.py:427-428 | a merged option has the value of the last fragment that sets it |
| MakeBin.BinaryIs | wlutil/build.py:437-582 | after every build the binary of a Linux workload is at its path and holds its firmware and a kernel from its source, with its modules, its image exactly if diskless, and each option as its last own fragment that sets it says, or else as the tree had it when the origin was compiled |
| MakeBin.ChainBinary | wlutil/build.py:437-582 | the same by the chain of workloads it inherits from: a module is in at a path exactly if that is its last mention, the source is the last mentioned, and fragments of the chain decide options, the most derived last |
| SharedTree.Mixed | wlutil/build.py:413-428 | for all p and q with a fragment each in one tree, built in this order, q does not get the kernel that compiling it in the tree as found gives |
| SharedTree.Copied | wlutil/build.py:528-534 | and c, which copies from p, gets that kernel but not the one that compiling it at its turn would give |
| SharedTree.FragmentsLeak | wlutil/build.py:413-428 | a loaded table of such workloads |
| BuildOrder.GraphOrderIsOrdered | wlutil/build.py:192-220 | every order of binary tasks in which what a task waits for comes first builds copies after what they are copied from |
| BuildOrder.GraphBuildIsFaithful | wlutil/build.py:320-342 | so in every build that follows the graph, a Linux binary is the one compiled in the tree as first found if and only if no option left there by tasks before its origin shows |
| BuildOrder.WritesTargets | wlutil/build.py:205-262 | makeBin writes nothing but the targets its task declares |
| BuildOrder.ReadsInputs | wlutil/build.py:523-582 | what it writes is decided by the kernel trees and the generated files its task is said to read |
| SkbRing.NextWraps | boards/default/drivers/accnet-driver/accnet.c:57-81 | masking with 1279 keeps indices in 0..255 and advances them cyclically |
| SkbRing.Ring.constructor | boards/default/drivers/accnet-driver/accnet.c:51-55 | an empty ring |
| SkbRing.Ring.Push | boards/default/drivers/accnet-driver/accnet.c:57-66 | appends, or drops the buffer exactly if 255 are queued |
| SkbRing.Ring.Pop | boards/default/drivers/accnet-driver/accnet.c:68-81 | removes the oldest, or returns nothing exactly if empty |
| TxFrame.PostSend | boards/default/drivers/accnet-driver/accnet.c:135-161 | writes one word per segment, the partial bit on all but the last |
| TxFrame.WordRoundTrip | boards/default/drivers/accnet-driver/accnet.c:124-133 | a word gives back its segment and partial bit if and only if length < 2^15 and address < 2^48 |
| TxFrame.WordFields | boards/default/drivers/accnet-driver/accnet.c:130-130 | where the partial bit, the length and the address are in a word |
| TxFrame.DecodeInOrder | boards/default/drivers/accnet-driver/accnet.c:124-161 | decoding any stream neither reorders nor invents segments |
| TxFrame.StreamRoundTrip | boards/default/drivers/accnet-driver/accnet.c:124-161 | decoding the words of any sequence of packets gives back the packets and their boundaries if and only if all segments fit |
| TxPath.StepInv | boards/default/drivers/accnet-driver/accnet.c:135-217 | every step of transmit, completion and device keeps the accounting, unless it pushes onto a full ring |
| TxPath.PushKeepsLaw | boards/default/drivers/accnet-driver/accnet.c:161-161 | a push keeps the conservation law if and only if the ring is not full |
| TxPath.TxSafety | boards/default/drivers/accnet-driver/accnet.c:187-217 | in every run without overflow, requests plus unread completions are the queued segments, the request FIFO is never overfilled, no empty ring is inspected, a stopped queue still has work ahead that can wake it, and buffers are freed once, in order, after all their segments |
| TxPath.LawIffNoOverflow | boards/default/drivers/accnet-driver/accnet.c:135-217 | in every run the conservation law holds throughout if and only if no buffer is pushed onto a full ring |
| TxPath.CompleteSendFrees | boards/default/drivers/accnet-driver/accnet.c:187-217 | from every reachable unlocked state, a call of complete_send, whatever the device does meanwhile, frees exactly the longest run of oldest buffers whose segments the completions it found account for, and empties the ring if the device is done |
| TxPath.LongestRun | boards/default/drivers/accnet-driver/accnet.c:196-211 | no longer run is accounted for |
| TxPath.CallProceeds | boards/default/drivers/accnet-driver/accnet.c:187-217 | every call returns: it always has a next step, which lowers the work left |
| TxPath.AllFreed | boards/default/drivers/accnet-driver/accnet.c:187-217 | no accepted buffer is stuck: once the device is done one more call has freed them all |
| TxPath.AwakeAccepts | boards/default/drivers/accnet-driver/accnet.c:582-603 | an awake queue accepts a packet if and only if it has fewer than 17 fragments or there is room for more than 17 segments |
| TxPath.QueueFlow | boards/default/drivers/accnet-driver/accnet.c:570-608 | a packet is accepted exactly if its segments fit the 64 request slots; the queue stops and wakes at room for 17 |
| TxPath.OverflowReachable | boards/default/drivers/accnet-driver/accnet.c:570-608 | a run in which nobody processes completions overflows the ring and breaks the law |
| RxPath.StepInv | boards/default/drivers/accnet-driver/accnet.c:219-291 | with a budget of at least 64 every step keeps the accounting |
| RxPath.RxBudget | boards/default/drivers/accnet-driver/accnet.c:219-291 | buffers at the device plus unread completions are the ring, delivered in posting order, in all runs if and only if the budget is at least 64 |
| RxPath.RxSafety | boards/default/drivers/accnet-driver/accnet.c:219-291 | with such a budget no empty ring is popped, no missing completion read, and at most 128 buffers are queued |
| Napi.StepInv | boards/default/drivers/accnet-driver/accnet.c:293-372 | every step of handlers, poll, transmit and open keeps the scheduling invariant |
| Napi.MaskedBy | boards/default/drivers/accnet-driver/accnet.c:302-342 | a handler masks its own interrupt only, a poll that is done unmasks both, and nothing else but opening touches the mask |
| Napi.NapiSafety | boards/default/drivers/accnet-driver/accnet.c:293-372 | in every interleaving on an open device a masked interrupt means that a poll is scheduled, a handler is about to schedule one, or a poll is about to unmask; polls never overlap, and no request for a poll is lost |
| Napi.SomethingOwed | boards/default/drivers/accnet-driver/accnet.c:293-372 | while an interrupt is masked some step of the driver is due |
| Napi.WorkDrops | boards/default/drivers/accnet-driver/accnet.c:293-372 | every step that is due lowers the work left |
| Napi.Unmasked | boards/default/drivers/accnet-driver/accnet.c:344-372 | from every state satisfying the invariant the due steps lead to both interrupts being enabled |
| RdmaServer.Server.constructor | boards/default/app/rdma/server_ts.c:77-109 | an empty queue and no rows |
| RdmaServer.Server.RxqGrowAndCompact | boards/default/app/rdma/server_ts.c:111-119 | makes room and keeps the contents |
| RdmaServer.Server.RxqPush | boards/default/app/rdma/server_ts.c:120-124 | appends to the FIFO, growing it if need be |
| RdmaServer.Server.RxqPop | boards/default/app/rdma/server_ts.c:125-132 | removes the oldest, fails exactly if empty, compacting keeps the rest |
| RdmaServer.Server.RowsReserve | boards/default/app/rdma/server_ts.c:80-87 | makes room and keeps all rows |
| RdmaServer.Server.RowsPush | boards/default/app/rdma/server_ts.c:88-91 | appends a row |
| RdmaServer.Server.HandleCompletion | boards/default/app/rdma/server_ts.c:230-266 | queue and rows change as the value-level program says |
| RdmaServer.Server.Serve | boards/default/app/rdma/server_ts.c:219-267 | handles completions in order up to the first that reports an error |
| RdmaServer.StepInv | boards/default/app/rdma/server_ts.c:178-267 | every step of server and device keeps the work-request law |
| RdmaServer.ServerSafety | boards/default/app/rdma/server_ts.c:178-267 | over every run posted receives plus outstanding sends are 256, no queue exceeds its depth, the time queue is exactly the receives not yet paired and never misses, and row k pairs the k-th receive and send |
| UdpRing.RegistersDetermine | boards/default/lib/udp_exp.c:111-116 | modular head and tail of ever-growing counters determine free and available bytes |
| UdpRing.Next32Is | boards/default/lib/udp_exp.c:161-161 | for every 32-bit ring size, an index advanced in 32-bit arithmetic comes out modulo the size if and only if the sum stays below 2^32 |
| UdpRing.AdvancesIff | boards/default/lib/udp_exp.c:161-161 | every index advances rightly by a chunk if and only if size - 1 + chunk < 2^32; otherwise the last index does not |
| UdpRing.QuotaIsLargest | boards/default/lib/udp_exp.c:147-155 | the quota is the largest whole number of chunks within half the ring, the free space and the need |
| UdpRing.Ring.Advance | boards/default/lib/udp_exp.c:157-163 | stepping the tail chunk by chunk advances it by the quota modulo the size if and only if the step over the end of the ring stays below 2^32 |
| UdpRing.NeverWraps | boards/default/lib/udp_exp.c:147-163 | it always does for chunks with size - 1 + chunk < 2^32, and for chunks above half the ring, which are never sent |
| UdpRing.LastIndexWraps | boards/default/lib/udp_exp.c:157-163 | and fails for every other chunk of at most half the ring, when one is filled from the last index |
| UdpRing.Ring.TryFill | boards/default/lib/udp_exp.c:131-173 | publishes exactly the quota while the device drains concurrently; the registers then show the counters, with occupancy at most size - 1, if and only if no step left 32 bits |
| UdpRing.Ring.Drain | boards/default/lib/udp_exp.c:177-193 | consumes exactly what was published when it looked, while more arrives |
| UdpRing.Loopback | boards/default/lib/udp_exp.c:196-225 | every iteration adds exactly the quota for what is free and still needed; totals are exactly what was published and consumed, in whole chunks and never above the target; each look finds at least what the one before found, and what is consumed is exactly what had been published at the last look |
| Printf.DigitsValue | test/bare/syscalls.c:158-177 | the digits printed in any base from 2 to 36 denote the number |
| Printf.CollectDigits | test/bare/syscalls.c:161-170 | the 64-entry buffer holds the digits of every 64-bit number in every base |
| Printf.EmitDigits | test/bare/syscalls.c:175-176 | prints the buffered digits, most significant first |
| Printf.PrintNum | test/bare/syscalls.c:158-177 | prints the digits, padded on the left to the width |
| Printf.ScanNumber | test/bare/syscalls.c:247-252 | reads a width or precision, an int overflow on the way being an error |
| Printf.ScanDirective | test/bare/syscalls.c:218-276 | terminates, reads nothing past the NUL, and yields the flags, letter and arguments that `Parse` defines |
| Printf.StrNLen | test/bare/syscalls.c:424-430 | the length up to the NUL or the bound |
| Printf.PrintString | test/bare/syscalls.c:284-296 | the clipped string, padded left or right |
| Printf.ConvertOne | test/bare/syscalls.c:279-345 | each conversion prints what `Convert` defines |
| Printf.VPrintFmt | test/bare/syscalls.c:199-348 | terminates on every format, reads nothing past its NUL, and prints what `Formatted` defines |
| Printf.EscapedPrintsItself | test/bare/syscalls.c:208-215 | any text whose percent signs are doubled prints as itself |
| Printf.Atol | test/bare/syscalls.c:452-471 | computes what `Parsed` defines, overflow being an error |
| Printf.PrintThenAtol | test/bare/syscalls.c:298-334 | atol reads a printed number back if and only if it can read through its padding |
| Printf.ConversionRoundTrip | test/bare/syscalls.c:218-334 | the same for every %d conversion of every format, whatever its flags |
| Printf.LongRoundTrip | test/bare/syscalls.c:361-379 | atol of a long printed with %ld is that long, for every long but the least, whose negation is undefined |
| Formats.UnsignedPrints | test/bare/syscalls.c:308-334 | every %u, %o, %x and %p, whatever its flags, prints the argument modulo 2^32, or 2^64, as a numeral in base 10, 8, 16 and 16, padded on the left, after 0x for %p |
| Formats.DecimalPrints | test/bare/syscalls.c:298-306 | every %d prints sign, padding and magnitude of the argument as a signed number |
| Formats.CharPrints | test/bare/syscalls.c:278-281 | %c prints the low eight bits of the argument, %% a percent sign |
| Formats.StringPrints | test/bare/syscalls.c:283-296 | %s prints the text up to its NUL or the precision, padded to the width on the side the flag says |
| Formats.PlainPrints | test/bare/syscalls.c:199-348 | the formats %u, %o, %x, %lu, %lo and %lx print the numeral alone |
| Formats.PointerPrints | test/bare/syscalls.c:319-334 | the format %p prints 0x and the address |
| Formats.ReadsWritten | test/bare/syscalls.c:218-276 | a specification written as flag, width, precision, length and letter reads as just that, anywhere in any format |
| Formats.AtolReads | test/bare/syscalls.c:452-471 | atol skips spaces, takes one sign and reads every numeral that fits a long |
| Formats.HexesPrint | test/bare/syscalls.c:199-348 | any number of %x in a row prints the arguments one by one, in order |
| Formats.UnknownPrints | test/bare/syscalls.c:341-345 | an unknown conversion, or a percent sign at the end, prints as it stands |

## Left out

- Config.ApplyBaseOutputs: options that later code only carries along are one map, inherited key by key; `cpus` and `mem` are never inherited because loading always sets them.
- DistroFork.Manager.ForkDistro: one distribution, whose hash of options is an injective function without dots; distributions without a hash (they ignore options, so nothing is copied), collisions of the truncated MD5, and loaded workloads named like a copy are not modelled.
- DistroFork.Manager.ForkRecursive: a leaf and its copies share one options dictionary in the source; it is filled in before it is shared, and the model holds values.
- ConfigInit.Manager.InitializeAll: assumes that no workload is based on a job, that links form no cycle, and that owners come before their jobs in the table; the source does not check these.
- BuildGraph.CyclicIff: assumes distinct task names, so workloads without a kernel that share their parent's binary path are outside it; edges that doit adds for files are not modelled.
- HostInitOrder.HostInitFirst: assumes distinct task names, as `BuildGraph.CyclicIff` does.
- MakeBin.CopyPreservesMeaning: takes the order of copying tasks as given, which `BuildOrder.GraphBuildIsFaithful` derives from the graph; compiling is a function of the merged options, the module paths, the firmware group and, for the diskless variant, the image; the options by which Kconfig completes a merged configuration, and those with which modules are compiled, are not modelled.
- TxPath.TxSafety: about accepted packets in runs without ring overflow; the busy path, which frees the packet it refuses, only stops the queue.
- UdpRing.Loopback: byte counts only, since payload is not copied; chunks for which no index leaves 32 bits, or which are never sent; termination is not claimed, as the code does not guarantee it when the target is no multiple of the chunk.
- RdmaServer.Server.RxqPush: no bound on the capacity, which every compaction doubles.
- Barrier: weaker memory models than sequential consistency.
- Closing the network device, its register map, checksums and interrupt numbers.
- The `iocache` drivers, the other RDMA and socket programs, statistics and timing.
- Loading of YAML, path cleaning, subprocesses, mounting, installers and the test comparison.
- `putchar` buffering, `memcpy`, `memset`, `strcmp` and `random` of the bare-metal library.
