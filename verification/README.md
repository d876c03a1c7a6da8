# Models of the Genymotion/AndroVM guest components

This project states and proves properties of the parts of the Android guest support code that do
real work on state: the emulated camera's request pipeline and focus machine, the real-mode memory
allocator and the port-instruction emulator of the v86 helper, the guest-control message matcher,
the colour, text and GPS conversions, and the audio buffering. `dafny verify dfyconfig.toml` checks
everything.

| file | what it models |
|---|---|
| `Basics.dfy` | types that several models share |
| `RealMemory.dfy`, `RealMemoryManager.dfy` | the first-fit allocator: tables as values with their meaning as a map of live blocks, and the block array updated in place |
| `V86Task.dfy` | the interrupt task as a client of the allocator; the BIOS is a parameter |
| `InFlightRing.dfy` | the ring of in-flight operations, on values and in place, for any size of at least 2 |
| `CameraPipeline.dfy`, `CameraCalls.dfy`, `CameraProgress.dfy` | configure thread, ring, readout thread, JPEG stage and API calls as a transition system whose steps are critical sections; what the calls come to over whole runs; how a run can go on |
| `Autofocus.dfy`, `ControlThread.dfy` | the focus machine with requests and triggers arriving inside a cycle, and the control thread in place, one method for each phase of its loop |
| `Channels.dfy`, `GuestControl.dfy` | the matching of output contexts to messages as queues per connection, and the linked lists spliced in place |
| `Color.dfy`, `Converters.dfy` | colour arithmetic, and the pointer walk that converts YUV 4:2:0 frames, for four layouts |
| `Utf.dfy` | UTF-16 to UTF-8, against the definitions of section 2.2 of RFC 2781 and section 3 of RFC 3629 |
| `Decimal.dfy`, `Nmea.dfy`, `LocalGps.dfy`, `GpsReader.dfy` | printed numbers, the RMC and GGA sentences, the server that prints them and the reader that frames, cuts and parses them |
| `StringIo.dfy` | prefix decoding and the string port instructions with REP |
| `Capture.dfy` | capture frames on their way from the driver through the period buffer, with the right channel discarded in place, to the preprocessors |
| `OutWrite.dfy` | the throttle of audio output and the threshold it follows |

The imperative parts of the source are classes and methods here. Each is proved equal to a function
on values (or to a step of a machine), and the lemmas are about those functions and machines.

## Where the code is not what one expects

- `LRMI_alloc_real` does not refuse sizes below 1. `RealMemory.AllocExact` says exactly which requests
  leave an intact table, `RealMemory.AllocOfNothing` shows size 0 breaking one; freeing the result
  still restores the old table (`RealMemory.AllocThenFree`), so the interrupt task restores the
  allocator for every buffer length.
- `getInProgressCount` can return zero while a request has been dequeued but is not counted yet
  (EmulatedFakeCamera2.cpp:704-720). `CameraPipeline.ZeroMeansOver` is what a zero does mean,
  `ZeroExactly` is the exact condition, and `ZeroMissesUncounted` with `UncountedReached` is a run
  that shows the exception.
- `releaseStream` takes the parent's mutex before those of the workers, and the workers take theirs
  before it (EmulatedFakeCamera2.cpp:419, 666, 701, 801; likewise 1152, 1163 and 1374 for the input
  mutex of readout), so a release can wait for ever. `CameraProgress.CallGoesOnExactly` says exactly
  when, and `StuckAtConfigure` and `StuckAtReadout` are runs that get there. With no call under way
  the workers can always finish (`CanFinish`).
- The comment on continuous autofocus says that a scan starts about once in five seconds. The
  constant it is compared with exceeds 1, so a scan starts in every cycle that finds none
  (`Autofocus.DrawAlwaysStarts`).
- The lock-after-scan flag and the scan duration are never initialised. The results on them hold for
  every initial value unless they say otherwise.
- `YV12ToRGB565` reads the chroma planes in the order of YU12: `Converters.Yv12As565` says what image
  it shows. That is the stored one exactly if both chroma planes are equal (`Yv12As565Exactly`,
  `Yv12As565Whole`); `Yv12As565Fails` is a frame for which it is not.
- `converUTF16toUTF8` allocates two bytes for each unit and one more, which is too little exactly if
  the units that take three bytes outnumber those that take one by more than what unread units
  leave to spare (`Utf.OverflowExactly`; `OneWideUnit` is the shortest such input). Its only caller
  gives the length in bytes, so the string ends in the first half and the result fits
  (`EarlyZeroFits`).
- A line of exactly 84 characters makes the GPS reader lose the next line too
  (`GpsReader.LineFramed`, `LineSkipped`). So does one of more than 127, which the server cuts before
  its newline (`CutSwallowsNext`).
- The reader looks for the fields of RMC in a GGA sentence, and takes the hemisphere letter for the
  latitude. The GGA line that the server prints therefore brings altitude and accuracy but leaves the
  position alone (`GpsReader.GgaReports`). Which GGA lines do move it is `GgaMovesExactly`, and
  `GgaThatMoves` is a family of them.
- The reader looks at both hemispheres of every line that has an id, though only GGA and RMC set them.
  From start-up this goes well exactly if the first such line is one of these two
  (`GpsReader.SafeExactly`); `UnsafeFirstLine` is one that is not.
- The reset of the write threshold is positive only for fills of at least -512
  (`OutWrite.ResetPositiveExactly`), which needs a driver that reports no more room than about its
  buffer.
- When the capture driver fails in the middle of a reload, the frames that this reload has already
  copied are dropped; `Capture.StreamIn.ProcessFrames` says how many that can be.
- The base and size of real-mode memory are those of `x86-common.c`; the headers beside it define
  others that it does not use.

## Model

| member | source | states |
|---|---|---|
| RealMemory.InitialTable | common_x86/v86d/lrmi/x86-common.c:78-81 | The first table is intact and has no live block. |
| RealMemory.FirstAllocation | common_x86/v86d/lrmi/x86-common.c:36-37 | On the first table, any size that leaves a paragraph over gets address 0x1000 and the size rounded up to 16. |
| RealMemory.AllocKeeps | common_x86/v86d/lrmi/x86-common.c:118-147 | For sizes of at least 1, an allocation keeps the tiling, the 16-byte multiples, the limit of 256 entries and the free last block, and adds exactly one live block at a new 16-aligned address, or fails and changes nothing. |
| RealMemory.FirstFitIsLowestGap | common_x86/v86d/lrmi/x86-common.c:130-146 | The search takes the lowest stretch, clear of all live blocks, that is one paragraph longer than the request, and fails exactly if there is none. |
| RealMemory.AllocIsLowestGap | common_x86/v86d/lrmi/x86-common.c:118-147 | The same for the whole arena of 0xa0000 bytes from 0x1000: where a block is put depends on the live blocks alone, and a request fails exactly if there is no such stretch or the table has 256 entries. |
| RealMemory.LiveDisjoint | common_x86/v86d/lrmi/x86-common.c:40-49 | Any two live blocks of an intact table are disjoint. |
| RealMemory.AllocExact | common_x86/v86d/lrmi/x86-common.c:130-138 | For any size at all, a successful request leaves an intact table if and only if the rounded size, cut to 20 bits, is positive and smaller than the block it was taken from. |
| RealMemory.AllocOfNothing | common_x86/v86d/lrmi/x86-common.c:130-138 | A request for 0 bytes succeeds on the first table and leaves one that is not intact. |
| RealMemory.AllocThenFree | common_x86/v86d/lrmi/x86-common.c:118-178 | Freeing what was just allocated gives the exact table back, for any size. |
| RealMemory.FreeKeeps | common_x86/v86d/lrmi/x86-common.c:150-178 | A free of any pointer keeps the table intact and removes exactly the live block that starts there; any other pointer changes nothing. |
| RealMemory.Canonical | common_x86/v86d/lrmi/x86-common.c:150-178 | Two intact tables with the same live blocks are the same table: coalescing is complete. |
| RealMemory.RunKeeps | common_x86/v86d/lrmi/x86-common.c:118-178 | Every table that any run of requests and arbitrary frees reaches is intact. |
| RealMemory.RunsAgree | common_x86/v86d/lrmi/x86-common.c:118-178 | Two runs that leave the same blocks live leave the same table. |
| RealMemory.AllFreed | common_x86/v86d/lrmi/x86-common.c:118-178 | A run that has freed all its blocks is back at the first table. |
| RealMemory.FreesCommute | common_x86/v86d/lrmi/x86-common.c:150-178 | Frees in any order, repeated or mixed with junk, give the same table if they name the same addresses. |
| RealMemory.FreeingAllRestores | common_x86/v86d/lrmi/x86-common.c:150-178 | Freeing every live block, in any order, leads back to the single free block. |
| RealMemoryManager.MemInfo.Init | common_x86/v86d/lrmi/x86-common.c:51-84 | Initialisation happens once, and only if the arena could be mapped; it leaves the first table. |
| RealMemoryManager.MemInfo.InsertBlock | common_x86/v86d/lrmi/x86-common.c:96-105 | The memmove makes room at i and leaves that entry twice, all others once and in order. |
| RealMemoryManager.MemInfo.DeleteBlock | common_x86/v86d/lrmi/x86-common.c:107-116 | The memmove removes entry i and keeps all others in order. |
| RealMemoryManager.MemInfo.AllocReal | common_x86/v86d/lrmi/x86-common.c:118-147 | The loop over the array returns the address and leaves the table of the recursive first fit; nothing happens before initialisation. |
| RealMemoryManager.MemInfo.FreeReal | common_x86/v86d/lrmi/x86-common.c:150-178 | The search and the two merges in the array leave the table of the recursive release. |
| RealMemoryManager.SearchEnds | common_x86/v86d/lrmi/x86-common.c:132-144 | The entry where the loop stops determines the address and the split of the recursive first fit. |
| RealMemoryManager.ReleaseAt | common_x86/v86d/lrmi/x86-common.c:159-177 | Merging with the next entry and then with the previous one, at the entry found, is the recursive release. |
| V86Task.SegmentIsExact | common_x86/v86d/v86_common.c:51-58 | The address of any allocated block is a 16-bit segment with offset zero, exactly, and is not taken for a failure. |
| V86Task.Task | common_x86/v86d/v86_common.c:33-155 | On every path and for every buffer length the allocator ends as it began; -1 exactly if a wanted buffer cannot be had; otherwise the BIOS is called with es and edi or ebx denoting the borrowed block, or zero if none was wanted, as the flags say, and every other register, and those the flags do not name, as given. |
| InFlightRing.Ring.ReadyMeansRoom | vbox86/camera/camera_vbox86/EmulatedFakeCamera2.cpp:1125-1127 | The readiness test holds exactly if fewer than size - 1 operations wait. |
| InFlightRing.Ring.PushAppends | vbox86/camera/camera_vbox86/EmulatedFakeCamera2.cpp:1139-1142 | On a ready ring a push appends one operation and overwrites none that waits. |
| InFlightRing.Ring.PopTakesOldest | vbox86/camera/camera_vbox86/EmulatedFakeCamera2.cpp:1209-1214 | A pop takes the oldest operation and leaves the others in order. |
| InFlightRing.InFlightQueue.SetNextOperation | vbox86/camera/camera_vbox86/EmulatedFakeCamera2.cpp:1129-1149 | An operation is appended, or refused with nothing changed exactly if the queue is full. |
| InFlightRing.InFlightQueue.TakeOldest | vbox86/camera/camera_vbox86/EmulatedFakeCamera2.cpp:1200-1218 | The oldest operation comes out, or none exactly if the queue is empty. |
| InFlightRing.InFlightQueue.Exists | vbox86/camera/camera_vbox86/EmulatedFakeCamera2.cpp:1154-1161 | The walk from head to tail finds an operation exactly if one that waits has the property. |
| CameraPipeline.SafeRelease | vbox86/camera/camera_vbox86/EmulatedFakeCamera2.cpp:418-448 | In every run, when a release is about to remove a stream, no buffer that any stage holds or is about to hold belongs to it, although the stages were scanned one after another while requests moved. |
| CameraCalls.ReleaseExactly | vbox86/camera/camera_vbox86/EmulatedFakeCamera2.cpp:418-448 | Over every run, a release removes its stream if and only if each of the four stages, when it was looked at, held no buffer of it; every other stream stays registered. |
| CameraCalls.ReleaseSucceeds | vbox86/camera/camera_vbox86/EmulatedFakeCamera2.cpp:2673-2686 | Every run that ends with a registered stream that no stage holds, both workers between their steps and no call under way goes on by a release to exactly that stream being gone and nothing else changed. |
| CameraCalls.AllocatedOnce | vbox86/camera/camera_vbox86/EmulatedFakeCamera2.cpp:360-371 | The n-th stream allocated gets the id n, which no stream has had before, not even one released since. |
| CameraPipeline.NoDanglingStream | vbox86/camera/camera_vbox86/EmulatedFakeCamera2.cpp:2693-2697 | In every run, every output stream that any stage refers to - configure and its pending buffer, the waiting ring, readout, JPEG - is registered, so the later lookups of the workers find it. |
| CameraPipeline.RingIsQueue | vbox86/camera/camera_vbox86/EmulatedFakeCamera2.cpp:1110-1218 | In every run, what readout has taken followed by what waits is what was accepted, in order; only reprocess requests are ever dropped for want of room; readout is inactive only with an empty ring and nothing held. |
| CameraPipeline.RequestsConserved | vbox86/camera/camera_vbox86/EmulatedFakeCamera2.cpp:885-908 | In every run, every dequeued request is in exactly one stage, or finished once, or dropped once, and no other request is anywhere. |
| CameraCalls.PassedOn | vbox86/camera/camera_vbox86/EmulatedFakeCamera2.cpp:1342-1376 | When readout is through with an operation it goes to the compressor exactly if it holds a compressed image of an output stream, and is finished otherwise; nothing else enters or leaves the compressor but what it finishes. |
| CameraCalls.OperationsFaithful | vbox86/camera/camera_vbox86/EmulatedFakeCamera2.cpp:797-813 | In every run, every operation accepted, dropped, held by readout, compressed or finished has exactly one buffer for each stream that its request names, in that order. |
| CameraCalls.RequestReturned | vbox86/camera/camera_vbox86/EmulatedFakeCamera2.cpp:1332-1340 | In every run, readout gives the request of the operation it took back to the client once, and before any of its buffers. |
| CameraCalls.WaitsForCompressor | vbox86/camera/camera_vbox86/EmulatedFakeCamera2.cpp:763-769 | A request that needs the compressor gets past the wait for it only while it is idle. |
| CameraPipeline.ZeroMeansOver | vbox86/camera/camera_vbox86/EmulatedFakeCamera2.cpp:219-228 | A count that adds up to zero, although read stage by stage, means that every request counted before the call began is over. |
| CameraPipeline.ZeroExactly | vbox86/camera/camera_vbox86/EmulatedFakeCamera2.cpp:700-721 | In a reachable state whose counts are zero, all dequeued requests are over if and only if none is between being dequeued and being counted. |
| CameraCalls.CountAddsUp | vbox86/camera/camera_vbox86/EmulatedFakeCamera2.cpp:219-228 | Over every run, a count adds up whether the configure thread holds a request it has counted, how many operations are in the ring and at readout, and whether the compressor is busy, each in a state of its own, one after the other. |
| CameraPipeline.ZeroMissesUncounted | vbox86/camera/camera_vbox86/EmulatedFakeCamera2.cpp:700-721 | Every run that stands between the two, with empty later stages, extends to one in which a count returns zero while that request is not over. |
| CameraPipeline.UncountedReached | vbox86/camera/camera_vbox86/EmulatedFakeCamera2.cpp:700-721 | There is such a run, for every ring size, with a stream allocated and a request for it. |
| CameraPipeline.StepKeeps | vbox86/camera/camera_vbox86/EmulatedFakeCamera2.cpp:680-1382 | Every step of either worker, the JPEG stage or an API call keeps the invariant that the results above rest on. |
| CameraProgress.CanFinish | vbox86/camera/camera_vbox86/EmulatedFakeCamera2.cpp:680-1382 | From every reachable state with no call under way, if the streams still to be looked up are registered, the workers and the compressor can finish everything dequeued, by steps of their own. |
| CameraProgress.CallGoesOnExactly | vbox86/camera/camera_vbox86/EmulatedFakeCamera2.cpp:2673-2697 | In every run with a call under way, the call can take its next step if and only if it does not wait for the internals of a worker that will need a mutex it holds; otherwise no continuation of the run ever gets it further. |
| CameraProgress.StuckForEver | vbox86/camera/camera_vbox86/EmulatedFakeCamera2.cpp:2673-2697 | A release that waits so never returns, whatever the workers do. |
| CameraProgress.StuckAtConfigure | vbox86/camera/camera_vbox86/EmulatedFakeCamera2.cpp:701-801 | A run in which a release waits for ever for the configure thread, which has a stream to look up, for every ring size. |
| CameraProgress.StuckAtReadout | vbox86/camera/camera_vbox86/EmulatedFakeCamera2.cpp:1151-1165 | A run in which a release waits for ever for readout, which needs the input mutex that the scan holds. |
| Autofocus.LegalAtBoundary | vbox86/camera/camera_vbox86/EmulatedFakeCamera2.cpp:1544-1741 | In every run, at each cycle boundary the published state is legal for the current mode or a mode change is pending. |
| Autofocus.NothingUnexpected | vbox86/camera/camera_vbox86/EmulatedFakeCamera2.cpp:1743-1877 | In every run, none of the branches reported as unexpected is taken. |
| Autofocus.LockMeansPassiveScan | vbox86/camera/camera_vbox86/EmulatedFakeCamera2.cpp:1769-1870 | At a boundary a pending lock in continuous-picture mode means a passive scan; with the flag initialised to false it also means that mode. |
| Autofocus.SleepBounded | vbox86/camera/camera_vbox86/EmulatedFakeCamera2.cpp:1713-1738 | In every run, every cycle sleeps for more than 0 and at most 100 ms, and never past the end of a scan under way. |
| Autofocus.SleepExactly | vbox86/camera/camera_vbox86/EmulatedFakeCamera2.cpp:1713-1738 | Every cycle sleeps for exactly 100 ms, or until the first of the scans under way is over, and takes that off the durations that have any left. |
| Autofocus.ScanTakesItsTime | vbox86/camera/camera_vbox86/EmulatedFakeCamera2.cpp:1837-1877 | A scan that is neither reset nor pre-empted ends in the cycle, and only in the cycle, that finds the sleeps since it began adding up to the duration drawn for it, whatever exposure does to the sleeps. |
| Autofocus.ScanEnds | vbox86/camera/camera_vbox86/EmulatedFakeCamera2.cpp:1837-1877 | Over every run, what a scan leaves: in the auto and macro modes focused exactly on success, in continuous-picture mode locked exactly if a trigger came to one of its cycles, in continuous-video mode focused unless a trigger ended it. |
| Autofocus.Settles | vbox86/camera/camera_vbox86/EmulatedFakeCamera2.cpp:1743-1835 | Over every run, what a cycle without a scan does: a trigger starts one in the modes that wait for it and locks the focus as it is in the continuous ones, which start a scan by themselves unless they are locked. |
| Autofocus.PendingExactly | vbox86/camera/camera_vbox86/EmulatedFakeCamera2.cpp:1610-1697 | Over every run, a trigger or a cancellation waits for the next cycle exactly if it was the last such call since a cycle began with no change of mode after it, and a change of mode or a precapture trigger exactly if one came since. |
| Autofocus.WorkStartsFrom | vbox86/camera/camera_vbox86/EmulatedFakeCamera2.cpp:1670-1705 | Over every run, the autofocus work of a cycle has the mode requested last, is triggered exactly if a trigger waited, and starts from rest if a cancellation or a change of mode waited, otherwise from the published state. |
| Autofocus.RequestSets | vbox86/camera/camera_vbox86/EmulatedFakeCamera2.cpp:1565-1590 | A request sets the modes and the lock and changes nothing else, but that releasing the lock ends its state. |
| Autofocus.ScanIsFinite | vbox86/camera/camera_vbox86/EmulatedFakeCamera2.cpp:1837-1877 | A scan sleeps for at most the duration drawn for it, in at most as many cycles as it has nanoseconds, and one that has used up its duration has slept in at least five. |
| Autofocus.FocusKeepsLegal | vbox86/camera/camera_vbox86/EmulatedFakeCamera2.cpp:1743-1889 | One cycle's work keeps a legal state legal, in every mode and for every trigger and draw. |
| Autofocus.FocusScan | vbox86/camera/camera_vbox86/EmulatedFakeCamera2.cpp:1743-1877 | What one cycle does to a scan: begins one with the drawn duration, goes on, ends it, or pre-empts it in continuous-video mode. |
| Autofocus.DrawAlwaysStarts | vbox86/camera/camera_vbox86/EmulatedFakeCamera2.cpp:1817-1835 | Every draw from 0 to 1 is below the rate it is compared with, so a continuous mode starts a scan in every cycle that finds none. |
| Autofocus.ExposeSleep | vbox86/camera/camera_vbox86/EmulatedFakeCamera2.cpp:1891-1971 | Exposure only ever shortens the sleep of a cycle, and keeps it positive. |
| Autofocus.ExposeScan | vbox86/camera/camera_vbox86/EmulatedFakeCamera2.cpp:1891-1971 | What one cycle does to an exposure scan: a trigger begins one in any state, a lock ends a search at once but not a precapture, otherwise it begins, goes on or ends, locked or converged; the sleep is cut to what is left of it. |
| Autofocus.ExposureTakesItsTime | vbox86/camera/camera_vbox86/EmulatedFakeCamera2.cpp:1941-1971 | Over any run, an exposure scan that no trigger or lock takes over ends in the cycle, and only in the cycle, that finds the sleeps since it began adding up to its duration, whatever autofocus does to the sleeps. |
| ControlThread.Thread.ReadyToRun | vbox86/camera/camera_vbox86/EmulatedFakeCamera2.cpp:1502-1533 | Start-up leaves a starting state of the machine. |
| ControlThread.Thread.ProcessRequest | vbox86/camera/camera_vbox86/EmulatedFakeCamera2.cpp:1544-1608 | A request is one event of the machine: a changed mode is marked and drops pending triggers. |
| ControlThread.Thread.TriggerAction | vbox86/camera/camera_vbox86/EmulatedFakeCamera2.cpp:1610-1635 | A trigger is one event of the machine; an unknown one is refused and changes nothing. |
| ControlThread.Thread.SampleInputs | vbox86/camera/camera_vbox86/EmulatedFakeCamera2.cpp:1670-1697 | The first critical section of a cycle takes its copies and consumes what it has seen. |
| ControlThread.Thread.ResetPhase | vbox86/camera/camera_vbox86/EmulatedFakeCamera2.cpp:1699-1705 | A cancel or a mode change resets the scan, the lock and the published state. |
| ControlThread.Thread.ProcessAfTrigger | vbox86/camera/camera_vbox86/EmulatedFakeCamera2.cpp:1743-1815 | The state and the private fields after a trigger are those of the machine. |
| ControlThread.Thread.MaybeStartAfScan | vbox86/camera/camera_vbox86/EmulatedFakeCamera2.cpp:1817-1835 | For every draw, the start of a scan is that of the machine. |
| ControlThread.Thread.UpdateAfScan | vbox86/camera/camera_vbox86/EmulatedFakeCamera2.cpp:1837-1877 | The progress and the end of a scan are those of the machine. |
| ControlThread.Thread.FocusPhase | vbox86/camera/camera_vbox86/EmulatedFakeCamera2.cpp:1707-1715 | The autofocus part of a cycle is one event of the machine. |
| ControlThread.Thread.UpdateAeScan | vbox86/camera/camera_vbox86/EmulatedFakeCamera2.cpp:1941-1971 | The progress and the end of an exposure scan are those of the machine. |
| ControlThread.Thread.ExposePhase | vbox86/camera/camera_vbox86/EmulatedFakeCamera2.cpp:1717-1723 | The exposure part of a cycle is one event of the machine. |
| ControlThread.Thread.SleepPhase | vbox86/camera/camera_vbox86/EmulatedFakeCamera2.cpp:1725-1740 | The sleep takes the same time off both scans. |
| ControlThread.Thread.Cycle | vbox86/camera/camera_vbox86/EmulatedFakeCamera2.cpp:1656-1741 | An undisturbed cycle keeps the invariant, leaves a legal state with no change pending, and has slept within bounds. |
| Channels.PickExactly | vbox86/bd-vbox/bd-vbox-ctrl.cpp:155-187 | A search finds a pair exactly if some connection occurs in both lists. |
| Channels.TakeFirst | vbox86/bd-vbox/bd-vbox-ctrl.cpp:164-180 | Taking the first entry of a connection takes the head of its queue and leaves every other connection's queue as it was. |
| Channels.PickIsFirst | vbox86/bd-vbox/bd-vbox-ctrl.cpp:162-163 | The context that a search takes is the oldest one of its connection. |
| Channels.RunKeeps | vbox86/bd-vbox/bd-vbox-ctrl.cpp:87-187 | In every run of pushes and searches and for every connection, what was delivered followed by what waits is what was pushed, on both sides. |
| Channels.DeliveredInOrder | vbox86/bd-vbox/bd-vbox-ctrl.cpp:87-187 | The k-th chunk delivered for a connection is the k-th message pushed for it, paired with the k-th context pushed for it, where what was pushed is every push of the run in order. |
| Channels.QuiescentMeansServed | vbox86/bd-vbox/bd-vbox-ctrl.cpp:155-187 | Once a search finds nothing, every connection has been delivered as many pairs as it can have. |
| Channels.Isolation | vbox86/bd-vbox/bd-vbox-ctrl.cpp:155-187 | So what a connection has got then does not depend on interleaving, nor on other connections. |
| GuestControl.List.Push | vbox86/bd-vbox/bd-vbox-ctrl.cpp:87-102 | The walk to the last cell appends one cell, whether or not the list was empty. |
| GuestControl.List.Pop | vbox86/bd-vbox/bd-vbox-ctrl.cpp:104-114 | The first cell comes off and the others stay in order. |
| GuestControl.List.Unlink | vbox86/bd-vbox/bd-vbox-ctrl.cpp:165-172 | Redirecting the previous cell, or the head, splices out exactly one cell. |
| GuestControl.FindMessage | vbox86/bd-vbox/bd-vbox-ctrl.cpp:163-181 | The inner loop stops at the first message of the connection, with the cell before it. |
| GuestControl.FindPair | vbox86/bd-vbox/bd-vbox-ctrl.cpp:162-183 | The outer loop stops at the first context whose connection has a message. |
| GuestControl.FindNext | vbox86/bd-vbox/bd-vbox-ctrl.cpp:155-187 | One search splices the pair of the queue model out of both lists, or finds nothing and changes nothing. |
| GuestControl.SearchIsMatch | vbox86/bd-vbox/bd-vbox-ctrl.cpp:155-187 | A search on the lists is the match step of the runs above, and its two cells have the same connection. |
| GuestControl.Write | vbox86/bd-vbox/bd-vbox-ctrl.cpp:693-711 | With short writes of any sizes, what has gone out is the prefix of the message that the accepted writes add up to, how it ended is what stopped them, and all of it has gone exactly if the loop ended by itself. |
| GuestControl.StopsAt | vbox86/bd-vbox/bd-vbox-ctrl.cpp:695-711 | All writes before the end take bytes, together fewer than there are; the loop ends as failed at a negative result, as ended at zero, as complete at one that takes the rest. |
| Color.VideoRange | vbox86/camera/camera_vbox86/Converters.h:147-158 | Every RGB colour converts into the nominal video range, so the cut to eight bits loses nothing. |
| Color.NearStandard | vbox86/camera/camera_vbox86/Converters.h:147-158 | The conversion to YUV is off by less than one step from that of ITU-R Recommendation BT.601. |
| Color.BackNearStandard | vbox86/camera/camera_vbox86/Converters.h:175-201 | So is the conversion to RGB, cut to a byte. |
| Color.RoundsToNearest | vbox86/camera/camera_vbox86/Converters.h:175-201 | Its weighted sums are rounded to the nearest, halves up. |
| Color.RoundTrip | vbox86/camera/camera_vbox86/Converters.h:147-201 | Converting any colour to YUV and back moves red and green by at most 2 and blue by at most 3. |
| Color.RoundTripTight | vbox86/camera/camera_vbox86/Converters.h:147-201 | These bounds are reached. |
| Color.Fields | vbox86/camera/camera_vbox86/Converters.h:82-94 | The three bit fields of a packed RGB565 pixel do not overlap. |
| Color.PackKeepsTopBits | vbox86/camera/camera_vbox86/Converters.h:205-214 | A converted pixel, packed to RGB565 and widened again, agrees with the exact conversion in all the bits that were kept. |
| Color.UnpackPack | vbox86/camera/camera_vbox86/Converters.h:82-94 | Every RGB565 word is what its widened channels pack to. |
| Color.WidenedScales | vbox86/camera/camera_vbox86/Converters.h:86-88 | Widening the channels of RGB565 scales their range to that of a byte, its ends exactly and all else within a step. |
| Color.ExchangeMatters | vbox86/camera/camera_vbox86/Converters.h:216-227 | A pixel whose red goes from full to none when U and V are exchanged. |
| Converters.PixelsByRow | vbox86/camera/camera_vbox86/Converters.cpp:39-55 | The pixel (y, x) of the results below is Y[y*w+x] with chroma element (y/2)*(w/2)+x/2. |
| Converters.AtInjective | vbox86/camera/camera_vbox86/Converters.cpp:39-55 | Different rows or columns are different elements. |
| Converters.ChromaBlocks | vbox86/camera/camera_vbox86/Converters.cpp:48-54 | Two pixels share a chroma sample exactly if they lie in the same block of two by two. |
| Converters.Row | vbox86/camera/camera_vbox86/Converters.cpp:70-77 | The inner loop writes one row from the indexed definition, leaves the rest of the output alone, and never reads outside the frame. |
| Converters.NextLine | vbox86/camera/camera_vbox86/Converters.cpp:69-85 | After an even row the chroma pointers go back to its start, after an odd one they go on; either way they stand at the chroma row of the next line. |
| Converters.Walk | vbox86/camera/camera_vbox86/Converters.cpp:58-86 | For even sides, the walk with its saved chroma pointers writes every pixel from the indexed definition and nothing else. |
| Converters.PlanesFit | vbox86/camera/camera_vbox86/Converters.cpp:97-171 | For all four layouts every element read lies in a buffer of one and a half bytes per pixel. |
| Converters.ToRgb32 | vbox86/camera/camera_vbox86/Converters.cpp:97-171 | The RGB32 entry points show every pixel of their layout. |
| Converters.ToRgb565Frame | vbox86/camera/camera_vbox86/Converters.cpp:88-163 | The RGB565 entry points do the same, with the plane order that each of them assumes. |
| Converters.SameImage | vbox86/camera/camera_vbox86/Converters.cpp:97-171 | Whichever of NV12, NV21, YU12 and YV12 an image is stored in, its entry point reads the same pixels. |
| Converters.InterleavedAs565 | vbox86/camera/camera_vbox86/Converters.cpp:141-163 | The RGB565 entry points for NV12 and NV21 show the image as it was stored. |
| Converters.Yv12As565 | vbox86/camera/camera_vbox86/Converters.cpp:88-95 | The RGB565 entry point for YV12 shows the image with its chroma planes exchanged. |
| Converters.Yv12As565Exactly | vbox86/camera/camera_vbox86/Converters.cpp:88-95 | A pixel is shown as it was stored if and only if the two chroma samples of its block are equal. |
| Converters.Yv12As565Whole | vbox86/camera/camera_vbox86/Converters.cpp:88-95 | A whole image is, if and only if its two chroma planes are equal. |
| Converters.Yv12As565Fails | vbox86/camera/camera_vbox86/Converters.cpp:88-95 | A frame of one block with different chroma samples, none of whose pixels is shown as it was stored. |
| Utf.Convert | vbox86/bd-vbox/androVM-vbox-sf.cpp:44-104 | With room for two bytes for each unit and one more, the loop runs out of it exactly if what it writes is longer; otherwise it returns null exactly if the units up to the first zero are not all characters, and else the encoding of their code points with a zero byte at the end. |
| Utf.OverflowExactly | vbox86/bd-vbox/androVM-vbox-sf.cpp:51-97 | What is written, for a text or before a null result, exceeds the allocation if and only if the units of three bytes that are read outnumber those of one byte by more than twice the units that are not read (one more for a null result). |
| Utf.TextOverflowExactly | vbox86/bd-vbox/androVM-vbox-sf.cpp:51-97 | The same for a text, up to the first zero unit. |
| Utf.EarlyZeroFits | vbox86/bd-vbox/androVM-vbox-sf.cpp:190 | A zero unit within the first two thirds of the length given is enough for the allocation to hold whatever is written; the only caller gives the length in bytes, twice the number of units. |
| Utf.OneWideUnit | vbox86/bd-vbox/androVM-vbox-sf.cpp:51 | The single unit 0x800 needs four bytes and three are allocated. |
| Utf.NullExactly | vbox86/bd-vbox/androVM-vbox-sf.cpp:58-90 | The result is null exactly if a lone surrogate, U+FFFE or U+FFFF comes before the first zero unit. |
| Utf.DecodeEncode | vbox86/bd-vbox/androVM-vbox-sf.cpp:62-97 | A strict UTF-8 decoder reads back exactly the code points that were encoded. |
| Utf.EncodeDecode | vbox86/bd-vbox/androVM-vbox-sf.cpp:62-97 | Bytes that the decoder accepts are the encoding of what it reads: the encoding is the shortest form and the only one. |
| Utf.Faithful | vbox86/bd-vbox/androVM-vbox-sf.cpp:57-93 | The code points, encoded in UTF-16 again, are the input up to its first zero. |
| Utf.CleanAndShort | vbox86/bd-vbox/androVM-vbox-sf.cpp:58-97 | No zero byte before the end, and at most three bytes for each unit. |
| Utf.Transcodes | vbox86/bd-vbox/androVM-vbox-sf.cpp:44-104 | A result that is not null decodes, strictly, to the input up to its first zero, is that short, and holds no zero. |
| Decimal.PaddedReads | vbox86/gps/local_gps.c:26 | What is printed with a minimum width are digits that spell the number. |
| Decimal.PaddedLength | vbox86/gps/local_gps.c:26 | The width is kept exactly if the number fits it. |
| Decimal.FixedReads | vbox86/gps/gps_vbox86.c:146-159 | What is printed with six decimals is read back within half a millionth. |
| LocalGps.Degrees | vbox86/gps/local_gps.c:116-140 | The reassignments of one variable give degrees, minutes and ten-thousandths of the coordinate. |
| LocalGps.PrintRmc | vbox86/gps/local_gps.c:116-177 | The printed line is the RMC sentence of the position, with the letters for its hemispheres, cut to the 127 characters that its buffer holds. |
| LocalGps.PrintGga | vbox86/gps/local_gps.c:116-168 | The same for the GGA sentence; none for a precision outside 0 to 200. |
| Nmea.CoordinateReturns | vbox86/gps/gps_vbox86.c:305-313 | A printed coordinate of fewer than 16 characters is read as at most the original and less than 1/600000 degree below it. |
| Nmea.NegativeReads | vbox86/gps/gps_vbox86.c:305-313 | A coordinate with a minus sign is read as the negative one. |
| Nmea.RmcTokens | vbox86/gps/gps_vbox86.c:54-105 | Each field of the printed sentence is found at its own token index. |
| Nmea.TokensOfGga | vbox86/gps/gps_vbox86.c:54-105 | Each field of the printed GGA sentence that is not empty is found at the place where the tokenizer leaves it. |
| Nmea.FirstSixteen | vbox86/gps/gps_vbox86.c:84-104 | Of more than sixteen fields the first sixteen become tokens. |
| Nmea.LineVariants | vbox86/gps/gps_vbox86.c:60-82 | The dollar sign, a checksum of two characters and a carriage return make no difference to the tokens. |
| Nmea.SentenceLength | vbox86/gps/local_gps.c:26 | The length of the sentence, exactly, from the digits of the degrees and the bearing. |
| Nmea.SentenceFits | vbox86/gps/local_gps.c:170-177 | It is at most 83 for a latitude below 100 and a longitude below 1000 degrees with a bearing of at most three digits before the point. |
| Nmea.GgaFits | vbox86/gps/local_gps.c:163-168 | The GGA sentence too is at most 83, for an altitude of less than ten million metres either way. |
| GpsReader.LineFramed | vbox86/gps/gps_vbox86.c:515-535 | Fed to an idle reader, a line of at most 83 characters is delivered whole; a longer one is dropped; one of 84 leaves the reader skipping. |
| GpsReader.LineSkipped | vbox86/gps/gps_vbox86.c:517-520 | A skipping reader loses one whole line and is then idle. |
| GpsReader.Reader.AddC | vbox86/gps/gps_vbox86.c:515-535 | A character takes the buffer through one step of the framing, and a completed line through the parser, once; it ends the program exactly if that line is not safe. |
| GpsReader.Receive | vbox86/gps/gps_vbox86.c:725-728 | A text given character by character: if the lines that it completes are safe, each is handled once and in order, and the buffer is where the framing of the text leaves it; otherwise the program ends. |
| GpsReader.Tokenize | vbox86/gps/gps_vbox86.c:54-105 | The loop gives the first sixteen of the fields between commas that are not empty, without the sign at the start, the newline and the checksum. |
| GpsReader.Str2Int | vbox86/gps/gps_vbox86.c:123-144 | The number, or -1 for anything but digits. |
| GpsReader.Reader.UpdateLatLong | vbox86/gps/gps_vbox86.c:316-351 | Both coordinates are set with their signs, or neither is. |
| GpsReader.Reader.Parse | vbox86/gps/gps_vbox86.c:400-512 | A line is safe exactly if it has no id or both hemispheres have been set; then it sets the tokens of its sentence and keeps the others, updates the fix from all of them, and reports it once if there is a callback and anything to report. |
| GpsReader.SafeExactly | vbox86/gps/gps_vbox86.c:464-471 | From start-up, no line of a run reads a hemisphere that was never set if and only if the first line with an id is GGA or RMC. |
| GpsReader.UnsafeFirstLine | vbox86/gps/gps_vbox86.c:464-471 | The first line $GPGSA,A,3,*47 does. |
| GpsReader.RmcReports | vbox86/gps/gps_vbox86.c:448-474 | Whatever the reader knew before, the line of a printable position is not cut, is safe, and gives a fix of that position, bearing and speed. |
| GpsReader.SentenceFramed | vbox86/gps/gps_vbox86.c:522-526 | A sentence is delivered whole exactly if it has at most 83 characters. |
| GpsReader.CutSwallowsNext | vbox86/gps/local_gps.c:82-83 | A line cut by the print buffer has lost its newline, and the reader drops it together with the line after it. |
| GpsReader.PrintedPositionArrives | vbox86/gps/local_gps.c:170-177 | From printer to fix: the line is printed uncut and framed whole, and the fix has the right hemispheres and is short of the position by less than 1/600000 degree. |
| GpsReader.EveryLineReported | vbox86/gps/gps_vbox86.c:476-506 | A reader with a callback, from its start, given any sequence of printed RMC and GGA lines, calls it once for each: a GGA line with its altitude and accuracy and nothing else, an RMC line with its position, bearing and speed and the altitude and accuracy of the last GGA line if there was one; all flags are clear after each. |
| GpsReader.ReceivePrinted | vbox86/gps/gps_vbox86.c:725-728 | The same from the printed characters. |
| GpsReader.StreamFramed | vbox86/gps/gps_vbox86.c:515-535 | The characters of any such lines are framed into exactly these lines. |
| GpsReader.NothingReported | vbox86/gps/gps_vbox86.c:503-511 | Without a callback nothing is ever reported. |
| GpsReader.AccuracyRead | vbox86/gps/gps_vbox86.c:286-303 | An accuracy that is set is taken if its text is digits of a number up to 200, which the empty text counts as, and is 1 otherwise. |
| GpsReader.NumbersRead | vbox86/gps/gps_vbox86.c:353-398 | Altitude, bearing and speed enter a fix exactly if their token is set and not empty, the latter two only with a status of A, as the number that the text spells. |
| GpsReader.ShortLineIgnored | vbox86/gps/gps_vbox86.c:406-409 | A line of fewer than nine characters changes nothing. |
| GpsReader.NineIsEnough | vbox86/gps/gps_vbox86.c:406-423 | One of nine can have an id. |
| GpsReader.GgaReports | vbox86/gps/local_gps.c:163-168 | The printed GGA line of any position, clock and altitude, with an accuracy of at most 200, sets exactly the altitude and that accuracy: position, bearing and speed stay as they were. |
| GpsReader.AltitudeReturns | vbox86/gps/gps_vbox86.c:146-159 | The altitude is read within half a millionth if it prints with at most 15 characters, and as zero otherwise. |
| GpsReader.GgaMovesExactly | vbox86/gps/gps_vbox86.c:316-351 | A line taken for GGA gives a position if and only if its tokens 3 and 5 have at least six characters. |
| GpsReader.GgaThatMoves | vbox86/gps/gps_vbox86.c:435-445 | With any two such texts in these places there is a line that does. |
| StringIo.StringOp | common_x86/v86d/lrmi/lrmi.c:228-257 | Going through a 32-bit linear address and back moves the offset within its low word and keeps the high word. |
| StringIo.Context.EmIns | common_x86/v86d/lrmi/lrmi.c:223-258 | One element goes to es*16 plus the offset, which then moves by its size within 16 bits. |
| StringIo.Context.EmRepIns | common_x86/v86d/lrmi/lrmi.c:260-271 | The loop makes as many of these moves as the low word of ecx says, in order, and clears that word. |
| StringIo.Context.EmOuts | common_x86/v86d/lrmi/lrmi.c:273-319 | One element comes from the chosen segment, which by default is ds. |
| StringIo.Context.EmRepOuts | common_x86/v86d/lrmi/lrmi.c:321-332 | The same loop for output. |
| StringIo.Context.EmIn | common_x86/v86d/lrmi/lrmi.c:334-364 | The low bytes of eax become the device's answer and the others stay. |
| StringIo.Context.Emulate | common_x86/v86d/lrmi/lrmi.c:398-507 | The decoding loop meets the declarative meaning of prefixes and opcode, eip advances by exactly the bytes decoded, and an unknown opcode changes nothing. |
| StringIo.RepeatedInsRegisters | common_x86/v86d/lrmi/lrmi.c:254-271 | After REP INS the low word of ecx is 0, edi has moved by size times count, up or down, modulo 65536, and high words and other registers are unchanged. |
| StringIo.RepeatedOutsRegisters | common_x86/v86d/lrmi/lrmi.c:315-332 | The same for REP OUTS and esi. |
| StringIo.SingleRegisters | common_x86/v86d/lrmi/lrmi.c:223-258 | Without REP the offset moves by one element within its word, and no other register changes. |
| StringIo.PortAccess | common_x86/v86d/lrmi/lrmi.c:334-396 | The other forms make one access, to the literal port or the low word of edx; input replaces the lowest 1, 2 or 4 bytes of eax by the answer, output sends them and changes no register. |
| StringIo.ElementAddress | common_x86/v86d/lrmi/lrmi.c:228-254 | As many elements as ecx says, or one without REP; the k-th goes to es*16 + ((edi + or - k*size) mod 65536). |
| StringIo.ElementSource | common_x86/v86d/lrmi/lrmi.c:278-315 | The same for output, from cs, ss, ds, es, fs or gs as the override says and from ds without one. |
| StringIo.InsCompose | common_x86/v86d/lrmi/lrmi.c:260-271 | A transfer may be split anywhere: the second part goes on where the first stopped. |
| StringIo.OutsCompose | common_x86/v86d/lrmi/lrmi.c:321-332 | The same for output. |
| StringIo.PrefixMeaning | common_x86/v86d/lrmi/lrmi.c:412-427 | Two runs of prefixes with the same parity of 0x66, the same presence of 0xF3 and the same last override make the same instruction of any opcode. |
| StringIo.OpcodeTable | common_x86/v86d/lrmi/lrmi.c:412-505 | Behind every run of prefixes, every other byte decodes as its bits say: exactly 0x6c-0x6f, 0xe4, 0xe6 and 0xec-0xef are known; bit 1 is the direction; bit 0 the size with the parity of 0x66; the high nibble tells the string forms; 0xe4 and 0xe6 have their port in the next byte; REP and segment are those of the prefixes. |
| StringIo.DecodedWithin | common_x86/v86d/lrmi/lrmi.c:412-505 | A decoded instruction has at least its opcode and lies within the bytes that were there. |
| Capture.DiscardRight | common/audio_alsa/audio_hw.c:415-417 | The forward loop over one array keeps the left sample of every pair and touches nothing else. |
| Capture.StreamIn.ReadPeriod | common/audio_alsa/audio_hw.c:401-419 | A new period leaves its frames, or the left samples of its frames, at the start of the buffer. |
| Capture.StreamIn.GetNextBuffer | common/audio_alsa/audio_hw_MMAP.c:1049-1088 | It offers frames that are already there, or those of the next period, and loses none; it fails exactly if none is there and the driver fails. |
| Capture.StreamIn.ReleaseBuffer | common/audio_alsa/audio_hw_MMAP.c:1090-1102 | It gives up exactly the frames that were taken. |
| Capture.StreamIn.ReadFrames | common/audio_alsa/audio_hw_MMAP.c:1106-1140 | The next frames of the driver, in order, are moved to the place asked for; on success exactly as many as were asked for. |
| Capture.StreamIn.Consume | common/audio_alsa/audio_hw_MMAP.c:1191-1199 | The frames not consumed move to the front, in order, by a copy within one buffer. |
| Capture.StreamIn.ProcessFrames | common/audio_alsa/audio_hw_MMAP.c:1145-1208 | Whatever the preprocessors take and give, consumed frames, left-over frames, unread frames and those still to come are the driver's frames in order, and as many are consumed and produced as the calls took and gave; a call that returns has exactly the frames asked for; every call of a preprocessor is offered at least that many; a driver failure loses fewer than that. |
| Capture.TakenInFull | common/audio_alsa/audio_hw_MMAP.c:1179-1205 | Preprocessors that keep within their offers take and give all that they say. |
| OutWrite.StreamOut.SetBufferType | common/audio_alsa/audio_hw.c:634-649 | A change of buffer size sets a new target of 4096 or 1024 frames; only the first write starts at it. |
| OutWrite.StreamOut.Throttle | common/audio_alsa/audio_hw.c:675-708 | For any answers of the driver the loop ends after at most 12 sleeps that add up to at most 23219 microseconds; each sleep is the one that would bring the fill down to the threshold, cut to what remains of the limit; it ends with a reading that failed, or is at the threshold up to the shortest sleep, or with that total used up. |
| OutWrite.SleepDrains | common/audio_alsa/audio_hw.c:691-694 | A sleep is the whole microseconds in which the rate plays the frames above the threshold: the fill comes down to it and not below. |
| OutWrite.StreamOut.Adjust | common/audio_alsa/audio_hw.c:717-732 | For every 32-bit fill, the branches, with their conversions to unsigned and back, leave the threshold of the step function. |
| OutWrite.UnsignedReset | common/audio_alsa/audio_hw.c:730-731 | The detour through unsigned values rounds down to a period for negative fills too. |
| OutWrite.StepsTowards | common/audio_alsa/audio_hw.c:717-726 | Away from the target, the threshold moves a quarter period towards it and never past it. |
| OutWrite.ResetLandsBetween | common/audio_alsa/audio_hw.c:727-732 | At the target it stays, unless the fill is known and more than two periods below; then it restarts a quarter period above a whole number of periods, strictly between the fill and the target, at most one and a quarter periods above the fill. |
| OutWrite.Converges | common/audio_alsa/audio_hw.c:710-726 | Over a run of writes the distance to the target is exactly the first distance less a quarter period for each write, down to 0. |
| OutWrite.StaysBelow | common/audio_alsa/audio_hw.c:710-732 | Over any run of writes and any fills, the threshold never exceeds the larger of its start and its target. |
| OutWrite.ResetPositiveExactly | common/audio_alsa/audio_hw.c:727-732 | A restart of the threshold is positive if and only if the fill is at least -512. |
| OutWrite.StaysPositive | common/audio_alsa/audio_hw.c:710-732 | So it stays positive over every run of such fills, which are all there are while the driver reports no more room than its buffer has. |

## Left out

- Sockets, ioctl and HGCM calls, the property service, mixer and PCM calls, mmap and the vm86 system call: their answers are parameters of the models.
- RealMemory: a size within 15 of the largest int overflows in C before it is rounded; integers are unbounded here.
- V86Task.Task: the contents of the buffer and the copying of strings out of the VBE information block are not modelled, only the allocator and the registers passed to the BIOS.
- CameraPipeline: error exits of the workers, the contents of images and frames, exposure values, and the registry of reprocess streams (its in-use check is a stub in the source). The format of a stream is reduced to whether it is a compressed one, chosen freely when the stream is looked up. The JPEG compressor is not part of this model: it is taken to publish its buffers and its busy flag before its start call returns.
- CameraPipeline: whether a waiting configure thread is always woken. `CameraProgress` says what can happen next, not that a scheduler lets it.
- Autofocus: the published exposure state may be changed by a request in the middle of a cycle; the result speaks of the state at the end of a cycle's exposure work. White balance and the computation of exposure times are not modelled.
- GuestControl.FindNext: waiting on the condition variable is left out; one search under the mutex is one step. Messages of size zero, which report the end of a process, are delivered like any others.
- GuestControl.Write: after a failed write the source goes on with the next message; what the client makes of the gap is not modelled.
- Converters.Walk: the walk is stated for even width and height, which a 4:2:0 frame has. The fourth byte of an RGB32 pixel is never set by the source and is not part of a pixel here.
- Color: RGB565 is modelled in its little-endian layout only.
- Utf.Convert: the conversion stops where the next character or the final zero would leave the allocation; what the source does after that is not modelled. A failed allocation, which also returns null, and a negative length are left out.
- Decimal.Read: strtod is modelled for decimal numbers without an exponent, which is all that the printer writes. The rounding of %f is to nearest over exact reals, with ties upwards.
- GpsReader.Reader.Parse: times, dates and the calendar are left out, and so is the overflow of an int in a number of more than nine digits. The model of a line that is not safe stops at the first read of a hemisphere. Tokens of GGA that nothing reads (the altitude's unit) are left out.
- LocalGps: the properties that positions are read from are parameters, as is the clock.
- StringIo.Context.Emulate: the bytes that instructions move are not modelled, only where they go to and come from. Code is a finite sequence; an instruction that runs off its end has an outcome of its own.
- Capture.StreamIn.ProcessFrames: the resampler and the echo reference are left out, and what the preprocessors compute is arbitrary.
- OutWrite.StreamOut.Throttle: the time of a sleep is an int of 32 bits in the source and unbounded here; they differ for fills tens of millions of frames above the threshold. Routing to a headset, which skips the throttle, is left out.
- Metadata construction, parameter strings, HAL dispatch tables, sensors, input devices, the mount helper and the command-line tools: wrappers and tables that would only add easy members.
