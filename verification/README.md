# k3sm runtimed: verified model

A Dafny model of the parts of k3sm's node runtime whose correctness rests on more than one function, and
proofs of what those parts promise. Each component has its own file.

- **Guest mounts** (`Paths`, `MountPlan`, `MountKernel`, `MountShape`, `MountFaithful`, `MountContent`,
  `GuestPrivate`, `GuestPrivateSafety`, `ReExposure`). The plan of mount steps for a pod is run in
  a model of the Linux mount table: superblocks with a filesystem type, a source and a sealed bit, mounts that show a
  directory of a superblock and have a read-only bit of their own that a bind inherits, remounts that set or clear only the mount's bit. A bind's source may resolve to any earlier mount
  that covers it, or to the writable root. Linux's own choice, the newest mount over the source, is one of those:
  later mounts hide earlier ones at and below their targets.
- **Container output** (`LogRing`, `LogStamps`, `Follow`, `FollowSafety`, `FollowEnds`, `Lines`, `LineCuts`,
  `TightChunks`, `LineEmits`, `LineWriter`, `Chunker`, `ByteChunks`, `ByteSubs`, `ByteRing`, `ExecRing`, `Drain`,
  `DrainContent`, `DrainReached`, `Events`, `Fates`). Bounded rings, line splitting, the follow stream, the exit's drain protocol and the event fan-out. The
  follow stream and the drain are state machines whose steps are the critical sections of the source, in every
  interleaving; `DrainContent` adds to the drain the bytes each pump reads and every ring's history.
- **Artifact pulls** (`Space`, `Pull`, `PullReached`, `Records`). The space a pull reserves, the bytes it can have on the volume at
  any step, and the record index under concurrent pulls and releases.
- **Path rebasing** (`PathRebase`). The preload shim's rewrite of absolute paths into a pod's root.
- **Test results** (`Quarantine`, `QuarantineRules`, `Evaluation`, `RaceMarkers`, `TestEvents`, `TestResults`,
  `TestStream`, `TestExit`, `TestFacts`, `TestBuildFail`). From a `go test -json` stream to the exit
  code, with the flake registry.
- **Wire formats** (`Newc`, `MemberStream`, `NewcReader`, `NewcLayout`, `NameOrder`, `Initramfs`, `Dhcp`,
  `DhcpFields`, `DhcpLease`, `DhcpRequest`). The initramfs printer against a reader of the newc format, and the DHCPv4 option codec against a
  grammar of option lists.

Where the source updates fields under a lock, the model is a class with those fields, and ghost fields hold the
history the properties are about. Where it computes with a loop, the model is a method with that loop, proved equal
to a specification function or to the property itself. Clocks, timers, the network, free-space readings and file
systems are parameters or nondeterministic steps.

## Where a promise holds only under a condition

- A pod's mounts end read-only exactly as specified for every resolution of bind sources **if and only if** no
  writable bind can reach a sealed superblock (`MountFaithful.FaithfulExactly`). Under one resolution, Linux's own
  included, they do **if and only if** no writable bind's chain of sources, followed that way, ends on one
  (`FaithfulUnder`, `LinuxBootIsFaithful`). The simpler rule, no writable bind under a read-only bind's target, implies
  both (`SimpleConditionSuffices`). `SealedWritableBindExample` is a list the planner accepts whose writable bind
  refuses writes after the boot.
- `ring.Write` in `internal/execshim/ring.go` divides by a zero capacity **if and only if** the limit is not positive, or an
  empty write meets a buffer never allocated (`ExecRing.Ring.Write`; `EmptyFirstWritePanics` is the latter).
- For every list of appends, the stored stamps increase strictly **if and only if** no append that is not after the
  unset time comes while the stamping stands exactly at it (`LogStamps.IncreasingExactly`). Two appends at the unset
  time do not (`UnsetStampsCollide`).
- A rewritten path means the rootfs followed by the path **if and only if** the path does not climb above its own root
  or the rootfs normalises to the root (`PathRebase.RewriteKeepsMeaningExactly`). `ClimbingMountEscapes` is a
  configuration that rewrites a path to one outside the rootfs. A mount of `/` catches, among clean
  paths, only `/` itself (`PathRebase.RootMountCatchesOnlyRoot`).
- A build-fail event turns a green full-tier run red **if and only if** it carries no package, or carries one and names
  a test no other event is about (`TestBuildFail.BuildFailRedsExactly`); the events `go test` emits carry none.
  `BuildFailWithPackageExitsGreen` is a stream with a failed build that exits green.
- The initramfs reads back as composed **if and only if** the init payload is shorter than 2^32 bytes
  (`Initramfs.InitramfsReadsBack`).

## Model

| member | source | states |
|---|---|---|
| Paths.IsCleanExactly | pkg/guestinit/mounts.go:387-395 | a rooted path is its own path.Clean exactly when no component is empty, `.` or `..` |
| MountPlan.UnderIsPrefix | pkg/guestinit/mounts.go:340-345 | one path lies at or under another exactly when it equals it or extends it at a slash, a trailing slash of the target aside |
| MountPlan.CheckMountExactly | pkg/guestinit/mounts.go:387-457 | an entry is accepted exactly when its target is absolute and its own path.Clean, its kind is known, and its source is legal where the kind has one and empty where it has not |
| MountPlan.RefusalSays | pkg/guestinit/mounts.go:387-457 | the fault a refusal names is one the entry has |
| MountPlan.FindStaged | pkg/guestinit/mounts.go:352-366 | true exactly when some writable bind's source lies at or under the entry's target |
| MountPlan.FindReadOnlyCover | pkg/guestinit/mounts.go:371-382 | true exactly when the bind's source lies at or under some read-only bind's target |
| MountPlan.PlanEntry | pkg/guestinit/mounts.go:458-491 | one entry's steps, the form chosen by the two scans: mounted directly, mounted and then made read-only per mount, or bound and then made writable; what they mount is EntrySteps' and MountContent's |
| MountPlan.EntrySteps | pkg/guestinit/mounts.go:267-337 | every expansion is one mount of the entry's source, as the filesystem its kind names, at its target, nosuid and nodev unless a bind, and at most one remount that changes only the read-only bit, to what the entry says |
| MountPlan.PodMounts | pkg/guestinit/mounts.go:416-472 | the first bad entry refuses the whole list, for a fault that entry has; otherwise the plan is every entry's steps in order |
| MountKernel.RunConcat | pkg/guestinit/mounts.go:459-469 | running a plan in the mount table is running its parts in turn |
| MountShape.BootIsFaithful | pkg/guestinit/mounts.go:267-382 | the two quadratic scans suffice: without a reachable sealed writable bind every mount ends as specified |
| MountShape.PartsBoot | pkg/guestinit/mounts.go:459-469 | a plan whose parts each do what their entry does boots entry by entry |
| MountShape.BootIsFaithfulExactly | pkg/guestinit/mounts.go:267-382 | of one resolution: the boot is faithful if and only if no writable bind's chain of sources ends on a read-only superblock |
| MountShape.AdversaryBoots | pkg/guestinit/mounts.go:294-382 | the resolution that reaches a sealed superblock wherever one can be reached boots, and seals exactly what can be sealed |
| MountShape.WritableBindNotSealed | pkg/guestinit/mounts.go:371-382 | when no writable bind's source lies under a read-only bind's target, none can reach a sealed superblock |
| MountFaithful.RunOne | pkg/guestinit/mounts.go:458-491 | the steps of one entry add one mount with the read-only bit the scans decide |
| MountFaithful.WholePlanBoots | pkg/guestinit/mounts.go:416-491 | the flattened plan run step by step is the entry-by-entry boot |
| MountFaithful.PlanIsFaithful | pkg/guestinit/mounts.go:267-491 | for every resolution that boots, each mount is read-only in effect exactly when its entry says so |
| MountFaithful.SimpleConditionSuffices | pkg/guestinit/mounts.go:267-491 | the same, given only that no writable bind's source lies under a read-only bind's target |
| MountFaithful.FaithfulExactly | pkg/guestinit/mounts.go:267-491 | that every booting resolution is faithful holds if and only if no writable bind can reach a sealed superblock |
| MountFaithful.FaithfulUnder | pkg/guestinit/mounts.go:267-491 | the plan run under one booting resolution is faithful if and only if that resolution seals no writable bind |
| MountFaithful.LinuxBootIsFaithful | pkg/guestinit/mounts.go:267-491 | resolving every source to the newest mount over it boots every plannable list, and faithfully if and only if no writable bind's chain of sources followed that way ends on a read-only superblock |
| MountFaithful.SealedWritableBindExample | pkg/guestinit/mounts.go:352-382 | a list the planner accepts, booted as Linux resolves it: the mount of a writable entry refuses writes |
| MountContent.PlanShows | pkg/guestinit/mounts.go:416-491 | in every booted state: a share stands whole on a virtiofs superblock of its own with its own tag, a tmpfs on one of its own, each superblock read-only exactly when the entry is and no writable bind is made out of it; a bind shows, on the superblock its source resolved to, the directory its source names |
| MountContent.SharedExactly | pkg/guestinit/mounts.go:416-491 | two mount points show one filesystem if and only if their chains of bind sources end at the same mount |
| GuestPrivate.PrivateTargets | pkg/guestinit/mounts.go:806-814 | exactly the targets some guest-private entry names |
| GuestPrivate.CheckIsolated | pkg/guestinit/mounts.go:782-803 | accepts exactly the lists where every entry at or above a private target is itself private and at that very target; a refusal names such a pair, and for a cover a container-visible entry |
| GuestPrivate.DetachSteps | pkg/guestinit/mounts.go:752-767 | one lazy detach per private target and nothing else, in first-named order |
| GuestPrivate.FirstNamedMembers | pkg/guestinit/mounts.go:752-767 | the detached targets are exactly the private ones |
| GuestPrivate.FirstNamedDistinct | pkg/guestinit/mounts.go:752-767 | no target is detached twice |
| GuestPrivate.FirstNamedPrefix | pkg/guestinit/mounts.go:752-767 | the detached targets of an initial part of the list stay in front |
| GuestPrivate.FirstNamedInOrder | pkg/guestinit/mounts.go:752-767 | of two detached targets, some initial part of the list names the earlier and not yet the later |
| GuestPrivate.DetachesDoNotNest | pkg/guestinit/mounts.go:782-803 | of an accepted list, no detached target lies under another |
| GuestPrivate.ContainerPodMounts | pkg/guestinit/mounts.go:824-837 | the steps whose target is not private, in order |
| GuestPrivate.VisibleHas | pkg/guestinit/mounts.go:824-837 | a step is visible exactly when the pod has it and its target is not private |
| GuestPrivate.VisibleInOrder | pkg/guestinit/mounts.go:824-837 | the visible steps are those at the increasing places whose target is not private |
| GuestPrivate.Merge | pkg/guestinit/mounts.go:880-897 | the map-indexed merge equals the merge by search |
| GuestPrivate.MergeAllMerges | pkg/guestinit/mounts.go:880-897 | one re-exposure per target, covering every target, read-only exactly when some step there is |
| GuestPrivate.MergedInOrder | pkg/guestinit/mounts.go:880-897 | the merged targets stand in the order the steps first name them |
| GuestPrivate.SortByLength | pkg/guestinit/mounts.go:898 | a stable sort: by target length, and for every length the entries of that length as they came |
| GuestPrivate.OrderedMerges | pkg/guestinit/mounts.go:880-898 | the sorted list is still the merge, and ordered by length |
| GuestPrivate.ContainerVisibleMounts | pkg/guestinit/mounts.go:874-917 | each ordered target as a recursive bind, its read-only remount directly behind; what those steps show is ReExposure's |
| GuestPrivateSafety.PlanTargets | pkg/guestinit/mounts.go:416-472 | the plan has a step at a target exactly when an entry does, and a read-only one exactly when a read-only entry does |
| GuestPrivateSafety.ReExposureIsIsolated | pkg/guestinit/mounts.go:782-917 | of an accepted list, no re-exposed target is or covers a private one, each is read-only exactly as the spec says, and no visible mount is left out |
| GuestPrivateSafety.NoPrivateMountIsCopied | pkg/guestinit/mounts.go:782-917 | no mount made by a private entry stands at or below a re-exposed bind's source |
| GuestPrivateSafety.AncestorsFirst | pkg/guestinit/mounts.go:898-917 | an ancestor target is re-exposed before its descendants |
| ReExposure.BindIsOf | pkg/guestinit/mounts.go:900-917 | every recursive bind among the emitted steps is one ordered target's, and its remount follows it exactly when that target is read-only |
| ReExposure.JoinedUnder | pkg/guestinit/mounts.go:902-905 | inside the root one target's place lies at or below another's only if the targets do |
| ReExposure.AcceptedSpecShows | pkg/guestinit/mounts.go:782-917 | of an accepted list, over the emitted steps: each is a recursive bind or the remount directly behind one; no bind's source is or covers a private target; one bind per visible target, its remount there exactly when the spec says so; binds at or above another's place come earlier; no visible mount is left out |
| ReExposure.PlanMounts | pkg/guestinit/plan.go:222-235 | the boot plan's mounts: accepted exactly when every entry passes and the list is isolated, with the pod's steps, the detaches, and container binds that show exactly that |
| LogRing.Ring.constructor | pkg/guestagent/logring.go:134-146 | an empty ring with defaults for non-positive bounds |
| LogRing.Ring.Append | pkg/guestagent/logring.go:161-196 | the history grows by the stamped entry, what is held is the longest suffix that fits both bounds, and every open follower is offered it |
| LogRing.Ring.HoldsWhatFits | pkg/guestagent/logring.go:161-196 | in every state the held entries are within both bounds, but for one alone with too many bytes, and with any evicted entry and all after it a bound would be broken |
| LogRing.Evict | pkg/guestagent/logring.go:181-187 | evicting from the front stops at the longest suffix that fits, counting what it drops |
| LogRing.Ring.From | pkg/guestagent/logring.go:235-246 | exactly the held entries from a sequence number on |
| LogRing.Ring.Snapshot | pkg/guestagent/logring.go:205-262 | exactly the held entries no earlier than `since`, or the last `tail` of them: what is left out is earlier than all that is kept; the cursor is the end of the history |
| LogRing.SelectedIsChosen | pkg/guestagent/logring.go:205-262 | the selection is that choice, said of the entries alone |
| LogRing.Ring.Subscribe | pkg/guestagent/logring.go:269-283 | a fresh channel, already ended when the ring is closed |
| LogRing.Ring.Unsubscribe | pkg/guestagent/logring.go:284-291 | the follower is offered nothing more and its channel is left as it is; idempotent, and no effect on a closed ring |
| LogRing.Ring.Close | pkg/guestagent/logring.go:297-308 | every follower's channel ends and nothing else changes |
| LogRing.NewestIsHeld | pkg/guestagent/logring.go:161-196 | the newest entry is always held, however large |
| LogRing.EvictionIsForGood | pkg/guestagent/logring.go:161-196 | the first held entry never moves back |
| LogStamps.RecordsAreAppends | pkg/guestagent/logring.go:161-180 | the ring's history is its appends, stamped and numbered in turn |
| LogStamps.IncreasingExactly | pkg/guestagent/logring.go:171-178 | for every list of appends, the stored stamps are strictly increasing if and only if no append not after the unset time comes while the stamping stands exactly at it |
| LogStamps.UnsetStampsCollide | pkg/guestagent/logring.go:171-178 | two appends at the unset time are not stored with increasing stamps |
| LogStamps.StampsIncrease | pkg/guestagent/logring.go:171-178 | appends with set times, in any order and with any repeats, are stored with strictly increasing set stamps |
| LogStamps.ResumeByTimeIsBySeqno | pkg/guestagent/logring.go:235-262 | with increasing stamps, resuming from any entry's time, evicted or held, selects exactly the held entries from its sequence number |
| LogStamps.ResumeAfterAppends | pkg/guestagent/logring.go:161-262 | in every ring that took appends with set times, resuming by an entry's time is resuming by its number |
| FollowSafety.StepKeepsInv | pkg/guestagent/capture.go:322-404 | every step of appender, closer and follower keeps the stream invariant |
| FollowSafety.RunKeepsInv | pkg/guestagent/capture.go:322-404 | the invariant holds in every state of every run |
| FollowSafety.StreamIsFaithful | pkg/guestagent/capture.go:322-404 | in every run the output is entries of the history in strictly increasing order, and an entry past the cursor that was skipped had been evicted |
| FollowSafety.SnapshotIsChosen | pkg/guestagent/capture.go:322-356 | in every run, what is replayed is that choice of the entries held when the snapshot was taken, and stays so |
| FollowSafety.SnapshotAlone | pkg/guestagent/capture.go:322-359 | a reader that does not follow is given its snapshot and nothing else, never waits, and has all of it when the stream ends |
| FollowSafety.EndedStreamIsComplete | pkg/guestagent/capture.go:364-400 | a follow stream that ended saw the ring close and passed every entry to its end |
| FollowSafety.IdleStreamIsCaughtUp | pkg/guestagent/capture.go:364-400 | a waiting follower with an empty channel has passed the whole history unless a drop lies ahead of it |
| FollowEnds.FollowerStepDescends | pkg/guestagent/capture.go:364-400 | once the ring is closed every step of the follower brings its end closer |
| FollowEnds.FollowerIsNeverStuck | pkg/guestagent/capture.go:364-400 | a follower of a closed ring that has not ended always has a step that is not its reader leaving |
| FollowEnds.WorkPaysForSteps | pkg/guestagent/capture.go:364-400 | in every run, the steps the follower took since the close are paid for by the work it had left |
| FollowEnds.ClosedStreamEnds | pkg/guestagent/capture.go:364-400 | in every run whose reader stays after the close: the follower takes fewer steps than (queued + 2) times (history + 5); it has finished exactly when it has no step left to take; and a finished follow stream has replayed its snapshot and passed every entry to the end |
| FollowEnds.ClosedStreamCanEnd | pkg/guestagent/capture.go:364-400 | from every state with the ring closed and the reader there, the follower alone can finish, in as many steps as its measure at most |
| FollowEnds.ClosedRunCanEnd | pkg/guestagent/capture.go:364-400 | every run that reached the close with its reader there goes on, by follower steps alone, to one that finishes |
| LogLines.FeedConcat | pkg/guestagent/capture.go:439-463 | splitting into lines does not depend on how the bytes are cut into writes |
| LogLines.SplitLosesNothing | pkg/crilog/chunker.go:140-173 | the lines with their newlines put back, and the tail, are the input; each line lost at most one carriage return |
| LogLines.StripCRTerminates | pkg/crilog/chunker.go:140-173 | of the text before a newline exactly one carriage return at its very end goes with the newline |
| LineCuts.JoinCutAll | pkg/crilog/chunker.go:82-127 | lines and tail cut at the bound join back to exactly those lines and tail |
| TightChunks.CutAllTight | pkg/crilog/chunker.go:82-127 | no chunk is over the bound, a line is broken only at a full chunk with more to follow, and an unterminated rest is not empty |
| TightChunks.TightIsCut | pkg/crilog/chunker.go:82-127 | a list of chunks with those three properties is the only one that says its lines |
| LineCuts.CutHead | pkg/crilog/chunker.go:103-114 | cutting a full piece off what is held leaves the same chunks to come, however the stream goes on |
| LineEmits.EmitsKeep | pkg/guestagent/capture.go:439-463 | the chunks one write emits and what it holds back carry on the logical lines |
| LineEmits.WriteAccounts | pkg/guestagent/capture.go:439-463 | emitted chunks and held bytes go on accounting for all bytes after one more write |
| LineEmits.FlushAccounts | pkg/guestagent/capture.go:474-485 | flushing what is held leaves chunks that join to the lines and tail of all bytes, every partial one filled to the bound but the last |
| LineWriting.LineWriter.constructor | pkg/guestagent/capture.go:178-180 | an empty writer with its line bound |
| LineWriting.LineWriter.Write | pkg/guestagent/capture.go:439-463 | one write emits exactly the chunks of what was held and written, and emitted and held bytes account for everything so far, no chunk above the bound and every partial one filled to it |
| LineWriting.LineWriter.TakeLines | pkg/guestagent/capture.go:443-450 | every complete line is emitted and none is left in the buffer |
| LineWriting.LineWriter.TakeOverflow | pkg/guestagent/capture.go:451-456 | an unterminated run past the bound is emitted in partial pieces |
| LineWriting.LineWriter.EmitLine | pkg/guestagent/capture.go:504-511 | exactly the pieces of the line without its carriage return, the last one not partial |
| LineWriting.LineWriter.Close | pkg/guestagent/capture.go:474-485 | at close, joining the chunks gives exactly the lines and tail of everything written, and only the last can be partial without being full |
| Chunker.Reader.ReadSlice | pkg/crilog/chunker.go:140-173 | a slice and what stays unread are the input; it ends at the first newline, a full buffer or the end |
| Chunker.Reader.ReadLine | pkg/crilog/chunker.go:140-173 | a piece of at most the buffer, never splitting a carriage return from its newline |
| Chunker.CutAtBound | pkg/crilog/chunker.go:103-114 | pieces of exactly the bound go out until the rest fits; it stops early exactly when the sink refuses, with what the sink took |
| Chunker.Round | pkg/crilog/chunker.go:82-127 | one round moves on through the chunks of the whole input, ends with all of them, or stops because the sink refused |
| Chunker.Chunks | pkg/crilog/chunker.go:73-128 | succeeds exactly when the sink takes every chunk of the input, and then has emitted all of them; otherwise exactly those the sink took |
| Chunker.ChunksSayTheLines | pkg/crilog/chunker.go:73-128 | the chunks of an input are the one tight list, within 16 KiB, that joins to its lines and tail |
| Chunker.SameLines | pkg/crilog/chunker.go:73-173 | for every stream and every way of cutting it into writes, the two splitters' chunks join to the same logical lines; the chunker's are tight, the writer's filled |
| ByteChunks.EvictChunks | pkg/guestagent/bytering.go:184-200 | the two eviction loops leave the last maxBytes bytes of the last maxChunks chunks |
| ByteChunks.LastBytesLabelled | pkg/guestagent/bytering.go:184-200 | trimming keeps exactly the last bytes, each with its own stream label |
| ByteChunks.RetainedAppend | pkg/guestagent/bytering.go:148-200 | trimming after each append equals trimming the whole history once |
| ByteChunks.RetainedIsNewest | pkg/guestagent/bytering.go:184-200 | what is retained is the newest bytes of the history, each with its own label: of the newest maxChunks writes every byte, or the last maxBytes of them |
| ByteSubs.OfferAccounted | pkg/guestagent/bytering.go:165-170 | one more recorded chunk, delivered or dropped, keeps a subscriber's account against the history |
| ByteSubs.NoDropExactly | pkg/guestagent/bytering.go:165-170 | a subscriber's dropped count is zero exactly when its stretch of the history reached it whole |
| ByteSubs.SeesNewestBytes | pkg/guestagent/bytering.go:148-267 | what an undropped subscriber was shown, received and has queued are together the newest bytes of the history, none twice and none missing |
| ByteRings.ByteRing.constructor | pkg/guestagent/bytering.go:125-137 | an empty ring with defaults for non-positive bounds |
| ByteRings.ByteRing.Append | pkg/guestagent/bytering.go:148-171 | what is retained is the closed form of the whole history, and every registered subscriber is offered the chunk; an empty write and one after the end change nothing |
| ByteRings.ByteRing.Subscribe | pkg/guestagent/bytering.go:251-267 | a fresh subscription and, in the same step, the retained chunks; already ended on a closed ring |
| ByteRings.ByteRing.Receive | pkg/guestagent/bytering.go:223-226 | a client takes the oldest queued chunk and its account stays balanced |
| ByteRings.ByteRing.Unsubscribe | pkg/guestagent/bytering.go:236-247 | the client is offered nothing more; idempotent |
| ByteRings.ByteRing.Close | pkg/guestagent/bytering.go:298-309 | every subscription ends once; what is retained survives |
| ByteRings.ByteRing.SubscriberAccounted | pkg/guestagent/bytering.go:148-309 | in every state of the ring: a subscriber was shown what was retained when it came; received and queued are, in order, the chunks of its stretch that met a queue with room, the others are in its dropped count, to the byte; the count is zero exactly when nothing is missing, and then it saw the newest bytes once each, in order |
| ExecRing.Ring.constructor | internal/execshim/ring.go:49-53 | an empty ring |
| ExecRing.Ring.Grow | internal/execshim/ring.go:92-104 | growing keeps the contents in order |
| ExecRing.Ring.MakeRoom | internal/execshim/ring.go:63-75 | the oldest bytes make way, exactly as many as exceed the limit |
| ExecRing.Ring.Write | internal/execshim/ring.go:57-82 | the buffer is the newest unread bytes in order, drops are counted, and the exact condition of a panic |
| ExecRing.EmptyFirstWritePanics | internal/execshim/ring.go:57-82 | an empty write panics a fresh ring with a positive limit |
| ExecRing.Ring.Read | internal/execshim/ring.go:107-121 | the oldest buffered bytes, up to the wrap, go to the reader |
| ExecRing.Ring.Close | internal/execshim/ring.go:124-129 | closing keeps the contents |
| ExecRing.Ring.TakeDropped | internal/execshim/ring.go:133-139 | the drops since the last call, once |
| ExecRing.Ring.Conservation | internal/execshim/ring.go:57-121 | bytes written are bytes read, buffered and dropped |
| ExecRing.CircleWrite | internal/execshim/ring.go:76-79 | a wrapped copy appends to the circular contents |
| Drain.StepKeepsInv | pkg/guestagent/capture.go:178-289 | every lock-granular step of spawn, pump, exit and restart keeps the drain invariant |
| Drain.RunKeepsInv | pkg/guestagent/capture.go:178-289 | the invariant holds in every state of every run |
| Drain.UnfinishedIsLive | cmd/k3sm-guest-init/main_linux.go:810-885 | between the fork and the last closed pump the live-sink count never touches zero |
| Drain.DrainedLosesNothing | pkg/guestagent/capture.go:229-267 | if the drain reported success, every pump had finished and no chunk reached an ended ring |
| Drain.NothingLostBeforeEnd | cmd/k3sm-guest-init/main_linux.go:338-345 | no line is lost before the exit path ends the ring |
| Drain.NoEarlyWake | pkg/guestagent/capture.go:192-248 | the idle channel a drain waits on is not closed while one of its pumps is unfinished |
| DrainContent.StepKeepsContent | pkg/guestagent/capture.go:178-289 | every step, with the bytes read, the chunks pending and every ring's history, keeps each writer's account |
| DrainContent.FullRunKeepsInv | pkg/guestagent/capture.go:178-289 | the protocol's invariant and every writer's account hold in every state of every run |
| DrainContent.DrainedRingHoldsAll | pkg/guestagent/capture.go:229-267 | in every run, once the drain reported success, each pump's entries in its ring's history join to exactly the lines and tail of every byte that pump read |
| DrainReached.DrainCanSucceed | pkg/guestagent/capture.go:178-267 | for every output there is a run whose pump reads exactly that, whose exit waits for it, and whose drain then reports success |
| DrainContent.OpenRingAccounts | pkg/guestagent/capture.go:439-485 | before the ring is ended, what a pump appended, has pending and holds say every byte it was given |
| Events.SnapshotThenLive | pkg/guestagent/events.go:199-240 | the replayed snapshot followed by later events teaches exactly what the whole history does |
| Events.FirstSeenIsFolded | pkg/guestagent/events.go:140-152 | the order list names each retained container once |
| Events.FoldKnowsLast | pkg/guestagent/events.go:140-152 | what is known of a container is exactly its last event in the history |
| Events.SnapshotTells | pkg/guestagent/events.go:199-240 | a snapshot holds exactly the last event of every named container, once each, in the order first seen |
| Events.FirstSeenInOrder | pkg/guestagent/events.go:140-152 | of two containers listed, some event names the earlier before any names the later |
| Events.Fanout.constructor | pkg/guestagent/events.go:122-131 | an empty fan-out, queue depth 64 when none is given |
| Events.Fanout.Publish | pkg/guestagent/events.go:140-159 | the event becomes its container's state, the last word on every container is what is known, and every registered subscriber is offered it; a closed fan-out ignores it |
| Events.Fanout.Subscribe | pkg/guestagent/events.go:222-240 | registration and snapshot in one step: the replay is the last event of every named container, once each, in first-seen order; a closed fan-out gives an ended channel and no snapshot |
| Events.Fanout.Unsubscribe | pkg/guestagent/events.go:181-187 | the subscriber is no longer offered events; idempotent |
| Events.Fanout.Close | pkg/guestagent/events.go:244-255 | every registered channel ends once, with its queue kept |
| Events.Fanout.ReaderKnowsAll | pkg/guestagent/events.go:140-240 | a subscriber registered with a snapshot, not marked lossy and still registered at the end of the history, has exactly the retained state, saw each live event once, in order, and is told the same last event of every container as the history tells |
| Events.Fanout.LossyExactly | pkg/guestagent/events.go:152-177 | received and queued are, in order, the events of its stretch that met a queue with room, and the subscriber is marked exactly when one did not |
| Space.TopSumDominates | pkg/artifact/fetch.go:116-143 | the sum of the k largest dominates every choice of at most k |
| PullReached.TopSumAttained | pkg/artifact/fetch.go:116-143 | some choice of at most k has that sum |
| Space.AddAll | pkg/artifact/fetch.go:118-141 | the checked sum is exact, and fails exactly on a negative term or past 64 bits |
| Space.SpaceNeeded | pkg/artifact/fetch.go:116-143 | the missing bytes plus the k largest blobs, or a refusal exactly when a size is negative or the sum overflows |
| Space.Reservations.constructor | pkg/artifact/fetch.go:40-50 | nothing held |
| Space.Reservations.Reserve | pkg/artifact/fetch.go:156-199 | grants exactly when the first free-space sample, or a short first one and then the second, covers the floor and everything held with the new claim; too little space, a failed reading and overflow are told apart, and only a grant changes the ledger |
| Space.Reservations.Release | pkg/artifact/fetch.go:52-58 | a claim is given back once and held never underflows |
| Pull.FetchStaysInBudget | pkg/artifact/fetch.go:259-374 | one blob adds at most its missing bytes, plus its size while it holds the semaphore |
| Pull.StepKeepsInv | pkg/artifact/fetch.go:204-374 | every step of every fetch, restarts, overruns and failures included, keeps the budget |
| Pull.PullStaysInReservation | pkg/artifact/fetch.go:116-374 | at every step of every schedule the bytes added to the volume are at most spaceNeeded |
| PullReached.ReservationIsTight | pkg/artifact/fetch.go:116-374 | there is a schedule that has added exactly spaceNeeded, so nothing less would do |
| Records.StepKeepsInv | pkg/artifact/artifact.go:749-778 | what a pull read stays true, but for removals, until it writes |
| Records.PinnedStaysPinned | pkg/artifact/artifact.go:749-778 | in every interleaving a pinned record is never rewritten pod-only and leaves only by a Forget of its key |
| Records.WritesWiden | pkg/artifact/artifact.go:749-778 | a write for an unchanged manifest keeps every layer the record named; that the pull's own are there too is PullRecordsItsLayers |
| Records.PullRecordsItsLayers | pkg/artifact/artifact.go:749-778 | in every run a pull's write leaves a record of its manifest with exactly its own layers and those of the record it read for that manifest, pod-only exactly when it is and it read no pinned or corrupt record; no other key changes |
| Records.ForgetRemovesExactly | pkg/artifact/view.go:409-474 | in every run a removal takes the record away exactly when it is still of the manifest read, or still the same corrupt one, and is one it may take; no other key changes |
| Records.OnlyWritesAndRemovals | pkg/artifact/view.go:409-474 | the index changes at no other step |
| Records.ReleaseTakesPodOnly | pkg/artifact/view.go:409-474 | a release removes only a record still pod-only and of the manifest it listed |
| PathRebase.ClimbsExactly | shim/pathrebase_shim.c:268-290 | a walk climbs exactly when some prefix has more parent steps than descents |
| PathRebase.Escapes | shim/pathrebase_shim.c:268-290 | answers 1 exactly when the remainder climbs above the mount |
| PathRebase.RebaseExactly | shim/pathrebase_shim.c:303-339 | exactly the absolute paths outside the rootfs and inside some mount, with the rest never climbing out of it, are moved under the rootfs; one that would not fit is refused when the caller is strict and else left alone |
| PathRebase.RebaseMode | shim/pathrebase_shim.c:303-339 | the path, the rewritten buffer or a refusal, as the rules say, with the buffer NUL-terminated |
| PathRebase.RebaseIsIdempotent | shim/pathrebase_shim.c:303-317 | a rewritten path is left alone |
| PathRebase.MountOrderDoesNotMatter | shim/pathrebase_shim.c:318-338 | the result depends only on the set of mounts |
| PathRebase.CaughtLiesInMount | shim/pathrebase_shim.c:318-329 | a caught path lies lexically in its mount |
| PathRebase.RewriteKeepsMeaningExactly | shim/pathrebase_shim.c:303-339 | the rewritten path normalises to the rootfs followed by the path if and only if the path does not climb, or the rootfs is the root |
| PathRebase.ClimbingMountEscapes | shim/pathrebase_shim.c:303-339 | a valid configuration with a climbing mount rewrites a path to one outside the rootfs |
| PathRebase.RewriteKeepsMeaning | shim/pathrebase_shim.c:303-339 | it does whenever no mount climbs |
| PathRebase.CleanMountCatchesItsSubtree | shim/pathrebase_shim.c:318-329 | a clean mount catches exactly the clean paths of its subtree |
| PathRebase.RootMountCatchesOnlyRoot | shim/pathrebase_shim.c:318-329 | a mount of the root catches, among clean paths, only the root |
| RaceMarkers.QuotedMarkerIsRaced | hack/lib/testresults.go:180-187 | a text that quotes a raced text's marker is itself raced |
| RaceMarkers.RacedExactly | hack/lib/testresults.go:180-187 | a text is raced exactly when it holds one of the markers |
| Evaluation.Evaluate | hack/lib/testresults.go:413-553 | red exactly by the plain rules over the fields of the run, any number of excused failures exactly when one is forgiven, and all of them when all are |
| Evaluation.FindCovered | hack/lib/testresults.go:508-526 | a parent is covered exactly when it has failing subtests and each is quarantined or has one failing below it |
| Evaluation.JudgeUnlisted | hack/lib/testresults.go:496-551 | the verdict on one unlisted failure |
| Quarantine.ExcusedAtOrBelow | hack/lib/testresults.go:458-551 | in a run that is not red, every failure has a directly excused one at or below it |
| Quarantine.FullTierReds | hack/lib/testresults.go:465-551 | in the full tier any failure is red, whatever the registry lists |
| Quarantine.SomethingIsExcused | hack/lib/testresults.go:766-777 | failures that are not red leave at least one directly excused |
| Quarantine.RaceAlwaysReds | hack/lib/testresults.go:465-501 | a race or sanitizer report is red, listed or not |
| QuarantineRules.RedExactly | hack/lib/testresults.go:413-553 | the program's passes, with parents covered by subtests, red exactly the runs with an unsound registry, an unfinished test, or a failure that is unlisted and has a line of its own, a race or no failing subtest, or is listed and raced, in the full tier, in an edited package or without its signature |
| QuarantineRules.CountExactly | hack/lib/testresults.go:458-553 | failures count as excused when any is listed, unraced, unedited and matching in the fast tier, and all of them when all are |
| QuarantineRules.AllForgiven | hack/lib/testresults.go:413-553 | a run whose every failure is forgiven, with a sound registry and no unfinished test, is not red and counts each as excused |
| TestStream.TestOfSnoc | hack/lib/testresults.go:633-647 | one event's effect on one test; a failure is never turned back |
| TestEvents.NamedOnce | hack/lib/testresults.go:585-648 | tests, packages and failed packages are each named once |
| TestEvents.OrderGrows | hack/lib/testresults.go:585-648 | what an initial part of the stream recorded stays in front, so every list is in first-seen order |
| TestEvents.OrderHas | hack/lib/testresults.go:626-636 | a test is recorded exactly when some event is about it |
| TestStream.Collector.Take | hack/lib/testresults.go:585-648 | after any stream: every recorded list, in order and with its repeats, and every test's status and output are exactly the functions of the stream that define them |
| TestStream.Collector.TakeTest | hack/lib/testresults.go:626-647 | one test event keeps that record, the order list included |
| TestStream.Collector.TakePackage | hack/lib/testresults.go:607-625 | one package event keeps that record, the package lists included |
| TestStream.Collector.Results | hack/lib/testresults.go:650-673 | exactly the stream's results: tests in first-seen order, then races outside tests, failed packages without a failed test, and failed builds |
| TestFacts.MarksAreReported | hack/lib/testresults.go:585-648 | a test, failure, speaking or failed package, failed build or refusal is on record exactly when some line establishes it |
| TestFacts.StatusExactly | hack/lib/testresults.go:633-647 | a test failed exactly when some line fails it; else it ended as the last line to pass or skip it says |
| TestFacts.TextStands | hack/lib/testresults.go:607-640 | every line of output stands after all that was said before it and nothing read later changes that |
| TestFacts.ResultsExactly | hack/lib/testresults.go:650-673 | a result is among the results exactly when some line of the stream makes it: a test, a race outside tests, a failed package with no failed test and no race, a failed build |
| TestExit.FailEventIsMarked | hack/lib/testresults.go:585-648 | every fail event, and every build-fail event without a package, marks the stream |
| TestResults.ResultsSay | hack/lib/testresults.go:650-673 | the results hold a failure exactly when the stream reported one or a package raced outside its tests, an unfinished test exactly when the stream left one, and nothing exactly when neither names a test |
| TestResults.RaceOutsideReds | hack/lib/testresults.go:655-663 | a race outside any test reds the run in every tier, whatever the registry lists |
| TestExit.FailureDecides | hack/lib/testresults.go:766-777 | a failure is red in the full tier, and red or directly excused otherwise |
| TestExit.Conclude | hack/lib/testresults.go:726-781 | exit red exactly when the plain rules red the run, the stream was refused or it held no result; excused only with a failure that is forgiven: the branch the source calls impossible never decides |
| TestExit.RunTests | hack/lib/testresults.go:715-781 | for every stream, registry and tier the exit is exactly the one the stream determines: red exactly by the plain rules, a refused or unread stream or no result; with the program's own race markers, a race outside tests exits red, green means nothing failed, and excused is for the fast tier only |
| TestExit.FullTierExactly | hack/lib/testresults.go:715-781 | in the full tier: green exactly when the registry is sound, the stream was read whole, has a test, left none unfinished and reports no failure; red otherwise |
| TestFacts.FullTierByEvents | hack/lib/testresults.go:585-781 | line by line: a full run is green exactly when the registry is sound, no line is refused, some test is reported, none is left open, and no line fails a test, a package or a build or races outside tests |
| TestExit.EveryTier | hack/lib/testresults.go:715-781 | in every tier: a race outside tests is red, green means nothing failed, and excused means the fast tier with a failure that was excused |
| TestExit.FailEventReds | hack/lib/testresults.go:585-781 | any fail event, and any build-fail event without a package, reds the full tier |
| TestBuildFail.BuildFailRedsExactly | hack/lib/testresults.go:594-602 | put anywhere into a green full-tier stream, a build-fail event reds it if and only if it carries no package, or names a test no other event is about |
| TestBuildFail.BuildFailWithPackageExitsGreen | hack/lib/testresults.go:594-602 | a full-tier stream with a passing test and a build-fail event that carries a package exits green |
| Newc.AppendHex8 | pkg/guestartifacts/initramfs.go:224-232 | eight hexadecimal digits, highest first |
| Newc.HexRoundTrip | pkg/guestartifacts/initramfs.go:224-232 | the digits read back as the value |
| Newc.PadLen | pkg/guestartifacts/initramfs.go:243 | the fewest bytes that reach a 4-byte boundary |
| Newc.WriteEntry | pkg/guestartifacts/initramfs.go:179-220 | appends header, name, padding, data and padding |
| NewcLayout.ArchiveSays | pkg/guestartifacts/initramfs.go:179-220 | in every archive each member's thirteen header fields stand at the format's offsets, in upper-case hexadecimal, with its position as inode |
| NewcReader.MemberIsRead | pkg/guestartifacts/initramfs.go:176-220 | a written member on a 4-byte boundary is read back whole, whatever surrounds it |
| NewcReader.RoundTripExactly | pkg/guestartifacts/initramfs.go:105-220 | any archive reads back to exactly its members if and only if every payload's length fits 32 bits |
| NewcReader.PiecesAligned | pkg/guestartifacts/initramfs.go:176-220 | every member's length is a multiple of four |
| MemberStream.OffsetsAligned | pkg/guestartifacts/initramfs.go:176-220 | then every member starts on a 4-byte boundary of the stream |
| MemberStream.PieceAt | pkg/guestartifacts/initramfs.go:110-118 | each member stands at its offset |
| NewcReader.ArchiveAligned | pkg/guestartifacts/initramfs.go:105-220 | in any archive each member stands whole, its header and its payload each on a 4-byte boundary of the stream |
| NewcReader.TrailerAligned | pkg/guestartifacts/initramfs.go:110-127 | the trailer follows the last member on a boundary, nothing follows it, and the archive's length is a multiple of four |
| MemberStream.ReadsWhole | pkg/guestartifacts/initramfs.go:105-127 | a stream of readable members and a trailer is read as exactly those members |
| NameOrder.SortedIsUnique | pkg/guestartifacts/initramfs.go:134-146 | a strictly sorted list is determined by its elements |
| Initramfs.Ancestors | pkg/guestartifacts/initramfs.go:163-174 | every directory of a path, shallowest first |
| Initramfs.DirNames | pkg/guestartifacts/initramfs.go:135-144 | exactly the directories of the mount points, each once, in any order |
| Initramfs.ComposeEntries | pkg/guestartifacts/initramfs.go:134-157 | one member per name, names strictly sorted and exactly the directories and init |
| Initramfs.OrderDoesNotMatter | pkg/guestartifacts/initramfs.go:130-146 | whatever order the map yields the directories in, the names are the same |
| Initramfs.ParentsFirst | pkg/guestartifacts/initramfs.go:130-146 | every directory above a member is a member before it |
| Initramfs.NamesAre | pkg/guestartifacts/initramfs.go:76-78 | the guest's names are dev, init, proc, run, run/k3sm and sys |
| Initramfs.ComposeInitramfs | pkg/guestartifacts/initramfs.go:105-127 | an empty payload is refused; otherwise the bytes are one archive, a function of the payload alone |
| Initramfs.InitramfsReadsBack | pkg/guestartifacts/initramfs.go:105-220 | the composed archive reads back to the composed members if and only if the payload is shorter than 2^32 bytes |
| NewcLayout.InitramfsUnpacks | pkg/guestartifacts/initramfs.go:130-220 | the composed archive unpacks to root-owned directories and one executable init with the payload, numbered from one and without times |
| Dhcp.DecodeEncode | pkg/guestinit/dhcp.go:253-269 | decoding recovers every encoded option list, whatever follows its end |
| Dhcp.EncodeDecode | pkg/guestinit/dhcp.go:253-269 | whatever decodes is an encoded list and a close |
| Dhcp.MalformedExactly | pkg/guestinit/dhcp.go:262-268 | the options are refused exactly when they are no encoded list |
| Dhcp.OthersAreIgnored | pkg/guestinit/dhcp.go:258-299 | padding and unknown options, wherever they stand, change nothing |
| Dhcp.ParseReply | pkg/guestinit/dhcp.go:235-305 | on every buffer: not for us, the first truncated option, or the fold of the options over the offered address |
| Dhcp.HearOption | pkg/guestinit/dhcp.go:270-298 | one option sets its field when its length allows, and DNS servers accumulate |
| DhcpFields.LastWordCounts | pkg/guestinit/dhcp.go:270-298 | each field is what the last option of its code with a legal length says, or as it was |
| DhcpFields.DnsIsAll | pkg/guestinit/dhcp.go:286-289 | the name servers are every whole address of every DNS option, in order |
| DhcpFields.ReplySays | pkg/guestinit/dhcp.go:235-305 | a reply to us gives the offered address, every DNS address in order and in each other field the last word, by the option codes of RFC 2132; it is taken exactly when its message type is not zero |
| Dhcp.ReplyIsItsOptions | pkg/guestinit/dhcp.go:235-305 | a valid header and any encoded list give the fold of the known options |
| DhcpLease.PrefixLen | pkg/guestinit/dhcp.go:113-136 | n exactly when the mask is 2^32 - 2^(32 - n); otherwise an error |
| DhcpLease.PrefixExactly | pkg/guestinit/dhcp.go:113-136 | bits are n ones and then zeros exactly when their number is 2^len - 2^(len - n) |
| DhcpLease.Validate | pkg/guestinit/dhcp.go:154-167 | valid exactly with an address, a contiguous mask and a router; the first one missing is reported |
| DhcpRequest.Build | pkg/guestinit/dhcp.go:182-216 | the four transaction bytes read back as the transaction id, the fixed part names the client, and the options decode to what the client has to say |
| DhcpRequest.OptionsSay | pkg/guestinit/dhcp.go:200-216 | by the option codes of RFC 2132, once each: the message type first, the hardware address, the wanted address and the server exactly when usable, and the four parameters wanted back |
| DhcpRequest.AppendOption | pkg/guestinit/dhcp.go:220-223 | one more option encoded after the others |
| DhcpRequest.OptionOnTheWire | pkg/guestinit/dhcp.go:220-223 | wherever it stands among others, an option is its code, its length and its value, as section 2 of RFC 2132 lays it out |

## Left out

- Two fresh mounts of one virtiofs tag share a superblock in Linux; the mount model gives each fresh mount its own.
- A remount changes only the read-only bit in the mount model; in Linux it also clears nosuid and nodev when it does not repeat them.
- PullReached.ReservationIsTight: when some transfer may run and no partial file is longer than its blob; a longer one is truncated on opening, and reserving for it as if absent counts bytes that go away.
- A mount step's data string, directory creation and id mapping; a recursive bind copies only the mounts at or below its source and nothing else of propagation.
- LogRing.Ring.Append: sequence and byte counters are unbounded, not 64-bit.
- ExecRing.Ring.Read: starts when there is something to read or the ring is closed; the wait for that is a condition variable.
- FollowSafety.StreamIsFaithful: one follower at a time; followers share only the ring, which they do not change.
- Drain.RunKeepsInv: a fork that fails is not a step; the source then closes everything before any pump starts.
- DrainContent.DrainedRingHoldsAll: a ring's whole history, before its bounds evict from it; what is held of a history is LogRing's.
- Pull.PullStaysInReservation: file operations succeed or fail whole, CommitBlob's temporary is at most the blob's size, and no other pull works on the same digests.
- Records.PinnedStaysPinned: JSON is abstract (a record decodes or it does not), and the view trees a forget also removes are not modelled.
- PathRebase.RebaseMode: reading the configuration from the environment is not modelled; the configuration is any valid one.
- Evaluation.Evaluate: parsing the registry (whether it parsed, its entries and their expiry are given) and the regular expression that recognises framing lines (any such judgement) are parameters; the report lines are not produced.
- TestStream.Collector.Take: JSON decoding is given; what is echoed to the terminal is not produced.
- Initramfs.ComposeInitramfs: writes cannot fail, since the writer is a byte string.
- Initramfs.ComposeEntries: assumes no mount point needs a directory named init, as the fixed mount points do not.
- DhcpLease.Validate: an address is absent or has four octets; IPv6 addresses do not occur.
- The wall-clock bounds of drains, stalls and retransmission are nondeterministic steps or absent.
- gRPC handlers, process spawning, terminals, cgroups, netlink, vsock and the sandbox calls: wiring over libraries and system calls.
- Registry HTTP, authentication and digests: a transfer is a source of bytes with a start offset.
- Container root file systems, etc binds, kernel file systems and volume sizing in mounts.go: lists of fixed steps.
- checkManifest, dedupe, layer paths, version pins, carrier checks, host files and variant selection would add only easy members.
