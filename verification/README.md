# Verified model of the gateway's transfer, lease and parsing cores

The gateway moves files between remote services and the local disk and parses
what untrusted peers send. Its guarantees have to hold while a caller may be
cancelled at any await, any system call or provider call may fail, other tasks
and threads interleave, and another process may rearrange the filesystem. This
project models those parts in Dafny and proves what they promise.

- **Commit and read of local files** (`LocalFiles`, `ShieldedAwait`,
  `StreamCommit`, `GuardedRead`). Every fault, short write, temporary name and
  cancellation is decided by an environment the theorems quantify over.
- **Containment** (`Containment`, `DescriptorWalk`, `GuardedWrite`). Names are
  judged over any filesystem with symbolic links, and acted on through held
  directories against an adversary; the two halves are joined.
- **The GCS protocol** (`GcsCapacity`, `GcsLease`, `GcsUpload`, `GcsDownload`).
  Capacity and shutdown over every interleaving; no client left open and no call
  left running, whatever other requests do meanwhile; the ranged download refines
  copying one generation.
- **Transfers over FTP** (`TransferBudget`, `TransferOutcome`). One byte budget
  and one table of handles, over every interleaving of the steps between awaits;
  which handles come through, and what their names hold in the end.
- **Walks** (`JsonSafe`, `ExceptionScrub`, `SecretMasking`, `XmlProlog`,
  `SoapFault`). Loops over cyclic graphs, texts and trees against recursive or
  closed-form specifications.
- **Tracing and life cycles** (`TraceIsolation`, `ChannelLifecycle`, `S3Body`).
  Isolation of concurrent calls; clean-up exactly once and the order of errors.

Seven results say where the code does less than its documentation, or than a
reader may expect: an `fchmod` fault together with a close fault leaves a
created file behind (`StreamCommit.CreateRestricted`,
`StreamCommit.ResidueWitness`); one cancellation while a failed FTP write
closes its handle leaves the partial file behind, although no unlink was refused
(`TransferBudget.CleanUpExactly`, `TransferBudget.CancelledCleanUpLeaves`); a
secret that begins or ends with `*`, or holds
`***`, can survive masking (`SecretMasking.PeerHidesExactly`), and the S3 mask
shows every secret that overlaps it, its own letters included
(`SecretMasking.S3HidesExactly`); a bearer that is part of the fixed replacement
text is still there after the scrub (`ExceptionScrub.StillExposes`), though no
address is (`ExceptionScrub.AddressesGo`); with overwriting, an open of a name
that another FTP handle is still at work on makes the two share the file, and
the failure of one removes it for both (`TransferBudget.OverwritingExactly`,
`TransferBudget.DiscardTakesExactly`); an absolute entry name that spells out a
place below the base is let in, although such a name is refused on its own
(`Containment.UnderAgreesExactly`); and a deferred cancellation can make an
exclusive download raise over a complete file (`StreamCommit.StreamExclusive`).

Check everything with `dafny verify dfyconfig.toml`.

## Model

| member | source | states |
|---|---|---|
| `ShieldedAwait.AwaitShielded` | asyncio_gateway/utils/paths.py:1253-1305 | a shielded child is awaited to its end whatever cancellations arrive; its own cancellation always escapes, otherwise the first cancellation of the caller does, unless suppression was asked for |
| `ShieldedAwait.AwaitOrCancelled` | asyncio_gateway/utils/paths.py:1325-1340 | a hand-over wait notices the first caller cancellation and returns no earlier than the worker's end: every cancellation delivered before it has been swallowed |
| `ShieldedAwait.SuppressedIsScheduleFree` | asyncio_gateway/utils/paths.py:1296-1305 | under suppression the answer is the same for every schedule of cancellations |
| `ShieldedAwait.ShieldedIsHonest` | asyncio_gateway/utils/paths.py:1295-1305 | a value comes back only if the child returned it; a child cancellation is never replaced; the first live caller cancellation is the one raised |
| `StreamCommit.WriteAll` | asyncio_gateway/utils/paths.py:1507-1514 | short writes are continued until the whole chunk is in the file; on a fault exactly a prefix of the chunk was appended and no other file changed |
| `StreamCommit.CopyChunk` | asyncio_gateway/utils/paths.py:1651-1667 | a chunk that takes the running total over the cap is refused before any of it is written |
| `StreamCommit.CopyBody` | asyncio_gateway/utils/paths.py:1649-1669 | the file gains a prefix of the body that is within the cap, the whole body on success; the failure is the first item that breaks, is not bytes or crosses the cap, or a local fault or cancellation met before it |
| `StreamCommit.FailsExactly` | asyncio_gateway/utils/paths.py:1652-1667 | the body has no failure exactly when every item is a chunk and together they are within the cap |
| `StreamCommit.Finalize` | asyncio_gateway/utils/paths.py:1617-1638 | an available `aclose` is called once and its exact outcome is returned; a result that cannot be awaited is a failure |
| `StreamCommit.StreamDescriptor` | asyncio_gateway/utils/paths.py:1641-1677 | the iterator is finalized exactly once on every path; the copy failure escapes if there was one, whatever the finalizer does, and the finalizer failure otherwise; a return means that no write failed and no await was cancelled |
| `StreamCommit.UndoCreate` | asyncio_gateway/utils/paths.py:1458-1464 | which name, error and fault count the handler of a failed `fchmod` leaves, for every combination of close and unlink faults |
| `StreamCommit.CreateRestricted` | asyncio_gateway/utils/paths.py:1470-1496 | when a created file exists afterwards, and the exact fault pattern (a failing `fchmod` together with a failing close or unlink in its handler) under which its name is left behind |
| `StreamCommit.ResidueWitness` | asyncio_gateway/utils/paths.py:1458-1464 | a run in which an `fchmod` fault and a close fault leave an empty file although no unlink was ever refused |
| `StreamCommit.TemporaryFileFor` | asyncio_gateway/utils/paths.py:1431-1467 | the first free one of 128 names decides, and the failure to find one is exactly that all 128 are taken; the file obtained is new and empty, and a failure leaves the directory as it was save a counted fault |
| `StreamCommit.HandOverDescriptor` | asyncio_gateway/utils/paths.py:1308-1340 | what was handed over comes back exactly when the caller was not cancelled meanwhile; otherwise its first cancellation is raised, and a descriptor delivered after it is closed, never leaked |
| `StreamCommit.OpenPinnedParent` | asyncio_gateway/utils/paths.py:1687-1689 | a caller cancelled while the parent is opened gets that cancellation; otherwise the descriptor comes back exactly when the open succeeded |
| `StreamCommit.HandOverFile` | asyncio_gateway/utils/paths.py:1552-1614 | the same for a file; one delivered after a cancellation is closed and removed, and its name stays only if the unlink itself failed |
| `StreamCommit.ReleaseParent` | asyncio_gateway/utils/paths.py:1724-1729 | closing the parent keeps the result, unless nothing was committed or had failed and the caller was cancelled at the close: then its first cancellation is raised |
| `StreamCommit.FillAndClose` | asyncio_gateway/utils/paths.py:1699-1704 | a file that was filled and closed holds the whole body, durably, no other file changed, no write, fsync or close of it failed and no await was cancelled; a failure of the copy is the one that escapes, and without one the error is the finalizer's own, a call of this span that failed, or the first cancellation of this span |
| `StreamCommit.AtomicReplaceAt` | asyncio_gateway/utils/paths.py:1531-1549 | it raises exactly when the entry was not replaced: a cancellation before the dispatch, the first of them, or the fault of the replacement; later cancellations have no say |
| `StreamCommit.Abandon` | asyncio_gateway/utils/paths.py:1712-1723 | the clean-up of an uncommitted attempt closes what is open and removes the temporary unless the unlink fails |
| `StreamCommit.StreamOverwrite` | asyncio_gateway/utils/paths.py:1680-1729 | for every body, fault and cancellation schedule: it returns exactly when the target was replaced once, then by a new, complete, synced file, and then no await before the replacement was cancelled and no call before the parent's close failed, tries of taken names aside; when it raises every name is as before save a temporary whose removal failed; no descriptor is left open; a caller cancelled while the parent is opened gets that cancellation; the error is the copy failure if there was one, and otherwise a call that failed, the first cancellation delivered, the finalizer's own failure, or the lack of a free temporary name before the body was touched; and when only the body can fail it ends exactly as the body and its finalizer say |
| `StreamCommit.StreamExclusive` | asyncio_gateway/utils/paths.py:1732-1780 | an existing target is untouched; a free one ends absent or complete (unless its removal failed), and the one way to raise over a complete file is a deferred cancellation; a return means that no await at all was cancelled and no call before the parent's close failed; the same order of errors, with the refusal of an existing target |
| `StreamCommit.StreamToPath` | asyncio_gateway/utils/paths.py:1783-1837 | a declared size over the cap is refused before any system call; otherwise the promise of the chosen mode, what a return means for the faults and cancellations met, and the same order of errors, in every environment |
| `GuardedRead.ReadAll` | asyncio_gateway/utils/paths.py:1410-1421 | every byte of the held file, through any short reads, or a refusal exactly when it is over the limit |
| `GuardedRead.ReadGuardedFile` | asyncio_gateway/utils/paths.py:1378-1428 | the whole bounded file or a failure; the one descriptor is closed on every path, a cancelled hand-over included; a return means that nothing failed and no await was cancelled, and what is raised is the missing name, the limit, a call that failed or the first cancellation delivered |
| `DescriptorWalk.WalkToParent` | asyncio_gateway/utils/paths.py:227-267 | against an adversary that may rearrange entries at every system call, the descriptor that comes back is for exactly the real directory the parts name; every other one is closed; in a still filesystem it succeeds exactly when every component is a directory |
| `DescriptorWalk.RejectIrregular` | asyncio_gateway/utils/paths.py:300-330 | the verdict is about the inode of the held descriptor: regular and singly linked, or refused |
| `DescriptorWalk.Settle` | asyncio_gateway/utils/paths.py:777-787 | truncation happens only after the check, on the checked inode; a refused inode keeps its contents and its descriptor is closed |
| `DescriptorWalk.OpenParent` | asyncio_gateway/utils/paths.py:738-742 | only the parent descriptor survives the descent, whatever fails |
| `DescriptorWalk.OpenWithin` | asyncio_gateway/utils/paths.py:672-787 | a successful open is an entry of exactly the real directory the path names, the file shown there at that call or a new one, and always a new one when exclusive; a failed open closed everything and truncated nothing; and it does succeed when nobody interferes, in both modes |
| `GuardedWrite.NamesDescend` | asyncio_gateway/utils/contained_io.py:444-456 | a canonical name below the base names a real directory below the base directory: the string check carries over to inodes |
| `GuardedWrite.EntryLandsInside` | asyncio_gateway/utils/paths.py:545-588 | an entry name accepted and reached through held directories is opened under that very name, at or below the real base |
| `GuardedWrite.WholeLands` | asyncio_gateway/utils/paths.py:506-512 | a tail ending in `..` leads to the base or below it, and that is the place opened |
| `GuardedWrite.BaseLands` | asyncio_gateway/utils/paths.py:481-504 | an accepted empty tail opens the base itself, under its own name, where its parent leads; BaseAcceptedExactly says when it is accepted |
| `GuardedWrite.AcceptedLands` | asyncio_gateway/utils/paths.py:545-588 | so every accepted path, whatever its tail, lands where it may |
| `GuardedWrite.MayLandIsAccepted` | asyncio_gateway/utils/paths.py:545-588 | a composed path is accepted as a place exactly when the walk of the names alone leads there: below the base for an entry, to the base itself when nothing is left over |
| `GuardedWrite.OpenContained` | asyncio_gateway/utils/contained_io.py:694-722 | check then open: a refused name and a loop make no system call, a descriptor that comes back lands where the name may although the filesystem may change at every step in between, and a place the walk of the names allows, the base itself included, is opened when nobody interferes |
| `Containment.ResolveIsTheWalk` | asyncio_gateway/utils/paths.py:422-519 | the `realpath` recursion with its set of links in progress answers a place exactly when the step-by-step kernel walk ends there |
| `Containment.LoopNeverEnds` | asyncio_gateway/utils/paths.py:487-504 | it reports a loop exactly when the kernel walk never ends |
| `Containment.ResolveIsCanonical` | asyncio_gateway/utils/paths.py:483-504 | what it answers passes through no link and no dot component |
| `Containment.ResolveJoins` | asyncio_gateway/utils/paths.py:494-519 | resolving a joined path is resolving the second half from where the first led |
| `Containment.ResolveStraight` | asyncio_gateway/utils/paths.py:494-519 | plain names that are no links lead straight down |
| `Containment.AcceptedExactlyInside` | asyncio_gateway/utils/paths.py:422-519 | a candidate is accepted if and only if the walk of its directory (or of all of it, when it ends in `..`) ends inside where the base ends; the final name is kept verbatim |
| `Containment.RefusedExactlyOutside` | asyncio_gateway/utils/paths.py:505-519 | it is refused, rather than reported as a loop, exactly when both walks end and that of its directory ends outside |
| `Containment.BaseAcceptedExactly` | asyncio_gateway/utils/paths.py:481-504 | the base as its own candidate is never outside; it is accepted exactly when the walk of the base and that of its parent end, as the parent's place and its own name, and the root as itself |
| `Containment.BaseKeepsItsName` | asyncio_gateway/utils/paths.py:494-504 | a base spelled with plain names and no link above the last is accepted as spelled, a link at the last name itself included |
| `Containment.PlainIsAccepted` | asyncio_gateway/utils/paths.py:422-519 | plain names without links are always accepted, unchanged |
| `Containment.UnderJudgesTheEntry` | asyncio_gateway/utils/paths.py:545-588 | judging what a client joined onto the local operand is judging the entry name alone; an absolute name is judged by what it spells below the base, and refused when the base is not its prefix |
| `Containment.UnderAgreesExactly` | asyncio_gateway/utils/paths.py:545-588 | the two judgements agree unless the name is absolute and spells an accepted place below the base |
| `Containment.SpelledOutIsTheEntry` | asyncio_gateway/utils/paths.py:545-588 | such a name exists for every entry: the entry spelled out below the operand is judged as the entry is, though as sent it would be refused |
| `Containment.ParsedIsClean` | asyncio_gateway/utils/paths.py:459-481 | parsing a spelling leaves no empty and no `.` component |
| `Containment.JoinParses` | asyncio_gateway/utils/contained_io.py:1545-1566 | joining texts with a slash and parsing is joining the parsed parts |
| `Containment.ShowParses` | asyncio_gateway/utils/contained_io.py:1501-1542 | a shown path parses back to itself |
| `Containment.CallerPathIsItsOwnBase` | asyncio_gateway/utils/paths.py:591-633 | a caller-named path is never refused for where it leads: its parent is canonicalised, its name kept |
| `GcsCapacity.Admission.AcquireLease` | asyncio_gateway/logic/gcs_client.py:457-488 | the lock-protected step of admission: granted exactly when not closing and a permit is left, which it then takes |
| `GcsCapacity.Admission.ReleaseLease` | asyncio_gateway/logic/gcs_client.py:430-454 | the lock-protected step of release: the permit goes back, and the shutdown is this caller's exactly when closing, idle and nobody had it |
| `GcsCapacity.Admission.ShutDownOffloader` | asyncio_gateway/logic/gcs_client.py:491-508 | the lock-protected step of closing: admission is closed, and the shutdown is this caller's exactly when nothing is out and nobody had it |
| `GcsCapacity.StepKeepsInv` | asyncio_gateway/logic/gcs_client.py:430-508 | every step keeps: permits plus active is four, active counts the leases out, the shutdown flag holds exactly when closing and idle, at most one shutdown, no submission lost |
| `GcsCapacity.RunKeepsInv` | asyncio_gateway/logic/gcs_client.py:430-508 | the invariant survives every interleaving of acquire, run, clean-up, release and shutdown |
| `GcsCapacity.AlwaysInv` | asyncio_gateway/logic/gcs_client.py:430-508 | so it holds in every reachable state |
| `GcsCapacity.RefusedExactly` | asyncio_gateway/logic/gcs_client.py:461-476 | a lease is refused exactly when closing or when all four are out |
| `GcsCapacity.ClosingIsFinal` | asyncio_gateway/logic/gcs_client.py:461-469 | no lease is granted after closing |
| `GcsCapacity.ClosingExactly` | asyncio_gateway/logic/gcs_client.py:491-508 | admission is closing exactly when a shutdown was asked for |
| `GcsCapacity.ShutDownCloses` | asyncio_gateway/logic/gcs_client.py:491-508 | whatever came before a shutdown and comes after it, no lease is granted any more, and one shutdown of the executor is owing or done exactly when every lease has been given back |
| `GcsCapacity.GivenBackOnce` | asyncio_gateway/logic/gcs_client.py:415-421 | a second release changes nothing |
| `GcsCapacity.ShutDownOnceDrained` | asyncio_gateway/logic/gcs_client.py:430-454 | closed and drained, the executor has been shut down exactly once |
| `GcsCapacity.OthersKeep` | asyncio_gateway/logic/gcs_client.py:430-508 | whatever other tasks do meanwhile keeps the invariant and leaves a lease as it is |
| `GcsCapacity.UpWhileOut` | asyncio_gateway/logic/gcs_client.py:437-454 | while a lease is out the executor has not been shut down |
| `GcsLease.EarliestContiguous` | asyncio_gateway/logic/gcs_client.py:253-265 | the selected cancellation ends a path of cancellations through context links, no exception twice, and nothing continues it; cycles end the walk |
| `GcsLease.OneEarliest` | asyncio_gateway/logic/gcs_client.py:253-265 | there is only one cancellation to select |
| `GcsLease.Drain` | asyncio_gateway/logic/gcs_client.py:268-284 | the drain ends with the call finished, keeping the first cancellation |
| `GcsLease.Provider.Begin` | asyncio_gateway/logic/gcs_client.py:323-343 | the call of a `run` is submitted to an executor that is up |
| `GcsLease.Provider.SubmitCleanup` | asyncio_gateway/logic/gcs_client.py:393-396 | so is the clean-up of a late result |
| `GcsLease.Provider.TakeLease` | asyncio_gateway/logic/gcs_client.py:457-488 | a lease is granted exactly when admission is open and fewer than four are out |
| `GcsLease.Provider.GiveBack` | asyncio_gateway/logic/gcs_client.py:415-421 | the lease is given back, and the executor shut down exactly when closing and this was the last one out |
| `GcsLease.Run` | asyncio_gateway/logic/gcs_client.py:295-413 | however it ends, and whatever other requests and the shutdown do between its steps, neither the provider call nor the clean-up of a late result is running; its answer and the close counts are an exact function of the schedule, a provider timeout or cancellation caught by its own handlers included |
| `GcsLease.AnswerExactly` | asyncio_gateway/logic/gcs_client.py:360-413 | a caller's cancellation is the one raised, whatever the drains deliver; past the deadline the first cancellation of the drains is, and the timeout when there is none; in time the provider's own result or exception comes out |
| `GcsLease.RaisesOnly` | asyncio_gateway/logic/gcs_client.py:360-413 | a run raises the provider's own exception, the deadline, or the first cancellation of its wait or of a drain, and nothing else |
| `GcsLease.RunSettles` | asyncio_gateway/logic/gcs_client.py:342-413 | a constructed client is the accepted result, still open, or has been closed once; a close reaches its client once whatever is answered |
| `GcsLease.CallProvider` | asyncio_gateway/logic/gcs_client.py:1853-1880 | the first call not accepted ends the body with what it raised, and the attempt owns at most the one client it accepted |
| `GcsLease.Conclude` | asyncio_gateway/logic/gcs_client.py:1903-1943 | the held client is closed once; a body failure outranks a close failure |
| `GcsUpload.UploadAttempt` | asyncio_gateway/logic/gcs_client.py:1837-1943 | it succeeds exactly when all its calls and the close were accepted; every client it ever constructed has been closed exactly once |
| `GcsUpload.Attempts` | asyncio_gateway/logic/gcs_client.py:1244-1265 | the request succeeds exactly when one of its attempts does, and otherwise raises what the last one raised, or the open circuit when there was none; everything they constructed is settled |
| `GcsUpload.HandleUpload` | asyncio_gateway/logic/gcs_client.py:1221-1277 | a request is refused exactly when closing or full, and touches nothing; any other reads the whole bounded file or fails as the read did; after a good read it succeeds exactly when some attempt has all its calls accepted, and otherwise raises what the last attempt raised; it leaves no call running, no client open, no descriptor held and its lease given back, whatever others did between its steps |
| `GcsDownload.RangesPartition` | asyncio_gateway/logic/gcs_client.py:1694-1712 | every byte of the object is in exactly one range; no range is over 64 KiB or past the end |
| `GcsDownload.RangesInOrder` | asyncio_gateway/logic/gcs_client.py:1694-1712 | ranges follow one another without gap |
| `GcsDownload.DownloadBlobRange` | asyncio_gateway/logic/gcs_client.py:615-633 | the exact bytes asked for, of the generation asked for, or a failure |
| `GcsDownload.FetchRange` | asyncio_gateway/logic/gcs_client.py:1696-1710 | one range under the lease: its exact bytes, or the failure of that call |
| `GcsDownload.DownloadChunks` | asyncio_gateway/logic/gcs_client.py:1688-1712 | the requests are the ranges of one generation in order; if every item is a chunk, together they are the object, and an item that is none is the failure of one of the calls |
| `GcsDownload.Download.Log` | asyncio_gateway/logic/gcs_client.py:1694-1712 | ranges are requested only as far as the stream asked, all of one generation |
| `GcsDownload.Reload` | asyncio_gateway/logic/gcs_client.py:576-612 | the first pin is the generation the caller asked for, if any |
| `GcsDownload.StreamTransfers` | asyncio_gateway/logic/gcs_client.py:1762-1770 | a stream of the pinned object that returned has replaced the target by it, of the pinned size |
| `GcsDownload.StreamBlamed` | asyncio_gateway/logic/gcs_client.py:1762-1770 | a stream of an object within the limit fails by one of its ranges, by the lack of a temporary name, or by the local environment |
| `GcsDownload.StreamRanges` | asyncio_gateway/logic/gcs_client.py:1762-1770 | the ranges streamed into the target; the final size check can never fire |
| `GcsDownload.Transfer` | asyncio_gateway/logic/gcs_client.py:1755-1776 | one transfer replaced the target by the pinned object or changed no name |
| `GcsDownload.Attempt` | asyncio_gateway/logic/gcs_client.py:1714-1835 | clients settled; the pin kept; a failing close may still raise over a replaced target; the error is what a provider call raised, an object over the limit, the lack of a temporary name, a local call that failed or the first cancellation delivered |
| `GcsDownload.SafeAgain` | asyncio_gateway/logic/gcs_client.py:1644-1656 | across attempts the target is what it was or the pinned object whole |
| `GcsDownload.WaitingOn` | asyncio_gateway/logic/gcs_client.py:1644-1656 | a failed attempt moves on at least one provider call and leaves nothing in the way of the next |
| `GcsDownload.StoredIsByteForByte` | asyncio_gateway/logic/gcs_client.py:1755-1776 | a target that holds the pinned size of the object is the object, when its metadata told the size right |
| `GcsDownload.Attempts` | asyncio_gateway/logic/gcs_client.py:1644-1656 | attempts under one pin: the target untouched or the pinned object at every exit; a failed attempt is followed by the next, so the request gets through if the provider comes round at a call no later than the attempts are many |
| `GcsDownload.HandleDownload` | asyncio_gateway/logic/gcs_client.py:1644-1677 | refused exactly when closing or full; otherwise, over any number of attempts and whatever other requests do meanwhile: one generation in every request, the target untouched or the whole pinned size of the object at every exit, success means durably, the lease given back, the error the one of the last attempt or of the open circuit, and success does come when nothing goes wrong, or nothing from some call on that is no later than the attempts are many |
| `ExceptionScrub.Saturated` | asyncio_gateway/logic/gcs_client.py:235-243 | once a round adds nothing, no number of further links adds anything |
| `ExceptionScrub.Round` | asyncio_gateway/logic/gcs_client.py:235-243 | a round never loses anything, and one that leaves the size alone is the last one needed |
| `ExceptionScrub.Collect` | asyncio_gateway/logic/gcs_client.py:233-243 | the size fixpoint ends on any cyclic graph and collects exactly the reachable exceptions |
| `ExceptionScrub.Rewrite` | asyncio_gateway/logic/gcs_client.py:244-249 | every collected exception has its bearing strings replaced and its links kept |
| `ExceptionScrub.Scrub` | asyncio_gateway/logic/gcs_client.py:227-250 | the reachable exceptions and no others lose every direct string containing the bearer; position by position, every other argument is the old one |
| `ExceptionScrub.StillExposes` | asyncio_gateway/logic/gcs_client.py:244-249 | the bearer remains exposed if and only if it was exposed and is part of the fixed text itself |
| `ExceptionScrub.AWordStays` | asyncio_gateway/logic/gcs_client.py:244-249 | a bearer for which it does: a word of the fixed text |
| `ExceptionScrub.AddressesGo` | asyncio_gateway/logic/gcs_client.py:1411-1413 | a bearer with a colon, as every signed URL has, is never part of the fixed text; the source itself asks only for a non-empty text |
| `JsonSafe.Check` | asyncio_gateway/logic/grpc_client.py:439-467 | the explicit-stack walk ends on every finite graph, cyclic or shared, and accepts exactly the JSON-shaped values |
| `JsonSafe.SafeIsJsonShaped` | asyncio_gateway/logic/grpc_client.py:439-467 | the recursive path-set reading and the closed form (no container reaches itself, every reachable key and leaf allowed) agree |
| `JsonSafe.SafePaths` | asyncio_gateway/logic/grpc_client.py:439-467 | a safe value has only good paths |
| `JsonSafe.GoodFromIsSafe` | asyncio_gateway/logic/grpc_client.py:439-467 | a value whose paths are all good is safe |
| `JsonSafe.EnterChildren` | asyncio_gateway/logic/grpc_client.py:447-466 | pushing the children trades one frame for their own work, meaning unchanged |
| `JsonSafe.CycleRepeats` | asyncio_gateway/logic/grpc_client.py:449-453 | a container on a cycle can be walked into twice |
| `SecretMasking.Mask` | asyncio_gateway/logic/grpc_client.py:667-672 | after the loop every secret that cannot overlap the mask occurs nowhere, whatever the other secrets are and in whatever order; text holding no secret is unchanged |
| `SecretMasking.NothingNew` | asyncio_gateway/logic/grpc_client.py:669-672 | a replacement never creates an occurrence of a string that cannot overlap the mask |
| `SecretMasking.NothingToMask` | asyncio_gateway/logic/grpc_client.py:669-672 | text without the secret is unchanged |
| `SecretMasking.MasksFirst` | asyncio_gateway/logic/grpc_client.py:669-672 | exactly the leftmost occurrence goes when it is the only one |
| `SecretMasking.MasksWhole` | asyncio_gateway/logic/grpc_client.py:651-658 | longest first, a secret containing shorter ones is masked whole |
| `SecretMasking.OutsideMask` | asyncio_gateway/logic/grpc_client.py:669-672 | what is found beside a mask stood beside the text it replaced |
| `SecretMasking.ClashWithStars` | asyncio_gateway/logic/grpc_client.py:669-672 | a secret can overlap `***` exactly when it begins or ends with `*` or holds `***` |
| `SecretMasking.ClashShows` | asyncio_gateway/logic/grpc_client.py:669-672 | a secret that can overlap a mask with equal ends is shown again by some text |
| `SecretMasking.HidesExactly` | asyncio_gateway/logic/grpc_client.py:667-672 | for every secret and every mask with equal ends: hidden in every text if and only if the two cannot overlap |
| `SecretMasking.OverlapsExactly` | asyncio_gateway/logic/grpc_client.py:669-672 | they can overlap exactly when one lies inside the other or an end of one is the other end of the other |
| `SecretMasking.PeerHidesExactly` | asyncio_gateway/logic/grpc_client.py:667-672 | `***` hides a secret in every text if and only if it neither begins nor ends with `*` nor holds `***` |
| `SecretMasking.S3HidesExactly` | asyncio_gateway/logic/s3_client.py:158-170 | `***redacted***` hides a secret in every text if and only if neither lies inside the other and no ends meet; every piece of the mask itself stays readable |
| `XmlProlog.ScanProlog` | asyncio_gateway/logic/soap_client.py:464-535 | the cursor loop answers what the recursive scan does |
| `XmlProlog.ScanReadsProlog` | asyncio_gateway/logic/soap_client.py:464-535 | a position is answered exactly when a prolog leads up to a root there, a refusal exactly when one leads up to a declaration that is no comment |
| `XmlProlog.PrologIsStable` | asyncio_gateway/logic/soap_client.py:464-535 | a prolog is one whatever follows it |
| `XmlProlog.RootIsStable` | asyncio_gateway/logic/soap_client.py:464-535 | the answer depends on nothing after the character behind the root bracket |
| `XmlProlog.RootElementName` | asyncio_gateway/logic/soap_client.py:348-372 | a refusal or the root name as the scan and the name loop find it; RootNameReads says what that is |
| `XmlProlog.RootNameReads` | asyncio_gateway/logic/soap_client.py:366-372 | the answer is the local name spelled at the root, everything before the last colon dropped, and no other |
| `XmlProlog.RefusesExactly` | asyncio_gateway/logic/soap_client.py:375-408 | a body is refused exactly when a prolog leads up to a declaration in it that is no comment |
| `XmlProlog.EnvelopeSays` | asyncio_gateway/logic/soap_client.py:406-424 | a body that is no envelope comes out below a root bound to the namespace of the version asked for, after the headers given; one whose root is spelled with that local name comes out as it went in |
| `XmlProlog.NamespacesDiffer` | asyncio_gateway/logic/soap_client.py:126-129 | the two versions cannot be mistaken for each other |
| `XmlProlog.EnvelopeReadsBack` | asyncio_gateway/logic/soap_client.py:375-424 | every envelope built reads back with root local name `Envelope` |
| `XmlProlog.EnvelopeIsIdempotent` | asyncio_gateway/logic/soap_client.py:375-424 | wrapping an envelope again, for any version and headers, returns it unchanged |
| `SoapFault.ExceedsDepth` | asyncio_gateway/logic/soap_client.py:603-634 | the explicit stack answers whether the recursive depth of the tree is over the limit |
| `SoapFault.ChildrenReach` | asyncio_gateway/logic/soap_client.py:631-633 | pushing the children at the next level reaches exactly as deep as the node did |
| `SoapFault.Popped` | asyncio_gateway/logic/soap_client.py:628-632 | the stack reaches as deep as its top or the rest of it |
| `SoapFault.Subcodes` | asyncio_gateway/logic/soap_client.py:733-742 | the value of every subcode of the chain, outermost first, none left out |
| `SoapFault.ChainIsUnique` | asyncio_gateway/logic/soap_client.py:738-742 | a fault has one such chain |
| `XmlProlog.BodyIsCarried` | asyncio_gateway/logic/soap_client.py:415-424 | wrapped or not, the body is carried character for character |
| `TransferBudget.Budget.Spend` | asyncio_gateway/utils/contained_io.py:123-144 | a refused block is counted too |
| `TransferBudget.ContainedPathIO.OpenForWriting` | asyncio_gateway/utils/contained_io.py:700-722 | a handle is received, and enters the table under its name, exactly when the open was not abandoned and the name was free, or overwriting is allowed and the file has no other name |
| `TransferBudget.OpensExactly` | asyncio_gateway/utils/contained_io.py:700-722 | an open adds a handle that writes to an emptied file of that name exactly when the name is free, or overwriting is allowed and no other name leads to its file; otherwise it changes nothing |
| `TransferBudget.ContainedPathIO.Write` | asyncio_gateway/utils/contained_io.py:745-759 | a block is charged before the write and put under way if it is within the budget; a refused one reaches no file, dooms its own handle and takes it out of the table |
| `TransferBudget.ContainedPathIO.Written` | asyncio_gateway/utils/contained_io.py:748-759 | a write that went well puts its block at the end of the handle's file; a failed one dooms its own handle and takes it out of the table |
| `TransferBudget.ContainedPathIO.DiscardClosed` | asyncio_gateway/utils/contained_io.py:795-797 | a close that failed is ignored; one that was cancelled leaves before the unlink |
| `TransferBudget.ContainedPathIO.UnlinkEnded` | asyncio_gateway/utils/contained_io.py:798-800 | the unlink removes the name the handle was opened at, or is refused, or never starts |
| `TransferBudget.ContainedPathIO.Close` | asyncio_gateway/utils/contained_io.py:761-778 | a close takes the handle out of the table before it is awaited |
| `TransferBudget.ContainedPathIO.Closed` | asyncio_gateway/utils/contained_io.py:779-783 | a close that failed or was cancelled goes on to the unlink |
| `TransferBudget.StepKeepsBudget` | asyncio_gateway/utils/contained_io.py:84-144 | every step keeps what reached the disk within what was let through, and that within the limit |
| `TransferBudget.BudgetHolds` | asyncio_gateway/utils/contained_io.py:84-144 | over every interleaving of every file the bytes on disk never pass the limit |
| `TransferBudget.RefusedForGood` | asyncio_gateway/utils/contained_io.py:123-144 | once a block is refused nothing is let through again, however small, on any file |
| `TransferBudget.StepKeepsTable` | asyncio_gateway/utils/contained_io.py:721-797 | every step keeps the table equal to the guarded handles still being written |
| `TransferBudget.TableHolds` | asyncio_gateway/utils/contained_io.py:721-797 | so it is, over every interleaving, client renames and unlinks included |
| `TransferBudget.OwnersApart` | asyncio_gateway/utils/contained_io.py:785-800 | two owners never share a name or a file |
| `TransferBudget.DiscardRemovesItsOwn` | asyncio_gateway/utils/contained_io.py:798-800 | with overwriting or without, the unlink of a failed write removes the file its own handle opened, which no other owner has |
| `TransferBudget.StepKeepsFiles` | asyncio_gateway/utils/contained_io.py:668-800 | every step that leaves the files to the transfer, and opens no name a handle at work still has, keeps every file with one owner holding exactly what was written to it, and every other file as it was |
| `TransferBudget.FilesHold` | asyncio_gateway/utils/contained_io.py:668-800 | so it is over every interleaving |
| `TransferBudget.OnceIsSolitary` | asyncio_gateway/utils/contained_io.py:700-722 | without overwriting always, and with it when no name is opened for writing twice, no open takes a name from a handle at work |
| `TransferBudget.StraysExactly` | asyncio_gateway/utils/contained_io.py:715-800 | a file is left with nobody to remove it exactly by an abandoned open, a clean-up cancelled in its close or before its unlink began, or a refused unlink |
| `TransferBudget.CleanUpExactly` | asyncio_gateway/utils/contained_io.py:785-800 | a failed write removes its file if and only if neither its close nor the start of its unlink is cancelled and the unlink is not refused; otherwise the file stays under its name, out of the table |
| `TransferBudget.CancelledCleanUpLeaves` | asyncio_gateway/utils/contained_io.py:795-799 | a run that leaves a partial file although no unlink was refused: a block over the limit, and one cancellation while the handle is being closed |
| `TransferBudget.FilesKept` | asyncio_gateway/utils/contained_io.py:668-800 | over every plain run that opens no name for writing twice, and over every plain run without overwriting, each handle has its file to itself with exactly what was written to it |
| `TransferBudget.OverwritingExactly` | asyncio_gateway/utils/contained_io.py:668-722 | with overwriting, an open keeps every file with its one owner if and only if no handle at work has that name |
| `TransferBudget.OneNameHolds` | asyncio_gateway/utils/contained_io.py:668-800 | over any run, an inode is only ever reached by the name it was opened under |
| `TransferBudget.DiscardTakesExactly` | asyncio_gateway/utils/contained_io.py:785-800 | so a discard takes the file of another handle exactly when that handle was opened under the same name |
| `TransferOutcome.FailureIsFinal` | asyncio_gateway/utils/contained_io.py:745-800 | over any run, a handle one of whose blocks was refused, or whose write or close ended badly, never finishes and never returns to the table |
| `TransferOutcome.NothingFailsIt` | asyncio_gateway/utils/contained_io.py:668-800 | and in an undisturbed run nothing else stops a handle |
| `TransferOutcome.StepTakes` | asyncio_gateway/utils/contained_io.py:745-749 | nothing but a block handed to it changes what a handle has taken: sent, or under way |
| `TransferOutcome.AskedIsTaken` | asyncio_gateway/utils/contained_io.py:745-783 | a handle that came through, and was not closed with a block under way, sent every byte it was asked to write, in order |
| `TransferOutcome.RunGivesBack` | asyncio_gateway/utils/contained_io.py:785-800 | in an undisturbed run no file is left, and a name whose handle removed its file has, if any, a file made since |
| `TransferOutcome.NoPartialFile` | asyncio_gateway/utils/contained_io.py:668-800 | in both modes, at rest every name holds its older bytes, or exactly what was asked of a handle none of whose blocks was refused and whose writes and close went well, or was left by one of the steps that leave a file, of which an undisturbed run has none; files nobody opened are untouched |
| `TransferOutcome.FinishesExactly` | asyncio_gateway/utils/contained_io.py:668-800 | in an undisturbed transfer at rest a handle finished exactly when nothing failed it; the last one under its name left there all it was asked to write, and the name of one that failed is gone, or holds what another handle was asked to write |
| `TraceIsolation.OnlyStartWritesTheBaseline` | asyncio_gateway/utils/request_tracer.py:282-541 | no callback but the request start touches the baseline |
| `TraceIsolation.Tracer.BeginScope` | asyncio_gateway/utils/request_tracer.py:175-214 | the mapping handed back is fresh, empty and the one bound |
| `TraceIsolation.Tracer.Current` | asyncio_gateway/utils/request_tracer.py:99-114 | the mapping in scope, bound on first touch |
| `TraceIsolation.Tracer.TraceContext` | asyncio_gateway/utils/request_tracer.py:243-261 | a request captures the mapping in scope as it starts |
| `TraceIsolation.Tracer.Call` | asyncio_gateway/utils/request_tracer.py:305-541 | a callback writes through the captured mapping only |
| `TraceIsolation.StepRecords` | asyncio_gateway/utils/request_tracer.py:305-541 | a step changes a mapping only by a callback of a request that captured it |
| `TraceIsolation.RunReplays` | asyncio_gateway/utils/request_tracer.py:305-541 | over any run a mapping holds what its own callbacks recorded, one after another |
| `TraceIsolation.Isolated` | asyncio_gateway/utils/request_tracer.py:175-214 | whatever ran before and however other calls go on, a call has the mapping its own callbacks alone would have recorded in an empty one |
| `TraceIsolation.BoundExactly` | asyncio_gateway/utils/request_tracer.py:99-114 | a task works through the mapping of a call exactly when it began the call, or was spawned from one that worked for it, and began none of its own since |
| `TraceIsolation.CapturedExactly` | asyncio_gateway/utils/request_tracer.py:243-261 | a request captured the mapping of a call exactly when it was started, after the call began, by a task working for the call then |
| `TraceIsolation.ReachesExactly` | asyncio_gateway/utils/request_tracer.py:243-303 | so the callbacks recorded for a call are exactly those of its own requests, in sibling tasks and successive calls alike |
| `TraceIsolation.LateCallbacks` | asyncio_gateway/utils/request_tracer.py:183-189 | a callback of a request that existed before a call never reaches its mapping, whatever happens later |
| `TraceIsolation.MeasuresFromStart` | asyncio_gateway/utils/request_tracer.py:282-303 | for every kind of callback a mapping holds the time from the last request start before its last one |
| `TraceIsolation.MeasuresNothingEarly` | asyncio_gateway/utils/request_tracer.py:282-303 | a callback of a mapping in which no request has started measured nothing |
| `TraceIsolation.RedirectExactly` | asyncio_gateway/utils/request_tracer.py:305-541 | after the last request start the redirect flag tells whether a redirect was seen since |
| `TraceIsolation.LastMessageStays` | asyncio_gateway/utils/request_tracer.py:305-541 | the exception message kept is that of the last exception |
| `TraceIsolation.NoNegativeInterval` | asyncio_gateway/utils/request_tracer.py:282-303 | under a monotone clock no recorded interval is negative |
| `ChannelLifecycle.Drain` | asyncio_gateway/logic/grpc_client.py:517-537 | the clean-up runs once and is awaited to its end; the first cancellation is kept |
| `ChannelLifecycle.RunChannel` | asyncio_gateway/logic/grpc_client.py:939-974 | one close, and the failure that escapes is the foremost of first cancellation, close error and body error |
| `ChannelLifecycle.RunClient` | asyncio_gateway/logic/s3_client.py:862-941 | one exit in the same order, with a suppressed body failure replaced by a fixed error |
| `ChannelLifecycle.SuccessExactly` | asyncio_gateway/logic/s3_client.py:919-941 | success is a successful body, a quiet clean-up and no cancellation; suppression never makes one |
| `ChannelLifecycle.BodyCancellationWins` | asyncio_gateway/logic/grpc_client.py:954-965 | a cancelled body raises its own cancellation whatever follows |
| `S3Body.CloseBody` | asyncio_gateway/utils/http_file_config.py:347-382 | one call of a callable close; cancellation passes, every other failure is a transport error |
| `S3Body.ClosedExactly` | asyncio_gateway/utils/http_file_config.py:347-382 | closing goes well exactly when the body can be closed and its `close` returned plainly, or returned something whose awaited result came back without the caller being cancelled |
| `S3Body.Closer.Close` | asyncio_gateway/utils/http_file_config.py:385-402 | the second close is a no-op |
| `S3Body.OnlyChunksExactly` | asyncio_gateway/utils/http_file_config.py:505-555 | the generator yields nothing but chunks exactly when the body was read to its end and its close did not fail |
| `S3Body.YieldedFailure` | asyncio_gateway/utils/http_file_config.py:505-555 | the generator hands on the failure of the reading, and that of the close only when there is none |
| `S3Body.ReadingComesFirst` | asyncio_gateway/utils/http_file_config.py:505-555 | where reading the body fails, closing it has no say in what its failure is |
| `S3Body.StreamBody` | asyncio_gateway/utils/http_file_config.py:602-615 | in every environment the error is the body failure, a call that failed, the first cancellation delivered, or a refusal from before the body was touched, and a return means there was no body failure and no cancellation before the commit |
| `S3Body.StreamS3Download` | asyncio_gateway/utils/http_file_config.py:558-632 | a closable body is closed exactly once on every path; the stream failure escapes whatever closing does, in every environment; and success means read whole, closed without a fault and committed |

## Left out

- The kernel model (module LocalFiles) stands for `os.open`, `write`, `read`, `fsync`, `close`, `unlink` and `rename`: every fault, short write, temporary name and cancellation is a function of the number of the call or await, so the theorems range over all of them. No other process writes to the destination directory during a stream.
- The fallback for platforms without `O_NOFOLLOW`, and failures of `os.close` inside the descriptor walk: both are assumed away. The adversary of the walk swaps entries at will but never moves real directories.
- Containment: a symbolic-link loop is an error of the resolution (as `Path.resolve` raised it up to Python 3.12); a leading `//` is read as `/`; the resolution cache is not modelled; error messages are not modelled.
- ShieldedAwait.AwaitOrCancelled: the opening worker being cancelled itself, rather than its caller, is not modelled. Nor is it for any other shielded thread call of the streams (LocalFiles.Kernel.Deliver), as when the event loop is torn down: that would abandon a file still being created.
- ChannelLifecycle.Drain: the dedicated clean-up task being cancelled from outside before its first step is not modelled; the source would then await a cancelled task again and again.
- StreamCommit.StreamExclusive: weaker than "raises only when the target is absent", because the source may raise a deferred cancellation after the file is complete.
- StreamCommit.CreateRestricted: weaker than "a failed creation leaves nothing", because the handler of a failed `fchmod` skips the unlink when its own close fails; the exact condition is in the contract.
- SecretMasking.Mask: weaker than "no secret survives", because a secret that can overlap the mask can reappear; HidesExactly gives the condition for one secret, PeerHidesExactly and S3HidesExactly for the two masks in use. `redact_text`, which runs first, is an arbitrary function whose result is the text masked.
- XmlProlog.ScanReadsProlog: the grammar is the one the code reads (any `str.isspace` character and a byte order mark count as white space, processing instructions and comments in any order and number), which is looser than sections 2.5, 2.6 and 2.8 of XML 1.0.
- GcsLease.Run: the `started` hand-shake, logging and the sub-millisecond timeout arm are folded into how the wait for acceptance ends. A provider `TimeoutError` and a provider `CancelledError` are caught by the method's own handlers, as in the source.
- GcsUpload.UploadAttempt: the translation of credential, transport and service failures into gateway errors is not modelled; an error keeps its identity.
- GcsDownload.DownloadChunks: what the iteration yields is worked out before the first chunk is written; the requests of a download count only as far as the stream asked.
- GcsDownload.HandleDownload: the breaker is some number of attempts ending with the first success; which errors it retries is not modelled. The metadata may under-report the size, and then the target is that prefix of the object.
- GcsDownload.Transfer: a provider that serves wrong bytes of the right length is not modelled; the source does not compare checksums.
- TransferOutcome.NoPartialFile: while the client neither renames nor unlinks files of the transfer, and with overwriting opens no name a handle at work still has; OverwritingExactly shows that exactly such an open breaks it. It is weaker than "a failed write leaves no file", because a cancellation can stop the clean-up; CleanUpExactly gives the condition. A handle's identity is not reused while the handle is open.
- TransferBudget.FilesKept: the source writes through a buffer, so a block whose write succeeded may still be there; what is said of a handle at work holds of the file and its buffer together, and of the file alone after a close without a fault.
- TransferOutcome.AskedIsTaken: a client that closes a handle while a block of it is still being written gets no promise about that block.
- TransferBudget.ContainedPathIO.Written: bytes that a thread lands after its write was cancelled are counted as part of the block already charged.
- The SFTP file wrapper (`ClassifyingLocalFile`): the same steps with the path kept on the handle instead of in a table, so that each further failing write unlinks the path again.
- ExceptionScrub.Scrub: only direct string arguments are scrubbed, as in the source; strings nested in other arguments are untouched.
- TraceIsolation.Isolated: writes made through the collector handle itself, and the redirect recorder, are not modelled.
- S3Body.StreamS3Download: attribute access that itself raises counts as a missing operation.
- The HTTP byte counters `iter_capped` and `guard_declared_length`: the cap they keep is the one CopyBody proves.
- The signed-URL, head and list commands of the GCS client: their attempts have the life cycle of an upload attempt.
- Option validators, verb allowlists, status tables, redirects, the circuit breaker, JSON-RPC and GraphQL, FTP and SFTP session set-up, exception classes, logging and message wording: lookups and short case analyses.
