# Husklet extension logic in Dafny

This project models the algorithms and protocols behind Husklet's workspace extension (image pulls,
process sampling, tables, command quoting, permission review, environment saves), its storybook
components, and two of its Rust build scripts, and proves what they promise. `dafny verify
dfyconfig.toml` checks everything.

## How it is organised

One module stands for one piece of the program; `Wrappers`, `JsText`, `Utf8`, `Hex`, `Framing` and
`Sorting` hold what several of them share.

| module | what it models |
|---|---|
| `ImagePull` | watching an image pull: subscription, revision-guarded reads, cancellation |
| `SamplingPool` | the bounded pool that samples every container's processes, and its publication |
| `LatestWins` | the resource hook in which only the newest request may write |
| `ShellWords` | quoting an argv as a shell line, and the tokeniser that reads it |
| `Framing`, `ProtocolFingerprint` | length-prefixed streams, FNV-1a, the protocol document check |
| `BuildIdentity`, `Sorting` | the file discovery and stream behind the build identity |
| `RowWindows`, `ProcessTable`, `LargeTable` | versioned tables served in windows |
| `GrantReview` | the permission switches of an extension review |
| `DependencyGraph`, `SemanticTree`, `PlanFilter`, `DragReorder`, `EnvironmentPatch`, `HexDump` | structural algorithms |

**State and form.** What the program updates in place is a class whose methods are tied to
functions on values; the properties are lemmas about those functions and about runs of them. Loops of
the source are loops here. JavaScript between two awaits is one step, and a run is any sequence of
steps that are possible, with replies and events delivered in any order.

**Texts.** JavaScript strings are sequences of UTF-16 units where units, trimming or byte lengths
matter, and plain strings where only equality does. Rust bytes are a newtype of 0 to 255; 64-bit
arithmetic is written out modulo 2^64.

**The host of the image pull.** A job's revisions only grow and its ended states are final; every
change after the acknowledgement of the live watch is announced to it; changes may be merged into newer
ones, repeated, or announced early. Reads and subscriptions may be refused. `Start` needs what the page's button needs
(extensions/top/src/images.tsx:273-278): no pull that is still running; its watch has then been cleaned up,
and the host never reuses a job. The state the page sets itself, by cancelling or by a failed watch, is not
the host's: `ImagePull.ShownExplained` says what it may be, and that it is never a completion.

**Findings.** These are not what one would first write down, and are proved as they are:

- A refused status read after a change event is dropped, and the page stays on the old status until
  the host answers a later read (`ImagePull.RefusedReadHidesChange`); `ImagePull.QuietShowsHost` says
  exactly when that is so.
- A resource hook that is rendered with a new loader or a new `initial`, with `initial` defined, while a
  request is unanswered shows loading with nothing to wait for, until the next reload, replacement or
  render without `initial` (`LatestWins.SwapStrandsLoading`, `LatestWins.SeedStrandsLoading`);
  `LatestWins.LoadingShownExactly` says that nothing else does.
- The environment patch is right exactly for lists without a shadowed change; validation is what
  makes it right (`EnvironmentPatch.PatchReachesTarget`, `EnvironmentPatch.UniqueIsSettled`).
- "Clear product access" can leave granted details without their capability
  (`GrantReview.ClearLosesCoupling`; `GrantReview.ClearKeepsCoupled` gives the exact condition).
- The build identity is meant to be relative to the workspace, and is for files below it
  (`BuildIdentity.MovedCheckoutSameStream`); the crate's own files are listed by their whole path, so the
  runtime identity depends on where the crate lies (`BuildIdentity.CrateFilesShowPlace`).
- A recorded one-word command `Unavailable` reads like a missing one (`ShellWords.CommandShown`).
- The comment on `shellArgument` (extensions/top/src/executions.tsx:512) speaks of any POSIX shell. What is
  proved is the round trip through the program's own tokeniser, and that no character with a meaning to a
  shell stands outside quotes (`ShellWords.MetaIsQuoted`); see "Left out".

## Model

The main results come first, then what supports them module by module, then the steps of the image
pull's invariant, two readings of definitions, and the handlers of the review page.

| member | source | states |
|---|---|---|
| `ImagePull.QuietShowsHost` | extensions/top/src/images.tsx:107-155 | Main result: in every interleaving of starts, subscriptions, acknowledgements, host changes, events, reads, refusals, cancellations and failures, once the acknowledged watch has nothing in flight the page has accepted the host's current status if and only if the host answered a read of the watch since its last change, or the page already had it when the watch began, or the host refused none; it then shows that status unless the page itself put a cancellation or failure over it, and a completed pull has been announced exactly once; otherwise it has accepted only an older status, or none |
| `ImagePull.QuietReached` | extensions/top/src/images.tsx:127-144 | Main result: from every state of the invariant with an acknowledged live watch every run of deliveries and answers has at most as many steps as are pending, ends in a quiet state if nothing more can be delivered or answered, and has then made the page accept the host's status if no read was refused |
| `ImagePull.CompleteIsTrue` | extensions/top/src/images.tsx:107-164 | Main result: over every run, whatever the page itself wrote by cancelling or failing, a pull shown as complete is exactly the host's status of its job, and its completion was announced once |
| `ShellWords.RoundTrip` | extensions/top/src/executions.tsx:508-516 | Main result: for every list of words, reading the printed command gives back exactly the list if and only if it is within the limits; a non-empty list outside them is refused as out of limits |
| `ShellWords.AcceptsExactlyLines` | extensions/top/src/terminals.tsx:894-943 | Main result: the tokeniser accepts a text as a given list of words if and only if the trimmed text is a line of an independent quote/escape grammar with those word values and the list is within the limits |
| `Framing.UnframeFrame` | src/workspaces/hl-extension/build_support.rs:22-23 | Main result: the length-prefixed stream of any list of parts decodes back to the list |
| `ProtocolFingerprint.EditedDocumentRejected` | src/workspaces/hl-extension/build_support.rs:80-91 | Main result: an accepted document is rejected for the same recorded value after any one byte is replaced, and by which check |
| `ProtocolFingerprint.FreshExactly` | src/workspaces/hl-extension/build_support.rs:80-91 | Main result: a document is accepted if and only if it is UTF-8, spells the marker with the sixteen digits of its sources somewhere, between any two byte strings, and is recorded under its own fingerprint |
| `BuildIdentity.IdentityOrderIndependent` | src/apps/husklet/build.rs:8-36 | Main result: roots in any order, with every directory below them listed in any order, give the same list of files and the same digested stream |
| `BuildIdentity.IdentityStreamDetermines` | src/apps/husklet/build.rs:82-99 | Main result: equal streams come from equal lists of relative path and contents |
| `BuildIdentity.MovedCheckoutSameStream` | src/apps/husklet/build.rs:80-99 | Main result: moving a checkout with everything in it leaves the digested stream the same, for roots below the workspace and a path order that compares component by component |
| `SamplingPool.EveryScheduleEnds` | extensions/top/src/processes.tsx:66-91 | Main result: every schedule consists of at most one reply per container; it is finished exactly when there was one for each, then every slot holds its own container's group in container order; until then some reply is awaited |
| `LatestWins.LoadingShownExactly` | extensions/top/src/app.tsx:396-421 | Main result: from mounting on, over every run and in every order of replies, loading is shown exactly while the newest request is unanswered if and only if that request is not stranded by a render with other dependencies and a defined `initial`; a stranded one shows loading with nothing to wait for |
| `LatestWins.LatestWriteWins` | extensions/top/src/app.tsx:396-415 | Main result: accepted writes have strictly increasing revisions and the data shown is the last of them |
| `LatestWins.LastReportShown` | extensions/top/src/app.tsx:392-415 | Main result: over every run, with what is accepted told from the events alone, the error shown is the cause of the last accepted report if that is a failure and none otherwise, and the data is the last value written, or the initial one |
| `RowWindows.AnswersAreSlices` | extensions/top/src/model.ts:280-298 | Main result: over every run of replacements and requests, an answer is the promised slice of the rows installed at exactly its version, never longer than the limit; a request is refused only when malformed or for another source or version |
| `RowWindows.FetchGetsAll` | extensions/top/src/model.ts:284-289 | Main result: a client that goes on from the end of what it received terminates with all rows, whatever window it asks for |
| `ProcessTable.RowsServed` | extensions/top/src/model.ts:231-270 | Main result: the rows served are the only list with one row per matching record, keyed by its position from one, with one cell per schema column holding the record's text, or an em dash exactly where that is empty, ordered by the chosen column in the chosen direction, ties by position |
| `LargeTable.NameIsLastEdit` | extensions/storybook/src/large-table.tsx:189 | Main result: over every run a ready row shows the last edit accepted for its key, across sorts and filters, and the generated name if there was none |
| `LargeTable.TableTold` | extensions/storybook/src/large-table.tsx:107-201 | Main result: after every run the table is empty, one unavailable row, or the logical rows, at most a thousand of them under a filter, in the direction asked for, each row with the columns of its key and the last edit or generated name, all told from the events alone |
| `GrantReview.ReviewStaysCoupled` | extensions/top/src/extensions.tsx:2088-2517 | Main result: from the reset at candidate arrival on, every run of switches and "Select required access" keeps every granted detail backed by the capability it requires, as long as "Clear product access" is only used while no granted detail requires a capability |
| `GrantReview.ReviewCoupledExactly` | extensions/top/src/extensions.tsx:2088-2517 | Main result: from the reset at candidate arrival on, the coupling holds at every moment of a run if and only if every "Clear product access" of the run happens while no granted detail requires a capability |
| `GrantReview.ReviewStaysWithin` | extensions/top/src/extensions.tsx:881-891 | Main result: from the reset on, which grants nothing, no run of offered switches grants a detail that was not requested, or a capability that is not requested, required or coupled to a requested detail |
| `GrantReview.ReviewFollowsSwitches` | extensions/top/src/extensions.tsx:2088-2517 | Main result: from the candidate arrival on, after every run a detail and a capability are granted exactly if the switches say so: the last one that concerns it decides, and a detail switch leaves its capability granted exactly while some detail held by the run requires it |
| `DependencyGraph.BoundedIsNormal` | extensions/storybook/src/dependency-graph.tsx:46-109 | Main result: for every input the ids are unique and non-blank, edges join retained nodes, cycles are closed walks over retained edges, totals are at least the retained counts, and all limits hold |
| `DependencyGraph.FixedPoints` | extensions/storybook/src/dependency-graph.tsx:46-109 | Main result: normalisation leaves a graph alone if and only if it is in that normal form |
| `DependencyGraph.BoundedRetains` | extensions/storybook/src/dependency-graph.tsx:46-109 | Main result: for every input the retained nodes, edges and cycles are read from the first 32, 128 and 8 usable positions of their lists, in order, and a total is the announced safe integer if that is at least the retained count and that count otherwise |
| `HexDump.ReadFormatted` | extensions/storybook/src/binary-inspection.tsx:8-23 | Main result: a fixed-column decoder recovers the shown bytes (all, or the first 4096) from every dump, whatever the announced total |
| `HexDump.DumpShows` | extensions/storybook/src/binary-inspection.tsx:8-23 | Main result: the dump has one line for every sixteen of the first 4096 bytes, line k with the offset 16k, its octets in their columns, each printable byte as itself and any other as a full stop, spaces and bars elsewhere, and exactly when more were announced a last line with both numbers |
| `EnvironmentPatch.PatchReachesTarget` | extensions/top/src/workspace.tsx:516-523 | Main result: applying the two lists in either order gives the same environment, and it is the wanted one if and only if no changed value is shadowed by a later restoring one |
| `DragReorder.DragEqualsKeyboard` | extensions/storybook/src/drag-reorder.tsx:47-53 | Main result: a drag equals as many adjacent keyboard moves, up or down, as the places are apart |
| `PlanFilter.KeepsReachingTrails` | extensions/storybook/src/query-plan.tsx:131-139 | Main result: the filter keeps exactly the nodes with a selected node in their subtree, in the original order with full root paths, and nothing exactly when nothing is selected |
| `ImagePull.SomeRunIsQuiet` | extensions/top/src/images.tsx:127-144 | Some such run reaches a quiet state |
| `ImagePull.RefusedReadHidesChange` | extensions/top/src/images.tsx:131 | A change can be lost: from every quiet state of the invariant, one host change whose read is refused leaves the page quiet with the old status |
| `ImagePull.EndsAreTrue` | extensions/top/src/images.tsx:119-125 | Over every run, also after the watch is gone: a shown end the page did not put there is the host's own status, no job is announced twice, and only jobs the host completed are announced |
| `ImagePull.ShownExplained` | extensions/top/src/images.tsx:90-164 | Over every run the shown pull is a status the host had, or the placeholder of its start, with nothing changed but, where the page wrote over it, a cancellation with its text or a failure with its cause |
| `ImagePull.StepKeepsPageWrites` | extensions/top/src/images.tsx:86-164 | Every step keeps that: job and reference are the accepted ones, an untouched pull without a status is the placeholder, an overridden one is cancelled or failed |
| `ImagePull.CancelShows` | extensions/top/src/images.tsx:157-164 | After a cancellation the pull shown by then is cancelled, its job, reference, revision and error unchanged and all else left alone; without a pull nothing happens |
| `ImagePull.RefusalShows` | extensions/top/src/images.tsx:134-150 | A refused subscription, or a refused read after the acknowledgement, fails the pull shown by the live watch with that cause, job, reference and revision unchanged; of a disposed watch it changes nothing |
| `ImagePull.RefusedListenerReadHides` | extensions/top/src/images.tsx:127-132 | A refused read of the listener changes nothing on the page |
| `ImagePull.CancelledStays` | extensions/top/src/images.tsx:107-164 | A cancelled pull stays shown as cancelled until a reply arrives, a read or subscription is refused or another pull starts |
| `ImagePull.ShownRevisionNeverFalls` | extensions/top/src/images.tsx:112-119 | Between any two moments of any run that show the same job, the shown revision does not fall |
| `ImagePull.StepKeepsInv` | extensions/top/src/images.tsx:86-164 | Every step keeps the invariant: what is shown was the host's at some time, announcements match completions, the host's current status is accepted or carried by an event, an unanswered read or an answered one unless a read was refused, and it is accepted or answered exactly if the host answered since its last change |
| `ImagePull.PullPage.constructor` | extensions/top/src/images.tsx:63-65 | A fresh page shows no pull, revision zero and nothing announced |
| `ImagePull.PullPage.FinishStart` | extensions/top/src/images.tsx:90-103 | The reply of the start call resets both refs and shows the placeholder at revision zero |
| `ImagePull.PullPage.Accept` | extensions/top/src/images.tsx:111-126 | A status replaces the shown one exactly when the watch is live, the job is the watched one and its revision is at least the minimum and the shown revision; a completion not yet recorded is recorded and announced |
| `ImagePull.PullPage.OnChange` | extensions/top/src/images.tsx:128-132 | The listener reads exactly for a newer change of the watched job while its watch is live, and asks for at least that revision |
| `ImagePull.PullPage.FinishCancel` | extensions/top/src/images.tsx:157-164 | The reply of the cancel call marks the shown pull, whichever it is by then, as cancelled and keeps its job, reference, revision and error |
| `ImagePull.PullPage.WatchFailed` | extensions/top/src/images.tsx:145-150 | A failure of a live watch marks the shown pull as failed with the cause and keeps the rest; one of a disposed watch does nothing |
| `ShellWords.RefusalsMean` | extensions/top/src/terminals.tsx:927-941 | The two refusals: an unfinished quote or escape exactly for texts that are no line of the grammar, out of limits exactly for lines whose words are |
| `ShellWords.LimitsMean` | extensions/top/src/terminals.tsx:928-936 | The limits on the UTF-8 encodings: one to 64 words without NUL, a non-empty program, at most 4096 bytes a word and 32768 in all |
| `ShellWords.MetaIsQuoted` | extensions/top/src/executions.tsx:508-516 | In every printed command each character that means something to a shell stands inside quotes |
| `ShellWords.UnquotedIsPlain` | extensions/top/src/executions.tsx:513-514 | A word printed without quotes is not empty and holds no such character, no quote and no white space |
| `ShellWords.CommandShown` | extensions/top/src/executions.tsx:508-510 | A recorded command is printed; Unavailable is shown exactly for a missing or empty one, and for the one-word command of that name |
| `Utf8.LengthOfEncoding` | extensions/top/src/terminals.tsx:928-936 | The computed byte length of a text is that of its encoding, a lone surrogate read as U+FFFD |
| `ShellWords.CommandArgv` | extensions/top/src/terminals.tsx:894-943 | The loop over code points computes the specified scan of UTF-16 units, including both kinds of error |
| `ShellWords.CodePointFeeds` | extensions/top/src/terminals.tsx:900-925 | Looping over code points and over UTF-16 units does the same |
| `ShellWords.SpaceConcatenates` | extensions/top/src/terminals.tsx:915-920 | Composition: if a text ends outside quotes and escapes, an unquoted space concatenates the two word lists |
| `ShellWords.ScanAppend` | extensions/top/src/terminals.tsx:900-925 | Scanning a concatenation is scanning its parts one after the other |
| `ShellWords.ScanPrefix` | extensions/top/src/terminals.tsx:895-925 | Words already read do not influence what follows |
| `ShellWords.ScanArgument` | extensions/top/src/executions.tsx:513-516 | Every printed word, empty ones, quotes, backslashes and newlines included, scans as one complete word with its own value |
| `ShellWords.ScanQuoted` | extensions/top/src/executions.tsx:515 | The text inside the single quotes, with its replaced quotes, adds exactly the original text |
| `ShellWords.ScanJoined` | extensions/top/src/executions.tsx:509 | The joined command scans completely and its words are the printed list |
| `ShellWords.JoinedEnds` | extensions/top/src/executions.tsx:509 | A printed command neither starts nor ends with white space, so trimming leaves it alone |
| `ShellWords.PrintedDistinct` | extensions/top/src/executions.tsx:512-516 | Different word lists are printed differently |
| `ShellWords.ScanLine` | extensions/top/src/terminals.tsx:900-927 | Soundness of the grammar: a line scans completely as the values of its words |
| `ShellWords.EveryTextExplained` | extensions/top/src/terminals.tsx:900-925 | Completeness of the grammar: after any text the scanner's variables are the meaning of a valid partial derivation of that text |
| `Framing.FrameInjective` | src/workspaces/hl-extension/build_support.rs:22-23 | Different lists of parts give different streams |
| `Framing.UnsignedOfLittleEndian` | src/workspaces/hl-extension/build_support.rs:23 | The eight length bytes read back as the length |
| `Framing.FrameAppend` | src/workspaces/hl-extension/build_support.rs:22-23 | Framing concatenates |
| `ProtocolFingerprint.Fingerprint` | src/workspaces/hl-extension/build_support.rs:20-29 | The nested loops compute FNV-1a (section 2 of draft-eastlake-fnv) over the framed stream |
| `ProtocolFingerprint.FnvBijective` | src/workspaces/hl-extension/build_support.rs:24-25 | For every byte string the hash is a bijection on 64-bit states, with an explicit inverse |
| `ProtocolFingerprint.ReleaseAbsorb` | src/workspaces/hl-extension/build_support.rs:24-25 | One step, exclusive-or then multiplication by the prime modulo 2^64, is undone |
| `ProtocolFingerprint.AbsorbRelease` | src/workspaces/hl-extension/build_support.rs:24-25 | The inverse step is undone in turn, so a step also reaches every state |
| `ProtocolFingerprint.InversePrime` | src/workspaces/hl-extension/build_support.rs:25 | The prime has an inverse modulo 2^64 |
| `ProtocolFingerprint.XorCancels` | src/workspaces/hl-extension/build_support.rs:24 | The exclusive-or, built bit by bit, cancels on either side |
| `ProtocolFingerprint.AbsorbDistinguishesBytes` | src/workspaces/hl-extension/build_support.rs:24-25 | Different bytes lead from one state to different states |
| `ProtocolFingerprint.FnvDetectsSubstitution` | src/workspaces/hl-extension/build_support.rs:20-29 | Replacing one byte anywhere changes the hash, whatever the length |
| `ProtocolFingerprint.FingerprintDetectsSubstitution` | src/workspaces/hl-extension/build_support.rs:20-29 | Replacing one byte of one part changes the fingerprint |
| `ProtocolFingerprint.VerifyContents` | src/workspaces/hl-extension/build_support.rs:80-91 | The three checks in order; not UTF-8 means no sequence of scalar values encodes to the document, and accepted means UTF-8, named and recorded under its own fingerprint |
| `ProtocolFingerprint.GeneratedIsFresh` | src/workspaces/hl-extension/build_support.rs:80-91 | For all byte strings before and after the spelled marker, the document is accepted under its own fingerprint if it is UTF-8 |
| `ProtocolFingerprint.ContainsNames` | src/workspaces/hl-extension/build_support.rs:82-83 | The substring test is met exactly by a document that is some text, the marker and some text |
| `ProtocolFingerprint.AbsorbMeans` | src/workspaces/hl-extension/build_support.rs:24-25 | One step is the 64-bit number with exactly the bits in which state and byte differ, times 0x100000001b3 modulo 2^64 |
| `ProtocolFingerprint.XorBits` | src/workspaces/hl-extension/build_support.rs:24 | A bit of the exclusive-or is set exactly when the two bits differ |
| `Utf8.ValidExactly` | src/workspaces/hl-extension/build_support.rs:81 | The check accepts exactly the encodings of Unicode scalar values (section 3 of RFC 3629) |
| `ProtocolFingerprint.Hex16Injective` | src/workspaces/hl-extension/build_support.rs:82-86 | Sixteen-digit texts distinguish all fingerprints |
| `ProtocolFingerprint.SourceStreamInjective` | src/workspaces/hl-extension/build_support.rs:31-45 | Different lists of path and contents give different streams to the source fingerprint |
| `ProtocolFingerprint.SourcePartsAt` | src/workspaces/hl-extension/build_support.rs:40-44 | Each source is hashed as its path and then its contents |
| `Hex.FromPadded` | src/workspaces/hl-extension/build_support.rs:82-86 | A zero-padded hexadecimal text reads back as its number |
| `Hex.PaddedWidth` | src/workspaces/hl-extension/build_support.rs:82-86 | A number that fits the width is printed in exactly the width |
| `BuildIdentity.RuntimeIdentityInputs.constructor` | src/apps/husklet/build.rs:9 | Starts with no files |
| `BuildIdentity.RuntimeIdentityInputs.Add` | src/apps/husklet/build.rs:17-36 | The recursive walk adds exactly the files below a path that no skipped entry hides, each once |
| `BuildIdentity.Discover` | src/apps/husklet/build.rs:8-15 | The list is sorted and is exactly the files of all roots, with multiplicity |
| `BuildIdentity.Identity` | src/apps/husklet/build.rs:80-104 | The text is the digest over the framed pairs of relative path and contents of the one list of inputs there is |
| `BuildIdentity.FilesBelowAreVisible` | src/apps/husklet/build.rs:17-36 | A file is listed once if walking down its names meets no skipped entry and ends at a file, otherwise not at all |
| `BuildIdentity.RelistedShows` | src/apps/husklet/build.rs:22-35 | A file visible in a tree is visible when every directory is listed in another order |
| `BuildIdentity.RelistedHides` | src/apps/husklet/build.rs:22-35 | A file visible after relisting was visible before |
| `BuildIdentity.SameFilesSameInputs` | src/apps/husklet/build.rs:8-15 | Roots that show the same files, in any order, give the same list |
| `BuildIdentity.SortedListing` | src/apps/husklet/build.rs:26 | Sorting a directory listing neither drops nor adds a file |
| `BuildIdentity.PermutedRootsSameFiles` | src/apps/husklet/build.rs:10-12 | Permuted roots have the same files |
| `BuildIdentity.PartsAt` | src/apps/husklet/build.rs:87-98 | Each file enters the stream as its relative path and then its contents |
| `BuildIdentity.CrateFilesShowPlace` | src/apps/husklet/build.rs:54-63 | It does not for the crate itself: the workspace is spelled as three levels above the crate, so the crate's own files are not below it, and from two places of the crate the streams differ |
| `BuildIdentity.RelativeMeans` | src/apps/husklet/build.rs:84 | A file below the workspace is named by the rest of its path, and any other by its whole path |
| `BuildIdentity.HexTextInjective` | src/apps/husklet/build.rs:100-103 | Different digests have different texts |
| `BuildIdentity.VisibleMeans` | src/apps/husklet/build.rs:27-34 | Visible are exactly the files that names lead to of which none is target or .git |
| `Sorting.SortSorts` | src/apps/husklet/build.rs:13 | Sorting by a total order sorts |
| `Sorting.SortPermutes` | src/apps/husklet/build.rs:13 | Sorting permutes |
| `Sorting.SortedUnique` | src/apps/husklet/build.rs:13 | There is only one sorted list of given elements |
| `SamplingPool.RunFillsSlots` | extensions/top/src/processes.tsx:73-88 | Every schedule sends each reply to a slot of its own that was empty, leaves filled slots alone, and each filled slot holds the group of its container and reply |
| `SamplingPool.InFlightBounded` | extensions/top/src/processes.tsx:89-91 | At most eight samples, and at most as many as containers, are in flight in every interleaving, all for different containers |
| `SamplingPool.StartedCrewed` | extensions/top/src/processes.tsx:71-91 | Starting the workers establishes the invariant: each claimed index is filled or in flight at exactly one worker |
| `SamplingPool.DeliverKeeps` | extensions/top/src/processes.tsx:74-87 | Every reply keeps that invariant |
| `SamplingPool.FinishedIsFull` | extensions/top/src/processes.tsx:74-91 | The pool is finished exactly when no slot is empty |
| `SamplingPool.DeliverFills` | extensions/top/src/processes.tsx:79-86 | Each reply fills one empty slot, the termination measure |
| `SamplingPool.Sampler.constructor` | extensions/top/src/processes.tsx:71-91 | The array and shared cursor start as the specified pool |
| `SamplingPool.Sampler.NextIndex` | extensions/top/src/processes.tsx:74-77 | A worker claims the cursor's index and advances it, or finishes |
| `SamplingPool.Sampler.Resume` | extensions/top/src/processes.tsx:78-87 | A reply, success or failure, is stored in place and its worker goes round its loop |
| `SamplingPool.Sampler.Drain` | extensions/top/src/processes.tsx:71-91 | Under an arbitrary choice of which worker resumes next the pool terminates with every container's group in place |
| `SamplingPool.Loader.constructor` | extensions/top/src/processes.tsx:58-65 | The page starts loading with nothing shown |
| `SamplingPool.Loader.Begin` | extensions/top/src/processes.tsx:67-68 | A load takes a new revision and shows loading; lists and error stay |
| `SamplingPool.Loader.Release` | extensions/top/src/processes.tsx:105-107 | The cleanup retires the running load |
| `SamplingPool.Loader.Publish` | extensions/top/src/processes.tsx:92-101 | The published lists, error and flag, under the revision check |
| `SamplingPool.PublishesEveryContainer` | extensions/top/src/processes.tsx:92-101 | Published snapshots and failures together are every container's group exactly once, successes in one list and failures in the other; a retired load changes nothing |
| `SamplingPool.ListsKeepOrder` | extensions/top/src/processes.tsx:94-95 | Both lists keep the containers' order |
| `SamplingPool.PublishesErrorOnlyWhenAllFailed` | extensions/top/src/processes.tsx:98 | An error is shown exactly when there were containers and all failed, and it is the first one's |
| `SamplingPool.OnlyCurrentLoadPublishes` | extensions/top/src/processes.tsx:92-107 | Over every run of loads, releases and publications, a load publishes its groups exactly if nothing retired it; otherwise its publication changes nothing |
| `SamplingPool.LastResultStays` | extensions/top/src/processes.tsx:58-107 | Over every run from the mounted page, told from its moments alone: loading is shown until a publication of the newest load, every new load shows it again, and meanwhile lists and error stay those of the last result |
| `LatestWins.ResourceHook.constructor` | extensions/top/src/app.tsx:392-395 | Initial data, loading exactly without a seed, revision zero |
| `LatestWins.ResourceHook.Reload` | extensions/top/src/app.tsx:396-398 | A request takes the next revision and shows loading |
| `LatestWins.ResourceHook.Settle` | extensions/top/src/app.tsx:400-408 | Under the current revision a value replaces data and clears the error, a failure shows its cause and keeps the data, and both end loading; any other reply changes nothing |
| `LatestWins.ResourceHook.Replace` | extensions/top/src/app.tsx:410-415 | A replacement shows its value, no error and no loading, and retires every earlier request |
| `LatestWins.ResourceHook.RunEffect` | extensions/top/src/app.tsx:417 | The effect reloads exactly without a seed |
| `LatestWins.ResourceHook.Release` | extensions/top/src/app.tsx:418-420 | The cleanup retires every earlier request |
| `LatestWins.StepKeepsLoadingExact` | extensions/top/src/app.tsx:396-421 | Exactly when a step keeps that: always, except a render with a new loader or `initial` that leaves `initial` defined while the hook is loading |
| `LatestWins.RunKeepsLoading` | extensions/top/src/app.tsx:396-421 | Over every run loading is the newest request unanswered or stranded, never both; reloads, replacements and unseeded renders end the stranding |
| `LatestWins.SwapStrandsLoading` | extensions/top/src/app.tsx:416-421 | The exception happens: a seeded hook whose loader is swapped while a reload is unanswered shows loading with nothing outstanding |
| `LatestWins.SeedStrandsLoading` | extensions/top/src/app.tsx:416-421 | It also happens when `initial` becomes defined while the first request is unanswered |
| `LatestWins.ResourceHook.Rerender` | extensions/top/src/app.tsx:416-421 | A render with other dependencies runs the cleanup and then the effect |
| `LatestWins.ReportsShown` | extensions/top/src/app.tsx:396-415 | The same from every state |
| `LatestWins.WritesIncrease` | extensions/top/src/app.tsx:400-415 | Data never goes back to an older request, from any numbered state |
| `LatestWins.DataIsLastWrite` | extensions/top/src/app.tsx:402-413 | What is shown is the last accepted write |
| `LatestWins.NewestReplyDecides` | extensions/top/src/app.tsx:400-408 | Replies to older requests, before or after it, never disturb the outcome of the newest request |
| `RowWindows.VersionNamesTable` | extensions/top/src/model.ts:265 | The version counts the tables installed so far |
| `RowWindows.RowRequest` | extensions/top/src/model.ts:41-56 | Exactly the messages of requests with safe integers and a non-negative range are accepted, as those requests |
| `RowWindows.WindowCount` | extensions/top/src/model.ts:284-288 | The count fits the limit, the request and the table, and is the largest that does |
| `RowWindows.DetailsSource.constructor` | extensions/top/src/model.ts:308-313 | Version zero, no rows |
| `RowWindows.DetailsSource.Replace` | extensions/top/src/model.ts:315-334 | Rows are the fields that have a text, each with its own name and text, numbered from one, cut at the limit; the version rises by one |
| `RowWindows.DetailRowsShow` | extensions/top/src/model.ts:32-39 | The rows are those of the fields with a text, in order, numbered from one, each with the name and the text of its field |
| `RowWindows.DetailsSource.AnswerWindow` | extensions/top/src/model.ts:336-354 | Answers as the shared window specification |
| `ProcessTable.ReplaceRefines` | extensions/top/src/model.ts:231-270 | The entries behind the rows are the only list with exactly the matching records under their own keys, stably sorted by the chosen comparator |
| `ProcessTable.MatchesMeans` | extensions/top/src/model.ts:238-249 | A record matches an empty query, and any other exactly when the lower-cased container or some lower-cased value is some text, the query and some text |
| `ProcessTable.CellValueMeans` | extensions/top/src/model.ts:197-203 | The container name, or the value of the earliest alias present, or for the command the last value of the record, or nothing |
| `JsText.TrimMeans` | extensions/top/src/model.ts:238 | Trimming takes exactly the white space off both ends |
| `ProcessTable.DirectionsAgreeOnTies` | extensions/top/src/model.ts:253-260 | Turning the direction swaps two records exactly when they differ in the column |
| `ProcessTable.SelectStands` | extensions/top/src/model.ts:239-247 | The selection holds exactly the matching records, keyed by position |
| `ProcessTable.OrderConsistent` | extensions/top/src/model.ts:253-260 | The comparator is a total preorder in both directions if the locale's is |
| `ProcessTable.FirstAliasMeans` | extensions/top/src/model.ts:197-203 | The earliest alias a record has decides its cell |
| `ProcessTable.ProcessTableSource.constructor` | extensions/top/src/model.ts:224-229 | Version zero, no rows, nothing generated |
| `ProcessTable.ProcessTableSource.Replace` | extensions/top/src/model.ts:231-270 | The rows are the specified ones: matching records, keys, cells and order; version and count follow |
| `ProcessTable.ProcessTableSource.AnswerWindow` | extensions/top/src/model.ts:280-298 | Answers as the shared window specification and counts the rows generated |
| `Sorting.StableSortSorts` | extensions/top/src/model.ts:253-260 | The stable sort permutes, sorts, and keeps ties in rank order |
| `Sorting.StablySortedUnique` | extensions/top/src/model.ts:253-260 | There is only one stably sorted list of given elements |
| `LargeTable.LargeRecordSource.constructor` | extensions/storybook/src/large-table.tsx:95-105 | The initial model |
| `LargeTable.LargeRecordSource.Configure` | extensions/storybook/src/large-table.tsx:119-129 | Absent settings stay, the filter is cut at 80 units, the version rises |
| `LargeTable.LargeRecordSource.Sort` | extensions/storybook/src/large-table.tsx:131-141 | Outcome and new state for stale, unsortable and accepted sorts |
| `LargeTable.LargeRecordSource.AnswerWindow` | extensions/storybook/src/large-table.tsx:143-168 | Generating only the requested rows equals slicing the whole virtual table |
| `LargeTable.LargeRecordSource.Edit` | extensions/storybook/src/large-table.tsx:203-219 | Outcome and new state for stale, invalid and accepted edits |
| `LargeTable.KeysBijective` | extensions/storybook/src/large-table.tsx:107-111 | In the ready state the row keys are a bijection onto zero to length minus one |
| `LargeTable.DescendingReverses` | extensions/storybook/src/large-table.tsx:184 | The descending table is the exact reverse of the ascending one |
| `LargeTable.SettingsTold` | extensions/storybook/src/large-table.tsx:119-140 | The version counts the events carried out, and filter, direction and state are those of the last event that decided them; a filter is cut to 80 units |
| `LargeTable.EditsTold` | extensions/storybook/src/large-table.tsx:203-217 | The edit of a key is the trimmed value of the last edit carried out for it |
| `LargeTable.EditsAreLast` | extensions/storybook/src/large-table.tsx:203-219 | The edit map holds exactly the last accepted edit of each key |
| `LargeTable.VersionPinsTable` | extensions/storybook/src/large-table.tsx:143-151 | Within a run equal versions mean equal tables, so windows of one version fit together |
| `LargeTable.KeyTextsDistinct` | extensions/storybook/src/large-table.tsx:189 | Different keys have different edit slots |
| `GrantReview.WithoutClearsHarmless` | extensions/top/src/extensions.tsx:2088-2517 | A run without "Clear product access" meets that condition |
| `GrantReview.SelectMeans` | extensions/top/src/extensions.tsx:2101-2106 | After Select required access a capability is granted if and only if it was before or is required, and every detail is unchanged |
| `GrantReview.RequiredStaysGranted` | extensions/top/src/extensions.tsx:2101-2106 | A required capability is granted from then on at every moment if and only if no reset, no clear, not its own switch and no detail switch that leaves it without need takes it away |
| `GrantReview.DetailStep` | extensions/top/src/extensions.tsx:2088-2517 | What each switch does to each detail |
| `GrantReview.CapabilityStep` | extensions/top/src/extensions.tsx:2088-2517 | What each switch does to each capability |
| `GrantReview.StepKeepsCoupled` | extensions/top/src/extensions.tsx:2102-2513 | From any coupled state, each single switch keeps the coupling, and "Clear product access" exactly when no granted detail requires a capability |
| `GrantReview.ToggleSets` | extensions/top/src/extensions.tsx:2226-2502 | A detail switch sets its own detail and leaves every other detail as it was |
| `GrantReview.ToggleCouples` | extensions/top/src/extensions.tsx:2249-2511 | After a detail switch its capability is granted exactly when some granted detail requires it, and every other capability is as before; image use and container creation share one |
| `GrantReview.CapabilitySwitchMeans` | extensions/top/src/extensions.tsx:2148-2198 | A capability switch sets its capability; switched off it takes along exactly the details that require it |
| `GrantReview.NeededIsNeeds` | extensions/top/src/extensions.tsx:401-406 | The emptiness tests the page computes mean that some granted detail requires the capability |
| `GrantReview.ClearKeepsCoupled` | extensions/top/src/extensions.tsx:2133-2135 | From any state, "Clear product access" leaves a coupled state exactly when no granted detail requires a capability |
| `GrantReview.ClearLosesCoupling` | extensions/top/src/extensions.tsx:2133-2135 | The other case is reached from every reset: switch volume creation on, then clear |
| `GrantReview.RunKeepsListedOnce` | extensions/top/src/extensions.tsx:2226-2428 | No run lists a capability, or a container, image, network or volume selector, twice |
| `GrantReview.AppendedRepeats` | extensions/top/src/extensions.tsx:391-399 | A file selector is listed twice exactly when it is switched on while already on |
| `GrantReview.KeysDistinguish` | extensions/top/src/extensions.tsx:3247-3285 | Comparing selector keys is comparing selectors |
| `GrantReview.HasKey` | extensions/top/src/extensions.tsx:2229-2231 | Looking for a key finds whether the selector is in the list |
| `GrantReview.FilterOut` | extensions/top/src/extensions.tsx:2234-2236 | Filtering by key removes every occurrence of the selector and nothing else |
| `GrantReview.SwitchSelector` | extensions/top/src/extensions.tsx:2226-2237 | A selector switch adds or removes its selector |
| `GrantReview.WithCapability` | extensions/top/src/extensions.tsx:97-105 | Afterwards the list holds the capability exactly as asked, all others as before, and no repetition if there was none |
| `GrantReview.FilesystemConsent` | extensions/top/src/extensions.tsx:390-409 | The toggle of a file selector: next grant, its capability, and whether any selector still needs it |
| `GrantReview.ImageConsent` | extensions/top/src/extensions.tsx:2291-2312 | The toggle of an image selector, with the rule that image use and container creation share a capability |
| `DependencyGraph.BoundedGraph` | extensions/storybook/src/dependency-graph.tsx:46-109 | The whole normalisation |
| `DependencyGraph.RetainNodes` | extensions/storybook/src/dependency-graph.tsx:49-65 | The node loop keeps the first occurrences of usable nodes up to the limit, and its set holds exactly their ids |
| `DependencyGraph.RetainEdges` | extensions/storybook/src/dependency-graph.tsx:67-81 | The edge loop keeps the edges between retained nodes up to the limit |
| `DependencyGraph.NodesAreRetained` | extensions/storybook/src/dependency-graph.tsx:51-66 | Nodes: usable is an object with a non-blank cleaned id that no earlier object has; every text is the value's with controls as spaces, cut at its limit |
| `DependencyGraph.EdgesAreRetained` | extensions/storybook/src/dependency-graph.tsx:68-81 | Edges: usable is an object whose cleaned ends are ids of retained nodes |
| `DependencyGraph.CyclesAreRetained` | extensions/storybook/src/dependency-graph.tsx:83-97 | Cycles: usable is a list of texts that is a closed walk over retained edges |
| `DependencyGraph.UsableCycleMeans` | extensions/storybook/src/dependency-graph.tsx:84-90 | A cycle is usable exactly if it is a list of texts that form a closed walk |
| `DependencyGraph.ClosedWalkMeans` | extensions/storybook/src/dependency-graph.tsx:87-95 | A closed walk: one to six members, each the id of a retained node, with a retained edge from each to the next, counted round |
| `DependencyGraph.CleanReads` | extensions/storybook/src/dependency-graph.tsx:33-36 | A cleaned text is the value's, each control character a space, cut at the limit |
| `DependencyGraph.Idempotent` | extensions/storybook/src/dependency-graph.tsx:46-109 | Normalising twice is normalising once |
| `HexDump.FormatHex` | extensions/storybook/src/binary-inspection.tsx:8-23 | The offset loop produces the specified lines, with the truncation note exactly if the total exceeds what is shown |
| `HexDump.FormattedDistinct` | extensions/storybook/src/binary-inspection.tsx:8-23 | Inputs that show different bytes print differently |
| `HexDump.LineColumns` | extensions/storybook/src/binary-inspection.tsx:13-18 | Offset, both octet groups and the printable text stand in their fixed columns, on short lines too |
| `HexDump.LineSays` | extensions/storybook/src/binary-inspection.tsx:12-19 | Every column of one line: offset, octets, printable text, bars, and spaces everywhere else |
| `HexDump.LineCount` | extensions/storybook/src/binary-inspection.tsx:11 | One line for every sixteen bytes begun |
| `HexDump.ReadLineInverts` | extensions/storybook/src/binary-inspection.tsx:12-18 | One line decodes to its row |
| `HexDump.SplitJoined` | extensions/storybook/src/binary-inspection.tsx:22 | Joined lines split into the same lines |
| `SemanticTree.SemanticTarget` | extensions/top/src/terminals.tsx:999-1014 | The stack loop terminates and returns the first node with the wanted id in right-to-left preorder, and nothing for a malformed id |
| `SemanticTree.SearchIsFirst` | extensions/top/src/terminals.tsx:1006-1013 | The recursive search finds the same node |
| `SemanticTree.SearchComplete` | extensions/top/src/terminals.tsx:1006-1013 | Nothing is found exactly when no node of the tree has the id, and a found node is one of the tree's with that id |
| `SemanticTree.OrderIsTree` | extensions/top/src/terminals.tsx:1006-1012 | The visiting order holds exactly the nodes of the tree |
| `SemanticTree.NodeNumberOfDecimal` | extensions/top/src/terminals.tsx:990-997 | The decimal text of an id is accepted as that id exactly up to the largest safe integer |
| `SemanticTree.NodeNumberExactly` | extensions/top/src/terminals.tsx:990-997 | Exactly the decimal texts of safe integers are read, as those numbers |
| `JsText.NumberOfDecimal` | extensions/top/src/terminals.tsx:993 | Decimal texts read back |
| `JsText.TrimKeeps` | extensions/top/src/terminals.tsx:900 | Trimming leaves a text alone that has no white space at its ends |
| `EnvironmentPatch.MapIsLast` | extensions/top/src/workspace.tsx:517-518 | A map built from pairs gives a name the value of its last pair |
| `EnvironmentPatch.UniqueIsSettled` | extensions/top/src/workspace.tsx:817-825 | Unique names, which validation ensures, exclude that case |
| `EnvironmentPatch.ShadowedChangeIsLost` | extensions/top/src/workspace.tsx:516-523 | Without validation the case occurs |
| `EnvironmentPatch.PatchIsMinimal` | extensions/top/src/workspace.tsx:520-521 | Every entry really changes the previous map and the lists name disjoint names |
| `EnvironmentPatch.EmptyPatchIffEqual` | extensions/top/src/workspace.tsx:121 | For unique names both lists are empty exactly when the maps are equal |
| `EnvironmentPatch.Validate` | extensions/top/src/workspace.tsx:817-825 | Accepts exactly well-formed unique names, and otherwise reports the first offence |
| `EnvironmentPatch.Save` | extensions/top/src/workspace.tsx:109-134 | A save the host carries out leaves the host with exactly the candidate's environment, and patches exactly when it differs |
| `DragReorder.Reorder` | extensions/storybook/src/drag-reorder.tsx:27-39 | The two splices on a copy |
| `DragReorder.RelocateMeans` | extensions/storybook/src/drag-reorder.tsx:35-38 | The result is the only list with the source at the target's old index and the others in their old order |
| `DragReorder.ReorderPermutes` | extensions/storybook/src/drag-reorder.tsx:27-39 | Neither loses nor invents an item, whatever the ids |
| `DragReorder.MoveLands` | extensions/storybook/src/drag-reorder.tsx:47-53 | A move button puts its item exactly that many places further and keeps the order of the others, and no other list is its result |
| `DragReorder.MoveStays` | extensions/storybook/src/drag-reorder.tsx:47-50 | Beyond either end it does nothing |
| `DragReorder.DragUndone` | extensions/storybook/src/drag-reorder.tsx:27-39 | One drag back onto the item now at the old index restores the list |
| `DragReorder.UniqueIdsMeans` | extensions/storybook/src/drag-reorder.tsx:32-33 | Every item is found at its own place exactly when ids are unique |
| `PlanFilter.CountsKept` | extensions/storybook/src/query-plan.tsx:141-143 | The operator count of a filtered plan is the number of those nodes |
| `PlanFilter.KeptLeavesSelected` | extensions/storybook/src/query-plan.tsx:138 | Every leaf kept is selected |
| `PlanFilter.FixedPoints` | extensions/storybook/src/query-plan.tsx:131-139 | A plan is left alone exactly when all its leaves are selected |
| `PlanFilter.FullIsIdentity` | extensions/storybook/src/query-plan.tsx:123-124 | Full mode keeps everything |
| `PlanFilter.ModesKeep` | extensions/storybook/src/query-plan.tsx:122-139 | The hotspot mode keeps a plan exactly if some operator in it is hot, the mismatch mode exactly if some is wrongly estimated, the full mode always and whole |
| `PlanFilter.Idempotent` | extensions/storybook/src/query-plan.tsx:131-139 | Filtering twice is filtering once |
| `ImagePull.QuietMeans` | extensions/top/src/images.tsx:107-155 | Step of the pull invariant: the same equivalence from every state of the invariant |
| `ImagePull.ServedReply` | extensions/top/src/images.tsx:111-126 | Step of the pull invariant: delivering a status: the page has, or is about to get, the host's status exactly if the host answered since its last change, before and after |
| `ImagePull.ServedChange` | extensions/top/src/images.tsx:128-133 | Step of the pull invariant: a host change is new to the page and to every answer on its way |
| `ImagePull.DeliveriesDrain` | extensions/top/src/images.tsx:127-144 | Step of the pull invariant: every delivery, answer, refusal and merge lowers the number of deliveries still to come |
| `ImagePull.CarriedReply` | extensions/top/src/images.tsx:111-126 | Step of the pull invariant: delivering a status, accepted or rejected, never loses the host's current status |
| `ImagePull.CarriedEvent` | extensions/top/src/images.tsx:128-133 | Step of the pull invariant: delivering a change either starts a read that carries it or finds it already accepted |
| `ImagePull.CarriedChange` | extensions/top/src/images.tsx:128-133 | Step of the pull invariant: a host change after the acknowledgement is carried by its own event |
| `ImagePull.CarriedAcknowledge` | extensions/top/src/images.tsx:134-144 | Step of the pull invariant: the read after the acknowledgement carries whatever happened before it |
| `ImagePull.CarriedCoalesce` | extensions/top/src/images.tsx:128-130 | Step of the pull invariant: merging an older undelivered change into a newer one loses nothing |
| `ImagePull.AcceptAnnounces` | extensions/top/src/images.tsx:121-125 | Step of the pull invariant: an accepted completion is announced once per job |
| `ProtocolFingerprint.RegenerationRecovers` | src/workspaces/hl-extension/build_support.rs:86-90 | Reading of one definition: a well-formed document that spells the marker of its source is accepted exactly for its own fingerprint |
| `LargeTable.StepRaisesVersion` | extensions/storybook/src/large-table.tsx:119-141 | Reading of one definition: refused sorts and edits change nothing; every accepted mutation raises the version by one |
| `GrantReview.ReviewPage.constructor` | extensions/top/src/extensions.tsx:629-653 | Page handler: nothing granted |
| `GrantReview.ReviewPage.Arrive` | extensions/top/src/extensions.tsx:881-891 | Page handler: a new candidate resets every grant |
| `GrantReview.ReviewPage.SelectRequired` | extensions/top/src/extensions.tsx:2102-2106 | Page handler: granted afterwards is what was granted or is required, and no detail changes |
| `GrantReview.ReviewPage.ClearProductAccess` | extensions/top/src/extensions.tsx:2133-2135 | Page handler: empties the capabilities and leaves every detail |
| `GrantReview.ReviewPage.ToggleProductAccess` | extensions/top/src/extensions.tsx:2148-2198 | Page handler: a capability switch on the page's state |
| `GrantReview.ReviewPage.ClearDetails` | extensions/top/src/extensions.tsx:2153-2197 | Page handler: what each capability takes along when switched off |
| `GrantReview.ReviewPage.ToggleContainer` | extensions/top/src/extensions.tsx:2225-2238 | Page handler: a container selector switch |
| `GrantReview.ReviewPage.ToggleContainerCreation` | extensions/top/src/extensions.tsx:2247-2260 | Page handler: the container creation switch |
| `GrantReview.ReviewPage.ToggleImage` | extensions/top/src/extensions.tsx:2291-2313 | Page handler: an image selector switch |
| `GrantReview.ReviewPage.TogglePruning` | extensions/top/src/extensions.tsx:2323-2332 | Page handler: the prune switch |
| `GrantReview.ReviewPage.ToggleNetwork` | extensions/top/src/extensions.tsx:2362-2375 | Page handler: a network selector switch |
| `GrantReview.ReviewPage.ToggleNetworkCreation` | extensions/top/src/extensions.tsx:2384-2393 | Page handler: the network creation switch |
| `GrantReview.ReviewPage.ToggleVolume` | extensions/top/src/extensions.tsx:2416-2430 | Page handler: a volume selector switch |
| `GrantReview.ReviewPage.ToggleVolumeCreation` | extensions/top/src/extensions.tsx:2439-2445 | Page handler: the volume creation switch |
| `GrantReview.ReviewPage.ToggleFile` | extensions/top/src/extensions.tsx:2452-2461 | Page handler: a file selector switch on the page's state |
| `GrantReview.ReviewPage.ToggleVariable` | extensions/top/src/extensions.tsx:2490-2512 | Page handler: an environment selector switch |

## Left out

- ImagePull.QuietShowsHost: does not claim that the shown state is the host's after the page's own cancellation or failure mark, because the program does not restore it there.
- ImagePull: two start calls answered one after the other before the button is disabled are not modelled; the layer, byte counts, image and status text of a pull are one opaque field.
- HexDump.FormattedDistinct: says nothing about inputs that agree in their first 4096 bytes; the dump does not show the rest.
- EnvironmentPatch.Save: models a save without host errors; the branch that reloads after a failed patch is left out, and so is the retention of later edits.
- React's scheduler, batching and closures over an older render: an effect, a handler and the part of an async function between two awaits are atomic steps on the current state.
- The socket transports and the host itself, beyond the assumptions each result states.
- The POSIX shell: reserved words and assignments (`if`, `A=b`) are printed unquoted as the source does; only the program's own tokeniser reads them back here.
- Locale services: lower-casing, string comparison and number parsing are parameters; the comparison is assumed to be a total preorder, and an infinite parsed number does not occur.
- SHA-256, file contents and path encoding are parameters of the build identity; unreadable entries, links and names that are not valid text are not modelled, and the order of paths is any total order.
- Reading the protocol files and checking the generated client files against the fingerprint.
- Objects with their own conversion to string as input of the dependency graph; a number that is not a safe integer is given by its text.
- The `generated` counter of the image detail source, the sort report check of the process table beyond its own predicate, `processRows`, `processTableSchema` and `bounded`: small pure helpers.
- The row id of an edit report is a string; the announced total of a hex dump is a natural number.
- A resource loader that throws before it returns a promise is a reply like any other.
- Credential switches of the review, and `cancel` and `publish` with their reconciliation after a lost reply.
- All layout, labels, styling, storybook stories and simple field validators.
