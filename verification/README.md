# Fluxheim release and qualification tooling: models and proofs

This project models the parts of Fluxheim's release and qualification tooling whose correctness depends on many steps
or many parties, and proves what those parts promise, for every input and every run. Dafny 4.11 checks all of it:
`dafny verify dfyconfig.toml`.

| modules | what they model |
|---|---|
| `Disks`, `Baseline`, `VmCopies`, `VmHost`, `VmPlaces`, `VmCheckpoint`, `VmRestore`, `VmSession` | offline VM checkpoints (`scripts/windows_qemu_state.py`): a disk changed step by step by a process that may fail or die at any step |
| `Pacing` | the I/O pacer of the same script, over real-valued time |
| `ArchiveNames`, `ArchiveInventory`, `ArchiveExtract` | bounded inspection and extraction of release archives (`scripts/native_archive.py`) |
| `ReleaseArchives` | the producer of those archives (`scripts/create_release_archives.py`) and its agreement with the consumer |
| `ReleaseDelivery` | both ends together: from the staged directory to the extracted payload |
| `Streams`, `NameValue`, `FastCgi`, `FastCgiServer` | byte streams in pieces, FastCGI name-value pairs, the record demultiplexer and whole connections (`scripts/smoke_php_transport.py`, `scripts/smoke_request_correlation.py`) |
| `HttpFraming` | response framing by Content-Length (`scripts/smoke_podman_blue_green.py`, `scripts/smoke_protocol_examples.py`) |
| `StableFront` | the blue/green TCP front as a transition system over its threads (`scripts/smoke_podman_blue_green.py`) |
| `Toml` | the installer's TOML strings and arrays, against a reader that follows TOML v1.0.0 (`scripts/prepare-server.py`) |
| `CollectorStack` | container ownership on an engine that may fail (`scripts/collector_stack.py`) |
| `ImageTags` | tags of rebuilt images (`scripts/container_refresh.py`) |
| `Http01Probe` | the ACME doctor's HTTP-01 probe with its cleanup (`src/acme_companion_commands.rs`) |
| `Text` | bytes, options and slash-separated names |

How the outside world enters:

- A disk is a map from paths to files, directories, links and special nodes. `VmHost.Host` keeps, as a ghost field,
  every state its disk passes through; "at every step" is a statement about that history. A step may fail, may write
  only part of its data, and the process may die with it. What the environment does to each step is a stream of fates
  given to the host; a step that can fail draws the next one, and only a drawn trouble makes a run fail or die. Outcomes
  tell the tool's own refusals (`Refused`) from such failures (`Fault`), and contracts say when each is possible. One
  process has the VM root to itself.
- SHA-256, JSON, Unicode case folding, UTF-8 decoding and the parsing of a header value as an integer are function-valued
  parameters. No proof assumes that SHA-256 is injective. `Baseline.Lawful` says that digests are 64 hexadecimal digits
  and that JSON reads back what it has written; only the completeness half of `Checkpoint` needs it.
- Clocks, network pieces, engine replies, store failures and second reads of a file are nondeterministic or arbitrary
  parameters. The random part of a temporary or retained name is any that makes the name a new one.

## Results

- **Round trip over sessions** (`VmSession.Session`, `VmSession.RoundTrip`). In any sequence of checkpoint, verify and
  restore runs and arbitrary work in the VM, each run ending in success, refusal, failure or death at any step, a successful
  restore of a name puts back, byte for byte, the state the VM had when that name was checkpointed. Throughout, no
  selectable checkpoint changes or disappears, and every new one verifies from the moment it can be selected.
- **And it always works** (`VmSession.Session`, `VmSession.QuietSession`, `VmSession.SavedLoads`). A session that draws no
  trouble does every checkpoint, verify and restore that the disk allows at that point, however many came before, and
  refuses the others. What was checkpointed can be restored from then on. The first checkpoint makes the baselines
  directory itself (`VmCheckpoint.FirstCheckpoint`).
- **Nothing is ever lost** (`VmRestore.Restore`, `VmSession.RetainedForever`). In every intermediate disk the complete previous VM is
  at the root or under the retained name. Every failing exit leaves the root as it was, unless the compensating rename
  fails too, which takes a second trouble or the death of the process; then the state is whole under the retained name.
  Over whole sessions every state put aside stays aside.
- **Extraction is pinned by the first read** (`ArchiveExtract.ExtractPair`). Whatever the second read of the ZIP returns,
  success means that the extracted tree is exactly the tar inventory with the bundle component stripped, each file with
  the inventoried size and digest; the exact condition for success is proved, and at most 2 GiB is ever written.
- **Release to payload** (`ReleaseDelivery.DeliveredExactly`). What the release step wrote is extracted to exactly the
  staged files, byte for byte, precisely when the tar is admissible and no directory name has 1024 characters.
- **One rate over many files** (`Pacing.ManyFilesOneRate`, `VmSession.Session`). The meter of a process keeps, as ghost
  state, every transfer with its own fresh budget, and all its bounds come from `ManyFilesOneRate`. At every moment of
  every checkpoint or restore, however it ends, the bytes read and written are at most rate times elapsed time plus one
  chunk counted twice, and as much again for each file whose transfer was given up in a directory copy that went on; a run
  without a failure has no such file. A successful checkpoint moves exactly four times the bytes of the state, a successful restore five times.
  A stall never buys a burst (`Pacing.NoStoredCredit`), and the pacer never waits longer than it must: all the sleep a
  command asks for is within its bytes at the full rate (`Pacing.NeverSlowerThanRate`).
- **Whole connections** (`FastCgiServer.ServedExactly`). The FastCGI fixture serves a connection to its end with given
  requests recorded if and only if the bytes are exactly those requests, one after another, all but the last asking to
  keep the connection, however each is cut into records and the records into pieces. Every other end has its exact
  condition over the records too: cut off inside or before a record (`FastCgiServer.CutOffExactly`), in an error
  (`FastCgiServer.FailedExactly`), or stopped before an answer (`FastCgiServer.StoppedExactly`).
- **Responses** (`HttpFraming.ResponseExact`). For every head of lines with a Content-Length, spelled in any case, after
  fields of other names, `read_response` returns the head and exactly that many bytes, from whatever pieces.
- **The front** (`StableFront`). In every interleaving a connection's backend is fixed once read, is that of the latest
  completed switch, and is never older than a switch that had returned before the accept, in whatever order calls return;
  each direction has delivered exactly the first bytes the same connection sent, as many as its relay has passed on. From
  every reachable state a relayed connection can deliver everything (`StableFront.EverythingArrives`), and a listening
  front can switch to any port and relay the next client to it (`StableFront.UpgradeWorks`).

Where the code does less than one might expect, the exact condition is proved together with a concrete case:

- `shutil.copytree` goes on after a file fails, so the pacing allowance is two chunks per file given up in a directory copy
  that went on, and not two chunks per run (`VmHost.Host.CopyTree`, `Pacing.Meter.Stretch`);
  `Pacing.FailedFilesAreNotPaced` gives n failing files that use all of it in no time.
- A directory name of exactly 1024 characters is admissible in the tar and not in the ZIP, which adds a slash. This is the
  only difference (`ReleaseArchives.ConsumerAgrees`); `ReleaseArchives.LongDirectoryName` releases a tree that shows it.
- The release step fails exactly when a special node is staged or two staged names share an inode, since the tar then
  holds a link (`ReleaseArchives.Release`, `ReleaseArchives.HardLinkedPair`).
- `fcgi_params` accepts, besides what `parameters` accepts, exactly the inputs made of whole decodable pairs and then one
  pair that begins inside the data, runs past its end and decodes as far as it goes (`NameValue.AcceptsExactly`);
  `NameValue.TruncatedValueAccepted` is one of five bytes. On all other inputs the two agree (`NameValue.ParsersAgree`).
- With a negative Content-Length `read_response` depends on how the bytes arrive, precisely when a single `recv` can bring
  more body bytes than the length takes away (`HttpFraming.PiecesMatterExactly`, `HttpFraming.PiecesMatterHere`).
- The installer's strings are unreadable TOML exactly when they hold a control character other than tab
  (`Toml.ArrayReadBack`, `Toml.LineBreakUnreadable`).
- A container misses its removal attempt exactly when a removal before the last one raises an error that is neither a
  subprocess nor an OS error, such as undecodable output (`CollectorStack.EveryoneTried`); `CollectorStack.OwnerNotTried`
  is a run in which the namespace owner does.
- The record demultiplexer accepts exactly the whole requests of `FastCgi.DemuxExact`, and these do not compare the request
  ids of different records (`FastCgi.MixedIdentities`).

## Model

| member | source | states |
|---|---|---|
| VmSession.RoundTrip | scripts/windows_qemu_state.py:132-175 | in any session, a successful restore of a name yields exactly the STATE files and directories the root had when that name was successfully checkpointed, whatever ran or failed in between |
| VmSession.Session | scripts/windows_qemu_state.py:132-204 | running any list of commands, each stopping anywhere, gives a history in which selectable checkpoints are never lost or changed and every new one verifies, and if all verified at the start all verify in every later disk; a command fails only where it drew a trouble, and a session that draws none does exactly the allowed commands; each command keeps to the rate at every moment and asks for no more sleep than its bytes take |
| VmSession.Step | scripts/windows_qemu_state.py:187-204 | one command does what its action promises when done; a load that is not done leaves the root as it was, or missing and whole under a retained name after a failure; a check changes nothing; retained states stay; it fails only if it drew a trouble, and otherwise is done exactly when the disk allows it; the whole process keeps to the rate |
| VmSession.CheckOne | scripts/windows_qemu_state.py:198-200 | the verify action succeeds only for a selectable checkpoint that verifies, without a failure it succeeds for every one, and it changes nothing |
| VmSession.RetainedForever | scripts/windows_qemu_state.py:168-174 | the root that a restore put aside, also one that failed between its renames, is whole under a retained name at the end of every later command |
| VmSession.QuietSession | scripts/windows_qemu_state.py:187-204 | a session in which no trouble was drawn does exactly the commands that the disk allows at that point, however many came before |
| VmSession.SavedLoads | scripts/windows_qemu_state.py:132-175 | after a successful checkpoint every later restore of that name that does not fail, with a working directory to put aside, succeeds and puts back the state that was checkpointed |
| VmSession.RootStaysDir | scripts/windows_qemu_state.py:168-174 | as long as no command fails there is a working directory after every one |
| VmRestore.Restore | scripts/windows_qemu_state.py:153-175 | success puts the copy of a verifying checkpoint at the root, keeps the old root whole under the retained name and moves five times the state's bytes; without a drawn trouble it succeeds exactly for a working directory and a selectable checkpoint that verifies; every other exit leaves the root unchanged unless the compensating rename failed too, after a second trouble or death; in every intermediate disk the old state is whole at one of the two places; checkpoints and other siblings never change; every moment is within the rate and its allowance |
| VmRestore.Swap | scripts/windows_qemu_state.py:168-174 | the double rename passes only through the old disk, the retired disk and the swapped disk, and ends in one of them according to its outcome; a living process is left without a root only by two troubles |
| VmRestore.SwappedIs | scripts/windows_qemu_state.py:168-174 | after the swap the root holds the staged tree and the retained name the old root; renaming back gives the original disk exactly |
| VmRestore.SwapCanGoOn | scripts/windows_qemu_state.py:169-173 | once the root is retired, both the second rename and the compensating one are possible, so only the environment can make them fail |
| VmRestore.SwapSafe | scripts/windows_qemu_state.py:168-174 | every state of the swap holds the complete previous root at the root or at the retained name |
| VmRestore.CopyIn | scripts/windows_qemu_state.py:160-165 | the staged copy equals the state of the verified checkpoint, nothing outside the staging directory changes, and the inventory comparison never refuses by itself |
| VmRestore.Receive | scripts/windows_qemu_state.py:154-165 | before the swap only a new staging directory is touched; only a checkpoint that does not verify is refused |
| VmRestore.CopyMatches | scripts/windows_qemu_state.py:164-165 | the inventory of a copy of a verified checkpoint equals its manifest, although the copy has no manifest |
| VmCheckpoint.Checkpoint | scripts/windows_qemu_state.py:132-150 | success publishes, under a name that was free, a directory that verifies and consists of the root's state and a manifest, and moves four times the state's bytes; otherwise the set of checkpoints is unchanged; without a drawn trouble it succeeds exactly for admissible requests and states that can be archived; every moment is within the rate and its allowance |
| VmCheckpoint.FirstCheckpoint | scripts/windows_qemu_state.py:132-150 | where there is no baselines directory yet, a checkpoint under any name of lower-case letters succeeds unless a trouble is drawn |
| VmCheckpoint.FirstAllowed | scripts/windows_qemu_state.py:134-136 | without a baselines directory every name of lower-case letters is free, and the missing directory is no obstacle |
| VmCheckpoint.Build | scripts/windows_qemu_state.py:142-149 | everything before the final rename happens in a staging directory, and the rename adds exactly the staged checkpoint |
| VmCheckpoint.Stage | scripts/windows_qemu_state.py:142-147 | copying, inventorying, writing the manifest and verifying succeed only for archivable states, and stay inside the staging directory |
| VmCheckpoint.StagedVerdict | scripts/windows_qemu_state.py:144-147 | whether the staged copy verifies depends on the state alone: it does if and only if the state can be archived, given lawful digests and JSON |
| VmCheckpoint.PublishedIs | scripts/windows_qemu_state.py:149-149 | the publishing rename keeps every selectable checkpoint and adds one that verifies |
| VmCheckpoint.PreparedKeeps | scripts/windows_qemu_state.py:141-148 | work confined to a staging directory keeps every selectable checkpoint at every step |
| VmPlaces.IncompleteNeverSelectable | scripts/windows_qemu_state.py:23-36 | no name starting with the staging prefix is selectable, and staging directories lie apart from every selectable one |
| VmPlaces.WorkingNames | scripts/windows_qemu_state.py:160-168 | restore's staging and retained names differ from the root, the baselines directory and each other |
| VmPlaces.BesideBaselines | scripts/windows_qemu_state.py:18-36 | nothing beside the baselines directory overlaps a selectable checkpoint |
| VmHost.Host.CopyFile | scripts/windows_qemu_state.py:57-62 | on success the destination is a new file with exactly the source's bytes and twice its length has been accounted; otherwise only the destination changed, what reached it is accounted twice, and at most this one transfer was given up, at the end |
| VmHost.Host.Digest | scripts/windows_qemu_state.py:65-72 | chunked hashing returns the digest of the whole file and accounts for its bytes; a failure gives up at most this one transfer, at the end |
| VmHost.Host.Inventory | scripts/windows_qemu_state.py:75-82 | the result lists exactly the ordinary files other than the manifest, each with the digest of its bytes, and exactly their bytes have been read; refused only when a link or special node is present; a failure gives up at most one transfer, at the end |
| VmHost.Host.Verify | scripts/windows_qemu_state.py:85-105 | success returns the manifest of a directory that verifies; refusal means that no manifest makes it verify |
| VmHost.Admit | scripts/windows_qemu_state.py:91-99 | a parsed manifest is admitted exactly when it is non-empty, all names are allowed and all values are 64 hexadecimal digits |
| VmHost.Host.CopyTree | scripts/windows_qemu_state.py:113-119 | a successful tree copy holds exactly the source's entries and has moved twice their bytes; an entry that fails does not stop the others: as long as the process lives, each drawn trouble spoils at most one entry whose directory was made; the transfers given up are those of the lost files, which the copy went on without, and at most one more if the process died; nothing outside the destination changes |
| VmHost.Host.CopyNamed | scripts/windows_qemu_state.py:109-123 | one STATE entry is copied whole, moving twice its bytes; refused only when it is missing, linked or holds anything but files and directories; outside a directory copy a failure gives up at most one transfer |
| VmHost.Host.CopyState | scripts/windows_qemu_state.py:108-123 | on success the destination is exactly the copy of the source's state and twice its bytes have moved; refused only when the state is not copyable; every moment is within rate times elapsed time and one chunk counted twice, and as much again for each file missed in a directory copy, of which there is none without a failure |
| VmCopies.HashedCheckpoint | scripts/windows_qemu_state.py:75-105 | hashing a verified checkpoint reads exactly the bytes of its state |
| VmCopies.HashedCopy | scripts/windows_qemu_state.py:75-147 | hashing a copied state, with or without a manifest, reads exactly the bytes of the state |
| VmHost.Mkdtemp | scripts/windows_qemu_state.py:142-160 | a new empty directory with the given prefix, or no change at all |
| VmHost.FreeName | scripts/windows_qemu_state.py:142-168 | a good name with the given prefix that is not in use: temporary and retained names never collide |
| VmHost.Host.Trouble | scripts/windows_qemu_state.py:142-174 | a step fails only if the environment's next fate is a trouble or the process is dead, and a healthy process stays healthy otherwise |
| VmHost.Host.Rename | scripts/windows_qemu_state.py:149-173 | a directory rename is atomic: the disk is the renamed disk or unchanged |
| Baseline.VerifiedFilesAreState | scripts/windows_qemu_state.py:94-101 | every file of a verified checkpoint lies under a STATE name |
| Baseline.VerifiesExactly | scripts/windows_qemu_state.py:85-105 | a directory verifies if and only if it holds files and directories only, all STATE names, at least one file, every file under a STATE name and without a backslash in its path, and a manifest that reads as the list of just these files with their digests |
| Baseline.SelectableExactly | scripts/windows_qemu_state.py:24-25 | a checkpoint name has 1 to 64 letters, digits, underscores and hyphens, and starts with neither of the last two |
| Baseline.CopyKeepsListing | scripts/windows_qemu_state.py:85-123 | a verified checkpoint can be copied, and the copy has the same inventory |
| Baseline.FreshManifestVerifies | scripts/windows_qemu_state.py:85-105 | the inventory of a copied archivable state, written as its manifest, verifies |
| Baseline.OnlyArchivableVerifies | scripts/windows_qemu_state.py:85-105 | a copied state with a manifest verifies only if the state can be archived |
| Baseline.SmallestCheckpoint | scripts/windows_qemu_state.py:85-105 | a directory of seven empty STATE files and a manifest verifies and can be archived, so the conditions above can be met |
| Baseline.ListingUnique | scripts/windows_qemu_state.py:75-82 | a tree has one inventory |
| Baseline.PosixPartsOfJoin | scripts/windows_qemu_state.py:81-96 | the parts that verify reads from a manifest name are those inventory wrote |
| Disks.RenamedBack | scripts/windows_qemu_state.py:169-173 | renaming a directory to a free place and back restores the disk exactly |
| Disks.RenamedMoves | scripts/windows_qemu_state.py:149-173 | a rename moves the subtree whole and leaves its old place empty |
| Pacing.IOBudget.ChargeFor | scripts/windows_qemu_state.py:45-54 | a charge leaves the later of the due time and the clock reading as deadline, asks to sleep exactly until then if it is still to come, and returns no earlier; without throttling nothing happens |
| Pacing.IOBudget.Account | scripts/windows_qemu_state.py:45-72 | one turn of a copy or hash loop accounts for all its bytes and keeps the rate bound at every moment; a failed turn is never charged and is counted as given up |
| Pacing.ChargeAll | scripts/windows_qemu_state.py:42-54 | any sequence of charges through one budget is a run of the kind the bounds are about, the deadline is that of the run, and the sleep asked for is the run's |
| Pacing.ChargedWithinDeadlineGrowth | scripts/windows_qemu_state.py:45-54 | between any two charges the bytes charged are at most rate times the growth of the deadline |
| Pacing.NoStoredCredit | scripts/windows_qemu_state.py:50-54 | over any window the bytes charged are at most rate times the elapsed time plus the overshoot of the sleep it starts from |
| Pacing.NeverSlowerThanRate | scripts/windows_qemu_state.py:45-54 | a run takes exactly its own I/O time, the lateness of its sleeps and the sleep it asks for, and the last is at most the bytes charged divided by the rate |
| Pacing.DeadlineIsLatestCandidate | scripts/windows_qemu_state.py:42-54 | the deadline in closed form: the latest of the start plus all work and each clock reading plus the work after it |
| Pacing.ManyFilesOneRate | scripts/windows_qemu_state.py:57-62 | over any number of files, each with a fresh budget, bytes moved are at most rate times elapsed time plus two chunks for each failed file; every meter keeps its transfers of this kind |
| Pacing.FailedFilesAreNotPaced | scripts/windows_qemu_state.py:57-119 | n failing files, within the limits of a transfer, that move two chunks each in no time: the allowance per failed file cannot be smaller |
| Pacing.Meter.Move | scripts/windows_qemu_state.py:60-62 | every read or write is logged with its time, and at that moment all bytes are within the rate and the allowance |
| Pacing.Meter.Stretch | scripts/windows_qemu_state.py:45-119 | over any stretch of work every moment is within rate times elapsed time, one chunk counted twice, and as much again for each transfer given up before and each file a directory copy went on without |
| ArchiveNames.MemberPathFaithful | scripts/native_archive.py:25-32 | an admissible name is rooted at the bundle, has only safe parts and no dot-dot, and is given back by joining its parts |
| ArchiveNames.MemberPathOfJoin | scripts/native_archive.py:25-32 | exactly which joined paths are admissible, with and without a trailing slash |
| ArchiveNames.SafePartExactly | scripts/native_archive.py:14-30 | a part is safe exactly when it is not empty, ends in neither dot nor space, has no control or forbidden character, and is no device name, alone or before a dot, in any case |
| ArchiveInventory.Digest | scripts/native_archive.py:35-48 | accepts exactly the streams of the declared size within the limit, returns the digest of all their bytes, and never hashes more than was declared |
| ArchiveInventory.Inspect | scripts/native_archive.py:51-87 | succeeds if and only if the archive is admissible, lists exactly its files, and even when refusing hashes at most 2 GiB |
| ArchiveInventory.InspectMember | scripts/native_archive.py:57-84 | one member passes exactly when number, name, case-folded uniqueness, kind, size and contents allow it |
| ArchiveInventory.InventoryGuarantees | scripts/native_archive.py:51-87 | an inventory is non-empty, has at most 4096 entries, safe keys below the bundle that differ after case folding, and sizes that are byte counts of what was hashed |
| ArchiveExtract.ExtractPair | scripts/native_archive.py:90-127 | succeeds exactly when both archives are admissible with one inventory, the destination is new and the second read fits that inventory without collisions; then the tree holds exactly the inventoried files and their directories; nothing is written before the two inventories agree and the destination is new, and at most 2 GiB on any path |
| ArchiveExtract.ExtractAll | scripts/native_archive.py:100-126 | the second pass succeeds if and only if every member matches the expected inventory, none collides and none is missing, and then builds exactly those files |
| ArchiveExtract.ExtractFile | scripts/native_archive.py:106-124 | one file is created once, with the expected size and digest, and only where no file is at, above or below it |
| ArchiveExtract.AcceptedIsExtracted | scripts/native_archive.py:106-126 | an accepted second read yields exactly the inventory's files with the bundle component stripped |
| ArchiveExtract.ExtractedInside | scripts/native_archive.py:96-113 | every extracted file lies strictly inside the payload directory along safe parts |
| ArchiveExtract.InventoryBounded | scripts/native_archive.py:76-80 | the sizes of an inventory, over any distinct keys, sum to at most 2 GiB |
| ArchiveExtract.CopyOut | scripts/native_archive.py:115-123 | accepts exactly the stream with the declared size and digest and never writes more than declared |
| ArchiveExtract.MakeDirs | scripts/native_archive.py:114-114 | makes the missing directories of a path, and fails exactly when a file is in the way |
| ReleaseArchives.Release | scripts/create_release_archives.py:32-139 | tar, ZIP and comparison succeed exactly for trees of files and directories without hard links inside the tree, and both archives then read back alike |
| ReleaseArchives.CreateTar | scripts/create_release_archives.py:43-73 | one entry per member, in order; the second name of an inode becomes a hard link; mode 0755 for directories, executables and names with a stem and the suffix exe in any case, 0644 for everything else |
| ReleaseArchives.CreateZip | scripts/create_release_archives.py:43-95 | one entry per member, in order, with a trailing slash on directory names, the file type and the same modes |
| ReleaseArchives.VerifyEquivalent | scripts/create_release_archives.py:113-139 | accepts exactly archives without link entries whose name-to-digest maps are equal |
| ReleaseArchives.ReadBack | scripts/create_release_archives.py:51-139 | the payload map of the tar has every staged path under its name with its contents, and nothing else |
| ReleaseArchives.HardLinksMean | scripts/create_release_archives.py:51-73 | a link entry is written if and only if two staged files share an inode |
| ReleaseArchives.SamePermissions | scripts/create_release_archives.py:43-89 | both archives carry the same permission bits; only the owner may write; a member may be executed exactly when it is a directory, executable, or named like a program |
| ReleaseArchives.ConsumerAgrees | scripts/native_archive.py:51-87 | the two archives have the same inventories, and the ZIP is admissible exactly when the tar is and no directory name has 1024 characters |
| ReleaseArchives.LongDirectoryName | scripts/create_release_archives.py:32-139 | releases a tree of one file and four nested directories whose two archives read back alike, of which the inspection admits the tar and refuses the ZIP |
| ReleaseArchives.HardLinkedPair | scripts/create_release_archives.py:51-139 | two names of one file make the release step fail |
| ReleaseDelivery.DeliveredExactly | scripts/native_archive.py:90-127 | extracting what was released from a tree-shaped stage, with an unchanged ZIP, succeeds exactly when the tar is admissible and no directory name has 1024 characters; the payload files are then exactly the staged files |
| ReleaseDelivery.Deliver | scripts/create_release_archives.py:32-139 | release and extraction in sequence succeed under exactly those conditions, and the payload tree holds the staged files, the directories leading to them and no more |
| ReleaseDelivery.NoFileInTheWay | scripts/native_archive.py:113-116 | no file of a tree-shaped stage is at or below another one |
| ReleaseArchives.NamesDiffer | scripts/create_release_archives.py:60-84 | distinct staged paths get distinct member names |
| Streams.Exactly | scripts/smoke_php_transport.py:22-29 | returns the next bytes of a stream however they are cut up, and fails exactly when too few are left |
| NameValue.Parameters | scripts/smoke_php_transport.py:32-50 | accepts exactly the encodings of pairs of decodable text and returns the last value for each name |
| NameValue.ReadAllSound | scripts/smoke_php_transport.py:32-50 | what is read encodes back to the input |
| NameValue.ReadAllComplete | scripts/smoke_php_transport.py:32-50 | every encoding is read back, with one-byte and four-byte lengths |
| NameValue.FcgiParams | scripts/smoke_request_correlation.py:93-108 | the unchecked loop computes the map and the final offset of its functional form |
| NameValue.ParsersAgree | scripts/smoke_request_correlation.py:93-108 | the unchecked parser ends exactly at the end of the input with given values if and only if the checked parser accepts with them |
| NameValue.AcceptsExactly | scripts/smoke_request_correlation.py:93-108 | the unchecked parser accepts exactly the inputs of the checked one and, apart from these, those that end in a cut pair |
| NameValue.OvershootsExactly | scripts/smoke_request_correlation.py:93-108 | from any offset, its own offset passes the end of the input if and only if whole decodable pairs are followed by a cut one |
| NameValue.TruncatedValueAccepted | scripts/smoke_request_correlation.py:93-108 | an input the checked parser refuses and the unchecked one accepts |
| FastCgi.ReceiveRequest | scripts/smoke_php_transport.py:60-83 | the record loop computes the outcome of its functional form and leaves the rest of the connection unread |
| FastCgi.ReadRecord | scripts/smoke_php_transport.py:64-69 | one record off the connection, whatever pieces its bytes come in |
| FastCgi.DemuxExact | scripts/smoke_php_transport.py:60-83 | a request is received if and only if the bytes start with a whole one: at most 128 well-framed records, at most 16384 bytes per stream, the last and no other record ending it; parameters and body are the concatenated contents |
| FastCgi.ClosedExactly | scripts/smoke_php_transport.py:60-83 | the record loop finds the connection closed if and only if the bytes are the records of a request under way and then stop inside a record, or before one, with nothing wrong in its header |
| FastCgi.InvalidExactly | scripts/smoke_php_transport.py:60-83 | it finds an error if and only if the request under way goes on with a badly framed record or one that takes a stream over 16384 bytes, or has 128 records and no end |
| FastCgi.KeepAliveExactly | scripts/smoke_php_transport.py:70-72 | the connection is kept exactly when the last begin record has a third byte and that byte is odd |
| FastCgi.StreamJoins | scripts/smoke_php_transport.py:73-76 | the contents of records of one kind are joined in the order of the records |
| FastCgi.StreamOne | scripts/smoke_php_transport.py:73-76 | a record adds its contents to the stream of its kind and nothing to any other |
| FastCgi.FragmentationIgnored | scripts/smoke_php_transport.py:60-83 | two whole requests with the same streams are received alike, however they are cut into records |
| FastCgi.MixedIdentities | scripts/smoke_php_transport.py:60-83 | a request whose records carry different ids is received |
| FastCgiServer.HandleConnection | scripts/smoke_php_transport.py:56-104 | the connection loop, with its drain of trailing input, records and ends as its functional form, each of whose four ends has its exact condition over the records below |
| FastCgiServer.Drain | scripts/smoke_php_transport.py:92-98 | trailing input is read to its end, and accepted exactly up to 65536 bytes |
| FastCgiServer.Pipelined | scripts/smoke_php_transport.py:60-98 | requests that keep the connection are recorded one after another, and the connection goes on with exactly the bytes after them |
| FastCgiServer.ServedExactly | scripts/smoke_php_transport.py:56-98 | a connection is served to its end with these requests recorded if and only if its bytes are just these requests in order, the last and no other not keeping the connection, and at most 65536 bytes after them |
| FastCgiServer.CutOffExactly | scripts/smoke_php_transport.py:56-100 | a connection is cut off with these requests recorded if and only if its bytes are just these requests, all keeping it, and then a request that stops inside a record or before one |
| FastCgiServer.FailedExactly | scripts/smoke_php_transport.py:56-102 | it ends in an error if and only if the requests recorded, all keeping it, are followed by a badly framed request or one over a limit, by one whose parameters cannot be read, or the last one does not keep it and more than 65536 bytes follow |
| FastCgiServer.StoppedExactly | scripts/smoke_php_transport.py:84-86 | it is stopped before an answer if and only if it holds one request more than are answered, all before the last keeping it |
| HttpFraming.ReadResponse | scripts/smoke_podman_blue_green.py:122-143 | the two receive loops compute the response of the stream cut up by any plan; ResponseExact and NoLengthNoResponse say what that is |
| HttpFraming.PiecesDoNotMatter | scripts/smoke_podman_blue_green.py:122-143 | with a non-negative Content-Length the result depends only on the stream: the header block and exactly that many body bytes, or an error |
| HttpFraming.ResponseExact | scripts/smoke_podman_blue_green.py:122-143 | for a status line, fields of other names, a Content-Length spelled in any case and any further lines: the head and exactly that many bytes of the body, an error when the body is shorter or the value is no number, whatever the pieces |
| HttpFraming.NoLengthNoResponse | scripts/smoke_podman_blue_green.py:136-137 | without such a field there is no response |
| HttpFraming.LengthFound | scripts/smoke_podman_blue_green.py:131-135 | the length of a head is what the value of its first field named content-length, in any case, stands for |
| HttpFraming.LengthMissing | scripts/smoke_podman_blue_green.py:130-137 | a head has no length exactly when no line after the first is such a field |
| HttpFraming.JoinOfLines | scripts/smoke_podman_blue_green.py:131-131 | every head is the join of its lines, none of which holds a line break |
| HttpFraming.PiecesMatterExactly | scripts/smoke_podman_blue_green.py:122-143 | exactly when every cutting gives the same result, for negative lengths too |
| HttpFraming.NegativeLength | scripts/smoke_podman_blue_green.py:137-143 | what a negative length returns, in terms of the bytes that came with the header |
| HttpFraming.PiecesMatterHere | scripts/smoke_podman_blue_green.py:122-143 | a stream with Content-Length -1 for which two cuttings give different responses |
| HttpFraming.Head | scripts/smoke_protocol_examples.py:42-47 | reads exactly the header block within 8192 bytes and not one byte of the body |
| HttpFraming.HeaderShared | scripts/smoke_podman_blue_green.py:122-143 | every response returned starts with the header block that the byte-at-a-time reader reads |
| StableFront.StepKeeps | scripts/smoke_podman_blue_green.py:167-230 | every step of every thread keeps mutual exclusion, the target's link to the last completed switch, and the state of each connection |
| StableFront.Reached | scripts/smoke_podman_blue_green.py:167-230 | the invariant holds in every state of every interleaving |
| StableFront.BackendFixed | scripts/smoke_podman_blue_green.py:199-205 | a connection's backend never changes once it is read |
| StableFront.LatestSwitch | scripts/smoke_podman_blue_green.py:181-200 | the backend read is the port of the last switch that had left its critical section |
| StableFront.NeverOlder | scripts/smoke_podman_blue_green.py:181-205 | a connection goes to the last port switched to before its accept or to a later one, and to exactly that port if there is no later one |
| StableFront.AfterReturn | scripts/smoke_podman_blue_green.py:181-205 | a connection accepted after a switch call returned goes to that call's port or to one switched to later, whatever order calls return in |
| StableFront.RelayedInOrder | scripts/smoke_podman_blue_green.py:207-230 | in each direction delivered bytes are a prefix of received bytes, those of the bytes the same connection's other end sent in the run, at most 65536 bytes behind |
| StableFront.DeliveredExactly | scripts/smoke_podman_blue_green.py:207-230 | in every state of every run the bytes delivered, and those received, are exactly the first bytes sent, as many as the relay steps of that connection and direction passed on and read |
| StableFront.EverythingArrives | scripts/smoke_podman_blue_green.py:219-230 | from every reachable state a connection still relayed can deliver everything both ends have sent, by receive and deliver steps of its own alone |
| StableFront.SwitchReturns | scripts/smoke_podman_blue_green.py:181-183 | whoever holds the lock, a new switch call can run to its return, and its port is then the last completed one |
| StableFront.ClientServed | scripts/smoke_podman_blue_green.py:190-218 | while the front listens and its loop runs, a new client can connect and is relayed to the port of the last completed switch |
| StableFront.UpgradeWorks | scripts/smoke_podman_blue_green.py:181-218 | from every reachable state of a listening front, a switch to any port can complete and the next client is relayed to that port |
| StableFront.FirstClient | scripts/smoke_podman_blue_green.py:167-218 | a front that has just started can relay its first client to the port it was given |
| StableFront.Closes | scripts/smoke_podman_blue_green.py:185-198 | from every reachable state a close call can end the accept loop, at its stop test or blocked in accept, with the listener closed |
| StableFront.NoLateClients | scripts/smoke_podman_blue_green.py:185-198 | nobody connects once the listener is closed, and at most one client does after the stop event |
| Toml.OnePass | scripts/prepare-server.py:140-142 | the two ordered replacements equal one escape of each character |
| Toml.StringReadBack | scripts/prepare-server.py:140-142 | a printed string reads back to its value and ends where it was ended, or is refused when it holds a control character other than tab |
| Toml.ArrayReadBack | scripts/prepare-server.py:140-146 | a printed array reads back to exactly the list, or to nothing, depending on that condition alone |
| Toml.LineBreakUnreadable | scripts/prepare-server.py:140-146 | a printed string with a line break is refused |
| CollectorStack.Stack.Start | scripts/collector_stack.py:102-126 | refused without a trace exactly for bad or repeated roles or a missing namespace owner; otherwise recorded before the engine is asked, and recorded still if the command fails; it runs exactly when the command ends well and, with ports to publish, the engine reports every one, whose host ports are then kept |
| CollectorStack.GoodRoleExactly | scripts/collector_stack.py:103-104 | a role has 1 to 32 small letters, digits and hyphens and starts with a letter |
| CollectorStack.Stack.Close | scripts/collector_stack.py:153-161 | removals go through the recorded names newest first, stop early only after an uncaught error, and the outcome names exactly the failed ones; what may remain is bounded by the outcome |
| CollectorStack.CleanupMeans | scripts/collector_stack.py:153-161 | without an uncaught error, everything was tried and the containers that may remain are exactly those named |
| CollectorStack.EveryoneTried | scripts/collector_stack.py:155-159 | every container gets its attempt if and only if no removal before the last one ends with an uncaught error |
| CollectorStack.OwnerNotTried | scripts/collector_stack.py:102-161 | a run of two starts and a cleanup, with one uncaught error, that never tries to remove the namespace owner |
| CollectorStack.Gate | scripts/collector_stack.py:102-161 | containers started until one does not run, then cleanup: every request was recorded first, the removals tried are the reverse of the requests, or its first part up to an uncaught error, what may remain is bounded by them, leftovers are all named, and with two containers or more the namespace owner was requested first; on an engine without errors all of a good plan runs and nothing is left |
| ImageTags.CandidatesDistinct | scripts/container_refresh.py:120-134 | equal candidate tags have equal version, profile, variant and revision |
| ImageTags.AliasesDisjoint | scripts/container_refresh.py:120-134 | a shared alias means the same version, profile and variant |
| ImageTags.CandidateIsNoAlias | scripts/container_refresh.py:126-134 | no candidate tag is an alias of any image |
| ImageTags.TagsExactly | scripts/container_refresh.py:119-134 | an image has tags exactly for a version of three numbers of at most ten digits, a revision of two numbers, and a known profile and variant; the candidate and the aliases are then these, among them the short ones of wolfi images |
| ImageTags.EndingNames | scripts/container_refresh.py:16-134 | profile and variant can be told from any ending an image's tags may have |
| Http01Probe.Probe | src/acme_companion_commands.rs:199-244 | the verdict for every address list and outcome: the first address that is not passed over decides, otherwise the last miss is reported |
| Http01Probe.ReachedExactly | src/acme_companion_commands.rs:204-235 | the probe succeeds exactly when some address answers with the authorization within 64 KiB and all earlier ones refused or answered without it |
| Http01Probe.VerdictExactly | src/acme_companion_commands.rs:204-244 | after addresses that refuse or answer within 64 KiB without the authorization, an exchange that breaks off, an answer that is too long and one that holds the authorization each decide; if all are passed over the last one is reported |
| Http01Probe.Doctor | src/acme_companion_commands.rs:196-257 | the result as determined by the verdict and by whether installing and removing succeed: an installed token is removed exactly once on every path, success needs probe and removal, a probe error is never replaced by a removal error; other tokens are untouched |

## Left out

- `scripts/windows_qemu.py`, the VM lock and its file: one process is assumed to hold the VM root.
- `os.path.realpath`, ownership and permission bits: links are nodes that are refused, and permission changes are steps that may fail.
- The free-space checks of checkpoint and restore are steps that may fail; the sizes are not added up.
- VmHost.FreeName: a temporary or retained name is taken to be new, as `tempfile.mkdtemp` arranges and a random UUID makes certain for practical purposes.
- The reading and writing of `manifest.json` is not paced by the source and not part of the byte account.
- The encodings of gzip, tar and ZIP: an archive is an ordered list of entries, and a stream may break off.
- Errors of the operating system while archives are written, read back or extracted: "exactly when" in Release and ExtractPair is about runs without them.
- The sort order of archive members: any order with the bundle directory first is covered.
- `architecture` and `executable` of `scripts/native_archive.py`: fixed header lookups.
- The response a FastCGI fixture writes back: only how many requests can be answered before the server stops or the connection fails is a parameter.
- Multi-line, literal and non-string TOML values: the reader accepts arrays of single-line basic strings only. Python strings with unpaired surrogates have no counterpart in the model.
- HttpFraming.ReadResponse: socket errors and timeouts end the call with an exception and are not distinguished from it.
- StableFront: bytes sent before the accept are modelled as sent after it; socket timeouts are one of the ways a relay ends.
- CollectorStack.Engine.Run: a command has taken effect or not when it returns; an engine that creates a container later is not modelled. Command options and images are left out.
- Http01Probe.Store.Install: the challenge store is not part of this model beyond a token map; its operations may fail with or without effect.
- The Rust crates, `src/admin.rs`, `src/cli.rs`, `src/background.rs`, the configuration tester, dashboards, and the process handling of the smoke scripts.
