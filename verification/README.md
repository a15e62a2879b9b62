# Release and market-source verification

This project models four parts of the repository in Dafny 4.11 and proves what
they are for.

**The one-shot release materializer.** `Octal`, `Paths`, `Pax` and `Manifest` are
the parsers: the octal fields and checksum of POSIX.1-2017, pax utility, EXTENDED
DESCRIPTION, "ustar Interchange Format", its "pax Extended Header" records, safe
relative paths, and the NUL-separated git tree listing. `Tar` says what an archive
is, `Extraction` is the streaming extractor in lock-step with the manifest,
`ExtractionSoundness` and `ExtractionRoundTrip` say what its success means and that
written archives come back. `ReleaseTree` is the directory tree as a value,
`ReleaseWalk` the walks that seal and count it, `ReleaseCheck` the check against the
manifest and the counting argument; `ReleaseSealing` connects extraction to the
final check; `Materializer` is the failure-aware run over a release root that other
processes may write names into.

**The write-once artifact pair.** `ArtifactRace` interleaves any number of writers
of one minute, call by call; `ArtifactProgress` says what such runs achieve. `ArtifactStore` is the sequential writer, inspector,
lineage check and registration, and histories of them.

**The minute-data pipeline.** `MinuteRows` is the normalisation both providers run,
`HintPipeline` and `CurrentSource` compose it with proof time, alignment and
validation, `SessionClock` is the canonical proof minute, `Cumulative` the
difference loop.

**Smaller cores.** `TreeDigest` (the hashed stream of a tree), `CompactDictionary`
(string table, column layout, approved variant), `SqlSplit` (column splitter) and
`Acceptance` (the shadow acceptance window). `Bytes` and `Lexical` hold the shared
types and the sorting order.

Every system or database call may fail: an oracle says which, and results are stated
for every oracle ("whatever fails") and, in the other direction, for runs without
failures. The frozen constants (commit, counts, inodes) are parameters.

Where the code does less than one might expect, the model keeps the code and says so:

- A directory read that fails looks like the end of the directory, to all four walks.
  `ReleaseWalk.UnreadFolderPasses` and `Materializer.UnreadStagingPasses` are failing
  inputs. The release a run makes is exact all the same if and only if the expected
  counts are the true ones (`Materializer.ReleaseRoot.Materialize`); for an earlier
  staging that a read failed in, only what was seen of it is known
  (`Materializer.LooksAreExact`).
- A folder member that names a file already there is accepted and changes nothing:
  `ExtractionRoundTrip.FolderOverFileIsIgnored`.
- The overflow guard of the extended-header length is one digit loose.
  `Pax.LengthGuardIsLoose` shows an accepted record whose length wrapped;
  `Pax.LengthFieldIsExact` says when acceptance is exact.
- A writer that cannot read the identity of its report, or cannot remove it, still
  removes its payload: `ArtifactRace.ReportFaultOrphans` is such a run, and
  `ArtifactRace.PairedExactly` and `ArtifactRace.PairedUnlessAbandoned` say exactly
  when a report is never left alone.
- A writer that cannot read the identity of a file it created leaves that file, and
  its cleanup still reports success: `ArtifactStore.LostFileStays` gives the calls,
  `ArtifactStore.Backend.Create` and `ArtifactRace.CleanedAttemptLeavesNothing` the
  exact condition.
- A reused pair may still be removed by the writer that made it, when its last write
  failed late: `ArtifactRace.ReusedPairVanishes`, and `ArtifactRace.ReusedPairStays`
  for when it stays.
- The tree digest skips what is below a folder that cannot be listed:
  `TreeDigest.ClosedFolderHides`.
- A freshly written pair is not always one the inspector accepts:
  `ArtifactStore.FreshPairCloses` gives the exact condition,
  `ArtifactStore.UndatedPairDoesNotClose` such a pair.
- Header modes are cut to the sixteen bits of the platform's mode type before they
  are compared, and padding bytes after a member are not checked to be zero.
- The exit code of the materializer is the primary result when there is one, so a
  failed restore is visible in the exit code only when nothing failed before it.

## Model

| member | source | states |
|---|---|---|
| `Octal.ParseOctal` | scripts/n6_f464_privileged_materialize_and_install_v2.c:208-232 | the byte loop returns exactly what the field means: blanks, digits, filler, in 64 bits, for a field of any length |
| `Octal.OctalFieldIsExact` | scripts/n6_f464_privileged_materialize_and_install_v2.c:208-232 | a field is read as v if and only if it denotes v mathematically and v fits 64 bits; never a wrapped value |
| `Octal.PrintedOctalParsesBack` | scripts/n6_f464_privileged_materialize_and_install_v2.c:208-232 | zero-padded digits followed by any filler parse back to the number printed |
| `Octal.ValidTarChecksum` | scripts/n6_f464_privileged_materialize_and_install_v2.c:234-245 | accepts exactly the headers whose recorded number is the sum of their bytes with the checksum field read as blanks |
| `Octal.ChecksumMeans` | scripts/n6_f464_privileged_materialize_and_install_v2.c:234-245 | the number recorded in bytes 148 to 155 is the sum of the other bytes and of eight blanks |
| `Octal.StampedHeaderValidates` | scripts/n6_f464_privileged_materialize_and_install_v2.c:234-245 | any 512-byte header stamped with its own six-digit sum validates, because six octal digits always hold it |
| `Paths.SafeRelativePath` | scripts/n6_f464_privileged_materialize_and_install_v2.c:262-279 | accepts exactly the paths none of whose components is empty, `.` or `..` |
| `Paths.SafePathByBytes` | scripts/n6_f464_privileged_materialize_and_install_v2.c:262-279 | the same byte by byte: between slashes or ends stands never nothing, one dot or two dots |
| `Paths.ComponentsAreInjective` | scripts/n6_f464_privileged_materialize_and_install_v2.c:970-995 | walking a path component by component loses nothing: different paths have different component lists |
| `Paths.TarPath` | scripts/n6_f464_privileged_materialize_and_install_v2.c:281-302 | a path built from a header is always safe, short enough and free of NUL |
| `Paths.SplitPathReadsBack` | scripts/n6_f464_privileged_materialize_and_install_v2.c:281-302 | a path split between prefix and name field, with or without a trailing slash, is the path read; a prefix field without a terminator never is |
| `Pax.PaxRecords` | scripts/n6_f464_privileged_materialize_and_install_v2.c:304-371 | accepts a payload exactly when it is one accepted record: the comment naming the commit, or one usable path when none is pending |
| `Pax.DelimitRecord` | scripts/n6_f464_privileged_materialize_and_install_v2.c:312-342 | the cursor loop delimits exactly the first record, its key and its value |
| `Pax.AcceptedRecordIsFirst` | scripts/n6_f464_privileged_materialize_and_install_v2.c:312-342 | an accepted record at the start of any bytes is delimited exactly, with its length, key and value |
| `Pax.FirstRecordIsAccepted` | scripts/n6_f464_privileged_materialize_and_install_v2.c:312-342 | conversely what is delimited is an accepted record |
| `Pax.AcceptedMeansFirst` | scripts/n6_f464_privileged_materialize_and_install_v2.c:304-371 | a payload is one accepted record exactly when the first delimited record is all of it |
| `Pax.LengthFieldIsExact` | scripts/n6_f464_privileged_materialize_and_install_v2.c:312-333 | when the length field denotes a 64-bit number, acceptance is exactly "one record whose length is the byte count"; when it does not, no such record is there |
| `Pax.NineteenDigitsFit` | scripts/n6_f464_privileged_materialize_and_install_v2.c:312-333 | with at most nineteen digits acceptance always means an exact record |
| `Pax.LengthGuardIsLoose` | scripts/n6_f464_privileged_materialize_and_install_v2.c:318-321 | a 29-byte record with a wrapped 21-digit length is accepted: the overflow guard is one digit loose |
| `Pax.TotalLengthCountsItself` | scripts/n6_f464_privileged_materialize_and_install_v2.c:312-333 | the self-referential decimal length exists for every record and counts its own digits |
| `Pax.PrintedText` | scripts/n6_f464_privileged_materialize_and_install_v2.c:304-342 | the record as text: decimal digits that denote its own length, blank, key, equals sign, value, newline |
| `Pax.PrintedRecordParsesBack` | scripts/n6_f464_privileged_materialize_and_install_v2.c:304-371 | a printed record is exact and accepted whatever its key and value, as long as its length fits 64 bits |
| `Pax.PrintedPathParsesBack` | scripts/n6_f464_privileged_materialize_and_install_v2.c:343-371 | printing a usable path as one record parses back to that path |
| `Manifest.ReadManifestEntry` | scripts/n6_f464_privileged_materialize_and_install_v2.c:586-623 | the byte loop reads exactly one well-formed entry and moves past it, or fails |
| `Manifest.EntriesArePrinted` | scripts/n6_f464_privileged_materialize_and_install_v2.c:586-623 | a listing reads as these entries exactly when it is their printed form and all of them are valid |
| `Manifest.PrintedText` | scripts/n6_f464_privileged_materialize_and_install_v2.c:586-623 | an entry as text: mode 100755 or 100644, blob, forty hexadecimal digits, a tab, a safe path below 1024 bytes, a zero byte |
| `Manifest.ValidEntryMeans` | scripts/n6_f464_privileged_materialize_and_install_v2.c:586-623 | and every such entry is valid |
| `Tar.ItemsAreLaidOut` | scripts/n6_f464_privileged_materialize_and_install_v2.c:1151-1264 | an archive reads as these members exactly when it is one 512-aligned chunk per member followed by at least two zero blocks and nothing but zeros |
| `Tar.FirstItemIgnoresRest` | scripts/n6_f464_privileged_materialize_and_install_v2.c:1170-1264 | a member reads the same whatever follows it |
| `Tar.GlobalReadsBack` | scripts/n6_f464_privileged_materialize_and_install_v2.c:1182-1213 | a written global header reads back |
| `Tar.ExtendedReadsBack` | scripts/n6_f464_privileged_materialize_and_install_v2.c:1182-1213 | a written path override reads back to that path, for any usable path |
| `Tar.ValidHeaderMeans` | scripts/n6_f464_privileged_materialize_and_install_v2.c:1170-1181 | a header is taken exactly with its magic and version bytes, its checksum and no link name |
| `Tar.WrittenLayout` | scripts/n6_f464_privileged_materialize_and_install_v2.c:130-148 | where name, mode, size, type and prefix stand in the 512 bytes |
| `Tar.WrittenPath` | scripts/n6_f464_privileged_materialize_and_install_v2.c:281-302 | a path written in the name field, or split between prefix and name, with or without a slash after it, is the path the header names |
| `Tar.HeaderMembers` | scripts/n6_f464_privileged_materialize_and_install_v2.c:1182-1213 | a header member is taken exactly with mode 0666, one to 8192 bytes of payload, the expected record and, when global, the expected name |
| `Tar.EntryReadsBack` | scripts/n6_f464_privileged_materialize_and_install_v2.c:1214-1263 | every member of mode 0644, 0664, 0755 or 0775, or folder of mode 0755 or 0775, reads back; a file is executable exactly when its owner execute bit is set |
| `Tar.OtherEntriesAreRefused` | scripts/n6_f464_privileged_materialize_and_install_v2.c:1214-1263 | members of any other mode or type are refused |
| `Extraction.OpenParentOf` | scripts/n6_f464_privileged_materialize_and_install_v2.c:970-995 | the walk along a path makes exactly the missing folders and stops at anything that is not a folder, whatever call fails |
| `Extraction.LongNameIsRefused` | scripts/n6_f464_privileged_materialize_and_install_v2.c:970-995 | a name of more than 255 bytes anywhere in a path stops the walk |
| `Extraction.ReadHeader` | scripts/n6_f464_privileged_materialize_and_install_v2.c:1170-1181 | reads mode and size exactly from headers with a valid magic, checksum and empty link name |
| `Extraction.ReadExtended` | scripts/n6_f464_privileged_materialize_and_install_v2.c:1182-1213 | a header member moves the reader as its meaning says, or stops it |
| `Extraction.ReadDirectory` | scripts/n6_f464_privileged_materialize_and_install_v2.c:1219-1237 | a directory member uses the pending override or its own path and makes that folder |
| `Extraction.ReadFile` | scripts/n6_f464_privileged_materialize_and_install_v2.c:1219-1263 | a file member is taken only together with the next manifest entry, with equal path, bit and blob, at a free place |
| `Extraction.ExtractArchive` | scripts/n6_f464_privileged_materialize_and_install_v2.c:1134-1276 | the single streaming pass builds what decoding the archive, decoding the manifest and playing one against the other would build; without failing calls it succeeds exactly when they do |
| `ExtractionSoundness.FilesFollowManifest` | scripts/n6_f464_privileged_materialize_and_install_v2.c:1238-1256 | the archive's regular files, in order, are the manifest's entries: path, executable bit, blob |
| `ExtractionSoundness.EveryOverrideIsUsed` | scripts/n6_f464_privileged_materialize_and_install_v2.c:1189-1222 | every override is used by the next member that is not a header |
| `ExtractionSoundness.ReplayBuilds` | scripts/n6_f464_privileged_materialize_and_install_v2.c:1219-1256 | the tree built is what the members place, the folders leading there, and nothing else |
| `ExtractionSoundness.ExtractionIsSound` | scripts/n6_f464_privileged_materialize_and_install_v2.c:1134-1276 | success means all of this for the given archive and manifest, with the expected number of entries, one global header and the expected number of overrides |
| `ExtractionRoundTrip.WrittenArchiveExtracts` | scripts/n6_f464_privileged_materialize_and_install_v2.c:1134-1276 | any list of files and folders with usable paths, none at or below a file, in any order, with any of the modes, named in an override or in the header, is extracted back: those files, those folders, the folders above, nothing else |
| `ExtractionRoundTrip.FolderOverFileIsIgnored` | scripts/n6_f464_privileged_materialize_and_install_v2.c:1230-1237 | a folder member that names a file already there is taken and changes nothing |
| `ReleaseWalk.SealAndCount` | scripts/n6_f464_privileged_materialize_and_install_v2.c:1063-1132 | whatever fails, only folder modes change; success means that everything the directory reads delivered was sealable, is sealed and was counted once, and the rest is as it was; all of it when no read fails |
| `ReleaseWalk.CountTree` | scripts/n6_f464_privileged_materialize_and_install_v2.c:718-915 | the counting walks, of a finished and of an interrupted release: success means that everything the reads delivered fits and was counted; with no failing call it is decided by the tree, and with no failing read it is about all of it |
| `ReleaseWalk.UnreadFolderPasses` | scripts/n6_f464_privileged_materialize_and_install_v2.c:861-914 | a folder with nothing but a symbolic link in it passes with counts 0 and 0 when its first read fails |
| `ReleaseWalk.NothingMissed` | scripts/n6_f464_privileged_materialize_and_install_v2.c:843-915 | a listing that ended early, in whatever folders, has both counts of a tree of files and folders only if nothing is missing |
| `ReleaseCheck.OpenExisting` | scripts/n6_f464_privileged_materialize_and_install_v2.c:625-657 | opening by path without creating finds exactly the node at that place |
| `ReleaseCheck.VerifyFullManifestTree` | scripts/n6_f464_privileged_materialize_and_install_v2.c:917-950 | succeeds exactly when the manifest has the expected number of entries, all verified in the tree, and ends there |
| `ReleaseCheck.VerifiedInNumbers` | scripts/n6_f464_privileged_materialize_and_install_v2.c:925-945 | an entry is verified exactly when its file stands at its place with the listed blob and mode 0555 if it is executable, 0444 if it is not |
| `ReleaseCheck.FittingByPlace` | scripts/n6_f464_privileged_materialize_and_install_v2.c:843-915 | what the walk demands of every entry, place by place: folders 0555 (0755 in the interrupted staging), read-only files, one link in a finished release, nothing else |
| `ReleaseCheck.ExactSealedFullReleaseTree` | scripts/n6_f464_privileged_materialize_and_install_v2.c:952-960 | the whole check: root, manifest, and the walk with its counts, which are of what the reads delivered; the release itself is exact when no read fails |
| `ReleaseCheck.PassedIsExact` | scripts/n6_f464_privileged_materialize_and_install_v2.c:952-960 | whatever reads failed, a release that passed is exact if and only if it has no links or special files and its true counts are the expected ones |
| `ReleaseCheck.VerifyFirstEntries` | scripts/n6_f464_privileged_materialize_and_install_v2.c:801-834 | succeeds exactly when that many manifest entries can be read and each is verified in the tree; what follows is not read |
| `ReleaseCheck.ExactFailedStaging` | scripts/n6_f464_privileged_materialize_and_install_v2.c:783-841 | the check of the interrupted staging: mode, manifest, and the walk with its counts, of what the reads delivered; exact when no read fails |
| `ReleaseCheck.RightWhenCountsAgree` | scripts/n6_f464_privileged_materialize_and_install_v2.c:835-840 | a walk that came out right saw everything if and only if the tree has no links or special files and its true counts are the expected ones |
| `ReleaseCheck.InterruptedByPlace` | scripts/n6_f464_privileged_materialize_and_install_v2.c:783-841 | the same of the interrupted staging: root 0700, folders 0755, and the first entries verified |
| `ReleaseTree.CountIsPlaces` | scripts/n6_f464_privileged_materialize_and_install_v2.c:843-915 | the recursive counters equal the number of distinct places of that kind |
| `ReleaseCheck.CountingSuffices` | scripts/n6_f464_privileged_materialize_and_install_v2.c:917-960 | for distinct listed paths that all verify, the counts agree exactly when the file set is the listed set and the folder set is the ancestor set |
| `ReleaseCheck.ExactReleaseIsTheManifest` | scripts/n6_f464_privileged_materialize_and_install_v2.c:952-960 | the final check holds exactly when the tree is sealed and holds the manifest's files, the folders above them, and nothing else |
| `ReleaseCheck.ExactReleaseByPlace` | scripts/n6_f464_privileged_materialize_and_install_v2.c:917-960 | exactness by places and numbers alone: the root and every folder 0555, every listed file there with its blob and with 0555 exactly if it is executable, counts as expected |
| `ReleaseWalk.SealedTreeCountsTheSame` | scripts/n6_f464_privileged_materialize_and_install_v2.c:1063-1132 | a tree that sealing accepted is sealed throughout and gives the same counts when checked |
| `ReleaseWalk.SealingKeepsPlaces` | scripts/n6_f464_privileged_materialize_and_install_v2.c:1063-1132 | sealing changes no place, content or file mode |
| `ReleaseSealing.AcceptedExtractionPasses` | scripts/n6_f464_privileged_materialize_and_install_v2.c:1134-1289 | whatever the extractor accepted, once sealing accepts the folders too, passes the whole-release check with the counts found |
| `ReleaseSealing.ExtractAndVerify` | scripts/n6_f464_privileged_materialize_and_install_v2.c:1134-1289 | extract, seal and count: success means everything was extracted, and the result is the whole one if and only if the expected counts are the true ones, as they are when no directory read fails; it then holds exactly the files and folders unpacked, executables with mode 0555, other files with 0444; without failing calls archive, manifest, folders and counts decide |
| `ReleaseSealing.SealedIsLeftBehind` | scripts/n6_f464_privileged_materialize_and_install_v2.c:1063-1132 | sealing leaves every unpacked file with one link and mode 0555 if it is executable, 0444 if it is not, and every folder with 0555 |
| `ReleaseSealing.OnlyFoldersCanDiffer` | scripts/n6_f464_privileged_materialize_and_install_v2.c:1238-1286 | of an accepted extraction the number of files is right, so the counts agree exactly when the number of folders does |
| `ReleaseSealing.HeldTreeSeals` | scripts/n6_f464_privileged_materialize_and_install_v2.c:1063-1132 | an extracted tree can be sealed exactly when its folders have the expected owner and attributes |
| `ReleaseSealing.AcceptedFilesAreApart` | scripts/n6_f464_privileged_materialize_and_install_v2.c:1238-1256 | no accepted file is put over another: the tree has as many files as the manifest was expected to list |
| `ReleaseSealing.TreeExists` | scripts/n6_f464_privileged_materialize_and_install_v2.c:970-995 | any set of files and folders with all folders above them and usable names is held by some directory tree |
| `ReleaseSealing.AcceptedOutcomeHasATree` | scripts/n6_f464_privileged_materialize_and_install_v2.c:1134-1289 | for every accepted archive there is a staging directory that holds it and counts as unpacked |
| `Materializer.ReleaseRoot.Call` | scripts/n6_f464_privileged_materialize_and_install_v2.c:1464-1546 | between any two calls other processes may add free names; nothing the run or anybody else had is lost |
| `Materializer.ReleaseRoot.CheckHistory` | scripts/n6_f464_privileged_materialize_and_install_v2.c:1370-1445 | an earlier staging passes only while it is under its name, on its recorded inode and looks as recorded, and is as recorded if its directories can be read |
| `Materializer.LooksAreExact` | scripts/n6_f464_privileged_materialize_and_install_v2.c:543-557 | what a passing check leaves open: the first staging is as recorded exactly when it is empty, the others exactly when they have no links or special files and their true counts |
| `Materializer.ReleaseRoot.Preflight` | scripts/n6_f464_privileged_materialize_and_install_v2.c:1322-1462 | changes nothing; exit 0 only with the root sealed and all three earlier stagings checked; without failures the answer is that of the first check that does not hold, 64 to 69 |
| `Materializer.InPlaceMeans` | scripts/n6_f464_privileged_materialize_and_install_v2.c:543-557 | each earlier staging stands on its recorded inode; the first is private, 0700, and empty |
| `Materializer.ReleaseRoot.Stage` | scripts/n6_f464_privileged_materialize_and_install_v2.c:1464-1548 | whatever fails, what the run created stands under exactly one of its two names, and the log says which steps were reached |
| `Materializer.ReleaseRoot.Promote` | scripts/n6_f464_privileged_materialize_and_install_v2.c:1510-1548 | the target name is taken only when it is free; success means a release that passed its check and is exact if and only if the expected counts are the true ones |
| `Materializer.ReleaseRoot.SealStaging` | scripts/n6_f464_privileged_materialize_and_install_v2.c:1550-1587 | an unpromoted staging directory is kept and sealed, or the failure is recorded |
| `Materializer.ReleaseRoot.Restore` | scripts/n6_f464_privileged_materialize_and_install_v2.c:1588-1598 | an open window is followed by a logged attempt to restore the root; a failed attempt is recorded unless something was recorded before |
| `Materializer.ReleaseRoot.Finish` | scripts/n6_f464_privileged_materialize_and_install_v2.c:1550-1772 | the way out keeps everything, and a zero postcondition result means root, earlier stagings, and target or staging passed their checks |
| `Materializer.ReleaseRoot.Materialize` | scripts/n6_f464_privileged_materialize_and_install_v2.c:1307-1773 | the whole run: the exit code is the primary result if there is one, else the postcondition; without failures it is 64 to 69 for the first check before the window that does not hold (68 target taken, 69 earlier or own staging), 71 for a new directory not as expected, 72 for an archive that does not unpack, 0 otherwise; window implies restore attempt, and a failed one leaves mode 0755 and is recorded; the directory this run made is under staging or target, a name that was free; exit 0 implies sealed root, target bound to that directory, staging name gone, release and earlier stagings checked; the release is exact if and only if the expected counts are the true ones, an earlier staging is as recorded if it can be read; no name rebound or lost |
| `Materializer.UnpackedIsReleased` | scripts/n6_f464_privileged_materialize_and_install_v2.c:952-960 | a directory with all that was unpacked which passed the release check is the exact release if and only if the expected counts are the true ones |
| `Materializer.UnreadStagingPasses` | scripts/n6_f464_privileged_materialize_and_install_v2.c:517-540 | a run that exits 0 although the staging directory that should be empty is not: that directory cannot be read, and everything else is in order |
| `ArtifactRace.StepKeepsSound` | scripts/n3_hint_frequency8_source_provider.py:1144-1222 | from any sound state every call of any writer, failing or not, leads to a sound state |
| `ArtifactRace.StepKeepsInvariant` | scripts/n3_hint_frequency8_source_provider.py:1144-1222 | every call keeps a paired sound state paired except exactly the removal of a payload whose report is still there |
| `ArtifactRace.PairedExactly` | scripts/n3_hint_frequency8_source_provider.py:1144-1222 | for any number of writers, any schedule and any failures: every state has its report paired with the complete payload of the same writer exactly when no such removal happens |
| `ArtifactRace.PairedUnlessAbandoned` | scripts/n3_hint_frequency8_source_provider.py:1370-1414 | the same over failing calls: pairing is lost exactly when one writer first failed to identify or remove its report and later removed its payload |
| `ArtifactRace.ArtifactPairIsSafe` | scripts/n3_hint_frequency8_source_provider.py:1131-1234 | whatever fails, in every state a writer that returned "written" created both files and both are intact, and at most one writer ever does |
| `ArtifactProgress.ExactlyOneWrites` | scripts/n3_hint_frequency8_source_provider.py:1131-1234 | any number of writers of an empty minute, any interleaving, no failing call: once each has made fourteen calls exactly one has written the pair, byte for byte, and every other reused it or was blocked with nothing left behind |
| `ArtifactProgress.CreatorWrites` | scripts/n3_hint_frequency8_source_provider.py:1144-1234 | at any time of such a run a writer that finished has written if it created the payload, and has reused or is blocked if it did not |
| `ArtifactProgress.WritersFinish` | scripts/n3_hint_frequency8_source_provider.py:1131-1234 | whatever fails and whoever else moves, a writer that has made fourteen calls has finished |
| `ArtifactProgress.FailedWriterIsBlocked` | scripts/n3_hint_frequency8_source_provider.py:1144-1222 | after one failing call past the two looks a writer ends blocked and in no other way |
| `ArtifactProgress.LateWriterDecides` | scripts/n3_hint_frequency8_source_provider.py:1144-1170 | a writer that first looks after another one returned "written", and whose own calls work, reuses the pair if it meant to write the same and is blocked if not |
| `ArtifactProgress.TornWrite` | scripts/n3_hint_frequency8_source_provider.py:1188-1222 | a failing write may leave any number of its bytes; no other failing call touches a file |
| `ArtifactRace.ReusedPairStays` | scripts/n3_hint_frequency8_source_provider.py:1144-1170 | a reused pair is what the reusing writer meant to write and stays for ever, from a writer that returned "written", if no write of its report failed; reports are not empty and equal ones are about equal payloads |
| `ArtifactRace.ReusedPairVanishes` | scripts/n3_hint_frequency8_source_provider.py:1188-1222 | a run in which a writer returns "reused" and is left with neither file, after one late failing write by the other writer and a cleanup that passes |
| `ArtifactRace.CleanedAttemptLeavesNothing` | scripts/n3_hint_frequency8_source_provider.py:1370-1414 | a blocked attempt whose cleanup passed left neither file exactly when it could read back the identities of the files it created, whatever failed for others |
| `ArtifactRace.ReportFaultOrphans` | scripts/n3_hint_frequency8_source_provider.py:1370-1414 | a run with one failing identity call on the report: the writer ends with its cleanup reported as passed, and a report without payload is left |
| `ArtifactStore.FreshPairCloses` | scripts/n3p_current_source_fetch_provider.py:207-480 | a freshly written pair passes the inspector if and only if the payload carries its date and minute and the fetch report the same minute |
| `ArtifactStore.UndatedPairDoesNotClose` | scripts/n3p_current_source_fetch_provider.py:207-480 | a call whose date comes from its arguments alone writes a pair the inspector refuses |
| `ArtifactStore.LaterCallCloses` | scripts/n3p_current_source_fetch_provider.py:288-331 | a later call for that minute is accepted if and only if it has the same hashed rows, run, subscription and context |
| `ArtifactStore.WrittenInFull` | scripts/n3p_current_source_fetch_provider.py:207-392 | every field of the two documents that are written: one hash throughout, the row counts, the names, and each other |
| `ArtifactStore.ClosesInFull` | scripts/n3p_current_source_fetch_provider.py:395-480 | a pair passes inspection if and only if each of its fields is the one a call for the same hash would write |
| `ArtifactStore.Backend.Discard` | scripts/n3p_current_source_fetch_provider.py:509-545 | removes what this attempt created and could identify, the report first and the payload even if that failed; passes exactly when every removal it owes worked; files it does not own stay |
| `ArtifactStore.Backend.Create` | scripts/n3p_current_source_fetch_provider.py:333-392 | payload then report, each created only if absent; success is exactly the new pair; a failure whose cleanup passed leaves the directory as it was exactly when no created file lost its identity, that is unless the second call failed, or the fifth after four that worked |
| `ArtifactStore.Backend.Write` | scripts/n3p_current_source_fetch_provider.py:207-392 | a present pair is reused or refused and never touched; a different hash is refused; a pair is written only when both names are free; a cleaned failure leaves the directory as it was unless a created file lost its identity |
| `ArtifactStore.LostFileStays` | scripts/n3p_current_source_fetch_provider.py:333-392 | first writes with one failing identity call, on the payload or on the report: the cleanup passes and exactly that file stays |
| `ArtifactStore.Backend.Fetch` | scripts/n3p_current_source_fetch_provider.py:1054-1122 | the lineage decision comes first: a blocked candidate changes no file; without failures it is ready exactly for a new source or for one whose pair is there and closes, and then the pair on disk and the record of the fetch are given in every field |
| `ArtifactStore.Backend.Register` | scripts/n3p_current_source_fetch_provider.py:551-631 | a run is filed at most once; an existing registration is never altered and is accepted only with the same hash and no downstream use; a payload that claims outbox or metric writes is refused |
| `ArtifactStore.StepKeepsSound` | scripts/n3p_current_source_fetch_provider.py:1054-1122 | every fetch or registration, failing or not, keeps files, registrations, and the pair behind each of them |
| `ArtifactStore.RegisteredHashIsForever` | scripts/n3p_current_source_fetch_provider.py:551-631 | over any history a registered hash never changes and the pair at its recorded path carries it in every later state |
| `ArtifactStore.RefetchStaysPossible` | scripts/n3p_current_source_fetch_provider.py:2502-2549 | over any history a request that was fetched and registered can be fetched again: its run is known and its pair closes |
| `ArtifactStore.DifferentCandidateIsBlocked` | scripts/n3p_current_source_fetch_provider.py:2502-2549 | a candidate whose hash differs from its run's registered hash changes no file and no row |
| `ArtifactStore.TakenMinuteIsBlocked` | scripts/n3p_current_source_fetch_provider.py:288-331 | nor does a candidate for a minute whose pair belongs to other rows or another run |
| `ArtifactStore.LineageAcceptsWhatWasRegistered` | scripts/n3p_current_source_fetch_provider.py:2502-2549 | the lineage check accepts exactly what registering the candidate itself would have stored |
| `MinuteRows.Normalize` | scripts/n3p_current_source_fetch_provider.py:2010-2070 | the dictionary pass keeps the first admitted row of every key and counts every row once |
| `MinuteRows.SurvivorsAreDistinct` | scripts/n3_hint_frequency8_source_provider.py:2767-2833 | kept rows are admitted input rows with distinct keys |
| `MinuteRows.FirstOfItsKeySurvives` | scripts/n3_hint_frequency8_source_provider.py:2805-2827 | the first admitted row of every object and minute is kept |
| `MinuteRows.CountersConserveRows` | scripts/n3p_current_source_fetch_provider.py:2018-2063 | raw = kept + date-dropped + 11:30-dropped + collapsed + conflicts |
| `MinuteRows.ConflictsAreClashes` | scripts/n3p_current_source_fetch_provider.py:2052-2061 | a conflict is counted exactly when two admitted rows of one key differ materially |
| `MinuteRows.SameRowsSameConflict` | scripts/n3p_current_source_fetch_provider.py:2052-2061 | whatever the order of the rows |
| `MinuteRows.NormalizingTwice` | scripts/n3p_current_source_fetch_provider.py:2010-2070 | a second pass keeps everything and drops nothing |
| `MinuteRows.AllOnDateStay` | scripts/n3p_current_source_fetch_provider.py:2010-2070 | rows of the date, for different objects or minutes, all stay in order and no other counter moves, for either provider; for the second unless labelled 11:30 |
| `MinuteRows.NoneOffDateStays` | scripts/n3p_current_source_fetch_provider.py:2042-2044 | rows of other dates all go and are counted as that |
| `MinuteRows.NoneAtHalfPastElevenStays` | scripts/n3p_current_source_fetch_provider.py:2045-2048 | the second provider drops and counts the 11:30 rows of the date |
| `MinuteRows.TwoForOnePlace` | scripts/n3p_current_source_fetch_provider.py:2049-2063 | of two rows for one object and minute the first stays; the second is merged if the compared fields agree, which are listed, and is a conflict if not |
| `HintPipeline.AlignmentTrace` | scripts/n3_hint_frequency8_source_provider.py:2853-2919 | the status compares the target minute with the earliest of the objects' latest minutes, if every object has one |
| `HintPipeline.CommonIsEarliest` | scripts/n3_hint_frequency8_source_provider.py:2853-2919 | that minute is some object's latest one and no object's is earlier; without it some object has no row |
| `HintPipeline.Validate` | scripts/n3_hint_frequency8_source_provider.py:2629-2671 | each reason is reported exactly when its condition holds of the payload |
| `HintPipeline.FetchSource` | scripts/n3_hint_frequency8_source_provider.py:73-131 | every answer exactly when its check decides: wrong proof kind, the first missing dependency, scope not loaded, the first reason to refuse the scope, rows not fetched; then waiting, blocked with exactly the reasons that hold, or on to the writer |
| `HintPipeline.WriterSeesAlignedRows` | scripts/n3_hint_frequency8_source_provider.py:96-121 | when the writer is reached every scoped object has exactly one bar at the proof minute itself; none is later, off date, labelled 11:30 or of an object outside the scope; the proof time is the latest bar's; "after target" and "unavailable" cannot occur |
| `HintPipeline.FitReachesWriter` | scripts/n3_hint_frequency8_source_provider.py:73-131 | for bars of the trade date, different in object or minute, the writer is reached, with all of them, if and only if they are complete, unmarked and not at 11:30, cover exactly the scope and end in one common minute that no given time of that date precedes |
| `HintPipeline.ProofIsOnDate` | scripts/n3_hint_frequency8_source_provider.py:3449-3471 | the chosen proof time is on the trade date and no row is after it |
| `CurrentSource.NormalizeQuotes` | scripts/n3p_current_source_fetch_provider.py:3125-3145 | every quote that can be mapped gets its canonical time; the number of the others is returned |
| `CurrentSource.DeriveProofTime` | scripts/n3p_current_source_fetch_provider.py:3205-3223 | the derived time is some row's time and no row is later |
| `CurrentSource.LatestIsUnique` | scripts/n3p_current_source_fetch_provider.py:3205-3223 | there is only one such time |
| `CurrentSource.Validate` | scripts/n3p_current_source_fetch_provider.py:1921-2007 | each reason, from the rows or from the scope, is reported exactly when its condition holds |
| `CurrentSource.FetchRows` | scripts/n3p_current_source_fetch_provider.py:934-1041 | refused before validation exactly for an unmappable quote or, where the provider normalises the bars, a clash; otherwise the payload is the fetched quotes mapped and the bars to be used, and the answer is that of the first check that decides: stale midday quote, no time, time past the close, another minute than asked for, exactly the reasons that hold, or ready with that payload |
| `CurrentSource.DecidedByRows` | scripts/n3p_current_source_fetch_provider.py:934-1041 | the whole decision said of the fetched rows: stuck at noon, no time, past 15:00, not the four digits asked for, or ready exactly when every quote and bar is good and everything asked for is there |
| `CurrentSource.HhmmReads` | scripts/n3p_current_source_fetch_provider.py:2415-2426 | four digits are a minute's text if and only if they read as its hour and minute |
| `CurrentSource.HhmmNamesTheMinute` | scripts/n3p_current_source_fetch_provider.py:2415-2426 | the four digits compared with the minute asked for name one minute only |
| `CurrentSource.BuiltIsUnique` | scripts/n3p_current_source_fetch_provider.py:934-1041 | the fetched rows determine that payload |
| `CurrentSource.NormalizedSourceIsClean` | scripts/n3p_current_source_fetch_provider.py:1921-2070 | with the derived proof time the validator cannot report a row after it; where the provider normalised the bars it cannot report a duplicate or an 11:30 label either, and a date mismatch only for a quote |
| `CurrentSource.PostCloseNeedsABar` | scripts/n3p_current_source_fetch_provider.py:2429-2461 | the post-close blocker fires exactly when the latest row is an index or board row past the close, or there is no row and the time that came with the fetch is past it |
| `SessionClock.LandsInSession` | scripts/n3p_current_source_fetch_provider.py:3362-3412 | every time maps to a whole minute of 09:31-11:30 or 13:00-15:00 of the trade date |
| `SessionClock.TimesAreLabelled` | scripts/n3p_current_source_fetch_provider.py:3362-3412 | a time some seconds into a minute of a day is dated and labelled as that |
| `SessionClock.Monotone` | scripts/n3p_current_source_fetch_provider.py:3362-3412 | the mapping is monotone |
| `SessionClock.Idempotent` | scripts/n3p_current_source_fetch_provider.py:3362-3412 | and idempotent |
| `SessionClock.MovesForward` | scripts/n3p_current_source_fetch_provider.py:3362-3412 | it moves an in-session time forward by less than a minute |
| `SessionClock.CanonicalIsNearest` | scripts/n3p_current_source_fetch_provider.py:3362-3412 | it is the first session minute not before the quote, or in a break and after the close the last one before it |
| `SessionClock.NeverPastClose` | scripts/n3p_current_source_fetch_provider.py:3385-3400 | the result is on the trade date and not past 15:00 |
| `SessionClock.ReasonIsExact` | scripts/n3p_current_source_fetch_provider.py:3388-3402 | the mapping reason says where the quote stood and whether it moved |
| `Cumulative.CumulativeToMinutes` | scripts/n3_hint_frequency8_source_provider.py:3152-3188 | the loop with one dictionary entry per object yields each row's rise over that object's previous row |
| `Cumulative.ReferenceAt` | scripts/n3_hint_frequency8_source_provider.py:3152-3188 | each output is for its row's object, not negative, and at its minute, 13:00 standing as 11:30 |
| `Cumulative.ObjectsDoNotMix` | scripts/n3_hint_frequency8_source_provider.py:3152-3188 | however rows interleave, each object's output is that of its own rows alone |
| `Cumulative.MinutesRecoverTotals` | scripts/n3_hint_frequency8_source_provider.py:3152-3188 | the minutes added up are never below the cumulative amount, and equal it at every row exactly when it starts non-negative and never falls |
| `TreeDigest.FrameReadsBack` | scripts/check_n6_ai_shadow_release_readiness.py:1081-1083 | a field behind its eight-byte length reads back whatever follows |
| `TreeDigest.StreamDecodes` | scripts/check_n6_ai_shadow_release_readiness.py:1045-1078 | the stream decodes back to the four fields of every entry |
| `TreeDigest.StreamIsInjective` | scripts/check_n6_ai_shadow_release_readiness.py:1045-1078 | two entry lists with the same stream are the same list |
| `TreeDigest.StreamIdentifiesTree` | scripts/check_n6_ai_shadow_release_readiness.py:1040-1078 | in whatever order two trees are enumerated, their streams are equal exactly when their entries are |
| `TreeDigest.HashedStream` | scripts/check_n6_ai_shadow_release_readiness.py:1025-1078 | fails exactly when the root is missing, not owned or writable, or some entry is writable, a link that leaves the tree, a special file, not owned, over 256 MiB, or too long for its frame; otherwise it feeds exactly the stream of the sorted entries |
| `TreeDigest.EncodableMeans` | scripts/check_n6_ai_shadow_release_readiness.py:1045-1083 | which entries may be hashed, with the write bits, the size limit and the eight-byte frames as numbers |
| `TreeDigest.FieldsAreThese` | scripts/check_n6_ai_shadow_release_readiness.py:1045-1078 | the four fields of an entry: name, mode in octal digits, the word for its kind, link target or contents |
| `TreeDigest.FrameIsLengthAndField` | scripts/check_n6_ai_shadow_release_readiness.py:1081-1083 | eight bytes of length, and then the field |
| `TreeDigest.ListedByPath` | scripts/check_n6_ai_shadow_release_readiness.py:1001-1045 | an entry is listed exactly when no folder that cannot be listed stands above it in its path |
| `Lexical.FirstDifferenceDecides` | scripts/check_n6_ai_shadow_release_readiness.py:1039-1045 | names are ordered by their first difference, a prefix first |
| `TreeDigest.StreamIdentifiesListing` | scripts/check_n6_ai_shadow_release_readiness.py:1001-1045 | equal streams mean equal listings; equal trees when no entry is below a folder that cannot be listed |
| `TreeDigest.ClosedFolderHides` | scripts/check_n6_ai_shadow_release_readiness.py:1001-1045 | a read-only folder that cannot be listed may hold any file: the listing, and with it the stream, is that of the folder alone |
| `CompactDictionary.CollectStrings` | scripts/build_n6_ai_compact_field_dictionary.py:44-52 | collects exactly the strings among the values |
| `CompactDictionary.UnpackUndoesPack` | scripts/build_n6_ai_compact_field_dictionary.py:55-80 | unpacking undoes packing if and only if no integer is negative: only then is no index confused with an integer |
| `CompactDictionary.StringsAreIndexes` | scripts/build_n6_ai_compact_field_dictionary.py:55-80 | the string at position k becomes the number -1 - k and comes back from it; a number beyond the table stands for nothing |
| `CompactDictionary.SortedTable` | scripts/build_n6_ai_compact_field_dictionary.py:182-187 | the table lists exactly the strings, strictly sorted |
| `CompactDictionary.SemanticProjection` | scripts/build_n6_ai_compact_field_dictionary.py:83-139 | succeeds exactly when all header keys are there, over exactly the columns that occur |
| `CompactDictionary.ProjectionIsUnique` | scripts/build_n6_ai_compact_field_dictionary.py:83-139 | the relations determine the columns, so there is one projection |
| `CompactDictionary.ProjectionReadsBack` | scripts/build_n6_ai_compact_field_dictionary.py:83-139 | every attribute and field value reads back from the column layout, an absent one as null |
| `CompactDictionary.HeaderReadsBack` | scripts/build_n6_ai_compact_field_dictionary.py:102-125 | beside columns and relations the projection holds the values of the sixteen header keys and nothing else |
| `CompactDictionary.ApprovedProjection` | scripts/build_n6_ai_compact_field_dictionary.py:142-165 | the projection of the approved dictionary, with its counts computed anew |
| `CompactDictionary.ApprovedHoldsAllowedFields` | scripts/build_n6_ai_compact_field_dictionary.py:142-165 | the approved relations hold exactly the fields with an allowed usage, in order, none left empty |
| `CompactDictionary.ApprovedAreCutDown` | scripts/build_n6_ai_compact_field_dictionary.py:142-156 | every approved relation is a given one with exactly its usable fields, the usages named, and its count corrected; each given one with a usable field is there |
| `CompactDictionary.ApprovedCounts` | scripts/build_n6_ai_compact_field_dictionary.py:157-165 | the four counts of the approved header, and every other header value unchanged |
| `CompactDictionary.BuildCompact` | scripts/build_n6_ai_compact_field_dictionary.py:168-228 | what is built unpacks to the chosen projection and carries its version, sources, hashes, sorted strings and scope; it is built exactly when the guards hold, every key is there and that projection holds no negative integer |
| `CompactDictionary.UnpackChecks` | scripts/build_n6_ai_compact_field_dictionary.py:206-228 | a compact form unpacks exactly when both hashes are right, the table is sorted and without repetition, and every index is in it |
| `SqlSplit.SplitSqlColumns` | scripts/build_n6_ai_field_dictionary.py:853-880 | the scan returns the trimmed top-level segments, dropping only an empty last one |
| `SqlSplit.SegmentsRejoin` | scripts/build_n6_ai_field_dictionary.py:853-880 | the raw segments of any body, joined by commas, are the body |
| `SqlSplit.SplitUndoesJoin` | scripts/build_n6_ai_field_dictionary.py:853-880 | splitting the comma-join of trimmed definitions (quotes closed, parentheses balanced, no top-level comma) returns the list |
| `SqlSplit.WrittenColumnsSplit` | scripts/build_n6_ai_field_dictionary.py:853-880 | columns written from plain text, quoted strings with doubled quotes, and nested parentheses, joined by commas, are split into just those columns |
| `SqlSplit.EscapedQuoteIsOrdinary` | scripts/build_n6_ai_field_dictionary.py:858-868 | a quote right after a backslash neither opens nor closes a string |
| `SqlSplit.StripCutsSpace` | scripts/build_n6_ai_field_dictionary.py:869-879 | trimming cuts white space off both ends and nothing else |
| `Acceptance.NormalizeRow` | scripts/check_n6_ai_shadow_observation_acceptance.py:165-328 | a row is kept exactly when its essential fields are usable, and each finding is recorded exactly when it holds |
| `Acceptance.OpenTradeDates` | scripts/check_n6_ai_shadow_observation_acceptance.py:142-162 | the open dates, and a gap exactly for each of the four things that can be wrong: no list, an unreadable date at its index, order, repetition |
| `Acceptance.FindWindow` | scripts/check_n6_ai_shadow_observation_acceptance.py:399-411 | the backward loop finds the longest run to the end under the last fingerprint |
| `Acceptance.Evaluate` | scripts/check_n6_ai_shadow_observation_acceptance.py:413-463 | the window's counts, and a gap exactly when its threshold is missed |
| `Acceptance.BuildAcceptanceReport` | scripts/check_n6_ai_shadow_observation_acceptance.py:331-523 | the report states exactly the gaps of the evidence and of the window, all counts of the window, or no counts for an empty history, and is ready exactly when there is no gap |
| `Acceptance.ReadyIsEarned` | scripts/check_n6_ai_shadow_observation_acceptance.py:331-523 | ready means no row dropped, strict order, unique ids and keys, open dates, ten dates, fifty attempts, at most one invalid structure per hundred, no side effect in the window, and a risk verdict for every accepted decision |
| `Acceptance.ReadyExactly` | scripts/check_n6_ai_shadow_observation_acceptance.py:331-523 | ready if and only if the lists, counters and dates are good, every row is good for its status, rows strictly follow each other, and the last run under one fingerprint has ten dates, fifty attempts, at most one failed per hundred, no effect and no decision without a verdict; said of the raw rows |
| `Acceptance.CountsAreTheRows` | scripts/check_n6_ai_shadow_observation_acceptance.py:413-463 | the numbers a report states, counted in the rows themselves |
| `Acceptance.NewFingerprintIsNotReady` | scripts/check_n6_ai_shadow_observation_acceptance.py:399-447 | one more row under another fingerprint, usable or not, is never ready, whatever the history was before |

## Left out

- Real file descriptors, partial reads and writes, and closing: a read of a whole field or file succeeds or fails as one call.
- SHA-1, SHA-256 and git object hashing are uninterpreted functions; owner, group, access-list and attribute checks are one flag per node.
- Directory trees are values that methods return, not linked objects updated in place; what a hard link to a directory would do is not captured.
- Between extraction calls other processes add names only in the release root, never inside the staging directory.
- The partial tree a failed extraction leaves behind: of inputs that cannot be accepted it is any tree, and when a call fails on acceptable ones it is taken to be the complete tree; only its later sealing is modelled.
- One failure pattern covers the directory reads below one inode; entries are delivered in one order, the same in every walk.
- JSON text, float rounding and NaN: documents are values and amounts are exact numbers; a document file is an object or unreadable.
- Artifact path text: a pair is named by root, date and minute, so two such names never spell the same path.
- The stub behind registration stores the given hash, counts and path with one passed quality item, or stores nothing.
- The inspector and the idempotency classification of the hint provider, its projection writer and its database snapshots.
- The adapters that fetch rows, and the current source's check of its scope's upstream statuses.
- Rows without a bar time: both providers treat them by their raw label text.
- Sorting is by code units; file names that are not valid UTF-8 are outside the digest model.
- `field_record` and `build_dictionary`, the plan, dry-run and condition scripts, the readiness gate besides the tree digest, and the backfill script, which are wrappers or flat conjunctions.
