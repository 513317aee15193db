# photo-organizer, modelled in Dafny

photo-organizer sorts a directory of photographs into an archive. For each
supported image it:

- reads the creation date from EXIF data (Pillow, then exifread, then the
  file's modification time);
- renames the image `YYYY-MM-DD_HH-MM-SS.ext`;
- moves or copies it under `archive/YYYY/YYYY_MM`, or renames it in place
  in rename-only mode.

Copies are verified by checksum. A name already taken by different content
gets a suffix from `_001` to `_999`. Files already in the archive are
skipped. A ledger of processed files makes a second run a no-op.

Beside the organizer the program has:

- a drive tool, which indexes backup drives, compares two drive indexes,
  synchronises them and backs the archive up onto them;
- per-directory settings, kept in an in-memory map and saved to JSON files.

This project models those parts and proves what they promise.

## Modules

| Dafny module | file | models |
|---|---|---|
| Wrappers, Text, Paths | wrappers.dfy, text.dfy, paths.dfy | `Option`; the `str` methods the program uses; `pathlib` paths as component sequences, with `suffix`, `stem`, `parent` and the order `sorted` uses |
| Configuration | config.dfy | `Config` and its normalisation of extensions |
| Metadata | metadata.dfy | `_parse_exif_date` and the `strptime` matching it relies on |
| MetadataExtractor | metadata_extractor.dfy | the strategy chain of `get_creation_date` and the EXIF tag lookups |
| MetadataExamples | metadata_examples.dfy | the concrete date strings of the metadata tests |
| Filesystem | filesystem.dfy | the filesystem as a map from path to bytes plus a set of directories, with `mkdir`, `copy2`, `unlink` and `rename` |
| FileUtils | file_utils.dfy | `FileOperations`: safe copy, move and rename, checksums and backups |
| Organizer | organizer.dfy | `PhotoOrganizer`: target names, collisions, the ledger, `process_file` and `process_directory` |
| Drives | drive_index.dfy | drive indexes, their comparison, space checks, batching and backup selection |
| Cancellation, DriveSync | drive_sync.dfy | the cancellation flag and `DriveSynchronizer` |
| DriveScan | drive_scan.dfy | `DriveScanner`: incremental scan, reading an index back, the comparison loop |
| DirectoryConfigs | directory_config.dfy | the configuration dataclasses, `_path_to_filename` and `DirectoryConfigManager` |

## How the model represents the program

**Paths**
- A path is a sequence of components. An absolute path starts with the
  component "/", and the empty sequence is ".".
- `Path.resolve()` joins a relative path to a working directory given as
  a parameter.

**Filesystem and hashes**
- The filesystem is a class whose fields are updated in place.
- SHA-256 and MD5 are arbitrary functions from bytes to digest, fixed when
  the filesystem is created.
- Failures are injected per call by a `Faults` value:
  - `mkdir` refused;
  - `copy2` raising, writing a truncated file, or writing other bytes;
  - `unlink` refused.
- Unreadable files make checksums raise.

**Program state**
- The processed-files ledger and the drive index tables are maps that
  replace an entry on insert.
- A dictionary or SQLite query iterated in the source is visited in
  sorted order.
- Cancellation is a flag object. Each read is counted, and the flag reads
  as set from a chosen read onward.
- The wall clock (`datetime.now()`), free space (`os.statvfs`) and what
  Pillow and exifread extract are parameters.

**Where the model follows the code rather than the documentation or the tests**
- `_is_in_archive_structure` accepts only the hyphenated `YYYY-MM`
  segment (photo_organizer/organizer.py:244-257). The program's own
  layout is `YYYY/YYYY_MM` (photo_organizer/organizer.py:111), so the
  predicate never recognises the archive it builds. Containment in the
  output directory is what keeps archived files out.
  `Organizer.OwnLayoutNotRecognised` states this exactly.
- `rename_only` is read in photo_organizer/organizer.py:104 but `Config`
  does not declare it (photo_organizer/config.py:12-18). The model gives
  `Config` a boolean `renameOnly` that defaults to false.
- tests/test_directory_config.py:308-314 expects `C:\Users\Photos` to
  become `C_Users_Photos`. The code replaces ":" and "\\" separately, so
  it yields `C__Users_Photos`. `DirectoryConfigs.DriveLetterFilename`
  proves what the code does.
- `_path_to_filename` maps different directories to the same file name,
  for instance "/a b" and "/a_b" (`DirectoryConfigs.FilenamesCanCollide`).
  Their JSON files then overwrite each other, while the in-memory map
  keeps them apart.

## Model

| member | source | states |
|---|---|---|
| Configuration.NormalizeExtension | photo_organizer/config.py:25 | a normalised extension has no leading dot and no upper-case letter |
| Configuration.NormalizeExtensionIdempotent | photo_organizer/config.py:25 | normalising an extension twice gives what normalising once gives |
| Configuration.NormalizeExtensionFixes | photo_organizer/config.py:25 | an extension that is already lower-case and dot-free is left as it is |
| Configuration.NormalizeAll | photo_organizer/config.py:25 | the list keeps its length, and every entry ends with no leading dot and no upper-case letter |
| Configuration.NormalizeAllIdempotent | photo_organizer/config.py:25 | normalising a normalised extension list again changes nothing |
| Configuration.ParsePath | photo_organizer/config.py:27-29 | a string becomes a path of non-empty, non-"." components without "/", absolute exactly when the string starts with "/" |
| Configuration.NewConfig | photo_organizer/config.py:20-29 | no extension list gives the eight defaults; a given list is stored entry by entry as its lower-cased, dot-stripped form, so every configured extension is supported; every stored extension is normalised; a string output directory is parsed as `Path(s)` and a `Path` one kept; the flags are stored as given |
| Configuration.DefaultExtensionsNormalized | photo_organizer/config.py:22 | the default list is already normalised |
| Configuration.DefaultConfig | photo_organizer/config.py:12-18 | output "archive", the eight extensions, no dry run, move mode, no backups, checksums on, suffix limit 999 |
| Configuration.NewConfigIdempotent | photo_organizer/config.py:20-29 | running `__post_init__` again on a finished config changes nothing |
| Configuration.SupportedExtensionMeaning | photo_organizer/config.py:31-33 | a file is supported iff its suffix, lower-cased and without its dot, is in the list (the empty suffix matches only "") |
| Configuration.SuffixNormalized | photo_organizer/config.py:33 | `suffix.lower().lstrip('.')` of a path suffix is the lower-cased text after its one dot |
| Metadata.Strptime | photo_organizer/metadata.py:137 | a parse that succeeds yields a valid calendar date-time (day within the month, leap years, hour < 24) |
| Metadata.FirstParse | photo_organizer/metadata.py:135-139 | the loop returns a date iff one of the formats parses the string, and every such date is valid |
| Metadata.FirstParseAt | photo_organizer/metadata.py:135-139 | the first format that parses decides the result |
| Metadata.ParseExifDate | photo_organizer/metadata.py:121-146 | any date returned is a valid calendar date-time |
| Metadata.ParseExifDateCascade | photo_organizer/metadata.py:125-139 | the string is stripped, then the EXIF, dashed, EXIF date-only and dashed date-only formats are tried in that order |
| Metadata.MatchRender | photo_organizer/metadata.py:128-133 | matching a format reads back exactly the fields rendering it wrote, and leaves the rest of the text |
| Metadata.StrptimeRender | photo_organizer/metadata.py:137 | `strptime` inverts rendering with the same format |
| Metadata.ParseFormatExif | photo_organizer/metadata.py:128-129 | every valid date written as `%Y:%m:%d %H:%M:%S` parses back to itself |
| Metadata.StrptimeFormatExif | photo_organizer/metadata.py:129 | the EXIF format alone parses its rendering back |
| Metadata.ParseFormatDash | photo_organizer/metadata.py:130 | every valid date written as `%Y-%m-%d %H:%M:%S` parses back to itself |
| Metadata.ParseRenderedDash | photo_organizer/metadata.py:130 | as above, for a string given as a variable |
| Metadata.StrptimeFormatDash | photo_organizer/metadata.py:130 | the dashed format alone parses its rendering back |
| Metadata.ParseBySecond | photo_organizer/metadata.py:135-139 | a string the EXIF format rejects and the dashed one accepts gets the dashed parse |
| Metadata.ParseByDateFormat | photo_organizer/metadata.py:135-139 | a string both full formats reject gets the first date-only parse that succeeds |
| Metadata.ParseDateOnly | photo_organizer/metadata.py:131-132 | a date written in either date-only format parses to that day at midnight |
| Metadata.StrptimeDateOnly | photo_organizer/metadata.py:131-132 | each date-only format parses its rendering to midnight |
| Metadata.ApplyEveryField | photo_organizer/metadata.py:129-130 | the full formats set every field |
| Metadata.ApplyDateOnly | photo_organizer/metadata.py:131-132 | the date-only formats leave the time at its midnight default |
| Metadata.OtherSeparatorFails | photo_organizer/metadata.py:128-133 | a format whose year is followed by one separator rejects text with another character there |
| Metadata.TooShort | photo_organizer/metadata.py:137 | text shorter than the number of format items never parses |
| Metadata.TooShortForTime | photo_organizer/metadata.py:129-130 | text of fewer than 11 characters matches neither full format |
| Metadata.RenderLength | photo_organizer/metadata.py:128-133 | a rendered format has the length its items fix |
| MetadataExamples.ParseExifDateExample | tests/test_metadata.py:24-31 | "2023:12:25 14:30:45" parses to 2023-12-25 14:30:45 |
| MetadataExamples.ParseDashDateExample | tests/test_metadata.py:24-31 | "2023-12-25 14:30:45" parses to the same date-time |
| MetadataExamples.ParseExifDateOnlyExamples | tests/test_metadata.py:33-43 | "2023:12:25" and "2023-12-25" parse to midnight of that day |
| MetadataExamples.ParseExifDateRejects | tests/test_metadata.py:46-57 | "invalid date", "", "None" and "2023/12/25" give no date |
| MetadataExamples.SlashedDate | photo_organizer/metadata.py:141-142 | a slashed date gives no date |
| MetadataExamples.NoLeadingYear | photo_organizer/metadata.py:128-133 | a stripped string that does not start with four digits gives no date |
| MetadataExtractor.Methods | photo_organizer/metadata.py:35-44 | Pillow first if installed, then exifread if installed, the filesystem always last |
| MetadataExtractor.FirstDate | photo_organizer/metadata.py:46-57 | a date is returned iff some strategy finds one, and it is the first strategy's that does; raising counts as not found |
| MetadataExtractor.PillowFirst | photo_organizer/metadata.py:31-57 | with Pillow installed, a date from Pillow wins |
| MetadataExtractor.FileSystemOnly | photo_organizer/metadata.py:31-57 | with neither library, the result is the modification time or nothing |
| MetadataExtractor.NothingFound | photo_organizer/metadata.py:55-57 | when every available strategy fails, the result is None |
| MetadataExtractor.FirstEntry | photo_organizer/metadata.py:75-79 | the first non-empty value stored under a tag, present iff the tag carries one |
| MetadataExtractor.PillowLookup | photo_organizer/metadata.py:59-84 | Pillow answers only when one of its three tags carries a value |
| MetadataExtractor.PreferredTagDecides | photo_organizer/metadata.py:69-79 | the first tag in preference order that carries a value decides Pillow's answer |
| MetadataExtractor.ExifReadLookup | photo_organizer/metadata.py:86-109 | exifread answers only when one of its three names carries a value |
| MetadataExtractor.PreferredNameDecides | photo_organizer/metadata.py:96-104 | the first name in preference order that carries a value decides exifread's answer |
| MetadataExtractor.Extract | photo_organizer/metadata.py:31-119 | the date comes from Pillow, exifread or the modification time, and a readable modification time guarantees a date |
| Filesystem.FileSystem.constructor | photo_organizer/file_utils.py:35 | the filesystem holds the given files, directories and unreadable set |
| Filesystem.FileSystem.Mkdirs | photo_organizer/file_utils.py:23 | `mkdir(parents=True, exist_ok=True)` adds the path and its ancestors, or fails and changes nothing |
| Filesystem.FileSystem.Copy2 | photo_organizer/file_utils.py:35 | `copy2` writes the source's bytes (or the injected bytes) at the target and changes nothing else |
| Filesystem.FileSystem.Unlink | photo_organizer/file_utils.py:42 | `unlink(missing_ok)` removes the file, succeeds on a missing file only with `missing_ok`, and refuses a directory |
| Filesystem.FileSystem.Rename | photo_organizer/file_utils.py:104 | `rename` moves the bytes to the target and removes the source, or fails and changes nothing |
| FileUtils.FileOperations.constructor | photo_organizer/file_utils.py:15-17 | holds the configuration and the filesystem |
| FileUtils.FileOperations.CalculateChecksum | photo_organizer/file_utils.py:120-136 | the SHA-256 or MD5 digest of the file's bytes; raises for another algorithm or an unreadable file |
| FileUtils.FileOperations.VerifyFileIntegrity | photo_organizer/file_utils.py:138-145 | true iff the checksum can be computed and equals the expected one |
| FileUtils.FileOperations.IntegrityOfOwnChecksum | photo_organizer/file_utils.py:138-145 | a readable file passes exactly for its own digest |
| FileUtils.FileOperations.SafeCopy | photo_organizer/file_utils.py:19-50 | the source is never changed, and nothing besides the target is; a success, dry run included, has created the parent directory and its ancestors, and a dry run writes no file; a verified copy carries the source's checksum; a mismatch removes the target; with no fault the target receives the source's bytes |
| FileUtils.FileOperations.SafeMove | photo_organizer/file_utils.py:52-89 | a failed move leaves the source byte-identical; the source disappears only in a reported move; a success, dry run included, has created the parent directory, and a dry run writes no file; a verified move carries the source's checksum; nothing besides source and target changes; with no fault the bytes end up at the target alone |
| FileUtils.FileOperations.SafeRename | photo_organizer/file_utils.py:91-118 | dry run changes nothing; success moved the original bytes; a failure either changed nothing or came after the rename, which is not undone |
| FileUtils.FileOperations.CreateBackup | photo_organizer/file_utils.py:147-171 | nothing when backups are off; never overwrites or removes a file; the result is the first free name among `name.backup`, `name.backup.1`, …, and holds the file's bytes |
| FileUtils.FileOperations.FreeBackupPath | photo_organizer/file_utils.py:157-163 | the loop stops at a free name, and every name before it exists |
| FileUtils.BackupNameInjective | photo_organizer/file_utils.py:157-162 | different counters give different backup names |
| FileUtils.BackupCandidatesCount | photo_organizer/file_utils.py:160-163 | there are as many candidate names as counter values tried |
| FileUtils.TakenCandidatesBound | photo_organizer/file_utils.py:160-163 | the probing loop ends, since only finitely many names are taken |
| Organizer.StampShape | photo_organizer/organizer.py:99-112 | the date stamp starts with a digit and contains neither "." nor "/" |
| Organizer.StampRoundTrip | photo_organizer/organizer.py:99-112 | the stamp `YYYY-MM-DD_HH-MM-SS` parses back to its date-time |
| Organizer.StampInjective | photo_organizer/organizer.py:99-112 | different date-times get different stamps |
| Organizer.GenerateTargetPath | photo_organizer/organizer.py:99-112 | the name is the stamp plus the lower-cased suffix, under `output_dir/YYYY/YYYY_MM`, or in the source's own directory when renaming only |
| Organizer.TargetNameParts | photo_organizer/organizer.py:99-112 | the target's stem is the stamp and its suffix the lower-cased original, and the stem parses back to the date |
| Organizer.TargetInjective | photo_organizer/organizer.py:99-112 | two images with the same suffix and different dates never share a target |
| Organizer.TargetKeepsSupport | photo_organizer/organizer.py:99-112 | the target has a supported extension iff the source does |
| Organizer.OwnLayoutNotRecognised | photo_organizer/organizer.py:244-257 | a generated target is "in archive structure" iff the output directory itself already has a hyphenated year/month pair |
| Organizer.HyphenLayoutRecognised | photo_organizer/organizer.py:244-257 | a file under `YYYY/YYYY-MM/` is recognised |
| Organizer.Resolve | photo_organizer/organizer.py:279-283 | resolving against an absolute working directory gives an absolute path |
| Organizer.IsInsideArchiveDir | photo_organizer/organizer.py:236-242 | for absolute paths, true iff the archive path is a prefix of the file path |
| Organizer.TargetInsideArchive | photo_organizer/organizer.py:99-112 | every target generated outside rename-only mode lies inside the resolved output directory |
| Organizer.CandidatesDistinct | photo_organizer/organizer.py:114-130 | the `_001`…`_999` candidates are pairwise distinct |
| Organizer.Tally | photo_organizer/organizer.py:303-324 | a result increments exactly one of processed/duplicates/skipped/errors, chosen by its action and reason |
| Organizer.PhotoOrganizer.constructor | photo_organizer/organizer.py:18-25 | holds the configuration, filesystem, date source, working directory and loaded ledger |
| Organizer.PhotoOrganizer.Checksum | photo_organizer/organizer.py:49-55 | the SHA-256 of a readable file; raises otherwise |
| Organizer.PhotoOrganizer.IsAlreadyProcessed | photo_organizer/organizer.py:57-80 | processed iff the file exists, the ledger has its exact path, and the stored checksum equals the current one; a checksum error is reported as such |
| Organizer.PhotoOrganizer.MarkAsProcessed | photo_organizer/organizer.py:82-97 | replaces the ledger entry for the path, after which the file counts as processed |
| Organizer.PhotoOrganizer.HandleExistingFile | photo_organizer/organizer.py:132-147 | no target means no conflict; equal checksums mean a duplicate; otherwise a name conflict; a checksum error raises |
| Organizer.PhotoOrganizer.DuplicateMeansSameBytes | photo_organizer/organizer.py:132-147 | with a collision-free hash, "duplicate" means the two files hold the same bytes |
| Organizer.PhotoOrganizer.FindSafeTargetPath | photo_organizer/organizer.py:114-130 | a free target is kept; otherwise the first free `_iii` candidate, all before it taken; raises iff all 999 are taken; the result never exists |
| Organizer.PhotoOrganizer.ProcessFile | photo_organizer/organizer.py:149-234 | the checks run in the source's order on the state before the call; a success goes to the generated target when it is free, otherwise to the first free `_NNN` candidate; non-error refusals change nothing; the ledger changes only after a real transfer; no other file is touched; copy mode or failure leaves the source byte-identical; a verified transfer leaves the recorded checksum at the target, a faithful one the source's bytes; outside rename-only mode every directory it creates lies inside the output directory or is an ancestor of it |
| Organizer.PhotoOrganizer.Prepare | photo_organizer/organizer.py:161-196 | the checks of `process_file` in the source's order: either the result that stops the file, which is not a success and is decided by the state, or a target that is free and is the file's place; only a supported, unrecorded file with a creation date and no duplicate at its target gets one |
| Organizer.PhotoOrganizer.DecidedCounters | photo_organizer/organizer.py:161-191 | a file is counted as skipped exactly when its extension is unsupported, or it has no target (dated layout or no creation date) and is neither recorded nor unreadable; it is counted as a duplicate exactly when it is supported and recorded, or has a target holding a file with its checksum |
| Organizer.PhotoOrganizer.ClassStable | photo_organizer/organizer.py:161-191 | from one state to another that keeps every file, creates nothing at the path and keeps every recording, the skip verdict is the same and a file turned away without writing stays so |
| Organizer.PhotoOrganizer.MadeDirsPlaced | photo_organizer/file_utils.py:19-23 | the directories `mkdir(parents=True)` makes for a generated target are inside the output directory or ancestors of it |
| Organizer.PhotoOrganizer.PlacedUnique | photo_organizer/organizer.py:114-130 | a generated target leads to exactly one place |
| Organizer.PhotoOrganizer.FirstFreeUnique | photo_organizer/organizer.py:124-127 | only one candidate is free with every earlier one taken |
| Organizer.PhotoOrganizer.PlacedInsideArchive | photo_organizer/organizer.py:99-130 | outside rename-only mode that place lies inside the resolved output directory |
| Organizer.CandidateInsideArchive | photo_organizer/organizer.py:114-130 | every `_NNN` candidate of a generated target lies inside the resolved output directory |
| Organizer.PhotoOrganizer.Transfer | photo_organizer/organizer.py:197-232 | the transfer step of `process_file`: the action taken, the source's checksum recorded, the ledger row written only after a real transfer; the target then exists, holds the recorded checksum when verified and the source's bytes when the device wrote faithfully; a move removes the source, a copy keeps it |
| Organizer.PhotoOrganizer.RecordedMeansProcessed | photo_organizer/organizer.py:161-171 | a file is recorded iff it is supported and the ledger says it is already processed |
| Organizer.PhotoOrganizer.OutsideArchive | photo_organizer/organizer.py:278-294 | the kept files are exactly the listed files outside the resolved output directory, still sorted |
| Organizer.PhotoOrganizer.ProcessDirectory | photo_organizer/organizer.py:259-326 | the listed files are exactly the input's files outside the output directory, sorted; each adds one to exactly one counter; unlisted files, the archive among them, keep their bytes, and the ledger changes only at listed paths; in copy mode nothing existing changes, a run without errors leaves every listed file settled and a settled tree sees nothing processed; a fully processed tree is left alone and counted as duplicates; new directories lie inside or above the output directory; when the output directory's ancestors exist, the copy-mode skip count is judged on the final state, a run without errors leaves every listed file to be turned away without writing, and such a tree is left untouched |
| Organizer.PhotoOrganizer.ProcessCounted | photo_organizer/organizer.py:298-324 | one file adds one to the total; a recorded file adds a duplicate and changes nothing; other files and other ledger rows are kept; a settled file is never counted as processed, and in copy mode a file that met no error ends settled; it is counted as skipped exactly when the state before decides so; a file turned away without writing changes nothing and adds neither a processed file nor an error; in copy mode a file that met no error would be turned away without writing by a second call |
| Organizer.PhotoOrganizer.TallyStep | photo_organizer/organizer.py:298-324 | what `process_file` states about one result, with the counter it increments, gives the per-file facts of the loop |
| Organizer.PhotoOrganizer.ProcessAll | photo_organizer/organizer.py:298-324 | the loop's counters add up to the number of files; files outside the list and ledger rows outside it are kept; after a full copy-mode run every file is recorded; in copy mode every file recorded before counts as a duplicate; new directories lie inside or above the output directory; in copy mode, for files outside the output directory whose ancestors all exist, the skip count is the number of files the state at the end skips, a run without errors leaves every file to be turned away without writing, and a list that would all be turned away so leaves the state and the processed and error counts untouched |
| Organizer.PhotoOrganizer.CopyAtEnd | photo_organizer/organizer.py:298-324 | the copy-mode loop invariant over the whole list gives the counts `process_directory` promises in copy mode |
| Organizer.PhotoOrganizer.OrganizeTwice | photo_organizer/organizer.py:166-171 | two copy-mode runs over the same input list the same files; when the first met no error, the second processes nothing and counts at least the first run's processed files as duplicates; when moreover every ancestor of the output directory existed before the first run, the second lists exactly the same files, counts `(0, skipped, duplicates + processed, 0)` of the first run's counts, and changes no file, directory or ledger row |
| Organizer.PhotoOrganizer.CountSkip | photo_organizer/organizer.py:298-324 | the number of files of a list `process_file` skips in a state: at most the list's length, and equal to it exactly when it skips them all |
| Organizer.PhotoOrganizer.CountSkipStable | photo_organizer/organizer.py:298-324 | two states that skip the same files of a list count the same skips |
| Organizer.PhotoOrganizer.ListingKept | photo_organizer/organizer.py:268-273 | a run that keeps every file and adds files and directories only inside or above the output directory keeps every listed path listed, and adds to the listing outside the output directory only new ancestors of it |
| Organizer.PhotoOrganizer.SameListing | photo_organizer/organizer.py:275-294 | two sorted listings that agree outside the output directory give the same list of files |
| Organizer.PhotoOrganizer.SecondSettled | photo_organizer/organizer.py:166-171 | after a first run without errors, every file the second run lists is settled, and the second finds at least as many recorded files as the first |
| Paths.SortedUnique | photo_organizer/organizer.py:275-276 | `sorted(set(...))` has one result: two sorted sequences holding the same paths are equal |
| Drives.ComparePartition | photo_organizer/drive_comparison.py:606-631 | identical, different, only-on-1 and only-on-2 are disjoint and together cover both drives' paths |
| Drives.CompareCounts | photo_organizer/drive_comparison.py:606-631 | the four group sizes add up to the number of distinct paths |
| Drives.InSyncMeansEqualIndex | photo_organizer/drive_comparison.py:388-403 | nothing to copy and nothing different iff both indexes hold the same paths with the same checksums |
| Drives.SplitBatches | photo_organizer/drive_comparison.py:185-188 | batches laid end to end give the list back; all are full but the last, none empty |
| Drives.MaxWorkers | photo_organizer/drive_comparison.py:178-181 | `min(4, ceil(n / 20))` workers: between 1 and 4 when there is work |
| Drives.SelectForBackupAsWritten | photo_organizer/drive_comparison.py:1135-1149 | selects the archive files missing or different under "archive/" on the drive, and sums their sizes |
| Drives.FixedKeyIgnoresTarget | photo_organizer/drive_comparison.py:1080-1096 | a file already present with equal checksum in an existing "Photos" directory is still selected |
| Drives.SelectForBackup | photo_organizer/drive_comparison.py:1135-1149 | selects exactly the archive files missing or different under the directory copied into, in order, and sums their sizes |
| Drives.BackupThenUpToDate | photo_organizer/drive_comparison.py:1196-1199 | once the selected files are recorded in the drive's index, no archive file needs a backup |
| DriveSync.DriveSynchronizer.constructor | photo_organizer/drive_comparison.py:311-314 | holds the filesystem and the cancellation flag |
| Cancellation.CancelEvent.IsSet | photo_organizer/drive_comparison.py:439 | a read of the flag, counted |
| DriveSync.DriveSynchronizer.SafeCopyFile | photo_organizer/drive_comparison.py:330-358 | only the target changes; a reported copy matches the source's checksum; a mismatch removes the target; with no fault the target receives the source's bytes |
| DriveSync.DriveSynchronizer.CopyMissing | photo_organizer/drive_comparison.py:438-457 | stops only at a read that sees the cancellation; each attempt is a copy or an error; the copied files keep the list's order, so none is counted twice, and without an error they are exactly the files attempted; bytes are the copied files' sizes; dry run copies everything and writes nothing; each copied file is at its target, with its source's checksum when the drives are apart; only targets are written |
| DriveSync.DriveSynchronizer.CopyTurn | photo_organizer/drive_comparison.py:440-457 | one copy keeps every copy made before it, and adds its own when it succeeds |
| DriveSync.DeliveredKept | photo_organizer/drive_comparison.py:440-457 | writing the next target of a sorted list keeps every earlier copy |
| DriveSync.DriveSynchronizer.CopyDirection | photo_organizer/drive_comparison.py:433-483 | one direction copies only missing files, once each and in order, and writes nothing else; without a cancellation every missing file is copied or counted as an error, and without an error as well every missing file is at its target; the copied files are at their targets, with the bytes reported, and on drives apart each holds the checksum its source had |
| DriveSync.DriveSynchronizer.CopyBothWays | photo_organizer/drive_comparison.py:422-493 | differing files are skipped and counted; without cancellation every missing file is a copy or an error; the bytes are those of the files copied each way; on drives apart the second direction keeps the first one's copies, and every copy holds its source's original checksum; without a cancellation or an error every missing file is copied, so on drives apart both drives then hold every file |
| DriveSync.DriveSynchronizer.SyncDrives | photo_organizer/drive_comparison.py:372-500 | `{}` and no change iff cancelled at the start or either space check fails; otherwise the statistics above, with the files copied each way; only missing files are written; on drives apart every copy is present with its source's checksum; after a sync without cancellation or error every file missing from a drive was copied to it, and on drives apart each drive then holds all of them with the originals' checksums |
| DriveSync.ApartNotTarget | photo_organizer/drive_comparison.py:443-444 | on drives apart, a path under one drive is never a copy target on the other |
| DriveSync.SharedNeverTargeted | photo_organizer/drive_comparison.py:388-389 | a path present on both drives is never written by the sync |
| DriveScan.DriveDatabase.constructor | photo_organizer/drive_comparison.py:103-116 | the index database with its table |
| DriveScan.RelativeTo | photo_organizer/drive_comparison.py:67 | `relative_to` succeeds iff the drive is a prefix, and joining back gives the path |
| DriveScan.ScanRow | photo_organizer/drive_comparison.py:66-80 | a row for a readable file below the drive with a non-empty checksum, holding its size and checksum |
| DriveScan.BatchRowsMeaning | photo_organizer/drive_comparison.py:59-88 | a batch's rows are exactly the rows of its scannable files |
| DriveScan.ExistingSizesMeaning | photo_organizer/drive_comparison.py:138-145 | the existing-files map holds exactly the sizes recorded for this drive |
| DriveScan.RescanMembers | photo_organizer/drive_comparison.py:151-166 | a file is rescanned iff it has no recorded entry of the same size |
| DriveScan.PendingMeaning | photo_organizer/drive_comparison.py:124-166 | unindexed visible files are scanned; files indexed with their current size are not |
| DriveScan.UpsertMeaning | photo_organizer/drive_comparison.py:239-246 | `INSERT OR REPLACE` keeps rows it does not touch and stores every inserted row |
| DriveScan.DriveScanner.ProcessFileBatch | photo_organizer/drive_comparison.py:53-88 | the rows of the files read before a cancellation, in order |
| DriveScan.DriveScanner.LoadExisting | photo_organizer/drive_comparison.py:138-145 | the sizes recorded for this drive |
| DriveScan.DriveScanner.FilterUnchanged | photo_organizer/drive_comparison.py:147-166 | the files to rescan, and the others counted as skipped |
| DriveScan.DriveScanner.PendingFiles | photo_organizer/drive_comparison.py:120-166 | the visible files of the drive that need a rescan |
| DriveScan.DriveScanner.ProcessBatches | photo_organizer/drive_comparison.py:190-232 | the rows of a leading part of the batches, all of them without a cancellation |
| DriveScan.DriveScanner.ScanDriveToDb | photo_organizer/drive_comparison.py:90-258 | a missing drive returns 0; otherwise the rows of the pending files, all of them unless cancelled, are upserted and counted |
| DriveScan.ScanIndexesPending | photo_organizer/drive_comparison.py:260-281 | after a scan, reading the index back gives every scanned file's size and checksum |
| DriveScan.DriveScanner.CompareIndexes | photo_organizer/drive_comparison.py:602-631 | without a cancellation the loop yields the four-way comparison |
| DriveScan.ComparePrefixMeaning | photo_organizer/drive_comparison.py:604-631 | the loop over all paths gives the four groups of the comparison |
| DirectoryConfigs.PathString | photo_organizer/directory_config.py:192 | `str(path)` of a well-formed path is never empty |
| DirectoryConfigs.PathRoundTrip | photo_organizer/directory_config.py:75-78 | parsing the string of a well-formed path gives the path back |
| DirectoryConfigs.PathStringInjective | photo_organizer/directory_config.py:192 | different well-formed paths have different strings |
| DirectoryConfigs.NewBackupDrive | photo_organizer/directory_config.py:24-26 | a non-empty mount string becomes a path, an empty one None, None stays None; other fields are kept |
| DirectoryConfigs.MountPathRoundTrip | photo_organizer/directory_config.py:229-232 | a mount path written as text and read back is the same path |
| DirectoryConfigs.NewDirectoryConfig | photo_organizer/directory_config.py:74-93 | strings become paths; missing extensions, drives and Google settings get defaults; `updated_at` is now; a missing `created_at` equals it |
| DirectoryConfigs.DefaultsFilledIn | tests/test_directory_config.py:115-146 | a config built from a path alone has the defaults and equal timestamps |
| DirectoryConfigs.Sanitise | photo_organizer/directory_config.py:186-187 | the per-character rewrite leaves no "/", "\\", ":", " " or "~" |
| DirectoryConfigs.ReplaceUnsafeIsSanitise | photo_organizer/directory_config.py:186-187 | the five replaces, in order, equal the per-character rewrite |
| DirectoryConfigs.SanitiseSafe | photo_organizer/directory_config.py:186-187 | text without unsafe characters is left alone |
| DirectoryConfigs.PathToFilename | photo_organizer/directory_config.py:182-188 | no unsafe character, and no "_" at either end |
| DirectoryConfigs.PathToFilenameIdempotent | photo_organizer/directory_config.py:182-188 | sanitising a sanitised name changes nothing |
| DirectoryConfigs.AbsoluteFilename | photo_organizer/directory_config.py:182-188 | an absolute path's name is its components joined by "_" |
| DirectoryConfigs.HomeFilename | photo_organizer/directory_config.py:187 | "~/x" becomes "home_x" |
| DirectoryConfigs.DriveLetterFilename | photo_organizer/directory_config.py:186 | "d:\\x" becomes "d__x" |
| DirectoryConfigs.FilenamesCanCollide | photo_organizer/directory_config.py:182-188 | two different directories can share a config file name |
| DirectoryConfigs.KeysDistinct | photo_organizer/directory_config.py:192 | different resolved directories have different keys |
| DirectoryConfigs.DirectoryConfigManager.constructor | photo_organizer/directory_config.py:99-116 | the manager starts from the loaded map |
| DirectoryConfigs.DirectoryConfigManager.GetConfig | photo_organizer/directory_config.py:190-193 | the config stored under the resolved path, or None iff there is none |
| DirectoryConfigs.DirectoryConfigManager.SetConfig | photo_organizer/directory_config.py:195-219 | stamps `updated_at`, stores under the resolved path before writing, and reports the write's outcome; the entry stays on failure |
| DirectoryConfigs.DirectoryConfigManager.ListConfigurations | photo_organizer/directory_config.py:236-238 | a copy holding the same keys and values |
| DirectoryConfigs.DirectoryConfigManager.RemoveConfig | photo_organizer/directory_config.py:240-263 | an unknown path returns False and changes nothing; a known one is removed; afterwards the lookup gives None |
| DirectoryConfigs.SetKeepsOthers | photo_organizer/directory_config.py:202 | storing one directory's config leaves every other directory's lookup unchanged |

## Left out

- JSON (de)serialisation, `_load_index`, `_save_index`, `_load_config_file` and `create_example_configs`. The disk write of `set_config` and `remove_config` is an outcome passed in.
- DirectoryConfigs.DirectoryConfigManager.SetConfig: the dataclass is a value, so the caller's own object is not updated in place. The stamped config is returned instead.
- `Path` parsing of "//" roots and ".." components; `resolve()` does not follow symlinks or collapse "..".
- `datetime.now()`, `os.statvfs`, file modification times and what Pillow and exifread read from an image are parameters.
- SHA-256 and MD5 internals and chunked reads: the digests are arbitrary functions of the bytes.
- `copy2` metadata preservation; file permissions beyond the injected refusals.
- SQLite: connections, schema, indexes and `scanned_at`. Tables are maps, queries are visited in sorted order.
- Threads, `ThreadPoolExecutor`, locks, signal handlers and future timeouts. Batches run one after another, in order.
- DriveScan.DriveScanner.ProcessBatches: results are collected in batch order, not completion order.
- Cancellation is a read counter on a flag. Nothing sets it concurrently.
- Logging, progress rates, report truncation and emoji summaries.
- The archive-directory discovery in `backup_archive_to_drives` (photo_organizer/drive_comparison.py:957-1034) and its choice of `archive_target` (1080-1096): the directory is a parameter.
- The copy loop of `backup_archive_to_drives` (1175-1200) is modelled by its effect on the drive index (`Drives.Recorded`), not step by step.
- The scan-and-report parts of `compare_backup_drives` and `sync_backup_drives` other than the comparison loop.
- photo_organizer/main.py and photo_organizer/logger.py are not part of this model.
- `_init_processed_db`: the ledger is loaded as a map.
- Text.Lower, Text.IsSpace and the digit matcher of `strptime` know ASCII only. Python's `str.lower()`, `str.strip()` and `\d` also act on other Unicode letters, spaces and digits (photo_organizer/config.py:25, photo_organizer/metadata.py:125-137).
- Paths have no canonical form: a relative path and the absolute path of the same file are different keys of the filesystem map, while on disk they are one file. The model does not identify them, so an input that names one file both ways is seen as two files.
- Filesystem.FileSystem.Copy2: `shutil.copy2` given a directory as destination copies into it; the model refuses a directory destination, which no caller passes.
- Filesystem.FileSystem.Mkdirs: with creation refused, it fails whenever some ancestor is missing from the directories, the root "/" included; the model does not assume that the root always exists.
- Filesystem.FileSystem: no invariant ties the files to the directories (every file's parent a directory, no path both). Operations take the state as it is, so states no disk can reach are not excluded.
- Organizer.PhotoOrganizer.OrganizeTwice: the second run's counts are stated only when the first run met no error, since a file whose copy failed is tried again; the two listings are compared on the files present after both runs.
- Organizer.PhotoOrganizer.OrganizeTwice: the exact second-run counts and the unchanged state are stated only when every ancestor of the output directory exists before the first run. Otherwise `mkdir(parents=True)` may create such an ancestor whose name matches an extension (say `x.jpg`); the second run's glob lists it, and checksumming that directory raises there.
- DriveSync.DriveSynchronizer.CopyDirection: completeness is stated for a run that reports no error; a run without injected faults is not shown to report none, because a copy also fails when the target's directory cannot be created.
- DriveSync.DriveSynchronizer.CopyBothWays and DriveSync.DriveSynchronizer.SyncDrives: the presence and checksum of each copy at the end of the sync are stated for drives apart (distinct, neither inside the other); for nested drives one direction can overwrite the other's copies and sources.
- DriveSync.DriveSynchronizer.CopyMissing: a copy that verification did not cover (the source's checksum is empty) is stated to exist, not to hold particular bytes.

## Findings

| source | as written | input that shows it | evidently intended | confidence | as-written member | corrected member |
|---|---|---|---|---|---|---|
| photo_organizer/drive_comparison.py:1137 | every archive file is looked up under "archive/" in the drive index, although the files are copied into `archive_target`, which may be an existing "Archive", "photos" or "Photos" directory (1080-1096) | archive `{x.jpg: (1, h)}`, drive index `{Photos/x.jpg: (1, h)}` with a `Photos` directory: x.jpg is selected and copied again | look files up under the directory the backup copies into, so that a drive that already holds the archive there is up to date | medium, not executed | Drives.SelectForBackupAsWritten | Drives.SelectForBackup |
