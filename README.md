# AAR cache engine of the Android plugin

This project is a Dafny model of the cache that the Android support of the
Blaze/Bazel IntelliJ plugin keeps for unpacked Android library archives (AARs).
The cache sits in `aar_libraries` under the project data directory. Each
declared archive is unpacked into a *raw directory* named
`<base name of its key>_<hex hash of the key>.aar`. That directory holds the
archive's non-jar entries, an `aar.timestamp` stamp file and the library's
merged jar at `jars/classes_and_libs_merged.jar`. The raw directories of one
library key are then merged, first writer wins, into the *merged directory*
`<key>_<hex hash of the key>.mergedaar`. The read side of the IDE looks there.

A synchronization pass runs in this order:

1. Create the root; a FULL sync clears it first.
2. Scan the root into the in-memory state.
3. Build the declared work items.
4. Let the differ pick the stale ones.
5. Fetch their archives and jars.
6. Unpack them.
7. Delete every non-raw directory.
8. Merge all items by library key.
9. On an INCREMENTAL sync, prune the raw directories nobody declares.
10. Scan again.

Modules, one per source file plus shared ones:

- `Wrappers`, `Collections` and `Text` hold Option/Result, small set and map facts, and string and path helpers.
- `JavaInts` is Java's `String.hashCode` (the 31-polynomial wrapped to 32 bits at each step) and `Integer.toHexString` (the unsigned value in lower-case hex). Both are concrete, with the round-trip and injectivity of the hex rendering.
- `Blaze` holds the artifacts and libraries the cache is given: local outputs, remote outputs, source files and other local files.
- `Records` is the `AarAndJar` value record.
- `Naming` is `AarDirectoryNameUtils`.
- `Disk` is an abstract filesystem seen from the cache root. The root is absent or a map from child name to a directory. A directory is a map from relative path to bytes, plus the modification time given to its stamp file. It comes with the few operations the engine performs, on a class `Fs`.
- `Caching` is `AarCache`: a class whose `cacheState` field is replaced by each scan.
- `Unpacking` is `Unpacker`.
- `Syncing` is `UnpackedAars`: the declared-items loop, the download-set loop, the class with `refresh`, `onSync`, `refreshFiles` and `initialize`, and the read-side lookups.

Everything that can fail at run time is an explicit input:

- whether `mkdirs` creates the root;
- whether the clear fails;
- where one archive's unpacking throws (deleting the old directory, part-way through extraction, creating the stamp file, or setting its time);
- which children cannot be deleted;
- which copies of which file from which raw directory fail;
- how the waits on the batches end (all complete, or interrupted, or failing at one batch).

The thread pool becomes a loop over a set whose element is chosen freely in each step, so no order is assumed. Every merge fact is stated so that it holds in any order.

## Model

| member | source | states |
|---|---|---|
| JavaInts.HashCode | aswb/src/com/google/idea/blaze/android/libraries/AarDirectoryNameUtils.java:43 | the hash is a signed 32-bit int |
| JavaInts.HashBitsIsWrappedPolynomial | aswb/src/com/google/idea/blaze/android/libraries/AarDirectoryNameUtils.java:43 | wrapping at every step equals the whole 31-polynomial taken modulo 2^32 |
| JavaInts.ToHexString | aswb/src/com/google/idea/blaze/android/libraries/AarDirectoryNameUtils.java:48 | 1 to 8 lower-case hex digits, no leading zero except for "0", reading back as the unsigned value of the int |
| JavaInts.HexRoundTrip | aswb/src/com/google/idea/blaze/android/libraries/AarDirectoryNameUtils.java:48 | parsing the hex rendering of a natural number gives the number back |
| JavaInts.CanonicalHexIsHex | aswb/src/com/google/idea/blaze/android/libraries/AarDirectoryNameUtils.java:48 | a numeral with at least one digit and no leading zero is the rendering of its own value |
| JavaInts.HexNumeralUnique | aswb/src/com/google/idea/blaze/android/libraries/AarDirectoryNameUtils.java:48 | two such numerals with the same value are the same string, so the rendering is the only one |
| JavaInts.ToHexStringInjective | aswb/src/com/google/idea/blaze/android/libraries/AarDirectoryNameUtils.java:48 | two ints render the same exactly when they are equal |
| Naming.GetArtifactKey | aswb/src/com/google/idea/blaze/android/libraries/AarDirectoryNameUtils.java:30-38 | an output artifact gives its key, a source artifact its file path, any other kind an "unhandled type" error |
| Naming.FileName | aswb/src/com/google/idea/blaze/android/libraries/AarDirectoryNameUtils.java:42 | the result is the longest suffix of the path with no `/` in it: the whole path, or the text after its last `/` |
| Naming.NameWithoutExtension | aswb/src/com/google/idea/blaze/android/libraries/AarDirectoryNameUtils.java:42 | the name cut just before its last `.`; the whole name exactly when it has no `.` |
| Naming.GenerateAarDirectoryName | aswb/src/com/google/idea/blaze/android/libraries/AarDirectoryNameUtils.java:47-49 | the result starts with name + "_"; after that come 1 to 8 hex digits without a leading zero that parse back to the unsigned hash |
| Naming.GenerateAarDirectoryNameDetermined | aswb/src/com/google/idea/blaze/android/libraries/AarDirectoryNameUtils.java:47-49 | any string of that shape is the generated name, so the contract fixes it as name + "_" + the hex of the hash |
| Naming.GetAarDirName | aswb/src/com/google/idea/blaze/android/libraries/AarDirectoryNameUtils.java:40-45 | a raw name exists exactly when the artifact has a key |
| Naming.AarDirNameShape | aswb/src/com/google/idea/blaze/android/libraries/AarDirectoryNameUtils.java:40-45 | a raw name ends in `.aar` and starts with the key's file name without extension, then `_` |
| Naming.AarDirNameCollision | aswb/src/com/google/idea/blaze/android/libraries/AarDirectoryNameUtils.java:40-45 | two archives share a raw name exactly when their keys have the same base name and the same hash |
| Naming.AarDirNameDeterministic | aswb/src/com/google/idea/blaze/android/libraries/AarDirectoryNameUtils.java:40-45 | archives with equal keys get equal raw names, whatever their kind |
| Naming.SameFileNameDifferentDirectories | aswb/src/com/google/idea/blaze/android/libraries/AarDirectoryNameUtils.java:41-43 | `a/x` and `b/x` have the same base name but different raw names, because the hash covers the whole key |
| Naming.SplitAtLastUnderscore | aswb/src/com/google/idea/blaze/android/libraries/AarDirectoryNameUtils.java:48 | `a_b` splits back uniquely when `b` holds no underscore |
| Naming.GenerateAarDirectoryNameInjective | aswb/src/com/google/idea/blaze/android/libraries/AarDirectoryNameUtils.java:47-49 | distinct (name, hash) pairs give distinct directory stems |
| Naming.GetJarFile | aswb/src/com/google/idea/blaze/android/libraries/AarDirectoryNameUtils.java:51-57 | the jar is `<dir>/jars/classes_and_libs_merged.jar`, whatever the original jar was called |
| Naming.GetResDir | aswb/src/com/google/idea/blaze/android/libraries/AarDirectoryNameUtils.java:59-61 | the resource directory is `<dir>/res` |
| Records.Create | aswb/src/com/google/idea/blaze/android/libraries/AarAndJar.java:26-35 | each accessor gives back what was passed in; only the jar may be absent |
| Records.CreateEquality | aswb/src/com/google/idea/blaze/android/libraries/AarAndJar.java:24-27 | two records are equal exactly when aar, jar and library key are all equal |
| Disk.Fs.DeleteRoot | aswb/src/com/google/idea/blaze/android/libraries/AarCache.java:120-126 | a recursive delete of the root removes it, or leaves it as it was when it throws |
| Disk.Fs.DeleteChild | aswb/src/com/google/idea/blaze/android/libraries/AarCache.java:110 | a recursive delete of a child removes exactly that child, or changes nothing when it throws |
| Disk.Fs.MakeChild | aswb/src/com/google/idea/blaze/android/libraries/Unpacker.java:115 | `mkdirs` on a child adds an empty directory if there is none, and creates the root if needed |
| Disk.Fs.WriteFiles | aswb/src/com/google/idea/blaze/android/libraries/Unpacker.java:118-122 | extraction adds the given files to the directory, overwriting same-named ones |
| Disk.Fs.CreateNewFile | aswb/src/com/google/idea/blaze/android/libraries/Unpacker.java:145 | `createNewFile` adds an empty file only when there is none |
| Disk.Fs.SetStampTime | aswb/src/com/google/idea/blaze/android/libraries/Unpacker.java:150-151 | the stamp's time becomes the given time and nothing else changes |
| Disk.Fs.WriteFile | aswb/src/com/google/idea/blaze/android/libraries/Unpacker.java:127-133 | a replacing copy writes one file in one child and nothing else |
| Caching.AarCache.constructor | aswb/src/com/google/idea/blaze/android/libraries/AarCache.java:41-49 | the cache starts with an empty state |
| Caching.AarCache.CreateCacheDir | aswb/src/com/google/idea/blaze/android/libraries/AarCache.java:55-64 | an existing root gives true with nothing created; otherwise the result is whether `mkdirs` created an empty root |
| Caching.AarCache.ReadFileState | aswb/src/com/google/idea/blaze/android/libraries/AarCache.java:76-88 | with a root, the result and the new state have exactly the root's children as keys, each mapped to `<cacheDir>/<child>/aar.timestamp`; without one, the result is empty and the state is kept |
| Caching.AarCache.RemovedKeys | aswb/src/com/google/idea/blaze/android/libraries/AarCache.java:90-98 | the removed keys are exactly the tracked keys that are not kept and end in `.aar` |
| Caching.AarCache.RemoveMissingFiles | aswb/src/com/google/idea/blaze/android/libraries/AarCache.java:90-100 | deletes exactly the removed keys (except undeletable ones); one task per removed key, targeting `<cacheDir>/<key>`; the state is unchanged |
| Caching.AarCache.DeleteCacheEntries | aswb/src/com/google/idea/blaze/android/libraries/AarCache.java:102-116 | one task per directory; each one is deleted unless its delete throws |
| Caching.AarCache.ClearCache | aswb/src/com/google/idea/blaze/android/libraries/AarCache.java:118-128 | the state is empty afterwards even if the delete failed; the root is gone unless the delete failed |
| Caching.AarCache.GetCachedAarDir | aswb/src/com/google/idea/blaze/android/libraries/AarCache.java:130-138 | None exactly when the state is empty; otherwise `<cacheDir>/<name>`, whether or not the name is tracked |
| Caching.AarCache.GetCachedKeys | aswb/src/com/google/idea/blaze/android/libraries/AarCache.java:140-142 | exactly the tracked keys, each with its stamp path; empty exactly when every lookup fails |
| Unpacking.GetAarDirName | aswb/src/com/google/idea/blaze/android/libraries/Unpacker.java:74-79 | the merged name starts with the whole library key + "_", ends in `.mergedaar` and never in `.aar` |
| Unpacking.MergedNameIsNotRaw | aswb/src/com/google/idea/blaze/android/libraries/Unpacker.java:72-79 | no merged directory name ends in `.aar`, so pruning never picks a merged directory |
| Unpacking.MergedDirNameInjective | aswb/src/com/google/idea/blaze/android/libraries/Unpacker.java:221-226 | two library keys share a merged directory exactly when they are equal |
| Unpacking.UnpackedDirContents | aswb/src/com/google/idea/blaze/android/libraries/Unpacker.java:108-139 | a delete that throws keeps the old directory. Otherwise nothing old survives and the directory holds only archive entries, the stamp and the jar. An unreadable archive leaves it empty. Extraction that throws keeps exactly the non-jar entries written, with their contents and no stamp. Otherwise: every non-jar entry with its content; the stamp unless its creation threw, and then only an archive entry of that name; the stamp time equal to the archive's time exactly for a local archive whose stamping did not fail; the jar exactly when a readable one exists, with its bytes |
| Unpacking.UnpackInto | aswb/src/com/google/idea/blaze/android/libraries/Unpacker.java:112-139 | the delete, extraction, stamp and jar copy, run step by step against the filesystem, leave the named child equal to `UnpackedDir` of what was there and every other child untouched |
| Unpacking.UnpackAarToDir | aswb/src/com/google/idea/blaze/android/libraries/Unpacker.java:108-139 | only the archive's raw directory changes, and it becomes `UnpackedDir` of what was there |
| Unpacking.CreateStampFile | aswb/src/com/google/idea/blaze/android/libraries/Unpacker.java:141-157 | only the stamp of that one directory changes: it is created unless that throws, and it gets the archive's time only for a local archive whose stamping did not fail |
| Unpacking.WellKeyedNamesAreRaw | aswb/src/com/google/idea/blaze/android/libraries/Unpacker.java:109 | every work item's name ends in `.aar` |
| Unpacking.UnpackAarsToDir | aswb/src/com/google/idea/blaze/android/libraries/Unpacker.java:90-101 | exactly the updated keys' raw directories are rewritten; every other child is untouched |
| Unpacking.RemoveNonAarDirectories | aswb/src/com/google/idea/blaze/android/libraries/Unpacker.java:179-202 | deletes exactly the children whose names do not end in `.aar` (except undeletable ones); nothing when the root cannot be listed |
| Unpacking.GroupByLibrary | aswb/src/com/google/idea/blaze/android/libraries/Unpacker.java:211-217 | one group per library key of all items (not only updated ones); a group holds exactly the archives of that key's items, one per item |
| Unpacking.CopiedInto | aswb/src/com/google/idea/blaze/android/libraries/Unpacker.java:238-270 | existing files are never overwritten; each missing source path arrives with the source content unless this source's copy of it fails; nothing else appears |
| Unpacking.CopyOrderKeepsNames | aswb/src/com/google/idea/blaze/android/libraries/Unpacker.java:238-270 | copying two sources in either order yields the same set of paths |
| Unpacking.CopyOrderIrrelevantWithoutClash | aswb/src/com/google/idea/blaze/android/libraries/Unpacker.java:238-270 | two sources with no shared path give the same directory in either order |
| Unpacking.CopyFile | aswb/src/com/google/idea/blaze/android/libraries/Unpacker.java:245-252 | one file of a copying task: the destination directory is made, the file is copied only when it is missing there and its copy does not fail, and nothing else changes (`CopyOne`) |
| Unpacking.CopyFiles | aswb/src/com/google/idea/blaze/android/libraries/Unpacker.java:238-270 | the destination becomes `CopiedInto` of it and the source's files; every other child is untouched |
| Unpacking.RunCopyTasks | aswb/src/com/google/idea/blaze/android/libraries/Unpacker.java:219-233 | run in any order, each destination holds what it had plus every file some source copies without failing, with one such source's content (first writer wins); other children are untouched |
| Unpacking.MergeTasks | aswb/src/com/google/idea/blaze/android/libraries/Unpacker.java:219-232 | the tasks are exactly one (raw directory, merged directory of its key) pair per item |
| Unpacking.LibraryTasks | aswb/src/com/google/idea/blaze/android/libraries/Unpacker.java:227-231 | the tasks of one library: each of its items' raw directories into its merged directory |
| Unpacking.TasksDisjoint | aswb/src/com/google/idea/blaze/android/libraries/Unpacker.java:221-230 | no copy source is also a copy destination |
| Unpacking.TasksDests | aswb/src/com/google/idea/blaze/android/libraries/Unpacker.java:220-226 | the destinations are exactly the merged names of the library keys |
| Unpacking.TasksSources | aswb/src/com/google/idea/blaze/android/libraries/Unpacker.java:227-230 | the sources of a merged directory are exactly the raw names of its library's items |
| Unpacking.RunIsMerge | aswb/src/com/google/idea/blaze/android/libraries/Unpacker.java:208-235 | running those tasks merges each library's raw directories into its merged directory and changes nothing else |
| Unpacking.MergeAars | aswb/src/com/google/idea/blaze/android/libraries/Unpacker.java:208-235 | every library's merged directory keeps what it had and gains each file one of its members copies without failing. Each raw directory is copied into exactly one merged directory. No other child changes |
| Unpacking.UnpackKeepsOthers | aswb/src/com/google/idea/blaze/android/libraries/Unpacker.java:90-101 | unpacking every updated archive keeps an existing root, leaves every raw directory as `UnpackedDir` of what was there (or untouched when not updated) and changes no directory that is not named `*.aar` |
| Unpacking.CleanupKeepsRaw | aswb/src/com/google/idea/blaze/android/libraries/Unpacker.java:179-202 | deleting the non-`*.aar` directories after unpacking keeps every raw directory as the unpacking left it and removes every other deletable directory |
| Unpacking.Unpack | aswb/src/com/google/idea/blaze/android/libraries/Unpacker.java:82-88 | the three steps run in order, each only if the previous wait did not stop the pass. Raw directories end as the unpacking left them. Non-raw ones are deleted unless undeletable or merged. Every library's merged directory holds what the cleanup left plus its members' files |
| Unpacking.MergeKeepsOthers | aswb/src/com/google/idea/blaze/android/libraries/Unpacker.java:82-88 | the merge after the cleanup leaves raw directories and unmerged non-raw children as the earlier steps left them |
| Unpacking.MergeKeepsRaw | aswb/src/com/google/idea/blaze/android/libraries/Unpacker.java:221-231 | the merge writes no raw directory |
| Syncing.ItemOf | aswb/src/com/google/idea/blaze/android/libraries/UnpackedAars.java:296-300 | the item of a library carries its archive, its jar (absent exactly when it has none) and its key |
| Syncing.GetArtifactsToCache | aswb/src/com/google/idea/blaze/android/libraries/UnpackedAars.java:281-304 | the loop computes exactly the declared-items fold, including its error |
| Syncing.FailureSticks | aswb/src/com/google/idea/blaze/android/libraries/UnpackedAars.java:291-302 | once an archive raises, the whole loop raises that error |
| Syncing.CollectFails | aswb/src/com/google/idea/blaze/android/libraries/UnpackedAars.java:291-302 | the loop raises exactly when some AAR library's archive cannot be named, with the first such archive's error |
| Syncing.ArtifactsToCacheFails | aswb/src/com/google/idea/blaze/android/libraries/UnpackedAars.java:291-302 | building the items raises exactly when some AAR library's archive is neither an output nor a source, naming the first one |
| Syncing.LastDeclarer | aswb/src/com/google/idea/blaze/android/libraries/UnpackedAars.java:298-300 | the item under a name comes from the last AAR library with that name |
| Syncing.CollectCovers | aswb/src/com/google/idea/blaze/android/libraries/UnpackedAars.java:291-302 | every AAR library's name is among the items |
| Syncing.ArtifactsToCacheEntries | aswb/src/com/google/idea/blaze/android/libraries/UnpackedAars.java:285-303 | only AAR libraries contribute; each lands under its archive's raw name, and the last one under a name wins |
| Syncing.DeclaredItemsWellKeyed | aswb/src/com/google/idea/blaze/android/libraries/UnpackedAars.java:298-300 | each item sits under the raw name of its own archive |
| Syncing.DeclaredLibraryIsMerged | aswb/src/com/google/idea/blaze/android/libraries/UnpackedAars.java:298-300 | a library that no later library shadows under the same raw name gets its merged directory |
| Syncing.AarOutputs | aswb/src/com/google/idea/blaze/android/libraries/UnpackedAars.java:125-127 | the differ's input: every item's archive, under the same names |
| Syncing.ArtifactsToDownload | aswb/src/com/google/idea/blaze/android/libraries/UnpackedAars.java:132-142 | an artifact is fetched exactly when it is the archive or the jar of an updated key |
| Syncing.DownloadSetMembers | aswb/src/com/google/idea/blaze/android/libraries/UnpackedAars.java:132-142 | the download set holds the archive of each updated key and its jar when it has one, and nothing from other keys |
| Syncing.RemoteArtifacts | aswb/src/com/google/idea/blaze/android/libraries/UnpackedAars.java:145-149 | only the remote artifacts of the download set go to the prefetcher |
| Syncing.CacheFiles | aswb/src/com/google/idea/blaze/android/libraries/UnpackedAars.java:123 | the scan handed to the differ has exactly the root's children as keys |
| Syncing.PassOutcome | aswb/src/com/google/idea/blaze/android/libraries/UnpackedAars.java:170-178 | the pass is done exactly when no wait it reaches stops it; it is cancelled exactly when a wait it reaches is interrupted |
| Syncing.GetFallbackFile | aswb/src/com/google/idea/blaze/android/libraries/UnpackedAars.java:220-226 | a local artifact gives its own file; a remote one is an error naming it |
| Syncing.UnpackedAars.constructor | aswb/src/com/google/idea/blaze/android/libraries/UnpackedAars.java:75-89 | the cache directory is `aar_libraries` under the project data directory, with an empty state |
| Syncing.UnpackedAars.Initialize | aswb/src/com/google/idea/blaze/android/libraries/UnpackedAars.java:267-275 | a scan: the state follows the root's children, or is kept when there is no root |
| Syncing.UnpackedAars.Refresh | aswb/src/com/google/idea/blaze/android/libraries/UnpackedAars.java:112-179 | see `Refreshed`. A root that cannot be created changes nothing. An archive without a key ends the pass after the first scan, with nothing fetched. Otherwise: the remote archives and jars of the updated keys are fetched; the pass always goes on to unpack; the root follows the pass's effect up to the batch wait that stops it; the state is rescanned whatever the stop |
| Syncing.UnpackedAars.RunPass | aswb/src/com/google/idea/blaze/android/libraries/UnpackedAars.java:156-169 | after the fetch (whose result is ignored): unpack, then pruning when asked. Only raw directories that are tracked, not declared and deletable are pruned |
| Syncing.UnpackedAars.OnSync | aswb/src/com/google/idea/blaze/android/libraries/UnpackedAars.java:91-110 | a FULL sync clears the root and the state before the pass; only an INCREMENTAL pass prunes |
| Syncing.UnpackedAars.RefreshFiles | aswb/src/com/google/idea/blaze/android/libraries/UnpackedAars.java:249-265 | nothing happens when no project is loaded or the project has remote outputs; otherwise a pass that never prunes |
| Syncing.UnpackedAars.GetAarDir | aswb/src/com/google/idea/blaze/android/libraries/UnpackedAars.java:213-217 | None exactly when the state is empty; otherwise the library's merged directory |
| Syncing.UnpackedAars.GetResourceDirectory | aswb/src/com/google/idea/blaze/android/libraries/UnpackedAars.java:207-211 | None exactly when the lookup fails; otherwise `res` under the merged directory |
| Syncing.UnpackedAars.GetClassJar | aswb/src/com/google/idea/blaze/android/libraries/UnpackedAars.java:181-204 | None without a library jar. Otherwise: the merged jar under the merged directory when the lookup succeeds; when it fails, the jar's own file, or an error for a remote jar |
| Syncing.PruneKeepsMerge | aswb/src/com/google/idea/blaze/android/libraries/UnpackedAars.java:161-168 | pruning removes only undeclared, deletable raw directories that the scan saw; unpacked and merged directories survive it intact |
| Syncing.PrunedCacheHoldsDeclared | aswb/src/com/google/idea/blaze/android/libraries/UnpackedAars.java:161-168 | after a completed pruning pass, every raw directory left is declared, unless its deletion failed |
| Syncing.UnprunedCacheKeepsRawDirs | aswb/src/com/google/idea/blaze/android/libraries/UnpackedAars.java:103 | a pass that does not prune never removes a raw directory, however it ends |
| Syncing.ClearedCacheHoldsUpdatedOnly | aswb/src/com/google/idea/blaze/android/libraries/UnpackedAars.java:97-99 | after a pass from a missing root (as after FULL's clear), every raw directory is declared and was picked by the differ |
| Syncing.ReadPathIsMergePath | aswb/src/com/google/idea/blaze/android/libraries/UnpackedAars.java:213-217 | the read side looks up the same directory the merge writes for the library key, and that name is never pruned |

## Left out

- Thread pool and futures: each batch is a loop over a set in an unspecified order. A batch whose wait is interrupted or fails is taken to have run all its tasks; the tasks still in flight at that moment are not modelled.
- The fetch wait: `FutureUtil` is not part of this model. The pass ignores the wait's result and always goes on to unpack. A failed fetch appears only as remote artifacts missing from the given contents. Any cancellation or error the helper records on the context is not part of the pass's outcome.
- Real I/O:
  - zip extraction, temporary files, streams and `Files.copy` are not modelled;
  - archive and jar contents are given maps, and an artifact missing from them cannot be read;
  - listing a missing source directory during a merge yields no files;
  - a child's directory listing never fails, except for a missing root;
  - `mkdirs` inside unpacking and copying always succeeds;
  - a delete that throws leaves the directory as it was (partial deletion is not modelled).
- Directories: only the cache root and its direct children are modelled. Paths inside a child are flat strings, and `jars/` is part of the path.
- `FileCacheDiffer.findUpdatedOutputs` is not part of this model. It is a function parameter that must return a subset of the names it is given.
- `RemoteArtifactPrefetcher`, `BlazeLibraryCollector` and `ArtifactLocationDecoder` are not part of this model. Their results are inputs: the fetched set is returned, and artifacts arrive already resolved.
- IDE wiring, logging, progress output, timing and the `volatile` visibility of the state are left out.
- Syncing.UnpackedAars.RefreshFiles: "no project loaded" is one boolean standing for a missing project view or missing project data.
- Naming.FileName: `PathUtil.getFileName` is modelled as the text after the last `/`; backslashes and trailing separators are not handled.
- JavaInts.HashCode: each character counts as one UTF-16 code unit; surrogate pairs are not modelled.
- Syncing.DeclaredLibraryIsMerged: its precondition excludes a library shadowed by a later one with the same raw name and a different key. Such a library gets no merged directory, yet `getAarDir` still returns a path for it.
- The fault model has one fault per raw directory, so it cannot express two faults during one unpacking, such as a failing stamp time followed by a failing jar copy.
