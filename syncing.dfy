/**
 * One synchronization pass of the AAR cache (UnpackedAars): build the declared
 * work items, let the differ pick the stale ones, fetch and unpack them, merge,
 * prune on request, and rescan; plus the read-side lookups.
 */
module Syncing {
  import opened Wrappers
  import opened Text
  import opened Blaze
  import opened Records
  import opened Disk
  import opened Collections
  import opened Unpacking
  import Naming
  import Caching

  /* ---------------------------------------------------------------------- */
  /* The declared work items                                                 */
  /* ---------------------------------------------------------------------- */

  /** How the items are keyed: by a name per archive, or an error for an archive that cannot be named. */
  type NameOf = Artifact -> Result<string, Naming.NamingError>

  /**
   * The work items of the libraries, keyed by `nameOf` of each archive: AAR
   * libraries only, in order, a later library replacing an earlier one under the
   * same name. The first archive that cannot be named raises its error.
   */
  function Collect(libraries: seq<Library>, nameOf: NameOf): Result<map<string, AarAndJar>, Naming.NamingError>
    decreases |libraries|
  {
    if libraries == [] then Success(map[])
    else
      var outputs :- Collect(libraries[..|libraries| - 1], nameOf);
      match libraries[|libraries| - 1]
      case NonAar(_) => Success(outputs)
      case Aar(lib) =>
        var name :- nameOf(lib.aar);
        Success(outputs[name := Create(lib.aar, lib.jar, lib.key)])
  }

  /** `getArtifactsToCache`: the items of the declared libraries, keyed by the raw directory name of each archive. */
  function ArtifactsToCache(libraries: seq<Library>): Result<map<string, AarAndJar>, Naming.NamingError> {
    Collect(libraries, Naming.GetAarDirName)
  }

  /** Library `i` is an AAR library whose archive is named `name`. */
  ghost predicate Declares(libraries: seq<Library>, i: int, name: string, nameOf: NameOf) {
    0 <= i < |libraries| && libraries[i].Aar? && nameOf(libraries[i].lib.aar) == Success(name)
  }

  /** The work item an AAR library contributes. */
  function ItemOf(lib: AarLibrary): (item: AarAndJar)
    ensures item.aar == lib.aar && item.jar == lib.jar && item.libraryKey == lib.key
  {
    Create(lib.aar, lib.jar, lib.key)
  }

  /** The loop of `getArtifactsToCache`, filling the map one library at a time. */
  method GetArtifactsToCache(libraries: seq<Library>) returns (r: Result<map<string, AarAndJar>, Naming.NamingError>)
    ensures r == ArtifactsToCache(libraries)
  {
    var outputs := map[];
    for i := 0 to |libraries|
      invariant Collect(libraries[..i], Naming.GetAarDirName) == Success(outputs)
    {
      assert libraries[..i + 1][..i] == libraries[..i];
      match libraries[i]
      case NonAar(_) =>
      case Aar(lib) =>
        var name := Naming.GetAarDirName(lib.aar);
        if name.Failure? {
          FailureSticks(libraries, i + 1, Naming.GetAarDirName);
          return Failure(name.error);
        }
        outputs := outputs[name.value := Create(lib.aar, lib.jar, lib.key)];
    }
    assert libraries[..|libraries|] == libraries;
    return Success(outputs);
  }

  /** Once a prefix of the libraries raises, the whole list raises the same error. */
  lemma {:induction false} FailureSticks(libraries: seq<Library>, n: nat, nameOf: NameOf)
    requires n <= |libraries|
    requires Collect(libraries[..n], nameOf).Failure?
    ensures Collect(libraries, nameOf) == Collect(libraries[..n], nameOf)
    decreases |libraries|
  {
    if n < |libraries| {
      var prefix := libraries[..|libraries| - 1];
      assert prefix[..n] == libraries[..n];
      FailureSticks(prefix, n, nameOf);
    } else {
      assert libraries[..n] == libraries;
    }
  }

  /**
   * The items raise an error exactly when some AAR library's archive cannot be
   * named; the error is that of the first such archive.
   */
  lemma {:induction false} CollectFails(libraries: seq<Library>, nameOf: NameOf)
    ensures Collect(libraries, nameOf).Failure? <==>
      exists i :: 0 <= i < |libraries| && libraries[i].Aar? && nameOf(libraries[i].lib.aar).Failure?
    ensures Collect(libraries, nameOf).Failure? ==>
      exists i :: 0 <= i < |libraries| && libraries[i].Aar? && nameOf(libraries[i].lib.aar).Failure?
        && Collect(libraries, nameOf).error == nameOf(libraries[i].lib.aar).error
        && forall j :: 0 <= j < i && libraries[j].Aar? ==> nameOf(libraries[j].lib.aar).Success?
    decreases |libraries|
  {
    if libraries != [] {
      var last := |libraries| - 1;
      var prefix := libraries[..last];
      CollectFails(prefix, nameOf);
      forall i | 0 <= i < last
        ensures prefix[i] == libraries[i]
      {
      }
      if Collect(prefix, nameOf).Success? && libraries[last].Aar? && nameOf(libraries[last].lib.aar).Failure? {
        assert forall j :: 0 <= j < last && libraries[j].Aar? ==> nameOf(libraries[j].lib.aar).Success?;
      }
    }
  }

  /**
   * `getArtifactsToCache` raises exactly when some AAR library's archive has no
   * key (it is neither an output nor a source file); the error names the first one.
   */
  lemma ArtifactsToCacheFails(libraries: seq<Library>)
    ensures ArtifactsToCache(libraries).Failure? <==>
      exists i :: 0 <= i < |libraries| && libraries[i].Aar? && Naming.GetArtifactKey(libraries[i].lib.aar).Failure?
    ensures ArtifactsToCache(libraries).Failure? ==>
      exists i :: 0 <= i < |libraries| && libraries[i].Aar? && libraries[i].lib.aar.OtherLocal?
        && ArtifactsToCache(libraries).error == Naming.UnhandledArtifactType(libraries[i].lib.aar)
        && forall j :: 0 <= j < i && libraries[j].Aar? ==> !libraries[j].lib.aar.OtherLocal?
  {
    CollectFails(libraries, Naming.GetAarDirName);
  }

  /** One more library: its item, if it is an AAR library, goes in under its name. */
  lemma CollectStep(libraries: seq<Library>, nameOf: NameOf)
    requires libraries != [] && Collect(libraries, nameOf).Success?
    ensures Collect(libraries[..|libraries| - 1], nameOf).Success?
    ensures var last := libraries[|libraries| - 1];
      Collect(libraries, nameOf).value ==
        if last.NonAar? then Collect(libraries[..|libraries| - 1], nameOf).value
        else Collect(libraries[..|libraries| - 1], nameOf).value[nameOf(last.lib.aar).value := ItemOf(last.lib)]
  {
  }

  /** The library an item comes from: the last AAR library with that name. */
  lemma {:induction false} LastDeclarer(libraries: seq<Library>, name: string, nameOf: NameOf) returns (i: int)
    requires Collect(libraries, nameOf).Success? && name in Collect(libraries, nameOf).value
    ensures Declares(libraries, i, name, nameOf)
    ensures Collect(libraries, nameOf).value[name] == ItemOf(libraries[i].lib)
    ensures forall j :: i < j < |libraries| ==> !Declares(libraries, j, name, nameOf)
    decreases |libraries|
  {
    var last := |libraries| - 1;
    var prefix := libraries[..last];
    CollectStep(libraries, nameOf);
    if Declares(libraries, last, name, nameOf) {
      i := last;
    } else {
      i := LastDeclarer(prefix, name, nameOf);
      assert prefix[i] == libraries[i];
      forall j | i < j < |libraries|
        ensures !Declares(libraries, j, name, nameOf)
      {
        if j < last {
          assert prefix[j] == libraries[j];
          assert !Declares(prefix, j, name, nameOf);
        }
      }
    }
  }

  /** Every AAR library's name is among the items. */
  lemma {:induction false} CollectCovers(libraries: seq<Library>, nameOf: NameOf)
    requires Collect(libraries, nameOf).Success?
    ensures forall i, name :: Declares(libraries, i, name, nameOf) ==> name in Collect(libraries, nameOf).value
    decreases |libraries|
  {
    if libraries != [] {
      var last := |libraries| - 1;
      var prefix := libraries[..last];
      CollectStep(libraries, nameOf);
      CollectCovers(prefix, nameOf);
      forall i, name | Declares(libraries, i, name, nameOf)
        ensures name in Collect(libraries, nameOf).value
      {
        if i < last {
          assert prefix[i] == libraries[i];
          assert Declares(prefix, i, name, nameOf);
        }
      }
    }
  }

  /**
   * The declared items: every AAR library's raw name is present, and the item
   * under a name comes from the LAST AAR library with that raw name.
   */
  lemma ArtifactsToCacheEntries(libraries: seq<Library>)
    requires ArtifactsToCache(libraries).Success?
    ensures var outputs := ArtifactsToCache(libraries).value;
      forall i, name :: Declares(libraries, i, name, Naming.GetAarDirName) ==> name in outputs
    ensures var outputs := ArtifactsToCache(libraries).value;
      forall name :: name in outputs ==>
        exists i :: Declares(libraries, i, name, Naming.GetAarDirName) && outputs[name] == ItemOf(libraries[i].lib)
          && forall j :: i < j < |libraries| ==> !Declares(libraries, j, name, Naming.GetAarDirName)
  {
    var outputs := ArtifactsToCache(libraries).value;
    CollectCovers(libraries, Naming.GetAarDirName);
    forall name | name in outputs
      ensures exists i :: Declares(libraries, i, name, Naming.GetAarDirName) && outputs[name] == ItemOf(libraries[i].lib)
                && forall j :: i < j < |libraries| ==> !Declares(libraries, j, name, Naming.GetAarDirName)
    {
      var i := LastDeclarer(libraries, name, Naming.GetAarDirName);
    }
  }

  /** The declared items are well keyed: each under the raw name of its own archive. */
  lemma DeclaredItemsWellKeyed(libraries: seq<Library>)
    requires ArtifactsToCache(libraries).Success?
    ensures WellKeyed(ArtifactsToCache(libraries).value)
  {
    var outputs := ArtifactsToCache(libraries).value;
    forall name | name in outputs
      ensures Naming.GetAarDirName(outputs[name].aar) == Success(name)
    {
      var i := LastDeclarer(libraries, name, Naming.GetAarDirName);
    }
  }

  /**
   * A library that no later library shadows has its merged directory among the
   * ones the merge creates: its key is one of the library keys of the items.
   */
  lemma DeclaredLibraryIsMerged(libraries: seq<Library>, i: int, name: string)
    requires ArtifactsToCache(libraries).Success?
    requires Declares(libraries, i, name, Naming.GetAarDirName)
    requires forall j :: i < j < |libraries| ==> !Declares(libraries, j, name, Naming.GetAarDirName)
    ensures libraries[i].lib.key in LibraryKeys(ArtifactsToCache(libraries).value)
    ensures MergedDirName(libraries[i].lib.key) in MergedNames(ArtifactsToCache(libraries).value)
  {
    var outputs := ArtifactsToCache(libraries).value;
    CollectCovers(libraries, Naming.GetAarDirName);
    var k := LastDeclarer(libraries, name, Naming.GetAarDirName);
    assert k == i;
    assert outputs[name].libraryKey == libraries[i].lib.key;
  }

  /** The archive of each declared item, by the same name. */
  function AarOutputs(projectState: map<string, AarAndJar>): (outputs: map<string, Artifact>)
    ensures outputs.Keys == projectState.Keys
    ensures forall name :: name in outputs ==> outputs[name] == projectState[name].aar
  {
    map name | name in projectState :: projectState[name].aar
  }

  /* ---------------------------------------------------------------------- */
  /* What to fetch                                                           */
  /* ---------------------------------------------------------------------- */

  /** The archive of every updated item, and its jar when it has one. */
  ghost function DownloadSet(projectState: map<string, AarAndJar>, updatedKeys: set<string>): set<Artifact>
    requires updatedKeys <= projectState.Keys
  {
    (set key | key in updatedKeys :: projectState[key].aar) +
    (set key | key in updatedKeys && projectState[key].jar.Some? :: projectState[key].jar.value)
  }

  /** The loop that collects the artifacts to download, one updated key at a time. */
  method ArtifactsToDownload(projectState: map<string, AarAndJar>, updatedKeys: set<string>)
    returns (toDownload: set<Artifact>)
    requires updatedKeys <= projectState.Keys
    ensures toDownload == DownloadSet(projectState, updatedKeys)
    ensures forall a :: a in toDownload <==>
      exists key :: key in updatedKeys && (projectState[key].aar == a || projectState[key].jar == Some(a))
  {
    toDownload := {};
    var pending := updatedKeys;
    while pending != {}
      invariant pending <= updatedKeys
      invariant toDownload == DownloadSet(projectState, updatedKeys - pending)
      decreases pending
    {
      var key :| key in pending;
      toDownload := toDownload + {projectState[key].aar};
      var jar := projectState[key].jar;
      if jar.Some? {
        toDownload := toDownload + {jar.value};
      }
      TakeOne(updatedKeys, pending, key);
      DownloadStep(projectState, updatedKeys - pending, key);
      pending := pending - {key};
    }
    NonePending(updatedKeys, pending);
    DownloadSetMembers(projectState, updatedKeys);
  }

  /** Adding one key adds its archive and its jar. */
  lemma DownloadStep(projectState: map<string, AarAndJar>, done: set<string>, key: string)
    requires done <= projectState.Keys && key in projectState
    ensures DownloadSet(projectState, done + {key}) ==
      DownloadSet(projectState, done) + {projectState[key].aar} +
      (if projectState[key].jar.Some? then {projectState[key].jar.value} else {})
  {
  }

  /** An artifact is fetched for an updated key only: its archive or its jar. */
  lemma DownloadSetMembers(projectState: map<string, AarAndJar>, updatedKeys: set<string>)
    requires updatedKeys <= projectState.Keys
    ensures forall a :: a in DownloadSet(projectState, updatedKeys) <==>
      exists key :: key in updatedKeys && (projectState[key].aar == a || projectState[key].jar == Some(a))
  {
    forall a | exists key :: key in updatedKeys && (projectState[key].aar == a || projectState[key].jar == Some(a))
      ensures a in DownloadSet(projectState, updatedKeys)
    {
      var key :| key in updatedKeys && (projectState[key].aar == a || projectState[key].jar == Some(a));
      if projectState[key].aar != a {
        assert a == projectState[key].jar.value;
      }
    }
  }

  /** The remote artifacts among some artifacts: those the prefetcher downloads. */
  function RemoteArtifacts(artifacts: set<Artifact>): (remote: set<Artifact>)
    ensures remote <= artifacts
    ensures forall a :: a in artifacts ==> (a in remote <==> !a.IsLocal())
  {
    set a | a in artifacts && a.RemoteOutput?
  }

  /* ---------------------------------------------------------------------- */
  /* One pass                                                                */
  /* ---------------------------------------------------------------------- */

  const CACHE_DIR_NAME := "aar_libraries"

  datatype SyncMode = Startup | NoBuild | Incremental | Partial | Full

  /**
   * What the filesystem and the task batches do during a pass: whether `mkdirs`
   * creates a missing root, whether clearing fails, the fault of each raw
   * directory's unpacking, the children that cannot be deleted, the copies that
   * fail, and how the waits on the batches end.
   */
  datatype Env = Env(mkdirsSucceeds: bool, clearFails: bool, faults: map<string, Fault>,
                     undeletable: set<string>, copyFails: set<CopyFault>, stop: Stop)

  /**
   * How a pass ends: the root could not be created; an archive had no key (the
   * exception escapes the pass); a wait was interrupted (the context is
   * cancelled); a batch failed (logged); or everything ran.
   */
  datatype Outcome = RootUnavailable | UnhandledArtifact(error: Naming.NamingError) | Cancelled | Incomplete | Done

  /**
   * `FileCacheDiffer.findUpdatedOutputs`: from the archives by raw name, the
   * scanned state, the cache root (whose stamps it reads) and the previous remote
   * outputs, the raw names whose directories need unpacking again.
   */
  type Differ = (map<string, Artifact>, map<string, string>, Option<Children>, set<Artifact>) -> set<string>

  /** The differ only ever picks among the names it is given. */
  ghost predicate DifferPicksGiven(differ: Differ) {
    forall outputs, cacheFiles, root, previous :: differ(outputs, cacheFiles, root, previous) <= outputs.Keys
  }

  /** The result of a scan of the root: each child mapped to its stamp path. */
  function CacheFiles(cacheDir: string, root: Option<Children>): (files: map<string, string>)
    ensures files.Keys == Kids(root).Keys
  {
    map name | name in Kids(root) :: Caching.StampPath(cacheDir, name)
  }

  /** The pruning batch is issued: pruning is on and no earlier wait stopped the pass. */
  predicate PruneRuns(stop: Stop, removeMissingFiles: bool) {
    removeMissingFiles && !StopsAt(stop, UnpackBatch)
    && !StopsAt(stop, CleanupBatch) && !StopsAt(stop, MergeBatch)
  }

  /** A wait that stops the pass: an interruption cancels it, a failure is logged. */
  function StopOutcome(stop: Stop): Outcome {
    if stop.Interrupted? then Cancelled else Incomplete
  }

  /** The outcome of a pass past the scan: the stop, if the pass reaches the wait it hits. */
  function PassOutcome(stop: Stop, removeMissingFiles: bool): (outcome: Outcome)
    ensures outcome == Done <==> stop.Completes? || (StopsAt(stop, PruneBatch) && !removeMissingFiles)
    ensures outcome == Cancelled <==> stop.Interrupted? && (stop.stage != PruneBatch || removeMissingFiles)
  {
    if stop.Completes? || (StopsAt(stop, PruneBatch) && !removeMissingFiles) then Done
    else StopOutcome(stop)
  }

  /**
   * Every raw directory after a pass: a pruned one is gone; an updated one is
   * unpacked afresh; any other is as it was.
   */
  ghost predicate RawDirsRefreshed(before: Option<Children>, after: Option<Children>, state: map<string, AarAndJar>,
                                   updated: set<string>, blobs: Blobs, faults: map<string, Fault>,
                                   undeletable: set<string>, pruning: bool)
    requires updated <= state.Keys
  {
    forall name :: EndsWith(name, Naming.DOT_AAR) ==>
      Lookup(after, name) ==
        (if pruning && name in Kids(before) && name !in state && name !in undeletable then None
         else if name in updated then Some(UnpackedDir(Lookup(before, name), state[name], blobs, FaultOf(faults, name)))
         else Lookup(before, name))
  }

  /**
   * The effect on the root of the part of a pass after the scan: the unpacking,
   * then (unless that wait stops it) the cleanup, then the merge, then the
   * pruning when it runs. The fetch wait's result is ignored, so it never ends
   * the pass: what it failed to fetch is simply missing from `blobs`.
   */
  ghost predicate PassEffect(before: Option<Children>, after: Option<Children>, state: map<string, AarAndJar>,
                             updated: set<string>, blobs: Blobs, env: Env, removeMissingFiles: bool)
    requires updated <= state.Keys
  {
    && (before.Some? ==> after.Some?)
    && RawDirsRefreshed(before, after, state, updated, blobs, env.faults, env.undeletable,
                        PruneRuns(env.stop, removeMissingFiles))
    && (StopsAt(env.stop, UnpackBatch) ==>
          forall name :: !EndsWith(name, Naming.DOT_AAR) ==> Lookup(after, name) == Lookup(before, name))
    && (!StopsAt(env.stop, UnpackBatch) ==>
          OthersRemoved(before, after, env.undeletable,
                        if StopsAt(env.stop, CleanupBatch) then {} else MergedNames(state)))
    && (!StopsAt(env.stop, UnpackBatch) && !StopsAt(env.stop, CleanupBatch) ==>
          LibrariesMerged(before, after, state, env.undeletable, env.copyFails))
  }

  /**
   * `refresh`, from the root and state before to the root and state after:
   *   - a missing root that cannot be created ends the pass with nothing changed;
   *   - otherwise the root exists and is scanned; an archive without a key then
   *     ends the pass with that error, before anything is fetched;
   *   - otherwise the differ picks the updated names from the declared items and
   *     the scan, their archives and jars are fetched (the remote ones), the pass
   *     has its effect, and the root is scanned again whatever the stop.
   */
  ghost predicate Refreshed(cacheDir: string, before: Option<Children>, stateBefore: map<string, string>,
                            after: Option<Children>, stateAfter: map<string, string>,
                            outcome: Outcome, fetched: set<Artifact>,
                            libraries: seq<Library>, previousOutputs: set<Artifact>, removeMissingFiles: bool,
                            differ: Differ, blobs: Blobs, env: Env)
    requires DifferPicksGiven(differ)
  {
    if before.None? && !env.mkdirsSucceeds then
      outcome == RootUnavailable && after == before && stateAfter == stateBefore && fetched == {}
    else
      var root := Some(Kids(before));
      match ArtifactsToCache(libraries)
      case Failure(e) =>
        outcome == UnhandledArtifact(e) && after == root && stateAfter.Keys == Kids(root).Keys && fetched == {}
      case Success(state) =>
        var updated := differ(AarOutputs(state), CacheFiles(cacheDir, root), root, previousOutputs);
        && outcome == PassOutcome(env.stop, removeMissingFiles)
        && fetched == RemoteArtifacts(DownloadSet(state, updated))
        && after.Some? && stateAfter.Keys == after.value.Keys
        && PassEffect(root, after, state, updated, blobs, env, removeMissingFiles)
  }

  /** A lookup that needs a local file the cache does not provide. */
  datatype LookupError = RemoteWithoutCache(artifact: Artifact)

  /** `getFallbackFile`: the file of a local artifact; a remote one is an error. */
  function GetFallbackFile(output: Artifact): (r: Result<string, LookupError>)
    ensures r.Failure? <==> !output.IsLocal()
    ensures r.Failure? ==> r.error == RemoteWithoutCache(output)
    ensures r.Success? ==> r.value == output.path
  {
    if output.RemoteOutput? then Failure(RemoteWithoutCache(output)) else Success(output.path)
  }

  /** The cache of one project: its cache directory and the in-memory state of it. */
  class UnpackedAars {
    const aarCache: Caching.AarCache

    ghost predicate Valid()
      reads this, aarCache
    {
      aarCache.Valid()
    }

    /** The cache lives in `aar_libraries` under the project data directory. */
    constructor (projectDataDir: string, fs: Fs)
      ensures aarCache.cacheDir == Join(projectDataDir, CACHE_DIR_NAME) && aarCache.fs == fs
      ensures aarCache.cacheState == map[]
      ensures fresh(aarCache) && Valid()
    {
      aarCache := new Caching.AarCache(Join(projectDataDir, CACHE_DIR_NAME), fs);
    }

    /** `FileCacheAdapter.initialize`: a scan of the root. */
    method Initialize()
      requires Valid()
      modifies aarCache
      ensures Valid()
      ensures aarCache.fs.root.None? ==> aarCache.cacheState == old(aarCache.cacheState)
      ensures aarCache.fs.root.Some? ==> aarCache.cacheState.Keys == aarCache.fs.root.value.Keys
    {
      var _ := aarCache.ReadFileState();
    }

    /**
     * `refresh`: create the root, scan, build the declared items, pick the updated
     * ones, fetch, unpack and merge, prune on request, and scan again.
     */
    method Refresh(libraries: seq<Library>, previousOutputs: set<Artifact>, removeMissingFiles: bool,
                   differ: Differ, blobs: Blobs, env: Env)
      returns (outcome: Outcome, fetched: set<Artifact>)
      requires Valid() && DifferPicksGiven(differ)
      modifies aarCache, aarCache.fs
      ensures Valid()
      ensures Refreshed(aarCache.cacheDir, old(aarCache.fs.root), old(aarCache.cacheState),
                        aarCache.fs.root, aarCache.cacheState, outcome, fetched,
                        libraries, previousOutputs, removeMissingFiles, differ, blobs, env)
    {
      var ok := aarCache.CreateCacheDir(env.mkdirsSucceeds);
      if !ok {
        return RootUnavailable, {};
      }
      ghost var root := aarCache.fs.root;
      var cacheFiles := aarCache.ReadFileState();
      MapsAgree(cacheFiles, CacheFiles(aarCache.cacheDir, root));
      var declared := GetArtifactsToCache(libraries);
      if declared.Failure? {
        return UnhandledArtifact(declared.error), {};
      }
      var projectState := declared.value;
      DeclaredItemsWellKeyed(libraries);
      var updatedKeys := differ(AarOutputs(projectState), cacheFiles, aarCache.fs.root, previousOutputs);
      var toDownload := ArtifactsToDownload(projectState, updatedKeys);
      fetched := RemoteArtifacts(toDownload);
      outcome := RunPass(projectState, updatedKeys, blobs, env, removeMissingFiles);
      var _ := aarCache.ReadFileState();
    }

    /**
     * `onSync`: a FULL sync clears the cache first; only an INCREMENTAL sync
     * prunes. The previous remote outputs come from the old project data.
     */
    method OnSync(libraries: seq<Library>, previousOutputs: set<Artifact>, syncMode: SyncMode,
                  differ: Differ, blobs: Blobs, env: Env)
      returns (outcome: Outcome, fetched: set<Artifact>)
      requires Valid() && DifferPicksGiven(differ)
      modifies aarCache, aarCache.fs
      ensures Valid()
      ensures Refreshed(aarCache.cacheDir,
                        if syncMode == Full && !env.clearFails then None else old(aarCache.fs.root),
                        if syncMode == Full then map[] else old(aarCache.cacheState),
                        aarCache.fs.root, aarCache.cacheState, outcome, fetched,
                        libraries, previousOutputs, syncMode == Incremental, differ, blobs, env)
    {
      var fullRefresh := syncMode == Full;
      if fullRefresh {
        aarCache.ClearCache(env.clearFails);
      }
      var removeMissingFiles := syncMode == Incremental;
      outcome, fetched := Refresh(libraries, previousOutputs, removeMissingFiles, differ, blobs, env);
    }

    /**
     * `FileCacheAdapter.refreshFiles`: nothing when no project is loaded or the
     * project has remote outputs; otherwise a pass that never prunes.
     */
    method RefreshFiles(projectLoaded: bool, remoteOutputs: set<Artifact>, libraries: seq<Library>,
                        differ: Differ, blobs: Blobs, env: Env)
      returns (outcome: Option<Outcome>, fetched: set<Artifact>)
      requires Valid() && DifferPicksGiven(differ)
      modifies aarCache, aarCache.fs
      ensures Valid()
      ensures outcome.None? <==> !projectLoaded || remoteOutputs != {}
      ensures outcome.None? ==>
        fetched == {} && aarCache.fs.root == old(aarCache.fs.root) && aarCache.cacheState == old(aarCache.cacheState)
      ensures outcome.Some? ==>
        Refreshed(aarCache.cacheDir, old(aarCache.fs.root), old(aarCache.cacheState),
                  aarCache.fs.root, aarCache.cacheState, outcome.value, fetched,
                  libraries, remoteOutputs, false, differ, blobs, env)
    {
      if !projectLoaded || remoteOutputs != {} {
        return None, {};
      }
      var o;
      o, fetched := Refresh(libraries, remoteOutputs, false, differ, blobs, env);
      outcome := Some(o);
    }

    /** `getAarDir`: the library's merged directory, or None while the state is empty. */
    function GetAarDir(library: AarLibrary): (r: Option<string>)
      reads this, aarCache
      ensures r.None? <==> aarCache.cacheState == map[]
      ensures r.Some? ==> r.value == Join(aarCache.cacheDir, MergedDirName(library.key))
    {
      aarCache.GetCachedAarDir(GetAarDirName(library))
    }

    /** `getResourceDirectory`: `res` under the merged directory, or None with it. */
    function GetResourceDirectory(library: AarLibrary): (r: Option<string>)
      reads this, aarCache
      ensures r.None? <==> aarCache.cacheState == map[]
      ensures r.Some? ==> r.value == Join(Join(aarCache.cacheDir, MergedDirName(library.key)), Naming.FD_RES)
    {
      var aarDir := GetAarDir(library);
      if aarDir.None? then None else Some(Naming.GetResDir(aarDir.value))
    }

    /**
     * `getClassJar`: None for a library without a jar; the merged jar under the
     * merged directory when the lookup succeeds; otherwise the jar's own file,
     * which a remote jar does not have.
     */
    function GetClassJar(library: AarLibrary): (r: Result<Option<string>, LookupError>)
      reads this, aarCache
      ensures library.jar.None? ==> r == Success(None)
      ensures library.jar.Some? && aarCache.cacheState != map[] ==>
        r == Success(Some(Join(Join(aarCache.cacheDir, MergedDirName(library.key)), Naming.JAR_PATH)))
      ensures library.jar.Some? && aarCache.cacheState == map[] ==>
        (r.Failure? <==> !library.jar.value.IsLocal()) &&
        (r.Success? ==> r == Success(Some(library.jar.value.path)))
    {
      if library.jar.None? then Success(None)
      else
        var aarDir := GetAarDir(library);
        if aarDir.None? then
          var file :- GetFallbackFile(library.jar.value);
          Success(Some(file))
        else Success(Some(Naming.GetJarFile(aarDir.value)))
    }

    /**
     * The part of `refresh` inside the `try` after the fetch: unpack, then prune
     * when asked; a batch wait that is interrupted or fails ends it.
     */
    method RunPass(state: map<string, AarAndJar>, updated: set<string>, blobs: Blobs, env: Env,
                   removeMissingFiles: bool) returns (outcome: Outcome)
      requires Valid() && aarCache.fs.root.Some?
      requires WellKeyed(state) && updated <= state.Keys
      requires aarCache.cacheState.Keys == aarCache.fs.root.value.Keys
      modifies aarCache.fs
      ensures outcome == PassOutcome(env.stop, removeMissingFiles)
      ensures PassEffect(old(aarCache.fs.root), aarCache.fs.root, state, updated, blobs, env, removeMissingFiles)
    {
      var completed := Unpack(aarCache.fs, state, updated, blobs, env.faults, env.undeletable, env.copyFails, env.stop);
      if !completed {
        return StopOutcome(env.stop);
      }
      if removeMissingFiles {
        ghost var merged := aarCache.fs.root;
        var removed := aarCache.RemoveMissingFiles(state.Keys, env.undeletable);
        PruneKeepsMerge(old(aarCache.fs.root), merged, aarCache.fs.root, state, updated, blobs, env,
                        aarCache.RemovedKeys(state.Keys));
        if StopsAt(env.stop, PruneBatch) {
          return StopOutcome(env.stop);
        }
      }
      return Done;
    }
  }

  /**
   * Pruning deletes only raw directories that nothing declares, so it keeps what
   * the unpacking, the cleanup and the merge left everywhere else.
   */
  lemma PruneKeepsMerge(before: Option<Children>, merged: Option<Children>, after: Option<Children>,
                        state: map<string, AarAndJar>, updated: set<string>, blobs: Blobs, env: Env,
                        removed: set<string>)
    requires updated <= state.Keys
    requires forall name :: name in removed <==>
      name in Kids(before) && name !in state && EndsWith(name, Naming.DOT_AAR)
    requires DeletedChildren(merged, after, removed, env.undeletable)
    requires RawDirsUnpacked(before, merged, state, updated, blobs, env.faults)
    requires OthersRemoved(before, merged, env.undeletable, MergedNames(state))
    requires LibrariesMerged(before, merged, state, env.undeletable, env.copyFails)
    ensures RawDirsRefreshed(before, after, state, updated, blobs, env.faults, env.undeletable, true)
    ensures OthersRemoved(before, after, env.undeletable, MergedNames(state))
    ensures LibrariesMerged(before, after, state, env.undeletable, env.copyFails)
  {
    forall key | key in LibraryKeys(state)
      ensures MergedFrom(Lookup(after, MergedDirName(key)), CleanedDir(before, env.undeletable, MergedDirName(key)),
                         Members(state, key), after, MergedDirName(key), env.copyFails)
    {
      var m := MergedDirName(key);
      MergedNameIsNotRaw(key);
      assert m !in removed;
      MergedFromSameSources(Lookup(after, m), CleanedDir(before, env.undeletable, m), Members(state, key),
                            merged, after, m, env.copyFails);
    }
  }

  /* ---------------------------------------------------------------------- */
  /* What a pass guarantees                                                  */
  /* ---------------------------------------------------------------------- */

  /**
   * After a pruning pass that ran to the end, every raw directory left is
   * declared, unless its deletion failed.
   */
  lemma PrunedCacheHoldsDeclared(cacheDir: string, before: Option<Children>, stateBefore: map<string, string>,
                                 after: Option<Children>, stateAfter: map<string, string>, fetched: set<Artifact>,
                                 libraries: seq<Library>, previousOutputs: set<Artifact>,
                                 differ: Differ, blobs: Blobs, env: Env)
    requires DifferPicksGiven(differ)
    requires Refreshed(cacheDir, before, stateBefore, after, stateAfter, Done, fetched,
                       libraries, previousOutputs, true, differ, blobs, env)
    ensures ArtifactsToCache(libraries).Success?
    ensures forall name :: EndsWith(name, Naming.DOT_AAR) && name in Kids(after) ==>
      name in ArtifactsToCache(libraries).value || name in env.undeletable
  {
    var state := ArtifactsToCache(libraries).value;
    var root := Some(Kids(before));
    var updated := differ(AarOutputs(state), CacheFiles(cacheDir, root), root, previousOutputs);
    assert PruneRuns(env.stop, true);
    forall name | EndsWith(name, Naming.DOT_AAR) && name in Kids(after)
      ensures name in state || name in env.undeletable
    {
      assert Lookup(after, name).Some?;
    }
  }

  /** A pass that does not prune never removes a raw directory, however it ends. */
  lemma UnprunedCacheKeepsRawDirs(cacheDir: string, before: Option<Children>, stateBefore: map<string, string>,
                                  after: Option<Children>, stateAfter: map<string, string>,
                                  outcome: Outcome, fetched: set<Artifact>,
                                  libraries: seq<Library>, previousOutputs: set<Artifact>,
                                  differ: Differ, blobs: Blobs, env: Env)
    requires DifferPicksGiven(differ)
    requires Refreshed(cacheDir, before, stateBefore, after, stateAfter, outcome, fetched,
                       libraries, previousOutputs, false, differ, blobs, env)
    ensures forall name :: EndsWith(name, Naming.DOT_AAR) && name in Kids(before) ==> name in Kids(after)
  {
    if !(before.None? && !env.mkdirsSucceeds) && ArtifactsToCache(libraries).Success? {
      var state := ArtifactsToCache(libraries).value;
      var root := Some(Kids(before));
      forall name | EndsWith(name, Naming.DOT_AAR) && name in Kids(before)
        ensures name in Kids(after)
      {
        assert Lookup(root, name).Some?;
        assert Lookup(after, name).Some?;
      }
    }
  }

  /**
   * A pass from a missing root (as after a FULL sync's clear) leaves only raw
   * directories the differ picked, all of them declared: nothing stale survives.
   */
  lemma ClearedCacheHoldsUpdatedOnly(cacheDir: string, stateBefore: map<string, string>,
                                     after: Option<Children>, stateAfter: map<string, string>,
                                     outcome: Outcome, fetched: set<Artifact>,
                                     libraries: seq<Library>, previousOutputs: set<Artifact>,
                                     removeMissingFiles: bool, differ: Differ, blobs: Blobs, env: Env)
    requires DifferPicksGiven(differ)
    requires Refreshed(cacheDir, None, stateBefore, after, stateAfter, outcome, fetched,
                       libraries, previousOutputs, removeMissingFiles, differ, blobs, env)
    ensures forall name :: EndsWith(name, Naming.DOT_AAR) && name in Kids(after) ==>
      var state := ArtifactsToCache(libraries).value;
      && ArtifactsToCache(libraries).Success?
      && name in differ(AarOutputs(state), map[], Some(map[]), previousOutputs)
      && name in state
  {
    var empty: Children := map[];
    if env.mkdirsSucceeds && ArtifactsToCache(libraries).Success? {
      var state := ArtifactsToCache(libraries).value;
      assert CacheFiles(cacheDir, Some(empty)) == map[];
      forall name | EndsWith(name, Naming.DOT_AAR) && name in Kids(after)
        ensures name in differ(AarOutputs(state), map[], Some(map[]), previousOutputs)
      {
        assert Lookup(after, name).Some?;
        assert Lookup(Some(empty), name).None?;
      }
    }
  }

  /** A library's directory on the read side is the one the merge writes for its key. */
  lemma ReadPathIsMergePath(cache: UnpackedAars, library: AarLibrary)
    requires cache.aarCache.cacheState != map[]
    ensures cache.GetAarDir(library) == Some(Join(cache.aarCache.cacheDir, MergedDirName(library.key)))
    ensures !EndsWith(MergedDirName(library.key), Naming.DOT_AAR)
  {
    MergedNameIsNotRaw(library.key);
  }
}
