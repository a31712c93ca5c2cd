/**
 * The in-memory record of what the cache root holds (AarCache): a map from each
 * child directory name to the path of its stamp file, replaced wholesale by a scan.
 */
module Caching {
  import opened Wrappers
  import opened Text
  import opened Disk
  import Naming

  const STAMP_FILE_NAME := "aar.timestamp"

  /** `<cacheDir>/<name>/aar.timestamp`. */
  function StampPath(cacheDir: string, name: string): string {
    Join(Join(cacheDir, name), STAMP_FILE_NAME)
  }

  class AarCache {
    const cacheDir: string
    /** The filesystem provider, whose root is the directory at `cacheDir`. */
    const fs: Fs
    /** The state of the cache as of the last successful scan. */
    var cacheState: map<string, string>

    ghost predicate Valid()
      reads this
    {
      forall name :: name in cacheState ==> cacheState[name] == StampPath(cacheDir, name)
    }

    constructor (cacheDir: string, fs: Fs)
      ensures this.cacheDir == cacheDir && this.fs == fs
      ensures cacheState == map[] && Valid()
    {
      this.cacheDir := cacheDir;
      this.fs := fs;
      cacheState := map[];
    }

    /** Succeeds without change when the root exists; otherwise reports whether `mkdirs` created it. */
    method CreateCacheDir(mkdirsSucceeds: bool) returns (ok: bool)
      modifies fs
      ensures old(fs.root).Some? ==> ok && fs.root == old(fs.root)
      ensures old(fs.root).None? ==> ok == mkdirsSucceeds
      ensures old(fs.root).None? ==> fs.root == if ok then Some(map[]) else None
    {
      if fs.root.None? {
        if !mkdirsSucceeds {
          return false;
        }
        fs.root := Some(map[]);
      }
      return true;
    }

    /**
     * Scans the root: one entry per child, mapped to its stamp path, stored as the
     * new state. When the root cannot be listed, the result is empty and the
     * state is kept.
     */
    method ReadFileState() returns (cachedFiles: map<string, string>)
      requires Valid()
      modifies this
      ensures Valid()
      ensures fs.root.None? ==> cachedFiles == map[] && cacheState == old(cacheState)
      ensures fs.root.Some? ==> cachedFiles.Keys == fs.root.value.Keys && cacheState == cachedFiles
      ensures forall name :: name in cachedFiles ==> cachedFiles[name] == StampPath(cacheDir, name)
    {
      var listing := fs.root;
      if listing.None? {
        return map[];
      }
      cachedFiles := map name | name in listing.value :: StampPath(cacheDir, name);
      cacheState := cachedFiles;
    }

    /**
     * The tracked directories to prune: every one not kept and named `*.aar`; other
     * directories (the merged ones) belong to their creator and are never chosen.
     */
    function RemovedKeys(aarsToKeep: set<string>): (removed: set<string>)
      reads this
      ensures removed <= cacheState.Keys
      ensures removed !! aarsToKeep
      ensures forall name :: name in removed ==> EndsWith(name, Naming.DOT_AAR)
      ensures forall name :: name in cacheState && name !in aarsToKeep && EndsWith(name, Naming.DOT_AAR) ==> name in removed
    {
      set name | name in cacheState && name !in aarsToKeep && EndsWith(name, Naming.DOT_AAR)
    }

    /**
     * Deletes the directories `RemovedKeys` chooses and returns one task per removed
     * key, targeting `cacheDir/<key>`. The state itself is not changed.
     */
    method RemoveMissingFiles(aarsToKeep: set<string>, undeletable: set<string>) returns (tasks: seq<string>)
      modifies fs
      ensures cacheState == old(cacheState)
      ensures |tasks| == |RemovedKeys(aarsToKeep)|
      ensures forall t :: t in tasks <==> exists name :: name in RemovedKeys(aarsToKeep) && t == Join(cacheDir, name)
      ensures DeletedChildren(old(fs.root), fs.root, RemovedKeys(aarsToKeep), undeletable)
    {
      tasks := DeleteCacheEntries(RemovedKeys(aarsToKeep), undeletable);
    }

    /** One recursive delete per directory; a failing delete leaves its directory alone. */
    method DeleteCacheEntries(subDirs: set<string>, undeletable: set<string>) returns (tasks: seq<string>)
      modifies fs
      ensures |tasks| == |subDirs|
      ensures forall t :: t in tasks <==> exists name :: name in subDirs && t == Join(cacheDir, name)
      ensures DeletedChildren(old(fs.root), fs.root, subDirs, undeletable)
    {
      tasks := [];
      var pending := subDirs;
      while pending != {}
        invariant pending <= subDirs
        invariant |tasks| == |subDirs - pending|
        invariant forall t :: t in tasks <==> exists name :: name in subDirs - pending && t == Join(cacheDir, name)
        invariant DeletedChildren(old(fs.root), fs.root, subDirs - pending, undeletable)
        decreases pending
      {
        var name :| name in pending;
        fs.DeleteChild(name, name in undeletable);
        tasks := tasks + [Join(cacheDir, name)];
        assert subDirs - (pending - {name}) == (subDirs - pending) + {name};
        pending := pending - {name};
      }
    }

    /** Deletes the whole root (best effort) and always empties the state. */
    method ClearCache(deleteFails: bool)
      modifies this, fs
      ensures cacheState == map[] && Valid()
      ensures fs.root == if deleteFails then old(fs.root) else None
    {
      if fs.root.Some? {
        fs.DeleteRoot(deleteFails);
      }
      cacheState := map[];
    }

    /**
     * The directory for a name: None exactly when the state is empty (no scan has
     * found anything); otherwise `cacheDir/<name>`, tracked or not.
     */
    function GetCachedAarDir(aarDirName: string): (r: Option<string>)
      reads this
      ensures r.None? <==> cacheState == map[]
      ensures r.Some? ==> r.value == Join(cacheDir, aarDirName)
    {
      if cacheState == map[] then None else Some(Join(cacheDir, aarDirName))
    }

    /** The tracked names, each with its stamp path; empty exactly when every lookup fails. */
    function GetCachedKeys(): (keys: set<string>)
      reads this
      requires Valid()
      ensures forall name :: name in keys <==> name in cacheState
      ensures forall name :: name in keys ==> cacheState[name] == StampPath(cacheDir, name)
      ensures keys == {} <==> forall name :: GetCachedAarDir(name).None?
    {
      assert GetCachedAarDir(cacheDir).None? ==> cacheState == map[];
      assert cacheState == map[] <==> cacheState.Keys == {};
      cacheState.Keys
    }
  }
}
