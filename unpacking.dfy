/**
 * The Unpacker: extracts each updated archive into its raw cache directory
 * (`*.aar`), removes every other child of the cache root, then merges the raw
 * directories of each library key into one `*.mergedaar` directory.
 *
 * The thread pool's tasks are run one after another in an unspecified order
 * (`:|`); every property stated here holds whatever that order is.
 */
module Unpacking {
  import opened Wrappers
  import opened Text
  import opened JavaInts
  import opened Blaze
  import opened Records
  import opened Disk
  import Naming
  import Caching
  import opened Collections

  const DOT_MERGED_AAR := ".mergedaar"
  const DOT_JAR := ".jar"

  /* ---------------------------------------------------------------------- */
  /* Directory names                                                         */
  /* ---------------------------------------------------------------------- */

  /** `<libraryKey>_<hex of its hash>.mergedaar`. */
  function MergedDirName(libraryKey: string): string {
    Naming.GenerateAarDirectoryName(libraryKey, HashCode(libraryKey)) + DOT_MERGED_AAR
  }

  /** The merged directory of a library, named after its whole key. */
  function GetAarDirName(library: AarLibrary): (r: string)
    ensures StartsWith(r, library.key + "_")
    ensures EndsWith(r, DOT_MERGED_AAR)
    ensures !EndsWith(r, Naming.DOT_AAR)
  {
    MergedNameIsNotRaw(library.key);
    MergedDirName(library.key)
  }

  /** A merged name never ends in `.aar`: its last four characters are `daar`. */
  lemma MergedNameIsNotRaw(libraryKey: string)
    ensures !EndsWith(MergedDirName(libraryKey), Naming.DOT_AAR)
  {
    var stem := Naming.GenerateAarDirectoryName(libraryKey, HashCode(libraryKey));
    var m := MergedDirName(libraryKey);
    assert m[|m| - 4] == DOT_MERGED_AAR[6] == 'd';
  }

  /** Different library keys never share a merged directory. */
  lemma MergedDirNameInjective(k1: string, k2: string)
    ensures MergedDirName(k1) == MergedDirName(k2) <==> k1 == k2
  {
    var s1 := Naming.GenerateAarDirectoryName(k1, HashCode(k1));
    var s2 := Naming.GenerateAarDirectoryName(k2, HashCode(k2));
    Naming.StripSuffix(s1, s2, DOT_MERGED_AAR);
    Naming.GenerateAarDirectoryNameInjective(k1, HashCode(k1), k2, HashCode(k2));
  }

  /* ---------------------------------------------------------------------- */
  /* Unpacking one archive                                                   */
  /* ---------------------------------------------------------------------- */

  /** Where the I/O of one archive's unpacking throws, if anywhere. */
  datatype Fault =
    | NoFault
    | DeleteFails                          // deleting the old directory throws
    | ExtractFails(extracted: set<string>) // extraction throws after writing these entries
    | StampCreateFails                     // creating the stamp file throws
    | StampTimeFails                       // reading or setting the stamp's time fails

  /** The old directory is replaced, unless there is one and deleting it throws. */
  predicate Rewrites(prev: Option<Dir>, fault: Fault) {
    !(prev.Some? && fault.DeleteFails?)
  }

  /** The entries extraction writes: every non-jar entry, or those written before it threw. */
  function ExtractedEntries(archive: map<string, Bytes>, fault: Fault): map<string, Bytes> {
    map p | p in archive && !EndsWith(p, DOT_JAR) && (fault.ExtractFails? ==> p in fault.extracted) :: archive[p]
  }

  /** The directory after `createStampFile`. */
  function Stamped(d: Dir, aar: Artifact, fault: Fault): Dir {
    if fault.StampCreateFails? then d
    else
      var files := if Caching.STAMP_FILE_NAME in d.files then d.files else d.files[Caching.STAMP_FILE_NAME := []];
      Dir(files, if aar.IsLocal() && !fault.StampTimeFails? then Some(aar.mtime) else d.stampTime)
  }

  /**
   * The raw directory `unpackAarToDir` leaves behind, given the directory that was
   * there, the archive and jar contents, and where the I/O throws.
   */
  function UnpackedDir(prev: Option<Dir>, entry: AarAndJar, blobs: Blobs, fault: Fault): Dir {
    if !Rewrites(prev, fault) then prev.value
    else if entry.aar !in blobs.archives then Dir(map[], None)
    else
      var extracted := Dir(ExtractedEntries(blobs.archives[entry.aar], fault), None);
      if fault.ExtractFails? then extracted
      else
        var stamped := Stamped(extracted, entry.aar, fault);
        if entry.jar.Some? && entry.jar.value in blobs.jars then
          stamped.(files := stamped.files[Naming.JAR_PATH := blobs.jars[entry.jar.value]])
        else stamped
  }

  /** What `UnpackedDir` leaves, case by case. */
  lemma UnpackedDirContents(prev: Option<Dir>, entry: AarAndJar, blobs: Blobs, fault: Fault)
    // a failing delete leaves the old directory as it was
    ensures !Rewrites(prev, fault) ==> UnpackedDir(prev, entry, blobs, fault) == prev.value
    // an unreadable archive leaves an empty directory
    ensures Rewrites(prev, fault) && entry.aar !in blobs.archives ==> UnpackedDir(prev, entry, blobs, fault) == Dir(map[], None)
    // nothing of the old directory survives: only archive entries, the stamp and the jar
    ensures Rewrites(prev, fault) && entry.aar in blobs.archives ==>
      forall p :: p in UnpackedDir(prev, entry, blobs, fault).files ==>
        || (p in blobs.archives[entry.aar] && !EndsWith(p, DOT_JAR))
        || p == Caching.STAMP_FILE_NAME
        || (p == Naming.JAR_PATH && entry.jar.Some?)
    // an interrupted extraction keeps exactly the non-jar entries written, with no stamp
    ensures Rewrites(prev, fault) && entry.aar in blobs.archives && fault.ExtractFails? ==>
      && UnpackedDir(prev, entry, blobs, fault).stampTime.None?
      && (forall p :: p in UnpackedDir(prev, entry, blobs, fault).files <==>
           p in blobs.archives[entry.aar] && !EndsWith(p, DOT_JAR) && p in fault.extracted)
      && (forall p :: p in UnpackedDir(prev, entry, blobs, fault).files ==> UnpackedDir(prev, entry, blobs, fault).files[p] == blobs.archives[entry.aar][p])
    // otherwise every non-jar entry is there with its content ...
    ensures Rewrites(prev, fault) && entry.aar in blobs.archives && !fault.ExtractFails? ==>
      forall p :: p in blobs.archives[entry.aar] && !EndsWith(p, DOT_JAR) ==>
        p in UnpackedDir(prev, entry, blobs, fault).files && UnpackedDir(prev, entry, blobs, fault).files[p] == blobs.archives[entry.aar][p]
    // ... the stamp file exists unless creating it threw ...
    ensures Rewrites(prev, fault) && entry.aar in blobs.archives && !fault.ExtractFails? && !fault.StampCreateFails? ==>
      Caching.STAMP_FILE_NAME in UnpackedDir(prev, entry, blobs, fault).files
    // ... and when creating it threw, a stamp file is there only if the archive holds an entry of that name ...
    ensures Rewrites(prev, fault) && entry.aar in blobs.archives && fault.StampCreateFails? ==>
      (Caching.STAMP_FILE_NAME in UnpackedDir(prev, entry, blobs, fault).files <==> Caching.STAMP_FILE_NAME in blobs.archives[entry.aar])
    // ... the stamp carries the archive's time exactly when it is local and stamping did not fail ...
    ensures Rewrites(prev, fault) && entry.aar in blobs.archives && !fault.ExtractFails? ==>
      UnpackedDir(prev, entry, blobs, fault).stampTime == if !fault.StampCreateFails? && !fault.StampTimeFails? && entry.aar.IsLocal()
                     then Some(entry.aar.mtime) else None
    // ... and the merged jar is there exactly when the library has a readable one
    ensures Rewrites(prev, fault) && entry.aar in blobs.archives && !fault.ExtractFails? ==>
      && (Naming.JAR_PATH in UnpackedDir(prev, entry, blobs, fault).files <==> entry.jar.Some? && entry.jar.value in blobs.jars)
      && (Naming.JAR_PATH in UnpackedDir(prev, entry, blobs, fault).files ==> UnpackedDir(prev, entry, blobs, fault).files[Naming.JAR_PATH] == blobs.jars[entry.jar.value])
  {
    assert !EndsWith(Naming.JAR_PATH, DOT_JAR) ==> false by {
      assert Naming.JAR_PATH[|Naming.JAR_PATH| - 4..] == DOT_JAR;
    }
    assert Caching.STAMP_FILE_NAME != Naming.JAR_PATH && !EndsWith(Caching.STAMP_FILE_NAME, DOT_JAR);
  }


  /**
   * Unpacks one archive into `<cacheDir>/<its raw name>`: delete what was there,
   * create the directory, extract the non-jar entries, create the stamp, copy the
   * merged jar. An I/O failure ends the unpacking of this archive only.
   */
  method UnpackAarToDir(fs: Fs, entry: AarAndJar, blobs: Blobs, fault: Fault)
    requires Naming.GetAarDirName(entry.aar).Success?
    modifies fs
    ensures var name := Naming.GetAarDirName(entry.aar).value;
      fs.root == Some(Kids(old(fs.root))[name := UnpackedDir(Lookup(old(fs.root), name), entry, blobs, fault)])
  {
    var name := Naming.GetAarDirName(entry.aar).value;
    UnpackInto(fs, name, entry, blobs, fault);
  }

  /** The steps of `unpackAarToDir` once the raw directory's name is known. */
  method UnpackInto(fs: Fs, name: string, entry: AarAndJar, blobs: Blobs, fault: Fault)
    modifies fs
    ensures fs.root == Some(Kids(old(fs.root))[name := UnpackedDir(Lookup(old(fs.root), name), entry, blobs, fault)])
  {
    ghost var kids := Kids(fs.root);
    var prev := Lookup(fs.root, name);
    if prev.Some? {
      if fault.DeleteFails? {
        UpdateSame(kids, name);
        return;
      }
      fs.DeleteChild(name, false);
      RemoveThenUpdate(kids, name, Dir(map[], None));
    }
    fs.MakeChild(name);
    assert fs.root == Some(kids[name := Dir(map[], None)]);
    if entry.aar !in blobs.archives {
      return;
    }
    var extracted := ExtractedEntries(blobs.archives[entry.aar], fault);
    fs.WriteFiles(name, extracted);
    assert map[] + extracted == extracted;
    UpdateTwice(kids, name, Dir(map[], None), Dir(extracted, None));
    if fault.ExtractFails? {
      return;
    }
    CreateStampFile(fs, name, entry.aar, fault);
    ghost var stamped := Stamped(Dir(extracted, None), entry.aar, fault);
    UpdateTwice(kids, name, Dir(extracted, None), stamped);
    // the merged jar goes to `jars/classes_and_libs_merged.jar` under the raw directory
    if entry.jar.Some? && entry.jar.value in blobs.jars {
      fs.WriteFile(name, Naming.JAR_PATH, blobs.jars[entry.jar.value]);
      UpdateTwice(kids, name, stamped, stamped.(files := stamped.files[Naming.JAR_PATH := blobs.jars[entry.jar.value]]));
    }
  }

  /** Creates the stamp file, then gives a local archive's modification time to it. */
  method CreateStampFile(fs: Fs, name: string, aar: Artifact, fault: Fault)
    requires name in Kids(fs.root)
    modifies fs
    ensures fs.root == Some(Kids(old(fs.root))[name := Stamped(Kids(old(fs.root))[name], aar, fault)])
  {
    if fault.StampCreateFails? {
      UpdateSame(Kids(fs.root), name);
      return;
    }
    ghost var kids := Kids(fs.root);
    ghost var d := kids[name];
    ghost var created := if Caching.STAMP_FILE_NAME in d.files then d else d.(files := d.files[Caching.STAMP_FILE_NAME := []]);
    fs.CreateNewFile(name, Caching.STAMP_FILE_NAME);
    if !aar.IsLocal() || fault.StampTimeFails? {
      return;
    }
    fs.SetStampTime(name, aar.mtime);
    UpdateTwice(kids, name, created, created.(stampTime := Some(aar.mtime)));
  }

  /* ---------------------------------------------------------------------- */
  /* Unpacking the updated archives                                          */
  /* ---------------------------------------------------------------------- */

  /** Every entry sits under the raw name of its own archive. */
  ghost predicate WellKeyed(toCache: map<string, AarAndJar>) {
    forall name :: name in toCache ==> Naming.GetAarDirName(toCache[name].aar) == Success(name)
  }

  /** The fault of one raw directory's unpacking (none when not given). */
  function FaultOf(faults: map<string, Fault>, name: string): Fault {
    if name in faults then faults[name] else NoFault
  }

  /** `after` is `before` with the raw directories of `keys` unpacked afresh. */
  ghost predicate Unpacked(before: Option<Children>, after: Option<Children>, toCache: map<string, AarAndJar>,
                           keys: set<string>, blobs: Blobs, faults: map<string, Fault>)
    requires keys <= toCache.Keys
  {
    && (after.Some? <==> before.Some? || keys != {})
    && forall name :: Lookup(after, name) ==
         if name in keys then Some(UnpackedDir(Lookup(before, name), toCache[name], blobs, FaultOf(faults, name)))
         else Lookup(before, name)
  }

  lemma WellKeyedNamesAreRaw(toCache: map<string, AarAndJar>)
    requires WellKeyed(toCache)
    ensures forall name :: name in toCache ==> EndsWith(name, Naming.DOT_AAR)
  {
    forall name | name in toCache
      ensures EndsWith(name, Naming.DOT_AAR)
    {
      Naming.AarDirNameShape(toCache[name].aar);
    }
  }

  lemma UnpackedStep(root0: Option<Children>, before: Option<Children>, after: Option<Children>,
                     toCache: map<string, AarAndJar>, done: set<string>, key: string,
                     blobs: Blobs, faults: map<string, Fault>)
    requires done <= toCache.Keys && key in toCache && key !in done
    requires Unpacked(root0, before, toCache, done, blobs, faults)
    requires after == Some(Kids(before)[key := UnpackedDir(Lookup(before, key), toCache[key], blobs, FaultOf(faults, key))])
    ensures Unpacked(root0, after, toCache, done + {key}, blobs, faults)
  {
    assert Lookup(before, key) == Lookup(root0, key);
  }

  /** One unpacking task per updated key, each on its own raw directory. */
  method UnpackAarsToDir(fs: Fs, toCache: map<string, AarAndJar>, updatedKeys: set<string>,
                         blobs: Blobs, faults: map<string, Fault>)
    requires WellKeyed(toCache) && updatedKeys <= toCache.Keys
    modifies fs
    ensures Unpacked(old(fs.root), fs.root, toCache, updatedKeys, blobs, faults)
  {
    var pending := updatedKeys;
    while pending != {}
      invariant pending <= updatedKeys
      invariant Unpacked(old(fs.root), fs.root, toCache, updatedKeys - pending, blobs, faults)
      decreases pending
    {
      var key :| key in pending;
      ghost var before := fs.root;
      UnpackAarToDir(fs, toCache[key], blobs, FaultOf(faults, key));
      UnpackedStep(old(fs.root), before, fs.root, toCache, updatedKeys - pending, key, blobs, faults);
      TakeOne(updatedKeys, pending, key);
      pending := pending - {key};
    }
  }

  /* ---------------------------------------------------------------------- */
  /* Removing the non-raw directories                                        */
  /* ---------------------------------------------------------------------- */

  /** `after` keeps the raw directories of `before` and the others whose deletion fails. */
  ghost predicate NonAarRemoved(before: Option<Children>, after: Option<Children>, undeletable: set<string>) {
    && (after.Some? <==> before.Some?)
    && forall name :: Lookup(after, name) ==
         if EndsWith(name, Naming.DOT_AAR) || name in undeletable then Lookup(before, name) else None
  }

  /** Deletes every child of the root whose name does not end in `.aar`; nothing when it cannot be listed. */
  method RemoveNonAarDirectories(fs: Fs, undeletable: set<string>)
    modifies fs
    ensures NonAarRemoved(old(fs.root), fs.root, undeletable)
  {
    var files := fs.root;
    if files.None? {
      return;
    }
    var doomed := set name | name in files.value && !EndsWith(name, Naming.DOT_AAR);
    var pending := doomed;
    while pending != {}
      invariant pending <= doomed
      invariant DeletedChildren(old(fs.root), fs.root, doomed - pending, undeletable)
      decreases pending
    {
      var name :| name in pending;
      fs.DeleteChild(name, name in undeletable);
      TakeOne(doomed, pending, name);
      pending := pending - {name};
    }
  }

  /* ---------------------------------------------------------------------- */
  /* Merging                                                                 */
  /* ---------------------------------------------------------------------- */

  /** The library keys of the entries. */
  function LibraryKeys(toMerge: map<string, AarAndJar>): set<string> {
    set name | name in toMerge :: toMerge[name].libraryKey
  }

  /** The raw names among `names` whose entry belongs to library `key`. */
  function MembersIn(toMerge: map<string, AarAndJar>, names: set<string>, key: string): set<string> {
    set name | name in names && name in toMerge && toMerge[name].libraryKey == key
  }

  /** The raw names whose entry belongs to library `key`. */
  function Members(toMerge: map<string, AarAndJar>, key: string): set<string> {
    set name | name in toMerge && toMerge[name].libraryKey == key
  }

  /** The merged directory names of the entries' libraries. */
  function MergedNames(toMerge: map<string, AarAndJar>): set<string> {
    set key | key in LibraryKeys(toMerge) :: MergedDirName(key)
  }

  /** `groups` lists, per library key, the archives of the given entries. */
  ghost predicate GroupedBy(groups: map<string, seq<Artifact>>, toMerge: map<string, AarAndJar>, names: set<string>)
    requires names <= toMerge.Keys
  {
    && groups.Keys == (set name | name in names :: toMerge[name].libraryKey)
    && (forall key, aar :: key in groups ==>
          (aar in groups[key] <==> exists name :: name in MembersIn(toMerge, names, key) && toMerge[name].aar == aar))
    && (forall key :: key in groups ==> |groups[key]| == |MembersIn(toMerge, names, key)|)
  }

  /**
   * `computeIfAbsent(libraryKey, new list).add(aar)` over the entries: each archive
   * is listed once, under its own library key.
   */
  method GroupByLibrary(toMerge: map<string, AarAndJar>) returns (groups: map<string, seq<Artifact>>)
    ensures groups.Keys == LibraryKeys(toMerge)
    ensures forall key, aar :: key in groups ==>
      (aar in groups[key] <==> exists name :: name in Members(toMerge, key) && toMerge[name].aar == aar)
    ensures forall key :: key in groups ==> |groups[key]| == |Members(toMerge, key)|
  {
    groups := map[];
    var pending := toMerge.Keys;
    while pending != {}
      invariant pending <= toMerge.Keys
      invariant GroupedBy(groups, toMerge, toMerge.Keys - pending)
      decreases pending
    {
      var name :| name in pending;
      var done := toMerge.Keys - pending;
      var entry := toMerge[name];
      var list := if entry.libraryKey in groups then groups[entry.libraryKey] else [];
      GroupStep(groups, toMerge, done, name);
      groups := groups[entry.libraryKey := list + [entry.aar]];
      TakeOne(toMerge.Keys, pending, name);
      pending := pending - {name};
    }
    NonePending(toMerge.Keys, pending);
    forall key ensures MembersIn(toMerge, toMerge.Keys, key) == Members(toMerge, key) {
    }
  }

  lemma GroupStep(groups: map<string, seq<Artifact>>, toMerge: map<string, AarAndJar>, done: set<string>, name: string)
    requires done <= toMerge.Keys && name in toMerge && name !in done
    requires GroupedBy(groups, toMerge, done)
    ensures var key := toMerge[name].libraryKey;
      var list := if key in groups then groups[key] else [];
      GroupedBy(groups[key := list + [toMerge[name].aar]], toMerge, done + {name})
  {
    var key := toMerge[name].libraryKey;
    var list := if key in groups then groups[key] else [];
    var groups' := groups[key := list + [toMerge[name].aar]];
    var done' := done + {name};
    assert groups'.Keys == (set n | n in done' :: toMerge[n].libraryKey) by {
      assert (set n | n in done' :: toMerge[n].libraryKey) == (set n | n in done :: toMerge[n].libraryKey) + {key};
    }
    forall k, aar | k in groups'
      ensures aar in groups'[k] <==> exists n :: n in MembersIn(toMerge, done', k) && toMerge[n].aar == aar
    {
      if k == key {
        GroupStepAt(groups, toMerge, done, name, aar);
      } else {
        GroupStepOther(toMerge, done, name, k);
      }
    }
    forall k | k in groups'
      ensures |groups'[k]| == |MembersIn(toMerge, done', k)|
    {
      if k == key {
        GroupStepCount(groups, toMerge, done, name);
      } else {
        GroupStepOther(toMerge, done, name, k);
      }
    }
  }

  /** Adding an entry leaves the members of every other library as they were. */
  lemma GroupStepOther(toMerge: map<string, AarAndJar>, done: set<string>, name: string, k: string)
    requires name in toMerge && k != toMerge[name].libraryKey
    ensures MembersIn(toMerge, done + {name}, k) == MembersIn(toMerge, done, k)
  {
  }

  /** Adding an entry lengthens its own library's list and member set by one each. */
  lemma GroupStepCount(groups: map<string, seq<Artifact>>, toMerge: map<string, AarAndJar>, done: set<string>, name: string)
    requires done <= toMerge.Keys && name in toMerge && name !in done
    requires GroupedBy(groups, toMerge, done)
    ensures var key := toMerge[name].libraryKey;
      var list := if key in groups then groups[key] else [];
      |list + [toMerge[name].aar]| == |MembersIn(toMerge, done + {name}, key)|
  {
    var key := toMerge[name].libraryKey;
    assert MembersIn(toMerge, done + {name}, key) == MembersIn(toMerge, done, key) + {name};
    if key !in groups {
      assert MembersIn(toMerge, done, key) == {};
    }
  }

  /** The list of the added entry's own library after the step, one archive at a time. */
  lemma GroupStepAt(groups: map<string, seq<Artifact>>, toMerge: map<string, AarAndJar>, done: set<string>, name: string,
                    aar: Artifact)
    requires done <= toMerge.Keys && name in toMerge && name !in done
    requires GroupedBy(groups, toMerge, done)
    ensures var key := toMerge[name].libraryKey;
      var list := if key in groups then groups[key] else [];
      aar in list + [toMerge[name].aar] <==>
        exists n :: n in MembersIn(toMerge, done + {name}, key) && toMerge[n].aar == aar
  {
    var key := toMerge[name].libraryKey;
    var list := if key in groups then groups[key] else [];
    assert MembersIn(toMerge, done + {name}, key) == MembersIn(toMerge, done, key) + {name};
    assert key !in groups ==> MembersIn(toMerge, done, key) == {};
    if aar in list + [toMerge[name].aar] && aar != toMerge[name].aar {
      assert aar in list;
    }
    if aar == toMerge[name].aar {
      assert name in MembersIn(toMerge, done + {name}, key);
    }
  }

  /**
   * A copy that throws: `(source directory, destination directory, relative path)`.
   * Each copying task copies on its own, so one source's copy of a path can fail
   * while another source's copy of the same path succeeds.
   */
  type CopyFault = (string, string, string)

  /**
   * The merged directory after copying the files of the source directory `srcName`
   * into `dest`: a file already there is kept, a missing one is copied unless this
   * source's copy of it fails. The destination exists afterwards when the source
   * has any file.
   */
  function CopiedInto(dest: Option<Dir>, source: map<string, Bytes>, srcName: string, destName: string,
                      copyFails: set<CopyFault>): (d: Option<Dir>)
    ensures source == map[] ==> d == dest
    ensures source != map[] ==> d.Some?
    ensures forall p :: p in FilesOf(dest) ==> p in FilesOf(d) && FilesOf(d)[p] == FilesOf(dest)[p]
    ensures forall p :: p in source && p !in FilesOf(dest) ==>
      (p in FilesOf(d) <==> (srcName, destName, p) !in copyFails)
    ensures forall p :: p in FilesOf(d) && p !in FilesOf(dest) ==> p in source && FilesOf(d)[p] == source[p]
  {
    if source == map[] then dest
    else
      var added := map p | p in source && p !in FilesOf(dest) && (srcName, destName, p) !in copyFails :: source[p];
      Some(Dir(FilesOf(dest) + added, if dest.Some? then dest.value.stampTime else None))
  }

  /** The first copy of a file wins: copying `a` then `b` puts the same files where as `b` then `a`. */
  lemma CopyOrderKeepsNames(dest: Option<Dir>, a: map<string, Bytes>, aName: string, b: map<string, Bytes>, bName: string,
                            destName: string, copyFails: set<CopyFault>)
    ensures FilesOf(CopiedInto(CopiedInto(dest, a, aName, destName, copyFails), b, bName, destName, copyFails)).Keys
         == FilesOf(CopiedInto(CopiedInto(dest, b, bName, destName, copyFails), a, aName, destName, copyFails)).Keys
  {
  }

  /** Without a file in common, the order of two copies makes no difference at all. */
  lemma CopyOrderIrrelevantWithoutClash(dest: Option<Dir>, a: map<string, Bytes>, aName: string,
                                        b: map<string, Bytes>, bName: string,
                                        destName: string, copyFails: set<CopyFault>)
    requires a.Keys !! b.Keys
    ensures CopiedInto(CopiedInto(dest, a, aName, destName, copyFails), b, bName, destName, copyFails)
         == CopiedInto(CopiedInto(dest, b, bName, destName, copyFails), a, aName, destName, copyFails)
  {
    var da, db := CopiedInto(dest, a, aName, destName, copyFails), CopiedInto(dest, b, bName, destName, copyFails);
    var ab, ba := CopiedInto(da, b, bName, destName, copyFails), CopiedInto(db, a, aName, destName, copyFails);
    if a == map[] {
      assert da == dest && ba == db;
    } else if b == map[] {
      assert db == dest && ab == da;
    } else {
      CopyOrderFiles(dest, a, aName, b, bName, destName, copyFails);
      assert ab.value.stampTime == ba.value.stampTime == if dest.Some? then dest.value.stampTime else None;
    }
  }

  /** The files half of `CopyOrderIrrelevantWithoutClash`. */
  lemma CopyOrderFiles(dest: Option<Dir>, a: map<string, Bytes>, aName: string, b: map<string, Bytes>, bName: string,
                       destName: string, copyFails: set<CopyFault>)
    requires a.Keys !! b.Keys
    ensures FilesOf(CopiedInto(CopiedInto(dest, a, aName, destName, copyFails), b, bName, destName, copyFails))
         == FilesOf(CopiedInto(CopiedInto(dest, b, bName, destName, copyFails), a, aName, destName, copyFails))
  {
    var ab := CopiedInto(CopiedInto(dest, a, aName, destName, copyFails), b, bName, destName, copyFails);
    var ba := CopiedInto(CopiedInto(dest, b, bName, destName, copyFails), a, aName, destName, copyFails);
    forall p
      ensures p in FilesOf(ab) <==> p in FilesOf(ba)
      ensures p in FilesOf(ab) ==> FilesOf(ab)[p] == FilesOf(ba)[p]
    {
      CopyOrderAt(dest, a, aName, b, bName, destName, copyFails, p);
    }
    SameEntries(FilesOf(ab), FilesOf(ba));
  }

  lemma SameEntries(m: map<string, Bytes>, m': map<string, Bytes>)
    requires forall p :: p in m <==> p in m'
    requires forall p :: p in m ==> m[p] == m'[p]
    ensures m == m'
  {
  }

  /** One path of `CopyOrderIrrelevantWithoutClash`: only the source holding it can copy it. */
  lemma CopyOrderAt(dest: Option<Dir>, a: map<string, Bytes>, aName: string, b: map<string, Bytes>, bName: string,
                    destName: string, copyFails: set<CopyFault>, p: string)
    requires a.Keys !! b.Keys
    ensures var ab := CopiedInto(CopiedInto(dest, a, aName, destName, copyFails), b, bName, destName, copyFails);
      var ba := CopiedInto(CopiedInto(dest, b, bName, destName, copyFails), a, aName, destName, copyFails);
      && (p in FilesOf(ab) <==> p in FilesOf(ba))
      && (p in FilesOf(ab) ==> FilesOf(ab)[p] == FilesOf(ba)[p])
  {
    var da, db := CopiedInto(dest, a, aName, destName, copyFails), CopiedInto(dest, b, bName, destName, copyFails);
    if p in a {
      assert p !in b;
      assert p in FilesOf(CopiedInto(da, b, bName, destName, copyFails)) <==> p in FilesOf(da);
    } else if p in b {
      assert p in FilesOf(CopiedInto(db, a, aName, destName, copyFails)) <==> p in FilesOf(db);
    }
  }

  /** The files of `m` whose path is in `keys`. */
  function Restrict(m: map<string, Bytes>, keys: set<string>): map<string, Bytes> {
    map p | p in m && p in keys :: m[p]
  }

  /** One more file of the same source: make the directory, then copy if missing and the copy succeeds. */
  function CopyOne(dest: Option<Dir>, path: string, content: Bytes, srcName: string, destName: string,
                   copyFails: set<CopyFault>): Option<Dir>
  {
    var d := if dest.Some? then dest.value else Dir(map[], None);
    if path in d.files || (srcName, destName, path) in copyFails then Some(d)
    else Some(d.(files := d.files[path := content]))
  }

  lemma CopiedIntoStep(dest: Option<Dir>, source: map<string, Bytes>, done: set<string>, path: string,
                       srcName: string, destName: string, copyFails: set<CopyFault>)
    requires path in source && path !in done
    ensures CopiedInto(dest, Restrict(source, done + {path}), srcName, destName, copyFails)
         == CopyOne(CopiedInto(dest, Restrict(source, done), srcName, destName, copyFails), path, source[path],
                    srcName, destName, copyFails)
  {
    var r0, r1 := Restrict(source, done), Restrict(source, done + {path});
    var before := CopiedInto(dest, r0, srcName, destName, copyFails);
    var after := CopiedInto(dest, r1, srcName, destName, copyFails);
    var step := CopyOne(before, path, source[path], srcName, destName, copyFails);
    assert path in r1;
    forall p
      ensures p in FilesOf(after) <==> p in FilesOf(step)
      ensures p in FilesOf(after) ==> FilesOf(after)[p] == FilesOf(step)[p]
    {
      if p != path {
        assert p in r1 <==> p in r0;
      } else {
        assert p !in r0;
      }
    }
    SameEntries(FilesOf(after), FilesOf(step));
  }

  /** One file of a copying task: `mkdirs` on the destination, then the copy unless the file is there or it fails. */
  method CopyFile(fs: Fs, src: string, dest: string, path: string, content: Bytes, copyFails: set<CopyFault>)
    modifies fs
    ensures fs.root == Some(Kids(old(fs.root))[dest := CopyOne(Lookup(old(fs.root), dest), path, content, src, dest, copyFails).value])
  {
    ghost var kids := Kids(fs.root);
    ghost var d := if dest in kids then kids[dest] else Dir(map[], None);
    fs.MakeChild(dest);
    if path !in Kids(fs.root)[dest].files && (src, dest, path) !in copyFails {
      fs.WriteFile(dest, path, content);
      assert kids[dest := d][dest := d.(files := d.files[path := content])] == kids[dest := d.(files := d.files[path := content])];
    }
  }

  /**
   * Copies every file of the raw directory `src` into `dest` under the same
   * relative path, creating `dest` as it goes. A file already at the
   * destination is left alone; a failing copy is skipped.
   */
  method CopyFiles(fs: Fs, src: string, dest: string, copyFails: set<CopyFault>)
    requires src != dest
    modifies fs
    ensures Lookup(fs.root, dest) == CopiedInto(Lookup(old(fs.root), dest), FilesOf(Lookup(old(fs.root), src)), src, dest, copyFails)
    ensures forall name :: name != dest ==> Lookup(fs.root, name) == Lookup(old(fs.root), name)
    ensures old(fs.root).Some? ==> fs.root.Some?
  {
    var listing := FilesOf(Lookup(fs.root, src));
    var pending := listing.Keys;
    assert Restrict(listing, {}) == map[];
    while pending != {}
      invariant pending <= listing.Keys
      invariant Lookup(fs.root, dest) == CopiedInto(Lookup(old(fs.root), dest), Restrict(listing, listing.Keys - pending), src, dest, copyFails)
      invariant forall name :: name != dest ==> Lookup(fs.root, name) == Lookup(old(fs.root), name)
      invariant old(fs.root).Some? ==> fs.root.Some?
      decreases pending
    {
      var path :| path in pending;
      ghost var done := listing.Keys - pending;
      CopiedIntoStep(Lookup(old(fs.root), dest), listing, done, path, src, dest, copyFails);
      CopyFile(fs, src, dest, path, listing[path], copyFails);
      TakeOne(listing.Keys, pending, path);
      pending := pending - {path};
    }
    NonePending(listing.Keys, pending);
    assert Restrict(listing, listing.Keys) == listing;
  }

  /** Some directory among `sources` (read in `root`) holds the file `path` and copies it into `destName` without failing. */
  ghost predicate SuppliedBy(sources: set<string>, root: Option<Children>, destName: string,
                             copyFails: set<CopyFault>, path: string)
  {
    exists s :: s in sources && path in FilesOf(Lookup(root, s)) && (s, destName, path) !in copyFails
  }

  /**
   * `after` is `before` with the files of the directories `sources` copied in,
   * in some order: what was there is kept; a path is there exactly when it was
   * there or some source copies it without failing, and then it has the content
   * of one such source; nothing else appears.
   */
  ghost predicate MergedFrom(after: Option<Dir>, before: Option<Dir>, sources: set<string>, root: Option<Children>,
                             destName: string, copyFails: set<CopyFault>)
  {
    && (forall p :: p in FilesOf(before) ==> p in FilesOf(after) && FilesOf(after)[p] == FilesOf(before)[p])
    && (forall p :: p in FilesOf(after) <==> p in FilesOf(before) || SuppliedBy(sources, root, destName, copyFails, p))
    && (forall p :: p in FilesOf(after) && p !in FilesOf(before) ==>
          exists s :: s in sources && p in FilesOf(Lookup(root, s)) && (s, destName, p) !in copyFails
                      && FilesOf(after)[p] == FilesOf(Lookup(root, s))[p])
    && (before.Some? ==> after.Some?)
  }

  lemma {:induction false} MergedFromStep(after: Option<Dir>, before: Option<Dir>, sources: set<string>,
                                          root: Option<Children>, destName: string,
                                          copyFails: set<CopyFault>, src: string)
    requires MergedFrom(after, before, sources, root, destName, copyFails)
    ensures MergedFrom(CopiedInto(after, FilesOf(Lookup(root, src)), src, destName, copyFails), before,
                       sources + {src}, root, destName, copyFails)
  {
    var next := CopiedInto(after, FilesOf(Lookup(root, src)), src, destName, copyFails);
    forall p | p in FilesOf(next) && p !in FilesOf(before)
      ensures exists s :: s in sources + {src} && p in FilesOf(Lookup(root, s)) && (s, destName, p) !in copyFails
                && FilesOf(next)[p] == FilesOf(Lookup(root, s))[p]
    {
      if p in FilesOf(after) {
        var s :| s in sources && p in FilesOf(Lookup(root, s)) && (s, destName, p) !in copyFails
                 && FilesOf(after)[p] == FilesOf(Lookup(root, s))[p];
        assert s in sources + {src};
      } else {
        assert src in sources + {src};
      }
    }
    forall p
      ensures p in FilesOf(next) <==> p in FilesOf(before) || SuppliedBy(sources + {src}, root, destName, copyFails, p)
    {
      if SuppliedBy(sources + {src}, root, destName, copyFails, p) && !SuppliedBy(sources, root, destName, copyFails, p) {
        assert p in FilesOf(Lookup(root, src)) && (src, destName, p) !in copyFails;
      }
      if p in FilesOf(next) && p !in FilesOf(after) {
        assert src in sources + {src};
      }
    }
  }

  /** A merge reads only its sources: it means the same in a root that agrees on them. */
  lemma MergedFromSameSources(after: Option<Dir>, before: Option<Dir>, sources: set<string>,
                              root: Option<Children>, root': Option<Children>,
                              destName: string, copyFails: set<CopyFault>)
    requires forall s :: s in sources ==> Lookup(root, s) == Lookup(root', s)
    requires MergedFrom(after, before, sources, root, destName, copyFails)
    ensures MergedFrom(after, before, sources, root', destName, copyFails)
  {
    forall p
      ensures SuppliedBy(sources, root, destName, copyFails, p) <==> SuppliedBy(sources, root', destName, copyFails, p)
    {
      if SuppliedBy(sources, root, destName, copyFails, p) {
        var s :| s in sources && p in FilesOf(Lookup(root, s)) && (s, destName, p) !in copyFails;
        assert p in FilesOf(Lookup(root', s));
      }
      if SuppliedBy(sources, root', destName, copyFails, p) {
        var s :| s in sources && p in FilesOf(Lookup(root', s)) && (s, destName, p) !in copyFails;
        assert p in FilesOf(Lookup(root, s));
      }
    }
    forall p | p in FilesOf(after) && p !in FilesOf(before)
      ensures exists s :: s in sources && p in FilesOf(Lookup(root', s)) && (s, destName, p) !in copyFails
                          && FilesOf(after)[p] == FilesOf(Lookup(root', s))[p]
    {
      var s :| s in sources && p in FilesOf(Lookup(root, s)) && (s, destName, p) !in copyFails
               && FilesOf(after)[p] == FilesOf(Lookup(root, s))[p];
      assert Lookup(root, s) == Lookup(root', s);
    }
  }

  /** The sources of the copying tasks into `dest`. */
  function SourcesFor(tasks: set<(string, string)>, dest: string): set<string> {
    set t | t in tasks && t.1 == dest :: t.0
  }

  /** The destinations of the copying tasks. */
  function Dests(tasks: set<(string, string)>): set<string> {
    set t | t in tasks :: t.1
  }

  /** Every destination holds the files of its sources, merged in some order; nothing else changes. */
  ghost predicate TasksRun(before: Option<Children>, after: Option<Children>, tasks: set<(string, string)>,
                           copyFails: set<CopyFault>)
  {
    && (before.Some? ==> after.Some?)
    && (forall name :: name !in Dests(tasks) ==> Lookup(after, name) == Lookup(before, name))
    && (forall dest :: MergedFrom(Lookup(after, dest), Lookup(before, dest), SourcesFor(tasks, dest), before, dest, copyFails))
  }

  lemma RunNothing(root: Option<Children>, copyFails: set<CopyFault>)
    ensures TasksRun(root, root, {}, copyFails)
  {
    forall dest
      ensures MergedFrom(Lookup(root, dest), Lookup(root, dest), SourcesFor({}, dest), root, dest, copyFails)
    {
      assert SourcesFor({}, dest) == {};
    }
  }

  lemma {:induction false} RunStep(root0: Option<Children>, before: Option<Children>, after: Option<Children>,
                                   done: set<(string, string)>, task: (string, string), copyFails: set<CopyFault>)
    requires TasksRun(root0, before, done, copyFails)
    requires Lookup(before, task.0) == Lookup(root0, task.0)
    requires Lookup(after, task.1) == CopiedInto(Lookup(before, task.1), FilesOf(Lookup(before, task.0)), task.0, task.1, copyFails)
    requires forall name :: name != task.1 ==> Lookup(after, name) == Lookup(before, name)
    requires before.Some? ==> after.Some?
    ensures TasksRun(root0, after, done + {task}, copyFails)
  {
    var done' := done + {task};
    forall dest
      ensures MergedFrom(Lookup(after, dest), Lookup(root0, dest), SourcesFor(done', dest), root0, dest, copyFails)
    {
      if dest == task.1 {
        assert SourcesFor(done', dest) == SourcesFor(done, dest) + {task.0};
        MergedFromStep(Lookup(before, dest), Lookup(root0, dest), SourcesFor(done, dest), root0, dest, copyFails, task.0);
      } else {
        assert SourcesFor(done', dest) == SourcesFor(done, dest);
      }
    }
    forall name | name !in Dests(done')
      ensures Lookup(after, name) == Lookup(root0, name)
    {
      assert name !in Dests(done);
    }
  }

  /**
   * Runs the copying tasks `(source, destination)` one after another, in some order.
   * No source is a destination, so every source is read as it was before.
   */
  method RunCopyTasks(fs: Fs, tasks: set<(string, string)>, copyFails: set<CopyFault>)
    requires forall t, u :: t in tasks && u in tasks ==> t.0 != u.1
    modifies fs
    ensures TasksRun(old(fs.root), fs.root, tasks, copyFails)
  {
    var pending := tasks;
    RunNothing(fs.root, copyFails);
    while pending != {}
      invariant pending <= tasks
      invariant TasksRun(old(fs.root), fs.root, tasks - pending, copyFails)
      invariant forall t :: t in tasks ==> Lookup(fs.root, t.0) == Lookup(old(fs.root), t.0)
      decreases pending
    {
      var task :| task in pending;
      ghost var before := fs.root;
      CopyFiles(fs, task.0, task.1, copyFails);
      RunStep(old(fs.root), before, fs.root, tasks - pending, task, copyFails);
      TakeOne(tasks, pending, task);
      pending := pending - {task};
    }
    NonePending(tasks, pending);
  }

  /**
   * `after` is `before` with, for every library key, its raw directories (read in
   * `before`) merged into its merged directory; nothing else changes.
   */
  ghost predicate Merged(before: Option<Children>, after: Option<Children>, toMerge: map<string, AarAndJar>,
                         copyFails: set<CopyFault>)
  {
    && (before.Some? ==> after.Some?)
    && (forall name :: name !in MergedNames(toMerge) ==> Lookup(after, name) == Lookup(before, name))
    && (forall key :: key in LibraryKeys(toMerge) ==>
          MergedFrom(Lookup(after, MergedDirName(key)), Lookup(before, MergedDirName(key)),
                     Members(toMerge, key), before, MergedDirName(key), copyFails))
  }

  /** The copying tasks of the libraries in `keys`: each member's raw directory into its merged one. */
  function TasksOf(toMerge: map<string, AarAndJar>, keys: set<string>): set<(string, string)> {
    set name | name in toMerge && toMerge[name].libraryKey in keys :: (name, MergedDirName(toMerge[name].libraryKey))
  }

  /**
   * Groups the archives by library key, then submits one copying task per
   * (library key, archive), from the archive's raw directory into the library's
   * merged directory, and runs them all.
   */
  method MergeAars(fs: Fs, toMerge: map<string, AarAndJar>, copyFails: set<CopyFault>)
    requires WellKeyed(toMerge)
    modifies fs
    ensures Merged(old(fs.root), fs.root, toMerge, copyFails)
  {
    var tasks := MergeTasks(toMerge);
    TasksDisjoint(toMerge);
    RunCopyTasks(fs, tasks, copyFails);
    RunIsMerge(old(fs.root), fs.root, toMerge, copyFails);
  }

  /** The copying tasks of the merge, built from the archives grouped by library key. */
  method MergeTasks(toMerge: map<string, AarAndJar>) returns (tasks: set<(string, string)>)
    requires WellKeyed(toMerge)
    ensures tasks == TasksOf(toMerge, LibraryKeys(toMerge))
  {
    var groups := GroupByLibrary(toMerge);
    tasks := {};
    var pendingKeys := groups.Keys;
    while pendingKeys != {}
      invariant pendingKeys <= groups.Keys
      invariant tasks == TasksOf(toMerge, groups.Keys - pendingKeys)
      decreases pendingKeys
    {
      var key :| key in pendingKeys;
      var added := LibraryTasks(toMerge, key, groups[key], MergedDirName(key));
      tasks := tasks + added;
      TasksAdd(toMerge, key, groups.Keys - pendingKeys);
      TakeOne(groups.Keys, pendingKeys, key);
      pendingKeys := pendingKeys - {key};
    }
    NonePending(groups.Keys, pendingKeys);
  }

  /** One task per archive of a library, from its raw directory into `destDir`. */
  method LibraryTasks(toMerge: map<string, AarAndJar>, key: string, aars: seq<Artifact>, destDir: string)
    returns (added: set<(string, string)>)
    requires WellKeyed(toMerge)
    requires forall aar :: aar in aars <==> exists name :: name in Members(toMerge, key) && toMerge[name].aar == aar
    ensures added == set name | name in Members(toMerge, key) :: (name, destDir)
  {
    ghost var names := GroupNames(toMerge, key, aars);
    added := {};
    ghost var srcs: set<string> := {};
    var i := 0;
    while i < |aars|
      invariant 0 <= i <= |aars|
      invariant srcs == set j | 0 <= j < i :: names[j]
      invariant added == set n | n in srcs :: (n, destDir)
    {
      var srcDir := Naming.GetAarDirName(aars[i]).value;
      assert srcDir == names[i];
      PairsStep(srcs, srcDir, destDir);
      PrefixElementsStep(names, i);
      added := added + {(srcDir, destDir)};
      srcs := srcs + {srcDir};
      i := i + 1;
    }
  }

  lemma RunIsMerge(before: Option<Children>, after: Option<Children>, toMerge: map<string, AarAndJar>,
                   copyFails: set<CopyFault>)
    requires WellKeyed(toMerge)
    requires TasksRun(before, after, TasksOf(toMerge, LibraryKeys(toMerge)), copyFails)
    ensures Merged(before, after, toMerge, copyFails)
  {
    TasksDests(toMerge);
    forall key | key in LibraryKeys(toMerge)
      ensures MergedFrom(Lookup(after, MergedDirName(key)), Lookup(before, MergedDirName(key)),
                         Members(toMerge, key), before, MergedDirName(key), copyFails)
    {
      TasksSources(toMerge, key);
    }
  }

  lemma TasksOfMembership(toMerge: map<string, AarAndJar>, keys: set<string>, t: (string, string))
    ensures t in TasksOf(toMerge, keys) <==>
      t.0 in toMerge && toMerge[t.0].libraryKey in keys && t.1 == MergedDirName(toMerge[t.0].libraryKey)
  {
    if t.0 in toMerge && toMerge[t.0].libraryKey in keys && t.1 == MergedDirName(toMerge[t.0].libraryKey) {
      assert t == (t.0, MergedDirName(toMerge[t.0].libraryKey));
    }
  }

  /** The raw directories of a library's grouped archives are exactly its members. */
  lemma GroupNames(toMerge: map<string, AarAndJar>, key: string, aars: seq<Artifact>) returns (names: seq<string>)
    requires WellKeyed(toMerge)
    requires forall aar :: aar in aars <==> exists name :: name in Members(toMerge, key) && toMerge[name].aar == aar
    ensures |names| == |aars|
    ensures forall j :: 0 <= j < |aars| ==> Naming.GetAarDirName(aars[j]) == Success(names[j])
    ensures (set j | 0 <= j < |aars| :: names[j]) == Members(toMerge, key)
  {
    GroupArchivesNamed(toMerge, key, aars);
    names := seq(|aars|, j requires 0 <= j < |aars| => Naming.GetAarDirName(aars[j]).value);
    forall name | name in Members(toMerge, key)
      ensures name in set j | 0 <= j < |aars| :: names[j]
    {
      assert toMerge[name].aar in aars;
      var j :| 0 <= j < |aars| && aars[j] == toMerge[name].aar;
      assert Naming.GetAarDirName(toMerge[name].aar) == Success(name);
      assert names[j] == name;
    }
  }

  /** Every archive of a group is named, and its name is a member of the group's library. */
  lemma GroupArchivesNamed(toMerge: map<string, AarAndJar>, key: string, aars: seq<Artifact>)
    requires WellKeyed(toMerge)
    requires forall aar :: aar in aars <==> exists name :: name in Members(toMerge, key) && toMerge[name].aar == aar
    ensures forall j :: 0 <= j < |aars| ==>
      Naming.GetAarDirName(aars[j]).Success? && Naming.GetAarDirName(aars[j]).value in Members(toMerge, key)
  {
    forall j | 0 <= j < |aars|
      ensures Naming.GetAarDirName(aars[j]).Success?
      ensures Naming.GetAarDirName(aars[j]).value in Members(toMerge, key)
    {
      assert aars[j] in aars;
      var name :| name in Members(toMerge, key) && toMerge[name].aar == aars[j];
      assert Naming.GetAarDirName(toMerge[name].aar) == Success(name);
    }
  }

  /** The tasks of one more library: its members' raw directories into its merged directory. */
  lemma TasksAdd(toMerge: map<string, AarAndJar>, key: string, done: set<string>)
    requires key !in done
    ensures TasksOf(toMerge, done) + (set name | name in Members(toMerge, key) :: (name, MergedDirName(key)))
         == TasksOf(toMerge, done + {key})
  {
    var added := set name | name in Members(toMerge, key) :: (name, MergedDirName(key));
    forall t
      ensures t in TasksOf(toMerge, done) + added <==> t in TasksOf(toMerge, done + {key})
    {
      TasksOfMembership(toMerge, done, t);
      TasksOfMembership(toMerge, done + {key}, t);
      if t in TasksOf(toMerge, done + {key}) && t !in TasksOf(toMerge, done) {
        assert t.0 in Members(toMerge, key);
      }
    }
  }

  /** Adding one pair to the tasks of a set of sources. */
  lemma PairsStep(srcs: set<string>, x: string, dest: string)
    ensures (set n | n in srcs :: (n, dest)) + {(x, dest)} == set n | n in srcs + {x} :: (n, dest)
  {
  }

  /** No task's source is a task's destination: raw names end in `.aar`, merged ones never do. */
  lemma TasksDisjoint(toMerge: map<string, AarAndJar>)
    requires WellKeyed(toMerge)
    ensures var tasks := TasksOf(toMerge, LibraryKeys(toMerge));
      forall t, u :: t in tasks && u in tasks ==> t.0 != u.1
  {
    var keys := LibraryKeys(toMerge);
    var tasks := TasksOf(toMerge, keys);
    WellKeyedNamesAreRaw(toMerge);
    forall t, u | t in tasks && u in tasks
      ensures t.0 != u.1
    {
      TasksOfMembership(toMerge, keys, u);
      MergedNameIsNotRaw(toMerge[u.0].libraryKey);
    }
  }

  /** The tasks write exactly the merged directories of the entries' libraries. */
  lemma TasksDests(toMerge: map<string, AarAndJar>)
    ensures Dests(TasksOf(toMerge, LibraryKeys(toMerge))) == MergedNames(toMerge)
  {
    var keys := LibraryKeys(toMerge);
    var tasks := TasksOf(toMerge, keys);
    forall d
      ensures d in Dests(tasks) <==> d in MergedNames(toMerge)
    {
      if d in MergedNames(toMerge) {
        var key :| key in keys && d == MergedDirName(key);
        var name :| name in toMerge && toMerge[name].libraryKey == key;
        TasksOfMembership(toMerge, keys, (name, d));
      }
      if d in Dests(tasks) {
        var t :| t in tasks && t.1 == d;
        TasksOfMembership(toMerge, keys, t);
      }
    }
  }

  /** The tasks into a library's merged directory read exactly its members. */
  lemma TasksSources(toMerge: map<string, AarAndJar>, key: string)
    requires key in LibraryKeys(toMerge)
    ensures SourcesFor(TasksOf(toMerge, LibraryKeys(toMerge)), MergedDirName(key)) == Members(toMerge, key)
  {
    var keys := LibraryKeys(toMerge);
    var tasks := TasksOf(toMerge, keys);
    forall name
      ensures name in SourcesFor(tasks, MergedDirName(key)) <==> name in Members(toMerge, key)
    {
      var t := (name, MergedDirName(key));
      TasksOfMembership(toMerge, keys, t);
      if name in SourcesFor(tasks, MergedDirName(key)) {
        var u :| u in tasks && u.1 == MergedDirName(key) && u.0 == name;
        assert u == t;
        MergedDirNameInjective(toMerge[name].libraryKey, key);
      }
    }
  }

  /* ---------------------------------------------------------------------- */
  /* The three steps                                                         */
  /* ---------------------------------------------------------------------- */

  /** The batches of thread-pool work in one refresh pass whose wait can end it. */
  datatype Stage = UnpackBatch | CleanupBatch | MergeBatch | PruneBatch

  /**
   * How the waits on the batches end: all complete, or the wait on one batch is
   * interrupted or reports a failed task. That batch's tasks are taken to have
   * run; every later step is skipped.
   */
  datatype Stop = Completes | Interrupted(stage: Stage) | BatchFails(stage: Stage)

  predicate StopsAt(stop: Stop, stage: Stage) {
    !stop.Completes? && stop.stage == stage
  }

  /** Every raw directory is as `unpackAarsToDir` leaves it: the updated ones rewritten, the rest untouched. */
  ghost predicate RawDirsUnpacked(before: Option<Children>, after: Option<Children>, toCache: map<string, AarAndJar>,
                                  keys: set<string>, blobs: Blobs, faults: map<string, Fault>)
    requires keys <= toCache.Keys
  {
    forall name :: EndsWith(name, Naming.DOT_AAR) ==>
      Lookup(after, name) ==
        (if name in keys then Some(UnpackedDir(Lookup(before, name), toCache[name], blobs, FaultOf(faults, name)))
         else Lookup(before, name))
  }

  /** What the cleanup leaves of a non-raw directory: it, if it cannot be deleted, and nothing otherwise. */
  ghost function CleanedDir(before: Option<Children>, undeletable: set<string>, name: string): Option<Dir> {
    if name in undeletable then Lookup(before, name) else None
  }

  /** Every non-raw directory outside `spared` is as the cleanup leaves it. */
  ghost predicate OthersRemoved(before: Option<Children>, after: Option<Children>, undeletable: set<string>,
                                spared: set<string>)
  {
    forall name :: !EndsWith(name, Naming.DOT_AAR) && name !in spared ==>
      Lookup(after, name) == CleanedDir(before, undeletable, name)
  }

  /**
   * Every library's merged directory holds what the cleanup left of it with the
   * files of the library's raw directories (as they are in `after`) copied in.
   */
  ghost predicate LibrariesMerged(before: Option<Children>, after: Option<Children>, toCache: map<string, AarAndJar>,
                                  undeletable: set<string>, copyFails: set<CopyFault>)
  {
    forall key :: key in LibraryKeys(toCache) ==>
      MergedFrom(Lookup(after, MergedDirName(key)), CleanedDir(before, undeletable, MergedDirName(key)),
                 Members(toCache, key), after, MergedDirName(key), copyFails)
  }

  /**
   * `unpack`: unpacks the updated archives, removes every non-raw directory, then
   * merges the raw directories of every entry, updated or not, by library key.
   * Returns whether all three batches completed.
   */
  method Unpack(fs: Fs, toCache: map<string, AarAndJar>, updatedKeys: set<string>, blobs: Blobs,
                faults: map<string, Fault>, undeletable: set<string>, copyFails: set<CopyFault>, stop: Stop)
    returns (completed: bool)
    requires WellKeyed(toCache) && updatedKeys <= toCache.Keys
    modifies fs
    ensures completed <==> !StopsAt(stop, UnpackBatch) && !StopsAt(stop, CleanupBatch) && !StopsAt(stop, MergeBatch)
    ensures old(fs.root).Some? ==> fs.root.Some?
    ensures RawDirsUnpacked(old(fs.root), fs.root, toCache, updatedKeys, blobs, faults)
    ensures StopsAt(stop, UnpackBatch) ==>
      forall name :: !EndsWith(name, Naming.DOT_AAR) ==> Lookup(fs.root, name) == Lookup(old(fs.root), name)
    ensures !StopsAt(stop, UnpackBatch) ==>
      OthersRemoved(old(fs.root), fs.root, undeletable, if StopsAt(stop, CleanupBatch) then {} else MergedNames(toCache))
    ensures !StopsAt(stop, UnpackBatch) && !StopsAt(stop, CleanupBatch) ==>
      LibrariesMerged(old(fs.root), fs.root, toCache, undeletable, copyFails)
  {
    UnpackAarsToDir(fs, toCache, updatedKeys, blobs, faults);
    ghost var unpacked := fs.root;
    UnpackKeepsOthers(old(fs.root), unpacked, toCache, updatedKeys, blobs, faults);
    if StopsAt(stop, UnpackBatch) {
      return false;
    }
    RemoveNonAarDirectories(fs, undeletable);
    ghost var cleaned := fs.root;
    CleanupKeepsRaw(old(fs.root), unpacked, cleaned, toCache, updatedKeys, blobs, faults, undeletable);
    if StopsAt(stop, CleanupBatch) {
      return false;
    }
    MergeAars(fs, toCache, copyFails);
    MergeKeepsOthers(old(fs.root), unpacked, cleaned, fs.root, toCache, updatedKeys, blobs, faults, undeletable, copyFails);
    return !StopsAt(stop, MergeBatch);
  }

  /** The unpacking rewrites raw directories only. */
  lemma UnpackKeepsOthers(root0: Option<Children>, unpacked: Option<Children>, toCache: map<string, AarAndJar>,
                          updatedKeys: set<string>, blobs: Blobs, faults: map<string, Fault>)
    requires WellKeyed(toCache) && updatedKeys <= toCache.Keys
    requires Unpacked(root0, unpacked, toCache, updatedKeys, blobs, faults)
    ensures root0.Some? ==> unpacked.Some?
    ensures RawDirsUnpacked(root0, unpacked, toCache, updatedKeys, blobs, faults)
    ensures forall name :: !EndsWith(name, Naming.DOT_AAR) ==> Lookup(unpacked, name) == Lookup(root0, name)
  {
    WellKeyedNamesAreRaw(toCache);
  }

  /** The cleanup keeps every raw directory as the unpacking left it. */
  lemma CleanupKeepsRaw(root0: Option<Children>, unpacked: Option<Children>, cleaned: Option<Children>,
                        toCache: map<string, AarAndJar>, updatedKeys: set<string>, blobs: Blobs,
                        faults: map<string, Fault>, undeletable: set<string>)
    requires WellKeyed(toCache) && updatedKeys <= toCache.Keys
    requires Unpacked(root0, unpacked, toCache, updatedKeys, blobs, faults)
    requires NonAarRemoved(unpacked, cleaned, undeletable)
    ensures root0.Some? ==> cleaned.Some?
    ensures RawDirsUnpacked(root0, cleaned, toCache, updatedKeys, blobs, faults)
    ensures OthersRemoved(root0, cleaned, undeletable, {})
  {
    UnpackKeepsOthers(root0, unpacked, toCache, updatedKeys, blobs, faults);
  }

  /** The merge touches only merged directories, and reads raw ones that it leaves as they were. */
  lemma MergeKeepsOthers(root0: Option<Children>, unpacked: Option<Children>, cleaned: Option<Children>,
                         merged: Option<Children>, toCache: map<string, AarAndJar>, updatedKeys: set<string>,
                         blobs: Blobs, faults: map<string, Fault>, undeletable: set<string>,
                         copyFails: set<CopyFault>)
    requires WellKeyed(toCache) && updatedKeys <= toCache.Keys
    requires Unpacked(root0, unpacked, toCache, updatedKeys, blobs, faults)
    requires NonAarRemoved(unpacked, cleaned, undeletable)
    requires Merged(cleaned, merged, toCache, copyFails)
    ensures RawDirsUnpacked(root0, merged, toCache, updatedKeys, blobs, faults)
    ensures OthersRemoved(root0, merged, undeletable, MergedNames(toCache))
    ensures LibrariesMerged(root0, merged, toCache, undeletable, copyFails)
  {
    CleanupKeepsRaw(root0, unpacked, cleaned, toCache, updatedKeys, blobs, faults, undeletable);
    MergeKeepsRaw(cleaned, merged, toCache, copyFails);
    MergeAfterCleanup(root0, cleaned, merged, toCache, undeletable, copyFails);
  }

  /** After the cleanup, each merged directory starts from what the cleanup left of it. */
  lemma MergeAfterCleanup(root0: Option<Children>, cleaned: Option<Children>, merged: Option<Children>,
                          toCache: map<string, AarAndJar>, undeletable: set<string>, copyFails: set<CopyFault>)
    requires WellKeyed(toCache)
    requires OthersRemoved(root0, cleaned, undeletable, {})
    requires Merged(cleaned, merged, toCache, copyFails)
    requires forall name :: EndsWith(name, Naming.DOT_AAR) ==> Lookup(merged, name) == Lookup(cleaned, name)
    ensures OthersRemoved(root0, merged, undeletable, MergedNames(toCache))
    ensures LibrariesMerged(root0, merged, toCache, undeletable, copyFails)
  {
    WellKeyedNamesAreRaw(toCache);
    forall key | key in LibraryKeys(toCache)
      ensures MergedFrom(Lookup(merged, MergedDirName(key)), CleanedDir(root0, undeletable, MergedDirName(key)),
                         Members(toCache, key), merged, MergedDirName(key), copyFails)
    {
      var m := MergedDirName(key);
      MergedNameIsNotRaw(key);
      assert Lookup(cleaned, m) == CleanedDir(root0, undeletable, m);
      MergedFromSameSources(Lookup(merged, m), Lookup(cleaned, m), Members(toCache, key), cleaned, merged, m, copyFails);
    }
  }

  /** Raw directories are never merged directories, so the merge leaves them alone. */
  lemma MergeKeepsRaw(cleaned: Option<Children>, merged: Option<Children>, toCache: map<string, AarAndJar>,
                      copyFails: set<CopyFault>)
    requires Merged(cleaned, merged, toCache, copyFails)
    ensures forall name :: EndsWith(name, Naming.DOT_AAR) ==> Lookup(merged, name) == Lookup(cleaned, name)
  {
    forall name | EndsWith(name, Naming.DOT_AAR)
      ensures Lookup(merged, name) == Lookup(cleaned, name)
    {
      if name in MergedNames(toCache) {
        var key :| key in LibraryKeys(toCache) && name == MergedDirName(key);
        MergedNameIsNotRaw(key);
      }
    }
  }
}
