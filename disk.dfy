/**
 * The part of the filesystem the AAR cache touches: the cache root and its
 * immediate children, each a directory of files keyed by relative path. The
 * filesystem provider's operations on it are the methods of `Fs`.
 */
module Disk {
  import opened Wrappers
  import opened Blaze

  type Bytes = seq<bv8>

  /**
   * A directory under the cache root: its files by path relative to it, and the
   * modification time explicitly given to its stamp file (None when none was set).
   */
  datatype Dir = Dir(files: map<string, Bytes>, stampTime: Option<int>)

  type Children = map<string, Dir>

  /** The contents the artifacts yield when read; an artifact missing here cannot be read. */
  datatype Blobs = Blobs(archives: map<Artifact, map<string, Bytes>>, jars: map<Artifact, Bytes>)

  /** The children of the cache root (none when the root does not exist). */
  function Kids(root: Option<Children>): Children {
    if root.Some? then root.value else map[]
  }

  /** The child directory `name`, if the root and the child exist. */
  function Lookup(root: Option<Children>, name: string): Option<Dir> {
    if root.Some? && name in root.value then Some(root.value[name]) else None
  }

  /** The files of a directory that may not exist. */
  function FilesOf(d: Option<Dir>): map<string, Bytes> {
    if d.Some? then d.value.files else map[]
  }

  /** `after` is `before` with the children in `names` deleted, except those whose deletion failed. */
  ghost predicate DeletedChildren(before: Option<Children>, after: Option<Children>,
                                  names: set<string>, undeletable: set<string>)
  {
    && (after.Some? <==> before.Some?)
    && forall name :: Lookup(after, name) ==
         if name in names && name !in undeletable then None else Lookup(before, name)
  }

  class Fs {
    /** The cache root: None when the directory does not exist. */
    var root: Option<Children>

    constructor (root: Option<Children>)
      ensures this.root == root
    {
      this.root := root;
    }

    /** Recursive delete of the cache root itself; a failure leaves it as it was. */
    method DeleteRoot(fails: bool)
      modifies this
      ensures root == if fails then old(root) else None
    {
      if !fails {
        root := None;
      }
    }

    /** Recursive delete of one child of the root; a failure leaves it as it was. */
    method DeleteChild(name: string, fails: bool)
      modifies this
      ensures DeletedChildren(old(root), root, {name}, if fails then {name} else {})
      ensures !fails ==> root == if old(root).Some? then Some(old(root).value - {name}) else None
    {
      if !fails && root.Some? {
        root := Some(root.value - {name});
      }
    }

    /** Writes (or replaces) one file of an existing child directory. */
    method WriteFile(name: string, path: string, content: Bytes)
      requires name in Kids(root)
      modifies this
      ensures var d := Kids(old(root))[name];
        root == Some(Kids(old(root))[name := d.(files := d.files[path := content])])
    {
      var d := Kids(root)[name];
      root := Some(Kids(root)[name := d.(files := d.files[path := content])]);
    }

    /** Writes the given files into an existing child directory, replacing any of the same path. */
    method WriteFiles(name: string, files: map<string, Bytes>)
      requires name in Kids(root)
      modifies this
      ensures var d := Kids(old(root))[name];
        root == Some(Kids(old(root))[name := d.(files := d.files + files)])
    {
      var d := Kids(root)[name];
      root := Some(Kids(root)[name := d.(files := d.files + files)]);
    }

    /** `createNewFile`: an empty file, unless one is already there. */
    method CreateNewFile(name: string, path: string)
      requires name in Kids(root)
      modifies this
      ensures var d := Kids(old(root))[name];
        root == Some(Kids(old(root))[name := if path in d.files then d else d.(files := d.files[path := []])])
    {
      var d := Kids(root)[name];
      if path !in d.files {
        root := Some(Kids(root)[name := d.(files := d.files[path := []])]);
      } else {
        assert Kids(root)[name := d] == Kids(root);
      }
    }

    /** Sets the modification time of the stamp file of an existing child directory. */
    method SetStampTime(name: string, time: int)
      requires name in Kids(root)
      modifies this
      ensures var d := Kids(old(root))[name];
        root == Some(Kids(old(root))[name := d.(stampTime := Some(time))])
    {
      var d := Kids(root)[name];
      root := Some(Kids(root)[name := d.(stampTime := Some(time))]);
    }

    /** Creates the child directory `name` (and the root) unless it exists. */
    method MakeChild(name: string)
      modifies this
      ensures root == Some(Kids(old(root))[name := if name in Kids(old(root)) then Kids(old(root))[name] else Dir(map[], None)])
    {
      var kids := Kids(root);
      if name !in kids {
        root := Some(kids[name := Dir(map[], None)]);
      } else {
        assert kids[name := kids[name]] == kids;
        root := Some(kids);
      }
    }
  }
}
