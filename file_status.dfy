/**
 * The marker-file rule that decides whether a file still needs processing.
 * A target `dir/name` that was processed successfully gets a sibling marker
 * `dir/name.common-stat`; the target is eligible again when it has no marker
 * file or was modified after its marker. The file system is an abstract
 * directory of entries and the clock is a parameter.
 */
module FileStatuses {
  import opened Options

  /** The marker's extension. */
  const StatFileExt: string := "common-stat"

  /** A file-system path: the parent directory and the last name. */
  datatype FilePath = FilePath(parent: string, name: string)

  /** An entry: a regular file or not (a directory), and its modification time. */
  datatype Node = Node(isFile: bool, lastModified: nat)

  type Directory = map<FilePath, Node>

  /** The eligibility of a target. */
  datatype FileStatus = EligibleToProcess | NotEligibleToProcess

  /** The marker of a target: a sibling named after it with the extension appended. */
  function StatFileOf(target: FilePath): (marker: FilePath)
    ensures marker.parent == target.parent
    ensures marker.name == target.name + "." + StatFileExt
    ensures marker != target
  {
    var marker := FilePath(target.parent, target.name + "." + StatFileExt);
    assert |marker.name| > |target.name|;
    marker
  }

  /** Distinct targets have distinct markers. */
  lemma MarkersAreDistinct(a: FilePath, b: FilePath)
    requires a != b
    ensures StatFileOf(a) != StatFileOf(b)
  {
    if StatFileOf(a).name == StatFileOf(b).name {
      var suffix := "." + StatFileExt;
      assert a.name == StatFileOf(a).name[..|StatFileOf(a).name| - |suffix|];
      assert b.name == StatFileOf(b).name[..|StatFileOf(b).name| - |suffix|];
    }
  }

  /** An existing regular file. */
  predicate IsFile(d: Directory, p: FilePath)
  {
    p in d && d[p].isFile
  }

  /** The modification time of an entry; 0 for a missing one. */
  function LastModified(d: Directory, p: FilePath): (t: nat)
    ensures p !in d ==> t == 0
  {
    if p in d then d[p].lastModified else 0
  }

  /**
   * `getFileStatus`: eligible when the marker is not a regular file;
   * otherwise eligible exactly when the target is strictly newer.
   */
  function GetFileStatus(d: Directory, target: FilePath): (s: FileStatus)
    ensures !IsFile(d, StatFileOf(target)) ==> s == EligibleToProcess
    ensures IsFile(d, StatFileOf(target)) ==>
      (s == EligibleToProcess <==> LastModified(d, target) > LastModified(d, StatFileOf(target)))
  {
    var marker := StatFileOf(target);
    if !IsFile(d, marker) then EligibleToProcess
    else if LastModified(d, target) - LastModified(d, marker) > 0 then EligibleToProcess
    else NotEligibleToProcess
  }

  /** The entry at `p` stamped with `now`; a missing entry is created as an empty file. */
  function Touched(d: Directory, p: FilePath, now: nat): (d': Directory)
    ensures p in d' && d'[p].lastModified == now
    ensures d'[p].isFile == (p !in d || d[p].isFile)
    ensures d'.Keys == d.Keys + {p}
    ensures forall q :: q in d && q != p ==> d'[q] == d[q]
  {
    if p in d then d[p := d[p].(lastModified := now)] else d[p := Node(true, now)]
  }

  /**
   * Whether `createStatFile` goes ahead: it stops for a null target, for a
   * target that does not exist and for one that is not a regular file.
   */
  function CreateAllowed(d: Directory, target: Option<FilePath>): (b: bool)
    ensures target.None? ==> !b
    ensures target.Some? && target.value !in d ==> !b
    ensures target.Some? && target.value in d && !d[target.value].isFile ==> !b
    ensures target.Some? && target.value in d && d[target.value].isFile ==> b
  {
    target.Some? && IsFile(d, target.value)
  }

  /** The directory after `createStatFile`. */
  function AfterCreate(d: Directory, target: Option<FilePath>, now: nat): (d': Directory)
    ensures !CreateAllowed(d, target) ==> d' == d
    ensures CreateAllowed(d, target) ==>
      var marker := StatFileOf(target.value);
      && IsFile(d', target.value)
      && LastModified(d', target.value) == LastModified(d, target.value)
      && marker in d' && LastModified(d', marker) == now
      && (forall q :: q in d && q != marker ==> q in d' && d'[q] == d[q])
  {
    if CreateAllowed(d, target) then Touched(d, StatFileOf(target.value), now) else d
  }

  /** The directory after `deleteStatFile`: the marker is gone and nothing else changed. */
  function AfterDelete(d: Directory, target: FilePath): (d': Directory)
    ensures StatFileOf(target) !in d'
    ensures forall q :: q != StatFileOf(target) ==> (q in d' <==> q in d)
    ensures forall q :: q in d' ==> d'[q] == d[q]
  {
    d - {StatFileOf(target)}
  }

  /**
   * After a successful `createStatFile` at a time no earlier than the target's
   * modification, the target is no longer eligible (unless a directory stands
   * where the marker should be).
   */
  lemma CreateMakesNotEligible(d: Directory, target: FilePath, now: nat)
    requires IsFile(d, target)
    requires LastModified(d, target) <= now
    requires StatFileOf(target) in d ==> d[StatFileOf(target)].isFile
    ensures GetFileStatus(AfterCreate(d, Some(target), now), target) == NotEligibleToProcess
  {
  }

  /** When a directory occupies the marker's path, the target stays eligible whatever is done to it. */
  lemma DirectoryMarkerKeepsEligible(d: Directory, target: FilePath, now: nat)
    requires StatFileOf(target) in d && !d[StatFileOf(target)].isFile
    ensures GetFileStatus(AfterCreate(d, Some(target), now), target) == EligibleToProcess
  {
  }

  /** After `deleteStatFile` the target is eligible. */
  lemma DeleteMakesEligible(d: Directory, target: FilePath)
    ensures GetFileStatus(AfterDelete(d, target), target) == EligibleToProcess
  {
  }

  /** Modifying the target after its marker makes it eligible again. */
  lemma ModificationMakesEligible(d: Directory, target: FilePath, later: nat)
    requires later > LastModified(d, StatFileOf(target))
    ensures GetFileStatus(Touched(d, target, later), target) == EligibleToProcess
  {
  }

  /** Creating the marker twice at the same time is the same as creating it once. */
  lemma CreateIsIdempotent(d: Directory, target: Option<FilePath>, now: nat)
    ensures AfterCreate(AfterCreate(d, target, now), target, now) == AfterCreate(d, target, now)
  {
  }

  /** A file system holding the directory entries. */
  class FileSystem {
    var entries: Directory

    constructor (entries: Directory)
      ensures this.entries == entries
    {
      this.entries := entries;
    }

    /**
     * `createStatFile`: false and no change for a null, missing or non-file
     * target; otherwise the marker is created (as an empty file stamped `now`)
     * or, when it exists, re-stamped with `now`, and the result is true.
     */
    method CreateStatFile(target: Option<FilePath>, now: nat) returns (created: bool)
      modifies this
      ensures created == CreateAllowed(old(entries), target)
      ensures entries == AfterCreate(old(entries), target, now)
    {
      if target == None {
        return false;
      }
      var file := target.value;
      if file !in entries {
        return false;
      }
      if !entries[file].isFile {
        return false;
      }
      var marker := StatFileOf(file);
      if marker in entries {
        entries := entries[marker := entries[marker].(lastModified := now)];
      } else {
        entries := entries[marker := Node(true, now)];
      }
      created := true;
    }

    /** `deleteStatFile`: removes the marker when present; always true. */
    method DeleteStatFile(target: FilePath) returns (deleted: bool)
      modifies this
      ensures deleted
      ensures entries == AfterDelete(old(entries), target)
    {
      var marker := StatFileOf(target);
      if marker in entries {
        entries := entries - {marker};
      }
      deleted := true;
    }
  }
}
