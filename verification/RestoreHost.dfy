/** The host a restore runs on: a file system and an authority that others may change at every await. */
module RestoreHost {
  import opened Basics
  import opened Checkpoints

  /** An absolute path by its names, from the root of the file system. */
  type Path = seq<string>

  predicate Inside(root: Path, p: Path) { |root| < |p| && p[..|root|] == root }
  /** Something is left of `p` behind `root`. */
  ghost predicate Under(root: Path, p: Path) { exists rest: Path :: rest != [] && p == root + rest }

  lemma InsideIff(root: Path, p: Path)
    ensures Inside(root, p) <==> Under(root, p)
  {
    if Inside(root, p) { assert p == root + p[|root|..]; }
  }

  predicate InsideOrEqual(root: Path, p: Path) { |root| <= |p| && p[..|root|] == root }
  function Directory(p: Path): Path { if p == [] then [] else p[..|p| - 1] }
  function Name(p: Path): string { if p == [] then "" else p[|p| - 1] }

  datatype Node = Regular(content: Content, dev: nat, ino: nat, nlink: nat, mode: nat) | Folder | Special
  type Disk = map<Path, Node>

  /** Every entry lies in a folder. */
  predicate Consistent(disk: Disk) {
    forall p :: p in disk && p != [] ==> Directory(p) in disk && disk[Directory(p)].Folder?
  }

  predicate Empty(disk: Disk, folder: Path) { forall p :: p in disk ==> !Inside(folder, p) }

  /** What one reading of a path finds. */
  datatype Seen = Absent | File(digest: Digest, dev: nat, ino: nat, nlink: nat, mode: nat) | Unreadable

  function Sight(disk: Disk, p: Path): Seen {
    if p !in disk then Absent
    else
      match disk[p]
      case Regular(content, dev, ino, nlink, mode) => File(Sha256(content), dev, ino, nlink, mode)
      case _ => Unreadable
  }

  /** Where a path was found to lead, and the real folder it was found inside. */
  datatype Place = Place(realRoot: Path, at: Path)

  /** What the restore asked of the host and did to it, in order. */
  datatype Event =
    | AskedTrust(yes: bool)
    | AskedRoots(roots: seq<Path>)
    | Resolved(root: Path, target: Path, place: Option<Place>)
    | AskedUnsaved(path: Path, yes: bool)
    | Read(path: Path, seen: Seen)
    | MadeFolders(path: Path, first: Option<Path>)
    | WroteTemporary(path: Path, ok: bool)
    | Renamed(from: Path, to: Path, ok: bool)
    | Unlinked(path: Path, ok: bool)
    | RemovedTemporary(path: Path)
    | RemovedFolder(path: Path, ok: bool, empty: bool) // whether nothing lay in it at that moment

  predicate Commits(e: Event) { e.Renamed? || e.Unlinked? }
  predicate Looks(e: Event) { e.AskedTrust? || e.AskedRoots? || e.Resolved? || e.AskedUnsaved? || e.Read? }

  // ---------- folders made on the way to a file ----------

  /** `disk` with folders at the missing prefixes of `dir` up to length `n`. */
  function WithFolders(disk: Disk, dir: Path, n: nat): Disk
    requires n <= |dir|
    decreases n
  {
    if n == 0 then disk
    else
      var shorter := WithFolders(disk, dir, n - 1);
      if dir[..n] in disk then shorter else shorter[dir[..n] := Folder]
  }

  /** The length of the shortest missing prefix among those of length `n` and more. */
  function FirstMissing(disk: Disk, dir: Path, n: nat): (r: Option<nat>)
    requires n <= |dir|
    ensures r.Some? ==> n <= r.value <= |dir| && dir[..r.value] !in disk
    ensures r == None ==> forall k :: n <= k <= |dir| ==> dir[..k] in disk
    ensures r.Some? ==> forall k :: n <= k < r.value ==> dir[..k] in disk
    decreases |dir| - n
  {
    if dir[..n] !in disk then Some(n) else if n == |dir| then None else FirstMissing(disk, dir, n + 1)
  }

  lemma {:induction false} WithFoldersFrame(disk: Disk, dir: Path, n: nat, p: Path)
    requires n <= |dir|
    ensures p in disk ==> p in WithFolders(disk, dir, n) && WithFolders(disk, dir, n)[p] == disk[p]
    ensures p !in disk ==> (p in WithFolders(disk, dir, n) <==> 0 < |p| <= n && p == dir[..|p|])
    ensures p !in disk && p in WithFolders(disk, dir, n) ==> WithFolders(disk, dir, n)[p] == Folder
    decreases n
  {
    if n > 0 { WithFoldersFrame(disk, dir, n - 1, p); }
  }

  /**
   * In a consistent file system nothing lies below a missing folder, so taking the deepest made folder away is one
   * step back.
   */
  lemma MissingBelow(disk: Disk, dir: Path, first: nat, n: nat)
    requires Consistent(disk) && first <= n <= |dir| && dir[..first] !in disk && first > 0
    ensures dir[..n] !in disk
    decreases n
  {
    if n > first {
      MissingBelow(disk, dir, first, n - 1);
      assert Directory(dir[..n]) == dir[..n - 1];
    }
  }

  lemma OneFolderBack(disk: Disk, dir: Path, first: nat, n: nat)
    requires Consistent(disk) && 0 < first <= n <= |dir| && dir[..first] !in disk
    ensures WithFolders(disk, dir, n) - {dir[..n]} == WithFolders(disk, dir, n - 1)
  {
    MissingBelow(disk, dir, first, n);
    WithFoldersFrame(disk, dir, n - 1, dir[..n]);
  }

  lemma {:induction false} NoFoldersMade(disk: Disk, dir: Path, n: nat)
    requires n <= |dir| && forall k :: 0 < k <= n ==> dir[..k] in disk
    ensures WithFolders(disk, dir, n) == disk
    decreases n
  {
    if n > 0 { NoFoldersMade(disk, dir, n - 1); }
  }

  // ---------- the host ----------

  /**
   * What the host may do now: trust, the folders it may write in, where links lead, and which files an editor holds
   * unsaved.
   */
  datatype Authority = Authority(trusted: bool, roots: seq<Path>, leads: map<Path, Path>, unsaved: set<Path>) {
    function RealPath(p: Path): Path { if p in leads then leads[p] else p }

    /** Where `target` leads, when that is strictly inside `root` both by name and in fact. */
    function PlaceOf(root: Path, target: Path): Option<Place> {
      if Inside(root, target) && Inside(RealPath(root), RealPath(target)) then
        Some(Place(RealPath(root), RealPath(target))) else None
    }
  }

  class Host {
    var disk: Disk
    var authority: Authority
    /** Nothing but the restore acts, and a call that fails did nothing. */
    const quiet: bool
    /** No call fails without a reason the file system shows. */
    const reliable: bool
    const windows: bool
    ghost var log: seq<Event>

    /** Whatever happens while the restore waits. */
    method Wait()
      modifies this`disk, this`authority
      ensures quiet ==> disk == old(disk) && authority == old(authority)
    {
      if !quiet {
        disk, authority := *, *;
      }
    }

    method MayFail() returns (fails: bool)
      ensures reliable ==> !fails
    {
      if reliable { return false; }
      fails := *;
    }

    method IsTrusted() returns (yes: bool)
      modifies this`log
      ensures yes == authority.trusted && log == old(log) + [AskedTrust(yes)]
    {
      yes := authority.trusted;
      log := log + [AskedTrust(yes)];
    }

    method WriteRoots() returns (r: seq<Path>)
      modifies this`log
      ensures r == authority.roots && log == old(log) + [AskedRoots(r)]
    {
      r := authority.roots;
      log := log + [AskedRoots(r)];
    }

    method HasUnsavedChanges(p: Path) returns (yes: bool)
      modifies this`log
      ensures yes == (p in authority.unsaved) && log == old(log) + [AskedUnsaved(p, yes)]
    {
      yes := p in authority.unsaved;
      log := log + [AskedUnsaved(p, yes)];
    }

    method Resolve(root: Path, target: Path) returns (place: Option<Place>)
      modifies this
      ensures log == old(log) + [Resolved(root, target, place)]
      ensures place.Some? ==> Inside(root, target) && Inside(place.value.realRoot, place.value.at)
      ensures quiet ==> disk == old(disk) && authority == old(authority)
      ensures quiet && reliable ==> place == old(authority).PlaceOf(root, target)
    {
      Wait();
      var fails := MayFail();
      place := if fails then None else authority.PlaceOf(root, target);
      log := log + [Resolved(root, target, place)];
    }

    /** Opened, checked to be a regular file, and read to its end through one handle; others may write meanwhile. */
    method ReadTargetState(p: Path) returns (seen: Seen)
      modifies this
      ensures log == old(log) + [Read(p, seen)]
      ensures quiet ==> disk == old(disk) && authority == old(authority)
      ensures quiet ==> seen == Unreadable || seen == Sight(disk, p)
      ensures quiet && reliable ==> seen == Sight(disk, p)
    {
      Wait();
      var fails := MayFail();
      if fails {
        seen := Unreadable;
      } else if p !in disk {
        // no such file: gone only when nothing holds the name either
        Wait();
        seen := if p !in disk then Absent else Unreadable;
      } else if disk[p].Regular? {
        var node := disk[p];
        Wait();
        var read: Content := node.content;
        if !quiet { read := *; }
        seen := File(Sha256(read), node.dev, node.ino, node.nlink, node.mode);
      } else {
        seen := Unreadable;
      }
      log := log + [Read(p, seen)];
    }

    /** The folder and those above it, made where missing; reports the first one made. */
    method MakeFolders(dir: Path) returns (ok: bool, first: Option<Path>)
      modifies this
      ensures log == old(log) + [MadeFolders(dir, first)]
      ensures !ok ==> first == None
      ensures first.Some? ==> 0 < |first.value| <= |dir| && first.value == dir[..|first.value|]
      ensures quiet ==> authority == old(authority)
      ensures quiet && !ok ==> disk == old(disk)
      ensures quiet && ok ==> disk == WithFolders(old(disk), dir, |dir|)
      ensures quiet && first.Some? ==> first.value !in old(disk) && forall k :: 0 < k < |first.value| ==>
          dir[..k] in old(disk)
      ensures quiet && ok && first == None ==> disk == old(disk)
      ensures quiet && reliable ==>
                (forall k :: 0 <= k <= |dir| && dir[..k] in old(disk) ==> old(disk)[dir[..k]].Folder?) ==> ok
    {
      Wait();
      var fails := MayFail();
      ok := !fails && forall k :: 0 <= k <= |dir| && dir[..k] in disk ==> disk[dir[..k]].Folder?;
      first := None;
      if ok {
        var missing := if dir == [] then None else FirstMissing(disk, dir, 1);
        if missing.Some? { first := Some(dir[..missing.value]); }
        if missing == None { NoFoldersMade(disk, dir, |dir|); }
        disk := WithFolders(disk, dir, |dir|);
      }
      log := log + [MadeFolders(dir, first)];
    }

    /** A new file of its own beside the target, written and flushed; a failure may leave a part of it. */
    method WriteTemporary(p: Path, content: Content, mode: Option<nat>) returns (ok: bool)
      modifies this
      ensures log == old(log) + [WroteTemporary(p, ok)]
      ensures quiet ==> authority == old(authority)
      ensures quiet ==> disk - {p} == old(disk) - {p} && (p in old(disk) ==> disk == old(disk))
      ensures quiet && ok ==> p in disk && disk[p].Regular? && disk[p].content == content && p !in old(disk)
      ensures quiet && ok && mode.Some? ==> disk[p].mode == mode.value
      ensures quiet && reliable ==>
          (ok <==> p !in old(disk) && Directory(p) in old(disk) && old(disk)[Directory(p)].Folder?)
    {
      Wait();
      var fails := MayFail();
      ok := !fails && p !in disk && Directory(p) in disk && disk[Directory(p)].Folder?;
      if ok {
        var dev: nat, ino: nat, usual: nat := *, *, *;
        ghost var before := disk;
        disk := disk[p := Regular(content, dev, ino, 1, if mode.Some? then mode.value else usual)];
        assert disk - {p} == before - {p};
        var cut := MayFail();
        if cut {
          var part: Content := *;
          ok := false;
          disk := disk[p := Regular(part, dev, ino, 1, usual)];
          assert disk - {p} == before - {p};
        }
        Wait();
      }
      log := log + [WroteTemporary(p, ok)];
    }

    method Rename(from: Path, to: Path) returns (ok: bool)
      requires from != to
      modifies this
      ensures log == old(log) + [Renamed(from, to, ok)]
      ensures quiet ==> authority == old(authority)
      ensures quiet && ok ==> from in old(disk) && disk == (old(disk) - {from})[to := old(disk)[from]]
      ensures quiet && !ok ==> disk == old(disk)
      ensures quiet && reliable ==> (ok <==> from in old(disk) && (to in old(disk) ==> old(disk)[to].Regular?))
    {
      Wait();
      var fails := MayFail();
      ok := !fails && from in disk && (to in disk ==> disk[to].Regular?);
      if ok { disk := (disk - {from})[to := disk[from]]; }
      Wait();
      log := log + [Renamed(from, to, ok)];
    }

    method Unlink(p: Path) returns (ok: bool)
      modifies this
      ensures log == old(log) + [Unlinked(p, ok)]
      ensures quiet ==> authority == old(authority)
      ensures quiet ==> disk == if ok then old(disk) - {p} else old(disk)
      ensures quiet && reliable ==> (ok <==> p in old(disk) && old(disk)[p].Regular?)
    {
      Wait();
      var fails := MayFail();
      ok := !fails && p in disk && disk[p].Regular?;
      if ok { disk := disk - {p}; }
      Wait();
      log := log + [Unlinked(p, ok)];
    }

    /** Removes the file if it can; whether it is still there is asked afterwards. */
    method RemoveTemporary(p: Path) returns (left: bool)
      modifies this
      ensures log == old(log) + [RemovedTemporary(p)]
      ensures quiet ==> authority == old(authority)
      ensures quiet ==> disk - {p} == old(disk) - {p} && (disk == old(disk) || p !in disk)
      ensures quiet ==> (left || p !in disk)
    {
      Wait();
      ghost var before := disk;
      var fails := MayFail();
      if !fails && p in disk && disk[p].Regular? { disk := disk - {p}; }
      assert disk - {p} == before - {p};
      Wait();
      left := p in disk;
      log := log + [RemovedTemporary(p)];
    }

    /** Removes a folder, and only an empty one. */
    method RemoveFolder(p: Path) returns (ok: bool, ghost empty: bool)
      modifies this
      ensures log == old(log) + [RemovedFolder(p, ok, empty)] && (ok ==> empty)
      ensures quiet ==> authority == old(authority)
      ensures quiet && ok ==> p in old(disk) && old(disk)[p].Folder? && Empty(old(disk), p)
      ensures quiet ==> disk == if ok then old(disk) - {p} else old(disk)
    {
      Wait();
      var fails := MayFail();
      empty := Empty(disk, p);
      ok := !fails && p in disk && disk[p].Folder? && Empty(disk, p);
      if ok { disk := disk - {p}; }
      log := log + [RemovedFolder(p, ok, empty)];
    }
  }
}
