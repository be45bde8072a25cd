/** Removing a subvolume: its contents go back to the parent's directory before it is deleted.
    Here `Src` is the subvolume and `Dst` the directory beneath its mountpoint. Nobody else writes
    meanwhile. */
module SubvolDrop {
  import opened SubvolFiles

  datatype Place = Unmounting | Copying | Emptying | Remounting | FstabLine | Deleting

  /** The step that stopped the removal and its fault. `acted`: it took effect all the same.
      `emptied`: the partial copy was cleared away again. */
  datatype Exit = Done | Refused | Raised(at: Place, fault: Fault, acted: bool, emptied: bool)

  /** Whether the subvolume is mounted and whether `/etc/fstab` names its place. A command that is
      interrupted may have acted. */
  class Site {
    var mounted: bool
    var listed: bool

    constructor (mounted: bool, listed: bool)
      ensures this.mounted == mounted && this.listed == listed
    {
      this.mounted, this.listed := mounted, listed;
    }

    /** `umount`. */
    method Umount(tree: Tree) returns (f: Fault)
      modifies this`mounted, tree`faults
      ensures tree.faults == old(tree.faults) + Blame(f)
      ensures f.Fine? ==> !mounted
      ensures f.Error? ==> mounted == old(mounted)
      ensures mounted ==> old(mounted)
    {
      f := *;
      var acts: bool := *;
      if f.Fine? || (f.Interrupt? && acts) {
        mounted := false;
      }
      tree.Report(f);
    }

    /** `mount`. */
    method Mount(tree: Tree) returns (f: Fault)
      modifies this`mounted, tree`faults
      ensures tree.faults == old(tree.faults) + Blame(f)
      ensures f.Fine? ==> mounted
      ensures f.Error? ==> mounted == old(mounted)
      ensures old(mounted) ==> mounted
    {
      f := *;
      var acts: bool := *;
      if f.Fine? || (f.Interrupt? && acts) {
        mounted := true;
      }
      tree.Report(f);
    }

    /** `_fstab_drop`. */
    method DropLine(tree: Tree) returns (f: Fault)
      modifies this`listed, tree`faults
      ensures tree.faults == old(tree.faults) + Blame(f)
      ensures f.Fine? ==> !listed
      ensures f.Error? ==> listed == old(listed)
      ensures listed ==> old(listed)
    {
      f := *;
      var acts: bool := *;
      if f.Fine? || (f.Interrupt? && acts) {
        listed := false;
      }
      tree.Report(f);
    }
  }

  /** Every snapshot from `n` on shows the subvolume as it was. */
  ghost predicate OnlyDst(t: seq<Snap>, n: nat, was: Snap) {
    forall i :: n <= i < |t| ==> OnlyAt(was, Dst, t[i])
  }

  /** The removal ends with the subvolume mounted where it was, given that it was mounted. */
  predicate MountStands(r: Exit) {
    match r
    case Done => false
    case Refused => true
    case Raised(at, fault, acted, _) =>
      match at
      case Unmounting => !acted
      case Copying => fault.Error?
      case Remounting => acted
      case _ => false
  }

  /** It ends with the line still in `/etc/fstab`, given that there was one. */
  predicate LineStands(r: Exit) {
    r.Refused? || (r.Raised? && (r.at in {Unmounting, Copying, Emptying, Remounting} || (r.at == FstabLine && !r.acted)))
  }

  predicate Subset(a: Entries, b: Entries) {
    forall n :: n in a ==> n in b
  }

  /** No name a copy ever wrote, from snapshot `n` on, is gone from `dst`. */
  ghost predicate NoneCleared(t: seq<Snap>, n: nat, dst: Node) {
    forall i :: n <= i < |t| ==> Subset(EntriesOf(t[i].dst), EntriesOf(dst))
  }

  /** `_copy`. */
  method CopyBack(tree: Tree) returns (f: Fault)
    requires tree.Valid() && !HasContent(tree.fs.dst)
    modifies tree
    ensures tree.faults >= old(tree.faults) + Blame(f)
    ensures f.Error? && old(tree.fs.dst).Dir? ==> tree.faults >= old(tree.faults) + 2
    ensures tree.Valid() && old(tree.trace) <= tree.trace
    ensures OnlyDst(tree.trace, |old(tree.trace)|, old(tree.fs)) && OnlyAt(old(tree.fs), Dst, tree.fs)
    ensures f.Fine? ==> old(tree.fs.src).Dir? && tree.fs.dst == old(tree.fs.src)
    ensures Subset(EntriesOf(tree.fs.dst), EntriesOf(tree.fs.src)) && NoneCleared(tree.trace, |old(tree.trace)|, tree.fs.dst)
  {
    f := Fine;
    if !tree.fs.dst.Dir? {
      f := tree.Create(Dst);
      if !f.Fine? {
        return;
      }
    }
    f := tree.Cp(Src, Dst);
    if f.Fine? {
      assert map[] + tree.fs.src.entries == tree.fs.src.entries;
    }
    if !f.Error? {
      return;
    }
    ghost var part := EntriesOf(tree.fs.dst);
    assert forall n :: n in part ==> n in EntriesOf(tree.fs.src);
    f := tree.Probe(Room);
    if !f.Fine? {
      return;
    }
    f := tree.Cp(Src, Dst);
    if f.Fine? {
      assert part + tree.fs.src.entries == tree.fs.src.entries;
    }
  }

  /** The `except` branch of the copy: drops the partial copy and mounts the subvolume again. */
  method CopyFailed(tree: Tree, site: Site, wasMounted: bool, was: Fault) returns (r: Exit)
    requires tree.Valid() && was.Error? && !site.mounted
    modifies tree, site`mounted
    ensures r.Raised? && r.at in {Copying, Emptying, Remounting} && !r.fault.Fine?
    ensures tree.faults >= old(tree.faults) && (r.emptied || tree.faults > old(tree.faults))
    ensures r.at != Copying ==> tree.faults > old(tree.faults)
    ensures tree.Valid() && old(tree.trace) <= tree.trace
    ensures OnlyDst(tree.trace, |old(tree.trace)|, old(tree.fs)) && OnlyAt(old(tree.fs), Dst, tree.fs)
    ensures r.at == Copying ==> r.fault == was
    ensures r.at == Emptying ==> r.fault.Interrupt? && !r.emptied
    ensures r.acted ==> r.at == Remounting && r.fault.Interrupt?
    ensures r.emptied ==> !HasContent(tree.fs.dst)
    ensures Subset(EntriesOf(tree.fs.dst), EntriesOf(old(tree.fs.dst)))
    ensures site.mounted <==> wasMounted && MountStands(r)
  {
    var emptied := true;
    if tree.fs.dst.Dir? {
      var f := tree.EmptyDir(Dst);
      emptied := f.Fine?;
      if f.Interrupt? {
        return Raised(Emptying, f, false, false);
      }
    }
    if !wasMounted {
      return Raised(Copying, was, false, emptied);
    }
    var f := site.Mount(tree);
    r := if f.Fine? then Raised(Copying, was, false, emptied) else Raised(Remounting, f, site.mounted, emptied);
  }

  /** The part of `_remove` below its guards. It ends mounted as before, and listed as before,
      exactly as `MountStands` and `LineStands` say: an interrupt between the `umount` and the end of
      the copy leaves the subvolume whole but unmounted, with whatever part of the copy was written. */
  method Remove(tree: Tree, site: Site) returns (r: Exit)
    requires tree.Valid()
    modifies tree, site
    ensures tree.Valid() && old(tree.trace) <= tree.trace
    ensures r.Refused? <==> HasContent(old(tree.fs.dst))
    ensures r.Refused? ==> tree.trace == old(tree.trace) && site.mounted == old(site.mounted) && site.listed == old(site.listed)
    // It stops only at a command that fails.
    ensures tree.faults >= old(tree.faults) && (r.Raised? ==> tree.faults > old(tree.faults))
    ensures r.Raised? && r.at == Copying && r.fault.Error? && old(tree.fs.dst).Dir? ==> tree.faults >= old(tree.faults) + 2
    // At every moment the subvolume is as it was, or its complete copy lies in the parent.
    ensures forall i :: |old(tree.trace)| <= i < |tree.trace| ==>
      || tree.trace[i].src == old(tree.fs.src)
      || ((r.Done? || (r.Raised? && r.at == Deleting)) && tree.trace[i].dst == old(tree.fs.src))
    ensures r.Done? ==>
      old(tree.fs.src).Dir? && tree.fs == Put(Put(old(tree.fs), Dst, old(tree.fs.src)), Src, Absent)
    ensures site.mounted <==> old(site.mounted) && MountStands(r)
    ensures site.listed <==> old(site.listed) && LineStands(r)
    ensures r.Raised? && r.acted ==> r.at == Deleting || (r.at in {Unmounting, Remounting, FstabLine} && r.fault.Interrupt?)
    ensures r.Raised? && r.at in {FstabLine, Deleting} ==> tree.fs.dst == old(tree.fs.src)
    ensures r.Raised? ==> tree.fs.src == if r.at == Deleting && r.acted then Absent else old(tree.fs.src)
    ensures r.Raised? && (r.at == Unmounting || r.emptied) ==> !HasContent(tree.fs.dst)
    ensures r.Raised? ==> Subset(EntriesOf(tree.fs.dst), EntriesOf(old(tree.fs.src)))
    ensures r.Raised? && r.at == Copying && r.fault.Interrupt? ==>
      !r.emptied && NoneCleared(tree.trace, |old(tree.trace)|, tree.fs.dst)
  {
    if HasContent(tree.fs.dst) {
      return Refused;
    }
    var wasMounted := site.mounted;
    if wasMounted {
      var f := site.Umount(tree);
      if !f.Fine? {
        return Raised(Unmounting, f, !site.mounted, false);
      }
    }
    var f := CopyBack(tree);
    if f.Interrupt? {
      // `except Exception` does not see it: the partial copy stays.
      return Raised(Copying, f, false, false);
    }
    if f.Error? {
      r := CopyFailed(tree, site, wasMounted, f);
      return;
    }
    r := Conclude(tree, site);
  }

  /** The last two steps, after a complete copy. */
  method Conclude(tree: Tree, site: Site) returns (r: Exit)
    requires tree.Valid()
    modifies tree, site`listed
    ensures tree.faults >= old(tree.faults) && (r.Raised? ==> tree.faults > old(tree.faults))
    ensures tree.Valid() && old(tree.trace) <= tree.trace
    ensures r.Done? || (r.Raised? && r.at in {FstabLine, Deleting} && !r.emptied)
    ensures forall i :: |old(tree.trace)| <= i < |tree.trace| ==> OnlyAt(old(tree.fs), Src, tree.trace[i])
    ensures r.Raised? && r.at == FstabLine ==> tree.trace == old(tree.trace) && (r.acted ==> r.fault.Interrupt?)
    ensures tree.fs == if r.Done? || (r.at == Deleting && r.acted) then Put(old(tree.fs), Src, Absent) else old(tree.fs)
    ensures site.listed <==> old(site.listed) && LineStands(r)
  {
    var wasListed := site.listed;
    var f := site.DropLine(tree);
    if !f.Fine? {
      return Raised(FstabLine, f, f.Interrupt? && wasListed && !site.listed, false);
    }
    f := tree.DeleteSubvolume(Src);
    r := if f.Fine? then Done else Raised(Deleting, f, tree.fs.src.Absent?, false);
  }
}
