/** Filling a new or adopted subvolume with what lies at its mountpoint: set aside, copy, commit,
    and the rollback when a step fails. */
module SubvolFill {
  import opened SubvolFiles

  datatype Place = FreshSubvolume | Attributes | IdleCheck | SetAside | FreshDirectory | Copying
                 | RemovingFresh | PuttingBack | OldCopy

  /** The step that stopped the run and its fault. `acted`: a rename that was interrupted took effect
      all the same. `cleaned`: the rollback of the subvolume itself reported no failure. `left`: after
      the commit the old copy could not be deleted. */
  datatype Exit = Done(left: bool) | Refused | Raised(at: Place, fault: Fault, acted: bool, cleaned: bool)

  /** Where a run that failed before the commit leaves the contents: at the path, or set aside. */
  predicate BackAtPath(r: Exit)
    requires r.Raised?
  {
    match r.at
    case SetAside => !r.acted
    case PuttingBack => r.acted
    case FreshDirectory | RemovingFresh => false
    case _ => true
  }

  /** Only a rename can have acted though it failed, and only when it was interrupted. */
  predicate ActedOnlyInterrupted(r: Exit)
    requires r.Raised?
  {
    r.acted ==> r.fault.Interrupt? && r.at in {SetAside, PuttingBack}
  }

  // ---------------------------------------------------------------- what every run keeps

  datatype Mode = Before | Aside | Committed

  /** The run starts at snapshot `start`; from `ren` on what was at the path is set aside, and it
      is `aside`; from `com` on the copy is complete. An index past the record: not yet. */
  datatype Plot = Plot(start: nat, ren: nat, com: nat, aside: Node)

  function ModeAt(p: Plot, i: nat): Mode {
    if i < p.ren then Before else if i < p.com then Aside else Committed
  }

  predicate Good(first: Snap, aside: Node, s: Snap, mode: Mode) {
    && Keeps(first.dst, s.dst)
    && match mode
       case Before => s.staging.Absent? && Keeps(first.src, s.src)
       case Aside =>
         && aside.Dir? && Keeps(first.src, aside)
         && (s.staging == aside || (s.staging.Absent? && Keeps(aside, s.src)))
       case Committed => aside.Dir? && Keeps(first.src, aside) && Keeps(aside, s.dst)
  }

  /** Only setting it aside takes anything from the path, and it takes it whole. */
  predicate Next(a: Snap, b: Snap, renames: bool, committed: bool) {
    && (if renames then b.staging == a.src else Keeps(a.src, b.src))
    && (committed ==> b.dst == a.dst)
  }

  ghost predicate History(t: seq<Snap>, p: Plot) {
    && p.start < p.ren <= p.com <= |t|
    && (p.ren < |t| ==> t[p.ren - 1].src == p.aside)
    && (forall i :: p.start <= i < |t| ==> Good(t[p.start], p.aside, t[i], ModeAt(p, i)))
    && (forall i :: p.start <= i < |t| - 1 ==> Next(t[i], t[i + 1], i + 1 == p.ren, i >= p.com))
  }

  /** The plot after more snapshots of the same mode. */
  function Longer(p: Plot, n: nat, n': nat): Plot {
    if p.com < n then p
    else if p.ren < n then p.(com := n')
    else p.(ren := n', com := n')
  }

  lemma Extend(t: seq<Snap>, t': seq<Snap>, p: Plot)
    requires History(t, p) && t <= t'
    requires forall i :: |t| <= i < |t'| ==>
      && Good(t[p.start], p.aside, t'[i], ModeAt(p, |t| - 1))
      && Next(t'[i - 1], t'[i], false, p.com < |t|)
    ensures History(t', Longer(p, |t|, |t'|))
  {
    var q := Longer(p, |t|, |t'|);
    assert forall i :: 0 <= i < |t| ==> t'[i] == t[i];
    forall i | p.start <= i < |t'| - 1
      ensures Next(t'[i], t'[i + 1], i + 1 == q.ren, i >= q.com)
    {
      if i + 1 < |t| {
        assert Next(t[i], t[i + 1], i + 1 == p.ren, i >= p.com);
      } else {
        assert Next(t'[i + 1 - 1], t'[i + 1], false, p.com < |t|);
      }
    }
  }

  lemma KeepsTrans(a: Node, b: Node, c: Node)
    requires Keeps(a, b) && Keeps(b, c)
    ensures Keeps(a, c)
  {
  }

  lemma ExtendOthers(t: seq<Snap>, s: Snap, p: Plot)
    requires History(t, p)
    requires OnlyAt(t[|t| - 1], Src, s) && Keeps(t[|t| - 1].src, s.src)
    ensures History(t + [s], Longer(p, |t|, |t| + 1))
  {
    var last := t[|t| - 1];
    assert Good(t[p.start], p.aside, last, ModeAt(p, |t| - 1));
    match ModeAt(p, |t| - 1) {
      case Before => KeepsTrans(t[p.start].src, last.src, s.src);
      case Aside => if last.staging != p.aside { KeepsTrans(p.aside, last.src, s.src); }
      case Committed =>
    }
    Extend(t, t + [s], p);
  }

  /** Before the commit, anything may be done to a `dst` that held nothing at the start. */
  lemma ExtendDst(t: seq<Snap>, t': seq<Snap>, p: Plot)
    requires History(t, p) && p.com == |t| && t <= t'
    requires forall i :: |t| <= i < |t'| ==> OnlyAt(t[|t| - 1], Dst, t'[i]) && Keeps(t[p.start].dst, t'[i].dst)
    ensures History(t', Longer(p, |t|, |t'|))
  {
    var last := t[|t| - 1];
    assert Good(t[p.start], p.aside, last, ModeAt(p, |t| - 1));
    forall i | |t| <= i < |t'|
      ensures Good(t[p.start], p.aside, t'[i], ModeAt(p, |t| - 1)) && Next(t'[i - 1], t'[i], false, p.com < |t|)
    {
      assert t'[i].src == last.src && t'[i].staging == last.staging;
      if i > |t| {
        assert OnlyAt(last, Dst, t'[i - 1]);
      }
    }
    Extend(t, t', p);
  }

  lemma ExtendRename(t: seq<Snap>, s: Snap, p: Plot)
    requires History(t, p) && p.ren == |t|
    requires Renames(t[|t| - 1], Src, Staging, s)
    ensures History(t + [s], p.(com := |t| + 1, aside := t[|t| - 1].src))
  {
    var last := t[|t| - 1];
    var q := p.(com := |t| + 1, aside := last.src);
    var t' := t + [s];
    assert Good(t[p.start], p.aside, last, Before);
    forall i | p.start <= i < |t'| - 1
      ensures Next(t'[i], t'[i + 1], i + 1 == q.ren, i >= q.com)
    {
      if i + 1 < |t| {
        assert Next(t[i], t[i + 1], i + 1 == p.ren, i >= p.com);
      }
    }
    forall i | p.start <= i < |t'|
      ensures Good(t'[p.start], q.aside, t'[i], ModeAt(q, i))
    {
      if i < |t| {
        assert Good(t[p.start], p.aside, t[i], ModeAt(p, i));
      }
    }
  }

  /** While set aside, the path itself may be made, removed while empty, or given back. */
  lemma ExtendSrc(t: seq<Snap>, s: Snap, p: Plot)
    requires History(t, p) && p.ren < |t| && p.com == |t|
    requires s.dst == t[|t| - 1].dst && Keeps(t[|t| - 1].src, s.src)
    requires s.staging == p.aside || (s.staging.Absent? && Keeps(p.aside, s.src))
    ensures History(t + [s], Longer(p, |t|, |t| + 1))
  {
    assert Good(t[p.start], p.aside, t[|t| - 1], Aside);
    Extend(t, t + [s], p);
  }

  lemma ExtendCommit(t: seq<Snap>, s: Snap, p: Plot)
    requires History(t, p) && p.ren < |t| && p.com == |t|
    requires OnlyAt(t[|t| - 1], Dst, s) && s.dst == p.aside && Keeps(t[p.start].dst, s.dst)
    ensures History(t + [s], p)
  {
    assert Good(t[p.start], p.aside, t[|t| - 1], Aside);
    var t' := t + [s];
    forall i | p.start <= i < |t'| - 1
      ensures Next(t'[i], t'[i + 1], i + 1 == p.ren, i >= p.com)
    {
      if i + 1 < |t| {
        assert Next(t[i], t[i + 1], i + 1 == p.ren, i >= p.com);
      }
    }
  }

  lemma ExtendStaging(t: seq<Snap>, t': seq<Snap>, p: Plot)
    requires History(t, p) && p.com < |t| && t <= t'
    requires forall i :: |t| <= i < |t'| ==> OnlyAt(t[|t| - 1], Staging, t'[i])
    ensures History(t', Longer(p, |t|, |t'|))
  {
    var last := t[|t| - 1];
    assert Good(t[p.start], p.aside, last, Committed);
    forall i | |t| <= i < |t'|
      ensures Good(t[p.start], p.aside, t'[i], Committed) && Next(t'[i - 1], t'[i], false, true)
    {
      assert t'[i].src == last.src && t'[i].dst == last.dst;
      if i > |t| {
        assert OnlyAt(last, Staging, t'[i - 1]);
      }
    }
    Extend(t, t', p);
  }

  // ---------------------------------------------------------------- the move

  /** Another process gets to write. */
  method Wait(tree: Tree, ghost p: Plot) returns (ghost q: Plot)
    requires tree.Valid() && History(tree.trace, p)
    modifies tree`fs, tree`trace
    ensures tree.Valid() && History(tree.trace, q) && tree.trace == old(tree.trace) + [tree.fs]
    ensures q == Longer(p, |old(tree.trace)|, |tree.trace|)
    ensures OnlyAt(old(tree.fs), Src, tree.fs) && Keeps(old(tree.fs.src), tree.fs.src)
    ensures old(tree.fs.src).Dir? ==> tree.fs.src.Dir?
  {
    tree.Others();
    ExtendOthers(old(tree.trace), tree.fs, p);
    q := Longer(p, |old(tree.trace)|, |tree.trace|);
  }

  /** What was set aside is whole, nothing is copied yet, and `dst` held nothing to begin with. */
  ghost predicate Carrying(tree: Tree, p: Plot, n: nat)
    reads tree
  {
    && tree.Valid() && History(tree.trace, p)
    && p.start < n <= |tree.trace| && p.ren < |tree.trace| && p.com == |tree.trace|
    && tree.fs.staging == p.aside && p.aside.Dir?
    && Blank(tree.trace[p.start].dst, tree.fs.dst)
  }

  /** `first` held nothing, and if it was no directory it still is none. */
  predicate Blank(first: Node, now: Node) {
    EntriesOf(first) == map[] && (first.Other? ==> now.Other?)
  }

  predicate Subset(a: Entries, b: Entries) {
    forall n :: n in a ==> n in b
  }

  /** One `cp` of what was set aside into `dst`. */
  method CopyOnce(tree: Tree, ghost reflink: bool, ghost p: Plot) returns (f: Fault, ghost q: Plot)
    requires reflink || Room in tree.passed
    requires Carrying(tree, p, |tree.trace|) && Subset(EntriesOf(tree.fs.dst), EntriesOf(p.aside))
    modifies tree
    ensures tree.faults == old(tree.faults) + Blame(f)
    ensures old(tree.trace) <= tree.trace && q.start == p.start && q.aside == p.aside && q.ren == p.ren
    ensures tree.fs.src == old(tree.fs.src)
    ensures f.Fine? ==> tree.Valid() && History(tree.trace, q) && q.com == |tree.trace| - 1 && tree.fs.dst == p.aside
    ensures !f.Fine? ==> Carrying(tree, q, |tree.trace|) && Subset(EntriesOf(tree.fs.dst), EntriesOf(p.aside))
  {
    f := tree.Cp(Staging, Dst);
    var first := old(tree.trace)[p.start].dst;
    if f.Fine? {
      assert EntriesOf(old(tree.fs.dst)) + p.aside.entries == p.aside.entries;
      ExtendCommit(old(tree.trace), tree.fs, p);
      q := p;
    } else {
      ExtendDst(old(tree.trace), tree.trace, p);
      q := Longer(p, |old(tree.trace)|, |tree.trace|);
    }
  }

  /** `os.makedirs(dst, exist_ok=True)`. */
  method MakeDst(tree: Tree, ghost p: Plot) returns (f: Fault, ghost q: Plot)
    requires Carrying(tree, p, |tree.trace|) && EntriesOf(tree.fs.dst) == map[]
    modifies tree
    ensures tree.faults == old(tree.faults) + Blame(f)
    ensures old(tree.trace) <= tree.trace && q.start == p.start && q.aside == p.aside && q.ren == p.ren
    ensures Carrying(tree, q, |tree.trace|) && EntriesOf(tree.fs.dst) == map[]
    ensures old(tree.fs.dst).Dir? ==> f.Fine?
    ensures tree.fs.src == old(tree.fs.src)
  {
    q := p;
    if tree.fs.dst.Dir? {
      return Fine, q;
    }
    f := tree.Create(Dst);
    ExtendDst(old(tree.trace), tree.trace, p);
    q := Longer(p, |old(tree.trace)|, |tree.trace|);
  }

  /** The copy is complete, or everything is still as it was but for a part of it in `dst`. */
  ghost predicate Copied(tree: Tree, p: Plot, q: Plot, f: Fault)
    reads tree
  {
    && q.start == p.start && q.aside == p.aside && q.ren == p.ren
    && tree.Valid() && History(tree.trace, q)
    && (f.Fine? ==> q.com < |tree.trace| && tree.fs.dst == p.aside)
    && (!f.Fine? ==> Carrying(tree, q, |tree.trace|) && Subset(EntriesOf(tree.fs.dst), EntriesOf(p.aside)))
  }

  /** The second attempt of `_copy`: without reflinks, if there is room. */
  method PlainCopy(tree: Tree, ghost p: Plot) returns (f: Fault, ghost q: Plot)
    requires Carrying(tree, p, |tree.trace|) && Subset(EntriesOf(tree.fs.dst), EntriesOf(p.aside))
    modifies tree
    ensures tree.faults >= old(tree.faults) + Blame(f)
    ensures old(tree.trace) <= tree.trace && Copied(tree, p, q, f)
  {
    q := WaitCarrying(tree, p);
    f := tree.Probe(Room);
    if f.Fine? {
      f, q := CopyOnce(tree, false, q);
    }
  }

  /** `_copy`: a reflink copy, else a plain one if there is room. */
  method Copy(tree: Tree, ghost p: Plot) returns (f: Fault, ghost q: Plot)
    requires Carrying(tree, p, |tree.trace|) && EntriesOf(tree.fs.dst) == map[]
    modifies tree
    ensures tree.faults >= old(tree.faults) + Blame(f)
    // A reflink that fails is not the end: the plain copy failed too.
    ensures f.Error? && old(tree.fs.dst).Dir? ==> tree.faults >= old(tree.faults) + 2
    ensures old(tree.trace) <= tree.trace && Copied(tree, p, q, f)
  {
    f, q := MakeDst(tree, p);
    if !f.Fine? {
      return;
    }
    q := WaitCarrying(tree, q);
    f, q := CopyOnce(tree, true, q);
    if f.Error? {
      f, q := PlainCopy(tree, q);
    }
  }

  method WaitCarrying(tree: Tree, ghost p: Plot) returns (ghost q: Plot)
    requires Carrying(tree, p, |tree.trace|)
    modifies tree`fs, tree`trace
    ensures old(tree.trace) <= tree.trace && q.start == p.start && q.aside == p.aside && q.ren == p.ren
    ensures Carrying(tree, q, |tree.trace|) && tree.fs.dst == old(tree.fs.dst)
    ensures Keeps(old(tree.fs.src), tree.fs.src)
  {
    q := Wait(tree, p);
  }

  /** Makes the empty directory at the path again. */
  method MakeSrc(tree: Tree, ghost p: Plot) returns (f: Fault, ghost q: Plot)
    requires Carrying(tree, p, |tree.trace|)
    modifies tree
    ensures tree.faults == old(tree.faults) + Blame(f)
    ensures old(tree.trace) <= tree.trace && q.start == p.start && q.aside == p.aside && q.ren == p.ren
    ensures Carrying(tree, q, |tree.trace|) && tree.fs.dst == old(tree.fs.dst)
    ensures f.Fine? ==> tree.fs.src.Dir?
  {
    f := tree.Create(Src);
    ExtendSrc(old(tree.trace), tree.fs, p);
    q := Longer(p, |old(tree.trace)|, |tree.trace|);
  }

  /** Removes it while it is empty. */
  method DropSrc(tree: Tree, ghost p: Plot) returns (f: Fault, ghost q: Plot)
    requires Carrying(tree, p, |tree.trace|)
    modifies tree
    ensures tree.faults == old(tree.faults) + Blame(f)
    ensures old(tree.trace) <= tree.trace && q.start == p.start && q.aside == p.aside && q.ren == p.ren
    ensures Carrying(tree, q, |tree.trace|) && tree.fs.dst == old(tree.fs.dst)
    ensures f.Fine? ==> !HasContent(old(tree.fs.src))
  {
    f := tree.Rmdir(Src);
    ExtendSrc(old(tree.trace), tree.fs, p);
    q := Longer(p, |old(tree.trace)|, |tree.trace|);
  }

  /** The rename back. */
  method GiveBack(tree: Tree, ghost p: Plot) returns (f: Fault, acted: bool, ghost q: Plot)
    requires Carrying(tree, p, |tree.trace|)
    modifies tree
    ensures tree.faults == old(tree.faults) + Blame(f)
    ensures old(tree.trace) <= tree.trace && q.start == p.start && q.aside == p.aside && q.ren == p.ren
    ensures Carried(tree, q) && tree.fs.dst == old(tree.fs.dst)
    ensures f.Fine? ==> acted
    ensures f.Error? ==> !acted
    ensures if acted then tree.fs.staging.Absent? && tree.fs.src == p.aside && Vacant(old(tree.fs.src)) else tree.fs == old(tree.fs)
  {
    f := tree.Rename(Staging, Src);
    acted := tree.fs.staging.Absent?;
    ExtendSrc(old(tree.trace), tree.fs, p);
    q := Longer(p, |old(tree.trace)|, |tree.trace|);
  }

  /** Set aside once, perhaps given back, not committed. */
  ghost predicate Carried(tree: Tree, p: Plot)
    reads tree
  {
    tree.Valid() && History(tree.trace, p) && p.start < p.ren < |tree.trace| && p.com == |tree.trace|
  }

  /** `_unstage`. The contents are back exactly when both steps are done, or the rename that was
      interrupted had acted; else they are still set aside, whole. Files somebody put at the path
      meanwhile are never replaced: the path only gains, and a path that is not empty stops the
      first step. */
  method Unstage(tree: Tree, ghost p: Plot) returns (f: Fault, at: Place, acted: bool, ghost q: Plot)
    requires Carrying(tree, p, |tree.trace|)
    modifies tree
    ensures tree.faults >= old(tree.faults) + Blame(f)
    ensures old(tree.trace) <= tree.trace && q.start == p.start && q.aside == p.aside && q.ren == p.ren
    ensures Carried(tree, q) && tree.fs.dst == old(tree.fs.dst)
    ensures at in {RemovingFresh, PuttingBack} && (acted ==> at == PuttingBack && f != Error)
    ensures f.Fine? ==> acted
    ensures if acted then tree.fs.staging.Absent? && Keeps(p.aside, tree.fs.src) else tree.fs.staging == p.aside
    ensures HasContent(old(tree.fs.src)) ==> !f.Fine? && at == RemovingFresh
    ensures forall i :: |old(tree.trace)| <= i < |tree.trace| ==> Keeps(tree.trace[i].src, tree.fs.src)
  {
    q := WaitCarrying(tree, p);
    f, q := DropSrc(tree, q);
    at, acted := RemovingFresh, false;
    if f.Fine? {
      q := WaitCarrying(tree, q);
      at := PuttingBack;
      f, acted, q := GiveBack(tree, q);
    }
    GainsToTheEnd(tree.trace, q, |old(tree.trace)|);
  }

  lemma GainsToTheEnd(t: seq<Snap>, p: Plot, n: nat)
    requires History(t, p) && p.ren <= n <= |t|
    ensures forall i :: n <= i < |t| ==> Keeps(t[i].src, t[|t| - 1].src)
  {
    forall i | n <= i < |t|
      ensures Keeps(t[i].src, t[|t| - 1].src)
    {
      PathOnlyGains(t, p, i, |t| - 1);
    }
  }

  /** The rename: all of the path's contents, or nothing. */
  method PutAside(tree: Tree, ghost p: Plot) returns (f: Fault, acted: bool, ghost q: Plot)
    requires IdlePath in tree.passed
    requires tree.Valid() && History(tree.trace, p) && p.ren == |tree.trace| && tree.fs.src.Dir? && tree.fs.staging.Absent?
    requires Blank(tree.trace[p.start].dst, tree.fs.dst)
    modifies tree
    ensures tree.faults == old(tree.faults) + Blame(f)
    ensures old(tree.trace) <= tree.trace && q.start == p.start && tree.fs.dst == old(tree.fs.dst)
    ensures tree.Valid() && History(tree.trace, q) && q.com == |tree.trace|
    ensures f.Fine? ==> acted
    ensures f.Error? ==> !acted
    ensures if acted then Carrying(tree, q, |tree.trace|) && q.aside == old(tree.fs.src)
            else tree.fs == old(tree.fs) && q.ren == |tree.trace|
  {
    f := tree.Rename(Src, Staging);
    acted := !tree.fs.staging.Absent?;
    if acted {
      ExtendRename(old(tree.trace), tree.fs, p);
      q := p.(com := |tree.trace|, aside := old(tree.fs.src));
    } else {
      ExtendOthers(old(tree.trace), tree.fs, p);
      q := Longer(p, |old(tree.trace)|, |tree.trace|);
    }
  }

  /** What the caller learns when the move of the contents stops. */
  ghost predicate Stopped(r: Exit, fs: Snap) {
    && r.Raised? && !r.cleaned && r.at in {SetAside, FreshDirectory, Copying, RemovingFresh, PuttingBack}
    && ActedOnlyInterrupted(r)
    && (fs.staging.Absent? <==> BackAtPath(r))
  }

  /** The inner `try`. */
  method CopyAside(tree: Tree, ghost p: Plot) returns (r: Exit, ghost q: Plot)
    requires Carrying(tree, p, |tree.trace|) && EntriesOf(tree.fs.dst) == map[]
    modifies tree
    ensures tree.faults >= old(tree.faults) && (r.Raised? ==> tree.faults > old(tree.faults))
    ensures r.Raised? && r.at == Copying && r.fault.Error? && old(tree.fs.dst).Dir? ==> tree.faults >= old(tree.faults) + 2
    ensures old(tree.trace) <= tree.trace && tree.Valid() && History(tree.trace, q) && q.start == p.start
    ensures r.Done? ==> !r.left && q.com < |tree.trace| && tree.fs.dst == q.aside
    ensures !r.Done? ==> Stopped(r, tree.fs) && q.com == |tree.trace|
  {
    var f;
    f, q := Copy(tree, p);
    if f.Fine? {
      return Done(false), q;
    }
    var undone, at, acted;
    undone, at, acted, q := Unstage(tree, q);
    r := if undone.Fine? then Raised(Copying, f, false, false) else Raised(at, undone, acted, false);
  }

  /** From the rename to the end of the copy. */
  method Carry(tree: Tree, ghost adopt: bool, ghost p: Plot) returns (r: Exit, ghost q: Plot)
    requires Careful(tree, adopt)
    requires tree.Valid() && History(tree.trace, p) && p.ren == |tree.trace| && tree.fs.src.Dir?
    requires Blank(tree.trace[p.start].dst, tree.fs.dst) && EntriesOf(tree.fs.dst) == map[]
    modifies tree
    ensures tree.faults >= old(tree.faults) && (r.Raised? ==> tree.faults > old(tree.faults))
    ensures r.Raised? && r.at == Copying && r.fault.Error? && old(tree.fs.dst).Dir? ==> tree.faults >= old(tree.faults) + 2
    ensures old(tree.trace) <= tree.trace && tree.Valid() && History(tree.trace, q) && q.start == p.start
    ensures r.Done? ==> !r.left && q.com < |tree.trace| && tree.fs.dst == q.aside
    ensures !r.Done? ==> Stopped(r, tree.fs) && q.com == |tree.trace|
  {
    assert Good(tree.trace[p.start], p.aside, tree.fs, Before);
    var f, acted;
    f, acted, q := PutAside(tree, p);
    if !f.Fine? {
      return Raised(SetAside, f, acted, false), q;
    }
    q := WaitCarrying(tree, q);
    f, q := MakeSrc(tree, q);
    if !f.Fine? {
      return Raised(FreshDirectory, f, false, false), q;
    }
    r, q := CopyAside(tree, q);
  }

  /** Nothing was set aside so far. */
  ghost predicate Untouched(tree: Tree, p: Plot)
    reads tree
  {
    && tree.Valid() && History(tree.trace, p) && p.ren == |tree.trace|
    && tree.fs.staging.Absent? && Keeps(tree.trace[p.start].src, tree.fs.src)
  }

  lemma HistoryUntouched(tree: Tree, p: Plot)
    requires tree.Valid() && History(tree.trace, p) && p.ren == |tree.trace|
    ensures Untouched(tree, p)
  {
    assert Good(tree.trace[p.start], p.aside, tree.fs, Before);
  }

  method WaitBefore(tree: Tree, ghost p: Plot) returns (ghost q: Plot)
    requires Untouched(tree, p)
    modifies tree`fs, tree`trace
    ensures old(tree.trace) <= tree.trace && q.start == p.start
    ensures Untouched(tree, q) && tree.fs.dst == old(tree.fs.dst)
    ensures old(tree.fs.src).Dir? ==> tree.fs.src.Dir?
  {
    q := Wait(tree, p);
    HistoryUntouched(tree, q);
  }

  /** `btrfs subvolume create`. */
  method CreateDst(tree: Tree, ghost p: Plot) returns (f: Fault, ghost q: Plot)
    requires Untouched(tree, p) && tree.fs.dst == tree.trace[p.start].dst
    modifies tree
    ensures tree.faults == old(tree.faults) + Blame(f)
    ensures old(tree.trace) <= tree.trace && q.start == p.start
    ensures Untouched(tree, q) && tree.fs.src == old(tree.fs.src)
    ensures EntriesOf(tree.fs.dst) == EntriesOf(old(tree.fs.dst))
    ensures f.Fine? ==> old(tree.fs.dst).Absent? && tree.fs.dst == Dir(map[])
  {
    f := tree.Create(Dst);
    ExtendDst(old(tree.trace), tree.trace, p);
    q := Longer(p, |old(tree.trace)|, |tree.trace|);
    HistoryUntouched(tree, q);
  }

  /** Nobody works below the path, and a new subvolume has the flag of the directory it replaces. */
  ghost predicate Careful(tree: Tree, adopt: bool)
    reads tree
  {
    IdlePath in tree.passed && (adopt || NoCopyOnWrite in tree.passed)
  }

  /** The commands between creating the subvolume and the rename: the no-copy-on-write flag of a
      new one, and the check that nobody works below the path. */
  method Precautions(tree: Tree, adopt: bool) returns (f: Fault, at: Place)
    modifies tree`faults, tree`passed
    ensures tree.faults == old(tree.faults) + Blame(f)
    ensures !f.Fine? ==> at in {Attributes, IdleCheck}
    ensures f.Fine? ==> Careful(tree, adopt)
  {
    if !adopt {
      f := tree.Probe(NoCopyOnWrite);
      if !f.Fine? {
        return f, Attributes;
      }
    }
    f := tree.Probe(IdlePath);
    at := IdleCheck;
  }

  /** Stopped before the commit, with the rollback of `dst` still to come. */
  ghost predicate Halted(r: Exit, fs: Snap) {
    r.Raised? && !r.cleaned && r.at != OldCopy && ActedOnlyInterrupted(r) && (fs.staging.Absent? <==> BackAtPath(r))
  }

  /** The precautions, and then the contents. */
  method CarryCarefully(tree: Tree, adopt: bool, ghost p: Plot) returns (r: Exit, ghost q: Plot)
    requires Untouched(tree, p) && tree.fs.src.Dir?
    requires Blank(tree.trace[p.start].dst, tree.fs.dst) && EntriesOf(tree.fs.dst) == map[]
    modifies tree
    ensures tree.faults >= old(tree.faults) && (r.Raised? ==> tree.faults > old(tree.faults))
    ensures r.Raised? && r.at == Copying && r.fault.Error? && old(tree.fs.dst).Dir? ==> tree.faults >= old(tree.faults) + 2
    ensures old(tree.trace) <= tree.trace && tree.Valid() && History(tree.trace, q) && q.start == p.start
    ensures r.Done? ==> !r.left && q.com < |tree.trace| && tree.fs.dst == q.aside
    ensures !r.Done? ==> Halted(r, tree.fs) && q.com == |tree.trace|
    ensures !r.Done? && r.at in {Attributes, IdleCheck} ==> tree.fs == old(tree.fs)
  {
    q := p;
    var f, at := Precautions(tree, adopt);
    if !f.Fine? {
      return Raised(at, f, false, false), q;
    }
    q := WaitBefore(tree, q);
    r, q := Carry(tree, adopt, q);
  }

  /** What the rollback of `dst` is told. */
  ghost predicate Failed(r: Exit, first: Snap, fs: Snap, created: bool, emptiable: bool) {
    && r.Raised? && !r.cleaned && r.at != OldCopy
    && (created || emptiable ==> EntriesOf(first.dst) == map[])
    && (!created && !emptiable ==> EntriesOf(fs.dst) == EntriesOf(first.dst))
    && ActedOnlyInterrupted(r)
    && (fs.staging.Absent? <==> BackAtPath(r))
  }

  /** The subvolume holds exactly what was set aside, or there was nothing to set aside. */
  ghost predicate Filled(p: Plot, first: Snap, fs: Snap, n: nat, adopt: bool) {
    if p.com < n then
      fs.dst == p.aside
    else
      && p.ren == n && fs.staging.Absent? && EntriesOf(fs.dst) == EntriesOf(first.dst)
      && (!fs.src.Dir? || (adopt && EntriesOf(first.src) == map[]))
  }

  /** The outer `try` of `_fill_subvolume`. */
  method MoveIn(tree: Tree, adopt: bool, has: bool, ghost p: Plot) 
    returns (r: Exit, created: bool, carried: bool, ghost q: Plot)
    requires Untouched(tree, p) && tree.fs == tree.trace[p.start] && has == HasContent(tree.fs.src)
    requires adopt && has ==> !HasContent(tree.fs.dst)
    modifies tree
    ensures tree.faults >= old(tree.faults) && (r.Raised? ==> tree.faults > old(tree.faults))
    ensures r.Raised? && r.at == Copying && r.fault.Error? && !adopt ==> tree.faults >= old(tree.faults) + 2
    ensures r.Done? ==> !r.left
    ensures r.Raised? && r.at != FreshSubvolume ==> (created <==> !adopt)
    ensures old(tree.trace) <= tree.trace && tree.Valid() && History(tree.trace, q) && q.start == p.start
    ensures created ==> old(tree.fs.dst).Absent?
    ensures r.Done? ==> (carried <==> q.com < |tree.trace|)
    ensures r.Done? ==> Filled(q, old(tree.fs), tree.fs, |tree.trace|, adopt)
    ensures !r.Done? ==> Failed(r, old(tree.fs), tree.fs, created, adopt && has) && q.com == |tree.trace|
  {
    created, carried := false, false;
    q := WaitBefore(tree, p);
    if !adopt {
      var f;
      f, q := CreateDst(tree, q);
      if !f.Fine? {
        return Raised(FreshSubvolume, f, false, false), created, false, q;
      }
      created := true;
      q := WaitBefore(tree, q);
    }
    if !tree.fs.src.Dir? || (adopt && !has) {
      return Done(false), created, false, q;
    }
    r, q := CarryCarefully(tree, adopt, q);
    carried := r.Done?;
  }

  /** `_discard_partial`: deletes the subvolume this item created, or empties the adopted one that
      was empty before. */
  method DiscardPartial(tree: Tree, created: bool, emptiable: bool, ghost p: Plot) returns (cleaned: bool, ghost q: Plot)
    requires tree.Valid() && History(tree.trace, p) && p.com == |tree.trace|
    requires created ==> tree.trace[p.start].dst.Absent?
    requires emptiable ==> EntriesOf(tree.trace[p.start].dst) == map[]
    requires !created && !emptiable ==> EntriesOf(tree.fs.dst) == EntriesOf(tree.trace[p.start].dst)
    modifies tree
    ensures tree.faults >= old(tree.faults) && (!cleaned ==> tree.faults > old(tree.faults))
    ensures created && cleaned ==> tree.fs.dst.Absent?
    ensures old(tree.trace) <= tree.trace && tree.Valid() && History(tree.trace, q) && q.start == p.start
    ensures q.com == |tree.trace| && (p.ren == |old(tree.trace)| ==> q.ren == |tree.trace|)
    ensures (p.ren < |old(tree.trace)| ==> q.ren == p.ren) && q.aside == p.aside
    ensures OnlyAt(old(tree.fs), Dst, tree.fs)
    ensures cleaned ==> EntriesOf(tree.fs.dst) == EntriesOf(tree.trace[p.start].dst)
  {
    q := p;
    cleaned := true;
    assert Good(tree.trace[p.start], p.aside, tree.fs, ModeAt(p, |tree.trace| - 1));
    if created {
      var f := tree.DeleteSubvolume(Dst);
      cleaned := f.Fine?;
      ExtendDst(old(tree.trace), tree.trace, p);
      q := Longer(p, |old(tree.trace)|, |tree.trace|);
    } else if emptiable && tree.fs.dst.Dir? {
      var f := tree.EmptyDir(Dst);
      cleaned := f.Fine?;
      ExtendDst(old(tree.trace), tree.trace, p);
      q := Longer(p, |old(tree.trace)|, |tree.trace|);
    }
  }

  /** After the commit: the old copy goes. A failure is a warning; an interrupt is not caught. */
  method DropOldCopy(tree: Tree, ghost p: Plot) returns (r: Exit, ghost q: Plot)
    requires tree.Valid() && History(tree.trace, p) && p.com < |tree.trace|
    modifies tree
    ensures tree.faults >= old(tree.faults) && (r.Raised? || (r.Done? && r.left) ==> tree.faults > old(tree.faults))
    ensures r.Done? && !r.left ==> tree.fs.staging.Absent?
    ensures old(tree.trace) <= tree.trace && tree.Valid() && History(tree.trace, q) && q == p
    ensures tree.fs.dst == old(tree.fs.dst)
    ensures r.Done? || r == Raised(OldCopy, Interrupt, false, false)
  {
    q := Wait(tree, p);
    ghost var t0 := tree.trace;
    if tree.fs.staging.Absent? {
      return Done(false), q;
    }
    var f := tree.DeleteTree(Staging);
    ExtendStaging(t0, tree.trace, q);
    r := if f.Interrupt? then Raised(OldCopy, Interrupt, false, false) else Done(f.Error?);
  }

  /** `_fill_subvolume`. A run that fails before the commit leaves the contents whole, at the path
      exactly when `BackAtPath` and set aside otherwise: a failure puts them back, except when the
      empty directory cannot be made after the rename (that step is outside the inner `try`), when
      putting them back fails, and when an interrupt hides a rename that took place. */
  method FillSubvolume(tree: Tree, adopt: bool) returns (r: Exit, ghost q: Plot)
    requires tree.Valid()
    modifies tree
    // It ends otherwise than with the contents carried over only when a command failed, and what was
    // set aside is gone at the end unless deleting it failed.
    ensures tree.faults >= old(tree.faults) && (r.Raised? || (r.Done? && r.left) ==> tree.faults > old(tree.faults))
    ensures r.Done? && !r.left ==> tree.fs.staging.Absent?
    ensures r.Raised? && r.at == Copying && r.fault.Error? && !adopt ==> tree.faults >= old(tree.faults) + 2
    ensures r.Raised? && r.cleaned && !adopt && r.at !in {FreshSubvolume, OldCopy} ==> tree.fs.dst.Absent?
    ensures tree.Valid() && old(tree.trace) <= tree.trace
    ensures r.Refused? <==> (!old(tree.fs.staging).Absent? || (adopt && HasContent(old(tree.fs.src)) && HasContent(old(tree.fs.dst))))
    ensures r.Refused? ==> tree.trace == old(tree.trace)
    ensures !r.Refused? ==> q.start == |old(tree.trace)| - 1 && History(tree.trace, q)
    ensures r.Done? ==> Filled(q, old(tree.fs), tree.fs, |tree.trace|, adopt)
    ensures r.Raised? ==> (r.at == OldCopy <==> q.com < |tree.trace|)
    ensures r.Raised? && r.at == OldCopy ==> tree.fs.dst == q.aside
    ensures r.Raised? && r.cleaned ==> EntriesOf(tree.fs.dst) == EntriesOf(old(tree.fs.dst))
    ensures r.Raised? ==> ActedOnlyInterrupted(r)
    ensures r.Raised? && r.at != OldCopy ==>
      && (tree.fs.staging.Absent? <==> BackAtPath(r))
      && Keeps(old(tree.fs.src), if BackAtPath(r) then tree.fs.src else tree.fs.staging)
  {
    q := Plot(|tree.trace| - 1, |tree.trace|, |tree.trace|, Absent);
    if !tree.fs.staging.Absent? {
      return Refused, q;
    }
    var has := HasContent(tree.fs.src);
    if adopt && has && HasContent(tree.fs.dst) {
      return Refused, q;
    }
    assert Good(tree.fs, Absent, tree.fs, Before);
    HistoryUntouched(tree, q);
    var created, carried;
    r, created, carried, q := MoveIn(tree, adopt, has, q);
    if r.Raised? {
      var cleaned;
      ghost var stopped := tree.fs;
      cleaned, q := DiscardPartial(tree, created, adopt && has, q);
      r := r.(cleaned := cleaned);
      BackOrAside(tree.trace, q);
      return;
    }
    if carried {
      r, q := DropOldCopy(tree, q);
    }
  }

  /** With nothing left set aside, everything is back at the path; else everything is set aside. */
  lemma BackOrAside(t: seq<Snap>, p: Plot)
    requires History(t, p) && p.com == |t|
    ensures t[|t| - 1].staging.Absent? ==> Keeps(t[p.start].src, t[|t| - 1].src)
    ensures !t[|t| - 1].staging.Absent? ==> Keeps(t[p.start].src, t[|t| - 1].staging)
  {
    var first, last := t[p.start], t[|t| - 1];
    assert Good(first, p.aside, last, ModeAt(p, |t| - 1));
    if p.ren < |t| && last.staging.Absent? {
      KeepsTrans(first.src, p.aside, last.src);
    }
  }

  // ---------------------------------------------------------------- what the record of a run says

  /** At every moment, what was at the path when the run began is whole in one place: at the path,
      set aside, or, once the copy was complete, in the subvolume. */
  lemma OriginalAlwaysWhole(t: seq<Snap>, p: Plot, i: nat)
    requires History(t, p) && p.start <= i < |t|
    ensures var first := t[p.start];
            || Keeps(first.src, t[i].src)
            || (t[i].staging.Dir? && Keeps(first.src, t[i].staging))
            || (i >= p.com && Keeps(first.src, t[i].dst))
  {
    var first := t[p.start];
    assert Good(first, p.aside, t[i], ModeAt(p, i));
    match ModeAt(p, i) {
      case Before =>
      case Aside => if t[i].staging != p.aside { KeepsTrans(first.src, p.aside, t[i].src); }
      case Committed => KeepsTrans(first.src, p.aside, t[i].dst);
    }
  }

  /** Between two moments on the same side of the rename the path only gains files. */
  lemma {:induction false} PathOnlyGains(t: seq<Snap>, p: Plot, i: nat, j: nat)
    requires History(t, p) && p.start <= i <= j < |t| && (j < p.ren || p.ren <= i)
    ensures Keeps(t[i].src, t[j].src)
    decreases j - i
  {
    if i < j {
      PathOnlyGains(t, p, i, j - 1);
      assert Next(t[j - 1], t[j - 1 + 1], j - 1 + 1 == p.ren, j - 1 >= p.com);
      KeepsTrans(t[i].src, t[j - 1].src, t[j].src);
    }
  }

  /** Whatever anybody ever put at the path is, at every later moment, at the path, set aside, or
      in the subvolume after the commit: nobody's file is ever deleted. */
  lemma NothingLost(t: seq<Snap>, p: Plot, i: nat, j: nat)
    requires History(t, p) && p.start <= i <= j < |t|
    ensures || Keeps(t[i].src, t[j].src)
            || (t[j].staging.Dir? && Keeps(t[i].src, t[j].staging))
            || (j >= p.com && Keeps(t[i].src, t[j].dst))
  {
    if j < p.ren || p.ren <= i {
      PathOnlyGains(t, p, i, j);
    } else {
      PathOnlyGains(t, p, i, p.ren - 1);
      var k := p.ren - 1;
      assert Next(t[k], t[k + 1], k + 1 == p.ren, k >= p.com);
      KeepsTrans(t[i].src, t[k].src, p.aside);
      assert Good(t[p.start], p.aside, t[j], ModeAt(p, j));
      if j >= p.com {
        KeepsTrans(t[i].src, p.aside, t[j].dst);
      } else if t[j].staging != p.aside {
        KeepsTrans(t[i].src, p.aside, t[j].src);
      }
    }
  }

  /** The commit point is final: the subvolume never changes after it. */
  lemma {:induction false} CommittedIsFinal(t: seq<Snap>, p: Plot, j: nat)
    requires History(t, p) && p.com <= j < |t|
    ensures t[j].dst == t[p.com].dst && Keeps(t[p.start].src, t[j].dst)
    decreases j
  {
    if j == p.com {
      assert Good(t[p.start], p.aside, t[j], Committed);
      KeepsTrans(t[p.start].src, p.aside, t[j].dst);
    } else {
      CommittedIsFinal(t, p, j - 1);
      assert Next(t[j - 1], t[j - 1 + 1], j - 1 + 1 == p.ren, j - 1 >= p.com);
    }
  }

  /** Whatever the subvolume held before the run it holds throughout. */
  lemma SubvolumeKeepsItsOwn(t: seq<Snap>, p: Plot, i: nat)
    requires History(t, p) && p.start <= i < |t|
    ensures Keeps(t[p.start].dst, t[i].dst)
  {
    assert Good(t[p.start], p.aside, t[i], ModeAt(p, i));
  }
}
