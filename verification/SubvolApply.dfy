/** Carrying out a plan of subvolume changes, each item from a fresh look at the machine. */
module SubvolApply {
  import opened Common
  import opened Text
  import opened Fstab
  import opened SubvolState
  import opened SubvolParent

  datatype Result = Ok | Refused | Failed

  datatype Command = Umount(mountpoint: string) | Delete(key: Key)

  /** How everything the model cannot see turns out for one item: nobody works below the path, no
      nested subvolume, no foreign mount, room and no hidden files (`quiet`); each command; for a
      fill that fails, whether the new subvolume stays behind. */
  datatype Luck = Luck(quiet: bool, unmounts: bool, fills: bool, leaves: bool, clean: bool, mounts: bool,
                       copies: bool, remounts: bool, deletes: bool)

  const ALL_WELL := Luck(true, true, true, true, true, true, true, true, true)

  /** What one item, or a run of them, leaves. */
  datatype Outcome = Outcome(result: Result, live: Live, log: seq<Command>)

  function OwnerOf(w: Wanted, live: Live): Owner
    requires w.key.label_ in live.uuids
  {
    Owner(w.key.name, live.uuids[w.key.label_])
  }

  function Line(w: Wanted, live: Live): string
    requires w.key.label_ in live.uuids
  {
    LineOf(OwnerOf(w, live), w.mountpoint, w.options)
  }

  // ---------------------------------------------------------------- vetting

  /** `os.path.normpath` leaves the path alone: no empty, `.` or `..` component (two leading slashes
      are a prefix of their own). */
  predicate Normalized(path: string) {
    || path == "/" || path == "//"
    || (path != "" && path[0] == '/' && GoodParts(path[1..]))
    || (|path| > 1 && path[0] == '/' && path[1] == '/' && GoodParts(path[2..]))
  }

  predicate GoodParts(rest: string) {
    forall c :: c in Split(rest, '/') ==> c != "" && c != "." && c != ".."
  }

  /** No control character. */
  predicate Printable(s: string) {
    forall c :: c in s ==> c >= ' ' && c != '\U{7F}'
  }

  /** `_vet_declaration`. */
  predicate Vet(name: string, mountpoint: string) {
    && Printable(name) && Printable(mountpoint)
    && Vetted(name) && '/' !in name && name != "." && name != ".."
    && Vetted(mountpoint) && mountpoint[0] == '/' && Normalized(mountpoint)
  }

  // ---------------------------------------------------------------- one install

  /** Nothing may be mounted at the new place or below it, and some mounted subvolume must contain it. */
  predicate Free(w: Wanted, live: Live) {
    && !IsMount(live.rows, w.mountpoint) && !MountedBelow(live.rows, w.mountpoint)
    && HasParent(live.rows, w.key, w.mountpoint)
  }

  /** The lines once the old mount's are dropped, if it moves. */
  function Base(w: Wanted, live: Live): seq<string> {
    match MountedAt(live.rows, w.key)
    case Some(at) => if at != w.mountpoint then Without(live.lines, at, None) else live.lines
    case None => live.lines
  }

  function Listed(w: Wanted, live: Live): seq<string>
    requires w.key.label_ in live.uuids
  {
    Rewritten(WithLine(Base(w, live), w.mountpoint, Line(w, live), OwnerOf(w, live)))
  }

  function Remounted(w: Wanted, live: Live): seq<Row> {
    match MountedAt(live.rows, w.key)
    case Some(at) => if at == w.mountpoint then live.rows else Unmounted(live.rows, at) + [Row(w.key, w.mountpoint)]
    case None => live.rows + [Row(w.key, w.mountpoint)]
  }

  /** `_install` carried out: the line alone, a move, or a new or adopted subvolume. */
  function Installed(w: Wanted, live: Live): Live
    requires w.key.label_ in live.uuids
  {
    live.(rows := Remounted(w, live), lines := Listed(w, live),
          existing := if MountedAt(live.rows, w.key).None? then live.existing + {w.key} else live.existing)
  }

  /** The commands of a move, once nothing speaks against it. */
  function Moved(w: Wanted, at: string, live: Live, luck: Luck): Outcome
    requires w.key.label_ in live.uuids
  {
    if !luck.unmounts then Outcome(Failed, live, [])
    else if !luck.mounts then
      Outcome(Failed, live.(rows := Unmounted(live.rows, at), lines := Listed(w, live)), [Umount(at)])
    else Outcome(Ok, Installed(w, live), [Umount(at)])
  }

  /** `_install`, the branch that moves a mounted subvolume. */
  function MoveOutcome(w: Wanted, at: string, live: Live, luck: Luck): Outcome
    requires w.key.label_ in live.uuids
  {
    if at == "/" || !Free(w, live) || !luck.quiet then Outcome(Refused, live, []) else Moved(w, at, live, luck)
  }

  /** `_install`, the branch that fills a new or adopted subvolume. */
  function FillOutcome(w: Wanted, live: Live, luck: Luck): Outcome
    requires w.key.label_ in live.uuids
  {
    if !Free(w, live) || !luck.quiet then Outcome(Refused, live, [])
    else
      var filled := live.(existing := live.existing + {w.key});
      if !luck.fills then Outcome(Failed, if luck.leaves then filled else live, [])
      else if !luck.clean then Outcome(Refused, filled, [])
      else if !luck.mounts then Outcome(Failed, filled, [])
      else Outcome(Ok, Installed(w, live), [])
  }

  /** `_install`. */
  function InstallOutcome(w: Wanted, live: Live, luck: Luck): Outcome
    requires w.key.label_ in live.uuids
  {
    match MountedAt(live.rows, w.key)
    case None => FillOutcome(w, live, luck)
    case Some(at) =>
      if at == w.mountpoint then Outcome(Ok, Installed(w, live), []) else MoveOutcome(w, at, live, luck)
  }

  // ---------------------------------------------------------------- one removal

  /** Where `_remove` takes the subvolume to be mounted: its mount, else the last mountpoint the
      machine-wide fstab map gives to its name. */
  function Place(k: Key, live: Live): Option<string> {
    if MountedAt(live.rows, k).Some? then MountedAt(live.rows, k) else NamedPlace(live.lines, k.name)
  }

  function OffTree(k: Key, live: Live, place: string): seq<Row> {
    if MountedAt(live.rows, k).Some? then Unmounted(live.rows, place) else live.rows
  }

  function Detaching(k: Key, live: Live, place: string): seq<Command> {
    if MountedAt(live.rows, k).Some? then [Umount(place)] else []
  }

  /** `_remove` carried out. */
  function Removed(k: Key, live: Live, place: string): Live {
    live.(rows := OffTree(k, live, place), lines := Without(live.lines, place, None), existing := live.existing - {k})
  }

  /** The guards of `_remove` a caller can check beforehand. */
  predicate Exposed(k: Key, live: Live) {
    && Place(k, live).Some? && Place(k, live).value != "/"
    && Vet(k.name, Place(k, live).value) && HasParent(live.rows, k, Place(k, live).value)
  }

  /** The commands of a removal, once nothing speaks against it. */
  function TakenOut(k: Key, live: Live, place: string, luck: Luck): Outcome {
    var mounted := MountedAt(live.rows, k).Some?;
    var off, log := OffTree(k, live, place), Detaching(k, live, place);
    if mounted && !luck.unmounts then Outcome(Failed, live, [])
    else if !luck.copies then
      Outcome(Failed, live.(rows := if mounted && luck.remounts then off + [Row(k, place)] else off), log)
    else if !luck.deletes then
      Outcome(Failed, live.(rows := off, lines := Without(live.lines, place, None)), log)
    else Outcome(Ok, Removed(k, live, place), log + [Delete(k)])
  }

  /** `_remove`. */
  function RemoveOutcome(k: Key, live: Live, luck: Luck): Outcome {
    if !Exposed(k, live) || !luck.quiet then Outcome(Refused, live, [])
    else TakenOut(k, live, Place(k, live).value, luck)
  }

  // ---------------------------------------------------------------- a run

  /** One item of `_apply_each`. */
  function ItemOutcome(c: Change, models: map<Key, Wanted>, live: Live, luck: Luck): Outcome {
    if c.key.label_ !in live.uuids then Outcome(Refused, live, [])
    else if c.op.Remove? then RemoveOutcome(c.key, live, luck)
    else if c.key !in models then Outcome(Refused, live, [])
    else
      var w := models[c.key];
      if w.key != c.key || w.mountpoint == "/" || !Vet(w.key.name, w.mountpoint) then Outcome(Refused, live, [])
      else InstallOutcome(w, live, luck)
  }

  /** `_apply_each`: stops at the first item refused or failed. */
  function RunOutcome(changes: seq<Change>, models: map<Key, Wanted>, live: Live, lucks: seq<Luck>): Outcome
    requires |lucks| == |changes|
  {
    if changes == [] then Outcome(Ok, live, [])
    else
      var first := ItemOutcome(changes[0], models, live, lucks[0]);
      if !first.result.Ok? then first
      else
        var rest := RunOutcome(changes[1..], models, first.live, lucks[1..]);
        Outcome(rest.result, rest.live, first.log + rest.log)
  }

  // ---------------------------------------------------------------- the action

  class BtrfsSubvolumeAction {
    const uuids: map<string, string>
    const fstab: FstabFile
    var rows: seq<Row>
    var existing: set<Key>
    ghost var log: seq<Command>

    constructor (uuids: map<string, string>, rows: seq<Row>, existing: set<Key>, fstab: FstabFile)
      ensures Now() == Live(uuids, rows, existing, Lines(fstab.text)) && log == [] && this.fstab == fstab
    {
      this.uuids, this.rows, this.existing, this.fstab, log := uuids, rows, existing, fstab, [];
    }

    function Now(): Live
      reads this, fstab
    {
      Live(uuids, rows, existing, Lines(fstab.text))
    }

    /** The action went as the outcome says. */
    twostate predicate Went(r: Result, o: Outcome)
      reads this, fstab
    {
      r == o.result && Now() == o.live && log == old(log) + o.log
    }

    /** `umount`, when it works. */
    method Unmount(at: string)
      modifies this
      ensures existing == old(existing) && rows == Unmounted(old(rows), at) && log == old(log) + [Umount(at)]
    {
      rows := Unmounted(rows, at);
      log := log + [Umount(at)];
    }

    /** The guards both branches of `_install` share. */
    method IsFree(w: Wanted) returns (free: bool)
      ensures free <==> Free(w, Now())
    {
      var parent, rel := Parent(rows, w.key, w.mountpoint);
      free := !IsMount(rows, w.mountpoint) && !MountedBelow(rows, w.mountpoint) && parent.Some?;
    }

    /** The old mount and its lines go, and the new line is written. */
    method Relist(w: Wanted, at: string)
      requires w.key.label_ in uuids && MountedAt(rows, w.key) == Some(at) && at != w.mountpoint
      modifies this, fstab
      ensures existing == old(existing) && rows == Unmounted(old(rows), at) && log == old(log) + [Umount(at)]
      ensures Lines(fstab.text) == Listed(w, old(Now()))
    {
      var line, owner := Line(w, Now()), OwnerOf(w, Now());
      Unmount(at);
      fstab.Drop(at);
      fstab.Set(w.mountpoint, line, owner);
    }

    /** The commands of a move. */
    method MoveMount(w: Wanted, at: string, luck: Luck) returns (r: Result)
      requires w.key.label_ in uuids && MountedAt(rows, w.key) == Some(at) && at != w.mountpoint
      modifies this, fstab
      ensures Went(r, Moved(w, at, old(Now()), luck))
    {
      if !luck.unmounts {
        return Failed;
      }
      Relist(w, at);
      if !luck.mounts {
        return Failed;
      }
      rows := rows + [Row(w.key, w.mountpoint)];
      return Ok;
    }

    /** `_install`, the branch that fills a new or adopted subvolume. */
    method FillAndMount(w: Wanted, luck: Luck) returns (r: Result)
      requires w.key.label_ in uuids && MountedAt(rows, w.key).None?
      modifies this, fstab
      ensures Went(r, FillOutcome(w, old(Now()), luck))
    {
      var free := IsFree(w);
      if !free || !luck.quiet {
        return Refused;
      }
      if !luck.fills {
        // A subvolume this item created is deleted again, or stays behind empty.
        existing := if luck.leaves then existing + {w.key} else existing;
        return Failed;
      }
      existing := existing + {w.key};
      if !luck.clean {
        return Refused;
      }
      if !luck.mounts {
        return Failed;
      }
      var line, owner := Line(w, Now()), OwnerOf(w, Now());
      rows := rows + [Row(w.key, w.mountpoint)];
      fstab.Set(w.mountpoint, line, owner);
      return Ok;
    }

    /** `_install`. */
    method Install(w: Wanted, luck: Luck) returns (r: Result)
      requires w.key.label_ in uuids
      modifies this, fstab
      ensures Went(r, InstallOutcome(w, old(Now()), luck))
    {
      var at := MountedAt(rows, w.key);
      if at == Some(w.mountpoint) {
        fstab.Set(w.mountpoint, Line(w, Now()), OwnerOf(w, Now()));
        return Ok;
      }
      if at.Some? {
        var free := IsFree(w);
        if at == Some("/") || !free || !luck.quiet {
          return Refused;
        }
        r := MoveMount(w, at.value, luck);
      } else {
        r := FillAndMount(w, luck);
      }
    }

    /** The loop of `_remove` over the fstab map. */
    method Locate(k: Key) returns (place: Option<string>)
      ensures place == Place(k, Now())
    {
      place := MountedAt(rows, k);
      if place.None? {
        var mountpoints, named := Mountpoints(Lines(fstab.text)), Parse(Lines(fstab.text));
        for i := 0 to |mountpoints|
          invariant place == LastNamed(mountpoints[..i], named, k.name)
        {
          assert mountpoints[..i + 1][..i] == mountpoints[..i];
          if mountpoints[i] in named && named[mountpoints[i]] == k.name {
            place := Some(mountpoints[i]);
          }
        }
        assert mountpoints[..|mountpoints|] == mountpoints;
      }
    }

    /** The guards of `_remove`. */
    method MayRemove(k: Key) returns (place: Option<string>)
      ensures place.Some? <==> Exposed(k, Now())
      ensures place.Some? ==> place == Place(k, Now())
    {
      place := Locate(k);
      if place.None? || place.value == "/" || !Vet(k.name, place.value) {
        return None;
      }
      var parent, rel := Parent(rows, k, place.value);
      if parent.None? {
        return None;
      }
    }

    /** Takes the subvolume off the tree, if it is mounted. */
    method Detach(k: Key, place: string)
      modifies this
      ensures existing == old(existing) && fstab.text == old(fstab.text)
      ensures rows == OffTree(k, old(Now()), place)
      ensures log == old(log) + Detaching(k, old(Now()), place)
    {
      if MountedAt(rows, k).Some? {
        Unmount(place);
      } else {
        assert log + [] == log;
      }
    }

    /** The end of `_remove`: the line, then the subvolume. */
    method DropAndDelete(k: Key, place: string, luck: Luck) returns (r: Result)
      modifies this, fstab
      ensures rows == old(rows) && Lines(fstab.text) == Without(Lines(old(fstab.text)), place, None)
      ensures r == if luck.deletes then Ok else Failed
      ensures existing == if luck.deletes then old(existing) - {k} else old(existing)
      ensures log == old(log) + if luck.deletes then [Delete(k)] else []
    {
      fstab.Drop(place);
      if !luck.deletes {
        assert log + [] == log;
        return Failed;
      }
      existing := existing - {k};
      log := log + [Delete(k)];
      return Ok;
    }

    /** The commands of a removal. */
    method TakeOut(k: Key, place: string, luck: Luck) returns (r: Result)
      modifies this, fstab
      ensures Went(r, TakenOut(k, old(Now()), place, luck))
    {
      var mounted := MountedAt(rows, k).Some?;
      ghost var log0, cmds := log, Detaching(k, Now(), place);
      if mounted && !luck.unmounts {
        return Failed;
      }
      Detach(k, place);
      if !luck.copies {
        if mounted && luck.remounts {
          rows := rows + [Row(k, place)];
        }
        return Failed;
      }
      r := DropAndDelete(k, place, luck);
      assert log0 + cmds + [Delete(k)] == log0 + (cmds + [Delete(k)]);
    }

    /** `_remove`. */
    method Remove(k: Key, luck: Luck) returns (r: Result)
      modifies this, fstab
      ensures Went(r, RemoveOutcome(k, old(Now()), luck))
    {
      var place := MayRemove(k);
      if place.None? || !luck.quiet {
        return Refused;
      }
      r := TakeOut(k, place.value, luck);
    }

    /** One item of `_apply_each`. */
    method ApplyOne(c: Change, models: map<Key, Wanted>, luck: Luck) returns (r: Result)
      modifies this, fstab
      ensures Went(r, ItemOutcome(c, models, old(Now()), luck))
    {
      if c.key.label_ !in uuids {
        return Refused;
      }
      if c.op == SubvolState.Remove {
        r := Remove(c.key, luck);
        return;
      }
      if c.key !in models {
        return Refused;
      }
      var w := models[c.key];
      if w.key != c.key || w.mountpoint == "/" || !Vet(w.key.name, w.mountpoint) {
        return Refused;
      }
      r := Install(w, luck);
    }

    /** `_apply_each`. */
    method ApplyEach(changes: seq<Change>, models: map<Key, Wanted>, lucks: seq<Luck>) returns (r: Result)
      requires |lucks| == |changes|
      modifies this, fstab
      ensures Went(r, RunOutcome(changes, models, old(Now()), lucks))
    {
      ghost var log0, whole := log, RunOutcome(changes, models, Now(), lucks);
      assert changes[0..] == changes && lucks[0..] == lucks;
      for i := 0 to |changes|
        invariant Continues(changes, models, Now(), lucks, i, log0, log, whole)
      {
        NextItem(changes, models, Now(), lucks, i, log0, log, whole);
        r := ApplyOne(changes[i], models, lucks[i]);
        if !r.Ok? {
          return;
        }
      }
      LastItem(changes, models, Now(), lucks, log0, log, whole);
      return Ok;
    }
  }

  /** The items from `i` on complete what the log holds to the whole run. */
  ghost predicate Continues(changes: seq<Change>, models: map<Key, Wanted>, live: Live, lucks: seq<Luck>, i: nat,
                            start: seq<Command>, log: seq<Command>, whole: Outcome) {
    && |lucks| == |changes| && i <= |changes|
    && var rest := RunOutcome(changes[i..], models, live, lucks[i..]);
       rest.result == whole.result && rest.live == whole.live && log + rest.log == start + whole.log
  }

  lemma RunFirst(changes: seq<Change>, models: map<Key, Wanted>, live: Live, lucks: seq<Luck>, i: nat)
    requires |lucks| == |changes| && i < |changes|
    ensures RunOutcome(changes[i..], models, live, lucks[i..]) ==
      var first := ItemOutcome(changes[i], models, live, lucks[i]);
      if !first.result.Ok? then first
      else
        var rest := RunOutcome(changes[i + 1..], models, first.live, lucks[i + 1..]);
        Outcome(rest.result, rest.live, first.log + rest.log)
  {
    assert changes[i..][1..] == changes[i + 1..] && lucks[i..][1..] == lucks[i + 1..];
  }

  lemma NextItem(changes: seq<Change>, models: map<Key, Wanted>, live: Live, lucks: seq<Luck>, i: nat,
                 start: seq<Command>, log: seq<Command>, whole: Outcome)
    requires i < |changes| && Continues(changes, models, live, lucks, i, start, log, whole)
    ensures var first := ItemOutcome(changes[i], models, live, lucks[i]);
            if first.result.Ok? then Continues(changes, models, first.live, lucks, i + 1, start, log + first.log, whole)
            else first.result == whole.result && first.live == whole.live && log + first.log == start + whole.log
  {
    RunFirst(changes, models, live, lucks, i);
    var first := ItemOutcome(changes[i], models, live, lucks[i]);
    if first.result.Ok? {
      var rest := RunOutcome(changes[i + 1..], models, first.live, lucks[i + 1..]);
      assert log + (first.log + rest.log) == log + first.log + rest.log;
    }
  }

  lemma LastItem(changes: seq<Change>, models: map<Key, Wanted>, live: Live, lucks: seq<Luck>,
                 start: seq<Command>, log: seq<Command>, whole: Outcome)
    requires Continues(changes, models, live, lucks, |changes|, start, log, whole)
    ensures whole.result == Ok && live == whole.live && log == start + whole.log
  {
    assert log + [] == log;
  }
}
