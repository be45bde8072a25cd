/** What the subvolume plan holds and when its items are carried out, in the machine's own terms. */
module SubvolMeaning {
  import opened Common
  import opened Text
  import opened Fstab
  import opened SubvolState
  import opened SubvolProbe
  import opened SubvolParent
  import opened SubvolApply

  // ---------------------------------------------------------------- what is in a plan

  /** Declared there, not at `/`, on a filesystem that is mounted. */
  predicate DeclaredAt(wanted: seq<Wanted>, live: Live, key: Key, mountpoint: string) {
    mountpoint != "/" && key.label_ in live.uuids && exists w :: w in wanted && w.key == key && w.mountpoint == mountpoint
  }

  lemma PlannedBy(wanted: seq<Wanted>, live: Live, managed: seq<Key>, labels: set<string>, c: Change)
    ensures c in DiffOf(wanted, live, labels, managed) && !c.op.Remove? <==> exists w :: w in wanted && c in PlanFor(w, live)
  {
    InInstalls(wanted, live, c);
    InRemoves(managed, wanted, labels, live, c);
    forall w | w in wanted && c in PlanFor(w, live)
      ensures !c.op.Remove?
    {
      PlanForSettled(w, live);
    }
  }

  lemma DeclaredPlaces(wanted: seq<Wanted>, live: Live, key: Key)
    ensures forall w :: w in wanted && w.key == key && Concerned(w, live) ==> DeclaredAt(wanted, live, key, w.mountpoint)
  {
  }

  /** A move is planned exactly for a declaration whose subvolume is mounted elsewhere. */
  lemma MovePlannedIff(wanted: seq<Wanted>, live: Live, managed: seq<Key>, labels: set<string>, key: Key, from: string)
    ensures Change(Modify, key, Move(from)) in DiffOf(wanted, live, labels, managed) <==>
      MountedAt(live.rows, key) == Some(from) && exists mp :: DeclaredAt(wanted, live, key, mp) && mp != from
  {
    var c := Change(Modify, key, Move(from));
    PlannedBy(wanted, live, managed, labels, c);
    forall w | w in wanted
      ensures c in PlanFor(w, live) <==>
        w.key == key && Concerned(w, live) && MountedAt(live.rows, key) == Some(from) && w.mountpoint != from
    {
    }
    DeclaredPlaces(wanted, live, key);
    if mp :| DeclaredAt(wanted, live, key, mp) && mp != from {
      var w :| w in wanted && w.key == key && w.mountpoint == mp;
    }
  }

  /** A line is added exactly for a declaration that is mounted in its place and that fstab does not name
      there. */
  lemma LinePlannedIff(wanted: seq<Wanted>, live: Live, managed: seq<Key>, labels: set<string>, key: Key)
    ensures Change(Install, key, AddLine) in DiffOf(wanted, live, labels, managed) <==>
      exists mp :: DeclaredAt(wanted, live, key, mp) && MountedAt(live.rows, key) == Some(mp) && FstabName(live.lines, mp) != Some(key.name)
  {
    var c := Change(Install, key, AddLine);
    PlannedBy(wanted, live, managed, labels, c);
    forall w | w in wanted
      ensures c in PlanFor(w, live) <==>
        && w.key == key && Concerned(w, live) && MountedAt(live.rows, key) == Some(w.mountpoint)
        && FstabName(live.lines, w.mountpoint) != Some(key.name)
    {
    }
  }

  /** A subvolume is created exactly for a declaration that is not mounted and does not exist, and adopted
      exactly for one that is not mounted and does. */
  lemma FillPlannedIff(wanted: seq<Wanted>, live: Live, managed: seq<Key>, labels: set<string>, key: Key, reason: Reason)
    requires reason == CreateAndFill || reason == Adopt
    ensures Change(Install, key, reason) in DiffOf(wanted, live, labels, managed) <==>
      MountedAt(live.rows, key).None? && (reason == Adopt <==> key in live.existing) && exists mp :: DeclaredAt(wanted, live, key, mp)
  {
    var c := Change(Install, key, reason);
    PlannedBy(wanted, live, managed, labels, c);
    forall w | w in wanted
      ensures c in PlanFor(w, live) <==>
        w.key == key && Concerned(w, live) && MountedAt(live.rows, key).None? && (reason == Adopt <==> key in live.existing)
    {
    }
    DeclaredPlaces(wanted, live, key);
    if mp :| DeclaredAt(wanted, live, key, mp) {
      var w :| w in wanted && w.key == key && w.mountpoint == mp;
    }
  }

  /** A removal is planned exactly for an owned, existing subvolume that is no longer declared, on a
      partition that still declares some, and that is not seen at `/`. */
  lemma RemovalPlannedIff(wanted: seq<Wanted>, live: Live, managed: seq<Key>, labels: set<string>, key: Key)
    ensures Change(Remove, key, NoLongerDeclared) in DiffOf(wanted, live, labels, managed) <==>
      && key in managed && key in live.existing && key.label_ in labels && key.label_ in live.uuids
      && (forall w :: w in wanted ==> w.key != key) && MountedAt(live.rows, key) != Some("/")
  {
    var c := Change(Remove, key, NoLongerDeclared);
    InRemoves(managed, wanted, labels, live, c);
    InInstalls(wanted, live, c);
    forall w | w in wanted && c in PlanFor(w, live)
      ensures false
    {
      PlanForSettled(w, live);
    }
  }

  lemma {:induction false} DeclaredBy(wanted: seq<Wanted>, live: Live, i: nat) returns (w: nat)
    requires i < |Installs(wanted, live)|
    ensures w < |wanted| && wanted[w].key == Installs(wanted, live)[i].key && Installs(wanted, live)[i] in PlanFor(wanted[w], live)
  {
    var first := PlanFor(wanted[0], live);
    PlanForSettled(wanted[0], live);
    if i < |first| {
      w := 0;
    } else {
      assert Installs(wanted, live)[i] == Installs(wanted[1..], live)[i - |first|];
      w := DeclaredBy(wanted[1..], live, i - |first|);
      w := w + 1;
    }
  }

  /** Two installs of a plan stand in the order of their declarations. */
  lemma {:induction false} InstallsInOrder(wanted: seq<Wanted>, live: Live, i: nat, j: nat) returns (v: nat, w: nat)
    requires i < j < |Installs(wanted, live)|
    ensures v < w < |wanted| && wanted[v].key == Installs(wanted, live)[i].key && wanted[w].key == Installs(wanted, live)[j].key
  {
    var all, rest := Installs(wanted, live), Installs(wanted[1..], live);
    var first := PlanFor(wanted[0], live);
    PlanForSettled(wanted[0], live);
    assert |first| <= 1 && all[j] == rest[j - |first|];
    if i < |first| {
      w := DeclaredBy(wanted[1..], live, j - |first|);
      v, w := 0, w + 1;
    } else {
      assert all[i] == rest[i - |first|];
      v, w := InstallsInOrder(wanted[1..], live, i - |first|, j - |first|);
      v, w := v + 1, w + 1;
    }
  }

  lemma {:induction false} OwnedBy(managed: seq<Key>, wanted: seq<Wanted>, labels: set<string>, live: Live, i: nat) returns (w: nat)
    requires i < |Removes(managed, wanted, labels, live)|
    ensures w < |managed| && Removes(managed, wanted, labels, live)[i] == Change(Remove, managed[w], NoLongerDeclared)
  {
    var rest := Removes(managed[1..], wanted, labels, live);
    if Removable(managed[0], wanted, labels, live) {
      if i == 0 {
        w := 0;
      } else {
        w := OwnedBy(managed[1..], wanted, labels, live, i - 1);
        w := w + 1;
      }
    } else {
      assert Removes(managed, wanted, labels, live) == rest;
      w := OwnedBy(managed[1..], wanted, labels, live, i);
      w := w + 1;
    }
  }

  /** Every removal of a plan stands behind every install and move. */
  lemma RemovalsLast(wanted: seq<Wanted>, live: Live, labels: set<string>, managed: seq<Key>, i: nat, j: nat)
    requires i < j < |DiffOf(wanted, live, labels, managed)|
    requires DiffOf(wanted, live, labels, managed)[i].op.Remove?
    ensures DiffOf(wanted, live, labels, managed)[j].op.Remove?
  {
    var installs := Installs(wanted, live);
    if i < |installs| {
      var w := DeclaredBy(wanted, live, i);
      PlanForSettled(wanted[w], live);
    } else {
      var w := OwnedBy(managed, wanted, labels, live, j - |installs|);
    }
  }

  // ---------------------------------------------------------------- when an item is carried out

  /** Nothing is mounted there or below, and another mounted subvolume of the filesystem contains it. */
  lemma FreeIff(w: Wanted, live: Live)
    requires Normal(w.mountpoint) && w.mountpoint != "/"
    ensures Free(w, live) <==>
      && (forall r :: r in live.rows ==> r.mountpoint != w.mountpoint && !(w.mountpoint + "/" <= r.mountpoint))
      && exists r :: r in live.rows && r.key.label_ == w.key.label_ && r.key != w.key
                     && MountedAt(live.rows, r.key) == Some(r.mountpoint) && Contains(r, w.key, w.mountpoint)
  {
    BelowNormal(w.mountpoint);
    forall r | r in live.rows
      ensures r.mountpoint == w.mountpoint ==> IsMount(live.rows, w.mountpoint)
    {
      var i :| 0 <= i < |live.rows| && live.rows[i] == r;
    }
    if HasParent(live.rows, w.key, w.mountpoint) {
      var r :| r in live.rows && Offers(live.rows, r, w.key, w.mountpoint);
    }
    if r :| r in live.rows && r.key.label_ == w.key.label_ && MountedAt(live.rows, r.key) == Some(r.mountpoint) && Contains(r, w.key, w.mountpoint) {
      assert Offers(live.rows, r, w.key, w.mountpoint);
    }
  }

  /** A declaration is carried out exactly when: it is mounted in its place already; or it is mounted
      elsewhere, not at `/`, the new place is free, the machine's guards pass, and both commands work; or it
      is not mounted, the place is free, the guards pass, the contents move, nothing appears at the path
      meanwhile, and the mount works. It then leaves the declared mount and line. */
  lemma InstalledIff(w: Wanted, live: Live, luck: Luck)
    requires w.key.label_ in live.uuids
    ensures var at := MountedAt(live.rows, w.key);
            InstallOutcome(w, live, luck).result.Ok? <==>
              || at == Some(w.mountpoint)
              || (at.Some? && at.value != "/" && Free(w, live) && luck.quiet && luck.unmounts && luck.mounts)
              || (at.None? && Free(w, live) && luck.quiet && luck.fills && luck.clean && luck.mounts)
    ensures InstallOutcome(w, live, luck).result.Ok? ==> InstallOutcome(w, live, luck).live == Installed(w, live)
  {
  }

  /** A removal is carried out exactly when the guards that can be checked pass, those of the machine do,
      and every command works. It then leaves the machine without the mount, the lines of its place and
      the subvolume. */
  lemma RemovedIff(k: Key, live: Live, luck: Luck)
    ensures RemoveOutcome(k, live, luck).result.Ok? <==>
      && Exposed(k, live) && luck.quiet && luck.copies && luck.deletes
      && (MountedAt(live.rows, k).Some? ==> luck.unmounts)
    ensures RemoveOutcome(k, live, luck).result.Ok? ==> RemoveOutcome(k, live, luck).live == Removed(k, live, Place(k, live).value)
  {
  }

  /** What is refused before anything was done changes nothing: an unknown or unvetted item, a place that
      is not free, a guard of the machine. Only files that appear while a new subvolume is filled are
      refused later, and leave it filled and unmounted. */
  lemma RefusedChangesNothing(c: Change, models: map<Key, Wanted>, live: Live, luck: Luck)
    ensures var o := ItemOutcome(c, models, live, luck);
            o.result.Refused? ==>
              o.log == [] && (o.live == live || (!luck.clean && o.live == live.(existing := live.existing + {c.key})))
  {
  }

  /** The guards the machine answers hold back every item but a missing line. */
  lemma GuardsHold(c: Change, models: map<Key, Wanted>, live: Live, luck: Luck)
    requires !luck.quiet && (c.op.Remove? || (c.key in models ==> MountedAt(live.rows, c.key) != Some(models[c.key].mountpoint)))
    ensures ItemOutcome(c, models, live, luck) == Outcome(Refused, live, [])
  {
  }

  /** A move that fails is either not begun, or has taken the old mount and its lines away and written the
      new line, so that the next boot mounts the subvolume in its place. */
  lemma FailedMove(w: Wanted, at: string, live: Live, luck: Luck)
    requires w.key.label_ in live.uuids && MountedAt(live.rows, w.key) == Some(at)
    requires InstallOutcome(w, live, luck).result.Failed?
    ensures var now := InstallOutcome(w, live, luck).live;
            if luck.unmounts then now == live.(rows := Unmounted(live.rows, at), lines := Listed(w, live)) else now == live
  {
  }

  /** A fill that fails leaves mounts and lines alone; the subvolume exists if its contents arrived or it
      could not be taken back. */
  lemma FailedFill(w: Wanted, live: Live, luck: Luck)
    requires w.key.label_ in live.uuids && MountedAt(live.rows, w.key).None?
    requires InstallOutcome(w, live, luck).result.Failed?
    ensures var now := InstallOutcome(w, live, luck).live;
            now == live.(existing := if luck.fills || luck.leaves then live.existing + {w.key} else live.existing)
  {
  }

  /** A removal that fails deletes nothing. The line of the place goes only once the contents were copied
      back, and the mount only if it was unmounted and not mounted again. */
  lemma FailedRemoval(k: Key, live: Live, luck: Luck)
    requires RemoveOutcome(k, live, luck).result.Failed?
    ensures var now, place := RemoveOutcome(k, live, luck).live, Place(k, live).value;
            var mounted := MountedAt(live.rows, k).Some?;
            var off := mounted && luck.unmounts;
            && now.existing == live.existing
            && now.lines == (if luck.copies && (mounted ==> off) then Without(live.lines, place, None) else live.lines)
            && now.rows == (if !off then live.rows
                            else if luck.copies || !luck.remounts then Unmounted(live.rows, place)
                            else Unmounted(live.rows, place) + [Row(k, place)])
  {
  }

  // ---------------------------------------------------------------- what is vetted

  /** A character no name and no mountpoint may hold. */
  predicate Unsafe(c: char) {
    c <= ' ' || c == ',' || c == '\U{7F}'
  }

  /** A name is accepted exactly when it is a plain one: not empty, not `.` or `..`, without a slash or an
      unsafe character. */
  predicate PlainName(name: string) {
    name != "" && name != "." && name != ".." && '/' !in name && forall c :: c in name ==> !Unsafe(c)
  }

  /** The path of these components. */
  function PathOf(parts: seq<string>): string {
    "/" + Join(parts, "/")
  }

  /** A component that leads nowhere else. */
  predicate Straight(part: string) {
    part != "" && part != "." && part != ".." && forall c :: c in part ==> !Unsafe(c)
  }

  lemma SafeIsPrintable(s: string)
    ensures Printable(s) && IsWord(s) && ',' !in s <==> s != "" && forall c :: c in s ==> !Unsafe(c)
  {
    if Printable(s) && IsWord(s) && ',' !in s {
      forall c | c in s
        ensures !Unsafe(c)
      {
        var i :| 0 <= i < |s| && s[i] == c;
      }
    }
    if forall c :: c in s ==> !Unsafe(c) {
      forall i | 0 <= i < |s|
        ensures !IsSpace(s[i])
      {
        assert s[i] in s;
        Spaces(s[i]);
      }
    }
  }

  lemma {:induction false} InPath(parts: seq<string>, c: char)
    ensures c in Join(parts, "/") <==> (c == '/' && |parts| > 1) || exists p :: p in parts && c in p
  {
    if |parts| > 1 {
      InPath(parts[1..], c);
      assert forall p :: p in parts <==> p == parts[0] || p in parts[1..];
    }
  }

  /** A declaration is accepted exactly when its name is plain and its mountpoint is the root or a path of
      straight components. */
  lemma VetIff(name: string, parts: seq<string>)
    requires parts != [] && parts[0] != "" && forall i :: 0 <= i < |parts| ==> '/' !in parts[i]
    ensures Vet(name, PathOf(parts)) <==> PlainName(name) && forall p :: p in parts ==> Straight(p)
    ensures Vet(name, "/") <==> PlainName(name)
  {
    var path := PathOf(parts);
    SafeIsPrintable(name);
    SafeIsPrintable(path);
    SafeIsPrintable("/");
    SplitOfJoin(parts, '/');
    assert path[1..] == Join(parts, "/");
    FirstOfJoin(parts);
    SafePath(parts);
  }

  lemma FirstOfJoin(parts: seq<string>)
    requires parts != [] && parts[0] != "" && '/' !in parts[0]
    ensures Join(parts, "/") != "" && Join(parts, "/")[0] == parts[0][0] && Join(parts, "/")[0] != '/'
  {
    assert parts[0][0] in parts[0];
  }

  lemma SafePath(parts: seq<string>)
    ensures (forall c :: c in PathOf(parts) ==> !Unsafe(c)) <==> forall p, c :: p in parts && c in p ==> !Unsafe(c)
  {
    forall c
      ensures c in PathOf(parts) <==> c == '/' || exists p :: p in parts && c in p
    {
      InPath(parts, c);
    }
  }

  // ---------------------------------------------------------------- the second pass of the probe

  /** A partition whose subvolumes are all mounted, but none in its place, is found by their names: when
      no mount looks declared, and one filesystem alone mounts them all. */
  lemma FoundByNames(wanted: seq<Wanted>, rows: seq<Row>, label_: string, fs: string)
    requires forall r, l :: r in rows && l in Labels(wanted) ==> !DeclaredThere(wanted, l, r)
    requires forall w :: w in wanted && w.key.label_ == label_ ==> exists r :: r in rows && r.key == Key(fs, w.key.name)
    requires forall r :: r in rows && r.key.label_ != fs ==>
      exists w :: w in wanted && w.key.label_ == label_ && forall q :: q in rows ==> q.key != Key(r.key.label_, w.key.name)
    requires label_ in Labels(wanted)
    ensures Finds(wanted, rows, label_, fs)
  {
    assert First(wanted, rows, label_) == {};
    assert Claimed(wanted, rows) == {};
    var w :| w in wanted && w.key.label_ == label_;
    var r :| r in rows && r.key == Key(fs, w.key.name);
    assert AllThere(wanted, rows, label_, fs) by {
      forall v | v in wanted && v.key.label_ == label_
        ensures Mounts(rows, Key(fs, v.key.name))
      {
      }
    }
    forall q | q in rows && q.key.label_ != fs
      ensures !AllThere(wanted, rows, label_, q.key.label_)
    {
      var v :| v in wanted && v.key.label_ == label_ && forall x :: x in rows ==> x.key != Key(q.key.label_, v.key.name);
      assert !Mounts(rows, Key(q.key.label_, v.key.name));
    }
  }
}
