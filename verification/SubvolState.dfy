/** The difference between the declared btrfs subvolumes and the machine. */
module SubvolState {
  import opened Common
  import opened Fstab

  /** `<partition label>:<name>`. */
  datatype Key = Key(label_: string, name: string)

  datatype Wanted = Wanted(key: Key, mountpoint: string, options: seq<string>)

  /** One btrfs mount, oldest first. */
  datatype Row = Row(key: Key, mountpoint: string)

  /** The machine as a plan sees it: the filesystem of every label that is mounted, the mounts, the
      subvolumes there are, and the lines of `/etc/fstab`. */
  datatype Live = Live(uuids: map<string, string>, rows: seq<Row>, existing: set<Key>, lines: seq<string>)

  datatype Reason = AddLine | Move(from: string) | CreateAndFill | Adopt | NoLongerDeclared

  datatype Op = Install | Modify | Remove

  datatype Change = Change(op: Op, key: Key, reason: Reason)

  /** Where the probe says a subvolume is mounted: its last row. */
  function MountedAt(rows: seq<Row>, key: Key): Option<string> {
    if rows == [] then None
    else
      var last := rows[|rows| - 1];
      if last.key == key then Some(last.mountpoint) else MountedAt(rows[..|rows| - 1], key)
  }

  function FstabName(lines: seq<string>, mountpoint: string): Option<string> {
    var m := Parse(lines);
    if mountpoint in m then Some(m[mountpoint]) else None
  }

  /** The declaration is one dasik plans: not the root, on a filesystem that is mounted. */
  predicate Concerned(w: Wanted, live: Live) {
    w.mountpoint != "/" && w.key.label_ in live.uuids
  }

  predicate Settled(w: Wanted, live: Live) {
    MountedAt(live.rows, w.key) == Some(w.mountpoint) && FstabName(live.lines, w.mountpoint) == Some(w.key.name)
  }

  function InstallReason(w: Wanted, live: Live): Reason {
    if w.key in live.existing then Adopt else CreateAndFill
  }

  function PlanFor(w: Wanted, live: Live): seq<Change> {
    if !Concerned(w, live) then []
    else match MountedAt(live.rows, w.key)
      case None => [Change(Install, w.key, InstallReason(w, live))]
      case Some(at) =>
        if at != w.mountpoint then [Change(Modify, w.key, Move(at))]
        else if FstabName(live.lines, w.mountpoint) != Some(w.key.name) then [Change(Install, w.key, AddLine)]
        else []
  }

  function Installs(wanted: seq<Wanted>, live: Live): seq<Change> {
    if wanted == [] then [] else PlanFor(wanted[0], live) + Installs(wanted[1..], live)
  }

  function WantedKeys(wanted: seq<Wanted>): set<Key> {
    set w | w in wanted :: w.key
  }

  /** An owned subvolume the declaration dropped, on a filesystem it still declares. */
  predicate Undeclared(k: Key, wanted: seq<Wanted>, labels: set<string>, live: Live) {
    k !in WantedKeys(wanted) && k.label_ in labels && k.label_ in live.uuids
  }

  predicate Removable(k: Key, wanted: seq<Wanted>, labels: set<string>, live: Live) {
    Undeclared(k, wanted, labels, live) && k in live.existing && MountedAt(live.rows, k) != Some("/")
  }

  function Removes(managed: seq<Key>, wanted: seq<Wanted>, labels: set<string>, live: Live): seq<Change> {
    if managed == [] then []
    else (if Removable(managed[0], wanted, labels, live) then [Change(Remove, managed[0], NoLongerDeclared)] else [])
         + Removes(managed[1..], wanted, labels, live)
  }

  function DiffOf(wanted: seq<Wanted>, live: Live, labels: set<string>, managed: seq<Key>): seq<Change> {
    Installs(wanted, live) + Removes(managed, wanted, labels, live)
  }

  /** The body of the first loop of `diff`. */
  method PlanOne(w: Wanted, live: Live) returns (changes: seq<Change>)
    ensures changes == PlanFor(w, live)
  {
    changes := [];
    if w.mountpoint == "/" || w.key.label_ !in live.uuids {
      return;
    }
    var at := MountedAt(live.rows, w.key);
    if at == Some(w.mountpoint) {
      if FstabName(live.lines, w.mountpoint) != Some(w.key.name) {
        changes := [Change(Install, w.key, AddLine)];
      }
    } else if at.Some? {
      changes := [Change(Modify, w.key, Move(at.value))];
    } else {
      changes := [Change(Install, w.key, InstallReason(w, live))];
    }
  }

  lemma InstallsStep(wanted: seq<Wanted>, i: nat, live: Live, done: seq<Change>)
    requires i < |wanted|
    ensures done + Installs(wanted[i..], live) == done + PlanFor(wanted[i], live) + Installs(wanted[i + 1..], live)
  {
    assert wanted[i..][1..] == wanted[i + 1..];
    var one, rest := PlanFor(wanted[i], live), Installs(wanted[i + 1..], live);
    assert done + (one + rest) == done + one + rest;
  }

  /** The first loop of `diff`. */
  method DiffWanted(wanted: seq<Wanted>, live: Live) returns (changes: seq<Change>)
    ensures changes == Installs(wanted, live)
  {
    changes := [];
    for i := 0 to |wanted|
      invariant changes + Installs(wanted[i..], live) == Installs(wanted, live)
    {
      var one := PlanOne(wanted[i], live);
      InstallsStep(wanted, i, live, changes);
      changes := changes + one;
    }
  }

  lemma RemovesStep(managed: seq<Key>, i: nat, wanted: seq<Wanted>, labels: set<string>, live: Live, done: seq<Change>,
                    one: seq<Change>)
    requires i < |managed|
    requires one == if Removable(managed[i], wanted, labels, live) then [Change(Remove, managed[i], NoLongerDeclared)] else []
    ensures done + Removes(managed[i..], wanted, labels, live) == done + one + Removes(managed[i + 1..], wanted, labels, live)
  {
    assert managed[i..][1..] == managed[i + 1..];
    var rest := Removes(managed[i + 1..], wanted, labels, live);
    assert done + (one + rest) == done + one + rest;
  }

  /** The body of the second loop of `diff`. */
  method RemoveOne(k: Key, wanted: seq<Wanted>, labels: set<string>, live: Live) returns (one: seq<Change>)
    ensures one == if Removable(k, wanted, labels, live) then [Change(Remove, k, NoLongerDeclared)] else []
  {
    one := [];
    if k in WantedKeys(wanted) || k.label_ !in labels || k.label_ !in live.uuids {
      return;
    }
    if k in live.existing && MountedAt(live.rows, k) != Some("/") {
      one := [Change(Remove, k, NoLongerDeclared)];
    }
  }

  /** The second loop of `diff`. */
  method DiffManaged(managed: seq<Key>, wanted: seq<Wanted>, labels: set<string>, live: Live) returns (changes: seq<Change>)
    ensures changes == Removes(managed, wanted, labels, live)
  {
    changes := [];
    for i := 0 to |managed|
      invariant changes + Removes(managed[i..], wanted, labels, live) == Removes(managed, wanted, labels, live)
    {
      var one := RemoveOne(managed[i], wanted, labels, live);
      RemovesStep(managed, i, wanted, labels, live, changes, one);
      changes := changes + one;
    }
  }

  /** `diff`. */
  method Diff(wanted: seq<Wanted>, live: Live, labels: set<string>, managed: seq<Key>) returns (changes: seq<Change>)
    ensures changes == DiffOf(wanted, live, labels, managed)
  {
    var installs := DiffWanted(wanted, live);
    var removes := DiffManaged(managed, wanted, labels, live);
    changes := installs + removes;
  }

  // ---------------------------------------------------------------- what is in a plan

  lemma {:induction false} InInstalls(wanted: seq<Wanted>, live: Live, c: Change)
    ensures c in Installs(wanted, live) <==> exists w :: w in wanted && c in PlanFor(w, live)
  {
    if wanted != [] {
      InInstalls(wanted[1..], live, c);
      assert c in Installs(wanted, live) <==> c in PlanFor(wanted[0], live) || c in Installs(wanted[1..], live);
      assert forall w :: w in wanted <==> w == wanted[0] || w in wanted[1..];
    }
  }

  lemma {:induction false} InRemoves(managed: seq<Key>, wanted: seq<Wanted>, labels: set<string>, live: Live, c: Change)
    ensures c in Removes(managed, wanted, labels, live) <==>
      c.op == Remove && c.reason == NoLongerDeclared && c.key in managed && Removable(c.key, wanted, labels, live)
  {
    if managed != [] {
      InRemoves(managed[1..], wanted, labels, live, c);
      assert c.key in managed <==> c.key == managed[0] || c.key in managed[1..];
    }
  }

  /** Nothing is left to do. */
  predicate Converged(wanted: seq<Wanted>, live: Live, labels: set<string>, managed: seq<Key>) {
    && (forall w :: w in wanted && Concerned(w, live) ==> Settled(w, live))
    && (forall k :: k in managed ==> !Removable(k, wanted, labels, live))
  }

  lemma PlanForSettled(w: Wanted, live: Live)
    ensures PlanFor(w, live) == [] <==> (Concerned(w, live) ==> Settled(w, live))
    ensures forall c :: c in PlanFor(w, live) ==> c.key == w.key && c.op != Remove
  {
  }

  /** A plan is empty exactly when every declared subvolume is mounted where it is declared and
      named there by fstab, and nothing owned and dropped is left. */
  lemma EmptyIffConverged(wanted: seq<Wanted>, live: Live, labels: set<string>, managed: seq<Key>)
    ensures DiffOf(wanted, live, labels, managed) == [] <==> Converged(wanted, live, labels, managed)
  {
    InstallsEmptyIff(wanted, live);
    RemovesEmptyIff(managed, wanted, labels, live);
  }

  lemma {:induction false} InstallsEmptyIff(wanted: seq<Wanted>, live: Live)
    ensures Installs(wanted, live) == [] <==> forall w :: w in wanted && Concerned(w, live) ==> Settled(w, live)
  {
    if wanted != [] {
      PlanForSettled(wanted[0], live);
      InstallsEmptyIff(wanted[1..], live);
      assert forall w :: w in wanted <==> w == wanted[0] || w in wanted[1..];
    }
  }

  lemma {:induction false} RemovesEmptyIff(managed: seq<Key>, wanted: seq<Wanted>, labels: set<string>, live: Live)
    ensures Removes(managed, wanted, labels, live) == [] <==> forall k :: k in managed ==> !Removable(k, wanted, labels, live)
  {
    if managed != [] {
      RemovesEmptyIff(managed[1..], wanted, labels, live);
      assert forall k :: k in managed <==> k == managed[0] || k in managed[1..];
    }
  }

  // ---------------------------------------------------------------- mounts

  /** No subvolume is mounted twice and no two at one place. */
  predicate Tidy(rows: seq<Row>) {
    forall i, j :: 0 <= i < j < |rows| ==> rows[i].key != rows[j].key && rows[i].mountpoint != rows[j].mountpoint
  }

  predicate IsMount(rows: seq<Row>, mountpoint: string) {
    exists i :: 0 <= i < |rows| && rows[i].mountpoint == mountpoint
  }

  /** `umount`: takes the topmost mount of the path. */
  function Unmounted(rows: seq<Row>, mountpoint: string): (r: seq<Row>)
    ensures |r| <= |rows|
  {
    if rows == [] then []
    else
      var front, last := rows[..|rows| - 1], rows[|rows| - 1];
      if last.mountpoint == mountpoint then front else Unmounted(front, mountpoint) + [last]
  }

  lemma {:induction false} MountedRow(rows: seq<Row>, key: Key) returns (i: nat)
    requires MountedAt(rows, key).Some?
    ensures i < |rows| && rows[i] == Row(key, MountedAt(rows, key).value)
  {
    if rows[|rows| - 1].key == key {
      i := |rows| - 1;
    } else {
      i := MountedRow(rows[..|rows| - 1], key);
    }
  }

  lemma OnePlaceOneKey(rows: seq<Row>, a: Key, b: Key)
    requires Tidy(rows) && MountedAt(rows, a).Some? && MountedAt(rows, a) == MountedAt(rows, b)
    ensures a == b
  {
    var i := MountedRow(rows, a);
    var j := MountedRow(rows, b);
  }

  lemma MountedAppend(rows: seq<Row>, row: Row, key: Key)
    ensures MountedAt(rows + [row], key) == if key == row.key then Some(row.mountpoint) else MountedAt(rows, key)
  {
    assert (rows + [row])[..|rows|] == rows;
  }

  /** Unmounting a path other than the one a subvolume shows leaves that subvolume's mount. */
  lemma {:induction false} UnmountElsewhere(rows: seq<Row>, mountpoint: string, key: Key)
    requires MountedAt(rows, key).Some? && MountedAt(rows, key).value != mountpoint
    ensures MountedAt(Unmounted(rows, mountpoint), key) == MountedAt(rows, key)
  {
    var front, last := rows[..|rows| - 1], rows[|rows| - 1];
    if last.key != key && last.mountpoint != mountpoint {
      UnmountElsewhere(front, mountpoint, key);
    }
    if last.mountpoint != mountpoint {
      MountedAppend(Unmounted(front, mountpoint), last, key);
    }
  }

  lemma {:induction false} NotMounted(rows: seq<Row>, key: Key)
    ensures MountedAt(rows, key).None? <==> forall r :: r in rows ==> r.key != key
  {
    if rows != [] {
      var front, last := rows[..|rows| - 1], rows[|rows| - 1];
      NotMounted(front, key);
      assert rows == front + [last];
    }
  }

  lemma TidySnoc(rows: seq<Row>, row: Row)
    ensures Tidy(rows + [row]) <==>
      Tidy(rows) && forall r :: r in rows ==> r.key != row.key && r.mountpoint != row.mountpoint
  {
    var all := rows + [row];
    assert forall i :: 0 <= i < |rows| ==> all[i] == rows[i];
    if Tidy(all) {
      forall r | r in rows
        ensures r.key != row.key && r.mountpoint != row.mountpoint
      {
        var i :| 0 <= i < |rows| && rows[i] == r;
        assert all[i] == r && all[|rows|] == row;
      }
    }
    if Tidy(rows) && forall r :: r in rows ==> r.key != row.key && r.mountpoint != row.mountpoint {
      forall i, j | 0 <= i < j < |all|
        ensures all[i].key != all[j].key && all[i].mountpoint != all[j].mountpoint
      {
        assert all[i] in rows;
      }
    }
  }

  lemma {:induction false} UnmountTidy(rows: seq<Row>, mountpoint: string)
    requires Tidy(rows)
    ensures Tidy(Unmounted(rows, mountpoint))
    ensures forall r :: r in Unmounted(rows, mountpoint) ==> r in rows && r.mountpoint != mountpoint
  {
    if rows != [] {
      var front, last := rows[..|rows| - 1], rows[|rows| - 1];
      assert rows == front + [last];
      TidySnoc(front, last);
      UnmountTidy(front, mountpoint);
      TidySnoc(Unmounted(front, mountpoint), last);
    }
  }

  /** On tidy mounts, unmounting where a subvolume is mounted unmounts it and nothing else. */
  lemma UnmountKey(rows: seq<Row>, key: Key, other: Key)
    requires Tidy(rows) && MountedAt(rows, key).Some?
    ensures var r := Unmounted(rows, MountedAt(rows, key).value);
            MountedAt(r, other) == if other == key then None else MountedAt(rows, other)
  {
    var at := MountedAt(rows, key).value;
    var r := Unmounted(rows, at);
    UnmountTidy(rows, at);
    if other == key {
      NotMounted(r, key);
      forall x | x in r
        ensures x.key != key
      {
        var i := MountedRow(rows, key);
        var j :| 0 <= j < |rows| && rows[j] == x;
      }
    } else if MountedAt(rows, other).Some? {
      if MountedAt(rows, other).value == at {
        OnePlaceOneKey(rows, key, other);
      }
      UnmountElsewhere(rows, at, other);
    } else {
      NotMounted(rows, other);
      NotMounted(r, other);
    }
  }

  // ---------------------------------------------------------------- the root

  /** A row of the subvolume with no later row of it. */
  predicate IsLastRow(rows: seq<Row>, key: Key, mountpoint: string, i: nat) {
    i < |rows| && rows[i] == Row(key, mountpoint) && forall j :: i < j < |rows| ==> rows[j].key != key
  }

  /** The root is recognised exactly when no later row of its subvolume follows the one at `/`. */
  lemma {:induction false} RootShownIff(rows: seq<Row>, key: Key)
    ensures MountedAt(rows, key) == Some("/") <==> exists i :: IsLastRow(rows, key, "/", i)
  {
    if rows != [] {
      var front, last := rows[..|rows| - 1], rows[|rows| - 1];
      if last.key == key {
        assert last.mountpoint == "/" ==> IsLastRow(rows, key, "/", |rows| - 1);
        forall i: nat | IsLastRow(rows, key, "/", i)
          ensures i == |rows| - 1
        {
        }
      } else {
        RootShownIff(front, key);
        if exists i :: IsLastRow(front, key, "/", i) {
          var i :| IsLastRow(front, key, "/", i);
          assert IsLastRow(rows, key, "/", i);
        }
        if exists i :: IsLastRow(rows, key, "/", i) {
          var i :| IsLastRow(rows, key, "/", i);
          assert IsLastRow(front, key, "/", i);
        }
      }
    }
  }
}
