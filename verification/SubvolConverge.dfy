/** The subvolume plan converges: when every item of it is carried out, the next plan is empty. */
module SubvolConverge {
  import opened Common
  import opened Text
  import opened Fstab
  import opened SubvolState
  import opened SubvolParent
  import opened SubvolApply

  // ---------------------------------------------------------------- what a caller can check

  /** Configured mount options stay in their fstab column and leave `subvol=` to dasik. */
  predicate PlainOptions(options: seq<string>) {
    forall o :: o in options ==> Vetted(o) && !(SUBVOL <= o)
  }

  /** Vetted declarations, one per subvolume and one per mountpoint. */
  predicate Declarable(wanted: seq<Wanted>) {
    && (forall a :: a in wanted ==> Vet(a.key.name, a.mountpoint) && PlainOptions(a.options))
    && (forall i, j :: 0 <= i < j < |wanted| ==> wanted[i].key != wanted[j].key && wanted[i].mountpoint != wanted[j].mountpoint)
  }

  /** Declared, and not at `/`. */
  predicate Planned(a: Wanted, wanted: seq<Wanted>) {
    a in wanted && a.mountpoint != "/"
  }

  /** Owned, no longer declared, on a partition that still is. */
  predicate Orphan(k: Key, wanted: seq<Wanted>, managed: seq<Key>, labels: set<string>) {
    k in managed && k !in WantedKeys(wanted) && k.label_ in labels
  }

  /** No two declared subvolumes, on whatever filesystems, share a name, and none shares it with an
      owned one that is no longer declared. */
  predicate NamesApart(wanted: seq<Wanted>, managed: seq<Key>, labels: set<string>) {
    && (forall a, b :: a in wanted && b in wanted && Planned(a, wanted) && Planned(b, wanted) && a.key.name == b.key.name ==> a == b)
    && (forall a, k :: a in wanted && k in managed && Planned(a, wanted) && Orphan(k, wanted, managed, labels) ==> a.key.name != k.name)
  }

  /** Mounts and fstab lines nothing is ambiguous about. */
  ghost predicate Regular(live: Live) {
    && Tidy(live.rows)
    && (forall l :: l in live.lines ==> NamesOne(l) && '\n' !in l)
    && (forall u :: u in live.uuids.Values ==> IsWord(u))
  }

  /** The declarations by key. */
  predicate ModelsOf(models: map<Key, Wanted>, wanted: seq<Wanted>) {
    forall k :: k in models ==> models[k] in wanted && models[k].key == k
  }

  // ---------------------------------------------------------------- one install

  lemma LineNamesOne(owner: Owner, mountpoint: string, options: seq<string>)
    requires Vet(owner.name, mountpoint) && PlainOptions(options) && IsWord(owner.uuid)
    ensures NamesOne(LineOf(owner, mountpoint, options)) && '\n' !in LineOf(owner, mountpoint, options)
  {
    var all := options + [SUBVOL + owner.name];
    LineReadsBack(owner, mountpoint, options);
    SubvolOptionAppend(options, SUBVOL + owner.name);
    assert owner.name[0] != '/';
    assert SubvolOption([SUBVOL + owner.name]) == owner.name;
    forall n | '/' !in n && NamesSubvol(all, n)
      ensures n == owner.name
    {
      OnlyOwnName(options, owner.name, n);
    }
    LineUnbroken(owner, mountpoint, options);
  }

  lemma OnlyOwnName(options: seq<string>, name: string, n: string)
    requires PlainOptions(options) && NamesSubvol(options + [SUBVOL + name], n) && name != "" && name[0] != '/'
    ensures n == name
  {
    var a, b := SUBVOL + n, SUBVOL + "/" + n;
    var own := SUBVOL + name;
    assert SUBVOL <= a && SUBVOL <= b;
    assert a[|SUBVOL|..] == n && own[|SUBVOL|..] == name;
    assert b[|SUBVOL|] == '/' && own[|SUBVOL|] == name[0];
  }

  lemma LineUnbroken(owner: Owner, mountpoint: string, options: seq<string>)
    requires Vetted(owner.name) && IsWord(owner.uuid) && IsWord(mountpoint) && PlainOptions(options)
    ensures '\n' !in LineOf(owner, mountpoint, options)
  {
    var all := options + [SUBVOL + owner.name];
    JoinedIsWord(all);
    var cols := ["UUID=" + owner.uuid, mountpoint, "btrfs", Join(all, ","), "0", "0"];
    JoinUnbroken(cols);
  }

  lemma {:induction false} JoinUnbroken(words: seq<string>)
    requires forall w :: w in words ==> IsWord(w)
    ensures '\n' !in Join(words, " ")
  {
    if |words| > 0 {
      assert words[0] in words;
      assert forall w :: w in words[1..] ==> w in words;
      JoinUnbroken(words[1..]);
    }
  }

  lemma InstallRows(w: Wanted, was: Live, now: Live, other: Key)
    requires Tidy(was.rows) && w.key.label_ in was.uuids && now == Installed(w, was)
    requires MountedAt(was.rows, w.key) == Some(w.mountpoint) || !IsMount(was.rows, w.mountpoint)
    ensures MountedAt(now.rows, other) == if other == w.key then Some(w.mountpoint) else MountedAt(was.rows, other)
    ensures Tidy(now.rows)
  {
    match MountedAt(was.rows, w.key) {
      case Some(at) =>
        if at != w.mountpoint {
          var base := Unmounted(was.rows, at);
          UnmountKey(was.rows, w.key, other);
          UnmountKey(was.rows, w.key, w.key);
          UnmountTidy(was.rows, at);
          MountedAppend(base, Row(w.key, w.mountpoint), other);
          AppendTidy(base, was.rows, Row(w.key, w.mountpoint));
        }
      case None =>
        MountedAppend(was.rows, Row(w.key, w.mountpoint), other);
        AppendTidy(was.rows, was.rows, Row(w.key, w.mountpoint));
    }
  }

  lemma AppendTidy(base: seq<Row>, rows: seq<Row>, row: Row)
    requires Tidy(base) && MountedAt(base, row.key).None? && !IsMount(rows, row.mountpoint)
    requires forall r :: r in base ==> r in rows
    ensures Tidy(base + [row])
  {
    NotMounted(base, row.key);
    forall i | 0 <= i < |base|
      ensures base[i].key != row.key && base[i].mountpoint != row.mountpoint
    {
      assert base[i] in base && base[i] in rows;
      var j :| 0 <= j < |rows| && rows[j] == base[i];
    }
  }

  lemma BaseLines(w: Wanted, was: Live)
    ensures forall l :: l in Base(w, was) ==> l in was.lines
  {
    match MountedAt(was.rows, w.key) {
      case Some(at) => if at != w.mountpoint { WithoutSublist(was.lines, at, None); }
      case None =>
    }
  }

  lemma RewrittenPlain(lines: seq<string>)
    requires forall l :: l in lines ==> '\n' !in l
    ensures Rewritten(lines) == lines
  {
    forall i | 0 <= i < |lines|
      ensures '\n' !in lines[i]
    {
      assert lines[i] in lines;
    }
    LinesOfUnlines(lines);
  }

  lemma InstallLines(w: Wanted, was: Live)
    requires Regular(was) && w.key.label_ in was.uuids
    requires Vet(w.key.name, w.mountpoint) && PlainOptions(w.options)
    ensures Listed(w, was) == WithLine(Base(w, was), w.mountpoint, Line(w, was), OwnerOf(w, was))
    ensures forall l :: l in Listed(w, was) ==> NamesOne(l) && '\n' !in l
  {
    assert was.uuids[w.key.label_] in was.uuids.Values;
    LineNamesOne(OwnerOf(w, was), w.mountpoint, w.options);
    BaseLines(w, was);
    WithoutSublist(Base(w, was), w.mountpoint, Some(OwnerOf(w, was)));
    RewrittenPlain(WithLine(Base(w, was), w.mountpoint, Line(w, was), OwnerOf(w, was)));
  }

  lemma InstallSettles(w: Wanted, was: Live, now: Live)
    requires Regular(was) && w.key.label_ in was.uuids && now == Installed(w, was)
    requires MountedAt(was.rows, w.key) == Some(w.mountpoint) || !IsMount(was.rows, w.mountpoint)
    requires Vet(w.key.name, w.mountpoint) && PlainOptions(w.options)
    ensures Settled(w, now)
  {
    InstallRows(w, was, now, w.key);
    InstallLines(w, was);
    assert was.uuids[w.key.label_] in was.uuids.Values;
    assert !OwnSubvol(w.options);
    SetThenParse(Base(w, was), OwnerOf(w, was), w.mountpoint, w.options);
  }

  /** Installing one subvolume leaves every other settled one settled. */
  lemma InstallKeepsSettled(w: Wanted, was: Live, now: Live, other: Wanted)
    requires Regular(was) && w.key.label_ in was.uuids && now == Installed(w, was)
    requires MountedAt(was.rows, w.key) == Some(w.mountpoint) || !IsMount(was.rows, w.mountpoint)
    requires Vet(w.key.name, w.mountpoint) && PlainOptions(w.options)
    requires other.key.name != w.key.name && other.mountpoint != w.mountpoint && Settled(other, was)
    ensures Settled(other, now)
  {
    InstallRows(w, was, now, other.key);
    match MountedAt(was.rows, w.key) {
      case Some(at) =>
        if at != w.mountpoint {
          if at == other.mountpoint {
            OnePlaceOneKey(was.rows, w.key, other.key);
          }
          OtherMountpointsKept(was.lines, at, None, other.mountpoint);
        }
      case None =>
    }
    BaseLines(w, was);
    InstallLines(w, was);
    assert was.uuids[w.key.label_] in was.uuids.Values;
    OtherMountpointsKept(Base(w, was), w.mountpoint, Some(OwnerOf(w, was)), other.mountpoint);
    AppendElsewhere(Without(Base(w, was), w.mountpoint, Some(OwnerOf(w, was))), w, was, other.mountpoint);
  }

  lemma AppendElsewhere(kept: seq<string>, w: Wanted, was: Live, other: string)
    requires w.key.label_ in was.uuids && IsWord(was.uuids[w.key.label_]) && other != w.mountpoint
    requires Vet(w.key.name, w.mountpoint) && PlainOptions(w.options)
    ensures FstabName(kept + [Line(w, was)], other) == FstabName(kept, other)
  {
    LineReadsBack(OwnerOf(w, was), w.mountpoint, w.options);
    assert (kept + [Line(w, was)])[..|kept|] == kept;
  }

  // ---------------------------------------------------------------- one removal

  lemma RemoveKeepsSettled(k: Key, was: Live, now: Live, place: string, w: Wanted)
    requires Regular(was) && Place(k, was) == Some(place) && now == Removed(k, was, place)
    requires Settled(w, was) && w.key != k && w.key.name != k.name
    ensures Settled(w, now)
  {
    NamedPlaceIs(was.lines, k.name);
    if MountedAt(was.rows, k).Some? {
      UnmountKey(was.rows, k, w.key);
      if place == w.mountpoint {
        OnePlaceOneKey(was.rows, k, w.key);
      }
    }
    OtherMountpointsKept(was.lines, place, None, w.mountpoint);
  }

  lemma RemoveRegular(k: Key, was: Live, now: Live, place: string)
    requires Regular(was) && Place(k, was) == Some(place) && now == Removed(k, was, place)
    ensures Regular(now)
  {
    UnmountTidy(was.rows, place);
    WithoutSublist(was.lines, place, None);
  }

  lemma RemoveRows(k: Key, was: Live, now: Live, place: string, other: Key)
    requires Regular(was) && Place(k, was) == Some(place) && now == Removed(k, was, place) && other != k
    ensures MountedAt(now.rows, other) == MountedAt(was.rows, other)
  {
    if MountedAt(was.rows, k).Some? {
      UnmountKey(was.rows, k, other);
    }
  }

  // ---------------------------------------------------------------- the whole run

  predicate Pending(changes: seq<Change>, i: nat, key: Key, removal: bool) {
    exists j :: i <= j < |changes| && changes[j].key == key && changes[j].op.Remove? == removal
  }

  /** What still differs has its item ahead. */
  ghost predicate Ahead(wanted: seq<Wanted>, managed: seq<Key>, labels: set<string>, changes: seq<Change>, i: nat, live: Live) {
    && (forall w :: w in wanted && Concerned(w, live) ==> Settled(w, live) || Pending(changes, i, w.key, false))
    && (forall k :: k in managed && Removable(k, wanted, labels, live) ==> Pending(changes, i, k, true))
  }

  lemma PendingNext(changes: seq<Change>, i: nat, key: Key, removal: bool)
    requires i < |changes| && Pending(changes, i, key, removal)
    requires changes[i].key != key || changes[i].op.Remove? != removal
    ensures Pending(changes, i + 1, key, removal)
  {
  }

  lemma OneEach(wanted: seq<Wanted>, a: Wanted, b: Wanted)
    requires Declarable(wanted) && a in wanted && b in wanted && a != b
    ensures a.key != b.key && a.mountpoint != b.mountpoint
  {
    var i :| 0 <= i < |wanted| && wanted[i] == a;
    var j :| 0 <= j < |wanted| && wanted[j] == b;
  }

  lemma InstallStepAhead(wanted: seq<Wanted>, managed: seq<Key>, labels: set<string>, changes: seq<Change>, i: nat,
                         w: Wanted, was: Live, now: Live)
    requires Declarable(wanted) && NamesApart(wanted, managed, labels) && Planned(w, wanted)
    requires i < |changes| && changes[i].key == w.key && !changes[i].op.Remove?
    requires Regular(was) && w.key.label_ in was.uuids && now == Installed(w, was)
    requires MountedAt(was.rows, w.key) == Some(w.mountpoint) || !IsMount(was.rows, w.mountpoint)
    requires Ahead(wanted, managed, labels, changes, i, was)
    ensures Ahead(wanted, managed, labels, changes, i + 1, now)
  {
    InstallSettles(w, was, now);
    forall x | x in wanted && Concerned(x, now)
      ensures Settled(x, now) || Pending(changes, i + 1, x.key, false)
    {
      if x != w {
        assert Planned(x, wanted);
        OneEach(wanted, x, w);
        if Settled(x, was) {
          InstallKeepsSettled(w, was, now, x);
        } else {
          PendingNext(changes, i, x.key, false);
        }
      }
    }
    forall k | k in managed && Removable(k, wanted, labels, now)
      ensures Pending(changes, i + 1, k, true)
    {
      assert w.key in WantedKeys(wanted);
      InstallRows(w, was, now, k);
      assert Removable(k, wanted, labels, was);
      PendingNext(changes, i, k, true);
    }
  }

  lemma RemoveStepAhead(wanted: seq<Wanted>, managed: seq<Key>, labels: set<string>, changes: seq<Change>, i: nat,
                        k: Key, was: Live, now: Live, place: string)
    requires NamesApart(wanted, managed, labels) && Orphan(k, wanted, managed, labels)
    requires i < |changes| && changes[i].key == k && changes[i].op.Remove?
    requires Regular(was) && Place(k, was) == Some(place) && now == Removed(k, was, place)
    requires Ahead(wanted, managed, labels, changes, i, was)
    ensures Ahead(wanted, managed, labels, changes, i + 1, now)
  {
    forall x | x in wanted && Concerned(x, now)
      ensures Settled(x, now) || Pending(changes, i + 1, x.key, false)
    {
      assert x.key in WantedKeys(wanted) && Planned(x, wanted);
      if Settled(x, was) {
        RemoveKeepsSettled(k, was, now, place, x);
      } else {
        PendingNext(changes, i, x.key, false);
      }
    }
    forall o | o in managed && Removable(o, wanted, labels, now)
      ensures Pending(changes, i + 1, o, true)
    {
      RemoveRows(k, was, now, place, o);
      assert Removable(o, wanted, labels, was);
      PendingNext(changes, i, o, true);
    }
  }

  lemma PlanIsAhead(wanted: seq<Wanted>, managed: seq<Key>, labels: set<string>, live: Live)
    ensures Ahead(wanted, managed, labels, DiffOf(wanted, live, labels, managed), 0, live)
  {
    var changes := DiffOf(wanted, live, labels, managed);
    forall w | w in wanted && Concerned(w, live) && !Settled(w, live)
      ensures Pending(changes, 0, w.key, false)
    {
      PlanForSettled(w, live);
      var c := PlanFor(w, live)[0];
      InInstalls(wanted, live, c);
      assert c in changes;
      var j :| 0 <= j < |changes| && changes[j] == c;
    }
    forall k | k in managed && Removable(k, wanted, labels, live)
      ensures Pending(changes, 0, k, true)
    {
      var c := Change(Remove, k, NoLongerDeclared);
      InRemoves(managed, wanted, labels, live, c);
      assert c in changes;
      var j :| 0 <= j < |changes| && changes[j] == c;
    }
  }

  lemma InPlan(wanted: seq<Wanted>, managed: seq<Key>, labels: set<string>, live: Live, c: Change)
    requires c in DiffOf(wanted, live, labels, managed)
    ensures if c.op.Remove? then Orphan(c.key, wanted, managed, labels) else c.key in WantedKeys(wanted)
  {
    if c in Installs(wanted, live) {
      InInstalls(wanted, live, c);
      var w :| w in wanted && c in PlanFor(w, live);
      PlanForSettled(w, live);
    } else {
      InRemoves(managed, wanted, labels, live, c);
    }
  }

  lemma RemovedAhead(wanted: seq<Wanted>, managed: seq<Key>, labels: set<string>, changes: seq<Change>, i: nat,
                     k: Key, was: Live, luck: Luck)
    requires NamesApart(wanted, managed, labels) && Orphan(k, wanted, managed, labels)
    requires i < |changes| && changes[i].key == k && changes[i].op.Remove?
    requires Regular(was) && Ahead(wanted, managed, labels, changes, i, was) && RemoveOutcome(k, was, luck).result.Ok?
    ensures var now := RemoveOutcome(k, was, luck).live;
            Regular(now) && Ahead(wanted, managed, labels, changes, i + 1, now)
  {
    var place := Place(k, was).value;
    var now := Removed(k, was, place);
    RemoveRegular(k, was, now, place);
    RemoveStepAhead(wanted, managed, labels, changes, i, k, was, now, place);
  }

  lemma InstalledAhead(wanted: seq<Wanted>, managed: seq<Key>, labels: set<string>, changes: seq<Change>, i: nat,
                       w: Wanted, was: Live, luck: Luck)
    requires Declarable(wanted) && NamesApart(wanted, managed, labels) && Planned(w, wanted)
    requires i < |changes| && changes[i].key == w.key && !changes[i].op.Remove?
    requires w.key.label_ in was.uuids
    requires Regular(was) && Ahead(wanted, managed, labels, changes, i, was) && InstallOutcome(w, was, luck).result.Ok?
    ensures var now := InstallOutcome(w, was, luck).live;
            Regular(now) && Ahead(wanted, managed, labels, changes, i + 1, now)
  {
    var now := Installed(w, was);
    assert InstallOutcome(w, was, luck).live == now;
    InstallRows(w, was, now, w.key);
    InstallLines(w, was);
    InstallStepAhead(wanted, managed, labels, changes, i, w, was, now);
  }

  lemma ItemAhead(wanted: seq<Wanted>, managed: seq<Key>, labels: set<string>, models: map<Key, Wanted>,
                  start: Live, changes: seq<Change>, i: nat, was: Live, luck: Luck)
    requires Declarable(wanted) && NamesApart(wanted, managed, labels) && ModelsOf(models, wanted)
    requires changes == DiffOf(wanted, start, labels, managed) && i < |changes|
    requires Regular(was) && Ahead(wanted, managed, labels, changes, i, was)
    requires ItemOutcome(changes[i], models, was, luck).result.Ok?
    ensures var now := ItemOutcome(changes[i], models, was, luck).live;
            Regular(now) && Ahead(wanted, managed, labels, changes, i + 1, now)
  {
    var c := changes[i];
    assert c in changes;
    InPlan(wanted, managed, labels, start, c);
    if c.op.Remove? {
      RemovedAhead(wanted, managed, labels, changes, i, c.key, was, luck);
    } else {
      InstalledAhead(wanted, managed, labels, changes, i, models[c.key], was, luck);
    }
  }

  lemma {:induction false} RunAhead(wanted: seq<Wanted>, managed: seq<Key>, labels: set<string>, models: map<Key, Wanted>,
                                    start: Live, changes: seq<Change>, i: nat, was: Live, lucks: seq<Luck>)
    requires Declarable(wanted) && NamesApart(wanted, managed, labels) && ModelsOf(models, wanted)
    requires changes == DiffOf(wanted, start, labels, managed) && i <= |changes| && |lucks| == |changes|
    requires Regular(was) && Ahead(wanted, managed, labels, changes, i, was)
    requires RunOutcome(changes[i..], models, was, lucks[i..]).result.Ok?
    ensures Ahead(wanted, managed, labels, changes, |changes|, RunOutcome(changes[i..], models, was, lucks[i..]).live)
    decreases |changes| - i
  {
    if i < |changes| {
      RunFirst(changes, models, was, lucks, i);
      var first := ItemOutcome(changes[i], models, was, lucks[i]);
      ItemAhead(wanted, managed, labels, models, start, changes, i, was, lucks[i]);
      RunAhead(wanted, managed, labels, models, start, changes, i + 1, first.live, lucks);
    }
  }

  /** Every item of the plan was carried out. */
  ghost predicate CarriedOut(wanted: seq<Wanted>, managed: seq<Key>, labels: set<string>, live: Live, models: map<Key, Wanted>,
                             lucks: seq<Luck>)
  {
    var plan := DiffOf(wanted, live, labels, managed);
    && Regular(live) && ModelsOf(models, wanted) && |lucks| == |plan|
    && RunOutcome(plan, models, live, lucks).result.Ok?
  }

  /** The plan of the machine a carried-out plan leaves. */
  function NextPlan(wanted: seq<Wanted>, managed: seq<Key>, labels: set<string>, live: Live, models: map<Key, Wanted>,
                    lucks: seq<Luck>): seq<Change>
    requires |lucks| == |DiffOf(wanted, live, labels, managed)|
  {
    DiffOf(wanted, RunOutcome(DiffOf(wanted, live, labels, managed), models, live, lucks).live, labels, managed)
  }

  /** When every item of a plan is carried out, the plan of the resulting machine is empty. */
  lemma PlanConverges(wanted: seq<Wanted>, managed: seq<Key>, labels: set<string>, live: Live,
                      models: map<Key, Wanted>, lucks: seq<Luck>)
    requires Declarable(wanted) && NamesApart(wanted, managed, labels)
    requires CarriedOut(wanted, managed, labels, live, models, lucks)
    ensures NextPlan(wanted, managed, labels, live, models, lucks) == []
  {
    var changes := DiffOf(wanted, live, labels, managed);
    PlanIsAhead(wanted, managed, labels, live);
    assert changes[0..] == changes && lucks[0..] == lucks;
    RunAhead(wanted, managed, labels, models, live, changes, 0, live, lucks);
    EmptyIffConverged(wanted, RunOutcome(changes, models, live, lucks).live, labels, managed);
  }

  /** The two runs on the machine: probe and plan, apply, and plan again. */
  method Reconcile(action: BtrfsSubvolumeAction, wanted: seq<Wanted>, managed: seq<Key>, labels: set<string>,
                   models: map<Key, Wanted>, weather: nat -> Luck)
    returns (r: Result, next: seq<Change>)
    requires Declarable(wanted) && NamesApart(wanted, managed, labels) && ModelsOf(models, wanted)
    requires Regular(action.Now())
    modifies action, action.fstab
    ensures r.Ok? ==> next == []
  {
    ghost var was := action.Now();
    var changes := Diff(wanted, action.Now(), labels, managed);
    var lucks := seq(|changes|, (i: nat) => weather(i));
    r := action.ApplyEach(changes, models, lucks);
    next := Diff(wanted, action.Now(), labels, managed);
    if r.Ok? {
      PlanConverges(wanted, managed, labels, was, models, lucks);
    }
  }
}
