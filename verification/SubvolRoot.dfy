/** What a run does to the subvolume mounted at `/`. */
module SubvolRoot {
  import opened Common
  import opened Text
  import opened Fstab
  import opened SubvolState
  import opened SubvolProbe
  import opened SubvolParent
  import opened SubvolApply

  // ---------------------------------------------------------------- `/` is never unmounted

  lemma ItemNeverUnmountsRoot(c: Change, models: map<Key, Wanted>, live: Live, luck: Luck)
    ensures Umount("/") !in ItemOutcome(c, models, live, luck).log
  {
  }

  /** No run ever unmounts `/`, whatever it is asked and whatever fails. */
  lemma {:induction false} RunNeverUnmountsRoot(changes: seq<Change>, models: map<Key, Wanted>, live: Live, lucks: seq<Luck>)
    requires |lucks| == |changes|
    ensures Umount("/") !in RunOutcome(changes, models, live, lucks).log
  {
    if changes != [] {
      ItemNeverUnmountsRoot(changes[0], models, live, lucks[0]);
      var first := ItemOutcome(changes[0], models, live, lucks[0]);
      if first.result.Ok? {
        RunNeverUnmountsRoot(changes[1..], models, first.live, lucks[1..]);
      }
    }
  }

  // ---------------------------------------------------------------- a recognised root

  lemma {:induction false} ShownAfter(rows: seq<Row>, at: string, row: Row, root: Key)
    requires MountedAt(rows, root) == Some("/") && row.key != root
    ensures at != "/" ==> MountedAt(Unmounted(rows, at), root) == Some("/")
    ensures at != "/" ==> MountedAt(Unmounted(rows, at) + [row], root) == Some("/")
    ensures MountedAt(rows + [row], root) == Some("/")
  {
    MountedAppend(rows, row, root);
    if at != "/" {
      UnmountElsewhere(rows, at, root);
      MountedAppend(Unmounted(rows, at), row, root);
    }
  }

  lemma {:induction false} MoveSparesRoot(w: Wanted, at: string, live: Live, luck: Luck, root: Key)
    requires w.key.label_ in live.uuids && w.key != root && MountedAt(live.rows, root) == Some("/")
    requires MountedAt(live.rows, w.key) == Some(at) && at != w.mountpoint
    ensures var o := MoveOutcome(w, at, live, luck);
            && MountedAt(o.live.rows, root) == Some("/") && Delete(root) !in o.log
            && (root in live.existing ==> root in o.live.existing)
  {
    ShownAfter(live.rows, at, Row(w.key, w.mountpoint), root);
  }

  lemma FillSparesRoot(w: Wanted, live: Live, luck: Luck, root: Key)
    requires w.key.label_ in live.uuids && w.key != root && MountedAt(live.rows, root) == Some("/")
    requires MountedAt(live.rows, w.key).None?
    ensures var o := FillOutcome(w, live, luck);
            && MountedAt(o.live.rows, root) == Some("/") && Delete(root) !in o.log
            && (root in live.existing ==> root in o.live.existing)
  {
    ShownAfter(live.rows, "", Row(w.key, w.mountpoint), root);
  }

  lemma {:induction false} InstallSparesRoot(w: Wanted, live: Live, luck: Luck, root: Key)
    requires w.key.label_ in live.uuids && w.mountpoint != "/" && MountedAt(live.rows, root) == Some("/")
    ensures var o := InstallOutcome(w, live, luck);
            && MountedAt(o.live.rows, root) == Some("/") && Delete(root) !in o.log
            && (root in live.existing ==> root in o.live.existing)
  {
    if w.key != root {
      if MountedAt(live.rows, w.key).None? {
        FillSparesRoot(w, live, luck, root);
      } else if MountedAt(live.rows, w.key).value != w.mountpoint {
        MoveSparesRoot(w, MountedAt(live.rows, w.key).value, live, luck, root);
      }
    }
  }

  lemma TakenOutSparesRoot(k: Key, live: Live, place: string, luck: Luck, root: Key)
    requires MountedAt(live.rows, root) == Some("/") && k != root && place != "/"
    ensures var o := TakenOut(k, live, place, luck);
            && MountedAt(o.live.rows, root) == Some("/") && Delete(root) !in o.log
            && (root in live.existing ==> root in o.live.existing)
  {
    ShownAfter(live.rows, place, Row(k, place), root);
  }

  lemma RemoveSparesRoot(k: Key, live: Live, luck: Luck, root: Key)
    requires MountedAt(live.rows, root) == Some("/")
    ensures var o := RemoveOutcome(k, live, luck);
            && MountedAt(o.live.rows, root) == Some("/") && Delete(root) !in o.log
            && (root in live.existing ==> root in o.live.existing)
  {
    if k != root && Exposed(k, live) {
      TakenOutSparesRoot(k, live, Place(k, live).value, luck, root);
    }
  }

  /** A subvolume the machine shows at `/` is spared by every run: it stays there and exists. */
  lemma {:induction false} RunSparesShownRoot(changes: seq<Change>, models: map<Key, Wanted>, live: Live, lucks: seq<Luck>, root: Key)
    requires |lucks| == |changes| && MountedAt(live.rows, root) == Some("/")
    ensures var o := RunOutcome(changes, models, live, lucks);
            && MountedAt(o.live.rows, root) == Some("/") && Delete(root) !in o.log
            && (root in live.existing ==> root in o.live.existing)
  {
    if changes != [] {
      var c := changes[0];
      if c.key.label_ in live.uuids {
        if c.op.Remove? {
          RemoveSparesRoot(c.key, live, lucks[0], root);
        } else if c.key in models && models[c.key].key == c.key && models[c.key].mountpoint != "/" {
          InstallSparesRoot(models[c.key], live, lucks[0], root);
        }
      }
      var first := ItemOutcome(c, models, live, lucks[0]);
      if first.result.Ok? {
        RunSparesShownRoot(changes[1..], models, first.live, lucks[1..], root);
      }
    }
  }

  // ---------------------------------------------------------------- a root that is mounted twice

  /** One removal can delete a subvolume exactly when the probe shows it, or fstab names it, at a
      place other than `/` that another mounted subvolume of its filesystem contains. */
  lemma RemovalDeletesIff(k: Key, live: Live)
    ensures (exists luck :: Delete(k) in RemoveOutcome(k, live, luck).log) <==> Exposed(k, live)
  {
    assert Exposed(k, live) ==> Delete(k) in RemoveOutcome(k, live, ALL_WELL).log;
  }

  /** No two mounts share a place, and only `root` is mounted more than once. */
  predicate Lone(rows: seq<Row>, root: Key) {
    forall i, j :: 0 <= i < j < |rows| ==>
      rows[i].mountpoint != rows[j].mountpoint && (rows[i].key == rows[j].key ==> rows[i].key == root)
  }

  lemma LoneSnoc(rows: seq<Row>, row: Row, root: Key)
    ensures Lone(rows + [row], root) <==>
      Lone(rows, root) && forall r :: r in rows ==> r.mountpoint != row.mountpoint && (r.key == row.key ==> r.key == root)
  {
    var all := rows + [row];
    assert forall i :: 0 <= i < |rows| ==> all[i] == rows[i];
    if Lone(all, root) {
      forall r | r in rows
        ensures r.mountpoint != row.mountpoint && (r.key == row.key ==> r.key == root)
      {
        var i :| 0 <= i < |rows| && rows[i] == r;
        assert all[i] == r && all[|rows|] == row;
      }
    }
    if Lone(rows, root) && forall r :: r in rows ==> r.mountpoint != row.mountpoint && (r.key == row.key ==> r.key == root) {
      forall i, j | 0 <= i < j < |all|
        ensures all[i].mountpoint != all[j].mountpoint && (all[i].key == all[j].key ==> all[i].key == root)
      {
        assert all[i] in rows;
      }
    }
  }

  lemma {:induction false} LoneUnmount(rows: seq<Row>, at: string, root: Key)
    requires Lone(rows, root)
    ensures Lone(Unmounted(rows, at), root)
    ensures forall r :: r in Unmounted(rows, at) <==> r in rows && r.mountpoint != at
  {
    if rows != [] {
      var front, last := rows[..|rows| - 1], rows[|rows| - 1];
      assert rows == front + [last];
      LoneSnoc(front, last, root);
      LoneUnmount(front, at, root);
      LoneSnoc(Unmounted(front, at), last, root);
    }
  }

  /** A row of another subvolume is what the probe shows for it. */
  lemma {:induction false} LoneShown(rows: seq<Row>, row: Row, root: Key)
    requires Lone(rows, root) && row in rows && row.key != root
    ensures MountedAt(rows, row.key) == Some(row.mountpoint)
  {
    NotMounted(rows, row.key);
    var i := MountedRow(rows, row.key);
    var j :| 0 <= j < |rows| && rows[j] == row;
  }

  /** Among such mounts a parent is any row of another subvolume that contains the place. */
  lemma LoneParent(rows: seq<Row>, root: Key, place: string)
    requires Lone(rows, root)
    ensures HasParent(rows, root, place) <==>
      exists r :: r in rows && r.key.label_ == root.label_ && Contains(r, root, place)
  {
    if exists r :: r in rows && r.key.label_ == root.label_ && Contains(r, root, place) {
      var r :| r in rows && r.key.label_ == root.label_ && Contains(r, root, place);
      LoneShown(rows, r, root);
      assert Offers(rows, r, root, place);
    }
  }

  /** The root is still shown at the same place, no parent appeared, and it was not deleted. */
  ghost predicate Steady(was: Live, o: Outcome, root: Key)
    requires MountedAt(was.rows, root).Some?
  {
    && Lone(o.live.rows, root) && o.live.uuids == was.uuids
    && MountedAt(o.live.rows, root) == MountedAt(was.rows, root)
    && (HasParent(o.live.rows, root, MountedAt(was.rows, root).value) ==> HasParent(was.rows, root, MountedAt(was.rows, root).value))
    && Delete(root) !in o.log
  }

  /** Rows that come from `rows` by taking one place away and perhaps mounting one other subvolume,
      which was there before or does not contain the root's place. */
  lemma {:induction false} SteadyRows(rows: seq<Row>, at: string, row: Row, root: Key, place: string)
    requires Lone(rows, root) && MountedAt(rows, root) == Some(place) && at != place && row.key != root
    requires row.key.label_ == root.label_ && Contains(row, root, place) ==> row in rows
    ensures var off := Unmounted(rows, at);
            && Lone(off, root) && MountedAt(off, root) == Some(place)
            && (HasParent(off, root, place) ==> HasParent(rows, root, place))
            && (Lone(off + [row], root) ==>
                 MountedAt(off + [row], root) == Some(place) && (HasParent(off + [row], root, place) ==> HasParent(rows, root, place)))
  {
    var off := Unmounted(rows, at);
    LoneUnmount(rows, at, root);
    UnmountElsewhere(rows, at, root);
    MountedAppend(off, row, root);
    LoneParent(rows, root, place);
    LoneParent(off, root, place);
    if Lone(off + [row], root) {
      LoneParent(off + [row], root, place);
    }
  }

  lemma DetachIsSteady(k: Key, live: Live, at: string, place: string, root: Key)
    requires Lone(live.rows, root) && MountedAt(live.rows, root) == Some(place) && k != root && MountedAt(live.rows, k) == Some(at)
    ensures var off := Unmounted(live.rows, at);
            var back := off + [Row(k, at)];
            && Lone(off, root) && MountedAt(off, root) == Some(place)
            && Lone(back, root) && MountedAt(back, root) == Some(place)
            && (HasParent(off, root, place) || HasParent(back, root, place) ==> HasParent(live.rows, root, place))
  {
    var i := MountedRow(live.rows, k);
    var j := MountedRow(live.rows, root);
    assert at != place;
    SteadyRows(live.rows, at, Row(k, at), root, place);
    LoneUnmount(live.rows, at, root);
    LoneSnoc(Unmounted(live.rows, at), Row(k, at), root);
    OnlyRow(live.rows, k, root);
  }

  lemma TakenOutIsSteady(k: Key, live: Live, at: string, luck: Luck, root: Key)
    requires Lone(live.rows, root) && MountedAt(live.rows, root).Some? && k != root
    requires MountedAt(live.rows, k).Some? ==> MountedAt(live.rows, k) == Some(at)
    ensures Steady(live, TakenOut(k, live, at, luck), root)
  {
    if MountedAt(live.rows, k).Some? {
      DetachIsSteady(k, live, at, MountedAt(live.rows, root).value, root);
    }
  }

  lemma {:induction false} RemoveIsSteady(k: Key, live: Live, luck: Luck, root: Key)
    requires Lone(live.rows, root) && MountedAt(live.rows, root).Some? && !Exposed(root, live)
    ensures Steady(live, RemoveOutcome(k, live, luck), root)
  {
    if k != root && Exposed(k, live) {
      TakenOutIsSteady(k, live, Place(k, live).value, luck, root);
    }
  }

  lemma {:induction false} OnlyRow(rows: seq<Row>, k: Key, root: Key)
    requires Lone(rows, root) && k != root && MountedAt(rows, k).Some?
    ensures forall r :: r in rows && r.key == k ==> r.mountpoint == MountedAt(rows, k).value
  {
    forall r | r in rows && r.key == k
      ensures r.mountpoint == MountedAt(rows, k).value
    {
      LoneShown(rows, r, root);
    }
  }

  /** A mount over the root's place would have it below: such a place is not free. */
  lemma FreeIsNoParent(w: Wanted, live: Live, root: Key, place: string)
    requires Free(w, live) && w.mountpoint != "/" && MountedAt(live.rows, root) == Some(place)
    ensures !Contains(Row(w.key, w.mountpoint), root, place)
    ensures w.mountpoint != place && forall r :: r in live.rows ==> r.mountpoint != w.mountpoint
  {
    var i := MountedRow(live.rows, root);
    assert live.rows[i] in live.rows;
    forall r | r in live.rows
      ensures r.mountpoint != w.mountpoint
    {
      var j :| 0 <= j < |live.rows| && live.rows[j] == r;
    }
  }

  lemma MovedRowsSteady(w: Wanted, live: Live, at: string, place: string, root: Key)
    requires Lone(live.rows, root) && MountedAt(live.rows, root) == Some(place) && w.key != root && w.mountpoint != "/"
    requires MountedAt(live.rows, w.key) == Some(at) && Free(w, live)
    ensures var off := Unmounted(live.rows, at);
            var now := off + [Row(w.key, w.mountpoint)];
            && Lone(off, root) && MountedAt(off, root) == Some(place)
            && Lone(now, root) && MountedAt(now, root) == Some(place)
            && (HasParent(off, root, place) || HasParent(now, root, place) ==> HasParent(live.rows, root, place))
  {
    var i := MountedRow(live.rows, w.key);
    var j := MountedRow(live.rows, root);
    FreeIsNoParent(w, live, root, place);
    SteadyRows(live.rows, at, Row(w.key, w.mountpoint), root, place);
    LoneUnmount(live.rows, at, root);
    OnlyRow(live.rows, w.key, root);
    LoneSnoc(Unmounted(live.rows, at), Row(w.key, w.mountpoint), root);
  }

  lemma MoveIsSteady(w: Wanted, live: Live, luck: Luck, root: Key)
    requires Lone(live.rows, root) && MountedAt(live.rows, root).Some? && w.key != root && w.mountpoint != "/"
    requires w.key.label_ in live.uuids && MountedAt(live.rows, w.key).Some? && MountedAt(live.rows, w.key).value != w.mountpoint
    requires Free(w, live)
    ensures Steady(live, MoveOutcome(w, MountedAt(live.rows, w.key).value, live, luck), root)
  {
    var at, place := MountedAt(live.rows, w.key).value, MountedAt(live.rows, root).value;
    MovedRowsSteady(w, live, at, place, root);
    MovedIsSteady(w, at, live, luck, root, place, Unmounted(live.rows, at));
  }

  lemma MovedIsSteady(w: Wanted, at: string, live: Live, luck: Luck, root: Key, place: string, off: seq<Row>)
    requires w.key.label_ in live.uuids && MountedAt(live.rows, root) == Some(place)
    requires MountedAt(live.rows, w.key) == Some(at) && at != w.mountpoint && off == Unmounted(live.rows, at)
    requires Lone(live.rows, root) && Lone(off, root) && Lone(off + [Row(w.key, w.mountpoint)], root)
    requires MountedAt(off, root) == Some(place) && MountedAt(off + [Row(w.key, w.mountpoint)], root) == Some(place)
    requires HasParent(off, root, place) || HasParent(off + [Row(w.key, w.mountpoint)], root, place) ==> HasParent(live.rows, root, place)
    ensures Steady(live, MoveOutcome(w, at, live, luck), root)
  {
  }

  lemma FillIsSteady(w: Wanted, live: Live, luck: Luck, root: Key)
    requires Lone(live.rows, root) && MountedAt(live.rows, root).Some? && w.key != root && w.mountpoint != "/"
    requires w.key.label_ in live.uuids && MountedAt(live.rows, w.key).None? && Free(w, live)
    ensures Steady(live, FillOutcome(w, live, luck), root)
  {
    var place, row := MountedAt(live.rows, root).value, Row(w.key, w.mountpoint);
    FreeIsNoParent(w, live, root, place);
    NotMounted(live.rows, w.key);
    LoneSnoc(live.rows, row, root);
    MountedAppend(live.rows, row, root);
    LoneParent(live.rows, root, place);
    LoneParent(live.rows + [row], root, place);
  }

  /** The configuration declares the subvolume at `/`, if at all. */
  predicate OnlyAtRoot(models: map<Key, Wanted>, root: Key) {
    root in models ==> models[root].mountpoint == "/"
  }

  /** Installing whatever is declared leaves the root where it is shown, and no new parent of it. */
  lemma {:induction false} InstallItemIsSteady(c: Change, models: map<Key, Wanted>, live: Live, luck: Luck, root: Key)
    requires Lone(live.rows, root) && MountedAt(live.rows, root).Some? && OnlyAtRoot(models, root) && !c.op.Remove?
    ensures Steady(live, ItemOutcome(c, models, live, luck), root)
  {
    if c.key.label_ in live.uuids && c.key in models && models[c.key].key == c.key && models[c.key].mountpoint != "/" {
      var w := models[c.key];
      if Free(w, live) {
        if MountedAt(live.rows, w.key).None? {
          FillIsSteady(w, live, luck, root);
        } else if MountedAt(live.rows, w.key).value != w.mountpoint {
          MoveIsSteady(w, live, luck, root);
        }
      }
    }
  }

  lemma {:induction false} ItemIsSteady(c: Change, models: map<Key, Wanted>, live: Live, luck: Luck, root: Key)
    requires Lone(live.rows, root) && MountedAt(live.rows, root).Some? && !Exposed(root, live) && OnlyAtRoot(models, root)
    ensures Steady(live, ItemOutcome(c, models, live, luck), root)
  {
    if c.op.Remove? {
      if c.key.label_ in live.uuids {
        RemoveIsSteady(c.key, live, luck, root);
      }
    } else {
      InstallItemIsSteady(c, models, live, luck, root);
    }
  }

  /** A subvolume the guards of a removal hold back is never deleted, whatever items are applied. */
  lemma {:induction false} RunIsSteady(changes: seq<Change>, models: map<Key, Wanted>, live: Live, lucks: seq<Luck>, root: Key)
    requires |lucks| == |changes|
    requires Lone(live.rows, root) && MountedAt(live.rows, root).Some? && !Exposed(root, live) && OnlyAtRoot(models, root)
    ensures Delete(root) !in RunOutcome(changes, models, live, lucks).log
  {
    if changes != [] {
      ItemIsSteady(changes[0], models, live, lucks[0], root);
      var first := ItemOutcome(changes[0], models, live, lucks[0]);
      if first.result.Ok? {
        RunIsSteady(changes[1..], models, first.live, lucks[1..], root);
      }
    }
  }

  // ---------------------------------------------------------------- the runs of plans

  function AllWell(n: nat): (lucks: seq<Luck>)
    ensures |lucks| == n
  {
    if n == 0 then [] else [ALL_WELL] + AllWell(n - 1)
  }

  predicate NoRemoval(changes: seq<Change>) {
    forall c :: c in changes ==> !c.op.Remove?
  }

  /** The items of `rest` after those of `first`, unless those stopped. */
  function Then(first: Outcome, rest: Outcome): Outcome {
    if !first.result.Ok? then first else Outcome(rest.result, rest.live, first.log + rest.log)
  }

  lemma ThenAssoc(a: Outcome, b: Outcome, c: Outcome)
    ensures Then(Then(a, b), c) == Then(a, Then(b, c))
  {
    assert a.log + (b.log + c.log) == a.log + b.log + c.log;
  }

  lemma RunHead(changes: seq<Change>, models: map<Key, Wanted>, live: Live, lucks: seq<Luck>, item: Outcome)
    requires |lucks| == |changes| && changes != [] && item == ItemOutcome(changes[0], models, live, lucks[0])
    ensures RunOutcome(changes, models, live, lucks) == Then(item, RunOutcome(changes[1..], models, item.live, lucks[1..]))
  {
  }

  lemma ThenStep(item: Outcome, front: Outcome, last: Outcome, first: Outcome, whole: Outcome, after: Outcome)
    requires first == Then(item, front) && whole == Then(item, Then(front, last))
    requires first.result.Ok? ==> after == last
    ensures whole == Then(first, after)
  {
    ThenAssoc(item, front, last);
  }

  /** A run in two parts: `first` and then `after`. */
  lemma {:induction false} RunAppend(a: seq<Change>, b: seq<Change>, ab: seq<Change>, models: map<Key, Wanted>, live: Live,
                                     la: seq<Luck>, lb: seq<Luck>, lab: seq<Luck>, first: Outcome, after: Outcome)
    requires |la| == |a| && |lb| == |b| && ab == a + b && lab == la + lb
    requires first == RunOutcome(a, models, live, la) && after == RunOutcome(b, models, first.live, lb)
    ensures RunOutcome(ab, models, live, lab) == Then(first, after)
    decreases |a|
  {
    if a == [] {
      assert ab == b && lab == lb;
      assert [] + after.log == after.log;
    } else {
      var item := ItemOutcome(a[0], models, live, la[0]);
      var front := RunOutcome(a[1..], models, item.live, la[1..]);
      var last := RunOutcome(b, models, front.live, lb);
      RunAppend(a[1..], b, ab[1..], models, item.live, la[1..], lb, lab[1..], front, last);
      RunHead(a, models, live, la, item);
      RunHead(ab, models, live, lab, item);
      ThenStep(item, front, last, first, RunOutcome(ab, models, live, lab), after);
    }
  }

  /** Only an item that removes a subvolume deletes it. */
  lemma {:induction false} DeletedByItem(changes: seq<Change>, models: map<Key, Wanted>, live: Live, lucks: seq<Luck>, root: Key)
    requires |lucks| == |changes| && forall c :: c in changes && c.op.Remove? ==> c.key != root
    ensures Delete(root) !in RunOutcome(changes, models, live, lucks).log
  {
    if changes != [] {
      assert changes[0] in changes && forall c :: c in changes[1..] ==> c in changes;
      var first := ItemOutcome(changes[0], models, live, lucks[0]);
      if first.result.Ok? {
        DeletedByItem(changes[1..], models, first.live, lucks[1..], root);
      }
    }
  }

  lemma ItemOkAllWell(c: Change, models: map<Key, Wanted>, live: Live, luck: Luck)
    requires !c.op.Remove? && ItemOutcome(c, models, live, luck).result.Ok?
    ensures ItemOutcome(c, models, live, ALL_WELL) == ItemOutcome(c, models, live, luck)
  {
  }

  /** Installs that are carried out leave one and the same machine. */
  lemma {:induction false} RunOkAllWell(changes: seq<Change>, models: map<Key, Wanted>, live: Live, lucks: seq<Luck>)
    requires |lucks| == |changes| && NoRemoval(changes) && RunOutcome(changes, models, live, lucks).result.Ok?
    ensures RunOutcome(changes, models, live, AllWell(|changes|)) == RunOutcome(changes, models, live, lucks)
  {
    if changes != [] {
      assert changes[0] in changes && forall c :: c in changes[1..] ==> c in changes;
      ItemOkAllWell(changes[0], models, live, lucks[0]);
      assert AllWell(|changes|)[1..] == AllWell(|changes| - 1);
      RunOkAllWell(changes[1..], models, ItemOutcome(changes[0], models, live, lucks[0]).live, lucks[1..]);
    }
  }

  lemma {:induction false} InstallsAreSteady(changes: seq<Change>, models: map<Key, Wanted>, live: Live, lucks: seq<Luck>, root: Key)
    requires |lucks| == |changes| && NoRemoval(changes) && OnlyAtRoot(models, root)
    requires Lone(live.rows, root) && MountedAt(live.rows, root).Some?
    ensures var now := RunOutcome(changes, models, live, lucks).live;
            Lone(now.rows, root) && MountedAt(now.rows, root) == MountedAt(live.rows, root) && now.uuids == live.uuids
  {
    if changes != [] {
      assert changes[0] in changes && forall c :: c in changes[1..] ==> c in changes;
      InstallItemIsSteady(changes[0], models, live, lucks[0], root);
      var first := ItemOutcome(changes[0], models, live, lucks[0]);
      if first.result.Ok? {
        InstallsAreSteady(changes[1..], models, first.live, lucks[1..], root);
      }
    }
  }

  lemma InstallsRemoveNothing(wanted: seq<Wanted>, live: Live)
    ensures NoRemoval(Installs(wanted, live))
  {
    forall c | c in Installs(wanted, live)
      ensures !c.op.Remove?
    {
      InInstalls(wanted, live, c);
      var w :| w in wanted && c in PlanFor(w, live);
      PlanForSettled(w, live);
    }
  }

  /** What the declarations of a plan leave when they are all carried out, before its removals. */
  function AfterInstalls(wanted: seq<Wanted>, live: Live): Outcome {
    var installs := Installs(wanted, live);
    RunOutcome(installs, Models(wanted), live, AllWell(|installs|))
  }

  /** Whatever is owned and however it turns out, carrying out the plan does not delete the root. */
  ghost predicate Spared(root: Key, wanted: seq<Wanted>, live: Live) {
    forall managed: seq<Key>, lucks: seq<Luck> :: |lucks| == |DiffOf(wanted, live, Labels(wanted), managed)| ==>
      Delete(root) !in RunOutcome(DiffOf(wanted, live, Labels(wanted), managed), Models(wanted), live, lucks).log
  }

  /** The plan's declarations go through, and then a removal of the root would. */
  predicate Reachable(root: Key, wanted: seq<Wanted>, live: Live) {
    AfterInstalls(wanted, live).result.Ok? && Exposed(root, AfterInstalls(wanted, live).live)
  }

  lemma DeclaredIsSpared(root: Key, wanted: seq<Wanted>, live: Live)
    requires root in WantedKeys(wanted)
    ensures Spared(root, wanted, live)
  {
    forall managed: seq<Key>, lucks: seq<Luck> | |lucks| == |DiffOf(wanted, live, Labels(wanted), managed)|
      ensures Delete(root) !in RunOutcome(DiffOf(wanted, live, Labels(wanted), managed), Models(wanted), live, lucks).log
    {
      var plan := DiffOf(wanted, live, Labels(wanted), managed);
      InstallsRemoveNothing(wanted, live);
      forall c | c in plan && c.op.Remove?
        ensures c.key != root
      {
        InRemoves(managed, wanted, Labels(wanted), live, c);
      }
      DeletedByItem(plan, Models(wanted), live, lucks, root);
    }
  }

  /** One plan, in two parts. */
  lemma PlanSparesRoot(root: Key, wanted: seq<Wanted>, live: Live, installs: seq<Change>, removes: seq<Change>,
                       la: seq<Luck>, lb: seq<Luck>)
    requires Lone(live.rows, root) && MountedAt(live.rows, root).Some? && OnlyAtRoot(Models(wanted), root)
    requires installs == Installs(wanted, live) && |la| == |installs| && |lb| == |removes| && !Reachable(root, wanted, live)
    ensures Delete(root) !in RunOutcome(installs + removes, Models(wanted), live, la + lb).log
  {
    var models := Models(wanted);
    InstallsRemoveNothing(wanted, live);
    var first := RunOutcome(installs, models, live, la);
    RunAppend(installs, removes, installs + removes, models, live, la, lb, la + lb, first, RunOutcome(removes, models, first.live, lb));
    DeletedByItem(installs, models, live, la, root);
    if first.result.Ok? {
      RunOkAllWell(installs, models, live, la);
      InstallsAreSteady(installs, models, live, la, root);
      RunIsSteady(removes, models, first.live, lb, root);
    }
  }

  lemma UnreachableIsSpared(root: Key, wanted: seq<Wanted>, live: Live)
    requires Lone(live.rows, root) && MountedAt(live.rows, root).Some? && OnlyAtRoot(Models(wanted), root)
    requires !Reachable(root, wanted, live)
    ensures Spared(root, wanted, live)
  {
    forall managed: seq<Key>, lucks: seq<Luck> | |lucks| == |DiffOf(wanted, live, Labels(wanted), managed)|
      ensures Delete(root) !in RunOutcome(DiffOf(wanted, live, Labels(wanted), managed), Models(wanted), live, lucks).log
    {
      var installs, removes := Installs(wanted, live), Removes(managed, wanted, Labels(wanted), live);
      var n := |installs|;
      assert lucks == lucks[..n] + lucks[n..];
      PlanSparesRoot(root, wanted, live, installs, removes, lucks[..n], lucks[n..]);
    }
  }

  lemma RootIsPlanned(root: Key, wanted: seq<Wanted>, live: Live)
    requires Lone(live.rows, root) && Row(root, "/") in live.rows && root.label_ in live.uuids && Probed(wanted, live)
    requires OnlyAtRoot(Models(wanted), root) && root !in WantedKeys(wanted) && Reachable(root, wanted, live)
    ensures Removes([root], wanted, Labels(wanted), live) == [Change(Remove, root, NoLongerDeclared)]
    ensures AfterInstalls(wanted, live).live.uuids == live.uuids
  {
    var installs := Installs(wanted, live);
    NotMounted(live.rows, root);
    InstallsRemoveNothing(wanted, live);
    InstallsAreSteady(installs, Models(wanted), live, AllWell(|installs|), root);
    assert Removable(root, wanted, Labels(wanted), live);
    assert [root][1..] == [] && Removes([], wanted, Labels(wanted), live) == [];
  }

  lemma ReachedAndDeleted(root: Key, wanted: seq<Wanted>, live: Live, plan: seq<Change>, lucks: seq<Luck>)
    requires root.label_ in live.uuids && Reachable(root, wanted, live) && AfterInstalls(wanted, live).live.uuids == live.uuids
    requires plan == Installs(wanted, live) + [Change(Remove, root, NoLongerDeclared)]
    requires lucks == AllWell(|Installs(wanted, live)|) + [ALL_WELL]
    ensures Delete(root) in RunOutcome(plan, Models(wanted), live, lucks).log
  {
    var models, installs := Models(wanted), Installs(wanted, live);
    var c := Change(Remove, root, NoLongerDeclared);
    var first := AfterInstalls(wanted, live);
    OneRemovalRun(c, models, first.live, root);
    var after := RunOutcome([c], models, first.live, [ALL_WELL]);
    RunAppend(installs, [c], plan, models, live, AllWell(|installs|), [ALL_WELL], lucks, first, after);
  }

  /** The plan that owns nothing but the root removes it, once the declarations are carried out. */
  lemma ReachableIsDeleted(root: Key, wanted: seq<Wanted>, live: Live)
    requires Lone(live.rows, root) && Row(root, "/") in live.rows && root.label_ in live.uuids && Probed(wanted, live)
    requires OnlyAtRoot(Models(wanted), root) && root !in WantedKeys(wanted) && Reachable(root, wanted, live)
    ensures !Spared(root, wanted, live)
  {
    RootIsPlanned(root, wanted, live);
    var plan, lucks := DiffOf(wanted, live, Labels(wanted), [root]), AllWell(|Installs(wanted, live)|) + [ALL_WELL];
    ReachedAndDeleted(root, wanted, live, plan, lucks);
    DeletedIsNotSpared(root, wanted, live, [root], lucks);
  }

  lemma DeletedIsNotSpared(root: Key, wanted: seq<Wanted>, live: Live, managed: seq<Key>, lucks: seq<Luck>)
    requires |lucks| == |DiffOf(wanted, live, Labels(wanted), managed)|
    requires Delete(root) in RunOutcome(DiffOf(wanted, live, Labels(wanted), managed), Models(wanted), live, lucks).log
    ensures !Spared(root, wanted, live)
  {
  }

  lemma OneRemovalRun(c: Change, models: map<Key, Wanted>, live: Live, root: Key)
    requires c == Change(Remove, root, NoLongerDeclared) && root.label_ in live.uuids && Exposed(root, live)
    ensures Delete(root) in RunOutcome([c], models, live, [ALL_WELL]).log
  {
    assert [c][1..] == [] && [ALL_WELL][1..] == [];
    assert Delete(root) in RemoveOutcome(root, live, ALL_WELL).log;
  }

  /** A subvolume with a mount at `/` is spared by the plans of a configuration, whatever is owned and
      however they turn out, exactly when it is declared, or the declarations cannot all be carried
      out, or after them a single removal of it would be refused: its last row is the one at `/`, or
      no other mounted subvolume of its filesystem contains the place that row shows, or that place or
      the name does not vet. */
  lemma SparedIff(root: Key, wanted: seq<Wanted>, live: Live)
    requires Lone(live.rows, root) && Row(root, "/") in live.rows && root.label_ in live.uuids && Probed(wanted, live)
    requires OnlyAtRoot(Models(wanted), root)
    ensures Spared(root, wanted, live) <==> root in WantedKeys(wanted) || !Reachable(root, wanted, live)
  {
    NotMounted(live.rows, root);
    if root in WantedKeys(wanted) {
      DeclaredIsSpared(root, wanted, live);
    } else if Reachable(root, wanted, live) {
      ReachableIsDeleted(root, wanted, live);
    } else {
      UnreachableIsSpared(root, wanted, live);
    }
  }

  /** With nothing left to install, that is what the probe shows already. */
  lemma SettledSparedIff(root: Key, wanted: seq<Wanted>, live: Live)
    requires Lone(live.rows, root) && Row(root, "/") in live.rows && root.label_ in live.uuids && Probed(wanted, live)
    requires OnlyAtRoot(Models(wanted), root) && Installs(wanted, live) == []
    ensures Spared(root, wanted, live) <==> root in WantedKeys(wanted) || !Exposed(root, live)
  {
    SparedIff(root, wanted, live);
    assert AfterInstalls(wanted, live) == Outcome(Ok, live, []);
  }

  // ---------------------------------------------------------------- such a run

  /** The machine: a root mounted a second time, later, below a third mount, which is declared and
      listed. */
  function TwiceMounted(root: Key, other: Key, uuid: string, outer: string, place: string): Live {
    Live(map[root.label_ := uuid], [Row(root, "/"), Row(other, outer), Row(root, place)], {root, other},
         [LineOf(Owner(other.name, uuid), outer, [])])
  }

  lemma TwiceMountedRows(root: Key, other: Key, outer: string, place: string, rows: seq<Row>)
    requires rows == [Row(root, "/"), Row(other, outer), Row(root, place)] && root != other
    ensures MountedAt(rows, root) == Some(place) && MountedAt(rows, other) == Some(outer)
    ensures Unmounted(rows, place) == [Row(root, "/"), Row(other, outer)]
    ensures MountedAt(Unmounted(rows, place), root) == Some("/")
  {
    var one, two := [Row(root, "/")], [Row(root, "/"), Row(other, outer)];
    assert rows == two + [Row(root, place)] && two == one + [Row(other, outer)] && rows[..2] == two;
    MountedAppend(two, Row(root, place), other);
    MountedAppend(one, Row(other, outer), other);
    MountedAppend(one, Row(other, outer), root);
    assert MountedAt(one, root) == Some("/");
  }

  lemma TwiceMountedProbed(root: Key, other: Key, uuid: string, outer: string, place: string, wanted: seq<Wanted>)
    requires root != other && root.label_ == other.label_ && wanted == [Wanted(other, outer, [])]
    requires Vet(root.name, place) && Vet(other.name, outer)
    ensures Probed(wanted, TwiceMounted(root, other, uuid, outer, place))
  {
    var live := TwiceMounted(root, other, uuid, outer, place);
    var r := Row(other, outer);
    assert r in live.rows && wanted[0] in wanted && other == Key(other.label_, r.key.name);
    assert DeclaredThere(wanted, other.label_, r);
    assert forall x :: x in live.rows ==> x == Row(root, "/") || x == r || x == Row(root, place);
    ProbedBy(wanted, live);
  }

  lemma TwiceMountedSettled(root: Key, other: Key, uuid: string, outer: string, place: string, wanted: seq<Wanted>)
    requires root != other && root.label_ == other.label_ && wanted == [Wanted(other, outer, [])]
    requires Vet(other.name, outer) && IsWord(uuid)
    ensures Installs(wanted, TwiceMounted(root, other, uuid, outer, place)) == []
  {
    var live := TwiceMounted(root, other, uuid, outer, place);
    var line := LineOf(Owner(other.name, uuid), outer, []);
    TwiceMountedRows(root, other, outer, place, live.rows);
    LineReadsBack(Owner(other.name, uuid), outer, []);
    assert [] + [SUBVOL + other.name] == [SUBVOL + other.name];
    assert (SUBVOL + other.name)[|SUBVOL|..] == other.name && other.name[0] != '/';
    assert [line][..0] == [] && FstabName([line], outer) == Some(other.name);
    assert wanted[1..] == [];
  }

  lemma RootAlonePlanned(root: Key, wanted: seq<Wanted>, live: Live)
    requires Installs(wanted, live) == [] && Removable(root, wanted, Labels(wanted), live)
    ensures DiffOf(wanted, live, Labels(wanted), [root]) == [Change(Remove, root, NoLongerDeclared)]
  {
    assert [root][1..] == [] && Removes([], wanted, Labels(wanted), live) == [];
  }

  lemma OneRemovalOutcome(root: Key, models: map<Key, Wanted>, live: Live, place: string)
    requires root.label_ in live.uuids && Exposed(root, live) && MountedAt(live.rows, root) == Some(place)
    ensures var o := RunOutcome([Change(Remove, root, NoLongerDeclared)], models, live, [ALL_WELL]);
            o.result.Ok? && Delete(root) in o.log && o.live == Removed(root, live, place)
  {
    var c := Change(Remove, root, NoLongerDeclared);
    assert [c][1..] == [] && [ALL_WELL][1..] == [];
    assert RemoveOutcome(root, live, ALL_WELL) == TakenOut(root, live, place, ALL_WELL);
  }

  /** A root mounted a second time, later, below a third mount: the plan of a configuration that
      declares the third mount, and does not list the root, proposes the root's removal and nothing
      else, and the apply deletes it while it is still mounted at `/`. */
  lemma HiddenRootIsDeleted(root: Key, other: Key, uuid: string, outer: string, place: string)
    requires root != other && root.label_ == other.label_ && Vet(root.name, place) && place != "/"
    requires Vet(other.name, outer) && outer != place && outer != "/" && Below(outer) <= place && IsWord(uuid)
    ensures var wanted, live := [Wanted(other, outer, [])], TwiceMounted(root, other, uuid, outer, place);
            var plan := DiffOf(wanted, live, Labels(wanted), [root]);
            && Probed(wanted, live) && plan == [Change(Remove, root, NoLongerDeclared)]
            && var o := RunOutcome(plan, Models(wanted), live, [ALL_WELL]);
               o.result.Ok? && Delete(root) in o.log && root !in o.live.existing && MountedAt(o.live.rows, root) == Some("/")
  {
    var wanted, live := [Wanted(other, outer, [])], TwiceMounted(root, other, uuid, outer, place);
    TwiceMountedProbed(root, other, uuid, outer, place, wanted);
    TwiceMountedSettled(root, other, uuid, outer, place, wanted);
    TwiceMountedRows(root, other, outer, place, live.rows);
    assert wanted[0] in wanted && other.label_ in Labels(wanted);
    RootAlonePlanned(root, wanted, live);
    assert Row(other, outer) in live.rows && Offers(live.rows, Row(other, outer), root, place);
    OneRemovalOutcome(root, Models(wanted), live, place);
  }
}
