/** Exactly when the subvolume plan converges: names shared across filesystems are what keeps it from
    doing so. */
module SubvolDiverge {
  import opened Common
  import opened Text
  import opened Fstab
  import opened SubvolState
  import opened SubvolProbe
  import opened SubvolParent
  import opened SubvolApply
  import opened SubvolConverge

  // ---------------------------------------------------------------- a machine as declared

  /** The declaration is not at `/` and its filesystem is mounted. */
  predicate Sits(w: Wanted, uuids: map<string, string>) {
    w.mountpoint != "/" && w.key.label_ in uuids
  }

  /** Every such declaration mounted where it is declared. */
  function RowsOf(ws: seq<Wanted>, uuids: map<string, string>): seq<Row> {
    if ws == [] then []
    else
      var last := ws[|ws| - 1];
      RowsOf(ws[..|ws| - 1], uuids) + if Sits(last, uuids) then [Row(last.key, last.mountpoint)] else []
  }

  /** One line for every declaration `tag` gives a filesystem. */
  function LinesFor(ws: seq<Wanted>, tag: Wanted -> Option<string>): seq<string> {
    if ws == [] then []
    else
      var last := ws[|ws| - 1];
      LinesFor(ws[..|ws| - 1], tag) + if tag(last).Some? then [TaggedLine(last, tag)] else []
  }

  function TaggedLine(w: Wanted, tag: Wanted -> Option<string>): string
    requires tag(w).Some?
  {
    LineOf(Owner(w.key.name, tag(w).value), w.mountpoint, [])
  }

  predicate Unique(ws: seq<Wanted>) {
    forall i, j :: 0 <= i < j < |ws| ==> ws[i].key != ws[j].key && ws[i].mountpoint != ws[j].mountpoint
  }

  lemma UniqueLast(ws: seq<Wanted>)
    requires ws != [] && Unique(ws)
    ensures Unique(ws[..|ws| - 1])
    ensures forall w :: w in ws[..|ws| - 1] ==> w.key != ws[|ws| - 1].key && w.mountpoint != ws[|ws| - 1].mountpoint
  {
    var front := ws[..|ws| - 1];
    forall w | w in front
      ensures w.key != ws[|ws| - 1].key && w.mountpoint != ws[|ws| - 1].mountpoint
    {
      var i :| 0 <= i < |front| && front[i] == w;
      assert ws[i] == w;
    }
  }

  lemma {:induction false} RowsTidy(ws: seq<Wanted>, uuids: map<string, string>)
    requires Unique(ws)
    ensures Tidy(RowsOf(ws, uuids))
    ensures forall r :: r in RowsOf(ws, uuids) ==> exists w :: w in ws && Sits(w, uuids) && r == Row(w.key, w.mountpoint)
    ensures forall w :: w in ws && Sits(w, uuids) ==> Row(w.key, w.mountpoint) in RowsOf(ws, uuids)
  {
    if ws != [] {
      var front, last := ws[..|ws| - 1], ws[|ws| - 1];
      assert ws == front + [last];
      UniqueLast(ws);
      RowsTidy(front, uuids);
      TidySnoc(RowsOf(front, uuids), Row(last.key, last.mountpoint));
    }
  }

  lemma TidyShown(rows: seq<Row>, row: Row)
    requires Tidy(rows) && row in rows
    ensures MountedAt(rows, row.key) == Some(row.mountpoint)
  {
    NotMounted(rows, row.key);
    var i := MountedRow(rows, row.key);
    var j :| 0 <= j < |rows| && rows[j] == row;
  }

  /** What a line without options of its own reads as. */
  lemma BareLine(owner: Owner, mountpoint: string)
    requires Vet(owner.name, mountpoint) && IsWord(owner.uuid)
    ensures var e := ReadEntry(LineOf(owner, mountpoint, []));
            e == Some(Entry("UUID=" + owner.uuid, mountpoint, Some([SUBVOL + owner.name])))
    ensures SubvolOption([SUBVOL + owner.name]) == owner.name && owner.name != ""
    ensures NamesOne(LineOf(owner, mountpoint, [])) && '\n' !in LineOf(owner, mountpoint, [])
  {
    LineReadsBack(owner, mountpoint, []);
    LineNamesOne(owner, mountpoint, []);
    assert [] + [SUBVOL + owner.name] == [SUBVOL + owner.name];
    assert (SUBVOL + owner.name)[|SUBVOL|..] == owner.name && owner.name[0] != '/';
  }

  predicate GoodTags(ws: seq<Wanted>, tag: Wanted -> Option<string>) {
    forall w :: w in ws && tag(w).Some? ==> Vet(w.key.name, w.mountpoint) && IsWord(tag(w).value)
  }

  lemma {:induction false} InLines(ws: seq<Wanted>, tag: Wanted -> Option<string>, l: string)
    ensures l in LinesFor(ws, tag) <==> exists w :: w in ws && tag(w).Some? && l == TaggedLine(w, tag)
  {
    if ws != [] {
      var front, last := ws[..|ws| - 1], ws[|ws| - 1];
      assert ws == front + [last];
      InLines(front, tag, l);
    }
  }

  /** The parsed map is that of the tagged declarations. */
  ghost predicate MapsTo(m: map<string, string>, ws: seq<Wanted>, tag: Wanted -> Option<string>) {
    && (forall w :: w in ws && tag(w).Some? ==> w.mountpoint in m && m[w.mountpoint] == w.key.name)
    && (forall p :: p in m ==> exists w :: w in ws && tag(w).Some? && w.mountpoint == p)
  }

  lemma MapsToLast(m: map<string, string>, ws: seq<Wanted>, tag: Wanted -> Option<string>, last: Wanted)
    requires MapsTo(m, ws, tag) && forall w :: w in ws ==> w.mountpoint != last.mountpoint
    ensures MapsTo(if tag(last).Some? then m[last.mountpoint := last.key.name] else m, ws + [last], tag)
  {
    var all, now := ws + [last], if tag(last).Some? then m[last.mountpoint := last.key.name] else m;
    forall p | p in now
      ensures exists w :: w in all && tag(w).Some? && w.mountpoint == p
    {
      if p in m {
        var w :| w in ws && tag(w).Some? && w.mountpoint == p;
        assert w in all;
      } else {
        assert last in all && last.mountpoint == p;
      }
    }
  }

  lemma TaggedParses(before: seq<string>, w: Wanted, tag: Wanted -> Option<string>)
    requires tag(w).Some? && Vet(w.key.name, w.mountpoint) && IsWord(tag(w).value)
    ensures Parse(before + [TaggedLine(w, tag)]) == Parse(before)[w.mountpoint := w.key.name]
  {
    BareLine(Owner(w.key.name, tag(w).value), w.mountpoint);
    assert (before + [TaggedLine(w, tag)])[..|before|] == before;
  }

  lemma {:induction false} LinesParse(ws: seq<Wanted>, tag: Wanted -> Option<string>)
    requires Unique(ws) && GoodTags(ws, tag)
    ensures MapsTo(Parse(LinesFor(ws, tag)), ws, tag)
  {
    if ws != [] {
      var front, last := ws[..|ws| - 1], ws[|ws| - 1];
      assert ws == front + [last];
      UniqueLast(ws);
      LinesParse(front, tag);
      var before := LinesFor(front, tag);
      MapsToLast(Parse(before), front, tag, last);
      if tag(last).Some? {
        TaggedParses(before, last, tag);
      } else {
        assert before + [] == before;
      }
    }
  }

  lemma LinesRegular(ws: seq<Wanted>, tag: Wanted -> Option<string>)
    requires GoodTags(ws, tag)
    ensures forall l :: l in LinesFor(ws, tag) ==> NamesOne(l) && '\n' !in l
  {
    forall l | l in LinesFor(ws, tag)
      ensures NamesOne(l) && '\n' !in l
    {
      InLines(ws, tag, l);
      var w :| w in ws && tag(w).Some? && l == TaggedLine(w, tag);
      BareLine(Owner(w.key.name, tag(w).value), w.mountpoint);
    }
  }

  // ---------------------------------------------------------------- plans of one item

  lemma {:induction false} OneInstall(ws: seq<Wanted>, live: Live, b: Wanted)
    requires Unique(ws) && forall w :: w in ws && w != b ==> PlanFor(w, live) == []
    ensures Installs(ws, live) == if b in ws then PlanFor(b, live) else []
  {
    if ws != [] {
      var rest := ws[1..];
      assert forall i :: 0 <= i < |rest| ==> rest[i] == ws[i + 1];
      OneInstall(rest, live, b);
      if ws[0] == b {
        assert b !in rest;
        assert PlanFor(b, live) + [] == PlanFor(b, live);
      }
    }
  }

  lemma {:induction false} OneRemoval(managed: seq<Key>, wanted: seq<Wanted>, labels: set<string>, live: Live, k: Key)
    requires NoRepeats(managed) && forall o :: o in managed && o != k ==> !Removable(o, wanted, labels, live)
    requires Removable(k, wanted, labels, live)
    ensures Removes(managed, wanted, labels, live) == if k in managed then [Change(Remove, k, NoLongerDeclared)] else []
  {
    if managed != [] {
      var rest := managed[1..];
      assert forall i :: 0 <= i < |rest| ==> rest[i] == managed[i + 1];
      OneRemoval(rest, wanted, labels, live, k);
      if managed[0] == k {
        assert k !in rest;
      }
    }
  }

  lemma NoneRemoved(managed: seq<Key>, wanted: seq<Wanted>, labels: set<string>, live: Live)
    requires live.existing <= WantedKeys(wanted)
    ensures Removes(managed, wanted, labels, live) == []
  {
    RemovesEmptyIff(managed, wanted, labels, live);
  }

  /** Every machine the probe can show and every way a plan for it is carried out ends, as long as the
      probe then still finds the same filesystems, with nothing left to plan. */
  ghost predicate Converges(wanted: seq<Wanted>, managed: seq<Key>) {
    forall live, lucks ::
      Probed(wanted, live) && CarriedOut(wanted, managed, Labels(wanted), live, Models(wanted), lucks)
      && Probed(wanted, Left(wanted, managed, live, lucks)) ==>
        NextPlan(wanted, managed, Labels(wanted), live, Models(wanted), lucks) == []
  }

  /** The machine a carried-out plan leaves. */
  function Left(wanted: seq<Wanted>, managed: seq<Key>, live: Live, lucks: seq<Luck>): Live
    requires |lucks| == |DiffOf(wanted, live, Labels(wanted), managed)|
  {
    RunOutcome(DiffOf(wanted, live, Labels(wanted), managed), Models(wanted), live, lucks).live
  }

  // ---------------------------------------------------------------- machines the probe can show

  /** The row is a declared subvolume where it is declared. */
  predicate AsDeclared(ws: seq<Wanted>, r: Row) {
    exists w :: w in ws && r == Row(w.key, w.mountpoint)
  }

  /** Mounts as declared, but for mounts at `top` of a subvolume nobody could declare. */
  predicate MostlyDeclared(ws: seq<Wanted>, rows: seq<Row>) {
    forall r :: r in rows ==> AsDeclared(ws, r) || ('/' in r.key.name && r.key.name[0] != '/' && r.mountpoint == "/")
  }

  lemma NobodyMistaken(ws: seq<Wanted>, rows: seq<Row>)
    requires Declarable(ws) && MostlyDeclared(ws, rows)
    ensures Unmistaken(ws, rows)
  {
    forall r, l | r in rows && l in Labels(ws) && DeclaredThere(ws, l, r)
      ensures l == r.key.label_
    {
      var w :| w in ws && w.key == Key(l, r.key.name) && w.mountpoint == r.mountpoint;
      assert '/' !in w.key.name;
      var v :| v in ws && r == Row(v.key, v.mountpoint);
      if v != w {
        OneEach(ws, v, w);
      }
    }
  }

  lemma AllListed(ws: seq<Wanted>, rows: seq<Row>, uuids: map<string, string>, existing: set<Key>)
    requires Declarable(ws) && MostlyDeclared(ws, rows) && WantedKeys(ws) <= existing
    ensures Listable(rows, uuids, existing)
  {
    forall r | r in rows && AsDeclared(ws, r)
      ensures r.key in existing && r.key.name != "" && '/' !in r.key.name && r.mountpoint != "" && r.mountpoint[0] == '/'
    {
      var w :| w in ws && r == Row(w.key, w.mountpoint);
      assert w.key in WantedKeys(ws);
    }
  }

  lemma ClaimedFirst(ws: seq<Wanted>, rows: seq<Row>, w: Wanted)
    requires w in ws && Row(w.key, w.mountpoint) in rows
    ensures w.key.label_ in Labels(ws) && w.key.label_ in First(ws, rows, w.key.label_)
  {
    var r := Row(w.key, w.mountpoint);
    assert w.key == Key(w.key.label_, r.key.name);
    assert DeclaredThere(ws, w.key.label_, r);
  }

  lemma ModelOf(ws: seq<Wanted>, w: Wanted)
    requires Declarable(ws) && w in ws
    ensures w.key in Models(ws) && Models(ws)[w.key] == w && ModelsOf(Models(ws), ws)
  {
    ModelsAre(ws);
    assert w.key in WantedKeys(ws);
    var v := Models(ws)[w.key];
    if v != w {
      OneEach(ws, v, w);
    }
  }

  lemma OneItemRun(c: Change, models: map<Key, Wanted>, live: Live, luck: Luck)
    ensures RunOutcome([c], models, live, [luck]).live == ItemOutcome(c, models, live, luck).live
    ensures RunOutcome([c], models, live, [luck]).result == ItemOutcome(c, models, live, luck).result
  {
    assert [c][1..] == [] && [luck][1..] == [];
  }

  // ---------------------------------------------------------------- two declarations of one name

  /** The filesystem each line names: `a`'s names that of `b`, and `b` has none. */
  function SwappedTag(a: Wanted, b: Wanted): Wanted -> Option<string> {
    (w: Wanted) =>
      if w == b || w.mountpoint == "/" then None
      else if w == a || w.key.label_ == b.key.label_ then Some("b")
      else if w.key.label_ == a.key.label_ then Some("a")
      else None
  }

  /** Everything is mounted as declared; the line at `a`'s place is one of `b`'s filesystem. */
  function Swapped(wanted: seq<Wanted>, a: Wanted, b: Wanted): Live {
    var uuids := map[a.key.label_ := "a", b.key.label_ := "b"];
    Live(uuids, RowsOf(wanted, uuids), WantedKeys(wanted), LinesFor(wanted, SwappedTag(a, b)))
  }

  /** What a plan reads of the machine: every declaration sits, and all but those of `missing` are
      listed. */
  ghost predicate Seated(wanted: seq<Wanted>, live: Live, missing: set<Wanted>) {
    && Regular(live)
    && (forall w :: w in wanted && Concerned(w, live) ==> MountedAt(live.rows, w.key) == Some(w.mountpoint))
    && (forall w :: w in wanted && Concerned(w, live) ==>
         if w in missing then FstabName(live.lines, w.mountpoint).None?
         else FstabName(live.lines, w.mountpoint) == Some(w.key.name))
  }

  lemma TagsListed(wanted: seq<Wanted>, tag: Wanted -> Option<string>, w: Wanted)
    requires Declarable(wanted) && GoodTags(wanted, tag) && w in wanted
    ensures FstabName(LinesFor(wanted, tag), w.mountpoint) == if tag(w).Some? then Some(w.key.name) else None
  {
    LinesParse(wanted, tag);
    forall x | x in wanted && tag(x).Some? && x.mountpoint == w.mountpoint
      ensures x == w
    {
      if x != w {
        OneEach(wanted, x, w);
      }
    }
  }

  lemma SwappedTagged(wanted: seq<Wanted>, live: Live, a: Wanted, b: Wanted, tag: Wanted -> Option<string>)
    requires Declarable(wanted) && live.uuids == map[a.key.label_ := "a", b.key.label_ := "b"] && tag == SwappedTag(a, b)
    ensures GoodTags(wanted, tag) && forall u :: u in live.uuids.Values ==> IsWord(u)
    ensures forall w :: w in wanted && Concerned(w, live) ==> Sits(w, live.uuids) && (tag(w).None? <==> w == b)
  {
    assert IsWord("a") && IsWord("b");
  }

  lemma SwappedSeated(wanted: seq<Wanted>, a: Wanted, b: Wanted, tag: Wanted -> Option<string>)
    requires Declarable(wanted) && Planned(a, wanted) && Planned(b, wanted) && a.key.label_ != b.key.label_
    requires tag == SwappedTag(a, b)
    ensures GoodTags(wanted, tag) && Seated(wanted, Swapped(wanted, a, b), {b})
  {
    var live := Swapped(wanted, a, b);
    SwappedTagged(wanted, live, a, b, tag);
    RowsTidy(wanted, live.uuids);
    LinesRegular(wanted, tag);
    forall w | w in wanted && Concerned(w, live)
      ensures MountedAt(live.rows, w.key) == Some(w.mountpoint)
      ensures FstabName(live.lines, w.mountpoint) == if w == b then None else Some(w.key.name)
    {
      TidyShown(live.rows, Row(w.key, w.mountpoint));
      TagsListed(wanted, tag, w);
    }
  }

  lemma OneMissing(wanted: seq<Wanted>, managed: seq<Key>, labels: set<string>, live: Live, b: Wanted)
    requires Declarable(wanted) && Seated(wanted, live, {b}) && b in wanted && Concerned(b, live) && live.existing == WantedKeys(wanted)
    ensures DiffOf(wanted, live, labels, managed) == [Change(Install, b.key, AddLine)]
  {
    OneInstall(wanted, live, b);
    NoneRemoved(managed, wanted, labels, live);
  }

  /** The line at `a`'s place goes with the lines of `b`'s subvolume. */
  lemma SwappedDropped(wanted: seq<Wanted>, a: Wanted, b: Wanted, tag: Wanted -> Option<string>, l: string)
    requires Declarable(wanted) && a in wanted && tag(a) == Some("b") && a.key.name == b.key.name
    requires GoodTags(wanted, tag) && l in LinesFor(wanted, tag) && Dropped(l, a.mountpoint, None)
    ensures Dropped(l, b.mountpoint, Some(Owner(b.key.name, "b")))
  {
    InLines(wanted, tag, l);
    var w :| w in wanted && tag(w).Some? && l == TaggedLine(w, tag);
    BareLine(Owner(w.key.name, tag(w).value), w.mountpoint);
    if w != a {
      OneEach(wanted, w, a);
    }
    assert SUBVOL + b.key.name in [SUBVOL + a.key.name];
  }

  /** With such lines, writing the line of `b` leaves none at `a`'s place. */
  lemma PlaceLost(live: Live, a: Wanted, b: Wanted)
    requires Regular(live) && b.key.label_ in live.uuids && Vet(b.key.name, b.mountpoint) && PlainOptions(b.options)
    requires a.mountpoint != b.mountpoint && MountedAt(live.rows, b.key) == Some(b.mountpoint)
    requires forall l :: l in live.lines && Dropped(l, a.mountpoint, None) ==> Dropped(l, b.mountpoint, Some(OwnerOf(b, live)))
    ensures FstabName(Installed(b, live).lines, a.mountpoint).None?
  {
    assert live.uuids[b.key.label_] in live.uuids.Values;
    InstallLines(b, live);
    var kept := Without(live.lines, b.mountpoint, Some(OwnerOf(b, live)));
    WithoutSublist(live.lines, b.mountpoint, Some(OwnerOf(b, live)));
    NotParsed(kept, a.mountpoint);
    AppendElsewhere(kept, b, live, a.mountpoint);
  }

  /** A plan of one item, carried out, after which a declaration is not settled. */
  lemma OneItemDiverges(wanted: seq<Wanted>, managed: seq<Key>, live: Live, c: Change, now: Live, a: Wanted)
    requires Regular(live) && Probed(wanted, live) && Probed(wanted, now) && ModelsOf(Models(wanted), wanted)
    requires DiffOf(wanted, live, Labels(wanted), managed) == [c]
    requires ItemOutcome(c, Models(wanted), live, ALL_WELL).result.Ok? && ItemOutcome(c, Models(wanted), live, ALL_WELL).live == now
    requires a in wanted && Concerned(a, now) && !Settled(a, now)
    ensures !Converges(wanted, managed)
  {
    OneItemRun(c, Models(wanted), live, ALL_WELL);
    EmptyIffConverged(wanted, now, Labels(wanted), managed);
    assert CarriedOut(wanted, managed, Labels(wanted), live, Models(wanted), [ALL_WELL]);
    assert Left(wanted, managed, live, [ALL_WELL]) == now;
    assert NextPlan(wanted, managed, Labels(wanted), live, Models(wanted), [ALL_WELL]) != [];
  }

  /** Only the lines differ. */
  lemma StillProbed(wanted: seq<Wanted>, live: Live, now: Live)
    requires Probed(wanted, live) && now.uuids == live.uuids && now.rows == live.rows
    requires forall r :: r in live.rows && '/' !in r.key.name && r.key in live.existing ==> r.key in now.existing
    ensures Probed(wanted, now)
  {
  }

  lemma LineAdded(b: Wanted, live: Live, models: map<Key, Wanted>)
    requires b.key.label_ in live.uuids && MountedAt(live.rows, b.key) == Some(b.mountpoint)
    requires b.key in models && models[b.key] == b && b.mountpoint != "/" && Vet(b.key.name, b.mountpoint)
    ensures ItemOutcome(Change(Install, b.key, AddLine), models, live, ALL_WELL) == Outcome(Ok, Installed(b, live), [])
    ensures Installed(b, live).rows == live.rows && Installed(b, live).existing == live.existing
  {
  }

  lemma SwappedProbed(wanted: seq<Wanted>, a: Wanted, b: Wanted, live: Live)
    requires Declarable(wanted) && Planned(a, wanted) && Planned(b, wanted)
    requires live.uuids == map[a.key.label_ := "a", b.key.label_ := "b"] && live.rows == RowsOf(wanted, live.uuids)
    requires live.existing == WantedKeys(wanted)
    ensures Probed(wanted, live)
  {
    RowsTidy(wanted, live.uuids);
    NobodyMistaken(wanted, live.rows);
    AllListed(wanted, live.rows, live.uuids, live.existing);
    ClaimedFirst(wanted, live.rows, a);
    ClaimedFirst(wanted, live.rows, b);
    ProbedBy(wanted, live);
  }

  /** Two declared subvolumes of one name, on two filesystems: a line of the wrong filesystem
      satisfies the plan for the one, and writing the line of the other deletes it. */
  lemma SharedNameDiverges(wanted: seq<Wanted>, managed: seq<Key>, a: Wanted, b: Wanted)
    requires Declarable(wanted) && Planned(a, wanted) && Planned(b, wanted) && a != b && a.key.name == b.key.name
    ensures !Converges(wanted, managed)
  {
    var live, tag := Swapped(wanted, a, b), SwappedTag(a, b);
    OneEach(wanted, a, b);
    SwappedSeated(wanted, a, b, tag);
    SwappedProbed(wanted, a, b, live);
    OneMissing(wanted, managed, Labels(wanted), live, b);
    forall l | l in live.lines && Dropped(l, a.mountpoint, None)
      ensures Dropped(l, b.mountpoint, Some(OwnerOf(b, live)))
    {
      SwappedDropped(wanted, a, b, tag, l);
    }
    PlaceLost(live, a, b);
    ModelOf(wanted, b);
    LineAdded(b, live, Models(wanted));
    StillProbed(wanted, live, Installed(b, live));
    OneItemDiverges(wanted, managed, live, Change(Install, b.key, AddLine), Installed(b, live), a);
  }

  // ---------------------------------------------------------------- a name left over on another filesystem

  function OwnTag(a: string, b: string): Wanted -> Option<string> {
    (w: Wanted) =>
      if w.mountpoint == "/" then None
      else if w.key.label_ == b then Some("b")
      else if w.key.label_ == a then Some("a")
      else None
  }

  /** The declaration at `/`, if the label has one. */
  function RootOf(ws: seq<Wanted>, label_: string): Option<Key> {
    if ws == [] then None
    else
      var last := ws[|ws| - 1];
      if last.key.label_ == label_ && last.mountpoint == "/" then Some(last.key) else RootOf(ws[..|ws| - 1], label_)
  }

  lemma {:induction false} RootOfIs(ws: seq<Wanted>, label_: string)
    ensures match RootOf(ws, label_)
            case None => forall w :: w in ws && w.key.label_ == label_ ==> w.mountpoint != "/"
            case Some(key) => key.label_ == label_ && exists w :: w in ws && w.key == key && w.mountpoint == "/"
  {
    if ws != [] {
      var front, last := ws[..|ws| - 1], ws[|ws| - 1];
      assert ws == front + [last];
      RootOfIs(front, label_);
    }
  }

  /** What is mounted at `/`: the subvolume the label declares there, else a snapshot of its root. */
  function TopOf(ws: seq<Wanted>, label_: string): Row {
    match RootOf(ws, label_)
    case None => Row(Key(label_, "snapshots/1"), "/")
    case Some(key) => Row(key, "/")
  }

  /** Everything is mounted and listed as declared, `k` exists and is not mounted, and its filesystem
      has a subvolume at `/`. */
  function LeftOver(wanted: seq<Wanted>, a: Wanted, k: Key): Live {
    var uuids := map[a.key.label_ := "a", k.label_ := "b"];
    Live(uuids, RowsOf(wanted, uuids) + [TopOf(wanted, k.label_)], WantedKeys(wanted) + {k},
         LinesFor(wanted, OwnTag(a.key.label_, k.label_)))
  }

  /** The setting of a declared and an orphaned subvolume of one name. */
  ghost predicate Shares(wanted: seq<Wanted>, managed: seq<Key>, a: Wanted, k: Key) {
    && Declarable(wanted) && NoRepeats(managed) && Planned(a, wanted) && Orphan(k, wanted, managed, Labels(wanted))
    && a.key.name == k.name
    && forall x, y :: x in wanted && y in wanted && Planned(x, wanted) && Planned(y, wanted) && x.key.name == y.key.name ==> x == y
  }

  /** The mount at `/` is of another key and place than every planned declaration, and of another
      key than `k`. */
  lemma TopApart(wanted: seq<Wanted>, k: Key, top: Row, w: Wanted)
    requires Declarable(wanted) && k !in WantedKeys(wanted) && '/' !in k.name && top == TopOf(wanted, k.label_)
    ensures top.key != k && top.key.label_ == k.label_ && top.mountpoint == "/"
    ensures w in wanted && w.mountpoint != "/" ==> w.key != top.key
  {
    RootOfIs(wanted, k.label_);
    match RootOf(wanted, k.label_) {
      case None =>
        var name := "snapshots/1";
        assert name[9] == '/';
        assert w in wanted ==> '/' !in w.key.name;
      case Some(key) =>
        var r :| r in wanted && r.key == key && r.mountpoint == "/";
        assert key in WantedKeys(wanted);
        if w in wanted && w.mountpoint != "/" {
          OneEach(wanted, r, w);
        }
    }
  }

  lemma LeftOverRows(wanted: seq<Wanted>, managed: seq<Key>, a: Wanted, k: Key)
    requires Shares(wanted, managed, a, k)
    ensures var live := LeftOver(wanted, a, k);
            && a.key.label_ != k.label_ && Tidy(live.rows)
            && (forall w :: w in wanted && Sits(w, live.uuids) ==> MountedAt(live.rows, w.key) == Some(w.mountpoint))
            && MountedAt(live.rows, k).None? && HasParent(live.rows, k, a.mountpoint)
  {
    var live := LeftOver(wanted, a, k);
    var top := TopOf(wanted, k.label_);
    var rows := RowsOf(wanted, live.uuids);
    assert a.key in WantedKeys(wanted);
    assert a.key.label_ != k.label_;
    RowsTidy(wanted, live.uuids);
    TopApart(wanted, k, top, a);
    forall r | r in rows
      ensures r.key != top.key && r.mountpoint != top.mountpoint && r.key != k
    {
      var w :| w in wanted && Sits(w, live.uuids) && r == Row(w.key, w.mountpoint);
      assert w.key in WantedKeys(wanted);
      TopApart(wanted, k, top, w);
    }
    TidySnoc(rows, top);
    forall w | w in wanted && Sits(w, live.uuids)
      ensures MountedAt(live.rows, w.key) == Some(w.mountpoint)
    {
      TidyShown(live.rows, Row(w.key, w.mountpoint));
    }
    NotMounted(live.rows, k);
    TidyShown(live.rows, top);
    assert Offers(live.rows, top, k, a.mountpoint);
  }

  /** The filesystem of `k` is claimed: by the subvolume declared at `/`, or by another. */
  lemma LeftOverClaimed(wanted: seq<Wanted>, k: Key, uuids: map<string, string>, rows: seq<Row>)
    requires Declarable(wanted) && k.label_ in Labels(wanted) && k.label_ in uuids
    requires rows == RowsOf(wanted, uuids) + [TopOf(wanted, k.label_)]
    ensures k.label_ in First(wanted, rows, k.label_)
    ensures AsDeclared(wanted, TopOf(wanted, k.label_)) || TopOf(wanted, k.label_) == Row(Key(k.label_, "snapshots/1"), "/")
  {
    RowsTidy(wanted, uuids);
    RootOfIs(wanted, k.label_);
    match RootOf(wanted, k.label_) {
      case None =>
        var w :| w in wanted && w.key.label_ == k.label_;
        ClaimedFirst(wanted, rows, w);
      case Some(key) =>
        var w :| w in wanted && w.key == key && w.mountpoint == "/";
        ClaimedFirst(wanted, rows, w);
    }
  }

  lemma LeftOverProbed(wanted: seq<Wanted>, managed: seq<Key>, a: Wanted, k: Key, live: Live)
    requires Shares(wanted, managed, a, k) && live == LeftOver(wanted, a, k)
    ensures Probed(wanted, live)
  {
    LeftOverClaimed(wanted, k, live.uuids, live.rows);
    LeftOverMostly(wanted, k, live.uuids, live.rows);
    RowsTidy(wanted, live.uuids);
    ClaimedFirst(wanted, live.rows, a);
    NobodyMistaken(wanted, live.rows);
    AllListed(wanted, live.rows, live.uuids, live.existing);
    ProbedBy(wanted, live);
  }

  lemma LeftOverMostly(wanted: seq<Wanted>, k: Key, uuids: map<string, string>, rows: seq<Row>)
    requires Declarable(wanted) && k.label_ in Labels(wanted) && k.label_ in uuids
    requires rows == RowsOf(wanted, uuids) + [TopOf(wanted, k.label_)]
    ensures MostlyDeclared(wanted, rows) && forall r :: r in rows ==> r.key.label_ in uuids
  {
    RowsTidy(wanted, uuids);
    LeftOverClaimed(wanted, k, uuids, rows);
    RootOfIs(wanted, k.label_);
    var name := "snapshots/1";
    assert name[9] == '/';
    forall r | r in RowsOf(wanted, uuids)
      ensures AsDeclared(wanted, r) && r.key.label_ in uuids
    {
      var w :| w in wanted && Sits(w, uuids) && r == Row(w.key, w.mountpoint);
    }
  }

  /** Rows and lines that put every declaration of the mounted filesystems where it belongs. */
  lemma SeatedBy(wanted: seq<Wanted>, live: Live, tag: Wanted -> Option<string>)
    requires Declarable(wanted) && GoodTags(wanted, tag) && live.lines == LinesFor(wanted, tag) && Tidy(live.rows)
    requires forall u :: u in live.uuids.Values ==> IsWord(u)
    requires forall w :: w in wanted && Concerned(w, live) ==> MountedAt(live.rows, w.key) == Some(w.mountpoint) && tag(w).Some?
    ensures Seated(wanted, live, {})
  {
    LinesRegular(wanted, tag);
    forall w | w in wanted && Concerned(w, live)
      ensures FstabName(live.lines, w.mountpoint) == Some(w.key.name)
    {
      TagsListed(wanted, tag, w);
    }
  }

  lemma OwnTagged(wanted: seq<Wanted>, live: Live, a: string, b: string, tag: Wanted -> Option<string>)
    requires Declarable(wanted) && live.uuids == map[a := "a", b := "b"] && tag == OwnTag(a, b)
    ensures GoodTags(wanted, tag) && forall u :: u in live.uuids.Values ==> IsWord(u)
    ensures forall w :: w in wanted && Concerned(w, live) ==> Sits(w, live.uuids) && tag(w).Some?
  {
    assert IsWord("a") && IsWord("b");
  }

  lemma LeftOverSeated(wanted: seq<Wanted>, managed: seq<Key>, a: Wanted, k: Key, tag: Wanted -> Option<string>)
    requires Shares(wanted, managed, a, k) && tag == OwnTag(a.key.label_, k.label_)
    ensures GoodTags(wanted, tag) && Seated(wanted, LeftOver(wanted, a, k), {})
  {
    var live := LeftOver(wanted, a, k);
    LeftOverRows(wanted, managed, a, k);
    OwnTagged(wanted, live, a.key.label_, k.label_, tag);
    SeatedBy(wanted, live, tag);
  }

  lemma OneLeft(wanted: seq<Wanted>, managed: seq<Key>, labels: set<string>, live: Live, k: Key)
    requires Seated(wanted, live, {}) && NoRepeats(managed) && Orphan(k, wanted, managed, labels)
    requires live.existing == WantedKeys(wanted) + {k} && k.label_ in live.uuids && MountedAt(live.rows, k).None?
    ensures DiffOf(wanted, live, labels, managed) == [Change(Remove, k, NoLongerDeclared)]
  {
    InstallsEmptyIff(wanted, live);
    OneRemoval(managed, wanted, labels, live, k);
  }

  /** The shared map places the orphan at the declared subvolume's mountpoint. */
  lemma LeftOverPlace(wanted: seq<Wanted>, managed: seq<Key>, a: Wanted, k: Key, tag: Wanted -> Option<string>, lines: seq<string>)
    requires Shares(wanted, managed, a, k) && GoodTags(wanted, tag) && lines == LinesFor(wanted, tag)
    requires tag(a).Some? && forall w :: w in wanted && tag(w).Some? ==> w.mountpoint != "/"
    ensures NamedPlace(lines, k.name) == Some(a.mountpoint)
  {
    LinesParse(wanted, tag);
    NamedPlaceIs(lines, k.name);
    var p := NamedPlace(lines, k.name);
    assert a.mountpoint in Parse(lines) && Parse(lines)[a.mountpoint] == k.name;
    var w :| w in wanted && tag(w).Some? && w.mountpoint == p.value;
    assert Planned(w, wanted) && w.key.name == a.key.name;
  }

  lemma OrphanTaken(k: Key, models: map<Key, Wanted>, live: Live, place: string)
    requires k.label_ in live.uuids && MountedAt(live.rows, k).None? && NamedPlace(live.lines, k.name) == Some(place)
    requires place != "/" && Vet(k.name, place) && HasParent(live.rows, k, place)
    ensures var o := ItemOutcome(Change(Remove, k, NoLongerDeclared), models, live, ALL_WELL);
            o.result.Ok? && o.live == Removed(k, live, place)
    ensures Removed(k, live, place).rows == live.rows && Removed(k, live, place).existing == live.existing - {k}
  {
  }

  /** An owned subvolume that is no longer declared, not mounted, and called like a declared one of
      another filesystem: through the shared map it is placed at that one's mountpoint, and removing
      it deletes that one's line. */
  lemma OrphanNameDiverges(wanted: seq<Wanted>, managed: seq<Key>, a: Wanted, k: Key)
    requires Shares(wanted, managed, a, k)
    ensures !Converges(wanted, managed)
  {
    var live, tag := LeftOver(wanted, a, k), OwnTag(a.key.label_, k.label_);
    LeftOverRows(wanted, managed, a, k);
    LeftOverSeated(wanted, managed, a, k, tag);
    LeftOverProbed(wanted, managed, a, k, live);
    OneLeft(wanted, managed, Labels(wanted), live, k);
    LeftOverPlace(wanted, managed, a, k, tag, live.lines);
    OrphanTaken(k, Models(wanted), live, a.mountpoint);
    NothingInvented(live.lines, a.mountpoint, None);
    ModelOf(wanted, a);
    OrphanGone(wanted, live, k, Removed(k, live, a.mountpoint));
    OneItemDiverges(wanted, managed, live, Change(Remove, k, NoLongerDeclared), Removed(k, live, a.mountpoint), a);
  }

  lemma OrphanGone(wanted: seq<Wanted>, live: Live, k: Key, now: Live)
    requires Probed(wanted, live) && MountedAt(live.rows, k).None?
    requires now.uuids == live.uuids && now.rows == live.rows && now.existing == live.existing - {k}
    ensures Probed(wanted, now)
  {
    NotMounted(live.rows, k);
    StillProbed(wanted, live, now);
  }

  // ---------------------------------------------------------------- exactly when

  /** For vetted declarations, one per subvolume and mountpoint, the plan of every regular machine
      the probe can show converges exactly when no name is shared: not between two declarations, and
      not between a declaration and an owned subvolume no longer declared. */
  lemma ConvergesIff(wanted: seq<Wanted>, managed: seq<Key>)
    requires Declarable(wanted) && NoRepeats(managed)
    ensures Converges(wanted, managed) <==> NamesApart(wanted, managed, Labels(wanted))
  {
    if NamesApart(wanted, managed, Labels(wanted)) {
      forall live, lucks | CarriedOut(wanted, managed, Labels(wanted), live, Models(wanted), lucks)
        ensures NextPlan(wanted, managed, Labels(wanted), live, Models(wanted), lucks) == []
      {
        PlanConverges(wanted, managed, Labels(wanted), live, Models(wanted), lucks);
      }
    } else if exists a, b :: a in wanted && b in wanted && Planned(a, wanted) && Planned(b, wanted) && a.key.name == b.key.name && a != b {
      var a, b :| a in wanted && b in wanted && Planned(a, wanted) && Planned(b, wanted) && a.key.name == b.key.name && a != b;
      SharedNameDiverges(wanted, managed, a, b);
    } else {
      var a, k :| a in wanted && k in managed && Planned(a, wanted) && Orphan(k, wanted, managed, Labels(wanted)) && a.key.name == k.name;
      OrphanNameDiverges(wanted, managed, a, k);
    }
  }
}
