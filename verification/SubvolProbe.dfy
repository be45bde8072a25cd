/** Which mounted filesystem belongs to which declared partition (`_live`), and the machines such a
    probe can show. A row carries the label of the filesystem it really is on. */
module SubvolProbe {
  import opened Common
  import opened SubvolState

  /** The labels of the partitions that declare subvolumes. */
  function Labels(wanted: seq<Wanted>): set<string> {
    set w | w in wanted :: w.key.label_
  }

  /** The row looks like a subvolume the partition declares, at its declared mountpoint. */
  predicate DeclaredThere(wanted: seq<Wanted>, label_: string, r: Row) {
    exists w :: w in wanted && w.key == Key(label_, r.key.name) && w.mountpoint == r.mountpoint
  }

  /** The first pass: the filesystems that carry a declared subvolume at its declared mountpoint. */
  function First(wanted: seq<Wanted>, rows: seq<Row>, label_: string): set<string> {
    set r | r in rows && DeclaredThere(wanted, label_, r) :: r.key.label_
  }

  function Claimed(wanted: seq<Wanted>, rows: seq<Row>): set<string> {
    set r, l | r in rows && l in Labels(wanted) && DeclaredThere(wanted, l, r) :: r.key.label_
  }

  /** All names the partition declares are mounted from the filesystem. */
  predicate AllThere(wanted: seq<Wanted>, rows: seq<Row>, label_: string, fs: string) {
    forall w :: w in wanted && w.key.label_ == label_ ==> Mounts(rows, Key(fs, w.key.name))
  }

  predicate Mounts(rows: seq<Row>, key: Key) {
    exists r :: r in rows && r.key == key
  }

  /** The second pass, when every declared subvolume is somewhere else: filesystems nobody claims that
      mount all declared names. */
  function Fallback(wanted: seq<Wanted>, rows: seq<Row>, label_: string, claimed: set<string>): set<string> {
    set r | r in rows && r.key.label_ !in claimed && AllThere(wanted, rows, label_, r.key.label_) :: r.key.label_
  }

  function Matches(wanted: seq<Wanted>, rows: seq<Row>, label_: string): set<string> {
    var first := First(wanted, rows, label_);
    if first != {} then first else Fallback(wanted, rows, label_, Claimed(wanted, rows))
  }

  /** The partition's filesystem is found, and it is this one: several matches are none. */
  predicate Finds(wanted: seq<Wanted>, rows: seq<Row>, label_: string, fs: string) {
    Matches(wanted, rows, label_) == {fs}
  }

  /** The two passes of `_live`. */
  method Find(wanted: seq<Wanted>, labels: seq<string>, rows: seq<Row>) returns (found: map<string, string>)
    requires forall l :: l in labels <==> l in Labels(wanted)
    ensures forall l :: l in found ==> l in labels && Finds(wanted, rows, l, found[l])
    ensures forall l, fs :: l in labels && Finds(wanted, rows, l, fs) ==> l in found
  {
    var first, claimed := FirstPass(wanted, labels, rows);
    found := map[];
    for i := 0 to |labels|
      invariant forall l :: l in found ==> l in labels && Finds(wanted, rows, l, found[l])
      invariant forall l, fs :: l in labels[..i] && Finds(wanted, rows, l, fs) ==> l in found
    {
      var l := labels[i];
      assert labels[..i + 1] == labels[..i] + [l];
      var uuids := if first[l] != {} then first[l] else Fallback(wanted, rows, l, claimed);
      assert uuids == Matches(wanted, rows, l);
      if uuids == {} {
        continue;
      }
      var fs :| fs in uuids;
      if uuids == {fs} {
        found := found[l := fs];
      }
    }
    assert labels[..|labels|] == labels;
  }

  method FirstPass(wanted: seq<Wanted>, labels: seq<string>, rows: seq<Row>)
    returns (first: map<string, set<string>>, claimed: set<string>)
    requires forall l :: l in labels <==> l in Labels(wanted)
    ensures first.Keys == Labels(wanted) && claimed == Claimed(wanted, rows)
    ensures forall l :: l in first ==> first[l] == First(wanted, rows, l)
  {
    first, claimed := map[], {};
    for i := 0 to |labels|
      invariant first.Keys == set l | l in labels[..i]
      invariant forall l :: l in first ==> first[l] == First(wanted, rows, l)
      invariant claimed == set r, l | r in rows && l in labels[..i] && DeclaredThere(wanted, l, r) :: r.key.label_
    {
      var here := First(wanted, rows, labels[i]);
      assert labels[..i + 1] == labels[..i] + [labels[i]];
      first := first[labels[i] := here];
      claimed := claimed + here;
    }
    assert labels[..|labels|] == labels;
  }

  /** A machine the probe can show for the declarations: it finds exactly the filesystems of the
      labels the plan sees, and no foreign one; no mount is of the top level itself; and the listing
      of a filesystem names every top-level subvolume that is mounted. */
  ghost predicate Probed(wanted: seq<Wanted>, live: Live) {
    && (forall l :: l in live.uuids <==> l in Labels(wanted) && Finds(wanted, live.rows, l, l))
    && (forall l, fs :: l in Labels(wanted) && Finds(wanted, live.rows, l, fs) ==> fs == l)
    && Listable(live.rows, live.uuids, live.existing)
  }

  predicate Listable(rows: seq<Row>, uuids: map<string, string>, existing: set<Key>) {
    forall r :: r in rows ==>
      && r.key.name != "" && r.key.name[0] != '/'
      && r.mountpoint != "" && r.mountpoint[0] == '/'
      && (r.key.label_ in uuids && '/' !in r.key.name ==> r.key in existing)
  }

  /** No filesystem mounts what looks like a declared subvolume of another. */
  predicate Unmistaken(wanted: seq<Wanted>, rows: seq<Row>) {
    forall r, l :: r in rows && l in Labels(wanted) && DeclaredThere(wanted, l, r) ==> l == r.key.label_
  }

  /** With every mounted filesystem claimed by a declared subvolume of its own, the probe finds those
      filesystems and nothing else. */
  lemma ProbedBy(wanted: seq<Wanted>, live: Live)
    requires Unmistaken(wanted, live.rows) && Listable(live.rows, live.uuids, live.existing)
    requires forall r :: r in live.rows ==> r.key.label_ in live.uuids
    requires forall l :: l in live.uuids ==> l in Labels(wanted) && l in First(wanted, live.rows, l)
    ensures Probed(wanted, live)
  {
    forall l | l in Labels(wanted)
      ensures Matches(wanted, live.rows, l) == if l in live.uuids then {l} else {}
    {
      assert First(wanted, live.rows, l) <= {l};
      forall r | r in live.rows
        ensures r.key.label_ in Claimed(wanted, live.rows)
      {
        assert r.key.label_ in First(wanted, live.rows, r.key.label_);
      }
      assert Fallback(wanted, live.rows, l, Claimed(wanted, live.rows)) == {};
    }
    forall l, fs | l in Labels(wanted) && Finds(wanted, live.rows, l, fs)
      ensures fs == l && l in live.uuids
    {
      assert fs in Matches(wanted, live.rows, l);
    }
  }

  // ---------------------------------------------------------------- the declarations by key

  /** `apply`'s table: the last declaration of a key. */
  function Models(wanted: seq<Wanted>): map<Key, Wanted> {
    if wanted == [] then map[]
    else
      var last := wanted[|wanted| - 1];
      Models(wanted[..|wanted| - 1])[last.key := last]
  }

  lemma {:induction false} ModelsAre(wanted: seq<Wanted>)
    ensures Models(wanted).Keys == WantedKeys(wanted)
    ensures forall k :: k in Models(wanted) ==> Models(wanted)[k] in wanted && Models(wanted)[k].key == k
  {
    if wanted != [] {
      var front, last := wanted[..|wanted| - 1], wanted[|wanted| - 1];
      ModelsAre(front);
      assert wanted == front + [last];
    }
  }
}
