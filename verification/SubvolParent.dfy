/** Finding the mounted subvolume a path lies in. */
module SubvolParent {
  import opened Common
  import opened SubvolState
  import opened Fstab

  function CutSlashes(s: string): (r: string)
    ensures r <= s && |r| <= |s|
  {
    if s != "" && s[|s| - 1] == '/' then CutSlashes(s[..|s| - 1]) else s
  }

  /** The path with exactly one slash at its end: what everything below it starts with. */
  function Below(mountpoint: string): string {
    CutSlashes(mountpoint) + "/"
  }

  /** The row is another subvolume's mount that contains the path. */
  predicate Contains(row: Row, key: Key, path: string) {
    row.key != key && row.mountpoint != path && (row.mountpoint == "/" || Below(row.mountpoint) <= path)
  }

  /** An absolute path without a slash at its end, except the root. */
  predicate Normal(path: string) {
    path != "" && path[0] == '/' && (|path| > 1 ==> path[|path| - 1] != '/')
  }

  lemma BelowNormal(path: string)
    requires Normal(path)
    ensures Below(path) == if path == "/" then "/" else path + "/"
  {
    if path == "/" {
      assert path[..0] == "";
    }
  }

  lemma PrefixesNest(a: string, b: string, path: string)
    requires a <= path && b <= path && |a| <= |b|
    ensures a <= b
  {
    assert a == path[..|a|] && b == path[..|b|];
  }

  /** The row is what the probe shows for its subvolume, on the same filesystem, and contains the path. */
  predicate Offers(rows: seq<Row>, row: Row, key: Key, path: string) {
    row.key.label_ == key.label_ && MountedAt(rows, row.key) == Some(row.mountpoint) && Contains(row, key, path)
  }

  predicate HasParent(rows: seq<Row>, key: Key, path: string) {
    exists r :: r in rows && Offers(rows, r, key, path)
  }

  /** Something is mounted below the path, which a mount over it would hide. */
  predicate MountedBelow(rows: seq<Row>, path: string) {
    exists r :: r in rows && Below(path) <= r.mountpoint
  }

  predicate UsualPaths(rows: seq<Row>, path: string) {
    Normal(path) && path != "/" && forall r :: r in rows ==> Normal(r.mountpoint)
  }

  /** `_parent`: refused when no other mounted subvolume contains the path; else the innermost one,
      which every other that contains the path contains too, with the rest of the path inside it. */
  method Parent(rows: seq<Row>, key: Key, path: string) returns (best: Option<Row>, rel: string)
    ensures best.Some? <==> HasParent(rows, key, path)
    ensures best.Some? ==> best.value in rows && Offers(rows, best.value, key, path)
    ensures best.Some? && UsualPaths(rows, path) ==>
      && Below(best.value.mountpoint) + rel == path && rel != ""
      && forall r :: r in rows && Offers(rows, r, key, path) ==> Below(r.mountpoint) <= Below(best.value.mountpoint)
  {
    best, rel := None, "";
    for i := 0 to |rows|
      invariant best.None? ==> forall j :: 0 <= j < i ==> !Offers(rows, rows[j], key, path)
      invariant best.Some? ==> best.value in rows && Offers(rows, best.value, key, path)
      invariant best.Some? ==> forall j :: 0 <= j < i && Offers(rows, rows[j], key, path) ==>
        |rows[j].mountpoint| <= |best.value.mountpoint|
    {
      if Offers(rows, rows[i], key, path) && (best.None? || |rows[i].mountpoint| > |best.value.mountpoint|) {
        best := Some(rows[i]);
      }
    }
    if best.Some? {
      var below := Below(best.value.mountpoint);
      rel := if |below| <= |path| then path[|below|..] else "";
      if UsualPaths(rows, path) {
        InsidePath(best.value.mountpoint, path);
        forall r | r in rows && Offers(rows, r, key, path)
          ensures Below(r.mountpoint) <= below
        {
          InsidePath(r.mountpoint, path);
          LongerBelow(r.mountpoint, best.value.mountpoint, path);
        }
      }
    }
  }

  lemma InsidePath(mp: string, path: string)
    requires Normal(mp) && Normal(path) && path != "/" && mp != path && (mp == "/" || Below(mp) <= path)
    ensures Below(mp) <= path && |Below(mp)| < |path|
  {
    BelowNormal(mp);
    var below := Below(mp);
    assert below[|below| - 1] == '/';
  }

  lemma LongerBelow(a: string, b: string, path: string)
    requires Normal(a) && Normal(b) && |a| <= |b| && Below(a) <= path && Below(b) <= path
    ensures Below(a) <= Below(b)
  {
    BelowNormal(a);
    BelowNormal(b);
    PrefixesNest(Below(a), Below(b), path);
  }
}
