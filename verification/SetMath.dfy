/** The D/M/A set arithmetic every domain plans with (`compute_changes`). */
module SetMath {
  import opened Common

  datatype Op = Install | Remove | Modify | Create | Delete

  datatype Change = Change(op: Op, item: string)

  /** Python's order on strings: by code point, a proper prefix first. */
  predicate Leq(a: string, b: string) {
    a == "" || (b != "" && (a[0] < b[0] || (a[0] == b[0] && Leq(a[1..], b[1..]))))
  }

  lemma {:induction false} LeqTotal(a: string, b: string)
    ensures Leq(a, b) || Leq(b, a)
  {
    if a != "" && b != "" && a[0] == b[0] {
      LeqTotal(a[1..], b[1..]);
    }
  }

  lemma {:induction false} LeqAntisymmetric(a: string, b: string)
    requires Leq(a, b) && Leq(b, a)
    ensures a == b
  {
    if a != "" {
      LeqAntisymmetric(a[1..], b[1..]);
      assert a == [a[0]] + a[1..] && b == [b[0]] + b[1..];
    }
  }

  lemma {:induction false} LeqTransitive(a: string, b: string, c: string)
    requires Leq(a, b) && Leq(b, c)
    ensures Leq(a, c)
  {
    if a != "" && a[0] == b[0] && b[0] == c[0] {
      LeqTransitive(a[1..], b[1..], c[1..]);
    }
  }

  predicate IsLeast(m: string, s: set<string>) {
    m in s && forall x :: x in s ==> Leq(m, x)
  }

  lemma {:induction false} HasLeast(s: set<string>) returns (m: string)
    requires s != {}
    ensures IsLeast(m, s)
  {
    var x :| x in s;
    if s == {x} {
      LeqTotal(x, x);
      m := x;
    } else {
      var y := HasLeast(s - {x});
      LeqTotal(x, y);
      LeqTotal(x, x);
      m := if Leq(x, y) then x else y;
      forall z | z in s
        ensures Leq(m, z)
      {
        if z != x && m == x {
          LeqTransitive(x, y, z);
        }
      }
    }
  }

  /** `sorted(s)`: the elements of `s`, each once, in order. */
  function Sorted(s: set<string>): (r: seq<string>)
    ensures forall x :: x in r <==> x in s
  {
    if s == {} then
      []
    else
      assert exists m :: IsLeast(m, s) by { var m := HasLeast(s); }
      assert forall a, b :: IsLeast(a, s) && IsLeast(b, s) ==> a == b by {
        forall a, b | IsLeast(a, s) && IsLeast(b, s)
          ensures a == b
        {
          LeqAntisymmetric(a, b);
        }
      }
      var m :| IsLeast(m, s);
      [m] + Sorted(s - {m})
  }

  /** Each element once, in order. */
  lemma {:induction false} SortedStrictly(s: set<string>)
    ensures var r := Sorted(s); |r| == |s| && forall i, j :: 0 <= i < j < |r| ==> r[i] != r[j] && Leq(r[i], r[j])
  {
    if s != {} {
      var r := Sorted(s);
      var m := r[0];
      assert r == [m] + Sorted(s - {m}) && IsLeast(m, s);
      SortedStrictly(s - {m});
      var rest := Sorted(s - {m});
      forall j | 0 <= j < |rest|
        ensures rest[j] != m && Leq(m, rest[j])
      {
        assert rest[j] in rest;
      }
    }
  }

  function ToSet(xs: seq<string>): (s: set<string>)
    ensures forall x :: x in s <==> x in xs
  {
    set x | x in xs
  }

  function Tag(op: Op, items: seq<string>): (cs: seq<Change>)
    ensures |cs| == |items|
    ensures forall i :: 0 <= i < |cs| ==> cs[i] == Change(op, items[i])
    ensures forall c :: c in cs <==> c.op == op && c.item in items
  {
    if items == [] then [] else [Change(op, items[0])] + Tag(op, items[1..])
  }

  /** `compute_changes` without `forced`: the install block, then the remove block. */
  function ComputeChanges(desired: set<string>, managed: set<string>, actual: set<string>,
                          opInstall: Op, opRemove: Op): (cs: seq<Change>)
    ensures forall c :: c in cs <==>
      || (c.op == opInstall && c.item in desired - actual)
      || (c.op == opRemove && c.item in managed - desired)
  {
    var installs := Sorted(desired - actual);
    var removes := Sorted(managed - desired);
    Tag(opInstall, installs) + Tag(opRemove, removes)
  }

  lemma SubsetSize<T>(a: set<T>, b: set<T>)
    requires a <= b
    ensures |a| <= |b|
  {
    assert b == a + (b - a);
  }

  lemma TagOnce(op: Op, items: seq<string>)
    requires NoRepeats(items)
    ensures NoRepeats(Tag(op, items))
  {
    var cs := Tag(op, items);
    forall i, j | 0 <= i < j < |cs|
      ensures cs[i] != cs[j]
    {
      assert cs[i] == Change(op, items[i]) && cs[j] == Change(op, items[j]);
    }
  }

  lemma AppendOnce(a: seq<Change>, b: seq<Change>)
    requires NoRepeats(a) && NoRepeats(b) && forall c :: c in a ==> c !in b
    ensures NoRepeats(a + b)
  {
    var ab := a + b;
    forall i, j | 0 <= i < j < |ab|
      ensures ab[i] != ab[j]
    {
      if j < |a| {
        assert ab[i] == a[i] && ab[j] == a[j];
      } else if i < |a| {
        assert ab[i] == a[i] && ab[i] in a && ab[j] == b[j - |a|] && ab[j] in b;
      } else {
        assert ab[i] == b[i - |a|] && ab[j] == b[j - |a|];
      }
    }
  }

  /** `compute_changes` with `forced`: what is declared off goes too if it is there, once. */
  function ComputeForced(desired: set<string>, managed: set<string>, actual: set<string>, forced: set<string>,
                         opInstall: Op, opRemove: Op): (cs: seq<Change>)
    ensures forall c :: c in cs <==>
      || (c.op == opInstall && c.item in desired - actual)
      || (c.op == opRemove && (c.item in managed - desired || c.item in forced * actual))
  {
    ComputeChanges(desired, managed, actual, opInstall, opRemove)
    + Tag(opRemove, Sorted((forced * actual) - (managed - desired)))
  }

  /** Present, neither declared nor owned nor declared off: reported, never touched. */
  function Drift(desired: set<string>, managed: set<string>, actual: set<string>, forced: set<string>): seq<string> {
    Sorted(actual - desired - managed - forced)
  }

  /** With nothing declared off the two agree. */
  lemma NothingForced(desired: set<string>, managed: set<string>, actual: set<string>, opInstall: Op, opRemove: Op)
    ensures ComputeForced(desired, managed, actual, {}, opInstall, opRemove)
         == ComputeChanges(desired, managed, actual, opInstall, opRemove)
  {
    assert ({} * actual) - (managed - desired) == {};
  }

  /** Whatever is on the machine stays as declared, is removed, or is drift, and never two of these:
      nobody else's item is planned away. */
  lemma ActualAccounted(desired: set<string>, managed: set<string>, actual: set<string>, forced: set<string>,
                        opInstall: Op, opRemove: Op, x: string)
    requires opInstall != opRemove && desired !! forced && x in actual
    ensures var removed := Change(opRemove, x) in ComputeForced(desired, managed, actual, forced, opInstall, opRemove);
            var drift := x in Drift(desired, managed, actual, forced);
            && Change(opInstall, x) !in ComputeForced(desired, managed, actual, forced, opInstall, opRemove)
            && (x in desired || removed || drift)
            && !(x in desired && removed) && !(x in desired && drift) && !(removed && drift)
  {
  }

  /** The installs come first, and each block is sorted. */
  lemma PlannedInOrder(desired: set<string>, managed: set<string>, actual: set<string>, opInstall: Op, opRemove: Op, i: nat, j: nat)
    requires opInstall != opRemove && i < j < |ComputeChanges(desired, managed, actual, opInstall, opRemove)|
    ensures var cs := ComputeChanges(desired, managed, actual, opInstall, opRemove);
            && (cs[i].op == opRemove ==> cs[j].op == opRemove)
            && (cs[i].op == cs[j].op ==> Leq(cs[i].item, cs[j].item))
  {
    SortedStrictly(desired - actual);
    SortedStrictly(managed - desired);
    TwoBlocks(opInstall, opRemove, Sorted(desired - actual), Sorted(managed - desired), i, j);
  }

  predicate Ascending(xs: seq<string>) {
    forall i, j :: 0 <= i < j < |xs| ==> Leq(xs[i], xs[j])
  }

  lemma TwoBlocks(opInstall: Op, opRemove: Op, installs: seq<string>, removes: seq<string>, i: nat, j: nat)
    requires opInstall != opRemove && Ascending(installs) && Ascending(removes) && i < j < |installs| + |removes|
    ensures var cs := Tag(opInstall, installs) + Tag(opRemove, removes);
            && (cs[i].op == opRemove ==> cs[j].op == opRemove)
            && (cs[i].op == cs[j].op ==> Leq(cs[i].item, cs[j].item))
  {
    var n := |installs|;
    if i < n && j < n {
      assert Leq(installs[i], installs[j]);
    } else if i >= n {
      assert Leq(removes[i - n], removes[j - n]);
    }
  }

  /** No change is planned twice. */
  lemma NothingTwice(desired: set<string>, managed: set<string>, actual: set<string>, opInstall: Op, opRemove: Op)
    requires opInstall != opRemove
    ensures NoRepeats(ComputeChanges(desired, managed, actual, opInstall, opRemove))
  {
    var installs, removes := Sorted(desired - actual), Sorted(managed - desired);
    SortedStrictly(desired - actual);
    SortedStrictly(managed - desired);
    TagOnce(opInstall, installs);
    TagOnce(opRemove, removes);
    AppendOnce(Tag(opInstall, installs), Tag(opRemove, removes));
  }

  lemma NothingLeftIff(a: set<string>, b: set<string>)
    ensures a - b == {} <==> a <= b
  {
    forall x | x in a
      ensures x in b || x in a - b
    {
    }
  }

  lemma EmptyIff(desired: set<string>, managed: set<string>, actual: set<string>, opInstall: Op, opRemove: Op)
    ensures ComputeChanges(desired, managed, actual, opInstall, opRemove) == []
       <==> desired - actual == {} && managed - desired == {}
  {
    var cs := ComputeChanges(desired, managed, actual, opInstall, opRemove);
    if cs != [] {
      assert cs[0] in cs;
    }
    if desired - actual != {} {
      var x :| x in desired - actual;
      assert Change(opInstall, x) in cs;
    }
    if managed - desired != {} {
      var x :| x in managed - desired;
      assert Change(opRemove, x) in cs;
    }
  }

  /** What dasik does not own is never planned away. */
  lemma PlanSilentIff(desired: set<string>, managed: set<string>, actual: set<string>,
                      opInstall: Op, opRemove: Op)
    ensures ComputeChanges(desired, managed, actual, opInstall, opRemove) == []
       <==> desired <= actual && managed <= desired
  {
    EmptyIff(desired, managed, actual, opInstall, opRemove);
    NothingLeftIff(desired, actual);
    NothingLeftIff(managed, desired);
  }

  /** REMOVE as README.md:70-71 writes it: owned and still on the machine. */
  function DocumentedRemovals(desired: set<string>, managed: set<string>, actual: set<string>): set<string> {
    (managed * actual) - desired
  }

  /** The code removes `managed - desired`, whether or not the item is still there, so the
      documented removals are what it plans exactly when nothing owned has vanished. */
  lemma RemovalsMatchDocumentationIff(desired: set<string>, managed: set<string>, actual: set<string>)
    ensures (forall x :: Change(Remove, x) in ComputeChanges(desired, managed, actual, Install, Remove)
                    <==> x in DocumentedRemovals(desired, managed, actual))
       <==> managed - desired <= actual
  {
    var cs := ComputeChanges(desired, managed, actual, Install, Remove);
    if !(managed - desired <= actual) {
      var x :| x in managed - desired && x !in actual;
      assert Change(Remove, x) in cs;
      assert x !in DocumentedRemovals(desired, managed, actual);
    }
  }
}
