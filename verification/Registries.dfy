/** Converging the ordered list of search registries. */
module Registries {
  import opened Common
  import opened RegistriesFile
  import opened SetMath
  import Text

  /** The elements of `xs` that are in `s`, in order. */
  function Among(xs: seq<string>, s: set<string>): seq<string> {
    if xs == [] then [] else if xs[0] in s then [xs[0]] + Among(xs[1..], s) else Among(xs[1..], s)
  }

  /** The elements of `xs` that are not in `s`, in order. */
  function Outside(xs: seq<string>, s: set<string>): seq<string> {
    if xs == [] then [] else if xs[0] in s then Outside(xs[1..], s) else [xs[0]] + Outside(xs[1..], s)
  }

  lemma {:induction false} InAmong(xs: seq<string>, s: set<string>, x: string)
    ensures x in Among(xs, s) <==> x in xs && x in s
  {
    if xs != [] {
      InAmong(xs[1..], s, x);
      assert x in xs <==> x == xs[0] || x in xs[1..];
    }
  }

  lemma {:induction false} InOutside(xs: seq<string>, s: set<string>, x: string)
    ensures x in Outside(xs, s) <==> x in xs && x !in s
  {
    if xs != [] {
      InOutside(xs[1..], s, x);
      assert x in xs <==> x == xs[0] || x in xs[1..];
    }
  }

  /** `_reorder`. */
  function Reorder(desired: seq<string>, actual: seq<string>): seq<Change> {
    if desired == [] || Among(actual, ToSet(desired)) == desired then []
    else [Change(Modify, Text.Join(desired, ", "))]
  }

  /** `plan`. */
  function PlanOf(desired: seq<string>, managed: set<string>, actual: seq<string>): seq<Change> {
    var changes := ComputeChanges(ToSet(desired), managed, ToSet(actual), Create, Remove);
    if changes != [] then changes else Reorder(desired, actual)
  }

  function Removed(changes: seq<Change>): set<string> {
    set c | c in changes && c.op == Remove :: c.item
  }

  predicate Acts(changes: seq<Change>) {
    exists c :: c in changes && c.op in {Create, Remove, Modify}
  }

  lemma OutsideStep(xs: seq<string>, s: set<string>, i: nat)
    requires i < |xs|
    ensures Outside(xs[i..], s) == (if xs[i] in s then [] else [xs[i]]) + Outside(xs[i + 1..], s)
  {
    assert xs[i..][1..] == xs[i + 1..];
  }

  /** The comprehension in `_merge`. */
  method Keep(actual: seq<string>, desired: seq<string>, removes: set<string>) returns (kept: seq<string>)
    ensures kept == Outside(actual, removes + ToSet(desired))
  {
    kept := [];
    ghost var gone := removes + ToSet(desired);
    for i := 0 to |actual|
      invariant kept + Outside(actual[i..], gone) == Outside(actual, gone)
    {
      OutsideStep(actual, gone, i);
      if actual[i] !in removes && actual[i] !in desired {
        kept := kept + [actual[i]];
      }
    }
  }

  class ContainerRegistriesAction {
    const header: Comments
    const desired: seq<string>
    var file: Option<string>

    constructor (header: Comments, desired: seq<string>, file: Option<string>)
      ensures this.header == header && this.desired == desired && this.file == file
    {
      this.header, this.desired, this.file := header, desired, file;
    }

    /** `plan`. */
    method Plan(managed: set<string>) returns (changes: seq<Change>)
      ensures changes == PlanOf(desired, managed, Listed(file))
    {
      var actual := Listed(file);
      changes := ComputeChanges(ToSet(desired), managed, ToSet(actual), Create, Remove);
      if changes == [] {
        changes := Reorder(desired, actual);
      }
    }

    /** `_merge`: the declared order, then whatever else the file listed and nobody removes. */
    method Merge(removes: set<string>) returns (entries: seq<string>)
      ensures entries == desired + Outside(Listed(file), removes + ToSet(desired))
    {
      var kept := Keep(Listed(file), desired, removes);
      entries := desired + kept;
    }

    /** `apply`. */
    method Apply(changes: seq<Change>)
      modifies this
      ensures file == if !Acts(changes) then old(file)
                      else Written(header, desired + Outside(Listed(old(file)), Removed(changes) + ToSet(desired)))
    {
      if !Acts(changes) {
        return;
      }
      var entries := Merge(Removed(changes));
      file := Written(header, entries);
    }

    /** Plan, apply, and plan again with what dasik then owns. The file lists the declared entries in
        their order, then, in their old order, those neither declared nor removed; and the second
        plan is empty exactly when the file can carry every declared entry. */
    method Reconcile(managed: set<string>) returns (next: seq<Change>)
      modifies this
      ensures (forall e :: e in desired ==> Clean(e)) ==>
        Listed(file) == (if PlanOf(desired, managed, Listed(old(file))) == [] then Listed(old(file))
                         else desired + Outside(Listed(old(file)), managed + ToSet(desired)))
      ensures next == [] <==> forall e :: e in desired ==> Clean(e)
    {
      var before := Listed(file);
      var changes := Plan(managed);
      Apply(changes);
      next := Plan(ToSet(desired));
      ListedClean(old(file));
      ListedClean(file);
      PlanActs(desired, managed, before);
      if changes == [] {
        PlanOfSilentIff(desired, managed, before);
        PlanOfSilentIff(desired, ToSet(desired), before);
      } else {
        RemovedOf(desired, managed, before);
        AfterApply(header, desired, before, Removed(changes));
      }
    }
  }

  // ---------------------------------------------------------------- what a plan holds

  /** Silent exactly when the file lists the declared entries, in order and once per declaration,
      and nothing owned is undeclared. */
  lemma PlanOfSilentIff(desired: seq<string>, managed: set<string>, actual: seq<string>)
    ensures PlanOf(desired, managed, actual) == [] <==> Among(actual, ToSet(desired)) == desired && managed <= ToSet(desired)
  {
    PlanSilentIff(ToSet(desired), managed, ToSet(actual), Create, Remove);
    if Among(actual, ToSet(desired)) == desired {
      forall x | x in desired
        ensures x in actual
      {
        InAmong(actual, ToSet(desired), x);
      }
    }
    if desired == [] {
      AmongNone(actual, ToSet(desired));
    }
  }

  lemma PlanActs(desired: seq<string>, managed: set<string>, actual: seq<string>)
    ensures Acts(PlanOf(desired, managed, actual)) <==> PlanOf(desired, managed, actual) != []
  {
    var changes := PlanOf(desired, managed, actual);
    if changes != [] {
      assert changes[0] in changes;
    }
  }

  lemma RemovedOf(desired: seq<string>, managed: set<string>, actual: seq<string>)
    ensures Removed(PlanOf(desired, managed, actual)) <= managed - ToSet(desired)
    ensures PlanOf(desired, managed, actual) != [] ==>
      Outside(actual, Removed(PlanOf(desired, managed, actual)) + ToSet(desired)) == Outside(actual, managed + ToSet(desired))
  {
    var changes := PlanOf(desired, managed, actual);
    if changes != [] {
      var computed := ComputeChanges(ToSet(desired), managed, ToSet(actual), Create, Remove);
      if computed != [] {
        forall x | x in managed - ToSet(desired)
          ensures x in Removed(changes)
        {
          assert Change(Remove, x) in changes;
        }
        assert Removed(changes) + ToSet(desired) == managed + ToSet(desired);
      } else {
        PlanSilentIff(ToSet(desired), managed, ToSet(actual), Create, Remove);
        assert Removed(changes) == {};
        assert managed + ToSet(desired) == {} + ToSet(desired);
      }
    }
  }

  lemma {:induction false} AmongAppend(a: seq<string>, b: seq<string>, ab: seq<string>, s: set<string>)
    requires ab == a + b
    ensures Among(ab, s) == Among(a, s) + Among(b, s)
  {
    if a == [] {
      assert ab == b;
    } else {
      AmongAppend(a[1..], b, ab[1..], s);
      assert ab[0] == a[0];
    }
  }

  lemma {:induction false} AmongAll(xs: seq<string>, s: set<string>)
    requires forall x :: x in xs ==> x in s
    ensures Among(xs, s) == xs
  {
    if xs != [] {
      AmongAll(xs[1..], s);
    }
  }

  lemma {:induction false} AmongNone(xs: seq<string>, s: set<string>)
    requires forall x :: x in xs ==> x !in s
    ensures Among(xs, s) == []
  {
    if xs != [] {
      AmongNone(xs[1..], s);
    }
  }

  /** What the next plan makes of a file just written. */
  lemma {:induction false} AfterApply(header: Comments, desired: seq<string>, before: seq<string>, removes: set<string>)
    requires forall e :: e in before ==> Clean(e)
    ensures var entries := desired + Outside(before, removes + ToSet(desired));
            var after := Listed(Written(header, entries));
            && ((forall e :: e in desired ==> Clean(e)) ==> after == entries)
            && (PlanOf(desired, ToSet(desired), after) == [] <==> forall e :: e in desired ==> Clean(e))
  {
    var kept := Outside(before, removes + ToSet(desired));
    var entries := desired + kept;
    var after := Listed(Written(header, entries));
    forall e
      ensures e in kept <==> e in before && e !in removes + ToSet(desired)
    {
      InOutside(before, removes + ToSet(desired), e);
    }
    WrittenReadsBackIff(header, entries);
    ListedClean(Written(header, entries));
    PlanOfSilentIff(desired, ToSet(desired), after);
    if forall e :: e in desired ==> Clean(e) {
      AmongAppend(desired, kept, entries, ToSet(desired));
      AmongAll(desired, ToSet(desired));
      AmongNone(kept, ToSet(desired));
    } else {
      var e :| e in desired && !Clean(e);
      assert e !in after;
      InAmong(after, ToSet(desired), e);
    }
  }
}
