/** The kernel command line action over the boot entry it rewrites. */
module KernelAction {
  import opened Text
  import opened SetMath
  import opened KernelCmdline
  import opened KernelConvergence
  import opened KernelMeaning

  function Survivors(t: string, installs: seq<string>, removes: seq<string>): seq<string> {
    if t in removes || Superseded(t, installs) then [] else [t]
  }

  lemma {:induction false} KeptSnoc(entry: seq<string>, t: string, all: seq<string>, installs: seq<string>, removes: seq<string>)
    requires all == entry + [t]
    ensures Kept(all, installs, removes) == Kept(entry, installs, removes) + Survivors(t, installs, removes)
    decreases |entry|
  {
    if entry == [] {
      assert all[1..] == [];
    } else {
      KeptSnoc(entry[1..], t, all[1..], installs, removes);
      var first, rest, end := Survivors(entry[0], installs, removes), Kept(entry[1..], installs, removes), Survivors(t, installs, removes);
      assert first + (rest + end) == first + rest + end;
    }
  }

  method KeepCurrent(entry: seq<string>, installs: seq<string>, removes: seq<string>)
    returns (current: seq<string>)
    ensures current == Kept(entry, installs, removes)
  {
    current := [];
    for i := 0 to |entry|
      invariant current == Kept(entry[..i], installs, removes)
    {
      KeptSnoc(entry[..i], entry[i], entry[..i + 1], installs, removes);
      if entry[i] !in removes && !Superseded(entry[i], installs) {
        current := current + [entry[i]];
      }
    }
    assert entry[..|entry|] == entry;
  }

  /** `_new_tokens`. */
  method NewTokenList(entry: seq<string>, changes: seq<Change>) returns (current: seq<string>)
    ensures current == NewTokens(entry, changes)
  {
    var installs := Items(changes, Install);
    current := KeepCurrent(entry, installs, Items(changes, Remove));
    for i := 0 to |installs|
      invariant AppendNew(current, installs[i..]) == NewTokens(entry, changes)
    {
      if installs[i] !in current {
        current := current + [installs[i]];
      }
    }
  }

  predicate Writable(changes: seq<Change>) {
    forall c :: c in changes && c.op == Install ==> IsWord(c.item)
  }

  lemma PlanWritable(desired: seq<string>, managed: set<string>, entry: seq<string>)
    requires forall t :: t in desired || t in entry ==> IsWord(t)
    ensures Writable(Plan(desired, managed, entry))
  {
    var p := DesiredForDiff(desired, ToSet(entry));
    forall t | t in p
      ensures IsWord(t)
    {
      var i :| 0 <= i < |p| && p[i] == t;
      if p != desired && p[i] != desired[i] {
        assert t in LiveRootflags(ToSet(entry));
      } else {
        assert t in desired;
      }
    }
    forall c | c in Plan(desired, managed, entry) && c.op == Install
      ensures c.item in p
    {
    }
  }

  class KernelCmdlineAction {
    const derived: seq<string>
    const explicit: seq<string>
    /** The parameters of the default boot entry, as written in its file. */
    var line: string

    constructor (derived: seq<string>, explicit: seq<string>, line: string)
      ensures this.derived == derived && this.explicit == explicit && this.line == line
    {
      this.derived, this.explicit, this.line := derived, explicit, line;
    }

    /** `plan`. */
    method PlanChanges(managed: set<string>) returns (changes: seq<Change>)
      ensures changes == Plan(Desired(derived, explicit), managed, Words(line))
      ensures Writable(changes)
    {
      var desired := DesiredTokens(derived, explicit);
      changes := Plan(desired, managed, Words(line));
      PlanWritable(desired, managed, Words(line));
    }

    /** `apply`: the entry's line is rewritten, and reads back as the new tokens. */
    method Apply(changes: seq<Change>)
      requires Writable(changes)
      modifies this`line
      ensures changes == [] ==> line == old(line)
      ensures changes != [] ==> Words(line) == NewTokens(Words(old(line)), changes)
    {
      if changes == [] {
        return;
      }
      var tokens := NewTokenList(Words(line), changes);
      assert forall t :: t in tokens ==> IsWord(t) by {
        assert forall t :: t in Items(changes, Install) ==> Change(Install, t) in changes;
      }
      WordsOfJoin(tokens);
      line := Join(tokens, " ");
    }

    /** Plan, apply, and record what is owned: the manifest changes only when something was
        applied. With one desired token per root key every desired token is then on the line, or a
        single `rootflags=` that says the same, and the next plan is silent. */
    method Reconcile(managed: set<string>) returns (manifest: set<string>)
      modifies this`line
      ensures Words(line) == Step(Desired(derived, explicit), managed, Words(old(line)))
      ensures OnePerRootKey(Desired(derived, explicit)) ==>
        Plan(Desired(derived, explicit), manifest, Words(line)) == []
      ensures OnePerRootKey(Desired(derived, explicit)) ==> AsDesired(Desired(derived, explicit), Words(line))
      ensures OnePerRootKey(Desired(derived, explicit)) && manifest != managed ==>
        manifest <= ToSet(Words(line))
    {
      ghost var desired := Desired(derived, explicit);
      ghost var before := Words(line);
      var changes := PlanChanges(managed);
      Apply(changes);
      manifest := managed;
      if changes != [] {
        var tokens := DesiredTokens(derived, explicit);
        manifest := ToSet(ManagedKeys(tokens, Words(line)));
      }
      if OnePerRootKey(desired) {
        SecondPlanSilent(desired, managed, before);
        StepAsDesired(desired, managed, before);
      }
    }
  }
}
