/** The kernel command line plan and apply in the configuration's own tokens. */
module KernelMeaning {
  import opened Text
  import opened SetMath
  import opened MountOptions
  import opened KernelCmdline
  import opened KernelConvergence

  // ---------------------------------------------------------------- the root's mount options

  /** The entry carries one `rootflags=` token, and it says what `d` says, option by option. */
  ghost predicate SaysTheSame(entry: seq<string>, d: string)
    requires IsRootflags(d)
  {
    exists a :: OnlyRootflags(entry, a) && SettingsOf(FlagsValue(a)) == SettingsOf(FlagsValue(d))
  }

  /** Of `rootflags=` tokens the entry carries `a` and no other. */
  predicate OnlyRootflags(entry: seq<string>, a: string) {
    a in entry && IsRootflags(a) && forall t :: t in entry && IsRootflags(t) ==> t == a
  }

  lemma OnlyIsLive(entry: seq<string>, a: string)
    ensures OnlyRootflags(entry, a) <==> LiveRootflags(ToSet(entry)) == {a}
  {
    if LiveRootflags(ToSet(entry)) == {a} {
      assert a in LiveRootflags(ToSet(entry));
      forall t | t in entry && IsRootflags(t)
        ensures t == a
      {
        assert t in LiveRootflags(ToSet(entry));
      }
    }
  }

  lemma DesiredFlags(desired: seq<string>, d: string)
    requires OnePerRootKey(desired) && d in desired && IsRootflags(d)
    ensures FirstRootflags(desired) == d
  {
    SameFlags(FirstRootflags(desired), d);
  }

  /** The comparison puts the entry's own token `a` in the place of `d`. */
  ghost predicate Adopted(desired: seq<string>, entry: seq<string>, d: string, a: string)
    requires IsRootflags(d)
  {
    && OnlyRootflags(entry, a) && SettingsOf(FlagsValue(a)) == SettingsOf(FlagsValue(d))
    && a in DesiredForDiff(desired, ToSet(entry)) && (a != d ==> d !in DesiredForDiff(desired, ToSet(entry)))
  }

  /** It does so when that says the same. */
  lemma ComparedSame(desired: seq<string>, entry: seq<string>, d: string) returns (a: string)
    requires OnePerRootKey(desired) && d in desired && IsRootflags(d) && SaysTheSame(entry, d)
    ensures Adopted(desired, entry, d, a)
  {
    a :| OnlyRootflags(entry, a) && SettingsOf(FlagsValue(a)) == SettingsOf(FlagsValue(d));
    DesiredFlags(desired, d);
    OnlyIsLive(entry, a);
    EquivalentIffSameSettings(FlagsValue(d), FlagsValue(a));
    var i :| 0 <= i < |desired| && desired[i] == d;
    assert a != d ==> Replace(desired, d, a)[i] == a;
  }

  /** Otherwise it compares the desired tokens as they are. */
  lemma ComparedOther(desired: seq<string>, entry: seq<string>, d: string)
    requires OnePerRootKey(desired) && d in desired && IsRootflags(d) && !SaysTheSame(entry, d)
    ensures DesiredForDiff(desired, ToSet(entry)) == desired
  {
    var live := LiveRootflags(ToSet(entry));
    DesiredFlags(desired, d);
    if |live| == 1 {
      var a := Only(live);
      OnlyIsLive(entry, a);
      EquivalentIffSameSettings(FlagsValue(d), FlagsValue(a));
    }
  }

  /** A desired `rootflags=` token is planned exactly when the entry does not carry a single one that
      says the same. */
  lemma RootflagsPlannedIff(desired: seq<string>, managed: set<string>, entry: seq<string>, d: string)
    requires OnePerRootKey(desired) && d in desired && IsRootflags(d)
    ensures Change(Install, d) in Plan(desired, managed, entry) <==> !SaysTheSame(entry, d)
  {
    var p := DesiredForDiff(desired, ToSet(entry));
    PlanItems(desired, managed, entry);
    assert Change(Install, d) in Plan(desired, managed, entry) <==> d in Items(Plan(desired, managed, entry), Install);
    if SaysTheSame(entry, d) {
      var a := ComparedSame(desired, entry, d);
      OnlyIsLive(entry, a);
    } else {
      ComparedOther(desired, entry, d);
      NotAloneIsPlanned(entry, d);
    }
  }

  lemma NotAloneIsPlanned(entry: seq<string>, d: string)
    requires IsRootflags(d) && !SaysTheSame(entry, d)
    ensures d !in ActualForDiff(ToSet(entry))
  {
    var live := LiveRootflags(ToSet(entry));
    if d in live && |live| <= 1 {
      SetMath.SubsetSize({d}, live);
      OneElement(live, d);
      OnlyIsLive(entry, d);
    }
  }

  lemma OneElement(s: set<string>, d: string)
    requires d in s && |s| == 1
    ensures s == {d}
  {
    assert Only(s) in s;
    assert s == {Only(s)};
  }

  /** After a step the entry's only `rootflags=` says what the desired one says. */
  lemma RootflagsAfter(desired: seq<string>, managed: set<string>, entry: seq<string>, d: string)
    requires OnePerRootKey(desired) && d in desired && IsRootflags(d)
    ensures SaysTheSame(Step(desired, managed, entry), d)
  {
    var p := DesiredForDiff(desired, ToSet(entry));
    var after := Step(desired, managed, entry);
    if SaysTheSame(entry, d) {
      var a := ComparedSame(desired, entry, d);
      OneRootflagsLeft(desired, managed, entry, a);
      OnlyIsLive(after, a);
    } else {
      ComparedOther(desired, entry, d);
      OneRootflagsLeft(desired, managed, entry, d);
      OnlyIsLive(after, d);
    }
  }

  // ---------------------------------------------------------------- every other token

  lemma OtherCompared(desired: seq<string>, entry: seq<string>, t: string)
    requires !IsRootflags(t)
    ensures t in DesiredForDiff(desired, ToSet(entry)) <==> t in desired
    ensures t in ActualForDiff(ToSet(entry)) <==> t in entry
  {
    var p := DesiredForDiff(desired, ToSet(entry));
    if t in desired {
      StillDesired(desired, ToSet(entry), t);
    }
    if t in p && p != desired {
      var i :| 0 <= i < |p| && p[i] == t;
      assert Only(LiveRootflags(ToSet(entry))) in LiveRootflags(ToSet(entry));
      assert desired[i] in desired;
    }
  }

  /** Any other token is planned exactly when it is desired and not on the entry. */
  lemma OthersPlannedIff(desired: seq<string>, managed: set<string>, entry: seq<string>, t: string)
    requires !IsRootflags(t)
    ensures Change(Install, t) in Plan(desired, managed, entry) <==> t in desired && t !in entry
  {
    PlanItems(desired, managed, entry);
    OtherCompared(desired, entry, t);
    var cs := Plan(desired, managed, entry);
    assert Change(Install, t) in cs <==> t in Items(cs, Install);
  }

  /** The five names that say where the root is and how it is mounted. */
  predicate RootName(name: string) {
    name == "root" || name == "rootflags" || name == "rootfstype" || name == "rw" || name == "ro"
  }

  lemma RootNames(t: string)
    ensures DefinesRoot(t) <==> RootName(TokenName(t))
  {
  }

  /** A token is removed exactly when it is owned, no longer desired, and not of those names. */
  lemma OthersRemovedIff(desired: seq<string>, managed: set<string>, entry: seq<string>, t: string)
    requires !IsRootflags(t)
    ensures Change(Remove, t) in Plan(desired, managed, entry) <==> t in managed && t !in desired && !RootName(TokenName(t))
  {
    PlanItems(desired, managed, entry);
    OtherCompared(desired, entry, t);
    RootNames(t);
    var cs := Plan(desired, managed, entry);
    assert Change(Remove, t) in cs <==> t in Items(cs, Remove);
  }

  /** A `rootflags=` token is never removed by name: only one that takes its place pushes it off. */
  lemma RootflagsNeverRemoved(desired: seq<string>, managed: set<string>, entry: seq<string>, t: string)
    requires IsRootflags(t)
    ensures Change(Remove, t) !in Plan(desired, managed, entry)
  {
    RootflagsKey(t);
  }

  /** After a step every other desired token is on the entry. */
  lemma OthersInstalled(desired: seq<string>, managed: set<string>, entry: seq<string>, t: string)
    requires OnePerRootKey(desired) && t in desired && !IsRootflags(t)
    ensures t in Step(desired, managed, entry)
  {
    DesiredIsInstalled(desired, managed, entry);
    OtherCompared(desired, entry, t);
    assert t in ToSet(DesiredForDiff(desired, ToSet(entry)));
  }

  /** The entry carries every desired token, or, for `rootflags=`, a single one that says the same. */
  ghost predicate AsDesired(desired: seq<string>, entry: seq<string>) {
    forall t :: t in desired ==> if IsRootflags(t) then SaysTheSame(entry, t) else t in entry
  }

  lemma StepAsDesired(desired: seq<string>, managed: set<string>, entry: seq<string>)
    requires OnePerRootKey(desired)
    ensures AsDesired(desired, Step(desired, managed, entry))
  {
    forall t | t in desired
      ensures if IsRootflags(t) then SaysTheSame(Step(desired, managed, entry), t) else t in Step(desired, managed, entry)
    {
      if IsRootflags(t) {
        RootflagsAfter(desired, managed, entry, t);
      } else {
        OthersInstalled(desired, managed, entry, t);
      }
    }
  }

  /** What dasik was not asked about stays: a token that is not owned, and that no desired one takes
      the place of. */
  lemma ForeignStays(desired: seq<string>, managed: set<string>, entry: seq<string>, t: string)
    requires t in entry && t !in managed && !IsRootflags(t)
    requires forall d :: d in desired ==> !SameRootKey(d, t)
    ensures t in Step(desired, managed, entry)
  {
    var cs := Plan(desired, managed, entry);
    var installs := Items(cs, Install);
    PlanItems(desired, managed, entry);
    StepTokens(desired, managed, entry, t);
    forall i | i in installs
      ensures !SameRootKey(i, t)
    {
      if IsRootflags(i) {
        RootflagsKey(i);
        NotRwRo(i);
        OtherFlagsName(desired, entry, i, t);
      } else {
        OtherCompared(desired, entry, i);
      }
    }
    if Superseded(t, installs) {
      var i := Superseder(t, installs);
    }
  }

  lemma OtherFlagsName(desired: seq<string>, entry: seq<string>, i: string, t: string)
    requires i in DesiredForDiff(desired, ToSet(entry)) && IsRootflags(i)
    requires forall d :: d in desired ==> !SameRootKey(d, t)
    ensures TokenName(t) != "rootflags"
  {
    var p := DesiredForDiff(desired, ToSet(entry));
    var k :| 0 <= k < |p| && p[k] == i;
    var d := if IsRootflags(desired[k]) then desired[k] else FirstRootflags(desired);
    assert d in desired && IsRootflags(d);
    RootflagsKey(d);
  }

  lemma Superseder(t: string, installs: seq<string>) returns (i: string)
    requires Superseded(t, installs)
    ensures i in installs && SameRootKey(i, t)
  {
    if i' :| i' in installs && TokenName(i') in ROOT_KEYED && TokenName(i') == TokenName(t) {
      i := i';
    } else {
      i :| i in installs && i in RW_RO;
    }
  }

  /** An owned token that is no longer desired is gone, unless it says where the root is. */
  lemma DroppedGoes(desired: seq<string>, managed: set<string>, entry: seq<string>, t: string)
    requires !IsRootflags(t) && t in managed && t !in desired && !DefinesRoot(t)
    ensures t !in Step(desired, managed, entry)
  {
    PlanItems(desired, managed, entry);
    OtherCompared(desired, entry, t);
    StepTokens(desired, managed, entry, t);
    assert t in Items(Plan(desired, managed, entry), Remove);
  }

  // ---------------------------------------------------------------- the merge

  /** The derived parameter gives way to the explicit one: they have one name, or are `rw` and `ro`.
      Repeatable ones give way only to themselves. */
  predicate GivesWay(derived: string, explicit: string) {
    if TokenName(derived) in REPEATABLE then derived == explicit
    else TokenName(derived) == TokenName(explicit) || (TokenName(derived) in RW_RO && TokenName(explicit) in RW_RO)
  }

  /** A parameter is merged exactly when it is explicit, or derived and no explicit one takes its place. */
  lemma MergedIff(auto: seq<string>, explicit: seq<string>, p: string)
    ensures p in Merged(auto, explicit) <==> p in explicit || (p in auto && forall e :: e in explicit ==> !GivesWay(p, e))
  {
    InMerged(auto, explicit, p);
    forall e | e in explicit
      ensures MergeKey(e) == MergeKey(p) <==> GivesWay(p, e)
    {
      OneMergeKey(p, e);
    }
    if MergeKey(p) in MergeKeys(explicit) {
      var e :| e in explicit && MergeKey(e) == MergeKey(p);
    }
  }

  lemma OneMergeKey(p: string, e: string)
    ensures MergeKey(e) == MergeKey(p) <==> GivesWay(p, e)
  {
    if TokenName(p) in REPEATABLE && TokenName(e) !in REPEATABLE {
      KeysApart(p, e);
    } else if TokenName(p) !in REPEATABLE && TokenName(e) in REPEATABLE {
      KeysApart(e, p);
    } else if TokenName(p) !in REPEATABLE {
      PlainKey(p);
      PlainKey(e);
    }
  }

  function PlainName(t: string): string {
    if TokenName(t) == "rw" || TokenName(t) == "ro" then "rw" else TokenName(t)
  }

  lemma PlainKey(t: string)
    requires TokenName(t) !in REPEATABLE
    ensures MergeKey(t) == PlainName(t)
  {
    assert "rw" !in REPEATABLE;
  }

  /** A repeatable parameter's key is no name of another. */
  lemma KeysApart(p: string, e: string)
    requires TokenName(p) in REPEATABLE && TokenName(e) !in REPEATABLE
    ensures MergeKey(p) != MergeKey(e) && !GivesWay(p, e) && !GivesWay(e, p)
  {
    PlainKey(e);
    RepeatableIsKey(p);
    if '=' !in p {
      FlagName(p);
    }
  }

  lemma RepeatableIsKey(p: string)
    requires TokenName(p) in REPEATABLE
    ensures MergeKey(p) == p && TokenName(p) !in RW_RO && p != "rw"
  {
    FlagName("rw");
  }

  /** The merged parameters are the explicit ones in their order, then derived ones in theirs. */
  lemma MergedInOrder(auto: seq<string>, explicit: seq<string>)
    ensures explicit <= Merged(auto, explicit)
    ensures Subsequence(Merged(auto, explicit)[|explicit|..], auto)
  {
    UnclaimedInOrder(auto, MergeKeys(explicit));
  }

  lemma {:induction false} UnclaimedInOrder(auto: seq<string>, keys: set<string>)
    ensures Subsequence(Unclaimed(auto, keys), auto)
  {
    if auto != [] {
      var rest := Unclaimed(auto[1..], keys);
      UnclaimedInOrder(auto[1..], keys);
      SubFirst(auto[0], rest, auto[1..], auto);
      assert [] + rest == rest;
    }
  }

  // ---------------------------------------------------------------- the order of the entry

  /** `kept` is the entry's own, in its order and each as often. */
  ghost predicate StandAsBefore(kept: seq<string>, entry: seq<string>) {
    Subsequence(kept, entry) && forall t :: t in kept ==> multiset(kept)[t] == multiset(entry)[t]
  }

  /** `added` was planned, is new to what was kept, and stands there once. */
  ghost predicate StandOnce(added: seq<string>, kept: seq<string>, planned: seq<string>) {
    Subsequence(added, planned) && forall i :: 0 <= i < |added| ==> added[i] !in kept && added[i] !in added[..i]
  }

  lemma {:induction false} KeptAsOften(entry: seq<string>, installs: seq<string>, removes: seq<string>, t: string)
    ensures multiset(Kept(entry, installs, removes))[t] ==
            if t in removes || Superseded(t, installs) then 0 else multiset(entry)[t]
  {
    if entry != [] {
      KeptAsOften(entry[1..], installs, removes, t);
      assert entry == [entry[0]] + entry[1..];
    }
  }

  lemma {:induction false} KeptInOrder(entry: seq<string>, installs: seq<string>, removes: seq<string>)
    ensures Subsequence(Kept(entry, installs, removes), entry)
  {
    if entry != [] {
      var rest := Kept(entry[1..], installs, removes);
      KeptInOrder(entry[1..], installs, removes);
      SubFirst(entry[0], rest, entry[1..], entry);
      assert [] + rest == rest;
    }
  }

  lemma KeptStand(entry: seq<string>, installs: seq<string>, removes: seq<string>)
    ensures StandAsBefore(Kept(entry, installs, removes), entry)
  {
    KeptInOrder(entry, installs, removes);
    forall t | t in Kept(entry, installs, removes)
      ensures multiset(Kept(entry, installs, removes))[t] == multiset(entry)[t]
    {
      KeptAsOften(entry, installs, removes, t);
    }
  }

  lemma OnceMore(x: string, more: seq<string>, current: seq<string>, rest: seq<string>, all: seq<string>)
    requires x !in current && StandOnce(more, current + [x], rest) && all == [x] + rest
    ensures StandOnce([x] + more, current, all)
  {
    SubFirst(x, more, rest, all);
    var tail := [x] + more;
    forall i | 0 <= i < |tail|
      ensures tail[i] !in current && tail[i] !in tail[..i]
    {
      if i > 0 {
        assert tail[i] == more[i - 1] && tail[..i] == [x] + more[..i - 1];
        assert x in current + [x] && more[i - 1] !in current + [x];
      }
    }
  }

  /** What the appending loop adds. */
  ghost function Added(current: seq<string>, installs: seq<string>): seq<string>
    decreases installs
  {
    if installs == [] then []
    else if installs[0] in current then Added(current, installs[1..])
    else [installs[0]] + Added(current + [installs[0]], installs[1..])
  }

  lemma {:induction false} AppendedIs(current: seq<string>, installs: seq<string>)
    ensures AppendNew(current, installs) == current + Added(current, installs)
    decreases installs
  {
    if installs != [] {
      var x, rest := installs[0], installs[1..];
      if x in current {
        AppendedIs(current, rest);
      } else {
        AppendedIs(current + [x], rest);
        Regroup(current, x, Added(current + [x], rest));
      }
    }
  }

  lemma Regroup(front: seq<string>, x: string, rest: seq<string>)
    ensures front + [x] + rest == front + ([x] + rest)
  {
  }

  lemma {:induction false} AddedOnce(current: seq<string>, installs: seq<string>)
    ensures StandOnce(Added(current, installs), current, installs)
    decreases installs
  {
    if installs != [] {
      var x, rest := installs[0], installs[1..];
      if x in current {
        AddedOnce(current, rest);
        SubFirst(x, Added(current, rest), rest, installs);
      } else {
        AddedOnce(current + [x], rest);
        OnceMore(x, Added(current + [x], rest), current, rest, installs);
      }
    }
  }

  /** A step moves nothing: what stays keeps its order, ahead of what is new, and nothing new is written
      twice. */
  lemma StepInOrder(desired: seq<string>, managed: set<string>, entry: seq<string>)
    returns (kept: seq<string>, added: seq<string>)
    ensures Step(desired, managed, entry) == kept + added && StandAsBefore(kept, entry)
    ensures StandOnce(added, kept, Items(Plan(desired, managed, entry), Install))
  {
    var cs := Plan(desired, managed, entry);
    if cs == [] {
      kept, added := entry, [];
      WholeSub(entry);
    } else {
      kept := Kept(entry, Items(cs, Install), Items(cs, Remove));
      KeptStand(entry, Items(cs, Install), Items(cs, Remove));
      added := Added(kept, Items(cs, Install));
      AppendedIs(kept, Items(cs, Install));
      AddedOnce(kept, Items(cs, Install));
    }
  }
}
