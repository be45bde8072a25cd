/** What plan and apply of the kernel command line guarantee together. */
module KernelConvergence {
  import opened Text
  import opened SetMath
  import opened MountOptions
  import opened KernelCmdline

  // ---------------------------------------------------------------- one step

  lemma PrefixAndRest(p: string, t: string)
    requires p <= t
    ensures t == p + t[|p|..]
  {
  }

  lemma RootflagsKey(t: string)
    requires IsRootflags(t)
    ensures TokenName(t) == "rootflags"
  {
    TokenNameOf("rootflags", FlagsValue(t));
    PrefixAndRest(ROOTFLAGS, t);
    assert ROOTFLAGS == "rootflags" + "=";
  }

  lemma SameFlags(a: string, b: string)
    requires IsRootflags(a) && IsRootflags(b)
    ensures SameRootKey(a, b)
  {
    RootflagsKey(a);
    RootflagsKey(b);
  }

  lemma TwoElements(s: set<string>, a: string, b: string)
    requires a in s && b in s && a != b
    ensures |s| > 1
  {
    SubsetSize({a, b}, s);
  }

  /** Comparing an equivalent live `rootflags=` keeps the desired tokens one per root key. */
  lemma DiffKeepsOnePerKey(desired: seq<string>, actual: set<string>)
    requires OnePerRootKey(desired)
    ensures OnePerRootKey(DesiredForDiff(desired, actual))
  {
    var p := DesiredForDiff(desired, actual);
    var d := FirstRootflags(desired);
    if p != desired {
      var a := Only(LiveRootflags(actual));
      assert a in LiveRootflags(actual);
      RootflagsKey(a);
      RootflagsKey(d);
      ReplaceKeepsOnePerKey(desired, d, a, p);
    }
  }

  lemma {:induction false} ReplaceKeepsOnePerKey(desired: seq<string>, d: string, a: string, p: seq<string>)
    requires OnePerRootKey(desired) && p == Replace(desired, d, a)
    requires IsRootflags(d) && IsRootflags(a) && TokenName(d) == "rootflags" && TokenName(a) == "rootflags"
    ensures OnePerRootKey(p)
  {
    forall x, y | x in p && y in p && SameRootKey(x, y)
      ensures x == y
    {
      var i :| 0 <= i < |p| && p[i] == x;
      var j :| 0 <= j < |p| && p[j] == y;
      SameKeyBefore(desired[i], x, desired[j], y, d, a);
      assert desired[i] in desired && desired[j] in desired;
    }
  }

  lemma SameKeyBefore(u: string, x: string, v: string, y: string, d: string, a: string)
    requires x == (if u == d then a else u) && y == (if v == d then a else v)
    requires TokenName(d) == "rootflags" && TokenName(a) == "rootflags" && SameRootKey(x, y)
    ensures SameRootKey(u, v)
  {
    NotRwRo(a);
  }

  lemma NotRwRo(t: string)
    requires TokenName(t) == "rootflags"
    ensures t !in RW_RO
  {
    FlagName("rw");
    FlagName("ro");
  }

  /** What the plan installs and removes, token by token. */
  lemma PlanItems(desired: seq<string>, managed: set<string>, entry: seq<string>)
    ensures var cs := Plan(desired, managed, entry);
            var p := DesiredForDiff(desired, ToSet(entry));
            && (forall t :: t in Items(cs, Install) <==> t in p && t !in ActualForDiff(ToSet(entry)))
            && (forall t :: t in Items(cs, Remove) <==> t in managed && t !in p && !DefinesRoot(t))
  {
    var cs := Plan(desired, managed, entry);
    var p := DesiredForDiff(desired, ToSet(entry));
    forall t
      ensures t in Items(cs, Install) <==> t in p && t !in ActualForDiff(ToSet(entry))
    {
      assert t in Items(cs, Install) <==> Change(Install, t) in cs;
    }
    forall t
      ensures t in Items(cs, Remove) <==> t in managed && t !in p && !DefinesRoot(t)
    {
      assert t in Items(cs, Remove) <==> Change(Remove, t) in cs;
    }
  }

  /** The tokens of the entry after one step. */
  lemma StepTokens(desired: seq<string>, managed: set<string>, entry: seq<string>, t: string)
    ensures var cs := Plan(desired, managed, entry);
            t in Step(desired, managed, entry) <==>
              || t in Items(cs, Install)
              || (t in entry && t !in Items(cs, Remove) && !Superseded(t, Items(cs, Install)))
  {
  }

  /** A desired token is not pushed out by the installs of the others. */
  lemma NotSuperseded(tokens: seq<string>, installs: seq<string>, t: string)
    requires OnePerRootKey(tokens) && t in tokens && t !in installs
    requires forall i :: i in installs ==> i in tokens
    ensures !Superseded(t, installs)
  {
    forall i | i in installs
      ensures !SameRootKey(i, t)
    {
    }
  }

  /** After a step everything the plan compared against is on the entry. */
  lemma DesiredIsInstalled(desired: seq<string>, managed: set<string>, entry: seq<string>)
    requires OnePerRootKey(desired)
    ensures ToSet(DesiredForDiff(desired, ToSet(entry))) <= ToSet(Step(desired, managed, entry))
  {
    var p := DesiredForDiff(desired, ToSet(entry));
    var cs := Plan(desired, managed, entry);
    DiffKeepsOnePerKey(desired, ToSet(entry));
    PlanItems(desired, managed, entry);
    forall t | t in p
      ensures t in Step(desired, managed, entry)
    {
      StepTokens(desired, managed, entry, t);
      if t !in Items(cs, Install) {
        NotSuperseded(p, Items(cs, Install), t);
      }
    }
  }

  /** After a step the entry carries no `rootflags=` but the compared one. */
  lemma OneRootflagsLeft(desired: seq<string>, managed: set<string>, entry: seq<string>, p: string)
    requires OnePerRootKey(desired)
    requires p in DesiredForDiff(desired, ToSet(entry)) && IsRootflags(p)
    ensures LiveRootflags(ToSet(Step(desired, managed, entry))) == {p}
  {
    var cs := Plan(desired, managed, entry);
    DiffKeepsOnePerKey(desired, ToSet(entry));
    PlanItems(desired, managed, entry);
    DesiredIsInstalled(desired, managed, entry);
    RootflagsKey(p);
    forall q | q in Step(desired, managed, entry) && IsRootflags(q)
      ensures q == p
    {
      SameFlags(p, q);
      RootflagsKey(q);
      StepTokens(desired, managed, entry, q);
      if q !in Items(cs, Install) && q != p {
        assert p !in Items(cs, Install);
        assert q in LiveRootflags(ToSet(entry));
        assert p in ActualForDiff(ToSet(entry)) && p in LiveRootflags(ToSet(entry));
        TwoElements(LiveRootflags(ToSet(entry)), p, q);
      }
    }
  }

  /** The next comparison uses the same tokens, and finds them all. */
  lemma NextComparison(desired: seq<string>, managed: set<string>, entry: seq<string>)
    requires OnePerRootKey(desired)
    ensures var after := ToSet(Step(desired, managed, entry));
            && DesiredForDiff(desired, after) == DesiredForDiff(desired, ToSet(entry))
            && ToSet(DesiredForDiff(desired, after)) <= ActualForDiff(after)
  {
    var before, after := ToSet(entry), ToSet(Step(desired, managed, entry));
    var p := DesiredForDiff(desired, before);
    var d := FirstRootflags(desired);
    DesiredIsInstalled(desired, managed, entry);
    if d != "" {
      var i :| 0 <= i < |desired| && desired[i] == d;
      var q := p[i];
      assert IsRootflags(q) by {
        if p != desired {
          assert Only(LiveRootflags(before)) in LiveRootflags(before);
        }
      }
      OneRootflagsLeft(desired, managed, entry, q);
      assert Only(LiveRootflags(after)) == q;
    }
  }

  /** Plan, apply, plan: the second plan, against the manifest the apply recorded, is silent;
      and that manifest names only tokens the entry carries. */
  lemma SecondPlanSilent(desired: seq<string>, managed: set<string>, entry: seq<string>)
    requires OnePerRootKey(desired)
    ensures var after := Step(desired, managed, entry);
            && Plan(desired, ToSet(ManagedKeys(desired, after)), after) == []
            && forall t :: t in ManagedKeys(desired, after) ==> t in after
  {
    var after := Step(desired, managed, entry);
    var keys := ManagedKeys(desired, after);
    NextComparison(desired, managed, entry);
    assert keys == DesiredForDiff(desired, ToSet(after));
    PlanSilentIff(ToSet(keys), ToSet(keys), ActualForDiff(ToSet(after)), Install, Remove);
  }

  /** With any other manifest, the second plan is silent exactly when everything that manifest
      owns is desired or defines the root: a vanished item it owns is planned away for ever. */
  lemma SecondPlanSilentIff(desired: seq<string>, managed: set<string>, entry: seq<string>, later: set<string>)
    requires OnePerRootKey(desired)
    ensures var after := Step(desired, managed, entry);
            Plan(desired, later, after) == [] <==>
              forall t :: t in later ==> t in ManagedKeys(desired, after) || DefinesRoot(t)
  {
    var after := Step(desired, managed, entry);
    var cs := Plan(desired, later, after);
    NextComparison(desired, managed, entry);
    PlanItems(desired, later, after);
    var keys := ManagedKeys(desired, after);
    assert keys == DesiredForDiff(desired, ToSet(after));
    if cs != [] {
      var c := cs[0];
      assert c in cs;
      assert c == Change(c.op, c.item);
      assert c.item in Items(cs, c.op);
    } else {
      assert forall t :: t !in Items(cs, Remove);
    }
  }

  // ---------------------------------------------------------------- convergence, exactly

  /** Two runs are always enough, whatever the entry and the manifest were. */
  ghost predicate Converges(desired: seq<string>) {
    forall managed: set<string>, entry: seq<string> ::
      var after := Step(desired, managed, entry);
      Plan(desired, ToSet(ManagedKeys(desired, after)), after) == []
  }

  /** Two desired tokens of one root key keep pushing each other off the entry. */
  lemma ConflictDiverges(desired: seq<string>, a: string, b: string)
    requires a in desired && b in desired && SameRootKey(a, b) && a != b
    ensures exists entry ::
      var after := Step(desired, {}, entry);
      Plan(desired, ToSet(ManagedKeys(desired, after)), after) != []
  {
    if IsRootflags(a) && IsRootflags(b) {
      BothStayDivergent(desired, a, b);
    } else if IsRootflags(a) {
      FlipFlops(desired, b, a);
    } else {
      FlipFlops(desired, a, b);
    }
  }

  /** Two `rootflags=` tokens: both are written, and two live ones never read as converged. */
  lemma BothStayDivergent(desired: seq<string>, a: string, b: string)
    requires a in desired && b in desired && a != b && IsRootflags(a) && IsRootflags(b)
    ensures var after := Step(desired, {}, []);
            Plan(desired, ToSet(ManagedKeys(desired, after)), after) != []
  {
    var after := Step(desired, {}, []);
    PlanItems(desired, {}, []);
    StepTokens(desired, {}, [], a);
    StepTokens(desired, {}, [], b);
    TwoElements(LiveRootflags(ToSet(after)), a, b);
    var managed := ToSet(ManagedKeys(desired, after));
    PlanItems(desired, managed, after);
    assert a in Items(Plan(desired, managed, after), Install);
  }

  /** Any other pair: an entry holding only `a` gains `b` and loses `a`. */
  lemma FlipFlops(desired: seq<string>, a: string, b: string)
    requires a in desired && b in desired && SameRootKey(a, b) && a != b && !IsRootflags(a)
    ensures var after := Step(desired, {}, [a]);
            Plan(desired, ToSet(ManagedKeys(desired, after)), after) != []
  {
    NothingLive(a);
    var cs := Plan(desired, {}, [a]);
    PlanItems(desired, {}, [a]);
    assert b in Items(cs, Install) && a !in Items(cs, Install);
    assert Superseded(a, Items(cs, Install));
    StepTokens(desired, {}, [a], a);
    assert cs != [];
    StillMissing(desired, Step(desired, {}, [a]), a);
  }

  lemma NothingLive(a: string)
    requires !IsRootflags(a)
    ensures LiveRootflags(ToSet([a])) == {}
  {
  }

  /** A desired token that is not on the entry is planned. */
  lemma StillMissing(desired: seq<string>, after: seq<string>, a: string)
    requires a in desired && !IsRootflags(a) && a !in after
    ensures Plan(desired, ToSet(ManagedKeys(desired, after)), after) != []
  {
    var managed := ToSet(ManagedKeys(desired, after));
    PlanItems(desired, managed, after);
    StillDesired(desired, ToSet(after), a);
    assert a in Items(Plan(desired, managed, after), Install);
  }

  lemma StillDesired(desired: seq<string>, actual: set<string>, a: string)
    requires a in desired && !IsRootflags(a)
    ensures a in DesiredForDiff(desired, actual)
  {
    var i :| 0 <= i < |desired| && desired[i] == a;
    assert DesiredForDiff(desired, actual)[i] == a;
  }

  /** The domain converges in two runs from every entry and manifest exactly when the desired
      tokens hold at most one per root key and not both rw and ro. */
  lemma ConvergesIff(desired: seq<string>)
    ensures Converges(desired) <==> OnePerRootKey(desired)
  {
    if OnePerRootKey(desired) {
      forall managed: set<string>, entry: seq<string>
        ensures var after := Step(desired, managed, entry);
                Plan(desired, ToSet(ManagedKeys(desired, after)), after) == []
      {
        SecondPlanSilent(desired, managed, entry);
      }
    } else {
      var a, b :| a in desired && b in desired && SameRootKey(a, b) && a != b;
      ConflictDiverges(desired, a, b);
    }
  }

  // ---------------------------------------------------------------- which configs qualify

  predicate SingleTokens(entries: seq<string>) {
    forall i :: 0 <= i < |entries| ==> IsWord(entries[i])
  }

  lemma {:induction false} FlattenWords(entries: seq<string>)
    requires SingleTokens(entries)
    ensures Flatten(entries) == entries
  {
    if entries != [] {
      FlattenWords(entries[1..]);
      WordsCons(entries[0], "");
      assert entries[0] + "" == entries[0];
      assert entries == [entries[0]] + entries[1..];
    }
  }

  lemma InMerged(auto: seq<string>, explicit: seq<string>, p: string)
    ensures p in Merged(auto, explicit) <==> p in explicit || (p in auto && MergeKey(p) !in MergeKeys(explicit))
  {
    InUnclaimed(auto, MergeKeys(explicit), p);
  }

  lemma MergedWords(auto: seq<string>, explicit: seq<string>)
    requires SingleTokens(auto) && SingleTokens(explicit)
    ensures SingleTokens(Merged(auto, explicit))
  {
    var merged := Merged(auto, explicit);
    forall i | 0 <= i < |merged|
      ensures IsWord(merged[i])
    {
      InMerged(auto, explicit, merged[i]);
    }
  }

  lemma MergedPair(auto: seq<string>, explicit: seq<string>, a: string, b: string)
    requires OnePerRootKey(auto) && OnePerRootKey(explicit)
    requires a in Merged(auto, explicit) && b in Merged(auto, explicit) && SameRootKey(a, b)
    ensures a == b
  {
    SameMergeKey(a, b);
    InMerged(auto, explicit, a);
    InMerged(auto, explicit, b);
    assert a in explicit ==> MergeKey(a) in MergeKeys(explicit);
    assert b in explicit ==> MergeKey(b) in MergeKeys(explicit);
  }

  /** Explicit entries of one token each, with no conflict among themselves, replace every
      derived parameter they conflict with. */
  lemma MergeKeepsOnePerKey(auto: seq<string>, explicit: seq<string>)
    requires SingleTokens(auto) && SingleTokens(explicit)
    requires OnePerRootKey(auto) && OnePerRootKey(explicit)
    ensures OnePerRootKey(Desired(auto, explicit))
  {
    var merged, desired := Merged(auto, explicit), Desired(auto, explicit);
    MergedWords(auto, explicit);
    FlattenWords(merged);
    forall a, b | a in desired && b in desired && SameRootKey(a, b)
      ensures a == b
    {
      MergedPair(auto, explicit, a, b);
    }
  }

  lemma RwRoKey(t: string)
    requires t in RW_RO
    ensures TokenName(t) == t && MergeKey(t) == "rw"
  {
    FlagName(t);
  }

  lemma RootKeyedKey(t: string)
    requires TokenName(t) in ROOT_KEYED
    ensures TokenName(t) !in RW_RO && t !in RW_RO && MergeKey(t) == TokenName(t)
  {
    if t in RW_RO {
      RwRoKey(t);
    }
  }

  lemma SameMergeKey(a: string, b: string)
    requires SameRootKey(a, b)
    ensures MergeKey(a) == MergeKey(b)
  {
    if TokenName(a) in ROOT_KEYED {
      RootKeyedKey(a);
      RootKeyedKey(b);
    } else {
      RwRoKey(a);
      RwRoKey(b);
    }
  }

  /** One explicit entry holding two tokens is keyed by the first, so its `ro` does not
      suppress the derived `rw`, and the domain never converges. */
  lemma TwoTokenEntryDiverges(auto: seq<string>, explicit: seq<string>)
    requires "rw" in auto && explicit == ["quiet ro"]
    ensures "rw" in Desired(auto, explicit) && "ro" in Desired(auto, explicit)
    ensures !Converges(Desired(auto, explicit))
  {
    DerivedRwSurvives(auto, explicit);
    QuietRo();
    RwWord();
    BothDesired(auto, explicit, Merged(auto, explicit));
    Diverges(Desired(auto, explicit));
  }

  lemma RwWord()
    ensures "rw" in Words("rw")
  {
    WordsOfJoin(["rw"]);
  }

  lemma BothDesired(auto: seq<string>, explicit: seq<string>, merged: seq<string>)
    requires merged == Merged(auto, explicit) && "rw" in merged && "quiet ro" in merged
    requires "rw" in Words("rw") && "ro" in Words("quiet ro")
    ensures "rw" in Desired(auto, explicit) && "ro" in Desired(auto, explicit)
  {
    FlattenContains(merged, "quiet ro", "ro");
    FlattenContains(merged, "rw", "rw");
  }

  lemma Diverges(desired: seq<string>)
    requires "rw" in desired && "ro" in desired
    ensures !Converges(desired)
  {
    ConvergesIff(desired);
    assert SameRootKey("rw", "ro");
  }

  lemma QuietRoKey(e: string)
    requires e == "quiet ro"
    ensures MergeKey(e) != "rw"
  {
    FlagName(e);
    assert |e| == 8 && |MergeKey(e)| == 8;
  }

  lemma DerivedRwSurvives(auto: seq<string>, explicit: seq<string>)
    requires "rw" in auto && explicit == ["quiet ro"]
    ensures "rw" in Merged(auto, explicit) && "quiet ro" in Merged(auto, explicit)
  {
    RwRoKey("rw");
    forall e | e in explicit
      ensures MergeKey(e) != "rw"
    {
      QuietRoKey(e);
    }
    InMerged(auto, explicit, "rw");
    InMerged(auto, explicit, "quiet ro");
  }

  lemma QuietRo()
    ensures "ro" in Words("quiet ro")
  {
    WordsOfJoin(["quiet", "ro"]);
    assert ["quiet", "ro"][1..] == ["ro"];
    assert Join(["quiet", "ro"], " ") == "quiet ro";
  }

  lemma {:induction false} FlattenContains(entries: seq<string>, e: string, w: string)
    requires e in entries && w in Words(e)
    ensures w in Flatten(entries)
  {
    if entries[0] != e {
      FlattenContains(entries[1..], e, w);
    }
  }

  // ---------------------------------------------------------------- a machine that boots

  /** The entry says where the root filesystem is, by this key. */
  predicate CarriesKey(entry: seq<string>, key: string) {
    exists t :: t in entry && TokenName(t) == key
  }

  predicate CarriesRwRo(entry: seq<string>) {
    exists t :: t in entry && t in RW_RO
  }

  /** One step never takes the last token of a root key. */
  lemma StepKeepsKey(desired: seq<string>, managed: set<string>, entry: seq<string>, key: string)
    requires key in ROOT_KEYED && CarriesKey(entry, key)
    ensures CarriesKey(Step(desired, managed, entry), key)
  {
    var t :| t in entry && TokenName(t) == key;
    var installs := Items(Plan(desired, managed, entry), Install);
    PlanItems(desired, managed, entry);
    RootKeyedKey(t);
    if Superseded(t, installs) {
      var i :| i in installs && TokenName(i) == key;
      StepTokens(desired, managed, entry, i);
    } else {
      StepTokens(desired, managed, entry, t);
    }
  }

  lemma NotRootKeyed(t: string)
    requires t in RW_RO
    ensures TokenName(t) !in ROOT_KEYED && DefinesRoot(t)
  {
    RwRoKey(t);
  }

  lemma SupersedingFlag(t: string, installs: seq<string>) returns (i: string)
    requires t in RW_RO && Superseded(t, installs)
    ensures i in installs && i in RW_RO
  {
    NotRootKeyed(t);
    i :| i in installs && i in RW_RO;
  }

  /** One step never takes the last of rw and ro. */
  lemma StepKeepsRwRo(desired: seq<string>, managed: set<string>, entry: seq<string>)
    requires CarriesRwRo(entry)
    ensures CarriesRwRo(Step(desired, managed, entry))
  {
    var t :| t in entry && t in RW_RO;
    var installs := Items(Plan(desired, managed, entry), Install);
    PlanItems(desired, managed, entry);
    if Superseded(t, installs) {
      var i := SupersedingFlag(t, installs);
      StepTokens(desired, managed, entry, i);
    } else {
      NotRootKeyed(t);
      StepTokens(desired, managed, entry, t);
    }
  }

  datatype Config = Config(desired: seq<string>, managed: set<string>)

  /** Any number of reconciliations, each with its own config and manifest. */
  function Run(entry: seq<string>, configs: seq<Config>): seq<string>
    decreases configs
  {
    if configs == [] then entry
    else Run(Step(configs[0].desired, configs[0].managed, entry), configs[1..])
  }

  /** An entry that once boots keeps its root parameters over every run. */
  lemma {:induction false} RootNeverLost(entry: seq<string>, configs: seq<Config>)
    ensures forall key :: key in ROOT_KEYED && CarriesKey(entry, key) ==> CarriesKey(Run(entry, configs), key)
    ensures CarriesRwRo(entry) ==> CarriesRwRo(Run(entry, configs))
    decreases configs
  {
    if configs != [] {
      var next := Step(configs[0].desired, configs[0].managed, entry);
      forall key | key in ROOT_KEYED && CarriesKey(entry, key)
        ensures CarriesKey(next, key)
      {
        StepKeepsKey(configs[0].desired, configs[0].managed, entry, key);
      }
      if CarriesRwRo(entry) {
        StepKeepsRwRo(configs[0].desired, configs[0].managed, entry);
      }
      RootNeverLost(next, configs[1..]);
    }
  }

  /** How many tokens have the root key of `item`: its name, or being one of `rw` and `ro`. */
  function Rivals(tokens: seq<string>, item: string): nat {
    if tokens == [] then 0
    else (if SameRootKey(item, tokens[0]) then 1 else 0) + Rivals(tokens[1..], item)
  }

  lemma {:induction false} NoRivals(tokens: seq<string>, item: string)
    ensures Rivals(tokens, item) == 0 <==> forall t :: t in tokens ==> !SameRootKey(item, t)
  {
    if tokens != [] {
      NoRivals(tokens[1..], item);
      assert tokens[0] in tokens;
      assert forall t :: t in tokens <==> t == tokens[0] || t in tokens[1..];
    }
  }

  lemma {:induction false} RivalsSnoc(tokens: seq<string>, t: string, item: string)
    ensures Rivals(tokens + [t], item) == Rivals(tokens, item) + (if SameRootKey(item, t) then 1 else 0)
  {
    if tokens == [] {
      assert tokens + [t] == [t];
    } else {
      RivalsSnoc(tokens[1..], t, item);
      assert (tokens + [t])[1..] == tokens[1..] + [t];
    }
  }

  /** Appending installs of which `item` is the only one with its key. */
  lemma {:induction false} AppendedOnce(current: seq<string>, installs: seq<string>, item: string)
    requires SameRootKey(item, item)
    requires forall i :: i in installs && SameRootKey(item, i) ==> i == item
    requires Rivals(current, item) == if item in current then 1 else 0
    ensures Rivals(AppendNew(current, installs), item) == if item in current || item in installs then 1 else 0
    decreases installs
  {
    if installs != [] {
      assert installs[0] in installs && forall i :: i in installs[1..] ==> i in installs;
      var next := if installs[0] in current then current else current + [installs[0]];
      RivalsSnoc(current, installs[0], item);
      AppendedOnce(next, installs[1..], item);
    }
  }

  lemma KeptHasNoRival(entry: seq<string>, installs: seq<string>, removes: seq<string>, item: string, t: string)
    requires item in installs && t in Kept(entry, installs, removes)
    ensures !SameRootKey(item, t)
  {
    assert !Superseded(t, installs);
  }

  /** Installing a token with a root key, `rw` and `ro` included, leaves exactly one token of that
      key on the entry. */
  lemma InstallLeavesExactlyOne(desired: seq<string>, managed: set<string>, entry: seq<string>, item: string)
    requires OnePerRootKey(desired)
    requires TokenName(item) in ROOT_KEYED || item in RW_RO
    requires Change(Install, item) in Plan(desired, managed, entry)
    ensures Rivals(Step(desired, managed, entry), item) == 1
    ensures item in Step(desired, managed, entry)
  {
    var cs := Plan(desired, managed, entry);
    var installs, removes := Items(cs, Install), Items(cs, Remove);
    PlanItems(desired, managed, entry);
    DiffKeepsOnePerKey(desired, ToSet(entry));
    var kept := Kept(entry, installs, removes);
    assert item in installs;
    forall i | i in installs && SameRootKey(item, i)
      ensures i == item
    {
    }
    forall t | t in kept
      ensures !SameRootKey(item, t)
    {
      KeptHasNoRival(entry, installs, removes, item, t);
    }
    NoRivals(kept, item);
    AppendedOnce(kept, installs, item);
  }
}
