/** The `kernel_cmdline` domain: merging derived and explicit parameters, planning against the
    boot entry's tokens, and rewriting the entry. */
module KernelCmdline {
  import opened Text
  import opened SetMath
  import opened MountOptions

  // ---------------------------------------------------------------- token classes

  const ROOT_KEYED: set<string> := {"root", "rootflags", "rootfstype"}
  const RW_RO: set<string> := {"rw", "ro"}
  const REPEATABLE: set<string> := {"rd.luks.name", "rd.luks.key", "rd.luks.options"}

  predicate DefinesRoot(t: string) {
    TokenName(t) in ROOT_KEYED + RW_RO
  }

  /** Two tokens an entry should not carry both of: the same `root=`-like key, or rw and ro. */
  predicate SameRootKey(a: string, b: string) {
    || (TokenName(a) in ROOT_KEYED && TokenName(a) == TokenName(b))
    || (a in RW_RO && b in RW_RO)
  }

  predicate OnePerRootKey(tokens: seq<string>) {
    forall a, b :: a in tokens && b in tokens && SameRootKey(a, b) ==> a == b
  }

  // ---------------------------------------------------------------- the desired tokens

  /** What `_merge` compares: rw and ro are one key, a repeatable parameter is its own key. */
  function MergeKey(p: string): string {
    var name := if TokenName(p) in RW_RO then "rw" else TokenName(p);
    if name in REPEATABLE then p else name
  }

  function MergeKeys(ps: seq<string>): set<string> {
    set p | p in ps :: MergeKey(p)
  }

  function Unclaimed(auto: seq<string>, keys: set<string>): seq<string> {
    if auto == [] then []
    else (if MergeKey(auto[0]) in keys then [] else [auto[0]]) + Unclaimed(auto[1..], keys)
  }

  lemma {:induction false} InUnclaimed(auto: seq<string>, keys: set<string>, p: string)
    ensures p in Unclaimed(auto, keys) <==> p in auto && MergeKey(p) !in keys
  {
    if auto != [] {
      InUnclaimed(auto[1..], keys, p);
      assert p in auto <==> p == auto[0] || p in auto[1..];
    }
  }

  function Merged(auto: seq<string>, explicit: seq<string>): seq<string> {
    explicit + Unclaimed(auto, MergeKeys(explicit))
  }

  lemma UnclaimedStep(auto: seq<string>, keys: set<string>, i: nat, appended: seq<string>, claimed: bool,
                      all: seq<string>)
    requires i < |auto| && claimed == (MergeKey(auto[i]) in keys) && appended + Unclaimed(auto[i..], keys) == all
    ensures appended + (if claimed then [] else [auto[i]]) + Unclaimed(auto[i + 1..], keys) == all
  {
    assert auto[i..][1..] == auto[i + 1..];
    var rest := Unclaimed(auto[i + 1..], keys);
    assert appended + ((if claimed then [] else [auto[i]]) + rest) == appended + (if claimed then [] else [auto[i]]) + rest;
  }

  predicate Claimed(p: string, keys: set<string>) {
    MergeKey(p) in keys
  }

  /** The appending loop of `_merge`. */
  method AppendUnclaimed(auto: seq<string>, keys: set<string>) returns (appended: seq<string>)
    ensures appended == Unclaimed(auto, keys)
  {
    appended := [];
    ghost var all := Unclaimed(auto, keys);
    for i := 0 to |auto|
      invariant appended + Unclaimed(auto[i..], keys) == all
    {
      var claimed := Claimed(auto[i], keys);
      UnclaimedStep(auto, keys, i, appended, claimed, all);
      appended := appended + if claimed then [] else [auto[i]];
    }
  }

  /** `_merge`. */
  method Merge(auto: seq<string>, explicit: seq<string>) returns (merged: seq<string>)
    ensures merged == Merged(auto, explicit)
  {
    var appended := AppendUnclaimed(auto, MergeKeys(explicit));
    merged := explicit + appended;
  }

  /** A derived repeatable parameter survives every merge: it is left out of the appended part
      only when the identical parameter is explicit. */
  lemma RepeatableNeverLost(auto: seq<string>, explicit: seq<string>, p: string)
    requires p in auto && TokenName(p) in REPEATABLE
    ensures p in Merged(auto, explicit)
    ensures p !in Unclaimed(auto, MergeKeys(explicit)) <==> p in explicit
  {
    forall e | e in explicit && MergeKey(e) == MergeKey(p)
      ensures e == p
    {
      var name := if TokenName(e) in RW_RO then "rw" else TokenName(e);
      TokenNameOf(name, "");
    }
    InUnclaimed(auto, MergeKeys(explicit), p);
  }

  function Flatten(entries: seq<string>): (r: seq<string>)
    ensures forall i :: 0 <= i < |r| ==> IsWord(r[i])
  {
    if entries == [] then [] else Words(entries[0]) + Flatten(entries[1..])
  }

  function Desired(auto: seq<string>, explicit: seq<string>): (r: seq<string>)
    ensures forall i :: 0 <= i < |r| ==> IsWord(r[i])
    ensures forall i, j :: 0 <= i < j < |r| ==> r[i] != r[j]
  {
    var flat := Flatten(Merged(auto, explicit));
    var r := Deduped(flat, {});
    assert forall i :: 0 <= i < |r| ==> r[i] in flat;
    r
  }

  /** `_tokens`. */
  method Tokens(entries: seq<string>) returns (tokens: seq<string>)
    ensures tokens == Flatten(entries)
  {
    tokens := [];
    for i := 0 to |entries|
      invariant tokens + Flatten(entries[i..]) == Flatten(entries)
    {
      tokens := tokens + Words(entries[i]);
    }
  }

  /** `_desired_tokens`. */
  method DesiredTokens(auto: seq<string>, explicit: seq<string>) returns (deduped: seq<string>)
    ensures deduped == Desired(auto, explicit)
  {
    var merged := Merge(auto, explicit);
    var tokens := Tokens(merged);
    deduped := Dedupe(tokens);
  }

  lemma DedupedStep(tokens: seq<string>, i: nat, seen: set<string>)
    requires i < |tokens|
    ensures Deduped(tokens[i..], seen) ==
            if tokens[i] in seen then Deduped(tokens[i + 1..], seen)
            else [tokens[i]] + Deduped(tokens[i + 1..], seen + {tokens[i]})
  {
    assert tokens[i..][1..] == tokens[i + 1..];
  }

  /** `list(dict.fromkeys(tokens))` as a loop. */
  method Dedupe(tokens: seq<string>) returns (deduped: seq<string>)
    ensures deduped == Deduped(tokens, {})
  {
    var seen: set<string> := {};
    deduped := [];
    for i := 0 to |tokens|
      invariant deduped + Deduped(tokens[i..], seen) == Deduped(tokens, {})
    {
      DedupedStep(tokens, i, seen);
      if tokens[i] !in seen {
        seen := seen + {tokens[i]};
        deduped := deduped + [tokens[i]];
      }
    }
  }

  // ---------------------------------------------------------------- the plan

  const ROOTFLAGS := "rootflags="

  predicate IsRootflags(t: string) {
    ROOTFLAGS <= t
  }

  function FlagsValue(t: string): string
    requires IsRootflags(t)
  {
    t[|ROOTFLAGS|..]
  }

  function LiveRootflags(actual: set<string>): set<string> {
    set t | t in actual && IsRootflags(t)
  }

  /** The first `rootflags=` token, or "". */
  function FirstRootflags(tokens: seq<string>): (r: string)
    ensures r == "" <==> forall t :: t in tokens ==> !IsRootflags(t)
    ensures r != "" ==> r in tokens && IsRootflags(r)
  {
    if tokens == [] then ""
    else if IsRootflags(tokens[0]) then tokens[0]
    else FirstRootflags(tokens[1..])
  }

  function Replace(tokens: seq<string>, old_: string, new_: string): (r: seq<string>)
    ensures |r| == |tokens|
    ensures forall i :: 0 <= i < |r| ==> r[i] == if tokens[i] == old_ then new_ else tokens[i]
  {
    seq(|tokens|, i requires 0 <= i < |tokens| => if tokens[i] == old_ then new_ else tokens[i])
  }

  /** The one element of a singleton. */
  function Only(s: set<string>): (x: string)
    requires |s| == 1
    ensures s == {x}
  {
    assert s != {};
    assert forall a, b :: a in s && b in s ==> a == b by {
      forall a, b | a in s && b in s
        ensures a == b
      {
        if a != b {
          assert {a, b} <= s && |{a, b}| == 2;
          SubsetSize({a, b}, s);
        }
      }
    }
    var x :| x in s;
    assert s == {x};
    x
  }

  /** `_desired_tokens_for_diff`. */
  function DesiredForDiff(desired: seq<string>, actual: set<string>): seq<string> {
    var d := FirstRootflags(desired);
    var live := LiveRootflags(actual);
    if d == "" || |live| != 1 then desired
    else
      var a := Only(live);
      if d != a && Equivalent(FlagsValue(d), FlagsValue(a)) then Replace(desired, d, a) else desired
  }

  /** `_actual_for_diff`. */
  function ActualForDiff(actual: set<string>): set<string> {
    var live := LiveRootflags(actual);
    if |live| > 1 then actual - live else actual
  }

  /** Keep every change but a REMOVE of a root-defining token. */
  function Bootable(cs: seq<Change>): (r: seq<Change>)
    ensures forall c :: c in r <==> c in cs && !(c.op == Remove && DefinesRoot(c.item))
  {
    if cs == [] then []
    else (if cs[0].op == Remove && DefinesRoot(cs[0].item) then [] else [cs[0]]) + Bootable(cs[1..])
  }

  /** `plan`, for the desired tokens, the manifest's tokens and the entry's tokens. */
  function Plan(desired: seq<string>, managed: set<string>, entry: seq<string>): seq<Change> {
    var actual := ToSet(entry);
    Bootable(ComputeChanges(ToSet(DesiredForDiff(desired, actual)), managed, ActualForDiff(actual),
                            Install, Remove))
  }

  /** `managed_keys`: what the manifest records after an apply. */
  function ManagedKeys(desired: seq<string>, entry: seq<string>): seq<string> {
    if FirstRootflags(desired) == "" then desired else DesiredForDiff(desired, ToSet(entry))
  }

  // ---------------------------------------------------------------- the apply

  function Items(cs: seq<Change>, op: Op): (r: seq<string>)
    ensures forall t :: t in r <==> Change(op, t) in cs
  {
    if cs == [] then []
    else (if cs[0].op == op then [cs[0].item] else []) + Items(cs[1..], op)
  }

  /** An install takes the place of every token with its root key. */
  predicate Superseded(t: string, installs: seq<string>) {
    || (exists i :: i in installs && TokenName(i) in ROOT_KEYED && TokenName(i) == TokenName(t))
    || (t in RW_RO && exists i :: i in installs && i in RW_RO)
  }

  function Kept(entry: seq<string>, installs: seq<string>, removes: seq<string>): (r: seq<string>)
    ensures forall t :: t in r <==> t in entry && t !in removes && !Superseded(t, installs)
  {
    if entry == [] then []
    else (if entry[0] in removes || Superseded(entry[0], installs) then [] else [entry[0]])
         + Kept(entry[1..], installs, removes)
  }

  function AppendNew(current: seq<string>, installs: seq<string>): (r: seq<string>)
    ensures current <= r
    ensures forall t :: t in r <==> t in current || t in installs
    decreases installs
  {
    if installs == [] then current
    else
      var next := if installs[0] in current then current else current + [installs[0]];
      assert forall t :: t in installs <==> t == installs[0] || t in installs[1..];
      AppendNew(next, installs[1..])
  }

  function NewTokens(entry: seq<string>, cs: seq<Change>): (r: seq<string>)
    ensures forall t :: t in r <==>
      || t in Items(cs, Install)
      || (t in entry && t !in Items(cs, Remove) && !Superseded(t, Items(cs, Install)))
  {
    AppendNew(Kept(entry, Items(cs, Install), Items(cs, Remove)), Items(cs, Install))
  }

  /** One reconciliation of the entry: plan, then apply what was planned. */
  function Step(desired: seq<string>, managed: set<string>, entry: seq<string>): seq<string> {
    var cs := Plan(desired, managed, entry);
    if cs == [] then entry else NewTokens(entry, cs)
  }
}
