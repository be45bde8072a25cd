/** Plan and apply together: what one whole run of the LUKS token action leaves in a header. */
module LuksRun {
  import opened Common
  import SetMath
  import opened LuksHeader
  import opened LuksToken
  import opened LuksApply

  /** The items dasik itself records: each once, in the form it writes them. */
  predicate Recorded(managed: seq<Item>) {
    NoRepeats(managed) && WellWritten(managed)
  }

  /** `headers` are those of the open volumes whose dump the plan could read. */
  predicate ReadFrom(headers: Headers, machine: Headers) {
    headers.Keys <= machine.Keys && forall v :: v in headers ==> headers[v] == machine[v]
  }

  /** The configuration asks for that many keys of the kind, or for none. */
  predicate Asks(decls: seq<Decl>, volume: string, kind: Kind, count: nat) {
    count > 0 ==> exists d :: d in decls && d.volume == volume && d.kind == kind && d.count >= count
  }

  /** No declaration of this kind asks for more. */
  predicate AsksAtMost(decls: seq<Decl>, volume: string, kind: Kind, count: nat) {
    forall d :: d in decls && d.volume == volume && d.kind == kind ==> d.count <= count
  }

  /** An item beyond every declared count is not desired. */
  lemma BeyondNotDesired(decls: seq<Decl>, volume: string, kind: Kind, count: nat, n: nat)
    requires AsksAtMost(decls, volume, kind, count) && n > count
    ensures ItemFor(volume, kind, n) !in Desired(decls)
  {
    var it := ItemFor(volume, kind, n);
    IndexReadsBack(volume, kind, n);
    InDesired(decls, it);
    if it in Desired(decls) {
      var d, i: nat :| d in decls && 1 <= i <= d.count && it == ItemFor(d.volume, d.kind, i);
      IndexReadsBack(volume, kind, i);
    }
  }

  lemma ChangeKnown(decls: seq<Decl>, managed: seq<Item>, headers: Headers, c: Change)
    requires KnownKinds(decls) && c in PlanOf(decls, managed, headers)
    ensures !c.item.kind.Other?
    ensures c.op == Remove ==> c.item.volume in headers && PassphraseSlots(headers[c.item.volume]) != {}
  {
    if c in Installs(decls, headers) {
      var d, i := InInstalls(decls, headers, c);
    } else {
      InRemoves(managed, Desired(decls), headers, c);
    }
  }

  lemma RemovalsAffordable(decls: seq<Decl>, managed: seq<Item>, headers: Headers, c: Change)
    requires Sane(headers) && Recorded(managed) && KnownKinds(decls)
    requires c in PlanOf(decls, managed, headers) && c.op == Remove && c.item.volume in headers
    ensures Affordable(PlanOf(decls, managed, headers), c.item.volume, c.item.kind, headers[c.item.volume])
  {
    var changes := PlanOf(decls, managed, headers);
    var volume, kind := c.item.volume, c.item.kind;
    if Installing(changes, volume, kind) {
      var a :| a in changes && a.op == Install && About(a, volume, kind);
      NeverBoth(decls, managed, headers, a, c);
    }
    RemovalsBounded(decls, managed, headers, volume, kind, 0);
  }

  /** Every plan over sane headers is a batch whose removals can all be carried out. */
  lemma PlanIsBatch(decls: seq<Decl>, managed: seq<Item>, headers: Headers, machine: Headers)
    requires Sane(machine) && ReadFrom(headers, machine) && Recorded(managed) && KnownKinds(decls)
    ensures Batch(PlanOf(decls, managed, headers), machine)
  {
    var changes := PlanOf(decls, managed, headers);
    forall c | c in changes
      ensures !c.item.kind.Other?
      ensures c.op == Remove ==> !Installing(changes, c.item.volume, c.item.kind)
      ensures c.op == Remove && c.item.volume in machine ==>
        Removals(changes, c.item.volume, c.item.kind) <= Enrolled(machine[c.item.volume], c.item.kind)
    {
      ChangeKnown(decls, managed, headers, c);
      if c.op == Remove {
        RemovalsAffordable(decls, managed, headers, c);
      }
    }
  }

  /** What an apply keeps, in numbers: its passphrases, and the keys of a kind less those removed,
      or none at all once a removal could not read the dump. */
  lemma KeptNumbers(init: Header, v: Vol, w: string, changes: seq<Change>, readable: seq<bool>, done: nat,
                    log: seq<Command>, kind: Kind)
    requires Kept(init, v, w, changes, readable, done, log) && !kind.Other?
    ensures PassphraseSlots(v.header) == PassphraseSlots(init)
    ensures WipedKind(w, kind) in log <==> Blind(changes, readable, done, w, kind)
    ensures if Installing(changes, w, kind) then Enrolled(v.header, kind) >= Enrolled(init, kind)
            else if Blind(changes, readable, done, w, kind) then Enrolled(v.header, kind) == 0
            else Enrolled(v.header, kind) + Removals(changes[..done], w, kind) == Enrolled(init, kind)
  {
    assert SafeKind(init, v, w, changes, readable, done, kind);
    assert SoundHeader(init, v.header);
    CountPositive(v.header.tokens, kind);
    if Installing(changes, w, kind) {
      CountIsSlots(init.tokens, kind);
      CountIsSlots(v.header.tokens, kind);
      SetMath.SubsetSize(SlotSet(init, kind), SlotSet(v.header, kind));
    }
  }

  lemma PrefixRemovals(changes: seq<Change>, done: nat, w: string, kind: Kind)
    requires done <= |changes|
    ensures Removals(changes[..done], w, kind) <= Removals(changes, w, kind)
  {
    assert changes == changes[..done] + changes[done..];
    RemovalsAppend(changes[..done], changes[done..], w, kind);
  }

  function Least(a: nat, b: nat): nat {
    if a <= b then a else b
  }

  /** At any point of a run every passphrase that opened a volume still does, and the volume keeps
      as many keys of a kind as are declared (or as it had, when it had fewer) exactly when every
      removal of the kind so far could read the dump, or there was nothing to keep. */
  lemma RunNeverBelowDeclaredIff(decls: seq<Decl>, managed: seq<Item>, headers: Headers, w: string, v: Vol,
                                 readable: seq<bool>, done: nat, log: seq<Command>, kind: Kind, count: nat)
    requires Sane(headers) && Recorded(managed) && KnownKinds(decls) && !kind.Other? && w in headers
    requires Asks(decls, w, kind, count)
    requires Kept(headers[w], v, w, PlanOf(decls, managed, headers), readable, done, log)
    ensures PassphraseSlots(v.header) == PassphraseSlots(headers[w])
    ensures var kept := Least(Enrolled(headers[w], kind), count);
            Enrolled(v.header, kind) >= kept <==>
              kept == 0 || !Blind(PlanOf(decls, managed, headers), readable, done, w, kind)
  {
    var changes := PlanOf(decls, managed, headers);
    KeptNumbers(headers[w], v, w, changes, readable, done, log, kind);
    RemovalsBounded(decls, managed, headers, w, kind, count);
    PrefixRemovals(changes, done, w, kind);
    if Blind(changes, readable, done, w, kind) {
      var j :| 0 <= j < done && !readable[j] && Removing(changes[j], w, kind);
      RemovalsAffordable(decls, managed, headers, changes[j]);
    }
  }

  /** The input on which it fails: one key more on the volume than declared, the last one owned.
      The plan is that one removal, and when its dump cannot be read the volume ends with no key of
      the kind at all, whatever the declared count. */
  lemma BlindRemovalTakesAll(w: string, kind: Kind, count: nat, h: Header, after: Vol, slot: nat, command: Command)
    requires !kind.Other? && count > 0 && WellFormed(h) && Readable(h.tokens)
    requires Enrolled(h, kind) == count + 1 && PassphraseSlots(h) != {}
    requires WipedFrom(Vol(h, [h], {}), w, kind, false, 0, slot, after, command)
    ensures var decls, managed := [Decl(w, kind, count)], [ItemFor(w, kind, count + 1)];
            && PlanOf(decls, managed, map[w := h]) == [Change(Remove, managed[0])]
            && Recorded(managed) && command == WipedKind(w, kind)
    ensures Enrolled(after.header, kind) == 0 && PassphraseSlots(after.header) == PassphraseSlots(h)
  {
    var d, it := Decl(w, kind, count), ItemFor(w, kind, count + 1);
    var decls, managed, headers := [d], [it], map[w := h];
    IndexReadsBack(w, kind, count + 1);
    BeyondNotDesired(decls, w, kind, count, count + 1);
    NoInstalls(d, 1, headers);
    OneDeclOneItem(d, it, headers);
    WipeKind(h, kind, kind);
  }

  lemma OneDeclOneItem(d: Decl, it: Item, headers: Headers)
    requires InstallsFrom(d, 1, headers) == [] && Removable(it, Desired([d]), headers)
    ensures PlanOf([d], [it], headers) == [Change(Remove, it)]
  {
    assert [d][1..] == [] && [it][1..] == [];
    assert Installs([d], headers) == [];
    assert Removes([it], Desired([d]), headers) == [Change(Remove, it)];
  }

  lemma {:induction false} NoInstalls(d: Decl, index: nat, headers: Headers)
    requires d.volume in headers && d.count <= Enrolled(headers[d.volume], d.kind)
    ensures InstallsFrom(d, index, headers) == []
    decreases d.count - index
  {
    if index <= d.count {
      NoInstalls(d, index + 1, headers);
    }
  }

  /** Every key beyond the declared count is on record as dasik's. */
  predicate OwnsSurplus(managed: seq<Item>, volume: string, kind: Kind, count: nat, enrolled: nat) {
    forall i: nat :: count < i <= enrolled ==> ItemFor(volume, kind, i) in managed
  }

  lemma {:induction false} AllOf(s: set<int>, low: nat, high: nat)
    requires low <= high && forall n: nat :: low < n <= high ==> n in s
    ensures |s| >= high - low
    decreases high - low
  {
    if low < high {
      var r := s - {high};
      assert forall n: nat :: low < n <= high - 1 ==> n in r;
      AllOf(r, low, high - 1);
      assert s == r + {high};
    }
  }

  lemma SurplusCounts(decls: seq<Decl>, managed: seq<Item>, headers: Headers, volume: string, kind: Kind, count: nat, n: nat)
    requires !kind.Other? && volume in headers && PassphraseSlots(headers[volume]) != {}
    requires AsksAtMost(decls, volume, kind, count) && OwnsSurplus(managed, volume, kind, count, Enrolled(headers[volume], kind))
    requires count < n <= Enrolled(headers[volume], kind)
    ensures n in RemovedIndexes(managed, Desired(decls), headers, volume, kind)
  {
    var it := ItemFor(volume, kind, n);
    IndexReadsBack(volume, kind, n);
    BeyondNotDesired(decls, volume, kind, count, n);
    assert it in managed && Counts(it, Desired(decls), headers, volume, kind) && IndexOf(it).value == n;
  }

  lemma SurplusIsRemoved(decls: seq<Decl>, managed: seq<Item>, headers: Headers, volume: string, kind: Kind, count: nat)
    requires Recorded(managed) && !kind.Other? && volume in headers && PassphraseSlots(headers[volume]) != {}
    requires AsksAtMost(decls, volume, kind, count) && OwnsSurplus(managed, volume, kind, count, Enrolled(headers[volume], kind))
    requires count <= Enrolled(headers[volume], kind)
    ensures Removals(PlanOf(decls, managed, headers), volume, kind) >= Enrolled(headers[volume], kind) - count
  {
    var desired := Desired(decls);
    var installs, removes := Installs(decls, headers), Removes(managed, desired, headers);
    RemovalsAppend(installs, removes, volume, kind);
    RemovalsAreIndexes(managed, desired, headers, volume, kind);
    var indexes := RemovedIndexes(managed, desired, headers, volume, kind);
    forall n: nat | count < n <= Enrolled(headers[volume], kind)
      ensures n in indexes
    {
      SurplusCounts(decls, managed, headers, volume, kind, count, n);
    }
    AllOf(indexes, count, Enrolled(headers[volume], kind));
  }

  lemma ExactRemovals(decls: seq<Decl>, managed: seq<Item>, headers: Headers, w: string, kind: Kind, count: nat)
    requires Recorded(managed) && !kind.Other? && w in headers && PassphraseSlots(headers[w]) != {}
    requires Asks(decls, w, kind, count) && AsksAtMost(decls, w, kind, count)
    requires count < Enrolled(headers[w], kind) && OwnsSurplus(managed, w, kind, count, Enrolled(headers[w], kind))
    ensures Removals(PlanOf(decls, managed, headers), w, kind) == Enrolled(headers[w], kind) - count
  {
    SurplusIsRemoved(decls, managed, headers, w, kind, count);
    RemovalsBounded(decls, managed, headers, w, kind, count);
  }

  /** With every surplus key on record and a passphrase left, a complete run ends with exactly the
      declared number of keys (going from three to two takes one key, not three) exactly when every
      removal of the kind could read the dump, or none is declared. */
  lemma ShrinkIsExactIff(decls: seq<Decl>, managed: seq<Item>, headers: Headers, w: string, v: Vol,
                         readable: seq<bool>, log: seq<Command>, kind: Kind, count: nat)
    requires Sane(headers) && Recorded(managed) && KnownKinds(decls) && !kind.Other?
    requires w in headers && PassphraseSlots(headers[w]) != {}
    requires Asks(decls, w, kind, count) && AsksAtMost(decls, w, kind, count)
    requires count < Enrolled(headers[w], kind) && OwnsSurplus(managed, w, kind, count, Enrolled(headers[w], kind))
    requires var changes := PlanOf(decls, managed, headers); Kept(headers[w], v, w, changes, readable, |changes|, log)
    ensures var changes := PlanOf(decls, managed, headers);
            Enrolled(v.header, kind) == count <==> count == 0 || !Blind(changes, readable, |changes|, w, kind)
  {
    var changes := PlanOf(decls, managed, headers);
    ExactRemovals(decls, managed, headers, w, kind, count);
    NothingInstalled(decls, managed, headers, w, kind, count);
    assert changes[..|changes|] == changes;
    KeptNumbers(headers[w], v, w, changes, readable, |changes|, log, kind);
  }

  lemma NothingInstalled(decls: seq<Decl>, managed: seq<Item>, headers: Headers, w: string, kind: Kind, count: nat)
    requires w in headers && AsksAtMost(decls, w, kind, count) && count <= Enrolled(headers[w], kind)
    ensures !Installing(PlanOf(decls, managed, headers), w, kind)
  {
    var changes := PlanOf(decls, managed, headers);
    forall c | c in changes && c.op == Install && About(c, w, kind)
      ensures false
    {
      InRemoves(managed, Desired(decls), headers, c);
      var d, i := InInstalls(decls, headers, c);
    }
  }

  /** The next plan then has nothing left to say about that kind of that volume. */
  lemma NextPlanSilent(decls: seq<Decl>, managed: seq<Item>, headers: Headers, w: string, kind: Kind, count: nat)
    requires Recorded(managed) && w in headers && Enrolled(headers[w], kind) == count
    requires Asks(decls, w, kind, count) && AsksAtMost(decls, w, kind, count)
    ensures forall c :: c in PlanOf(decls, managed, headers) ==> !About(c, w, kind)
  {
    forall c | c in PlanOf(decls, managed, headers) && About(c, w, kind)
      ensures false
    {
      NothingInstalled(decls, managed, headers, w, kind, count);
      assert c.op == Remove;
      if c in Installs(decls, headers) {
        var _, _ := InInstalls(decls, headers, c);
      }
      InRemoves(managed, Desired(decls), headers, c);
      IndexBeyondDeclared(decls, c.item, w, kind, count);
    }
  }

  /** One whole run: plan from the headers that can be read, then apply to the machine. Whatever
      fails, is skipped or cannot be read on the way, a volume still opens with every passphrase it
      had, and one that a removal was planned for has at least one. */
  method Reconcile(decls: seq<Decl>, managed: seq<Item>, headers: Headers, machine: Headers, weather: nat -> bool, ghost w: string)
    returns (action: LuksTokenAction, plan: Option<seq<Change>>, r: Outcome, ghost done: nat, ghost readable: seq<bool>)
    requires Sane(machine) && ReadFrom(headers, machine) && Recorded(managed) && KnownKinds(decls) && w in machine
    ensures plan == if Stops(managed, machine.Keys) then None else Some(PlanOf(decls, managed, headers))
    ensures w in action.vols && PassphraseSlots(action.vols[w].header) == PassphraseSlots(machine[w])
    ensures plan.None? ==> action.vols[w].header == machine[w]
    ensures plan.Some? ==>
      && |readable| == |plan.value| && (forall i :: 0 <= i < |readable| ==> readable[i] == weather(i))
      && done <= |plan.value| && (r.Done? <==> done == |plan.value|)
      && (r.Raised? ==> action.failures > 0 || Unknown(plan.value[done], machine))
      && Kept(machine[w], action.vols[w], w, plan.value, readable, done, action.log)
      && (Shrinks(plan.value, w) ==> PassphraseSlots(action.vols[w].header) != {})
  {
    plan := Plan(decls, managed, machine.Keys, headers);
    action := new LuksTokenAction(machine);
    r, done, readable := Raised, 0, [];
    if plan.Some? {
      var changes := plan.value;
      PlanIsBatch(decls, managed, headers, machine);
      RemovalsLeavePassphrase(decls, managed, headers, machine, w);
      r, done, readable := CarryOut(action, changes, weather, machine, w);
    }
  }

  /** Something is removed from the volume. */
  predicate Shrinks(changes: seq<Change>, w: string) {
    exists c :: c in changes && c.op == Remove && c.item.volume == w
  }

  /** The apply of a plan. */
  method CarryOut(action: LuksTokenAction, changes: seq<Change>, weather: nat -> bool, ghost machine: Headers, ghost w: string)
    returns (r: Outcome, ghost done: nat, ghost readable: seq<bool>)
    requires action.Valid() && Batch(changes, machine) && action.vols.Keys == machine.Keys && action.log == [] && w in machine
    requires action.vols[w] == Vol(machine[w], [machine[w]], {})
    modifies action
    ensures |readable| == |changes| && forall i :: 0 <= i < |readable| ==> readable[i] == weather(i)
    ensures done <= |changes| && (r.Done? <==> done == |changes|)
    ensures r.Raised? ==> action.failures > old(action.failures) || Unknown(changes[done], machine)
    ensures w in action.vols && Kept(machine[w], action.vols[w], w, changes, readable, done, action.log)
    ensures PassphraseSlots(action.vols[w].header) == PassphraseSlots(machine[w])
  {
    var dumps := seq(|changes|, i requires 0 <= i < |changes| => weather(i));
    readable := dumps;
    r, done := action.Apply(changes, dumps, machine, w);
    KeptNumbers(machine[w], action.vols[w], w, changes, readable, done, action.log, Tpm2);
  }

  lemma RemovalsLeavePassphrase(decls: seq<Decl>, managed: seq<Item>, headers: Headers, machine: Headers, w: string)
    requires KnownKinds(decls) && ReadFrom(headers, machine) && w in machine
    ensures Shrinks(PlanOf(decls, managed, headers), w) ==> PassphraseSlots(machine[w]) != {}
  {
    if Shrinks(PlanOf(decls, managed, headers), w) {
      var c :| c in PlanOf(decls, managed, headers) && c.op == Remove && c.item.volume == w;
      ChangeKnown(decls, managed, headers, c);
    }
  }
}
