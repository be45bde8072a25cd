/** Carrying out a batch of keyslot changes, with every command free to fail and every dump free
    to be stale. */
module LuksApply {
  import opened LuksHeader
  import opened LuksToken

  /** One open volume during an apply: its header, the headers a dump may still show, and the
      slots this apply has wiped. */
  datatype Vol = Vol(header: Header, seen: seq<Header>, wiped: set<nat>)

  function SlotSet(h: Header, kind: Kind): set<nat>
  {
    SlotsOfKind(h.tokens, kind)
  }

  // ---------------------------------------------------------------- header updates

  function TokensWithout(tokens: seq<Token>, slot: nat): (r: seq<Token>) {
    if tokens == [] then []
    else (if tokens[0].slot == slot then [] else [tokens[0]]) + TokensWithout(tokens[1..], slot)
  }

  function SlotsWithout(slots: seq<nat>, slot: nat): (r: seq<nat>) {
    if slots == [] then []
    else (if slots[0] == slot then [] else [slots[0]]) + SlotsWithout(slots[1..], slot)
  }

  /** What `systemd-cryptenroll --wipe-slot=N` leaves. */
  function Wiped(h: Header, slot: nat): Header {
    Header(SlotsWithout(h.keyslots, slot), TokensWithout(h.tokens, slot))
  }

  /** What enrolling a token of `kind` in a free slot leaves. */
  function WithToken(h: Header, kind: Kind, slot: nat): Header {
    Header(h.keyslots + [slot], h.tokens + [Token(kind, slot)])
  }

  lemma {:induction false} TokensWithoutSets(tokens: seq<Token>, slot: nat, kind: Kind)
    ensures SlotsOfKind(TokensWithout(tokens, slot), kind) == SlotsOfKind(tokens, kind) - {slot}
    ensures BoundBy(TokensWithout(tokens, slot)) == BoundBy(tokens) - {slot}
  {
    if tokens != [] {
      var rest := TokensWithout(tokens[1..], slot);
      TokensWithoutSets(tokens[1..], slot, kind);
      if tokens[0].slot == slot {
        assert TokensWithout(tokens, slot) == rest;
      } else {
        FirstToken(tokens[0], rest, TokensWithout(tokens, slot), kind);
      }
    }
  }

  lemma FirstToken(first: Token, rest: seq<Token>, all: seq<Token>, kind: Kind)
    requires all == [first] + rest
    ensures SlotsOfKind(all, kind) == (if first.kind == kind then {first.slot} else {}) + SlotsOfKind(rest, kind)
    ensures BoundBy(all) == {first.slot} + BoundBy(rest)
  {
    assert all[1..] == rest;
  }

  lemma {:induction false} SlotsWithoutSet(slots: seq<nat>, slot: nat)
    ensures Numbers(SlotsWithout(slots, slot)) == Numbers(slots) - {slot}
  {
    if slots != [] {
      SlotsWithoutSet(slots[1..], slot);
      var rest := SlotsWithout(slots[1..], slot);
      if slots[0] == slot {
        assert [] + rest == rest;
      } else {
        assert ([slots[0]] + rest)[1..] == rest;
      }
    }
  }

  lemma {:induction false} TokensWithoutMembers(tokens: seq<Token>, slot: nat)
    ensures forall t :: t in TokensWithout(tokens, slot) <==> t in tokens && t.slot != slot
  {
    if tokens != [] {
      TokensWithoutMembers(tokens[1..], slot);
      assert forall t :: t in tokens <==> t == tokens[0] || t in tokens[1..];
    }
  }

  lemma {:induction false} TokensWithoutOwn(tokens: seq<Token>, slot: nat)
    requires OwnSlots(tokens)
    ensures OwnSlots(TokensWithout(tokens, slot))
  {
    if tokens != [] {
      TokensWithoutOwn(tokens[1..], slot);
      TokensWithoutSets(tokens[1..], slot, Tpm2);
      var rest := TokensWithout(tokens[1..], slot);
      if tokens[0].slot == slot {
        assert [] + rest == rest;
      } else {
        assert ([tokens[0]] + rest)[1..] == rest;
      }
    }
  }

  lemma {:induction false} TokensWithoutCount(tokens: seq<Token>, slot: nat, kind: Kind)
    requires OwnSlots(tokens)
    ensures CountOf(tokens, kind) == CountOf(TokensWithout(tokens, slot), kind) + if slot in SlotsOfKind(tokens, kind) then 1 else 0
  {
    if tokens != [] {
      TokensWithoutCount(tokens[1..], slot, kind);
      BoundContains(tokens[1..], kind);
      var rest := TokensWithout(tokens[1..], slot);
      if tokens[0].slot == slot {
        assert [] + rest == rest;
      } else {
        assert ([tokens[0]] + rest)[1..] == rest;
      }
    }
  }

  lemma {:induction false} CountPositive(tokens: seq<Token>, kind: Kind)
    ensures CountOf(tokens, kind) > 0 <==> SlotsOfKind(tokens, kind) != {}
  {
    if tokens != [] {
      CountPositive(tokens[1..], kind);
    }
  }

  lemma WipeWellFormed(h: Header, slot: nat)
    requires WellFormed(h)
    ensures WellFormed(Wiped(h, slot))
  {
    TokensWithoutOwn(h.tokens, slot);
    TokensWithoutSets(h.tokens, slot, Tpm2);
    SlotsWithoutSet(h.keyslots, slot);
  }

  /** Wiping a token's slot takes that slot from its kind only, and no passphrase. */
  lemma WipeOne(h: Header, kind: Kind, slot: nat, other: Kind)
    requires WellFormed(h) && slot in SlotSet(h, kind)
    ensures PassphraseSlots(Wiped(h, slot)) == PassphraseSlots(h)
    ensures SlotSet(Wiped(h, slot), other) == SlotSet(h, other) - {slot}
    ensures other != kind ==> slot !in SlotSet(h, other)
    ensures Enrolled(h, other) == Enrolled(Wiped(h, slot), other) + if other == kind then 1 else 0
  {
    TokensWithoutCount(h.tokens, slot, other);
    TokensWithoutSets(h.tokens, slot, other);
    SlotsWithoutSet(h.keyslots, slot);
    BoundContains(h.tokens, kind);
    if other != kind {
      OneKind(h.tokens, kind, other);
    }
  }

  lemma ReadableAfter(h: Header, kind: Kind, slot: nat)
    requires Readable(h.tokens)
    ensures Readable(Wiped(h, slot).tokens)
    ensures !kind.Other? ==> Readable(WithToken(h, kind, slot).tokens)
  {
    TokensWithoutMembers(h.tokens, slot);
    var w := Wiped(h, slot);
    forall i | 0 <= i < |w.tokens|
      ensures w.tokens[i] in h.tokens
    {
    }
  }

  predicate IsHighest(m: nat, s: set<nat>) {
    m in s && forall n :: n in s ==> n <= m
  }

  function Highest(s: set<nat>): (m: nat)
    requires s != {}
    ensures IsHighest(m, s)
  {
    assert exists m :: IsHighest(m, s) by { var m := HasHighest(s); }
    assert forall a, b :: IsHighest(a, s) && IsHighest(b, s) ==> a == b;
    var m :| IsHighest(m, s);
    m
  }

  lemma {:induction false} HasHighest(s: set<nat>) returns (m: nat)
    requires s != {}
    ensures IsHighest(m, s)
  {
    var x :| x in s;
    if s == {x} {
      m := x;
    } else {
      var y := HasHighest(s - {x});
      m := if x <= y then y else x;
      forall n | n in s
        ensures n <= m
      {
        assert n == x || n in s - {x};
      }
    }
  }

  /** Wiping any slot takes that slot and nothing else. */
  lemma WipeAny(h: Header, slot: nat, kind: Kind)
    requires WellFormed(h)
    ensures PassphraseSlots(Wiped(h, slot)) == PassphraseSlots(h) - {slot}
    ensures SlotSet(Wiped(h, slot), kind) == SlotSet(h, kind) - {slot}
    ensures Enrolled(h, kind) == Enrolled(Wiped(h, slot), kind) + if slot in SlotSet(h, kind) then 1 else 0
  {
    TokensWithoutCount(h.tokens, slot, kind);
    TokensWithoutSets(h.tokens, slot, kind);
    SlotsWithoutSet(h.keyslots, slot);
  }

  /** What `--wipe-slot=<kind>` leaves: every keyslot of the kind is gone. */
  function WipedAll(h: Header, slots: set<nat>): Header
    decreases slots
  {
    if slots == {} then h else
      var s := Highest(slots);
      WipedAll(Wiped(h, s), slots - {s})
  }

  /** Wiping a set of slots takes those slots and nothing else. */
  lemma {:induction false} WipeMany(h: Header, slots: set<nat>, kind: Kind)
    requires WellFormed(h) && Readable(h.tokens)
    ensures WellFormed(WipedAll(h, slots)) && Readable(WipedAll(h, slots).tokens)
    ensures PassphraseSlots(WipedAll(h, slots)) == PassphraseSlots(h) - slots
    ensures SlotSet(WipedAll(h, slots), kind) == SlotSet(h, kind) - slots
    ensures slots !! SlotSet(h, kind) ==> Enrolled(WipedAll(h, slots), kind) == Enrolled(h, kind)
    decreases slots
  {
    if slots != {} {
      var s := Highest(slots);
      WipeAny(h, s, kind);
      WipeWellFormed(h, s);
      ReadableAfter(h, kind, s);
      WipeMany(Wiped(h, s), slots - {s}, kind);
      assert PassphraseSlots(h) - {s} - (slots - {s}) == PassphraseSlots(h) - slots;
      assert SlotSet(h, kind) - {s} - (slots - {s}) == SlotSet(h, kind) - slots;
    }
  }

  /** Wiping a kind leaves no key of it, every key of the others and every passphrase. */
  lemma WipeKind(h: Header, kind: Kind, other: Kind)
    requires WellFormed(h) && Readable(h.tokens)
    ensures var r := WipedAll(h, SlotSet(h, kind));
            && WellFormed(r) && Readable(r.tokens)
            && PassphraseSlots(r) == PassphraseSlots(h)
            && SlotSet(r, other) == (if other == kind then {} else SlotSet(h, other))
            && Enrolled(r, other) == (if other == kind then 0 else Enrolled(h, other))
  {
    var slots := SlotSet(h, kind);
    WipeMany(h, slots, other);
    BoundContains(h.tokens, kind);
    if other != kind {
      OneKind(h.tokens, kind, other);
    } else {
      CountPositive(WipedAll(h, slots).tokens, kind);
    }
  }

  lemma {:induction false} TokenAdded(tokens: seq<Token>, t: Token, kind: Kind)
    ensures SlotsOfKind(tokens + [t], kind) == SlotsOfKind(tokens, kind) + (if t.kind == kind then {t.slot} else {})
    ensures BoundBy(tokens + [t]) == BoundBy(tokens) + {t.slot}
    ensures OwnSlots(tokens) && t.slot !in BoundBy(tokens) ==> OwnSlots(tokens + [t])
    ensures CountOf(tokens + [t], kind) == CountOf(tokens, kind) + if t.kind == kind then 1 else 0
  {
    if tokens == [] {
      assert tokens + [t] == [t] && [t][1..] == [];
    } else {
      TokenAdded(tokens[1..], t, kind);
      assert (tokens + [t])[1..] == tokens[1..] + [t];
    }
  }

  lemma {:induction false} NumberAdded(slots: seq<nat>, slot: nat)
    ensures Numbers(slots + [slot]) == Numbers(slots) + {slot}
    ensures slot in Numbers(slots) <==> slot in slots
  {
    if slots == [] {
      assert slots + [slot] == [slot] && [slot][1..] == [];
    } else {
      NumberAdded(slots[1..], slot);
      assert (slots + [slot])[1..] == slots[1..] + [slot];
    }
  }

  /** Enrolling adds one slot of its kind and takes nothing. */
  lemma EnrolOne(h: Header, kind: Kind, slot: nat, other: Kind)
    requires WellFormed(h) && slot !in h.keyslots
    ensures WellFormed(WithToken(h, kind, slot))
    ensures PassphraseSlots(WithToken(h, kind, slot)) == PassphraseSlots(h)
    ensures SlotSet(WithToken(h, kind, slot), other) == SlotSet(h, other) + (if other == kind then {slot} else {})
    ensures Enrolled(WithToken(h, kind, slot), other) == Enrolled(h, other) + if other == kind then 1 else 0
  {
    TokenAdded(h.tokens, Token(kind, slot), other);
    NumberAdded(h.keyslots, slot);
  }

  // ---------------------------------------------------------------- what an apply keeps

  predicate Installing(changes: seq<Change>, volume: string, kind: Kind) {
    exists c :: c in changes && c.op == Install && About(c, volume, kind)
  }

  /** Every dump that may be read leaves the same slots to choose from. */
  predicate StaleSafe(seen: seq<Header>, kind: Kind, wiped: set<nat>, now: set<nat>) {
    forall i :: 0 <= i < |seen| ==> SlotSet(seen[i], kind) - wiped == now
  }

  /** No key of the kind that was there is gone from any dump. */
  predicate AllKept(seen: seq<Header>, kind: Kind, before: set<nat>) {
    forall i :: 0 <= i < |seen| ==> before <= SlotSet(seen[i], kind)
  }

  /** The state of one kind of one volume after `n` of its removals, from header `init`; `blind` when
      one of them could not read the dump. */
  predicate KindSafe(init: Header, v: Vol, kind: Kind, installing: bool, n: nat, blind: bool) {
    if installing then
      SlotSet(init, kind) <= SlotSet(v.header, kind) && AllKept(v.seen, kind, SlotSet(init, kind))
    else if blind then
      SlotSet(v.header, kind) == {}
    else
      && SlotSet(v.header, kind) == SlotSet(init, kind) - v.wiped
      && Enrolled(v.header, kind) + n == Enrolled(init, kind)
      && StaleSafe(v.seen, kind, v.wiped, SlotSet(v.header, kind))
  }

  /** A sound header, opened by the passphrases `init` has. */
  predicate SoundHeader(init: Header, h: Header) {
    WellFormed(h) && Readable(h.tokens) && PassphraseSlots(h) == PassphraseSlots(init)
  }

  /** The header is sound and opens with the passphrases it had, and so did every one before it. */
  predicate Sound(init: Header, v: Vol) {
    && WellFormed(init)
    && v.seen != [] && v.header == v.seen[|v.seen| - 1]
    && forall j :: 0 <= j < |v.seen| ==> SoundHeader(init, v.seen[j])
  }

  predicate Removing(c: Change, volume: string, kind: Kind) {
    c.op == Remove && About(c, volume, kind)
  }

  /** Before change `i` one removal of the kind could not read the dump. */
  predicate Blind(changes: seq<Change>, readable: seq<bool>, i: nat, volume: string, kind: Kind) {
    exists j :: 0 <= j < i && j < |changes| && j < |readable| && !readable[j] && Removing(changes[j], volume, kind)
  }

  /** What holds of one volume before change `i` of the batch. */
  ghost predicate Safe(init: Header, v: Vol, volume: string, changes: seq<Change>, readable: seq<bool>, i: nat)
    requires i <= |changes|
  {
    && Sound(init, v)
    && SafeKind(init, v, volume, changes, readable, i, Tpm2)
    && SafeKind(init, v, volume, changes, readable, i, Fido2)
  }

  ghost predicate SafeKind(init: Header, v: Vol, volume: string, changes: seq<Change>, readable: seq<bool>, i: nat, kind: Kind)
    requires i <= |changes|
  {
    KindSafe(init, v, kind, Installing(changes, volume, kind), Removals(changes[..i], volume, kind),
             Blind(changes, readable, i, volume, kind))
  }

  lemma SoundAfter(init: Header, v: Vol, v': Vol)
    requires Sound(init, v) && SoundHeader(init, v'.header) && v'.seen == v.seen + [v'.header]
    ensures Sound(init, v')
  {
  }

  /** The slot may be one of the kind in any earlier header: no passphrase is ever in it. */
  lemma SoundAfterWipe(init: Header, v: Vol, v': Vol, kind: Kind, at: nat, slot: nat)
    requires Sound(init, v) && at < |v.seen| && slot in SlotSet(v.seen[at], kind)
    requires v'.header == Wiped(v.header, slot) && v'.seen == v.seen + [v'.header]
    ensures Sound(init, v')
  {
    assert SoundHeader(init, v.seen[at]);
    BoundContains(v.seen[at].tokens, kind);
    assert slot !in PassphraseSlots(init);
    WipeWellFormed(v.header, slot);
    WipeAny(v.header, slot, kind);
    ReadableAfter(v.header, kind, slot);
    SoundAfter(init, v, v');
  }

  lemma SoundAfterEnrol(init: Header, v: Vol, v': Vol, kind: Kind, slot: nat)
    requires Sound(init, v) && slot !in v.header.keyslots && !kind.Other?
    requires v'.header == WithToken(v.header, kind, slot) && v'.seen == v.seen + [v'.header]
    ensures Sound(init, v')
  {
    EnrolOne(v.header, kind, slot, kind);
    ReadableAfter(v.header, kind, slot);
    SoundAfter(init, v, v');
  }

  lemma RemovalsStep(changes: seq<Change>, i: nat, volume: string, kind: Kind)
    requires i < |changes|
    ensures Removals(changes[..i + 1], volume, kind) ==
            Removals(changes[..i], volume, kind) + (if changes[i].op == Remove && About(changes[i], volume, kind) then 1 else 0)
    ensures Removals(changes[..i + 1], volume, kind) <= Removals(changes, volume, kind)
  {
    var c := changes[i];
    assert changes[..i + 1] == changes[..i] + [c];
    RemovalsAppend(changes[..i], [c], volume, kind);
    assert [c][1..] == [];
    assert changes == changes[..i + 1] + changes[i + 1..];
    RemovalsAppend(changes[..i + 1], changes[i + 1..], volume, kind);
  }

  /** One more change: the kind is blind when it was, or when this is a removal of it that cannot
      read the dump. */
  lemma BlindStep(changes: seq<Change>, readable: seq<bool>, i: nat, volume: string, kind: Kind)
    requires i < |changes| && i < |readable|
    ensures Blind(changes, readable, i + 1, volume, kind) <==>
            Blind(changes, readable, i, volume, kind) || (!readable[i] && Removing(changes[i], volume, kind))
  {
    if Blind(changes, readable, i, volume, kind) {
      var j :| 0 <= j < i && !readable[j] && Removing(changes[j], volume, kind);
    }
  }

  /** A change about another volume, or one that came to nothing, changes nothing here. */
  lemma StepElsewhere(init: Header, v: Vol, volume: string, changes: seq<Change>, readable: seq<bool>, i: nat)
    requires i < |changes| && |readable| == |changes| && Safe(init, v, volume, changes, readable, i)
    requires changes[i].item.volume != volume || changes[i].op == Install
    ensures Safe(init, v, volume, changes, readable, i + 1)
  {
    RemovalsStep(changes, i, volume, Tpm2);
    RemovalsStep(changes, i, volume, Fido2);
    BlindStep(changes, readable, i, volume, Tpm2);
    BlindStep(changes, readable, i, volume, Fido2);
  }

  lemma InstallKeepsKind(init: Header, v: Vol, v': Vol, volume: string, changes: seq<Change>, readable: seq<bool>,
                         i: nat, slot: nat, kind: Kind)
    requires i < |changes| && |readable| == |changes| && Sound(init, v) && SafeKind(init, v, volume, changes, readable, i, kind)
    requires changes[i].op == Install && changes[i].item.volume == volume
    requires slot !in v.header.keyslots
    requires v' == var h := WithToken(v.header, changes[i].item.kind, slot); Vol(h, v.seen + [h], v.wiped)
    ensures SafeKind(init, v', volume, changes, readable, i + 1, kind)
  {
    RemovalsStep(changes, i, volume, kind);
    BlindStep(changes, readable, i, volume, kind);
    assert SoundHeader(init, v.header);
    EnrolOne(v.header, changes[i].item.kind, slot, kind);
    assert About(changes[i], volume, changes[i].item.kind);
    KindAfterGain(init, v, v', kind, Installing(changes, volume, kind), Removals(changes[..i], volume, kind),
                  Blind(changes, readable, i, volume, kind));
  }

  lemma StepInstall(init: Header, v: Vol, volume: string, changes: seq<Change>, readable: seq<bool>, i: nat, slot: nat)
    requires i < |changes| && |readable| == |changes| && Safe(init, v, volume, changes, readable, i)
    requires changes[i].op == Install && changes[i].item.volume == volume && !changes[i].item.kind.Other?
    requires slot !in v.header.keyslots
    ensures var h := WithToken(v.header, changes[i].item.kind, slot);
            Safe(init, Vol(h, v.seen + [h], v.wiped), volume, changes, readable, i + 1)
  {
    var added := changes[i].item.kind;
    var h := WithToken(v.header, added, slot);
    var v' := Vol(h, v.seen + [h], v.wiped);
    SoundAfterEnrol(init, v, v', added, slot);
    InstallKeepsKind(init, v, v', volume, changes, readable, i, slot, Tpm2);
    InstallKeepsKind(init, v, v', volume, changes, readable, i, slot, Fido2);
  }

  /** As long as every removal of the kind could read a dump: whatever dump is read, the slots it
      leaves to choose from are the ones still standing, and there is one. */
  lemma CandidatesStand(init: Header, v: Vol, volume: string, changes: seq<Change>, readable: seq<bool>, i: nat, at: nat)
    requires i < |changes| && Safe(init, v, volume, changes, readable, i) && at < |v.seen|
    requires !changes[i].item.kind.Other?
    requires changes[i].op == Remove && changes[i].item.volume == volume
    requires Affordable(changes, volume, changes[i].item.kind, init)
    requires !Blind(changes, readable, i, volume, changes[i].item.kind)
    ensures SlotSet(v.seen[at], changes[i].item.kind) - v.wiped == SlotSet(v.header, changes[i].item.kind)
    ensures SlotSet(v.header, changes[i].item.kind) != {}
  {
    var kind := changes[i].item.kind;
    RemovalsStep(changes, i, volume, kind);
    assert SafeKind(init, v, volume, changes, readable, i, kind);
    CountPositive(v.header.tokens, kind);
  }

  /** A removal names one slot of a dump, new or old. */
  lemma SlotKeepsKind(init: Header, v: Vol, v': Vol, volume: string, changes: seq<Change>, readable: seq<bool>,
                      i: nat, at: nat, slot: nat, kind: Kind)
    requires i < |changes| && |readable| == |changes| && Sound(init, v) && SafeKind(init, v, volume, changes, readable, i, kind)
    requires changes[i].op == Remove && changes[i].item.volume == volume && readable[i]
    requires !Installing(changes, volume, changes[i].item.kind)
    requires at < |v.seen| && slot in SlotSet(v.seen[at], changes[i].item.kind) - v.wiped
    requires v' == var h := Wiped(v.header, slot); Vol(h, v.seen + [h], v.wiped + {slot})
    ensures SafeKind(init, v', volume, changes, readable, i + 1, kind)
  {
    var removed := changes[i].item.kind;
    RemovalsStep(changes, i, volume, kind);
    BlindStep(changes, readable, i, volume, kind);
    assert SoundHeader(init, v.header) && SoundHeader(init, v.seen[at]);
    WipeAny(v.header, slot, kind);
    if kind != removed {
      OneKind(v.seen[at].tokens, removed, kind);
    }
    KindAfterWipe(init, v, v', kind, Installing(changes, volume, kind), Removals(changes[..i], volume, kind),
                  Blind(changes, readable, i, volume, kind), at, slot, kind == removed);
  }

  /** A removal names the kind. */
  lemma KindKeepsKind(init: Header, v: Vol, v': Vol, volume: string, changes: seq<Change>, readable: seq<bool>,
                      i: nat, kind: Kind)
    requires i < |changes| && |readable| == |changes| && Sound(init, v) && SafeKind(init, v, volume, changes, readable, i, kind)
    requires changes[i].op == Remove && changes[i].item.volume == volume
    requires !Installing(changes, volume, changes[i].item.kind)
    requires Blind(changes, readable, i + 1, volume, changes[i].item.kind)
    requires v' == var h := WipedAll(v.header, SlotSet(v.header, changes[i].item.kind)); Vol(h, v.seen + [h], v.wiped)
    ensures SafeKind(init, v', volume, changes, readable, i + 1, kind)
  {
    var removed := changes[i].item.kind;
    RemovalsStep(changes, i, volume, kind);
    BlindStep(changes, readable, i, volume, kind);
    assert SoundHeader(init, v.header);
    WipeKind(v.header, removed, kind);
    if kind != removed {
      KindAfterGain(init, v, v', kind, Installing(changes, volume, kind), Removals(changes[..i], volume, kind),
                    Blind(changes, readable, i, volume, kind));
    }
  }

  lemma StaleAfterWipe(seen: seq<Header>, kind: Kind, wiped: set<nat>, now: set<nat>, h: Header, slot: nat)
    requires StaleSafe(seen, kind, wiped, now) && SlotSet(h, kind) == now - {slot} && now !! wiped
    ensures StaleSafe(seen + [h], kind, wiped + {slot}, now - {slot})
  {
    var after := seen + [h];
    forall i | 0 <= i < |after|
      ensures SlotSet(after[i], kind) - (wiped + {slot}) == now - {slot}
    {
      if i < |seen| {
        var s := SlotSet(seen[i], kind);
        assert s - (wiped + {slot}) == (s - wiped) - {slot};
      } else {
        assert (now - {slot}) - (wiped + {slot}) == now - {slot};
      }
    }
  }

  lemma StaleAfterEnrol(seen: seq<Header>, kind: Kind, wiped: set<nat>, now: set<nat>, h: Header)
    requires StaleSafe(seen, kind, wiped, now) && SlotSet(h, kind) == now && now !! wiped
    ensures StaleSafe(seen + [h], kind, wiped, now)
  {
    assert now - wiped == now;
  }

  lemma KindAfterWipe(init: Header, v: Vol, v': Vol, kind: Kind, installing: bool, n: nat, blind: bool,
                      at: nat, slot: nat, same: bool)
    requires KindSafe(init, v, kind, installing, n, blind)
    requires at < |v.seen| && slot !in v.wiped
    requires v'.seen == v.seen + [v'.header] && v'.wiped == v.wiped + {slot}
    requires SlotSet(v'.header, kind) == SlotSet(v.header, kind) - {slot}
    requires Enrolled(v.header, kind) == Enrolled(v'.header, kind) + if slot in SlotSet(v.header, kind) then 1 else 0
    requires same <==> slot in SlotSet(v.seen[at], kind)
    requires same ==> !installing
    ensures KindSafe(init, v', kind, installing, if same then n + 1 else n, blind)
  {
    var a, now := SlotSet(init, kind), SlotSet(v.header, kind);
    if installing {
      assert a <= SlotSet(v.seen[at], kind);
    } else if !blind {
      assert now !! v.wiped;
      assert SlotSet(v.seen[at], kind) - v.wiped == now;
      StaleAfterWipe(v.seen, kind, v.wiped, now, v'.header, slot);
      assert a - (v.wiped + {slot}) == (a - v.wiped) - {slot};
    }
  }

  /** The kind gained nothing, or only gained. */
  lemma KindAfterGain(init: Header, v: Vol, v': Vol, kind: Kind, installing: bool, n: nat, blind: bool)
    requires KindSafe(init, v, kind, installing, n, blind)
    requires v'.seen == v.seen + [v'.header] && v'.wiped == v.wiped
    requires if installing then SlotSet(v.header, kind) <= SlotSet(v'.header, kind)
             else SlotSet(v'.header, kind) == SlotSet(v.header, kind) && Enrolled(v'.header, kind) == Enrolled(v.header, kind)
    ensures KindSafe(init, v', kind, installing, n, blind)
  {
    if !installing && !blind {
      assert SlotSet(v.header, kind) !! v.wiped;
      StaleAfterEnrol(v.seen, kind, v.wiped, SlotSet(v.header, kind), v'.header);
    }
  }

  // ---------------------------------------------------------------- the apply

  datatype Command = EnrolledAt(volume: string, kind: Kind, slot: nat)
                   | SkippedBy(volume: string, kind: Kind)
                   | WipedSlot(volume: string, slot: nat)
                   | WipedKind(volume: string, kind: Kind)

  datatype Outcome = Done | Raised

  datatype Enrolment = Added | Skipped | Failed

  /** A batch no volume and kind of which is both installed and removed, and which removes no more
      keys than there are. */
  ghost predicate Batch(changes: seq<Change>, headers: Headers) {
    && (forall v :: v in headers ==> WellFormed(headers[v]) && Readable(headers[v].tokens))
    && (forall c :: c in changes ==> !c.item.kind.Other?)
    && (forall c :: c in changes && c.op == Remove ==> !Installing(changes, c.item.volume, c.item.kind))
    && (forall c :: c in changes && c.op == Remove && c.item.volume in headers ==>
         Removals(changes, c.item.volume, c.item.kind) <= Enrolled(headers[c.item.volume], c.item.kind))
  }

  function FreeSlot(slots: seq<nat>): (n: nat)
    ensures forall s :: s in slots ==> s < n
  {
    if slots == [] then 0
    else
      var m := FreeSlot(slots[1..]);
      assert forall s :: s in slots ==> s == slots[0] || s in slots[1..];
      if slots[0] >= m then slots[0] + 1 else m
  }

  class LuksTokenAction {
    var vols: map<string, Vol>
    ghost var log: seq<Command>
    /** How many commands failed. */
    ghost var failures: nat

    predicate Valid()
      reads this
    {
      forall v :: v in vols ==> vols[v].seen != []
    }

    constructor (headers: Headers)
      ensures Valid() && vols.Keys == headers.Keys && log == [] && failures == 0
      ensures forall v :: v in headers ==> vols[v] == Vol(headers[v], [headers[v]], {})
    {
      vols := map v | v in headers :: Vol(headers[v], [headers[v]], {});
      log := [];
      failures := 0;
    }

    /** `_enrol`: succeeds in a free keyslot, is skipped, or raises. */
    method Enrol(volume: string, kind: Kind) returns (r: Enrolment, slot: nat)
      requires Valid() && volume in vols
      modifies this
      ensures Valid()
      ensures r.Added? ==>
        && AddedTo(old(vols[volume]), kind, slot, vols, volume)
        && vols == old(vols)[volume := vols[volume]]
        && log == old(log) + [EnrolledAt(volume, kind, slot)]
      ensures !r.Added? ==> vols == old(vols)
      ensures r.Skipped? ==> log == old(log) + [SkippedBy(volume, kind)]
      ensures r.Failed? ==> log == old(log)
      ensures failures == old(failures) + if r.Failed? then 1 else 0
    {
      var works: bool := *;
      var skips: bool := *;
      slot := 0;
      if !works {
        if skips {
          log := log + [SkippedBy(volume, kind)];
          return Skipped, slot;
        }
        failures := failures + 1;
        return Failed, slot;
      }
      var v := vols[volume];
      slot := FreeSlot(v.header.keyslots);
      var h := WithToken(v.header, kind, slot);
      vols := vols[volume := Vol(h, v.seen + [h], v.wiped)];
      log := log + [EnrolledAt(volume, kind, slot)];
      return Added, slot;
    }

    /** `_wipe`: reads a dump, current or stale, and names the highest slot of the kind this apply
        has not wiped yet. When none can be read, or only one without the tokens' keyslots (an older
        cryptsetup leaves those to its plugins), no slot is shown, and when the dump leaves none the
        whole kind is named. The command may fail. */
    method Wipe(volume: string, kind: Kind, readable: bool) returns (ok: bool, at: nat, slot: nat)
      requires Valid() && volume in vols && !kind.Other?
      modifies this
      ensures Valid()
      ensures at < |old(vols[volume].seen)|
      ensures failures == old(failures) + if ok then 0 else 1
      ensures !ok ==> vols == old(vols) && log == old(log)
      ensures ok ==>
        && volume in vols && vols == old(vols)[volume := vols[volume]]
        && |log| == |old(log)| + 1 && log == old(log) + [log[|old(log)|]]
        && WipedFrom(old(vols[volume]), volume, kind, readable, at, slot, vols[volume], log[|old(log)|])
    {
      var v := vols[volume];
      at :| 0 <= at < |v.seen|;
      var dump := Dump(v.seen[at]);
      if !readable {
        assert NoRefs([]);
        dump :| NoRefs(dump);
        NoRefsNoSlots(dump, "", false, TypeName(kind));
      }
      var slots := SlotsOf(dump, kind);
      slots := slots - v.wiped;
      slot := 0;
      var works: bool := *;
      if !works {
        failures := failures + 1;
        return false, at, slot;
      }
      if slots != {} {
        slot := Highest(slots);
        var h := Wiped(v.header, slot);
        vols := vols[volume := Vol(h, v.seen + [h], v.wiped + {slot})];
        log := log + [WipedSlot(volume, slot)];
      } else {
        var h := WipedAll(v.header, SlotSet(v.header, kind));
        vols := vols[volume := Vol(h, v.seen + [h], v.wiped)];
        log := log + [WipedKind(volume, kind)];
      }
      return true, at, slot;
    }

    /** One INSTALL of the batch. */
    method ApplyInstall(changes: seq<Change>, readable: seq<bool>, i: nat, skipped: set<(string, Kind)>, ghost w: string, ghost init: Header)
      returns (ok: bool, skipped': set<(string, Kind)>)
      requires Valid() && i < |changes| && |readable| == |changes| && changes[i].op == Install && changes[i].item.volume in vols
      requires !changes[i].item.kind.Other?
      requires w in vols && Kept(init, vols[w], w, changes, readable, i, log) && Asked(log, skipped)
      modifies this
      ensures Valid() && vols.Keys == old(vols.Keys) && Asked(log, skipped')
      ensures failures == old(failures) + if ok then 0 else 1
      ensures Kept(init, vols[w], w, changes, readable, if ok then i + 1 else i, log)
    {
      var volume, kind := changes[i].item.volume, changes[i].item.kind;
      if (volume, kind) in skipped {
        SkippedOnRecord(log, skipped, volume, kind);
        KeptIdle(init, vols[w], w, changes, readable, i, log);
        return true, skipped;
      }
      ghost var v, was, log0 := vols[volume], vols[w], log;
      var outcome, slot := Enrol(volume, kind);
      if outcome.Failed? {
        return false, skipped;
      }
      if outcome.Skipped? {
        AskedSkip(log0, skipped, volume, kind);
        KeptSkip(init, was, w, changes, readable, i, log0);
        return true, skipped + {(volume, kind)};
      }
      AskedSame(log0, skipped, EnrolledAt(volume, kind, slot));
      KeptInstallAny(init, v, was, vols[w], w, changes, readable, i, slot, log0);
      return true, skipped;
    }

    /** One REMOVE of the batch. */
    method ApplyRemove(changes: seq<Change>, readable: seq<bool>, i: nat, ghost skipped: set<(string, Kind)>, ghost w: string,
                       ghost init: Header) returns (ok: bool)
      requires Valid() && i < |changes| && |readable| == |changes| && changes[i].op == Remove && changes[i].item.volume in vols
      requires !changes[i].item.kind.Other?
      requires w in vols && Kept(init, vols[w], w, changes, readable, i, log) && Asked(log, skipped)
      requires changes[i].item.volume == w ==> Affordable(changes, w, changes[i].item.kind, init)
      modifies this
      ensures Valid() && vols.Keys == old(vols.Keys) && Asked(log, skipped)
      ensures failures == old(failures) + if ok then 0 else 1
      ensures Kept(init, vols[w], w, changes, readable, if ok then i + 1 else i, log)
    {
      var volume, kind := changes[i].item.volume, changes[i].item.kind;
      ghost var v, was, log0 := vols[volume], vols[w], log;
      var at, slot;
      ok, at, slot := Wipe(volume, kind, readable[i]);
      if ok {
        ghost var command := log[|log0|];
        AskedSame(log0, skipped, command);
        KeptRemoveAny(init, v, vols[volume], was, vols[w], w, changes, readable, i, at, slot, log0, command);
      }
    }

    /** One change of the batch. */
    method ApplyOne(changes: seq<Change>, readable: seq<bool>, i: nat, skipped: set<(string, Kind)>, ghost w: string, ghost init: Header)
      returns (ok: bool, skipped': set<(string, Kind)>)
      requires Valid() && i < |changes| && |readable| == |changes| && changes[i].item.volume in vols && !changes[i].item.kind.Other?
      requires w in vols && Kept(init, vols[w], w, changes, readable, i, log) && Asked(log, skipped)
      requires changes[i].op == Remove && changes[i].item.volume == w ==> Affordable(changes, w, changes[i].item.kind, init)
      modifies this
      ensures Valid() && vols.Keys == old(vols.Keys) && Asked(log, skipped')
      ensures failures == old(failures) + if ok then 0 else 1
      ensures Kept(init, vols[w], w, changes, readable, if ok then i + 1 else i, log)
    {
      skipped' := skipped;
      if changes[i].op == Install {
        ok, skipped' := ApplyInstall(changes, readable, i, skipped, w, init);
      } else {
        ok := ApplyRemove(changes, readable, i, skipped, w, init);
      }
    }

    /** The batch stands before change `i`. */
    ghost predicate Before(headers: Headers, w: string, changes: seq<Change>, readable: seq<bool>, i: nat)
      reads this
    {
      && Valid() && vols.Keys == headers.Keys && w in headers && |readable| == |changes|
      && Kept(headers[w], vols[w], w, changes, readable, i, log) && SkipsStand(log)
    }

    /** One turn of `apply`. */
    method ApplyNext(changes: seq<Change>, readable: seq<bool>, i: nat, skipped: set<(string, Kind)>,
                     ghost headers: Headers, ghost w: string)
      returns (ok: bool, skipped': set<(string, Kind)>)
      requires i < |changes| && Batch(changes, headers) && Before(headers, w, changes, readable, i) && Asked(log, skipped)
      modifies this
      ensures Before(headers, w, changes, readable, if ok then i + 1 else i) && Asked(log, skipped')
      ensures failures >= old(failures) && (!ok ==> failures > old(failures) || Unknown(changes[i], headers))
    {
      if IndexOf(changes[i].item).None? || changes[i].item.volume !in vols {
        return false, skipped;
      }
      BatchAffords(changes, headers, changes[i]);
      ok, skipped' := ApplyOne(changes, readable, i, skipped, w, headers[w]);
    }

    /** `apply`. The batch stops only at a command that fails, or at an item without a number or an open
        volume, having carried out the changes before it; nobody who skipped is asked again. `readable`
        tells which changes find a dump that can be read and shows the tokens' keyslots. For any one
        volume `w`: the header stays sound, every passphrase still opens it, each installation enrols
        one key unless its kind was skipped, each removal that reads a dump wipes one slot that still
        stands, and one that cannot wipes the kind. */
    method Apply(changes: seq<Change>, readable: seq<bool>, ghost headers: Headers, ghost w: string) returns (r: Outcome, ghost done: nat)
      requires |readable| == |changes|
      requires Valid() && Batch(changes, headers) && vols.Keys == headers.Keys && log == [] && w in headers
      requires vols[w] == Vol(headers[w], [headers[w]], {})
      modifies this
      ensures done <= |changes| && (r.Done? <==> done == |changes|)
      ensures r.Raised? ==> failures > old(failures) || Unknown(changes[done], headers)
      ensures Before(headers, w, changes, readable, done)
    {
      var skipped: set<(string, Kind)> := {};
      InitiallySafe(changes, readable, headers[w], w);
      for i := 0 to |changes|
        invariant Before(headers, w, changes, readable, i) && Asked(log, skipped) && failures >= old(failures)
      {
        var ok;
        ok, skipped := ApplyNext(changes, readable, i, skipped, headers, w);
        if !ok {
          return Raised, i;
        }
      }
      return Done, |changes|;
    }
  }

  /** The change names no open volume, or has no number. */
  predicate Unknown(c: Change, headers: Headers) {
    IndexOf(c.item).None? || c.item.volume !in headers
  }

  /** Who has skipped is on record, and has not been asked again. */
  ghost predicate Asked(log: seq<Command>, skipped: set<(string, Kind)>) {
    (forall v, k :: (v, k) in skipped <==> SkippedBy(v, k) in log) && SkipsStand(log)
  }

  lemma SkippedOnRecord(log: seq<Command>, skipped: set<(string, Kind)>, volume: string, kind: Kind)
    requires Asked(log, skipped) && (volume, kind) in skipped
    ensures SkippedBy(volume, kind) in log
  {
  }

  lemma AskedSkip(log: seq<Command>, skipped: set<(string, Kind)>, volume: string, kind: Kind)
    requires Asked(log, skipped) && (volume, kind) !in skipped
    ensures Asked(log + [SkippedBy(volume, kind)], skipped + {(volume, kind)})
  {
    SkipsStandSnoc(log, SkippedBy(volume, kind));
  }

  lemma AskedSame(log: seq<Command>, skipped: set<(string, Kind)>, e: Command)
    requires Asked(log, skipped) && !e.SkippedBy? && (e.EnrolledAt? ==> (e.volume, e.kind) !in skipped)
    ensures Asked(log + [e], skipped)
  {
    SkipsStandSnoc(log, e);
  }

  /** After a skip nothing of that volume and kind is enrolled, and nobody is asked for it. */
  ghost predicate SkipsStand(log: seq<Command>) {
    forall i, j :: 0 <= i < j < |log| && log[i].SkippedBy? ==> !AsksFor(log[j], log[i].volume, log[i].kind)
  }

  predicate AsksFor(e: Command, volume: string, kind: Kind) {
    e == SkippedBy(volume, kind) || (e.EnrolledAt? && e.volume == volume && e.kind == kind)
  }

  lemma SkipsStandSnoc(log: seq<Command>, e: Command)
    requires SkipsStand(log) && forall f :: f in log && f.SkippedBy? ==> !AsksFor(e, f.volume, f.kind)
    ensures SkipsStand(log + [e])
  {
  }

  // ---------------------------------------------------------------- the book of installations

  function InstallsOf(changes: seq<Change>, volume: string, kind: Kind): nat {
    if changes == [] then 0
    else
      var c := changes[|changes| - 1];
      InstallsOf(changes[..|changes| - 1], volume, kind) + if c.op == Install && About(c, volume, kind) then 1 else 0
  }

  function EnrolledIn(log: seq<Command>, volume: string, kind: Kind): nat {
    if log == [] then 0
    else
      var e := log[|log| - 1];
      EnrolledIn(log[..|log| - 1], volume, kind) + if e.EnrolledAt? && e.volume == volume && e.kind == kind then 1 else 0
  }

  lemma EnrolledSnoc(log: seq<Command>, e: Command, volume: string, kind: Kind)
    ensures EnrolledIn(log + [e], volume, kind) ==
            EnrolledIn(log, volume, kind) + if e.EnrolledAt? && e.volume == volume && e.kind == kind then 1 else 0
  {
    assert (log + [e])[..|log|] == log;
  }

  lemma InstallsSnoc(changes: seq<Change>, i: nat, volume: string, kind: Kind)
    requires i < |changes|
    ensures InstallsOf(changes[..i + 1], volume, kind) ==
            InstallsOf(changes[..i], volume, kind) + if changes[i].op == Install && About(changes[i], volume, kind) then 1 else 0
  {
    assert changes[..i + 1][..i] == changes[..i];
  }

  /** Every removal on the volume so far could read the dump. */
  predicate AllRead(changes: seq<Change>, readable: seq<bool>, i: nat, w: string) {
    !Blind(changes, readable, i, w, Tpm2) && !Blind(changes, readable, i, w, Fido2)
  }

  /** Each installation of the kind enrolled one key, unless somebody skipped; and while the dumps can
      be read, the header has those keys on top of the ones it had. */
  predicate BookedKind(init: Header, v: Vol, log: seq<Command>, w: string, kind: Kind, installs: nat, installing: bool, read: bool) {
    && EnrolledIn(log, w, kind) <= installs
    && (SkippedBy(w, kind) !in log ==> EnrolledIn(log, w, kind) == installs)
    && (installing && read ==> Enrolled(v.header, kind) == Enrolled(init, kind) + EnrolledIn(log, w, kind))
  }

  ghost predicate Booked(init: Header, v: Vol, w: string, changes: seq<Change>, readable: seq<bool>, i: nat, log: seq<Command>, kind: Kind)
    requires i <= |changes|
  {
    BookedKind(init, v, log, w, kind, InstallsOf(changes[..i], w, kind), Installing(changes, w, kind), AllRead(changes, readable, i, w))
  }

  lemma AllReadBefore(changes: seq<Change>, readable: seq<bool>, i: nat, w: string)
    requires i < |changes| && i < |readable| && AllRead(changes, readable, i + 1, w)
    ensures AllRead(changes, readable, i, w)
  {
    BlindStep(changes, readable, i, w, Tpm2);
    BlindStep(changes, readable, i, w, Fido2);
  }

  /** Nothing of this kind happens. */
  lemma BookIdle(init: Header, v: Vol, w: string, changes: seq<Change>, readable: seq<bool>, i: nat, log: seq<Command>, kind: Kind)
    requires i < |changes| && |readable| == |changes| && Booked(init, v, w, changes, readable, i, log, kind)
    requires changes[i].op == Install && About(changes[i], w, kind) ==> SkippedBy(w, kind) in log
    ensures Booked(init, v, w, changes, readable, i + 1, log, kind)
  {
    InstallsSnoc(changes, i, w, kind);
    if AllRead(changes, readable, i + 1, w) {
      AllReadBefore(changes, readable, i, w);
    }
  }

  /** A command that enrols nothing of this kind, and leaves its keys. */
  lemma BookOther(init: Header, v: Vol, after: Vol, w: string, changes: seq<Change>, readable: seq<bool>, i: nat, log: seq<Command>,
                  e: Command, kind: Kind)
    requires i <= |changes| && Booked(init, v, w, changes, readable, i, log, kind)
    requires !(e.EnrolledAt? && e.volume == w && e.kind == kind)
    requires Installing(changes, w, kind) && AllRead(changes, readable, i, w) ==> Enrolled(after.header, kind) == Enrolled(v.header, kind)
    ensures Booked(init, after, w, changes, readable, i, log + [e], kind)
  {
    EnrolledSnoc(log, e, w, kind);
  }

  lemma BookInstall(init: Header, v: Vol, after: Vol, w: string, changes: seq<Change>, readable: seq<bool>, i: nat, slot: nat,
                    log: seq<Command>, kind: Kind)
    requires i < |changes| && |readable| == |changes| && Sound(init, v) && Booked(init, v, w, changes, readable, i, log, kind)
    requires changes[i].op == Install && changes[i].item.volume == w && slot !in v.header.keyslots
    requires after == var h := WithToken(v.header, changes[i].item.kind, slot); Vol(h, v.seen + [h], v.wiped)
    ensures Booked(init, after, w, changes, readable, i + 1, log + [EnrolledAt(w, changes[i].item.kind, slot)], kind)
  {
    assert SoundHeader(init, v.header);
    EnrolOne(v.header, changes[i].item.kind, slot, kind);
    InstallsSnoc(changes, i, w, kind);
    EnrolledSnoc(log, EnrolledAt(w, changes[i].item.kind, slot), w, kind);
    if AllRead(changes, readable, i + 1, w) {
      AllReadBefore(changes, readable, i, w);
    }
  }

  lemma BookSkip(init: Header, v: Vol, w: string, changes: seq<Change>, readable: seq<bool>, i: nat, log: seq<Command>, kind: Kind)
    requires i < |changes| && |readable| == |changes| && Booked(init, v, w, changes, readable, i, log, kind)
    requires changes[i].op == Install
    ensures Booked(init, v, w, changes, readable, i + 1, log + [SkippedBy(changes[i].item.volume, changes[i].item.kind)], kind)
  {
    var e := SkippedBy(changes[i].item.volume, changes[i].item.kind);
    EnrolledSnoc(log, e, w, kind);
    InstallsSnoc(changes, i, w, kind);
    if About(changes[i], w, kind) {
      assert e in log + [e];
    }
    if AllRead(changes, readable, i + 1, w) {
      AllReadBefore(changes, readable, i, w);
    }
  }

  /** A removal that names one slot takes no key of a kind that is installed, while dumps can be read. */
  lemma SlotSparesInstalled(init: Header, v: Vol, w: string, changes: seq<Change>, readable: seq<bool>, i: nat, at: nat, slot: nat, kind: Kind)
    requires i < |changes| && |readable| == |changes| && Safe(init, v, w, changes, readable, i) && at < |v.seen|
    requires changes[i].op == Remove && changes[i].item.volume == w && !changes[i].item.kind.Other?
    requires Affordable(changes, w, changes[i].item.kind, init)
    requires slot in SlotSet(v.seen[at], changes[i].item.kind) - v.wiped
    requires Installing(changes, w, kind) && AllRead(changes, readable, i, w)
    ensures Enrolled(Wiped(v.header, slot), kind) == Enrolled(v.header, kind)
  {
    CandidatesStand(init, v, w, changes, readable, i, at);
    assert SoundHeader(init, v.header);
    WipeOne(v.header, changes[i].item.kind, slot, kind);
  }

  // ---------------------------------------------------------------- the steps of an apply

  predicate AddedTo(v: Vol, kind: Kind, slot: nat, vols: map<string, Vol>, volume: string) {
    && slot !in v.header.keyslots
    && volume in vols
    && vols[volume] == var h := WithToken(v.header, kind, slot); Vol(h, v.seen + [h], v.wiped)
  }

  /** The dump read, if any, is the header of some moment of this apply, and of the slots it shows
      and this apply has not wiped the highest is taken. */
  predicate WipedFrom(v: Vol, volume: string, kind: Kind, readable: bool, at: nat, slot: nat, after: Vol, command: Command)
    requires at < |v.seen|
  {
    var candidates := TokenSlots(if readable then Dump(v.seen[at]) else [], "", false, TypeName(kind)) - v.wiped;
    if candidates != {} then
      && slot in candidates && (forall s :: s in candidates ==> s <= slot)
      && after == (var h := Wiped(v.header, slot); Vol(h, v.seen + [h], v.wiped + {slot}))
      && command == WipedSlot(volume, slot)
    else
      && after == (var h := WipedAll(v.header, SlotSet(v.header, kind)); Vol(h, v.seen + [h], v.wiped))
      && command == WipedKind(volume, kind)
  }

  predicate Affordable(changes: seq<Change>, volume: string, kind: Kind, init: Header) {
    !Installing(changes, volume, kind) && Removals(changes, volume, kind) <= Enrolled(init, kind)
  }

  lemma BatchAffords(changes: seq<Change>, headers: Headers, c: Change)
    requires Batch(changes, headers) && c in changes
    ensures !c.item.kind.Other?
    ensures c.op == Remove && c.item.volume in headers ==> Affordable(changes, c.item.volume, c.item.kind, headers[c.item.volume])
  {
  }

  /** On this volume the slots wiped one by one are on record, each once. */
  ghost predicate LogMatches(log: seq<Command>, w: string, wiped: set<nat>) {
    && (forall e :: e in log && e.volume == w && e.WipedSlot? ==> e.slot in wiped)
    && (forall i, j :: 0 <= i < j < |log| && log[i].WipedSlot? && log[i].volume == w ==> log[i] != log[j])
  }

  /** A kind was wiped whole exactly when a removal of it could not read the dump. */
  ghost predicate WholeIff(log: seq<Command>, w: string, changes: seq<Change>, readable: seq<bool>, i: nat, kind: Kind) {
    WipedKind(w, kind) in log <==> Blind(changes, readable, i, w, kind)
  }

  /** What an apply keeps on volume `w`, before change `i`. */
  ghost predicate Kept(init: Header, v: Vol, w: string, changes: seq<Change>, readable: seq<bool>, i: nat, log: seq<Command>) {
    && i <= |changes| && |readable| == |changes|
    && Safe(init, v, w, changes, readable, i) && LogMatches(log, w, v.wiped)
    && WholeIff(log, w, changes, readable, i, Tpm2) && WholeIff(log, w, changes, readable, i, Fido2)
    && Booked(init, v, w, changes, readable, i, log, Tpm2) && Booked(init, v, w, changes, readable, i, log, Fido2)
  }

  lemma KeptIdle(init: Header, v: Vol, w: string, changes: seq<Change>, readable: seq<bool>, i: nat, log: seq<Command>)
    requires i < |changes| && Kept(init, v, w, changes, readable, i, log)
    requires changes[i].item.volume != w || (changes[i].op == Install && SkippedBy(w, changes[i].item.kind) in log)
    ensures Kept(init, v, w, changes, readable, i + 1, log)
  {
    BookIdle(init, v, w, changes, readable, i, log, Tpm2);
    BookIdle(init, v, w, changes, readable, i, log, Fido2);
    StepElsewhere(init, v, w, changes, readable, i);
    BlindStep(changes, readable, i, w, Tpm2);
    BlindStep(changes, readable, i, w, Fido2);
  }

  lemma KeptSkip(init: Header, v: Vol, w: string, changes: seq<Change>, readable: seq<bool>, i: nat, log: seq<Command>)
    requires i < |changes| && Kept(init, v, w, changes, readable, i, log) && changes[i].op == Install
    ensures Kept(init, v, w, changes, readable, i + 1, log + [SkippedBy(changes[i].item.volume, changes[i].item.kind)])
  {
    BookSkip(init, v, w, changes, readable, i, log, Tpm2);
    BookSkip(init, v, w, changes, readable, i, log, Fido2);
    StepElsewhere(init, v, w, changes, readable, i);
    BlindStep(changes, readable, i, w, Tpm2);
    BlindStep(changes, readable, i, w, Fido2);
    LogElsewhere(log, w, v.wiped, SkippedBy(changes[i].item.volume, changes[i].item.kind));
  }

  lemma LogElsewhere(log: seq<Command>, w: string, wiped: set<nat>, command: Command)
    requires LogMatches(log, w, wiped) && (command.volume != w || !command.WipedSlot?)
    ensures LogMatches(log + [command], w, wiped)
  {
  }

  lemma LogWipe(log: seq<Command>, w: string, wiped: set<nat>, slot: nat)
    requires LogMatches(log, w, wiped) && slot !in wiped
    ensures LogMatches(log + [WipedSlot(w, slot)], w, wiped + {slot})
  {
  }

  lemma KeptElsewhere(init: Header, v: Vol, w: string, changes: seq<Change>, readable: seq<bool>, i: nat,
                      log: seq<Command>, command: Command)
    requires Kept(init, v, w, changes, readable, i, log) && command.volume != w
    ensures Kept(init, v, w, changes, readable, i, log + [command])
  {
    LogElsewhere(log, w, v.wiped, command);
    BookOther(init, v, v, w, changes, readable, i, log, command, Tpm2);
    BookOther(init, v, v, w, changes, readable, i, log, command, Fido2);
  }

  lemma KeptInstall(init: Header, v: Vol, after: Vol, w: string, changes: seq<Change>, readable: seq<bool>, i: nat,
                    slot: nat, log: seq<Command>)
    requires i < |changes| && Kept(init, v, w, changes, readable, i, log)
    requires changes[i].op == Install && changes[i].item.volume == w && !changes[i].item.kind.Other?
    requires slot !in v.header.keyslots
    requires after == var h := WithToken(v.header, changes[i].item.kind, slot); Vol(h, v.seen + [h], v.wiped)
    ensures Kept(init, after, w, changes, readable, i + 1, log + [EnrolledAt(w, changes[i].item.kind, slot)])
  {
    StepInstall(init, v, w, changes, readable, i, slot);
    BookInstall(init, v, after, w, changes, readable, i, slot, log, Tpm2);
    BookInstall(init, v, after, w, changes, readable, i, slot, log, Fido2);
    LogElsewhere(log, w, v.wiped, EnrolledAt(w, changes[i].item.kind, slot));
    BlindStep(changes, readable, i, w, Tpm2);
    BlindStep(changes, readable, i, w, Fido2);
  }

  lemma BookSlot(init: Header, v: Vol, after: Vol, w: string, changes: seq<Change>, readable: seq<bool>, i: nat,
                 at: nat, slot: nat, log: seq<Command>, kind: Kind)
    requires i < |changes| && |readable| == |changes| && Safe(init, v, w, changes, readable, i) && at < |v.seen|
    requires Booked(init, v, w, changes, readable, i, log, kind)
    requires changes[i].op == Remove && changes[i].item.volume == w && readable[i]
    requires Affordable(changes, w, changes[i].item.kind, init) && !changes[i].item.kind.Other?
    requires slot in SlotSet(v.seen[at], changes[i].item.kind) - v.wiped
    requires after == var h := Wiped(v.header, slot); Vol(h, v.seen + [h], v.wiped + {slot})
    ensures Booked(init, after, w, changes, readable, i + 1, log + [WipedSlot(w, slot)], kind)
  {
    if Installing(changes, w, kind) && AllRead(changes, readable, i, w) {
      SlotSparesInstalled(init, v, w, changes, readable, i, at, slot, kind);
    }
    BookOther(init, v, after, w, changes, readable, i, log, WipedSlot(w, slot), kind);
    BookIdle(init, after, w, changes, readable, i, log + [WipedSlot(w, slot)], kind);
  }

  /** A kind wiped whole leaves the book of the others; its own is closed. */
  lemma BookWhole(init: Header, v: Vol, after: Vol, w: string, changes: seq<Change>, readable: seq<bool>, i: nat, log: seq<Command>, kind: Kind)
    requires i < |changes| && |readable| == |changes| && Sound(init, v) && Booked(init, v, w, changes, readable, i, log, kind)
    requires changes[i].op == Remove && changes[i].item.volume == w && !Installing(changes, w, changes[i].item.kind)
    requires after == var h := WipedAll(v.header, SlotSet(v.header, changes[i].item.kind)); Vol(h, v.seen + [h], v.wiped)
    ensures Booked(init, after, w, changes, readable, i + 1, log + [WipedKind(w, changes[i].item.kind)], kind)
  {
    assert SoundHeader(init, v.header);
    WipeKind(v.header, changes[i].item.kind, kind);
    BookOther(init, v, after, w, changes, readable, i, log, WipedKind(w, changes[i].item.kind), kind);
    BookIdle(init, after, w, changes, readable, i, log + [WipedKind(w, changes[i].item.kind)], kind);
  }

  /** An installation, on this volume or another. */
  lemma KeptInstallAny(init: Header, v: Vol, was: Vol, now: Vol, w: string, changes: seq<Change>, readable: seq<bool>, i: nat,
                       slot: nat, log: seq<Command>)
    requires i < |changes| && Kept(init, was, w, changes, readable, i, log)
    requires changes[i].op == Install && !changes[i].item.kind.Other? && slot !in v.header.keyslots
    requires if changes[i].item.volume == w
             then v == was && now == (var h := WithToken(v.header, changes[i].item.kind, slot); Vol(h, v.seen + [h], v.wiped))
             else now == was
    ensures Kept(init, now, w, changes, readable, i + 1, log + [EnrolledAt(changes[i].item.volume, changes[i].item.kind, slot)])
  {
    if changes[i].item.volume == w {
      KeptInstall(init, v, now, w, changes, readable, i, slot, log);
    } else {
      KeptIdle(init, was, w, changes, readable, i, log);
      KeptElsewhere(init, was, w, changes, readable, i + 1, log, EnrolledAt(changes[i].item.volume, changes[i].item.kind, slot));
    }
  }

  lemma KeptSlot(init: Header, v: Vol, after: Vol, w: string, changes: seq<Change>, readable: seq<bool>, i: nat,
                 at: nat, slot: nat, log: seq<Command>)
    requires i < |changes| && Kept(init, v, w, changes, readable, i, log) && at < |v.seen|
    requires changes[i].op == Remove && changes[i].item.volume == w && readable[i]
    requires Affordable(changes, w, changes[i].item.kind, init) && !changes[i].item.kind.Other?
    requires slot in SlotSet(v.seen[at], changes[i].item.kind) - v.wiped
    requires after == var h := Wiped(v.header, slot); Vol(h, v.seen + [h], v.wiped + {slot})
    ensures Kept(init, after, w, changes, readable, i + 1, log + [WipedSlot(w, slot)])
  {
    SlotKeepsKind(init, v, after, w, changes, readable, i, at, slot, Tpm2);
    SlotKeepsKind(init, v, after, w, changes, readable, i, at, slot, Fido2);
    SoundAfterWipe(init, v, after, changes[i].item.kind, at, slot);
    LogWipe(log, w, v.wiped, slot);
    BookSlot(init, v, after, w, changes, readable, i, at, slot, log, Tpm2);
    BookSlot(init, v, after, w, changes, readable, i, at, slot, log, Fido2);
    BlindStep(changes, readable, i, w, Tpm2);
    BlindStep(changes, readable, i, w, Fido2);
  }

  lemma KeptWhole(init: Header, v: Vol, after: Vol, w: string, changes: seq<Change>, readable: seq<bool>, i: nat,
                  log: seq<Command>)
    requires i < |changes| && Kept(init, v, w, changes, readable, i, log)
    requires changes[i].op == Remove && changes[i].item.volume == w && !changes[i].item.kind.Other?
    requires !Installing(changes, w, changes[i].item.kind)
    requires Blind(changes, readable, i + 1, w, changes[i].item.kind)
    requires after == var h := WipedAll(v.header, SlotSet(v.header, changes[i].item.kind)); Vol(h, v.seen + [h], v.wiped)
    ensures Kept(init, after, w, changes, readable, i + 1, log + [WipedKind(w, changes[i].item.kind)])
  {
    var kind := changes[i].item.kind;
    KindKeepsKind(init, v, after, w, changes, readable, i, Tpm2);
    KindKeepsKind(init, v, after, w, changes, readable, i, Fido2);
    assert SoundHeader(init, v.header);
    WipeKind(v.header, kind, kind);
    SoundAfter(init, v, after);
    LogElsewhere(log, w, v.wiped, WipedKind(w, kind));
    BookWhole(init, v, after, w, changes, readable, i, log, Tpm2);
    BookWhole(init, v, after, w, changes, readable, i, log, Fido2);
    BlindStep(changes, readable, i, w, Tpm2);
    BlindStep(changes, readable, i, w, Fido2);
  }

  lemma KeptRemove(init: Header, v: Vol, after: Vol, w: string, changes: seq<Change>, readable: seq<bool>, i: nat,
                   at: nat, slot: nat, log: seq<Command>, command: Command)
    requires i < |changes| && Kept(init, v, w, changes, readable, i, log) && at < |v.seen|
    requires changes[i].op == Remove && changes[i].item.volume == w && !changes[i].item.kind.Other?
    requires Affordable(changes, w, changes[i].item.kind, init)
    requires WipedFrom(v, w, changes[i].item.kind, readable[i], at, slot, after, command)
    ensures Kept(init, after, w, changes, readable, i + 1, log + [command])
    ensures if Blind(changes, readable, i + 1, w, changes[i].item.kind)
            then Enrolled(after.header, changes[i].item.kind) == 0
            else command == WipedSlot(w, slot) && slot in SlotSet(v.header, changes[i].item.kind)
  {
    var kind := changes[i].item.kind;
    BlindStep(changes, readable, i, w, kind);
    if readable[i] {
      assert SoundHeader(init, v.seen[at]);
      SlotsReadBack(v.seen[at], kind);
      if !Blind(changes, readable, i, w, kind) {
        CandidatesStand(init, v, w, changes, readable, i, at);
      }
    }
    if command.WipedSlot? {
      KeptSlot(init, v, after, w, changes, readable, i, at, slot, log);
    } else {
      KeptWhole(init, v, after, w, changes, readable, i, log);
    }
    if Blind(changes, readable, i + 1, w, kind) {
      assert SafeKind(init, after, w, changes, readable, i + 1, kind);
      CountPositive(after.header.tokens, kind);
    }
  }

  /** A removal, on this volume or another. */
  lemma KeptRemoveAny(init: Header, v: Vol, after: Vol, was: Vol, now: Vol, w: string, changes: seq<Change>, readable: seq<bool>,
                      i: nat, at: nat, slot: nat, log: seq<Command>, command: Command)
    requires i < |changes| && Kept(init, was, w, changes, readable, i, log) && at < |v.seen|
    requires changes[i].op == Remove && !changes[i].item.kind.Other?
    requires changes[i].item.volume == w ==> Affordable(changes, w, changes[i].item.kind, init)
    requires WipedFrom(v, changes[i].item.volume, changes[i].item.kind, readable[i], at, slot, after, command)
    requires if changes[i].item.volume == w then v == was && now == after else now == was
    ensures Kept(init, now, w, changes, readable, i + 1, log + [command])
  {
    if changes[i].item.volume == w {
      KeptRemove(init, v, after, w, changes, readable, i, at, slot, log, command);
    } else {
      KeptIdle(init, was, w, changes, readable, i, log);
      KeptElsewhere(init, was, w, changes, readable, i + 1, log, command);
    }
  }

  lemma InitiallySafe(changes: seq<Change>, readable: seq<bool>, init: Header, w: string)
    requires WellFormed(init) && Readable(init.tokens) && |readable| == |changes|
    ensures Kept(init, Vol(init, [init], {}), w, changes, readable, 0, [])
  {
    assert SlotSet(init, Tpm2) - {} == SlotSet(init, Tpm2);
    assert SlotSet(init, Fido2) - {} == SlotSet(init, Fido2);
  }
}
