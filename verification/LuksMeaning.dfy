/** What a plan of keyslots holds, and what a run that adds keys leaves, in the configuration's terms. */
module LuksMeaning {
  import opened Common
  import opened Text
  import opened LuksHeader
  import opened LuksToken
  import opened LuksApply
  import opened LuksRun

  // ---------------------------------------------------------------- the installs of a plan

  /** Some declaration asks for an `i`-th key of the kind on the volume. */
  predicate AskedFor(decls: seq<Decl>, volume: string, kind: Kind, i: nat) {
    exists d :: d in decls && d.volume == volume && d.kind == kind && i <= d.count
  }

  /** The header cannot be read, or holds fewer than `i` tokens of the kind. */
  predicate Missing(headers: Headers, volume: string, kind: Kind, i: nat) {
    volume in headers ==> CountOf(headers[volume].tokens, kind) < i
  }

  lemma {:induction false} InstalledFrom(d: Decl, index: nat, headers: Headers, i: nat)
    requires 1 <= index <= i <= d.count && Missing(headers, d.volume, d.kind, i)
    ensures Change(Install, ItemFor(d.volume, d.kind, i)) in InstallsFrom(d, index, headers)
    decreases d.count - index
  {
    if index < i {
      InstalledFrom(d, index + 1, headers, i);
    }
  }

  lemma {:induction false} InstalledIn(decls: seq<Decl>, d: Decl, headers: Headers, i: nat)
    requires d in decls && 1 <= i <= d.count && Missing(headers, d.volume, d.kind, i)
    ensures Change(Install, ItemFor(d.volume, d.kind, i)) in Installs(decls, headers)
  {
    if decls[0] == d {
      InstalledFrom(d, 1, headers, i);
    } else {
      InstalledIn(decls[1..], d, headers, i);
    }
  }

  /** The `i`-th key of a kind is planned exactly when it is declared and missing. */
  lemma InstallPlannedIff(decls: seq<Decl>, managed: seq<Item>, headers: Headers, volume: string, kind: Kind, i: nat)
    requires i >= 1
    ensures Change(Install, ItemFor(volume, kind, i)) in PlanOf(decls, managed, headers) <==>
            AskedFor(decls, volume, kind, i) && Missing(headers, volume, kind, i)
  {
    var c := Change(Install, ItemFor(volume, kind, i));
    InRemoves(managed, Desired(decls), headers, c);
    if c in Installs(decls, headers) {
      var d, j := InInstalls(decls, headers, c);
      IndexReadsBack(volume, kind, i);
      IndexReadsBack(d.volume, d.kind, j);
    }
    if AskedFor(decls, volume, kind, i) && Missing(headers, volume, kind, i) {
      var d :| d in decls && d.volume == volume && d.kind == kind && i <= d.count;
      InstalledIn(decls, d, headers, i);
    }
  }

  lemma {:induction false} AscendingFrom(d: Decl, index: nat, headers: Headers, i: nat, j: nat) returns (a: nat, b: nat)
    requires i < j < |InstallsFrom(d, index, headers)|
    ensures index <= a < b <= d.count
    ensures InstallsFrom(d, index, headers)[i] == Change(Install, ItemFor(d.volume, d.kind, a))
    ensures InstallsFrom(d, index, headers)[j] == Change(Install, ItemFor(d.volume, d.kind, b))
    decreases d.count - index
  {
    var all, rest := InstallsFrom(d, index, headers), InstallsFrom(d, index + 1, headers);
    if !NeedsInstall(d, index, headers) {
      assert all == rest;
      a, b := AscendingFrom(d, index + 1, headers, i, j);
    } else if i > 0 {
      a, b := AscendingFrom(d, index + 1, headers, i - 1, j - 1);
    } else {
      b := NumberedFrom(d, index + 1, headers, j - 1);
      a := index;
    }
  }

  lemma {:induction false} NumberedFrom(d: Decl, index: nat, headers: Headers, i: nat) returns (b: nat)
    requires i < |InstallsFrom(d, index, headers)|
    ensures index <= b <= d.count && InstallsFrom(d, index, headers)[i] == Change(Install, ItemFor(d.volume, d.kind, b))
    decreases d.count - index
  {
    var all, rest := InstallsFrom(d, index, headers), InstallsFrom(d, index + 1, headers);
    if !NeedsInstall(d, index, headers) {
      assert all == rest;
      b := NumberedFrom(d, index + 1, headers, i);
    } else if i > 0 {
      b := NumberedFrom(d, index + 1, headers, i - 1);
    } else {
      b := index;
    }
  }

  lemma {:induction false} AddedBy(decls: seq<Decl>, headers: Headers, i: nat) returns (w: nat, a: nat)
    requires i < |Installs(decls, headers)|
    ensures w < |decls| && 1 <= a <= decls[w].count
    ensures Installs(decls, headers)[i] == Change(Install, ItemFor(decls[w].volume, decls[w].kind, a))
  {
    var first, rest := InstallsFrom(decls[0], 1, headers), Installs(decls[1..], headers);
    if i < |first| {
      a := NumberedFrom(decls[0], 1, headers, i);
      w := 0;
    } else {
      assert Installs(decls, headers)[i] == rest[i - |first|];
      w, a := AddedBy(decls[1..], headers, i - |first|);
      w := w + 1;
    }
  }

  /** The installs of a plan stand in the order of their declarations, and within one by their numbers. */
  lemma {:induction false} InstallsInOrder(decls: seq<Decl>, headers: Headers, i: nat, j: nat) returns (v: nat, a: nat, w: nat, b: nat)
    requires i < j < |Installs(decls, headers)|
    ensures v <= w < |decls| && (v == w ==> a < b)
    ensures Installs(decls, headers)[i] == Change(Install, ItemFor(decls[v].volume, decls[v].kind, a))
    ensures Installs(decls, headers)[j] == Change(Install, ItemFor(decls[w].volume, decls[w].kind, b))
  {
    var all, first, rest := Installs(decls, headers), InstallsFrom(decls[0], 1, headers), Installs(decls[1..], headers);
    if j < |first| {
      a, b := AscendingFrom(decls[0], 1, headers, i, j);
      v, w := 0, 0;
    } else {
      assert all[j] == rest[j - |first|];
      if i < |first| {
        a := NumberedFrom(decls[0], 1, headers, i);
        w, b := AddedBy(decls[1..], headers, j - |first|);
        v, w := 0, w + 1;
      } else {
        assert all[i] == rest[i - |first|];
        v, a, w, b := InstallsInOrder(decls[1..], headers, i - |first|, j - |first|);
        v, w := v + 1, w + 1;
      }
    }
  }

  /** Every removal of a plan stands behind every install. */
  lemma RemovalsLast(decls: seq<Decl>, managed: seq<Item>, headers: Headers, i: nat, j: nat)
    requires i < j < |PlanOf(decls, managed, headers)| && PlanOf(decls, managed, headers)[i].op == Remove
    ensures PlanOf(decls, managed, headers)[j].op == Remove
  {
    var installs, removes := Installs(decls, headers), Removes(managed, Desired(decls), headers);
    if i < |installs| {
      var w, a := AddedBy(decls, headers, i);
    } else {
      var c := removes[j - |installs|];
      assert c in removes;
      InRemoves(managed, Desired(decls), headers, c);
    }
  }

  /** An owned item's removal is planned exactly when no declaration asks for it, its volume's header
      can be read and holds as many keys of its kind as its number, and a passphrase remains. */
  lemma RemovalPlannedIff(decls: seq<Decl>, managed: seq<Item>, headers: Headers, it: Item)
    ensures Change(Remove, it) in PlanOf(decls, managed, headers) <==>
      && it in managed && !it.kind.Other? && it.volume in headers
      && !(exists i: nat :: i >= 1 && it == ItemFor(it.volume, it.kind, i) && AskedFor(decls, it.volume, it.kind, i))
      && IndexOf(it).Some? && IndexOf(it).value <= CountOf(headers[it.volume].tokens, it.kind)
      && PassphraseSlots(headers[it.volume]) != {}
  {
    var c := Change(Remove, it);
    InRemoves(managed, Desired(decls), headers, c);
    InDesired(decls, it);
    if c in Installs(decls, headers) {
      var _, _ := InInstalls(decls, headers, c);
    }
    if exists i: nat :: i >= 1 && it == ItemFor(it.volume, it.kind, i) && AskedFor(decls, it.volume, it.kind, i) {
      var i: nat :| i >= 1 && it == ItemFor(it.volume, it.kind, i) && AskedFor(decls, it.volume, it.kind, i);
      var d :| d in decls && d.volume == it.volume && d.kind == it.kind && i <= d.count;
    }
  }

  /** As many keys as declared are enrolled, wherever any are declared. */
  predicate AllEnrolled(decls: seq<Decl>, headers: Headers) {
    forall d :: d in decls && d.count > 0 ==> d.volume in headers && CountOf(headers[d.volume].tokens, d.kind) >= d.count
  }

  lemma {:induction false} NoInstallsFrom(d: Decl, index: nat, headers: Headers)
    requires 1 <= index
    ensures InstallsFrom(d, index, headers) == [] <==>
            d.count < index || (d.volume in headers && CountOf(headers[d.volume].tokens, d.kind) >= d.count)
    decreases d.count - index
  {
    if index <= d.count {
      NoInstallsFrom(d, index + 1, headers);
    }
  }

  lemma {:induction false} NoInstallsIff(decls: seq<Decl>, headers: Headers)
    ensures Installs(decls, headers) == [] <==> AllEnrolled(decls, headers)
  {
    if decls != [] {
      NoInstallsFrom(decls[0], 1, headers);
      NoInstallsIff(decls[1..], headers);
      assert forall d :: d in decls <==> d == decls[0] || d in decls[1..];
    }
  }

  lemma {:induction false} NoRemovesIff(managed: seq<Item>, desired: seq<Item>, headers: Headers)
    ensures Removes(managed, desired, headers) == [] <==> forall it :: it in managed ==> !Removable(it, desired, headers)
  {
    if managed != [] {
      NoRemovesIff(managed[1..], desired, headers);
      assert forall it :: it in managed <==> it == managed[0] || it in managed[1..];
    }
  }

  /** A plan is empty exactly when every declared key is enrolled and nothing owned is to go. */
  lemma PlanEmptyIff(decls: seq<Decl>, managed: seq<Item>, headers: Headers)
    ensures PlanOf(decls, managed, headers) == [] <==>
      AllEnrolled(decls, headers) && forall it :: it in managed ==> Change(Remove, it) !in PlanOf(decls, managed, headers)
  {
    var desired := Desired(decls);
    NoInstallsIff(decls, headers);
    NoRemovesIff(managed, desired, headers);
    forall it | it in managed
      ensures Change(Remove, it) in PlanOf(decls, managed, headers) <==> Removable(it, desired, headers)
    {
      InRemoves(managed, desired, headers, Change(Remove, it));
      if Change(Remove, it) in Installs(decls, headers) {
        var _, _ := InInstalls(decls, headers, Change(Remove, it));
      }
    }
  }

  // ---------------------------------------------------------------- a run that adds keys

  /** One declaration for the kind of the volume. */
  predicate OneDecl(decls: seq<Decl>, at: nat, volume: string, kind: Kind) {
    && at < |decls| && decls[at].volume == volume && decls[at].kind == kind
    && forall i :: 0 <= i < |decls| && decls[i].volume == volume && decls[i].kind == kind ==> i == at
  }

  lemma {:induction false} InstallsOfAppend(a: seq<Change>, b: seq<Change>, ab: seq<Change>, volume: string, kind: Kind)
    requires ab == a + b
    ensures InstallsOf(ab, volume, kind) == InstallsOf(a, volume, kind) + InstallsOf(b, volume, kind)
    decreases |b|
  {
    if b == [] {
      assert ab == a;
    } else {
      InstallsOfAppend(a, b[..|b| - 1], ab[..|ab| - 1], volume, kind);
    }
  }

  lemma {:induction false} NoneOf(changes: seq<Change>, volume: string, kind: Kind)
    requires forall c :: c in changes ==> !(c.op == Install && About(c, volume, kind))
    ensures InstallsOf(changes, volume, kind) == 0
  {
    if changes != [] {
      var front := changes[..|changes| - 1];
      assert changes[|changes| - 1] in changes && forall c :: c in front ==> c in changes;
      NoneOf(front, volume, kind);
    }
  }

  lemma {:induction false} CountFrom(d: Decl, index: nat, headers: Headers, volume: string, kind: Kind)
    requires 1 <= index && d.volume in headers
    ensures InstallsOf(InstallsFrom(d, index, headers), volume, kind) ==
            if d.volume != volume || d.kind != kind then 0
            else
              var enrolled := CountOf(headers[volume].tokens, kind);
              var first := if index > enrolled then index else enrolled + 1;
              if d.count < first then 0 else d.count + 1 - first
    decreases d.count - index
  {
    if index <= d.count {
      CountFrom(d, index + 1, headers, volume, kind);
      CountHere(d, index, headers, InstallsFrom(d, index, headers), InstallsFrom(d, index + 1, headers), volume, kind);
    }
  }

  lemma CountHere(d: Decl, index: nat, headers: Headers, all: seq<Change>, rest: seq<Change>, volume: string, kind: Kind)
    requires index <= d.count && all == InstallsFrom(d, index, headers) && rest == InstallsFrom(d, index + 1, headers)
    ensures InstallsOf(all, volume, kind) ==
            (if NeedsInstall(d, index, headers) && d.volume == volume && d.kind == kind then 1 else 0) + InstallsOf(rest, volume, kind)
  {
    var one := if NeedsInstall(d, index, headers) then [Change(Install, ItemFor(d.volume, d.kind, index))] else [];
    InstallsOfAppend(one, rest, all, volume, kind);
    if one != [] {
      assert one[..0] == [];
    }
  }

  lemma ElsewhereFrom(d: Decl, headers: Headers, volume: string, kind: Kind)
    requires d.volume != volume || d.kind != kind
    ensures InstallsOf(InstallsFrom(d, 1, headers), volume, kind) == 0
  {
    forall c | c in InstallsFrom(d, 1, headers)
      ensures !About(c, volume, kind)
    {
      InInstallsFrom(d, 1, headers, c);
    }
    NoneOf(InstallsFrom(d, 1, headers), volume, kind);
  }

  lemma {:induction false} PlannedInstalls(decls: seq<Decl>, headers: Headers, at: nat, volume: string, kind: Kind)
    requires OneDecl(decls, at, volume, kind) && volume in headers
    ensures InstallsOf(Installs(decls, headers), volume, kind) ==
            var n := CountOf(headers[volume].tokens, kind);
            if decls[at].count <= n then 0 else decls[at].count - n
  {
    var first, rest := InstallsFrom(decls[0], 1, headers), Installs(decls[1..], headers);
    InstallsOfAppend(first, rest, first + rest, volume, kind);
    if at == 0 {
      CountFrom(decls[0], 1, headers, volume, kind);
      forall c | c in rest
        ensures !About(c, volume, kind)
      {
        var d, i := InInstalls(decls[1..], headers, c);
        var j :| 0 <= j < |decls[1..]| && decls[1..][j] == d;
        assert decls[j + 1] == d;
      }
      NoneOf(rest, volume, kind);
    } else {
      ElsewhereFrom(decls[0], headers, volume, kind);
      forall i | 0 <= i < |decls[1..]| && decls[1..][i].volume == volume && decls[1..][i].kind == kind
        ensures i == at - 1
      {
        assert decls[i + 1] == decls[1..][i];
      }
      PlannedInstalls(decls[1..], headers, at - 1, volume, kind);
    }
  }

  /** A complete run enrols what is missing: with no fewer declared than enrolled, nobody skipping, and
      every removal on the volume reading its dump, the header ends with exactly the declared keys. */
  lemma GrowIsExact(decls: seq<Decl>, managed: seq<Item>, headers: Headers, w: string, v: Vol, readable: seq<bool>,
                    log: seq<Command>, at: nat, kind: Kind)
    requires Sane(headers) && Recorded(managed) && KnownKinds(decls) && !kind.Other? && w in headers && OneDecl(decls, at, w, kind)
    requires Enrolled(headers[w], kind) <= decls[at].count
    requires var changes := PlanOf(decls, managed, headers);
             && Kept(headers[w], v, w, changes, readable, |changes|, log)
             && AllRead(changes, readable, |changes|, w) && SkippedBy(w, kind) !in log
    ensures Enrolled(v.header, kind) == decls[at].count
  {
    var changes := PlanOf(decls, managed, headers);
    var installs, removes := Installs(decls, headers), Removes(managed, Desired(decls), headers);
    PlannedInstalls(decls, headers, at, w, kind);
    forall c | c in removes
      ensures c.op == Remove
    {
      InRemoves(managed, Desired(decls), headers, c);
    }
    NoneOf(removes, w, kind);
    InstallsOfAppend(installs, removes, changes, w, kind);
    assert changes[..|changes|] == changes;
    KeptNumbers(headers[w], v, w, changes, readable, |changes|, log, kind);
    assert Booked(headers[w], v, w, changes, readable, |changes|, log, kind);
    if !Installing(changes, w, kind) {
      assert decls[at] in decls;
      RemovalsBounded(decls, managed, headers, w, kind, decls[at].count);
      assert InstallsOf(changes, w, kind) == 0 by {
        forall c | c in changes
          ensures !(c.op == Install && About(c, w, kind))
        {
        }
        NoneOf(changes, w, kind);
      }
    }
  }
}
