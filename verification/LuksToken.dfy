/** Planning and applying hardware-token keyslots: counted installs and guarded removals. */
module LuksToken {
  import opened Common
  import opened Text
  import opened LuksHeader

  /** An item text, `cryptroot:fido2` or `cryptroot:fido2#2`, cut at its first colon and its first
      `#`; `number` is all that follows the `#`. */
  datatype Item = Item(volume: string, kind: Kind, number: Option<string>)

  datatype Op = Install | Remove

  datatype Change = Change(op: Op, item: Item)

  /** One declared token unlock. */
  datatype Decl = Decl(volume: string, kind: Kind, count: nat)

  type Headers = map<string, Header>

  const MAX_FIDO2_KEYS := 31

  /** `_item`. */
  function ItemFor(volume: string, kind: Kind, index: int): Item {
    Item(volume, kind, if index <= 1 then None else Some(Decimal(index)))
  }

  /** The number an item is read as: `int` of what stands between its first two `#`. */
  function IndexOf(it: Item): Option<int> {
    if it.number.None? then Some(1) else ParseInt(Split(it.number.value, '#')[0])
  }

  /** The item is the one `_item` would write for its own index. */
  predicate Canonical(it: Item) {
    IndexOf(it).Some? && it == ItemFor(it.volume, it.kind, IndexOf(it).value)
  }

  /** Every owned item of a kind dasik plans is written as dasik writes it. */
  predicate WellWritten(managed: seq<Item>) {
    forall it :: it in managed && !it.kind.Other? ==> Canonical(it)
  }

  /** What is written for an index reads back as that index. */
  lemma IndexReadsBack(volume: string, kind: Kind, index: nat)
    requires index >= 1
    ensures IndexOf(ItemFor(volume, kind, index)) == Some(index) && Canonical(ItemFor(volume, kind, index))
  {
    if index > 1 {
      var text := Decimal(index);
      assert '#' !in text;
      ParseIntOfDecimal(index);
    }
  }

  // ---------------------------------------------------------------- the plan

  /** The header cannot be read, or does not carry that many tokens. */
  predicate NeedsInstall(d: Decl, index: nat, headers: Headers) {
    d.volume !in headers || index > Enrolled(headers[d.volume], d.kind)
  }

  function DesiredFrom(d: Decl, index: nat): seq<Item>
    decreases d.count - index
  {
    if index > d.count then [] else [ItemFor(d.volume, d.kind, index)] + DesiredFrom(d, index + 1)
  }

  function InstallsFrom(d: Decl, index: nat, headers: Headers): seq<Change>
    decreases d.count - index
  {
    if index > d.count then []
    else (if NeedsInstall(d, index, headers) then [Change(Install, ItemFor(d.volume, d.kind, index))] else [])
         + InstallsFrom(d, index + 1, headers)
  }

  /** `managed_keys`: every declared item. */
  function Desired(decls: seq<Decl>): seq<Item> {
    if decls == [] then [] else DesiredFrom(decls[0], 1) + Desired(decls[1..])
  }

  function Installs(decls: seq<Decl>, headers: Headers): seq<Change> {
    if decls == [] then [] else InstallsFrom(decls[0], 1, headers) + Installs(decls[1..], headers)
  }

  /** Owned, no longer declared, still in the header, and a passphrase remains. */
  predicate Removable(it: Item, desired: seq<Item>, headers: Headers) {
    && it !in desired
    && !it.kind.Other?
    && it.volume in headers
    && IndexOf(it).Some? && IndexOf(it).value <= Enrolled(headers[it.volume], it.kind)
    && PassphraseSlots(headers[it.volume]) != {}
  }

  function Removes(managed: seq<Item>, desired: seq<Item>, headers: Headers): seq<Change> {
    if managed == [] then []
    else (if Removable(managed[0], desired, headers) then [Change(Remove, managed[0])] else [])
         + Removes(managed[1..], desired, headers)
  }

  function PlanOf(decls: seq<Decl>, managed: seq<Item>, headers: Headers): seq<Change> {
    Installs(decls, headers) + Removes(managed, Desired(decls), headers)
  }

  /** An owned item the plan cannot read a number from, on an open volume. */
  predicate Malformed(it: Item, open: set<string>) {
    !it.kind.Other? && it.volume in open && IndexOf(it).None?
  }

  /** The plan raises. */
  predicate Stops(managed: seq<Item>, open: set<string>) {
    exists it :: it in managed && Malformed(it, open)
  }

  /** The items and changes of a declaration still to come, after those of the indexes below. */
  ghost predicate Indexed(d: Decl, headers: Headers, index: nat, desired: seq<Item>, installs: seq<Change>) {
    && desired + DesiredFrom(d, index) == DesiredFrom(d, 1)
    && installs + InstallsFrom(d, index, headers) == InstallsFrom(d, 1, headers)
  }

  lemma IndexStep(d: Decl, headers: Headers, index: nat, desired: seq<Item>, installs: seq<Change>, needed: bool)
    requires 1 <= index <= d.count && Indexed(d, headers, index, desired, installs) && needed == NeedsInstall(d, index, headers)
    ensures var it := ItemFor(d.volume, d.kind, index);
            Indexed(d, headers, index + 1, desired + [it], installs + if needed then [Change(Install, it)] else [])
  {
    var it := ItemFor(d.volume, d.kind, index);
    var one := if needed then [Change(Install, it)] else [];
    var items, changes := DesiredFrom(d, index + 1), InstallsFrom(d, index + 1, headers);
    assert desired + ([it] + items) == desired + [it] + items;
    assert installs + (one + changes) == installs + one + changes;
  }

  /** The inner loop of `plan`: one declaration, given what its header carries. */
  method PlanIndexes(d: Decl, ghost headers: Headers, enrolled: Option<nat>) returns (desired: seq<Item>, installs: seq<Change>)
    requires enrolled.None? <==> d.volume !in headers
    requires d.volume in headers ==> enrolled == Some(Enrolled(headers[d.volume], d.kind))
    ensures desired == DesiredFrom(d, 1) && installs == InstallsFrom(d, 1, headers)
  {
    desired, installs := [], [];
    for index := 1 to d.count + 1
      invariant Indexed(d, headers, index, desired, installs)
    {
      var it := ItemFor(d.volume, d.kind, index);
      var needed := enrolled.None? || index > enrolled.value;
      IndexStep(d, headers, index, desired, installs, needed);
      desired := desired + [it];
      installs := installs + if needed then [Change(Install, it)] else [];
    }
    assert desired + [] == desired && installs + [] == installs;
  }

  /** One declaration of `plan`. */
  method PlanOne(d: Decl, headers: Headers) returns (desired: seq<Item>, installs: seq<Change>)
    requires !d.kind.Other?
    requires forall v :: v in headers ==> Readable(headers[v].tokens)
    ensures desired == DesiredFrom(d, 1) && installs == InstallsFrom(d, 1, headers)
  {
    var enrolled: Option<nat> := None;
    if d.volume in headers {
      var n := EnrolledCount(Dump(headers[d.volume]), d.kind);
      CountReadBack(headers[d.volume], d.kind);
      enrolled := Some(n);
    }
    desired, installs := PlanIndexes(d, headers, enrolled);
  }

  predicate PlannedUpTo(decls: seq<Decl>, headers: Headers, i: nat, desired: seq<Item>, changes: seq<Change>) {
    && i <= |decls|
    && desired + Desired(decls[i..]) == Desired(decls)
    && changes + Installs(decls[i..], headers) == Installs(decls, headers)
  }

  lemma PlannedStep(decls: seq<Decl>, headers: Headers, i: nat, desired: seq<Item>, changes: seq<Change>)
    requires i < |decls| && PlannedUpTo(decls, headers, i, desired, changes)
    ensures PlannedUpTo(decls, headers, i + 1, desired + DesiredFrom(decls[i], 1), changes + InstallsFrom(decls[i], 1, headers))
  {
    assert decls[i..][1..] == decls[i + 1..];
    var d, c := DesiredFrom(decls[i], 1), InstallsFrom(decls[i], 1, headers);
    assert Desired(decls[i..]) == d + Desired(decls[i + 1..]);
    assert Installs(decls[i..], headers) == c + Installs(decls[i + 1..], headers);
    assert desired + (d + Desired(decls[i + 1..])) == desired + d + Desired(decls[i + 1..]);
    assert changes + (c + Installs(decls[i + 1..], headers)) == changes + c + Installs(decls[i + 1..], headers);
  }

  /** `plan`, reading every count and slot set from the dumps. `headers` are those of the `open`
      volumes whose dump can be read; it raises at an item whose number is none. */
  method Plan(decls: seq<Decl>, managed: seq<Item>, open: set<string>, headers: Headers) returns (changes: Option<seq<Change>>)
    requires forall d :: d in decls ==> !d.kind.Other?
    requires forall v :: v in headers ==> Readable(headers[v].tokens)
    requires headers.Keys <= open
    ensures changes == if Stops(managed, open) then None else Some(PlanOf(decls, managed, headers))
  {
    var desired: seq<Item> := [];
    var installs: seq<Change> := [];
    assert decls[0..] == decls;
    for i := 0 to |decls|
      invariant PlannedUpTo(decls, headers, i, desired, installs)
    {
      var one, more := PlanOne(decls[i], headers);
      PlannedStep(decls, headers, i, desired, installs);
      desired := desired + one;
      installs := installs + more;
    }
    assert decls[|decls|..] == [] && desired + [] == desired && installs + [] == installs;
    DesiredCanonical(decls);
    changes := PlanRemoves(managed, desired, open, headers, installs);
  }

  /** The second loop of `plan`. */
  method PlanRemoves(managed: seq<Item>, desired: seq<Item>, open: set<string>, headers: Headers, installs: seq<Change>)
    returns (changes: Option<seq<Change>>)
    requires forall v :: v in headers ==> Readable(headers[v].tokens)
    requires headers.Keys <= open && forall it :: it in desired ==> Canonical(it)
    ensures changes == if Stops(managed, open) then None else Some(installs + Removes(managed, desired, headers))
  {
    var removes: seq<Change> := [];
    for i := 0 to |managed|
      invariant removes + Removes(managed[i..], desired, headers) == Removes(managed, desired, headers)
      invariant forall j :: 0 <= j < i ==> !Malformed(managed[j], open)
    {
      var verdict := PlanRemove(managed[i], desired, open, headers);
      if verdict.None? {
        return None;
      }
      assert managed[i..][0] == managed[i] && managed[i..][1..] == managed[i + 1..];
      RemovesStep(managed[i..], desired, headers, removes);
      removes := removes + if verdict.value then [Change(Remove, managed[i])] else [];
    }
    assert managed[|managed|..] == [] && removes + [] == removes;
    return Some(installs + removes);
  }

  lemma RemovesStep(rest: seq<Item>, desired: seq<Item>, headers: Headers, done: seq<Change>)
    requires rest != []
    ensures done + Removes(rest, desired, headers) ==
            done + (if Removable(rest[0], desired, headers) then [Change(Remove, rest[0])] else []) + Removes(rest[1..], desired, headers)
  {
  }

  /** One owned item of the second loop: whether its removal is planned, or nothing when its number
      cannot be read. */
  method PlanRemove(it: Item, desired: seq<Item>, open: set<string>, headers: Headers) returns (verdict: Option<bool>)
    requires forall v :: v in headers ==> Readable(headers[v].tokens)
    requires headers.Keys <= open && forall d :: d in desired ==> Canonical(d)
    ensures verdict.None? <==> Malformed(it, open)
    ensures verdict.Some? ==> verdict.value == Removable(it, desired, headers)
  {
    if it in desired || it.kind.Other? || it.volume !in open {
      return Some(false);
    }
    if IndexOf(it).None? {
      return None;
    }
    if it.volume !in headers {
      return Some(false);
    }
    var removable := PlanFromDump(it, headers[it.volume]);
    return Some(removable);
  }

  /** What the dump says of removing one item. */
  method PlanFromDump(it: Item, header: Header) returns (removable: bool)
    requires !it.kind.Other? && IndexOf(it).Some? && Readable(header.tokens)
    ensures removable <==> IndexOf(it).value <= Enrolled(header, it.kind) && PassphraseSlots(header) != {}
  {
    var dump := Dump(header);
    var enrolled := EnrolledCount(dump, it.kind);
    CountReadBack(header, it.kind);
    if IndexOf(it).value > enrolled {
      return false;
    }
    var allSlots, tokenSlots := Slots(dump);
    SlotsReadBack(header, it.kind);
    return allSlots - tokenSlots != {};
  }

  // ---------------------------------------------------------------- what is in the plan

  lemma {:induction false} InDesiredFrom(d: Decl, index: nat, it: Item)
    ensures it in DesiredFrom(d, index) <==> exists i: nat :: index <= i <= d.count && it == ItemFor(d.volume, d.kind, i)
    decreases d.count - index
  {
    if index <= d.count {
      InDesiredFrom(d, index + 1, it);
      assert it in DesiredFrom(d, index) <==> it == ItemFor(d.volume, d.kind, index) || it in DesiredFrom(d, index + 1);
    }
  }

  lemma {:induction false} InDesired(decls: seq<Decl>, it: Item)
    ensures it in Desired(decls) <==>
      exists d, i: nat :: d in decls && 1 <= i <= d.count && it == ItemFor(d.volume, d.kind, i)
  {
    if decls != [] {
      InDesired(decls[1..], it);
      InDesiredFrom(decls[0], 1, it);
      assert it in Desired(decls) <==> it in DesiredFrom(decls[0], 1) || it in Desired(decls[1..]);
      assert forall d :: d in decls <==> d == decls[0] || d in decls[1..];
    }
  }

  lemma DesiredCanonical(decls: seq<Decl>)
    ensures forall it :: it in Desired(decls) ==> Canonical(it)
  {
    forall it | it in Desired(decls)
      ensures Canonical(it)
    {
      InDesired(decls, it);
      var d, i: nat :| d in decls && 1 <= i <= d.count && it == ItemFor(d.volume, d.kind, i);
      IndexReadsBack(d.volume, d.kind, i);
    }
  }

  lemma {:induction false} InInstallsFrom(d: Decl, index: nat, headers: Headers, c: Change)
    ensures c in InstallsFrom(d, index, headers) ==>
      exists i: nat :: index <= i <= d.count && c == Change(Install, ItemFor(d.volume, d.kind, i)) && NeedsInstall(d, i, headers)
    decreases d.count - index
  {
    if index <= d.count && c in InstallsFrom(d, index, headers) {
      InInstallsFrom(d, index + 1, headers, c);
      if c !in InstallsFrom(d, index + 1, headers) {
        assert c == Change(Install, ItemFor(d.volume, d.kind, index)) && NeedsInstall(d, index, headers);
      }
    }
  }

  lemma {:induction false} InInstalls(decls: seq<Decl>, headers: Headers, c: Change) returns (d: Decl, i: nat)
    requires c in Installs(decls, headers)
    ensures d in decls && 1 <= i <= d.count && NeedsInstall(d, i, headers)
    ensures c == Change(Install, ItemFor(d.volume, d.kind, i))
  {
    if c in InstallsFrom(decls[0], 1, headers) {
      InInstallsFrom(decls[0], 1, headers, c);
      d := decls[0];
      i :| 1 <= i <= d.count && c == Change(Install, ItemFor(d.volume, d.kind, i)) && NeedsInstall(d, i, headers);
    } else {
      d, i := InInstalls(decls[1..], headers, c);
    }
  }

  lemma {:induction false} InRemoves(managed: seq<Item>, desired: seq<Item>, headers: Headers, c: Change)
    ensures c in Removes(managed, desired, headers) <==>
      c.op == Remove && c.item in managed && Removable(c.item, desired, headers)
  {
    if managed != [] {
      InRemoves(managed[1..], desired, headers, c);
      assert c.item in managed <==> c.item == managed[0] || c.item in managed[1..];
    }
  }

  /** For one volume and kind a plan never holds both an install and a removal. */
  lemma NeverBoth(decls: seq<Decl>, managed: seq<Item>, headers: Headers, a: Change, b: Change)
    requires WellWritten(managed) && KnownKinds(decls)
    requires a in PlanOf(decls, managed, headers) && a.op == Install
    requires b in PlanOf(decls, managed, headers) && b.op == Remove
    ensures a.item.volume != b.item.volume || a.item.kind != b.item.kind
  {
    var desired := Desired(decls);
    InRemoves(managed, desired, headers, a);
    var d, i := InInstalls(decls, headers, a);
    InRemoves(managed, desired, headers, b);
    if b in Installs(decls, headers) {
      var _, _ := InInstalls(decls, headers, b);
    }
    if b.item.volume == d.volume && b.item.kind == d.kind {
      IndexBeyondDeclared(decls, b.item, d.volume, d.kind, d.count);
    }
  }

  /** An owned item that is not desired is beyond every declared count. */
  lemma IndexBeyondDeclared(decls: seq<Decl>, it: Item, volume: string, kind: Kind, count: nat)
    requires Canonical(it) && it !in Desired(decls) && it.volume == volume && it.kind == kind
    requires count > 0 ==> exists d :: d in decls && d.volume == volume && d.kind == kind && d.count >= count
    ensures IndexOf(it).value > count
  {
    if count > 0 {
      var d :| d in decls && d.volume == volume && d.kind == kind && d.count >= count;
      InDesired(decls, it);
      var i := IndexOf(it).value;
      assert it == ItemFor(d.volume, d.kind, i);
    }
  }

  // ---------------------------------------------------------------- what a removal stands for

  /** Headers a dump describes faithfully. */
  predicate Sane(headers: Headers) {
    forall v :: v in headers ==> WellFormed(headers[v]) && Readable(headers[v].tokens)
  }

  predicate KnownKinds(decls: seq<Decl>) {
    forall d :: d in decls ==> !d.kind.Other?
  }

  /** The most keys of a kind a configuration can ask for: TPM2 is a flag, and FIDO2 a count that
      leaves one of the header's 32 keyslots to a passphrase. */
  function MostDeclared(kind: Kind): nat {
    match kind
    case Tpm2 => 1
    case Fido2 => MAX_FIDO2_KEYS
    case Other(_) => 0
  }

  /** What a configuration can declare. */
  predicate Declarable(decls: seq<Decl>) {
    KnownKinds(decls) && forall d :: d in decls ==> d.count <= MostDeclared(d.kind)
  }

  /** The plan removes the key of a number that is declared. */
  predicate TakesDeclared(decls: seq<Decl>, managed: seq<Item>, headers: Headers, c: Change) {
    && c in PlanOf(decls, managed, headers) && c.op == Remove
    && IndexOf(c.item).Some? && ItemFor(c.item.volume, c.item.kind, IndexOf(c.item).value) in Desired(decls)
  }

  /** Whatever is declared and whatever the headers hold, a plan that is made removes no such key. */
  ghost predicate NeverTakesDeclared(managed: seq<Item>) {
    forall decls, open: set<string>, headers: Headers, c ::
      Declarable(decls) && Sane(headers) && headers.Keys <= open && !Stops(managed, open) ==>
        !TakesDeclared(decls, managed, headers, c)
  }

  /** `count` tokens of one kind, in slots 1 to `count`. */
  function ManyTokens(kind: Kind, count: nat): seq<Token> {
    if count == 0 then [] else [Token(kind, count)] + ManyTokens(kind, count - 1)
  }

  function ManySlots(count: nat): seq<nat> {
    if count == 0 then [0] else [count] + ManySlots(count - 1)
  }

  lemma {:induction false} ManyTokensAre(kind: Kind, count: nat)
    requires !kind.Other?
    ensures var tokens := ManyTokens(kind, count);
            && CountOf(tokens, kind) == count && OwnSlots(tokens)
            && BoundBy(tokens) <= Numbers(ManySlots(count))
            && (forall s :: s in BoundBy(tokens) ==> 1 <= s <= count)
            && (forall t :: t in tokens ==> t.kind == kind)
            && 0 in Numbers(ManySlots(count))
  {
    if count > 0 {
      ManyTokensAre(kind, count - 1);
    } else {
      assert [0][1..] == [] && ManySlots(0) == [0];
    }
  }

  /** A header with exactly `count` tokens of a kind and one passphrase. */
  function HeaderWith(kind: Kind, count: nat): Header {
    Header(ManySlots(count), ManyTokens(kind, count))
  }

  lemma HeaderWithIs(kind: Kind, count: nat)
    requires !kind.Other?
    ensures var h := HeaderWith(kind, count);
            WellFormed(h) && Readable(h.tokens) && Enrolled(h, kind) == count && PassphraseSlots(h) != {}
  {
    ManyTokensAre(kind, count);
    var h := HeaderWith(kind, count);
    assert 0 in PassphraseSlots(h);
  }

  /** The item is not what dasik would write for its number, which is one that can be declared, and
      the numbers of its volume can all be read. */
  predicate Miswritten(managed: seq<Item>, it: Item) {
    && it in managed && !it.kind.Other? && !Canonical(it) && !Stops(managed, {it.volume})
    && (IndexOf(it).Some? ==> IndexOf(it).value <= MostDeclared(it.kind))
  }

  /** A miswritten item (`#0`, `#1`, a negative number, `#02` for FIDO2) takes the key of its number
      though that number is declared. */
  lemma MiswrittenTakesDeclared(managed: seq<Item>, it: Item)
    requires Miswritten(managed, it)
    ensures !NeverTakesDeclared(managed)
  {
    assert !Malformed(it, {it.volume});
    var n := IndexOf(it).value;
    var count: nat := if n <= 1 then 1 else n;
    var decls := [Decl(it.volume, it.kind, count)];
    var headers := map[it.volume := HeaderWith(it.kind, count)];
    var c := Change(Remove, it);
    HeaderWithIs(it.kind, count);
    DesiredCanonical(decls);
    InRemoves(managed, Desired(decls), headers, c);
    var key := ItemFor(it.volume, it.kind, n);
    InDesired(decls, key);
    assert decls[0] in decls && key == ItemFor(it.volume, it.kind, count);
    assert TakesDeclared(decls, managed, headers, c);
    assert Sane(headers) && Declarable(decls) && headers.Keys <= {it.volume};
  }

  /** No number beyond what its kind can declare is declared. */
  lemma DeclaredAtMost(decls: seq<Decl>, volume: string, kind: Kind, n: int)
    requires Declarable(decls) && ItemFor(volume, kind, n) in Desired(decls)
    ensures n <= MostDeclared(kind)
  {
    InDesired(decls, ItemFor(volume, kind, n));
    var d, i: nat :| d in decls && 1 <= i <= d.count && ItemFor(volume, kind, n) == ItemFor(d.volume, d.kind, i);
    IndexReadsBack(volume, kind, i);
    if n > 1 {
      IndexReadsBack(volume, kind, n);
    }
  }

  lemma TakenIsMiswritten(decls: seq<Decl>, managed: seq<Item>, open: set<string>, headers: Headers, c: Change)
    requires Declarable(decls) && headers.Keys <= open && !Stops(managed, open) && TakesDeclared(decls, managed, headers, c)
    ensures Miswritten(managed, c.item)
  {
    RemovalIsOwned(decls, managed, headers, c);
    DeclaredAtMost(decls, c.item.volume, c.item.kind, IndexOf(c.item).value);
    forall bad | bad in managed && Malformed(bad, {c.item.volume})
      ensures Malformed(bad, open)
    {
    }
  }

  /** No plan removes a key that is declared exactly when no owned item is miswritten. */
  lemma NeverTakesDeclaredIff(managed: seq<Item>)
    ensures NeverTakesDeclared(managed) <==> forall it :: !Miswritten(managed, it)
  {
    if it :| Miswritten(managed, it) {
      MiswrittenTakesDeclared(managed, it);
    } else {
      forall decls, open: set<string>, headers: Headers, c |
        Declarable(decls) && headers.Keys <= open && !Stops(managed, open) && TakesDeclared(decls, managed, headers, c)
        ensures false
      {
        TakenIsMiswritten(decls, managed, open, headers, c);
      }
    }
  }

  lemma RemovalIsOwned(decls: seq<Decl>, managed: seq<Item>, headers: Headers, c: Change)
    requires c in PlanOf(decls, managed, headers) && c.op == Remove
    ensures c.item in managed && Removable(c.item, Desired(decls), headers)
  {
    InRemoves(managed, Desired(decls), headers, c);
    if c in Installs(decls, headers) {
      var _, _ := InInstalls(decls, headers, c);
    }
  }

  // ---------------------------------------------------------------- counting

  predicate About(c: Change, volume: string, kind: Kind) {
    c.item.volume == volume && c.item.kind == kind
  }

  /** How many removals of one volume and kind a batch holds. */
  function Removals(changes: seq<Change>, volume: string, kind: Kind): nat {
    if changes == [] then 0
    else (if changes[0].op == Remove && About(changes[0], volume, kind) then 1 else 0)
         + Removals(changes[1..], volume, kind)
  }

  lemma {:induction false} RemovalsAppend(a: seq<Change>, b: seq<Change>, volume: string, kind: Kind)
    ensures Removals(a + b, volume, kind) == Removals(a, volume, kind) + Removals(b, volume, kind)
  {
    if a == [] {
      assert a + b == b;
    } else {
      RemovalsAppend(a[1..], b, volume, kind);
      assert (a + b)[1..] == a[1..] + b;
    }
  }

  lemma {:induction false} NoRemovals(changes: seq<Change>, volume: string, kind: Kind)
    requires forall c :: c in changes ==> c.op == Install
    ensures Removals(changes, volume, kind) == 0
  {
    if changes != [] {
      NoRemovals(changes[1..], volume, kind);
    }
  }

  /** The indexes of the removed items. */
  function RemovedIndexes(managed: seq<Item>, desired: seq<Item>, headers: Headers, volume: string, kind: Kind): set<int> {
    set it | it in managed && Counts(it, desired, headers, volume, kind) :: IndexOf(it).value
  }

  predicate Counts(it: Item, desired: seq<Item>, headers: Headers, volume: string, kind: Kind) {
    it.volume == volume && it.kind == kind && Removable(it, desired, headers)
  }

  lemma RemovalsCons(first: Item, rest: seq<Item>, desired: seq<Item>, headers: Headers, volume: string, kind: Kind)
    ensures Removals(Removes([first] + rest, desired, headers), volume, kind) ==
            (if Counts(first, desired, headers, volume, kind) then 1 else 0)
            + Removals(Removes(rest, desired, headers), volume, kind)
  {
    assert ([first] + rest)[1..] == rest;
    var tail := Removes(rest, desired, headers);
    if Removable(first, desired, headers) {
      assert ([Change(Remove, first)] + tail)[1..] == tail;
    } else {
      assert [] + tail == tail;
    }
  }

  lemma {:induction false} RemovalsAreIndexes(managed: seq<Item>, desired: seq<Item>, headers: Headers, volume: string, kind: Kind)
    requires NoRepeats(managed) && WellWritten(managed)
    ensures Removals(Removes(managed, desired, headers), volume, kind)
         == |RemovedIndexes(managed, desired, headers, volume, kind)|
  {
    if managed != [] {
      var first, rest := managed[0], managed[1..];
      RemovalsAreIndexes(rest, desired, headers, volume, kind);
      assert managed == [first] + rest;
      RemovalsCons(first, rest, desired, headers, volume, kind);
      var before := RemovedIndexes(rest, desired, headers, volume, kind);
      var after := RemovedIndexes(managed, desired, headers, volume, kind);
      if Counts(first, desired, headers, volume, kind) {
        assert first !in rest && first in managed;
        NewIndex(first, rest, desired, headers, volume, kind);
        assert after == before + {IndexOf(first).value};
      } else {
        assert after == before;
      }
    }
  }

  /** Two items of one number are one item. */
  lemma NewIndex(first: Item, rest: seq<Item>, desired: seq<Item>, headers: Headers, volume: string, kind: Kind)
    requires first !in rest && WellWritten(rest) && Canonical(first) && Counts(first, desired, headers, volume, kind)
    ensures IndexOf(first).value !in RemovedIndexes(rest, desired, headers, volume, kind)
  {
    forall it | it in rest && Counts(it, desired, headers, volume, kind)
      ensures IndexOf(it).value != IndexOf(first).value
    {
      assert it == ItemFor(volume, kind, IndexOf(it).value) && first == ItemFor(volume, kind, IndexOf(first).value);
    }
  }

  lemma {:induction false} IntervalSize(s: set<int>, low: int, high: int)
    requires low <= high && forall n :: n in s ==> low < n <= high
    ensures |s| <= high - low
    decreases high - low
  {
    if low < high {
      IntervalSize(s - {high}, low, high - 1);
      assert |s| <= |s - {high}| + 1;
    } else {
      assert forall n :: n in s ==> low < n <= low;
      assert s == {};
    }
  }

  /** A batch removes at most the keys beyond the declared count. */
  lemma RemovalsBounded(decls: seq<Decl>, managed: seq<Item>, headers: Headers, volume: string, kind: Kind, count: nat)
    requires NoRepeats(managed) && WellWritten(managed)
    requires volume in headers
    requires count > 0 ==> exists d :: d in decls && d.volume == volume && d.kind == kind && d.count >= count
    ensures var enrolled := Enrolled(headers[volume], kind);
            Removals(PlanOf(decls, managed, headers), volume, kind) <= if enrolled <= count then 0 else enrolled - count
  {
    var desired := Desired(decls);
    var installs, removes := Installs(decls, headers), Removes(managed, desired, headers);
    forall c | c in installs
      ensures c.op == Install
    {
      var _, _ := InInstalls(decls, headers, c);
    }
    NoRemovals(installs, volume, kind);
    RemovalsAppend(installs, removes, volume, kind);
    RemovalsAreIndexes(managed, desired, headers, volume, kind);
    var indexes := RemovedIndexes(managed, desired, headers, volume, kind);
    var enrolled := Enrolled(headers[volume], kind);
    forall n | n in indexes
      ensures count < n <= enrolled
    {
      var it :| it in managed && Counts(it, desired, headers, volume, kind) && IndexOf(it).value == n;
      IndexBeyondDeclared(decls, it, volume, kind, count);
    }
    if enrolled <= count {
      assert indexes == {};
    } else {
      IntervalSize(indexes, count, enrolled);
    }
  }
}
