/** A LUKS2 header and what the readers of its dump see in it. */
module LuksHeader {

  /** The token kinds dasik plans, and anybody else's. */
  datatype Kind = Tpm2 | Fido2 | Other(name: string)

  /** One enrolled token and the keyslot it is bound to. */
  datatype Token = Token(kind: Kind, slot: nat)

  datatype Header = Header(keyslots: seq<nat>, tokens: seq<Token>)

  /** A line of `cryptsetup luksDump`, already told apart by its indentation and its shape. */
  datatype DumpLine = Section(title: string) | Entry(number: nat, caption: string) | KeyslotRef(slot: nat) | Detail(text: string)

  /** The token type a kind has in the dump. */
  function TypeName(kind: Kind): string {
    match kind
    case Tpm2 => "systemd-tpm2"
    case Fido2 => "systemd-fido2"
    case Other(name) => name
  }

  predicate EndsWith(s: string, suffix: string) {
    |suffix| <= |s| && s[|s| - |suffix|..] == suffix
  }

  /** No foreign token type ends like one of dasik's. */
  predicate Readable(tokens: seq<Token>) {
    forall i :: 0 <= i < |tokens| && tokens[i].kind.Other? ==>
      !EndsWith(tokens[i].kind.name, TypeName(Tpm2)) && !EndsWith(tokens[i].kind.name, TypeName(Fido2))
  }

  // ---------------------------------------------------------------- the header itself

  function CountOf(tokens: seq<Token>, kind: Kind): nat
  {
    if tokens == [] then 0
    else (if tokens[0].kind == kind then 1 else 0) + CountOf(tokens[1..], kind)
  }

  function Enrolled(h: Header, kind: Kind): nat {
    CountOf(h.tokens, kind)
  }

  function SlotsOfKind(tokens: seq<Token>, kind: Kind): set<nat> {
    if tokens == [] then {}
    else (if tokens[0].kind == kind then {tokens[0].slot} else {}) + SlotsOfKind(tokens[1..], kind)
  }

  function BoundBy(tokens: seq<Token>): set<nat> {
    if tokens == [] then {} else {tokens[0].slot} + BoundBy(tokens[1..])
  }

  function Numbers(slots: seq<nat>): set<nat> {
    if slots == [] then {} else {slots[0]} + Numbers(slots[1..])
  }

  /** The keyslots somebody can type a passphrase into. */
  function PassphraseSlots(h: Header): set<nat> {
    Numbers(h.keyslots) - BoundBy(h.tokens)
  }

  /** No two tokens are bound to one keyslot. */
  predicate OwnSlots(tokens: seq<Token>) {
    tokens != [] ==> tokens[0].slot !in BoundBy(tokens[1..]) && OwnSlots(tokens[1..])
  }

  /** Every token has its own keyslot, and that keyslot exists. */
  predicate WellFormed(h: Header) {
    OwnSlots(h.tokens) && BoundBy(h.tokens) <= Numbers(h.keyslots)
  }

  lemma {:induction false} BoundContains(tokens: seq<Token>, kind: Kind)
    ensures SlotsOfKind(tokens, kind) <= BoundBy(tokens)
  {
    if tokens != [] {
      BoundContains(tokens[1..], kind);
    }
  }

  /** A slot belongs to one kind. */
  lemma {:induction false} OneKind(tokens: seq<Token>, kind: Kind, other: Kind)
    requires OwnSlots(tokens) && kind != other
    ensures SlotsOfKind(tokens, kind) !! SlotsOfKind(tokens, other)
  {
    if tokens != [] {
      OneKind(tokens[1..], kind, other);
      BoundContains(tokens[1..], kind);
      BoundContains(tokens[1..], other);
    }
  }

  lemma OneMore(s: set<nat>, x: nat)
    requires x !in s
    ensures |{x} + s| == 1 + |s|
  {
  }

  /** With one keyslot per token, counting tokens counts keyslots. */
  lemma {:induction false} CountIsSlots(tokens: seq<Token>, kind: Kind)
    requires OwnSlots(tokens)
    ensures CountOf(tokens, kind) == |SlotsOfKind(tokens, kind)|
  {
    if tokens != [] {
      CountIsSlots(tokens[1..], kind);
      BoundContains(tokens[1..], kind);
      var rest := SlotsOfKind(tokens[1..], kind);
      OneMore(rest, tokens[0].slot);
      assert {} + rest == rest;
    }
  }

  // ---------------------------------------------------------------- its dump

  function KeyslotLines(slots: seq<nat>): seq<DumpLine> {
    if slots == [] then []
    else [Entry(slots[0], "luks2"), Detail("Key")] + KeyslotLines(slots[1..])
  }

  function TokenLines(tokens: seq<Token>, number: nat): seq<DumpLine> {
    if tokens == [] then []
    else [Entry(number, TypeName(tokens[0].kind)), KeyslotRef(tokens[0].slot)] + TokenLines(tokens[1..], number + 1)
  }

  function Dump(h: Header): seq<DumpLine> {
    [Section("keyslots")] + KeyslotLines(h.keyslots) + [Section("tokens")] + TokenLines(h.tokens, 0)
    + [Section("digests"), Entry(0, "pbkdf2")]
  }

  // ---------------------------------------------------------------- reading the dump

  predicate LineEndsWith(line: DumpLine, suffix: string) {
    match line
    case Section(t) => EndsWith(t, suffix)
    case Entry(_, l) => EndsWith(l, suffix)
    case KeyslotRef(_) => false
    case Detail(t) => EndsWith(t, suffix)
  }

  function CountLines(lines: seq<DumpLine>, suffix: string): nat {
    if lines == [] then 0 else (if LineEndsWith(lines[0], suffix) then 1 else 0) + CountLines(lines[1..], suffix)
  }

  /** `_enrolled_count`. */
  method EnrolledCount(dump: seq<DumpLine>, kind: Kind) returns (n: nat)
    requires !kind.Other?
    ensures n == CountLines(dump, TypeName(kind))
  {
    n := 0;
    for i := 0 to |dump|
      invariant n + CountLines(dump[i..], TypeName(kind)) == CountLines(dump, TypeName(kind))
    {
      if LineEndsWith(dump[i], TypeName(kind)) {
        n := n + 1;
      }
    }
  }

  /** The token keyslots read from `lines` on, given the section and the token before them. */
  function TokenSlots(lines: seq<DumpLine>, section: string, isKind: bool, suffix: string): set<nat> {
    if lines == [] then {}
    else match lines[0]
      case Section(t) => TokenSlots(lines[1..], t, isKind, suffix)
      case Entry(_, l) =>
        TokenSlots(lines[1..], section, if section == "tokens" then EndsWith(l, suffix) else isKind, suffix)
      case KeyslotRef(s) =>
        (if section == "tokens" && isKind then {s} else {}) + TokenSlots(lines[1..], section, isKind, suffix)
      case Detail(_) => TokenSlots(lines[1..], section, isKind, suffix)
  }

  /** No token's keyslot is shown: the empty text, or a dump whose tokens a plugin rendered elsewhere. */
  predicate NoRefs(lines: seq<DumpLine>) {
    forall l :: l in lines ==> !l.KeyslotRef?
  }

  /** A dump that shows no token's keyslot shows no slot of any kind. */
  lemma {:induction false} NoRefsNoSlots(lines: seq<DumpLine>, section: string, isKind: bool, suffix: string)
    requires NoRefs(lines)
    ensures TokenSlots(lines, section, isKind, suffix) == {}
    decreases |lines|
  {
    if lines != [] {
      assert lines[0] in lines && forall l :: l in lines[1..] ==> l in lines;
      var next := if lines[0].Section? then lines[0].title else section;
      var kind := if lines[0].Entry? && section == "tokens" then EndsWith(lines[0].caption, suffix) else isKind;
      NoRefsNoSlots(lines[1..], next, kind, suffix);
    }
  }

  /** `_slots_of`. */
  method SlotsOf(dump: seq<DumpLine>, kind: Kind) returns (slots: set<nat>)
    requires !kind.Other?
    ensures slots == TokenSlots(dump, "", false, TypeName(kind))
  {
    slots := {};
    var section := "";
    var currentIsKind := false;
    for i := 0 to |dump|
      invariant slots + TokenSlots(dump[i..], section, currentIsKind, TypeName(kind))
             == TokenSlots(dump, "", false, TypeName(kind))
    {
      match dump[i] {
        case Section(t) =>
          section := t;
        case Entry(_, l) =>
          if section == "tokens" {
            currentIsKind := EndsWith(l, TypeName(kind));
          }
        case KeyslotRef(s) =>
          if section == "tokens" && currentIsKind {
            slots := slots + {s};
          }
        case Detail(_) =>
      }
    }
  }

  function AllSlots(lines: seq<DumpLine>, section: string): set<nat> {
    if lines == [] then {}
    else match lines[0]
      case Section(t) => AllSlots(lines[1..], t)
      case Entry(n, _) => (if section == "keyslots" then {n} else {}) + AllSlots(lines[1..], section)
      case _ => AllSlots(lines[1..], section)
  }

  function BoundSlots(lines: seq<DumpLine>, section: string): set<nat> {
    if lines == [] then {}
    else match lines[0]
      case Section(t) => BoundSlots(lines[1..], t)
      case KeyslotRef(s) => (if section == "tokens" then {s} else {}) + BoundSlots(lines[1..], section)
      case _ => BoundSlots(lines[1..], section)
  }

  /** `_slots`. */
  method Slots(dump: seq<DumpLine>) returns (allSlots: set<nat>, tokenSlots: set<nat>)
    ensures allSlots == AllSlots(dump, "") && tokenSlots == BoundSlots(dump, "")
  {
    allSlots, tokenSlots := {}, {};
    var section := "";
    for i := 0 to |dump|
      invariant allSlots + AllSlots(dump[i..], section) == AllSlots(dump, "")
      invariant tokenSlots + BoundSlots(dump[i..], section) == BoundSlots(dump, "")
    {
      match dump[i] {
        case Section(t) =>
          section := t;
        case Entry(n, _) =>
          if section == "keyslots" {
            allSlots := allSlots + {n};
          }
        case KeyslotRef(s) =>
          if section == "tokens" {
            tokenSlots := tokenSlots + {s};
          }
        case Detail(_) =>
      }
    }
  }

  // ---------------------------------------------------------------- the readers see the header

  /** A type name ends like a kind's exactly when it is that kind's. */
  lemma KindEnding(k: Kind, kind: Kind)
    requires !kind.Other?
    requires k.Other? ==> !EndsWith(k.name, TypeName(Tpm2)) && !EndsWith(k.name, TypeName(Fido2))
    ensures EndsWith(TypeName(k), TypeName(kind)) <==> k == kind
  {
    var a, b := TypeName(k), TypeName(kind);
    if k == kind {
      assert a[0..] == a;
    } else if !k.Other? {
      assert a[|a| - 4] != b[|b| - 4];
      assert |b| <= |a| ==> a[|a| - |b|..][|b| - 4] == a[|a| - 4];
    }
  }

  lemma {:induction false} CountLinesAppend(a: seq<DumpLine>, b: seq<DumpLine>, suffix: string)
    ensures CountLines(a + b, suffix) == CountLines(a, suffix) + CountLines(b, suffix)
  {
    if a == [] {
      assert a + b == b;
    } else {
      CountLinesAppend(a[1..], b, suffix);
      assert (a + b)[1..] == a[1..] + b;
    }
  }

  lemma {:induction false} NoCountInKeyslots(slots: seq<nat>, suffix: string)
    requires |suffix| > 8
    ensures CountLines(KeyslotLines(slots), suffix) == 0
  {
    if slots != [] {
      NoCountInKeyslots(slots[1..], suffix);
      CountLinesAppend([Entry(slots[0], "luks2"), Detail("Key")], KeyslotLines(slots[1..]), suffix);
      TwoLines(Entry(slots[0], "luks2"), Detail("Key"), suffix);
    }
  }

  lemma TwoLines(a: DumpLine, b: DumpLine, suffix: string)
    ensures CountLines([a, b], suffix) ==
            (if LineEndsWith(a, suffix) then 1 else 0) + (if LineEndsWith(b, suffix) then 1 else 0)
  {
    assert [b][1..] == [];
    assert CountLines([b], suffix) == if LineEndsWith(b, suffix) then 1 else 0;
    assert [a, b][1..] == [b];
  }

  lemma {:induction false} CountInTokens(tokens: seq<Token>, number: nat, kind: Kind)
    requires !kind.Other?
    requires Readable(tokens)
    ensures CountLines(TokenLines(tokens, number), TypeName(kind)) == CountOf(tokens, kind)
  {
    if tokens != [] {
      KindEnding(tokens[0].kind, kind);
      CountInTokens(tokens[1..], number + 1, kind);
      var a, b := Entry(number, TypeName(tokens[0].kind)), KeyslotRef(tokens[0].slot);
      CountLinesAppend([a, b], TokenLines(tokens[1..], number + 1), TypeName(kind));
      TwoLines(a, b, TypeName(kind));
    }
  }

  /** `_enrolled_count` reads the number of tokens of the kind. */
  lemma CountReadBack(h: Header, kind: Kind)
    requires !kind.Other?
    requires Readable(h.tokens)
    ensures CountLines(Dump(h), TypeName(kind)) == Enrolled(h, kind)
  {
    var suffix := TypeName(kind);
    var k, t := KeyslotLines(h.keyslots), TokenLines(h.tokens, 0);
    var tail := [Section("digests"), Entry(0, "pbkdf2")];
    NoCountInKeyslots(h.keyslots, suffix);
    CountInTokens(h.tokens, 0, kind);
    TwoLines(tail[0], tail[1], suffix);
    assert CountLines([Section("keyslots")], suffix) == 0;
    assert CountLines([Section("tokens")], suffix) == 0;
    CountLinesAppend([Section("keyslots")], k, suffix);
    CountLinesAppend([Section("keyslots")] + k, [Section("tokens")], suffix);
    CountLinesAppend([Section("keyslots")] + k + [Section("tokens")], t, suffix);
    CountLinesAppend([Section("keyslots")] + k + [Section("tokens")] + t, tail, suffix);
  }

  /** What one token's two lines add. */
  lemma ReadOneToken(lines: seq<DumpLine>, rest: seq<DumpLine>, number: nat, title: string, slot: nat,
                     isKind: bool, suffix: string)
    requires lines == [Entry(number, title), KeyslotRef(slot)] + rest
    ensures TokenSlots(lines, "tokens", isKind, suffix) ==
            (if EndsWith(title, suffix) then {slot} else {}) + TokenSlots(rest, "tokens", EndsWith(title, suffix), suffix)
    ensures AllSlots(lines, "tokens") == AllSlots(rest, "tokens")
    ensures BoundSlots(lines, "tokens") == {slot} + BoundSlots(rest, "tokens")
  {
    var second := lines[1..];
    assert second[0] == KeyslotRef(slot) && second[1..] == rest;
    assert AllSlots(second, "tokens") == AllSlots(rest, "tokens");
    assert BoundSlots(second, "tokens") == {slot} + BoundSlots(rest, "tokens");
  }

  lemma ReadTail(lines: seq<DumpLine>, isKind: bool, suffix: string)
    requires lines == [Section("digests"), Entry(0, "pbkdf2")]
    ensures TokenSlots(lines, "tokens", isKind, suffix) == {}
    ensures AllSlots(lines, "tokens") == {} && BoundSlots(lines, "tokens") == {}
  {
    var entry := lines[1..];
    assert entry == [Entry(0, "pbkdf2")] && entry[1..] == [];
    assert TokenSlots(entry, "digests", isKind, suffix) == {};
    assert AllSlots(entry, "digests") == {} && BoundSlots(entry, "digests") == {};
  }

  lemma {:induction false} ReadTokens(tokens: seq<Token>, number: nat, tail: seq<DumpLine>, isKind: bool, kind: Kind)
    requires !kind.Other?
    requires Readable(tokens)
    requires tail == [Section("digests"), Entry(0, "pbkdf2")]
    ensures TokenSlots(TokenLines(tokens, number) + tail, "tokens", isKind, TypeName(kind)) == SlotsOfKind(tokens, kind)
    ensures AllSlots(TokenLines(tokens, number) + tail, "tokens") == {}
    ensures BoundSlots(TokenLines(tokens, number) + tail, "tokens") == BoundBy(tokens)
  {
    var lines := TokenLines(tokens, number) + tail;
    if tokens == [] {
      assert lines == tail;
      ReadTail(tail, isKind, TypeName(kind));
    } else {
      var next := TokenLines(tokens[1..], number + 1) + tail;
      var title := TypeName(tokens[0].kind);
      KindEnding(tokens[0].kind, kind);
      ReadTokens(tokens[1..], number + 1, tail, tokens[0].kind == kind, kind);
      assert lines == [Entry(number, title), KeyslotRef(tokens[0].slot)] + next;
      ReadOneToken(lines, next, number, title, tokens[0].slot, isKind, TypeName(kind));
    }
  }

  lemma {:induction false} ReadKeyslots(slots: seq<nat>, rest: seq<DumpLine>, suffix: string)
    requires rest != [] && rest[0] == Section("tokens")
    ensures TokenSlots(KeyslotLines(slots) + rest, "keyslots", false, suffix) == TokenSlots(rest[1..], "tokens", false, suffix)
    ensures AllSlots(KeyslotLines(slots) + rest, "keyslots") == Numbers(slots) + AllSlots(rest[1..], "tokens")
    ensures BoundSlots(KeyslotLines(slots) + rest, "keyslots") == BoundSlots(rest[1..], "tokens")
  {
    var lines := KeyslotLines(slots) + rest;
    if slots == [] {
      assert lines == rest;
    } else {
      ReadKeyslots(slots[1..], rest, suffix);
      assert lines[1..][1..] == KeyslotLines(slots[1..]) + rest;
      assert lines[0] == Entry(slots[0], "luks2") && lines[1] == Detail("Key");
    }
  }

  /** `_slots_of` reads the keyslots of the kind's tokens, and `_slots` tells the keyslots a
      passphrase opens from those a token owns. */
  lemma SlotsReadBack(h: Header, kind: Kind)
    requires !kind.Other?
    requires Readable(h.tokens)
    ensures TokenSlots(Dump(h), "", false, TypeName(kind)) == SlotsOfKind(h.tokens, kind)
    ensures AllSlots(Dump(h), "") - BoundSlots(Dump(h), "") == PassphraseSlots(h)
  {
    var tail := [Section("digests"), Entry(0, "pbkdf2")];
    var body := TokenLines(h.tokens, 0) + tail;
    var rest := [Section("tokens")] + body;
    ReadTokens(h.tokens, 0, tail, false, kind);
    ReadKeyslots(h.keyslots, rest, TypeName(kind));
    assert rest[1..] == body;
    DumpParts(h, rest);
    ReadFirst(KeyslotLines(h.keyslots) + rest, TypeName(kind));
  }

  lemma DumpParts(h: Header, rest: seq<DumpLine>)
    requires rest == [Section("tokens")] + (TokenLines(h.tokens, 0) + [Section("digests"), Entry(0, "pbkdf2")])
    ensures Dump(h) == [Section("keyslots")] + (KeyslotLines(h.keyslots) + rest)
  {
  }

  lemma ReadFirst(lines: seq<DumpLine>, suffix: string)
    ensures var all := [Section("keyslots")] + lines;
            && TokenSlots(all, "", false, suffix) == TokenSlots(lines, "keyslots", false, suffix)
            && AllSlots(all, "") == AllSlots(lines, "keyslots")
            && BoundSlots(all, "") == BoundSlots(lines, "keyslots")
  {
    assert ([Section("keyslots")] + lines)[1..] == lines;
  }
}
