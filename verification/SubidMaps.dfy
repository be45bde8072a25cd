/** Giving rootless users their subordinate id ranges, and taking them back. */
module SubidMaps {
  import opened Common
  import opened Text
  import opened SubidLines
  import opened SetMath

  // ---------------------------------------------------------------- ranges

  function End(r: Range): int {
    r.start + r.count
  }

  /** No id lies in both. */
  predicate Apart(a: string, b: string) {
    RangeOf(a).Some? && RangeOf(b).Some? ==>
      var x, y := RangeOf(a).value, RangeOf(b).value;
      x.count <= 0 || y.count <= 0 || End(x) <= y.start || End(y) <= x.start
  }

  predicate Reserves(line: string, id: int) {
    RangeOf(line).Some? && RangeOf(line).value.start <= id < End(RangeOf(line).value)
  }

  lemma ApartMeansNoSharedId(a: string, b: string)
    ensures Apart(a, b) <==> forall id :: !(Reserves(a, id) && Reserves(b, id))
  {
    if RangeOf(a).Some? && RangeOf(b).Some? {
      var x, y := RangeOf(a).value, RangeOf(b).value;
      var id := if x.start <= y.start then y.start else x.start;
      assert !Apart(a, b) ==> Reserves(a, id) && Reserves(b, id);
    }
  }

  predicate Disjoint(lines: seq<string>) {
    forall i, j :: 0 <= i < j < |lines| ==> Apart(lines[i], lines[j])
  }

  predicate Below(line: string, n: int) {
    RangeOf(line).Some? ==> End(RangeOf(line).value) <= n
  }

  predicate AllBelow(lines: seq<string>, n: int) {
    forall l :: l in lines ==> Below(l, n)
  }

  /** `_next_start`. */
  function Highest(lines: seq<string>): (n: nat)
    ensures n >= FIRST_SUBID && AllBelow(lines, n)
  {
    if lines == [] then FIRST_SUBID
    else
      var last := lines[|lines| - 1];
      var n := Highest(lines[..|lines| - 1]);
      assert lines == lines[..|lines| - 1] + [last];
      if RangeOf(last).Some? && End(RangeOf(last).value) > n then End(RangeOf(last).value) else n
  }

  /** It is the first id, or the end of one of the ranges. */
  lemma {:induction false} HighestIsLeast(lines: seq<string>)
    ensures Highest(lines) == FIRST_SUBID || exists l :: l in lines && RangeOf(l).Some? && End(RangeOf(l).value) == Highest(lines)
  {
    if lines != [] {
      var front, last := lines[..|lines| - 1], lines[|lines| - 1];
      HighestIsLeast(front);
      assert lines == front + [last];
    }
  }

  method NextStart(lines: seq<string>) returns (highest: nat)
    ensures highest == Highest(lines)
  {
    highest := FIRST_SUBID;
    for i := 0 to |lines|
      invariant highest == Highest(lines[..i])
    {
      assert lines[..i + 1][..i] == lines[..i];
      var r := RangeOf(lines[i]);
      if r.Some? && End(r.value) > highest {
        highest := End(r.value);
      }
    }
    assert lines[..|lines|] == lines;
  }

  // ---------------------------------------------------------------- owners

  function Owners(lines: seq<string>): set<string> {
    set l | l in lines && OwnerOf(l).Some? :: OwnerOf(l).value
  }

  /** How many lines a user has. */
  function LinesOf(lines: seq<string>, user: string): nat {
    if lines == [] then 0
    else LinesOf(lines[..|lines| - 1], user) + if OwnerOf(lines[|lines| - 1]) == Some(user) then 1 else 0
  }

  function NonBlank(lines: seq<string>): seq<string> {
    if lines == [] then []
    else
      var last := lines[|lines| - 1];
      if IsBlank(last) then NonBlank(lines[..|lines| - 1]) else NonBlank(lines[..|lines| - 1]) + [last]
  }

  // ---------------------------------------------------------------- adding

  /** The lines appended for the users who have none. */
  function NewLines(users: seq<string>, existing: set<string>, start: nat): seq<string> {
    if users == [] then []
    else if users[0] in existing then NewLines(users[1..], existing, start)
    else [NewLine(users[0], start)] + NewLines(users[1..], existing, start + SUBID_COUNT)
  }

  /** The users who have no line, in their order. */
  function Unmapped(users: seq<string>, existing: set<string>): seq<string> {
    if users == [] then [] else (if users[0] in existing then [] else [users[0]]) + Unmapped(users[1..], existing)
  }

  /** Each gets the range after the one before. */
  lemma {:induction false} RangesAdjoin(users: seq<string>, existing: set<string>, start: nat, k: nat)
    ensures |NewLines(users, existing, start)| == |Unmapped(users, existing)|
    ensures k < |Unmapped(users, existing)| ==>
      NewLines(users, existing, start)[k] == NewLine(Unmapped(users, existing)[k], start + k * SUBID_COUNT)
    decreases |users|
  {
    if users != [] {
      if users[0] in existing {
        RangesAdjoin(users[1..], existing, start, k);
      } else {
        RangesAdjoin(users[1..], existing, start + SUBID_COUNT, if k > 0 then k - 1 else 0);
      }
    }
  }

  function NewLinesFor(lines: seq<string>, users: seq<string>): seq<string> {
    NewLines(users, Owners(lines), Highest(lines))
  }

  /** One file after `_add_maps`: untouched when nobody is new, else rewritten without blank lines. */
  function WithMaps(lines: seq<string>, users: seq<string>): seq<string> {
    if NewLinesFor(lines, users) == [] then lines else NonBlank(lines + NewLinesFor(lines, users))
  }

  /** The text of the file: what `_write_map` writes of those lines, or the old text. */
  function TextWithMaps(text: string, users: seq<string>): string {
    if NewLinesFor(Lines(text), users) == [] then text else Unlines(WithMaps(Lines(text), users))
  }

  /** `_add_maps` on one file. */
  method AddMaps(text: string, users: seq<string>) returns (r: string)
    ensures r == TextWithMaps(text, users)
  {
    var file := Lines(text);
    var lines, added := Append(file, users);
    r := if added then Unlines(NonBlank(lines)) else text;
  }

  /** The loop of `_add_maps`. */
  method Append(file: seq<string>, users: seq<string>) returns (lines: seq<string>, added: bool)
    ensures lines == file + NewLinesFor(file, users) && (added <==> NewLinesFor(file, users) != [])
  {
    lines := file;
    var existing := Owners(lines);
    var nextStart: nat := NextStart(lines);
    added := false;
    for i := 0 to |users|
      invariant lines + NewLines(users[i..], existing, nextStart) == file + NewLinesFor(file, users)
      invariant added <==> lines != file
      invariant |lines| >= |file|
    {
      NewLinesStep(users, i, existing, nextStart);
      if users[i] in existing {
        continue;
      }
      lines := lines + [NewLine(users[i], nextStart)];
      nextStart := nextStart + SUBID_COUNT;
      added := true;
    }
    assert lines == file + NewLinesFor(file, users);
  }

  lemma NewLinesStep(users: seq<string>, i: nat, existing: set<string>, start: nat)
    requires i < |users|
    ensures NewLines(users[i..], existing, start) ==
            if users[i] in existing then NewLines(users[i + 1..], existing, start)
            else [NewLine(users[i], start)] + NewLines(users[i + 1..], existing, start + SUBID_COUNT)
  {
    assert users[i..][1..] == users[i + 1..];
  }

  predicate PlainName(user: string) {
    ':' !in user && '\n' !in user
  }

  predicate PlainNames(users: seq<string>) {
    forall u :: u in users ==> PlainName(u)
  }

  /** No line of a file holds a line break. */
  predicate OneLiners(lines: seq<string>) {
    forall l :: l in lines ==> '\n' !in l
  }

  lemma {:induction false} NewLinesOneLiners(users: seq<string>, existing: set<string>, start: nat)
    requires PlainNames(users)
    ensures OneLiners(NewLines(users, existing, start))
    decreases |users|
  {
    if users != [] {
      assert users[0] in users && forall u :: u in users[1..] ==> u in users;
      NewLinesOneLiners(users[1..], existing, start);
      NewLinesOneLiners(users[1..], existing, start + SUBID_COUNT);
      NewLineIsOne(users[0], start);
    }
  }

  lemma NewLineIsOne(user: string, start: nat)
    requires PlainName(user)
    ensures '\n' !in NewLine(user, start)
  {
    var a, b := Decimal(start), Decimal(SUBID_COUNT);
    assert '\n' !in a && '\n' !in b;
    var parts := [user, a, b];
    assert parts[1..] == [a, b] && [a, b][1..] == [b];
    assert Join([b], ":") == b && Join([a, b], ":") == a + ":" + b;
    assert NewLine(user, start) == user + ":" + (a + ":" + b);
  }

  /** The written text reads back as the new lines. */
  lemma AddReadsBack(text: string, users: seq<string>)
    requires PlainNames(users)
    ensures Lines(TextWithMaps(text, users)) == WithMaps(Lines(text), users)
  {
    var lines, more := Lines(text), NewLinesFor(Lines(text), users);
    if more != [] {
      NewLinesOneLiners(users, Owners(lines), Highest(lines));
      var r := NonBlank(lines + more);
      forall i | 0 <= i < |r|
        ensures '\n' !in r[i]
      {
        InNonBlank(lines + more, r[i]);
        assert r[i] in lines || r[i] in more;
      }
      LinesOfUnlines(r);
    }
  }

  lemma DisjointAppend(lines: seq<string>, user: string, start: nat)
    requires Disjoint(lines) && AllBelow(lines, start) && PlainName(user)
    ensures Disjoint(lines + [NewLine(user, start)]) && AllBelow(lines + [NewLine(user, start)], start + SUBID_COUNT)
  {
    NewLineReadsBack(user, start);
    var line := NewLine(user, start);
    forall i | 0 <= i < |lines|
      ensures Apart(lines[i], line)
    {
      assert lines[i] in lines && Below(lines[i], start);
    }
  }

  lemma {:induction false} NewLinesDisjoint(lines: seq<string>, users: seq<string>, existing: set<string>, start: nat)
    requires Disjoint(lines) && AllBelow(lines, start) && PlainNames(users)
    ensures Disjoint(lines + NewLines(users, existing, start))
    decreases |users|
  {
    if users == [] {
      assert lines + [] == lines;
    } else {
      assert users[0] in users && forall u :: u in users[1..] ==> u in users;
      if users[0] in existing {
        NewLinesDisjoint(lines, users[1..], existing, start);
      } else {
        var line := NewLine(users[0], start);
        DisjointAppend(lines, users[0], start);
        NewLinesDisjoint(lines + [line], users[1..], existing, start + SUBID_COUNT);
        var rest := NewLines(users[1..], existing, start + SUBID_COUNT);
        assert lines + ([line] + rest) == lines + [line] + rest;
      }
    }
  }

  lemma {:induction false} InNonBlank(lines: seq<string>, l: string)
    ensures l in NonBlank(lines) <==> l in lines && !IsBlank(l)
  {
    if lines != [] {
      var front, last := lines[..|lines| - 1], lines[|lines| - 1];
      InNonBlank(front, l);
      assert lines == front + [last];
    }
  }

  lemma {:induction false} NonBlankDisjoint(lines: seq<string>)
    requires Disjoint(lines)
    ensures Disjoint(NonBlank(lines))
  {
    if lines != [] {
      var front, last := lines[..|lines| - 1], lines[|lines| - 1];
      NonBlankDisjoint(front);
      var kept := NonBlank(front);
      forall i | 0 <= i < |kept|
        ensures Apart(kept[i], last)
      {
        InNonBlank(front, kept[i]);
        var j :| 0 <= j < |front| && front[j] == kept[i];
        assert Apart(lines[j], lines[|lines| - 1]);
      }
    }
  }

  /** Adding ranges keeps all ranges of a file disjoint. */
  lemma AddKeepsDisjoint(lines: seq<string>, users: seq<string>)
    requires Disjoint(lines) && PlainNames(users)
    ensures Disjoint(WithMaps(lines, users))
  {
    NewLinesDisjoint(lines, users, Owners(lines), Highest(lines));
    NonBlankDisjoint(lines + NewLinesFor(lines, users));
  }

  lemma {:induction false} NonBlankAppend(lines: seq<string>, more: seq<string>, all: seq<string>)
    requires all == lines + more && forall l :: l in more ==> !IsBlank(l)
    ensures NonBlank(all) == NonBlank(lines) + more
    decreases |more|
  {
    if more == [] {
      assert all == lines;
    } else {
      var front, last := more[..|more| - 1], more[|more| - 1];
      assert last in more && forall l :: l in front ==> l in more;
      assert all[..|all| - 1] == lines + front;
      NonBlankAppend(lines, front, all[..|all| - 1]);
      assert more == front + [last];
    }
  }

  lemma {:induction false} NewLinesNotBlank(users: seq<string>, existing: set<string>, start: nat)
    requires PlainNames(users)
    ensures forall l :: l in NewLines(users, existing, start) ==> !IsBlank(l)
    decreases |users|
  {
    if users != [] {
      assert users[0] in users && forall u :: u in users[1..] ==> u in users;
      NewLinesNotBlank(users[1..], existing, start);
      NewLinesNotBlank(users[1..], existing, start + SUBID_COUNT);
      NewLineReadsBack(users[0], start);
    }
  }

  /** The old lines that are not blank stay, in order, ahead of the new ones. */
  lemma AddKeepsOldLines(lines: seq<string>, users: seq<string>)
    requires PlainNames(users)
    ensures NonBlank(WithMaps(lines, users)) == NonBlank(lines) + NewLinesFor(lines, users)
  {
    var more := NewLinesFor(lines, users);
    NewLinesNotBlank(users, Owners(lines), Highest(lines));
    NonBlankAppend(lines, more, lines + more);
    if more == [] {
      assert NonBlank(lines) + [] == NonBlank(lines);
    } else {
      NonBlankTwice(lines + more);
    }
  }

  lemma {:induction false} NonBlankTwice(lines: seq<string>)
    ensures NonBlank(NonBlank(lines)) == NonBlank(lines)
  {
    if lines != [] {
      var front, last := lines[..|lines| - 1], lines[|lines| - 1];
      NonBlankTwice(front);
      if !IsBlank(last) {
        assert (NonBlank(front) + [last])[..|NonBlank(front)|] == NonBlank(front);
      }
    }
  }

  lemma {:induction false} LinesOfAppend(a: seq<string>, b: seq<string>, ab: seq<string>, user: string)
    requires ab == a + b
    ensures LinesOf(ab, user) == LinesOf(a, user) + LinesOf(b, user)
    decreases |b|
  {
    if b == [] {
      assert ab == a;
    } else {
      var front := b[..|b| - 1];
      LinesOfAppend(a, front, ab[..|ab| - 1], user);
    }
  }

  lemma OwnerNotBlank(line: string)
    requires OwnerOf(line).Some?
    ensures !IsBlank(line)
  {
    KeptByStrip(line, ':');
  }

  lemma {:induction false} LinesOfNonBlank(lines: seq<string>, user: string)
    ensures LinesOf(NonBlank(lines), user) == LinesOf(lines, user)
  {
    if lines != [] {
      var front, last := lines[..|lines| - 1], lines[|lines| - 1];
      LinesOfNonBlank(front, user);
      if IsBlank(last) {
        if OwnerOf(last).Some? {
          OwnerNotBlank(last);
        }
      } else {
        assert (NonBlank(front) + [last])[..|NonBlank(front)|] == NonBlank(front);
      }
    }
  }

  /** How often a user is listed. */
  function Times(users: seq<string>, user: string): nat {
    if users == [] then 0 else (if users[0] == user then 1 else 0) + Times(users[1..], user)
  }

  lemma {:induction false} TimesPositive(users: seq<string>, user: string)
    ensures Times(users, user) > 0 <==> user in users
  {
    if users != [] {
      TimesPositive(users[1..], user);
      assert user in users <==> user == users[0] || user in users[1..];
    }
  }

  lemma {:induction false} TimesOnce(users: seq<string>, user: string)
    requires NoRepeats(users)
    ensures Times(users, user) <= 1
  {
    if users != [] {
      TimesOnce(users[1..], user);
      TimesPositive(users[1..], user);
      assert users[0] !in users[1..];
    }
  }

  lemma {:induction false} LinesOfNew(users: seq<string>, existing: set<string>, start: nat, user: string)
    requires PlainNames(users)
    ensures LinesOf(NewLines(users, existing, start), user) == if user in existing then 0 else Times(users, user)
    decreases |users|
  {
    if users != [] {
      var first, rest := users[0], users[1..];
      assert first in users && forall u :: u in rest ==> u in users;
      if first in existing {
        LinesOfNew(rest, existing, start, user);
      } else {
        var line := NewLine(first, start);
        var more := NewLines(rest, existing, start + SUBID_COUNT);
        LinesOfNew(rest, existing, start + SUBID_COUNT, user);
        NewLineReadsBack(first, start);
        LinesOfAppend([line], more, [line] + more, user);
        assert [line][..0] == [];
        assert LinesOf([line], user) == if user == first then 1 else 0;
      }
    }
  }

  lemma {:induction false} OwnersIff(lines: seq<string>, user: string)
    ensures user in Owners(lines) <==> LinesOf(lines, user) > 0
  {
    if lines != [] {
      var front, last := lines[..|lines| - 1], lines[|lines| - 1];
      OwnersIff(front, user);
      assert lines == front + [last];
      assert user in Owners(lines) <==> user in Owners(front) || OwnerOf(last) == Some(user);
    }
  }

  /** A user who had no line gains one for each time it is listed; nobody else gains or loses one. */
  lemma AddGivesAsListed(lines: seq<string>, users: seq<string>, user: string)
    requires PlainNames(users)
    ensures LinesOf(WithMaps(lines, users), user)
         == LinesOf(lines, user) + if LinesOf(lines, user) == 0 then Times(users, user) else 0
  {
    var more := NewLinesFor(lines, users);
    OwnersIff(lines, user);
    LinesOfNew(users, Owners(lines), Highest(lines), user);
    LinesOfAppend(lines, more, lines + more, user);
    LinesOfNonBlank(lines + more, user);
  }

  /** Everybody listed who had no line has exactly one afterwards. */
  ghost predicate OneEach(lines: seq<string>, users: seq<string>) {
    forall u :: u in users && LinesOf(lines, u) == 0 ==> LinesOf(WithMaps(lines, users), u) == 1
  }

  predicate NewOnce(lines: seq<string>, users: seq<string>, user: string) {
    LinesOf(lines, user) == 0 ==> Times(users, user) <= 1
  }

  ghost predicate NewOnesOnce(lines: seq<string>, users: seq<string>) {
    forall u :: NewOnce(lines, users, u)
  }

  /** That holds exactly when nobody without a line is listed twice. */
  lemma OneEachIff(lines: seq<string>, users: seq<string>)
    requires PlainNames(users)
    ensures OneEach(lines, users) <==> NewOnesOnce(lines, users)
  {
    if NewOnesOnce(lines, users) {
      forall u | u in users && LinesOf(lines, u) == 0
        ensures LinesOf(WithMaps(lines, users), u) == 1
      {
        assert NewOnce(lines, users, u);
        AddGivesAsListed(lines, users, u);
        TimesPositive(users, u);
      }
    }
    if OneEach(lines, users) {
      forall u
        ensures NewOnce(lines, users, u)
      {
        AddGivesAsListed(lines, users, u);
        TimesPositive(users, u);
      }
    }
  }

  // ---------------------------------------------------------------- dropping

  /** One file after `_drop_maps`; it is rewritten, without blank lines, only if a line goes. */
  function Kept(lines: seq<string>, users: seq<string>): seq<string> {
    if lines == [] then []
    else
      var last := lines[|lines| - 1];
      if OwnerOf(last).Some? && OwnerOf(last).value in users then Kept(lines[..|lines| - 1], users)
      else Kept(lines[..|lines| - 1], users) + [last]
  }

  function WithoutMaps(lines: seq<string>, users: seq<string>): seq<string> {
    if Kept(lines, users) == lines then lines else NonBlank(Kept(lines, users))
  }

  function TextWithoutMaps(text: string, users: seq<string>): string {
    if Kept(Lines(text), users) == Lines(text) then text else Unlines(WithoutMaps(Lines(text), users))
  }

  /** `_drop_maps` on one file. */
  method DropMaps(text: string, users: seq<string>) returns (r: string)
    ensures r == TextWithoutMaps(text, users)
  {
    var file := Lines(text);
    var kept := [];
    for i := 0 to |file|
      invariant kept == Kept(file[..i], users)
    {
      assert file[..i + 1][..i] == file[..i];
      if !(OwnerOf(file[i]).Some? && OwnerOf(file[i]).value in users) {
        kept := kept + [file[i]];
      }
    }
    assert file[..|file|] == file;
    r := if kept != file then Unlines(NonBlank(kept)) else text;
  }

  lemma {:induction false} InKept(lines: seq<string>, users: seq<string>, l: string)
    ensures l in Kept(lines, users) ==> l in lines
  {
    if lines != [] {
      var front, last := lines[..|lines| - 1], lines[|lines| - 1];
      InKept(front, users, l);
      assert lines == front + [last];
    }
  }

  lemma DropReadsBack(text: string, users: seq<string>)
    ensures Lines(TextWithoutMaps(text, users)) == WithoutMaps(Lines(text), users)
  {
    var lines := Lines(text);
    var r := NonBlank(Kept(lines, users));
    forall i | 0 <= i < |r|
      ensures '\n' !in r[i]
    {
      InNonBlank(Kept(lines, users), r[i]);
      InKept(lines, users, r[i]);
    }
    LinesOfUnlines(r);
  }

  lemma {:induction false} KeptDisjoint(lines: seq<string>, users: seq<string>)
    requires Disjoint(lines)
    ensures Disjoint(Kept(lines, users))
  {
    if lines != [] {
      var front, last := lines[..|lines| - 1], lines[|lines| - 1];
      KeptDisjoint(front, users);
      var kept := Kept(front, users);
      forall i | 0 <= i < |kept|
        ensures Apart(kept[i], last)
      {
        InKept(front, users, kept[i]);
        var j :| 0 <= j < |front| && front[j] == kept[i];
        assert Apart(lines[j], lines[|lines| - 1]);
      }
    }
  }

  lemma {:induction false} KeptLinesOf(lines: seq<string>, users: seq<string>, user: string)
    ensures LinesOf(Kept(lines, users), user) == if user in users then 0 else LinesOf(lines, user)
  {
    if lines != [] {
      var front, last := lines[..|lines| - 1], lines[|lines| - 1];
      KeptLinesOf(front, users, user);
      var kept := Kept(front, users);
      assert (kept + [last])[..|kept|] == kept;
    }
  }

  /** Dropping takes every line of the listed users and none of anybody else's. */
  lemma DropTakesExactly(lines: seq<string>, users: seq<string>, user: string)
    ensures LinesOf(WithoutMaps(lines, users), user) == if user in users then 0 else LinesOf(lines, user)
    ensures Disjoint(lines) ==> Disjoint(WithoutMaps(lines, users))
  {
    KeptLinesOf(lines, users, user);
    LinesOfNonBlank(Kept(lines, users), user);
    if Disjoint(lines) {
      KeptDisjoint(lines, users);
      NonBlankDisjoint(Kept(lines, users));
    }
  }

  // ---------------------------------------------------------------- plan and apply

  function Items(changes: seq<Change>, op: Op): seq<string> {
    if changes == [] then []
    else if changes[0].op == op then [changes[0].item] + Items(changes[1..], op) else Items(changes[1..], op)
  }

  lemma {:induction false} InItems(changes: seq<Change>, op: Op, x: string)
    ensures x in Items(changes, op) <==> Change(op, x) in changes
  {
    if changes != [] {
      InItems(changes[1..], op, x);
      assert Change(op, x) in changes <==> Change(op, x) == changes[0] || Change(op, x) in changes[1..];
    }
  }

  lemma {:induction false} ItemsNoRepeats(changes: seq<Change>, op: Op)
    requires NoRepeats(changes)
    ensures NoRepeats(Items(changes, op))
  {
    if changes != [] {
      ItemsNoRepeats(changes[1..], op);
      var rest := Items(changes[1..], op);
      if changes[0].op == op {
        InItems(changes[1..], op, changes[0].item);
        assert changes[0].item !in rest;
      }
    }
  }

  /** One file after the whole apply, as text and as lines. */
  function TextAfter(text: string, creates: seq<string>, removes: seq<string>): string {
    TextWithoutMaps(TextWithMaps(text, creates), removes)
  }

  lemma TextAfterReadsBack(text: string, creates: seq<string>, removes: seq<string>)
    requires PlainNames(creates)
    ensures Lines(TextAfter(text, creates, removes)) == WithoutMaps(WithMaps(Lines(text), creates), removes)
  {
    AddReadsBack(text, creates);
    DropReadsBack(TextWithMaps(text, creates), removes);
  }

  class ContainersAction {
    const rootless: seq<string>
    var subuid: string
    var subgid: string

    constructor (rootless: seq<string>, subuid: string, subgid: string)
      ensures this.rootless == rootless && this.subuid == subuid && this.subgid == subgid
    {
      this.rootless, this.subuid, this.subgid := rootless, subuid, subgid;
    }

    /** `_mapped_users`. */
    function Mapped(): set<string>
      reads this
    {
      Owners(Lines(subuid)) * Owners(Lines(subgid))
    }

    /** `plan`. */
    function Plan(managed: set<string>): seq<Change>
      reads this
    {
      ComputeChanges(ToSet(rootless), managed, Mapped(), Create, Remove)
    }

    /** `apply`. */
    method Apply(changes: seq<Change>)
      modifies this
      ensures subuid == TextAfter(old(subuid), Items(changes, Create), Items(changes, Remove))
      ensures subgid == TextAfter(old(subgid), Items(changes, Create), Items(changes, Remove))
    {
      var creates, removes := Items(changes, Create), Items(changes, Remove);
      AddNone(subuid);
      AddNone(subgid);
      var uids, gids := subuid, subgid;
      if creates != [] {
        uids := AddMaps(uids, creates);
        gids := AddMaps(gids, creates);
      }
      DropNone(uids);
      DropNone(gids);
      if removes != [] {
        uids := DropMaps(uids, removes);
        gids := DropMaps(gids, removes);
      }
      subuid, subgid := uids, gids;
    }

    /** Plan, apply, plan: both files stay disjoint, every declared user ends up mapped in both, and
        only removals of what dasik no longer declares can be left to plan. */
    method Reconcile(managed: set<string>, later: set<string>) returns (next: seq<Change>)
      requires PlainNames(rootless)
      modifies this
      ensures Disjoint(Lines(old(subuid))) ==> Disjoint(Lines(subuid))
      ensures Disjoint(Lines(old(subgid))) ==> Disjoint(Lines(subgid))
      ensures ToSet(rootless) <= Mapped()
      ensures forall u :: u in ToSet(rootless) && LinesOf(Lines(old(subuid)), u) <= 1 ==> LinesOf(Lines(subuid), u) == 1
      ensures forall c :: c in next ==> c.op == Remove && c.item in later - ToSet(rootless)
      ensures later <= ToSet(rootless) ==> next == []
    {
      var changes := Plan(managed);
      NothingTwice(ToSet(rootless), managed, Mapped(), Create, Remove);
      ItemsNoRepeats(changes, Create);
      ghost var mapped := Mapped();
      forall u | u in Items(changes, Create) || u in Items(changes, Remove) || u in rootless
        ensures u in Items(changes, Create) <==> u in ToSet(rootless) - mapped
        ensures u in Items(changes, Remove) <==> u in managed - ToSet(rootless)
      {
        InItems(changes, Create, u);
        InItems(changes, Remove, u);
      }
      Apply(changes);
      FileAfter(old(subuid), rootless, mapped, Items(changes, Create), Items(changes, Remove));
      FileAfter(old(subgid), rootless, mapped, Items(changes, Create), Items(changes, Remove));
      next := Plan(later);
      PlanSilentIff(ToSet(rootless), later, Mapped(), Create, Remove);
    }
  }

  lemma AddNone(text: string)
    ensures TextWithMaps(text, []) == text
  {
  }

  lemma DropNone(text: string)
    ensures TextWithoutMaps(text, []) == text
  {
    KeptAll(Lines(text));
  }

  lemma {:induction false} KeptAll(lines: seq<string>)
    ensures Kept(lines, []) == lines
  {
    if lines != [] {
      KeptAll(lines[..|lines| - 1]);
    }
  }

  /** One file after the apply of a plan. */
  lemma FileAfter(text: string, rootless: seq<string>, mapped: set<string>, creates: seq<string>, removes: seq<string>)
    requires PlainNames(rootless) && NoRepeats(creates) && mapped <= Owners(Lines(text))
    requires forall u :: u in creates ==> u in rootless
    requires forall u :: u in rootless ==> (u in creates <==> u !in mapped) && u !in removes
    ensures var lines, after := Lines(text), Lines(TextAfter(text, creates, removes));
            && (Disjoint(lines) ==> Disjoint(after))
            && (forall u :: u in rootless ==> u in Owners(after) && (LinesOf(lines, u) <= 1 ==> LinesOf(after, u) == 1))
  {
    TextAfterReadsBack(text, creates, removes);
    LinesAfter(Lines(text), rootless, mapped, creates, removes);
  }

  lemma LinesAfter(lines: seq<string>, rootless: seq<string>, mapped: set<string>, creates: seq<string>, removes: seq<string>)
    requires PlainNames(rootless) && NoRepeats(creates) && mapped <= Owners(lines)
    requires forall u :: u in creates ==> u in rootless
    requires forall u :: u in rootless ==> (u in creates <==> u !in mapped) && u !in removes
    ensures var after := WithoutMaps(WithMaps(lines, creates), removes);
            && (Disjoint(lines) ==> Disjoint(after))
            && (forall u :: u in rootless ==> u in Owners(after) && (LinesOf(lines, u) <= 1 ==> LinesOf(after, u) == 1))
  {
    var added := WithMaps(lines, creates);
    var after := WithoutMaps(added, removes);
    if Disjoint(lines) {
      AddKeepsDisjoint(lines, creates);
      DropTakesExactly(added, removes, "");
    }
    forall u | u in rootless
      ensures u in Owners(after) && (LinesOf(lines, u) <= 1 ==> LinesOf(after, u) == 1)
    {
      OwnersIff(lines, u);
      AddGivesAsListed(lines, creates, u);
      TimesOnce(creates, u);
      TimesPositive(creates, u);
      DropTakesExactly(added, removes, u);
      OwnersIff(after, u);
    }
  }
}
