/** What removing and re-homing sections does to what a reader of the file sees. */
module PacmanTheorems {
  import opened Common
  import opened PacmanLines
  import opened PacmanSections

  predicate StartsSection(lines: seq<Line>) {
    lines == [] || IsHeader(lines[0])
  }

  // ---------------------------------------------------------------- reading in two halves

  lemma {:induction false} DirectivesAppend(a: seq<Line>, b: seq<Line>, ab: seq<Line>)
    requires StartsSection(b) && ab == a + b
    ensures Directives(ab) == Directives(a)
  {
    if a == [] {
      assert ab == b;
    } else {
      assert ab[0] == a[0];
      DirectivesAppend(a[1..], b, ab[1..]);
    }
  }

  lemma {:induction false} SectionsAppendAs(a: seq<Line>, b: seq<Line>, ab: seq<Line>)
    requires StartsSection(b) && ab == a + b
    ensures Sections(ab) == Sections(a) + Sections(b)
  {
    if a == [] {
      assert ab == b;
    } else {
      assert ab[0] == a[0];
      SectionsAppendAs(a[1..], b, ab[1..]);
      DirectivesAppend(a[1..], b, ab[1..]);
    }
  }

  lemma SectionsAppend(a: seq<Line>, b: seq<Line>)
    requires StartsSection(b)
    ensures Sections(a + b) == Sections(a) + Sections(b)
  {
    SectionsAppendAs(a, b, a + b);
  }

  /** Lines before the first header open no section. */
  lemma {:induction false} SkipHead(lines: seq<Line>, n: nat)
    requires n <= HeadLen(lines)
    ensures Sections(lines[n..]) == Sections(lines)
  {
    if n > 0 {
      SkipHead(lines[1..], n - 1);
      assert lines[1..][n - 1..] == lines[n..];
    } else {
      assert lines[0..] == lines;
    }
  }

  /** Text left after a body, up to the next header, holds no directive. */
  lemma {:induction false} NothingAfterBody(lines: seq<Line>, n: nat)
    requires BodyLen(lines) <= n <= HeadLen(lines)
    ensures Directives(lines[n..]) == []
    decreases |lines| - n
  {
    if n < HeadLen(lines) {
      NothingAfterBody(lines, n + 1);
      assert lines[n..][1..] == lines[n + 1..];
    }
  }

  // ---------------------------------------------------------------- removal, as a reader sees it

  function Without(sections: seq<RepoSection>, names: set<string>): (r: seq<RepoSection>)
    ensures forall s :: s in r <==> s in sections && s.name !in names
  {
    if sections == [] then []
    else (if sections[0].name in names then [] else [sections[0]]) + Without(sections[1..], names)
  }

  /** What one line adds to the sections read from the lines after it. */
  function Opens(line: Line, ds: seq<Kind>): seq<RepoSection> {
    if IsHeader(line) && line.kind.name != "options" then
      [WithDirectives(Empty(line.kind.name), ds)]
    else []
  }

  lemma ReadCons(line: Line, rest: seq<Line>)
    ensures Sections([line] + rest) == Opens(line, Directives(rest)) + Sections(rest)
    ensures Directives([line] + rest) ==
            if IsHeader(line) then [] else (if line.kind.Entry? then [line.kind] else []) + Directives(rest)
  {
    assert ([line] + rest)[1..] == rest;
  }

  lemma AfterTaken(rest: seq<Line>)
    ensures Sections(rest[TakenLen(rest)..]) == Sections(rest)
    ensures Directives(rest[TakenLen(rest)..]) == []
  {
    TakenHasNoHeader(rest);
    SkipHead(rest, TakenLen(rest));
    NothingAfterBody(rest, TakenLen(rest));
  }

  lemma WithoutCons(line: Line, ds: seq<Kind>, sections: seq<RepoSection>, names: set<string>)
    ensures Without(Opens(line, ds) + sections, names) ==
            (if HeaderIn(line, names) then [] else Opens(line, ds)) + Without(sections, names)
  {
    var news := Opens(line, ds);
    if news != [] {
      DirectivesKeepName(Empty(line.kind.name), ds);
      assert (news + sections)[1..] == sections;
    } else {
      assert news + sections == sections;
    }
  }

  /** Removal takes exactly the named sections: every other one parses to what it parsed to
      before, in order, and leftover text changes no neighbour. */
  lemma {:induction false} RemovedParsesTo(lines: seq<Line>, names: set<string>)
    ensures Sections(Removed(lines, names)) == Without(Sections(lines), names)
    ensures Directives(Removed(lines, names)) == Directives(lines)
    decreases |lines|
  {
    if lines != [] {
      var line, rest := lines[0], lines[1..];
      assert lines == [line] + rest;
      ReadCons(line, rest);
      WithoutCons(line, Directives(rest), Sections(rest), names);
      if HeaderIn(line, names) {
        AfterTaken(rest);
        assert lines[1 + TakenLen(rest)..] == rest[TakenLen(rest)..];
        RemovedParsesTo(rest[TakenLen(rest)..], names);
      } else {
        RemovedParsesTo(rest, names);
        ReadCons(line, Removed(rest, names));
      }
    }
  }

  lemma {:induction false} RemovedHasNone(lines: seq<Line>, names: set<string>)
    ensures forall i :: 0 <= i < |Removed(lines, names)| ==> !HeaderIn(Removed(lines, names)[i], names)
    decreases |lines|
  {
    if lines == [] {
    } else if HeaderIn(lines[0], names) {
      RemovedHasNone(lines[1 + TakenLen(lines[1..])..], names);
    } else {
      RemovedHasNone(lines[1..], names);
    }
  }

  lemma {:induction false} RemovedNoop(lines: seq<Line>, names: set<string>)
    requires forall i :: 0 <= i < |lines| ==> !HeaderIn(lines[i], names)
    ensures Removed(lines, names) == lines
  {
    if lines != [] {
      RemovedNoop(lines[1..], names);
      assert lines == [lines[0]] + lines[1..];
    }
  }

  lemma {:induction false} BodyLenAppend(a: seq<Line>, b: seq<Line>, ab: seq<Line>)
    requires StartsSection(b) && ab == a + b
    ensures BodyLen(ab) == BodyLen(a)
  {
    if a == [] {
      assert ab == b;
    } else {
      assert ab[0] == a[0];
      BodyLenAppend(a[1..], b, ab[1..]);
    }
  }

  lemma DropAppend(a: seq<Line>, b: seq<Line>, ab: seq<Line>, n: nat)
    requires ab == a + b && n <= |a|
    ensures ab[n..] == a[n..] + b
  {
  }

  lemma TakenLenAppend(a: seq<Line>, b: seq<Line>, ab: seq<Line>)
    requires StartsSection(b) && ab == a + b
    ensures TakenLen(ab) == TakenLen(a)
  {
    BodyLenAppend(a, b, ab);
    var n := BodyLen(a);
    if n == |a| && b != [] {
      assert ab[n] == b[0];
    }
  }

  lemma RemovedIfNamed(lines: seq<Line>, names: set<string>, n: nat)
    requires lines != [] && HeaderIn(lines[0], names) && n == 1 + TakenLen(lines[1..])
    ensures n <= |lines| && Removed(lines, names) == Removed(lines[n..], names)
  {
  }

  lemma RemovedIfKept(lines: seq<Line>, names: set<string>)
    requires lines != [] && !HeaderIn(lines[0], names)
    ensures Removed(lines, names) == [lines[0]] + Removed(lines[1..], names)
  {
  }

  lemma TakenPrefix(a: seq<Line>, b: seq<Line>, ab: seq<Line>, n: nat)
    requires a != [] && StartsSection(b) && ab == a + b && n == 1 + TakenLen(a[1..])
    ensures n == 1 + TakenLen(ab[1..])
  {
    DropAppend(a, b, ab, 1);
    TakenLenAppend(a[1..], b, ab[1..]);
  }

  lemma ConsAppend(x: Line, p: seq<Line>, q: seq<Line>)
    ensures [x] + (p + q) == [x] + p + q
  {
  }

  lemma {:induction false} RemovedAppendAs(a: seq<Line>, b: seq<Line>, ab: seq<Line>, names: set<string>)
    requires StartsSection(b) && ab == a + b
    ensures Removed(ab, names) == Removed(a, names) + Removed(b, names)
    decreases |a|, 1
  {
    if a == [] {
      assert ab == b;
    } else if HeaderIn(a[0], names) {
      RemovedAppendNamed(a, b, ab, names);
    } else {
      DropAppend(a, b, ab, 1);
      RemovedAppendAs(a[1..], b, ab[1..], names);
      RemovedIfKept(a, names);
      RemovedIfKept(ab, names);
      ConsAppend(a[0], Removed(a[1..], names), Removed(b, names));
    }
  }

  lemma {:induction false} RemovedAppendNamed(a: seq<Line>, b: seq<Line>, ab: seq<Line>, names: set<string>)
    requires StartsSection(b) && ab == a + b && a != [] && HeaderIn(a[0], names)
    ensures Removed(ab, names) == Removed(a, names) + Removed(b, names)
    decreases |a|, 0
  {
    var n := 1 + TakenLen(a[1..]);
    TakenPrefix(a, b, ab, n);
    RemovedIfNamed(a, names, n);
    RemovedIfNamed(ab, names, n);
    DropAppend(a, b, ab, n);
    RemovedAppendAs(a[n..], b, ab[n..], names);
  }

  lemma RemovedAppend(a: seq<Line>, b: seq<Line>, names: set<string>)
    requires StartsSection(b)
    ensures Removed(a + b, names) == Removed(a, names) + Removed(b, names)
  {
    RemovedAppendAs(a, b, a + b, names);
  }

  // ---------------------------------------------------------------- the ranges

  lemma {:induction false} OutsideSkip(lines: seq<Line>, rs: seq<Range>, from: nat, to: nat)
    requires from <= to <= |lines|
    requires forall i :: from <= i < to ==> InSome(i, rs)
    ensures Outside(lines, rs, from) == Outside(lines, rs, to)
    decreases |lines| - from
  {
    if from < to {
      OutsideSkip(lines, rs, from + 1, to);
    }
  }

  lemma InSomeTail(i: nat, rs: seq<Range>)
    requires rs != [] && rs[0].end <= i
    ensures InSome(i, rs) <==> InSome(i, rs[1..])
  {
    if InSome(i, rs) {
      var k :| 0 <= k < |rs| && rs[k].start <= i < rs[k].end;
      assert rs[1..][k - 1] == rs[k];
    }
    if InSome(i, rs[1..]) {
      var k :| 0 <= k < |rs[1..]| && rs[1..][k].start <= i < rs[1..][k].end;
      assert rs[k + 1] == rs[1..][k];
    }
  }

  /** From `from` on the ranges cover what the later ones cover. */
  ghost predicate CoverAlike(rs: seq<Range>, later: seq<Range>, from: nat, n: nat) {
    forall i :: from <= i < n ==> (InSome(i, rs) <==> InSome(i, later))
  }

  /** A range at `from` is covered throughout, and after it the rest covers alike. */
  lemma CoverNext(lines: seq<Line>, names: set<string>, rs: seq<Range>, from: nat, later: seq<Range>)
    requires from < |lines| && later == Ranges(lines, names, from) && later != [] && later[0].start == from
    requires CoverAlike(rs, later, from, |lines|)
    ensures from < later[0].end <= |lines|
    ensures forall i :: from <= i < later[0].end ==> InSome(i, rs)
    ensures CoverAlike(rs, later[1..], later[0].end, |lines|)
  {
    RangesSortedDisjoint(lines, names, from, later);
    assert Placed(later[0], lines, names, from);
    var end := later[0].end;
    forall i | from <= i < end
      ensures InSome(i, rs)
    {
      assert InSome(i, later);
    }
    forall i | end <= i < |lines|
      ensures InSome(i, rs) <==> InSome(i, later[1..])
    {
      InSomeTail(i, later);
    }
  }

  lemma NoneCovers(lines: seq<Line>, names: set<string>, from: nat, later: seq<Range>)
    requires from < |lines| && later == Ranges(lines, names, from + 1)
    ensures !InSome(from, later)
  {
    RangesSortedDisjoint(lines, names, from + 1, later);
    forall k | 0 <= k < |later|
      ensures later[k].start > from
    {
      assert Placed(later[k], lines, names, from + 1);
    }
  }

  lemma OutsideHere(lines: seq<Line>, rs: seq<Range>, from: nat)
    requires from < |lines| && !InSome(from, rs)
    ensures Outside(lines, rs, from) == [lines[from]] + Outside(lines, rs, from + 1)
  {
  }

  lemma {:induction false} RemovedFromIsOutside(lines: seq<Line>, names: set<string>, rs: seq<Range>, from: nat, later: seq<Range>)
    requires from <= |lines| && later == Ranges(lines, names, from)
    requires CoverAlike(rs, later, from, |lines|)
    ensures Removed(lines[from..], names) == Outside(lines, rs, from)
    decreases |lines| - from, 1
  {
    if from < |lines| {
      if later != [] && later[0].start == from {
        RemovedRangeIsOutside(lines, names, rs, from, later);
      } else {
        NoRangeHere(lines, names, from);
        NoneCovers(lines, names, from, later);
        assert !InSome(from, rs);
        RemovedFromIsOutside(lines, names, rs, from + 1, later);
        KeptFrom(lines, names, from);
        OutsideHere(lines, rs, from);
      }
    }
  }

  lemma RemovedRangeIsOutside(lines: seq<Line>, names: set<string>, rs: seq<Range>, from: nat, later: seq<Range>)
    requires from < |lines| && later == Ranges(lines, names, from) && later != [] && later[0].start == from
    requires CoverAlike(rs, later, from, |lines|)
    ensures Removed(lines[from..], names) == Outside(lines, rs, from)
    decreases |lines| - from, 0
  {
    NextRange(lines, names, from);
    CoverNext(lines, names, rs, from, later);
    RemovedFromIsOutside(lines, names, rs, later[0].end, later[1..]);
    KeptFrom(lines, names, from);
    OutsideSkip(lines, rs, from, later[0].end);
  }

  /** Taking the inserted block out of the result leaves exactly the lines no range covers,
      unchanged and in order. */
  lemma RehomedIsOutsidePlusBlock(lines: seq<Line>, block: seq<Line>, names: set<string>)
    ensures var outside := Outside(lines, Ranges(lines, names, 0), 0);
            var core := FirstHeader(outside, "core");
            && Rehomed(lines, block, names) == outside[..core] + block + outside[core..]
            && outside[..core] + outside[core..] == outside
  {
    var rs := Ranges(lines, names, 0);
    assert lines[0..] == lines;
    RemovedFromIsOutside(lines, names, rs, 0, rs);
  }

  // ---------------------------------------------------------------- insertion, as a reader sees it

  /** The position of the first section called `name`, or the number of sections. */
  function FirstSection(sections: seq<RepoSection>, name: string): (n: nat)
    ensures n <= |sections|
    ensures n < |sections| ==> sections[n].name == name
    ensures forall i :: 0 <= i < n ==> sections[i].name != name
  {
    if sections == [] || sections[0].name == name then 0 else 1 + FirstSection(sections[1..], name)
  }

  /** `declared` put right before the first section called `core`, or at the end. */
  function InsertedAboveCore(sections: seq<RepoSection>, declared: seq<RepoSection>): seq<RepoSection> {
    var n := FirstSection(sections, "core");
    sections[..n] + declared + sections[n..]
  }

  lemma {:induction false} DirectivesKeepName(s: RepoSection, ds: seq<Kind>)
    ensures WithDirectives(s, ds).name == s.name
    decreases ds
  {
    if ds != [] {
      DirectivesKeepName(WithDirective(s, ds[0]), ds[1..]);
    }
  }

  /** A section is read for every header but `[options]`. */
  lemma {:induction false} SectionNames(lines: seq<Line>, name: string)
    requires name != "options"
    ensures (exists s :: s in Sections(lines) && s.name == name)
       <==> (exists i :: 0 <= i < |lines| && lines[i].kind == Header(name))
  {
    if lines != [] {
      SectionNames(lines[1..], name);
      var h := lines[0].kind;
      if h.Header? {
        DirectivesKeepName(Empty(h.name), Directives(lines[1..]));
      }
      if exists i :: 0 <= i < |lines| && lines[i].kind == Header(name) {
        var i :| 0 <= i < |lines| && lines[i].kind == Header(name);
        if i > 0 {
          assert lines[1..][i - 1].kind == Header(name);
          var s :| s in Sections(lines[1..]) && s.name == name;
          assert s in Sections(lines);
        } else {
          assert Sections(lines)[0] in Sections(lines);
        }
      }
      if exists s :: s in Sections(lines) && s.name == name {
        var s :| s in Sections(lines) && s.name == name;
        if s in Sections(lines[1..]) {
          var i :| 0 <= i < |lines[1..]| && lines[1..][i].kind == Header(name);
          assert lines[i + 1].kind == Header(name);
        } else {
          assert lines[0].kind == Header(name);
        }
      }
    }
  }

  lemma SplitAtCore(kept: seq<Line>)
    ensures var core := FirstHeader(kept, "core");
            && Sections(kept) == Sections(kept[..core]) + Sections(kept[core..])
            && FirstSection(Sections(kept), "core") == |Sections(kept[..core])|
  {
    var core := FirstHeader(kept, "core");
    var a, b := kept[..core], kept[core..];
    assert kept == a + b;
    SectionsAppend(a, b);
    SectionNames(a, "core");
    var sections := Sections(kept);
    assert forall i :: 0 <= i < |Sections(a)| ==> sections[i] == Sections(a)[i] && sections[i] in Sections(a);
    if core < |kept| {
      DirectivesKeepName(Empty("core"), Directives(b[1..]));
      assert sections[|Sections(a)|] == Sections(b)[0];
    }
  }

  /** Parsing after re-homing is exact: the sections not named, in order, with those of the
      block right before the first `core`. */
  lemma RehomedParsesTo(lines: seq<Line>, block: seq<Line>, names: set<string>)
    requires StartsSection(block)
    ensures Sections(Rehomed(lines, block, names)) ==
            InsertedAboveCore(Without(Sections(lines), names), Sections(block))
  {
    var kept := Removed(lines, names);
    var core := FirstHeader(kept, "core");
    var a, b := kept[..core], kept[core..];
    RemovedParsesTo(lines, names);
    SplitAtCore(kept);
    SectionsOfThree(a, block, b);
    var sections := Sections(kept);
    assert sections[..|Sections(a)|] == Sections(a) && sections[|Sections(a)|..] == Sections(b);
  }

  lemma SectionsOfThree(a: seq<Line>, block: seq<Line>, b: seq<Line>)
    requires StartsSection(block) && StartsSection(b)
    ensures Sections(a + block + b) == Sections(a) + Sections(block) + Sections(b)
  {
    SectionsAppend(a, block);
    SectionsAppend(a + block, b);
  }

  predicate BelowCore(lines: seq<Line>, name: string) {
    FirstHeader(lines, "core") < FirstHeader(lines, name) < |lines|
  }

  /** `below_core`: one pass that notes the first header of each name. */
  method IsBelowCore(lines: seq<Line>, name: string) returns (below: bool)
    ensures below <==> BelowCore(lines, name)
  {
    var coreIndex, nameIndex := |lines|, |lines|;
    for i := 0 to |lines|
      invariant coreIndex == |lines| || (0 <= coreIndex < i && lines[coreIndex].kind == Header("core"))
      invariant nameIndex == |lines| || (0 <= nameIndex < i && lines[nameIndex].kind == Header(name))
      invariant forall j :: 0 <= j < i && j < coreIndex ==> lines[j].kind != Header("core")
      invariant forall j :: 0 <= j < i && j < nameIndex ==> lines[j].kind != Header(name)
    {
      if lines[i].kind == Header("core") && coreIndex == |lines| {
        coreIndex := i;
      }
      if lines[i].kind == Header(name) && nameIndex == |lines| {
        nameIndex := i;
      }
    }
    FirstHeaderIs(lines, "core", coreIndex);
    FirstHeaderIs(lines, name, nameIndex);
    below := coreIndex < |lines| && nameIndex < |lines| && nameIndex > coreIndex;
  }

  lemma FirstHeaderIs(lines: seq<Line>, name: string, n: nat)
    requires n <= |lines|
    requires n < |lines| ==> lines[n].kind == Header(name)
    requires forall i :: 0 <= i < n ==> lines[i].kind != Header(name)
    ensures FirstHeader(lines, name) == n
  {
  }

  /** A re-homed section is never below `[core]`, wherever it was before. */
  lemma RehomedNeverBelowCore(lines: seq<Line>, block: seq<Line>, names: set<string>, at: nat)
    requires at < |block| && IsHeader(block[at])
    requires forall i :: 0 <= i < |block| ==> block[i].kind != Header("core")
    ensures !BelowCore(Rehomed(lines, block, names), block[at].kind.name)
  {
    var kept := Removed(lines, names);
    var core := FirstHeader(kept, "core");
    var result := Rehomed(lines, block, names);
    assert result[core + at] == block[at];
    assert forall i :: 0 <= i < core ==> result[i] == kept[i];
    assert forall i :: core <= i < core + |block| ==> result[i] == block[i - core];
  }

  // ---------------------------------------------------------------- doing it twice

  /** Re-homing what was re-homed changes nothing: the block is found, removed and put back. */
  lemma {:induction false} RehomedTwice(lines: seq<Line>, block: seq<Line>, names: set<string>)
    requires StartsSection(block) && Removed(block, names) == []
    ensures Rehomed(Rehomed(lines, block, names), block, names) == Rehomed(lines, block, names)
  {
    var kept := Removed(lines, names);
    var core := FirstHeader(kept, "core");
    RemovedHasNone(lines, names);
    RehomedParts(kept[..core], block, kept[core..], names);
    assert kept[..core] + kept[core..] == kept;
  }

  lemma RehomedParts(a: seq<Line>, block: seq<Line>, b: seq<Line>, names: set<string>)
    requires StartsSection(block) && StartsSection(b) && Removed(block, names) == []
    requires forall i :: 0 <= i < |a| ==> !HeaderIn(a[i], names)
    requires forall i :: 0 <= i < |b| ==> !HeaderIn(b[i], names)
    ensures Removed(a + block + b, names) == a + b
  {
    RemovedNoop(a, names);
    RemovedNoop(b, names);
    RemovedOfThree(a, block, a + block, b, a + block + b, names);
    NothingBetween(a, b);
  }

  lemma NothingBetween(a: seq<Line>, b: seq<Line>)
    ensures a + [] + b == a + b
  {
  }

  lemma RemovedOfThree(a: seq<Line>, block: seq<Line>, x: seq<Line>, b: seq<Line>, all: seq<Line>, names: set<string>)
    requires StartsSection(block) && StartsSection(b)
    requires x == a + block && all == x + b
    ensures Removed(all, names) == Removed(a, names) + Removed(block, names) + Removed(b, names)
  {
    RemovedAppendAs(x, b, all, names);
    RemovedAppendAs(a, block, x, names);
  }

  /** A section with only directives and an optional blank line goes entirely. */
  lemma RemovedWholeSection(section: seq<Line>, names: set<string>)
    requires |section| > 0 && HeaderIn(section[0], names)
    requires forall i :: 0 < i < |section| - 1 ==> section[i].kind.Entry?
    requires |section| > 1 ==> section[|section| - 1].kind.Entry? || section[|section| - 1].kind.Blank?
    ensures Removed(section, names) == []
  {
    var rest := section[1..];
    assert forall i :: 0 <= i < |rest| ==> rest[i] == section[i + 1];
    AllHead(rest);
    var n := if rest != [] && rest[|rest| - 1].kind.Blank? then |rest| - 1 else |rest|;
    BodyLenIs(rest, n);
  }

  lemma {:induction false} AllHead(lines: seq<Line>)
    requires forall i :: 0 <= i < |lines| ==> !IsHeader(lines[i])
    ensures HeadLen(lines) == |lines|
  {
    if lines != [] {
      AllHead(lines[1..]);
    }
  }
}
