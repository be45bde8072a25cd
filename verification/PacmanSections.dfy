/** Sections of `pacman.conf`, over lines already classified. */
module PacmanSections {
  import opened Common
  import opened PacmanLines

  datatype RepoSection = RepoSection(name: string, sigLevel: Option<string>, servers: seq<string>,
                                     includeFile: Option<string>)

  predicate IsHeader(line: Line) {
    line.kind.Header?
  }

  predicate HeaderIn(line: Line, names: set<string>) {
    IsHeader(line) && line.kind.name in names
  }

  // ---------------------------------------------------------------- sections

  /** How many lines come before the first header. */
  function HeadLen(lines: seq<Line>): (n: nat)
    ensures n <= |lines|
    ensures forall i :: 0 <= i < n ==> !IsHeader(lines[i])
    ensures n < |lines| ==> IsHeader(lines[n])
  {
    if lines == [] || IsHeader(lines[0]) then 0 else 1 + HeadLen(lines[1..])
  }

  /** The length of a section's body, given the lines after its header: up to and including the
      last directive before the next header. */
  function BodyLen(lines: seq<Line>): (n: nat)
    ensures n <= HeadLen(lines)
    ensures n > 0 ==> lines[n - 1].kind.Entry?
    ensures forall i :: n <= i < HeadLen(lines) ==> !lines[i].kind.Entry?
  {
    if lines == [] || IsHeader(lines[0]) then 0
    else
      var n := BodyLen(lines[1..]);
      if n > 0 then n + 1 else if lines[0].kind.Entry? then 1 else 0
  }

  /** The directives before the first header, in order. */
  function Directives(lines: seq<Line>): seq<Kind> {
    if lines == [] || IsHeader(lines[0]) then []
    else (if lines[0].kind.Entry? then [lines[0].kind] else []) + Directives(lines[1..])
  }

  /** A section with one more directive: SigLevel and Include keep the last, servers add up. */
  function WithDirective(s: RepoSection, d: Kind): RepoSection {
    match d
    case Entry(SigLevel, v) => s.(sigLevel := Some(v))
    case Entry(Server, v) => s.(servers := s.servers + [v])
    case Entry(Include, v) => s.(includeFile := Some(v))
    case _ => s
  }

  function WithDirectives(s: RepoSection, ds: seq<Kind>): RepoSection
    decreases ds
  {
    if ds == [] then s else WithDirectives(WithDirective(s, ds[0]), ds[1..])
  }

  function Empty(name: string): RepoSection {
    RepoSection(name, None, [], None)
  }

  /** Every section but `[options]`, in file order. */
  function Sections(lines: seq<Line>): seq<RepoSection> {
    if lines == [] then []
    else if IsHeader(lines[0]) && lines[0].kind.name != "options" then
      [WithDirectives(Empty(lines[0].kind.name), Directives(lines[1..]))] + Sections(lines[1..])
    else Sections(lines[1..])
  }

  /** `_body_end`. */
  method BodyEnd(lines: seq<Line>, header: nat) returns (end: nat)
    requires header < |lines|
    ensures end == header + 1 + BodyLen(lines[header + 1..])
  {
    ghost var rest := lines[header + 1..];
    var boundary := |lines|;
    var index := header + 1;
    while index < |lines|
      invariant header + 1 <= index <= |lines|
      invariant forall i :: 0 <= i < index - header - 1 ==> !IsHeader(rest[i])
    {
      if IsHeader(lines[index]) {
        boundary := index;
        break;
      }
      index := index + 1;
    }
    assert boundary == header + 1 + HeadLen(rest);
    var lastKey := header;
    for i := header + 1 to boundary
      invariant header <= lastKey < i
      invariant lastKey > header ==> rest[lastKey - header - 1].kind.Entry?
      invariant forall j :: lastKey - header <= j < i - header - 1 ==> !rest[j].kind.Entry?
    {
      if lines[i].kind.Entry? {
        lastKey := i;
      }
    }
    BodyLenIs(rest, lastKey - header);
    end := lastKey + 1;
  }

  lemma BodyLenIs(lines: seq<Line>, n: nat)
    requires n <= HeadLen(lines)
    requires n > 0 ==> lines[n - 1].kind.Entry?
    requires forall i :: n <= i < HeadLen(lines) ==> !lines[i].kind.Entry?
    ensures BodyLen(lines) == n
  {
  }

  /** Reading no further than the body loses no directive. */
  lemma {:induction false} DirectivesOfBody(lines: seq<Line>)
    ensures Directives(lines) == Directives(lines[..BodyLen(lines)])
  {
    if lines == [] || IsHeader(lines[0]) {
    } else {
      DirectivesOfBody(lines[1..]);
      var n := BodyLen(lines);
      if n > 0 {
        assert lines[..n][1..] == lines[1..][..n - 1];
        if BodyLen(lines[1..]) == 0 {
          assert lines[1..][..0] == [];
        }
      } else {
        assert lines[1..][..0] == [] && lines[..0] == [];
      }
    }
  }

  lemma {:induction false} DirectivesSnoc(lines: seq<Line>, line: Line)
    requires forall i :: 0 <= i < |lines| ==> !IsHeader(lines[i])
    requires !IsHeader(line)
    ensures Directives(lines + [line]) ==
            Directives(lines) + (if line.kind.Entry? then [line.kind] else [])
  {
    if lines == [] {
      assert lines + [line] == [line];
      assert [line][1..] == [];
    } else {
      DirectivesSnoc(lines[1..], line);
      assert (lines + [line])[1..] == lines[1..] + [line];
    }
  }

  lemma {:induction false} WithDirectivesSnoc(s: RepoSection, ds: seq<Kind>, d: Kind)
    ensures WithDirectives(s, ds + [d]) == WithDirective(WithDirectives(s, ds), d)
    decreases ds
  {
    if ds == [] {
      assert ds + [d] == [d];
    } else {
      WithDirectivesSnoc(WithDirective(s, ds[0]), ds[1..], d);
      assert (ds + [d])[1..] == ds[1..] + [d];
    }
  }

  /** The inner loop of `parse_sections`: the directives of one body. */
  method ReadBody(name: string, body: seq<Line>) returns (s: RepoSection)
    requires forall i :: 0 <= i < |body| ==> !IsHeader(body[i])
    ensures s == WithDirectives(Empty(name), Directives(body))
  {
    s := Empty(name);
    for i := 0 to |body|
      invariant s == WithDirectives(Empty(name), Directives(body[..i]))
    {
      var kind := body[i].kind;
      DirectivesSnoc(body[..i], body[i]);
      assert body[..i + 1] == body[..i] + [body[i]];
      if kind.Entry? {
        WithDirectivesSnoc(Empty(name), Directives(body[..i]), kind);
        s := WithDirective(s, kind);
      } else {
        assert Directives(body[..i]) + [] == Directives(body[..i]);
      }
    }
    assert body[..|body|] == body;
  }

  /** `parse_sections`. */
  method ParseSections(lines: seq<Line>) returns (sections: seq<RepoSection>)
    ensures sections == Sections(lines)
  {
    sections := [];
    for i := 0 to |lines|
      invariant sections + Sections(lines[i..]) == Sections(lines)
    {
      assert lines[i..][0] == lines[i] && lines[i..][1..] == lines[i + 1..];
      if IsHeader(lines[i]) && lines[i].kind.name != "options" {
        var end := BodyEnd(lines, i);
        var rest := lines[i + 1..];
        assert lines[i + 1..end] == rest[..BodyLen(rest)];
        DirectivesOfBody(rest);
        var section := ReadBody(lines[i].kind.name, lines[i + 1..end]);
        sections := sections + [section];
      }
    }
  }

  // ---------------------------------------------------------------- removal

  /** How many lines go with a removed header, given the lines after it: the body, and one
      blank line if that comes next. */
  function TakenLen(rest: seq<Line>): (n: nat)
    ensures n <= |rest|
  {
    var n := BodyLen(rest);
    if n < |rest| && rest[n].kind.Blank? then n + 1 else n
  }

  /** The lines left after removing every section named in `names`. */
  function Removed(lines: seq<Line>, names: set<string>): seq<Line>
    decreases |lines|
  {
    if lines == [] then []
    else if HeaderIn(lines[0], names) then
      Removed(lines[1 + TakenLen(lines[1..])..], names)
    else [lines[0]] + Removed(lines[1..], names)
  }

  datatype Range = Range(start: nat, end: nat)

  /** The ranges `render` removes from position `from` on. */
  function Ranges(lines: seq<Line>, names: set<string>, from: nat): seq<Range>
    requires from <= |lines|
    decreases |lines| - from
  {
    if from == |lines| then []
    else if HeaderIn(lines[from], names) then
      [Range(from, from + 1 + TakenLen(lines[from + 1..]))] + Ranges(lines, names, from + 1)
    else Ranges(lines, names, from + 1)
  }

  /** No header hides inside a removed range. */
  lemma TakenHasNoHeader(rest: seq<Line>)
    ensures TakenLen(rest) <= HeadLen(rest)
  {
  }

  predicate Placed(r: Range, lines: seq<Line>, names: set<string>, from: nat) {
    from <= r.start < r.end <= |lines| && HeaderIn(lines[r.start], names)
  }

  /** The ranges lie one after the other, each starting at a removed header. */
  lemma {:induction false} RangesSortedDisjoint(lines: seq<Line>, names: set<string>, from: nat, rs: seq<Range>)
    requires from <= |lines| && rs == Ranges(lines, names, from)
    ensures forall i :: 0 <= i < |rs| ==> Placed(rs[i], lines, names, from)
    ensures forall i, j :: 0 <= i < j < |rs| ==> rs[i].end <= rs[j].start
    decreases |lines| - from
  {
    if from < |lines| {
      var later := Ranges(lines, names, from + 1);
      RangesSortedDisjoint(lines, names, from + 1, later);
      forall j | 0 <= j < |later|
        ensures Placed(later[j], lines, names, from)
        ensures from + 1 + TakenLen(lines[from + 1..]) <= later[j].start
      {
        assert Placed(later[j], lines, names, from + 1);
        NextHeaderPast(lines, from, later[j].start);
      }
    }
  }

  /** The next header comes after everything removed with this one. */
  lemma NextHeaderPast(lines: seq<Line>, from: nat, next: nat)
    requires from < next < |lines| && IsHeader(lines[next])
    ensures from + 1 + TakenLen(lines[from + 1..]) <= next
  {
    TakenHasNoHeader(lines[from + 1..]);
    assert lines[from + 1..][next - from - 1] == lines[next];
  }

  predicate InSome(i: nat, rs: seq<Range>) {
    exists k :: 0 <= k < |rs| && rs[k].start <= i < rs[k].end
  }

  /** The lines from `from` on that no range covers. */
  function Outside(lines: seq<Line>, rs: seq<Range>, from: nat): seq<Line>
    requires from <= |lines|
    decreases |lines| - from
  {
    if from == |lines| then []
    else (if InSome(from, rs) then [] else [lines[from]]) + Outside(lines, rs, from + 1)
  }

  /** The first header called `name`, or `|lines|`. */
  function FirstHeader(lines: seq<Line>, name: string): (n: nat)
    ensures n <= |lines|
    ensures n < |lines| ==> lines[n].kind == Header(name)
    ensures forall i :: 0 <= i < n ==> lines[i].kind != Header(name)
  {
    if lines == [] || lines[0].kind == Header(name) then 0 else 1 + FirstHeader(lines[1..], name)
  }

  /** The lines left, with `block` right above the first `[core]` (or at the end). */
  function Rehomed(lines: seq<Line>, block: seq<Line>, names: set<string>): seq<Line> {
    var kept := Removed(lines, names);
    var core := FirstHeader(kept, "core");
    kept[..core] + block + kept[core..]
  }

  lemma KeptFrom(lines: seq<Line>, names: set<string>, i: nat)
    requires i < |lines|
    ensures Removed(lines[i..], names) ==
            if HeaderIn(lines[i], names) then Removed(lines[i + 1 + TakenLen(lines[i + 1..])..], names)
            else [lines[i]] + Removed(lines[i + 1..], names)
  {
    var tail := lines[i..];
    assert tail[0] == lines[i];
    assert tail[1..] == lines[i + 1..];
    assert tail[1 + TakenLen(tail[1..])..] == lines[i + 1 + TakenLen(lines[i + 1..])..];
  }

  lemma {:induction false} RangesSkip(lines: seq<Line>, names: set<string>, from: nat, to: nat)
    requires from <= to <= |lines|
    requires forall i :: from <= i < to ==> !IsHeader(lines[i])
    ensures Ranges(lines, names, from) == Ranges(lines, names, to)
    decreases |lines| - from
  {
    if from < to {
      RangesSkip(lines, names, from + 1, to);
    }
  }

  lemma RangesHere(lines: seq<Line>, names: set<string>, i: nat)
    requires i < |lines|
    ensures Ranges(lines, names, i) ==
            (if HeaderIn(lines[i], names) then [Range(i, i + 1 + TakenLen(lines[i + 1..]))] else []) + Ranges(lines, names, i + 1)
  {
  }

  /** Where a removed section ends. */
  method RangeEnd(lines: seq<Line>, header: nat) returns (end: nat)
    requires header < |lines|
    ensures end == header + 1 + TakenLen(lines[header + 1..])
  {
    end := BodyEnd(lines, header);
    assert end < |lines| ==> lines[header + 1..][end - header - 1] == lines[end];
    if end < |lines| && lines[end].kind.Blank? {
      end := end + 1;
    }
  }

  /** The ranges of the headers to remove. */
  method FindRanges(lines: seq<Line>, names: set<string>) returns (ranges: seq<Range>)
    ensures ranges == Ranges(lines, names, 0)
  {
    ranges := [];
    for i := 0 to |lines|
      invariant ranges + Ranges(lines, names, i) == Ranges(lines, names, 0)
    {
      RangesHere(lines, names, i);
      if HeaderIn(lines[i], names) {
        var end := RangeEnd(lines, i);
        ranges := ranges + [Range(i, end)];
      }
    }
  }

  /** The ranges not yet passed, and the lines kept so far, when the pass is at `index`. */
  ghost predicate Passing(lines: seq<Line>, names: set<string>, later: seq<Range>, index: nat, kept: seq<Line>) {
    && index <= |lines|
    && later == Ranges(lines, names, index)
    && kept + Removed(lines[index..], names) == Removed(lines, names)
  }

  lemma PassRange(lines: seq<Line>, names: set<string>, later: seq<Range>, index: nat, kept: seq<Line>)
    requires Passing(lines, names, later, index, kept) && index < |lines| && later != [] && later[0].start == index
    ensures Passing(lines, names, later[1..], later[0].end, kept) && later[0].end > index
  {
    NextRange(lines, names, index);
    KeptFrom(lines, names, index);
  }

  lemma PassLine(lines: seq<Line>, names: set<string>, later: seq<Range>, index: nat, kept: seq<Line>)
    requires Passing(lines, names, later, index, kept) && index < |lines| && (later == [] || later[0].start != index)
    ensures Passing(lines, names, later, index + 1, kept + [lines[index]])
  {
    NoRangeHere(lines, names, index);
    KeptFrom(lines, names, index);
    var rest := Removed(lines[index + 1..], names);
    assert kept + ([lines[index]] + rest) == kept + [lines[index]] + rest;
  }

  /** The lines outside the ranges, by one pass over both. */
  method KeepOutside(lines: seq<Line>, names: set<string>, ranges: seq<Range>)
    returns (kept: seq<Line>)
    requires ranges == Ranges(lines, names, 0)
    ensures kept == Removed(lines, names)
  {
    kept := [];
    var index, r := 0, 0;
    assert lines[0..] == lines;
    while index < |lines|
      invariant 0 <= index <= |lines| && 0 <= r <= |ranges|
      invariant Passing(lines, names, ranges[r..], index, kept)
    {
      if r < |ranges| && index == ranges[r].start {
        PassRange(lines, names, ranges[r..], index, kept);
        assert ranges[r + 1..] == ranges[r..][1..];
        index := ranges[r].end;
        r := r + 1;
      } else {
        PassLine(lines, names, ranges[r..], index, kept);
        kept := kept + [lines[index]];
        index := index + 1;
      }
    }
    assert Removed(lines[|lines|..], names) == [];
  }

  lemma NextRange(lines: seq<Line>, names: set<string>, i: nat)
    requires i < |lines|
    requires Ranges(lines, names, i) != [] && Ranges(lines, names, i)[0].start == i
    ensures HeaderIn(lines[i], names)
    ensures Ranges(lines, names, i)[0].end == i + 1 + TakenLen(lines[i + 1..])
    ensures Ranges(lines, names, i)[1..] == Ranges(lines, names, i + 1 + TakenLen(lines[i + 1..]))
  {
    RangesSortedDisjoint(lines, names, i + 1, Ranges(lines, names, i + 1));
    var rest := lines[i + 1..];
    TakenHasNoHeader(rest);
    forall j | i + 1 <= j < i + 1 + TakenLen(rest)
      ensures !IsHeader(lines[j])
    {
      assert lines[j] == rest[j - i - 1];
    }
    RangesSkip(lines, names, i + 1, i + 1 + TakenLen(rest));
  }

  lemma NoRangeHere(lines: seq<Line>, names: set<string>, i: nat)
    requires i < |lines|
    requires Ranges(lines, names, i) == [] || Ranges(lines, names, i)[0].start != i
    ensures !HeaderIn(lines[i], names)
    ensures Ranges(lines, names, i) == Ranges(lines, names, i + 1)
  {
  }

  /** The middle of `render`: remove, then insert. */
  method Rehome(lines: seq<Line>, block: seq<Line>, names: set<string>) returns (result: seq<Line>)
    ensures result == Rehomed(lines, block, names)
  {
    var ranges := FindRanges(lines, names);
    var kept := KeepOutside(lines, names, ranges);
    var core := FirstHeader(kept, "core");
    result := if core == |kept| then kept + block else kept[..core] + block + kept[core..];
  }
}
