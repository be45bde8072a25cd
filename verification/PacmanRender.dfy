/** `parse_sections` and `render` on the text of `pacman.conf`. */
module PacmanRender {
  import opened Common
  import opened Text
  import opened PacmanLines
  import opened PacmanSections
  import opened PacmanTheorems
  import opened PacmanBlocks

  datatype Result = Ok(text: string) | Duplicate(name: string)

  predicate EndsLine(text: string) {
    text != "" && text[|text| - 1] == '\n'
  }

  /** The lines `render` works on: a final newline does not make an empty last line. */
  function Body(text: string): seq<string> {
    var lines := Split(text, '\n');
    if EndsLine(text) then lines[..|lines| - 1] else lines
  }

  function Names(sections: seq<RepoSection>): (names: set<string>)
    ensures forall i :: 0 <= i < |sections| ==> sections[i].name in names
    ensures forall n :: n in names ==> exists i :: 0 <= i < |sections| && sections[i].name == n
  {
    set s | s in sections :: s.name
  }

  predicate Distinct(declared: seq<RepoSection>) {
    forall i, j :: 0 <= i < j < |declared| ==> declared[i].name != declared[j].name
  }

  function RenderedLines(text: string, declared: seq<RepoSection>, remove: set<string>): seq<Line> {
    Rehomed(ReadLines(Body(text)), ReadLines(Blocks(declared)), Names(declared) + remove)
  }

  function Rendered(text: string, declared: seq<RepoSection>, remove: set<string>): string {
    Join(Texts(RenderedLines(text, declared, remove)), "\n") + (if EndsLine(text) then "\n" else "")
  }

  function Parsed(text: string): seq<RepoSection> {
    Sections(ReadLines(Split(text, '\n')))
  }

  /** `parse_sections`. */
  method Parse(text: string) returns (sections: seq<RepoSection>)
    ensures sections == Parsed(text)
  {
    sections := ParseSections(ReadLines(Split(text, '\n')));
  }

  /** The first loop of `render`: a name declared twice, if there is one. */
  method FindDuplicate(declared: seq<RepoSection>) returns (dup: Option<string>)
    ensures dup.None? <==> Distinct(declared)
    ensures dup.Some? ==> dup.value in Names(declared)
  {
    var seen: set<string> := {};
    for i := 0 to |declared|
      invariant forall n :: n in seen <==> exists j :: 0 <= j < i && declared[j].name == n
      invariant forall j, k :: 0 <= j < k < i ==> declared[j].name != declared[k].name
    {
      if declared[i].name in seen {
        return Some(declared[i].name);
      }
      seen := seen + {declared[i].name};
    }
    return None;
  }

  lemma BlocksStep(declared: seq<RepoSection>, i: nat)
    requires i < |declared|
    ensures Blocks(declared[i..]) == Block(declared[i]) + Blocks(declared[i + 1..])
  {
    assert declared[i..][1..] == declared[i + 1..];
  }

  /** The second loop: the lines of all blocks. */
  method RenderBlocks(declared: seq<RepoSection>) returns (lines: seq<string>)
    ensures lines == Blocks(declared)
  {
    lines := [];
    for i := 0 to |declared|
      invariant lines + Blocks(declared[i..]) == Blocks(declared)
    {
      var block := RenderBlock(declared[i]);
      BlocksStep(declared, i);
      lines := lines + block;
    }
    assert lines + [] == lines;
  }

  /** `render`. */
  method Render(text: string, declared: seq<RepoSection>, remove: set<string>) returns (result: Result)
    ensures result.Duplicate? <==> !Distinct(declared)
    ensures result.Duplicate? ==> result.name in Names(declared)
    ensures result.Ok? ==> result.text == Rendered(text, declared, remove)
  {
    var dup := FindDuplicate(declared);
    if dup.Some? {
      return Duplicate(dup.value);
    }
    var block := RenderBlocks(declared);
    var lines := Rehome(ReadLines(Body(text)), ReadLines(block), Names(declared) + remove);
    return Ok(Join(Texts(lines), "\n") + (if EndsLine(text) then "\n" else ""));
  }

  // ---------------------------------------------------------------- lines and text

  /** The line says what its text classifies to, and holds no line break. */
  predicate Faithful(line: Line) {
    line.kind == Classify(line.text) && '\n' !in line.text
  }

  predicate AllFaithful(lines: seq<Line>) {
    forall i :: 0 <= i < |lines| ==> Faithful(lines[i])
  }

  lemma ReadTexts(lines: seq<Line>)
    requires AllFaithful(lines)
    ensures ReadLines(Texts(lines)) == lines
    ensures forall i :: 0 <= i < |Texts(lines)| ==> '\n' !in Texts(lines)[i]
  {
    assert forall i :: 0 <= i < |lines| ==> lines[i] == Line(lines[i].text, lines[i].kind);
  }

  lemma {:induction false} RemovedFaithful(lines: seq<Line>, names: set<string>)
    requires AllFaithful(lines)
    ensures AllFaithful(Removed(lines, names))
    decreases |lines|
  {
    if lines != [] {
      if HeaderIn(lines[0], names) {
        RemovedFaithful(lines[1 + TakenLen(lines[1..])..], names);
      } else {
        RemovedFaithful(lines[1..], names);
      }
    }
  }

  predicate OneLine(s: RepoSection) {
    && '\n' !in s.name
    && (s.sigLevel.Some? ==> '\n' !in s.sigLevel.value)
    && (s.includeFile.Some? ==> '\n' !in s.includeFile.value)
    && (forall i :: 0 <= i < |s.servers| ==> '\n' !in s.servers[i])
  }

  lemma {:induction false} ServersOneLine(servers: seq<string>)
    requires forall i :: 0 <= i < |servers| ==> '\n' !in servers[i]
    ensures forall i :: 0 <= i < |ServerLines(servers)| ==> '\n' !in ServerLines(servers)[i]
  {
    if servers != [] {
      ServersOneLine(servers[1..]);
    }
  }

  lemma {:induction false} BlocksOneLine(declared: seq<RepoSection>)
    requires forall i :: 0 <= i < |declared| ==> OneLine(declared[i])
    ensures forall i :: 0 <= i < |Blocks(declared)| ==> '\n' !in Blocks(declared)[i]
  {
    if declared != [] {
      ServersOneLine(declared[0].servers);
      BlocksOneLine(declared[1..]);
    }
  }

  lemma RenderedFaithful(text: string, declared: seq<RepoSection>, remove: set<string>)
    requires forall i :: 0 <= i < |declared| ==> OneLine(declared[i])
    ensures AllFaithful(RenderedLines(text, declared, remove))
  {
    var lines, block := ReadLines(Body(text)), ReadLines(Blocks(declared));
    BlocksOneLine(declared);
    assert AllFaithful(lines) && AllFaithful(block);
    RemovedFaithful(lines, Names(declared) + remove);
  }

  /** A text ends a line exactly when its last piece is empty (the empty text aside). */
  lemma {:induction false} LastPiece(text: string)
    requires text != ""
    ensures var p := Split(text, '\n'); EndsLine(text) <==> p[|p| - 1] == ""
  {
    if |text| > 1 {
      LastPiece(text[1..]);
      var p := Split(text[1..], '\n');
      if text[0] != '\n' && |p| == 1 {
        assert Split(text, '\n')[0] == [text[0]] + p[0];
        NoBreak(text[1..]);
      }
    } else {
      assert text[1..] == "";
    }
  }

  lemma {:induction false} NoBreak(text: string)
    requires |Split(text, '\n')| == 1
    ensures '\n' !in text
  {
    JoinOfSplit(text, '\n');
  }

  lemma {:induction false} DirectivesSnocBlank(lines: seq<Line>, line: Line, all: seq<Line>)
    requires line.kind.Blank? && all == lines + [line]
    ensures Directives(all) == Directives(lines)
    decreases |lines|
  {
    if lines == [] {
      assert all[1..] == [];
    } else {
      DirectivesSnocBlank(lines[1..], line, all[1..]);
    }
  }

  lemma {:induction false} SnocBlank(lines: seq<Line>, line: Line, all: seq<Line>)
    requires line.kind.Blank? && all == lines + [line]
    ensures Sections(all) == Sections(lines)
    decreases |lines|
  {
    if lines == [] {
      assert all[1..] == [];
    } else {
      SnocBlank(lines[1..], line, all[1..]);
      DirectivesSnocBlank(lines[1..], line, all[1..]);
    }
  }

  lemma ReadSnocBlank(body: seq<string>, all: seq<string>)
    requires all == body + [""]
    ensures ReadLines(all) == ReadLines(body) + [Line("", Blank)]
  {
  }

  lemma BlankLast(body: seq<string>, all: seq<string>)
    requires all == body + [""]
    ensures Sections(ReadLines(all)) == Sections(ReadLines(body))
  {
    ReadSnocBlank(body, all);
    SnocBlank(ReadLines(body), Line("", Blank), ReadLines(all));
  }

  lemma {:induction false} BodyAndBlank(text: string)
    requires EndsLine(text)
    ensures Split(text, '\n') == Body(text) + [""]
  {
    LastPiece(text);
  }

  /** The final newline makes no difference to what is parsed. */
  lemma ParsedBody(text: string)
    ensures Parsed(text) == Sections(ReadLines(Body(text)))
  {
    if EndsLine(text) {
      BodyAndBlank(text);
      BlankLast(Body(text), Split(text, '\n'));
    }
  }

  /** The lines read back from a text joined from `pieces`. */
  lemma {:induction false} SplitJoined(pieces: seq<string>, newline: bool)
    requires pieces != [] && forall i :: 0 <= i < |pieces| ==> '\n' !in pieces[i]
    ensures Split(Join(pieces, "\n") + (if newline then "\n" else ""), '\n') ==
            if newline then pieces + [""] else pieces
  {
    if newline {
      JoinAppend(pieces, [""], "\n");
      assert Join(pieces, "\n") + "\n" + "" == Join(pieces, "\n") + "\n";
      SplitOfJoin(pieces + [""], '\n');
    } else {
      assert Join(pieces, "\n") + "" == Join(pieces, "\n");
      SplitOfJoin(pieces, '\n');
    }
  }

  // ---------------------------------------------------------------- what a reader sees

  predicate Declarable(s: RepoSection) {
    ValidName(s.name) && s.name != "options" && s.name != "core" && OneLine(s)
  }

  /** Parsing after rendering is exact: the file's sections without those removed, and what the
      declared ones say right before the first `[core]`. */
  lemma {:induction false} ParseAfterRender(text: string, declared: seq<RepoSection>, remove: set<string>)
    requires forall i :: 0 <= i < |declared| ==> Declarable(declared[i])
    ensures Parsed(Rendered(text, declared, remove)) ==
            InsertedAboveCore(Without(Parsed(text), Names(declared) + remove), AllEffective(declared))
  {
    var lines := RenderedLines(text, declared, remove);
    RenderedFaithful(text, declared, remove);
    ReadTexts(lines);
    ParsedBody(text);
    BlocksStart(declared);
    BlocksParseTo(declared);
    RehomedParsesTo(ReadLines(Body(text)), ReadLines(Blocks(declared)), Names(declared) + remove);
    ParsedOfJoined(lines, EndsLine(text));
  }

  /** The declared sections themselves are read back exactly when each is well formed. */
  lemma ReadBackIff(text: string, declared: seq<RepoSection>, remove: set<string>)
    requires forall i :: 0 <= i < |declared| ==> Declarable(declared[i])
    ensures Parsed(Rendered(text, declared, remove)) ==
            InsertedAboveCore(Without(Parsed(text), Names(declared) + remove), declared)
       <==> forall i :: 0 <= i < |declared| ==> WellFormed(declared[i])
  {
    ParseAfterRender(text, declared, remove);
    AllEffectiveIff(declared);
    InsertedSame(Without(Parsed(text), Names(declared) + remove), AllEffective(declared), declared);
  }

  lemma InsertedSame(sections: seq<RepoSection>, a: seq<RepoSection>, b: seq<RepoSection>)
    requires |a| == |b|
    ensures InsertedAboveCore(sections, a) == InsertedAboveCore(sections, b) <==> a == b
  {
    var n := FirstSection(sections, "core");
    assert InsertedAboveCore(sections, a)[n..n + |a|] == a;
    assert InsertedAboveCore(sections, b)[n..n + |b|] == b;
  }

  lemma ParsedOfJoined(lines: seq<Line>, newline: bool)
    requires AllFaithful(lines)
    ensures Parsed(Join(Texts(lines), "\n") + (if newline then "\n" else "")) == Sections(lines)
  {
    ReadTexts(lines);
    if lines == [] {
      assert Texts(lines) == [];
      var text := Join(Texts(lines), "\n") + (if newline then "\n" else "");
      assert text == if newline then "\n" else "";
      assert Split("", '\n') == [""];
      assert Split("\n", '\n') == [""] + Split("", '\n');
      NoHeadersNoSections(ReadLines(Split(text, '\n')));
    } else {
      SplitJoined(Texts(lines), newline);
      if newline {
        BlankLast(Texts(lines), Texts(lines) + [""]);
      }
    }
  }

  lemma {:induction false} BlocksCoreless(declared: seq<RepoSection>)
    requires forall i :: 0 <= i < |declared| ==> Declarable(declared[i])
    ensures Coreless(ReadLines(Blocks(declared)))
  {
    var texts := Blocks(declared);
    forall k | 0 <= k < |texts|
      ensures Classify(texts[k]) != Header("core")
    {
      if Classify(texts[k]).Header? {
        HeaderDeclared(declared, k);
      }
    }
  }

  lemma LinesNeverBelowCore(text: string, declared: seq<RepoSection>, remove: set<string>, i: nat)
    requires forall i :: 0 <= i < |declared| ==> Declarable(declared[i])
    requires i < |declared|
    ensures RenderedLines(text, declared, remove) != []
    ensures !BelowCore(RenderedLines(text, declared, remove), declared[i].name)
  {
    var block := ReadLines(Blocks(declared));
    BlocksCoreless(declared);
    var at := HeaderPresent(declared, i);
    RehomedNeverBelowCore(ReadLines(Body(text)), block, Names(declared) + remove, at);
  }

  /** After rendering, no declared repository is below `[core]`. */
  lemma NeverBelowCore(text: string, declared: seq<RepoSection>, remove: set<string>, i: nat)
    requires forall i :: 0 <= i < |declared| ==> Declarable(declared[i])
    requires i < |declared|
    ensures !BelowCore(ReadLines(Split(Rendered(text, declared, remove), '\n')), declared[i].name)
  {
    RenderedFaithful(text, declared, remove);
    LinesNeverBelowCore(text, declared, remove, i);
    JoinedBelowCore(RenderedLines(text, declared, remove), EndsLine(text), declared[i].name);
  }

  lemma JoinedBelowCore(lines: seq<Line>, newline: bool, name: string)
    requires AllFaithful(lines) && lines != []
    ensures BelowCore(ReadLines(Split(Join(Texts(lines), "\n") + (if newline then "\n" else ""), '\n')), name)
       <==> BelowCore(lines, name)
  {
    ReadTexts(lines);
    SplitJoined(Texts(lines), newline);
    if newline {
      ReadSnocBlank(Texts(lines), Texts(lines) + [""]);
      BelowCoreSnoc(lines, Line("", Blank), name);
    }
  }

  lemma BelowCoreSnoc(lines: seq<Line>, line: Line, name: string)
    requires line.kind.Blank?
    ensures BelowCore(lines + [line], name) <==> BelowCore(lines, name)
  {
    FirstHeaderSnoc(lines, line, "core");
    FirstHeaderSnoc(lines, line, name);
  }

  lemma FirstHeaderSnoc(lines: seq<Line>, line: Line, name: string)
    requires line.kind.Blank?
    ensures FirstHeader(lines + [line], name) ==
            if FirstHeader(lines, name) < |lines| then FirstHeader(lines, name) else |lines| + 1
  {
    var n := if FirstHeader(lines, name) < |lines| then FirstHeader(lines, name) else |lines| + 1;
    FirstHeaderIs(lines + [line], name, n);
  }

  // ---------------------------------------------------------------- rendering twice

  /** What `render` works on when it is given joined lines. */
  lemma BodyOfJoined(pieces: seq<string>, newline: bool)
    requires forall i :: 0 <= i < |pieces| ==> '\n' !in pieces[i]
    ensures var text := Join(pieces, "\n") + (if newline then "\n" else "");
            var cut := !newline && |pieces| > 1 && pieces[|pieces| - 1] == "";
            && (EndsLine(text) <==> newline || cut)
            && Body(text) == (if pieces == [] then [""] else if cut then pieces[..|pieces| - 1] else pieces)
  {
    var text := Join(pieces, "\n") + (if newline then "\n" else "");
    if pieces == [] {
      assert text == if newline then "\n" else "";
      assert Split("", '\n') == [""];
      assert Split("\n", '\n') == [""] + Split("", '\n');
    } else {
      SplitJoined(pieces, newline);
      if text != "" {
        LastPiece(text);
      }
    }
  }

  predicate KeepsCore(text: string, declared: seq<RepoSection>, remove: set<string>) {
    var kept := Removed(ReadLines(Body(text)), Names(declared) + remove);
    FirstHeader(kept, "core") < |kept|
  }

  /** A block in front of `[core]` is found and put back, whatever follows. */
  lemma RehomedAgain(a: seq<Line>, old_: seq<Line>, block: seq<Line>, b: seq<Line>, names: set<string>)
    requires StartsSection(old_) && Removed(old_, names) == []
    requires b == [] || b[0].kind == Header("core")
    requires Clear(a, names) && Clear(b, names) && Coreless(a)
    ensures Rehomed(a + old_ + b, block, names) == a + block + b
  {
    RehomedParts(a, old_, b, names);
    FirstHeaderIs(a + b, "core", |a|);
    assert (a + b)[..|a|] == a && (a + b)[|a|..] == b;
  }

  predicate Clear(lines: seq<Line>, names: set<string>) {
    forall i :: 0 <= i < |lines| ==> !HeaderIn(lines[i], names)
  }

  predicate Coreless(lines: seq<Line>) {
    forall i :: 0 <= i < |lines| ==> lines[i].kind != Header("core")
  }

  lemma KeptParts(lines: seq<Line>, names: set<string>, a: seq<Line>, b: seq<Line>)
    requires var kept := Removed(lines, names); var core := FirstHeader(kept, "core");
             a == kept[..core] && b == kept[core..]
    ensures Clear(a, names) && Clear(b, names) && Coreless(a)
    ensures b == [] || b[0].kind == Header("core")
    ensures b != [] <==> FirstHeader(Removed(lines, names), "core") < |Removed(lines, names)|
  {
    RemovedHasNone(lines, names);
  }

  lemma CutInTail(a: seq<Line>, block: seq<Line>, b: seq<Line>, names: set<string>, r: seq<Line>)
    requires r == a + block + b && r != [] && r[|r| - 1].kind.Blank?
    requires StartsSection(block) && Removed(block, names) == []
    requires b != [] && b[0].kind == Header("core")
    requires Clear(a, names) && Clear(b, names) && Coreless(a)
    ensures Rehomed(r[..|r| - 1], block, names) == r[..|r| - 1]
  {
    assert r[|r| - 1] == b[|b| - 1];
    assert r[..|r| - 1] == a + block + b[..|b| - 1];
    RehomedAgain(a, block, block, b[..|b| - 1], names);
  }

  lemma CutNothing(a: seq<Line>, names: set<string>)
    requires a != [] && Clear(a, names) && Coreless(a)
    ensures Rehomed(a[..|a| - 1], [], names) == a[..|a| - 1]
  {
    var c := a[..|a| - 1];
    RehomedAgain(c, [], [], [], names);
    assert c + [] + [] == c;
  }

  lemma CutInBlock(a: seq<Line>, block: seq<Line>, names: set<string>, r: seq<Line>)
    requires |block| > 1 && IsHeader(block[0]) && Removed(block[..|block| - 1], names) == []
    requires Clear(a, names) && Coreless(a) && r == a + block
    ensures Rehomed(r[..|r| - 1], block, names) == r
  {
    var cutBlock := block[..|block| - 1];
    RehomedAgain(a, cutBlock, block, [], names);
    assert r[..|r| - 1] == a + cutBlock + [];
    assert a + block + [] == r;
  }

  lemma CutRead(cut: seq<string>, block: seq<Line>)
    requires block == ReadLines(cut + [""])
    ensures ReadLines(cut) == block[..|block| - 1]
  {
  }

  /** Rendering what a first rendering left when its last, empty line was taken for a final
      newline. */
  lemma {:induction false} RehomedCut(a: seq<Line>, block: seq<Line>, b: seq<Line>, declared: seq<RepoSection>, names: set<string>, r: seq<Line>)
    requires forall i :: 0 <= i < |declared| ==> ValidName(declared[i].name) && declared[i].name in names
    requires block == ReadLines(Blocks(declared)) && r == a + block + b
    requires Clear(a, names) && Clear(b, names) && Coreless(a) && (b == [] || b[0].kind == Header("core"))
    requires |r| > 1 && r[|r| - 1].kind.Blank?
    ensures Rehomed(r[..|r| - 1], block, names) == if b != [] || declared == [] then r[..|r| - 1] else r
  {
    BlocksStart(declared);
    if b != [] {
      BlocksRemoved(declared, names);
      CutInTail(a, block, b, names, r);
    } else if declared == [] {
      assert r == a;
      CutNothing(a, names);
    } else {
      CutBlocksRemoved(declared, names);
      CutBlocksIs(declared);
      CutRead(CutBlocks(declared), block);
      assert r == a + block;
      CutInBlock(a, block, names, r);
    }
  }

  /** The inserted text is never removable text of another kind: a first rendering that ends in
      an inserted block ends in its blank line. */
  lemma EndsInBlank(text: string, declared: seq<RepoSection>, remove: set<string>)
    requires forall i :: 0 <= i < |declared| ==> Declarable(declared[i])
    requires declared != [] && !KeepsCore(text, declared, remove)
    ensures var r := RenderedLines(text, declared, remove); |r| > 1 && r[|r| - 1] == Line("", Blank)
  {
    var block := ReadLines(Blocks(declared));
    BlocksStart(declared);
    CutBlocksIs(declared);
    var kept := Removed(ReadLines(Body(text)), Names(declared) + remove);
    assert kept[FirstHeader(kept, "core")..] == [];
    assert block[|block| - 1] == Line("", Classify(""));
  }

  /** `render` is idempotent exactly when the text ends with a newline, keeps its `[core]`, or
      nothing is declared: otherwise the blank line after the last block turns into a newline. */
  lemma RenderIdempotentIff(text: string, declared: seq<RepoSection>, remove: set<string>)
    requires forall i :: 0 <= i < |declared| ==> Declarable(declared[i])
    ensures Rendered(Rendered(text, declared, remove), declared, remove) == Rendered(text, declared, remove)
       <==> EndsLine(text) || KeepsCore(text, declared, remove) || declared == []
  {
    var r := RenderedLines(text, declared, remove);
    RenderedFaithful(text, declared, remove);
    ReadTexts(r);
    if r == [] {
      EmptyRendering(text, declared, remove);
    } else if !EndsLine(text) && |r| > 1 && r[|r| - 1].text == "" {
      CutRendering(text, declared, remove);
    } else {
      if declared != [] && !KeepsCore(text, declared, remove) {
        EndsInBlank(text, declared, remove);
      }
      WholeRendering(text, declared, remove);
    }
  }

  /** The second rendering reads the very lines the first one wrote. */
  lemma WholeRendering(text: string, declared: seq<RepoSection>, remove: set<string>)
    requires forall i :: 0 <= i < |declared| ==> Declarable(declared[i])
    requires var r := RenderedLines(text, declared, remove);
             r != [] && (EndsLine(text) || |r| == 1 || r[|r| - 1].text != "")
    ensures Rendered(Rendered(text, declared, remove), declared, remove) == Rendered(text, declared, remove)
  {
    var names := Names(declared) + remove;
    var r := RenderedLines(text, declared, remove);
    RenderedFaithful(text, declared, remove);
    ReadTexts(r);
    BodyOfJoined(Texts(r), EndsLine(text));
    BlocksStart(declared);
    BlocksRemoved(declared, names);
    RehomedTwice(ReadLines(Body(text)), ReadLines(Blocks(declared)), names);
  }

  /** A text whose last line is empty is taken for one that ends with a newline. */
  lemma CutText(lines: seq<Line>)
    requires AllFaithful(lines) && |lines| > 1 && lines[|lines| - 1].text == ""
    ensures var once := Join(Texts(lines), "\n") + "";
            EndsLine(once) && ReadLines(Body(once)) == lines[..|lines| - 1]
    ensures lines[|lines| - 1] == Line("", Blank)
  {
    var cut := lines[..|lines| - 1];
    BodyOfJoined(Texts(lines), false);
    ReadTexts(lines);
    ReadTexts(cut);
    assert Texts(lines)[..|lines| - 1] == Texts(cut);
  }

  /** The second rendering takes the last, empty line for a final newline. */
  lemma CutRendering(text: string, declared: seq<RepoSection>, remove: set<string>)
    requires forall i :: 0 <= i < |declared| ==> Declarable(declared[i])
    requires var r := RenderedLines(text, declared, remove);
             !EndsLine(text) && |r| > 1 && r[|r| - 1].text == ""
    ensures Rendered(Rendered(text, declared, remove), declared, remove) == Rendered(text, declared, remove)
       <==> KeepsCore(text, declared, remove) || declared == []
  {
    var r := RenderedLines(text, declared, remove);
    RenderedFaithful(text, declared, remove);
    CutText(r);
    CutAgain(text, declared, remove, r);
    CutCompare(r, KeepsCore(text, declared, remove) || declared == []);
  }

  lemma CutAgain(text: string, declared: seq<RepoSection>, remove: set<string>, r: seq<Line>)
    requires forall i :: 0 <= i < |declared| ==> Declarable(declared[i])
    requires r == RenderedLines(text, declared, remove) && |r| > 1 && r[|r| - 1].kind.Blank?
    requires !EndsLine(text) && EndsLine(Rendered(text, declared, remove))
    requires ReadLines(Body(Rendered(text, declared, remove))) == r[..|r| - 1]
    ensures RenderedLines(Rendered(text, declared, remove), declared, remove)
         == if KeepsCore(text, declared, remove) || declared == [] then r[..|r| - 1] else r
  {
    var names, lines := Names(declared) + remove, ReadLines(Body(text));
    var kept := Removed(lines, names);
    var core := FirstHeader(kept, "core");
    KeptParts(lines, names, kept[..core], kept[core..]);
    RehomedCut(kept[..core], ReadLines(Blocks(declared)), kept[core..], declared, names, r);
  }

  lemma CutCompare(r: seq<Line>, cut: bool)
    requires |r| > 1 && r[|r| - 1].text == ""
    ensures Join(Texts(if cut then r[..|r| - 1] else r), "\n") + "\n" == Join(Texts(r), "\n") + "" <==> cut
  {
    assert Texts(r)[..|r| - 1] == Texts(r[..|r| - 1]);
    CutJoin(Texts(r));
  }

  lemma {:induction false} CutJoin(pieces: seq<string>)
    requires |pieces| > 1 && pieces[|pieces| - 1] == ""
    ensures Join(pieces[..|pieces| - 1], "\n") + "\n" == Join(pieces, "\n") + ""
    ensures Join(pieces, "\n") + "\n" != Join(pieces, "\n") + ""
  {
    var n := |pieces| - 1;
    assert pieces == pieces[..n] + [""];
    JoinAppend(pieces[..n], [""], "\n");
    assert Join([""], "\n") == "";
  }

  lemma BlankStays(names: set<string>)
    ensures Rehomed(ReadLines([""]), [], names) == ReadLines([""])
    ensures Texts(ReadLines([""])) == [""]
  {
    var blank := ReadLines([""]);
    RemovedNoop(blank, names);
    FirstHeaderIs(blank, "core", 1);
    assert blank[..1] + [] + blank[1..] == blank;
  }

  lemma NothingDeclared(text: string, declared: seq<RepoSection>, remove: set<string>)
    requires forall i :: 0 <= i < |declared| ==> Declarable(declared[i])
    requires RenderedLines(text, declared, remove) == []
    ensures declared == []
  {
    BlocksStart(declared);
  }

  lemma EmptyRendering(text: string, declared: seq<RepoSection>, remove: set<string>)
    requires forall i :: 0 <= i < |declared| ==> Declarable(declared[i])
    requires RenderedLines(text, declared, remove) == []
    ensures declared == []
    ensures Rendered(Rendered(text, declared, remove), declared, remove) == Rendered(text, declared, remove)
  {
    NothingDeclared(text, declared, remove);
    assert ReadLines(Blocks(declared)) == [];
    BodyOfJoined([], EndsLine(text));
    assert Texts(RenderedLines(text, declared, remove)) == [];
    BlankStays(Names(declared) + remove);
  }
}
