/** The text of a declared section, and what it reads back as. */
module PacmanBlocks {
  import opened Common
  import opened Text
  import opened PacmanLines
  import opened PacmanSections
  import opened PacmanTheorems

  // ---------------------------------------------------------------- stripping

  lemma {:induction false} StripRightAppend(p: string, x: string)
    requires p != "" && !IsSpace(p[|p| - 1])
    ensures StripRight(p + x) == p + StripRight(x)
  {
    if x == "" {
      assert p + x == p;
    } else {
      var n := |x| - 1;
      assert (p + x)[|p + x| - 1] == x[n] && (p + x)[..|p + x| - 1] == p + x[..n];
      if IsSpace(x[n]) {
        StripRightAppend(p, x[..n]);
      }
    }
  }

  lemma {:induction false} StripLeftSnoc(x: string, c: char)
    requires IsSpace(c)
    ensures StripLeft(x + [c]) == if StripLeft(x) == "" then "" else StripLeft(x) + [c]
  {
    if x == "" {
      assert x + [c] == [c];
      assert [c][1..] == "";
    } else if IsSpace(x[0]) {
      StripLeftSnoc(x[1..], c);
      assert (x + [c])[1..] == x[1..] + [c];
    } else {
      assert (x + [c])[0] == x[0];
    }
  }

  /** Trailing whitespace can be cut before or after. */
  lemma {:induction false} StripOfRight(x: string)
    ensures Strip(StripRight(x)) == Strip(x)
  {
    if x != "" && IsSpace(x[|x| - 1]) {
      var init, c := x[..|x| - 1], x[|x| - 1];
      assert x == init + [c];
      StripOfRight(init);
      StripLeftSnoc(init, c);
      var l := StripLeft(init);
      if l != "" {
        assert (l + [c])[..|l|] == l;
      }
    }
  }

  lemma NotPrefix(k: Key, other: Key, x: string)
    requires k != other
    ensures !(KeyName(other) <= KeyName(k) + " =" + x)
  {
    var s := KeyName(k) + " =" + x;
    assert s[..|KeyName(k)| + 2] == KeyName(k) + " =";
    assert s[0] == KeyName(k)[0] && s[1] == KeyName(k)[1];
  }

  lemma DirectiveValue(k: Key, tail: string)
    ensures Directive(KeyName(k) + " =" + tail, k) == Some(Strip(tail))
  {
    var s := KeyName(k) + " =" + tail;
    assert s[|KeyName(k)|..] == " =" + tail;
    assert (" =" + tail)[1..] == "=" + tail;
    assert StripLeft(" =" + tail) == "=" + tail;
    assert ("=" + tail)[1..] == tail;
  }

  lemma ClassifyDirective(s: string, k: Key, tail: string)
    requires s == KeyName(k) + " =" + tail && Strip(s) == s
    ensures Classify(s) == Entry(k, Strip(tail))
  {
    DirectiveValue(k, tail);
    assert s[0] == KeyName(k)[0];
    forall other: Key | other != k
      ensures Directive(s, other) == None
    {
      NotPrefix(k, other, tail);
    }
  }

  lemma ClassifyStripped(line: string)
    ensures Strip(Strip(line)) == Strip(line) ==> Classify(line) == Classify(Strip(line))
  {
  }

  lemma StripDirective(k: Key, v: string, tail: string)
    requires tail == StripRight(" " + v)
    ensures var s := KeyName(k) + " =" + tail;
            Strip(KeyName(k) + " = " + v) == s && Strip(s) == s
  {
    var p := KeyName(k) + " =";
    assert KeyName(k) + " = " + v == p + (" " + v);
    StripRightAppend(p, " " + v);
    StripRightTwice(p + (" " + v));
    assert (p + (" " + v))[0] == KeyName(k)[0] && (p + tail)[0] == KeyName(k)[0];
  }

  lemma {:induction false} StripRightTwice(s: string)
    ensures StripRight(StripRight(s)) == StripRight(s)
  {
    if s != "" && IsSpace(s[|s| - 1]) {
      StripRightTwice(s[..|s| - 1]);
    }
  }

  /** A directive line reads back as its key and its trimmed value. */
  lemma DirectiveLine(k: Key, v: string)
    ensures Classify(KeyName(k) + " = " + v) == Entry(k, Strip(v))
  {
    var tail := StripRight(" " + v);
    var s := KeyName(k) + " =" + tail;
    StripDirective(k, v, tail);
    ClassifyDirective(s, k, tail);
    ClassifyStripped(KeyName(k) + " = " + v);
    StripOfRight(" " + v);
    assert (" " + v)[1..] == v;
    assert Strip(" " + v) == Strip(v);
  }

  /** The three directives as `render` writes them. */
  lemma DirectiveLines(v: string)
    ensures Classify("SigLevel = " + v) == Entry(SigLevel, Strip(v))
    ensures Classify("Server = " + v) == Entry(Server, Strip(v))
    ensures Classify("Include = " + v) == Entry(Include, Strip(v))
  {
    DirectiveLine(SigLevel, v);
    DirectiveLine(Server, v);
    DirectiveLine(Include, v);
    assert KeyName(SigLevel) + " = " + v == "SigLevel = " + v;
    assert KeyName(Server) + " = " + v == "Server = " + v;
    assert KeyName(Include) + " = " + v == "Include = " + v;
  }

  predicate ValidName(n: string) {
    n != "" && NoBrackets(n) && '\n' !in n
  }

  lemma HeaderLine(n: string)
    requires ValidName(n)
    ensures Classify("[" + n + "]") == Header(n)
  {
    var s := "[" + n + "]";
    assert Strip(s) == s;
    assert s[1..|s| - 1] == n;
  }

  // ---------------------------------------------------------------- rendering a section

  function ServerLines(servers: seq<string>): seq<string> {
    if servers == [] then [] else ["Server = " + servers[0]] + ServerLines(servers[1..])
  }

  function KeyLines(s: RepoSection): seq<string> {
    (if s.sigLevel.Some? then ["SigLevel = " + s.sigLevel.value] else [])
    + (if s.includeFile.Some? then ["Include = " + s.includeFile.value] else ServerLines(s.servers))
  }

  /** `_render_block`. */
  method RenderBlock(s: RepoSection) returns (lines: seq<string>)
    ensures lines == Block(s)
  {
    lines := ["[" + s.name + "]"];
    ghost var header := lines;
    ghost var sig: seq<string> := [];
    if s.sigLevel.Some? {
      sig := ["SigLevel = " + s.sigLevel.value];
      lines := lines + ["SigLevel = " + s.sigLevel.value];
    }
    assert lines == header + sig;
    if s.includeFile.Some? {
      lines := lines + ["Include = " + s.includeFile.value];
      assert lines == header + KeyLines(s);
    } else {
      for i := 0 to |s.servers|
        invariant lines + ServerLines(s.servers[i..]) == header + sig + ServerLines(s.servers)
      {
        lines := lines + ["Server = " + s.servers[i]];
      }
      assert KeyLines(s) == sig + ServerLines(s.servers);
      assert header + sig + ServerLines(s.servers) == header + KeyLines(s);
    }
    lines := lines + [""];
  }

  function Block(s: RepoSection): seq<string> {
    ["[" + s.name + "]"] + KeyLines(s) + [""]
  }

  function Blocks(declared: seq<RepoSection>): seq<string> {
    if declared == [] then [] else Block(declared[0]) + Blocks(declared[1..])
  }

  function Stripped(values: seq<string>): (r: seq<string>)
    ensures |r| == |values| && forall i :: 0 <= i < |r| ==> r[i] == Strip(values[i])
  {
    seq(|values|, i requires 0 <= i < |values| => Strip(values[i]))
  }

  function StrippedOption(v: Option<string>): Option<string> {
    if v.Some? then Some(Strip(v.value)) else None
  }

  /** What a rendered section says to a reader. */
  function Effective(s: RepoSection): RepoSection {
    RepoSection(s.name, StrippedOption(s.sigLevel),
                if s.includeFile.Some? then [] else Stripped(s.servers), StrippedOption(s.includeFile))
  }

  predicate Trimmed(v: string) {
    Strip(v) == v
  }

  /** Trimmed values, and an include or servers but not both. */
  predicate WellFormed(s: RepoSection) {
    && (s.sigLevel.Some? ==> Trimmed(s.sigLevel.value))
    && (s.includeFile.Some? ==> Trimmed(s.includeFile.value) && s.servers == [])
    && (forall i :: 0 <= i < |s.servers| ==> Trimmed(s.servers[i]))
  }

  // ---------------------------------------------------------------- reading it back

  function ServerKinds(servers: seq<string>): seq<Kind> {
    if servers == [] then [] else [Entry(Server, Strip(servers[0]))] + ServerKinds(servers[1..])
  }

  function KeyKinds(s: RepoSection): seq<Kind> {
    (if s.sigLevel.Some? then [Entry(SigLevel, Strip(s.sigLevel.value))] else [])
    + (if s.includeFile.Some? then [Entry(Include, Strip(s.includeFile.value))] else ServerKinds(s.servers))
  }

  predicate LineReadsAs(text: string, kind: Kind) {
    kind.Entry? && Classify(text) == kind
  }

  /** Line by line, the texts classify as the directives. */
  predicate ReadAs(texts: seq<string>, kinds: seq<Kind>) {
    |texts| == |kinds| && forall i :: 0 <= i < |kinds| ==> LineReadsAs(texts[i], kinds[i])
  }

  lemma ReadAsAppend(a: seq<string>, p: seq<Kind>, b: seq<string>, q: seq<Kind>)
    requires ReadAs(a, p) && ReadAs(b, q)
    ensures ReadAs(a + b, p + q)
  {
    forall i | 0 <= i < |p + q|
      ensures LineReadsAs((a + b)[i], (p + q)[i])
    {
      if i < |p| {
        assert LineReadsAs(a[i], p[i]);
      } else {
        assert LineReadsAs(b[i - |p|], q[i - |p|]);
      }
    }
  }

  lemma {:induction false} ServerLinesRead(servers: seq<string>)
    ensures ReadAs(ServerLines(servers), ServerKinds(servers))
  {
    if servers != [] {
      ServerLinesRead(servers[1..]);
      DirectiveLines(servers[0]);
      assert LineReadsAs("Server = " + servers[0], Entry(Server, Strip(servers[0])));
      ReadAsAppend(["Server = " + servers[0]], [Entry(Server, Strip(servers[0]))], ServerLines(servers[1..]), ServerKinds(servers[1..]));
    }
  }

  lemma KeyLinesRead(s: RepoSection)
    ensures ReadAs(KeyLines(s), KeyKinds(s))
  {
    ServerLinesRead(s.servers);
    if s.sigLevel.Some? {
      DirectiveLines(s.sigLevel.value);
    }
    if s.includeFile.Some? {
      DirectiveLines(s.includeFile.value);
    }
    ReadAsAppend(
      if s.sigLevel.Some? then ["SigLevel = " + s.sigLevel.value] else [],
      if s.sigLevel.Some? then [Entry(SigLevel, Strip(s.sigLevel.value))] else [],
      if s.includeFile.Some? then ["Include = " + s.includeFile.value] else ServerLines(s.servers),
      if s.includeFile.Some? then [Entry(Include, Strip(s.includeFile.value))] else ServerKinds(s.servers));
  }

  lemma {:induction false} DirectivesThenBlank(lines: seq<Line>, kinds: seq<Kind>)
    requires |lines| == |kinds| + 1 && lines[|kinds|].kind.Blank?
    requires forall i :: 0 <= i < |kinds| ==> kinds[i].Entry? && lines[i].kind == kinds[i]
    ensures Directives(lines) == kinds
  {
    if kinds == [] {
      assert lines[1..] == [];
    } else {
      DirectivesThenBlank(lines[1..], kinds[1..]);
      assert kinds == [kinds[0]] + kinds[1..];
    }
  }

  lemma {:induction false} NoHeadersNoSections(lines: seq<Line>)
    requires forall i :: 0 <= i < |lines| ==> !IsHeader(lines[i])
    ensures Sections(lines) == []
  {
    if lines != [] {
      NoHeadersNoSections(lines[1..]);
    }
  }

  lemma StrippedCons(before: seq<string>, servers: seq<string>)
    requires servers != []
    ensures before + [Strip(servers[0])] + Stripped(servers[1..]) == before + Stripped(servers)
  {
    assert Stripped(servers) == [Strip(servers[0])] + Stripped(servers[1..]);
  }

  lemma {:induction false} WithServers(s: RepoSection, servers: seq<string>)
    ensures WithDirectives(s, ServerKinds(servers)) == s.(servers := s.servers + Stripped(servers))
    decreases servers
  {
    if servers == [] {
      assert s.servers + Stripped(servers) == s.servers;
    } else {
      var next := s.(servers := s.servers + [Strip(servers[0])]);
      WithServers(next, servers[1..]);
      StrippedCons(s.servers, servers);
      assert ServerKinds(servers)[1..] == ServerKinds(servers[1..]);
    }
  }

  lemma WithKeyKinds(s: RepoSection)
    ensures WithDirectives(Empty(s.name), KeyKinds(s)) == Effective(s)
  {
    var e := Empty(s.name).(sigLevel := StrippedOption(s.sigLevel));
    var tail := if s.includeFile.Some? then [Entry(Include, Strip(s.includeFile.value))] else ServerKinds(s.servers);
    assert WithDirectives(Empty(s.name), KeyKinds(s)) == WithDirectives(e, tail) by {
      if s.sigLevel.Some? {
        assert KeyKinds(s)[1..] == tail;
      } else {
        assert KeyKinds(s) == tail;
      }
    }
    if s.includeFile.Some? {
      var d := Entry(Include, Strip(s.includeFile.value));
      WithDirectivesSnoc(e, [], d);
      assert [] + [d] == tail;
      assert WithDirectives(e, []) == e;
    } else {
      WithServers(e, s.servers);
      assert e.servers + Stripped(s.servers) == Stripped(s.servers);
    }
  }

  /** The shape of a rendered section: its header, directives, one blank line. */
  lemma BlockShape(s: RepoSection)
    requires ValidName(s.name)
    ensures var b := ReadLines(Block(s));
            && |b| == |KeyKinds(s)| + 2 && b[0].kind == Header(s.name)
            && (forall i :: 0 <= i < |KeyKinds(s)| ==> KeyKinds(s)[i].Entry? && b[i + 1].kind == KeyKinds(s)[i])
            && (forall i :: 0 < i < |b| - 1 ==> b[i].kind.Entry?)
            && b[|b| - 1].kind.Blank? && b[|b| - 1].text == ""
  {
    HeaderLine(s.name);
    KeyLinesRead(s);
    var t := Block(s);
    assert t[0] == "[" + s.name + "]";
    forall i | 0 <= i < |KeyKinds(s)|
      ensures KeyKinds(s)[i].Entry? && Classify(t[i + 1]) == KeyKinds(s)[i]
    {
      assert t[i + 1] == KeyLines(s)[i];
      assert LineReadsAs(KeyLines(s)[i], KeyKinds(s)[i]);
    }
    assert t[|t| - 1] == "";
    var b := ReadLines(t);
    forall i | 0 < i < |b| - 1
      ensures b[i].kind.Entry?
    {
      assert b[(i - 1) + 1].kind == KeyKinds(s)[i - 1];
    }
  }

  /** A rendered section reads back as one section, with its values trimmed, and without its
      servers when it also has an include. */
  lemma BlockParsesTo(s: RepoSection)
    requires ValidName(s.name) && s.name != "options"
    ensures Sections(ReadLines(Block(s))) == [Effective(s)]
  {
    var b := ReadLines(Block(s));
    BlockShape(s);
    DirectivesThenBlank(b[1..], KeyKinds(s));
    NoHeadersNoSections(b[1..]);
    WithKeyKinds(s);
  }

  /** A section survives rendering exactly when its values are trimmed and it does not hold both
      an include and servers. */
  lemma BlockRoundTripIff(s: RepoSection)
    requires ValidName(s.name) && s.name != "options"
    ensures Sections(ReadLines(Block(s))) == [s] <==> WellFormed(s)
  {
    BlockParsesTo(s);
    EffectiveIff(s);
  }

  lemma ReadAppend(a: seq<string>, b: seq<string>)
    ensures ReadLines(a + b) == ReadLines(a) + ReadLines(b)
  {
  }

  lemma BlocksStart(declared: seq<RepoSection>)
    requires forall i :: 0 <= i < |declared| ==> ValidName(declared[i].name)
    ensures StartsSection(ReadLines(Blocks(declared)))
    ensures declared != [] ==> |Blocks(declared)| >= 2
  {
    if declared != [] {
      BlockShape(declared[0]);
      ReadAppend(Block(declared[0]), Blocks(declared[1..]));
    }
  }

  /** What all rendered sections say to a reader. */
  function AllEffective(declared: seq<RepoSection>): seq<RepoSection> {
    if declared == [] then [] else [Effective(declared[0])] + AllEffective(declared[1..])
  }

  lemma {:induction false} BlocksParseTo(declared: seq<RepoSection>)
    requires forall i :: 0 <= i < |declared| ==> ValidName(declared[i].name) && declared[i].name != "options"
    ensures Sections(ReadLines(Blocks(declared))) == AllEffective(declared)
  {
    if declared != [] {
      var rest := declared[1..];
      BlocksParseTo(rest);
      BlocksStart(rest);
      BlockParsesTo(declared[0]);
      ReadAppend(Block(declared[0]), Blocks(rest));
      SectionsAppend(ReadLines(Block(declared[0])), ReadLines(Blocks(rest)));
    }
  }

  lemma EffectiveIff(s: RepoSection)
    ensures Effective(s) == s <==> WellFormed(s)
  {
    var r := Stripped(s.servers);
    if r != s.servers {
      assert exists i :: 0 <= i < |r| && r[i] != s.servers[i];
    }
  }

  lemma {:induction false} AllEffectiveIff(declared: seq<RepoSection>)
    ensures |AllEffective(declared)| == |declared|
    ensures AllEffective(declared) == declared <==> forall i :: 0 <= i < |declared| ==> WellFormed(declared[i])
  {
    if declared != [] {
      var first, rest := declared[0], declared[1..];
      EffectiveIff(first);
      AllEffectiveIff(rest);
      assert declared == [first] + rest;
      assert AllEffective(declared) == declared <==> Effective(first) == first && AllEffective(rest) == rest by {
        assert AllEffective(declared)[1..] == AllEffective(rest) && AllEffective(declared)[0] == Effective(first);
      }
    }
  }

  /** The rendered sections are removed whole when they are removed again. */
  lemma {:induction false} BlocksRemoved(declared: seq<RepoSection>, names: set<string>)
    requires forall i :: 0 <= i < |declared| ==> ValidName(declared[i].name) && declared[i].name in names
    ensures Removed(ReadLines(Blocks(declared)), names) == []
  {
    if declared != [] {
      var rest := declared[1..];
      BlocksRemoved(rest, names);
      BlocksStart(rest);
      BlockShape(declared[0]);
      RemovedWholeSection(ReadLines(Block(declared[0])), names);
      ReadAppend(Block(declared[0]), Blocks(rest));
      RemovedTwoParts(ReadLines(Block(declared[0])), ReadLines(Blocks(rest)), names);
    }
  }

  /** The rendered sections without the last one's blank line. */
  function CutBlocks(declared: seq<RepoSection>): seq<string>
    requires declared != []
  {
    if |declared| == 1 then ["[" + declared[0].name + "]"] + KeyLines(declared[0])
    else Block(declared[0]) + CutBlocks(declared[1..])
  }

  lemma {:induction false} CutBlocksIs(declared: seq<RepoSection>)
    requires declared != []
    ensures Blocks(declared) == CutBlocks(declared) + [""]
    ensures CutBlocks(declared)[0] == "[" + declared[0].name + "]"
  {
    if |declared| == 1 {
      assert declared[1..] == [];
      assert Blocks(declared) == Block(declared[0]) + [];
    } else {
      CutBlocksIs(declared[1..]);
      assert Block(declared[0]) + (CutBlocks(declared[1..]) + [""]) == CutBlocks(declared) + [""];
    }
  }

  lemma CutBlocksStart(declared: seq<RepoSection>)
    requires declared != [] && ValidName(declared[0].name)
    ensures StartsSection(ReadLines(CutBlocks(declared)))
  {
    CutBlocksIs(declared);
    HeaderLine(declared[0].name);
  }

  /** Even when the file ends before the last section's blank line. */
  lemma {:induction false} CutBlocksRemoved(declared: seq<RepoSection>, names: set<string>)
    requires declared != []
    requires forall i :: 0 <= i < |declared| ==> ValidName(declared[i].name) && declared[i].name in names
    ensures Removed(ReadLines(CutBlocks(declared)), names) == []
  {
    if |declared| == 1 {
      CutBlockRemoved(declared[0], names);
    } else {
      var rest := declared[1..];
      CutBlocksRemoved(rest, names);
      CutBlocksStart(rest);
      BlockRemoved(declared[0], names);
      ReadAppend(Block(declared[0]), CutBlocks(rest));
      RemovedTwoParts(ReadLines(Block(declared[0])), ReadLines(CutBlocks(rest)), names);
    }
  }

  lemma RemovedTwoParts(a: seq<Line>, b: seq<Line>, names: set<string>)
    requires StartsSection(b) && Removed(a, names) == [] && Removed(b, names) == []
    ensures Removed(a + b, names) == []
  {
    RemovedAppend(a, b, names);
  }

  lemma BlockRemoved(s: RepoSection, names: set<string>)
    requires ValidName(s.name) && s.name in names
    ensures Removed(ReadLines(Block(s)), names) == []
  {
    BlockShape(s);
    RemovedWholeSection(ReadLines(Block(s)), names);
  }

  lemma CutBlockRemoved(s: RepoSection, names: set<string>)
    requires ValidName(s.name) && s.name in names
    ensures Removed(ReadLines(["[" + s.name + "]"] + KeyLines(s)), names) == []
  {
    BlockShape(s);
    var cut := ReadLines(["[" + s.name + "]"] + KeyLines(s));
    assert forall i :: 0 <= i < |cut| ==> cut[i] == ReadLines(Block(s))[i];
    RemovedWholeSection(cut, names);
  }

  /** Every declared section has its header in the rendered text. */
  lemma {:induction false} HeaderPresent(declared: seq<RepoSection>, i: nat) returns (at: nat)
    requires i < |declared| && ValidName(declared[i].name)
    ensures at < |Blocks(declared)| && Classify(Blocks(declared)[at]) == Header(declared[i].name)
  {
    if i == 0 {
      HeaderLine(declared[0].name);
      at := 0;
    } else {
      var j := HeaderPresent(declared[1..], i - 1);
      at := |Block(declared[0])| + j;
      assert Blocks(declared)[at] == Blocks(declared[1..])[j];
    }
  }

  lemma OnlyOwnHeader(s: RepoSection, at: nat)
    requires ValidName(s.name) && at < |Block(s)| && Classify(Block(s)[at]).Header?
    ensures Classify(Block(s)[at]) == Header(s.name)
  {
    BlockShape(s);
    var b := ReadLines(Block(s));
    assert b[at].kind == Classify(Block(s)[at]);
  }

  /** No other header is. */
  lemma {:induction false} HeaderDeclared(declared: seq<RepoSection>, at: nat)
    requires forall i :: 0 <= i < |declared| ==> ValidName(declared[i].name)
    requires at < |Blocks(declared)| && Classify(Blocks(declared)[at]).Header?
    ensures exists i :: 0 <= i < |declared| && Header(declared[i].name) == Classify(Blocks(declared)[at])
  {
    var first, rest := Block(declared[0]), declared[1..];
    if at < |first| {
      assert Blocks(declared)[at] == first[at];
      OnlyOwnHeader(declared[0], at);
    } else {
      assert Blocks(declared)[at] == Blocks(rest)[at - |first|];
      HeaderDeclared(rest, at - |first|);
      var i :| 0 <= i < |rest| && Header(rest[i].name) == Classify(Blocks(rest)[at - |first|]);
      assert declared[i + 1] == rest[i];
    }
  }
}
