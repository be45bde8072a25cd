/** Sections, their values and their removal, line by line: the file's own terms, without the lengths
    and ranges the algorithms work with. */
module PacmanMeaning {
  import opened Common
  import opened Text
  import opened PacmanLines
  import opened PacmanSections
  import opened PacmanTheorems

  // ---------------------------------------------------------------- which lines a removal takes

  /** Line `i` belongs to the section whose header is line `h`: it is the header, or a directive of the
      section comes at it or after it. */
  ghost predicate InSection(lines: seq<Line>, h: nat, i: nat) {
    h < |lines| && IsHeader(lines[h]) && (i == h || (h < i && exists j :: DirectiveOf(lines, h, i, j)))
  }

  /** Line `j` is a directive at `i` or later, with no header between the section's and it. */
  predicate DirectiveOf(lines: seq<Line>, h: nat, i: nat, j: nat) {
    h < i <= j < |lines| && lines[j].kind.Entry? && forall k :: h < k <= j ==> !IsHeader(lines[k])
  }

  /** Line `i` is a blank line directly after the section. */
  ghost predicate ClosesSection(lines: seq<Line>, h: nat, i: nat) {
    h < i < |lines| && lines[i].kind.Blank? && InSection(lines, h, i - 1) && !InSection(lines, h, i)
  }

  /** Line `i` goes: it is in a section to be removed, or the blank line after it. */
  ghost predicate Goes(lines: seq<Line>, names: set<string>, i: nat) {
    exists h: nat :: h <= i && h < |lines| && HeaderIn(lines[h], names) && (InSection(lines, h, i) || ClosesSection(lines, h, i))
  }

  /** The other lines from `from` on, in their order. */
  ghost function Staying(lines: seq<Line>, names: set<string>, from: nat): seq<Line>
    requires from <= |lines|
    decreases |lines| - from
  {
    if from == |lines| then []
    else (if Goes(lines, names, from) then [] else [lines[from]]) + Staying(lines, names, from + 1)
  }

  lemma BodyIsSection(lines: seq<Line>, h: nat, i: nat)
    requires h < i <= |lines| && IsHeader(lines[h])
    ensures i < h + 1 + BodyLen(lines[h + 1..]) <==> InSection(lines, h, i)
  {
    var rest := lines[h + 1..];
    var n := BodyLen(rest);
    if i < h + 1 + n {
      var j := h + n;
      assert lines[j] == rest[n - 1];
      forall k | h < k <= j
        ensures !IsHeader(lines[k])
      {
        assert lines[k] == rest[k - h - 1];
      }
      assert DirectiveOf(lines, h, i, j);
    }
    if InSection(lines, h, i) {
      var j :| DirectiveOf(lines, h, i, j);
      DirectiveInBody(lines, h, i, j);
    }
  }

  lemma DirectiveInBody(lines: seq<Line>, h: nat, i: nat, j: nat)
    requires DirectiveOf(lines, h, i, j)
    ensures i < h + 1 + BodyLen(lines[h + 1..])
  {
    var rest := lines[h + 1..];
    forall k | 0 <= k <= j - h - 1
      ensures !IsHeader(rest[k])
    {
      assert rest[k] == lines[h + 1 + k];
    }
    assert rest[j - h - 1] == lines[j];
  }

  /** What is taken with a header is its section and one blank line after it. */
  lemma TakenIsSection(lines: seq<Line>, h: nat, i: nat)
    requires h <= i < |lines| && IsHeader(lines[h])
    ensures i < h + 1 + TakenLen(lines[h + 1..]) <==> InSection(lines, h, i) || ClosesSection(lines, h, i)
  {
    if h < i {
      BodyIsSection(lines, h, i);
      if h + 1 < i {
        BodyIsSection(lines, h, i - 1);
      }
      TakenIsBody(lines, h, i);
    }
  }

  lemma TakenIsBody(lines: seq<Line>, h: nat, i: nat)
    requires h < i < |lines|
    ensures var n := BodyLen(lines[h + 1..]);
            i < h + 1 + TakenLen(lines[h + 1..]) <==> i < h + 1 + n || (i == h + 1 + n && lines[i].kind.Blank?)
  {
    assert lines[h + 1..][i - h - 1] == lines[i];
  }

  /** The removal of header `h` covers line `i`. */
  predicate Covers(lines: seq<Line>, names: set<string>, h: nat, i: nat) {
    h <= i && h < |lines| && HeaderIn(lines[h], names) && i < h + 1 + TakenLen(lines[h + 1..])
  }

  ghost predicate CoveredFrom(lines: seq<Line>, names: set<string>, from: nat, i: nat) {
    exists h: nat :: from <= h && Covers(lines, names, h, i)
  }

  lemma CoveredNext(lines: seq<Line>, names: set<string>, from: nat, i: nat)
    ensures CoveredFrom(lines, names, from, i) <==> Covers(lines, names, from, i) || CoveredFrom(lines, names, from + 1, i)
  {
  }

  lemma {:induction false} CoveredIff(lines: seq<Line>, names: set<string>, from: nat, rs: seq<Range>, i: nat)
    requires from <= |lines| && rs == Ranges(lines, names, from) && i < |lines|
    ensures InSome(i, rs) <==> CoveredFrom(lines, names, from, i)
    decreases |lines| - from
  {
    if from < |lines| {
      var later := Ranges(lines, names, from + 1);
      CoveredIff(lines, names, from + 1, later, i);
      CoveredNext(lines, names, from, i);
      CoveredHere(lines, names, from, rs, later, i);
    }
  }

  lemma CoveredHere(lines: seq<Line>, names: set<string>, from: nat, rs: seq<Range>, later: seq<Range>, i: nat)
    requires from < |lines| && rs == Ranges(lines, names, from) && later == Ranges(lines, names, from + 1)
    ensures InSome(i, rs) <==> Covers(lines, names, from, i) || InSome(i, later)
  {
    RangesHere(lines, names, from);
    if HeaderIn(lines[from], names) {
      var r := Range(from, from + 1 + TakenLen(lines[from + 1..]));
      assert rs == [r] + later;
      InSomeCons(i, r, later);
    } else {
      assert rs == later;
    }
  }

  lemma InSomeCons(i: nat, r: Range, later: seq<Range>)
    ensures InSome(i, [r] + later) <==> r.start <= i < r.end || InSome(i, later)
  {
    var rs := [r] + later;
    if r.start <= i < r.end {
      assert rs[0] == r;
    }
    if InSome(i, later) {
      var k :| 0 <= k < |later| && later[k].start <= i < later[k].end;
      assert rs[k + 1] == later[k];
    }
    if InSome(i, rs) {
      var k :| 0 <= k < |rs| && rs[k].start <= i < rs[k].end;
      assert k > 0 ==> rs[k] == later[k - 1];
    }
  }

  lemma CoveredGoes(lines: seq<Line>, names: set<string>, i: nat)
    requires i < |lines|
    ensures InSome(i, Ranges(lines, names, 0)) <==> Goes(lines, names, i)
  {
    CoveredIff(lines, names, 0, Ranges(lines, names, 0), i);
    forall h: nat | h <= i && HeaderIn(lines[h], names)
      ensures Covers(lines, names, h, i) <==> InSection(lines, h, i) || ClosesSection(lines, h, i)
    {
      TakenIsSection(lines, h, i);
    }
  }

  lemma {:induction false} StayingIsOutside(lines: seq<Line>, names: set<string>, from: nat)
    requires from <= |lines|
    ensures Staying(lines, names, from) == Outside(lines, Ranges(lines, names, 0), from)
    decreases |lines| - from
  {
    if from < |lines| {
      CoveredGoes(lines, names, from);
      StayingIsOutside(lines, names, from + 1);
    }
  }

  /** Removing sections takes exactly their lines, header to last directive, and one blank line
      directly after each: no comment and nothing of a neighbour goes with them. */
  lemma RemovalTakesExactly(lines: seq<Line>, block: seq<Line>, names: set<string>)
    ensures Removed(lines, names) == Staying(lines, names, 0)
    ensures var staying := Staying(lines, names, 0);
            var core := FirstHeader(staying, "core");
            Rehomed(lines, block, names) == staying[..core] + block + staying[core..]
  {
    StayingIsOutside(lines, names, 0);
    var rs := Ranges(lines, names, 0);
    assert lines[0..] == lines;
    RemovedFromIsOutside(lines, names, rs, 0, rs);
  }

  /** A line that is neither blank nor in a removed section stays. */
  lemma OthersStay(lines: seq<Line>, names: set<string>, i: nat)
    requires i < |lines| && Goes(lines, names, i) && !lines[i].kind.Blank?
    ensures exists h: nat :: h <= i && HeaderIn(lines[h], names) && InSection(lines, h, i)
  {
  }

  /** At most one blank line goes with a header besides its section. */
  lemma OneBlankEach(lines: seq<Line>, h: nat, i: nat, j: nat)
    requires ClosesSection(lines, h, i) && ClosesSection(lines, h, j)
    ensures i == j
  {
    if i < j {
      SectionIsClosed(lines, h, i, j - 1);
    } else if j < i {
      SectionIsClosed(lines, h, j, i - 1);
    }
  }

  lemma SectionIsClosed(lines: seq<Line>, h: nat, i: nat, j: nat)
    requires h < i <= j && InSection(lines, h, j)
    ensures InSection(lines, h, i)
  {
    var k :| DirectiveOf(lines, h, j, k);
    assert DirectiveOf(lines, h, i, k);
  }

  // ---------------------------------------------------------------- what a section says

  /** The values given to a key, in order. */
  function Values(ds: seq<Kind>, key: Key): seq<string> {
    if ds == [] then []
    else
      var last := ds[|ds| - 1];
      Values(ds[..|ds| - 1], key) + if last.Entry? && last.key == key then [last.value] else []
  }

  function LastOf(values: seq<string>): Option<string> {
    if values == [] then None else Some(values[|values| - 1])
  }

  /** A section has the last `SigLevel`, the last `Include`, and every `Server` in order. */
  lemma {:induction false} SectionSays(name: string, ds: seq<Kind>)
    ensures WithDirectives(Empty(name), ds) ==
            RepoSection(name, LastOf(Values(ds, SigLevel)), Values(ds, Server), LastOf(Values(ds, Include)))
  {
    if ds != [] {
      var front, last := ds[..|ds| - 1], ds[|ds| - 1];
      assert ds == front + [last];
      SectionSays(name, front);
      WithDirectivesSnoc(Empty(name), front, last);
    }
  }

  /** The directives of a section are the ones among its lines up to the next header. */
  lemma {:induction false} DirectivesUpTo(lines: seq<Line>, n: nat, key: Key)
    requires n == HeadLen(lines)
    ensures Values(Directives(lines), key) == ValuesIn(lines[..n], key)
  {
    KindsUpTo(lines, n);
    ValuesOfKinds(lines[..n], key);
  }

  function ValuesIn(lines: seq<Line>, key: Key): seq<string> {
    if lines == [] then []
    else
      var last := lines[|lines| - 1].kind;
      ValuesIn(lines[..|lines| - 1], key) + if last.Entry? && last.key == key then [last.value] else []
  }

  lemma {:induction false} KindsUpTo(lines: seq<Line>, n: nat)
    requires n == HeadLen(lines)
    ensures Directives(lines) == Directives(lines[..n])
  {
    if n > 0 {
      KindsUpTo(lines[1..], n - 1);
      assert lines[..n][1..] == lines[1..][..n - 1];
    }
  }

  lemma {:induction false} ValuesOfKinds(lines: seq<Line>, key: Key)
    requires forall i :: 0 <= i < |lines| ==> !IsHeader(lines[i])
    ensures Values(Directives(lines), key) == ValuesIn(lines, key)
  {
    if lines != [] {
      var front, last := lines[..|lines| - 1], lines[|lines| - 1];
      assert lines == front + [last];
      ValuesOfKinds(front, key);
      DirectivesSnoc(front, last);
      var ds := Directives(front);
      if last.kind.Entry? {
        assert (ds + [last.kind])[..|ds|] == ds;
      } else {
        assert ds + [] == ds;
      }
    }
  }

  // ---------------------------------------------------------------- what a line says

  predicate AllSpace(s: string) {
    forall c :: c in s ==> IsSpace(c)
  }

  lemma {:induction false} StripLeftCuts(s: string)
    ensures exists a :: AllSpace(a) && s == a + StripLeft(s)
  {
    if s != "" && IsSpace(s[0]) {
      StripLeftCuts(s[1..]);
      var a :| AllSpace(a) && s[1..] == a + StripLeft(s[1..]);
      assert AllSpace([s[0]] + a) && s == [s[0]] + a + StripLeft(s);
    } else {
      assert AllSpace("") && s == "" + s;
    }
  }

  lemma {:induction false} StripLeftOf(a: string, s: string)
    requires AllSpace(a) && (s == "" || !IsSpace(s[0]))
    ensures StripLeft(a + s) == s
  {
    if a == "" {
      assert a + s == s;
    } else {
      assert (a + s)[1..] == a[1..] + s && a[0] in a;
      StripLeftOf(a[1..], s);
    }
  }

  /** The text is a directive: the key, spaces, `=`, and the value with spaces around it. */
  predicate ReadsDirective(text: string, key: Key, blanks: string, raw: string) {
    AllSpace(blanks) && text == KeyName(key) + blanks + "=" + raw
  }

  /** A line is a directive exactly when it is, outer spaces aside, `key = value`, whatever spaces
      there are around the sign; a comment is none. */
  lemma DirectiveIff(line: string, key: Key, value: string)
    ensures Classify(line) == Entry(key, value) <==>
      exists blanks, raw :: ReadsDirective(Strip(line), key, blanks, raw) && value == Strip(raw)
  {
    var s := Strip(line);
    if Classify(line) == Entry(key, value) {
      DirectiveReads(s, key);
    }
    forall blanks, raw | ReadsDirective(s, key, blanks, raw) && value == Strip(raw)
      ensures Classify(line) == Entry(key, value)
    {
      DirectiveIsRead(s, key, blanks, raw);
      OneKey(s, key);
    }
  }

  lemma DirectiveReads(s: string, key: Key)
    requires Directive(s, key).Some?
    ensures exists blanks, raw :: ReadsDirective(s, key, blanks, raw) && Directive(s, key).value == Strip(raw)
  {
    var tail := s[|KeyName(key)|..];
    StripLeftCuts(tail);
    var a :| AllSpace(a) && tail == a + StripLeft(tail);
    var raw := StripLeft(tail)[1..];
    ReadsParts(s, key, tail, a, StripLeft(tail), raw);
  }

  lemma ReadsParts(s: string, key: Key, tail: string, a: string, signed: string, raw: string)
    requires KeyName(key) <= s && tail == s[|KeyName(key)|..] && tail == a + signed && AllSpace(a)
    requires signed != "" && signed[0] == '=' && raw == signed[1..]
    ensures ReadsDirective(s, key, a, raw)
  {
    assert signed == "=" + raw;
    assert s == KeyName(key) + tail;
    assert KeyName(key) + (a + ("=" + raw)) == KeyName(key) + a + "=" + raw;
  }

  lemma DirectiveIsRead(s: string, key: Key, blanks: string, raw: string)
    requires ReadsDirective(s, key, blanks, raw)
    ensures Directive(s, key) == Some(Strip(raw))
  {
    var name, signed := KeyName(key), "=" + raw;
    assert s == name + (blanks + signed);
    assert s[|name|..] == blanks + signed;
    StripLeftOf(blanks, signed);
    assert signed[1..] == raw;
  }

  lemma OneKey(s: string, key: Key)
    requires Directive(s, key).Some?
    ensures s != "" && s[0] != '[' && s[0] != '#'
    ensures forall other: Key :: other != key ==> Directive(s, other).None?
  {
    assert s[0] == KeyName(key)[0];
    forall other: Key | other != key
      ensures Directive(s, other).None?
    {
      NotBothKeys(s, key, other);
    }
  }

  lemma NotBothKeys(s: string, key: Key, other: Key)
    requires key != other && KeyName(key) <= s
    ensures !(KeyName(other) <= s)
  {
    assert s[0] == KeyName(key)[0] && s[1] == KeyName(key)[1];
    assert KeyName(other)[0] != s[0] || KeyName(other)[1] != s[1];
  }

  /** A line is a header exactly when it is, outer spaces aside, a name without brackets in brackets. */
  lemma HeaderIff(line: string, name: string)
    ensures Classify(line) == Header(name) <==> Strip(line) == "[" + name + "]" && name != "" && NoBrackets(name)
  {
    var s := Strip(line);
    if s == "[" + name + "]" && name != "" {
      assert s[1..|s| - 1] == name;
    }
    if Classify(line) == Header(name) {
      assert s == "[" + s[1..|s| - 1] + "]";
    }
  }

  /** A commented line says nothing, whatever follows the `#`. */
  lemma CommentSaysNothing(line: string)
    requires Strip(line) != "" && Strip(line)[0] == '#'
    ensures Classify(line) == Other
  {
    var s := Strip(line);
    forall key: Key
      ensures Directive(s, key).None?
    {
      assert KeyName(key)[0] != '#';
    }
  }
}
